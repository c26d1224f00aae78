/** Sizes and alignments as `std::alloc::Layout` describes them. */
module Alignment {

  /** A memory layout: the size in bytes and the alignment of an allocation. */
  datatype Layout = Layout(size: nat, align: nat) {

    /** The part of Rust's `Layout` invariant kept here: the alignment is a power of two. */
    predicate Valid() {
      IsPowerOfTwo(align)
    }
  }

  /** 1, 2, 4, 8, ... */
  predicate IsPowerOfTwo(n: nat)
    decreases n
  {
    n == 1 || (n >= 2 && n % 2 == 0 && IsPowerOfTwo(n / 2))
  }

  /**
   * `x` is a multiple of the power of two `align` (so an address `x` is aligned on `align`).
   * Defined by halving both, which keeps every division by a constant.
   */
  predicate MultipleOf(x: nat, align: nat)
    requires IsPowerOfTwo(align)
    decreases align
  {
    align == 1 || (x % 2 == 0 && MultipleOf(x / 2, align / 2))
  }

  /** Aligned on a power of two implies aligned on every smaller power of two. */
  lemma {:induction false} MultipleOfSmaller(x: nat, a: nat, b: nat)
    requires IsPowerOfTwo(a) && IsPowerOfTwo(b) && a <= b
    requires MultipleOf(x, b)
    ensures MultipleOf(x, a)
  {
    if a != 1 {
      MultipleOfSmaller(x / 2, a / 2, b / 2);
    }
  }

  /** Multiples of `align` are closed under addition. */
  lemma {:induction false} MultipleOfSum(x: nat, y: nat, align: nat)
    requires IsPowerOfTwo(align)
    requires MultipleOf(x, align) && MultipleOf(y, align)
    ensures MultipleOf(x + y, align)
  {
    if align != 1 {
      assert (x + y) / 2 == x / 2 + y / 2;
      MultipleOfSum(x / 2, y / 2, align / 2);
    }
  }

  /** Multiples of `align` are closed under (non-negative) subtraction. */
  lemma {:induction false} MultipleOfDifference(x: nat, y: nat, align: nat)
    requires IsPowerOfTwo(align) && y <= x
    requires MultipleOf(x, align) && MultipleOf(y, align)
    ensures MultipleOf(x - y, align)
  {
    if align != 1 {
      assert (x - y) / 2 == x / 2 - y / 2;
      MultipleOfDifference(x / 2, y / 2, align / 2);
    }
  }

  /**
   * Subtracting a multiple of a smaller power of two from the end of a block
   * aligned on the larger one, with a size that is a multiple of it, stays
   * aligned on the smaller one.
   */
  lemma TopMinusMultipleIsAligned(ptr: nat, size: nat, sub: nat, small: nat, large: nat)
    requires IsPowerOfTwo(small) && IsPowerOfTwo(large) && small <= large
    requires MultipleOf(sub, small)
    requires MultipleOf(ptr, large) && MultipleOf(size, large)
    requires size >= sub
    ensures MultipleOf(ptr + size - sub, small)
  {
    var top := ptr + size;
    MultipleOfSum(ptr, size, large);
    MultipleOfSmaller(top, small, large);
    MultipleOfDifference(top, sub, small);
  }
}
