/**
 * `Allocator::from_raw_parts`: wrapping a caller-supplied memory block as an
 * allocator whose single chunk is that block, with the footer at its top.
 */
module RawParts {
  import opened Alignment
  import opened Footer

  /**
   * `Allocator::RAW_MIN_SIZE`: a block must at least hold one footer. The
   * compile-time assertion makes it at least `RAW_MIN_ALIGN`.
   */
  function RawMinSize(p: Platform): (r: nat)
    ensures r == p.footerSize
    ensures p.Valid() ==> r >= RawMinAlign(p)
  {
    p.footerSize
  }

  /** `Allocator::RAW_MIN_ALIGN`: the chunk alignment, a power of two that also satisfies the footer's alignment. */
  function RawMinAlign(p: Platform): (r: nat)
    ensures r == p.chunkAlign
    ensures p.Valid() ==> IsPowerOfTwo(r) && r >= p.footerAlign
  {
    p.chunkAlign
  }

  /** An allocation the caller holds: its base address and the layout it was made with. */
  datatype Allocation = Allocation(base: nat, layout: Layout) {

    /** The bytes `[ptr, ptr + size)` lie inside this allocation. */
    predicate Contains(ptr: nat, size: nat) {
      base <= ptr && ptr + size <= base + layout.size
    }
  }

  /** The safety requirements of `from_raw_parts`; nothing checks them at run time. */
  predicate RawPreconditions(p: Platform, ptr: nat, layout: Layout, within: Allocation)
    requires p.Valid()
  {
    && MultipleOf(ptr, RawMinAlign(p))
    && MultipleOf(layout.size, RawMinAlign(p))
    && layout.size >= RawMinSize(p)
    && layout.align >= RawMinAlign(p)
    && within.Contains(ptr, layout.size)
  }

  /** An allocator: a table of owned chunks and the current chunk, whose links lead back to the empty chunk. */
  datatype Allocator = Allocator(chunks: ChunkTable, current: ChunkRef) {

    /**
     * The links are well formed, every owned chunk is on the list from the
     * current chunk, and distinct chunks are distinct allocations.
     */
    predicate Valid() {
      && WellLinked(chunks)
      && RefIn(chunks, current)
      && (forall id | id in chunks :: id in Chain(chunks, current))
      && (forall i, j | i in chunks && j in chunks && i != j :: chunks[i].start != chunks[j].start)
    }

    /** The footer of the current chunk. */
    function CurrentChunk(p: Platform): ChunkFooter
      requires Valid()
    {
      Deref(p, chunks, current)
    }
  }

  /** How the owner disposes of an allocator: an ordinary drop, or keeping it from being dropped (`ManuallyDrop`). */
  datatype Disposal = Drop | ManuallyDrop

  /**
   * The deallocations that disposing of `a` performs, one `(ptr, layout)`
   * per owned chunk, newest first; the empty chunk is never released.
   */
  function Released(p: Platform, a: Allocator, d: Disposal): (frees: seq<(nat, Layout)>)
    requires a.Valid()
    ensures d.ManuallyDrop? ==> frees == []
    ensures d.Drop? ==> |frees| == |Chain(a.chunks, a.current)|
    ensures d.Drop? ==> forall i | 0 <= i < |frees| ::
      frees[i] == a.chunks[Chain(a.chunks, a.current)[i]].StartPtrAndLayout(p)
  {
    match d
    case ManuallyDrop => []
    case Drop =>
      var ids := Chain(a.chunks, a.current);
      seq(|ids|, i requires 0 <= i < |ids| => a.chunks[ids[i]].StartPtrAndLayout(p))
  }

  /** A drop frees every owned chunk, and no allocation twice. */
  lemma DropReleasesEachChunkOnce(p: Platform, a: Allocator)
    requires a.Valid()
    ensures forall id | id in a.chunks :: a.chunks[id].StartPtrAndLayout(p) in Released(p, a, Drop)
    ensures forall i, j | 0 <= i < j < |Released(p, a, Drop)| :: Released(p, a, Drop)[i] != Released(p, a, Drop)[j]
  {
  }

  /**
   * `Allocator::from_raw_parts(ptr, layout)`: the block becomes the single,
   * current chunk. Its footer sits at the top of the block, `start` is `ptr`,
   * the alignment is `layout.align()`, the link is the empty chunk, and the
   * cursor is at the footer (the whole block is free).
   */
  function FromRawParts(p: Platform, ptr: nat, layout: Layout, within: Allocation): (a: Allocator)
    requires p.Valid() && layout.Valid()
    requires RawPreconditions(p, ptr, layout, within)
    ensures a.Valid() && a.current.Chunk? && a.chunks.Keys == {a.current.id}
    ensures a.CurrentChunk(p).start == ptr
    ensures a.CurrentChunk(p).addr + RawMinSize(p) == ptr + layout.size
    ensures a.CurrentChunk(p).alignment == layout.align
    ensures a.CurrentChunk(p).previous == Empty
    ensures MultipleOf(a.CurrentChunk(p).addr, p.footerAlign)
    ensures a.CurrentChunk(p).StartPtrAndLayout(p) == (ptr, layout)
    ensures a.CurrentChunk(p).Capacity() == layout.size - RawMinSize(p)
    ensures a.CurrentChunk(p).UsedBytes() == 0
  {
    var footerAddr := ptr + layout.size - p.footerSize;
    FooterIsAligned(p, ptr, layout.size);
    var footer := ChunkFooter(footerAddr, ptr, footerAddr, Empty, layout.align);
    Allocator(map[0 := footer], Chunk(0))
  }

  /** A footer placed at the top of a chunk-aligned block of chunk-aligned size is itself properly aligned. */
  lemma FooterIsAligned(p: Platform, ptr: nat, size: nat)
    requires p.Valid()
    requires MultipleOf(ptr, p.chunkAlign) && MultipleOf(size, p.chunkAlign)
    requires size >= p.footerSize
    ensures MultipleOf(ptr + size - p.footerSize, p.footerAlign)
  {
    TopMinusMultipleIsAligned(ptr, size, p.footerSize, p.footerAlign, p.chunkAlign);
  }

  /** A block of exactly `RAW_MIN_SIZE` bytes yields a chunk with no capacity at all. */
  lemma MinimumBlockHasNoCapacity(p: Platform, ptr: nat, layout: Layout, within: Allocation)
    requires p.Valid() && layout.Valid()
    requires RawPreconditions(p, ptr, layout, within)
    requires layout.size == RawMinSize(p)
    ensures FromRawParts(p, ptr, layout, within).CurrentChunk(p).Capacity() == 0
    ensures FromRawParts(p, ptr, layout, within).CurrentChunk(p).FreeBytes() == 0
  {
  }

  /** Dropping the allocator frees exactly `(ptr, layout)`, once; `ManuallyDrop` frees nothing. */
  lemma DropFreesExactlyTheBlock(p: Platform, ptr: nat, layout: Layout, within: Allocation)
    requires p.Valid() && layout.Valid()
    requires RawPreconditions(p, ptr, layout, within)
    ensures Released(p, FromRawParts(p, ptr, layout, within), Drop) == [(ptr, layout)]
    ensures Released(p, FromRawParts(p, ptr, layout, within), ManuallyDrop) == []
  {
  }

  /**
   * Dropping hands the allocation back with the layout it was made with iff
   * the block is the whole allocation; for a strict sub-block only
   * `ManuallyDrop` is sound.
   */
  lemma DropMatchesAllocationIff(p: Platform, ptr: nat, layout: Layout, within: Allocation)
    requires p.Valid() && layout.Valid()
    requires RawPreconditions(p, ptr, layout, within)
    ensures Released(p, FromRawParts(p, ptr, layout, within), Drop) == [(within.base, within.layout)]
        <==> within == Allocation(ptr, layout)
  {
  }

  /**
   * Handing an allocation over: the caller gives up the allocation (it leaves
   * the set it may still hand over) and receives the allocator that now owns it.
   */
  function HandOver(p: Platform, owned: set<Allocation>, ptr: nat, layout: Layout, within: Allocation)
    : (r: (set<Allocation>, Allocator))
    requires p.Valid() && layout.Valid()
    requires within in owned
    requires RawPreconditions(p, ptr, layout, within)
    ensures within !in r.0 && r.0 + {within} == owned
    ensures r.1 == FromRawParts(p, ptr, layout, within)
  {
    (owned - {within}, FromRawParts(p, ptr, layout, within))
  }

  /** The allocations a disposal hands back to the system. */
  function Freed(p: Platform, a: Allocator, d: Disposal): set<Allocation>
    requires a.Valid()
  {
    set f | f in Released(p, a, d) :: Allocation(f.0, f.1)
  }

  /**
   * When the block is the whole allocation, ownership moves as one piece:
   * a drop of the new allocator frees exactly that allocation, the caller no
   * longer holds it, and together they account for everything the caller held.
   */
  lemma HandOverMovesOwnership(p: Platform, owned: set<Allocation>, ptr: nat, layout: Layout, within: Allocation)
    requires p.Valid() && layout.Valid()
    requires within in owned
    requires RawPreconditions(p, ptr, layout, within)
    requires within == Allocation(ptr, layout)
    ensures Freed(p, HandOver(p, owned, ptr, layout, within).1, Drop) == {within}
    ensures HandOver(p, owned, ptr, layout, within).0 !! Freed(p, HandOver(p, owned, ptr, layout, within).1, Drop)
    ensures owned == HandOver(p, owned, ptr, layout, within).0 + Freed(p, HandOver(p, owned, ptr, layout, within).1, Drop)
    ensures Freed(p, HandOver(p, owned, ptr, layout, within).1, ManuallyDrop) == {}
  {
  }
}
