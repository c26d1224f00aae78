/**
 * The chunk footer of the arena: the record at the very end of every chunk,
 * its three byte counts, the layout it rebuilds for deallocation, the static
 * empty chunk, and the `previous_chunk` list that the empty chunk terminates.
 *
 * Addresses are `nat` offsets inside one abstract address space.
 */
module Footer {
  import opened Alignment

  /**
   * The build's constants: `FOOTER_SIZE` (`size_of::<ChunkFooter>()`),
   * `align_of::<ChunkFooter>()`, `CHUNK_ALIGN`, and the address of the
   * static `EMPTY_CHUNK`.
   */
  datatype Platform = Platform(footerSize: nat, footerAlign: nat, chunkAlign: nat, emptyAddr: nat) {

    /** Only what the code asserts or relies on. */
    predicate Valid() {
      // every Rust alignment is a power of two, and a type's size is a multiple of its alignment
      && IsPowerOfTwo(footerAlign)
      && MultipleOf(footerSize, footerAlign)
      // `CHUNK_ALIGN` is the alignment of the empty chunk's layout, which must be a valid `Layout`
      && IsPowerOfTwo(chunkAlign)
      // the footer never needs more alignment than a chunk provides
      && footerAlign <= chunkAlign
      // the compile-time assertion of the raw constructor
      && footerSize >= chunkAlign
    }
  }

  /** A `previous_chunk` link: the empty chunk, or the chunk with a given creation number. */
  datatype ChunkRef = Empty | Chunk(id: nat)

  /**
   * A chunk footer. `addr` is the address of the footer itself
   * (`ptr::from_ref(self)`), which is where the chunk's data region ends.
   */
  datatype ChunkFooter = ChunkFooter(addr: nat, start: nat, cursor: nat, previous: ChunkRef, alignment: nat) {

    /** The cursor always lies in `start..=self`. */
    predicate Valid() {
      start <= cursor <= addr
    }

    /** Data capacity: the bytes from `start` up to the footer, used and unused. */
    function Capacity(): (r: nat)
      requires Valid()
      ensures start + r == addr
    {
      addr - start
    }

    /** Bytes already handed out: from the cursor up to the footer. */
    function UsedBytes(): (r: nat)
      requires Valid()
      ensures cursor + r == addr
    {
      addr - cursor
    }

    /** Bytes still free: from `start` up to the cursor. */
    function FreeBytes(): (r: nat)
      requires Valid()
      ensures start + r == cursor
    {
      cursor - start
    }

    /** The start pointer and the `Layout` the chunk's allocation was made with. */
    function StartPtrAndLayout(p: Platform): (r: (nat, Layout))
      requires Valid()
      ensures r.0 == start
      ensures r.1.size == Capacity() + p.footerSize
      ensures r.1.align == alignment
    {
      var endPtr := addr + p.footerSize;
      (start, Layout(endPtr - start, alignment))
    }
  }

  /**
   * The three address differences behind `capacity`, `used_bytes` and
   * `free_bytes`, taken as integers, are all non-negative iff the invariant holds.
   */
  lemma NoUnderflowIffValid(c: ChunkFooter)
    ensures c.Valid() <==> (c.addr - c.start >= 0 && c.addr - c.cursor >= 0 && c.cursor - c.start >= 0)
  {
  }

  /** Used and free bytes partition the capacity. */
  lemma UsedAndFreePartitionCapacity(c: ChunkFooter)
    requires c.Valid()
    ensures c.UsedBytes() + c.FreeBytes() == c.Capacity()
    ensures c.UsedBytes() <= c.Capacity() && c.FreeBytes() <= c.Capacity()
  {
  }

  /** `EMPTY_CHUNK`: start and cursor are its own address, its link points to itself. */
  function EmptyChunk(p: Platform): (c: ChunkFooter)
    ensures c.Valid()
  {
    ChunkFooter(p.emptyAddr, p.emptyAddr, p.emptyAddr, Empty, p.chunkAlign)
  }

  /** The empty chunk reports zero capacity, zero used and zero free bytes. */
  lemma EmptyChunkHasNoBytes(p: Platform)
    ensures EmptyChunk(p).Capacity() == 0
    ensures EmptyChunk(p).UsedBytes() == 0
    ensures EmptyChunk(p).FreeBytes() == 0
  {
  }

  /** The empty chunk's rebuilt layout is (its own address, `FOOTER_SIZE`, `CHUNK_ALIGN`), and that is a valid layout. */
  lemma EmptyChunkLayout(p: Platform)
    requires p.Valid()
    ensures EmptyChunk(p).StartPtrAndLayout(p) == (p.emptyAddr, Layout(p.footerSize, p.chunkAlign))
    ensures EmptyChunk(p).StartPtrAndLayout(p).1.Valid()
  {
  }

  /** The footer needs no more alignment than `CHUNK_ALIGN`: a chunk-aligned address is footer-aligned. */
  lemma ChunkAlignedIsFooterAligned(p: Platform, addr: nat)
    requires p.Valid()
    requires MultipleOf(addr, p.chunkAlign)
    ensures MultipleOf(addr, p.footerAlign)
  {
    MultipleOfSmaller(addr, p.footerAlign, p.chunkAlign);
  }

  /** The chunks other than the empty one, by creation number. */
  type ChunkTable = map<nat, ChunkFooter>

  /**
   * Every chunk keeps its invariant, and its link is either the empty chunk or
   * an older chunk of the table (so the list has no cycle).
   */
  predicate WellLinked(t: ChunkTable) {
    forall id | id in t :: t[id].Valid() && (t[id].previous.Chunk? ==> t[id].previous.id in t && t[id].previous.id < id)
  }

  /** A link that can be followed in `t`. */
  predicate RefIn(t: ChunkTable, r: ChunkRef) {
    r.Chunk? ==> r.id in t
  }

  /** The footer a link points to; the empty link points to the static empty chunk. */
  function Deref(p: Platform, t: ChunkTable, r: ChunkRef): ChunkFooter
    requires RefIn(t, r)
  {
    match r
    case Empty => EmptyChunk(p)
    case Chunk(id) => t[id]
  }

  /** Follow the `previous_chunk` link `n` times. */
  function Follow(p: Platform, t: ChunkTable, r: ChunkRef, n: nat): (q: ChunkRef)
    requires WellLinked(t) && RefIn(t, r)
    ensures RefIn(t, q)
    decreases n
  {
    if n == 0 then r else Follow(p, t, Deref(p, t, r).previous, n - 1)
  }

  /**
   * The real chunks met from `r` along the `previous_chunk` links, newest
   * first, up to (not including) the empty chunk.
   */
  function Chain(t: ChunkTable, r: ChunkRef): (ids: seq<nat>)
    requires WellLinked(t) && RefIn(t, r)
    ensures forall i | 0 <= i < |ids| :: ids[i] in t
    ensures forall i, j | 0 <= i < j < |ids| :: ids[i] > ids[j]
    ensures r.Empty? <==> ids == []
    ensures r.Chunk? ==> ids[0] == r.id
    decreases if r.Chunk? then r.id + 1 else 0
  {
    match r
    case Empty => []
    case Chunk(id) => [id] + Chain(t, t[id].previous)
  }

  /** The empty chunk is a fixed point of the link. */
  lemma {:induction false} EmptyIsFixedPoint(p: Platform, t: ChunkTable, n: nat)
    requires WellLinked(t)
    ensures Follow(p, t, Empty, n) == Empty
    decreases n
  {
    if n > 0 {
      EmptyIsFixedPoint(p, t, n - 1);
    }
  }

  /** Following `k` links from `r` visits the `k`-th chunk of its chain. */
  lemma {:induction false} FollowVisitsChain(p: Platform, t: ChunkTable, r: ChunkRef, k: nat)
    requires WellLinked(t) && RefIn(t, r)
    requires k < |Chain(t, r)|
    ensures Follow(p, t, r, k) == Chunk(Chain(t, r)[k])
    decreases k
  {
    if k > 0 {
      FollowVisitsChain(p, t, t[r.id].previous, k - 1);
    }
  }

  /** From any chunk, the links reach the empty chunk once the chain is used up, and stay there. */
  lemma {:induction false} FollowReachesEmpty(p: Platform, t: ChunkTable, r: ChunkRef, n: nat)
    requires WellLinked(t) && RefIn(t, r)
    requires n >= |Chain(t, r)|
    ensures Follow(p, t, r, n) == Empty
    decreases n
  {
    match r
    case Empty => EmptyIsFixedPoint(p, t, n);
    case Chunk(id) => FollowReachesEmpty(p, t, t[id].previous, n - 1);
  }
}
