# Arena chunk footer and raw construction (oxc_allocator)

A Dafny model of the chunk bookkeeping of the oxc arena allocator:

- `ChunkFooter`, the record stored at the very end of every chunk (`start`,
  `cursor`, `previous_chunk`, `alignment`). It answers three byte counts:
  capacity, used bytes and free bytes. It also rebuilds the `(start, Layout)`
  pair that frees the chunk.
- The static empty chunk `EMPTY_CHUNK`. It ends every `previous_chunk` list
  and links to itself.
- `Allocator::from_raw_parts`, which wraps a block the caller supplies as an
  allocator with a single chunk. It also provides the constants `RAW_MIN_SIZE`
  and `RAW_MIN_ALIGN`.

Modules:

- `Alignment` (`alignment.dfy`) holds `Layout`, powers of two, and "multiple
  of a power of two".
- `Footer` (`footer.dfy`) holds the build constants (`Platform`), the footer
  and its queries, the empty chunk, and the link list.
- `RawParts` (`raw_parts.dfy`) holds the raw constructor, its preconditions,
  and what disposing of the resulting allocator frees.

Modelling choices:

- Addresses are `nat` offsets in one address space. `ChunkFooter.addr` is the
  footer's own address, written `ptr::from_ref(self)` in the source.
- `FOOTER_SIZE`, `align_of::<ChunkFooter>()`, `CHUNK_ALIGN` and the address
  of `EMPTY_CHUNK` are parameters, collected in `Footer.Platform`.
  `Platform.Valid` assumes only the following:
  - The two compile-time assertions: `align_of::<ChunkFooter>() <= CHUNK_ALIGN`
    and `FOOTER_SIZE >= CHUNK_ALIGN`.
  - Rust's rules for types: an alignment is a power of two, and a size is a
    multiple of the alignment.
  - `CHUNK_ALIGN` is a power of two. The empty chunk's layout uses it as its
    alignment, and the code states that this layout is valid.
- The empty chunk is the tag `ChunkRef.Empty`, not a pointer comparison.
  Following it yields the footer value `EmptyChunk`.
- Real chunks live in a table keyed by creation number. A link always points
  to an older chunk, so the list is acyclic.
- "Aligned on `a`" and "a multiple of `a`" (for a power of two `a`) are the
  predicate `MultipleOf`. It halves both numbers and never divides by a
  variable.
- The body of `Arena::from_raw_parts` is not part of this model. The chunk it
  builds is specified as follows:
  - the footer sits at the top of the block, because every chunk keeps its
    footer at the very end (`arena/footer.rs:10-12`);
  - `start` is `ptr`, because the block is the chunk's allocation;
  - `alignment` is `layout.align()`, because dropping the allocator frees the
    allocation with that layout (`from_raw_parts.rs:21-22`,
    `arena/footer.rs:83-95`);
  - the link is the empty chunk, because the block is the allocator's only
    chunk and the empty chunk ends every list (`arena/footer.rs:19-23`);
  - the cursor is at the footer: a new allocator has used no bytes
    (`used_bytes() == 0`, `arena/footer.rs:69-74`).
- The drop loop is not part of this model either. `RawParts.Released` states
  what disposing of an allocator frees: under `Drop`, the rebuilt
  `(start, Layout)` of each chunk on the list from the current chunk, newest
  first; under `ManuallyDrop`, nothing. `Allocator.Valid` requires that every
  chunk in the table is on that list and that distinct chunks start at
  distinct addresses, so a drop frees every owned chunk exactly once.

## Model

| member | source | states |
|---|---|---|
| `Footer.Platform.Valid` | crates/oxc_allocator/src/arena/footer.rs:28-32 | the build constants: the footer's alignment is at most `CHUNK_ALIGN` (footer.rs:32), `FOOTER_SIZE >= CHUNK_ALIGN` (from_raw_parts.rs:10), the alignments are powers of two, and `FOOTER_SIZE` is a multiple of the footer's alignment |
| `Footer.ChunkFooter.Valid` | crates/oxc_allocator/src/arena/footer.rs:15-18 | the chunk invariant: the cursor lies in `start..=self`, with the footer's own address as the upper end |
| `Footer.ChunkFooter.Capacity` | crates/oxc_allocator/src/arena/footer.rs:62-67 | capacity is the non-negative distance from `start` to the footer: `start + capacity == footer address` |
| `Footer.ChunkFooter.UsedBytes` | crates/oxc_allocator/src/arena/footer.rs:69-74 | used bytes are the non-negative distance from the cursor to the footer |
| `Footer.ChunkFooter.FreeBytes` | crates/oxc_allocator/src/arena/footer.rs:76-81 | free bytes are the non-negative distance from `start` to the cursor |
| `Footer.ChunkFooter.StartPtrAndLayout` | crates/oxc_allocator/src/arena/footer.rs:83-95 | the pointer is `start`; the layout size is capacity plus `FOOTER_SIZE`; the layout alignment is the recorded `alignment` |
| `Footer.NoUnderflowIffValid` | crates/oxc_allocator/src/arena/footer.rs:62-81 | the differences `footer - start`, `footer - cursor` and `cursor - start` that the three byte counts compute are all non-negative exactly when the chunk invariant holds (both directions) |
| `Footer.UsedAndFreePartitionCapacity` | crates/oxc_allocator/src/arena/footer.rs:62-81 | `used + free == capacity`, so each is at most the capacity |
| `Footer.EmptyChunk` | crates/oxc_allocator/src/arena/footer.rs:51-56 | the empty chunk (start, cursor and footer all at its own address) satisfies the chunk invariant |
| `Footer.EmptyChunkHasNoBytes` | crates/oxc_allocator/src/arena/footer.rs:51-56 | the empty chunk reports capacity, used bytes and free bytes all zero |
| `Footer.EmptyChunkLayout` | crates/oxc_allocator/src/arena/footer.rs:91-93 | the empty chunk rebuilds `(its own address, FOOTER_SIZE, CHUNK_ALIGN)`, and that layout is valid |
| `Footer.ChunkAlignedIsFooterAligned` | crates/oxc_allocator/src/arena/footer.rs:31-32 | since the footer's alignment is at most `CHUNK_ALIGN`, any chunk-aligned address is footer-aligned |
| `Footer.Follow` | crates/oxc_allocator/src/arena/footer.rs:19-23 | following links from a chunk of the table never leaves the table or the empty chunk |
| `Footer.Chain` | crates/oxc_allocator/src/arena/footer.rs:19-23 | the chunks on the list from a chunk start with that chunk and are all in the table. They are strictly older at each step, so no chunk repeats. The list is empty exactly when starting from the empty chunk |
| `Footer.EmptyIsFixedPoint` | crates/oxc_allocator/src/arena/footer.rs:21-22 | the empty chunk's link points to itself: any number of steps from it stays at it |
| `Footer.FollowVisitsChain` | crates/oxc_allocator/src/arena/footer.rs:19-23 | `k` steps from a chunk reach the `k`-th chunk of its list |
| `Footer.FollowReachesEmpty` | crates/oxc_allocator/src/arena/footer.rs:19-23 | from any chunk, the links end at the empty chunk once the list is used up, and stay there |
| `RawParts.RawMinSize` | crates/oxc_allocator/src/from_raw_parts.rs:10-14 | `RAW_MIN_SIZE` is `FOOTER_SIZE`, and on a valid build it is at least `RAW_MIN_ALIGN` |
| `RawParts.RawMinAlign` | crates/oxc_allocator/src/from_raw_parts.rs:16-17 | `RAW_MIN_ALIGN` is `CHUNK_ALIGN`, and on a valid build it is a power of two no smaller than the footer's alignment |
| `RawParts.RawPreconditions` | crates/oxc_allocator/src/from_raw_parts.rs:25-32 | the five safety requirements: `ptr` aligned on `RAW_MIN_ALIGN`; size a multiple of `RAW_MIN_ALIGN`; size at least `RAW_MIN_SIZE`; `layout.align()` at least `RAW_MIN_ALIGN`; `[ptr, ptr + size)` inside one allocation |
| `RawParts.Released` | crates/oxc_allocator/src/from_raw_parts.rs:21-23 | a drop frees the rebuilt `(start, Layout)` of each chunk on the list from the current chunk, newest first, and never the empty chunk; `ManuallyDrop` frees nothing |
| `RawParts.DropReleasesEachChunkOnce` | crates/oxc_allocator/src/from_raw_parts.rs:21-22 | for a valid allocator, a drop frees every chunk in its table, and no two of its deallocations are the same |
| `RawParts.FromRawParts` | crates/oxc_allocator/src/from_raw_parts.rs:19-40 | under the five safety requirements, the block becomes the sole current chunk with the footer at its top, aligned for a footer. `start` is `ptr`, the alignment is `layout.align()` and the link is the empty chunk. The chunk rebuilds exactly `(ptr, layout)`, has capacity `size - RAW_MIN_SIZE`, and has no used bytes |
| `RawParts.FooterIsAligned` | crates/oxc_allocator/src/from_raw_parts.rs:27-29 | a chunk-aligned `ptr` and a chunk-aligned `size` put the footer at a footer-aligned address |
| `RawParts.MinimumBlockHasNoCapacity` | crates/oxc_allocator/src/from_raw_parts.rs:27-29 | a block of exactly `RAW_MIN_SIZE` bytes gives a chunk with zero capacity and zero free bytes |
| `RawParts.DropFreesExactlyTheBlock` | crates/oxc_allocator/src/from_raw_parts.rs:21-23 | dropping the new allocator frees exactly `(ptr, layout)`, once; `ManuallyDrop` frees nothing |
| `RawParts.DropMatchesAllocationIff` | crates/oxc_allocator/src/from_raw_parts.rs:21-32 | dropping hands back the caller's allocation with its own layout exactly when the block is that whole allocation (both directions) |
| `RawParts.HandOver` | crates/oxc_allocator/src/from_raw_parts.rs:21-23 | the caller gives up the allocation and receives the allocator built over the block. The allocation leaves the caller's set, so it cannot be handed over again |
| `RawParts.HandOverMovesOwnership` | crates/oxc_allocator/src/from_raw_parts.rs:21-23 | when the block is the whole allocation, a drop of the new allocator frees exactly that allocation. The caller no longer holds it, and the caller's remaining set plus what the allocator frees is everything the caller held. `ManuallyDrop` frees nothing |

## Left out

- Integer width: addresses and sizes are unbounded `nat`. The model leaves out `usize` and `isize::MAX`, and the overflow rules of `Layout::from_size_align_unchecked` and `offset_from_usize`. The chunk invariant already rules out every subtraction that could underflow.
- Pointer provenance and `NonNull` non-nullness are not modelled, and neither is `#[repr(C)]` field layout. `FOOTER_SIZE` is a parameter rather than four pointer-sized fields.
- The `unsafe impl Sync` of the empty-chunk wrapper is not modelled. Sharing the immutable empty chunk across threads needs no model: it is a constant value here.
- `Arena::from_raw_parts` and `Allocator::from_arena` are not part of this model. `FromRawParts` specifies their combined result from the chunk layout and the ownership promise, as listed above. The cursor starts at the footer because a new allocator has used no bytes (`used_bytes() == 0`, `arena/footer.rs:69-74`).
- Bump allocation, chunk growth and the teardown loop are not part of this model. `Released` is the specification of what a drop frees, not the loop.
- HandOver: when `[ptr, ptr + size)` is a strict sub-block of the caller's allocation, the caller still gives up the whole allocation, but the allocator owns and frees only `(ptr, layout)`. Only `ManuallyDrop` is sound then (`DropMatchesAllocationIff`), and the model does not say who frees the rest of the allocation.
- HandOver: Rust's move semantics (the allocator value itself cannot be copied) are not expressible on Dafny values. Single use is stated on the caller's set of allocations instead.
- `FOOTER_SIZE` being a multiple of `CHUNK_ALIGN` is not asserted by the code, so the model does not assume it. A block of exactly `RAW_MIN_SIZE` bytes meets the size-multiple requirement only when it holds. `MinimumBlockHasNoCapacity` therefore requires the full preconditions.
