# voxei voxel core in Dafny

This project models the CPU-side voxel working set of the voxei engine (Rust). It also models the small layout and frame-ring helpers around that working set. Each part is proved against its specification.

- **Morton codes.**
  - The 64-bit codec: `split`, `compact`, `encode`, `decode`, `next_pow2`.
  - The 10-bit loop codec.
  - The height-parameterised encoder, in unsigned and signed form.

  Files: `morton_codec.dfy`, `morton_loop.dfy`, `vox_world.dfy`.
- **The dynamic world's tables.**
  - The 2-bit-per-cell `GridMask`, which packs 8 cells per `u16` word.
  - The packed `BrickIndex` and the `SpatialStatus` code.
  - The `BrickDataList` arena with its free list, and the `BrickData` occupancy mask.
  - The `DynVoxelWorld` operations that update those tables and the queue of brick changes in place.

  File: `dynamic_world.dfy`.
- **Chunk generation bookkeeping.**
  - The worker's body, as a triple loop over an array.
  - The brick slicing of a generated chunk.
  - The in-flight set that keeps a chunk from being requested twice.

  The two channels are queues held in the generator object. File: `chunk_generator.dfy`.
- **The older voxel world's helpers.**
  - Chunk and voxel position arithmetic, with Rust's truncating `/` and `%` written out.
  - The de-duplicating voxel-data table and its change flags.

  File: `vox_world.dfy`.
- **The sparse voxel octree builder.** It is modelled exactly as written: per-depth buffers pre-filled with 8 nodes that are never cleared, and a Morton cursor that never advances. File: `octree.dfy`.
- **The GLSL byte-layout builder.** Each value is appended at its std140 base alignment, following section 7.6.2.2, "Standard Uniform Block Layout", of the OpenGL 4.6 Core Profile specification. File: `glsl.dfy`.
- **Frame rings.**
  - The voxel pass's staging-buffer slots: frame f writes slot (f+1) mod N, which frame f+1 reads as slot f mod N.
  - The request-buffer layout and its per-frame reset.
  - The `FrameIndex` counter of the two render managers.

  Files: `voxel_pass.dfy`, `render_manager.dfy`.

`wrappers.dfy` holds the `Option` datatype.

Rust's fixed-width values are modelled as follows:
- Morton codes, masks and shifts are bit-vectors (`bv32`, `bv64`, `bv16`, `bv8`), exactly as the source's `u32`, `u64`, `u16` and `u8`.
- Counters and indices are `nat`. Wrap-around is written as `% 2^32` where the source casts to `u32`.
- An operation that panics in a debug build is a precondition of its model. This covers:
  - integer overflow and underflow;
  - a shift past the word width;
  - an index out of bounds;
  - `unreachable!()`.

The `FrameIndex` type is defined identically in `src/game/graphics/render_manager.rs` and `src/engine/graphics/old/render_manager.rs`. One class models both:
- its members cite the first file;
- the lemmas about its step cite the second.

## Model

| member | source | states |
|---|---|---|
| `VoxConstants.ConstantValues` | src/engine/voxel/mod.rs:11-26 | The constants have these values: brick area 64, brick and chunk volume 512, in-brick Morton length 9 bits, chunk voxel length 64, super-chunk volume 64. |
| `MortonCodec.Split` | src/engine/voxel/mod.rs:40-49 | The dilated value sets only bits at positions 3i. |
| `MortonCodec.SplitIsSpread` | src/engine/voxel/mod.rs:40-49 | The five masked shift steps of `split` equal the reference bit-by-bit dilation: bit i of x goes to position 3i, for i < 21. |
| `MortonCodec.SplitIgnoresHighBits` | src/engine/voxel/mod.rs:42 | `split` masks to 21 bits first, so input bits 21 and up are ignored. |
| `MortonCodec.Compact` | src/engine/voxel/mod.rs:51-60 | The compacted value fits in 21 bits. |
| `MortonCodec.CompactSplit` | src/engine/voxel/mod.rs:41-60 | `compact(split(x))` is the low 21 bits of x. |
| `MortonCodec.Encode` | src/engine/voxel/mod.rs:62-68 | A code never has bit 63 set. |
| `MortonCodec.ContributionsDisjoint` | src/engine/voxel/mod.rs:62-68 | The x, y and z lanes of `encode` occupy pairwise disjoint bits. |
| `MortonCodec.Decode` | src/engine/voxel/mod.rs:70-76 | Every decoded component is below 2^21. |
| `MortonCodec.CompactEncodeX` | src/engine/voxel/mod.rs:62-76 | The x lane of a code reads back the low 21 bits of x. |
| `MortonCodec.CompactEncodeY` | src/engine/voxel/mod.rs:62-76 | The y lane, shifted down by 1, reads back the low 21 bits of y. |
| `MortonCodec.CompactEncodeZ` | src/engine/voxel/mod.rs:62-76 | The z lane, shifted down by 2, reads back the low 21 bits of z. |
| `MortonCodec.DecodeEncode` | src/engine/voxel/mod.rs:62-76 | `decode(encode(v)) == v` whenever every component is below 2^21. |
| `MortonCodec.EncodeDecode` | src/engine/voxel/mod.rs:62-76 | `encode(decode(c)) == c` for every c below 2^63. |
| `MortonCodec.EncodeInjective` | src/engine/voxel/mod.rs:62-68 | `encode` is injective on 21-bit components. |
| `MortonCodec.BrickNesting` | src/engine/voxel/mod.rs:62-68 | For in-brick offsets below 8, `encode(8b + l) == (encode(b) << 9) \| encode(l)`. This is the 9-bit `BRICK_MORTON_LENGTH` nesting that brick slicing relies on. |
| `MortonCodec.NextPow2` | src/engine/voxel/mod.rs:87-95 | For 1 ≤ v ≤ 2^31, the result is a power of two, at least v, and half of it is below v. So it is the least such power. |
| `MortonCodec.NextPow2OfPowerOfTwo` | src/engine/voxel/mod.rs:87-95 | A power of two is its own `next_pow2`. |
| `MortonLoop.MortonEncode` | src/engine/voxel/morton.rs:6-14 | The loop computes its 10-iteration interleaving. That interleaving equals `Morton::encode` of the low ten bits of each input. |
| `MortonLoop.InterleavedIsEncode` | src/engine/voxel/morton.rs:6-14 | Ten loop iterations agree with `Morton::encode` of the components' low ten bits. |
| `MortonLoop.InterleavedBelow30` | src/engine/voxel/morton.rs:8-12 | Input bits 10 and up never reach the answer, which is below 2^30. |
| `MortonLoop.MortonDecode` | src/engine/voxel/morton.rs:16-26 | The loop computes the three 10-iteration de-interleaved lanes. |
| `MortonLoop.DeinterleavedIsDecode` | src/engine/voxel/morton.rs:16-26 | The decoding loop equals `Morton::decode` of the code's low 30 bits, so code bits 30 and up are ignored. |
| `MortonLoop.DeinterleavedBound` | src/engine/voxel/morton.rs:20-24 | Every decoded component is below 1024. |
| `MortonLoop.LoopRoundTrip` | src/engine/voxel/morton.rs:6-26 | Decoding an encoding returns the low ten bits of each component. So `morton_decode(morton_encode(x, y, z)) == (x, y, z)` when each is below 1024. |
| `MortonLoop.LoopEncodeDecode` | src/engine/voxel/morton.rs:6-26 | `morton_encode(morton_decode(c)) == c` for every c below 2^30. |
| `ChunkGenerator.BrickData` | src/engine/voxel/chunk_generator.rs:30-35 | The slice has 512 voxels, and voxel k of it is voxel `brick * 512 + k` of the chunk. A slice past the end is a precondition. |
| `ChunkGenerator.VoxelIndex` | src/engine/voxel/chunk_generator.rs:99-100 | The write index of a chunk-local voxel is below 262144 = `CHUNK_VOLUME * BRICK_VOLUME`. |
| `ChunkGenerator.VoxelIndexInjective` | src/engine/voxel/chunk_generator.rs:99-100 | Equal write indices mean equal local coordinates. |
| `ChunkGenerator.VoxelIndexDistinct` | src/engine/voxel/chunk_generator.rs:99-100 | Distinct voxels are written at distinct indices. |
| `ChunkGenerator.SolidIff` | src/engine/voxel/chunk_generator.rs:93-98 | A voxel is solid exactly when the chunk's y is 0 and the local y is 0. |
| `ChunkGenerator.VisitVoxel` | src/engine/voxel/chunk_generator.rs:98-101 | Visiting one voxel extends the filled prefix in loop order by that voxel and changes no other voxel. |
| `ChunkGenerator.FillVoxel` | src/engine/voxel/chunk_generator.rs:98-101 | The body of the `z` loop writes the colour at a solid voxel's index. It extends the filled prefix by one voxel and keeps every written voxel inside the height-0 chunks. |
| `ChunkGenerator.FillColumn` | src/engine/voxel/chunk_generator.rs:92-103 | The innermost `z` loop fills one column. The empty flag is cleared exactly when the column is solid. |
| `ChunkGenerator.FillSlab` | src/engine/voxel/chunk_generator.rs:91-104 | The `y` loop fills one slab. The empty flag is cleared exactly when the chunk is at height 0. |
| `ChunkGenerator.Generate` | src/engine/voxel/chunk_generator.rs:84-114 | The chunk answers its request, has 262144 voxels, and every voxel is `Some(colour)` iff it is solid. `is_empty` holds iff the chunk's y is not 0. |
| `ChunkGenerator.DropOldest` | src/engine/voxel/chunk_generator.rs:76-80 | Collecting the oldest result keeps the in-flight set equal to the uncollected positions. |
| `ChunkGenerator.DrainTracks` | src/engine/voxel/chunk_generator.rs:76-80 | Collecting k results, and removing their positions from the set, keeps the set equal to the uncollected positions, each in flight once. |
| `ChunkGenerator.ChunkGenerator.constructor` | src/engine/voxel/chunk_generator.rs:47-57 | Both queues and the in-flight set start empty. |
| `ChunkGenerator.ChunkGenerator.GenerateChunk` | src/engine/voxel/chunk_generator.rs:59-70 | An in-flight position sends nothing. Any other position is appended to the requests once and added to the set. |
| `ChunkGenerator.ChunkGenerator.ServeRequest` | src/engine/voxel/chunk_generator.rs:84-115 | The worker answers the oldest request with a chunk for that position. Results arrive one per request, in request order. |
| `ChunkGenerator.ChunkGenerator.CollectGeneratedChunks` | src/engine/voxel/chunk_generator.rs:72-82 | Returns every waiting result in arrival order and empties the result queue. Only those positions leave the in-flight set. |
| `DynamicWorld.SpatialStatus.IsLoaded` | src/engine/voxel/dynamic_world.rs:131-138 | Holds for Loaded and LoadedEmpty only, which are exactly the codes with the high bit set. |
| `DynamicWorld.Code` | src/engine/voxel/dynamic_world.rs:123-129 | Every status code is below 4. |
| `DynamicWorld.FromCode` | src/engine/voxel/dynamic_world.rs:140-150 | Decoding a code below 4 returns the status with that code. Any larger value reaches `unreachable!()` and is a precondition. |
| `DynamicWorld.FromCodeCode` | src/engine/voxel/dynamic_world.rs:123-150 | Encoding a status and decoding it again returns the same status. |
| `DynamicWorld.FromU32` | src/engine/voxel/dynamic_world.rs:152-157 | The `u32` conversion truncates to `u16`, then decodes. |
| `DynamicWorld.BitIndex` | src/engine/voxel/dynamic_world.rs:184 | A cell's bit offset `(m & 7) * 2` is even and below 16. |
| `DynamicWorld.FieldOfStore` | src/engine/voxel/dynamic_world.rs:186-188 | After the clear-and-OR, the cell's 2-bit field holds the new code. |
| `DynamicWorld.FieldOfStoreOther` | src/engine/voxel/dynamic_world.rs:186-188 | The clear-and-OR leaves every other 2-bit field of the word unchanged. |
| `DynamicWorld.StoreCell` | src/engine/voxel/dynamic_world.rs:183-189 | Only word `m >> 3` changes. |
| `DynamicWorld.StoreCellSame` | src/engine/voxel/dynamic_world.rs:183-196 | After storing s at cell m, reading cell m gives s. |
| `DynamicWorld.StoreCellSameWord` | src/engine/voxel/dynamic_world.rs:183-196 | The other 7 cells of the same word keep their status. |
| `DynamicWorld.StoreCellOtherWord` | src/engine/voxel/dynamic_world.rs:183-196 | Cells in other words keep their status. |
| `DynamicWorld.StoreCellEffect` | src/engine/voxel/dynamic_world.rs:183-196 | Storing at cell m sets that cell and no other. |
| `DynamicWorld.GridMask.constructor` | src/engine/voxel/dynamic_world.rs:179-181 | Creates `volume / 8` words and every cell is Unloaded. For a volume that is a multiple of 8, `buffer_size` is then a quarter byte per cell. |
| `DynamicWorld.GridMask.SetStatus` | src/engine/voxel/dynamic_world.rs:183-189 | The words become `StoreCell` of the old words. Cell m reads the new status, and every other cell keeps its status. |
| `DynamicWorld.GridMask.BufferSize` | src/engine/voxel/dynamic_world.rs:202-204 | The buffer holds whole `u16` words and no more, and every cell's word lies inside it. |
| `DynamicWorld.NewUnloaded` | src/engine/voxel/dynamic_world.rs:212-214 | Status Unloaded, slot 0. |
| `DynamicWorld.NewLoaded` | src/engine/voxel/dynamic_world.rs:216-218 | Status Loaded, with slot `i & 0x3FFF_FFFF`. The slot round-trips for i below 2^30. |
| `DynamicWorld.NewLoadedEmpty` | src/engine/voxel/dynamic_world.rs:220-222 | Status LoadedEmpty, slot 0. |
| `DynamicWorld.BrickIndexGrid.constructor` | src/engine/voxel/dynamic_world.rs:162-164 | Creates `volume` entries, all Unloaded. |
| `DynamicWorld.BrickIndexGrid.BufferSize` | src/engine/voxel/dynamic_world.rs:170-172 | Equals the size the voxel pass allocates for the brick-indices buffer (`VoxelPass.BrickIndicesBufferSize` of the entry count), and every entry's 4-byte word lies inside it. |
| `DynamicWorld.NewFree` | src/engine/voxel/dynamic_world.rs:275-280 | The result is tagged free and `next_free` returns the link for links below 2^31. The mask is all zero. |
| `DynamicWorld.BrickData.SetFree` | src/engine/voxel/dynamic_world.rs:282-284 | The result is tagged free with the new link, and the mask is kept. |
| `DynamicWorld.LastBitZero` | src/engine/voxel/dynamic_world.rs:290-297 | As written, a mask byte is 0 exactly when its 8 voxels are all empty. |
| `DynamicWorld.LastBitLast` | src/engine/voxel/dynamic_world.rs:290-297 | As written, a mask byte holds only the bit of the highest-indexed occupied voxel of its group. |
| `DynamicWorld.FromVoxelArrayAsWritten` | src/engine/voxel/dynamic_world.rs:290-304 | `from_voxel_array` with its `=` store: `material_index` is 0, there are 64 bytes, and each byte is the last occupied voxel's bit. |
| `DynamicWorld.AsWrittenDropsVoxels` | src/engine/voxel/dynamic_world.rs:295 | For two occupied voxels in one group, the as-written byte is 2 and the intended byte is 3. |
| `DynamicWorld.OrBitsMeaning` | src/engine/voxel/dynamic_world.rs:295 | With `\|=`, bit k of a byte is set exactly when voxel k of its group is occupied. |
| `DynamicWorld.FromVoxelArray` | src/engine/voxel/dynamic_world.rs:290-304 | Corrected `from_voxel_array`: `material_index` is 0, the slot is not tagged free, and there are 64 bytes. Bit `i & 7` of byte `i >> 3` is set exactly for occupied voxel i. |
| `DynamicWorld.MaskRecordsVoxel` | src/engine/voxel/dynamic_world.rs:295 | The corrected mask records voxel i exactly when it is occupied. |
| `DynamicWorld.BrickDataList.constructor` | src/engine/voxel/dynamic_world.rs:241-246 | The arena starts with an empty data list and a free-list head of `NULL_FREE_INDEX`. |
| `DynamicWorld.BrickDataList.Insert` | src/engine/voxel/dynamic_world.rs:249-260 | With an empty free list it appends and returns the old length. Otherwise it returns the head, advances the head to that slot's `next_free`, and overwrites only that slot. |
| `DynamicWorld.BrickDataList.Get` | src/engine/voxel/dynamic_world.rs:262-264 | Returns a stored brick. A slot past the end is a precondition. |
| `DynamicWorld.DynVoxelWorld.constructor` | src/engine/voxel/dynamic_world.rs:26-44 | The mask sizes are `volume / 8` words for chunks and `ceil(volume / 64) / 8` for super chunks. There are `volume * 512` brick entries, all Unloaded. Every chunk is Unloaded, with no bricks and no changes. |
| `DynamicWorld.DynVoxelWorld.SetChunkLoading` | src/engine/voxel/dynamic_world.rs:83-87 | Only that chunk's status changes, and it becomes Loading. |
| `DynamicWorld.DynVoxelWorld.SetBrick` | src/engine/voxel/dynamic_world.rs:89-100 | Appends exactly one change carrying m. Entry m becomes `new_loaded(insert(b))` for `Some(b)`, which is the old arena length, or `new_loaded_empty` for `None`. No other entry changes. |
| `DynamicWorld.DynVoxelWorld.SetChunkBrick` | src/engine/voxel/dynamic_world.rs:69-78 | One pass of the brick loop: brick b's 512 voxels are sliced out and set at `brick_base + b`. That entry gets `BrickStatus` and one change, the arena grows by at most one, and no other entry changes. |
| `DynamicWorld.DynVoxelWorld.SetGeneratedBrick` | src/engine/voxel/dynamic_world.rs:69-78 | An all-empty brick becomes LoadedEmpty and stores nothing. Any other brick appends a mask that records its voxels and becomes Loaded at the new slot. The brick gets one change, and no other entry changes. |
| `DynamicWorld.DynVoxelWorld.SetChunkBricks` | src/engine/voxel/dynamic_world.rs:66-79 | Queues the 512 changes for bricks base..base+511 in order. Each brick is LoadedEmpty iff all its voxels are None, and entries outside the range are unchanged. |
| `DynamicWorld.DynVoxelWorld.SetGeneratedChunk` | src/engine/voxel/dynamic_world.rs:57-81 | An empty chunk becomes LoadedEmpty and touches no brick or change. Any other chunk becomes Loaded and sets its 512 bricks in order. No other chunk's status changes. |
| `DynamicWorld.DynVoxelWorld.CollectBrickChanges` | src/engine/voxel/dynamic_world.rs:102-104 | Returns all pending changes in order and leaves the queue empty. |
| `VoxWorld.MortonEncodeUvec3` | src/engine/voxel/vox_world.rs:214-223 | The loop computes the height-h interleaving. Heights above 15 overflow the `2 * i + 2` shift. |
| `VoxWorld.OrInBit` | src/engine/voxel/vox_world.rs:218-220 | The three `\|=` statements OR in iteration i's term. |
| `VoxWorld.TermPlacesBits` | src/engine/voxel/vox_world.rs:217-221 | Iteration i puts bit i of x, y and z at positions 3i, 3i+1 and 3i+2 and sets no other bit. |
| `VoxWorld.InterleavedMasked` | src/engine/voxel/vox_world.rs:216-222 | The first n iterations read only the inputs' low h bits, for n ≤ h. |
| `VoxWorld.InterleavedPastWidth` | src/engine/voxel/vox_world.rs:216-222 | Iterations past the inputs' width add nothing. |
| `VoxWorld.IgnoresHighBits` | src/engine/voxel/vox_world.rs:214-223 | A height-h code is the 10-bit interleaving of the inputs' low h bits, so bits h and up are ignored. |
| `VoxWorld.Uvec3Injective` | src/engine/voxel/vox_world.rs:214-223 | The encoder is injective on [0, 2^h)^3 for h ≤ 10. |
| `VoxWorld.MortonEncodeIvec3` | src/engine/voxel/vox_world.rs:204-212 | The result encodes each component plus 2^(h-1), reinterpreted as `u32`. Requires h ≥ 1 and no `i32` overflow. |
| `VoxWorld.OffsetCentresRange` | src/engine/voxel/vox_world.rs:207-209 | Adding 2^(h-1) maps [-2^(h-1), 2^(h-1)) exactly onto [0, 2^h). |
| `VoxWorld.TruncDivRem` | src/engine/voxel/vox_world.rs:173-193 | Truncating division and remainder by 64 recompose the coordinate. The remainder lies strictly between -64 and 64. It is non-negative for a non-negative coordinate and non-positive for a negative one. |
| `VoxWorld.TranslateChunk` | src/engine/voxel/vox_world.rs:165-171 | Subtracts c * 64 on each axis, so adding it back gives the position. |
| `VoxWorld.LocalMorton` | src/engine/voxel/vox_world.rs:181-193 | Computes the height-6 code of the truncating remainders, reinterpreted as `u32`. |
| `VoxWorld.ChunkLocalSplit` | src/engine/voxel/vox_world.rs:173-193 | For non-negative positions, chunk * 64 + local == position and local lies in [0, 64). |
| `VoxWorld.TranslateKeepsLocal` | src/engine/voxel/vox_world.rs:165-193 | When both positions are non-negative, translating by chunk c keeps the local part and shifts the chunk by -c. |
| `VoxWorld.LocalMortonDecodes` | src/engine/voxel/vox_world.rs:181-193 | For non-negative positions, the local code is below 2^18 and decodes back to the local coordinates. |
| `VoxWorld.NegativeCoordinateCollides` | src/engine/voxel/vox_world.rs:173-193 | As written, the voxels at x = -1 and x = 63 get the same chunk and the same local code. |
| `VoxWorld.FloorLocalMorton` | src/engine/voxel/vox_world.rs:181-193 | Corrected `local_morton`: computes the height-6 code of the Euclidean remainders. |
| `VoxWorld.FloorSplitRecovers` | src/engine/voxel/vox_world.rs:173-193 | Corrected split: for every position, chunk * 64 + local == position, local lies in [0, 64), and the local code decodes back. |
| `VoxWorld.FloorAgreesOnNonNegative` | src/engine/voxel/vox_world.rs:173-193 | The corrected split agrees with the code as written on non-negative positions. |
| `VoxWorld.VoxelWorld.constructor` | src/engine/voxel/vox_world.rs:34-44 | The table is empty, no flag is set, and the change list is empty. |
| `VoxWorld.InsertKeepsInverse` | src/engine/voxel/vox_world.rs:84-87 | Appending a value the table does not know, with index `len() as u32`, keeps the invariant: each value once, and the table maps position i to `i as u32`. |
| `VoxWorld.VoxelWorld.LookupIsPosition` | src/engine/voxel/vox_world.rs:80-90 | Under the table invariant, a stored value has exactly one position, and the table maps it to that position as a `u32`. Below 2^32 values, that is the position itself. |
| `VoxWorld.VoxelWorld.WrapSharesIndex` | src/engine/voxel/vox_world.rs:84 | After 2^32 + 1 distinct values, the `len() as u32` cast gives the newest value the same index as the first. |
| `VoxWorld.VoxelWorld.GetOrInsertVoxelData` | src/engine/voxel/vox_world.rs:80-90 | For known data: returns the stored index and changes nothing. For new data: returns the old length cast to `u32`, appends the data, records it in the table and sets the flag. Either way the result is the value's position mod 2^32, and it indexes `voxel_data` at that value while at most 2^32 values are stored. The invariant (each value once, table maps position i to `i as u32`) is kept. |
| `VoxWorld.VoxelWorld.ClearChanges` | src/engine/voxel/vox_world.rs:92-96 | Resets both flags and empties `chunks_updated`, leaving the data untouched. |
| `Octree.EmptyNode` | src/engine/voxel/octree.rs:30-36 | The empty node has data index 0, base 0 and all 8 offsets 0xFF. |
| `Octree.EmptyIsNotNull` | src/engine/voxel/octree.rs:38-48 | As written, an empty node has data, is a leaf, and is not null. |
| `Octree.NullMeaning` | src/engine/voxel/octree.rs:38-48 | A node is null exactly when its data index is non-zero and its children base is 0. |
| `Octree.LeafNode` | src/engine/voxel/octree.rs:105-109 | The pushed leaf carries the data index, is a leaf, and has 8 offsets. |
| `Octree.GroupAddressesChildren` | src/engine/voxel/octree.rs:137-159 | Each non-null child's base + offset points at that child in the extended output. Null slots keep 0xFF. |
| `Octree.Refine` | src/engine/voxel/octree.rs:117-135 | The reference refinement keeps the number of buffers and never shrinks a buffer. |
| `Octree.RefineGrows` | src/engine/voxel/octree.rs:117-135 | Refinement only appends: every buffer and the output keep their old contents as a prefix. |
| `Octree.RefineStopsAtOverfullLeaves` | src/engine/voxel/octree.rs:117-135 | A deepest buffer holding more than 8 nodes stops the walk at once, and nothing changes. |
| `Octree.Fill` | src/engine/voxel/octree.rs:177-187 | The reference fill keeps the number of buffers and never shrinks a buffer. |
| `Octree.FillOnlyAppends` | src/engine/voxel/octree.rs:177-187 | Once the deepest buffer holds 8 or more nodes, filling n only appends n empty nodes to it. |
| `Octree.CeilLog2Least` | src/engine/voxel/octree.rs:82 | The depth is the least d with `grid_length ≤ 2^d`. |
| `Octree.CeilLog2OfPow2` | src/engine/voxel/octree.rs:82 | A grid length of 2^k gives depth k. |
| `Octree.InitialBuffers` | src/engine/voxel/octree.rs:84 | Creates `max_depth + 1` buffers, each holding 8 empty nodes. |
| `Octree.VoxelSVOBuilder.constructor` | src/engine/voxel/octree.rs:81-93 | The depth is `ceil(log2 g)` and the buffers are pre-filled. The output and data are empty, and the cursor is 0. |
| `Octree.VoxelSVOBuilder.GroupBuffer` | src/engine/voxel/octree.rs:137-159 | Appends the non-null siblings to the output in slot order. Returns the parent whose base is the first new position, with one offset per kept child and 0xFF for null slots. |
| `Octree.VoxelSVOBuilder.RefineBuffers` | src/engine/voxel/octree.rs:117-135 | The depth loop, with its early `break`, computes the reference refinement. |
| `Octree.VoxelSVOBuilder.AddEmptyVoxel` | src/engine/voxel/octree.rs:184-187 | Pushes an empty node at the depth, then refines. |
| `Octree.VoxelSVOBuilder.FillEmptyVoxels` | src/engine/voxel/octree.rs:177-182 | The `while size > 0` loop computes the reference fill. |
| `Octree.VoxelSVOBuilder.AddVoxel` | src/engine/voxel/octree.rs:95-114 | Fills the gap to the voxel's code, appends the data, pushes its leaf and refines. As a result, the deepest buffer gains the gap's empties and the leaf, the output is unchanged, and the cursor never advances. |
| `Octree.VoxelSVOBuilder.FinalizeSvo` | src/engine/voxel/octree.rs:161-175 | Fills up to 8^max_depth leaves and appends `buffers[0][0]` as the last node. That node is the original root slot. The material list is empty. |
| `Octree.AddVoxelOnlyAppends` | src/engine/voxel/octree.rs:95-135 | Because buffers start at 8 nodes and only grow, nothing is ever grouped when a voxel is added. |
| `Octree.FillKeepsRoot` | src/engine/voxel/octree.rs:161-187 | Filling leaves the output and the root slot `buffers[0][0]` unchanged. |
| `Glsl.Std140Table` | src/engine/graphics/vulkan/objects/glsl.rs:12-116 | Sizes and alignments follow std140: float 4/4, vec2 8/8, vec3 12/16, vec4 16/16, mat4 64/16. |
| `Glsl.TableShape` | src/engine/graphics/vulkan/objects/glsl.rs:12-116 | Every alignment is 4, 8 or 16, and every size is a positive multiple of 4. |
| `Glsl.PaddingAligns` | src/engine/graphics/vulkan/objects/glsl.rs:137 | The padding is below the alignment and makes the offset a multiple of it. It is 0 exactly for an already aligned offset. |
| `Glsl.Resized` | src/engine/graphics/vulkan/objects/glsl.rs:138 | `Vec::resize` gives n bytes, where the old bytes are kept and the new ones are the fill byte. |
| `Glsl.PushedLayout` | src/engine/graphics/vulkan/objects/glsl.rs:132-143 | After a push, the old bytes are kept, the padding is zero, the value sits at the aligned offset, and the length grows by padding + size. |
| `Glsl.GlslDataBuilder.constructor` | src/engine/graphics/vulkan/objects/glsl.rs:128-130 | The buffer starts empty. |
| `Glsl.GlslDataBuilder.Push` | src/engine/graphics/vulkan/objects/glsl.rs:132-143 | The resize and the write together give the padded append. |
| `Glsl.GlslDataBuilder.Build` | src/engine/graphics/vulkan/objects/glsl.rs:145-147 | Returns exactly the accumulated bytes. |
| `Glsl.PushedAllExtends` | src/engine/graphics/vulkan/objects/glsl.rs:132-143 | Later pushes never disturb earlier bytes. |
| `VoxelPass.WriteSlot` | src/engine/graphics/pass/voxel.rs:277-278 | Frame f copies into slot (f+1) mod N, which is below N. |
| `VoxelPass.ReadSlot` | src/engine/graphics/pass/voxel.rs:293-296 | Frame f reads slot f mod N, which is below N. |
| `VoxelPass.ReadNextIsWritten` | src/engine/graphics/pass/voxel.rs:277-296 | The slot read in frame f+1 is the one written in frame f. |
| `VoxelPass.WriteAvoidsCurrentRead` | src/engine/graphics/pass/voxel.rs:277-296 | With two frames in flight, no frame reads the slot it writes. |
| `VoxelPass.StagingBuffers` | src/engine/graphics/pass/voxel.rs:103-112 | Creates exactly N buffers: slot i at index i, each of the request-buffer size. |
| `VoxelPass.SlotsNameBuffers` | src/engine/graphics/pass/voxel.rs:103-112 | Every written or read slot names one of the created buffers. |
| `VoxelPass.RequestLayoutFits` | src/engine/graphics/pass/voxel.rs:68 | The count word and every request slot fit the buffer of `max * 4 + 4` bytes without overlapping. |
| `VoxelPass.ResetCount` | src/engine/graphics/pass/voxel.rs:224 | The reset closure's `ptr.write(0)` changes only the first four bytes of the mapped staging buffer. |
| `VoxelPass.ResetClearsCount` | src/engine/graphics/pass/voxel.rs:224 | After the closure's write, the staging buffer's count reads 0 and its later bytes are as before. |
| `VoxelPass.StagedReset` | src/engine/graphics/pass/voxel.rs:218-225 | The whole reset through `stage_buffer_copy`: the request list keeps its size and its count reads 0. Its bytes past the count become those of the new staging buffer. |
| `VoxelPass.StagedResetForgetsEntries` | src/engine/graphics/device.rs:73-99 | `stage_buffer_copy` copies the full staging buffer over the request list. So after the reset, a request entry equals its old value only when the staging buffer's byte happens to equal it. |
| `VoxelPass.BrickIndicesBufferSize` | src/engine/graphics/pass/voxel.rs:147-153 | The size is 4 bytes per entry, so it is a multiple of 4 and divides back to the entry count. |
| `RenderManager.Step` | src/engine/graphics/old/render_manager.rs:32-34 | One `next` from a valid index stays below F. |
| `RenderManager.StepIsSuccessorMod` | src/engine/graphics/old/render_manager.rs:32-34 | `(i + 1) % F` is the successor, wrapping to 0 at F. |
| `RenderManager.Advanced` | src/engine/graphics/old/render_manager.rs:32-34 | Any number of `next` calls keeps the index below F. |
| `RenderManager.AdvancedWithinCycle` | src/engine/graphics/old/render_manager.rs:32-34 | Up to a full cycle, n calls add n and wrap once past F. |
| `RenderManager.FullCycleRestores` | src/engine/graphics/old/render_manager.rs:32-38 | F consecutive `next` calls restore the starting index. |
| `RenderManager.FrameIndex.constructor` | src/game/graphics/render_manager.rs:23-25 | The index starts at 0. |
| `RenderManager.FrameIndex.Next` | src/game/graphics/render_manager.rs:27-29 | The index becomes (i + 1) mod F, the ring's step, and stays below F. |
| `RenderManager.FrameIndex.Index` | src/game/graphics/render_manager.rs:31-33 | Returns the index, which is below F, and changes nothing. |

## Left out

- Threads, channels and locks of the chunk generator are concurrency and are not modelled: `spawn`, `mpsc`, `Mutex`, and the `join` in `Drop`. The two channels are queues in the `ChunkGenerator` object, and the worker's loop is one call of `ServeRequest` per request.
- Voxel colours are `f32` vectors in the source. They are modelled as triples of reals, and the model only tells `Some` from `None`.
- `println!` output, in `DynVoxelWorld::new`, `set_generated_chunk`, `add_voxel` and the Morton encoders, is I/O and is left out.
- `DynChunkPos`, `WorldChunkPos`, `ChunkRadius`, `pow2_volume` and `to_dyn_brick_pos` are not part of this model. Chunk and brick positions are passed in as their Morton codes, the brick base as a number, and the render volume as a number.
- `DynVoxelWorld::new` sizes the super-chunk mask with an `f32` `ceil`. The model uses integer ceiling division. The super-chunk mask is never used afterwards.
- `DynamicWorld.GridMask.SetStatus`: the clear (`&=`) and the set (`|=`) of the word are one store of their combined value. The effect of each is proved on the word by `FieldOfStore` and `FieldOfStoreOther`.
- `DynamicWorld.BrickData.SetFree`: `set_free` mutates a brick in place. It is modelled as a function that returns the updated brick.
- `DynamicWorld.DynVoxelWorld.ChunkStatus` and `DynamicWorld.DynVoxelWorld.IsBrickLoaded` are plain reads of the grids. They carry no contract of their own beyond what `GridMask.Status` and `BrickIndex.Status` define.
- `DynamicWorld.DynVoxelWorld.SetGeneratedChunk`: requires the arena to have room for 512 more bricks in 32 bits (`|data| + 512 < 2^32`). This is enough to rule out the `len as u32 - 1` overflow in `insert`, but it is stronger than the exact panic condition.
- `DynamicWorld.DynVoxelWorld.SetGeneratedChunk`: uses the corrected `FromVoxelArray` (see Findings). The as-written mask is modelled separately by `FromVoxelArrayAsWritten`.
- `DynamicWorld.DynVoxelWorld.SetGeneratedBrick`: stores the corrected `FromVoxelArray` mask, which records every occupied voxel, where `set_generated_chunk` calls the as-written `from_voxel_array`. That call keeps only the last occupied voxel of each group of 8 (see Findings and `FromVoxelArrayAsWritten`). Its callers `SetChunkBrick` and `SetChunkBricks` share this. Their own contracts state only the brick statuses, which do not depend on the mask.
- The `DynVoxelWorld` getters (`chunk_occupancy_grid`, `brick_indices_grid`, `chunk_render_distance`, `brick_data`) and both `as_slice` methods only expose fields. They are not modelled.
- The loop of `thread_fn` is split into the methods `FillColumn`, `FillSlab` and `Generate`, one per source loop.
- `MortonCodec.SplitIgnoresHighBits`: the fact that bits 21 and up are ignored is stated for `split`, and so for each lane of `encode`. It is not restated for `encode` as one equation.
- `VoxWorld.MortonEncodeIvec3`: injectivity on the centred range is not stated in one lemma. `OffsetCentresRange` proves the range mapping on integers, and `Uvec3Injective` proves injectivity on the resulting `u32` values. The step between them, converting an integer to a bit-vector, is not proved.
- `VoxWorld.MortonEncodeUvec3`: heights are limited to at most 15, the range in which every shift of the loop stays below 32 bits.
- `VoxelWorld::add_voxel`, and the call to it in `new`, depend on `ChunkOctree` and `VoxelOctree`, which are not part of this model. So do the `chunk_tree`, `chunk_data` and `center` fields. The constructor models only the field initialisation.
- `ChunkPosition::morton` only forwards to `morton_encode_ivec3`, which `MortonEncodeIvec3` models. The `VoxelWorld` getters are not modelled.
- `VoxelData` of the older voxel world is a colour, and only its equality is used. It is the type parameter of `VoxelWorld`.
- The octree's `VoxelData.normal`, `VoxelMaterial` and the `f32` `unit_length` are floating point. The normal is dropped, the material list is represented by its length, which is always 0, and `unit_length` is a real.
- `Octree.VoxelSVOBuilder.constructor`: `(grid_length as f32).log2().ceil()` is modelled as the exact integer ceiling of log2. The two agree wherever `f32` represents the grid length and its logarithm exactly, which includes every power of two.
- `Octree.VoxelSVOBuilder.FinalizeSvo`: `finalize_svo` consumes the builder. The model leaves the builder object in place and returns the tree. It requires `8^max_depth < 2^32` and `current_morton_code ≤ 8^max_depth`, the `u32` `pow` and subtraction conditions.
- `Octree.VoxelSVOBuilder.GroupBuffer`: `offset as u8` is written as `offset % 256`. Offsets in a group of 8 are below 8, so no truncation occurs.
- `Glsl.GlslDataBuilder.Push`: the bytes of the value that `ptr.write` stores are a parameter of the right size. The `f32` contents of the GLSL values are not modelled.
- `Glsl.PaddingAligns`: proved for the alignments the type table uses (4, 8 and 16), not for every positive alignment.
- `MAX_BRICK_REQUEST` is not part of this model and is a parameter. The constant `MAX_FRAMES_IN_FLIGHT = 2` comes from `src/constants.rs:8`.
- The Vulkan command recording, buffer creation and mapping in `pass/voxel.rs` are foreign calls. Only slot selection, buffer sizes and the count reset are modelled.
- The request-list reset goes through `stage_buffer_copy` (`src/engine/graphics/device.rs:73-99`). That function copies a whole freshly allocated staging buffer, not only the four bytes the closure writes, so the old request entries are not preserved. Their contents afterwards are the staging allocation's bytes. Vulkan does not define those bytes, so they are a parameter of `StagedReset`.
- `FRAMES_IN_FLIGHT`, used by both `FrameIndex` types, is not part of this model. It is a constructor parameter of `FrameIndex`, required to be positive.

## Findings

| source | as written | input that shows it | evidently intended | confidence | as-written member | corrected member |
|---|---|---|---|---|---|---|
| src/engine/voxel/dynamic_world.rs:295 | Each occupied voxel overwrites its mask byte with `=`, keeping only the last voxel's bit | A brick whose voxels 0 and 1 are occupied: byte 0 becomes 2 instead of 3 | OR the bit in with `\|=`, so the mask records every occupied voxel | high; not executed | `DynamicWorld.FromVoxelArrayAsWritten`, `DynamicWorld.AsWrittenDropsVoxels` | `DynamicWorld.FromVoxelArray`, `DynamicWorld.MaskRecordsVoxel` |
| src/engine/voxel/vox_world.rs:173-193 | The chunk comes from truncating `/ 64` and the local part from truncating `% 64` cast to `u32`, so negative coordinates get negative remainders that wrap | Voxels (-1, 0, 0) and (63, 0, 0) both land in chunk (0, 0, 0) with the same local Morton code | Floor division and Euclidean remainder, so -1 lands in chunk -1 at local 63 and every position is recovered | medium; not executed | `VoxWorld.NegativeCoordinateCollides` | `VoxWorld.FloorSplitRecovers`, `VoxWorld.FloorLocalMorton` |
