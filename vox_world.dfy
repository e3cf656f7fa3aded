// The older voxel world helpers: a height-parameterised Morton encoder, the
// signed variant that re-centres coordinates, chunk/voxel position helpers,
// and the de-duplicating voxel-data table.

module VoxWorld {
  import opened MortonLoop

  /** Height of a chunk octree; a chunk is 2^6 = 64 voxels on a side. */
  const CHUNK_OCTREE_HEIGHT: bv32 := 6
  const CHUNK_LENGTH: int := 64

  // ---------------------------------------------------------------------
  // morton_encode_uvec3: bit i of x, y and z goes to bits 3i, 3i+1, 3i+2
  // for every i below the height.  The loop body is `Term(x, y, z, i)`;
  // heights above 15 make the `2 * i + 2` shift overflow a u32 (a panic in
  // debug builds), hence `height <= 15`.
  // ---------------------------------------------------------------------

  method MortonEncodeUvec3(x: bv32, y: bv32, z: bv32, height: bv32) returns (answer: bv32)
    requires height <= 15
    ensures answer == Interleaved(x, y, z, height)
  {
    answer := 0;
    var i: bv32 := 0;
    while i < height
      invariant i <= height
      invariant answer == Interleaved(x, y, z, i)
      decreases height - i
    {
      InterleavedStep(x, y, z, i);
      answer := OrInBit(answer, x, y, z, i);
      i := i + 1;
    }
  }

  /** The loop body: its three `|=` statements together OR in `Term(x, y, z, i)`. */
  method OrInBit(answer: bv32, x: bv32, y: bv32, z: bv32, i: bv32) returns (r: bv32)
    requires i < 15
    ensures r == answer | Term(x, y, z, i)
  {
    r := answer | ((x & (1 << i)) << (2 * i));
    r := r | ((y & (1 << i)) << (2 * i + 1));
    r := r | ((z & (1 << i)) << (2 * i + 2));
  }

  /** The low `h` bits. */
  function LowMask(h: bv32): (m: bv32)
    requires h < 32
    ensures m == (1 << h) - 1
  {
    (1 << h) - 1
  }

  /** Iteration i reads bit i of each input, places it at 3i, 3i+1, 3i+2, and sets no other bit. */
  lemma TermPlacesBits(x: bv32, y: bv32, z: bv32, i: bv32)
    requires i < 10
    ensures (Term(x, y, z, i) >> (3 * i)) & 1 == (x >> i) & 1
    ensures (Term(x, y, z, i) >> (3 * i + 1)) & 1 == (y >> i) & 1
    ensures (Term(x, y, z, i) >> (3 * i + 2)) & 1 == (z >> i) & 1
    ensures Term(x, y, z, i) & !(7 << (3 * i)) == 0
  {
  }

  lemma TermOfBits(x: bv32, y: bv32, z: bv32, i: bv32)
    requires i < 15
    ensures Term(x, y, z, i) == Term(x & (1 << i), y & (1 << i), z & (1 << i), i)
  {
  }

  lemma BitBelowMask(x: bv32, h: bv32, i: bv32)
    requires i < h < 32
    ensures (x & LowMask(h)) & (1 << i) == x & (1 << i)
  {
  }

  lemma BitAboveWidth(x: bv32, h: bv32, i: bv32)
    requires h <= i < 32 && x < (1 << h)
    ensures x & (1 << i) == 0
  {
  }

  /** One more iteration keeps two interleavings equal when their new terms agree. */
  lemma StepCongruent(x: bv32, y: bv32, z: bv32, a: bv32, b: bv32, c: bv32, i: bv32)
    requires i < 15
    requires Interleaved(x, y, z, i) == Interleaved(a, b, c, i)
    requires Term(x, y, z, i) == Term(a, b, c, i)
    ensures Interleaved(x, y, z, i + 1) == Interleaved(a, b, c, i + 1)
  {
    InterleavedStep(x, y, z, i);
    InterleavedStep(a, b, c, i);
  }

  /** The first `n` iterations only look at bits below `h` when n <= h. */
  lemma {:induction false} InterleavedMasked(x: bv32, y: bv32, z: bv32, h: bv32, n: bv32)
    requires n <= h <= 15
    ensures Interleaved(x, y, z, n) == Interleaved(x & LowMask(h), y & LowMask(h), z & LowMask(h), n)
    decreases n
  {
    if n > 0 {
      var i := n - 1;
      InterleavedMasked(x, y, z, h, i);
      TermMasked(x, y, z, h, i);
      StepCongruent(x, y, z, x & LowMask(h), y & LowMask(h), z & LowMask(h), i);
      assert i + 1 == n;
    }
  }

  lemma TermMasked(x: bv32, y: bv32, z: bv32, h: bv32, i: bv32)
    requires i < h <= 15
    ensures Term(x, y, z, i) == Term(x & LowMask(h), y & LowMask(h), z & LowMask(h), i)
  {
    TermOfBits(x, y, z, i);
    TermOfBits(x & LowMask(h), y & LowMask(h), z & LowMask(h), i);
    BitBelowMask(x, h, i);
    BitBelowMask(y, h, i);
    BitBelowMask(z, h, i);
  }

  /** Iterations at or above the inputs' width add nothing. */
  lemma {:induction false} InterleavedPastWidth(x: bv32, y: bv32, z: bv32, h: bv32, n: bv32)
    requires h <= n <= 15
    requires x < (1 << h) && y < (1 << h) && z < (1 << h)
    ensures Interleaved(x, y, z, n) == Interleaved(x, y, z, h)
    decreases n
  {
    if n > h {
      var i := n - 1;
      InterleavedPastWidth(x, y, z, h, i);
      TermPastWidth(x, y, z, h, i);
      InterleavedStep(x, y, z, i);
      assert i + 1 == n;
    }
  }

  lemma TermPastWidth(x: bv32, y: bv32, z: bv32, h: bv32, i: bv32)
    requires h <= i < 15
    requires x < (1 << h) && y < (1 << h) && z < (1 << h)
    ensures Term(x, y, z, i) == 0
  {
    BitAboveWidth(x, h, i);
    BitAboveWidth(y, h, i);
    BitAboveWidth(z, h, i);
    TermOfBits(x, y, z, i);
  }

  /**
   * Bits at position `h` and above are ignored: a height-`h` code is the
   * full 10-bit interleaving of the inputs' low `h` bits.
   */
  lemma IgnoresHighBits(x: bv32, y: bv32, z: bv32, h: bv32)
    requires h <= 10
    ensures Interleaved(x, y, z, h) == Interleaved(x & LowMask(h), y & LowMask(h), z & LowMask(h), 10)
  {
    var m := LowMask(h);
    InterleavedMasked(x, y, z, h, h);
    assert x & m < (1 << h) && y & m < (1 << h) && z & m < (1 << h);
    InterleavedPastWidth(x & m, y & m, z & m, h, 10);
  }

  lemma WithinTenBits(x: bv32, h: bv32)
    requires h <= 10 && x < (1 << h)
    ensures x & 0x3ff == x
  {
  }

  /** The height-`h` encoder is injective on [0, 2^h)^3 for h <= 10. */
  lemma Uvec3Injective(x: bv32, y: bv32, z: bv32, x': bv32, y': bv32, z': bv32, h: bv32)
    requires h <= 10
    requires x < (1 << h) && y < (1 << h) && z < (1 << h)
    requires x' < (1 << h) && y' < (1 << h) && z' < (1 << h)
    requires Interleaved(x, y, z, h) == Interleaved(x', y', z', h)
    ensures x == x' && y == y' && z == z'
  {
    InterleavedPastWidth(x, y, z, h, 10);
    InterleavedPastWidth(x', y', z', h, 10);
    LoopRoundTrip(x, y, z);
    LoopRoundTrip(x', y', z');
    WithinTenBits(x, h);
    WithinTenBits(y, h);
    WithinTenBits(z, h);
    WithinTenBits(x', h);
    WithinTenBits(y', h);
    WithinTenBits(z', h);
  }

  // ---------------------------------------------------------------------
  // i32 arithmetic.  Overflow panics in debug builds and is a precondition
  // here; `as u32` keeps the two's-complement bits, i.e. reduces mod 2^32.
  // ---------------------------------------------------------------------

  predicate IsI32(v: int) {
    -0x8000_0000 <= v < 0x8000_0000
  }

  /** `v as u32` for an i32 value v. */
  function U32Of(v: int): bv32 {
    (v % 0x1_0000_0000) as bv32
  }

  function Pow2(n: nat): (p: nat)
    ensures p >= 1
  {
    if n == 0 then 1 else 2 * Pow2(n - 1)
  }

  /** `1 << (height - 1)`, the offset morton_encode_ivec3 adds to each component. */
  function CentreOffset(height: bv32): nat
    requires 1 <= height <= 15
  {
    Pow2((height - 1) as int)
  }

  /**
   * morton_encode_ivec3: shifts each signed component up by 2^(height-1)
   * and encodes the resulting u32 values at the given height.
   */
  method MortonEncodeIvec3(x: int, y: int, z: int, height: bv32) returns (code: bv32)
    requires 1 <= height <= 15
    requires IsI32(x + CentreOffset(height)) && IsI32(y + CentreOffset(height)) && IsI32(z + CentreOffset(height))
    ensures code == Interleaved(U32Of(x + CentreOffset(height)), U32Of(y + CentreOffset(height)),
                                U32Of(z + CentreOffset(height)), height)
  {
    var offset := CentreOffset(height);
    code := MortonEncodeUvec3(U32Of(x + offset), U32Of(y + offset), U32Of(z + offset), height);
  }

  /** The offset maps the centred range [-2^(h-1), 2^(h-1)) exactly onto [0, 2^h). */
  lemma {:induction false} OffsetCentresRange(h: nat, v: int)
    requires h >= 1
    ensures -(Pow2(h - 1) as int) <= v < Pow2(h - 1) <==> 0 <= v + Pow2(h - 1) < Pow2(h)
  {
    assert Pow2(h) == 2 * Pow2(h - 1);
  }

  // ---------------------------------------------------------------------
  // Positions.  Rust's `/` and `%` on i32 truncate toward zero.
  // ---------------------------------------------------------------------

  datatype ChunkPosition = ChunkPosition(x: int, y: int, z: int)
  datatype VoxelPosition = VoxelPosition(x: int, y: int, z: int)

  function TruncDiv(a: int): int {
    if a >= 0 then a / CHUNK_LENGTH else -((-a) / CHUNK_LENGTH)
  }

  function TruncRem(a: int): int {
    if a >= 0 then a % CHUNK_LENGTH else -((-a) % CHUNK_LENGTH)
  }

  /** Truncating division and remainder by 64 recompose the coordinate; the remainder has the coordinate's sign. */
  lemma TruncDivRem(a: int)
    ensures CHUNK_LENGTH * TruncDiv(a) + TruncRem(a) == a
    ensures -CHUNK_LENGTH < TruncRem(a) < CHUNK_LENGTH
    ensures a >= 0 ==> 0 <= TruncRem(a) && TruncDiv(a) == a / CHUNK_LENGTH
    ensures a < 0 ==> TruncRem(a) <= 0
  {
    if a < 0 {
      assert CHUNK_LENGTH * ((-a) / CHUNK_LENGTH) + (-a) % CHUNK_LENGTH == -a;
    }
  }

  /** translate_chunk: the position relative to the origin of chunk `c`. */
  function TranslateChunk(p: VoxelPosition, c: ChunkPosition): (r: VoxelPosition)
    requires IsI32(c.x * CHUNK_LENGTH) && IsI32(c.y * CHUNK_LENGTH) && IsI32(c.z * CHUNK_LENGTH)
    requires IsI32(p.x - c.x * CHUNK_LENGTH) && IsI32(p.y - c.y * CHUNK_LENGTH) && IsI32(p.z - c.z * CHUNK_LENGTH)
    ensures r.x + c.x * CHUNK_LENGTH == p.x && r.y + c.y * CHUNK_LENGTH == p.y && r.z + c.z * CHUNK_LENGTH == p.z
  {
    VoxelPosition(p.x - c.x * CHUNK_LENGTH, p.y - c.y * CHUNK_LENGTH, p.z - c.z * CHUNK_LENGTH)
  }

  /** chunk_position: truncating division of each coordinate by 64. */
  function ChunkPositionOf(p: VoxelPosition): ChunkPosition {
    ChunkPosition(TruncDiv(p.x), TruncDiv(p.y), TruncDiv(p.z))
  }

  /** The local coordinates local_morton encodes (truncating remainders). */
  function LocalOf(p: VoxelPosition): VoxelPosition {
    VoxelPosition(TruncRem(p.x), TruncRem(p.y), TruncRem(p.z))
  }

  predicate NonNegative(p: VoxelPosition) {
    p.x >= 0 && p.y >= 0 && p.z >= 0
  }

  /** local_morton: the height-6 code of the (wrapped) local coordinates. */
  method LocalMorton(p: VoxelPosition) returns (code: bv32)
    ensures code == Interleaved(U32Of(LocalOf(p).x), U32Of(LocalOf(p).y), U32Of(LocalOf(p).z), CHUNK_OCTREE_HEIGHT)
  {
    var local := LocalOf(p);
    code := MortonEncodeUvec3(U32Of(local.x), U32Of(local.y), U32Of(local.z), CHUNK_OCTREE_HEIGHT);
  }

  /** For non-negative positions, chunk * 64 + local == position and every local coordinate lies in [0, 64). */
  lemma ChunkLocalSplit(p: VoxelPosition)
    requires NonNegative(p)
    ensures CHUNK_LENGTH * ChunkPositionOf(p).x + LocalOf(p).x == p.x
    ensures CHUNK_LENGTH * ChunkPositionOf(p).y + LocalOf(p).y == p.y
    ensures CHUNK_LENGTH * ChunkPositionOf(p).z + LocalOf(p).z == p.z
    ensures 0 <= LocalOf(p).x < CHUNK_LENGTH && 0 <= LocalOf(p).y < CHUNK_LENGTH && 0 <= LocalOf(p).z < CHUNK_LENGTH
  {
    TruncDivRem(p.x);
    TruncDivRem(p.y);
    TruncDivRem(p.z);
  }

  /**
   * Translating by whole chunks keeps the local offset and shifts the chunk
   * coordinate by `c`, as long as the position stays non-negative.
   */
  lemma TranslateKeepsLocal(p: VoxelPosition, c: ChunkPosition)
    requires IsI32(c.x * CHUNK_LENGTH) && IsI32(c.y * CHUNK_LENGTH) && IsI32(c.z * CHUNK_LENGTH)
    requires IsI32(p.x - c.x * CHUNK_LENGTH) && IsI32(p.y - c.y * CHUNK_LENGTH) && IsI32(p.z - c.z * CHUNK_LENGTH)
    requires NonNegative(p) && NonNegative(TranslateChunk(p, c))
    ensures LocalOf(TranslateChunk(p, c)) == LocalOf(p)
    ensures ChunkPositionOf(TranslateChunk(p, c)) ==
            ChunkPosition(ChunkPositionOf(p).x - c.x, ChunkPositionOf(p).y - c.y, ChunkPositionOf(p).z - c.z)
  {
    var r := TranslateChunk(p, c);
    ChunkLocalSplit(p);
    ChunkLocalSplit(r);
    LocalAxis(p.x, c.x);
    LocalAxis(p.y, c.y);
    LocalAxis(p.z, c.z);
  }

  lemma LocalAxis(a: int, c: int)
    requires a >= 0 && a - c * CHUNK_LENGTH >= 0
    ensures TruncRem(a - c * CHUNK_LENGTH) == TruncRem(a)
    ensures TruncDiv(a - c * CHUNK_LENGTH) == TruncDiv(a) - c
  {
    var q, r := a / CHUNK_LENGTH, a % CHUNK_LENGTH;
    assert a - c * CHUNK_LENGTH == (q - c) * CHUNK_LENGTH + r;
  }

  /** For non-negative positions the local code decodes back to the local coordinates. */
  lemma LocalMortonDecodes(p: VoxelPosition)
    requires NonNegative(p)
    ensures var code := Interleaved(U32Of(LocalOf(p).x), U32Of(LocalOf(p).y), U32Of(LocalOf(p).z), CHUNK_OCTREE_HEIGHT);
            code < 0x4_0000 &&
            Deinterleaved(code, 0, 10) == U32Of(LocalOf(p).x) &&
            Deinterleaved(code, 1, 10) == U32Of(LocalOf(p).y) &&
            Deinterleaved(code, 2, 10) == U32Of(LocalOf(p).z)
  {
    ChunkLocalSplit(p);
    var lx, ly, lz := U32Of(LocalOf(p).x), U32Of(LocalOf(p).y), U32Of(LocalOf(p).z);
    SmallU32(LocalOf(p).x);
    SmallU32(LocalOf(p).y);
    SmallU32(LocalOf(p).z);
    LocalCodeBounds(lx, ly, lz);
  }

  lemma SmallU32(l: int)
    requires 0 <= l < CHUNK_LENGTH
    ensures U32Of(l) < 64
  {
  }

  lemma LocalCodeBounds(lx: bv32, ly: bv32, lz: bv32)
    requires lx < 64 && ly < 64 && lz < 64
    ensures Interleaved(lx, ly, lz, 6) < 0x4_0000
    ensures Deinterleaved(Interleaved(lx, ly, lz, 6), 0, 10) == lx
    ensures Deinterleaved(Interleaved(lx, ly, lz, 6), 1, 10) == ly
    ensures Deinterleaved(Interleaved(lx, ly, lz, 6), 2, 10) == lz
  {
    InterleavedPastWidth(lx, ly, lz, 6, 10);
    IgnoresHighBits(lx, ly, lz, 6);
    LoopRoundTrip(lx, ly, lz);
    WithinTenBits(lx, 6);
    WithinTenBits(ly, 6);
    WithinTenBits(lz, 6);
    InterleavedBelow30(lx & 63, ly & 63, lz & 63);
    SixBitCode(lx, ly, lz);
  }

  lemma SixBitCode(lx: bv32, ly: bv32, lz: bv32)
    requires lx < 64 && ly < 64 && lz < 64
    ensures Interleaved(lx, ly, lz, 6) < 0x4_0000
  {
    InterleavedStep(lx, ly, lz, 0);
    InterleavedStep(lx, ly, lz, 1);
    InterleavedStep(lx, ly, lz, 2);
    InterleavedStep(lx, ly, lz, 3);
    InterleavedStep(lx, ly, lz, 4);
    InterleavedStep(lx, ly, lz, 5);
  }

  /**
   * As written, a voxel at -1 on an axis lands in chunk 0 with local bits
   * 63 (the remainder -1 wraps to 0xFFFF_FFFF), exactly like the voxel at 63:
   * two distinct positions share chunk and local code.
   */
  lemma NegativeCoordinateCollides()
    ensures ChunkPositionOf(VoxelPosition(-1, 0, 0)) == ChunkPositionOf(VoxelPosition(63, 0, 0))
    ensures Interleaved(U32Of(LocalOf(VoxelPosition(-1, 0, 0)).x), U32Of(0), U32Of(0), CHUNK_OCTREE_HEIGHT) ==
            Interleaved(U32Of(LocalOf(VoxelPosition(63, 0, 0)).x), U32Of(0), U32Of(0), CHUNK_OCTREE_HEIGHT)
  {
    assert LocalOf(VoxelPosition(-1, 0, 0)).x == -1;
    assert LocalOf(VoxelPosition(63, 0, 0)).x == 63;
    MinusOneBits();
    SixtyThreeBits();
    InterleavedMasked(U32Of(-1), U32Of(0), U32Of(0), 6, 6);
    InterleavedMasked(U32Of(63), U32Of(0), U32Of(0), 6, 6);
  }

  lemma MinusOneBits()
    ensures U32Of(-1) & LowMask(6) == 63 && U32Of(0) == 0
  {
    assert -1 % 0x1_0000_0000 == 0xFFFF_FFFF;
  }

  lemma SixtyThreeBits()
    ensures U32Of(63) & LowMask(6) == 63
  {
    assert 63 % 0x1_0000_0000 == 63;
  }

  // Corrected split: floor division and the Euclidean remainder, so every
  // position has local coordinates in [0, 64) and is recovered exactly.

  function FloorChunkPositionOf(p: VoxelPosition): ChunkPosition {
    ChunkPosition(p.x / CHUNK_LENGTH, p.y / CHUNK_LENGTH, p.z / CHUNK_LENGTH)
  }

  function FloorLocalOf(p: VoxelPosition): VoxelPosition {
    VoxelPosition(p.x % CHUNK_LENGTH, p.y % CHUNK_LENGTH, p.z % CHUNK_LENGTH)
  }

  method FloorLocalMorton(p: VoxelPosition) returns (code: bv32)
    ensures code == Interleaved(U32Of(FloorLocalOf(p).x), U32Of(FloorLocalOf(p).y), U32Of(FloorLocalOf(p).z), CHUNK_OCTREE_HEIGHT)
  {
    var local := FloorLocalOf(p);
    code := MortonEncodeUvec3(U32Of(local.x), U32Of(local.y), U32Of(local.z), CHUNK_OCTREE_HEIGHT);
  }

  /**
   * With the floor split every position (negative ones included) is chunk *
   * 64 + local with local in [0, 64), and the local code decodes back to
   * the local coordinates, so (chunk, code) determines the position.
   */
  lemma FloorSplitRecovers(p: VoxelPosition)
    ensures CHUNK_LENGTH * FloorChunkPositionOf(p).x + FloorLocalOf(p).x == p.x
    ensures CHUNK_LENGTH * FloorChunkPositionOf(p).y + FloorLocalOf(p).y == p.y
    ensures CHUNK_LENGTH * FloorChunkPositionOf(p).z + FloorLocalOf(p).z == p.z
    ensures 0 <= FloorLocalOf(p).x < CHUNK_LENGTH && 0 <= FloorLocalOf(p).y < CHUNK_LENGTH && 0 <= FloorLocalOf(p).z < CHUNK_LENGTH
    ensures var code := Interleaved(U32Of(FloorLocalOf(p).x), U32Of(FloorLocalOf(p).y), U32Of(FloorLocalOf(p).z), CHUNK_OCTREE_HEIGHT);
            Deinterleaved(code, 0, 10) == U32Of(FloorLocalOf(p).x) &&
            Deinterleaved(code, 1, 10) == U32Of(FloorLocalOf(p).y) &&
            Deinterleaved(code, 2, 10) == U32Of(FloorLocalOf(p).z)
  {
    var l := FloorLocalOf(p);
    SmallU32(l.x);
    SmallU32(l.y);
    SmallU32(l.z);
    LocalCodeBounds(U32Of(l.x), U32Of(l.y), U32Of(l.z));
  }

  /** The floor split agrees with the code as written on non-negative positions. */
  lemma FloorAgreesOnNonNegative(p: VoxelPosition)
    requires NonNegative(p)
    ensures FloorChunkPositionOf(p) == ChunkPositionOf(p) && FloorLocalOf(p) == LocalOf(p)
  {
  }

  // ---------------------------------------------------------------------
  // VoxelWorld: the de-duplicating voxel-data table and change flags.  The
  // chunk octrees and `add_voxel` are not part of this model; `D` stands for
  // VoxelData (a colour), of which only equality is used.
  // ---------------------------------------------------------------------

  /** `s` holds each value once, `lut` knows exactly those values, and it maps
      the value at position i to `i as u32`. */
  ghost predicate TableInverse<D>(lut: map<D, nat>, s: seq<D>)
  {
    && (forall i, j :: 0 <= i < j < |s| ==> s[i] != s[j])
    && (forall i :: 0 <= i < |s| ==> s[i] in lut && lut[s[i]] == i % 0x1_0000_0000)
    && (forall d :: d in lut ==> d in s)
  }

  /** Appending a value the table does not know, at the cast of the old length, keeps the invariant. */
  lemma InsertKeepsInverse<D>(lut: map<D, nat>, s: seq<D>, d: D)
    requires TableInverse(lut, s) && d !in lut
    ensures TableInverse(lut[d := |s| % 0x1_0000_0000], s + [d])
  {
    var s', lut' := s + [d], lut[d := |s| % 0x1_0000_0000];
    forall i | 0 <= i < |s'|
      ensures s'[i] in lut' && lut'[s'[i]] == i % 0x1_0000_0000
    {
      if i < |s| {
        assert s'[i] == s[i] && s[i] in lut;
      }
    }
  }

  class VoxelWorld<D(==)> {
    var voxelDataLut: map<D, nat>
    var voxelData: seq<D>
    var treeUpdated: bool
    var chunksUpdated: seq<nat>
    var voxelDataUpdated: bool

    /** `voxelData` holds each value once, the lookup table knows exactly those
        values, and it maps the value at position i to `i as u32`. */
    ghost predicate Valid()
      reads this
    {
      TableInverse(voxelDataLut, voxelData)
    }

    /** The field initialisation of `new`, before its first `add_voxel`. */
    constructor ()
      ensures Valid()
      ensures voxelDataLut == map[] && voxelData == [] && chunksUpdated == []
      ensures !treeUpdated && !voxelDataUpdated
    {
      voxelDataLut := map[];
      voxelData := [];
      treeUpdated := false;
      chunksUpdated := [];
      voxelDataUpdated := false;
    }

    /** Under the table invariant, a value has one position and the table
        holds that position as a `u32`; below 2^32 values it is the position itself. */
    lemma LookupIsPosition(d: D, i: nat)
      requires Valid() && i < |voxelData| && voxelData[i] == d
      ensures d in voxelDataLut && voxelDataLut[d] == i % 0x1_0000_0000
      ensures forall j :: 0 <= j < |voxelData| && voxelData[j] == d ==> j == i
      ensures |voxelData| <= 0x1_0000_0000 ==> voxelDataLut[d] == i
    {
    }

    /** Once the table holds more than 2^32 values, the `u32` cast makes the
        newest value share its index with the first. */
    lemma WrapSharesIndex()
      requires Valid() && |voxelData| == 0x1_0000_0001
      ensures voxelDataLut[voxelData[0x1_0000_0000]] == voxelDataLut[voxelData[0]]
    {
    }

    /** get_or_insert_voxel_data: the index of `data`, appending it when new;
        the index is the value's position cast to `u32`. */
    method GetOrInsertVoxelData(data: D) returns (index: nat)
      requires Valid()
      modifies this
      ensures Valid()
      ensures index < 0x1_0000_0000 && data in voxelData
      ensures forall i :: 0 <= i < |voxelData| && voxelData[i] == data ==> index == i % 0x1_0000_0000
      ensures |voxelData| <= 0x1_0000_0000 ==> index < |voxelData| && voxelData[index] == data
      ensures old(data in voxelDataLut) ==>
                index == old(voxelDataLut[data]) && voxelData == old(voxelData) &&
                voxelDataLut == old(voxelDataLut) && voxelDataUpdated == old(voxelDataUpdated)
      ensures old(data !in voxelDataLut) ==>
                index == old(|voxelData|) % 0x1_0000_0000 && voxelData == old(voxelData) + [data] &&
                voxelDataLut == old(voxelDataLut)[data := index] && voxelDataUpdated
      ensures treeUpdated == old(treeUpdated) && chunksUpdated == old(chunksUpdated)
    {
      if data in voxelDataLut {
        index := voxelDataLut[data];
        ghost var i :| 0 <= i < |voxelData| && voxelData[i] == data;
        LookupIsPosition(data, i);
      } else {
        index := |voxelData| % 0x1_0000_0000;
        InsertKeepsInverse(voxelDataLut, voxelData, data);
        voxelData := voxelData + [data];
        voxelDataLut := voxelDataLut[data := index];
        voxelDataUpdated := true;
      }
    }

    /** clear_changes: resets the change flags and list; the data is untouched. */
    method ClearChanges()
      modifies this
      ensures !treeUpdated && !voxelDataUpdated && chunksUpdated == []
      ensures voxelData == old(voxelData) && voxelDataLut == old(voxelDataLut)
    {
      treeUpdated := false;
      chunksUpdated := [];
      voxelDataUpdated := false;
    }
  }
}
