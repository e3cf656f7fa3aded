/** The voxel hierarchy's size constants (`vox_constants` in src/engine/voxel/mod.rs).
    A brick is 8x8x8 voxels, a chunk is 8x8x8 bricks and a super chunk is 4x4x4 chunks.
    The f32 world-length constants are not modelled. */
module VoxConstants {
  const BRICK_LENGTH: nat := 8
  const BRICK_AREA: nat := BRICK_LENGTH * BRICK_LENGTH
  const BRICK_VOLUME: nat := BRICK_AREA * BRICK_LENGTH
  /** Number of Morton-code bits that address a voxel inside a brick: 3 bits per halving of the length. */
  const BRICK_MORTON_LENGTH: nat := TrailingZeros(BRICK_LENGTH) * 3

  const CHUNK_LENGTH: nat := 8
  const CHUNK_AREA: nat := CHUNK_LENGTH * CHUNK_LENGTH
  const CHUNK_VOLUME: nat := CHUNK_AREA * CHUNK_LENGTH

  const CHUNK_VOXEL_LENGTH: nat := CHUNK_LENGTH * BRICK_LENGTH

  const SUPER_CHUNK_LENGTH: nat := 4
  const SUPER_CHUNK_AREA: nat := SUPER_CHUNK_LENGTH * SUPER_CHUNK_LENGTH
  const SUPER_CHUNK_VOLUME: nat := SUPER_CHUNK_AREA * SUPER_CHUNK_LENGTH

  /** `usize::trailing_zeros` for a non-zero value. */
  function TrailingZeros(n: nat): nat
    requires n > 0
  {
    if n % 2 == 1 then 0 else 1 + TrailingZeros(n / 2)
  }

  lemma ConstantValues()
    ensures BRICK_AREA == 64 && BRICK_VOLUME == 512 && BRICK_MORTON_LENGTH == 9
    ensures CHUNK_VOLUME == 512 && CHUNK_VOXEL_LENGTH == 64 && SUPER_CHUNK_VOLUME == 64
    ensures BRICK_VOLUME == CHUNK_VOLUME
  {
  }
}

/** The 64-bit Morton code (`util::Morton` in src/engine/voxel/mod.rs): every axis contributes 21 bits,
    bit i of x, y and z lands at positions 3i, 3i+1 and 3i+2. Values are the source's u32 and u64. */
module MortonCodec {
  /** The low 21 bits of one axis. */
  const AXIS_MASK: bv32 := 0x1f_ffff
  /** The positions 3i (i < 21) that `Split` may set. */
  const DILATED_MASK: bv64 := 0x1249_2492_4924_9249
  /** Bits 0..62: all positions an encoded 21-bit triple can occupy. */
  const CODE_MASK: bv64 := 0x7fff_ffff_ffff_ffff

  /** Spreads the low 21 bits of x so that two zero bits separate consecutive source bits. */
  function Split(x: bv32): (r: bv64)
    ensures r & !DILATED_MASK == 0
  {
    var x0 := x as bv64 & 0x1f_ffff;
    var x1 := (x0 | (x0 << 32)) & 0x001f_0000_0000_ffff;
    var x2 := (x1 | (x1 << 16)) & 0x001f_0000_ff00_00ff;
    var x3 := (x2 | (x2 << 8)) & 0x100f_00f0_0f00_f00f;
    var x4 := (x3 | (x3 << 4)) & 0x10c3_0c30_c30c_30c3;
    (x4 | (x4 << 2)) & 0x1249_2492_4924_9249
  }

  /** Gathers the bits at positions 3i (i < 21) of x into a 21-bit value; the inverse of `Split`. */
  function Compact(x: bv64): (r: bv32)
    ensures r & !AXIS_MASK == 0
  {
    var x0 := x & 0x1249_2492_4924_9249;
    var x1 := (x0 | (x0 >> 2)) & 0x10c3_0c30_c30c_30c3;
    var x2 := (x1 | (x1 >> 4)) & 0x100f_00f0_0f00_f00f;
    var x3 := (x2 | (x2 >> 8)) & 0x001f_0000_ff00_00ff;
    var x4 := (x3 | (x3 >> 16)) & 0x001f_0000_0000_ffff;
    ((x4 | (x4 >> 32)) & 0x1f_ffff) as bv32
  }

  /** `Morton::encode`: the code of the position (x, y, z). */
  function Encode(x: bv32, y: bv32, z: bv32): (c: bv64)
    ensures c & !CODE_MASK == 0
  {
    Split(x) | (Split(y) << 1) | (Split(z) << 2)
  }

  /** `Morton::decode`: the position (as u64 components) of a code. */
  function Decode(c: bv64): (p: (bv64, bv64, bv64))
    ensures p.0 < 0x20_0000 && p.1 < 0x20_0000 && p.2 < 0x20_0000
  {
    (Compact(c) as bv64, Compact(c >> 1) as bv64, Compact(c >> 2) as bv64)
  }

  /** The three axis contributions of `Encode` occupy disjoint bit positions. */
  lemma ContributionsDisjoint(x: bv32, y: bv32, z: bv32)
    ensures Split(x) & (Split(y) << 1) == 0
    ensures Split(x) & (Split(z) << 2) == 0
    ensures (Split(y) << 1) & (Split(z) << 2) == 0
  {
  }

  /** `Split` masks its input to 21 bits first, so bits 21 and above of every component are ignored. */
  lemma SplitIgnoresHighBits(x: bv32)
    ensures Split(x) == Split(x & AXIS_MASK)
  {
  }

  /** `Compact` undoes `Split` on the low 21 bits. */
  lemma CompactSplit(x: bv32)
    ensures Compact(Split(x)) == x & AXIS_MASK
  {
  }

  /** Each component can be read back from its lane of the code. */
  lemma CompactEncodeX(x: bv32, y: bv32, z: bv32)
    ensures Compact(Encode(x, y, z)) == x & AXIS_MASK
  {
  }

  lemma CompactEncodeY(x: bv32, y: bv32, z: bv32)
    ensures Compact(Encode(x, y, z) >> 1) == y & AXIS_MASK
  {
  }

  lemma CompactEncodeZ(x: bv32, y: bv32, z: bv32)
    ensures Compact(Encode(x, y, z) >> 2) == z & AXIS_MASK
  {
  }

  lemma DecodeEncode(x: bv32, y: bv32, z: bv32)
    requires x <= AXIS_MASK && y <= AXIS_MASK && z <= AXIS_MASK
    ensures var p := Decode(Encode(x, y, z)); p.0 == x as bv64 && p.1 == y as bv64 && p.2 == z as bv64
  {
    CompactEncodeX(x, y, z);
    CompactEncodeY(x, y, z);
    CompactEncodeZ(x, y, z);
  }

  /** Every code below 2^63 is the code of its decoded position; bit 63 is never produced. */
  lemma EncodeDecode(c: bv64)
    requires c <= CODE_MASK
    ensures var p := Decode(c); Encode(p.0 as bv32, p.1 as bv32, p.2 as bv32) == c
  {
  }

  lemma EncodeInjective(x: bv32, y: bv32, z: bv32, x': bv32, y': bv32, z': bv32)
    requires x <= AXIS_MASK && y <= AXIS_MASK && z <= AXIS_MASK
    requires x' <= AXIS_MASK && y' <= AXIS_MASK && z' <= AXIS_MASK
    requires Encode(x, y, z) == Encode(x', y', z')
    ensures x == x' && y == y' && z == z'
  {
  }

  /** A voxel at brick position b and in-brick position l (< 8 per axis) has the brick's code
      followed by the 9-bit in-brick code; this is what lets a chunk's voxel array be cut into
      512-voxel bricks by code. */
  lemma BrickNesting(bx: bv32, by': bv32, bz: bv32, lx: bv32, ly: bv32, lz: bv32)
    requires bx < 0x4_0000 && by' < 0x4_0000 && bz < 0x4_0000
    requires lx < 8 && ly < 8 && lz < 8
    ensures Encode(bx * 8 + lx, by' * 8 + ly, bz * 8 + lz) == (Encode(bx, by', bz) << 9) | Encode(lx, ly, lz)
  {
  }

  /** Reference bit-by-bit dilation: bit i of x (i < n) moved to position 3i. */
  function Spread(x: bv64, n: bv64): bv64
    requires n <= 21
    decreases n
  {
    if n == 0 then 0 else Spread(x, n - 1) | (((x >> (n - 1)) & 1) << (3 * (n - 1)))
  }

  lemma SpreadStep(x: bv64, n: bv64)
    requires n < 21
    ensures Spread(x, n + 1) == Spread(x, n) | (((x >> n) & 1) << (3 * n))
  {
  }

  /** The mask-and-shift cascade of `Split` is exactly the bit-by-bit dilation. */
  lemma SplitIsSpread(x: bv32)
    ensures Split(x) == Spread(x as bv64, 21)
  {
    var v := x as bv64;
    SpreadStep(v, 0); SpreadStep(v, 1); SpreadStep(v, 2); SpreadStep(v, 3); SpreadStep(v, 4);
    SpreadStep(v, 5); SpreadStep(v, 6); SpreadStep(v, 7); SpreadStep(v, 8); SpreadStep(v, 9);
    SpreadStep(v, 10); SpreadStep(v, 11); SpreadStep(v, 12); SpreadStep(v, 13); SpreadStep(v, 14);
    SpreadStep(v, 15); SpreadStep(v, 16); SpreadStep(v, 17); SpreadStep(v, 18); SpreadStep(v, 19);
    SpreadStep(v, 20);
  }

  /** `util::next_pow2`: the smallest power of two that is at least v. `value -= 1` underflows
      for 0 and `value + 1` overflows above 2^31, both of which panic. */
  function NextPow2(v: bv32): (r: bv32)
    requires 1 <= v <= 0x8000_0000
    ensures r != 0 && r & (r - 1) == 0
    ensures v <= r && r >> 1 < v
  {
    var v0 := v - 1;
    var v1 := v0 | (v0 >> 1);
    var v2 := v1 | (v1 >> 2);
    var v3 := v2 | (v2 >> 4);
    var v4 := v3 | (v3 >> 8);
    var v5 := v4 | (v4 >> 16);
    v5 + 1
  }

  lemma NextPow2OfPowerOfTwo(v: bv32)
    requires 1 <= v <= 0x8000_0000 && v & (v - 1) == 0
    ensures NextPow2(v) == v
  {
  }
}
