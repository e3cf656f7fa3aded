/** The 32-bit loop codec (`util::morton_encode` / `util::morton_decode` in src/engine/voxel/morton.rs):
    ten iterations, each moving bit i of x, y and z to positions 3i, 3i+1 and 3i+2 of a u32. */
module MortonLoop {
  import opened MortonCodec

  /** What iteration i of the encoding loop ORs into the answer: bit i of each component at its
      interleaved position. Bits shifted past bit 31 are lost, as in u32 arithmetic; the shift by
      `2 * i + 2` stays below 32 only for i < 15. */
  function Term(x: bv32, y: bv32, z: bv32, i: bv32): bv32
    requires i < 15
  {
    ((x & (1 << i)) << (2 * i)) | ((y & (1 << i)) << (2 * i + 1)) | ((z & (1 << i)) << (2 * i + 2))
  }

  /** The answer after the first n iterations of the encoding loop. */
  function Interleaved(x: bv32, y: bv32, z: bv32, n: bv32): bv32
    requires n <= 15
    decreases n
  {
    if n == 0 then 0 else Interleaved(x, y, z, n - 1) | Term(x, y, z, n - 1)
  }

  lemma InterleavedStep(x: bv32, y: bv32, z: bv32, i: bv32)
    requires i < 15
    ensures Interleaved(x, y, z, i + 1) == Interleaved(x, y, z, i) | Term(x, y, z, i)
  {
  }

  /** The ten iterations of `morton_encode` written out. */
  function TermTen(x: bv32, y: bv32, z: bv32): bv32 {
    Term(x, y, z, 0) | Term(x, y, z, 1) | Term(x, y, z, 2) | Term(x, y, z, 3) | Term(x, y, z, 4)
      | Term(x, y, z, 5) | Term(x, y, z, 6) | Term(x, y, z, 7) | Term(x, y, z, 8) | Term(x, y, z, 9)
  }

  lemma InterleavedTen(x: bv32, y: bv32, z: bv32)
    ensures Interleaved(x, y, z, 10) == TermTen(x, y, z)
  {
    InterleavedStep(x, y, z, 0); InterleavedStep(x, y, z, 1); InterleavedStep(x, y, z, 2);
    InterleavedStep(x, y, z, 3); InterleavedStep(x, y, z, 4); InterleavedStep(x, y, z, 5);
    InterleavedStep(x, y, z, 6); InterleavedStep(x, y, z, 7); InterleavedStep(x, y, z, 8);
    InterleavedStep(x, y, z, 9);
  }

  /** The ten terms together are the 64-bit code of the low ten bits of each component. */
  lemma TermTenIsEncode(x: bv32, y: bv32, z: bv32)
    ensures TermTen(x, y, z) as bv64 == Encode(x & 0x3ff, y & 0x3ff, z & 0x3ff)
  {
  }

  /** Ten iterations of the encoding loop compute `Morton::encode` of the low ten bits. */
  lemma InterleavedIsEncode(x: bv32, y: bv32, z: bv32)
    ensures Interleaved(x, y, z, 10) as bv64 == Encode(x & 0x3ff, y & 0x3ff, z & 0x3ff)
  {
    InterleavedTen(x, y, z);
    TermTenIsEncode(x, y, z);
  }

  /** Input bits at position 10 and above never reach the answer, so it stays below 2^30. */
  lemma InterleavedBelow30(x: bv32, y: bv32, z: bv32)
    ensures Interleaved(x, y, z, 10) < 0x4000_0000
    ensures Interleaved(x, y, z, 10) == Interleaved(x & 0x3ff, y & 0x3ff, z & 0x3ff, 10)
  {
    InterleavedTen(x, y, z);
    InterleavedTen(x & 0x3ff, y & 0x3ff, z & 0x3ff);
    TermTenBounds(x, y, z);
  }

  lemma TermTenBounds(x: bv32, y: bv32, z: bv32)
    ensures TermTen(x, y, z) < 0x4000_0000
    ensures TermTen(x, y, z) == TermTen(x & 0x3ff, y & 0x3ff, z & 0x3ff)
  {
  }

  /** `morton_encode`. */
  method MortonEncode(x: bv32, y: bv32, z: bv32) returns (answer: bv32)
    ensures answer == Interleaved(x, y, z, 10)
    ensures answer as bv64 == Encode(x & 0x3ff, y & 0x3ff, z & 0x3ff)
  {
    answer := 0;
    var i: bv32 := 0;
    while i < 10
      invariant i <= 10
      invariant answer == Interleaved(x, y, z, i)
      decreases 10 - i
    {
      InterleavedStep(x, y, z, i);
      answer := answer | Term(x, y, z, i);
      i := i + 1;
    }
    InterleavedIsEncode(x, y, z);
  }

  /** What iteration i of the decoding loop ORs into lane k (0 for x, 1 for y, 2 for z):
      bit 3i + k of the code, moved down to bit i. The shift by `3 * i + 2` stays below 32 only for i < 10. */
  function Gather(code: bv32, k: bv32, i: bv32): bv32
    requires k < 3 && i < 10
  {
    (code & (1 << (3 * i + k))) >> (2 * i + k)
  }

  /** Lane k after the first n iterations of the decoding loop. */
  function Deinterleaved(code: bv32, k: bv32, n: bv32): bv32
    requires k < 3 && n <= 10
    decreases n
  {
    if n == 0 then 0 else Deinterleaved(code, k, n - 1) | Gather(code, k, n - 1)
  }

  lemma DeinterleavedStep(code: bv32, k: bv32, i: bv32)
    requires k < 3 && i < 10
    ensures Deinterleaved(code, k, i + 1) == Deinterleaved(code, k, i) | Gather(code, k, i)
  {
  }

  /** One iteration of the decoding loop extends each of the three lanes by its next bit. */
  lemma DecodeIteration(code: bv32, i: bv32, x: bv32, y: bv32, z: bv32)
    requires i < 10
    requires x == Deinterleaved(code, 0, i) && y == Deinterleaved(code, 1, i) && z == Deinterleaved(code, 2, i)
    ensures x | Gather(code, 0, i) == Deinterleaved(code, 0, i + 1)
    ensures y | Gather(code, 1, i) == Deinterleaved(code, 1, i + 1)
    ensures z | Gather(code, 2, i) == Deinterleaved(code, 2, i + 1)
  {
    DeinterleavedStep(code, 0, i);
    DeinterleavedStep(code, 1, i);
    DeinterleavedStep(code, 2, i);
  }

  /** The ten gathered bits of lane k. */
  function GatherTen(code: bv32, k: bv32): bv32
    requires k < 3
  {
    Gather(code, k, 0) | Gather(code, k, 1) | Gather(code, k, 2) | Gather(code, k, 3) | Gather(code, k, 4)
      | Gather(code, k, 5) | Gather(code, k, 6) | Gather(code, k, 7) | Gather(code, k, 8) | Gather(code, k, 9)
  }

  lemma DeinterleavedTen(code: bv32, k: bv32)
    requires k < 3
    ensures Deinterleaved(code, k, 10) == GatherTen(code, k)
  {
    DeinterleavedStep(code, k, 0); DeinterleavedStep(code, k, 1); DeinterleavedStep(code, k, 2);
    DeinterleavedStep(code, k, 3); DeinterleavedStep(code, k, 4); DeinterleavedStep(code, k, 5);
    DeinterleavedStep(code, k, 6); DeinterleavedStep(code, k, 7); DeinterleavedStep(code, k, 8);
    DeinterleavedStep(code, k, 9);
  }

  /** The low 30 bits of a code, widened to the 64-bit code `Morton::decode` reads. */
  function Low30(code: bv32): bv64 {
    (code & 0x3fff_ffff) as bv64
  }

  /** Ten iterations of the decoding loop compute `Morton::decode` of the low 30 bits, lane by lane. */
  lemma DeinterleavedIsDecodeX(code: bv32)
    ensures Deinterleaved(code, 0, 10) as bv64 == Decode(Low30(code)).0
  {
    DeinterleavedTen(code, 0);
  }

  lemma DeinterleavedIsDecodeY(code: bv32)
    ensures Deinterleaved(code, 1, 10) as bv64 == Decode(Low30(code)).1
  {
    DeinterleavedTen(code, 1);
  }

  lemma DeinterleavedIsDecodeZ(code: bv32)
    ensures Deinterleaved(code, 2, 10) as bv64 == Decode(Low30(code)).2
  {
    DeinterleavedTen(code, 2);
  }

  /** The decoding loop computes `Morton::decode` of the low 30 bits of its input. */
  lemma DeinterleavedIsDecode(code: bv32)
    ensures Deinterleaved(code, 0, 10) as bv64 == Decode(Low30(code)).0
    ensures Deinterleaved(code, 1, 10) as bv64 == Decode(Low30(code)).1
    ensures Deinterleaved(code, 2, 10) as bv64 == Decode(Low30(code)).2
  {
    DeinterleavedIsDecodeX(code);
    DeinterleavedIsDecodeY(code);
    DeinterleavedIsDecodeZ(code);
  }

  /** Every decoded lane is a 10-bit value. */
  lemma DeinterleavedBound(code: bv32, k: bv32)
    requires k < 3
    ensures Deinterleaved(code, k, 10) < 0x400
  {
    DeinterleavedTen(code, k);
  }

  /** `morton_decode`. */
  method MortonDecode(code: bv32) returns (x: bv32, y: bv32, z: bv32)
    ensures x == Deinterleaved(code, 0, 10) && y == Deinterleaved(code, 1, 10) && z == Deinterleaved(code, 2, 10)
  {
    x, y, z := 0, 0, 0;
    var i: bv32 := 0;
    while i < 10
      invariant i <= 10
      invariant x == Deinterleaved(code, 0, i)
      invariant y == Deinterleaved(code, 1, i)
      invariant z == Deinterleaved(code, 2, i)
      decreases 10 - i
    {
      DecodeIteration(code, i, x, y, z);
      x := x | Gather(code, 0, i);
      y := y | Gather(code, 1, i);
      z := z | Gather(code, 2, i);
      i := i + 1;
    }
  }

  /** Gathering the lanes of the ten encoding terms yields the low ten bits of each component. */
  lemma GatherOfTermsX(x: bv32, y: bv32, z: bv32)
    ensures GatherTen(TermTen(x, y, z), 0) == x & 0x3ff
  {
  }

  lemma GatherOfTermsY(x: bv32, y: bv32, z: bv32)
    ensures GatherTen(TermTen(x, y, z), 1) == y & 0x3ff
  {
  }

  lemma GatherOfTermsZ(x: bv32, y: bv32, z: bv32)
    ensures GatherTen(TermTen(x, y, z), 2) == z & 0x3ff
  {
  }

  /** The decoding loop undoes the encoding loop on the low ten bits of each component. */
  lemma LoopRoundTrip(x: bv32, y: bv32, z: bv32)
    ensures Deinterleaved(Interleaved(x, y, z, 10), 0, 10) == x & 0x3ff
    ensures Deinterleaved(Interleaved(x, y, z, 10), 1, 10) == y & 0x3ff
    ensures Deinterleaved(Interleaved(x, y, z, 10), 2, 10) == z & 0x3ff
  {
    InterleavedTen(x, y, z);
    var c := Interleaved(x, y, z, 10);
    DeinterleavedTen(c, 0);
    DeinterleavedTen(c, 1);
    DeinterleavedTen(c, 2);
    GatherOfTermsX(x, y, z);
    GatherOfTermsY(x, y, z);
    GatherOfTermsZ(x, y, z);
  }

  /** Re-encoding the three gathered lanes of a code restores its low 30 bits. */
  lemma TermsOfGathers(code: bv32)
    ensures TermTen(GatherTen(code, 0), GatherTen(code, 1), GatherTen(code, 2)) == code & 0x3fff_ffff
  {
  }

  /** The encoding loop undoes the decoding loop on every code below 2^30. */
  lemma LoopEncodeDecode(code: bv32)
    requires code < 0x4000_0000
    ensures Interleaved(Deinterleaved(code, 0, 10), Deinterleaved(code, 1, 10), Deinterleaved(code, 2, 10), 10) == code
  {
    DeinterleavedTen(code, 0);
    DeinterleavedTen(code, 1);
    DeinterleavedTen(code, 2);
    InterleavedTen(Deinterleaved(code, 0, 10), Deinterleaved(code, 1, 10), Deinterleaved(code, 2, 10));
    TermsOfGathers(code);
  }
}
