// Chunk generation bookkeeping: the voxel array a worker produces for one chunk,
// the per-brick slices the dynamic world reads out of it, and the in-flight set
// that keeps a chunk from being requested twice.

module ChunkGenerator {
  import opened Wrappers
  import opened VoxConstants
  import opened MortonCodec

  /** A voxel colour. The engine keeps three `f32` channels; here a colour only
      tells a solid voxel (`Some`) from an empty one (`None`). */
  datatype Rgb = Rgb(r: real, g: real, b: real)

  type Voxel = Option<Rgb>

  /** The colour the worker paints every solid voxel. */
  const GENERATED_COLOUR: Rgb := Rgb(0.6, 0.2, 0.7)

  /** `WorldChunkPos`: a chunk position, in chunks, in world space. */
  datatype ChunkPos = ChunkPos(x: int, y: int, z: int)

  /** `GeneratedChunk`: what the worker sends back for one request. */
  datatype GeneratedChunk = GeneratedChunk(chunkPosition: ChunkPos, isEmpty: bool, voxelData: seq<Voxel>)

  /** Number of voxels in a generated chunk, `CHUNK_VOLUME * BRICK_VOLUME`. */
  const GENERATED_VOXELS: nat := CHUNK_VOLUME * BRICK_VOLUME

  /** `GeneratedChunk::brick_data`: the 512 voxels of the brick with Morton code
      `brickMorton`. The first voxel is at `brickMorton << BRICK_MORTON_LENGTH`,
      that is `brickMorton * 512`; a slice past the end panics. */
  function BrickData(chunk: GeneratedChunk, brickMorton: nat): (s: seq<Voxel>)
    requires brickMorton * 512 + BRICK_VOLUME <= |chunk.voxelData|
    ensures |s| == BRICK_VOLUME
    ensures forall k :: 0 <= k < |s| ==> s[k] == chunk.voxelData[brickMorton * 512 + k]
  {
    chunk.voxelData[brickMorton * 512 .. brickMorton * 512 + BRICK_VOLUME]
  }

  lemma EncodeBelowChunk(x: bv32, y: bv32, z: bv32)
    requires x < 64 && y < 64 && z < 64
    ensures Encode(x, y, z) < 0x4_0000
  {
  }

  /** The array index `*Morton::encode(x, y, z) as usize` of a voxel of the chunk. */
  function VoxelIndex(x: bv32, y: bv32, z: bv32): (i: nat)
    requires x < 64 && y < 64 && z < 64
    ensures i < GENERATED_VOXELS
  {
    EncodeBelowChunk(x, y, z);
    (Encode(x, y, z) as bv18) as int
  }

  /** `Morton::encode` stays injective on chunk-local coordinates once narrowed to 18 bits. */
  lemma EncodeInjectiveInChunk(x: bv32, y: bv32, z: bv32, x': bv32, y': bv32, z': bv32)
    requires x < 64 && y < 64 && z < 64 && x' < 64 && y' < 64 && z' < 64
    requires Encode(x, y, z) as bv18 == Encode(x', y', z') as bv18
    ensures x == x' && y == y' && z == z'
  {
  }

  lemma ToIntInjective(a: bv18, b: bv18)
    requires a as int == b as int
    ensures a == b
  {
    assert (a as int) as bv18 == a;
    assert (b as int) as bv18 == b;
  }

  /** Distinct voxels of a chunk are written at distinct indices. */
  lemma VoxelIndexInjective(x: bv32, y: bv32, z: bv32, x': bv32, y': bv32, z': bv32)
    requires x < 64 && y < 64 && z < 64 && x' < 64 && y' < 64 && z' < 64
    requires VoxelIndex(x, y, z) == VoxelIndex(x', y', z')
    ensures x == x' && y == y' && z == z'
  {
    EncodeBelowChunk(x, y, z);
    EncodeBelowChunk(x', y', z');
    ToIntInjective(Encode(x, y, z) as bv18, Encode(x', y', z') as bv18);
    EncodeInjectiveInChunk(x, y, z, x', y', z');
  }

  lemma VoxelIndexDistinct(x: bv32, y: bv32, z: bv32, x': bv32, y': bv32, z': bv32)
    requires x < 64 && y < 64 && z < 64 && x' < 64 && y' < 64 && z' < 64
    requires (x, y, z) != (x', y', z')
    ensures VoxelIndex(x, y, z) != VoxelIndex(x', y', z')
  {
    if VoxelIndex(x, y, z) == VoxelIndex(x', y', z') {
      VoxelIndexInjective(x, y, z, x', y', z');
    }
  }

  /** The generation rule: a voxel is solid exactly when its world height
      `chunk_pos.y * CHUNK_VOXEL_LENGTH + y` is 0. */
  predicate IsSolid(pos: ChunkPos, y: bv32)
  {
    pos.y * 64 + y as int == 0
  }

  /** Inside a chunk only the bottom layer of the chunk at height 0 is solid. */
  lemma SolidIff(pos: ChunkPos, y: bv32)
    requires y < 64
    ensures IsSolid(pos, y) <==> pos.y == 0 && y == 0
  {
    assert y as int < 64;
  }

  /** `chunk_pos.vector * 64 + (x, y, z)` is computed in `i32`: every voxel's
      world coordinate must fit, or the arithmetic overflows. */
  predicate FitsI32(pos: ChunkPos)
  {
    && -0x8000_0000 <= pos.x * 64 && pos.x * 64 + 63 <= 0x7fff_ffff
    && -0x8000_0000 <= pos.y * 64 && pos.y * 64 + 63 <= 0x7fff_ffff
    && -0x8000_0000 <= pos.z * 64 && pos.z * 64 + 63 <= 0x7fff_ffff
  }

  /** Voxel `(x', y', z')` comes before voxel `(x, y, z)` in the order the
      worker's `x`, `y`, `z` loops visit them. */
  predicate Before(x': bv32, y': bv32, z': bv32, x: bv32, y: bv32, z: bv32)
  {
    x' < x || (x' == x && (y' < y || (y' == y && z' < z)))
  }

  /** The voxel array once the worker has visited every voxel before `(x, y, z)`:
      visited solid voxels hold the colour, everything else is still `None`. */
  ghost predicate FilledUpTo(data: seq<Voxel>, pos: ChunkPos, x: bv32, y: bv32, z: bv32)
    requires |data| == GENERATED_VOXELS
  {
    forall x': bv32, y': bv32, z': bv32 :: x' < 64 && y' < 64 && z' < 64 ==>
      data[VoxelIndex(x', y', z')] == Expected(pos, x', y', z', x, y, z)
  }

  /** The value `FilledUpTo` expects at voxel `(x', y', z')` before `(x, y, z)` is visited. */
  function Expected(pos: ChunkPos, x': bv32, y': bv32, z': bv32, x: bv32, y: bv32, z: bv32): Voxel
  {
    if Before(x', y', z', x, y, z) && IsSolid(pos, y') then Some(GENERATED_COLOUR) else None
  }

  /** The visited voxel gets the colour exactly when it is solid. */
  lemma VisitSame(before: seq<Voxel>, after: seq<Voxel>, pos: ChunkPos, x: bv32, y: bv32, z: bv32)
    requires x < 64 && y < 64 && z < 64
    requires |before| == GENERATED_VOXELS
    requires after == if IsSolid(pos, y) then before[VoxelIndex(x, y, z) := Some(GENERATED_COLOUR)] else before
    requires before[VoxelIndex(x, y, z)] == Expected(pos, x, y, z, x, y, z)
    ensures after[VoxelIndex(x, y, z)] == Expected(pos, x, y, z, x, y, z + 1)
  {
    assert Before(x, y, z, x, y, z + 1) && !Before(x, y, z, x, y, z);
  }

  /** Every other voxel keeps its value, and whether it comes before the cursor. */
  lemma VisitOther(before: seq<Voxel>, after: seq<Voxel>, pos: ChunkPos, x: bv32, y: bv32, z: bv32,
                   x': bv32, y': bv32, z': bv32)
    requires x < 64 && y < 64 && z < 64 && x' < 64 && y' < 64 && z' < 64
    requires (x', y', z') != (x, y, z)
    requires |before| == GENERATED_VOXELS
    requires after == if IsSolid(pos, y) then before[VoxelIndex(x, y, z) := Some(GENERATED_COLOUR)] else before
    requires before[VoxelIndex(x', y', z')] == Expected(pos, x', y', z', x, y, z)
    ensures after[VoxelIndex(x', y', z')] == Expected(pos, x', y', z', x, y, z + 1)
  {
    VoxelIndexDistinct(x', y', z', x, y, z);
    assert Before(x', y', z', x, y, z + 1) == Before(x', y', z', x, y, z);
  }

  /** Visiting voxel `(x, y, z)` extends `FilledUpTo` by one voxel. */
  lemma VisitVoxel(before: seq<Voxel>, after: seq<Voxel>, pos: ChunkPos, x: bv32, y: bv32, z: bv32)
    requires x < 64 && y < 64 && z < 64
    requires |before| == GENERATED_VOXELS && FilledUpTo(before, pos, x, y, z)
    requires after == if IsSolid(pos, y) then before[VoxelIndex(x, y, z) := Some(GENERATED_COLOUR)] else before
    ensures |after| == GENERATED_VOXELS && FilledUpTo(after, pos, x, y, z + 1)
  {
    forall x': bv32, y': bv32, z': bv32 | x' < 64 && y' < 64 && z' < 64
      ensures after[VoxelIndex(x', y', z')] == Expected(pos, x', y', z', x, y, z + 1)
    {
      if (x', y', z') == (x, y, z) {
        VisitSame(before, after, pos, x, y, z);
      } else {
        VisitOther(before, after, pos, x, y, z, x', y', z');
      }
    }
  }

  lemma NextColumn(data: seq<Voxel>, pos: ChunkPos, x: bv32, y: bv32)
    requires x < 64 && y < 64
    requires |data| == GENERATED_VOXELS && FilledUpTo(data, pos, x, y, 64)
    ensures FilledUpTo(data, pos, x, y + 1, 0)
  {
    assert forall x': bv32, y': bv32, z': bv32 :: z' < 64 ==>
      (Before(x', y', z', x, y, 64) <==> Before(x', y', z', x, y + 1, 0));
  }

  lemma NextSlab(data: seq<Voxel>, pos: ChunkPos, x: bv32)
    requires x < 64
    requires |data| == GENERATED_VOXELS && FilledUpTo(data, pos, x, 64, 0)
    ensures FilledUpTo(data, pos, x + 1, 0, 0)
  {
    assert forall x': bv32, y': bv32, z': bv32 :: y' < 64 ==>
      (Before(x', y', z', x, 64, 0) <==> Before(x', y', z', x + 1, 0, 0));
  }

  /** The body of the innermost loop: the write at voxel `(x, y, z)` when it is solid. */
  method FillVoxel(data: array<Voxel>, pos: ChunkPos, x: bv32, y: bv32, z: bv32)
    requires x < 64 && y < 64 && z < 64
    requires data.Length == GENERATED_VOXELS && FilledUpTo(data[..], pos, x, y, z)
    requires forall i :: 0 <= i < data.Length && data[i].Some? ==> pos.y == 0
    modifies data
    ensures FilledUpTo(data[..], pos, x, y, z + 1)
    ensures forall i :: 0 <= i < data.Length && data[i].Some? ==> pos.y == 0
  {
    ghost var before := data[..];
    if IsSolid(pos, y) {
      SolidIff(pos, y);
      data[VoxelIndex(x, y, z)] := Some(GENERATED_COLOUR);
    }
    VisitVoxel(before, data[..], pos, x, y, z);
  }

  /** The innermost `z` loop of `thread_fn`, for the column at `(x, y)`. */
  method FillColumn(data: array<Voxel>, pos: ChunkPos, x: bv32, y: bv32, isEmpty: bool) returns (isEmpty': bool)
    requires x < 64 && y < 64
    requires data.Length == GENERATED_VOXELS && FilledUpTo(data[..], pos, x, y, 0)
    requires forall i :: 0 <= i < data.Length && data[i].Some? ==> pos.y == 0
    modifies data
    ensures FilledUpTo(data[..], pos, x, y + 1, 0)
    ensures forall i :: 0 <= i < data.Length && data[i].Some? ==> pos.y == 0
    ensures isEmpty' == (isEmpty && !IsSolid(pos, y))
  {
    isEmpty' := isEmpty;
    SolidIff(pos, y);
    var z: bv32 := 0;
    while z < 64
      invariant z <= 64
      invariant FilledUpTo(data[..], pos, x, y, z)
      invariant forall i :: 0 <= i < data.Length && data[i].Some? ==> pos.y == 0
      invariant isEmpty' == (isEmpty && !(IsSolid(pos, y) && z > 0))
    {
      FillVoxel(data, pos, x, y, z);
      if IsSolid(pos, y) {
        isEmpty' := false;
      }
      z := z + 1;
    }
    NextColumn(data[..], pos, x, y);
  }

  /** The middle `y` loop of `thread_fn`, for the slab at `x`. */
  method FillSlab(data: array<Voxel>, pos: ChunkPos, x: bv32, isEmpty: bool) returns (isEmpty': bool)
    requires x < 64
    requires data.Length == GENERATED_VOXELS && FilledUpTo(data[..], pos, x, 0, 0)
    requires forall i :: 0 <= i < data.Length && data[i].Some? ==> pos.y == 0
    modifies data
    ensures FilledUpTo(data[..], pos, x + 1, 0, 0)
    ensures forall i :: 0 <= i < data.Length && data[i].Some? ==> pos.y == 0
    ensures isEmpty' == (isEmpty && pos.y != 0)
  {
    isEmpty' := isEmpty;
    var y: bv32 := 0;
    while y < 64
      invariant y <= 64
      invariant FilledUpTo(data[..], pos, x, y, 0)
      invariant forall i :: 0 <= i < data.Length && data[i].Some? ==> pos.y == 0
      invariant isEmpty' == (isEmpty && !(pos.y == 0 && y > 0))
    {
      SolidIff(pos, y);
      isEmpty' := FillColumn(data, pos, x, y, isEmpty');
      y := y + 1;
    }
    NextSlab(data[..], pos, x);
  }

  /** One iteration of `thread_fn`: builds the chunk answering request `pos`. */
  method Generate(pos: ChunkPos) returns (chunk: GeneratedChunk)
    requires FitsI32(pos)
    ensures chunk.chunkPosition == pos
    ensures |chunk.voxelData| == GENERATED_VOXELS
    ensures forall x: bv32, y: bv32, z: bv32 :: x < 64 && y < 64 && z < 64 ==>
      chunk.voxelData[VoxelIndex(x, y, z)] == if IsSolid(pos, y) then Some(GENERATED_COLOUR) else None
    ensures forall i :: 0 <= i < |chunk.voxelData| && chunk.voxelData[i].Some? ==> pos.y == 0
    ensures chunk.isEmpty <==> pos.y != 0
  {
    var data := new Voxel[GENERATED_VOXELS](_ => None);
    var isEmpty := true;
    var x: bv32 := 0;
    while x < 64
      invariant x <= 64
      invariant FilledUpTo(data[..], pos, x, 0, 0)
      invariant forall i :: 0 <= i < data.Length && data[i].Some? ==> pos.y == 0
      invariant isEmpty <==> !(pos.y == 0 && x > 0)
    {
      isEmpty := FillSlab(data, pos, x, isEmpty);
      x := x + 1;
    }
    chunk := GeneratedChunk(pos, isEmpty, data[..]);
  }

  /** The positions of a sequence of generated chunks, in order. */
  function Positions(chunks: seq<GeneratedChunk>): (ps: seq<ChunkPos>)
    ensures |ps| == |chunks|
    ensures forall i :: 0 <= i < |chunks| ==> ps[i] == chunks[i].chunkPosition
  {
    if chunks == [] then [] else [chunks[0].chunkPosition] + Positions(chunks[1..])
  }

  /** The set of elements of a sequence. */
  function Elements(s: seq<ChunkPos>): (e: set<ChunkPos>)
    ensures forall p :: p in e <==> p in s
  {
    set p | p in s
  }

  /** `generating` holds exactly the positions queued in `inFlight`, each of them once. */
  ghost predicate TracksOnce(inFlight: seq<ChunkPos>, generating: set<ChunkPos>)
  {
    forall p :: multiset(inFlight)[p] == if p in generating then 1 else 0
  }

  /** Dropping the oldest in-flight position keeps the set and the queue in step. */
  lemma DropOldest(inFlight: seq<ChunkPos>, generating: set<ChunkPos>)
    requires inFlight != [] && TracksOnce(inFlight, generating)
    ensures TracksOnce(inFlight[1..], generating - {inFlight[0]})
  {
    assert inFlight == [inFlight[0]] + inFlight[1..];
    assert multiset(inFlight[1..]) == multiset(inFlight) - multiset{inFlight[0]};
  }

  /** Dropping the `k` oldest in-flight positions, and removing them from the
      set, keeps the two in step. */
  lemma {:induction false} DrainTracks(inFlight: seq<ChunkPos>, generating: set<ChunkPos>, k: nat)
    requires k <= |inFlight| && TracksOnce(inFlight, generating)
    ensures TracksOnce(inFlight[k..], generating - Elements(inFlight[..k]))
    decreases k
  {
    if k == 0 {
      assert inFlight[0..] == inFlight;
      assert Elements(inFlight[..0]) == {};
    } else {
      DrainTracks(inFlight, generating, k - 1);
      DropOldest(inFlight[k - 1..], generating - Elements(inFlight[..k - 1]));
      assert inFlight[k - 1..][1..] == inFlight[k..];
      assert inFlight[..k] == inFlight[..k - 1] + [inFlight[k - 1]];
      assert Elements(inFlight[..k]) == Elements(inFlight[..k - 1]) + {inFlight[k - 1]};
    }
  }

  /** Collecting one more chunk adds exactly its position to the collected ones. */
  lemma CollectOne(chunks: seq<GeneratedChunk>, chunk: GeneratedChunk)
    ensures Positions(chunks + [chunk]) == Positions(chunks) + [chunk.chunkPosition]
    ensures Elements(Positions(chunks + [chunk])) == Elements(Positions(chunks)) + {chunk.chunkPosition}
  {
    assert Positions(chunks + [chunk]) == Positions(chunks) + [chunk.chunkPosition];
  }

  /** Once every waiting chunk is collected, only the unanswered requests remain in flight. */
  lemma CollectAll(chunks: seq<GeneratedChunk>, requests: seq<ChunkPos>, generating: set<ChunkPos>)
    requires TracksOnce(Positions(chunks) + requests, generating)
    ensures TracksOnce(Positions([]) + requests, generating - Elements(Positions(chunks)))
  {
    var inFlight := Positions(chunks) + requests;
    assert inFlight[..|chunks|] == Positions(chunks) && inFlight[|chunks|..] == requests;
    DrainTracks(inFlight, generating, |chunks|);
    assert Positions([]) + requests == requests;
  }

  /** `ChunkGenerator`, with its two channels as queues: `requests` holds the
      positions sent to the worker and not yet served, `results` the chunks the
      worker has sent back and not yet been collected. The worker serves requests
      one at a time, in order. */
  class ChunkGenerator {
    var requests: seq<ChunkPos>
    var results: seq<GeneratedChunk>
    var currentlyGenerating: set<ChunkPos>

    /** The positions requested and not yet collected, oldest first: the
        answered ones waiting in `results`, then the unanswered ones. */
    ghost function InFlight(): seq<ChunkPos>
      reads this
    {
      Positions(results) + requests
    }

    /** The in-flight set holds exactly the uncollected positions, and no
        position is in flight twice. */
    ghost predicate Valid()
      reads this
    {
      TracksOnce(InFlight(), currentlyGenerating)
    }

    constructor ()
      ensures Valid()
      ensures requests == [] && results == [] && currentlyGenerating == {}
    {
      requests := [];
      results := [];
      currentlyGenerating := {};
    }

    /** `generate_chunk`: requests `pos` unless it is already being generated. */
    method GenerateChunk(pos: ChunkPos)
      requires Valid()
      modifies this
      ensures Valid()
      ensures results == old(results)
      ensures old(pos in currentlyGenerating) ==>
        requests == old(requests) && currentlyGenerating == old(currentlyGenerating)
      ensures old(pos !in currentlyGenerating) ==>
        requests == old(requests) + [pos] && currentlyGenerating == old(currentlyGenerating) + {pos}
    {
      if pos in currentlyGenerating {
        return;
      }
      requests := requests + [pos];
      currentlyGenerating := currentlyGenerating + {pos};
      assert InFlight() == old(InFlight()) + [pos];
    }

    /** One pass of the worker loop: answers the oldest request and sends the
        generated chunk back, so results come back one per request, in request
        order. */
    method ServeRequest() returns (chunk: GeneratedChunk)
      requires Valid() && requests != []
      requires FitsI32(requests[0])
      modifies this
      ensures Valid()
      ensures chunk.chunkPosition == old(requests[0])
      ensures requests == old(requests[1..]) && results == old(results) + [chunk]
      ensures currentlyGenerating == old(currentlyGenerating)
    {
      var pos := requests[0];
      chunk := Generate(pos);
      assert Positions(results + [chunk]) == Positions(results) + [pos];
      assert requests == [pos] + requests[1..];
      results := results + [chunk];
      requests := requests[1..];
      assert InFlight() == old(InFlight());
    }

    /** `collect_generated_chunks`: drains every chunk the worker has sent back,
        in arrival order, and drops each one's position from the in-flight set. */
    method CollectGeneratedChunks() returns (chunks: seq<GeneratedChunk>)
      requires Valid()
      modifies this
      ensures Valid()
      ensures chunks == old(results) && results == [] && requests == old(requests)
      ensures currentlyGenerating == old(currentlyGenerating) - Elements(Positions(chunks))
    {
      ghost var inFlight0, generating0 := InFlight(), currentlyGenerating;
      chunks := [];
      while results != []
        invariant old(results) == chunks + results && requests == old(requests)
        invariant currentlyGenerating == generating0 - Elements(Positions(chunks))
        decreases |results|
      {
        var chunk := results[0];
        assert old(results) == (chunks + [chunk]) + results[1..];
        CollectOne(chunks, chunk);
        results := results[1..];
        currentlyGenerating := currentlyGenerating - {chunk.chunkPosition};
        chunks := chunks + [chunk];
      }
      assert chunks == old(results) && results == [];
      assert inFlight0 == Positions(chunks) + requests;
      CollectAll(chunks, requests, generating0);
    }
  }
}
