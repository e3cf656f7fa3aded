// The voxel render pass's bookkeeping: a ring of brick-request staging
// buffers (written in one frame, read back in the next), the request
// buffer's layout and reset, and the size of the brick-indices buffer.

module VoxelPass {

  type byte = bv8

  const MAX_FRAMES_IN_FLIGHT: nat := 2

  /** Bytes of one `BrickIndex` (a single u32) and of one request entry. */
  const BRICK_INDEX_BYTES: nat := 4
  const REQUEST_BYTES: nat := 4
  const COUNT_BYTES: nat := 4

  const U64_LIMIT: nat := 0x1_0000_0000_0000_0000

  /** The staging slot the request list is copied into during CPU frame `f`. */
  function WriteSlot(f: nat): (slot: nat)
    requires f + 1 < U64_LIMIT
    ensures slot < MAX_FRAMES_IN_FLIGHT
  {
    (f + 1) % MAX_FRAMES_IN_FLIGHT
  }

  /** `brick_request_list_stage_buffer(f)`: the slot read back during CPU frame `f`. */
  function ReadSlot(f: nat): (slot: nat)
    ensures slot < MAX_FRAMES_IN_FLIGHT
  {
    f % MAX_FRAMES_IN_FLIGHT
  }

  /** The slot read in frame f + 1 is the one written in frame f. */
  lemma ReadNextIsWritten(f: nat)
    requires f + 1 < U64_LIMIT
    ensures ReadSlot(f + 1) == WriteSlot(f)
  {
  }

  /** With two frames in flight, a frame never reads the slot it is writing. */
  lemma WriteAvoidsCurrentRead(f: nat)
    requires f + 1 < U64_LIMIT
    ensures WriteSlot(f) != ReadSlot(f)
  {
  }

  /** `BRICK_REQUEST_BUFFER_SIZE_BYTES`: a u32 count followed by one u32 per request. */
  function RequestBufferSize(maxBrickRequest: nat): nat {
    maxBrickRequest * REQUEST_BYTES + COUNT_BYTES
  }

  /** Byte offset of request `k` in the request buffer. */
  function RequestOffset(k: nat): nat {
    COUNT_BYTES + REQUEST_BYTES * k
  }

  /** The count word and every request slot below the maximum fit the buffer and do not overlap. */
  lemma RequestLayoutFits(maxBrickRequest: nat, k: nat)
    requires k < maxBrickRequest
    ensures COUNT_BYTES <= RequestOffset(k)
    ensures RequestOffset(k) + REQUEST_BYTES <= RequestBufferSize(maxBrickRequest)
    ensures k > 0 ==> RequestOffset(k - 1) + REQUEST_BYTES == RequestOffset(k)
  {
  }

  datatype StagingBuffer = StagingBuffer(slot: nat, size: nat)

  /** The staging buffers created by `new`: one per frame in flight, slot i at index i. */
  function StagingBuffers(maxBrickRequest: nat): (buffers: seq<StagingBuffer>)
    ensures |buffers| == MAX_FRAMES_IN_FLIGHT
    ensures forall i :: 0 <= i < |buffers| ==>
              buffers[i].slot == i && buffers[i].size == RequestBufferSize(maxBrickRequest)
  {
    seq(MAX_FRAMES_IN_FLIGHT, (i: nat) => StagingBuffer(i, RequestBufferSize(maxBrickRequest)))
  }

  /** Every slot a frame writes or reads names one of the created buffers. */
  lemma SlotsNameBuffers(maxBrickRequest: nat, f: nat)
    requires f + 1 < U64_LIMIT
    ensures StagingBuffers(maxBrickRequest)[WriteSlot(f)].slot == WriteSlot(f)
    ensures StagingBuffers(maxBrickRequest)[ReadSlot(f)].slot == ReadSlot(f)
  {
  }

  /** The little-endian u32 at the start of a buffer: the request count. */
  function Count(buffer: seq<byte>): nat
    requires |buffer| >= COUNT_BYTES
  {
    buffer[0] as nat + 0x100 * buffer[1] as nat + 0x1_0000 * buffer[2] as nat + 0x100_0000 * buffer[3] as nat
  }

  /** The closure of the per-frame reset: `ptr.write(0)` of a u32 at the start
      of the mapped staging buffer. */
  function ResetCount(buffer: seq<byte>): (r: seq<byte>)
    requires |buffer| >= COUNT_BYTES
    ensures |r| == |buffer| && r[COUNT_BYTES..] == buffer[COUNT_BYTES..]
  {
    [0, 0, 0, 0] + buffer[COUNT_BYTES..]
  }

  /** After the closure's write the staging count reads 0 and the staging bytes past it are left as they were. */
  lemma ResetClearsCount(buffer: seq<byte>)
    requires |buffer| >= COUNT_BYTES
    ensures Count(ResetCount(buffer)) == 0
    ensures forall i :: COUNT_BYTES <= i < |buffer| ==> ResetCount(buffer)[i] == buffer[i]
  {
  }

  /**
   * The whole reset as `stage_buffer_copy` performs it on the request list
   * `dst`: a new staging buffer of the same size, whose bytes are whatever the
   * allocation holds (`staging`), receives the closure's write and is then
   * copied over every byte of `dst`.
   */
  function StagedReset(dst: seq<byte>, staging: seq<byte>): (r: seq<byte>)
    requires |dst| >= COUNT_BYTES && |staging| == |dst|
    ensures |r| == |dst| && Count(r) == 0
    ensures r[COUNT_BYTES..] == staging[COUNT_BYTES..]
  {
    ResetClearsCount(staging);
    ResetCount(staging)
  }

  /** The reset clears the count whatever the request list held, and leaves no
      request entry of the old list behind unless the staging bytes happen to match it. */
  lemma StagedResetForgetsEntries(dst: seq<byte>, staging: seq<byte>, i: nat)
    requires |dst| >= COUNT_BYTES && |staging| == |dst| && COUNT_BYTES <= i < |dst|
    ensures Count(StagedReset(dst, staging)) == 0
    ensures StagedReset(dst, staging)[i] == staging[i]
    ensures StagedReset(dst, staging)[i] == dst[i] <==> staging[i] == dst[i]
  {
    assert StagedReset(dst, staging)[COUNT_BYTES..][i - COUNT_BYTES] == staging[COUNT_BYTES..][i - COUNT_BYTES];
  }

  /** `create_brick_indices_grid_buffer`: the bytes for `entries` brick indices. */
  function BrickIndicesBufferSize(entries: nat): (size: nat)
    ensures size % BRICK_INDEX_BYTES == 0 && size / BRICK_INDEX_BYTES == entries
  {
    entries * BRICK_INDEX_BYTES
  }
}
