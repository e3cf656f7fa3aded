// The dynamic voxel world: a 2-bit status grid per chunk, a packed brick index
// per brick, an arena of brick occupancy masks with a free list, and the queue
// of brick changes waiting to be uploaded.

module DynamicWorld {
  import opened Wrappers
  import opened VoxConstants
  import ChunkGenerator
  import VoxelPass

  /** Values that fit in an unsigned 32-bit word. */
  type u32 = x: nat | x < 0x1_0000_0000

  // ---------------------------------------------------------------------------
  // SpatialStatus

  /** `SpatialStatus`: the load state of a cell, stored as a 2-bit code. */
  datatype SpatialStatus = Unloaded | Loading | Loaded | LoadedEmpty
  {
    /** `is_loaded`: data has arrived for the cell, whether or not it holds voxels.
        The loaded statuses are exactly the two whose code has the high bit set. */
    predicate IsLoaded()
      ensures IsLoaded() <==> Code(this) & 2 != 0
    {
      this == Loaded || this == LoadedEmpty
    }
  }

  /** The discriminant `status as u16`. */
  function Code(s: SpatialStatus): (c: bv16)
    ensures c < 4
  {
    match s
    case Unloaded => 0
    case Loading => 1
    case Loaded => 2
    case LoadedEmpty => 3
  }

  /** `From<u16>`: codes above 3 reach `unreachable!()`. */
  function FromCode(v: bv16): (s: SpatialStatus)
    requires v < 4
    ensures Code(s) == v
  {
    if v == 0 then Unloaded else if v == 1 then Loading else if v == 2 then Loaded else LoadedEmpty
  }

  lemma FromCodeCode(s: SpatialStatus)
    ensures FromCode(Code(s)) == s
  {
    match s
    case Unloaded =>
    case Loading =>
    case Loaded =>
    case LoadedEmpty =>
  }

  /** `From<u32>`: truncates to `u16`, then decodes. */
  function FromU32(v: u32): (s: SpatialStatus)
    requires v % 0x1_0000 < 4
    ensures Code(s) as int == v % 0x1_0000
  {
    FromCode((v % 0x1_0000) as bv16)
  }

  // ---------------------------------------------------------------------------
  // GridMask: 2 status bits per cell, 8 cells per 16-bit word. A cell is
  // addressed by its `u64` Morton code.

  /** The word `(m >> 3) as usize` holding cell `m`. */
  function WordIndex(m: bv64): nat
  {
    (m >> 3) as int
  }

  /** The bit offset `(m & 0b111) * 2` of cell `m` inside its word. */
  function BitIndex(m: bv64): (bit: bv16)
    ensures bit < 16 && bit & 1 == 0
  {
    ((m & 7) as bv16) * 2
  }

  lemma ToIntInjective(a: bv64, b: bv64)
    requires a != b
    ensures a as int != b as int
  {
    assert (a as int) as bv64 == a;
    assert (b as int) as bv64 == b;
  }

  /** Cells in different words have different word indices. */
  lemma WordIndexDistinct(m: bv64, n: bv64)
    requires m >> 3 != n >> 3
    ensures WordIndex(m) != WordIndex(n)
  {
    ToIntInjective(m >> 3, n >> 3);
  }

  /** Two cells of one word sit at different offsets. */
  lemma BitIndexDistinct(m: bv64, n: bv64)
    requires m >> 3 == n >> 3 && m != n
    ensures BitIndex(m) != BitIndex(n)
  {
  }

  /** The 2-bit field at `bit` of word `w`. */
  function Field(w: bv16, bit: bv16): (f: bv16)
    requires bit < 16
    ensures f < 4
  {
    (w >> bit) & 3
  }

  /** `w` with its field at `bit` cleared (`&= !(0b11 << bit)`) and then `c` OR-ed in. */
  function Stored(w: bv16, bit: bv16, c: bv16): bv16
    requires bit < 16
  {
    (w & !(3 << bit)) | (c << bit)
  }

  /** Storing `c` leaves `c` in that field. */
  lemma FieldOfStore(w: bv16, bit: bv16, c: bv16)
    requires bit < 16 && bit & 1 == 0 && c < 4
    ensures Field(Stored(w, bit, c), bit) == c
  {
  }

  lemma FieldMasksDisjoint(bit: bv16, bit': bv16)
    requires bit < 16 && bit & 1 == 0 && bit' < 16 && bit' & 1 == 0 && bit != bit'
    ensures ((3 as bv16) << bit) & ((3 as bv16) << bit') == 0
  {
  }

  lemma StoredWithinMask(bit: bv16, c: bv16)
    requires bit < 16 && c < 4
    ensures (c << bit) & !((3 as bv16) << bit) == 0
  {
  }

  lemma FieldThroughMask(x: bv16, bit: bv16)
    requires bit < 16
    ensures Field(x, bit) == Field(x & ((3 as bv16) << bit), bit)
  {
  }

  lemma MaskedUpdate(w: bv16, mask: bv16, mask': bv16, stored: bv16)
    requires mask & mask' == 0 && stored & !mask == 0
    ensures ((w & !mask) | stored) & mask' == w & mask'
  {
  }

  /** Storing into one field leaves every other field of the word as it was. */
  lemma FieldOfStoreOther(w: bv16, bit: bv16, bit': bv16, c: bv16)
    requires bit < 16 && bit & 1 == 0 && c < 4
    requires bit' < 16 && bit' & 1 == 0 && bit != bit'
    ensures Field((w & !(3 << bit)) | (c << bit), bit') == Field(w, bit')
  {
    FieldMasksDisjoint(bit, bit');
    StoredWithinMask(bit, c);
    MaskedUpdate(w, 3 << bit, 3 << bit', c << bit);
    FieldThroughMask((w & !(3 << bit)) | (c << bit), bit');
    FieldThroughMask(w, bit');
  }

  /** The status of cell `m` in the words `ws`. */
  function CellOf(ws: seq<bv16>, m: bv64): SpatialStatus
    requires WordIndex(m) < |ws|
  {
    FromCode(Field(ws[WordIndex(m)], BitIndex(m)))
  }

  /** The words after `set_status(m, s)`. */
  function StoreCell(ws: seq<bv16>, m: bv64, s: SpatialStatus): (ws': seq<bv16>)
    requires WordIndex(m) < |ws|
    ensures |ws'| == |ws|
    ensures forall i :: 0 <= i < |ws| && i != WordIndex(m) ==> ws'[i] == ws[i]
  {
    ws[WordIndex(m) := Stored(ws[WordIndex(m)], BitIndex(m), Code(s))]
  }

  lemma StoreCellSame(ws: seq<bv16>, m: bv64, s: SpatialStatus)
    requires WordIndex(m) < |ws|
    ensures CellOf(StoreCell(ws, m, s), m) == s
  {
    FieldOfStore(ws[WordIndex(m)], BitIndex(m), Code(s));
    FromCodeCode(s);
  }

  lemma StoreCellSameWord(ws: seq<bv16>, m: bv64, n: bv64, s: SpatialStatus)
    requires WordIndex(m) < |ws| && WordIndex(n) < |ws| && n != m && n >> 3 == m >> 3
    ensures CellOf(StoreCell(ws, m, s), n) == CellOf(ws, n)
  {
    var i := WordIndex(m);
    assert WordIndex(n) == i;
    BitIndexDistinct(m, n);
    FieldOfStoreOther(ws[i], BitIndex(m), BitIndex(n), Code(s));
    assert Stored(ws[i], BitIndex(m), Code(s)) == (ws[i] & !(3 << BitIndex(m))) | (Code(s) << BitIndex(m));
  }

  lemma StoreCellOtherWord(ws: seq<bv16>, m: bv64, n: bv64, s: SpatialStatus)
    requires WordIndex(m) < |ws| && WordIndex(n) < |ws| && n >> 3 != m >> 3
    ensures CellOf(StoreCell(ws, m, s), n) == CellOf(ws, n)
  {
    WordIndexDistinct(m, n);
  }

  /** Storing cell `m` sets that cell and no other. */
  lemma StoreCellEffect(ws: seq<bv16>, m: bv64, s: SpatialStatus)
    requires WordIndex(m) < |ws|
    ensures CellOf(StoreCell(ws, m, s), m) == s
    ensures forall n: bv64 :: WordIndex(n) < |ws| && n != m ==> CellOf(StoreCell(ws, m, s), n) == CellOf(ws, n)
  {
    StoreCellSame(ws, m, s);
    forall n: bv64 | WordIndex(n) < |ws| && n != m
      ensures CellOf(StoreCell(ws, m, s), n) == CellOf(ws, n)
    {
      if n >> 3 == m >> 3 {
        StoreCellSameWord(ws, m, n, s);
      } else {
        StoreCellOtherWord(ws, m, n, s);
      }
    }
  }

  /** `GridMask`: a fixed buffer of 16-bit words. */
  class GridMask {
    const words: array<bv16>

    /** `GridMask::new(volume)`: `volume / 8` zero words, so every cell is Unloaded;
        for a volume that is a multiple of 8 the buffer is a quarter byte per cell. */
    constructor (volume: nat)
      ensures words.Length == volume / 8 && fresh(words)
      ensures forall m: bv64 :: WordIndex(m) < words.Length ==> Status(m) == Unloaded
      ensures volume % 8 == 0 ==> 4 * BufferSize() == volume
    {
      words := new bv16[volume / 8](_ => 0);
    }

    /** `status`: reads cell `m`; a cell past the buffer panics. */
    function Status(m: bv64): SpatialStatus
      reads words
      requires WordIndex(m) < words.Length
    {
      CellOf(words[..], m)
    }

    /** `set_status`: clears the cell's two bits, then ORs in the new code. */
    method SetStatus(m: bv64, status: SpatialStatus)
      requires WordIndex(m) < words.Length
      modifies words
      ensures words[..] == StoreCell(old(words[..]), m, status)
      ensures Status(m) == status
      ensures forall n: bv64 :: WordIndex(n) < words.Length && n != m ==> Status(n) == old(Status(n))
    {
      var index := WordIndex(m);
      var bitIndex := BitIndex(m);
      words[index] := Stored(words[index], bitIndex, Code(status));
      assert words[..] == old(words[..])[index := Stored(old(words[index]), bitIndex, Code(status))];
      StoreCellEffect(old(words[..]), m, status);
    }

    /** `buffer_size`: the bytes of the uploaded `u16` words. Every cell's word
        lies inside the buffer, and the buffer holds whole words and no more. */
    function BufferSize(): (size: nat)
      reads this
      ensures forall m: bv64 :: WordIndex(m) < words.Length ==> 2 * WordIndex(m) + 2 <= size
      ensures size % 2 == 0 && size / 2 == words.Length
    {
      words.Length * 2
    }
  }

  // ---------------------------------------------------------------------------
  // BrickIndex: status in bits 30..31, arena slot in bits 0..29

  /** Arena slots are kept modulo `2^30`, the span of the 30 low bits. */
  const SLOT_SPAN: nat := 0x4000_0000

  datatype BrickIndex = BrickIndex(bits: u32)
  {
    /** `status`: the top two bits, through `From<u32>`. */
    function Status(): SpatialStatus
    {
      FromU32(bits / SLOT_SPAN)
    }

    /** `index`: the 30 low bits (`& 0x3FFF_FFFF`). */
    function Index(): nat
    {
      bits % SLOT_SPAN
    }
  }

  /** `BrickIndex::new_unloaded`. */
  function NewUnloaded(): (b: BrickIndex)
    ensures b.Status() == Unloaded && b.Index() == 0
  {
    BrickIndex(0)
  }

  /** `BrickIndex::new_loaded`: OR of the Loaded code shifted to bit 30 and the
      slot masked to 30 bits; the fields are disjoint, so the OR is a sum. */
  function NewLoaded(index: u32): (b: BrickIndex)
    ensures b.Status() == Loaded
    ensures b.Index() == index % SLOT_SPAN
    ensures index < SLOT_SPAN ==> b.Index() == index
  {
    BrickIndex(Code(Loaded) as int * SLOT_SPAN + index % SLOT_SPAN)
  }

  /** `BrickIndex::new_loaded_empty`. */
  function NewLoadedEmpty(): (b: BrickIndex)
    ensures b.Status() == LoadedEmpty && b.Index() == 0
  {
    BrickIndex(Code(LoadedEmpty) as int * SLOT_SPAN)
  }

  /** `BrickIndexGrid`: one packed index per brick. */
  class BrickIndexGrid {
    const entries: array<BrickIndex>

    /** `BrickIndexGrid::new(volume)`: `volume` entries, all Unloaded. */
    constructor (volume: nat)
      ensures entries.Length == volume && fresh(entries)
      ensures forall i :: 0 <= i < volume ==> entries[i] == NewUnloaded()
    {
      entries := new BrickIndex[volume](_ => NewUnloaded());
    }

    /** `buffer_size`: the size the voxel pass allocates for the grid's
        buffer, in which every entry's 4-byte word lies. */
    function BufferSize(): (size: nat)
      reads this
      ensures size == VoxelPass.BrickIndicesBufferSize(entries.Length)
      ensures forall i :: 0 <= i < entries.Length ==> 4 * i + 4 <= size
    {
      entries.Length * 4
    }
  }

  // ---------------------------------------------------------------------------
  // BrickData

  /** Bit 31 of `material_index` tags a free arena slot; the low 31 bits then
      link to the next free slot. */
  const FREE_TAG: nat := 0x8000_0000

  /** `BrickData`: a material word and a 64-byte occupancy mask, one bit per voxel. */
  datatype BrickData = BrickData(materialIndex: u32, voxelMask: seq<bv8>)
  {
    /** `next_free`: the low 31 bits (`& 0x7FFF_FFFF`). */
    function NextFree(): nat
    {
      materialIndex % FREE_TAG
    }

    predicate IsFreeTagged()
    {
      materialIndex >= FREE_TAG
    }

    /** `set_free`: retags the slot as free, linking to `nextFree`; the mask is kept. */
    function SetFree(nextFree: u32): (d: BrickData)
      ensures d.IsFreeTagged() && d.NextFree() == nextFree % FREE_TAG
      ensures d.voxelMask == voxelMask
    {
      this.(materialIndex := FREE_TAG + nextFree % FREE_TAG)
    }
  }

  /** `BrickData::new_free`: `next_free | 0x8000_0000` and an all-zero mask. */
  function NewFree(nextFree: u32): (d: BrickData)
    ensures d.IsFreeTagged() && d.NextFree() == nextFree % FREE_TAG
    ensures nextFree < FREE_TAG ==> d.NextFree() == nextFree
    ensures |d.voxelMask| == BRICK_AREA && forall j :: 0 <= j < |d.voxelMask| ==> d.voxelMask[j] == 0
  {
    BrickData(FREE_TAG + nextFree % FREE_TAG, seq(BRICK_AREA, _ => 0))
  }

  /** `1 << k` as a byte. */
  function Bit(k: nat): (b: bv8)
    requires k < 8
  {
    (1 as bv8) << (k as bv8)
  }

  lemma BitsDisjoint(k: nat, k': nat)
    requires k < 8 && k' < 8 && k != k'
    ensures Bit(k) & Bit(k') == 0
  {
  }

  lemma BitNonZero(k: nat)
    requires k < 8
    ensures Bit(k) != 0
  {
  }

  lemma LowBits()
    ensures Bit(0) == 1 && Bit(1) == 2
  {
  }

  /** The eight voxels whose bits share mask byte `j`. */
  function Group(voxels: seq<ChunkGenerator.Voxel>, j: nat): (g: seq<ChunkGenerator.Voxel>)
    requires 8 * j + 8 <= |voxels|
    ensures |g| == 8 && forall k :: 0 <= k < 8 ==> g[k] == voxels[8 * j + k]
  {
    voxels[8 * j .. 8 * j + 8]
  }

  /** Mask byte of `from_voxel_array` as written: each occupied voxel among the
      first `n` of the group overwrites the byte with its own bit. */
  function LastBit(g: seq<ChunkGenerator.Voxel>, n: nat): bv8
    requires n <= |g| <= 8
  {
    if n == 0 then 0 else if g[n - 1].Some? then Bit(n - 1) else LastBit(g, n - 1)
  }

  /** Mask byte with `|=`: the OR of the bits of the occupied voxels among the first `n`. */
  function OrBits(g: seq<ChunkGenerator.Voxel>, n: nat): bv8
    requires n <= |g| <= 8
  {
    if n == 0 then 0 else OrBits(g, n - 1) | (if g[n - 1].Some? then Bit(n - 1) else 0)
  }

  /** As written, a byte is 0 exactly when its voxels are all empty. */
  lemma {:induction false} LastBitZero(g: seq<ChunkGenerator.Voxel>, n: nat)
    requires n <= |g| <= 8
    ensures LastBit(g, n) == 0 <==> forall k :: 0 <= k < n ==> g[k].None?
  {
    if n > 0 {
      LastBitZero(g, n - 1);
      BitNonZero(n - 1);
    }
  }

  /** As written, a byte holds only the bit of the last occupied voxel of its group. */
  lemma {:induction false} LastBitLast(g: seq<ChunkGenerator.Voxel>, n: nat, k: nat)
    requires n <= |g| <= 8 && k < n && g[k].Some?
    requires forall k' :: k < k' < n ==> g[k'].None?
    ensures LastBit(g, n) == Bit(k)
  {
    if k < n - 1 {
      LastBitLast(g, n - 1, k);
    }
  }

  /** With `|=`, bit `k` of a byte is set exactly when voxel `k` of its group is occupied. */
  lemma {:induction false} OrBitsMeaning(g: seq<ChunkGenerator.Voxel>, n: nat, k: nat)
    requires n <= |g| <= 8 && k < 8
    ensures OrBits(g, n) & Bit(k) != 0 <==> k < n && g[k].Some?
  {
    if n > 0 {
      OrBitsMeaning(g, n - 1, k);
      BitNonZero(k);
      if k != n - 1 {
        BitsDisjoint(n - 1, k);
      }
    }
  }

  /** How many voxels of group `j` the loop has visited after `i` iterations. */
  function Visited(i: nat, j: nat): (v: nat)
    ensures v <= 8
  {
    if i <= 8 * j then 0 else if i >= 8 * j + 8 then 8 else i - 8 * j
  }

  /** One iteration visits voxel `i`, the next voxel of group `i / 8`, and no other group's. */
  lemma VisitStep(voxelData: seq<ChunkGenerator.Voxel>, i: nat, j: nat)
    requires |voxelData| >= BRICK_VOLUME && i < BRICK_VOLUME && j < BRICK_AREA
    ensures j == i / 8 ==>
      && Visited(i, j) == i % 8 && Visited(i + 1, j) == i % 8 + 1
      && Group(voxelData, j)[i % 8] == voxelData[i]
    ensures j != i / 8 ==> Visited(i + 1, j) == Visited(i, j)
  {
  }

  /** `BrickData::from_voxel_array`, as written (`voxel_mask[i >> 3] = 1 << (i & 7)`). */
  method FromVoxelArrayAsWritten(voxelData: seq<ChunkGenerator.Voxel>) returns (d: BrickData)
    requires |voxelData| >= BRICK_VOLUME
    ensures d.materialIndex == 0 && |d.voxelMask| == BRICK_AREA
    ensures forall j :: 0 <= j < BRICK_AREA ==> d.voxelMask[j] == LastBit(Group(voxelData, j), 8)
  {
    var voxelMask := new bv8[BRICK_AREA](_ => 0);
    for i := 0 to BRICK_VOLUME
      invariant forall j :: 0 <= j < BRICK_AREA ==> voxelMask[j] == LastBit(Group(voxelData, j), Visited(i, j))
    {
      if voxelData[i].Some? {
        voxelMask[i / 8] := Bit(i % 8);
      }
      forall j | 0 <= j < BRICK_AREA
        ensures voxelMask[j] == LastBit(Group(voxelData, j), Visited(i + 1, j))
      {
        VisitStep(voxelData, i, j);
      }
    }
    d := BrickData(0, voxelMask[..]);
  }

  /** The mask of `d` has bit `i & 7` of byte `i >> 3` set exactly for the
      occupied voxels `i`. */
  predicate RecordsVoxels(d: BrickData, voxelData: seq<ChunkGenerator.Voxel>)
    requires |voxelData| >= BRICK_VOLUME
  {
    && |d.voxelMask| == BRICK_AREA
    && forall i {:trigger MaskHas(d.voxelMask, i)} :: 0 <= i < BRICK_VOLUME ==>
         (MaskHas(d.voxelMask, i) <==> voxelData[i].Some?)
  }

  /** Bit `i & 7` of byte `i >> 3` of the mask. */
  predicate MaskHas(voxelMask: seq<bv8>, i: nat)
    requires i / 8 < |voxelMask|
  {
    voxelMask[i / 8] & Bit(i % 8) != 0
  }

  /** `BrickData::from_voxel_array` with `|=`: bit `i & 7` of byte `i >> 3` is set
      for each occupied voxel `i`. */
  method FromVoxelArray(voxelData: seq<ChunkGenerator.Voxel>) returns (d: BrickData)
    requires |voxelData| >= BRICK_VOLUME
    ensures d.materialIndex == 0 && !d.IsFreeTagged() && |d.voxelMask| == BRICK_AREA
    ensures forall j :: 0 <= j < BRICK_AREA ==> d.voxelMask[j] == OrBits(Group(voxelData, j), 8)
    ensures RecordsVoxels(d, voxelData)
  {
    var voxelMask := new bv8[BRICK_AREA](_ => 0);
    for i := 0 to BRICK_VOLUME
      invariant forall j :: 0 <= j < BRICK_AREA ==> voxelMask[j] == OrBits(Group(voxelData, j), Visited(i, j))
    {
      if voxelData[i].Some? {
        voxelMask[i / 8] := voxelMask[i / 8] | Bit(i % 8);
      }
      forall j | 0 <= j < BRICK_AREA
        ensures voxelMask[j] == OrBits(Group(voxelData, j), Visited(i + 1, j))
      {
        VisitStep(voxelData, i, j);
      }
    }
    d := BrickData(0, voxelMask[..]);
    forall i | 0 <= i < BRICK_VOLUME
      ensures MaskHas(d.voxelMask, i) <==> voxelData[i].Some?
    {
      MaskRecordsVoxel(voxelData, i);
    }
  }

  /** The corrected mask records every occupied voxel: bit `i & 7` of byte `i >> 3`
      is set exactly when voxel `i` is occupied. */
  lemma MaskRecordsVoxel(voxelData: seq<ChunkGenerator.Voxel>, i: nat)
    requires |voxelData| >= BRICK_VOLUME && i < BRICK_VOLUME
    ensures OrBits(Group(voxelData, i / 8), 8) & Bit(i % 8) != 0 <==> voxelData[i].Some?
  {
    OrBitsMeaning(Group(voxelData, i / 8), 8, i % 8);
  }

  /** Two occupied voxels in one group: as written the byte keeps only the second bit. */
  lemma AsWrittenDropsVoxels()
    ensures var g := [Some(ChunkGenerator.GENERATED_COLOUR), Some(ChunkGenerator.GENERATED_COLOUR),
                      None, None, None, None, None, None];
            LastBit(g, 8) == 2 && OrBits(g, 8) == 3
  {
    var g := [Some(ChunkGenerator.GENERATED_COLOUR), Some(ChunkGenerator.GENERATED_COLOUR),
              None, None, None, None, None, None];
    LowBits();
    LastBitLast(g, 8, 1);
    assert OrBits(g, 1) == 1;
    assert OrBits(g, 2) == 3;
    assert OrBits(g, 4) == 3;
    assert OrBits(g, 6) == 3;
  }

  // ---------------------------------------------------------------------------
  // BrickDataList: an arena with a free list

  /** `NULL_FREE_INDEX`: the end of the free list. */
  const NULL_FREE_INDEX: u32 := 0x7FFF_FFFF

  class BrickDataList {
    var freeHead: u32
    var data: seq<BrickData>

    /** `BrickDataList::new`: empty, with an empty free list. */
    constructor ()
      ensures freeHead == NULL_FREE_INDEX && data == []
    {
      freeHead := NULL_FREE_INDEX;
      data := [];
    }

    /** What `insert` needs: a free-list head inside the arena, and on the push
        path a new length whose `u32` truncation is not 0 (else `len - 1` overflows). */
    predicate CanInsert()
      reads this
    {
      if freeHead != NULL_FREE_INDEX then freeHead < |data| else (|data| + 1) % 0x1_0000_0000 != 0
    }

    /** `insert`: reuses the head of the free list, or appends. */
    method Insert(brickData: BrickData) returns (index: u32)
      requires CanInsert()
      modifies this
      ensures old(freeHead) == NULL_FREE_INDEX ==>
        && index == |old(data)| % 0x1_0000_0000
        && data == old(data) + [brickData] && freeHead == NULL_FREE_INDEX
      ensures old(freeHead) != NULL_FREE_INDEX ==>
        && index == old(freeHead)
        && freeHead == old(data[freeHead].NextFree()) % 0x1_0000_0000
        && data == old(data)[index := brickData]
    {
      if freeHead != NULL_FREE_INDEX {
        var newIndex := freeHead;
        freeHead := data[freeHead].NextFree();
        data := data[newIndex := brickData];
        return newIndex;
      } else {
        data := data + [brickData];
        return (|data| % 0x1_0000_0000) - 1;
      }
    }

    /** `get`: a slot past the arena panics. */
    function Get(index: u32): (d: BrickData)
      reads this
      requires index < |data|
      ensures d in data
    {
      data[index]
    }
  }

  // ---------------------------------------------------------------------------
  // DynVoxelWorld

  /** `BrickChange`: the Morton code of a brick whose index changed. */
  datatype BrickChange = BrickChange(brickMorton: nat)

  /** Is every voxel of the brick empty (`iter().all(is_none)`). */
  predicate AllEmpty(voxels: seq<ChunkGenerator.Voxel>)
  {
    forall k :: 0 <= k < |voxels| ==> voxels[k].None?
  }

  /** The change records for bricks `base .. base + n`, in order. */
  function ChangesFrom(base: nat, n: nat): (cs: seq<BrickChange>)
    ensures |cs| == n && forall k :: 0 <= k < n ==> cs[k] == BrickChange(base + k)
  {
    seq(n, (k: nat) => BrickChange(base + k))
  }

  /** `DynVoxelWorld`. Chunk and brick positions are passed as their Morton codes. */
  class DynVoxelWorld {
    const superChunkGridMask: GridMask
    const chunkOccupancyMask: GridMask
    const brickIndicesGrid: BrickIndexGrid
    const brickData: BrickDataList
    var brickChanges: seq<BrickChange>

    /** Nothing but `new` assigns the arena's free-list head, so the free list
        stays empty and every insert appends; the chunk mask and the brick
        index grid are separate buffers. */
    ghost predicate Valid()
      reads this, brickData
    {
      && brickData.freeHead == NULL_FREE_INDEX
      && chunkOccupancyMask.words as object != brickIndicesGrid.entries as object
    }

    /** `DynVoxelWorld::new`, given the chunk volume of the render distance. The
        super-chunk mask gets `ceil(volume / SUPER_CHUNK_VOLUME)` cells. */
    constructor (chunkRenderVolume: nat)
      ensures Valid() && brickChanges == []
      ensures chunkOccupancyMask.words.Length == chunkRenderVolume / 8
      ensures superChunkGridMask.words.Length == ((chunkRenderVolume + SUPER_CHUNK_VOLUME - 1) / SUPER_CHUNK_VOLUME) / 8
      ensures brickIndicesGrid.entries.Length == chunkRenderVolume * BRICK_VOLUME
      ensures forall i :: 0 <= i < brickIndicesGrid.entries.Length ==> brickIndicesGrid.entries[i] == NewUnloaded()
      ensures forall m: bv64 :: WordIndex(m) < chunkOccupancyMask.words.Length ==> chunkOccupancyMask.Status(m) == Unloaded
      ensures brickData.data == []
    {
      superChunkGridMask := new GridMask((chunkRenderVolume + SUPER_CHUNK_VOLUME - 1) / SUPER_CHUNK_VOLUME);
      chunkOccupancyMask := new GridMask(chunkRenderVolume);
      brickIndicesGrid := new BrickIndexGrid(chunkRenderVolume * BRICK_VOLUME);
      brickData := new BrickDataList();
      brickChanges := [];
    }

    /** `chunk_status`. */
    function ChunkStatus(chunkMorton: bv64): SpatialStatus
      reads chunkOccupancyMask.words
      requires WordIndex(chunkMorton) < chunkOccupancyMask.words.Length
    {
      chunkOccupancyMask.Status(chunkMorton)
    }

    /** `is_brick_loaded`. */
    function IsBrickLoaded(brickMorton: nat): bool
      reads brickIndicesGrid.entries
      requires brickMorton < brickIndicesGrid.entries.Length
    {
      brickIndicesGrid.entries[brickMorton].Status().IsLoaded()
    }

    /** `set_chunk_loading`: only that chunk's status changes, to Loading. */
    method SetChunkLoading(chunkMorton: bv64)
      requires WordIndex(chunkMorton) < chunkOccupancyMask.words.Length
      modifies chunkOccupancyMask.words
      ensures ChunkStatus(chunkMorton) == Loading
      ensures forall n: bv64 :: WordIndex(n) < chunkOccupancyMask.words.Length && n != chunkMorton ==>
        ChunkStatus(n) == old(ChunkStatus(n))
    {
      chunkOccupancyMask.SetStatus(chunkMorton, Loading);
    }

    /** `set_brick`: stores the brick (if any), queues one change for it, and
        points its index entry at the stored slot. */
    method SetBrick(brickMorton: nat, brick: Option<BrickData>)
      requires Valid()
      requires brickMorton < brickIndicesGrid.entries.Length
      requires brick.Some? ==> brickData.CanInsert()
      modifies this, brickIndicesGrid.entries, brickData
      ensures Valid()
      ensures brickChanges == old(brickChanges) + [BrickChange(brickMorton)]
      ensures brick.None? ==> brickIndicesGrid.entries[brickMorton] == NewLoadedEmpty() && brickData.data == old(brickData.data)
      ensures brick.Some? ==>
        && brickIndicesGrid.entries[brickMorton] == NewLoaded(|old(brickData.data)| % 0x1_0000_0000)
        && brickData.data == old(brickData.data) + [brick.value]
      ensures forall n :: 0 <= n < brickIndicesGrid.entries.Length && n != brickMorton ==>
        brickIndicesGrid.entries[n] == old(brickIndicesGrid.entries[n])
    {
      var brickIndex;
      if brick.Some? {
        var index := brickData.Insert(brick.value);
        brickIndex := NewLoaded(index);
      } else {
        brickIndex := NewLoadedEmpty();
      }
      brickChanges := brickChanges + [BrickChange(brickMorton)];
      brickIndicesGrid.entries[brickMorton] := brickIndex;
    }

    /** The status each brick of a generated chunk gets. */
    static function BrickStatus(chunk: ChunkGenerator.GeneratedChunk, b: nat): SpatialStatus
      requires b * BRICK_VOLUME + BRICK_VOLUME <= |chunk.voxelData|
    {
      if AllEmpty(ChunkGenerator.BrickData(chunk, b)) then LoadedEmpty else Loaded
    }

    /** The loop of `set_generated_chunk`: sets brick `b` of the chunk at
        `brickBase + b`, empty or not, for each `b` in order. */
    method SetChunkBricks(brickBase: nat, chunk: ChunkGenerator.GeneratedChunk)
      requires Valid()
      requires |chunk.voxelData| >= CHUNK_VOLUME * BRICK_VOLUME
      requires brickBase + CHUNK_VOLUME <= brickIndicesGrid.entries.Length
      requires |brickData.data| + CHUNK_VOLUME < 0x1_0000_0000
      modifies this, brickIndicesGrid.entries, brickData
      ensures Valid()
      ensures brickChanges == old(brickChanges) + ChangesFrom(brickBase, CHUNK_VOLUME)
      ensures forall b :: 0 <= b < CHUNK_VOLUME ==>
        brickIndicesGrid.entries[brickBase + b].Status() == BrickStatus(chunk, b)
      ensures forall n :: 0 <= n < brickIndicesGrid.entries.Length && !(brickBase <= n < brickBase + CHUNK_VOLUME) ==>
        brickIndicesGrid.entries[n] == old(brickIndicesGrid.entries[n])
    {
      for b := 0 to CHUNK_VOLUME
        invariant Valid()
        invariant |brickData.data| <= |old(brickData.data)| + b
        invariant brickChanges == old(brickChanges) + ChangesFrom(brickBase, b)
        invariant forall b' :: 0 <= b' < b ==>
          brickIndicesGrid.entries[brickBase + b'].Status() == BrickStatus(chunk, b')
        invariant forall n :: 0 <= n < brickIndicesGrid.entries.Length && !(brickBase <= n < brickBase + b) ==>
          brickIndicesGrid.entries[n] == old(brickIndicesGrid.entries[n])
      {
        SetChunkBrick(brickBase, chunk, b);
        assert ChangesFrom(brickBase, b + 1) == ChangesFrom(brickBase, b) + [BrickChange(brickBase + b)];
      }
    }

    /** The body of that loop: brick `b` of the chunk, sliced out and set at `brickBase + b`. */
    method SetChunkBrick(brickBase: nat, chunk: ChunkGenerator.GeneratedChunk, b: nat)
      requires Valid()
      requires b < CHUNK_VOLUME && |chunk.voxelData| >= CHUNK_VOLUME * BRICK_VOLUME
      requires brickBase + CHUNK_VOLUME <= brickIndicesGrid.entries.Length
      requires |brickData.data| + (CHUNK_VOLUME - b) < 0x1_0000_0000
      modifies this, brickIndicesGrid.entries, brickData
      ensures Valid()
      ensures |brickData.data| <= |old(brickData.data)| + 1
      ensures brickChanges == old(brickChanges) + [BrickChange(brickBase + b)]
      ensures brickIndicesGrid.entries[brickBase + b].Status() == BrickStatus(chunk, b)
      ensures forall n :: 0 <= n < brickIndicesGrid.entries.Length && n != brickBase + b ==>
        brickIndicesGrid.entries[n] == old(brickIndicesGrid.entries[n])
    {
      var generatedVoxels := ChunkGenerator.BrickData(chunk, b);
      SetGeneratedBrick(brickBase + b, generatedVoxels);
    }

    /** One iteration of that loop: an all-empty brick is set to None, any
        other to its occupancy mask. */
    method SetGeneratedBrick(brickMorton: nat, generatedVoxels: seq<ChunkGenerator.Voxel>)
      requires Valid()
      requires |generatedVoxels| == BRICK_VOLUME
      requires brickMorton < brickIndicesGrid.entries.Length
      requires brickData.CanInsert()
      modifies this, brickIndicesGrid.entries, brickData
      ensures Valid()
      ensures |old(brickData.data)| <= |brickData.data| <= |old(brickData.data)| + 1
      ensures AllEmpty(generatedVoxels) ==> brickData.data == old(brickData.data)
      ensures !AllEmpty(generatedVoxels) ==>
        && |brickData.data| == |old(brickData.data)| + 1
        && brickData.data[..|old(brickData.data)|] == old(brickData.data)
        && RecordsVoxels(brickData.data[|old(brickData.data)|], generatedVoxels)
        && brickIndicesGrid.entries[brickMorton] == NewLoaded(|old(brickData.data)| % 0x1_0000_0000)
      ensures brickChanges == old(brickChanges) + [BrickChange(brickMorton)]
      ensures brickIndicesGrid.entries[brickMorton].Status() == if AllEmpty(generatedVoxels) then LoadedEmpty else Loaded
      ensures forall n :: 0 <= n < brickIndicesGrid.entries.Length && n != brickMorton ==>
        brickIndicesGrid.entries[n] == old(brickIndicesGrid.entries[n])
    {
      var isEmpty := AllEmpty(generatedVoxels);
      if isEmpty {
        SetBrick(brickMorton, None);
      } else {
        var brick := FromVoxelArray(generatedVoxels);
        SetBrick(brickMorton, Some(brick));
      }
    }

    /** `set_generated_chunk`: marks the chunk Loaded or LoadedEmpty, and unless
        it is empty, sets its 512 bricks, which sit at `brickBase .. brickBase + 512`. */
    method SetGeneratedChunk(chunkMorton: bv64, brickBase: nat, chunk: ChunkGenerator.GeneratedChunk)
      requires Valid()
      requires WordIndex(chunkMorton) < chunkOccupancyMask.words.Length
      requires !chunk.isEmpty ==>
        && |chunk.voxelData| >= CHUNK_VOLUME * BRICK_VOLUME
        && brickBase + CHUNK_VOLUME <= brickIndicesGrid.entries.Length
        && |brickData.data| + CHUNK_VOLUME < 0x1_0000_0000
      modifies this, chunkOccupancyMask.words, brickIndicesGrid.entries, brickData
      ensures Valid()
      ensures ChunkStatus(chunkMorton) == if chunk.isEmpty then LoadedEmpty else Loaded
      ensures forall n: bv64 :: WordIndex(n) < chunkOccupancyMask.words.Length && n != chunkMorton ==>
        ChunkStatus(n) == old(ChunkStatus(n))
      ensures chunk.isEmpty ==>
        && brickChanges == old(brickChanges) && brickData.data == old(brickData.data)
        && brickIndicesGrid.entries[..] == old(brickIndicesGrid.entries[..])
      ensures !chunk.isEmpty ==>
        && brickChanges == old(brickChanges) + ChangesFrom(brickBase, CHUNK_VOLUME)
        && (forall b :: 0 <= b < CHUNK_VOLUME ==>
              brickIndicesGrid.entries[brickBase + b].Status() == BrickStatus(chunk, b))
        && (forall n :: 0 <= n < brickIndicesGrid.entries.Length && !(brickBase <= n < brickBase + CHUNK_VOLUME) ==>
              brickIndicesGrid.entries[n] == old(brickIndicesGrid.entries[n]))
    {
      if chunk.isEmpty {
        chunkOccupancyMask.SetStatus(chunkMorton, LoadedEmpty);
      } else {
        chunkOccupancyMask.SetStatus(chunkMorton, Loaded);
        SetChunkBricks(brickBase, chunk);
      }
    }

    /** `collect_brick_changes`: hands over the queued changes, in order, and
        leaves the queue empty. */
    method CollectBrickChanges() returns (changes: seq<BrickChange>)
      modifies this
      ensures changes == old(brickChanges) && brickChanges == []
    {
      changes := brickChanges;
      brickChanges := [];
    }
  }
}
