// The sparse voxel octree (SVO) builder: voxels arrive in Morton order as
// leaves in the deepest buffer; a full buffer of 8 siblings is grouped into
// a parent node one level up, its non-null children moving to the output.

module Octree {

  /** octree.rs's VoxelData; its f32 normal is not part of this model. */
  datatype VoxelData = VoxelData(mortonCode: nat)

  const NULL_OFFSET: nat := 0xFF

  datatype SVONode = SVONode(dataIndex: nat, childrenBaseIndex: nat, childrenOffset: seq<nat>)
  {
    /** As written: a node "has data" when its data index is 0. */
    predicate HasData() {
      dataIndex == 0
    }

    predicate IsLeaf() {
      childrenBaseIndex == 0
    }

    predicate IsNull() {
      !HasData() && IsLeaf()
    }
  }

  function EmptyNode(): (n: SVONode)
    ensures n.dataIndex == 0 && n.childrenBaseIndex == 0
    ensures |n.childrenOffset| == 8 && forall i :: 0 <= i < 8 ==> n.childrenOffset[i] == NULL_OFFSET
  {
    SVONode(0, 0, seq(8, _ => NULL_OFFSET))
  }

  /** Because `HasData` tests `dataIndex == 0`, an empty node has data and is not null. */
  lemma EmptyIsNotNull()
    ensures EmptyNode().HasData() && EmptyNode().IsLeaf() && !EmptyNode().IsNull()
  {
  }

  /** A node is null exactly when its data index is non-zero and it has no children base. */
  lemma NullMeaning(n: SVONode)
    ensures n.IsNull() <==> n.dataIndex != 0 && n.childrenBaseIndex == 0
  {
  }

  /** The leaf `add_voxel` pushes for the voxel stored at `dataIndex`. */
  function LeafNode(dataIndex: nat): (n: SVONode)
    ensures n.dataIndex == dataIndex && n.IsLeaf() && |n.childrenOffset| == 8
  {
    SVONode(dataIndex, 0, seq(8, _ => 0))
  }

  // ---------------------------------------------------------------------
  // Grouping eight siblings (`group_buffer`), as a reference definition.
  // ---------------------------------------------------------------------

  /** The non-null nodes of `s`, in order. */
  function Kept(s: seq<SVONode>): (k: seq<SVONode>)
    ensures |k| <= |s|
  {
    if |s| == 0 then []
    else Kept(s[..|s| - 1]) + (if s[|s| - 1].IsNull() then [] else [s[|s| - 1]])
  }

  lemma KeptStep(s: seq<SVONode>, k: nat)
    requires k < |s|
    ensures Kept(s[..k + 1]) == Kept(s[..k]) + (if s[k].IsNull() then [] else [s[k]])
  {
    assert s[..k + 1][..k] == s[..k];
  }

  lemma {:induction false} KeptPrefix(s: seq<SVONode>, k: nat)
    requires k <= |s|
    ensures Kept(s[..k]) <= Kept(s)
    decreases |s| - k
  {
    if k == |s| {
      assert s[..k] == s;
    } else {
      KeptPrefix(s, k + 1);
      KeptStep(s, k);
      var a, b := Kept(s[..k]), Kept(s[..k + 1]);
      assert b[..|a|] == a;
      assert Kept(s)[..|b|] == b;
      assert Kept(s)[..|a|] == b[..|a|];
    }
  }

  /** Child slot `j`'s offset: its position among the kept children, or 0xFF for a null slot. */
  function OffsetOf(level: seq<SVONode>, j: nat): nat
    requires j < |level|
  {
    if level[j].IsNull() then NULL_OFFSET else |Kept(level[..j])|
  }

  /** The parent `group_buffer` builds when the output already holds `count` nodes. */
  function GroupParent(level: seq<SVONode>, count: nat): SVONode
    requires |level| == 8
  {
    SVONode(0, if |Kept(level)| == 0 then 0 else count, seq(8, (j: nat) requires j < 8 => OffsetOf(level, j)))
  }

  /**
   * The parent addresses its children: every non-null slot's base + offset
   * points at that very node in the extended output, and null slots keep 0xFF.
   */
  lemma GroupAddressesChildren(level: seq<SVONode>, nodes: seq<SVONode>, j: nat)
    requires |level| == 8 && j < 8
    ensures var parent, out := GroupParent(level, |nodes|), nodes + Kept(level);
            if level[j].IsNull() then parent.childrenOffset[j] == NULL_OFFSET
            else parent.childrenOffset[j] < 8 &&
                 parent.childrenBaseIndex + parent.childrenOffset[j] < |out| &&
                 out[parent.childrenBaseIndex + parent.childrenOffset[j]] == level[j]
  {
    if !level[j].IsNull() {
      KeptStep(level, j);
      KeptPrefix(level, j + 1);
      var before := Kept(level[..j]);
      assert before + [level[j]] <= Kept(level);
      assert Kept(level)[|before|] == level[j];
      assert |Kept(level)| > 0;
    }
  }

  // ---------------------------------------------------------------------
  // The builder's buffers and output as a value, and the reference
  // definitions of `refine_buffers` and `fill_empty_voxels`.
  // ---------------------------------------------------------------------

  datatype Build = Build(buffers: seq<seq<SVONode>>, nodes: seq<SVONode>)

  predicate AllDataZero(level: seq<SVONode>) {
    forall k :: 0 <= k < |level| ==> level[k].dataIndex == 0
  }

  /** Push `node` onto the buffer at `depth`. */
  function Push(s: Build, depth: nat, node: SVONode): (r: Build)
    requires depth < |s.buffers|
    ensures |r.buffers| == |s.buffers| && r.nodes == s.nodes
    ensures r.buffers[depth] == s.buffers[depth] + [node]
    ensures forall d :: 0 <= d < |s.buffers| && d != depth ==> r.buffers[d] == s.buffers[d]
  {
    Build(s.buffers[depth := s.buffers[depth] + [node]], s.nodes)
  }

  /**
   * `refine_buffers` from `depth` down to 1: a buffer of exactly 8 nodes adds
   * one parent to the level above (an empty node when no sibling has a
   * non-zero data index, the grouped parent otherwise); any other length stops
   * the walk.
   */
  function Refine(s: Build, depth: nat): (r: Build)
    requires depth < |s.buffers|
    ensures |r.buffers| == |s.buffers|
    ensures forall d :: 0 <= d < |s.buffers| ==> |r.buffers[d]| >= |s.buffers[d]|
    decreases depth
  {
    if depth == 0 || |s.buffers[depth]| != 8 then s
    else
      var level := s.buffers[depth];
      if AllDataZero(level) then Refine(Push(s, depth - 1, EmptyNode()), depth - 1)
      else Refine(Push(Build(s.buffers, s.nodes + Kept(level)), depth - 1, GroupParent(level, |s.nodes|)), depth - 1)
  }

  /** `fill_empty_voxels(n)`: n times, an empty leaf at `maxDepth` followed by a refinement. */
  function Fill(s: Build, maxDepth: nat, n: nat): (r: Build)
    requires maxDepth < |s.buffers|
    ensures |r.buffers| == |s.buffers|
    ensures forall d :: 0 <= d < |s.buffers| ==> |r.buffers[d]| >= |s.buffers[d]|
    decreases n
  {
    if n == 0 then s
    else Fill(Refine(Push(s, maxDepth, EmptyNode()), maxDepth), maxDepth, n - 1)
  }

  predicate AtLeastEight(buffers: seq<seq<SVONode>>) {
    forall d :: 0 <= d < |buffers| ==> |buffers[d]| >= 8
  }

  /** Refinement only appends: buffers grow and the output keeps its prefix. */
  lemma {:induction false} RefineGrows(s: Build, depth: nat)
    requires depth < |s.buffers|
    ensures |Refine(s, depth).buffers| == |s.buffers|
    ensures forall d :: 0 <= d < |s.buffers| ==> s.buffers[d] <= Refine(s, depth).buffers[d]
    ensures s.nodes <= Refine(s, depth).nodes
    decreases depth
  {
    if depth == 0 || |s.buffers[depth]| != 8 {
    } else {
      var level := s.buffers[depth];
      var next;
      if AllDataZero(level) {
        next := Push(s, depth - 1, EmptyNode());
        PushGrows(s, depth - 1, EmptyNode());
      } else {
        var grouped := Build(s.buffers, s.nodes + Kept(level));
        next := Push(grouped, depth - 1, GroupParent(level, |s.nodes|));
        PushGrows(grouped, depth - 1, GroupParent(level, |s.nodes|));
      }
      assert Refine(s, depth) == Refine(next, depth - 1);
      RefineGrows(next, depth - 1);
    }
  }

  /** A push only appends to one buffer. */
  lemma PushGrows(s: Build, depth: nat, node: SVONode)
    requires depth < |s.buffers|
    ensures forall d :: 0 <= d < |s.buffers| ==> s.buffers[d] <= Push(s, depth, node).buffers[d]
  {
  }

  /** A deepest buffer holding more than 8 nodes stops the walk at once: nothing changes. */
  lemma RefineStopsAtOverfullLeaves(s: Build, maxDepth: nat)
    requires maxDepth < |s.buffers| && |s.buffers[maxDepth]| > 8
    ensures Refine(s, maxDepth) == s
  {
  }

  /**
   * Once the deepest buffer holds at least 8 nodes, filling only appends n
   * empty leaves to it: nothing is grouped and the output is untouched.
   */
  lemma {:induction false} FillOnlyAppends(s: Build, maxDepth: nat, n: nat)
    requires maxDepth < |s.buffers| && |s.buffers[maxDepth]| >= 8
    ensures Fill(s, maxDepth, n) ==
            Build(s.buffers[maxDepth := s.buffers[maxDepth] + seq(n, _ => EmptyNode())], s.nodes)
    decreases n
  {
    if n > 0 {
      var pushed := Push(s, maxDepth, EmptyNode());
      RefineStopsAtOverfullLeaves(pushed, maxDepth);
      FillOnlyAppends(pushed, maxDepth, n - 1);
      assert seq(n, _ => EmptyNode()) == [EmptyNode()] + seq(n - 1, _ => EmptyNode());
      assert pushed.buffers[maxDepth] + seq(n - 1, _ => EmptyNode()) ==
             s.buffers[maxDepth] + seq(n, _ => EmptyNode());
      assert pushed.buffers[maxDepth := pushed.buffers[maxDepth] + seq(n - 1, _ => EmptyNode())] ==
             s.buffers[maxDepth := s.buffers[maxDepth] + seq(n, _ => EmptyNode())];
    } else {
      assert s.buffers[maxDepth] + seq(0, _ => EmptyNode()) == s.buffers[maxDepth];
      assert s.buffers[maxDepth := s.buffers[maxDepth]] == s.buffers;
    }
  }

  /** The empty leaves `add_voxel` fills in before a voxel with Morton code `code`. */
  function Gap(code: nat, current: nat): nat {
    if code > current then code - current else 0
  }

  /** `ceil(log2 g)`, with 0 for g <= 1 (the f32 log2 of 0 saturates to 0). */
  function CeilLog2(g: nat): nat
    decreases g
  {
    if g <= 1 then 0 else 1 + CeilLog2((g + 1) / 2)
  }

  function Pow2(n: nat): (p: nat)
    ensures p >= 1
  {
    if n == 0 then 1 else 2 * Pow2(n - 1)
  }

  /** CeilLog2 is the least d with g <= 2^d. */
  lemma {:induction false} CeilLog2Least(g: nat)
    ensures g <= Pow2(CeilLog2(g))
    ensures CeilLog2(g) > 0 ==> Pow2(CeilLog2(g) - 1) < g
    decreases g
  {
    if g > 1 {
      CeilLog2Least((g + 1) / 2);
    }
  }

  /** For a power-of-two grid length 2^k the depth is k. */
  lemma {:induction false} CeilLog2OfPow2(k: nat)
    ensures CeilLog2(Pow2(k)) == k
  {
    if k > 0 {
      CeilLog2OfPow2(k - 1);
      assert (Pow2(k) + 1) / 2 == Pow2(k - 1);
    }
  }

  function Pow8(n: nat): (p: nat)
    ensures p >= 1
  {
    if n == 0 then 1 else 8 * Pow8(n - 1)
  }

  /** `max_depth + 1` buffers, each pre-filled with 8 empty nodes. */
  function InitialBuffers(maxDepth: nat): (b: seq<seq<SVONode>>)
    ensures |b| == maxDepth + 1 && AtLeastEight(b)
    ensures forall d :: 0 <= d <= maxDepth ==> b[d] == seq(8, _ => EmptyNode())
  {
    seq(maxDepth + 1, _ => seq(8, _ => EmptyNode()))
  }

  datatype VoxelSVO = VoxelSVO(nodes: seq<SVONode>, materialCount: nat, unitLength: real)

  class VoxelSVOBuilder {
    var currentMortonCode: nat
    var maxDepth: nat
    var buffers: seq<seq<SVONode>>
    var svoNodes: seq<SVONode>
    var svoData: seq<VoxelData>

    ghost predicate Valid()
      reads this
    {
      |buffers| == maxDepth + 1 && AtLeastEight(buffers) && currentMortonCode < 0x1_0000_0000
    }

    function State(): Build
      reads this
    {
      Build(buffers, svoNodes)
    }

    /** `new(grid_length)`. */
    constructor (gridLength: nat)
      ensures Valid()
      ensures maxDepth == CeilLog2(gridLength) && buffers == InitialBuffers(maxDepth)
      ensures svoNodes == [] && svoData == [] && currentMortonCode == 0
    {
      currentMortonCode := 0;
      maxDepth := CeilLog2(gridLength);
      buffers := InitialBuffers(CeilLog2(gridLength));
      svoNodes := [];
      svoData := [];
    }

    /** `group_buffer(depth)`: moves the non-null siblings to the output and returns their parent. */
    method GroupBuffer(depth: nat) returns (parent: SVONode)
      requires Valid() && depth < |buffers|
      modifies this
      ensures Valid()
      ensures maxDepth == old(maxDepth) && currentMortonCode == old(currentMortonCode)
      ensures buffers == old(buffers) && svoData == old(svoData)
      ensures svoNodes == old(svoNodes) + Kept(old(buffers[depth][..8]))
      ensures parent == GroupParent(old(buffers[depth][..8]), |old(svoNodes)|)
    {
      ghost var level := buffers[depth][..8];
      ghost var start := |svoNodes|;
      parent := EmptyNode();
      var isFirst := true;
      for i := 0 to 8
        invariant buffers == old(buffers) && svoData == old(svoData)
        invariant maxDepth == old(maxDepth) && currentMortonCode == old(currentMortonCode)
        invariant svoNodes == old(svoNodes) + Kept(level[..i])
        invariant isFirst <==> |Kept(level[..i])| == 0
        invariant parent.dataIndex == 0 && |parent.childrenOffset| == 8
        invariant parent.childrenBaseIndex == (if isFirst then 0 else start)
        invariant forall j :: 0 <= j < 8 ==> parent.childrenOffset[j] == (if j < i then OffsetOf(level, j) else NULL_OFFSET)
      {
        KeptStep(level, i);
        if !buffers[depth][i].IsNull() {
          var node := buffers[depth][i];
          if isFirst {
            parent := parent.(childrenBaseIndex := |svoNodes|);
            isFirst := false;
          }
          var offset := |svoNodes| - parent.childrenBaseIndex;
          parent := parent.(childrenOffset := parent.childrenOffset[i := offset % 256]);
          svoNodes := svoNodes + [node];
        }
      }
      assert level[..8] == level;
    }

    /** `refine_buffers`. */
    method RefineBuffers()
      requires Valid()
      modifies this
      ensures Valid()
      ensures maxDepth == old(maxDepth) && svoData == old(svoData) && currentMortonCode == old(currentMortonCode)
      ensures State() == Refine(old(State()), maxDepth)
    {
      RefineGrows(State(), maxDepth);
      var depth: nat := maxDepth;
      while depth >= 1
        invariant depth <= maxDepth && Valid()
        invariant maxDepth == old(maxDepth) && svoData == old(svoData) && currentMortonCode == old(currentMortonCode)
        invariant Refine(State(), depth) == Refine(old(State()), maxDepth)
        decreases depth
      {
        if |buffers[depth]| == 8 {
          var parent;
          ghost var before := State();
          if AllDataZero(buffers[depth]) {
            parent := EmptyNode();
          } else {
            parent := GroupBuffer(depth);
            assert buffers[depth][..8] == buffers[depth];
          }
          buffers := buffers[depth - 1 := buffers[depth - 1] + [parent]];
          assert State() == (if AllDataZero(before.buffers[depth]) then Push(before, depth - 1, EmptyNode())
                             else Push(Build(before.buffers, before.nodes + Kept(before.buffers[depth])), depth - 1,
                                       GroupParent(before.buffers[depth], |before.nodes|)));
        } else {
          break;
        }
        depth := depth - 1;
      }
    }

    /** `add_empty_voxel(depth)`. */
    method AddEmptyVoxel(depth: nat)
      requires Valid() && depth <= maxDepth
      modifies this
      ensures Valid()
      ensures maxDepth == old(maxDepth) && svoData == old(svoData) && currentMortonCode == old(currentMortonCode)
      ensures State() == Refine(Push(old(State()), depth, EmptyNode()), maxDepth)
    {
      buffers := buffers[depth := buffers[depth] + [EmptyNode()]];
      RefineBuffers();
    }

    /** `fill_empty_voxels(size)`. */
    method FillEmptyVoxels(size: nat)
      requires Valid()
      modifies this
      ensures Valid()
      ensures maxDepth == old(maxDepth) && svoData == old(svoData) && currentMortonCode == old(currentMortonCode)
      ensures State() == Fill(old(State()), maxDepth, size)
    {
      var remaining := size;
      while remaining > 0
        invariant Valid()
        invariant maxDepth == old(maxDepth) && svoData == old(svoData) && currentMortonCode == old(currentMortonCode)
        invariant Fill(State(), maxDepth, remaining) == Fill(old(State()), maxDepth, size)
      {
        AddEmptyVoxel(maxDepth);
        remaining := remaining - 1;
      }
    }

    /** `add_voxel(data)`. */
    method AddVoxel(data: VoxelData)
      requires Valid() && data.mortonCode < 0x1_0000_0000
      modifies this
      ensures Valid()
      ensures maxDepth == old(maxDepth) && currentMortonCode == old(currentMortonCode)
      ensures svoData == old(svoData) + [data]
      ensures State() == Refine(Push(Fill(old(State()), maxDepth, Gap(data.mortonCode, old(currentMortonCode))),
                                     maxDepth, LeafNode(|old(svoData)|)), maxDepth)
      ensures svoNodes == old(svoNodes)
      ensures buffers == old(buffers)[maxDepth := old(buffers[maxDepth]) + seq(Gap(data.mortonCode, old(currentMortonCode)), _ => EmptyNode())
                                                  + [LeafNode(|old(svoData)|)]]
    {
      if data.mortonCode > currentMortonCode {
        FillEmptyVoxels(data.mortonCode - currentMortonCode);
      }
      svoData := svoData + [data];
      var node := LeafNode(|svoData| - 1);
      buffers := buffers[maxDepth := buffers[maxDepth] + [node]];
      RefineBuffers();
      AddVoxelOnlyAppends(old(State()), maxDepth, Gap(data.mortonCode, old(currentMortonCode)), |old(svoData)|);
    }

    /** `finalize_svo`: fills up to 8^max_depth leaves, then emits buffers[0][0] as the root. */
    method FinalizeSvo(unitLength: real) returns (svo: VoxelSVO)
      requires Valid()
      requires Pow8(maxDepth) < 0x1_0000_0000 && currentMortonCode <= Pow8(maxDepth)
      modifies this
      ensures svo.nodes == Fill(old(State()), old(maxDepth), Pow8(old(maxDepth)) - old(currentMortonCode)).nodes +
                           [Fill(old(State()), old(maxDepth), Pow8(old(maxDepth)) - old(currentMortonCode)).buffers[0][0]]
      ensures svo.nodes == old(svoNodes) + [old(buffers[0][0])]
      ensures svo.materialCount == 0 && svo.unitLength == unitLength
    {
      var finalMortonCode := Pow8(maxDepth);
      FillKeepsRoot(State(), maxDepth, finalMortonCode - currentMortonCode);
      FillEmptyVoxels(finalMortonCode - currentMortonCode);
      svoNodes := svoNodes + [buffers[0][0]];
      svo := VoxelSVO(svoNodes, 0, unitLength);
    }
  }

  /**
   * As written, nothing is ever grouped: buffers start with 8 nodes and only
   * grow, so after each push the deepest buffer holds more than 8 and the
   * walk stops at once.  Adding a voxel appends the skipped empties and the
   * leaf to the deepest buffer and leaves the output untouched.
   */
  lemma AddVoxelOnlyAppends(s: Build, maxDepth: nat, gap: nat, dataIndex: nat)
    requires maxDepth < |s.buffers| && AtLeastEight(s.buffers)
    ensures Refine(Push(Fill(s, maxDepth, gap), maxDepth, LeafNode(dataIndex)), maxDepth) ==
            Build(s.buffers[maxDepth := s.buffers[maxDepth] + seq(gap, _ => EmptyNode()) + [LeafNode(dataIndex)]], s.nodes)
  {
    FillOnlyAppends(s, maxDepth, gap);
    var filled := Fill(s, maxDepth, gap);
    RefineStopsAtOverfullLeaves(Push(filled, maxDepth, LeafNode(dataIndex)), maxDepth);
  }

  /**
   * Filling never reaches the output or the root slot buffers[0][0], so
   * `finalize_svo` emits the nodes already output plus the initial root (an
   * empty node for a fresh builder).
   */
  lemma FillKeepsRoot(s: Build, maxDepth: nat, n: nat)
    requires maxDepth < |s.buffers| && AtLeastEight(s.buffers)
    ensures Fill(s, maxDepth, n).nodes == s.nodes
    ensures Fill(s, maxDepth, n).buffers[0][0] == s.buffers[0][0]
  {
    FillOnlyAppends(s, maxDepth, n);
    if maxDepth == 0 {
      assert (s.buffers[0] + seq(n, _ => EmptyNode()))[0] == s.buffers[0][0];
    }
  }
}
