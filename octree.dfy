/**
 * The sparse voxel octree as values: nodes, the addressing descent shared by
 * both findNode overloads, voxel lookup, the node counters and the node
 * transformations (subdivide, optimise, level-of-detail walk, dirty-node
 * collection) that the World class applies in place.
 */
module Octree {
  import opened Wrappers
  import opened Geometry
  import opened Words
  import opened VoxelTypes

  const MAX_LEVEL: nat := 16

  function Pow2(k: nat): (r: nat)
    ensures r >= 1
  {
    if k == 0 then 1 else 2 * Pow2(k - 1)
  }

  /** Edge length of a node at `level`; the root spans `1 << MAX_LEVEL`. */
  function SizeAt(level: nat): (s: nat)
    requires level <= MAX_LEVEL
    ensures s >= 1
    ensures level < MAX_LEVEL ==> s == 2 * Pow2(MAX_LEVEL - level - 1)
  {
    Pow2(MAX_LEVEL - level)
  }

  /** A node is addressed by the octant indices taken from the root. */
  type Path = seq<nat>

  /**
   * The node payload. A leaf holds the packed slot words and the run list; an
   * internal node holds the 8-bit child mask (bit i is `childMask[i]`) and the
   * 8 child pointers (None for a null pointer).
   */
  datatype Body =
    | Leaf(data: seq<Word>, runs: seq<VoxelRun>)
    | Internal(childMask: seq<bool>, children: seq<Option<Node>>)

  datatype Node = Node(
    position: IVec3,
    size: nat,
    level: nat,
    needsUpdate: bool,
    isOptimized: bool,
    optimizedValue: Word,
    body: Body)

  const NO_BITS: seq<bool> := [false, false, false, false, false, false, false, false]
  const ALL_BITS: seq<bool> := [true, true, true, true, true, true, true, true]
  const ZERO_SLOTS: seq<Word> := [0, 0, 0, 0, 0, 0, 0, 0]

  function NoChildren(): seq<Option<Node>> { [None, None, None, None, None, None, None, None] }

  /**
   * The OctreeNode constructor: level 0, size 0, dirty, not optimised, and
   * (because isLeaf starts false) an internal payload with no children.
   */
  function NewOctreeNode(): (n: Node)
    ensures n.body.Internal? && n.level == 0 && n.size == 0 && n.position == IVec3(0, 0, 0)
    ensures n.needsUpdate && !n.isOptimized && n.optimizedValue == 0
    ensures |n.body.childMask| == 8 && |n.body.children| == 8
    ensures forall i :: 0 <= i < 8 ==> !n.body.childMask[i] && n.body.children[i] == None
  {
    Node(IVec3(0, 0, 0), 0, 0, true, false, 0, Internal(NO_BITS, NoChildren()))
  }

  /**
   * A constructed node on which the caller then sets isLeaf. The payload was
   * built as an empty InternalData, and the source goes on to use the union's
   * LeafData member, which was never constructed; the model reads that as a
   * LeafData with no data and no runs.
   */
  function MakeLeaf(n: Node): Node
  {
    n.(body := Leaf([], []))
  }

  /** The node findNode and initialize create: a fresh node placed, sized and turned into a leaf. */
  function NewLeaf(position: IVec3, size: nat, level: nat): (n: Node)
    ensures n.body == Leaf([], []) && n.position == position && n.size == size && n.level == level
    ensures n.needsUpdate && !n.isOptimized
  {
    MakeLeaf(NewOctreeNode().(position := position, size := size, level := level))
  }

  /** The root that initialize and findNode(create) make: a full-size leaf at the origin. */
  function RootLeaf(): Node
  {
    NewLeaf(IVec3(0, 0, 0), SizeAt(0), 0)
  }

  /** `(v.x & 1) | (v.y & 1) << 1 | (v.z & 1) << 2`. */
  function Octant(v: IVec3): (i: nat)
    ensures i < 8
  {
    LowBit(v.x) + 2 * LowBit(v.y) + 4 * LowBit(v.z)
  }

  /** `ivec3(i & 1 ? s : 0, i & 2 ? s : 0, i & 4 ? s : 0)`. */
  function OctantOffset(i: nat, s: nat): IVec3
  {
    IVec3(if i % 2 == 1 then s else 0, if (i / 2) % 2 == 1 then s else 0, if (i / 4) % 2 == 1 then s else 0)
  }

  /** The slot of a position inside the leaf it reaches: the parity code of its offset. */
  function Slot(pos: IVec3, n: Node): (k: nat)
    ensures k < 8
  {
    Octant(Sub(pos, n.position))
  }

  predicate HasChild(n: Node, i: nat)
  {
    n.body.Internal? && i < |n.body.childMask| && n.body.childMask[i]
  }

  /** The child pointer in slot i (None when null or when the node is a leaf). */
  function ChildAt(n: Node, i: nat): Option<Node>
  {
    if n.body.Internal? && i < |n.body.children| then n.body.children[i] else None
  }

  /** The node reached from `n` by following child pointers along `p`. */
  function NodeAt(n: Node, p: Path): Option<Node>
    decreases |p|
  {
    if p == [] then Some(n)
    else if ChildAt(n, p[0]).Some? then NodeAt(ChildAt(n, p[0]).value, p[1..])
    else None
  }

  /** `n` with the node at `p` replaced by `m`. */
  function ReplaceAt(n: Node, p: Path, m: Node): Node
    requires NodeAt(n, p).Some?
    decreases |p|
  {
    if p == [] then m
    else n.(body := n.body.(children := n.body.children[p[0] := Some(ReplaceAt(ChildAt(n, p[0]).value, p[1..], m))]))
  }

  /** `n` with child slot i set to `c` and mask bit i set. */
  function WithChild(n: Node, i: nat, c: Node): Node
    requires n.body.Internal? && i < |n.body.childMask| && i < |n.body.children|
  {
    n.(body := Internal(n.body.childMask[i := true], n.body.children[i := Some(c)]))
  }

  /**
   * Tree invariants kept by every World operation: levels count the depth,
   * sizes halve per level, children sit at their octant offset, the mask bit
   * is set exactly for the present children, internal nodes are above
   * MAX_LEVEL and leaf data is empty or has 8 slots.
   */
  ghost predicate WellFormed(n: Node)
  {
    n.level <= MAX_LEVEL && n.size == SizeAt(n.level) &&
    match n.body
    case Leaf(data, _) => |data| == 0 || |data| == 8
    case Internal(mask, children) =>
      n.level < MAX_LEVEL && |mask| == 8 && |children| == 8 &&
      forall i :: 0 <= i < 8 ==>
        (mask[i] <==> children[i].Some?) &&
        (children[i].Some? ==>
           children[i].value.level == n.level + 1 &&
           children[i].value.position == Add(n.position, OctantOffset(i, SizeAt(n.level + 1))) &&
           WellFormed(children[i].value))
  }

  /** A World's root: well formed, at level 0 and at the origin. */
  ghost predicate ValidRoot(root: Option<Node>)
  {
    root.Some? ==> WellFormed(root.value) && root.value.level == 0 && root.value.position == IVec3(0, 0, 0)
  }

  // ---------------------------------------------------------------------------
  // The addressing descent of findNode.

  /** Where the descent loop of findNode ends. */
  datatype Descent =
    | Reached(path: Path)            // the loop stopped at this node (a leaf, or MAX_LEVEL)
    | Missing(path: Path, index: nat) // the node at `path` has no child `index`
    | NullChild(path: Path)          // the mask bit is set but the child pointer is null

  function Extend(i: nat, d: Descent): Descent
  {
    match d
    case Reached(p) => Reached([i] + p)
    case Missing(p, k) => Missing([i] + p, k)
    case NullChild(p) => NullChild([i] + p)
  }

  /** The octant the loop picks at a node visited at `level`: `(pos - node.position) / size`, size already halved. */
  function ChildIndex(n: Node, pos: IVec3, level: nat): (i: nat)
    requires level < MAX_LEVEL
    ensures i < 8
  {
    Octant(TDivVec(Sub(pos, n.position), SizeAt(level + 1)))
  }

  /** The loop `while (current && !current->isLeaf && level < MAX_LEVEL)` from a node at `level`. */
  function Descend(n: Node, pos: IVec3, level: nat): (d: Descent)
    requires level <= MAX_LEVEL
    ensures |d.path| <= MAX_LEVEL - level
    decreases MAX_LEVEL - level
  {
    if n.body.Leaf? || level >= MAX_LEVEL then Reached([])
    else
      var i := ChildIndex(n, pos, level);
      if !HasChild(n, i) then Missing([], i)
      else if ChildAt(n, i).None? then NullChild([i])
      else Extend(i, Descend(ChildAt(n, i).value, pos, level + 1))
  }

  /** The const findNode: the reached node's path, or None where the loop returns null. */
  function Lookup(root: Option<Node>, pos: IVec3): (r: Option<Path>)
    ensures r.Some? ==> root.Some? && Descend(root.value, pos, 0) == Reached(r.value)
    ensures r.None? ==> root.None? || !Descend(root.value, pos, 0).Reached?
  {
    if root.None? then None
    else match Descend(root.value, pos, 0)
      case Reached(p) => Some(p)
      case Missing(_, _) => None
      case NullChild(_) => None
  }

  /** The tree after findNode(pos, true) and the node it returns (None for null). */
  function FindOrCreate(root: Option<Node>, pos: IVec3): (Option<Node>, Option<Path>)
  {
    if root.None? then (Some(RootLeaf()), Some([]))
    else
      var t := root.value;
      match Descend(t, pos, 0)
      case Reached(p) => (root, Some(p))
      case NullChild(_) => (root, None)
      case Missing(p, i) =>
        if NodeAt(t, p).Some? && NodeAt(t, p).value.body.Internal?
           && i < |NodeAt(t, p).value.body.childMask| && i < |NodeAt(t, p).value.body.children|
           && |p| < MAX_LEVEL
        then
          var parent := NodeAt(t, p).value;
          (Some(ReplaceAt(t, p, WithChild(parent, i, GrownChild(parent, p, i)))), Some(p + [i]))
        else (root, None)
  }

  /** getVoxel: the unpacked slot of the reached leaf, or {0,0} when there is no node or no data. */
  function GetVoxelAt(root: Option<Node>, pos: IVec3): (v: Voxel)
    requires ValidRoot(root)
    ensures v.voxelType < 256 && v.color % 256 == 0
  {
    match Lookup(root, pos)
    case None => Voxel(0, 0)
    case Some(p) =>
      var n := NodeAt(root.value, p);
      if n.None? || !n.value.body.Leaf? || |n.value.body.data| < 8 then Voxel(0, 0)
      else
        var packed := n.value.body.data[Slot(pos, n.value)];
        Voxel(LowByte(packed), HighBytes(packed))
  }

  /** The node setVoxel leaves behind: data sized to 8 when empty, slot written, marked dirty. */
  function WriteSlot(n: Node, pos: IVec3, v: Voxel): Node
    requires n.body.Leaf?
  {
    var data := if n.body.data == [] then ZERO_SLOTS else n.body.data;
    if Slot(pos, n) < |data| then
      n.(needsUpdate := true, body := n.body.(data := data[Slot(pos, n) := Pack(v)]))
    else n.(needsUpdate := true, body := n.body.(data := data))
  }

  /** The tree after setVoxel(pos, v). */
  function SetVoxelTree(root: Option<Node>, pos: IVec3, v: Voxel): Option<Node>
  {
    var (t, found) := FindOrCreate(root, pos);
    if found.None? || t.None? || NodeAt(t.value, found.value).None? || !NodeAt(t.value, found.value).value.body.Leaf? then t
    else Some(ReplaceAt(t.value, found.value, WriteSlot(NodeAt(t.value, found.value).value, pos, v)))
  }

  // ---------------------------------------------------------------------------
  // Facts about paths, replacement and the descent.

  /** The descent from `n` at `level` follows `p`: each step picks p's octant through a set mask bit. */
  ghost predicate Through(n: Node, p: Path, pos: IVec3, level: nat)
    decreases |p|
  {
    p == [] ||
    (level < MAX_LEVEL && n.body.Internal? && p[0] == ChildIndex(n, pos, level) && HasChild(n, p[0]) &&
     ChildAt(n, p[0]).Some? && Through(ChildAt(n, p[0]).value, p[1..], pos, level + 1))
  }

  function Prepend(p: Path, d: Descent): Descent
  {
    match d
    case Reached(q) => Reached(p + q)
    case Missing(q, k) => Missing(p + q, k)
    case NullChild(q) => NullChild(p + q)
  }

  lemma PrependFacts(i: nat, p: Path, d: Descent)
    ensures Prepend([], d) == d
    ensures Extend(i, Prepend(p, d)) == Prepend([i] + p, d)
  {
    match d
    case Reached(q) => assert [] + q == q; assert [i] + (p + q) == ([i] + p) + q;
    case Missing(q, k) => assert [] + q == q; assert [i] + (p + q) == ([i] + p) + q;
    case NullChild(q) => assert [] + q == q; assert [i] + (p + q) == ([i] + p) + q;
  }

  /** A path the descent follows leads to a node, no deeper than MAX_LEVEL. */
  lemma {:induction false} ThroughReaches(n: Node, p: Path, pos: IVec3, level: nat)
    requires level <= MAX_LEVEL && Through(n, p, pos, level)
    ensures NodeAt(n, p).Some? && level + |p| <= MAX_LEVEL
    decreases |p|
  {
    if p != [] {
      ThroughReaches(ChildAt(n, p[0]).value, p[1..], pos, level + 1);
      assert NodeAt(n, p) == NodeAt(ChildAt(n, p[0]).value, p[1..]);
    }
  }

  /** Along a path the descent follows, the descent is that path then the descent from its end node m. */
  lemma {:induction false} ThroughDescends(n: Node, p: Path, pos: IVec3, level: nat, m: Node, k: nat)
    requires k <= MAX_LEVEL && k == level + |p| && Through(n, p, pos, level) && NodeAt(n, p) == Some(m)
    ensures Descend(n, pos, level) == Prepend(p, Descend(m, pos, k))
    decreases |p|
  {
    if p == [] {
      PrependFacts(0, [], Descend(n, pos, level));
    } else {
      var c := ChildAt(n, p[0]).value;
      ThroughDescends(c, p[1..], pos, level + 1, m, k);
      DescendStep(n, pos, level, p[0]);
      PrependExtended(Descend(n, pos, level), Descend(c, pos, level + 1), Descend(m, pos, k), p);
    }
  }

  /** The same node and level give the same descent. */
  lemma DescendCongruent(m1: Node, m2: Node, pos: IVec3, k1: nat, k2: nat)
    requires m1 == m2 && k1 == k2 <= MAX_LEVEL
    ensures Descend(m1, pos, k1) == Descend(m2, pos, k2)
  {
  }

  /** A step into p[0] followed by the descent along p[1..] is the descent along p. */
  lemma PrependExtended(dn: Descent, dc: Descent, below: Descent, p: Path)
    requires p != [] && dn == Extend(p[0], dc) && dc == Prepend(p[1..], below)
    ensures dn == Prepend(p, below)
  {
    PrependFacts(p[0], p[1..], below);
    assert [p[0]] + p[1..] == p;
  }

  /** One step down through a present child extends a descent path below it. */
  lemma ThroughStep(n: Node, pos: IVec3, level: nat, c: Node, q: Path)
    requires level < MAX_LEVEL && n.body.Internal?
    requires HasChild(n, ChildIndex(n, pos, level)) && ChildAt(n, ChildIndex(n, pos, level)) == Some(c)
    requires Through(c, q, pos, level + 1)
    ensures Through(n, [ChildIndex(n, pos, level)] + q, pos, level)
    ensures NodeAt(n, [ChildIndex(n, pos, level)] + q) == NodeAt(c, q)
  {
    var p := [ChildIndex(n, pos, level)] + q;
    assert p[1..] == q;
  }

  /** Where the descent stops or misses a child, it went through the path it reports. */
  lemma {:induction false} DescendFollowsPath(n: Node, pos: IVec3, level: nat)
    requires level <= MAX_LEVEL
    ensures Descend(n, pos, level).Reached? || Descend(n, pos, level).Missing? ==>
      Through(n, Descend(n, pos, level).path, pos, level)
    decreases MAX_LEVEL - level
  {
    if !(n.body.Leaf? || level >= MAX_LEVEL) {
      var i := ChildIndex(n, pos, level);
      if HasChild(n, i) && ChildAt(n, i).Some? {
        var c := ChildAt(n, i).value;
        DescendFollowsPath(c, pos, level + 1);
        var d := Descend(c, pos, level + 1);
        assert Descend(n, pos, level) == Extend(i, d);
        if d.Reached? || d.Missing? {
          ThroughStep(n, pos, level, c, d.path);
        }
      }
    }
  }

  /** A descent that reports exactly the prefix it was given added nothing below it. */
  lemma PrependCancels(p: Path, d: Descent)
    requires Prepend(p, d).path == p
    ensures d.path == []
  {
    assert |p + d.path| == |p| + |d.path|;
  }

  /**
   * Where the descent stops or misses a child, it went through the path it
   * reports, and a descent resumed at the end of that path stops (or misses)
   * right there.
   */
  lemma DescendThrough(n: Node, pos: IVec3, level: nat)
    requires level <= MAX_LEVEL
    ensures Descend(n, pos, level).Reached? || Descend(n, pos, level).Missing? ==>
      var p := Descend(n, pos, level).path;
      Through(n, p, pos, level) && NodeAt(n, p).Some? &&
      Descend(NodeAt(n, p).value, pos, level + |p|) ==
        (if Descend(n, pos, level).Reached? then Reached([]) else Missing([], Descend(n, pos, level).index))
  {
    var d := Descend(n, pos, level);
    if d.Reached? || d.Missing? {
      DescendFollowsPath(n, pos, level);
      ThroughReaches(n, d.path, pos, level);
      ThroughDescends(n, d.path, pos, level, NodeAt(n, d.path).value, level + |d.path|);
      var rest := Descend(NodeAt(n, d.path).value, pos, level + |d.path|);
      assert d == Prepend(d.path, rest);
      PrependCancels(d.path, rest);
    }
  }

  lemma {:induction false} NodeAtReplace(n: Node, p: Path, m: Node)
    requires NodeAt(n, p).Some?
    ensures NodeAt(ReplaceAt(n, p, m), p) == Some(m)
    decreases |p|
  {
    if p != [] {
      NodeAtReplace(ChildAt(n, p[0]).value, p[1..], m);
    }
  }

  lemma {:induction false} ReplaceKeepsThrough(n: Node, p: Path, m: Node, pos: IVec3, level: nat)
    requires Through(n, p, pos, level)
    ensures NodeAt(n, p).Some?
    ensures Through(ReplaceAt(n, p, m), p, pos, level)
    decreases |p|
  {
    if p != [] {
      var c := ChildAt(n, p[0]).value;
      ReplaceKeepsThrough(c, p[1..], m, pos, level + 1);
      var r := ReplaceAt(n, p, m);
      assert ChildAt(r, p[0]) == Some(ReplaceAt(c, p[1..], m));
      assert ChildIndex(r, pos, level) == ChildIndex(n, pos, level);
    }
  }

  /** Replacing the node at the end of a descent path keeps the descent up to that node. */
  lemma DescendReplace(n: Node, p: Path, m: Node, pos: IVec3, level: nat)
    requires level <= MAX_LEVEL && Through(n, p, pos, level)
    ensures NodeAt(n, p).Some? && level + |p| <= MAX_LEVEL
    ensures Through(ReplaceAt(n, p, m), p, pos, level)
    ensures Descend(ReplaceAt(n, p, m), pos, level) == Prepend(p, Descend(m, pos, level + |p|))
  {
    ThroughReaches(n, p, pos, level);
    ReplaceKeepsThrough(n, p, m, pos, level);
    NodeAtReplace(n, p, m);
    ThroughDescends(ReplaceAt(n, p, m), p, pos, level, m, level + |p|);
  }

  /** The node at depth |p| of a well-formed tree is well formed and |p| levels below. */
  lemma {:induction false} NodeAtWellFormed(n: Node, p: Path)
    requires WellFormed(n) && NodeAt(n, p).Some?
    ensures WellFormed(NodeAt(n, p).value) && NodeAt(n, p).value.level == n.level + |p|
    decreases |p|
  {
    if p != [] {
      NodeAtWellFormed(ChildAt(n, p[0]).value, p[1..]);
    }
  }

  /** Putting a well-formed node with the same level and position in place of another keeps the tree well formed. */
  lemma {:induction false} ReplaceWellFormed(n: Node, p: Path, m: Node)
    requires WellFormed(n) && NodeAt(n, p).Some? && WellFormed(m)
    requires m.level == NodeAt(n, p).value.level && m.position == NodeAt(n, p).value.position
    ensures WellFormed(ReplaceAt(n, p, m))
    ensures ReplaceAt(n, p, m).level == n.level && ReplaceAt(n, p, m).position == n.position
    decreases |p|
  {
    if p != [] {
      var c := ChildAt(n, p[0]).value;
      ReplaceWellFormed(c, p[1..], m);
      var r := ReplaceAt(n, p, m);
      assert r.body.Internal? && |r.body.children| == 8;
      forall i | 0 <= i < 8
        ensures (r.body.childMask[i] <==> r.body.children[i].Some?)
        ensures r.body.children[i].Some? ==>
          r.body.children[i].value.level == r.level + 1 &&
          r.body.children[i].value.position == Add(r.position, OctantOffset(i, SizeAt(r.level + 1))) &&
          WellFormed(r.body.children[i].value)
      {
      }
    }
  }

  lemma {:induction false} ReplaceAtConcat(n: Node, p: Path, i: nat, a: Node, b: Node)
    requires NodeAt(n, p).Some?
    requires NodeAt(a, [i]).Some?
    ensures NodeAt(ReplaceAt(n, p, a), p + [i]).Some?
    ensures ReplaceAt(ReplaceAt(n, p, a), p + [i], b) == ReplaceAt(n, p, ReplaceAt(a, [i], b))
    decreases |p|
  {
    NodeAtReplace(n, p, a);
    if p == [] {
      assert p + [i] == [i];
    } else {
      var c := ChildAt(n, p[0]).value;
      ReplaceAtConcat(c, p[1..], i, a, b);
      assert (p + [i])[0] == p[0] && (p + [i])[1..] == p[1..] + [i];
      NodeAtPrefix(ReplaceAt(n, p, a), p, [i]);
      var ra := ReplaceAt(n, p, a);
      assert ChildAt(ra, p[0]) == Some(ReplaceAt(c, p[1..], a));
      var lhs := ReplaceAt(ra, p + [i], b);
      assert lhs == ra.(body := ra.body.(children := ra.body.children[p[0] := Some(ReplaceAt(ReplaceAt(c, p[1..], a), p[1..] + [i], b))]));
      assert ra.body.children[p[0] := Some(ReplaceAt(c, p[1..], ReplaceAt(a, [i], b)))]
          == n.body.children[p[0] := Some(ReplaceAt(c, p[1..], ReplaceAt(a, [i], b)))];
    }
  }

  lemma {:induction false} NodeAtPrefix(n: Node, p: Path, q: Path)
    requires NodeAt(n, p).Some?
    ensures NodeAt(n, p + q) == NodeAt(NodeAt(n, p).value, q)
    decreases |p|
  {
    if p == [] {
      assert p + q == q;
    } else {
      assert (p + q)[0] == p[0] && (p + q)[1..] == p[1..] + q;
      NodeAtPrefix(ChildAt(n, p[0]).value, p[1..], q);
    }
  }

  /** In a well-formed tree the mask bit of a missing child is clear, so the descent never meets a null child. */
  lemma {:induction false} NoNullChild(n: Node, pos: IVec3, level: nat)
    requires WellFormed(n) && n.level == level
    ensures !Descend(n, pos, level).NullChild?
    decreases MAX_LEVEL - level
  {
    if !(n.body.Leaf? || level >= MAX_LEVEL) {
      var i := ChildIndex(n, pos, level);
      if HasChild(n, i) {
        NoNullChild(ChildAt(n, i).value, pos, level + 1);
      }
    }
  }

  /** The node where a descent through a well-formed tree ends: a leaf, or an internal node missing child `index`. */
  lemma DescentEnd(n: Node, pos: IVec3, level: nat)
    requires WellFormed(n) && n.level == level
    ensures var d := Descend(n, pos, level);
      (d.Reached? || d.Missing?) && NodeAt(n, d.path).Some? &&
      WellFormed(NodeAt(n, d.path).value) && NodeAt(n, d.path).value.level == level + |d.path| &&
      Descend(NodeAt(n, d.path).value, pos, level + |d.path|) == (if d.Reached? then Reached([]) else Missing([], d.index))
  {
    NoNullChild(n, pos, level);
    DescendThrough(n, pos, level);
    NodeAtWellFormed(n, Descend(n, pos, level).path);
  }

  /** A node whose own descent stops at once is a leaf. */
  lemma ReachedLeaf(m: Node, pos: IVec3)
    requires WellFormed(m) && Descend(m, pos, m.level) == Reached([])
    ensures m.body.Leaf?
  {
  }

  /** A node whose own descent misses child i is internal, above MAX_LEVEL, and has no child i. */
  lemma MissingInternal(m: Node, pos: IVec3, i: nat)
    requires WellFormed(m) && Descend(m, pos, m.level) == Missing([], i)
    ensures m.body.Internal? && m.level < MAX_LEVEL && i < 8 && i == ChildIndex(m, pos, m.level)
    ensures !m.body.childMask[i] && m.body.children[i].None?
  {
  }

  /** The leaf setVoxel writes is still a well-formed leaf in the same place, with the slot set. */
  lemma WriteSlotFacts(n: Node, pos: IVec3, v: Voxel)
    requires WellFormed(n) && n.body.Leaf?
    ensures var w := WriteSlot(n, pos, v);
      WellFormed(w) && w.body.Leaf? && w.level == n.level && w.position == n.position &&
      |w.body.data| == 8 && w.body.data[Slot(pos, w)] == Pack(v) && w.needsUpdate
  {
  }

  lemma WithChildWellFormed(n: Node, i: nat, c: Node)
    requires WellFormed(n) && n.body.Internal? && i < 8 && WellFormed(c)
    requires c.level == n.level + 1 && c.position == Add(n.position, OctantOffset(i, SizeAt(n.level + 1)))
    ensures WellFormed(WithChild(n, i, c))
  {
    var r := WithChild(n, i, c);
    forall j | 0 <= j < 8
      ensures (r.body.childMask[j] <==> r.body.children[j].Some?)
      ensures r.body.children[j].Some? ==>
        r.body.children[j].value.level == r.level + 1 &&
        r.body.children[j].value.position == Add(r.position, OctantOffset(j, SizeAt(r.level + 1))) &&
        WellFormed(r.body.children[j].value)
    {
    }
  }

  /** The leaf findNode(create) hangs below an internal node at depth |p| of a valid tree. */
  function GrownChild(m: Node, p: Path, i: nat): Node
    requires |p| < MAX_LEVEL
  {
    NewLeaf(Add(m.position, OctantOffset(i, SizeAt(|p| + 1))), SizeAt(|p| + 1), |p| + 1)
  }

  /** Adding the missing child keeps a valid tree valid and makes the new leaf reachable at p + [i]. */
  lemma GrowFacts(t: Node, p: Path, i: nat)
    requires WellFormed(t) && t.level == 0 && NodeAt(t, p).Some?
    requires var m := NodeAt(t, p).value;
      WellFormed(m) && m.body.Internal? && m.level == |p| && |p| < MAX_LEVEL && i < 8
    ensures var m := NodeAt(t, p).value;
      var t' := ReplaceAt(t, p, WithChild(m, i, GrownChild(m, p, i)));
      WellFormed(t') && t'.level == 0 && t'.position == t.position &&
      NodeAt(t', p + [i]) == Some(GrownChild(m, p, i))
  {
    var m := NodeAt(t, p).value;
    var c := GrownChild(m, p, i);
    WithChildWellFormed(m, i, c);
    ReplaceWellFormed(t, p, WithChild(m, i, c));
    NodeAtReplace(t, p, WithChild(m, i, c));
    NodeAtPrefix(ReplaceAt(t, p, WithChild(m, i, c)), p, [i]);
  }

  lemma FindOrCreateReached(t: Node, pos: IVec3)
    requires ValidRoot(Some(t)) && Descend(t, pos, 0).Reached?
    ensures var p := Descend(t, pos, 0).path;
      FindOrCreate(Some(t), pos) == (Some(t), Some(p)) &&
      NodeAt(t, p).Some? && NodeAt(t, p).value.body.Leaf? &&
      WellFormed(NodeAt(t, p).value) && |p| == NodeAt(t, p).value.level
  {
    var d := Descend(t, pos, 0);
    var p := d.path;
    DescentEnd(t, pos, 0);
    var m := NodeAt(t, p).value;
    assert Descend(m, pos, 0 + |p|) == Reached([]);
    assert m.level == 0 + |p|;
    ReachedLeaf(m, pos);
    assert FindOrCreate(Some(t), pos) == (Some(t), Some(p));
  }

  /** The node where the descent misses child i is an internal node at depth |p| above MAX_LEVEL. */
  lemma MissingParent(t: Node, pos: IVec3, p: Path, i: nat)
    requires ValidRoot(Some(t)) && Descend(t, pos, 0) == Missing(p, i)
    ensures NodeAt(t, p).Some? && |p| < MAX_LEVEL && i < 8
    ensures var m := NodeAt(t, p).value;
      WellFormed(m) && m.level == |p| && m.body.Internal? && |m.body.childMask| == 8 && |m.body.children| == 8
  {
    DescentEnd(t, pos, 0);
    var m := NodeAt(t, p).value;
    assert WellFormed(m) && m.level == |p| && Descend(m, pos, |p|) == Missing([], i);
    MissingInternal(m, pos, i);
  }

  lemma FindOrCreateGrows(t: Node, pos: IVec3, p: Path, i: nat)
    requires Descend(t, pos, 0) == Missing(p, i) && NodeAt(t, p).Some? && |p| < MAX_LEVEL
    requires var m := NodeAt(t, p).value;
      m.body.Internal? && i < |m.body.childMask| && i < |m.body.children|
    ensures var m := NodeAt(t, p).value;
      var t' := ReplaceAt(t, p, WithChild(m, i, GrownChild(m, p, i)));
      FindOrCreate(Some(t), pos) == (Some(t'), Some(p + [i]))
  {
  }

  lemma FindOrCreateMissing(t: Node, pos: IVec3, p: Path, i: nat)
    requires ValidRoot(Some(t)) && Descend(t, pos, 0) == Missing(p, i)
    ensures NodeAt(t, p).Some? && |p| < MAX_LEVEL && i < 8
    ensures NodeAt(t, p).value.body.Internal? && |NodeAt(t, p).value.body.childMask| == 8 &&
            |NodeAt(t, p).value.body.children| == 8
    ensures var m := NodeAt(t, p).value;
      var t' := ReplaceAt(t, p, WithChild(m, i, GrownChild(m, p, i)));
      FindOrCreate(Some(t), pos) == (Some(t'), Some(p + [i])) &&
      ValidRoot(Some(t')) && NodeAt(t', p + [i]) == Some(GrownChild(m, p, i))
  {
    MissingParent(t, pos, p, i);
    FindOrCreateGrows(t, pos, p, i);
    GrowFacts(t, p, i);
  }

  /** findNode(pos, true) keeps the tree valid and returns a leaf of it (never null on a valid tree). */
  lemma FindOrCreateFacts(root: Option<Node>, pos: IVec3)
    requires ValidRoot(root)
    ensures FindOrCreate(root, pos).0.Some? && FindOrCreate(root, pos).1.Some?
    ensures var t := FindOrCreate(root, pos).0.value;
      var found := FindOrCreate(root, pos).1.value;
      ValidRoot(Some(t)) && NodeAt(t, found).Some? && NodeAt(t, found).value.body.Leaf? &&
      WellFormed(NodeAt(t, found).value) && |found| == NodeAt(t, found).value.level
  {
    if root.Some? {
      NoNullChild(root.value, pos, 0);
      if Descend(root.value, pos, 0).Reached? {
        FindOrCreateReached(root.value, pos);
      } else {
        FindOrCreateMissing(root.value, pos, Descend(root.value, pos, 0).path, Descend(root.value, pos, 0).index);
      }
    }
  }

  /** setVoxel keeps the tree valid. */
  lemma SetVoxelValid(root: Option<Node>, pos: IVec3, v: Voxel)
    requires ValidRoot(root)
    ensures ValidRoot(SetVoxelTree(root, pos, v))
  {
    FindOrCreateFacts(root, pos);
    var t, found := FindOrCreate(root, pos).0.value, FindOrCreate(root, pos).1.value;
    var leaf := NodeAt(t, found).value;
    WriteSlotFacts(leaf, pos, v);
    ReplaceWellFormed(t, found, WriteSlot(leaf, pos, v));
  }

  /** Reading back a leaf the lookup reaches whose slot holds a packed voxel. */
  lemma ReadWritten(t: Node, pos: IVec3, p: Path, w: Node, v: Voxel)
    requires ValidRoot(Some(t)) && Lookup(Some(t), pos) == Some(p) && NodeAt(t, p) == Some(w)
    requires w.body.Leaf? && |w.body.data| == 8 && w.body.data[Slot(pos, w)] == Pack(v)
    ensures GetVoxelAt(Some(t), pos) == Voxel(LowByte(v.voxelType), HighBytes(v.color))
  {
  }

  lemma SetTreeReached(t: Node, pos: IVec3, v: Voxel, p: Path)
    requires ValidRoot(Some(t)) && Descend(t, pos, 0) == Reached(p)
    ensures NodeAt(t, p).Some? && NodeAt(t, p).value.body.Leaf?
    ensures SetVoxelTree(Some(t), pos, v) == Some(ReplaceAt(t, p, WriteSlot(NodeAt(t, p).value, pos, v)))
  {
    FindOrCreateReached(t, pos);
  }

  /** Putting a leaf at the end of the descent path makes the descent stop there. */
  lemma LookupReplacedLeaf(t: Node, pos: IVec3, p: Path, w: Node)
    requires Descend(t, pos, 0) == Reached(p) && w.body.Leaf?
    ensures NodeAt(t, p).Some?
    ensures Lookup(Some(ReplaceAt(t, p, w)), pos) == Some(p)
  {
    DescendThrough(t, pos, 0);
    DescendReplace(t, p, w, pos, 0);
    assert Descend(w, pos, |p|) == Reached([]);
    assert p + [] == p;
  }

  /** setVoxel where the descent reaches a leaf: that leaf is rewritten in place and still reached. */
  lemma SetReached(t: Node, pos: IVec3, v: Voxel, p: Path)
    requires ValidRoot(Some(t)) && Descend(t, pos, 0) == Reached(p)
    ensures NodeAt(t, p).Some? && NodeAt(t, p).value.body.Leaf?
    ensures var w := WriteSlot(NodeAt(t, p).value, pos, v);
      SetVoxelTree(Some(t), pos, v) == Some(ReplaceAt(t, p, w)) &&
      Lookup(Some(ReplaceAt(t, p, w)), pos) == Some(p) && NodeAt(ReplaceAt(t, p, w), p) == Some(w)
  {
    SetTreeReached(t, pos, v, p);
    var w := WriteSlot(NodeAt(t, p).value, pos, v);
    LookupReplacedLeaf(t, pos, p, w);
    NodeAtReplace(t, p, w);
  }

  /** The descent into the parent once the new leaf hangs in slot i stops at that leaf. */
  lemma DescendIntoNewChild(m: Node, pos: IVec3, level: nat, i: nat, w: Node)
    requires level <= MAX_LEVEL && Descend(m, pos, level) == Missing([], i) && w.body.Leaf?
    requires m.body.Internal? ==> |m.body.childMask| == 8 && |m.body.children| == 8
    ensures m.body.Internal? && i < |m.body.childMask| && i < |m.body.children|
    ensures Descend(WithChild(m, i, w), pos, level) == Reached([i])
  {
    assert !(m.body.Leaf? || level >= MAX_LEVEL);
    var j := ChildIndex(m, pos, level);
    if HasChild(m, j) && ChildAt(m, j).Some? {
      assert false;
    }
    assert !HasChild(m, j) && j == i;
    var r := WithChild(m, i, w);
    assert ChildIndex(r, pos, level) == i && HasChild(r, i) && ChildAt(r, i) == Some(w);
    assert Descend(w, pos, level + 1) == Reached([]);
  }

  /** Replacing a just-added child is adding the replacement instead. */
  lemma ReplaceNewChild(m: Node, i: nat, c: Node, w: Node)
    requires m.body.Internal? && i < |m.body.childMask| && i < |m.body.children|
    ensures NodeAt(WithChild(m, i, c), [i]) == Some(c)
    ensures ReplaceAt(WithChild(m, i, c), [i], w) == WithChild(m, i, w)
  {
    var r := WithChild(m, i, c);
    assert [i][0] == i && [i][1..] == [];
    assert ChildAt(r, i) == Some(c);
    assert ReplaceAt(r, [i], w) == r.(body := r.body.(children := r.body.children[i := Some(ReplaceAt(c, [], w))]));
    assert r.body.children[i := Some(w)] == m.body.children[i := Some(w)];
  }

  lemma SetTreeMissing(t: Node, pos: IVec3, v: Voxel, p: Path, i: nat)
    requires ValidRoot(Some(t)) && Descend(t, pos, 0) == Missing(p, i)
    ensures NodeAt(t, p).Some? && |p| < MAX_LEVEL && i < 8
    ensures NodeAt(t, p).value.body.Internal? && |NodeAt(t, p).value.body.childMask| == 8 &&
            |NodeAt(t, p).value.body.children| == 8
    ensures var m := NodeAt(t, p).value;
      SetVoxelTree(Some(t), pos, v) == Some(ReplaceAt(t, p, WithChild(m, i, WriteSlot(GrownChild(m, p, i), pos, v))))
  {
    FindOrCreateMissing(t, pos, p, i);
    var m := NodeAt(t, p).value;
    var c := GrownChild(m, p, i);
    var w := WriteSlot(c, pos, v);
    var t1 := ReplaceAt(t, p, WithChild(m, i, c));
    assert SetVoxelTree(Some(t), pos, v) == Some(ReplaceAt(t1, p + [i], w));
    ReplaceAtConcat(t, p, i, WithChild(m, i, c), w);
    ReplaceNewChild(m, i, c, w);
  }

  /** Hanging a leaf in the missing slot makes the descent stop at that leaf. */
  lemma LookupNewChild(t: Node, pos: IVec3, p: Path, i: nat, w: Node)
    requires ValidRoot(Some(t)) && Descend(t, pos, 0) == Missing(p, i) && w.body.Leaf?
    ensures NodeAt(t, p).Some? && i < 8
    ensures NodeAt(t, p).value.body.Internal? && |NodeAt(t, p).value.body.childMask| == 8 &&
            |NodeAt(t, p).value.body.children| == 8
    ensures var t' := ReplaceAt(t, p, WithChild(NodeAt(t, p).value, i, w));
      Lookup(Some(t'), pos) == Some(p + [i]) && NodeAt(t', p + [i]) == Some(w)
  {
    MissingParent(t, pos, p, i);
    var m := NodeAt(t, p).value;
    DescendNewChild(t, pos, p, i, m, w);
    NodeAtReplace(t, p, WithChild(m, i, w));
    NodeAtPrefix(ReplaceAt(t, p, WithChild(m, i, w)), p, [i]);
    ReplaceNewChild(m, i, w, w);
  }

  lemma DescendNewChild(t: Node, pos: IVec3, p: Path, i: nat, m: Node, w: Node)
    requires Descend(t, pos, 0) == Missing(p, i) && w.body.Leaf?
    requires NodeAt(t, p) == Some(m) && m.body.Internal? && |m.body.childMask| == 8 && |m.body.children| == 8 && i < 8
    ensures Descend(ReplaceAt(t, p, WithChild(m, i, w)), pos, 0) == Reached(p + [i])
  {
    DescendMissingAt(t, pos, p, i, m);
    DescendIntoNewChild(m, pos, |p|, i, w);
    DescendReplace(t, p, WithChild(m, i, w), pos, 0);
    DescendCongruent(WithChild(m, i, w), WithChild(m, i, w), pos, 0 + |p|, |p|);
  }

  /** A descent from the root that misses child i below p went through p, and resumes at p's node by missing i. */
  lemma DescendMissingAt(t: Node, pos: IVec3, p: Path, i: nat, m: Node)
    requires Descend(t, pos, 0) == Missing(p, i) && NodeAt(t, p) == Some(m)
    ensures Through(t, p, pos, 0) && |p| <= MAX_LEVEL
    ensures Descend(m, pos, |p|) == Missing([], i)
  {
    DescendFollowsPath(t, pos, 0);
    ThroughReaches(t, p, pos, 0);
    ThroughDescends(t, p, pos, 0, m, |p|);
    PrependOnly(p, Descend(m, pos, |p|), Missing(p, i));
  }

  /** A descent that is p followed by x, and reports p itself, leaves nothing for x but its ending. */
  lemma PrependOnly(p: Path, x: Descent, d: Descent)
    requires Prepend(p, x) == d && d.path == p
    ensures x == (match d case Reached(_) => Reached([]) case Missing(_, k) => Missing([], k) case NullChild(_) => NullChild([]))
  {
    assert |p + x.path| == |p| + |x.path|;
  }

  lemma GetAfterSetReached(t: Node, pos: IVec3, v: Voxel, p: Path)
    requires ValidRoot(Some(t)) && Descend(t, pos, 0) == Reached(p)
    ensures ValidRoot(SetVoxelTree(Some(t), pos, v))
    ensures GetVoxelAt(SetVoxelTree(Some(t), pos, v), pos) == Voxel(LowByte(v.voxelType), HighBytes(v.color))
    ensures Lookup(SetVoxelTree(Some(t), pos, v), pos).Some?
  {
    SetVoxelValid(Some(t), pos, v);
    SetReached(t, pos, v, p);
    FindOrCreateReached(t, pos);
    var w := WriteSlot(NodeAt(t, p).value, pos, v);
    WriteSlotFacts(NodeAt(t, p).value, pos, v);
    ReadWritten(ReplaceAt(t, p, w), pos, p, w, v);
  }

  lemma GetAfterSetMissing(t: Node, pos: IVec3, v: Voxel, p: Path, i: nat)
    requires ValidRoot(Some(t)) && Descend(t, pos, 0) == Missing(p, i)
    ensures ValidRoot(SetVoxelTree(Some(t), pos, v))
    ensures GetVoxelAt(SetVoxelTree(Some(t), pos, v), pos) == Voxel(LowByte(v.voxelType), HighBytes(v.color))
    ensures Lookup(SetVoxelTree(Some(t), pos, v), pos).Some?
  {
    SetVoxelValid(Some(t), pos, v);
    SetTreeMissing(t, pos, v, p, i);
    MissingParent(t, pos, p, i);
    var m := NodeAt(t, p).value;
    var w := WriteSlot(GrownChild(m, p, i), pos, v);
    LookupNewChild(t, pos, p, i, w);
    WriteSlotFacts(GrownChild(m, p, i), pos, v);
    ReadWritten(ReplaceAt(t, p, WithChild(m, i, w)), pos, p + [i], w, v);
  }

  /**
   * After setVoxel(pos, v) on a valid tree, the tree is still valid and
   * getVoxel(pos) returns v's type reduced to its low byte and v's colour with
   * its low byte cleared.
   */
  lemma SetThenGet(root: Option<Node>, pos: IVec3, v: Voxel)
    requires ValidRoot(root)
    ensures ValidRoot(SetVoxelTree(root, pos, v))
    ensures GetVoxelAt(SetVoxelTree(root, pos, v), pos) == Voxel(LowByte(v.voxelType), HighBytes(v.color))
    ensures Lookup(SetVoxelTree(root, pos, v), pos).Some?
  {
    SetVoxelValid(root, pos, v);
    if root.None? {
      var w := WriteSlot(RootLeaf(), pos, v);
      assert SetVoxelTree(root, pos, v) == Some(w);
      ReadWritten(w, pos, [], w, v);
      assert Lookup(Some(w), pos) == Some([]);
    } else {
      NoNullChild(root.value, pos, 0);
      match Descend(root.value, pos, 0)
      case Reached(p) => GetAfterSetReached(root.value, pos, v, p);
      case Missing(p, i) => GetAfterSetMissing(root.value, pos, v, p, i);
    }
  }

  /** Positions with the same coordinate parities fall in the same slot of any node. */
  lemma ParitySlot(a: IVec3, b: IVec3, n: Node)
    requires LowBit(a.x) == LowBit(b.x) && LowBit(a.y) == LowBit(b.y) && LowBit(a.z) == LowBit(b.z)
    ensures Slot(a, n) == Slot(b, n)
  {
    var d, e := Sub(a, n.position), Sub(b, n.position);
    assert LowBit(d.x) == LowBit(e.x) && LowBit(d.y) == LowBit(e.y) && LowBit(d.z) == LowBit(e.z);
  }

  /** Two positions the lookup sends to the same leaf and slot read the same voxel. */
  lemma SameSlotSameVoxel(t: Node, a: IVec3, b: IVec3, p: Path)
    requires ValidRoot(Some(t)) && Lookup(Some(t), a) == Some(p) && Lookup(Some(t), b) == Some(p)
    requires NodeAt(t, p).Some? && Slot(a, NodeAt(t, p).value) == Slot(b, NodeAt(t, p).value)
    ensures GetVoxelAt(Some(t), a) == GetVoxelAt(Some(t), b)
  {
  }

  /**
   * The 8 slots of a leaf are shared by every position the lookup sends to
   * it: after setVoxel(pos, v), any position reaching the same leaf with the
   * same coordinate parities as pos reads v back too.
   */
  lemma SharedSlot(root: Option<Node>, pos: IVec3, v: Voxel, other: IVec3)
    requires ValidRoot(root)
    requires Lookup(SetVoxelTree(root, pos, v), other) == Lookup(SetVoxelTree(root, pos, v), pos)
    requires LowBit(other.x) == LowBit(pos.x) && LowBit(other.y) == LowBit(pos.y) && LowBit(other.z) == LowBit(pos.z)
    ensures ValidRoot(SetVoxelTree(root, pos, v))
    ensures GetVoxelAt(SetVoxelTree(root, pos, v), other) == Voxel(LowByte(v.voxelType), HighBytes(v.color))
  {
    SetThenGet(root, pos, v);
    var t := SetVoxelTree(root, pos, v).value;
    SharedSlotIn(t, pos, other);
  }

  lemma SharedSlotIn(t: Node, pos: IVec3, other: IVec3)
    requires ValidRoot(Some(t)) && Lookup(Some(t), pos).Some? && Lookup(Some(t), other) == Lookup(Some(t), pos)
    requires LowBit(other.x) == LowBit(pos.x) && LowBit(other.y) == LowBit(pos.y) && LowBit(other.z) == LowBit(pos.z)
    ensures GetVoxelAt(Some(t), other) == GetVoxelAt(Some(t), pos)
  {
    LookupLeaf(t, pos);
    var p := Lookup(Some(t), pos).value;
    ParitySlot(pos, other, NodeAt(t, p).value);
    SameSlotSameVoxel(t, pos, other, p);
  }

  /** On a valid tree the lookup either finds nothing or reaches a leaf. */
  lemma LookupLeaf(t: Node, pos: IVec3)
    requires ValidRoot(Some(t))
    ensures Lookup(Some(t), pos).Some? ==>
      NodeAt(t, Lookup(Some(t), pos).value).Some? && NodeAt(t, Lookup(Some(t), pos).value).value.body.Leaf?
  {
    if Lookup(Some(t), pos).Some? {
      var p := Lookup(Some(t), pos).value;
      DescentEnd(t, pos, 0);
      ReachedLeaf(NodeAt(t, p).value, pos);
    }
  }

  /** getVoxel returns {0,0} where no node covers the position or the leaf it reaches holds no data. */
  lemma GetVoxelDefault(t: Node, pos: IVec3)
    requires ValidRoot(Some(t))
    ensures Lookup(Some(t), pos).None? ==> GetVoxelAt(Some(t), pos) == Voxel(0, 0)
    ensures Lookup(Some(t), pos).Some? ==>
      NodeAt(t, Lookup(Some(t), pos).value).Some? && NodeAt(t, Lookup(Some(t), pos).value).value.body.Leaf? &&
      (NodeAt(t, Lookup(Some(t), pos).value).value.body.data == [] ==> GetVoxelAt(Some(t), pos) == Voxel(0, 0))
  {
    LookupLeaf(t, pos);
  }

  // ---------------------------------------------------------------------------
  // countNodes and countNodesByLevel.

  /** The child slot i counts in countNodes: present, and (when activeOnly) its mask bit is set. */
  predicate Counted(b: Body, activeOnly: bool, i: nat)
    requires b.Internal?
  {
    i < |b.children| && b.children[i].Some? && (!activeOnly || (i < |b.childMask| && b.childMask[i]))
  }

  /** countNodes from a node: itself plus, for an internal node, its counted children. */
  function CountNodes(n: Node, activeOnly: bool): (c: nat)
    ensures c >= 1
    ensures n.body.Leaf? ==> c == 1
    decreases n, 1
  {
    1 + (if n.body.Leaf? then 0 else CountChildren(n.body, activeOnly, 0))
  }

  /** The loop over child slots i..7 of countNodes. */
  function CountChildren(b: Body, activeOnly: bool, i: nat): nat
    requires b.Internal?
    decreases b, 0, 8 - i
  {
    if i >= 8 then 0
    else (if Counted(b, activeOnly, i) then CountNodes(b.children[i].value, activeOnly) else 0)
         + CountChildren(b, activeOnly, i + 1)
  }

  /** countNodesByLevel from a node: the nodes at `level` reached through set mask bits. */
  function CountByLevel(n: Node, level: nat): nat
    decreases n, 1
  {
    (if n.level == level then 1 else 0) + (if n.body.Leaf? then 0 else CountChildrenByLevel(n.body, level, 0))
  }

  function CountChildrenByLevel(b: Body, level: nat, i: nat): nat
    requires b.Internal?
    decreases b, 0, 8 - i
  {
    if i >= 8 then 0
    else (if Counted(b, true, i) then CountByLevel(b.children[i].value, level) else 0)
         + CountChildrenByLevel(b, level, i + 1)
  }

  /** World::countNodes. */
  function CountTree(root: Option<Node>, activeOnly: bool): nat
  {
    if root.None? then 0 else CountNodes(root.value, activeOnly)
  }

  /** World::countNodesByLevel. */
  function CountTreeByLevel(root: Option<Node>, level: nat): nat
  {
    if root.None? then 0 else CountByLevel(root.value, level)
  }

  /** In a well-formed tree every present child has its mask bit set, so both counting modes agree. */
  lemma {:induction false} CountModesAgree(n: Node)
    requires WellFormed(n)
    ensures CountNodes(n, false) == CountNodes(n, true)
    decreases n, 1
  {
    if n.body.Internal? {
      CountModesAgreeFrom(n, 0);
    }
  }

  lemma {:induction false} CountModesAgreeFrom(n: Node, i: nat)
    requires WellFormed(n) && n.body.Internal?
    ensures CountChildren(n.body, false, i) == CountChildren(n.body, true, i)
    decreases n, 0, 8 - i
  {
    if i < 8 {
      if n.body.children[i].Some? {
        CountModesAgree(n.body.children[i].value);
      }
      CountModesAgreeFrom(n, i + 1);
    }
  }

  /** countNodesByLevel summed over the levels below k. */
  function SumLevels(n: Node, k: nat): nat
  {
    if k == 0 then 0 else SumLevels(n, k - 1) + CountByLevel(n, k - 1)
  }

  /** SumLevels summed over the counted children i..7. */
  function SumLevelsChildren(b: Body, i: nat, k: nat): nat
    requires b.Internal?
    decreases 8 - i
  {
    if i >= 8 then 0
    else (if Counted(b, true, i) then SumLevels(b.children[i].value, k) else 0) + SumLevelsChildren(b, i + 1, k)
  }

  lemma {:induction false} SumLevelsChildrenStep(b: Body, i: nat, k: nat)
    requires b.Internal? && k > 0
    ensures SumLevelsChildren(b, i, k) == SumLevelsChildren(b, i, k - 1) + CountChildrenByLevel(b, k - 1, i)
    decreases 8 - i
  {
    if i < 8 {
      SumLevelsChildrenStep(b, i + 1, k);
    }
  }

  lemma {:induction false} SumLevelsChildrenZero(b: Body, i: nat)
    requires b.Internal?
    ensures SumLevelsChildren(b, i, 0) == 0
    decreases 8 - i
  {
    if i < 8 {
      SumLevelsChildrenZero(b, i + 1);
    }
  }

  /** Summing over levels first and over children second gives the same total. */
  lemma {:induction false} SumLevelsSplit(n: Node, k: nat)
    ensures SumLevels(n, k) ==
      (if n.level < k then 1 else 0) + (if n.body.Leaf? then 0 else SumLevelsChildren(n.body, 0, k))
  {
    if k == 0 {
      if n.body.Internal? {
        SumLevelsChildrenZero(n.body, 0);
      }
    } else {
      SumLevelsSplit(n, k - 1);
      assert SumLevels(n, k) == SumLevels(n, k - 1) + CountByLevel(n, k - 1);
      if n.body.Internal? {
        SumLevelsChildrenStep(n.body, 0, k);
        assert CountByLevel(n, k - 1) == (if n.level == k - 1 then 1 else 0) + CountChildrenByLevel(n.body, k - 1, 0);
      } else {
        assert CountByLevel(n, k - 1) == (if n.level == k - 1 then 1 else 0);
      }
    }
  }

  /** Every node of a well-formed tree sits at a level in [0, MAX_LEVEL], so the per-level counts add up to countNodes. */
  lemma {:induction false} LevelCountsSum(n: Node)
    requires WellFormed(n)
    ensures SumLevels(n, MAX_LEVEL + 1) == CountNodes(n, true)
    decreases n, 1
  {
    SumLevelsSplit(n, MAX_LEVEL + 1);
    if n.body.Internal? {
      LevelCountsSumFrom(n, 0);
    }
  }

  lemma {:induction false} LevelCountsSumFrom(n: Node, i: nat)
    requires WellFormed(n) && n.body.Internal?
    ensures SumLevelsChildren(n.body, i, MAX_LEVEL + 1) == CountChildren(n.body, true, i)
    decreases n, 0, 8 - i
  {
    if i < 8 {
      if Counted(n.body, true, i) {
        LevelCountsSum(n.body.children[i].value);
      }
      LevelCountsSumFrom(n, i + 1);
    }
  }

  /** The per-level counts of a world add up to its node count, in both counting modes. */
  lemma CountTreeByLevels(root: Option<Node>)
    requires ValidRoot(root)
    ensures SumTreeLevels(root, MAX_LEVEL + 1) == CountTree(root, true) == CountTree(root, false)
  {
    if root.Some? {
      LevelCountsSum(root.value);
      CountModesAgree(root.value);
    }
  }

  /** countNodesByLevel(0) + ... + countNodesByLevel(k - 1). */
  function SumTreeLevels(root: Option<Node>, k: nat): nat
  {
    if root.None? then 0 else SumLevels(root.value, k)
  }

  // ---------------------------------------------------------------------------
  // subdivideNode.

  /**
   * Child i made by subdivideNode: a fresh node at the octant offset, half the
   * size, one level down, turned into a leaf; when the parent had data its 8
   * slots are all 0 except slot i, which takes the parent's slot i.
   */
  function SplitChild(n: Node, i: nat): (c: Node)
    requires n.body.Leaf? && i < 8 && (n.body.data == [] || i < |n.body.data|)
  {
    var half := n.size / 2;
    var c := NewLeaf(Add(n.position, OctantOffset(i, half)), half, n.level + 1);
    if n.body.data == [] then c else c.(body := Leaf(ZERO_SLOTS[i := n.body.data[i]], []))
  }

  /** The 8 children subdivideNode creates. */
  function SplitChildren(n: Node): (cs: seq<Option<Node>>)
    requires n.body.Leaf? && (n.body.data == [] || |n.body.data| >= 8)
    ensures |cs| == 8 && forall i :: 0 <= i < 8 ==> cs[i] == Some(SplitChild(n, i))
  {
    seq(8, i requires 0 <= i < 8 => Some(SplitChild(n, i)))
  }

  /**
   * subdivideNode on a node value: a no-op unless the node is a leaf above
   * MAX_LEVEL; then it becomes internal with all 8 mask bits and children and
   * is marked dirty. (The source indexes the old data at slots 0..7, so a
   * leaf with 1 to 7 data words is outside its defined behaviour.)
   */
  function Subdivide(n: Node): (r: Node)
    requires n.body.Leaf? ==> n.body.data == [] || |n.body.data| >= 8
  {
    if !n.body.Leaf? || n.level >= MAX_LEVEL then n
    else n.(needsUpdate := true, body := Internal(ALL_BITS, SplitChildren(n)))
  }

  /**
   * What subdivideNode does to a leaf above MAX_LEVEL: every child is a
   * dirty leaf one level down at its octant; each child keeps only its own
   * slot of the parent's data, so the split loses the other 7 slots.
   */
  lemma SubdivideFacts(n: Node)
    requires n.body.Leaf? && n.level < MAX_LEVEL && (n.body.data == [] || |n.body.data| >= 8)
    ensures var r := Subdivide(n);
      r.body.Internal? && r.needsUpdate && r.level == n.level && r.position == n.position && r.size == n.size &&
      r.body.childMask == ALL_BITS && |r.body.children| == 8 &&
      forall i :: 0 <= i < 8 ==>
        r.body.children[i].Some? && r.body.children[i].value.body.Leaf? &&
        r.body.children[i].value.needsUpdate &&
        r.body.children[i].value.level == n.level + 1 &&
        r.body.children[i].value.size == n.size / 2 &&
        r.body.children[i].value.position == Add(n.position, OctantOffset(i, n.size / 2)) &&
        (n.body.data == [] ==> r.body.children[i].value.body.data == []) &&
        (n.body.data != [] ==>
           |r.body.children[i].value.body.data| == 8 &&
           r.body.children[i].value.body.data[i] == n.body.data[i] &&
           forall k :: 0 <= k < 8 && k != i ==> r.body.children[i].value.body.data[k] == 0)
  {
  }

  /** subdivideNode changes nothing but internal-or-bottom-level nodes. */
  lemma SubdivideNoOp(n: Node)
    requires n.body.Leaf? ==> n.body.data == [] || |n.body.data| >= 8
    ensures !n.body.Leaf? || n.level >= MAX_LEVEL <==> Subdivide(n) == n
  {
  }

  /** Subdividing a well-formed node keeps it well formed: halving the size is the next level's size. */
  lemma SubdivideWellFormed(n: Node)
    requires WellFormed(n)
    ensures WellFormed(Subdivide(n))
    ensures Subdivide(n).level == n.level && Subdivide(n).position == n.position
  {
    if n.body.Leaf? && n.level < MAX_LEVEL {
      var r := Subdivide(n);
      assert n.size / 2 == SizeAt(n.level + 1);
      forall i | 0 <= i < 8
        ensures (r.body.childMask[i] <==> r.body.children[i].Some?)
        ensures r.body.children[i].Some? ==>
          r.body.children[i].value.level == r.level + 1 &&
          r.body.children[i].value.position == Add(r.position, OctantOffset(i, SizeAt(r.level + 1))) &&
          WellFormed(r.body.children[i].value)
      {
        assert r.body.children[i] == Some(SplitChild(n, i));
      }
    }
  }

  /** Replacing one counted child changes the count of the child loop by the difference. */
  lemma {:induction false} CountChildrenUpdate(b: Body, k: nat, x: Node, i: nat)
    requires b.Internal? && k < 8 && k < |b.children| && k < |b.childMask| && b.childMask[k] && b.children[k].Some?
    ensures var b' := b.(children := b.children[k := Some(x)]);
      CountChildren(b', true, i) + (if i <= k then CountNodes(b.children[k].value, true) else 0)
        == CountChildren(b, true, i) + (if i <= k then CountNodes(x, true) else 0)
    decreases 8 - i
  {
    if i < 8 {
      CountChildrenUpdate(b, k, x, i + 1);
    }
  }

  /** Replacing the node at p changes countNodes by the difference of the two subtrees' counts. */
  lemma {:induction false} ReplaceCount(t: Node, p: Path, m: Node)
    requires WellFormed(t) && NodeAt(t, p).Some?
    ensures CountNodes(ReplaceAt(t, p, m), true) + CountNodes(NodeAt(t, p).value, true)
         == CountNodes(t, true) + CountNodes(m, true)
    decreases |p|
  {
    if p != [] {
      var c := ChildAt(t, p[0]).value;
      ReplaceCount(c, p[1..], m);
      CountChildrenUpdate(t.body, p[0], ReplaceAt(c, p[1..], m), 0);
    }
  }

  /** A leaf becomes 9 nodes: subdivideNode adds exactly 8 to countNodes when it acts. */
  lemma SubdivideCount(n: Node)
    requires n.body.Leaf? && n.level < MAX_LEVEL && (n.body.data == [] || |n.body.data| >= 8)
    ensures CountNodes(Subdivide(n), true) == CountNodes(n, true) + 8
  {
    var b := Subdivide(n).body;
    assert forall i :: 0 <= i < 8 ==> Counted(b, true, i) && CountNodes(b.children[i].value, true) == 1;
    assert CountChildren(b, true, 7) == 1;
    assert CountChildren(b, true, 6) == 2;
    assert CountChildren(b, true, 5) == 3;
    assert CountChildren(b, true, 4) == 4;
    assert CountChildren(b, true, 3) == 5;
    assert CountChildren(b, true, 2) == 6;
    assert CountChildren(b, true, 1) == 7;
    assert CountChildren(b, true, 0) == 8;
  }

  /** subdivideNode applied to the node at p of a tree. */
  function SubdivideAt(t: Node, p: Path): Node
    requires NodeAt(t, p).Some?
    requires NodeAt(t, p).value.body.Leaf? ==> NodeAt(t, p).value.body.data == [] || |NodeAt(t, p).value.body.data| >= 8
  {
    ReplaceAt(t, p, Subdivide(NodeAt(t, p).value))
  }

  /**
   * Subdividing a node of a valid tree keeps it valid, and raises countNodes
   * by exactly 8 when the node is a leaf above MAX_LEVEL (otherwise by 0).
   */
  lemma SubdivideAtFacts(t: Node, p: Path)
    requires WellFormed(t) && NodeAt(t, p).Some?
    ensures WellFormed(NodeAt(t, p).value)
    ensures WellFormed(SubdivideAt(t, p)) && SubdivideAt(t, p).level == t.level && SubdivideAt(t, p).position == t.position
    ensures CountNodes(SubdivideAt(t, p), true) ==
      CountNodes(t, true) + (if NodeAt(t, p).value.body.Leaf? && NodeAt(t, p).value.level < MAX_LEVEL then 8 else 0)
  {
    var m := NodeAt(t, p).value;
    NodeAtWellFormed(t, p);
    SubdivideWellFormed(m);
    ReplaceWellFormed(t, p, Subdivide(m));
    ReplaceCount(t, p, Subdivide(m));
    if m.body.Leaf? && m.level < MAX_LEVEL {
      SubdivideCount(m);
    }
  }

  // ---------------------------------------------------------------------------
  // optimizeNode and optimizeNodes.

  predicate AllSame(d: seq<Word>)
  {
    forall k :: 0 <= k < |d| ==> d[k] == d[0]
  }

  /**
   * optimizeNode on a node value: only a leaf whose non-empty data is uniform
   * changes. If the uniform word's type byte is 0 the data and runs are
   * cleared and the optimised value is 0; otherwise the word becomes the
   * optimised value and the data stays.
   */
  function Optimize(n: Node): Node
  {
    if !n.body.Leaf? || n.body.data == [] || !AllSame(n.body.data) then n
    else if LowByte(n.body.data[0]) == 0 then n.(isOptimized := true, optimizedValue := 0, body := Leaf([], []))
    else n.(isOptimized := true, optimizedValue := n.body.data[0])
  }

  /** The voxel getVoxel reads from slot k of a node it reaches. */
  function SlotVoxel(n: Node, k: nat): Voxel
  {
    if !n.body.Leaf? || |n.body.data| < 8 || k >= |n.body.data| then Voxel(0, 0)
    else Unpack(n.body.data[k])
  }

  /**
   * optimizeNode never changes the structure of the tree, keeps it well
   * formed, and keeps the type getVoxel reads from every slot; the only voxel
   * it changes is the colour of a uniform all-type-0 leaf, which reads back as {0,0}.
   */
  lemma OptimizeFacts(n: Node)
    requires WellFormed(n)
    ensures var r := Optimize(n);
      WellFormed(r) && r.body.Leaf? == n.body.Leaf? && r.level == n.level && r.position == n.position &&
      r.size == n.size && r.needsUpdate == n.needsUpdate && (n.body.Internal? ==> r == n)
    ensures forall k :: 0 <= k < 8 ==>
      SlotVoxel(Optimize(n), k).voxelType == SlotVoxel(n, k).voxelType &&
      (SlotVoxel(Optimize(n), k) == SlotVoxel(n, k) || SlotVoxel(Optimize(n), k) == Voxel(0, 0))
  {
    var r := Optimize(n);
    forall k | 0 <= k < 8
      ensures SlotVoxel(r, k).voxelType == SlotVoxel(n, k).voxelType
      ensures SlotVoxel(r, k) == SlotVoxel(n, k) || SlotVoxel(r, k) == Voxel(0, 0)
    {
      if n.body.Leaf? && n.body.data != [] && AllSame(n.body.data) && LowByte(n.body.data[0]) == 0 {
        assert n.body.data[k] == n.body.data[0];
      }
    }
  }

  /** The post-order walk of optimizeNodes below a node, with the flag it raises. */
  function OptimizeWalk(n: Node): (r: (Node, bool))
    decreases n, 1
  {
    if n.body.Leaf? then (n, false)
    else
      var walked := OptimizeChildren(n.body, 0);
      var before := n.(body := n.body.(children := walked.0));
      var after := Optimize(before);
      (after, walked.1 || (after.body.Leaf? && !before.body.Leaf?))
  }

  /** The walk over child slots i..7 (only slots whose mask bit is set are visited). */
  function OptimizeChildren(b: Body, i: nat): (r: (seq<Option<Node>>, bool))
    requires b.Internal?
    ensures |r.0| == |b.children|
    decreases b, 0, 8 - i
  {
    if i >= 8 || i >= |b.children| then (b.children, false)
    else
      var rest := OptimizeChildren(b, i + 1);
      if i < |b.childMask| && b.childMask[i] && b.children[i].Some? then
        var c := OptimizeWalk(b.children[i].value);
        (rest.0[i := Some(c.0)], c.1 || rest.1)
      else rest
  }

  /** optimizeNodes: the walk from the root; false with no root. */
  function OptimizeTree(root: Option<Node>): (Option<Node>, bool)
  {
    if root.None? then (None, false) else (Some(OptimizeWalk(root.value).0), OptimizeWalk(root.value).1)
  }

  /**
   * optimizeNodes only visits internal nodes, and optimizeNode leaves those
   * alone, so the walk changes no node and always reports false.
   */
  lemma {:induction false} OptimizeWalkNoOp(n: Node)
    ensures OptimizeWalk(n) == (n, false)
    decreases n, 1
  {
    if n.body.Internal? {
      OptimizeChildrenNoOp(n.body, 0);
      assert n.(body := n.body.(children := n.body.children)) == n;
    }
  }

  lemma {:induction false} OptimizeChildrenNoOp(b: Body, i: nat)
    requires b.Internal?
    ensures OptimizeChildren(b, i) == (b.children, false)
    decreases b, 0, 8 - i
  {
    if i < 8 && i < |b.children| {
      OptimizeChildrenNoOp(b, i + 1);
      if i < |b.childMask| && b.childMask[i] && b.children[i].Some? {
        OptimizeWalkNoOp(b.children[i].value);
        assert b.children[i := Some(b.children[i].value)] == b.children;
      }
    }
  }

  lemma OptimizeTreeNoOp(root: Option<Node>)
    ensures OptimizeTree(root) == (root, false)
  {
    if root.Some? {
      OptimizeWalkNoOp(root.value);
    }
  }

  // ---------------------------------------------------------------------------
  // updateLOD.

  /**
   * The level a node should have, clamped to [0, MAX_LEVEL]. `lod` stands for
   * the float computation log2(distance / (2 * size)) cast to an unsigned
   * integer, as a function of the node's position and size; its result is a
   * nat because the cast of a negative logarithm is undefined.
   */
  function DesiredLevel(lod: (IVec3, nat) -> nat, n: Node): (d: nat)
    ensures d <= MAX_LEVEL
    ensures lod(n.position, n.size) <= MAX_LEVEL ==> d == lod(n.position, n.size)
  {
    if lod(n.position, n.size) > MAX_LEVEL then MAX_LEVEL else lod(n.position, n.size)
  }

  /** The split-or-merge step at one node: the "merge" calls optimizeNode on an internal node. */
  function LodStep(lod: (IVec3, nat) -> nat, n: Node): Node
    requires WellFormed(n)
  {
    var d := DesiredLevel(lod, n);
    if d > n.level && !n.body.Leaf? then Optimize(n)
    else if d < n.level && n.body.Leaf? then Subdivide(n)
    else n
  }

  lemma LodStepWellFormed(lod: (IVec3, nat) -> nat, n: Node)
    requires WellFormed(n)
    ensures WellFormed(LodStep(lod, n)) && LodStep(lod, n).level == n.level && LodStep(lod, n).position == n.position
  {
    OptimizeFacts(n);
    SubdivideWellFormed(n);
  }

  /** The recursive updateNode: the step at the node, then the children under set mask bits. */
  function UpdateNode(lod: (IVec3, nat) -> nat, n: Node): (r: Node)
    requires WellFormed(n)
    ensures WellFormed(r) && r.level == n.level && r.position == n.position
    decreases MAX_LEVEL - n.level, 1
  {
    LodStepWellFormed(lod, n);
    var m := LodStep(lod, n);
    if m.body.Leaf? then m
    else
      var cs := UpdateChildren(lod, m, 0);
      var r := m.(body := m.body.(children := cs));
      assert forall i :: 0 <= i < 8 ==> (r.body.childMask[i] <==> r.body.children[i].Some?);
      r
  }

  /** The loop over child slots i..7 of updateNode. */
  function UpdateChildren(lod: (IVec3, nat) -> nat, m: Node, i: nat): (cs: seq<Option<Node>>)
    requires WellFormed(m) && m.body.Internal? && i <= 8
    ensures |cs| == 8
    ensures forall k :: 0 <= k < 8 ==>
      (cs[k].Some? <==> m.body.children[k].Some?) &&
      (cs[k].Some? ==>
         cs[k].value.level == m.level + 1 &&
         cs[k].value.position == Add(m.position, OctantOffset(k, SizeAt(m.level + 1))) &&
         WellFormed(cs[k].value))
    ensures forall k :: 0 <= k < i ==> cs[k] == m.body.children[k]
    decreases MAX_LEVEL - m.level, 0, 8 - i
  {
    if i == 8 then m.body.children
    else
      var rest := UpdateChildren(lod, m, i + 1);
      if m.body.childMask[i] then rest[i := Some(UpdateNode(lod, m.body.children[i].value))]
      else rest
  }

  /** World::updateLOD. */
  function UpdateTree(lod: (IVec3, nat) -> nat, root: Option<Node>): (r: Option<Node>)
    requires ValidRoot(root)
    ensures ValidRoot(r) && (r.None? <==> root.None?)
  {
    if root.None? then None else Some(UpdateNode(lod, root.value))
  }

  /**
   * `b` keeps the shape of `a`: same level and position, and every internal
   * node of `a` is still internal in `b` with the same mask and children that
   * keep the shape of the old ones. Leaves of `a` may have been split.
   */
  ghost predicate Keeps(a: Node, b: Node)
    decreases a
  {
    a.level == b.level && a.position == b.position &&
    (a.body.Internal? ==>
       b.body.Internal? && b.body.childMask == a.body.childMask && |b.body.children| == |a.body.children| &&
       forall k :: 0 <= k < |a.body.children| && a.body.children[k].Some? ==>
         b.body.children[k].Some? && Keeps(a.body.children[k].value, b.body.children[k].value))
  }

  /** updateLOD never merges: its merge branch calls optimizeNode on an internal node, which does nothing. */
  lemma {:induction false} UpdateNeverMerges(lod: (IVec3, nat) -> nat, n: Node)
    requires WellFormed(n)
    ensures Keeps(n, UpdateNode(lod, n))
    decreases MAX_LEVEL - n.level, 1
  {
    if n.body.Internal? {
      assert LodStep(lod, n) == n;
      UpdateChildrenKeep(lod, n, 0);
    }
  }

  lemma {:induction false} UpdateChildrenKeep(lod: (IVec3, nat) -> nat, m: Node, i: nat)
    requires WellFormed(m) && m.body.Internal? && i <= 8
    ensures forall k :: i <= k < 8 && m.body.children[k].Some? ==>
      UpdateChildren(lod, m, i)[k].Some? && Keeps(m.body.children[k].value, UpdateChildren(lod, m, i)[k].value)
    decreases MAX_LEVEL - m.level, 0, 8 - i
  {
    if i < 8 {
      UpdateChildrenKeep(lod, m, i + 1);
      if m.body.childMask[i] {
        UpdateNeverMerges(lod, m.body.children[i].value);
      }
    }
  }

  /**
   * updateLOD splits a leaf exactly when its clamped desired level is below
   * its own level (and it is above MAX_LEVEL); a leaf it does not split is
   * left as it was.
   */
  lemma UpdateLeaf(lod: (IVec3, nat) -> nat, n: Node)
    requires WellFormed(n) && n.body.Leaf?
    ensures UpdateNode(lod, n).body.Internal? <==> DesiredLevel(lod, n) < n.level && n.level < MAX_LEVEL
    ensures UpdateNode(lod, n).body.Leaf? ==> UpdateNode(lod, n) == n
  {
  }

  /** Since no level is below 0, updateLOD leaves a leaf root exactly as it is. */
  lemma UpdateNeverSplitsRoot(lod: (IVec3, nat) -> nat, root: Option<Node>)
    requires ValidRoot(root) && root.Some? && root.value.body.Leaf?
    ensures UpdateTree(lod, root) == root
  {
    UpdateLeaf(lod, root.value);
  }

  // ---------------------------------------------------------------------------
  // The dirty-node collection of generateMeshes.

  /** The node at `p` exists and has needsUpdate set. */
  ghost predicate Dirty(n: Node, p: Path)
  {
    NodeAt(n, p).Some? && NodeAt(n, p).value.needsUpdate
  }

  /** The paths `ps` taken one level down, below child slot i. */
  function Under(i: nat, ps: seq<Path>): (qs: seq<Path>)
    ensures |qs| == |ps| && forall k :: 0 <= k < |ps| ==> qs[k] == [i] + ps[k]
  {
    seq(|ps|, k requires 0 <= k < |ps| => [i] + ps[k])
  }

  /**
   * collectNodes: the node itself when it needs an update, then, for an
   * internal node, the collections of its non-null children under set mask
   * bits, slot by slot.
   */
  function Collect(n: Node): (ps: seq<Path>)
    decreases n, 1
  {
    (if n.needsUpdate then [[]] else []) + (if n.body.Leaf? then [] else CollectChildren(n.body, 0))
  }

  /** The loop over child slots i..7 of collectNodes; every path it yields starts with a slot >= i. */
  function CollectChildren(b: Body, i: nat): (ps: seq<Path>)
    requires b.Internal?
    ensures forall k :: 0 <= k < |ps| ==> |ps[k]| > 0 && i <= ps[k][0] < 8
    decreases b, 0, 8 - i
  {
    if i >= 8 then []
    else (if Counted(b, true, i) then Under(i, Collect(b.children[i].value)) else []) + CollectChildren(b, i + 1)
  }

  /** Pre-order on paths: a node comes before its descendants, and lower slots before higher ones. */
  predicate PathBefore(p: Path, q: Path)
    decreases |p|
  {
    |q| > 0 && (|p| == 0 || p[0] < q[0] || (p[0] == q[0] && PathBefore(p[1..], q[1..])))
  }

  predicate InPreOrder(ps: seq<Path>)
  {
    forall a, b :: 0 <= a < b < |ps| ==> PathBefore(ps[a], ps[b])
  }

  lemma {:induction false} PathBeforeIrreflexive(p: Path)
    ensures !PathBefore(p, p)
    decreases |p|
  {
    if |p| > 0 {
      PathBeforeIrreflexive(p[1..]);
    }
  }

  lemma UnderPreOrder(i: nat, ps: seq<Path>)
    requires InPreOrder(ps)
    ensures InPreOrder(Under(i, ps))
  {
    var qs := Under(i, ps);
    forall a, b | 0 <= a < b < |qs| ensures PathBefore(qs[a], qs[b]) {
      assert qs[a][1..] == ps[a] && qs[b][1..] == ps[b];
    }
  }

  lemma UnderMember(i: nat, ps: seq<Path>, p: Path)
    ensures p in Under(i, ps) <==> |p| > 0 && p[0] == i && p[1..] in ps
  {
    var qs := Under(i, ps);
    if |p| > 0 && p[0] == i && p[1..] in ps {
      var k :| 0 <= k < |ps| && ps[k] == p[1..];
      assert qs[k] == p;
    }
  }

  /** A pre-ordered block of paths under slot i followed by one whose paths start above i stays pre-ordered. */
  lemma ConcatPreOrder(i: nat, us: seq<Path>, rs: seq<Path>)
    requires InPreOrder(us) && InPreOrder(rs)
    requires forall k :: 0 <= k < |us| ==> |us[k]| > 0 && us[k][0] == i
    requires forall k :: 0 <= k < |rs| ==> |rs[k]| > 0 && rs[k][0] > i
    ensures InPreOrder(us + rs)
  {
    var ps := us + rs;
    forall a, b | 0 <= a < b < |ps| ensures PathBefore(ps[a], ps[b]) {
      if b < |us| {
        assert ps[a] == us[a] && ps[b] == us[b];
      } else if a >= |us| {
        assert ps[a] == rs[a - |us|] && ps[b] == rs[b - |us|];
      } else {
        assert ps[a] == us[a] && ps[b] == rs[b - |us|];
      }
    }
  }

  /** collectNodes yields its paths in pre-order, so no node is queued twice. */
  lemma {:induction false} CollectPreOrder(n: Node)
    ensures InPreOrder(Collect(n))
    decreases n, 1
  {
    if n.body.Internal? {
      var rs := CollectChildren(n.body, 0);
      CollectChildrenPreOrder(n.body, 0);
      if n.needsUpdate {
        var ps := [[]] + rs;
        forall a, b | 0 <= a < b < |ps| ensures PathBefore(ps[a], ps[b]) {
          assert ps[b] == rs[b - 1];
          if a > 0 {
            assert ps[a] == rs[a - 1];
          }
        }
      } else {
        assert Collect(n) == rs;
      }
    }
  }

  lemma {:induction false} CollectChildrenPreOrder(b: Body, i: nat)
    requires b.Internal?
    ensures InPreOrder(CollectChildren(b, i))
    decreases b, 0, 8 - i
  {
    if i < 8 {
      var rs := CollectChildren(b, i + 1);
      CollectChildrenPreOrder(b, i + 1);
      var us: seq<Path> := [];
      if Counted(b, true, i) {
        var cs := Collect(b.children[i].value);
        CollectPreOrder(b.children[i].value);
        UnderPreOrder(i, cs);
        us := Under(i, cs);
      }
      ConcatPreOrder(i, us, rs);
      assert CollectChildren(b, i) == us + rs;
    }
  }

  lemma PreOrderDistinct(ps: seq<Path>, a: nat, b: nat)
    requires InPreOrder(ps) && a < b < |ps|
    ensures ps[a] != ps[b]
  {
    PathBeforeIrreflexive(ps[a]);
  }

  /** In a well-formed tree, collectNodes yields exactly the paths of the nodes that need an update. */
  lemma {:induction false} CollectMembers(n: Node, p: Path)
    requires WellFormed(n)
    ensures p in Collect(n) <==> Dirty(n, p)
    decreases n, 1
  {
    var head: seq<Path> := if n.needsUpdate then [[]] else [];
    if n.body.Leaf? {
      assert Collect(n) == head;
    } else {
      var rs := CollectChildren(n.body, 0);
      assert Collect(n) == head + rs;
      if p != [] {
        CollectChildrenMembers(n, 0, p);
      }
    }
  }

  lemma {:induction false} CollectChildrenMembers(n: Node, i: nat, p: Path)
    requires WellFormed(n) && n.body.Internal? && i <= 8 && |p| > 0
    ensures p in CollectChildren(n.body, i) <==> i <= p[0] && Dirty(n, p)
    decreases n, 0, 8 - i
  {
    if i < 8 {
      CollectChildrenMembers(n, i + 1, p);
      var us: seq<Path> := [];
      if Counted(n.body, true, i) {
        var c := n.body.children[i].value;
        us := Under(i, Collect(c));
        UnderMember(i, Collect(c), p);
        if p[0] == i {
          CollectMembers(c, p[1..]);
        }
      }
      assert CollectChildren(n.body, i) == us + CollectChildren(n.body, i + 1);
    }
  }

  // ---------------------------------------------------------------------------
  // The flag updates of generateMeshes.

  /** The tree with every needsUpdate flag cleared: what generateMeshes must leave alone. */
  function Unflag(n: Node): (r: Node)
    ensures r.level == n.level && r.position == n.position && r.body.Leaf? == n.body.Leaf?
    decreases n, 1
  {
    n.(needsUpdate := false,
       body := if n.body.Leaf? then n.body else Internal(n.body.childMask, UnflagChildren(n.body)))
  }

  function UnflagChildren(b: Body): (cs: seq<Option<Node>>)
    requires b.Internal?
    ensures |cs| == |b.children|
    ensures forall k :: 0 <= k < |cs| ==> cs[k].Some? == b.children[k].Some?
    decreases b, 0
  {
    seq(|b.children|, k requires 0 <= k < |b.children| =>
      if b.children[k].Some? then Some(Unflag(b.children[k].value)) else None)
  }

  /** The node at `q` with needsUpdate cleared. */
  function Clean(t: Node, q: Path): Node
    requires NodeAt(t, q).Some?
  {
    ReplaceAt(t, q, NodeAt(t, q).value.(needsUpdate := false))
  }

  /**
   * One iteration of the loop over the sorted queue: generateMeshForNode
   * returns false for a missing or clean node and otherwise whatever the GPU
   * build reports (`built`); needsUpdate is cleared when it returns true.
   */
  function MeshStep(t: Node, q: Path, built: Path -> bool): Node
  {
    if NodeAt(t, q).Some? && NodeAt(t, q).value.needsUpdate && built(q) then Clean(t, q) else t
  }

  function ProcessQueue(t: Node, qs: seq<Path>, built: Path -> bool): Node
    decreases |qs|
  {
    if qs == [] then t else ProcessQueue(MeshStep(t, qs[0], built), qs[1..], built)
  }

  /** Replacing a node by one that differs only in flags changes only flags. */
  lemma {:induction false} UnflagReplace(t: Node, q: Path, m: Node)
    requires NodeAt(t, q).Some? && Unflag(m) == Unflag(NodeAt(t, q).value)
    ensures Unflag(ReplaceAt(t, q, m)) == Unflag(t)
    decreases |q|
  {
    if q != [] {
      var c := ChildAt(t, q[0]).value;
      UnflagReplace(c, q[1..], m);
      var r := ReplaceAt(t, q, m);
      var a, b := UnflagChildren(r.body), UnflagChildren(t.body);
      assert |a| == |b|;
      forall k | 0 <= k < |a| ensures a[k] == b[k] {
        if k == q[0] {
          assert r.body.children[k] == Some(ReplaceAt(c, q[1..], m));
        } else {
          assert r.body.children[k] == t.body.children[k];
        }
      }
      assert a == b;
    }
  }

  /** Cleaning the node at q clears exactly its flag and keeps every node in place. */
  lemma {:induction false} DirtyClean(t: Node, q: Path, p: Path)
    requires NodeAt(t, q).Some?
    ensures NodeAt(Clean(t, q), p).Some? <==> NodeAt(t, p).Some?
    ensures Dirty(Clean(t, q), p) <==> Dirty(t, p) && p != q
    decreases |q|
  {
    var r := Clean(t, q);
    if q == [] {
      if p != [] {
        assert ChildAt(r, p[0]) == ChildAt(t, p[0]);
      }
    } else if p != [] {
      var c := ChildAt(t, q[0]).value;
      assert NodeAt(t, q) == NodeAt(c, q[1..]);
      assert r == t.(body := t.body.(children := t.body.children[q[0] := Some(Clean(c, q[1..]))]));
      if p[0] == q[0] {
        DirtyClean(c, q[1..], p[1..]);
        assert p == q <==> p[1..] == q[1..] by {
          if p[1..] == q[1..] { assert p == [p[0]] + p[1..] && q == [q[0]] + q[1..]; }
        }
      } else {
        assert ChildAt(r, p[0]) == ChildAt(t, p[0]);
      }
    }
  }

  lemma MeshStepFacts(t: Node, q: Path, built: Path -> bool)
    ensures Unflag(MeshStep(t, q, built)) == Unflag(t)
    ensures forall p ::
              (NodeAt(MeshStep(t, q, built), p).Some? <==> NodeAt(t, p).Some?) &&
              (Dirty(MeshStep(t, q, built), p) <==> Dirty(t, p) && !(p == q && built(q)))
  {
    if NodeAt(t, q).Some? && NodeAt(t, q).value.needsUpdate && built(q) {
      UnflagReplace(t, q, NodeAt(t, q).value.(needsUpdate := false));
      forall p ensures (NodeAt(Clean(t, q), p).Some? <==> NodeAt(t, p).Some?) &&
        (Dirty(Clean(t, q), p) <==> Dirty(t, p) && p != q)
      {
        DirtyClean(t, q, p);
      }
    }
  }

  /**
   * Running the queue changes only needsUpdate flags, and clears exactly the
   * flags of the queued nodes whose mesh was built.
   */
  lemma {:induction false} ProcessQueueFacts(t: Node, qs: seq<Path>, built: Path -> bool)
    ensures Unflag(ProcessQueue(t, qs, built)) == Unflag(t)
    ensures forall p ::
              (NodeAt(ProcessQueue(t, qs, built), p).Some? <==> NodeAt(t, p).Some?) &&
              (Dirty(ProcessQueue(t, qs, built), p) <==> Dirty(t, p) && !(p in qs && built(p)))
    decreases |qs|
  {
    if qs != [] {
      var t1 := MeshStep(t, qs[0], built);
      MeshStepFacts(t, qs[0], built);
      ProcessQueueFacts(t1, qs[1..], built);
      forall p ensures p in qs <==> p == qs[0] || p in qs[1..] {
        assert qs == [qs[0]] + qs[1..];
      }
    }
  }

  /** Two trees that agree once flags are dropped, and agree on every flag, are equal. */
  lemma {:induction false} FlagsDetermine(a: Node, b: Node)
    requires Unflag(a) == Unflag(b)
    requires forall p :: Dirty(a, p) <==> Dirty(b, p)
    ensures a == b
    decreases a
  {
    assert Dirty(a, []) <==> Dirty(b, []);
    if a.body.Internal? {
      var ua, ub := UnflagChildren(a.body), UnflagChildren(b.body);
      assert ua == ub;
      var ca, cb := a.body.children, b.body.children;
      forall k | 0 <= k < |ca| ensures ca[k] == cb[k] {
        assert ua[k] == ub[k];
        if ca[k].Some? {
          forall p ensures Dirty(ca[k].value, p) <==> Dirty(cb[k].value, p) {
            assert ([k] + p)[0] == k && ([k] + p)[1..] == p;
            assert Dirty(a, [k] + p) <==> Dirty(b, [k] + p);
          }
          FlagsDetermine(ca[k].value, cb[k].value);
        }
      }
      assert ca == cb;
    }
  }

  /**
   * The tree generateMeshes leaves behind does not depend on the order of the
   * queue: any two orders of the same nodes (std::sort is not stable, and
   * distance ties may come out either way) give the same tree.
   */
  lemma QueueOrderIrrelevant(t: Node, qs: seq<Path>, rs: seq<Path>, built: Path -> bool)
    requires multiset(qs) == multiset(rs)
    ensures ProcessQueue(t, qs, built) == ProcessQueue(t, rs, built)
  {
    ProcessQueueFacts(t, qs, built);
    ProcessQueueFacts(t, rs, built);
    forall p ensures p in qs <==> p in rs {
      assert p in qs <==> p in multiset(qs);
      assert p in rs <==> p in multiset(rs);
    }
    FlagsDetermine(ProcessQueue(t, qs, built), ProcessQueue(t, rs, built));
  }

  /**
   * generateMeshes on a well-formed tree, for any queue holding the collected
   * nodes: afterwards a node needs an update exactly when it needed one before
   * and its mesh was not built, and nothing but flags has changed.
   */
  lemma GenerateMeshesFlags(t: Node, qs: seq<Path>, built: Path -> bool)
    requires WellFormed(t) && multiset(qs) == multiset(Collect(t))
    ensures Unflag(ProcessQueue(t, qs, built)) == Unflag(t)
    ensures forall p :: Dirty(ProcessQueue(t, qs, built), p) <==> Dirty(t, p) && !built(p)
  {
    ProcessQueueFacts(t, qs, built);
    forall p ensures p in qs <==> Dirty(t, p) {
      assert p in qs <==> p in multiset(qs);
      assert p in Collect(t) <==> p in multiset(Collect(t));
      CollectMembers(t, p);
    }
  }

  // ---------------------------------------------------------------------------
  // Steps used by the World methods.

  /** One more step of the descent loop extends the path it has followed. */
  lemma PrependStep(p: Path, i: nat, d: Descent)
    ensures Prepend(p, Extend(i, d)) == Prepend(p + [i], d)
  {
    match d
    case Reached(q) => assert p + ([i] + q) == (p + [i]) + q;
    case Missing(q, k) => assert p + ([i] + q) == (p + [i]) + q;
    case NullChild(q) => assert p + ([i] + q) == (p + [i]) + q;
  }

  /** The descent loop does not run at a leaf or at MAX_LEVEL. */
  lemma DescendStops(n: Node, pos: IVec3, level: nat)
    requires level <= MAX_LEVEL && (n.body.Leaf? || level == MAX_LEVEL)
    ensures Descend(n, pos, level) == Reached([])
  {
  }

  /** One turn of the descent loop: through child i into the next node. */
  lemma DescendStep(n: Node, pos: IVec3, level: nat, i: nat)
    requires level < MAX_LEVEL && n.body.Internal? && i == ChildIndex(n, pos, level)
    requires HasChild(n, i) && ChildAt(n, i).Some?
    ensures Descend(n, pos, level) == Extend(i, Descend(ChildAt(n, i).value, pos, level + 1))
    ensures NodeAt(n, [i]) == ChildAt(n, i)
  {
    assert [i][1..] == [];
  }

  /** The invariant of the findNode loop survives a step into child i. */
  lemma DescentLoopStep(t: Node, path: Path, current: Node, pos: IVec3, level: nat, i: nat)
    requires level == |path| < MAX_LEVEL && NodeAt(t, path) == Some(current)
    requires Descend(t, pos, 0) == Prepend(path, Descend(current, pos, level))
    requires current.body.Internal? && i == ChildIndex(current, pos, level)
    requires HasChild(current, i) && ChildAt(current, i).Some?
    ensures NodeAt(t, path + [i]) == ChildAt(current, i)
    ensures Descend(t, pos, 0) == Prepend(path + [i], Descend(ChildAt(current, i).value, pos, level + 1))
  {
    DescendStep(current, pos, level, i);
    PrependStep(path, i, Descend(ChildAt(current, i).value, pos, level + 1));
    NodeAtPrefix(t, path, [i]);
  }

  /** Where the findNode loop meets a clear mask bit or a null child, or stops, the whole descent ends there. */
  lemma DescentLoopExit(t: Node, path: Path, current: Node, pos: IVec3, level: nat)
    requires level == |path| <= MAX_LEVEL
    requires Descend(t, pos, 0) == Prepend(path, Descend(current, pos, level))
    ensures current.body.Leaf? || level == MAX_LEVEL ==> Descend(t, pos, 0) == Reached(path)
    ensures current.body.Internal? && level < MAX_LEVEL && !HasChild(current, ChildIndex(current, pos, level)) ==>
      Descend(t, pos, 0) == Missing(path, ChildIndex(current, pos, level))
    ensures (current.body.Internal? && level < MAX_LEVEL && HasChild(current, ChildIndex(current, pos, level)) &&
             ChildAt(current, ChildIndex(current, pos, level)).None?) ==>
      Descend(t, pos, 0) == NullChild(path + [ChildIndex(current, pos, level)])
  {
    assert path + [] == path;
  }

  /** setVoxel on a valid tree always writes the leaf findNode(pos, true) returns. */
  lemma SetVoxelWrites(root: Option<Node>, pos: IVec3, v: Voxel)
    requires ValidRoot(root)
    ensures FindOrCreate(root, pos).0.Some? && FindOrCreate(root, pos).1.Some?
    ensures var t := FindOrCreate(root, pos).0.value;
      var found := FindOrCreate(root, pos).1.value;
      ValidRoot(Some(t)) && NodeAt(t, found).Some? && NodeAt(t, found).value.body.Leaf? &&
      WellFormed(NodeAt(t, found).value) &&
      SetVoxelTree(root, pos, v) == Some(ReplaceAt(t, found, WriteSlot(NodeAt(t, found).value, pos, v)))
  {
    FindOrCreateFacts(root, pos);
  }

  /** Putting a node back where it was leaves the tree as it was. */
  lemma {:induction false} ReplaceSame(t: Node, p: Path)
    requires NodeAt(t, p).Some?
    ensures ReplaceAt(t, p, NodeAt(t, p).value) == t
    decreases |p|
  {
    if p != [] {
      var c := ChildAt(t, p[0]).value;
      ReplaceSame(c, p[1..]);
      assert t.body.children[p[0] := Some(c)] == t.body.children;
    }
  }

  /** Running one more queued node after the others. */
  lemma {:induction false} ProcessQueueSnoc(t: Node, qs: seq<Path>, q: Path, built: Path -> bool)
    ensures ProcessQueue(t, qs + [q], built) == MeshStep(ProcessQueue(t, qs, built), q, built)
    decreases |qs|
  {
    if qs == [] {
      assert [] + [q] == [q];
    } else {
      assert (qs + [q])[0] == qs[0] && (qs + [q])[1..] == qs[1..] + [q];
      ProcessQueueSnoc(MeshStep(t, qs[0], built), qs[1..], q, built);
    }
  }

  /** Well-formedness does not look at needsUpdate flags. */
  lemma {:induction false} UnflagWellFormed(a: Node, b: Node)
    requires WellFormed(a) && Unflag(a) == Unflag(b)
    ensures WellFormed(b) && b.level == a.level && b.position == a.position
    decreases a
  {
    assert b.size == Unflag(b).size;
    if a.body.Internal? {
      var ua, ub := UnflagChildren(a.body), UnflagChildren(b.body);
      assert ua == ub;
      forall k | 0 <= k < 8 && a.body.children[k].Some?
        ensures b.body.children[k].Some? && WellFormed(b.body.children[k].value)
        ensures b.body.children[k].value.level == a.body.children[k].value.level
        ensures b.body.children[k].value.position == a.body.children[k].value.position
      {
        assert ua[k] == ub[k];
        UnflagWellFormed(a.body.children[k].value, b.body.children[k].value);
      }
    }
  }
}
