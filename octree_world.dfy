/**
 * The octree World object: the root pointer and the per-node mesh table that
 * the World methods update in place. Node pointers are identified by their
 * path from the root (the tree never frees a node while the World lives), and
 * the GPU work behind a mesh is an oracle result passed in by the caller.
 */
module OctreeWorld {
  import opened Wrappers
  import opened Geometry
  import opened Words
  import opened VoxelTypes
  import opened Octree

  /** VK_NULL_HANDLE. */
  const NULL_HANDLE: nat := 0

  /** The GPU buffers and counts kept for one node's mesh; handles are opaque numbers, 0 is null. */
  datatype MeshData = MeshData(
    vertexBuffer: nat,
    vertexMemory: nat,
    indexBuffer: nat,
    indexMemory: nat,
    vertexCount: nat,
    indexCount: nat)

  const EMPTY_MESH: MeshData := MeshData(NULL_HANDLE, NULL_HANDLE, NULL_HANDLE, NULL_HANDLE, 0, 0)

  /** The handles cleanupMeshData destroys, in its order: the non-null ones among the four. */
  function Handles(m: MeshData): (hs: seq<nat>)
    ensures |hs| <= 4 && forall k :: 0 <= k < |hs| ==> hs[k] != NULL_HANDLE
    ensures m.vertexBuffer != NULL_HANDLE ==> |hs| > 0 && hs[0] == m.vertexBuffer
  {
    (if m.vertexBuffer != NULL_HANDLE then [m.vertexBuffer] else []) +
    (if m.vertexMemory != NULL_HANDLE then [m.vertexMemory] else []) +
    (if m.indexBuffer != NULL_HANDLE then [m.indexBuffer] else []) +
    (if m.indexMemory != NULL_HANDLE then [m.indexMemory] else [])
  }

  /** What the GPU mesh build of generateMeshForNode reports: a failure, or the new mesh. */
  datatype MeshBuild = BuildFailed | Built(mesh: MeshData)

  function BuiltBy(build: Path -> MeshBuild): Path -> bool
  {
    p => build(p).Built?
  }

  /** Nondecreasing by the distance key, as std::sort with `distA < distB` leaves the queue. */
  predicate SortedBy(s: seq<Path>, key: Path -> int)
  {
    forall a, b :: 0 <= a < b < |s| ==> key(s[a]) <= key(s[b])
  }

  /** Putting x at position j, after the keys not above its own and before a larger one, keeps the order. */
  lemma InsertSorted(s: seq<Path>, j: nat, x: Path, key: Path -> int)
    requires SortedBy(s, key) && j <= |s|
    requires forall k :: 0 <= k < j ==> key(s[k]) <= key(x)
    requires j < |s| ==> key(x) < key(s[j])
    ensures SortedBy(s[..j] + [x] + s[j..], key)
    ensures multiset(s[..j] + [x] + s[j..]) == multiset(s) + multiset{x}
  {
    InsertKeepsOrder(s, j, x, key);
    assert s == s[..j] + s[j..];
  }

  lemma InsertKeepsOrder(s: seq<Path>, j: nat, x: Path, key: Path -> int)
    requires SortedBy(s, key) && j <= |s|
    requires forall k :: 0 <= k < j ==> key(s[k]) <= key(x)
    requires j < |s| ==> key(x) < key(s[j])
    ensures SortedBy(s[..j] + [x] + s[j..], key)
  {
    var r := s[..j] + [x] + s[j..];
    forall a, b | 0 <= a < b < |r| ensures key(r[a]) <= key(r[b]) {
      if b < j {
        assert r[a] == s[a] && r[b] == s[b];
      } else if b == j {
        assert r[a] == s[a] && r[b] == x;
      } else if a == j {
        assert r[b] == s[b - 1];
      } else if a < j {
        assert r[a] == s[a] && r[b] == s[b - 1];
      } else {
        assert r[a] == s[a - 1] && r[b] == s[b - 1];
      }
    }
  }

  /** The first position whose key is above x's: the end of the run x joins. */
  method InsertPosition(s: seq<Path>, x: Path, key: Path -> int) returns (j: nat)
    ensures j <= |s|
    ensures forall k :: 0 <= k < j ==> key(s[k]) <= key(x)
    ensures j < |s| ==> key(x) < key(s[j])
  {
    j := 0;
    while j < |s| && key(s[j]) <= key(x)
      invariant j <= |s|
      invariant forall k :: 0 <= k < j ==> key(s[k]) <= key(x)
    {
      j := j + 1;
    }
  }

  /**
   * The sort of the update queue by distance to the viewer. The float
   * distance of a node's centre is abstracted as an integer key per node.
   */
  method SortByKey(q: seq<Path>, key: Path -> int) returns (s: seq<Path>)
    ensures SortedBy(s, key) && multiset(s) == multiset(q)
  {
    s := [];
    var i := 0;
    while i < |q|
      invariant i <= |q|
      invariant SortedBy(s, key)
      invariant multiset(s) == multiset(q[..i])
    {
      var x := q[i];
      var j := InsertPosition(s, x, key);
      InsertSorted(s, j, x, key);
      assert q[..i + 1] == q[..i] + [x];
      s := s[..j] + [x] + s[j..];
      i := i + 1;
    }
    assert q[..|q|] == q;
  }

  /**
   * The descent loop shared by both findNode overloads, run on a tree value:
   * where it stopped, and the path it followed to get there.
   */
  method DescendLoop(t: Node, pos: IVec3) returns (d: Descent)
    ensures d == Descend(t, pos, 0)
  {
    var current := t;
    var path: Path := [];
    var level := 0;
    PrependFacts(0, [], Descend(t, pos, 0));
    while current.body.Internal? && level < MAX_LEVEL
      invariant level == |path| <= MAX_LEVEL
      invariant NodeAt(t, path) == Some(current)
      invariant Descend(t, pos, 0) == Prepend(path, Descend(current, pos, level))
      decreases MAX_LEVEL - level
    {
      var i := ChildIndex(current, pos, level);
      if !HasChild(current, i) {
        DescentLoopExit(t, path, current, pos, level);
        return Missing(path, i);
      }
      if ChildAt(current, i).None? {
        DescentLoopExit(t, path, current, pos, level);
        return NullChild(path + [i]);
      }
      var next := ChildAt(current, i).value;
      DescentLoopStep(t, path, current, pos, level, i);
      current := next;
      path := path + [i];
      level := level + 1;
    }
    DescentLoopExit(t, path, current, pos, level);
    return Reached(path);
  }

  /** generateMeshForNode succeeds on the node at q: it exists, is dirty, and its GPU build succeeds. */
  predicate Fires(t: Node, q: Path, build: Path -> MeshBuild)
  {
    NodeAt(t, q).Some? && NodeAt(t, q).value.needsUpdate && build(q).Built?
  }

  /** The mesh table after the queue `qs` has run on tree `t`, starting from table `m`. */
  function MeshesAfter(t: Node, qs: seq<Path>, build: Path -> MeshBuild, m: map<Path, MeshData>): map<Path, MeshData>
    decreases |qs|
  {
    if qs == [] then m
    else MeshesAfter(MeshStep(t, qs[0], BuiltBy(build)), qs[1..], build,
                     if Fires(t, qs[0], build) then m[qs[0] := build(qs[0]).mesh] else m)
  }

  lemma {:induction false} MeshesAfterSnoc(t: Node, qs: seq<Path>, q: Path, build: Path -> MeshBuild, m: map<Path, MeshData>)
    ensures MeshesAfter(t, qs + [q], build, m) ==
      (var m' := MeshesAfter(t, qs, build, m);
       if Fires(ProcessQueue(t, qs, BuiltBy(build)), q, build) then m'[q := build(q).mesh] else m')
    decreases |qs|
  {
    if qs == [] {
      assert [] + [q] == [q];
    } else {
      assert (qs + [q])[0] == qs[0] && (qs + [q])[1..] == qs[1..] + [q];
      var m1 := if Fires(t, qs[0], build) then m[qs[0] := build(qs[0]).mesh] else m;
      MeshesAfterSnoc(MeshStep(t, qs[0], BuiltBy(build)), qs[1..], q, build, m1);
    }
  }

  /**
   * Running a queue on the mesh table: an entry is added or replaced exactly
   * for the queued nodes that were dirty and whose build succeeded, each with
   * its new mesh; every other entry is kept.
   */
  lemma {:induction false} MeshesAfterFacts(t: Node, qs: seq<Path>, build: Path -> MeshBuild, m: map<Path, MeshData>)
    ensures forall p ::
              (p in MeshesAfter(t, qs, build, m) <==> p in m || (p in qs && Dirty(t, p) && build(p).Built?)) &&
              (p in qs && Dirty(t, p) && build(p).Built? ==> MeshesAfter(t, qs, build, m)[p] == build(p).mesh) &&
              (p in m && !(p in qs && Dirty(t, p) && build(p).Built?) ==> MeshesAfter(t, qs, build, m)[p] == m[p])
    decreases |qs|
  {
    if qs != [] {
      var q := qs[0];
      var t1 := MeshStep(t, q, BuiltBy(build));
      var m1 := if Fires(t, q, build) then m[q := build(q).mesh] else m;
      MeshStepFacts(t, q, BuiltBy(build));
      MeshesAfterFacts(t1, qs[1..], build, m1);
      var r := MeshesAfter(t, qs, build, m);
      assert r == MeshesAfter(t1, qs[1..], build, m1);
      forall p ensures p in qs <==> p == q || p in qs[1..] {
        assert qs == [q] + qs[1..];
      }
    }
  }

  /**
   * Whatever order the collected nodes are queued in, generateMeshes leaves
   * a valid tree (the one the pre-order queue gives) and builds meshes for
   * exactly the dirty nodes whose build succeeds.
   */
  lemma QueueOutcome(t: Node, qs: seq<Path>, build: Path -> MeshBuild, m: map<Path, MeshData>)
    requires ValidRoot(Some(t)) && multiset(qs) == multiset(Collect(t))
    ensures ProcessQueue(t, qs, BuiltBy(build)) == ProcessQueue(t, Collect(t), BuiltBy(build))
    ensures ValidRoot(Some(ProcessQueue(t, qs, BuiltBy(build))))
    ensures forall p ::
              (p in MeshesAfter(t, qs, build, m) <==> p in m || (Dirty(t, p) && build(p).Built?)) &&
              (Dirty(t, p) && build(p).Built? ==> MeshesAfter(t, qs, build, m)[p] == build(p).mesh) &&
              (p in m && !(Dirty(t, p) && build(p).Built?) ==> MeshesAfter(t, qs, build, m)[p] == m[p])
  {
    var built := BuiltBy(build);
    forall p ensures p in qs <==> Dirty(t, p) {
      assert p in qs <==> p in multiset(qs);
      assert p in Collect(t) <==> p in multiset(Collect(t));
      CollectMembers(t, p);
    }
    MeshesAfterFacts(t, qs, build, m);
    QueueOrderIrrelevant(t, qs, Collect(t), built);
    ProcessQueueFacts(t, qs, built);
    UnflagWellFormed(t, ProcessQueue(t, qs, built));
  }

  /** One turn of the loop of generateMeshes, on the tree and on the mesh table. */
  lemma MeshLoopStep(t: Node, qs: seq<Path>, q: Path, build: Path -> MeshBuild, m: map<Path, MeshData>)
    ensures var cur := ProcessQueue(t, qs, BuiltBy(build));
      ProcessQueue(t, qs + [q], BuiltBy(build)) == (if Fires(cur, q, build) then Clean(cur, q) else cur) &&
      MeshesAfter(t, qs + [q], build, m) ==
        (if Fires(cur, q, build) then MeshesAfter(t, qs, build, m)[q := build(q).mesh] else MeshesAfter(t, qs, build, m))
  {
    ProcessQueueSnoc(t, qs, q, BuiltBy(build));
    MeshesAfterSnoc(t, qs, q, build, m);
  }

  class World {
    var root: Option<Node>
    var meshes: map<Path, MeshData>
    /** Every Vulkan handle the mesh clean-up has destroyed, in order. */
    var released: seq<nat>

    ghost predicate Valid()
      reads this
    {
      ValidRoot(root)
    }

    constructor ()
      ensures Valid() && root.None? && meshes == map[] && released == []
    {
      root := None;
      meshes := map[];
      released := [];
    }

    /**
     * initialize: creates the full-size leaf root, then sets up the renderer
     * and the compute pipeline (their outcomes are the parameters); a
     * failure returns false with the new root kept.
     */
    method Initialize(rendererOk: bool, pipelineOk: bool) returns (ok: bool)
      modifies this
      ensures Valid() && root == Some(RootLeaf())
      ensures ok == (rendererOk && pipelineOk)
      ensures meshes == old(meshes) && released == old(released)
    {
      root := Some(RootLeaf());
      if !rendererOk {
        return false;
      }
      if !pipelineOk {
        return false;
      }
      return true;
    }

    /**
     * findNode: with `create` a missing root is made, and where the descent
     * meets a clear mask bit a leaf child is hung there and returned (the
     * loop would step into it and stop, as it is a leaf); without `create`
     * nothing changes and a missing node gives None.
     */
    method FindNode(pos: IVec3, create: bool) returns (found: Option<Path>)
      requires Valid()
      modifies this
      ensures Valid()
      ensures create ==> (root, found) == FindOrCreate(old(root), pos)
      ensures !create ==> root == old(root) && found == Lookup(old(root), pos)
      ensures meshes == old(meshes) && released == old(released)
    {
      if root.None? {
        if create {
          root := Some(RootLeaf());
          return Some([]);
        }
        return None;
      }
      var t := root.value;
      var d := DescendLoop(t, pos);
      match d
      case Reached(p) =>
        return Some(p);
      case NullChild(_) =>
        return None;
      case Missing(p, i) =>
        if !create {
          return None;
        }
        FindOrCreateMissing(t, pos, p, i);
        var parent := NodeAt(t, p).value;
        root := Some(ReplaceAt(t, p, WithChild(parent, i, GrownChild(parent, p, i))));
        return Some(p + [i]);
    }

    /**
     * setVoxel: findNode(pos, true), then the reached leaf's data is sized to
     * 8 zero slots when empty, the slot of pos takes the packed voxel and the
     * leaf is marked dirty.
     */
    method SetVoxel(pos: IVec3, v: Voxel)
      requires Valid()
      modifies this
      ensures Valid()
      ensures root == SetVoxelTree(old(root), pos, v)
      ensures meshes == old(meshes) && released == old(released)
    {
      ghost var before := root;
      SetVoxelWrites(before, pos, v);
      var found := FindNode(pos, true);
      // findNode(pos, true) on a valid tree never returns null, so the
      // source's early return is not reachable here.
      var t := root.value;
      var leaf := NodeAt(t, found.value).value;
      var index := Octant(Sub(pos, leaf.position));
      var data := leaf.body.data;
      if data == [] {
        data := ZERO_SLOTS;
      }
      if index < |data| {
        data := data[index := Pack(v)];
      }
      var written := leaf.(needsUpdate := true, body := leaf.body.(data := data));
      assert written == WriteSlot(leaf, pos, v);
      WriteSlotFacts(leaf, pos, v);
      ReplaceWellFormed(t, found.value, written);
      root := Some(ReplaceAt(t, found.value, written));
    }

    /**
     * subdivideNode on the node at `p`: a leaf above MAX_LEVEL becomes an
     * internal node whose 8 children the loop creates one by one.
     */
    method SubdivideNode(p: Option<Path>)
      requires Valid()
      modifies this
      ensures Valid()
      ensures root == (if p.None? || old(root).None? || NodeAt(old(root).value, p.value).None? then old(root)
                       else (NodeAtWellFormed(old(root).value, p.value); Some(SubdivideAt(old(root).value, p.value))))
      ensures meshes == old(meshes) && released == old(released)
    {
      if p.None? || root.None? || NodeAt(root.value, p.value).None? {
        return;
      }
      var t := root.value;
      var n := NodeAt(t, p.value).value;
      NodeAtWellFormed(t, p.value);
      SubdivideAtFacts(t, p.value);
      if !n.body.Leaf? || n.level >= MAX_LEVEL {
        assert Subdivide(n) == n;
        assert ReplaceAt(t, p.value, n) == t by {
          ReplaceSame(t, p.value);
        }
        return;
      }
      var mask, children := CreateChildren(n);
      root := Some(ReplaceAt(t, p.value, n.(needsUpdate := true, body := Internal(mask, children))));
    }

    /** subdivideNode's loop: one child per octant, each with its mask bit set. */
    static method CreateChildren(n: Node) returns (mask: seq<bool>, children: seq<Option<Node>>)
      requires n.body.Leaf? && (n.body.data == [] || |n.body.data| >= 8)
      ensures mask == ALL_BITS && children == SplitChildren(n)
    {
      mask := NO_BITS;
      children := NoChildren();
      for i := 0 to 8
        invariant |mask| == 8 && |children| == 8
        invariant forall k :: 0 <= k < i ==> mask[k] && children[k] == Some(SplitChild(n, k))
        invariant forall k :: i <= k < 8 ==> !mask[k] && children[k].None?
      {
        var half := n.size / 2;
        var child := NewLeaf(Add(n.position, OctantOffset(i, half)), half, n.level + 1);
        if n.body.data != [] {
          child := child.(body := Leaf(ZERO_SLOTS[i := n.body.data[i]], []));
        }
        children := children[i := Some(child)];
        mask := mask[i := true];
      }
    }

    /**
     * optimizeNode on the node at `p`: the scan for a word different from the
     * first, then the uniform-leaf update.
     */
    method OptimizeNode(p: Option<Path>)
      requires Valid()
      modifies this
      ensures Valid()
      ensures root == (if p.None? || old(root).None? || NodeAt(old(root).value, p.value).None? then old(root)
                       else Some(ReplaceAt(old(root).value, p.value, Optimize(NodeAt(old(root).value, p.value).value))))
      ensures meshes == old(meshes) && released == old(released)
    {
      if p.None? || root.None? || NodeAt(root.value, p.value).None? {
        return;
      }
      var t := root.value;
      var n := NodeAt(t, p.value).value;
      NodeAtWellFormed(t, p.value);
      OptimizeFacts(n);
      ReplaceWellFormed(t, p.value, Optimize(n));
      if !n.body.Leaf? || n.body.data == [] {
        ReplaceSame(t, p.value);
        return;
      }
      var data := n.body.data;
      var first := data[0];
      var allSame := true;
      var i := 1;
      while i < |data|
        invariant 1 <= i <= |data|
        invariant allSame <==> forall k :: 0 <= k < i ==> data[k] == first
      {
        if data[i] != first {
          allSame := false;
          break;
        }
        i := i + 1;
      }
      assert allSame <==> AllSame(data);
      if !allSame {
        ReplaceSame(t, p.value);
        return;
      }
      var r := n;
      if LowByte(first) == 0 {
        r := n.(isOptimized := true, optimizedValue := 0, body := Leaf([], []));
      } else {
        r := n.(isOptimized := true, optimizedValue := first);
      }
      root := Some(ReplaceAt(t, p.value, r));
    }

    /** optimizeNodes: it never merges anything, so it returns false and the tree is unchanged. */
    method OptimizeNodes() returns (anyOptimized: bool)
      requires Valid()
      modifies this
      ensures Valid() && !anyOptimized && root == old(root)
      ensures meshes == old(meshes) && released == old(released)
    {
      if root.None? {
        return false;
      }
      var walked := OptimizeTree(root);
      OptimizeTreeNoOp(root);
      root := walked.0;
      anyOptimized := walked.1;
    }

    /** updateLOD with the level oracle `lod`. */
    method UpdateLOD(lod: (IVec3, nat) -> nat)
      requires Valid()
      modifies this
      ensures Valid() && root == UpdateTree(lod, old(root))
      ensures meshes == old(meshes) && released == old(released)
    {
      root := UpdateTree(lod, root);
    }

    /** cleanupMeshData: destroys each non-null handle and leaves an empty entry. */
    method CleanupMeshData(m: MeshData) returns (r: MeshData)
      modifies this`released
      ensures r == EMPTY_MESH
      ensures released == old(released) + Handles(m)
    {
      r := m;
      if r.vertexBuffer != NULL_HANDLE {
        released := released + [r.vertexBuffer];
        r := r.(vertexBuffer := NULL_HANDLE);
      }
      if r.vertexMemory != NULL_HANDLE {
        released := released + [r.vertexMemory];
        r := r.(vertexMemory := NULL_HANDLE);
      }
      if r.indexBuffer != NULL_HANDLE {
        released := released + [r.indexBuffer];
        r := r.(indexBuffer := NULL_HANDLE);
      }
      if r.indexMemory != NULL_HANDLE {
        released := released + [r.indexMemory];
        r := r.(indexMemory := NULL_HANDLE);
      }
      r := r.(vertexCount := 0, indexCount := 0);
    }

    /**
     * generateMeshForNode: false for a missing or clean node or a failed GPU
     * build; otherwise the node's old mesh, if it has a vertex buffer, is
     * cleaned up and the new mesh takes its place.
     */
    method GenerateMeshForNode(q: Path, outcome: MeshBuild) returns (ok: bool)
      modifies this
      ensures ok == (root.Some? && NodeAt(root.value, q).Some? && NodeAt(root.value, q).value.needsUpdate && outcome.Built?)
      ensures meshes == if ok then old(meshes)[q := outcome.mesh] else old(meshes)
      ensures released == old(released) +
        (if ok && q in old(meshes) && old(meshes)[q].vertexBuffer != NULL_HANDLE then Handles(old(meshes)[q]) else [])
      ensures root == old(root)
    {
      if root.None? || NodeAt(root.value, q).None? || !NodeAt(root.value, q).value.needsUpdate {
        return false;
      }
      if outcome.BuildFailed? {
        return false;
      }
      var entry := if q in meshes then meshes[q] else EMPTY_MESH;
      if entry.vertexBuffer != NULL_HANDLE {
        entry := CleanupMeshData(entry);
      }
      meshes := meshes[q := outcome.mesh];
      return true;
    }

    /**
     * One turn of the loop of generateMeshes: build the node at `q` and clear
     * its flag when generateMeshForNode reports success. Starting from the
     * state after the queue prefix `qs`, it leaves the state after `qs + [q]`.
     */
    method MeshQueued(ghost t: Node, ghost qs: seq<Path>, q: Path, build: Path -> MeshBuild, ghost m: map<Path, MeshData>)
      requires root == Some(ProcessQueue(t, qs, BuiltBy(build)))
      requires meshes == MeshesAfter(t, qs, build, m)
      modifies this
      ensures root == Some(ProcessQueue(t, qs + [q], BuiltBy(build)))
      ensures meshes == MeshesAfter(t, qs + [q], build, m)
    {
      var ok := GenerateMeshForNode(q, build(q));
      if ok {
        root := Some(Clean(root.value, q));
      }
      MeshLoopStep(t, qs, q, build, m);
    }

    /**
     * generateMeshes: collect the dirty nodes in pre-order, sort them by the
     * distance key, then build each one and clear its flag when the build
     * reports success. Afterwards exactly the dirty nodes whose build
     * succeeded are clean and hold their new mesh; other entries are kept.
     */
    method GenerateMeshes(key: Path -> int, build: Path -> MeshBuild)
      requires Valid()
      modifies this
      ensures Valid()
      ensures root == (if old(root).None? then None
                       else Some(ProcessQueue(old(root).value, Collect(old(root).value), BuiltBy(build))))
      ensures old(root).None? ==> meshes == old(meshes)
      ensures old(root).Some? ==> forall p ::
                (p in meshes <==> p in old(meshes) || (Dirty(old(root).value, p) && build(p).Built?)) &&
                (Dirty(old(root).value, p) && build(p).Built? ==> meshes[p] == build(p).mesh) &&
                (p in old(meshes) && !(Dirty(old(root).value, p) && build(p).Built?) ==> meshes[p] == old(meshes)[p])
    {
      if root.None? {
        return;
      }
      var t := root.value;
      ghost var built := BuiltBy(build);
      var queue := Collect(t);
      var sorted := SortByKey(queue, key);
      var k := 0;
      while k < |sorted|
        invariant k <= |sorted|
        invariant root == Some(ProcessQueue(t, sorted[..k], built))
        invariant meshes == MeshesAfter(t, sorted[..k], build, old(meshes))
      {
        MeshQueued(t, sorted[..k], sorted[k], build, old(meshes));
        assert sorted[..k + 1] == sorted[..k] + [sorted[k]];
        k := k + 1;
      }
      assert sorted[..|sorted|] == sorted;
      QueueOutcome(t, sorted, build, old(meshes));
    }

    /**
     * cleanup: every mesh entry is cleaned up, the table emptied and the
     * root released. (The compute-pipeline handles are not part of this model.)
     */
    method Cleanup()
      modifies this
      ensures Valid() && root.None? && meshes == map[]
      ensures |released| >= |old(released)| && released[..|old(released)|] == old(released)
      ensures forall p, h :: p in old(meshes) && h in Handles(old(meshes)[p]) ==> h in released
      ensures multiset(released[|old(released)|..]) == KeyHandles(old(meshes), old(meshes).Keys)
    {
      ReleaseMeshes(meshes);
      meshes := map[];
      root := None;
    }

    /**
     * The loop of cleanup: every mesh of table has its handles released, and
     * what is released is exactly those handles, each as often as the table
     * holds it, in the unordered map's iteration order.
     */
    method ReleaseMeshes(table: map<Path, MeshData>)
      modifies this`released
      ensures Extends(old(released), released)
      ensures AllReleased(table, table.Keys, released)
      ensures multiset(released[|old(released)|..]) == KeyHandles(table, table.Keys)
    {
      ghost var start := released;
      ghost var done: set<Path> := {};
      var keys := table.Keys;
      assert released[|start|..] == [];
      while keys != {}
        invariant keys + done == table.Keys && keys !! done
        invariant Extends(start, released)
        invariant multiset(released[|start|..]) == KeyHandles(table, done)
        decreases |keys|
      {
        var p :| p in keys;
        MoveKey(keys, done, table.Keys, p);
        ReleaseEntry(table, p, done, start);
        keys := keys - {p};
        done := done + {p};
      }
      assert done == table.Keys;
      CountedAreReleased(table, start, released);
    }

    /** One turn of cleanup's loop: the entry at p is cleaned up, adding its handles to the count. */
    method ReleaseEntry(table: map<Path, MeshData>, p: Path, ghost done: set<Path>, ghost start: seq<nat>)
      requires p in table && p !in done && done <= table.Keys
      requires Extends(start, released)
      requires multiset(released[|start|..]) == KeyHandles(table, done)
      modifies this`released
      ensures Extends(start, released)
      ensures multiset(released[|start|..]) == KeyHandles(table, done + {p})
    {
      ghost var before := released;
      var cleaned := CleanupMeshData(table[p]);
      ExtendsAppend(start, before, Handles(table[p]), released);
      ReleaseCount(table, done, p, start, before, released);
    }
  }

  /** Moving one key from the keys still to visit to the visited ones keeps them a partition of all. */
  lemma MoveKey<K>(keys: set<K>, done: set<K>, all: set<K>, p: K)
    requires keys + done == all && keys !! done && p in keys
    ensures (keys - {p}) + (done + {p}) == all && (keys - {p}) !! (done + {p})
    ensures p !in done && done <= all && p in all
  {
  }

  /** released keeps start as its prefix. */
  ghost predicate Extends(start: seq<nat>, released: seq<nat>)
  {
    |released| >= |start| && released[..|start|] == start
  }

  /** Appending to a log keeps every prefix it already had. */
  lemma ExtendsAppend(start: seq<nat>, before: seq<nat>, more: seq<nat>, after: seq<nat>)
    requires Extends(start, before) && after == before + more
    ensures Extends(start, after)
  {
    assert after[..|start|] == before[..|start|];
  }

  /** Every handle of every mesh in done has been released. */
  ghost predicate AllReleased(table: map<Path, MeshData>, done: set<Path>, released: seq<nat>)
  {
    forall p, h :: p in done && p in table && h in Handles(table[p]) ==> h in released
  }

  /** The handles of the meshes at keys, each counted as often as it occurs. */
  ghost function KeyHandles(table: map<Path, MeshData>, keys: set<Path>): multiset<nat>
    requires keys <= table.Keys
  {
    if keys == {} then multiset{}
    else
      var p :| p in keys;
      multiset(Handles(table[p])) + KeyHandles(table, keys - {p})
  }

  /** The fold does not depend on which key it takes first. */
  lemma {:induction false} KeyHandlesSplit(table: map<Path, MeshData>, keys: set<Path>, p: Path)
    requires keys <= table.Keys && p in keys
    ensures KeyHandles(table, keys) == multiset(Handles(table[p])) + KeyHandles(table, keys - {p})
    decreases keys
  {
    var q :| q in keys && KeyHandles(table, keys) == multiset(Handles(table[q])) + KeyHandles(table, keys - {q});
    if q != p {
      KeyHandlesSplit(table, keys - {q}, p);
      KeyHandlesSplit(table, keys - {p}, q);
      assert keys - {q} - {p} == keys - {p} - {q};
    }
  }

  /** A handle is in the fold exactly when some mesh at one of the keys holds it. */
  lemma {:induction false} KeyHandlesMembers(table: map<Path, MeshData>, keys: set<Path>, h: nat)
    requires keys <= table.Keys
    ensures h in KeyHandles(table, keys) <==> exists p :: p in keys && h in Handles(table[p])
    decreases keys
  {
    if keys != {} {
      var p :| p in keys;
      KeyHandlesSplit(table, keys, p);
      KeyHandlesMembers(table, keys - {p}, h);
      if h in Handles(table[p]) {
        assert h in multiset(Handles(table[p]));
      }
      if h in KeyHandles(table, keys - {p}) {
        var q :| q in keys - {p} && h in Handles(table[q]);
        assert q in keys;
      }
    }
  }

  /** One more mesh released adds its handles to the count of what was released since start. */
  lemma ReleaseCount(table: map<Path, MeshData>, done: set<Path>, p: Path,
                     start: seq<nat>, before: seq<nat>, after: seq<nat>)
    requires p in table && p !in done && done <= table.Keys && |start| <= |before|
    requires multiset(before[|start|..]) == KeyHandles(table, done)
    requires after == before + Handles(table[p])
    ensures multiset(after[|start|..]) == KeyHandles(table, done + {p})
  {
    SuffixAppend(|start|, before, Handles(table[p]), after);
    KeyHandlesAdd(table, done, p);
  }

  /** Counting one more key adds that mesh's handles. */
  lemma KeyHandlesAdd(table: map<Path, MeshData>, done: set<Path>, p: Path)
    requires p in table && p !in done && done <= table.Keys
    ensures KeyHandles(table, done + {p}) == KeyHandles(table, done) + multiset(Handles(table[p]))
  {
    KeyHandlesSplit(table, done + {p}, p);
    assert (done + {p}) - {p} == done;
  }

  /** The part of a log after position start grows by what is appended. */
  lemma SuffixAppend<T>(start: nat, before: seq<T>, more: seq<T>, after: seq<T>)
    requires start <= |before| && after == before + more
    ensures multiset(after[start..]) == multiset(before[start..]) + multiset(more)
  {
    assert after[start..] == before[start..] + more;
  }

  /** Every handle counted among what was released since start is in released. */
  lemma CountedAreReleased(table: map<Path, MeshData>, start: seq<nat>, released: seq<nat>)
    requires |start| <= |released|
    requires multiset(released[|start|..]) == KeyHandles(table, table.Keys)
    ensures AllReleased(table, table.Keys, released)
  {
    forall p, h | p in table.Keys && p in table && h in Handles(table[p])
      ensures h in released
    {
      KeyHandlesMembers(table, table.Keys, h);
      assert h in released[|start|..];
    }
  }
}
