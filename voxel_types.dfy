/**
 * The voxel value types of the octree engine: 32-bit voxels, the packed slot
 * word, the run-length helper LeafData and the slot-based MemoryPool.
 */
module VoxelTypes {
  import opened Words

  /** A voxel: a 32-bit type and a 32-bit RGBA colour. */
  datatype Voxel = Voxel(voxelType: Word, color: Word)

  /** A run of `count` consecutive equal voxels (count is unbounded here; see README). */
  datatype VoxelRun = VoxelRun(voxel: Voxel, count: nat)

  /** The packed slot word: the colour without its low byte, or-ed with the low type byte. */
  function Pack(v: Voxel): (w: Word)
    ensures LowByte(w) == LowByte(v.voxelType)
    ensures HighBytes(w) == HighBytes(v.color)
  {
    ByteSplit(HighBytes(v.color), LowByte(v.voxelType));
    HighBytes(v.color) + LowByte(v.voxelType)
  }

  /** Splits a packed word back into a voxel; packing it again gives the same word. */
  function Unpack(w: Word): (v: Voxel)
    ensures Pack(v) == w
    ensures v.voxelType < 256 && LowByte(v.color) == 0
  {
    Voxel(LowByte(w), HighBytes(w))
  }

  /** A round trip through the packed word keeps the low type byte and the upper colour bytes only. */
  lemma UnpackPack(v: Voxel)
    ensures Unpack(Pack(v)) == Voxel(LowByte(v.voxelType), HighBytes(v.color))
    ensures Unpack(Pack(v)) == v <==> v.voxelType < 256 && LowByte(v.color) == 0
  {
  }

  function PackAll(vs: seq<Voxel>): (ws: seq<Word>)
    ensures |ws| == |vs|
  {
    seq(|vs|, k requires 0 <= k < |vs| => Pack(vs[k]))
  }

  function UnpackAll(ws: seq<Word>): (vs: seq<Voxel>)
    ensures |vs| == |ws|
  {
    seq(|ws|, k requires 0 <= k < |ws| => Unpack(ws[k]))
  }

  function Repeat(w: Word, n: nat): (r: seq<Word>)
    ensures |r| == n
    ensures forall k :: 0 <= k < n ==> r[k] == w
  {
    if n == 0 then [] else Repeat(w, n - 1) + [w]
  }

  /** Run-length decoding: each run's packed word, `count` times, runs in order. */
  function Expand(runs: seq<VoxelRun>): seq<Word>
  {
    if runs == [] then []
    else Expand(runs[..|runs| - 1]) + Repeat(Pack(runs[|runs| - 1].voxel), runs[|runs| - 1].count)
  }

  /** Sum of the run counts. */
  function Total(runs: seq<VoxelRun>): nat
  {
    if runs == [] then 0 else Total(runs[..|runs| - 1]) + runs[|runs| - 1].count
  }

  /** Every run is non-empty and adjacent runs hold different voxels. */
  predicate Maximal(runs: seq<VoxelRun>)
  {
    (forall k :: 0 <= k < |runs| ==> runs[k].count > 0) &&
    (forall k :: 0 < k < |runs| ==> runs[k - 1].voxel != runs[k].voxel)
  }

  /** The run list after one addVoxel: a new run of 1, or the last run one longer. */
  function AppendRun(runs: seq<VoxelRun>, v: Voxel): seq<VoxelRun>
  {
    if runs == [] || runs[|runs| - 1].voxel != v then runs + [VoxelRun(v, 1)]
    else runs[..|runs| - 1] + [VoxelRun(v, runs[|runs| - 1].count + 1)]
  }

  /** The run list that addVoxel builds from an empty LeafData, one voxel at a time. */
  function Encode(vs: seq<Voxel>): seq<VoxelRun>
  {
    if vs == [] then [] else AppendRun(Encode(vs[..|vs| - 1]), vs[|vs| - 1])
  }

  lemma {:induction false} ExpandAppend(a: seq<VoxelRun>, b: seq<VoxelRun>)
    ensures Expand(a + b) == Expand(a) + Expand(b)
    ensures Total(a + b) == Total(a) + Total(b)
  {
    ExpandAppendRuns(a, b);
    TotalAppend(a, b);
  }

  lemma {:induction false} ExpandAppendRuns(a: seq<VoxelRun>, b: seq<VoxelRun>)
    ensures Expand(a + b) == Expand(a) + Expand(b)
    decreases |b|
  {
    if b == [] {
      assert a + b == a;
    } else {
      var b', last := b[..|b| - 1], b[|b| - 1];
      assert (a + b)[..|a + b| - 1] == a + b';
      assert (a + b)[|a + b| - 1] == last;
      ExpandAppendRuns(a, b');
      var tail := Repeat(Pack(last.voxel), last.count);
      calc {
        Expand(a + b);
        Expand(a + b') + tail;
        Expand(a) + Expand(b') + tail;
        Expand(a) + (Expand(b') + tail);
      }
    }
  }

  lemma {:induction false} TotalAppend(a: seq<VoxelRun>, b: seq<VoxelRun>)
    ensures Total(a + b) == Total(a) + Total(b)
    decreases |b|
  {
    if b == [] {
      assert a + b == a;
    } else {
      var b' := b[..|b| - 1];
      assert (a + b)[..|a + b| - 1] == a + b';
      assert (a + b)[|a + b| - 1] == b[|b| - 1];
      TotalAppend(a, b');
    }
  }

  /** addVoxel starting a new run of 1. */
  lemma NewRunFacts(runs: seq<VoxelRun>, v: Voxel)
    ensures Total(runs + [VoxelRun(v, 1)]) == Total(runs) + 1
    ensures Expand(runs + [VoxelRun(v, 1)]) == Expand(runs) + [Pack(v)]
  {
    ExpandAppend(runs, [VoxelRun(v, 1)]);
    assert [VoxelRun(v, 1)][..0] == [];
    assert Repeat(Pack(v), 1) == [Pack(v)];
  }

  /** addVoxel lengthening the last run. */
  lemma LongerRunFacts(init: seq<VoxelRun>, last: VoxelRun)
    ensures Total(init + [VoxelRun(last.voxel, last.count + 1)]) == Total(init + [last]) + 1
    ensures Expand(init + [VoxelRun(last.voxel, last.count + 1)]) == Expand(init + [last]) + [Pack(last.voxel)]
  {
    ExpandAppend(init, [last]);
    ExpandAppend(init, [VoxelRun(last.voxel, last.count + 1)]);
    assert [last][..0] == [];
    assert [VoxelRun(last.voxel, last.count + 1)][..0] == [];
    assert Repeat(Pack(last.voxel), last.count + 1) == Repeat(Pack(last.voxel), last.count) + [Pack(last.voxel)];
  }

  /** One addVoxel keeps runs maximal, adds 1 to the total and appends the packed voxel to the expansion. */
  lemma AppendRunFacts(runs: seq<VoxelRun>, v: Voxel)
    ensures Total(AppendRun(runs, v)) == Total(runs) + 1
    ensures Expand(AppendRun(runs, v)) == Expand(runs) + [Pack(v)]
    ensures Maximal(runs) ==> Maximal(AppendRun(runs, v))
  {
    if runs == [] || runs[|runs| - 1].voxel != v {
      NewRunFacts(runs, v);
    } else {
      var init := runs[..|runs| - 1];
      var last := runs[|runs| - 1];
      assert runs == init + [last];
      LongerRunFacts(init, last);
    }
    AppendRunMaximal(runs, v);
  }

  /** A new run holds a voxel different from the last run's; a lengthened run stays non-empty. */
  lemma AppendRunMaximal(runs: seq<VoxelRun>, v: Voxel)
    ensures Maximal(runs) ==> Maximal(AppendRun(runs, v))
  {
    if Maximal(runs) && runs != [] && runs[|runs| - 1].voxel == v {
      var r := AppendRun(runs, v);
      assert |r| == |runs| && r[..|r| - 1] == runs[..|runs| - 1];
      forall k | 0 < k < |r| ensures r[k - 1].voxel != r[k].voxel {
        if k < |r| - 1 {
          assert r[k - 1] == runs[k - 1] && r[k] == runs[k];
        } else {
          assert r[k - 1] == runs[k - 1] && r[k].voxel == runs[k].voxel;
        }
      }
    }
  }

  /**
   * Whatever voxels are added to an empty LeafData, the runs are maximal,
   * their counts sum to the number of voxels and they expand to the packed input.
   */
  lemma {:induction false} EncodeFacts(vs: seq<Voxel>)
    ensures Maximal(Encode(vs))
    ensures Total(Encode(vs)) == |vs|
    ensures Expand(Encode(vs)) == PackAll(vs)
  {
    if vs != [] {
      var init := vs[..|vs| - 1];
      EncodeFacts(init);
      AppendRunFacts(Encode(init), vs[|vs| - 1]);
      assert PackAll(vs) == PackAll(init) + [Pack(vs[|vs| - 1])];
    }
  }

  /** Unpacking packed words and packing them again gives the words back. */
  lemma PackUnpackAll(ws: seq<Word>)
    ensures PackAll(UnpackAll(ws)) == ws
  {
  }

  /** The leaf payload: run-length encoded voxels beside the uncompressed packed words. */
  class LeafData {
    var runs: seq<VoxelRun>
    var data: seq<Word>
    var totalVoxels: nat

    /** The relation addVoxel maintains between the three fields. */
    ghost predicate Consistent()
      reads this
    {
      Maximal(runs) && Total(runs) == totalVoxels == |data| && Expand(runs) == data
    }

    constructor ()
      ensures runs == [] && data == [] && totalVoxels == 0
      ensures Consistent()
    {
      runs := [];
      data := [];
      totalVoxels := 0;
    }

    method AddVoxel(v: Voxel)
      modifies this
      ensures runs == AppendRun(old(runs), v)
      ensures totalVoxels == old(totalVoxels) + 1
      ensures data == old(data) + [Pack(v)]
      ensures old(Consistent()) ==> Consistent()
    {
      AppendRunFacts(runs, v);
      var next := NextRuns(runs, v);
      ByteSplit(HighBytes(v.color), LowByte(v.voxelType));
      var packed := HighBytes(v.color) + LowByte(v.voxelType);
      runs, totalVoxels, data := next, totalVoxels + 1, data + [packed];
    }

    /** addVoxel's comparison of the new voxel with the last run's, field by field. */
    static method NextRuns(runs: seq<VoxelRun>, v: Voxel) returns (next: seq<VoxelRun>)
      ensures next == AppendRun(runs, v)
    {
      if runs == [] || runs[|runs| - 1].voxel.voxelType != v.voxelType || runs[|runs| - 1].voxel.color != v.color {
        next := runs + [VoxelRun(v, 1)];
      } else {
        next := runs[..|runs| - 1] + [VoxelRun(runs[|runs| - 1].voxel, runs[|runs| - 1].count + 1)];
      }
    }

    function GetVoxel(index: nat): (v: Voxel)
      reads this
      ensures index < |data| ==> Pack(v) == data[index] && v.voxelType < 256 && LowByte(v.color) == 0
      ensures index >= |data| ==> v == Voxel(0, 0)
    {
      if index < |data| then
        var packed := data[index];
        Voxel(LowByte(packed), HighBytes(packed))
      else
        Voxel(0, 0)
    }

    /** Rebuilds `data` from the runs, only when `data` is empty and there are runs. */
    method DecompressData()
      modifies this
      ensures runs == old(runs) && totalVoxels == old(totalVoxels)
      ensures data == if old(data) == [] && old(runs) != [] then Expand(old(runs)) else old(data)
    {
      if data == [] && runs != [] {
        var r := 0;
        while r < |runs|
          invariant 0 <= r <= |runs|
          invariant runs == old(runs) && totalVoxels == old(totalVoxels)
          invariant data == Expand(runs[..r])
        {
          var run := runs[r];
          ByteSplit(HighBytes(run.voxel.color), LowByte(run.voxel.voxelType));
          var packed := HighBytes(run.voxel.color) + LowByte(run.voxel.voxelType);
          var i := 0;
          while i < run.count
            invariant 0 <= i <= run.count
            invariant runs == old(runs) && totalVoxels == old(totalVoxels)
            invariant data == Expand(runs[..r]) + Repeat(packed, i)
          {
            data := data + [packed];
            i := i + 1;
          }
          assert runs[..r + 1][..r] == runs[..r];
          r := r + 1;
        }
        assert runs[..|runs|] == runs;
      }
    }

    /**
     * compressData as written: it iterates over `data` while addVoxel appends to
     * that same vector. Modelled is the execution in which the vector does not
     * reallocate: the loop reads the original words, and `data` ends up doubled.
     */
    method CompressData()
      modifies this
      ensures old(runs) == [] && old(data) != [] ==>
        runs == Encode(UnpackAll(old(data))) && totalVoxels == |old(data)| && data == old(data) + old(data)
      ensures !(old(runs) == [] && old(data) != []) ==>
        runs == old(runs) && data == old(data) && totalVoxels == old(totalVoxels)
    {
      if runs == [] && data != [] {
        ghost var d0 := data;
        var n := |data|;
        runs := [];
        totalVoxels := 0;
        var i := 0;
        while i < n
          invariant 0 <= i <= n
          invariant data == d0 + d0[..i]
          invariant runs == Encode(UnpackAll(d0[..i]))
          invariant totalVoxels == i
        {
          var packed := data[i];
          var v := Voxel(LowByte(packed), HighBytes(packed));
          assert UnpackAll(d0[..i + 1]) == UnpackAll(d0[..i]) + [v];
          AddVoxel(v);
          i := i + 1;
        }
        assert d0[..n] == d0;
      }
    }

    /**
     * compressData as evidently intended: the runs are rebuilt from `data`
     * without touching it, so the leaf is consistent afterwards.
     */
    method CompressDataCorrected()
      modifies this
      ensures old(runs) == [] && old(data) != [] ==>
        runs == Encode(UnpackAll(old(data))) && totalVoxels == |old(data)| && data == old(data) && Consistent()
      ensures !(old(runs) == [] && old(data) != []) ==>
        runs == old(runs) && data == old(data) && totalVoxels == old(totalVoxels)
    {
      if runs == [] && data != [] {
        var i := 0;
        var acc: seq<VoxelRun> := [];
        while i < |data|
          invariant 0 <= i <= |data|
          invariant acc == Encode(UnpackAll(data[..i]))
        {
          assert UnpackAll(data[..i + 1]) == UnpackAll(data[..i]) + [Unpack(data[i])];
          acc := AppendRun(acc, Unpack(data[i]));
          i := i + 1;
        }
        assert data[..|data|] == data;
        runs := acc;
        totalVoxels := |data|;
        EncodeFacts(UnpackAll(data));
        PackUnpackAll(data);
      }
    }
  }

  /**
   * compressData on a leaf whose slots were written directly (runs empty, one
   * word of data): afterwards `data` holds two words while `totalVoxels` is 1.
   */
  method CompressDoublesData() returns (dataSize: nat, total: nat)
    ensures dataSize == 2 && total == 1
  {
    var leaf := new LeafData();
    leaf.data := [0xFF03];
    leaf.CompressData();
    dataSize := |leaf.data|;
    total := leaf.totalVoxels;
  }

  /** A pointer into the pool: a block index and a slot index within that block. */
  datatype Ptr = Ptr(block: nat, index: nat)

  /** Every slot before (block, index), in block-then-slot order, is used. */
  ghost predicate UsedBefore(used: seq<seq<bool>>, block: nat, index: nat)
  {
    (forall b, i :: 0 <= b < block && b < |used| && 0 <= i < |used[b]| ==> used[b][i]) &&
    (block < |used| ==> forall i :: 0 <= i < index && i < |used[block]| ==> used[block][i])
  }

  function Falses(n: nat): (r: seq<bool>)
    ensures |r| == n && forall i :: 0 <= i < n ==> !r[i]
  {
    if n == 0 then [] else Falses(n - 1) + [false]
  }

  /** A fixed-size-block allocator: one `used` flag per slot, blocks appended on demand. */
  class MemoryPool {
    const blockSize: nat
    var used: seq<seq<bool>>

    ghost predicate Valid()
      reads this
    {
      blockSize > 0 && forall b :: 0 <= b < |used| ==> |used[b]| == blockSize
    }

    constructor (blockSize: nat)
      requires blockSize > 0
      ensures this.blockSize == blockSize && used == [] && Valid()
    {
      this.blockSize := blockSize;
      used := [];
    }

    /** The first unused slot in block order is taken; only when none is left is a block appended. */
    method Allocate() returns (p: Ptr)
      requires Valid()
      modifies this
      ensures Valid()
      ensures p.block <= |old(used)| && p.index < blockSize
      ensures UsedBefore(old(used), p.block, p.index)
      ensures p.block < |old(used)| ==>
        !old(used)[p.block][p.index] && used == old(used)[p.block := old(used)[p.block][p.index := true]]
      ensures p.block == |old(used)| ==>
        p.index == 0 && used == old(used) + [[true] + Falses(blockSize - 1)]
    {
      var b := 0;
      while b < |used|
        invariant 0 <= b <= |used|
        invariant UsedBefore(used, b, 0)
      {
        var i := 0;
        while i < blockSize
          invariant 0 <= i <= blockSize
          invariant UsedBefore(used, b, i)
        {
          if !used[b][i] {
            used := used[b := used[b][i := true]];
            return Ptr(b, i);
          }
          i := i + 1;
        }
        b := b + 1;
      }
      var newBlock := Falses(blockSize)[0 := true];
      assert newBlock == [true] + Falses(blockSize - 1);
      used := used + [newBlock];
      p := Ptr(|used| - 1, 0);
    }

    /** Clears the flag of the slot `p` points into; a pointer outside every block changes nothing. */
    method Deallocate(p: Ptr)
      requires Valid()
      modifies this
      ensures Valid()
      ensures p.block < |old(used)| && p.index < blockSize ==>
        used == old(used)[p.block := old(used)[p.block][p.index := false]]
      ensures !(p.block < |old(used)| && p.index < blockSize) ==> used == old(used)
    {
      var b := 0;
      while b < |used|
        invariant 0 <= b <= |used|
        invariant used == old(used)
        invariant b <= p.block || p.index >= blockSize
      {
        if b == p.block && p.index < blockSize {
          used := used[b := used[b][p.index := false]];
          return;
        }
        b := b + 1;
      }
    }
  }
}
