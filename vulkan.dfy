/**
 * The Vulkan values the engine reads and branches on: result codes, 32-bit
 * masks, queue families and the life cycle of a frame fence. Vulkan calls
 * themselves are not modelled; their answers are inputs of the methods that
 * use these types.
 */
module VulkanTypes {
  import opened Wrappers
  import opened Words

  /** The result codes the engine tells apart; every other code is `Failed`. */
  datatype VkResult = Success | Suboptimal | OutOfDate | Failed

  /** VK_MAX_MEMORY_TYPES: the length of the memoryTypes array of VkPhysicalDeviceMemoryProperties. */
  const MAX_MEMORY_TYPES: nat := 32

  /** `(mask & (1 << i)) != 0` for a 32-bit mask. */
  predicate HasBit(mask: Word, i: nat)
    requires i < 32
  {
    (mask as bv32) & ((1 as bv32) << i) != 0
  }

  /** `(flags & required) == required`. */
  predicate Includes(flags: Word, required: Word) {
    (flags as bv32) & (required as bv32) == required as bv32
  }

  /** Memory type `i` is allowed by the filter and carries every requested property flag. */
  predicate MemoryTypeFits(typeFilter: Word, propertyFlags: seq<Word>, properties: Word, i: nat)
    requires i < |propertyFlags| <= MAX_MEMORY_TYPES
  {
    HasBit(typeFilter, i) && Includes(propertyFlags[i], properties)
  }

  /**
   * `findMemoryType`: the smallest index below memoryTypeCount whose bit is
   * set in `typeFilter` and whose property flags include `properties`;
   * None stands for the exception thrown when no index qualifies.
   */
  method FindMemoryType(typeFilter: Word, propertyFlags: seq<Word>, properties: Word) returns (r: Option<nat>)
    requires |propertyFlags| <= MAX_MEMORY_TYPES
    ensures r.Some? ==> r.value < |propertyFlags| && MemoryTypeFits(typeFilter, propertyFlags, properties, r.value)
    ensures r.Some? ==> forall j :: 0 <= j < r.value ==> !MemoryTypeFits(typeFilter, propertyFlags, properties, j)
    ensures r.None? <==> forall j :: 0 <= j < |propertyFlags| ==> !MemoryTypeFits(typeFilter, propertyFlags, properties, j)
  {
    var i := 0;
    while i < |propertyFlags|
      invariant 0 <= i <= |propertyFlags|
      invariant forall j :: 0 <= j < i ==> !MemoryTypeFits(typeFilter, propertyFlags, properties, j)
    {
      if HasBit(typeFilter, i) && Includes(propertyFlags[i], properties) {
        assert MemoryTypeFits(typeFilter, propertyFlags, properties, i);
        return Some(i);
      }
      i := i + 1;
    }
    return None;
  }

  /** What the engine reads of one queue family: its flags, and the surface-support answer for its index. */
  datatype QueueFamily = QueueFamily(queueFlags: Word, presentSupport: bool)

  /** VK_QUEUE_GRAPHICS_BIT is bit 0 of the queue flags. */
  predicate Graphics(f: QueueFamily) {
    HasBit(f.queueFlags, 0)
  }

  /** `QueueFamilyIndices`: two optional family indices. */
  datatype QueueFamilyIndices = QueueFamilyIndices(graphicsFamily: Option<nat>, presentFamily: Option<nat>)

  const NO_FAMILIES: QueueFamilyIndices := QueueFamilyIndices(None, None)

  /** `isComplete`: both indices are set. */
  predicate IsComplete(q: QueueFamilyIndices) {
    q.graphicsFamily.Some? && q.presentFamily.Some?
  }

  /** One pass of the queue-family loop at index `i`: a capable family overwrites the index recorded so far. */
  function Record(q: QueueFamilyIndices, f: QueueFamily, i: nat): QueueFamilyIndices {
    QueueFamilyIndices(
      if Graphics(f) then Some(i) else q.graphicsFamily,
      if f.presentSupport then Some(i) else q.presentFamily)
  }

  /** The indices after the loop has handled families 0 to n - 1, starting from `start`. */
  function ScanUpTo(fams: seq<QueueFamily>, start: QueueFamilyIndices, n: nat): QueueFamilyIndices
    requires n <= |fams|
  {
    if n == 0 then start else Record(ScanUpTo(fams, start, n - 1), fams[n - 1], n - 1)
  }

  function ScanLengthFrom(fams: seq<QueueFamily>, start: QueueFamilyIndices, n: nat): (m: nat)
    requires 1 <= n <= |fams|
    ensures n <= m <= |fams|
    decreases |fams| - n
  {
    if IsComplete(ScanUpTo(fams, start, n)) || n == |fams| then n else ScanLengthFrom(fams, start, n + 1)
  }

  /** How many families the loop handles: it breaks right after the first index at which the indices are complete. */
  function ScanLength(fams: seq<QueueFamily>, start: QueueFamilyIndices): (m: nat)
    ensures m <= |fams|
  {
    if |fams| == 0 then 0 else ScanLengthFrom(fams, start, 1)
  }

  /** The indices the loop leaves behind. */
  function ScanFamilies(fams: seq<QueueFamily>, start: QueueFamilyIndices): QueueFamilyIndices {
    ScanUpTo(fams, start, ScanLength(fams, start))
  }

  /** The scan length is the first index at which the indices are complete, or all families. */
  lemma {:induction false} ScanLengthFromIs(fams: seq<QueueFamily>, start: QueueFamilyIndices, n: nat, m: nat)
    requires 1 <= n <= m <= |fams|
    requires forall k :: n <= k < m ==> !IsComplete(ScanUpTo(fams, start, k))
    requires IsComplete(ScanUpTo(fams, start, m)) || m == |fams|
    ensures ScanLengthFrom(fams, start, n) == m
    decreases m - n
  {
    if n < m {
      ScanLengthFromIs(fams, start, n + 1, m);
    }
  }

  /** The scan stops at a complete index or at the end, and at no earlier complete index. */
  lemma {:induction false} ScanLengthStops(fams: seq<QueueFamily>, start: QueueFamilyIndices, n: nat)
    requires 1 <= n <= |fams|
    ensures forall k :: n <= k < ScanLengthFrom(fams, start, n) ==> !IsComplete(ScanUpTo(fams, start, k))
    ensures IsComplete(ScanUpTo(fams, start, ScanLengthFrom(fams, start, n))) || ScanLengthFrom(fams, start, n) == |fams|
    decreases |fams| - n
  {
    if !(IsComplete(ScanUpTo(fams, start, n)) || n == |fams|) {
      ScanLengthStops(fams, start, n + 1);
    }
  }

  /**
   * The queue-family loop of findQueueFamilies and createLogicalDevice:
   * walk the families in order, record each capable index, and stop at the
   * first index where both are known.
   */
  method FindQueueFamilies(fams: seq<QueueFamily>, start: QueueFamilyIndices) returns (q: QueueFamilyIndices)
    ensures q == ScanFamilies(fams, start)
  {
    q := start;
    var i := 0;
    while i < |fams|
      invariant 0 <= i <= |fams|
      invariant q == ScanUpTo(fams, start, i)
      invariant forall k :: 1 <= k <= i ==> !IsComplete(ScanUpTo(fams, start, k))
    {
      q := Record(q, fams[i], i);
      assert q == ScanUpTo(fams, start, i + 1);
      if IsComplete(q) {
        ScanStopsAt(fams, start, i + 1);
        return;
      }
      assert !IsComplete(ScanUpTo(fams, start, i + 1));
      i := i + 1;
    }
    if |fams| > 0 {
      ScanStopsAt(fams, start, |fams|);
    }
  }

  /** The loop's result is the indices after the first m families when m is where the scan stops. */
  lemma ScanStopsAt(fams: seq<QueueFamily>, start: QueueFamilyIndices, m: nat)
    requires 1 <= m <= |fams|
    requires forall k :: 1 <= k < m ==> !IsComplete(ScanUpTo(fams, start, k))
    requires IsComplete(ScanUpTo(fams, start, m)) || m == |fams|
    ensures ScanFamilies(fams, start) == ScanUpTo(fams, start, m)
  {
    ScanLengthFromIs(fams, start, 1, m);
  }

  /** A graphics family with none after it below n is the recorded graphics index after n passes. */
  lemma {:induction false} LastGraphicsRecorded(fams: seq<QueueFamily>, start: QueueFamilyIndices, n: nat, g: nat)
    requires g < n <= |fams| && Graphics(fams[g])
    requires forall k :: g < k < n ==> !Graphics(fams[k])
    ensures ScanUpTo(fams, start, n).graphicsFamily == Some(g)
  {
    if g < n - 1 {
      LastGraphicsRecorded(fams, start, n - 1, g);
    }
  }

  /** A present-capable family with none after it below n is the recorded present index after n passes. */
  lemma {:induction false} LastPresentRecorded(fams: seq<QueueFamily>, start: QueueFamilyIndices, n: nat, p: nat)
    requires p < n <= |fams| && fams[p].presentSupport
    requires forall k :: p < k < n ==> !fams[k].presentSupport
    ensures ScanUpTo(fams, start, n).presentFamily == Some(p)
  {
    if p < n - 1 {
      LastPresentRecorded(fams, start, n - 1, p);
    }
  }

  /**
   * With no graphics family below n the graphics index is still the starting
   * one, and likewise for presentation: the loop never clears an index.
   */
  lemma {:induction false} ScanKeepsStart(fams: seq<QueueFamily>, start: QueueFamilyIndices, n: nat)
    requires n <= |fams|
    ensures (forall k :: 0 <= k < n ==> !Graphics(fams[k])) ==> ScanUpTo(fams, start, n).graphicsFamily == start.graphicsFamily
    ensures (forall k :: 0 <= k < n ==> !fams[k].presentSupport) ==> ScanUpTo(fams, start, n).presentFamily == start.presentFamily
  {
    if n > 0 {
      ScanKeepsStart(fams, start, n - 1);
    }
  }

  /** Starting from empty indices, a recorded index always names a capable family. */
  lemma {:induction false} ScanRecordsCapable(fams: seq<QueueFamily>, n: nat)
    requires n <= |fams|
    ensures ScanUpTo(fams, NO_FAMILIES, n).graphicsFamily.Some? ==>
      var g := ScanUpTo(fams, NO_FAMILIES, n).graphicsFamily.value; g < n && Graphics(fams[g])
    ensures ScanUpTo(fams, NO_FAMILIES, n).presentFamily.Some? ==>
      var p := ScanUpTo(fams, NO_FAMILIES, n).presentFamily.value; p < n && fams[p].presentSupport
  {
    if n > 0 {
      ScanRecordsCapable(fams, n - 1);
    }
  }

  /** Once a graphics family and a present family exist, the full scan is complete. */
  lemma FullScanComplete(fams: seq<QueueFamily>, g: nat, p: nat)
    requires g < |fams| && Graphics(fams[g]) && p < |fams| && fams[p].presentSupport
    ensures IsComplete(ScanUpTo(fams, NO_FAMILIES, |fams|))
  {
    var n := |fams|;
    var lg := g;
    while exists k :: lg < k < n && Graphics(fams[k])
      invariant g <= lg < n && Graphics(fams[lg])
      decreases n - lg
    {
      var k :| lg < k < n && Graphics(fams[k]);
      lg := k;
    }
    LastGraphicsRecorded(fams, NO_FAMILIES, n, lg);
    var lp := p;
    while exists k :: lp < k < n && fams[k].presentSupport
      invariant p <= lp < n && fams[lp].presentSupport
      decreases n - lp
    {
      var k :| lp < k < n && fams[k].presentSupport;
      lp := k;
    }
    LastPresentRecorded(fams, NO_FAMILIES, n, lp);
  }

  /**
   * From empty indices the search succeeds exactly when some family has
   * graphics and some family can present, and each index it reports names
   * a capable family.
   */
  lemma QueueSearchComplete(fams: seq<QueueFamily>)
    ensures IsComplete(ScanFamilies(fams, NO_FAMILIES)) <==>
      (exists g :: 0 <= g < |fams| && Graphics(fams[g])) && (exists p :: 0 <= p < |fams| && fams[p].presentSupport)
    ensures ScanFamilies(fams, NO_FAMILIES).graphicsFamily.Some? ==>
      var g := ScanFamilies(fams, NO_FAMILIES).graphicsFamily.value; g < |fams| && Graphics(fams[g])
    ensures ScanFamilies(fams, NO_FAMILIES).presentFamily.Some? ==>
      var p := ScanFamilies(fams, NO_FAMILIES).presentFamily.value; p < |fams| && fams[p].presentSupport
  {
    var n := ScanLength(fams, NO_FAMILIES);
    if |fams| > 0 {
      ScanLengthStops(fams, NO_FAMILIES, 1);
    }
    ScanRecordsCapable(fams, n);
    if (exists g :: 0 <= g < |fams| && Graphics(fams[g])) && (exists p :: 0 <= p < |fams| && fams[p].presentSupport) {
      var g :| 0 <= g < |fams| && Graphics(fams[g]);
      var p :| 0 <= p < |fams| && fams[p].presentSupport;
      if !IsComplete(ScanUpTo(fams, NO_FAMILIES, n)) {
        FullScanComplete(fams, g, p);
      }
    }
  }

  /** The set of distinct family indices of complete indices; its size is the number of queue create-infos. */
  function UniqueFamilies(q: QueueFamilyIndices): (s: set<nat>)
    requires IsComplete(q)
  {
    {q.graphicsFamily.value, q.presentFamily.value}
  }

  /** One queue create-info when graphics and present share a family, two otherwise. */
  lemma UniqueFamilyCount(q: QueueFamilyIndices)
    requires IsComplete(q)
    ensures |UniqueFamilies(q)| == 1 <==> q.graphicsFamily == q.presentFamily
    ensures |UniqueFamilies(q)| == 2 <==> q.graphicsFamily != q.presentFamily
  {
    var g, p := q.graphicsFamily.value, q.presentFamily.value;
    if g != p {
      assert {g, p} == {g} + {p};
    }
  }

  /**
   * The steps a short-circuit chain of creation calls runs: every step up
   * to and including the first that fails.
   */
  function Attempted<S>(steps: seq<S>, ok: S -> bool): (r: seq<S>)
    ensures |r| <= |steps|
  {
    if |steps| == 0 then []
    else if ok(steps[0]) then [steps[0]] + Attempted(steps[1..], ok)
    else [steps[0]]
  }

  /** Every step of the chain succeeds. */
  predicate AllSucceed<S>(steps: seq<S>, ok: S -> bool) {
    forall i :: 0 <= i < |steps| ==> ok(steps[i])
  }

  /** The attempted steps are a prefix of the chain, and all but the last of them succeeded. */
  lemma {:induction false} AttemptedPrefix<S>(steps: seq<S>, ok: S -> bool)
    ensures Attempted(steps, ok) == steps[..|Attempted(steps, ok)|]
    ensures forall i :: 0 <= i < |Attempted(steps, ok)| - 1 ==> ok(steps[i])
  {
    if |steps| > 0 && ok(steps[0]) {
      AttemptedPrefix(steps[1..], ok);
      var r := Attempted(steps[1..], ok);
      assert Attempted(steps, ok) == [steps[0]] + r;
      forall i | 0 <= i < |r| ensures ok(steps[i]) {
        if i > 0 {
          assert steps[i] == steps[1..][i - 1];
        }
      }
    }
  }

  /**
   * The chain runs every step exactly when every step succeeds; otherwise
   * it ends at a failing step.
   */
  lemma {:induction false} AttemptedStops<S>(steps: seq<S>, ok: S -> bool)
    ensures AllSucceed(steps, ok) ==> Attempted(steps, ok) == steps
    ensures !AllSucceed(steps, ok) ==> |Attempted(steps, ok)| > 0 && !ok(steps[|Attempted(steps, ok)| - 1])
  {
    if |steps| > 0 && ok(steps[0]) {
      AttemptedStops(steps[1..], ok);
      AttemptedPrefix(steps[1..], ok);
      if AllSucceed(steps, ok) {
        assert AllSucceed(steps[1..], ok) by {
          forall i | 0 <= i < |steps| - 1 ensures ok(steps[1..][i]) {
            assert steps[1..][i] == steps[i + 1];
          }
        }
        assert [steps[0]] + steps[1..] == steps;
      } else {
        var j :| 0 <= j < |steps| && !ok(steps[j]);
        assert steps[j] == steps[1..][j - 1];
        var r := Attempted(steps[1..], ok);
        assert steps[|r|] == steps[1..][|r| - 1];
      }
    }
  }

  /** A chain whose first i steps succeed and whose step i fails runs exactly steps 0 to i. */
  lemma {:induction false} AttemptedUpTo<S>(steps: seq<S>, ok: S -> bool, i: nat)
    requires i < |steps| && !ok(steps[i])
    requires AllSucceed(steps[..i], ok)
    ensures Attempted(steps, ok) == steps[..i + 1] && !AllSucceed(steps, ok)
  {
    if i > 0 {
      assert ok(steps[..i][0]);
      assert steps[1..][..i - 1] == steps[..i][1..];
      ghost var tail := steps[1..][..i - 1];
      assert AllSucceed(tail, ok) by {
        forall j | 0 <= j < |tail| ensures ok(tail[j]) {
          assert tail[j] == steps[..i][j + 1];
        }
      }
      AttemptedUpTo(steps[1..], ok, i - 1);
      assert [steps[0]] + steps[1..][..i] == steps[..i + 1];
    }
  }

  /**
   * A frame fence: `Signalled`; `Pending`, unsignalled with a submitted batch
   * that will signal it; or `Unsignalled`, reset with no batch submitted, on
   * which a wait with an infinite timeout never returns.
   */
  datatype Fence = Signalled | Pending | Unsignalled

  /** `vkWaitForFences` with an infinite timeout, when it returns: a pending fence has been signalled. */
  function AfterWait(f: Fence): (g: Fence)
    ensures !f.Unsignalled? ==> g.Signalled?
    ensures f.Unsignalled? ==> g.Unsignalled?
  {
    if f.Pending? then Signalled else f
  }

  /**
   * The synchronisation state a frame loop relies on: the fence of each
   * frame slot, and, for each command buffer whose last submission has not
   * been waited for, the slot whose fence that submission signals.
   */
  datatype FrameSync = FrameSync(fences: seq<Fence>, inFlight: map<nat, nat>)

  /** Every unfinished submission is guarded by a pending fence. */
  predicate SyncValid(s: FrameSync) {
    forall b :: b in s.inFlight ==> s.inFlight[b] < |s.fences| && s.fences[s.inFlight[b]].Pending?
  }

  /** Fences created with VK_FENCE_CREATE_SIGNALED_BIT and nothing submitted. */
  function InitialSync(slots: nat): (s: FrameSync)
    ensures |s.fences| == slots && SyncValid(s)
    ensures forall i :: 0 <= i < slots ==> s.fences[i].Signalled?
  {
    FrameSync(seq(slots, _ => Signalled), map[])
  }

  /** A wait with an infinite timeout on this slot's fence never returns. */
  predicate WaitHangs(s: FrameSync, slot: nat)
    requires slot < |s.fences|
  {
    s.fences[slot].Unsignalled?
  }

  /**
   * vkWaitForFences on one slot, once it has returned: the fence is
   * signalled and every submission it guards has completed.
   */
  function WaitFence(s: FrameSync, slot: nat): (t: FrameSync)
    requires slot < |s.fences| && !WaitHangs(s, slot)
    ensures |t.fences| == |s.fences| && t.fences[slot].Signalled?
    ensures forall i :: 0 <= i < |s.fences| && i != slot ==> t.fences[i] == s.fences[i]
    ensures forall b :: b in t.inFlight <==> b in s.inFlight && s.inFlight[b] != slot
    ensures SyncValid(s) ==> SyncValid(t)
  {
    FrameSync(s.fences[slot := AfterWait(s.fences[slot])], map b | b in s.inFlight && s.inFlight[b] != slot :: s.inFlight[b])
  }

  /** vkResetFences on one slot. */
  function ResetFence(s: FrameSync, slot: nat): (t: FrameSync)
    requires slot < |s.fences|
    ensures |t.fences| == |s.fences| && t.fences[slot].Unsignalled? && t.inFlight == s.inFlight
    ensures SyncValid(s) && (forall b :: b in s.inFlight ==> s.inFlight[b] != slot) ==> SyncValid(t)
  {
    FrameSync(s.fences[slot := Unsignalled], s.inFlight)
  }

  /** vkQueueSubmit of one command buffer that signals this slot's fence. */
  function SubmitWith(s: FrameSync, slot: nat, buffer: nat): (t: FrameSync)
    requires slot < |s.fences|
    ensures |t.fences| == |s.fences| && t.fences[slot].Pending?
    ensures buffer in t.inFlight && t.inFlight[buffer] == slot
    ensures SyncValid(s) ==> SyncValid(t)
  {
    FrameSync(s.fences[slot := Pending], s.inFlight[buffer := slot])
  }
}
