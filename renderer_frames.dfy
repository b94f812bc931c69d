/**
 * The per-frame part of the older Renderer (Renderer.cpp): the world
 * statistics of calculateStatistics, and draw's fence and frame-index logic
 * over abstract Vulkan answers.
 */
module RendererFrames {
  import opened Geometry
  import opened Voxels
  import opened Chunks
  import opened ChunkWorld
  import opened VulkanTypes
  import opened Metrics

  /** Renderer::MAX_FRAMES_IN_FLIGHT. */
  const MAX_FRAMES_IN_FLIGHT: nat := 2

  /** The shortest interval between two metrics samples: one millisecond. */
  const SAMPLE_INTERVAL: real := 0.001

  /** The frame count and sample logs of the frame clock, at one moment. */
  datatype Clock = Clock(frameCount: nat, lastFrameTime: real, fpsSamples: seq<real>, upsSamples: seq<real>)

  /** Frames per second: frames counted over the seconds elapsed. */
  function Rate(frames: nat, elapsed: real): real
    requires elapsed > 0.0
  {
    frames as real / elapsed
  }

  /**
   * What one updatePerformanceMetrics call at `now` does to the clock: below
   * a millisecond the frame is only counted; otherwise the frames per second
   * since the last sample and the engine's update rate are recorded and the
   * count restarts.
   */
  ghost predicate Ticked(c0: Clock, now: real, ups: real, c1: Clock) {
    if now - c0.lastFrameTime >= SAMPLE_INTERVAL then
      c1 == Clock(0, now, c0.fpsSamples + [Rate(c0.frameCount + 1, now - c0.lastFrameTime)], c0.upsSamples + [ups])
    else
      c1 == c0.(frameCount := c0.frameCount + 1)
  }

  /** The two ways a clock ticks: a sample recorded, or one more frame counted. */
  lemma TickedCases(c0: Clock, now: real, ups: real)
    ensures now - c0.lastFrameTime >= SAMPLE_INTERVAL ==>
      Ticked(c0, now, ups, Clock(0, now, c0.fpsSamples + [Rate(c0.frameCount + 1, now - c0.lastFrameTime)], c0.upsSamples + [ups]))
    ensures now - c0.lastFrameTime < SAMPLE_INTERVAL ==>
      Ticked(c0, now, ups, Clock(c0.frameCount + 1, c0.lastFrameTime, c0.fpsSamples, c0.upsSamples))
  {
  }

  /**
   * A recorded frame rate is positive and, as samples are at least a
   * millisecond apart, at most a thousand times the frames counted.
   */
  lemma TickedRateBounded(c0: Clock, now: real, ups: real, c1: Clock)
    requires Ticked(c0, now, ups, c1) && now - c0.lastFrameTime >= SAMPLE_INTERVAL
    ensures |c1.fpsSamples| == |c0.fpsSamples| + 1 && |c1.upsSamples| == |c0.upsSamples| + 1
    ensures 0.0 < c1.fpsSamples[|c0.fpsSamples|] <= 1000.0 * (c0.frameCount + 1) as real
  {
    var n := (c0.frameCount + 1) as real;
    var dt := now - c0.lastFrameTime;
    QuotientBetween(n, dt, 0.0, 1000.0 * n);
    assert c1.fpsSamples[|c0.fpsSamples|] == Rate(c0.frameCount + 1, dt) == n / dt;
  }

  /**
   * The body of calculateStatistics' innermost loop for one cell: whether it
   * is solid, and how many of its six neighbours inside the chunk are solid
   * (none counted for an air cell).
   */
  method CountCell(cells: seq<Voxel>, x: int, y: int, z: int) returns (active: nat, culled: nat)
    requires IsCells(cells) && InBounds(x, y, z)
    ensures active == B2N(cells[Index(x, y, z)].isActive)
    ensures culled == CulledFaces(cells, Index(x, y, z))
    ensures culled <= 6 * active
  {
    IndexCoords(x, y, z);
    var voxel := CellAt(cells, x, y, z);
    if !voxel.isActive {
      return 0, 0;
    }
    // Each neighbour test adds one when it holds, written without branching.
    culled := B2N(x > 0 && CellAt(cells, x - 1, y, z).isActive);
    culled := culled + B2N(x < CHUNK_SIZE - 1 && CellAt(cells, x + 1, y, z).isActive);
    culled := culled + B2N(y > 0 && CellAt(cells, x, y - 1, z).isActive);
    culled := culled + B2N(y < CHUNK_SIZE - 1 && CellAt(cells, x, y + 1, z).isActive);
    culled := culled + B2N(z > 0 && CellAt(cells, x, y, z - 1).isActive);
    culled := culled + B2N(z < CHUNK_SIZE - 1 && CellAt(cells, x, y, z + 1).isActive);
    active := 1;
  }

  /**
   * calculateStatistics' triple loop over one chunk: the solid voxels and the
   * culled faces of all 4096 cells, in the mesher's z, y, x order.
   */
  method CountChunk(cells: seq<Voxel>) returns (active: nat, culled: nat)
    requires IsCells(cells)
    ensures active == ActiveUpTo(cells, CHUNK_VOLUME)
    ensures culled == CulledUpTo(cells, CHUNK_VOLUME)
  {
    active, culled := 0, 0;
    var z := 0;
    while z < CHUNK_SIZE
      invariant 0 <= z <= CHUNK_SIZE
      invariant active == ActiveUpTo(cells, CHUNK_SIZE * CHUNK_SIZE * z)
      invariant culled == CulledUpTo(cells, CHUNK_SIZE * CHUNK_SIZE * z)
    {
      var y := 0;
      while y < CHUNK_SIZE
        invariant 0 <= y <= CHUNK_SIZE
        invariant active == ActiveUpTo(cells, CHUNK_SIZE * (y + CHUNK_SIZE * z))
        invariant culled == CulledUpTo(cells, CHUNK_SIZE * (y + CHUNK_SIZE * z))
      {
        active, culled := CountRow(cells, y, z, active, culled);
        y := y + 1;
      }
      z := z + 1;
    }
  }

  /** The innermost loop: the sixteen cells of one row added to the running counts. */
  method CountRow(cells: seq<Voxel>, y: int, z: int, active0: nat, culled0: nat) returns (active: nat, culled: nat)
    requires IsCells(cells) && 0 <= y < CHUNK_SIZE && 0 <= z < CHUNK_SIZE
    requires active0 == ActiveUpTo(cells, CHUNK_SIZE * (y + CHUNK_SIZE * z))
    requires culled0 == CulledUpTo(cells, CHUNK_SIZE * (y + CHUNK_SIZE * z))
    ensures active == ActiveUpTo(cells, CHUNK_SIZE * (y + 1 + CHUNK_SIZE * z))
    ensures culled == CulledUpTo(cells, CHUNK_SIZE * (y + 1 + CHUNK_SIZE * z))
  {
    active, culled := active0, culled0;
    var x := 0;
    while x < CHUNK_SIZE
      invariant 0 <= x <= CHUNK_SIZE
      invariant active == ActiveUpTo(cells, x + CHUNK_SIZE * (y + CHUNK_SIZE * z))
      invariant culled == CulledUpTo(cells, x + CHUNK_SIZE * (y + CHUNK_SIZE * z))
    {
      var a, c := CountCell(cells, x, y, z);
      active, culled := active + a, culled + c;
      x := x + 1;
    }
  }

  /** The per-chunk quantities summed over the world. */
  datatype Tally = ActiveTally | CulledTally | ExposedTally | FloatTally

  /** One chunk's tally: solid voxels, culled faces, exposed faces or mesh floats. */
  function ChunkTally(c: ChunkState, t: Tally): nat {
    if !IsCells(c.cells) then 0
    else match t
      case ActiveTally => ActiveUpTo(c.cells, CHUNK_VOLUME)
      case CulledTally => CulledUpTo(c.cells, CHUNK_VOLUME)
      case ExposedTally => ExposedUpTo(c.cells, CHUNK_VOLUME)
      case FloatTally => |c.vertexData|
  }

  /** The tally summed over the chunks at `keys`, in no particular order. */
  ghost function TableSum(ch: Table, keys: set<IVec3>, t: Tally): nat
    requires keys <= ch.Keys
  {
    if keys == {} then 0
    else
      var p :| p in keys;
      ChunkTally(ch[p], t) + TableSum(ch, keys - {p}, t)
  }

  /** Any chunk can be taken out of the sum first, so the hash map's order does not matter. */
  lemma {:induction false} TableSumRemove(ch: Table, keys: set<IVec3>, t: Tally, p: IVec3)
    requires keys <= ch.Keys && p in keys
    ensures TableSum(ch, keys, t) == ChunkTally(ch[p], t) + TableSum(ch, keys - {p}, t)
    decreases |keys|
  {
    var q :| q in keys && TableSum(ch, keys, t) == ChunkTally(ch[q], t) + TableSum(ch, keys - {q}, t);
    if q != p {
      TableSumRemove(ch, keys - {q}, t, p);
      TableSumRemove(ch, keys - {p}, t, q);
      assert keys - {q} - {p} == keys - {p} - {q};
    }
  }

  /** Six faces per solid voxel, each either exposed or culled, summed over chunks. */
  lemma {:induction false} TableFacesSplit(ch: Table, keys: set<IVec3>)
    requires keys <= ch.Keys
    ensures 6 * TableSum(ch, keys, ActiveTally) == TableSum(ch, keys, ExposedTally) + TableSum(ch, keys, CulledTally)
    decreases |keys|
  {
    if keys != {} {
      var p :| p in keys;
      TableSumRemove(ch, keys, ActiveTally, p);
      TableSumRemove(ch, keys, ExposedTally, p);
      TableSumRemove(ch, keys, CulledTally, p);
      TableFacesSplit(ch, keys - {p});
      if IsCells(ch[p].cells) {
        StatisticsMatchMesh(ch[p].cells, CHUNK_VOLUME);
      }
    }
  }

  /** In a valid table every chunk's vertex buffer holds 54 floats per exposed face. */
  lemma {:induction false} TableFloats(ch: Table, keys: set<IVec3>)
    requires keys <= ch.Keys && TableValid(ch)
    ensures TableSum(ch, keys, FloatTally) == FACE_FLOATS * TableSum(ch, keys, ExposedTally)
    decreases |keys|
  {
    if keys != {} {
      var p :| p in keys;
      TableSumRemove(ch, keys, FloatTally, p);
      TableSumRemove(ch, keys, ExposedTally, p);
      TableFloats(ch, keys - {p});
      assert ChunkOk(ch[p], p);
      MeshSize(ch[p].cells, p, CHUNK_VOLUME);
    }
  }

  /**
   * The statistics panel agrees with the meshes: the potential faces minus the
   * culled ones are exactly the faces in the world's vertex buffers.
   */
  lemma StatisticsMatchWorldMesh(ch: Table)
    requires TableValid(ch)
    ensures TableSum(ch, ch.Keys, CulledTally) <= 6 * TableSum(ch, ch.Keys, ActiveTally)
    ensures FACE_FLOATS * (6 * TableSum(ch, ch.Keys, ActiveTally) - TableSum(ch, ch.Keys, CulledTally)) ==
      TableSum(ch, ch.Keys, FloatTally)
  {
    TableFacesSplit(ch, ch.Keys);
    TableFloats(ch, ch.Keys);
  }

  /** What draw's Vulkan calls answer in one frame. */
  datatype DrawAnswers = DrawAnswers(
    acquire: VkResult, imageIndex: nat, beginOk: bool, endOk: bool, submitOk: bool, present: VkResult)

  /** How draw ends: a presented frame, an early return, a rethrown exception, or a fence wait that never returns. */
  datatype DrawOutcome = Drawn | Skipped | Threw | Hung

  /**
   * The frame state draw works on: the frame index, the fences of the frame
   * slots with the command buffers they guard, and whether a command buffer
   * has been reset while a submission of it might still be executing.
   */
  datatype DrawState = DrawState(currentFrame: nat, sync: FrameSync, hazard: bool)

  datatype DrawResult = DrawResult(state: DrawState, outcome: DrawOutcome)

  /** Two fence slots, a frame index below two, and every pending submission guarded. */
  predicate DrawStateOk(s: DrawState) {
    s.currentFrame < MAX_FRAMES_IN_FLIGHT && |s.sync.fences| == MAX_FRAMES_IN_FLIGHT && SyncValid(s.sync)
  }

  /** The state after createSyncObjects: frame 0, both fences signalled, nothing submitted. */
  function InitialDrawState(): (s: DrawState)
    ensures DrawStateOk(s) && !s.hazard
  {
    DrawState(0, InitialSync(MAX_FRAMES_IN_FLIGHT), false)
  }

  /** The wait returned and the image was acquired, so draw goes on to reset the fence. */
  predicate Acquired(s: DrawState, a: DrawAnswers)
    requires DrawStateOk(s)
  {
    !WaitHangs(s.sync, s.currentFrame) && (a.acquire.Success? || a.acquire.Suboptimal?)
  }

  /**
   * One call of draw, recording into and submitting command buffer `buffer`:
   * wait on this frame's fence; return on an out-of-date acquire and throw on
   * other failures; reset the fence and the command buffer; throw if begin,
   * end or submit fails; submit with this frame's fence; return on an
   * out-of-date or suboptimal present and throw on other failures; advance the
   * frame index only after a successful present.
   */
  function DrawStepWith(s: DrawState, a: DrawAnswers, buffer: nat): (r: DrawResult)
    requires DrawStateOk(s)
    ensures DrawStateOk(r.state)
    ensures r.outcome.Drawn? <==> r.state.currentFrame != s.currentFrame
    ensures r.outcome.Drawn? ==> r.state.currentFrame == (s.currentFrame + 1) % MAX_FRAMES_IN_FLIGHT
    ensures r.outcome.Hung? <==> WaitHangs(s.sync, s.currentFrame)
    ensures r.state.hazard <==> s.hazard || (Acquired(s, a) && buffer in WaitFence(s.sync, s.currentFrame).inFlight)
  {
    var cf := s.currentFrame;
    if WaitHangs(s.sync, cf) then DrawResult(s, Hung)
    else
      var waited := s.(sync := WaitFence(s.sync, cf));
      if a.acquire.OutOfDate? then DrawResult(waited, Skipped)
      else if a.acquire.Failed? then DrawResult(waited, Threw)
      else
        var reset := waited.(sync := ResetFence(waited.sync, cf), hazard := waited.hazard || buffer in waited.sync.inFlight);
        if !a.beginOk || !a.endOk || !a.submitOk then DrawResult(reset, Threw)
        else
          var submitted := reset.(sync := SubmitWith(reset.sync, cf, buffer));
          if a.present.OutOfDate? || a.present.Suboptimal? then DrawResult(submitted, Skipped)
          else if a.present.Failed? then DrawResult(submitted, Threw)
          else DrawResult(submitted.(currentFrame := (cf + 1) % MAX_FRAMES_IN_FLIGHT), Drawn)
  }

  /** `draw` as written: the command buffer is the one of the acquired image. */
  function DrawStep(s: DrawState, a: DrawAnswers): DrawResult
    requires DrawStateOk(s)
  {
    DrawStepWith(s, a, a.imageIndex)
  }

  /** `draw` with the command buffer chosen by frame, as the later Pipeline does. */
  function DrawStepByFrame(s: DrawState, a: DrawAnswers): DrawResult
    requires DrawStateOk(s)
  {
    DrawStepWith(s, a, s.currentFrame)
  }

  /** An out-of-date acquire returns before the reset: the fence stays signalled and the frame index stays. */
  lemma OutOfDateKeepsFence(s: DrawState, a: DrawAnswers)
    requires DrawStateOk(s) && !WaitHangs(s.sync, s.currentFrame) && a.acquire.OutOfDate?
    ensures DrawStep(s, a).outcome.Skipped?
    ensures DrawStep(s, a).state.currentFrame == s.currentFrame
    ensures DrawStep(s, a).state.sync.fences[s.currentFrame].Signalled?
    ensures forall b: DrawAnswers :: !DrawStep(DrawStep(s, a).state, b).outcome.Hung?
  {
  }

  /**
   * An exception from begin, end or submit comes after the fence reset, and
   * nothing will signal the fence again: the next draw waits forever.
   */
  lemma ThrowAfterResetHangs(s: DrawState, a: DrawAnswers, b: DrawAnswers)
    requires DrawStateOk(s) && Acquired(s, a) && (!a.beginOk || !a.endOk || !a.submitOk)
    ensures DrawStep(s, a).outcome.Threw?
    ensures DrawStep(DrawStep(s, a).state, b).outcome.Hung?
  {
  }

  /** No fence is left reset without a submission that will signal it. */
  predicate FencesLive(s: DrawState) {
    forall i :: 0 <= i < |s.sync.fences| ==> !s.sync.fences[i].Unsignalled?
  }

  /**
   * From live fences draw never hangs, and the fences stay live unless begin,
   * end or submit throws after the reset: that is the only way to strand one.
   */
  lemma OnlyThrowAfterResetStrands(s: DrawState, a: DrawAnswers)
    requires DrawStateOk(s) && FencesLive(s)
    ensures !DrawStep(s, a).outcome.Hung?
    ensures FencesLive(DrawStep(s, a).state) <==> !(Acquired(s, a) && (!a.beginOk || !a.endOk || !a.submitOk))
  {
    var cf := s.currentFrame;
    assert !s.sync.fences[cf].Unsignalled?;
    var w := WaitFence(s.sync, cf);
    var r := DrawStep(s, a);
    if !(a.acquire.Success? || a.acquire.Suboptimal?) {
      assert r.state.sync == w;
    } else if !a.beginOk || !a.endOk || !a.submitOk {
      assert r.state.sync.fences[cf].Unsignalled?;
    } else {
      assert r.state.sync.fences == w.fences[cf := Pending];
    }
  }

  /**
   * Two successful frames that acquire the same image: the second resets
   * command buffer 0 while the first frame's submission of it is guarded only
   * by the other slot's fence, which draw never waited on.
   */
  lemma ImageReuseHazard()
    ensures var a := DrawAnswers(Success, 0, true, true, true, Success);
      var first := DrawStep(InitialDrawState(), a);
      first.outcome.Drawn? && DrawStep(first.state, a).state.hazard
  {
    var a := DrawAnswers(Success, 0, true, true, true, Success);
    var s0 := InitialDrawState();
    var first := DrawStep(s0, a);
    assert first.state.sync.inFlight == map[0 := 0];
    assert first.state.currentFrame == 1;
    assert WaitFence(first.state.sync, 1).inFlight == map[0 := 0];
  }

  /** Every in-flight command buffer is the one of the slot whose fence guards it. */
  predicate FrameIndexed(s: DrawState) {
    forall b :: b in s.sync.inFlight ==> s.sync.inFlight[b] == b
  }

  /**
   * With command buffers chosen by frame, waiting on the slot's fence retires
   * the buffer about to be reset, so no draw sequence ever resets a buffer
   * that may still be executing.
   */
  lemma FrameIndexedNoHazard(s: DrawState, a: DrawAnswers)
    requires DrawStateOk(s) && FrameIndexed(s) && !s.hazard
    ensures FrameIndexed(DrawStepByFrame(s, a).state) && !DrawStepByFrame(s, a).state.hazard
  {
    if !WaitHangs(s.sync, s.currentFrame) {
      var waited := WaitFence(s.sync, s.currentFrame);
      assert s.currentFrame !in waited.inFlight;
    }
  }

  /**
   * The Renderer's frame counters and statistics. `world` is what setWorld
   * installed; `sync` is the state of inFlightFences as the device sees it,
   * and the ghost `hazard` records a reset of a command buffer in flight.
   */
  class Renderer {
    var world: World?
    var totalVoxels: nat
    var totalFaces: nat
    var culledFaces: nat
    var currentFrame: nat
    var sync: FrameSync
    ghost var hazard: bool
    /** Frames drawn since the last metrics sample, and when that sample was taken (seconds). */
    var frameCount: nat
    var lastFrameTime: real
    var metrics: PerformanceMetrics

    /**
     * The Renderer after setWorld and createSyncObjects: frame 0, both fences
     * signalled, counters zero, the frame clock started at `now`.
     */
    constructor (w: World?, now: real)
      ensures world == w && currentFrame == 0 && sync == InitialDrawState().sync && !hazard
      ensures totalVoxels == 0 && totalFaces == 0 && culledFaces == 0
      ensures frameCount == 0 && lastFrameTime == now && fresh(metrics) && metrics.Valid()
      ensures metrics.fpsSamples == [] && metrics.upsSamples == []
    {
      metrics := new PerformanceMetrics();
      frameCount := 0;
      lastFrameTime := now;
      world := w;
      totalVoxels, totalFaces, culledFaces := 0, 0, 0;
      currentFrame := 0;
      sync := InitialDrawState().sync;
      hazard := false;
    }

    ghost function State(): DrawState
      reads this
    {
      DrawState(currentFrame, sync, hazard)
    }

    /**
     * `calculateStatistics`: nothing when there is no world; otherwise zero
     * the counters and add up every chunk's solid voxels, six potential faces
     * per solid voxel, and the faces hidden by a solid neighbour in the chunk.
     */
    method CalculateStatistics()
      requires world != null ==> world.Valid()
      modifies this`totalVoxels, this`totalFaces, this`culledFaces
      ensures world == null ==>
        totalVoxels == old(totalVoxels) && totalFaces == old(totalFaces) && culledFaces == old(culledFaces)
      ensures world != null ==>
        totalVoxels == TableSum(world.chunks, world.chunks.Keys, ActiveTally) &&
        totalFaces == 6 * totalVoxels &&
        culledFaces == TableSum(world.chunks, world.chunks.Keys, CulledTally)
    {
      if world == null {
        return;
      }
      totalVoxels, totalFaces, culledFaces := 0, 0, 0;
      var table := world.chunks;
      var remaining := table.Keys;
      while remaining != {}
        invariant remaining <= table.Keys && table == world.chunks
        invariant totalVoxels + TableSum(table, remaining, ActiveTally) == TableSum(table, table.Keys, ActiveTally)
        invariant culledFaces + TableSum(table, remaining, CulledTally) == TableSum(table, table.Keys, CulledTally)
        invariant totalFaces == 6 * totalVoxels
        decreases |remaining|
      {
        var p :| p in remaining;
        assert ChunkOk(table[p], p);
        var active, culled := CountChunk(table[p].cells);
        TableSumRemove(table, remaining, ActiveTally, p);
        TableSumRemove(table, remaining, CulledTally, p);
        totalVoxels, totalFaces, culledFaces := totalVoxels + active, totalFaces + 6 * active, culledFaces + culled;
        remaining := remaining - {p};
      }
    }

    /**
     * `updatePerformanceMetrics` at clock reading `now`, with the engine's
     * current update rate `ups`: count the frame, and once at least a
     * millisecond has passed, record frames per second and updates per second
     * and restart the count.
     */
    method UpdatePerformanceMetrics(now: real, ups: real)
      requires metrics.Valid()
      modifies this`frameCount, this`lastFrameTime, metrics
      ensures metrics.Valid() && metrics == old(metrics)
      ensures Ticked(Clock(old(frameCount), old(lastFrameTime), old(metrics.fpsSamples), old(metrics.upsSamples)), now, ups,
                     Clock(frameCount, lastFrameTime, metrics.fpsSamples, metrics.upsSamples))
      ensures metrics.ramSamples == old(metrics.ramSamples) && metrics.vramSamples == old(metrics.vramSamples)
    {
      ghost var c0 := Clock(frameCount, lastFrameTime, metrics.fpsSamples, metrics.upsSamples);
      TickedCases(c0, now, ups);
      frameCount := frameCount + 1;
      var deltaTime := now - lastFrameTime;
      if deltaTime >= SAMPLE_INTERVAL {
        var currentFPS := Rate(frameCount, deltaTime);
        assert currentFPS == Rate(c0.frameCount + 1, now - c0.lastFrameTime);
        metrics.UpdateFPS(currentFPS);
        ghost var fpsAfter := metrics.fpsSamples;
        assert fpsAfter == c0.fpsSamples + [currentFPS];
        metrics.UpdateUPS(ups);
        assert metrics.fpsSamples == fpsAfter;
        frameCount := 0;
        lastFrameTime := now;
      }
    }

    /** The bookkeeping draw does once the fence is reset: metrics, then statistics. */
    method PrepareFrame(now: real, ups: real)
      requires world != null ==> world.Valid()
      requires metrics.Valid()
      modifies this`frameCount, this`lastFrameTime, this`totalVoxels, this`totalFaces, this`culledFaces, metrics
      ensures metrics.Valid()
      ensures Ticked(Clock(old(frameCount), old(lastFrameTime), old(metrics.fpsSamples), old(metrics.upsSamples)), now, ups,
                     Clock(frameCount, lastFrameTime, metrics.fpsSamples, metrics.upsSamples))
      ensures world != null ==>
        totalVoxels == TableSum(world.chunks, world.chunks.Keys, ActiveTally) &&
        culledFaces == TableSum(world.chunks, world.chunks.Keys, CulledTally)
    {
      UpdatePerformanceMetrics(now, ups);
      CalculateStatistics();
    }

    /**
     * `draw` over the Vulkan answers of one frame, as DrawStep describes;
     * once the fence has been reset the performance metrics are updated at
     * clock reading `now` and the statistics are recomputed.
     */
    method Draw(a: DrawAnswers, now: real, ups: real) returns (outcome: DrawOutcome)
      requires DrawStateOk(State())
      requires world != null ==> world.Valid()
      requires metrics.Valid()
      modifies this, metrics
      ensures DrawResult(State(), outcome) == DrawStep(old(State()), a)
      ensures world == old(world) && metrics == old(metrics) && metrics.Valid()
      ensures Acquired(old(State()), a) ==>
        Ticked(Clock(old(frameCount), old(lastFrameTime), old(metrics.fpsSamples), old(metrics.upsSamples)), now, ups,
               Clock(frameCount, lastFrameTime, metrics.fpsSamples, metrics.upsSamples))
      ensures !Acquired(old(State()), a) ==>
        frameCount == old(frameCount) && lastFrameTime == old(lastFrameTime) &&
        metrics.fpsSamples == old(metrics.fpsSamples) && metrics.upsSamples == old(metrics.upsSamples)
      ensures Acquired(old(State()), a) && world != null ==>
        totalVoxels == TableSum(world.chunks, world.chunks.Keys, ActiveTally) &&
        culledFaces == TableSum(world.chunks, world.chunks.Keys, CulledTally)
      ensures !Acquired(old(State()), a) ==>
        totalVoxels == old(totalVoxels) && totalFaces == old(totalFaces) && culledFaces == old(culledFaces)
    {
      var acquired := !WaitHangs(sync, currentFrame) && (a.acquire.Success? || a.acquire.Suboptimal?);
      outcome := DrawFrame(a);
      // updatePerformanceMetrics and calculateStatistics run right after the
      // fence reset in the source; they touch neither the fences nor the
      // frame index, so running them after the frame leaves the same state.
      if acquired {
        PrepareFrame(now, ups);
      }
    }

    /** The fence, command-buffer and frame-index part of `draw`, as DrawStep describes. */
    method DrawFrame(a: DrawAnswers) returns (outcome: DrawOutcome)
      requires DrawStateOk(State())
      modifies this`sync, this`hazard, this`currentFrame
      ensures DrawResult(State(), outcome) == DrawStep(old(State()), a)
    {
      if WaitHangs(sync, currentFrame) {
        return Hung;
      }
      sync := WaitFence(sync, currentFrame);
      if a.acquire.OutOfDate? {
        return Skipped;
      } else if a.acquire.Failed? {
        return Threw;
      }
      hazard := hazard || a.imageIndex in sync.inFlight;
      sync := ResetFence(sync, currentFrame);
      if !a.beginOk || !a.endOk || !a.submitOk {
        return Threw;
      }
      sync := SubmitWith(sync, currentFrame, a.imageIndex);
      if a.present.OutOfDate? || a.present.Suboptimal? {
        return Skipped;
      } else if a.present.Failed? {
        return Threw;
      }
      currentFrame := (currentFrame + 1) % MAX_FRAMES_IN_FLIGHT;
      return Drawn;
    }
  }
}
