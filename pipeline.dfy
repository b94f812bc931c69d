/**
 * Pipeline.cpp: the frame pipeline as a state machine over abstract Vulkan
 * answers. `initialize` is a short-circuit chain of eleven creation steps,
 * `beginFrame`/`endFrame` drive the per-frame fences and command buffers
 * (both indexed by frame), `cleanup` destroys what it finds, and
 * `recreateIfNeeded` rebuilds everything after an out-of-date swap chain.
 */
module Pipelines {
  import opened Wrappers
  import opened VulkanTypes
  import opened SwapChains

  /** Pipeline::MAX_FRAMES_IN_FLIGHT. */
  const MAX_FRAMES_IN_FLIGHT: nat := 2

  datatype PipelineState = Uninitialized | Ready | Recreating

  /**
   * A single-handle member: null, a live handle, or the indeterminate value a
   * member holds when the constructor does not initialise it.
   */
  datatype Slot = Null | Live(handle: Handle) | Garbage

  /** A vector entry as a member value: 0 is VK_NULL_HANDLE. */
  function AsSlot(h: Handle): (s: Slot)
    ensures s.Null? <==> h == NULL_HANDLE
    ensures s.Live? ==> s.handle == h
  {
    if h == NULL_HANDLE then Null else Live(h)
  }

  /** The kinds of object cleanup passes to a vkDestroy or vkFree call. */
  datatype Kind =
    | BufferKind | MemoryKind | DescriptorPoolKind | DescriptorSetLayoutKind
    | SemaphoreKind | FenceKind | CommandPoolKind | FramebufferKind
    | PipelineKind | PipelineLayoutKind | RenderPassKind

  /** A release call: unmapping a uniform buffer's memory, or destroying or freeing an object. */
  datatype Release = Unmap(memory: Handle) | Destroy(kind: Kind, slot: Slot)

  /** The Vulkan objects a Pipeline owns. */
  datatype Resources = Resources(
    descriptorSetLayout: Slot, renderPass: Slot, pipelineLayout: Slot, graphicsPipeline: Slot,
    descriptorPool: Slot, vertexBuffer: Slot, vertexBufferMemory: Slot,
    framebuffers: seq<Handle>,
    uniformBuffers: seq<Handle>, uniformBuffersMemory: seq<Handle>, uniformBuffersMapped: seq<bool>,
    imageAvailableSemaphores: seq<Handle>, renderFinishedSemaphores: seq<Handle>, inFlightFences: seq<Handle>,
    commandPools: seq<Handle>, commandBuffers: seq<Handle>, descriptorSets: seq<Handle>)

  /**
   * What the constructor leaves: the pipeline, its layout and the render pass
   * null, the descriptor pool, descriptor-set layout and vertex buffer and its
   * memory uninitialised, every vector empty.
   */
  const FRESH_RESOURCES: Resources := Resources(
    Garbage, Null, Null, Null, Garbage, Garbage, Garbage,
    [], [], [], [], [], [], [], [], [], [])

  /** What cleanup leaves: every member null and every vector empty. */
  const NO_RESOURCES: Resources := Resources(
    Null, Null, Null, Null, Null, Null, Null,
    [], [], [], [], [], [], [], [], [], [])

  /** The uniform-buffer vectors are resized together, so cleanup may index all three by one index. */
  predicate UniformsAligned(r: Resources) {
    |r.uniformBuffersMemory| == |r.uniformBuffers| && |r.uniformBuffersMapped| == |r.uniformBuffers|
  }

  /** Destroy a single member when it is not null (an indeterminate value is not null). */
  function SlotRelease(k: Kind, s: Slot): (calls: seq<Release>)
    ensures calls == [] <==> s.Null?
  {
    if s.Null? then [] else [Destroy(k, s)]
  }

  /** The uniform-buffer loop of cleanup for entry i: unmap if mapped, destroy the buffer and free the memory when not null. */
  function UniformRelease(r: Resources, i: nat): seq<Release>
    requires UniformsAligned(r) && i < |r.uniformBuffers|
  {
    (if r.uniformBuffersMapped[i] then [Unmap(r.uniformBuffersMemory[i])] else [])
    + (if r.uniformBuffers[i] != NULL_HANDLE then [Destroy(BufferKind, Live(r.uniformBuffers[i]))] else [])
    + (if r.uniformBuffersMemory[i] != NULL_HANDLE then [Destroy(MemoryKind, Live(r.uniformBuffersMemory[i]))] else [])
  }

  function UniformReleasesUpTo(r: Resources, n: nat): seq<Release>
    requires UniformsAligned(r) && n <= |r.uniformBuffers|
  {
    if n == 0 then [] else UniformReleasesUpTo(r, n - 1) + UniformRelease(r, n - 1)
  }

  /** The sync-object loop for slot i: each semaphore and the fence that exists, null or not. */
  function SyncRelease(r: Resources, i: nat): seq<Release> {
    (if |r.imageAvailableSemaphores| > i then [Destroy(SemaphoreKind, AsSlot(r.imageAvailableSemaphores[i]))] else [])
    + (if |r.renderFinishedSemaphores| > i then [Destroy(SemaphoreKind, AsSlot(r.renderFinishedSemaphores[i]))] else [])
    + (if |r.inFlightFences| > i then [Destroy(FenceKind, AsSlot(r.inFlightFences[i]))] else [])
  }

  function SyncReleasesUpTo(r: Resources, n: nat): seq<Release> {
    if n == 0 then [] else SyncReleasesUpTo(r, n - 1) + SyncRelease(r, n - 1)
  }

  /** The non-null entries of a handle vector, destroyed in order. */
  function NonNullReleasesUpTo(k: Kind, hs: seq<Handle>, n: nat): seq<Release>
    requires n <= |hs|
  {
    if n == 0 then []
    else NonNullReleasesUpTo(k, hs, n - 1) + (if hs[n - 1] != NULL_HANDLE then [Destroy(k, Live(hs[n - 1]))] else [])
  }

  /**
   * Every release call of `cleanup`, in order: uniform buffers, descriptor
   * pool and layout, vertex buffer and memory, semaphores and fences, command
   * pools, framebuffers, pipeline, pipeline layout, render pass.
   */
  function CleanupReleases(r: Resources): seq<Release>
    requires UniformsAligned(r)
  {
    CleanupFront(r) + CleanupBack(r)
  }

  /** The releases up to and including the synchronisation objects. */
  function CleanupFront(r: Resources): seq<Release>
    requires UniformsAligned(r)
  {
    UniformReleasesUpTo(r, |r.uniformBuffers|) + DescriptorAndVertexReleases(r) + SyncReleases(r)
  }

  /** The descriptor pool and layout, then the vertex buffer and its memory. */
  function DescriptorAndVertexReleases(r: Resources): seq<Release> {
    SlotRelease(DescriptorPoolKind, r.descriptorPool)
    + SlotRelease(DescriptorSetLayoutKind, r.descriptorSetLayout)
    + SlotRelease(BufferKind, r.vertexBuffer)
    + SlotRelease(MemoryKind, r.vertexBufferMemory)
  }

  /** The synchronisation-object loop of cleanup over both frame slots. */
  function SyncReleases(r: Resources): seq<Release> {
    SyncReleasesUpTo(r, MAX_FRAMES_IN_FLIGHT)
  }

  /** The releases from the command pools on. */
  function CleanupBack(r: Resources): seq<Release> {
    NonNullReleasesUpTo(CommandPoolKind, r.commandPools, |r.commandPools|)
    + NonNullReleasesUpTo(FramebufferKind, r.framebuffers, |r.framebuffers|)
    + PipelineObjectReleases(r)
  }

  /** The graphics pipeline, its layout and the render pass, each when not null. */
  function PipelineObjectReleases(r: Resources): seq<Release> {
    SlotRelease(PipelineKind, r.graphicsPipeline)
    + SlotRelease(PipelineLayoutKind, r.pipelineLayout)
    + SlotRelease(RenderPassKind, r.renderPass)
  }

  /**
   * What recreateIfNeeded releases: the framebuffers first, then a cleanup
   * that finds the framebuffer vector already empty.
   */
  function RecreateReleases(r: Resources): seq<Release>
    requires UniformsAligned(r)
  {
    NonNullReleasesUpTo(FramebufferKind, r.framebuffers, |r.framebuffers|) + CleanupReleases(r.(framebuffers := []))
  }

  /** Sync objects are only looked up by position, so with none there is nothing to release. */
  lemma {:induction false} NoSyncNoReleases(r: Resources, n: nat)
    requires r.imageAvailableSemaphores == [] && r.renderFinishedSemaphores == [] && r.inFlightFences == []
    ensures SyncReleasesUpTo(r, n) == []
  {
    if n > 0 {
      NoSyncNoReleases(r, n - 1);
    }
  }

  /** Cleanup leaves nothing to release: a second cleanup destroys nothing. */
  lemma SecondCleanupReleasesNothing()
    ensures CleanupReleases(NO_RESOURCES) == []
  {
    NoSyncNoReleases(NO_RESOURCES, MAX_FRAMES_IN_FLIGHT);
  }

  /**
   * Cleanup of a pipeline that was only constructed passes the four
   * uninitialised members to destroy calls.
   */
  lemma FreshCleanupDestroysGarbage()
    ensures CleanupReleases(FRESH_RESOURCES) == [
      Destroy(DescriptorPoolKind, Garbage), Destroy(DescriptorSetLayoutKind, Garbage),
      Destroy(BufferKind, Garbage), Destroy(MemoryKind, Garbage)]
  {
    NoSyncNoReleases(FRESH_RESOURCES, MAX_FRAMES_IN_FLIGHT);
  }

  /** The creation steps of `initialize`, in call order. */
  datatype InitStep =
    | DescriptorSetLayoutStep | RenderPassStep | GraphicsPipelineStep | FramebuffersStep
    | CommandPoolsStep | CommandBuffersStep | UniformBuffersStep | DescriptorPoolStep
    | DescriptorSetsStep | SyncObjectsStep | VertexBufferStep

  const INIT_STEPS: seq<InitStep> := [
    DescriptorSetLayoutStep, RenderPassStep, GraphicsPipelineStep, FramebuffersStep,
    CommandPoolsStep, CommandBuffersStep, UniformBuffersStep, DescriptorPoolStep,
    DescriptorSetsStep, SyncObjectsStep, VertexBufferStep]

  /**
   * What Vulkan answers to one creation step: the handles it creates, in
   * member order, or the index of the call inside the step that fails.
   */
  datatype StepAnswer = Created(handles: seq<Handle>) | FailedAt(call: nat)

  /** The answer to every creation step. */
  type InitAnswers = map<InitStep, StepAnswer>

  /** How many handles a successful step creates (framebuffers: one per swap-chain image). */
  predicate CountFits(s: InitStep, n: nat) {
    match s
    case DescriptorSetLayoutStep => n == 1
    case RenderPassStep => n == 1
    case GraphicsPipelineStep => n == 2
    case FramebuffersStep => true
    case CommandPoolsStep => n == MAX_FRAMES_IN_FLIGHT
    case CommandBuffersStep => n == MAX_FRAMES_IN_FLIGHT
    case UniformBuffersStep => n == 2 * MAX_FRAMES_IN_FLIGHT
    case DescriptorPoolStep => n == 1
    case DescriptorSetsStep => n == MAX_FRAMES_IN_FLIGHT
    case SyncObjectsStep => n == 3 * MAX_FRAMES_IN_FLIGHT
    case VertexBufferStep => n == 0
  }

  /**
   * The messages a step sets, one per way it can fail, in the order the step
   * makes the failing calls: createGraphicsPipeline checks its shader modules,
   * then creates the layout, then the pipeline; createUniformBuffers creates a
   * buffer, then allocates its memory. createVertexBuffer cannot fail.
   */
  function StepErrors(s: InitStep): (msgs: seq<string>)
    ensures |msgs| == FailurePoints(s)
  {
    match s
    case DescriptorSetLayoutStep => ["Failed to create descriptor set layout"]
    case RenderPassStep => ["Failed to create render pass"]
    case GraphicsPipelineStep =>
      ["Failed to create shader modules", "Failed to create pipeline layout", "Failed to create graphics pipeline"]
    case FramebuffersStep => ["Failed to create framebuffer"]
    case CommandPoolsStep => ["Failed to create command pool"]
    case CommandBuffersStep => ["Failed to allocate command buffers"]
    case UniformBuffersStep => ["Failed to create uniform buffer", "Failed to allocate uniform buffer memory"]
    case DescriptorPoolStep => ["Failed to create descriptor pool"]
    case DescriptorSetsStep => ["Failed to allocate descriptor sets"]
    case SyncObjectsStep => ["Failed to create synchronization objects"]
    case VertexBufferStep => []
  }

  /** How many calls of a step can fail: three in createGraphicsPipeline, two in createUniformBuffers, none in createVertexBuffer, one elsewhere. */
  function FailurePoints(s: InitStep): nat {
    match s
    case GraphicsPipelineStep => 3
    case UniformBuffersStep => 2
    case VertexBufferStep => 0
    case _ => 1
  }

  /** Created handles come in the right number and are never null; a failure names a call the step makes. */
  predicate AnswerFits(s: InitStep, ans: StepAnswer) {
    match ans
    case Created(hs) => CountFits(s, |hs|) && forall j :: 0 <= j < |hs| ==> hs[j] != NULL_HANDLE
    case FailedAt(k) => k < FailurePoints(s)
  }

  /** Every step is answered, and every answer fits its step. */
  predicate WellFormed(a: InitAnswers) {
    forall s :: s in a && AnswerFits(s, a[s])
  }

  /** Whether a step succeeds: when Vulkan creates its objects (createVertexBuffer always does). */
  function InitStepOk(s: InitStep, a: InitAnswers): bool {
    s in a && a[s].Created?
  }

  /** Which init steps succeed under the answers, as a predicate for the short-circuit chain. */
  function InitOk(a: InitAnswers): InitStep -> bool {
    s => InitStepOk(s, a)
  }

  /** The error message a failing step sets: the one of the call that failed. */
  function StepError(s: InitStep, a: InitAnswers): string
    requires WellFormed(a) && !InitStepOk(s, a)
  {
    StepErrors(s)[a[s].call]
  }

  /**
   * The message identifies the failure: no two ways of failing, in the same
   * step or in different ones, set the same message.
   */
  lemma StepErrorsDistinct(s: InitStep, i: nat, t: InitStep, j: nat)
    requires i < |StepErrors(s)| && j < |StepErrors(t)|
    requires StepErrors(s)[i] == StepErrors(t)[j]
    ensures s == t && i == j
  {
    match s
    case GraphicsPipelineStep =>
    case UniformBuffersStep =>
    case _ =>
  }

  /**
   * A failing step's message is one of its own calls' messages and of no
   * other step's, and two answers that fail at different calls of the step
   * leave different messages.
   */
  lemma StepErrorNamesFailure(s: InitStep, a: InitAnswers, t: InitStep, b: InitAnswers)
    requires WellFormed(a) && !InitStepOk(s, a) && WellFormed(b) && !InitStepOk(t, b)
    ensures StepError(s, a) in StepErrors(s)
    ensures StepError(s, a) == StepError(t, b) <==> s == t && a[s] == b[t]
  {
    if StepError(s, a) == StepError(t, b) {
      StepErrorsDistinct(s, a[s].call, t, b[t].call);
    }
  }

  /** The members one successful step sets; a failing step (and the vertex-buffer step) changes nothing. */
  function ApplyStep(r: Resources, s: InitStep, a: InitAnswers): Resources
    requires WellFormed(a)
  {
    if !InitStepOk(s, a) then r
    else
      var hs := a[s].handles;
      match s
      case DescriptorSetLayoutStep => r.(descriptorSetLayout := Live(hs[0]))
      case RenderPassStep => r.(renderPass := Live(hs[0]))
      case GraphicsPipelineStep => r.(pipelineLayout := Live(hs[0]), graphicsPipeline := Live(hs[1]))
      case FramebuffersStep => r.(framebuffers := hs)
      case CommandPoolsStep => r.(commandPools := hs)
      case CommandBuffersStep => r.(commandBuffers := hs)
      case UniformBuffersStep =>
        r.(uniformBuffers := hs[..2], uniformBuffersMemory := hs[2..], uniformBuffersMapped := [true, true])
      case DescriptorPoolStep => r.(descriptorPool := Live(hs[0]))
      case DescriptorSetsStep => r.(descriptorSets := hs)
      case SyncObjectsStep =>
        r.(imageAvailableSemaphores := hs[..2], renderFinishedSemaphores := hs[2..4], inFlightFences := hs[4..])
      case VertexBufferStep => r
  }

  /** The steps applied in order. */
  function ApplySteps(r: Resources, steps: seq<InitStep>, a: InitAnswers): Resources
    requires WellFormed(a)
  {
    if |steps| == 0 then r else ApplyStep(ApplySteps(r, steps[..|steps| - 1], a), steps[|steps| - 1], a)
  }

  /** Running step i of a chain after its first i steps runs its first i + 1 steps. */
  lemma ChainStep(s0: seq<InitStep>, r: Resources, chain: seq<InitStep>, i: nat, a: InitAnswers)
    requires WellFormed(a) && i < |chain|
    ensures s0 + chain[..i] + [chain[i]] == s0 + chain[..i + 1]
    ensures ApplyStep(ApplySteps(r, chain[..i], a), chain[i], a) == ApplySteps(r, chain[..i + 1], a)
  {
    assert chain[..i + 1] == chain[..i] + [chain[i]];
    assert chain[..i + 1][..i] == chain[..i];
  }

  /** No creation step touches the vertex buffer: createVertexBuffer is now empty. */
  lemma {:induction false} StepsKeepVertexBuffer(r: Resources, steps: seq<InitStep>, a: InitAnswers)
    requires WellFormed(a)
    ensures ApplySteps(r, steps, a).vertexBuffer == r.vertexBuffer
    ensures ApplySteps(r, steps, a).vertexBufferMemory == r.vertexBufferMemory
  {
    if |steps| > 0 {
      StepsKeepVertexBuffer(r, steps[..|steps| - 1], a);
    }
  }

  /** Creation steps keep the uniform vectors aligned. */
  lemma {:induction false} StepsKeepAligned(r: Resources, steps: seq<InitStep>, a: InitAnswers)
    requires WellFormed(a) && UniformsAligned(r)
    ensures UniformsAligned(ApplySteps(r, steps, a))
  {
    if |steps| > 0 {
      StepsKeepAligned(r, steps[..|steps| - 1], a);
    }
  }

  /**
   * Whatever Vulkan answers, the cleanup after initialising a freshly
   * constructed pipeline still destroys the uninitialised vertex buffer and
   * frees its uninitialised memory.
   */
  lemma InitializedCleanupDestroysGarbage(a: InitAnswers, steps: seq<InitStep>)
    requires WellFormed(a)
    ensures UniformsAligned(ApplySteps(FRESH_RESOURCES, steps, a))
    ensures Destroy(BufferKind, Garbage) in CleanupReleases(ApplySteps(FRESH_RESOURCES, steps, a))
    ensures Destroy(MemoryKind, Garbage) in CleanupReleases(ApplySteps(FRESH_RESOURCES, steps, a))
  {
    var r := ApplySteps(FRESH_RESOURCES, steps, a);
    StepsKeepVertexBuffer(FRESH_RESOURCES, steps, a);
    StepsKeepAligned(FRESH_RESOURCES, steps, a);
    var calls := CleanupReleases(r);
    var pre := UniformReleasesUpTo(r, |r.uniformBuffers|) + SlotRelease(DescriptorPoolKind, r.descriptorPool)
      + SlotRelease(DescriptorSetLayoutKind, r.descriptorSetLayout);
    assert calls[|pre|] == Destroy(BufferKind, Garbage);
    assert calls[|pre| + 1] == Destroy(MemoryKind, Garbage);
  }

  /** The frame-relevant state: lifecycle state, frame index, acquired image, fences, and the reset-in-flight record. */
  datatype FrameState = FrameState(state: PipelineState, currentFrame: nat, imageIndex: nat, sync: FrameSync, hazard: bool)

  /** Every in-flight command buffer is the one of the slot whose fence guards it. */
  predicate FrameIndexed(s: FrameSync) {
    forall b :: b in s.inFlight ==> s.inFlight[b] == b
  }

  /**
   * The invariant of the frame state: frame index below two, two fence slots
   * once initialised, every submission guarded, command buffers indexed by
   * frame, and no command buffer ever reset while in flight.
   */
  predicate FrameStateOk(f: FrameState) {
    f.currentFrame < MAX_FRAMES_IN_FLIGHT && (!f.state.Uninitialized? ==> |f.sync.fences| == MAX_FRAMES_IN_FLIGHT) &&
    SyncValid(f.sync) && FrameIndexed(f.sync) && !f.hazard
  }

  /** How beginFrame or endFrame ends: a plain result, false with an error message, or a wait that never returns. */
  datatype FrameOutcome = Done(ok: bool) | Refused(error: string) | Hung

  datatype FrameResult = FrameResult(frame: FrameState, outcome: FrameOutcome)

  /** What beginFrame's Vulkan calls answer. */
  datatype BeginAnswers = BeginAnswers(acquire: VkResult, imageIndex: nat, beginOk: bool)

  /** What endFrame's Vulkan calls answer. */
  datatype EndAnswers = EndAnswers(endOk: bool, submitOk: bool, present: VkResult)

  const NOT_READY := "Pipeline is not in ready state"

  /**
   * `beginFrame`: refuse unless READY; wait on this frame's fence; on an
   * out-of-date acquire switch to RECREATING and return false before the
   * reset; fail on other acquire errors; otherwise reset the fence and this
   * frame's command buffer and begin recording.
   */
  function BeginFrameStep(f: FrameState, a: BeginAnswers): (r: FrameResult)
    requires FrameStateOk(f)
    ensures FrameStateOk(r.frame)
    ensures r.frame.currentFrame == f.currentFrame
    ensures r.outcome == Done(true) ==> r.frame.state.Ready? && r.frame.sync.fences[f.currentFrame].Unsignalled?
    ensures r.frame.state != f.state ==> f.state.Ready? && r.frame.state.Recreating? && a.acquire.OutOfDate?
    ensures !f.state.Ready? ==> r == FrameResult(f, Refused(NOT_READY))
  {
    var cf := f.currentFrame;
    if !f.state.Ready? then FrameResult(f, Refused(NOT_READY))
    else if WaitHangs(f.sync, cf) then FrameResult(f, Hung)
    else
      var waited := f.(sync := WaitFence(f.sync, cf));
      if a.acquire.OutOfDate? then FrameResult(waited.(state := Recreating), Done(false))
      else if a.acquire.Failed? then FrameResult(waited, Refused("Failed to acquire swap chain image"))
      else
        var reset := waited.(sync := ResetFence(waited.sync, cf), hazard := waited.hazard || cf in waited.sync.inFlight,
                             imageIndex := a.imageIndex);
        if !a.beginOk then FrameResult(reset, Refused("Failed to begin recording command buffer"))
        else FrameResult(reset, Done(true))
  }

  /**
   * `endFrame`: refuse unless READY; fail on end-recording or submit errors;
   * submit this frame's command buffer with this frame's fence; an
   * out-of-date or suboptimal present switches to RECREATING but still counts
   * as success; a hard present failure returns false; success advances the
   * frame index.
   */
  function EndFrameStep(f: FrameState, a: EndAnswers): (r: FrameResult)
    requires FrameStateOk(f)
    ensures FrameStateOk(r.frame)
    ensures r.outcome == Done(true) <==> r.frame.currentFrame != f.currentFrame
    ensures r.outcome == Done(true) ==> r.frame.currentFrame == (f.currentFrame + 1) % MAX_FRAMES_IN_FLIGHT
    ensures r.frame.state != f.state ==> r.outcome == Done(true) && r.frame.state.Recreating?
    ensures !f.state.Ready? ==> r == FrameResult(f, Refused(NOT_READY))
  {
    var cf := f.currentFrame;
    if !f.state.Ready? then FrameResult(f, Refused(NOT_READY))
    else if !a.endOk then FrameResult(f, Refused("Failed to record command buffer"))
    else if !a.submitOk then FrameResult(f, Refused("Failed to submit draw command buffer"))
    else
      var submitted := f.(sync := SubmitWith(f.sync, cf, cf));
      if a.present.OutOfDate? || a.present.Suboptimal? then
        FrameResult(submitted.(state := Recreating, currentFrame := (cf + 1) % MAX_FRAMES_IN_FLIGHT), Done(true))
      else if a.present.Failed? then FrameResult(submitted, Refused("Failed to present swap chain image"))
      else FrameResult(submitted.(currentFrame := (cf + 1) % MAX_FRAMES_IN_FLIGHT), Done(true))
  }

  /** An out-of-date acquire returns before the reset, so the fence is left signalled. */
  lemma OutOfDateAcquireKeepsFence(f: FrameState, a: BeginAnswers)
    requires FrameStateOk(f) && f.state.Ready? && !WaitHangs(f.sync, f.currentFrame) && a.acquire.OutOfDate?
    ensures BeginFrameStep(f, a).outcome == Done(false)
    ensures BeginFrameStep(f, a).frame.state.Recreating?
    ensures BeginFrameStep(f, a).frame.sync.fences[f.currentFrame].Signalled?
  {
  }

  /**
   * A failed vkBeginCommandBuffer returns after the fence reset and leaves
   * the state READY, so the next beginFrame waits forever on that fence.
   */
  lemma BeginFailureStrandsFence(f: FrameState, a: BeginAnswers, b: BeginAnswers)
    requires FrameStateOk(f) && f.state.Ready? && !WaitHangs(f.sync, f.currentFrame)
    requires (a.acquire.Success? || a.acquire.Suboptimal?) && !a.beginOk
    ensures BeginFrameStep(f, a).outcome.Refused?
    ensures BeginFrameStep(BeginFrameStep(f, a).frame, b).outcome.Hung?
  {
  }

  /** No fence is left reset without a submission that will signal it. */
  predicate FencesLive(s: FrameSync) {
    forall i :: 0 <= i < |s.fences| ==> !s.fences[i].Unsignalled?
  }

  /**
   * A successful beginFrame followed by endFrame's submit leaves every fence
   * live again, so the frames that follow never hang.
   */
  lemma BeginThenSubmitKeepsFencesLive(f: FrameState, a: BeginAnswers, e: EndAnswers)
    requires FrameStateOk(f) && f.state.Ready? && FencesLive(f.sync)
    requires BeginFrameStep(f, a).outcome == Done(true) && e.endOk && e.submitOk
    ensures FencesLive(EndFrameStep(BeginFrameStep(f, a).frame, e).frame.sync)
  {
    var g := BeginFrameStep(f, a).frame;
    var h := EndFrameStep(g, e).frame;
    forall i | 0 <= i < |h.sync.fences|
      ensures !h.sync.fences[i].Unsignalled?
    {
      if i != f.currentFrame {
        assert h.sync.fences[i] == f.sync.fences[i];
      }
    }
  }

  /** The handles a Pipeline owns, its lifecycle state, and the fence model of its frames. */
  class Pipeline {
    var state: PipelineState
    var currentFrame: nat
    var currentImageIndex: nat
    var lastError: string
    var res: Resources
    /** The state of inFlightFences as the device sees it. */
    var sync: FrameSync
    ghost var hazard: bool
    ghost var released: seq<Release>
    ghost var steps: seq<InitStep>

    ghost predicate Valid()
      reads this
    {
      FrameStateOk(Frame()) && UniformsAligned(res)
    }

    ghost function Frame(): FrameState
      reads this
    {
      FrameState(state, currentFrame, currentImageIndex, sync, hazard)
    }

    /** The constructor: UNINITIALIZED at frame 0, with four members left uninitialised. */
    constructor ()
      ensures Valid()
      ensures state == Uninitialized && currentFrame == 0 && currentImageIndex == 0
      ensures res == FRESH_RESOURCES && sync == FrameSync([], map[])
      ensures released == [] && steps == []
    {
      state := Uninitialized;
      currentFrame := 0;
      currentImageIndex := 0;
      lastError := "";
      res := FRESH_RESOURCES;
      sync := FrameSync([], map[]);
      hazard := false;
      released := [];
      steps := [];
    }

    /**
     * `initialize`: refused with an error unless UNINITIALIZED; otherwise the
     * eleven creation steps in order, stopping at the first failure, and
     * READY only when all succeed.
     */
    method Initialize(a: InitAnswers) returns (ok: bool)
      requires Valid() && WellFormed(a)
      modifies this`state, this`res, this`sync, this`steps, this`lastError
      ensures Valid()
      ensures !old(state).Uninitialized? ==>
        !ok && lastError == "Pipeline is already initialized" && state == old(state) && res == old(res) &&
        sync == old(sync) && steps == old(steps)
      ensures old(state).Uninitialized? ==>
        steps == old(steps) + Attempted(INIT_STEPS, InitOk(a)) &&
        res == ApplySteps(old(res), Attempted(INIT_STEPS, InitOk(a)), a) &&
        (ok <==> AllSucceed(INIT_STEPS, InitOk(a))) &&
        state == (if ok then Ready else Uninitialized) &&
        (!ok ==> !InitStepOk(steps[|steps| - 1], a) && lastError == StepError(steps[|steps| - 1], a))
    {
      if !state.Uninitialized? {
        RefuseInitialize();
        return false;
      }
      ok := InitializeFresh(a);
    }

    /** `initialize` past its state check: the eleven creation steps, READY when all succeed. */
    method InitializeFresh(a: InitAnswers) returns (ok: bool)
      requires Valid() && WellFormed(a) && state.Uninitialized?
      modifies this`state, this`res, this`sync, this`steps, this`lastError
      ensures Valid()
      ensures steps == old(steps) + Attempted(INIT_STEPS, InitOk(a))
      ensures res == ApplySteps(old(res), Attempted(INIT_STEPS, InitOk(a)), a)
      ensures ok <==> AllSucceed(INIT_STEPS, InitOk(a))
      ensures state == if ok then Ready else Uninitialized
      ensures !ok ==> !InitStepOk(steps[|steps| - 1], a) && lastError == StepError(steps[|steps| - 1], a)
      ensures released == old(released)
    {
      var chain := INIT_STEPS;
      assert chain[9] == SyncObjectsStep;
      ok := RunInitChain(chain, a);
    }

    /** `initialize` on a pipeline that is not UNINITIALIZED: only the error is set. */
    method RefuseInitialize()
      modifies this`lastError
      ensures lastError == "Pipeline is already initialized"
    {
      lastError := "Pipeline is already initialized";
    }

    /** The last statement of a successful `initialize`: the state becomes READY. */
    method MarkReady()
      requires Valid() && |sync.fences| == MAX_FRAMES_IN_FLIGHT
      modifies this`state
      ensures Valid() && state == Ready
      ensures res == old(res) && sync == old(sync) && steps == old(steps) && lastError == old(lastError)
    {
      state := Ready;
    }

    /**
     * The creation steps of `initialize` in order, stopping at the first
     * failure, whose message is then the last error.
     */
    method RunInitChain(chain: seq<InitStep>, a: InitAnswers) returns (ok: bool)
      requires Valid() && WellFormed(a) && state.Uninitialized? && SyncObjectsStep in chain
      modifies this`state, this`res, this`sync, this`steps, this`lastError
      ensures Valid()
      ensures steps == old(steps) + Attempted(chain, InitOk(a))
      ensures res == ApplySteps(old(res), Attempted(chain, InitOk(a)), a)
      ensures ok <==> AllSucceed(chain, InitOk(a))
      ensures state == if ok then Ready else Uninitialized
      ensures !ok ==> !InitStepOk(steps[|steps| - 1], a) && lastError == StepError(steps[|steps| - 1], a)
    {
      ghost var stepOk := InitOk(a);
      ghost var s0, r0 := steps, res;
      var i := 0;
      while i < |chain|
        invariant 0 <= i <= |chain| && Valid() && state.Uninitialized?
        invariant steps == s0 + chain[..i]
        invariant res == ApplySteps(r0, chain[..i], a)
        invariant AllSucceed(chain[..i], stepOk)
        invariant SyncObjectsStep in chain[..i] ==> |sync.fences| == MAX_FRAMES_IN_FLIGHT
      {
        if !InitStepOk(chain[i], a) {
          ok := FailInitChain(chain, a, i, s0, r0);
          return;
        }
        ok := RunInitStep(chain[i], a);
        assert stepOk(chain[i]);
        assert chain[..i + 1] == chain[..i] + [chain[i]];
        i := i + 1;
      }
      assert chain[..i] == chain;
      AttemptedStops(chain, stepOk);
      MarkReady();
      return true;
    }

    /** A failing creation step ends the chain: it is the last step attempted and its message the last error. */
    method FailInitChain(chain: seq<InitStep>, a: InitAnswers, i: nat, ghost s0: seq<InitStep>, ghost r0: Resources)
      returns (ok: bool)
      requires Valid() && WellFormed(a) && state.Uninitialized?
      requires i < |chain| && !InitStepOk(chain[i], a) && AllSucceed(chain[..i], InitOk(a))
      requires steps == s0 + chain[..i] && res == ApplySteps(r0, chain[..i], a)
      modifies this`res, this`sync, this`steps, this`lastError
      ensures Valid() && !ok && state == old(state)
      ensures steps == s0 + Attempted(chain, InitOk(a)) && !AllSucceed(chain, InitOk(a))
      ensures res == ApplySteps(r0, Attempted(chain, InitOk(a)), a)
      ensures !InitStepOk(steps[|steps| - 1], a) && lastError == StepError(steps[|steps| - 1], a)
    {
      ok := RunInitStep(chain[i], a);
      AttemptedUpTo(chain, InitOk(a), i);
      ChainStep(s0, r0, chain, i, a);
    }

    /** One creation step: record it, then set the members it creates or the error it reports. */
    method RunInitStep(s: InitStep, a: InitAnswers) returns (ok: bool)
      requires Valid() && WellFormed(a) && state.Uninitialized?
      modifies this`res, this`sync, this`steps, this`lastError
      ensures Valid()
      ensures ok == InitStepOk(s, a)
      ensures steps == old(steps) + [s] && res == ApplyStep(old(res), s, a)
      ensures sync == if ok && s == SyncObjectsStep then InitialSync(MAX_FRAMES_IN_FLIGHT) else old(sync)
      ensures !ok ==> lastError == StepError(s, a)
      ensures state == old(state)
    {
      steps := steps + [s];
      ok := InitStepOk(s, a);
      if !ok {
        lastError := StepError(s, a);
        return;
      }
      res := ApplyStep(res, s, a);
      if s == SyncObjectsStep {
        sync := InitialSync(MAX_FRAMES_IN_FLIGHT);
      }
    }

    /** `beginFrame`, as BeginFrameStep describes; a failure stores its message. */
    method BeginFrame(a: BeginAnswers) returns (outcome: FrameOutcome)
      requires Valid()
      modifies this`state, this`sync, this`hazard, this`currentImageIndex, this`lastError
      ensures Valid()
      ensures FrameResult(Frame(), outcome) == BeginFrameStep(old(Frame()), a)
      ensures lastError == if outcome.Refused? then outcome.error else old(lastError)
    {
      if !state.Ready? {
        lastError := NOT_READY;
        return Refused(NOT_READY);
      }
      if WaitHangs(sync, currentFrame) {
        return Hung;
      }
      sync := WaitFence(sync, currentFrame);
      if a.acquire.OutOfDate? {
        state := Recreating;
        return Done(false);
      } else if a.acquire.Failed? {
        lastError := "Failed to acquire swap chain image";
        return Refused(lastError);
      }
      currentImageIndex := a.imageIndex;
      hazard := hazard || currentFrame in sync.inFlight;
      sync := ResetFence(sync, currentFrame);
      if !a.beginOk {
        lastError := "Failed to begin recording command buffer";
        return Refused(lastError);
      }
      return Done(true);
    }

    /** `endFrame`, as EndFrameStep describes; a failure stores its message. */
    method EndFrame(a: EndAnswers) returns (outcome: FrameOutcome)
      requires Valid()
      modifies this`state, this`sync, this`currentFrame, this`lastError
      ensures Valid()
      ensures FrameResult(Frame(), outcome) == EndFrameStep(old(Frame()), a)
      ensures lastError == if outcome.Refused? then outcome.error else old(lastError)
    {
      if !state.Ready? {
        lastError := NOT_READY;
        return Refused(NOT_READY);
      }
      if !a.endOk {
        lastError := "Failed to record command buffer";
        return Refused(lastError);
      }
      if !a.submitOk {
        lastError := "Failed to submit draw command buffer";
        return Refused(lastError);
      }
      sync := SubmitWith(sync, currentFrame, currentFrame);
      if a.present.OutOfDate? || a.present.Suboptimal? {
        state := Recreating;
      } else if a.present.Failed? {
        lastError := "Failed to present swap chain image";
        return Refused(lastError);
      }
      currentFrame := (currentFrame + 1) % MAX_FRAMES_IN_FLIGHT;
      return Done(true);
    }

    /**
     * `cleanup`: wait for the device to go idle, release everything in
     * CleanupReleases' order, empty every vector, null every member and go
     * back to UNINITIALIZED. The frame index is kept.
     */
    method Cleanup()
      requires Valid()
      modifies this`res, this`sync, this`state, this`released
      ensures Valid()
      ensures released == old(released) + CleanupReleases(old(res))
      ensures res == NO_RESOURCES && state == Uninitialized && sync == FrameSync([], map[])
    {
      ReleaseFront();
      ReleaseBack();
      res := NO_RESOURCES;
      // vkDeviceWaitIdle retired every submission and the fences are destroyed.
      sync := FrameSync([], map[]);
      state := Uninitialized;
    }

    /** Cleanup up to and including the synchronisation objects. */
    method ReleaseFront()
      requires UniformsAligned(res)
      modifies this`released
      ensures released == old(released) + CleanupFront(res)
    {
      ghost var r0 := released;
      ReleaseUniforms();
      ghost var r1 := released;
      ReleaseDescriptorsAndVertexBuffer();
      ghost var r2 := released;
      ReleaseSyncObjects();
      AppendThree(r0, r1[|r0|..], r2[|r1|..], released[|r2|..]);
    }

    /** The descriptor pool and layout and the vertex buffer and its memory, each when not null. */
    method ReleaseDescriptorsAndVertexBuffer()
      modifies this`released
      ensures released == old(released) + DescriptorAndVertexReleases(res)
    {
      ReleaseSlot(DescriptorPoolKind, res.descriptorPool);
      ReleaseSlot(DescriptorSetLayoutKind, res.descriptorSetLayout);
      ReleaseSlot(BufferKind, res.vertexBuffer);
      ReleaseSlot(MemoryKind, res.vertexBufferMemory);
    }

    /** Cleanup from the command pools on. */
    method ReleaseBack()
      modifies this`released
      ensures released == old(released) + CleanupBack(res)
    {
      ghost var r0 := released;
      ReleaseNonNull(CommandPoolKind, res.commandPools);
      ghost var r1 := released;
      ReleaseNonNull(FramebufferKind, res.framebuffers);
      ghost var r2 := released;
      ReleasePipelineObjects();
      AppendThree(r0, r1[|r0|..], r2[|r1|..], released[|r2|..]);
    }

    /** The graphics pipeline, its layout and the render pass, each when not null. */
    method ReleasePipelineObjects()
      modifies this`released
      ensures released == old(released) + PipelineObjectReleases(res)
    {
      ReleaseSlot(PipelineKind, res.graphicsPipeline);
      ReleaseSlot(PipelineLayoutKind, res.pipelineLayout);
      ReleaseSlot(RenderPassKind, res.renderPass);
    }

    /** The uniform-buffer loop of cleanup. */
    method ReleaseUniforms()
      requires UniformsAligned(res)
      modifies this`released
      ensures released == old(released) + UniformReleasesUpTo(res, |res.uniformBuffers|)
    {
      var i := 0;
      while i < |res.uniformBuffers|
        invariant 0 <= i <= |res.uniformBuffers|
        invariant released == old(released) + UniformReleasesUpTo(res, i)
      {
        ReleaseUniform(i);
        i := i + 1;
      }
    }

    /** One uniform buffer: unmap it if mapped, then destroy the buffer and its memory when not null. */
    method ReleaseUniform(i: nat)
      requires UniformsAligned(res) && i < |res.uniformBuffers|
      modifies this`released
      ensures released == old(released) + UniformRelease(res, i)
    {
      if res.uniformBuffersMapped[i] {
        released := released + [Unmap(res.uniformBuffersMemory[i])];
      }
      if res.uniformBuffers[i] != NULL_HANDLE {
        released := released + [Destroy(BufferKind, Live(res.uniformBuffers[i]))];
      }
      if res.uniformBuffersMemory[i] != NULL_HANDLE {
        released := released + [Destroy(MemoryKind, Live(res.uniformBuffersMemory[i]))];
      }
    }

    /** The synchronisation-object loop of cleanup: slots 0 and 1, each object that exists. */
    method ReleaseSyncObjects()
      modifies this`released
      ensures released == old(released) + SyncReleases(res)
    {
      var i := 0;
      while i < MAX_FRAMES_IN_FLIGHT
        invariant 0 <= i <= MAX_FRAMES_IN_FLIGHT
        invariant released == old(released) + SyncReleasesUpTo(res, i)
      {
        ReleaseSyncSlot(i);
        i := i + 1;
      }
    }

    /** Frame slot i's two semaphores and fence, each one the vectors hold. */
    method ReleaseSyncSlot(i: nat)
      modifies this`released
      ensures released == old(released) + SyncRelease(res, i)
    {
      if |res.imageAvailableSemaphores| > i {
        released := released + [Destroy(SemaphoreKind, AsSlot(res.imageAvailableSemaphores[i]))];
      }
      if |res.renderFinishedSemaphores| > i {
        released := released + [Destroy(SemaphoreKind, AsSlot(res.renderFinishedSemaphores[i]))];
      }
      if |res.inFlightFences| > i {
        released := released + [Destroy(FenceKind, AsSlot(res.inFlightFences[i]))];
      }
    }

    /** A cleanup loop over a handle vector: destroy the entries that are not null. */
    method ReleaseNonNull(k: Kind, hs: seq<Handle>)
      modifies this`released
      ensures released == old(released) + NonNullReleasesUpTo(k, hs, |hs|)
    {
      var i := 0;
      while i < |hs|
        invariant 0 <= i <= |hs|
        invariant released == old(released) + NonNullReleasesUpTo(k, hs, i)
      {
        if hs[i] != NULL_HANDLE {
          released := released + [Destroy(k, Live(hs[i]))];
        }
        i := i + 1;
      }
    }

    /** A single member: destroy it when it is not null. */
    method ReleaseSlot(k: Kind, s: Slot)
      modifies this`released
      ensures released == old(released) + SlotRelease(k, s)
    {
      if !s.Null? {
        released := released + [Destroy(k, s)];
      }
    }

    /**
     * `recreateIfNeeded`: true and nothing else unless RECREATING; otherwise
     * destroy the framebuffers and clear them, run cleanup (which then finds
     * no framebuffers) and initialize, and return initialize's result. The
     * frame index is never reset.
     */
    method RecreateIfNeeded(a: InitAnswers) returns (ok: bool)
      requires Valid() && WellFormed(a)
      modifies this`state, this`res, this`sync, this`steps, this`lastError, this`released
      ensures Valid() && currentFrame == old(currentFrame)
      ensures !old(state).Recreating? ==>
        ok && state == old(state) && res == old(res) && sync == old(sync) && released == old(released) && steps == old(steps)
      ensures old(state).Recreating? ==>
        released == old(released) + RecreateReleases(old(res)) &&
        steps == old(steps) + Attempted(INIT_STEPS, InitOk(a)) &&
        res == ApplySteps(NO_RESOURCES, Attempted(INIT_STEPS, InitOk(a)), a) &&
        (ok <==> AllSucceed(INIT_STEPS, InitOk(a))) &&
        state == (if ok then Ready else Uninitialized)
    {
      if !state.Recreating? {
        return true;
      }
      ok := Recreate(a);
    }

    /**
     * recreateIfNeeded in RECREATING: release as below, then initialize,
     * which finds the state UNINITIALIZED and so runs its creation steps.
     */
    method Recreate(a: InitAnswers) returns (ok: bool)
      requires Valid() && WellFormed(a)
      modifies this`state, this`res, this`sync, this`steps, this`lastError, this`released
      ensures Valid()
      ensures released == old(released) + RecreateReleases(old(res))
      ensures steps == old(steps) + Attempted(INIT_STEPS, InitOk(a))
      ensures res == ApplySteps(NO_RESOURCES, Attempted(INIT_STEPS, InitOk(a)), a)
      ensures ok <==> AllSucceed(INIT_STEPS, InitOk(a))
      ensures state == if ok then Ready else Uninitialized
    {
      ReleaseForRecreate();
      ok := InitializeFresh(a);
    }

    /** The first half of a recreation: destroy and clear the framebuffers, then run cleanup. */
    method ReleaseForRecreate()
      requires Valid()
      modifies this`state, this`res, this`sync, this`released
      ensures Valid() && state == Uninitialized && res == NO_RESOURCES && steps == old(steps)
      ensures released == old(released) + RecreateReleases(old(res))
    {
      var oldFramebuffers := res.framebuffers;
      res := res.(framebuffers := []);
      ReleaseNonNull(FramebufferKind, oldFramebuffers);
      Cleanup();
    }
  }

  /**
   * recreateIfNeeded releases exactly what a plain cleanup would, each object
   * once, only with the framebuffers moved to the front: cleanup then finds
   * none of them.
   */
  lemma RecreateReleasesLikeCleanup(r: Resources)
    requires UniformsAligned(r)
    ensures multiset(RecreateReleases(r)) == multiset(CleanupReleases(r))
  {
    var q := r.(framebuffers := []);
    var fbs := NonNullReleasesUpTo(FramebufferKind, r.framebuffers, |r.framebuffers|);
    var pools := NonNullReleasesUpTo(CommandPoolKind, r.commandPools, |r.commandPools|);
    var back := SlotRelease(PipelineKind, r.graphicsPipeline)
      + SlotRelease(PipelineLayoutKind, r.pipelineLayout)
      + SlotRelease(RenderPassKind, r.renderPass);
    CleanupFrontIgnoresFramebuffers(r, q);
    assert CleanupReleases(r) == CleanupFront(r) + (pools + fbs + back);
    assert CleanupReleases(q) == CleanupFront(r) + (pools + back);
    MovedToFront(CleanupFront(r), pools, fbs, back);
  }

  /** Appending three blocks one after the other appends their concatenation. */
  lemma AppendThree<T>(s: seq<T>, x: seq<T>, y: seq<T>, z: seq<T>)
    ensures s + x + y + z == s + (x + y + z)
  {
  }

  /** Moving a block to the front keeps the multiset of what is released. */
  lemma MovedToFront(front: seq<Release>, pools: seq<Release>, moved: seq<Release>, back: seq<Release>)
    ensures multiset(moved + (front + (pools + back))) == multiset(front + (pools + moved + back))
  {
  }

  /** Everything cleanup releases before the command pools is independent of the framebuffers. */
  lemma CleanupFrontIgnoresFramebuffers(r: Resources, q: Resources)
    requires UniformsAligned(r) && q == r.(framebuffers := [])
    ensures UniformsAligned(q) && CleanupFront(q) == CleanupFront(r)
  {
    UniformReleasesIgnoreFramebuffers(r, q, |r.uniformBuffers|);
    SyncReleasesIgnoreFramebuffers(r, q, MAX_FRAMES_IN_FLIGHT);
  }

  lemma {:induction false} UniformReleasesIgnoreFramebuffers(r: Resources, q: Resources, n: nat)
    requires UniformsAligned(r) && q == r.(framebuffers := q.framebuffers) && n <= |r.uniformBuffers|
    ensures UniformReleasesUpTo(q, n) == UniformReleasesUpTo(r, n)
  {
    if n > 0 {
      UniformReleasesIgnoreFramebuffers(r, q, n - 1);
    }
  }

  lemma {:induction false} SyncReleasesIgnoreFramebuffers(r: Resources, q: Resources, n: nat)
    requires q == r.(framebuffers := q.framebuffers)
    ensures SyncReleasesUpTo(q, n) == SyncReleasesUpTo(r, n)
  {
    if n > 0 {
      SyncReleasesIgnoreFramebuffers(r, q, n - 1);
    }
  }
}
