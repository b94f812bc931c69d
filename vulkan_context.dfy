/**
 * VulkanContext.cpp: the instance-to-device bring-up chain, the
 * physical-device choice, the queue-family loop of createLogicalDevice
 * (which runs on the context's own, never reset, indices) and the
 * destruction order of cleanup. Every Vulkan call is an input.
 */
module VulkanContexts {
  import opened Wrappers
  import opened VulkanTypes
  import opened SwapChains

  /** What pickPhysicalDevice reads of a device: its handle, whether every required extension is present, whether it is a discrete GPU. */
  datatype PhysicalDevice = PhysicalDevice(handle: Handle, hasExtensions: bool, discrete: bool)

  /** A device the loop selects: all extensions present and a discrete GPU. */
  predicate Preferred(d: PhysicalDevice) {
    d.hasExtensions && d.discrete
  }

  /** Index k is the first preferred device. */
  predicate FirstPreferredAt(devices: seq<PhysicalDevice>, k: nat) {
    k < |devices| && Preferred(devices[k]) && forall j :: 0 <= j < k ==> !Preferred(devices[j])
  }

  /**
   * The device loop of pickPhysicalDevice: skip devices missing an
   * extension, stop at the first discrete one.
   */
  method ScanDevices(devices: seq<PhysicalDevice>) returns (chosen: Option<nat>)
    ensures chosen.Some? ==> FirstPreferredAt(devices, chosen.value)
    ensures chosen.None? <==> forall j :: 0 <= j < |devices| ==> !Preferred(devices[j])
  {
    var i := 0;
    while i < |devices|
      invariant 0 <= i <= |devices|
      invariant forall j :: 0 <= j < i ==> !Preferred(devices[j])
    {
      if !devices[i].hasExtensions {
        i := i + 1;
        continue;
      }
      if devices[i].discrete {
        return Some(i);
      }
      i := i + 1;
    }
    return None;
  }

  /** The bring-up steps of `initialize`, in call order. */
  datatype ContextStep = InstanceStep | MessengerStep | SurfaceStep | PhysicalDeviceStep | LogicalDeviceStep

  /** The messenger step is part of the chain only with validation layers enabled. */
  function ContextSteps(validation: bool): (steps: seq<ContextStep>)
    ensures MessengerStep in steps <==> validation
    ensures |steps| >= 4 && steps[0] == InstanceStep && steps[|steps| - 1] == LogicalDeviceStep
    ensures forall j :: 0 <= j < |steps| - 1 ==> steps[j] != LogicalDeviceStep
  {
    [InstanceStep] + (if validation then [MessengerStep] else []) + [SurfaceStep, PhysicalDeviceStep, LogicalDeviceStep]
  }

  /** Something cleanup passes to a destroy call. */
  datatype Destroyed = DestroyedDevice(h: Handle) | DestroyedSurface(h: Handle) | DestroyedMessenger(h: Handle) | DestroyedInstance(h: Handle)

  /** The destroy calls of `cleanup`, in order: device, surface, messenger (with validation), instance, each only when not null. */
  function CleanupCalls(device: Handle, surface: Handle, messenger: Handle, instance: Handle, validation: bool): (calls: seq<Destroyed>)
    ensures |calls| <= 4
    ensures calls == [] <==> device == NULL_HANDLE && surface == NULL_HANDLE && instance == NULL_HANDLE && (validation ==> messenger == NULL_HANDLE)
  {
    (if device != NULL_HANDLE then [DestroyedDevice(device)] else [])
    + (if surface != NULL_HANDLE then [DestroyedSurface(surface)] else [])
    + (if validation && messenger != NULL_HANDLE then [DestroyedMessenger(messenger)] else [])
    + (if instance != NULL_HANDLE then [DestroyedInstance(instance)] else [])
  }

  /** The answers of the Vulkan calls `initialize` makes; None stands for a failed create call. */
  datatype Answers = Answers(
    instance: Option<Handle>, messenger: Option<Handle>, surface: Option<Handle>,
    devices: seq<PhysicalDevice>, families: seq<QueueFamily>, device: Option<Handle>)

  /** Handles that Vulkan returns are never null. */
  predicate WellFormed(a: Answers) {
    (a.instance.Some? ==> a.instance.value != NULL_HANDLE)
    && (a.messenger.Some? ==> a.messenger.value != NULL_HANDLE)
    && (a.surface.Some? ==> a.surface.value != NULL_HANDLE)
    && (a.device.Some? ==> a.device.value != NULL_HANDLE)
    && forall j :: 0 <= j < |a.devices| ==> a.devices[j].handle != NULL_HANDLE
  }

  /** A failed step ends `initialize`; a thrown `bad_optional_access` escapes it. */
  datatype Outcome = Returned(ok: bool) | Threw

  /** Whether bring-up step `s` succeeds with the given answers, from the context's state when `initialize` began. */
  function StepOk(s: ContextStep, a: Answers, start: QueueFamilyIndices): bool {
    match s
    case InstanceStep => a.instance.Some?
    case MessengerStep => a.messenger.Some?
    case SurfaceStep => a.surface.Some?
    case PhysicalDeviceStep => |a.devices| > 0
    case LogicalDeviceStep => IsComplete(ScanFamilies(a.families, start)) && a.device.Some?
  }

  /** Which bring-up steps succeed, as a predicate for the short-circuit chain. */
  function ContextOk(a: Answers, start: QueueFamilyIndices): ContextStep -> bool {
    s => StepOk(s, a, start)
  }

  /**
   * A failing step ends the chain: it is the last one attempted, and the
   * whole chain was attempted exactly when the failing step is the logical
   * device, which comes last.
   */
  lemma ContextChainStops(validation: bool, a: Answers, start: QueueFamilyIndices, i: nat)
    requires i < |ContextSteps(validation)| && !StepOk(ContextSteps(validation)[i], a, start)
    requires AllSucceed(ContextSteps(validation)[..i], ContextOk(a, start))
    ensures Attempted(ContextSteps(validation), ContextOk(a, start)) == ContextSteps(validation)[..i + 1]
    ensures !AllSucceed(ContextSteps(validation), ContextOk(a, start))
    ensures Attempted(ContextSteps(validation), ContextOk(a, start)) == ContextSteps(validation) <==>
      ContextSteps(validation)[i] == LogicalDeviceStep
  {
    var chain := ContextSteps(validation);
    AttemptedUpTo(chain, ContextOk(a, start), i);
    if chain[i] != LogicalDeviceStep {
      assert i < |chain| - 1;
      assert |chain[..i + 1]| != |chain|;
    }
  }

  class VulkanContext {
    const enableValidationLayers: bool
    var instance: Handle
    var debugMessenger: Handle
    var physicalDevice: Handle
    var device: Handle
    var surface: Handle
    var queueFamilyIndices: QueueFamilyIndices
    /** Every bring-up step called, in order. */
    ghost var steps: seq<ContextStep>
    /** Every destroy call made, in order. */
    ghost var destroyed: seq<Destroyed>

    /** The constructor: every handle null, no queue families known. */
    constructor (validation: bool)
      ensures enableValidationLayers == validation
      ensures instance == NULL_HANDLE && debugMessenger == NULL_HANDLE && physicalDevice == NULL_HANDLE
      ensures device == NULL_HANDLE && surface == NULL_HANDLE
      ensures queueFamilyIndices == NO_FAMILIES && steps == [] && destroyed == []
    {
      enableValidationLayers := validation;
      instance := NULL_HANDLE;
      debugMessenger := NULL_HANDLE;
      physicalDevice := NULL_HANDLE;
      device := NULL_HANDLE;
      surface := NULL_HANDLE;
      queueFamilyIndices := NO_FAMILIES;
      steps := [];
      destroyed := [];
    }

    /**
     * `pickPhysicalDevice`: false for no devices; otherwise the first
     * preferred device, else the device already held from an earlier call,
     * else devices[0] whatever its extensions. So it succeeds whenever a
     * device exists.
     */
    method PickPhysicalDevice(devices: seq<PhysicalDevice>) returns (ok: bool)
      requires forall j :: 0 <= j < |devices| ==> devices[j].handle != NULL_HANDLE
      modifies this`physicalDevice
      ensures ok <==> |devices| > 0
      ensures |devices| == 0 ==> physicalDevice == old(physicalDevice)
      ensures forall k: nat :: FirstPreferredAt(devices, k) ==> physicalDevice == devices[k].handle
      ensures |devices| > 0 && (forall j :: 0 <= j < |devices| ==> !Preferred(devices[j])) ==>
        physicalDevice == if old(physicalDevice) != NULL_HANDLE then old(physicalDevice) else devices[0].handle
    {
      if |devices| == 0 {
        return false;
      }
      var chosen := ScanDevices(devices);
      if chosen.Some? {
        physicalDevice := devices[chosen.value].handle;
      }
      if physicalDevice == NULL_HANDLE {
        physicalDevice := devices[0].handle;
      }
      return physicalDevice != NULL_HANDLE;
    }

    /**
     * The modelled part of `createLogicalDevice`: run the queue-family loop
     * on the context's own indices, build the create-infos of the distinct
     * families (throwing when an index is unset), then create the device.
     */
    method CreateLogicalDevice(families: seq<QueueFamily>, created: Option<Handle>) returns (r: Outcome, infoFamilies: seq<nat>)
      requires created.Some? ==> created.value != NULL_HANDLE
      modifies this`queueFamilyIndices, this`device
      ensures queueFamilyIndices == ScanFamilies(families, old(queueFamilyIndices))
      ensures r.Threw? <==> !IsComplete(queueFamilyIndices)
      ensures r.Returned? ==> infoFamilies == QueueCreateFamilies(queueFamilyIndices)
      ensures r == Returned(true) <==> IsComplete(queueFamilyIndices) && created.Some?
      ensures device == if r == Returned(true) then created.value else old(device)
    {
      queueFamilyIndices := FindQueueFamilies(families, queueFamilyIndices);
      if !IsComplete(queueFamilyIndices) {
        return Threw, [];
      }
      infoFamilies := QueueCreateFamilies(queueFamilyIndices);
      if created.None? {
        return Returned(false), infoFamilies;
      }
      device := created.value;
      return Returned(true), infoFamilies;
    }

    /**
     * `initialize`: instance, debug messenger (only with validation
     * layers), surface, physical device, logical device, stopping at the
     * first failure. The steps called are exactly the chain up to that
     * failure, and the result is true only when every step succeeds.
     */
    method Initialize(a: Answers) returns (r: Outcome)
      requires WellFormed(a)
      modifies this
      ensures steps == old(steps) + Attempted(ContextSteps(enableValidationLayers), ContextOk(a, old(queueFamilyIndices)))
      ensures r == Returned(true) <==> AllSucceed(ContextSteps(enableValidationLayers), ContextOk(a, old(queueFamilyIndices)))
      ensures r.Threw? <==> (Attempted(ContextSteps(enableValidationLayers), ContextOk(a, old(queueFamilyIndices))) == ContextSteps(enableValidationLayers)
        && !IsComplete(ScanFamilies(a.families, old(queueFamilyIndices))))
      ensures destroyed == old(destroyed)
    {
      ghost var start, s0 := queueFamilyIndices, steps;
      var chain := ContextSteps(enableValidationLayers);
      var i := 0;
      while i < |chain|
        invariant 0 <= i <= |chain|
        invariant steps == s0 + chain[..i]
        invariant AllSucceed(chain[..i], ContextOk(a, start))
        invariant i < |chain| ==> queueFamilyIndices == start
        invariant destroyed == old(destroyed)
      {
        r := RunChainStep(chain, a, i, start, s0);
        if r != Returned(true) {
          return;
        }
        i := i + 1;
      }
      assert chain[..i] == chain;
      AttemptedStops(chain, ContextOk(a, start));
      r := Returned(true);
    }

    /**
     * Step i of the bring-up chain: on success the chain goes on with one
     * more step done; on failure it stops, and step i is the last attempted.
     */
    method RunChainStep(chain: seq<ContextStep>, a: Answers, i: nat, ghost start: QueueFamilyIndices, ghost s0: seq<ContextStep>)
      returns (r: Outcome)
      requires WellFormed(a) && chain == ContextSteps(enableValidationLayers) && i < |chain|
      requires steps == s0 + chain[..i] && AllSucceed(chain[..i], ContextOk(a, start)) && queueFamilyIndices == start
      modifies this`instance, this`debugMessenger, this`surface, this`physicalDevice, this`queueFamilyIndices, this`device, this`steps
      ensures destroyed == old(destroyed)
      ensures r == Returned(true) ==>
        steps == s0 + chain[..i + 1] && AllSucceed(chain[..i + 1], ContextOk(a, start)) &&
        (i + 1 < |chain| ==> queueFamilyIndices == start)
      ensures r != Returned(true) ==>
        steps == s0 + Attempted(chain, ContextOk(a, start)) && !AllSucceed(chain, ContextOk(a, start)) &&
        (r.Threw? <==> Attempted(chain, ContextOk(a, start)) == chain && !IsComplete(ScanFamilies(a.families, start)))
    {
      r := RunStep(chain[i], a);
      assert chain[..i + 1] == chain[..i] + [chain[i]];
      if r != Returned(true) {
        assert !StepOk(chain[i], a, start);
        ContextChainStops(enableValidationLayers, a, start, i);
      } else {
        assert ContextOk(a, start)(chain[i]);
      }
    }

    /** One bring-up step: call it and record it; only the logical-device step can throw. */
    method RunStep(s: ContextStep, a: Answers) returns (r: Outcome)
      requires WellFormed(a)
      modifies this`instance, this`debugMessenger, this`surface, this`physicalDevice, this`queueFamilyIndices, this`device, this`steps
      ensures steps == old(steps) + [s]
      ensures r.Returned? ==> r.ok == StepOk(s, a, old(queueFamilyIndices))
      ensures r.Threw? <==> s == LogicalDeviceStep && !IsComplete(ScanFamilies(a.families, old(queueFamilyIndices)))
      ensures s != LogicalDeviceStep ==> queueFamilyIndices == old(queueFamilyIndices)
      ensures destroyed == old(destroyed)
    {
      steps := steps + [s];
      match s
      case InstanceStep =>
        if a.instance.None? {
          return Returned(false);
        }
        instance := a.instance.value;
        return Returned(true);
      case MessengerStep =>
        if a.messenger.None? {
          return Returned(false);
        }
        debugMessenger := a.messenger.value;
        return Returned(true);
      case SurfaceStep =>
        if a.surface.None? {
          return Returned(false);
        }
        surface := a.surface.value;
        return Returned(true);
      case PhysicalDeviceStep =>
        var picked := PickPhysicalDevice(a.devices);
        return Returned(picked);
      case LogicalDeviceStep =>
        var infos;
        r, infos := CreateLogicalDevice(a.families, a.device);
    }

    /**
     * `cleanup`: destroy the device, the surface, the messenger (with
     * validation layers) and the instance, each only when not null, and null
     * each one. A second call destroys nothing. The physical device and the
     * queue-family indices are left as they are.
     */
    method Cleanup()
      modifies this`device, this`surface, this`debugMessenger, this`instance, this`destroyed
      ensures destroyed == old(destroyed) + CleanupCalls(old(device), old(surface), old(debugMessenger), old(instance), enableValidationLayers)
      ensures device == NULL_HANDLE && surface == NULL_HANDLE && instance == NULL_HANDLE
      ensures debugMessenger == if enableValidationLayers then NULL_HANDLE else old(debugMessenger)
      ensures CleanupCalls(device, surface, debugMessenger, instance, enableValidationLayers) == []
    {
      ghost var calls := CleanupCalls(device, surface, debugMessenger, instance, enableValidationLayers);
      ghost var d0 := destroyed;
      ReleaseDeviceAndSurface();
      ghost var d1 := destroyed;
      ReleaseMessengerAndInstance();
      assert destroyed == d0 + (d1[|d0|..] + destroyed[|d1|..]);
    }

    /** The first half of cleanup: the logical device, then the surface. */
    method ReleaseDeviceAndSurface()
      modifies this`device, this`surface, this`destroyed
      ensures destroyed == old(destroyed)
        + (if old(device) != NULL_HANDLE then [DestroyedDevice(old(device))] else [])
        + (if old(surface) != NULL_HANDLE then [DestroyedSurface(old(surface))] else [])
      ensures device == NULL_HANDLE && surface == NULL_HANDLE
    {
      if device != NULL_HANDLE {
        destroyed := destroyed + [DestroyedDevice(device)];
        device := NULL_HANDLE;
      }
      if surface != NULL_HANDLE {
        destroyed := destroyed + [DestroyedSurface(surface)];
        surface := NULL_HANDLE;
      }
    }

    /**
     * The second half of cleanup: the debug messenger (with validation layers),
     * then the instance. The source destroys the messenger through the function
     * `vkGetInstanceProcAddr` returns and skips the call when that lookup is
     * null; the model logs the destroy either way, and nulls the member as the
     * source does.
     */
    method ReleaseMessengerAndInstance()
      modifies this`debugMessenger, this`instance, this`destroyed
      ensures destroyed == old(destroyed)
        + (if enableValidationLayers && old(debugMessenger) != NULL_HANDLE then [DestroyedMessenger(old(debugMessenger))] else [])
        + (if old(instance) != NULL_HANDLE then [DestroyedInstance(old(instance))] else [])
      ensures instance == NULL_HANDLE
      ensures debugMessenger == if enableValidationLayers then NULL_HANDLE else old(debugMessenger)
    {
      if enableValidationLayers && debugMessenger != NULL_HANDLE {
        destroyed := destroyed + [DestroyedMessenger(debugMessenger)];
        debugMessenger := NULL_HANDLE;
      }
      if instance != NULL_HANDLE {
        destroyed := destroyed + [DestroyedInstance(instance)];
        instance := NULL_HANDLE;
      }
    }
  }

  /**
   * The queue create-infos of createLogicalDevice: one per member of the
   * `std::set` of the two indices, in ascending order.
   */
  function QueueCreateFamilies(q: QueueFamilyIndices): (fs: seq<nat>)
    requires IsComplete(q)
    ensures (set f | f in fs) == UniqueFamilies(q)
    ensures |fs| == 1 <==> q.graphicsFamily == q.presentFamily
    ensures forall i, j :: 0 <= i < j < |fs| ==> fs[i] < fs[j]
  {
    var g, p := q.graphicsFamily.value, q.presentFamily.value;
    if g == p then [g] else if g < p then [g, p] else [p, g]
  }

  /**
   * Indices left complete by an earlier call make the loop stop after the
   * first family: a family list without graphics in its first entry keeps
   * the stale graphics index, which then names a family of a different
   * device.
   */
  lemma StaleIndicesSurvive(fams: seq<QueueFamily>, start: QueueFamilyIndices)
    requires IsComplete(start)
    ensures ScanLength(fams, start) == if |fams| == 0 then 0 else 1
    ensures IsComplete(ScanFamilies(fams, start))
    ensures |fams| == 0 || !Graphics(fams[0]) ==> ScanFamilies(fams, start).graphicsFamily == start.graphicsFamily
    ensures |fams| == 0 || !fams[0].presentSupport ==> ScanFamilies(fams, start).presentFamily == start.presentFamily
  {
    if |fams| > 0 {
      assert IsComplete(ScanUpTo(fams, start, 1));
      ScanLengthFromIs(fams, start, 1, 1);
    }
  }
}
