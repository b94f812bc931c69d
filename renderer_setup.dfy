/**
 * The device and swap-chain choices of the older Renderer (Renderer.cpp):
 * its own present-mode and extent rules, the supported-format search, and
 * device suitability and selection. The surface format, image count and
 * queue-family scan are the same rules as SwapChains and VulkanTypes.
 */
module RendererSetup {
  import opened Wrappers
  import opened Words
  import opened VulkanTypes
  import opened SwapChains

  /**
   * createSwapChain's present mode: IMMEDIATE when listed, else MAILBOX when
   * listed, else FIFO (the default, listed or not).
   */
  method ChoosePresentMode(modes: seq<nat>) returns (m: nat)
    ensures PRESENT_MODE_IMMEDIATE in modes ==> m == PRESENT_MODE_IMMEDIATE
    ensures PRESENT_MODE_IMMEDIATE !in modes && PRESENT_MODE_MAILBOX in modes ==> m == PRESENT_MODE_MAILBOX
    ensures PRESENT_MODE_IMMEDIATE !in modes && PRESENT_MODE_MAILBOX !in modes ==> m == PRESENT_MODE_FIFO
    ensures m in modes || m == PRESENT_MODE_FIFO
  {
    m := PRESENT_MODE_FIFO;
    var i := 0;
    while i < |modes|
      invariant 0 <= i <= |modes| && PRESENT_MODE_IMMEDIATE !in modes[..i]
    {
      if modes[i] == PRESENT_MODE_IMMEDIATE {
        return PRESENT_MODE_IMMEDIATE;
      }
      i := i + 1;
    }
    assert modes[..i] == modes;
    var j := 0;
    while j < |modes|
      invariant 0 <= j <= |modes| && PRESENT_MODE_MAILBOX !in modes[..j]
    {
      if modes[j] == PRESENT_MODE_MAILBOX {
        return PRESENT_MODE_MAILBOX;
      }
      j := j + 1;
    }
    assert modes[..j] == modes;
  }

  /** `std::max(a, b)` on uint32_t: `a < b ? b : a`. */
  function MaxWord(a: Word, b: Word): (r: Word)
    ensures a <= r && b <= r && (r == a || r == b)
  {
    if a < b then b else a
  }

  /** `std::min(a, b)` on uint32_t: `b < a ? b : a`. */
  function MinWord(a: Word, b: Word): (r: Word)
    ensures r <= a && r <= b && (r == a || r == b)
  {
    if b < a then b else a
  }

  /**
   * createSwapChain's extent: the current extent unless its width is
   * UINT32_MAX; then 800x600 brought under the maximum and then up to the
   * minimum, per axis.
   */
  function ChooseExtent(caps: Capabilities): (e: Extent)
    ensures caps.currentExtent.width != UINT32_MAX ==> e == caps.currentExtent
    ensures caps.currentExtent.width == UINT32_MAX ==>
      caps.minImageExtent.width <= e.width && caps.minImageExtent.height <= e.height
    ensures caps.currentExtent.width == UINT32_MAX && caps.minImageExtent.width <= caps.maxImageExtent.width ==>
      e.width <= caps.maxImageExtent.width
    ensures caps.currentExtent.width == UINT32_MAX && caps.minImageExtent.height <= caps.maxImageExtent.height ==>
      e.height <= caps.maxImageExtent.height
    ensures caps.currentExtent.width == UINT32_MAX && caps.minImageExtent.width <= 800 <= caps.maxImageExtent.width ==>
      e.width == 800
    ensures caps.currentExtent.width == UINT32_MAX && caps.minImageExtent.height <= 600 <= caps.maxImageExtent.height ==>
      e.height == 600
    ensures caps.currentExtent.width == UINT32_MAX && caps.maxImageExtent.width < caps.minImageExtent.width ==>
      e.width == caps.minImageExtent.width
  {
    if caps.currentExtent.width != UINT32_MAX then caps.currentExtent
    else Extent(
      MaxWord(caps.minImageExtent.width, MinWord(caps.maxImageExtent.width, 800)),
      MaxWord(caps.minImageExtent.height, MinWord(caps.maxImageExtent.height, 600)))
  }

  /**
   * With consistent bounds the Renderer's rule is SwapChain's clamp of a fixed
   * 800x600 framebuffer; the two differ only when a minimum exceeds its maximum.
   */
  lemma ExtentRulesAgree(caps: Capabilities)
    requires caps.minImageExtent.width <= caps.maxImageExtent.width
    requires caps.minImageExtent.height <= caps.maxImageExtent.height
    ensures ChooseExtent(caps) == ChooseSwapExtent(caps, 800, 600)
  {
  }

  /** VkImageTiling values. */
  const TILING_OPTIMAL: nat := 0
  const TILING_LINEAR: nat := 1

  /** The depth candidates, in the order tried: D32_SFLOAT, D32_SFLOAT_S8_UINT, D24_UNORM_S8_UINT. */
  const FORMAT_D32_SFLOAT: nat := 126
  const FORMAT_D32_SFLOAT_S8_UINT: nat := 130
  const FORMAT_D24_UNORM_S8_UINT: nat := 129

  /** VK_FORMAT_FEATURE_DEPTH_STENCIL_ATTACHMENT_BIT. */
  const FEATURE_DEPTH_STENCIL_ATTACHMENT: Word := 0x200

  /** What vkGetPhysicalDeviceFormatProperties reports for one format. */
  datatype FormatProperties = FormatProperties(linearTilingFeatures: Word, optimalTilingFeatures: Word)

  /** The tiling's feature mask holds every requested feature; other tilings support nothing. */
  predicate Supports(p: FormatProperties, tiling: nat, features: Word) {
    (tiling == TILING_LINEAR && Includes(p.linearTilingFeatures, features)) ||
    (tiling == TILING_OPTIMAL && Includes(p.optimalTilingFeatures, features))
  }

  /** Candidate k is supported and no earlier candidate is. */
  predicate FirstSupportedAt(candidates: seq<nat>, tiling: nat, features: Word, props: nat -> FormatProperties, k: nat) {
    k < |candidates| && Supports(props(candidates[k]), tiling, features) &&
    forall j :: 0 <= j < k ==> !Supports(props(candidates[j]), tiling, features)
  }

  /**
   * `findSupportedFormat`: the first candidate whose properties support the
   * features under the tiling; None where the source throws. `props` is the
   * device's answer for each format.
   */
  method FindSupportedFormat(candidates: seq<nat>, tiling: nat, features: Word, props: nat -> FormatProperties)
    returns (r: Option<nat>)
    ensures r.None? <==> forall j :: 0 <= j < |candidates| ==> !Supports(props(candidates[j]), tiling, features)
    ensures r.Some? ==> exists k: nat :: FirstSupportedAt(candidates, tiling, features, props, k) && candidates[k] == r.value
  {
    var i := 0;
    while i < |candidates|
      invariant 0 <= i <= |candidates|
      invariant forall j :: 0 <= j < i ==> !Supports(props(candidates[j]), tiling, features)
    {
      var p := props(candidates[i]);
      if tiling == TILING_LINEAR && Includes(p.linearTilingFeatures, features) {
        assert FirstSupportedAt(candidates, tiling, features, props, i);
        return Some(candidates[i]);
      } else if tiling == TILING_OPTIMAL && Includes(p.optimalTilingFeatures, features) {
        assert FirstSupportedAt(candidates, tiling, features, props, i);
        return Some(candidates[i]);
      }
      i := i + 1;
    }
    return None;
  }

  /** Only the first supported candidate can be returned. */
  lemma FirstSupportedUnique(candidates: seq<nat>, tiling: nat, features: Word, props: nat -> FormatProperties, k: nat, l: nat)
    requires FirstSupportedAt(candidates, tiling, features, props, k)
    requires FirstSupportedAt(candidates, tiling, features, props, l)
    ensures k == l
  {
  }

  /** The depth-stencil attachment support of one format under optimal tiling. */
  predicate DepthCapable(props: nat -> FormatProperties, f: nat) {
    Supports(props(f), TILING_OPTIMAL, FEATURE_DEPTH_STENCIL_ATTACHMENT)
  }

  /**
   * `findDepthFormat`: D32_SFLOAT if it can be a depth attachment, else
   * D32_SFLOAT_S8_UINT, else D24_UNORM_S8_UINT, else None (a throw).
   */
  method FindDepthFormat(props: nat -> FormatProperties) returns (r: Option<nat>)
    ensures DepthCapable(props, FORMAT_D32_SFLOAT) ==> r == Some(FORMAT_D32_SFLOAT)
    ensures !DepthCapable(props, FORMAT_D32_SFLOAT) && DepthCapable(props, FORMAT_D32_SFLOAT_S8_UINT) ==>
      r == Some(FORMAT_D32_SFLOAT_S8_UINT)
    ensures !DepthCapable(props, FORMAT_D32_SFLOAT) && !DepthCapable(props, FORMAT_D32_SFLOAT_S8_UINT) ==>
      r == if DepthCapable(props, FORMAT_D24_UNORM_S8_UINT) then Some(FORMAT_D24_UNORM_S8_UINT) else None
  {
    var candidates := [FORMAT_D32_SFLOAT, FORMAT_D32_SFLOAT_S8_UINT, FORMAT_D24_UNORM_S8_UINT];
    r := FindSupportedFormat(candidates, TILING_OPTIMAL, FEATURE_DEPTH_STENCIL_ATTACHMENT, props);
    if r.Some? {
      var k: nat :| FirstSupportedAt(candidates, TILING_OPTIMAL, FEATURE_DEPTH_STENCIL_ATTACHMENT, props, k) && candidates[k] == r.value;
      assert k == 0 || k == 1 || k == 2;
      if DepthCapable(props, FORMAT_D32_SFLOAT) {
        assert FirstSupportedAt(candidates, TILING_OPTIMAL, FEATURE_DEPTH_STENCIL_ATTACHMENT, props, 0);
        FirstSupportedUnique(candidates, TILING_OPTIMAL, FEATURE_DEPTH_STENCIL_ATTACHMENT, props, k, 0);
      } else if DepthCapable(props, FORMAT_D32_SFLOAT_S8_UINT) {
        assert FirstSupportedAt(candidates, TILING_OPTIMAL, FEATURE_DEPTH_STENCIL_ATTACHMENT, props, 1);
        FirstSupportedUnique(candidates, TILING_OPTIMAL, FEATURE_DEPTH_STENCIL_ATTACHMENT, props, k, 1);
      }
    } else {
      assert !DepthCapable(props, candidates[0]) && !DepthCapable(props, candidates[1]) && !DepthCapable(props, candidates[2]);
    }
  }

  /** What a physical device reports to isDeviceSuitable. */
  datatype DeviceSupport = DeviceSupport(families: seq<QueueFamily>, formatCount: Word, presentModeCount: Word)

  /**
   * A device is suitable when some family does graphics, some family can
   * present, and the surface has at least one format and one present mode.
   */
  predicate Suitable(d: DeviceSupport) {
    (exists g :: 0 <= g < |d.families| && Graphics(d.families[g])) &&
    (exists p :: 0 <= p < |d.families| && d.families[p].presentSupport) &&
    d.formatCount > 0 && d.presentModeCount > 0
  }

  /**
   * `isDeviceSuitable`: complete indices from a fresh findQueueFamilies scan
   * and an adequate swap chain. The scan stops early, so this is the
   * declarative condition only because of QueueSearchComplete.
   */
  method IsDeviceSuitable(d: DeviceSupport) returns (ok: bool)
    ensures ok <==> Suitable(d)
  {
    var indices := FindQueueFamilies(d.families, NO_FAMILIES);
    QueueSearchComplete(d.families);
    var swapChainAdequate := d.formatCount > 0 && d.presentModeCount > 0;
    return IsComplete(indices) && swapChainAdequate;
  }

  /** A device as enumerated: its handle and what it reports. */
  datatype RenderDevice = RenderDevice(handle: Handle, support: DeviceSupport)

  /** Device k is suitable and no earlier one is. */
  predicate FirstSuitableAt(devices: seq<RenderDevice>, k: nat) {
    k < |devices| && Suitable(devices[k].support) &&
    forall j :: 0 <= j < k ==> !Suitable(devices[j].support)
  }

  /**
   * Renderer's `pickPhysicalDevice`: throws (Err) on no devices; otherwise
   * takes the first suitable device. The member it writes has no initial
   * value, so with no suitable device the outcome depends on `held`, what
   * that member already holds: an error only when it happens to be null.
   */
  method PickPhysicalDevice(devices: seq<RenderDevice>, held: Handle) returns (r: Result<Handle>)
    requires forall j :: 0 <= j < |devices| ==> devices[j].handle != NULL_HANDLE
    ensures |devices| == 0 ==> r.Err?
    ensures forall k: nat :: FirstSuitableAt(devices, k) ==> r == Ok(devices[k].handle)
    ensures |devices| > 0 && (forall j :: 0 <= j < |devices| ==> !Suitable(devices[j].support)) ==>
      r == if held == NULL_HANDLE then Err("Failed to find a suitable GPU!") else Ok(held)
  {
    if |devices| == 0 {
      return Err("Failed to find GPUs with Vulkan support!");
    }
    var physicalDevice := held;
    var i := 0;
    while i < |devices|
      invariant 0 <= i <= |devices|
      invariant forall j :: 0 <= j < i ==> !Suitable(devices[j].support)
      invariant physicalDevice == held
    {
      var ok := IsDeviceSuitable(devices[i].support);
      if ok {
        physicalDevice := devices[i].handle;
        assert FirstSuitableAt(devices, i);
        return Ok(physicalDevice);
      }
      i := i + 1;
    }
    if physicalDevice == NULL_HANDLE {
      return Err("Failed to find a suitable GPU!");
    }
    return Ok(physicalDevice);
  }
}
