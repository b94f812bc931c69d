/**
 * The swap-chain choices of SwapChain.cpp: surface format, present mode,
 * extent, image count and sharing mode, each a first-match or clamping rule
 * over what the surface reports, and the cleanup of the chain's handles.
 */
module SwapChains {
  import opened Wrappers
  import opened Words
  import opened VulkanTypes

  /** A Vulkan handle; 0 is VK_NULL_HANDLE. */
  type Handle = nat

  const NULL_HANDLE: Handle := 0

  /** UINT32_MAX, the special `currentExtent.width` meaning "the swap chain decides". */
  const UINT32_MAX: Word := 0xFFFF_FFFF

  datatype SurfaceFormat = SurfaceFormat(format: nat, colorSpace: nat)

  /** VK_FORMAT_B8G8R8A8_SRGB with VK_COLOR_SPACE_SRGB_NONLINEAR_KHR. */
  const PREFERRED_FORMAT: SurfaceFormat := SurfaceFormat(50, 0)

  /** VkPresentModeKHR values the engine names. */
  const PRESENT_MODE_IMMEDIATE: nat := 0
  const PRESENT_MODE_MAILBOX: nat := 1
  const PRESENT_MODE_FIFO: nat := 2

  datatype Extent = Extent(width: Word, height: Word)

  /** The fields of VkSurfaceCapabilitiesKHR the engine reads. */
  datatype Capabilities = Capabilities(
    minImageCount: Word, maxImageCount: Word,
    currentExtent: Extent, minImageExtent: Extent, maxImageExtent: Extent)

  /**
   * `chooseSwapSurfaceFormat`: the preferred sRGB pair when the list holds
   * it, else the first entry. The list is indexed unguarded, so it must not
   * be empty.
   */
  method ChooseSwapSurfaceFormat(formats: seq<SurfaceFormat>) returns (f: SurfaceFormat)
    requires |formats| > 0
    ensures f in formats
    ensures PREFERRED_FORMAT in formats ==> f == PREFERRED_FORMAT
    ensures PREFERRED_FORMAT !in formats ==> f == formats[0]
  {
    var i := 0;
    while i < |formats|
      invariant 0 <= i <= |formats|
      invariant PREFERRED_FORMAT !in formats[..i]
    {
      if formats[i].format == PREFERRED_FORMAT.format && formats[i].colorSpace == PREFERRED_FORMAT.colorSpace {
        return formats[i];
      }
      i := i + 1;
    }
    assert formats[..i] == formats;
    return formats[0];
  }

  /** `chooseSwapPresentMode`: MAILBOX when listed, otherwise FIFO whether or not it is listed. */
  method ChooseSwapPresentMode(modes: seq<nat>) returns (m: nat)
    ensures PRESENT_MODE_MAILBOX in modes ==> m == PRESENT_MODE_MAILBOX
    ensures PRESENT_MODE_MAILBOX !in modes ==> m == PRESENT_MODE_FIFO
    ensures PRESENT_MODE_FIFO in modes ==> m in modes
  {
    var i := 0;
    while i < |modes|
      invariant 0 <= i <= |modes|
      invariant PRESENT_MODE_MAILBOX !in modes[..i]
    {
      if modes[i] == PRESENT_MODE_MAILBOX {
        return modes[i];
      }
      i := i + 1;
    }
    assert modes[..i] == modes;
    return PRESENT_MODE_FIFO;
  }

  /** `std::clamp(v, lo, hi)` as written: `v < lo ? lo : (hi < v ? hi : v)`. */
  function Clamp(v: Word, lo: Word, hi: Word): (r: Word)
    ensures lo <= hi ==> lo <= r <= hi
    ensures lo <= v <= hi ==> r == v
    ensures v < lo ==> r == lo
    ensures lo <= hi < v ==> r == hi
  {
    if v < lo then lo else if hi < v then hi else v
  }

  /** `static_cast<uint32_t>` of an `int`: the value modulo 2^32. */
  function ToWord(v: int): (w: Word)
    ensures 0 <= v < WORD_LIMIT ==> w == v
    ensures v < 0 && -WORD_LIMIT <= v ==> w == v + WORD_LIMIT
  {
    v % WORD_LIMIT
  }

  /**
   * `chooseSwapExtent`: the surface's current extent unless its width is
   * UINT32_MAX; then the framebuffer size, cast to unsigned, clamped per
   * axis into the surface's bounds.
   */
  function ChooseSwapExtent(caps: Capabilities, fbWidth: int, fbHeight: int): (e: Extent)
    ensures caps.currentExtent.width != UINT32_MAX ==> e == caps.currentExtent
    ensures caps.currentExtent.width == UINT32_MAX && caps.minImageExtent.width <= caps.maxImageExtent.width ==>
      caps.minImageExtent.width <= e.width <= caps.maxImageExtent.width
    ensures caps.currentExtent.width == UINT32_MAX && caps.minImageExtent.height <= caps.maxImageExtent.height ==>
      caps.minImageExtent.height <= e.height <= caps.maxImageExtent.height
    ensures caps.currentExtent.width == UINT32_MAX && caps.minImageExtent.width <= fbWidth <= caps.maxImageExtent.width ==>
      e.width == fbWidth
    ensures caps.currentExtent.width == UINT32_MAX && caps.minImageExtent.height <= fbHeight <= caps.maxImageExtent.height ==>
      e.height == fbHeight
  {
    if caps.currentExtent.width != UINT32_MAX then caps.currentExtent
    else Extent(
      Clamp(ToWord(fbWidth), caps.minImageExtent.width, caps.maxImageExtent.width),
      Clamp(ToWord(fbHeight), caps.minImageExtent.height, caps.maxImageExtent.height))
  }

  /**
   * The image count: one more than the minimum, in 32-bit unsigned
   * arithmetic, capped at the maximum when the maximum is non-zero.
   */
  function ChooseImageCount(caps: Capabilities): (n: Word)
    ensures caps.maxImageCount > 0 ==> n <= caps.maxImageCount
    ensures caps.minImageCount < UINT32_MAX && (caps.maxImageCount == 0 || caps.minImageCount < caps.maxImageCount) ==>
      n == caps.minImageCount + 1
    ensures caps.minImageCount < UINT32_MAX && caps.minImageCount <= caps.maxImageCount ==> n >= caps.minImageCount
  {
    var wanted := (caps.minImageCount + 1) % WORD_LIMIT;
    if caps.maxImageCount > 0 && wanted > caps.maxImageCount then caps.maxImageCount else wanted
  }

  /** With minImageCount at UINT32_MAX the increment wraps, and with no maximum the count asked for is 0. */
  lemma ImageCountWraps(caps: Capabilities)
    requires caps.minImageCount == UINT32_MAX && caps.maxImageCount == 0
    ensures ChooseImageCount(caps) == 0
  {
  }

  /** How the swap-chain images are shared between the queue families. */
  datatype SharingMode = Exclusive | Concurrent(queueFamilyIndices: seq<nat>)

  /**
   * The sharing-mode choice of `initialize`: concurrent over the two
   * families when they differ, else exclusive. Reading an unset index when
   * they differ throws `bad_optional_access`, an `Err` here.
   */
  function ChooseSharingMode(q: QueueFamilyIndices): (r: Result<SharingMode>)
    ensures r.Ok? && r.value.Exclusive? <==> q.graphicsFamily == q.presentFamily
    ensures r.Ok? && r.value.Concurrent? <==> IsComplete(q) && q.graphicsFamily != q.presentFamily
    ensures r.Ok? && r.value.Concurrent? ==>
      |r.value.queueFamilyIndices| == 2 && r.value.queueFamilyIndices[0] != r.value.queueFamilyIndices[1]
    ensures r.Ok? && r.value.Concurrent? ==>
      UniqueFamilies(q) == (set i | i in r.value.queueFamilyIndices)
  {
    if q.graphicsFamily != q.presentFamily then
      if IsComplete(q) then Ok(Concurrent([q.graphicsFamily.value, q.presentFamily.value]))
      else Err("bad optional access")
    else Ok(Exclusive)
  }

  /** The fields of VkSwapchainCreateInfoKHR the engine chooses. */
  datatype CreateInfo = CreateInfo(
    minImageCount: Word, surfaceFormat: SurfaceFormat, extent: Extent,
    sharing: SharingMode, presentMode: nat)

  /** What `querySwapChainSupport` reports. */
  datatype SupportDetails = SupportDetails(capabilities: Capabilities, formats: seq<SurfaceFormat>, presentModes: seq<nat>)

  /**
   * The create-info `initialize` builds, up to the vkCreateSwapchainKHR
   * call; `Err` when the sharing-mode choice throws.
   */
  method SwapchainCreateInfo(support: SupportDetails, fbWidth: int, fbHeight: int, q: QueueFamilyIndices)
    returns (r: Result<CreateInfo>)
    requires |support.formats| > 0
    ensures r.Ok? <==> ChooseSharingMode(q).Ok?
    ensures r.Ok? ==> r.value.minImageCount == ChooseImageCount(support.capabilities)
    ensures r.Ok? ==> r.value.extent == ChooseSwapExtent(support.capabilities, fbWidth, fbHeight)
    ensures r.Ok? ==> r.value.sharing == ChooseSharingMode(q).value
    ensures r.Ok? ==> r.value.surfaceFormat in support.formats
    ensures r.Ok? ==> (PREFERRED_FORMAT in support.formats <==> r.value.surfaceFormat == PREFERRED_FORMAT)
    ensures r.Ok? ==> (r.value.presentMode == PRESENT_MODE_MAILBOX <==> PRESENT_MODE_MAILBOX in support.presentModes)
  {
    var format := ChooseSwapSurfaceFormat(support.formats);
    var mode := ChooseSwapPresentMode(support.presentModes);
    var extent := ChooseSwapExtent(support.capabilities, fbWidth, fbHeight);
    var count := ChooseImageCount(support.capabilities);
    var sharing := ChooseSharingMode(q);
    if sharing.Err? {
      return Err(sharing.error);
    }
    return Ok(CreateInfo(count, format, extent, sharing.value, mode));
  }

  /** The handles a SwapChain owns, and a ghost log of every handle it has passed to a destroy call. */
  class SwapChain {
    var swapChain: Handle
    var imageViews: seq<Handle>
    ghost var destroyed: seq<Handle>

    /** The constructor: a null chain and no views. */
    constructor ()
      ensures swapChain == NULL_HANDLE && imageViews == [] && destroyed == []
    {
      swapChain := NULL_HANDLE;
      imageViews := [];
      destroyed := [];
    }

    /**
     * `cleanup`: destroy every image view in order, then the chain if it is
     * not null; the views are cleared and the handle nulled, so a second
     * call destroys nothing.
     */
    method Cleanup()
      modifies this
      ensures imageViews == [] && swapChain == NULL_HANDLE
      ensures destroyed == old(destroyed) + old(imageViews) + (if old(swapChain) != NULL_HANDLE then [old(swapChain)] else [])
    {
      if |imageViews| > 0 {
        var i := 0;
        while i < |imageViews|
          invariant 0 <= i <= |imageViews|
          invariant imageViews == old(imageViews) && swapChain == old(swapChain)
          invariant destroyed == old(destroyed) + imageViews[..i]
        {
          destroyed := destroyed + [imageViews[i]];
          i := i + 1;
        }
        assert imageViews[..i] == imageViews;
        imageViews := [];
      }
      if swapChain != NULL_HANDLE {
        destroyed := destroyed + [swapChain];
        swapChain := NULL_HANDLE;
      }
    }
  }
}
