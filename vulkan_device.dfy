/**
 * VulkanDevice.cpp: the memory-type search (the shared rule of
 * VulkanTypes.FindMemoryType) and the failure paths of
 * endSingleTimeCommands, which decide what gets released.
 */
module VulkanDevices {
  import opened Wrappers
  import opened VulkanTypes
  import opened SwapChains

  /** A release call endSingleTimeCommands makes. */
  datatype Release = DestroyFence(fence: Handle) | FreeCommandBuffer(buffer: Handle)

  /**
   * `endSingleTimeCommands`: create a fence, submit, wait, then destroy the
   * fence and free the command buffer. `fence` is None when the fence
   * cannot be created. Returns the result and the release calls made, in
   * order.
   */
  method EndSingleTimeCommands(commandBuffer: Handle, fence: Option<Handle>, submitOk: bool, waitOk: bool)
    returns (ok: bool, released: seq<Release>)
    ensures ok <==> fence.Some? && submitOk && waitOk
    ensures FreeCommandBuffer(commandBuffer) in released <==> ok
    ensures fence.Some? ==> multiset(released)[DestroyFence(fence.value)] == 1
    ensures fence.None? ==> released == []
    ensures forall r :: r in released ==> r == FreeCommandBuffer(commandBuffer) || (fence.Some? && r == DestroyFence(fence.value))
    ensures ok ==> released == [DestroyFence(fence.value), FreeCommandBuffer(commandBuffer)]
  {
    if fence.None? {
      return false, [];
    }
    if !submitOk {
      return false, [DestroyFence(fence.value)];
    }
    if !waitOk {
      return false, [DestroyFence(fence.value)];
    }
    return true, [DestroyFence(fence.value), FreeCommandBuffer(commandBuffer)];
  }
}
