/** The texture example's `Application`: the image-layout transition table, the commands it records
    while uploading a texture, and the device setup it shares with the headless example.

    Vulkan handles and the driver are not modelled: the memory types and queue families the
    driver reports are parameters, and each command the application records into a one-time
    command buffer and submits is appended to `commands`, in submission order. */
module Texture {
  import opened Common
  import MemoryType
  import Selection

  // ---------------------------------------------------------------------------------------------
  // Vulkan constants

  /** `VkImageLayout` values. */
  const Undefined: nat := 0
  const ShaderReadOnlyOptimal: nat := 5
  const TransferDstOptimal: nat := 7

  /** `VkAccessFlagBits`. */
  const AccessShaderRead: bv32 := 0x20
  const AccessTransferWrite: bv32 := 0x1000

  /** `VkPipelineStageFlagBits`. */
  const StageTopOfPipe: bv32 := 0x1
  const StageFragmentShader: bv32 := 0x80
  const StageTransfer: bv32 := 0x1000

  /** `VK_IMAGE_ASPECT_COLOR_BIT` and `VK_QUEUE_FAMILY_IGNORED`. */
  const AspectColor: bv32 := 0x1
  const QueueFamilyIgnored: bv32 := 0xFFFF_FFFF

  // ---------------------------------------------------------------------------------------------
  // Commands

  /** `VkImageMemoryBarrier`, without the image handle. */
  datatype Barrier = Barrier(
    oldLayout: nat, newLayout: nat,
    srcAccessMask: bv32, dstAccessMask: bv32,
    srcQueueFamilyIndex: bv32, dstQueueFamilyIndex: bv32,
    aspectMask: bv32, baseMipLevel: nat, levelCount: nat, baseArrayLayer: nat, layerCount: nat)

  /** The commands the texture upload submits. */
  datatype Command =
    | PipelineBarrier(srcStage: bv32, dstStage: bv32, barrier: Barrier)
    | CopyBufferToImage(dstLayout: nat, width: nat, height: nat)

  /** The barrier covers the whole single-mip, single-layer colour image and transfers no queue
      ownership. */
  predicate WholeColorImage(b: Barrier)
  {
    && b.srcQueueFamilyIndex == QueueFamilyIgnored && b.dstQueueFamilyIndex == QueueFamilyIgnored
    && b.aspectMask == AspectColor
    && b.baseMipLevel == 0 && b.levelCount == 1 && b.baseArrayLayer == 0 && b.layerCount == 1
  }

  /** The decision table of `transitionImageLayout`: the barrier it records for a layout pair, or
      `None` for a pair it does not support (the program then exits without recording anything). */
  function LayoutTransition(oldLayout: nat, newLayout: nat): (r: Option<Command>)
    ensures r.Some? <==>
      || (oldLayout == Undefined && newLayout == TransferDstOptimal)
      || (oldLayout == TransferDstOptimal && newLayout == ShaderReadOnlyOptimal)
    ensures r.Some? ==>
      && r.value.PipelineBarrier?
      && r.value.barrier.oldLayout == oldLayout && r.value.barrier.newLayout == newLayout
      && WholeColorImage(r.value.barrier)
  {
    var barrier := Barrier(oldLayout, newLayout, 0, 0, QueueFamilyIgnored, QueueFamilyIgnored,
                           AspectColor, 0, 1, 0, 1);
    if oldLayout == Undefined && newLayout == TransferDstOptimal then
      Some(PipelineBarrier(StageTopOfPipe, StageTransfer,
        barrier.(srcAccessMask := 0, dstAccessMask := AccessTransferWrite)))
    else if oldLayout == TransferDstOptimal && newLayout == ShaderReadOnlyOptimal then
      Some(PipelineBarrier(StageTransfer, StageFragmentShader,
        barrier.(srcAccessMask := AccessTransferWrite, dstAccessMask := AccessShaderRead)))
    else
      None
  }

  /** Before the upload nothing needs to finish, and the transfer writes wait for the barrier. */
  lemma ToTransferDst()
    ensures var r := LayoutTransition(Undefined, TransferDstOptimal);
      && r.Some?
      && r.value.srcStage == StageTopOfPipe && r.value.dstStage == StageTransfer
      && r.value.barrier.srcAccessMask == 0 && r.value.barrier.dstAccessMask == AccessTransferWrite
  {
  }

  /** After the upload the transfer writes are made visible to fragment-shader reads. */
  lemma ToShaderReadOnly()
    ensures var r := LayoutTransition(TransferDstOptimal, ShaderReadOnlyOptimal);
      && r.Some?
      && r.value.srcStage == StageTransfer && r.value.dstStage == StageFragmentShader
      && r.value.barrier.srcAccessMask == AccessTransferWrite
      && r.value.barrier.dstAccessMask == AccessShaderRead
  {
  }

  /** The two supported barriers chain: the second waits for exactly the stage and the access the
      first one leads into, which is where the copy between them runs. */
  lemma BarriersChain(first: Command, second: Command)
    requires LayoutTransition(Undefined, TransferDstOptimal) == Some(first)
    requires LayoutTransition(TransferDstOptimal, ShaderReadOnlyOptimal) == Some(second)
    ensures first.dstStage == second.srcStage == StageTransfer
    ensures first.barrier.dstAccessMask == second.barrier.srcAccessMask == AccessTransferWrite
  {
  }

  /** No supported transition leaves `SHADER_READ_ONLY_OPTIMAL` or goes straight from `UNDEFINED`
      to it. */
  lemma ShaderReadOnlyIsFinal(newLayout: nat)
    ensures LayoutTransition(ShaderReadOnlyOptimal, newLayout).None?
    ensures LayoutTransition(Undefined, ShaderReadOnlyOptimal).None?
  {
  }

  /** The layout an image starting in `layout` is in after `commands`, or `None` when a command
      does not match it: a barrier must start from the current layout (or from `UNDEFINED`, which
      discards the contents), and a copy must name the current layout. */
  function Replay(layout: nat, commands: seq<Command>): Option<nat>
    decreases |commands|
  {
    if |commands| == 0 then Some(layout)
    else match commands[0]
      case PipelineBarrier(_, _, b) =>
        if b.oldLayout == layout || b.oldLayout == Undefined then Replay(b.newLayout, commands[1..]) else None
      case CopyBufferToImage(dstLayout, _, _) =>
        if dstLayout == layout then Replay(layout, commands[1..]) else None
  }

  /** Replaying two command lists one after the other is replaying their concatenation. */
  lemma {:induction false} ReplayAppend(layout: nat, first: seq<Command>, second: seq<Command>)
    ensures Replay(layout, first + second) ==
      match Replay(layout, first)
      case Some(middle) => Replay(middle, second)
      case None => None
    decreases |first|
  {
    if |first| > 0 {
      assert (first + second)[0] == first[0];
      assert (first + second)[1..] == first[1..] + second;
      match first[0]
      case PipelineBarrier(_, _, b) =>
        ReplayAppend(b.newLayout, first[1..], second);
      case CopyBufferToImage(_, _, _) =>
        ReplayAppend(layout, first[1..], second);
    } else {
      assert first + second == second;
    }
  }

  /** `static_cast<uint32_t>` of an `int`. */
  function Uint32(n: int): (r: nat)
    ensures r < 0x1_0000_0000
    ensures 0 <= n < 0x1_0000_0000 ==> r == n
  {
    n % 0x1_0000_0000
  }

  /** The commands `setTexture` submits for a `texWidth` by `texHeight` image. */
  function TextureUpload(texWidth: int, texHeight: int): (commands: seq<Command>)
    ensures |commands| == 3
  {
    var toTransferDst := LayoutTransition(Undefined, TransferDstOptimal).value;
    var toShaderReadOnly := LayoutTransition(TransferDstOptimal, ShaderReadOnlyOptimal).value;
    [toTransferDst, CopyBufferToImage(TransferDstOptimal, Uint32(texWidth), Uint32(texHeight)), toShaderReadOnly]
  }

  /** The upload only uses supported transitions, copies while the image is in
      `TRANSFER_DST_OPTIMAL`, and leaves the image ready for sampling. Its first barrier starts
      from `UNDEFINED`, so this holds whatever layout the image was in before. */
  lemma UploadIsConsistent(layout: nat, texWidth: int, texHeight: int)
    ensures Replay(layout, TextureUpload(texWidth, texHeight)[..1]) == Some(TransferDstOptimal)
    ensures TextureUpload(texWidth, texHeight)[1].CopyBufferToImage?
    ensures 0 <= texWidth < 0x1_0000_0000 ==> TextureUpload(texWidth, texHeight)[1].width == texWidth
    ensures 0 <= texHeight < 0x1_0000_0000 ==> TextureUpload(texWidth, texHeight)[1].height == texHeight
    ensures Replay(layout, TextureUpload(texWidth, texHeight)) == Some(ShaderReadOnlyOptimal)
  {
    var upload := TextureUpload(texWidth, texHeight);
    assert upload[..1][1..] == [];
    var rest := upload[1..];
    assert rest[0] == upload[1];
    assert rest[1..] == [upload[2]];
    assert Replay(TransferDstOptimal, rest[1..]) == Some(ShaderReadOnlyOptimal) by {
      assert [upload[2]][1..] == [];
    }
  }

  /** However the image was used before, appending the upload leaves it ready for sampling. */
  lemma UploadAfter(layout: nat, earlier: seq<Command>, texWidth: int, texHeight: int)
    requires Replay(Undefined, earlier) == Some(layout)
    ensures Replay(Undefined, earlier + TextureUpload(texWidth, texHeight)) == Some(ShaderReadOnlyOptimal)
  {
    ReplayAppend(Undefined, earlier, TextureUpload(texWidth, texHeight));
    UploadIsConsistent(layout, texWidth, texHeight);
  }

  // ---------------------------------------------------------------------------------------------
  // The application

  class Application {
    /** The memory types of the physical device, as `vkGetPhysicalDeviceMemoryProperties` reports
        them. */
    const memoryTypes: seq<bv32>
    /** The queue family of the graphics queue, once `setDevice` has found one. */
    var queueFamilyIndex: Option<nat>
    /** The size in bytes of the staging buffer of the texture. */
    var stagingSize: int
    /** The commands submitted so far, in order. */
    var commands: seq<Command>

    constructor(memoryTypes: seq<bv32>)
      ensures this.memoryTypes == memoryTypes
      ensures queueFamilyIndex.None? && stagingSize == 0 && commands == []
    {
      this.memoryTypes := memoryTypes;
      queueFamilyIndex := None;
      stagingSize := 0;
      commands := [];
    }

    /** `getMemoryTypeIndex`, the same search as the headless example's, over this device's memory
        types. */
    method GetMemoryTypeIndex(typeBits: bv32, properties: bv32) returns (index: nat)
      requires |memoryTypes| <= MemoryType.MaxMemoryTypes
      ensures index == MemoryType.MemoryTypeIndex(memoryTypes, typeBits, properties)
    {
      index := MemoryType.GetMemoryTypeIndex(memoryTypes, typeBits, properties);
    }

    /** The queue-family search of `setDevice`: the first family with the graphics bit becomes
        `queueFamilyIndex`; when there is none, the field keeps whatever it held. */
    method SetDevice(families: seq<bv32>)
      modifies this
      ensures Selection.FirstGraphicsFamily(families).Some? ==>
        queueFamilyIndex == Selection.FirstGraphicsFamily(families)
      ensures Selection.FirstGraphicsFamily(families).None? ==> queueFamilyIndex == old(queueFamilyIndex)
      ensures stagingSize == old(stagingSize) && commands == old(commands)
    {
      var found := Selection.FindGraphicsQueueFamily(families);
      if found.Some? {
        queueFamilyIndex := found;
      }
    }

    /** `transitionImageLayout`: records the barrier of a supported layout pair; for any other pair
        the program exits, which is `ok == false` with nothing recorded. */
    method TransitionImageLayout(oldLayout: nat, newLayout: nat) returns (ok: bool)
      modifies this
      ensures ok <==> LayoutTransition(oldLayout, newLayout).Some?
      ensures ok ==> commands == old(commands) + [LayoutTransition(oldLayout, newLayout).value]
      ensures !ok ==> commands == old(commands)
      ensures queueFamilyIndex == old(queueFamilyIndex) && stagingSize == old(stagingSize)
    {
      var transition := LayoutTransition(oldLayout, newLayout);
      if transition.None? {
        return false;
      }
      commands := commands + [transition.value];
      ok := true;
    }

    /** `copyBufferToImage`: copies the staging buffer into the whole image, which must be in
        `TRANSFER_DST_OPTIMAL`. */
    method CopyBufferToImage(width: nat, height: nat)
      modifies this
      ensures commands == old(commands) + [Command.CopyBufferToImage(TransferDstOptimal, width, height)]
      ensures queueFamilyIndex == old(queueFamilyIndex) && stagingSize == old(stagingSize)
    {
      commands := commands + [Command.CopyBufferToImage(TransferDstOptimal, width, height)];
    }

    /** `setTexture`: when the picture loads (`loaded`), sizes the staging buffer for four bytes
        per pixel and submits the upload; when it does not, the program exits before any command,
        which is `ok == false` with nothing changed. */
    method SetTexture(loaded: bool, texWidth: int, texHeight: int) returns (ok: bool)
      modifies this
      ensures ok == loaded
      ensures ok ==> stagingSize == texWidth * texHeight * 4
      ensures ok ==> commands == old(commands) + TextureUpload(texWidth, texHeight)
      ensures !ok ==> commands == old(commands) && stagingSize == old(stagingSize)
      ensures queueFamilyIndex == old(queueFamilyIndex)
    {
      var imageSize := texWidth * texHeight * 4;
      if !loaded {
        return false;
      }
      stagingSize := imageSize;
      var first := TransitionImageLayout(Undefined, TransferDstOptimal);
      CopyBufferToImage(Uint32(texWidth), Uint32(texHeight));
      var second := TransitionImageLayout(TransferDstOptimal, ShaderReadOnlyOptimal);
      ok := true;
    }
  }
}
