/** The two small searches of instance and device setup: the first queue family that supports
    graphics, and whether every requested validation layer is installed. The arrays the driver
    enumerates are parameters. */
module Selection {
  import opened Common

  /** `VK_QUEUE_GRAPHICS_BIT`. */
  const QueueGraphicsBit: bv32 := 0x1

  predicate SupportsGraphics(queueFlags: bv32)
  {
    queueFlags & QueueGraphicsBit != 0
  }

  /** The first queue family at or after `from` whose flags include the graphics bit. */
  function FirstGraphicsFrom(families: seq<bv32>, from: nat): (r: Option<nat>)
    requires from <= |families|
    ensures r.Some? ==>
      && from <= r.value < |families|
      && SupportsGraphics(families[r.value])
      && forall j :: from <= j < r.value ==> !SupportsGraphics(families[j])
    ensures r.None? ==> forall j :: from <= j < |families| ==> !SupportsGraphics(families[j])
    decreases |families| - from
  {
    if from == |families| then None
    else if SupportsGraphics(families[from]) then Some(from)
    else FirstGraphicsFrom(families, from + 1)
  }

  /** The queue family device setup settles on: the least index with the graphics bit, or none. */
  function FirstGraphicsFamily(families: seq<bv32>): (r: Option<nat>)
    ensures r.Some? ==>
      && r.value < |families|
      && SupportsGraphics(families[r.value])
      && forall j :: 0 <= j < r.value ==> !SupportsGraphics(families[j])
    ensures r.None? <==> forall j :: 0 <= j < |families| ==> !SupportsGraphics(families[j])
  {
    FirstGraphicsFrom(families, 0)
  }

  /** The queue-family loop of `setDevice`: it stops at the first family with the graphics bit.
      When none has it, `queueFamilyIndex` is never assigned, which is `None` here. */
  method FindGraphicsQueueFamily(families: seq<bv32>) returns (queueFamilyIndex: Option<nat>)
    ensures queueFamilyIndex == FirstGraphicsFamily(families)
  {
    queueFamilyIndex := None;
    var i := 0;
    while i < |families|
      invariant i <= |families|
      invariant FirstGraphicsFamily(families) == FirstGraphicsFrom(families, i)
    {
      if families[i] & QueueGraphicsBit != 0 {
        queueFamilyIndex := Some(i);
        return;
      }
      i := i + 1;
    }
  }

  /** The layers the headless example asks for. */
  const ValidationLayers: seq<string> := ["VK_LAYER_LUNARG_standard_validation"]

  /** The layer check of instance setup: for each requested layer, scan the installed ones until a
      name matches; give up at the first requested layer with no match. */
  method LayersAvailable(requested: seq<string>, instanceLayers: seq<string>) returns (available: bool)
    ensures available <==> forall r :: r in requested ==> r in instanceLayers
  {
    available := true;
    var i := 0;
    while i < |requested|
      invariant i <= |requested|
      invariant forall k :: 0 <= k < i ==> requested[k] in instanceLayers
    {
      var layerAvailable := false;
      var j := 0;
      while j < |instanceLayers|
        invariant j <= |instanceLayers|
        invariant !layerAvailable ==> requested[i] !in instanceLayers[..j]
        invariant layerAvailable ==> requested[i] in instanceLayers
      {
        if instanceLayers[j] == requested[i] {
          layerAvailable := true;
          break;
        }
        j := j + 1;
      }
      if !layerAvailable {
        assert instanceLayers[..j] == instanceLayers;
        available := false;
        return;
      }
      i := i + 1;
    }
  }

  /** The layer check as instance setup runs it on its own list: the validation layers are enabled
      exactly when the standard validation layer is installed. */
  method ValidationLayersAvailable(instanceLayers: seq<string>) returns (available: bool)
    ensures available <==> "VK_LAYER_LUNARG_standard_validation" in instanceLayers
  {
    available := LayersAvailable(ValidationLayers, instanceLayers);
  }
}
