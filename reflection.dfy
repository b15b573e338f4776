/** Shader reflection as the binder consumes it, and the classification of
    reflected bindings into descriptor-set layout bindings. */
module Reflection {
  import opened Common

  /** The descriptor kind reflection reports for a binding. Only the two kinds
      the binder understands are named; every other kind is `Unsupported`. */
  datatype ReflectedType = UniformBuffer | StorageImage | Unsupported(kind: nat)

  /** A member of a uniform block: byte offset from the start of the block and byte size. */
  datatype BlockMember = BlockMember(name: string, absoluteOffset: nat, size: nat)

  datatype Block = Block(size: nat, members: seq<BlockMember>)

  datatype ReflectedBinding = ReflectedBinding(
    binding: nat, descriptorType: ReflectedType, name: string, count: nat, block: Block)

  datatype ReflectedSet = ReflectedSet(bindings: seq<ReflectedBinding>)

  /** The Vulkan descriptor types the layouts and writes use. */
  datatype VkDescriptorType = VkUniformBufferDynamic | VkStorageImage

  /** A binding of a descriptor-set layout, visible to the compute stage. */
  datatype LayoutBinding = LayoutBinding(binding: nat, descriptorType: VkDescriptorType, count: nat)

  predicate Supported(b: ReflectedBinding) {
    b.descriptorType.UniformBuffer? || b.descriptorType.StorageImage?
  }

  /** The layout binding for one reflected binding: a uniform buffer becomes a
      dynamic uniform buffer, a storage image stays a storage image, and any
      other kind is dropped. */
  function LayoutFor(b: ReflectedBinding): (r: seq<LayoutBinding>)
    ensures |r| == (if Supported(b) then 1 else 0)
    ensures Supported(b) ==> r[0].binding == b.binding && r[0].count == b.count
    ensures b.descriptorType.UniformBuffer? ==> r[0].descriptorType == VkUniformBufferDynamic
    ensures b.descriptorType.StorageImage? ==> r[0].descriptorType == VkStorageImage
  {
    match b.descriptorType
    case UniformBuffer => [LayoutBinding(b.binding, VkUniformBufferDynamic, b.count)]
    case StorageImage => [LayoutBinding(b.binding, VkStorageImage, b.count)]
    case Unsupported(_) => []
  }

  /** The layout bindings of one reflected set. */
  function SetLayout(bindings: seq<ReflectedBinding>): seq<LayoutBinding> {
    ConcatMap(bindings, LayoutFor)
  }

  /** Number of bindings the layout keeps. */
  function CountSupported(bindings: seq<ReflectedBinding>): nat {
    if bindings == [] then 0
    else CountSupported(bindings[..|bindings| - 1]) + (if Supported(bindings[|bindings| - 1]) then 1 else 0)
  }

  /** Builds the layout bindings of every reflected set, one list per set, in
      set order; creating the Vulkan layout objects from them is left to the device. */
  method GenerateDescriptorSetLayouts(refl: seq<ReflectedSet>) returns (layouts: seq<seq<LayoutBinding>>)
    ensures |layouts| == |refl|
    ensures forall i :: 0 <= i < |refl| ==> layouts[i] == SetLayout(refl[i].bindings)
  {
    layouts := [];
    for s := 0 to |refl|
      invariant |layouts| == s
      invariant forall i :: 0 <= i < s ==> layouts[i] == SetLayout(refl[i].bindings)
    {
      var reflected := refl[s].bindings;
      var bindings: seq<LayoutBinding> := [];
      for i := 0 to |reflected|
        invariant bindings == SetLayout(reflected[..i])
      {
        var b := reflected[i];
        match b.descriptorType {
          case UniformBuffer =>
            bindings := bindings + [LayoutBinding(b.binding, VkUniformBufferDynamic, b.count)];
          case StorageImage =>
            bindings := bindings + [LayoutBinding(b.binding, VkStorageImage, b.count)];
          case Unsupported(_) =>
        }
        ConcatMapSnoc(reflected[..i], b, LayoutFor);
        assert reflected[..i + 1] == reflected[..i] + [b];
      }
      assert reflected[..|reflected|] == reflected;
      layouts := layouts + [bindings];
    }
  }

  /** The layout keeps one binding per supported reflected binding. */
  lemma {:induction false} SetLayoutLength(bindings: seq<ReflectedBinding>)
    ensures |SetLayout(bindings)| == CountSupported(bindings)
    decreases |bindings|
  {
    if bindings != [] {
      SetLayoutLength(bindings[..|bindings| - 1]);
    }
  }

  /** Supported binding `i` lands at position "number of supported bindings
      before it", so kept bindings keep their relative order. */
  lemma {:induction false} SetLayoutPosition(bindings: seq<ReflectedBinding>, i: nat)
    requires i < |bindings| && Supported(bindings[i])
    ensures CountSupported(bindings[..i]) < |SetLayout(bindings)|
    ensures SetLayout(bindings)[CountSupported(bindings[..i])] == LayoutFor(bindings[i])[0]
  {
    ConcatMapPiece(bindings, i, LayoutFor);
    SetLayoutLength(bindings[..i]);
  }

  /** Positions of kept bindings strictly increase with their reflected position. */
  lemma {:induction false} CountSupportedMonotone(bindings: seq<ReflectedBinding>, i: nat, j: nat)
    requires i < j <= |bindings| && Supported(bindings[i])
    ensures CountSupported(bindings[..i]) < CountSupported(bindings[..j])
    decreases j
  {
    var p := bindings[..j];
    assert p[..|p| - 1] == bindings[..j - 1];
    if i < j - 1 {
      CountSupportedMonotone(bindings, i, j - 1);
    } else {
      assert bindings[..j - 1] == bindings[..i];
    }
  }

  /** Every layout binding comes from a supported reflected binding with the
      same index and count. */
  lemma {:induction false} SetLayoutOrigin(bindings: seq<ReflectedBinding>, k: nat)
    requires k < |SetLayout(bindings)|
    ensures exists i :: 0 <= i < |bindings| && Supported(bindings[i]) && SetLayout(bindings)[k] == LayoutFor(bindings[i])[0]
  {
    ConcatMapOrigin(bindings, LayoutFor, k);
  }
}
