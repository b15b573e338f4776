/** The reflection-driven binder: for every binding the shader declares, fill
    a uniform block from the flat uniform map, or point a storage image at a
    texture, and collect the descriptor writes and dynamic offsets. */
module Binder {
  import opened Common
  import opened Uniforms
  import opened Reflection
  import opened ComputeTex

  /** Exactly four bytes. */
  type Bytes4 = s: seq<bv8> | |s| == 4 witness [0, 0, 0, 0]

  /** `f32::to_ne_bytes`: the native-endian bytes of a float, kept abstract. */
  type Encoder = F32 -> Bytes4

  /** Conditions under which binding aborts. In the source all but the arena's
      are panics; none of them leaves a usable descriptor set. */
  datatype BindError =
    | SliceOutOfRange(member: string)        // member range falls outside the block
    | SizeMismatch(member: string)           // value bytes and member size differ
    | UnsupportedMemberValue(member: string) // a value kind the binder does not copy
    | NoDescriptorSet                        // `descriptor_sets[0]` with no descriptor set
    | ArenaExhausted                         // the uniform arena could not allocate
    | ReflectionFailed(reason: string)       // the shader's descriptor sets could not be enumerated

  predicate IsMemberError(e: BindError) {
    e.SliceOutOfRange? || e.SizeMismatch? || e.UnsupportedMemberValue?
  }

  // ---------------------------------------------------------------------------
  // Uniform-block contents

  /** The bytes a value contributes to a uniform block: one encoded float for a
      float, four for a `Vec4`, nothing for any other kind. */
  function MemberBytes(v: ResolvedValue, enc: Encoder): (r: Option<seq<bv8>>)
    ensures (v.Float32? || v.Float32Asset?) ==> r == Some(enc(v.f))
    ensures v.Vec4? ==> r == Some(enc(v.v0) + enc(v.v1) + enc(v.v2) + enc(v.v3))
    ensures r.Some? ==> |r.value| == (if v.Vec4? then 16 else 4)
    ensures r.Some? <==> v.Float32? || v.Float32Asset? || v.Vec4?
  {
    match v
    case Float32(f) => Some(enc(f))
    case Float32Asset(f) => Some(enc(f))
    case Vec4(a, b, c, d) => Some(enc(a) + enc(b) + enc(c) + enc(d))
    case _ => None
  }

  /** Copies one member's value into the block's bytes at the member's range.
      The range is taken first, then the value kind is checked, then the lengths. */
  function WriteMember(bytes: seq<bv8>, m: BlockMember, v: ResolvedValue, enc: Encoder): (r: Result<seq<bv8>, BindError>)
    ensures r.Ok? <==> MemberWritable(|bytes|, m, v, enc)
    ensures r.Err? ==> IsMemberError(r.error) && r.error.member == m.name
    ensures r.Ok? ==> |r.value| == |bytes|
    ensures r.Ok? ==> r.value[m.absoluteOffset .. m.absoluteOffset + m.size] == MemberBytes(v, enc).value
    ensures r.Ok? ==>
      forall k :: 0 <= k < |bytes| && !(m.absoluteOffset <= k < m.absoluteOffset + m.size) ==> r.value[k] == bytes[k]
  {
    if m.absoluteOffset + m.size > |bytes| then Err(SliceOutOfRange(m.name))
    else
      match MemberBytes(v, enc)
      case None => Err(UnsupportedMemberValue(m.name))
      case Some(src) =>
        if |src| != m.size then Err(SizeMismatch(m.name))
        else Ok(bytes[..m.absoluteOffset] + src + bytes[m.absoluteOffset + m.size..])
  }

  /** Writes, member by member, every member whose name the map holds; the
      first failure aborts. */
  function WriteMembers(bytes: seq<bv8>, members: seq<BlockMember>, uniforms: UniformMap, enc: Encoder): (r: Result<seq<bv8>, BindError>)
    ensures r.Ok? ==> |r.value| == |bytes|
    ensures r.Err? ==> IsMemberError(r.error)
  {
    if members == [] then Ok(bytes)
    else
      match WriteMembers(bytes, members[..|members| - 1], uniforms, enc)
      case Err(e) => Err(e)
      case Ok(written) =>
        var m := members[|members| - 1];
        if m.name in uniforms then WriteMember(written, m, uniforms[m.name], enc) else Ok(written)
  }

  /** Byte `k` lies in the range of a member that the map holds a value for. */
  ghost predicate Written(members: seq<BlockMember>, uniforms: UniformMap, k: int) {
    exists i :: 0 <= i < |members| && members[i].name in uniforms &&
      members[i].absoluteOffset <= k < members[i].absoluteOffset + members[i].size
  }

  /** Bytes outside every written member range keep their value. */
  lemma {:induction false} WriteMembersFrame(bytes: seq<bv8>, members: seq<BlockMember>, uniforms: UniformMap, enc: Encoder, k: nat)
    requires WriteMembers(bytes, members, uniforms, enc).Ok?
    requires k < |bytes| && !Written(members, uniforms, k)
    ensures WriteMembers(bytes, members, uniforms, enc).value[k] == bytes[k]
    decreases |members|
  {
    if members != [] {
      var init := members[..|members| - 1];
      assert !Written(init, uniforms, k);
      WriteMembersFrame(bytes, init, uniforms, enc, k);
    }
  }

  /** A member whose range no later written member overlaps ends up holding
      exactly its value's bytes. */
  lemma {:induction false} WriteMembersContent(bytes: seq<bv8>, members: seq<BlockMember>, uniforms: UniformMap, enc: Encoder, i: nat)
    requires WriteMembers(bytes, members, uniforms, enc).Ok?
    requires i < |members| && members[i].name in uniforms
    requires forall j :: i < j < |members| && members[j].name in uniforms ==>
      members[j].absoluteOffset + members[j].size <= members[i].absoluteOffset ||
      members[i].absoluteOffset + members[i].size <= members[j].absoluteOffset
    ensures var m := members[i];
      MemberBytes(uniforms[m.name], enc).Some? &&
      m.absoluteOffset + m.size <= |bytes| &&
      WriteMembers(bytes, members, uniforms, enc).value[m.absoluteOffset .. m.absoluteOffset + m.size]
        == MemberBytes(uniforms[m.name], enc).value
    decreases |members|
  {
    var init := members[..|members| - 1];
    var m := members[i];
    var last := members[|members| - 1];
    var before := WriteMembers(bytes, init, uniforms, enc).value;
    if i < |members| - 1 {
      WriteMembersContent(bytes, init, uniforms, enc, i);
      if last.name in uniforms {
        var after := WriteMember(before, last, uniforms[last.name], enc).value;
        assert after[m.absoluteOffset .. m.absoluteOffset + m.size] == before[m.absoluteOffset .. m.absoluteOffset + m.size] by {
          forall k | m.absoluteOffset <= k < m.absoluteOffset + m.size
            ensures after[k] == before[k]
          {
          }
        }
      }
    }
  }

  /** A member can be written into a block of `size` bytes: its range fits,
      and its value has a kind the binder copies and exactly the member's size. */
  predicate MemberWritable(size: nat, m: BlockMember, v: ResolvedValue, enc: Encoder) {
    m.absoluteOffset + m.size <= size && MemberBytes(v, enc).Some? && |MemberBytes(v, enc).value| == m.size
  }

  /** Every member of the block that the map holds can be written. */
  ghost predicate BlockWritable(block: Block, uniforms: UniformMap, enc: Encoder) {
    forall i :: 0 <= i < |block.members| && block.members[i].name in uniforms ==>
      MemberWritable(block.size, block.members[i], uniforms[block.members[i].name], enc)
  }

  /** Whether a block's members can be written depends only on the block's
      size, never on the bytes already there; writing fails exactly when some
      member the map holds cannot be written. */
  lemma {:induction false} WriteMembersOkIff(bytes: seq<bv8>, members: seq<BlockMember>, uniforms: UniformMap, enc: Encoder)
    ensures WriteMembers(bytes, members, uniforms, enc).Ok? <==>
      BlockWritable(Block(|bytes|, members), uniforms, enc)
    decreases |members|
  {
    if members != [] {
      var init := members[..|members| - 1];
      WriteMembersOkIff(bytes, init, uniforms, enc);
      var blk, blk' := Block(|bytes|, members), Block(|bytes|, init);
      if BlockWritable(blk, uniforms, enc) {
        assert BlockWritable(blk', uniforms, enc) by {
          forall i | 0 <= i < |init| && init[i].name in uniforms
            ensures MemberWritable(|bytes|, init[i], uniforms[init[i].name], enc)
          {
            assert members[i] == init[i];
          }
        }
      }
      if !BlockWritable(blk, uniforms, enc) && BlockWritable(blk', uniforms, enc) {
        var i :| 0 <= i < |members| && members[i].name in uniforms &&
          !MemberWritable(|bytes|, members[i], uniforms[members[i].name], enc);
        assert i == |init|;
      }
    }
  }

  /** Writes the block's members into the arena region in place; on failure the
      region's contents are unspecified, as the source aborts. */
  method WriteBlock(region: array<bv8>, members: seq<BlockMember>, uniforms: UniformMap, enc: Encoder)
    returns (r: Outcome<BindError>)
    modifies region
    ensures WriteMembers(old(region[..]), members, uniforms, enc).Ok? ==>
      r.Pass? && region[..] == WriteMembers(old(region[..]), members, uniforms, enc).value
    ensures WriteMembers(old(region[..]), members, uniforms, enc).Err? ==>
      r == Fail(WriteMembers(old(region[..]), members, uniforms, enc).error)
  {
    ghost var start := region[..];
    var i := 0;
    while i < |members|
      invariant 0 <= i <= |members|
      invariant WriteMembers(start, members[..i], uniforms, enc) == Ok(region[..])
    {
      var m := members[i];
      assert members[..i + 1][..i] == members[..i];
      if m.name in uniforms {
        var outcome := WriteMemberInPlace(region, m, uniforms[m.name], enc);
        if outcome.Fail? {
          ErrorPersists(start, members, uniforms, enc, i + 1);
          return outcome;
        }
      }
      i := i + 1;
    }
    assert members[..|members|] == members;
    r := Pass;
  }

  /** One member's write into the region: the range is taken, the value's
      kind checked, and its bytes copied over the range. */
  method WriteMemberInPlace(region: array<bv8>, m: BlockMember, v: ResolvedValue, enc: Encoder)
    returns (r: Outcome<BindError>)
    modifies region
    ensures WriteMember(old(region[..]), m, v, enc).Ok? ==>
      r.Pass? && region[..] == WriteMember(old(region[..]), m, v, enc).value
    ensures WriteMember(old(region[..]), m, v, enc).Err? ==>
      r == Fail(WriteMember(old(region[..]), m, v, enc).error)
  {
    if m.absoluteOffset + m.size > region.Length {
      return Fail(SliceOutOfRange(m.name));
    }
    var src: seq<bv8>;
    match v {
      case Float32(f) => src := enc(f);
      case Float32Asset(f) => src := enc(f);
      case Vec4(a, b, c, d) => src := enc(a) + enc(b) + enc(c) + enc(d);
      case _ => return Fail(UnsupportedMemberValue(m.name));
    }
    if |src| != m.size {
      return Fail(SizeMismatch(m.name));
    }
    // `copy_from_slice` into the member's range.
    forall k | 0 <= k < |src| {
      region[m.absoluteOffset + k] := src[k];
    }
    assert region[..] == old(region[..])[..m.absoluteOffset] + src + old(region[..])[m.absoluteOffset + m.size..];
    r := Pass;
  }

  /** Once a prefix of the members fails, the whole block fails with that error. */
  lemma {:induction false} ErrorPersists(bytes: seq<bv8>, members: seq<BlockMember>, uniforms: UniformMap, enc: Encoder, n: nat)
    requires n <= |members| && WriteMembers(bytes, members[..n], uniforms, enc).Err?
    ensures WriteMembers(bytes, members, uniforms, enc) == WriteMembers(bytes, members[..n], uniforms, enc)
    decreases |members| - n
  {
    if n < |members| {
      assert members[..n + 1][..n] == members[..n];
      ErrorPersists(bytes, members, uniforms, enc, n + 1);
    } else {
      assert members[..n] == members;
    }
  }

  // ---------------------------------------------------------------------------
  // Descriptor writes

  datatype WriteInfo = BufferInfo(buffer: nat, range: nat) | ImageInfo(view: nat)

  /** One `VkWriteDescriptorSet`, at array element 0. */
  datatype DescriptorWrite = DescriptorWrite(dstSet: nat, dstBinding: nat, descriptorType: VkDescriptorType, info: WriteInfo)

  /** The write one reflected binding produces, if any: a uniform block always
      gets its buffer region; a storage image gets a write only when the map
      holds a texture under the binding's name; other kinds get nothing. */
  function WriteFor(b: ReflectedBinding, ds: nat, uniforms: UniformMap, buffer: nat): (r: seq<DescriptorWrite>)
    ensures |r| <= 1
    ensures forall w :: w in r ==> w.dstSet == ds && w.dstBinding == b.binding
    ensures |r| == 1 <==>
      b.descriptorType.UniformBuffer? ||
      (b.descriptorType.StorageImage? && b.name in uniforms && uniforms[b.name].TextureAsset?)
  {
    match b.descriptorType
    case UniformBuffer => [DescriptorWrite(ds, b.binding, VkUniformBufferDynamic, BufferInfo(buffer, b.block.size))]
    case StorageImage =>
      if b.name in uniforms && uniforms[b.name].TextureAsset? then
        [DescriptorWrite(ds, b.binding, VkStorageImage, ImageInfo(uniforms[b.name].tex.view))]
      else []
    case Unsupported(_) => []
  }

  function Writer(ds: nat, uniforms: UniformMap, buffer: nat): ReflectedBinding -> seq<DescriptorWrite> {
    b => WriteFor(b, ds, uniforms, buffer)
  }

  /** The writes of a sequence of bindings, in binding order. */
  function PlannedWrites(bindings: seq<ReflectedBinding>, ds: nat, uniforms: UniformMap, buffer: nat): (r: seq<DescriptorWrite>)
    ensures |r| <= |bindings|
    ensures forall k :: 0 <= k < |r| ==> r[k].dstSet == ds
  {
    WritesBound(bindings, ds, uniforms, buffer);
    ConcatMap(bindings, Writer(ds, uniforms, buffer))
  }

  /** At most one write per binding, each aimed at `ds`. */
  lemma {:induction false} WritesBound(bindings: seq<ReflectedBinding>, ds: nat, uniforms: UniformMap, buffer: nat)
    ensures var ws := ConcatMap(bindings, Writer(ds, uniforms, buffer));
      |ws| <= |bindings| && forall k :: 0 <= k < |ws| ==> ws[k].dstSet == ds
    decreases |bindings|
  {
    if bindings != [] {
      var n := |bindings| - 1;
      WritesBound(bindings[..n], ds, uniforms, buffer);
      var w := WriteFor(bindings[n], ds, uniforms, buffer);
      assert forall k :: 0 <= k < |w| ==> w[k] in w;
    }
  }

  function BindingsOf(s: ReflectedSet): seq<ReflectedBinding> {
    s.bindings
  }

  /** All reflected bindings, set by set. */
  function AllBindings(refl: seq<ReflectedSet>): seq<ReflectedBinding> {
    ConcatMap(refl, BindingsOf)
  }

  function BlockOf(b: ReflectedBinding): seq<Block> {
    if b.descriptorType.UniformBuffer? then [b.block] else []
  }

  /** The uniform blocks among the bindings, in binding order. */
  function UniformBlocks(bindings: seq<ReflectedBinding>): seq<Block> {
    ConcatMap(bindings, BlockOf)
  }

  /** The first descriptor set, which receives every write. */
  function TargetSet(descriptorSets: seq<nat>): nat {
    if descriptorSets == [] then 0 else descriptorSets[0]
  }

  /** The offsets as the source's `as u32` casts them. */
  function Truncated(offsets: seq<nat>): seq<u32> {
    seq(|offsets|, i requires 0 <= i < |offsets| => TruncateU32(offsets[i]))
  }

  /** A storage-image binding produces a write exactly when the map holds a
      texture under the binding's name, and that write points at the texture's view. */
  lemma {:induction false} StorageImageWrite(bindings: seq<ReflectedBinding>, ds: nat, uniforms: UniformMap, buffer: nat, i: nat)
    requires i < |bindings| && bindings[i].descriptorType.StorageImage?
    ensures var b := bindings[i];
      var p := |PlannedWrites(bindings[..i], ds, uniforms, buffer)|;
      (|WriteFor(b, ds, uniforms, buffer)| == 1 <==> b.name in uniforms && uniforms[b.name].TextureAsset?) &&
      (b.name in uniforms && uniforms[b.name].TextureAsset? ==>
        p < |PlannedWrites(bindings, ds, uniforms, buffer)| &&
        PlannedWrites(bindings, ds, uniforms, buffer)[p] ==
          DescriptorWrite(ds, b.binding, VkStorageImage, ImageInfo(uniforms[b.name].tex.view)))
  {
    ConcatMapPiece(bindings, i, Writer(ds, uniforms, buffer));
  }

  /** A uniform-block binding always produces a dynamic-uniform-buffer write of
      its block size into the arena buffer. */
  lemma {:induction false} UniformBlockWrite(bindings: seq<ReflectedBinding>, ds: nat, uniforms: UniformMap, buffer: nat, i: nat)
    requires i < |bindings| && bindings[i].descriptorType.UniformBuffer?
    ensures var p := |PlannedWrites(bindings[..i], ds, uniforms, buffer)|;
      p < |PlannedWrites(bindings, ds, uniforms, buffer)| &&
      PlannedWrites(bindings, ds, uniforms, buffer)[p] ==
        DescriptorWrite(ds, bindings[i].binding, VkUniformBufferDynamic, BufferInfo(buffer, bindings[i].block.size))
  {
    ConcatMapPiece(bindings, i, Writer(ds, uniforms, buffer));
  }

  /** Other descriptor kinds produce no write. */
  lemma {:induction false} UnsupportedNoWrite(bindings: seq<ReflectedBinding>, ds: nat, uniforms: UniformMap, buffer: nat, i: nat)
    requires i < |bindings| && bindings[i].descriptorType.Unsupported?
    ensures PlannedWrites(bindings[..i + 1], ds, uniforms, buffer) == PlannedWrites(bindings[..i], ds, uniforms, buffer)
  {
    assert bindings[..i + 1] == bindings[..i] + [bindings[i]];
    ConcatMapSnoc(bindings[..i], bindings[i], Writer(ds, uniforms, buffer));
  }

  /** Every write targets the same descriptor set and comes from some binding. */
  lemma {:induction false} WritesTargetOneSet(bindings: seq<ReflectedBinding>, ds: nat, uniforms: UniformMap, buffer: nat, k: nat)
    requires k < |PlannedWrites(bindings, ds, uniforms, buffer)|
    ensures PlannedWrites(bindings, ds, uniforms, buffer)[k].dstSet == ds
    ensures exists i :: (0 <= i < |bindings| && !bindings[i].descriptorType.Unsupported? &&
      PlannedWrites(bindings, ds, uniforms, buffer)[k].dstBinding == bindings[i].binding)
  {
    ConcatMapOrigin(bindings, Writer(ds, uniforms, buffer), k);
  }

  // ---------------------------------------------------------------------------
  // The per-frame arena and the device

  /** The per-frame uniform arena: hands out regions of one buffer, bump-style,
      up to a fixed capacity; `offsets` records every offset handed out and
      `regions` the writable region handed out with it. */
  class UniformArena {
    const buffer: nat
    const capacity: nat
    var head: nat
    ghost var offsets: seq<nat>
    ghost var regions: seq<array<bv8>>

    ghost predicate Valid()
      reads this
    {
      head <= capacity && |regions| == |offsets|
    }

    constructor (buffer: nat, capacity: nat)
      ensures Valid()
      ensures this.buffer == buffer && this.capacity == capacity && head == 0 && offsets == [] && regions == []
    {
      this.buffer := buffer;
      this.capacity := capacity;
      head := 0;
      offsets := [];
      regions := [];
    }

    /** A fresh writable region of `size` bytes and its offset in `buffer`, or
      `ok == false` when the arena has no room left. */
    method Allocate(size: nat) returns (ok: bool, offset: nat, contents: array<bv8>)
      requires Valid()
      modifies this
      ensures Valid()
      ensures fresh(contents) && contents.Length == size
      ensures ok <==> old(head) + size <= capacity
      ensures ok ==> head == old(head) + size && offsets == old(offsets) + [offset] && regions == old(regions) + [contents]
      ensures !ok ==> head == old(head) && offsets == old(offsets) && regions == old(regions)
    {
      contents := new bv8[size];
      offset := head;
      ok := head + size <= capacity;
      if ok {
        head := head + size;
        offsets := offsets + [offset];
        regions := regions + [contents];
      }
    }
  }

  /** The device, as far as the binder uses it: the batches of descriptor
      writes it has been asked to apply. */
  class Device {
    var updates: seq<seq<DescriptorWrite>>

    constructor ()
      ensures updates == []
    {
      updates := [];
    }

    method UpdateDescriptorSets(writes: seq<DescriptorWrite>)
      modifies this
      ensures updates == old(updates) + [writes]
    {
      updates := updates + [writes];
    }
  }

  /** Total bytes of a sequence of blocks. */
  function TotalSize(blocks: seq<Block>): nat {
    if blocks == [] then 0 else TotalSize(blocks[..|blocks| - 1]) + blocks[|blocks| - 1].size
  }

  lemma {:induction false} TotalSizeAppend(a: seq<Block>, b: seq<Block>)
    ensures TotalSize(a + b) == TotalSize(a) + TotalSize(b)
    decreases |b|
  {
    if b == [] {
      assert a + b == a;
    } else {
      TotalSizeAppend(a, b[..|b| - 1]);
      assert (a + b)[..|a + b| - 1] == a + b[..|b| - 1];
    }
  }

  /** Splitting the bindings around binding `i` splits their uniform blocks
      and the blocks' total size the same way. */
  lemma {:induction false} BlocksAround(bs: seq<ReflectedBinding>, i: nat)
    requires i < |bs|
    ensures UniformBlocks(bs) == UniformBlocks(bs[..i]) + BlockOf(bs[i]) + UniformBlocks(bs[i + 1..])
    ensures TotalSize(UniformBlocks(bs)) ==
      TotalSize(UniformBlocks(bs[..i])) + TotalSize(BlockOf(bs[i])) + TotalSize(UniformBlocks(bs[i + 1..]))
  {
    ConcatMapAround(bs, i, BlockOf);
    TotalSizeAppend(UniformBlocks(bs[..i]) + BlockOf(bs[i]), UniformBlocks(bs[i + 1..]));
    TotalSizeAppend(UniformBlocks(bs[..i]), BlockOf(bs[i]));
  }

  /** The bindings of set `si` sit between those of the sets before and after it. */
  lemma {:induction false} SetAround(sets: seq<ReflectedSet>, si: nat)
    requires si < |sets|
    ensures var before, mine, after := AllBindings(sets[..si]), sets[si].bindings, AllBindings(sets[si + 1..]);
      UniformBlocks(AllBindings(sets)) == UniformBlocks(before) + UniformBlocks(mine) + UniformBlocks(after) &&
      TotalSize(UniformBlocks(AllBindings(sets))) ==
        TotalSize(UniformBlocks(before)) + TotalSize(UniformBlocks(mine)) + TotalSize(UniformBlocks(after))
  {
    var before, mine, after := AllBindings(sets[..si]), sets[si].bindings, AllBindings(sets[si + 1..]);
    ConcatMapAround(sets, si, BindingsOf);
    ConcatMapAppend(before + mine, after, BlockOf);
    ConcatMapAppend(before, mine, BlockOf);
    TotalSizeAppend(UniformBlocks(before) + UniformBlocks(mine), UniformBlocks(after));
    TotalSizeAppend(UniformBlocks(before), UniformBlocks(mine));
  }

  /** The uniform blocks of set `si` appear, in order, among all uniform
      blocks, right after those of the sets before it. */
  lemma {:induction false} SetBlocksInAll(sets: seq<ReflectedSet>, si: nat)
    requires si < |sets|
    ensures var all, pre, mine := UniformBlocks(AllBindings(sets)), UniformBlocks(AllBindings(sets[..si])), UniformBlocks(sets[si].bindings);
      TotalSize(pre) + TotalSize(mine) <= TotalSize(all) &&
      forall i :: 0 <= i < |mine| ==> |pre| + i < |all| && all[|pre| + i] == mine[i]
  {
    var all, pre, mine := UniformBlocks(AllBindings(sets)), UniformBlocks(AllBindings(sets[..si])), UniformBlocks(sets[si].bindings);
    var after := UniformBlocks(AllBindings(sets[si + 1..]));
    assert all == pre + mine + after && TotalSize(pre) + TotalSize(mine) <= TotalSize(all) by {
      SetAround(sets, si);
    }
    forall i | 0 <= i < |mine| ensures |pre| + i < |all| && all[|pre| + i] == mine[i] {
      assert (pre + mine + after)[|pre| + i] == mine[i];
    }
  }

  /** Every block of `blocks` is writable. */
  ghost predicate AllWritable(blocks: seq<Block>, uniforms: UniformMap, enc: Encoder) {
    blocks == [] ||
    (AllWritable(blocks[..|blocks| - 1], uniforms, enc) && BlockWritable(blocks[|blocks| - 1], uniforms, enc))
  }

  /** `AllWritable` block by block. */
  lemma {:induction false} AllWritableIff(blocks: seq<Block>, uniforms: UniformMap, enc: Encoder)
    ensures AllWritable(blocks, uniforms, enc) <==>
      forall i :: 0 <= i < |blocks| ==> BlockWritable(blocks[i], uniforms, enc)
    decreases |blocks|
  {
    if blocks != [] {
      var n := |blocks| - 1;
      AllWritableIff(blocks[..n], uniforms, enc);
      assert forall i :: 0 <= i < n ==> blocks[..n][i] == blocks[i];
    }
  }

  /** Writability of a concatenation is writability of both parts. */
  lemma {:induction false} AllWritableAppend(a: seq<Block>, b: seq<Block>, uniforms: UniformMap, enc: Encoder)
    ensures AllWritable(a + b, uniforms, enc) <==> AllWritable(a, uniforms, enc) && AllWritable(b, uniforms, enc)
    decreases |b|
  {
    if b == [] {
      assert a + b == a;
    } else {
      var n := |b| - 1;
      AllWritableAppend(a, b[..n], uniforms, enc);
      assert (a + b)[..|a| + n] == a + b[..n];
      assert (a + b)[|a| + n] == b[n];
    }
  }

  /** A binding whose block cannot be placed or written explains the
      failure of its whole set, given the arena bytes the bindings before it took. */
  lemma {:induction false} ExplainsInSet(e: BindError, bindings: seq<ReflectedBinding>, bi: nat, head: nat, capacity: nat, uniforms: UniformMap, enc: Encoder)
    requires bi < |bindings| && bindings[bi].descriptorType.UniformBuffer?
    requires var b := bindings[bi];
      (e == ArenaExhausted && head + TotalSize(UniformBlocks(bindings[..bi])) + b.block.size > capacity) ||
      (IsMemberError(e) && !BlockWritable(b.block, uniforms, enc))
    ensures Explains(e, bindings, head, capacity, uniforms, enc)
  {
    var b := bindings[bi];
    var pre, post := UniformBlocks(bindings[..bi]), UniformBlocks(bindings[bi + 1..]);
    BlocksAround(bindings, bi);
    assert [b.block][..0] == [];
    assert TotalSize([b.block]) == b.block.size;
    assert AllWritable([b.block], uniforms, enc) <==> BlockWritable(b.block, uniforms, enc);
    AllWritableAppend(pre + [b.block], post, uniforms, enc);
    AllWritableAppend(pre, [b.block], uniforms, enc);
  }

  /** A failure explained by the bindings of one set is explained by all
      bindings, given the arena bytes the sets before it took. */
  lemma {:induction false} ExplainsInAll(e: BindError, sets: seq<ReflectedSet>, si: nat, head: nat, capacity: nat, uniforms: UniformMap, enc: Encoder)
    requires si < |sets|
    requires Explains(e, sets[si].bindings, head + TotalSize(UniformBlocks(AllBindings(sets[..si]))), capacity, uniforms, enc)
    ensures Explains(e, AllBindings(sets), head, capacity, uniforms, enc)
  {
    var pre, mine := UniformBlocks(AllBindings(sets[..si])), UniformBlocks(sets[si].bindings);
    var post := UniformBlocks(AllBindings(sets[si + 1..]));
    SetAround(sets, si);
    AllWritableAppend(pre + mine, post, uniforms, enc);
    AllWritableAppend(pre, mine, uniforms, enc);
  }

  lemma {:induction false} AllBindingsSnoc(sets: seq<ReflectedSet>, si: nat)
    requires si < |sets|
    ensures AllBindings(sets[..si + 1]) == AllBindings(sets[..si]) + sets[si].bindings
  {
    assert sets[..si + 1] == sets[..si] + [sets[si]];
    ConcatMapSnoc(sets[..si], sets[si], BindingsOf);
  }

  lemma {:induction false} TruncatedAppend(a: seq<nat>, b: seq<nat>)
    ensures Truncated(a + b) == Truncated(a) + Truncated(b)
  {
    assert forall i :: 0 <= i < |a + b| ==> Truncated(a + b)[i] == (Truncated(a) + Truncated(b))[i];
  }

  /** `written[k]` is block `k`'s region after its members were written over
      the bytes `initial[k]` it started with, for every `k`. */
  ghost predicate Filled(written: seq<seq<bv8>>, initial: seq<seq<bv8>>, blocks: seq<Block>, uniforms: UniformMap, enc: Encoder)
    decreases |blocks|
  {
    |written| == |blocks| && |initial| == |blocks| &&
    (blocks == [] ||
     (var n := |blocks| - 1;
      Filled(written[..n], initial[..n], blocks[..n], uniforms, enc) &&
      |initial[n]| == blocks[n].size &&
      WriteMembers(initial[n], blocks[n].members, uniforms, enc) == Ok(written[n])))
  }

  /** `Filled` block by block. */
  lemma {:induction false} FilledAt(written: seq<seq<bv8>>, initial: seq<seq<bv8>>, blocks: seq<Block>, uniforms: UniformMap, enc: Encoder, k: nat)
    requires Filled(written, initial, blocks, uniforms, enc) && k < |blocks|
    ensures |initial[k]| == blocks[k].size
    ensures WriteMembers(initial[k], blocks[k].members, uniforms, enc) == Ok(written[k])
    decreases |blocks|
  {
    var n := |blocks| - 1;
    if k < n {
      FilledAt(written[..n], initial[..n], blocks[..n], uniforms, enc, k);
    }
  }

  lemma {:induction false} FilledOne(w: seq<bv8>, i: seq<bv8>, block: Block, uniforms: UniformMap, enc: Encoder)
    requires |i| == block.size && WriteMembers(i, block.members, uniforms, enc) == Ok(w)
    ensures Filled([w], [i], [block], uniforms, enc)
  {
    assert [w][..0] == [] && [i][..0] == [] && [block][..0] == [];
  }

  /** One more block, filled, extends a filled sequence. */
  lemma {:induction false} FilledSnoc(w: seq<seq<bv8>>, i: seq<seq<bv8>>, b: seq<Block>,
                                      x: seq<bv8>, y: seq<bv8>, block: Block, uniforms: UniformMap, enc: Encoder)
    requires |w| == |b| && |i| == |b|
    ensures Filled(w + [x], i + [y], b + [block], uniforms, enc) <==>
      (Filled(w, i, b, uniforms, enc) &&
       |y| == block.size && WriteMembers(y, block.members, uniforms, enc) == Ok(x))
  {
    assert (w + [x])[..|b|] == w && (i + [y])[..|b|] == i && (b + [block])[..|b|] == b;
  }

  lemma {:induction false} FilledAppend(w1: seq<seq<bv8>>, i1: seq<seq<bv8>>, b1: seq<Block>,
                     w2: seq<seq<bv8>>, i2: seq<seq<bv8>>, b2: seq<Block>, uniforms: UniformMap, enc: Encoder)
    requires Filled(w1, i1, b1, uniforms, enc) && Filled(w2, i2, b2, uniforms, enc)
    ensures Filled(w1 + w2, i1 + i2, b1 + b2, uniforms, enc)
    decreases |b2|
  {
    if b2 == [] {
      assert w1 + w2 == w1 && i1 + i2 == i1 && b1 + b2 == b1;
    } else {
      var n := |b2| - 1;
      var w, i, b := w2[..n], i2[..n], b2[..n];
      var x, y, block := w2[n], i2[n], b2[n];
      assert w2 == w + [x] && i2 == i + [y] && b2 == b + [block] by {
        PrefixSnoc(w2, n);
        PrefixSnoc(i2, n);
        PrefixSnoc(b2, n);
      }
      assert Filled((w1 + w) + [x], (i1 + i) + [y], (b1 + b) + [block], uniforms, enc) by {
        assert Filled(w, i, b, uniforms, enc) && |y| == block.size &&
          WriteMembers(y, block.members, uniforms, enc) == Ok(x) by {
          FilledSnoc(w, i, b, x, y, block, uniforms, enc);
        }
        FilledAppend(w1, i1, b1, w, i, b, uniforms, enc);
        FilledSnoc(w1 + w, i1 + i, b1 + b, x, y, block, uniforms, enc);
      }
      assert (w1 + w) + [x] == w1 + w2 by { AppendSnoc(w1, w, x); }
      assert (i1 + i) + [y] == i1 + i2 by { AppendSnoc(i1, i, y); }
      assert (b1 + b) + [block] == b1 + b2 by { AppendSnoc(b1, b, block); }
    }
  }

  lemma {:induction false} AppendSnocAll<T>(a: seq<T>, b: seq<T>, c: seq<T>)
    ensures (a + b) + c == a + (b + c)
  {
  }

  lemma {:induction false} AppendSnoc<T>(a: seq<T>, b: seq<T>, x: T)
    ensures (a + b) + [x] == a + (b + [x])
  {
  }

  /** Every block of a filled sequence is writable. */
  lemma {:induction false} FilledWritable(written: seq<seq<bv8>>, initial: seq<seq<bv8>>, blocks: seq<Block>, uniforms: UniformMap, enc: Encoder)
    requires Filled(written, initial, blocks, uniforms, enc)
    ensures AllWritable(blocks, uniforms, enc)
    decreases |blocks|
  {
    if blocks != [] {
      var n := |blocks| - 1;
      FilledWritable(written[..n], initial[..n], blocks[..n], uniforms, enc);
      WriteMembersOkIff(initial[n], blocks[n].members, uniforms, enc);
    }
  }

  /** Allocates a region for one uniform block and writes the block's members
      into it. */
  method BindUniformBlock(arena: UniformArena, block: Block, uniforms: UniformMap, enc: Encoder)
    returns (r: Outcome<BindError>, offset: nat, region: array<bv8>, ghost initial: seq<bv8>)
    requires arena.Valid()
    modifies arena
    ensures arena.Valid()
    ensures fresh(region) && region.Length == block.size && |initial| == block.size
    ensures old(arena.head) + block.size > arena.capacity ==>
      r == Fail(ArenaExhausted) && arena.head == old(arena.head) && arena.offsets == old(arena.offsets) &&
      arena.regions == old(arena.regions)
    ensures old(arena.head) + block.size <= arena.capacity ==>
      arena.head == old(arena.head) + block.size && arena.offsets == old(arena.offsets) + [offset] &&
      arena.regions == old(arena.regions) + [region] &&
      (WriteMembers(initial, block.members, uniforms, enc).Ok? ==>
        r.Pass? && region[..] == WriteMembers(initial, block.members, uniforms, enc).value) &&
      (WriteMembers(initial, block.members, uniforms, enc).Err? ==>
        r == Fail(WriteMembers(initial, block.members, uniforms, enc).error))
  {
    var ok;
    ok, offset, region := arena.Allocate(block.size);
    initial := region[..];
    if !ok {
      return Fail(ArenaExhausted), offset, region, initial;
    }
    r := WriteBlock(region, block.members, uniforms, enc);
  }

  /** Why binding `bindings` failed: the arena, starting at `head`, has no
      room for all their uniform blocks, or one of those blocks cannot be written. */
  ghost predicate Explains(e: BindError, bindings: seq<ReflectedBinding>, head: nat, capacity: nat, uniforms: UniformMap, enc: Encoder) {
    (e == ArenaExhausted && head + TotalSize(UniformBlocks(bindings)) > capacity) ||
    (IsMemberError(e) && !AllWritable(UniformBlocks(bindings), uniforms, enc))
  }

  /** What binding `bindings` produced, arena aside: the writes, the offsets
      cut to 32 bits, the bytes the arena gave out, and the written regions. */
  ghost predicate Accounts(bindings: seq<ReflectedBinding>, ds: nat, uniforms: UniformMap, enc: Encoder, buffer: nat,
                           used: nat, offs: seq<nat>, writes: seq<DescriptorWrite>, offsets: seq<u32>,
                           written: seq<seq<bv8>>, initial: seq<seq<bv8>>)
  {
    writes == PlannedWrites(bindings, ds, uniforms, buffer) &&
    |offs| == |UniformBlocks(bindings)| && offsets == Truncated(offs) &&
    used == TotalSize(UniformBlocks(bindings)) &&
    Filled(written, initial, UniformBlocks(bindings), uniforms, enc)
  }

  lemma {:induction false} AccountsAppend(b1: seq<ReflectedBinding>, b2: seq<ReflectedBinding>, ds: nat, uniforms: UniformMap, enc: Encoder, buffer: nat,
                       used1: nat, offs1: seq<nat>, writes1: seq<DescriptorWrite>, offsets1: seq<u32>, written1: seq<seq<bv8>>, initial1: seq<seq<bv8>>,
                       used2: nat, offs2: seq<nat>, writes2: seq<DescriptorWrite>, offsets2: seq<u32>, written2: seq<seq<bv8>>, initial2: seq<seq<bv8>>)
    requires Accounts(b1, ds, uniforms, enc, buffer, used1, offs1, writes1, offsets1, written1, initial1)
    requires Accounts(b2, ds, uniforms, enc, buffer, used2, offs2, writes2, offsets2, written2, initial2)
    ensures Accounts(b1 + b2, ds, uniforms, enc, buffer, used1 + used2, offs1 + offs2, writes1 + writes2,
                     offsets1 + offsets2, written1 + written2, initial1 + initial2)
  {
    ConcatMapAppend(b1, b2, Writer(ds, uniforms, buffer));
    ConcatMapAppend(b1, b2, BlockOf);
    TotalSizeAppend(UniformBlocks(b1), UniformBlocks(b2));
    TruncatedAppend(offs1, offs2);
    FilledAppend(written1, initial1, UniformBlocks(b1), written2, initial2, UniformBlocks(b2), uniforms, enc);
  }

  /** Region `k` holds the bytes `written[k]`, for every `k`. */
  ghost predicate Stored(regions: seq<array<bv8>>, written: seq<seq<bv8>>)
    reads regions
  {
    |regions| == |written| && forall k :: 0 <= k < |regions| ==> regions[k][..] == written[k]
  }

  lemma {:induction false} StoredAppend(r1: seq<array<bv8>>, w1: seq<seq<bv8>>, r2: seq<array<bv8>>, w2: seq<seq<bv8>>)
    requires Stored(r1, w1) && Stored(r2, w2)
    ensures Stored(r1 + r2, w1 + w2)
  {
    forall k | 0 <= k < |r1 + r2| ensures (r1 + r2)[k][..] == (w1 + w2)[k] {
      if k < |r1| {
        assert (r1 + r2)[k] == r1[k] && (w1 + w2)[k] == w1[k];
      } else {
        assert (r1 + r2)[k] == r2[k - |r1|] && (w1 + w2)[k] == w2[k - |r1|];
      }
    }
  }

  /** What one binding accounts for: its own write, and for a uniform block one
      offset and one filled region of the block's size. */
  lemma {:induction false} AccountsOne(b: ReflectedBinding, ds: nat, uniforms: UniformMap, enc: Encoder, buffer: nat,
                                       used: nat, offs: seq<nat>, writes: seq<DescriptorWrite>, offsets: seq<u32>,
                                       written: seq<seq<bv8>>, initial: seq<seq<bv8>>)
    requires writes == WriteFor(b, ds, uniforms, buffer)
    requires b.descriptorType.UniformBuffer? ==>
      used == b.block.size && |offs| == 1 && offsets == [TruncateU32(offs[0])] &&
      |written| == 1 && |initial| == 1 && |initial[0]| == b.block.size &&
      WriteMembers(initial[0], b.block.members, uniforms, enc) == Ok(written[0])
    requires !b.descriptorType.UniformBuffer? ==> used == 0 && offs == [] && offsets == [] && written == [] && initial == []
    ensures Accounts([b], ds, uniforms, enc, buffer, used, offs, writes, offsets, written, initial)
  {
    ConcatMapSnoc([], b, Writer(ds, uniforms, buffer));
    ConcatMapSnoc([], b, BlockOf);
    assert [] + [b] == [b];
    if b.descriptorType.UniformBuffer? {
      assert [b.block][..0] == [];
      assert written == [written[0]] && initial == [initial[0]];
      FilledOne(written[0], initial[0], b.block, uniforms, enc);
    }
  }

  lemma {:induction false} AccountsEmpty(ds: nat, uniforms: UniformMap, enc: Encoder, buffer: nat)
    ensures Accounts([], ds, uniforms, enc, buffer, 0, [], [], [], [], [])
  {
  }

  /** Binds one reflected binding: a uniform block gets a filled arena region,
      its offset and a buffer write; a storage image gets an image write when
      the map holds a texture under its name; other kinds are skipped. */
  method BindBinding(arena: UniformArena, b: ReflectedBinding, ds: nat, uniforms: UniformMap, enc: Encoder)
    returns (r: Outcome<BindError>, writes: seq<DescriptorWrite>, offsets: seq<u32>,
             ghost used: nat, ghost offs: seq<nat>, ghost written: seq<seq<bv8>>, ghost initial: seq<seq<bv8>>,
             ghost regions: seq<array<bv8>>)
    requires arena.Valid()
    modifies arena
    ensures arena.Valid()
    ensures r.Fail? ==> (b.descriptorType.UniformBuffer? &&
      ((r.error == ArenaExhausted && old(arena.head) + b.block.size > arena.capacity) ||
       (IsMemberError(r.error) && !BlockWritable(b.block, uniforms, enc))))
    ensures r.Pass? ==>
      arena.offsets == old(arena.offsets) + offs && arena.head == old(arena.head) + used &&
      arena.regions == old(arena.regions) + regions && Stored(regions, written) &&
      Accounts([b], ds, uniforms, enc, arena.buffer, used, offs, writes, offsets, written, initial)
  {
    writes, offsets, used, offs, written, initial, regions := [], [], 0, [], [], [], [];
    r := Pass;
    match b.descriptorType {
      case UniformBuffer =>
        var outcome, offset, region, init := BindUniformBlock(arena, b.block, uniforms, enc);
        WriteMembersOkIff(init, b.block.members, uniforms, enc);
        if outcome.Fail? {
          return outcome, writes, offsets, used, offs, written, initial, regions;
        }
        regions := [region];
        used := b.block.size;
        offs := [offset];
        offsets := [TruncateU32(offset)];
        written := [region[..]];
        initial := [init];
        writes := [DescriptorWrite(ds, b.binding, VkUniformBufferDynamic, BufferInfo(arena.buffer, b.block.size))];
        AccountsOne(b, ds, uniforms, enc, arena.buffer, used, offs, writes, offsets, written, initial);
      case StorageImage =>
        if b.name in uniforms && uniforms[b.name].TextureAsset? {
          var view := uniforms[b.name].tex.view;
          writes := [DescriptorWrite(ds, b.binding, VkStorageImage, ImageInfo(view))];
        }
        AccountsOne(b, ds, uniforms, enc, arena.buffer, used, offs, writes, offsets, written, initial);
      case Unsupported(_) =>
        AccountsOne(b, ds, uniforms, enc, arena.buffer, used, offs, writes, offsets, written, initial);
    }
  }

  /** One step of the inner loop: binds binding `bi` and extends what the
      bindings before it produced, or fails for a reason the bindings explain. */
  method BindNext(arena: UniformArena, bindings: seq<ReflectedBinding>, bi: nat, ds: nat, uniforms: UniformMap, enc: Encoder,
                  ghost head0: nat, ghost offsets0: seq<nat>, ghost regions0: seq<array<bv8>>,
                  writes: seq<DescriptorWrite>, offsets: seq<u32>,
                  ghost used: nat, ghost offs: seq<nat>, ghost written: seq<seq<bv8>>, ghost initial: seq<seq<bv8>>,
                  ghost regions: seq<array<bv8>>)
    returns (r: Outcome<BindError>, writes': seq<DescriptorWrite>, offsets': seq<u32>,
             ghost used': nat, ghost offs': seq<nat>, ghost written': seq<seq<bv8>>, ghost initial': seq<seq<bv8>>,
             ghost regions': seq<array<bv8>>)
    requires arena.Valid() && bi < |bindings|
    requires arena.offsets == offsets0 + offs && arena.head == head0 + used
    requires arena.regions == regions0 + regions && Stored(regions, written)
    requires Accounts(bindings[..bi], ds, uniforms, enc, arena.buffer, used, offs, writes, offsets, written, initial)
    modifies arena
    ensures arena.Valid()
    ensures r.Fail? ==> Explains(r.error, bindings, head0, arena.capacity, uniforms, enc)
    ensures r.Pass? ==>
      arena.offsets == offsets0 + offs' && arena.head == head0 + used' &&
      arena.regions == regions0 + regions' && Stored(regions', written') &&
      Accounts(bindings[..bi + 1], ds, uniforms, enc, arena.buffer, used', offs', writes', offsets', written', initial')
  {
    var b := bindings[bi];
    var w, o;
    ghost var u, os, ws, ins, rs;
    r, w, o, u, os, ws, ins, rs := BindBinding(arena, b, ds, uniforms, enc);
    if r.Fail? {
      ExplainsInSet(r.error, bindings, bi, head0, arena.capacity, uniforms, enc);
      return r, writes, offsets, used, offs, written, initial, regions;
    }
    writes', offsets', used' := writes + w, offsets + o, used + u;
    offs', written', initial', regions' := offs + os, written + ws, initial + ins, regions + rs;
    assert Stored(regions', written') by {
      StoredAppend(regions, written, rs, ws);
    }
    AppendSnocAll(regions0, regions, rs);
    AppendSnocAll(offsets0, offs, os);
    assert Accounts(bindings[..bi + 1], ds, uniforms, enc, arena.buffer, used', offs', writes', offsets', written', initial') by {
      AccountsAppend(bindings[..bi], [b], ds, uniforms, enc, arena.buffer,
                     used, offs, writes, offsets, written, initial, u, os, w, o, ws, ins);
      PrefixSnoc(bindings, bi);
    }
  }

  /** Binds the bindings of one reflected set, in order: the inner loop of the
      binder. */
  method BindSet(arena: UniformArena, bindings: seq<ReflectedBinding>, ds: nat, uniforms: UniformMap, enc: Encoder)
    returns (r: Outcome<BindError>, writes: seq<DescriptorWrite>, offsets: seq<u32>,
             ghost used: nat, ghost offs: seq<nat>, ghost written: seq<seq<bv8>>, ghost initial: seq<seq<bv8>>,
             ghost regions: seq<array<bv8>>)
    requires arena.Valid()
    modifies arena
    ensures arena.Valid()
    ensures r.Fail? ==> Explains(r.error, bindings, old(arena.head), arena.capacity, uniforms, enc)
    ensures r.Pass? ==>
      arena.offsets == old(arena.offsets) + offs && arena.head == old(arena.head) + used &&
      arena.regions == old(arena.regions) + regions && Stored(regions, written) &&
      Accounts(bindings, ds, uniforms, enc, arena.buffer, used, offs, writes, offsets, written, initial)
  {
    writes, offsets, used, offs, written, initial, regions := [], [], 0, [], [], [], [];
    AccountsEmpty(ds, uniforms, enc, arena.buffer);
    var bi := 0;
    while bi < |bindings|
      invariant 0 <= bi <= |bindings|
      invariant arena.Valid()
      invariant arena.offsets == old(arena.offsets) + offs && arena.head == old(arena.head) + used
      invariant arena.regions == old(arena.regions) + regions && Stored(regions, written)
      invariant Accounts(bindings[..bi], ds, uniforms, enc, arena.buffer, used, offs, writes, offsets, written, initial)
    {
      var outcome;
      outcome, writes, offsets, used, offs, written, initial, regions :=
        BindNext(arena, bindings, bi, ds, uniforms, enc, old(arena.head), old(arena.offsets), old(arena.regions),
                 writes, offsets, used, offs, written, initial, regions);
      if outcome.Fail? {
        return outcome, writes, offsets, used, offs, written, initial, regions;
      }
      bi := bi + 1;
    }
    assert bindings[..bi] == bindings;
    r := Pass;
  }

  /** One step of the outer loop: binds set `si` and extends what the sets
      before it produced, or fails for a reason the bindings explain. */
  method BindSetAt(arena: UniformArena, sets: seq<ReflectedSet>, si: nat, ds: nat, uniforms: UniformMap, enc: Encoder,
                   ghost head0: nat, ghost offsets0: seq<nat>, ghost regions0: seq<array<bv8>>,
                   writes: seq<DescriptorWrite>, offsets: seq<u32>,
                   ghost used: nat, ghost offs: seq<nat>, ghost written: seq<seq<bv8>>, ghost initial: seq<seq<bv8>>,
                   ghost regions: seq<array<bv8>>)
    returns (r: Outcome<BindError>, writes': seq<DescriptorWrite>, offsets': seq<u32>,
             ghost used': nat, ghost offs': seq<nat>, ghost written': seq<seq<bv8>>, ghost initial': seq<seq<bv8>>,
             ghost regions': seq<array<bv8>>)
    requires arena.Valid() && si < |sets|
    requires arena.offsets == offsets0 + offs && arena.head == head0 + used
    requires arena.regions == regions0 + regions && Stored(regions, written)
    requires Accounts(AllBindings(sets[..si]), ds, uniforms, enc, arena.buffer, used, offs, writes, offsets, written, initial)
    modifies arena
    ensures arena.Valid()
    ensures r.Fail? ==> Explains(r.error, AllBindings(sets), head0, arena.capacity, uniforms, enc)
    ensures r.Pass? ==>
      arena.offsets == offsets0 + offs' && arena.head == head0 + used' &&
      arena.regions == regions0 + regions' && Stored(regions', written') &&
      Accounts(AllBindings(sets[..si + 1]), ds, uniforms, enc, arena.buffer, used', offs', writes', offsets', written', initial')
  {
    var bindings := sets[si].bindings;
    var w, o;
    ghost var u, os, ws, ins, rs;
    r, w, o, u, os, ws, ins, rs := BindSet(arena, bindings, ds, uniforms, enc);
    if r.Fail? {
      ExplainsInAll(r.error, sets, si, head0, arena.capacity, uniforms, enc);
      return r, writes, offsets, used, offs, written, initial, regions;
    }
    AccountsAppend(AllBindings(sets[..si]), bindings, ds, uniforms, enc, arena.buffer,
                   used, offs, writes, offsets, written, initial, u, os, w, o, ws, ins);
    AllBindingsSnoc(sets, si);
    StoredAppend(regions, written, rs, ws);
    AppendSnocAll(regions0, regions, rs);
    AppendSnocAll(offsets0, offs, os);
    writes', offsets', used' := writes + w, offsets + o, used + u;
    offs', written', initial', regions' := offs + os, written + ws, initial + ins, regions + rs;
  }

  /** Binds the sets one after the other, every write aimed at the first
      descriptor set: the outer loop of the binder. */
  method BindSets(arena: UniformArena, sets: seq<ReflectedSet>, descriptorSets: seq<nat>, uniforms: UniformMap, enc: Encoder)
    returns (r: Outcome<BindError>, writes: seq<DescriptorWrite>, offsets: seq<u32>,
             ghost used: nat, ghost offs: seq<nat>, ghost written: seq<seq<bv8>>, ghost initial: seq<seq<bv8>>,
             ghost regions: seq<array<bv8>>)
    requires arena.Valid()
    modifies arena
    ensures arena.Valid()
    ensures sets != [] && descriptorSets == [] ==> r == Fail(NoDescriptorSet)
    ensures r.Fail? ==>
      (Explains(r.error, AllBindings(sets), old(arena.head), arena.capacity, uniforms, enc) ||
       (r.error == NoDescriptorSet && sets != [] && descriptorSets == []))
    ensures r.Pass? ==>
      arena.offsets == old(arena.offsets) + offs && arena.head == old(arena.head) + used &&
      arena.regions == old(arena.regions) + regions && Stored(regions, written) &&
      Accounts(AllBindings(sets), TargetSet(descriptorSets), uniforms, enc, arena.buffer, used, offs, writes, offsets, written, initial)
  {
    writes, offsets, used, offs, written, initial, regions := [], [], 0, [], [], [], [];
    AccountsEmpty(TargetSet(descriptorSets), uniforms, enc, arena.buffer);
    // Every set indexes `descriptor_sets[0]` before doing anything else, so
    // with no descriptor set the first set already fails.
    if sets != [] && descriptorSets == [] {
      return Fail(NoDescriptorSet), writes, offsets, used, offs, written, initial, regions;
    }
    assert AllBindings(sets[..0]) == [] by {
      assert sets[..0] == [];
    }
    var si := 0;
    while si < |sets|
      invariant 0 <= si <= |sets|
      invariant arena.Valid()
      invariant arena.offsets == old(arena.offsets) + offs && arena.head == old(arena.head) + used
      invariant arena.regions == old(arena.regions) + regions && Stored(regions, written)
      invariant Accounts(AllBindings(sets[..si]), TargetSet(descriptorSets), uniforms, enc, arena.buffer,
                         used, offs, writes, offsets, written, initial)
    {
      var ds := descriptorSets[0];
      var outcome;
      outcome, writes, offsets, used, offs, written, initial, regions :=
        BindSetAt(arena, sets, si, ds, uniforms, enc, old(arena.head), old(arena.offsets), old(arena.regions),
                  writes, offsets, used, offs, written, initial, regions);
      if outcome.Fail? {
        return outcome, writes, offsets, used, offs, written, initial, regions;
      }
      si := si + 1;
    }
    assert sets[..si] == sets;
    r := Pass;
  }

  /** Binds every reflected binding: fills a fresh arena region per uniform
      block and records its offset, collects one descriptor write per uniform
      block and per storage image the map holds a texture for, all aimed at
      the first descriptor set, and hands the writes to the device in one
      batch when there are any. The result is the list of dynamic offsets, one
      per uniform block, cut to 32 bits. */
  method UpdateDescriptorSets(device: Device, arena: UniformArena, refl: Result<seq<ReflectedSet>, string>,
                              descriptorSets: seq<nat>, uniforms: UniformMap, enc: Encoder)
    returns (r: Result<seq<u32>, BindError>, ghost written: seq<seq<bv8>>, ghost initial: seq<seq<bv8>>)
    requires arena.Valid()
    modifies device, arena
    ensures arena.Valid()
    ensures refl.Err? ==> r == Err(ReflectionFailed(refl.error))
    ensures refl.Ok? && refl.value != [] && descriptorSets == [] ==> r == Err(NoDescriptorSet)
    ensures r == Err(NoDescriptorSet) ==> refl.Ok? && refl.value != [] && descriptorSets == []
    ensures r == Err(ArenaExhausted) ==>
      (refl.Ok? && old(arena.head) + TotalSize(UniformBlocks(AllBindings(refl.value))) > arena.capacity)
    ensures r.Err? && IsMemberError(r.error) ==>
      refl.Ok? && !AllWritable(UniformBlocks(AllBindings(refl.value)), uniforms, enc)
    ensures r.Err? ==> device.updates == old(device.updates)
    ensures r.Ok? <==>
      (refl.Ok? && (refl.value == [] || descriptorSets != []) &&
       old(arena.head) + TotalSize(UniformBlocks(AllBindings(refl.value))) <= arena.capacity &&
       AllWritable(UniformBlocks(AllBindings(refl.value)), uniforms, enc))
    ensures r.Ok? ==>
      var blocks := UniformBlocks(AllBindings(refl.value));
      var writes := PlannedWrites(AllBindings(refl.value), TargetSet(descriptorSets), uniforms, arena.buffer);
      |r.value| == |blocks| && arena.head == old(arena.head) + TotalSize(blocks) &&
      |old(arena.offsets)| <= |arena.offsets| && r.value == Truncated(arena.offsets[|old(arena.offsets)|..]) &&
      Filled(written, initial, blocks, uniforms, enc) &&
      |arena.regions| == |old(arena.regions)| + |blocks| && arena.regions[..|old(arena.regions)|] == old(arena.regions) &&
      (forall k :: 0 <= k < |blocks| ==> arena.regions[|old(arena.regions)| + k][..] == written[k]) &&
      device.updates == old(device.updates) + (if writes == [] then [] else [writes])
  {
    written, initial := [], [];
    if refl.Err? {
      return Err(ReflectionFailed(refl.error)), written, initial;
    }
    var outcome, writes, offsets;
    ghost var used, offs, regions;
    outcome, writes, offsets, used, offs, written, initial, regions := BindSets(arena, refl.value, descriptorSets, uniforms, enc);
    if outcome.Fail? {
      return Err(outcome.error), written, initial;
    }
    FilledWritable(written, initial, UniformBlocks(AllBindings(refl.value)), uniforms, enc);
    assert arena.offsets[|old(arena.offsets)|..] == offs;
    assert arena.regions[..|old(arena.regions)|] == old(arena.regions);
    assert forall k :: 0 <= k < |regions| ==> arena.regions[|old(arena.regions)| + k] == regions[k];
    if writes != [] {
      device.UpdateDescriptorSets(writes);
    }
    r := Ok(offsets);
  }
}
