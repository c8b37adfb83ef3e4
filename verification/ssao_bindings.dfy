/** The SSAO sample's resource bindings: the entries of each bind-group
    layout and of each bind group, written out for DirectX 12 (HLSL register
    bindings) and for the other backends (GLSL slot bindings), and the
    pipeline layouts built by reusing one `PipelineLayoutCreateInfo`. */
module SsaoBindings {
  import opened Wrappers
  import opened Rhi
  import DescriptorHeap

  type RangeType = DescriptorHeap.RangeType

  /** The textures the sample creates. */
  datatype TextureId =
    | GBufferPos
    | GBufferNormal
    | GBufferAlbedo
    | GBufferDepth
    | SsaoOutput
    | SsaoBlurOutput
    | Noise
    | DiffuseMap(renderable: nat)
    | BackBuffer(index: nat)

  datatype UniformId = SceneParams | SsaoKernel | SsaoParams

  datatype SamplerId = MainSampler | NoiseSampler

  /** What a bind-group entry points at: a texture view, a sampler or a
      uniform-buffer view. */
  datatype Resource =
    | TextureView(texture: TextureId)
    | SamplerObject(sampler: SamplerId)
    | UniformView(uniform: UniformId)

  datatype BindingType = UniformBuffer | TextureBinding | SamplerBinding

  /** `ResourceBinding`'s platform part: an HLSL register of a range type, or
      a GLSL binding slot. */
  datatype PlatformBinding = Hlsl(rangeType: RangeType, register: nat) | Glsl(slot: nat)

  datatype ShaderStage = VertexStage | PixelStage

  datatype LayoutEntry = LayoutEntry(bindingType: BindingType, binding: PlatformBinding, stages: set<ShaderStage>)

  datatype GroupEntry = GroupEntry(bindingType: BindingType, binding: PlatformBinding, resource: Resource)

  datatype LayoutId = GBufferLayout | RenderableLayout | SsaoLayout | BlurLayout | CompositionLayout

  datatype GroupId = SceneGroup | RenderableGroup(renderable: nat) | SsaoGroup | BlurGroup | CompositionGroup

  datatype PipelineId = GBufferPipeline | SsaoPipeline | BlurPipeline | CompositionPipeline

  // ---------------------------------------------------------------------
  // Bind-group layouts

  /** The set index passed to `BindGroupLayoutCreateInfo`. */
  function LayoutIndex(l: LayoutId): nat {
    if l == RenderableLayout then 1 else 0
  }

  const PixelOnly: set<ShaderStage> := {PixelStage}

  function CbvEntry(register: nat): LayoutEntry {
    LayoutEntry(UniformBuffer, Hlsl(DescriptorHeap.ConstantBuffer, register), PixelOnly)
  }

  function SrvEntry(register: nat): LayoutEntry {
    LayoutEntry(TextureBinding, Hlsl(DescriptorHeap.Texture, register), PixelOnly)
  }

  function SamplerEntry(register: nat): LayoutEntry {
    LayoutEntry(SamplerBinding, Hlsl(DescriptorHeap.Sampler, register), PixelOnly)
  }

  /** The entries of each layout, for the backend `rhi`. */
  function LayoutEntries(l: LayoutId, rhi: RhiType): (r: seq<LayoutEntry>)
    ensures |r| > 0
    ensures forall i :: 0 <= i < |r| ==> (r[i].binding.Hlsl? <==> rhi == DirectX12)
    ensures forall i :: 0 <= i < |r| ==> PixelStage in r[i].stages
    ensures forall i :: 0 <= i < |r| ==> (VertexStage in r[i].stages <==> l == GBufferLayout)
  {
    if rhi == DirectX12 then
      match l
      case GBufferLayout =>
        [LayoutEntry(UniformBuffer, Hlsl(DescriptorHeap.ConstantBuffer, 0), {VertexStage, PixelStage})]
      case RenderableLayout => [SrvEntry(0), SamplerEntry(0)]
      case SsaoLayout =>
        [SrvEntry(0), SrvEntry(1), SrvEntry(2), SamplerEntry(0), SamplerEntry(1), CbvEntry(0), CbvEntry(1)]
      case BlurLayout => [SrvEntry(0), SamplerEntry(0)]
      case CompositionLayout =>
        [SrvEntry(0), SrvEntry(1), SrvEntry(2), SrvEntry(3), SrvEntry(4), SamplerEntry(0), CbvEntry(0)]
    else
      match l
      case GBufferLayout => [LayoutEntry(UniformBuffer, Glsl(0), {VertexStage, PixelStage})]
      case RenderableLayout =>
        [LayoutEntry(TextureBinding, Glsl(0), PixelOnly), LayoutEntry(SamplerBinding, Glsl(1), PixelOnly)]
      case SsaoLayout =>
        [LayoutEntry(TextureBinding, Glsl(0), PixelOnly), LayoutEntry(TextureBinding, Glsl(1), PixelOnly),
         LayoutEntry(TextureBinding, Glsl(2), PixelOnly), LayoutEntry(SamplerBinding, Glsl(3), PixelOnly),
         LayoutEntry(SamplerBinding, Glsl(4), PixelOnly), LayoutEntry(UniformBuffer, Glsl(5), PixelOnly),
         LayoutEntry(UniformBuffer, Glsl(6), PixelOnly)]
      case BlurLayout =>
        [LayoutEntry(TextureBinding, Glsl(0), PixelOnly), LayoutEntry(SamplerBinding, Glsl(1), PixelOnly)]
      case CompositionLayout =>
        [LayoutEntry(TextureBinding, Glsl(0), PixelOnly), LayoutEntry(TextureBinding, Glsl(1), PixelOnly),
         LayoutEntry(TextureBinding, Glsl(2), PixelOnly), LayoutEntry(TextureBinding, Glsl(3), PixelOnly),
         LayoutEntry(TextureBinding, Glsl(4), PixelOnly), LayoutEntry(SamplerBinding, Glsl(5), PixelOnly),
         LayoutEntry(UniformBuffer, Glsl(6), PixelOnly)]
  }

  // ---------------------------------------------------------------------
  // Bind groups

  /** The layout each bind group is created from. */
  function GroupLayout(g: GroupId): LayoutId {
    match g
    case SceneGroup => GBufferLayout
    case RenderableGroup(_) => RenderableLayout
    case SsaoGroup => SsaoLayout
    case BlurGroup => BlurLayout
    case CompositionGroup => CompositionLayout
  }

  function Cbv(register: nat, u: UniformId): GroupEntry {
    GroupEntry(UniformBuffer, Hlsl(DescriptorHeap.ConstantBuffer, register), UniformView(u))
  }

  function Srv(register: nat, t: TextureId): GroupEntry {
    GroupEntry(TextureBinding, Hlsl(DescriptorHeap.Texture, register), TextureView(t))
  }

  function Smp(register: nat, s: SamplerId): GroupEntry {
    GroupEntry(SamplerBinding, Hlsl(DescriptorHeap.Sampler, register), SamplerObject(s))
  }

  /** The entries of each bind group, for the backend `rhi`. */
  function GroupEntries(g: GroupId, rhi: RhiType): (r: seq<GroupEntry>)
    ensures forall i :: 0 <= i < |r| ==> (r[i].binding.Hlsl? <==> rhi == DirectX12)
    ensures forall i :: 0 <= i < |r| && r[i].resource.TextureView? ==> !r[i].resource.texture.BackBuffer?
    ensures g.RenderableGroup? ==> |r| > 0 && r[0].resource == TextureView(DiffuseMap(g.renderable))
    ensures forall i :: 0 <= i < |r| && r[i].resource.TextureView? && r[i].resource.texture.DiffuseMap? ==>
              g == RenderableGroup(r[i].resource.texture.renderable)
  {
    if rhi == DirectX12 then
      match g
      case SceneGroup => [Cbv(0, SceneParams)]
      case RenderableGroup(i) => [Srv(0, DiffuseMap(i)), Smp(0, MainSampler)]
      case SsaoGroup =>
        [Srv(0, GBufferPos), Srv(1, GBufferNormal), Srv(2, Noise), Smp(0, MainSampler), Smp(1, NoiseSampler),
         Cbv(0, SsaoKernel), Cbv(1, SsaoParams)]
      case BlurGroup => [Srv(0, SsaoOutput), Smp(0, MainSampler)]
      case CompositionGroup =>
        [Srv(0, GBufferPos), Srv(1, GBufferNormal), Srv(2, GBufferAlbedo), Srv(3, SsaoOutput),
         Srv(4, SsaoBlurOutput), Smp(0, MainSampler), Cbv(0, SsaoParams)]
    else
      match g
      case SceneGroup => [GroupEntry(UniformBuffer, Glsl(0), UniformView(SceneParams))]
      case RenderableGroup(i) =>
        [GroupEntry(TextureBinding, Glsl(0), TextureView(DiffuseMap(i))),
         GroupEntry(SamplerBinding, Glsl(1), SamplerObject(MainSampler))]
      case SsaoGroup =>
        [GroupEntry(TextureBinding, Glsl(0), TextureView(GBufferPos)),
         GroupEntry(TextureBinding, Glsl(1), TextureView(GBufferNormal)),
         GroupEntry(TextureBinding, Glsl(2), TextureView(Noise)),
         GroupEntry(SamplerBinding, Glsl(3), SamplerObject(MainSampler)),
         GroupEntry(SamplerBinding, Glsl(4), SamplerObject(NoiseSampler)),
         GroupEntry(UniformBuffer, Glsl(5), UniformView(SsaoKernel)),
         GroupEntry(UniformBuffer, Glsl(6), UniformView(SsaoParams))]
      case BlurGroup =>
        [GroupEntry(TextureBinding, Glsl(0), TextureView(SsaoOutput)),
         GroupEntry(SamplerBinding, Glsl(1), SamplerObject(MainSampler))]
      case CompositionGroup =>
        [GroupEntry(TextureBinding, Glsl(0), TextureView(GBufferPos)),
         GroupEntry(TextureBinding, Glsl(1), TextureView(GBufferNormal)),
         GroupEntry(TextureBinding, Glsl(2), TextureView(GBufferAlbedo)),
         GroupEntry(TextureBinding, Glsl(3), TextureView(SsaoOutput)),
         GroupEntry(TextureBinding, Glsl(4), TextureView(SsaoBlurOutput)),
         GroupEntry(SamplerBinding, Glsl(5), SamplerObject(MainSampler)),
         GroupEntry(UniformBuffer, Glsl(6), UniformView(SsaoParams))]
  }

  /** The textures a bind group samples. */
  predicate GroupReads(g: GroupId, rhi: RhiType, t: TextureId) {
    exists i :: 0 <= i < |GroupEntries(g, rhi)| && GroupEntries(g, rhi)[i].resource == TextureView(t)
  }

  /** A group entry fits a layout entry when it names the same binding type
      and the same register or slot. */
  predicate EntryFits(e: GroupEntry, l: LayoutEntry) {
    e.bindingType == l.bindingType && e.binding == l.binding
  }

  /** The resource kind matches the binding type. */
  predicate ResourceFitsType(e: GroupEntry) {
    match e.bindingType
    case UniformBuffer => e.resource.UniformView?
    case TextureBinding => e.resource.TextureView?
    case SamplerBinding => e.resource.SamplerObject?
  }

  /** Every bind group lists the entries of its layout, in the same order, on
      every backend, and each entry's resource is of the entry's kind. */
  lemma GroupsMatchTheirLayouts(g: GroupId, rhi: RhiType)
    ensures |GroupEntries(g, rhi)| == |LayoutEntries(GroupLayout(g), rhi)|
    ensures forall i :: 0 <= i < |GroupEntries(g, rhi)| ==>
              EntryFits(GroupEntries(g, rhi)[i], LayoutEntries(GroupLayout(g), rhi)[i])
    ensures forall i :: 0 <= i < |GroupEntries(g, rhi)| ==> ResourceFitsType(GroupEntries(g, rhi)[i])
  {
  }

  /** The two backends bind the same resources in the same order; only the
      binding notation differs. */
  lemma BackendsBindTheSameResources(g: GroupId, a: RhiType, b: RhiType)
    ensures |GroupEntries(g, a)| == |GroupEntries(g, b)|
    ensures forall i :: 0 <= i < |GroupEntries(g, a)| ==>
              GroupEntries(g, a)[i].resource == GroupEntries(g, b)[i].resource
              && GroupEntries(g, a)[i].bindingType == GroupEntries(g, b)[i].bindingType
  {
  }

  // ---------------------------------------------------------------------
  // Slot and register numbering

  /** GLSL layouts number their slots 0, 1, 2, ... in order, so slots are
      distinct and leave no gap. */
  lemma GlslSlotsAreConsecutive(l: LayoutId, rhi: RhiType)
    requires rhi != DirectX12
    ensures forall i :: 0 <= i < |LayoutEntries(l, rhi)| ==> LayoutEntries(l, rhi)[i].binding == Glsl(i)
  {
  }

  /** The HLSL range type a binding type needs. */
  function RangeOf(t: BindingType): RangeType {
    match t
    case UniformBuffer => DescriptorHeap.ConstantBuffer
    case TextureBinding => DescriptorHeap.Texture
    case SamplerBinding => DescriptorHeap.Sampler
  }

  /** How many of the first `k` entries use range type `r`. */
  function CountRange(entries: seq<LayoutEntry>, k: nat, r: RangeType): nat
    requires k <= |entries|
    requires forall i :: 0 <= i < |entries| ==> entries[i].binding.Hlsl?
    decreases k
  {
    if k == 0 then 0
    else CountRange(entries, k - 1, r) + (if entries[k - 1].binding.rangeType == r then 1 else 0)
  }

  /** HLSL layouts give each entry the range type of its binding type and the
      next free register of that range type. */
  predicate RegistersNumberedPerRange(entries: seq<LayoutEntry>) {
    && (forall i :: 0 <= i < |entries| ==> entries[i].binding.Hlsl?)
    && (forall i :: 0 <= i < |entries| ==> entries[i].binding.rangeType == RangeOf(entries[i].bindingType))
    && (forall i :: 0 <= i < |entries| ==> entries[i].binding.register == CountRange(entries, i, entries[i].binding.rangeType))
  }

  lemma HlslRegistersAreNumberedPerRange(l: LayoutId)
    ensures RegistersNumberedPerRange(LayoutEntries(l, DirectX12))
  {
    var e := LayoutEntries(l, DirectX12);
    match l
    case GBufferLayout =>
    case RenderableLayout =>
      assert CountRange(e, 1, DescriptorHeap.Sampler) == 0;
    case SsaoLayout =>
      assert CountRange(e, 3, DescriptorHeap.Sampler) == 0;
      assert CountRange(e, 4, DescriptorHeap.Sampler) == 1;
      assert CountRange(e, 5, DescriptorHeap.ConstantBuffer) == 0;
      assert CountRange(e, 6, DescriptorHeap.ConstantBuffer) == 1;
    case BlurLayout =>
      assert CountRange(e, 1, DescriptorHeap.Sampler) == 0;
    case CompositionLayout =>
      assert CountRange(e, 5, DescriptorHeap.Sampler) == 0;
      assert CountRange(e, 6, DescriptorHeap.ConstantBuffer) == 0;
  }

  lemma {:induction false} CountRangeGrows(entries: seq<LayoutEntry>, i: nat, j: nat, r: RangeType)
    requires i < j <= |entries|
    requires forall k :: 0 <= k < |entries| ==> entries[k].binding.Hlsl?
    requires entries[i].binding.rangeType == r
    ensures CountRange(entries, i, r) < CountRange(entries, j, r)
    decreases j
  {
    if j - 1 > i {
      CountRangeGrows(entries, i, j - 1, r);
    }
  }

  /** Numbering per range type makes registers distinct within each range
      type. */
  lemma RegistersAreDistinctPerRange(entries: seq<LayoutEntry>)
    requires RegistersNumberedPerRange(entries)
    ensures forall i, j :: 0 <= i < j < |entries| && entries[i].binding.rangeType == entries[j].binding.rangeType
              ==> entries[i].binding.register != entries[j].binding.register
  {
    forall i, j | 0 <= i < j < |entries| && entries[i].binding.rangeType == entries[j].binding.rangeType
      ensures entries[i].binding.register != entries[j].binding.register
    {
      CountRangeGrows(entries, i, j, entries[i].binding.rangeType);
    }
  }

  // ---------------------------------------------------------------------
  // Pipeline layouts

  /** The layout vector each pipeline layout is meant to hold. */
  function PipelineLayouts(p: PipelineId): (r: seq<LayoutId>)
    ensures |r| > 0
    ensures forall k :: 0 <= k < |r| ==> LayoutIndex(r[k]) == k
    ensures RenderableLayout in r <==> p == GBufferPipeline
  {
    match p
    case GBufferPipeline => [GBufferLayout, RenderableLayout]
    case SsaoPipeline => [SsaoLayout]
    case BlurPipeline => [BlurLayout]
    case CompositionPipeline => [CompositionLayout]
  }

  /** Each layout sits at the set index it was created with. */
  lemma LayoutsSitAtTheirSetIndex(p: PipelineId)
    ensures forall k :: 0 <= k < |PipelineLayouts(p)| ==> LayoutIndex(PipelineLayouts(p)[k]) == k
  {
  }

  /** The reused `PipelineLayoutCreateInfo`: a count and the vector its
      pointer currently designates. */
  datatype PipelineLayoutInfo = PipelineLayoutInfo(bindGroupLayoutNum: nat, bindGroupLayouts: seq<LayoutId>)

  /** One statement of `CreateBindGroupLayoutAndPipelineLayout` touching the
      reused info. */
  datatype InfoStep =
    | SetLayoutNum(num: nat)
    | PointAt(layouts: seq<LayoutId>)
    | CreateLayout(pipeline: PipelineId)

  /** The statements in source order: the count is written only for the
      G-buffer (2) and SSAO (1) layouts and then left as it is. */
  const PipelineLayoutSteps: seq<InfoStep> := [
    SetLayoutNum(2), PointAt([GBufferLayout, RenderableLayout]), CreateLayout(GBufferPipeline),
    SetLayoutNum(1), PointAt([SsaoLayout]), CreateLayout(SsaoPipeline),
    PointAt([BlurLayout]), CreateLayout(BlurPipeline),
    PointAt([CompositionLayout]), CreateLayout(CompositionPipeline)
  ]

  datatype Created = Created(pipeline: PipelineId, layouts: seq<LayoutId>)

  function CountCreations(steps: seq<InfoStep>): nat
    decreases |steps|
  {
    if |steps| == 0 then 0 else (if steps[0].CreateLayout? then 1 else 0) + CountCreations(steps[1..])
  }

  /** Runs the statements; a creation whose count exceeds the designated
      vector would read past its end, and stops the run. Each creation takes
      the first `bindGroupLayoutNum` layouts of the designated vector. */
  function RunInfoSteps(info: PipelineLayoutInfo, steps: seq<InfoStep>): (r: Option<seq<Created>>)
    ensures r.Some? ==> |r.value| == CountCreations(steps)
    ensures r.Some? && |steps| > 0 && steps[0].CreateLayout? && info.bindGroupLayoutNum <= |info.bindGroupLayouts| ==>
              r.value[0] == Created(steps[0].pipeline, info.bindGroupLayouts[..info.bindGroupLayoutNum])
    decreases |steps|
  {
    if |steps| == 0 then Some([])
    else
      match steps[0]
      case SetLayoutNum(n) => RunInfoSteps(info.(bindGroupLayoutNum := n), steps[1..])
      case PointAt(v) => RunInfoSteps(info.(bindGroupLayouts := v), steps[1..])
      case CreateLayout(p) =>
        if info.bindGroupLayoutNum > |info.bindGroupLayouts| then None
        else
          var rest := RunInfoSteps(info, steps[1..]);
          if rest.None? then None
          else Some([Created(p, info.bindGroupLayouts[..info.bindGroupLayoutNum])] + rest.value)
  }

  /** Starting from a zeroed info, every pipeline layout receives exactly its
      intended vector: the count 1 left over from the SSAO layout is right
      for the blur and composition layouts too. */
  lemma PipelineLayoutInfoReuseIsSound()
    ensures RunInfoSteps(PipelineLayoutInfo(0, []), PipelineLayoutSteps).Some?
    ensures var created := RunInfoSteps(PipelineLayoutInfo(0, []), PipelineLayoutSteps).value;
            |created| == 4
            && created[0] == Created(GBufferPipeline, PipelineLayouts(GBufferPipeline))
            && created[1] == Created(SsaoPipeline, PipelineLayouts(SsaoPipeline))
            && created[2] == Created(BlurPipeline, PipelineLayouts(BlurPipeline))
            && created[3] == Created(CompositionPipeline, PipelineLayouts(CompositionPipeline))
  {
    var steps := PipelineLayoutSteps;
    var gb := [GBufferLayout, RenderableLayout];
    var last := [Created(CompositionPipeline, [CompositionLayout])];
    assert steps[9..][1..] == [];
    assert steps[9] == CreateLayout(CompositionPipeline);
    assert RunInfoSteps(PipelineLayoutInfo(1, [CompositionLayout]), steps[9..][1..]) == Some([]);
    assert last + [] == last;
    assert [CompositionLayout][..1] == [CompositionLayout];
    assert [BlurLayout][..1] == [BlurLayout];
    assert [SsaoLayout][..1] == [SsaoLayout];
    assert RunInfoSteps(PipelineLayoutInfo(1, [CompositionLayout]), steps[9..]) == Some(last);
    assert steps[8..][1..] == steps[9..];
    assert RunInfoSteps(PipelineLayoutInfo(1, [BlurLayout]), steps[8..]) == Some(last);
    var blur := [Created(BlurPipeline, [BlurLayout])] + last;
    assert steps[7..][1..] == steps[8..];
    assert RunInfoSteps(PipelineLayoutInfo(1, [BlurLayout]), steps[7..]) == Some(blur);
    assert steps[6..][1..] == steps[7..];
    assert RunInfoSteps(PipelineLayoutInfo(1, [SsaoLayout]), steps[6..]) == Some(blur);
    var ssao := [Created(SsaoPipeline, [SsaoLayout])] + blur;
    assert steps[5..][1..] == steps[6..];
    assert RunInfoSteps(PipelineLayoutInfo(1, [SsaoLayout]), steps[5..]) == Some(ssao);
    assert steps[4..][1..] == steps[5..];
    assert RunInfoSteps(PipelineLayoutInfo(1, gb), steps[4..]) == Some(ssao);
    assert steps[3..][1..] == steps[4..];
    assert RunInfoSteps(PipelineLayoutInfo(2, gb), steps[3..]) == Some(ssao);
    var all := [Created(GBufferPipeline, gb)] + ssao;
    assert steps[2..][1..] == steps[3..];
    assert gb[..2] == gb;
    assert RunInfoSteps(PipelineLayoutInfo(2, gb), steps[2..]) == Some(all);
    assert steps[1..][1..] == steps[2..];
    assert RunInfoSteps(PipelineLayoutInfo(2, []), steps[1..]) == Some(all);
    assert RunInfoSteps(PipelineLayoutInfo(0, []), steps) == Some(all);
  }
}
