/** The SSAO sample's command recording, as traces checked against a small
    encoder state machine: every texture's state is tracked, a barrier's
    "before" state must be the tracked one, passes do not nest and are
    closed before the encoder ends, attachments must be writable, a bind
    group must match the layout at its set index, and a draw samples only
    textures that are shader-readable. */
module SsaoFrame {
  import opened Wrappers
  import opened Rhi
  import opened SsaoBindings

  /** The sample's `backBufferCount`: two back buffers and two frame slots. */
  const BackBufferCount: nat := 2

  datatype Command =
    | Barrier(texture: TextureId, before: TextureState, after: TextureState)
    | BeginGraphicsPass(colors: seq<TextureId>, depth: Option<TextureId>)
    | BeginCopyPass
    | SetPipeline(pipeline: PipelineId)
    | SetBindGroup(index: nat, group: GroupId)
    | DrawIndexed
    | CopyBufferToTexture(texture: TextureId)
    | EndPass
    | End

  /** Where the encoder is: recording outside any pass, inside a graphics or
      a copy pass, or ended. */
  datatype PassState = Recording | InGraphicsPass | InCopyPass | Ended

  /** The tracked state of every texture that exists, the pass state, the
      pipeline set in the open graphics pass and the bind groups bound since. */
  datatype Encoder = Encoder(
    textures: imap<TextureId, TextureState>,
    pass: PassState,
    pipeline: Option<PipelineId>,
    bound: map<nat, GroupId>)

  datatype Violation =
    | BarrierInsideGraphicsPass
    | UntrackedTexture(texture: TextureId)
    | StateMismatch(texture: TextureId)
    | PassAlreadyOpen
    | NoOpenPass
    | AttachmentNotWritable(texture: TextureId)
    | NoPipeline
    | LayoutMismatch(index: nat)
    | MissingBindGroup(index: nat)
    | TextureNotReadable
    | CopyTargetNotWritable(texture: TextureId)
    | EncoderEnded

  /** A fresh encoder from `CommandBuffer::Begin`. */
  function Begin(textures: imap<TextureId, TextureState>): Encoder {
    Encoder(textures, Recording, None, map[])
  }

  /** The textures each bind group samples, listed independently of the
      entry lists. */
  function Samples(g: GroupId): seq<TextureId> {
    match g
    case SceneGroup => []
    case RenderableGroup(i) => [DiffuseMap(i)]
    case SsaoGroup => [GBufferPos, GBufferNormal, Noise]
    case BlurGroup => [SsaoOutput]
    case CompositionGroup => [GBufferPos, GBufferNormal, GBufferAlbedo, SsaoOutput, SsaoBlurOutput]
  }

  /** A texture is sampled by a group exactly when it is listed in
      `Samples`, on every backend. */
  lemma SamplesAreTheGroupsTextureViews(g: GroupId, rhi: RhiType, t: TextureId)
    ensures GroupReads(g, rhi, t) <==> t in Samples(g)
  {
    var es := GroupEntries(g, rhi);
    if t in Samples(g) {
      var i :| 0 <= i < |Samples(g)| && Samples(g)[i] == t;
      match g
      case SceneGroup =>
      case RenderableGroup(_) => assert es[0].resource == TextureView(t);
      case SsaoGroup => assert es[i].resource == TextureView(t);
      case BlurGroup => assert es[0].resource == TextureView(t);
      case CompositionGroup => assert es[i].resource == TextureView(t);
    }
  }

  /** Every texture the group samples exists and is shader-readable. */
  predicate GroupReadable(textures: imap<TextureId, TextureState>, g: GroupId, rhi: RhiType) {
    forall i :: 0 <= i < |GroupEntries(g, rhi)| && GroupEntries(g, rhi)[i].resource.TextureView? ==>
      GroupEntries(g, rhi)[i].resource.texture in textures
      && textures[GroupEntries(g, rhi)[i].resource.texture] == ShaderReadOnly
  }

  /** Checking the `Samples` list is enough to make a group readable. */
  lemma ReadableSamplesSuffice(textures: imap<TextureId, TextureState>, g: GroupId, rhi: RhiType)
    requires Readable(textures, Samples(g))
    ensures GroupReadable(textures, g, rhi)
  {
    var es := GroupEntries(g, rhi);
    forall i | 0 <= i < |es| && es[i].resource.TextureView?
      ensures es[i].resource.texture in textures && textures[es[i].resource.texture] == ShaderReadOnly
    {
      var t := es[i].resource.texture;
      assert GroupReads(g, rhi, t);
      SamplesAreTheGroupsTextureViews(g, rhi, t);
      var j :| 0 <= j < |Samples(g)| && Samples(g)[j] == t;
    }
  }

  /** Every texture of `ts` exists and is in the shader-read-only state. */
  predicate Readable(textures: imap<TextureId, TextureState>, ts: seq<TextureId>) {
    forall i :: 0 <= i < |ts| ==> ts[i] in textures && textures[ts[i]] == ShaderReadOnly
  }

  /** Every texture of `ts` exists and is in state `s`. */
  predicate AllIn(textures: imap<TextureId, TextureState>, ts: seq<TextureId>, s: TextureState) {
    forall i :: 0 <= i < |ts| ==> ts[i] in textures && textures[ts[i]] == s
  }

  /** A draw's demands: a pipeline is set, each of its set indices has a
      group bound, and every texture those groups sample is readable. */
  predicate ReadyToDraw(st: Encoder, rhi: RhiType) {
    && st.pipeline.Some?
    && (forall k :: 0 <= k < |PipelineLayouts(st.pipeline.value)| ==>
          k in st.bound && GroupReadable(st.textures, st.bound[k], rhi))
  }

  /** One recorded command. */
  function Step(st: Encoder, cmd: Command, rhi: RhiType): (r: Result<Encoder, Violation>)
    ensures r.Success? ==> st.pass != Ended
    ensures cmd.Barrier? && r.Success? ==> st.pass == Recording || st.pass == InCopyPass
    ensures cmd.Barrier? && r.Success? ==> cmd.texture in st.textures && st.textures[cmd.texture] == cmd.before
    ensures (&& cmd.Barrier? && (st.pass == Recording || st.pass == InCopyPass)
             && cmd.texture in st.textures && st.textures[cmd.texture] == cmd.before) ==> r.Success?
    ensures r.Success? && cmd.Barrier? ==> r.value == st.(textures := st.textures[cmd.texture := cmd.after])
    ensures r.Success? && !cmd.Barrier? ==> r.value.textures == st.textures
    ensures r.Success? && (cmd.BeginGraphicsPass? || cmd.BeginCopyPass? || cmd.End?) ==> st.pass == Recording
    ensures r.Success? && cmd.BeginGraphicsPass? ==>
              && AllIn(st.textures, cmd.colors, RenderTarget)
              && (cmd.depth.Some? ==> cmd.depth.value in st.textures && st.textures[cmd.depth.value] == DepthStencilWrite)
    ensures r.Success? && cmd.SetBindGroup? ==>
              && st.pipeline.Some? && cmd.index < |PipelineLayouts(st.pipeline.value)|
              && PipelineLayouts(st.pipeline.value)[cmd.index] == GroupLayout(cmd.group)
    ensures r.Success? && cmd.DrawIndexed? ==> st.pass == InGraphicsPass && ReadyToDraw(st, rhi)
    ensures r.Success? && cmd.CopyBufferToTexture? ==>
              st.pass == InCopyPass && cmd.texture in st.textures && st.textures[cmd.texture] == CopyDst
    ensures r.Success? && cmd.EndPass? ==> (st.pass == InGraphicsPass || st.pass == InCopyPass)
    ensures r.Success? && cmd.EndPass? ==> r.value == Begin(st.textures)
  {
    if st.pass == Ended then Failure(EncoderEnded)
    else
      match cmd
      case Barrier(t, before, after) =>
        if st.pass != Recording && st.pass != InCopyPass then Failure(BarrierInsideGraphicsPass)
        else if t !in st.textures then Failure(UntrackedTexture(t))
        else if st.textures[t] != before then Failure(StateMismatch(t))
        else Success(st.(textures := st.textures[t := after]))
      case BeginGraphicsPass(colors, depth) =>
        if st.pass != Recording then Failure(PassAlreadyOpen)
        else if !AllIn(st.textures, colors, RenderTarget) then Failure(AttachmentNotWritable(FirstNotIn(st.textures, colors, RenderTarget)))
        else if depth.Some? && !(depth.value in st.textures && st.textures[depth.value] == DepthStencilWrite)
        then Failure(AttachmentNotWritable(depth.value))
        else Success(st.(pass := InGraphicsPass, pipeline := None, bound := map[]))
      case BeginCopyPass =>
        if st.pass != Recording then Failure(PassAlreadyOpen)
        else Success(st.(pass := InCopyPass))
      case SetPipeline(p) =>
        if st.pass != InGraphicsPass then Failure(NoOpenPass)
        else Success(st.(pipeline := Some(p), bound := map[]))
      case SetBindGroup(k, g) =>
        if st.pass != InGraphicsPass then Failure(NoOpenPass)
        else if st.pipeline.None? then Failure(NoPipeline)
        else if !(k < |PipelineLayouts(st.pipeline.value)| && PipelineLayouts(st.pipeline.value)[k] == GroupLayout(g))
        then Failure(LayoutMismatch(k))
        else Success(st.(bound := st.bound[k := g]))
      case DrawIndexed =>
        if st.pass != InGraphicsPass then Failure(NoOpenPass)
        else if st.pipeline.None? then Failure(NoPipeline)
        else if !ReadyToDraw(st, rhi) then Failure(TextureNotReadable)
        else Success(st)
      case CopyBufferToTexture(t) =>
        if st.pass != InCopyPass then Failure(NoOpenPass)
        else if !(t in st.textures && st.textures[t] == CopyDst) then Failure(CopyTargetNotWritable(t))
        else Success(st)
      case EndPass =>
        if st.pass != InGraphicsPass && st.pass != InCopyPass then Failure(NoOpenPass)
        else Success(Begin(st.textures))
      case End =>
        if st.pass != Recording then Failure(PassAlreadyOpen)
        else Success(st.(pass := Ended))
  }

  /** The first texture of `ts` that is not in state `s`. */
  function FirstNotIn(textures: imap<TextureId, TextureState>, ts: seq<TextureId>, s: TextureState): (t: TextureId)
    requires !AllIn(textures, ts, s)
    ensures t in ts && !(t in textures && textures[t] == s)
  {
    if !(ts[0] in textures && textures[ts[0]] == s) then ts[0]
    else
      assert !AllIn(textures, ts[1..], s) by {
        var i :| 0 <= i < |ts| && !(ts[i] in textures && textures[ts[i]] == s);
        assert ts[1..][i - 1] == ts[i];
      }
      FirstNotIn(textures, ts[1..], s)
  }

  /** Records `cmds` in order, stopping at the first violation. */
  function Run(st: Encoder, cmds: seq<Command>, rhi: RhiType): (r: Result<Encoder, Violation>)
    ensures |cmds| == 0 ==> r == Success(st)
    ensures r.Success? && |cmds| > 0 ==> Step(st, cmds[0], rhi).Success?
    ensures |cmds| > 0 && Step(st, cmds[0], rhi).Failure? ==> r == Failure(Step(st, cmds[0], rhi).error)
    decreases |cmds|
  {
    if |cmds| == 0 then Success(st)
    else
      var next :- Step(st, cmds[0], rhi);
      Run(next, cmds[1..], rhi)
  }

  /** Recording a concatenation records the first part, then the second from
      where the first left off. */
  lemma {:induction false} RunAppend(st: Encoder, a: seq<Command>, b: seq<Command>, rhi: RhiType)
    ensures Run(st, a + b, rhi) == (if Run(st, a, rhi).Success? then Run(Run(st, a, rhi).value, b, rhi)
                                    else Run(st, a, rhi))
    decreases |a|
  {
    if |a| > 0 {
      assert (a + b)[0] == a[0];
      assert (a + b)[1..] == a[1..] + b;
      var s := Step(st, a[0], rhi);
      if s.Success? {
        RunAppend(s.value, a[1..], b, rhi);
      }
    } else {
      assert a + b == b;
    }
  }

  /** Two runs that succeed in turn make a run of the concatenation. */
  lemma RunThen(st: Encoder, mid: Encoder, a: seq<Command>, b: seq<Command>, rhi: RhiType)
    requires Run(st, a, rhi) == Success(mid)
    ensures Run(st, a + b, rhi) == Run(mid, b, rhi)
  {
    RunAppend(st, a, b, rhi);
  }

  /** A run that fails stays failed whatever follows. */
  lemma RunStopsAtFailure(st: Encoder, a: seq<Command>, b: seq<Command>, rhi: RhiType)
    requires Run(st, a, rhi).Failure?
    ensures Run(st, a + b, rhi) == Run(st, a, rhi)
  {
    RunAppend(st, a, b, rhi);
  }

  /** `End` on a recording encoder ends it. */
  lemma EndEndsRecording(st: Encoder, rhi: RhiType)
    requires st.pass == Recording
    ensures Run(st, [End], rhi) == Success(st.(pass := Ended))
  {
    assert [End][1..] == [];
  }

  /** Only barriers change texture states, and a run that ends in the ended
      state has closed every pass it opened. */
  lemma {:induction false} RunKeepsStatesWithoutBarriers(st: Encoder, cmds: seq<Command>, rhi: RhiType)
    requires forall i :: 0 <= i < |cmds| ==> !cmds[i].Barrier?
    requires Run(st, cmds, rhi).Success?
    ensures Run(st, cmds, rhi).value.textures == st.textures
    decreases |cmds|
  {
    if |cmds| > 0 {
      var s := Step(st, cmds[0], rhi).value;
      assert forall i :: 0 <= i < |cmds[1..]| ==> cmds[1..][i] == cmds[i + 1];
      RunKeepsStatesWithoutBarriers(s, cmds[1..], rhi);
    }
  }

  /** Nothing can be recorded after `End`. */
  lemma NothingAfterEnd(st: Encoder, cmds: seq<Command>, rhi: RhiType)
    requires st.pass == Ended && |cmds| > 0
    ensures Run(st, cmds, rhi) == Failure(EncoderEnded)
  {
  }

  // ---------------------------------------------------------------------
  // The textures of the sample

  /** The textures that exist once `renderables` meshes are loaded: the
      fixed attachments, the noise texture, one diffuse map per renderable
      and `backBufferCount` back buffers. */
  predicate Exists(t: TextureId, renderables: nat) {
    match t
    case DiffuseMap(i) => i < renderables
    case BackBuffer(i) => i < BackBufferCount
    case _ => true
  }

  /** The states the textures are created in: the colour attachments
      shader-readable, the depth buffer depth-read-only, the back buffers
      `present`, and the uploaded textures in the default state. */
  function CreationState(t: TextureId): TextureState {
    match t
    case GBufferDepth => DepthStencilReadonly
    case BackBuffer(_) => TextureState.Present
    case Noise => Undefined
    case DiffuseMap(_) => Undefined
    case _ => ShaderReadOnly
  }

  /** The state every texture is in between frames. */
  function FrameState(t: TextureId): TextureState {
    match t
    case Noise => ShaderReadOnly
    case DiffuseMap(_) => ShaderReadOnly
    case _ => CreationState(t)
  }

  ghost function CreatedTextures(renderables: nat): imap<TextureId, TextureState> {
    imap t | Exists(t, renderables) :: CreationState(t)
  }

  ghost function FrameTextures(renderables: nat): imap<TextureId, TextureState> {
    imap t | Exists(t, renderables) :: FrameState(t)
  }

  // ---------------------------------------------------------------------
  // Upload traces

  /** An upload: a copy pass that moves the texture to `copyDst`, copies
      into it and moves it to `shaderReadOnly`. */
  function UploadCommands(t: TextureId): (r: seq<Command>)
    ensures |r| > 0 && r[0] == BeginCopyPass && r[|r| - 1] == End
    ensures forall i :: 0 <= i < |r| && (r[i].Barrier? || r[i].CopyBufferToTexture?) ==> r[i].texture == t
    ensures CopyBufferToTexture(t) in r
    ensures forall i :: 0 <= i < |r| && r[i].CopyBufferToTexture? ==>
              && 0 < i < |r| - 1
              && r[i - 1].Barrier? && r[i - 1].after == CopyDst
              && r[i + 1].Barrier? && r[i + 1].before == CopyDst && r[i + 1].after == ShaderReadOnly
  {
    [BeginCopyPass, Barrier(t, Undefined, CopyDst), CopyBufferToTexture(t), Barrier(t, CopyDst, ShaderReadOnly),
     EndPass, End]
  }

  /** An upload of an undefined texture ends it shader-readable and touches
      nothing else. */
  lemma UploadMakesReadable(textures: imap<TextureId, TextureState>, t: TextureId, rhi: RhiType)
    requires t in textures && textures[t] == Undefined
    ensures Run(Begin(textures), UploadCommands(t), rhi).Success?
    ensures Run(Begin(textures), UploadCommands(t), rhi).value
            == Encoder(textures[t := ShaderReadOnly], Ended, None, map[])
  {
    var c := UploadCommands(t);
    var s1 := Begin(textures).(pass := InCopyPass);
    var s2 := s1.(textures := textures[t := CopyDst]);
    var s3 := s2.(textures := textures[t := CopyDst][t := ShaderReadOnly]);
    assert textures[t := CopyDst][t := ShaderReadOnly] == textures[t := ShaderReadOnly];
    assert c[5..] == [End];
    assert Run(Begin(textures[t := ShaderReadOnly]), c[5..], rhi) == Success(Encoder(textures[t := ShaderReadOnly], Ended, None, map[]));
    assert c[4..][1..] == c[5..];
    assert c[3..][1..] == c[4..];
    assert c[2..][1..] == c[3..];
    assert Run(s2, c[2..], rhi) == Run(s3, c[4..], rhi);
    assert c[1..][1..] == c[2..];
  }

  /** Copying into a texture without the barrier first fails. */
  lemma CopyWithoutBarrierFails(textures: imap<TextureId, TextureState>, t: TextureId, rhi: RhiType)
    requires t in textures && textures[t] == Undefined
    ensures Run(Begin(textures), [BeginCopyPass, CopyBufferToTexture(t)], rhi) == Failure(CopyTargetNotWritable(t))
  {
    assert [BeginCopyPass, CopyBufferToTexture(t)][1..] == [CopyBufferToTexture(t)];
  }

  /** Uploads the diffuse maps of renderables `from`, `from` + 1, ... in
      order, each on its own encoder. */
  function UploadDiffuseMaps(textures: imap<TextureId, TextureState>, from: nat, renderables: nat, rhi: RhiType)
    : Result<imap<TextureId, TextureState>, Violation>
    decreases renderables - from
  {
    if from >= renderables then Success(textures)
    else
      var e :- Run(Begin(textures), UploadCommands(DiffuseMap(from)), rhi);
      UploadDiffuseMaps(e.textures, from + 1, renderables, rhi)
  }

  /** The sample's start-up uploads: the noise texture, then every
      renderable's diffuse map. */
  ghost function StartupUploads(renderables: nat, rhi: RhiType): Result<imap<TextureId, TextureState>, Violation> {
    var e :- Run(Begin(CreatedTextures(renderables)), UploadCommands(Noise), rhi);
    UploadDiffuseMaps(e.textures, 0, renderables, rhi)
  }

  /** The textures between diffuse-map uploads: maps below `from` already
      uploaded, the rest still undefined. */
  ghost function PartlyUploaded(from: nat, renderables: nat): imap<TextureId, TextureState> {
    imap t | Exists(t, renderables) ::
      if t.DiffuseMap? && t.renderable >= from then Undefined else FrameState(t)
  }

  /** Uploading diffuse map `from` moves `PartlyUploaded` one renderable on. */
  lemma PartlyUploadedStep(from: nat, renderables: nat)
    requires from < renderables
    ensures DiffuseMap(from) in PartlyUploaded(from, renderables)
    ensures PartlyUploaded(from, renderables)[DiffuseMap(from)] == Undefined
    ensures PartlyUploaded(from, renderables)[DiffuseMap(from) := ShaderReadOnly] == PartlyUploaded(from + 1, renderables)
  {
    var a := PartlyUploaded(from, renderables)[DiffuseMap(from) := ShaderReadOnly];
    var b := PartlyUploaded(from + 1, renderables);
    forall t ensures (t in a <==> t in b) && (t in a ==> a[t] == b[t]) {
    }
  }

  lemma PartlyUploadedAll(renderables: nat)
    ensures PartlyUploaded(renderables, renderables) == FrameTextures(renderables)
  {
    var a := PartlyUploaded(renderables, renderables);
    var b := FrameTextures(renderables);
    forall t ensures (t in a <==> t in b) && (t in a ==> a[t] == b[t]) {
    }
  }

  lemma {:induction false} DiffuseUploadsComplete(from: nat, renderables: nat, rhi: RhiType)
    requires from <= renderables
    ensures UploadDiffuseMaps(PartlyUploaded(from, renderables), from, renderables, rhi)
            == Success(FrameTextures(renderables))
    decreases renderables - from
  {
    var m := PartlyUploaded(from, renderables);
    if from == renderables {
      PartlyUploadedAll(renderables);
    } else {
      PartlyUploadedStep(from, renderables);
      UploadMakesReadable(m, DiffuseMap(from), rhi);
      DiffuseUploadsComplete(from + 1, renderables, rhi);
    }
  }

  /** After the start-up uploads every texture is in its between-frames
      state. */
  lemma StartupReachesFrameStates(renderables: nat, rhi: RhiType)
    ensures StartupUploads(renderables, rhi) == Success(FrameTextures(renderables))
  {
    var created := CreatedTextures(renderables);
    UploadMakesReadable(created, Noise, rhi);
    assert created[Noise := ShaderReadOnly] == PartlyUploaded(0, renderables);
    DiffuseUploadsComplete(0, renderables, rhi);
  }

  // ---------------------------------------------------------------------
  // The frame

  /** The G-buffer draw loop: per renderable, bind its group at set 1 and
      draw. */
  function DrawLoop(from: nat, renderables: nat): (r: seq<Command>)
    ensures |r| == if from <= renderables then 2 * (renderables - from) else 0
    ensures forall k :: 0 <= k < |r| && k % 2 == 0 ==> r[k] == SetBindGroup(1, RenderableGroup(from + k / 2))
    ensures forall k :: 0 <= k < |r| && k % 2 == 1 ==> r[k] == DrawIndexed
    decreases renderables - from
  {
    if from >= renderables then []
    else [SetBindGroup(1, RenderableGroup(from)), DrawIndexed] + DrawLoop(from + 1, renderables)
  }

  /** The G-buffer pass's opening: its attachments become writable, the
      pass begins, the pipeline and the scene group at set 0 are set. */
  const GBufferHead: seq<Command> :=
    [Barrier(GBufferPos, ShaderReadOnly, RenderTarget), Barrier(GBufferNormal, ShaderReadOnly, RenderTarget),
     Barrier(GBufferAlbedo, ShaderReadOnly, RenderTarget), Barrier(GBufferDepth, DepthStencilReadonly, DepthStencilWrite),
     BeginGraphicsPass([GBufferPos, GBufferNormal, GBufferAlbedo], Some(GBufferDepth)),
     SetPipeline(GBufferPipeline), SetBindGroup(0, SceneGroup)]

  /** The G-buffer pass's close: the pass ends and its attachments return
      to their between-frames states. */
  const GBufferTail: seq<Command> :=
    [EndPass,
     Barrier(GBufferPos, RenderTarget, ShaderReadOnly), Barrier(GBufferNormal, RenderTarget, ShaderReadOnly),
     Barrier(GBufferAlbedo, RenderTarget, ShaderReadOnly), Barrier(GBufferDepth, DepthStencilWrite, DepthStencilReadonly)]

  /** `close` is a barrier that returns the texture of barrier `open` to the
      state `open` found it in. */
  predicate Undoes(close: Command, open: Command) {
    && open.Barrier? && close.Barrier? && close.texture == open.texture
    && close.before == open.after && close.after == open.before
  }

  /** The G-buffer segment: the tail undoes the head's barriers attachment
      by attachment, and everything between them is the draw loop. */
  function GBufferSegment(renderables: nat): (r: seq<Command>)
    ensures |r| == 2 * renderables + 12
    ensures forall k :: 0 <= k < 4 ==> Undoes(r[|r| - 4 + k], r[k])
    ensures r[4] == BeginGraphicsPass([GBufferPos, GBufferNormal, GBufferAlbedo], Some(GBufferDepth))
    ensures r[|r| - 5] == EndPass
    ensures forall i :: 0 <= i < |r| && r[i].Barrier? ==> i < 4 || |r| - 4 <= i
  {
    GBufferHead + DrawLoop(0, renderables) + GBufferTail
  }

  /** A full-screen pass: the target goes from `rest` to render target, one
      group at set 0, one draw, and back to `rest`. */
  function QuadPass(target: TextureId, rest: TextureState, pipeline: PipelineId, group: GroupId): (r: seq<Command>)
    ensures |r| == 7
    ensures r[0].Barrier? && r[0].texture == target && r[0].before == rest && r[0].after == RenderTarget
    ensures Undoes(r[6], r[0])
    ensures forall i :: 0 <= i < |r| && r[i].Barrier? ==> r[i].texture == target
    ensures forall i :: 0 <= i < |r| && r[i].BeginGraphicsPass? ==> r[i].colors == [target] && r[i].depth.None?
  {
    [Barrier(target, rest, RenderTarget), BeginGraphicsPass([target], None), SetPipeline(pipeline),
     SetBindGroup(0, group), DrawIndexed, EndPass, Barrier(target, RenderTarget, rest)]
  }

  /** `OnDrawFrame`'s recording for back buffer `backIndex`. */
  function FrameCommands(backIndex: nat, renderables: nat): (r: seq<Command>)
    ensures |r| == 2 * renderables + 34
    ensures r[|r| - 1] == End && forall i :: 0 <= i < |r| - 1 ==> !r[i].End?
    ensures forall i :: 0 <= i < |r| && r[i].Barrier? && r[i].texture.BackBuffer? ==>
              r[i].texture == BackBuffer(backIndex)
  {
    GBufferSegment(renderables)
    + QuadPass(SsaoOutput, ShaderReadOnly, SsaoPipeline, SsaoGroup)
    + QuadPass(SsaoBlurOutput, ShaderReadOnly, BlurPipeline, BlurGroup)
    + QuadPass(BackBuffer(backIndex), TextureState.Present, CompositionPipeline, CompositionGroup)
    + [End]
  }

  /** A full-screen pass keeps every texture's state, provided its target
      is in `rest` and its group samples only readable textures once the
      target is a render target. */
  lemma QuadPassKeepsStates(textures: imap<TextureId, TextureState>, target: TextureId, rest: TextureState,
                            pipeline: PipelineId, group: GroupId, rhi: RhiType)
    requires target in textures && textures[target] == rest
    requires PipelineLayouts(pipeline) == [GroupLayout(group)]
    requires Readable(textures[target := RenderTarget], Samples(group))
    ensures Run(Begin(textures), QuadPass(target, rest, pipeline, group), rhi) == Success(Begin(textures))
  {
    var c := QuadPass(target, rest, pipeline, group);
    var rt := textures[target := RenderTarget];
    assert rt[target := rest] == textures;
    var s2 := Encoder(rt, InGraphicsPass, None, map[]);
    var s3 := Encoder(rt, InGraphicsPass, Some(pipeline), map[]);
    var s4 := Encoder(rt, InGraphicsPass, Some(pipeline), map[0 := group]);
    ReadableSamplesSuffice(rt, group, rhi);
    assert ReadyToDraw(s4, rhi);
    assert c[7..] == [];
    assert Run(Begin(rt), c[6..], rhi) == Success(Begin(textures)) by { assert c[6..][1..] == c[7..]; }
    assert Run(s4, c[5..], rhi) == Success(Begin(textures)) by { assert c[5..][1..] == c[6..]; }
    assert Run(s4, c[4..], rhi) == Success(Begin(textures)) by { assert c[4..][1..] == c[5..]; }
    assert Run(s3, c[3..], rhi) == Success(Begin(textures)) by { assert c[3..][1..] == c[4..]; }
    assert Run(s2, c[2..], rhi) == Success(Begin(textures)) by { assert c[2..][1..] == c[3..]; }
    assert Run(Begin(rt), c[1..], rhi) == Success(Begin(textures)) by {
      assert [target][0] == target;
      assert c[1..][1..] == c[2..];
    }
  }

  /** The encoder inside the G-buffer pass with the scene group bound. */
  function InGBufferPass(textures: imap<TextureId, TextureState>, bound: map<nat, GroupId>): Encoder {
    Encoder(textures, InGraphicsPass, Some(GBufferPipeline), bound)
  }

  /** The draw loop records, whatever renderable group was bound last. */
  lemma {:induction false} DrawLoopRecords(textures: imap<TextureId, TextureState>, bound: map<nat, GroupId>,
                                           from: nat, renderables: nat, rhi: RhiType)
    requires 0 in bound && bound[0] == SceneGroup
    requires forall i :: from <= i < renderables ==> DiffuseMap(i) in textures && textures[DiffuseMap(i)] == ShaderReadOnly
    ensures Run(InGBufferPass(textures, bound), DrawLoop(from, renderables), rhi).Success?
    ensures var e := Run(InGBufferPass(textures, bound), DrawLoop(from, renderables), rhi).value;
            e.textures == textures && e.pass == InGraphicsPass && e.pipeline == Some(GBufferPipeline)
            && 0 in e.bound && e.bound[0] == SceneGroup
    decreases renderables - from
  {
    var loop := DrawLoop(from, renderables);
    if from < renderables {
      var st := InGBufferPass(textures, bound);
      var b := bound[1 := RenderableGroup(from)];
      var s1 := InGBufferPass(textures, b);
      ReadableSamplesSuffice(textures, RenderableGroup(from), rhi);
      ReadableSamplesSuffice(textures, SceneGroup, rhi);
      assert Step(st, SetBindGroup(1, RenderableGroup(from)), rhi) == Success(s1);
      assert ReadyToDraw(s1, rhi);
      assert loop[2..] == DrawLoop(from + 1, renderables);
      assert loop[1..][1..] == loop[2..];
      DrawLoopRecords(textures, b, from + 1, renderables, rhi);
    }
  }

  /** The textures the G-buffer pass writes, and their states inside it. */
  function GBufferTargets(textures: imap<TextureId, TextureState>): imap<TextureId, TextureState>
    requires GBufferPos in textures && GBufferNormal in textures && GBufferAlbedo in textures && GBufferDepth in textures
  {
    textures[GBufferPos := RenderTarget][GBufferNormal := RenderTarget][GBufferAlbedo := RenderTarget]
            [GBufferDepth := DepthStencilWrite]
  }

  /** The G-buffer attachments are in their between-frames states. */
  predicate GBufferAtRest(m: imap<TextureId, TextureState>) {
    && GBufferPos in m && m[GBufferPos] == ShaderReadOnly
    && GBufferNormal in m && m[GBufferNormal] == ShaderReadOnly
    && GBufferAlbedo in m && m[GBufferAlbedo] == ShaderReadOnly
    && GBufferDepth in m && m[GBufferDepth] == DepthStencilReadonly
  }

  lemma GBufferHeadOpensThePass(m: imap<TextureId, TextureState>, rhi: RhiType)
    requires GBufferAtRest(m)
    ensures Run(Begin(m), GBufferHead, rhi) == Success(InGBufferPass(GBufferTargets(m), map[0 := SceneGroup]))
  {
    var head := GBufferHead;
    var g := GBufferTargets(m);
    var inPass := InGBufferPass(g, map[0 := SceneGroup]);
    var g1 := m[GBufferPos := RenderTarget];
    var g2 := g1[GBufferNormal := RenderTarget];
    var g3 := g2[GBufferAlbedo := RenderTarget];
    var s5 := InGBufferPass(g, map[]);
    assert AllIn(g, [GBufferPos, GBufferNormal, GBufferAlbedo], RenderTarget);
    assert head[7..] == [];
    assert Run(s5, head[6..], rhi) == Success(inPass) by { assert head[6..][1..] == head[7..]; }
    assert Run(s5.(pipeline := None), head[5..], rhi) == Success(inPass) by { assert head[5..][1..] == head[6..]; }
    assert Run(Begin(g), head[4..], rhi) == Success(inPass) by { assert head[4..][1..] == head[5..]; }
    assert Run(Begin(g3), head[3..], rhi) == Success(inPass) by { assert head[3..][1..] == head[4..]; }
    assert Run(Begin(g2), head[2..], rhi) == Success(inPass) by { assert head[2..][1..] == head[3..]; }
    assert Run(Begin(g1), head[1..], rhi) == Success(inPass) by { assert head[1..][1..] == head[2..]; }
  }

  lemma GBufferTailClosesThePass(m: imap<TextureId, TextureState>, e: Encoder, rhi: RhiType)
    requires GBufferAtRest(m)
    requires e.textures == GBufferTargets(m) && e.pass == InGraphicsPass
    ensures Run(e, GBufferTail, rhi) == Success(Begin(m))
  {
    var tail := GBufferTail;
    var g := GBufferTargets(m);
    var h1 := g[GBufferPos := ShaderReadOnly];
    var h2 := h1[GBufferNormal := ShaderReadOnly];
    var h3 := h2[GBufferAlbedo := ShaderReadOnly];
    assert h3[GBufferDepth := DepthStencilReadonly] == m;
    assert tail[5..] == [];
    assert Run(Begin(h3), tail[4..], rhi) == Success(Begin(m)) by { assert tail[4..][1..] == tail[5..]; }
    assert Run(Begin(h2), tail[3..], rhi) == Success(Begin(m)) by { assert tail[3..][1..] == tail[4..]; }
    assert Run(Begin(h1), tail[2..], rhi) == Success(Begin(m)) by { assert tail[2..][1..] == tail[3..]; }
    assert Run(Begin(g), tail[1..], rhi) == Success(Begin(m)) by { assert tail[1..][1..] == tail[2..]; }
  }

  /** The G-buffer segment leaves every texture's state as it found it. */
  lemma GBufferSegmentKeepsStates(m: imap<TextureId, TextureState>, renderables: nat, rhi: RhiType)
    requires GBufferAtRest(m)
    requires forall i :: 0 <= i < renderables ==> DiffuseMap(i) in m && m[DiffuseMap(i)] == ShaderReadOnly
    ensures Run(Begin(m), GBufferSegment(renderables), rhi) == Success(Begin(m))
  {
    var g := GBufferTargets(m);
    var loop := DrawLoop(0, renderables);
    GBufferHeadOpensThePass(m, rhi);
    DrawLoopRecords(g, map[0 := SceneGroup], 0, renderables, rhi);
    var afterLoop := Run(InGBufferPass(g, map[0 := SceneGroup]), loop, rhi).value;
    RunAppend(Begin(m), GBufferHead, loop, rhi);
    GBufferTailClosesThePass(m, afterLoop, rhi);
    RunAppend(Begin(m), GBufferHead + loop, GBufferTail, rhi);
  }

  /** Every texture the frame touches, except the back buffer, is in its
      between-frames state. */
  predicate AtFrameStart(m: imap<TextureId, TextureState>, renderables: nat) {
    && GBufferAtRest(m)
    && SsaoOutput in m && m[SsaoOutput] == ShaderReadOnly
    && SsaoBlurOutput in m && m[SsaoBlurOutput] == ShaderReadOnly
    && Noise in m && m[Noise] == ShaderReadOnly
    && forall i :: 0 <= i < renderables ==> DiffuseMap(i) in m && m[DiffuseMap(i)] == ShaderReadOnly
  }

  lemma FrameTexturesAreAtFrameStart(renderables: nat)
    ensures AtFrameStart(FrameTextures(renderables), renderables)
    ensures forall b: nat :: BackBuffer(b) in FrameTextures(renderables) <==> b < BackBufferCount
    ensures forall b: nat :: b < BackBufferCount ==> FrameTextures(renderables)[BackBuffer(b)] == TextureState.Present
  {
  }

  /** Changing a texture that is not listed keeps a list readable. */
  lemma ReadableAfterOtherUpdate(m: imap<TextureId, TextureState>, ts: seq<TextureId>, t: TextureId, s: TextureState)
    requires Readable(m, ts) && t !in ts
    ensures Readable(m[t := s], ts)
  {
    forall i | 0 <= i < |ts| ensures ts[i] in m[t := s] && m[t := s][ts[i]] == ShaderReadOnly {
      assert ts[i] != t;
    }
  }

  /** The textures the full-screen passes sample, all readable at frame start. */
  lemma FrameStartIsReadable(m: imap<TextureId, TextureState>, renderables: nat)
    requires AtFrameStart(m, renderables)
    ensures Readable(m, Samples(SsaoGroup)) && Readable(m, Samples(BlurGroup)) && Readable(m, Samples(CompositionGroup))
  {
  }

  /** The SSAO pass keeps every state. */
  lemma SsaoPassKeepsStates(m: imap<TextureId, TextureState>, renderables: nat, rhi: RhiType)
    requires AtFrameStart(m, renderables)
    ensures Run(Begin(m), QuadPass(SsaoOutput, ShaderReadOnly, SsaoPipeline, SsaoGroup), rhi) == Success(Begin(m))
  {
    FrameStartIsReadable(m, renderables);
    ReadableAfterOtherUpdate(m, Samples(SsaoGroup), SsaoOutput, RenderTarget);
    QuadPassKeepsStates(m, SsaoOutput, ShaderReadOnly, SsaoPipeline, SsaoGroup, rhi);
  }

  /** The blur pass keeps every state. */
  lemma BlurPassKeepsStates(m: imap<TextureId, TextureState>, renderables: nat, rhi: RhiType)
    requires AtFrameStart(m, renderables)
    ensures Run(Begin(m), QuadPass(SsaoBlurOutput, ShaderReadOnly, BlurPipeline, BlurGroup), rhi) == Success(Begin(m))
  {
    FrameStartIsReadable(m, renderables);
    ReadableAfterOtherUpdate(m, Samples(BlurGroup), SsaoBlurOutput, RenderTarget);
    QuadPassKeepsStates(m, SsaoBlurOutput, ShaderReadOnly, BlurPipeline, BlurGroup, rhi);
  }

  /** The composition pass keeps every state, the back buffer's included. */
  lemma CompositionPassKeepsStates(m: imap<TextureId, TextureState>, backIndex: nat, renderables: nat, rhi: RhiType)
    requires AtFrameStart(m, renderables)
    requires BackBuffer(backIndex) in m && m[BackBuffer(backIndex)] == TextureState.Present
    ensures Run(Begin(m), QuadPass(BackBuffer(backIndex), TextureState.Present, CompositionPipeline, CompositionGroup), rhi)
            == Success(Begin(m))
  {
    FrameStartIsReadable(m, renderables);
    ReadableAfterOtherUpdate(m, Samples(CompositionGroup), BackBuffer(backIndex), RenderTarget);
    QuadPassKeepsStates(m, BackBuffer(backIndex), TextureState.Present, CompositionPipeline, CompositionGroup, rhi);
  }

  /** A frame from any state at frame start records without a violation,
      ends the encoder and leaves every texture's state as it found it. */
  lemma FrameKeepsStates(m: imap<TextureId, TextureState>, backIndex: nat, renderables: nat, rhi: RhiType)
    requires AtFrameStart(m, renderables)
    requires BackBuffer(backIndex) in m && m[BackBuffer(backIndex)] == TextureState.Present
    ensures Run(Begin(m), FrameCommands(backIndex, renderables), rhi) == Success(Encoder(m, Ended, None, map[]))
  {
    var s := Begin(m);
    var g := GBufferSegment(renderables);
    var ssao := QuadPass(SsaoOutput, ShaderReadOnly, SsaoPipeline, SsaoGroup);
    var blur := QuadPass(SsaoBlurOutput, ShaderReadOnly, BlurPipeline, BlurGroup);
    var comp := QuadPass(BackBuffer(backIndex), TextureState.Present, CompositionPipeline, CompositionGroup);
    GBufferSegmentKeepsStates(m, renderables, rhi);
    SsaoPassKeepsStates(m, renderables, rhi);
    BlurPassKeepsStates(m, renderables, rhi);
    CompositionPassKeepsStates(m, backIndex, renderables, rhi);
    RunThen(s, s, g, ssao, rhi);
    RunThen(s, s, g + ssao, blur, rhi);
    RunThen(s, s, g + ssao + blur, comp, rhi);
    RunThen(s, s, g + ssao + blur + comp, [End], rhi);
    EndEndsRecording(s, rhi);
    assert FrameCommands(backIndex, renderables) == g + ssao + blur + comp + [End];
  }

  /** One frame for back buffer `backIndex` < `backBufferCount` records
      without a violation, ends the encoder, and leaves every texture in the
      state it started the frame in. */
  lemma FrameReturnsToStartStates(backIndex: nat, renderables: nat, rhi: RhiType)
    requires backIndex < BackBufferCount
    ensures Run(Begin(FrameTextures(renderables)), FrameCommands(backIndex, renderables), rhi)
            == Success(Encoder(FrameTextures(renderables), Ended, None, map[]))
  {
    FrameTexturesAreAtFrameStart(renderables);
    FrameKeepsStates(FrameTextures(renderables), backIndex, renderables, rhi);
  }

  /** A back-buffer index outside the sample's two-element arrays names no
      tracked texture: the composition pass's first barrier fails. */
  lemma BackIndexOutOfRangeFails(backIndex: nat, renderables: nat, rhi: RhiType)
    requires backIndex >= BackBufferCount
    ensures Run(Begin(FrameTextures(renderables)), FrameCommands(backIndex, renderables), rhi)
            == Failure(UntrackedTexture(BackBuffer(backIndex)))
  {
    var m := FrameTextures(renderables);
    FrameTexturesAreAtFrameStart(renderables);
    var s := Begin(m);
    var g := GBufferSegment(renderables);
    var ssao := QuadPass(SsaoOutput, ShaderReadOnly, SsaoPipeline, SsaoGroup);
    var blur := QuadPass(SsaoBlurOutput, ShaderReadOnly, BlurPipeline, BlurGroup);
    var comp := QuadPass(BackBuffer(backIndex), TextureState.Present, CompositionPipeline, CompositionGroup);
    GBufferSegmentKeepsStates(m, renderables, rhi);
    SsaoPassKeepsStates(m, renderables, rhi);
    BlurPassKeepsStates(m, renderables, rhi);
    assert Run(s, comp, rhi) == Failure(UntrackedTexture(BackBuffer(backIndex)));
    RunThen(s, s, g, ssao, rhi);
    RunThen(s, s, g + ssao, blur, rhi);
    RunThen(s, s, g + ssao + blur, comp, rhi);
    RunStopsAtFailure(s, g + ssao + blur + comp, [End], rhi);
    assert FrameCommands(backIndex, renderables) == g + ssao + blur + comp + [End];
  }

  /** Leaving out a full-screen pass's first barrier makes the pass begin
      on a texture that is not a render target. */
  lemma MissingBarrierFails(textures: imap<TextureId, TextureState>, target: TextureId, rest: TextureState,
                            pipeline: PipelineId, group: GroupId, rhi: RhiType)
    requires target in textures && textures[target] == rest && rest != RenderTarget
    ensures Run(Begin(textures), QuadPass(target, rest, pipeline, group)[1..], rhi)
            == Failure(AttachmentNotWritable(target))
  {
    assert [target][0] == target;
    assert !AllIn(textures, [target], RenderTarget);
  }
}

/** The sample's CPU-side synchronisation across frames: per frame slot a
    fence and two binary semaphores, used in `OnDrawFrame`'s order, and the
    frame-slot ring. */
module SsaoSync {
  import opened Wrappers

  const BackBufferCount: nat := 2
  const Uint8Limit: nat := 0x100

  /** A fence or binary semaphore: signalled, unsignalled with a signal
      pending on submitted work, or unsignalled with nothing pending. */
  datatype Signal = Signalled | Pending | Unsignalled

  /** Per slot: the in-flight fence, the back-buffer-ready semaphore and the
      render-finished semaphore. */
  datatype Slot = Slot(fence: Signal, ready: Signal, finished: Signal)

  datatype SyncError =
    | WaitNeverSignalled(slot: nat)
    | SignalAlreadyPending(slot: nat)

  datatype Sync = Sync(slots: seq<Slot>, nextFrameIndex: nat)

  /** `CreateSyncObjects` with fences created in state `fenceSignalled`. */
  function Created(fenceSignalled: bool): (s: Sync)
    ensures |s.slots| == BackBufferCount && s.nextFrameIndex == 0
  {
    var f := if fenceSignalled then Signalled else Unsignalled;
    Sync([Slot(f, Unsignalled, Unsignalled), Slot(f, Unsignalled, Unsignalled)], 0)
  }

  /** The ring step `(i + 1) % backBufferCount`, through a `uint8_t`. */
  function NextIndex(i: nat): (j: nat)
    ensures j < BackBufferCount
    ensures i < BackBufferCount ==> j == (i + 1) % BackBufferCount
  {
    ((i + 1) % Uint8Limit) % BackBufferCount
  }

  /** One `OnDrawFrame` for slot `i`, in call order:
      - the fence wait returns only if the fence is signalled or has a
        signal pending; it leaves the fence signalled and the reset then
        unsignals it;
      - the acquire arms `ready`, which must have no signal pending;
      - the submit consumes `ready` (just armed), arms `finished`, which
        must have no signal pending, and arms the fence (just reset);
      - the present consumes `finished` (just armed);
      - the ring advances. */
  function Frame(s: Sync): (r: Result<Sync, SyncError>)
    requires s.nextFrameIndex < |s.slots|
    ensures r.Success? ==> |r.value.slots| == |s.slots| && r.value.nextFrameIndex == NextIndex(s.nextFrameIndex)
    ensures r.Success? ==> forall j :: 0 <= j < |s.slots| && j != s.nextFrameIndex ==> r.value.slots[j] == s.slots[j]
    ensures r.Success? <==> var slot := s.slots[s.nextFrameIndex];
                            slot.fence != Unsignalled && slot.ready == Unsignalled && slot.finished == Unsignalled
  {
    var i := s.nextFrameIndex;
    var slot := s.slots[i];
    if slot.fence == Unsignalled then Failure(WaitNeverSignalled(i))
    else if slot.ready != Unsignalled || slot.finished != Unsignalled then Failure(SignalAlreadyPending(i))
    else Success(Sync(s.slots[i := Slot(Pending, Unsignalled, Unsignalled)], NextIndex(i)))
  }

  /** Between frames: every semaphore has been consumed and every fence is
      signalled or will be by submitted work. */
  predicate Quiescent(s: Sync) {
    && |s.slots| == BackBufferCount && s.nextFrameIndex < BackBufferCount
    && forall j :: 0 <= j < |s.slots| ==>
         s.slots[j].fence != Unsignalled && s.slots[j].ready == Unsignalled && s.slots[j].finished == Unsignalled
  }

  /** A frame from a quiescent state succeeds, leaves its slot's fence
      pending, and is quiescent again. */
  lemma FramePreservesQuiescence(s: Sync)
    requires Quiescent(s)
    ensures Frame(s).Success? && Quiescent(Frame(s).value)
    ensures Frame(s).value.slots[s.nextFrameIndex].fence == Pending
  {
  }

  /** `n` frames in a row. */
  function Frames(s: Sync, n: nat): Result<Sync, SyncError>
    requires Quiescent(s)
    decreases n
  {
    if n == 0 then Success(s)
    else
      FramePreservesQuiescence(s);
      Frames(Frame(s).value, n - 1)
  }

  /** With fences created signalled, any number of frames run without a
      wait that never returns, and the ring index after `n` frames is
      `n mod backBufferCount`. */
  lemma {:induction false} FramesNeverBlock(n: nat)
    ensures Quiescent(Created(true))
    ensures Frames(Created(true), n).Success?
    ensures Quiescent(Frames(Created(true), n).value)
    ensures Frames(Created(true), n).value.nextFrameIndex == n % BackBufferCount
  {
    FramesFrom(Created(true), n);
  }

  lemma {:induction false} FramesFrom(s: Sync, n: nat)
    requires Quiescent(s)
    ensures Frames(s, n).Success? && Quiescent(Frames(s, n).value)
    ensures Frames(s, n).value.nextFrameIndex == (s.nextFrameIndex + n) % BackBufferCount
    decreases n
  {
    if n > 0 {
      FramePreservesQuiescence(s);
      var t := Frame(s).value;
      FramesFrom(t, n - 1);
      assert t.nextFrameIndex == (s.nextFrameIndex + 1) % BackBufferCount;
    }
  }

  /** Fences created unsignalled would make the first frame's wait never
      return. */
  lemma UnsignalledFencesBlock()
    ensures Frame(Created(false)) == Failure(WaitNeverSignalled(0))
  {
  }
}
