/** The RHI samples' `Application` base: choosing the backend from the
    `-rhi` argument, deriving the shader compile options from the backend,
    and the order in which `Run` drives the sample's hooks. The window,
    the argument parser and the shader compiler are parameters. */
module SampleApplication {
  import opened Wrappers
  import opened Rhi

  const DefaultWidth: nat := 1024
  const DefaultHeight: nat := 768

  datatype Application = Application(rhiType: RhiType, name: string, width: nat, height: nat)

  /** The constructor: Vulkan, 1024 by 768. */
  function NewApplication(name: string): (app: Application)
    ensures app.rhiType == Vulkan && app.name == name
    ensures app.width == DefaultWidth && app.height == DefaultHeight
  {
    Application(Vulkan, name, DefaultWidth, DefaultHeight)
  }

  // ---------------------------------------------------------------------
  // Backend selection

  /** The entries of `RHI_MAP`. */
  const RhiNames: seq<(string, RhiType)> := [("DirectX12", DirectX12), ("Vulkan", Vulkan), ("Metal", Metal)]

  /** The name under which `RHI_MAP` lists a backend. */
  function RhiName(t: RhiType): (name: string)
    ensures (name, t) in RhiNames
  {
    match t
    case DirectX12 => "DirectX12"
    case Vulkan => "Vulkan"
    case Metal => "Metal"
  }

  /** `RHI_MAP.find(rhiString)`, falling back to DirectX 12 when the string
      is not a key; keys match exactly, case included. */
  function SelectRhi(rhiString: string): (t: RhiType)
    ensures (exists u :: RhiName(u) == rhiString) ==> RhiName(t) == rhiString
    ensures (forall u :: RhiName(u) != rhiString) ==> t == DirectX12
  {
    if rhiString == "Vulkan" then Vulkan
    else if rhiString == "Metal" then Metal
    else DirectX12
  }

  /** Every backend is selected by its own name, so the names are distinct. */
  lemma SelectRhiInvertsRhiName(t: RhiType)
    ensures SelectRhi(RhiName(t)) == t
  {
  }

  /** The fallback is not the constructor's default: a misspelt or
      lower-case name selects DirectX 12, not Vulkan. */
  lemma FallbackDiffersFromDefault(name: string)
    ensures SelectRhi("vulkan") == DirectX12 != NewApplication(name).rhiType
  {
    assert forall u :: RhiName(u) != "vulkan" by {
      assert "vulkan"[0] == 'v';
    }
  }

  // ---------------------------------------------------------------------
  // Shader compile options

  /** `Render::ShaderByteCodeType`. */
  datatype ByteCodeType = Dxil | Spirv | Mbc

  /** The byte code each backend consumes. */
  function ByteCodeFor(t: RhiType): (b: ByteCodeType)
    ensures b == Dxil <==> t == DirectX12
    ensures b == Spirv <==> t == Vulkan
    ensures b == Mbc <==> t == Metal
  {
    match t
    case DirectX12 => Dxil
    case Vulkan => Spirv
    case Metal => Mbc
  }

  /** Distinct backends compile to distinct byte code. */
  lemma ByteCodeForIsInjective(t: RhiType, u: RhiType)
    ensures ByteCodeFor(t) == ByteCodeFor(u) <==> t == u
  {
  }

  datatype CompileOptions = CompileOptions(byteCodeType: ByteCodeType, includePaths: seq<string>, withDebugInfo: bool)

  /** The options `CompileShader` builds: the extra include paths after the
      ones the options already held, in their given order; the backend's byte
      code; no debug information. */
  function OptionsFor(t: RhiType, defaultIncludePaths: seq<string>, includePaths: seq<string>): (o: CompileOptions)
    ensures |o.includePaths| == |defaultIncludePaths| + |includePaths|
    ensures o.includePaths[..|defaultIncludePaths|] == defaultIncludePaths
    ensures o.includePaths[|defaultIncludePaths|..] == includePaths
    ensures o.byteCodeType == ByteCodeFor(t) && !o.withDebugInfo
  {
    var paths := if |includePaths| == 0 then defaultIncludePaths else defaultIncludePaths + includePaths;
    CompileOptions(ByteCodeFor(t), paths, false)
  }

  /** `ShaderCompileInput`. */
  datatype ShaderInput = ShaderInput(source: string, entryPoint: string, stage: nat)

  datatype CompileOutput = CompileOutput(success: bool, byteCode: seq<int>, errorInfo: string)

  datatype CompileError = CompileFailed(fileName: string, entryPoint: string, errorInfo: string)

  /** `CompileShader`: the file's text and the compiler are parameters; a
      failed compile is the assertion that follows it. */
  function CompileShader(app: Application, fileName: string, source: string, entryPoint: string, stage: nat,
                         defaultIncludePaths: seq<string>, includePaths: seq<string>,
                         compiler: (ShaderInput, CompileOptions) -> CompileOutput)
    : (r: Result<seq<int>, CompileError>)
    ensures var out := compiler(ShaderInput(source, entryPoint, stage),
                                OptionsFor(app.rhiType, defaultIncludePaths, includePaths));
            && (r.Success? <==> out.success)
            && (r.Success? ==> r.value == out.byteCode)
            && (r.Failure? ==> r.error == CompileFailed(fileName, entryPoint, out.errorInfo))
  {
    var out := compiler(ShaderInput(source, entryPoint, stage), OptionsFor(app.rhiType, defaultIncludePaths, includePaths));
    if out.success then Success(out.byteCode) else Failure(CompileFailed(fileName, entryPoint, out.errorInfo))
  }

  // ---------------------------------------------------------------------
  // Run

  /** What the command-line parser yields on success: `-w` and `-h` are
      optional, `-rhi` is required. */
  datatype Arguments = Arguments(width: Option<nat>, height: Option<nat>, rhi: string)

  /** The sample hooks `Run` calls. */
  datatype Hook = OnCreate | OnDrawFrame | OnDestroy

  /** Created once, drawn any number of times, destroyed once. */
  predicate Lifecycle(hooks: seq<Hook>) {
    && |hooks| >= 2
    && hooks[0] == OnCreate && hooks[|hooks| - 1] == OnDestroy
    && forall i :: 0 < i < |hooks| - 1 ==> hooks[i] == OnDrawFrame
  }

  /** `Run`: a failed parse returns -1 before any hook; otherwise the backend
      and size are taken from the arguments, and the hooks run as create,
      one draw per loop turn while the window stays open (`framesUntilClose`
      turns), and destroy; the result is 0. */
  method Run(app: Application, parsed: Option<Arguments>, framesUntilClose: nat)
    returns (exitCode: int, app': Application, hooks: seq<Hook>)
    ensures exitCode == -1 <==> parsed.None?
    ensures exitCode == 0 <==> parsed.Some?
    ensures parsed.None? ==> hooks == [] && app' == app
    ensures parsed.Some? ==> Lifecycle(hooks) && |hooks| == framesUntilClose + 2
    ensures parsed.Some? ==> app'.rhiType == SelectRhi(parsed.value.rhi) && app'.name == app.name
    ensures parsed.Some? ==> app'.width == (if parsed.value.width.Some? then parsed.value.width.value else app.width)
    ensures parsed.Some? ==> app'.height == (if parsed.value.height.Some? then parsed.value.height.value else app.height)
  {
    if parsed.None? {
      return -1, app, [];
    }
    var args := parsed.value;
    app' := app.(rhiType := SelectRhi(args.rhi));
    if args.width.Some? {
      app' := app'.(width := args.width.value);
    }
    if args.height.Some? {
      app' := app'.(height := args.height.value);
    }
    hooks := [OnCreate];
    var drawn := 0;
    while drawn < framesUntilClose
      invariant drawn <= framesUntilClose
      invariant |hooks| == drawn + 1 && hooks[0] == OnCreate
      invariant forall i :: 0 < i < |hooks| ==> hooks[i] == OnDrawFrame
    {
      hooks := hooks + [OnDrawFrame];
      drawn := drawn + 1;
    }
    hooks := hooks + [OnDestroy];
    exitCode := 0;
  }
}
