/** `Core::Uri` and `Core::AssetUriParser`: a URI is a string; its protocol
    is read from the text before `://`, its content is the text after the
    first `://`, and an asset URI's content is classified by prefix and
    resolved to a file under a plugin or asset directory, with `.expa`
    appended. The directories are opaque: only which one is chosen and the
    relative part below it are modelled. */
module UriParsing {
  import opened Wrappers
  import Text

  const Separator: string := "://"

  datatype Uri = Uri(value: string)

  /** `UriProtocol`: `asset`, or `max` for "no protocol". */
  datatype UriProtocol = Asset | Max

  datatype UriError =
    | UnknownScheme(scheme: string)
    | NotAnAssetUri
    | BadAssetUri

  /** `Uri::operator==`. */
  predicate Same(a: Uri, b: Uri) {
    a.value == b.value
  }

  /** `Uri::Empty`. */
  predicate Empty(u: Uri) {
    u.value == ""
  }

  /** Two URIs are equal exactly when they hold the same text, and a URI is
      empty exactly when its text has no characters. */
  lemma SameIsTextEquality(a: Uri, b: Uri)
    ensures Same(a, b) <==> a == b
    ensures Empty(a) <==> |a.value| == 0
  {
  }

  /** `Uri::Protocal`: a text that does not split into exactly two pieces
      at `://` has protocol `max`; otherwise the first piece is looked up in
      a table holding only `"asset"`, and any other scheme makes the lookup
      throw. */
  function Protocol(u: Uri): (r: Result<UriProtocol, UriError>)
    ensures r == Success(Max) <==> |Text.Split(u.value, Separator)| != 2
    ensures r == Success(Asset) <==>
              |Text.Split(u.value, Separator)| == 2 && Text.Split(u.value, Separator)[0] == "asset"
    ensures r.Failure? ==> r.error == UnknownScheme(Text.BeforeFirst(u.value, Separator))
  {
    var splits := Text.Split(u.value, Separator);
    if |splits| != 2 then Success(Max)
    else
      Text.AfterFirstOfTwoPieces(u.value, Separator);
      if splits[0] == "asset" then Success(Asset) else Failure(UnknownScheme(splits[0]))
  }

  /** A text without `://` has no protocol. */
  lemma NoSeparatorMeansNoProtocol(u: Uri)
    requires !Text.Contains(u.value, Separator)
    ensures Protocol(u) == Success(Max)
  {
    Text.SplitOfSeparatorFree(u.value, Separator);
  }

  /** `Uri::Content`: the text after the first `://`, or empty when there is
      none. */
  function Content(u: Uri): (c: string)
    ensures Text.Contains(u.value, Separator) ==> u.value == Text.BeforeFirst(u.value, Separator) + Separator + c
    ensures !Text.Contains(u.value, Separator) ==> c == ""
  {
    Text.BeforeAndAfterFirstRebuild(u.value, Separator);
    Text.AfterFirst(u.value, Separator)
  }

  /** `"asset://" + path` with no further `://` has protocol `asset` and
      content `path`. */
  lemma AssetUriRoundTrip(path: string)
    requires !Text.Contains(path, Separator)
    ensures Protocol(Uri("asset://" + path)) == Success(Asset)
    ensures Content(Uri("asset://" + path)) == path
  {
    var s := "asset://" + path;
    assert Text.OccursAt(s, Separator, 5);
    var k := Text.Find(s, Separator).value;
    assert s[k..k + 3][0] == ':';
    assert k == 5;
    assert s[..5] == "asset" && s[8..] == path;
    Text.SplitOfSeparatorFree(path, Separator);
    assert Text.Split(s, Separator) == ["asset", path];
  }

  // ---------------------------------------------------------------------
  // Asset URIs

  datatype AssetUriParser = AssetUriParser(content: string)

  /** The constructor: keeps the content and asserts the protocol is
      `asset`; a protocol lookup that throws fails the same way. */
  function NewAssetUriParser(u: Uri): (r: Result<AssetUriParser, UriError>)
    ensures r.Success? <==> Protocol(u) == Success(Asset)
    ensures r.Success? ==> r.value.content == Content(u)
  {
    var p :- Protocol(u);
    if p != Asset then Failure(NotAnAssetUri) else Success(AssetUriParser(Content(u)))
  }

  const EnginePrefix: string := "Engine/"
  const ProjectPrefix: string := "Project/"
  const EnginePluginPrefix: string := "Engine/Plugin/"
  const ProjectPluginPrefix: string := "Project/Plugin/"
  const EngineTestPrefix: string := "Engine/Test/"

  predicate IsEngineAsset(p: AssetUriParser) {
    Text.MatchesPrefixThenAnything(p.content, EnginePrefix)
  }

  predicate IsProjectAsset(p: AssetUriParser) {
    Text.MatchesPrefixThenAnything(p.content, ProjectPrefix)
  }

  predicate IsEnginePluginAsset(p: AssetUriParser) {
    Text.MatchesPrefixThenAnything(p.content, EnginePluginPrefix)
  }

  predicate IsProjectPluginAsset(p: AssetUriParser) {
    Text.MatchesPrefixThenAnything(p.content, ProjectPluginPrefix)
  }

  /** Present only in test builds. */
  predicate IsEngineTestAsset(p: AssetUriParser) {
    Text.MatchesPrefixThenAnything(p.content, EngineTestPrefix)
  }

  /** The plugin and test classes refine the plain ones, and engine and
      project assets never overlap. */
  lemma PrefixClassesNest(p: AssetUriParser)
    ensures IsEnginePluginAsset(p) ==> IsEngineAsset(p)
    ensures IsProjectPluginAsset(p) ==> IsProjectAsset(p)
    ensures IsEngineTestAsset(p) ==> IsEngineAsset(p)
    ensures !(IsEngineAsset(p) && IsProjectAsset(p))
    ensures !(IsEnginePluginAsset(p) && IsEngineTestAsset(p))
  {
    if IsEnginePluginAsset(p) {
      Text.LongerPrefixMatchImplies(p.content, EnginePrefix, EnginePluginPrefix);
    }
    if IsProjectPluginAsset(p) {
      Text.LongerPrefixMatchImplies(p.content, ProjectPrefix, ProjectPluginPrefix);
    }
    if IsEngineTestAsset(p) {
      Text.LongerPrefixMatchImplies(p.content, EnginePrefix, EngineTestPrefix);
    }
    assert IsEngineAsset(p) ==> p.content[0] == 'E' by {
      if IsEngineAsset(p) {
        assert p.content[0] == p.content[..|EnginePrefix|][0];
      }
    }
    assert IsProjectAsset(p) ==> p.content[0] == 'P' by {
      if IsProjectAsset(p) {
        assert p.content[0] == p.content[..|ProjectPrefix|][0];
      }
    }
    assert IsEnginePluginAsset(p) ==> p.content[7] == 'P' by {
      if IsEnginePluginAsset(p) {
        assert p.content[7] == p.content[..|EnginePluginPrefix|][7];
      }
    }
    assert IsEngineTestAsset(p) ==> p.content[7] == 'T' by {
      if IsEngineTestAsset(p) {
        assert p.content[7] == p.content[..|EngineTestPrefix|][7];
      }
    }
  }

  /** The directories of `Paths`, left opaque. */
  datatype AssetDir =
    | EngineTestDir
    | EnginePluginAssetDir(plugin: string)
    | ProjectPluginAssetDir(plugin: string)
    | EngineAssetDir
    | ProjectAssetDir

  /** `dir / relative`. */
  datatype AssetPath = AssetPath(dir: AssetDir, relative: string)

  const AssetExtension: string := ".expa"

  /** The file below a plugin's asset directory: the plugin name is the text
      before the first `/` of what follows the plugin prefix, the path below
      it the text after. */
  function PluginPath(content: string, prefix: string, isEngine: bool): AssetPath {
    var pathWithPluginName := Text.AfterFirst(content, prefix);
    var plugin := Text.BeforeFirst(pathWithPluginName, "/");
    var dir := if isEngine then EnginePluginAssetDir(plugin) else ProjectPluginAssetDir(plugin);
    AssetPath(dir, Text.AfterFirst(pathWithPluginName, "/"))
  }

  /** `AssetUriParser::AbsoluteFilePath` (before `Path::Absolute`): the
      branches in source order, the test-asset branch only when
      `buildTest`, and `.expa` appended to whatever was chosen; content
      matching no branch is a "bad asset uri" assertion. */
  function AbsoluteFilePath(p: AssetUriParser, buildTest: bool): (r: Result<AssetPath, UriError>)
    ensures r.Success? <==> IsEngineAsset(p) || IsProjectAsset(p)
    ensures r.Success? ==> |r.value.relative| >= |AssetExtension|
                           && r.value.relative[|r.value.relative| - |AssetExtension|..] == AssetExtension
    ensures r.Success? && IsEnginePluginAsset(p) && !(buildTest && IsEngineTestAsset(p)) ==>
              r.value.dir.EnginePluginAssetDir?
    ensures r.Success? && IsProjectPluginAsset(p) ==> r.value.dir.ProjectPluginAssetDir?
    ensures r.Success? && buildTest && IsEngineTestAsset(p) ==> r.value.dir == EngineTestDir
    ensures r.Success? && IsEngineAsset(p) && !IsEnginePluginAsset(p) && !(buildTest && IsEngineTestAsset(p)) ==>
              r.value.dir == EngineAssetDir
    ensures r.Success? && IsProjectAsset(p) && !IsProjectPluginAsset(p) ==> r.value.dir == ProjectAssetDir
  {
    PrefixClassesNest(p);
    var path :=
      if buildTest && IsEngineTestAsset(p) then
        Success(AssetPath(EngineTestDir, Text.AfterFirst(p.content, EngineTestPrefix)))
      else if IsEnginePluginAsset(p) then Success(PluginPath(p.content, EnginePluginPrefix, true))
      else if IsProjectPluginAsset(p) then Success(PluginPath(p.content, ProjectPluginPrefix, false))
      else if IsEngineAsset(p) then Success(AssetPath(EngineAssetDir, Text.AfterFirst(p.content, EnginePrefix)))
      else if IsProjectAsset(p) then Success(AssetPath(ProjectAssetDir, Text.AfterFirst(p.content, ProjectPrefix)))
      else Failure(BadAssetUri);
    var chosen :- path;
    Success(chosen.(relative := chosen.relative + AssetExtension))
  }

  /** The text after a prefix that `s` starts with. */
  lemma AfterLeadingPrefix(prefix: string, rest: string)
    requires |prefix| > 0
    ensures Text.AfterFirst(prefix + rest, prefix) == rest
  {
    var s := prefix + rest;
    assert Text.OccursAt(s, prefix, 0);
    assert s[|prefix|..] == rest;
  }

  /** Splitting `name + "/" + below` at its first `/`, when `name` has no `/`. */
  lemma SplitAtFirstSlash(name: string, below: string)
    requires forall i :: 0 <= i < |name| ==> name[i] != '/'
    ensures Text.BeforeFirst(name + "/" + below, "/") == name
    ensures Text.AfterFirst(name + "/" + below, "/") == below
  {
    var s := name + "/" + below;
    assert Text.OccursAt(s, "/", |name|);
    var k := Text.Find(s, "/").value;
    assert s[k..k + 1][0] == '/';
    assert k == |name|;
    assert s[..|name|] == name;
    assert s[|name| + 1..] == below;
  }

  /** No character of `s` ends a line. */
  predicate OneLine(s: string) {
    forall i :: 0 <= i < |s| ==> !Text.IsLineTerminator(s[i])
  }

  /** An engine-plugin asset resolves below that plugin's asset directory,
      even though it also looks like a plain engine asset: the plugin test
      comes first. */
  lemma EnginePluginAssetResolvesToItsPlugin(plugin: string, below: string, buildTest: bool)
    requires forall i :: 0 <= i < |plugin| ==> plugin[i] != '/'
    requires OneLine(plugin + "/" + below)
    ensures IsEngineAsset(AssetUriParser(EnginePluginPrefix + plugin + "/" + below))
    ensures AbsoluteFilePath(AssetUriParser(EnginePluginPrefix + plugin + "/" + below), buildTest)
            == Success(AssetPath(EnginePluginAssetDir(plugin), below + AssetExtension))
  {
    var rest := plugin + "/" + below;
    var content := EnginePluginPrefix + rest;
    assert content == EnginePluginPrefix + plugin + "/" + below;
    var p := AssetUriParser(content);
    assert content[..|EnginePluginPrefix|] == EnginePluginPrefix;
    forall i | |EnginePluginPrefix| <= i < |content| ensures !Text.IsLineTerminator(content[i]) {
      assert content[i] == rest[i - |EnginePluginPrefix|];
    }
    assert IsEnginePluginAsset(p);
    assert !IsEngineTestAsset(p) by {
      assert content[7] == 'P';
    }
    PrefixClassesNest(p);
    AfterLeadingPrefix(EnginePluginPrefix, rest);
    SplitAtFirstSlash(plugin, below);
  }

  /** A plain engine asset that is neither a plugin nor a test asset
      resolves below the engine asset directory. */
  lemma EngineAssetResolvesToEngineDir(below: string, buildTest: bool)
    requires OneLine(below)
    requires !Text.IsPrefix("Plugin/", below) && !Text.IsPrefix("Test/", below)
    ensures AbsoluteFilePath(AssetUriParser(EnginePrefix + below), buildTest)
            == Success(AssetPath(EngineAssetDir, below + AssetExtension))
  {
    var content := EnginePrefix + below;
    var p := AssetUriParser(content);
    assert content[..|EnginePrefix|] == EnginePrefix;
    forall i | |EnginePrefix| <= i < |content| ensures !Text.IsLineTerminator(content[i]) {
      assert content[i] == below[i - |EnginePrefix|];
    }
    assert IsEngineAsset(p);
    assert !IsEnginePluginAsset(p) by {
      assert EnginePluginPrefix == EnginePrefix + "Plugin/";
      Text.PrefixAfterCommonHead(EnginePrefix, "Plugin/", below);
    }
    assert !IsEngineTestAsset(p) by {
      assert EngineTestPrefix == EnginePrefix + "Test/";
      Text.PrefixAfterCommonHead(EnginePrefix, "Test/", below);
    }
    PrefixClassesNest(p);
    AfterLeadingPrefix(EnginePrefix, below);
  }

  /** A project-plugin asset resolves below that plugin's asset directory;
      no engine branch can take it first, whatever the build. */
  lemma ProjectPluginAssetResolvesToItsPlugin(plugin: string, below: string, buildTest: bool)
    requires forall i :: 0 <= i < |plugin| ==> plugin[i] != '/'
    requires OneLine(plugin + "/" + below)
    ensures IsProjectAsset(AssetUriParser(ProjectPluginPrefix + plugin + "/" + below))
    ensures AbsoluteFilePath(AssetUriParser(ProjectPluginPrefix + plugin + "/" + below), buildTest)
            == Success(AssetPath(ProjectPluginAssetDir(plugin), below + AssetExtension))
  {
    var rest := plugin + "/" + below;
    var content := ProjectPluginPrefix + rest;
    assert content == ProjectPluginPrefix + plugin + "/" + below;
    var p := AssetUriParser(content);
    assert content[..|ProjectPluginPrefix|] == ProjectPluginPrefix;
    forall i | |ProjectPluginPrefix| <= i < |content| ensures !Text.IsLineTerminator(content[i]) {
      assert content[i] == rest[i - |ProjectPluginPrefix|];
    }
    assert IsProjectPluginAsset(p);
    PrefixClassesNest(p);
    AfterLeadingPrefix(ProjectPluginPrefix, rest);
    SplitAtFirstSlash(plugin, below);
  }

  /** A plain project asset that is not a plugin asset resolves below the
      project asset directory. */
  lemma ProjectAssetResolvesToProjectDir(below: string, buildTest: bool)
    requires OneLine(below)
    requires !Text.IsPrefix("Plugin/", below)
    ensures AbsoluteFilePath(AssetUriParser(ProjectPrefix + below), buildTest)
            == Success(AssetPath(ProjectAssetDir, below + AssetExtension))
  {
    var content := ProjectPrefix + below;
    var p := AssetUriParser(content);
    assert content[..|ProjectPrefix|] == ProjectPrefix;
    forall i | |ProjectPrefix| <= i < |content| ensures !Text.IsLineTerminator(content[i]) {
      assert content[i] == below[i - |ProjectPrefix|];
    }
    assert IsProjectAsset(p);
    assert !IsProjectPluginAsset(p) by {
      assert ProjectPluginPrefix == ProjectPrefix + "Plugin/";
      Text.PrefixAfterCommonHead(ProjectPrefix, "Plugin/", below);
    }
    PrefixClassesNest(p);
    AfterLeadingPrefix(ProjectPrefix, below);
  }

  /** What `Engine/Test/` followed by one line classifies as: a test asset
      and an engine asset, and no kind of plugin asset. */
  lemma EngineTestContentClasses(below: string)
    requires OneLine(below)
    ensures IsEngineTestAsset(AssetUriParser(EngineTestPrefix + below))
    ensures IsEngineAsset(AssetUriParser(EngineTestPrefix + below))
    ensures !IsEnginePluginAsset(AssetUriParser(EngineTestPrefix + below))
    ensures !IsProjectPluginAsset(AssetUriParser(EngineTestPrefix + below))
  {
    var content := EngineTestPrefix + below;
    assert content[..|EngineTestPrefix|] == EngineTestPrefix;
    forall i | |EngineTestPrefix| <= i < |content| ensures !Text.IsLineTerminator(content[i]) {
      assert content[i] == below[i - |EngineTestPrefix|];
    }
    PrefixClassesNest(AssetUriParser(content));
  }

  /** A test asset resolves below the engine test directory when the build
      includes tests. */
  lemma EngineTestAssetInTestBuild(below: string)
    requires OneLine(below)
    ensures AbsoluteFilePath(AssetUriParser(EngineTestPrefix + below), true)
            == Success(AssetPath(EngineTestDir, below + AssetExtension))
  {
    EngineTestContentClasses(below);
    AfterLeadingPrefix(EngineTestPrefix, below);
  }

  /** Without tests in the build, a test asset falls through to the plain
      engine branch and keeps `Test/` in its relative path. */
  lemma EngineTestAssetOutsideTestBuild(below: string)
    requires OneLine(below)
    ensures AbsoluteFilePath(AssetUriParser(EngineTestPrefix + below), false)
            == Success(AssetPath(EngineAssetDir, "Test/" + below + AssetExtension))
  {
    EngineTestContentClasses(below);
    assert EngineTestPrefix + below == EnginePrefix + ("Test/" + below);
    AfterLeadingPrefix(EnginePrefix, "Test/" + below);
  }
}
