/** Which files the fingerprint scripts track, spelled out by the texts of their paths. */
module TrackedSources {
  import opened Wrappers
  import opened Bytes
  import opened Paths
  import opened Framing
  import opened SourceTree
  import opened Scripts

  /** A name with an extension: something, then the suffix. */
  predicate Wears(n: seq<Byte>, suffix: string) {
    |n| > |suffix| && Spells(n[|n| - |suffix|..], suffix)
  }

  predicate IsRsOrToml(n: seq<Byte>) { Wears(n, ".rs") || Wears(n, ".toml") }

  predicate IsJsRsOrToml(n: seq<Byte>) { Wears(n, ".js") || IsRsOrToml(n) }

  // ---------------------------------------------------------------------------
  // Names
  // ---------------------------------------------------------------------------

  lemma WearsExtension(n: Name, e: seq<Byte>, suffix: string)
    requires DOT !in e && Spells([DOT] + e, suffix)
    ensures Extension(n) == Some(e) <==> Wears(n, suffix)
  {
    ExtensionIsSuffix(n, e);
    if |n| > |suffix| { OneSpelling(n[|n| - |suffix|..], [DOT] + e, suffix); }
  }

  /** Which names a script accepts. */
  lemma AcceptedNames(script: Script, p: Path)
    ensures script.Accepts(p) <==>
      p != [] && if script.names.JsRsToml? then IsJsRsOrToml(p[|p| - 1]) else IsRsOrToml(p[|p| - 1])
  {
    if p != [] {
      var n := p[|p| - 1];
      WearsExtension(n, [106, 115], ".js");
      WearsExtension(n, [114, 115], ".rs");
      WearsExtension(n, [116, 111, 109, 108], ".toml");
      if Extension(n).Some? { SuffixesAre(script.names, Extension(n).value); }
    }
  }

  lemma SuffixesAre(names: Filter, e: seq<Byte>)
    ensures names.AcceptsExtension(e) <==>
      e == [114, 115] || e == [116, 111, 109, 108] || (names.JsRsToml? && e == [106, 115])
  {
    assert e == ([DOT] + e)[1..];
  }

  /** Below every root of a script the files with the accepted suffixes are tracked, and no others. */
  lemma TracksNamedSources(script: Script, root: Path, q: Path, n: Name)
    requires script in {MODULE, CLI, HOST, BACKEND} && root in script.roots && root + q + [n] != LOCK
    ensures script.Tracks(root + q + [n]) <==>
      if script == MODULE || script == HOST then IsJsRsOrToml(n) else IsRsOrToml(n)
  {
    var p := root + q + [n];
    var i :| 0 <= i < |script.roots| && script.roots[i] == root;
    assert p[..|root|] == root;
    assert Under(script.roots[i], p);
    AcceptedNames(script, p);
    assert MODULE.names.JsRsToml? && HOST.names.JsRsToml? && CLI.names.RsToml? && BACKEND.names.RsToml?;
  }

  // ---------------------------------------------------------------------------
  // Texts
  // ---------------------------------------------------------------------------

  /** A path lies below another exactly when its text opens with that one's text and a slash. */
  lemma {:induction false} UnderIsPrefix(r: Path, p: Path)
    requires r != []
    ensures SlashJoin(r) + [SLASH] <= SlashJoin(p) <==> Under(r, p) && |r| < |p|
  {
    if Under(r, p) && |r| < |p| {
      assert p == r + p[|r|..];
      RenderUnder(r, p[|r|..], SLASH);
    }
    if SlashJoin(r) + [SLASH] <= SlashJoin(p) {
      assert SlashJoin(p)[|SlashJoin(r)|] == (SlashJoin(r) + [SLASH])[|SlashJoin(r)|] == SLASH;
      PrefixIsUnder(r, p, SlashJoin(p)[|SlashJoin(r)| + 1..]);
    }
  }

  lemma {:induction false} PrefixIsUnder(r: Path, p: Path, rest: seq<Byte>)
    requires r != [] && SlashJoin(p) == SlashJoin(r) + [SLASH] + rest
    ensures Under(r, p) && |r| < |p|
  {
    var s := SlashJoin(p);
    assert s[|SlashJoin(r)|] == SLASH;
    assert |p| > 1;
    if |r| == 1 {
      SplitAtSeparator(r[0], rest, p[0], SlashJoin(p[1..]), SLASH);
      assert p[..1] == [p[0]] && r == [r[0]];
    } else {
      var deeper := SlashJoin(r[1..]) + [SLASH] + rest;
      assert s == r[0] + [SLASH] + deeper;
      SplitAtSeparator(r[0], deeper, p[0], SlashJoin(p[1..]), SLASH);
      PrefixIsUnder(r[1..], p[1..], rest);
      assert r == [r[0]] + r[1..] && p[..|r|] == [p[0]] + p[1..][..|r| - 1];
    }
  }

  /** The text lies in a directory below the crates directory. */
  predicate InCrate(t: seq<Byte>, directory: string) {
    Begins(t, "crates/" + directory + "/")
  }

  ghost predicate InOneOf(t: seq<Byte>, directories: seq<string>) {
    exists d :: d in directories && InCrate(t, d)
  }

  /** Dots where a name with an accepted extension has one. */
  predicate HasExtensionDot(n: seq<Byte>) {
    |n| < 5 || n[|n| - 3] == DOT || n[|n| - 5] == DOT
  }

  lemma AcceptedHaveDots(n: seq<Byte>)
    requires IsJsRsOrToml(n)
    ensures HasExtensionDot(n)
  {
    if |n| >= 5 {
      assert n[|n| - 3..][0] == DOT || n[|n| - 5..][0] == DOT;
    }
  }

  /** A root's text, closed by a slash; its last name has none of the accepted extensions. */
  predicate IsRoot(root: Path, directory: string) {
    && root != [] && !HasExtensionDot(root[|root| - 1])
    && Spells(SlashJoin(root) + [SLASH], "crates/" + directory + "/")
  }

  lemma RootBegins(root: Path, directory: string, p: Path)
    requires IsRoot(root, directory)
    ensures InCrate(SlashJoin(p), directory) <==> Under(root, p) && |root| < |p|
  {
    UnderIsPrefix(root, p);
    var t, s := SlashJoin(root) + [SLASH], SlashJoin(p);
    if InCrate(s, directory) { assert s[..|t|] == t; }
  }

  predicate RootsAre(script: Script, directories: seq<string>) {
    && |directories| == |script.roots|
    && forall i :: 0 <= i < |directories| ==> IsRoot(script.roots[i], directories[i])
  }

  /** A root has no extension, so what is accepted is covered exactly when its text says so. */
  lemma CoveredText(script: Script, directories: seq<string>, p: Path)
    requires RootsAre(script, directories) && script.Accepts(p)
    ensures script.Covers(p) <==> InOneOf(SlashJoin(p), directories)
  {
    AcceptedNames(script, p);
    AcceptedHaveDots(p[|p| - 1]);
    forall i | 0 <= i < |directories|
      ensures Under(script.roots[i], p) <==> InCrate(SlashJoin(p), directories[i])
    {
      RootBegins(script.roots[i], directories[i], p);
      assert script.roots[i] != p;
    }
    if script.Covers(p) {
      var i :| 0 <= i < |script.roots| && Under(script.roots[i], p);
      assert directories[i] in directories;
    }
  }

  lemma LockText(p: Path)
    ensures p == LOCK <==> Spells(SlashJoin(p), "Cargo.lock")
  {
    assert SlashJoin(LOCK) == CARGO_LOCK;
    if Spells(SlashJoin(p), "Cargo.lock") {
      assert SlashJoin(p) == CARGO_LOCK;
      RenderInjective(p, LOCK, SLASH);
    }
  }

  lemma CrateIsRoot(name: Name, crate: string)
    requires Spells(name, crate) && !HasExtensionDot(name)
    ensures IsRoot(Crate(name), crate)
  {
    assert Crate(name) == [CRATES] + [name];
    RenderIsJoined([CRATES], name, SLASH);
  }

  lemma NestedIsRoot(root: Path, directory: string, name: Name, nested: string)
    requires IsRoot(root, directory) && Spells(name, nested) && !HasExtensionDot(name)
    ensures IsRoot(root + [name], directory + "/" + nested)
  {
    RenderIsJoined(root, name, SLASH);
  }

  lemma BuiltinJsIsRoot()
    ensures IsRoot(HOST.roots[3], "wjsm-module/builtin_js")
  {
    var root := Crate(Literal("wjsm-module"));
    CrateIsRoot(root[1], "wjsm-module");
    NestedIsRoot(root, "wjsm-module", HOST.roots[3][2], "builtin_js");
    assert "wjsm-module" + "/" + "builtin_js" == "wjsm-module/builtin_js";
  }

  const MODULE_DIRECTORIES: seq<string> :=
    ["wjsm-module", "wjsm-parser", "wjsm-semantic", "wjsm-ir", "wjsm-artifact-format"]

  const HOST_DIRECTORIES: seq<string> :=
    ["wjsm-host-native", "wjsm-builtins", "wjsm-gc", "wjsm-module/builtin_js", "wjsm-semantic",
     "wjsm-snapshot-format"]

  const BACKEND_DIRECTORIES: seq<string> :=
    ["wjsm-backend-native", "wjsm-ir", "wjsm-artifact-format", "wjsm-host", "wjsm-native-abi"]

  lemma ModuleRoots()
    ensures RootsAre(MODULE, MODULE_DIRECTORIES)
  {
    CrateIsRoot(MODULE.roots[0][1], "wjsm-module");
    CrateIsRoot(MODULE.roots[1][1], "wjsm-parser");
    CrateIsRoot(MODULE.roots[2][1], "wjsm-semantic");
    CrateIsRoot(MODULE.roots[3][1], "wjsm-ir");
    CrateIsRoot(MODULE.roots[4][1], "wjsm-artifact-format");
  }

  lemma HostRoots()
    ensures RootsAre(HOST, HOST_DIRECTORIES)
  {
    CrateIsRoot(HOST.roots[0][1], "wjsm-host-native");
    CrateIsRoot(HOST.roots[1][1], "wjsm-builtins");
    CrateIsRoot(HOST.roots[2][1], "wjsm-gc");
    BuiltinJsIsRoot();
    CrateIsRoot(HOST.roots[4][1], "wjsm-semantic");
    CrateIsRoot(HOST.roots[5][1], "wjsm-snapshot-format");
  }

  lemma BackendRoots()
    ensures RootsAre(BACKEND, BACKEND_DIRECTORIES)
  {
    CrateIsRoot(BACKEND.roots[0][1], "wjsm-backend-native");
    CrateIsRoot(BACKEND.roots[1][1], "wjsm-ir");
    CrateIsRoot(BACKEND.roots[2][1], "wjsm-artifact-format");
    CrateIsRoot(BACKEND.roots[3][1], "wjsm-host");
    CrateIsRoot(BACKEND.roots[4][1], "wjsm-native-abi");
  }

  /** The script's sources, by their texts: the lock file, and files with the script's extensions in its
      directories. The CLI script's paths are relative to its crate, where it takes every such file. */
  ghost predicate IsSource(script: Script, p: Path) {
    var t, n := SlashJoin(p), if p == [] then [] else p[|p| - 1];
    if script == CLI then IsRsOrToml(n)
    else
      || Spells(t, "Cargo.lock")
      || (script == MODULE && IsJsRsOrToml(n) && InOneOf(t, MODULE_DIRECTORIES))
      || (script == HOST && IsJsRsOrToml(n) && InOneOf(t, HOST_DIRECTORIES))
      || (script == BACKEND && IsRsOrToml(n) && InOneOf(t, BACKEND_DIRECTORIES))
  }

  lemma ScriptsDiffer()
    ensures MODULE != CLI && MODULE != HOST && MODULE != BACKEND
    ensures CLI != HOST && CLI != BACKEND && HOST != BACKEND
  {
    assert MODULE.names != CLI.names && HOST.names != BACKEND.names;
    assert MODULE.Tagged() && CLI.Tagged() && !HOST.Tagged() && !BACKEND.Tagged();
  }

  lemma TracksInDirectories(script: Script, directories: seq<string>, p: Path)
    requires RootsAre(script, directories) && script.lock
    ensures script.Tracks(p) <==>
      || Spells(SlashJoin(p), "Cargo.lock")
      || (&& p != [] && InOneOf(SlashJoin(p), directories)
          && if script.names.JsRsToml? then IsJsRsOrToml(p[|p| - 1]) else IsRsOrToml(p[|p| - 1]))
  {
    LockText(p);
    AcceptedNames(script, p);
    if script.Accepts(p) { CoveredText(script, directories, p); }
  }

  /** Each script tracks its sources and nothing else. */
  lemma TracksSources(script: Script, p: Path)
    requires script in {MODULE, CLI, HOST, BACKEND}
    ensures script.Tracks(p) <==> IsSource(script, p)
  {
    ScriptsDiffer();
    if script == MODULE {
      ModuleRoots();
      TracksInDirectories(MODULE, MODULE_DIRECTORIES, p);
    } else if script == CLI {
      AcceptedNames(CLI, p);
      assert Under(CLI.roots[0], p);
    } else if script == HOST {
      HostRoots();
      TracksInDirectories(HOST, HOST_DIRECTORIES, p);
    } else {
      BackendRoots();
      TracksInDirectories(BACKEND, BACKEND_DIRECTORIES, p);
    }
  }

  /** Files stay below the length that a tagged script can tell from a name. */
  ghost predicate BelowLimit(script: Script, tree: Tree) {
    && (script == MODULE ==> script.AllShorterThan(tree, 7_563_822))
    && (script == CLI ==> script.AllShorterThan(tree, 7_565_870))
  }

  /** Writing a file changes a script's stream exactly when the file is one of its sources. */
  lemma SourceChangeIsSeen(script: Script, tree: Tree, p: Path, c: Contents)
    requires script in {MODULE, CLI, HOST, BACKEND} && (p !in tree || tree[p] != c)
    requires BelowLimit(script, tree) && BelowLimit(script, tree[p := c])
    ensures script.Stream(tree[p := c]) != script.Stream(tree) <==> IsSource(script, p)
  {
    ScriptsDiffer();
    TracksSources(script, p);
    ChangeIsSeen(script, tree, p, c);
  }

  /** What the streams open with: a tagged script's text, or the name of the lock file, each closed by
      a NUL. */
  lemma StreamsOpen(tree: Tree)
    ensures OpensWith(MODULE.Stream(tree), "wjsm-builtin-cache-abi-v1")
    ensures OpensWith(CLI.Stream(tree), "wjsm-cli-pipeline-v1")
    ensures HOST.Readable(tree) ==> OpensWith(HOST.Stream(tree), "Cargo.lock")
    ensures BACKEND.Readable(tree) ==> OpensWith(BACKEND.Stream(tree), "Cargo.lock")
  {
    ScriptsDiffer();
    TagOpens(MODULE, "wjsm-builtin-cache-abi-v1", tree);
    TagOpens(CLI, "wjsm-cli-pipeline-v1", tree);
    UntaggedInCrates(HOST);
    UntaggedInCrates(BACKEND);
    if HOST.Readable(tree) { UntaggedOpensWithLock(HOST, tree); }
    if BACKEND.Readable(tree) { UntaggedOpensWithLock(BACKEND, tree); }
  }

  lemma TagOpens(script: Script, text: string, tree: Tree)
    requires script.Tagged() && OpensWith(script.tag, text)
    ensures OpensWith(script.Stream(tree), text)
  {
    TextOpens(script.tag, text, Unterminated(RecordsOf(script.Listing(tree), tree)));
  }
}
