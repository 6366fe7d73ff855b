/** The four fingerprint scripts, and how their streams keep out of each other's way. */
module Scripts {
  import opened Bytes
  import opened Ordering
  import opened Paths
  import opened Framing
  import opened SourceTree
  import opened FramingLimit

  predicate PlainText(s: string) {
    |s| > 2 && forall i :: 0 <= i < |s| ==> '!' <= s[i] <= '~' && s[i] != '/' && s[i] != '\\'
  }

  function Literal(s: string): (n: Name)
    requires PlainText(s)
    ensures |n| == |s| && forall i :: 0 <= i < |s| ==> n[i] == s[i] as int
  {
    Ascii(s)
  }

  const CRATES: Name := Literal("crates")

  function Crate(name: Name): (r: Path) { [CRATES, name] }

  const MODULE: Script := Script(
    Ascii("wjsm-builtin-cache-abi-v1") + [NUL],
    [Crate(Literal("wjsm-module")), Crate(Literal("wjsm-parser")), Crate(Literal("wjsm-semantic")),
     Crate(Literal("wjsm-ir")), Crate(Literal("wjsm-artifact-format"))],
    JsRsToml, true)

  /** Paths are relative to the crate, which is its own only root. */
  const CLI: Script := Script(Ascii("wjsm-cli-pipeline-v1") + [NUL], [[]], RsToml, false)

  const HOST: Script := Script(
    [],
    [Crate(Literal("wjsm-host-native")), Crate(Literal("wjsm-builtins")), Crate(Literal("wjsm-gc")),
     Crate(Literal("wjsm-module")) + [Literal("builtin_js")], Crate(Literal("wjsm-semantic")),
     Crate(Literal("wjsm-snapshot-format"))],
    JsRsToml, true)

  const BACKEND: Script := Script(
    [],
    [Crate(Literal("wjsm-backend-native")), Crate(Literal("wjsm-ir")),
     Crate(Literal("wjsm-artifact-format")), Crate(Literal("wjsm-host")),
     Crate(Literal("wjsm-native-abi"))],
    RsToml, true)

  /** No root lies under another, and the lock file under none. */
  ghost predicate RootsApart(script: Script) {
    && (forall i, j :: 0 <= i < j < |script.roots| ==>
          !Under(script.roots[i], script.roots[j]) && !Under(script.roots[j], script.roots[i]))
    && (script.lock ==> !script.Covers(LOCK))
  }

  /** A crate directory's name length and sixth byte, enough to tell the crates apart. */
  predicate Marked(root: Path, mark: (nat, Byte)) {
    |root| >= 2 && root[0] == CRATES && |root[1]| == mark.0 > 5 && root[1][5] == mark.1
  }

  lemma MarksTellApart(script: Script, marks: seq<(nat, Byte)>)
    requires |marks| == |script.roots|
    requires forall i :: 0 <= i < |marks| ==> Marked(script.roots[i], marks[i])
    requires forall i, j :: 0 <= i < j < |marks| ==> marks[i] != marks[j]
    ensures RootsApart(script)
  {
    forall i, j | 0 <= i < |marks| && 0 <= j < |marks| && Under(script.roots[i], script.roots[j])
      ensures marks[i] == marks[j]
    {
      assert script.roots[i][1] == script.roots[j][1];
    }
  }

  const MODULE_MARKS: seq<(nat, Byte)> := [(11, 109), (11, 112), (13, 115), (7, 105), (20, 97)]
  const HOST_MARKS: seq<(nat, Byte)> := [(16, 104), (13, 98), (7, 103), (11, 109), (13, 115), (20, 115)]
  const BACKEND_MARKS: seq<(nat, Byte)> := [(19, 98), (7, 105), (20, 97), (9, 104), (15, 110)]

  lemma ModuleMarks()
    ensures forall i :: 0 <= i < 5 ==> Marked(MODULE.roots[i], MODULE_MARKS[i])
  {
    assert Marked(MODULE.roots[0], (11, 109)) && Marked(MODULE.roots[1], (11, 112));
    assert Marked(MODULE.roots[2], (13, 115)) && Marked(MODULE.roots[3], (7, 105));
    assert Marked(MODULE.roots[4], (20, 97));
  }

  lemma HostMarks()
    ensures forall i :: 0 <= i < 6 ==> Marked(HOST.roots[i], HOST_MARKS[i])
  {
    assert Marked(HOST.roots[0], (16, 104)) && Marked(HOST.roots[1], (13, 98));
    assert Marked(HOST.roots[2], (7, 103)) && Marked(HOST.roots[3], (11, 109));
    assert Marked(HOST.roots[4], (13, 115)) && Marked(HOST.roots[5], (20, 115));
  }

  lemma BackendMarks()
    ensures forall i :: 0 <= i < 5 ==> Marked(BACKEND.roots[i], BACKEND_MARKS[i])
  {
    assert Marked(BACKEND.roots[0], (19, 98)) && Marked(BACKEND.roots[1], (7, 105));
    assert Marked(BACKEND.roots[2], (20, 97)) && Marked(BACKEND.roots[3], (9, 104));
    assert Marked(BACKEND.roots[4], (15, 110));
  }

  lemma AllRootsApart()
    ensures RootsApart(MODULE) && RootsApart(CLI) && RootsApart(HOST) && RootsApart(BACKEND)
  {
    ModuleMarks();
    HostMarks();
    BackendMarks();
    MarksTellApart(MODULE, MODULE_MARKS);
    MarksTellApart(HOST, HOST_MARKS);
    MarksTellApart(BACKEND, BACKEND_MARKS);
  }

  // ---------------------------------------------------------------------------
  // The two tagged scripts: how long a file may be
  // ---------------------------------------------------------------------------

  lemma ModuleLimitIsExact(limit: nat)
    ensures Separates(MODULE, limit) <==> limit <= 7_563_822
  {
    AllRootsApart();
    var root := MODULE.roots[0];
    assert Before(LOCK, root) by { assert Less(CARGO_LOCK, CRATES); }
    assert root[1..] == [Literal("wjsm-module")];
    assert |SlashJoin(root)| == 18;
    LimitIsExact(MODULE, limit);
  }

  lemma CliLimitIsExact(limit: nat)
    ensures Separates(CLI, limit) <==> limit <= 7_565_870
  {
    assert CLI.roots[0] == [];
    LimitIsExact(CLI, limit);
  }

  // ---------------------------------------------------------------------------
  // Streams of different scripts
  // ---------------------------------------------------------------------------

  /** Every root lies in the crates directory. */
  ghost predicate InCrates(script: Script) {
    forall i :: 0 <= i < |script.roots| ==> |script.roots[i]| >= 2 && script.roots[i][0] == CRATES
  }

  lemma TrackedInCrates(script: Script, p: Path)
    requires InCrates(script) && script.Tracks(p) && p != LOCK
    ensures SlashJoin(p)[..1] == [99]
  {
    var i :| 0 <= i < |script.roots| && Under(script.roots[i], p);
    assert p[0] == script.roots[i][0] && |p| >= 2;
  }

  lemma LockSortsFirst(script: Script, tree: Tree)
    requires !script.Tagged() && script.lock && script.Readable(tree) && InCrates(script)
    ensures script.Listing(tree) != [] && script.Listing(tree)[0] == LOCK
  {
    var l := script.Listing(tree);
    assert LOCK in l;
    var i :| 0 <= i < |l| && l[i] == LOCK;
    assert SlashJoin(LOCK) == CARGO_LOCK;
    assert i > 0 ==> SlashBefore(l[0], l[i]);
    assert l[0] in l;
    if l[0] != LOCK { TrackedInCrates(script, l[0]); }
  }

  lemma FirstNameOpens(rs: seq<Record>)
    requires rs != []
    ensures var s, name := Terminated(rs), rs[0].name; |s| > |name| && s[..|name|] == name && s[|name|] == NUL
  {
    var rest := Terminated(rs[1..]);
    assert Terminated(rs) == EncodeTerminated(rs[0]) + rest;
  }

  /** Byte order puts Cargo.lock first, so an untagged stream opens with its name, closed by a NUL. */
  lemma UntaggedOpensWithLock(script: Script, tree: Tree)
    requires !script.Tagged() && script.lock && script.Readable(tree) && InCrates(script)
    ensures OpensWith(script.Stream(tree), "Cargo.lock")
    ensures script.Stream(tree)[..1] == [67]
  {
    LockSortsFirst(script, tree);
    assert SlashJoin(LOCK) == CARGO_LOCK;
    FirstNameOpens(RecordsOf(script.Listing(tree), tree));
  }

  lemma TaggedStreamsDiffer(t1: Tree, t2: Tree)
    ensures MODULE.Stream(t1) != CLI.Stream(t2)
  {
    assert MODULE.Stream(t1)[5] == MODULE.tag[5] == 98;
    assert CLI.Stream(t2)[5] == CLI.tag[5] == 99;
  }

  lemma TaggedNeverUntagged(tagged: Script, untagged: Script, t1: Tree, t2: Tree)
    requires tagged in {MODULE, CLI} && untagged in {HOST, BACKEND} && untagged.Readable(t2)
    ensures tagged.Stream(t1) != untagged.Stream(t2)
  {
    UntaggedInCrates(untagged);
    UntaggedOpensWithLock(untagged, t2);
    TagOpensStream(tagged, t1);
  }

  lemma UntaggedInCrates(script: Script)
    requires script in {HOST, BACKEND}
    ensures InCrates(script) && script.lock && !script.Tagged()
  {
    HostMarks();
    BackendMarks();
  }

  lemma TagOpensStream(script: Script, tree: Tree)
    requires script in {MODULE, CLI}
    ensures script.Stream(tree)[..1] == [119]
  {
    assert script.tag[..1] == [119];
    assert script.Stream(tree)[..1] == script.tag[..1];
  }

  lemma CoveredMark(script: Script, marks: seq<(nat, Byte)>, p: Path)
    requires |marks| == |script.roots|
    requires forall i :: 0 <= i < |marks| ==> Marked(script.roots[i], marks[i])
    requires script.Covers(p)
    ensures |p| >= 2 && |p[1]| > 5 && (|p[1]|, p[1][5]) in marks
  {
    var i :| 0 <= i < |marks| && Under(script.roots[i], p);
    assert p[1] == script.roots[i][1];
    assert marks[i] in marks;
  }

  lemma NothingCoveredTwice(p: Path)
    ensures !(BACKEND.Covers(p) && HOST.Covers(p))
  {
    HostMarks();
    BackendMarks();
    if BACKEND.Covers(p) {
      CoveredMark(BACKEND, BACKEND_MARKS, p);
      if HOST.Covers(p) { CoveredMark(HOST, HOST_MARKS, p); }
    }
  }

  ghost predicate OnlyLock(script: Script, tree: Tree) {
    forall p :: p in script.TrackedFiles(tree) ==> p == LOCK
  }

  /** The two untagged streams coincide only for trees that have nothing but the same Cargo.lock. */
  lemma BackendAndHostStreams(t1: Tree, t2: Tree)
    requires BACKEND.Readable(t1) && HOST.Readable(t2)
    ensures BACKEND.Stream(t1) == HOST.Stream(t2)
       <==> OnlyLock(BACKEND, t1) && OnlyLock(HOST, t2) && t1[LOCK] == t2[LOCK]
  {
    UntaggedStreamsDetermineSources(BACKEND, t1, HOST, t2);
    var f1, f2 := BACKEND.TrackedFiles(t1), HOST.TrackedFiles(t2);
    assert LOCK in f1 && f1[LOCK] == t1[LOCK] && LOCK in f2 && f2[LOCK] == t2[LOCK];
    forall p | p in f1 && p in f2 ensures p == LOCK {
      NothingCoveredTwice(p);
    }
  }

  // ---------------------------------------------------------------------------
  // Which changes are seen
  // ---------------------------------------------------------------------------

  /** A changed file changes the stream exactly when the script tracks it. */
  lemma ChangeIsSeen(script: Script, tree: Tree, p: Path, c: Contents)
    requires p !in tree || tree[p] != c
    requires script.Tagged() ==> script.AllShorterThan(tree, script.names.Limit())
    requires script.Tagged() ==> script.AllShorterThan(tree[p := c], script.names.Limit())
    ensures script.Stream(tree[p := c]) != script.Stream(tree) <==> script.Tracks(p)
  {
    StreamDeterminesSources(script, tree[p := c], tree);
    var f, g := script.TrackedFiles(tree[p := c]), script.TrackedFiles(tree);
    if script.Tracks(p) {
      assert p in f && f[p] == c;
      assert p in g ==> g[p] == tree[p];
    } else {
      assert f == g;
    }
  }

  const OPTIMIZER: Path := Crate(Literal("wjsm-optimize"))

  /** The optimiser runs before an artifact is stored, but no script tracks any file of its crate. */
  lemma OptimizerIsUntracked(script: Script, p: Path)
    requires script in {MODULE, HOST, BACKEND} && Under(OPTIMIZER, p)
    ensures !script.Tracks(p)
  {
    ModuleMarks();
    HostMarks();
    BackendMarks();
    assert p[..|OPTIMIZER|][1] == p[1] == OPTIMIZER[1];
    assert |p[1]| == 13 && p[1][5] == 111;
    if script.Covers(p) {
      if script == MODULE {
        CoveredMark(MODULE, MODULE_MARKS, p);
      } else if script == HOST {
        CoveredMark(HOST, HOST_MARKS, p);
      } else {
        CoveredMark(BACKEND, BACKEND_MARKS, p);
      }
    }
  }
}
