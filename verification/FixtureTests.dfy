/** From collected fixtures to generated tests: identifiers, collisions, and what a generated file says. */
module FixtureTests {
  import opened Wrappers
  import opened Bytes
  import opened Ordering
  import opened Paths
  import opened Fixtures

  const HAPPY: seq<Byte> := Ascii("happy")
  const ERRORS: seq<Byte> := Ascii("errors")
  const MODULES: seq<Byte> := Ascii("modules")
  const SLOW: seq<Byte> := Ascii("slow")

  const SUITES: seq<seq<Byte>> := [HAPPY, ERRORS, MODULES, SLOW]

  const UNDERSCORE: Byte := 95

  // ---------------------------------------------------------------------------
  // Identifiers
  // ---------------------------------------------------------------------------

  /** ASCII letters, digits and the underscore stay; so do the bytes of other characters. */
  predicate IsWord(b: Byte) {
    48 <= b <= 57 || 65 <= b <= 90 || 97 <= b <= 122 || b == UNDERSCORE || b >= 128
  }

  function SanitizeByte(b: Byte): (r: Byte) {
    if IsWord(b) then b else UNDERSCORE
  }

  function SanitizeTestId(suite: seq<Byte>, stem: seq<Byte>): (r: seq<Byte>) {
    suite + [UNDERSCORE, UNDERSCORE] + seq(|stem|, i requires 0 <= i < |stem| => SanitizeByte(stem[i]))
  }

  /** An identifier, byte by byte: the suite, two underscores, and the stem with whatever is no ASCII
      letter or digit, no underscore and below 128 replaced by an underscore. */
  lemma IdIsSpelled(suite: seq<Byte>, stem: seq<Byte>)
    ensures var id := SanitizeTestId(suite, stem);
      && |id| == |suite| + 2 + |stem| && id[..|suite|] == suite
      && id[|suite|] == 95 && id[|suite| + 1] == 95
      && forall i :: 0 <= i < |stem| ==>
           id[|suite| + 2 + i] ==
             if '0' as int <= stem[i] <= '9' as int || 'A' as int <= stem[i] <= 'Z' as int
                || 'a' as int <= stem[i] <= 'z' as int || stem[i] == '_' as int || stem[i] >= 128
             then stem[i] else '_' as int
  {
  }

  lemma SuitesDifferEarly(s: seq<Byte>, t: seq<Byte>)
    requires s in SUITES && t in SUITES && s[0] == t[0]
    ensures s == t
  {
    assert HAPPY[0] == 104 && ERRORS[0] == 101 && MODULES[0] == 109 && SLOW[0] == 115;
  }

  /** Two cases get one identifier exactly when they are of one suite and their stems agree wherever
      either has an ASCII letter or digit or a byte from 128 on. */
  lemma IdsCollide(s: seq<Byte>, a: seq<Byte>, t: seq<Byte>, b: seq<Byte>)
    requires s in SUITES && t in SUITES
    ensures SanitizeTestId(s, a) == SanitizeTestId(t, b)
       <==> s == t && |a| == |b| && forall i :: 0 <= i < |a| ==>
              || a[i] == b[i]
              || (   !(48 <= a[i] <= 57 || 65 <= a[i] <= 90 || 97 <= a[i] <= 122 || a[i] >= 128)
                  && !(48 <= b[i] <= 57 || 65 <= b[i] <= 90 || 97 <= b[i] <= 122 || b[i] >= 128))
  {
    var x, y := SanitizeTestId(s, a), SanitizeTestId(t, b);
    if x == y {
      assert x[0] == s[0] && y[0] == t[0];
      SuitesDifferEarly(s, t);
      assert |x| == |s| + 2 + |a| && |y| == |t| + 2 + |b|;
      forall i | 0 <= i < |a| ensures SanitizeByte(a[i]) == SanitizeByte(b[i]) {
        assert x[|s| + 2 + i] == SanitizeByte(a[i]) && y[|t| + 2 + i] == SanitizeByte(b[i]);
      }
    }
  }

  /** So stems of ASCII letters, digits and underscores collide only if they are equal. */
  lemma WordsKeepApart(s: seq<Byte>, a: seq<Byte>, b: seq<Byte>)
    requires s in SUITES && SanitizeTestId(s, a) == SanitizeTestId(s, b)
    requires forall x :: x in a || x in b ==> 48 <= x <= 57 || 65 <= x <= 90 || 97 <= x <= 122 || x == 95
    ensures a == b
  {
    IdsCollide(s, a, s, b);
    forall i | 0 <= i < |a| ensures a[i] == b[i] {
      assert a[i] in a && b[i] in b;
    }
  }

  // ---------------------------------------------------------------------------
  // Generation
  // ---------------------------------------------------------------------------

  /** The fixtures directory: the suites that exist. */
  type FixtureTree = map<seq<Byte>, Node>

  type SuiteIndex = n: nat | n < 4

  datatype FixtureFile = FixtureFile(suite: SuiteIndex, path: Path)

  datatype Test = Test(id: seq<Byte>, fixturePath: seq<Byte>)

  datatype Outcome = Panicked(id: seq<Byte>, culprit: Case) | Generated(tests: seq<Test>)

  function CaseOf(f: FixtureFile, sep: Byte): (r: Case) {
    Case(SUITES[f.suite], StemText(f.path, sep))
  }

  function IdOf(c: Case): (r: seq<Byte>) {
    SanitizeTestId(c.suite, c.stem)
  }

  function TestOf(c: Case): (r: Test) {
    Test(IdOf(c), c.suite + [SLASH] + c.stem)
  }

  function SuiteFiles(suite: SuiteIndex, found: seq<Path>): (r: seq<FixtureFile>)
    ensures |r| == |found| && forall i :: 0 <= i < |r| ==> r[i] == FixtureFile(suite, found[i])
  {
    seq(|found|, i requires 0 <= i < |found| => FixtureFile(suite, found[i]))
  }

  function CasesOfFiles(files: seq<FixtureFile>, sep: Byte): (r: seq<Case>)
    ensures |r| == |files| && forall i :: 0 <= i < |r| ==> r[i] == CaseOf(files[i], sep)
  {
    seq(|files|, i requires 0 <= i < |files| => CaseOf(files[i], sep))
  }

  ghost predicate IdsDistinct(cases: seq<Case>) {
    forall i, j :: 0 <= i < j < |cases| ==> IdOf(cases[i]) != IdOf(cases[j])
  }

  /** The identifiers before position i are distinct, and the one at i repeats one of them. */
  ghost predicate FirstRepeat(cases: seq<Case>, i: nat)
    requires i < |cases|
  {
    IdsDistinct(cases[..i]) && !IdsDistinct(cases[..i + 1])
  }

  /** Suite order first, component order within a suite. */
  predicate FileBefore(f: FixtureFile, g: FixtureFile) {
    f.suite < g.suite || (f.suite == g.suite && Before(f.path, g.path))
  }

  /** A script with a snapshot, in a suite that exists. */
  predicate IsFixtureFile(tree: FixtureTree, f: FixtureFile) {
    SUITES[f.suite] in tree && IsFixture(tree[SUITES[f.suite]], f.path)
  }

  /** Every fixture of the first n suites, once, in order. */
  ghost predicate Lists(files: seq<FixtureFile>, tree: FixtureTree, n: nat) {
    && Sorted(FileBefore, files)
    && forall f :: f in files <==> f.suite < n && IsFixtureFile(tree, f)
  }

  /** There is one such list, however the directories were read. */
  lemma ListsIsCanonical(a: seq<FixtureFile>, b: seq<FixtureFile>, tree: FixtureTree, n: nat)
    requires Lists(a, tree, n) && Lists(b, tree, n)
    ensures a == b && NoDuplicates(a)
  {
    FileOrderIsTotal();
    forall f ensures f in Elements(a) <==> f in Elements(b) {
      assert f in a <==> f in b;
    }
    SortedUnique(FileBefore, a, b);
    SortedHasNoDuplicates(FileBefore, a);
  }

  lemma FileOrderIsTotal()
    ensures StrictTotalOrder(FileBefore)
  {
    ComponentOrderIsTotal();
  }

  lemma NextSuite(files: seq<FixtureFile>, found: seq<Path>, tree: FixtureTree, n: SuiteIndex)
    requires Lists(files, tree, n)
    requires SUITES[n] in tree && Finds(found, tree[SUITES[n]])
    ensures Lists(files + SuiteFiles(n, found), tree, n + 1)
  {
    var more := SuiteFiles(n, found);
    var all := files + more;
    forall f | f in more ensures f.suite == n && f.path in found {
      var i :| 0 <= i < |more| && more[i] == f;
    }
    forall a, b | 0 <= a < b < |all| ensures FileBefore(all[a], all[b]) {
      if a < |files| <= b { assert all[a] in files && all[b] in more; }
    }
    forall f ensures f in all <==> f.suite < n + 1 && IsFixtureFile(tree, f) {
      if f.suite == n && IsFixtureFile(tree, f) {
        assert f.path in found;
        var i :| 0 <= i < |found| && found[i] == f.path;
        assert more[i] == f;
      }
    }
  }

  /** The suites in turn, skipping those that do not exist. */
  method CollectSuites(tree: FixtureTree, sep: Byte) returns (allCases: seq<Case>, ghost files: seq<FixtureFile>)
    ensures Lists(files, tree, |SUITES|)
    ensures allCases == CasesOfFiles(files, sep)
  {
    allCases, files := [], [];
    for n := 0 to |SUITES|
      invariant Lists(files, tree, n)
      invariant allCases == CasesOfFiles(files, sep)
    {
      var cases, more := CollectSuite(tree, n, sep, files);
      CasesOfBoth(files, more, sep);
      files := files + more;
      allCases := allCases + cases;
    }
  }

  method CollectSuite(tree: FixtureTree, n: SuiteIndex, sep: Byte, ghost earlier: seq<FixtureFile>)
    returns (cases: seq<Case>, ghost files: seq<FixtureFile>)
    requires Lists(earlier, tree, n)
    ensures Lists(earlier + files, tree, n + 1)
    ensures cases == CasesOfFiles(files, sep)
  {
    var suite := SUITES[n];
    if suite !in tree {
      cases, files := [], [];
      assert earlier + files == earlier;
      return;
    }
    var collector := new Collector();
    ghost var found := collector.CollectFixtures(tree[suite], [], suite, sep);
    cases, files := collector.cases, SuiteFiles(n, found);
    NextSuite(earlier, found, tree, n);
    SuiteCases(n, found, sep);
  }

  lemma CasesOfBoth(a: seq<FixtureFile>, b: seq<FixtureFile>, sep: Byte)
    ensures CasesOfFiles(a + b, sep) == CasesOfFiles(a, sep) + CasesOfFiles(b, sep)
  {
  }

  lemma SuiteCases(n: SuiteIndex, found: seq<Path>, sep: Byte)
    ensures CasesOfFiles(SuiteFiles(n, found), sep) == CasesOf(SUITES[n], [], found, sep)
  {
    forall i | 0 <= i < |found|
      ensures CasesOfFiles(SuiteFiles(n, found), sep)[i] == CasesOf(SUITES[n], [], found, sep)[i]
    {
      NothingAbove(found[i]);
    }
  }

  lemma NothingAbove(p: Path)
    ensures [] + p == p
  {
  }

  /** The check for repeated identifiers. */
  method FirstRepeated(allCases: seq<Case>) returns (at: nat)
    ensures at <= |allCases|
    ensures at == |allCases| <==> IdsDistinct(allCases)
    ensures at < |allCases| ==> IdsDistinct(allCases[..at]) && !IdsDistinct(allCases[..at + 1])
  {
    var seenIds := {};
    at := 0;
    while at < |allCases|
      invariant at <= |allCases|
      invariant forall id :: id in seenIds <==> exists k :: 0 <= k < at && IdOf(allCases[k]) == id
      invariant forall j, k :: 0 <= j < k < at ==> IdOf(allCases[j]) != IdOf(allCases[k])
    {
      var id := IdOf(allCases[at]);
      if id in seenIds {
        ghost var k :| 0 <= k < at && IdOf(allCases[k]) == id;
        assert IdOf(allCases[..at + 1][k]) == IdOf(allCases[..at + 1][at]);
        return;
      }
      seenIds := seenIds + {id};
      at := at + 1;
    }
  }

  /** One test per case, in order. */
  method PrintTests(allCases: seq<Case>) returns (tests: seq<Test>)
    ensures |tests| == |allCases|
    ensures forall k :: 0 <= k < |tests| ==> tests[k] == TestOf(allCases[k])
  {
    tests := [];
    for i := 0 to |allCases|
      invariant |tests| == i && forall k :: 0 <= k < i ==> tests[k] == TestOf(allCases[k])
    {
      tests := tests + [TestOf(allCases[i])];
    }
  }

  /** One test per fixture, in order, when all identifiers differ; otherwise the first repeated one. */
  ghost predicate Reports(outcome: Outcome, files: seq<FixtureFile>, sep: Byte) {
    var cases := CasesOfFiles(files, sep);
    match outcome
    case Generated(tests) =>
      && IdsDistinct(cases) && |tests| == |files|
      && forall i :: 0 <= i < |files| ==> tests[i] == TestOf(CaseOf(files[i], sep))
    case Panicked(id, culprit) =>
      exists i :: 0 <= i < |files| && FirstRepeat(cases, i)
        && culprit == CaseOf(files[i], sep) && id == IdOf(culprit)
  }

  /** `main`: collect every suite, panic at the first repeated identifier, print one test per case. */
  method Generate(tree: FixtureTree, sep: Byte) returns (outcome: Outcome)
    ensures exists files :: Lists(files, tree, |SUITES|) && Reports(outcome, files, sep)
  {
    var allCases;
    ghost var files;
    allCases, files := CollectSuites(tree, sep);
    var repeated := FirstRepeated(allCases);
    if repeated < |allCases| {
      assert FirstRepeat(CasesOfFiles(files, sep), repeated);
      outcome := Panicked(IdOf(allCases[repeated]), allCases[repeated]);
    } else {
      var tests := PrintTests(allCases);
      outcome := Generated(tests);
    }
    assert Reports(outcome, files, sep);
  }

  lemma FirstRepeatIsUnique(cases: seq<Case>, i: nat, j: nat)
    requires i < |cases| && j < |cases| && FirstRepeat(cases, i) && FirstRepeat(cases, j)
    ensures i == j
  {
    if i < j {
      EarlierDistinct(cases, i + 1, j);
    } else if j < i {
      EarlierDistinct(cases, j + 1, i);
    }
  }

  lemma EarlierDistinct(cases: seq<Case>, i: nat, j: nat)
    requires i <= j <= |cases| && IdsDistinct(cases[..j])
    ensures IdsDistinct(cases[..i])
  {
    forall a, b | 0 <= a < b < i ensures IdOf(cases[a]) != IdOf(cases[b]) {
      assert cases[..j][a] == cases[a] && cases[..j][b] == cases[b];
    }
  }

  /** The fixtures and the separator determine what is generated, and whether anything is: a panic
      means that two fixtures share an identifier. */
  lemma GenerationIsDetermined(tree: FixtureTree, sep: Byte, o1: Outcome, f1: seq<FixtureFile>,
                               o2: Outcome, f2: seq<FixtureFile>)
    requires Lists(f1, tree, |SUITES|) && Reports(o1, f1, sep)
    requires Lists(f2, tree, |SUITES|) && Reports(o2, f2, sep)
    ensures o1 == o2
    ensures o1.Generated? <==> IdsDistinct(CasesOfFiles(f1, sep))
  {
    ListsIsCanonical(f1, f2, tree, |SUITES|);
    var cases := CasesOfFiles(f1, sep);
    if o1.Panicked? { PanicMeansRepeat(o1, f1, sep); }
    if o2.Panicked? { PanicMeansRepeat(o2, f2, sep); }
    if o1.Panicked? && o2.Panicked? {
      var i :| 0 <= i < |f1| && FirstRepeat(cases, i) && o1.culprit == CaseOf(f1[i], sep);
      var j :| 0 <= j < |f2| && FirstRepeat(cases, j) && o2.culprit == CaseOf(f2[j], sep);
      FirstRepeatIsUnique(cases, i, j);
    } else if o1.Generated? && o2.Generated? {
      assert o1.tests == o2.tests;
    }
  }

  lemma PanicMeansRepeat(o: Outcome, files: seq<FixtureFile>, sep: Byte)
    requires o.Panicked? && Reports(o, files, sep)
    ensures !IdsDistinct(CasesOfFiles(files, sep))
  {
    var cases := CasesOfFiles(files, sep);
    var i :| 0 <= i < |files| && FirstRepeat(cases, i);
  }

  // ---------------------------------------------------------------------------
  // What the generated tests say
  // ---------------------------------------------------------------------------

  /** A fixture path splits back into its suite and stem. */
  lemma FixturePathSplits(c: Case, d: Case)
    requires c.suite in SUITES && d.suite in SUITES
    requires TestOf(c).fixturePath == TestOf(d).fixturePath
    ensures c == d
  {
    assert forall s :: s in SUITES ==> SLASH !in s;
    SplitAtSeparator(c.suite, c.stem, d.suite, d.stem, SLASH);
  }

  /** When generation succeeds, fixtures and tests correspond one to one: no fixture is listed twice,
      no two tests share a name or a fixture path, and no two fixtures of a suite share a stem. */
  lemma GeneratedIsBijective(tree: FixtureTree, sep: Byte, files: seq<FixtureFile>, tests: seq<Test>)
    requires Lists(files, tree, |SUITES|) && Reports(Generated(tests), files, sep)
    ensures |tests| == |files|
    ensures forall i, j :: 0 <= i < j < |files| ==>
              && files[i] != files[j] && tests[i].id != tests[j].id
              && tests[i].fixturePath != tests[j].fixturePath
              && CaseOf(files[i], sep) != CaseOf(files[j], sep)
  {
    var cases := CasesOfFiles(files, sep);
    forall i, j | 0 <= i < j < |files|
      ensures files[i] != files[j] && tests[i].id != tests[j].id
      ensures tests[i].fixturePath != tests[j].fixturePath && cases[i] != cases[j]
    {
      assert IdOf(cases[i]) != IdOf(cases[j]);
      if tests[i].fixturePath == tests[j].fixturePath {
        FixturePathSplits(CaseOf(files[i], sep), CaseOf(files[j], sep));
      }
    }
  }

  /** A test, spelled out: its name is the identifier, and its fixture path with the extension put back
      is the path of the fixture below the suite's directory. */
  lemma TestIsSpelled(f: FixtureFile, e: seq<Byte>, sep: Byte)
    requires f.path != [] && Extension(f.path[|f.path| - 1]) == Some(e)
    ensures var test := TestOf(CaseOf(f, sep));
      && test.id == SanitizeTestId(SUITES[f.suite], StemText(f.path, sep))
      && test.fixturePath + [DOT] + e == SUITES[f.suite] + [SLASH] + Render(f.path, sep)
  {
    StemTextIsPath(f.path, e, sep);
    JoinThenExtend(SUITES[f.suite], SLASH, StemText(f.path, sep), e);
  }

  const SUITE_TEXTS: seq<string> := ["happy/", "errors/", "modules/", "slow/"]

  /** The tests come suite by suite: the happy ones, the errors, the modules, the slow ones. */
  lemma SuitesInOrder(tree: FixtureTree, sep: Byte, files: seq<FixtureFile>, tests: seq<Test>, i: nat, j: nat)
    requires Lists(files, tree, |SUITES|) && Reports(Generated(tests), files, sep) && i < j < |tests|
    ensures exists a, b :: 0 <= a <= b < 4
              && Begins(tests[i].fixturePath, SUITE_TEXTS[a]) && Begins(tests[j].fixturePath, SUITE_TEXTS[b])
  {
    assert FileBefore(files[i], files[j]);
    SuiteBegins(CaseOf(files[i], sep), files[i].suite);
    SuiteBegins(CaseOf(files[j], sep), files[j].suite);
  }

  lemma SuiteBegins(c: Case, n: SuiteIndex)
    requires c.suite == SUITES[n]
    ensures Begins(TestOf(c).fixturePath, SUITE_TEXTS[n])
  {
    var text := c.suite + [SLASH];
    assert Begins(text, SUITE_TEXTS[n]);
    assert TestOf(c).fixturePath == text + c.stem;
  }

  /** Fixtures of one suite have one case exactly when they share a snapshot. */
  lemma SameCaseIsSharedSnapshot(f: FixtureFile, g: FixtureFile, sep: Byte)
    requires f.suite == g.suite && f.path != [] && g.path != [] && IsSeparator(sep)
    ensures CaseOf(f, sep) == CaseOf(g, sep) <==> SharesSnapshot(f, g)
  {
    SameStemIsSameSnapshot(f.path, g.path, sep);
    if CaseOf(f, sep) == CaseOf(g, sep) {
      assert |f.path[..|f.path| - 1]| == |g.path[..|g.path| - 1]|;
    }
  }

  /** Two scripts of one directory with the same snapshot. */
  predicate SharesSnapshot(f: FixtureFile, g: FixtureFile) {
    && f.suite == g.suite && |f.path| == |g.path| > 0
    && var k := |f.path| - 1;
       f.path[..k] == g.path[..k] && Snapshot(f.path[k]) == Snapshot(g.path[k])
  }

  lemma SameSnapshotSameStem(m: Name, n: Name)
    requires Snapshot(m) == Snapshot(n)
    ensures FileStem(m) == FileStem(n)
  {
    assert Snapshot(m)[..|Snapshot(m)| - 9] == FileStem(m);
    assert Snapshot(n)[..|Snapshot(n)| - 9] == FileStem(n);
  }

  lemma SharedSnapshotCollides(f: FixtureFile, g: FixtureFile, sep: Byte)
    requires SharesSnapshot(f, g)
    ensures CaseOf(f, sep) == CaseOf(g, sep)
  {
    var k := |f.path| - 1;
    SameSnapshotSameStem(f.path[k], g.path[k]);
    if k == 0 {
      assert StemText(f.path, sep) == FileStem(f.path[k]);
    } else {
      assert StemText(f.path, sep) == Render(f.path[..k], sep) + [sep] + FileStem(f.path[k]);
    }
  }

  /** No generation succeeds where two scripts share a snapshot. */
  lemma SharedSnapshotPanics(tree: FixtureTree, sep: Byte, files: seq<FixtureFile>, outcome: Outcome,
                             f: FixtureFile, g: FixtureFile)
    requires Lists(files, tree, |SUITES|) && Reports(outcome, files, sep)
    requires IsFixtureFile(tree, f) && IsFixtureFile(tree, g) && f != g && SharesSnapshot(f, g)
    ensures outcome.Panicked?
  {
    SharedSnapshotCollides(f, g, sep);
    assert f in files && g in files;
    var i :| 0 <= i < |files| && files[i] == f;
    var j :| 0 <= j < |files| && files[j] == g;
    var cases := CasesOfFiles(files, sep);
    assert i != j && IdOf(cases[i]) == IdOf(cases[j]);
  }
}
