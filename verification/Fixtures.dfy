/** The generator that turns the fixture directories into one test per fixture. */
module Fixtures {
  import opened Wrappers
  import opened Bytes
  import opened Ordering
  import opened Paths

  /** A file, or a directory with its entries by name. */
  datatype Node = Leaf | Dir(entries: map<Name, Node>)

  const JS: seq<Byte> := [106, 115]
  const TS: seq<Byte> := [116, 115]
  const TSX: seq<Byte> := [116, 115, 120]
  const DOT_EXPECTED: seq<Byte> := [46, 101, 120, 112, 101, 99, 116, 101, 100]

  predicate IsScript(n: Name) {
    Extension(n) == Some(JS) || Extension(n) == Some(TS) || Extension(n) == Some(TSX)
  }

  /** The name of the snapshot that makes a file a runnable fixture. */
  function Snapshot(n: Name): (s: Name) {
    SnapshotIsName(n);
    FileStem(n) + DOT_EXPECTED
  }

  lemma SnapshotIsName(n: Name)
    ensures ValidName(FileStem(n) + DOT_EXPECTED)
  {
    var stem := FileStem(n);
    assert forall b :: b in stem ==> b in n;
    assert forall b :: b in DOT_EXPECTED ==> b > 0 && b != SLASH && b != BACKSLASH;
    var s := stem + DOT_EXPECTED;
    assert |s| >= 10;
    assert forall b :: b in s ==> b in stem || b in DOT_EXPECTED;
  }

  /** A path below a directory that leads to a script file with a snapshot beside it. */
  predicate IsFixture(dir: Node, p: Path)
    decreases |p|
  {
    && dir.Dir? && p != [] && p[0] in dir.entries
    && if |p| == 1 then dir.entries[p[0]].Leaf? && IsScript(p[0]) && Snapshot(p[0]) in dir.entries
       else IsFixture(dir.entries[p[0]], p[1..])
  }

  /** What a path leads to. */
  function NodeAt(dir: Node, p: Path): (r: Option<Node>)
    decreases |p|
  {
    if p == [] then Some(dir)
    else if dir.Dir? && p[0] in dir.entries then NodeAt(dir.entries[p[0]], p[1..])
    else None
  }

  /** A name that is a stem with .js, .ts or .tsx. */
  predicate IsStemOf(stem: seq<Byte>, n: seq<Byte>) {
    stem != [] && (n == stem + [46, 106, 115] || n == stem + [46, 116, 115] || n == stem + [46, 116, 115, 120])
  }

  /** A name with such a stem, beside an entry named stem.expected. */
  ghost predicate HasSnapshot(entries: map<Name, Node>, n: Name) {
    exists stem: seq<Byte> ::
      IsStemOf(stem, n) && stem + [46, 101, 120, 112, 101, 99, 116, 101, 100] in entries
  }

  lemma ScriptsHaveStems(n: Name)
    requires IsScript(n)
    ensures IsStemOf(FileStem(n), n)
  {
    var stem := FileStem(n);
    assert n == stem + [DOT] + Extension(n).value;
    if Extension(n) == Some(JS) {
      assert n == stem + [46, 106, 115];
    } else if Extension(n) == Some(TS) {
      assert n == stem + [46, 116, 115];
    } else {
      assert n == stem + [46, 116, 115, 120];
    }
  }

  lemma StemsAreOfScripts(n: Name, stem: seq<Byte>)
    requires IsStemOf(stem, n)
    ensures IsScript(n) && FileStem(n) == stem
  {
    if n == stem + [46, 106, 115] {
      assert n == stem + [DOT] + JS;
      ExtensionOf(stem, JS);
    } else if n == stem + [46, 116, 115] {
      assert n == stem + [DOT] + TS;
      ExtensionOf(stem, TS);
    } else {
      assert n == stem + [DOT] + TSX;
      ExtensionOf(stem, TSX);
    }
  }

  lemma ScriptsHaveSnapshots(entries: map<Name, Node>, n: Name)
    ensures IsScript(n) && Snapshot(n) in entries <==> HasSnapshot(entries, n)
  {
    if IsScript(n) && Snapshot(n) in entries {
      ScriptsHaveStems(n);
    }
    if HasSnapshot(entries, n) {
      var stem: seq<Byte> :| IsStemOf(stem, n) && stem + [46, 101, 120, 112, 101, 99, 116, 101, 100] in entries;
      StemsAreOfScripts(n, stem);
    }
  }

  /** The fixtures below a directory, spelled out: files of directories reached by the path. */
  lemma {:induction false} FixturesAreSpelled(dir: Node, p: Path)
    ensures IsFixture(dir, p) <==>
      && p != [] && NodeAt(dir, p) == Some(Leaf)
      && NodeAt(dir, p[..|p| - 1]).Some? && NodeAt(dir, p[..|p| - 1]).value.Dir?
      && HasSnapshot(NodeAt(dir, p[..|p| - 1]).value.entries, p[|p| - 1])
    decreases |p|
  {
    if |p| == 1 {
      assert p[..|p| - 1] == [] && p[1..] == [];
      if dir.Dir? && p[0] in dir.entries {
        ScriptsHaveSnapshots(dir.entries, p[0]);
        assert NodeAt(dir.entries[p[0]], p[1..]) == Some(dir.entries[p[0]]);
      }
    } else if |p| > 1 {
      assert p[..|p| - 1][1..] == p[1..][..|p| - 2] && p[..|p| - 1][0] == p[0];
      if dir.Dir? && p[0] in dir.entries {
        FixturesAreSpelled(dir.entries[p[0]], p[1..]);
      }
    }
  }

  // ---------------------------------------------------------------------------
  // Collecting
  // ---------------------------------------------------------------------------

  /** One generated case: the suite and the fixture's relative path without extension. */
  datatype Case = Case(suite: seq<Byte>, stem: seq<Byte>)

  /** `read_dir`: the names of a directory, in no particular order. */
  method ReadDir(entries: map<Name, Node>) returns (names: seq<Name>)
    ensures NoDuplicates(names) && Elements(names) == entries.Keys
  {
    names := [];
    var rest := entries.Keys;
    while rest != {}
      invariant NoDuplicates(names) && Elements(names) + rest == entries.Keys && Elements(names) !! rest
      decreases rest
    {
      var n :| n in rest;
      assert n !in Elements(names);
      names := names + [n];
      rest := rest - {n};
    }
  }

  /** `sort_by_key(|e| e.file_name())`. */
  predicate NameBefore(a: Name, b: Name) { Less(a, b) }

  lemma NameOrderIsTotal()
    ensures StrictTotalOrder(NameBefore)
  {
    forall a: Name ensures !NameBefore(a, a) { LessIrreflexive(a); }
    forall a: Name, b: Name, c: Name | NameBefore(a, b) && NameBefore(b, c) ensures NameBefore(a, c) {
      LessTransitive(a, b, c);
    }
    forall a: Name, b: Name ensures a == b || NameBefore(a, b) || NameBefore(b, a) { LessTotal(a, b); }
  }

  /** The files a collection finds below one directory: every fixture once, in component order. */
  ghost predicate Finds(found: seq<Path>, dir: Node) {
    && Sorted(Before, found)
    && forall p :: p in found <==> IsFixture(dir, p)
  }

  /** There is one such list, so the order in which directories are read does not show. */
  lemma FindsIsCanonical(a: seq<Path>, b: seq<Path>, dir: Node)
    requires Finds(a, dir) && Finds(b, dir)
    ensures a == b && NoDuplicates(a)
  {
    ComponentOrderIsTotal();
    forall p ensures p in Elements(a) <==> p in Elements(b) {
      assert p in a <==> p in b;
    }
    SortedUnique(Before, a, b);
    SortedHasNoDuplicates(Before, a);
  }

  function Prefixed(n: Name, ps: seq<Path>): (r: seq<Path>)
    ensures |r| == |ps| && forall i :: 0 <= i < |r| ==> r[i] == [n] + ps[i]
  {
    seq(|ps|, i requires 0 <= i < |ps| => [n] + ps[i])
  }

  /** The fixtures below one entry. */
  ghost predicate IsFixtureAt(dir: Node, n: Name, p: Path) {
    p != [] && p[0] == n && IsFixture(dir, p)
  }

  lemma SubdirectoryFixtures(dir: Node, n: Name, found: seq<Path>)
    requires dir.Dir? && n in dir.entries && dir.entries[n].Dir?
    requires Finds(found, dir.entries[n])
    ensures Sorted(Before, Prefixed(n, found))
    ensures forall p :: p in Prefixed(n, found) <==> IsFixtureAt(dir, n, p)
  {
    var r := Prefixed(n, found);
    forall i, j | 0 <= i < j < |r| ensures Before(r[i], r[j]) {
      BeforeSameHead(n, found[i], found[j]);
    }
    forall p | p in r ensures IsFixtureAt(dir, n, p) {
      var i :| 0 <= i < |r| && r[i] == p;
      assert found[i] in found && p[1..] == found[i];
    }
    forall p | IsFixtureAt(dir, n, p) ensures p in r {
      assert |p| > 1;
      assert p == [n] + p[1..];
      assert IsFixture(dir.entries[n], p[1..]);
      assert p[1..] in found;
      var i :| 0 <= i < |found| && found[i] == p[1..];
      assert r[i] == p;
    }
  }

  /** What one plain file contributes. */
  function FileFixtures(dir: Node, n: Name): (r: seq<Path>)
    requires dir.Dir?
  {
    if IsScript(n) && Snapshot(n) in dir.entries then [[n]] else []
  }

  lemma FileFixturesAreRight(dir: Node, n: Name)
    requires dir.Dir? && n in dir.entries && dir.entries[n].Leaf?
    ensures Sorted(Before, FileFixtures(dir, n))
    ensures forall p :: p in FileFixtures(dir, n) <==> IsFixtureAt(dir, n, p)
  {
    forall p | IsFixtureAt(dir, n, p) ensures p in FileFixtures(dir, n) {
      if |p| > 1 {
        assert !IsFixture(dir.entries[n], p[1..]);
      } else {
        assert p == [n];
      }
    }
    forall p | p in FileFixtures(dir, n) ensures IsFixtureAt(dir, n, p) {
      assert p == [n];
    }
  }

  /** `found` lists the fixtures below the first i entries. */
  ghost predicate FoundBelow(found: seq<Path>, dir: Node, names: seq<Name>, i: nat)
    requires i <= |names|
  {
    && Sorted(Before, found)
    && forall p :: p in found <==> exists k :: 0 <= k < i && IsFixtureAt(dir, names[k], p)
  }

  lemma NextEntry(found: seq<Path>, more: seq<Path>, dir: Node, names: seq<Name>, i: nat)
    requires i < |names| && Sorted(NameBefore, names)
    requires FoundBelow(found, dir, names, i)
    requires Sorted(Before, more) && forall p :: p in more <==> IsFixtureAt(dir, names[i], p)
    ensures FoundBelow(found + more, dir, names, i + 1)
  {
    forall p, q | p in found && q in more ensures Before(p, q) {
      var k :| 0 <= k < i && IsFixtureAt(dir, names[k], p);
      assert NameBefore(names[k], names[i]);
    }
    var all := found + more;
    forall a, b | 0 <= a < b < |all| ensures Before(all[a], all[b]) {
      if a < |found| <= b { assert all[a] in found && all[b] in more; }
    }
    forall p ensures p in all <==> exists k :: 0 <= k < i + 1 && IsFixtureAt(dir, names[k], p) {
      if p in more { assert IsFixtureAt(dir, names[i], p); }
    }
  }

  lemma AllEntries(found: seq<Path>, dir: Node, names: seq<Name>)
    requires dir.Dir? && Elements(names) == dir.entries.Keys
    requires FoundBelow(found, dir, names, |names|)
    ensures Finds(found, dir)
  {
    forall p | IsFixture(dir, p) ensures p in found {
      assert p[0] in Elements(names);
      var k :| 0 <= k < |names| && names[k] == p[0];
      assert IsFixtureAt(dir, names[k], p);
    }
  }

  /** The text of a fixture's relative path without its extension. */
  function StemText(p: Path, sep: Byte): (r: seq<Byte>) {
    if p == [] then []
    else if |p| == 1 then FileStem(p[0]) else Render(p[..|p| - 1], sep) + [sep] + FileStem(p[|p| - 1])
  }

  lemma JoinThenExtend(dir: seq<Byte>, sep: Byte, stem: seq<Byte>, e: seq<Byte>)
    ensures dir + [sep] + stem + [DOT] + e == dir + [sep] + (stem + [DOT] + e)
  {
  }

  /** The stem is the path without its extension: putting that back gives the path's text. */
  lemma StemTextIsPath(p: Path, e: seq<Byte>, sep: Byte)
    requires p != [] && Extension(p[|p| - 1]) == Some(e)
    ensures StemText(p, sep) + [DOT] + e == Render(p, sep)
  {
    var dir, n := p[..|p| - 1], p[|p| - 1];
    if |p| > 1 {
      assert p == dir + [n];
      RenderIsJoined(dir, n, sep);
      JoinThenExtend(Render(dir, sep), sep, FileStem(n), e);
    }
  }

  /** And with the snapshot's extension it is the text of the snapshot's path. */
  lemma StemTextIsSnapshot(p: Path, sep: Byte)
    requires p != []
    ensures StemText(p, sep) + DOT_EXPECTED == Render(p[..|p| - 1] + [Snapshot(p[|p| - 1])], sep)
  {
    RenderIsJoined(p[..|p| - 1], Snapshot(p[|p| - 1]), sep);
  }

  /** Two files have the same stem exactly when they share a snapshot. */
  lemma SameStemIsSameSnapshot(p: Path, q: Path, sep: Byte)
    requires p != [] && q != [] && IsSeparator(sep)
    ensures StemText(p, sep) == StemText(q, sep) <==>
      p[..|p| - 1] == q[..|q| - 1] && Snapshot(p[|p| - 1]) == Snapshot(q[|q| - 1])
  {
    var x, y := p[..|p| - 1] + [Snapshot(p[|p| - 1])], q[..|q| - 1] + [Snapshot(q[|q| - 1])];
    StemTextIsSnapshot(p, sep);
    StemTextIsSnapshot(q, sep);
    if StemText(p, sep) == StemText(q, sep) {
      RenderInjective(x, y, sep);
      assert x[..|x| - 1] == p[..|p| - 1] && y[..|y| - 1] == q[..|q| - 1];
      assert x[|x| - 1] == Snapshot(p[|p| - 1]) && y[|y| - 1] == Snapshot(q[|q| - 1]);
    }
    if p[..|p| - 1] == q[..|q| - 1] && Snapshot(p[|p| - 1]) == Snapshot(q[|q| - 1]) {
      var s, t, r := StemText(p, sep), StemText(q, sep), Render(x, sep);
      assert s == r[..|r| - |DOT_EXPECTED|] && t == r[..|r| - |DOT_EXPECTED|];
    }
  }

  function CasesOf(suite: seq<Byte>, at: Path, ps: seq<Path>, sep: Byte): (r: seq<Case>)
    ensures |r| == |ps| && forall i :: 0 <= i < |r| ==> r[i] == Case(suite, StemText(at + ps[i], sep))
  {
    seq(|ps|, i requires 0 <= i < |ps| => Case(suite, StemText(at + ps[i], sep)))
  }

  lemma CasesOfAppend(suite: seq<Byte>, at: Path, a: seq<Path>, b: seq<Path>, sep: Byte)
    ensures CasesOf(suite, at, a + b, sep) == CasesOf(suite, at, a, sep) + CasesOf(suite, at, b, sep)
  {
  }

  lemma Reassociate(at: Path, n: Name, p: Path)
    ensures (at + [n]) + p == at + ([n] + p)
  {
  }

  lemma CasesBelow(suite: seq<Byte>, at: Path, n: Name, found: seq<Path>, sep: Byte)
    ensures CasesOf(suite, at + [n], found, sep) == CasesOf(suite, at, Prefixed(n, found), sep)
  {
    forall i | 0 <= i < |found|
      ensures CasesOf(suite, at + [n], found, sep)[i] == CasesOf(suite, at, Prefixed(n, found), sep)[i]
    {
      Reassociate(at, n, found[i]);
    }
  }

  /** `collect_fixtures`, telling which files it found besides pushing their cases. */
  class Collector {
    var cases: seq<Case>

    constructor ()
      ensures cases == []
    {
      cases := [];
    }

    method CollectFixtures(dir: Node, at: Path, suite: seq<Byte>, sep: Byte) returns (ghost found: seq<Path>)
      modifies this
      ensures Finds(found, dir)
      ensures cases == old(cases) + CasesOf(suite, at, found, sep)
      decreases dir
    {
      found := [];
      if dir.Leaf? {
        return;
      }
      var names := ReadDir(dir.entries);
      NameOrderIsTotal();
      var sorted := Sort(NameBefore, names);
      for i := 0 to |sorted|
        invariant FoundBelow(found, dir, sorted, i)
        invariant cases == old(cases) + CasesOf(suite, at, found, sep)
      {
        assert sorted[i] in Elements(sorted);
        ghost var more := CollectEntry(dir, sorted[i], at, suite, sep);
        NextEntry(found, more, dir, sorted, i);
        CasesOfAppend(suite, at, found, more, sep);
        found := found + more;
      }
      AllEntries(found, dir, sorted);
    }

    /** The loop body: a directory is descended into, a script file with a snapshot pushed. */
    method CollectEntry(dir: Node, n: Name, at: Path, suite: seq<Byte>, sep: Byte)
      returns (ghost more: seq<Path>)
      requires dir.Dir? && n in dir.entries
      modifies this
      ensures Sorted(Before, more) && forall p :: p in more <==> IsFixtureAt(dir, n, p)
      ensures cases == old(cases) + CasesOf(suite, at, more, sep)
      decreases dir, 0
    {
      if dir.entries[n].Dir? {
        ghost var found := CollectFixtures(dir.entries[n], at + [n], suite, sep);
        SubdirectoryFixtures(dir, n, found);
        CasesBelow(suite, at, n, found, sep);
        more := Prefixed(n, found);
      } else {
        if IsScript(n) && Snapshot(n) in dir.entries {
          cases := cases + [Case(suite, StemText(at + [n], sep))];
        }
        FileFixturesAreRight(dir, n);
        more := FileFixtures(dir, n);
      }
    }
  }
}
