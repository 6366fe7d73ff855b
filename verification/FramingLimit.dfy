/** The file length up to which an unterminated stream tells source trees apart, and no further. */
module FramingLimit {
  import opened Wrappers
  import opened Bytes
  import opened Ordering
  import opened Paths
  import opened Framing
  import opened SourceTree

  /** Below `limit`, equal streams mean equal tracked files. */
  ghost predicate Separates(script: Script, limit: nat) {
    forall t1: Tree, t2: Tree ::
      && script.Readable(t1) && script.Readable(t2)
      && script.AllShorterThan(t1, limit) && script.AllShorterThan(t2, limit)
      && script.Stream(t1) == script.Stream(t2)
      ==> script.TrackedFiles(t1) == script.TrackedFiles(t2)
  }

  /** The first root sorts after the lock file and its path leaves room in a file of limit length. */
  ghost predicate OpenRoot(script: Script) {
    && script.roots != []
    && (script.lock ==> Before(LOCK, script.roots[0]) && !script.Covers(LOCK))
    && |SlashJoin(script.roots[0])| < 100
  }

  const A_RS: Name := [97, 46, 114, 115]
  const B_RS: Name := [98, 46, 114, 115]

  /** The accepted suffix whose bytes spell the script's limit. */
  function LimitSuffix(script: Script): (s: seq<Byte>) {
    match script.names case JsRsToml => DOT_JS case RsToml => DOT_RS
  }

  /** a.rs.js, or a.rs.rs where js is not accepted. */
  function LongName(script: Script): (r: Name) {
    match script.names
    case JsRsToml => [97, 46, 114, 115, 46, 106, 115]
    case RsToml => [97, 46, 114, 115, 46, 114, 115]
  }

  function Head(root: Path): (r: seq<Byte>) {
    if root == [] then [] else SlashJoin(root) + [SLASH]
  }

  lemma JoinBelow(root: Path, n: Name)
    ensures SlashJoin(root + [n]) == Head(root) + n
  {
    if root == [] { assert root + [n] == [n]; } else { RenderUnder(root, [n], SLASH); }
  }

  lemma LimitBytes(script: Script)
    ensures Le64(script.names.Limit()) == LimitSuffix(script) + [0, 0, 0, 0, 0]
    ensures Le64(0) == [0, 0, 0, 0, 0, 0, 0, 0]
  {
    Le64Small(script.names.Limit());
    Le64Small(0);
    var l := Le64(script.names.Limit());
    assert l == [l[0], l[1], l[2]] + l[3..];
  }

  function LockTree(script: Script): (r: Tree) { if script.lock then map[LOCK := []] else map[] }

  function LockList(script: Script): (r: seq<Path>) { if script.lock then [LOCK] else [] }

  lemma ListingOfFew(script: Script, files: Tree, l: seq<Path>)
    requires script.Tagged() && OpenRoot(script)
    requires forall p :: p in l <==> p in files
    requires Sorted(Before, l)
    requires forall p :: p in l ==> script.Accepts(p) && Under(script.roots[0], p)
    ensures script.Listing(LockTree(script) + files) == LockList(script) + l
  {
    var all, full := LockTree(script) + files, LockList(script) + l;
    assert script.Order() == Before;
    assert Sorted(Before, full) by {
      if script.lock {
        forall p | p in l ensures Before(LOCK, p) { LockFirst(script.roots[0], p); }
        assert full == [LOCK] + l;
      } else {
        assert full == l;
      }
    }
    forall p ensures p in full <==> p in all && script.Tracks(p) {
      assert p in full <==> p in l || (script.lock && p == LOCK);
      if p in l { assert script.Covers(p); }
    }
    ListingIs(script, all, full);
  }

  lemma LockFirst(root: Path, p: Path)
    requires Before(LOCK, root) && Under(root, p)
    ensures Before(LOCK, p)
  {
    LessIrreflexive(CARGO_LOCK);
    assert root[0] == p[..|root|][0] == p[0];
    assert LOCK[1..] == [];
  }

  /** The contents, of exactly limit length, that hide an empty file's end and a second file. */
  function Disguise(script: Script, h: seq<Byte>): (c: Contents)
    requires |h| < 1000
    ensures |c| == script.names.Limit()
  {
    [0, 0, 0] + h + B_RS + Le64(|Padding(script, h)|) + Padding(script, h)
  }

  function Padding(script: Script, h: seq<Byte>): (d: Contents)
    requires |h| < 1000
    ensures |d| == script.names.Limit() - 15 - |h|
  {
    seq(script.names.Limit() - 15 - |h|, _ => 0)
  }

  /** One file and two files with the same bytes. */
  lemma AmbiguousBytes(script: Script, h: seq<Byte>)
    requires |h| < 1000
    ensures EncodeUnterminated(Record(h + A_RS, Disguise(script, h)))
         == EncodeUnterminated(Record(h + LongName(script), []))
          + EncodeUnterminated(Record(h + B_RS, Padding(script, h)))
  {
    LimitBytes(script);
    var rest := h + B_RS + Le64(|Padding(script, h)|) + Padding(script, h);
    var suffix := LimitSuffix(script);
    calc {
      EncodeUnterminated(Record(h + A_RS, Disguise(script, h)));
      h + A_RS + (suffix + [0, 0, 0, 0, 0]) + ([0, 0, 0] + rest);
      h + (A_RS + suffix) + [0, 0, 0, 0, 0, 0, 0, 0] + rest;
      { assert A_RS + suffix == LongName(script); }
      h + LongName(script) + Le64(0) + [] + rest;
    }
  }

  lemma ExampleNames(script: Script)
    ensures Extension(A_RS) == Some(DOT_RS[1..]) && Extension(B_RS) == Some(DOT_RS[1..])
    ensures Extension(LongName(script)) == Some(LimitSuffix(script)[1..])
    ensures Less(LongName(script), B_RS)
  {
    assert [97] + [DOT] + DOT_RS[1..] == A_RS && [98] + [DOT] + DOT_RS[1..] == B_RS;
    assert A_RS + [DOT] + LimitSuffix(script)[1..] == LongName(script);
    ExtensionOf([97], DOT_RS[1..]);
    ExtensionOf([98], DOT_RS[1..]);
    ExtensionOf(A_RS, LimitSuffix(script)[1..]);
  }

  function PathA(script: Script): (r: Path) requires OpenRoot(script) { script.roots[0] + [A_RS] }
  function PathB(script: Script): (r: Path) requires OpenRoot(script) { script.roots[0] + [B_RS] }
  function PathLong(script: Script): (r: Path) requires OpenRoot(script) { script.roots[0] + [LongName(script)] }

  /** One file of limit length... */
  function OneFile(script: Script): (r: Tree)
    requires OpenRoot(script)
  {
    map[PathA(script) := Disguise(script, Head(script.roots[0]))]
  }

  /** ...and two shorter ones. */
  function TwoFiles(script: Script): (r: Tree)
    requires OpenRoot(script)
  {
    map[PathLong(script) := [], PathB(script) := Padding(script, Head(script.roots[0]))]
  }

  lemma PathsDiffer(script: Script)
    requires OpenRoot(script)
    ensures PathA(script) != PathB(script) && PathA(script) != PathLong(script)
    ensures PathLong(script) != PathB(script)
    ensures script.lock ==> LOCK !in {PathA(script), PathB(script), PathLong(script)}
  {
    var root := script.roots[0];
    assert PathA(script)[|root|] == A_RS && PathB(script)[|root|] == B_RS;
    assert PathLong(script)[|root|] == LongName(script);
  }

  lemma ListingOne(script: Script)
    requires script.Tagged() && OpenRoot(script)
    ensures script.Listing(LockTree(script) + OneFile(script)) == LockList(script) + [PathA(script)]
  {
    ExampleNames(script);
    assert PathA(script)[|PathA(script)| - 1] == A_RS;
    ListingOfFew(script, OneFile(script), [PathA(script)]);
  }

  lemma ListingTwo(script: Script)
    requires script.Tagged() && OpenRoot(script)
    ensures script.Listing(LockTree(script) + TwoFiles(script))
         == LockList(script) + [PathLong(script), PathB(script)]
  {
    ExampleNames(script);
    var b, c := PathB(script), PathLong(script);
    assert b[|b| - 1] == B_RS && c[|c| - 1] == LongName(script);
    assert script.Accepts(b) && script.Accepts(c);
    BeforeCommonPrefix(script.roots[0], [LongName(script)], [B_RS]);
    ListingOfFew(script, TwoFiles(script), [PathLong(script), PathB(script)]);
  }

  function LockRecords(script: Script): (r: seq<Record>) {
    if script.lock then [Record(SlashJoin(LOCK), [])] else []
  }

  lemma StreamBehindLock(script: Script, tree: Tree, l: seq<Path>, rs: seq<Record>)
    requires script.Tagged()
    requires forall p :: p in l ==> p in tree
    requires |rs| == |l| && forall i :: 0 <= i < |l| ==> rs[i] == RecordOf(l[i], tree)
    requires script.lock ==> LOCK in tree && tree[LOCK] == []
    ensures forall p :: p in LockList(script) + l ==> p in tree
    ensures script.Feed(LockList(script) + l, tree)
         == script.tag + (Unterminated(LockRecords(script)) + Unterminated(rs))
  {
    assert RecordsOf(LockList(script) + l, tree) == LockRecords(script) + rs;
    UnterminatedConcat(LockRecords(script), rs);
  }

  lemma FeedOne(script: Script, h: seq<Byte>)
    requires OpenRoot(script) && script.Tagged() && h == Head(script.roots[0])
    ensures var tree := LockTree(script) + OneFile(script);
      && (forall p :: p in LockList(script) + [PathA(script)] ==> p in tree)
      && script.Feed(LockList(script) + [PathA(script)], tree)
         == script.tag + (Unterminated(LockRecords(script))
                          + Unterminated([Record(h + A_RS, Disguise(script, h))]))
  {
    PathsDiffer(script);
    JoinBelow(script.roots[0], A_RS);
    StreamBehindLock(script, LockTree(script) + OneFile(script), [PathA(script)],
                     [Record(h + A_RS, Disguise(script, h))]);
  }

  lemma FeedTwo(script: Script, h: seq<Byte>)
    requires OpenRoot(script) && script.Tagged() && h == Head(script.roots[0])
    ensures var tree := LockTree(script) + TwoFiles(script);
      && (forall p :: p in LockList(script) + [PathLong(script), PathB(script)] ==> p in tree)
      && script.Feed(LockList(script) + [PathLong(script), PathB(script)], tree)
         == script.tag + (Unterminated(LockRecords(script))
                          + Unterminated([Record(h + LongName(script), []),
                                          Record(h + B_RS, Padding(script, h))]))
  {
    PathsDiffer(script);
    JoinBelow(script.roots[0], B_RS);
    JoinBelow(script.roots[0], LongName(script));
    StreamBehindLock(script, LockTree(script) + TwoFiles(script), [PathLong(script), PathB(script)],
                     [Record(h + LongName(script), []), Record(h + B_RS, Padding(script, h))]);
  }

  /** Both trees feed the hasher the same bytes. */
  lemma StreamsAgree(script: Script)
    requires OpenRoot(script) && script.Tagged()
    ensures script.Stream(LockTree(script) + OneFile(script))
         == script.Stream(LockTree(script) + TwoFiles(script))
  {
    var h := Head(script.roots[0]);
    FeedOne(script, h);
    FeedTwo(script, h);
    SameUnterminated(script, h);
    ListingOne(script);
    ListingTwo(script);
  }

  lemma SameUnterminated(script: Script, h: seq<Byte>)
    requires |h| < 1000
    ensures Unterminated([Record(h + A_RS, Disguise(script, h))])
         == Unterminated([Record(h + LongName(script), []), Record(h + B_RS, Padding(script, h))])
  {
    AmbiguousBytes(script, h);
    var a, b := Record(h + A_RS, Disguise(script, h)), Record(h + B_RS, Padding(script, h));
    var long := Record(h + LongName(script), []);
    assert [long, b][1..] == [b] && [a][1..] == [] && [b][1..] == [];
    assert Unterminated([a]) == EncodeUnterminated(a);
    assert Unterminated([b]) == EncodeUnterminated(b);
    assert Unterminated([long, b]) == EncodeUnterminated(long) + Unterminated([b]);
  }

  lemma ExampleTreesDiffer(script: Script)
    requires OpenRoot(script) && script.Tagged()
    ensures script.TrackedFiles(LockTree(script) + OneFile(script))
         != script.TrackedFiles(LockTree(script) + TwoFiles(script))
  {
    var a, t1 := PathA(script), LockTree(script) + OneFile(script);
    ListingOne(script);
    var l := script.Listing(t1);
    assert l[|l| - 1] == a;
    TrackedMember(script, t1, a);
    OnlyInFirst(script);
    TrackedMember(script, LockTree(script) + TwoFiles(script), a);
  }

  lemma OnlyInFirst(script: Script)
    requires OpenRoot(script)
    ensures PathA(script) !in LockTree(script) + TwoFiles(script)
  {
    PathsDiffer(script);
  }

  lemma ExampleFilesAreShort(script: Script, limit: nat)
    requires OpenRoot(script) && script.names.Limit() < limit
    ensures script.AllShorterThan(LockTree(script) + OneFile(script), limit)
    ensures script.AllShorterThan(LockTree(script) + TwoFiles(script), limit)
  {
    var t1, t2 := LockTree(script) + OneFile(script), LockTree(script) + TwoFiles(script);
    assert forall p :: p in t1 ==> |t1[p]| < limit;
    assert forall p :: p in t2 ==> |t2[p]| < limit;
    forall p ensures p in script.TrackedFiles(t1) ==> p in t1 { TrackedMember(script, t1, p); }
    forall p ensures p in script.TrackedFiles(t2) ==> p in t2 { TrackedMember(script, t2, p); }
  }

  lemma SeparatedTrees(script: Script, limit: nat, t1: Tree, t2: Tree)
    requires Separates(script, limit) && script.Readable(t1) && script.Readable(t2)
    requires script.AllShorterThan(t1, limit) && script.AllShorterThan(t2, limit)
    requires script.Stream(t1) == script.Stream(t2)
    ensures script.TrackedFiles(t1) == script.TrackedFiles(t2)
  {
  }

  /** A file of limit length is enough for two different trees to feed the same bytes. */
  lemma LimitIsNeeded(script: Script, limit: nat)
    requires script.Tagged() && OpenRoot(script) && script.names.Limit() < limit
    ensures !Separates(script, limit)
  {
    if Separates(script, limit) {
      StreamsAgree(script);
      ExampleFilesAreShort(script, limit);
      SeparatedTrees(script, limit, LockTree(script) + OneFile(script), LockTree(script) + TwoFiles(script));
      ExampleTreesDiffer(script);
    }
  }

  /** Streams separate trees below a limit exactly when that limit is at most the script's own. */
  lemma LimitIsExact(script: Script, limit: nat)
    requires script.Tagged() && OpenRoot(script)
    ensures Separates(script, limit) <==> limit <= script.names.Limit()
  {
    if limit <= script.names.Limit() {
      forall t1: Tree, t2: Tree
        | && script.AllShorterThan(t1, limit) && script.AllShorterThan(t2, limit)
          && script.Stream(t1) == script.Stream(t2)
        ensures script.TrackedFiles(t1) == script.TrackedFiles(t2)
      {
        StreamDeterminesSources(script, t1, t2);
      }
    } else {
      LimitIsNeeded(script, limit);
    }
  }
}
