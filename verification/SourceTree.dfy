/** What each fingerprint script tracks in a source tree, and the byte stream it hashes for it. */
module SourceTree {
  import opened Wrappers
  import opened Bytes
  import opened Ordering
  import opened Paths
  import opened Framing

  /** The regular files below the directory the script strips from its paths. */
  type Tree = map<Path, Contents>

  const LOCK: Path := [CARGO_LOCK]

  /** What sets one fingerprint script apart: the tag it hashes first, the directories it walks, the
      extensions it accepts and whether it adds Cargo.lock. A tagged script sorts by component order
      and leaves names unterminated; an untagged one sorts by byte order and ends each name by a NUL. */
  datatype Script = Script(tag: seq<Byte>, roots: seq<Path>, names: Filter, lock: bool) {

    predicate Tagged() { tag != [] }

    function Order(): (r: (Path, Path) -> bool) { if Tagged() then Before else SlashBefore }

    predicate Accepts(p: Path) {
      p != [] && match Extension(p[|p| - 1])
        case None => false
        case Some(e) => names.AcceptsExtension(e)
    }

    ghost predicate Covers(p: Path) {
      exists i :: 0 <= i < |roots| && Under(roots[i], p)
    }

    ghost predicate Tracks(p: Path) {
      (Covers(p) && Accepts(p)) || (lock && p == LOCK)
    }

    /** The lock file is read, so it has to be there. */
    predicate Readable(tree: Tree) { lock ==> LOCK in tree }

    ghost function TrackedFiles(tree: Tree): (r: Tree) {
      map p | p in tree && Tracks(p) :: tree[p]
    }

    ghost function Listing(tree: Tree): (l: seq<Path>)
      ensures Sorted(Order(), l)
      ensures forall p :: p in l <==> p in tree && Tracks(p)
    {
      OrderIsTotal(this);
      var l := Canonical(Order(), TrackedFiles(tree).Keys);
      assert forall p :: p in l <==> p in Elements(l);
      l
    }

    /** The bytes hashed for the files of a list, in that order. */
    function Feed(l: seq<Path>, tree: Tree): (r: seq<Byte>)
      requires forall p :: p in l ==> p in tree
    {
      if Tagged() then tag + Unterminated(RecordsOf(l, tree)) else Terminated(RecordsOf(l, tree))
    }

    ghost function Stream(tree: Tree): (r: seq<Byte>) {
      Feed(Listing(tree), tree)
    }

    ghost predicate AllShorterThan(tree: Tree, limit: nat) {
      forall p :: p in TrackedFiles(tree) ==> |tree[p]| < limit
    }
  }

  function RecordOf(p: Path, tree: Tree): (r: Record)
    requires p in tree
  {
    Record(SlashJoin(p), tree[p])
  }

  function RecordsOf(listing: seq<Path>, tree: Tree): (rs: seq<Record>)
    requires forall p :: p in listing ==> p in tree
    ensures |rs| == |listing| && forall i :: 0 <= i < |rs| ==> rs[i] == RecordOf(listing[i], tree)
  {
    seq(|listing|, i requires 0 <= i < |listing| => RecordOf(listing[i], tree))
  }

  lemma OrderIsTotal(script: Script)
    ensures StrictTotalOrder(script.Order())
  {
    if script.Tagged() {
      ComponentOrderIsTotal();
      assert script.Order() == Before;
    } else {
      SlashOrderIsTotal();
      assert script.Order() == SlashBefore;
    }
  }

  lemma TrackedMember(script: Script, tree: Tree, p: Path)
    ensures p in script.TrackedFiles(tree) <==> p in script.Listing(tree)
    ensures p in script.TrackedFiles(tree) ==> p in tree
  {
  }

  /** A sorted list of exactly the tracked paths is the listing. */
  lemma ListingIs(script: Script, tree: Tree, l: seq<Path>)
    requires Sorted(script.Order(), l)
    requires forall p :: p in l <==> p in tree && script.Tracks(p)
    ensures script.Listing(tree) == l
  {
    OrderIsTotal(script);
    var listing := script.Listing(tree);
    forall p ensures p in Elements(l) <==> p in Elements(listing) {
      assert p in l <==> p in listing;
    }
    SortedUnique(script.Order(), l, listing);
  }

  lemma TrackedNamesOk(script: Script, p: Path)
    requires script.Tracks(p)
    ensures script.names.NameOk(SlashJoin(p)) && NUL !in SlashJoin(p)
  {
    RenderHasNoNul(p, SLASH);
    if p != LOCK {
      var name := p[|p| - 1];
      RenderEndsWithLastName(p, SLASH);
      EndsWithTransitive(SlashJoin(p), name, [DOT] + Extension(name).value);
    }
  }

  lemma RecordsDetermineFiles(s1: Script, t1: Tree, s2: Script, t2: Tree)
    requires RecordsOf(s1.Listing(t1), t1) == RecordsOf(s2.Listing(t2), t2)
    ensures s1.TrackedFiles(t1) == s2.TrackedFiles(t2)
  {
    var l1, l2 := s1.Listing(t1), s2.Listing(t2);
    SameRecords(l1, t1, l2, t2);
    assert s1.TrackedFiles(t1) == Restricted(l1, t1);
    assert s2.TrackedFiles(t2) == Restricted(l2, t2);
  }

  function Restricted(l: seq<Path>, tree: Tree): (r: Tree)
    requires forall p :: p in l ==> p in tree
  {
    map p | p in l :: tree[p]
  }

  lemma SameRecords(l1: seq<Path>, t1: Tree, l2: seq<Path>, t2: Tree)
    requires forall p :: p in l1 ==> p in t1
    requires forall p :: p in l2 ==> p in t2
    requires RecordsOf(l1, t1) == RecordsOf(l2, t2)
    ensures l1 == l2 && Restricted(l1, t1) == Restricted(l2, t2)
  {
    forall i | 0 <= i < |l1| ensures l1[i] == l2[i] && t1[l1[i]] == t2[l1[i]] {
      assert RecordsOf(l1, t1)[i] == RecordsOf(l2, t2)[i];
      RenderInjective(l1[i], l2[i], SLASH);
    }
    assert l1 == l2;
  }

  lemma FilesDetermineRecords(s1: Script, t1: Tree, s2: Script, t2: Tree)
    requires s1.Tagged() == s2.Tagged()
    requires s1.TrackedFiles(t1) == s2.TrackedFiles(t2)
    ensures RecordsOf(s1.Listing(t1), t1) == RecordsOf(s2.Listing(t2), t2)
  {
    var l := s1.Listing(t1);
    assert s2.Listing(t2) == l;
    assert s1.TrackedFiles(t1) == Restricted(l, t1);
    assert s2.TrackedFiles(t2) == Restricted(l, t2);
    SameContents(l, t1, t2);
  }

  lemma SameContents(l: seq<Path>, t1: Tree, t2: Tree)
    requires forall p :: p in l ==> p in t1 && p in t2
    requires Restricted(l, t1) == Restricted(l, t2)
    ensures RecordsOf(l, t1) == RecordsOf(l, t2)
  {
    forall i | 0 <= i < |l| ensures RecordOf(l[i], t1) == RecordOf(l[i], t2) {
      assert Restricted(l, t1)[l[i]] == Restricted(l, t2)[l[i]];
    }
  }

  lemma RecordsAreOk(script: Script, tree: Tree)
    ensures forall r :: r in RecordsOf(script.Listing(tree), tree) ==> NulFree(r)
    ensures script.AllShorterThan(tree, script.names.Limit()) ==>
              forall r :: r in RecordsOf(script.Listing(tree), tree) ==> script.names.RecordOk(r)
  {
    var l := script.Listing(tree);
    var rs := RecordsOf(l, tree);
    forall r | r in rs
      ensures NulFree(r)
      ensures script.AllShorterThan(tree, script.names.Limit()) ==> script.names.RecordOk(r)
    {
      var i :| 0 <= i < |rs| && rs[i] == r;
      TrackedNamesOk(script, l[i]);
    }
  }

  /** Two trees feed the hasher the same bytes exactly when the script tracks the same files with the
      same contents in both. A tagged script needs every tracked file below its limit for that. */
  lemma StreamDeterminesSources(script: Script, t1: Tree, t2: Tree)
    requires script.Tagged() ==> script.AllShorterThan(t1, script.names.Limit())
    requires script.Tagged() ==> script.AllShorterThan(t2, script.names.Limit())
    ensures script.Stream(t1) == script.Stream(t2)
       <==> script.TrackedFiles(t1) == script.TrackedFiles(t2)
  {
    if !script.Tagged() {
      UntaggedStreamsDetermineSources(script, t1, script, t2);
    } else if script.TrackedFiles(t1) == script.TrackedFiles(t2) {
      FilesDetermineRecords(script, t1, script, t2);
    } else if script.Stream(t1) == script.Stream(t2) {
      var r1, r2 := RecordsOf(script.Listing(t1), t1), RecordsOf(script.Listing(t2), t2);
      RecordsAreOk(script, t1);
      RecordsAreOk(script, t2);
      var n := |script.tag|;
      assert Unterminated(r1) == script.Stream(t1)[n..] && Unterminated(r2) == script.Stream(t2)[n..];
      UnterminatedInjective(script.names, r1, r2);
      RecordsDetermineFiles(script, t1, script, t2);
    }
  }

  /** Untagged streams can be read back, so even two different untagged scripts feed the same bytes
      exactly when they track the same files. */
  lemma UntaggedStreamsDetermineSources(s1: Script, t1: Tree, s2: Script, t2: Tree)
    requires !s1.Tagged() && !s2.Tagged()
    ensures s1.Stream(t1) == s2.Stream(t2) <==> s1.TrackedFiles(t1) == s2.TrackedFiles(t2)
  {
    if s1.TrackedFiles(t1) == s2.TrackedFiles(t2) {
      FilesDetermineRecords(s1, t1, s2, t2);
    }
    if s1.Stream(t1) == s2.Stream(t2) {
      RecordsAreOk(s1, t1);
      RecordsAreOk(s2, t2);
      ParseInvertsTerminated(RecordsOf(s1.Listing(t1), t1));
      ParseInvertsTerminated(RecordsOf(s2.Listing(t2), t2));
      RecordsDetermineFiles(s1, t1, s2, t2);
    }
  }
}
