/** The fingerprint build scripts themselves: walk, filter, sort, feed the hasher. */
module BuildScripts {
  import opened Bytes
  import opened Ordering
  import opened Paths
  import opened Framing
  import opened SourceTree
  import opened Scripts

  /** A SHA-256 state, known by the bytes it has absorbed. */
  class Hasher {
    var absorbed: seq<Byte>

    constructor ()
      ensures absorbed == []
    {
      absorbed := [];
    }

    method Update(data: seq<Byte>)
      modifies this
      ensures absorbed == old(absorbed) + data
    {
      absorbed := absorbed + data;
    }
  }

  /** What a directory walk yields: an absolute path and whether it is a regular file. */
  datatype WalkEntry = WalkEntry(path: Path, isFile: bool)

  /** The entries under one root, in any order: each regular file once, besides directories. */
  ghost predicate Walks(entries: seq<WalkEntry>, workspace: Path, root: Path, tree: Tree) {
    && NoDuplicates(entries)
    && root !in tree
    && (forall e :: e in entries && e.isFile ==> Under(workspace, e.path))
    && (forall p :: WalkEntry(workspace + p, true) in entries <==> p in tree && Under(root, p))
  }

  /** One walk per root. */
  ghost predicate WalksAll(walks: seq<seq<WalkEntry>>, workspace: Path, script: Script, tree: Tree) {
    && |walks| == |script.roots|
    && forall i :: 0 <= i < |walks| ==> Walks(walks[i], workspace, script.roots[i], tree)
  }

  function Strip(workspace: Path, file: Path): (p: Path)
    ensures Under(workspace, file) ==> workspace + p == file
  {
    if Under(workspace, file) then file[|workspace|..] else file
  }

  lemma StripOfAbsolute(workspace: Path, p: Path)
    ensures Under(workspace, workspace + p) && Strip(workspace, workspace + p) == p
  {
  }

  /** The absolute paths in `files` are those of the relative paths in `wanted`, each once. */
  ghost predicate Holds(files: seq<Path>, workspace: Path, wanted: set<Path>) {
    && NoDuplicates(files)
    && (forall f :: f in files ==> Under(workspace, f) && Strip(workspace, f) in wanted)
    && (forall p :: p in wanted ==> workspace + p in files)
  }

  lemma AcceptsAbsolute(script: Script, workspace: Path, p: Path)
    requires p != []
    ensures script.Accepts(workspace + p) <==> script.Accepts(p)
  {
    assert (workspace + p)[|workspace + p| - 1] == p[|p| - 1];
  }

  ghost function AcceptedUnder(script: Script, tree: Tree, root: Path): (r: set<Path>) {
    set p | p in tree && Under(root, p) && script.Accepts(p)
  }

  /** The files accepted below the first n roots. */
  ghost function AcceptedBelow(script: Script, tree: Tree, n: nat): (r: set<Path>)
    requires n <= |script.roots|
  {
    set p | p in tree && script.Accepts(p) && exists i :: 0 <= i < n && Under(script.roots[i], p)
  }

  /** `found` holds the accepted regular files among the entries, each once. */
  ghost predicate Keeps(script: Script, entries: seq<WalkEntry>, found: seq<Path>) {
    && NoDuplicates(found)
    && forall f :: f in found <==> WalkEntry(f, true) in entries && script.Accepts(f)
  }

  lemma NextKept(script: Script, seen: seq<WalkEntry>, entry: WalkEntry, found: seq<Path>)
    requires Keeps(script, seen, found) && entry !in seen
    ensures Keeps(script, seen + [entry],
                  if entry.isFile && script.Accepts(entry.path) then found + [entry.path] else found)
  {
    assert entry.isFile ==> entry == WalkEntry(entry.path, true);
  }

  /** Keeps the accepted regular files of one walk. */
  method FilterWalk(script: Script, entries: seq<WalkEntry>) returns (found: seq<Path>)
    requires NoDuplicates(entries)
    ensures Keeps(script, entries, found)
  {
    found := [];
    for i := 0 to |entries|
      invariant Keeps(script, entries[..i], found)
    {
      var entry := entries[i];
      assert entries[..i + 1] == entries[..i] + [entry];
      NextKept(script, entries[..i], entry, found);
      if !entry.isFile {
        continue;
      }
      if !script.Accepts(entry.path) {
        continue;
      }
      found := found + [entry.path];
    }
    assert entries[..|entries|] == entries;
  }

  lemma WalkHolds(script: Script, entries: seq<WalkEntry>, workspace: Path, root: Path, tree: Tree,
                  found: seq<Path>)
    requires Walks(entries, workspace, root, tree)
    requires Keeps(script, entries, found)
    ensures Holds(found, workspace, AcceptedUnder(script, tree, root))
  {
    forall f | f in found
      ensures Under(workspace, f) && Strip(workspace, f) in AcceptedUnder(script, tree, root)
    {
      var e := WalkEntry(f, true);
      assert Under(workspace, e.path);
      assert WalkEntry(workspace + Strip(workspace, f), true) in entries;
      AcceptsAbsolute(script, workspace, Strip(workspace, f));
    }
    forall p | p in AcceptedUnder(script, tree, root) ensures workspace + p in found {
      AcceptsAbsolute(script, workspace, p);
    }
  }

  lemma HoldsUnion(a: seq<Path>, b: seq<Path>, workspace: Path, x: set<Path>, y: set<Path>)
    requires Holds(a, workspace, x) && Holds(b, workspace, y) && x !! y
    ensures Holds(a + b, workspace, x + y)
  {
    forall f | f in a ensures f !in b {
      assert Strip(workspace, f) in x;
    }
    var c := a + b;
    forall i, j | 0 <= i < j < |c| ensures c[i] != c[j] {
      if i < |a| <= j { assert c[i] in a && c[j] in b; }
    }
  }

  /** Walks every root in turn, then adds the lock file: every tracked file, each once. */
  method CollectFiles(script: Script, workspace: Path, walks: seq<seq<WalkEntry>>, ghost tree: Tree)
    returns (files: seq<Path>)
    requires WalksAll(walks, workspace, script, tree) && RootsApart(script) && script.Readable(tree)
    ensures Holds(files, workspace, script.TrackedFiles(tree).Keys)
  {
    files := [];
    for i := 0 to |walks|
      invariant Holds(files, workspace, AcceptedBelow(script, tree, i))
    {
      var found := FilterWalk(script, walks[i]);
      WalkHolds(script, walks[i], workspace, script.roots[i], tree, found);
      var x, y := AcceptedBelow(script, tree, i), AcceptedUnder(script, tree, script.roots[i]);
      NextRoot(script, tree, i);
      HoldsUnion(files, found, workspace, x, y);
      files := files + found;
    }
    if script.lock {
      LockIsApart(script, tree);
      StripOfAbsolute(workspace, LOCK);
      HoldsUnion(files, [workspace + LOCK], workspace, AcceptedBelow(script, tree, |walks|), {LOCK});
      files := files + [workspace + LOCK];
    }
    AllTracked(script, tree);
  }

  lemma NextRoot(script: Script, tree: Tree, i: nat)
    requires RootsApart(script) && i < |script.roots|
    ensures AcceptedBelow(script, tree, i) !! AcceptedUnder(script, tree, script.roots[i])
    ensures AcceptedBelow(script, tree, i + 1)
         == AcceptedBelow(script, tree, i) + AcceptedUnder(script, tree, script.roots[i])
  {
    forall p | p in AcceptedBelow(script, tree, i) ensures !Under(script.roots[i], p) {
      var j :| 0 <= j < i && Under(script.roots[j], p);
      if Under(script.roots[i], p) { UnderBoth(script.roots[j], script.roots[i], p); }
    }
  }

  lemma UnderBoth(a: Path, b: Path, p: Path)
    requires Under(a, p) && Under(b, p)
    ensures Under(a, b) || Under(b, a)
  {
    if |a| <= |b| {
      assert b[..|a|] == p[..|b|][..|a|] == p[..|a|];
    } else {
      assert a[..|b|] == p[..|a|][..|b|] == p[..|b|];
    }
  }

  lemma LockIsApart(script: Script, tree: Tree)
    requires RootsApart(script) && script.lock
    ensures AcceptedBelow(script, tree, |script.roots|) !! {LOCK}
  {
    assert !script.Covers(LOCK);
  }

  lemma AllTracked(script: Script, tree: Tree)
    requires script.Readable(tree)
    ensures script.TrackedFiles(tree).Keys
         == AcceptedBelow(script, tree, |script.roots|) + (if script.lock then {LOCK} else {})
  {
  }

  /** Stripping a sorted list of absolute paths gives the listing, wherever the workspace is. */
  lemma StrippedIsListing(script: Script, workspace: Path, files: seq<Path>, l: seq<Path>, tree: Tree)
    requires |l| == |files| && forall i :: 0 <= i < |l| ==> l[i] == Strip(workspace, files[i])
    requires Sorted(script.Order(), l)
    requires forall f :: f in files ==> Under(workspace, f) && Strip(workspace, f) in script.TrackedFiles(tree)
    requires forall p :: p in script.TrackedFiles(tree) ==> workspace + p in files
    ensures l == script.Listing(tree)
  {
    forall p ensures p in l <==> p in tree && script.Tracks(p) {
      if p in l {
        var i :| 0 <= i < |l| && l[i] == p;
        assert files[i] in files;
      }
      if p in script.TrackedFiles(tree) {
        StripOfAbsolute(workspace, p);
        var i :| 0 <= i < |files| && files[i] == workspace + p;
        assert l[i] == p;
      }
    }
    ListingIs(script, tree, l);
  }

  // ---------------------------------------------------------------------------
  // Sorting
  // ---------------------------------------------------------------------------

  function Stripped(workspace: Path, files: seq<Path>): (l: seq<Path>)
    ensures |l| == |files| && forall i :: 0 <= i < |l| ==> l[i] == Strip(workspace, files[i])
  {
    seq(|files|, i requires 0 <= i < |files| => Strip(workspace, files[i]))
  }

  /** `relative_bytes(left).cmp(&relative_bytes(right))`. */
  predicate RelativeLess(workspace: Path, sep: Byte, left: Path, right: Path) {
    Less(RelativeBytes(Strip(workspace, left), sep), RelativeBytes(Strip(workspace, right), sep))
  }

  lemma RelativeLessIsSlashBefore(workspace: Path, sep: Byte, left: Path, right: Path)
    requires IsSeparator(sep)
    ensures RelativeLess(workspace, sep, left, right)
       <==> SlashBefore(Strip(workspace, left), Strip(workspace, right))
  {
    RelativeBytesIsSlashJoin(Strip(workspace, left), sep);
    RelativeBytesIsSlashJoin(Strip(workspace, right), sep);
  }

  /** `files.sort()`: absolute paths in component order. */
  method SortByComponents(workspace: Path, files: seq<Path>) returns (sorted: seq<Path>)
    requires NoDuplicates(files) && forall f :: f in files ==> Under(workspace, f)
    ensures Elements(sorted) == Elements(files)
    ensures Sorted(Before, Stripped(workspace, sorted))
  {
    ComponentOrderIsTotal();
    sorted := Sort(Before, files);
    forall i, j | 0 <= i < j < |sorted|
      ensures Before(Strip(workspace, sorted[i]), Strip(workspace, sorted[j]))
    {
      assert sorted[i] in Elements(sorted) && sorted[j] in Elements(sorted);
      BeforeCommonPrefix(workspace, Strip(workspace, sorted[i]), Strip(workspace, sorted[j]));
    }
  }

  lemma RelativeOrder(workspace: Path, sep: Byte, files: seq<Path>)
    requires IsSeparator(sep) && forall f :: f in files ==> Under(workspace, f)
    ensures Orders((l, r) => RelativeLess(workspace, sep, l, r), Elements(files))
  {
    SlashOrderIsTotal();
    forall l: Path, r: Path ensures
      RelativeLess(workspace, sep, l, r) <==> SlashBefore(Strip(workspace, l), Strip(workspace, r))
    {
      RelativeLessIsSlashBefore(workspace, sep, l, r);
    }
  }

  /** `files.sort_by(...)`: absolute paths by the bytes of their normalised relative paths. */
  method SortByRelativeBytes(workspace: Path, sep: Byte, files: seq<Path>) returns (sorted: seq<Path>)
    requires IsSeparator(sep)
    requires NoDuplicates(files) && forall f :: f in files ==> Under(workspace, f)
    ensures Elements(sorted) == Elements(files)
    ensures Sorted(SlashBefore, Stripped(workspace, sorted))
  {
    RelativeOrder(workspace, sep, files);
    var before := (l, r) => RelativeLess(workspace, sep, l, r);
    assert Orders(before, Elements(files));
    sorted := Sort(before, files);
    forall i, j | 0 <= i < j < |sorted|
      ensures SlashBefore(Strip(workspace, sorted[i]), Strip(workspace, sorted[j]))
    {
      assert before(sorted[i], sorted[j]);
      RelativeLessIsSlashBefore(workspace, sep, sorted[i], sorted[j]);
    }
  }

  // ---------------------------------------------------------------------------
  // Feeding the hasher
  // ---------------------------------------------------------------------------

  /** After one more file, one more record. */
  lemma NextRecord(l: seq<Path>, tree: Tree, k: nat)
    requires k < |l| && forall p :: p in l ==> p in tree
    ensures Unterminated(RecordsOf(l[..k + 1], tree))
         == Unterminated(RecordsOf(l[..k], tree)) + EncodeUnterminated(RecordOf(l[k], tree))
    ensures Terminated(RecordsOf(l[..k + 1], tree))
         == Terminated(RecordsOf(l[..k], tree)) + EncodeTerminated(RecordOf(l[k], tree))
  {
    var rs, r := RecordsOf(l[..k], tree), RecordOf(l[k], tree);
    assert RecordsOf(l[..k + 1], tree) == rs + [r];
    UnterminatedConcat(rs, [r]);
    TerminatedConcat(rs, [r]);
    OneRecord(r);
  }

  lemma OneRecord(r: Record)
    ensures Unterminated([r]) == EncodeUnterminated(r) && Terminated([r]) == EncodeTerminated(r)
  {
    assert [r][1..] == [];
  }

  method UpdateUnterminated(hasher: Hasher, name: seq<Byte>, bytes: Contents)
    modifies hasher
    ensures hasher.absorbed == old(hasher.absorbed) + EncodeUnterminated(Record(name, bytes))
  {
    hasher.Update(name);
    hasher.Update(Le64(|bytes|));
    hasher.Update(bytes);
  }

  method UpdateTerminated(hasher: Hasher, name: seq<Byte>, bytes: Contents)
    modifies hasher
    ensures hasher.absorbed == old(hasher.absorbed) + EncodeTerminated(Record(name, bytes))
  {
    hasher.Update(name);
    hasher.Update([NUL]);
    hasher.Update(Le64(|bytes|));
    hasher.Update(bytes);
  }

  /** The update loop of the module and CLI scripts. */
  method FeedUnterminated(hasher: Hasher, workspace: Path, sep: Byte, files: seq<Path>, tree: Tree)
    requires IsSeparator(sep)
    requires forall p :: p in Stripped(workspace, files) ==> p in tree
    modifies hasher
    ensures hasher.absorbed
         == old(hasher.absorbed) + Unterminated(RecordsOf(Stripped(workspace, files), tree))
  {
    ghost var l := Stripped(workspace, files);
    for k := 0 to |files|
      invariant hasher.absorbed == old(hasher.absorbed) + Unterminated(RecordsOf(l[..k], tree))
    {
      var relative := Strip(workspace, files[k]);
      assert relative == l[k];
      RelativeBytesIsSlashJoin(relative, sep);
      UpdateUnterminated(hasher, RelativeBytes(relative, sep), tree[relative]);
      NextRecord(l, tree, k);
      AppendAssociative(old(hasher.absorbed), Unterminated(RecordsOf(l[..k], tree)),
                        EncodeUnterminated(RecordOf(l[k], tree)));
    }
    assert l[..|files|] == l;
  }

  /** The update loop of the host and backend scripts. */
  method FeedTerminated(hasher: Hasher, workspace: Path, sep: Byte, files: seq<Path>, tree: Tree)
    requires IsSeparator(sep)
    requires forall p :: p in Stripped(workspace, files) ==> p in tree
    modifies hasher
    ensures hasher.absorbed
         == old(hasher.absorbed) + Terminated(RecordsOf(Stripped(workspace, files), tree))
  {
    ghost var l := Stripped(workspace, files);
    for k := 0 to |files|
      invariant hasher.absorbed == old(hasher.absorbed) + Terminated(RecordsOf(l[..k], tree))
    {
      var relative := Strip(workspace, files[k]);
      assert relative == l[k];
      RelativeBytesIsSlashJoin(relative, sep);
      UpdateTerminated(hasher, RelativeBytes(relative, sep), tree[relative]);
      NextRecord(l, tree, k);
      AppendAssociative(old(hasher.absorbed), Terminated(RecordsOf(l[..k], tree)),
                        EncodeTerminated(RecordOf(l[k], tree)));
    }
    assert l[..|files|] == l;
  }

  // ---------------------------------------------------------------------------
  // The four scripts
  // ---------------------------------------------------------------------------

  lemma SortedFilesAreListing(script: Script, workspace: Path, files: seq<Path>, sorted: seq<Path>, tree: Tree)
    requires Holds(files, workspace, script.TrackedFiles(tree).Keys)
    requires Elements(sorted) == Elements(files)
    requires Sorted(script.Order(), Stripped(workspace, sorted))
    ensures Stripped(workspace, sorted) == script.Listing(tree)
  {
    assert forall f :: f in sorted <==> f in Elements(sorted);
    assert forall f :: f in files <==> f in Elements(files);
    StrippedIsListing(script, workspace, sorted, Stripped(workspace, sorted), tree);
  }

  lemma StreamOfListing(script: Script, l: seq<Path>, tree: Tree)
    requires l == script.Listing(tree)
    ensures forall p :: p in l ==> p in tree
    ensures script.Stream(tree) == if script.Tagged()
      then script.tag + Unterminated(RecordsOf(l, tree)) else Terminated(RecordsOf(l, tree))
  {
  }

  /** A tagged script: the bytes it hashes depend on the tracked files alone, not on the walk order,
      the workspace or the separator. */
  method TaggedFingerprint(script: Script, workspace: Path, sep: Byte, walks: seq<seq<WalkEntry>>, tree: Tree)
    returns (preimage: seq<Byte>)
    requires script.Tagged() && RootsApart(script) && script.Readable(tree) && IsSeparator(sep)
    requires WalksAll(walks, workspace, script, tree)
    ensures preimage == script.Stream(tree)
  {
    var files := CollectFiles(script, workspace, walks, tree);
    var sorted := SortByComponents(workspace, files);
    assert script.Order() == Before;
    SortedFilesAreListing(script, workspace, files, sorted, tree);
    StreamOfListing(script, Stripped(workspace, sorted), tree);
    var hasher := new Hasher();
    hasher.Update(script.tag);
    assert hasher.absorbed == script.tag;
    FeedUnterminated(hasher, workspace, sep, sorted, tree);
    preimage := hasher.absorbed;
  }

  method UntaggedFingerprint(script: Script, workspace: Path, sep: Byte, walks: seq<seq<WalkEntry>>, tree: Tree)
    returns (preimage: seq<Byte>)
    requires !script.Tagged() && RootsApart(script) && script.Readable(tree) && IsSeparator(sep)
    requires WalksAll(walks, workspace, script, tree)
    ensures preimage == script.Stream(tree)
  {
    var files := CollectFiles(script, workspace, walks, tree);
    var sorted := SortByRelativeBytes(workspace, sep, files);
    assert script.Order() == SlashBefore;
    SortedFilesAreListing(script, workspace, files, sorted, tree);
    StreamOfListing(script, Stripped(workspace, sorted), tree);
    var hasher := new Hasher();
    FeedTerminated(hasher, workspace, sep, sorted, tree);
    preimage := hasher.absorbed;
  }

  method ModuleMain(workspace: Path, sep: Byte, walks: seq<seq<WalkEntry>>, tree: Tree)
    returns (preimage: seq<Byte>)
    requires MODULE.Readable(tree) && IsSeparator(sep) && WalksAll(walks, workspace, MODULE, tree)
    ensures preimage == MODULE.Stream(tree)
  {
    AllRootsApart();
    preimage := TaggedFingerprint(MODULE, workspace, sep, walks, tree);
  }

  method CliMain(manifestDir: Path, sep: Byte, walks: seq<seq<WalkEntry>>, tree: Tree)
    returns (preimage: seq<Byte>)
    requires IsSeparator(sep) && WalksAll(walks, manifestDir, CLI, tree)
    ensures preimage == CLI.Stream(tree)
  {
    AllRootsApart();
    preimage := TaggedFingerprint(CLI, manifestDir, sep, walks, tree);
  }

  method HashBootstrapSources(workspace: Path, sep: Byte, walks: seq<seq<WalkEntry>>, tree: Tree)
    returns (preimage: seq<Byte>)
    requires HOST.Readable(tree) && IsSeparator(sep) && WalksAll(walks, workspace, HOST, tree)
    ensures preimage == HOST.Stream(tree)
  {
    AllRootsApart();
    preimage := UntaggedFingerprint(HOST, workspace, sep, walks, tree);
  }

  method BackendMain(workspace: Path, sep: Byte, walks: seq<seq<WalkEntry>>, tree: Tree)
    returns (preimage: seq<Byte>)
    requires BACKEND.Readable(tree) && IsSeparator(sep) && WalksAll(walks, workspace, BACKEND, tree)
    ensures preimage == BACKEND.Stream(tree)
  {
    AllRootsApart();
    preimage := UntaggedFingerprint(BACKEND, workspace, sep, walks, tree);
  }
}
