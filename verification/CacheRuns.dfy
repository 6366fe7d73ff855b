/** Runs that show where the guarantees of the artifact cache end. */
module CacheRuns {
  import opened Wrappers
  import opened Bytes
  import opened Paths
  import opened SourceTree
  import opened Scripts
  import opened CacheKeys
  import opened ReadTrace
  import opened ArtifactCache
  import opened CachedBuilds

  // ---------------------------------------------------------------------------
  // An untracked compiler source
  // ---------------------------------------------------------------------------

  /** The invocation by a compiler built with other contents of one source file. */
  function Rebuilt(i: Invocation, p: Path, c: Contents): (j: Invocation) {
    i.(workspace := i.workspace[p := c])
  }

  /** Whatever the compilers: if changing one file of the optimiser's crate takes a result away, the
      changed compiler is answered with it all the same. */
  lemma OptimizerChangeGoesStale(h: Hash, compilerOf: CompilerOf, p: Path, c: Contents, i: Invocation,
                                 fs: FileSystem, hit: Hit)
    returns (b: Build)
    requires Under(OPTIMIZER, p) && i.Fingerprinted() && fs.Valid()
    requires Emits(compilerOf(i), fs, hit) && !Emits(compilerOf(Rebuilt(i, p, c)), fs, hit)
    ensures Hits(h, compilerOf, [b], OneStore(StoreOf(h, b)), Rebuilt(i, p, c), fs, hit)
    ensures !HitsAreClean(h, compilerOf)
  {
    OptimizerIsUntracked(MODULE, p);
    assert MODULE.TrackedFiles(Rebuilt(i, p, c).workspace) == MODULE.TrackedFiles(i.workspace);
    var t :| Compiles(compilerOf(i), t, fs, hit);
    b := Build(i, fs, t, hit);
    AgreementIsRecorded(compilerOf(i), t, fs, hit);
    FreshBuildHits(h, compilerOf, b, Rebuilt(i, p, c), fs);
  }

  function SourceAt(tree: Tree, p: Path): (c: Contents) {
    if p in tree then tree[p] else []
  }

  /** Compilers that read the entry and whose output shows one of their own sources. */
  function Showing(p: Path): (c: CompilerOf) {
    (i: Invocation) => (t: seq<Observation>) =>
      if t == [] then Query(Read(i.entry)) else Emit(SourceAt(i.workspace, p), i.entry)
  }

  lemma ShowingEmits(p: Path, i: Invocation, fs: FileSystem)
    ensures Emits(Showing(p)(i), fs, Hit(SourceAt(i.workspace, p), i.entry))
    ensures forall hit :: Emits(Showing(p)(i), fs, hit) ==> hit.artifact == SourceAt(i.workspace, p)
  {
    var t := [Observation(Read(i.entry), Ask(fs, Read(i.entry)))];
    assert t[..0] == [];
    assert Compiles(Showing(p)(i), t, fs, Hit(SourceAt(i.workspace, p), i.entry));
    forall hit | Emits(Showing(p)(i), fs, hit) ensures hit.artifact == SourceAt(i.workspace, p) {
      var u :| Compiles(Showing(p)(i), u, fs, hit);
      CompilationIsDeterministic(Showing(p)(i), t, u, fs, Hit(SourceAt(i.workspace, p), i.entry), hit);
    }
  }

  /** There are such compilers, for every file of the optimiser and every change of it: what they emit
      depends on nothing unrecorded, but on more than the keys cover. */
  lemma ShowingGoesStale(h: Hash, p: Path, c: Contents, i: Invocation, fs: FileSystem) returns (b: Build)
    requires Under(OPTIMIZER, p) && c != SourceAt(i.workspace, p)
    requires i.Fingerprinted() && fs.Valid()
    ensures var hit := Hit(SourceAt(i.workspace, p), i.entry);
      && Hits(h, Showing(p), [b], OneStore(StoreOf(h, b)), Rebuilt(i, p, c), fs, hit)
      && !Emits(Showing(p)(Rebuilt(i, p, c)), fs, hit)
    ensures RecordSuffices(Showing(p)) && !KeysSuffice(Showing(p))
  {
    ShowingEmits(p, i, fs);
    ShowingEmits(p, Rebuilt(i, p, c), fs);
    b := OptimizerChangeGoesStale(h, Showing(p), p, c, i, fs, Hit(SourceAt(i.workspace, p), i.entry));
    ShowingRecordSuffices(p);
    HitsAreCleanExactly(h, Showing(p));
  }

  lemma ShowingRecordSuffices(p: Path)
    ensures RecordSuffices(Showing(p))
  {
    forall i: Invocation, past: FileSystem, now: FileSystem, t: seq<Observation>, hit: Hit
      | Compiles(Showing(p)(i), t, past, hit)
      ensures Emits(Showing(p)(i), now, hit)
    {
      ShowingEmits(p, i, past);
      ShowingEmits(p, i, now);
      var u := [Observation(Read(i.entry), Ask(past, Read(i.entry)))];
      assert u[..0] == [];
      CompilationIsDeterministic(Showing(p)(i), t, u, past, hit, Hit(SourceAt(i.workspace, p), i.entry));
    }
  }

  // ---------------------------------------------------------------------------
  // A swallowed error
  // ---------------------------------------------------------------------------

  /** A package directory whose main entry is itself a directory with a manifest: the directory of the
      main entry, its package.json and index.js, the package's own index.js, and the directories the
      package lies in. */
  datatype Package = Package(root: Text, lib: Text, manifest: Text, libIndex: Text, index: Text, above: set<Text>) {
    function Dirs(): (r: set<Text>) { above + {root, lib} }

    function Files(): (r: set<Text>) { {manifest, libIndex, index} }

    /** The files are different ones, none is a directory, and everything lies in directories. */
    ghost predicate Sane() {
      && manifest !in {libIndex, index} && libIndex != index && Files() !! Dirs()
      && forall p, q :: p in Files() + Dirs() && Below(q, p) ==> q in Dirs()
    }
  }

  /** The index file that is used: that of the main entry, or the package's own if the main entry's
      manifest could not be read. */
  function IndexUsed(k: Package, manifest: Answer): (p: Text)
  {
    if manifest == Failed then k.index else k.libIndex
  }

  /** The observations of resolving the main entry, when the manifest has no entries of its own. */
  function Resolution(k: Package, fs: FileSystem): (t: seq<Observation>)
  {
    var index := IndexUsed(k, Ask(fs, Read(k.manifest)));
    [Observation(IsFile(k.lib), Ask(fs, IsFile(k.lib))),
     Observation(IsDir(k.lib), Ask(fs, IsDir(k.lib))),
     Observation(Canonicalize(k.lib), Ask(fs, Canonicalize(k.lib))),
     Observation(IsFile(k.manifest), Ask(fs, IsFile(k.manifest))),
     Observation(Read(k.manifest), Ask(fs, Read(k.manifest))),
     Observation(IsFile(index), Ask(fs, IsFile(index))),
     Observation(Canonicalize(index), Ask(fs, Canonicalize(index))),
     Observation(Read(index), Ask(fs, Read(index)))]
  }

  /** What comes after n observations. */
  function Resolve(k: Package, t: seq<Observation>, n: nat): (a: Action)
    requires n <= |t|
  {
    if n == 0 then Query(IsFile(k.lib))
    else if n == 1 && t[0].answer == Flag(false) then Query(IsDir(k.lib))
    else if n == 2 && t[1].answer == Flag(true) then Query(Canonicalize(k.lib))
    else if n == 3 && t[2].answer.Target? then Query(IsFile(k.manifest))
    else if n == 4 && t[3].answer == Flag(true) then Query(Read(k.manifest))
    else if n == 5 then Query(IsFile(IndexUsed(k, t[4].answer)))
    else if n == 6 && t[5].answer == Flag(true) then Query(Canonicalize(IndexUsed(k, t[4].answer)))
    else if n == 7 && t[6].answer.Target? then Query(Read(IndexUsed(k, t[4].answer)))
    else if n == 8 && t[7].answer.Data? then Emit(t[7].answer.bytes, k.root)
    else Abort
  }

  /** A compiler that resolves the main entry so, falls back on the package's own index when that
      fails, and emits the module it finds. */
  function Resolving(k: Package): (c: Compiler)
  {
    (t: seq<Observation>) => Resolve(k, t, |t|)
  }

  /** The package on disk; the manifest is a file whose bytes are text only if `manifest` says so. */
  function OnDisk(k: Package, manifest: Option<Contents>, libIndex: Contents, index: Contents): (fs: FileSystem)
  {
    var contents := map[k.libIndex := libIndex, k.index := index];
    FileSystem(k.Files(), k.Dirs(),
               map[k.lib := k.lib, k.libIndex := k.libIndex, k.index := k.index],
               match manifest case None => contents case Some(m) => contents[k.manifest := m])
  }

  lemma OnDiskIsValid(k: Package, manifest: Option<Contents>, libIndex: Contents, index: Contents)
    requires k.Sane()
    ensures OnDisk(k, manifest, libIndex, index).Valid()
  {
    var fs := OnDisk(k, manifest, libIndex, index);
    assert fs.Existing() == k.Files() + k.Dirs();
  }

  lemma PrefixResolves(k: Package, t: seq<Observation>, n: nat)
    requires n <= |t|
    ensures Resolving(k)(t[..n]) == Resolve(k, t, n)
  {
  }

  lemma ResolutionCompiles(k: Package, manifest: Option<Contents>, libIndex: Contents, index: Contents)
    requires k.Sane()
    ensures var fs := OnDisk(k, manifest, libIndex, index);
      Compiles(Resolving(k), Resolution(k, fs), fs,
               Hit(if manifest.None? then index else libIndex, k.root))
  {
    var fs := OnDisk(k, manifest, libIndex, index);
    var t := Resolution(k, fs);
    forall n | 0 <= n < |t| ensures Resolving(k)(t[..n]) == Query(t[n].probe) && Ask(fs, t[n].probe) == t[n].answer {
      PrefixResolves(k, t, n);
      EachQueryFollows(k, manifest, libIndex, index, n);
      EachAnswerIsAsked(k, fs, n);
    }
    PrefixResolves(k, t, |t|);
    assert t[..|t|] == t;
  }

  lemma EachAnswerIsAsked(k: Package, fs: FileSystem, n: nat)
    requires n < 8
    ensures Ask(fs, Resolution(k, fs)[n].probe) == Resolution(k, fs)[n].answer
  {
  }

  lemma EachQueryFollows(k: Package, manifest: Option<Contents>, libIndex: Contents, index: Contents, n: nat)
    requires k.Sane() && n < 8
    ensures var t := Resolution(k, OnDisk(k, manifest, libIndex, index));
      Resolve(k, t, n) == Query(t[n].probe)
  {
  }

  /** Nothing that is observed covers the failed read... */
  lemma FailureIsUncovered(k: Package, libIndex: Contents, index: Contents)
    requires k.Sane()
    ensures !Covered(Resolution(k, OnDisk(k, None, libIndex, index)))
  {
    var t := Resolution(k, OnDisk(k, None, libIndex, index));
    assert t[4] in t && t[4] == Observation(Read(k.manifest), Failed);
    forall o | o in t ensures !ShowsDirectory(o, k.manifest) {
      assert o.probe.path in k.Files() + k.Dirs();
    }
    forall o, d | o in t && Below(d, k.manifest) ensures !ShowsNoDirectory(o, d) {
      assert d in k.Dirs();
    }
    assert !Backed(t, Read(k.manifest));
  }

  /** ...and it is the only observation that the repair changes. */
  lemma RepairIsNotNoticed(k: Package, manifest: Contents, libIndex: Contents, index: Contents)
    requires k.Sane()
    ensures RecordedAgree(Resolution(k, OnDisk(k, None, libIndex, index)), OnDisk(k, Some(manifest), libIndex, index))
  {
  }

  /** Compilers that resolve so, whatever they were built from and asked. */
  function ResolvingAlways(k: Package): (c: CompilerOf) {
    (i: Invocation) => Resolving(k)
  }

  /** Whatever the compilers: if a change that leaves everything recorded as it was takes a result away,
      the next lookup is answered with it all the same. */
  lemma UnrecordedChangeGoesStale(h: Hash, compilerOf: CompilerOf, b: Build, now: FileSystem)
    requires Genuine(b, compilerOf) && now.Valid() && RecordedAgree(b.t, now)
    requires !Emits(compilerOf(b.inv), now, b.hit)
    ensures Hits(h, compilerOf, [b], OneStore(StoreOf(h, b)), b.inv, now, b.hit)
    ensures !HitsAreClean(h, compilerOf)
  {
    FreshBuildHits(h, compilerOf, b, b.inv, now);
  }

  lemma OnlyResult(c: Compiler, t: seq<Observation>, fs: FileSystem, hit: Hit, other: Hit)
    requires Compiles(c, t, fs, hit) && other != hit
    ensures Emits(c, fs, hit) && !Emits(c, fs, other)
  {
    if Emits(c, fs, other) {
      var u :| Compiles(c, u, fs, other);
      CompilationIsDeterministic(c, t, u, fs, hit, other);
    }
  }

  ghost function SwallowingBuild(k: Package, libIndex: Contents, index: Contents, i: Invocation): (b: Build) {
    var before := OnDisk(k, None, libIndex, index);
    Build(i, before, Resolution(k, before), Hit(index, k.root))
  }

  /** A manifest that is not text is a failed read, which is swallowed and not recorded. When the
      manifest is repaired, every recorded fact still holds: the next lookup is answered with the module
      the failure led to, and a clean build would emit another. The compilers depend on nothing but what
      the keys cover. */
  lemma SwallowedErrorGoesStale(h: Hash, k: Package, manifest: Contents, libIndex: Contents, index: Contents,
                                i: Invocation)
    requires k.Sane() && libIndex != index && i.Fingerprinted()
    ensures var b, now := SwallowingBuild(k, libIndex, index, i), OnDisk(k, Some(manifest), libIndex, index);
      && !Covered(b.t) && Hits(h, ResolvingAlways(k), [b], OneStore(StoreOf(h, b)), i, now, b.hit)
      && Emits(Resolving(k), now, Hit(libIndex, k.root)) && !Emits(Resolving(k), now, b.hit)
    ensures KeysSuffice(ResolvingAlways(k)) && !RecordSuffices(ResolvingAlways(k))
    ensures !HitsAreClean(h, ResolvingAlways(k))
  {
    var b, now := SwallowingBuild(k, libIndex, index, i), OnDisk(k, Some(manifest), libIndex, index);
    OnDiskIsValid(k, None, libIndex, index);
    OnDiskIsValid(k, Some(manifest), libIndex, index);
    ResolutionCompiles(k, None, libIndex, index);
    ResolutionCompiles(k, Some(manifest), libIndex, index);
    FailureIsUncovered(k, libIndex, index);
    RepairIsNotNoticed(k, manifest, libIndex, index);
    OnlyResult(Resolving(k), Resolution(k, now), now, Hit(libIndex, k.root), b.hit);
    UnrecordedChangeGoesStale(h, ResolvingAlways(k), b, now);
    HitsAreCleanExactly(h, ResolvingAlways(k));
  }

  const PACKAGE_JSON: Text := Ascii("package.json")
  const INDEX_JS: Text := Ascii("index.js")

  function Inside(dir: Text, name: Text): (p: Text)
    requires |dir| + |name| < 2000
  {
    dir + [SLASH] + name
  }

  /** The package at a root whose main entry has this name. */
  function PackageAt(root: Text, main: Text): (k: Package)
    requires |root| + |main| < 1000
  {
    var lib := Inside(root, main);
    Package(root, lib, Inside(lib, PACKAGE_JSON), Inside(lib, INDEX_JS), Inside(root, INDEX_JS), Ancestors(root))
  }

  lemma BelowInside(q: Text, dir: Text, name: Text)
    requires |dir| + |name| < 2000 && SLASH !in name && dir != []
    ensures Below(q, Inside(dir, name)) <==> q == dir || Below(q, dir)
  {
    var p := Inside(dir, name);
    assert p[..|dir| + 1] == dir + [SLASH];
    if Below(q, p) {
      assert q == p[..|q|] && p[|q|] == (q + [SLASH])[|q|];
      assert forall n :: |dir| < n < |p| ==> p[n] == name[n - |dir| - 1];
      assert dir == p[..|dir|];
      if |q| < |dir| { assert dir[..|q| + 1] == p[..|q| + 1]; }
    }
  }

  /** A directory inside another is not above it, and names tell apart what is in one directory. */
  lemma InsideIsApart(dir: Text, m: Text, n: Text)
    requires |dir| + |m| < 2000 && |dir| + |n| < 2000 && m != n
    ensures Inside(dir, m) != Inside(dir, n)
  {
    assert Inside(dir, m)[|dir| + 1..] == m && Inside(dir, n)[|dir| + 1..] == n;
  }

  lemma PackageLiesInDirectories(root: Text, main: Text, p: Text, q: Text)
    requires |root| + |main| < 1000 && root != [] && SLASH !in main
    requires var k := PackageAt(root, main); p in k.Files() + k.Dirs() && Below(q, p)
    ensures q in PackageAt(root, main).Dirs()
  {
    var k := PackageAt(root, main);
    assert |PACKAGE_JSON| == 12 && |INDEX_JS| == 8 && SLASH !in PACKAGE_JSON && SLASH !in INDEX_JS;
    AncestorsAreAbove(root);
    if p in k.above {
      BelowIsTransitive(q, p, root);
    } else {
      BelowInside(q, root, main);
      BelowInside(q, k.lib, PACKAGE_JSON);
      BelowInside(q, k.lib, INDEX_JS);
      BelowInside(q, root, INDEX_JS);
    }
  }

  lemma PackageFilesApart(root: Text, main: Text)
    requires |root| + |main| < 1000 && main != INDEX_JS
    ensures var k := PackageAt(root, main);
      && k.manifest !in {k.libIndex, k.index} && k.libIndex != k.index
      && forall p :: p in k.Files() ==> |p| > |root| && p != k.lib
  {
    var k := PackageAt(root, main);
    assert |PACKAGE_JSON| == 12 && |INDEX_JS| == 8 && SLASH !in INDEX_JS;
    InsideIsApart(k.lib, PACKAGE_JSON, INDEX_JS);
    InsideIsApart(root, main, INDEX_JS);
    IndexIsNotInLib(root, main, PACKAGE_JSON);
    IndexIsNotInLib(root, main, INDEX_JS);
  }

  /** Such packages exist at every root, under every name of a main entry. */
  lemma PackageAtIsSane(root: Text, main: Text)
    requires |root| + |main| < 1000 && root != [] && SLASH !in main && main != INDEX_JS
    ensures PackageAt(root, main).Sane()
  {
    var k := PackageAt(root, main);
    PackageFilesApart(root, main);
    AncestorsAreAbove(root);
    assert forall q :: q in k.above ==> |q| < |root|;
    forall p, q | p in k.Files() + k.Dirs() && Below(q, p) ensures q in k.Dirs() {
      PackageLiesInDirectories(root, main, p, q);
    }
  }

  lemma IndexIsNotInLib(root: Text, main: Text, name: Text)
    requires |root| + |main| < 1000 && |name| < 100 && SLASH !in INDEX_JS
    ensures Inside(root, INDEX_JS) != Inside(Inside(root, main), name)
  {
    var p, r := Inside(Inside(root, main), name), Inside(root, INDEX_JS);
    var n := |root| + 1 + |main|;
    assert p[n] == SLASH;
    assert n < |r| ==> r[n] == INDEX_JS[|main|];
  }

  // ---------------------------------------------------------------------------
  // One entry under two logical roots
  // ---------------------------------------------------------------------------

  /** The path of the entry below the logical root. */
  function LogicalUrl(i: Invocation): (url: Text)
    requires i.logicalRoot.Some? && i.logicalRoot.value + [SLASH] <= i.entry
  {
    i.entry[|i.logicalRoot.value| + 1..]
  }

  /** A single source is read as it is, and its artifact shows its logical URL. */
  function SingleSource(i: Invocation): (c: Compiler)
    requires i.logicalRoot.Some? && i.logicalRoot.value + [SLASH] <= i.entry
  {
    (t: seq<Observation>) =>
      if t == [] then Query(Read(i.entry)) else Emit(LogicalUrl(i), i.logicalRoot.value)
  }

  function SourceBuild(i: Invocation, fs: FileSystem): (b: Build)
    requires i.logicalRoot.Some? && i.logicalRoot.value + [SLASH] <= i.entry
  {
    Build(i, fs, [Observation(Read(i.entry), Ask(fs, Read(i.entry)))], Hit(LogicalUrl(i), i.logicalRoot.value))
  }

  lemma SourceCompiles(i: Invocation, fs: FileSystem)
    requires i.logicalRoot.Some? && i.logicalRoot.value + [SLASH] <= i.entry && i.entry in fs.contents
    ensures var b := SourceBuild(i, fs); Compiles(SingleSource(i), b.t, fs, b.hit) && Covered(b.t)
  {
    assert SourceBuild(i, fs).t[..0] == [];
  }

  /** Compiling an entry under one logical root and then under another makes the first one miss. */
  lemma LogicalRootsTakeTurns(h: Hash, i: Invocation, root: Text, fs: FileSystem)
    requires i.logicalRoot.Some? && i.logicalRoot.value + [SLASH] <= i.entry && i.entry in fs.contents
    requires root + [SLASH] <= i.entry && root != i.logicalRoot.value
    requires var j := i.(logicalRoot := Some(root));
      && NoCollision(h, LogicalUrl(i), LogicalUrl(j))
      && NoCollision(h, IndexPreimage(AbiOf(h, i), OptionsKey(h, RequestOf(h, i)), RequestOf(h, i)),
                        IndexPreimage(AbiOf(h, j), OptionsKey(h, RequestOf(h, j)), RequestOf(h, j)))
    ensures var j := i.(logicalRoot := Some(root));
      var b, c := SourceBuild(i, fs), SourceBuild(j, fs);
      && Compiles(SingleSource(i), b.t, fs, b.hit) && Compiles(SingleSource(j), c.t, fs, c.hit)
      && Covered(b.t) && Covered(c.t)
      && Lookup(h, Run(h, EMPTY, OneStore(StoreOf(h, b)) + OneStore(StoreOf(h, c))),
                AbiOf(h, i), RequestOf(h, i), fs) == None
  {
    var j := i.(logicalRoot := Some(root));
    var b, c := SourceBuild(i, fs), SourceBuild(j, fs);
    SourceCompiles(i, fs);
    SourceCompiles(j, fs);
    SourceFactsHold(h, i, fs);
    DifferentRootsDifferentUrls(i.entry, i.logicalRoot.value, root);
    LogicalRootsEvict(h, EMPTY, StoreOf(h, b), root, c.hit.artifact, c.hit.moduleRoot, fs);
    assert StoreOf(h, c) == Store(AbiOf(h, i), RequestOf(h, i).(logicalRoot := Some(root)), StoreOf(h, b).facts,
                                  c.hit.moduleRoot, c.hit.artifact);
  }

  lemma SourceFactsHold(h: Hash, i: Invocation, fs: FileSystem)
    requires i.logicalRoot.Some? && i.logicalRoot.value + [SLASH] <= i.entry && i.entry in fs.contents
    ensures AllHold(h, FactList(Trace(h, SourceBuild(i, fs).t)), fs)
  {
    RecordedAgreeSuffices(h, SourceBuild(i, fs).t, fs, fs);
  }

  lemma DifferentRootsDifferentUrls(entry: Text, r: Text, s: Text)
    requires r + [SLASH] <= entry && s + [SLASH] <= entry && r != s
    ensures entry[|r| + 1..] != entry[|s| + 1..]
  {
    assert entry[..|r|] == (r + [SLASH])[..|r|] == r && entry[..|s|] == (s + [SLASH])[..|s|] == s;
    assert |entry[|r| + 1..]| != |entry[|s| + 1..]|;
  }
}
