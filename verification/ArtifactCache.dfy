/** The artifact cache directory under any interleaving of stores, damage and removal. */
module ArtifactCache {
  import opened Wrappers
  import opened Bytes
  import opened CacheKeys
  import opened ReadTrace

  /** The decoded contents of a .dep file. */
  datatype DepsFile = DepsFile(
    abi: Digest, options: Digest, moduleRoot: Text, facts: seq<Fact>,
    contentKey: Digest, artifactDigest: Digest)

  /** The .dep and .wjsm files, by the key that names them. */
  datatype Directory = Directory(deps: map<Digest, DepsFile>, artifacts: map<Digest, Contents>)

  const EMPTY: Directory := Directory(map[], map[])

  /** The arguments of one store. */
  datatype Store = Store(abi: Digest, request: Request, facts: seq<Fact>, moduleRoot: Text, artifact: Contents)

  datatype Hit = Hit(artifact: Contents, moduleRoot: Text)

  function OptionsKey(h: Hash, r: Request): (result: Digest) { h(OptionsPreimage(r)) }

  function IndexKey(h: Hash, abi: Digest, r: Request): (result: Digest) {
    h(IndexPreimage(abi, OptionsKey(h, r), r))
  }

  function ContentKey(h: Hash, abi: Digest, options: Digest, facts: seq<Fact>): (r: Digest) {
    h(ContentPreimage(abi, options, facts))
  }

  function StoreIndex(h: Hash, s: Store): (r: Digest) { IndexKey(h, s.abi, s.request) }

  function StoreContent(h: Hash, s: Store): (r: Digest) {
    ContentKey(h, s.abi, OptionsKey(h, s.request), s.facts)
  }

  function DepsOf(h: Hash, s: Store): (r: DepsFile) {
    DepsFile(s.abi, OptionsKey(h, s.request), s.moduleRoot, s.facts, StoreContent(h, s), h(s.artifact))
  }

  /** What happens to the directory, one atomic rename at a time. A store is its two writes, with
      anything, other processes' steps or a crash, between them. Anything else may overwrite a file
      with whatever it likes. */
  datatype Step =
    | WriteArtifact(store: Store)
    | WriteDeps(store: Store)
    | Damage(key: Digest, bytes: Contents)
    | DamageDeps(key: Digest, deps: DepsFile)
    | DropArtifact(key: Digest)
    | DropDeps(key: Digest)

  function Next(h: Hash, d: Directory, step: Step): (r: Directory) {
    match step
    case WriteArtifact(s) => d.(artifacts := d.artifacts[StoreContent(h, s) := s.artifact])
    case WriteDeps(s) => d.(deps := d.deps[StoreIndex(h, s) := DepsOf(h, s)])
    case Damage(key, bytes) => d.(artifacts := d.artifacts[key := bytes])
    case DamageDeps(key, deps) => d.(deps := d.deps[key := deps])
    case DropArtifact(key) => d.(artifacts := d.artifacts - {key})
    case DropDeps(key) => d.(deps := d.deps - {key})
  }

  function Run(h: Hash, d: Directory, steps: seq<Step>): (r: Directory)
    decreases |steps|
  {
    if steps == [] then d else Next(h, Run(h, d, steps[..|steps| - 1]), steps[|steps| - 1])
  }

  /** `lookup_in`. */
  function Lookup(h: Hash, d: Directory, abi: Digest, r: Request, fs: FileSystem): (result: Option<Hit>) {
    var options := OptionsKey(h, r);
    var index := IndexKey(h, abi, r);
    if index !in d.deps then None
    else
      var deps := d.deps[index];
      if deps.abi != abi || deps.options != options then None
      else if exists f | f in deps.facts :: !FactHolds(h, f, fs) then None
      else
        var key := ContentKey(h, abi, options, deps.facts);
        if key != deps.contentKey || key !in d.artifacts then None
        else if h(d.artifacts[key]) != deps.artifactDigest then None
        else Some(Hit(d.artifacts[key], deps.moduleRoot))
  }

  class CacheDirectory {
    var deps: map<Digest, DepsFile>
    var artifacts: map<Digest, Contents>

    function State(): (r: Directory)
      reads this
    {
      Directory(deps, artifacts)
    }

    constructor ()
      ensures State() == EMPTY
    {
      deps, artifacts := map[], map[];
    }

    /** `store_in`: the artifact first, so that no index points at a missing artifact. */
    method StoreIn(h: Hash, abi: Digest, request: Request, facts: seq<Fact>, moduleRoot: Text, artifact: Contents)
      modifies this
      ensures var s := Store(abi, request, facts, moduleRoot, artifact);
              State() == Run(h, old(State()), [WriteArtifact(s), WriteDeps(s)])
    {
      var options := OptionsKey(h, request);
      var key := ContentKey(h, abi, options, facts);
      artifacts := artifacts[key := artifact];
      deps := deps[IndexKey(h, abi, request) := DepsFile(abi, options, moduleRoot, facts, key, h(artifact))];
      ghost var s := Store(abi, request, facts, moduleRoot, artifact);
      TwoSteps(h, old(State()), WriteArtifact(s), WriteDeps(s));
    }
  }

  lemma TwoSteps(h: Hash, d: Directory, a: Step, b: Step)
    ensures Run(h, d, [a, b]) == Next(h, Next(h, d, a), b)
  {
    assert [a, b] == [a] + [b];
    RunConcat(h, d, [a], [b]);
    OneStep(h, d, a);
    OneStep(h, Next(h, d, a), b);
  }

  // ---------------------------------------------------------------------------
  // Safety
  // ---------------------------------------------------------------------------

  /** Index files are only ever written by stores. */
  predicate DepsIntact(steps: seq<Step>) {
    forall step :: step in steps ==> !step.DamageDeps?
  }

  /** Artifact files are only ever written by stores. */
  predicate ArtifactsIntact(steps: seq<Step>) {
    forall step :: step in steps ==> !step.Damage?
  }

  /** While nothing else writes them, every index file was written whole by some store. */
  lemma {:induction false} DepsComeFromStores(h: Hash, steps: seq<Step>, key: Digest) returns (s: Store)
    requires DepsIntact(steps) && key in Run(h, EMPTY, steps).deps
    ensures WriteDeps(s) in steps && key == StoreIndex(h, s)
    ensures Run(h, EMPTY, steps).deps[key] == DepsOf(h, s)
    decreases |steps|
  {
    var init, step := steps[..|steps| - 1], steps[|steps| - 1];
    if step.WriteDeps? && StoreIndex(h, step.store) == key {
      s := step.store;
    } else {
      s := DepsComeFromStores(h, init, key);
    }
  }

  lemma {:induction false} ArtifactsComeFromStores(h: Hash, steps: seq<Step>, key: Digest) returns (s: Store)
    requires ArtifactsIntact(steps) && key in Run(h, EMPTY, steps).artifacts
    ensures WriteArtifact(s) in steps && key == StoreContent(h, s)
    ensures Run(h, EMPTY, steps).artifacts[key] == s.artifact
    decreases |steps|
  {
    var init, step := steps[..|steps| - 1], steps[|steps| - 1];
    if step.WriteArtifact? && StoreContent(h, step.store) == key {
      s := step.store;
    } else {
      s := ArtifactsComeFromStores(h, init, key);
    }
  }

  ghost predicate NoCollision(h: Hash, x: seq<Byte>, y: seq<Byte>) {
    h(x) == h(y) ==> x == y
  }

  ghost predicate SameRequest(r: Request, s: Request) {
    && r.entry == s.entry && r.explicitRoot == s.explicitRoot && r.logicalRoot == s.logicalRoot
    && r.salt == s.salt && r.licmDisabled == s.licmDisabled && r.options.SameResolution(s.options)
  }

  /** A store made for these very inputs, of this very artifact, whose facts all hold. */
  ghost predicate Justifies(h: Hash, s: Store, abi: Digest, r: Request, fs: FileSystem, hit: Hit) {
    && s.abi == abi && SameRequest(s.request, r)
    && s.artifact == hit.artifact && s.moduleRoot == hit.moduleRoot
    && AllHold(h, s.facts, fs)
  }

  /** The digests compared by a lookup tell its strings from those of a store. */
  ghost predicate Distinguishes(h: Hash, s: Store, abi: Digest, r: Request, hit: Hit) {
    && NoCollision(h, OptionsPreimage(s.request), OptionsPreimage(r))
    && NoCollision(h, IndexPreimage(s.abi, OptionsKey(h, s.request), s.request),
                   IndexPreimage(abi, OptionsKey(h, r), r))
    && NoCollision(h, s.artifact, hit.artifact)
  }

  /** No stale hit: over every run that leaves index files to the stores, a hit is an earlier store's
      artifact for the same inputs, and everything that store observed of the file system still holds. */
  lemma NoStaleHit(h: Hash, steps: seq<Step>, abi: Digest, r: Request, fs: FileSystem, hit: Hit)
    returns (s: Store)
    requires DepsIntact(steps) && Lookup(h, Run(h, EMPTY, steps), abi, r, fs) == Some(hit)
    requires forall s :: WriteDeps(s) in steps ==> Distinguishes(h, s, abi, r, hit)
    ensures WriteDeps(s) in steps && Justifies(h, s, abi, r, fs, hit)
  {
    s := DepsComeFromStores(h, steps, IndexKey(h, abi, r));
    assert Distinguishes(h, s, abi, r, hit);
    OptionsPreimageInjective(s.request, r);
    IndexPreimageInjective(s.abi, OptionsKey(h, s.request), s.request, abi, OptionsKey(h, r), r);
  }

  // ---------------------------------------------------------------------------
  // Index files that nobody vouches for
  // ---------------------------------------------------------------------------

  /** The content key a lookup computes tells its string from that of a store. */
  ghost predicate DistinguishesContent(h: Hash, s: Store, abi: Digest, r: Request, facts: seq<Fact>) {
    NoCollision(h, ContentPreimage(s.abi, OptionsKey(h, s.request), s.facts),
                   ContentPreimage(abi, OptionsKey(h, r), facts))
  }

  /** Whatever is written over index files: while artifact files come from stores, a hit is the artifact
      of a store with the same semantic ABI, options fingerprint and facts, and those facts hold. */
  lemma HitIsStoredArtifact(h: Hash, steps: seq<Step>, abi: Digest, r: Request, fs: FileSystem, hit: Hit)
    returns (s: Store)
    requires ArtifactsIntact(steps) && Lookup(h, Run(h, EMPTY, steps), abi, r, fs) == Some(hit)
    requires forall s :: WriteArtifact(s) in steps ==>
               DistinguishesContent(h, s, abi, r, Run(h, EMPTY, steps).deps[IndexKey(h, abi, r)].facts)
    ensures WriteArtifact(s) in steps && s.artifact == hit.artifact
    ensures s.abi == abi && OptionsKey(h, s.request) == OptionsKey(h, r) && AllHold(h, s.facts, fs)
  {
    var deps := Run(h, EMPTY, steps).deps[IndexKey(h, abi, r)];
    s := ArtifactsComeFromStores(h, steps, ContentKey(h, abi, OptionsKey(h, r), deps.facts));
    assert DistinguishesContent(h, s, abi, r, deps.facts);
    ContentPreimageInjective(s.abi, OptionsKey(h, s.request), s.facts, abi, OptionsKey(h, r), deps.facts);
  }

  /** The index file of a store, with another module root. */
  function ForgedDeps(h: Hash, s: Store, moduleRoot: Text): (d: DepsFile) {
    DepsOf(h, s).(moduleRoot := moduleRoot)
  }

  /** Entry and module root are not protected there: with a store's index file copied under another
      entry's key, that entry is answered with the store's artifact and any module root. */
  lemma EntryAndRootAreUnprotected(h: Hash, s: Store, r: Request, moduleRoot: Text, fs: FileSystem)
    requires OptionsKey(h, r) == OptionsKey(h, s.request) && AllHold(h, s.facts, fs)
    ensures var steps := [WriteArtifact(s), DamageDeps(IndexKey(h, s.abi, r), ForgedDeps(h, s, moduleRoot))];
      Lookup(h, Run(h, EMPTY, steps), s.abi, r, fs) == Some(Hit(s.artifact, moduleRoot))
  {
    TwoSteps(h, EMPTY, WriteArtifact(s), DamageDeps(IndexKey(h, s.abi, r), ForgedDeps(h, s, moduleRoot)));
  }

  // ---------------------------------------------------------------------------
  // Liveness
  // ---------------------------------------------------------------------------

  /** A step that leaves a store's artifact file as it wrote it, or writes the same again. */
  predicate SparesArtifact(h: Hash, step: Step, s: Store) {
    match step
    case WriteArtifact(t) => StoreContent(h, t) == StoreContent(h, s) ==> t.artifact == s.artifact
    case Damage(key, bytes) => key == StoreContent(h, s) ==> bytes == s.artifact
    case DropArtifact(key) => key != StoreContent(h, s)
    case _ => true
  }

  /** A step that leaves a store's index file as it wrote it, or writes the same again. */
  predicate SparesDeps(h: Hash, step: Step, s: Store) {
    match step
    case WriteDeps(t) => StoreIndex(h, t) == StoreIndex(h, s) ==> DepsOf(h, t) == DepsOf(h, s)
    case DamageDeps(key, deps) => key == StoreIndex(h, s) ==> deps == DepsOf(h, s)
    case DropDeps(key) => key != StoreIndex(h, s)
    case _ => true
  }

  predicate HasArtifact(h: Hash, d: Directory, s: Store) {
    StoreContent(h, s) in d.artifacts && d.artifacts[StoreContent(h, s)] == s.artifact
  }

  predicate HasDeps(h: Hash, d: Directory, s: Store) {
    StoreIndex(h, s) in d.deps && d.deps[StoreIndex(h, s)] == DepsOf(h, s)
  }

  lemma {:induction false} SparedArtifactStays(h: Hash, d: Directory, steps: seq<Step>, s: Store)
    requires HasArtifact(h, d, s) && forall step :: step in steps ==> SparesArtifact(h, step, s)
    ensures HasArtifact(h, Run(h, d, steps), s)
    decreases |steps|
  {
    if steps != [] {
      SparedArtifactStays(h, d, steps[..|steps| - 1], s);
      assert SparesArtifact(h, steps[|steps| - 1], s);
    }
  }

  lemma {:induction false} SparedDepsStay(h: Hash, d: Directory, steps: seq<Step>, s: Store)
    requires HasDeps(h, d, s) && forall step :: step in steps ==> SparesDeps(h, step, s)
    ensures HasDeps(h, Run(h, d, steps), s)
    decreases |steps|
  {
    if steps != [] {
      SparedDepsStay(h, d, steps[..|steps| - 1], s);
      assert SparesDeps(h, steps[|steps| - 1], s);
    }
  }

  lemma {:induction false} RunConcat(h: Hash, d: Directory, a: seq<Step>, b: seq<Step>)
    ensures Run(h, d, a + b) == Run(h, Run(h, d, a), b)
    decreases |b|
  {
    if b == [] {
      assert a + b == a;
    } else {
      RunConcat(h, d, a, b[..|b| - 1]);
      assert (a + b)[..|a + b| - 1] == a + b[..|b| - 1];
    }
  }

  lemma OneStep(h: Hash, d: Directory, step: Step)
    ensures Run(h, d, [step]) == Next(h, d, step)
  {
    assert [step][..0] == [];
  }

  lemma StoredFilesAnswer(h: Hash, d: Directory, s: Store, fs: FileSystem)
    requires HasArtifact(h, d, s) && HasDeps(h, d, s) && AllHold(h, s.facts, fs)
    ensures Lookup(h, d, s.abi, s.request, fs) == Some(Hit(s.artifact, s.moduleRoot))
  {
  }

  /** The run of a store: its two writes, and what else happened before, between and after. */
  function StoringRun(before: seq<Step>, s: Store, between: seq<Step>, after: seq<Step>): (steps: seq<Step>) {
    before + [WriteArtifact(s)] + between + [WriteDeps(s)] + after
  }

  /** Nothing drops a store's two files, or changes what they say, once they are written. */
  predicate Survives(h: Hash, s: Store, between: seq<Step>, after: seq<Step>) {
    && (forall step :: step in between + after ==> SparesArtifact(h, step, s))
    && (forall step :: step in after ==> SparesDeps(h, step, s))
  }

  /** A store whose two files survive is found, whatever else happened before, between and after. */
  lemma StoredIsFound(h: Hash, before: seq<Step>, s: Store, between: seq<Step>, after: seq<Step>, fs: FileSystem)
    requires Survives(h, s, between, after) && AllHold(h, s.facts, fs)
    ensures Lookup(h, Run(h, EMPTY, StoringRun(before, s, between, after)), s.abi, s.request, fs)
         == Some(Hit(s.artifact, s.moduleRoot))
  {
    var d0 := Run(h, EMPTY, before);
    var d1 := Next(h, d0, WriteArtifact(s));
    var d2 := Run(h, d1, between);
    var d3 := Next(h, d2, WriteDeps(s));
    RunConcat(h, EMPTY, before, [WriteArtifact(s)]);
    OneStep(h, d0, WriteArtifact(s));
    RunConcat(h, EMPTY, before + [WriteArtifact(s)], between);
    RunConcat(h, EMPTY, before + [WriteArtifact(s)] + between, [WriteDeps(s)]);
    OneStep(h, d2, WriteDeps(s));
    RunConcat(h, EMPTY, before + [WriteArtifact(s)] + between + [WriteDeps(s)], after);
    SparedArtifactStays(h, d1, between, s);
    SparedArtifactStays(h, d3, after, s);
    SparedDepsStay(h, d3, after, s);
    StoredFilesAnswer(h, Run(h, d3, after), s, fs);
  }

  // ---------------------------------------------------------------------------
  // Which damage is noticed
  // ---------------------------------------------------------------------------

  /** A store's index file is replaced: its lookup still answers exactly when the new one differs in
      nothing but the module root. */
  lemma DamagedDepsAreNoticed(h: Hash, s: Store, deps: DepsFile, fs: FileSystem)
    requires AllHold(h, s.facts, fs)
    requires DistinguishesContent(h, s, s.abi, s.request, deps.facts)
    ensures var d := Run(h, EMPTY, OneStore(s) + [DamageDeps(StoreIndex(h, s), deps)]);
      match Lookup(h, d, s.abi, s.request, fs)
      case Some(hit) =>
        && deps.abi == s.abi && deps.options == h(OptionsPreimage(s.request)) && deps.facts == s.facts
        && deps.contentKey == h(ContentPreimage(s.abi, h(OptionsPreimage(s.request)), s.facts))
        && deps.artifactDigest == h(s.artifact)
        && hit == Hit(s.artifact, deps.moduleRoot)
      case None =>
        deps != DepsFile(s.abi, h(OptionsPreimage(s.request)), deps.moduleRoot, s.facts,
                         h(ContentPreimage(s.abi, h(OptionsPreimage(s.request)), s.facts)), h(s.artifact))
  {
    RunConcat(h, EMPTY, OneStore(s), [DamageDeps(StoreIndex(h, s), deps)]);
    TwoSteps(h, EMPTY, WriteArtifact(s), WriteDeps(s));
    OneStep(h, Run(h, EMPTY, OneStore(s)), DamageDeps(StoreIndex(h, s), deps));
    var options := OptionsKey(h, s.request);
    if ContentKey(h, s.abi, options, deps.facts) == StoreContent(h, s) {
      ContentPreimageInjective(s.abi, options, s.facts, s.abi, options, deps.facts);
    }
  }

  /** A store's artifact file is replaced: its lookup still answers exactly when the bytes are the same. */
  lemma DamagedArtifactIsNoticed(h: Hash, s: Store, bytes: Contents, fs: FileSystem)
    requires AllHold(h, s.facts, fs) && NoCollision(h, s.artifact, bytes)
    ensures Lookup(h, Run(h, EMPTY, OneStore(s) + [Damage(StoreContent(h, s), bytes)]), s.abi, s.request, fs)
         == if bytes == s.artifact then Some(Hit(s.artifact, s.moduleRoot)) else None
  {
    RunConcat(h, EMPTY, OneStore(s), [Damage(StoreContent(h, s), bytes)]);
    TwoSteps(h, EMPTY, WriteArtifact(s), WriteDeps(s));
    OneStep(h, Run(h, EMPTY, OneStore(s)), Damage(StoreContent(h, s), bytes));
  }

  // ---------------------------------------------------------------------------
  // Stores that share an artifact file
  // ---------------------------------------------------------------------------

  function OneStore(s: Store): (steps: seq<Step>) {
    [WriteArtifact(s), WriteDeps(s)]
  }

  /** The content key leaves out the entry and both roots. After another store under another index key,
      the first is still found exactly when the two do not write different artifacts to one file. */
  lemma LaterStoreSpares(h: Hash, d: Directory, s: Store, t: Store, fs: FileSystem)
    requires StoreIndex(h, s) != StoreIndex(h, t) && AllHold(h, s.facts, fs)
    requires NoCollision(h, s.artifact, t.artifact)
    ensures Lookup(h, Run(h, d, OneStore(s) + OneStore(t)), s.abi, s.request, fs)
         == Some(Hit(s.artifact, s.moduleRoot))
       <==> (StoreContent(h, s) == StoreContent(h, t) ==> s.artifact == t.artifact)
  {
    RunConcat(h, d, OneStore(s), OneStore(t));
    TwoSteps(h, d, WriteArtifact(s), WriteDeps(s));
    TwoSteps(h, Run(h, d, OneStore(s)), WriteArtifact(t), WriteDeps(t));
  }

  /** One entry under two logical roots: equal facts and different artifacts, so the second store turns
      the first one's lookups into misses. */
  lemma LogicalRootsEvict(h: Hash, d: Directory, s: Store, root: Text, artifact: Contents, moduleRoot: Text,
                          fs: FileSystem)
    requires s.request.logicalRoot != Some(root) && s.artifact != artifact && AllHold(h, s.facts, fs)
    requires NoCollision(h, s.artifact, artifact)
    requires var other := s.request.(logicalRoot := Some(root));
      NoCollision(h, IndexPreimage(s.abi, OptionsKey(h, s.request), s.request),
                     IndexPreimage(s.abi, OptionsKey(h, other), other))
    ensures var t := Store(s.abi, s.request.(logicalRoot := Some(root)), s.facts, moduleRoot, artifact);
      Lookup(h, Run(h, d, OneStore(s) + OneStore(t)), s.abi, s.request, fs) == None
  {
    var t := Store(s.abi, s.request.(logicalRoot := Some(root)), s.facts, moduleRoot, artifact);
    OptionsPreimageInjective(s.request, t.request);
    if StoreIndex(h, s) == StoreIndex(h, t) {
      IndexPreimageInjective(s.abi, OptionsKey(h, s.request), s.request,
                             t.abi, OptionsKey(h, t.request), t.request);
    }
    RunConcat(h, d, OneStore(s), OneStore(t));
    TwoSteps(h, d, WriteArtifact(s), WriteDeps(s));
    TwoSteps(h, Run(h, d, OneStore(s)), WriteArtifact(t), WriteDeps(t));
  }
}
