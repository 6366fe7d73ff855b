/** A cached build is a clean build: fingerprints, keys, read set and cache put together. */
module CachedBuilds {
  import opened Wrappers
  import opened Bytes
  import opened Framing
  import opened SourceTree
  import opened Scripts
  import opened CacheKeys
  import opened ReadTrace
  import opened ArtifactCache

  // ---------------------------------------------------------------------------
  // Compilers and compilations
  // ---------------------------------------------------------------------------

  /** What a compilation does next, given the answers so far. */
  datatype Action = Query(probe: Probe) | Emit(artifact: Contents, moduleRoot: Text) | Abort

  type Compiler = seq<Observation> -> Action

  /** The compiler, asking this file system, makes these observations and emits this artifact. */
  ghost predicate Compiles(c: Compiler, t: seq<Observation>, fs: FileSystem, hit: Hit) {
    && (forall i :: 0 <= i < |t| ==> c(t[..i]) == Query(t[i].probe) && Ask(fs, t[i].probe) == t[i].answer)
    && c(t) == Emit(hit.artifact, hit.moduleRoot)
  }

  /** One compiler on one file system emits one artifact. */
  lemma CompilationIsDeterministic(c: Compiler, t: seq<Observation>, u: seq<Observation>,
                                   fs: FileSystem, a: Hit, b: Hit)
    requires Compiles(c, t, fs, a) && Compiles(c, u, fs, b)
    ensures t == u && a == b
  {
    if |t| <= |u| {
      SamePrefix(c, t, u, fs, |t|, a, b);
      assert t[..|t|] == t;
    } else {
      SamePrefix(c, u, t, fs, |u|, b, a);
    }
  }

  lemma {:induction false} SamePrefix(c: Compiler, t: seq<Observation>, u: seq<Observation>,
                                      fs: FileSystem, k: nat, a: Hit, b: Hit)
    requires Compiles(c, t, fs, a) && Compiles(c, u, fs, b) && k <= |t| <= |u|
    ensures t[..k] == u[..k]
    ensures k == |t| ==> |u| == k
  {
    if k > 0 {
      SamePrefix(c, t, u, fs, k - 1, a, b);
      assert t[k - 1] == u[k - 1];
      assert t[..k] == t[..k - 1] + [t[k - 1]] && u[..k] == u[..k - 1] + [u[k - 1]];
    }
    if k == |t| {
      assert t[..k] == t;
    }
  }

  // ---------------------------------------------------------------------------
  // Invocations
  // ---------------------------------------------------------------------------

  datatype Flags = Flags(script: bool, verifyIr: bool, debugCodegen: bool)

  /** One run of the command line: the sources its compiler was built from, and what it was asked. */
  datatype Invocation = Invocation(
    workspace: Tree, cliCrate: Tree, flags: Flags,
    entry: Text, explicitRoot: Option<Text>, logicalRoot: Option<Text>,
    options: Options, licmDisabled: bool)
  {
    /** The tracked sources stay below the fingerprints' limits. */
    ghost predicate Fingerprinted() {
      MODULE.AllShorterThan(workspace, 7_563_822) && CLI.AllShorterThan(cliCrate, 7_565_870)
    }
  }

  /** `semantic_abi_hash`. */
  ghost function AbiOf(h: Hash, i: Invocation): (r: Digest) {
    h(MODULE.Stream(i.workspace))
  }

  function FlagBytes(f: Flags): (r: seq<Byte>) {
    [FlagByte(f.script), FlagByte(f.verifyIr), FlagByte(f.debugCodegen)]
  }

  /** `artifact_pipeline_salt`. */
  ghost function SaltOf(h: Hash, i: Invocation): (r: Text) {
    h(CLI.Stream(i.cliCrate)) + FlagBytes(i.flags)
  }

  ghost function RequestOf(h: Hash, i: Invocation): (r: Request) {
    Request(i.entry, i.explicitRoot, i.logicalRoot, i.options, SaltOf(h, i), i.licmDisabled)
  }

  /** What the keys promise to cover of an invocation. */
  datatype KeyedInputs = KeyedInputs(
    moduleFiles: Tree, cliFiles: Tree, flags: Flags,
    entry: Text, explicitRoot: Option<Text>, logicalRoot: Option<Text>,
    browser: bool, importConditions: seq<Text>, requireConditions: seq<Text>, licmDisabled: bool)

  ghost function InputsOf(i: Invocation): (r: KeyedInputs) {
    KeyedInputs(MODULE.TrackedFiles(i.workspace), CLI.TrackedFiles(i.cliCrate), i.flags,
            i.entry, i.explicitRoot, i.logicalRoot,
            i.options.browser, i.options.Imports(), i.options.Requires(), i.licmDisabled)
  }

  /** The digests of the source streams tell these two invocations' sources apart. */
  ghost predicate SourcesDistinguished(h: Hash, i: Invocation, j: Invocation) {
    && NoCollision(h, MODULE.Stream(i.workspace), MODULE.Stream(j.workspace))
    && NoCollision(h, CLI.Stream(i.cliCrate), CLI.Stream(j.cliCrate))
  }

  /** Equal semantic ABI and equal request mean that everything covered is equal. */
  lemma KeysCoverInvocation(h: Hash, i: Invocation, j: Invocation)
    requires i.Fingerprinted() && j.Fingerprinted() && SourcesDistinguished(h, i, j)
    requires AbiOf(h, i) == AbiOf(h, j) && SameRequest(RequestOf(h, i), RequestOf(h, j))
    ensures InputsOf(i) == InputsOf(j)
  {
    assert MODULE.names.Limit() == 7_563_822 && CLI.names.Limit() == 7_565_870;
    StreamDeterminesSources(MODULE, i.workspace, j.workspace);
    FixedSplits(h(CLI.Stream(i.cliCrate)), FlagBytes(i.flags), h(CLI.Stream(j.cliCrate)), FlagBytes(j.flags));
    StreamDeterminesSources(CLI, i.cliCrate, j.cliCrate);
    FlagBytesInjective(i.flags, j.flags);
  }

  lemma FlagBytesInjective(f: Flags, g: Flags)
    requires FlagBytes(f) == FlagBytes(g)
    ensures f == g
  {
    assert FlagBytes(f)[0] == FlagBytes(g)[0] && FlagBytes(f)[1] == FlagBytes(g)[1]
        && FlagBytes(f)[2] == FlagBytes(g)[2];
  }

  /** Invocations with equal covered inputs are looked up under equal keys. */
  lemma SameInputsSameKeys(h: Hash, i: Invocation, j: Invocation)
    requires i.Fingerprinted() && j.Fingerprinted() && InputsOf(i) == InputsOf(j)
    ensures AbiOf(h, i) == AbiOf(h, j) && SameRequest(RequestOf(h, i), RequestOf(h, j))
    ensures SourcesDistinguished(h, i, j)
  {
    assert MODULE.names.Limit() == 7_563_822 && CLI.names.Limit() == 7_565_870;
    StreamDeterminesSources(MODULE, i.workspace, j.workspace);
    StreamDeterminesSources(CLI, i.cliCrate, j.cliCrate);
  }

  lemma SameRequestSameKeys(h: Hash, abi: Digest, r: Request, s: Request)
    requires SameRequest(r, s)
    ensures OptionsPreimage(r) == OptionsPreimage(s)
    ensures IndexPreimage(abi, OptionsKey(h, r), r) == IndexPreimage(abi, OptionsKey(h, s), s)
  {
    OptionsPreimageInjective(r, s);
  }

  lemma SameRequestSameLookup(h: Hash, d: Directory, abi: Digest, r: Request, s: Request, fs: FileSystem)
    requires SameRequest(r, s)
    ensures Lookup(h, d, abi, r, fs) == Lookup(h, d, abi, s, fs)
  {
    SameRequestSameKeys(h, abi, r, s);
  }

  // ---------------------------------------------------------------------------
  // Builds and hits
  // ---------------------------------------------------------------------------

  /** A finished cold build: who, on which file system, observing what, emitting what. */
  datatype Build = Build(inv: Invocation, past: FileSystem, t: seq<Observation>, hit: Hit)

  /** The compiler of each invocation. It may depend on all of the sources it was built from, not only
      on those a fingerprint tracks. */
  type CompilerOf = Invocation -> Compiler

  ghost predicate Genuine(b: Build, compilerOf: CompilerOf) {
    && b.inv.Fingerprinted() && b.past.Valid()
    && Compiles(compilerOf(b.inv), b.t, b.past, b.hit)
  }

  /** What `store_portable_artifact` hands to the cache after a cold build. */
  ghost function StoreOf(h: Hash, b: Build): (s: Store) {
    Store(AbiOf(h, b.inv), RequestOf(h, b.inv), FactList(Trace(h, b.t)), b.hit.moduleRoot, b.hit.artifact)
  }

  /** No two strings that this lookup compares by digest share one. */
  ghost predicate Tells(h: Hash, b: Build, inv: Invocation, fs: FileSystem, hit: Hit) {
    && SourcesDistinguished(h, b.inv, inv)
    && Distinguishes(h, StoreOf(h, b), AbiOf(h, inv), RequestOf(h, inv), hit)
    && DigestsTell(h, b.t, fs)
  }

  lemma CompiledAgrees(c: Compiler, t: seq<Observation>, fs: FileSystem, hit: Hit)
    requires Compiles(c, t, fs, hit)
    ensures Agrees(t, fs)
  {
  }

  /** Everything that was stored came from one of these builds. */
  ghost predicate StoredBy(h: Hash, steps: seq<Step>, builds: seq<Build>) {
    && DepsIntact(steps)
    && forall s :: WriteDeps(s) in steps ==> exists b :: b in builds && StoreOf(h, b) == s
  }

  /** After any run of stores by any mix of compilers, damaged artifacts and removals, a hit is the
      result of one of the builds, of the same inputs, all of whose recorded observations would be made
      again. */
  lemma HitComesFromBuild(h: Hash, compilerOf: CompilerOf, builds: seq<Build>, steps: seq<Step>,
                          inv: Invocation, fs: FileSystem, hit: Hit)
    returns (b: Build)
    requires StoredBy(h, steps, builds)
    requires forall b :: b in builds ==> Genuine(b, compilerOf) && Tells(h, b, inv, fs, hit)
    requires inv.Fingerprinted()
    requires Lookup(h, Run(h, EMPTY, steps), AbiOf(h, inv), RequestOf(h, inv), fs) == Some(hit)
    ensures b in builds && b.hit == hit
    ensures InputsOf(b.inv) == InputsOf(inv) && RecordedAgree(b.t, fs)
  {
    var s := NoStaleHit(h, steps, AbiOf(h, inv), RequestOf(h, inv), fs, hit);
    b :| b in builds && StoreOf(h, b) == s;
    KeysCoverInvocation(h, b.inv, inv);
    CompiledAgrees(compilerOf(b.inv), b.t, b.past, b.hit);
    RecordIsExact(h, b.t, b.past, fs);
  }

  lemma RecordedFactsHold(h: Hash, c: Compiler, b: Build, fs: FileSystem)
    requires Compiles(c, b.t, b.past, b.hit) && RecordedAgree(b.t, fs)
    ensures AllHold(h, FactList(Trace(h, b.t)), fs)
  {
    CompiledAgrees(c, b.t, b.past, b.hit);
    RecordedReadsSuffice(h, b.t, fs);
    RecordIsExact(h, b.t, b.past, fs);
  }

  lemma FoundByItself(h: Hash, b: Build, fs: FileSystem, before: seq<Step>, between: seq<Step>, after: seq<Step>)
    requires AllHold(h, FactList(Trace(h, b.t)), fs) && Survives(h, StoreOf(h, b), between, after)
    ensures Lookup(h, Run(h, EMPTY, StoringRun(before, StoreOf(h, b), between, after)),
                   AbiOf(h, b.inv), RequestOf(h, b.inv), fs)
         == Some(b.hit)
  {
    StoredIsFound(h, before, StoreOf(h, b), between, after, fs);
  }

  /** A build whose files survive in the cache is found by every invocation with the same inputs, on
      every file system that would answer alike what was recorded of that build's questions. */
  lemma UnchangedIsFound(h: Hash, compilerOf: CompilerOf, b: Build, inv: Invocation, fs: FileSystem,
                         before: seq<Step>, between: seq<Step>, after: seq<Step>)
    requires Genuine(b, compilerOf) && inv.Fingerprinted()
    requires InputsOf(inv) == InputsOf(b.inv) && RecordedAgree(b.t, fs)
    requires Survives(h, StoreOf(h, b), between, after)
    ensures Lookup(h, Run(h, EMPTY, StoringRun(before, StoreOf(h, b), between, after)),
                   AbiOf(h, inv), RequestOf(h, inv), fs)
         == Some(b.hit)
  {
    RecordedFactsHold(h, compilerOf(b.inv), b, fs);
    FoundByItself(h, b, fs, before, between, after);
    SameInputsSameKeys(h, inv, b.inv);
    SameRequestSameLookup(h, Run(h, EMPTY, StoringRun(before, StoreOf(h, b), between, after)),
                          AbiOf(h, inv), RequestOf(h, inv), RequestOf(h, b.inv), fs);
  }

  lemma StoredOnceIsFound(h: Hash, compilerOf: CompilerOf, b: Build, inv: Invocation, fs: FileSystem)
    requires Genuine(b, compilerOf) && inv.Fingerprinted()
    requires InputsOf(inv) == InputsOf(b.inv) && RecordedAgree(b.t, fs)
    ensures Lookup(h, Run(h, EMPTY, OneStore(StoreOf(h, b))), AbiOf(h, inv), RequestOf(h, inv), fs)
         == Some(b.hit)
  {
    UnchangedIsFound(h, compilerOf, b, inv, fs, [], [], []);
    JoinedSteps(StoreOf(h, b));
  }

  lemma JoinedSteps(s: Store)
    ensures StoringRun([], s, [], []) == OneStore(s)
  {
  }

  /** Where only one build has been stored, a hit means that nothing recorded of it has changed. */
  lemma HitMeansUnchanged(h: Hash, compilerOf: CompilerOf, b: Build, steps: seq<Step>,
                          inv: Invocation, fs: FileSystem)
    requires Genuine(b, compilerOf) && inv.Fingerprinted()
    requires Tells(h, b, inv, fs, b.hit)
    requires DepsIntact(steps) && forall s :: WriteDeps(s) in steps ==> s == StoreOf(h, b)
    requires Lookup(h, Run(h, EMPTY, steps), AbiOf(h, inv), RequestOf(h, inv), fs) == Some(b.hit)
    ensures InputsOf(inv) == InputsOf(b.inv) && RecordedAgree(b.t, fs)
  {
    var found := NoStaleHit(h, steps, AbiOf(h, inv), RequestOf(h, inv), fs, b.hit);
    assert found == StoreOf(h, b);
    KeysCoverInvocation(h, b.inv, inv);
    CompiledAgrees(compilerOf(b.inv), b.t, b.past, b.hit);
    RecordIsExact(h, b.t, b.past, fs);
  }

  /** After one build, there is a hit exactly when the covered inputs are the same and the file system
      would answer everything that was recorded of that build as it did then. */
  lemma HitIsExact(h: Hash, compilerOf: CompilerOf, b: Build, inv: Invocation, fs: FileSystem)
    requires Genuine(b, compilerOf) && inv.Fingerprinted()
    requires Tells(h, b, inv, fs, b.hit)
    ensures Lookup(h, Run(h, EMPTY, OneStore(StoreOf(h, b))), AbiOf(h, inv), RequestOf(h, inv), fs)
         == Some(b.hit)
       <==> InputsOf(inv) == InputsOf(b.inv) && RecordedAgree(b.t, fs)
  {
    if InputsOf(inv) == InputsOf(b.inv) && RecordedAgree(b.t, fs) {
      StoredOnceIsFound(h, compilerOf, b, inv, fs);
    } else if Lookup(h, Run(h, EMPTY, OneStore(StoreOf(h, b))), AbiOf(h, inv), RequestOf(h, inv), fs)
              == Some(b.hit) {
      HitMeansUnchanged(h, compilerOf, b, OneStore(StoreOf(h, b)), inv, fs);
    }
  }

  /** For a build without uncovered failures that is everything it asked. */
  lemma CoveredHitIsExact(h: Hash, compilerOf: CompilerOf, b: Build, inv: Invocation, fs: FileSystem)
    requires Genuine(b, compilerOf) && inv.Fingerprinted() && fs.Valid() && Covered(b.t)
    requires Tells(h, b, inv, fs, b.hit)
    ensures Lookup(h, Run(h, EMPTY, OneStore(StoreOf(h, b))), AbiOf(h, inv), RequestOf(h, inv), fs)
         == Some(b.hit)
       <==> InputsOf(inv) == InputsOf(b.inv) && Agrees(b.t, fs)
  {
    HitIsExact(h, compilerOf, b, inv, fs);
    CompiledAgrees(compilerOf(b.inv), b.t, b.past, b.hit);
    if RecordedAgree(b.t, fs) { CoveredAgrees(b.t, b.past, fs); }
  }

  // ---------------------------------------------------------------------------
  // Cached equals clean
  // ---------------------------------------------------------------------------

  /** A clean build by this compiler on this file system ends with this result. */
  ghost predicate Emits(c: Compiler, fs: FileSystem, hit: Hit) {
    exists t :: Compiles(c, t, fs, hit)
  }

  /** Compilers of invocations with the same covered inputs emit the same on every file system. */
  ghost predicate KeysSuffice(compilerOf: CompilerOf) {
    forall i: Invocation, j: Invocation, fs: FileSystem, hit: Hit ::
      && i.Fingerprinted() && j.Fingerprinted() && InputsOf(i) == InputsOf(j) && fs.Valid()
      && Emits(compilerOf(i), fs, hit)
      ==> Emits(compilerOf(j), fs, hit)
  }

  /** No compiler emits anything else where everything it observed but the failures is as it was. */
  ghost predicate RecordSuffices(compilerOf: CompilerOf) {
    forall i: Invocation, past: FileSystem, now: FileSystem, t: seq<Observation>, hit: Hit ::
      && i.Fingerprinted() && past.Valid() && now.Valid()
      && Compiles(compilerOf(i), t, past, hit) && RecordedAgree(t, now)
      ==> Emits(compilerOf(i), now, hit)
  }

  /** A hit after some run of stores by builds of these compilers. */
  ghost predicate Hits(h: Hash, compilerOf: CompilerOf, builds: seq<Build>, steps: seq<Step>,
                       inv: Invocation, fs: FileSystem, hit: Hit) {
    && StoredBy(h, steps, builds)
    && (forall b :: b in builds ==> Genuine(b, compilerOf) && Tells(h, b, inv, fs, hit))
    && inv.Fingerprinted() && fs.Valid()
    && Lookup(h, Run(h, EMPTY, steps), AbiOf(h, inv), RequestOf(h, inv), fs) == Some(hit)
  }

  /** No run leads to a hit that a clean build would not emit. */
  ghost predicate HitsAreClean(h: Hash, compilerOf: CompilerOf) {
    forall builds: seq<Build>, steps: seq<Step>, inv: Invocation, fs: FileSystem, hit: Hit ::
      Hits(h, compilerOf, builds, steps, inv, fs, hit) ==> Emits(compilerOf(inv), fs, hit)
  }

  lemma AgreementTransfersCompilation(c: Compiler, t: seq<Observation>, past: FileSystem, now: FileSystem, hit: Hit)
    requires Compiles(c, t, past, hit) && Agrees(t, now)
    ensures Compiles(c, t, now, hit)
  {
    forall i | 0 <= i < |t| ensures Ask(now, t[i].probe) == t[i].answer {
      assert t[i] in t;
    }
  }

  /** Where the keys suffice, a hit on a build without uncovered failures is what a clean build by the
      invocation's own compiler on the present file system emits, and nothing else is. */
  lemma CachedEqualsClean(h: Hash, compilerOf: CompilerOf, builds: seq<Build>, steps: seq<Step>,
                          inv: Invocation, fs: FileSystem, hit: Hit)
    returns (t: seq<Observation>)
    requires KeysSuffice(compilerOf) && Hits(h, compilerOf, builds, steps, inv, fs, hit)
    requires forall b :: b in builds ==> Covered(b.t)
    ensures Compiles(compilerOf(inv), t, fs, hit)
    ensures forall u, other :: Compiles(compilerOf(inv), u, fs, other) ==> u == t && other == hit
  {
    var b := HitComesFromBuild(h, compilerOf, builds, steps, inv, fs, hit);
    CompiledAgrees(compilerOf(b.inv), b.t, b.past, b.hit);
    CoveredAgrees(b.t, b.past, fs);
    AgreementTransfersCompilation(compilerOf(b.inv), b.t, b.past, fs, hit);
    assert Emits(compilerOf(b.inv), fs, hit) && Emits(compilerOf(inv), fs, hit);
    t :| Compiles(compilerOf(inv), t, fs, hit);
    forall u, other | Compiles(compilerOf(inv), u, fs, other) ensures u == t && other == hit {
      CompilationIsDeterministic(compilerOf(inv), t, u, fs, hit, other);
    }
  }

  /** Right after it was stored, a build is found by every invocation with the same covered inputs,
      wherever the recorded observations would be made again, and no digest is in the way. */
  lemma FreshBuildHits(h: Hash, compilerOf: CompilerOf, b: Build, inv: Invocation, now: FileSystem)
    requires Genuine(b, compilerOf) && inv.Fingerprinted() && InputsOf(inv) == InputsOf(b.inv)
    requires now.Valid() && RecordedAgree(b.t, now)
    ensures Hits(h, compilerOf, [b], OneStore(StoreOf(h, b)), inv, now, b.hit)
  {
    CompiledAgrees(compilerOf(b.inv), b.t, b.past, b.hit);
    StoredOnceIsFound(h, compilerOf, b, inv, now);
    FreshBuildTells(h, b, inv, now);
  }

  lemma FreshBuildTells(h: Hash, b: Build, inv: Invocation, now: FileSystem)
    requires b.inv.Fingerprinted() && inv.Fingerprinted() && InputsOf(inv) == InputsOf(b.inv)
    requires RecordedAgree(b.t, now)
    ensures Tells(h, b, inv, now, b.hit)
  {
    SameInputsSameKeys(h, b.inv, inv);
    SameRequestSameKeys(h, AbiOf(h, inv), RequestOf(h, b.inv), RequestOf(h, inv));
    RecordedReadsSuffice(h, b.t, now);
  }

  lemma AgreementIsRecorded(c: Compiler, t: seq<Observation>, fs: FileSystem, hit: Hit)
    requires Compiles(c, t, fs, hit)
    ensures RecordedAgree(t, fs)
  {
    CompiledAgrees(c, t, fs, hit);
  }

  lemma CleanHitsSuffice(h: Hash, compilerOf: CompilerOf)
    requires HitsAreClean(h, compilerOf)
    ensures KeysSuffice(compilerOf) && RecordSuffices(compilerOf)
  {
    forall i: Invocation, j: Invocation, fs: FileSystem, hit: Hit
      | && i.Fingerprinted() && j.Fingerprinted() && InputsOf(i) == InputsOf(j) && fs.Valid()
        && Emits(compilerOf(i), fs, hit)
      ensures Emits(compilerOf(j), fs, hit)
    {
      var t :| Compiles(compilerOf(i), t, fs, hit);
      AgreementIsRecorded(compilerOf(i), t, fs, hit);
      FreshBuildHits(h, compilerOf, Build(i, fs, t, hit), j, fs);
    }
    forall i: Invocation, past: FileSystem, now: FileSystem, t: seq<Observation>, hit: Hit
      | && i.Fingerprinted() && past.Valid() && now.Valid()
        && Compiles(compilerOf(i), t, past, hit) && RecordedAgree(t, now)
      ensures Emits(compilerOf(i), now, hit)
    {
      FreshBuildHits(h, compilerOf, Build(i, past, t, hit), i, now);
    }
  }

  /** Over all runs of stores, whatever their builds observed: the cache never answers with anything but
      a clean build's result exactly when the compilers depend on nothing but what the keys cover, and
      on no failure that is not recorded. */
  lemma HitsAreCleanExactly(h: Hash, compilerOf: CompilerOf)
    ensures HitsAreClean(h, compilerOf) <==> KeysSuffice(compilerOf) && RecordSuffices(compilerOf)
  {
    if KeysSuffice(compilerOf) && RecordSuffices(compilerOf) {
      forall builds: seq<Build>, steps: seq<Step>, inv: Invocation, fs: FileSystem, hit: Hit
        | Hits(h, compilerOf, builds, steps, inv, fs, hit)
        ensures Emits(compilerOf(inv), fs, hit)
      {
        var b := HitComesFromBuild(h, compilerOf, builds, steps, inv, fs, hit);
        assert Emits(compilerOf(b.inv), fs, hit);
      }
    }
    if HitsAreClean(h, compilerOf) {
      CleanHitsSuffice(h, compilerOf);
    }
  }

  /** Compilers all of whose failures are covered depend on no failure that is not recorded. */
  lemma CoveredRecordSuffices(compilerOf: CompilerOf)
    requires forall i: Invocation, past: FileSystem, t: seq<Observation>, hit: Hit ::
               past.Valid() && Compiles(compilerOf(i), t, past, hit) ==> Covered(t)
    ensures RecordSuffices(compilerOf)
  {
    forall i: Invocation, past: FileSystem, now: FileSystem, t: seq<Observation>, hit: Hit
      | && i.Fingerprinted() && past.Valid() && now.Valid()
        && Compiles(compilerOf(i), t, past, hit) && RecordedAgree(t, now)
      ensures Emits(compilerOf(i), now, hit)
    {
      CompiledAgrees(compilerOf(i), t, past, hit);
      CoveredAgrees(t, past, now);
      AgreementTransfersCompilation(compilerOf(i), t, past, now, hit);
    }
  }
}
