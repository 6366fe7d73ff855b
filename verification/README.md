# wjsm: fingerprints, caches, dominators, fixtures

A Dafny model of the parts of the wjsm repository whose job is to never mix two things up: the build
scripts that fingerprint source trees, the artifact cache that is keyed by those fingerprints, and the
generator that turns fixture directories into tests; of the dominance queries that the IR verifier and the
optimiser share; and of the bounded cache of the allocation benchmark and the SameValue comparison of the
Test262 harness.

## How the pieces fit

| file | part |
|---|---|
| `Bytes.dfy`, `Ordering.dfy`, `Paths.dfy`, `Wrappers.dfy` | little-endian lengths, byte order, sorting, paths as lists of names, extensions and stems |
| `Framing.dfy` | the two record framings, the parser of the terminated one, unique decodability of the other |
| `SourceTree.dfy`, `Scripts.dfy` | what a fingerprint script tracks, the stream it hashes, the four scripts |
| `TrackedSources.dfy` | which files the four scripts track, by the texts of their paths |
| `FramingLimit.dfy` | the file length up to which an unterminated stream separates source trees, and why no further |
| `BuildScripts.dfy` | the scripts as they run: walk, filter, sort in place, feed a hasher |
| `CacheKeys.dfy` | the strings hashed into the artifact cache's keys |
| `ReadTrace.dfy` | what a compilation records of the file system and what replaying the record proves |
| `ArtifactCache.dfy` | the cache directory as a state machine |
| `CachedBuilds.dfy` | the end-to-end statement: when exactly a cache hit is a clean build |
| `CacheRuns.dfy` | runs that show where the guarantees end |
| `FlowGraphs.dfy`, `DepthFirst.dfy` | control flow graphs, paths and dominance; the search that orders blocks |
| `DominatorTrees.dfy`, `IdomFixpoint.dfy` | trees of immediate dominators under construction; the fixpoint, its end and its result |
| `TreeIntervals.dfy`, `Dominators.dfy` | the numbering of the tree; the whole computation and its queries |
| `Fixtures.dfy`, `FixtureTests.dfy` | the recursive collection and the generated tests |
| `ChurnCache.dfy` | the benchmark's insertion-ordered map, over every number of calls |
| `SameValue.dfy` | SameValue and `compareArray` |

A digest is a function from byte strings to 32 bytes that is a parameter of every lemma. Where the code
relies on SHA-256 telling two strings apart, the lemma requires exactly that: no collision between the
two strings in question (`NoCollision`, `Distinguishes`, `DigestsTell`). Everything about fingerprints
themselves is stated on the bytes fed to the hasher and needs no assumption on digests.

The main results, from the bottom up:

1. The bytes a script feeds determine the tracked files and their contents (`StreamDeterminesSources`).
   Where names are NUL-terminated this is unconditional. Where they are not, it holds below a file length
   that depends on the accepted extensions, and `ModuleLimitIsExact` and `CliLimitIsExact` say that this
   length is the best possible.
2. The loops of the scripts compute that stream for every order in which directories are walked, every
   place of the workspace and either path separator (`ModuleMain`, `CliMain`, `HashBootstrapSources`,
   `BackendMain`). `TracksSources` spells out which files go into it.
3. The artifact cache's keys determine what is hashed into them, and a lookup over any interleaving of
   stores, crashes between the two writes of a store, damaged artifacts and removals answers with an
   artifact of an earlier store for the same inputs whose observations all still hold (`NoStaleHit`).
   Where index files are overwritten too, the recomputed content key still protects the artifact, and
   nothing protects entry and module root (`HitIsStoredArtifact`, `EntryAndRootAreUnprotected`).
4. The recorded facts hold exactly where everything but the failures would be observed again
   (`RecordIsExact`), and that is as good as compiling again exactly when no failed read or
   canonicalisation is left that could succeed unnoticed (`ReplayIsExact`).
5. Together, for every compiler and every build, whatever it observed: afterwards there is a hit exactly
   when the covered inputs are the same and everything recorded would be observed again (`HitIsExact`).
   All hits are what a clean build emits exactly when the compilers depend on nothing but what the keys
   cover and on no failure that is not recorded (`HitsAreCleanExactly`). Both halves can fail on their own:
   `OptimizerChangeGoesStale` and `SwallowedErrorGoesStale` are runs with stale hits.
6. The dominance computation terminates on every function, and its constant-time query answers true exactly
   when every path from the entry to the second block passes the first (`Dominators.Compute`).

## Where the code and its documentation differ

The model follows the code. Each of these is a lemma here.

- `crates/wjsm-cli/build.rs:7-10` says any source change switches the namespace. Without a terminator
  after the path, that is true of the bytes only while every tracked file is shorter than 7,565,870 bytes
  (7,563,822 for the module script): a longer length field can spell `.rs` or `.js`, and `a.rs` then reads
  as an empty `a.rs.rs` or `a.rs.js` followed by another file (`FramingLimit.AmbiguousBytes`).
- `crates/wjsm-module/src/builtin_cache.rs:4-6` says the module fingerprint covers the lowering inputs.
  Lowering ends by running the optimiser (`crates/wjsm-semantic/src/lowerer_core.rs:1532`), but
  `crates/wjsm-optimize` is under no root (`Scripts.OptimizerIsUntracked`). `CacheRuns.OptimizerChangeGoesStale`
  draws the consequence for every compiler: where a change in that crate takes a result away, the changed
  compiler is answered with it all the same.
- A failed read or canonicalisation is not recorded (`crates/wjsm-module/src/source_store.rs:253-307`).
  `ReadTrace.ReplayIsExact` gives the exact condition under which that is harmless. The resolver leaves it
  where it swallows an error and falls back (`crates/wjsm-module/src/resolver.rs:491`);
  `CacheRuns.SwallowedErrorGoesStale` is a stale hit there.
- The content key leaves out the entry and both roots (`crates/wjsm-module/src/artifact_cache.rs:239-267`),
  so two requests with the same facts share one artifact file. `ArtifactCache.LaterStoreSpares` says exactly
  when the later store leaves the earlier one usable, and `CacheRuns.LogicalRootsTakeTurns` shows one source
  under two logical roots, for which it does not. The digest in the index keeps this from being a wrong hit.
- The 0xff byte between the two condition lists of the options fingerprint
  (`crates/wjsm-module/src/artifact_cache.rs:91`) may equal the low byte of a length. It is the closing
  `default`, which no custom condition can be, that makes the lists readable
  (`CacheKeys.DefaultClosesConditions`).
- The benchmark's ids stop growing at 2^53; from call 90,071,992,547,411 on the number of kept objects
  exceeds the number of distinct ids (`ChurnCache.KeptIsConserved`).

## Model

| member | source | states |
|---|---|---|
| Framing.ParseInvertsTerminated | crates/wjsm-backend-native/build.rs:46-64 | reading to the first NUL, eight length bytes and that many bytes recovers every list of records with NUL-free names |
| Framing.TerminatedInvertsParse | crates/wjsm-host-native/build.rs:118-131 | the parser accepts nothing but such framings, so the terminated framing is a bijection onto what parses |
| Framing.UnterminatedInjective | crates/wjsm-module/build.rs:48-60 | without a terminator, two lists of accepted names with files below the filter's limit have equal bytes only if they are equal |
| Framing.NameCutTakesLimit | crates/wjsm-module/build.rs:31-36 | one accepted name can run into another through a length field only if that length is at least the limit |
| SourceTree.StreamDeterminesSources | crates/wjsm-cli/build.rs:7-46 | filter, order and framing together: equal streams exactly when the tracked paths and contents are equal, for tagged scripts below the limit |
| SourceTree.UntaggedStreamsDetermineSources | crates/wjsm-backend-native/build.rs:46-64 | the same with no bound on file length, even between two different untagged scripts |
| FramingLimit.AmbiguousBytes | crates/wjsm-module/build.rs:53-59 | at exactly the limit one file has the bytes of an empty longer-named file followed by another file |
| FramingLimit.LimitIsNeeded | crates/wjsm-module/build.rs:48-60 | admitting files of limit length, two readable trees with different tracked files and one stream exist |
| Scripts.ModuleLimitIsExact | crates/wjsm-module/build.rs:13-60 | the module stream separates source trees below a file length exactly when that length is at most 7,563,822 |
| Scripts.CliLimitIsExact | crates/wjsm-cli/build.rs:15-46 | the CLI stream separates source trees below a file length exactly when that length is at most 7,565,870 |
| Scripts.AllRootsApart | crates/wjsm-host-native/build.rs:85-116 | no root of a script lies under another and none covers Cargo.lock, so nothing is fed twice |
| Scripts.LockSortsFirst | crates/wjsm-backend-native/build.rs:39-44 | byte order puts Cargo.lock first in the listing of every untagged script |
| Scripts.TaggedStreamsDiffer | crates/wjsm-cli/build.rs:33 | no module stream is a CLI stream, whatever the trees |
| Scripts.TaggedNeverUntagged | crates/wjsm-module/build.rs:47 | no tagged stream is an untagged one, whatever the trees |
| Scripts.BackendAndHostStreams | crates/wjsm-backend-native/build.rs:14-64 | backend and host streams coincide exactly when both trees have nothing tracked but the same Cargo.lock |
| Scripts.ChangeIsSeen | crates/wjsm-cli/build.rs:7-10 | writing one file changes a script's stream exactly when the script tracks that file |
| TrackedSources.TracksNamedSources | crates/wjsm-module/build.rs:23-38 | below every root of every script a file is tracked exactly when its name is longer than and ends with `.rs` or `.toml`, for the module and host scripts also `.js` |
| TrackedSources.TracksSources | crates/wjsm-host-native/build.rs:85-112 | each script tracks exactly `Cargo.lock` (the CLI script not) and the files with those suffixes whose text begins with one of its roots' texts, spelled out |
| TrackedSources.SourceChangeIsSeen | crates/wjsm-backend-native/build.rs:14-64 | writing one file changes a script's stream exactly when its path is spelled like that |
| TrackedSources.StreamsOpen | crates/wjsm-module/build.rs:47 | the tagged streams open with `wjsm-builtin-cache-abi-v1` and `wjsm-cli-pipeline-v1`, the untagged ones with `Cargo.lock`, each closed by a NUL |
| Scripts.OptimizerIsUntracked | crates/wjsm-semantic/src/lowerer_core.rs:1532 | no file of the crate of the optimiser, which lowering runs, is tracked by any of the workspace scripts |
| Paths.ComponentOrderIsTotal | crates/wjsm-module/build.rs:44 | component order on paths is a strict total order |
| Paths.SlashOrderIsTotal | crates/wjsm-host-native/build.rs:114-116 | byte order on slash-joined paths is a strict total order, since joining can be undone |
| Paths.OrdersDisagree | crates/wjsm-host-native/build.rs:114-116 | the two orders are different orders |
| Paths.BeforeIsNulKeyOrder | crates/wjsm-module/build.rs:44 | component order is byte order once every name is closed by a NUL |
| Paths.BeforeCommonPrefix | crates/wjsm-module/build.rs:44-53 | a common leading directory leaves component order alone: sorting absolute paths sorts relative ones |
| Paths.RelativeBytesIsSlashJoin | crates/wjsm-module/build.rs:72-74 | the hashed name is the slash-joined path for either separator |
| Paths.RenderInjective | crates/wjsm-module/build.rs:72-74 | paths are recovered from their rendered text |
| Paths.ExtensionOf | crates/wjsm-module/build.rs:31-36 | a name built from a stem and a dot-free extension is split back into both |
| Paths.ExtensionIsSuffix | crates/wjsm-module/build.rs:31-36 | a name has a dot-free extension exactly when it ends with it behind a dot that does not open the name |
| Paths.RenderIsJoined | crates/wjsm-module/build.rs:72-74 | the text of a path is that of its directory, the separator and the last name |
| Ordering.SortedUnique | crates/wjsm-backend-native/build.rs:42-44 | a set has one sorted list without duplicates, so enumeration order does not show |
| Ordering.Sort | crates/wjsm-cli/build.rs:30 | sorting a duplicate-free list gives the one sorted list of the same elements |
| Bytes.LittleEndianRoundTrip | crates/wjsm-backend-native/build.rs:58-62 | a length is recovered from its little-endian bytes when they are wide enough |
| BuildScripts.FilterWalk | crates/wjsm-module/build.rs:25-38 | one walk keeps exactly the regular files with an accepted extension, each once |
| BuildScripts.CollectFiles | crates/wjsm-host-native/build.rs:94-114 | after all roots and the lock file, the list holds every tracked file exactly once and nothing else |
| BuildScripts.SortByComponents | crates/wjsm-cli/build.rs:30 | the sorted absolute paths, made relative, are in component order wherever the workspace is |
| BuildScripts.SortByRelativeBytes | crates/wjsm-backend-native/build.rs:42-44 | comparing normalised relative bytes sorts the files by slash-joined name under either separator |
| BuildScripts.FeedUnterminated | crates/wjsm-module/build.rs:48-60 | however the updates are chunked, the hasher has absorbed the framing of the files in list order |
| BuildScripts.FeedTerminated | crates/wjsm-host-native/build.rs:119-131 | the same for the NUL-terminated loop |
| BuildScripts.ModuleMain | crates/wjsm-module/build.rs:7-60 | the bytes hashed are the module stream of the tree, for every walk order, workspace and separator |
| BuildScripts.CliMain | crates/wjsm-cli/build.rs:11-46 | the bytes hashed are the CLI stream of the crate, for every walk order, location and separator |
| BuildScripts.HashBootstrapSources | crates/wjsm-host-native/build.rs:84-132 | the bytes hashed are the host stream of the tree, for every walk order, workspace and separator |
| BuildScripts.BackendMain | crates/wjsm-backend-native/build.rs:8-64 | the bytes hashed are the backend stream of the tree, for every walk order, workspace and separator |
| CacheKeys.BuildConditions | crates/wjsm-module/src/resolution_options.rs:124-143 | the list holds no condition twice and is spelled out: `wjsm` first, `browser` second where enabled and nowhere otherwise, then exactly the custom conditions that are none of the six built-in texts, in the order of their first occurrence, then `node`, the edge kind and `default` |
| CacheKeys.ConditionListIsUnique | crates/wjsm-module/src/resolution_options.rs:124-156 | that description leaves one list |
| CacheKeys.ConditionsAreSpelled | crates/wjsm-module/src/resolution_options.rs:124-156 | the same of every list that fits the description, character by character |
| CacheKeys.ListsDifferInKind | crates/wjsm-module/src/resolution_options.rs:110-121 | the two lists of one request differ in one place, `import` in the one and `require` in the other |
| CacheKeys.DefaultClosesConditions | crates/wjsm-module/src/resolution_options.rs:134-156 | whatever the custom conditions, `default` occurs once in a condition list, at its end |
| CacheKeys.SentinelListSplits | crates/wjsm-module/src/artifact_cache.rs:88-97 | a list of length-prefixed fields that closes with its only sentinel is read back from the front of any bytes |
| CacheKeys.OptionsPreimageInjective | crates/wjsm-module/src/artifact_cache.rs:83-100 | options fingerprints have equal preimages exactly when salt, browser flag, both condition lists and the loop-motion switch agree |
| CacheKeys.IndexPreimageInjective | crates/wjsm-module/src/artifact_cache.rs:103-112 | the index key's preimage determines ABI, options, entry and both roots, present or absent |
| CacheKeys.FactsInjective | crates/wjsm-module/src/artifact_cache.rs:244-265 | the facts hashed into a content key can be read back |
| CacheKeys.ContentPreimageInjective | crates/wjsm-module/src/artifact_cache.rs:239-267 | the content key's preimage determines ABI, options and every fact |
| CacheKeys.PreimagesKeepApart | crates/wjsm-module/src/artifact_cache.rs:83-112 | options, index and content strings open with their own texts, so no string of one kind is one of another |
| ReadTrace.RecordAll | crates/wjsm-module/src/source_trace.rs:117-124 | recording observations one by one, the first of each kind and path staying, leaves the trace of the run |
| ReadTrace.TraceKeepsFirst | crates/wjsm-module/src/source_trace.rs:117-124 | for any observations, contradicting ones included: a key is in the trace exactly when some observation records it, with the fact of the least such index |
| ReadTrace.FactsAreSorted | crates/wjsm-module/src/source_trace.rs:107-115 | the facts come out by kind, then by path in byte order, no two of one kind about one path |
| ReadTrace.TraceIsExact | crates/wjsm-module/src/source_store.rs:227-307 | every recordable observation of one file system is in the trace, and everything in the trace was observed and holds |
| ReadTrace.TraceOrderFree | crates/wjsm-module/src/source_trace.rs:63-68 | worker threads making the same observations in different orders leave the same trace |
| ReadTrace.RecordIsExact | crates/wjsm-module/src/source_trace.rs:35-47 | the recorded facts hold exactly where everything that was observed, but the failures, would be observed again |
| ReadTrace.ReplayAgrees | crates/wjsm-module/src/source_trace.rs:35-47 | if the recorded facts still hold and failures are covered, every observation would be made again |
| ReadTrace.UncoveredCanSucceed | crates/wjsm-module/src/source_store.rs:253-307 | on some file system, directories above everything that exists, any other failed read or canonicalisation succeeds while everything recorded is observed again |
| ReadTrace.ReplayIsExact | crates/wjsm-module/src/source_store.rs:253-307 | replay pins down every observation exactly when each failure is ruled out for good: it lies below what was seen to be no directory, or is a read of what was seen to be one |
| ArtifactCache.CacheDirectory.StoreIn | crates/wjsm-module/src/artifact_cache.rs:197-236 | a store is the artifact's atomic write followed by the index's |
| ArtifactCache.DepsComeFromStores | crates/wjsm-module/src/artifact_cache.rs:223-234 | over every run in which only stores write index files, an index file is the one some store wrote under its own key |
| ArtifactCache.NoStaleHit | crates/wjsm-module/src/artifact_cache.rs:165-195 | over every such run with crashes, damaged artifacts and removals, a hit is an earlier store's artifact and module root for the same inputs, and all its observations still hold |
| ArtifactCache.HitIsStoredArtifact | crates/wjsm-module/src/artifact_cache.rs:178-190 | whatever is written over index files: while artifact files come from stores, a hit is the artifact of a store with the same semantic ABI, options fingerprint and facts, and those facts hold |
| ArtifactCache.EntryAndRootAreUnprotected | crates/wjsm-module/src/artifact_cache.rs:153-163 | a store's index file under another entry's key, with another module root, is answered with the store's artifact and that root |
| ArtifactCache.StoredIsFound | crates/wjsm-module/src/artifact_cache.rs:14-21 | a store is found while its facts hold if other processes' steps before, between and after its writes do not drop its two files or change what they say |
| ArtifactCache.DamagedDepsAreNoticed | crates/wjsm-module/src/artifact_cache.rs:165-195 | with a store's index file replaced, its lookup answers exactly when ABI, options, facts, content key and artifact digest are those of the store; only the module root is taken on trust |
| ArtifactCache.DamagedArtifactIsNoticed | crates/wjsm-module/src/artifact_cache.rs:187-190 | with a store's artifact file replaced, its lookup answers exactly when the bytes are the same |
| ArtifactCache.LaterStoreSpares | crates/wjsm-module/src/artifact_cache.rs:239-267 | after another store under another index key, the first is still found exactly when the two do not write different artifacts to one file |
| ArtifactCache.LogicalRootsEvict | crates/wjsm-module/src/artifact_cache.rs:239-267 | a store for the same facts and another logical root, with another artifact, makes the first store's lookups miss |
| CachedBuilds.CompilationIsDeterministic | crates/wjsm-cli/src/lib.rs:2043-2063 | whatever function of the answers so far a compiler is, on one file system it makes one sequence of observations and emits one artifact |
| CachedBuilds.KeysCoverInvocation | crates/wjsm-cli/src/lib.rs:2011-2020 | equal ABI, salt and request mean equal tracked sources of the workspace and of the CLI crate, and equal flags, entry, roots and resolution |
| CachedBuilds.HitComesFromBuild | crates/wjsm-cli/src/lib.rs:2024-2063 | for every compiler and whatever its builds observed, after any run of stores a hit is the result of one of the builds, of the same covered inputs, everything recorded of which would be observed again |
| CachedBuilds.CachedEqualsClean | crates/wjsm-module/src/artifact_cache.rs:14-24 | where the keys suffice, a hit on builds without uncovered failures is what a clean build by the invocation's own compiler emits on the present file system, and the only thing it emits |
| CachedBuilds.HitsAreCleanExactly | crates/wjsm-cli/build.rs:7-10 | for every compiler, over all runs: no hit but a clean build's result exactly when invocations with the same covered inputs emit the same on every file system, and no compiler emits anything else where everything recorded is as it was |
| CachedBuilds.CoveredRecordSuffices | crates/wjsm-module/src/source_store.rs:253-307 | compilers all of whose failures are covered meet the second half |
| CacheRuns.OptimizerChangeGoesStale | crates/wjsm-semantic/src/lowerer_core.rs:1532 | for every compiler: if changing one file of the optimiser's crate takes a result away, the changed compiler is answered with it, and hits are not clean |
| CacheRuns.ShowingGoesStale | crates/wjsm-semantic/src/lowerer_core.rs:1532 | for every file of that crate and every change of it there are such compilers, and they depend on nothing unrecorded |
| CacheRuns.UnrecordedChangeGoesStale | crates/wjsm-module/src/artifact_cache.rs:122-142 | for every compiler: if a change that leaves everything recorded as it was takes a result away, the next lookup is answered with it |
| CacheRuns.SwallowedErrorGoesStale | crates/wjsm-module/src/resolver.rs:487-505 | a package manifest that cannot be read as text is repaired: the lookup still hits with the fallback module, while a clean build emits another, although the compilers depend on nothing but what the keys cover |
| CacheRuns.LogicalRootsTakeTurns | crates/wjsm-cli/src/lib.rs:2094-2113 | compiling a single source under one logical root and then under another makes the first lookup miss |
| CachedBuilds.UnchangedIsFound | crates/wjsm-cli/src/lib.rs:2022-2063 | a build whose files survive any other steps is found by every invocation with the same covered inputs while everything recorded of it would be observed again |
| CachedBuilds.HitIsExact | crates/wjsm-module/src/artifact_cache.rs:14-24 | after one build, whatever it observed, there is a hit exactly when the covered inputs are the same and everything recorded would be observed again |
| CachedBuilds.CoveredHitIsExact | crates/wjsm-module/src/artifact_cache.rs:14-24 | for a build without uncovered failures that is everything it asked |
| FlowGraphs.EdgesAreTargets | crates/wjsm-ir/src/dominators.rs:23-51 | there is an edge between two blocks exactly when the second is the target of the first one's jump, either block of its branch, or a case, the default or the exit of its switch |
| FlowGraphs.StrictDominatorsOfPredecessors | crates/wjsm-ir/src/dominators.rs:119-128 | what strictly dominates a block dominates its predecessors |
| DepthFirst.Postorder | crates/wjsm-ir/src/dominators.rs:59-79 | the stack search terminates; it marks exactly the reachable blocks and lists each once, every block but the entry before one of its predecessors |
| Dominators.Ranks | crates/wjsm-ir/src/dominators.rs:80-83 | the rank of a block is its place in reverse postorder |
| Dominators.Predecessors | crates/wjsm-ir/src/dominators.rs:85-96 | a block's list holds exactly its reachable predecessors; targets that are no blocks are ignored |
| IdomFixpoint.Intersect | crates/wjsm-ir/src/dominators.rs:100-111 | climbing terminates at the block above which lies exactly what is above both, and which is dominated by whatever dominates both |
| IdomFixpoint.NewParent | crates/wjsm-ir/src/dominators.rs:119-128 | the new parent is the nearest block above all predecessors that have a parent, and there is none only if none of them has |
| IdomFixpoint.SweptNests | crates/wjsm-ir/src/dominators.rs:112-134 | during a sweep, what is still above a block is above what used to be above it and has no lower rank |
| IdomFixpoint.SweepGoesOn | crates/wjsm-ir/src/dominators.rs:115-133 | every update moves a parent to a block above it, takes nothing that dominates away, and keeps all that the next update relies on |
| IdomFixpoint.ChangeIsLighter | crates/wjsm-ir/src/dominators.rs:112-133 | every change lowers the sum of the parents' ranks, so the fixpoint is reached on every function |
| DominatorTrees.AboveIsPassed | crates/wjsm-ir/src/dominators.rs:112-134 | at the fixpoint, whatever is above a block is on every path to it |
| DominatorTrees.DominatorsAreAbove | crates/wjsm-ir/src/dominators.rs:112-134 | whatever dominates a block is above it, at the fixpoint and at every step before |
| IdomFixpoint.Fixpoint | crates/wjsm-ir/src/dominators.rs:97-134 | the loop ends with a tree of exactly the reachable blocks in which above is dominates |
| Dominators.Children | crates/wjsm-ir/src/dominators.rs:136-142 | the lists hold every child of a block exactly once |
| TreeIntervals.Number | crates/wjsm-ir/src/dominators.rs:143-160 | the numbering terminates, and one interval lies in another exactly when its block is below the other's |
| Dominators.Compute | crates/wjsm-ir/src/dominators.rs:53-183 | for every function the computation ends, the query is true exactly when every path from the entry to the second block passes the first, and a block is marked reachable exactly when a path leads to it; the entry is reachable, and so is every target of a reachable block, both arms of a branch and cases, default and exit of a switch included |
| Fixtures.ReadDir | build.rs:88-93 | directory names arrive once each, in no promised order |
| Fixtures.Collector.CollectFixtures | build.rs:87-118 | pushes a case for every script file with a snapshot beside it, each once, in component order, and terminates on every finite tree |
| Fixtures.FindsIsCanonical | build.rs:93-94 | there is one such list, so the order directories are read in does not show |
| Fixtures.FixturesAreSpelled | build.rs:96-111 | the fixtures are exactly the paths through directories to a file named stem.js, stem.ts or stem.tsx with an entry stem.expected beside it |
| Fixtures.StemTextIsPath | build.rs:113-115 | the stem of a fixture with its extension put back is the text of its whole relative path |
| Fixtures.SameStemIsSameSnapshot | build.rs:108-115 | two files have one stem exactly when they share a snapshot |
| FixtureTests.IdIsSpelled | build.rs:122-134 | an identifier is the suite, two underscores and the stem, in which exactly ASCII letters, digits, underscores and bytes from 128 on are kept and all else is an underscore |
| FixtureTests.IdsCollide | build.rs:122-134 | identifiers are equal exactly for one suite and stems of one length that differ only where neither has an ASCII letter or digit or a byte from 128 on |
| FixtureTests.WordsKeepApart | build.rs:122-134 | stems of ASCII letters, digits and underscores collide only if equal |
| FixtureTests.CollectSuites | build.rs:18-24 | the suites that exist, in order, contribute every fixture once |
| FixtureTests.ListsIsCanonical | build.rs:18-24 | the list of all fixtures is unique and free of duplicates |
| FixtureTests.FirstRepeated | build.rs:27-35 | the seen-set loop stops at the first identifier that repeats an earlier one, and at the end exactly when all are distinct |
| FixtureTests.Generate | build.rs:5-56 | the outcome is a report on the list of all fixtures: one test per fixture in order when all identifiers are distinct, otherwise the first identifier that repeats |
| FixtureTests.GenerationIsDetermined | build.rs:5-56 | the fixture tree and separator determine the outcome, and it succeeds exactly when all identifiers are distinct |
| FixtureTests.FixturePathSplits | build.rs:46 | a fixture path splits back into suite and stem |
| FixtureTests.TestIsSpelled | build.rs:44-55 | a test is named by its identifier, and its fixture path with the extension put back is the fixture's path below its suite |
| FixtureTests.SuitesInOrder | build.rs:8-24 | the tests come suite by suite: happy, errors, modules, slow |
| FixtureTests.SameCaseIsSharedSnapshot | build.rs:108-115 | two files of one suite are one case exactly when they share a snapshot |
| FixtureTests.GeneratedIsBijective | build.rs:26-56 | after success no two fixtures share a case, a test name or a fixture path |
| FixtureTests.SharedSnapshotPanics | build.rs:106-115 | where two scripts of one directory share a snapshot, generation panics, so both never survive |
| ChurnCache.SetKeepsPlace | bench/scenarios/alloc-churn.js:13 | setting a present key changes its value and leaves every entry in its place |
| ChurnCache.DeleteTakesOut | bench/scenarios/alloc-churn.js:16-19 | deleting a key takes out its entry and leaves the order of the others |
| ChurnCache.EveryIterationAdvances | bench/scenarios/alloc-churn.js:10-20 | from the exact state after t iterations, one more leads to the exact state after t + 1, for every t, stuck ids included |
| ChurnCache.Churn.Iteration | bench/scenarios/alloc-churn.js:11-19 | one loop iteration keeps the exact state and at most 1000 entries with at most one eviction |
| ChurnCache.Churn.Work | bench/scenarios/alloc-churn.js:8-22 | a call keeps five objects, leads to the exact state after a hundred more iterations, and its insertion log is what was evicted followed by what is present |
| ChurnCache.Drive | fixtures/happy/map_alloc_churn_loop.js:19-23 | any number of calls reports five per call and a final size of at most 1000 |
| ChurnCache.FixtureOutput | fixtures/happy/map_alloc_churn_loop.js:19-23 | the forty calls report 200 and 200, the recorded snapshot |
| ChurnCache.CacheIsBoundedAndBound | bench/scenarios/alloc-churn.js:12-19 | after every iteration: at most 1000 entries, keys strictly ascending in insertion order, each bound to the object of that id |
| ChurnCache.CacheAfterCalls | bench/scenarios/alloc-churn.js:8-22 | while ids grow, the keys after n calls are the last 1000 multiples of twenty below 100 n, with their objects spelled out |
| ChurnCache.NothingIsLost | bench/scenarios/alloc-churn.js:10-20 | over every run, stuck ids included, the log of first insertions is the evicted keys followed by the present ones, ascending and disjoint |
| ChurnCache.KeptIsConserved | bench/scenarios/alloc-churn.js:6-22 | kept objects number those evicted plus those present exactly up to 90,071,992,547,410 calls |
| SameValue.IsNegativeZero | harness.js:49-51 | strict equality with zero and the reciprocal single out negative zero |
| SameValue.IsSameValueIsSpec | harness.js:97-105 | the comparison is SameValue of the standard and identity of language values, hence an equivalence |
| SameValue.CompareArray | harness.js:199-209 | true exactly for arrays of one length that are pointwise the same, hence an equivalence |

## Left out

- SHA-256, reading and writing files, environment variables, cargo directives: library code and I/O. Digests are a parameter, and collisions are excluded only among the strings a lemma compares.
- ReadTrace.ReplayIsExact: paths are compared as text, and the file system's root is not among the directories a path lies in; links to directories count as directories, and what a path resolves to is not tied to the path it lies under.
- Names that are not UTF-8, or contain a backslash or NUL, symbolic links, and unreadable directories or files: the fingerprint scripts panic on unreadable ones, and the model takes readable trees with such names excluded. Cargo.lock has to exist where a script reads it.
- Scripts.OptimizerIsUntracked: the CLI script is not among its cases because its paths are relative to its own crate, which holds no other crate.
- FixtureTests.IdsCollide: the identifiers behind it are made byte by byte. `SanitizeTestId` works on bytes and leaves those of non-ASCII characters as they are, where the code also replaces non-alphanumeric characters beyond ASCII.
- FixtureTests.Generate: gives the list of tests by name and fixture path, not the Rust text wrapped around them, and not whether a name is a legal identifier.
- CachedBuilds.HitsAreCleanExactly: the file system stands still during one compilation and one lookup, traces marked unsupported are never stored, and built-in virtual modules count as part of the compiler. The Rust toolchain and build profile are not among an invocation's inputs.
- CachedBuilds.CompilationIsDeterministic: the compiler is any function from observations to its next action; what the pipeline computes is not modelled.
- ArtifactCache.CacheDirectory.StoreIn: the encoding of the index file, its temporary name, a failing write and directory permissions. An index file that does not decode is one that is not there.
- ArtifactCache.HitIsStoredArtifact: speaks of runs that leave artifact files to stores. Overwriting both files of an entry consistently can make any bytes a hit, since an index file names the digest of its own artifact.
- CacheRuns.SwallowedErrorGoesStale: models the resolution of one package entry, not the whole compilation around it; probes that are asked again with the same answer are asked once.
- CacheRuns.ShowingGoesStale: its compilers copy the changed file to their output; that a given change of the optimiser changes a given result is a premise of `OptimizerChangeGoesStale`, as the optimiser itself is not modelled.
- CacheRuns.LogicalRootsTakeTurns: the artifact shows its logical URL only, without percent-encoding and program.
- CachedBuilds.UnchangedIsFound: a single source that is not UTF-8 is recorded by the digest of its lossily decoded text (`crates/wjsm-cli/src/lib.rs:2087-2090`), so its store is never found; in the model what is recorded is what was read. An artifact that does not decode is a miss in the code (`crates/wjsm-cli/src/lib.rs:2028-2030`), and the model does not decode artifacts.
- Dominators.Compute: ids, ranks and times are unbounded; the code's are 32 bits wide, which is enough below 2^31 blocks. The entry has to be one of the blocks. Of terminators only the targets are modelled.
- ReadTrace.RecordAll: paths of built-in virtual modules, which are skipped, and relative or non-UTF-8 paths, which mark the trace unsupported, do not occur. The mutex is left out; concurrent recording is one of the orders `ReadTrace.TraceOrderFree` covers.
- CacheKeys.BuildConditions: the builder methods around it, which only set its arguments.
- ChurnCache.MakeObj: the payload string is known by the number in it. Timing, warm-up and printing of the benchmark are left out.
- SameValue.CompareArray: arrays are sequences of values; getters, proxies and array-likes whose length changes are not modelled. Message formatting is left out.
- The snapshot builder and the host-state header of the host script, the built-in segment cache, and the cache of native images: constants and I/O around the same keys.
- The rest of the engine (compiler, optimiser, garbage collector, runtime): apart from dominance queries a compiler appears only as a function from observations to its next action.
