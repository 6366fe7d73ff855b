/** The allocation benchmark's bounded cache: an insertion-ordered map capped at 1000 entries. */
module ChurnCache {

  // ---------------------------------------------------------------------------
  // Numbers, objects and the insertion-ordered map
  // ---------------------------------------------------------------------------

  /** From here on, adding one to a number gives the same number back. */
  const SATURATION: nat := 9007199254740992

  function Increment(n: nat): (r: nat) {
    if n < SATURATION then n + 1 else n
  }

  /** The template string `p${i}`, known by its number. */
  datatype Payload = P(i: nat)

  datatype Obj = Obj(id: nat, payload: Payload, values: seq<nat>)

  function MakeObj(id: nat, i: nat): (r: Obj) {
    Obj(id, P(i), [i, i * 2, i * 3])
  }

  datatype Entry = Entry(key: nat, value: Obj)

  /** The entries of a JavaScript Map, oldest first. */
  type Entries = seq<Entry>

  /** `Map.prototype.set`: an existing key keeps its place. */
  function MapSet(m: Entries, key: nat, value: Obj): (r: Entries) {
    if m == [] then [Entry(key, value)]
    else if m[0].key == key then [Entry(key, value)] + m[1..]
    else [m[0]] + MapSet(m[1..], key, value)
  }

  /** `Map.prototype.delete`. */
  function MapDelete(m: Entries, key: nat): (r: Entries) {
    if m == [] then []
    else if m[0].key == key then m[1..]
    else [m[0]] + MapDelete(m[1..], key)
  }

  lemma {:induction false} SetNewKey(m: Entries, key: nat, value: Obj)
    requires forall i :: 0 <= i < |m| ==> m[i].key != key
    ensures MapSet(m, key, value) == m + [Entry(key, value)]
  {
    if m != [] {
      SetNewKey(m[1..], key, value);
      assert m == [m[0]] + m[1..];
    }
  }

  lemma {:induction false} SetKeepsPlace(m: Entries, key: nat, value: Obj, k: nat)
    requires k < |m| && m[k].key == key && forall i :: 0 <= i < k ==> m[i].key != key
    ensures MapSet(m, key, value) == m[k := Entry(key, value)]
  {
    if k > 0 {
      SetKeepsPlace(m[1..], key, value, k - 1);
      assert m == [m[0]] + m[1..];
    }
  }

  lemma {:induction false} DeleteTakesOut(m: Entries, key: nat, k: nat)
    requires k < |m| && m[k].key == key && forall i :: 0 <= i < k ==> m[i].key != key
    ensures MapDelete(m, key) == m[..k] + m[k + 1..]
  {
    if k > 0 {
      DeleteTakesOut(m[1..], key, k - 1);
      assert m[..k] == [m[0]] + m[1..][..k - 1];
    }
  }

  // ---------------------------------------------------------------------------
  // The state after any number of loop iterations, over all calls
  // ---------------------------------------------------------------------------

  /** How many of the first t iterations keep their object. */
  function KeptBy(t: nat): (r: nat) { (t + 19) / 20 }

  function Min(a: nat, b: nat): (r: nat) { if a < b then a else b }

  /** The entry kept by the n-th keeping iteration while ids still grow. */
  function NthEntry(n: nat): (r: Entry) {
    Entry(20 * n, MakeObj(20 * n, 20 * n % 100))
  }

  function Range(from: nat, to: nat): (r: Entries)
    requires from <= to
    ensures |r| == to - from && forall j :: 0 <= j < |r| ==> r[j] == NthEntry(from + j)
  {
    seq(to - from, j requires 0 <= j < to - from => NthEntry(from + j))
  }

  /** The first iteration that would keep an object whose id no longer grows. */
  const FIRST_STUCK: nat := SATURATION + 8

  function EvictedCount(t: nat): (r: nat) {
    if KeptBy(t) <= 1000 then 0 else KeptBy(t) - 1000
  }

  /** The cache after t iterations: the last thousand kept objects, in order; once ids are stuck, the
      newest place is taken by the one stuck key with its latest object. */
  function CacheAt(t: nat): (r: Entries) {
    if t <= FIRST_STUCK then Range(EvictedCount(t), KeptBy(t))
    else Settled() + [StuckEntry(LastMultiple(t - 1) % 100)]
  }

  /** The 999 entries that stay for good once ids are stuck. */
  function Settled(): (r: Entries)
    ensures |r| == 999 && forall j :: 0 <= j < |r| ==> r[j].key < SATURATION
  {
    Range(EvictedCount(FIRST_STUCK) + 1, KeptBy(FIRST_STUCK))
  }

  function StuckEntry(i: nat): (r: Entry) { Entry(SATURATION, MakeObj(SATURATION, i)) }

  /** The greatest multiple of twenty up to t. */
  function LastMultiple(t: nat): (r: nat) { t / 20 * 20 }

  /** The entries evicted in t iterations, oldest first. */
  function EvictedAt(t: nat): (r: Entries) {
    if t <= FIRST_STUCK then Range(0, EvictedCount(t)) else Range(0, EvictedCount(FIRST_STUCK) + 1)
  }

  function IdAt(t: nat): (r: nat) { Min(t, SATURATION) }

  /** The loop body up to the size check: every twentieth object is kept. */
  function Keep(m: Entries, id: nat, i: nat): (r: Entries) {
    if i % 20 == 0 then MapSet(m, id, MakeObj(id, i)) else m
  }

  /** The size check: above 1000 entries the oldest one goes. */
  function Evict(m: Entries): (r: Entries) {
    if |m| > 1000 then MapDelete(m, m[0].key) else m
  }

  function Evictee(m: Entries): (r: Entries) {
    if |m| > 1000 then [m[0]] else []
  }

  /** One iteration, from state t, leads to state t + 1. */
  ghost predicate Advances(t: nat) {
    var kept := Keep(CacheAt(t), IdAt(t), t % 100);
    && Evict(kept) == CacheAt(t + 1)
    && EvictedAt(t + 1) == EvictedAt(t) + Evictee(kept)
  }

  lemma RangeGrows(from: nat, to: nat)
    requires from <= to
    ensures Range(from, to + 1) == Range(from, to) + [NthEntry(to)]
  {
  }

  lemma RangeShrinks(from: nat, to: nat)
    requires from < to
    ensures Range(from, to)[0] == NthEntry(from) && Range(from, to)[1..] == Range(from + 1, to)
  {
  }

  lemma KeptCounts(t: nat)
    ensures t % 20 != 0 ==> KeptBy(t + 1) == KeptBy(t)
    ensures t % 20 == 0 ==> 20 * KeptBy(t) == t && KeptBy(t + 1) == KeptBy(t) + 1
    ensures t < FIRST_STUCK && t % 20 == 0 ==> t <= SATURATION
  {
  }

  lemma Multiples(t: nat)
    ensures t % 100 % 20 == 0 <==> t % 20 == 0
    ensures t % 20 == 0 ==> LastMultiple(t) == t
    ensures t % 20 != 0 ==> t > 0 && LastMultiple(t) == LastMultiple(t - 1)
  {
    HundredsInTwenties(t);
  }

  lemma HundredsInTwenties(t: nat)
    ensures t % 100 % 20 == t % 20
  {
    var q, r := t / 100, t % 100;
    var k, u := r / 20, r % 20;
    assert t == 20 * (5 * q + k) + u;
    RemainderIs(t, 5 * q + k, u);
  }

  lemma RemainderIs(t: nat, k: nat, u: nat)
    requires t == 20 * k + u && u < 20
    ensures t % 20 == u
  {
  }

  lemma IdleIteration(t: nat)
    requires t % 20 != 0
    ensures Advances(t)
  {
    KeptCounts(t);
    Multiples(t);
    assert CacheAt(t + 1) == CacheAt(t) && EvictedAt(t + 1) == EvictedAt(t);
  }

  /** How many of n kept entries have been evicted. */
  function Overflow(n: nat): (r: nat) {
    if n <= 1000 then 0 else n - 1000
  }

  lemma EvictsOldest(n: nat)
    ensures Evict(Range(Overflow(n), n + 1)) == Range(Overflow(n + 1), n + 1)
    ensures Range(0, Overflow(n + 1)) == Range(0, Overflow(n)) + Evictee(Range(Overflow(n), n + 1))
  {
    if n >= 1000 {
      RangeShrinks(n - 1000, n + 1);
      RangeGrows(0, n - 1000);
    }
  }

  lemma GrowingStates(t: nat)
    requires t % 20 == 0 && t < FIRST_STUCK
    ensures var n := KeptBy(t);
      && EvictedAt(t) == Range(0, Overflow(n)) && EvictedAt(t + 1) == Range(0, Overflow(n + 1))
      && CacheAt(t + 1) == Range(Overflow(n + 1), n + 1)
      && Keep(CacheAt(t), IdAt(t), t % 100) == Range(Overflow(n), n + 1)
  {
    KeptCounts(t);
    KeepsNth(t, KeptBy(t));
  }

  lemma KeepingIteration(t: nat)
    requires t % 20 == 0 && t < FIRST_STUCK
    ensures Advances(t)
  {
    GrowingStates(t);
    EvictsOldest(KeptBy(t));
  }

  lemma KeepsNth(t: nat, n: nat)
    requires t == 20 * n && n == KeptBy(t) && t <= SATURATION
    ensures Keep(CacheAt(t), IdAt(t), t % 100) == Range(EvictedCount(t), n + 1)
  {
    Multiples(t);
    SetNewKey(CacheAt(t), t, MakeObj(t, t % 100));
    RangeGrows(EvictedCount(t), n);
  }

  lemma FirstStuckIteration()
    ensures Advances(FIRST_STUCK)
  {
    var t := FIRST_STUCK;
    var n, from, m := KeptBy(t), EvictedCount(t), CacheAt(t);
    var e := StuckEntry(t % 100);
    assert m == Range(from, n) && n - from == 1000 && t % 100 % 20 == 0;
    SetNewKey(m, SATURATION, MakeObj(SATURATION, t % 100));
    var kept := m + [e];
    assert Keep(m, IdAt(t), t % 100) == kept;
    RangeShrinks(from, n);
    RangeGrows(0, from);
    assert kept[1..] == Settled() + [e] && kept[0] == NthEntry(from);
  }

  lemma LaterStuckIteration(t: nat)
    requires t % 20 == 0 && t > FIRST_STUCK
    ensures Advances(t)
  {
    Multiples(t);
    var m, i := CacheAt(t), t % 100;
    assert m[999].key == SATURATION && m[..999] == Settled();
    SetKeepsPlace(m, SATURATION, MakeObj(SATURATION, i), 999);
    assert Keep(m, IdAt(t), i) == Settled() + [StuckEntry(i)] == CacheAt(t + 1);
  }

  lemma EveryIterationAdvances(t: nat)
    ensures Advances(t)
  {
    if t % 20 != 0 {
      IdleIteration(t);
    } else if t < FIRST_STUCK {
      KeepingIteration(t);
    } else if t == FIRST_STUCK {
      FirstStuckIteration();
    } else {
      LaterStuckIteration(t);
    }
  }

  /** Loop iterations over all calls, `done` of them in the present call. */
  function Iterations(calls: nat, done: nat): (r: nat) { 100 * calls + done }

  lemma Place(calls: nat, i: nat)
    requires i < 100
    ensures Iterations(calls, i) % 100 == i && Iterations(calls, i) + 1 == Iterations(calls, i + 1)
  {
  }

  lemma CacheIsBounded(t: nat)
    ensures |CacheAt(t)| <= 1000
  {
  }

  lemma CallEnds(calls: nat)
    ensures Iterations(calls, 100) == Iterations(calls + 1, 0)
  {
  }

  /** What iteration i of a call does to the state, spelled out. */
  lemma StepReaches(calls: nat, i: nat)
    requires i < 100
    ensures var t, next := Iterations(calls, i), Iterations(calls, i + 1);
      var kept := Keep(CacheAt(t), IdAt(t), i);
      && IdAt(next) == Increment(IdAt(t))
      && CacheAt(next) == (if |kept| > 1000 then MapDelete(kept, kept[0].key) else kept)
      && EvictedAt(next) == EvictedAt(t) + (if |kept| > 1000 then [kept[0]] else [])
      && |CacheAt(next)| <= 1000
      && Inserted(next) == (if i % 20 == 0 then Noted(Inserted(t), IdAt(t)) else Inserted(t))
    ensures KeptBy(i + 1) == KeptBy(i) + (if i % 20 == 0 then 1 else 0)
  {
    Place(calls, i);
    EveryIterationAdvances(Iterations(calls, i));
    CacheIsBounded(Iterations(calls, i + 1));
    KeptCounts(i);
  }

  // ---------------------------------------------------------------------------
  // Conservation
  // ---------------------------------------------------------------------------

  /** The keys of some entries, in order. */
  function Keys(m: Entries): (r: seq<nat>)
    ensures |r| == |m| && forall j :: 0 <= j < |r| ==> r[j] == m[j].key
  {
    seq(|m|, j requires 0 <= j < |m| => m[j].key)
  }

  /** A log of insertions: a key is noted when it is first set. */
  function Noted(log: seq<nat>, key: nat): (r: seq<nat>) {
    if key in log then log else log + [key]
  }

  /** The keys inserted in the first t iterations, in the order of their first insertion. */
  function Inserted(t: nat): (log: seq<nat>) {
    if t == 0 then []
    else if (t - 1) % 100 % 20 == 0 then Noted(Inserted(t - 1), IdAt(t - 1))
    else Inserted(t - 1)
  }

  ghost predicate Ascending(s: seq<nat>) {
    forall i, j :: 0 <= i < j < |s| ==> s[i] < s[j]
  }

  /** Over every run, also once ids are stuck: the keys ever inserted are the evicted ones followed by
      the present ones, in insertion order, and no key is both evicted and present. */
  lemma {:induction false} NothingIsLost(t: nat)
    ensures Inserted(t) == Keys(EvictedAt(t)) + Keys(CacheAt(t))
    ensures Ascending(Inserted(t))
    ensures forall key :: key in Keys(EvictedAt(t)) ==> key !in Keys(CacheAt(t))
  {
    InsertedIsLogged(t);
    LoggedKeys(t);
    LoggedAscends(t);
    AscendingHalvesDiffer(Keys(EvictedAt(t)), Keys(CacheAt(t)));
  }

  lemma AscendingHalvesDiffer(a: seq<nat>, b: seq<nat>)
    requires Ascending(a + b)
    ensures forall key :: key in a ==> key !in b
  {
    forall i, j | 0 <= i < |a| && 0 <= j < |b| ensures a[i] != b[j] {
      assert (a + b)[i] < (a + b)[|a| + j];
    }
  }

  function FirstMultiples(n: nat): (r: seq<nat>)
    ensures |r| == n && forall k :: 0 <= k < n ==> r[k] == 20 * k
  {
    seq(n, k => 20 * k)
  }

  /** The keys after t iterations, evicted or present. */
  function Logged(t: nat): (r: seq<nat>) {
    if t <= FIRST_STUCK then FirstMultiples(KeptBy(t)) else FirstMultiples(KeptBy(FIRST_STUCK)) + [SATURATION]
  }

  lemma LoggedKeys(t: nat)
    ensures Logged(t) == Keys(EvictedAt(t)) + Keys(CacheAt(t))
  {
  }

  lemma LoggedAscends(t: nat)
    ensures Ascending(Logged(t))
  {
    assert 20 * (KeptBy(FIRST_STUCK) - 1) < SATURATION;
  }

  lemma {:induction false} InsertedIsLogged(t: nat)
    ensures Inserted(t) == Logged(t)
  {
    if t > 0 {
      InsertedIsLogged(t - 1);
      Multiples(t - 1);
      KeptCounts(t - 1);
      if (t - 1) % 20 == 0 { KeptIsNoted(t - 1); }
    }
  }

  lemma KeptIsNoted(t: nat)
    requires t % 20 == 0
    ensures Logged(t + 1) == Noted(Logged(t), IdAt(t))
  {
    KeptCounts(t);
    if t < FIRST_STUCK {
      assert t !in Logged(t);
    } else if t == FIRST_STUCK {
      assert SATURATION !in Logged(t);
    } else {
      var log := Logged(t);
      assert log[|log| - 1] == SATURATION;
    }
  }

  // ---------------------------------------------------------------------------
  // The benchmark
  // ---------------------------------------------------------------------------

  class Churn {
    var cache: Entries
    var nextId: nat
    /** Calls so far and loop iterations of the present one; over all calls, the entries evicted and
        the keys set for the first time. */
    ghost var calls: nat
    ghost var done: nat
    ghost var evicted: Entries
    ghost var inserted: seq<nat>

    ghost predicate Valid()
      reads this
    {
      var t := Iterations(calls, done);
      && cache == CacheAt(t) && nextId == IdAt(t) && evicted == EvictedAt(t) && |cache| <= 1000
      && inserted == Inserted(t)
    }

    constructor ()
      ensures Valid() && calls == done == 0
    {
      cache, nextId, calls, done, evicted, inserted := [], 0, 0, 0, [], [];
    }

    /** `work`: a hundred objects, every twentieth kept, the oldest dropped above a thousand. */
    method Work() returns (kept: nat)
      requires Valid() && done == 0
      modifies this
      ensures Valid() && calls == old(calls) + 1 && done == 0
      ensures kept == 5
      ensures inserted == Keys(evicted) + Keys(cache)
    {
      kept := 0;
      for i := 0 to 100
        invariant Valid() && calls == old(calls) && done == i
        invariant kept == KeptBy(i)
      {
        var more := Iteration(i);
        kept := kept + more;
      }
      CallEnds(calls);
      calls, done := calls + 1, 0;
      NothingIsLost(Iterations(calls, done));
    }

    /** The loop body. */
    method Iteration(i: nat) returns (kept: nat)
      requires Valid() && i == done < 100
      modifies this
      ensures Valid() && calls == old(calls) && done == i + 1
      ensures kept == KeptBy(i + 1) - KeptBy(i)
    {
      StepReaches(calls, i);
      var obj := MakeObj(nextId, i);
      nextId := Increment(nextId);
      kept := 0;
      if i % 20 == 0 {
        cache := MapSet(cache, obj.id, obj);
        inserted := Noted(inserted, obj.id);
        kept := 1;
      }
      if |cache| > 1000 {
        var oldest := cache[0].key;
        evicted := evicted + [cache[0]];
        cache := MapDelete(cache, oldest);
      }
      done := done + 1;
    }
  }

  /** The driver: a number of calls, reporting the total kept and the final size. */
  method Drive(calls: nat) returns (total: nat, size: nat)
    ensures total == 5 * calls
    ensures size == Min(5 * calls, 1000)
  {
    var churn := new Churn();
    total := 0;
    for n := 0 to calls
      invariant churn.Valid() && churn.calls == n && churn.done == 0
      invariant fresh(churn)
      invariant total == 5 * n
    {
      var kept := churn.Work();
      total := total + kept;
    }
    size := |churn.cache|;
    SizeAfterCalls(calls);
  }

  lemma FivePerCall(calls: nat)
    ensures KeptBy(100 * calls) == 5 * calls
  {
  }

  lemma SizeAfterCalls(calls: nat)
    ensures |CacheAt(Iterations(calls, 0))| == Min(5 * calls, 1000)
  {
    FivePerCall(calls);
  }

  /** The fixture's forty calls. */
  method FixtureOutput() returns (total: nat, size: nat)
    ensures total == 200 && size == 200
  {
    total, size := Drive(40);
  }

  // ---------------------------------------------------------------------------
  // What the state says
  // ---------------------------------------------------------------------------

  /** Never more than a thousand entries, keys strictly ascending, each bound to the object of that id. */
  lemma CacheIsBoundedAndBound(t: nat)
    ensures |CacheAt(t)| <= 1000
    ensures forall i, j :: 0 <= i < j < |CacheAt(t)| ==> CacheAt(t)[i].key < CacheAt(t)[j].key
    ensures forall e :: e in CacheAt(t) ==> e.value.id == e.key
  {
    var m := CacheAt(t);
    forall e | e in m ensures e.value.id == e.key {
      var i :| 0 <= i < |m| && m[i] == e;
    }
    if t > FIRST_STUCK {
      assert 20 * (KeptBy(FIRST_STUCK) - 1) < SATURATION;
    }
  }

  /** While ids grow, the cache after n calls holds the last thousand multiples of twenty below 100 n,
      ascending, each bound to the object made with that id. */
  lemma CacheAfterCalls(calls: nat)
    requires 100 * calls <= SATURATION
    ensures var m := CacheAt(100 * calls);
      && |m| == Min(5 * calls, 1000)
      && forall j :: 0 <= j < |m| ==>
           && m[j].key == 20 * (5 * calls - |m| + j)
           && m[j].value == Obj(m[j].key, P(m[j].key % 100),
                                [m[j].key % 100, m[j].key % 100 * 2, m[j].key % 100 * 3])
  {
    FivePerCall(calls);
    var t, m := 100 * calls, CacheAt(100 * calls);
    assert m == Range(EvictedCount(t), 5 * calls) && EvictedCount(t) == 5 * calls - |m|;
  }

  /** The objects reported as kept are the ones evicted or present exactly while the run makes at most
      90071992547410 calls; then ids stop growing and later objects replace one another. */
  lemma KeptIsConserved(calls: nat)
    ensures 5 * calls == |EvictedAt(100 * calls)| + |CacheAt(100 * calls)| <==> calls <= 90071992547410
  {
    SizeAfterCalls(calls);
    FivePerCall(calls);
  }
}
