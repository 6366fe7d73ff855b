/** What a compilation observes of the file system, what is recorded of it, and replaying the record. */
module ReadTrace {
  import opened Wrappers
  import opened Bytes
  import opened Ordering
  import opened Paths
  import opened CacheKeys

  type Hash = seq<Byte> -> Digest

  /** q names a directory that p lies in, however deep. */
  predicate Below(q: Text, p: Text) {
    q != [] && q + [SLASH] <= p
  }

  /** The directories a path lies in, other than the file system's root. */
  function Ancestors(p: Text): (r: set<Text>) {
    set i | 0 < i < |p| && p[i] == SLASH :: p[..i]
  }

  lemma AncestorsAreAbove(p: Text)
    ensures forall q: Text :: q in Ancestors(p) <==> Below(q, p)
  {
    forall q: Text | Below(q, p) ensures q in Ancestors(p) {
      assert p[|q|] == (q + [SLASH])[|q|] && q == p[..|q|];
    }
    forall q: Text | q in Ancestors(p) ensures Below(q, p) {
      var i :| 0 < i < |p| && p[i] == SLASH && q == p[..i];
      assert q + [SLASH] == p[..i + 1];
    }
  }

  lemma BelowIsTransitive(q: Text, p: Text, x: Text)
    requires Below(q, p) && Below(p, x)
    ensures Below(q, x)
  {
  }

  /** The file system as the source store sees it, by path. */
  datatype FileSystem = FileSystem(
    files: set<Text>, dirs: set<Text>, canonical: map<Text, Text>, contents: map<Text, Contents>)
  {
    function Existing(): (r: set<Text>) {
      files + dirs + canonical.Keys + contents.Keys
    }

    /** Nothing is both file and directory, directories cannot be read, and what exists lies in
        directories. What is neither, a pipe or a device, may be readable and have a canonical path. */
    ghost predicate Valid() {
      && files !! dirs && contents.Keys !! dirs
      && forall p, q :: p in Existing() && Below(q, p) ==> q in dirs
    }
  }

  datatype Probe = IsFile(path: Text) | IsDir(path: Text) | Canonicalize(path: Text) | Read(path: Text)

  datatype Answer = Flag(value: bool) | Target(target: Text) | Data(bytes: Contents) | Failed

  datatype Observation = Observation(probe: Probe, answer: Answer)

  function Ask(fs: FileSystem, q: Probe): (r: Answer) {
    match q
    case IsFile(p) => Flag(p in fs.files)
    case IsDir(p) => Flag(p in fs.dirs)
    case Canonicalize(p) => if p in fs.canonical then Target(fs.canonical[p]) else Failed
    case Read(p) => if p in fs.contents then Data(fs.contents[p]) else Failed
  }

  /** Every observation is what the file system answers. */
  ghost predicate Agrees(t: seq<Observation>, fs: FileSystem) {
    forall o :: o in t ==> Ask(fs, o.probe) == o.answer
  }

  // ---------------------------------------------------------------------------
  // Recording
  // ---------------------------------------------------------------------------

  /** What the traced disk store records: both probes always, the other two only when they succeed. */
  function FactOf(h: Hash, o: Observation): (r: Option<Fact>) {
    match o
    case Observation(IsFile(p), Flag(v)) => Some(IsFileFact(p, v))
    case Observation(IsDir(p), Flag(v)) => Some(IsDirFact(p, v))
    case Observation(Canonicalize(p), Target(t)) => Some(CanonicalFact(p, t))
    case Observation(Read(p), Data(b)) => Some(ContentFact(p, h(b)))
    case _ => None
  }

  datatype FactKey = FactKey(kind: nat, path: Text)

  function KeyOf(f: Fact): (r: FactKey) {
    match f
    case IsFileFact(p, _) => FactKey(0, p)
    case IsDirFact(p, _) => FactKey(1, p)
    case CanonicalFact(p, _) => FactKey(2, p)
    case ContentFact(p, _) => FactKey(3, p)
  }

  predicate KeyBefore(a: FactKey, b: FactKey) {
    a.kind < b.kind || (a.kind == b.kind && Less(a.path, b.path))
  }

  lemma KeyOrderIsTotal()
    ensures StrictTotalOrder(KeyBefore)
  {
    forall a: FactKey ensures !KeyBefore(a, a) {
      LessIrreflexive(a.path);
    }
    forall a: FactKey, b: FactKey, c: FactKey | KeyBefore(a, b) && KeyBefore(b, c) ensures KeyBefore(a, c) {
      if a.kind == b.kind == c.kind { LessTransitive(a.path, b.path, c.path); }
    }
    forall a: FactKey, b: FactKey ensures a == b || KeyBefore(a, b) || KeyBefore(b, a) {
      LessTotal(a.path, b.path);
    }
  }

  type FactMap = map<FactKey, Fact>

  /** `entry(key).or_insert(fact)`: the first observation of a key stays. */
  function Insert(m: FactMap, f: Option<Fact>): (r: FactMap) {
    match f
    case None => m
    case Some(fact) => if KeyOf(fact) in m then m else m[KeyOf(fact) := fact]
  }

  function Trace(h: Hash, t: seq<Observation>): (r: FactMap) {
    if t == [] then map[] else Insert(Trace(h, t[..|t| - 1]), FactOf(h, t[|t| - 1]))
  }

  ghost predicate KeysFit(m: FactMap) {
    forall k :: k in m ==> KeyOf(m[k]) == k
  }

  /** The facts in key order. */
  ghost function FactList(m: FactMap): (l: seq<Fact>)
    ensures forall f :: f in l <==> f in m.Values
    ensures KeysFit(m) ==> Sorted((f, g) => KeyBefore(KeyOf(f), KeyOf(g)), l)
  {
    KeyOrderIsTotal();
    var keys := Canonical(KeyBefore, m.Keys);
    assert forall k :: k in keys <==> k in Elements(keys);
    var l := seq(|keys|, i requires 0 <= i < |keys| => m[keys[i]]);
    assert KeysFit(m) ==> forall i :: 0 <= i < |keys| ==> KeyOf(l[i]) == keys[i];
    forall f | f in m.Values ensures f in l {
      var k :| k in m && m[k] == f;
      var i :| 0 <= i < |keys| && keys[i] == k;
      assert l[i] == f;
    }
    l
  }

  class SourceReadTrace {
    var facts: FactMap

    constructor ()
      ensures facts == map[]
    {
      facts := map[];
    }

    method Record(h: Hash, o: Observation)
      modifies this
      ensures facts == Insert(old(facts), FactOf(h, o))
    {
      match FactOf(h, o) {
        case None =>
        case Some(fact) =>
          if KeyOf(fact) !in facts {
            facts := facts[KeyOf(fact) := fact];
          }
      }
    }
  }

  method RecordAll(h: Hash, t: seq<Observation>) returns (facts: FactMap)
    ensures facts == Trace(h, t)
  {
    var trace := new SourceReadTrace();
    for i := 0 to |t|
      invariant trace.facts == Trace(h, t[..i])
    {
      assert t[..i + 1][..i] == t[..i];
      trace.Record(h, t[i]);
    }
    assert t[..|t|] == t;
    facts := trace.facts;
  }

  /** The observation at i is the first that records a fact with key k. */
  ghost predicate FirstOfKey(h: Hash, t: seq<Observation>, k: FactKey, i: nat)
    requires i < |t|
  {
    && FactOf(h, t[i]).Some? && KeyOf(FactOf(h, t[i]).value) == k
    && forall j :: 0 <= j < i && FactOf(h, t[j]).Some? ==> KeyOf(FactOf(h, t[j]).value) != k
  }

  /** Whatever was observed, also of a file system that changed meanwhile: the trace holds a key exactly
      when some observation records it, and of several the fact of the first. */
  lemma {:induction false} TraceKeepsFirst(h: Hash, t: seq<Observation>, k: FactKey)
    ensures k in Trace(h, t) <==> exists i :: 0 <= i < |t| && FirstOfKey(h, t, k, i)
    ensures forall i :: 0 <= i < |t| && FirstOfKey(h, t, k, i) ==>
              k in Trace(h, t) && FactOf(h, t[i]) == Some(Trace(h, t)[k])
  {
    if t != [] {
      var n := |t| - 1;
      var init := t[..n];
      TraceKeepsFirst(h, init, k);
      forall i | 0 <= i < n ensures FirstOfKey(h, t, k, i) <==> FirstOfKey(h, init, k, i) {
        assert forall j :: 0 <= j <= i ==> init[j] == t[j];
      }
      if k !in Trace(h, init) && k in Trace(h, t) {
        NoneBefore(h, t, k, n);
        assert FirstOfKey(h, t, k, n);
      }
    }
  }

  /** A key without a first observation below n has none there. */
  lemma {:induction false} NoneBefore(h: Hash, t: seq<Observation>, k: FactKey, n: nat)
    requires n <= |t| && forall i :: 0 <= i < n ==> !FirstOfKey(h, t, k, i)
    ensures forall i :: 0 <= i < n && FactOf(h, t[i]).Some? ==> KeyOf(FactOf(h, t[i]).value) != k
  {
    if n > 0 {
      NoneBefore(h, t, k, n - 1);
      assert !FirstOfKey(h, t, k, n - 1);
    }
  }

  /** The facts are handed out by kind and path, so no two of one kind are about one path. */
  lemma FactsAreSorted(h: Hash, t: seq<Observation>, i: nat, j: nat)
    requires i < j < |FactList(Trace(h, t))|
    ensures var f, g := FactList(Trace(h, t))[i], FactList(Trace(h, t))[j];
      && (g.IsFileFact? ==> f.IsFileFact?) && (g.IsDirFact? ==> f.IsFileFact? || f.IsDirFact?)
      && (g.CanonicalFact? ==> !f.ContentFact?)
      && (KeyOf(f).kind == KeyOf(g).kind ==> Less(f.path, g.path))
  {
    TraceFits(h, t);
    var l := FactList(Trace(h, t));
    assert KeyBefore(KeyOf(l[i]), KeyOf(l[j]));
  }

  lemma {:induction false} TraceFits(h: Hash, t: seq<Observation>)
    ensures KeysFit(Trace(h, t))
  {
    if t != [] { TraceFits(h, t[..|t| - 1]); }
  }

  /** Observations of one file system are recorded without loss and without invention. */
  lemma {:induction false} TraceIsExact(h: Hash, t: seq<Observation>, fs: FileSystem)
    requires Agrees(t, fs)
    ensures forall o :: o in t && FactOf(h, o).Some? ==>
              FactOf(h, o).value in Trace(h, t).Values
    ensures forall k :: k in Trace(h, t) ==>
              k == KeyOf(Trace(h, t)[k]) && FactHolds(h, Trace(h, t)[k], fs)
              && exists o :: o in t && FactOf(h, o) == Some(Trace(h, t)[k])
  {
    if t != [] {
      var init, o := t[..|t| - 1], t[|t| - 1];
      assert t == init + [o];
      TraceIsExact(h, init, fs);
      var m, f := Trace(h, init), FactOf(h, o);
      if f.Some? {
        assert FactHolds(h, f.value, fs);
        if KeyOf(f.value) in m {
          assert m[KeyOf(f.value)] == f.value;
        } else {
          assert Trace(h, t)[KeyOf(f.value)] == f.value;
        }
        assert f.value in Trace(h, t).Values;
      }
      forall v | v in m.Values ensures v in Trace(h, t).Values {
        var k :| k in m && m[k] == v;
        assert Trace(h, t)[k] == v;
      }
      forall k | k in Trace(h, t) ensures exists o' :: o' in t && FactOf(h, o') == Some(Trace(h, t)[k]) {
        if k in m {
          var o' :| o' in init && FactOf(h, o') == Some(m[k]);
          assert o' in t;
        } else {
          assert FactOf(h, o) == Some(Trace(h, t)[k]);
        }
      }
    }
  }

  lemma TraceValue(h: Hash, t: seq<Observation>, fs: FileSystem, k: FactKey)
    requires Agrees(t, fs)
    ensures k in Trace(h, t) <==> exists o :: o in t && FactOf(h, o).Some? && KeyOf(FactOf(h, o).value) == k
    ensures forall o :: o in t && FactOf(h, o).Some? && KeyOf(FactOf(h, o).value) == k ==>
              k in Trace(h, t) && Trace(h, t)[k] == FactOf(h, o).value
  {
    TraceIsExact(h, t, fs);
    var m := Trace(h, t);
    forall o | o in t && FactOf(h, o).Some? && KeyOf(FactOf(h, o).value) == k
      ensures k in m && m[k] == FactOf(h, o).value
    {
      var k' :| k' in m && m[k'] == FactOf(h, o).value;
    }
  }

  /** The order in which threads make the same observations does not matter. */
  lemma TraceOrderFree(h: Hash, t1: seq<Observation>, t2: seq<Observation>, fs: FileSystem)
    requires Agrees(t1, fs) && Agrees(t2, fs)
    requires forall o :: o in t1 <==> o in t2
    ensures Trace(h, t1) == Trace(h, t2)
  {
    forall k ensures k in Trace(h, t1) <==> k in Trace(h, t2) {
      TraceValue(h, t1, fs, k);
      TraceValue(h, t2, fs, k);
    }
    forall k | k in Trace(h, t1) ensures Trace(h, t1)[k] == Trace(h, t2)[k] {
      TraceValue(h, t1, fs, k);
      TraceValue(h, t2, fs, k);
    }
  }

  // ---------------------------------------------------------------------------
  // Replaying
  // ---------------------------------------------------------------------------

  /** `still_holds`. */
  predicate FactHolds(h: Hash, f: Fact, fs: FileSystem) {
    match f
    case IsFileFact(p, v) => (p in fs.files) == v
    case IsDirFact(p, v) => (p in fs.dirs) == v
    case CanonicalFact(p, t) => p in fs.canonical && fs.canonical[p] == t
    case ContentFact(p, d) => p in fs.contents && h(fs.contents[p]) == d
  }

  ghost predicate AllHold(h: Hash, facts: seq<Fact>, fs: FileSystem) {
    forall f :: f in facts ==> FactHolds(h, f, fs)
  }

  /** No file read now has the digest, but not the bytes, of what was read then. */
  ghost predicate DigestsTell(h: Hash, t: seq<Observation>, fs: FileSystem) {
    forall o :: o in t && o.probe.Read? && o.answer.Data? && o.probe.path in fs.contents ==>
      h(fs.contents[o.probe.path]) == h(o.answer.bytes) ==> fs.contents[o.probe.path] == o.answer.bytes
  }

  /** Everything that was observed of the file system and recorded would be observed again. */
  ghost predicate RecordedAgree(t: seq<Observation>, fs: FileSystem) {
    forall o :: o in t && o.answer != Failed ==> Ask(fs, o.probe) == o.answer
  }

  /** The observation shows that there is a directory at p. */
  predicate ShowsDirectory(o: Observation, p: Text) {
    o == Observation(IsDir(p), Flag(true)) || (ShowsSomething(o) && Below(p, o.probe.path))
  }

  /** The observation shows that there is something at its path. */
  predicate ShowsSomething(o: Observation) {
    o.answer == Flag(true) || o.answer.Target? || o.answer.Data?
  }

  /** The observation shows that there is no directory at p. */
  predicate ShowsNoDirectory(o: Observation, p: Text) {
    || o == Observation(IsDir(p), Flag(false)) || o == Observation(IsFile(p), Flag(true))
    || (o.probe == Read(p) && o.answer.Data?)
  }

  /** Every failure is one that recorded observations rule out for good. */
  ghost predicate Covered(t: seq<Observation>) {
    forall o :: o in t && o.answer == Failed ==> Backed(t, o.probe)
  }

  /** Nothing exists below what is not a directory, and a directory cannot be read. */
  ghost predicate Backed(t: seq<Observation>, q: Probe) {
    || (exists o, d :: o in t && Below(d, q.path) && ShowsNoDirectory(o, d))
    || (q.Read? && exists o :: o in t && ShowsDirectory(o, q.path))
  }

  lemma RecordedHolds(h: Hash, t: seq<Observation>, past: FileSystem, now: FileSystem, o: Observation)
    requires Agrees(t, past) && AllHold(h, FactList(Trace(h, t)), now)
    requires o in t && FactOf(h, o).Some?
    ensures FactHolds(h, FactOf(h, o).value, now)
  {
    TraceIsExact(h, t, past);
    assert FactOf(h, o).value in FactList(Trace(h, t));
  }

  /** What is shown of one valid file system is so. */
  lemma ShownIsSo(o: Observation, p: Text, fs: FileSystem)
    requires fs.Valid() && Ask(fs, o.probe) == o.answer
    ensures ShowsDirectory(o, p) ==> p in fs.dirs
    ensures ShowsNoDirectory(o, p) ==> p !in fs.dirs
  {
    if ShowsSomething(o) {
      assert o.probe.path in fs.Existing();
    }
  }

  /** The recorded observations rule the covered failures' success out. */
  lemma CoveredAgrees(t: seq<Observation>, past: FileSystem, now: FileSystem)
    requires Agrees(t, past) && now.Valid() && RecordedAgree(t, now) && Covered(t)
    ensures Agrees(t, now)
  {
    forall o | o in t ensures Ask(now, o.probe) == o.answer {
      if o.answer == Failed {
        assert Ask(past, o.probe) == Failed;
        BackedFails(t, o.probe, now);
      }
    }
  }

  lemma BackedFails(t: seq<Observation>, q: Probe, now: FileSystem)
    requires now.Valid() && RecordedAgree(t, now) && Backed(t, q) && (q.Read? || q.Canonicalize?)
    ensures Ask(now, q) == Failed
  {
    if x, d :| x in t && Below(d, q.path) && ShowsNoDirectory(x, d) {
      ShownIsSo(x, d, now);
      assert q.path !in now.Existing();
    } else {
      var x :| x in t && ShowsDirectory(x, q.path);
      ShownIsSo(x, q.path, now);
    }
  }

  /** If the recorded facts still hold, every observation would be made again. */
  lemma ReplayAgrees(h: Hash, t: seq<Observation>, past: FileSystem, now: FileSystem)
    requires Agrees(t, past) && now.Valid()
    requires AllHold(h, FactList(Trace(h, t)), now) && DigestsTell(h, t, now) && Covered(t)
    ensures Agrees(t, now)
  {
    RecordIsExact(h, t, past, now);
    CoveredAgrees(t, past, now);
  }

  /** The recorded facts hold exactly where everything but the failures would be observed again. */
  lemma RecordIsExact(h: Hash, t: seq<Observation>, past: FileSystem, now: FileSystem)
    requires Agrees(t, past) && DigestsTell(h, t, now)
    ensures AllHold(h, FactList(Trace(h, t)), now) <==> RecordedAgree(t, now)
  {
    if RecordedAgree(t, now) {
      RecordedAgreeSuffices(h, t, past, now);
    }
    if AllHold(h, FactList(Trace(h, t)), now) {
      forall o | o in t && o.answer != Failed ensures Ask(now, o.probe) == o.answer {
        HoldingFactAnswers(h, t, past, now, o);
      }
    }
  }

  lemma HoldingFactAnswers(h: Hash, t: seq<Observation>, past: FileSystem, now: FileSystem, o: Observation)
    requires Agrees(t, past) && DigestsTell(h, t, now) && AllHold(h, FactList(Trace(h, t)), now)
    requires o in t && o.answer != Failed
    ensures Ask(now, o.probe) == o.answer
  {
    assert Ask(past, o.probe) == o.answer;
    RecordedHolds(h, t, past, now, o);
  }

  /** A file system like `fs` in which there is nothing below p, directories above p, and p can be
      read. */
  ghost function WithContents(fs: FileSystem, p: Text): (r: FileSystem) {
    var gone := set q | q in fs.Existing() && (q == p || Below(p, q));
    var above := Ancestors(p);
    FileSystem(fs.files - above - (gone - {p}), fs.dirs - gone + above, fs.canonical - (gone - {p}),
               (fs.contents - above - gone)[p := []])
  }

  /** One in which there are directories above p, and p has a canonical path. */
  ghost function WithCanonical(fs: FileSystem, p: Text): (r: FileSystem) {
    var above := Ancestors(p);
    FileSystem(fs.files - above, fs.dirs + above, fs.canonical[p := p], fs.contents - above)
  }

  lemma WithContentsIsValid(fs: FileSystem, p: Text)
    requires fs.Valid()
    ensures WithContents(fs, p).Valid()
  {
    var now := WithContents(fs, p);
    AncestorsAreAbove(p);
    forall x, q | x in now.Existing() && Below(q, x) ensures q in now.dirs {
      if x == p {
      } else if x in Ancestors(p) {
        BelowIsTransitive(q, x, p);
      } else {
        assert x in fs.Existing() && q in fs.dirs;
        if Below(p, q) { BelowIsTransitive(p, q, x); }
      }
    }
  }

  lemma WithCanonicalIsValid(fs: FileSystem, p: Text)
    requires fs.Valid()
    ensures WithCanonical(fs, p).Valid()
  {
    var now := WithCanonical(fs, p);
    AncestorsAreAbove(p);
    forall x, q | x in now.Existing() && Below(q, x) ensures q in now.dirs {
      if x == p {
      } else if x in Ancestors(p) {
        BelowIsTransitive(q, x, p);
      } else {
        assert x in fs.Existing();
      }
    }
  }

  lemma FactSource(h: Hash, t: seq<Observation>, past: FileSystem, f: Fact) returns (o: Observation)
    requires Agrees(t, past) && f in FactList(Trace(h, t))
    ensures o in t && FactOf(h, o) == Some(f)
  {
    TraceIsExact(h, t, past);
    var m := Trace(h, t);
    var k :| k in m && m[k] == f;
    o :| o in t && FactOf(h, o) == Some(f);
  }

  lemma AnsweredHolds(h: Hash, o: Observation, fs: FileSystem)
    requires FactOf(h, o).Some? && Ask(fs, o.probe) == o.answer
    ensures FactHolds(h, FactOf(h, o).value, fs)
  {
  }

  /** All recorded facts hold wherever the recorded observations are answered alike. */
  lemma RecordedAgreeSuffices(h: Hash, t: seq<Observation>, past: FileSystem, now: FileSystem)
    requires Agrees(t, past)
    requires forall o :: o in t && FactOf(h, o).Some? ==> Ask(now, o.probe) == o.answer
    ensures AllHold(h, FactList(Trace(h, t)), now)
  {
    forall f | f in FactList(Trace(h, t)) ensures FactHolds(h, f, now) {
      var o := FactSource(h, t, past, f);
      AnsweredHolds(h, o, now);
    }
  }

  lemma RecordedReadsSuffice(h: Hash, t: seq<Observation>, now: FileSystem)
    requires forall o :: o in t && FactOf(h, o).Some? ==> Ask(now, o.probe) == o.answer
    ensures DigestsTell(h, t, now)
  {
    forall o | o in t && o.probe.Read? && o.answer.Data? && o.probe.path in now.contents
      ensures now.contents[o.probe.path] == o.answer.bytes
    {
      assert FactOf(h, o).Some?;
    }
  }

  /** An uncovered failure can succeed later while everything recorded is observed again. */
  lemma UncoveredCanSucceed(t: seq<Observation>, past: FileSystem, q: Probe) returns (now: FileSystem)
    requires Agrees(t, past) && past.Valid() && !Backed(t, q) && (q.Read? || q.Canonicalize?)
    requires Observation(q, Failed) in t
    ensures now.Valid() && RecordedAgree(t, now) && Ask(now, q) != Failed
  {
    var p := q.path;
    AncestorsAreAbove(p);
    if q.Read? {
      now := WithContents(past, p);
      WithContentsIsValid(past, p);
    } else {
      now := WithCanonical(past, p);
      WithCanonicalIsValid(past, p);
    }
    forall o | o in t && o.answer != Failed ensures Ask(now, o.probe) == o.answer {
      assert Ask(past, o.probe) == o.answer;
      assert Below(o.probe.path, p) ==> !ShowsNoDirectory(o, o.probe.path);
      assert q.Read? ==> !ShowsDirectory(o, p);
      if ShowsSomething(o) { assert o.probe.path in past.Existing(); }
    }
  }

  lemma UncoveredDiverges(h: Hash, t: seq<Observation>, past: FileSystem) returns (now: FileSystem)
    requires Agrees(t, past) && past.Valid() && !Covered(t)
    ensures now.Valid() && AllHold(h, FactList(Trace(h, t)), now) && DigestsTell(h, t, now)
    ensures !Agrees(t, now)
  {
    var o :| o in t && o.answer == Failed && !Backed(t, o.probe);
    assert Ask(past, o.probe) == Failed;
    now := UncoveredCanSucceed(t, past, o.probe);
    RecordedReadsSuffice(h, t, now);
    RecordIsExact(h, t, past, now);
  }

  /** The recorded facts pin down every observation exactly when every failure is covered. */
  lemma ReplayIsExact(h: Hash, t: seq<Observation>, past: FileSystem)
    requires Agrees(t, past) && past.Valid()
    ensures (forall now: FileSystem ::
               now.Valid() && AllHold(h, FactList(Trace(h, t)), now) && DigestsTell(h, t, now)
               ==> Agrees(t, now))
       <==> Covered(t)
  {
    if Covered(t) {
      forall now: FileSystem
        | now.Valid() && AllHold(h, FactList(Trace(h, t)), now) && DigestsTell(h, t, now)
        ensures Agrees(t, now)
      {
        ReplayAgrees(h, t, past, now);
      }
    } else {
      var now := UncoveredDiverges(h, t, past);
    }
  }
}
