/** The strings hashed into the artifact cache's keys, and what each determines. */
module CacheKeys {
  import opened Wrappers
  import opened Bytes
  import opened Ordering
  import opened Paths

  type Digest = d: seq<Byte> | |d| == 32 witness seq(32, _ => 0)

  /** UTF-8 text, no longer than a 64-bit length can say. */
  type Text = Contents

  // ---------------------------------------------------------------------------
  // Length-prefixed fields
  // ---------------------------------------------------------------------------

  function Field(t: Text): (r: seq<Byte>) {
    Le64(|t|) + t
  }

  function Fields(ts: seq<Text>): (r: seq<Byte>) {
    if ts == [] then [] else Field(ts[0]) + Fields(ts[1..])
  }

  lemma FieldSplits(a: Text, x: seq<Byte>, b: Text, y: seq<Byte>)
    requires Field(a) + x == Field(b) + y
    ensures a == b && x == y
  {
    var s := Field(a) + x;
    assert s[..8] == Le64(|a|) && s[..8] == Le64(|b|);
    Le64Injective(|a|, |b|);
    assert s[8..8 + |a|] == a && s[8..8 + |a|] == b;
    assert s[8 + |a|..] == x && s[8 + |a|..] == y;
  }

  lemma FixedSplits(a: seq<Byte>, x: seq<Byte>, b: seq<Byte>, y: seq<Byte>)
    requires |a| == |b| && a + x == b + y
    ensures a == b && x == y
  {
    assert (a + x)[..|a|] == a && (b + y)[..|a|] == b;
    assert (a + x)[|a|..] == x && (b + y)[|a|..] == y;
  }

  /** The list ends with `last`, which occurs nowhere else in it. */
  predicate EndsOnceWith(ts: seq<Text>, last: Text) {
    ts != [] && ts[|ts| - 1] == last && last !in ts[..|ts| - 1]
  }

  /** A list of fields that closes with a sentinel field needs no terminator to be read back. */
  lemma {:induction false} SentinelListSplits(a: seq<Text>, x: seq<Byte>, b: seq<Text>, y: seq<Byte>, last: Text)
    requires EndsOnceWith(a, last) && EndsOnceWith(b, last)
    requires Fields(a) + x == Fields(b) + y
    ensures a == b && x == y
  {
    FirstFieldSplits(a, x, b, y);
    HeadIsLast(a, last);
    HeadIsLast(b, last);
    if a[0] == last {
      assert Fields([]) + x == x && Fields([]) + y == y;
    } else {
      SentinelListSplits(a[1..], x, b[1..], y, last);
    }
    assert a == [a[0]] + a[1..] && b == [b[0]] + b[1..];
  }

  lemma FirstFieldSplits(a: seq<Text>, x: seq<Byte>, b: seq<Text>, y: seq<Byte>)
    requires a != [] && b != [] && Fields(a) + x == Fields(b) + y
    ensures a[0] == b[0] && Fields(a[1..]) + x == Fields(b[1..]) + y
  {
    AppendAssociative(Field(a[0]), Fields(a[1..]), x);
    AppendAssociative(Field(b[0]), Fields(b[1..]), y);
    FieldSplits(a[0], Fields(a[1..]) + x, b[0], Fields(b[1..]) + y);
  }

  lemma HeadIsLast(a: seq<Text>, last: Text)
    requires EndsOnceWith(a, last)
    ensures a[0] == last <==> a[1..] == []
    ensures a[0] != last ==> EndsOnceWith(a[1..], last)
  {
    var init := a[..|a| - 1];
    if |a| > 1 {
      assert init[0] == a[0];
      assert a[1..][..|a| - 2] == init[1..];
    }
  }

  // ---------------------------------------------------------------------------
  // Resolution conditions
  // ---------------------------------------------------------------------------

  const WJSM: Text := Ascii("wjsm")
  const BROWSER: Text := Ascii("browser")
  const NODE: Text := Ascii("node")
  const IMPORT: Text := Ascii("import")
  const REQUIRE: Text := Ascii("require")
  const DEFAULT: Text := Ascii("default")

  predicate IsReserved(c: Text) {
    c == WJSM || c == BROWSER || c == NODE || c == IMPORT || c == REQUIRE || c == DEFAULT
  }

  function PushUnique(conditions: seq<Text>, c: Text): (r: seq<Text>) {
    if c in conditions then conditions else conditions + [c]
  }

  /** The conditions every list opens with. */
  function Opening(browser: bool): (r: seq<Text>) {
    if browser then [WJSM, BROWSER] else [WJSM]
  }

  /** Where a condition first occurs. */
  function FirstIndex(custom: seq<Text>, c: Text): (i: nat)
    requires c in custom
    ensures i < |custom| && custom[i] == c && c !in custom[..i]
  {
    if custom[0] == c then 0
    else
      assert custom == [custom[0]] + custom[1..];
      var i := FirstIndex(custom[1..], c);
      assert custom[..1 + i] == [custom[0]] + custom[1..][..i];
      1 + i
  }

  /** `kept` is what is left of the custom conditions: those that are not reserved, each once, in the
      order of their first occurrence. */
  ghost predicate KeepsCustom(kept: seq<Text>, custom: seq<Text>) {
    && NoDuplicates(kept)
    && (forall c :: c in kept <==> c in custom && !IsReserved(c))
    && (forall i, j :: 0 <= i < j < |kept| && kept[i] in custom && kept[j] in custom ==>
          FirstIndex(custom, kept[i]) < FirstIndex(custom, kept[j]))
  }

  /** The list for one edge kind: the opening, the custom conditions, `node`, the kind and `default`,
      no condition twice. */
  ghost predicate IsConditionList(conditions: seq<Text>, browser: bool, custom: seq<Text>, kind: Text) {
    && NoDuplicates(conditions)
    && exists kept :: KeepsCustom(kept, custom)
         && conditions == Opening(browser) + kept + [NODE, kind, DEFAULT]
  }

  lemma KeptIsUnique(a: seq<Text>, b: seq<Text>, custom: seq<Text>)
    requires KeepsCustom(a, custom) && KeepsCustom(b, custom)
    ensures a == b
  {
    var before := (c: Text, d: Text) => c in custom && d in custom && FirstIndex(custom, c) < FirstIndex(custom, d);
    forall c ensures c in Elements(a) <==> c in Elements(b) {
      assert c in a <==> c in b;
    }
    forall c, d | c in Elements(a) && d in Elements(a) ensures c == d || before(c, d) || before(d, c) {
      assert c in custom && d in custom;
    }
    SortedUnique(before, a, b);
  }

  /** What a condition list has to be leaves no choice. */
  lemma ConditionListIsUnique(a: seq<Text>, b: seq<Text>, browser: bool, custom: seq<Text>, kind: Text)
    requires IsConditionList(a, browser, custom, kind) && IsConditionList(b, browser, custom, kind)
    ensures a == b
  {
    var x :| KeepsCustom(x, custom) && a == Opening(browser) + x + [NODE, kind, DEFAULT];
    var y :| KeepsCustom(y, custom) && b == Opening(browser) + y + [NODE, kind, DEFAULT];
    KeptIsUnique(x, y, custom);
  }

  function Kept(custom: seq<Text>): (r: seq<Text>)
    ensures forall c :: c in r <==> c in custom && !IsReserved(c)
    decreases |custom|
  {
    if custom == [] then []
    else
      var init, c := custom[..|custom| - 1], custom[|custom| - 1];
      assert custom == init + [c];
      if IsReserved(c) then Kept(init) else PushUnique(Kept(init), c)
  }

  lemma {:induction false} KeptKeeps(custom: seq<Text>)
    ensures KeepsCustom(Kept(custom), custom)
    decreases |custom|
  {
    if custom != [] {
      var init, c := custom[..|custom| - 1], custom[|custom| - 1];
      KeptKeeps(init);
      assert custom == init + [c];
      KeptGrows(Kept(init), init, c);
    }
  }

  lemma KeptGrows(kept: seq<Text>, init: seq<Text>, c: Text)
    requires KeepsCustom(kept, init)
    ensures KeepsCustom(if IsReserved(c) then kept else PushUnique(kept, c), init + [c])
  {
    IndexesStay(init, c);
  }

  lemma IndexesStay(init: seq<Text>, c: Text)
    ensures forall d :: d in init ==> FirstIndex(init + [c], d) == FirstIndex(init, d)
    ensures c !in init ==> FirstIndex(init + [c], c) == |init|
  {
    var custom := init + [c];
    forall d | d in init ensures FirstIndex(custom, d) == FirstIndex(init, d) {
      var i := FirstIndex(init, d);
      assert custom[..i] == init[..i];
      FirstIndexIsFirst(custom, d, i);
    }
    if c !in init {
      assert custom[..|init|] == init;
      FirstIndexIsFirst(custom, c, |init|);
    }
  }

  lemma FirstIndexIsFirst(custom: seq<Text>, c: Text, i: nat)
    requires i < |custom| && custom[i] == c && c !in custom[..i]
    ensures FirstIndex(custom, c) == i
  {
    var j := FirstIndex(custom, c);
    assert forall k :: 0 <= k < i ==> custom[k] == custom[..i][k];
    assert forall k :: 0 <= k < j ==> custom[k] == custom[..j][k];
  }

  /** The condition list for one edge kind. */
  function Conditions(browser: bool, custom: seq<Text>, kind: Text): (r: seq<Text>) {
    Opening(browser) + Kept(custom) + [NODE, kind, DEFAULT]
  }

  predicate IsKind(kind: Text) { kind == IMPORT || kind == REQUIRE }

  lemma BuiltInsDiffer(kind: Text)
    requires IsKind(kind)
    ensures WJSM != BROWSER && NODE != WJSM && NODE != BROWSER
    ensures kind != WJSM && kind != BROWSER && kind != NODE
    ensures DEFAULT != WJSM && DEFAULT != BROWSER && DEFAULT != NODE && DEFAULT != kind
  {
    assert |WJSM| == 4 && |NODE| == 4 && |IMPORT| == 6 && |BROWSER| == |REQUIRE| == |DEFAULT| == 7;
    assert WJSM[0] == 119 && NODE[0] == 110 && BROWSER[0] == 98 && REQUIRE[0] == 114 && DEFAULT[0] == 100;
  }

  lemma ConditionsAreRight(browser: bool, custom: seq<Text>, kind: Text)
    requires IsKind(kind)
    ensures IsConditionList(Conditions(browser, custom, kind), browser, custom, kind)
  {
    BuiltInsDiffer(kind);
    KeptKeeps(custom);
    NoneTwice(Opening(browser), Kept(custom), [NODE, kind, DEFAULT]);
  }

  lemma NoneTwice(a: seq<Text>, kept: seq<Text>, b: seq<Text>)
    requires NoDuplicates(a) && NoDuplicates(kept) && NoDuplicates(b)
    requires forall c :: c in a || c in b ==> IsReserved(c)
    requires forall c :: c in kept ==> !IsReserved(c)
    requires forall c :: c in a ==> c !in b
    ensures NoDuplicates(a + kept + b)
  {
    var all := a + kept + b;
    forall i, j | 0 <= i < j < |all| ensures all[i] != all[j] {
      assert all[i] in a || all[i] in kept || all[i] in b;
      assert all[j] in a || all[j] in kept || all[j] in b;
    }
  }

  lemma PushBehindOpening(browser: bool, kept: seq<Text>, c: Text)
    requires !IsReserved(c)
    ensures PushUnique(Opening(browser) + kept, c) == Opening(browser) + PushUnique(kept, c)
  {
  }

  lemma PushClosing(browser: bool, kept: seq<Text>, kind: Text)
    requires IsKind(kind) && forall c :: c in kept ==> !IsReserved(c)
    ensures PushUnique(PushUnique(PushUnique(Opening(browser) + kept, NODE), kind), DEFAULT)
         == Opening(browser) + kept + [NODE, kind, DEFAULT]
  {
    BuiltInsDiffer(kind);
    var all := Opening(browser) + kept;
    assert NODE !in all && kind !in all && DEFAULT !in all;
    assert PushUnique(all, NODE) == all + [NODE];
    assert PushUnique(all + [NODE], kind) == all + [NODE, kind];
    assert PushUnique(all + [NODE, kind], DEFAULT) == all + [NODE, kind, DEFAULT];
  }

  /** The texts a custom condition cannot be. */
  predicate SpellsBuiltIn(c: Text) {
    || Spells(c, "wjsm") || Spells(c, "browser") || Spells(c, "node")
    || Spells(c, "import") || Spells(c, "require") || Spells(c, "default")
  }

  lemma ReservedAreSpelled(c: Text)
    ensures IsReserved(c) <==> SpellsBuiltIn(c)
  {
  }

  lemma BrowserIsSpelled(c: Text)
    ensures Spells(c, "browser") <==> c == BROWSER
  {
  }

  /** A condition list, text by text: `wjsm`, for browsers `browser`, the custom conditions that are none
      of the six built-in texts, `node`, the kind and `default`. */
  lemma ConditionsAreSpelled(conditions: seq<Text>, browser: bool, custom: seq<Text>, kind: Text)
    requires IsKind(kind) && IsConditionList(conditions, browser, custom, kind)
    ensures var n := |conditions|;
      && n >= (if browser then 5 else 4)
      && Spells(conditions[0], "wjsm")
      && (browser ==> Spells(conditions[1], "browser"))
      && (!browser ==> forall c :: c in conditions ==> !Spells(c, "browser"))
      && Spells(conditions[n - 3], "node") && conditions[n - 2] == kind && Spells(conditions[n - 1], "default")
      && forall c :: c in conditions[if browser then 2 else 1..n - 3] <==> c in custom && !SpellsBuiltIn(c)
  {
    BuiltInsDiffer(kind);
    var kept :| KeepsCustom(kept, custom) && conditions == Opening(browser) + kept + [NODE, kind, DEFAULT];
    assert conditions[if browser then 2 else 1..|conditions| - 3] == kept;
    forall c ensures c in kept <==> c in custom && !SpellsBuiltIn(c) {
      ReservedAreSpelled(c);
    }
    if !browser {
      forall c | c in conditions ensures !Spells(c, "browser") {
        BrowserIsSpelled(c);
        assert c == WJSM || c in kept || c == NODE || c == kind || c == DEFAULT;
      }
    }
  }

  /** `build_conditions`: pushes the built-in and custom conditions in order, unless they are there. */
  method BuildConditions(browser: bool, custom: seq<Text>, kind: Text) returns (conditions: seq<Text>)
    requires IsKind(kind)
    ensures IsConditionList(conditions, browser, custom, kind)
    ensures conditions == Conditions(browser, custom, kind)
    ensures var n := |conditions|;
      && n >= (if browser then 5 else 4)
      && Spells(conditions[0], "wjsm")
      && (browser ==> Spells(conditions[1], "browser"))
      && (!browser ==> forall c :: c in conditions ==> !Spells(c, "browser"))
      && Spells(conditions[n - 3], "node") && conditions[n - 2] == kind && Spells(conditions[n - 1], "default")
      && forall c :: c in conditions[if browser then 2 else 1..n - 3] <==> c in custom && !SpellsBuiltIn(c)
  {
    BuiltInsDiffer(kind);
    conditions := PushUnique([], WJSM);
    if browser {
      conditions := PushUnique(conditions, BROWSER);
    }
    assert conditions == Opening(browser) + [];
    for i := 0 to |custom|
      invariant conditions == Opening(browser) + Kept(custom[..i])
    {
      assert custom[..i + 1][..i] == custom[..i];
      if !IsReserved(custom[i]) {
        PushBehindOpening(browser, Kept(custom[..i]), custom[i]);
        conditions := PushUnique(conditions, custom[i]);
      }
    }
    assert custom[..|custom|] == custom;
    PushClosing(browser, Kept(custom), kind);
    conditions := PushUnique(conditions, NODE);
    conditions := PushUnique(conditions, kind);
    conditions := PushUnique(conditions, DEFAULT);
    ConditionsAreRight(browser, custom, kind);
    ConditionsAreSpelled(conditions, browser, custom, kind);
  }

  /** Custom conditions cannot be `default`, so a condition list ends with its only `default`. */
  lemma DefaultClosesConditions(browser: bool, custom: seq<Text>, kind: Text)
    requires IsKind(kind)
    ensures EndsOnceWith(Conditions(browser, custom, kind), DEFAULT)
  {
    ConditionsAreRight(browser, custom, kind);
    var all := Conditions(browser, custom, kind);
    var init := all[..|all| - 1];
    assert forall i :: 0 <= i < |init| ==> init[i] == all[i] != all[|all| - 1];
  }

  // ---------------------------------------------------------------------------
  // Requests
  // ---------------------------------------------------------------------------

  datatype Options = Options(browser: bool, custom: seq<Text>) {
    function Imports(): (r: seq<Text>) { Conditions(browser, custom, IMPORT) }
    function Requires(): (r: seq<Text>) { Conditions(browser, custom, REQUIRE) }

    /** The resolver reads the flag and the two condition lists, nothing else. */
    predicate SameResolution(other: Options) {
      browser == other.browser && Imports() == other.Imports() && Requires() == other.Requires()
    }
  }

  /** The two lists differ in the kind alone. */
  lemma ListsDifferInKind(o: Options)
    ensures var imports, required, n := o.Imports(), o.Requires(), |o.Imports()|;
      && n == |required| && n >= 4
      && Spells(imports[n - 2], "import") && Spells(required[n - 2], "require")
      && imports == required[n - 2 := imports[n - 2]]
  {
    ConditionsAreRight(o.browser, o.custom, IMPORT);
    ConditionsAreRight(o.browser, o.custom, REQUIRE);
    ConditionsAreSpelled(o.Imports(), o.browser, o.custom, IMPORT);
    ConditionsAreSpelled(o.Requires(), o.browser, o.custom, REQUIRE);
  }

  /** A cache request and the environment switch that changes lowering. */
  datatype Request = Request(
    entry: Text, explicitRoot: Option<Text>, logicalRoot: Option<Text>,
    options: Options, salt: Text, licmDisabled: bool)

  function FlagByte(b: bool): (r: Byte) { if b then 1 else 0 }

  const OPTIONS_TAG: seq<Byte> := Ascii("wjsm-artifact-options-v1") + [NUL]
  const INDEX_TAG: seq<Byte> := Ascii("wjsm-artifact-index-v1") + [NUL]
  const CONTENT_TAG: seq<Byte> := Ascii("wjsm-artifact-content-v1") + [NUL]

  function OptionsPreimage(r: Request): (result: seq<Byte>) {
    OPTIONS_TAG + (Field(r.salt) + ([FlagByte(r.options.browser)]
      + (Fields(r.options.Imports()) + ([255] + (Fields(r.options.Requires()) + [FlagByte(r.licmDisabled)])))))
  }

  lemma SplitOptions(r: Request, s: Request)
    requires OptionsPreimage(r) == OptionsPreimage(s)
    ensures r.salt == s.salt && r.options.SameResolution(s.options) && r.licmDisabled == s.licmDisabled
  {
    var end1, end2 := [FlagByte(r.licmDisabled)], [FlagByte(s.licmDisabled)];
    var require1, require2 := Fields(r.options.Requires()) + end1, Fields(s.options.Requires()) + end2;
    var import1, import2 := Fields(r.options.Imports()) + ([255] + require1),
                            Fields(s.options.Imports()) + ([255] + require2);
    var flag1, flag2 := [FlagByte(r.options.browser)] + import1, [FlagByte(s.options.browser)] + import2;
    FixedSplits(OPTIONS_TAG, Field(r.salt) + flag1, OPTIONS_TAG, Field(s.salt) + flag2);
    FieldSplits(r.salt, flag1, s.salt, flag2);
    FixedSplits([FlagByte(r.options.browser)], import1, [FlagByte(s.options.browser)], import2);
    assert [FlagByte(r.options.browser)][0] == [FlagByte(s.options.browser)][0];
    DefaultClosesConditions(r.options.browser, r.options.custom, IMPORT);
    DefaultClosesConditions(s.options.browser, s.options.custom, IMPORT);
    SentinelListSplits(r.options.Imports(), [255] + require1, s.options.Imports(), [255] + require2, DEFAULT);
    FixedSplits([255], require1, [255], require2);
    DefaultClosesConditions(r.options.browser, r.options.custom, REQUIRE);
    DefaultClosesConditions(s.options.browser, s.options.custom, REQUIRE);
    SentinelListSplits(r.options.Requires(), end1, s.options.Requires(), end2, DEFAULT);
    assert end1[0] == end2[0];
  }

  /** The options fingerprint determines the salt, what the resolver reads and the switch. The 0xff
      between the two lists may also be the low byte of a length; the closing `default` tells. */
  lemma OptionsPreimageInjective(r: Request, s: Request)
    ensures OptionsPreimage(r) == OptionsPreimage(s)
       <==> r.salt == s.salt && r.options.SameResolution(s.options) && r.licmDisabled == s.licmDisabled
  {
    if OptionsPreimage(r) == OptionsPreimage(s) {
      SplitOptions(r, s);
    }
  }

  function PathField(p: Option<Text>): (r: seq<Byte>) {
    match p case Some(t) => [1] + Field(t) case None => [0]
  }

  lemma PathFieldSplits(p: Option<Text>, x: seq<Byte>, q: Option<Text>, y: seq<Byte>)
    requires PathField(p) + x == PathField(q) + y
    ensures p == q && x == y
  {
    var s := PathField(p) + x;
    assert s[0] == PathField(p)[0] && s[0] == PathField(q)[0];
    if p.Some? {
      AppendAssociative([1], Field(p.value), x);
      AppendAssociative([1], Field(q.value), y);
      FixedSplits([1], Field(p.value) + x, [1], Field(q.value) + y);
      FieldSplits(p.value, x, q.value, y);
    } else {
      FixedSplits([0], x, [0], y);
    }
  }

  function IndexPreimage(abi: Digest, options: Digest, r: Request): (result: seq<Byte>) {
    INDEX_TAG + (abi + (options + (PathField(Some(r.entry)) + (PathField(r.explicitRoot) + PathField(r.logicalRoot)))))
  }

  /** The index key determines the semantic ABI, the options fingerprint and the entry's identity. */
  lemma IndexPreimageInjective(a: Digest, o: Digest, r: Request, b: Digest, q: Digest, s: Request)
    requires IndexPreimage(a, o, r) == IndexPreimage(b, q, s)
    ensures a == b && o == q && r.entry == s.entry
    ensures r.explicitRoot == s.explicitRoot && r.logicalRoot == s.logicalRoot
  {
    var last1, last2 := PathField(r.logicalRoot), PathField(s.logicalRoot);
    var roots1, roots2 := PathField(r.explicitRoot) + last1, PathField(s.explicitRoot) + last2;
    var paths1, paths2 := PathField(Some(r.entry)) + roots1, PathField(Some(s.entry)) + roots2;
    FixedSplits(INDEX_TAG, a + (o + paths1), INDEX_TAG, b + (q + paths2));
    FixedSplits(a, o + paths1, b, q + paths2);
    FixedSplits(o, paths1, q, paths2);
    PathFieldSplits(Some(r.entry), roots1, Some(s.entry), roots2);
    PathFieldSplits(r.explicitRoot, last1, s.explicitRoot, last2);
    assert last1 + [] == last1 && last2 + [] == last2;
    PathFieldSplits(r.logicalRoot, [], s.logicalRoot, []);
  }

  // ---------------------------------------------------------------------------
  // Facts
  // ---------------------------------------------------------------------------

  /** One observation of the file system, as recorded with a compilation. */
  datatype Fact =
    | IsFileFact(path: Text, value: bool)
    | IsDirFact(path: Text, value: bool)
    | CanonicalFact(path: Text, target: Text)
    | ContentFact(path: Text, digest: Digest)

  function EncodeFact(f: Fact): (r: seq<Byte>) {
    match f
    case IsFileFact(path, value) => [0, FlagByte(value)] + Field(path)
    case IsDirFact(path, value) => [1, FlagByte(value)] + Field(path)
    case CanonicalFact(path, target) => [2] + (Field(path) + Field(target))
    case ContentFact(path, digest) => [3] + (Field(path) + digest)
  }

  function EncodeFacts(fs: seq<Fact>): (r: seq<Byte>) {
    if fs == [] then [] else EncodeFact(fs[0]) + EncodeFacts(fs[1..])
  }

  lemma TwoFieldsSplit(t: Text, u: seq<Byte>, x: seq<Byte>, v: Text, w: seq<Byte>, y: seq<Byte>, tag: Byte)
    requires ([tag] + (Field(t) + u)) + x == ([tag] + (Field(v) + w)) + y
    ensures t == v && u + x == w + y
  {
    AppendAssociative([tag], Field(t) + u, x);
    AppendAssociative([tag], Field(v) + w, y);
    FixedSplits([tag], (Field(t) + u) + x, [tag], (Field(v) + w) + y);
    AppendAssociative(Field(t), u, x);
    AppendAssociative(Field(v), w, y);
    FieldSplits(t, u + x, v, w + y);
  }

  lemma FactSplits(f: Fact, x: seq<Byte>, g: Fact, y: seq<Byte>)
    requires EncodeFact(f) + x == EncodeFact(g) + y
    ensures f == g && x == y
  {
    var s := EncodeFact(f) + x;
    assert s[0] == EncodeFact(f)[0] && s[0] == EncodeFact(g)[0];
    match f {
      case IsFileFact(path, value) =>
        ProbeFactSplits([0, FlagByte(value)], path, x, [0, FlagByte(g.value)], g.path, y);
      case IsDirFact(path, value) =>
        ProbeFactSplits([1, FlagByte(value)], path, x, [1, FlagByte(g.value)], g.path, y);
      case CanonicalFact(path, target) =>
        TwoFieldsSplit(path, Field(target), x, g.path, Field(g.target), y, 2);
        FieldSplits(target, x, g.target, y);
      case ContentFact(path, digest) =>
        TwoFieldsSplit(path, digest, x, g.path, g.digest, y, 3);
        FixedSplits(digest, x, g.digest, y);
    }
  }

  lemma ProbeFactSplits(h: seq<Byte>, t: Text, x: seq<Byte>, k: seq<Byte>, u: Text, y: seq<Byte>)
    requires |h| == |k| == 2 && (h + Field(t)) + x == (k + Field(u)) + y
    ensures h[1] == k[1] && t == u && x == y
  {
    AppendAssociative(h, Field(t), x);
    AppendAssociative(k, Field(u), y);
    FixedSplits(h, Field(t) + x, k, Field(u) + y);
    FieldSplits(t, x, u, y);
  }

  lemma {:induction false} FactsInjective(a: seq<Fact>, b: seq<Fact>)
    requires EncodeFacts(a) == EncodeFacts(b)
    ensures a == b
  {
    if a != [] && b != [] {
      FactSplits(a[0], EncodeFacts(a[1..]), b[0], EncodeFacts(b[1..]));
      FactsInjective(a[1..], b[1..]);
      assert a == [a[0]] + a[1..] && b == [b[0]] + b[1..];
    }
  }

  function ContentPreimage(abi: Digest, options: Digest, facts: seq<Fact>): (r: seq<Byte>) {
    CONTENT_TAG + (abi + (options + EncodeFacts(facts)))
  }

  /** The content key determines the semantic ABI, the options fingerprint and every fact. */
  lemma ContentPreimageInjective(a: Digest, o: Digest, f: seq<Fact>, b: Digest, q: Digest, g: seq<Fact>)
    requires ContentPreimage(a, o, f) == ContentPreimage(b, q, g)
    ensures a == b && o == q && f == g
  {
    FixedSplits(CONTENT_TAG, a + (o + EncodeFacts(f)), CONTENT_TAG, b + (q + EncodeFacts(g)));
    FixedSplits(a, o + EncodeFacts(f), b, q + EncodeFacts(g));
    FixedSplits(o, EncodeFacts(f), q, EncodeFacts(g));
    FactsInjective(f, g);
  }

  /** Each kind of string opens with its own text, closed by NUL, so none is ever one of another kind. */
  lemma PreimagesKeepApart(r: Request, abi: Digest, o: Digest, s: Request, a: Digest, q: Digest, facts: seq<Fact>)
    ensures OpensWith(OptionsPreimage(r), "wjsm-artifact-options-v1")
    ensures OpensWith(IndexPreimage(abi, o, s), "wjsm-artifact-index-v1")
    ensures OpensWith(ContentPreimage(a, q, facts), "wjsm-artifact-content-v1")
    ensures OptionsPreimage(r) != IndexPreimage(abi, o, s)
    ensures OptionsPreimage(r) != ContentPreimage(a, q, facts)
    ensures IndexPreimage(abi, o, s) != ContentPreimage(a, q, facts)
  {
    var x, y, z := OptionsPreimage(r), IndexPreimage(abi, o, s), ContentPreimage(a, q, facts);
    var options, index, content := "wjsm-artifact-options-v1", "wjsm-artifact-index-v1", "wjsm-artifact-content-v1";
    TagOpens(x, OPTIONS_TAG, options);
    TagOpens(y, INDEX_TAG, index);
    TagOpens(z, CONTENT_TAG, content);
    TextsKeepApart(x, y, options, index, 14);
    TextsKeepApart(x, z, options, content, 14);
    TextsKeepApart(y, z, index, content, 14);
  }

  lemma TagOpens(s: seq<Byte>, tag: seq<Byte>, text: string)
    requires tag <= s && OpensWith(tag, text)
    ensures OpensWith(s, text)
  {
    assert s == tag + s[|tag|..];
    TextOpens(tag, text, s[|tag|..]);
  }
}
