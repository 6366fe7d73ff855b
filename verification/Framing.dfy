/** The two record framings the fingerprint scripts feed to the hasher. */
module Framing {
  import opened Wrappers
  import opened Bytes
  import opened Paths

  datatype Record = Record(name: seq<Byte>, contents: Contents)

  predicate NulFree(r: Record) { NUL !in r.name }

  // ---------------------------------------------------------------------------
  // Terminated framing: name, NUL, length, contents
  // ---------------------------------------------------------------------------

  function EncodeTerminated(r: Record): (result: seq<Byte>) {
    r.name + [NUL] + Le64(|r.contents|) + r.contents
  }

  function Terminated(rs: seq<Record>): (r: seq<Byte>) {
    if rs == [] then [] else EncodeTerminated(rs[0]) + Terminated(rs[1..])
  }

  function FirstNul(s: seq<Byte>): (k: nat)
    ensures k <= |s| && NUL !in s[..k]
    ensures k < |s| ==> s[k] == NUL
  {
    if s == [] || s[0] == NUL then 0
    else
      assert s[..1 + FirstNul(s[1..])] == [s[0]] + s[1..][..FirstNul(s[1..])];
      1 + FirstNul(s[1..])
  }

  /** Reads one record off the front: up to the first NUL, eight length bytes, that many bytes. */
  function ParseRecord(s: seq<Byte>): (r: Option<(Record, seq<Byte>)>)
    ensures r.Some? ==> |r.value.1| < |s|
  {
    var k := FirstNul(s);
    if |s| < k + 9 then None
    else
      var n := FromLittleEndian(s[k + 1..k + 9]);
      if |s| < k + 9 + n then None
      else
        FromLittleEndianRoundTrip(s[k + 1..k + 9]);
        EightBytesHoldU64();
        Some((Record(s[..k], s[k + 9..k + 9 + n]), s[k + 9 + n..]))
  }

  function ParseTerminated(s: seq<Byte>): (r: Option<seq<Record>>)
    decreases |s|
  {
    if s == [] then Some([])
    else match ParseRecord(s)
      case None => None
      case Some((record, rest)) =>
        match ParseTerminated(rest)
        case None => None
        case Some(records) => Some([record] + records)
  }

  lemma ParseRecordOfEncoding(r: Record, rest: seq<Byte>)
    requires NulFree(r)
    ensures ParseRecord(EncodeTerminated(r) + rest) == Some((r, rest))
  {
    var s := EncodeTerminated(r) + rest;
    var k, n := |r.name|, |r.contents|;
    assert s[k] == NUL;
    assert s[..k] == r.name;
    var f := FirstNul(s);
    assert forall i :: 0 <= i < f ==> s[..f][i] == s[i];
    assert forall i :: 0 <= i < k ==> s[i] == r.name[i];
    assert f == k;
    assert s[k + 1..k + 9] == Le64(n);
    EightBytesHoldU64();
    LittleEndianRoundTrip(n, 8);
    assert s[k + 9..k + 9 + n] == r.contents;
    assert s[k + 9 + n..] == rest;
  }

  lemma EncodingOfParsedRecord(s: seq<Byte>)
    requires ParseRecord(s).Some?
    ensures NulFree(ParseRecord(s).value.0)
    ensures s == EncodeTerminated(ParseRecord(s).value.0) + ParseRecord(s).value.1
  {
    var k := FirstNul(s);
    var n := FromLittleEndian(s[k + 1..k + 9]);
    FromLittleEndianRoundTrip(s[k + 1..k + 9]);
    assert s == s[..k] + [NUL] + s[k + 1..k + 9] + s[k + 9..k + 9 + n] + s[k + 9 + n..];
  }

  /** The parser inverts the framing on every list of records with NUL-free names... */
  lemma {:induction false} ParseInvertsTerminated(rs: seq<Record>)
    requires forall r :: r in rs ==> NulFree(r)
    ensures ParseTerminated(Terminated(rs)) == Some(rs)
  {
    if rs != [] {
      ParseRecordOfEncoding(rs[0], Terminated(rs[1..]));
      ParseInvertsTerminated(rs[1..]);
      assert rs == [rs[0]] + rs[1..];
    }
  }

  /** ...and accepts nothing but such framings. */
  lemma {:induction false} TerminatedInvertsParse(s: seq<Byte>)
    requires ParseTerminated(s).Some?
    ensures Terminated(ParseTerminated(s).value) == s
    ensures forall r :: r in ParseTerminated(s).value ==> NulFree(r)
    decreases |s|
  {
    if s != [] {
      EncodingOfParsedRecord(s);
      var (record, rest) := ParseRecord(s).value;
      TerminatedInvertsParse(rest);
      assert ParseTerminated(s).value[1..] == ParseTerminated(rest).value;
    }
  }

  lemma {:induction false} TerminatedConcat(a: seq<Record>, b: seq<Record>)
    ensures Terminated(a + b) == Terminated(a) + Terminated(b)
  {
    if a == [] {
      assert a + b == b;
    } else {
      TerminatedConcat(a[1..], b);
      assert (a + b)[1..] == a[1..] + b;
      AppendAssociative(EncodeTerminated(a[0]), Terminated(a[1..]), Terminated(b));
    }
  }

  // ---------------------------------------------------------------------------
  // Unterminated framing: name, length, contents
  // ---------------------------------------------------------------------------

  function EncodeUnterminated(r: Record): (result: seq<Byte>) {
    r.name + Le64(|r.contents|) + r.contents
  }

  function Unterminated(rs: seq<Record>): (r: seq<Byte>) {
    if rs == [] then [] else EncodeUnterminated(rs[0]) + Unterminated(rs[1..])
  }

  lemma {:induction false} UnterminatedConcat(a: seq<Record>, b: seq<Record>)
    ensures Unterminated(a + b) == Unterminated(a) + Unterminated(b)
  {
    if a == [] {
      assert a + b == b;
    } else {
      UnterminatedConcat(a[1..], b);
      assert (a + b)[1..] == a[1..] + b;
      AppendAssociative(EncodeUnterminated(a[0]), Unterminated(a[1..]), Unterminated(b));
    }
  }

  const DOT_JS: seq<Byte> := [46, 106, 115]
  const DOT_RS: seq<Byte> := [46, 114, 115]
  const DOT_TOML: seq<Byte> := [46, 116, 111, 109, 108]
  const CARGO_LOCK: Name := [67, 97, 114, 103, 111, 46, 108, 111, 99, 107]

  /** Which extensions a script accepts: js, rs and toml, or rs and toml only. */
  datatype Filter = JsRsToml | RsToml {
    predicate AcceptsExtension(e: seq<Byte>) {
      [DOT] + e == DOT_RS || [DOT] + e == DOT_TOML || (JsRsToml? && [DOT] + e == DOT_JS)
    }

    predicate NameOk(name: seq<Byte>) {
      || EndsWith(name, DOT_RS) || EndsWith(name, DOT_TOML) || name == CARGO_LOCK
      || (JsRsToml? && EndsWith(name, DOT_JS))
    }

    /** The least length whose little-endian bytes open with an accepted three-byte suffix. */
    function Limit(): (n: nat)
      ensures n < 0x100_0000
    {
      match this
      case JsRsToml => 0x73_6a_2e
      case RsToml => 0x73_72_2e
    }

    predicate RecordOk(r: Record) {
      NameOk(r.name) && NulFree(r) && |r.contents| < Limit()
    }
  }

  /** What the accepted suffixes say of a name's last five bytes: .rs or .js, ...toml or ...lock. */
  predicate EndsAccepted(f: Filter, q: seq<Byte>) {
    var k := |q|;
    && k >= 3 && q[k - 1] in {115, 108, 107} && q[k - 2] in {106, 114, 109, 99}
    && (q[k - 3] == 111 || (q[k - 3] == 46 && q[k - 1] == 115 && q[k - 2] in {106, 114}))
    && (q[k - 3] == 46 && f.RsToml? ==> q[k - 2] == 114)
    && (q[k - 3] == 111 ==> k >= 5 && (q[k - 4] == 116 || (q[k - 4] == 108 && q[k - 5] == 46)))
  }

  lemma AcceptedEnding(f: Filter, q: seq<Byte>)
    requires f.NameOk(q)
    ensures EndsAccepted(f, q)
  {
    var k := |q|;
    if EndsWith(q, DOT_RS) {
      EndsWithAt(q, DOT_RS);
    } else if EndsWith(q, DOT_TOML) {
      EndsWithAt(q, DOT_TOML);
    } else if f.JsRsToml? && EndsWith(q, DOT_JS) {
      EndsWithAt(q, DOT_JS);
    }
  }

  /** An accepted ending continued by up to three bytes is accepted again only by a whole suffix. */
  lemma ShortCutIsSuffix(f: Filter, p: seq<Byte>, x: seq<Byte>, q: seq<Byte>)
    requires EndsAccepted(f, p) && EndsAccepted(f, q)
    requires 1 <= |x| <= 3 && |q| == |p| + |x|
    requires forall i :: 0 <= i < |p| ==> q[i] == p[i]
    requires forall i :: 0 <= i < |x| ==> q[|p| + i] == x[i]
    ensures |x| == 3 && x[0] == 46 && x[1] in {106, 114} && x[2] == 115
    ensures f.RsToml? ==> x[1] == 114
  {
  }

  /** Continuing an accepted name into another accepted one by bytes of a length field takes a length
      of at least the limit. */
  lemma NameCutTakesLimit(f: Filter, p: seq<Byte>, x: seq<Byte>, n: nat)
    requires f.NameOk(p) && f.NameOk(p + x) && NUL !in x
    requires x != [] && forall i :: 0 <= i < |x| && i < 8 ==> x[i] == Le64(n)[i]
    ensures f.Limit() <= n
  {
    if n < 0x100_0000 {
      Le64Small(n);
      assert |x| <= 3;
      AcceptedEnding(f, p);
      AcceptedEnding(f, p + x);
      ShortCutIsSuffix(f, p, x, p + x);
    }
  }

  /** The unterminated framing is uniquely decodable below the filter's limit. */
  lemma {:induction false} UnterminatedInjective(f: Filter, a: seq<Record>, b: seq<Record>)
    requires forall r :: r in a ==> f.RecordOk(r)
    requires forall r :: r in b ==> f.RecordOk(r)
    requires Unterminated(a) == Unterminated(b)
    ensures a == b
    decreases |a| + |b|, a != [] && b != [] && |b[0].name| < |a[0].name|
  {
    if a != [] && b != [] {
      if |b[0].name| < |a[0].name| {
        UnterminatedInjective(f, b, a);
      } else {
        SameFirstRecord(f, a[0], Unterminated(a[1..]), b[0], Unterminated(b[1..]));
        UnterminatedInjective(f, a[1..], b[1..]);
        assert a == [a[0]] + a[1..] && b == [b[0]] + b[1..];
      }
    }
  }

  lemma UnterminatedParts(r: Record, rest: seq<Byte>, whole: seq<Byte>)
    requires whole == EncodeUnterminated(r) + rest
    ensures var k, n := |r.name|, |r.contents|;
      && |whole| >= k + 8 + n
      && whole[..k] == r.name && whole[k..k + 8] == Le64(n)
      && whole[k + 8..k + 8 + n] == r.contents && whole[k + 8 + n..] == rest
  {
  }

  lemma SameFirstName(f: Filter, a: Record, s: seq<Byte>, b: Record, t: seq<Byte>)
    requires f.RecordOk(a) && f.RecordOk(b) && |a.name| <= |b.name|
    requires EncodeUnterminated(a) + s == EncodeUnterminated(b) + t
    ensures a.name == b.name
  {
    var whole := EncodeUnterminated(a) + s;
    var k, n := |a.name|, |a.contents|;
    UnterminatedParts(a, s, whole);
    UnterminatedParts(b, t, whole);
    var x := whole[k..|b.name|];
    assert b.name == a.name + x;
    forall i | 0 <= i < |x| && i < 8 ensures x[i] == Le64(n)[i] {
      assert x[i] == whole[k + i] == whole[k..k + 8][i];
    }
    if x != [] { NameCutTakesLimit(f, a.name, x, n); }
  }

  lemma SameFirstRecord(f: Filter, a: Record, s: seq<Byte>, b: Record, t: seq<Byte>)
    requires f.RecordOk(a) && f.RecordOk(b) && |a.name| <= |b.name|
    requires EncodeUnterminated(a) + s == EncodeUnterminated(b) + t
    ensures a == b && s == t
  {
    var whole := EncodeUnterminated(a) + s;
    SameFirstName(f, a, s, b, t);
    UnterminatedParts(a, s, whole);
    UnterminatedParts(b, t, whole);
    Le64Injective(|a.contents|, |b.contents|);
  }
}
