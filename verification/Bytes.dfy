/** Byte strings: the 64-bit little-endian length field and the byte order of paths. */
module Bytes {
  type Byte = b: int | 0 <= b < 256

  const U64_LIMIT: nat := 0x1_0000_0000_0000_0000

  /** File contents; no file is longer than a 64-bit length can say. */
  type Contents = c: seq<Byte> | |c| < U64_LIMIT witness []

  /** The bytes of an ASCII literal. */
  function Ascii(s: string): (r: seq<Byte>)
    requires forall i :: 0 <= i < |s| ==> s[i] < 128 as char
    ensures |r| == |s| && forall i :: 0 <= i < |s| ==> r[i] == s[i] as int
  {
    seq(|s|, i requires 0 <= i < |s| => s[i] as int)
  }

  /** The bytes are an ASCII text, begin with one, or begin with one that is closed by a zero byte. */
  predicate Spells(s: seq<Byte>, text: string) {
    |s| == |text| && Begins(s, text)
  }

  predicate Begins(s: seq<Byte>, text: string) {
    |text| <= |s| && forall i :: 0 <= i < |text| ==> s[i] == text[i] as int
  }

  predicate OpensWith(s: seq<Byte>, text: string) {
    Begins(s, text) && |s| > |text| && s[|text|] == 0
  }

  lemma OneSpelling(s: seq<Byte>, t: seq<Byte>, text: string)
    requires Spells(t, text)
    ensures Spells(s, text) <==> s == t
  {
  }

  lemma TextsKeepApart(s: seq<Byte>, t: seq<Byte>, a: string, b: string, i: nat)
    requires Begins(s, a) && Begins(t, b) && i < |a| && i < |b| && a[i] != b[i]
    ensures s != t
  {
  }

  /** A text closed by a zero byte opens whatever it is put before. */
  lemma TextOpens(tag: seq<Byte>, text: string, rest: seq<Byte>)
    requires OpensWith(tag, text)
    ensures OpensWith(tag + rest, text)
  {
  }

  predicate EndsWith(s: seq<Byte>, suffix: seq<Byte>) {
    |suffix| <= |s| && s[|s| - |suffix|..] == suffix
  }

  lemma AppendAssociative(x: seq<Byte>, y: seq<Byte>, z: seq<Byte>)
    ensures (x + y) + z == x + (y + z)
  {
  }

  lemma EndsWithAt(s: seq<Byte>, suffix: seq<Byte>)
    requires EndsWith(s, suffix)
    ensures forall i :: |s| - |suffix| <= i < |s| ==> s[i] == suffix[i - (|s| - |suffix|)]
  {
    var k := |s| - |suffix|;
    assert forall i :: k <= i < |s| ==> s[k..][i - k] == s[i];
  }

  // ---------------------------------------------------------------------------
  // Fixed-width little-endian numbers
  // ---------------------------------------------------------------------------

  function Pow256(k: nat): (r: nat)
    ensures r > 0
  {
    if k == 0 then 1 else 256 * Pow256(k - 1)
  }

  lemma EightBytesHoldU64()
    ensures Pow256(8) == U64_LIMIT
  {
    assert Pow256(2) == 0x1_0000;
    assert Pow256(4) == 0x1_0000_0000;
    assert Pow256(6) == 0x1_0000_0000_0000;
  }

  function LittleEndian(n: nat, width: nat): (r: seq<Byte>)
    ensures |r| == width
  {
    if width == 0 then [] else [n % 256] + LittleEndian(n / 256, width - 1)
  }

  function FromLittleEndian(s: seq<Byte>): (n: nat) {
    if s == [] then 0 else s[0] + 256 * FromLittleEndian(s[1..])
  }

  lemma {:induction false} LittleEndianRoundTrip(n: nat, width: nat)
    requires n < Pow256(width)
    ensures FromLittleEndian(LittleEndian(n, width)) == n
  {
    if width > 0 {
      LittleEndianRoundTrip(n / 256, width - 1);
      assert LittleEndian(n, width)[1..] == LittleEndian(n / 256, width - 1);
    }
  }

  lemma {:induction false} FromLittleEndianRoundTrip(s: seq<Byte>)
    ensures FromLittleEndian(s) < Pow256(|s|)
    ensures LittleEndian(FromLittleEndian(s), |s|) == s
  {
    if s != [] {
      FromLittleEndianRoundTrip(s[1..]);
      var n := FromLittleEndian(s);
      assert n % 256 == s[0] && n / 256 == FromLittleEndian(s[1..]);
    }
  }

  /** The eight bytes of `u64::to_le_bytes`. */
  function Le64(n: nat): (r: seq<Byte>)
    ensures |r| == 8
  {
    LittleEndian(n, 8)
  }

  lemma Le64Injective(n: nat, m: nat)
    requires n < U64_LIMIT && m < U64_LIMIT
    requires Le64(n) == Le64(m)
    ensures n == m
  {
    EightBytesHoldU64();
    LittleEndianRoundTrip(n, 8);
    LittleEndianRoundTrip(m, 8);
  }

  /** Below 2^24 a length field is its three low bytes followed by five zero bytes. */
  lemma Le64Small(n: nat)
    requires n < 0x100_0000
    ensures var l := Le64(n);
            n == l[0] as int + 0x100 * (l[1] as int) + 0x1_0000 * (l[2] as int)
            && l[3] == l[4] == l[5] == l[6] == l[7] == 0
  {
    var n1, n2 := n / 256, n / 256 / 256;
    assert LittleEndian(n, 8) == [n % 256] + LittleEndian(n1, 7);
    assert LittleEndian(n1, 7) == [n1 % 256] + LittleEndian(n2, 6);
    assert LittleEndian(n2, 6) == [n2 % 256] + LittleEndian(0, 5);
    assert LittleEndian(0, 5) == [0] + LittleEndian(0, 4);
    assert LittleEndian(0, 4) == [0] + LittleEndian(0, 3);
    assert LittleEndian(0, 3) == [0] + LittleEndian(0, 2);
    assert LittleEndian(0, 2) == [0, 0];
  }

  // ---------------------------------------------------------------------------
  // Lexicographic order on byte strings (`Ord` for `[u8]`)
  // ---------------------------------------------------------------------------

  predicate Less(a: seq<Byte>, b: seq<Byte>) {
    b != [] && (a == [] || a[0] < b[0] || (a[0] == b[0] && Less(a[1..], b[1..])))
  }

  lemma {:induction false} LessIrreflexive(a: seq<Byte>)
    ensures !Less(a, a)
  {
    if a != [] { LessIrreflexive(a[1..]); }
  }

  lemma {:induction false} LessTransitive(a: seq<Byte>, b: seq<Byte>, c: seq<Byte>)
    requires Less(a, b) && Less(b, c)
    ensures Less(a, c)
  {
    if a != [] && a[0] == b[0] == c[0] { LessTransitive(a[1..], b[1..], c[1..]); }
  }

  lemma {:induction false} LessTotal(a: seq<Byte>, b: seq<Byte>)
    ensures a == b || Less(a, b) || Less(b, a)
  {
    if a != [] && b != [] && a[0] == b[0] {
      LessTotal(a[1..], b[1..]);
      assert a == [a[0]] + a[1..] && b == [b[0]] + b[1..];
    }
  }
}
