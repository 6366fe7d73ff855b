/** Paths as component lists, their rendered bytes, and the two orders the build scripts sort by. */
module Paths {
  import opened Wrappers
  import opened Bytes
  import opened Ordering

  const NUL: Byte := 0
  const DOT: Byte := 46
  const SLASH: Byte := 47
  const BACKSLASH: Byte := 92

  predicate ValidName(n: seq<Byte>) {
    && n != [] && n != [DOT] && n != [DOT, DOT]
    && NUL !in n && SLASH !in n && BACKSLASH !in n
  }

  /** A directory entry's name: UTF-8 bytes without NUL or either separator. */
  type Name = n: seq<Byte> | ValidName(n) witness [97]

  /** The normal components of a path, below whatever root it is read against. */
  type Path = seq<Name>

  predicate IsSeparator(b: Byte) {
    b == SLASH || b == BACKSLASH
  }

  // ---------------------------------------------------------------------------
  // Rendering
  // ---------------------------------------------------------------------------

  /** The path as text, with the platform's separator between components. */
  function Render(p: Path, sep: Byte): (r: seq<Byte>) {
    if p == [] then []
    else if |p| == 1 then p[0]
    else p[0] + [sep] + Render(p[1..], sep)
  }

  /** `replace('\\', "/")` on the rendered text. */
  function ForwardSlashes(s: seq<Byte>): (r: seq<Byte>)
    ensures |r| == |s|
  {
    seq(|s|, i requires 0 <= i < |s| => if s[i] == BACKSLASH then SLASH else s[i])
  }

  /** The scripts' `relative_bytes`, on a path that is already relative. */
  function RelativeBytes(p: Path, sep: Byte): (r: seq<Byte>) {
    ForwardSlashes(Render(p, sep))
  }

  function SlashJoin(p: Path): (r: seq<Byte>) {
    Render(p, SLASH)
  }

  lemma {:induction false} RelativeBytesIsSlashJoin(p: Path, sep: Byte)
    requires IsSeparator(sep)
    ensures RelativeBytes(p, sep) == SlashJoin(p)
  {
    if |p| > 1 {
      RelativeBytesIsSlashJoin(p[1..], sep);
      assert ForwardSlashes(p[0] + [sep] + Render(p[1..], sep))
          == p[0] + [SLASH] + ForwardSlashes(Render(p[1..], sep));
    } else if |p| == 1 {
      assert ForwardSlashes(p[0]) == p[0];
    }
  }

  lemma {:induction false} RenderHasNoNul(p: Path, sep: Byte)
    requires IsSeparator(sep)
    ensures NUL !in Render(p, sep)
    ensures p != [] ==> Render(p, sep) != []
  {
    if |p| > 1 { RenderHasNoNul(p[1..], sep); }
  }

  /** A name cannot contain a separator, so the first separator ends the first component. */
  lemma SplitAtSeparator(a: seq<Byte>, x: seq<Byte>, b: seq<Byte>, y: seq<Byte>, sep: Byte)
    requires sep !in a && sep !in b
    requires a + [sep] + x == b + [sep] + y
    ensures a == b && x == y
  {
    var s := a + [sep] + x;
    assert s[|a|] == sep && s[|b|] == sep;
    assert forall i :: 0 <= i < |a| ==> s[i] == a[i];
    assert forall i :: 0 <= i < |b| ==> s[i] == b[i];
    assert a == s[..|a|] && b == s[..|b|];
    assert x == s[|a| + 1..] && y == s[|b| + 1..];
  }

  /** Joining components with either separator can be undone. */
  lemma {:induction false} RenderInjective(p: Path, q: Path, sep: Byte)
    requires IsSeparator(sep)
    requires Render(p, sep) == Render(q, sep)
    ensures p == q
  {
    assert |p| > 1 <==> sep in Render(p, sep);
    assert |q| > 1 <==> sep in Render(q, sep);
    if |p| > 1 {
      SplitAtSeparator(p[0], Render(p[1..], sep), q[0], Render(q[1..], sep), sep);
      RenderInjective(p[1..], q[1..], sep);
      assert p == [p[0]] + p[1..] && q == [q[0]] + q[1..];
    } else if |p| == 1 {
      assert p == [p[0]] && q == [q[0]];
    }
  }

  lemma {:induction false} RenderEndsWithLastName(p: Path, sep: Byte)
    requires p != []
    ensures EndsWith(Render(p, sep), p[|p| - 1])
  {
    if |p| > 1 {
      RenderEndsWithLastName(p[1..], sep);
      var rest := Render(p[1..], sep);
      var last := p[|p| - 1];
      assert Render(p, sep)[|Render(p, sep)| - |last|..] == rest[|rest| - |last|..];
    }
  }

  lemma {:induction false} RenderUnder(root: Path, p: Path, sep: Byte)
    requires root != [] && p != []
    ensures Render(root + p, sep) == Render(root, sep) + [sep] + Render(p, sep)
  {
    if |root| == 1 {
      assert (root + p)[1..] == p;
    } else {
      RenderUnder(root[1..], p, sep);
      assert (root + p)[1..] == root[1..] + p;
    }
  }

  // ---------------------------------------------------------------------------
  // Component order (`Ord` for `Path`) and byte order of the slash-joined text
  // ---------------------------------------------------------------------------

  predicate Before(p: Path, q: Path) {
    q != [] && (p == [] || Less(p[0], q[0]) || (p[0] == q[0] && Before(p[1..], q[1..])))
  }

  predicate SlashBefore(p: Path, q: Path) {
    Less(SlashJoin(p), SlashJoin(q))
  }

  /** The components, each closed by a NUL byte. */
  function NulKey(p: Path): (r: seq<Byte>) {
    if p == [] then [] else p[0] + [NUL] + NulKey(p[1..])
  }

  lemma {:induction false} TerminatedLess(a: seq<Byte>, x: seq<Byte>, b: seq<Byte>, y: seq<Byte>)
    requires NUL !in a && NUL !in b
    ensures Less(a + [NUL] + x, b + [NUL] + y) <==> Less(a, b) || (a == b && Less(x, y))
  {
    var s, t := a + [NUL] + x, b + [NUL] + y;
    if a != [] && b != [] {
      TerminatedLess(a[1..], x, b[1..], y);
      assert s[1..] == a[1..] + [NUL] + x && t[1..] == b[1..] + [NUL] + y;
      assert a[0] == b[0] ==> (a == b <==> a[1..] == b[1..]) by {
        assert a == [a[0]] + a[1..] && b == [b[0]] + b[1..];
      }
    } else if a == [] && b == [] {
      assert s[1..] == x && t[1..] == y;
    } else if a == [] {
      assert s[0] == NUL && t[0] == b[0];
    } else {
      assert t[0] == NUL && s[0] == a[0];
    }
  }

  /** Component order is byte order once every component is closed by the least byte. */
  lemma {:induction false} BeforeIsNulKeyOrder(p: Path, q: Path)
    ensures Before(p, q) <==> Less(NulKey(p), NulKey(q))
  {
    if p != [] && q != [] {
      TerminatedLess(p[0], NulKey(p[1..]), q[0], NulKey(q[1..]));
      BeforeIsNulKeyOrder(p[1..], q[1..]);
      if p[0] == q[0] { LessIrreflexive(p[0]); }
    }
  }

  lemma {:induction false} NulKeyInjective(p: Path, q: Path)
    requires NulKey(p) == NulKey(q)
    ensures p == q
  {
    if p != [] && q != [] {
      SplitAtSeparator(p[0], NulKey(p[1..]), q[0], NulKey(q[1..]), NUL);
      NulKeyInjective(p[1..], q[1..]);
      assert p == [p[0]] + p[1..] && q == [q[0]] + q[1..];
    }
  }

  lemma ComponentOrderIsTotal()
    ensures StrictTotalOrder(Before)
  {
    forall p: Path ensures !Before(p, p) {
      BeforeIsNulKeyOrder(p, p);
      LessIrreflexive(NulKey(p));
    }
    forall p: Path, q: Path, r: Path | Before(p, q) && Before(q, r) ensures Before(p, r) {
      BeforeIsNulKeyOrder(p, q);
      BeforeIsNulKeyOrder(q, r);
      BeforeIsNulKeyOrder(p, r);
      LessTransitive(NulKey(p), NulKey(q), NulKey(r));
    }
    forall p: Path, q: Path ensures p == q || Before(p, q) || Before(q, p) {
      BeforeIsNulKeyOrder(p, q);
      BeforeIsNulKeyOrder(q, p);
      LessTotal(NulKey(p), NulKey(q));
      if NulKey(p) == NulKey(q) { NulKeyInjective(p, q); }
    }
  }

  lemma SlashOrderIsTotal()
    ensures StrictTotalOrder(SlashBefore)
  {
    forall p: Path ensures !SlashBefore(p, p) {
      LessIrreflexive(SlashJoin(p));
    }
    forall p: Path, q: Path, r: Path | SlashBefore(p, q) && SlashBefore(q, r)
      ensures SlashBefore(p, r)
    {
      LessTransitive(SlashJoin(p), SlashJoin(q), SlashJoin(r));
    }
    forall p: Path, q: Path ensures p == q || SlashBefore(p, q) || SlashBefore(q, p) {
      LessTotal(SlashJoin(p), SlashJoin(q));
      if SlashJoin(p) == SlashJoin(q) { RenderInjective(p, q, SLASH); }
    }
  }

  /** The two orders disagree: `a/b` against `a-b`. */
  lemma OrdersDisagree()
    ensures exists p: Path, q: Path :: Before(p, q) && SlashBefore(q, p)
  {
    var p: Path := [[97], [98]];
    var q: Path := [[97, 45, 98]];
    assert Less([97], [97, 45, 98]) by {
      assert [97, 45, 98][1..] == [45, 98];
    }
    assert SlashJoin(p) == [97, 47, 98] by {
      assert p[1..] == [[98]];
    }
    assert [97, 45, 98][1..] == [45, 98] && [97, 47, 98][1..] == [47, 98];
    assert Before(p, q) && SlashBefore(q, p);
  }

  lemma HeadAndRest(root: Path, p: Path)
    requires root != []
    ensures root + p == [root[0]] + (root[1..] + p)
  {
  }

  lemma BeforeSameHead(n: Name, p: Path, q: Path)
    ensures Before([n] + p, [n] + q) <==> Before(p, q)
  {
    LessIrreflexive(n);
    assert ([n] + p)[1..] == p && ([n] + q)[1..] == q;
  }

  /** A common leading path leaves the component order alone. */
  lemma {:induction false} BeforeCommonPrefix(root: Path, p: Path, q: Path)
    ensures Before(root + p, root + q) <==> Before(p, q)
  {
    if root == [] {
      assert root + p == p && root + q == q;
    } else {
      BeforeCommonPrefix(root[1..], p, q);
      BeforeSameHead(root[0], root[1..] + p, root[1..] + q);
      HeadAndRest(root, p);
      HeadAndRest(root, q);
    }
  }

  // ---------------------------------------------------------------------------
  // Prefixes and extensions
  // ---------------------------------------------------------------------------

  predicate Under(root: Path, p: Path) {
    |root| <= |p| && p[..|root|] == root
  }

  function LastDot(n: seq<Byte>): (k: int)
    ensures -1 <= k < |n|
    ensures k >= 0 ==> n[k] == DOT
    ensures forall i :: k < i < |n| ==> n[i] != DOT
  {
    if n == [] then -1
    else if n[|n| - 1] == DOT then |n| - 1
    else LastDot(n[..|n| - 1])
  }

  /** `Path::extension`: what follows the last dot, unless that dot opens the name. */
  function Extension(n: Name): (e: Option<seq<Byte>>)
    ensures e.Some? ==> EndsWith(n, [DOT] + e.value) && |n| > 1 + |e.value|
  {
    var k := LastDot(n);
    if k <= 0 then None
    else
      assert n[k..] == [DOT] + n[k + 1..];
      Some(n[k + 1..])
  }

  /** `Path::file_stem`: the name without its extension. */
  function FileStem(n: Name): (s: seq<Byte>)
    ensures s != []
    ensures n == match Extension(n) case None => s case Some(e) => s + [DOT] + e
  {
    var k := LastDot(n);
    if k <= 0 then n
    else
      assert n == n[..k] + [DOT] + n[k + 1..];
      n[..k]
  }

  /** A name is given back by the stem and extension it is built from. */
  lemma ExtensionOf(stem: seq<Byte>, e: seq<Byte>)
    requires stem != [] && DOT !in e && ValidName(stem + [DOT] + e)
    ensures Extension(stem + [DOT] + e) == Some(e)
    ensures FileStem(stem + [DOT] + e) == stem
  {
    var n := stem + [DOT] + e;
    var k := LastDot(n);
    assert n[|stem|] == DOT;
    assert forall i :: |stem| < i < |n| ==> n[i] == e[i - |stem| - 1];
    assert k == |stem|;
    assert n[|stem| + 1..] == e && n[..|stem|] == stem;
  }

  /** The extension of a name is what it ends with behind a dot that does not open it. */
  lemma ExtensionIsSuffix(n: Name, e: seq<Byte>)
    requires DOT !in e
    ensures Extension(n) == Some(e) <==> |n| > |e| + 1 && n[|n| - |e| - 1..] == [DOT] + e
    ensures Extension(n) == Some(e) ==> FileStem(n) == n[..|n| - |e| - 1]
  {
    if |n| > |e| + 1 && n[|n| - |e| - 1..] == [DOT] + e {
      assert n == n[..|n| - |e| - 1] + [DOT] + e;
      ExtensionOf(n[..|n| - |e| - 1], e);
    }
  }

  /** A path as text, name by name: the last name behind the text of its directory. */
  lemma RenderIsJoined(dir: Path, n: Name, sep: Byte)
    ensures Render([n], sep) == n
    ensures dir != [] ==> Render(dir + [n], sep) == Render(dir, sep) + [sep] + n
  {
    if dir != [] { RenderUnder(dir, [n], sep); }
  }

  lemma EndsWithTransitive(s: seq<Byte>, t: seq<Byte>, u: seq<Byte>)
    requires EndsWith(s, t) && EndsWith(t, u)
    ensures EndsWith(s, u)
  {
    assert s[|s| - |u|..] == s[|s| - |t|..][|t| - |u|..];
  }
}
