/** Strict orders, and the one sorted listing a finite set has under such an order. */
module Ordering {
  function Elements<T>(s: seq<T>): (r: set<T>) {
    set x | x in s
  }

  lemma ElementsOfAppend<T>(a: seq<T>, b: seq<T>)
    ensures Elements(a + b) == Elements(a) + Elements(b)
  {
  }

  ghost predicate NoDuplicates<T>(s: seq<T>) {
    forall i, j :: 0 <= i < j < |s| ==> s[i] != s[j]
  }

  ghost predicate StrictTotalOrder<T(!new)>(before: (T, T) -> bool) {
    && (forall x :: !before(x, x))
    && (forall x, y, z :: before(x, y) && before(y, z) ==> before(x, z))
    && (forall x, y :: x == y || before(x, y) || before(y, x))
  }

  /** The same, asked only of the elements of a set. */
  ghost predicate Orders<T>(before: (T, T) -> bool, s: set<T>) {
    && (forall x :: x in s ==> !before(x, x))
    && (forall x, y, z :: x in s && y in s && z in s && before(x, y) && before(y, z) ==> before(x, z))
    && (forall x, y :: x in s && y in s ==> x == y || before(x, y) || before(y, x))
  }

  ghost predicate Sorted<T>(before: (T, T) -> bool, s: seq<T>) {
    forall i, j :: 0 <= i < j < |s| ==> before(s[i], s[j])
  }

  /** Two sorted listings of one set are the same listing. */
  lemma {:induction false} SortedUnique<T>(before: (T, T) -> bool, a: seq<T>, b: seq<T>)
    requires Orders(before, Elements(a))
    requires Sorted(before, a) && Sorted(before, b)
    requires Elements(a) == Elements(b)
    ensures a == b
  {
    assert a != [] ==> a[0] in Elements(b);
    assert b != [] ==> b[0] in Elements(a);
    if a != [] && b != [] {
      assert a[0] == b[0];
      TailElements(before, a);
      TailElements(before, b);
      SortedUnique(before, a[1..], b[1..]);
      assert a == [a[0]] + a[1..] && b == [b[0]] + b[1..];
    }
  }

  lemma TailElements<T>(before: (T, T) -> bool, a: seq<T>)
    requires Orders(before, Elements(a)) && Sorted(before, a) && a != []
    ensures Elements(a[1..]) == Elements(a) - {a[0]}
  {
    forall x | x in Elements(a) - {a[0]} ensures x in a[1..] {
      var i :| 0 <= i < |a| && a[i] == x;
      assert a[1..][i - 1] == x;
    }
    forall x | x in a[1..] ensures x in Elements(a) - {a[0]} {
      var i :| 0 <= i < |a[1..]| && a[1..][i] == x;
      assert before(a[0], a[i + 1]) && a[0] in Elements(a);
    }
  }

  /** Puts `x` behind every element that comes before it. */
  function InsertSorted<T>(before: (T, T) -> bool, x: T, s: seq<T>): (r: seq<T>)
    ensures Elements(r) == Elements(s) + {x}
  {
    if s == [] then [x]
    else if before(s[0], x) then
      assert s == [s[0]] + s[1..];
      ElementsOfAppend([s[0]], s[1..]);
      ElementsOfAppend([s[0]], InsertSorted(before, x, s[1..]));
      [s[0]] + InsertSorted(before, x, s[1..])
    else
      ElementsOfAppend([x], s);
      [x] + s
  }

  lemma {:induction false} InsertKeepsSorted<T>(before: (T, T) -> bool, x: T, s: seq<T>, all: set<T>)
    requires Orders(before, all) && Elements(s) <= all && x in all
    requires Sorted(before, s) && x !in Elements(s)
    ensures Sorted(before, InsertSorted(before, x, s))
  {
    assert forall y :: y in s ==> y in Elements(s);
    if s != [] && before(s[0], x) {
      InsertKeepsSorted(before, x, s[1..], all);
      var rest := InsertSorted(before, x, s[1..]);
      forall y | y in rest ensures before(s[0], y) {
        assert y in Elements(rest);
      }
    } else if s != [] {
      forall j | 0 <= j < |s| ensures before(x, s[j]) {
        assert s[0] in all && s[j] in all && before(x, s[0]);
        assert j == 0 || before(s[0], s[j]);
      }
    }
  }

  /** The sorted listing of a finite set. */
  ghost function Canonical<T(!new)>(before: (T, T) -> bool, s: set<T>): (r: seq<T>)
    requires StrictTotalOrder(before)
    ensures Sorted(before, r) && Elements(r) == s
  {
    if s == {} then []
    else
      var x :| x in s;
      var rest := Canonical(before, s - {x});
      InsertKeepsSorted(before, x, rest, s);
      InsertSorted(before, x, rest)
  }

  lemma SortedHasNoDuplicates<T(!new)>(before: (T, T) -> bool, s: seq<T>)
    requires StrictTotalOrder(before) && Sorted(before, s)
    ensures NoDuplicates(s)
  {
    forall i, j | 0 <= i < j < |s| ensures s[i] != s[j] {
      assert before(s[i], s[j]);
    }
  }

  /** `Vec::sort_by`, on elements the comparator orders. */
  method Sort<T>(before: (T, T) -> bool, items: seq<T>) returns (sorted: seq<T>)
    requires Orders(before, Elements(items)) && NoDuplicates(items)
    ensures Sorted(before, sorted) && Elements(sorted) == Elements(items)
  {
    sorted := [];
    for i := 0 to |items|
      invariant Sorted(before, sorted)
      invariant Elements(sorted) == Elements(items[..i])
    {
      assert items[i] !in Elements(sorted);
      InsertKeepsSorted(before, items[i], sorted, Elements(items));
      sorted := InsertSorted(before, items[i], sorted);
      assert items[..i + 1] == items[..i] + [items[i]];
      ElementsOfAppend(items[..i], [items[i]]);
    }
    assert items[..|items|] == items;
  }
}
