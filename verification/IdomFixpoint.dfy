/** The fixpoint of immediate dominators: it terminates, and on the dominator tree. */
module IdomFixpoint {
  import opened Wrappers
  import opened Ordering
  import opened FlowGraphs
  import opened DominatorTrees

  // ---------------------------------------------------------------------------
  // Intersecting
  // ---------------------------------------------------------------------------

  /** Where the walk has got to: still under exactly the same blocks, still dominated by the same. */
  ghost predicate Climbed(c: Ranked, t: Parents, a0: nat, b0: nat, a: nat, b: nat)
    requires c.Tree(t) && Placed(t, a0) && Placed(t, b0)
  {
    && Placed(t, a) && Placed(t, b)
    && (forall x: nat :: c.Above(t, x, a) && c.Above(t, x, b) <==> c.Above(t, x, a0) && c.Above(t, x, b0))
    && (forall x: nat :: c.f.Dominates(x, a0) && c.f.Dominates(x, b0) ==>
          c.f.Dominates(x, a) && c.f.Dominates(x, b))
  }

  /** The block of higher rank is not above the other, nor does it dominate it. */
  lemma Climb(c: Ranked, t: Parents, a0: nat, b0: nat, a: nat, b: nat)
    requires c.Tree(t) && c.KeepsDominators(t) && Placed(t, a0) && Placed(t, b0)
    requires Climbed(c, t, a0, b0, a, b) && c.rank[a] > c.rank[b]
    ensures c.ParentFits(t, a) && Climbed(c, t, a0, b0, t[a].value, b)
  {
    assert a != c.f.entry && c.ParentFits(t, a);
    if c.Above(t, a, b) { AboveIsLower(c, t, a, b); }
    if c.f.Dominates(a, b) { DominatorsAreLower(c, a, b); }
  }

  lemma ClimbedIsSymmetric(c: Ranked, t: Parents, a0: nat, b0: nat, a: nat, b: nat)
    requires c.Tree(t) && Placed(t, a0) && Placed(t, b0) && Climbed(c, t, a0, b0, a, b)
    ensures Climbed(c, t, b0, a0, b, a)
  {
  }

  /** `intersect`: the block of higher rank is replaced by its parent until both are the same. */
  method Intersect(c: Ranked, t: Parents, a0: nat, b0: nat) returns (m: nat)
    requires c.Tree(t) && c.KeepsDominators(t) && Placed(t, a0) && Placed(t, b0)
    ensures Placed(t, m)
    ensures forall x: nat :: c.Above(t, x, m) <==> c.Above(t, x, a0) && c.Above(t, x, b0)
    ensures forall x: nat :: c.f.Dominates(x, a0) && c.f.Dominates(x, b0) ==> c.f.Dominates(x, m)
  {
    var a, b := a0, b0;
    while a != b
      invariant Climbed(c, t, a0, b0, a, b)
      decreases c.rank[a] + c.rank[b]
    {
      ghost var sum := c.rank[a] + c.rank[b];
      assert c.rank[a] != c.rank[b];
      while c.rank[a] > c.rank[b]
        invariant Climbed(c, t, a0, b0, a, b)
        invariant c.rank[a] + c.rank[b] < sum || (c.rank[a] + c.rank[b] == sum && c.rank[a] != c.rank[b])
        decreases c.rank[a]
      {
        Climb(c, t, a0, b0, a, b);
        a := t[a].value;
      }
      while c.rank[b] > c.rank[a]
        invariant Climbed(c, t, a0, b0, a, b)
        invariant c.rank[a] + c.rank[b] < sum || (c.rank[a] + c.rank[b] == sum && c.rank[b] > c.rank[a])
        decreases c.rank[b]
      {
        ClimbedIsSymmetric(c, t, a0, b0, a, b);
        Climb(c, t, b0, a0, b, a);
        ClimbedIsSymmetric(c, t, b0, a0, t[b].value, a);
        b := t[b].value;
      }
    }
    m := a;
  }

  /** The nearest block above some blocks that are placed. */
  ghost predicate Meets(c: Ranked, t: Parents, m: nat, ps: seq<nat>)
    requires c.Tree(t)
  {
    && Placed(t, m)
    && (forall x: nat :: c.Above(t, x, m) <==> forall p :: p in ps && Placed(t, p) ==> c.Above(t, x, p))
    && (forall x: nat :: (forall p :: p in ps && Placed(t, p) ==> c.f.Dominates(x, p)) ==> c.f.Dominates(x, m))
  }

  lemma MeetsOne(c: Ranked, t: Parents, ps: seq<nat>, p: nat)
    requires c.Tree(t) && Placed(t, p) && forall q :: q in ps ==> !Placed(t, q)
    ensures Meets(c, t, p, ps + [p])
  {
    assert p in ps + [p];
  }

  lemma MeetsMore(c: Ranked, t: Parents, ps: seq<nat>, p: nat, current: nat, m: nat)
    requires c.Tree(t) && Placed(t, p) && Meets(c, t, current, ps) && Placed(t, m)
    requires forall x: nat :: c.Above(t, x, m) <==> c.Above(t, x, p) && c.Above(t, x, current)
    requires forall x: nat :: c.f.Dominates(x, p) && c.f.Dominates(x, current) ==> c.f.Dominates(x, m)
    ensures Meets(c, t, m, ps + [p])
  {
    forall x: nat
      ensures c.Above(t, x, m) <==> forall q :: q in ps + [p] && Placed(t, q) ==> c.Above(t, x, q)
    {
      if c.Above(t, x, m) {
      } else if c.Above(t, x, p) {
        var q :| q in ps && Placed(t, q) && !c.Above(t, x, q);
        assert q in ps + [p];
      } else {
        assert p in ps + [p];
      }
    }
    forall x: nat | forall q :: q in ps + [p] && Placed(t, q) ==> c.f.Dominates(x, q)
      ensures c.f.Dominates(x, m)
    {
      assert forall q :: q in ps ==> q in ps + [p];
      assert p in ps + [p];
    }
  }

  lemma MeetsSame(c: Ranked, t: Parents, ps: seq<nat>, p: nat, m: nat)
    requires c.Tree(t) && !Placed(t, p) && Meets(c, t, m, ps)
    ensures Meets(c, t, m, ps + [p])
  {
    assert forall q :: q in ps + [p] && Placed(t, q) ==> q in ps;
    assert forall q :: q in ps ==> q in ps + [p];
  }

  /** The new parent of a block: its placed predecessors, intersected in turn. */
  method NewParent(c: Ranked, t: Parents, ps: seq<nat>) returns (r: Option<nat>)
    requires c.Tree(t) && c.KeepsDominators(t)
    ensures r.None? ==> forall p :: p in ps ==> !Placed(t, p)
    ensures r.Some? ==> Meets(c, t, r.value, ps)
  {
    r := None;
    for i := 0 to |ps|
      invariant r.None? ==> forall p :: p in ps[..i] ==> !Placed(t, p)
      invariant r.Some? ==> Meets(c, t, r.value, ps[..i])
    {
      var p := ps[i];
      assert ps[..i + 1] == ps[..i] + [p];
      if !(p < |t| && t[p].Some?) {
        if r.Some? { MeetsSame(c, t, ps[..i], p, r.value); }
        continue;
      }
      match r {
        case None =>
          MeetsOne(c, t, ps[..i], p);
          r := Some(p);
        case Some(current) =>
          var m := Intersect(c, t, p, current);
          MeetsMore(c, t, ps[..i], p, current, m);
          r := Some(m);
      }
    }
    assert ps[..|ps|] == ps;
  }

  // ---------------------------------------------------------------------------
  // One update
  // ---------------------------------------------------------------------------

  /** A block gets a parent of lower rank; if it had one, the new one is above it. */
  ghost predicate Lifts(c: Ranked, t: Parents, b: nat, m: nat)
    requires c.Tree(t)
  {
    && c.f.Reachable(b) && b != c.f.entry && Placed(t, m) && c.rank[m] < c.rank[b]
    && (Placed(t, b) ==> c.ParentFits(t, b) && c.Above(t, m, t[b].value))
  }

  lemma LiftedIsTree(c: Ranked, t: Parents, b: nat, m: nat)
    requires c.Tree(t) && Lifts(c, t, b, m)
    ensures c.Tree(t[b := Some(m)])
  {
    var u := t[b := Some(m)];
    forall x: nat | Placed(u, x) && x != c.f.entry ensures c.f.Reachable(x) && c.ParentFits(u, x) {
      if x != b { assert c.ParentFits(t, x); }
    }
  }

  /** Below the updated block's rank nothing changes. */
  lemma {:induction false} LowIsUnchanged(c: Ranked, t: Parents, b: nat, m: nat, a: nat, v: nat)
    requires c.Tree(t) && Lifts(c, t, b, m) && c.Tree(t[b := Some(m)])
    requires Placed(t, v) && c.rank[v] < c.rank[b]
    ensures c.Above(t[b := Some(m)], a, v) <==> c.Above(t, a, v)
    decreases c.rank[v]
  {
    if v != c.f.entry {
      assert c.ParentFits(t, v);
      LowIsUnchanged(c, t, b, m, a, t[v].value);
    }
  }

  /** Nowhere does anything come to be above a block that was not. */
  lemma {:induction false} LiftingShrinks(c: Ranked, t: Parents, b: nat, m: nat, a: nat, v: nat)
    requires c.Tree(t) && Lifts(c, t, b, m) && c.Tree(t[b := Some(m)])
    requires Placed(t, v) && c.Above(t[b := Some(m)], a, v)
    ensures c.Above(t, a, v)
    decreases c.rank[v]
  {
    if a != v {
      if v == b {
        LowIsUnchanged(c, t, b, m, a, m);
        AboveIsTransitive(c, t, a, m, t[b].value);
      } else {
        assert c.ParentFits(t, v);
        LiftingShrinks(c, t, b, m, a, t[v].value);
      }
    }
  }

  /** m is the nearest block above the placed predecessors of b. */
  ghost predicate MeetsPredecessors(c: Ranked, t: Parents, b: nat, m: nat)
    requires c.Tree(t) && b < |c.preds|
  {
    && (exists p :: p in c.preds[b] && Placed(t, p))
    && Meets(c, t, m, c.preds[b])
  }

  lemma LiftingKeepsDominators(c: Ranked, t: Parents, b: nat, m: nat)
    requires c.Tree(t) && Lifts(c, t, b, m) && c.KeepsDominators(t)
    requires MeetsPredecessors(c, t, b, m)
    ensures c.Tree(t[b := Some(m)]) && c.KeepsDominators(t[b := Some(m)])
  {
    LiftedIsTree(c, t, b, m);
    forall x: nat | x != b && c.f.Dominates(x, b) ensures c.f.Dominates(x, m) {
      forall p | p in c.preds[b] && Placed(t, p) ensures c.f.Dominates(x, p) {
        StrictDominatorsOfPredecessors(c.f, x, p, b);
      }
    }
  }

  lemma CommonShrinks(c: Ranked, t: Parents, b: nat, m: nat, x: nat, v: nat)
    requires c.Tree(t) && Lifts(c, t, b, m) && c.Tree(t[b := Some(m)])
    requires v < |c.preds| && c.Common(t[b := Some(m)], x, v)
    ensures c.Common(t, x, v)
  {
    forall p | p in c.preds[v] && Placed(t, p) ensures c.Above(t, x, p) {
      LiftingShrinks(c, t, b, m, x, p);
    }
  }

  lemma LiftingKeepsBounds(c: Ranked, t: Parents, b: nat, m: nat)
    requires c.Tree(t) && Lifts(c, t, b, m) && c.Bounded(t) && c.Tree(t[b := Some(m)])
    requires MeetsPredecessors(c, t, b, m)
    ensures c.Bounded(t[b := Some(m)])
  {
    var u := t[b := Some(m)];
    forall v: nat, x: nat | Placed(u, v) && v != c.f.entry && x < |c.rank| && c.Common(u, x, v)
      ensures c.ParentFits(u, v) && c.rank[x] <= c.rank[u[v].value]
    {
      assert c.ParentFits(u, v);
      CommonShrinks(c, t, b, m, x, v);
      if v == b {
        assert c.Above(t, x, m);
        AboveIsLower(c, t, x, m);
      }
    }
  }

  // ---------------------------------------------------------------------------
  // One sweep
  // ---------------------------------------------------------------------------

  /** What a sweep may begin with: what another one left, or the entry alone. */
  ghost predicate Ready(c: Ranked, s: Parents) {
    && c.Tree(s)
    && (forall b: nat :: Placed(s, b) ==> c.ParentAbove(s, b))
    && (AllPlaced(c, s) || forall b: nat :: Placed(s, b) ==> b == c.f.entry)
  }

  ghost predicate Sound(c: Ranked, t: Parents) {
    c.Tree(t) && c.KeepsDominators(t) && c.Bounded(t)
  }

  /** A sweep that began with the parents s has come to rank i with the parents t. */
  ghost predicate Sweeping(c: Ranked, s: Parents, t: Parents, i: nat) {
    Ready(c, s) && Sound(c, t) && UntouchedFrom(c, s, t, i) && SweptBelow(c, s, t, i)
  }

  ghost predicate UntouchedFrom(c: Ranked, s: Parents, t: Parents, i: nat)
    requires c.Tree(s) && c.Tree(t)
  {
    forall b: nat :: c.f.Reachable(b) && c.rank[b] >= i ==> t[b] == s[b]
  }

  ghost predicate SweptBelow(c: Ranked, s: Parents, t: Parents, i: nat)
    requires c.Tree(s) && c.Tree(t)
  {
    forall b: nat :: c.f.Reachable(b) && c.rank[b] < i ==> Swept(c, s, t, b)
  }

  ghost predicate AllPlaced(c: Ranked, t: Parents) {
    forall b: nat :: c.f.Reachable(b) ==> Placed(t, b)
  }

  /** A block the sweep has passed: its new parent is above its old one, and above its predecessors of
      lower rank. */
  ghost predicate Swept(c: Ranked, s: Parents, t: Parents, b: nat)
    requires c.Tree(s) && c.Tree(t)
  {
    && Placed(t, b) && c.ParentAbove(t, b)
    && (Placed(s, b) ==> Placed(t, s[b].value) && c.Above(t, t[b].value, s[b].value))
  }

  /** What is still above a swept block, and not under what used to be above it, is above that. */
  lemma {:induction false} SweptNests(c: Ranked, s: Parents, t: Parents, i: nat, x: nat, u: nat, v: nat)
    requires c.Tree(s) && c.Tree(t) && SweptBelow(c, s, t, i)
    requires Placed(s, u) && Placed(s, v) && Placed(t, x) && Placed(t, v) && c.rank[v] < i
    requires c.Above(s, u, v) && c.Above(t, x, v) && c.rank[x] <= c.rank[u]
    ensures Placed(t, u) && c.Above(t, x, u)
    decreases c.rank[v]
  {
    if u != v {
      AboveIsLower(c, s, u, v);
      assert Swept(c, s, t, v) && c.ParentFits(s, v);
      AboveIsTransitive(c, t, x, t[v].value, s[v].value);
      SweptNests(c, s, t, i, x, u, s[v].value);
    }
  }

  lemma LowerPredecessor(c: Ranked, s: Parents, t: Parents, b: nat) returns (q: nat)
    requires c.Tree(s) && c.Tree(t) && c.f.Reachable(b) && b != c.f.entry
    requires SweptBelow(c, s, t, c.rank[b])
    ensures q in c.preds[b] && Placed(t, q) && c.rank[q] < c.rank[b]
  {
    assert c.HasLowerPredecessor(b);
    q :| q in c.preds[b] && q < |c.rank| && c.rank[q] < c.rank[b];
    assert c.f.Reachable(q) && Swept(c, s, t, q);
  }

  /** The meeting point of the predecessors is above the parent found in the last sweep. */
  lemma MeetingIsAboveParent(c: Ranked, s: Parents, t: Parents, b: nat, m: nat, q: nat)
    requires c.Tree(s) && c.Tree(t) && c.Bounded(t) && Placed(s, b) && Placed(t, b) && s[b] == t[b]
    requires b != c.f.entry && c.ParentAbove(s, b) && SweptBelow(c, s, t, c.rank[b])
    requires q in c.preds[b] && Placed(s, q) && Placed(t, q) && c.rank[q] < c.rank[b]
    requires Meets(c, t, m, c.preds[b])
    ensures c.ParentFits(t, b) && c.Above(t, m, t[b].value)
  {
    assert c.ParentFits(s, b) && c.ParentFits(t, b);
    assert c.Above(t, m, m);
    assert c.Common(t, m, b);
    SweptNests(c, s, t, c.rank[b], m, s[b].value, q);
  }

  lemma MeetingIsLower(c: Ranked, t: Parents, b: nat, m: nat, q: nat)
    requires c.Tree(t) && b < |c.preds| && Meets(c, t, m, c.preds[b])
    requires q in c.preds[b] && Placed(t, q) && c.rank[q] < c.rank[b]
    ensures c.rank[m] < c.rank[b] && MeetsPredecessors(c, t, b, m)
  {
    assert c.Above(t, m, m) && c.Above(t, m, q);
    AboveIsLower(c, t, m, q);
  }

  /** A block that had a parent before its turn has the one the last sweep gave it. */
  lemma OldParentIsLast(c: Ranked, s: Parents, t: Parents, b: nat, q: nat)
    requires Ready(c, s) && c.Tree(t) && c.f.Reachable(b) && b != c.f.entry && UntouchedFrom(c, s, t, c.rank[b])
    requires Placed(t, b) && q in c.preds[b]
    ensures Placed(s, b) && s[b] == t[b] && c.ParentAbove(s, b) && Placed(s, q)
  {
    assert s[b] == t[b] && Placed(s, b);
    assert AllPlaced(c, s);
    assert c.f.Reachable(q);
  }

  /** What the sweep makes the parent of its next block is above the old parent. */
  lemma NextLifts(c: Ranked, s: Parents, t: Parents, i: nat, b: nat, m: nat)
    requires Sweeping(c, s, t, i) && c.f.Reachable(b) && b != c.f.entry && c.rank[b] == i
    requires Meets(c, t, m, c.preds[b])
    ensures Lifts(c, t, b, m) && MeetsPredecessors(c, t, b, m)
  {
    var q := LowerPredecessor(c, s, t, b);
    MeetingIsLower(c, t, b, m, q);
    if Placed(t, b) {
      OldParentIsLast(c, s, t, b, q);
      MeetingIsAboveParent(c, s, t, b, m, q);
    }
  }

  lemma SweptStays(c: Ranked, s: Parents, t: Parents, b: nat, m: nat, v: nat)
    requires c.Tree(s) && c.Tree(t) && Lifts(c, t, b, m) && c.Tree(t[b := Some(m)])
    requires c.f.Reachable(v) && c.rank[v] < c.rank[b] && Swept(c, s, t, v)
    ensures Swept(c, s, t[b := Some(m)], v)
  {
    var u := t[b := Some(m)];
    if v != c.f.entry { assert c.ParentFits(t, v); }
    forall q | q in c.preds[v] && Placed(u, q) && c.rank[q] < c.rank[v] ensures c.Above(u, u[v].value, q) {
      assert Placed(t, q);
      LowIsUnchanged(c, t, b, m, t[v].value, q);
    }
    if Placed(s, v) {
      assert v != c.f.entry ==> c.ParentFits(s, v);
      LowIsUnchanged(c, t, b, m, t[v].value, s[v].value);
    }
  }

  lemma LiftedIsSwept(c: Ranked, s: Parents, t: Parents, b: nat, m: nat)
    requires c.Tree(s) && c.Tree(t) && Lifts(c, t, b, m) && c.Tree(t[b := Some(m)]) && s[b] == t[b]
    requires MeetsPredecessors(c, t, b, m)
    ensures Swept(c, s, t[b := Some(m)], b)
  {
    var u := t[b := Some(m)];
    assert c.Above(t, m, m);
    forall q | q in c.preds[b] && Placed(u, q) && c.rank[q] < c.rank[b] ensures c.Above(u, m, q) {
      assert Placed(t, q) && c.Above(t, m, q);
      LowIsUnchanged(c, t, b, m, m, q);
    }
    if Placed(s, b) {
      LowIsUnchanged(c, t, b, m, m, s[b].value);
    }
  }

  lemma SweptBelowNext(c: Ranked, s: Parents, t: Parents, b: nat, m: nat)
    requires c.Tree(s) && c.Tree(t) && Lifts(c, t, b, m) && c.Tree(t[b := Some(m)]) && s[b] == t[b]
    requires SweptBelow(c, s, t, c.rank[b]) && MeetsPredecessors(c, t, b, m)
    ensures SweptBelow(c, s, t[b := Some(m)], c.rank[b] + 1)
  {
    forall v: nat | c.f.Reachable(v) && c.rank[v] < c.rank[b] + 1 ensures Swept(c, s, t[b := Some(m)], v) {
      if v == b {
        LiftedIsSwept(c, s, t, b, m);
      } else {
        assert c.rank[v] != c.rank[b] && Swept(c, s, t, v);
        SweptStays(c, s, t, b, m, v);
      }
    }
  }

  /** The sweep goes on behind its next block. */
  lemma SweepGoesOn(c: Ranked, s: Parents, t: Parents, i: nat, b: nat, m: nat)
    requires Sweeping(c, s, t, i) && c.f.Reachable(b) && b != c.f.entry && c.rank[b] == i
    requires Meets(c, t, m, c.preds[b])
    ensures Sweeping(c, s, t[b := Some(m)], i + 1)
    ensures Lifts(c, t, b, m)
  {
    NextLifts(c, s, t, i, b, m);
    LiftedIsTree(c, t, b, m);
    LiftingKeepsDominators(c, t, b, m);
    LiftingKeepsBounds(c, t, b, m);
    SweptBelowNext(c, s, t, b, m);
  }

  lemma SweepPassesEntry(c: Ranked, s: Parents, t: Parents)
    requires Sweeping(c, s, t, 0)
    ensures Sweeping(c, s, t, 1)
  {
    EntryIsReachable(c.f);
    forall v: nat | c.f.Reachable(v) && c.rank[v] < 1 ensures Swept(c, s, t, v) {
      assert v == c.f.entry;
    }
  }

  lemma SweepEnds(c: Ranked, s: Parents, t: Parents, i: nat)
    requires Sweeping(c, s, t, i) && forall b: nat :: c.f.Reachable(b) ==> c.rank[b] < i
    ensures AllPlaced(c, t) && Sweeping(c, t, t, 0)
  {
    forall b: nat | c.f.Reachable(b) ensures Placed(t, b) && c.ParentAbove(t, b) {
      assert Swept(c, s, t, b);
    }
  }

  // ---------------------------------------------------------------------------
  // Termination
  // ---------------------------------------------------------------------------

  /** The rank of a block's parent; a block without one counts more than any. */
  function ParentRank(rank: seq<nat>, t: Parents, b: nat): (r: nat)
    requires b < |t|
  {
    if t[b].Some? && t[b].value < |rank| then rank[t[b].value] else |rank|
  }

  function Weight(rank: seq<nat>, t: Parents, k: nat): (r: nat)
    requires k <= |t|
  {
    if k == 0 then 0 else Weight(rank, t, k - 1) + ParentRank(rank, t, k - 1)
  }

  lemma {:induction false} WeightOfUpdate(rank: seq<nat>, t: Parents, b: nat, m: nat, k: nat)
    requires b < |t| && k <= |t|
    ensures var u := t[b := Some(m)];
      Weight(rank, u, k) + (if b < k then ParentRank(rank, t, b) else 0)
      == Weight(rank, t, k) + (if b < k then ParentRank(rank, u, b) else 0)
  {
    if k > 0 { WeightOfUpdate(rank, t, b, m, k - 1); }
  }

  /** Every change makes the parents' ranks smaller. */
  lemma ChangeIsLighter(c: Ranked, t: Parents, b: nat, m: nat)
    requires c.Tree(t) && Lifts(c, t, b, m) && t[b] != Some(m)
    ensures Weight(c.rank, t[b := Some(m)], |t|) < Weight(c.rank, t, |t|)
  {
    WeightOfUpdate(c.rank, t, b, m, |t|);
    if Placed(t, b) {
      AboveIsLower(c, t, m, t[b].value);
    }
  }

  // ---------------------------------------------------------------------------
  // The fixpoint
  // ---------------------------------------------------------------------------

  /** Blocks the sweep has passed without a change. */
  ghost predicate UnchangedBelow(c: Ranked, t: Parents, i: nat)
    requires c.Tree(t)
  {
    forall b: nat :: c.f.Reachable(b) && c.rank[b] < i && b != c.f.entry ==>
      Placed(t, b) && c.Common(t, t[b].value, b)
  }

  lemma UnchangedIsFixed(c: Ranked, t: Parents, b: nat)
    requires c.Tree(t) && AllPlaced(c, t) && Placed(t, b)
    requires b != c.f.entry ==> c.Common(t, t[b].value, b)
    ensures IsFixed(c, t, b)
  {
    if b != c.f.entry {
      forall p | p in c.preds[b] ensures Placed(t, p) && c.Above(t, t[b].value, p) {
        assert c.f.Reachable(p);
      }
    }
  }

  /** The reachable blocks by rank. */
  ghost predicate IsOrder(c: Ranked, order: seq<nat>) {
    && c.Valid()
    && (forall i :: 0 <= i < |order| ==> c.f.Reachable(order[i]) && c.rank[order[i]] == i)
    && (forall b: nat :: c.f.Reachable(b) ==> c.rank[b] < |order|)
  }

  /** The tree of a function: placed are the reachable blocks, above is dominates. */
  ghost predicate IsDominatorTree(c: Ranked, t: Parents) {
    && c.Tree(t)
    && (forall b: nat :: Placed(t, b) <==> c.f.Reachable(b))
    && (forall a: nat, b: nat :: Placed(t, b) ==> (c.Above(t, a, b) <==> c.f.Dominates(a, b)))
  }

  function EntryOnly(n: nat, entry: nat): (t: Parents)
    requires entry < n
  {
    seq(n, _ => None)[entry := Some(entry)]
  }

  lemma EntryOnlyIsTree(c: Ranked)
    requires c.Valid()
    ensures c.Tree(EntryOnly(|c.rank|, c.f.entry))
    ensures forall b: nat :: Placed(EntryOnly(|c.rank|, c.f.entry), b) ==> b == c.f.entry
  {
    EntryIsReachable(c.f);
  }

  lemma EntryOnlyStarts(c: Ranked)
    requires c.Valid()
    ensures var t := EntryOnly(|c.rank|, c.f.entry); Sweeping(c, t, t, 0)
  {
    var t := EntryOnly(|c.rank|, c.f.entry);
    EntryOnlyIsTree(c);
    forall x: nat | c.f.Dominates(x, c.f.entry) ensures x == c.f.entry {
      OnlyEntryDominatesEntry(c.f, x);
    }
    assert c.ParentAbove(t, c.f.entry);
  }

  lemma FixedIsDominatorTree(c: Ranked, t: Parents)
    requires c.Tree(t) && c.KeepsDominators(t) && AllPlaced(c, t)
    requires forall b: nat :: Placed(t, b) ==> IsFixed(c, t, b)
    ensures IsDominatorTree(c, t)
  {
    forall a: nat, b: nat | Placed(t, b) ensures c.Above(t, a, b) <==> c.f.Dominates(a, b) {
      FinishedTreeIsExact(c, t, a, b);
    }
  }

  /** One block: its new parent, and whether that is another one. */
  method Visit(c: Ranked, ghost s: Parents, t: Parents, i: nat, b: nat) returns (u: Parents, moved: bool)
    requires Sweeping(c, s, t, i) && c.f.Reachable(b) && b != c.f.entry && c.rank[b] == i
    ensures Sweeping(c, s, u, i + 1)
    ensures moved ==> Weight(c.rank, u, |u|) < Weight(c.rank, t, |t|)
    ensures !moved ==> u == t && Placed(t, b) && c.Common(t, t[b].value, b)
  {
    var r := NewParent(c, t, c.preds[b]);
    ghost var q := LowerPredecessor(c, s, t, b);
    assert r.Some?;
    ghost var m := r.value;
    SweepGoesOn(c, s, t, i, b, m);
    assert c.Above(t, m, m) && c.Common(t, m, b);
    moved := t[b] != r;
    if moved { ChangeIsLighter(c, t, b, m); }
    u := t[b := r];
  }

  /** The blocks in reverse postorder, once: returns whether a parent has changed. */
  method Sweep(c: Ranked, order: seq<nat>, s: Parents) returns (t: Parents, changed: bool)
    requires IsOrder(c, order) && Sweeping(c, s, s, 0)
    ensures Sweeping(c, t, t, 0) && AllPlaced(c, t)
    ensures !changed ==> t == s && forall b: nat :: Placed(t, b) ==> IsFixed(c, t, b)
    ensures changed ==> Weight(c.rank, t, |t|) < Weight(c.rank, s, |s|)
  {
    t, changed := s, false;
    for i := 0 to |order|
      invariant Sweeping(c, s, t, i)
      invariant !changed ==> t == s && UnchangedBelow(c, t, i)
      invariant changed ==> Weight(c.rank, t, |t|) < Weight(c.rank, s, |s|)
    {
      var b := order[i];
      if b == c.f.entry {
        SweepPassesEntry(c, s, t);
        continue;
      }
      var moved;
      t, moved := Visit(c, s, t, i, b);
      if moved {
        changed := true;
      }
    }
    SweepEnds(c, s, t, |order|);
    if !changed {
      forall b: nat | Placed(t, b) ensures IsFixed(c, t, b) {
        UnchangedIsFixed(c, t, b);
      }
    }
  }

  /** The fixpoint loop. */
  method Fixpoint(c: Ranked, order: seq<nat>) returns (t: Parents)
    requires IsOrder(c, order)
    ensures IsDominatorTree(c, t)
  {
    t := EntryOnly(|c.rank|, c.f.entry);
    EntryOnlyStarts(c);
    var changed := true;
    while changed
      invariant Sweeping(c, t, t, 0)
      invariant !changed ==> AllPlaced(c, t) && forall b: nat :: Placed(t, b) ==> IsFixed(c, t, b)
      decreases Weight(c.rank, t, |t|), changed
    {
      t, changed := Sweep(c, order, t);
    }
    FixedIsDominatorTree(c, t);
  }
}
