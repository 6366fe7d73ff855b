/** Dominance queries: computed once for a function, answered by comparing intervals. */
module Dominators {
  import opened Wrappers
  import opened Ordering
  import opened FlowGraphs
  import opened DepthFirst
  import opened DominatorTrees
  import opened IdomFixpoint
  import opened TreeIntervals

  /** The rank of blocks that are not reachable. */
  const NO_RANK: nat := 0xffff_ffff

  datatype Dominators = Dominators(tin: seq<nat>, tout: seq<nat>, reachable: seq<bool>) {

    predicate IsBlock(b: nat) { b < |reachable| && b < |tin| && b < |tout| }

    /** `dominates`. */
    predicate Dominates(a: nat, b: nat)
      requires IsBlock(a) && IsBlock(b)
    {
      if !reachable[b] then true
      else if !reachable[a] then false
      else tin[a] <= tin[b] && tout[b] <= tout[a]
    }

    /** b is marked reachable, if it is a block at all. */
    predicate Marks(b: nat) { IsBlock(b) ==> reachable[b] }

    /** `is_reachable`. */
    predicate IsReachable(b: nat)
      requires IsBlock(b)
    {
      reachable[b]
    }
  }

  /** Ranks in reverse postorder. */
  ghost predicate AreRanks(rank: seq<nat>, order: seq<nat>, n: nat) {
    && |rank| == n
    && forall i :: 0 <= i < |order| ==> order[i] < n && rank[order[i]] == i
  }

  method Ranks(order: seq<nat>, n: nat) returns (rank: seq<nat>)
    requires NoDuplicates(order) && forall b :: b in order ==> b < n
    ensures AreRanks(rank, order, n)
  {
    rank := seq(n, _ => NO_RANK);
    assert forall i :: 0 <= i < |order| ==> order[i] in order;
    for i := 0 to |order|
      invariant AreRanks(rank, order[..i], n)
    {
      assert order[..i + 1] == order[..i] + [order[i]];
      rank := rank[order[i] := i];
    }
    assert order[..|order|] == order;
  }

  /** The predecessors that are reachable, block by block. */
  ghost predicate ArePredecessors(f: Function, reached: seq<bool>, preds: seq<seq<nat>>, k: nat) {
    && |preds| == |f.blocks| == |reached|
    && forall b: nat, p: nat :: b < |preds| ==>
         (p in preds[b] <==> p < k && p < |reached| && reached[p] && f.Edge(p, b))
  }

  /** The edges out of one block, up to its i-th successor. */
  ghost predicate Adds(f: Function, before: seq<seq<nat>>, preds: seq<seq<nat>>, a: nat, done: seq<nat>) {
    && |before| == |preds| == |f.blocks|
    && forall b: nat, p: nat :: b < |preds| ==>
         (p in preds[b] <==> p in before[b] || (p == a && b in done))
  }

  method AddEdges(f: Function, before: seq<seq<nat>>, a: nat) returns (preds: seq<seq<nat>>)
    requires |before| == |f.blocks| && f.IsBlock(a)
    ensures Adds(f, before, preds, a, Successors(f.blocks[a]))
  {
    preds := before;
    var succs := Successors(f.blocks[a]);
    for i := 0 to |succs|
      invariant Adds(f, before, preds, a, succs[..i])
    {
      assert succs[..i + 1] == succs[..i] + [succs[i]];
      if succs[i] < |f.blocks| {
        preds := preds[succs[i] := preds[succs[i]] + [a]];
      }
    }
    assert succs[..|succs|] == succs;
  }

  method Predecessors(f: Function, reached: seq<bool>) returns (preds: seq<seq<nat>>)
    requires |reached| == |f.blocks|
    ensures ArePredecessors(f, reached, preds, |reached|)
  {
    preds := seq(|f.blocks|, _ => []);
    for a := 0 to |reached|
      invariant ArePredecessors(f, reached, preds, a)
    {
      if !reached[a] {
        continue;
      }
      preds := AddEdges(f, preds, a);
    }
  }

  lemma {:induction false} NoMoreThan(s: seq<nat>, n: nat)
    requires NoDuplicates(s) && forall b :: b in s ==> b < n
    ensures |s| <= n
    decreases n
  {
    if s != [] {
      assert s[0] in s;
      if n - 1 in s {
        var i :| 0 <= i < |s| && s[i] == n - 1;
        var rest := s[..i] + s[i + 1..];
        forall b | b in rest ensures b < n - 1 {
          assert b in s;
        }
        NoMoreThan(rest, n - 1);
      } else {
        NoMoreThan(s, n - 1);
      }
    }
  }

  /** The reachable blocks in reverse postorder. */
  ghost predicate IsReversePostorder(f: Function, order: seq<nat>) {
    && f.Valid() && NoDuplicates(order) && BehindPredecessors(f, order)
    && forall b: nat :: b in order <==> f.Reachable(b)
  }

  lemma ReversedPostorder(f: Function, postorder: seq<nat>, reached: seq<bool>)
    requires f.Valid() && IsPostorder(f, postorder, reached)
    ensures IsReversePostorder(f, Reversed(postorder))
    ensures forall b :: b in Reversed(postorder) ==> b < |f.blocks|
  {
    forall b: nat ensures b in Reversed(postorder) <==> b in postorder {
      ReversedHolds(postorder, b);
    }
    forall b | b in Reversed(postorder) ensures b < |f.blocks| {
      ReachableIsBlock(f, b);
    }
  }

  lemma RankOf(f: Function, order: seq<nat>, rank: seq<nat>, b: nat)
    requires IsReversePostorder(f, order) && AreRanks(rank, order, |f.blocks|) && f.Reachable(b)
    ensures f.IsBlock(b) && rank[b] < |order| && order[rank[b]] == b
  {
    assert b in order;
    var i :| 0 <= i < |order| && order[i] == b;
  }

  lemma RanksAreOrder(f: Function, order: seq<nat>, rank: seq<nat>)
    requires IsReversePostorder(f, order) && AreRanks(rank, order, |f.blocks|)
    ensures forall b: nat :: f.Reachable(b) ==> f.IsBlock(b) && rank[b] < |order| && order[rank[b]] == b
    ensures rank[f.entry] == 0 && |order| <= |rank|
  {
    forall b: nat | f.Reachable(b) ensures f.IsBlock(b) && rank[b] < |order| && order[rank[b]] == b {
      RankOf(f, order, rank, b);
    }
    EntryIsReachable(f);
    assert Follows(f, order[..0], order[0]);
    forall b | b in order ensures b < |rank| {
      ReachableIsBlock(f, b);
    }
    NoMoreThan(order, |rank|);
  }

  lemma LowerPredecessorExists(f: Function, order: seq<nat>, c: Ranked, b: nat)
    requires IsReversePostorder(f, order) && AreRanks(c.rank, order, |f.blocks|) && c.f == f
    requires |c.preds| == |f.blocks|
    requires forall x: nat, p: nat :: x < |c.preds| ==> (p in c.preds[x] <==> f.Edge(p, x) && f.Reachable(p))
    requires f.Reachable(b) && b != f.entry
    ensures f.IsBlock(b) && c.HasLowerPredecessor(b)
  {
    RankOf(f, order, c.rank, b);
    var i := c.rank[b];
    assert Follows(f, order[..i], order[i]);
    var p :| p in order[..i] && f.Edge(p, b);
    var j :| 0 <= j < i && order[..i][j] == p;
    assert order[j] == p && p in order;
    assert c.rank[p] == j;
  }

  lemma PredecessorsAreReachable(f: Function, reached: seq<bool>, preds: seq<seq<nat>>)
    requires ArePredecessors(f, reached, preds, |reached|)
    requires forall b: nat :: b < |reached| ==> (reached[b] <==> f.Reachable(b))
    ensures forall b: nat, p: nat :: b < |preds| ==> (p in preds[b] <==> f.Edge(p, b) && f.Reachable(p))
  {
    forall b: nat, p: nat | b < |preds| ensures p in preds[b] <==> f.Edge(p, b) && f.Reachable(p) {
      assert p < |reached| ==> (reached[p] <==> f.Reachable(p));
    }
  }

  lemma IsRanked(f: Function, order: seq<nat>, c: Ranked)
    requires IsReversePostorder(f, order) && AreRanks(c.rank, order, |f.blocks|) && c.f == f
    requires |c.preds| == |f.blocks|
    requires forall x: nat, p: nat :: x < |c.preds| ==> (p in c.preds[x] <==> f.Edge(p, x) && f.Reachable(p))
    ensures c.Valid()
  {
    RanksAreOrder(f, order, c.rank);
    forall b: nat | f.Reachable(b) && b != f.entry ensures c.HasLowerPredecessor(b) {
      LowerPredecessorExists(f, order, c, b);
    }
  }

  lemma OrderIsRanked(f: Function, order: seq<nat>, reached: seq<bool>, rank: seq<nat>, preds: seq<seq<nat>>)
    requires IsReversePostorder(f, order) && AreRanks(rank, order, |f.blocks|)
    requires ArePredecessors(f, reached, preds, |reached|)
    requires forall b: nat :: b < |reached| ==> (reached[b] <==> f.Reachable(b))
    ensures IsOrder(Ranked(f, rank, preds), order)
  {
    PredecessorsAreReachable(f, reached, preds);
    IsRanked(f, order, Ranked(f, rank, preds));
    RanksAreOrder(f, order, rank);
    forall i | 0 <= i < |order| ensures f.Reachable(order[i]) {
      assert order[i] in order;
    }
  }

  /** The children with ids below k. */
  ghost predicate ListsFirstChildren(c: Ranked, t: Parents, kids: seq<nat>, p: nat, k: nat) {
    NoDuplicates(kids) && forall b: nat :: b in kids <==> b < k && IsChild(c, t, b, p)
  }

  lemma NextChild(c: Ranked, t: Parents, kids: seq<nat>, p: nat, b: nat)
    requires ListsFirstChildren(c, t, kids, p, b)
    ensures ListsFirstChildren(c, t, if IsChild(c, t, b, p) then kids + [b] else kids, p, b + 1)
  {
    assert b !in kids;
  }

  /** The children of every block, in order of their ids. */
  method Children(c: Ranked, t: Parents) returns (children: seq<seq<nat>>)
    requires c.Tree(t)
    ensures AreChildren(c, t, children)
  {
    children := seq(|t|, _ => []);
    for b := 0 to |t|
      invariant |children| == |t|
      invariant forall p: nat :: p < |children| ==> ListsFirstChildren(c, t, children[p], p, b)
    {
      forall p: nat | p < |children|
        ensures ListsFirstChildren(c, t, if IsChild(c, t, b, p) then children[p] + [b] else children[p], p, b + 1)
      {
        NextChild(c, t, children[p], p, b);
      }
      if Placed(t, b) && b != c.f.entry { assert c.ParentFits(t, b); }
      if t[b].Some? && t[b].value != b {
        children := children[t[b].value := children[t[b].value] + [b]];
      }
    }
  }

  /** `Dominators::compute`: afterwards every query is answered by the paths of the function. A block
      that no path leads to is dominated by all. */
  method Compute(f: Function) returns (d: Dominators)
    requires f.Valid()
    ensures |d.tin| == |d.tout| == |d.reachable| == |f.blocks|
    ensures forall a: nat, b: nat :: f.IsBlock(a) && f.IsBlock(b) ==> (d.Dominates(a, b) <==> f.Dominates(a, b))
    ensures forall b: nat :: f.IsBlock(b) ==> (d.IsReachable(b) <==> f.Reachable(b))
    ensures d.IsReachable(f.entry)
    ensures forall a: nat :: a < |f.blocks| && d.IsReachable(a) ==>
      match f.blocks[a]
      case Jump(target) => d.Marks(target)
      case Branch(trueBlock, falseBlock) => d.Marks(trueBlock) && d.Marks(falseBlock)
      case Switch(cases, defaultBlock, exitBlock) =>
        (forall b :: b in cases ==> d.Marks(b)) && d.Marks(defaultBlock) && d.Marks(exitBlock)
      case _ => true
  {
    var postorder, reached := Postorder(f);
    var order := Reversed(postorder);
    ReversedPostorder(f, postorder, reached);
    var rank := Ranks(order, |f.blocks|);
    var preds := Predecessors(f, reached);
    OrderIsRanked(f, order, reached, rank, preds);
    var c := Ranked(f, rank, preds);
    var t := Fixpoint(c, order);
    var children := Children(c, t);
    var w := Number(c, t, children);
    d := Dominators(w.tin, w.tout, reached);
    forall a: nat, b: nat | f.IsBlock(a) && f.IsBlock(b) ensures d.Dominates(a, b) <==> f.Dominates(a, b) {
      QueryIsExact(c, t, reached, d, a, b);
    }
    EntryIsReachable(f);
    forall a: nat, b: nat | a < |f.blocks| && d.IsReachable(a) && f.Edge(a, b) ensures d.Marks(b) {
      EdgeIsReachable(f, a, b);
    }
    TargetsAreMarked(f, d);
  }

  /** What is reachable goes on to what is reachable, whichever target is taken. */
  lemma TargetsAreMarked(f: Function, d: Dominators)
    requires |d.tin| == |d.tout| == |d.reachable| == |f.blocks|
    requires forall a: nat, b: nat :: a < |f.blocks| && d.IsReachable(a) && f.Edge(a, b) ==> d.Marks(b)
    ensures forall a: nat :: a < |f.blocks| && d.IsReachable(a) ==>
      match f.blocks[a]
      case Jump(target) => d.Marks(target)
      case Branch(trueBlock, falseBlock) => d.Marks(trueBlock) && d.Marks(falseBlock)
      case Switch(cases, defaultBlock, exitBlock) =>
        (forall b :: b in cases ==> d.Marks(b)) && d.Marks(defaultBlock) && d.Marks(exitBlock)
      case _ => true
  {
    forall a: nat, b: nat ensures
      f.Edge(a, b) <==> a < |f.blocks| && b < |f.blocks| && b in Successors(f.blocks[a])
    {
      EdgesAreTargets(f, a, b);
    }
    forall a: nat, b: nat | a < |f.blocks| && b in Successors(f.blocks[a]) && d.IsReachable(a) ensures d.Marks(b) {
      if b < |f.blocks| { assert f.Edge(a, b); }
    }
  }

  lemma QueryIsExact(c: Ranked, t: Parents, reached: seq<bool>, d: Dominators, a: nat, b: nat)
    requires IsDominatorTree(c, t) && AreIntervals(c, t, d.tin, d.tout) && d.reachable == reached
    requires |reached| == |c.f.blocks| && c.f.IsBlock(a) && c.f.IsBlock(b)
    requires forall x: nat :: x < |reached| ==> (reached[x] <==> c.f.Reachable(x))
    ensures d.Dominates(a, b) <==> c.f.Dominates(a, b)
  {
    if reached[b] && !reached[a] && c.f.Dominates(a, b) {
      assert c.Above(t, a, b);
      AboveIsLower(c, t, a, b);
    }
  }
}
