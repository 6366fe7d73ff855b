/** Trees of immediate dominators under construction: who is above whom, and what an update changes. */
module DominatorTrees {
  import opened Wrappers
  import opened FlowGraphs

  /** The parent of each block that has one so far; the entry is its own. */
  type Parents = seq<Option<nat>>

  predicate Placed(t: Parents, b: nat) {
    b < |t| && t[b].Some?
  }

  /** A function with its reverse postorder ranks and predecessor lists. */
  datatype Ranked = Ranked(f: Function, rank: seq<nat>, preds: seq<seq<nat>>) {

    ghost predicate Valid() {
      && f.Valid() && |rank| == |preds| == |f.blocks| && rank[f.entry] == 0
      && (forall b: nat :: f.Reachable(b) ==> f.IsBlock(b) && rank[b] < |rank|)
      && (forall a: nat, b: nat :: f.Reachable(a) && f.Reachable(b) && rank[a] == rank[b] ==> a == b)
      && (forall b: nat, p: nat :: b < |preds| ==> (p in preds[b] <==> f.Edge(p, b) && f.Reachable(p)))
      && (forall b: nat {:trigger HasLowerPredecessor(b)} ::
            f.Reachable(b) && b != f.entry ==> HasLowerPredecessor(b))
    }

    ghost predicate HasLowerPredecessor(b: nat)
      requires b < |preds| == |rank|
    {
      exists p :: p in preds[b] && p < |rank| && rank[p] < rank[b]
    }

    /** Parents are placed and have lower ranks. */
    ghost predicate Tree(t: Parents) {
      && Valid() && |t| == |rank| && t[f.entry] == Some(f.entry)
      && (forall b: nat :: Placed(t, b) ==> f.Reachable(b))
      && (forall b: nat {:trigger ParentFits(t, b)} :: Placed(t, b) && b != f.entry ==> ParentFits(t, b))
    }

    ghost predicate ParentFits(t: Parents, b: nat)
      requires |t| == |rank| && Placed(t, b)
    {
      Placed(t, t[b].value) && rank[t[b].value] < rank[b]
    }

    /** a is b or one of the blocks above it. */
    ghost predicate Above(t: Parents, a: nat, b: nat)
      requires Tree(t) && Placed(t, b)
      decreases rank[b]
    {
      a == b || (b != f.entry && ParentFits(t, b) && Above(t, a, t[b].value))
    }

    /** x is above every predecessor of b that has been placed. */
    ghost predicate Common(t: Parents, x: nat, b: nat)
      requires Tree(t) && b < |preds|
    {
      forall p :: p in preds[b] && Placed(t, p) ==> Above(t, x, p)
    }

    /** What strictly dominates a block dominates its parent. */
    ghost predicate KeepsDominators(t: Parents)
      requires Tree(t)
    {
      forall x: nat, b: nat :: Placed(t, b) && x != b && f.Dominates(x, b) ==> f.Dominates(x, t[b].value)
    }

    /** What is above all placed predecessors of a block has no higher rank than its parent. */
    ghost predicate Bounded(t: Parents)
      requires Tree(t)
    {
      forall b: nat, x: nat :: Placed(t, b) && b != f.entry && x < |rank| && Common(t, x, b) ==>
        ParentFits(t, b) && rank[x] <= rank[t[b].value]
    }

    /** The parent of a block is above its placed predecessors of lower rank. */
    ghost predicate ParentAbove(t: Parents, b: nat)
      requires Tree(t) && Placed(t, b)
    {
      forall q :: q in preds[b] && Placed(t, q) && rank[q] < rank[b] ==> Above(t, t[b].value, q)
    }
  }

  // ---------------------------------------------------------------------------
  // Above
  // ---------------------------------------------------------------------------

  lemma {:induction false} AboveIsLower(c: Ranked, t: Parents, a: nat, b: nat)
    requires c.Tree(t) && Placed(t, b) && c.Above(t, a, b)
    ensures Placed(t, a) && (a == b || c.rank[a] < c.rank[b])
    decreases c.rank[b]
  {
    if a != b { AboveIsLower(c, t, a, t[b].value); }
  }

  lemma {:induction false} AboveIsTransitive(c: Ranked, t: Parents, a: nat, b: nat, d: nat)
    requires c.Tree(t) && Placed(t, b) && Placed(t, d) && c.Above(t, a, b) && c.Above(t, b, d)
    ensures c.Above(t, a, d)
    decreases c.rank[d]
  {
    if b != d { AboveIsTransitive(c, t, a, b, t[d].value); }
  }

  // ---------------------------------------------------------------------------
  // Ranks and dominance
  // ---------------------------------------------------------------------------

  /** A path to a block over blocks of no higher rank. */
  lemma {:induction false} LowPath(c: Ranked, b: nat) returns (path: seq<nat>)
    requires c.Valid() && c.f.Reachable(b)
    ensures c.f.LeadsTo(path, b)
    ensures forall x :: x in path ==> x < |c.rank| && c.rank[x] <= c.rank[b]
    decreases c.rank[b]
  {
    if b == c.f.entry {
      path := [b];
    } else {
      assert c.HasLowerPredecessor(b);
      var p :| p in c.preds[b] && p < |c.rank| && c.rank[p] < c.rank[b];
      path := LowPath(c, p);
      ExtendPath(c.f, path, p, b);
      path := path + [b];
    }
  }

  lemma DominatorsAreLower(c: Ranked, a: nat, b: nat)
    requires c.Valid() && c.f.Reachable(b) && c.f.Dominates(a, b)
    ensures a < |c.rank| && c.rank[a] <= c.rank[b]
  {
    var path := LowPath(c, b);
  }

  /** Where dominators are kept, they are all above. */
  lemma {:induction false} DominatorsAreAbove(c: Ranked, t: Parents, a: nat, b: nat)
    requires c.Tree(t) && c.KeepsDominators(t) && Placed(t, b) && c.f.Dominates(a, b)
    ensures c.Above(t, a, b)
    decreases c.rank[b]
  {
    if b == c.f.entry {
      OnlyEntryDominatesEntry(c.f, a);
    } else if a != b {
      assert c.ParentFits(t, b);
      DominatorsAreAbove(c, t, a, t[b].value);
    }
  }

  /** Every block has for its parent what is above all of its predecessors. */
  ghost predicate IsFixed(c: Ranked, t: Parents, b: nat)
    requires c.Tree(t) && Placed(t, b)
  {
    b != c.f.entry ==> forall p :: p in c.preds[b] ==> Placed(t, p) && c.Above(t, t[b].value, p)
  }

  /** Where that has been reached, whatever is above a block is on every path to it. */
  lemma {:induction false} AboveIsPassed(c: Ranked, t: Parents, a: nat, b: nat, path: seq<nat>)
    requires c.Tree(t) && Placed(t, b) && c.Above(t, a, b) && c.f.LeadsTo(path, b)
    requires forall x: nat :: Placed(t, x) ==> IsFixed(c, t, x)
    ensures a in path
    decreases |path|
  {
    if a != b {
      var p := LastEdge(c.f, path, b);
      assert p in c.preds[b] && IsFixed(c, t, b);
      AboveIsTransitive(c, t, a, t[b].value, p);
      AboveIsPassed(c, t, a, p, path[..|path| - 1]);
    }
  }

  /** A finished tree: above and dominates are the same. */
  lemma FinishedTreeIsExact(c: Ranked, t: Parents, a: nat, b: nat)
    requires c.Tree(t) && c.KeepsDominators(t) && Placed(t, b)
    requires forall x: nat :: Placed(t, x) ==> IsFixed(c, t, x)
    ensures c.Above(t, a, b) <==> c.f.Dominates(a, b)
  {
    if c.f.Dominates(a, b) {
      DominatorsAreAbove(c, t, a, b);
    }
    if c.Above(t, a, b) {
      forall path | c.f.LeadsTo(path, b) ensures a in path {
        AboveIsPassed(c, t, a, b, path);
      }
    }
  }
}
