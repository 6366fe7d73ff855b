/** The depth-first numbering of a tree of parents, and what its intervals say. */
module TreeIntervals {
  import opened Wrappers
  import opened Ordering
  import opened FlowGraphs
  import opened DepthFirst
  import opened DominatorTrees

  predicate IsChild(c: Ranked, t: Parents, b: nat, p: nat) {
    Placed(t, b) && b != c.f.entry && t[b] == Some(p)
  }

  ghost predicate AreChildren(c: Ranked, t: Parents, children: seq<seq<nat>>) {
    && |children| == |t|
    && forall p: nat :: p < |children| ==> ListsChildren(c, t, children[p], p)
  }

  ghost predicate ListsChildren(c: Ranked, t: Parents, kids: seq<nat>, p: nat) {
    NoDuplicates(kids) && forall b: nat :: b in kids <==> IsChild(c, t, b, p)
  }

  predicate OnStack(s: Stack, b: nat) {
    Visit(b, true) in s || Visit(b, false) in s
  }

  // ---------------------------------------------------------------------------
  // A numbering under way: open are the blocks that have an entry time only
  // ---------------------------------------------------------------------------

  ghost predicate Distinct(stack: Stack) {
    forall i, j :: 0 <= i < j < |stack| ==> stack[i].block != stack[j].block
  }

  /** What is on the stack is placed and not done, and expanded when it is open. */
  ghost predicate Coloured(t: Parents, stack: Stack, seen: set<nat>, done: set<nat>) {
    forall v :: v in stack ==>
      Placed(t, v.block) && v.block !in done && (v.expanded <==> v.block in seen)
  }

  /** Whoever is open is above everything that lies on top of it. */
  ghost predicate Lined(c: Ranked, t: Parents, stack: Stack)
    requires c.Tree(t) && forall v :: v in stack ==> Placed(t, v.block)
  {
    forall i, j :: 0 <= i < j < |stack| && stack[i].expanded ==> c.Above(t, stack[i].block, stack[j].block)
  }

  /** The parent of whoever is on the stack is open. */
  ghost predicate ParentsOpen(c: Ranked, t: Parents, stack: Stack, seen: set<nat>, done: set<nat>) {
    forall v, p: nat :: v in stack && IsChild(c, t, v.block, p) ==> p in seen && p !in done
  }

  ghost predicate OpenOnStack(stack: Stack, seen: set<nat>, done: set<nat>) {
    forall x :: x in seen && x !in done ==> Visit(x, true) in stack
  }

  ghost predicate SeenDownwards(c: Ranked, t: Parents, seen: set<nat>, done: set<nat>) {
    && done <= seen
    && (forall x :: x in seen ==> Placed(t, x))
    && (forall b: nat, p: nat :: b in seen && IsChild(c, t, b, p) ==> p in seen)
  }

  /** The children of whoever is done are done; those of whoever is open are done or on top of it. */
  ghost predicate Cared(c: Ranked, t: Parents, stack: Stack, done: set<nat>) {
    && (forall b: nat, p: nat :: p in done && IsChild(c, t, b, p) ==> b in done)
    && (forall i, b: nat :: 0 <= i < |stack| && stack[i].expanded && IsChild(c, t, b, stack[i].block) ==>
          b in done || OnStack(stack[i + 1..], b))
  }

  datatype Times = Times(tin: seq<nat>, tout: seq<nat>, clock: nat) {
    function In(x: nat): (r: nat) { if x < |tin| then tin[x] else 0 }
    function Out(x: nat): (r: nat) { if x < |tout| then tout[x] else 0 }

    function Entered(b: nat): (r: Times) requires b < |tin| { Times(tin[b := clock], tout, clock + 1) }
    function Left(b: nat): (r: Times) requires b < |tout| { Times(tin, tout[b := clock], clock + 1) }
  }

  /** Times are past ones, and a child's lie between its parent's. */
  ghost predicate Timed(c: Ranked, t: Parents, seen: set<nat>, done: set<nat>, w: Times) {
    && |w.tin| == |w.tout| == |t|
    && (forall x :: x in seen ==> w.In(x) < w.clock)
    && (forall x :: x in done ==> w.In(x) < w.Out(x) < w.clock)
    && (forall b: nat, p: nat :: b in seen && IsChild(c, t, b, p) ==> w.In(p) < w.In(b))
    && (forall b: nat, p: nat :: p in done && IsChild(c, t, b, p) ==> w.Out(b) < w.Out(p))
  }

  /** Whoever was entered first is above the other, or was left before the other was entered. */
  ghost predicate Nested(c: Ranked, t: Parents, seen: set<nat>, done: set<nat>, w: Times)
    requires c.Tree(t) && forall x :: x in seen ==> Placed(t, x)
  {
    forall a, b :: a in seen && b in seen && w.In(a) <= w.In(b) ==>
      c.Above(t, a, b) || (a in done && w.Out(a) < w.In(b))
  }

  ghost predicate Numbering(c: Ranked, t: Parents, stack: Stack, seen: set<nat>, done: set<nat>, w: Times) {
    && c.Tree(t) && Distinct(stack) && Coloured(t, stack, seen, done) && Lined(c, t, stack)
    && ParentsOpen(c, t, stack, seen, done) && OpenOnStack(stack, seen, done)
    && SeenDownwards(c, t, seen, done) && Cared(c, t, stack, done)
    && (stack == [Visit(c.f.entry, false)] || c.f.entry in seen)
    && Timed(c, t, seen, done, w) && Nested(c, t, seen, done, w)
  }

  // ---------------------------------------------------------------------------
  // Leaving a block
  // ---------------------------------------------------------------------------

  lemma TopIsElsewhere(stack: Stack)
    requires Distinct(stack) && stack != []
    ensures forall v :: v in stack[..|stack| - 1] ==> v in stack && v.block != stack[|stack| - 1].block
    ensures forall v :: v in stack && v != stack[|stack| - 1] ==> v in stack[..|stack| - 1]
  {
    assert stack == stack[..|stack| - 1] + [stack[|stack| - 1]];
  }

  lemma ChildrenAreDone(c: Ranked, t: Parents, stack: Stack, done: set<nat>)
    requires Cared(c, t, stack, done) && stack != [] && stack[|stack| - 1].expanded
    ensures forall b: nat :: IsChild(c, t, b, stack[|stack| - 1].block) ==> b in done
  {
    assert stack[|stack|..] == [];
  }

  lemma LeaveKeepsStack(c: Ranked, t: Parents, stack: Stack, seen: set<nat>, done: set<nat>)
    requires c.Tree(t) && Distinct(stack) && Coloured(t, stack, seen, done) && Lined(c, t, stack)
    requires ParentsOpen(c, t, stack, seen, done) && OpenOnStack(stack, seen, done)
    requires Cared(c, t, stack, done) && stack != [] && stack[|stack| - 1].expanded
    ensures var rest, b := stack[..|stack| - 1], stack[|stack| - 1].block;
      && Distinct(rest) && Coloured(t, rest, seen, done + {b}) && Lined(c, t, rest)
      && ParentsOpen(c, t, rest, seen, done + {b}) && OpenOnStack(rest, seen, done + {b})
  {
    TopIsElsewhere(stack);
    ChildrenAreDone(c, t, stack, done);
  }

  lemma LeaveKeepsCare(c: Ranked, t: Parents, stack: Stack, done: set<nat>)
    requires Cared(c, t, stack, done) && stack != [] && stack[|stack| - 1].expanded
    ensures Cared(c, t, stack[..|stack| - 1], done + {stack[|stack| - 1].block})
  {
    var rest, b := stack[..|stack| - 1], stack[|stack| - 1].block;
    ChildrenAreDone(c, t, stack, done);
    forall i, x: nat | 0 <= i < |rest| && rest[i].expanded && IsChild(c, t, x, rest[i].block)
      ensures x in done + {b} || OnStack(rest[i + 1..], x)
    {
      assert stack[i + 1..] == rest[i + 1..] + [stack[|stack| - 1]];
    }
  }

  lemma LeaveKeepsTimes(c: Ranked, t: Parents, seen: set<nat>, done: set<nat>, w: Times, b: nat)
    requires c.Tree(t) && SeenDownwards(c, t, seen, done)
    requires Timed(c, t, seen, done, w) && Nested(c, t, seen, done, w)
    requires b in seen && b !in done && forall x: nat :: IsChild(c, t, x, b) ==> x in done
    requires forall x: nat, p: nat :: p in done && IsChild(c, t, x, p) ==> x in done
    ensures SeenDownwards(c, t, seen, done + {b})
    ensures Timed(c, t, seen, done + {b}, w.Left(b)) && Nested(c, t, seen, done + {b}, w.Left(b))
  {
  }

  /** A block with nothing on top of it is left. */
  lemma LeaveKeepsNumbering(c: Ranked, t: Parents, stack: Stack, seen: set<nat>, done: set<nat>, w: Times)
    requires Numbering(c, t, stack, seen, done, w) && stack != [] && stack[|stack| - 1].expanded
    ensures var b := stack[|stack| - 1].block;
      b < |t| && Numbering(c, t, stack[..|stack| - 1], seen, done + {b}, w.Left(b))
  {
    LeaveKeepsStack(c, t, stack, seen, done);
    LeaveKeepsCare(c, t, stack, done);
    ChildrenAreDone(c, t, stack, done);
    LeaveKeepsTimes(c, t, seen, done, w, stack[|stack| - 1].block);
  }

  // ---------------------------------------------------------------------------
  // Entering a block
  // ---------------------------------------------------------------------------

  /** The children of a block as they are pushed. */
  function Waiting(kids: seq<nat>): (r: Stack)
    ensures |r| == |kids| && forall i :: 0 <= i < |r| ==> r[i] == Visit(kids[i], false)
  {
    seq(|kids|, i requires 0 <= i < |kids| => Visit(kids[i], false))
  }

  function Entering(stack: Stack, kids: seq<nat>): (r: Stack)
    requires stack != []
  {
    stack[..|stack| - 1] + [Visit(stack[|stack| - 1].block, true)] + Waiting(kids)
  }

  lemma InEntering(stack: Stack, kids: seq<nat>, v: Visit)
    requires stack != []
    ensures v in Entering(stack, kids) <==>
      v in stack[..|stack| - 1] || v == Visit(stack[|stack| - 1].block, true) || (v.block in kids && !v.expanded)
  {
    if v.block in kids && !v.expanded {
      var i :| 0 <= i < |kids| && kids[i] == v.block;
      assert Waiting(kids)[i] == v;
    }
  }

  /** Children of a block that is yet to be entered are new. */
  lemma KidsAreNew(c: Ranked, t: Parents, stack: Stack, seen: set<nat>, done: set<nat>, kids: seq<nat>, b: nat)
    requires c.Tree(t) && ListsChildren(c, t, kids, b) && b !in seen
    requires ParentsOpen(c, t, stack, seen, done) && SeenDownwards(c, t, seen, done)
    ensures forall k :: k in kids ==> Placed(t, k) && k != b && k !in seen && k !in done
    ensures forall v :: v in stack ==> v.block !in kids
  {
    forall k | k in kids ensures k != b {
      assert c.ParentFits(t, k);
    }
  }

  lemma EnterKeepsColours(c: Ranked, t: Parents, stack: Stack, seen: set<nat>, done: set<nat>, kids: seq<nat>)
    requires c.Tree(t) && Distinct(stack) && Coloured(t, stack, seen, done) && OpenOnStack(stack, seen, done)
    requires ParentsOpen(c, t, stack, seen, done) && SeenDownwards(c, t, seen, done)
    requires stack != [] && !stack[|stack| - 1].expanded && ListsChildren(c, t, kids, stack[|stack| - 1].block)
    ensures var b := stack[|stack| - 1].block;
      && Coloured(t, Entering(stack, kids), seen + {b}, done)
      && OpenOnStack(Entering(stack, kids), seen + {b}, done)
      && ParentsOpen(c, t, Entering(stack, kids), seen + {b}, done)
      && SeenDownwards(c, t, seen + {b}, done)
  {
    var b := stack[|stack| - 1].block;
    TopIsElsewhere(stack);
    KidsAreNew(c, t, stack, seen, done, kids, b);
    forall v ensures v in Entering(stack, kids) <==>
      v in stack[..|stack| - 1] || v == Visit(b, true) || (v.block in kids && !v.expanded)
    {
      InEntering(stack, kids, v);
    }
  }

  lemma EnterKeepsDistinct(c: Ranked, t: Parents, stack: Stack, seen: set<nat>, done: set<nat>, kids: seq<nat>)
    requires c.Tree(t) && Distinct(stack)
    requires ParentsOpen(c, t, stack, seen, done) && SeenDownwards(c, t, seen, done)
    requires stack != [] && stack[|stack| - 1].block !in seen
    requires ListsChildren(c, t, kids, stack[|stack| - 1].block)
    ensures Distinct(Entering(stack, kids))
  {
    var next, k := Entering(stack, kids), |stack|;
    KidsAreNew(c, t, stack, seen, done, kids, stack[k - 1].block);
    forall i, j | 0 <= i < j < |next| ensures next[i].block != next[j].block {
      if j >= k {
        assert next[j].block == kids[j - k];
        if i < k { assert next[i].block == stack[i].block && stack[i] in stack; }
      }
    }
  }

  lemma AboveChild(c: Ranked, t: Parents, a: nat, b: nat, kid: nat)
    requires c.Tree(t) && Placed(t, b) && IsChild(c, t, kid, b) && c.Above(t, a, b)
    ensures c.Above(t, a, kid)
  {
    assert c.ParentFits(t, kid);
  }

  lemma EnterKeepsLine(c: Ranked, t: Parents, stack: Stack, kids: seq<nat>)
    requires c.Tree(t) && (forall v :: v in stack ==> Placed(t, v.block)) && Lined(c, t, stack)
    requires stack != [] && !stack[|stack| - 1].expanded && ListsChildren(c, t, kids, stack[|stack| - 1].block)
    ensures forall v :: v in Entering(stack, kids) ==> Placed(t, v.block)
    ensures Lined(c, t, Entering(stack, kids))
  {
    var next, k, b := Entering(stack, kids), |stack|, stack[|stack| - 1].block;
    forall v | v in next ensures Placed(t, v.block) {
      InEntering(stack, kids, v);
    }
    forall i, j | 0 <= i < j < |next| && next[i].expanded ensures c.Above(t, next[i].block, next[j].block) {
      assert i < k && next[i].block == stack[i].block;
      assert i < k - 1 ==> stack[i].expanded;
      if j < k {
        assert next[j].block == stack[j].block;
      } else {
        assert next[j].block == kids[j - k] && kids[j - k] in kids;
        AboveChild(c, t, stack[i].block, b, kids[j - k]);
      }
    }
  }

  lemma EnterKeepsCare(c: Ranked, t: Parents, stack: Stack, done: set<nat>, kids: seq<nat>)
    requires Cared(c, t, stack, done)
    requires stack != [] && !stack[|stack| - 1].expanded && ListsChildren(c, t, kids, stack[|stack| - 1].block)
    ensures Cared(c, t, Entering(stack, kids), done)
  {
    var next, k, b := Entering(stack, kids), |stack|, stack[|stack| - 1].block;
    forall i, x: nat | 0 <= i < |next| && next[i].expanded && IsChild(c, t, x, next[i].block)
      ensures x in done || OnStack(next[i + 1..], x)
    {
      if i < k - 1 {
        assert next[i] == stack[i] && stack[i + 1..] == stack[i + 1..k - 1] + [Visit(b, false)];
        assert next[i + 1..] == stack[i + 1..k - 1] + [Visit(b, true)] + Waiting(kids);
      } else {
        assert i == k - 1 && next[i + 1..] == Waiting(kids);
        var j :| 0 <= j < |kids| && kids[j] == x;
        assert Waiting(kids)[j] == Visit(x, false);
      }
    }
  }

  /** Whoever is open is above the next block to be entered. */
  lemma OpenIsAbove(c: Ranked, t: Parents, stack: Stack, seen: set<nat>, done: set<nat>, a: nat)
    requires c.Tree(t) && Coloured(t, stack, seen, done) && Lined(c, t, stack) && OpenOnStack(stack, seen, done)
    requires stack != [] && !stack[|stack| - 1].expanded && a in seen && a !in done
    ensures Placed(t, stack[|stack| - 1].block) && c.Above(t, a, stack[|stack| - 1].block)
  {
    assert stack[|stack| - 1] in stack;
    var i :| 0 <= i < |stack| && stack[i] == Visit(a, true);
    assert i < |stack| - 1;
  }

  lemma EnterKeepsTimed(c: Ranked, t: Parents, seen: set<nat>, done: set<nat>, w: Times, b: nat)
    requires SeenDownwards(c, t, seen, done) && Timed(c, t, seen, done, w)
    requires Placed(t, b) && b !in seen && forall p: nat :: IsChild(c, t, b, p) ==> p in seen && p != b
    ensures Timed(c, t, seen + {b}, done, w.Entered(b))
  {
  }

  lemma EnterKeepsNested(c: Ranked, t: Parents, seen: set<nat>, done: set<nat>, w: Times, b: nat)
    requires c.Tree(t) && SeenDownwards(c, t, seen, done)
    requires Timed(c, t, seen, done, w) && Nested(c, t, seen, done, w)
    requires Placed(t, b) && b !in seen && forall a :: a in seen && a !in done ==> c.Above(t, a, b)
    ensures Nested(c, t, seen + {b}, done, w.Entered(b))
  {
  }

  lemma EnterKeepsTimes(c: Ranked, t: Parents, stack: Stack, seen: set<nat>, done: set<nat>, w: Times)
    requires c.Tree(t) && Coloured(t, stack, seen, done) && Lined(c, t, stack) && OpenOnStack(stack, seen, done)
    requires ParentsOpen(c, t, stack, seen, done) && SeenDownwards(c, t, seen, done)
    requires Timed(c, t, seen, done, w) && Nested(c, t, seen, done, w)
    requires stack != [] && !stack[|stack| - 1].expanded
    ensures var b := stack[|stack| - 1].block;
      && Placed(t, b) && b !in seen
      && Timed(c, t, seen + {b}, done, w.Entered(b)) && Nested(c, t, seen + {b}, done, w.Entered(b))
  {
    var b := stack[|stack| - 1].block;
    assert stack[|stack| - 1] in stack;
    EnterKeepsTimed(c, t, seen, done, w, b);
    forall a | a in seen && a !in done ensures c.Above(t, a, b) {
      OpenIsAbove(c, t, stack, seen, done, a);
    }
    EnterKeepsNested(c, t, seen, done, w, b);
  }

  /** A block that is popped for the first time is entered, its children on top of it. */
  lemma EnterKeepsNumbering(c: Ranked, t: Parents, stack: Stack, seen: set<nat>, done: set<nat>, w: Times,
                            kids: seq<nat>)
    requires Numbering(c, t, stack, seen, done, w) && stack != [] && !stack[|stack| - 1].expanded
    requires ListsChildren(c, t, kids, stack[|stack| - 1].block)
    ensures var b := stack[|stack| - 1].block;
      && b < |t| && b !in seen
      && Numbering(c, t, Entering(stack, kids), seen + {b}, done, w.Entered(b))
  {
    assert stack[|stack| - 1] in stack;
    EnterKeepsColours(c, t, stack, seen, done, kids);
    EnterKeepsDistinct(c, t, stack, seen, done, kids);
    EnterKeepsLine(c, t, stack, kids);
    EnterKeepsCare(c, t, stack, done, kids);
    EnterKeepsTimes(c, t, stack, seen, done, w);
  }

  // ---------------------------------------------------------------------------
  // The finished numbering
  // ---------------------------------------------------------------------------

  /** Intervals lie in one another exactly as blocks lie above one another. */
  ghost predicate AreIntervals(c: Ranked, t: Parents, tin: seq<nat>, tout: seq<nat>) {
    && c.Tree(t) && |tin| == |tout| == |t|
    && forall a: nat, b: nat :: Placed(t, a) && Placed(t, b) ==>
         (c.Above(t, a, b) <==> tin[a] <= tin[b] && tout[b] <= tout[a])
  }

  lemma {:induction false} PlacedIsDone(c: Ranked, t: Parents, seen: set<nat>, done: set<nat>, w: Times, b: nat)
    requires Numbering(c, t, [], seen, done, w) && Placed(t, b)
    ensures b in done
    decreases c.rank[b]
  {
    if b != c.f.entry {
      assert c.ParentFits(t, b);
      PlacedIsDone(c, t, seen, done, w, t[b].value);
      assert IsChild(c, t, b, t[b].value);
    }
  }

  lemma {:induction false} AboveEncloses(c: Ranked, t: Parents, seen: set<nat>, done: set<nat>, w: Times,
                                         a: nat, b: nat)
    requires Numbering(c, t, [], seen, done, w) && Placed(t, b) && c.Above(t, a, b)
    ensures w.In(a) <= w.In(b) && w.Out(b) <= w.Out(a)
    decreases c.rank[b]
  {
    if a != b {
      AboveEncloses(c, t, seen, done, w, a, t[b].value);
      PlacedIsDone(c, t, seen, done, w, b);
      PlacedIsDone(c, t, seen, done, w, t[b].value);
      assert IsChild(c, t, b, t[b].value);
    }
  }

  lemma FinishedAreIntervals(c: Ranked, t: Parents, seen: set<nat>, done: set<nat>, w: Times)
    requires Numbering(c, t, [], seen, done, w)
    ensures AreIntervals(c, t, w.tin, w.tout)
  {
    forall a: nat, b: nat | Placed(t, a) && Placed(t, b)
      ensures c.Above(t, a, b) <==> w.tin[a] <= w.tin[b] && w.tout[b] <= w.tout[a]
    {
      PlacedIsDone(c, t, seen, done, w, a);
      PlacedIsDone(c, t, seen, done, w, b);
      if c.Above(t, a, b) { AboveEncloses(c, t, seen, done, w, a, b); }
      assert w.In(a) == w.tin[a] && w.In(b) == w.tin[b] && w.Out(a) == w.tout[a] && w.Out(b) == w.tout[b];
    }
  }

  function Unseen(t: Parents, seen: set<nat>): (r: set<nat>) {
    set b: nat | b < |t| && b !in seen
  }

  lemma EntryStarts(c: Ranked, t: Parents, w: Times)
    requires c.Tree(t) && |w.tin| == |w.tout| == |t|
    ensures Numbering(c, t, [Visit(c.f.entry, false)], {}, {}, w)
  {
  }

  method PushChildren(stack: Stack, kids: seq<nat>) returns (next: Stack)
    ensures next == stack + Waiting(kids)
  {
    next := stack;
    for i := 0 to |kids|
      invariant next == stack + Waiting(kids)[..i]
    {
      next := next + [Visit(kids[i], false)];
    }
    assert Waiting(kids)[..|kids|] == Waiting(kids);
  }

  /** A block is popped: it is entered or left. */
  method Pop(c: Ranked, t: Parents, children: seq<seq<nat>>, stack: Stack, w: Times,
             ghost seen: set<nat>, ghost done: set<nat>)
    returns (next: Stack, u: Times, ghost seen': set<nat>, ghost done': set<nat>)
    requires AreChildren(c, t, children) && stack != [] && Numbering(c, t, stack, seen, done, w)
    ensures Numbering(c, t, next, seen', done', u)
    ensures Unseen(t, seen') < Unseen(t, seen) || (seen' == seen && |next| < |stack|)
  {
    var top := stack[|stack| - 1];
    var rest := stack[..|stack| - 1];
    if top.expanded {
      LeaveKeepsNumbering(c, t, stack, seen, done, w);
      next, u, seen', done' := rest, w.Left(top.block), seen, done + {top.block};
    } else {
      assert top in stack;
      EnterKeepsNumbering(c, t, stack, seen, done, w, children[top.block]);
      next := PushChildren(rest + [Visit(top.block, true)], children[top.block]);
      u, seen', done' := w.Entered(top.block), seen + {top.block}, done;
      assert top.block in Unseen(t, seen) && top.block !in Unseen(t, seen');
    }
  }

  /** The last loop of `Dominators::compute`. */
  method Number(c: Ranked, t: Parents, children: seq<seq<nat>>) returns (w: Times)
    requires c.Tree(t) && AreChildren(c, t, children)
    ensures AreIntervals(c, t, w.tin, w.tout)
  {
    w := Times(seq(|t|, _ => 0), seq(|t|, _ => 0), 0);
    var stack: Stack := [Visit(c.f.entry, false)];
    ghost var seen: set<nat>, done: set<nat> := {}, {};
    EntryStarts(c, t, w);
    while stack != []
      invariant Numbering(c, t, stack, seen, done, w)
      decreases Unseen(t, seen), |stack|
    {
      stack, w, seen, done := Pop(c, t, children, stack, w, seen, done);
    }
    FinishedAreIntervals(c, t, seen, done, w);
  }
}
