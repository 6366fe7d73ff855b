/** The iterative depth-first search that orders a function's blocks. */
module DepthFirst {
  import opened Ordering
  import opened FlowGraphs

  /** A stack entry: a block to visit, or an open one, whose successors have been pushed above it. */
  datatype Visit = Visit(block: nat, expanded: bool)

  type Stack = seq<Visit>

  /** The open blocks, from the bottom of the stack up. */
  function Opened(stack: Stack): (r: seq<nat>) {
    if stack == [] then []
    else
      var below, top := Opened(stack[..|stack| - 1]), stack[|stack| - 1];
      if top.expanded then below + [top.block] else below
  }

  function Reversed(s: seq<nat>): (r: seq<nat>)
    ensures |r| == |s| && forall i :: 0 <= i < |s| ==> r[i] == s[|s| - 1 - i]
  {
    seq(|s|, i requires 0 <= i < |s| => s[|s| - 1 - i])
  }

  /** What the search has found so far, first what is finished last. */
  function Order(stack: Stack, postorder: seq<nat>): (r: seq<nat>) {
    Opened(stack) + Reversed(postorder)
  }

  /** The entry comes first and every other block behind one of its predecessors. */
  ghost predicate BehindPredecessors(f: Function, order: seq<nat>) {
    forall j :: 0 <= j < |order| ==> Follows(f, order[..j], order[j])
  }

  ghost predicate Follows(f: Function, earlier: seq<nat>, b: nat) {
    b == f.entry || exists p :: p in earlier && f.Edge(p, b)
  }

  /** `reached` marks the blocks of the order, which are reachable and occur once. */
  ghost predicate Marks(f: Function, reached: seq<bool>, order: seq<nat>) {
    && |reached| == |f.blocks| && NoDuplicates(order)
    && (forall b: nat :: b in order <==> b < |reached| && reached[b])
    && (forall b: nat :: b in order ==> f.Reachable(b))
  }

  /** Whatever waits is the entry, at the beginning, or a successor of a block that is open below it. */
  ghost predicate Pushed(f: Function, stack: Stack) {
    forall j :: 0 <= j < |stack| && !stack[j].expanded ==>
      f.IsBlock(stack[j].block)
      && (stack == [Visit(f.entry, false)]
          || exists p :: p in Opened(stack[..j]) && f.Edge(p, stack[j].block))
  }

  ghost predicate ReachedOrWaiting(f: Function, reached: seq<bool>, waiting: Stack, b: nat)
    requires |reached| == |f.blocks|
  {
    forall x: nat :: f.Edge(b, x) ==> reached[x] || Visit(x, false) in waiting
  }

  /** The successors of finished blocks have been reached, those of open blocks at least wait above. */
  ghost predicate Closed(f: Function, reached: seq<bool>, stack: Stack, postorder: seq<nat>)
    requires |reached| == |f.blocks|
  {
    && (forall b :: b in postorder ==> ReachedOrWaiting(f, reached, [], b))
    && (forall i :: 0 <= i < |stack| && stack[i].expanded ==>
          ReachedOrWaiting(f, reached, stack[i..], stack[i].block))
  }

  ghost predicate Searching(f: Function, reached: seq<bool>, stack: Stack, postorder: seq<nat>) {
    && f.Valid()
    && Marks(f, reached, Order(stack, postorder))
    && BehindPredecessors(f, Order(stack, postorder))
    && Pushed(f, stack)
    && Closed(f, reached, stack, postorder)
    && (stack == [Visit(f.entry, false)] || reached[f.entry])
  }

  function Unreached(reached: seq<bool>): (r: set<nat>) {
    set b: nat | b < |reached| && !reached[b]
  }

  lemma {:induction false} OpenedOfAppend(s: Stack, t: Stack)
    requires forall v :: v in t ==> !v.expanded
    ensures Opened(s + t) == Opened(s)
    decreases |t|
  {
    if t == [] {
      assert s + t == s;
    } else {
      assert (s + t)[..|s + t| - 1] == s + t[..|t| - 1];
      OpenedOfAppend(s, t[..|t| - 1]);
    }
  }

  lemma {:induction false} OpenedIsExpanded(s: Stack, b: nat)
    ensures b in Opened(s) <==> Visit(b, true) in s
  {
    if s != [] {
      OpenedIsExpanded(s[..|s| - 1], b);
      assert s == s[..|s| - 1] + [s[|s| - 1]];
    }
  }

  // ---------------------------------------------------------------------------
  // The three ways a popped entry is dealt with
  // ---------------------------------------------------------------------------

  lemma PoppedIsPushed(f: Function, stack: Stack)
    requires Pushed(f, stack) && stack != []
    ensures Pushed(f, stack[..|stack| - 1])
  {
    var rest := stack[..|stack| - 1];
    forall j | 0 <= j < |rest| && !rest[j].expanded
      ensures exists p :: p in Opened(rest[..j]) && f.Edge(p, rest[j].block)
    {
      assert rest[j] == stack[j] && rest[..j] == stack[..j];
      assert stack != [Visit(f.entry, false)];
    }
  }

  lemma PoppedIsClosed(f: Function, reached: seq<bool>, stack: Stack, postorder: seq<nat>)
    requires |reached| == |f.blocks| && Closed(f, reached, stack, postorder) && stack != []
    requires var top := stack[|stack| - 1]; top.expanded || (top.block < |reached| && reached[top.block])
    ensures Closed(f, reached, stack[..|stack| - 1], postorder)
  {
    var rest, top := stack[..|stack| - 1], stack[|stack| - 1];
    forall i | 0 <= i < |rest| && rest[i].expanded
      ensures ReachedOrWaiting(f, reached, rest[i..], rest[i].block)
    {
      assert ReachedOrWaiting(f, reached, stack[i..], stack[i].block);
      assert stack[i..] == rest[i..] + [top];
    }
  }

  /** An entry for a block that has been reached since is dropped. */
  lemma SkipKeepsSearching(f: Function, reached: seq<bool>, stack: Stack, postorder: seq<nat>)
    requires Searching(f, reached, stack, postorder) && stack != []
    requires !stack[|stack| - 1].expanded && reached[stack[|stack| - 1].block]
    ensures Searching(f, reached, stack[..|stack| - 1], postorder)
  {
    PoppedIsPushed(f, stack);
    PoppedIsClosed(f, reached, stack, postorder);
    assert Order(stack[..|stack| - 1], postorder) == Order(stack, postorder);
  }

  lemma OrderOfFinished(stack: Stack, postorder: seq<nat>)
    requires stack != [] && stack[|stack| - 1].expanded
    ensures Order(stack[..|stack| - 1], postorder + [stack[|stack| - 1].block]) == Order(stack, postorder)
  {
  }

  lemma FinishedIsClosed(f: Function, reached: seq<bool>, stack: Stack, postorder: seq<nat>)
    requires |reached| == |f.blocks| && Closed(f, reached, stack, postorder)
    requires stack != [] && stack[|stack| - 1].expanded
    ensures Closed(f, reached, stack[..|stack| - 1], postorder + [stack[|stack| - 1].block])
  {
    var top := stack[|stack| - 1];
    PoppedIsClosed(f, reached, stack, postorder);
    assert stack[|stack| - 1..] == [top];
    assert ReachedOrWaiting(f, reached, [top], top.block);
    assert ReachedOrWaiting(f, reached, [], top.block);
  }

  /** An open block with nothing above it is finished. */
  lemma FinishKeepsSearching(f: Function, reached: seq<bool>, stack: Stack, postorder: seq<nat>)
    requires Searching(f, reached, stack, postorder) && stack != [] && stack[|stack| - 1].expanded
    ensures Searching(f, reached, stack[..|stack| - 1], postorder + [stack[|stack| - 1].block])
  {
    PoppedIsPushed(f, stack);
    OrderOfFinished(stack, postorder);
    FinishedIsClosed(f, reached, stack, postorder);
  }

  /** The successors of a block that have not been reached, as they are pushed. */
  ghost predicate AreWaiting(f: Function, reached: seq<bool>, waiting: Stack, b: nat)
    requires |reached| == |f.blocks|
  {
    && (forall v :: v in waiting ==> !v.expanded && f.Edge(b, v.block))
    && ReachedOrWaiting(f, reached, waiting, b)
  }

  lemma FollowsMore(f: Function, earlier: seq<nat>, more: seq<nat>, b: nat)
    requires Follows(f, earlier, b) && forall p :: p in earlier ==> p in more
    ensures Follows(f, more, b)
  {
  }

  lemma DiscoverKeepsOrder(f: Function, order: seq<nat>, k: nat, b: nat)
    requires k <= |order| && BehindPredecessors(f, order) && Follows(f, order[..k], b)
    ensures BehindPredecessors(f, order[..k] + [b] + order[k..])
  {
    var next := order[..k] + [b] + order[k..];
    forall j | 0 <= j < |next| ensures Follows(f, next[..j], next[j]) {
      if j <= k {
        assert next[..j] == order[..j];
      } else {
        assert next[j] == order[j - 1] && next[..j] == order[..k] + [b] + order[k..j - 1];
        assert order[..j - 1] == order[..k] + order[k..j - 1];
        FollowsMore(f, order[..j - 1], next[..j], next[j]);
      }
    }
  }

  lemma DiscoverKeepsMarks(f: Function, reached: seq<bool>, order: seq<nat>, k: nat, b: nat)
    requires k <= |order| && Marks(f, reached, order) && f.IsBlock(b) && !reached[b] && f.Reachable(b)
    ensures Marks(f, reached[b := true], order[..k] + [b] + order[k..])
  {
    var next := order[..k] + [b] + order[k..];
    assert order == order[..k] + order[k..];
    assert b !in order;
    forall x: nat ensures x in next <==> x in order || x == b {
    }
  }

  lemma DiscoverKeepsPushed(f: Function, stack: Stack, waiting: Stack)
    requires Pushed(f, stack) && stack != [] && !stack[|stack| - 1].expanded
    requires var b := stack[|stack| - 1].block;
      f.IsBlock(b) && forall v :: v in waiting ==> !v.expanded && f.Edge(b, v.block)
    ensures Pushed(f, stack[..|stack| - 1] + [Visit(stack[|stack| - 1].block, true)] + waiting)
  {
    var rest, b := stack[..|stack| - 1], stack[|stack| - 1].block;
    var base := rest + [Visit(b, true)];
    var next := base + waiting;
    PoppedIsPushed(f, stack);
    forall j | 0 <= j < |next| && !next[j].expanded
      ensures exists p :: p in Opened(next[..j]) && f.Edge(p, next[j].block)
    {
      if j < |rest| {
        assert next[j] == rest[j] && next[..j] == rest[..j] && stack != [Visit(f.entry, false)];
        assert stack[j] == rest[j] && stack[..j] == rest[..j];
      } else {
        assert next[j] == waiting[j - |base|] && next[..j] == base + waiting[..j - |base|];
        OpenedOfAppend(base, waiting[..j - |base|]);
        assert base[..|base| - 1] == rest && b in Opened(base);
        assert next[j] in waiting;
      }
    }
  }

  lemma DiscoverKeepsClosed(f: Function, reached: seq<bool>, stack: Stack, postorder: seq<nat>, waiting: Stack)
    requires |reached| == |f.blocks| && Closed(f, reached, stack, postorder)
    requires stack != [] && !stack[|stack| - 1].expanded
    requires var b := stack[|stack| - 1].block; b < |reached| && AreWaiting(f, reached[b := true], waiting, b)
    ensures var b := stack[|stack| - 1].block;
      Closed(f, reached[b := true], stack[..|stack| - 1] + [Visit(b, true)] + waiting, postorder)
  {
    var rest, b := stack[..|stack| - 1], stack[|stack| - 1].block;
    var next, now := rest + [Visit(b, true)] + waiting, reached[b := true];
    forall x | x in postorder ensures ReachedOrWaiting(f, now, [], x) {
      assert ReachedOrWaiting(f, reached, [], x);
    }
    forall i | 0 <= i < |next| && next[i].expanded ensures ReachedOrWaiting(f, now, next[i..], next[i].block) {
      if i < |rest| {
        assert ReachedOrWaiting(f, reached, stack[i..], stack[i].block);
        assert stack[i..] == rest[i..] + [Visit(b, false)];
        assert next[i..] == rest[i..] + [Visit(b, true)] + waiting;
      } else if i == |rest| {
        assert next[i..] == [Visit(b, true)] + waiting;
      }
    }
  }

  /** A block that had not been reached is opened, its successors waiting above it. */
  lemma DiscoverKeepsSearching(f: Function, reached: seq<bool>, stack: Stack, postorder: seq<nat>, waiting: Stack)
    requires Searching(f, reached, stack, postorder) && stack != [] && !stack[|stack| - 1].expanded
    requires var b := stack[|stack| - 1].block;
      f.IsBlock(b) && !reached[b] && AreWaiting(f, reached[b := true], waiting, b)
    ensures var b := stack[|stack| - 1].block;
      Searching(f, reached[b := true], stack[..|stack| - 1] + [Visit(b, true)] + waiting, postorder)
  {
    var rest, b := stack[..|stack| - 1], stack[|stack| - 1].block;
    var open := Opened(stack);
    var base := rest + [Visit(b, true)];
    assert base[..|base| - 1] == rest;
    OpenedOfAppend(base, waiting);
    var order := Order(stack, postorder);
    assert order[..|open|] == open && order[|open|..] == Reversed(postorder);
    assert Order(base + waiting, postorder) == order[..|open|] + [b] + order[|open|..];
    if stack == [Visit(f.entry, false)] {
      EntryIsReachable(f);
    } else {
      var p :| p in Opened(stack[..|stack| - 1]) && f.Edge(p, b);
      assert p in order;
      EdgeIsReachable(f, p, b);
    }
    DiscoverKeepsOrder(f, order, |open|, b);
    DiscoverKeepsMarks(f, reached, order, |open|, b);
    DiscoverKeepsPushed(f, stack, waiting);
    DiscoverKeepsClosed(f, reached, stack, postorder, waiting);
  }

  // ---------------------------------------------------------------------------
  // The search
  // ---------------------------------------------------------------------------

  /** Pushes the successors that have not been reached. */
  method PushSuccessors(f: Function, reached: seq<bool>, stack: Stack, b: nat)
    returns (next: Stack, ghost waiting: Stack)
    requires |reached| == |f.blocks| && f.IsBlock(b)
    ensures next == stack + waiting && AreWaiting(f, reached, waiting, b)
  {
    next, waiting := stack, [];
    var succs := Successors(f.blocks[b]);
    for i := 0 to |succs|
      invariant next == stack + waiting
      invariant forall v :: v in waiting ==> !v.expanded && f.Edge(b, v.block)
      invariant forall x: nat :: x in succs[..i] && f.IsBlock(x) ==> reached[x] || Visit(x, false) in waiting
    {
      assert succs[..i + 1] == succs[..i] + [succs[i]];
      if succs[i] < |reached| && !reached[succs[i]] {
        next := next + [Visit(succs[i], false)];
        waiting := waiting + [Visit(succs[i], false)];
      }
    }
    assert succs[..|succs|] == succs;
  }

  /** What the search is for: the reachable blocks, each once, the entry last and every other block
      before one of its predecessors. */
  ghost predicate IsPostorder(f: Function, postorder: seq<nat>, reached: seq<bool>) {
    && |reached| == |f.blocks| && NoDuplicates(postorder)
    && (forall b: nat :: b in postorder <==> f.Reachable(b))
    && (forall b: nat :: b < |reached| ==> (reached[b] <==> f.Reachable(b)))
    && BehindPredecessors(f, Reversed(postorder))
  }

  lemma SearchedIsPostorder(f: Function, reached: seq<bool>, postorder: seq<nat>)
    requires Searching(f, reached, [], postorder)
    ensures IsPostorder(f, postorder, reached)
  {
    assert Order([], postorder) == Reversed(postorder);
    forall b: nat ensures b in Reversed(postorder) <==> b in postorder {
      ReversedHolds(postorder, b);
    }
    ReversedOnce(postorder);
    forall b: nat | f.Reachable(b) ensures b in postorder {
      ReachableIsFinished(f, reached, postorder, b);
    }
  }

  lemma ReachableIsFinished(f: Function, reached: seq<bool>, postorder: seq<nat>, b: nat)
    requires f.Reachable(b) && |reached| == |f.blocks| && Closed(f, reached, [], postorder)
    requires f.entry in postorder && forall x: nat :: x < |reached| && reached[x] ==> x in postorder
    ensures b in postorder
  {
    var path :| f.LeadsTo(path, b);
    forall x, y: nat | x in Elements(postorder) && f.Edge(x, y) ensures y in Elements(postorder) {
      assert ReachedOrWaiting(f, reached, [], x);
    }
    ClosedHoldsPath(f, Elements(postorder), path);
  }

  lemma ReversedOnce(s: seq<nat>)
    requires NoDuplicates(Reversed(s))
    ensures NoDuplicates(s)
  {
    forall i, j | 0 <= i < j < |s| ensures s[i] != s[j] {
      assert Reversed(s)[|s| - 1 - j] == s[j] && Reversed(s)[|s| - 1 - i] == s[i];
    }
  }

  lemma ReversedHolds(s: seq<nat>, b: nat)
    ensures b in Reversed(s) <==> b in s
  {
    if b in s {
      var i :| 0 <= i < |s| && s[i] == b;
      assert Reversed(s)[|s| - 1 - i] == b;
    }
  }

  lemma FewerUnreached(reached: seq<bool>, b: nat)
    requires b < |reached| && !reached[b]
    ensures Unreached(reached[b := true]) < Unreached(reached)
  {
    assert b in Unreached(reached) && b !in Unreached(reached[b := true]);
  }

  /** The first loop of `Dominators::compute`. */
  method Postorder(f: Function) returns (postorder: seq<nat>, reached: seq<bool>)
    requires f.Valid()
    ensures IsPostorder(f, postorder, reached)
  {
    postorder := [];
    reached := seq(|f.blocks|, _ => false);
    var stack: Stack := [Visit(f.entry, false)];
    assert Opened(stack) == [] by { assert stack[..0] == []; }
    while stack != []
      invariant Searching(f, reached, stack, postorder)
      decreases Unreached(reached), |stack|
    {
      var top := stack[|stack| - 1];
      var rest := stack[..|stack| - 1];
      if top.expanded {
        FinishKeepsSearching(f, reached, stack, postorder);
        postorder := postorder + [top.block];
        stack := rest;
      } else if reached[top.block] {
        SkipKeepsSearching(f, reached, stack, postorder);
        stack := rest;
      } else {
        FewerUnreached(reached, top.block);
        ghost var before, was := stack, reached;
        reached := reached[top.block := true];
        ghost var waiting;
        stack, waiting := PushSuccessors(f, reached, rest + [Visit(top.block, true)], top.block);
        DiscoverKeepsSearching(f, was, before, postorder, waiting);
      }
    }
    SearchedIsPostorder(f, reached, postorder);
  }
}
