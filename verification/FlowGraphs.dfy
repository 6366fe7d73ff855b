/** Control flow graphs of functions: blocks, paths from the entry, and what dominance means on them. */
module FlowGraphs {

  /** What ends a block, with the blocks it may go to. */
  datatype Terminator =
    | Return | Throw | Unreachable | Deopt
    | Jump(target: nat)
    | Branch(trueBlock: nat, falseBlock: nat)
    | Switch(cases: seq<nat>, defaultBlock: nat, exitBlock: nat)

  /** `for_each_successor`: a target may be visited more than once. */
  function Successors(t: Terminator): (r: seq<nat>) {
    match t
    case Jump(target) => [target]
    case Branch(trueBlock, falseBlock) => [trueBlock, falseBlock]
    case Switch(cases, defaultBlock, exitBlock) => cases + [defaultBlock, exitBlock]
    case _ => []
  }

  /** A function's blocks by id, each known by its terminator. */
  datatype Function = Function(blocks: seq<Terminator>, entry: nat) {
    predicate Valid() { entry < |blocks| }

    predicate IsBlock(b: nat) { b < |blocks| }

    /** Targets that are no blocks are ignored. */
    predicate Edge(a: nat, b: nat) {
      a < |blocks| && b < |blocks| && b in Successors(blocks[a])
    }

    ghost predicate IsPath(path: seq<nat>) {
      && path != [] && path[0] == entry && entry < |blocks|
      && forall i :: 0 <= i < |path| - 1 ==> Edge(path[i], path[i + 1])
    }

    ghost predicate LeadsTo(path: seq<nat>, b: nat) {
      IsPath(path) && path[|path| - 1] == b
    }

    ghost predicate Reachable(b: nat) {
      exists path :: LeadsTo(path, b)
    }

    /** Every path from the entry to b passes a. */
    ghost predicate Dominates(a: nat, b: nat) {
      forall path :: LeadsTo(path, b) ==> a in path
    }
  }

  /** Where a block may go, terminator by terminator. */
  lemma EdgesAreTargets(f: Function, a: nat, b: nat)
    ensures f.Edge(a, b) <==>
      a < |f.blocks| && b < |f.blocks| &&
      match f.blocks[a]
      case Jump(target) => b == target
      case Branch(trueBlock, falseBlock) => b == trueBlock || b == falseBlock
      case Switch(cases, defaultBlock, exitBlock) => b in cases || b == defaultBlock || b == exitBlock
      case Return => false
      case Throw => false
      case Unreachable => false
      case Deopt => false
  {
  }

  lemma EntryIsReachable(f: Function)
    requires f.Valid()
    ensures f.Reachable(f.entry)
  {
    assert f.LeadsTo([f.entry], f.entry);
  }

  lemma ExtendPath(f: Function, path: seq<nat>, a: nat, b: nat)
    requires f.LeadsTo(path, a) && f.Edge(a, b)
    ensures f.LeadsTo(path + [b], b)
  {
  }

  lemma EdgeIsReachable(f: Function, a: nat, b: nat)
    requires f.Reachable(a) && f.Edge(a, b)
    ensures f.Reachable(b)
  {
    var path :| f.LeadsTo(path, a);
    ExtendPath(f, path, a, b);
  }

  lemma ReachableIsBlock(f: Function, b: nat)
    requires f.Reachable(b)
    ensures f.IsBlock(b)
  {
    var path :| f.LeadsTo(path, b);
    if |path| > 1 { assert f.Edge(path[|path| - 2], path[|path| - 1]); }
  }

  /** A path that does not end where it starts comes over an edge. */
  lemma LastEdge(f: Function, path: seq<nat>, b: nat) returns (a: nat)
    requires f.LeadsTo(path, b) && b != f.entry
    ensures |path| > 1 && a == path[|path| - 2]
    ensures f.Edge(a, b) && f.LeadsTo(path[..|path| - 1], a) && f.Reachable(a)
  {
    a := path[|path| - 2];
    assert f.LeadsTo(path[..|path| - 1], a);
  }

  /** What dominates a block strictly dominates its reachable predecessors. */
  lemma StrictDominatorsOfPredecessors(f: Function, a: nat, p: nat, b: nat)
    requires f.Dominates(a, b) && a != b && f.Edge(p, b)
    ensures f.Dominates(a, p)
  {
    forall path | f.LeadsTo(path, p) ensures a in path {
      ExtendPath(f, path, p, b);
    }
  }

  lemma OnlyEntryDominatesEntry(f: Function, a: nat)
    requires f.Valid() && f.Dominates(a, f.entry)
    ensures a == f.entry
  {
    assert f.LeadsTo([f.entry], f.entry);
  }

  /** A set of blocks that holds the entry and is closed under edges holds everything reachable. */
  lemma {:induction false} ClosedHoldsPath(f: Function, blocks: set<nat>, path: seq<nat>)
    requires f.IsPath(path) && f.entry in blocks
    requires forall a, b :: a in blocks && f.Edge(a, b) ==> b in blocks
    ensures path[|path| - 1] in blocks
    decreases |path|
  {
    if |path| > 1 {
      ClosedHoldsPath(f, blocks, path[..|path| - 1]);
      assert f.Edge(path[|path| - 2], path[|path| - 1]);
    }
  }
}
