/** Pre-order traversal of a control-flow graph that has back edges and shared joins, with one mark per
    node, and the finders that recompute the edges of the block being visited. */
module Traversal {
  import opened Mir
  import opened Shape
  import opened Execution
  import opened Edges
  import opened Reachability
  import opened Order

  /** How to find some blocks. `search` is the node whose predecessors are wanted. */
  datatype Finder =
    | NoFinder
    | FirstFinder(cfgs: seq<Ref>)
    | PredecessorFinder(search: Option<Ref>, cfgs: seq<Ref>)
    | MultiWayFirstFinder(arms: seq<ArmEntry>)
    | MultiWayPredecessorFinder(search: Option<Ref>, arms: seq<ArmEntry>)

  /** A visitor, with the callbacks that it has received: `nodes` are the graph nodes it was called
      for, and `visits` the basic blocks, each with the edges that the finders reported. */
  class Visitor {
    var findSuccessors: Finder
    var findPredecessors: Finder
    var nodes: set<Ref>
    var visits: seq<Visit>

    constructor ()
      ensures IsNew()
    {
      findSuccessors, findPredecessors, nodes, visits := NoFinder, NoFinder, {}, [];
    }

    /** A new visitor at the same address. */
    method Renew()
      modifies this
      ensures IsNew()
    {
      findSuccessors, findPredecessors, nodes, visits := NoFinder, NoFinder, {}, [];
    }

    ghost predicate IsNew()
      reads this
    {
      findSuccessors == findPredecessors == NoFinder && nodes == {} && visits == []
    }
  }

  // ----- finders -----

  /** From `a` one comes, over whole constructs, to the block `b`, which leads to `search`. */
  ghost predicate WalksTo(h: Heap, a: Ref, search: Option<Ref>, b: Ref) {
    exists c :: IsWalk(h, a, search, b, c)
  }

  ghost predicate IsWalk(h: Heap, a: Ref, search: Option<Ref>, b: Ref, c: Chain) {
    Realizes(h, c, search) && First(c) == a && Last(c) == b && (search.Some? ==> search.value !in Refs(c))
  }

  /** The finder `f` reports the blocks `found`. */
  ghost predicate Yields(h: Heap, f: Finder, found: seq<Ref>) {
    match f
    case NoFinder => found == []
    case FirstFinder(cfgs) => |found| == |cfgs| && forall i | 0 <= i < |cfgs| :: found[i] == FirstBlock(h, cfgs[i])
    case PredecessorFinder(search, cfgs) =>
      |found| == |cfgs| && forall i | 0 <= i < |cfgs| :: WalksTo(h, cfgs[i], search, found[i])
    case MultiWayFirstFinder(arms) => |found| == |arms| && forall i | 0 <= i < |arms| :: found[i] == Ref(arms[i].base, IfTrue)
    case MultiWayPredecessorFinder(search, arms) =>
      |found| == |arms| && forall i | 0 <= i < |arms| :: WalksTo(h, Ref(arms[i].base, IfTrue), search, found[i])
  }

  /** Where the search for a predecessor goes on: a construct is stepped over. */
  function Over(h: Heap, n: Ref): Ref
    requires n in h
  {
    match h[n].content
    case Sequential(_, _) => n
    case Conditional(_, join) => join
    case MultiWay(_, _, _, join) => join
    case Loop(_, join) => join
  }

  /** Follow the line of control that starts at `n` up to the one block that leads to `search`. It is
      known to end in `exit`; if that is not what is searched for, nothing is found. */
  method VisitPredecessor(h: Heap, n: Ref, search: Option<Ref>, ghost c: Chain, ghost exit: Option<Ref>)
      returns (found: seq<Ref>)
    requires n in h && Over(h, n) == First(c) && Realizes(h, c, exit)
    requires (search.Some? ==> search.value !in Refs(c)) && (exit == search || exit == None)
    ensures found == if exit == search then [Last(c)] else []
    decreases c, if IsBlock(h, n) then 0 else 1
  {
    match h[n].content
    case Sequential(_, successor) =>
      if successor == search {
        found := [n];
      } else if successor.Some? {
        found := VisitPredecessor(h, successor.value, search, if c.End? then c else c.rest, exit);
      } else {
        found := [];
      }
    case Conditional(_, join) => found := VisitPredecessor(h, join, search, c, exit);
    case MultiWay(_, _, _, join) => found := VisitPredecessor(h, join, search, c, exit);
    case Loop(_, join) => found := VisitPredecessor(h, join, search, c, exit);
  }

  method Find(h: Heap, f: Finder, ghost expected: seq<Ref>) returns (found: seq<Ref>)
    requires Yields(h, f, expected)
    ensures found == expected
  {
    found := [];
    match f
    case NoFinder =>
    case FirstFinder(cfgs) =>
      for i := 0 to |cfgs|
        invariant found == expected[..i]
      {
        found := found + [FirstBlock(h, cfgs[i])];
      }
    case PredecessorFinder(search, cfgs) =>
      for i := 0 to |cfgs|
        invariant found == expected[..i]
      {
        ghost var c :| IsWalk(h, cfgs[i], search, expected[i], c);
        var one := VisitPredecessor(h, cfgs[i], search, c, search);
        found := found + one;
      }
    case MultiWayFirstFinder(arms) =>
      for i := 0 to |arms|
        invariant found == expected[..i]
      {
        found := found + [Ref(arms[i].base, IfTrue)];
      }
    case MultiWayPredecessorFinder(search, arms) =>
      for i := 0 to |arms|
        invariant found == expected[..i]
      {
        ghost var c :| IsWalk(h, Ref(arms[i].base, IfTrue), search, expected[i], c);
        var one := VisitPredecessor(h, Ref(arms[i].base, IfTrue), search, c, search);
        found := found + one;
      }
  }

  /** As the source is written, the predecessors of the block after a FOR are searched for from the
      condition with that block as the goal; as the condition has no successor, none is found. */
  method LoopExitPredecessorsAsWritten(h: Heap, base: nat, join: Ref) returns (found: seq<Ref>)
    requires IsConditionOf(h, base) && join != Ref(base, Condition)
    ensures found == []
  {
    found := VisitPredecessor(h, Ref(base, Condition), Some(join), End(Ref(base, Condition)), None);
  }

  // ----- marks -----

  /** `last_visitor` of every node; absent for a null pointer. */
  type Marks = map<Ref, Visitor>

  predicate IsMarked(l: Marks, r: Ref, v: Visitor) {
    r in l && l[r] == v
  }

  ghost predicate Unmarked(l: Marks, rs: set<Ref>, v: Visitor) {
    forall r | r in rs :: !IsMarked(l, r, v)
  }

  /** The marks after the nodes `rs`, and no others, were marked. */
  ghost function MarkAll(l: Marks, rs: set<Ref>, v: Visitor): Marks {
    l + map r | r in rs :: v
  }

  lemma MarkAllTwice(l: Marks, rs: set<Ref>, rs': set<Ref>, v: Visitor)
    ensures MarkAll(MarkAll(l, rs, v), rs', v) == MarkAll(l, rs + rs', v)
  {
  }

  lemma MarkOne(l: Marks, r: Ref, v: Visitor)
    ensures l[r := v] == MarkAll(l, {r}, v)
  {
  }

  lemma MarkAllFacts(l: Marks, rs: set<Ref>, v: Visitor, r: Ref)
    ensures IsMarked(MarkAll(l, rs, v), r, v) <==> r in rs || IsMarked(l, r, v)
  {
  }

  lemma UnmarkedAfter(l: Marks, rs: set<Ref>, rs': set<Ref>, v: Visitor)
    requires Unmarked(l, rs', v) && rs !! rs'
    ensures Unmarked(MarkAll(l, rs, v), rs', v)
  {
  }

  /** While a join is blocked, a branch that has not been visited is not marked. */
  lemma BlockedMarks(l: Marks, branches: set<Ref>, join: Ref, branch: set<Ref>, v: Visitor)
    requires Unmarked(l, branch, v) && branch !! branches && join !in branch
    ensures Unmarked(MarkAll(l[join := v], branches, v), branch, v)
    ensures IsMarked(MarkAll(l[join := v], branches, v), join, v)
    ensures MarkAll(l[join := v], {}, v) == l[join := v]
  {
  }

  /** Once it is cleared, what follows can be visited, and the exit still is blocked. */
  lemma ClearedMarks(l: Marks, branches: set<Ref>, join: Ref, after: set<Ref>, exit: Option<Ref>, v: Visitor)
    requires join in after && Unmarked(l, after, v) && after !! branches
    requires exit.Some? ==> IsMarked(l, exit.value, v) && exit.value != join
    ensures var l' := MarkAll(l[join := v], branches, v) - {join};
      && Unmarked(l', after, v) && (exit.Some? ==> IsMarked(l', exit.value, v))
      && MarkAll(l', after, v) == MarkAll(l, branches + after, v)
  {
  }

  lemma EntryMarked(l: Marks, w: Ref, cond: Ref, v: Visitor)
    ensures MarkAll(l[w := v], {cond}, v) == MarkAll(l, {w} + {cond}, v)
  {
    hide MarkAll;
    MarkOne(l, w, v);
    MarkAllTwice(l, {w}, {cond}, v);
  }

  /** A construct and its condition have been visited. */
  lemma EntryMarks(l: Marks, w: Ref, cond: Ref, rs: set<Ref>, exit: Option<Ref>, v: Visitor)
    requires Unmarked(l, rs, v) && w !in rs && cond !in rs && w != cond && !IsMarked(l, cond, v)
    ensures !IsMarked(l[w := v], cond, v)
    ensures var l' := MarkAll(l[w := v], {cond}, v);
      && (forall s {:trigger Unmarked(l', s, v)} | s <= rs :: Unmarked(l', s, v))
      && (exit.Some? && IsMarked(l, exit.value, v) ==> IsMarked(l', exit.value, v))
      && (forall s {:trigger MarkAll(l', s, v)} :: MarkAll(l', s, v) == MarkAll(l, {w} + {cond} + s, v))
  {
    hide MarkAll;
    var l' := MarkAll(l[w := v], {cond}, v);
    EntryMarked(l, w, cond, v);
    UnmarkedAfter(l, {w} + {cond}, rs, v);
    if exit.Some? {
      MarkAllFacts(l, {w} + {cond}, v, exit.value);
    }
    forall s {:trigger MarkAll(l', s, v)} ensures MarkAll(l', s, v) == MarkAll(l, {w} + {cond} + s, v) {
      MarkAllTwice(l, {w} + {cond}, s, v);
    }
  }

  // ----- a measure for the recursion -----

  ghost function Size(c: Chain): (n: nat)
    ensures n >= 1
  {
    match c
    case End(_) => 1
    case Link(_, rest) => 1 + Size(rest)
    case Then(_, k, rest) => 1 + ConstructSize(k) + Size(rest)
  }

  ghost function ConstructSize(k: Construct): (n: nat)
    ensures n >= 1
  {
    match k
    case IfShape(_, _, thn, els) => 1 + Size(thn) + Size(els)
    case SwitchShape(_, _, arms) => 1 + ArmsSize(arms)
    case LoopShape(_, _, init, update, body) => 1 + Size(init) + Size(update) + Size(body)
  }

  ghost function ArmsSize(arms: Arms): nat {
    match arms
    case NoArms => 0
    case Arm(_, _, chain, next) => Size(chain) + ArmsSize(next)
  }

  // ----- the traversal -----

  class Graph {
    const heap: Heap
    var lastVisitor: Marks

    constructor (h: Heap, l: Marks)
      ensures heap == h && lastVisitor == l
    {
      heap, lastVisitor := h, l;
    }

    /** The exit of the line of control that is being visited is blocked. */
    ghost predicate IsBlocked(exit: Option<Ref>, v: Visitor, rs: set<Ref>)
      reads this
    {
      exit.Some? ==> IsBlock(heap, exit.value) && IsMarked(lastVisitor, exit.value, v) && exit.value !in rs
    }

    /** What the finders report for the first block visited, and for the last one. */
    ghost predicate FindersYield(v: Visitor, preds: seq<Ref>, exit: Option<Ref>, outs: seq<Ref>)
      reads v
    {
      && Yields(heap, v.findPredecessors, preds)
      && if exit.Some? then outs == [exit.value] else Yields(heap, v.findSuccessors, outs)
    }

    ghost predicate Ready(v: Visitor, c: Chain, exit: Option<Ref>, preds: seq<Ref>, outs: seq<Ref>)
      reads this, v
    {
      && Realizes(heap, c, exit) && Distinct(c) && Unmarked(lastVisitor, Refs(c), v)
      && IsBlocked(exit, v, Refs(c)) && FindersYield(v, preds, exit, outs)
    }

    /** `ShouldVisit`. */
    method ShouldVisit(r: Ref, v: Visitor) returns (b: bool)
      modifies this
      ensures b == !old(IsMarked(lastVisitor, r, v))
      ensures lastVisitor == if b then old(lastVisitor)[r := v] else old(lastVisitor)
    {
      if r in lastVisitor && lastVisitor[r] == v {
        return false;
      }
      lastVisitor := lastVisitor[r := v];
      return true;
    }

    /** The callback for a basic block: both finders are asked. */
    method VisitBlock(v: Visitor, b: Ref, ghost succs: seq<Ref>, ghost preds: seq<Ref>)
      requires Yields(heap, v.findSuccessors, succs) && Yields(heap, v.findPredecessors, preds)
      modifies v`visits
      ensures v.visits == old(v.visits) + [Visit(b, succs, preds)]
    {
      var s := Find(heap, v.findSuccessors, succs);
      var p := Find(heap, v.findPredecessors, preds);
      v.visits := v.visits + [Visit(b, s, p)];
    }

    method VisitSequential(v: Visitor, r: Ref, ghost c: Chain, ghost exit: Option<Ref>, ghost preds: seq<Ref>,
                           ghost outs: seq<Ref>)
      requires IsMarked(lastVisitor, r, v) || (r == First(c) && Ready(v, c, exit, preds, outs))
      modifies this, v
      ensures v.findSuccessors == old(v.findSuccessors) && v.findPredecessors == old(v.findPredecessors)
      ensures old(IsMarked(lastVisitor, r, v)) ==>
                v.visits == old(v.visits) && lastVisitor == old(lastVisitor) && v.nodes == old(v.nodes) + {r}
      ensures !old(IsMarked(lastVisitor, r, v)) ==>
                && v.visits == old(v.visits) + Trace(c, preds, outs)
                && lastVisitor == MarkAll(old(lastVisitor), Refs(c), v)
                && v.nodes == old(v.nodes) + Refs(c) + ExitSet(exit)
      decreases Size(c), if IsMarked(lastVisitor, r, v) then 0 else 2
    {
      hide Trace, Distinct, Refs, Realizes, MarkAll, Yields, TraceAfter;
      v.nodes := v.nodes + {r};
      var visit := ShouldVisit(r, v);
      if !visit {
        return;
      }
      FirstFacts(heap, c, exit, preds, outs);
      MarkFirst(old(lastVisitor), r, Refs(c), exit, v);
      var successor := heap[r].content.successor;

      var savedSuccessors := v.findSuccessors;
      if successor.Some? {
        v.findSuccessors := FirstFinder([successor.value]);
        VisitBlock(v, r, [FirstBlock(heap, successor.value)], preds);
      } else {
        VisitBlock(v, r, outs, preds);
      }
      v.findSuccessors := savedSuccessors;

      if successor.Some? {
        var savedPredecessors := v.findPredecessors;
        v.findPredecessors := FirstFinder([r]);
        VisitNext(v, successor.value, c, exit, outs);
        v.findPredecessors := savedPredecessors;
      }
    }

    /** `DoVisitPreOrder` on what follows the first block of `c`. */
    method VisitNext(v: Visitor, n: Ref, ghost c: Chain, ghost exit: Option<Ref>, ghost outs: seq<Ref>)
      requires Realizes(heap, c, exit) && Distinct(c) && IsBlockTo(heap, First(c), Some(n))
      requires Unmarked(lastVisitor, Refs(c) - {First(c)}, v) && IsBlocked(exit, v, Refs(c))
      requires FindersYield(v, [First(c)], exit, outs)
      modifies this, v
      ensures v.findSuccessors == old(v.findSuccessors) && v.findPredecessors == old(v.findPredecessors)
      ensures v.visits == old(v.visits) + TraceAfter(c, outs)
      ensures lastVisitor == MarkAll(old(lastVisitor), Refs(c) - {First(c)}, v)
      ensures v.nodes == old(v.nodes) + (Refs(c) - {First(c)}) + ExitSet(exit)
      decreases Size(c), 1
    {
      match heap[n].content
      case Sequential(_, _) =>
        assert c.Link? ==> Refs(c) - {First(c)} == Refs(c.rest);
        VisitSequential(v, n, if c.End? then c else c.rest, exit, [c.block], outs);
      case Conditional(_, _) => VisitConditional(v, n, c, exit, [c.block], outs);
      case MultiWay(_, _, _, _) => VisitMultiWay(v, n, c, exit, [c.block], outs);
      case Loop(_, _) => VisitLoop(v, n, c, exit, [c.block], outs);
    }

    /** A branch of a conditional or switch, or the body of a loop: it is entered from the condition, and
        `exit` is blocked. */
    method VisitBranch(v: Visitor, branch: Ref, cond: Ref, ghost c: Chain, ghost exit: Ref)
      requires IsBlockTo(heap, cond, None) && First(c) == branch && Realizes(heap, c, Some(exit)) && Distinct(c)
      requires Unmarked(lastVisitor, Refs(c), v) && IsBlocked(Some(exit), v, Refs(c))
      modifies this, v
      ensures v.findSuccessors == old(v.findSuccessors) && v.findPredecessors == old(v.findPredecessors)
      ensures v.visits == old(v.visits) + Trace(c, [cond], [exit])
      ensures lastVisitor == MarkAll(old(lastVisitor), Refs(c), v)
      ensures v.nodes == old(v.nodes) + Refs(c) + {exit}
      decreases Size(c), 3
    {
      FirstInRefs(c);
      var saved := v.findPredecessors;
      v.findPredecessors := PredecessorFinder(None, [cond]);
      WalksToItself(heap, cond);
      VisitSequential(v, branch, c, Some(exit), [cond], [exit]);
      v.findPredecessors := saved;
    }

    /** What follows a construct is visited last, once it is no longer blocked. */
    method VisitJoin(v: Visitor, join: Ref, f: Finder, ghost c: Chain, ghost exit: Option<Ref>, ghost preds: seq<Ref>,
                     ghost outs: seq<Ref>)
      requires join == First(c) && Realizes(heap, c, exit) && Distinct(c) && Yields(heap, f, preds)
      requires Unmarked(lastVisitor, Refs(c), v) && IsBlocked(exit, v, Refs(c))
      requires if exit.Some? then outs == [exit.value] else Yields(heap, v.findSuccessors, outs)
      modifies this, v
      ensures v.findSuccessors == old(v.findSuccessors) && v.findPredecessors == old(v.findPredecessors)
      ensures v.visits == old(v.visits) + Trace(c, preds, outs)
      ensures lastVisitor == MarkAll(old(lastVisitor), Refs(c), v)
      ensures v.nodes == old(v.nodes) + Refs(c) + ExitSet(exit)
      decreases Size(c), 3
    {
      FirstInRefs(c);
      var saved := v.findPredecessors;
      v.findPredecessors := f;
      VisitSequential(v, join, c, exit, preds, outs);
      v.findPredecessors := saved;
    }

    method VisitConditional(v: Visitor, w: Ref, ghost c: Chain, ghost exit: Option<Ref>, ghost preds: seq<Ref>,
                            ghost outs: seq<Ref>)
      requires c.Then? && c.construct.IfShape? && w == Ref(c.construct.base, Whole)
      requires ConstructReady(v, c, exit, preds, outs)
      modifies this, v
      ensures v.findSuccessors == old(v.findSuccessors) && v.findPredecessors == old(v.findPredecessors)
      ensures v.visits == old(v.visits) + (TraceConstruct(c.construct, preds, First(c.rest))
                                           + Trace(c.rest, ExitBlocks(c.construct), outs))
      ensures ConstructFirst(v.visits[|old(v.visits)|..], c)
      ensures lastVisitor == MarkAll(old(lastVisitor), Refs(c) - {First(c)}, v)
      ensures v.nodes == old(v.nodes) + (Refs(c) - {First(c)}) + ExitSet(exit)
      decreases Size(c), 0
    {
      hide Trace, TraceConstruct, Distinct, Refs, Realizes, MarkAll, Yields, Unmarked, Size, ExitBlocks, ConstructFirst;
      ghost var IfShape(_, _, thn, els) := c.construct;
      ghost var branches, after := Refs(thn) + Refs(els), Refs(c.rest);
      ConditionalFacts(heap, c, exit, preds);
      SubsetUnmarked(lastVisitor, Refs(c) - {First(c)}, v);
      EntryMarks(lastVisitor, w, Ref(w.base, Condition), branches + after, exit, v);
      v.nodes := v.nodes + {w};
      var visit := ShouldVisit(w, v);
      var Conditional(_, join) := heap[w].content;
      var cond, ifTrue, ifFalse := Ref(w.base, Condition), Ref(w.base, IfTrue), Ref(w.base, IfFalse);

      VisitCondition(v, cond, FirstFinder([ifTrue, ifFalse]), preds, [ifTrue, ifFalse]);
      ClearedMarks(lastVisitor, branches, join, after, exit, v);
      VisitBranches(v, ifTrue, ifFalse, cond, join, thn, els);
      VisitJoin(v, join, PredecessorFinder(Some(join), [ifTrue, ifFalse]), c.rest, exit, ExitBlocks(c.construct), outs);
      ConstructThenRest(old(v.visits), c, preds, outs);
    }

    /** Both branches, while the join is blocked. */
    method VisitBranches(v: Visitor, ifTrue: Ref, ifFalse: Ref, cond: Ref, join: Ref, ghost thn: Chain, ghost els: Chain)
      requires IsBlockTo(heap, cond, None) && IsBlock(heap, join)
      requires First(thn) == ifTrue && Realizes(heap, thn, Some(join)) && Distinct(thn)
      requires First(els) == ifFalse && Realizes(heap, els, Some(join)) && Distinct(els)
      requires Refs(thn) !! Refs(els) && join !in Refs(thn) + Refs(els)
      requires Unmarked(lastVisitor, Refs(thn), v) && Unmarked(lastVisitor, Refs(els), v)
      modifies this, v
      ensures v.findSuccessors == old(v.findSuccessors) && v.findPredecessors == old(v.findPredecessors)
      ensures v.visits == old(v.visits) + Trace(thn, [cond], [join]) + Trace(els, [cond], [join])
      ensures lastVisitor == MarkAll(old(lastVisitor)[join := v], Refs(thn) + Refs(els), v) - {join}
      ensures v.nodes == old(v.nodes) + Refs(thn) + Refs(els) + {join}
      decreases Size(thn) + Size(els), 4
    {
      hide Trace, Distinct, Refs, Realizes, MarkAll, Unmarked;
      ghost var l := lastVisitor;
      lastVisitor := lastVisitor[join := v];
      BlockedMarks(l, {}, join, Refs(thn), v);
      VisitBranch(v, ifTrue, cond, thn, join);
      BlockedMarks(l, Refs(thn), join, Refs(els), v);
      VisitBranch(v, ifFalse, cond, els, join);
      MarkAllTwice(l[join := v], Refs(thn), Refs(els), v);
      lastVisitor := lastVisitor - {join};
    }

    method VisitMultiWay(v: Visitor, w: Ref, ghost c: Chain, ghost exit: Option<Ref>, ghost preds: seq<Ref>,
                         ghost outs: seq<Ref>)
      requires c.Then? && c.construct.SwitchShape? && w == Ref(c.construct.base, Whole)
      requires ConstructReady(v, c, exit, preds, outs)
      modifies this, v
      ensures v.findSuccessors == old(v.findSuccessors) && v.findPredecessors == old(v.findPredecessors)
      ensures v.visits == old(v.visits) + (TraceConstruct(c.construct, preds, First(c.rest))
                                           + Trace(c.rest, ExitBlocks(c.construct), outs))
      ensures ConstructFirst(v.visits[|old(v.visits)|..], c)
      ensures lastVisitor == MarkAll(old(lastVisitor), Refs(c) - {First(c)}, v)
      ensures v.nodes == old(v.nodes) + (Refs(c) - {First(c)}) + ExitSet(exit)
      decreases Size(c), 0
    {
      hide Trace, TraceConstruct, Distinct, DistinctArms, Refs, Realizes, MarkAll, Yields, Unmarked, Size, ExitBlocks, ConstructFirst;
      hide ArmRefs, RealizesArms, Entries, ArmFirsts, TraceArms, ArmsSize;
      ghost var shape := c.construct.arms;
      ghost var branches, after := ArmRefs(shape), Refs(c.rest);
      MultiWayFacts(heap, c, exit, preds);
      SubsetUnmarked(lastVisitor, Refs(c) - {First(c)}, v);
      EntryMarks(lastVisitor, w, Ref(w.base, Condition), branches + after, exit, v);
      v.nodes := v.nodes + {w};
      var visit := ShouldVisit(w, v);
      var MultiWay(_, arms, _, join) := heap[w].content;
      var cond := Ref(w.base, Condition);

      VisitCondition(v, cond, MultiWayFirstFinder(arms), preds, ArmFirsts(shape));
      ClearedMarks(lastVisitor, branches, join, after, exit, v);
      VisitArms(v, arms, cond, join, shape);
      VisitJoin(v, join, MultiWayPredecessorFinder(Some(join), arms), c.rest, exit, ExitBlocks(c.construct), outs);
      ConstructThenRest(old(v.visits), c, preds, outs);
    }

    /** Every arm in list order, while the join is blocked. */
    method VisitArms(v: Visitor, arms: seq<ArmEntry>, cond: Ref, join: Ref, ghost shape: Arms)
      requires IsBlockTo(heap, cond, None) && IsBlock(heap, join) && arms == Entries(shape)
      requires RealizesArms(heap, shape, join) && DistinctArms(shape) && join !in ArmRefs(shape)
      requires Unmarked(lastVisitor, ArmRefs(shape), v)
      modifies this, v
      ensures v.findSuccessors == old(v.findSuccessors) && v.findPredecessors == old(v.findPredecessors)
      ensures v.visits == old(v.visits) + TraceArms(shape, [cond], [join])
      ensures forall i, j, x, y | 0 <= i < j < ArmCount(shape)
                && |old(v.visits)| <= x < |v.visits| && |old(v.visits)| <= y < |v.visits|
                && v.visits[x].block in Blocks(ArmChain(shape, i)) && v.visits[y].block in Blocks(ArmChain(shape, j)) ::
                  x < y
      ensures lastVisitor == MarkAll(old(lastVisitor)[join := v], ArmRefs(shape), v) - {join}
      ensures v.nodes + {join} == old(v.nodes) + ArmRefs(shape) + {join}
      decreases ArmsSize(shape), 4
    {
      hide Trace, Distinct, Refs, Realizes, MarkAll, Unmarked, Blocks, ArmCount, ArmChain;
      ghost var l := lastVisitor;
      lastVisitor := lastVisitor[join := v];
      ghost var done: set<Ref>, rest := {}, shape;
      BlockedMarks(l, {}, join, ArmRefs(shape), v);
      var i := 0;
      while i < |arms|
        invariant 0 <= i <= |arms| && arms[i..] == Entries(rest)
        invariant RealizesArms(heap, rest, join) && DistinctArms(rest) && ArmsSize(rest) <= ArmsSize(shape)
        invariant done + ArmRefs(rest) == ArmRefs(shape) && done !! ArmRefs(rest)
        invariant v.findSuccessors == old(v.findSuccessors) && v.findPredecessors == old(v.findPredecessors)
        invariant v.visits + TraceArms(rest, [cond], [join]) == old(v.visits) + TraceArms(shape, [cond], [join])
        invariant lastVisitor == MarkAll(l[join := v], done, v)
        invariant v.nodes + {join} == old(v.nodes) + done + {join}
      {
        ghost var Arm(_, _, chain, next) := rest;
        SubsetUnmarked(l, ArmRefs(shape), v);
        BlockedMarks(l, done, join, Refs(chain), v);
        VisitBranch(v, Ref(arms[i].base, IfTrue), cond, chain, join);
        MarkAllTwice(l[join := v], done, Refs(chain), v);
        assert arms[i + 1..] == arms[i..][1..];
        done, rest, i := done + Refs(chain), next, i + 1;
      }
      lastVisitor := lastVisitor - {join};
      ArmsOrderedLater(old(v.visits), shape, [cond], [join]);
    }

    method VisitLoop(v: Visitor, w: Ref, ghost c: Chain, ghost exit: Option<Ref>, ghost preds: seq<Ref>,
                     ghost outs: seq<Ref>)
      requires c.Then? && c.construct.LoopShape? && w == Ref(c.construct.base, Whole)
      requires ConstructReady(v, c, exit, preds, outs)
      modifies this, v
      ensures v.findSuccessors == old(v.findSuccessors) && v.findPredecessors == old(v.findPredecessors)
      ensures v.visits == old(v.visits) + (TraceConstruct(c.construct, preds, First(c.rest))
                                           + Trace(c.rest, ExitBlocks(c.construct), outs))
      ensures ConstructFirst(v.visits[|old(v.visits)|..], c)
      ensures lastVisitor == MarkAll(old(lastVisitor), Refs(c) - {First(c)}, v)
      ensures v.nodes == old(v.nodes) + (Refs(c) - {First(c)}) + ExitSet(exit)
      decreases Size(c), 0
    {
      hide Trace, TraceConstruct, Distinct, Refs, Realizes, MarkAll, Yields, Unmarked, Joined, Size, ConstructFirst;
      ghost var LoopShape(_, _, i, u, b) := c.construct;
      ghost var parts, after := Refs(i) + Refs(Joined(b, u)), Refs(c.rest);
      ghost var l := lastVisitor;
      LoopFacts(heap, c, exit, preds);
      SubsetUnmarked(l, Refs(c) - {First(c)}, v);
      LoopMarks(l, w, Ref(w.base, Condition), parts, after, exit, v);
      v.nodes := v.nodes + {w};
      var visit := ShouldVisit(w, v);
      var join := heap[w].content.join;
      var init, cond, update, body := Ref(w.base, Init), Ref(w.base, Condition), Ref(w.base, Update), Ref(w.base, Body);

      VisitLoopParts(v, init, body, cond, i, Joined(b, u), preds);

      VisitLoopCondition(v, init, update, body, cond, join, [Last(i), Last(u)], [First(b), First(c.rest)]);
      VisitJoin(v, join, PredecessorFinder(None, [cond]), c.rest, exit, [cond], outs);
      ConstructThenRest(old(v.visits), c, preds, outs);
    }

    /** The condition, after its parts. */
    method VisitLoopCondition(v: Visitor, init: Ref, update: Ref, body: Ref, cond: Ref, join: Ref, ghost preds: seq<Ref>,
                              ghost succs: seq<Ref>)
      requires IsBlockTo(heap, cond, None) && !IsMarked(lastVisitor, cond, v)
      requires Yields(heap, FirstFinder([body, join]), succs)
      requires Yields(heap, PredecessorFinder(Some(cond), [init, update]), preds)
      modifies this, v
      ensures v.findSuccessors == old(v.findSuccessors) && v.findPredecessors == old(v.findPredecessors)
      ensures v.visits == old(v.visits) + [Visit(cond, succs, preds)]
      ensures lastVisitor == MarkAll(old(lastVisitor), {cond}, v)
      ensures v.nodes == old(v.nodes) + {cond}
      decreases 1, 4
    {
      hide Yields, MarkAll;
      var saved := v.findPredecessors;
      v.findPredecessors := PredecessorFinder(Some(cond), [init, update]);
      VisitCondition(v, cond, FirstFinder([body, join]), preds, succs);
      v.findPredecessors := saved;
    }

    /** The initialization, and the body followed by the update, while the condition is blocked. */
    method VisitLoopParts(v: Visitor, init: Ref, body: Ref, cond: Ref, ghost i: Chain, ghost bu: Chain, ghost preds: seq<Ref>)
      requires IsBlockTo(heap, cond, None) && Yields(heap, v.findPredecessors, preds)
      requires First(i) == init && Realizes(heap, i, Some(cond)) && Distinct(i)
      requires First(bu) == body && Realizes(heap, bu, Some(cond)) && Distinct(bu)
      requires Refs(i) !! Refs(bu) && cond !in Refs(i) + Refs(bu)
      requires Unmarked(lastVisitor, Refs(i), v) && Unmarked(lastVisitor, Refs(bu), v)
      modifies this, v
      ensures v.findSuccessors == old(v.findSuccessors) && v.findPredecessors == old(v.findPredecessors)
      ensures v.visits == old(v.visits) + Trace(i, preds, [cond]) + Trace(bu, [cond], [cond])
      ensures lastVisitor == MarkAll(old(lastVisitor)[cond := v], Refs(i) + Refs(bu), v) - {cond}
      ensures v.nodes == old(v.nodes) + Refs(i) + Refs(bu) + {cond}
      decreases Size(i) + Size(bu), 4
    {
      hide Trace, Distinct, Refs, Realizes, MarkAll, Unmarked;
      ghost var l := lastVisitor;
      lastVisitor := lastVisitor[cond := v];
      BlockedMarks(l, {}, cond, Refs(i), v);
      FirstInRefs(i);
      SubsetUnmarked(lastVisitor, Refs(i), v);
      VisitSequential(v, init, i, Some(cond), preds, [cond]);
      BlockedMarks(l, Refs(i), cond, Refs(bu), v);
      VisitBranch(v, body, cond, bu, cond);
      MarkAllTwice(l[cond := v], Refs(i), Refs(bu), v);
      lastVisitor := lastVisitor - {cond};
    }

    ghost predicate ConstructReady(v: Visitor, c: Chain, exit: Option<Ref>, preds: seq<Ref>, outs: seq<Ref>)
      reads this, v
    {
      && Realizes(heap, c, exit) && Distinct(c)
      && Unmarked(lastVisitor, Refs(c) - {First(c)}, v) && IsBlocked(exit, v, Refs(c))
      && FindersYield(v, preds, exit, outs)
    }

    /** The condition of a construct inherits its predecessors. */
    method VisitCondition(v: Visitor, cond: Ref, f: Finder, ghost preds: seq<Ref>, ghost succs: seq<Ref>)
      requires IsBlockTo(heap, cond, None) && !IsMarked(lastVisitor, cond, v)
      requires Yields(heap, f, succs) && Yields(heap, v.findPredecessors, preds)
      modifies this, v
      ensures v.findSuccessors == old(v.findSuccessors) && v.findPredecessors == old(v.findPredecessors)
      ensures v.visits == old(v.visits) + [Visit(cond, succs, preds)]
      ensures lastVisitor == MarkAll(old(lastVisitor), {cond}, v)
      ensures v.nodes == old(v.nodes) + {cond}
      decreases 1, 3
    {
      var saved := v.findSuccessors;
      v.findSuccessors := f;
      VisitSequential(v, cond, End(cond), None, preds, succs);
      v.findSuccessors := saved;
    }
  }

  /** The visits of `c` after the first one. */
  ghost function TraceAfter(c: Chain, outs: seq<Ref>): seq<Visit> {
    match c
    case End(_) => []
    case Link(b, rest) => Trace(rest, [b], outs)
    case Then(b, k, rest) => TraceConstruct(k, [b], First(rest)) + Trace(rest, ExitBlocks(k), outs)
  }

  lemma SubsetUnmarked(l: Marks, rs: set<Ref>, v: Visitor)
    requires Unmarked(l, rs, v)
    ensures forall r | r in rs :: !IsMarked(l, r, v)
    ensures forall s {:trigger Unmarked(l, s, v)} | s <= rs :: Unmarked(l, s, v)
  {
  }

  lemma ConditionalFacts(h: Heap, c: Chain, exit: Option<Ref>, preds: seq<Ref>)
    requires c.Then? && c.construct.IfShape? && Realizes(h, c, exit) && Distinct(c)
    ensures var IfShape(base, value, thn, els) := c.construct;
      var w, cond, join := Ref(base, Whole), Ref(base, Condition), First(c.rest);
      && w in h && h[w].content == Conditional(Some(value), join) && IsBlockTo(h, cond, None) && IsBlock(h, join)
      && First(thn) == Ref(base, IfTrue) && Realizes(h, thn, Some(join)) && Distinct(thn)
      && First(els) == Ref(base, IfFalse) && Realizes(h, els, Some(join)) && Distinct(els)
      && Realizes(h, c.rest, exit) && Distinct(c.rest)
      && Refs(c) - {First(c)} == {w} + {cond} + (Refs(thn) + Refs(els) + Refs(c.rest))
      && {w} !! {cond} !! Refs(thn) !! Refs(els) !! Refs(c.rest)
      && join in Refs(c.rest)
      && Yields(h, PredecessorFinder(Some(join), [First(thn), First(els)]), ExitBlocks(c.construct))
      && Yields(h, FirstFinder([First(thn), First(els)]), [First(thn), First(els)])
      && TraceConstruct(c.construct, preds, join)
         == [Visit(cond, [First(thn), First(els)], preds)] + Trace(thn, [cond], [join]) + Trace(els, [cond], [join])
      && Size(c) > Size(thn) + Size(els) && Size(c) > Size(c.rest) && Size(c) > 1
  {
    hide Yields, IsWalk, Trace;
    ConditionalYields(h, c.construct, First(c.rest));
  }

  lemma ConditionalYields(h: Heap, k: Construct, join: Ref)
    requires k.IfShape? && RealizesConstruct(h, k, join) && IsBlock(h, join) && join !in Refs(k.thn) && join !in Refs(k.els)
    ensures Yields(h, PredecessorFinder(Some(join), [First(k.thn), First(k.els)]), ExitBlocks(k))
    ensures Yields(h, FirstFinder([First(k.thn), First(k.els)]), [First(k.thn), First(k.els)])
  {
    assert IsWalk(h, First(k.thn), Some(join), Last(k.thn), k.thn);
    assert IsWalk(h, First(k.els), Some(join), Last(k.els), k.els);
  }

  lemma {:induction false} ArmsYield(h: Heap, arms: Arms, join: Ref)
    requires RealizesArms(h, arms, join) && join !in ArmRefs(arms)
    ensures Yields(h, MultiWayFirstFinder(Entries(arms)), ArmFirsts(arms))
    ensures Yields(h, MultiWayPredecessorFinder(Some(join), Entries(arms)), ArmLasts(arms))
  {
    match arms
    case NoArms =>
    case Arm(base, _, chain, next) =>
      ArmsYield(h, next, join);
      assert IsWalk(h, First(chain), Some(join), Last(chain), chain);
      assert Entries(next) == Entries(arms)[1..] && ArmFirsts(next) == ArmFirsts(arms)[1..] && ArmLasts(next) == ArmLasts(arms)[1..];
      forall i | 0 <= i < |Entries(arms)|
        ensures ArmFirsts(arms)[i] == Ref(Entries(arms)[i].base, IfTrue)
        ensures WalksTo(h, Ref(Entries(arms)[i].base, IfTrue), Some(join), ArmLasts(arms)[i])
      {
        if i > 0 {
          assert Entries(arms)[i] == Entries(next)[i - 1];
          assert ArmFirsts(arms)[i] == ArmFirsts(next)[i - 1] && ArmLasts(arms)[i] == ArmLasts(next)[i - 1];
        }
      }
  }

  lemma MultiWayFacts(h: Heap, c: Chain, exit: Option<Ref>, preds: seq<Ref>)
    requires c.Then? && c.construct.SwitchShape? && Realizes(h, c, exit) && Distinct(c)
    ensures var SwitchShape(base, value, arms) := c.construct;
      var w, cond, join := Ref(base, Whole), Ref(base, Condition), First(c.rest);
      && w in h && h[w].content == MultiWay(Some(value), Entries(arms), DefaultArm(arms), join)
      && IsBlockTo(h, cond, None) && IsBlock(h, join)
      && RealizesArms(h, arms, join) && DistinctArms(arms)
      && Realizes(h, c.rest, exit) && Distinct(c.rest)
      && Refs(c) - {First(c)} == {w} + {cond} + (ArmRefs(arms) + Refs(c.rest))
      && {w} !! {cond} !! ArmRefs(arms) !! Refs(c.rest)
      && join in Refs(c.rest)
      && Yields(h, MultiWayFirstFinder(Entries(arms)), ArmFirsts(arms))
      && Yields(h, MultiWayPredecessorFinder(Some(join), Entries(arms)), ExitBlocks(c.construct))
      && TraceConstruct(c.construct, preds, join)
         == [Visit(cond, ArmFirsts(arms), preds)] + TraceArms(arms, [cond], [join])
      && Size(c) > ArmsSize(arms) && Size(c) > Size(c.rest) && Size(c) > 1
  {
    ArmsYield(h, c.construct.arms, First(c.rest));
  }

  lemma {:induction false} JoinedSize(c: Chain, d: Chain)
    ensures Size(Joined(c, d)) == Size(c) + Size(d)
  {
    match c
    case End(b) =>
    case Link(b, rest) => JoinedSize(rest, d);
    case Then(b, k, rest) => JoinedSize(rest, d);
  }

  lemma LoopFacts(h: Heap, c: Chain, exit: Option<Ref>, preds: seq<Ref>)
    requires c.Then? && c.construct.LoopShape? && Realizes(h, c, exit) && Distinct(c)
    ensures var LoopShape(base, value, i, u, b) := c.construct;
      var w, cond, join, bu := Ref(base, Whole), Ref(base, Condition), First(c.rest), Joined(b, u);
      && w in h && h[w].content == Loop(Some(value), join) && IsBlockTo(h, cond, None) && IsBlock(h, join)
      && First(i) == Ref(base, Init) && Realizes(h, i, Some(cond)) && Distinct(i)
      && First(b) == First(bu) == Ref(base, Body) && Realizes(h, bu, Some(cond)) && Distinct(bu)
      && Realizes(h, c.rest, exit) && Distinct(c.rest)
      && Refs(c) - {First(c)} == {w} + {cond} + (Refs(i) + Refs(bu) + Refs(c.rest))
      && {w} !! {cond} !! Refs(i) !! Refs(bu) !! Refs(c.rest)
      && join in Refs(c.rest)
      && Yields(h, PredecessorFinder(Some(cond), [First(i), Ref(base, Update)]), [Last(i), Last(u)])
      && Yields(h, FirstFinder([First(b), join]), [First(b), join])
      && Yields(h, PredecessorFinder(None, [cond]), [cond])
      && TraceConstruct(c.construct, preds, join)
         == Trace(i, preds, [cond]) + Trace(bu, [cond], [cond]) + [Visit(cond, [First(b), join], [Last(i), Last(u)])]
      && Size(c) > Size(i) + Size(bu) && Size(c) > Size(c.rest) && Size(c) > 1
  {
    hide Yields, Joined, Trace, TraceConstruct, IsWalk;
    var LoopShape(base, value, i, u, b) := c.construct;
    JoinedFacts(h, b, u, Some(Ref(base, Condition)));
    JoinedSize(b, u);
    LoopYields(h, c.construct, First(c.rest), preds);
  }

  lemma LoopYields(h: Heap, k: Construct, join: Ref, preds: seq<Ref>)
    requires k.LoopShape? && RealizesConstruct(h, k, join) && DistinctConstruct(k) && IsBlock(h, join)
    ensures var LoopShape(base, value, i, u, b) := k;
      var cond := Ref(base, Condition);
      && Yields(h, PredecessorFinder(Some(cond), [First(i), Ref(base, Update)]), [Last(i), Last(u)])
      && Yields(h, FirstFinder([First(b), join]), [First(b), join])
      && Yields(h, PredecessorFinder(None, [cond]), [cond])
      && TraceConstruct(k, preds, join)
         == Trace(i, preds, [cond]) + Trace(Joined(b, u), [cond], [cond])
            + [Visit(cond, [First(b), join], [Last(i), Last(u)])]
  {
    var LoopShape(base, value, i, u, b) := k;
    var cond := Ref(base, Condition);
    JoinedTrace(b, u, [cond], [cond]);
    WalksToItself(h, cond);
    assert IsWalk(h, First(i), Some(cond), Last(i), i);
    assert IsWalk(h, First(u), Some(cond), Last(u), u);
  }

  /** The marks of a loop: the condition is blocked while its parts are visited, and visited after them. */
  lemma LoopMarks(l: Marks, w: Ref, cond: Ref, parts: set<Ref>, after: set<Ref>, exit: Option<Ref>, v: Visitor)
    requires {w} !! {cond} !! parts !! after && Unmarked(l, parts, v) && Unmarked(l, after, v) && !IsMarked(l, cond, v)
    requires exit.Some? ==> IsMarked(l, exit.value, v) && exit.value != cond
    ensures forall s {:trigger Unmarked(l[w := v], s, v)} | s <= parts :: Unmarked(l[w := v], s, v)
    ensures var l' := MarkAll(l[w := v][cond := v], parts, v) - {cond};
      && !IsMarked(l', cond, v)
      && Unmarked(MarkAll(l', {cond}, v), after, v)
      && (exit.Some? ==> IsMarked(MarkAll(l', {cond}, v), exit.value, v))
      && MarkAll(MarkAll(l', {cond}, v), after, v) == MarkAll(l, {w} + {cond} + (parts + after), v)
  {
    UnmarkedAfter(l, {w}, parts, v);
    MarkOne(l, w, v);
    SubsetUnmarked(l[w := v], parts, v);
    ConditionMarks(l, w, cond, parts, after, exit, v);
  }

  lemma ConditionMarks(l: Marks, w: Ref, cond: Ref, parts: set<Ref>, after: set<Ref>, exit: Option<Ref>, v: Visitor)
    requires {w} !! {cond} !! parts !! after && Unmarked(l, after, v)
    requires exit.Some? ==> IsMarked(l, exit.value, v) && exit.value != cond
    requires !IsMarked(l, cond, v)
    ensures var l' := MarkAll(l[w := v][cond := v], parts, v) - {cond};
      && !IsMarked(l', cond, v)
      && Unmarked(MarkAll(l', {cond}, v), after, v)
      && (exit.Some? ==> IsMarked(MarkAll(l', {cond}, v), exit.value, v))
      && MarkAll(MarkAll(l', {cond}, v), after, v) == MarkAll(l, {w} + {cond} + (parts + after), v)
  {
    hide MarkAll;
    var all := {w} + (parts + {cond});
    MarkOne(l, w, v);
    ClearedMarks(l[w := v], parts, cond, {cond}, None, v);
    MarkAllTwice(l, {w}, parts + {cond}, v);
    UnmarkedAfter(l, all, after, v);
    MarkAllTwice(l, all, after, v);
    assert all + after == {w} + {cond} + (parts + after);
    if exit.Some? {
      MarkAllFacts(l, all, v, exit.value);
    }
  }

  lemma WalksToItself(h: Heap, cond: Ref)
    requires IsBlockTo(h, cond, None)
    ensures WalksTo(h, cond, None, cond)
  {
    assert IsWalk(h, cond, None, cond, End(cond));
  }

  ghost function ExitSet(exit: Option<Ref>): set<Ref> {
    if exit.Some? then {exit.value} else {}
  }

  /** The visit of the first block, and what is left to visit. */
  lemma FirstFacts(h: Heap, c: Chain, exit: Option<Ref>, preds: seq<Ref>, outs: seq<Ref>)
    requires Realizes(h, c, exit) && (exit.Some? ==> outs == [exit.value] && IsBlock(h, exit.value))
    ensures First(c) in Refs(c) && IsBlock(h, First(c))
    ensures var s := h[First(c)].content.successor;
      if s.Some? then
        && Yields(h, FirstFinder([s.value]), [FirstBlock(h, s.value)])
        && Trace(c, preds, outs) == [Visit(First(c), [FirstBlock(h, s.value)], preds)] + TraceAfter(c, outs)
      else
        c.End? && exit.None? && Trace(c, preds, outs) == [Visit(First(c), outs, preds)] && Refs(c) == {First(c)}
    ensures Yields(h, FirstFinder([First(c)]), [First(c)])
  {
    match c
    case End(b) =>
    case Link(b, rest) => RealizedFirst(h, rest, exit);
    case Then(b, k, rest) => EntryIsFirstBlock(h, k, First(rest));
  }

  lemma MarkFirst(l: Marks, r: Ref, rs: set<Ref>, exit: Option<Ref>, v: Visitor)
    requires r in rs && Unmarked(l, rs, v)
    ensures Unmarked(l[r := v], rs - {r}, v)
    ensures MarkAll(l[r := v], rs - {r}, v) == MarkAll(l, rs, v) && rs == {r} + (rs - {r})
    ensures rs == {r} ==> l[r := v] == MarkAll(l, rs, v)
    ensures exit.Some? && IsMarked(l, exit.value, v) ==> IsMarked(l[r := v], exit.value, v)
  {
  }

  lemma FirstInRefs(c: Chain)
    ensures First(c) in Refs(c)
  {
  }

  // ----- the whole graph -----

  /** `Context::VisitPreOrder` with a visitor that is stored in the entry. It may be a new one, made where an
      earlier one was. The whole graph passes for visited. */
  method VisitAgain(g: Graph, v: Visitor, ghost c: Chain)
    requires IsProperGraph(g.heap, c) && IsMarked(g.lastVisitor, ENTRY, v) && v.IsNew()
    modifies g, v
    ensures v.visits == [] && v.nodes == {ENTRY} && g.lastVisitor == old(g.lastVisitor)
  {
    g.VisitSequential(v, ENTRY, WholeGraph(c), None, [], []);
  }

  /** `Context::VisitPreOrder` with a visitor that is stored in no node of the graph. */
  method VisitPreOrder(g: Graph, v: Visitor, ghost c: Chain)
    requires IsProperGraph(g.heap, c) && Unmarked(g.lastVisitor, Refs(WholeGraph(c)), v) && v.IsNew()
    modifies g, v
    ensures v.findSuccessors == v.findPredecessors == NoFinder
    ensures v.visits == GraphTrace(c) && v.nodes == Refs(WholeGraph(c))
    ensures g.lastVisitor == MarkAll(old(g.lastVisitor), Refs(WholeGraph(c)), v)
    ensures forall x, y | x in v.visits && y in v.visits :: y.block in x.successors <==> x.block in y.predecessors
    ensures ReportsTargets(g.heap, v.visits) <==> Defaulted(c)
    ensures ReportsSources(g.heap, v.visits, Blocks(WholeGraph(c))) <==> Defaulted(c)
    ensures forall b :: multiset(VisitedBlocks(v.visits))[b] == if Reaches(g.heap, ENTRY, b) then 1 else 0
    ensures forall d | HasPart(WholeGraph(c), d) :: Ordered(v.visits, d)
  {
    hide Trace, Distinct, Refs, Realizes, MarkAll, Joined, ReportsTargets, ReportsSources, Reaches, Defaulted, Blocks;
    hide HasPart, Ordered;
    WholeGraphFacts(g.heap, c);
    FirstInRefs(WholeGraph(c));
    g.VisitSequential(v, ENTRY, WholeGraph(c), None, [], []);
    assert v.visits == GraphTrace(c);
    forall d | HasPart(WholeGraph(c), d) ensures Ordered(v.visits, d) {
      TraceOrdered(WholeGraph(c), [], [], d);
    }
    forall x, y | x in v.visits && y in v.visits
      ensures y.block in x.successors <==> x.block in y.predecessors
    {
      ReportsAreInverse(g.heap, c, x, y);
    }
    forall b
      ensures multiset(VisitedBlocks(v.visits))[b] == if Reaches(g.heap, ENTRY, b) then 1 else 0
    {
      TraversalIsExact(g.heap, c, b);
    }
    TraversalIsExact(g.heap, c, ENTRY);
    PredecessorsAreExact(g.heap, c);
  }
}
