/** Garbage collection of a context: a traversal marks, and the allocators sweep. */
module GarbageCollection {
  import opened Mir
  import opened Hir
  import opened Shape
  import opened Lowering
  import opened Execution
  import opened Edges
  import opened Reachability
  import opened Traversal
  import opened Pointing
  import opened Pools
  import opened Preservation

  // ----- the objects that a set of nodes keeps alive -----

  datatype NodeKind = SequentialKind | ConditionalKind | MultiWayKind | LoopKind

  function KindOf(n: Node): NodeKind {
    match n.content
    case Sequential(_, _) => SequentialKind
    case Conditional(_, _) => ConditionalKind
    case MultiWay(_, _, _, _) => MultiWayKind
    case Loop(_, _) => LoopKind
  }

  /** Objects of their own, as opposed to members of others. */
  function Objects(h: Heap, rs: set<Ref>, kind: NodeKind): set<nat> {
    set r | r in rs && r in h && r.member == Whole && KindOf(h[r]) == kind :: r.base
  }

  function ArmObjects(h: Heap, rs: set<Ref>): set<nat> {
    set r, e | r in rs && r in h && h[r].content.MultiWay? && e in h[r].content.arms :: e.base
  }

  function CodeObjects(h: Heap, rs: set<Ref>): set<nat> {
    set r, i | r in rs && r in h && h[r].content.Sequential? && i in h[r].content.code :: i.address
  }

  function SymbolObjects(h: Heap, rs: set<Ref>): set<nat> {
    set r, i, o | r in rs && r in h && h[r].content.Sequential? && i in h[r].content.code
                  && o in i.operation.operands && o.SymbolOperand? :: o.symbol
  }

  lemma ObjectHeld(h: Heap, rs: set<Ref>, kind: NodeKind, a: nat)
    ensures a in Objects(h, rs, kind) <==>
            Ref(a, Whole) in rs && Ref(a, Whole) in h &&
            match kind
            case SequentialKind => h[Ref(a, Whole)].content.Sequential?
            case ConditionalKind => h[Ref(a, Whole)].content.Conditional?
            case MultiWayKind => h[Ref(a, Whole)].content.MultiWay?
            case LoopKind => h[Ref(a, Whole)].content.Loop?
  {
  }

  lemma ArmHeld(h: Heap, rs: set<Ref>, a: nat)
    ensures a in ArmObjects(h, rs) <==>
            exists r, i :: r in rs && r in h && h[r].content.MultiWay? && 0 <= i < |h[r].content.arms|
                        && h[r].content.arms[i].base == a
  {
    if a in ArmObjects(h, rs) {
      var r, e :| r in rs && r in h && h[r].content.MultiWay? && e in h[r].content.arms && e.base == a;
      var i :| 0 <= i < |h[r].content.arms| && h[r].content.arms[i] == e;
    }
  }

  lemma CodeHeld(h: Heap, rs: set<Ref>, a: nat)
    ensures a in CodeObjects(h, rs) <==>
            exists r, i :: r in rs && IsBlock(h, r) && 0 <= i < |h[r].content.code| && h[r].content.code[i].address == a
  {
    if a in CodeObjects(h, rs) {
      var r, x :| r in rs && r in h && h[r].content.Sequential? && x in h[r].content.code && x.address == a;
      var i :| 0 <= i < |h[r].content.code| && h[r].content.code[i] == x;
    }
  }

  lemma SymbolHeld(h: Heap, rs: set<Ref>, s: nat)
    ensures s in SymbolObjects(h, rs) <==>
            exists r, i, j :: r in rs && IsBlock(h, r) && 0 <= i < |h[r].content.code|
                           && 0 <= j < |h[r].content.code[i].operation.operands|
                           && h[r].content.code[i].operation.operands[j] == SymbolOperand(s)
  {
    if s in SymbolObjects(h, rs) {
      var r, x, o :| r in rs && r in h && h[r].content.Sequential? && x in h[r].content.code
                     && o in x.operation.operands && o == SymbolOperand(s);
      var i :| 0 <= i < |h[r].content.code| && h[r].content.code[i] == x;
      var j :| 0 <= j < |x.operation.operands| && x.operation.operands[j] == o;
      assert h[r].content.code[i].operation.operands[j] == SymbolOperand(s);
    }
    if r, i, j :| r in rs && r in h && h[r].content.Sequential? && 0 <= i < |h[r].content.code|
                  && 0 <= j < |h[r].content.code[i].operation.operands|
                  && h[r].content.code[i].operation.operands[j] == SymbolOperand(s) {
      assert h[r].content.code[i] in h[r].content.code;
      assert SymbolOperand(s) in h[r].content.code[i].operation.operands;
    }
  }

  /** The nodes in memory that can be reached from the entry. */
  ghost function Reached(h: Heap): set<Ref> {
    set r | r in h && PointsTo(h, ENTRY, r)
  }

  lemma ReachedIsGraph(h: Heap, c: Chain)
    requires IsProperGraph(h, c)
    ensures Reached(h) == Refs(WholeGraph(c))
  {
    WholeGraphFacts(h, c);
    RealizedRefs(h, WholeGraph(c), None);
    forall r ensures r in Refs(WholeGraph(c)) <==> PointsTo(h, ENTRY, r) {
      GraphIsReachable(h, c, r);
    }
  }

  // ----- every node of the graph lies inside an object of the graph -----

  ghost predicate Owned(h: Heap, rs: set<Ref>, base: nat) {
    base == CONTEXT || base in ArmObjects(h, rs) || exists k :: base in Objects(h, rs, k)
  }

  ghost predicate AllOwned(h: Heap, rs: set<Ref>, owned: set<Ref>) {
    forall r | r in owned :: Owned(h, rs, r.base)
  }

  lemma WholeIsOwned(h: Heap, rs: set<Ref>, r: Ref)
    requires r in rs && r in h && r.member == Whole
    ensures Owned(h, rs, r.base)
  {
    assert r.base in Objects(h, rs, KindOf(h[r]));
  }

  lemma ArmIsOwned(h: Heap, rs: set<Ref>, w: Ref, e: ArmEntry)
    requires w in rs && w in h && h[w].content.MultiWay? && e in h[w].content.arms
    ensures Owned(h, rs, e.base)
  {
  }

  lemma {:induction false} ChainOwned(h: Heap, rs: set<Ref>, c: Chain, exit: Option<Ref>)
    requires Realizes(h, c, exit) && Built(c) && Refs(c) <= rs && Owned(h, rs, First(c).base)
    ensures AllOwned(h, rs, Refs(c))
    decreases c
  {
    hide Owned;
    match c
    case End(b) =>
    case Then(b, k, rest) =>
      RealizedFirst(h, rest, exit);
      FirstInRefs(rest);
      WholeIsOwned(h, rs, First(rest));
      ChainOwned(h, rs, rest, exit);
      ConstructOwned(h, rs, k, First(rest));
  }

  lemma {:induction false} ConstructOwned(h: Heap, rs: set<Ref>, k: Construct, join: Ref)
    requires RealizesConstruct(h, k, join) && BuiltConstruct(k) && ConstructRefs(k) <= rs
    ensures AllOwned(h, rs, ConstructRefs(k))
    decreases k
  {
    hide Owned;
    assert Ref(k.base, Whole) in ConstructRefs(k);
    WholeIsOwned(h, rs, Ref(k.base, Whole));
    match k
    case IfShape(_, _, thn, els) =>
      ChainOwned(h, rs, thn, Some(join));
      ChainOwned(h, rs, els, Some(join));
    case SwitchShape(base, _, arms) =>
      ArmsOwned(h, rs, arms, join, Ref(base, Whole));
    case LoopShape(_, _, init, update, body) =>
      ChainOwned(h, rs, init, Some(Ref(k.base, Condition)));
      ChainOwned(h, rs, update, Some(Ref(k.base, Condition)));
      ChainOwned(h, rs, body, Some(Ref(k.base, Update)));
  }

  lemma {:induction false} ArmsOwned(h: Heap, rs: set<Ref>, arms: Arms, join: Ref, w: Ref)
    requires RealizesArms(h, arms, join) && BuiltArms(arms) && ArmRefs(arms) <= rs
    requires w in rs && w in h && h[w].content.MultiWay? && forall e | e in Entries(arms) :: e in h[w].content.arms
    ensures AllOwned(h, rs, ArmRefs(arms))
    decreases arms
  {
    match arms
    case NoArms =>
    case Arm(base, key, chain, next) =>
      assert ArmEntry(base, key) in Entries(arms);
      ArmIsOwned(h, rs, w, ArmEntry(base, key));
      assert forall e | e in Entries(next) :: e in Entries(arms);
      hide Owned, ArmObjects;
      ChainOwned(h, rs, chain, Some(join));
      ArmsOwned(h, rs, next, join, w);
  }

  /** The memory of the graph survives when exactly the objects of the graph do. */
  lemma GraphOwned(h: Heap, c: Chain)
    requires IsProperGraph(h, c) && Built(c)
    ensures AllOwned(h, Refs(WholeGraph(c)), Refs(WholeGraph(c)))
  {
    var rs := Refs(WholeGraph(c));
    JoinedFacts(h, c, End(EXIT), None);
    ChainOwned(h, rs, c, Some(EXIT));
  }

  // ----- the visited blocks are the reachable ones -----

  /** Of the nodes of a chain exactly its blocks hold code. */
  lemma {:induction false} BlocksHoldCode(h: Heap, c: Chain, exit: Option<Ref>)
    requires Realizes(h, c, exit) && Distinct(c)
    ensures Blocks(c) == set r | r in Refs(c) && IsBlock(h, r)
    decreases c
  {
    match c
    case End(b) =>
    case Link(b, rest) => BlocksHoldCode(h, rest, exit);
    case Then(b, k, rest) =>
      BlocksHoldCode(h, rest, exit);
      ConstructBlocksHoldCode(h, k, First(rest));
  }

  lemma {:induction false} ConstructBlocksHoldCode(h: Heap, k: Construct, join: Ref)
    requires RealizesConstruct(h, k, join) && DistinctConstruct(k)
    ensures ConstructBlocks(k) == set r | r in ConstructRefs(k) && IsBlock(h, r)
    decreases k
  {
    hide Refs, Blocks, Realizes, Distinct;
    var cond := Ref(k.base, Condition);
    match k
    case IfShape(_, _, thn, els) =>
      BlocksHoldCode(h, thn, Some(join));
      BlocksHoldCode(h, els, Some(join));
    case SwitchShape(_, _, arms) => ArmBlocksHoldCode(h, arms, join);
    case LoopShape(_, _, init, update, body) =>
      BlocksHoldCode(h, init, Some(cond));
      BlocksHoldCode(h, update, Some(cond));
      BlocksHoldCode(h, body, Some(Ref(k.base, Update)));
  }

  lemma {:induction false} ArmBlocksHoldCode(h: Heap, arms: Arms, join: Ref)
    requires RealizesArms(h, arms, join) && DistinctArms(arms)
    ensures ArmBlocks(arms) == set r | r in ArmRefs(arms) && IsBlock(h, r)
    decreases arms
  {
    match arms
    case NoArms =>
    case Arm(_, _, chain, next) =>
      BlocksHoldCode(h, chain, Some(join));
      ArmBlocksHoldCode(h, next, join);
  }

  // ----- the collector -----

  /** The allocators whose objects are graph nodes or arms. */
  datatype NodePools = NodePools(seqs: Pool<nat>, conds: Pool<nat>, mbrs: Pool<nat>, loops: Pool<nat>, arms: Pool<nat>)

  /** The nodes of `rs`, and the arms of the switches among them, have been marked as well. */
  function MarkingNodes(h: Heap, rs: set<Ref>, p: NodePools): NodePools {
    NodePools(Marking(p.seqs, Objects(h, rs, SequentialKind)), Marking(p.conds, Objects(h, rs, ConditionalKind)),
              Marking(p.mbrs, Objects(h, rs, MultiWayKind)), Marking(p.loops, Objects(h, rs, LoopKind)),
              Marking(p.arms, ArmObjects(h, rs)))
  }

  lemma MarkingOneMore(h: Heap, rs: set<Ref>, r: Ref, p: NodePools)
    ensures MarkingNodes(h, {r}, MarkingNodes(h, rs, p)) == MarkingNodes(h, rs + {r}, p)
  {
    hide Objects, ArmObjects, KindOf;
    ObjectsUnion(h, rs, r);
  }

  lemma MarkingNone(h: Heap, p: NodePools)
    ensures MarkingNodes(h, {}, p) == p
  {
    hide Objects, ArmObjects, KindOf;
    ObjectsNone(h);
  }

  class ManagedContext {
    var heap: Heap
    var lastVisitor: Marks
    var seqs: Pool<nat>
    var conds: Pool<nat>
    var mbrs: Pool<nat>
    var loops: Pool<nat>
    var arms: Pool<nat>
    var instructions: Pool<nat>
    var symbols: Pool<nat>

    /** A context with the memory `h`, all of whose objects are live. */
    constructor (h: Heap, instructions: set<nat>, symbols: set<nat>)
      ensures heap == h && AllAllocated() && lastVisitor == map[]
      ensures this.instructions.live == instructions && this.symbols.live == symbols
    {
      heap, lastVisitor := h, map[];
      seqs, conds := Pool(Objects(h, h.Keys, SequentialKind), {}), Pool(Objects(h, h.Keys, ConditionalKind), {});
      mbrs, loops := Pool(Objects(h, h.Keys, MultiWayKind), {}), Pool(Objects(h, h.Keys, LoopKind), {});
      arms := Pool(ArmObjects(h, h.Keys), {});
      this.instructions, this.symbols := Pool(instructions, {}), Pool(symbols, {});
    }

    /** Begin a collection. */
    method MarkAllUnreachable()
      modifies `seqs, `conds, `mbrs, `loops, `arms, `instructions, `symbols
      ensures seqs == old(seqs).UnmarkAll() && conds == old(conds).UnmarkAll() && mbrs == old(mbrs).UnmarkAll()
      ensures loops == old(loops).UnmarkAll() && arms == old(arms).UnmarkAll()
      ensures instructions == old(instructions).UnmarkAll() && symbols == old(symbols).UnmarkAll()
    {
      symbols := symbols.UnmarkAll();
      instructions := instructions.UnmarkAll();
      seqs := seqs.UnmarkAll();
      conds := conds.UnmarkAll();
      mbrs := mbrs.UnmarkAll();
      arms := arms.UnmarkAll();
      loops := loops.UnmarkAll();
    }

    /** The callback for a graph node. A node that is a member of another object, or of the context, is
        owned by no allocator. */
    method MarkNode(r: Ref)
      requires r in heap
      modifies `seqs, `conds, `mbrs, `loops, `arms
      ensures NodePoolsNow() == MarkingNodes(heap, {r}, old(NodePoolsNow()))
    {
      hide Objects, ArmObjects;
      ObjectsOne(heap, r);
      match heap[r].content
      case Sequential(_, _) =>
        if r.member == Whole {
          seqs := seqs.Mark(r.base);
        }
      case Conditional(_, _) =>
        if r.member == Whole {
          conds := conds.Mark(r.base);
        }
      case MultiWay(_, entries, _, _) =>
        if r.member == Whole {
          mbrs := mbrs.Mark(r.base);
        }
        MarkArms(entries);
      case Loop(_, _) =>
        if r.member == Whole {
          loops := loops.Mark(r.base);
        }
    }

    method MarkArms(entries: seq<ArmEntry>)
      modifies `arms
      ensures arms == Marking(old(arms), ArmBases(entries))
    {
      for i := 0 to |entries|
        invariant arms == Marking(old(arms), ArmBases(entries[..i]))
      {
        arms := arms.Mark(entries[i].base);
        assert entries[..i + 1] == entries[..i] + [entries[i]];
      }
      assert entries[..|entries|] == entries;
    }

    ghost function NodePoolsNow(): NodePools
      reads this
    {
      NodePools(seqs, conds, mbrs, loops, arms)
    }

    method MarkNodes(rs: set<Ref>)
      requires rs <= heap.Keys
      modifies `seqs, `conds, `mbrs, `loops, `arms
      ensures NodePoolsNow() == MarkingNodes(heap, rs, old(NodePoolsNow()))
    {
      hide MarkingNodes;
      MarkingNone(heap, NodePoolsNow());
      var done: set<Ref>, rest := {}, rs;
      while rest != {}
        invariant done + rest == rs
        invariant NodePoolsNow() == MarkingNodes(heap, done, old(NodePoolsNow()))
      {
        var r :| r in rest;
        MarkingOneMore(heap, done, r, old(NodePoolsNow()));
        MarkNode(r);
        done, rest := done + {r}, rest - {r};
      }
      assert done == rs;
    }

    /** The callback for a basic block. */
    method MarkBlock(b: Ref)
      requires IsBlock(heap, b)
      modifies `instructions, `symbols
      ensures instructions == Marking(old(instructions), CodeObjects(heap, {b}))
      ensures symbols == Marking(old(symbols), SymbolObjects(heap, {b}))
    {
      var code := heap[b].content.code;
      for i := 0 to |code|
        invariant instructions == Marking(old(instructions), CodeOfPrefix(code[..i]))
        invariant symbols == Marking(old(symbols), SymbolsOfPrefix(code[..i]))
      {
        instructions := instructions.Mark(code[i].address);
        MarkOperands(code[i].operation.operands);
        assert code[..i + 1] == code[..i] + [code[i]];
      }
      assert code[..|code|] == code;
    }

    method MarkOperands(operands: seq<Operand>)
      modifies `symbols
      ensures symbols == Marking(old(symbols), set o | o in operands && o.SymbolOperand? :: o.symbol)
    {
      for i := 0 to |operands|
        invariant symbols == Marking(old(symbols), set o | o in operands[..i] && o.SymbolOperand? :: o.symbol)
      {
        if operands[i].SymbolOperand? {
          symbols := symbols.Mark(operands[i].symbol);
        }
        assert operands[..i + 1] == operands[..i] + [operands[i]];
      }
      assert operands[..|operands|] == operands;
    }

    method MarkBlocks(bs: seq<Ref>)
      requires forall b | b in bs :: IsBlock(heap, b)
      modifies `instructions, `symbols
      ensures instructions == Marking(old(instructions), CodeObjects(heap, SetOf(bs)))
      ensures symbols == Marking(old(symbols), SymbolObjects(heap, SetOf(bs)))
    {
      hide CodeObjects, SymbolObjects;
      ObjectsNone(heap);
      assert SetOf(bs[..0]) == {};
      for i := 0 to |bs|
        invariant instructions == Marking(old(instructions), CodeObjects(heap, SetOf(bs[..i])))
        invariant symbols == Marking(old(symbols), SymbolObjects(heap, SetOf(bs[..i])))
      {
        assert SetOf(bs[..i + 1]) == SetOf(bs[..i]) + {bs[i]};
        ObjectsUnion(heap, SetOf(bs[..i]), bs[i]);
        MarkBlock(bs[i]);
      }
      assert bs[..|bs|] == bs;
    }

    // ----- the whole collection -----

    /** Every object in memory is live in the pool for its kind. */
    ghost predicate AllAllocated()
      reads this
    {
      && (forall k :: Objects(heap, heap.Keys, k) <= PoolFor(k).live)
      && ArmObjects(heap, heap.Keys) <= arms.live
    }

    function PoolFor(k: NodeKind): Pool<nat>
      reads this
    {
      match k
      case SequentialKind => seqs
      case ConditionalKind => conds
      case MultiWayKind => mbrs
      case LoopKind => loops
    }

    method SweepAll()
      modifies `seqs, `conds, `mbrs, `loops, `arms, `instructions, `symbols
      ensures seqs == old(seqs).Sweep() && conds == old(conds).Sweep() && mbrs == old(mbrs).Sweep()
      ensures loops == old(loops).Sweep() && arms == old(arms).Sweep()
      ensures instructions == old(instructions).Sweep() && symbols == old(symbols).Sweep()
    {
      symbols := symbols.Sweep();
      instructions := instructions.Sweep();
      seqs := seqs.Sweep();
      conds := conds.Sweep();
      mbrs := mbrs.Sweep();
      arms := arms.Sweep();
      loops := loops.Sweep();
    }

    /** The memory of objects that are no longer live is gone. */
    method ReleaseMemory()
      modifies `heap
      ensures heap == Surviving(old(heap), seqs.live + conds.live + mbrs.live + loops.live + arms.live)
    {
      var bases := seqs.live + conds.live + mbrs.live + loops.live + arms.live;
      heap := map r | r in heap && (r.base == CONTEXT || r.base in bases) :: heap[r];
    }

    /** Mark and sweep. The visitor lies on the stack, where an earlier one may have been. One that is stored
        in no node of the graph sees the graph; one that is stored in the entry sees nothing. */
    method CollectPools(v: Visitor, ghost c: Chain)
      requires IsProperGraph(heap, c) && v.IsNew() && MayVisit(v, c)
      modifies `lastVisitor, `seqs, `conds, `mbrs, `loops, `arms, `instructions, `symbols, v
      ensures lastVisitor == old(MarksAfter(v, c)) && IsMarked(lastVisitor, ENTRY, v)
      ensures forall k :: PoolFor(k).live == old(PoolFor(k)).live * Objects(heap, old(Seen(v)), k)
      ensures arms.live == old(arms).live * ArmObjects(heap, old(Seen(v)))
      ensures instructions.live == old(instructions).live * CodeObjects(heap, old(Seen(v)))
      ensures symbols.live == old(symbols).live * SymbolObjects(heap, old(Seen(v)))
    {
      hide Objects, ArmObjects, CodeObjects, SymbolObjects, Reached, IsProperGraph, Marking, Seen, MayVisit;
      ghost var rs := Seen(v);
      MarkAllUnreachable();
      MarkReachable(v, c);
      SweepAll();
      MarkedSweep(old(seqs), Objects(heap, rs, SequentialKind));
      MarkedSweep(old(conds), Objects(heap, rs, ConditionalKind));
      MarkedSweep(old(mbrs), Objects(heap, rs, MultiWayKind));
      MarkedSweep(old(loops), Objects(heap, rs, LoopKind));
      MarkedSweep(old(arms), ArmObjects(heap, rs));
      MarkedSweep(old(instructions), CodeObjects(heap, rs));
      MarkedSweep(old(symbols), SymbolObjects(heap, rs));
    }

    ghost predicate MayVisit(v: Visitor, c: Chain)
      reads `lastVisitor
    {
      IsMarked(lastVisitor, ENTRY, v) || Unmarked(lastVisitor, Refs(WholeGraph(c)), v)
    }

    /** The marks that a traversal leaves. */
    ghost function MarksAfter(v: Visitor, c: Chain): Marks
      reads `lastVisitor
    {
      if IsMarked(lastVisitor, ENTRY, v) then lastVisitor else MarkAll(lastVisitor, Refs(WholeGraph(c)), v)
    }

    /** The nodes that a visitor gets to see. */
    ghost function Seen(v: Visitor): set<Ref>
      reads `lastVisitor, `heap
    {
      if IsMarked(lastVisitor, ENTRY, v) then {} else Reached(heap)
    }

    /** The mark phase: traverse the graph, and mark what the visitor sees. */
    method MarkReachable(v: Visitor, ghost c: Chain)
      requires IsProperGraph(heap, c) && v.IsNew() && MayVisit(v, c)
      modifies `lastVisitor, `seqs, `conds, `mbrs, `loops, `arms, `instructions, `symbols, v
      ensures lastVisitor == old(MarksAfter(v, c)) && IsMarked(lastVisitor, ENTRY, v)
      ensures NodePoolsNow() == MarkingNodes(heap, old(Seen(v)), old(NodePoolsNow()))
      ensures instructions == Marking(old(instructions), CodeObjects(heap, old(Seen(v))))
      ensures symbols == Marking(old(symbols), SymbolObjects(heap, old(Seen(v))))
    {
      hide Objects, ArmObjects, CodeObjects, SymbolObjects, Reached, Refs, Distinct, Realizes, IsProperGraph, SetOf;
      hide WholeGraph, GraphTrace, MarkingNodes, Marking;
      var g := new Graph(heap, lastVisitor);
      if IsMarked(lastVisitor, ENTRY, v) {
        VisitAgain(g, v, c);
        EntryUnowned(heap, c, NodePoolsNow());
        NothingMarked(heap, instructions);
        NothingMarked(heap, symbols);
      } else {
        VisitPreOrder(g, v, c);
        ReachedIsGraph(heap, c);
        VisitedIsReached(heap, c);
        EntryInGraph(heap, c);
        MarkAllFacts(lastVisitor, v.nodes, v, ENTRY);
      }
      lastVisitor := g.lastVisitor;
      MarkNodes(v.nodes);
      MarkBlocks(VisitedBlocks(v.visits));
    }

    /** The same where every object, instruction and symbol of the memory is live: what the visitor gets to see
        is what stays. */
    method CollectSeen(v: Visitor, ghost c: Chain)
      requires IsProperGraph(heap, c) && v.IsNew() && MayVisit(v, c) && AllAllocated()
      requires CodeObjects(heap, heap.Keys) <= instructions.live && SymbolObjects(heap, heap.Keys) <= symbols.live
      modifies `lastVisitor, `seqs, `conds, `mbrs, `loops, `arms, `instructions, `symbols, v
      ensures lastVisitor == old(MarksAfter(v, c)) && IsMarked(lastVisitor, ENTRY, v)
      ensures forall k :: PoolFor(k).live == Objects(heap, old(Seen(v)), k)
      ensures arms.live == ArmObjects(heap, old(Seen(v)))
      ensures instructions.live == CodeObjects(heap, old(Seen(v)))
      ensures symbols.live == SymbolObjects(heap, old(Seen(v)))
    {
      ObjectsMonotone(heap, Seen(v));
      hide Objects, ArmObjects, CodeObjects, SymbolObjects, Reached, IsProperGraph, Seen, MayVisit, MarksAfter;
      CollectPools(v, c);
    }

    /** Collect garbage. Of the objects in each pool exactly those survive that can be reached from the
        entry; of the symbols, those that reachable instructions mention. Every node that can be reached
        survives unchanged, so the graph still stands for the same program. */
    method GarbageCollect(v: Visitor, ghost c: Chain)
      requires IsProperGraph(heap, c) && Built(c) && AllAllocated()
      requires v.IsNew() && Unmarked(lastVisitor, Refs(WholeGraph(c)), v)
      modifies this, v
      ensures forall k :: PoolFor(k).live == Objects(old(heap), old(Reached(heap)), k)
      ensures arms.live == ArmObjects(old(heap), old(Reached(heap)))
      ensures instructions.live == old(instructions).live * CodeObjects(old(heap), old(Reached(heap)))
      ensures symbols.live == old(symbols).live * SymbolObjects(old(heap), old(Reached(heap)))
      ensures forall a :: a in instructions.live <==>
                && a in old(instructions).live
                && exists b, i :: Reaches(old(heap), ENTRY, b) && IsBlock(old(heap), b)
                               && 0 <= i < |old(heap)[b].content.code| && old(heap)[b].content.code[i].address == a
      ensures forall s :: s in symbols.live <==>
                && s in old(symbols).live
                && exists b, i, j :: Reaches(old(heap), ENTRY, b) && IsBlock(old(heap), b)
                                  && 0 <= i < |old(heap)[b].content.code|
                                  && 0 <= j < |old(heap)[b].content.code[i].operation.operands|
                                  && old(heap)[b].content.code[i].operation.operands[j] == SymbolOperand(s)
      ensures heap == Surviving(old(heap), seqs.live + conds.live + mbrs.live + loops.live + arms.live)
      ensures forall r | r in old(Reached(heap)) :: r in heap && heap[r] == old(heap)[r]
      ensures IsProperGraph(heap, c) && Denote(heap, c) == Denote(old(heap), c)
    {
      hide Objects, ArmObjects, CodeObjects, SymbolObjects, Reached, Surviving, IsProperGraph, Denote, Refs, WholeGraph, Built;
      hide MarkAll, MarksAfter, GraphTrace, Reaches, IsBlock;
      EntryInGraph(heap, c);
      ghost var h, rs := heap, Reached(heap);
      VisitedIsReached(heap, c);
      ObjectsMonotone(heap, rs);
      CollectPools(v, c);
      ReleaseMemory();
      GraphSurvives(h, c, seqs.live + conds.live + mbrs.live + loops.live + arms.live);
      AllKept(h, c);
    }

    /** Two collections from the same place on the stack: the second one takes the graph for visited and frees
        everything. */
    method CollectTwice(v: Visitor, ghost c: Chain)
      requires IsProperGraph(heap, c) && v.IsNew() && MayVisit(v, c)
      modifies `lastVisitor, `seqs, `conds, `mbrs, `loops, `arms, `instructions, `symbols, v
      ensures forall k :: PoolFor(k).live == {}
      ensures arms.live == instructions.live == symbols.live == {}
    {
      hide Objects, ArmObjects, CodeObjects, SymbolObjects, Reached, IsProperGraph;
      CollectPools(v, c);
      v.Renew();
      CollectPools(v, c);
      ObjectsNone(heap);
      assert forall k :: Objects(heap, {}, k) == {};
    }
  }

  lemma EntryInGraph(h: Heap, c: Chain)
    requires IsProperGraph(h, c)
    ensures ENTRY in Refs(WholeGraph(c)) && IsBlock(h, ENTRY)
  {
    WholeGraphFacts(h, c);
    FirstInRefs(WholeGraph(c));
    RealizedFirst(h, WholeGraph(c), None);
  }

  /** The entry is part of the context: to mark it changes nothing. */
  lemma EntryUnowned(h: Heap, c: Chain, p: NodePools)
    requires IsProperGraph(h, c)
    ensures ENTRY in h && MarkingNodes(h, {ENTRY}, p) == p == MarkingNodes(h, {}, p)
  {
    hide IsProperGraph, Objects, ArmObjects, Refs, WholeGraph;
    EntryInGraph(h, c);
    ObjectsOne(h, ENTRY);
    MarkingNone(h, p);
  }

  lemma NothingMarked(h: Heap, p: Pool<nat>)
    ensures SetOf(VisitedBlocks([])) == {}
    ensures Marking(p, CodeObjects(h, {})) == p == Marking(p, SymbolObjects(h, {}))
  {
    hide CodeObjects, SymbolObjects;
    ObjectsNone(h);
  }

  /** When the objects of the graph survive, so does the graph. */
  lemma GraphSurvives(h: Heap, c: Chain, bases: set<nat>)
    requires IsProperGraph(h, c) && Built(c)
    requires forall k :: Objects(h, Reached(h), k) <= bases
    requires ArmObjects(h, Reached(h)) <= bases
    ensures var h' := Surviving(h, bases);
      && (forall r | r in Reached(h) :: r in h' && h'[r] == h[r])
      && IsProperGraph(h', c) && Denote(h', c) == Denote(h, c)
  {
    var rs, h' := Reached(h), Surviving(h, bases);
    JoinedFacts(h, c, End(EXIT), None);
    hide Objects, ArmObjects, Reached, Denote, Distinct, Realizes, Built;
    ReachedIsGraph(h, c);
    GraphOwned(h, c);
    VisitedIsReached(h, c);
    assert AgreeOn(h, h', Refs(c));
    Frame(h, h', c, Some(EXIT));
  }

  lemma MarkedSweep(p: Pool<nat>, os: set<nat>)
    ensures Marking(p.UnmarkAll(), os).Sweep().live == p.live * os
  {
  }

  function Surviving(h: Heap, bases: set<nat>): Heap {
    map r | r in h && (r.base == CONTEXT || r.base in bases) :: h[r]
  }

  lemma ObjectsMonotone(h: Heap, rs: set<Ref>)
    requires rs <= h.Keys
    ensures forall k {:trigger Objects(h, rs, k)} :: Objects(h, rs, k) <= Objects(h, h.Keys, k)
    ensures ArmObjects(h, rs) <= ArmObjects(h, h.Keys) && CodeObjects(h, rs) <= CodeObjects(h, h.Keys)
    ensures SymbolObjects(h, rs) <= SymbolObjects(h, h.Keys)
  {
  }

  lemma VisitedAreBlocks(c: Chain)
    requires Distinct(WholeGraph(c))
    ensures SetOf(VisitedBlocks(GraphTrace(c))) == Blocks(WholeGraph(c))
  {
    var bs := VisitedBlocks(GraphTrace(c));
    hide Distinct, Trace, WholeGraph, Blocks, VisitedBlocks;
    TraceVisitsOnce(WholeGraph(c), [], []);
    forall b ensures b in SetOf(bs) <==> b in Blocks(WholeGraph(c)) {
      assert b in multiset(bs) <==> b in Blocks(WholeGraph(c));
    }
  }

  /** Code is found exactly in the reachable blocks. */
  lemma VisitedIsReached(h: Heap, c: Chain)
    requires IsProperGraph(h, c)
    ensures CodeObjects(h, SetOf(VisitedBlocks(GraphTrace(c)))) == CodeObjects(h, Reached(h))
    ensures SymbolObjects(h, SetOf(VisitedBlocks(GraphTrace(c)))) == SymbolObjects(h, Reached(h))
    ensures forall b | b in VisitedBlocks(GraphTrace(c)) :: IsBlock(h, b)
    ensures Reached(h) <= h.Keys
  {
    var g := WholeGraph(c);
    hide Distinct, Blocks, VisitedBlocks, WholeGraph, GraphTrace, Realizes, Refs, CodeObjects, SymbolObjects, PointsTo;
    WholeGraphFacts(h, c);
    ReachedIsGraph(h, c);
    VisitedAreBlocks(c);
    BlocksHoldCode(h, g, None);
    CodeInBlocks(h, Reached(h), Blocks(g));
    forall b | b in VisitedBlocks(GraphTrace(c)) ensures IsBlock(h, b) {
      assert b in SetOf(VisitedBlocks(GraphTrace(c)));
    }
  }

  lemma CodeInBlocks(h: Heap, rs: set<Ref>, bs: set<Ref>)
    requires bs == set r | r in rs && IsBlock(h, r)
    ensures CodeObjects(h, bs) == CodeObjects(h, rs) && SymbolObjects(h, bs) == SymbolObjects(h, rs)
  {
    assert forall r | r in rs && r in h && h[r].content.Sequential? :: r in bs;
  }

  /** The blocks that control reaches from the entry are the blocks in reachable memory. */
  lemma ControlReaches(h: Heap, c: Chain, b: Ref)
    requires IsProperGraph(h, c)
    ensures Reaches(h, ENTRY, b) <==> b in Reached(h) && IsBlock(h, b)
  {
    hide Distinct, Blocks, WholeGraph, GraphTrace, Realizes, Refs, Reached, Reaches;
    WholeGraphFacts(h, c);
    BlocksHoldCode(h, WholeGraph(c), None);
    ReachedIsGraph(h, c);
    TraversalIsExact(h, c, b);
    GraphReports(h, c);
  }

  /** A live instruction survives exactly if it is one of those of a block that control reaches. */
  lemma CodeKept(h: Heap, c: Chain, a: nat)
    requires IsProperGraph(h, c)
    ensures a in CodeObjects(h, Reached(h)) <==>
            exists b, i :: Reaches(h, ENTRY, b) && IsBlock(h, b) && 0 <= i < |h[b].content.code|
                        && h[b].content.code[i].address == a
  {
    hide IsProperGraph, Reached, Reaches, CodeObjects;
    CodeHeld(h, Reached(h), a);
    forall b ensures Reaches(h, ENTRY, b) <==> b in Reached(h) && IsBlock(h, b) {
      ControlReaches(h, c, b);
    }
  }

  /** A live symbol survives exactly if it is an operand of an instruction of a block that control reaches, be
      it the first operand, the destination, or a later one. */
  lemma SymbolKept(h: Heap, c: Chain, s: nat)
    requires IsProperGraph(h, c)
    ensures s in SymbolObjects(h, Reached(h)) <==>
            exists b, i, j :: Reaches(h, ENTRY, b) && IsBlock(h, b) && 0 <= i < |h[b].content.code|
                           && 0 <= j < |h[b].content.code[i].operation.operands|
                           && h[b].content.code[i].operation.operands[j] == SymbolOperand(s)
  {
    hide IsProperGraph, Reached, Reaches, SymbolObjects;
    SymbolHeld(h, Reached(h), s);
    forall b ensures Reaches(h, ENTRY, b) <==> b in Reached(h) && IsBlock(h, b) {
      ControlReaches(h, c, b);
    }
  }

  lemma AllKept(h: Heap, c: Chain)
    requires IsProperGraph(h, c)
    ensures forall a :: a in CodeObjects(h, Reached(h)) <==>
              exists b, i :: Reaches(h, ENTRY, b) && IsBlock(h, b) && 0 <= i < |h[b].content.code|
                          && h[b].content.code[i].address == a
    ensures forall s :: s in SymbolObjects(h, Reached(h)) <==>
              exists b, i, j :: Reaches(h, ENTRY, b) && IsBlock(h, b) && 0 <= i < |h[b].content.code|
                             && 0 <= j < |h[b].content.code[i].operation.operands|
                             && h[b].content.code[i].operation.operands[j] == SymbolOperand(s)
  {
    hide IsProperGraph, Reached, Reaches, SymbolObjects, CodeObjects;
    forall a
      ensures a in CodeObjects(h, Reached(h)) <==>
              exists b, i :: Reaches(h, ENTRY, b) && IsBlock(h, b) && 0 <= i < |h[b].content.code|
                          && h[b].content.code[i].address == a
    {
      CodeKept(h, c, a);
    }
    forall s
      ensures s in SymbolObjects(h, Reached(h)) <==>
              exists b, i, j :: Reaches(h, ENTRY, b) && IsBlock(h, b) && 0 <= i < |h[b].content.code|
                             && 0 <= j < |h[b].content.code[i].operation.operands|
                             && h[b].content.code[i].operation.operands[j] == SymbolOperand(s)
    {
      SymbolKept(h, c, s);
    }
  }

  function CodeOfPrefix(code: seq<Instruction>): set<nat> {
    set i | i in code :: i.address
  }

  function SymbolsOfPrefix(code: seq<Instruction>): set<nat> {
    set i, o | i in code && o in i.operation.operands && o.SymbolOperand? :: o.symbol
  }

  function ArmBases(entries: seq<ArmEntry>): set<nat> {
    set e | e in entries :: e.base
  }

  lemma ObjectsNone(h: Heap)
    ensures forall k {:trigger Objects(h, {}, k)} :: Objects(h, {}, k) == {}
    ensures ArmObjects(h, {}) == {} && CodeObjects(h, {}) == {} && SymbolObjects(h, {}) == {}
  {
  }

  lemma ObjectsOne(h: Heap, r: Ref)
    requires r in h
    ensures forall k {:trigger Objects(h, {r}, k)} ::
              Objects(h, {r}, k) == if r.member == Whole && KindOf(h[r]) == k then {r.base} else {}
    ensures ArmObjects(h, {r}) == if h[r].content.MultiWay? then ArmBases(h[r].content.arms) else {}
  {
    forall k {:trigger Objects(h, {r}, k)}
      ensures Objects(h, {r}, k) == if r.member == Whole && KindOf(h[r]) == k then {r.base} else {}
    {
    }
    if h[r].content.MultiWay? {
      assert forall e | e in h[r].content.arms :: e.base in ArmObjects(h, {r});
    }
  }

  lemma ObjectsUnion(h: Heap, rs: set<Ref>, r: Ref)
    ensures forall k {:trigger Objects(h, rs + {r}, k)} :: Objects(h, rs + {r}, k) == Objects(h, rs, k) + Objects(h, {r}, k)
    ensures ArmObjects(h, rs + {r}) == ArmObjects(h, rs) + ArmObjects(h, {r})
    ensures CodeObjects(h, rs + {r}) == CodeObjects(h, rs) + CodeObjects(h, {r})
    ensures SymbolObjects(h, rs + {r}) == SymbolObjects(h, rs) + SymbolObjects(h, {r})
  {
  }

  /** A pool in which the objects `os` have been marked as well. */
  function Marking(p: Pool<nat>, os: set<nat>): Pool<nat> {
    Pool(p.live, p.marked + os)
  }

  /** A collection does not change what the graph does: in the memory that is left when the objects `bases`
      survive, among them those that can be reached, the graph halts in the same states as before. */
  lemma CollectionPreservesMeaning<S>(m: Machine<S>, h: Heap, c: Chain, bases: set<nat>, s: S, s': S)
    requires IsProperGraph(h, c) && Built(c)
    requires forall k :: Objects(h, Reached(h), k) <= bases
    requires ArmObjects(h, Reached(h)) <= bases
    ensures GraphHalts(m, Surviving(h, bases), s, s') <==> GraphHalts(m, h, s, s')
  {
    GraphSurvives(h, c, bases);
    hide Surviving, Objects, ArmObjects, Built;
    GraphMeansProgram(m, h, c, s, s');
    GraphMeansProgram(m, Surviving(h, bases), c, s, s');
  }

  lemma CodeOfSurvivors(h: Heap, h': Heap, rs: set<Ref>)
    requires forall r | r in rs :: r in h && r in h' && h'[r] == h[r]
    ensures CodeObjects(h', rs) == CodeObjects(h, rs) <= CodeObjects(h, h.Keys)
    ensures SymbolObjects(h', rs) == SymbolObjects(h, rs) <= SymbolObjects(h, h.Keys)
  {
    assert forall r | r in rs :: r in h.Keys && h'[r] == h[r];
  }

  /** From end to end: a program that is compiled, and survives a collection, still means what it did. Of
      all instructions and symbols, those of the graph are what stays live; others are freed. */
  method CompileAndCollect(p: Prog, moreCode: set<nat>, moreSymbols: set<nat>)
      returns (managed: ManagedContext, ghost c: Chain)
    ensures IsProperGraph(managed.heap, c) && Denote(managed.heap, c) == p
    ensures managed.instructions.live == CodeObjects(managed.heap, Refs(WholeGraph(c)))
    ensures managed.symbols.live == SymbolObjects(managed.heap, Refs(WholeGraph(c)))
  {
    hide IsProperGraph, Denote, Built, Reached, Objects, ArmObjects, CodeObjects, SymbolObjects, KindOf, Refs, WholeGraph;
    var ctx;
    ctx, c := Compile(p);
    var h := ctx.heap;
    managed := new ManagedContext(h, CodeObjects(h, h.Keys) + moreCode, SymbolObjects(h, h.Keys) + moreSymbols);
    VisitedIsReached(h, c);
    ReachedIsGraph(h, c);
    var v := new Visitor();
    managed.GarbageCollect(v, c);
    CodeOfSurvivors(h, managed.heap, Reached(h));
  }
}
