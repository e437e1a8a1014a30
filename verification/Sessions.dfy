/** The life of a context: statements are lowered and the graph is traversed, in any order and any number of
    times. Every node keeps the visitor that marked it last, for as long as the context lives. */
module Sessions {
  import opened Mir
  import opened Hir
  import opened Shape
  import opened Lowering
  import opened Edges
  import opened Reachability
  import opened Traversal
  import opened Calls
  import opened HirToMir
  import opened Macros
  import opened Preservation
  import opened GarbageCollection

  /** No mark among the nodes `rs` is other than that of the entry. */
  ghost predicate Uniform(l: Marks, rs: set<Ref>) {
    forall r | r in rs && r in l :: IsMarked(l, ENTRY, l[r])
  }

  /** So a visitor is stored in the entry, or in no node at all. */
  lemma EntryTells(l: Marks, rs: set<Ref>, v: Visitor)
    requires Uniform(l, rs)
    ensures IsMarked(l, ENTRY, v) || Unmarked(l, rs, v)
  {
  }

  /** What a context has come to: a graph for the program `p`, whose marks are uniform. */
  ghost predicate Settled(h: Heap, next: nat, current: Ref, p: Prog, c: Chain, l: Marks) {
    && Lowered(EmptyHeap(), h, CONTEXT + 1, next, ENTRY, current, p, c)
    && l.Keys <= h.Keys && Uniform(l, Refs(WholeGraph(c)))
  }

  lemma SettledAnew()
    ensures Settled(EmptyHeap(), CONTEXT + 1, ENTRY, Nil, End(ENTRY), map[])
  {
    LoweredNothing(EmptyHeap(), CONTEXT + 1, ENTRY);
  }

  lemma WholeRefs(h: Heap, c: Chain)
    requires IsProperGraph(h, c)
    ensures Refs(WholeGraph(c)) == Refs(c) + {EXIT}
  {
    JoinedFacts(h, c, End(EXIT), None);
  }

  /** New nodes carry no mark, and old ones keep theirs. */
  lemma SettledThen(h: Heap, h': Heap, next: nat, next': nat, current: Ref, current': Ref, p: Prog, q: Prog,
                    c: Chain, d: Chain, l: Marks)
    requires Settled(h, next, current, p, c, l) && Lowered(h, h', next, next', current, current', q, d)
    ensures Settled(h', next', current', Concat(p, q), Graft(c, d), l)
  {
    LoweredKeeps(h, h', next, next', current, current', q, d);
    hide Refs, Realizes, Denote, Distinct, Built, WholeGraph, Lowered, IsProperGraph;
    LoweredThen(EmptyHeap(), h, h', CONTEXT + 1, next, next', ENTRY, current, current', p, q, c, d);
    LoweredIsGraph(h, next, current, p, c);
    LoweredIsGraph(h', next', current', Concat(p, q), Graft(c, d));
    WholeRefs(h, c);
    WholeRefs(h', Graft(c, d));
    CurrentIsOld(h, next, current, p, c);
    GraftFacts(c, d);
  }

  /** A traversal marks every node of the graph. */
  lemma SettledMarked(h: Heap, next: nat, current: Ref, p: Prog, c: Chain, l: Marks, v: Visitor)
    requires Settled(h, next, current, p, c, l)
    ensures var l' := MarkAll(l, Refs(WholeGraph(c)), v); Settled(h, next, current, p, c, l') && IsMarked(l', ENTRY, v)
  {
    hide Refs, WholeGraph, Lowered, Distinct, Realizes, Denote;
    LoweredIsGraph(h, next, current, p, c);
    NotNothing(h, c);
  }

  lemma LoweredKeeps(h: Heap, h': Heap, lo: nat, hi: nat, current: Ref, current': Ref, q: Prog, d: Chain)
    requires Lowered(h, h', lo, hi, current, current', q, d)
    ensures First(d) == current && h.Keys <= h'.Keys
    ensures forall r | r in Refs(d) && r in h :: r == current
  {
    hide Refs, Realizes, Denote, Distinct, Built;
    forall r | r in Refs(d) && r in h ensures r == current {
      assert r != current ==> r in Refs(d) - {current};
    }
  }

  lemma CurrentIsOld(h: Heap, next: nat, current: Ref, p: Prog, c: Chain)
    requires Lowered(EmptyHeap(), h, CONTEXT + 1, next, ENTRY, current, p, c)
    ensures current in Refs(c) && Last(c) == current
  {
    LastFacts(h, c, None);
  }

  class Session {
    const ctx: Context
    var marks: Marks

    /** What has been lowered so far, and the graph that it has become. */
    ghost var program: Prog
    ghost var chain: Chain

    constructor ()
      ensures Valid() && program == Nil && fresh(ctx)
    {
      ctx := new Context();
      marks, program, chain := map[], Nil, End(ENTRY);
      new;
      SettledAnew();
    }

    ghost predicate Valid()
      reads this, ctx
    {
      && ctx.Ready()
      && Settled(ctx.heap, ctx.next, ctx.current.value, program, chain, marks)
    }

    /** Between statements the graph is a proper one. */
    lemma GraphOf()
      requires Valid()
      ensures IsProperGraph(ctx.heap, chain) && Built(chain) && Denote(ctx.heap, chain) == program
      ensures forall v :: IsMarked(marks, ENTRY, v) || Unmarked(marks, Refs(WholeGraph(chain)), v)
    {
      hide Uniform, Lowered, Unmarked;
      LoweredIsGraph(ctx.heap, ctx.next, ctx.current.value, program, chain);
      forall v ensures IsMarked(marks, ENTRY, v) || Unmarked(marks, Refs(WholeGraph(chain)), v) {
        EntryTells(marks, Refs(WholeGraph(chain)), v);
      }
    }

    /** Lower more statements. */
    method LowerMore(p: Prog)
      requires Valid()
      modifies this, ctx
      ensures Valid() && program == Concat(old(program), p) && marks == old(marks)
    {
      hide Lowered, Concat, RunsTo, Orderly, MaySplice, Bounded;
      ghost var h, next, current := ctx.heap, ctx.next, ctx.current.value;
      ghost var more := Lower(ctx, p);
      SettledThen(h, ctx.heap, next, ctx.next, current, ctx.current.value, program, p, chain, more, marks);
      program, chain := Concat(program, p), Graft(chain, more);
    }

    /** `Context::VisitPreOrder` at any time between statements and with any visitor, be it one whose address
        an earlier one had. It sees the whole graph exactly when the entry does not carry it yet. */
    method Traverse(v: Visitor)
      requires Valid() && v.IsNew()
      modifies this`marks, v
      ensures Valid() && IsMarked(marks, ENTRY, v)
      ensures v.visits == GraphTrace(chain) <==> !old(IsMarked(marks, ENTRY, v))
      ensures v.nodes == Refs(WholeGraph(chain)) <==> !old(IsMarked(marks, ENTRY, v))
      ensures old(IsMarked(marks, ENTRY, v)) ==> v.visits == [] && v.nodes == {ENTRY} && marks == old(marks)
      ensures !old(IsMarked(marks, ENTRY, v)) ==> marks == MarkAll(old(marks), Refs(WholeGraph(chain)), v)
    {
      hide RunsTo, Orderly, MaySplice, Bounded, Settled, IsProperGraph, GraphTrace, Refs, WholeGraph, MarkAll, Unmarked, Built;
      GraphOf();
      SettledMarked(ctx.heap, ctx.next, ctx.current.value, program, chain, marks, v);
      marks := TraverseGraph(ctx.heap, marks, v, chain);
    }

    /** Mark and sweep at any time between statements, with a visitor of the collector. Where the entry does not
        carry it yet, exactly what the graph holds stays live; where it does, nothing stays. */
    method Collect(v: Visitor, moreCode: set<nat>, moreSymbols: set<nat>) returns (managed: ManagedContext)
      requires Valid() && v.IsNew()
      modifies this`marks, v
      ensures IsMarked(marks, ENTRY, v) && fresh(managed) && (!old(IsMarked(marks, ENTRY, v)) ==> Valid())
      ensures var rs := if old(IsMarked(marks, ENTRY, v)) then {} else Refs(WholeGraph(chain));
        && (forall k :: managed.PoolFor(k).live == Objects(ctx.heap, rs, k))
        && managed.arms.live == ArmObjects(ctx.heap, rs)
        && managed.instructions.live == CodeObjects(ctx.heap, rs)
        && managed.symbols.live == SymbolObjects(ctx.heap, rs)
    {
      hide RunsTo, Orderly, MaySplice, Bounded, Settled, IsProperGraph, Refs, WholeGraph, MarkAll, Unmarked, Built;
      hide Objects, ArmObjects, CodeObjects, SymbolObjects;
      GraphOf();
      SettledMarked(ctx.heap, ctx.next, ctx.current.value, program, chain, marks, v);
      managed := CollectGraph(ctx.heap, marks, v, chain, moreCode, moreSymbols);
      marks := managed.lastVisitor;
    }
  }

  /** One traversal, of which a visitor that the entry carries sees nothing. */
  method TraverseGraph(h: Heap, l: Marks, v: Visitor, ghost c: Chain) returns (l': Marks)
    requires IsProperGraph(h, c) && v.IsNew() && (IsMarked(l, ENTRY, v) || Unmarked(l, Refs(WholeGraph(c)), v))
    modifies v
    ensures GraphTrace(c) != [] && Refs(WholeGraph(c)) != {ENTRY}
    ensures if IsMarked(l, ENTRY, v) then v.visits == [] && v.nodes == {ENTRY} && l' == l
            else v.visits == GraphTrace(c) && v.nodes == Refs(WholeGraph(c)) && l' == MarkAll(l, Refs(WholeGraph(c)), v)
  {
    NotNothing(h, c);
    hide IsProperGraph, GraphTrace, Refs, WholeGraph, MarkAll, Unmarked, ReportsTargets, ReportsSources, Reaches;
    hide Defaulted, Blocks, VisitedBlocks, IsMarked;
    var g := new Graph(h, l);
    if IsMarked(l, ENTRY, v) {
      VisitAgain(g, v, c);
    } else {
      VisitPreOrder(g, v, c);
    }
    l' := g.lastVisitor;
  }

  /** A collection of a context in which everything is live. */
  method CollectGraph(h: Heap, l: Marks, v: Visitor, ghost c: Chain, moreCode: set<nat>, moreSymbols: set<nat>)
      returns (managed: ManagedContext)
    requires IsProperGraph(h, c) && v.IsNew() && (IsMarked(l, ENTRY, v) || Unmarked(l, Refs(WholeGraph(c)), v))
    modifies v
    ensures fresh(managed)
    ensures managed.lastVisitor == if IsMarked(l, ENTRY, v) then l else MarkAll(l, Refs(WholeGraph(c)), v)
    ensures var rs := if IsMarked(l, ENTRY, v) then {} else Refs(WholeGraph(c));
      && (forall k :: managed.PoolFor(k).live == Objects(h, rs, k)) && managed.arms.live == ArmObjects(h, rs)
      && managed.instructions.live == CodeObjects(h, rs) && managed.symbols.live == SymbolObjects(h, rs)
  {
    NotNothing(h, c);
    ReachedIsGraph(h, c);
    hide IsProperGraph, Refs, WholeGraph, Reached, MarkAll, Objects, ArmObjects, CodeObjects, SymbolObjects, Unmarked;
    managed := new ManagedContext(h, CodeObjects(h, h.Keys) + moreCode, SymbolObjects(h, h.Keys) + moreSymbols);
    managed.lastVisitor := l;
    managed.CollectSeen(v, c);
  }

  /** A traversal of a graph sees more than its entry. */
  lemma NotNothing(h: Heap, c: Chain)
    requires IsProperGraph(h, c)
    ensures GraphTrace(c) != [] && Refs(WholeGraph(c)) != {ENTRY} && ENTRY in Refs(WholeGraph(c))
    ensures Refs(WholeGraph(c)) <= h.Keys
  {
    EntryInGraph(h, c);
    WholeRefs(h, c);
    assert EXIT in Refs(WholeGraph(c));
    WholeGraphFacts(h, c);
    RealizedRefs(h, WholeGraph(c), None);
  }
}
