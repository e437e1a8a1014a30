/** The blocks that a traversal visits are exactly the blocks that control can reach. */
module Reachability {
  import opened Mir
  import opened Shape
  import opened Execution
  import opened Edges

  ghost predicate ReachesIn(h: Heap, a: Ref, b: Ref, n: nat)
    decreases n
  {
    if n == 0 then a == b else exists t :: t in Targets(h, a) && ReachesIn(h, t, b, n - 1)
  }

  ghost predicate Reaches(h: Heap, a: Ref, b: Ref) {
    exists n: nat :: ReachesIn(h, a, b, n)
  }

  ghost predicate ReachesAll(h: Heap, a: Ref, bs: set<Ref>) {
    forall b | b in bs :: Reaches(h, a, b)
  }

  lemma {:induction false} ReachesInThen(h: Heap, a: Ref, b: Ref, c: Ref, n: nat, n': nat)
    requires ReachesIn(h, a, b, n) && ReachesIn(h, b, c, n')
    ensures ReachesIn(h, a, c, n + n')
    decreases n
  {
    if n > 0 {
      var t :| t in Targets(h, a) && ReachesIn(h, t, b, n - 1);
      ReachesInThen(h, t, b, c, n - 1, n');
    }
  }

  lemma ReachesThen(h: Heap, a: Ref, b: Ref, c: Ref)
    requires Reaches(h, a, b) && Reaches(h, b, c)
    ensures Reaches(h, a, c)
  {
    var n: nat :| ReachesIn(h, a, b, n);
    var n': nat :| ReachesIn(h, b, c, n');
    ReachesInThen(h, a, b, c, n, n');
  }

  lemma ReachesAllThen(h: Heap, a: Ref, b: Ref, bs: set<Ref>)
    requires Reaches(h, a, b) && ReachesAll(h, b, bs)
    ensures ReachesAll(h, a, bs)
  {
    forall c | c in bs ensures Reaches(h, a, c) {
      ReachesThen(h, a, b, c);
    }
  }

  lemma ReachesSelf(h: Heap, a: Ref)
    ensures Reaches(h, a, a)
  {
    assert ReachesIn(h, a, a, 0);
  }

  lemma ReachesTarget(h: Heap, a: Ref, b: Ref)
    requires b in Targets(h, a)
    ensures Reaches(h, a, b)
  {
    assert ReachesIn(h, b, b, 0);
    assert ReachesIn(h, a, b, 1);
  }

  // ----- everything on a chain can be reached -----

  lemma {:induction false} ChainReached(h: Heap, c: Chain, exit: Option<Ref>)
    requires Realizes(h, c, exit)
    ensures ReachesAll(h, First(c), Blocks(c)) && Reaches(h, First(c), Last(c))
    decreases c
  {
    ReachesSelf(h, First(c));
    match c
    case End(b) =>
    case Link(b, rest) =>
      RealizedFirst(h, rest, exit);
      ReachesTarget(h, b, First(rest));
      ChainReached(h, rest, exit);
      ReachesAllThen(h, b, First(rest), Blocks(rest));
      ReachesThen(h, b, First(rest), Last(rest));
    case Then(b, k, rest) =>
      EntryIsFirstBlock(h, k, First(rest));
      ReachesTarget(h, b, EntryOf(k));
      RealizedFirst(h, rest, exit);
      ConstructReached(h, k, First(rest));
      ReachesAllThen(h, b, EntryOf(k), ConstructBlocks(k));
      ReachesThen(h, b, EntryOf(k), First(rest));
      ChainReached(h, rest, exit);
      ReachesAllThen(h, b, First(rest), Blocks(rest));
      ReachesThen(h, b, First(rest), Last(rest));
  }

  /** A chain that is entered from `a` and left for `exit`. */
  lemma PartReached(h: Heap, a: Ref, c: Chain, exit: Ref)
    requires Realizes(h, c, Some(exit)) && IsBlock(h, exit)
    requires ReachesAll(h, First(c), Blocks(c)) && Reaches(h, First(c), Last(c)) && Reaches(h, a, First(c))
    ensures ReachesAll(h, a, Blocks(c)) && Reaches(h, a, exit)
  {
    ReachesAllThen(h, a, First(c), Blocks(c));
    LastTargets(h, c, exit);
    ReachesTarget(h, Last(c), exit);
    ReachesThen(h, First(c), Last(c), exit);
    ReachesThen(h, a, First(c), exit);
  }

  lemma {:induction false} ConstructReached(h: Heap, k: Construct, join: Ref)
    requires RealizesConstruct(h, k, join) && IsBlock(h, join)
    ensures ReachesAll(h, EntryOf(k), ConstructBlocks(k)) && Reaches(h, EntryOf(k), join)
    decreases k
  {
    var cond := Ref(k.base, Condition);
    ReachesSelf(h, cond);
    match k
    case IfShape(_, _, thn, els) =>
      ReachesTarget(h, cond, First(thn));
      ReachesTarget(h, cond, First(els));
      ChainReached(h, thn, Some(join));
      ChainReached(h, els, Some(join));
      PartReached(h, cond, thn, join);
      PartReached(h, cond, els, join);
    case SwitchShape(_, _, arms) =>
      ArmFirstsAreEntries(h, arms, join);
      ArmsReached(h, arms, cond, join);
      if DefaultArm(arms).None? {
        ReachesTarget(h, cond, join);
      }
    case LoopShape(_, _, init, update, body) =>
      ChainReached(h, init, Some(cond));
      ReachesSelf(h, First(init));
      PartReached(h, First(init), init, cond);
      ReachesTarget(h, cond, join);
      ReachesThen(h, First(init), cond, join);
      ReachesTarget(h, cond, First(body));
      ReachesThen(h, First(init), cond, First(body));
      RealizedFirst(h, update, Some(cond));
      ChainReached(h, body, Some(First(update)));
      PartReached(h, First(init), body, First(update));
      ChainReached(h, update, Some(cond));
      PartReached(h, First(init), update, cond);
  }

  lemma {:induction false} ArmsReached(h: Heap, arms: Arms, cond: Ref, join: Ref)
    requires RealizesArms(h, arms, join) && IsBlock(h, join)
    requires SetOf(ArmFirsts(arms)) <= Targets(h, cond)
    ensures ReachesAll(h, cond, ArmBlocks(arms)) && (arms.Arm? ==> Reaches(h, cond, join))
    decreases arms
  {
    match arms
    case NoArms =>
    case Arm(_, _, chain, next) =>
      assert First(chain) in ArmFirsts(arms);
      assert forall r | r in ArmFirsts(next) :: r in ArmFirsts(arms);
      ReachesTarget(h, cond, First(chain));
      ChainReached(h, chain, Some(join));
      PartReached(h, cond, chain, join);
      ArmsReached(h, next, cond, join);
  }

  // ----- two chains in a row -----

  function Joined(c: Chain, d: Chain): Chain {
    match c
    case End(b) => Link(b, d)
    case Link(b, rest) => Link(b, Joined(rest, d))
    case Then(b, k, rest) => Then(b, k, Joined(rest, d))
  }

  lemma {:induction false} JoinedFacts(h: Heap, c: Chain, d: Chain, exit: Option<Ref>)
    requires Realizes(h, c, Some(First(d))) && Realizes(h, d, exit)
    ensures Realizes(h, Joined(c, d), exit) && First(Joined(c, d)) == First(c) && Last(Joined(c, d)) == Last(d)
    ensures Refs(Joined(c, d)) == Refs(c) + Refs(d) && Blocks(Joined(c, d)) == Blocks(c) + Blocks(d)
    ensures Distinct(c) && Distinct(d) && Refs(c) !! Refs(d) ==> Distinct(Joined(c, d))
    ensures Defaulted(Joined(c, d)) <==> Defaulted(c) && Defaulted(d)
  {
    match c
    case End(b) =>
    case Link(b, rest) => JoinedFacts(h, rest, d, exit);
    case Then(b, k, rest) => JoinedFacts(h, rest, d, exit);
  }

  lemma {:induction false} JoinedTrace(c: Chain, d: Chain, preds: seq<Ref>, outs: seq<Ref>)
    ensures First(Joined(c, d)) == First(c)
    ensures Trace(Joined(c, d), preds, outs) == Trace(c, preds, [First(d)]) + Trace(d, [Last(c)], outs)
  {
    match c
    case End(b) =>
    case Link(b, rest) => JoinedTrace(rest, d, [b], outs);
    case Then(b, k, rest) =>
      JoinedTrace(rest, d, ExitBlocks(k), outs);
      var t := TraceConstruct(k, [b], First(rest));
      assert t + (Trace(rest, ExitBlocks(k), [First(d)]) + Trace(d, [Last(rest)], outs))
          == t + Trace(rest, ExitBlocks(k), [First(d)]) + Trace(d, [Last(rest)], outs);
  }

  // ----- the whole graph -----

  /** The whole line of control, from the entry of the context to its exit. */
  function WholeGraph(c: Chain): Chain {
    Joined(c, End(EXIT))
  }

  ghost predicate IsProperGraph(h: Heap, c: Chain) {
    IsGraph(h, c) && Distinct(c) && EXIT !in Refs(c)
  }

  lemma WholeGraphFacts(h: Heap, c: Chain)
    requires IsProperGraph(h, c)
    ensures var g := WholeGraph(c); Realizes(h, g, None) && First(g) == ENTRY && Last(g) == EXIT && Distinct(g)
    ensures Defaulted(WholeGraph(c)) <==> Defaulted(c)
    ensures Targets(h, EXIT) == {}
  {
    JoinedFacts(h, c, End(EXIT), None);
  }

  function GraphTrace(c: Chain): seq<Visit> {
    Trace(WholeGraph(c), [], [])
  }

  lemma DuplicateCounted<T>(s: seq<T>, i: nat, j: nat)
    requires i < j < |s| && s[i] == s[j]
    ensures multiset(s)[s[i]] >= 2
  {
    assert s == s[..j] + s[j..];
    assert s[i] in s[..j] && s[j] in s[j..];
  }

  lemma UniqueVisit(t: seq<Visit>, bs: set<Ref>, v: Visit, w: Visit)
    requires VisitsOnce(t, bs) && v in t && w in t && v.block == w.block
    ensures v == w
  {
    var i: nat :| i < |t| && t[i] == v;
    var j: nat :| j < |t| && t[j] == w;
    if i < j {
      DuplicateCounted(VisitedBlocks(t), i, j);
    } else if j < i {
      DuplicateCounted(VisitedBlocks(t), j, i);
    }
  }

  lemma VisitedIffInSet(t: seq<Visit>, bs: set<Ref>, b: Ref)
    requires VisitsOnce(t, bs)
    ensures b in bs <==> exists v :: v in t && v.block == b
  {
    assert b in bs <==> b in multiset(VisitedBlocks(t));
    if b in bs {
      var i: nat :| i < |t| && VisitedBlocks(t)[i] == b;
      assert t[i] in t;
    }
    if v :| v in t && v.block == b {
      var i: nat :| i < |t| && t[i] == v;
      assert VisitedBlocks(t)[i] == b;
    }
  }

  /** With one visit to each block, what a visit reports can be read off the set of all reports. */
  lemma ReportsAreEdges(t: seq<Visit>, bs: set<Ref>, v: Visit, b: Ref)
    requires VisitsOnce(t, bs) && v in t
    ensures b in v.successors <==> (v.block, b) in SuccessorEdges(t)
    ensures b in v.predecessors <==> (b, v.block) in PredecessorEdges(t)
  {
    hide VisitsOnce;
    if (v.block, b) in SuccessorEdges(t) {
      var w :| w in t && b in w.successors && w.block == v.block;
      UniqueVisit(t, bs, v, w);
    }
    if (b, v.block) in PredecessorEdges(t) {
      var w :| w in t && b in w.predecessors && w.block == v.block;
      UniqueVisit(t, bs, v, w);
    }
  }

  /** The reports of a whole traversal: one visit to each block, and the same edges from both ends. */
  lemma GraphReports(h: Heap, c: Chain)
    requires IsProperGraph(h, c)
    ensures VisitsOnce(GraphTrace(c), Blocks(WholeGraph(c)))
    ensures SuccessorEdges(GraphTrace(c)) == PredecessorEdges(GraphTrace(c))
  {
    hide Distinct, Realizes, Blocks, Joined, Trace, Refs;
    WholeGraphFacts(h, c);
    TraceVisitsOnce(WholeGraph(c), [], []);
    TraceBalanced(h, WholeGraph(c), None, [], []);
  }

  /** The two reports of a traversal are inverse to each other over the whole graph. */
  lemma ReportsAreInverse(h: Heap, c: Chain, v: Visit, w: Visit)
    requires IsProperGraph(h, c) && v in GraphTrace(c) && w in GraphTrace(c)
    ensures w.block in v.successors <==> v.block in w.predecessors
  {
    hide IsProperGraph, GraphTrace, VisitsOnce, SuccessorEdges, PredecessorEdges;
    GraphReports(h, c);
    ReportsAreEdges(GraphTrace(c), Blocks(WholeGraph(c)), v, w.block);
    ReportsAreEdges(GraphTrace(c), Blocks(WholeGraph(c)), w, v.block);
  }

  /** Edges stay inside a chain, but for those of its last block. */
  lemma {:induction false} TargetsInside(h: Heap, c: Chain, exit: Option<Ref>, a: Ref)
    requires Realizes(h, c, exit) && a in Blocks(c)
    ensures Targets(h, a) <= Blocks(c) + Targets(h, Last(c))
    decreases c, 0
  {
    match c
    case End(_) =>
    case Link(b, rest) =>
      RealizedFirst(h, rest, exit);
      FirstInBlocks(rest);
      if a in Blocks(rest) {
        TargetsInside(h, rest, exit, a);
      }
    case Then(b, k, rest) =>
      RealizedFirst(h, rest, exit);
      FirstInBlocks(rest);
      EntryIsFirstBlock(h, k, First(rest));
      if a in Blocks(rest) {
        TargetsInside(h, rest, exit, a);
      } else if a in ConstructBlocks(k) {
        ConstructTargetsInside(h, k, First(rest), a);
      } else {
        EntryInBlocks(h, k, First(rest));
      }
  }

  lemma EntryInBlocks(h: Heap, k: Construct, join: Ref)
    requires RealizesConstruct(h, k, join)
    ensures EntryOf(k) in ConstructBlocks(k)
  {
    if k.LoopShape? {
      FirstInBlocks(k.init);
    }
  }

  lemma {:induction false} ConstructTargetsInside(h: Heap, k: Construct, join: Ref, a: Ref)
    requires RealizesConstruct(h, k, join) && IsBlock(h, join) && a in ConstructBlocks(k)
    ensures Targets(h, a) <= ConstructBlocks(k) + {join}
    decreases k
  {
    var cond := Ref(k.base, Condition);
    match k
    case IfShape(_, _, thn, els) =>
      FirstInBlocks(thn);
      FirstInBlocks(els);
      if a in Blocks(thn) {
        PartTargetsInside(h, thn, join, a);
      } else if a in Blocks(els) {
        PartTargetsInside(h, els, join, a);
      }
    case SwitchShape(_, _, arms) =>
      ArmFirstsAreEntries(h, arms, join);
      ArmTargetsInside(h, arms, join, a);
    case LoopShape(_, _, init, update, body) =>
      FirstInBlocks(update);
      FirstInBlocks(body);
      RealizedFirst(h, update, Some(cond));
      if a in Blocks(init) {
        PartTargetsInside(h, init, cond, a);
      } else if a in Blocks(update) {
        PartTargetsInside(h, update, cond, a);
      } else if a in Blocks(body) {
        PartTargetsInside(h, body, First(update), a);
      }
  }

  lemma {:induction false} PartTargetsInside(h: Heap, c: Chain, exit: Ref, a: Ref)
    requires Realizes(h, c, Some(exit)) && IsBlock(h, exit) && a in Blocks(c)
    ensures Targets(h, a) <= Blocks(c) + {exit}
    decreases c, 1
  {
    LastTargets(h, c, exit);
    TargetsInside(h, c, Some(exit), a);
  }

  lemma {:induction false} ArmTargetsInside(h: Heap, arms: Arms, join: Ref, a: Ref)
    requires RealizesArms(h, arms, join) && IsBlock(h, join)
    ensures SetOf(ArmFirsts(arms)) <= ArmBlocks(arms)
    ensures a in ArmBlocks(arms) ==> Targets(h, a) <= ArmBlocks(arms) + {join}
    decreases arms
  {
    match arms
    case NoArms =>
    case Arm(_, _, chain, next) =>
      FirstInBlocks(chain);
      ArmTargetsInside(h, next, join, a);
      assert SetOf(ArmFirsts(arms)) == {First(chain)} + SetOf(ArmFirsts(next));
      if a in Blocks(chain) {
        PartTargetsInside(h, chain, join, a);
      }
  }

  lemma {:induction false} ReachedIsVisited(h: Heap, c: Chain, a: Ref, b: Ref, n: nat)
    requires IsProperGraph(h, c) && a in Blocks(WholeGraph(c)) && ReachesIn(h, a, b, n)
    ensures b in Blocks(WholeGraph(c))
    decreases n
  {
    if n > 0 {
      var next :| next in Targets(h, a) && ReachesIn(h, next, b, n - 1);
      WholeGraphFacts(h, c);
      TargetsInside(h, WholeGraph(c), None, a);
      ReachedIsVisited(h, c, next, b, n - 1);
    }
  }

  /** Pre-order traversal: each block that control can reach from the entry is visited exactly once, and no
      other block is visited. Every visit reports exactly the block's successors, if and only if every switch
      has a default arm. */
  lemma TraversalIsExact(h: Heap, c: Chain, b: Ref)
    requires IsProperGraph(h, c)
    ensures multiset(VisitedBlocks(GraphTrace(c)))[b] == if Reaches(h, ENTRY, b) then 1 else 0
    ensures ReportsTargets(h, GraphTrace(c)) <==> Defaulted(c)
  {
    hide Distinct, Defaulted, Realizes, Blocks, Joined, Trace, Refs, ReportsTargets;
    var g := WholeGraph(c);
    WholeGraphFacts(h, c);
    TraceVisitsOnce(g, [], []);
    TraceReportsTargets(h, g, None, [], []);
    ChainReached(h, g, None);
    if n: nat :| ReachesIn(h, ENTRY, b, n) {
      FirstInBlocks(g);
      ReachedIsVisited(h, c, ENTRY, b, n);
    }
  }

  /** The blocks among `bs` from which control can go to `b`. */
  function Sources(h: Heap, bs: set<Ref>, b: Ref): set<Ref> {
    set a | a in bs && b in Targets(h, a)
  }

  ghost predicate ReportsSources(h: Heap, t: seq<Visit>, bs: set<Ref>) {
    forall v | v in t :: SetOf(v.predecessors) == Sources(h, bs, v.block)
  }

  /** A reported predecessor is a block of the graph, from which control goes to the block visited if every
      report of successors is right. */
  lemma PredecessorIsSource(h: Heap, c: Chain, v: Visit, a: Ref)
    requires IsProperGraph(h, c) && v in GraphTrace(c) && ReportsTargets(h, GraphTrace(c))
    ensures a in v.predecessors <==> a in Sources(h, Blocks(WholeGraph(c)), v.block)
  {
    var t, bs := GraphTrace(c), Blocks(WholeGraph(c));
    hide IsProperGraph, GraphTrace, VisitsOnce, SuccessorEdges, PredecessorEdges, Blocks, WholeGraph;
    GraphReports(h, c);
    ReportsAreEdges(t, bs, v, a);
    VisitedIffInSet(t, bs, a);
    if w :| w in t && w.block == a {
      ReportsAreEdges(t, bs, w, v.block);
      assert v.block in w.successors <==> v.block in SetOf(w.successors);
    } else {
      NoEdgeFrom(t, a, v.block);
    }
  }

  lemma NoEdgeFrom(t: seq<Visit>, a: Ref, b: Ref)
    requires !exists w :: w in t && w.block == a
    ensures (a, b) !in SuccessorEdges(t)
  {
  }

  /** Default arms or not, a reported predecessor is a visited block, which reports the edge as well. */
  lemma PredecessorIsVisited(h: Heap, c: Chain, v: Visit, a: Ref) returns (w: Visit)
    requires IsProperGraph(h, c) && v in GraphTrace(c) && a in v.predecessors
    ensures w in GraphTrace(c) && w.block == a && a in Blocks(WholeGraph(c)) && v.block in w.successors
  {
    var t, bs := GraphTrace(c), Blocks(WholeGraph(c));
    hide IsProperGraph, GraphTrace, VisitsOnce, Blocks, WholeGraph;
    GraphReports(h, c);
    assert (a, v.block) in PredecessorEdges(t);
    assert (a, v.block) in SuccessorEdges(t);
    w :| w in t && v.block in w.successors && w.block == a;
    VisitedIffInSet(t, bs, a);
  }

  /** A reported successor is a target, and every target is reported, if every report of predecessors is right. */
  lemma SuccessorIsTarget(h: Heap, c: Chain, w: Visit, b: Ref)
    requires IsProperGraph(h, c) && w in GraphTrace(c)
    requires ReportsSources(h, GraphTrace(c), Blocks(WholeGraph(c)))
    ensures b in w.successors <==> b in Targets(h, w.block)
  {
    var t, bs := GraphTrace(c), Blocks(WholeGraph(c));
    GraphReports(h, c);
    WholeGraphFacts(h, c);
    VisitedIffInSet(t, bs, w.block);
    TargetsInside(h, WholeGraph(c), None, w.block);
    hide IsProperGraph, GraphTrace, VisitsOnce, SuccessorEdges, PredecessorEdges, Blocks, WholeGraph, Targets;
    ReportsAreEdges(t, bs, w, b);
    VisitedIffInSet(t, bs, b);
    if v :| v in t && v.block == b {
      ReportsAreEdges(t, bs, v, w.block);
      assert w.block in v.predecessors <==> w.block in SetOf(v.predecessors);
    } else {
      NoEdgeTo(t, w.block, b);
    }
  }

  lemma NoEdgeTo(t: seq<Visit>, a: Ref, b: Ref)
    requires !exists v :: v in t && v.block == b
    ensures (a, b) !in PredecessorEdges(t)
  {
  }

  /** Predecessors: every visit reports exactly the blocks from which control can come, if and only if every
      switch has a default arm. */
  lemma PredecessorsAreExact(h: Heap, c: Chain)
    requires IsProperGraph(h, c)
    ensures ReportsSources(h, GraphTrace(c), Blocks(WholeGraph(c))) <==> Defaulted(c)
  {
    hide IsProperGraph, GraphTrace, Blocks, WholeGraph, Targets, Sources, Defaulted;
    var t, bs := GraphTrace(c), Blocks(WholeGraph(c));
    TraversalIsExact(h, c, ENTRY);
    if ReportsTargets(h, t) {
      forall v | v in t ensures SetOf(v.predecessors) == Sources(h, bs, v.block) {
        forall a ensures a in SetOf(v.predecessors) <==> a in Sources(h, bs, v.block) {
          PredecessorIsSource(h, c, v, a);
        }
      }
    }
    if ReportsSources(h, t, bs) {
      forall w | w in t ensures SetOf(w.successors) == Targets(h, w.block) {
        forall b ensures b in SetOf(w.successors) <==> b in Targets(h, w.block) {
          SuccessorIsTarget(h, c, w, b);
        }
      }
    }
  }

  lemma FirstInBlocks(c: Chain)
    ensures First(c) in Blocks(c)
  {
  }

  // ----- the search behind a loop, as written -----

  ghost predicate IsLoop(h: Heap, w: Ref) {
    w in h && h[w].content.Loop?
  }

  /** `r` is where a loop of the graph is left for. */
  ghost predicate FollowsLoop(h: Heap, rs: set<Ref>, r: Ref) {
    exists w :: w in rs && IsLoop(h, w) && h[w].content.join == r
  }

  /** What is reported as the predecessors of the block that `v` visits when the search behind a loop is that
      of the source, which looks for the block after the loop from the condition on, and finds nothing. */
  ghost function FoundAsWritten(h: Heap, rs: set<Ref>, v: Visit): seq<Ref> {
    if FollowsLoop(h, rs, v.block) then [] else v.predecessors
  }

  ghost predicate ReportsSourcesAsWritten(h: Heap, t: seq<Visit>, rs: set<Ref>, bs: set<Ref>) {
    forall v | v in t :: SetOf(FoundAsWritten(h, rs, v)) == Sources(h, bs, v.block)
  }

  /** Control leaves a loop from its condition. */
  lemma {:induction false} LoopIsLeft(h: Heap, c: Chain, exit: Option<Ref>, w: Ref)
    requires Realizes(h, c, exit) && w in Refs(c) && IsLoop(h, w)
    ensures Ref(w.base, Condition) in Blocks(c) && h[w].content.join in Targets(h, Ref(w.base, Condition))
    decreases c
  {
    match c
    case End(b) =>
    case Link(b, rest) => LoopIsLeft(h, rest, exit, w);
    case Then(b, k, rest) =>
      if w in Refs(rest) {
        LoopIsLeft(h, rest, exit, w);
      } else {
        ConstructIsLeft(h, k, First(rest), w);
      }
  }

  lemma {:induction false} ConstructIsLeft(h: Heap, k: Construct, join: Ref, w: Ref)
    requires RealizesConstruct(h, k, join) && w in ConstructRefs(k) && IsLoop(h, w)
    ensures Ref(w.base, Condition) in ConstructBlocks(k) && h[w].content.join in Targets(h, Ref(w.base, Condition))
    decreases k
  {
    hide Targets;
    if w == Ref(k.base, Whole) {
      OwnLoopIsLeft(h, k, join);
    } else {
      match k
      case IfShape(_, _, thn, els) =>
        if w in Refs(thn) {
          LoopIsLeft(h, thn, Some(join), w);
        } else {
          LoopIsLeft(h, els, Some(join), w);
        }
      case SwitchShape(_, _, arms) => ArmIsLeft(h, arms, join, w);
      case LoopShape(base, _, init, update, body) =>
        if w in Refs(init) {
          LoopIsLeft(h, init, Some(Ref(base, Condition)), w);
        } else if w in Refs(update) {
          LoopIsLeft(h, update, Some(Ref(base, Condition)), w);
        } else {
          LoopIsLeft(h, body, Some(Ref(base, Update)), w);
        }
    }
  }

  lemma OwnLoopIsLeft(h: Heap, k: Construct, join: Ref)
    requires RealizesConstruct(h, k, join) && IsLoop(h, Ref(k.base, Whole))
    ensures h[Ref(k.base, Whole)].content.join in Targets(h, Ref(k.base, Condition))
  {
    assert k.LoopShape?;
  }

  lemma {:induction false} ArmIsLeft(h: Heap, arms: Arms, join: Ref, w: Ref)
    requires RealizesArms(h, arms, join) && w in ArmRefs(arms) && IsLoop(h, w)
    ensures Ref(w.base, Condition) in ArmBlocks(arms) && h[w].content.join in Targets(h, Ref(w.base, Condition))
    decreases arms
  {
    hide Targets;
    match arms
    case NoArms =>
    case Arm(_, _, chain, next) =>
      if w in Refs(chain) {
        LoopIsLeft(h, chain, Some(join), w);
      } else {
        ArmIsLeft(h, next, join, w);
      }
  }

  /** The block after a loop is visited, and has a predecessor. */
  lemma AfterLoopHasSource(h: Heap, c: Chain, w: Ref) returns (v: Visit)
    requires IsProperGraph(h, c) && w in Refs(WholeGraph(c)) && IsLoop(h, w)
    ensures v in GraphTrace(c) && FollowsLoop(h, Refs(WholeGraph(c)), v.block)
    ensures Ref(w.base, Condition) in Sources(h, Blocks(WholeGraph(c)), v.block)
  {
    var g := WholeGraph(c);
    hide WholeGraph, GraphTrace, Trace, Distinct, Realizes, Refs, Blocks, Targets;
    WholeGraphFacts(h, c);
    LoopIsLeft(h, g, None, w);
    TargetsInside(h, g, None, Ref(w.base, Condition));
    GraphReports(h, c);
    VisitedIffInSet(GraphTrace(c), Blocks(g), h[w].content.join);
    v :| v in GraphTrace(c) && v.block == h[w].content.join;
  }

  /** With the search behind loops as it is written, the predecessors that a traversal reports are exact if
      and only if every switch has a default arm and there is no loop. */
  lemma PredecessorsAsWritten(h: Heap, c: Chain)
    requires IsProperGraph(h, c)
    ensures ReportsSourcesAsWritten(h, GraphTrace(c), Refs(WholeGraph(c)), Blocks(WholeGraph(c)))
       <==> Defaulted(c) && forall w | w in Refs(WholeGraph(c)) :: !IsLoop(h, w)
  {
    hide IsProperGraph, GraphTrace, Blocks, WholeGraph, Refs, Sources, Defaulted, IsLoop;
    var t, rs, bs := GraphTrace(c), Refs(WholeGraph(c)), Blocks(WholeGraph(c));
    PredecessorsAreExact(h, c);
    if w :| w in rs && IsLoop(h, w) {
      var v := AfterLoopHasSource(h, c, w);
      assert FoundAsWritten(h, rs, v) == [];
      assert Ref(w.base, Condition) !in SetOf(FoundAsWritten(h, rs, v));
    } else {
      assert forall v | v in t :: FoundAsWritten(h, rs, v) == v.predecessors;
    }
  }
}
