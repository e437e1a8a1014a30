/** The edges between basic blocks. They are stored nowhere: this module says what they are, as the
    machine takes them, and what a traversal of a chain reports. */
module Edges {
  import opened Mir
  import opened Hir
  import opened Shape
  import opened Execution

  // ----- the report of a traversal -----

  /** What is reported at a block: the blocks that control may go to next and come from. */
  datatype Visit = Visit(block: Ref, successors: seq<Ref>, predecessors: seq<Ref>)

  /** The visits of a pre-order traversal of `c`. Control enters `c` from the blocks `preds`, and
      leaves its last block for the blocks `outs`. */
  function Trace(c: Chain, preds: seq<Ref>, outs: seq<Ref>): seq<Visit> {
    match c
    case End(b) => [Visit(b, outs, preds)]
    case Link(b, rest) => [Visit(b, [First(rest)], preds)] + Trace(rest, [b], outs)
    case Then(b, k, rest) =>
      [Visit(b, [EntryOf(k)], preds)] + (TraceConstruct(k, [b], First(rest)) + Trace(rest, ExitBlocks(k), outs))
  }

  function TraceConstruct(k: Construct, preds: seq<Ref>, join: Ref): seq<Visit> {
    var cond := Ref(k.base, Condition);
    match k
    case IfShape(_, _, thn, els) =>
      [Visit(cond, [First(thn), First(els)], preds)] + Trace(thn, [cond], [join]) + Trace(els, [cond], [join])
    case SwitchShape(_, _, arms) =>
      [Visit(cond, ArmFirsts(arms), preds)] + TraceArms(arms, [cond], [join])
    case LoopShape(_, _, init, update, body) =>
      Trace(init, preds, [cond])
      + (Trace(body, [cond], [First(update)]) + Trace(update, [Last(body)], [cond]))
      + [Visit(cond, [First(body), join], [Last(init), Last(update)])]
  }

  function TraceArms(arms: Arms, preds: seq<Ref>, outs: seq<Ref>): seq<Visit> {
    match arms
    case NoArms => []
    case Arm(_, _, chain, next) => Trace(chain, preds, outs) + TraceArms(next, preds, outs)
  }

  function ArmFirsts(arms: Arms): seq<Ref> {
    match arms
    case NoArms => []
    case Arm(_, _, chain, next) => [First(chain)] + ArmFirsts(next)
  }

  function ArmLasts(arms: Arms): seq<Ref> {
    match arms
    case NoArms => []
    case Arm(_, _, chain, next) => [Last(chain)] + ArmLasts(next)
  }

  /** The blocks from which control leaves a construct. */
  function ExitBlocks(k: Construct): seq<Ref> {
    match k
    case IfShape(_, _, thn, els) => [Last(thn), Last(els)]
    case SwitchShape(_, _, arms) => ArmLasts(arms)
    case LoopShape(base, _, _, _, _) => [Ref(base, Condition)]
  }

  function VisitedBlocks(t: seq<Visit>): seq<Ref> {
    seq(|t|, i requires 0 <= i < |t| => t[i].block)
  }

  // ----- the edges of the machine -----

  /** The blocks to which control can go from `b`. */
  function Targets(h: Heap, b: Ref): set<Ref> {
    if !IsBlock(h, b) then {}
    else if h[b].content.successor.Some? then {FirstBlock(h, h[b].content.successor.value)}
    else if !IsCondition(h, b) then {}
    else
      match h[Ref(b.base, Whole)].content
      case Conditional(Some(_), _) => {Ref(b.base, IfTrue), Ref(b.base, IfFalse)}
      case MultiWay(Some(_), arms, defaultArm, join) =>
        (set e | e in arms :: Ref(e.base, IfTrue)) + if defaultArm.Some? then {} else {join}
      case Loop(Some(_), join) => {Ref(b.base, Body), join}
      case _ => {}
  }

  /** Wherever the machine goes from `b`, in whatever state, is a target of `b`. */
  lemma StepsAreEdges<S>(m: Machine<S>, h: Heap, b: Ref, s: S)
    requires Step(m, h, At(b, s)).At?
    requires IsCondition(h, b) && h[Ref(b.base, Whole)].content.MultiWay? ==>
               DefaultListed(h[Ref(b.base, Whole)].content)
    ensures Step(m, h, At(b, s)).block in Targets(h, b)
  {
    if h[b].content.successor.None? && IsCondition(h, b) && h[Ref(b.base, Whole)].content.MultiWay? {
      var arms := h[Ref(b.base, Whole)].content.arms;
      var v := m.read(h[Ref(b.base, Whole)].content.value.value, Exec(m, Operations(h[b].content.code), s));
      FindArmListed(arms, v);
    }
  }

  /** A machine that leaves its state alone and reads it as the value of every symbol. */
  function Reader(): Machine<int> {
    Machine((_, s) => s, (_, s) => s)
  }

  lemma {:induction false} ReaderLeaves(code: seq<Operation>, s: int)
    ensures Exec(Reader(), code, s) == s
  {
    if code != [] {
      ReaderLeaves(code[1..], s);
    }
  }

  /** What a switch can go to: the first arm in the list with some value, and the default arm, or the join if
      there is none. An arm whose value an earlier arm has is never run. */
  ghost predicate Taken(c: Content, t: Ref)
    requires c.MultiWay?
  {
    || (exists i :: 0 <= i < |c.arms| && t == Ref(c.arms[i].base, IfTrue) && c.arms[i].key.Some?
                 && forall j | 0 <= j < i :: c.arms[j].key != c.arms[i].key)
    || t == if c.defaultArm.Some? then Ref(c.defaultArm.value, IfTrue) else c.join
  }

  lemma {:induction false} FoundIsFirst(arms: seq<ArmEntry>, v: int)
    ensures FindArm(arms, v).Some? ==>
      exists i :: 0 <= i < |arms| && FindArm(arms, v) == Some(arms[i].base) && arms[i].key == Some(v)
               && forall j | 0 <= j < i :: arms[j].key != Some(v)
  {
    if arms != [] && arms[0].key != Some(v) {
      FoundIsFirst(arms[1..], v);
      if FindArm(arms, v).Some? {
        var i :| 0 <= i < |arms[1..]| && FindArm(arms[1..], v) == Some(arms[1..][i].base) && arms[1..][i].key == Some(v)
                 && forall j | 0 <= j < i :: arms[1..][j].key != Some(v);
        assert arms[i + 1] == arms[1..][i];
        assert forall j | 0 < j < i + 1 :: arms[j] == arms[1..][j - 1];
      }
    }
  }

  lemma SwitchStepsAreTaken<S>(m: Machine<S>, h: Heap, base: nat, s: S)
    requires IsConditionOf(h, base) && Ref(base, Whole) in h && h[Ref(base, Whole)].content.MultiWay?
    requires h[Ref(base, Whole)].content.value.Some?
    ensures var next := Step(m, h, At(Ref(base, Condition), s));
      next.At? && Taken(h[Ref(base, Whole)].content, next.block)
  {
    var c := h[Ref(base, Whole)].content;
    var v := m.read(c.value.value, Exec(m, Operations(h[Ref(base, Condition)].content.code), s));
    FoundIsFirst(c.arms, v);
  }

  /** Conversely, every target is where some machine goes, an arm of a switch if its value is not repeated. */
  lemma EdgesAreSteps(h: Heap, b: Ref, t: Ref) returns (s: int)
    requires t in Targets(h, b)
    requires IsCondition(h, b) && h[b].content.successor.None? && h[Ref(b.base, Whole)].content.MultiWay? ==>
               Taken(h[Ref(b.base, Whole)].content, t)
    ensures Step(Reader(), h, At(b, s)) == At(t, s)
  {
    s := 0;
    if h[b].content.successor.None? {
      match h[Ref(b.base, Whole)].content
      case Conditional(_, _) => s := if t.member == IfTrue then 1 else 0;
      case MultiWay(_, _, _, _) => s := ArmTaken(h[Ref(b.base, Whole)].content, t);
      case Loop(_, _) => s := if t == Ref(b.base, Body) then 1 else 0;
    }
    ReaderLeaves(Operations(h[b].content.code), s);
  }

  lemma ArmTaken(c: Content, t: Ref) returns (s: int)
    requires c.MultiWay? && Taken(c, t)
    ensures t == match FindArm(c.arms, s)
                 case Some(arm) => Ref(arm, IfTrue)
                 case None => if c.defaultArm.Some? then Ref(c.defaultArm.value, IfTrue) else c.join
  {
    if i :| 0 <= i < |c.arms| && t == Ref(c.arms[i].base, IfTrue) && c.arms[i].key.Some?
            && forall j | 0 <= j < i :: c.arms[j].key != c.arms[i].key {
      s := c.arms[i].key.value;
      FirstArmFound(c.arms, s, i);
    } else {
      s := Fresh(ArmKeysOf(c.arms));
      forall j | 0 <= j < |c.arms| ensures c.arms[j].key != Some(s) {
        assert ArmKeysOf(c.arms)[j] == c.arms[j].key;
      }
      NoArmFound(c.arms, s);
    }
  }

  /** If no value is repeated, all targets of a switch are taken. */
  lemma DistinctArmsTaken(h: Heap, base: nat, t: Ref)
    requires IsConditionOf(h, base) && Ref(base, Whole) in h && h[Ref(base, Whole)].content.MultiWay?
    requires t in Targets(h, Ref(base, Condition))
    requires var c := h[Ref(base, Whole)].content;
      && (forall i, j | 0 <= i < j < |c.arms| :: c.arms[i].key != c.arms[j].key)
      && (forall i | 0 <= i < |c.arms| :: c.arms[i].key == None ==> c.defaultArm == Some(c.arms[i].base))
    ensures Taken(h[Ref(base, Whole)].content, t)
  {
    var c := h[Ref(base, Whole)].content;
    if e :| e in c.arms && t == Ref(e.base, IfTrue) {
      var i :| 0 <= i < |c.arms| && c.arms[i] == e;
      assert c.arms[i].key.Some? ==> forall j | 0 <= j < i :: c.arms[j].key != c.arms[i].key;
    }
  }

  function ArmKeysOf(arms: seq<ArmEntry>): seq<Option<int>> {
    seq(|arms|, i requires 0 <= i < |arms| => arms[i].key)
  }

  predicate DefaultListed(c: Content)
    requires c.MultiWay?
  {
    c.defaultArm.Some? ==> ArmEntry(c.defaultArm.value, None) in c.arms
  }

  lemma {:induction false} FindArmListed(arms: seq<ArmEntry>, v: int)
    ensures FindArm(arms, v).Some? ==> ArmEntry(FindArm(arms, v).value, Some(v)) in arms
  {
    if arms != [] && arms[0].key != Some(v) {
      FindArmListed(arms[1..], v);
    } else if arms != [] {
      assert arms[0] == ArmEntry(arms[0].base, Some(v));
    }
  }

  // ----- every block once -----

  /** The blocks of a chain, without the nodes that hold them together. */
  function Blocks(c: Chain): set<Ref> {
    match c
    case End(b) => {b}
    case Link(b, rest) => {b} + Blocks(rest)
    case Then(b, k, rest) => {b} + ConstructBlocks(k) + Blocks(rest)
  }

  function ConstructBlocks(k: Construct): set<Ref> {
    {Ref(k.base, Condition)} +
    match k
    case IfShape(_, _, thn, els) => Blocks(thn) + Blocks(els)
    case SwitchShape(_, _, arms) => ArmBlocks(arms)
    case LoopShape(_, _, init, update, body) => Blocks(init) + Blocks(update) + Blocks(body)
  }

  function ArmBlocks(arms: Arms): set<Ref> {
    match arms
    case NoArms => {}
    case Arm(_, _, chain, next) => Blocks(chain) + ArmBlocks(next)
  }

  lemma {:induction false} BlocksAreRefs(c: Chain)
    ensures Blocks(c) <= Refs(c)
    decreases c
  {
    match c
    case End(b) =>
    case Link(b, rest) => BlocksAreRefs(rest);
    case Then(b, k, rest) => ConstructBlocksAreRefs(k); BlocksAreRefs(rest);
  }

  lemma {:induction false} ConstructBlocksAreRefs(k: Construct)
    ensures ConstructBlocks(k) <= ConstructRefs(k)
    decreases k
  {
    match k
    case IfShape(_, _, thn, els) => BlocksAreRefs(thn); BlocksAreRefs(els);
    case SwitchShape(_, _, arms) => ArmBlocksAreRefs(arms);
    case LoopShape(_, _, init, update, body) => BlocksAreRefs(init); BlocksAreRefs(update); BlocksAreRefs(body);
  }

  lemma {:induction false} ArmBlocksAreRefs(arms: Arms)
    ensures ArmBlocks(arms) <= ArmRefs(arms)
    decreases arms
  {
    match arms
    case NoArms =>
    case Arm(_, _, chain, next) => BlocksAreRefs(chain); ArmBlocksAreRefs(next);
  }

  lemma VisitedConcat(t: seq<Visit>, t': seq<Visit>)
    ensures VisitedBlocks(t + t') == VisitedBlocks(t) + VisitedBlocks(t')
  {
  }

  /** The visits of `t` are to the blocks of `bs`, each once. */
  ghost predicate VisitsOnce(t: seq<Visit>, bs: set<Ref>) {
    multiset(VisitedBlocks(t)) == multiset(bs)
  }

  lemma VisitsOnceConcat(t: seq<Visit>, t': seq<Visit>, bs: set<Ref>, bs': set<Ref>)
    requires VisitsOnce(t, bs) && VisitsOnce(t', bs') && bs !! bs'
    ensures VisitsOnce(t + t', bs + bs')
  {
    VisitedConcat(t, t');
    assert multiset(bs + bs') == multiset(bs) + multiset(bs');
  }

  lemma VisitsOnceOne(v: Visit)
    ensures VisitsOnce([v], {v.block})
  {
    assert VisitedBlocks([v]) == [v.block];
  }

  lemma {:induction false} TraceVisitsOnce(c: Chain, preds: seq<Ref>, outs: seq<Ref>)
    requires Distinct(c)
    ensures VisitsOnce(Trace(c, preds, outs), Blocks(c))
    decreases c
  {
    BlocksAreRefs(c);
    VisitsOnceOne(Trace(c, preds, outs)[0]);
    match c
    case End(b) =>
    case Link(b, rest) =>
      TraceVisitsOnce(rest, [b], outs);
      BlocksAreRefs(rest);
      VisitsOnceConcat([Visit(b, [First(rest)], preds)], Trace(rest, [b], outs), {b}, Blocks(rest));
    case Then(b, k, rest) =>
      TraceConstructVisitsOnce(k, [b], First(rest));
      TraceVisitsOnce(rest, ExitBlocks(k), outs);
      BlocksAreRefs(rest);
      ConstructBlocksAreRefs(k);
      var t1, t2 := TraceConstruct(k, [b], First(rest)), Trace(rest, ExitBlocks(k), outs);
      VisitsOnceConcat(t1, t2, ConstructBlocks(k), Blocks(rest));
      VisitsOnceConcat([Visit(b, [EntryOf(k)], preds)], t1 + t2, {b}, ConstructBlocks(k) + Blocks(rest));
      assert Blocks(c) == {b} + (ConstructBlocks(k) + Blocks(rest));
  }

  lemma {:induction false} TraceConstructVisitsOnce(k: Construct, preds: seq<Ref>, join: Ref)
    requires DistinctConstruct(k)
    ensures VisitsOnce(TraceConstruct(k, preds, join), ConstructBlocks(k))
    decreases k
  {
    var cond := Ref(k.base, Condition);
    match k
    case IfShape(_, _, thn, els) =>
      var t0, t1, t2 := [Visit(cond, [First(thn), First(els)], preds)], Trace(thn, [cond], [join]), Trace(els, [cond], [join]);
      TraceVisitsOnce(thn, [cond], [join]);
      TraceVisitsOnce(els, [cond], [join]);
      BlocksAreRefs(thn);
      BlocksAreRefs(els);
      VisitsOnceOne(t0[0]);
      VisitsOnceConcat(t0, t1, {cond}, Blocks(thn));
      VisitsOnceConcat(t0 + t1, t2, {cond} + Blocks(thn), Blocks(els));
      assert ConstructBlocks(k) == {cond} + Blocks(thn) + Blocks(els);
    case SwitchShape(_, _, arms) =>
      TraceArmsVisitsOnce(arms, [cond], [join]);
      ArmBlocksAreRefs(arms);
      VisitsOnceOne(Visit(cond, ArmFirsts(arms), preds));
      VisitsOnceConcat([Visit(cond, ArmFirsts(arms), preds)], TraceArms(arms, [cond], [join]), {cond}, ArmBlocks(arms));
    case LoopShape(_, _, init, update, body) =>
      var t0, t1, t2 := Trace(init, preds, [cond]), Trace(body, [cond], [First(update)]), Trace(update, [Last(body)], [cond]);
      var t3 := [Visit(cond, [First(body), join], [Last(init), Last(update)])];
      TraceVisitsOnce(init, preds, [cond]);
      TraceVisitsOnce(body, [cond], [First(update)]);
      TraceVisitsOnce(update, [Last(body)], [cond]);
      BlocksAreRefs(init);
      BlocksAreRefs(body);
      BlocksAreRefs(update);
      VisitsOnceOne(t3[0]);
      VisitsOnceConcat(t1, t2, Blocks(body), Blocks(update));
      VisitsOnceConcat(t0, t1 + t2, Blocks(init), Blocks(body) + Blocks(update));
      VisitsOnceConcat(t0 + (t1 + t2), t3, Blocks(init) + (Blocks(body) + Blocks(update)), {cond});
      assert ConstructBlocks(k) == Blocks(init) + (Blocks(body) + Blocks(update)) + {cond};
  }

  lemma {:induction false} TraceArmsVisitsOnce(arms: Arms, preds: seq<Ref>, outs: seq<Ref>)
    requires DistinctArms(arms)
    ensures VisitsOnce(TraceArms(arms, preds, outs), ArmBlocks(arms))
    decreases arms
  {
    match arms
    case NoArms =>
    case Arm(_, _, chain, next) =>
      TraceVisitsOnce(chain, preds, outs);
      TraceArmsVisitsOnce(next, preds, outs);
      BlocksAreRefs(chain);
      ArmBlocksAreRefs(next);
      VisitsOnceConcat(Trace(chain, preds, outs), TraceArms(next, preds, outs), Blocks(chain), ArmBlocks(next));
  }

  // ----- the reported successors are the targets -----

  /** Every switch has a default arm. */
  ghost predicate Defaulted(c: Chain) {
    match c
    case End(_) => true
    case Link(_, rest) => Defaulted(rest)
    case Then(_, k, rest) => DefaultedConstruct(k) && Defaulted(rest)
  }

  ghost predicate DefaultedConstruct(k: Construct) {
    match k
    case IfShape(_, _, thn, els) => Defaulted(thn) && Defaulted(els)
    case SwitchShape(_, _, arms) => DefaultArm(arms).Some? && DefaultedArms(arms)
    case LoopShape(_, _, init, update, body) => Defaulted(init) && Defaulted(update) && Defaulted(body)
  }

  ghost predicate DefaultedArms(arms: Arms) {
    match arms
    case NoArms => true
    case Arm(_, _, chain, next) => Defaulted(chain) && DefaultedArms(next)
  }

  function SetOf(rs: seq<Ref>): set<Ref> {
    set r | r in rs
  }

  ghost predicate ReportsTargets(h: Heap, t: seq<Visit>) {
    forall v | v in t :: SetOf(v.successors) == Targets(h, v.block)
  }

  lemma {:induction false} ArmFirstsAreEntries(h: Heap, arms: Arms, join: Ref)
    requires RealizesArms(h, arms, join)
    ensures SetOf(ArmFirsts(arms)) == set e | e in Entries(arms) :: Ref(e.base, IfTrue)
  {
    match arms
    case NoArms =>
    case Arm(base, key, chain, next) =>
      ArmFirstsAreEntries(h, next, join);
      var s := set e | e in Entries(next) :: Ref(e.base, IfTrue);
      assert (set e | e in Entries(arms) :: Ref(e.base, IfTrue)) == {Ref(base, IfTrue)} + s by {
        assert Entries(arms) == [ArmEntry(base, key)] + Entries(next);
      }
      assert SetOf(ArmFirsts(arms)) == {First(chain)} + SetOf(ArmFirsts(next));
  }

  /** The condition of a switch reports its targets if and only if there is a default arm: without
      one, the edge that skips the switch is missing. */
  lemma SwitchReportsTargets(h: Heap, base: nat, value: nat, arms: Arms, join: Ref)
    requires RealizesConstruct(h, SwitchShape(base, value, arms), join) && join !in ArmFirsts(arms)
    ensures SetOf(ArmFirsts(arms)) == Targets(h, Ref(base, Condition)) <==> DefaultArm(arms).Some?
    ensures SetOf(ArmFirsts(arms)) == Targets(h, Ref(base, Condition)) - {join}
  {
    ArmFirstsAreEntries(h, arms, join);
    assert join in Targets(h, Ref(base, Condition)) <==> DefaultArm(arms).None?;
  }

  lemma ReportsConcat(h: Heap, t: seq<Visit>, t': seq<Visit>)
    ensures ReportsTargets(h, t + t') <==> ReportsTargets(h, t) && ReportsTargets(h, t')
  {
    assert forall v | v in t :: v in t + t';
    assert forall v | v in t' :: v in t + t';
  }

  lemma ReportsOne(h: Heap, v: Visit)
    ensures ReportsTargets(h, [v]) <==> SetOf(v.successors) == Targets(h, v.block)
  {
    assert v in [v];
  }

  /** The last block of a chain that ends in a block has that block as its only target. */
  lemma {:induction false} LastTargets(h: Heap, c: Chain, exit: Ref)
    requires Realizes(h, c, Some(exit)) && IsBlock(h, exit)
    ensures Targets(h, Last(c)) == SetOf([exit])
  {
    match c
    case End(b) =>
    case Link(b, rest) => LastTargets(h, rest, exit);
    case Then(b, k, rest) => LastTargets(h, rest, exit);
  }

  /** Every visit of a traversal reports exactly the targets of its block, if and only if every switch has a
      default arm. */
  lemma {:induction false} TraceReportsTargets(h: Heap, c: Chain, exit: Option<Ref>, preds: seq<Ref>, outs: seq<Ref>)
    requires Realizes(h, c, exit) && Distinct(c)
    requires SetOf(outs) == Targets(h, Last(c))
    ensures ReportsTargets(h, Trace(c, preds, outs)) <==> Defaulted(c)
    decreases c
  {
    hide ReportsTargets;
    match c
    case End(b) => ReportsOne(h, Visit(b, outs, preds));
    case Link(b, rest) =>
      RealizedFirst(h, rest, exit);
      TraceReportsTargets(h, rest, exit, [b], outs);
      ReportsOne(h, Visit(b, [First(rest)], preds));
      ReportsConcat(h, [Visit(b, [First(rest)], preds)], Trace(rest, [b], outs));
    case Then(b, k, rest) =>
      EntryIsFirstBlock(h, k, First(rest));
      RealizedFirst(h, rest, exit);
      JoinApart(h, k, rest);
      TraceConstructReportsTargets(h, k, [b], First(rest));
      TraceReportsTargets(h, rest, exit, ExitBlocks(k), outs);
      ReportsOne(h, Visit(b, [EntryOf(k)], preds));
      ReportsConcat(h, TraceConstruct(k, [b], First(rest)), Trace(rest, ExitBlocks(k), outs));
      ReportsConcat(h, [Visit(b, [EntryOf(k)], preds)], TraceConstruct(k, [b], First(rest)) + Trace(rest, ExitBlocks(k), outs));
  }

  lemma JoinApart(h: Heap, k: Construct, rest: Chain)
    requires ConstructRefs(k) !! Refs(rest)
    ensures First(rest) !in ConstructRefs(k)
  {
    assert First(rest) in Refs(rest);
  }

  lemma {:induction false} TraceConstructReportsTargets(h: Heap, k: Construct, preds: seq<Ref>, join: Ref)
    requires RealizesConstruct(h, k, join) && DistinctConstruct(k) && IsBlock(h, join) && join !in ConstructRefs(k)
    ensures ReportsTargets(h, TraceConstruct(k, preds, join)) <==> DefaultedConstruct(k)
    decreases k, 1
  {
    hide ReportsTargets;
    var cond := Ref(k.base, Condition);
    match k
    case IfShape(_, _, thn, els) =>
      var v := Visit(cond, [First(thn), First(els)], preds);
      LastTargets(h, thn, join);
      LastTargets(h, els, join);
      TraceReportsTargets(h, thn, Some(join), [cond], [join]);
      TraceReportsTargets(h, els, Some(join), [cond], [join]);
      ReportsOne(h, v);
      ReportsConcat(h, [v], Trace(thn, [cond], [join]));
      ReportsConcat(h, [v] + Trace(thn, [cond], [join]), Trace(els, [cond], [join]));
    case SwitchShape(base, value, arms) =>
      var v := Visit(cond, ArmFirsts(arms), preds);
      ArmFirstsAreRefs(arms);
      SwitchReportsTargets(h, base, value, arms, join);
      TraceArmsReportsTargets(h, arms, [cond], join);
      ReportsOne(h, v);
      ReportsConcat(h, [v], TraceArms(arms, [cond], [join]));
    case LoopShape(_, _, init, update, body) => LoopReportsTargets(h, k, preds, join);
  }

  lemma {:induction false} LoopReportsTargets(h: Heap, k: Construct, preds: seq<Ref>, join: Ref)
    requires k.LoopShape? && RealizesConstruct(h, k, join) && DistinctConstruct(k) && IsBlock(h, join)
    ensures ReportsTargets(h, TraceConstruct(k, preds, join)) <==> DefaultedConstruct(k)
    decreases k, 0
  {
    hide ReportsTargets, Trace, Refs, Distinct, Realizes, Defaulted;
    var LoopShape(_, _, init, update, body) := k;
    var cond := Ref(k.base, Condition);
    var v := Visit(cond, [First(body), join], [Last(init), Last(update)]);
    RealizedFirst(h, update, Some(cond));
    LastTargets(h, init, cond);
    LastTargets(h, update, cond);
    LastTargets(h, body, First(update));
    TraceReportsTargets(h, init, Some(cond), preds, [cond]);
    TraceReportsTargets(h, body, Some(First(update)), [cond], [First(update)]);
    TraceReportsTargets(h, update, Some(cond), [Last(body)], [cond]);
    var bu := Trace(body, [cond], [First(update)]) + Trace(update, [Last(body)], [cond]);
    ReportsConcat(h, Trace(body, [cond], [First(update)]), Trace(update, [Last(body)], [cond]));
    ReportsConcat(h, Trace(init, preds, [cond]), bu);
    ReportsOne(h, v);
    ReportsConcat(h, Trace(init, preds, [cond]) + bu, [v]);
  }

  lemma {:induction false} ArmFirstsAreRefs(arms: Arms)
    ensures SetOf(ArmFirsts(arms)) <= ArmRefs(arms)
  {
    match arms
    case NoArms =>
    case Arm(_, _, chain, next) =>
      ArmFirstsAreRefs(next);
      assert First(chain) in Refs(chain);
      assert SetOf(ArmFirsts(arms)) == {First(chain)} + SetOf(ArmFirsts(next));
  }

  lemma {:induction false} TraceArmsReportsTargets(h: Heap, arms: Arms, preds: seq<Ref>, join: Ref)
    requires RealizesArms(h, arms, join) && DistinctArms(arms) && IsBlock(h, join)
    ensures ReportsTargets(h, TraceArms(arms, preds, [join])) <==> DefaultedArms(arms)
    decreases arms
  {
    match arms
    case NoArms =>
    case Arm(_, _, chain, next) =>
      LastTargets(h, chain, join);
      TraceReportsTargets(h, chain, Some(join), preds, [join]);
      TraceArmsReportsTargets(h, next, preds, join);
      ReportsConcat(h, Trace(chain, preds, [join]), TraceArms(next, preds, [join]));
  }

  // ----- predecessors are the inverse of successors -----

  function SuccessorEdges(t: seq<Visit>): set<(Ref, Ref)> {
    set v, b | v in t && b in v.successors :: (v.block, b)
  }

  function PredecessorEdges(t: seq<Visit>): set<(Ref, Ref)> {
    set v, a | v in t && a in v.predecessors :: (a, v.block)
  }

  function EdgesInto(from: seq<Ref>, b: Ref): set<(Ref, Ref)> {
    set a | a in from :: (a, b)
  }

  function EdgesFrom(b: Ref, to: seq<Ref>): set<(Ref, Ref)> {
    set a | a in to :: (b, a)
  }

  /** Up to the edges `ins`, which enter, and `outs`, which leave, the two reports of `t` agree. */
  ghost predicate Balanced(t: seq<Visit>, ins: set<(Ref, Ref)>, outs: set<(Ref, Ref)>) {
    && SuccessorEdges(t) + ins == PredecessorEdges(t) + outs
    && ins <= PredecessorEdges(t) && outs <= SuccessorEdges(t)
  }

  lemma BalancedOne(v: Visit)
    ensures Balanced([v], EdgesInto(v.predecessors, v.block), EdgesFrom(v.block, v.successors))
  {
    assert SuccessorEdges([v]) == EdgesFrom(v.block, v.successors);
    assert PredecessorEdges([v]) == EdgesInto(v.predecessors, v.block);
  }

  lemma EdgesConcat(t: seq<Visit>, t': seq<Visit>)
    ensures SuccessorEdges(t + t') == SuccessorEdges(t) + SuccessorEdges(t')
    ensures PredecessorEdges(t + t') == PredecessorEdges(t) + PredecessorEdges(t')
  {
  }

  /** The same for plain sets, one element at a time. */
  lemma SetsBalance<T>(s: set<T>, p: set<T>, ins: set<T>, outs: set<T>, s': set<T>, p': set<T>, ins': set<T>, outs': set<T>,
                       internal: set<T>, i: set<T>, o: set<T>)
    requires s + ins == p + outs && ins <= p && outs <= s
    requires s' + ins' == p' + outs' && ins' <= p' && outs' <= s'
    requires ins + ins' == i + internal && outs + outs' == o + internal
    ensures s + s' + i == p + p' + o && i <= p + p' && o <= s + s'
  {
    forall x | x in s + s' + i ensures x in p + p' + o {
      assert x in i ==> x in ins + ins';
      assert x in s ==> x in p + outs;
      assert x in s' ==> x in p' + outs';
      assert x in outs + outs' ==> x in o || x in internal;
      assert x in internal ==> x in ins + ins';
    }
    forall x | x in p + p' + o ensures x in s + s' + i {
      assert x in o ==> x in outs + outs';
      assert x in p ==> x in s + ins;
      assert x in p' ==> x in s' + ins';
      assert x in ins + ins' ==> x in i || x in internal;
      assert x in internal ==> x in outs + outs';
    }
    assert forall x | x in i :: x in ins + ins';
    assert forall x | x in o :: x in outs + outs';
  }

  /** Two reports side by side: edges that leave one for the other become internal. */
  lemma BalancedConcat(t: seq<Visit>, t': seq<Visit>, ins: set<(Ref, Ref)>, outs: set<(Ref, Ref)>,
                       ins': set<(Ref, Ref)>, outs': set<(Ref, Ref)>,
                       internal: set<(Ref, Ref)>, i: set<(Ref, Ref)>, o: set<(Ref, Ref)>)
    requires Balanced(t, ins, outs) && Balanced(t', ins', outs')
    requires ins + ins' == i + internal && outs + outs' == o + internal
    ensures Balanced(t + t', i, o)
  {
    hide SuccessorEdges, PredecessorEdges;
    EdgesConcat(t, t');
    SetsBalance(SuccessorEdges(t), PredecessorEdges(t), ins, outs, SuccessorEdges(t'), PredecessorEdges(t'), ins', outs',
                internal, i, o);
  }

  lemma SingleEdge(a: Ref, b: Ref)
    ensures EdgesInto([a], b) == {(a, b)} && EdgesFrom(a, [b]) == {(a, b)}
  {
  }

  /** A block in front of a report whose only way in comes from that block. */
  lemma BalancedCons(v: Visit, next: Ref, t: seq<Visit>, outs: set<(Ref, Ref)>)
    requires v.successors == [next] && Balanced(t, {(v.block, next)}, outs)
    ensures Balanced([v] + t, EdgesInto(v.predecessors, v.block), outs)
  {
    BalancedOne(v);
    SingleEdge(v.block, next);
    BalancedConcat([v], t, EdgesInto(v.predecessors, v.block), {(v.block, next)}, {(v.block, next)}, outs,
                   {(v.block, next)}, EdgesInto(v.predecessors, v.block), outs);
  }

  /** One report after another: what leaves the first enters the second. */
  lemma BalancedSeq(t: seq<Visit>, t': seq<Visit>, ins: set<(Ref, Ref)>, mid: set<(Ref, Ref)>, outs: set<(Ref, Ref)>)
    requires Balanced(t, ins, mid) && Balanced(t', mid, outs)
    ensures Balanced(t + t', ins, outs)
  {
    BalancedConcat(t, t', ins, mid, mid, outs, mid, ins, outs);
  }

  lemma {:induction false} TraceBalanced(h: Heap, c: Chain, exit: Option<Ref>, preds: seq<Ref>, outs: seq<Ref>)
    requires Realizes(h, c, exit)
    ensures Balanced(Trace(c, preds, outs), EdgesInto(preds, First(c)), EdgesFrom(Last(c), outs))
    decreases c
  {
    hide Balanced, EdgesInto, EdgesFrom;
    match c
    case End(b) => BalancedOne(Trace(c, preds, outs)[0]);
    case Link(b, rest) =>
      TraceBalanced(h, rest, exit, [b], outs);
      SingleEdge(b, First(rest));
      BalancedCons(Visit(b, [First(rest)], preds), First(rest), Trace(rest, [b], outs), EdgesFrom(Last(rest), outs));
    case Then(b, k, rest) =>
      TraceConstructBalanced(h, k, [b], First(rest));
      TraceBalanced(h, rest, exit, ExitBlocks(k), outs);
      var t1, t2 := TraceConstruct(k, [b], First(rest)), Trace(rest, ExitBlocks(k), outs);
      SingleEdge(b, EntryOf(k));
      BalancedSeq(t1, t2, {(b, EntryOf(k))}, EdgesInto(ExitBlocks(k), First(rest)), EdgesFrom(Last(rest), outs));
      BalancedCons(Visit(b, [EntryOf(k)], preds), EntryOf(k), t1 + t2, EdgesFrom(Last(rest), outs));
  }

  lemma {:induction false} TraceConstructBalanced(h: Heap, k: Construct, preds: seq<Ref>, join: Ref)
    requires RealizesConstruct(h, k, join)
    ensures Balanced(TraceConstruct(k, preds, join), EdgesInto(preds, EntryOf(k)), EdgesInto(ExitBlocks(k), join))
    decreases k
  {
    hide Balanced;
    var cond := Ref(k.base, Condition);
    match k
    case IfShape(_, _, thn, els) =>
      TraceBalanced(h, thn, Some(join), [cond], [join]);
      TraceBalanced(h, els, Some(join), [cond], [join]);
      BalancedIf(Visit(cond, [First(thn), First(els)], preds), Trace(thn, [cond], [join]), Trace(els, [cond], [join]),
                 First(thn), First(els), Last(thn), Last(els), join);
    case SwitchShape(_, _, arms) =>
      TraceArmsBalanced(h, arms, cond, join);
      BalancedOne(Visit(cond, ArmFirsts(arms), preds));
      BalancedSeq([Visit(cond, ArmFirsts(arms), preds)], TraceArms(arms, [cond], [join]),
                  EdgesInto(preds, cond), EdgesFrom(cond, ArmFirsts(arms)), EdgesInto(ArmLasts(arms), join));
    case LoopShape(_, _, init, update, body) =>
      TraceBalanced(h, init, Some(cond), preds, [cond]);
      TraceBalanced(h, body, Some(First(update)), [cond], [First(update)]);
      TraceBalanced(h, update, Some(cond), [Last(body)], [cond]);
      BalancedLoop(Trace(init, preds, [cond]), Trace(body, [cond], [First(update)]), Trace(update, [Last(body)], [cond]),
                   EdgesInto(preds, First(init)), Last(init), First(body), Last(body), First(update), Last(update), cond, join);
  }

  lemma BalancedIf(v: Visit, t: seq<Visit>, t': seq<Visit>, first: Ref, first': Ref, last: Ref, last': Ref, join: Ref)
    requires v.successors == [first, first']
    requires Balanced(t, EdgesInto([v.block], first), EdgesFrom(last, [join]))
    requires Balanced(t', EdgesInto([v.block], first'), EdgesFrom(last', [join]))
    ensures Balanced([v] + t + t', EdgesInto(v.predecessors, v.block), EdgesInto([last, last'], join))
  {
    hide Balanced;
    var c := v.block;
    BalancedOne(v);
    assert EdgesFrom(c, [first, first']) == {(c, first), (c, first')};
    assert EdgesInto([last, last'], join) == {(last, join), (last', join)};
    SingleEdge(c, first);
    SingleEdge(c, first');
    SingleEdge(last, join);
    SingleEdge(last', join);
    BalancedConcat(t, t', {(c, first)}, {(last, join)}, {(c, first')}, {(last', join)}, {},
                   {(c, first), (c, first')}, {(last, join), (last', join)});
    BalancedSeq([v], t + t', EdgesInto(v.predecessors, c), {(c, first), (c, first')}, {(last, join), (last', join)});
    assert [v] + t + t' == [v] + (t + t');
  }

  lemma BalancedLoop(t0: seq<Visit>, t1: seq<Visit>, t2: seq<Visit>, ins: set<(Ref, Ref)>, lastInit: Ref,
                     firstBody: Ref, lastBody: Ref, firstUpdate: Ref, lastUpdate: Ref, cond: Ref, join: Ref)
    requires Balanced(t0, ins, EdgesFrom(lastInit, [cond]))
    requires Balanced(t1, EdgesInto([cond], firstBody), EdgesFrom(lastBody, [firstUpdate]))
    requires Balanced(t2, EdgesInto([lastBody], firstUpdate), EdgesFrom(lastUpdate, [cond]))
    ensures Balanced(t0 + (t1 + t2) + [Visit(cond, [firstBody, join], [lastInit, lastUpdate])], ins, EdgesInto([cond], join))
  {
    hide Balanced;
    var v := Visit(cond, [firstBody, join], [lastInit, lastUpdate]);
    BalancedOne(v);
    assert EdgesFrom(cond, [firstBody, join]) == {(cond, firstBody), (cond, join)};
    assert EdgesInto([lastInit, lastUpdate], cond) == {(lastInit, cond), (lastUpdate, cond)};
    SingleEdge(cond, firstBody);
    SingleEdge(lastBody, firstUpdate);
    SingleEdge(lastInit, cond);
    SingleEdge(lastUpdate, cond);
    SingleEdge(cond, join);
    BalancedSeq(t1, t2, {(cond, firstBody)}, {(lastBody, firstUpdate)}, {(lastUpdate, cond)});
    BalancedConcat(t0, t1 + t2, ins, {(lastInit, cond)}, {(cond, firstBody)}, {(lastUpdate, cond)}, {},
                   ins + {(cond, firstBody)}, {(lastInit, cond), (lastUpdate, cond)});
    BalancedConcat(t0 + (t1 + t2), [v], ins + {(cond, firstBody)}, {(lastInit, cond), (lastUpdate, cond)},
                   {(lastInit, cond), (lastUpdate, cond)}, {(cond, firstBody), (cond, join)},
                   {(lastInit, cond), (lastUpdate, cond), (cond, firstBody)}, ins, {(cond, join)});
  }

  lemma {:induction false} TraceArmsBalanced(h: Heap, arms: Arms, cond: Ref, join: Ref)
    requires RealizesArms(h, arms, join)
    ensures Balanced(TraceArms(arms, [cond], [join]), EdgesFrom(cond, ArmFirsts(arms)), EdgesInto(ArmLasts(arms), join))
    decreases arms
  {
    match arms
    case NoArms =>
    case Arm(_, _, chain, next) =>
      hide Balanced;
      TraceBalanced(h, chain, Some(join), [cond], [join]);
      TraceArmsBalanced(h, next, cond, join);
      SingleEdge(cond, First(chain));
      SingleEdge(Last(chain), join);
      assert EdgesFrom(cond, ArmFirsts(arms)) == {(cond, First(chain))} + EdgesFrom(cond, ArmFirsts(next));
      assert EdgesInto(ArmLasts(arms), join) == {(Last(chain), join)} + EdgesInto(ArmLasts(next), join);
      BalancedConcat(Trace(chain, [cond], [join]), TraceArms(next, [cond], [join]),
                     {(cond, First(chain))}, {(Last(chain), join)},
                     EdgesFrom(cond, ArmFirsts(next)), EdgesInto(ArmLasts(next), join), {},
                     EdgesFrom(cond, ArmFirsts(arms)), EdgesInto(ArmLasts(arms), join));
  }
}
