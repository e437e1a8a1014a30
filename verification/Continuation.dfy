/** What holds between any two calls of the builders, not just at the end of a construct: the line of
    control of every block leads home, to the join or loop header that encloses it, and in the end to the
    exit of the context. */
module Continuation {
  import opened Mir
  import opened Hir
  import opened Shape
  import opened Lowering
  import opened Execution
  import opened Reachability
  import opened Calls
  import opened HirToMir
  import opened Preservation

  // ----- where the line of control goes on -----

  function JoinOf(n: Node): Ref
    requires !n.content.Sequential?
  {
    match n.content
    case Conditional(_, join) => join
    case MultiWay(_, _, _, join) => join
    case Loop(_, join) => join
  }

  /** The next block on the line of control of `r`: a construct is stepped over. */
  function Out(h: Heap, r: Ref): Option<Ref>
    requires IsBlock(h, r)
  {
    match h[r].content.successor
    case Some(n) => if n !in h then None else if IsBlock(h, n) then Some(n) else Some(JoinOf(h[n]))
    case None =>
      if IsCondition(h, r) && !h[Ref(r.base, Whole)].content.Sequential? then Some(JoinOf(h[Ref(r.base, Whole)])) else None
  }

  ghost predicate LeadsTo(h: Heap, r: Ref, exit: Ref, n: nat)
    decreases n
  {
    if n == 0 then r == exit
    else IsBlock(h, r) && Out(h, r).Some? && LeadsTo(h, Out(h, r).value, exit, n - 1)
  }

  ghost predicate AllLeadToExit(h: Heap) {
    forall r | IsBlock(h, r) :: exists n: nat :: LeadsTo(h, r, EXIT, n)
  }

  // ----- what it has to do with running -----

  /** A run that halts follows the line of control: from the first block of a chain it comes to the block that is
      next on the line, having run all of a construct that lies between. */
  lemma RunPassesOut<S>(m: Machine<S>, h: Heap, c: Chain, exit: Ref, s: S, n: nat) returns (s': S, n1: nat)
    requires Realizes(h, c, Some(exit)) && IsBlock(h, exit) && Execution.Run(m, h, At(First(c), s), n).Halted?
    ensures Out(h, First(c)).Some? && IsBlock(h, Out(h, First(c)).value)
    ensures 1 <= n1 <= n && Execution.Run(m, h, At(First(c), s), n1) == At(Out(h, First(c)).value, s')
  {
    hide Eval, EvalStmt, Denote, DenoteConstruct;
    var b := First(c);
    var s1 := Exec(m, Operations(CodeOf(h, b)), s);
    RunOnce(m, h, b, s);
    match c
    case End(_) =>
      PassesOnce(m, h, b, s, n, exit, s1);
      s', n1 := s1, 1;
    case Link(_, rest) =>
      RealizedFirst(h, rest, Some(exit));
      PassesOnce(m, h, b, s, n, First(rest), s1);
      s', n1 := s1, 1;
    case Then(_, k, rest) =>
      RealizedFirst(h, rest, Some(exit));
      EntryIsFirstBlock(h, k, First(rest));
      PassesOnce(m, h, b, s, n, EntryOf(k), s1);
      n1, s' := BackwardConstruct(m, h, k, First(rest), s1, n - 1, n - 1);
      PassesThen(m, h, b, s, n, EntryOf(k), s1, 1, First(rest), s', n1);
      n1 := 1 + n1;
  }

  /** The same from the condition of a construct, to what follows the construct. */
  lemma ConditionPassesOut<S>(m: Machine<S>, h: Heap, k: Construct, join: Ref, s: S, n: nat) returns (s': S, n1: nat)
    requires RealizesConstruct(h, k, join) && IsBlock(h, join) && Execution.Run(m, h, At(Ref(k.base, Condition), s), n).Halted?
    ensures Out(h, Ref(k.base, Condition)) == Some(join)
    ensures 1 <= n1 <= n && Execution.Run(m, h, At(Ref(k.base, Condition), s), n1) == At(join, s')
  {
    hide Eval, EvalStmt, EvalLoop, Denote, DenoteConstruct, Execution.Run;
    if k.LoopShape? {
      n1, s' := BackwardLoop(m, h, k, join, s, n, n);
    } else {
      n1, s' := BackwardConstruct(m, h, k, join, s, n, n);
    }
  }

  // ----- the invariant -----

  /** Along the line of control the rank falls. */
  ghost predicate RankFalls(h: Heap, rank: map<Ref, nat>, r: Ref) {
    && r in rank
    && (r != EXIT && IsBlock(h, r) ==>
          var o := Out(h, r); o.Some? && IsBlock(h, o.value) && o.value in rank && rank[o.value] < rank[r])
  }

  ghost predicate Ranked(h: Heap, rank: map<Ref, nat>) {
    forall r {:trigger RankFalls(h, rank, r)} | IsBlock(h, r) :: RankFalls(h, rank, r)
  }

  /** The condition of every construct belongs to it. */
  ghost predicate ConditionsPlaced(h: Heap) {
    forall r | IsBlock(h, r) && r.member == Condition ::
      IsCondition(h, r) && !h[Ref(r.base, Whole)].content.Sequential?
  }

  /** Every construct comes together in a block. */
  ghost predicate JoinsPlaced(h: Heap) {
    forall r | r in h && !h[r].content.Sequential? :: IsBlock(h, JoinOf(h[r]))
  }

  ghost predicate Invariant(h: Heap, n: nat, rank: map<Ref, nat>) {
    Bounded(h, n) && Ranked(h, rank) && ConditionsPlaced(h) && JoinsPlaced(h) && IsBlockTo(h, EXIT, None)
  }

  lemma {:induction false} RankedLeads(h: Heap, rank: map<Ref, nat>, r: Ref) returns (n: nat)
    requires Ranked(h, rank) && IsBlock(h, r)
    ensures LeadsTo(h, r, EXIT, n)
    decreases if RankFalls(h, rank, r) then rank[r] else 0
  {
    assert RankFalls(h, rank, r);
    if r == EXIT {
      n := 0;
    } else {
      assert RankFalls(h, rank, Out(h, r).value);
      var n' := RankedLeads(h, rank, Out(h, r).value);
      n := n' + 1;
    }
  }

  /** Splicing loses no continuation: the current block goes on in the new join, and the join where the
      current block went before. Every other block goes on where it did. */
  lemma SpliceKeepsContinuation(h: Heap, h': Heap, b: Ref, n: nat, parts: Heap, r: Ref)
    requires Bounded(h, n) && ConditionsPlaced(h) && MaySplice(h, b) && Opened(h, h', Some(b), n, parts)
    requires Ref(n + 1, Whole) in parts && !parts[Ref(n + 1, Whole)].content.Sequential?
    requires JoinOf(parts[Ref(n + 1, Whole)]) == Ref(n, Whole)
    requires IsBlock(h, r) && (Successor(h, r).Some? ==> Successor(h, r).value in h)
    ensures IsBlock(h', b) && Out(h', b) == Some(Ref(n, Whole))
    ensures IsBlock(h', Ref(n, Whole)) && Out(h', Ref(n, Whole)) == Out(h, b)
    ensures r != b ==> IsBlock(h', r) && Out(h', r) == Out(h, r)
  {
    var w := Ref(n + 1, Whole);
    assert h'[w] == parts[w];
    assert forall x | x in h :: x in h' && (x != b ==> h'[x].content == h[x].content);
    if r.member == Condition {
      assert IsCondition(h, r);
      assert r != b ==> h'[r].parent == h[r].parent;
    }
  }

  // ----- every call keeps it -----

  /** How far a part of a construct is from the join. */
  function Distance(m: Member): nat {
    match m
    case Body => 3
    case Init => 2
    case Update => 2
    case _ => 1
  }

  function SplicedRank(rank: map<Ref, nat>, b: Ref, n: nat, parts: Heap): map<Ref, nat>
    requires b in rank
  {
    (map r | r in rank :: 4 * rank[r]) + (map r | r in parts :: 4 * rank[b] + Distance(r.member))
    + map[Ref(n, Whole) := if rank[b] == 0 then 0 else 4 * rank[b] - 1]
  }

  /** Where the blocks of a construct that was made at address `n` lead: branches and condition to the join,
      the initialization and update of a loop to its condition, and the body to the update. */
  function PartHome(n: nat, m: Member): Ref {
    match m
    case Init => Ref(n + 1, Condition)
    case Update => Ref(n + 1, Condition)
    case Body => Ref(n + 1, Update)
    case _ => Ref(n, Whole)
  }

  ghost predicate PartsLeadHome(h': Heap, n: nat, parts: Heap) {
    forall r | r in parts && IsBlock(h', r) ::
      && var home := PartHome(n, r.member);
         Out(h', r) == Some(home) && IsBlock(h', home) && (home == Ref(n, Whole) || home in parts)
  }

  lemma OpenedKeepsRanks(h: Heap, h': Heap, b: Ref, n: nat, parts: Heap, rank: map<Ref, nat>, r: Ref)
    requires Invariant(h, n, rank) && MaySplice(h, b) && Opened(h, h', Some(b), n, parts) && PartsLeadHome(h', n, parts)
    requires Ref(n + 1, Whole) in parts && !parts[Ref(n + 1, Whole)].content.Sequential?
    requires JoinOf(parts[Ref(n + 1, Whole)]) == Ref(n, Whole)
    requires RankFalls(h, rank, b) && b in rank && IsBlock(h', r)
    ensures RankFalls(h', SplicedRank(rank, b, n, parts), r)
  {
    SpliceKeepsContinuation(h, h', b, n, parts, b);
    if r in parts {
      PartRankFalls(h', n, parts, rank, b, r);
    } else if r in h && r != b {
      assert RankFalls(h, rank, r);
      SpliceKeepsContinuation(h, h', b, n, parts, r);
      OldRankFalls(h, h', n, parts, rank, b, r);
    } else {
      assert RankFalls(h, rank, Out(h, b).value) by {
        assert IsBlock(h, Out(h, b).value);
      }
    }
  }

  lemma PartRankFalls(h': Heap, n: nat, parts: Heap, rank: map<Ref, nat>, b: Ref, r: Ref)
    requires PartsLeadHome(h', n, parts) && b in rank && r in parts && IsBlock(h', r) && Ref(n, Whole) !in parts
    ensures RankFalls(h', SplicedRank(rank, b, n, parts), r)
  {
  }

  lemma OldRankFalls(h: Heap, h': Heap, n: nat, parts: Heap, rank: map<Ref, nat>, b: Ref, r: Ref)
    requires RankFalls(h, rank, r) && b in rank && IsBlock(h, r) && IsBlock(h', r) && Out(h', r) == Out(h, r)
    requires forall x | IsBlock(h, x) :: IsBlock(h', x) && x !in parts && x != Ref(n, Whole)
    ensures RankFalls(h', SplicedRank(rank, b, n, parts), r)
  {
  }

  lemma OpenedPlacesConditions(h: Heap, h': Heap, b: Ref, n: nat, parts: Heap)
    requires Bounded(h, n) && ConditionsPlaced(h) && MaySplice(h, b) && Opened(h, h', Some(b), n, parts)
    requires Ref(n + 1, Whole) in parts && !parts[Ref(n + 1, Whole)].content.Sequential?
    requires Ref(n + 1, Condition) in parts ==> parts[Ref(n + 1, Condition)].parent == Some(Ref(n + 1, Whole))
    ensures ConditionsPlaced(h')
  {
    assert forall x | x in h :: x in h' && (x != b ==> h'[x].content == h[x].content);
    forall r | IsBlock(h', r) && r.member == Condition
      ensures IsCondition(h', r) && !h'[Ref(r.base, Whole)].content.Sequential?
    {
      if r in h {
        assert IsBlock(h, r) && IsCondition(h, r);
        assert h'[r].parent == h[r].parent;
      } else {
        assert r in parts;
      }
    }
  }

  lemma OpenedPlacesJoins(h: Heap, h': Heap, b: Ref, n: nat, parts: Heap)
    requires JoinsPlaced(h) && MaySplice(h, b) && Opened(h, h', Some(b), n, parts) && IsBlockTo(h, EXIT, None)
    requires forall r | r in parts && !parts[r].content.Sequential? :: JoinOf(parts[r]) == Ref(n, Whole)
    requires EXIT != b && Bounded(h, n)
    ensures JoinsPlaced(h') && IsBlockTo(h', EXIT, None)
  {
    assert IsBlock(h', Ref(n, Whole));
    assert forall x | x in h :: x in h' && (x != b ==> h'[x].content == h[x].content);
  }

  lemma OpenedStaysBounded(h: Heap, h': Heap, b: Ref, n: nat, parts: Heap)
    requires Bounded(h, n) && MaySplice(h, b) && Opened(h, h', Some(b), n, parts)
    requires forall r | r in parts :: parts[r].parent.Some? ==> parts[r].parent.value.base < n + 2
    ensures Bounded(h', n + 2)
  {
  }

  lemma OpenedKeepsConditions(h: Heap, h': Heap, b: Ref, n: nat, parts: Heap, rank: map<Ref, nat>)
    requires Invariant(h, n, rank) && MaySplice(h, b) && Opened(h, h', Some(b), n, parts)
    requires Ref(n + 1, Whole) in parts && !parts[Ref(n + 1, Whole)].content.Sequential?
    requires forall r | r in parts && !parts[r].content.Sequential? :: JoinOf(parts[r]) == Ref(n, Whole)
    requires Ref(n + 1, Condition) in parts ==> parts[Ref(n + 1, Condition)].parent == Some(Ref(n + 1, Whole))
    requires forall r | r in parts :: parts[r].parent.Some? ==> parts[r].parent.value.base < n + 2
    ensures ConditionsPlaced(h') && JoinsPlaced(h') && Bounded(h', n + 2) && IsBlockTo(h', EXIT, None)
  {
    hide ConditionsPlaced, JoinsPlaced, Bounded, Ranked, Opened;
    OpenedPlacesConditions(h, h', b, n, parts);
    OpenedPlacesJoins(h, h', b, n, parts);
    OpenedStaysBounded(h, h', b, n, parts);
  }

  lemma OpenedKeepsInvariant(h: Heap, h': Heap, b: Ref, n: nat, parts: Heap, rank: map<Ref, nat>)
      returns (rank': map<Ref, nat>)
    requires Invariant(h, n, rank) && MaySplice(h, b) && Opened(h, h', Some(b), n, parts) && PartsLeadHome(h', n, parts)
    requires Ref(n + 1, Whole) in parts && !parts[Ref(n + 1, Whole)].content.Sequential?
    requires JoinOf(parts[Ref(n + 1, Whole)]) == Ref(n, Whole)
    requires forall r | r in parts && !parts[r].content.Sequential? :: JoinOf(parts[r]) == Ref(n, Whole)
    requires Ref(n + 1, Condition) in parts ==> parts[Ref(n + 1, Condition)].parent == Some(Ref(n + 1, Whole))
    requires forall r | r in parts :: parts[r].parent.Some? ==> parts[r].parent.value.base < n + 2
    ensures Invariant(h', n + 2, rank')
  {
    hide Opened, RankFalls, Bounded;
    assert RankFalls(h, rank, b);
    assert b in rank by {
      RankDomain(h, rank, b);
    }
    rank' := SplicedRank(rank, b, n, parts);
    forall r {:trigger RankFalls(h', rank', r)} | IsBlock(h', r) ensures RankFalls(h', rank', r) {
      OpenedKeepsRanks(h, h', b, n, parts, rank, r);
    }
    OpenedKeepsConditions(h, h', b, n, parts, rank);
  }

  lemma RankDomain(h: Heap, rank: map<Ref, nat>, r: Ref)
    requires RankFalls(h, rank, r)
    ensures r in rank
  {
  }

  lemma IfPartsLeadHome(h: Heap, h': Heap, b: Ref, n: nat)
    requires Opened(h, h', Some(b), n, IfParts(n + 1, Some(b), Ref(n, Whole), None, []))
    ensures PartsLeadHome(h', n, IfParts(n + 1, Some(b), Ref(n, Whole), None, []))
  {
    var parts := IfParts(n + 1, Some(b), Ref(n, Whole), None, []);
    assert Ref(n + 1, Whole) in parts && Ref(n + 1, Condition) in parts;
    assert IsBlock(h', Ref(n, Whole));
  }

  lemma SwitchPartsLeadHome(h: Heap, h': Heap, b: Ref, n: nat)
    requires Opened(h, h', Some(b), n, SwitchParts(n + 1, Some(b), Ref(n, Whole), None, []))
    ensures PartsLeadHome(h', n, SwitchParts(n + 1, Some(b), Ref(n, Whole), None, []))
  {
    var parts := SwitchParts(n + 1, Some(b), Ref(n, Whole), None, []);
    assert Ref(n + 1, Whole) in parts && Ref(n + 1, Condition) in parts;
    assert IsBlock(h', Ref(n, Whole));
  }

  lemma LoopPartsLeadHome(h: Heap, h': Heap, b: Ref, n: nat)
    requires Opened(h, h', Some(b), n, LoopParts(n + 1, Some(b), Ref(n, Whole), None, []))
    ensures PartsLeadHome(h', n, LoopParts(n + 1, Some(b), Ref(n, Whole), None, []))
  {
    var parts := LoopParts(n + 1, Some(b), Ref(n, Whole), None, []);
    assert Ref(n + 1, Whole) in parts && Ref(n + 1, Condition) in parts && Ref(n + 1, Update) in parts;
    assert IsBlock(h', Ref(n, Whole)) && IsBlock(h', Ref(n + 1, Condition)) && IsBlock(h', Ref(n + 1, Update));
  }

  /** A change that keeps every block's continuation, and adds at most blocks with a ranked one. */
  lemma SameOutKeepsInvariant(h: Heap, h': Heap, n: nat, n': nat, rank: map<Ref, nat>, x: Ref)
    requires Invariant(h, n, rank) && n <= n' && x in h && h'.Keys == h.Keys
    requires forall r | r in h && r != x :: h'[r] == h[r]
    requires h'[x].parent == h[x].parent && h'[x].content.Sequential? == h[x].content.Sequential?
    requires if h[x].content.Sequential? then h'[x].content.successor == h[x].content.successor
             else JoinOf(h'[x]) == JoinOf(h[x])
    ensures Invariant(h', n', rank)
  {
    assert ConditionsPlaced(h') by {
      forall r | IsBlock(h', r) && r.member == Condition
        ensures IsCondition(h', r) && !h'[Ref(r.base, Whole)].content.Sequential?
      {
        assert IsBlock(h, r) && IsCondition(h, r);
      }
    }
    forall r {:trigger RankFalls(h', rank, r)} | IsBlock(h', r) ensures RankFalls(h', rank, r) {
      assert RankFalls(h, rank, r);
      SameOut(h, h', x, r);
    }
  }

  lemma SameOut(h: Heap, h': Heap, x: Ref, r: Ref)
    requires x in h && h'.Keys == h.Keys && IsBlock(h, r)
    requires forall r | r in h && r != x :: h'[r] == h[r]
    requires h'[x].parent == h[x].parent && h'[x].content.Sequential? == h[x].content.Sequential?
    requires if h[x].content.Sequential? then h'[x].content.successor == h[x].content.successor
             else JoinOf(h'[x]) == JoinOf(h[x])
    ensures IsBlock(h', r) && Out(h', r) == Out(h, r)
  {
  }

  lemma CaseKeepsInvariant(h: Heap, h': Heap, n: nat, a: nat, join: Ref, key: Option<int>, rank: map<Ref, nat>)
      returns (rank': map<Ref, nat>)
    requires Invariant(h, n, rank) && OpenedCase(h, h', a, n, join, key)
    ensures Invariant(h', n + 1, rank')
  {
    var w, arm := Ref(a, Whole), Ref(n, IfTrue);
    var h1 := h[w := WithArms(h[w], [ArmEntry(n, key)], if key.None? then Some(n) else None)];
    SameOutKeepsInvariant(h, h1, n, n, rank, w);
    assert h' == h1[arm := Node(Some(w), Sequential([], Some(join)))];
    rank' := ArmKeepsInvariant(h1, h', n, w, join, rank);
  }

  lemma ArmKeepsInvariant(h: Heap, h': Heap, n: nat, w: Ref, join: Ref, rank: map<Ref, nat>) returns (rank': map<Ref, nat>)
    requires Invariant(h, n, rank) && w in h && !h[w].content.Sequential? && JoinOf(h[w]) == join
    requires h' == h[Ref(n, IfTrue) := Node(Some(w), Sequential([], Some(join)))]
    ensures Invariant(h', n + 1, rank')
  {
    var arm := Ref(n, IfTrue);
    assert RankFalls(h, rank, join);
    rank' := rank[arm := rank[join] + 1];
    ArmKeepsConditions(h, h', n, w, join);
    RankedPlaces(h, n, rank);
    forall r {:trigger RankFalls(h', rank', r)} | IsBlock(h', r) ensures RankFalls(h', rank', r) {
      if r != arm {
        assert RankFalls(h, rank, r);
      }
    }
  }

  lemma ArmKeepsConditions(h: Heap, h': Heap, n: nat, w: Ref, join: Ref)
    requires ConditionsPlaced(h) && JoinsPlaced(h) && Bounded(h, n) && w in h
    requires h' == h[Ref(n, IfTrue) := Node(Some(w), Sequential([], Some(join)))]
    ensures ConditionsPlaced(h') && JoinsPlaced(h') && Bounded(h', n + 1)
  {
    forall r | IsBlock(h', r) && r.member == Condition
      ensures IsCondition(h', r) && !h'[Ref(r.base, Whole)].content.Sequential?
    {
      assert IsBlock(h, r) && IsCondition(h, r);
    }
  }

  lemma CallKeepsInvariant(h: Heap, n: nat, call: Call, h': Heap, n': nat, rank: map<Ref, nat>)
      returns (rank': map<Ref, nat>)
    requires Invariant(h, n, rank) && CallStep(h, n, call, h', n') && MayCall(h, call)
    ensures Invariant(h', n', rank')
  {
    hide Opened, Invariant, IfParts, SwitchParts, LoopParts;
    match call
    case OpenIf(b) => rank' := IfKeepsInvariant(h, h', b.value, n, rank);
    case OpenSwitch(b) => rank' := SwitchKeepsInvariant(h, h', b.value, n, rank);
    case OpenLoop(b) => rank' := LoopKeepsInvariant(h, h', b.value, n, rank);
    case OpenCase(a, join, key) => rank' := CaseKeepsInvariant(h, h', n, a, join, key, rank);
    case SetCondition(a, value) =>
      rank' := rank;
      SameOutKeepsInvariant(h, h', n, n', rank, Ref(a, Whole));
    case EmitCode(b, i) =>
      rank' := rank;
      SameOutKeepsInvariant(h, h', n, n', rank, b);
  }

  lemma IfKeepsInvariant(h: Heap, h': Heap, b: Ref, n: nat, rank: map<Ref, nat>) returns (rank': map<Ref, nat>)
    requires Invariant(h, n, rank) && MaySplice(h, b) && CallStep(h, n, OpenIf(Some(b)), h', n + 2)
    ensures Invariant(h', n + 2, rank')
  {
    hide Invariant, Opened, PartsLeadHome;
    IfPartsLeadHome(h, h', b, n);
    SpliceBelow(h, b, n, rank);
    rank' := OpenedKeepsInvariant(h, h', b, n, IfParts(n + 1, Some(b), Ref(n, Whole), None, []), rank);
  }

  lemma SwitchKeepsInvariant(h: Heap, h': Heap, b: Ref, n: nat, rank: map<Ref, nat>) returns (rank': map<Ref, nat>)
    requires Invariant(h, n, rank) && MaySplice(h, b) && CallStep(h, n, OpenSwitch(Some(b)), h', n + 2)
    ensures Invariant(h', n + 2, rank')
  {
    hide Invariant, Opened, PartsLeadHome;
    SwitchPartsLeadHome(h, h', b, n);
    SpliceBelow(h, b, n, rank);
    rank' := OpenedKeepsInvariant(h, h', b, n, SwitchParts(n + 1, Some(b), Ref(n, Whole), None, []), rank);
  }

  lemma LoopKeepsInvariant(h: Heap, h': Heap, b: Ref, n: nat, rank: map<Ref, nat>) returns (rank': map<Ref, nat>)
    requires Invariant(h, n, rank) && MaySplice(h, b) && CallStep(h, n, OpenLoop(Some(b)), h', n + 2)
    ensures Invariant(h', n + 2, rank')
  {
    hide Invariant, Opened, PartsLeadHome;
    LoopPartsLeadHome(h, h', b, n);
    SpliceBelow(h, b, n, rank);
    rank' := OpenedKeepsInvariant(h, h', b, n, LoopParts(n + 1, Some(b), Ref(n, Whole), None, []), rank);
  }

  lemma SpliceBelow(h: Heap, b: Ref, n: nat, rank: map<Ref, nat>)
    requires Invariant(h, n, rank) && MaySplice(h, b)
    ensures b.base < n
  {
  }

  // ----- every run -----

  lemma {:induction false} RunKeepsInvariant(run: Run, h: Heap, n: nat, i: nat) returns (rank: map<Ref, nat>)
    requires RunsTo(run, h, n) && Orderly(run) && i < |run.moments|
    ensures Invariant(run.moments[i].heap, run.moments[i].next, rank)
    decreases i
  {
    if i == 0 {
      rank := map[ENTRY := 1, EXIT := 0];
      FirstInvariant();
    } else {
      hide CallStep, MayCall, Invariant;
      var rank0 := RunKeepsInvariant(run, h, n, i - 1);
      var m, m' := run.moments[i - 1], run.moments[i];
      assert MayCall(m.heap, run.calls[i - 1]);
      rank := CallKeepsInvariant(m.heap, m.next, run.calls[i - 1], m'.heap, m'.next, rank0);
    }
  }

  lemma FirstInvariant()
    ensures Invariant(EmptyHeap(), CONTEXT + 1, map[ENTRY := 1, EXIT := 0])
  {
  }

  /** After any number of calls, from every block ever made the line of control leads to the exit. */
  lemma EveryBlockLeadsToExit(run: Run, h: Heap, n: nat, i: nat)
    requires RunsTo(run, h, n) && Orderly(run) && i < |run.moments|
    ensures AllLeadToExit(run.moments[i].heap)
  {
    var h' := run.moments[i].heap;
    var rank := RunKeepsInvariant(run, h, n, i);
    forall r | IsBlock(h', r) ensures exists n: nat :: LeadsTo(h', r, EXIT, n) {
      var n := RankedLeads(h', rank, r);
    }
  }

  // ----- homes -----

  /** In at least one step. */
  ghost predicate LeadsOn(h: Heap, r: Ref, home: Ref) {
    exists n: nat :: n > 0 && LeadsTo(h, r, home, n)
  }

  /** A splice interrupts no line of control: what led somewhere still leads there. */
  lemma {:induction false} SpliceKeepsLeads(h: Heap, h': Heap, b: Ref, n: nat, parts: Heap, r: Ref, t: Ref, k: nat)
      returns (k': nat)
    requires Bounded(h, n) && ConditionsPlaced(h) && MaySplice(h, b) && Opened(h, h', Some(b), n, parts)
    requires Ref(n + 1, Whole) in parts && !parts[Ref(n + 1, Whole)].content.Sequential?
    requires JoinOf(parts[Ref(n + 1, Whole)]) == Ref(n, Whole)
    requires SuccessorsPlaced(h) && LeadsTo(h, r, t, k)
    ensures k' >= k && LeadsTo(h', r, t, k')
    decreases k
  {
    if k == 0 {
      k' := 0;
    } else {
      SpliceKeepsContinuation(h, h', b, n, parts, r);
      k' := SpliceKeepsLeads(h, h', b, n, parts, Out(h, r).value, t, k - 1);
      if r == b {
        assert LeadsTo(h', Ref(n, Whole), t, k' + 1);
        k' := k' + 2;
      } else {
        k' := k' + 1;
      }
    }
  }

  ghost predicate SuccessorsPlaced(h: Heap) {
    forall r | IsBlock(h, r) && Successor(h, r).Some? :: Successor(h, r).value in h
  }

  lemma {:induction false} SameOutKeepsLeads(h: Heap, h': Heap, r: Ref, t: Ref, k: nat)
    requires LeadsTo(h, r, t, k) && forall x | IsBlock(h, x) :: IsBlock(h', x) && Out(h', x) == Out(h, x)
    ensures LeadsTo(h', r, t, k)
    decreases k
  {
    if k > 0 {
      SameOutKeepsLeads(h, h', Out(h, r).value, t, k - 1);
    }
  }

  /** Splicing a construct in after `b`: its blocks have homes in the construct, and the new join has the home
      that `b` has. */
  function SplicedHomes(homes: map<Ref, Ref>, b: Ref, n: nat, parts: Heap): map<Ref, Ref>
    requires b in homes
  {
    homes + (map r | r in parts :: PartHome(n, r.member)) + map[Ref(n, Whole) := homes[b]]
  }

  function HomesAfter(homes: map<Ref, Ref>, n: nat, call: Call): map<Ref, Ref> {
    match call
    case OpenIf(Some(b)) =>
      if b in homes then SplicedHomes(homes, b, n, IfParts(n + 1, Some(b), Ref(n, Whole), None, [])) else homes
    case OpenSwitch(Some(b)) =>
      if b in homes then SplicedHomes(homes, b, n, SwitchParts(n + 1, Some(b), Ref(n, Whole), None, [])) else homes
    case OpenLoop(Some(b)) =>
      if b in homes then SplicedHomes(homes, b, n, LoopParts(n + 1, Some(b), Ref(n, Whole), None, [])) else homes
    case OpenCase(_, join, _) => homes[Ref(n, IfTrue) := join]
    case _ => homes
  }

  /** The home of every block, from the calls alone. The line of control of the entry ends at the exit. */
  function Homes(run: Run, i: nat): map<Ref, Ref>
    requires |run.moments| == |run.calls| + 1 && i <= |run.calls|
    decreases i
  {
    if i == 0 then map[ENTRY := EXIT]
    else HomesAfter(Homes(run, i - 1), run.moments[i - 1].next, run.calls[i - 1])
  }

  /** What memory says of the home of a block. */
  ghost predicate HomePlaced(h: Heap, r: Ref, home: Ref)
    requires IsBlock(h, r)
  {
    match r.member
    case IfTrue => IsJoinOfParent(h, r, home)
    case IfFalse => IsJoinOfParent(h, r, home)
    case Condition => IsJoinOfParent(h, r, home)
    case Init => home == Ref(r.base, Condition)
    case Update => home == Ref(r.base, Condition)
    case Body => home == Ref(r.base, Update)
    case Entry => home == EXIT
    case _ => true
  }

  ghost predicate IsJoinOfParent(h: Heap, r: Ref, join: Ref)
    requires IsBlock(h, r)
  {
    && h[r].parent.Some? && h[r].parent.value in h
    && !h[h[r].parent.value].content.Sequential? && JoinOf(h[h[r].parent.value]) == join
  }

  ghost predicate IsHome(h: Heap, homes: map<Ref, Ref>, r: Ref) {
    IsBlock(h, r) ==> r in homes && LeadsOn(h, r, homes[r]) && HomePlaced(h, r, homes[r])
  }

  ghost predicate AllHome(h: Heap, homes: map<Ref, Ref>) {
    forall r {:trigger IsHome(h, homes, r)} | r != EXIT :: IsHome(h, homes, r)
  }

  ghost predicate SplicedBy(h: Heap, h': Heap, b: Ref, n: nat, parts: Heap) {
    && MaySplice(h, b) && Opened(h, h', Some(b), n, parts) && PartsLeadHome(h', n, parts)
    && Ref(n + 1, Whole) in parts && !parts[Ref(n + 1, Whole)].content.Sequential?
    && JoinOf(parts[Ref(n + 1, Whole)]) == Ref(n, Whole)
    && forall r | r in parts :: r == Ref(n + 1, Whole) || (r.member in {Condition, IfTrue, IfFalse, Init, Update, Body}
                                                           && parts[r].parent == Some(Ref(n + 1, Whole)))
  }

  lemma OldIsHome(h: Heap, h': Heap, b: Ref, n: nat, parts: Heap, homes: map<Ref, Ref>, rank: map<Ref, nat>, r: Ref)
    requires Invariant(h, n, rank) && SplicedBy(h, h', b, n, parts) && SuccessorsPlaced(h)
    requires r in h && b in homes && IsHome(h, homes, r)
    ensures IsHome(h', SplicedHomes(homes, b, n, parts), r)
  {
    if IsBlock(h', r) {
      SplicedBlock(h, h', b, n, parts, homes, r);
      var k: nat :| k > 0 && LeadsTo(h, r, homes[r], k);
      var k' := SpliceKeepsLeads(h, h', b, n, parts, r, homes[r], k);
    }
  }

  lemma SplicedBlock(h: Heap, h': Heap, b: Ref, n: nat, parts: Heap, homes: map<Ref, Ref>, r: Ref)
    requires Bounded(h, n) && SplicedBy(h, h', b, n, parts) && r in h && b in homes && IsBlock(h', r)
    ensures IsBlock(h, r)
    ensures r in homes ==> SplicedHomes(homes, b, n, parts)[r] == homes[r]
    ensures r in homes && HomePlaced(h, r, homes[r]) ==> HomePlaced(h', r, homes[r])
  {
    assert forall x | x in h :: x in h' && (x != b ==> h'[x].content == h[x].content);
    assert r !in parts && r != Ref(n, Whole);
  }

  lemma PartIsHome(h: Heap, h': Heap, b: Ref, n: nat, parts: Heap, homes: map<Ref, Ref>, r: Ref)
    requires SplicedBy(h, h', b, n, parts) && b in homes && r in parts && Ref(n, Whole) !in parts
    ensures IsHome(h', SplicedHomes(homes, b, n, parts), r)
  {
    if IsBlock(h', r) {
      var home := PartHome(n, r.member);
      assert LeadsTo(h', home, home, 0);
      assert LeadsTo(h', r, home, 1);
      assert h'[Ref(n + 1, Whole)] == parts[Ref(n + 1, Whole)];
      assert h'[r] == parts[r];
    }
  }

  lemma JoinIsHome(h: Heap, h': Heap, b: Ref, n: nat, parts: Heap, homes: map<Ref, Ref>, rank: map<Ref, nat>)
    requires Invariant(h, n, rank) && SplicedBy(h, h', b, n, parts) && SuccessorsPlaced(h)
    requires b in homes && IsHome(h, homes, b)
    ensures IsHome(h', SplicedHomes(homes, b, n, parts), Ref(n, Whole))
  {
    var k: nat :| k > 0 && LeadsTo(h, b, homes[b], k);
    SpliceKeepsContinuation(h, h', b, n, parts, b);
    var k' := SpliceKeepsLeads(h, h', b, n, parts, Out(h, b).value, homes[b], k - 1);
    assert LeadsTo(h', Ref(n, Whole), homes[b], k' + 1);
  }

  lemma RankedPlaces(h: Heap, n: nat, rank: map<Ref, nat>)
    requires Invariant(h, n, rank)
    ensures SuccessorsPlaced(h)
  {
    forall r | IsBlock(h, r) && Successor(h, r).Some? ensures Successor(h, r).value in h {
      assert RankFalls(h, rank, r);
    }
  }

  lemma SpliceKeepsHomes(h: Heap, h': Heap, b: Ref, n: nat, parts: Heap, homes: map<Ref, Ref>, rank: map<Ref, nat>)
    requires Invariant(h, n, rank) && SplicedBy(h, h', b, n, parts) && AllHome(h, homes) && b != EXIT
    requires b in homes && Ref(n, Whole) !in parts
    ensures AllHome(h', SplicedHomes(homes, b, n, parts))
  {
    RankedPlaces(h, n, rank);
    SplicedKeys(h, h', b, n, parts);
    assert IsHome(h, homes, b);
    forall r {:trigger IsHome(h', SplicedHomes(homes, b, n, parts), r)} | r != EXIT
      ensures IsHome(h', SplicedHomes(homes, b, n, parts), r)
    {
      hide SplicedBy, Invariant, SplicedHomes, LeadsOn, HomePlaced;
      assert IsHome(h, homes, r);
      if r in parts {
        PartIsHome(h, h', b, n, parts, homes, r);
      } else if r == Ref(n, Whole) {
        JoinIsHome(h, h', b, n, parts, homes, rank);
      } else if r in h {
        OldIsHome(h, h', b, n, parts, homes, rank, r);
      }
    }
  }

  lemma SplicedKeys(h: Heap, h': Heap, b: Ref, n: nat, parts: Heap)
    requires SplicedBy(h, h', b, n, parts)
    ensures h'.Keys == h.Keys + {Ref(n, Whole)} + parts.Keys
  {
  }

  /** A change of one block or construct that keeps its place. */
  lemma SameOutKeepsHomes(h: Heap, h': Heap, homes: map<Ref, Ref>, x: Ref)
    requires x in h && h'.Keys == h.Keys && AllHome(h, homes)
    requires forall r | r in h && r != x :: h'[r] == h[r]
    requires h'[x].parent == h[x].parent && h'[x].content.Sequential? == h[x].content.Sequential?
    requires if h[x].content.Sequential? then h'[x].content.successor == h[x].content.successor
             else JoinOf(h'[x]) == JoinOf(h[x])
    ensures AllHome(h', homes)
  {
    forall r {:trigger IsHome(h', homes, r)} | r != EXIT ensures IsHome(h', homes, r) {
      assert IsHome(h, homes, r);
      if IsBlock(h', r) {
        forall y | IsBlock(h, y) ensures IsBlock(h', y) && Out(h', y) == Out(h, y) {
          SameOut(h, h', x, y);
        }
        var k: nat :| k > 0 && LeadsTo(h, r, homes[r], k);
        SameOutKeepsLeads(h, h', r, homes[r], k);
      }
    }
  }

  lemma CaseKeepsHomes(h: Heap, h': Heap, n: nat, a: nat, join: Ref, key: Option<int>, homes: map<Ref, Ref>,
                       rank: map<Ref, nat>)
    requires Invariant(h, n, rank) && OpenedCase(h, h', a, n, join, key) && AllHome(h, homes)
    ensures AllHome(h', homes[Ref(n, IfTrue) := join])
  {
    var w, arm := Ref(a, Whole), Ref(n, IfTrue);
    var h1 := h[w := WithArms(h[w], [ArmEntry(n, key)], if key.None? then Some(n) else None)];
    SameOutKeepsHomes(h, h1, homes, w);
    RankedPlaces(h, n, rank);
    assert h' == h1[arm := Node(Some(w), Sequential([], Some(join)))];
    assert SuccessorsPlaced(h1) by {
      assert forall r | IsBlock(h1, r) :: IsBlock(h, r) && Successor(h1, r) == Successor(h, r);
    }
    forall r {:trigger IsHome(h', homes[arm := join], r)} | r != EXIT ensures IsHome(h', homes[arm := join], r) {
      assert IsHome(h1, homes, r);
      ArmAdded(h1, h', w, arm, join, homes, r);
    }
  }

  /** A new arm is at home, and interrupts no line of control. */
  lemma ArmAdded(h: Heap, h': Heap, w: Ref, arm: Ref, join: Ref, homes: map<Ref, Ref>, r: Ref)
    requires SuccessorsPlaced(h) && IsHome(h, homes, r) && arm !in h && arm.member == IfTrue
    requires h' == h[arm := Node(Some(w), Sequential([], Some(join)))]
    requires w in h && !h[w].content.Sequential? && JoinOf(h[w]) == join && IsBlock(h, join)
    ensures IsHome(h', homes[arm := join], r)
  {
    if r == arm {
      assert LeadsTo(h', join, join, 0);
      assert LeadsTo(h', arm, join, 1);
    } else if IsBlock(h', r) {
      var k: nat :| k > 0 && LeadsTo(h, r, homes[r], k);
      SameOutKeepsLeads(h, h', r, homes[r], k);
    }
  }

  lemma CallKeepsHomes(h: Heap, n: nat, call: Call, h': Heap, n': nat, homes: map<Ref, Ref>, rank: map<Ref, nat>)
    requires Invariant(h, n, rank) && CallStep(h, n, call, h', n') && MayCall(h, call) && AllHome(h, homes)
    ensures AllHome(h', HomesAfter(homes, n, call))
  {
    hide Invariant, AllHome, SplicedHomes, Opened, IfParts, SwitchParts, LoopParts;
    match call
    case OpenIf(Some(b)) => IfKeepsHomes(h, h', b, n, homes, rank);
    case OpenSwitch(Some(b)) => SwitchKeepsHomes(h, h', b, n, homes, rank);
    case OpenLoop(Some(b)) => LoopKeepsHomes(h, h', b, n, homes, rank);
    case OpenCase(a, join, key) => CaseKeepsHomes(h, h', n, a, join, key, homes, rank);
    case SetCondition(a, value) => SameOutKeepsHomes(h, h', homes, Ref(a, Whole));
    case EmitCode(b, _) => SameOutKeepsHomes(h, h', homes, b);
  }

  lemma IfKeepsHomes(h: Heap, h': Heap, b: Ref, n: nat, homes: map<Ref, Ref>, rank: map<Ref, nat>)
    requires Invariant(h, n, rank) && MaySplice(h, b) && AllHome(h, homes)
    requires Opened(h, h', Some(b), n, IfParts(n + 1, Some(b), Ref(n, Whole), None, []))
    ensures b in homes && AllHome(h', SplicedHomes(homes, b, n, IfParts(n + 1, Some(b), Ref(n, Whole), None, [])))
  {
    hide Invariant, AllHome, SplicedHomes, Opened, PartsLeadHome, MaySplice;
    IfPartsLeadHome(h, h', b, n);
    OpenKeepsHomes(h, h', b, n, IfParts(n + 1, Some(b), Ref(n, Whole), None, []), homes, rank);
  }

  lemma SwitchKeepsHomes(h: Heap, h': Heap, b: Ref, n: nat, homes: map<Ref, Ref>, rank: map<Ref, nat>)
    requires Invariant(h, n, rank) && MaySplice(h, b) && AllHome(h, homes)
    requires Opened(h, h', Some(b), n, SwitchParts(n + 1, Some(b), Ref(n, Whole), None, []))
    ensures b in homes && AllHome(h', SplicedHomes(homes, b, n, SwitchParts(n + 1, Some(b), Ref(n, Whole), None, [])))
  {
    hide Invariant, AllHome, SplicedHomes, Opened, PartsLeadHome, MaySplice;
    SwitchPartsLeadHome(h, h', b, n);
    OpenKeepsHomes(h, h', b, n, SwitchParts(n + 1, Some(b), Ref(n, Whole), None, []), homes, rank);
  }

  lemma LoopKeepsHomes(h: Heap, h': Heap, b: Ref, n: nat, homes: map<Ref, Ref>, rank: map<Ref, nat>)
    requires Invariant(h, n, rank) && MaySplice(h, b) && AllHome(h, homes)
    requires Opened(h, h', Some(b), n, LoopParts(n + 1, Some(b), Ref(n, Whole), None, []))
    ensures b in homes && AllHome(h', SplicedHomes(homes, b, n, LoopParts(n + 1, Some(b), Ref(n, Whole), None, [])))
  {
    hide Invariant, AllHome, SplicedHomes, Opened, PartsLeadHome, MaySplice;
    LoopPartsLeadHome(h, h', b, n);
    OpenKeepsHomes(h, h', b, n, LoopParts(n + 1, Some(b), Ref(n, Whole), None, []), homes, rank);
  }

  lemma OpenKeepsHomes(h: Heap, h': Heap, b: Ref, n: nat, parts: Heap, homes: map<Ref, Ref>, rank: map<Ref, nat>)
    requires Invariant(h, n, rank) && SplicedBy(h, h', b, n, parts) && AllHome(h, homes) && Ref(n, Whole) !in parts
    ensures b in homes && AllHome(h', SplicedHomes(homes, b, n, parts))
  {
    assert b != EXIT;
    assert IsHome(h, homes, b);
    SpliceKeepsHomes(h, h', b, n, parts, homes, rank);
  }

  lemma {:induction false} RunKeepsHomes(run: Run, h: Heap, n: nat, i: nat)
    requires RunsTo(run, h, n) && Orderly(run) && i < |run.moments|
    ensures AllHome(run.moments[i].heap, Homes(run, i))
    decreases i
  {
    if i == 0 {
      EntryIsHome();
    } else {
      hide CallStep, MayCall, AllHome;
      RunKeepsHomes(run, h, n, i - 1);
      var rank := RunKeepsInvariant(run, h, n, i - 1);
      var m, m' := run.moments[i - 1], run.moments[i];
      assert MayCall(m.heap, run.calls[i - 1]);
      CallKeepsHomes(m.heap, m.next, run.calls[i - 1], m'.heap, m'.next, Homes(run, i - 1), rank);
    }
  }

  lemma EntryIsHome()
    ensures AllHome(EmptyHeap(), map[ENTRY := EXIT])
  {
    assert LeadsTo(EmptyHeap(), EXIT, EXIT, 0);
    assert LeadsTo(EmptyHeap(), ENTRY, EXIT, 1);
  }

  /** After any number of calls, the line of control of every block leads to its home: a branch, an arm or a
      condition to the join of its construct, the initialization and update of a loop to its condition, its
      body to the update, and a join to the home of the block that it was spliced in after. */
  lemma EveryBlockLeadsHome(run: Run, h: Heap, n: nat, i: nat, r: Ref)
    requires RunsTo(run, h, n) && Orderly(run) && i < |run.moments|
    requires r != EXIT && IsBlock(run.moments[i].heap, r)
    ensures r in Homes(run, i) && LeadsOn(run.moments[i].heap, r, Homes(run, i)[r])
    ensures HomePlaced(run.moments[i].heap, r, Homes(run, i)[r])
    ensures var h, home := run.moments[i].heap, Homes(run, i)[r];
      && (r.member == Entry ==> home == EXIT)
      && (r.member == Init || r.member == Update ==> home == Ref(r.base, Condition))
      && (r.member == Body ==> home == Ref(r.base, Update))
      && (r.member == Condition || r.member == IfTrue || r.member == IfFalse ==>
            h[r].parent.Some? && h[r].parent.value in h &&
            match h[h[r].parent.value].content
            case Sequential(_, _) => false
            case Conditional(_, join) => home == join
            case MultiWay(_, _, _, join) => home == join
            case Loop(_, join) => home == join)
  {
    RunKeepsHomes(run, h, n, i);
    assert IsHome(run.moments[i].heap, Homes(run, i), r);
  }

  /** And the join of a construct, as soon as it is made, has the home of the block before it. */
  lemma JoinInherits(run: Run, h: Heap, n: nat, i: nat, b: Ref)
    requires RunsTo(run, h, n) && Orderly(run) && i < |run.calls|
    requires run.calls[i] in {OpenIf(Some(b)), OpenSwitch(Some(b)), OpenLoop(Some(b))}
    ensures b in Homes(run, i) && b in Homes(run, i + 1)
    ensures var join := Ref(run.moments[i].next, Whole);
      join in Homes(run, i + 1) && Homes(run, i + 1)[join] == Homes(run, i + 1)[b] == Homes(run, i)[b]
  {
    RunKeepsHomes(run, h, n, i);
    assert MayCall(run.moments[i].heap, run.calls[i]);
    assert CallStep(run.moments[i].heap, run.moments[i].next, run.calls[i], run.moments[i + 1].heap, run.moments[i + 1].next);
    var rank := RunKeepsInvariant(run, h, n, i);
    hide RunsTo, Orderly, CallStep, Opened;
    SplicedHasHome(run.moments[i].heap, run.moments[i].next, Homes(run, i), rank, b);
    JoinHome(Homes(run, i), run.moments[i].next, run.calls[i], b);
  }

  lemma SplicedHasHome(h: Heap, n: nat, homes: map<Ref, Ref>, rank: map<Ref, nat>, b: Ref)
    requires Invariant(h, n, rank) && AllHome(h, homes) && MaySplice(h, b)
    ensures b in homes && b.base < n
  {
    assert b != EXIT;
    assert IsHome(h, homes, b);
  }

  lemma JoinHome(homes: map<Ref, Ref>, n: nat, call: Call, b: Ref)
    requires b in homes && b.base < n && call in {OpenIf(Some(b)), OpenSwitch(Some(b)), OpenLoop(Some(b))}
    ensures var homes' := HomesAfter(homes, n, call);
      b in homes' && Ref(n, Whole) in homes' && homes'[Ref(n, Whole)] == homes'[b] == homes[b]
  {
    assert forall p | p in IfParts(n + 1, Some(b), Ref(n, Whole), None, []) :: p.base == n + 1;
    assert forall p | p in SwitchParts(n + 1, Some(b), Ref(n, Whole), None, []) :: p.base == n + 1;
    assert forall p | p in LoopParts(n + 1, Some(b), Ref(n, Whole), None, []) :: p.base == n + 1;
  }

  /** Later calls leave the home of a block as it is. */
  lemma {:induction false} HomesStay(run: Run, h: Heap, n: nat, i: nat, j: nat, r: Ref)
    requires RunsTo(run, h, n) && i <= j <= |run.calls| && r in Homes(run, i)
    ensures r in Homes(run, j) && Homes(run, j)[r] == Homes(run, i)[r]
    decreases j
  {
    hide HomesAfter, CallStep, KeysBelow;
    if i < j {
      HomesStay(run, h, n, i, j - 1, r);
      HomesBounded(run, h, n, j - 1);
      HomeStays(Homes(run, j - 1), run.moments[j - 1].next, run.calls[j - 1], r);
    }
  }

  ghost predicate KeysBelow(homes: map<Ref, Ref>, n: nat) {
    forall r | r in homes :: r.base < n
  }

  lemma HomeStays(homes: map<Ref, Ref>, n: nat, call: Call, r: Ref)
    requires KeysBelow(homes, n) && r in homes
    ensures r in HomesAfter(homes, n, call) && HomesAfter(homes, n, call)[r] == homes[r]
  {
  }

  lemma {:induction false} HomesBounded(run: Run, h: Heap, n: nat, i: nat)
    requires RunsTo(run, h, n) && i <= |run.calls|
    ensures KeysBelow(Homes(run, i), run.moments[i].next)
  {
    hide HomesAfter, CallStep, KeysBelow;
    if i == 0 {
      EntryBounded();
    } else {
      HomesBounded(run, h, n, i - 1);
      var m, m' := run.moments[i - 1], run.moments[i];
      assert CallStep(m.heap, m.next, run.calls[i - 1], m'.heap, m'.next);
      StepBounded(Homes(run, i - 1), m.heap, m.next, run.calls[i - 1], m'.heap, m'.next);
    }
  }

  lemma EntryBounded()
    ensures KeysBelow(map[ENTRY := EXIT], CONTEXT + 1) && NewRun().moments[0].next == CONTEXT + 1
  {
  }

  lemma StepBounded(homes: map<Ref, Ref>, h: Heap, n: nat, call: Call, h': Heap, n': nat)
    requires KeysBelow(homes, n) && CallStep(h, n, call, h', n')
    ensures KeysBelow(HomesAfter(homes, n, call), n')
  {
    hide Opened, OpenedCase, IsSwitch;
  }

  /** Compilation, moment by moment: after each of the calls that the macros of a program make, every line of
      control leads home and to the exit. */
  method CompileStepwise(p: Prog) returns (ctx: Context, ghost c: Chain)
    ensures IsProperGraph(ctx.heap, c) && Denote(ctx.heap, c) == p && RunsTo(ctx.run, ctx.heap, ctx.next)
    ensures forall i | 0 <= i < |ctx.run.moments| ::
              AllLeadToExit(ctx.run.moments[i].heap) && AllHome(ctx.run.moments[i].heap, Homes(ctx.run, i))
  {
    hide RunsTo, AllHome, AllLeadToExit;
    ctx, c := Compile(p);
    forall i: nat | i < |ctx.run.moments|
      ensures AllLeadToExit(ctx.run.moments[i].heap) && AllHome(ctx.run.moments[i].heap, Homes(ctx.run, i))
    {
      EveryBlockLeadsToExit(ctx.run, ctx.heap, ctx.next, i);
      RunKeepsHomes(ctx.run, ctx.heap, ctx.next, i);
    }
  }
}
