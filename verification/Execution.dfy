/** Running a control-flow graph, and the proof that lowering preserves meaning. */
module Execution {
  import opened Mir
  import opened Hir
  import opened Shape

  /** Control is at the start of a block, has left the graph, or cannot go on. */
  datatype Config<S> = At(block: Ref, state: S) | Halted(state: S) | Stuck

  /** The first arm in list order that stands for `v`. */
  function FindArm(arms: seq<ArmEntry>, v: int): Option<nat> {
    if arms == [] then None
    else if arms[0].key == Some(v) then Some(arms[0].base)
    else FindArm(arms[1..], v)
  }

  /** Where a condition sends control: it has no successor, so its parent decides. */
  function Branch<S>(m: Machine<S>, h: Heap, base: nat, s: S): Config<S>
    requires Ref(base, Whole) in h
  {
    match h[Ref(base, Whole)].content
    case Conditional(Some(v), _) => At(Ref(base, if m.read(v, s) != 0 then IfTrue else IfFalse), s)
    case MultiWay(Some(v), arms, defaultArm, join) =>
      (match FindArm(arms, m.read(v, s))
       case Some(arm) => At(Ref(arm, IfTrue), s)
       case None => At(if defaultArm.Some? then Ref(defaultArm.value, IfTrue) else join, s))
    case Loop(Some(v), join) => At(if m.read(v, s) != 0 then Ref(base, Body) else join, s)
    case _ => Stuck
  }

  predicate IsCondition(h: Heap, r: Ref)
    requires r in h
  {
    r.member == Condition && h[r].parent == Some(Ref(r.base, Whole)) && Ref(r.base, Whole) in h
  }

  /** Run one block. */
  function Step<S>(m: Machine<S>, h: Heap, c: Config<S>): Config<S> {
    match c
    case Halted(_) => c
    case Stuck => c
    case At(b, s) =>
      if !IsBlock(h, b) then Stuck
      else
        var s' := Exec(m, Operations(h[b].content.code), s);
        if h[b].content.successor.Some? then At(FirstBlock(h, h[b].content.successor.value), s')
        else if IsCondition(h, b) then Branch(m, h, b.base, s')
        else Halted(s')
  }

  function Run<S>(m: Machine<S>, h: Heap, c: Config<S>, n: nat): Config<S>
    decreases n
  {
    if n == 0 then c else Run(m, h, Step(m, h, c), n - 1)
  }

  // ----- where control goes, case by case -----

  /** Of the arms with a value, the first one in the list is found. */
  lemma {:induction false} FirstArmFound(arms: seq<ArmEntry>, v: int, i: nat)
    requires i < |arms| && arms[i].key == Some(v) && forall j | 0 <= j < i :: arms[j].key != Some(v)
    ensures FindArm(arms, v) == Some(arms[i].base)
  {
    if i > 0 {
      FirstArmFound(arms[1..], v, i - 1);
    }
  }

  lemma {:induction false} NoArmFound(arms: seq<ArmEntry>, v: int)
    requires forall j | 0 <= j < |arms| :: arms[j].key != Some(v)
    ensures FindArm(arms, v) == None
  {
    if arms != [] {
      NoArmFound(arms[1..], v);
    }
  }

  /** After its code, a block goes on in its successor: if that is a construct, in its condition, or in the
      initialization of a loop. */
  lemma BlockGoesOn<S>(m: Machine<S>, h: Heap, b: Ref, s: S, next: Ref)
    requires IsBlock(h, b) && h[b].content.successor == Some(next) && next in h
    ensures var s1 := Exec(m, Operations(h[b].content.code), s);
      && (h[next].content.Sequential? ==> Step(m, h, At(b, s)) == At(next, s1))
      && (h[next].content.Conditional? || h[next].content.MultiWay? ==>
            Step(m, h, At(b, s)) == At(Ref(next.base, Condition), s1))
      && (h[next].content.Loop? ==> Step(m, h, At(b, s)) == At(Ref(next.base, Init), s1))
  {
  }

  /** The condition of an IF goes to the first branch on a value other than zero, that of a FOR to the body. */
  lemma ConditionGoesOn<S>(m: Machine<S>, h: Heap, base: nat, s: S)
    requires IsConditionOf(h, base) && Ref(base, Whole) in h
    ensures var s1 := Exec(m, Operations(h[Ref(base, Condition)].content.code), s);
      match h[Ref(base, Whole)].content
      case Conditional(Some(value), _) =>
        && (m.read(value, s1) != 0 ==> Step(m, h, At(Ref(base, Condition), s)) == At(Ref(base, IfTrue), s1))
        && (m.read(value, s1) == 0 ==> Step(m, h, At(Ref(base, Condition), s)) == At(Ref(base, IfFalse), s1))
      case Loop(Some(value), join) =>
        && (m.read(value, s1) != 0 ==> Step(m, h, At(Ref(base, Condition), s)) == At(Ref(base, Body), s1))
        && (m.read(value, s1) == 0 ==> Step(m, h, At(Ref(base, Condition), s)) == At(join, s1))
      case _ => true
  {
  }

  /** The condition of a SWITCH goes to the first arm in the list that has the value, else to the default arm,
      else to the join. */
  lemma SwitchGoesOn<S>(m: Machine<S>, h: Heap, base: nat, s: S, value: nat, i: nat)
    requires IsConditionOf(h, base) && Ref(base, Whole) in h
    requires h[Ref(base, Whole)].content.MultiWay? && h[Ref(base, Whole)].content.value == Some(value)
    ensures var s1 := Exec(m, Operations(h[Ref(base, Condition)].content.code), s);
      var MultiWay(_, arms, defaultArm, join) := h[Ref(base, Whole)].content;
      var next := Step(m, h, At(Ref(base, Condition), s));
      && (i < |arms| && arms[i].key == Some(m.read(value, s1))
          && (forall j | 0 <= j < i :: arms[j].key != Some(m.read(value, s1))) ==>
            next == At(Ref(arms[i].base, IfTrue), s1))
      && ((forall j | 0 <= j < |arms| :: arms[j].key != Some(m.read(value, s1))) ==>
            next == At(if defaultArm.Some? then Ref(defaultArm.value, IfTrue) else join, s1))
  {
    var v := m.read(value, Exec(m, Operations(h[Ref(base, Condition)].content.code), s));
    var arms := h[Ref(base, Whole)].content.arms;
    if i < |arms| && arms[i].key == Some(v) && forall j | 0 <= j < i :: arms[j].key != Some(v) {
      FirstArmFound(arms, v, i);
    }
    if forall j | 0 <= j < |arms| :: arms[j].key != Some(v) {
      NoArmFound(arms, v);
    }
  }

  lemma {:induction false} RunAdd<S>(m: Machine<S>, h: Heap, c: Config<S>, n: nat, n': nat)
    ensures Run(m, h, c, n + n') == Run(m, h, Run(m, h, c, n), n')
    decreases n
  {
    if n > 0 {
      RunAdd(m, h, Step(m, h, c), n - 1, n');
    }
  }

  lemma {:induction false} HaltedStays<S>(m: Machine<S>, h: Heap, c: Config<S>, n: nat)
    requires c.Halted? || c.Stuck?
    ensures Run(m, h, c, n) == c
    decreases n
  {
    if n > 0 {
      HaltedStays(m, h, c, n - 1);
    }
  }

  // ----- evaluation of straight-line code -----

  lemma {:induction false} EvalEmits<S>(m: Machine<S>, code: seq<Instruction>, q: Prog, s: S, k: nat)
    ensures Eval(m, Concat(Emits(code), q), s, k) == Eval(m, q, Exec(m, Operations(code), s), k)
    decreases |code|
  {
    if code != [] {
      assert Operations(code)[1..] == Operations(code[1..]);
      EvalEmits(m, code[1..], q, m.exec(code[0].operation, s), k);
    }
  }

  lemma EvalBlock<S>(m: Machine<S>, code: seq<Instruction>, s: S, k: nat)
    ensures Eval(m, Emits(code), s, k) == Some(Exec(m, Operations(code), s))
  {
    EvalEmits(m, code, Nil, s, k);
    ConcatNil(Emits(code));
  }

  // ----- switches -----

  function ArmKeys(arms: Arms): set<Option<int>> {
    match arms
    case NoArms => {}
    case Arm(_, key, _, next) => {key} + ArmKeys(next)
  }

  /** The arm that stands for `key`. */
  function ArmFor(arms: Arms, key: Option<int>): Arms {
    match arms
    case NoArms => NoArms
    case Arm(_, key', _, next) => if key == key' then arms else ArmFor(next, key)
  }

  /** List order is the reverse of source order: the first arm in the list is the last case. */
  lemma {:induction false} DenoteArmsFacts(h: Heap, arms: Arms, later: Cases, key: Option<int>)
    ensures Keys(DenoteArms(h, arms, later)) == ArmKeys(arms) + Keys(later)
    ensures key in ArmKeys(arms) <==> ArmFor(arms, key).Arm?
    ensures LastBody(DenoteArms(h, arms, later), key) ==
            if key in Keys(later) then LastBody(later, key)
            else if key in ArmKeys(arms) then Denote(h, ArmFor(arms, key).chain) else Nil
  {
    match arms
    case NoArms => NoBody(later, key);
    case Arm(_, key', chain, next) => DenoteArmsFacts(h, next, Case(key', Denote(h, chain), later), key);
  }

  lemma {:induction false} NoBody(cases: Cases, key: Option<int>)
    ensures key !in Keys(cases) ==> LastBody(cases, key) == Nil
  {
    match cases
    case NoCases =>
    case Case(_, _, rest) => NoBody(rest, key);
  }

  lemma {:induction false} ArmForRealized(h: Heap, arms: Arms, join: Ref, key: Option<int>)
    requires RealizesArms(h, arms, join)
    ensures var arm := ArmFor(arms, key);
      && (arm.Arm? ==> First(arm.chain) == Ref(arm.base, IfTrue) && Realizes(h, arm.chain, Some(join)) && arm.chain < arms)
      && (key.Some? ==> FindArm(Entries(arms), key.value) == if arm.Arm? then Some(arm.base) else None)
      && (key.None? ==> DefaultArm(arms) == if arm.Arm? then Some(arm.base) else None)
  {
    match arms
    case NoArms =>
    case Arm(base, key', chain, next) =>
      assert Entries(arms)[1..] == Entries(next);
      ArmForRealized(h, next, join, key);
  }

  /** The arm to which the machine sends control, or NoArms if control skips the switch. */
  function Chosen(arms: Arms, v: int): Arms {
    if ArmFor(arms, Some(v)).Arm? then ArmFor(arms, Some(v)) else ArmFor(arms, None)
  }

  /** The machine sends control to the body that the source selects. */
  lemma ChosenArm<S>(m: Machine<S>, h: Heap, base: nat, value: nat, arms: Arms, join: Ref, s: S)
    requires RealizesConstruct(h, SwitchShape(base, value, arms), join)
    ensures var arm, body := Chosen(arms, m.read(value, s)), Select(DenoteArms(h, arms, NoCases), m.read(value, s));
      && (arm.Arm? ==> arm.chain < arms && Realizes(h, arm.chain, Some(join)) && Denote(h, arm.chain) == body
                       && Branch(m, h, base, s) == At(First(arm.chain), s))
      && (arm.NoArms? ==> body == Nil && Branch(m, h, base, s) == At(join, s))
  {
    var v := m.read(value, s);
    DenoteArmsFacts(h, arms, NoCases, Some(v));
    DenoteArmsFacts(h, arms, NoCases, None);
    ArmForRealized(h, arms, join, Some(v));
    ArmForRealized(h, arms, join, None);
  }

  // ----- from the source to the graph -----

  /** If the source program terminates, so does the graph, at the exit of the chain and in the same state. */
  lemma {:induction false} Forward<S>(m: Machine<S>, h: Heap, c: Chain, exit: Ref, s: S, k: nat) returns (n: nat)
    requires Realizes(h, c, Some(exit)) && IsBlock(h, exit)
    requires Eval(m, Denote(h, c), s, k).Some?
    ensures Run(m, h, At(First(c), s), n) == At(exit, Eval(m, Denote(h, c), s, k).value)
    decreases k, c, 0
  {
    var code := CodeOf(h, First(c));
    var s1 := Exec(m, Operations(code), s);
    match c
    case End(b) =>
      EvalBlock(m, code, s, k);
      n := 1;
      RunOnce(m, h, First(c), s);
    case Link(b, rest) =>
      EvalEmits(m, code, Denote(h, rest), s, k);
      RealizedFirst(h, rest, Some(exit));
      var n1 := Forward(m, h, rest, exit, s1, k);
      RunOnce(m, h, First(c), s);
      RunAdd(m, h, At(First(c), s), 1, n1);
      n := 1 + n1;
    case Then(b, construct, rest) =>
      var st := DenoteConstruct(h, construct);
      EvalEmits(m, code, Cons(st, Denote(h, rest)), s, k);
      RealizedFirst(h, rest, Some(exit));
      var n1 := ForwardConstruct(m, h, construct, First(rest), s1, k);
      var s2 := EvalStmt(m, st, s1, k).value;
      var n2 := Forward(m, h, rest, exit, s2, k);
      RunOnce(m, h, First(c), s);
      RunAdd(m, h, At(First(c), s), 1, n1);
      RunAdd(m, h, At(First(c), s), 1 + n1, n2);
      n := 1 + n1 + n2;
  }

  lemma RunOnce<S>(m: Machine<S>, h: Heap, b: Ref, s: S)
    ensures Run(m, h, At(b, s), 1) == Step(m, h, At(b, s))
  {
    assert Run(m, h, Step(m, h, At(b, s)), 0) == Step(m, h, At(b, s));
  }

  lemma RealizedFirst(h: Heap, c: Chain, exit: Option<Ref>)
    requires Realizes(h, c, exit)
    ensures IsBlock(h, First(c)) && FirstBlock(h, First(c)) == First(c)
  {
  }

  /** The entry of a construct is the block to which control flows when the construct is next. */
  function EntryOf(k: Construct): Ref {
    if k.LoopShape? then Ref(k.base, Init) else Ref(k.base, Condition)
  }

  lemma EntryIsFirstBlock(h: Heap, k: Construct, join: Ref)
    requires RealizesConstruct(h, k, join)
    ensures FirstBlock(h, Ref(k.base, Whole)) == EntryOf(k)
  {
  }

  /** The condition of a construct runs and its parent decides. */
  lemma RunCondition<S>(m: Machine<S>, h: Heap, k: Construct, join: Ref, s: S)
    requires RealizesConstruct(h, k, join)
    ensures Run(m, h, At(Ref(k.base, Condition), s), 1)
         == Branch(m, h, k.base, Exec(m, Operations(CodeOf(h, Ref(k.base, Condition))), s))
  {
    RunOnce(m, h, Ref(k.base, Condition), s);
  }

  lemma {:induction false} ForwardConstruct<S>(m: Machine<S>, h: Heap, construct: Construct, join: Ref, s: S, k: nat)
      returns (n: nat)
    requires RealizesConstruct(h, construct, join) && IsBlock(h, join)
    requires EvalStmt(m, DenoteConstruct(h, construct), s, k).Some?
    ensures FirstBlock(h, Ref(construct.base, Whole)) == EntryOf(construct)
    ensures Run(m, h, At(EntryOf(construct), s), n) == At(join, EvalStmt(m, DenoteConstruct(h, construct), s, k).value)
    decreases k, construct, 1
  {
    EntryIsFirstBlock(h, construct, join);
    var base := construct.base;
    var s1 := Exec(m, Operations(CodeOf(h, Ref(base, Condition))), s);
    match construct
    case IfShape(_, value, thn, els) =>
      RunCondition(m, h, construct, join, s);
      var branch := if m.read(value, s1) != 0 then thn else els;
      var n1 := Forward(m, h, branch, join, s1, k);
      RunAdd(m, h, At(Ref(base, Condition), s), 1, n1);
      n := 1 + n1;
    case SwitchShape(_, value, arms) =>
      RunCondition(m, h, construct, join, s);
      ChosenArm(m, h, base, value, arms, join, s1);
      var arm := Chosen(arms, m.read(value, s1));
      if arm.NoArms? {
        n := 1;
      } else {
        var n1 := Forward(m, h, arm.chain, join, s1, k);
        RunAdd(m, h, At(Ref(base, Condition), s), 1, n1);
        n := 1 + n1;
      }
    case LoopShape(_, value, init, update, body) =>
      var n1 := Forward(m, h, init, Ref(base, Condition), s, k);
      var s2 := Eval(m, Denote(h, init), s, k).value;
      var n2 := ForwardLoop(m, h, construct, join, s2, k);
      RunAdd(m, h, At(Ref(base, Init), s), n1, n2);
      n := n1 + n2;
  }

  /** From the condition of a loop to its exit. */
  lemma {:induction false} ForwardLoop<S>(m: Machine<S>, h: Heap, loop: Construct, join: Ref, s: S, k: nat)
      returns (n: nat)
    requires loop.LoopShape? && RealizesConstruct(h, loop, join) && IsBlock(h, join)
    requires EvalLoopOf(m, h, loop, s, k).Some?
    ensures Run(m, h, At(Ref(loop.base, Condition), s), n) == At(join, EvalLoopOf(m, h, loop, s, k).value)
    decreases k, loop, 0
  {
    var LoopShape(base, value, _, update, body) := loop;
    var cond := Ref(base, Condition);
    var s1 := Exec(m, Operations(CodeOf(h, cond)), s);
    RunCondition(m, h, loop, join, s);
    if m.read(value, s1) == 0 {
      n := 1;
    } else {
      RealizedFirst(h, update, Some(cond));
      var n1 := Forward(m, h, body, Ref(base, Update), s1, k - 1);
      var s2 := Eval(m, Denote(h, body), s1, k - 1).value;
      var n2 := Forward(m, h, update, cond, s2, k - 1);
      var s3 := Eval(m, Denote(h, update), s2, k - 1).value;
      var n3 := ForwardLoop(m, h, loop, join, s3, k - 1);
      RunAdd(m, h, At(cond, s), 1, n1);
      RunAdd(m, h, At(cond, s), 1 + n1, n2);
      RunAdd(m, h, At(cond, s), 1 + n1 + n2, n3);
      n := 1 + n1 + n2 + n3;
    }
  }

  function EvalLoopOf<S>(m: Machine<S>, h: Heap, loop: Construct, s: S, k: nat): Option<S>
    requires loop.LoopShape?
  {
    EvalLoop(m, Operations(CodeOf(h, Ref(loop.base, Condition))), loop.value, Denote(h, loop.update),
             Denote(h, loop.body), s, k)
  }

  // ----- from the graph to the source -----

  /** Started at `b`, the graph halts after n steps: the run passes `exit` after n1 of them. */
  ghost predicate Passes<S>(m: Machine<S>, h: Heap, b: Ref, s: S, n: nat, exit: Ref, s': S, n1: nat) {
    && 1 <= n1 <= n
    && Run(m, h, At(b, s), n1) == At(exit, s')
    && Run(m, h, At(exit, s'), n - n1) == Run(m, h, At(b, s), n)
  }

  lemma PassesThen<S>(m: Machine<S>, h: Heap, b: Ref, s: S, n: nat, mid: Ref, s1: S, n1: nat, exit: Ref, s2: S, n2: nat)
    requires Passes(m, h, b, s, n, mid, s1, n1) && n1 <= n && Passes(m, h, mid, s1, n - n1, exit, s2, n2)
    ensures Passes(m, h, b, s, n, exit, s2, n1 + n2)
  {
    RunAdd(m, h, At(b, s), n1, n2);
  }

  lemma PassesOnce<S>(m: Machine<S>, h: Heap, b: Ref, s: S, n: nat, next: Ref, s': S)
    requires Run(m, h, At(b, s), n).Halted? && Run(m, h, At(b, s), 1) == At(next, s')
    ensures Passes(m, h, b, s, n, next, s', 1)
  {
    if n > 0 {
      RunAdd(m, h, At(b, s), 1, n - 1);
    }
  }

  lemma {:induction false} Backward<S>(m: Machine<S>, h: Heap, c: Chain, exit: Ref, s: S, n: nat, k: nat)
      returns (n1: nat, s': S)
    requires Realizes(h, c, Some(exit)) && IsBlock(h, exit)
    requires Run(m, h, At(First(c), s), n).Halted? && n <= k
    ensures Passes(m, h, First(c), s, n, exit, s', n1) && Eval(m, Denote(h, c), s, k) == Some(s')
    decreases n, c, 0
  {
    var code := CodeOf(h, First(c));
    var s1 := Exec(m, Operations(code), s);
    RunOnce(m, h, First(c), s);
    match c
    case End(b) =>
      EvalBlock(m, code, s, k);
      n1, s' := 1, s1;
      PassesOnce(m, h, b, s, n, exit, s1);
    case Link(b, rest) =>
      EvalEmits(m, code, Denote(h, rest), s, k);
      RealizedFirst(h, rest, Some(exit));
      PassesOnce(m, h, b, s, n, First(rest), s1);
      n1, s' := Backward(m, h, rest, exit, s1, n - 1, k);
      PassesThen(m, h, b, s, n, First(rest), s1, 1, exit, s', n1);
      n1 := 1 + n1;
    case Then(b, construct, rest) =>
      var st := DenoteConstruct(h, construct);
      EvalEmits(m, code, Cons(st, Denote(h, rest)), s, k);
      RealizedFirst(h, rest, Some(exit));
      EntryIsFirstBlock(h, construct, First(rest));
      PassesOnce(m, h, b, s, n, EntryOf(construct), s1);
      var n2, s2 := BackwardConstruct(m, h, construct, First(rest), s1, n - 1, k);
      PassesThen(m, h, b, s, n, EntryOf(construct), s1, 1, First(rest), s2, n2);
      var n3, s3 := Backward(m, h, rest, exit, s2, n - 1 - n2, k);
      PassesThen(m, h, b, s, n, First(rest), s2, 1 + n2, exit, s3, n3);
      n1, s' := 1 + n2 + n3, s3;
  }

  lemma {:induction false} BackwardConstruct<S>(m: Machine<S>, h: Heap, construct: Construct, join: Ref, s: S, n: nat, k: nat)
      returns (n1: nat, s': S)
    requires RealizesConstruct(h, construct, join) && IsBlock(h, join)
    requires Run(m, h, At(EntryOf(construct), s), n).Halted? && n <= k
    ensures Passes(m, h, EntryOf(construct), s, n, join, s', n1)
    ensures EvalStmt(m, DenoteConstruct(h, construct), s, k) == Some(s')
    decreases n, construct, 1
  {
    hide Run, Exec, Denote, Realizes, Refs;
    var base := construct.base;
    var cond := Ref(base, Condition);
    var s1 := Exec(m, Operations(CodeOf(h, cond)), s);
    match construct
    case IfShape(_, value, thn, els) =>
      RunCondition(m, h, construct, join, s);
      var branch := if m.read(value, s1) != 0 then thn else els;
      PassesOnce(m, h, cond, s, n, First(branch), s1);
      n1, s' := Backward(m, h, branch, join, s1, n - 1, k);
      PassesThen(m, h, cond, s, n, First(branch), s1, 1, join, s', n1);
      n1 := 1 + n1;
    case SwitchShape(_, value, arms) =>
      RunCondition(m, h, construct, join, s);
      ChosenArm(m, h, base, value, arms, join, s1);
      var arm := Chosen(arms, m.read(value, s1));
      if arm.NoArms? {
        n1, s' := 1, s1;
        PassesOnce(m, h, cond, s, n, join, s1);
      } else {
        PassesOnce(m, h, cond, s, n, First(arm.chain), s1);
        n1, s' := Backward(m, h, arm.chain, join, s1, n - 1, k);
        PassesThen(m, h, cond, s, n, First(arm.chain), s1, 1, join, s', n1);
        n1 := 1 + n1;
      }
    case LoopShape(_, value, init, update, body) =>
      var n2, s2 := Backward(m, h, init, cond, s, n, k);
      var n3, s3 := BackwardLoop(m, h, construct, join, s2, n - n2, k);
      PassesThen(m, h, First(init), s, n, cond, s2, n2, join, s3, n3);
      n1, s' := n2 + n3, s3;
  }

  lemma {:induction false} BackwardLoop<S>(m: Machine<S>, h: Heap, loop: Construct, join: Ref, s: S, n: nat, k: nat)
      returns (n1: nat, s': S)
    requires loop.LoopShape? && RealizesConstruct(h, loop, join) && IsBlock(h, join)
    requires Run(m, h, At(Ref(loop.base, Condition), s), n).Halted? && n <= k
    ensures Passes(m, h, Ref(loop.base, Condition), s, n, join, s', n1) && EvalLoopOf(m, h, loop, s, k) == Some(s')
    decreases n, loop, 0
  {
    hide Run, Exec, Denote, Realizes, Refs;
    var LoopShape(base, value, _, update, body) := loop;
    var cond := Ref(base, Condition);
    var s1 := Exec(m, Operations(CodeOf(h, cond)), s);
    RunCondition(m, h, loop, join, s);
    if m.read(value, s1) == 0 {
      n1, s' := 1, s1;
      PassesOnce(m, h, cond, s, n, join, s1);
    } else {
      RealizedFirst(h, update, Some(cond));
      PassesOnce(m, h, cond, s, n, First(body), s1);
      var n2, s2 := Backward(m, h, body, Ref(base, Update), s1, n - 1, k - 1);
      PassesThen(m, h, cond, s, n, First(body), s1, 1, Ref(base, Update), s2, n2);
      var n3, s3 := Backward(m, h, update, cond, s2, n - 1 - n2, k - 1);
      PassesThen(m, h, cond, s, n, First(update), s2, 1 + n2, cond, s3, n3);
      var n4, s4 := BackwardLoop(m, h, loop, join, s3, n - 1 - n2 - n3, k - 1);
      PassesThen(m, h, cond, s, n, cond, s3, 1 + n2 + n3, join, s4, n4);
      n1, s' := 1 + n2 + n3 + n4, s4;
    }
  }

  // ----- the whole graph -----

  /** From the entry of the context control runs along `c` to its exit, where it stops. */
  ghost predicate IsGraph(h: Heap, c: Chain) {
    && First(c) == ENTRY && Realizes(h, c, Some(EXIT))
    && IsBlockTo(h, EXIT, None) && h[EXIT].content.code == []
  }

  ghost predicate GraphHalts<S>(m: Machine<S>, h: Heap, s: S, s': S) {
    exists n: nat :: Run(m, h, At(ENTRY, s), n) == Halted(s')
  }

  ghost predicate ProgramHalts<S>(m: Machine<S>, p: Prog, s: S, s': S) {
    exists k: nat :: Eval(m, p, s, k) == Some(s')
  }

  /** A graph means what the program it stands for means: it halts on the same states, with the same
      results. As this holds for every s', one diverges exactly when the other does. */
  lemma GraphMeansProgram<S>(m: Machine<S>, h: Heap, c: Chain, s: S, s': S)
    requires IsGraph(h, c)
    ensures GraphHalts(m, h, s, s') <==> ProgramHalts(m, Denote(h, c), s, s')
  {
    if ProgramHalts(m, Denote(h, c), s, s') {
      var k: nat :| Eval(m, Denote(h, c), s, k) == Some(s');
      var n := Forward(m, h, c, EXIT, s, k);
      RunExit(m, h, s');
      RunAdd(m, h, At(ENTRY, s), n, 1);
      assert Run(m, h, At(ENTRY, s), n + 1) == Halted(s');
    }
    if GraphHalts(m, h, s, s') {
      var n: nat :| Run(m, h, At(ENTRY, s), n) == Halted(s');
      var n1, s1 := Backward(m, h, c, EXIT, s, n, n);
      RunExit(m, h, s1);
      if n > n1 {
        RunAdd(m, h, At(EXIT, s1), 1, n - n1 - 1);
        HaltedStays(m, h, Halted(s1), n - n1 - 1);
      }
      assert Eval(m, Denote(h, c), s, n) == Some(s');
    }
  }

  lemma RunExit<S>(m: Machine<S>, h: Heap, s: S)
    requires IsBlockTo(h, EXIT, None) && h[EXIT].content.code == []
    ensures Run(m, h, At(EXIT, s), 1) == Halted(s)
  {
    RunOnce(m, h, EXIT, s);
  }
}
