/** The shape of a well-formed control-flow graph. MIR has no jumps: where control goes is implied by
    how the graph is put together. A chain describes one such structure; a heap realizes it. */
module Shape {
  import opened Mir
  import opened Hir

  /** A line of control from its first block to its last one. A block is followed by another block,
      or by a branch or loop that comes back together in the first block of `rest`. */
  datatype Chain =
    | End(block: Ref)
    | Link(block: Ref, rest: Chain)
    | Then(block: Ref, construct: Construct, rest: Chain)

  datatype Construct =
    | IfShape(base: nat, value: nat, thn: Chain, els: Chain)
    | SwitchShape(base: nat, value: nat, arms: Arms)
    | LoopShape(base: nat, value: nat, init: Chain, update: Chain, body: Chain)

  /** In list order, which is the reverse of the order in which the cases were opened. */
  datatype Arms = NoArms | Arm(base: nat, key: Option<int>, chain: Chain, next: Arms)

  function First(c: Chain): Ref {
    c.block
  }

  function Last(c: Chain): Ref {
    match c
    case End(b) => b
    case Link(_, rest) => Last(rest)
    case Then(_, _, rest) => Last(rest)
  }

  // ----- the addresses in a shape -----

  function Refs(c: Chain): set<Ref> {
    match c
    case End(b) => {b}
    case Link(b, rest) => {b} + Refs(rest)
    case Then(b, k, rest) => {b} + ConstructRefs(k) + Refs(rest)
  }

  function ConstructRefs(k: Construct): set<Ref> {
    {Ref(k.base, Whole), Ref(k.base, Condition)} +
    match k
    case IfShape(_, _, thn, els) => Refs(thn) + Refs(els)
    case SwitchShape(_, _, arms) => ArmRefs(arms)
    case LoopShape(_, _, init, update, body) => Refs(init) + Refs(update) + Refs(body)
  }

  function ArmRefs(arms: Arms): set<Ref> {
    match arms
    case NoArms => {}
    case Arm(_, _, chain, next) => Refs(chain) + ArmRefs(next)
  }

  /** No address occurs twice. */
  ghost predicate Distinct(c: Chain) {
    match c
    case End(_) => true
    case Link(b, rest) => b !in Refs(rest) && Distinct(rest)
    case Then(b, k, rest) =>
      && b !in ConstructRefs(k) && b !in Refs(rest) && ConstructRefs(k) !! Refs(rest)
      && DistinctConstruct(k) && Distinct(rest)
  }

  ghost predicate DistinctConstruct(k: Construct) {
    var own := {Ref(k.base, Whole), Ref(k.base, Condition)};
    match k
    case IfShape(_, _, thn, els) =>
      Distinct(thn) && Distinct(els) && own !! Refs(thn) && own !! Refs(els) && Refs(thn) !! Refs(els)
    case SwitchShape(_, _, arms) => DistinctArms(arms) && own !! ArmRefs(arms)
    case LoopShape(_, _, init, update, body) =>
      && Distinct(init) && Distinct(update) && Distinct(body)
      && own !! Refs(init) && own !! Refs(update) && own !! Refs(body)
      && Refs(init) !! Refs(update) && Refs(init) !! Refs(body) && Refs(update) !! Refs(body)
  }

  ghost predicate DistinctArms(arms: Arms) {
    match arms
    case NoArms => true
    case Arm(_, _, chain, next) => Distinct(chain) && DistinctArms(next) && Refs(chain) !! ArmRefs(next)
  }

  /** Chains as the builders make them: what follows a construct is a block that is an object of its own,
      and there are no plain links. */
  ghost predicate Built(c: Chain) {
    match c
    case End(_) => true
    case Link(_, _) => false
    case Then(_, k, rest) => First(rest).member == Whole && BuiltConstruct(k) && Built(rest)
  }

  ghost predicate BuiltConstruct(k: Construct) {
    match k
    case IfShape(_, _, thn, els) => Built(thn) && Built(els)
    case SwitchShape(_, _, arms) => BuiltArms(arms)
    case LoopShape(_, _, init, update, body) => Built(init) && Built(update) && Built(body)
  }

  ghost predicate BuiltArms(arms: Arms) {
    match arms
    case NoArms => true
    case Arm(_, _, chain, next) => Built(chain) && BuiltArms(next)
  }

  // ----- realization by a heap -----

  ghost predicate IsBlockTo(h: Heap, r: Ref, successor: Option<Ref>) {
    IsBlock(h, r) && h[r].content.successor == successor
  }

  /** The blocks and nodes of `c` are in the heap, and control leaves its last block for `exit`. */
  ghost predicate Realizes(h: Heap, c: Chain, exit: Option<Ref>) {
    match c
    case End(b) => IsBlockTo(h, b, exit)
    case Link(b, rest) => IsBlockTo(h, b, Some(First(rest))) && Realizes(h, rest, exit)
    case Then(b, k, rest) =>
      && IsBlockTo(h, b, Some(Ref(k.base, Whole)))
      && RealizesConstruct(h, k, First(rest))
      && Realizes(h, rest, exit)
  }

  /** The condition of a construct has no successor of its own: its parent decides. */
  ghost predicate IsConditionOf(h: Heap, base: nat) {
    var r := Ref(base, Condition);
    IsBlockTo(h, r, None) && h[r].parent == Some(Ref(base, Whole))
  }

  ghost predicate RealizesConstruct(h: Heap, k: Construct, join: Ref) {
    && Ref(k.base, Whole) in h
    && IsConditionOf(h, k.base)
    && match k
       case IfShape(base, value, thn, els) =>
         && h[Ref(base, Whole)].content == Conditional(Some(value), join)
         && First(thn) == Ref(base, IfTrue) && Realizes(h, thn, Some(join))
         && First(els) == Ref(base, IfFalse) && Realizes(h, els, Some(join))
       case SwitchShape(base, value, arms) =>
         && h[Ref(base, Whole)].content == MultiWay(Some(value), Entries(arms), DefaultArm(arms), join)
         && RealizesArms(h, arms, join)
       case LoopShape(base, value, init, update, body) =>
         && h[Ref(base, Whole)].content == Loop(Some(value), join)
         && First(init) == Ref(base, Init) && Realizes(h, init, Some(Ref(base, Condition)))
         && First(update) == Ref(base, Update) && Realizes(h, update, Some(Ref(base, Condition)))
         && First(body) == Ref(base, Body) && Realizes(h, body, Some(Ref(base, Update)))
  }

  ghost predicate RealizesArms(h: Heap, arms: Arms, join: Ref) {
    match arms
    case NoArms => true
    case Arm(base, _, chain, next) =>
      First(chain) == Ref(base, IfTrue) && Realizes(h, chain, Some(join)) && RealizesArms(h, next, join)
  }

  function Entries(arms: Arms): seq<ArmEntry> {
    match arms
    case NoArms => []
    case Arm(base, key, _, next) => [ArmEntry(base, key)] + Entries(next)
  }

  /** The default that was opened last. */
  function DefaultArm(arms: Arms): Option<nat> {
    match arms
    case NoArms => None
    case Arm(base, key, _, next) => if key.None? then Some(base) else DefaultArm(next)
  }

  // ----- the program that a realized chain stands for -----

  function Concat(p: Prog, q: Prog): Prog {
    match p
    case Nil => q
    case Cons(st, rest) => Cons(st, Concat(rest, q))
  }

  lemma {:induction false} ConcatNil(p: Prog)
    ensures Concat(p, Nil) == p
  {
    match p
    case Nil =>
    case Cons(_, rest) => ConcatNil(rest);
  }

  function Emits(code: seq<Instruction>): Prog {
    if code == [] then Nil else Cons(Emit(code[0].operation), Emits(code[1..]))
  }

  function CodeOf(h: Heap, r: Ref): seq<Instruction> {
    if IsBlock(h, r) then h[r].content.code else []
  }

  function Denote(h: Heap, c: Chain): Prog {
    match c
    case End(b) => Emits(CodeOf(h, b))
    case Link(b, rest) => Concat(Emits(CodeOf(h, b)), Denote(h, rest))
    case Then(b, k, rest) => Concat(Emits(CodeOf(h, b)), Cons(DenoteConstruct(h, k), Denote(h, rest)))
  }

  function DenoteConstruct(h: Heap, k: Construct): Stmt {
    var cond := Operations(CodeOf(h, Ref(k.base, Condition)));
    match k
    case IfShape(_, value, thn, els) => If(cond, value, Denote(h, thn), Denote(h, els))
    case SwitchShape(_, value, arms) => Switch(cond, value, DenoteArms(h, arms, NoCases))
    case LoopShape(_, value, init, update, body) =>
      For(Denote(h, init), cond, value, Denote(h, update), Denote(h, body))
  }

  /** Source order is the reverse of list order. */
  function DenoteArms(h: Heap, arms: Arms, later: Cases): Cases {
    match arms
    case NoArms => later
    case Arm(_, key, chain, next) => DenoteArms(h, next, Case(key, Denote(h, chain), later))
  }

  // ----- a change elsewhere in memory changes neither -----

  ghost predicate AgreeOn(h: Heap, h': Heap, rs: set<Ref>) {
    forall r | r in rs :: r in h ==> r in h' && h'[r] == h[r]
  }

  lemma {:induction false} Frame(h: Heap, h': Heap, c: Chain, exit: Option<Ref>)
    requires Realizes(h, c, exit) && AgreeOn(h, h', Refs(c))
    ensures Realizes(h', c, exit) && Denote(h', c) == Denote(h, c)
    decreases c
  {
    match c
    case End(b) =>
    case Link(b, rest) => Frame(h, h', rest, exit);
    case Then(b, k, rest) =>
      FrameConstruct(h, h', k, First(rest));
      Frame(h, h', rest, exit);
  }

  lemma {:induction false} FrameConstruct(h: Heap, h': Heap, k: Construct, join: Ref)
    requires RealizesConstruct(h, k, join) && AgreeOn(h, h', ConstructRefs(k))
    ensures RealizesConstruct(h', k, join) && DenoteConstruct(h', k) == DenoteConstruct(h, k)
    decreases k
  {
    assert Ref(k.base, Whole) in ConstructRefs(k) && Ref(k.base, Condition) in ConstructRefs(k);
    match k
    case IfShape(base, _, thn, els) =>
      Frame(h, h', thn, Some(join));
      Frame(h, h', els, Some(join));
    case SwitchShape(_, _, arms) => FrameArms(h, h', arms, join, NoCases);
    case LoopShape(base, _, init, update, body) =>
      Frame(h, h', init, Some(Ref(base, Condition)));
      Frame(h, h', update, Some(Ref(base, Condition)));
      Frame(h, h', body, Some(Ref(base, Update)));
  }

  lemma {:induction false} FrameArms(h: Heap, h': Heap, arms: Arms, join: Ref, later: Cases)
    requires RealizesArms(h, arms, join) && AgreeOn(h, h', ArmRefs(arms))
    ensures RealizesArms(h', arms, join) && DenoteArms(h', arms, later) == DenoteArms(h, arms, later)
    decreases arms
  {
    match arms
    case NoArms =>
    case Arm(base, key, chain, next) =>
      Frame(h, h', chain, Some(join));
      FrameArms(h, h', next, join, Case(key, Denote(h, chain), later));
  }
}
