/** The main theorem on lowering: the graph that the builders make for a program means what the
    program means, and a traversal of it sees exactly its blocks and edges. */
module Preservation {
  import opened Mir
  import opened Hir
  import opened Shape
  import opened Lowering
  import opened Execution
  import opened Edges
  import opened Reachability
  import opened Calls
  import opened HirToMir
  import opened Macros

  /** Lowering a program in a new context makes a graph that stands for that program. The parent of the
      exit is the block that code goes to next. */
  lemma LoweredIsGraph(h: Heap, hi: nat, current: Ref, p: Prog, c: Chain)
    requires Lowered(EmptyHeap(), h, CONTEXT + 1, hi, ENTRY, current, p, c)
    ensures IsProperGraph(h, c) && Built(c) && Denote(h, c) == p && Last(c) == current
    ensures h[EXIT].parent == Some(current)
  {
    assert EmptyHeap()[EXIT].parent == Some(ENTRY);
  }

  method Compile(p: Prog) returns (ctx: Context, ghost c: Chain)
    ensures IsProperGraph(ctx.heap, c) && Built(c) && Denote(ctx.heap, c) == p
    ensures ctx.current == Some(Last(c)) && ctx.heap[EXIT].parent == ctx.current
    ensures ctx.ifBuilder == null && ctx.mbrBuilder == null
    ensures RunsTo(ctx.run, ctx.heap, ctx.next) && Orderly(ctx.run)
    ensures Lowered(EmptyHeap(), ctx.heap, CONTEXT + 1, ctx.next, ENTRY, Last(c), p, c)
  {
    ctx := new Context();
    assert ctx.heap == EmptyHeap();
    c := Lower(ctx, p);
    LoweredIsGraph(ctx.heap, ctx.next, ctx.current.value, p, c);
  }

  /** Lowering preserves meaning: from every state, the graph halts if and only if the source program
      does, and in the same state. Hence a loop that never ends in one never ends in the other. */
  lemma LoweringPreservesMeaning<S>(m: Machine<S>, h: Heap, hi: nat, current: Ref, p: Prog, c: Chain, s: S, s': S)
    requires Lowered(EmptyHeap(), h, CONTEXT + 1, hi, ENTRY, current, p, c)
    ensures GraphHalts(m, h, s, s') <==> ProgramHalts(m, p, s, s')
  {
    LoweredIsGraph(h, hi, current, p, c);
    GraphMeansProgram(m, h, c, s, s');
  }

  // ----- repeated cases -----

  /** Whenever a key is repeated, be it DEFAULT, there are a switch with these keys and a value for which the
      graph, in any memory and with any code around it, runs another case than the first with that key. */
  lemma {:induction false} RepeatedCaseDiffers<S>(m: Machine<S>, h: Heap, base: nat, value: nat, arms: Arms, join: Ref, s: S,
                               keys: seq<Option<int>>, i: nat, j: nat)
    requires i < j < |keys| && keys[i] == keys[j]
    requires RealizesConstruct(h, SwitchShape(base, value, arms), join)
    requires DenoteArms(h, arms, NoCases) == WithBodies(keys, TellingBodies(keys, keys[i]))
    requires m.read(value, s) == TellingValue(keys, keys[i])
    ensures var arm := Chosen(arms, m.read(value, s));
      && arm.Arm? && Branch(m, h, base, s) == At(First(arm.chain), s)
      && Denote(h, arm.chain) != SelectFirst(DenoteArms(h, arms, NoCases), m.read(value, s))
  {
    ChosenArm(m, h, base, value, arms, join, s);
    RepeatedKeyTells(keys, i, j);
  }

  // ----- default arms -----

  ghost predicate HasDefaults(p: Prog) {
    match p
    case Nil => true
    case Cons(st, rest) => StmtHasDefaults(st) && HasDefaults(rest)
  }

  ghost predicate StmtHasDefaults(st: Stmt) {
    match st
    case Emit(_) => true
    case If(_, _, thn, els) => HasDefaults(thn) && HasDefaults(els)
    case Switch(_, _, cases) => None in Keys(cases) && CasesHaveDefaults(cases)
    case For(init, _, _, update, body) => HasDefaults(init) && HasDefaults(update) && HasDefaults(body)
  }

  ghost predicate CasesHaveDefaults(cases: Cases) {
    match cases
    case NoCases => true
    case Case(_, body, rest) => HasDefaults(body) && CasesHaveDefaults(rest)
  }

  lemma {:induction false} EmitsHaveDefaults(code: seq<Instruction>, p: Prog)
    ensures HasDefaults(Concat(Emits(code), p)) <==> HasDefaults(p)
  {
    if code != [] {
      EmitsHaveDefaults(code[1..], p);
    }
  }

  /** Whether every switch has a default arm can be read off the program. */
  lemma {:induction false} DefaultsInSource(h: Heap, c: Chain)
    ensures Defaulted(c) <==> HasDefaults(Denote(h, c))
    decreases c
  {
    match c
    case End(b) =>
      EmitsHaveDefaults(CodeOf(h, b), Nil);
      ConcatNil(Emits(CodeOf(h, b)));
    case Link(b, rest) =>
      EmitsHaveDefaults(CodeOf(h, b), Denote(h, rest));
      DefaultsInSource(h, rest);
    case Then(b, k, rest) =>
      EmitsHaveDefaults(CodeOf(h, b), Cons(DenoteConstruct(h, k), Denote(h, rest)));
      ConstructDefaults(h, k);
      DefaultsInSource(h, rest);
  }

  lemma {:induction false} ConstructDefaults(h: Heap, k: Construct)
    ensures DefaultedConstruct(k) <==> StmtHasDefaults(DenoteConstruct(h, k))
    decreases k
  {
    match k
    case IfShape(_, _, thn, els) =>
      DefaultsInSource(h, thn);
      DefaultsInSource(h, els);
    case SwitchShape(_, _, arms) => ArmsDefaults(h, arms, NoCases);
    case LoopShape(_, _, init, update, body) =>
      DefaultsInSource(h, init);
      DefaultsInSource(h, update);
      DefaultsInSource(h, body);
  }

  lemma {:induction false} ArmsDefaults(h: Heap, arms: Arms, later: Cases)
    ensures var cases := DenoteArms(h, arms, later);
      && (CasesHaveDefaults(cases) <==> DefaultedArms(arms) && CasesHaveDefaults(later))
      && (None in Keys(cases) <==> DefaultArm(arms).Some? || None in Keys(later))
    decreases arms
  {
    match arms
    case NoArms =>
    case Arm(_, key, chain, next) =>
      DefaultsInSource(h, chain);
      ArmsDefaults(h, next, Case(key, Denote(h, chain), later));
  }
}
