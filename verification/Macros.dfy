/** The calls that the macros of a whole program make, and what they build. */
module Macros {
  import opened Mir
  import opened Hir
  import opened Shape
  import opened Lowering
  import opened Calls
  import opened HirToMir

  /** The instructions that a condition leaves behind in the current block. */
  method EmitAll(ctx: Context, ops: seq<Operation>) returns (ghost code: seq<Instruction>)
    requires ctx.current.Some? && ctx.Valid()
    modifies ctx`heap, ctx`next, ctx`run
    ensures Operations(code) == ops && ctx.next >= old(ctx.next)
    ensures ctx.Valid() && (old(Orderly(ctx.run)) ==> Orderly(ctx.run))
    ensures ctx.heap == old(ctx.heap)[ctx.current.value := WithCodes(old(ctx.heap)[ctx.current.value], code)]
  {
    hide RunsTo, Orderly, Extended;
    code := [];
    assert ctx.heap[ctx.current.value].content.code + [] == ctx.heap[ctx.current.value].content.code;
    for i := 0 to |ops|
      invariant ctx.Valid() && ctx.next >= old(ctx.next) && (old(Orderly(ctx.run)) ==> Orderly(ctx.run))
      invariant Operations(code) == ops[..i]
      invariant ctx.heap == old(ctx.heap)[ctx.current.value := WithCodes(old(ctx.heap)[ctx.current.value], code)]
    {
      ghost var before := old(ctx.heap)[ctx.current.value].content.code;
      ghost var instruction := Instruction(ctx.next, ops[i]);
      assert before + (code + [instruction]) == before + code + [instruction];
      ctx.EmitInstruction(ops[i]);
      code := code + [instruction];
    }
  }

  function WithCodes(n: Node, code: seq<Instruction>): Node
    requires n.content.Sequential?
  {
    n.(content := Sequential(n.content.code + code, n.content.successor))
  }

  method Lower(ctx: Context, p: Prog) returns (ghost c: Chain)
    requires ctx.Ready()
    modifies ctx
    ensures ctx.Ready()
    ensures Lowered(old(ctx.heap), ctx.heap, old(ctx.next), ctx.next, old(ctx.current.value), ctx.current.value, p, c)
    ensures ctx.ifBuilder == old(ctx.ifBuilder) && ctx.mbrBuilder == old(ctx.mbrBuilder)
    decreases p, 1
  {
    hide Lowered, RunsTo, Orderly, MaySplice, Bounded;
    match p
    case Nil =>
      c := End(ctx.current.value);
      LoweredNothing(ctx.heap, ctx.next, ctx.current.value);
    case Cons(st, rest) =>
      var first := LowerStmt(ctx, st);
      ghost var h1, n1, c1 := ctx.heap, ctx.next, ctx.current.value;
      var last := Lower(ctx, rest);
      c := Graft(first, last);
      assert Concat(Cons(st, Nil), rest) == p;
      LoweredThen(old(ctx.heap), h1, ctx.heap, old(ctx.next), n1, ctx.next, old(ctx.current.value), c1, ctx.current.value,
                  Cons(st, Nil), rest, first, last);
  }

  method LowerStmt(ctx: Context, st: Stmt) returns (ghost c: Chain)
    requires ctx.Ready()
    modifies ctx
    ensures ctx.Ready()
    ensures Lowered(old(ctx.heap), ctx.heap, old(ctx.next), ctx.next, old(ctx.current.value), ctx.current.value,
                    Cons(st, Nil), c)
    ensures ctx.ifBuilder == old(ctx.ifBuilder) && ctx.mbrBuilder == old(ctx.mbrBuilder)
    decreases st, 2
  {
    match st
    case Emit(op) =>
      LoweredEmit(ctx.heap, ctx.next, ctx.current.value, op);
      c := End(ctx.current.value);
      ctx.EmitInstruction(op);
    case If(cond, value, thn, els) => c := LowerIf(ctx, cond, value, thn, els);
    case Switch(cond, value, cases) => c := LowerSwitch(ctx, cond, value, cases);
    case For(init, cond, value, update, body) => c := LowerFor(ctx, init, cond, value, update, body);
  }

  method LowerIf(ctx: Context, cond: seq<Operation>, value: nat, thn: Prog, els: Prog) returns (ghost c: Chain)
    requires ctx.Ready()
    modifies ctx
    ensures ctx.Ready()
    ensures Lowered(old(ctx.heap), ctx.heap, old(ctx.next), ctx.next, old(ctx.current.value), ctx.current.value,
                    Cons(If(cond, value, thn, els), Nil), c)
    ensures ctx.ifBuilder == old(ctx.ifBuilder) && ctx.mbrBuilder == old(ctx.mbrBuilder)
    decreases If(cond, value, thn, els), 1
  {
    hide Lowered, Opened, IfParts, Bounded, Distinct, Realizes, RunsTo, Orderly, Extended;
    ghost var h, a, block := ctx.heap, ctx.next, ctx.current.value;
    var builder := new IfStatementBuilder(ctx);
    ghost var code := EmitIfCondition(ctx, builder, h, a, block, cond, value);
    ghost var h1, n1 := ctx.heap, ctx.next;
    var t := Lower(ctx, thn);
    ghost var h2, n2, t' := ctx.heap, ctx.next, ctx.current.value;
    OpenedIfParts(h, h1, block, a, Some(value), code, n1);
    LoweredThnKept(h1, h2, a, n1, n2, t', thn, t);
    var elseBuilder := new ElseStatementBuilder(ctx);
    var f := Lower(ctx, els);
    LoweredIf(h, h1, h2, ctx.heap, a, n1, n2, ctx.next, block, value, code, t', ctx.current.value, thn, els, t, f);
    LoweredValid(h, ctx.heap, a, ctx.next, block, Ref(a, Whole), Cons(If(cond, value, thn, els), Nil),
                 Then(block, IfShape(a + 1, value, t, f), End(Ref(a, Whole))));
    builder.Close();
    c := Then(block, IfShape(a + 1, value, t, f), End(Ref(a, Whole)));
  }

  lemma LoweredValid(h: Heap, h': Heap, lo: nat, hi: nat, r: Ref, r': Ref, p: Prog, c: Chain)
    requires Lowered(h, h', lo, hi, r, r', p, c) && MaySplice(h, r)
    ensures MaySplice(h', r') && Bounded(h', hi)
  {
    LastFacts(h', c, Successor(h, r));
  }

  /** The first branch of an IF leaves the second one ready. */
  lemma LoweredThnKept(h: Heap, h': Heap, a: nat, lo: nat, hi: nat, t': Ref, thn: Prog, t: Chain)
    requires Lowered(h, h', lo, hi, Ref(a + 1, IfTrue), t', thn, t)
    requires Successor(h, Ref(a + 1, IfTrue)) == Some(Ref(a, Whole)) && h[Ref(a, Whole)].parent != Some(Ref(a + 1, IfTrue))
    requires MaySplice(h, Ref(a + 1, IfFalse))
    ensures MaySplice(h', Ref(a + 1, IfFalse)) && Bounded(h', hi)
  {
    LoweredQuietly(h, h', lo, hi, Ref(a + 1, IfTrue), t', thn, t);
  }

  /** Code for the condition of a construct, and the symbol of its result, go into the construct's own parts. */
  lemma OpenedCondition(h: Heap, h1: Heap, block: Ref, a: nat, parts: Heap, code: seq<Instruction>, value: nat)
    requires Bounded(h, a) && block in h && Opened(h, h1, Some(block), a, parts)
    requires Ref(a + 1, Condition) in parts && Ref(a + 1, Whole) in parts && parts[Ref(a + 1, Condition)].content.Sequential?
    ensures Opened(h, WithCondition(h1, a + 1, code, value), Some(block), a, WithCondition(parts, a + 1, code, value))
  {
    var h2 := h1[Ref(a + 1, Condition) := WithCodes(h1[Ref(a + 1, Condition)], code)];
    var parts2 := parts[Ref(a + 1, Condition) := WithCodes(parts[Ref(a + 1, Condition)], code)];
    OpenedUpdate(h, h1, Some(block), a, parts, Ref(a + 1, Condition), WithCodes(h1[Ref(a + 1, Condition)], code));
    OpenedUpdate(h, h2, Some(block), a, parts2, Ref(a + 1, Whole), WithValue(h1[Ref(a + 1, Whole)], value));
  }

  function WithCondition(h: Heap, base: nat, code: seq<Instruction>, value: nat): Heap
    requires IsBlock(h, Ref(base, Condition)) && Ref(base, Whole) in h
  {
    h[Ref(base, Condition) := WithCodes(h[Ref(base, Condition)], code)]
     [Ref(base, Whole) := WithValue(h[Ref(base, Whole)], value)]
  }

  /** The condition of an IF, from the builder's constructor to the call of Condition. */
  method EmitIfCondition(ctx: Context, builder: IfStatementBuilder, ghost h: Heap, ghost a: nat, ghost block: Ref,
                         cond: seq<Operation>, value: nat)
      returns (ghost code: seq<Instruction>)
    requires builder.context == ctx && builder.conditional == a + 1 && ctx.next == a + 2
    requires ctx.current == Some(Ref(a + 1, Condition)) && Bounded(h, a) && IsOpen(h, block)
    requires Opened(h, ctx.heap, Some(block), a, IfParts(a + 1, Some(block), Ref(a, Whole), None, []))
    requires RunsTo(ctx.run, ctx.heap, ctx.next) && Orderly(ctx.run)
    modifies ctx`heap, ctx`next, ctx`current, ctx`run
    ensures Operations(code) == cond && ctx.next >= a + 2 && ctx.Ready() && ctx.current == Some(Ref(a + 1, IfTrue))
    ensures Opened(h, ctx.heap, Some(block), a, IfParts(a + 1, Some(block), Ref(a, Whole), Some(value), code))
  {
    hide Opened, RunsTo, Orderly, Extended, IfParts, Bounded;
    ghost var h1 := ctx.heap;
    OpenedIfParts(h, h1, block, a, None, [], a + 2);
    code := EmitAll(ctx, cond);
    builder.SetCondition(value);
    IfConditionOpened(h, h1, block, a, code, value);
    OpenedIfParts(h, ctx.heap, block, a, Some(value), code, ctx.next);
  }

  lemma IfConditionOpened(h: Heap, h1: Heap, block: Ref, a: nat, code: seq<Instruction>, value: nat)
    requires Bounded(h, a) && IsOpen(h, block)
    requires Opened(h, h1, Some(block), a, IfParts(a + 1, Some(block), Ref(a, Whole), None, []))
    requires IsBlock(h1, Ref(a + 1, Condition)) && Ref(a + 1, Whole) in h1
    ensures Opened(h, WithCondition(h1, a + 1, code, value), Some(block), a,
                   IfParts(a + 1, Some(block), Ref(a, Whole), Some(value), code))
  {
    hide Opened, Bounded;
    var parts := IfParts(a + 1, Some(block), Ref(a, Whole), None, []);
    assert [] + code == code;
    assert WithCondition(parts, a + 1, code, value) == IfParts(a + 1, Some(block), Ref(a, Whole), Some(value), code);
    OpenedCondition(h, h1, block, a, parts, code, value);
  }

  method LowerSwitch(ctx: Context, cond: seq<Operation>, value: nat, cases: Cases) returns (ghost c: Chain)
    requires ctx.Ready()
    modifies ctx
    ensures ctx.Ready()
    ensures Lowered(old(ctx.heap), ctx.heap, old(ctx.next), ctx.next, old(ctx.current.value), ctx.current.value,
                    Cons(Switch(cond, value, cases), Nil), c)
    ensures ctx.ifBuilder == old(ctx.ifBuilder) && ctx.mbrBuilder == old(ctx.mbrBuilder)
    decreases Switch(cond, value, cases), 1
  {
    hide Lowered, CasesLowered, Opened, SwitchParts, Bounded, RunsTo, Orderly, Extended;
    ghost var h, a, block := ctx.heap, ctx.next, ctx.current.value;
    var builder := new SwitchStatementBuilder(ctx);
    ghost var code := EmitSwitchCondition(ctx, builder, h, a, block, cond, value);
    ghost var h1, n1 := ctx.heap, ctx.next;
    OpenedSwitchParts(h, h1, block, a, Some(value), code, n1);
    var arms := LowerCases(ctx, cases, Ref(a, Whole));
    LoweredSwitch(h, h1, ctx.heap, a, n1, ctx.next, block, value, code, cases, arms);
    LoweredValid(h, ctx.heap, a, ctx.next, block, Ref(a, Whole), Cons(Switch(cond, value, cases), Nil),
                 Then(block, SwitchShape(a + 1, value, arms), End(Ref(a, Whole))));
    builder.Close();
    c := Then(block, SwitchShape(a + 1, value, arms), End(Ref(a, Whole)));
  }

  method EmitSwitchCondition(ctx: Context, builder: SwitchStatementBuilder, ghost h: Heap, ghost a: nat, ghost block: Ref,
                             cond: seq<Operation>, value: nat)
      returns (ghost code: seq<Instruction>)
    requires builder.context == ctx && builder.mbr == a + 1 && ctx.next == a + 2
    requires ctx.current == Some(Ref(a + 1, Condition)) && Bounded(h, a) && IsOpen(h, block)
    requires Opened(h, ctx.heap, Some(block), a, SwitchParts(a + 1, Some(block), Ref(a, Whole), None, []))
    requires RunsTo(ctx.run, ctx.heap, ctx.next) && Orderly(ctx.run)
    modifies ctx`heap, ctx`next, ctx`current, ctx`run
    ensures Operations(code) == cond && ctx.next >= a + 2 && ctx.Valid() && ctx.current == None
    ensures Orderly(ctx.run)
    ensures Opened(h, ctx.heap, Some(block), a, SwitchParts(a + 1, Some(block), Ref(a, Whole), Some(value), code))
  {
    hide Opened, RunsTo, Orderly, Extended;
    ghost var h1, parts := ctx.heap, SwitchParts(a + 1, Some(block), Ref(a, Whole), None, []);
    OpenedSwitchParts(h, h1, block, a, None, [], a + 2);
    code := EmitAll(ctx, cond);
    builder.SetCondition(value);
    OpenedCondition(h, h1, block, a, parts, code, value);
    assert [] + code == code;
    assert WithCondition(parts, a + 1, code, value) == SwitchParts(a + 1, Some(block), Ref(a, Whole), Some(value), code);
    OpenedSwitchParts(h, ctx.heap, block, a, Some(value), code, ctx.next);
  }

  method LowerCases(ctx: Context, cases: Cases, ghost join: Ref) returns (ghost arms: Arms)
    requires ctx.mbrBuilder != null && IsSwitch(ctx.heap, ctx.mbrBuilder.mbr, join) && Bounded(ctx.heap, ctx.next)
    requires RunsTo(ctx.run, ctx.heap, ctx.next) && Orderly(ctx.run)
    modifies ctx
    ensures RunsTo(ctx.run, ctx.heap, ctx.next) && Orderly(ctx.run)
    ensures ctx.ifBuilder == old(ctx.ifBuilder) && ctx.mbrBuilder == old(ctx.mbrBuilder)
    ensures CasesLowered(old(ctx.heap), ctx.heap, old(ctx.next), ctx.next, ctx.mbrBuilder.mbr, join, cases, arms)
    decreases cases, 1
  {
    hide Lowered, CasesLowered, OpenedCase, RunsTo, Orderly, Extended;
    ghost var h, b, a := ctx.heap, ctx.next, ctx.mbrBuilder.mbr;
    match cases
    case NoCases =>
      arms := NoArms;
      NoCasesLowered(h, b, a, join);
    case Case(key, body, rest) =>
      var builder := new CaseStatementBuilder(ctx, key, join);
      ghost var h1 := ctx.heap;
      OpenedCaseParts(h, h1, a, b, join, key);
      var c := Lower(ctx, body);
      ghost var h2, m, c' := ctx.heap, ctx.next, ctx.current.value;
      LoweredSwitchKept(h1, h2, b + 1, m, Ref(b, IfTrue), c', body, c, a, join);
      builder.Close();
      var others := LowerCases(ctx, rest, join);
      arms := AppendArms(others, Arm(b, key, c, NoArms));
      CasesThen(h, h1, h2, ctx.heap, b, m, ctx.next, a, join, key, body, c', c, rest, others);
  }

  /** The body of a CASE leaves the switch itself alone. */
  lemma LoweredSwitchKept(h: Heap, h': Heap, lo: nat, hi: nat, r: Ref, r': Ref, p: Prog, c: Chain, a: nat, join: Ref)
    requires Lowered(h, h', lo, hi, r, r', p, c) && IsSwitch(h, a, join)
    requires Successor(h, r) == Some(join) && h[join].parent != Some(r)
    ensures IsSwitch(h', a, join) && Bounded(h', hi)
  {
    LoweredQuietly(h, h', lo, hi, r, r', p, c);
  }

  method LowerFor(ctx: Context, init: Prog, cond: seq<Operation>, value: nat, update: Prog, body: Prog)
      returns (ghost c: Chain)
    requires ctx.Ready()
    modifies ctx
    ensures ctx.Ready()
    ensures Lowered(old(ctx.heap), ctx.heap, old(ctx.next), ctx.next, old(ctx.current.value), ctx.current.value,
                    Cons(For(init, cond, value, update, body), Nil), c)
    ensures ctx.ifBuilder == old(ctx.ifBuilder) && ctx.mbrBuilder == old(ctx.mbrBuilder)
    decreases For(init, cond, value, update, body), 1
  {
    hide Lowered, Opened, LoopParts, Bounded, RunsTo, Orderly, Extended;
    ghost var h, a, block := ctx.heap, ctx.next, ctx.current.value;
    var builder := new LoopStatementBuilder(ctx);
    ghost var h0, n := ctx.heap, ctx.next;
    OpenedLoopParts(h, h0, block, a, None, [], n);
    var i := Lower(ctx, init);
    ghost var m, i' := ctx.next, ctx.current.value;
    ghost var h1, code := EmitLoopCondition(ctx, builder, h, h0, a, block, i', init, i, cond, value);
    ghost var h2, m' := ctx.heap, ctx.next;
    var u := Lower(ctx, update);
    ghost var h3, o, u' := ctx.heap, ctx.next, ctx.current.value;
    builder.UpdateDone();
    LoweredLoopKept(h2, h3, a, m', o, u', update, u);
    var b := Lower(ctx, body);
    LoweredFor(h, h1, h2, h3, ctx.heap, a, n, m', o, ctx.next, block, value, code, i', u', ctx.current.value,
               init, update, body, i, u, b);
    LoweredValid(h, ctx.heap, a, ctx.next, block, Ref(a, Whole), Cons(For(init, cond, value, update, body), Nil),
                 Then(block, LoopShape(a + 1, value, i, u, b), End(Ref(a, Whole))));
    builder.Close();
    c := Then(block, LoopShape(a + 1, value, i, u, b), End(Ref(a, Whole)));
  }

  lemma LoopPartsCompleted(a: nat, block: Ref, code: seq<Instruction>, value: nat)
    ensures var parts := LoopParts(a + 1, Some(block), Ref(a, Whole), None, []);
      && Ref(a + 1, Whole) in parts && Ref(a + 1, Condition) in parts
      && WithCondition(parts, a + 1, code, value) == LoopParts(a + 1, Some(block), Ref(a, Whole), Some(value), code)
  {
    assert [] + code == code;
  }

  /** In a FOR the condition follows the initialization. `h1` is the memory that the constructor would
      have left had the condition been there already. */
  method EmitLoopCondition(ctx: Context, builder: LoopStatementBuilder, ghost h: Heap, ghost h0: Heap, ghost a: nat,
                           ghost block: Ref, ghost i': Ref, ghost init: Prog, ghost i: Chain,
                           cond: seq<Operation>, value: nat)
      returns (ghost h1: Heap, ghost code: seq<Instruction>)
    requires builder.context == ctx && builder.loop == a + 1 && ctx.Ready()
    requires Bounded(h, a) && IsOpen(h, block)
    requires Opened(h, h0, Some(block), a, LoopParts(a + 1, Some(block), Ref(a, Whole), None, []))
    requires Lowered(h0, ctx.heap, a + 2, ctx.next, Ref(a + 1, Init), i', init, i)
    modifies ctx`heap, ctx`next, ctx`current, ctx`run
    ensures Operations(code) == cond && ctx.Ready() && ctx.current == Some(Ref(a + 1, Update))
    ensures Opened(h, h1, Some(block), a, LoopParts(a + 1, Some(block), Ref(a, Whole), Some(value), code))
    ensures Lowered(h1, ctx.heap, a + 2, ctx.next, Ref(a + 1, Init), i', init, i)
    ensures IsLoopTail(ctx.heap, a + 1)
  {
    hide Lowered, Opened, RunsTo, Orderly, Extended, LoopParts, IsConditionOf, IsLoopTail;
    ghost var h2, hi := ctx.heap, ctx.next;
    OpenedLoopTail(h, h0, block, a);
    LoweredInit(h0, h2, a, hi, i', init, i);
    builder.InitDone();
    code := EmitAll(ctx, cond);
    builder.SetCondition(value);
    h1 := WithCondition(h0, a + 1, code, value);
    LoopConditionOpened(h, h0, block, a, code, value);
    LoweredCondition(h0, h2, a, hi, ctx.next, i', init, i, code, value);
    LoopTailKept(h2, a + 1, code, value);
  }

  /** A new loop: its parts are in place. */
  lemma OpenedLoopTail(h: Heap, h0: Heap, block: Ref, a: nat)
    requires Bounded(h, a) && IsOpen(h, block)
    requires Opened(h, h0, Some(block), a, LoopParts(a + 1, Some(block), Ref(a, Whole), None, []))
    ensures Ref(a + 1, Whole) in h0 && h0[Ref(a + 1, Whole)].parent != Some(Ref(a + 1, Init))
    ensures Successor(h0, Ref(a + 1, Init)) == Some(Ref(a + 1, Condition)) && IsConditionOf(h0, a + 1)
    ensures IsLoopTail(h0, a + 1) && IsBlock(h0, Ref(a + 1, Condition))
  {
    hide Opened, Bounded;
    OpenedLoopParts(h, h0, block, a, None, [], a + 2);
    assert Ref(a + 1, Whole) in LoopParts(a + 1, Some(block), Ref(a, Whole), None, []);
    BoundedBelow(h, a, block);
  }

  lemma BoundedBelow(h: Heap, n: nat, r: Ref)
    requires Bounded(h, n) && r in h
    ensures r.base < n
  {
  }

  lemma LoopConditionOpened(h: Heap, h0: Heap, block: Ref, a: nat, code: seq<Instruction>, value: nat)
    requires Bounded(h, a) && IsOpen(h, block)
    requires Opened(h, h0, Some(block), a, LoopParts(a + 1, Some(block), Ref(a, Whole), None, []))
    requires IsBlock(h0, Ref(a + 1, Condition)) && Ref(a + 1, Whole) in h0
    ensures Opened(h, WithCondition(h0, a + 1, code, value), Some(block), a,
                   LoopParts(a + 1, Some(block), Ref(a, Whole), Some(value), code))
  {
    hide Opened, Bounded;
    LoopPartsCompleted(a, block, code, value);
    OpenedCondition(h, h0, block, a, LoopParts(a + 1, Some(block), Ref(a, Whole), None, []), code, value);
  }

  lemma LoopTailKept(h: Heap, base: nat, code: seq<Instruction>, value: nat)
    requires IsLoopTail(h, base) && IsBlock(h, Ref(base, Condition)) && Ref(base, Whole) in h
    ensures IsLoopTail(WithCondition(h, base, code, value), base)
    ensures MaySplice(WithCondition(h, base, code, value), Ref(base, Update))
  {
  }

  /** The update and the body of a loop at `base` still are where control can be extended. */
  ghost predicate IsLoopTail(h: Heap, base: nat) {
    && IsOpen(h, Ref(base, Update)) && Successor(h, Ref(base, Update)) == Some(Ref(base, Condition))
    && h[Ref(base, Condition)].parent == Some(Ref(base, Whole))
    && IsOpen(h, Ref(base, Body)) && Successor(h, Ref(base, Body)) == Some(Ref(base, Update))
  }

  lemma LoweredInit(h0: Heap, h2: Heap, a: nat, hi: nat, i': Ref, init: Prog, i: Chain)
    requires Lowered(h0, h2, a + 2, hi, Ref(a + 1, Init), i', init, i)
    requires Successor(h0, Ref(a + 1, Init)) == Some(Ref(a + 1, Condition)) && IsConditionOf(h0, a + 1)
    requires IsLoopTail(h0, a + 1) && Ref(a + 1, Whole) in h0
    ensures h2[Ref(a + 1, Condition)] == h0[Ref(a + 1, Condition)] && IsOpen(h2, Ref(a + 1, Condition))
    ensures Ref(a + 1, Whole) in h2 && h2[Ref(a + 1, Whole)] == h0[Ref(a + 1, Whole)]
    ensures IsLoopTail(h2, a + 1) && Bounded(h2, hi)
  {
    LoweredQuietly(h0, h2, a + 2, hi, Ref(a + 1, Init), i', init, i);
  }

  lemma LoweredCondition(h0: Heap, h2: Heap, a: nat, hi: nat, hi': nat, i': Ref, init: Prog, i: Chain,
                         code: seq<Instruction>, value: nat)
    requires Lowered(h0, h2, a + 2, hi, Ref(a + 1, Init), i', init, i) && hi <= hi'
    requires IsConditionOf(h0, a + 1) && Ref(a + 1, Whole) in h0 && h0[Ref(a + 1, Whole)].parent != Some(Ref(a + 1, Init))
    requires Ref(a + 1, Condition) in h2 && h2[Ref(a + 1, Condition)] == h0[Ref(a + 1, Condition)]
    requires Ref(a + 1, Whole) in h2 && h2[Ref(a + 1, Whole)] == h0[Ref(a + 1, Whole)]
    ensures Lowered(WithCondition(h0, a + 1, code, value), WithCondition(h2, a + 1, code, value), a + 2, hi',
                    Ref(a + 1, Init), i', init, i)
  {
    hide Lowered;
    var r := Ref(a + 1, Condition);
    var n := WithCodes(h0[r], code);
    LoweredUpdate(h0, h2, a + 2, hi, hi, Ref(a + 1, Init), i', init, i, r, n);
    LoweredUpdate(h0[r := n], h2[r := n], a + 2, hi, hi', Ref(a + 1, Init), i', init, i, Ref(a + 1, Whole),
                  WithValue(h0[Ref(a + 1, Whole)], value));
  }

  lemma LoweredLoopKept(h2: Heap, h3: Heap, a: nat, lo: nat, hi: nat, u': Ref, update: Prog, u: Chain)
    requires Lowered(h2, h3, lo, hi, Ref(a + 1, Update), u', update, u) && IsLoopTail(h2, a + 1)
    ensures MaySplice(h3, Ref(a + 1, Body)) && Bounded(h3, hi)
  {
    LoweredQuietly(h2, h3, lo, hi, Ref(a + 1, Update), u', update, u);
  }
}
