/** The compilation context and the builders behind the IF, SWITCH and FOR macros. They change the
    context in place; `Lowered` in module Lowering says what a whole program's calls amount to. */
module HirToMir {
  import opened Mir
  import opened Lowering
  import opened Calls

  class Context {
    var heap: Heap
    var next: nat
    var current: Option<Ref>
    var ifBuilder: IfStatementBuilder?
    var mbrBuilder: SwitchStatementBuilder?

    /** The calls so far. */
    ghost var run: Run

    constructor ()
      ensures Valid() && heap == EmptyHeap() && run == NewRun()
      ensures next == CONTEXT + 1 && current == Some(ENTRY) && ifBuilder == null && mbrBuilder == null
    {
      heap := map[ENTRY := Node(None, Sequential([], None)), EXIT := Node(Some(ENTRY), Sequential([], None))];
      next := CONTEXT + 1;
      current := Some(ENTRY);
      ifBuilder := null;
      mbrBuilder := null;
      run := NewRun();
      new;
      heap := heap[ENTRY := WithSuccessor(heap[ENTRY], EXIT)];
      NewRunIsRun();
    }

    /** No address is in use twice, and the current block, if there is one, may be extended. Memory is what
        the recorded calls have made of it. */
    ghost predicate Valid()
      reads `heap, `next, `current, `run
    {
      Bounded(heap, next) && (current.Some? ==> IsOpen(heap, current.value)) && RunsTo(run, heap, next)
    }

    /** There is a current block, into which a construct may be spliced. */
    ghost predicate Ready()
      reads `heap, `next, `current, `run
    {
      Valid() && current.Some? && MaySplice(heap, current.value) && Orderly(run)
    }

    /** Make a note of a call. */
    ghost method Record(call: Call, h: Heap, n: nat)
      requires RunsTo(run, h, n) && CallStep(h, n, call, heap, next)
      modifies `run
      ensures RunsTo(run, heap, next) && run == Extended(old(run), call, heap, next)
      ensures Orderly(old(run)) && MayCall(h, call) ==> Orderly(run)
    {
      RunsOn(run, h, n, call, heap, next);
      run := Extended(run, call, heap, next);
    }

    /** Without a current block the source faults. */
    method EmitInstruction(op: Operation)
      requires Valid() && current.Some?
      modifies this`heap, this`next, this`run
      ensures Valid() && run == Extended(old(run), EmitCode(current.value, op), heap, next)
      ensures heap == old(heap)[current.value := WithCode(old(heap)[current.value], Instruction(old(next), op))]
      ensures IsBlock(heap, current.value)
      ensures heap[current.value].content.code == old(heap[current.value].content.code) + [Instruction(old(next), op)]
      ensures heap[current.value].content.successor == old(heap[current.value].content.successor)
      ensures heap[current.value].parent == old(heap[current.value].parent)
      ensures next == old(next) + 1 && (old(Orderly(run)) ==> Orderly(run))
    {
      heap := heap[current.value := WithCode(heap[current.value], Instruction(next, op))];
      next := next + 1;
      Record(EmitCode(current.value, op), old(heap), old(next));
    }

    /** Allocate an empty block. */
    method AllocateSequential(parent: Option<Ref>) returns (r: Ref)
      modifies this`heap, this`next
      ensures r == Ref(old(next), Whole) && next == old(next) + 1
      ensures heap == old(heap)[r := Node(parent, Sequential([], None))]
    {
      r := Ref(next, Whole);
      heap := heap[r := Node(parent, Sequential([], None))];
      next := next + 1;
    }

    /** Allocate an object whose constructor initializes `parts`. */
    method AllocateParts(parts: Heap)
      modifies this`heap, this`next
      ensures heap == old(heap) + parts && next == old(next) + 1
    {
      heap := heap + parts;
      next := next + 1;
    }

    /** The continuation of the current block becomes that of `successor`. */
    method LinkSuccessor(successor: Ref)
      requires IsBlock(heap, successor) && current != Some(successor)
      requires current.Some? ==> IsOpen(heap, current.value) && Successor(heap, current.value) != Some(successor)
      modifies this`heap
      ensures Linked(old(heap), heap, current, successor)
    {
      if current.Some? {
        var target := heap[current.value].content.successor;
        heap := heap[successor := Node(heap[successor].parent, Sequential(heap[successor].content.code, target))];
        if target.Some? && heap[target.value].parent == current {
          heap := heap[target.value := heap[target.value].(parent := Some(successor))];
        }
      }
    }

    /** Control goes on in `linkedSuccessor`, and code in `newCurrent`. */
    method LinkCurrent(newCurrent: Ref, linkedSuccessor: Ref)
      requires current.Some? ==> IsBlock(heap, current.value)
      modifies this`heap, this`current
      ensures current == Some(newCurrent)
      ensures heap == if old(current).None? then old(heap)
                      else old(heap)[old(current).value := WithSuccessor(old(heap)[old(current).value], linkedSuccessor)]
    {
      if current.Some? {
        heap := heap[current.value := WithSuccessor(heap[current.value], linkedSuccessor)];
      }
      current := Some(newCurrent);
    }

    /** What every builder of a construct begins with: a new block, which goes on where the current one did. */
    method MakeJoin() returns (join: Ref)
      requires Valid()
      modifies this`heap, this`next
      ensures join == Ref(old(next), Whole) && next == old(next) + 1
      ensures JoinMade(old(heap), heap, current, old(next))
    {
      join := AllocateSequential(current);
      LinkSuccessor(join);
    }

    /** And what it ends with: the object at `a`, which the current block goes on in. Code goes to `entry`. */
    method LinkParts(a: nat, parts: Heap, entry: Ref, ghost h: Heap)
      requires next == a > 0 && Bounded(h, a - 1) && (current.Some? ==> IsOpen(h, current.value))
      requires JoinMade(h, heap, current, a - 1) && forall r | r in parts :: r.base == a
      modifies this`heap, this`next, this`current
      ensures Opened(h, heap, old(current), a - 1, parts) && next == a + 1 && current == Some(entry)
    {
      OpenedInSteps(h, heap, current, a - 1, parts);
      AllocateParts(parts);
      LinkCurrent(entry, Ref(a, Whole));
    }

    /** Set the field `conditional_value` of the object at `base`. */
    method SetValue(base: nat, value: nat)
      requires Ref(base, Whole) in heap && RunsTo(run, heap, next)
      modifies this`heap, this`run
      ensures heap == old(heap)[Ref(base, Whole) := WithValue(old(heap)[Ref(base, Whole)], value)]
      ensures RunsTo(run, heap, next) && run == Extended(old(run), Call.SetCondition(base, value), heap, next)
      ensures old(Orderly(run)) ==> Orderly(run)
    {
      heap := heap[Ref(base, Whole) := WithValue(heap[Ref(base, Whole)], value)];
      Record(Call.SetCondition(base, value), old(heap), old(next));
    }
  }

  ghost predicate Linked(h: Heap, h': Heap, current: Option<Ref>, succ: Ref)
    requires succ in h
  {
    && h'.Keys == h.Keys
    && (current.None? ==> h' == h)
    && (current.Some? && IsBlock(h, succ) ==>
          var target := Successor(h, current.value);
          && h'[succ] == Node(h[succ].parent, Sequential(h[succ].content.code, target))
          && forall r | r in h && r != succ :: h'[r] == Reparented(h[r], target == Some(r), current.value, succ))
  }

  ghost predicate JoinMade(h: Heap, h': Heap, current: Option<Ref>, a: nat) {
    Linked(h[Ref(a, Whole) := Node(current, Sequential([], None))], h', current, Ref(a, Whole))
  }

  /** The four steps that every construct starts with amount to one splice. */
  lemma OpenedInSteps(h: Heap, h2: Heap, current: Option<Ref>, a: nat, parts: Heap)
    requires Bounded(h, a) && (current.Some? ==> IsOpen(h, current.value))
    requires JoinMade(h, h2, current, a)
    requires forall r | r in parts :: r.base == a + 1
    ensures var h3 := h2 + parts;
      && (current.Some? ==> IsBlock(h3, current.value))
      && Opened(h, if current.None? then h3 else h3[current.value := WithSuccessor(h3[current.value], Ref(a + 1, Whole))],
                current, a, parts)
  {
  }

  class IfStatementBuilder {
    const context: Context
    const conditional: nat
    const successor: Ref
    const savedIfBuilder: IfStatementBuilder?

    constructor (ctx: Context)
      requires ctx.Valid()
      modifies ctx
      ensures context == ctx && savedIfBuilder == old(ctx.ifBuilder)
      ensures successor == Ref(old(ctx.next), Whole) && conditional == old(ctx.next) + 1
      ensures Opened(old(ctx.heap), ctx.heap, old(ctx.current), old(ctx.next),
                     IfParts(conditional, old(ctx.current), successor, None, []))
      ensures RunsTo(ctx.run, ctx.heap, ctx.next)
      ensures ctx.run == Extended(old(ctx.run), OpenIf(old(ctx.current)), ctx.heap, ctx.next)
      ensures old(Orderly(ctx.run)) && MayCall(old(ctx.heap), OpenIf(old(ctx.current))) ==> Orderly(ctx.run)
      ensures ctx.next == old(ctx.next) + 2 && ctx.current == Some(Ref(conditional, Condition))
      ensures ctx.ifBuilder == this && ctx.mbrBuilder == old(ctx.mbrBuilder)
    {
      hide RunsTo, Orderly, MayCall, Opened, JoinMade, Extended, Bounded;
      context := ctx;
      savedIfBuilder := ctx.ifBuilder;
      var join := ctx.MakeJoin();
      var a := ctx.next;
      ctx.LinkParts(a, IfParts(a, ctx.current, join, None, []), Ref(a, Condition), old(ctx.heap));
      ctx.Record(OpenIf(old(ctx.current)), old(ctx.heap), old(ctx.next));
      successor := join;
      conditional := a;
      new;
      ctx.ifBuilder := this;
    }

    /** The condition is complete and has left its result in `value`. */
    method SetCondition(value: nat)
      requires Ref(conditional, Whole) in context.heap && RunsTo(context.run, context.heap, context.next)
      modifies context`heap, context`current, context`run
      ensures RunsTo(context.run, context.heap, context.next)
      ensures context.run == Extended(old(context.run), Call.SetCondition(conditional, value), context.heap, context.next)
      ensures old(Orderly(context.run)) ==> Orderly(context.run)
      ensures context.heap == old(context.heap)[Ref(conditional, Whole) :=
                                WithValue(old(context.heap)[Ref(conditional, Whole)], value)]
      ensures context.current == Some(Ref(conditional, IfTrue))
    {
      context.SetValue(conditional, value);
      context.current := Some(Ref(conditional, IfTrue));
    }

    /** The destructor. */
    method Close()
      modifies context`current, context`ifBuilder
      ensures context.current == Some(successor) && context.ifBuilder == savedIfBuilder
    {
      context.current := Some(successor);
      context.ifBuilder := savedIfBuilder;
    }
  }

  class ElseStatementBuilder {
    constructor (ctx: Context)
      requires ctx.ifBuilder != null
      modifies ctx`current
      ensures ctx.current == Some(Ref(ctx.ifBuilder.conditional, IfFalse))
    {
      ctx.current := Some(Ref(ctx.ifBuilder.conditional, IfFalse));
    }
  }

  class SwitchStatementBuilder {
    const context: Context
    const mbr: nat
    const successor: Ref
    const savedMbrBuilder: SwitchStatementBuilder?

    constructor (ctx: Context)
      requires ctx.Valid()
      modifies ctx
      ensures context == ctx && savedMbrBuilder == old(ctx.mbrBuilder)
      ensures successor == Ref(old(ctx.next), Whole) && mbr == old(ctx.next) + 1
      ensures Opened(old(ctx.heap), ctx.heap, old(ctx.current), old(ctx.next),
                     SwitchParts(mbr, old(ctx.current), successor, None, []))
      ensures RunsTo(ctx.run, ctx.heap, ctx.next)
      ensures ctx.run == Extended(old(ctx.run), OpenSwitch(old(ctx.current)), ctx.heap, ctx.next)
      ensures old(Orderly(ctx.run)) && MayCall(old(ctx.heap), OpenSwitch(old(ctx.current))) ==> Orderly(ctx.run)
      ensures ctx.next == old(ctx.next) + 2 && ctx.current == Some(Ref(mbr, Condition))
      ensures ctx.mbrBuilder == this && ctx.ifBuilder == old(ctx.ifBuilder)
    {
      hide RunsTo, Orderly, MayCall, Opened, JoinMade, Extended, Bounded;
      context := ctx;
      savedMbrBuilder := ctx.mbrBuilder;
      var join := ctx.MakeJoin();
      var a := ctx.next;
      ctx.LinkParts(a, SwitchParts(a, ctx.current, join, None, []), Ref(a, Condition), old(ctx.heap));
      ctx.Record(OpenSwitch(old(ctx.current)), old(ctx.heap), old(ctx.next));
      successor := join;
      mbr := a;
      new;
      ctx.mbrBuilder := this;
    }

    /** From here to the first CASE there is no current block, so that stray code faults. */
    method SetCondition(value: nat)
      requires Ref(mbr, Whole) in context.heap && RunsTo(context.run, context.heap, context.next)
      modifies context`heap, context`current, context`run
      ensures RunsTo(context.run, context.heap, context.next)
      ensures context.run == Extended(old(context.run), Call.SetCondition(mbr, value), context.heap, context.next)
      ensures old(Orderly(context.run)) ==> Orderly(context.run)
      ensures context.heap == old(context.heap)[Ref(mbr, Whole) := WithValue(old(context.heap)[Ref(mbr, Whole)], value)]
      ensures context.current == None
    {
      context.SetValue(mbr, value);
      context.current := None;
    }

    method Close()
      modifies context`current, context`mbrBuilder
      ensures context.current == Some(successor) && context.mbrBuilder == savedMbrBuilder
    {
      context.current := Some(successor);
      context.mbrBuilder := savedMbrBuilder;
    }
  }

  class CaseStatementBuilder {
    const context: Context

    constructor (ctx: Context, key: Option<int>, ghost join: Ref)
      requires ctx.mbrBuilder != null && IsSwitch(ctx.heap, ctx.mbrBuilder.mbr, join) && Bounded(ctx.heap, ctx.next)
      requires RunsTo(ctx.run, ctx.heap, ctx.next)
      modifies ctx
      ensures RunsTo(ctx.run, ctx.heap, ctx.next) && ctx.mbrBuilder == old(ctx.mbrBuilder)
      ensures ctx.run == Extended(old(ctx.run), OpenCase(ctx.mbrBuilder.mbr, join, key), ctx.heap, ctx.next)
      ensures old(Orderly(ctx.run)) ==> Orderly(ctx.run)
      ensures context == ctx && ctx.ifBuilder == old(ctx.ifBuilder) && ctx.mbrBuilder == old(ctx.mbrBuilder)
      ensures OpenedCase(old(ctx.heap), ctx.heap, ctx.mbrBuilder.mbr, old(ctx.next), join, key)
      ensures var w := Ref(ctx.mbrBuilder.mbr, Whole);
        var MultiWay(value, arms, defaultArm, successor) := old(ctx.heap)[w].content;
        && w in ctx.heap && Ref(old(ctx.next), IfTrue) in ctx.heap
        && ctx.heap[w].content == MultiWay(value, [ArmEntry(old(ctx.next), key)] + arms,
                                           if key == None then Some(old(ctx.next)) else defaultArm, successor)
        && ctx.heap[Ref(old(ctx.next), IfTrue)] == Node(Some(w), Sequential([], Some(successor)))
      ensures ctx.next == old(ctx.next) + 1 && ctx.current == Some(Ref(old(ctx.next), IfTrue))
    {
      context := ctx;
      var mbr := Ref(ctx.mbrBuilder.mbr, Whole);
      var a := ctx.next;
      var MultiWay(value, arms, defaultArm, succ) := ctx.heap[mbr].content;
      ctx.AllocateParts(map[Ref(a, IfTrue) := Node(Some(mbr), Sequential([], Some(succ)))]);
      if key.None? {
        defaultArm := Some(a);
      }
      ctx.heap := ctx.heap[mbr := ctx.heap[mbr].(content := MultiWay(value, [ArmEntry(a, key)] + arms, defaultArm, succ))];
      ctx.current := Some(Ref(a, IfTrue));
      ctx.Record(OpenCase(ctx.mbrBuilder.mbr, join, key), old(ctx.heap), old(ctx.next));
    }

    method Close()
      modifies context`current
      ensures context.current == None
    {
      context.current := None;
    }
  }

  class LoopStatementBuilder {
    const context: Context
    const loop: nat
    const successor: Ref

    constructor (ctx: Context)
      requires ctx.Valid()
      modifies ctx
      ensures context == ctx
      ensures successor == Ref(old(ctx.next), Whole) && loop == old(ctx.next) + 1
      ensures Opened(old(ctx.heap), ctx.heap, old(ctx.current), old(ctx.next),
                     LoopParts(loop, old(ctx.current), successor, None, []))
      ensures RunsTo(ctx.run, ctx.heap, ctx.next)
      ensures ctx.run == Extended(old(ctx.run), OpenLoop(old(ctx.current)), ctx.heap, ctx.next)
      ensures old(Orderly(ctx.run)) && MayCall(old(ctx.heap), OpenLoop(old(ctx.current))) ==> Orderly(ctx.run)
      ensures ctx.next == old(ctx.next) + 2 && ctx.current == Some(Ref(loop, Init))
      ensures ctx.mbrBuilder == old(ctx.mbrBuilder) && ctx.ifBuilder == old(ctx.ifBuilder)
    {
      hide RunsTo, Orderly, MayCall, Opened, JoinMade, Extended, Bounded;
      context := ctx;
      var join := ctx.MakeJoin();
      var a := ctx.next;
      ctx.LinkParts(a, LoopParts(a, ctx.current, join, None, []), Ref(a, Init), old(ctx.heap));
      ctx.Record(OpenLoop(old(ctx.current)), old(ctx.heap), old(ctx.next));
      successor := join;
      loop := a;
    }

    method InitDone()
      modifies context`current
      ensures context.current == Some(Ref(loop, Condition))
    {
      context.current := Some(Ref(loop, Condition));
    }

    method SetCondition(value: nat)
      requires Ref(loop, Whole) in context.heap && RunsTo(context.run, context.heap, context.next)
      modifies context`heap, context`current, context`run
      ensures RunsTo(context.run, context.heap, context.next)
      ensures context.run == Extended(old(context.run), Call.SetCondition(loop, value), context.heap, context.next)
      ensures old(Orderly(context.run)) ==> Orderly(context.run)
      ensures context.heap == old(context.heap)[Ref(loop, Whole) := WithValue(old(context.heap)[Ref(loop, Whole)], value)]
      ensures context.current == Some(Ref(loop, Update))
    {
      context.SetValue(loop, value);
      context.current := Some(Ref(loop, Update));
    }

    method UpdateDone()
      modifies context`current
      ensures context.current == Some(Ref(loop, Body))
    {
      context.current := Some(Ref(loop, Body));
    }

    method Close()
      modifies context`current
      ensures context.current == Some(successor)
    {
      context.current := Some(successor);
    }
  }
}
