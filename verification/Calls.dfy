/** What single calls of the builders do to memory, and the runs that calls make up. */
module Calls {
  import opened Mir
  import opened Lowering

  /** A new context. */
  function EmptyHeap(): Heap {
    map[ENTRY := Node(None, Sequential([], Some(EXIT))), EXIT := Node(Some(ENTRY), Sequential([], None))]
  }

  function WithValue(n: Node, value: nat): Node {
    n.(content := match n.content
                  case Sequential(_, _) => n.content
                  case Conditional(_, join) => Conditional(Some(value), join)
                  case MultiWay(_, arms, defaultArm, join) => MultiWay(Some(value), arms, defaultArm, join)
                  case Loop(_, join) => Loop(Some(value), join))
  }

  /** One call of a builder or of `EmitInstruction`. The first three splice a construct in after the current
      block, if there is one. */
  datatype Call =
    | OpenIf(current: Option<Ref>)
    | OpenSwitch(current: Option<Ref>)
    | OpenLoop(current: Option<Ref>)
    | OpenCase(switchBase: nat, join: Ref, key: Option<int>)
    | SetCondition(base: nat, value: nat)
    | EmitCode(block: Ref, op: Operation)

  /** What a call does to memory `h`, in which addresses from `n` on are free. */
  ghost predicate CallStep(h: Heap, n: nat, call: Call, h': Heap, n': nat) {
    match call
    case OpenIf(b) => n' == n + 2 && Opened(h, h', b, n, IfParts(n + 1, b, Ref(n, Whole), None, []))
    case OpenSwitch(b) => n' == n + 2 && Opened(h, h', b, n, SwitchParts(n + 1, b, Ref(n, Whole), None, []))
    case OpenLoop(b) => n' == n + 2 && Opened(h, h', b, n, LoopParts(n + 1, b, Ref(n, Whole), None, []))
    case OpenCase(a, join, key) => IsSwitch(h, a, join) && n' == n + 1 && OpenedCase(h, h', a, n, join, key)
    case SetCondition(a, value) =>
      Ref(a, Whole) in h && n' == n && h' == h[Ref(a, Whole) := WithValue(h[Ref(a, Whole)], value)]
    case EmitCode(b, op) => IsBlock(h, b) && n' == n + 1 && h' == h[b := WithCode(h[b], Instruction(n, op))]
  }

  /** Control may be spliced into a block that has a continuation: not into a condition, nor the exit. */
  ghost predicate MaySplice(h: Heap, r: Ref) {
    IsOpen(h, r) && Successor(h, r).Some?
  }

  /** The order of calls that the macros enforce: constructs are opened where a line of control goes on. */
  ghost predicate MayCall(h: Heap, call: Call) {
    match call
    case OpenIf(b) => b.Some? && MaySplice(h, b.value)
    case OpenSwitch(b) => b.Some? && MaySplice(h, b.value)
    case OpenLoop(b) => b.Some? && MaySplice(h, b.value)
    case _ => true
  }

  // ----- runs -----

  datatype Moment = Moment(heap: Heap, next: nat)

  /** Calls, and memory before, between and after them. */
  datatype Run = Run(moments: seq<Moment>, calls: seq<Call>)

  function NewRun(): Run {
    Run([Moment(EmptyHeap(), CONTEXT + 1)], [])
  }

  function Extended(run: Run, call: Call, h: Heap, n: nat): Run {
    Run(run.moments + [Moment(h, n)], run.calls + [call])
  }

  /** A run from a new context to memory `h`. */
  ghost predicate RunsTo(run: Run, h: Heap, n: nat) {
    && |run.moments| == |run.calls| + 1 && run.moments[0] == NewRun().moments[0]
    && run.moments[|run.calls|] == Moment(h, n)
    && forall i | 0 <= i < |run.calls| ::
         CallStep(run.moments[i].heap, run.moments[i].next, run.calls[i], run.moments[i + 1].heap, run.moments[i + 1].next)
  }

  ghost predicate Orderly(run: Run) {
    |run.moments| == |run.calls| + 1 && forall i | 0 <= i < |run.calls| :: MayCall(run.moments[i].heap, run.calls[i])
  }

  lemma RunsOn(run: Run, h: Heap, n: nat, call: Call, h': Heap, n': nat)
    requires RunsTo(run, h, n) && CallStep(h, n, call, h', n')
    ensures RunsTo(Extended(run, call, h', n'), h', n')
    ensures Orderly(run) && MayCall(h, call) ==> Orderly(Extended(run, call, h', n'))
  {
    hide CallStep, MayCall;
    var run' := Extended(run, call, h', n');
    assert forall i | 0 <= i <= |run.calls| :: run'.moments[i] == run.moments[i];
    assert forall i | 0 <= i < |run.calls| :: run'.calls[i] == run.calls[i];
  }

  lemma NewRunIsRun()
    ensures RunsTo(NewRun(), EmptyHeap(), CONTEXT + 1) && Orderly(NewRun())
  {
  }
}
