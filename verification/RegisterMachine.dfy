/** The register machine of the language front end: an interpreter whose calls slide a window over a
    register file, and a program for it that computes Fibonacci numbers. */
module RegisterMachine {

  // ----- the machine -----

  /** Registers of a window. The eight that belong to a frame are followed by four that are the first
      registers of the next frame. */
  const I1 := 0
  const R1 := 4
  const R2 := 5
  const O1 := 8
  const NUM_REGS := 8
  const WINDOW := 12

  type Register = r: nat | r < WINDOW

  datatype Instruction =
    | AssignVal(dst: Register, value: int)
    | AssignReg(dst: Register, src: Register)
    | Add(dst: Register, left: Register, right: Register)
    | Inc(dst: Register, value: int)
    | JumpIfZero(src: Register, disp: int)
    | Call(disp: int, dst: Register)
    | Ret(src: Register)

  /** What one instruction does with the frame at `state`. `Stuck` stands for leaving the code or the
      register file, which the source does not define. */
  datatype Move = Goto(ins: int, regs: seq<int>) | Enter(ins: int, dst: Register) | Leave(value: int) | Stuck

  function Store(ins: int, regs: seq<int>, cell: nat, value: int): Move {
    if cell < |regs| then Goto(ins, regs[cell := value]) else Stuck
  }

  /** Displacements count from the following instruction. */
  function Step(code: seq<Instruction>, ins: int, regs: seq<int>, state: nat): Move {
    if !(0 <= ins < |code|) then Stuck
    else match code[ins]
      case AssignVal(d, v) => Store(ins + 1, regs, state + d, v)
      case AssignReg(d, s) => if state + s < |regs| then Store(ins + 1, regs, state + d, regs[state + s]) else Stuck
      case Add(d, l, r) =>
        if state + l < |regs| && state + r < |regs| then
          Store(ins + 1, regs, state + d, regs[state + l] + regs[state + r])
        else Stuck
      case Inc(d, v) => if state + d < |regs| then Store(ins + 1, regs, state + d, regs[state + d] + v) else Stuck
      case JumpIfZero(s, disp) =>
        if state + s < |regs| then Goto(if regs[state + s] == 0 then ins + 1 + disp else ins + 1, regs) else Stuck
      case Call(disp, d) => Enter(ins + 1 + disp, d)
      case Ret(s) => if state + s < |regs| then Leave(regs[state + s]) else Stuck
  }

  datatype Outcome = Returned(value: int, regs: seq<int>) | Fault | OutOfFuel

  /** Evaluation from `ins` to the matching RET. */
  function Run(code: seq<Instruction>, ins: int, regs: seq<int>, state: nat, fuel: nat): Outcome
    decreases fuel, 0
  {
    if fuel == 0 then OutOfFuel else After(code, ins, Step(code, ins, regs, state), regs, state, fuel - 1)
  }

  function After(code: seq<Instruction>, ins: int, move: Move, regs: seq<int>, state: nat, fuel: nat): Outcome
    decreases fuel, 2
  {
    match move
    case Goto(next, regs') => Run(code, next, regs', state, fuel)
    case Enter(callee, d) => Resume(code, ins + 1, Run(code, callee, regs, state + NUM_REGS, fuel), d, state, fuel)
    case Leave(v) => Returned(v, regs)
    case Stuck => Fault
  }

  /** After a call. */
  function Resume(code: seq<Instruction>, next: int, out: Outcome, dst: Register, state: nat, fuel: nat): Outcome
    decreases fuel, 1
  {
    if out.Returned? && state + dst < |out.regs| then
      Run(code, next, out.regs[state + dst := out.value], state, fuel)
    else if out.Returned? then Fault else out
  }

  // ----- facts about every program -----

  lemma RunStep(code: seq<Instruction>, ins: int, regs: seq<int>, state: nat, n: nat)
    ensures var out := Run(code, ins, regs, state, n);
      if n == 0 then out == OutOfFuel
      else match Step(code, ins, regs, state)
      case Goto(next, regs') => out == Run(code, next, regs', state, n - 1)
      case Enter(callee, d) =>
        var inner := Run(code, callee, regs, state + NUM_REGS, n - 1);
        if inner.Returned? && state + d < |inner.regs| then
          out == Run(code, ins + 1, inner.regs[state + d := inner.value], state, n - 1)
        else out == if inner.Returned? then Fault else inner
      case Leave(v) => out == Returned(v, regs)
      case Stuck => out == Fault
  {
    if n > 0 {
      match Step(code, ins, regs, state)
      case Enter(callee, d) =>
        var inner := Run(code, callee, regs, state + NUM_REGS, n - 1);
        assert Run(code, ins, regs, state, n) == Resume(code, ins + 1, inner, d, state, n - 1);
      case _ =>
    }
  }

  /** What each instruction does, in a register file with room for the window: `r` is the register file as seen
      from the frame. */
  lemma InstructionsRun(code: seq<Instruction>, ins: int, regs: seq<int>, state: nat, n: nat)
    requires 0 <= ins < |code| && state + 12 <= |regs| && n > 0
    ensures var out, r := Run(code, ins, regs, state, n), regs[state..];
      match code[ins]
      case AssignVal(d, v) => out == Run(code, ins + 1, regs[state + d := v], state, n - 1)
      case AssignReg(d, s) => out == Run(code, ins + 1, regs[state + d := r[s]], state, n - 1)
      case Add(d, left, right) => out == Run(code, ins + 1, regs[state + d := r[left] + r[right]], state, n - 1)
      case Inc(d, v) => out == Run(code, ins + 1, regs[state + d := r[d] + v], state, n - 1)
      case JumpIfZero(s, disp) =>
        && (r[s] == 0 ==> out == Run(code, ins + 1 + disp, regs, state, n - 1))
        && (r[s] != 0 ==> out == Run(code, ins + 1, regs, state, n - 1))
      case Call(disp, d) =>
        var inner := Run(code, ins + 1 + disp, regs, state + 8, n - 1);
        && (inner.Returned? && |inner.regs| == |regs| ==>
              out == Run(code, ins + 1, inner.regs[state + d := inner.value], state, n - 1))
        && (!inner.Returned? ==> out == inner)
      case Ret(s) => out == Returned(r[s], regs)
  {
    RunStep(code, ins, regs, state, n);
    hide Run;
  }

  /** More fuel does not change an outcome. */
  lemma {:induction false} FuelSuffices(code: seq<Instruction>, ins: int, regs: seq<int>, state: nat, n: nat, n': nat)
    requires n <= n' && Run(code, ins, regs, state, n) != OutOfFuel
    ensures Run(code, ins, regs, state, n') == Run(code, ins, regs, state, n)
    decreases n
  {
    RunStep(code, ins, regs, state, n);
    RunStep(code, ins, regs, state, n');
    hide Step, Store, Run;
    match Step(code, ins, regs, state)
    case Goto(next, regs') => FuelSuffices(code, next, regs', state, n - 1, n' - 1);
    case Enter(callee, d) =>
      FuelSuffices(code, callee, regs, state + NUM_REGS, n - 1, n' - 1);
      var out := Run(code, callee, regs, state + NUM_REGS, n - 1);
      if out.Returned? && state + d < |out.regs| {
        FuelSuffices(code, ins + 1, out.regs[state + d := out.value], state, n - 1, n' - 1);
      }
    case Leave(_) =>
    case Stuck =>
  }

  /** The outcome of a run on a part of a register file, seen as an outcome on the whole. */
  function Inside(low: seq<int>, out: Outcome, high: seq<int>): Outcome {
    match out
    case Returned(v, regs) => Returned(v, low + regs + high)
    case Fault => Fault
    case OutOfFuel => OutOfFuel
  }

  function MoveInside(low: seq<int>, move: Move, high: seq<int>): Move {
    match move
    case Goto(ins, regs) => Goto(ins, low + regs + high)
    case Enter(ins, d) => Enter(ins, d)
    case Leave(v) => Leave(v)
    case Stuck => Stuck
  }

  lemma CellInside(low: seq<int>, regs: seq<int>, high: seq<int>, cell: nat)
    ensures cell < |regs| ==> (low + regs + high)[|low| + cell] == regs[cell]
    ensures high == [] && cell >= |regs| ==> |low| + cell >= |low + regs + high|
  {
  }

  lemma StoreInside(ins: int, low: seq<int>, regs: seq<int>, high: seq<int>, cell: nat, value: int)
    requires high == [] || cell < |regs|
    ensures Store(ins, low + regs + high, |low| + cell, value) == MoveInside(low, Store(ins, regs, cell, value), high)
  {
    if cell < |regs| {
      assert (low + regs + high)[|low| + cell := value] == low + regs[cell := value] + high;
    }
  }

  lemma StepInside(code: seq<Instruction>, ins: int, low: seq<int>, regs: seq<int>, high: seq<int>, state: nat)
    requires high == [] || Step(code, ins, regs, state) != Stuck
    ensures Step(code, ins, low + regs + high, |low| + state) == MoveInside(low, Step(code, ins, regs, state), high)
  {
    if 0 <= ins < |code| {
      match code[ins]
      case AssignVal(d, v) => StoreInside(ins + 1, low, regs, high, state + d, v);
      case AssignReg(d, s) =>
        CellInside(low, regs, high, state + s);
        if state + s < |regs| {
          StoreInside(ins + 1, low, regs, high, state + d, regs[state + s]);
        }
      case Add(d, l, r) =>
        CellInside(low, regs, high, state + l);
        CellInside(low, regs, high, state + r);
        if state + l < |regs| && state + r < |regs| {
          StoreInside(ins + 1, low, regs, high, state + d, regs[state + l] + regs[state + r]);
        }
      case Inc(d, v) =>
        CellInside(low, regs, high, state + d);
        if state + d < |regs| {
          StoreInside(ins + 1, low, regs, high, state + d, regs[state + d] + v);
        }
      case JumpIfZero(s, _) => CellInside(low, regs, high, state + s);
      case Call(_, _) =>
      case Ret(s) => CellInside(low, regs, high, state + s);
    }
  }

  /** Register windows are isolated, whatever the program: a run neither reads nor writes a cell below
      the frame it starts in, and one that does not fault neither reads nor writes a cell beyond the file
      it was given. Hence a run may be moved to any place in a larger register file. */
  lemma {:induction false} WindowsAreIsolated(code: seq<Instruction>, ins: int, low: seq<int>, regs: seq<int>,
                                              high: seq<int>, state: nat, n: nat)
    requires high == [] || Run(code, ins, regs, state, n) != Fault
    ensures Run(code, ins, low + regs + high, |low| + state, n) == Inside(low, Run(code, ins, regs, state, n), high)
    decreases n, 0
  {
    if n > 0 {
      hide Step, After;
      StepInside(code, ins, low, regs, high, state) by {
        Unstuck(code, ins, regs, state, n);
      }
      AfterInside(code, ins, low, Step(code, ins, regs, state), regs, high, state, n - 1);
    }
  }

  lemma Unstuck(code: seq<Instruction>, ins: int, regs: seq<int>, state: nat, n: nat)
    requires n > 0
    ensures Step(code, ins, regs, state) == Stuck ==> Run(code, ins, regs, state, n) == Fault
  {
  }

  lemma {:induction false} AfterInside(code: seq<Instruction>, ins: int, low: seq<int>, move: Move, regs: seq<int>,
                                       high: seq<int>, state: nat, n: nat)
    requires high == [] || After(code, ins, move, regs, state, n) != Fault
    ensures After(code, ins, MoveInside(low, move, high), low + regs + high, |low| + state, n)
         == Inside(low, After(code, ins, move, regs, state, n), high)
    decreases n, 2
  {
    match move
    case Goto(next, regs') =>
      WindowsAreIsolated(code, next, low, regs', high, state, n);
    case Enter(callee, d) =>
      hide Run;
      WindowsAreIsolated(code, callee, low, regs, high, state + NUM_REGS, n);
      assert |low| + (state + NUM_REGS) == |low| + state + NUM_REGS;
      ResumeInside(code, ins + 1, low, Run(code, callee, regs, state + NUM_REGS, n), high, d, state, n);
    case Leave(_) =>
    case Stuck =>
  }

  lemma {:induction false} ResumeInside(code: seq<Instruction>, next: int, low: seq<int>, out: Outcome, high: seq<int>,
                                        d: Register, state: nat, n: nat)
    requires high == [] || Resume(code, next, out, d, state, n) != Fault
    ensures Resume(code, next, Inside(low, out, high), d, |low| + state, n)
         == Inside(low, Resume(code, next, out, d, state, n), high)
    decreases n, 1
  {
    hide Run;
    if out.Returned? && state + d < |out.regs| {
      assert (low + out.regs + high)[|low| + state + d := out.value] == low + out.regs[state + d := out.value] + high;
      WindowsAreIsolated(code, next, low, out.regs[state + d := out.value], high, state, n);
    }
  }

  /** The register file keeps its size. */
  lemma {:induction false} SizeKept(code: seq<Instruction>, ins: int, regs: seq<int>, state: nat, n: nat)
    requires Run(code, ins, regs, state, n).Returned?
    ensures |Run(code, ins, regs, state, n).regs| == |regs|
    decreases n
  {
    RunStep(code, ins, regs, state, n);
    hide Run;
    match Step(code, ins, regs, state)
    case Goto(next, regs') => SizeKept(code, next, regs', state, n - 1);
    case Enter(callee, d) =>
      SizeKept(code, callee, regs, state + NUM_REGS, n - 1);
      var out := Run(code, callee, regs, state + NUM_REGS, n - 1);
      SizeKept(code, ins + 1, out.regs[state + d := out.value], state, n - 1);
    case Leave(_) =>
  }

  // ----- the interpreter -----

  /** The loop of the source. It needs no fuel: the ghost parameter bounds how long it will take. */
  method Eval(code: seq<Instruction>, start: int, regs: array<int>, state: nat, ghost fuel: nat) returns (value: int)
    requires Run(code, start, regs[..], state, fuel).Returned?
    modifies regs
    ensures Run(code, start, old(regs[..]), state, fuel) == Returned(value, regs[..])
    decreases fuel
  {
    hide Run;
    var ins := start;
    ghost var n: nat := fuel;
    while true
      invariant n <= fuel
      invariant Run(code, ins, regs[..], state, n) == Run(code, start, old(regs[..]), state, fuel)
      decreases n
    {
      RunStep(code, ins, regs[..], state, n);
      var instruction := code[ins];
      ins := ins + 1;
      n := n - 1;
      match instruction {
        case AssignVal(d, v) => regs[state + d] := v;
        case AssignReg(d, s) => regs[state + d] := regs[state + s];
        case Add(d, l, r) => regs[state + d] := regs[state + l] + regs[state + r];
        case Inc(d, v) => regs[state + d] := regs[state + d] + v;
        case JumpIfZero(s, disp) =>
          if regs[state + s] == 0 {
            ins := ins + disp;
          }
        case Call(disp, d) =>
          var result := Eval(code, ins + disp, regs, state + NUM_REGS, n);
          regs[state + d] := result;
        case Ret(s) => return regs[state + s];
      }
    }
  }

  // ----- the Fibonacci program -----

  function Fib(i: nat): nat {
    if i == 0 then 1 else if i == 1 then 1 else Fib(i - 1) + Fib(i - 2)
  }

  const FIBONNACI := [
    JumpIfZero(I1, 9),
    Inc(I1, -1),
    JumpIfZero(I1, 7),
    AssignReg(O1, I1),
    Call(-5, R1),
    Inc(I1, -1),
    AssignReg(O1, I1),
    Call(-8, R2),
    Add(R1, R1, R2),
    Ret(R1),
    AssignVal(R1, 1),
    Ret(R1)
  ]

  /** The number of registers that a run with argument `i` reaches. */
  function Space(i: nat): nat {
    if i <= 1 then R1 + 1 else NUM_REGS * (i - 1) + R1 + 1
  }

  function Fuel(i: nat): nat {
    8 * i + 8
  }

  function RunFib(regs: seq<int>, n: nat): Outcome {
    Run(FIBONNACI, 0, regs, 0, n)
  }

  /** A call of the program in the next frame. */
  lemma NextFrame(regs: seq<int>, n: nat)
    requires |regs| >= NUM_REGS
    ensures Run(FIBONNACI, 0, regs, NUM_REGS, n) == Inside(regs[..NUM_REGS], RunFib(regs[NUM_REGS..], n), [])
  {
    assert regs[..NUM_REGS] + regs[NUM_REGS..] + [] == regs;
    WindowsAreIsolated(FIBONNACI, 0, regs[..NUM_REGS], regs[NUM_REGS..], [], 0, n);
  }

  /** The code at the end that returns 1. */
  lemma LastSteps(regs: seq<int>, n: nat)
    requires n >= 2
    ensures Run(FIBONNACI, 10, regs, 0, n) == if R1 < |regs| then Returned(1, regs[R1 := 1]) else Fault
  {
    RunStep(FIBONNACI, 10, regs, 0, n);
    if R1 < |regs| {
      RunStep(FIBONNACI, 11, regs[R1 := 1], 0, n - 1);
    }
  }

  lemma LeafRuns(i: nat, regs: seq<int>, n: nat)
    requires i <= 1 && |regs| > 0 && regs[0] == i && n >= Fuel(i)
    ensures |regs| < Space(i) ==> RunFib(regs, n) == Fault
    ensures |regs| >= Space(i) ==> RunFib(regs, n).Returned? && RunFib(regs, n).value == 1
  {
    if i == 0 {
      RunStep(FIBONNACI, 0, regs, 0, n);
      LastSteps(regs, n - 1);
    } else {
      RunStep(FIBONNACI, 0, regs, 0, n);
      RunStep(FIBONNACI, 1, regs, 0, n - 1);
      RunStep(FIBONNACI, 2, regs[I1 := 0], 0, n - 2);
      LastSteps(regs[I1 := 0], n - 3);
    }
  }

  /** The program on a window of its own: it returns the Fibonacci number when the window has room, and
      runs off the end of the window when it has not. */
  lemma {:induction false} FibRuns(i: nat, regs: seq<int>, n: nat)
    requires |regs| > 0 && regs[0] == i && n >= Fuel(i)
    ensures |regs| < Space(i) ==> RunFib(regs, n) == Fault
    ensures |regs| >= Space(i) ==> RunFib(regs, n).Returned? && RunFib(regs, n).value == Fib(i)
    decreases i
  {
    if i <= 1 {
      LeafRuns(i, regs, n);
    } else {
      FirstCall(i, regs, n);
      if |regs| > NUM_REGS {
        var regs1 := regs[I1 := i - 1][O1 := i - 1];
        FibRuns(i - 1, regs1[NUM_REGS..], n - 5);
        if |regs| >= Space(i) {
          var inner := RunFib(regs1[NUM_REGS..], n - 5);
          SizeKept(FIBONNACI, 0, regs1[NUM_REGS..], 0, n - 5);
          var regs2 := regs1[..NUM_REGS][R1 := Fib(i - 1)] + inner.regs;
          SecondCall(i, regs2, n - 5);
          FibRuns(i - 2, regs2[I1 := i - 2][O1 := i - 2][NUM_REGS..], n - 8);
        }
      }
    }
  }

  /** From the start to the first call, and what that call's outcome leads to. */
  lemma FirstCall(i: nat, regs: seq<int>, n: nat)
    requires i > 1 && |regs| > 0 && regs[0] == i && n >= Fuel(i)
    ensures |regs| <= NUM_REGS ==> RunFib(regs, n) == Fault
    ensures |regs| > NUM_REGS ==>
      var regs1 := regs[I1 := i - 1][O1 := i - 1];
      var inner := RunFib(regs1[NUM_REGS..], n - 5);
      if inner.Returned? then
        RunFib(regs, n) == Run(FIBONNACI, 5, regs1[..NUM_REGS][R1 := inner.value] + inner.regs, 0, n - 5)
      else RunFib(regs, n) == inner
  {
    RunStep(FIBONNACI, 0, regs, 0, n);
    RunStep(FIBONNACI, 1, regs, 0, n - 1);
    RunStep(FIBONNACI, 2, regs[I1 := i - 1], 0, n - 2);
    RunStep(FIBONNACI, 3, regs[I1 := i - 1], 0, n - 3);
    if |regs| > NUM_REGS {
      CallStep(4, -5, R1, regs[I1 := i - 1][O1 := i - 1], n - 4);
    }
  }

  /** A call of the program from within it. */
  lemma CallStep(ins: nat, disp: int, d: Register, regs: seq<int>, n: nat)
    requires ins < |FIBONNACI| && FIBONNACI[ins] == Call(disp, d) && ins + 1 + disp == 0
    requires n > 0 && |regs| > NUM_REGS > d
    ensures var inner := RunFib(regs[NUM_REGS..], n - 1);
      Run(FIBONNACI, ins, regs, 0, n)
        == if inner.Returned? then Run(FIBONNACI, ins + 1, regs[..NUM_REGS][d := inner.value] + inner.regs, 0, n - 1) else inner
  {
    RunStep(FIBONNACI, ins, regs, 0, n);
    NextFrame(regs, n - 1);
    var inner := RunFib(regs[NUM_REGS..], n - 1);
    if inner.Returned? {
      assert (regs[..NUM_REGS] + inner.regs + [])[d := inner.value] == regs[..NUM_REGS][d := inner.value] + inner.regs;
    }
  }

  /** From the first call's return to the end. */
  lemma SecondCall(i: nat, regs: seq<int>, n: nat)
    requires i > 1 && |regs| > NUM_REGS && regs[I1] == i - 1 && n >= 5
    ensures var regs1 := regs[I1 := i - 2][O1 := i - 2];
      var inner := RunFib(regs1[NUM_REGS..], n - 3);
      inner.Returned? ==> var out := Run(FIBONNACI, 5, regs, 0, n); out.Returned? && out.value == regs[R1] + inner.value
  {
    RunStep(FIBONNACI, 5, regs, 0, n);
    RunStep(FIBONNACI, 6, regs[I1 := i - 2], 0, n - 1);
    var regs1 := regs[I1 := i - 2][O1 := i - 2];
    CallStep(7, -8, R2, regs1, n - 2);
    var inner := RunFib(regs1[NUM_REGS..], n - 3);
    if inner.Returned? {
      var regs2 := regs1[..NUM_REGS][R2 := inner.value] + inner.regs;
      RunStep(FIBONNACI, 8, regs2, 0, n - 3);
      RunStep(FIBONNACI, 9, regs2[R1 := regs2[R1] + regs2[R2]], 0, n - 4);
    }
  }

  /** Correctness and space: wherever its frame lies in the register file, the program returns the
      Fibonacci number of its argument, and neither reads nor writes any register outside the window of
      `Space(i)` registers that begins at its frame. */
  lemma FibonnaciIsCorrect(low: seq<int>, window: seq<int>, high: seq<int>, i: nat, n: nat)
    requires |window| == Space(i) && window[I1] == i && n >= Fuel(i)
    ensures var inner := RunFib(window, n);
      && inner == RunFib(window, Fuel(i)) && inner.Returned? && inner.value == Fib(i) && |inner.regs| == |window|
      && Run(FIBONNACI, 0, low + window + high, |low|, n) == Returned(Fib(i), low + inner.regs + high)
  {
    FibRuns(i, window, Fuel(i));
    FuelSuffices(FIBONNACI, 0, window, 0, Fuel(i), n);
    SizeKept(FIBONNACI, 0, window, 0, n);
    WindowsAreIsolated(FIBONNACI, 0, low, window, high, 0, n);
  }

  /** Less room than that, and the program leaves the register file. */
  lemma SpaceIsNeeded(low: seq<int>, window: seq<int>, i: nat, n: nat)
    requires 0 < |window| < Space(i) && window[I1] == i && n >= Fuel(i)
    ensures Run(FIBONNACI, 0, low + window, |low|, n) == Fault
  {
    FibRuns(i, window, n);
    WindowsAreIsolated(FIBONNACI, 0, low, window, [], 0, n);
    assert low + window + [] == low + window;
  }

  /** The static register file has room exactly for arguments up to 120. */
  const REGISTER_FILE_SIZE := 4 * NUM_REGS * 30

  lemma SpaceBound(i: nat)
    ensures Space(i) <= NUM_REGS * (if i < 1 then 1 else i)
    ensures Space(i) <= REGISTER_FILE_SIZE <==> i <= 120
  {
  }

  // ----- 32-bit results -----

  lemma {:induction false} FibGrows(i: nat, j: nat)
    requires i <= j
    ensures Fib(i) <= Fib(j)
    decreases j
  {
    if i < j && j > 1 {
      FibGrows(i, j - 1);
    }
  }

  lemma FiveOn(n: nat, a: nat, b: nat)
    requires Fib(n) == a && Fib(n + 1) == b
    ensures Fib(n + 5) == 3 * a + 5 * b && Fib(n + 6) == 5 * a + 8 * b
  {
    assert Fib(n + 2) == a + b && Fib(n + 3) == a + 2 * b && Fib(n + 4) == 2 * a + 3 * b;
  }

  lemma FibValues()
    ensures Fib(45) == 1836311903 && Fib(46) == 2971215073
  {
    assert Fib(0) == 1 && Fib(1) == 1;
    hide Fib;
    FiveOn(0, 1, 1);
    FiveOn(5, 8, 13);
    FiveOn(10, 89, 144);
    FiveOn(15, 987, 1597);
    FiveOn(20, 10946, 17711);
    FiveOn(25, 121393, 196418);
    FiveOn(30, 1346269, 2178309);
    FiveOn(35, 14930352, 24157817);
    FiveOn(40, 165580141, 267914296);
  }

  /** The result fits a 32-bit integer exactly for arguments up to 45. */
  lemma FibFits(i: nat)
    ensures Fib(i) < 0x8000_0000 <==> i <= 45
  {
    FibValues();
    if i <= 45 {
      FibGrows(i, 45);
    } else {
      FibGrows(46, i);
    }
  }

  /** The driver of the source: set the argument in the frame, then evaluate. */
  method EvalFib(regs: array<int>, frame: nat, i: nat) returns (value: int)
    requires frame + Space(i) <= regs.Length
    modifies regs
    ensures Run(FIBONNACI, 0, old(regs[..])[frame + I1 := i], frame, Fuel(i)) == Returned(value, regs[..])
    ensures value == Fib(i)
    ensures forall cell | 0 <= cell < regs.Length && !(frame <= cell < frame + Space(i)) :: regs[cell] == old(regs[cell])
  {
    regs[frame + I1] := i;
    assert regs[..] == old(regs[..])[frame + I1 := i];
    ghost var low, window, high := regs[..frame], regs[frame..frame + Space(i)], regs[frame + Space(i)..];
    assert regs[..] == low + window + high;
    FibonnaciIsCorrect(low, window, high, i, Fuel(i));
    value := Eval(FIBONNACI, 0, regs, frame, Fuel(i));
    ghost var inner := RunFib(window, Fuel(i));
    assert regs[..] == low + inner.regs + high;
    assert forall cell | 0 <= cell < regs.Length :: regs[cell] == (low + inner.regs + high)[cell];
  }
}
