/** What programs mean, without counting iterations: the laws by which one would reason about a program. */
module Laws {
  import opened Mir
  import opened Hir
  import opened Shape
  import opened Execution

  // ----- straight-line code -----

  /** Operations are executed one after the other, from the first to the last. */
  lemma {:induction false} CodeInOrder<S>(m: Machine<S>, a: seq<Operation>, b: seq<Operation>, op: Operation, s: S)
    ensures Exec(m, [], s) == s && Exec(m, [op], s) == m.exec(op, s)
    ensures Exec(m, a + b, s) == Exec(m, b, Exec(m, a, s))
    decreases |a|
  {
    if a == [] {
      assert a + b == b;
    } else {
      assert (a + b)[1..] == a[1..] + b;
      CodeInOrder(m, a[1..], b, op, m.exec(a[0], s));
    }
  }

  // ----- more iterations change nothing -----

  lemma {:induction false} EvalMore<S>(m: Machine<S>, p: Prog, s: S, k: nat, k': nat)
    requires k <= k' && Eval(m, p, s, k).Some?
    ensures Eval(m, p, s, k') == Eval(m, p, s, k)
    decreases k, p, 0
  {
    if p.Cons? {
      EvalStmtMore(m, p.head, s, k, k');
      EvalMore(m, p.tail, EvalStmt(m, p.head, s, k).value, k, k');
    }
  }

  lemma {:induction false} EvalStmtMore<S>(m: Machine<S>, st: Stmt, s: S, k: nat, k': nat)
    requires k <= k' && EvalStmt(m, st, s, k).Some?
    ensures EvalStmt(m, st, s, k') == EvalStmt(m, st, s, k)
    decreases k, st, 1
  {
    match st
    case Emit(_) =>
    case If(cond, value, thn, els) =>
      var s' := Exec(m, cond, s);
      EvalMore(m, if m.read(value, s') != 0 then thn else els, s', k, k');
    case Switch(cond, value, cases) =>
      var s' := Exec(m, cond, s);
      SelectSmaller(cases, m.read(value, s'));
      if Select(cases, m.read(value, s')) != Nil {
        EvalMore(m, Select(cases, m.read(value, s')), s', k, k');
      }
    case For(init, cond, value, update, body) =>
      EvalMore(m, init, s, k, k');
      EvalLoopMore(m, cond, value, update, body, Eval(m, init, s, k).value, k, k');
  }

  lemma {:induction false} EvalLoopMore<S>(m: Machine<S>, cond: seq<Operation>, value: nat, update: Prog, body: Prog, s: S,
                                          k: nat, k': nat)
    requires k <= k' && EvalLoop(m, cond, value, update, body, s, k).Some?
    ensures EvalLoop(m, cond, value, update, body, s, k') == EvalLoop(m, cond, value, update, body, s, k)
    decreases k, body, 0
  {
    var s' := Exec(m, cond, s);
    if m.read(value, s') != 0 {
      EvalMore(m, body, s', k - 1, k' - 1);
      var s1 := Eval(m, body, s', k - 1).value;
      EvalMore(m, update, s1, k - 1, k' - 1);
      EvalLoopMore(m, cond, value, update, body, Eval(m, update, s1, k - 1).value, k - 1, k' - 1);
    }
  }

  /** A program halts in at most one state. */
  lemma HaltsOnce<S>(m: Machine<S>, p: Prog, s: S, s1: S, s2: S)
    requires ProgramHalts(m, p, s, s1) && ProgramHalts(m, p, s, s2)
    ensures s1 == s2
  {
    var k: nat :| Eval(m, p, s, k) == Some(s1);
    var k': nat :| Eval(m, p, s, k') == Some(s2);
    if k <= k' {
      EvalMore(m, p, s, k, k');
    } else {
      EvalMore(m, p, s, k', k);
    }
  }

  lemma HaltsBy<S>(m: Machine<S>, p: Prog, s: S, s': S, k: nat)
    requires Eval(m, p, s, k) == Some(s')
    ensures ProgramHalts(m, p, s, s')
  {
  }

  // ----- the laws -----

  lemma NothingHalts<S>(m: Machine<S>, s: S, s': S)
    ensures ProgramHalts(m, Nil, s, s') <==> s' == s
  {
    assert Eval(m, Nil, s, 0) == Some(s);
  }

  lemma EmitHalts<S>(m: Machine<S>, op: Operation, s: S, s': S)
    ensures ProgramHalts(m, Cons(Emit(op), Nil), s, s') <==> s' == m.exec(op, s)
  {
    assert Eval(m, Cons(Emit(op), Nil), s, 0) == Some(m.exec(op, s));
    forall k: nat ensures Eval(m, Cons(Emit(op), Nil), s, k) == Some(m.exec(op, s)) {
    }
  }

  /** One statement after the other. */
  lemma SequenceHalts<S>(m: Machine<S>, st: Stmt, rest: Prog, s: S, s': S)
    ensures ProgramHalts(m, Cons(st, rest), s, s') <==>
            exists s1 :: ProgramHalts(m, Cons(st, Nil), s, s1) && ProgramHalts(m, rest, s1, s')
  {
    if ProgramHalts(m, Cons(st, rest), s, s') {
      var k: nat :| Eval(m, Cons(st, rest), s, k) == Some(s');
      var s1 := EvalStmt(m, st, s, k).value;
      assert Eval(m, Nil, s1, k) == Some(s1);
      HaltsBy(m, Cons(st, Nil), s, s1, k);
      HaltsBy(m, rest, s1, s', k);
    }
    if s1 :| ProgramHalts(m, Cons(st, Nil), s, s1) && ProgramHalts(m, rest, s1, s') {
      var k: nat :| Eval(m, Cons(st, Nil), s, k) == Some(s1);
      var k': nat :| Eval(m, rest, s1, k') == Some(s');
      var n := if k <= k' then k' else k;
      OneStatement(m, st, s, k);
      EvalStmtMore(m, st, s, k, n);
      EvalMore(m, rest, s1, k', n);
      HaltsBy(m, Cons(st, rest), s, s', n);
    }
  }

  lemma OneStatement<S>(m: Machine<S>, st: Stmt, s: S, k: nat)
    ensures Eval(m, Cons(st, Nil), s, k) == EvalStmt(m, st, s, k)
  {
  }

  /** The first branch is taken on a value other than zero, the second one on zero. */
  lemma IfHalts<S>(m: Machine<S>, cond: seq<Operation>, value: nat, thn: Prog, els: Prog, s: S, s': S)
    ensures var s1 := Exec(m, cond, s); var p := Cons(If(cond, value, thn, els), Nil);
      && (m.read(value, s1) != 0 ==> (ProgramHalts(m, p, s, s') <==> ProgramHalts(m, thn, s1, s')))
      && (m.read(value, s1) == 0 ==> (ProgramHalts(m, p, s, s') <==> ProgramHalts(m, els, s1, s')))
  {
    var s1 := Exec(m, cond, s);
    forall k: nat
      ensures Eval(m, Cons(If(cond, value, thn, els), Nil), s, k)
           == if m.read(value, s1) != 0 then Eval(m, thn, s1, k) else Eval(m, els, s1, k)
    {
      OneStatement(m, If(cond, value, thn, els), s, k);
    }
    hide Eval, Exec;
    SameHalts(m, Cons(If(cond, value, thn, els), Nil), s, if m.read(value, s1) != 0 then thn else els, s1, s');
  }

  lemma SameHalts<S>(m: Machine<S>, p: Prog, s: S, q: Prog, s1: S, s': S)
    requires forall k: nat :: Eval(m, p, s, k) == Eval(m, q, s1, k)
    ensures ProgramHalts(m, p, s, s') <==> ProgramHalts(m, q, s1, s')
  {
    hide Eval;
    if k: nat :| Eval(m, p, s, k) == Some(s') {
      assert Eval(m, q, s1, k) == Some(s');
    }
    if k: nat :| Eval(m, q, s1, k) == Some(s') {
      assert Eval(m, p, s, k) == Some(s');
    }
  }

  /** Without cases a switch only evaluates its condition. */
  lemma EmptySwitchHalts<S>(m: Machine<S>, cond: seq<Operation>, value: nat, s: S, s': S)
    ensures ProgramHalts(m, Cons(Switch(cond, value, NoCases), Nil), s, s') <==> s' == Exec(m, cond, s)
  {
    var p := Cons(Switch(cond, value, NoCases), Nil);
    forall k: nat ensures Eval(m, p, s, k) == Some(Exec(m, cond, s)) {
      OneStatement(m, Switch(cond, value, NoCases), s, k);
    }
    HaltsBy(m, p, s, Exec(m, cond, s), 0);
  }

  /** The first case counts if its key is the value and no later case has that key, or if it is the default, no
      later case has the value and there is no other default. Otherwise the switch does what it does without
      that case. */
  lemma SwitchHalts<S>(m: Machine<S>, cond: seq<Operation>, value: nat, key: Option<int>, body: Prog, rest: Cases, s: S, s': S)
    ensures var s1 := Exec(m, cond, s); var v := m.read(value, s1);
      var counts := (key == Some(v) || key == None) && Some(v) !in Keys(rest) && key !in Keys(rest);
      && (counts ==> (ProgramHalts(m, Cons(Switch(cond, value, Case(key, body, rest)), Nil), s, s')
                      <==> ProgramHalts(m, body, s1, s')))
      && (!counts ==> (ProgramHalts(m, Cons(Switch(cond, value, Case(key, body, rest)), Nil), s, s')
                       <==> ProgramHalts(m, Cons(Switch(cond, value, rest), Nil), s, s')))
  {
    var s1 := Exec(m, cond, s);
    var v := m.read(value, s1);
    SelectedCase(key, body, rest, v);
    forall k: nat ensures Eval(m, Cons(Switch(cond, value, Case(key, body, rest)), Nil), s, k)
                       == Eval(m, Select(Case(key, body, rest), v), s1, k)
    {
      SwitchEval(m, cond, value, Case(key, body, rest), s, k);
    }
    forall k: nat ensures Eval(m, Cons(Switch(cond, value, rest), Nil), s, k) == Eval(m, Select(rest, v), s1, k) {
      SwitchEval(m, cond, value, rest, s, k);
    }
    hide Eval, Exec, Select;
    SameHalts(m, Cons(Switch(cond, value, Case(key, body, rest)), Nil), s, Select(Case(key, body, rest), v), s1, s');
    SameHalts(m, Cons(Switch(cond, value, rest), Nil), s, Select(rest, v), s1, s');
  }

  lemma SwitchEval<S>(m: Machine<S>, cond: seq<Operation>, value: nat, cases: Cases, s: S, k: nat)
    ensures var s1 := Exec(m, cond, s);
      Eval(m, Cons(Switch(cond, value, cases), Nil), s, k) == Eval(m, Select(cases, m.read(value, s1)), s1, k)
  {
    OneStatement(m, Switch(cond, value, cases), s, k);
  }

  lemma SelectedCase(key: Option<int>, body: Prog, rest: Cases, v: int)
    ensures var counts := (key == Some(v) || key == None) && Some(v) !in Keys(rest) && key !in Keys(rest);
      Select(Case(key, body, rest), v) == if counts then body else Select(rest, v)
  {
    NoBody(rest, Some(v));
    NoBody(rest, None);
  }

  /** The initialization runs first, once. */
  lemma ForHalts<S>(m: Machine<S>, init: Prog, cond: seq<Operation>, value: nat, update: Prog, body: Prog, s: S, s': S)
    ensures ProgramHalts(m, Cons(For(init, cond, value, update, body), Nil), s, s') <==>
            exists s1 :: ProgramHalts(m, init, s, s1)
                      && ProgramHalts(m, Cons(For(Nil, cond, value, update, body), Nil), s1, s')
  {
    var p, q := Cons(For(init, cond, value, update, body), Nil), Cons(For(Nil, cond, value, update, body), Nil);
    if k: nat :| Eval(m, p, s, k) == Some(s') {
      OneStatement(m, p.head, s, k);
      var s1 := Eval(m, init, s, k).value;
      ForEval(m, cond, value, update, body, s1, k);
      HaltsBy(m, init, s, s1, k);
      HaltsBy(m, q, s1, s', k);
    }
    if s1 :| ProgramHalts(m, init, s, s1) && ProgramHalts(m, q, s1, s') {
      var k: nat :| Eval(m, init, s, k) == Some(s1);
      var k': nat :| Eval(m, q, s1, k') == Some(s');
      var n := if k <= k' then k' else k;
      EvalMore(m, init, s, k, n);
      EvalMore(m, q, s1, k', n);
      ForEval(m, cond, value, update, body, s1, n);
      OneStatement(m, p.head, s, n);
      HaltsBy(m, p, s, s', n);
    }
  }

  lemma ForEval<S>(m: Machine<S>, cond: seq<Operation>, value: nat, update: Prog, body: Prog, s: S, k: nat)
    ensures Eval(m, Cons(For(Nil, cond, value, update, body), Nil), s, k) == EvalLoop(m, cond, value, update, body, s, k)
  {
    OneStatement(m, For(Nil, cond, value, update, body), s, k);
    assert Eval(m, Nil, s, k) == Some(s);
  }

  /** Then the condition is evaluated; on zero the loop ends there, and otherwise the body runs and then the
      update, and the loop begins again. */
  lemma LoopHalts<S>(m: Machine<S>, cond: seq<Operation>, value: nat, update: Prog, body: Prog, s: S, s': S)
    ensures var p := Cons(For(Nil, cond, value, update, body), Nil); var s1 := Exec(m, cond, s);
      && (m.read(value, s1) == 0 ==> (ProgramHalts(m, p, s, s') <==> s' == s1))
      && (m.read(value, s1) != 0 ==>
            (ProgramHalts(m, p, s, s') <==>
             exists s2, s3 :: ProgramHalts(m, body, s1, s2) && ProgramHalts(m, update, s2, s3) && ProgramHalts(m, p, s3, s')))
  {
    var p, s1 := Cons(For(Nil, cond, value, update, body), Nil), Exec(m, cond, s);
    if m.read(value, s1) == 0 {
      forall k: nat ensures Eval(m, p, s, k) == Some(s1) {
        ForEval(m, cond, value, update, body, s, k);
      }
      HaltsBy(m, p, s, s1, 0);
    } else {
      if k: nat :| Eval(m, p, s, k) == Some(s') {
        ForEval(m, cond, value, update, body, s, k);
        LoopGoesOn(m, cond, value, update, body, s, s', k);
      }
      if s2, s3 :| ProgramHalts(m, body, s1, s2) && ProgramHalts(m, update, s2, s3) && ProgramHalts(m, p, s3, s') {
        LoopComesBack(m, cond, value, update, body, s, s2, s3, s');
      }
    }
  }

  lemma LoopGoesOn<S>(m: Machine<S>, cond: seq<Operation>, value: nat, update: Prog, body: Prog, s: S, s': S, k: nat)
    requires EvalLoop(m, cond, value, update, body, s, k) == Some(s') && m.read(value, Exec(m, cond, s)) != 0
    ensures var p := Cons(For(Nil, cond, value, update, body), Nil);
      exists s2, s3 :: ProgramHalts(m, body, Exec(m, cond, s), s2) && ProgramHalts(m, update, s2, s3) && ProgramHalts(m, p, s3, s')
  {
    var s1 := Exec(m, cond, s);
    var s2 := Eval(m, body, s1, k - 1).value;
    var s3 := Eval(m, update, s2, k - 1).value;
    ForEval(m, cond, value, update, body, s3, k - 1);
    HaltsBy(m, body, s1, s2, k - 1);
    HaltsBy(m, update, s2, s3, k - 1);
    HaltsBy(m, Cons(For(Nil, cond, value, update, body), Nil), s3, s', k - 1);
  }

  lemma LoopComesBack<S>(m: Machine<S>, cond: seq<Operation>, value: nat, update: Prog, body: Prog, s: S, s2: S, s3: S, s': S)
    requires m.read(value, Exec(m, cond, s)) != 0
    requires ProgramHalts(m, body, Exec(m, cond, s), s2) && ProgramHalts(m, update, s2, s3)
    requires ProgramHalts(m, Cons(For(Nil, cond, value, update, body), Nil), s3, s')
    ensures ProgramHalts(m, Cons(For(Nil, cond, value, update, body), Nil), s, s')
  {
    var p, s1 := Cons(For(Nil, cond, value, update, body), Nil), Exec(m, cond, s);
    var k1: nat :| Eval(m, body, s1, k1) == Some(s2);
    var k2: nat :| Eval(m, update, s2, k2) == Some(s3);
    var k3: nat :| Eval(m, p, s3, k3) == Some(s');
    var n := k1 + k2 + k3;
    EvalMore(m, body, s1, k1, n);
    EvalMore(m, update, s2, k2, n);
    EvalMore(m, p, s3, k3, n);
    ForEval(m, cond, value, update, body, s3, n);
    ForEval(m, cond, value, update, body, s, n + 1);
    HaltsBy(m, p, s, s', n + 1);
  }
}
