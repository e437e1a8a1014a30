/** Structured source programs, as written with the IF/ELSE, SWITCH/CASE and FOR macros, and what
    they mean. */
module Hir {
  import opened Mir

  /** `value` is the symbol that a condition leaves its result in. */
  datatype Stmt =
    | Emit(op: Operation)
    | If(cond: seq<Operation>, value: nat, thn: Prog, els: Prog)
    | Switch(cond: seq<Operation>, value: nat, cases: Cases)
    | For(init: Prog, cond: seq<Operation>, value: nat, update: Prog, body: Prog)

  datatype Prog = Nil | Cons(head: Stmt, tail: Prog)

  /** Cases in source order; a key of None is DEFAULT. */
  datatype Cases = NoCases | Case(key: Option<int>, body: Prog, rest: Cases)

  /** What the operations of a target machine do to its state, and how a symbol is read. */
  datatype Machine<!S> = Machine(exec: (Operation, S) -> S, read: (nat, S) -> int)

  function Exec<S>(m: Machine<S>, code: seq<Operation>, s: S): S {
    if code == [] then s else Exec(m, code[1..], m.exec(code[0], s))
  }

  function Keys(cases: Cases): set<Option<int>> {
    match cases
    case NoCases => {}
    case Case(key, _, rest) => {key} + Keys(rest)
  }

  /** The body of the last case with this key. */
  function LastBody(cases: Cases, key: Option<int>): Prog {
    match cases
    case NoCases => Nil
    case Case(key', body, rest) => if key' == key && key !in Keys(rest) then body else LastBody(rest, key)
  }

  /** The body chosen by a switch on `v`: the matching case, else DEFAULT, else nothing. Should a case have
      been written twice, the second one replaces the first. */
  function Select(cases: Cases, v: int): Prog {
    LastBody(cases, if Some(v) in Keys(cases) then Some(v) else None)
  }

  /** Another reading, in which a case takes precedence over those that follow it. */
  function SelectFirst(cases: Cases, v: int): Prog {
    FirstBody(cases, if Some(v) in Keys(cases) then Some(v) else None)
  }

  function FirstBody(cases: Cases, key: Option<int>): Prog {
    match cases
    case NoCases => Nil
    case Case(key', body, rest) => if key' == key then body else FirstBody(rest, key)
  }

  // ----- when the two readings agree -----

  /** The cases with these keys and bodies. */
  function WithBodies(keys: seq<Option<int>>, bodies: seq<Prog>): Cases
    requires |bodies| == |keys|
  {
    if keys == [] then NoCases else Case(keys[0], bodies[0], WithBodies(keys[1..], bodies[1..]))
  }

  /** No two cases have the same key, as C demands. */
  ghost predicate DistinctKeys(keys: seq<Option<int>>) {
    forall i, j | 0 <= i < j < |keys| :: keys[i] != keys[j]
  }

  ghost predicate ReadingsCoincide(keys: seq<Option<int>>) {
    forall bodies: seq<Prog>, v: int | |bodies| == |keys| ::
      Select(WithBodies(keys, bodies), v) == SelectFirst(WithBodies(keys, bodies), v)
  }

  lemma {:induction false} KeysOfBodies(keys: seq<Option<int>>, bodies: seq<Prog>, key: Option<int>)
    requires |bodies| == |keys|
    ensures key in Keys(WithBodies(keys, bodies)) <==> key in keys
  {
    if keys != [] {
      KeysOfBodies(keys[1..], bodies[1..], key);
      assert key in keys <==> key == keys[0] || key in keys[1..];
    }
  }

  /** The first reading takes the body at the first index of a key, the other one that at the last. */
  lemma {:induction false} FirstBodyAt(keys: seq<Option<int>>, bodies: seq<Prog>, key: Option<int>, i: nat)
    requires |bodies| == |keys| && i < |keys| && keys[i] == key && key !in keys[..i]
    ensures FirstBody(WithBodies(keys, bodies), key) == bodies[i]
  {
    if i > 0 {
      assert keys[..i] == [keys[0]] + keys[1..][..i - 1];
      FirstBodyAt(keys[1..], bodies[1..], key, i - 1);
    }
  }

  lemma {:induction false} LastBodyAt(keys: seq<Option<int>>, bodies: seq<Prog>, key: Option<int>, i: nat)
    requires |bodies| == |keys| && i < |keys| && keys[i] == key && key !in keys[i + 1..]
    ensures LastBody(WithBodies(keys, bodies), key) == bodies[i]
  {
    KeysOfBodies(keys[1..], bodies[1..], key);
    if i > 0 {
      assert keys[1..][i - 1] == key;
      assert keys[1..][i..] == keys[i + 1..];
      LastBodyAt(keys[1..], bodies[1..], key, i - 1);
    }
  }

  function FirstIndex(keys: seq<Option<int>>, key: Option<int>): (i: nat)
    requires key in keys
    ensures i < |keys| && keys[i] == key && key !in keys[..i]
    ensures forall k | 0 <= k < |keys| && keys[k] == key :: i <= k
  {
    if keys[0] == key then 0
    else
      var i := FirstIndex(keys[1..], key);
      assert keys[..i + 1] == [keys[0]] + keys[1..][..i];
      i + 1
  }

  function LastIndex(keys: seq<Option<int>>, key: Option<int>): (i: nat)
    requires key in keys
    ensures i < |keys| && keys[i] == key && key !in keys[i + 1..]
    ensures forall k | 0 <= k < |keys| && keys[k] == key :: k <= i
  {
    if key in keys[1..] then
      var i := LastIndex(keys[1..], key);
      assert keys[1..][i + 1..] == keys[i + 2..];
      i + 1
    else 0
  }

  /** Bodies that tell the two readings apart: only the last case with this key does anything. */
  function TellingBodies(keys: seq<Option<int>>, key: Option<int>): (bodies: seq<Prog>)
    requires key in keys
    ensures |bodies| == |keys|
  {
    var last := LastIndex(keys, key);
    seq(|keys|, i => if i == last then Cons(Emit(Operation(0, [])), Nil) else Nil)
  }

  /** A number that is no key. */
  function Fresh(keys: seq<Option<int>>): (v: int)
    ensures forall key | key in keys && key.Some? :: key.value < v
  {
    if keys == [] then 0
    else
      var v := Fresh(keys[1..]);
      assert forall key | key in keys :: key == keys[0] || key in keys[1..];
      if keys[0].Some? && keys[0].value >= v then keys[0].value + 1 else v
  }

  /** The number on which a switch takes the case with this key. */
  function TellingValue(keys: seq<Option<int>>, key: Option<int>): int {
    if key.Some? then key.value else Fresh(keys)
  }

  lemma SelectsKey(keys: seq<Option<int>>, bodies: seq<Prog>, v: int, key: Option<int>)
    requires |bodies| == |keys| && key == if Some(v) in keys then Some(v) else None
    ensures Select(WithBodies(keys, bodies), v) == LastBody(WithBodies(keys, bodies), key)
    ensures SelectFirst(WithBodies(keys, bodies), v) == FirstBody(WithBodies(keys, bodies), key)
  {
    KeysOfBodies(keys, bodies, Some(v));
  }

  /** With any repeated key, DEFAULT or not, there are bodies for which the readings differ. */
  lemma {:induction false} RepeatedKeyTells(keys: seq<Option<int>>, i: nat, j: nat)
    requires i < j < |keys| && keys[i] == keys[j]
    ensures var cases := WithBodies(keys, TellingBodies(keys, keys[i]));
      Select(cases, TellingValue(keys, keys[i])) != Nil == SelectFirst(cases, TellingValue(keys, keys[i]))
  {
    var key := keys[i];
    var bodies, v := TellingBodies(keys, key), TellingValue(keys, key);
    var first, last := FirstIndex(keys, key), LastIndex(keys, key);
    if key == None {
      assert Some(v) !in keys;
    }
    SelectsKey(keys, bodies, v, key);
    FirstBodyAt(keys, bodies, key, first);
    LastBodyAt(keys, bodies, key, last);
  }

  lemma DistinctKeysAgree(keys: seq<Option<int>>, bodies: seq<Prog>, v: int)
    requires |bodies| == |keys| && DistinctKeys(keys)
    ensures Select(WithBodies(keys, bodies), v) == SelectFirst(WithBodies(keys, bodies), v)
  {
    var key := if Some(v) in keys then Some(v) else None;
    SelectsKey(keys, bodies, v, key);
    if key in keys {
      var first, last := FirstIndex(keys, key), LastIndex(keys, key);
      assert first == last;
      FirstBodyAt(keys, bodies, key, first);
      LastBodyAt(keys, bodies, key, last);
    } else {
      NoSuchCase(keys, bodies, key);
    }
  }

  lemma {:induction false} NoSuchCase(keys: seq<Option<int>>, bodies: seq<Prog>, key: Option<int>)
    requires |bodies| == |keys| && key !in keys
    ensures FirstBody(WithBodies(keys, bodies), key) == LastBody(WithBodies(keys, bodies), key) == Nil
  {
    if keys != [] {
      assert key !in keys[1..];
      NoSuchCase(keys[1..], bodies[1..], key);
    }
  }

  /** It does not matter which reading is taken, whatever the bodies of the cases and the value switched on, if
      and only if no two cases have the same key. */
  lemma ReadingsAgree(keys: seq<Option<int>>)
    ensures DistinctKeys(keys) <==> ReadingsCoincide(keys)
  {
    if DistinctKeys(keys) {
      forall bodies: seq<Prog>, v: int | |bodies| == |keys|
        ensures Select(WithBodies(keys, bodies), v) == SelectFirst(WithBodies(keys, bodies), v)
      {
        DistinctKeysAgree(keys, bodies, v);
      }
    }
    if i, j :| 0 <= i < j < |keys| && keys[i] == keys[j] {
      RepeatedKeyTells(keys, i, j);
    }
  }

  /** Evaluation with a bound `k` on the number of iterations of a loop; None when it runs out. */
  function Eval<S>(m: Machine<S>, p: Prog, s: S, k: nat): Option<S>
    decreases k, p, 0
  {
    match p
    case Nil => Some(s)
    case Cons(st, rest) =>
      match EvalStmt(m, st, s, k)
      case None => None
      case Some(s') => Eval(m, rest, s', k)
  }

  function EvalStmt<S>(m: Machine<S>, st: Stmt, s: S, k: nat): Option<S>
    decreases k, st, 1
  {
    match st
    case Emit(op) => Some(m.exec(op, s))
    case If(cond, value, thn, els) =>
      var s' := Exec(m, cond, s);
      if m.read(value, s') != 0 then Eval(m, thn, s', k) else Eval(m, els, s', k)
    case Switch(cond, value, cases) =>
      var s' := Exec(m, cond, s);
      var chosen := Select(cases, m.read(value, s'));
      SelectSmaller(cases, m.read(value, s'));
      if chosen == Nil then Some(s') else Eval(m, chosen, s', k)
    case For(init, cond, value, update, body) =>
      match Eval(m, init, s, k)
      case None => None
      case Some(s') => EvalLoop(m, cond, value, update, body, s', k)
  }

  function EvalLoop<S>(m: Machine<S>, cond: seq<Operation>, value: nat, update: Prog, body: Prog, s: S, k: nat)
    : Option<S>
    decreases k, body, 0
  {
    var s' := Exec(m, cond, s);
    if m.read(value, s') == 0 then Some(s')
    else if k == 0 then None
    else match Eval(m, body, s', k - 1)
      case None => None
      case Some(s1) =>
        match Eval(m, update, s1, k - 1)
        case None => None
        case Some(s2) => EvalLoop(m, cond, value, update, body, s2, k - 1)
  }

  lemma SelectSmaller(cases: Cases, v: int)
    ensures Select(cases, v) == Nil || Select(cases, v) < cases
  {
    BodySmaller(cases, if Some(v) in Keys(cases) then Some(v) else None);
  }

  lemma {:induction false} BodySmaller(cases: Cases, key: Option<int>)
    ensures LastBody(cases, key) == Nil || LastBody(cases, key) < cases
  {
    match cases
    case NoCases =>
    case Case(_, _, rest) => BodySmaller(rest, key);
  }
}
