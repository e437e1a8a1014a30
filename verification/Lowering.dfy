/** What lowering a piece of a program does to memory, and how such changes compose. */
module Lowering {
  import opened Mir
  import opened Hir
  import opened Shape

  // ----- memory -----

  /** No object at or above `next`, and none of their parents either: `next` may be allocated. */
  ghost predicate Bounded(h: Heap, next: nat) {
    forall r | r in h :: r.base < next && (h[r].parent.Some? ==> h[r].parent.value.base < next)
  }

  /** The continuation of a block. */
  function Successor(h: Heap, r: Ref): Option<Ref> {
    if IsBlock(h, r) then h[r].content.successor else None
  }

  /** The continuation of a line of control keeps as its parent the last block of that line, if its
      parent was on the line before. */
  function Reparented(n: Node, isTarget: bool, current: Ref, current': Ref): Node {
    if isTarget && n.parent == Some(current) then n.(parent := Some(current')) else n
  }

  /** Apart from `current`, memory changes at most in the parent of the continuation of `current`. */
  ghost predicate SameOutside(h: Heap, h': Heap, current: Ref, current': Ref) {
    forall r | r in h && r != current ::
      r in h' && h'[r] == Reparented(h[r], Successor(h, current) == Some(r), current, current')
  }

  /** The addresses of `rs` were allocated between `lo` and `hi`. */
  ghost predicate Within(rs: set<Ref>, lo: nat, hi: nat) {
    forall r | r in rs :: lo <= r.base < hi
  }

  /** A block at the end of a line of control, to which code may be added. */
  ghost predicate IsOpen(h: Heap, r: Ref) {
    IsBlock(h, r) && (Successor(h, r).Some? ==> Successor(h, r).value in h && Successor(h, r).value != r)
  }

  /** Lowering `p` at the end of block `current` took memory from `h` to `h'`: control now runs from
      `current` along the chain `c` to `current'`, and from there to where `current` went before. */
  ghost predicate Lowered(h: Heap, h': Heap, lo: nat, hi: nat, current: Ref, current': Ref, p: Prog, c: Chain) {
    && lo <= hi && IsOpen(h, current) && IsOpen(h', current') && IsBlock(h', current)
    && Bounded(h, lo) && Bounded(h', hi)
    && SameOutside(h, h', current, current')
    && h'[current].parent == h[current].parent
    && First(c) == current && Last(c) == current'
    && Within(Refs(c) - {current}, lo, hi) && Distinct(c) && Built(c)
    && Realizes(h', c, Successor(h, current))
    && Denote(h', c) == Concat(Emits(CodeOf(h, current)), p)
  }

  // ----- facts about chains -----

  lemma {:induction false} LastFacts(h: Heap, c: Chain, exit: Option<Ref>)
    ensures First(c) in Refs(c) && Last(c) in Refs(c)
    ensures Realizes(h, c, exit) ==> IsBlockTo(h, Last(c), exit)
  {
    match c
    case End(b) =>
    case Link(b, rest) => LastFacts(h, rest, exit);
    case Then(b, k, rest) => LastFacts(h, rest, exit);
  }

  lemma {:induction false} RealizedRefs(h: Heap, c: Chain, exit: Option<Ref>)
    requires Realizes(h, c, exit)
    ensures Refs(c) <= h.Keys
    decreases c
  {
    match c
    case End(b) =>
    case Link(b, rest) => RealizedRefs(h, rest, exit);
    case Then(b, k, rest) => RealizedConstructRefs(h, k, First(rest)); RealizedRefs(h, rest, exit);
  }

  lemma {:induction false} RealizedConstructRefs(h: Heap, k: Construct, join: Ref)
    requires RealizesConstruct(h, k, join)
    ensures ConstructRefs(k) <= h.Keys
    decreases k
  {
    match k
    case IfShape(_, _, thn, els) => RealizedRefs(h, thn, Some(join)); RealizedRefs(h, els, Some(join));
    case SwitchShape(_, _, arms) => RealizedArmRefs(h, arms, join);
    case LoopShape(base, _, init, update, body) =>
      RealizedRefs(h, init, Some(Ref(base, Condition)));
      RealizedRefs(h, update, Some(Ref(base, Condition)));
      RealizedRefs(h, body, Some(Ref(base, Update)));
  }

  lemma {:induction false} RealizedArmRefs(h: Heap, arms: Arms, join: Ref)
    requires RealizesArms(h, arms, join)
    ensures ArmRefs(arms) <= h.Keys
    decreases arms
  {
    match arms
    case NoArms =>
    case Arm(_, _, chain, next) => RealizedRefs(h, chain, Some(join)); RealizedArmRefs(h, next, join);
  }

  lemma {:induction false} ConcatAssoc(p: Prog, q: Prog, r: Prog)
    ensures Concat(Concat(p, q), r) == Concat(p, Concat(q, r))
  {
    match p
    case Nil =>
    case Cons(_, rest) => ConcatAssoc(rest, q, r);
  }

  lemma {:induction false} EmitsAppend(code: seq<Instruction>, i: Instruction, p: Prog)
    ensures Concat(Emits(code + [i]), p) == Concat(Emits(code), Cons(Emit(i.operation), p))
  {
    if code == [] {
      assert code + [i] == [i];
      assert Emits([i]) == Cons(Emit(i.operation), Emits([]));
    } else {
      assert (code + [i])[1..] == code[1..] + [i];
      EmitsAppend(code[1..], i, p);
    }
  }

  // ----- composition -----

  /** Replace the last block of `c` by the chain that grew out of it. */
  function Graft(c: Chain, d: Chain): Chain {
    match c
    case End(_) => d
    case Link(b, rest) => Link(b, Graft(rest, d))
    case Then(b, k, rest) => Then(b, k, Graft(rest, d))
  }

  lemma {:induction false} GraftFacts(c: Chain, d: Chain)
    requires First(d) == Last(c)
    ensures First(Graft(c, d)) == First(c) && Last(Graft(c, d)) == Last(d)
    ensures Refs(Graft(c, d)) == Refs(c) + Refs(d)
    ensures Built(c) && Built(d) ==> Built(Graft(c, d))
    ensures Distinct(c) && Distinct(d) && Refs(c) !! (Refs(d) - {First(d)}) ==> Distinct(Graft(c, d))
  {
    match c
    case End(b) =>
      LastFacts(map[], d, None);
    case Link(b, rest) =>
      LastFacts(map[], rest, None);
      GraftFacts(rest, d);
    case Then(b, k, rest) =>
      LastFacts(map[], rest, None);
      GraftFacts(rest, d);
  }

  /** If only the last block of `c` changed, and grew into `d`, the whole has grown by what `d` added. */
  lemma {:induction false} GraftRealizes(h: Heap, h': Heap, c: Chain, d: Chain, exit: Option<Ref>, q: Prog)
    requires Realizes(h, c, exit) && Distinct(c) && First(d) == Last(c)
    requires AgreeOn(h, h', Refs(c) - {Last(c)})
    requires Realizes(h', d, exit) && Denote(h', d) == Concat(Emits(CodeOf(h, Last(c))), q)
    ensures Realizes(h', Graft(c, d), exit) && Denote(h', Graft(c, d)) == Concat(Denote(h, c), q)
  {
    match c
    case End(b) =>
    case Link(b, rest) =>
      LastFacts(h, rest, exit);
      GraftRealizes(h, h', rest, d, exit, q);
      GraftFacts(rest, d);
      assert b in Refs(c) - {Last(c)};
      ConcatAssoc(Emits(CodeOf(h, b)), Denote(h, rest), q);
    case Then(b, k, rest) =>
      LastFacts(h, rest, exit);
      GraftRealizes(h, h', rest, d, exit, q);
      GraftFacts(rest, d);
      assert b in Refs(c) - {Last(c)};
      FrameConstruct(h, h', k, First(rest));
      ConcatAssoc(Emits(CodeOf(h, b)), Cons(DenoteConstruct(h, k), Denote(h, rest)), q);
  }

  lemma SameOutsideComposes(h: Heap, h1: Heap, h2: Heap, lo: nat, current: Ref, c1: Ref, c2: Ref)
    requires SameOutside(h, h1, current, c1) && SameOutside(h1, h2, c1, c2) && Bounded(h, lo)
    requires c1 == current || (c1 !in h && lo <= c1.base)
    requires Successor(h1, c1) == Successor(h, current)
    ensures SameOutside(h, h2, current, c2)
  {
  }

  lemma LoweredNothing(h: Heap, lo: nat, current: Ref)
    requires IsOpen(h, current) && Bounded(h, lo)
    ensures Lowered(h, h, lo, lo, current, current, Nil, End(current))
  {
    ConcatNil(Emits(CodeOf(h, current)));
  }

  /** Lowering one piece of a program and then another. */
  lemma LoweredThen(h: Heap, h1: Heap, h2: Heap, lo: nat, mid: nat, hi: nat, current: Ref, c1: Ref, c2: Ref,
                    p: Prog, q: Prog, c: Chain, d: Chain)
    requires Lowered(h, h1, lo, mid, current, c1, p, c) && Lowered(h1, h2, mid, hi, c1, c2, q, d)
    ensures Lowered(h, h2, lo, hi, current, c2, Concat(p, q), Graft(c, d))
  {
    hide Refs, Realizes, Denote, Distinct, Built;
    var exit := Successor(h, current);
    LastFacts(h1, c, exit);
    RealizedRefs(h1, c, exit);
    SameOutsideComposes(h, h1, h2, lo, current, c1, c2);
    GraftFacts(c, d);
    LoweredAgree(h, h1, h2, lo, mid, hi, current, c1, c2, p, q, c, d);
    GraftRealizes(h1, h2, c, d, exit, q);
    ConcatAssoc(Emits(CodeOf(h, current)), p, q);
  }

  /** Lowering at the end of a chain leaves the rest of the chain alone. */
  lemma LoweredAgree(h: Heap, h1: Heap, h2: Heap, lo: nat, mid: nat, hi: nat, current: Ref, c1: Ref, c2: Ref,
                     p: Prog, q: Prog, c: Chain, d: Chain)
    requires Lowered(h, h1, lo, mid, current, c1, p, c) && Lowered(h1, h2, mid, hi, c1, c2, q, d)
    ensures AgreeOn(h1, h2, Refs(c) - {c1})
    ensures h2[current].parent == h[current].parent
  {
    LastFacts(h1, c, Successor(h, current));
    assert Successor(h1, c1) == Successor(h, current);
  }

  // ----- single instructions -----

  function WithCode(n: Node, i: Instruction): Node
    requires n.content.Sequential?
  {
    n.(content := Sequential(n.content.code + [i], n.content.successor))
  }

  lemma LoweredEmit(h: Heap, lo: nat, current: Ref, op: Operation)
    requires IsOpen(h, current) && Bounded(h, lo)
    ensures Lowered(h, h[current := WithCode(h[current], Instruction(lo, op))], lo, lo + 1, current, current,
                    Cons(Emit(op), Nil), End(current))
  {
    var i := Instruction(lo, op);
    EmitsAppend(h[current].content.code, i, Nil);
    ConcatNil(Emits(h[current].content.code + [i]));
  }

  // ----- opening a construct -----

  function WithSuccessor(n: Node, successor: Ref): Node
    requires n.content.Sequential?
  {
    n.(content := Sequential(n.content.code, Some(successor)))
  }

  /** A construct with parts `parts` was spliced in after `current`. Its object is at a + 1. The new
      block at `a` follows the construct and inherits the continuation of `current`. */
  ghost predicate Opened(h: Heap, h': Heap, current: Option<Ref>, a: nat, parts: Heap) {
    var join := Ref(a, Whole);
    var target := if current.Some? then Successor(h, current.value) else None;
    && h'.Keys == h.Keys + {join} + parts.Keys
    && (forall r | r in parts :: r.base == a + 1 && h'[r] == parts[r])
    && h'[join] == Node(current, Sequential([], target))
    && (forall r | r in h && current != Some(r) ::
          h'[r] == if current.Some? then Reparented(h[r], target == Some(r), current.value, join) else h[r])
    && (current.Some? && current.value in h && h[current.value].content.Sequential? ==>
          h'[current.value] == WithSuccessor(h[current.value], Ref(a + 1, Whole)))
  }

  /** The parts of a new construct are its own: changing one keeps the rest of the picture. */
  lemma OpenedUpdate(h: Heap, h': Heap, current: Option<Ref>, a: nat, parts: Heap, r: Ref, n: Node)
    requires Opened(h, h', current, a, parts) && Bounded(h, a) && r in parts
    requires current.Some? ==> current.value in h
    ensures Opened(h, h'[r := n], current, a, parts[r := n])
  {
  }

  /** Lowering code at the end of a part of a construct changes nothing outside that part. */
  lemma LoweredQuietly(h: Heap, h': Heap, lo: nat, hi: nat, current: Ref, current': Ref, p: Prog, c: Chain)
    requires Lowered(h, h', lo, hi, current, current', p, c)
    requires var t := Successor(h, current); t.Some? && h[t.value].parent != Some(current)
    ensures AgreeOn(h, h', h.Keys - {current})
  {
  }

  // ----- IF -----

  function IfParts(a: nat, parent: Option<Ref>, join: Ref, value: Option<nat>, code: seq<Instruction>): Heap {
    var w := Ref(a, Whole);
    map[w := Node(parent, Conditional(value, join)),
        Ref(a, Condition) := Node(Some(w), Sequential(code, None)),
        Ref(a, IfTrue) := Node(Some(w), Sequential([], Some(join))),
        Ref(a, IfFalse) := Node(Some(w), Sequential([], Some(join)))]
  }

  lemma OpenedIfParts(h: Heap, h1: Heap, current: Ref, a: nat, value: Option<nat>, code: seq<Instruction>, n: nat)
    requires Bounded(h, a) && IsOpen(h, current) && a + 2 <= n
    requires Opened(h, h1, Some(current), a, IfParts(a + 1, Some(current), Ref(a, Whole), value, code))
    ensures Bounded(h1, n) && IsOpen(h1, Ref(a + 1, IfTrue)) && IsOpen(h1, Ref(a + 1, IfFalse))
    ensures IsOpen(h1, Ref(a, Whole)) && IsConditionOf(h1, a + 1)
    ensures h1[Ref(a, Whole)].parent == Some(current) && current.base < a
    ensures forall r | r in IfParts(a + 1, Some(current), Ref(a, Whole), value, code) :: r in h1
    ensures Ref(a + 1, Whole) in h1
    ensures h1[Ref(a + 1, Whole)].content == Conditional(value, Ref(a, Whole))
    ensures Successor(h1, Ref(a + 1, IfTrue)) == Successor(h1, Ref(a + 1, IfFalse)) == Some(Ref(a, Whole))
    ensures CodeOf(h1, Ref(a + 1, Condition)) == code
    ensures CodeOf(h1, Ref(a + 1, IfTrue)) == CodeOf(h1, Ref(a + 1, IfFalse)) == []
  {
    var parts := IfParts(a + 1, Some(current), Ref(a, Whole), value, code);
    assert Ref(a + 1, IfTrue) in parts && Ref(a + 1, IfFalse) in parts && Ref(a + 1, Condition) in parts;
    assert Ref(a + 1, Whole) in parts;
  }

  /** What a finished construct owes to the memory around it, whatever its kind. */
  lemma LoweredConstruct(h: Heap, h1: Heap, h': Heap, a: nat, hi: nat, current: Ref, parts: Heap, k: Construct, st: Stmt)
    requires Bounded(h, a) && IsOpen(h, current) && a + 2 <= hi && Bounded(h', hi)
    requires Opened(h, h1, Some(current), a, parts)
    requires forall r | r in h1 && r !in parts :: r in h' && h'[r] == h1[r]
    requires k.base == a + 1 && Within(ConstructRefs(k), a + 1, hi) && DistinctConstruct(k) && BuiltConstruct(k)
    requires RealizesConstruct(h', k, Ref(a, Whole)) && DenoteConstruct(h', k) == st
    ensures Lowered(h, h', a, hi, current, Ref(a, Whole), Cons(st, Nil), Then(current, k, End(Ref(a, Whole))))
  {
    var join := Ref(a, Whole);
    assert h'[join] == h1[join];
    assert h'[current] == h1[current];
  }

  /** The empty block `r` of a construct was filled in: what the rest of the construct sees of it. */
  ghost predicate Filled(h: Heap, h': Heap, lo: nat, hi: nat, r: Ref, exit: Ref, p: Prog, c: Chain) {
    && lo <= hi && Bounded(h', hi) && r in h && AgreeOn(h, h', h.Keys - {r}) && h.Keys <= h'.Keys
    && First(c) == r && Refs(c) <= h'.Keys && Within(Refs(c) - {r}, lo, hi) && Distinct(c) && Built(c)
    && Realizes(h', c, Some(exit)) && Denote(h', c) == p && r in h' && h'[r].parent == h[r].parent
  }

  lemma LoweredFilled(h: Heap, h': Heap, lo: nat, hi: nat, r: Ref, r': Ref, exit: Ref, p: Prog, c: Chain)
    requires Lowered(h, h', lo, hi, r, r', p, c)
    requires CodeOf(h, r) == [] && Successor(h, r) == Some(exit) && h[exit].parent != Some(r)
    ensures Filled(h, h', lo, hi, r, exit, p, c)
  {
    LoweredQuietly(h, h', lo, hi, r, r', p, c);
    RealizedRefs(h', c, Some(exit));
  }

  /** Filling in a second block keeps the first one as it was. */
  lemma FilledBoth(h: Heap, h1: Heap, h2: Heap, lo: nat, mid: nat, hi: nat, r: Ref, s: Ref, exit: Ref, exit': Ref,
                   p: Prog, q: Prog, c: Chain, d: Chain)
    requires Filled(h, h1, lo, mid, r, exit, p, c) && Filled(h1, h2, mid, hi, s, exit', q, d)
    requires s in h && s != r && s.base < lo && r.base < lo
    ensures Realizes(h2, c, Some(exit)) && Denote(h2, c) == p && Refs(c) !! Refs(d)
    ensures forall x | x in h && x != r && x != s :: x in h2 && h2[x] == h[x]
  {
    assert AgreeOn(h1, h2, Refs(c));
    Frame(h1, h2, c, Some(exit));
  }

  /** A part of a construct: its own block `r`, and what was made at addresses from `lo` up to `hi`. */
  ghost predicate PartWithin(c: Chain, r: Ref, lo: nat, hi: nat) {
    Within(Refs(c) - {r}, lo, hi)
  }

  lemma FilledPart(h: Heap, h': Heap, lo: nat, hi: nat, r: Ref, exit: Ref, p: Prog, c: Chain)
    requires Filled(h, h', lo, hi, r, exit, p, c)
    ensures lo <= hi && PartWithin(c, r, lo, hi) && Distinct(c) && Built(c)
  {
    hide Distinct, Built, Realizes, Denote, AgreeOn, Bounded, Within;
  }

  lemma PartsApart(c: Chain, d: Chain, r: Ref, s: Ref, lo: nat, mid: nat, lo': nat, hi: nat)
    requires PartWithin(c, r, lo, mid) && PartWithin(d, s, lo', hi) && mid <= lo'
    requires r != s && r.base < lo' && s.base < lo
    ensures Refs(c) !! Refs(d)
  {
    hide Refs;
    assert forall x | x in Refs(c) && x != r :: x in Refs(c) - {r};
    assert forall x | x in Refs(d) && x != s :: x in Refs(d) - {s};
  }

  lemma PartApart(c: Chain, r: Ref, lo: nat, hi: nat, base: nat)
    requires PartWithin(c, r, lo, hi) && base < lo && r.base == base && r.member != Whole && r.member != Condition
    ensures {Ref(base, Whole), Ref(base, Condition)} !! Refs(c) && (lo <= hi ==> Within(Refs(c), base, hi))
  {
    hide Refs;
  }

  lemma LoweredIf(h: Heap, h1: Heap, h2: Heap, h3: Heap, a: nat, n: nat, m: nat, hi: nat, current: Ref,
                  value: nat, code: seq<Instruction>, t': Ref, f': Ref, thn: Prog, els: Prog, t: Chain, f: Chain)
    requires Bounded(h, a) && IsOpen(h, current) && a + 2 <= n
    requires Opened(h, h1, Some(current), a, IfParts(a + 1, Some(current), Ref(a, Whole), Some(value), code))
    requires Lowered(h1, h2, n, m, Ref(a + 1, IfTrue), t', thn, t)
    requires Lowered(h2, h3, m, hi, Ref(a + 1, IfFalse), f', els, f)
    ensures Lowered(h, h3, a, hi, current, Ref(a, Whole), Cons(If(Operations(code), value, thn, els), Nil),
                    Then(current, IfShape(a + 1, value, t, f), End(Ref(a, Whole))))
  {
    hide Lowered, Opened, Filled, Bounded, DistinctConstruct;
    var join := Ref(a, Whole);
    OpenedIfParts(h, h1, current, a, Some(value), code, n);
    LoweredFilled(h1, h2, n, m, Ref(a + 1, IfTrue), t', join, thn, t);
    FilledSame(h1, h2, n, m, Ref(a + 1, IfTrue), join, thn, t);
    LoweredFilled(h2, h3, m, hi, Ref(a + 1, IfFalse), f', join, els, f);
    IfFilled(h1, h2, h3, a, n, m, hi, value, code, thn, els, t, f);
    LoweredConstruct(h, h1, h3, a, hi, current, IfParts(a + 1, Some(current), join, Some(value), code),
                     IfShape(a + 1, value, t, f), If(Operations(code), value, thn, els));
  }

  lemma FilledSame(h: Heap, h': Heap, lo: nat, hi: nat, r: Ref, exit: Ref, p: Prog, c: Chain)
    requires Filled(h, h', lo, hi, r, exit, p, c)
    ensures forall x | x in h && x != r :: x in h' && h'[x] == h[x]
    ensures r in h && r in h' && h'[r].parent == h[r].parent
  {
  }

  lemma IfFilled(h1: Heap, h2: Heap, h3: Heap, a: nat, n: nat, m: nat, hi: nat, value: nat, code: seq<Instruction>,
                 thn: Prog, els: Prog, t: Chain, f: Chain)
    requires IsConditionOf(h1, a + 1) && CodeOf(h1, Ref(a + 1, Condition)) == code
    requires Ref(a + 1, Whole) in h1 && h1[Ref(a + 1, Whole)].content == Conditional(Some(value), Ref(a, Whole))
    requires Ref(a + 1, IfFalse) in h1 && a + 2 <= n
    requires Filled(h1, h2, n, m, Ref(a + 1, IfTrue), Ref(a, Whole), thn, t)
    requires Filled(h2, h3, m, hi, Ref(a + 1, IfFalse), Ref(a, Whole), els, f)
    ensures var k := IfShape(a + 1, value, t, f);
      && RealizesConstruct(h3, k, Ref(a, Whole)) && DenoteConstruct(h3, k) == If(Operations(code), value, thn, els)
      && Within(ConstructRefs(k), a + 1, hi) && DistinctConstruct(k) && BuiltConstruct(k)
    ensures forall x | x in h1 && x != Ref(a + 1, IfTrue) && x != Ref(a + 1, IfFalse) :: x in h3 && h3[x] == h1[x]
    ensures a + 2 <= hi && Bounded(h3, hi)
  {
    hide Distinct, Bounded, Built, Refs, Realizes, Denote, PartWithin, AgreeOn;
    FilledBoth(h1, h2, h3, n, m, hi, Ref(a + 1, IfTrue), Ref(a + 1, IfFalse), Ref(a, Whole), Ref(a, Whole), thn, els, t, f);
    FilledPart(h1, h2, n, m, Ref(a + 1, IfTrue), Ref(a, Whole), thn, t);
    FilledPart(h2, h3, m, hi, Ref(a + 1, IfFalse), Ref(a, Whole), els, f);
    PartApart(t, Ref(a + 1, IfTrue), n, m, a + 1);
    PartApart(f, Ref(a + 1, IfFalse), m, hi, a + 1);
  }

  // ----- FOR -----

  function LoopParts(a: nat, parent: Option<Ref>, join: Ref, value: Option<nat>, code: seq<Instruction>): Heap {
    var w := Ref(a, Whole);
    map[w := Node(parent, Loop(value, join)),
        Ref(a, Init) := Node(Some(w), Sequential([], Some(Ref(a, Condition)))),
        Ref(a, Condition) := Node(Some(w), Sequential(code, None)),
        Ref(a, Update) := Node(Some(w), Sequential([], Some(Ref(a, Condition)))),
        Ref(a, Body) := Node(Some(w), Sequential([], Some(Ref(a, Update))))]
  }

  /** The condition is written after the initialization: it may as well have been there from the start. */
  lemma LoweredUpdate(h: Heap, h': Heap, lo: nat, hi: nat, hi': nat, current: Ref, current': Ref, p: Prog, c: Chain,
                      r: Ref, n: Node)
    requires Lowered(h, h', lo, hi, current, current', p, c) && hi <= hi'
    requires r in h && r != current && n.parent == h[r].parent && h[r].parent != Some(current)
    ensures Lowered(h[r := n], h'[r := n], lo, hi', current, current', p, c)
  {
    var exit := Successor(h, current);
    assert r !in Refs(c);
    LastFacts(h', c, exit);
    Frame(h', h'[r := n], c, exit);
  }

  lemma OpenedLoopParts(h: Heap, h1: Heap, current: Ref, a: nat, value: Option<nat>, code: seq<Instruction>, n: nat)
    requires Bounded(h, a) && IsOpen(h, current) && a + 2 <= n
    requires Opened(h, h1, Some(current), a, LoopParts(a + 1, Some(current), Ref(a, Whole), value, code))
    ensures forall r | r in LoopParts(a + 1, Some(current), Ref(a, Whole), value, code) ::
              r in h1 && h1[r] == LoopParts(a + 1, Some(current), Ref(a, Whole), value, code)[r]
    ensures Bounded(h1, n) && IsOpen(h1, Ref(a, Whole)) && IsConditionOf(h1, a + 1)
    ensures IsOpen(h1, Ref(a + 1, Init)) && IsOpen(h1, Ref(a + 1, Update)) && IsOpen(h1, Ref(a + 1, Body))
    ensures h1[Ref(a + 1, Whole)].content == Loop(value, Ref(a, Whole))
    ensures Successor(h1, Ref(a + 1, Init)) == Successor(h1, Ref(a + 1, Update)) == Some(Ref(a + 1, Condition))
    ensures Successor(h1, Ref(a + 1, Body)) == Some(Ref(a + 1, Update))
    ensures h1[Ref(a + 1, Condition)].parent == h1[Ref(a + 1, Update)].parent == Some(Ref(a + 1, Whole))
    ensures CodeOf(h1, Ref(a + 1, Condition)) == code
    ensures CodeOf(h1, Ref(a + 1, Init)) == CodeOf(h1, Ref(a + 1, Update)) == CodeOf(h1, Ref(a + 1, Body)) == []
  {
    var parts := LoopParts(a + 1, Some(current), Ref(a, Whole), value, code);
    assert Ref(a + 1, Init) in parts && Ref(a + 1, Update) in parts && Ref(a + 1, Body) in parts;
    assert Ref(a + 1, Condition) in parts && Ref(a + 1, Whole) in parts;
  }

  lemma LoweredFor(h: Heap, h1: Heap, h2: Heap, h3: Heap, h4: Heap, a: nat, n: nat, m: nat, o: nat, hi: nat,
                   current: Ref, value: nat, code: seq<Instruction>, i': Ref, u': Ref, b': Ref,
                   init: Prog, update: Prog, body: Prog, i: Chain, u: Chain, b: Chain)
    requires Bounded(h, a) && IsOpen(h, current) && a + 2 <= n
    requires Opened(h, h1, Some(current), a, LoopParts(a + 1, Some(current), Ref(a, Whole), Some(value), code))
    requires Lowered(h1, h2, n, m, Ref(a + 1, Init), i', init, i)
    requires Lowered(h2, h3, m, o, Ref(a + 1, Update), u', update, u)
    requires Lowered(h3, h4, o, hi, Ref(a + 1, Body), b', body, b)
    ensures Lowered(h, h4, a, hi, current, Ref(a, Whole),
                    Cons(For(init, Operations(code), value, update, body), Nil),
                    Then(current, LoopShape(a + 1, value, i, u, b), End(Ref(a, Whole))))
  {
    hide Lowered, Opened, Filled, Bounded, DistinctConstruct, IsConditionOf;
    OpenedLoopParts(h, h1, current, a, Some(value), code, n);
    LoweredFilled(h1, h2, n, m, Ref(a + 1, Init), i', Ref(a + 1, Condition), init, i);
    FilledSame(h1, h2, n, m, Ref(a + 1, Init), Ref(a + 1, Condition), init, i);
    LoweredFilled(h2, h3, m, o, Ref(a + 1, Update), u', Ref(a + 1, Condition), update, u);
    FilledSame(h2, h3, m, o, Ref(a + 1, Update), Ref(a + 1, Condition), update, u);
    LoweredFilled(h3, h4, o, hi, Ref(a + 1, Body), b', Ref(a + 1, Update), body, b);
    LoopFilled(h1, h2, h3, h4, a, n, m, o, hi, value, code, init, update, body, i, u, b);
    LoweredConstruct(h, h1, h4, a, hi, current, LoopParts(a + 1, Some(current), Ref(a, Whole), Some(value), code),
                     LoopShape(a + 1, value, i, u, b), For(init, Operations(code), value, update, body));
  }

  lemma LoopFilled(h1: Heap, h2: Heap, h3: Heap, h4: Heap, a: nat, n: nat, m: nat, o: nat, hi: nat,
                   value: nat, code: seq<Instruction>, init: Prog, update: Prog, body: Prog, i: Chain, u: Chain, b: Chain)
    requires IsConditionOf(h1, a + 1) && CodeOf(h1, Ref(a + 1, Condition)) == code
    requires Ref(a + 1, Whole) in h1 && h1[Ref(a + 1, Whole)].content == Loop(Some(value), Ref(a, Whole))
    requires Ref(a + 1, Update) in h1 && Ref(a + 1, Body) in h1 && a + 2 <= n
    requires Filled(h1, h2, n, m, Ref(a + 1, Init), Ref(a + 1, Condition), init, i)
    requires Filled(h2, h3, m, o, Ref(a + 1, Update), Ref(a + 1, Condition), update, u)
    requires Filled(h3, h4, o, hi, Ref(a + 1, Body), Ref(a + 1, Update), body, b)
    ensures var k := LoopShape(a + 1, value, i, u, b);
      && RealizesConstruct(h4, k, Ref(a, Whole)) && DenoteConstruct(h4, k) == For(init, Operations(code), value, update, body)
      && Within(ConstructRefs(k), a + 1, hi) && DistinctConstruct(k) && BuiltConstruct(k)
    ensures forall x | x in h1 && x != Ref(a + 1, Init) && x != Ref(a + 1, Update) && x != Ref(a + 1, Body) ::
              x in h4 && h4[x] == h1[x]
    ensures a + 2 <= hi && Bounded(h4, hi)
  {
    LoopApart(a, n, m, o, hi, value, h1, h2, h3, h4, init, update, body, i, u, b);
    LoopFilledAll(h1, h2, h3, h4, a, n, m, o, hi, init, update, body, i, u, b);
    assert Bounded(h4, hi);
    FilledSame(h1, h2, n, m, Ref(a + 1, Init), Ref(a + 1, Condition), init, i);
    FilledSame(h2, h3, m, o, Ref(a + 1, Update), Ref(a + 1, Condition), update, u);
    FilledSame(h3, h4, o, hi, Ref(a + 1, Body), Ref(a + 1, Update), body, b);
    assert First(i) == Ref(a + 1, Init) && First(u) == Ref(a + 1, Update) && First(b) == Ref(a + 1, Body);
    hide Distinct, Bounded, Denote, Realizes, DistinctConstruct, BuiltConstruct, ConstructRefs, Within, Filled;
  }

  lemma LoopFilledAll(h1: Heap, h2: Heap, h3: Heap, h4: Heap, a: nat, n: nat, m: nat, o: nat, hi: nat,
                      init: Prog, update: Prog, body: Prog, i: Chain, u: Chain, b: Chain)
    requires Filled(h1, h2, n, m, Ref(a + 1, Init), Ref(a + 1, Condition), init, i)
    requires Filled(h2, h3, m, o, Ref(a + 1, Update), Ref(a + 1, Condition), update, u)
    requires Filled(h3, h4, o, hi, Ref(a + 1, Body), Ref(a + 1, Update), body, b)
    requires Ref(a + 1, Update) in h1 && Ref(a + 1, Body) in h1 && a + 2 <= n
    ensures Realizes(h4, i, Some(Ref(a + 1, Condition))) && Denote(h4, i) == init
    ensures Realizes(h4, u, Some(Ref(a + 1, Condition))) && Denote(h4, u) == update
    ensures Realizes(h4, b, Some(Ref(a + 1, Update))) && Denote(h4, b) == body
  {
    hide Distinct, Bounded, Denote, Realizes;
    FilledBoth(h1, h2, h3, n, m, o, Ref(a + 1, Init), Ref(a + 1, Update), Ref(a + 1, Condition), Ref(a + 1, Condition),
               init, update, i, u);
    FilledBoth(h2, h3, h4, m, o, hi, Ref(a + 1, Update), Ref(a + 1, Body), Ref(a + 1, Condition), Ref(a + 1, Update),
               update, body, u, b);
    assert AgreeOn(h3, h4, Refs(i));
    Frame(h3, h4, i, Some(Ref(a + 1, Condition)));
  }

  /** The parts of a loop are made one after the other, so they do not share memory. */
  lemma LoopApart(a: nat, n: nat, m: nat, o: nat, hi: nat, value: nat, h1: Heap, h2: Heap, h3: Heap, h4: Heap,
                  init: Prog, update: Prog, body: Prog, i: Chain, u: Chain, b: Chain)
    requires Filled(h1, h2, n, m, Ref(a + 1, Init), Ref(a + 1, Condition), init, i)
    requires Filled(h2, h3, m, o, Ref(a + 1, Update), Ref(a + 1, Condition), update, u)
    requires Filled(h3, h4, o, hi, Ref(a + 1, Body), Ref(a + 1, Update), body, b)
    requires a + 2 <= n
    ensures var k := LoopShape(a + 1, value, i, u, b);
      Within(ConstructRefs(k), a + 1, hi) && DistinctConstruct(k) && BuiltConstruct(k)
  {
    hide Filled, PartWithin, Refs, Distinct, Built;
    FilledPart(h1, h2, n, m, Ref(a + 1, Init), Ref(a + 1, Condition), init, i);
    FilledPart(h2, h3, m, o, Ref(a + 1, Update), Ref(a + 1, Condition), update, u);
    FilledPart(h3, h4, o, hi, Ref(a + 1, Body), Ref(a + 1, Update), body, b);
    PartsApart(i, u, Ref(a + 1, Init), Ref(a + 1, Update), n, m, m, o);
    PartsApart(i, b, Ref(a + 1, Init), Ref(a + 1, Body), n, m, o, hi);
    PartsApart(u, b, Ref(a + 1, Update), Ref(a + 1, Body), m, o, o, hi);
    PartApart(i, Ref(a + 1, Init), n, m, a + 1);
    PartApart(u, Ref(a + 1, Update), m, o, a + 1);
    PartApart(b, Ref(a + 1, Body), o, hi, a + 1);
  }

  // ----- SWITCH -----

  function SwitchParts(a: nat, parent: Option<Ref>, join: Ref, value: Option<nat>, code: seq<Instruction>): Heap {
    var w := Ref(a, Whole);
    map[w := Node(parent, MultiWay(value, [], None, join)), Ref(a, Condition) := Node(Some(w), Sequential(code, None))]
  }

  /** The node of a switch to whose list the arms `entries` were added, the last one at the head. */
  function WithArms(n: Node, entries: seq<ArmEntry>, defaultArm: Option<nat>): Node
    requires n.content.MultiWay?
  {
    var MultiWay(value, arms, d, join) := n.content;
    n.(content := MultiWay(value, entries + arms, if defaultArm.Some? then defaultArm else d, join))
  }

  ghost predicate IsSwitch(h: Heap, a: nat, join: Ref) {
    && Ref(a, Whole) in h && h[Ref(a, Whole)].content.MultiWay? && h[Ref(a, Whole)].content.join == join
    && join in h && join != Ref(a, Whole)
  }

  /** A new arm at address `b` was added to the switch at `a`. */
  ghost predicate OpenedCase(h: Heap, h': Heap, a: nat, b: nat, join: Ref, key: Option<int>) {
    && IsSwitch(h, a, join)
    && h' == h[Ref(b, IfTrue) := Node(Some(Ref(a, Whole)), Sequential([], Some(join)))]
              [Ref(a, Whole) := WithArms(h[Ref(a, Whole)], [ArmEntry(b, key)], if key.None? then Some(b) else None)]
  }

  function AppendArms(arms: Arms, more: Arms): Arms {
    match arms
    case NoArms => more
    case Arm(base, key, chain, next) => Arm(base, key, chain, AppendArms(next, more))
  }

  /** Lowering `cases` inside the switch at `a` added `arms` to it, in reverse order. */
  ghost predicate CasesLowered(h: Heap, h': Heap, lo: nat, hi: nat, a: nat, join: Ref, cases: Cases, arms: Arms) {
    && lo <= hi && Bounded(h', hi) && IsSwitch(h, a, join) && h.Keys <= h'.Keys
    && h'[Ref(a, Whole)] == WithArms(h[Ref(a, Whole)], Entries(arms), DefaultArm(arms))
    && (forall r | r in h && r != Ref(a, Whole) :: h'[r] == h[r])
    && Within(ArmRefs(arms), lo, hi) && ArmRefs(arms) <= h'.Keys && DistinctArms(arms) && BuiltArms(arms)
    && RealizesArms(h', arms, join) && DenoteArms(h', arms, NoCases) == cases
  }

  lemma {:induction false} AppendArmsFacts(h: Heap, arms: Arms, more: Arms, join: Ref, later: Cases)
    ensures Entries(AppendArms(arms, more)) == Entries(arms) + Entries(more)
    ensures DefaultArm(AppendArms(arms, more)) == if DefaultArm(arms).Some? then DefaultArm(arms) else DefaultArm(more)
    ensures ArmRefs(AppendArms(arms, more)) == ArmRefs(arms) + ArmRefs(more)
    ensures DistinctArms(arms) && DistinctArms(more) && ArmRefs(arms) !! ArmRefs(more) ==> DistinctArms(AppendArms(arms, more))
    ensures BuiltArms(arms) && BuiltArms(more) ==> BuiltArms(AppendArms(arms, more))
    ensures RealizesArms(h, arms, join) && RealizesArms(h, more, join) ==> RealizesArms(h, AppendArms(arms, more), join)
    ensures DenoteArms(h, AppendArms(arms, more), later) == DenoteArms(h, more, DenoteArms(h, arms, later))
  {
    hide Denote, Realizes, Distinct, Refs;
    match arms
    case NoArms =>
    case Arm(_, key, chain, next) => AppendArmsFacts(h, next, more, join, Case(key, Denote(h, chain), later));
  }

  lemma NoCasesLowered(h: Heap, lo: nat, a: nat, join: Ref)
    requires Bounded(h, lo) && IsSwitch(h, a, join)
    ensures CasesLowered(h, h, lo, lo, a, join, NoCases, NoArms)
  {
  }

  lemma OpenedCaseParts(h: Heap, h1: Heap, a: nat, b: nat, join: Ref, key: Option<int>)
    requires Bounded(h, b) && OpenedCase(h, h1, a, b, join, key)
    ensures Bounded(h1, b + 1) && IsSwitch(h, a, join) && IsSwitch(h1, a, join) && IsOpen(h1, Ref(b, IfTrue))
    ensures CodeOf(h1, Ref(b, IfTrue)) == [] && Successor(h1, Ref(b, IfTrue)) == Some(join)
    ensures h1[join].parent != Some(Ref(b, IfTrue))
    ensures h1[Ref(a, Whole)] == WithArms(h[Ref(a, Whole)], [ArmEntry(b, key)], if key.None? then Some(b) else None)
    ensures forall r | r in h && r != Ref(a, Whole) :: r in h1 && h1[r] == h[r]
    ensures h1.Keys == h.Keys + {Ref(b, IfTrue)} && Ref(b, IfTrue) !in h
  {
  }

  lemma CasesThen(h: Heap, h1: Heap, h2: Heap, h3: Heap, b: nat, m: nat, hi: nat, a: nat, join: Ref,
                  key: Option<int>, body: Prog, c': Ref, c: Chain, rest: Cases, arms: Arms)
    requires Bounded(h, b) && OpenedCase(h, h1, a, b, join, key)
    requires Lowered(h1, h2, b + 1, m, Ref(b, IfTrue), c', body, c)
    requires CasesLowered(h2, h3, m, hi, a, join, rest, arms)
    ensures CasesLowered(h, h3, b, hi, a, join, Case(key, body, rest), AppendArms(arms, Arm(b, key, c, NoArms)))
  {
    hide Lowered, Filled, Bounded, CasesLowered, OpenedCase;
    OpenedCaseParts(h, h1, a, b, join, key);
    LoweredFilled(h1, h2, b + 1, m, Ref(b, IfTrue), c', join, body, c);
    CaseFilled(h, h1, h2, h3, b, m, hi, a, join, key, body, c, rest, arms);
  }

  /** A filled arm by itself. */
  lemma OneArm(h1: Heap, h2: Heap, h3: Heap, b: nat, m: nat, join: Ref, key: Option<int>, body: Prog, c: Chain, rest: Cases)
    requires Filled(h1, h2, b + 1, m, Ref(b, IfTrue), join, body, c) && AgreeOn(h2, h3, Refs(c))
    ensures var one := Arm(b, key, c, NoArms);
      && ArmRefs(one) == Refs(c) && DistinctArms(one) && BuiltArms(one) && RealizesArms(h3, one, join)
      && DenoteArms(h3, one, rest) == Case(key, body, rest)
      && Entries(one) == [ArmEntry(b, key)] && DefaultArm(one) == if key.None? then Some(b) else None
  {
    hide Distinct, Denote, Realizes, Refs, Built;
    Frame(h2, h3, c, Some(join));
  }

  lemma ArmsAdded(n: Node, n1: Node, n2: Node, arms: Arms, one: Arms)
    requires n.content.MultiWay? && n1 == WithArms(n, Entries(one), DefaultArm(one))
    requires n2 == WithArms(n1, Entries(arms), DefaultArm(arms))
    ensures n2 == WithArms(n, Entries(arms) + Entries(one), if DefaultArm(arms).Some? then DefaultArm(arms) else DefaultArm(one))
  {
    assert Entries(arms) + Entries(one) + n.content.arms == Entries(arms) + (Entries(one) + n.content.arms);
  }

  lemma CaseFilled(h: Heap, h1: Heap, h2: Heap, h3: Heap, b: nat, m: nat, hi: nat, a: nat, join: Ref,
                   key: Option<int>, body: Prog, c: Chain, rest: Cases, arms: Arms)
    requires IsSwitch(h, a, join) && IsSwitch(h1, a, join) && Bounded(h1, b + 1)
    requires h1[Ref(a, Whole)] == WithArms(h[Ref(a, Whole)], [ArmEntry(b, key)], if key.None? then Some(b) else None)
    requires forall r | r in h && r != Ref(a, Whole) :: r in h1 && h1[r] == h[r]
    requires h1.Keys == h.Keys + {Ref(b, IfTrue)} && Ref(b, IfTrue) !in h && Bounded(h, b)
    requires Filled(h1, h2, b + 1, m, Ref(b, IfTrue), join, body, c)
    requires CasesLowered(h2, h3, m, hi, a, join, rest, arms)
    ensures CasesLowered(h, h3, b, hi, a, join, Case(key, body, rest), AppendArms(arms, Arm(b, key, c, NoArms)))
  {
    hide Distinct, Denote, Realizes, Refs, Built, ArmRefs, DistinctArms, BuiltArms, RealizesArms, DenoteArms;
    hide Entries, DefaultArm, AppendArms, WithArms;
    var one := Arm(b, key, c, NoArms);
    OneArm(h1, h2, h3, b, m, join, key, body, c, rest);
    AppendArmsFacts(h3, arms, one, join, NoCases);
    ArmsAdded(h[Ref(a, Whole)], h1[Ref(a, Whole)], h3[Ref(a, Whole)], arms, one);
  }

  lemma OpenedSwitchParts(h: Heap, h1: Heap, current: Ref, a: nat, value: Option<nat>, code: seq<Instruction>, n: nat)
    requires Bounded(h, a) && IsOpen(h, current) && a + 2 <= n
    requires Opened(h, h1, Some(current), a, SwitchParts(a + 1, Some(current), Ref(a, Whole), value, code))
    ensures Bounded(h1, n) && IsSwitch(h1, a + 1, Ref(a, Whole)) && IsConditionOf(h1, a + 1)
    ensures h1[Ref(a + 1, Whole)].content == MultiWay(value, [], None, Ref(a, Whole))
    ensures CodeOf(h1, Ref(a + 1, Condition)) == code
    ensures IsOpen(h1, Ref(a, Whole))
  {
    var parts := SwitchParts(a + 1, Some(current), Ref(a, Whole), value, code);
    assert Ref(a + 1, Condition) in parts && Ref(a + 1, Whole) in parts;
  }

  lemma SwitchFilled(h1: Heap, h2: Heap, a: nat, n: nat, hi: nat, value: nat, code: seq<Instruction>,
                     cases: Cases, arms: Arms)
    requires IsConditionOf(h1, a + 1) && CodeOf(h1, Ref(a + 1, Condition)) == code && a + 2 <= n
    requires Ref(a + 1, Whole) in h1 && h1[Ref(a + 1, Whole)].content == MultiWay(Some(value), [], None, Ref(a, Whole))
    requires CasesLowered(h1, h2, n, hi, a + 1, Ref(a, Whole), cases, arms)
    ensures var k := SwitchShape(a + 1, value, arms);
      && RealizesConstruct(h2, k, Ref(a, Whole)) && DenoteConstruct(h2, k) == Switch(Operations(code), value, cases)
      && Within(ConstructRefs(k), a + 1, hi) && DistinctConstruct(k) && BuiltConstruct(k)
    ensures forall x | x in h1 && x != Ref(a + 1, Whole) :: x in h2 && h2[x] == h1[x]
    ensures a + 2 <= hi && Bounded(h2, hi)
  {
    hide DistinctArms, RealizesArms, DenoteArms, Bounded;
    assert Entries(arms) + [] == Entries(arms);
  }

  lemma LoweredSwitch(h: Heap, h1: Heap, h2: Heap, a: nat, n: nat, hi: nat, current: Ref,
                      value: nat, code: seq<Instruction>, cases: Cases, arms: Arms)
    requires Bounded(h, a) && IsOpen(h, current) && a + 2 <= n
    requires Opened(h, h1, Some(current), a, SwitchParts(a + 1, Some(current), Ref(a, Whole), Some(value), code))
    requires CasesLowered(h1, h2, n, hi, a + 1, Ref(a, Whole), cases, arms)
    ensures Lowered(h, h2, a, hi, current, Ref(a, Whole), Cons(Switch(Operations(code), value, cases), Nil),
                    Then(current, SwitchShape(a + 1, value, arms), End(Ref(a, Whole))))
  {
    hide Lowered, Opened, Bounded, CasesLowered, DistinctConstruct;
    OpenedSwitchParts(h, h1, current, a, Some(value), code, n);
    SwitchFilled(h1, h2, a, n, hi, value, code, cases, arms);
    LoweredConstruct(h, h1, h2, a, hi, current, SwitchParts(a + 1, Some(current), Ref(a, Whole), Some(value), code),
                     SwitchShape(a + 1, value, arms), Switch(Operations(code), value, cases));
  }
}
