/** Which nodes the entry of a graph leads to, pointer by pointer, and where chains end. */
module Pointing {
  import opened Mir
  import opened Shape
  import opened Lowering
  import opened Edges
  import opened Reachability
  import opened Traversal

  // ----- what can be reached through pointers -----

  /** The nodes that a node contains or points to. Parents are not followed. */
  function Pointers(h: Heap, r: Ref): set<Ref> {
    if r !in h then {}
    else match h[r].content
      case Sequential(_, successor) => if successor.Some? then {successor.value} else {}
      case Conditional(_, join) => {Ref(r.base, Condition), Ref(r.base, IfTrue), Ref(r.base, IfFalse), join}
      case MultiWay(_, arms, _, join) => {Ref(r.base, Condition), join} + set e | e in arms :: Ref(e.base, IfTrue)
      case Loop(_, join) => {Ref(r.base, Init), Ref(r.base, Condition), Ref(r.base, Update), Ref(r.base, Body), join}
  }

  ghost predicate PointsIn(h: Heap, a: Ref, b: Ref, n: nat)
    decreases n
  {
    if n == 0 then a == b else exists t :: t in Pointers(h, a) && PointsIn(h, t, b, n - 1)
  }

  ghost predicate PointsTo(h: Heap, a: Ref, b: Ref) {
    exists n: nat :: PointsIn(h, a, b, n)
  }

  ghost predicate PointsToAll(h: Heap, a: Ref, bs: set<Ref>) {
    forall b | b in bs :: PointsTo(h, a, b)
  }

  lemma {:induction false} PointsInThen(h: Heap, a: Ref, b: Ref, c: Ref, n: nat, n': nat)
    requires PointsIn(h, a, b, n) && PointsIn(h, b, c, n')
    ensures PointsIn(h, a, c, n + n')
    decreases n
  {
    if n > 0 {
      var t :| t in Pointers(h, a) && PointsIn(h, t, b, n - 1);
      PointsInThen(h, t, b, c, n - 1, n');
    }
  }

  lemma PointsToThen(h: Heap, a: Ref, b: Ref, cs: set<Ref>)
    requires PointsTo(h, a, b) && PointsToAll(h, b, cs)
    ensures PointsToAll(h, a, cs)
  {
    forall c | c in cs ensures PointsTo(h, a, c) {
      var n: nat :| PointsIn(h, a, b, n);
      var n': nat :| PointsIn(h, b, c, n');
      PointsInThen(h, a, b, c, n, n');
    }
  }

  lemma PointsDirectly(h: Heap, a: Ref)
    ensures PointsTo(h, a, a) && PointsToAll(h, a, Pointers(h, a))
  {
    assert PointsIn(h, a, a, 0);
    forall b | b in Pointers(h, a) ensures PointsTo(h, a, b) {
      assert PointsIn(h, b, b, 0);
      assert PointsIn(h, a, b, 1);
    }
  }

  lemma PointsVia(h: Heap, a: Ref, b: Ref, cs: set<Ref>)
    requires PointsTo(h, a, b) && cs <= Pointers(h, b)
    ensures PointsToAll(h, a, cs)
  {
    PointsDirectly(h, b);
    PointsToThen(h, a, b, cs);
  }

  /** Everything on a chain can be reached from anywhere that its first block can be reached from. */
  lemma {:induction false} ChainPointed(h: Heap, c: Chain, exit: Option<Ref>, a: Ref)
    requires Realizes(h, c, exit) && PointsTo(h, a, First(c))
    ensures PointsToAll(h, a, Refs(c))
    decreases c
  {
    match c
    case End(b) =>
    case Link(b, rest) =>
      PointsVia(h, a, b, {First(rest)});
      ChainPointed(h, rest, exit, a);
    case Then(b, k, rest) =>
      PointsVia(h, a, b, {Ref(k.base, Whole)});
      PointsVia(h, a, Ref(k.base, Whole), {First(rest)});
      ConstructPointed(h, k, First(rest), a);
      ChainPointed(h, rest, exit, a);
  }

  lemma {:induction false} ConstructPointed(h: Heap, k: Construct, join: Ref, a: Ref)
    requires RealizesConstruct(h, k, join) && PointsTo(h, a, Ref(k.base, Whole))
    ensures PointsToAll(h, a, ConstructRefs(k))
    decreases k
  {
    var w := Ref(k.base, Whole);
    PointsVia(h, a, w, {Ref(k.base, Condition)});
    match k
    case IfShape(_, _, thn, els) =>
      PointsVia(h, a, w, {First(thn)});
      PointsVia(h, a, w, {First(els)});
      ChainPointed(h, thn, Some(join), a);
      ChainPointed(h, els, Some(join), a);
    case SwitchShape(_, _, arms) =>
      ArmFirstsAreEntries(h, arms, join);
      ArmsPointed(h, arms, join, a, w);
    case LoopShape(_, _, init, update, body) =>
      PointsVia(h, a, w, {First(init)});
      PointsVia(h, a, w, {First(update)});
      PointsVia(h, a, w, {First(body)});
      ChainPointed(h, init, Some(Ref(k.base, Condition)), a);
      ChainPointed(h, update, Some(Ref(k.base, Condition)), a);
      ChainPointed(h, body, Some(Ref(k.base, Update)), a);
  }

  lemma {:induction false} ArmsPointed(h: Heap, arms: Arms, join: Ref, a: Ref, w: Ref)
    requires RealizesArms(h, arms, join) && PointsTo(h, a, w) && SetOf(ArmFirsts(arms)) <= Pointers(h, w)
    ensures PointsToAll(h, a, ArmRefs(arms))
    decreases arms
  {
    match arms
    case NoArms =>
    case Arm(_, _, chain, next) =>
      assert First(chain) in ArmFirsts(arms);
      assert forall r | r in ArmFirsts(next) :: r in ArmFirsts(arms);
      PointsVia(h, a, w, {First(chain)});
      ChainPointed(h, chain, Some(join), a);
      ArmsPointed(h, next, join, a, w);
  }

  /** The nodes of `rs` point to nodes of `rs` and to `exits`. */
  ghost predicate Closed(h: Heap, rs: set<Ref>, exits: set<Ref>) {
    forall r | r in rs :: Pointers(h, r) <= rs + exits
  }

  lemma {:induction false} ChainClosed(h: Heap, c: Chain, exit: Option<Ref>)
    requires Realizes(h, c, exit)
    ensures Closed(h, Refs(c), ExitSet(exit))
    decreases c
  {
    match c
    case End(b) =>
    case Link(b, rest) =>
      ChainClosed(h, rest, exit);
      FirstInRefs(rest);
    case Then(b, k, rest) =>
      ChainClosed(h, rest, exit);
      FirstInRefs(rest);
      ConstructClosed(h, k, First(rest));
      assert Ref(k.base, Whole) in ConstructRefs(k);
  }

  lemma {:induction false} ConstructClosed(h: Heap, k: Construct, join: Ref)
    requires RealizesConstruct(h, k, join)
    ensures Closed(h, ConstructRefs(k), {join})
    decreases k
  {
    var cond := Ref(k.base, Condition);
    match k
    case IfShape(_, _, thn, els) =>
      ChainClosed(h, thn, Some(join));
      ChainClosed(h, els, Some(join));
      FirstInRefs(thn);
      FirstInRefs(els);
    case SwitchShape(_, _, arms) =>
      ArmFirstsAreEntries(h, arms, join);
      ArmsClosed(h, arms, join);
    case LoopShape(_, _, init, update, body) =>
      ChainClosed(h, init, Some(cond));
      ChainClosed(h, update, Some(cond));
      ChainClosed(h, body, Some(First(update)));
      FirstInRefs(init);
      FirstInRefs(update);
      FirstInRefs(body);
  }

  lemma {:induction false} ArmsClosed(h: Heap, arms: Arms, join: Ref)
    requires RealizesArms(h, arms, join)
    ensures Closed(h, ArmRefs(arms), {join}) && SetOf(ArmFirsts(arms)) <= ArmRefs(arms)
    decreases arms
  {
    match arms
    case NoArms =>
    case Arm(_, _, chain, next) =>
      ChainClosed(h, chain, Some(join));
      FirstInRefs(chain);
      ArmsClosed(h, next, join);
  }

  lemma {:induction false} PointedInClosed(h: Heap, rs: set<Ref>, a: Ref, b: Ref, n: nat)
    requires Closed(h, rs, {}) && a in rs && PointsIn(h, a, b, n)
    ensures b in rs
    decreases n
  {
    if n > 0 {
      var t :| t in Pointers(h, a) && PointsIn(h, t, b, n - 1);
      PointedInClosed(h, rs, t, b, n - 1);
    }
  }

  /** The nodes of the graph are exactly those that can be reached from the entry through pointers. */
  lemma GraphIsReachable(h: Heap, c: Chain, r: Ref)
    requires IsProperGraph(h, c)
    ensures r in Refs(WholeGraph(c)) <==> PointsTo(h, ENTRY, r)
  {
    var g := WholeGraph(c);
    WholeGraphFacts(h, c);
    PointsDirectly(h, ENTRY);
    ChainPointed(h, g, None, ENTRY);
    ChainClosed(h, g, None);
    FirstInRefs(g);
    if n: nat :| PointsIn(h, ENTRY, r, n) {
      PointedInClosed(h, Refs(g), ENTRY, r, n);
    }
  }

  // ----- the predecessors of a join -----

  /** A branch has exactly one block that continues at its join: the last block of the branch. Blocks of
      nested constructs continue at joins of their own. */
  lemma {:induction false} LastIsUnique(h: Heap, c: Chain, join: Ref, b: Ref)
    requires Realizes(h, c, Some(join)) && join !in Refs(c) && b in Refs(c)
    ensures IsBlockTo(h, b, Some(join)) <==> b == Last(c)
    decreases c
  {
    LastFacts(h, c, Some(join));
    match c
    case End(_) =>
    case Link(b', rest) =>
      FirstInRefs(rest);
      LastFacts(h, rest, Some(join));
      if b in Refs(rest) {
        LastIsUnique(h, rest, join, b);
      }
    case Then(b', k, rest) =>
      FirstInRefs(rest);
      LastFacts(h, rest, Some(join));
      if b in Refs(rest) {
        LastIsUnique(h, rest, join, b);
      } else if b in ConstructRefs(k) {
        ConstructClosed(h, k, First(rest));
        assert Pointers(h, b) <= ConstructRefs(k) + {First(rest)};
      }
  }
}
