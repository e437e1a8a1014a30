/** The order in which a traversal visits blocks, by their places in the list of visits. */
module Order {
  import opened Mir
  import opened Shape
  import opened Execution
  import opened Edges

  /** Every visit to one of the blocks `a` comes before every visit to one of the blocks `b`. */
  ghost predicate Before(t: seq<Visit>, a: set<Ref>, b: set<Ref>) {
    forall i, j | 0 <= i < |t| && 0 <= j < |t| && t[i].block in a && t[j].block in b :: i < j
  }

  // ----- the parts of a graph -----

  /** `d` is a piece of `c`: what is left of its line of control, or of that of a part of one of its constructs. */
  ghost predicate HasPart(c: Chain, d: Chain) {
    || c == d
    || match c
       case End(_) => false
       case Link(_, rest) => HasPart(rest, d)
       case Then(_, k, rest) => ConstructHasPart(k, d) || HasPart(rest, d)
  }

  ghost predicate ConstructHasPart(k: Construct, d: Chain) {
    match k
    case IfShape(_, _, thn, els) => HasPart(thn, d) || HasPart(els, d)
    case SwitchShape(_, _, arms) => ArmsHavePart(arms, d)
    case LoopShape(_, _, init, update, body) => HasPart(init, d) || HasPart(update, d) || HasPart(body, d)
  }

  ghost predicate ArmsHavePart(arms: Arms, d: Chain) {
    match arms
    case NoArms => false
    case Arm(_, _, chain, next) => HasPart(chain, d) || ArmsHavePart(next, d)
  }

  function ArmCount(arms: Arms): nat {
    match arms
    case NoArms => 0
    case Arm(_, _, _, next) => 1 + ArmCount(next)
  }

  /** The chain of the i-th arm in the list. */
  function ArmChain(arms: Arms, i: nat): Chain
    requires i < ArmCount(arms)
  {
    if i == 0 then arms.chain else ArmChain(arms.next, i - 1)
  }

  /** The i-th arm of a switch is the one that the i-th entry of the list in memory stands for. */
  lemma {:induction false} ArmInMemory(h: Heap, arms: Arms, join: Ref, i: nat)
    requires RealizesArms(h, arms, join)
    ensures ArmCount(arms) == |Entries(arms)| == |ArmFirsts(arms)| == |ArmLasts(arms)|
    ensures i < ArmCount(arms) ==>
      && ArmFirsts(arms)[i] == First(ArmChain(arms, i)) && ArmLasts(arms)[i] == Last(ArmChain(arms, i))
      && First(ArmChain(arms, i)) == Ref(Entries(arms)[i].base, IfTrue)
      && Realizes(h, ArmChain(arms, i), Some(join)) && Blocks(ArmChain(arms, i)) <= ArmBlocks(arms)
    decreases arms
  {
    hide Realizes, Blocks;
    if arms.Arm? {
      ArmInMemory(h, arms.next, join, if i == 0 then 0 else i - 1);
    }
  }

  // ----- the order -----

  /** A block comes before all that follows it, and a construct before what follows the construct. */
  ghost predicate Ordered(t: seq<Visit>, c: Chain) {
    match c
    case End(_) => true
    case Link(b, rest) => Before(t, {b}, Blocks(rest))
    case Then(b, k, rest) =>
      && Before(t, {b}, ConstructBlocks(k)) && Before(t, {b}, Blocks(rest))
      && Before(t, ConstructBlocks(k), Blocks(rest)) && OrderedConstruct(t, k)
  }

  /** The condition comes first and then the branches, or arms, in order; of a loop the initialization comes
      first, and then the body, the update and the condition. */
  ghost predicate OrderedConstruct(t: seq<Visit>, k: Construct) {
    var cond := {Ref(k.base, Condition)};
    match k
    case IfShape(_, _, thn, els) =>
      Before(t, cond, Blocks(thn)) && Before(t, cond, Blocks(els)) && Before(t, Blocks(thn), Blocks(els))
    case SwitchShape(_, _, arms) => Before(t, cond, ArmBlocks(arms)) && ArmsOrdered(t, arms)
    case LoopShape(_, _, init, update, body) =>
      && Before(t, Blocks(init), Blocks(body)) && Before(t, Blocks(init), Blocks(update)) && Before(t, Blocks(init), cond)
      && Before(t, Blocks(body), Blocks(update)) && Before(t, Blocks(body), cond) && Before(t, Blocks(update), cond)
  }

  ghost predicate ArmsOrdered(t: seq<Visit>, arms: Arms) {
    forall i, j | 0 <= i < j < ArmCount(arms) :: Before(t, Blocks(ArmChain(arms, i)), Blocks(ArmChain(arms, j)))
  }

  // ----- visits put together -----

  ghost predicate Only(t: seq<Visit>, bs: set<Ref>) {
    forall i | 0 <= i < |t| :: t[i].block in bs
  }

  lemma OnceIsOnly(t: seq<Visit>, bs: set<Ref>)
    requires VisitsOnce(t, bs)
    ensures Only(t, bs)
  {
    forall i | 0 <= i < |t| ensures t[i].block in bs {
      assert VisitedBlocks(t)[i] in multiset(VisitedBlocks(t));
    }
  }

  lemma OnlyOne(v: Visit)
    ensures Only([v], {v.block})
  {
  }

  lemma OnlyBoth(t: seq<Visit>, t': seq<Visit>, a: set<Ref>, b: set<Ref>)
    requires Only(t, a) && Only(t', b)
    ensures Only(t + t', a + b)
  {
  }

  lemma InTurn(t: seq<Visit>, t': seq<Visit>, a: set<Ref>, b: set<Ref>)
    requires Only(t, a) && Only(t', b) && a !! b
    ensures Before(t + t', a, b)
  {
  }

  /** Visits to other blocks, earlier or later, change nothing. */
  lemma BeforeAround(x: seq<Visit>, y: seq<Visit>, z: seq<Visit>, xs: set<Ref>, zs: set<Ref>, a: set<Ref>, b: set<Ref>)
    requires Before(y, a, b) && Only(x, xs) && Only(z, zs) && xs + zs !! a + b
    ensures Before(x + y + z, a, b)
  {
    var t := x + y + z;
    forall i, j | 0 <= i < |t| && 0 <= j < |t| && t[i].block in a && t[j].block in b ensures i < j {
      assert |x| <= i < |x| + |y| && |x| <= j < |x| + |y|;
    }
  }

  lemma BeforeWithin(t: seq<Visit>, a: set<Ref>, b: set<Ref>, a': set<Ref>, b': set<Ref>)
    requires Before(t, a, b) && a' <= a && b' <= b
    ensures Before(t, a', b')
  {
  }

  lemma OrderedAround(x: seq<Visit>, y: seq<Visit>, z: seq<Visit>, xs: set<Ref>, zs: set<Ref>, d: Chain)
    requires Ordered(y, d) && Only(x, xs) && Only(z, zs) && xs + zs !! Blocks(d)
    ensures Ordered(x + y + z, d)
  {
    hide Before, Only, Blocks, ConstructBlocks, OrderedConstruct;
    BlocksOf(d);
    match d
    case End(_) =>
    case Link(b, rest) => BeforeAround(x, y, z, xs, zs, {b}, Blocks(rest));
    case Then(b, k, rest) =>
      BeforeAround(x, y, z, xs, zs, {b}, ConstructBlocks(k));
      BeforeAround(x, y, z, xs, zs, {b}, Blocks(rest));
      BeforeAround(x, y, z, xs, zs, ConstructBlocks(k), Blocks(rest));
      OrderedConstructAround(x, y, z, xs, zs, k);
  }

  lemma BlocksOf(d: Chain)
    ensures d.block in Blocks(d) && (!d.End? ==> Blocks(d.rest) <= Blocks(d))
    ensures d.Then? ==> ConstructBlocks(d.construct) <= Blocks(d)
  {
  }

  lemma OrderedConstructAround(x: seq<Visit>, y: seq<Visit>, z: seq<Visit>, xs: set<Ref>, zs: set<Ref>, k: Construct)
    requires OrderedConstruct(y, k) && Only(x, xs) && Only(z, zs) && xs + zs !! ConstructBlocks(k)
    ensures OrderedConstruct(x + y + z, k)
  {
    hide Before, Only, Blocks;
    var cond := {Ref(k.base, Condition)};
    match k
    case IfShape(_, _, thn, els) =>
      BeforeAround(x, y, z, xs, zs, cond, Blocks(thn));
      BeforeAround(x, y, z, xs, zs, cond, Blocks(els));
      BeforeAround(x, y, z, xs, zs, Blocks(thn), Blocks(els));
    case SwitchShape(_, _, arms) =>
      BeforeAround(x, y, z, xs, zs, cond, ArmBlocks(arms));
      ArmsOrderedAround(x, y, z, xs, zs, arms);
    case LoopShape(_, _, init, update, body) =>
      BeforeAround(x, y, z, xs, zs, Blocks(init), Blocks(body));
      BeforeAround(x, y, z, xs, zs, Blocks(init), Blocks(update));
      BeforeAround(x, y, z, xs, zs, Blocks(init), cond);
      BeforeAround(x, y, z, xs, zs, Blocks(body), Blocks(update));
      BeforeAround(x, y, z, xs, zs, Blocks(body), cond);
      BeforeAround(x, y, z, xs, zs, Blocks(update), cond);
  }

  lemma ArmsOrderedAround(x: seq<Visit>, y: seq<Visit>, z: seq<Visit>, xs: set<Ref>, zs: set<Ref>, arms: Arms)
    requires ArmsOrdered(y, arms) && Only(x, xs) && Only(z, zs) && xs + zs !! ArmBlocks(arms)
    ensures ArmsOrdered(x + y + z, arms)
  {
    hide Before, Only, Blocks, ArmBlocks;
    forall i, j | 0 <= i < j < ArmCount(arms)
      ensures Before(x + y + z, Blocks(ArmChain(arms, i)), Blocks(ArmChain(arms, j)))
    {
      ArmChainInside(arms, i);
      ArmChainInside(arms, j);
      BeforeAround(x, y, z, xs, zs, Blocks(ArmChain(arms, i)), Blocks(ArmChain(arms, j)));
    }
  }

  lemma {:induction false} ArmChainInside(arms: Arms, i: nat)
    requires i < ArmCount(arms)
    ensures Blocks(ArmChain(arms, i)) <= ArmBlocks(arms)
  {
    if i > 0 {
      ArmChainInside(arms.next, i - 1);
    }
  }

  // ----- what a part is made of -----

  lemma {:induction false} PartInside(c: Chain, d: Chain)
    requires HasPart(c, d)
    ensures Blocks(d) <= Blocks(c)
    decreases c
  {
    if c != d {
      match c
      case End(_) =>
      case Link(_, rest) => PartInside(rest, d);
      case Then(_, k, rest) =>
        if ConstructHasPart(k, d) {
          ConstructPartInside(k, d);
        } else {
          PartInside(rest, d);
        }
    }
  }

  lemma {:induction false} ConstructPartInside(k: Construct, d: Chain)
    requires ConstructHasPart(k, d)
    ensures Blocks(d) <= ConstructBlocks(k)
    decreases k
  {
    match k
    case IfShape(_, _, thn, els) =>
      if HasPart(thn, d) { PartInside(thn, d); } else { PartInside(els, d); }
    case SwitchShape(_, _, arms) => ArmPartInside(arms, d);
    case LoopShape(_, _, init, update, body) =>
      if HasPart(init, d) { PartInside(init, d); }
      else if HasPart(update, d) { PartInside(update, d); }
      else { PartInside(body, d); }
  }

  lemma {:induction false} ArmPartInside(arms: Arms, d: Chain)
    requires ArmsHavePart(arms, d)
    ensures Blocks(d) <= ArmBlocks(arms)
    decreases arms
  {
    match arms
    case NoArms =>
    case Arm(_, _, chain, next) =>
      if HasPart(chain, d) { PartInside(chain, d); } else { ArmPartInside(next, d); }
  }

  lemma TraceOnly(c: Chain, preds: seq<Ref>, outs: seq<Ref>)
    requires Distinct(c)
    ensures Only(Trace(c, preds, outs), Blocks(c))
  {
    TraceVisitsOnce(c, preds, outs);
    OnceIsOnly(Trace(c, preds, outs), Blocks(c));
  }

  lemma TraceConstructOnly(k: Construct, preds: seq<Ref>, join: Ref)
    requires DistinctConstruct(k)
    ensures Only(TraceConstruct(k, preds, join), ConstructBlocks(k))
  {
    TraceConstructVisitsOnce(k, preds, join);
    OnceIsOnly(TraceConstruct(k, preds, join), ConstructBlocks(k));
  }

  lemma TraceArmsOnly(arms: Arms, preds: seq<Ref>, outs: seq<Ref>)
    requires DistinctArms(arms)
    ensures Only(TraceArms(arms, preds, outs), ArmBlocks(arms))
  {
    TraceArmsVisitsOnce(arms, preds, outs);
    OnceIsOnly(TraceArms(arms, preds, outs), ArmBlocks(arms));
  }

  // ----- a traversal is in order -----

  /** The visits of a piece lie among other visits, before and after it. */
  lemma OrderedAmong(t: seq<Visit>, x: seq<Visit>, y: seq<Visit>, z: seq<Visit>, xs: set<Ref>, zs: set<Ref>,
                     inside: set<Ref>, d: Chain)
    requires t == x + y + z && Ordered(y, d) && Only(x, xs) && Only(z, zs) && xs + zs !! inside && Blocks(d) <= inside
    ensures Ordered(t, d)
  {
    hide Ordered, Only, Blocks;
    OrderedAround(x, y, z, xs, zs, d);
  }

  /** Three stretches of visits in a row. */
  lemma ThreeInTurn(x: seq<Visit>, y: seq<Visit>, z: seq<Visit>, a: set<Ref>, b: set<Ref>, c: set<Ref>)
    requires Only(x, a) && Only(y, b) && Only(z, c) && a !! b !! c
    ensures Before(x + y + z, a, b) && Before(x + y + z, a, c) && Before(x + y + z, b, c)
  {
    hide Before, Only;
    OnlyBoth(y, z, b, c);
    InTurn(x, y + z, a, b + c);
    assert x + (y + z) == x + y + z;
    BeforeWithin(x + y + z, a, b + c, a, b);
    BeforeWithin(x + y + z, a, b + c, a, c);
    OnlyBoth(x, y, a, b);
    InTurn(x + y, z, a + b, c);
    BeforeWithin(x + y + z, a + b, c, b, c);
  }

  lemma {:induction false} TraceOrdered(c: Chain, preds: seq<Ref>, outs: seq<Ref>, d: Chain)
    requires Distinct(c) && HasPart(c, d)
    ensures Ordered(Trace(c, preds, outs), d)
    decreases c
  {
    hide Ordered, Only, OrderedConstruct;
    if d == c {
      TraceInOrder(c, preds, outs);
    } else {
      PartInside(c, d);
      match c
      case End(_) =>
      case Link(b, rest) =>
        LaterPart(c, preds, outs, d);
      case Then(b, k, rest) =>
        if ConstructHasPart(k, d) {
          InnerPart(c, preds, outs, d);
        } else {
          LaterPart(c, preds, outs, d);
        }
    }
  }

  /** A part of what follows the first block, or the construct after it. */
  lemma {:induction false} LaterPart(c: Chain, preds: seq<Ref>, outs: seq<Ref>, d: Chain)
    requires !c.End? && Distinct(c) && HasPart(c.rest, d)
    ensures Ordered(Trace(c, preds, outs), d)
    decreases c, 0
  {
    hide Ordered, Only;
    PartInside(c.rest, d);
    BlocksAreRefs(c.rest);
    match c
    case Link(b, rest) =>
      var v := Visit(b, [First(rest)], preds);
      TraceOrdered(rest, [b], outs, d);
      OnlyOne(v);
      OnlyNone();
      OrderedAmong(Trace(c, preds, outs), [v], Trace(rest, [b], outs), [], {b}, {}, Blocks(rest), d);
    case Then(b, k, rest) =>
      var v, t := Visit(b, [EntryOf(k)], preds), TraceConstruct(k, [b], First(rest));
      TraceOrdered(rest, ExitBlocks(k), outs, d);
      OnlyOne(v);
      OnlyNone();
      ConstructBlocksAreRefs(k);
      TraceConstructOnly(k, [b], First(rest));
      OnlyBoth([v], t, {b}, ConstructBlocks(k));
      OrderedAmong(Trace(c, preds, outs), [v] + t, Trace(rest, ExitBlocks(k), outs), [], {b} + ConstructBlocks(k), {},
                   Blocks(rest), d);
  }

  lemma OnlyNone()
    ensures Only([], {})
  {
  }

  lemma {:induction false} InnerPart(c: Chain, preds: seq<Ref>, outs: seq<Ref>, d: Chain)
    requires c.Then? && Distinct(c) && ConstructHasPart(c.construct, d)
    ensures Ordered(Trace(c, preds, outs), d)
    decreases c, 0
  {
    hide Ordered, Only;
    var Then(b, k, rest) := c;
    var v := Visit(b, [EntryOf(k)], preds);
    ConstructPartInside(k, d);
    ConstructBlocksAreRefs(k);
    BlocksAreRefs(rest);
    TraceConstructOrdered(k, [b], First(rest), d);
    OnlyOne(v);
    TraceOnly(rest, ExitBlocks(k), outs);
    OrderedAmong(Trace(c, preds, outs), [v], TraceConstruct(k, [b], First(rest)), Trace(rest, ExitBlocks(k), outs), {b},
                 Blocks(rest), ConstructBlocks(k), d);
  }

  lemma TraceInOrder(c: Chain, preds: seq<Ref>, outs: seq<Ref>)
    requires Distinct(c)
    ensures Ordered(Trace(c, preds, outs), c)
  {
    hide Before, Only, OrderedConstruct;
    match c
    case End(_) =>
    case Link(b, rest) =>
      var v := Visit(b, [First(rest)], preds);
      OnlyOne(v);
      TraceOnly(rest, [b], outs);
      BlocksAreRefs(rest);
      InTurn([v], Trace(rest, [b], outs), {b}, Blocks(rest));
    case Then(b, k, rest) =>
      var v, t, t' := Visit(b, [EntryOf(k)], preds), TraceConstruct(k, [b], First(rest)), Trace(rest, ExitBlocks(k), outs);
      OnlyOne(v);
      TraceConstructOnly(k, [b], First(rest));
      TraceOnly(rest, ExitBlocks(k), outs);
      ConstructBlocksAreRefs(k);
      BlocksAreRefs(rest);
      assert Trace(c, preds, outs) == [v] + t + t';
      ThreeInTurn([v], t, t', {b}, ConstructBlocks(k), Blocks(rest));
      ConstructInOrder(k, [b], First(rest));
      OrderedConstructAround([v], t, t', {b}, Blocks(rest), k);
  }

  lemma ConstructInOrder(k: Construct, preds: seq<Ref>, join: Ref)
    requires DistinctConstruct(k)
    ensures OrderedConstruct(TraceConstruct(k, preds, join), k)
  {
    hide Before, Only, Blocks, ArmsOrdered;
    var r := Ref(k.base, Condition);
    match k
    case IfShape(_, _, thn, els) =>
      var v := Visit(r, [First(thn), First(els)], preds);
      OnlyOne(v);
      TraceOnly(thn, [r], [join]);
      TraceOnly(els, [r], [join]);
      BlocksAreRefs(thn);
      BlocksAreRefs(els);
      ThreeInTurn([v], Trace(thn, [r], [join]), Trace(els, [r], [join]), {r}, Blocks(thn), Blocks(els));
    case SwitchShape(_, _, arms) => SwitchInOrder(k.base, arms, preds, join);
    case LoopShape(_, _, _, _, _) => LoopInOrder(k, preds, join);
  }

  lemma SwitchInOrder(base: nat, arms: Arms, preds: seq<Ref>, join: Ref)
    requires DistinctArms(arms) && Ref(base, Condition) !in ArmRefs(arms)
    ensures var r := Ref(base, Condition);
      var t := [Visit(r, ArmFirsts(arms), preds)] + TraceArms(arms, [r], [join]);
      Before(t, {r}, ArmBlocks(arms)) && ArmsOrdered(t, arms)
  {
    hide Before, Only, ArmsOrdered;
    var r := Ref(base, Condition);
    var v, t := Visit(r, ArmFirsts(arms), preds), TraceArms(arms, [r], [join]);
    OnlyOne(v);
    OnlyNone();
    TraceArmsOnly(arms, [r], [join]);
    ArmBlocksAreRefs(arms);
    InTurn([v], t, {r}, ArmBlocks(arms));
    ArmsInOrder(arms, [r], [join]);
    ArmsOrderedAround([v], t, [], {r}, {}, arms);
    assert [v] + t + [] == [v] + t;
  }

  lemma LoopInOrder(k: Construct, preds: seq<Ref>, join: Ref)
    requires k.LoopShape? && DistinctConstruct(k)
    ensures OrderedConstruct(TraceConstruct(k, preds, join), k)
  {
    hide Before, Only, Blocks;
    var LoopShape(_, _, init, update, body) := k;
    var r := Ref(k.base, Condition);
    var t0, t1, t2 := Trace(init, preds, [r]), Trace(body, [r], [First(update)]), Trace(update, [Last(body)], [r]);
    var v := Visit(r, [First(body), join], [Last(init), Last(update)]);
    OnlyOne(v);
    OnlyNone();
    TraceOnly(init, preds, [r]);
    TraceOnly(body, [r], [First(update)]);
    TraceOnly(update, [Last(body)], [r]);
    BlocksAreRefs(init);
    BlocksAreRefs(body);
    BlocksAreRefs(update);
    var t := TraceConstruct(k, preds, join);
    OnlyBoth(t1, t2, Blocks(body), Blocks(update));
    ThreeInTurn(t0, t1 + t2, [v], Blocks(init), Blocks(body) + Blocks(update), {r});
    BeforeWithin(t, Blocks(init), Blocks(body) + Blocks(update), Blocks(init), Blocks(body));
    BeforeWithin(t, Blocks(init), Blocks(body) + Blocks(update), Blocks(init), Blocks(update));
    BeforeWithin(t, Blocks(body) + Blocks(update), {r}, Blocks(body), {r});
    BeforeWithin(t, Blocks(body) + Blocks(update), {r}, Blocks(update), {r});
    InTurn(t1, t2, Blocks(body), Blocks(update));
    BeforeAround(t0, t1 + t2, [v], Blocks(init), {r}, Blocks(body), Blocks(update));
  }

  lemma {:induction false} ArmsInOrder(arms: Arms, preds: seq<Ref>, outs: seq<Ref>)
    requires DistinctArms(arms)
    ensures ArmsOrdered(TraceArms(arms, preds, outs), arms)
    decreases arms
  {
    hide Before, Only, Blocks;
    match arms
    case NoArms =>
    case Arm(_, _, chain, next) =>
      var t, t' := Trace(chain, preds, outs), TraceArms(next, preds, outs);
      ArmsInOrder(next, preds, outs);
      TraceOnly(chain, preds, outs);
      TraceArmsOnly(next, preds, outs);
      BlocksAreRefs(chain);
      ArmBlocksAreRefs(next);
      OnlyNone();
      InTurn(t, t', Blocks(chain), ArmBlocks(next));
      ArmsOrderedAround(t, t', [], Blocks(chain), {}, next);
      assert t + t' + [] == t + t';
      forall i, j | 0 <= i < j < ArmCount(arms)
        ensures Before(t + t', Blocks(ArmChain(arms, i)), Blocks(ArmChain(arms, j)))
      {
        ArmChainInside(next, j - 1);
        if i == 0 {
          BeforeWithin(t + t', Blocks(chain), ArmBlocks(next), Blocks(chain), Blocks(ArmChain(next, j - 1)));
        } else {
          assert ArmChain(arms, i) == ArmChain(next, i - 1) && ArmChain(arms, j) == ArmChain(next, j - 1);
        }
      }
  }

  /** The order after earlier visits, by index. */
  lemma ArmsOrderedLater(before: seq<Visit>, arms: Arms, preds: seq<Ref>, outs: seq<Ref>)
    requires DistinctArms(arms)
    ensures var t := before + TraceArms(arms, preds, outs);
      forall i, j, x, y | 0 <= i < j < ArmCount(arms) && |before| <= x < |t| && |before| <= y < |t|
        && t[x].block in Blocks(ArmChain(arms, i)) && t[y].block in Blocks(ArmChain(arms, j)) :: x < y
  {
    hide TraceArms, Blocks, DistinctArms, ArmChain, ArmCount;
    ArmsInOrder(arms, preds, outs);
    var t := TraceArms(arms, preds, outs);
    forall i, j, x, y | 0 <= i < j < ArmCount(arms) && |before| <= x < |before + t| && |before| <= y < |before + t|
      && (before + t)[x].block in Blocks(ArmChain(arms, i)) && (before + t)[y].block in Blocks(ArmChain(arms, j))
      ensures x < y
    {
      assert Before(t, Blocks(ArmChain(arms, i)), Blocks(ArmChain(arms, j)));
      assert t[x - |before|] == (before + t)[x] && t[y - |before|] == (before + t)[y];
    }
  }

  lemma {:induction false} TraceConstructOrdered(k: Construct, preds: seq<Ref>, join: Ref, d: Chain)
    requires DistinctConstruct(k) && ConstructHasPart(k, d)
    ensures Ordered(TraceConstruct(k, preds, join), d)
    decreases k
  {
    hide Ordered, Only, Blocks;
    var r := Ref(k.base, Condition);
    match k
    case IfShape(_, _, thn, els) => BranchOrdered(k, preds, join, d);
    case SwitchShape(_, _, arms) =>
      var v := Visit(r, ArmFirsts(arms), preds);
      var t := TraceArms(arms, [r], [join]);
      OnlyOne(v);
      OnlyNone();
      ArmPartInside(arms, d);
      ArmBlocksAreRefs(arms);
      TraceArmsOrdered(arms, [r], [join], d);
      OrderedAmong(TraceConstruct(k, preds, join), [v], t, [], {r}, {}, ArmBlocks(arms), d);
    case LoopShape(_, _, _, _, _) => LoopPartOrdered(k, preds, join, d);
  }

  lemma {:induction false} BranchOrdered(k: Construct, preds: seq<Ref>, join: Ref, d: Chain)
    requires k.IfShape? && DistinctConstruct(k) && ConstructHasPart(k, d)
    ensures Ordered(TraceConstruct(k, preds, join), d)
    decreases k, 0
  {
    hide Ordered, Only, Blocks;
    var r := Ref(k.base, Condition);
    var IfShape(_, _, thn, els) := k;
    var v := Visit(r, [First(thn), First(els)], preds);
    var t, t' := Trace(thn, [r], [join]), Trace(els, [r], [join]);
    OnlyOne(v);
    OnlyNone();
    BlocksAreRefs(thn);
    BlocksAreRefs(els);
    TraceOnly(thn, [r], [join]);
    TraceOnly(els, [r], [join]);
    if HasPart(thn, d) {
      PartInside(thn, d);
      TraceOrdered(thn, [r], [join], d);
      OrderedAmong(TraceConstruct(k, preds, join), [v], t, t', {r}, Blocks(els), Blocks(thn), d);
    } else {
      PartInside(els, d);
      TraceOrdered(els, [r], [join], d);
      OnlyBoth([v], t, {r}, Blocks(thn));
      OrderedAmong(TraceConstruct(k, preds, join), [v] + t, t', [], {r} + Blocks(thn), {}, Blocks(els), d);
    }
  }

  lemma {:induction false} LoopPartOrdered(k: Construct, preds: seq<Ref>, join: Ref, d: Chain)
    requires k.LoopShape? && DistinctConstruct(k) && ConstructHasPart(k, d)
    ensures Ordered(TraceConstruct(k, preds, join), d)
    decreases k, 0
  {
    hide Ordered, Only, Blocks, Refs, Distinct, Trace, HasPart;
    var r := Ref(k.base, Condition);
    var LoopShape(_, _, init, update, body) := k;
    var t0, t1, t2 := Trace(init, preds, [r]), Trace(body, [r], [First(update)]), Trace(update, [Last(body)], [r]);
    var v := Visit(r, [First(body), join], [Last(init), Last(update)]);
    var t := TraceConstruct(k, preds, join);
    OnlyOne(v);
    OnlyNone();
    BlocksAreRefs(init);
    BlocksAreRefs(update);
    BlocksAreRefs(body);
    TraceOnly(init, preds, [r]);
    TraceOnly(body, [r], [First(update)]);
    TraceOnly(update, [Last(body)], [r]);
    if HasPart(init, d) {
      PartInside(init, d);
      TraceOrdered(init, preds, [r], d);
      OnlyBoth(t1, t2, Blocks(body), Blocks(update));
      OnlyBoth(t1 + t2, [v], Blocks(body) + Blocks(update), {r});
      assert t == [] + t0 + (t1 + t2 + [v]);
      OrderedAmong(t, [], t0, t1 + t2 + [v], {}, Blocks(body) + Blocks(update) + {r}, Blocks(init), d);
    } else if HasPart(body, d) {
      PartInside(body, d);
      TraceOrdered(body, [r], [First(update)], d);
      OnlyBoth(t2, [v], Blocks(update), {r});
      assert t == t0 + t1 + (t2 + [v]);
      OrderedAmong(t, t0, t1, t2 + [v], Blocks(init), Blocks(update) + {r}, Blocks(body), d);
    } else {
      PartInside(update, d);
      TraceOrdered(update, [Last(body)], [r], d);
      OnlyBoth(t0, t1, Blocks(init), Blocks(body));
      assert t == t0 + t1 + t2 + [v];
      OrderedAmong(t, t0 + t1, t2, [v], Blocks(init) + Blocks(body), {r}, Blocks(update), d);
    }
  }

  lemma {:induction false} TraceArmsOrdered(arms: Arms, preds: seq<Ref>, outs: seq<Ref>, d: Chain)
    requires DistinctArms(arms) && ArmsHavePart(arms, d)
    ensures Ordered(TraceArms(arms, preds, outs), d)
    decreases arms
  {
    hide Ordered, Only, Blocks;
    match arms
    case NoArms =>
    case Arm(_, _, chain, next) =>
      var t, t' := Trace(chain, preds, outs), TraceArms(next, preds, outs);
      OnlyNone();
      BlocksAreRefs(chain);
      ArmBlocksAreRefs(next);
      TraceOnly(chain, preds, outs);
      TraceArmsOnly(next, preds, outs);
      if HasPart(chain, d) {
        PartInside(chain, d);
        TraceOrdered(chain, preds, outs, d);
        OrderedAmong(TraceArms(arms, preds, outs), [], t, t', {}, ArmBlocks(next), Blocks(chain), d);
      } else {
        ArmPartInside(next, d);
        TraceArmsOrdered(next, preds, outs, d);
        OrderedAmong(TraceArms(arms, preds, outs), t, t', [], Blocks(chain), {}, ArmBlocks(next), d);
      }
  }

  /** The first construct of `c` comes before what follows it, and its parts come in order. */
  ghost predicate ConstructFirst(t: seq<Visit>, c: Chain)
    requires c.Then?
  {
    Before(t, ConstructBlocks(c.construct), Blocks(c.rest)) && OrderedConstruct(t, c.construct)
  }

  /** The visits of a construct and what follows it, after earlier visits. */
  lemma ConstructThenRest(before: seq<Visit>, c: Chain, preds: seq<Ref>, outs: seq<Ref>)
    requires c.Then? && Distinct(c)
    ensures var t := TraceConstruct(c.construct, preds, First(c.rest)) + Trace(c.rest, ExitBlocks(c.construct), outs);
      ConstructFirst((before + t)[|before|..], c)
  {
    hide Before, Only, OrderedConstruct;
    var Then(b, k, rest) := c;
    var t, t' := TraceConstruct(k, preds, First(rest)), Trace(rest, ExitBlocks(k), outs);
    TraceConstructOnly(k, preds, First(rest));
    TraceOnly(rest, ExitBlocks(k), outs);
    ConstructBlocksAreRefs(k);
    BlocksAreRefs(rest);
    InTurn(t, t', ConstructBlocks(k), Blocks(rest));
    ConstructInOrder(k, preds, First(rest));
    OnlyNone();
    OrderedConstructAround([], t, t', {}, Blocks(rest), k);
    assert [] + t + t' == t + t' == (before + (t + t'))[|before|..];
  }

  // ----- the parts of a graph in memory -----

  lemma {:induction false} PartRealized(h: Heap, c: Chain, exit: Option<Ref>, d: Chain) returns (out: Option<Ref>)
    requires Realizes(h, c, exit) && HasPart(c, d)
    ensures Realizes(h, d, out)
    decreases c
  {
    if c == d {
      return exit;
    }
    match c
    case End(_) =>
      out := exit;
    case Link(_, rest) => out := PartRealized(h, rest, exit, d);
    case Then(_, k, rest) =>
      if ConstructHasPart(k, d) {
        out := ConstructPartRealized(h, k, First(rest), d);
      } else {
        out := PartRealized(h, rest, exit, d);
      }
  }

  lemma {:induction false} ConstructPartRealized(h: Heap, k: Construct, join: Ref, d: Chain) returns (out: Option<Ref>)
    requires RealizesConstruct(h, k, join) && ConstructHasPart(k, d)
    ensures Realizes(h, d, out)
    decreases k
  {
    match k
    case IfShape(_, _, thn, els) =>
      if HasPart(thn, d) {
        out := PartRealized(h, thn, Some(join), d);
      } else {
        out := PartRealized(h, els, Some(join), d);
      }
    case SwitchShape(_, _, arms) => out := ArmPartRealized(h, arms, join, d);
    case LoopShape(base, _, init, update, body) =>
      if HasPart(init, d) {
        out := PartRealized(h, init, Some(Ref(base, Condition)), d);
      } else if HasPart(update, d) {
        out := PartRealized(h, update, Some(Ref(base, Condition)), d);
      } else {
        out := PartRealized(h, body, Some(Ref(base, Update)), d);
      }
  }

  lemma {:induction false} ArmPartRealized(h: Heap, arms: Arms, join: Ref, d: Chain) returns (out: Option<Ref>)
    requires RealizesArms(h, arms, join) && ArmsHavePart(arms, d)
    ensures Realizes(h, d, out)
    decreases arms
  {
    if HasPart(arms.chain, d) {
      out := PartRealized(h, arms.chain, Some(join), d);
    } else {
      out := ArmPartRealized(h, arms.next, join, d);
    }
  }

  /** Every construct in memory is one of those of the graph. */
  lemma {:induction false} NodeHasPart(h: Heap, c: Chain, exit: Option<Ref>, w: Ref) returns (d: Chain)
    requires Realizes(h, c, exit) && w in Refs(c) && w in h && !h[w].content.Sequential?
    ensures HasPart(c, d) && d.Then? && w == Ref(d.construct.base, Whole)
    decreases c
  {
    match c
    case End(_) =>
      d := c;
    case Link(_, rest) => d := NodeHasPart(h, rest, exit, w);
    case Then(_, k, rest) =>
      if w in Refs(rest) {
        d := NodeHasPart(h, rest, exit, w);
      } else if w == Ref(k.base, Whole) {
        d := c;
      } else {
        d := ConstructNodeHasPart(h, k, First(rest), w);
      }
  }

  lemma {:induction false} ConstructNodeHasPart(h: Heap, k: Construct, join: Ref, w: Ref) returns (d: Chain)
    requires RealizesConstruct(h, k, join) && w in ConstructRefs(k) && w != Ref(k.base, Whole)
    requires w in h && !h[w].content.Sequential?
    ensures ConstructHasPart(k, d) && d.Then? && w == Ref(d.construct.base, Whole)
    decreases k
  {
    match k
    case IfShape(_, _, thn, els) =>
      if w in Refs(thn) {
        d := NodeHasPart(h, thn, Some(join), w);
      } else {
        d := NodeHasPart(h, els, Some(join), w);
      }
    case SwitchShape(_, _, arms) => d := ArmNodeHasPart(h, arms, join, w);
    case LoopShape(base, _, init, update, body) =>
      if w in Refs(init) {
        d := NodeHasPart(h, init, Some(Ref(base, Condition)), w);
      } else if w in Refs(update) {
        d := NodeHasPart(h, update, Some(Ref(base, Condition)), w);
      } else {
        d := NodeHasPart(h, body, Some(Ref(base, Update)), w);
      }
  }

  lemma {:induction false} ArmNodeHasPart(h: Heap, arms: Arms, join: Ref, w: Ref) returns (d: Chain)
    requires RealizesArms(h, arms, join) && w in ArmRefs(arms) && w in h && !h[w].content.Sequential?
    ensures ArmsHavePart(arms, d) && d.Then? && w == Ref(d.construct.base, Whole)
    decreases arms
  {
    if w in Refs(arms.chain) {
      d := NodeHasPart(h, arms.chain, Some(join), w);
    } else {
      d := ArmNodeHasPart(h, arms.next, join, w);
    }
  }

  /** Of any switch in memory, a traversal visits all blocks of the i-th arm in the list before any block of
      the j-th one, for i < j: `a` and `b` are what begins at the entries of the two arms and goes to the join. */
  lemma ArmsVisitedInOrder(h: Heap, c: Chain, preds: seq<Ref>, outs: seq<Ref>, exit: Option<Ref>, w: Ref, i: nat, j: nat)
      returns (a: Chain, b: Chain)
    requires Realizes(h, c, exit) && Distinct(c) && w in Refs(c) && w in h && h[w].content.MultiWay?
    requires i < j < |h[w].content.arms|
    ensures First(a) == Ref(h[w].content.arms[i].base, IfTrue) && Realizes(h, a, Some(h[w].content.join))
    ensures First(b) == Ref(h[w].content.arms[j].base, IfTrue) && Realizes(h, b, Some(h[w].content.join))
    ensures forall x, y | 0 <= x < |Trace(c, preds, outs)| && 0 <= y < |Trace(c, preds, outs)|
                          && Trace(c, preds, outs)[x].block in Blocks(a) && Trace(c, preds, outs)[y].block in Blocks(b) ::
              x < y
  {
    hide Trace, Distinct, Refs, HasPart, Blocks, Entries;
    var d := NodeHasPart(h, c, exit, w);
    var out := PartRealized(h, c, exit, d);
    TraceOrdered(c, preds, outs, d);
    var arms := d.construct.arms;
    ArmInMemory(h, arms, First(d.rest), i);
    ArmInMemory(h, arms, First(d.rest), j);
    a, b := ArmChain(arms, i), ArmChain(arms, j);
  }

  // ----- the order of what is reported -----

  ghost predicate AllIn(t: seq<Visit>, t': seq<Visit>) {
    forall v | v in t :: v in t'
  }

  /** The visits of a part are among those of the whole. */
  lemma {:induction false} PartTrace(c: Chain, preds: seq<Ref>, outs: seq<Ref>, d: Chain) returns (ins: seq<Ref>, out: seq<Ref>)
    requires HasPart(c, d)
    ensures AllIn(Trace(d, ins, out), Trace(c, preds, outs))
    decreases c
  {
    if c == d {
      return preds, outs;
    }
    match c
    case End(_) =>
      ins, out := preds, outs;
    case Link(b, rest) => ins, out := PartTrace(rest, [b], outs, d);
    case Then(b, k, rest) =>
      if ConstructHasPart(k, d) {
        ins, out := ConstructPartTrace(k, [b], First(rest), d);
      } else {
        ins, out := PartTrace(rest, ExitBlocks(k), outs, d);
      }
  }

  lemma {:induction false} ConstructPartTrace(k: Construct, preds: seq<Ref>, join: Ref, d: Chain)
      returns (ins: seq<Ref>, out: seq<Ref>)
    requires ConstructHasPart(k, d)
    ensures AllIn(Trace(d, ins, out), TraceConstruct(k, preds, join))
    decreases k
  {
    var r := Ref(k.base, Condition);
    match k
    case IfShape(_, _, thn, els) =>
      if HasPart(thn, d) {
        ins, out := PartTrace(thn, [r], [join], d);
      } else {
        ins, out := PartTrace(els, [r], [join], d);
      }
    case SwitchShape(_, _, arms) => ins, out := ArmPartTrace(arms, [r], [join], d);
    case LoopShape(_, _, init, update, body) =>
      if HasPart(init, d) {
        ins, out := PartTrace(init, preds, [r], d);
      } else if HasPart(update, d) {
        ins, out := PartTrace(update, [Last(body)], [r], d);
      } else {
        ins, out := PartTrace(body, [r], [First(update)], d);
      }
  }

  lemma {:induction false} ArmPartTrace(arms: Arms, preds: seq<Ref>, outs: seq<Ref>, d: Chain)
      returns (ins: seq<Ref>, out: seq<Ref>)
    requires ArmsHavePart(arms, d)
    ensures AllIn(Trace(d, ins, out), TraceArms(arms, preds, outs))
    decreases arms
  {
    if HasPart(arms.chain, d) {
      ins, out := PartTrace(arms.chain, preds, outs, d);
    } else {
      ins, out := ArmPartTrace(arms.next, preds, outs, d);
    }
  }

  /** The condition of every construct in memory is visited, and reports where control goes in the order of the
      construct: the branches of an IF, the arms of a SWITCH in list order, the body and the exit of a FOR. */
  lemma ConditionReports(h: Heap, c: Chain, preds: seq<Ref>, outs: seq<Ref>, exit: Option<Ref>, w: Ref) returns (v: Visit)
    requires Realizes(h, c, exit) && Distinct(c) && w in Refs(c) && w in h && !h[w].content.Sequential?
    ensures v in Trace(c, preds, outs) && v.block == Ref(w.base, Condition)
    ensures match h[w].content
            case Sequential(_, _) => true
            case Conditional(_, _) => v.successors == [Ref(w.base, IfTrue), Ref(w.base, IfFalse)]
            case MultiWay(_, arms, _, _) =>
              |v.successors| == |arms| && forall i | 0 <= i < |arms| :: v.successors[i] == Ref(arms[i].base, IfTrue)
            case Loop(_, join) => v.successors == [Ref(w.base, Body), join]
  {
    hide Distinct, Refs, HasPart;
    var d := NodeHasPart(h, c, exit, w);
    var out := PartRealized(h, c, exit, d);
    var ins, outs' := PartTrace(c, preds, outs, d);
    v := ConditionVisit(h, d.construct, [d.block], First(d.rest));
  }

  lemma ConditionVisit(h: Heap, k: Construct, preds: seq<Ref>, join: Ref) returns (v: Visit)
    requires RealizesConstruct(h, k, join)
    ensures v in TraceConstruct(k, preds, join) && v.block == Ref(k.base, Condition)
    ensures match h[Ref(k.base, Whole)].content
            case Sequential(_, _) => true
            case Conditional(_, _) => v.successors == [Ref(k.base, IfTrue), Ref(k.base, IfFalse)]
            case MultiWay(_, arms, _, _) =>
              |v.successors| == |arms| && forall i | 0 <= i < |arms| :: v.successors[i] == Ref(arms[i].base, IfTrue)
            case Loop(_, join) => v.successors == [Ref(k.base, Body), join]
  {
    var r := Ref(k.base, Condition);
    match k
    case IfShape(_, _, thn, els) => v := TraceConstruct(k, preds, join)[0];
    case SwitchShape(_, _, arms) =>
      v := TraceConstruct(k, preds, join)[0];
      ArmInMemory(h, arms, join, 0);
      forall i | 0 <= i < |Entries(arms)| ensures v.successors[i] == Ref(Entries(arms)[i].base, IfTrue) {
        ArmInMemory(h, arms, join, i);
      }
    case LoopShape(_, _, init, update, body) =>
      v := Visit(r, [First(body), join], [Last(init), Last(update)]);
  }

  /** The block after a construct reports the last blocks of the branches, or of the arms in list order, as its
      predecessors, and after a FOR the condition. */
  lemma JoinReports(h: Heap, c: Chain, preds: seq<Ref>, outs: seq<Ref>, exit: Option<Ref>, w: Ref)
      returns (v: Visit, d: Chain)
    requires Realizes(h, c, exit) && Distinct(c) && w in Refs(c) && w in h && !h[w].content.Sequential?
    ensures HasPart(c, d) && d.Then? && w == Ref(d.construct.base, Whole)
    ensures v in Trace(c, preds, outs) && v.block == First(d.rest)
    ensures match d.construct
            case IfShape(_, _, thn, els) => v.predecessors == [Last(thn), Last(els)]
            case SwitchShape(_, _, arms) =>
              && |v.predecessors| == ArmCount(arms)
              && forall i | 0 <= i < ArmCount(arms) :: v.predecessors[i] == Last(ArmChain(arms, i))
            case LoopShape(base, _, _, _, _) => v.predecessors == [Ref(base, Condition)]
  {
    hide Distinct, Refs, HasPart;
    d := NodeHasPart(h, c, exit, w);
    var out := PartRealized(h, c, exit, d);
    var ins, outs' := PartTrace(c, preds, outs, d);
    v := Trace(d.rest, ExitBlocks(d.construct), outs')[0];
    if d.construct.SwitchShape? {
      var arms := d.construct.arms;
      ArmInMemory(h, arms, First(d.rest), 0);
      forall i | 0 <= i < ArmCount(arms) ensures v.predecessors[i] == Last(ArmChain(arms, i)) {
        ArmInMemory(h, arms, First(d.rest), i);
      }
    }
  }
}
