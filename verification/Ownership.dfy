/** Garbage collection with the allocators themselves: the visitor offers each allocator the addresses of
    the nodes it sees, some of which are parts of objects of other allocators. */
module Ownership {
  import opened Mir
  import opened Shape
  import opened Edges
  import opened Reachability
  import opened Traversal
  import opened Pointing
  import opened Pages
  import opened Layout
  import opened Allocators
  import opened GarbageCollection

  // ----- one allocator -----

  /** An address that is offered is that of a live object, or else it is in no slab of the allocator. */
  ghost predicate MayOffer(layout: Layout, live: set<Object>, slabs: set<nat>, address: nat)
    requires layout.Valid()
  {
    layout.PageOf(address) in slabs ==> exists o :: o in live && layout.Address(o.base, o.index) == address
  }

  ghost predicate MayOfferAll(layout: Layout, live: set<Object>, slabs: set<nat>, offered: set<nat>) {
    layout.Valid() && forall x | x in offered :: MayOffer(layout, live, slabs, x)
  }

  /** The objects at these addresses. */
  ghost function ObjectsAt(layout: Layout, live: set<Object>, addresses: set<nat>): set<Object>
    requires layout.Valid()
  {
    set o | o in live && layout.Address(o.base, o.index) in addresses
  }

  lemma AtMore(layout: Layout, live: set<Object>, addresses: set<nat>, address: nat)
    requires layout.Valid()
    ensures ObjectsAt(layout, live, addresses + {address}) == ObjectsAt(layout, live, addresses) + ObjectsAt(layout, live, {address})
    ensures ObjectsAt(layout, live, {}) == {}
  {
    hide Layout.Address, Layout.Valid;
  }

  /** A whole collection by one allocator: it marks what it owns of what it is offered, and exactly the
      objects at these addresses stay live. */
  method CollectOwned(a: Allocator, offered: set<nat>)
    requires a.Valid() && a.layout.Valid()
    requires forall x | x in offered :: MayOffer(a.layout, a.live, a.memory.Keys, x)
    modifies a, a.full, a.partial
    ensures a.Valid() && a.memory == old(a.memory)
    ensures a.live == ObjectsAt(a.layout, old(a.live), offered)
    ensures forall o :: o in a.live <==> o in old(a.live) && a.layout.Address(o.base, o.index) in offered
  {
    hide Allocator.Valid, MayOffer, Layout.Valid, Layout.Address;
    a.MarkAllUnreachable();
    MarkOwned(a, offered);
    a.FreeUnreachable();
  }

  method MarkOwned(a: Allocator, offered: set<nat>)
    requires a.Valid() && a.layout.Valid()
    requires forall x | x in offered :: MayOffer(a.layout, a.live, a.memory.Keys, x)
    modifies a`marked, a.full`status, a.partial`status
    ensures a.Valid() && a.live == old(a.live)
    ensures a.marked * a.live == old(a.marked * a.live) + ObjectsAt(a.layout, a.live, offered)
  {
    hide Allocator.Valid, MayOffer, Layout.Valid, ObjectsAt;
    AtMore(a.layout, a.live, {}, 0);
    var done: set<nat>, rest := {}, offered;
    while rest != {}
      invariant a.Valid() && a.live == old(a.live) && done + rest == offered
      invariant a.marked * a.live == old(a.marked * a.live) + ObjectsAt(a.layout, a.live, done)
    {
      var x :| x in rest;
      AtMore(a.layout, a.live, done, x);
      OfferOne(a, x);
      done, rest := done + {x}, rest - {x};
    }
    assert done == offered;
  }

  /** The callback for one address. */
  method OfferOne(a: Allocator, address: nat)
    requires a.Valid() && a.layout.Valid() && MayOffer(a.layout, a.live, a.memory.Keys, address)
    modifies a`marked, a.full`status, a.partial`status
    ensures a.Valid() && a.live == old(a.live)
    ensures a.marked * a.live == old(a.marked * a.live) + ObjectsAt(a.layout, a.live, {address})
  {
    hide Allocator.Valid, Layout.Valid, Layout.Address, Layout.PageOf, Allocator.HasSlot, MayOffer, ObjectsAt;
    NoneLiveAt(a, address);
    var owns := a.OwnsObject(Pointer(address));
    if owns {
      ghost var o := LiveAt(a, address);
      a.MarkReachable(address, o);
    }
  }

  lemma LiveAt(a: Allocator, address: nat) returns (o: Object)
    requires a.Valid() && a.layout.Valid() && MayOffer(a.layout, a.live, a.memory.Keys, address)
    requires a.layout.PageOf(address) in a.memory
    ensures o in a.live && a.layout.Address(o.base, o.index) == address && a.HasSlot(o)
    ensures ObjectsAt(a.layout, a.live, {address}) == {o}
  {
    o :| o in a.live && a.layout.Address(o.base, o.index) == address;
    hide Allocator.Valid, Layout.Valid, Layout.Address, Layout.PageOf, Allocator.HasSlot;
    a.LiveSlot(o);
  }

  lemma NoneLiveAt(a: Allocator, address: nat)
    requires a.Valid() && a.layout.Valid()
    ensures a.layout.PageOf(address) !in a.memory ==> ObjectsAt(a.layout, a.live, {address}) == {}
  {
    hide Allocator.Valid, Layout.Valid, Layout.Address, Layout.PageOf, Allocator.HasSlot;
    forall o | o in a.live ensures a.layout.PageOf(a.layout.Address(o.base, o.index)) in a.memory {
      a.LiveSlot(o);
    }
  }

  // ----- several allocators -----

  ghost function PagesOf(a: Allocator): set<Page>
    reads a
    ensures forall p | p in a.full :: p in PagesOf(a)
    ensures forall p | p in a.partial :: p in PagesOf(a)
    ensures forall p | p in a.memory.Values :: p in PagesOf(a)
  {
    (set p | p in a.full) + (set p | p in a.partial) + a.memory.Values
  }

  /** No two allocators share a page. */
  ghost predicate Separate(all: seq<Allocator>)
    reads all
  {
    forall i, j {:trigger PagesOf(all[i]), PagesOf(all[j])} | 0 <= i < |all| && 0 <= j < |all| && i != j ::
      all[i] != all[j] && PagesOf(all[i]) !! PagesOf(all[j])
  }

  /** The allocators are in order, and `pages` are their pages. */
  ghost predicate AllValid(all: seq<Allocator>, pages: set<Page>)
    reads all, pages
  {
    forall i | 0 <= i < |all| :: PagesOf(all[i]) <= pages && all[i].Valid()
  }

  twostate predicate OthersSame(all: seq<Allocator>, k: nat)
    reads all
  {
    forall j | 0 <= j < |all| && j != k ::
      PagesOf(all[j]) == old(PagesOf(all[j])) && all[j].live == old(all[j].live) && all[j].memory == old(all[j].memory)
  }

  twostate lemma Untouched(a: Allocator)
    requires old(a.Valid()) && unchanged(a) && unchanged(old(a.full)) && unchanged(old(a.partial))
    requires unchanged(old(a.memory.Values))
    ensures a.Valid() && PagesOf(a) == old(PagesOf(a))
  {
    hide Allocator.Valid;
  }

  /** Pages on the lists are slabs in memory. */
  lemma PagesInMemory(a: Allocator)
    requires a.Valid()
    ensures PagesOf(a) == a.memory.Values
  {
  }

  method CollectOne(all: seq<Allocator>, k: nat, offered: set<nat>, ghost pages: set<Page>)
    requires Separate(all) && AllValid(all, pages) && k < |all|
    requires MayOfferAll(all[k].layout, all[k].live, all[k].memory.Keys, offered)
    modifies all[k], PagesOf(all[k])
    ensures AllValid(all, pages) && Separate(all) && OthersSame(all, k) && all[k].memory == old(all[k].memory)
    ensures all[k].layout.Valid() && all[k].live == ObjectsAt(all[k].layout, old(all[k].live), offered)
    ensures PagesOf(all[k]) == old(PagesOf(all[k]))
  {
    hide Allocator.Valid, Layout.Valid, MayOffer, ObjectsAt;
    PagesInMemory(all[k]);
    CollectOwned(all[k], offered);
    PagesInMemory(all[k]);
    forall j | 0 <= j < |all| && j != k ensures all[j].Valid() && PagesOf(all[j]) == old(PagesOf(all[j])) {
      assert all[j] != all[k] && old(PagesOf(all[j])) !! old(PagesOf(all[k]));
      ghost var mine, theirs := old(PagesOf(all[j])), old(PagesOf(all[k]));
      assert forall i | 0 <= i < |old(all[j].full)| :: old(all[j].full)[i] in mine && old(all[j].full)[i] !in theirs;
      assert forall i | 0 <= i < |old(all[j].partial)| :: old(all[j].partial)[i] in mine && old(all[j].partial)[i] !in theirs;
      assert forall i | 0 <= i < |old(all[j].full)| :: unchanged(old(all[j].full)[i]);
      assert forall i | 0 <= i < |old(all[j].partial)| :: unchanged(old(all[j].partial)[i]);
      Untouched(all[j]);
    }
  }

  /** What each allocator may be offered. */
  ghost predicate AllMayOffer(all: seq<Allocator>, offered: seq<set<nat>>)
    reads all
  {
    |offered| == |all| && forall k | 0 <= k < |all| :: OneMayOffer(all[k], offered[k])
  }

  ghost predicate OneMayOffer(a: Allocator, offered: set<nat>)
    reads a
  {
    MayOfferAll(a.layout, a.live, a.memory.Keys, offered)
  }

  ghost function Lives(all: seq<Allocator>): (lives: seq<set<Object>>)
    reads all
    ensures |lives| == |all| && forall k | 0 <= k < |all| :: lives[k] == all[k].live
  {
    seq(|all|, k requires 0 <= k < |all| reads all => all[k].live)
  }

  /** Of the objects that were live before, each allocator has exactly those at its addresses left. */
  ghost predicate Left(all: seq<Allocator>, before: seq<set<Object>>, addresses: seq<set<nat>>)
    reads all
  {
    && |before| == |all| && |addresses| == |all|
    && forall k | 0 <= k < |all| :: all[k].layout.Valid() && all[k].live == ObjectsAt(all[k].layout, before[k], addresses[k])
  }

  /** An object that was live is left exactly if its address is one of those of its allocator. */
  lemma LeftOneByOne(all: seq<Allocator>, before: seq<set<Object>>, addresses: seq<set<nat>>)
    requires Left(all, before, addresses)
    ensures |before| == |addresses| == |all|
    ensures forall k, o | 0 <= k < |all| ::
              && all[k].layout.Valid()
              && (o in all[k].live <==> o in before[k] && all[k].layout.Address(o.base, o.index) in addresses[k])
  {
    hide Layout.Address, Layout.Valid;
  }

  lemma PagesInside(all: seq<Allocator>, k: nat, pages: set<Page>)
    requires AllValid(all, pages) && k < |all|
    ensures PagesOf(all[k]) <= pages
  {
  }

  /** One allocator after the other. */
  method CollectEach(all: seq<Allocator>, offered: seq<set<nat>>, ghost pages: set<Page>)
    requires Separate(all) && AllValid(all, pages) && AllMayOffer(all, offered)
    modifies all, pages
    ensures AllValid(all, pages) && Separate(all) && Left(all, old(Lives(all)), offered)
    ensures forall k | 0 <= k < |all| :: all[k].memory == old(all[k].memory)
  {
    hide AllValid, Separate, MayOfferAll, ObjectsAt, PagesOf;
    for k := 0 to |all|
      invariant AllValid(all, pages) && Separate(all)
      invariant forall j | 0 <= j < |all| :: PagesOf(all[j]) == old(PagesOf(all[j])) && all[j].memory == old(all[j].memory)
      invariant forall j | 0 <= j < k :: all[j].layout.Valid() && all[j].live == ObjectsAt(all[j].layout, old(all[j].live), offered[j])
      invariant forall j | k <= j < |all| :: all[j].live == old(all[j].live)
    {
      assert MayOfferAll(all[k].layout, all[k].live, all[k].memory.Keys, offered[k]);
      PagesInside(all, k, pages);
      CollectOne(all, k, offered[k], pages);
    }
  }

  // ----- the allocators of a context -----

  /** In this order: blocks, conditionals, multi-way branches, loops, arms, instructions, symbols. */
  function AllocatorOf(kind: NodeKind): (k: nat)
    ensures k < 4
  {
    match kind
    case SequentialKind => 0
    case ConditionalKind => 1
    case MultiWayKind => 2
    case LoopKind => 3
  }

  /** The addresses of all nodes of one kind, be they objects or parts of objects. */
  function NodeAddresses(h: Heap, rs: set<Ref>, kind: NodeKind, address: Ref -> nat): set<nat> {
    set r | r in rs && r in h && KindOf(h[r]) == kind :: address(r)
  }

  function Offered(h: Heap, rs: set<Ref>, bs: set<Ref>, address: Ref -> nat): (offered: seq<set<nat>>)
    ensures |offered| == 7
  {
    [NodeAddresses(h, rs, SequentialKind, address), NodeAddresses(h, rs, ConditionalKind, address),
     NodeAddresses(h, rs, MultiWayKind, address), NodeAddresses(h, rs, LoopKind, address),
     ArmObjects(h, rs), CodeObjects(h, bs), SymbolObjects(h, bs)]
  }

  /** The objects that nodes keep alive, by allocator. */
  function Kept(h: Heap, rs: set<Ref>): (kept: seq<set<nat>>)
    ensures |kept| == 7
  {
    [Objects(h, rs, SequentialKind), Objects(h, rs, ConditionalKind), Objects(h, rs, MultiWayKind),
     Objects(h, rs, LoopKind), ArmObjects(h, rs), CodeObjects(h, rs), SymbolObjects(h, rs)]
  }

  /** What each allocator is to keep, object by object: blocks, conditionals, multi-way branches, loops, arms,
      instructions and symbols. */
  lemma KeptOneByOne(h: Heap, c: Chain, a: nat)
    requires IsProperGraph(h, c)
    ensures var kept := Kept(h, Reached(h)); var w := Ref(a, Whole);
      var reached := w in h && PointsTo(h, ENTRY, w);
      && (a in kept[0] <==> reached && h[w].content.Sequential?)
      && (a in kept[1] <==> reached && h[w].content.Conditional?)
      && (a in kept[2] <==> reached && h[w].content.MultiWay?)
      && (a in kept[3] <==> reached && h[w].content.Loop?)
      && (a in kept[4] <==> exists r, i :: PointsTo(h, ENTRY, r) && r in h && h[r].content.MultiWay?
                                        && 0 <= i < |h[r].content.arms| && h[r].content.arms[i].base == a)
      && (a in kept[5] <==> exists b, i :: Reaches(h, ENTRY, b) && IsBlock(h, b) && 0 <= i < |h[b].content.code|
                                        && h[b].content.code[i].address == a)
      && (a in kept[6] <==> exists b, i, j :: Reaches(h, ENTRY, b) && IsBlock(h, b) && 0 <= i < |h[b].content.code|
                                        && 0 <= j < |h[b].content.code[i].operation.operands|
                                        && h[b].content.code[i].operation.operands[j] == SymbolOperand(a))
  {
    hide IsProperGraph, Objects, ArmObjects, CodeObjects, SymbolObjects, Reaches, PointsTo;
    ObjectHeld(h, Reached(h), SequentialKind, a);
    ObjectHeld(h, Reached(h), ConditionalKind, a);
    ObjectHeld(h, Reached(h), MultiWayKind, a);
    ObjectHeld(h, Reached(h), LoopKind, a);
    ArmHeld(h, Reached(h), a);
    CodeKept(h, c, a);
    SymbolKept(h, c, a);
  }

  /** Objects are where their addresses say, and parts of objects are in no slab of the allocator of their own
      kind: a block inside a conditional is in a slab of conditionals. */
  ghost predicate Placed(a: Allocator, h: Heap, rs: set<Ref>, kind: NodeKind, address: Ref -> nat)
    reads a
  {
    && OneMayOffer(a, Objects(h, rs, kind))
    && forall r | r in rs && r in h && KindOf(h[r]) == kind ::
         if r.member == Whole then address(r) == r.base else a.layout.PageOf(address(r)) !in a.memory
  }

  ghost predicate AllPlaced(all: seq<Allocator>, h: Heap, rs: set<Ref>, address: Ref -> nat)
    reads all
  {
    && |all| == 7 && (forall kind :: Placed(all[AllocatorOf(kind)], h, rs, kind, address))
    && OneMayOffer(all[4], ArmObjects(h, rs)) && OneMayOffer(all[5], CodeObjects(h, rs))
    && OneMayOffer(all[6], SymbolObjects(h, rs))
  }

  /** Of the nodes of a kind, those that are parts of other objects are offered in vain. */
  lemma PartsIgnored(a: Allocator, h: Heap, rs: set<Ref>, kind: NodeKind, address: Ref -> nat)
    requires a.Valid() && Placed(a, h, rs, kind, address)
    ensures OneMayOffer(a, NodeAddresses(h, rs, kind, address))
    ensures ObjectsAt(a.layout, a.live, NodeAddresses(h, rs, kind, address)) == ObjectsAt(a.layout, a.live, Objects(h, rs, kind))
  {
    hide Allocator.Valid, Layout.Valid, Layout.Address, Layout.PageOf, Allocator.HasSlot, MayOffer;
    forall x | x in NodeAddresses(h, rs, kind, address)
      ensures MayOffer(a.layout, a.live, a.memory.Keys, x)
      ensures x in Objects(h, rs, kind) || a.layout.PageOf(x) !in a.memory
    {
      var r :| r in rs && r in h && KindOf(h[r]) == kind && address(r) == x;
      Elsewhere(a.layout, a.live, a.memory.Keys, x);
    }
    forall o | o in a.live ensures a.layout.PageOf(a.layout.Address(o.base, o.index)) in a.memory {
      a.LiveSlot(o);
    }
    forall x | x in Objects(h, rs, kind) ensures x in NodeAddresses(h, rs, kind, address) {
      var r :| r in rs && r in h && r.member == Whole && KindOf(h[r]) == kind && r.base == x;
      assert address(r) == x;
    }
  }

  lemma Elsewhere(layout: Layout, live: set<Object>, slabs: set<nat>, address: nat)
    requires layout.Valid()
    ensures layout.PageOf(address) !in slabs ==> MayOffer(layout, live, slabs, address)
  {
  }

  lemma AllPartsIgnored(all: seq<Allocator>, h: Heap, rs: set<Ref>, address: Ref -> nat, pages: set<Page>)
    requires AllValid(all, pages) && AllPlaced(all, h, rs, address)
    ensures AllMayOffer(all, Offered(h, rs, rs, address))
    ensures SameAt(all, Lives(all), Offered(h, rs, rs, address), Kept(h, rs))
  {
    hide Allocator.Valid, ObjectsAt, OneMayOffer, NodeAddresses, Objects, ArmObjects, CodeObjects, SymbolObjects, PagesOf;
    assert AllocatorOf(SequentialKind) == 0 && AllocatorOf(ConditionalKind) == 1;
    assert AllocatorOf(MultiWayKind) == 2 && AllocatorOf(LoopKind) == 3;
    PartsIgnored(all[0], h, rs, SequentialKind, address);
    PartsIgnored(all[1], h, rs, ConditionalKind, address);
    PartsIgnored(all[2], h, rs, MultiWayKind, address);
    PartsIgnored(all[3], h, rs, LoopKind, address);
    OffersAreValid(all, Offered(h, rs, rs, address));
  }

  lemma OffersAreValid(all: seq<Allocator>, offered: seq<set<nat>>)
    requires AllMayOffer(all, offered)
    ensures forall k | 0 <= k < |all| :: all[k].layout.Valid()
  {
  }

  lemma SameOffered(h: Heap, rs: set<Ref>, bs: set<Ref>, address: Ref -> nat)
    ensures CodeObjects(h, bs) == CodeObjects(h, rs) && SymbolObjects(h, bs) == SymbolObjects(h, rs) ==>
              Offered(h, rs, bs, address) == Offered(h, rs, rs, address)
  {
  }

  /** The same addresses, as far as live objects go. */
  ghost predicate SameAt(all: seq<Allocator>, lives: seq<set<Object>>, xs: seq<set<nat>>, ys: seq<set<nat>>) {
    && |lives| == |xs| == |ys| == |all|
    && forall k | 0 <= k < |all| ::
         all[k].layout.Valid() && ObjectsAt(all[k].layout, lives[k], xs[k]) == ObjectsAt(all[k].layout, lives[k], ys[k])
  }

  lemma LeftAsWell(all: seq<Allocator>, before: seq<set<Object>>, xs: seq<set<nat>>, ys: seq<set<nat>>)
    requires Left(all, before, xs) && SameAt(all, before, xs, ys)
    ensures Left(all, before, ys)
  {
  }

  /** The traversal by the collector's visitor: what it offers to each allocator. */
  method Traverse(h: Heap, marks: Marks, address: Ref -> nat, ghost c: Chain) returns (offered: seq<set<nat>>, marks': Marks)
    requires IsProperGraph(h, c)
    ensures offered == Offered(h, Reached(h), Reached(h), address)
  {
    hide IsProperGraph, Reached, Refs, WholeGraph, GraphTrace, SetOf, CodeObjects, SymbolObjects, Offered;
    hide ReportsTargets, ReportsSources, Reaches, Blocks, MarkAll, Defaulted, VisitedBlocks;
    var v := new Visitor();
    var g := new Graph(h, marks);
    ReachedIsGraph(h, c);
    VisitedIsReached(h, c);
    VisitPreOrder(g, v, c);
    offered, marks' := Offered(h, v.nodes, SetOf(VisitedBlocks(v.visits)), address), g.lastVisitor;
    SameOffered(h, v.nodes, SetOf(VisitedBlocks(v.visits)), address);
  }

  // ----- what becomes of the graph -----

  ghost function AddressesOf(layout: Layout, live: set<Object>): set<nat>
    requires layout.Valid()
  {
    set o | o in live :: layout.Address(o.base, o.index)
  }

  /** There is a live object at each of these addresses. */
  ghost predicate AllLiveAt(all: seq<Allocator>, lives: seq<set<Object>>, addresses: seq<set<nat>>) {
    && |lives| == |addresses| == |all|
    && forall k | 0 <= k < |all| ::
         all[k].layout.Valid() && addresses[k] <= AddressesOf(all[k].layout, lives[k])
  }

  /** There are live objects at these addresses, and at no others. */
  ghost predicate LiveExactlyAt(all: seq<Allocator>, addresses: seq<set<nat>>)
    reads all
  {
    && |addresses| == |all|
    && forall k | 0 <= k < |all| :: all[k].layout.Valid() && AddressesOf(all[k].layout, all[k].live) == addresses[k]
  }

  lemma OnlyAt(layout: Layout, live: set<Object>, addresses: set<nat>)
    requires layout.Valid() && addresses <= AddressesOf(layout, live)
    ensures AddressesOf(layout, ObjectsAt(layout, live, addresses)) == addresses
  {
    hide Layout.Address, Layout.Valid;
    forall x | x in addresses ensures x in AddressesOf(layout, ObjectsAt(layout, live, addresses)) {
      var o :| o in live && layout.Address(o.base, o.index) == x;
      assert o in ObjectsAt(layout, live, addresses);
    }
  }

  lemma LeftExactly(all: seq<Allocator>, before: seq<set<Object>>, addresses: seq<set<nat>>)
    requires Left(all, before, addresses) && AllLiveAt(all, before, addresses)
    ensures LiveExactlyAt(all, addresses)
  {
    hide AddressesOf, ObjectsAt, Layout.Valid;
    forall k | 0 <= k < |all| ensures AddressesOf(all[k].layout, all[k].live) == addresses[k] {
      OnlyAt(all[k].layout, before[k], addresses[k]);
    }
  }

  /** The addresses of the live nodes and arms. */
  ghost function NodeMemory(all: seq<Allocator>): set<nat>
    requires |all| == 7 && forall k | 0 <= k < 5 :: all[k].layout.Valid()
    reads all
  {
    set k, x | 0 <= k < 5 && x in AddressesOf(all[k].layout, all[k].live) :: x
  }

  /** The graph in the memory that is left: still a proper one, and for the same program. */
  lemma GraphIsLeft(all: seq<Allocator>, h: Heap, c: Chain)
    requires IsProperGraph(h, c) && Built(c) && |all| == 7 && LiveExactlyAt(all, Kept(h, Reached(h)))
    ensures var h' := Surviving(h, NodeMemory(all)); IsProperGraph(h', c) && Denote(h', c) == Denote(h, c)
  {
    hide IsProperGraph, Built, Objects, ArmObjects, CodeObjects, SymbolObjects, Reached, Denote, Surviving, AddressesOf;
    var kept, rs := Kept(h, Reached(h)), Reached(h);
    forall kind ensures Objects(h, rs, kind) <= NodeMemory(all) {
      assert kept[AllocatorOf(kind)] == Objects(h, rs, kind);
    }
    assert kept[4] == ArmObjects(h, rs);
    GraphSurvives(h, c, NodeMemory(all));
  }

  /** Garbage collection of a context, with its seven allocators: in each exactly the objects stay live that
      can be reached from the entry. If everything that the graph holds was live, then exactly that is what
      is left, and the graph in the memory that is left stands for the same program. */
  method GarbageCollect(h: Heap, marks: Marks, all: seq<Allocator>, address: Ref -> nat, ghost c: Chain,
                        ghost pages: set<Page>)
      returns (marks': Marks)
    requires IsProperGraph(h, c) && Separate(all) && AllValid(all, pages) && AllPlaced(all, h, Reached(h), address)
    modifies all, pages
    ensures Separate(all) && AllValid(all, pages) && Left(all, old(Lives(all)), Kept(h, Reached(h)))
    ensures Built(c) && old(AllLiveAt(all, Lives(all), Kept(h, Reached(h)))) ==>
              && LiveExactlyAt(all, Kept(h, Reached(h)))
              && var h' := Surviving(h, NodeMemory(all));
              IsProperGraph(h', c) && Denote(h', c) == Denote(h, c)
  {
    hide IsProperGraph, Separate, AllValid, AllPlaced, Reached, Offered, Kept, AllMayOffer, Left, SameAt, Lives, PagesOf;
    hide AllLiveAt, Surviving, Denote, Built, AddressesOf;
    assert |all| == 7 by {
      Seven(all, h, Reached(h), address);
    }
    AllPartsIgnored(all, h, Reached(h), address, pages);
    var offered;
    offered, marks' := Traverse(h, marks, address, c);
    CollectEach(all, offered, pages);
    LeftAsWell(all, old(Lives(all)), offered, Kept(h, Reached(h)));
    if Built(c) && old(AllLiveAt(all, Lives(all), Kept(h, Reached(h)))) {
      LeftExactly(all, old(Lives(all)), Kept(h, Reached(h)));
      GraphIsLeft(all, h, c);
    }
  }

  lemma Seven(all: seq<Allocator>, h: Heap, rs: set<Ref>, address: Ref -> nat)
    requires AllPlaced(all, h, rs, address)
    ensures |all| == 7
  {
  }
}
