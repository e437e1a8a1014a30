/** The mark-and-sweep slab allocator. To its clients it is a set of live objects, `live`, and the set
    `marked` of those whose reachable bit is set. */
module Allocators {
  import opened Pages
  import opened Layout
  import opened Pools

  /** An object: its slab and its place in it. */
  datatype Object = Object(base: nat, index: nat)

  // ----- pages and memory, without regard to what the pages hold -----

  ghost predicate Agree(bits: map<nat, seq<Slot>>, live: set<Object>, marked: set<Object>) {
    && (forall o :: o in live <==> o.base in bits && o.index < |bits[o.base]| && bits[o.base][o.index].isAllocated)
    && (forall o :: o in marked <==> o.base in bits && o.index < |bits[o.base]| && bits[o.base][o.index].isReachable)
  }

  /** No live object is on the slab at `base`. */
  ghost predicate Vacant(live: set<Object>, base: nat) {
    forall o | o in live :: o.base != base
  }

  lemma AgreeSet(bits: map<nat, seq<Slot>>, live: set<Object>, marked: set<Object>, o: Object, slot: Slot)
    requires Agree(bits, live, marked) && o.base in bits && o.index < |bits[o.base]|
    ensures Agree(bits[o.base := bits[o.base][o.index := slot]],
                  if slot.isAllocated then live + {o} else live - {o},
                  if slot.isReachable then marked + {o} else marked - {o})
  {
  }

  lemma AgreeAdd(bits: map<nat, seq<Slot>>, live: set<Object>, marked: set<Object>, b: nat, status: seq<Slot>)
    requires Agree(bits, live, marked) && b !in bits && forall i | 0 <= i < |status| :: status[i] == Slot(false, false)
    ensures Agree(bits[b := status], live, marked)
  {
  }

  lemma AgreeForget(bits: map<nat, seq<Slot>>, live: set<Object>, marked: set<Object>, b: nat)
    requires Agree(bits, live, marked) && forall o | o in live :: o.base != b
    ensures Agree(bits - {b}, live, set o | o in marked && o.base != b)
  {
  }

  ghost function UnmarkedBits(bits: map<nat, seq<Slot>>): map<nat, seq<Slot>> {
    map b | b in bits :: UnmarkedStatus(bits[b])
  }

  ghost function SweptBits(bits: map<nat, seq<Slot>>): map<nat, seq<Slot>> {
    map b | b in bits :: SweptStatus(bits[b])
  }

  lemma AgreeUnmark(bits: map<nat, seq<Slot>>, live: set<Object>, marked: set<Object>)
    requires Agree(bits, live, marked)
    ensures Agree(UnmarkedBits(bits), live, marked - live)
  {
  }

  lemma AgreeSweep(bits: map<nat, seq<Slot>>, live: set<Object>, marked: set<Object>)
    requires Agree(bits, live, marked)
    ensures Agree(SweptBits(bits), live * marked, marked)
  {
  }

  ghost predicate SlabsHeld(memory: map<nat, Page>, ps: seq<Page>) {
    forall p | p in ps :: p.base in memory && memory[p.base] == p
  }

  ghost predicate SlabsListed(memory: map<nat, Page>, ps: seq<Page>, qs: seq<Page>) {
    forall b | b in memory :: (memory[b] in ps || memory[b] in qs) && memory[b].base == b
  }

  /** The pages of two lists are the slabs in memory. */
  ghost predicate SlabsOk(memory: map<nat, Page>, ps: seq<Page>, qs: seq<Page>) {
    SlabsHeld(memory, ps) && SlabsHeld(memory, qs) && SlabsListed(memory, ps, qs)
  }

  /** Moving a page from one list to the head of the other. */
  lemma MovedBetween(memory: map<nat, Page>, ps: seq<Page>, qs: seq<Page>, k: nat)
    requires Apart(ps, qs) && SlabsOk(memory, ps, qs)
    requires k < |qs| && NoDuplicates(qs)
    ensures var ps', qs' := [qs[k]] + ps, Without(qs, k);
      && Apart(ps', qs') && Apart(qs', ps') && SlabsHeld(memory, ps') && SlabsHeld(memory, qs')
      && SlabsListed(memory, ps', qs') && SlabsListed(memory, qs', ps')
    ensures forall p :: p in Without(qs, k) <==> p in qs && p != qs[k]
    ensures qs[k] !in ps && qs[k] in qs
  {
    WithoutAt(qs, k);
    assert qs == qs[..k] + [qs[k]] + qs[k + 1..];
    assert forall p :: p in qs <==> p == qs[k] || p in Without(qs, k);
  }

  ghost predicate AllFull(ps: seq<Page>, numObjects: nat, working: Page?)
    reads ps`status, ps`numAllocated, ps`numFree
  {
    forall p | p in ps :: PageOk(p, numObjects) && (p != working ==> p.numFree == 0)
  }

  ghost predicate AllPartial(ps: seq<Page>, numObjects: nat, working: Page?)
    reads ps`status, ps`numAllocated, ps`numFree
  {
    forall p | p in ps :: PageOk(p, numObjects) && (p != working ==> p.numFree > 0)
  }

  ghost predicate Sorted(ps: seq<Page>, qs: seq<Page>, numObjects: nat, working: Page?)
    reads ps`status, ps`numAllocated, ps`numFree, qs`status, qs`numAllocated, qs`numFree
  {
    AllFull(ps, numObjects, working) && AllPartial(qs, numObjects, working)
  }

  ghost predicate Sweeping(ps: seq<Page>, qs: seq<Page>, numObjects: nat, k: nat)
    reads ps`status, ps`numAllocated, ps`numFree, qs`status, qs`numAllocated, qs`numFree
  {
    && (forall p | p in ps :: PageOk(p, numObjects))
    && (forall j | 0 <= j < k && j < |ps| :: ps[j].numFree == 0)
    && AllPartial(qs, numObjects, null)
  }

  /** A page that has gained a free slot moves to the partial list. */
  lemma MovedSwept(ps: seq<Page>, qs: seq<Page>, numObjects: nat, k: nat)
    requires Sweeping(ps, qs, numObjects, k) && NoDuplicates(ps) && k < |ps| && ps[k].numFree > 0
    ensures Sweeping(Without(ps, k), [ps[k]] + qs, numObjects, k)
  {
    hide PageOk;
    WithoutAt(ps, k);
    assert forall p | p in Without(ps, k) :: p in ps;
  }

  lemma MovedSorted(ps: seq<Page>, qs: seq<Page>, k: nat, numObjects: nat)
    requires k < |qs| && NoDuplicates(qs) && qs[k].numFree == 0
    requires AllFull(ps, numObjects, qs[k]) && AllPartial(qs, numObjects, qs[k]) && qs[k] !in ps
    ensures AllFull([qs[k]] + ps, numObjects, null) && AllPartial(Without(qs, k), numObjects, null)
  {
    WithoutAt(qs, k);
    assert forall p | p in Without(qs, k) :: p in qs && p != qs[k];
  }

  lemma ApartSymmetric(ps: seq<Page>, qs: seq<Page>)
    requires Apart(ps, qs)
    ensures Apart(qs, ps)
  {
  }

  lemma ListedSymmetric(memory: map<nat, Page>, ps: seq<Page>, qs: seq<Page>)
    requires SlabsListed(memory, ps, qs)
    ensures SlabsListed(memory, qs, ps)
  {
  }

  lemma MovedSortedBack(ps: seq<Page>, qs: seq<Page>, k: nat, numObjects: nat)
    requires k < |qs| && NoDuplicates(qs) && qs[k].numFree > 0
    requires AllPartial(ps, numObjects, qs[k]) && AllFull(qs, numObjects, qs[k]) && qs[k] !in ps
    ensures AllPartial([qs[k]] + ps, numObjects, null) && AllFull(Without(qs, k), numObjects, null)
  {
    WithoutAt(qs, k);
    assert forall p | p in Without(qs, k) :: p in qs && p != qs[k];
  }

  /** A page taken off a list and out of memory. */
  lemma UnlinkedFacts(memory: map<nat, Page>, ps: seq<Page>, qs: seq<Page>, k: nat)
    requires Apart(ps, qs) && SlabsOk(memory, ps, qs)
    requires k < |ps| && NoDuplicates(ps)
    ensures var ps', rest := Without(ps, k), memory - {ps[k].base};
      Apart(ps', qs) && SlabsOk(rest, ps', qs)
    ensures ps[k] !in qs
  {
    WithoutAt(ps, k);
    assert ps == ps[..k] + [ps[k]] + ps[k + 1..];
    assert forall p :: p in ps <==> p == ps[k] || p in Without(ps, k);
  }

  lemma UnlinkedSorted(ps: seq<Page>, qs: seq<Page>, k: nat, numObjects: nat)
    requires k < |ps| && NoDuplicates(ps) && ps[k] !in qs
    requires AllFull(ps, numObjects, ps[k]) && AllPartial(qs, numObjects, ps[k])
    ensures AllFull(Without(ps, k), numObjects, null) && AllPartial(qs, numObjects, null)
  {
    WithoutAt(ps, k);
    assert forall p | p in Without(ps, k) :: p in ps && p != ps[k];
  }

  lemma UnlinkedSortedBack(ps: seq<Page>, qs: seq<Page>, k: nat, numObjects: nat)
    requires k < |qs| && NoDuplicates(qs) && qs[k] !in ps
    requires AllFull(ps, numObjects, qs[k]) && AllPartial(qs, numObjects, qs[k])
    ensures AllFull(ps, numObjects, null) && AllPartial(Without(qs, k), numObjects, null)
  {
    WithoutAt(qs, k);
    assert forall p | p in Without(qs, k) :: p in qs && p != qs[k];
  }

  /** Unchaining a page from one list leaves the other list alone. */
  method UnlinkFrom(list: Page?, page: Page, ghost ps: seq<Page>, ghost k: nat, ghost other: Page?, ghost qs: seq<Page>)
      returns (list': Page?)
    requires IsList(list, ps) && IsList(other, qs) && Apart(ps, qs) && k < |ps| && ps[k] == page
    modifies ps`prev, ps`next
    ensures IsList(list', Without(ps, k)) && IsList(other, qs)
  {
    assert forall i | 0 <= i < |qs| :: qs[i] in qs && qs[i] !in ps;
    list' := UnchainPage(list, page, ps, k);
  }

  lemma AddedSlab(memory: map<nat, Page>, ps: seq<Page>, page: Page)
    requires SlabsHeld(memory, ps) && SlabsListed(memory, ps, []) && page.base !in memory && page !in ps
    ensures var memory' := memory[page.base := page];
      && SlabsHeld(memory', ps) && SlabsHeld(memory', [page]) && SlabsListed(memory', ps, [page])
    ensures Apart(ps, [page])
  {
  }

  method MakePage(base: nat, numObjects: nat) returns (page: Page)
    requires numObjects > 0
    ensures fresh(page) && page.base == base && PageOk(page, numObjects) && page.numFree > 0 && NothingAllocated(page)
  {
    page := new Page(base, numObjects);
    CountNone(numObjects);
  }

  ghost predicate NothingAllocated(page: Page)
    reads page`status
  {
    forall i | 0 <= i < |page.status| :: page.status[i] == Slot(false, false)
  }

  class Allocator {
    const layout: Layout
    const numObjects: nat
    var fullPages: Page?
    var partialPages: Page?
    /** What lies at an address that is known to be that of a slab. */
    var memory: map<nat, Page>

    ghost var full: seq<Page>
    ghost var partial: seq<Page>
    ghost var live: set<Object>
    ghost var marked: set<Object>

    /** What the allocator is to its clients. */
    ghost function View(): Pool<Object>
      reads `live, `marked
    {
      Pool(live, marked)
    }

    ghost predicate LayoutOk() {
      layout.Valid() && numObjects == layout.NumObjects()
    }

    ghost predicate MaySlabBe(base: nat)
      requires LayoutOk()
    {
      base % layout.SlabSize() == 0 && base % layout.align == 0
    }

    /** Every page is on one list, once. */
    ghost predicate ListsOk()
      reads `fullPages, `partialPages, `full, `partial, full`prev, full`next, partial`prev, partial`next
    {
      && IsList(fullPages, full) && IsList(partialPages, partial)
      && Apart(full, partial)
    }

    /** The pages on the lists are the slabs in memory, each at an aligned address of its own. */
    ghost predicate MemoryOk()
      reads `full, `partial, `memory
    {
      && SlabsOk(memory, full, partial)
      && AddressesOk()
    }

    ghost predicate AddressesOk()
      reads `memory
    {
      LayoutOk() && (forall b | b in memory :: MaySlabBe(b))
    }

    /** A page is on the full list exactly when it has no free slot. While `working` is worked on, it may
        be on the wrong one. */
    ghost predicate PagesSorted(working: Page?)
      reads `full, `partial, full`status, full`numAllocated, full`numFree
      reads partial`status, partial`numAllocated, partial`numFree
    {
      Sorted(full, partial, numObjects, working)
    }

    ghost predicate HasSlot(o: Object)
      reads `memory, memory.Values`status
    {
      o.base in memory && o.index < |memory[o.base].status|
    }

    /** The status bits of every slab. */
    ghost function Bits(): map<nat, seq<Slot>>
      reads `memory, memory.Values`status
    {
      map b | b in memory :: memory[b].status
    }

    /** The abstract sets agree with the bits. */
    ghost predicate BitsAgree()
      reads `memory, `live, `marked, memory.Values`status
    {
      Agree(Bits(), live, marked)
    }

    ghost predicate Valid()
      reads this, full, partial, memory.Values
    {
      ListsOk() && MemoryOk() && PagesSorted(null) && BitsAgree()
    }

    constructor (layout: Layout)
      requires layout.Valid()
      ensures Valid() && live == {} && marked == {} && this.layout == layout && memory == map[]
    {
      this.layout := layout;
      numObjects := layout.NumObjects();
      fullPages, partialPages, memory := null, null, map[];
      full, partial, live, marked := [], [], {}, {};
    }

    /** Give out a slot that is not live. `base` is where the operating system would map a new slab. */
    method Allocate(base: nat) returns (address: nat, ghost o: Object)
      requires Valid() && base !in memory && MaySlabBe(base)
      modifies this, full, partial
      ensures Valid() && fresh(memory.Values - old(memory.Values))
      ensures o !in old(live) && live == old(live) + {o} && marked == old(marked)
      ensures address == layout.Address(o.base, o.index) && o.index < numObjects
      ensures forall j | 0 <= j < o.index :: Object(o.base, j) in old(live)
      ensures old(partialPages) != null ==> o.base == old(partialPages.base) && memory == old(memory)
      ensures old(partialPages) == null ==> o == Object(base, 0) && memory.Keys == old(memory.Keys) + {base}
    {
      hide ListsOk, MemoryOk, PagesSorted, BitsAgree;
      NoneLive(base);
      if partialPages == null {
        AddPage(base);
      }
      address, o := AllocateFromFirst();
    }

    method AddPage(base: nat)
      requires Valid() && partialPages == null && base !in memory && MaySlabBe(base)
      modifies this`partialPages, this`memory, this`partial
      ensures Valid() && partialPages != null && fresh(partialPages) && partial == [partialPages]
      ensures full == old(full) && fullPages == old(fullPages) && live == old(live) && marked == old(marked)
      ensures memory == old(memory)[base := partialPages] && partialPages.base == base
    {
      hide AddressesOk, MaySlabBe, Sorted, Apart, BitsAgree, SlabsOk, PageOk;
      NoPartial();
      var page := MapSlab(base);
      AddHead(page);
      assert forall p | p in full :: PageOk(p, numObjects) && p.numFree == 0;
      assert forall p | p in [page] :: PageOk(p, numObjects) && p.numFree > 0;
      FromPages(page);
    }

    lemma NoPartial()
      requires Valid() && partialPages == null
      ensures partial == [] && numObjects > 0 && forall p | p in full :: PageOk(p, numObjects) && p.numFree == 0
    {
    }

    lemma FromPages(page: Page)
      requires partial == [page] && PageOk(page, numObjects) && page.numFree > 0
      requires forall p | p in full :: PageOk(p, numObjects) && p.numFree == 0
      ensures PagesSorted(null)
    {
    }

    /** Map a new slab at `base`; it is on no list yet. */
    method MapSlab(base: nat) returns (page: Page)
      requires MemoryOk() && BitsAgree() && partial == [] && base !in memory && MaySlabBe(base) && numObjects > 0
      modifies this`memory
      ensures fresh(page) && PageOk(page, numObjects) && page.numFree > 0 && page.base == base
      ensures memory == old(memory)[base := page] && BitsAgree() && Apart(full, [page])
      ensures SlabsOk(memory, full, [page]) && AddressesOk()
    {
      page := MakePage(base, numObjects);
      hide PageOk, AddressesOk, MaySlabBe, Apart, BitsAgree, SlabsOk, NothingAllocated;
      AddToMemory(page);
    }

    /** What lies at the address of a new slab. */
    method AddToMemory(page: Page)
      requires MemoryOk() && BitsAgree() && partial == [] && page !in full
      requires page.base !in memory && MaySlabBe(page.base) && NothingAllocated(page)
      modifies this`memory
      ensures memory == old(memory)[page.base := page] && BitsAgree() && Apart(full, [page])
      ensures SlabsOk(memory, full, [page])
      ensures AddressesOk()
    {
      AddedSlab(memory, full, page);
      AgreeAdd(Bits(), live, marked, page.base, page.status);
      memory := memory[page.base := page];
      assert Bits() == old(Bits())[page.base := page.status];
    }

    /** Make a new page the only partial one. */
    method AddHead(page: Page)
      requires ListsOk() && partial == [] && Apart(full, [page])
      modifies this`partialPages, this`partial, page`prev, page`next
      ensures ListsOk() && partial == [page] && partialPages == page
    {
      assert page !in full by {
        assert page in [page];
      }
      partialPages := ChainPage(partialPages, page, partial);
      partial := [page];
    }

    lemma LowerLive(page: Page, i: nat)
      requires MemoryOk() && BitsAgree() && page in partial && i <= |page.status|
      requires forall j | 0 <= j < i :: page.status[j].isAllocated
      ensures forall j | 0 <= j < i :: Object(page.base, j) in live
    {
      hide LayoutOk, MaySlabBe;
      assert page.base in Bits() && Bits()[page.base] == page.status;
    }

    /** On no slab, no object is live. */
    lemma NoneLive(base: nat)
      requires BitsAgree() && base !in memory
      ensures forall o | o in live :: o.base != base
    {
    }

    method AllocateFromFirst() returns (address: nat, ghost o: Object)
      requires Valid() && partialPages != null
      modifies this, full, partial
      ensures Valid() && memory == old(memory)
      ensures o !in old(live) && live == old(live) + {o} && marked == old(marked)
      ensures address == layout.Address(o.base, o.index) && o.index < numObjects
      ensures o.base == old(partialPages.base) && forall j | 0 <= j < o.index :: Object(o.base, j) in old(live)
    {
      hide BitsAgree, MemoryOk, PageOk, LayoutOk;
      assert partialPages == partial[0] && partial[0] in partial;
      var i := FindFree(partialPages, numObjects);
      LowerLive(partialPages, i);
      address, o := AllocateFromPage(partialPages, i);
    }

    method AllocateFromPage(page: Page, i: nat) returns (address: nat, ghost o: Object)
      requires Valid() && |partial| > 0 && page == partial[0] && i < |page.status| && !page.status[i].isAllocated
      modifies this, full, partial
      ensures Valid() && memory == old(memory) && o == Object(page.base, i)
      ensures o !in old(live) && live == old(live) + {o} && marked == old(marked)
      ensures address == layout.Address(o.base, o.index) && o.index < numObjects
      ensures page.numFree == old(page.numFree) - 1
      ensures if page.numFree == 0 then full == [page] + old(full) && partial == old(partial)[1..]
              else full == old(full) && partial == old(partial)
    {
      o := SetAllocated(page, i, true);
      if page.numFree == 0 {
        MoveToFull(page);
      }
      address := layout.Address(page.base, i);
    }

    /** Set or clear the allocated bit of one slot and adjust the counters of its page. */
    method SetAllocated(page: Page, i: nat, on: bool) returns (ghost o: Object)
      requires Valid() && (page in full || page in partial) && i < |page.status| && page.status[i].isAllocated != on
      modifies this`live, page`status, page`numFree, page`numAllocated
      ensures ListsOk() && MemoryOk() && BitsAgree() && PagesSorted(page) && o == Object(page.base, i)
      ensures page.numFree == if on then old(page.numFree) - 1 else old(page.numFree) + 1
      ensures live == if on then old(live) + {o} else old(live) - {o}
    {
      hide ListsOk, MemoryOk, BitsAgree, PageOk;
      PageFacts(page);
      o := SetBitAndRecord(page, i, on);
    }

    lemma PageFacts(page: Page)
      requires MemoryOk() && PagesSorted(null) && (page in full || page in partial)
      ensures page.base in memory && memory[page.base] == page && PageOk(page, numObjects)
      ensures forall b | b in memory :: memory[b].base == b
    {
    }

    method SetBitAndRecord(page: Page, i: nat, on: bool) returns (ghost o: Object)
      requires BitsAgree() && page.base in memory && memory[page.base] == page && PageOk(page, numObjects)
      requires forall b | b in memory :: memory[b].base == b
      requires i < |page.status| && page.status[i].isAllocated != on
      modifies this`live, page`status, page`numFree, page`numAllocated
      ensures BitsAgree() && PageOk(page, numObjects) && o == Object(page.base, i)
      ensures page.numFree == if on then old(page.numFree) - 1 else old(page.numFree) + 1
      ensures live == if on then old(live) + {o} else old(live) - {o}
    {
      o := Object(page.base, i);
      ghost var before := page.status;
      ghost var slot := Slot(on, before[i].isReachable);
      SetBit(page, i, on, numObjects);
      hide PageOk;
      assert Bits() == old(Bits())[page.base := before[i := slot]];
      AgreeSet(old(Bits()), live, marked, o, slot);
      assert (if slot.isReachable then marked + {o} else marked - {o}) == marked;
      live := if on then live + {o} else live - {o};
    }

    method MoveToFull(page: Page)
      requires ListsOk() && MemoryOk() && BitsAgree() && PagesSorted(page)
      requires |partial| > 0 && page == partial[0] && page.numFree == 0
      modifies this`fullPages, this`partialPages, this`full, this`partial, full`prev, partial`prev, partial`next
      ensures Valid() && memory == old(memory) && live == old(live) && marked == old(marked)
      ensures full == [page] + old(full) && partial == old(partial)[1..]
    {
      hide BitsAgree, ListsOk, SlabsOk, Sorted, Apart, AddressesOk, Without;
      PlanMoveToFull(page);
      ghost var full', partial' := [page] + full, Without(partial, 0);
      assert Sorted(full', partial', numObjects, null);
      WithoutIs(partial, 0);
      MoveHead(page);
      assert full == full' && partial == partial';
    }

    lemma PlanMoveToFull(page: Page)
      requires ListsOk() && MemoryOk() && PagesSorted(page)
      requires |partial| > 0 && page == partial[0] && page.numFree == 0
      ensures var full', partial' := [page] + full, Without(partial, 0);
        && Apart(full', partial') && SlabsOk(memory, full', partial')
        && Sorted(full', partial', numObjects, null)
    {
      hide PageOk, LayoutOk, MaySlabBe;
      ListFacts(partialPages, partial);
      MovedBetween(memory, full, partial, 0);
      MovedSorted(full, partial, 0, numObjects);
    }

    /** Move the first partial page to the full list. */
    method MoveHead(page: Page)
      requires ListsOk() && |partial| > 0 && page == partial[0] && Apart([page] + full, Without(partial, 0))
      modifies this`fullPages, this`partialPages, this`full, this`partial, full`prev, partial`prev, partial`next
      ensures ListsOk() && full == [page] + old(full) && partial == Without(old(partial), 0)
    {
      ghost var moved, rest := [page] + full, Without(partial, 0);
      partialPages, fullPages := MovePage(partialPages, fullPages, page, partial, 0, full);
      partial := rest;
      full := moved;
    }

    // ----- freeing one object -----

    method Free(obj: Pointer, ghost o: Object)
      requires Valid() && (obj.Pointer? ==> o in live && obj.address == layout.Address(o.base, o.index))
      modifies this, full, partial
      ensures Valid()
      ensures obj.Null? ==> live == old(live) && marked == old(marked) && memory == old(memory)
      ensures obj.Pointer? ==> live == old(live) - {o} && marked * live == old(marked) * live && marked <= old(marked)
      ensures obj.Pointer? ==> memory == if Vacant(live, o.base) then old(memory) - {o.base} else old(memory)
    {
      if obj == Null {
        return;
      }
      LocateSlot(o);
      FreeFromPage(memory[layout.PageOf(obj.address)], layout.IndexOf(obj.address));
    }

    /** The address of an object determines its slab and slot. */
    lemma LocateSlot(o: Object)
      requires Valid() && HasSlot(o)
      ensures layout.Valid() && layout.PageOf(layout.Address(o.base, o.index)) == o.base
      ensures layout.IndexOf(layout.Address(o.base, o.index)) == o.index
    {
      hide BitsAgree;
      SlotCount(o.base);
      assert MaySlabBe(o.base);
      SlotRoundTrip(layout, o.base, o.index);
    }

    /** A live object has a slot, and is the only one at its address. */
    lemma LiveSlot(o: Object)
      requires Valid() && o in live
      ensures layout.Valid() && HasSlot(o) && layout.PageOf(layout.Address(o.base, o.index)) in memory
      ensures forall o' | o' in live && layout.Address(o'.base, o'.index) == layout.Address(o.base, o.index) :: o' == o
    {
      LocateSlot(o);
      forall o' | o' in live && layout.Address(o'.base, o'.index) == layout.Address(o.base, o.index) ensures o' == o {
        LocateSlot(o');
      }
    }

    lemma SlotCount(b: nat)
      requires ListsOk() && MemoryOk() && PagesSorted(null) && b in memory
      ensures |memory[b].status| == numObjects
    {
      assert memory[b] in full || memory[b] in partial;
    }

    /** The source adjusts the number of free slots last, after the page may have been released, and takes
        an emptied page off the partial list even if it holds one object only. */
    method FreeFromPage(page: Page, i: nat)
      requires Valid() && (page in full || page in partial) && i < |page.status| && page.status[i].isAllocated
      modifies this, full, partial
      ensures Valid() && live == old(live) - {Object(page.base, i)}
      ensures marked * live == old(marked) * live && marked <= old(marked)
      ensures memory == if Vacant(live, page.base) then old(memory) - {page.base} else old(memory)
      ensures !Vacant(live, page.base) ==>
        if old(page.numFree) > 0 then full == old(full) && partial == old(partial)
        else
          && partial == [page] + old(partial)
          && exists k :: 0 <= k < |old(full)| && old(full)[k] == page && full == old(full)[..k] + old(full)[k + 1..]
    {
      hide ListsOk, MemoryOk, BitsAgree, PagesSorted, Vacant;
      var wasFull := page.numFree == 0;
      SortedPlace(page);
      ghost var o := SetAllocated(page, i, false);
      EmptyMeansVacant(page);
      if page.numAllocated == 0 {
        Release(page, wasFull);
      } else if wasFull {
        MoveToPartial(page);
      } else {
        NowSorted(page);
      }
    }

    /** A page counts no allocated slot exactly when no live object is on it. */
    lemma EmptyMeansVacant(page: Page)
      requires MemoryOk() && BitsAgree() && PagesSorted(page) && (page in full || page in partial)
      ensures page.numAllocated == 0 <==> Vacant(live, page.base)
    {
      CountBound(page.status);
      hide LayoutOk, MaySlabBe;
      if page.numAllocated > 0 {
        var i :| 0 <= i < |page.status| && page.status[i].isAllocated;
        assert page.base in Bits() && Bits()[page.base] == page.status;
        assert Object(page.base, i) in live;
      } else {
        NoneAllocated(page);
      }
    }

    lemma SortedPlace(page: Page)
      requires Valid() && (page in full || page in partial)
      ensures page in full <==> page.numFree == 0
      ensures page in partial <==> page.numFree > 0
    {
    }

    lemma NowSorted(page: Page)
      requires PagesSorted(page) && page !in full && page.numFree > 0
      ensures PagesSorted(null)
    {
    }

    lemma PlanMoveToPartial(page: Page) returns (k: nat)
      requires ListsOk() && MemoryOk() && PagesSorted(page) && page in full && page.numFree > 0
      ensures k < |full| && full[k] == page && Apart(partial, full)
      ensures var full', partial' := Without(full, k), [page] + partial;
        && Apart(full', partial')
        && SlabsOk(memory, full', partial')
        && Sorted(full', partial', numObjects, null)
    {
      hide PageOk, LayoutOk, MaySlabBe;
      k :| k < |full| && full[k] == page;
      ListFacts(fullPages, full);
      ApartSymmetric(full, partial);
      ListedSymmetric(memory, full, partial);
      MovedBetween(memory, partial, full, k);
      MovedSortedBack(partial, full, k, numObjects);
    }

    method MoveToPartial(page: Page)
      requires ListsOk() && MemoryOk() && BitsAgree() && PagesSorted(page) && page in full && page.numFree > 0
      modifies this`fullPages, this`partialPages, this`full, this`partial, partial`prev, full`prev, full`next
      ensures Valid() && memory == old(memory) && live == old(live) && marked == old(marked)
      ensures partial == [page] + old(partial)
      ensures exists k :: 0 <= k < |old(full)| && old(full)[k] == page && full == old(full)[..k] + old(full)[k + 1..]
    {
      hide BitsAgree, ListsOk, SlabsOk, Sorted, Apart, AddressesOk, Without;
      ghost var k := PlanMoveToPartial(page);
      ghost var full', partial' := Without(full, k), [page] + partial;
      assert Sorted(full', partial', numObjects, null);
      WithoutIs(full, k);
      MoveFromFull(page, k);
      assert full == full' && partial == partial';
    }

    /** Move a page from the full list to the partial one. */
    method MoveFromFull(page: Page, ghost k: nat)
      requires ListsOk() && k < |full| && page == full[k]
      requires Apart(partial, full) && Apart(Without(full, k), [page] + partial)
      modifies this`fullPages, this`partialPages, this`full, this`partial, partial`prev, full`prev, full`next
      ensures ListsOk() && partial == [page] + old(partial) && full == Without(old(full), k)
    {
      ghost var moved, rest := [page] + partial, Without(full, k);
      fullPages, partialPages := MovePage(fullPages, partialPages, page, full, k, partial);
      full := rest;
      partial := moved;
    }

    /** Give an empty page back to the operating system. */
    method Release(page: Page, onFull: bool)
      requires ListsOk() && MemoryOk() && BitsAgree() && PagesSorted(page) && page.numAllocated == 0
      requires if onFull then page in full else page in partial
      modifies this`fullPages, this`partialPages, this`full, this`partial, this`memory, this`marked
      modifies full`prev, full`next, partial`prev, partial`next
      ensures Valid() && live == old(live) && marked * live == old(marked) * live && marked <= old(marked)
      ensures memory == old(memory) - {page.base}
    {
      NoneAllocated(page);
      hide ListsOk, MemoryOk, PagesSorted, BitsAgree, PagesHeldWithout;
      if onFull {
        ReleaseFull(page);
      } else {
        ReleasePartial(page);
      }
    }

    method ReleaseFull(page: Page)
      requires ListsOk() && MemoryOk() && BitsAgree() && PagesSorted(page) && page in full
      requires page.base in memory && Vacant(live, page.base)
      modifies this`fullPages, this`full, this`memory, this`marked, full`prev, full`next
      ensures Valid() && live == old(live) && marked * live == old(marked) * live && marked <= old(marked)
      ensures memory == old(memory) - {page.base}
    {
      hide ListsOk, MemoryOk, PagesSorted, BitsAgree, PagesHeldWithout;
      UnlinkFull(page);
      Forget(page);
    }

    method ReleasePartial(page: Page)
      requires ListsOk() && MemoryOk() && BitsAgree() && PagesSorted(page) && page in partial
      requires page.base in memory && Vacant(live, page.base)
      modifies this`partialPages, this`partial, this`memory, this`marked, partial`prev, partial`next
      ensures Valid() && live == old(live) && marked * live == old(marked) * live && marked <= old(marked)
      ensures memory == old(memory) - {page.base}
    {
      hide ListsOk, MemoryOk, PagesSorted, BitsAgree, PagesHeldWithout;
      UnlinkPartial(page);
      Forget(page);
    }

    lemma NoneAllocated(page: Page)
      requires MemoryOk() && BitsAgree() && PagesSorted(page) && page.numAllocated == 0 && (page in full || page in partial)
      ensures Vacant(live, page.base)
      ensures page.base in memory && memory[page.base] == page
    {
      CountBound(page.status);
    }

    lemma PlanUnlinkFull(page: Page) returns (k: nat)
      requires ListsOk() && MemoryOk() && PagesSorted(page) && page in full
      ensures k < |full| && full[k] == page && Apart(full, partial)
      ensures var full', rest := Without(full, k), memory - {page.base};
        && Apart(full', partial)
        && SlabsOk(rest, full', partial)
        && Sorted(full', partial, numObjects, null)
    {
      hide PageOk, LayoutOk, MaySlabBe;
      k :| k < |full| && full[k] == page;
      ListFacts(fullPages, full);
      UnlinkedFacts(memory, full, partial, k);
      UnlinkedSorted(full, partial, k, numObjects);
    }

    method UnlinkFull(page: Page)
      requires ListsOk() && MemoryOk() && PagesSorted(page) && page in full
      modifies this`fullPages, this`full, full`prev, full`next
      ensures ListsOk() && PagesSorted(null) && PagesHeldWithout(page)
    {
      ghost var k := PlanUnlinkFull(page);
      ghost var full' := Without(full, k);
      hide ListsOk, SlabsOk, PageOk, Apart, AddressesOk, Without;
      DropFromFull(page, k);
      assert full == full';
      assert forall p | p in full' :: PageOk(p, numObjects) && p.numFree == 0;
      assert forall p | p in partial :: PageOk(p, numObjects) && p.numFree > 0;
    }

    method DropFromFull(page: Page, ghost k: nat)
      requires ListsOk() && k < |full| && full[k] == page && Apart(Without(full, k), partial)
      modifies this`fullPages, this`full, full`prev, full`next
      ensures ListsOk() && full == Without(old(full), k)
    {
      fullPages := UnlinkFrom(fullPages, page, full, k, partialPages, partial);
      full := Without(full, k);
    }

    lemma PlanUnlinkPartial(page: Page) returns (k: nat)
      requires ListsOk() && MemoryOk() && PagesSorted(page) && page in partial
      ensures k < |partial| && partial[k] == page && Apart(partial, full)
      ensures var partial', rest := Without(partial, k), memory - {page.base};
        && Apart(full, partial')
        && SlabsOk(rest, full, partial')
        && Sorted(full, partial', numObjects, null)
    {
      hide PageOk, LayoutOk, MaySlabBe;
      k :| k < |partial| && partial[k] == page;
      ListFacts(partialPages, partial);
      ApartSymmetric(full, partial);
      ListedSymmetric(memory, full, partial);
      UnlinkedFacts(memory, partial, full, k);
      UnlinkedSortedBack(full, partial, k, numObjects);
      ListedSymmetric(memory - {page.base}, Without(partial, k), full);
      ApartSymmetric(Without(partial, k), full);
    }

    method UnlinkPartial(page: Page)
      requires ListsOk() && MemoryOk() && PagesSorted(page) && page in partial
      modifies this`partialPages, this`partial, partial`prev, partial`next
      ensures ListsOk() && PagesSorted(null) && PagesHeldWithout(page)
    {
      ghost var k := PlanUnlinkPartial(page);
      ghost var partial' := Without(partial, k);
      hide ListsOk, SlabsOk, PageOk, Apart, AddressesOk, Without;
      DropFromPartial(page, k);
      assert partial == partial';
      assert forall p | p in full :: PageOk(p, numObjects) && p.numFree == 0;
      assert forall p | p in partial' :: PageOk(p, numObjects) && p.numFree > 0;
    }

    method DropFromPartial(page: Page, ghost k: nat)
      requires ListsOk() && k < |partial| && partial[k] == page && Apart(partial, full) && Apart(full, Without(partial, k))
      modifies this`partialPages, this`partial, partial`prev, partial`next
      ensures ListsOk() && partial == Without(old(partial), k)
    {
      partialPages := UnlinkFrom(partialPages, page, partial, k, fullPages, full);
      partial := Without(partial, k);
    }

    /** The lists hold every page in memory but `page`, which is on neither. */
    ghost predicate PagesHeldWithout(page: Page)
      reads `full, `partial, `memory
    {
      var rest := memory - {page.base};
      && SlabsOk(rest, full, partial)
      && AddressesOk()
    }

    method Forget(page: Page)
      requires PagesHeldWithout(page) && BitsAgree() && page.base in memory
      requires Vacant(live, page.base)
      modifies this`memory, this`marked
      ensures MemoryOk() && BitsAgree() && marked * live == old(marked) * live && marked <= old(marked)
      ensures memory == old(memory) - {page.base}
    {
      AgreeForget(Bits(), live, marked, page.base);
      memory := memory - {page.base};
      assert Bits() == old(Bits()) - {page.base};
      marked := set o | o in marked && o.base != page.base;
    }

    // ----- mark and sweep -----

    method MarkAllUnreachable()
      requires Valid()
      modifies this`marked, full`status, partial`status
      ensures Valid() && View() == old(View()).UnmarkAll()
      ensures live == old(live) && marked == old(marked) - old(live)
    {
      hide ListsOk, MemoryOk, PagesSorted, Agree, Bits, UnmarkedBits;
      AgreeUnmark(Bits(), live, marked);
      UnmarkBits();
      marked := marked - live;
    }

    method UnmarkBits()
      requires ListsOk() && MemoryOk() && PagesSorted(null)
      modifies full`status, partial`status
      ensures PagesSorted(null) && Bits() == UnmarkedBits(old(Bits()))
    {
      hide ListsOk, MemoryOk, PagesSorted, UnmarkedStatus;
      UnmarkBoth();
    }

    method UnmarkBoth()
      requires ListsOk() && MemoryOk() && PagesSorted(null)
      modifies full`status, partial`status
      ensures PagesSorted(null) && forall b | b in memory :: memory[b].status == UnmarkedStatus(old(memory[b].status))
    {
      hide UnmarkedStatus, AddressesOk, PageOk, SlabsHeld, IsList;
      ApartSymmetric(full, partial);
      UnmarkBeside(fullPages, numObjects, full, partial);
      UnmarkBeside(partialPages, numObjects, partial, full);
    }

    method MarkReachable(address: nat, ghost o: Object)
      requires Valid() && HasSlot(o) && address == layout.Address(o.base, o.index)
      modifies this`marked, full`status, partial`status
      ensures Valid() && View() == old(View()).Mark(o)
      ensures live == old(live) && marked == old(marked) + {o}
    {
      hide ListsOk, MemoryOk, BitsAgree, PageOk;
      SlotFacts(o);
      SetReachable(memory[layout.PageOf(address)], layout.IndexOf(address));
    }

    lemma SlotFacts(o: Object)
      requires Valid() && HasSlot(o)
      ensures layout.Valid() && layout.PageOf(layout.Address(o.base, o.index)) == o.base
      ensures layout.IndexOf(layout.Address(o.base, o.index)) == o.index
      ensures (memory[o.base] in full || memory[o.base] in partial) && o.index < numObjects && memory[o.base].base == o.base
      ensures PageOk(memory[o.base], numObjects) && forall b | b in memory :: memory[b].base == b
    {
      LocateSlot(o);
      SlotCount(o.base);
      PageFacts(memory[o.base]);
    }

    method SetReachable(page: Page, i: nat)
      requires BitsAgree() && page.base in memory && memory[page.base] == page && PageOk(page, numObjects)
      requires i < |page.status| && forall b | b in memory :: memory[b].base == b
      modifies this`marked, page`status
      ensures BitsAgree() && PageOk(page, numObjects) && marked == old(marked) + {Object(page.base, i)}
    {
      ghost var before, o := page.status, Object(page.base, i);
      ghost var slot := Slot(before[i].isAllocated, true);
      AgreeSet(Bits(), live, marked, o, slot);
      page.status := page.status[i := page.status[i].(isReachable := true)];
      CountSame(page.status, before);
      hide PageOk;
      assert Bits() == old(Bits())[page.base := before[i := slot]];
      assert (if slot.isAllocated then live + {o} else live - {o}) == live;
      marked := marked + {o};
    }

    /** Whether the memory at an address belongs to a slab of this allocator. */
    method OwnsObject(obj: Pointer) returns (owns: bool)
      requires Valid()
      ensures owns <==> obj.Pointer? && layout.PageOf(obj.address) in memory
      ensures forall o | o in live && obj == Pointer(layout.Address(o.base, o.index)) :: owns
    {
      if obj == Null {
        return false;
      }
      forall o | o in live ensures layout.PageOf(layout.Address(o.base, o.index)) in memory {
        LocateSlot(o);
      }
      return layout.PageOf(obj.address) in memory;
    }

    /** During a sweep the full list may hold pages with free slots, from its k-th page on. */
    ghost predicate SweptUpTo(k: nat)
      reads `full, `partial, full`status, full`numAllocated, full`numFree
      reads partial`status, partial`numAllocated, partial`numFree
    {
      Sweeping(full, partial, numObjects, k)
    }

    method SweepAll()
      requires Valid()
      modifies this`live, full`status, full`numAllocated, full`numFree, partial`status, partial`numAllocated, partial`numFree
      ensures ListsOk() && MemoryOk() && BitsAgree() && SweptUpTo(0)
      ensures live == old(live) * marked
    {
      hide ListsOk, MemoryOk, PagesSorted, SweptUpTo, Agree, Bits, SweptBits;
      AgreeSweep(Bits(), live, marked);
      SweepBits();
      live := live * marked;
    }

    method SweepBits()
      requires ListsOk() && MemoryOk() && PagesSorted(null)
      modifies full`status, full`numAllocated, full`numFree, partial`status, partial`numAllocated, partial`numFree
      ensures SweptUpTo(0) && Bits() == SweptBits(old(Bits()))
    {
      hide ListsOk, MemoryOk, PagesSorted, SweptUpTo, SweptStatus;
      SweepBoth();
    }

    method SweepBoth()
      requires ListsOk() && MemoryOk() && PagesSorted(null)
      modifies full`status, full`numAllocated, full`numFree, partial`status, partial`numAllocated, partial`numFree
      ensures SweptUpTo(0) && forall b | b in memory :: memory[b].status == SweptStatus(old(memory[b].status))
    {
      hide SweptStatus, AddressesOk, PageOk, SlabsHeld, IsList;
      ApartSymmetric(full, partial);
      SweepBeside(fullPages, numObjects, full, partial);
      SweepBeside(partialPages, numObjects, partial, full);
    }

    method MoveSwept(page: Page, ghost k: nat)
      requires ListsOk() && MemoryOk() && BitsAgree() && SweptUpTo(k) && k < |full| && full[k] == page && page.numFree > 0
      modifies this`fullPages, this`partialPages, this`full, this`partial, partial`prev, full`prev, full`next
      ensures ListsOk() && MemoryOk() && BitsAgree() && SweptUpTo(k)
      ensures full == Without(old(full), k) && partial == [page] + old(partial)
    {
      hide BitsAgree, ListsOk, SlabsOk, Sweeping, Apart, AddressesOk, Without;
      ghost var full', partial' := Without(full, k), [page] + partial;
      PlanMoveSwept(page, k);
      assert Sweeping(full', partial', numObjects, k);
      MoveFromFull(page, k);
      assert full == full' && partial == partial';
    }

    lemma PlanMoveSwept(page: Page, k: nat)
      requires ListsOk() && MemoryOk() && SweptUpTo(k) && k < |full| && full[k] == page && page.numFree > 0
      ensures Apart(partial, full)
      ensures var full', partial' := Without(full, k), [page] + partial;
        Apart(full', partial') && SlabsOk(memory, full', partial') && Sweeping(full', partial', numObjects, k)
    {
      hide PageOk, LayoutOk, MaySlabBe, Sweeping;
      ListFacts(fullPages, full);
      ApartSymmetric(full, partial);
      ListedSymmetric(memory, full, partial);
      MovedBetween(memory, partial, full, k);
      MovedSwept(full, partial, numObjects, k);
    }

    method FreeUnreachable()
      requires Valid()
      modifies this, full, partial
      ensures Valid() && View() == old(View()).Sweep() && memory == old(memory)
      ensures live == old(live) * old(marked) && marked == old(marked)
    {
      hide ListsOk, MemoryOk, BitsAgree, PagesSorted, SweptUpTo;
      SweepAll();
      MoveAllSwept();
    }

    /** Pages that have a free slot now go to the partial list. */
    method MoveAllSwept()
      requires ListsOk() && MemoryOk() && BitsAgree() && SweptUpTo(0)
      modifies this`fullPages, this`partialPages, this`full, this`partial, full, partial
      ensures Valid()
    {
      hide MemoryOk, BitsAgree, AllPartial, PageOk, NoDuplicates, Apart;
      var page := fullPages;
      ghost var k := 0;
      while page != null
        invariant ListsOk() && MemoryOk() && BitsAgree() && SweptUpTo(k) && k <= |full| && page == At(full, k)
        invariant forall i | 0 <= i < |full| :: full[i] in old(full)
        invariant forall i | 0 <= i < |partial| :: partial[i] in old(full) || partial[i] in old(partial)
        decreases |full| - k
      {
        var next := page.next;
        assert next == At(full, k + 1);
        if page.numFree != 0 {
          WithoutIn(full, k);
          MoveSwept(page, k);
        } else {
          k := k + 1;
        }
        page := next;
      }
      AllSwept(k);
    }

    lemma AllSwept(k: nat)
      requires SweptUpTo(k) && k >= |full|
      ensures PagesSorted(null)
    {
    }

    /** A whole collection: what is live afterwards is exactly what was live before and was marked. */
    method Collect(addresses: seq<nat>, ghost os: seq<Object>)
      requires Valid() && |addresses| == |os|
      requires forall i | 0 <= i < |os| :: HasSlot(os[i]) && addresses[i] == layout.Address(os[i].base, os[i].index)
      modifies this, full, partial
      ensures Valid() && live == old(live) * (set o | o in os) && memory == old(memory)
    {
      SlotsExist(os);
      hide Valid, HasSlot;
      MarkAllUnreachable();
      MarkEach(addresses, os);
      FreeUnreachable();
    }

    lemma SlotsExist(os: seq<Object>)
      requires Valid() && forall i | 0 <= i < |os| :: HasSlot(os[i])
      ensures forall i | 0 <= i < |os| :: os[i].base in memory && os[i].index < numObjects
    {
      forall i | 0 <= i < |os| ensures os[i].base in memory && os[i].index < numObjects {
        SlotCount(os[i].base);
      }
    }

    method MarkEach(addresses: seq<nat>, ghost os: seq<Object>)
      requires Valid() && |addresses| == |os| && marked * live == {}
      requires forall i | 0 <= i < |os| :: os[i].base in memory && os[i].index < numObjects
      requires forall i | 0 <= i < |os| :: addresses[i] == layout.Address(os[i].base, os[i].index)
      modifies this`marked, full`status, partial`status
      ensures Valid() && live == old(live) && forall o | o in live :: o in marked <==> o in os
    {
      hide ListsOk, MemoryOk, BitsAgree, PagesSorted, LayoutOk;
      assert forall o | o in live :: o !in marked * live;
      for i := 0 to |addresses|
        invariant Valid() && live == old(live)
        invariant forall o | o in live :: o in marked <==> o in os[..i]
      {
        SlotCount(os[i].base);
        MarkReachable(addresses[i], os[i]);
        assert os[..i + 1] == os[..i] + [os[i]];
      }
      assert os[..|addresses|] == os;
    }
  }

  datatype Pointer = Null | Pointer(address: nat)

  lemma WithoutIs(ps: seq<Page>, k: nat)
    requires k < |ps|
    ensures Without(ps, k) == ps[..k] + ps[k + 1..] && (k == 0 ==> Without(ps, k) == ps[1..])
  {
  }

  lemma WithoutIn(ps: seq<Page>, k: nat)
    requires k < |ps|
    ensures forall p | p in Without(ps, k) :: p in ps
    ensures ps[k] in ps && |Without(ps, k)| == |ps| - 1 && At(Without(ps, k), k) == At(ps, k + 1)
  {
  }

  lemma ListFacts(head: Page?, ps: seq<Page>)
    requires IsList(head, ps)
    ensures NoDuplicates(ps)
  {
  }

  method FindFree(page: Page, numObjects: nat) returns (i: nat)
    requires PageOk(page, numObjects) && page.numFree > 0
    ensures i < |page.status| && !page.status[i].isAllocated && forall j | 0 <= j < i :: page.status[j].isAllocated
  {
    CountBound(page.status);
    i := 0;
    while page.status[i].isAllocated
      invariant 0 <= i < |page.status|
      invariant forall j | 0 <= j < i :: page.status[j].isAllocated
      decreases |page.status| - i
    {
      if i + 1 == |page.status| {
        assert forall j | 0 <= j < |page.status| :: page.status[j].isAllocated;
      }
      i := i + 1;
    }
  }

  /** Set or clear the allocated bit of a slot. */
  method SetBit(page: Page, i: nat, on: bool, ghost numObjects: nat)
    requires PageOk(page, numObjects) && i < |page.status| && page.status[i].isAllocated != on
    modifies page`status, page`numFree, page`numAllocated
    ensures PageOk(page, numObjects)
    ensures page.status == old(page.status)[i := Slot(on, old(page.status)[i].isReachable)]
    ensures page.numFree == if on then old(page.numFree) - 1 else old(page.numFree) + 1
  {
    var slot := Slot(on, page.status[i].isReachable);
    CountUpdate(page.status, i, slot);
    CountBound(page.status[i := slot]);
    page.status := page.status[i := slot];
    if on {
      page.numFree := page.numFree - 1;
      page.numAllocated := page.numAllocated + 1;
    } else {
      page.numFree := page.numFree + 1;
      page.numAllocated := page.numAllocated - 1;
    }
  }
}
