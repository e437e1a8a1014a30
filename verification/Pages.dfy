/** Slabs of memory and the doubly linked lists that an allocator keeps them in. */
module Pages {

  /** Meta-data of one object. */
  datatype Slot = Slot(isAllocated: bool, isReachable: bool)

  class Page {
    const base: nat
    var prev: Page?
    var next: Page?
    var numAllocated: nat
    var numFree: nat
    var status: seq<Slot>

    constructor (base: nat, numObjects: nat)
      ensures this.base == base && prev == null && next == null && numAllocated == 0 && numFree == numObjects
      ensures status == seq(numObjects, _ => Slot(false, false))
    {
      this.base := base;
      prev, next, numAllocated, numFree := null, null, 0, numObjects;
      status := seq(numObjects, _ => Slot(false, false));
    }
  }

  // ----- one page -----

  function Count(s: seq<Slot>): nat {
    if s == [] then 0 else (if s[0].isAllocated then 1 else 0) + Count(s[1..])
  }

  lemma {:induction false} CountBound(s: seq<Slot>)
    ensures Count(s) <= |s|
    ensures Count(s) == |s| <==> forall i | 0 <= i < |s| :: s[i].isAllocated
    ensures Count(s) == 0 <==> forall i | 0 <= i < |s| :: !s[i].isAllocated
  {
    if s != [] {
      CountBound(s[1..]);
      assert forall i | 0 < i < |s| :: s[i] == s[1..][i - 1];
      assert forall i | 0 <= i < |s[1..]| :: s[1..][i] == s[i + 1];
    }
  }

  lemma {:induction false} CountUpdate(s: seq<Slot>, i: nat, x: Slot)
    requires i < |s|
    ensures Count(s[i := x]) == Count(s) + (if x.isAllocated then 1 else 0) - (if s[i].isAllocated then 1 else 0)
  {
    if i == 0 {
      assert s[i := x][1..] == s[1..];
    } else {
      CountUpdate(s[1..], i - 1, x);
      assert s[i := x][1..] == s[1..][i - 1 := x];
    }
  }

  lemma {:induction false} CountNone(n: nat)
    ensures Count(seq(n, _ => Slot(false, false))) == 0
  {
    CountBound(seq(n, _ => Slot(false, false)));
  }

  /** The counters of a page agree with its slots. */
  ghost predicate PageOk(p: Page, numObjects: nat)
    reads p`status, p`numAllocated, p`numFree
  {
    |p.status| == numObjects && p.numAllocated == Count(p.status) && p.numAllocated + p.numFree == numObjects
  }

  // ----- lists of pages -----

  ghost predicate NoDuplicates(ps: seq<Page>) {
    forall i, j | 0 <= i < j < |ps| :: ps[i] != ps[j]
  }

  ghost function At(ps: seq<Page>, i: int): Page? {
    if 0 <= i < |ps| then ps[i] else null
  }

  /** `head` is the head of a doubly linked list of the pages `ps`. */
  ghost predicate IsList(head: Page?, ps: seq<Page>)
    reads ps`prev, ps`next
  {
    && head == At(ps, 0) && NoDuplicates(ps)
    && (forall i {:trigger ps[i].prev} | 0 <= i < |ps| :: ps[i].prev == At(ps, i - 1))
    && (forall i {:trigger ps[i].next} | 0 <= i < |ps| :: ps[i].next == At(ps, i + 1))
  }

  ghost function Without(ps: seq<Page>, k: nat): seq<Page>
    requires k < |ps|
  {
    ps[..k] + ps[k + 1..]
  }

  /** Take a page off a list; the result is the new head. The source computes `next` from the field of
      the previous page, where the field of the page itself is meant. */
  method UnchainPage(list: Page?, page: Page, ghost ps: seq<Page>, ghost k: nat) returns (list': Page?)
    requires IsList(list, ps) && k < |ps| && ps[k] == page
    modifies ps`prev, ps`next
    ensures IsList(list', Without(ps, k)) && page.prev == null && page.next == null
  {
    var prev := page.prev;
    var next := page.next;
    list' := list;
    if prev != null {
      prev.next := next;
    } else {
      list' := next;
    }
    if next != null {
      next.prev := prev;
    }
    page.next := null;
    page.prev := null;
    WithoutAt(ps, k);
  }

  lemma WithoutAt(ps: seq<Page>, k: nat)
    requires k < |ps| && NoDuplicates(ps)
    ensures NoDuplicates(Without(ps, k)) && ps[k] !in Without(ps, k)
    ensures forall i | 0 <= i < k :: Without(ps, k)[i] == ps[i]
    ensures forall i | k < i < |ps| :: Without(ps, k)[i - 1] == ps[i]
  {
  }

  /** Put a page at the head of a list. */
  method ChainPage(list: Page?, page: Page, ghost ps: seq<Page>) returns (list': Page?)
    requires IsList(list, ps) && page !in ps
    modifies ps`prev, page`prev, page`next
    ensures IsList(list', [page] + ps)
  {
    if list != null {
      list.prev := page;
    }
    page.prev := null;
    page.next := list;
    list' := page;
    assert forall i | 0 < i < |ps| + 1 :: ([page] + ps)[i] == ps[i - 1];
  }

  ghost predicate Apart(ps: seq<Page>, qs: seq<Page>) {
    forall p | p in ps :: p !in qs
  }

  /** Take a page off one list and put it at the head of another one. */
  method MovePage(from: Page?, to: Page?, page: Page, ghost ps: seq<Page>, ghost k: nat, ghost qs: seq<Page>)
      returns (from': Page?, to': Page?)
    requires IsList(from, ps) && IsList(to, qs) && Apart(qs, ps) && k < |ps| && ps[k] == page
    modifies ps`prev, ps`next, qs`prev
    ensures IsList(from', Without(ps, k)) && IsList(to', [page] + qs)
  {
    ghost var rest := Without(ps, k);
    ApartWithout(ps, k, qs);
    assert forall i | 0 <= i < |qs| :: qs[i] in qs && qs[i] !in ps;
    assert forall i | 0 <= i < |rest| :: rest[i] in rest && rest[i] !in qs && rest[i] != page;
    from' := UnchainPage(from, page, ps, k);
    to' := ChainPage(to, page, qs);
  }

  lemma ApartWithout(ps: seq<Page>, k: nat, qs: seq<Page>)
    requires Apart(qs, ps) && k < |ps| && NoDuplicates(ps)
    ensures forall p | p in Without(ps, k) :: p !in qs && p != ps[k]
    ensures ps[k] !in qs
  {
    WithoutAt(ps, k);
  }

  // ----- marking and sweeping every page of a list -----

  function UnmarkedStatus(s: seq<Slot>): seq<Slot> {
    seq(|s|, i requires 0 <= i < |s| => if s[i].isAllocated then Slot(true, false) else s[i])
  }

  function SweptStatus(s: seq<Slot>): seq<Slot> {
    seq(|s|, i requires 0 <= i < |s| =>
      if s[i].isAllocated && !s[i].isReachable then Slot(false, s[i].isReachable) else s[i])
  }

  lemma {:induction false} CountSame(s: seq<Slot>, t: seq<Slot>)
    requires |s| == |t| && forall i | 0 <= i < |s| :: s[i].isAllocated == t[i].isAllocated
    ensures Count(s) == Count(t)
  {
    if s != [] {
      CountSame(s[1..], t[1..]);
    }
  }

  method UnmarkPage(page: Page, numObjects: nat)
    requires PageOk(page, numObjects)
    modifies page`status
    ensures PageOk(page, numObjects) && page.status == UnmarkedStatus(old(page.status))
  {
    for i := 0 to numObjects
      invariant |page.status| == numObjects
      invariant forall j | 0 <= j < i :: page.status[j] == UnmarkedStatus(old(page.status))[j]
      invariant forall j | i <= j < numObjects :: page.status[j] == old(page.status)[j]
    {
      if page.status[i].isAllocated {
        page.status := page.status[i := page.status[i].(isReachable := false)];
      }
    }
    CountSame(page.status, old(page.status));
  }

  method SweepPage(page: Page, numObjects: nat)
    requires PageOk(page, numObjects)
    modifies page`status, page`numAllocated, page`numFree
    ensures PageOk(page, numObjects) && page.status == SweptStatus(old(page.status)) && page.numFree >= old(page.numFree)
  {
    for i := 0 to numObjects
      invariant PageOk(page, numObjects) && page.numFree >= old(page.numFree)
      invariant forall j | 0 <= j < i :: page.status[j] == SweptStatus(old(page.status))[j]
      invariant forall j | i <= j < numObjects :: page.status[j] == old(page.status)[j]
    {
      if page.status[i].isAllocated && !page.status[i].isReachable {
        CountUpdate(page.status, i, Slot(false, false));
        CountBound(page.status[i := Slot(false, false)]);
        page.status := page.status[i := page.status[i].(isAllocated := false)];
        page.numAllocated := page.numAllocated - 1;
        page.numFree := page.numFree + 1;
      }
    }
  }

  method UnmarkPages(head: Page?, numObjects: nat, ghost ps: seq<Page>)
    requires IsList(head, ps) && forall p | p in ps :: PageOk(p, numObjects)
    modifies ps`status
    ensures forall p | p in ps :: PageOk(p, numObjects) && p.status == UnmarkedStatus(old(p.status))
  {
    hide UnmarkedStatus, SweptStatus, Count;
    var page := head;
    ghost var k := 0;
    while page != null
      invariant 0 <= k <= |ps| && page == At(ps, k)
      invariant forall j | 0 <= j < |ps| :: PageOk(ps[j], numObjects)
      invariant forall j | 0 <= j < k :: ps[j].status == UnmarkedStatus(old(ps[j].status))
      invariant forall j | k <= j < |ps| :: ps[j].status == old(ps[j].status)
      decreases |ps| - k
    {
      UnmarkPage(page, numObjects);
      page := page.next;
      k := k + 1;
    }
  }

  method SweepPages(head: Page?, numObjects: nat, ghost ps: seq<Page>)
    requires IsList(head, ps) && forall p | p in ps :: PageOk(p, numObjects)
    modifies ps`status, ps`numAllocated, ps`numFree
    ensures forall p | p in ps :: PageOk(p, numObjects) && p.status == SweptStatus(old(p.status))
    ensures forall p | p in ps :: p.numFree >= old(p.numFree)
  {
    hide UnmarkedStatus, SweptStatus, Count;
    var page := head;
    ghost var k := 0;
    while page != null
      invariant 0 <= k <= |ps| && page == At(ps, k)
      invariant forall j | 0 <= j < |ps| :: PageOk(ps[j], numObjects)
      invariant forall j | 0 <= j < k :: ps[j].status == SweptStatus(old(ps[j].status))
      invariant forall j | 0 <= j < |ps| :: ps[j].numFree >= old(ps[j].numFree)
      invariant forall j | k <= j < |ps| :: ps[j].status == old(ps[j].status)
      decreases |ps| - k
    {
      SweepPage(page, numObjects);
      page := page.next;
      k := k + 1;
    }
  }

  /** The same with another list beside it, which does not change. */
  method UnmarkBeside(head: Page?, numObjects: nat, ghost ps: seq<Page>, ghost qs: seq<Page>)
    requires IsList(head, ps) && Apart(qs, ps)
    requires forall p | p in ps :: PageOk(p, numObjects)
    requires forall q | q in qs :: PageOk(q, numObjects)
    modifies ps`status
    ensures forall p | p in ps :: PageOk(p, numObjects) && p.status == UnmarkedStatus(old(p.status))
    ensures forall q | q in qs :: PageOk(q, numObjects) && q.status == old(q.status)
  {
    hide UnmarkedStatus;
    UnmarkPages(head, numObjects, ps);
  }

  method SweepBeside(head: Page?, numObjects: nat, ghost ps: seq<Page>, ghost qs: seq<Page>)
    requires IsList(head, ps) && Apart(qs, ps)
    requires forall p | p in ps :: PageOk(p, numObjects)
    requires forall q | q in qs :: PageOk(q, numObjects)
    modifies ps`status, ps`numAllocated, ps`numFree
    ensures forall p | p in ps :: PageOk(p, numObjects) && p.status == SweptStatus(old(p.status))
    ensures forall p | p in ps :: p.numFree >= old(p.numFree)
    ensures forall q | q in qs :: PageOk(q, numObjects) && q.status == old(q.status) && q.numFree == old(q.numFree)
  {
    hide SweptStatus;
    SweepPages(head, numObjects, ps);
  }
}
