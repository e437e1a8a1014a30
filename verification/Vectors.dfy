/** A vector whose elements never move: an index over slabs of memory of doubling size. */
module Vectors {
  import opened Arithmetic
  import opened Layout

  /** The meta-data at the beginning of a slab: two pointers and four 32-bit numbers. */
  const HEADER_SIZE: nat := 32

  function Power2(n: nat): (p: nat)
    ensures p > n
  {
    if n == 0 then 1 else 2 * Power2(n - 1)
  }

  /** The size of the n-th slab. */
  function Bytes(n: nat): (b: nat)
    ensures b >= PAGE_FRAME_SIZE
  {
    Power2(n) * PAGE_FRAME_SIZE
  }

  /** What the source takes for granted: the meta-data, aligned for the objects, fits the smallest slab. */
  predicate Sane(size: nat, align: nat) {
    size > 0 && align > 0 && RoundUp(HEADER_SIZE, align) <= PAGE_FRAME_SIZE
  }

  function Capacity(n: nat, size: nat, align: nat): nat
    requires Sane(size, align)
  {
    Quotient(Bytes(n) - RoundUp(HEADER_SIZE, align), size)
  }

  /** No more objects fit a slab than it is said to hold. */
  lemma CapacityFills(n: nat, size: nat, align: nat)
    requires Sane(size, align)
    ensures var count := Capacity(n, size, align);
      RoundUp(HEADER_SIZE, align) + count * size <= Power2(n) * PAGE_FRAME_SIZE < RoundUp(HEADER_SIZE, align) + (count + 1) * size
  {
    hide RoundUp;
    QuotientBound(Bytes(n) - RoundUp(HEADER_SIZE, align), size);
  }

  /** Powers of two, for any way to compute them. */
  lemma {:induction false} PowersAdd(m: nat, n: nat)
    ensures Power2(m + n) == Power2(m) * Power2(n) && Power2(1) == 2
  {
    if n > 0 {
      PowersAdd(m, n - 1);
      assert Power2(m + n) == 2 * Power2(m + (n - 1));
    }
  }

  class GenericVectorPage {
    var next: GenericVectorPage?
    const minIndex: nat
    const maxIndex: nat
    var maxAssignedIndex: nat
    const base: nat
    const objectPointer: nat

    constructor (minIndex: nat, maxIndex: nat, base: nat, objectPointer: nat)
      ensures next == null && this.minIndex == minIndex && this.maxIndex == maxIndex && maxAssignedIndex == minIndex
      ensures this.base == base && this.objectPointer == objectPointer
    {
      this.next, this.minIndex, this.maxIndex, this.maxAssignedIndex := null, minIndex, maxIndex, minIndex;
      this.base, this.objectPointer := base, objectPointer;
    }
  }

  // ----- slabs, the newest one first -----

  function MaxIndex(pages: seq<GenericVectorPage>): nat {
    if pages == [] then 0 else pages[0].maxIndex
  }

  /** Where the memory of the slabs ends. */
  function Top(pages: seq<GenericVectorPage>): nat {
    if pages == [] then 0 else pages[0].base + Bytes(|pages| - 1)
  }

  /** The slabs cover consecutive ranges of indices and do not share memory. */
  ghost predicate Laid(pages: seq<GenericVectorPage>, size: nat, align: nat)
    requires Sane(size, align)
  {
    pages == [] ||
    var p, older := pages[0], pages[1..];
    && Laid(older, size, align)
    && p.minIndex == MaxIndex(older) && p.maxIndex == p.minIndex + Capacity(|older|, size, align)
    && p.objectPointer == p.base + RoundUp(HEADER_SIZE, align)
    && Top(older) <= p.base && p.base % PAGE_FRAME_SIZE == 0
  }

  /** The address of an element that lies in slab `p`. */
  function SlotAddress(p: GenericVectorPage, size: nat, index: nat): nat
    requires index >= p.minIndex
  {
    p.objectPointer + (index - p.minIndex) * size
  }

  /** The address of an element. */
  ghost function AddressOf(pages: seq<GenericVectorPage>, size: nat, align: nat, index: nat): nat
    requires Sane(size, align) && Laid(pages, size, align) && index < MaxIndex(pages)
  {
    if index >= pages[0].minIndex then SlotAddress(pages[0], size, index)
    else AddressOf(pages[1..], size, align, index)
  }

  /** An element lies in the memory of the slabs. */
  lemma {:induction false} AddressInside(pages: seq<GenericVectorPage>, size: nat, align: nat, index: nat)
    requires Sane(size, align) && Laid(pages, size, align) && index < MaxIndex(pages)
    ensures AddressOf(pages, size, align, index) + size <= Top(pages)
    ensures index >= pages[0].minIndex ==> AddressOf(pages, size, align, index) >= pages[0].base
    decreases |pages|
  {
    hide SlotAddress, Capacity, Bytes, RoundUp;
    var p := pages[0];
    if index >= p.minIndex {
      SlotInside(p, |pages| - 1, size, align, index);
    } else {
      AddressInside(pages[1..], size, align, index);
    }
  }

  lemma SlotInside(p: GenericVectorPage, n: nat, size: nat, align: nat, i: nat)
    requires Sane(size, align) && p.minIndex <= i < p.minIndex + Capacity(n, size, align)
    requires p.objectPointer == p.base + RoundUp(HEADER_SIZE, align)
    ensures p.base <= SlotAddress(p, size, i) && SlotAddress(p, size, i) + size <= p.base + Bytes(n)
  {
    hide Bytes, RoundUp;
    var room := Bytes(n) - RoundUp(HEADER_SIZE, align);
    SlotsFit(room, size, i - p.minIndex);
  }

  lemma SlotsFit(room: nat, size: nat, i: nat)
    requires size > 0 && i < Quotient(room, size)
    ensures i * size >= 0 && i * size + size <= room
  {
    QuotientBound(room, size);
    MulMonotone(i + 1, room / size, size);
  }

  lemma SlotsApart(p: GenericVectorPage, size: nat, i: nat, j: nat)
    requires p.minIndex <= i < j
    ensures SlotAddress(p, size, i) + size <= SlotAddress(p, size, j)
  {
    MulMonotone(i - p.minIndex + 1, j - p.minIndex, size);
  }

  /** Different elements do not overlap. */
  lemma {:induction false} ElementsAreDisjoint(pages: seq<GenericVectorPage>, size: nat, align: nat, i: nat, j: nat)
    requires Sane(size, align) && Laid(pages, size, align) && i < j < MaxIndex(pages)
    ensures AddressOf(pages, size, align, i) + size <= AddressOf(pages, size, align, j)
    decreases |pages|
  {
    hide SlotAddress, Capacity, Bytes, RoundUp;
    var p := pages[0];
    if i >= p.minIndex {
      SlotsApart(p, size, i, j);
    } else if j >= p.minIndex {
      AddressInside(pages[1..], size, align, i);
      AddressInside(pages, size, align, j);
    } else {
      ElementsAreDisjoint(pages[1..], size, align, i, j);
    }
  }

  /** Elements are aligned, if the alignment divides both their size and the page size. */
  lemma {:induction false} ElementsAreAligned(pages: seq<GenericVectorPage>, size: nat, align: nat, i: nat)
    requires Sane(size, align) && Laid(pages, size, align) && i < MaxIndex(pages)
    requires size % align == 0 && PAGE_FRAME_SIZE % align == 0
    ensures AddressOf(pages, size, align, i) % align == 0
    decreases |pages|
  {
    var p := pages[0];
    if i >= p.minIndex {
      AlignedMultiple(p.base / PAGE_FRAME_SIZE, PAGE_FRAME_SIZE, align);
      assert p.base == p.base / PAGE_FRAME_SIZE * PAGE_FRAME_SIZE;
      AlignedMultiple(i - p.minIndex, size, align);
      AlignedSum(p.base, RoundUp(HEADER_SIZE, align), align);
      AlignedSum(p.objectPointer, (i - p.minIndex) * size, align);
    } else {
      ElementsAreAligned(pages[1..], size, align, i);
    }
  }

  // ----- every slab is filled -----

  /** The k-th newest slab: its indices begin where those of the older ones end, its objects behind the aligned
      meta-data, and it has all the objects that its memory has room for. */
  lemma {:induction false} SlabIsFilled(pages: seq<GenericVectorPage>, size: nat, align: nat, k: nat)
    requires Sane(size, align) && Laid(pages, size, align) && k < |pages|
    ensures pages[k].minIndex == (if k + 1 < |pages| then pages[k + 1].maxIndex else 0) <= pages[k].maxIndex
    ensures pages[k].base + 32 <= pages[k].objectPointer < pages[k].base + 32 + align
    ensures (pages[k].objectPointer - pages[k].base) % align == 0
    ensures pages[k].objectPointer + (pages[k].maxIndex - pages[k].minIndex) * size
         <= pages[k].base + Power2(|pages| - 1 - k) * 4096
          < pages[k].objectPointer + (pages[k].maxIndex - pages[k].minIndex + 1) * size
    decreases k
  {
    hide Capacity, RoundUp, Bytes, Power2;
    if k == 0 {
      CapacityFills(|pages| - 1, size, align);
    } else {
      SlabIsFilled(pages[1..], size, align, k - 1);
    }
  }

  /** No element beyond the last one of a slab would fit into it. */
  lemma NoRoom(pages: seq<GenericVectorPage>, size: nat, align: nat, k: nat, index: nat)
    requires Sane(size, align) && Laid(pages, size, align) && k < |pages| && pages[k].maxIndex <= index
    ensures pages[k].minIndex <= index
    ensures pages[k].base + Power2(|pages| - 1 - k) * 4096 < pages[k].objectPointer + (index - pages[k].minIndex + 1) * size
  {
    SlabIsFilled(pages, size, align, k);
    hide Laid, Power2;
    MulMonotone(pages[k].maxIndex - pages[k].minIndex + 1, index - pages[k].minIndex + 1, size);
  }

  /** The new slabs but the newest, and the slab that was the newest before, all end before `index`. */
  ghost predicate Needed(older: seq<GenericVectorPage>, pages: seq<GenericVectorPage>, index: nat) {
    |older| <= |pages| && forall k | 0 < k <= |pages| - |older| && k < |pages| :: pages[k].maxIndex <= index
  }

  lemma NeededNone(pages: seq<GenericVectorPage>, index: nat)
    ensures Needed(pages, pages, index)
  {
  }

  /** The first slab is always made. */
  lemma NeededFirst(first: seq<GenericVectorPage>, pages: seq<GenericVectorPage>, index: nat)
    requires |first| == 1 && Needed(first, pages, index)
    ensures Needed([], pages, index)
  {
  }

  lemma NeededMore(older: seq<GenericVectorPage>, pages: seq<GenericVectorPage>, longer: seq<GenericVectorPage>, index: nat)
    requires Needed(older, pages, index) && MaxIndex(pages) <= index
    requires |longer| == |pages| + 1 && longer[1..] == pages
    ensures Needed(older, longer, index)
  {
    assert forall k | 0 < k < |longer| :: longer[k] == pages[k - 1];
  }

  lemma NeededHasNoRoom(older: seq<GenericVectorPage>, pages: seq<GenericVectorPage>, size: nat, align: nat, index: nat)
    requires Sane(size, align) && Laid(pages, size, align) && Needed(older, pages, index)
    ensures forall k | 0 < k <= |pages| - |older| && k < |pages| ::
              pages[k].base + Power2(|pages| - 1 - k) * 4096
                < pages[k].objectPointer + (index - pages[k].minIndex + 1) * size
  {
    hide Laid, Power2;
    forall k | 0 < k <= |pages| - |older| && k < |pages|
      ensures pages[k].base + Power2(|pages| - 1 - k) * 4096
                < pages[k].objectPointer + (index - pages[k].minIndex + 1) * size
    {
      NoRoom(pages, size, align, k, index);
    }
  }

  // ----- space -----

  /** An object that fits the smallest slab, and whose alignment leaves no gap behind the meta-data. */
  predicate FitsFirst(size: nat, align: nat) {
    Sane(size, align) && size <= PAGE_FRAME_SIZE - HEADER_SIZE && HEADER_SIZE % align == 0
  }

  lemma CapacityDoubles(n: nat, size: nat, align: nat)
    requires FitsFirst(size, align)
    ensures Capacity(n, size, align) >= Power2(n)
  {
    var room := Bytes(n) - HEADER_SIZE;
    RoundNothing(HEADER_SIZE, align);
    RoomFor(Power2(n), size, room);
  }

  lemma RoundNothing(n: nat, align: nat)
    requires align > 0 && n % align == 0
    ensures RoundUp(n, align) == n
  {
  }

  lemma RoomFor(count: nat, size: nat, room: nat)
    requires count > 0 && 0 < size <= PAGE_FRAME_SIZE - HEADER_SIZE && room == count * PAGE_FRAME_SIZE - HEADER_SIZE
    ensures Quotient(room, size) >= count
  {
    MulMonotoneRight(count, size, PAGE_FRAME_SIZE - HEADER_SIZE);
    assert count * size <= room;
    QuotientBound(room, size);
    if room / size < count {
      MulMonotone(room / size + 1, count, size);
    }
  }

  lemma {:induction false} SlabsCover(pages: seq<GenericVectorPage>, size: nat, align: nat)
    requires FitsFirst(size, align) && Laid(pages, size, align)
    ensures MaxIndex(pages) + 1 >= Power2(|pages|)
    decreases |pages|
  {
    if pages != [] {
      SlabsCover(pages[1..], size, align);
      CapacityDoubles(|pages| - 1, size, align);
    }
  }

  // ----- the vector -----

  /** The operating system: pages that it hands out are new and aligned. */
  class Memory {
    var used: nat

    constructor ()
      ensures used == 0
    {
      used := 0;
    }

    method AllocatePages(n: nat) returns (base: nat)
      modifies this
      ensures old(used) <= base && base + n * PAGE_FRAME_SIZE <= used && base % PAGE_FRAME_SIZE == 0
    {
      base := RoundUp(used, PAGE_FRAME_SIZE);
      used := base + n * PAGE_FRAME_SIZE;
    }
  }

  ghost function At(pages: seq<GenericVectorPage>, k: nat): GenericVectorPage? {
    if k < |pages| then pages[k] else null
  }

  ghost predicate Linked(head: GenericVectorPage?, pages: seq<GenericVectorPage>)
    reads pages`next
  {
    head == At(pages, 0) && forall k | 0 <= k < |pages| :: pages[k].next == At(pages, k + 1)
  }

  /** Later slabs do not move the elements of earlier ones. */
  ghost predicate Extends(older: seq<GenericVectorPage>, pages: seq<GenericVectorPage>, size: nat, align: nat)
    requires Sane(size, align)
  {
    && Laid(older, size, align) && Laid(pages, size, align)
    && |older| <= |pages| && pages[|pages| - |older|..] == older && MaxIndex(older) <= MaxIndex(pages)
    && forall i | 0 <= i < MaxIndex(older) :: AddressOf(pages, size, align, i) == AddressOf(older, size, align, i)
  }

  lemma ExtendedOnce(older: seq<GenericVectorPage>, pages: seq<GenericVectorPage>, p: GenericVectorPage, size: nat, align: nat)
    requires Sane(size, align) && Extends(older, pages, size, align) && Laid([p] + pages, size, align)
    ensures Extends(older, [p] + pages, size, align)
  {
    assert ([p] + pages)[1..] == pages;
    assert ([p] + pages)[|pages| + 1 - |older|..] == pages[|pages| - |older|..];
    hide Capacity, Bytes, RoundUp, SlotAddress;
  }

  /** At most one slab was made in vain: all slabs but the newest were needed for an index already asked for. */
  ghost predicate Economical(pages: seq<GenericVectorPage>, requested: nat) {
    |pages| <= 1 || pages[1].maxIndex <= requested
  }

  /** Space: after requests up to `requested` there are at most about log2 slabs. */
  lemma SlabBound(pages: seq<GenericVectorPage>, size: nat, align: nat, requested: nat)
    requires FitsFirst(size, align) && Laid(pages, size, align) && Economical(pages, requested) && pages != []
    ensures Power2(|pages| - 1) <= requested + 1
  {
    SlabsCover(pages[1..], size, align);
  }

  lemma CapacityBelow(n: nat, size: nat, align: nat)
    requires Sane(size, align)
    ensures Capacity(n, size, align) <= Bytes(n)
  {
    var room := Bytes(n) - RoundUp(HEADER_SIZE, align);
    QuotientBound(room, size);
    MulMonotoneRight(room / size, 1, size);
  }

  lemma {:induction false} IndicesBelow(pages: seq<GenericVectorPage>, size: nat, align: nat)
    requires Sane(size, align) && Laid(pages, size, align)
    ensures MaxIndex(pages) <= (Power2(|pages|) - 1) * PAGE_FRAME_SIZE
    decreases |pages|
  {
    if pages != [] {
      IndicesBelow(pages[1..], size, align);
      CapacityBelow(|pages| - 1, size, align);
    }
  }

  /** The source computes with 32-bit numbers. None of them overflows as long as no index beyond 2 to the
      19th is asked for. */
  lemma WordsSuffice(pages: seq<GenericVectorPage>, size: nat, align: nat, requested: nat)
    requires FitsFirst(size, align) && Laid(pages, size, align) && Economical(pages, requested) && pages != []
    requires requested < 0x8_0000
    ensures Bytes(|pages| - 1) <= 0x8000_0000 && MaxIndex(pages) < TWO_TO_THE_32
  {
    SlabBound(pages, size, align, requested);
    IndicesBelow(pages, size, align);
  }

  class GenericVector {
    const objectSize: nat
    const objectAlign: nat
    const memory: Memory
    var scale: nat
    var pages: GenericVectorPage?

    ghost var slabs: seq<GenericVectorPage>
    ghost var requested: nat

    ghost predicate Valid()
      reads this, memory, slabs`next
    {
      && Sane(objectSize, objectAlign)
      && Linked(pages, slabs) && scale == |slabs|
      && Laid(slabs, objectSize, objectAlign) && Top(slabs) <= memory.used
      && Economical(slabs, requested)
    }

    constructor (size: nat, align: nat, memory: Memory)
      requires Sane(size, align)
      ensures Valid() && slabs == [] && objectSize == size && objectAlign == align && this.memory == memory
    {
      objectSize, objectAlign, this.memory := size, align, memory;
      scale, pages, slabs, requested := 0, null, [], 0;
    }

    method AllocateSlab(allocScale: nat, startIndex: nat) returns (page: GenericVectorPage)
      requires Sane(objectSize, objectAlign)
      modifies memory
      ensures fresh(page) && page.next == null && old(memory.used) <= page.base
      ensures page.base + Bytes(allocScale) <= memory.used && page.base % PAGE_FRAME_SIZE == 0
      ensures page.minIndex == startIndex && page.maxIndex == startIndex + Capacity(allocScale, objectSize, objectAlign)
      ensures page.objectPointer == page.base + RoundUp(HEADER_SIZE, objectAlign)
      ensures (page.objectPointer - page.base) % objectAlign == 0
      ensures page.base + 32 <= page.objectPointer < page.base + 32 + objectAlign
      ensures page.objectPointer + (page.maxIndex - page.minIndex) * objectSize
           <= page.base + Power2(allocScale) * 4096
            < page.objectPointer + (page.maxIndex - page.minIndex + 1) * objectSize
    {
      CapacityFills(allocScale, objectSize, objectAlign);
      var numPageFrames := Power2(allocScale);
      var base := memory.AllocatePages(numPageFrames);
      var numBytes := numPageFrames * PAGE_FRAME_SIZE;
      var alignedPageSize := RoundUp(HEADER_SIZE, objectAlign);
      var maxAvailableObjects := Quotient(numBytes - alignedPageSize, objectSize);
      page := new GenericVectorPage(startIndex, startIndex + maxAvailableObjects, base, base + alignedPageSize);
    }

    /** A new slab at the head of the list, where the indices of the others end. */
    method AddSlab(startIndex: nat)
      requires Valid() && startIndex == MaxIndex(slabs) && (slabs == [] || startIndex <= requested)
      modifies this, memory
      ensures Valid() && requested == old(requested) && |slabs| == old(|slabs|) + 1 && slabs[1..] == old(slabs)
      ensures MaxIndex(slabs) == startIndex + Capacity(old(|slabs|), objectSize, objectAlign)
      ensures fresh(slabs[0])
    {
      hide Bytes, Capacity, RoundUp;
      var page := AllocateSlab(scale, startIndex);
      scale := scale + 1;
      page.next := pages;
      pages := page;
      slabs := [page] + slabs;
      assert slabs[1..] == old(slabs);
    }

    /** The same, seen from a time when the slabs were `before`. */
    method AddAfter(ghost before: seq<GenericVectorPage>, startIndex: nat)
      requires Valid() && startIndex == MaxIndex(slabs) && (slabs == [] || startIndex <= requested)
      requires Extends(before, slabs, objectSize, objectAlign)
      modifies this, memory
      ensures Valid() && requested == old(requested) && pages != null
      ensures |slabs| == old(|slabs|) + 1 && slabs[1..] == old(slabs) && fresh(slabs[0])
      ensures MaxIndex(slabs) == startIndex + Capacity(old(|slabs|), objectSize, objectAlign)
      ensures Extends(before, slabs, objectSize, objectAlign)
    {
      hide Laid, Economical, Bytes, Capacity, RoundUp, Extends;
      AddSlab(startIndex);
      assert slabs == [slabs[0]] + old(slabs);
      ExtendedOnce(before, old(slabs), slabs[0], objectSize, objectAlign);
    }

    /** Find an element, and make slabs until there is one for it. Elements that could be found before are
        still where they were. */
    method Get(index: nat) returns (address: nat, ghost k: nat)
      requires Valid()
      modifies this, memory, slabs`maxAssignedIndex
      ensures Valid() && requested == if index > old(requested) then index else old(requested)
      ensures forall i | 0 <= i < |slabs| - |old(slabs)| :: fresh(slabs[i])
      ensures Extends(old(slabs), slabs, objectSize, objectAlign)
      ensures index < MaxIndex(slabs) && address == AddressOf(slabs, objectSize, objectAlign, index)
      ensures index < MaxIndex(old(slabs)) ==> slabs == old(slabs)
      ensures k < |slabs| && slabs[k].minIndex <= index < slabs[k].maxIndex
      ensures address == slabs[k].objectPointer + (index - slabs[k].minIndex) * objectSize
      ensures forall i | 0 < i <= |slabs| - |old(slabs)| && i < |slabs| ::
                slabs[i].base + Power2(|slabs| - 1 - i) * 4096
                  < slabs[i].objectPointer + (index - slabs[i].minIndex + 1) * objectSize
    {
      hide Laid, Economical, AddressOf, Bytes, Capacity, RoundUp, Searching, Extends, Linked, Needed, Power2;
      requested := if index > requested then index else requested;
      AskedForMore(slabs, old(requested), requested);
      var page;
      page, k := Locate(index);
      NeededHasNoRoom(old(slabs), slabs, objectSize, objectAlign, index);
      Found(slabs, k, objectSize, objectAlign, index);
      OldSlab(old(slabs), slabs, objectSize, objectAlign, k);
      address := Touch(page, index);
    }

    method Locate(index: nat) returns (page: GenericVectorPage, ghost k: nat)
      requires Valid() && index <= requested
      modifies this, memory
      ensures Valid() && requested == old(requested)
      ensures forall i | 0 <= i < |slabs| - |old(slabs)| :: fresh(slabs[i])
      ensures Extends(old(slabs), slabs, objectSize, objectAlign)
      ensures index < MaxIndex(old(slabs)) ==> slabs == old(slabs)
      ensures Needed(old(slabs), slabs, index)
      ensures k < |slabs| && page == slabs[k] && Searching(slabs, k, objectSize, objectAlign, index)
      ensures page.minIndex <= index < page.maxIndex
    {
      hide Laid, Economical, AddressOf, Bytes, Capacity, RoundUp, Searching, Extends, Linked, Needed;
      HasSlab();
      if pages == null {
        AddFirst();
        ghost var first := slabs;
        page, k := Cover(index);
        OldSlab(first, slabs, objectSize, objectAlign, |slabs| - 1);
        ExtendsNothing(slabs, objectSize, objectAlign);
        NeededFirst(first, slabs, index);
      } else {
        page, k := Cover(index);
      }
    }

    method AddFirst()
      requires Valid() && pages == null
      modifies this, memory
      ensures Valid() && requested == old(requested) && pages != null
      ensures |slabs| == 1 && old(slabs) == [] && fresh(slabs[0])
    {
      AddSlab(0);
    }

    /** Make slabs until one of them has the index. */
    method Cover(index: nat) returns (page: GenericVectorPage, ghost k: nat)
      requires Valid() && pages != null && index <= requested
      modifies this, memory
      ensures Valid() && requested == old(requested)
      ensures forall i | 0 <= i < |slabs| - |old(slabs)| :: fresh(slabs[i])
      ensures Extends(old(slabs), slabs, objectSize, objectAlign)
      ensures index < MaxIndex(old(slabs)) ==> slabs == old(slabs)
      ensures Needed(old(slabs), slabs, index)
      ensures k < |slabs| && page == slabs[k] && Searching(slabs, k, objectSize, objectAlign, index)
      ensures page.minIndex <= index < page.maxIndex
    {
      hide Laid, Economical, AddressOf, Bytes, Capacity, RoundUp, Searching, Extends, Lack, Shortage, Linked, Needed;
      HasSlab();
      ExtendsItself(slabs, objectSize, objectAlign);
      NeededNone(slabs, index);
      while true
        invariant Valid() && pages != null && requested == old(requested)
        invariant forall i | 0 <= i < |slabs| - |old(slabs)| :: fresh(slabs[i])
        invariant Extends(old(slabs), slabs, objectSize, objectAlign)
        invariant index < MaxIndex(old(slabs)) ==> slabs == old(slabs)
        invariant Needed(old(slabs), slabs, index)
        decreases Shortage(slabs, index), Lack(|slabs|, objectSize, objectAlign)
      {
        page, k := Search(index);
        if index < page.maxIndex {
          return;
        }
        NotCovered(slabs, k, objectSize, objectAlign, index);
        ghost var before := slabs;
        AddAfter(old(slabs), page.maxIndex);
        NewAtHead(before);
        NeededMore(old(slabs), before, slabs, index);
        Progress(before, slabs, objectSize, objectAlign, index);
      }
    }

    lemma HasSlab()
      requires Valid()
      ensures slabs == [] <==> pages == null
    {
    }

    lemma NewAtHead(before: seq<GenericVectorPage>)
      requires |slabs| == |before| + 1 && slabs[1..] == before
      ensures forall i | 0 < i < |slabs| :: slabs[i] == before[i - 1]
    {
    }

    /** The walk over the slabs: past those that begin after `index`. */
    method Search(index: nat) returns (page: GenericVectorPage, ghost k: nat)
      requires Valid() && pages != null
      ensures k < |slabs| && page == slabs[k] && Searching(slabs, k, objectSize, objectAlign, index)
      ensures index >= page.minIndex
    {
      hide Laid, Economical, AddressOf, Bytes, Capacity, RoundUp, Searching;
      page, k := pages, 0;
      SearchBegins(slabs, objectSize, objectAlign, index);
      while index < page.maxIndex && index < page.minIndex
        invariant k < |slabs| && page == slabs[k] && Searching(slabs, k, objectSize, objectAlign, index)
        decreases |slabs| - k
      {
        SearchOlder(slabs, k, objectSize, objectAlign, index);
        page := page.next;
        k := k + 1;
      }
      SlabNotInverted(slabs, k, objectSize, objectAlign, index);
    }

    /** The address of an element in a slab that has it. */
    method Touch(page: GenericVectorPage, index: nat) returns (address: nat)
      requires page.minIndex <= index
      modifies page`maxAssignedIndex
      ensures address == page.objectPointer + (index - page.minIndex) * objectSize
      ensures page.maxAssignedIndex == if index > old(page.maxAssignedIndex) then index else old(page.maxAssignedIndex)
    {
      var relativeIndex := index - page.minIndex;
      if index > page.maxAssignedIndex {
        page.maxAssignedIndex := index;
      }
      return page.objectPointer + relativeIndex * objectSize;
    }
  }

  /** The search for an index got to the k-th slab. */
  ghost predicate Searching(pages: seq<GenericVectorPage>, k: nat, size: nat, align: nat, index: nat)
    requires Sane(size, align)
  {
    && k < |pages| && Laid(pages, size, align) && Laid(pages[k..], size, align)
    && (index < MaxIndex(pages[k..]) <==> index < MaxIndex(pages))
    && (k > 0 ==> index < MaxIndex(pages[k..]))
    && (index < MaxIndex(pages) ==> AddressOf(pages, size, align, index) == AddressOf(pages[k..], size, align, index))
  }

  lemma SearchBegins(pages: seq<GenericVectorPage>, size: nat, align: nat, index: nat)
    requires Sane(size, align) && Laid(pages, size, align) && pages != []
    ensures Searching(pages, 0, size, align, index)
  {
    assert pages[0..] == pages;
  }

  lemma SearchOlder(pages: seq<GenericVectorPage>, k: nat, size: nat, align: nat, index: nat)
    requires Sane(size, align) && Searching(pages, k, size, align, index) && index < pages[k].minIndex
    requires index < pages[k].maxIndex
    ensures k + 1 < |pages| && Searching(pages, k + 1, size, align, index)
  {
    hide Capacity, Bytes, RoundUp, SlotAddress;
    assert pages[k..][1..] == pages[k + 1..];
  }

  lemma Found(pages: seq<GenericVectorPage>, k: nat, size: nat, align: nat, index: nat)
    requires Sane(size, align) && Searching(pages, k, size, align, index)
    requires pages[k].minIndex <= index < pages[k].maxIndex
    ensures index < MaxIndex(pages)
    ensures AddressOf(pages, size, align, index) == pages[k].objectPointer + (index - pages[k].minIndex) * size
  {
    hide Capacity, Bytes, RoundUp;
  }

  /** Only the newest slab can be found to end too early. */
  lemma NotCovered(pages: seq<GenericVectorPage>, k: nat, size: nat, align: nat, index: nat)
    requires Sane(size, align) && Searching(pages, k, size, align, index) && index >= pages[k].maxIndex
    ensures k == 0 && index >= MaxIndex(pages)
  {
  }

  lemma AskedForMore(pages: seq<GenericVectorPage>, requested: nat, requested': nat)
    requires Economical(pages, requested) && requested <= requested'
    ensures Economical(pages, requested')
  {
  }

  lemma ExtendsItself(pages: seq<GenericVectorPage>, size: nat, align: nat)
    requires Sane(size, align) && Laid(pages, size, align)
    ensures Extends(pages, pages, size, align)
  {
    assert pages[0..] == pages;
  }

  lemma SlabNotInverted(pages: seq<GenericVectorPage>, k: nat, size: nat, align: nat, index: nat)
    requires Sane(size, align) && Searching(pages, k, size, align, index)
    ensures pages[k].minIndex <= pages[k].maxIndex
  {
  }

  lemma OldSlab(older: seq<GenericVectorPage>, pages: seq<GenericVectorPage>, size: nat, align: nat, k: nat)
    requires Sane(size, align) && Extends(older, pages, size, align) && k < |pages|
    ensures |older| <= |pages| && (k >= |pages| - |older| ==> pages[k] in older)
  {
    if k >= |pages| - |older| {
      assert pages[k] == pages[|pages| - |older|..][k - (|pages| - |older|)];
    }
  }

  lemma ExtendsNothing(pages: seq<GenericVectorPage>, size: nat, align: nat)
    requires Sane(size, align) && Laid(pages, size, align)
    ensures Extends([], pages, size, align)
  {
    assert pages[|pages|..] == [];
  }

  /** A new slab covers more indices, or else the next one will come closer to holding an object. */
  lemma Progress(pages: seq<GenericVectorPage>, longer: seq<GenericVectorPage>, size: nat, align: nat, index: nat)
    requires Sane(size, align) && index >= MaxIndex(pages)
    requires |longer| == |pages| + 1 && MaxIndex(longer) == MaxIndex(pages) + Capacity(|pages|, size, align)
    ensures Shortage(longer, index) <= Shortage(pages, index)
    ensures Shortage(longer, index) < Shortage(pages, index) || Lack(|longer|, size, align) < Lack(|pages|, size, align)
  {
    var n := |pages|;
    assert Bytes(n + 1) > Bytes(n);
    if Capacity(n, size, align) == 0 {
      QuotientBound(Bytes(n) - RoundUp(HEADER_SIZE, align), size);
    }
  }

  /** How many indices are missing. */
  ghost function Shortage(pages: seq<GenericVectorPage>, index: nat): nat {
    if index < MaxIndex(pages) then 0 else index + 1 - MaxIndex(pages)
  }

  /** How much the next slab lacks to hold a single object. */
  ghost function Lack(n: nat, size: nat, align: nat): nat
    requires Sane(size, align)
  {
    var need := size + RoundUp(HEADER_SIZE, align);
    if Bytes(n) >= need then 0 else need - Bytes(n)
  }
}
