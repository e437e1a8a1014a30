/** Where the objects of a slab lie. All the quantities are compile-time constants of the allocator. */
module Layout {
  import opened Arithmetic

  const PAGE_FRAME_SIZE: nat := 4096
  const TWO_TO_THE_32: nat := 0x1_0000_0000

  /** The part of the meta-data of a slab that precedes the slots: three pointers, two counters and
      another pointer. A slot takes one byte. */
  const IMPL_SIZE: nat := 40
  const POINTER_ALIGN: nat := 8

  datatype Layout = Layout(numPages: nat, size: nat, align: nat) {

    function SlabSize(): nat {
      PAGE_FRAME_SIZE * numPages
    }

    function EstimatedNumObjects(): nat
      requires size > 0 && SlabSize() >= IMPL_SIZE
    {
      Quotient(SlabSize() - IMPL_SIZE, size)
    }

    function MetaSize(): nat
      requires size > 0 && SlabSize() >= IMPL_SIZE
    {
      RoundUp(IMPL_SIZE + EstimatedNumObjects(), POINTER_ALIGN)
    }

    function BeginOffset(): nat
      requires size > 0 && align > 0 && SlabSize() >= IMPL_SIZE
    {
      RoundUp(MetaSize(), align)
    }

    /** Unsigned arithmetic: the difference wraps around if the offset exceeds the slab. */
    function NumObjects(): nat
      requires size > 0 && align > 0 && SlabSize() >= IMPL_SIZE
    {
      Quotient((SlabSize() - BeginOffset()) % TWO_TO_THE_32, size)
    }

    /** What the compiler guarantees of a type, for a slab whose size is a 32-bit constant. */
    predicate Fits() {
      && 0 < numPages && SlabSize() < TWO_TO_THE_32
      && 0 < align && 0 < size && size % align == 0
      && size < SlabSize()
    }

    /** The static assertions hold as well. */
    predicate Valid() {
      Fits() && 0 < NumObjects() <= EstimatedNumObjects()
    }

    function Address(base: nat, i: nat): nat
      requires Valid()
    {
      base + BeginOffset() + i * size
    }

    /** `ObjectToPage`. */
    function PageOf(address: nat): nat
      requires Valid()
    {
      ModBelow(address, SlabSize());
      address - address % SlabSize()
    }

    /** Pointer subtraction from the first object of the slab. */
    function IndexOf(address: nat): int
      requires Valid()
    {
      (address - (PageOf(address) + BeginOffset())) / size
    }
  }

  function RoundUp(n: nat, align: nat): (r: nat)
    requires align > 0
    ensures n <= r < n + align && r % align == 0
  {
    RoundUpFacts(n, align);
    if n % align == 0 then n else n + (align - n % align)
  }

  lemma RoundUpFacts(n: nat, align: nat)
    requires align > 0
    ensures n % align < align && n % align != 0 ==> (n + (align - n % align)) % align == 0
  {
    var q := n / align;
    assert n == q * align + n % align;
    MultipleMod(q + 1, align);
    assert (q + 1) * align == q * align + align;
  }

  /** Objects begin within the slab, whatever their size and alignment: either there are few of them, or
      they are small, and so is the gap before them. */
  lemma BeginInside(l: Layout)
    requires l.Fits()
    ensures l.BeginOffset() <= l.SlabSize()
  {
    var slab, e := l.SlabSize(), l.EstimatedNumObjects();
    AlignBelow(l.size, l.align);
    QuotientBound(slab - IMPL_SIZE, l.size);
    if l.size == 1 {
      OneByteObjects(l);
    } else if l.align <= 8 {
      Few(e, l.size, 2, slab);
    } else if 4 * l.size <= slab {
      Few(e, l.size, 9, slab);
    } else {
      AtMostThree(e, l.size, slab);
      RoundUpTo48(IMPL_SIZE + e);
      if l.align >= 48 {
        RoundUpOnce(l.MetaSize(), l.align);
      }
    }
  }

  lemma OneByteObjects(l: Layout)
    requires l.Fits() && l.size == 1 && l.align == 1
    ensures l.BeginOffset() == l.SlabSize()
  {
    assert l.SlabSize() == l.numPages * PAGE_FRAME_SIZE;
    DivModUnique(l.SlabSize() - IMPL_SIZE, 1, l.SlabSize() - IMPL_SIZE, 0);
    AlignedMultiple(l.numPages, PAGE_FRAME_SIZE, POINTER_ALIGN);
    AlreadyRound(l.SlabSize(), POINTER_ALIGN);
    AlreadyRound(l.SlabSize(), 1);
    hide Quotient, RoundUp;
  }

  lemma AlreadyRound(n: nat, align: nat)
    requires align > 0 && (align == 1 || n % align == 0)
    ensures RoundUp(n, align) == n
  {
    if align == 1 {
      DivModUnique(n, 1, n, 0);
    }
  }

  lemma Few(e: nat, size: nat, least: nat, slab: nat)
    requires size >= least && e * size + IMPL_SIZE <= slab
    ensures e * least + IMPL_SIZE <= slab
  {
    MulMonotoneRight(e, least, size);
  }

  lemma AtMostThree(e: nat, size: nat, slab: nat)
    requires e * size + IMPL_SIZE <= slab < 4 * size
    ensures e <= 3
  {
    if e >= 4 {
      MulMonotone(4, e, size);
    }
  }

  lemma RoundUpTo48(n: nat)
    requires IMPL_SIZE <= n <= IMPL_SIZE + 3
    ensures 0 < RoundUp(n, POINTER_ALIGN) <= 48
  {
  }

  lemma RoundUpOnce(n: nat, align: nat)
    requires 0 < n <= align
    ensures RoundUp(n, align) == align
  {
    if n < align {
      DivModUnique(n, align, 0, n);
    }
  }

  /** The size of what is left for objects does not wrap around: the objects end within the slab. */
  lemma NoWrap(l: Layout)
    requires l.Fits()
    ensures l.BeginOffset() <= l.SlabSize() && l.NumObjects() == (l.SlabSize() - l.BeginOffset()) / l.size
    ensures l.BeginOffset() + l.NumObjects() * l.size <= l.SlabSize()
  {
    var slab, begin := l.SlabSize(), l.BeginOffset();
    BeginInside(l);
    SmallRemainder(slab - begin);
    QuotientBound(slab - begin, l.size);
  }

  lemma SmallRemainder(n: nat)
    requires n < TWO_TO_THE_32
    ensures n % TWO_TO_THE_32 == n
  {
  }

  /** The last static assertion holds of every type: the estimate is never too small. */
  lemma EstimateSuffices(l: Layout)
    requires l.Fits()
    ensures l.NumObjects() <= l.EstimatedNumObjects()
  {
    NoWrap(l);
    QuotientMonotone(l.SlabSize() - l.BeginOffset(), l.SlabSize() - IMPL_SIZE, l.size);
  }

  lemma QuotientMonotone(n: nat, n': nat, m: nat)
    requires m > 0 && n <= n'
    ensures n / m <= n' / m
  {
    QuotientBound(n, m);
    QuotientBound(n', m);
    if n / m > n' / m {
      MulMonotone(n' / m + 1, n / m, m);
    }
  }

  lemma SlotInside(l: Layout, i: nat)
    requires l.Valid() && i < l.NumObjects()
    ensures l.BeginOffset() + i * l.size + l.size <= l.SlabSize()
  {
    NoWrap(l);
    MulMonotone(i + 1, l.NumObjects(), l.size);
    assert (i + 1) * l.size == i * l.size + l.size;
  }

  lemma SlotAligned(l: Layout, base: nat, i: nat)
    requires l.Valid() && base % l.align == 0
    ensures l.Address(base, i) % l.align == 0
  {
    AlignedMultiple(i, l.size, l.align);
    AlignedSum(base, l.BeginOffset(), l.align);
    AlignedSum(base + l.BeginOffset(), i * l.size, l.align);
  }

  /** Every slot is aligned, lies in the slab behind the meta-data, and its address determines the slab
      and the slot. */
  lemma SlotRoundTrip(l: Layout, base: nat, i: nat)
    requires l.Valid() && base % l.SlabSize() == 0 && base % l.align == 0 && i < l.NumObjects()
    ensures l.Address(base, i) % l.align == 0
    ensures base + l.MetaSize() <= l.Address(base, i) && l.Address(base, i) + l.size <= base + l.SlabSize()
    ensures l.PageOf(l.Address(base, i)) == base && l.IndexOf(l.Address(base, i)) == i
  {
    hide Layout.NumObjects, Layout.Valid, Layout.BeginOffset, Layout.MetaSize;
    BeginAfterMeta(l);
    SlotInside(l, i);
    SlotAligned(l, base, i);
    MulNat(i, l.size);
    AddressDivides(base, l.BeginOffset() + i * l.size, l.SlabSize());
    DivModUnique(i * l.size, l.size, i, 0);
  }

  lemma BeginAfterMeta(l: Layout)
    requires l.Valid()
    ensures l.size > 0 && l.SlabSize() > l.size && l.SlabSize() >= IMPL_SIZE && l.align > 0
    ensures l.MetaSize() <= l.BeginOffset()
  {
  }

  lemma AddressDivides(base: nat, offset: nat, slab: nat)
    requires slab > 0 && base % slab == 0 && offset < slab
    ensures (base + offset) % slab == offset
  {
    DivModUnique(base + offset, slab, base / slab, offset);
  }

  /** No two slots share a byte. */
  lemma SlotsDisjoint(l: Layout, base: nat, i: nat, j: nat)
    requires l.Valid() && i < j
    ensures l.Address(base, i) + l.size <= l.Address(base, j)
  {
    MulMonotone(i + 1, j, l.size);
    assert (i + 1) * l.size == i * l.size + l.size;
  }

  /** A slab is filled, and nothing is wasted: the meta-data has a byte for each of as many objects as would fit
      with no meta-data for slots and no alignment, the objects begin at the first aligned offset behind it, and
      no more of them fit. */
  lemma SlabIsFilled(l: Layout)
    requires l.Fits()
    ensures var slab := 4096 * l.numPages;
      var e, meta, begin, n := l.EstimatedNumObjects(), l.MetaSize(), l.BeginOffset(), l.NumObjects();
      && e * l.size <= slab - 40 < (e + 1) * l.size
      && 40 + e <= meta < 40 + e + 8 && meta % 8 == 0
      && meta <= begin < meta + l.align && begin % l.align == 0
      && begin + n * l.size <= slab < begin + (n + 1) * l.size
  {
    hide RoundUp;
    NoWrap(l);
    QuotientBound(l.SlabSize() - IMPL_SIZE, l.size);
    QuotientBound(l.SlabSize() - l.BeginOffset(), l.size);
  }

  /** The slots follow one another, and every address belongs to the slab that it lies in. */
  lemma AddressesInSlab(l: Layout, base: nat, i: nat, address: nat)
    requires l.Valid()
    ensures l.Address(base, 0) == base + l.BeginOffset() && l.Address(base, i + 1) == l.Address(base, i) + l.size
    ensures var page, slab := l.PageOf(address), 4096 * l.numPages; page <= address < page + slab && page % slab == 0
  {
    assert (i + 1) * l.size == i * l.size + l.size;
    var slab := l.SlabSize();
    ModBelow(address, slab);
    assert address - address % slab == address / slab * slab;
    MultipleMod(address / slab, slab);
  }

  /** For example: a page of 4096 bytes has room for the meta-data and 62 objects of 64 bytes. */
  lemma ExampleLayout()
    ensures var l := Layout(1, 64, 8); l.Valid() && l.BeginOffset() == 104 && l.NumObjects() == 62
  {
    assert Quotient(4056, 64) == 63 && Quotient(3992, 64) == 62;
  }
}
