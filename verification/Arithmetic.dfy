/** Facts about division that the solver does not find unaided. */
module Arithmetic {

  function Quotient(n: nat, m: nat): nat
    requires m > 0
  {
    n / m
  }

  lemma MulNat(a: nat, b: nat)
    ensures a * b >= 0
  {
  }

  lemma ModBelow(n: nat, m: nat)
    requires m > 0
    ensures n % m <= n && n % m < m
  {
    assert n / m >= 0;
    MulNat(n / m, m);
  }

  lemma MulMonotone(a: nat, b: nat, m: nat)
    requires a <= b
    ensures a * m <= b * m
  {
  }

  lemma MulMonotoneRight(m: nat, a: nat, b: nat)
    requires a <= b
    ensures m * a <= m * b
  {
  }

  lemma DivModUnique(n: nat, m: nat, q: nat, r: nat)
    requires m > 0 && n == q * m + r && r < m
    ensures n / m == q && n % m == r
  {
    var q', r' := n / m, n % m;
    assert n == q' * m + r' && r' < m;
    if q' < q {
      MulMonotone(q' + 1, q, m);
    } else if q' > q {
      MulMonotone(q + 1, q', m);
    }
  }

  lemma AddModulus(n: nat, m: nat)
    requires m > 0
    ensures (n + m) % m == n % m
  {
    var q, r := n / m, n % m;
    assert n + m == (q + 1) * m + r by {
      assert (q + 1) * m == q * m + m;
    }
    DivModUnique(n + m, m, q + 1, r);
  }

  lemma MultipleMod(q: nat, m: nat)
    requires m > 0
    ensures q * m % m == 0
    decreases q
  {
    if q > 0 {
      MultipleMod(q - 1, m);
      assert q * m == (q - 1) * m + m;
      AddModulus((q - 1) * m, m);
    }
  }

  lemma QuotientBound(n: nat, m: nat)
    requires m > 0
    ensures n / m * m <= n < n / m * m + m
  {
  }

  lemma AlignBelow(size: nat, align: nat)
    requires 0 < align && 0 < size && size % align == 0
    ensures align <= size
  {
    if align > size {
      DivModUnique(size, align, 0, size);
    }
  }

  lemma AlignedSum(a: nat, b: nat, m: nat)
    requires m > 0 && a % m == 0 && b % m == 0
    ensures (a + b) % m == 0
  {
    var p, q := a / m, b / m;
    assert a + b == (p + q) * m by {
      assert (p + q) * m == p * m + q * m;
    }
    MultipleMod(p + q, m);
  }

  lemma AlignedMultiple(i: nat, size: nat, m: nat)
    requires m > 0 && size % m == 0
    ensures i * size % m == 0
  {
    var q := size / m;
    assert size == q * m;
    assert i * size == i * q * m;
    MultipleMod(i * q, m);
  }
}
