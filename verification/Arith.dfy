/** Small numbers, and division with remainder for proofs about ticks, pages, digits and indices. */
module Arith {

  const TWO_32: nat := 0x1_0000_0000

  function Min(a: nat, b: nat): nat {
    if a < b then a else b
  }

  lemma MulStep(m: int, x: int, y: int)
    requires m >= 0 && x < y
    ensures m * x + m <= m * y
  {
    var d := y - x - 1;
    assert m * y == m * x + m + m * d;
    assert m * d >= 0;
  }

  /** Quotient and remainder are determined by a = m * q + r with 0 <= r < m. */
  lemma DivModUnique(a: int, m: int, q: int, r: int)
    requires m > 0 && a == m * q + r && 0 <= r < m
    ensures a / m == q && a % m == r
  {
    var q', r' := a / m, a % m;
    assert m * q' + r' == a;
    if q' < q {
      MulStep(m, q', q);
    } else if q < q' {
      MulStep(m, q, q');
    }
  }

  lemma ModStep(a: int, m: int)
    requires m > 0
    ensures (a + 1) % m == if a % m + 1 == m then 0 else a % m + 1
    ensures (a + 1) / m == if a % m + 1 == m then a / m + 1 else a / m
  {
    var q, r := a / m, a % m;
    if r + 1 == m {
      assert a + 1 == m * (q + 1);
      DivModUnique(a + 1, m, q + 1, 0);
    } else {
      DivModUnique(a + 1, m, q, r + 1);
    }
  }

  lemma DivPositive(a: int, m: int)
    requires 0 < m <= a
    ensures a / m >= 1
  {
    var q, r := a / m, a % m;
    assert a == m * q + r;
    if q < 1 {
      MulStep(m, q, 1);
    }
  }
}
