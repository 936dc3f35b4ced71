/** Whole multiples of a block size. */
module Arith {
  type Positive = n: nat | n > 0 witness 1

  function Min(a: int, b: int): int {
    if a < b then a else b
  }

  lemma AtLeastOnce(d: int, size: Positive)
    ensures d >= 1 ==> d * size >= size
    ensures (-d) * size == -(d * size)
  {
    if d >= 1 {
      assert d * size == (d - 1) * size + size;
    }
  }

  /** Quotient and remainder are the only way to divide. */
  lemma QuotientUnique(x: int, p: Positive, q: int, r: int)
    requires x == q * p + r && 0 <= r < p
    ensures x / p == q && x % p == r
  {
    var q', r' := x / p, x % p;
    assert x == q' * p + r';
    assert (q - q') * p == r' - r;
    AtLeastOnce(q - q', p);
    AtLeastOnce(q' - q, p);
  }

  /** A multiple divides evenly, with the factor as quotient. */
  lemma MultipleDivides(q: nat, size: Positive)
    ensures (q * size) / size == q && (q * size) % size == 0
  {
    var x := q * size;
    var d, r := x / size, x % size;
    assert x == d * size + r;
    assert (q - d) * size == q * size - d * size == r;
    AtLeastOnce(q - d, size);
    AtLeastOnce(d - q, size);
  }

  lemma SumOfMultiples(a: nat, b: nat, size: Positive)
    requires a % size == 0 && b % size == 0
    ensures (a + b) % size == 0
  {
    var p, q := a / size, b / size;
    assert a + b == (p + q) * size by {
      assert a == p * size && b == q * size;
    }
    MultipleDivides(p + q, size);
  }

  lemma DifferenceOfMultiples(a: nat, b: nat, size: Positive)
    requires a % size == 0 && (a + b) % size == 0
    ensures b % size == 0
  {
    var p, q := a / size, (a + b) / size;
    assert b == (q - p) * size by {
      assert a == p * size && a + b == q * size;
    }
    AtLeastOnce(p - q, size);
    MultipleDivides(q - p, size);
  }

  lemma Below(k: nat, count: nat, size: Positive, r: nat)
    requires k * size + r < count * size
    ensures k < count
  {
    AtLeastOnce(k - count, size);
    assert (k - count) * size == k * size - count * size;
  }
}
