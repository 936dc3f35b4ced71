/**
 Bits of natural numbers: powers of two, the field of n bits at position s,
 and inclusive or.
 */
module Bits {
  import opened Arith

  function Pow2(n: nat): (p: Positive) {
    if n == 0 then 1 else 2 * Pow2(n - 1)
  }

  /** (w >> s) & ((1 << n) - 1). */
  function FieldOf(w: nat, s: nat, n: nat): (f: nat)
    ensures f < Pow2(n)
  {
    w / Pow2(s) % Pow2(n)
  }

  function Bit(w: nat, i: nat): nat {
    FieldOf(w, i, 1)
  }

  /** v << s. */
  function Shl(v: nat, s: nat): nat {
    v * Pow2(s)
  }

  function Or(a: nat, b: nat): nat {
    if a == 0 && b == 0 then 0
    else 2 * Or(a / 2, b / 2) + (if a % 2 == 1 || b % 2 == 1 then 1 else 0)
  }

  // --------------------------------------------------------------------
  // One bit at a time
  // --------------------------------------------------------------------

  lemma DivDouble(w: nat, p: Positive)
    ensures w / (2 * p) == w / 2 / p
  {
    var q, r := w / (2 * p), w % (2 * p);
    assert w == q * (2 * p) + r;
    var h := r / 2;
    assert w / 2 == q * p + h by { assert w == 2 * (q * p + h) + r % 2; }
    QuotientUnique(w / 2, p, q, h);
  }

  lemma ModDouble(w: nat, p: Positive)
    ensures w % (2 * p) == 2 * (w / 2 % p) + w % 2
  {
    DivDouble(w, p);
    var q := w / (2 * p);
    assert w == q * (2 * p) + w % (2 * p);
    assert w / 2 == q * p + w / 2 % p;
    assert q * (2 * p) == 2 * (q * p);
  }

  /** Field positions move down as the word is halved. */
  lemma FieldHalf(w: nat, s: nat, n: nat)
    requires s > 0
    ensures FieldOf(w, s, n) == FieldOf(w / 2, s - 1, n)
  {
    DivDouble(w, Pow2(s - 1));
  }

  lemma FieldLow(w: nat, n: nat)
    requires n > 0
    ensures FieldOf(w, 0, n) == 2 * FieldOf(w / 2, 0, n - 1) + w % 2
  {
    ModDouble(w, Pow2(n - 1));
  }

  // --------------------------------------------------------------------
  // Fields of shifted values, of an inclusive or, of fields
  // --------------------------------------------------------------------

  lemma OrHalf(a: nat, b: nat)
    ensures Or(a, b) / 2 == Or(a / 2, b / 2)
    ensures Or(a, b) % 2 == if a % 2 == 1 || b % 2 == 1 then 1 else 0
  {
  }

  lemma OrDouble(a: nat, b: nat, x: nat, y: nat)
    requires x < 2 && y < 2
    ensures Or(2 * a + x, 2 * b + y) == 2 * Or(a, b) + (if x == 1 || y == 1 then 1 else 0)
  {
    assert (2 * a + x) / 2 == a && (2 * b + y) / 2 == b;
  }

  lemma {:induction false} FieldOfOr(a: nat, b: nat, s: nat, n: nat)
    ensures FieldOf(Or(a, b), s, n) == Or(FieldOf(a, s, n), FieldOf(b, s, n))
    decreases s + n
  {
    hide FieldOf, Pow2, Or;
    OrHalf(a, b);
    if s > 0 {
      FieldHalf(Or(a, b), s, n);
      FieldHalf(a, s, n);
      FieldHalf(b, s, n);
      FieldOfOr(a / 2, b / 2, s - 1, n);
    } else if n > 0 {
      FieldLow(Or(a, b), n);
      FieldLow(a, n);
      FieldLow(b, n);
      FieldOfOr(a / 2, b / 2, 0, n - 1);
      OrDouble(FieldOf(a / 2, 0, n - 1), FieldOf(b / 2, 0, n - 1), a % 2, b % 2);
    } else {
      FieldNothing(Or(a, b), s);
      FieldNothing(a, s);
      FieldNothing(b, s);
      OrZero(0);
    }
  }

  lemma FieldNothing(w: nat, s: nat)
    ensures FieldOf(w, s, 0) == 0
  {
  }

  lemma {:induction false} OrZero(a: nat)
    ensures Or(a, 0) == a && Or(0, a) == a
  {
    if a > 0 {
      OrZero(a / 2);
    }
  }

  lemma {:induction false} OrBound(a: nat, b: nat, n: nat)
    requires a < Pow2(n) && b < Pow2(n)
    ensures Or(a, b) < Pow2(n)
  {
    if n > 0 {
      OrBound(a / 2, b / 2, n - 1);
    }
  }

  lemma ShlStep(p: nat, s: nat)
    ensures Shl(p, 0) == p
    ensures s > 0 ==> Shl(p, s) == 2 * Shl(p, s - 1)
  {
    if s > 0 {
      assert p * (2 * Pow2(s - 1)) == 2 * (p * Pow2(s - 1));
    }
  }

  lemma {:induction false} ShiftedBack(p: nat, s: nat, n: nat)
    requires p < Pow2(n)
    ensures FieldOf(Shl(p, s), s, n) == p
  {
    hide Shl;
    ShlStep(p, s);
    if s > 0 {
      hide FieldOf;
      FieldHalf(Shl(p, s), s, n);
      ShiftedBack(p, s - 1, n);
    } else {
      QuotientUnique(p, Pow2(n), 0, p);
    }
  }

  lemma {:induction false} ShiftedFits(p: nat, s: nat, n: nat, top: nat)
    requires p < Pow2(n) && s + n <= top
    ensures Shl(p, s) < Pow2(top)
  {
    hide Shl;
    ShlStep(p, s);
    if s > 0 {
      ShiftedFits(p, s - 1, n, top - 1);
    } else if n < top {
      ShiftedFits(p, 0, n, top - 1);
    }
  }

  /** A value placed at s leaves every field below and beyond it alone. */
  lemma {:induction false} ShiftedElsewhere(p: nat, s: nat, n: nat, s': nat, n': nat)
    requires p < Pow2(n) && (s' + n' <= s || s + n <= s')
    ensures FieldOf(Shl(p, s), s', n') == 0
    decreases s + s' + n'
  {
    hide Shl, FieldOf, Pow2;
    ShlStep(p, s);
    if s > 0 && s' > 0 {
      FieldHalf(Shl(p, s), s', n');
      ShiftedElsewhere(p, s - 1, n, s' - 1, n');
    } else if s > 0 && n' > 0 {
      FieldLow(Shl(p, s), n');
      ShiftedElsewhere(p, s - 1, n, 0, n' - 1);
    } else if n' == 0 {
      FieldNothing(Shl(p, s), s');
    } else {
      ShiftedFits(p, 0, n, s');
      BeyondField(p, s', n');
    }
  }

  lemma BeyondField(p: nat, s: nat, n: nat)
    requires p < Pow2(s)
    ensures FieldOf(p, s, n) == 0
  {
    hide Pow2;
    QuotientUnique(p, Pow2(s), 0, p);
    QuotientUnique(0, Pow2(n), 0, 0);
  }

  /** A bit of a word is a bit of the field that covers it. */
  lemma {:induction false} BitOfField(w: nat, s: nat, n: nat, i: nat)
    requires s <= i < s + n
    ensures Bit(w, i) == Bit(FieldOf(w, s, n), i - s)
    decreases i + n
  {
    hide FieldOf, Pow2;
    var f := FieldOf(w, s, n);
    if s > 0 {
      FieldHalf(w, i, 1);
      FieldHalf(w, s, n);
      BitOfField(w / 2, s - 1, n, i - 1);
    } else {
      FieldLow(w, n);
      if i > 0 {
        FieldHalf(w, i, 1);
        FieldHalf(f, i, 1);
        BitOfField(w / 2, 0, n - 1, i - 1);
      } else {
        FieldLow(w, 1);
        FieldLow(f, 1);
        FieldNothing(w / 2, 0);
        FieldNothing(f / 2, 0);
      }
    }
  }

  lemma {:induction false} SameBits(a: nat, b: nat, n: nat)
    requires a < Pow2(n) && b < Pow2(n)
    requires forall i: nat :: i < n ==> Bit(a, i) == Bit(b, i)
    ensures a == b
  {
    if n > 0 {
      forall i: nat | i < n - 1 ensures Bit(a / 2, i) == Bit(b / 2, i) {
        FieldHalf(a, i + 1, 1);
        FieldHalf(b, i + 1, 1);
        assert Bit(a, i + 1) == Bit(b, i + 1);
      }
      SameBits(a / 2, b / 2, n - 1);
      assert Bit(a, 0) == Bit(b, 0);
      FieldLow(a, 1);
      FieldLow(b, 1);
    }
  }
}
