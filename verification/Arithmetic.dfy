/** Non-linear integer facts used by more than one layer. */
module Arithmetic {
  lemma ScaleIsMonotone(a: int, b: int, scale: int)
    ensures scale >= 0 && a <= b ==> a * scale <= b * scale
  {
    if scale >= 0 && a <= b {
      assert (b - a) * scale >= 0;
    }
  }

  /** A quotient and remainder are determined by the division identity. */
  lemma QuotientIs(x: int, d: int, q: int, r: int)
    requires d >= 1 && x == q * d + r && 0 <= r < d
    ensures x / d == q && x % d == r
  {
    var q', r' := x / d, x % d;
    assert (q - q') * d == r' - r;
    ScaleIsMonotone(1, q - q', d);
    ScaleIsMonotone(q - q', -1, d);
  }

  /** Floor division of naturals. */
  function Quotient(x: nat, d: nat): nat
    requires d >= 1
  {
    x / d
  }

  lemma QuotientBounds(x: nat, d: nat)
    requires d >= 1
    ensures Quotient(x, d) * d <= x < Quotient(x, d) * d + d
  {
  }

  function Product(a: nat, b: nat): (p: nat)
    ensures p == a * b
  {
    ScaleIsMonotone(0, a, b);
    a * b
  }

  predicate IsMultiple(x: int, quantum: int)
    requires quantum >= 1
  {
    x % quantum == 0
  }

  lemma MultipleOf(k: int, quantum: int)
    requires quantum >= 1
    ensures IsMultiple(k * quantum, quantum)
  {
    QuotientIs(k * quantum, quantum, k, 0);
  }

  lemma MultiplesCombine(x: int, y: int, quantum: int)
    requires quantum >= 1 && IsMultiple(x, quantum) && IsMultiple(y, quantum)
    ensures IsMultiple(x + y, quantum) && IsMultiple(x - y, quantum)
  {
    var a, b := x / quantum, y / quantum;
    assert x == a * quantum && y == b * quantum;
    assert x + y == (a + b) * quantum && x - y == (a - b) * quantum;
    MultipleOf(a + b, quantum);
    MultipleOf(a - b, quantum);
  }
}
