/** Integer products and floor division. */
module Arithmetic {

  function Max(a: int, b: int): int { if a < b then b else a }

  function Min(a: int, b: int): int { if a < b then a else b }

  lemma Multiply(x: int, y: int, c: int)
    ensures x <= y && 0 <= c ==> x * c <= y * c
  {
  }

  lemma Cancel(x: int, y: int, p: int)
    requires p > 0 && x * p < y * p
    ensures x < y
  {
    Multiply(y, x, p);
  }

  lemma Quotient(x: int, p: int, q: int)
    requires p > 0 && q * p <= x < (q + 1) * p
    ensures x / p == q
  {
    var r := x / p;
    assert r * p <= x < (r + 1) * p;
    Cancel(r, q + 1, p);
    Cancel(q, r + 1, p);
  }

  lemma QuotientSign(x: int, p: int)
    requires p > 0 && x >= 0
    ensures x / p >= 0
  {
    var q := x / p;
    assert x < (q + 1) * p;
    Cancel(0, q + 1, p);
  }

  lemma QuotientMonotone(x: int, y: int, p: int)
    requires p > 0 && x <= y
    ensures x / p <= y / p
  {
    var q, r := x / p, y / p;
    assert q * p <= x && y < (r + 1) * p;
    Cancel(q, r + 1, p);
  }

  /** Multiples of p on either side of x / p. */
  lemma MultiplesAround(x: int, p: int, f: int)
    requires p > 0
    ensures x / p <= f ==> f * p > x - p
    ensures f < x / p ==> f * p <= x - p
    ensures f <= x / p ==> f * p <= x
  {
    var q := x / p;
    assert q * p <= x < q * p + p;
    Multiply(q, f, p);
    Multiply(f, q, p);
    Multiply(f + 1, q, p);
    assert (f + 1) * p == f * p + p;
  }

  // ----- multiples

  lemma MultiplesAdd(x: int, y: int, p: int)
    requires p > 0
    ensures x % p == 0 && y % p == 0 ==> (x + y) % p == 0
    ensures p % p == 0 && 0 % p == 0
  {
    if x % p == 0 && y % p == 0 {
      var a, b := x / p, y / p;
      assert x + y == (a + b) * p;
      MultipleHasNoRest(a + b, p);
    }
    MultipleHasNoRest(1, p);
    MultipleHasNoRest(0, p);
  }

  lemma MultipleHasNoRest(a: int, p: int)
    requires p > 0
    ensures (a * p) % p == 0
  {
    var x := a * p;
    Quotient(x, p, a);
    assert x == x / p * p + x % p;
  }

  /** The least multiple of p past x. */
  function NextMultiple(x: nat, p: int): nat
    requires p > 0
  {
    QuotientSign(x, p);
    ProductSign(x / p + 1, p);
    (x / p + 1) * p
  }

  lemma ProductSign(x: int, y: int)
    requires x >= 0 && y >= 0
    ensures x * y >= 0
  {
  }

  lemma NextMultipleIs(x: nat, p: int)
    requires p > 0
    ensures x / p >= 0 && NextMultiple(x, p) == x / p * p + p
    ensures x / p * p <= x < NextMultiple(x, p)
  {
    QuotientSign(x, p);
  }

  lemma MultiplePast(x: nat, y: nat, p: int)
    requires p > 0 && y % p == 0 && y > x
    ensures y >= NextMultiple(x, p)
  {
    var b, a := y / p, x / p;
    assert y == b * p;
    assert a * p <= x;
    Cancel(a, b, p);
    Multiply(a + 1, b, p);
  }

  lemma MultipleAtLeast(y: nat, p: int)
    requires p > 0 && y % p == 0 && y > 0
    ensures y >= p
  {
  }
}
