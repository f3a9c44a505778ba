/** Products and quotients, one step at a time. */
module Arithmetic {

  lemma ProductBound(a: int, b: int, c: nat)
    requires a <= b
    ensures a * c <= b * c
  {
  }

  lemma Distribute(a: int, b: int, c: int)
    ensures (a + b) * c == a * c + b * c
  {
  }

  lemma QuotientBound(a: nat, b: nat, d: nat)
    requires d > 0 && a <= b * d
    ensures a / d <= b
  {
    var q := a / d;
    assert q * d <= a;
    Distribute(b, 1, d);
    if q > b {
      ProductBound(b + 1, q, d);
    }
  }

  lemma DivisionUnique(a: nat, d: nat, q: nat, r: nat)
    requires a == q * d + r && r < d
    ensures a / d == q
  {
    QuotientFloor(a, d);
    var k := a / d;
    Distribute(k, 1, d);
    Distribute(q, 1, d);
    if k < q {
      ProductBound(k + 1, q, d);
    } else if k > q {
      ProductBound(q + 1, k, d);
    }
  }

  lemma QuotientFloor(a: nat, d: nat)
    requires d > 0
    ensures (a / d) * d <= a < (a / d) * d + d
  {
    assert a == d * (a / d) + a % d;
  }

  lemma DividesIff(a: nat, d: nat)
    requires d > 0
    ensures (a / d) * d == a <==> a % d == 0
  {
    assert a == d * (a / d) + a % d;
  }
}
