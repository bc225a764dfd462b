/** Small facts about products and quotients that the other modules use by name. */
module Arithmetic {

  lemma Multiples(e: int, b: int)
    requires 0 <= b
    ensures 1 <= e ==> b <= e * b
    ensures e <= -1 ==> e * b <= -b
  {}

  lemma DivUnique(a: int, b: int, q: int, r: int)
    requires 0 <= r < b && a == q * b + r
    ensures a / b == q && a % b == r
  {
    var e := a / b - q;
    assert e * b == r - a % b;
    Multiples(e, b);
  }

  lemma DivEuclid(a: int, b: int)
    requires 0 < b
    ensures a == a / b * b + a % b && 0 <= a % b < b
    ensures 0 <= a ==> 0 <= a / b
  {}

  lemma Cancel(p: nat, x: int, y: int)
    requires 0 < p
    ensures p * x < p * y <==> x < y
  {
    Multiples(x - y, p);
    Multiples(y - x, p);
    assert (x - y) * p == p * x - p * y && (y - x) * p == p * y - p * x;
  }

  lemma MulAtMost(x: nat, a: nat, b: nat)
    requires a <= b
    ensures x * a <= x * b && a * x <= b * x
  {
    assert x * (b - a) == x * b - x * a;
  }

  lemma Regroup(a: int, b: int, c: int)
    ensures a * (b * c) == b * a * c
  {}
}
