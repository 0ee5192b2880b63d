/** Facts about products and division that many proofs need. */
module Arithmetic {

  type Positive = x: int | 0 < x witness 1

  function Min(a: nat, b: nat): nat { if a < b then a else b }

  lemma AtLeastOnce(e: int, d: nat)
    ensures e >= 1 ==> e * d >= d
    ensures e <= -1 ==> e * d <= 0 - d
  {
    if e >= 1 {
      assert (e - 1) * d >= 0;
    }
    if e <= -1 {
      assert (0 - e - 1) * d >= 0;
    }
  }

  /** Quotient and remainder are unique. */
  lemma ModUnique(n: int, d: nat, q: int, r: nat)
    requires d > 0 && n == q * d + r && r < d
    ensures n / d == q && n % d == r
  {
    var e := n / d - q;
    assert n == (n / d) * d + n % d;
    assert e * d == r - n % d;
    AtLeastOnce(e, d);
  }

  lemma DivMod(a: int, d: Positive)
    ensures a == (a / d) * d + a % d && 0 <= a % d < d
  {
  }

  lemma MulLe(a: int, b: int, c: nat)
    requires a <= b
    ensures a * c <= b * c
  {
    assert (b - a) * c >= 0;
  }

  lemma MulCancel(a: int, b: int, c: Positive)
    requires a * c < b * c
    ensures a < b
  {
    if b <= a {
      MulLe(b, a, c);
    }
  }

  lemma MulCancelLe(a: int, b: int, c: Positive)
    requires a * c <= b * c
    ensures a <= b
  {
    if b + 1 <= a {
      MulLe(b + 1, a, c);
    }
  }

  lemma OneMore(k: int, c: int)
    ensures (k + 1) * c == k * c + c
  {
  }

  lemma Distribute(a: int, b: int, c: int)
    ensures (a + b) * c == a * c + b * c
    ensures (a - b) * c == a * c - b * c
  {
  }

  lemma Regroup(a: int, b: int, c: int)
    ensures (a * b) * c == a * (b * c) == a * (c * b)
  {
  }

  function Product(a: Positive, b: Positive): (r: Positive)
    ensures r == a * b
  {
    assert a * b > 0;
    a * b
  }

  function CeilDiv(a: int, b: Positive): int { (a + b - 1) / b }

  /** CeilDiv(a, b) is the least k with a <= k * b. */
  lemma CeilDivBounds(a: int, b: Positive)
    ensures (CeilDiv(a, b) - 1) * b < a <= CeilDiv(a, b) * b
  {
    var k := (a + b - 1) / b;
    assert a + b - 1 == k * b + (a + b - 1) % b;
    assert (k - 1) * b == k * b - b;
  }

  lemma CeilDivExact(k: int, b: Positive)
    ensures CeilDiv(k * b, b) == k
  {
    ModUnique(k * b + b - 1, b, k, b - 1);
  }
}
