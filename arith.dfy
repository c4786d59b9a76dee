/** Integer facts shared by the formatters. */
module Arith {

  function Pow(b: nat, e: nat): (r: nat)
    ensures b > 0 ==> r > 0
  {
    if e == 0 then 1 else b * Pow(b, e - 1)
  }

  lemma {:induction false} MulLe(d: nat, x: nat, y: nat)
    requires x <= y
    ensures d * x <= d * y
  {
    assert d * y == d * x + d * (y - x);
  }

  lemma DivMod(a: nat, d: nat, q: nat, r: nat)
    requires d > 0 && q == a / d && r == a % d
    ensures a == d * q + r && r < d
  {
  }

  lemma MulSucc(a: nat, b: nat)
    ensures a * (b + 1) == a * b + a
  {
  }

  lemma QuotientAtLeast(d: nat, q: nat, r: nat, q': nat, r': nat)
    requires d > 0 && d * q + r == d * q' + r' && r' < d
    ensures q <= q'
  {
    if q' + 1 <= q {
      assert d * (q' + 1) == d * q' + d;
      MulLe(d, q' + 1, q);
    }
  }

  /** Euclidean division is determined by its defining equation. */
  lemma DivUnique(a: nat, d: nat, q: nat, r: nat)
    requires d > 0 && a == d * q + r && r < d
    ensures a / d == q && a % d == r
  {
    var q', r' := a / d, a % d;
    assert a == d * q' + r';
    QuotientAtLeast(d, q, r, q', r');
    QuotientAtLeast(d, q', r', q, r);
  }

  /** Dividing twice is dividing by the product. */
  lemma DivDiv(a: nat, b: nat, c: nat)
    requires b > 0 && c > 0
    ensures a / b / c == a / (b * c)
  {
    var q, r := a / b, a % b;
    var q2, r2 := q / c, q % c;
    DivMod(a, b, q, r);
    DivMod(q, c, q2, r2);
    // b * q == (b * c) * q2 + b * r2
    MulAdd(b, c * q2, r2);
    MulAssoc(b, c, q2);
    // b * r2 + r < b * c, because r2 <= c - 1
    MulLe(b, r2, c - 1);
    MulAdd(b, c - 1, 1);
    DivUnique(a, b * c, q2, b * r2 + r);
  }

  lemma MulAdd(x: nat, y: nat, z: nat)
    ensures x * (y + z) == x * y + x * z
  {
  }

  lemma MulAssoc(x: nat, y: nat, z: nat)
    ensures x * (y * z) == (x * y) * z
  {
  }

  /** Multiplying both operands by the same factor leaves the quotient alone. */
  lemma DivCancel(a: nat, b: nat, k: nat)
    requires b > 0 && k > 0
    ensures (a * k) / (b * k) == a / b
  {
    var q, r := a / b, a % b;
    assert a == b * q + r;
    assert a * k == (b * k) * q + r * k by {
      assert (b * q + r) * k == (b * q) * k + r * k;
    }
    MulLe(k, r, b - 1);
    assert k * (b - 1) == k * b - k;
    DivUnique(a * k, b * k, q, r * k);
  }

  /** `a / d` reaches `k` exactly when `a` reaches `d * k`. */
  lemma DivAtLeast(a: nat, d: nat, k: nat)
    requires d > 0
    ensures a / d >= k <==> a >= d * k
  {
    var q, r := a / d, a % d;
    assert a == d * q + r;
    if q >= k {
      MulLe(d, k, q);
    } else {
      assert d * (q + 1) == d * q + d;
      MulLe(d, q + 1, k);
    }
  }

  lemma {:induction false} PowMono(b: nat, i: nat, j: nat)
    requires b >= 1 && i <= j
    ensures Pow(b, i) <= Pow(b, j)
  {
    if i < j {
      PowMono(b, i, j - 1);
      MulLe(Pow(b, j - 1), 1, b);
    }
  }
}
