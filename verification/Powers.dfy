/** Powers of two, and division by them. */
module Powers {

  function Pow2(n: nat): (p: nat)
    ensures p >= 1
  {
    if n == 0 then 1 else 2 * Pow2(n - 1)
  }

  /** The product, under a name that can be hidden from the solver. */
  function Times(a: nat, b: nat): nat {
    a * b
  }

  lemma {:induction false} Pow2Add(a: nat, b: nat)
    ensures Pow2(a + b) == Pow2(a) * Pow2(b)
    decreases a
  {
    if a > 0 {
      Pow2Add(a - 1, b);
      assert 2 * (Pow2(a - 1) * Pow2(b)) == 2 * Pow2(a - 1) * Pow2(b);
    }
  }

  lemma {:induction false} Pow2Monotone(a: nat, b: nat)
    requires a <= b
    ensures Pow2(a) <= Pow2(b)
    ensures a < b ==> 2 * Pow2(a) <= Pow2(b)
    decreases b
  {
    if a < b { Pow2Monotone(a, b - 1); }
  }

  lemma Pow2Constants()
    ensures Pow2(1) == 2 && Pow2(3) == 8 && Pow2(5) == 0x20 && Pow2(6) == 0x40 && Pow2(8) == 0x100
    ensures Pow2(10) == 0x400 && Pow2(16) == 0x1_0000 && Pow2(20) == 0x10_0000
    ensures Pow2(24) == 0x100_0000 && Pow2(32) == 0x1_0000_0000
    ensures Pow2(64) == 0x1_0000_0000_0000_0000
  {
    assert Pow2(1) == 2 && Pow2(2) == 4 && Pow2(3) == 8 && Pow2(4) == 16;
    Pow2Add(1, 4);
    Pow2Add(2, 4);
    Pow2Add(4, 4);
    Pow2Add(2, 8);
    Pow2Add(8, 8);
    Pow2Add(10, 10);
    Pow2Add(16, 8);
    Pow2Add(16, 16);
    Pow2Add(32, 32);
  }

  /** `q` is the quotient of `x` by `d` exactly when `x` lies in the `q`-th stretch. */
  lemma QuotientIff(x: nat, d: nat, q: nat)
    requires d > 0
    ensures x / d == q <==> q * d <= x < q * d + d
  {
    var p := x / d;
    assert 0 <= x - p * d < d;
    if p < q {
      assert (p + 1) * d <= q * d;
    } else if p > q {
      assert (q + 1) * d <= p * d;
    }
  }

  lemma QuotientAdd(x: nat, d: nat, q: nat)
    requires d > 0
    ensures (q * d + x) / d == q + x / d
  {
    QuotientIff(x, d, x / d);
    assert (q + x / d) * d == q * d + x / d * d;
    QuotientIff(q * d + x, d, q + x / d);
  }

  /** Dividing twice is dividing by the product. */
  lemma QuotientTwice(x: nat, d: nat, e: nat)
    requires d > 0 && e > 0
    ensures d * e > 0 && x / d / e == x / (d * e)
  {
    var q := x / d;
    var p := q / e;
    QuotientIff(x, d, q);
    QuotientIff(q, e, p);
    Regroup(p, e, q, d, x);
    QuotientIff(x, d * e, p);
  }

  lemma Regroup(p: nat, e: nat, q: nat, d: nat, x: nat)
    requires q * d <= x < q * d + d && p * e <= q < p * e + e
    ensures p * (d * e) <= x < p * (d * e) + d * e
  {
    assert p * (d * e) == p * e * d;
    MulMonotone(p * e, q, d);
    MulMonotone(q + 1, p * e + e, d);
    assert (q + 1) * d == q * d + d;
    assert (p * e + e) * d == p * e * d + d * e;
  }

  lemma MulMonotone(a: int, b: int, d: nat)
    requires a <= b
    ensures a * d <= b * d
  {
  }

  /** Comparing a multiple of `d` with `x` is comparing it with the quotient. */
  lemma QuotientCompare(x: nat, d: nat, m: nat)
    requires d > 0
    ensures m * d <= x <==> m <= x / d
  {
    QuotientIff(x, d, x / d);
    if m <= x / d {
      assert m * d <= x / d * d;
    } else {
      assert (x / d + 1) * d <= m * d;
    }
  }
}
