/** Bit strings and the numbers they write, most significant bit first. */
module Bits {
  import opened Powers

  type bit = b: int | 0 <= b < 2

  function Val(b: seq<bit>): (v: nat)
    ensures v < Pow2(|b|)
  {
    if b == [] then 0 else 2 * Val(b[..|b| - 1]) + b[|b| - 1]
  }

  /** The low `n` bits of `v`. */
  function ToBits(v: nat, n: nat): (b: seq<bit>)
    ensures |b| == n
    decreases n
  {
    if n == 0 then [] else ToBits(v / 2, n - 1) + [v % 2]
  }

  lemma {:induction false} ValToBits(v: nat, n: nat)
    requires v < Pow2(n)
    ensures Val(ToBits(v, n)) == v
    decreases n
  {
    if n > 0 { ValToBits(v / 2, n - 1); }
  }

  lemma {:induction false} ToBitsVal(b: seq<bit>)
    ensures ToBits(Val(b), |b|) == b
    decreases |b|
  {
    if b != [] { ToBitsVal(b[..|b| - 1]); }
  }

  lemma {:induction false} ValConcat(a: seq<bit>, b: seq<bit>)
    ensures Val(a + b) == Val(a) * Pow2(|b|) + Val(b)
    decreases |b|
  {
    if b == [] {
      assert a + b == a;
    } else {
      var b' := b[..|b| - 1];
      ValConcat(a, b');
      assert (a + b)[..|a + b| - 1] == a + b';
      Redouble(Val(a), Pow2(|b'|), Val(b'), b[|b| - 1]);
    }
  }

  lemma Redouble(x: nat, p: nat, y: nat, b: nat)
    ensures 2 * (x * p + y) + b == x * (2 * p) + (2 * y + b)
  {
  }

  /** The value of a prefix is a quotient of the whole value. */
  lemma ValPrefix(b: seq<bit>, k: nat)
    requires k <= |b|
    ensures Val(b[..k]) == Val(b) / Pow2(|b| - k)
  {
    ValConcat(b[..k], b[k..]);
    assert b == b[..k] + b[k..];
    QuotientIff(Val(b), Pow2(|b| - k), Val(b[..k]));
  }

  /** Bit strings of equal length are equal when their values are. */
  lemma ValInjective(a: seq<bit>, b: seq<bit>)
    requires |a| == |b| && Val(a) == Val(b)
    ensures a == b
  {
    ToBitsVal(a);
    ToBitsVal(b);
  }

  /** Two bit strings, joined, write the number made of theirs. */
  lemma JoinBits(a: nat, m: nat, b: nat, n: nat, v: nat)
    requires a < Pow2(m) && b < Pow2(n) && v == Times(a, Pow2(n)) + b && v < Pow2(m + n)
    ensures ToBits(v, m + n) == ToBits(a, m) + ToBits(b, n)
  {
    hide ToBits, Val, Pow2;
    ValToBits(a, m);
    ValToBits(b, n);
    ValConcat(ToBits(a, m), ToBits(b, n));
    ValToBits(v, m + n);
    ValInjective(ToBits(v, m + n), ToBits(a, m) + ToBits(b, n));
  }
}
