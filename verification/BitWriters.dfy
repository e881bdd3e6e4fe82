/** The encoder's bit buffer: bits enter at the bottom of a 64-bit register and leave it
    as 32-bit words. */
module BitWriters {
  import opened Common
  import opened Powers
  import opened Bits
  import opened Bitstreams

  /** The low bits of `b` are the pending bits. */
  ghost predicate Pending(b: uint64, p: seq<bit>) {
    |p| <= 64 && b as int % Pow2(|p|) == Val(p)
  }

  lemma ModOfMod(x: nat, p: nat, q: nat)
    requires p > 0 && q > 0
    ensures p * q > 0 && x % (p * q) % p == x % p
  {
    var d := PositiveProduct(p, q);
    var y, z := x / d, x % d;
    assert x == y * d + z;
    assert y * d == y * q * p by { Associated(y, p, q); }
    ModShift(y * q, p, z);
  }

  lemma PositiveProduct(p: nat, q: nat) returns (d: nat)
    requires p > 0 && q > 0
    ensures d == p * q > 0
  {
    d := p * q;
  }

  lemma Associated(y: nat, p: nat, q: nat)
    ensures y * (p * q) == y * q * p
  {
  }

  lemma ModShift(a: nat, p: nat, z: nat)
    requires p > 0
    ensures (a * p + z) % p == z % p
  {
    QuotientAdd(z, p, a);
    assert (a + z / p) * p == a * p + z / p * p;
  }

  lemma ModScale(b: nat, p: nat, n: nat, v: nat)
    requires p > 0 && n > 0 && v < n
    ensures p * n > 0 && (b * n + v) % (p * n) == b % p * n + v
  {
    var q, r := b / p, b % p;
    assert b == q * p + r;
    assert b * n + v == q * (p * n) + (r * n + v) by {
      assert (q * p + r) * n == q * p * n + r * n;
      assert q * p * n == q * (p * n);
    }
    assert r * n + v < p * n by {
      assert (r + 1) * n <= p * n;
    }
    QuotientIff(b * n + v, p * n, q);
  }

  lemma PutPending(b: uint64, p: seq<bit>, n: nat, v: nat)
    requires Pending(b, p) && |p| + n <= 64 && v < Pow2(n)
    ensures Pending((b as int * Pow2(n) + v) % TWO64, p + ToBits(v, n))
  {
    hide ToBits, Val;
    PutPowers(|p|, n);
    hide Pow2;
    PutNumbers(b, Pow2(|p|), Pow2(n), Pow2(64 - (|p| + n)), v);
    ValToBits(v, n);
    ValConcat(p, ToBits(v, n));
  }

  lemma PutPowers(k: nat, n: nat)
    requires k + n <= 64
    ensures Pow2(k + n) == Pow2(k) * Pow2(n) && Pow2(k) * Pow2(n) * Pow2(64 - (k + n)) == TWO64
  {
    Pow2Add(k, n);
    Pow2Add(k + n, 64 - (k + n));
    Pow2Constants();
  }

  lemma PutNumbers(b: nat, p: nat, n: nat, rest: nat, v: nat)
    requires p > 0 && n > 0 && rest > 0 && p * n * rest == TWO64 && v < n
    ensures p * n > 0 && (b * n + v) % TWO64 % (p * n) == b % p * n + v
  {
    ModScale(b, p, n, v);
    ModOfMod(b * n + v, p * n, rest);
  }

  lemma WordOut(b: uint64, p: seq<bit>)
    requires Pending(b, p) && |p| >= 32
    ensures b as int / Pow2(|p| - 32) % 0x1_0000_0000 == Val(p[..32])
    ensures Pending(b, p[32..])
  {
    hide Pow2, Val;
    var k := |p| - 32;
    Pow2Constants();
    Pow2Add(32, k);
    assert p == p[..32] + p[32..];
    ValConcat(p[..32], p[32..]);
    var hi, lo, m := Val(p[..32]), Val(p[32..]), Pow2(k);
    TakeTop(b, 0x1_0000_0000, m, hi, lo);
  }

  lemma TakeTop(b: nat, w: nat, m: nat, hi: nat, lo: nat)
    requires w > 0 && m > 0 && hi < w && lo < m && w * m > 0 && b % (w * m) == hi * m + lo
    ensures b / m % w == hi && b % m == lo
  {
    var d := PositiveProduct(w, m);
    var q := b / d;
    assert b == q * d + (hi * m + lo);
    TopParts(q, w, m, d, hi, lo);
    var t := q * w + hi;
    ModShift(q, w, hi);
    SmallMod(hi, w);
    Topmost(t, m, lo);
  }

  lemma SmallMod(x: nat, p: nat)
    requires x < p
    ensures x % p == x
  {
  }

  lemma Topmost(t: nat, m: nat, lo: nat)
    requires lo < m
    ensures (t * m + lo) / m == t && (t * m + lo) % m == lo
  {
    QuotientIff(t * m + lo, m, t);
    ModShift(t, m, lo);
    SmallMod(lo, m);
  }

  lemma TopParts(q: nat, w: nat, m: nat, d: nat, hi: nat, lo: nat)
    requires d == w * m
    ensures q * d + (hi * m + lo) == (q * w + hi) * m + lo
  {
    assert q * (w * m) == q * w * m;
  }

  class BitWriter {
    var b: uint64
    var k: nat
    var out: seq<uint32>
    ghost var pending: seq<bit>

    constructor ()
      ensures Valid() && Written() == [] && k == 0
    {
      b, k, out, pending := 0, 0, [], [];
    }

    ghost predicate Valid()
      reads this
    {
      Pending(b, pending) && k == |pending|
    }

    /** All bits written so far. */
    ghost function Written(): (w: seq<bit>)
      reads this
    {
      WordBits(out) + pending
    }

    method Put(n: nat, v: nat)
      requires Valid() && k + n <= 64 && v < Pow2(n)
      modifies this
      ensures Valid() && Written() == old(Written()) + ToBits(v, n) && k == old(k) + n && out == old(out)
    {
      PutPending(b, pending, n, v);
      hide *;
      b := (b * Pow2(n) + v) % TWO64;
      k := k + n;
      Regrouped(WordBits(out), pending, ToBits(v, n));
      pending := pending + ToBits(v, n);
    }

    method Dump()
      requires Valid() && k >= 32
      modifies this
      ensures Valid() && Written() == old(Written()) && k == old(k) - 32 && |out| == old(|out|) + 1
    {
      WordOut(b, pending);
      k := k - 32;
      var x := b / Pow2(k) % 0x1_0000_0000;
      OutBits(out, x, pending);
      hide *;
      out := out + [x];
      pending := pending[32..];
    }

    method Send(n: nat, v: nat)
      requires Valid() && k + n <= 64 && v < Pow2(n)
      modifies this
      ensures Valid() && Written() == old(Written()) + ToBits(v, n)
      ensures k == if old(k) + n >= 32 then old(k) + n - 32 else old(k) + n
    {
      Put(n, v);
      if k >= 32 { Dump(); }
    }
  }

  lemma OutBits(out: seq<uint32>, x: uint32, p: seq<bit>)
    requires |p| >= 32 && x as int == Val(p[..32])
    ensures WordBits(out + [x]) + p[32..] == WordBits(out) + p
  {
    ToBitsVal(p[..32]);
    WordBitsConcat(out, [x]);
    OneWord(x);
    hide ToBits, WordBits;
    assert p == p[..32] + p[32..];
    Regrouped(WordBits(out), p[..32], p[32..]);
  }

  lemma OneWord(x: uint32)
    ensures WordBits([x]) == ToBits(x, 32)
  {
    hide ToBits;
    assert [x][1..] == [];
    NothingBefore(ToBits(x, 32));
  }
}
