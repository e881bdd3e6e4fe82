/** The decoder's bit buffer: up to 63 bits at the top of a 64-bit word, and the 32-bit
    words that follow. */
module Bitstreams {
  import opened Common
  import opened Powers
  import opened Bits

  const TWO64 := 0x1_0000_0000_0000_0000

  /** The bits of a sequence of words. */
  function WordBits(words: seq<uint32>): seq<bit> {
    if words == [] then [] else ToBits(words[0], 32) + WordBits(words[1..])
  }

  lemma {:induction false} WordBitsLength(words: seq<uint32>)
    ensures |WordBits(words)| == 32 * |words|
  {
    if words != [] { WordBitsLength(words[1..]); }
  }

  lemma {:induction false} WordBitsConcat(a: seq<uint32>, b: seq<uint32>)
    ensures WordBits(a + b) == WordBits(a) + WordBits(b)
  {
    hide ToBits;
    if a == [] {
      NothingBefore(b);
      NothingBefore(WordBits(b));
    } else {
      WordBitsConcat(a[1..], b);
      assert (a + b)[1..] == a[1..] + b;
      Regrouped(ToBits(a[0], 32), WordBits(a[1..]), WordBits(b));
    }
  }

  /** `v` holds `b` at its top, and nothing else. */
  ghost predicate Buffered(v: uint64, b: seq<bit>) {
    |b| < 64 && v as int == Times(Val(b), Pow2(64 - |b|))
  }

  /** Appending a word to fewer than 32 bits. */
  lemma BufferAppend(v: uint64, b: seq<bit>, x: uint32)
    requires Buffered(v, b) && |b| < 32
    ensures v as int + Times(x, Pow2(32 - |b|)) < TWO64
    ensures Buffered(v as int + Times(x, Pow2(32 - |b|)), b + ToBits(x, 32))
  {
    hide Times, Val, ToBits;
    var w := b + ToBits(x, 32);
    Pow2Constants();
    hide Pow2;
    ValToBits(x, 32);
    ValConcat(b, ToBits(x, 32));
    Pow2Add(32, 32 - |b|);
    Append(Val(b), Pow2(32), Pow2(32 - |b|), x);
    Pow2Add(|w|, 64 - |w|);
    Room(Val(w), Pow2(|w|), Pow2(64 - |w|));
  }

  lemma Append(a: nat, p: nat, q: nat, x: nat)
    ensures Times(a, p * q) + Times(x, q) == Times(a * p + x, q)
  {
    assert a * (p * q) == a * p * q;
  }

  lemma Room(a: nat, p: nat, q: nat)
    requires a < p && q > 0
    ensures Times(a, q) < p * q
  {
    assert (a + 1) * q <= p * q;
  }

  /** The top `k` bits. */
  lemma BufferPeek(v: uint64, b: seq<bit>, k: nat)
    requires Buffered(v, b) && k <= |b|
    ensures v as int / Pow2(64 - k) == Val(b[..k])
  {
    ValPrefix(b, k);
    Pow2Add(64 - |b|, |b| - k);
    QuotientTwice(v, Pow2(64 - |b|), Pow2(|b| - k));
    QuotientIff(v, Pow2(64 - |b|), Val(b));
  }

  /** Without the top `k` bits. */
  lemma BufferDump(v: uint64, b: seq<bit>, k: nat)
    requires Buffered(v, b) && k <= |b|
    ensures Buffered(v as int * Pow2(k) % TWO64, b[k..])
  {
    hide Times, Val, Pow2;
    var n := |b|;
    assert b == b[..k] + b[k..];
    ValConcat(b[..k], b[k..]);
    DumpPowers(n, k);
    DumpNumbers(Val(b[..k]), Val(b[k..]), Pow2(n - k), Pow2(64 - n), Pow2(k));
  }

  lemma DumpPowers(n: nat, k: nat)
    requires k <= n <= 64
    ensures Pow2(n - k) * (Pow2(k) * Pow2(64 - n)) == TWO64 && Pow2(64 - (n - k)) == Pow2(k) * Pow2(64 - n)
  {
    Pow2Constants();
    hide Pow2;
    Pow2Add(k, 64 - n);
    Pow2Add(n - k, 64 - n + k);
  }

  lemma DumpNumbers(hi: nat, lo: nat, p: nat, q: nat, r: nat)
    requires lo < p && p * (r * q) == TWO64 && r > 0 && q > 0
    ensures Times(hi * p + lo, q) * r % TWO64 == Times(lo, r * q)
  {
    Shifted(hi, lo, p, q, r);
    Room(lo, p, r * q);
    Modulo(hi, Times(lo, r * q));
  }

  lemma Shifted(hi: nat, lo: nat, p: nat, q: nat, r: nat)
    requires p * (r * q) == TWO64
    ensures Times(hi * p + lo, q) * r == hi * TWO64 + Times(lo, r * q)
  {
    assert (hi * p + lo) * q * r == (hi * p + lo) * (r * q);
    assert (hi * p + lo) * (r * q) == hi * p * (r * q) + lo * (r * q);
    assert hi * p * (r * q) == hi * (p * (r * q));
  }

  lemma Modulo(h: nat, x: nat)
    requires x < TWO64
    ensures (h * TWO64 + x) % TWO64 == x
  {
  }

  /** A buffer that is not full never looks like plus infinity. */
  lemma BufferFinite(v: uint64, b: seq<bit>)
    requires Buffered(v, b)
    ensures v < 0xFFFF_FFFF_FFFF_FFFF
  {
    assert Pow2(64 - |b|) == 2 * Pow2(63 - |b|);
    Even(Val(b), Pow2(63 - |b|));
  }

  lemma Even(a: nat, p: nat)
    ensures Times(a, 2 * p) % 2 == 0
  {
    assert a * (2 * p) == 2 * (a * p);
  }

  class Bitstream {
    var buff: uint64
    var live: nat
    var data: seq<uint32>       // the words up to the limit
    var eof: bool
    ghost var held: seq<bit>    // the bits in the buffer

    constructor (data: seq<uint32>, eof: bool)
      ensures Valid() && Bits() == WordBits(data) && this.data == data && this.eof == eof && live == 0
    {
      this.buff, this.live, this.data, this.eof := 0, 0, data, eof;
      this.held := [];
    }

    ghost predicate Valid()
      reads this
    {
      Buffered(buff, held) && live == |held|
    }

    /** All bits that can still be read. */
    ghost function Bits(): seq<bit>
      reads this
    {
      held + WordBits(data)
    }

    /** Provides at least 32 bits if it can. */
    method Need() returns (ok: bool)
      requires Valid()
      modifies this
      ensures Valid() && Bits() == old(Bits()) && eof == old(eof)
      ensures ok ==> live >= 32
      ensures !ok ==> data == [] && live < 32
      ensures data == old(data) || (old(live) < 32 && old(data) != [] && data == old(data)[1..])
    {
      if live < 32 {
        if data == [] { return false; }
        NeedFast();
      }
      ok := true;
    }

    /** The same, when there are words left. */
    method NeedFast()
      requires Valid() && (live >= 32 || data != [])
      modifies this
      ensures Valid() && Bits() == old(Bits()) && eof == old(eof) && live >= 32
      ensures if old(live) < 32 then data == old(data)[1..] else data == old(data)
      ensures live - 32 * |old(data)| == old(live) - 32 * |data|
    {
      if live < 32 {
        BufferAppend(buff, held, data[0]);
        hide *;
        var x: uint64 := data[0];
        buff := buff + Times(x, Pow2(32 - live));
        held := held + ToBits(data[0], 32);
        live := live + 32;
        data := data[1..];
        WordsNext(old(held), old(data));
      }
    }

    /** The `k` most significant bits. */
    function Peek(k: nat): (x: nat)
      requires Valid() && k <= live
      reads this
      ensures x == Val(held[..k])
    {
      BufferPeek(buff, held, k);
      buff / Pow2(64 - k)
    }

    method Dump(k: nat)
      requires Valid() && k <= live
      modifies this
      ensures Valid() && held == old(held)[k..] && Bits() == old(Bits())[k..]
      ensures data == old(data) && eof == old(eof) && live == old(live) - k
    {
      BufferDump(buff, held, k);
      hide *;
      buff := buff * Pow2(k) % TWO64;
      live := live - k;
      held := held[k..];
      DropFront(old(held), WordBits(data), k);
    }

    /** Removes and returns the `k` most significant bits. */
    method Take(k: nat) returns (x: nat)
      requires Valid() && k <= live
      modifies this
      ensures Valid() && x == Val(old(Bits())[..k]) && Bits() == old(Bits())[k..]
      ensures data == old(data) && eof == old(eof) && live == old(live) - k && |old(Bits())| >= k
    {
      x := Peek(k);
      assert Bits()[..k] == held[..k];
      Dump(k);
    }
  }

  lemma WordsNext(held: seq<bit>, data: seq<uint32>)
    requires data != []
    ensures held + ToBits(data[0], 32) + WordBits(data[1..]) == held + WordBits(data)
  {
  }

  lemma DropFront(a: seq<bit>, b: seq<bit>, k: nat)
    requires k <= |a|
    ensures (a + b)[k..] == a[k..] + b
  {
  }
}
