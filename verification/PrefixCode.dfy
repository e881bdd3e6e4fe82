/** Canonical prefix codes: what a vector of code lengths stands for. */
module PrefixCode {
  import opened Common
  import opened Powers
  import opened Bits
  import opened CountingSort

  /** Code lengths of an alphabet. */
  ghost predicate Lengths(lens: seq<byte>) {
    && MIN_ALPHA_SIZE <= |lens| <= MAX_ALPHA_SIZE
    && forall s :: 0 <= s < |lens| ==> MIN_CODE_LENGTH <= lens[s] <= MAX_CODE_LENGTH
  }

  /** The share of the code space, in units of 2^-20, taken by codes shorter than `k`. */
  function Start(lens: seq<byte>, k: nat): nat
    requires k <= MAX_CODE_LENGTH + 1
  {
    if k <= 1 then 0
    else Start(lens, k - 1) + Times(Count(lens, k - 1), Pow2(MAX_CODE_LENGTH - (k - 1)))
  }

  /** The code is complete: all codes together take the whole code space. */
  ghost predicate Complete(lens: seq<byte>) {
    Lengths(lens) && Start(lens, MAX_CODE_LENGTH + 1) == Pow2(MAX_CODE_LENGTH)
  }

  /** The first code of length `k`. */
  function FirstCode(lens: seq<byte>, k: nat): nat {
    if k <= 1 then 0 else 2 * (FirstCode(lens, k - 1) + Count(lens, k - 1))
  }

  /** The code of symbol `s`. */
  function Code(lens: seq<byte>, s: nat): nat
    requires s < |lens|
  {
    FirstCode(lens, lens[s]) + Count(lens[..s], lens[s])
  }

  function Codeword(lens: seq<byte>, s: nat): (b: seq<bit>)
    requires s < |lens|
    ensures |b| == lens[s]
  {
    ToBits(Code(lens, s), lens[s])
  }

  /** Symbol `s` is what the leading 20 bits, of value `u`, start with. */
  ghost predicate Decodes(lens: seq<byte>, u: nat, s: nat) {
    && Lengths(lens) && s < |lens|
    && u / Pow2(MAX_CODE_LENGTH - lens[s]) == Code(lens, s)
  }

  lemma {:induction false} StartFirst(lens: seq<byte>, k: nat)
    requires 1 <= k <= MAX_CODE_LENGTH
    ensures FirstCode(lens, k) * Pow2(MAX_CODE_LENGTH - k) == Start(lens, k)
    decreases k
  {
    hide Count;
    if k > 1 {
      StartFirst(lens, k - 1);
      Redouble(FirstCode(lens, k - 1), Count(lens, k - 1), Pow2(MAX_CODE_LENGTH - k));
    }
  }

  lemma Redouble(f: nat, c: nat, p: nat)
    ensures 2 * (f + c) * p == f * (2 * p) + c * (2 * p)
  {
  }

  lemma {:induction false} StartMonotone(lens: seq<byte>, j: nat, k: nat)
    requires j <= k <= MAX_CODE_LENGTH + 1
    ensures Start(lens, j) <= Start(lens, k)
    decreases k
  {
    if j < k { StartMonotone(lens, j, k - 1); }
  }

  /** Codes of length `k` divide their stretch of the code space evenly. */
  lemma InStretch(lens: seq<byte>, k: nat, u: nat, i: nat)
    requires 1 <= k <= MAX_CODE_LENGTH && i < Count(lens, k)
    requires u / Pow2(MAX_CODE_LENGTH - k) == FirstCode(lens, k) + i
    ensures Start(lens, k) <= u < Start(lens, k + 1)
  {
    StartFirst(lens, k);
    InShare(FirstCode(lens, k), Count(lens, k), i, Pow2(MAX_CODE_LENGTH - k), u);
    hide Count, FirstCode, Pow2;
  }

  lemma InShare(f: nat, c: nat, i: nat, p: nat, u: nat)
    requires p > 0 && i < c && u / p == f + i
    ensures f * p <= u < f * p + Times(c, p)
  {
    QuotientIff(u, p, f + i);
    assert (f + i) * p == f * p + i * p;
    assert (i + 1) * p <= c * p;
  }

  /** No two symbols are a prefix of the same bits. */
  lemma DecodesUnique(lens: seq<byte>, u: nat, s: nat, t: nat)
    requires Decodes(lens, u, s) && Decodes(lens, u, t)
    ensures s == t
  {
    var j, k := lens[s], lens[t];
    CountStrict(lens, s);
    CountStrict(lens, t);
    InStretch(lens, j, u, Count(lens[..s], j));
    InStretch(lens, k, u, Count(lens[..t], k));
    if j < k { StartMonotone(lens, j + 1, k); }
    if k < j { StartMonotone(lens, k + 1, j); }
    if s < t { CountPrefix(lens, s, t, j); }
    if t < s { CountPrefix(lens, t, s, k); }
  }

  /** Codes are canonical: shorter ones come first, and among codes of a length those of
      earlier symbols. */
  lemma DecodesInOrder(lens: seq<byte>, u: nat, s: nat, v: nat, t: nat)
    requires Decodes(lens, u, s) && Decodes(lens, v, t) && (lens[s] < lens[t] || (lens[s] == lens[t] && s < t))
    ensures u < v
  {
    var j, k := lens[s], lens[t];
    CountStrict(lens, s);
    CountStrict(lens, t);
    InStretch(lens, j, u, Count(lens[..s], j));
    InStretch(lens, k, v, Count(lens[..t], k));
    if j < k {
      StartMonotone(lens, j + 1, k);
    } else {
      CountPrefix(lens, s, t, j);
      hide FirstCode, Start, Count;
      LessByQuotient(u, v, Pow2(MAX_CODE_LENGTH - j));
    }
  }

  lemma LessByQuotient(u: nat, v: nat, p: nat)
    requires p > 0 && u / p < v / p
    ensures u < v
  {
    QuotientIff(u, p, u / p);
    QuotientIff(v, p, v / p);
    MulMonotone(u / p + 1, v / p, p);
    assert (u / p + 1) * p == u / p * p + p;
  }

  /** Codes fit their length. */
  lemma CodeFits(lens: seq<byte>, s: nat)
    requires Complete(lens) && s < |lens|
    ensures Code(lens, s) < Pow2(lens[s])
  {
    var k: nat := lens[s];
    var p := Pow2(MAX_CODE_LENGTH - k);
    CountStrict(lens, s);
    var u := Times(Code(lens, s), p);
    QuotientIff(u, p, Code(lens, s));
    InStretch(lens, k, u, Count(lens[..s], k));
    StartMonotone(lens, k + 1, MAX_CODE_LENGTH + 1);
    Pow2Add(k, MAX_CODE_LENGTH - k);
    hide Count, Start, FirstCode, Pow2;
    Cancel(Code(lens, s), Pow2(k), p);
  }

  lemma Cancel(a: nat, b: nat, p: nat)
    requires Times(a, p) < b * p
    ensures a < b
  {
    assert a >= b ==> a * p >= b * p;
  }

  /** A symbol's codeword at the front of the bits is decoded as that symbol. */
  lemma CodewordDecodes(lens: seq<byte>, s: nat, bits: seq<bit>)
    requires Complete(lens) && s < |lens| && |bits| >= MAX_CODE_LENGTH
    ensures Codeword(lens, s) <= bits <==> Decodes(lens, Val(bits[..MAX_CODE_LENGTH]), s)
  {
    var k: nat := lens[s];
    var top, word := bits[..MAX_CODE_LENGTH], bits[..k];
    CodeFits(lens, s);
    ValToBits(Code(lens, s), k);
    ValPrefix(top, k);
    assert top[..k] == word;
    assert Decodes(lens, Val(top), s) <==> Val(word) == Code(lens, s);
    SameValue(word, Codeword(lens, s));
    hide *;
    assert Codeword(lens, s) <= bits <==> word == Codeword(lens, s);
  }

  lemma SameValue(a: seq<bit>, b: seq<bit>)
    requires |a| == |b|
    ensures a == b <==> Val(a) == Val(b)
  {
    if Val(a) == Val(b) { ValInjective(a, b); }
  }

  /** The symbol of rank `r` in the order of code lengths, when that rank belongs to
      length `k`. */
  lemma RankSymbol(lens: seq<byte>, r: nat, k: nat)
    requires Lengths(lens) && CountBelow(lens, k) <= r < CountBelow(lens, k + 1)
    ensures r < |lens|
    ensures var s := Links(lens)[r];
      0 <= s < |lens| && lens[s] == k && Code(lens, s) == FirstCode(lens, k) + (r - CountBelow(lens, k))
  {
    var s := Links(lens)[r];
    var j: int := lens[s];
    PlaceBounds(lens, s, j);
    if j < k { CountBelowMonotone(lens, j + 1, k); }
    if k < j { CountBelowMonotone(lens, k + 1, j); }
  }

  /** A value inside the stretch of length `k` decodes as the symbol whose rank its
      offset gives. */
  lemma StretchDecodes(lens: seq<byte>, k: nat, u: nat) returns (r: nat)
    requires Lengths(lens) && 1 <= k <= MAX_CODE_LENGTH && Start(lens, k) <= u < Start(lens, k + 1)
    ensures r == CountBelow(lens, k) + (u - Start(lens, k)) / Pow2(MAX_CODE_LENGTH - k)
    ensures r < |lens| && 0 <= Links(lens)[r] < |lens|
    ensures lens[Links(lens)[r]] == k && Decodes(lens, u, Links(lens)[r])
  {
    StartFirst(lens, k);
    StartNext(lens, k);
    CountBelowStep(lens, k);
    var i := Offset(FirstCode(lens, k), Count(lens, k), Pow2(MAX_CODE_LENGTH - k), u, Start(lens, k));
    r := CountBelow(lens, k) + i;
    RankSymbol(lens, r, k);
    hide Count, CountBelow, Start, FirstCode, Pow2, Code, Links, Place;
  }

  lemma StartNext(lens: seq<byte>, k: nat)
    requires 1 <= k <= MAX_CODE_LENGTH
    ensures Start(lens, k + 1) == Start(lens, k) + Times(Count(lens, k), Pow2(MAX_CODE_LENGTH - k))
  {
  }

  lemma Offset(f: nat, c: nat, p: nat, u: nat, start: nat) returns (i: nat)
    requires p > 0 && start == f * p && start <= u < start + Times(c, p)
    ensures u / p == f + i && (u - start) / p == i && i < c
  {
    QuotientAdd(u - start, p, f);
    QuotientIff(u - start, p, (u - start) / p);
    i := (u - start) / p;
    assert i >= c ==> i * p >= c * p;
  }
}
