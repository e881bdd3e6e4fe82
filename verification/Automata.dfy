/** Searching for a bit pattern: the failure function, the automaton that reads bits, and
    the one that reads bytes. */
module Automata {
  import opened Common
  import opened Powers
  import opened Bits

  // ----- what the states mean -----

  /** The first `k` bits of the pattern are the last `k` bits read. */
  ghost predicate Matches(x: seq<bit>, b: seq<bit>, k: nat) {
    k <= |x| && k <= |b| && b[|b| - k..] == x[..k]
  }

  /** The longest such prefix of at most `k` bits. */
  ghost function LongestUpTo(x: seq<bit>, b: seq<bit>, k: nat): (s: nat)
    ensures s <= k && Matches(x, b, s)
    ensures forall j :: s < j <= k ==> !Matches(x, b, j)
  {
    if k == 0 then
      assert b[|b|..] == x[..0];
      0
    else if Matches(x, b, k) then k else LongestUpTo(x, b, k - 1)
  }

  ghost function Longest(x: seq<bit>, b: seq<bit>): (s: nat)
    ensures s <= |x| && Matches(x, b, s)
    ensures forall j :: s < j <= |x| ==> !Matches(x, b, j)
  {
    LongestUpTo(x, b, |x|)
  }

  lemma LongestIs(x: seq<bit>, b: seq<bit>, s: nat)
    requires Matches(x, b, s) && forall j :: s < j <= |x| ==> !Matches(x, b, j)
    ensures Longest(x, b) == s
  {
    var l := Longest(x, b);
    assert l < s ==> !Matches(x, b, s);
  }

  /** Prefix `k` ends prefix `s`. */
  ghost predicate Border(x: seq<bit>, k: nat, s: nat) {
    k <= s <= |x| && x[s - k..s] == x[..k]
  }

  lemma BorderOfBorder(x: seq<bit>, j: nat, k: nat, s: nat)
    requires Border(x, k, s) && j <= k
    ensures Border(x, j, k) <==> Border(x, j, s)
  {
    assert x[s - k..s][k - j..] == x[s - j..s];
    assert x[..k][k - j..] == x[k - j..k];
  }

  lemma MatchIsBorder(x: seq<bit>, b: seq<bit>, k: nat, s: nat)
    requires Matches(x, b, s) && k <= s
    ensures Matches(x, b, k) <==> Border(x, k, s)
  {
    assert b[|b| - s..][s - k..] == b[|b| - k..];
    assert x[..s][s - k..] == x[s - k..s];
  }

  /** Reading one more bit extends a match or ends it. */
  lemma MatchNext(x: seq<bit>, b: seq<bit>, c: bit, k: nat)
    ensures Matches(x, b + [c], k + 1) <==> k < |x| && Matches(x, b, k) && x[k] == c
  {
    var d := b + [c];
    if k < |x| && k <= |b| {
      assert d[|d| - (k + 1)..] == b[|b| - k..] + [c];
      assert x[..k + 1] == x[..k] + [x[k]];
      if Matches(x, d, k + 1) {
        assert (b[|b| - k..] + [c])[..k] == b[|b| - k..];
        assert (x[..k] + [x[k]])[..k] == x[..k];
        assert (b[|b| - k..] + [c])[k] == (x[..k] + [x[k]])[k];
      }
    }
  }

  /** The prefix to go on from when the bit after prefix `s` is not the expected one. */
  ghost predicate Fallback(x: seq<bit>, s: nat, p: int) {
    && s < |x| && -1 <= p < s
    && (p >= 0 ==> Border(x, p, s) && x[p] != x[s])
    && forall k: nat :: p < k < s && Border(x, k, s) ==> x[k] == x[s]
  }

  /** The state after one more bit. */
  lemma StateNext(x: seq<bit>, b: seq<bit>, c: bit, p: int)
    requires Longest(x, b) < |x| && Fallback(x, Longest(x, b), p)
    ensures Longest(x, b + [c]) == if x[Longest(x, b)] == c then Longest(x, b) + 1 else p + 1
  {
    var s, d := Longest(x, b), b + [c];
    if x[s] == c {
      MatchNext(x, b, c, s);
      forall j | s + 1 < j <= |x| ensures !Matches(x, d, j) { MatchNext(x, b, c, j - 1); }
      LongestIs(x, d, s + 1);
    } else {
      forall j: nat | p + 1 < j <= |x| ensures !Matches(x, d, j) {
        MatchNext(x, b, c, j - 1);
        if j - 1 < s { MatchIsBorder(x, b, j - 1, s); }
      }
      if p >= 0 {
        MatchIsBorder(x, b, p, s);
        MatchNext(x, b, c, p);
      } else {
        assert d[|d|..] == x[..0];
      }
      LongestIs(x, d, p + 1);
    }
  }

  // ----- the generator -----

  /** `j` is the longest proper prefix that ends prefix `i`. */
  ghost predicate LongestBorder(x: seq<bit>, i: nat, j: int) {
    if i == 0 then j == -1
    else 0 <= j < i <= |x| && Border(x, j, i) && forall k: nat :: j < k < i ==> !Border(x, k, i)
  }

  /** Of the proper prefixes that end prefix `i`, those longer than `j` are not followed
      by `x[i]`. */
  ghost predicate Sieved(x: seq<bit>, i: nat, j: int) {
    && i < |x| && -1 <= j < i && (j >= 0 ==> Border(x, j, i))
    && forall k: nat :: j < k < i && Border(x, k, i) ==> x[k] != x[i]
  }

  lemma SieveNext(x: seq<bit>, i: nat, j: nat, p: int)
    requires Sieved(x, i, j) && x[i] != x[j] && Fallback(x, j, p)
    ensures Sieved(x, i, p)
  {
    if p >= 0 { BorderOfBorder(x, p, j, i); }
    forall k: nat | p < k < i && Border(x, k, i) ensures x[k] != x[i] {
      if k < j { BorderOfBorder(x, k, j, i); }
    }
  }

  lemma BorderNext(x: seq<bit>, k: nat, i: nat)
    requires k <= i < |x|
    ensures Border(x, k + 1, i + 1) <==> Border(x, k, i) && x[k] == x[i]
  {
    assert x[i - k..i + 1] == x[i - k..i] + [x[i]];
    assert x[..k + 1] == x[..k] + [x[k]];
    if Border(x, k + 1, i + 1) {
      assert (x[i - k..i] + [x[i]])[..k] == x[i - k..i] && (x[..k] + [x[k]])[..k] == x[..k];
      assert (x[i - k..i] + [x[i]])[k] == (x[..k] + [x[k]])[k];
    }
  }

  lemma BorderFound(x: seq<bit>, i: nat, j: int)
    requires Sieved(x, i, j) && (j >= 0 ==> x[j] == x[i])
    ensures LongestBorder(x, i + 1, j + 1)
  {
    if j >= 0 { BorderNext(x, j, i); } else { assert Border(x, 0, i + 1); }
    forall k: nat {:trigger Border(x, k, i + 1)} | j + 1 < k < i + 1 ensures !Border(x, k, i + 1) { BorderNext(x, k - 1, i); }
  }

  lemma FallbackFound(x: seq<bit>, i: nat, j: nat, p: int)
    requires 0 < i < |x| && LongestBorder(x, i, j) && Fallback(x, j, p)
    ensures Fallback(x, i, if x[i] == x[j] then p else j)
  {
    if x[i] == x[j] {
      if p >= 0 { BorderOfBorder(x, p, j, i); }
      forall k: nat | p < k < i && Border(x, k, i) ensures x[k] == x[i] {
        assert k <= j;
        if k < j { BorderOfBorder(x, k, j, i); }
      }
    }
  }

  lemma FailuresStart(x: seq<bit>)
    requires x != []
    ensures LongestBorder(x, 0, -1) && Fallback(x, 0, -1)
  {
  }

  lemma SieveStart(x: seq<bit>, i: nat, j: int)
    requires i < |x| && LongestBorder(x, i, j)
    ensures -1 <= j < i && Sieved(x, i, j)
  {
  }

  lemma FallbackRange(x: seq<bit>, s: nat, p: int)
    requires Fallback(x, s, p)
    ensures -1 <= p < s
  {
  }

  /** The failure function. */
  method Failures(x: seq<bit>) returns (p: seq<int>)
    requires x != []
    ensures |p| == |x| && forall s {:trigger p[s]} :: 0 <= s < |x| ==> Fallback(x, s, p[s])
  {
    hide Fallback, LongestBorder, Sieved, Border;
    var i, j := 0, -1;
    p := [-1];
    FailuresStart(x);
    while i < |x| - 1
      invariant 0 <= i < |x| && |p| == i + 1 && LongestBorder(x, i, j)
      invariant forall s {:trigger p[s]} :: 0 <= s <= i ==> Fallback(x, s, p[s])
    {
      SieveStart(x, i, j);
      while j > -1 && x[i] != x[j]
        invariant -1 <= j < i && Sieved(x, i, j)
        decreases j
      {
        SieveNext(x, i, j, p[j]);
        FallbackRange(x, j, p[j]);
        j := p[j];
      }
      BorderFound(x, i, j);
      i := i + 1;
      j := j + 1;
      FallbackFound(x, i, j, p[j]);
      p := p + [if x[i] == x[j] then p[j] else j];
    }
  }

  /** The automaton that reads bits: for each state, where a zero and a one lead. */
  ghost predicate IsMini(x: seq<bit>, d: seq<(nat, nat)>) {
    && |d| == |x|
    && forall s {:trigger d[s]} :: 0 <= s < |x| ==> Follows(x, s, d[s])
  }

  /** Where the two bits lead from state `s`. */
  ghost predicate Follows(x: seq<bit>, s: nat, t: (nat, nat)) {
    && s < |x| && t.0 <= |x| && t.1 <= |x|
    && exists p: int {:trigger Fallback(x, s, p)} ::
         Fallback(x, s, p) && t == if x[s] == 0 then (s + 1, p + 1) else (p + 1, s + 1)
  }

  function On(t: (nat, nat), c: bit): nat {
    if c == 0 then t.0 else t.1
  }

  /** One bit takes the automaton to the longest match. */
  lemma MiniStep(x: seq<bit>, d: seq<(nat, nat)>, b: seq<bit>, c: bit)
    requires IsMini(x, d) && Longest(x, b) < |x|
    ensures On(d[Longest(x, b)], c) == Longest(x, b + [c])
  {
    var s := Longest(x, b);
    assert Follows(x, s, d[s]);
    var p: int :| Fallback(x, s, p) && d[s] == if x[s] == 0 then (s + 1, p + 1) else (p + 1, s + 1);
    StateNext(x, b, c, p);
  }

  method MiniAutomaton(x: seq<bit>) returns (d: seq<(nat, nat)>)
    requires x != []
    ensures IsMini(x, d)
  {
    var p := Failures(x);
    d := [];
    for s := 0 to |x|
      invariant |d| == s && forall i {:trigger d[i]} :: 0 <= i < s ==> Follows(x, i, d[i])
    {
      assert Fallback(x, s, p[s]);
      d := d + [((if x[s] == 1 then p[s] else s) + 1, (if x[s] == 1 then s else p[s]) + 1)];
      assert Follows(x, s, d[s]);
    }
  }

  /** Reading bits until the pattern is complete, and then no more. */
  function Absorb(d: seq<(nat, nat)>, s: nat, b: seq<bit>): nat
    decreases |b|
  {
    if b == [] || s >= |d| then s else Absorb(d, On(d[s], b[0]), b[1..])
  }

  /** Bit `k` of a byte, the most significant first. */
  method BitOf(c: byte, k: nat) returns (b: bit)
    requires k < 8
    ensures b == ToBits(c, 8)[k]
  {
    ByteBit(c, k);
    b := c * Pow2(k) / 0x80 % 2;
  }

  lemma {:induction false} BitAt(v: nat, n: nat, k: nat)
    requires k < n
    ensures ToBits(v, n)[k] == v / Pow2(n - 1 - k) % 2
    decreases n
  {
    if k < n - 1 {
      BitAt(v / 2, n - 1, k);
      QuotientTwice(v, 2, Pow2(n - 2 - k));
    }
  }

  lemma ByteBit(c: byte, k: nat)
    requires k < 8
    ensures c as int * Pow2(k) / 0x80 % 2 == ToBits(c, 8)[k]
  {
    BitAt(c, 8, k);
    Pow2Add(k, 7 - k);
    assert Pow2(7) == 0x80;
    var y: nat := c as int * Pow2(k);
    QuotientTwice(y, Pow2(k), Pow2(7 - k));
    QuotientIff(y, Pow2(k), c);
  }

  /** The automaton that reads bytes does what eight bits do. */
  ghost predicate IsBig(d: seq<(nat, nat)>, t: seq<seq<nat>>) {
    && |t| == |d| + 1
    && forall s {:trigger t[s]} :: 0 <= s <= |d| ==> IsRow(d, s, t[s])
  }

  ghost predicate IsRow(d: seq<(nat, nat)>, s: nat, r: seq<nat>) {
    |r| == 256 && forall c: byte {:trigger r[c]} :: r[c] == Absorb(d, s, ToBits(c, 8))
  }

  method BigAutomaton(x: seq<bit>, d: seq<(nat, nat)>) returns (t: seq<seq<nat>>)
    requires IsMini(x, d)
    ensures IsBig(d, t)
  {
    t := [];
    for s0 := 0 to |d|
      invariant |t| == s0 && forall s {:trigger t[s]} :: 0 <= s < s0 ==> IsRow(d, s, t[s])
    {
      var r := BigRow(x, d, s0);
      t := t + [r];
    }
    var last := seq(256, _ => |d|);
    assert IsRow(d, |d|, last);
    t := t + [last];
  }

  method BigRow(x: seq<bit>, d: seq<(nat, nat)>, s0: nat) returns (r: seq<nat>)
    requires IsMini(x, d) && s0 < |d|
    ensures IsRow(d, s0, r)
  {
    r := [];
    for c := 0 to 256
      invariant |r| == c && forall b: byte {:trigger r[b]} :: b as int < c ==> r[b] == Absorb(d, s0, ToBits(b, 8))
    {
      var s := BigEntry(x, d, s0, c);
      r := r + [s];
    }
  }

  method BigEntry(x: seq<bit>, d: seq<(nat, nat)>, s0: nat, c: byte) returns (s: nat)
    requires IsMini(x, d) && s0 < |d|
    ensures s == Absorb(d, s0, ToBits(c, 8))
  {
    hide ToBits;
    s := s0;
    ghost var bits := ToBits(c, 8);
    assert bits[0..] == bits;
    for k := 0 to 8
      invariant s < |d| && Absorb(d, s0, bits) == Absorb(d, s, bits[k..])
    {
      var b := BitOf(c, k);
      assert bits[k..][0] == b && bits[k..][1..] == bits[k + 1..];
      assert Follows(x, s, d[s]);
      s := On(d[s], b);
      if s == |d| { return; }
    }
  }

  lemma {:induction false} AbsorbConcat(d: seq<(nat, nat)>, s: nat, a: seq<bit>, b: seq<bit>)
    ensures Absorb(d, s, a + b) == Absorb(d, Absorb(d, s, a), b)
    decreases |a|
  {
    if a == [] {
      assert a + b == b;
    } else if s < |d| {
      AbsorbConcat(d, On(d[s], a[0]), a[1..], b);
      assert (a + b)[1..] == a[1..] + b;
    }
  }

  // ----- where the pattern ends -----

  ghost predicate EndsAt(x: seq<bit>, b: seq<bit>, e: nat) {
    |x| <= e <= |b| && b[e - |x|..e] == x
  }

  /** The first place where the pattern ends. */
  ghost predicate FirstEnd(x: seq<bit>, b: seq<bit>, e: nat) {
    EndsAt(x, b, e) && forall k: nat :: k < e ==> !EndsAt(x, b, k)
  }

  /** `k` bits have been read without finding the pattern. */
  ghost predicate Sofar(x: seq<bit>, b: seq<bit>, k: nat, s: nat) {
    && k <= |b| && s == Longest(x, b[..k]) < |x|
    && forall e: nat :: e <= k ==> !EndsAt(x, b, e)
  }

  lemma SofarNone(x: seq<bit>, b: seq<bit>)
    requires x != []
    ensures Sofar(x, b, 0, 0)
  {
    assert Longest(x, b[..0]) == 0;
  }

  /** One more bit. */
  lemma SofarBit(x: seq<bit>, d: seq<(nat, nat)>, b: seq<bit>, k: nat, s: nat)
    requires IsMini(x, d) && Sofar(x, b, k, s) && k < |b|
    ensures s < |d| && On(d[s], b[k]) <= |x|
    ensures if On(d[s], b[k]) < |x| then Sofar(x, b, k + 1, On(d[s], b[k])) else FirstEnd(x, b, k + 1)
  {
    MiniStep(x, d, b[..k], b[k]);
    assert b[..k + 1] == b[..k] + [b[k]];
    EndIsLongest(x, b, k + 1);
  }

  lemma EndIsLongest(x: seq<bit>, b: seq<bit>, e: nat)
    requires e <= |b|
    ensures EndsAt(x, b, e) <==> Longest(x, b[..e]) == |x|
  {
    if |x| <= e { assert b[..e][e - |x|..] == b[e - |x|..e]; }
    assert x[..|x|] == x;
    if EndsAt(x, b, e) { assert Matches(x, b[..e], |x|); }
  }

  /** Several more bits. */
  lemma {:induction false} SofarBits(x: seq<bit>, d: seq<(nat, nat)>, b: seq<bit>, k: nat, s: nat, n: nat)
    requires IsMini(x, d) && Sofar(x, b, k, s) && k + n <= |b|
    ensures Absorb(d, s, b[k..k + n]) <= |x|
    ensures Absorb(d, s, b[k..k + n]) < |x| ==> Sofar(x, b, k + n, Absorb(d, s, b[k..k + n]))
    ensures Absorb(d, s, b[k..k + n]) == |x| ==> exists e: nat {:trigger FirstEnd(x, b, e)} :: k < e <= k + n && FirstEnd(x, b, e)
    decreases n
  {
    if n > 0 {
      hide Sofar, FirstEnd, IsMini;
      SofarBit(x, d, b, k, s);
      var bits := b[k..k + n];
      assert bits[0] == b[k] && bits[1..] == b[k + 1..k + n];
      var t := On(d[s], b[k]);
      MiniSize(x, d);
      if t < |x| { SofarBits(x, d, b, k + 1, t, n - 1); }
    }
  }

  lemma MiniSize(x: seq<bit>, d: seq<(nat, nat)>)
    requires IsMini(x, d)
    ensures |d| == |x|
  {
  }
}
