/** Alphabets sorted by frequency, and what does not depend on the order of symbols. */
module Alphabet {
  import opened Common
  import opened Powers
  import opened PackageMerge
  import opened CodeLengths

  const ONE_LEAF := 0x1_0000

  /** The weight of symbol `i`: its frequency, labelled with its number. */
  function LeafWeight(f: nat, i: nat): Weight
    requires i < MAX_ALPHA_SIZE
  {
    Weight(f, ONE_LEAF + (MAX_ALPHA_SIZE - i))
  }

  function SymbolOf(x: Weight): int {
    MAX_ALPHA_SIZE - x.rank % ONE_LEAF
  }

  function AllLeaves(freq: seq<nat>): (w: seq<Weight>)
    requires |freq| <= MAX_ALPHA_SIZE
    ensures |w| == |freq|
    ensures forall i :: 0 <= i < |freq| ==> w[i] == LeafWeight(freq[i], i)
  {
    if freq == [] then []
    else AllLeaves(freq[..|freq| - 1]) + [LeafWeight(freq[|freq| - 1], |freq| - 1)]
  }

  /** `w` holds the leaves of all symbols in ascending order. */
  ghost predicate Arranges(freq: seq<nat>, w: seq<Weight>) {
    && |freq| <= MAX_ALPHA_SIZE && Sorted(w)
    && multiset(w) == multiset(AllLeaves(freq))
  }

  lemma LeafSymbol(f: nat, i: nat)
    requires i < MAX_ALPHA_SIZE
    ensures SymbolOf(LeafWeight(f, i)) == i
  {
  }

  lemma ArrangedSize(freq: seq<nat>, w: seq<Weight>)
    requires Arranges(freq, w)
    ensures |w| == |freq|
  {
    assert |multiset(w)| == |multiset(AllLeaves(freq))|;
  }

  /** Every leaf is that of a symbol. */
  lemma ArrangedLeaf(freq: seq<nat>, w: seq<Weight>, t: nat)
    requires Arranges(freq, w) && t < |w|
    ensures 0 <= SymbolOf(w[t]) < |freq|
    ensures w[t] == LeafWeight(freq[SymbolOf(w[t])], SymbolOf(w[t]))
  {
    assert w[t] in multiset(w);
    assert w[t] in AllLeaves(freq);
    var i :| 0 <= i < |freq| && AllLeaves(freq)[i] == w[t];
    LeafSymbol(freq[i], i);
  }

  /** No two leaves are those of the same symbol. */
  lemma ArrangedOnce(freq: seq<nat>, w: seq<Weight>, t: nat, u: nat)
    requires Arranges(freq, w) && t < u < |w|
    ensures SymbolOf(w[t]) != SymbolOf(w[u])
  {
    ArrangedLeaf(freq, w, t);
    ArrangedLeaf(freq, w, u);
    if SymbolOf(w[t]) == SymbolOf(w[u]) {
      OnlyOnce(freq, SymbolOf(w[t]));
      Twice(w, t, u);
    }
  }

  lemma Twice(w: seq<Weight>, t: nat, u: nat)
    requires t < u < |w| && w[t] == w[u]
    ensures multiset(w)[w[t]] >= 2
  {
    assert w == w[..u] + [w[u]] + w[u + 1..];
    assert w[..u][t] == w[t];
  }

  lemma OnlyOnce(freq: seq<nat>, i: nat)
    requires i < |freq| <= MAX_ALPHA_SIZE
    ensures multiset(AllLeaves(freq))[LeafWeight(freq[i], i)] <= 1
  {
    var a := AllLeaves(freq);
    LeafSymbols(freq);
    OtherLeaves(a, i, a[i]);
  }

  lemma LeafSymbols(freq: seq<nat>)
    requires |freq| <= MAX_ALPHA_SIZE
    ensures forall i {:trigger AllLeaves(freq)[i]} :: 0 <= i < |freq| ==> SymbolOf(AllLeaves(freq)[i]) == i
  {
    forall i {:trigger AllLeaves(freq)[i]} | 0 <= i < |freq| ensures SymbolOf(AllLeaves(freq)[i]) == i {
      LeafSymbol(freq[i], i);
    }
  }

  lemma OtherLeaves(a: seq<Weight>, i: nat, x: Weight)
    requires i < |a| && a[i] == x
    requires forall j {:trigger a[j]} :: 0 <= j < |a| ==> SymbolOf(a[j]) == j
    ensures multiset(a)[x] == 1
  {
    hide SymbolOf;
    var b, c := a[..i], a[i + 1..];
    assert a == b + [x] + c;
    assert x !in b && x !in c;
    assert multiset(b)[x] == 0 && multiset(c)[x] == 0;
  }

  // ----- sums over leaves -----

  function Sum(a: seq<Weight>, g: Weight -> nat): nat {
    if a == [] then 0 else Sum(a[..|a| - 1], g) + g(a[|a| - 1])
  }

  lemma {:induction false} SumRemove(a: seq<Weight>, g: Weight -> nat, j: nat)
    requires j < |a|
    ensures Sum(a, g) == Sum(a[..j] + a[j + 1..], g) + g(a[j])
    decreases |a|
  {
    var n := |a| - 1;
    if j < n {
      SumRemove(a[..n], g, j);
      assert (a[..j] + a[j + 1..])[..n - 1] == a[..n][..j] + a[..n][j + 1..];
    } else {
      assert a[..j] + a[j + 1..] == a[..n];
    }
  }

  /** Sums do not depend on the order. */
  lemma {:induction false} SumBag(a: seq<Weight>, b: seq<Weight>, g: Weight -> nat)
    requires multiset(a) == multiset(b)
    ensures Sum(a, g) == Sum(b, g)
    decreases |a|
  {
    if a == [] {
      assert |multiset(b)| == 0;
    } else {
      var n := |a| - 1;
      assert a == a[..n] + [a[n]];
      assert a[n] in multiset(b);
      var j :| 0 <= j < |b| && b[j] == a[n];
      assert b == b[..j] + [b[j]] + b[j + 1..];
      assert multiset(a[..n]) == multiset(a) - multiset{a[n]};
      assert multiset(b[..j] + b[j + 1..]) == multiset(b) - multiset{b[j]};
      SumBag(a[..n], b[..j] + b[j + 1..], g);
      SumRemove(b, g, j);
    }
  }

  /** The symbol of leaf `x` has length `k`. */
  ghost predicate Has(lens: seq<nat>, x: Weight, k: nat) {
    0 <= SymbolOf(x) < |lens| && lens[SymbolOf(x)] == k
  }

  /** The lengths of the leaves, in their order. */
  ghost predicate LengthsOf(w: seq<Weight>, lens: seq<nat>, l: seq<nat>) {
    && |w| == |l|
    && forall t {:trigger l[t]} :: 0 <= t < |w| ==> Has(lens, w[t], l[t])
  }

  function LengthAt(lens: seq<nat>, x: Weight): nat {
    if 0 <= SymbolOf(x) < |lens| then lens[SymbolOf(x)] else 0
  }

  function SpaceTerm(lens: seq<nat>, h: nat): Weight -> nat {
    (x: Weight) => Pow2(h - Min(LengthAt(lens, x), h))
  }

  function TotalTerm(lens: seq<nat>, h: nat): Weight -> nat {
    (x: Weight) => Times(x.freq, Min(LengthAt(lens, x), h))
  }

  function AtLeastTerm(lens: seq<nat>, k: nat): Weight -> nat {
    (x: Weight) => if LengthAt(lens, x) >= k then 1 else 0
  }

  lemma LengthsPrefix(w: seq<Weight>, lens: seq<nat>, l: seq<nat>)
    requires LengthsOf(w, lens, l) && w != []
    ensures LengthsOf(w[..|w| - 1], lens, l[..|l| - 1]) && LengthAt(lens, w[|w| - 1]) == l[|l| - 1]
  {
    var n := |l| - 1;
    assert Has(lens, w[n], l[n]);
    var front := l[..n];
    forall t {:trigger front[t]} | 0 <= t < n ensures Has(lens, w[..n][t], front[t]) {
      assert front[t] == l[t];
    }
  }

  lemma {:induction false} SpaceSum(w: seq<Weight>, lens: seq<nat>, l: seq<nat>, h: nat)
    requires LengthsOf(w, lens, l)
    ensures Space(l, h) == Sum(w, SpaceTerm(lens, h))
    decreases |w|
  {
    if w != [] {
      LengthsPrefix(w, lens, l);
      SpaceSum(w[..|w| - 1], lens, l[..|l| - 1], h);
    }
  }

  lemma {:induction false} TotalSum(w: seq<Weight>, lens: seq<nat>, l: seq<nat>, h: nat)
    requires LengthsOf(w, lens, l)
    ensures Total(w, l, h) == Sum(w, TotalTerm(lens, h))
    decreases |w|
  {
    if w != [] {
      LengthsPrefix(w, lens, l);
      TotalSum(w[..|w| - 1], lens, l[..|l| - 1], h);
      TotalPrefix(w, l, h);
    }
  }

  lemma TotalPrefix(w: seq<Weight>, l: seq<nat>, h: nat)
    requires |l| == |w| > 0
    ensures Total(w, l, h) == Total(w[..|w| - 1], l[..|l| - 1], h) + Times(w[|w| - 1].freq, Min(l[|l| - 1], h))
  {
    TotalCut(w, l[..|l| - 1], |w| - 1, h);
  }

  lemma {:induction false} TotalCut(w: seq<Weight>, l: seq<nat>, n: nat, h: nat)
    requires |l| <= n <= |w|
    ensures Total(w, l, h) == Total(w[..n], l, h)
    decreases |l|
  {
    if l != [] { TotalCut(w, l[..|l| - 1], n, h); }
  }

  lemma {:induction false} AtLeastSum(w: seq<Weight>, lens: seq<nat>, l: seq<nat>, x: nat)
    requires LengthsOf(w, lens, l)
    ensures AtLeast(l, x) == Sum(w, AtLeastTerm(lens, x))
    decreases |w|
  {
    if w != [] {
      LengthsPrefix(w, lens, l);
      AtLeastSum(w[..|w| - 1], lens, l[..|l| - 1], x);
    }
  }

  /** The leaves in the order of symbols have their lengths in the order of symbols. */
  lemma SymbolLengths(freq: seq<nat>, lens: seq<nat>)
    requires |lens| == |freq| <= MAX_ALPHA_SIZE
    ensures LengthsOf(AllLeaves(freq), lens, lens)
  {
    LeafSymbols(freq);
    var a := AllLeaves(freq);
    forall t {:trigger lens[t]} | 0 <= t < |a| ensures Has(lens, a[t], lens[t]) {
      assert SymbolOf(a[t]) == t;
    }
  }

  /** The space, the cost and the number of codes of any length are the same for leaves
      as for symbols. */
  lemma SameMeasures(freq: seq<nat>, w: seq<Weight>, lens: seq<nat>, l: seq<nat>, h: nat)
    requires Arranges(freq, w) && |lens| == |freq| && LengthsOf(w, lens, l)
    ensures Space(l, h) == Space(lens, h)
    ensures Total(w, l, h) == Total(AllLeaves(freq), lens, h)
    ensures AtLeast(l, h) == AtLeast(lens, h)
  {
    var a := AllLeaves(freq);
    SymbolLengths(freq, lens);
    SpaceSum(w, lens, l, h);
    SpaceSum(a, lens, lens, h);
    SumBag(w, a, SpaceTerm(lens, h));
    TotalSum(w, lens, l, h);
    TotalSum(a, lens, lens, h);
    SumBag(w, a, TotalTerm(lens, h));
    AtLeastSum(w, lens, l, h);
    AtLeastSum(a, lens, lens, h);
    SumBag(w, a, AtLeastTerm(lens, h));
  }
}
