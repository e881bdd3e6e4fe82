/** Code lengths by Huffman's algorithm. */
module Huffman {
  import opened Common
  import opened Powers
  import opened PackageMerge
  import opened PackedWeights
  import opened CodeLengths
  import opened Alphabet
  import AlphabetSort
  import opened LeafSorting
  import opened HuffmanCost
  import opened HuffmanTrace
  import opened HuffmanTree

  /** Frequencies, those of symbols that do not occur counted as one. */
  function Ones(freq: seq<nat>): (f: seq<nat>)
    ensures |f| == |freq| && forall i :: 0 <= i < |freq| ==> f[i] == if freq[i] < 1 then 1 else freq[i]
  {
    seq(|freq|, (i: int) requires 0 <= i < |freq| => if freq[i] < 1 then 1 else freq[i])
  }

  /** A block has at most one value more than bytes, so that its frequencies meet the bound. */
  lemma BlockTotals(freq: seq<nat>)
    requires |freq| <= MAX_ALPHA_SIZE && SumOf(freq) <= MAX_BLOCK_SIZE + 1
    ensures SumOf(Ones(freq)) < Fib(MAX_HUFF_CODE_LENGTH + 1)
  {
    FibValue();
    OnesTotal(freq);
  }

  lemma {:induction false} OnesTotal(freq: seq<nat>)
    ensures SumOf(Ones(freq)) <= SumOf(freq) + |freq|
    decreases |freq|
  {
    if freq != [] {
      var f := freq[..|freq| - 1];
      OnesTotal(f);
      assert Ones(freq)[..|f|] == Ones(f);
    }
  }

  // ----- the sorted leaves -----

  lemma LeafFields(f: nat, i: nat)
    requires f < WORD && i < MAX_ALPHA_SIZE
    ensures Freq(LeafWord(f, i)) == f && Height(LeafWord(f, i)) == 0
    ensures Label(LeafWord(f, i)) == MAX_ALPHA_SIZE - i
  {
    var k := ONE_LEAF + (MAX_ALPHA_SIZE - i);
    assert LeafWord(f, i) == f * WORD + k;
    HuffmanTree.Quotient(f * WORD + k, FREQ, f, k);
    HuffmanTree.Quotient(f * WORD + k, DEPTH, f * 0x100, k);
    HuffmanTree.Quotient(f * 0x100, 0x100, f, 0);
    HuffmanTree.Quotient(f * WORD + k, LEAVES, f * 0x1_0000 + 1, MAX_ALPHA_SIZE - i);
  }

  /** Every word of the sorted array is that of a symbol. */
  lemma SortedWord(freq: seq<nat>, words: seq<uint64>, s: seq<uint64>, j: nat) returns (i: nat)
    requires Labelled(freq, words) && multiset(s) == multiset(words) && j < |s|
    ensures i < |freq| <= MAX_ALPHA_SIZE && freq[i] < WORD && s[j] == LeafWord(freq[i], i)
  {
    assert s[j] in multiset(s);
    assert s[j] in words;
    i :| 0 <= i < |words| && words[i] == s[j];
  }

  lemma SortedLeavesOk(freq: seq<nat>, words: seq<uint64>, s: seq<uint64>)
    requires Labelled(freq, words) && multiset(s) == multiset(words) && AlphabetSort.Falls(s)
    requires forall i :: 0 <= i < |freq| ==> freq[i] >= 1
    ensures LeavesOk(s)
  {
    hide Freq, Height, Label, Labelled, LeafWord;
    forall j | 0 <= j < |s| ensures Freq(s[j]) >= 1 && Height(s[j]) == 0 {
      var i := SortedWord(freq, words, s, j);
      LeafFields(freq[i], i);
    }
    forall i, j | 0 <= i < j < |s| ensures Freq(s[i]) >= Freq(s[j]) { FreqOrder(s[j], s[i]); }
  }

  lemma {:induction false} SumFreqSum(s: seq<uint64>)
    ensures SumFreq(s, 0, |s|) == Alphabet.Sum(UnpackAll(s), FrequencyOf())
    decreases |s|
  {
    if s != [] {
      var n := |s| - 1;
      SumFreqSum(s[..n]);
      SumFreqSame(s, s[..n], 0, n);
      assert UnpackAll(s)[..n] == UnpackAll(s[..n]);
    }
  }

  /** Sorting keeps the total. */
  lemma SortedTotal(freq: seq<nat>, words: seq<uint64>, s: seq<uint64>)
    requires Labelled(freq, words) && multiset(s) == multiset(words)
    ensures SumFreq(s, 0, |s|) == SumOf(freq)
  {
    hide Labelled, SumOf, Alphabet.Sum, UnpackAll, AllLeaves, SumFreq, PrefixSum;
    LabelledSize(freq, words);
    SumFreqSum(s);
    UnpackBag(s, words);
    UnpackWords(freq, words);
    SumBag(UnpackAll(s), AllLeaves(freq), FrequencyOf());
    FrequencySum(AllLeaves(freq));
    LeavesSum(freq);
  }

  // ----- giving out lengths -----

  function SymbolAt(s: seq<uint64>, j: nat): int
    requires j < |s|
  {
    MAX_ALPHA_SIZE - Label(s[j])
  }

  lemma SymbolRange(freq: seq<nat>, words: seq<uint64>, s: seq<uint64>, j: nat)
    requires Labelled(freq, words) && multiset(s) == multiset(words) && j < |s|
    ensures 0 <= SymbolAt(s, j) < |freq| && UnpackAll(s)[j] == LeafWeight(freq[SymbolAt(s, j)], SymbolAt(s, j))
    ensures SymbolOf(UnpackAll(s)[j]) == SymbolAt(s, j)
  {
    hide Labelled, Label, Freq, Height, Unpack;
    var i := SortedWord(freq, words, s, j);
    LabelledSize(freq, words);
    LeafFields(freq[i], i);
    UnpackLeaf(freq[i], i);
    LeafSymbol(freq[i], i);
  }

  /** No two words are for one symbol. */
  lemma SymbolsDiffer(freq: seq<nat>, words: seq<uint64>, s: seq<uint64>, j: nat, k: nat)
    requires Labelled(freq, words) && multiset(s) == multiset(words) && j < k < |s|
    ensures SymbolAt(s, j) != SymbolAt(s, k)
  {
    hide Labelled, SymbolOf, LeafWeight, Unpack, Label;
    SymbolRange(freq, words, s, j);
    SymbolRange(freq, words, s, k);
    LabelledSize(freq, words);
    UnpackBag(s, words);
    UnpackWords(freq, words);
    if SymbolAt(s, j) == SymbolAt(s, k) {
      OnlyOnce(freq, SymbolAt(s, j));
      Alphabet.Twice(UnpackAll(s), j, k);
    }
  }

  /** The first symbols in order were given the lengths `l`, which do not fall. */
  ghost predicate Given(s: seq<uint64>, lens: seq<nat>, l: seq<nat>, d: nat) {
    && |l| <= |s|
    && (forall j :: 0 <= j < |l| ==> 0 <= SymbolAt(s, j) < |lens| && lens[SymbolAt(s, j)] == l[j] && 1 <= l[j] <= d)
    && forall i, j :: 0 <= i < j < |l| ==> l[i] <= l[j]
  }

  lemma GivenNext(freq: seq<nat>, words: seq<uint64>, s: seq<uint64>, lens: seq<nat>, l: seq<nat>, d: nat)
    requires Labelled(freq, words) && multiset(s) == multiset(words) && |l| < |s| && |freq| <= |lens|
    requires Given(s, lens, l, d) && d >= 1
    ensures 0 <= SymbolAt(s, |l|) < |lens| && Given(s, lens[SymbolAt(s, |l|) := d], l + [d], d)
  {
    hide Labelled, SymbolAt;
    SymbolRange(freq, words, s, |l|);
    forall j | 0 <= j < |l| ensures SymbolAt(s, j) != SymbolAt(s, |l|) { SymbolsDiffer(freq, words, s, j, |l|); }
  }

  lemma {:induction false} SpaceDoubles(l: seq<nat>, d: nat)
    requires forall j :: 0 <= j < |l| ==> l[j] <= d
    ensures Space(l, d + 1) == 2 * Space(l, d)
    decreases |l|
  {
    if l != [] { SpaceDoubles(l[..|l| - 1], d); }
  }

  lemma SpaceOneMore(l: seq<nat>, d: nat)
    ensures Space(l + [d], d) == Space(l, d) + 1
  {
    assert (l + [d])[..|l|] == l;
  }

  lemma {:induction false} CodesMonotone(count: seq<nat>, d: nat)
    requires d < |count|
    ensures Codes(count[..d]) + count[d] <= Codes(count)
    decreases |count|
  {
    if d < |count| - 1 {
      CodesMonotone(count[..|count| - 1], d);
      assert count[..|count| - 1][..d] == count[..d];
    }
  }

  /** The accumulator never shrinks, so that it always fits into 32 bits. */
  lemma {:induction false} SpaceGrows(count: seq<nat>, d: nat)
    requires d <= |count|
    ensures CodeSpace(count[..d]) <= CodeSpace(count)
    decreases |count|
  {
    if d < |count| {
      SpaceGrows(count[..|count| - 1], d);
      assert count[..|count| - 1][..d] == count[..d];
    } else {
      assert count[..d] == count;
    }
  }

  lemma SpaceNext(count: seq<nat>, d: nat)
    requires d < |count|
    ensures CodeSpace(count[..d + 1]) == 2 * (CodeSpace(count[..d]) + count[d])
    ensures Codes(count[..d + 1]) == Codes(count[..d]) + count[d]
  {
    assert count[..d + 1][..d] == count[..d];
  }

  /** Lengths of all leaves, in order, are lengths of all symbols: they fill the same space. */
  lemma GivenAll(freq: seq<nat>, words: seq<uint64>, s: seq<uint64>, lens: seq<nat>, l: seq<nat>, d: nat)
    requires Labelled(freq, words) && multiset(s) == multiset(words) && |lens| == |freq| && |l| == |s| && Given(s, lens, l, d)
    ensures Space(lens, d) == Space(l, d)
  {
    hide Labelled, SymbolAt, SymbolOf, Unpack, Space, AllLeaves, UnpackAll;
    LabelledSize(freq, words);
    var u, a := UnpackAll(s), AllLeaves(freq);
    UnpackBag(s, words);
    UnpackWords(freq, words);
    assert LengthsOf(u, lens, l) by {
      forall t {:trigger l[t]} | 0 <= t < |u| ensures Has(lens, u[t], l[t]) { SymbolRange(freq, words, s, t); }
    }
    SpaceSum(u, lens, l, d);
    SymbolLengths(freq, lens);
    SpaceSum(a, lens, lens, d);
    SumBag(u, a, SpaceTerm(lens, d));
  }

  // ----- the cost -----

  /** Lengths of all symbols and of their leaves take the same space and cost the same. */
  lemma LeafMeasures(freq: seq<nat>, words: seq<uint64>, s: seq<uint64>, lens: seq<nat>, l: seq<nat>, h: nat)
    requires Labelled(freq, words) && multiset(s) == multiset(words) && |lens| == |freq| && |l| == |s|
    requires forall j :: 0 <= j < |s| ==> 0 <= SymbolAt(s, j) < |lens| && l[j] == lens[SymbolAt(s, j)] <= h
    requires forall i :: 0 <= i < |lens| ==> lens[i] <= h
    ensures Space(l, h) == Space(lens, h) && Dot(Freqs(s), l) == Dot(freq, lens)
  {
    hide Labelled, SymbolAt, SymbolOf, Unpack, Space, Dot, Total, AllLeaves, UnpackAll, Freq;
    LabelledSize(freq, words);
    var u, a := UnpackAll(s), AllLeaves(freq);
    UnpackBag(s, words);
    UnpackWords(freq, words);
    assert LengthsOf(u, lens, l) by {
      forall t {:trigger l[t]} | 0 <= t < |u| ensures Has(lens, u[t], l[t]) { SymbolRange(freq, words, s, t); }
    }
    SpaceSum(u, lens, l, h);
    TotalSum(u, lens, l, h);
    SymbolLengths(freq, lens);
    SpaceSum(a, lens, lens, h);
    TotalSum(a, lens, lens, h);
    SumBag(u, a, SpaceTerm(lens, h));
    SumBag(u, a, TotalTerm(lens, h));
    LeafFreqs(freq, s);
    TotalIsDot(u, Freqs(s), l, h);
    TotalIsDot(a, freq, lens, h);
  }

  lemma LeafFreqs(freq: seq<nat>, s: seq<uint64>)
    requires |freq| <= MAX_ALPHA_SIZE
    ensures |UnpackAll(s)| == |s| && forall j :: 0 <= j < |s| ==> UnpackAll(s)[j].freq == Freqs(s)[j]
    ensures forall i :: 0 <= i < |freq| ==> AllLeaves(freq)[i].freq == freq[i]
  {
  }

  /** If the lengths of the leaves cost the least, so do those of the symbols. */
  lemma LowerSymbols(freq: seq<nat>, words: seq<uint64>, s: seq<uint64>, lens: seq<nat>, l: seq<nat>, d: nat)
    requires Labelled(freq, words) && multiset(s) == multiset(words) && |lens| == |freq| && |l| == |s| && Given(s, lens, l, d)
    requires forall i :: 0 <= i < |lens| ==> lens[i] <= d
    requires Lower(Freqs(s), Dot(Freqs(s), l))
    ensures Lower(freq, Dot(freq, lens))
  {
    hide Labelled, SymbolAt, Space, Dot;
    LabelledSize(freq, words);
    LeafMeasures(freq, words, s, lens, l, d);
    var c := Dot(freq, lens);
    forall x: seq<nat>, h: nat {:trigger Space(x, h), Dot(freq, x)} |
      |x| == |freq| && (forall i :: 0 <= i < |x| ==> x[i] <= h) && Space(x, h) <= Pow2(h)
      ensures c <= Dot(freq, x)
    {
      hide Lower;
      var y := OfLeaves(freq, words, s, x);
      LeafMeasures(freq, words, s, x, y, h);
      assert |Freqs(s)| == |y|;
      UseLower(Freqs(s), c, y, h);
    }
  }

  lemma OfLeaves(freq: seq<nat>, words: seq<uint64>, s: seq<uint64>, x: seq<nat>) returns (y: seq<nat>)
    requires Labelled(freq, words) && multiset(s) == multiset(words) && |x| == |freq|
    ensures |y| == |s| && forall j :: 0 <= j < |s| ==> 0 <= SymbolAt(s, j) < |x| && y[j] == x[SymbolAt(s, j)]
  {
    hide Labelled, SymbolAt;
    forall j | 0 <= j < |s| ensures 0 <= SymbolAt(s, j) < |freq| { SymbolRange(freq, words, s, j); }
    y := seq(|s|, j requires 0 <= j < |s| => x[SymbolAt(s, j)]);
  }

  // ----- the lengths given are the depths of the leaves -----

  /** How many of the lengths are less than `e`, for every `e` up to `d`. */
  ghost predicate CutBy(l: seq<nat>, count: seq<nat>, d: nat) {
    d <= |count| && forall e, j {:trigger count[..e], l[j]} :: 0 <= e <= d && 0 <= j < |l| ==> (l[j] < e <==> j < Codes(count[..e]))
  }

  lemma NothingCut(count: seq<nat>)
    ensures CutBy([], count, 0)
  {
  }

  lemma CutByNext(l: seq<nat>, count: seq<nat>, d: nat, k: nat)
    requires CutBy(l, count, d) && d < |count| && |l| + k == Codes(count[..d + 1]) && k > 0 && Codes(count[..d]) <= |l|
    ensures CutBy(l + [d], count, d)
  {
    var m := l + [d];
    forall e, j {:trigger count[..e], m[j]} | 0 <= e <= d && 0 <= j < |m| ensures m[j] < e <==> j < Codes(count[..e]) {
      if j == |l| { FewerCodes(count, e, d); }
    }
  }

  lemma FewerCodes(count: seq<nat>, e: nat, d: nat)
    requires e <= d <= |count|
    ensures Codes(count[..e]) <= Codes(count[..d])
  {
    if e < d {
      assert count[..d][..e] == count[..e];
      CodesMonotone(count[..d], e);
    }
  }

  lemma CutByDone(l: seq<nat>, count: seq<nat>, d: nat)
    requires CutBy(l, count, d) && d < |count| && |l| == Codes(count[..d + 1]) && forall j :: 0 <= j < |l| ==> l[j] <= d
    ensures CutBy(l, count, d + 1)
  {
  }

  /** A step of the run from before `i` to after it. */
  lemma {:induction false} StepOver(r: seq<nat>, i: nat, a: nat, b: nat) returns (u: nat)
    requires a < b < |r| && r[a] <= i < r[b]
    ensures a < u <= b && r[u - 1] <= i < r[u]
    decreases b
  {
    if r[b - 1] <= i { u := b; } else { u := StepOver(r, i, a, b - 1); }
  }

  lemma DepthUnder(p: seq<nat>, i: nat)
    requires IsTree(p) && 2 <= i < |p|
    ensures 1 <= p[i] < i && DepthOf(p, i) == DepthOf(p, p[i]) + 1
  {
  }

  lemma StartsAt(p: seq<nat>, d: nat, a: nat, i: nat)
    requires Starts(p, d, a) && 1 <= i < |p|
    ensures IsTree(p) && 1 <= a <= |p| && (DepthOf(p, i) < d <==> i < a) && (d > 0 && |p| >= 2 ==> a >= 2)
  {
  }

  /** The children of the nodes before `a` are the nodes before `b`. */
  lemma ChildrenEnd(f: seq<nat>, w: seq<nat>, p: seq<nat>, r: seq<nat>, s: seq<nat>, e: nat, a: nat, b: nat)
    requires Ran(f, w, p, r, s) && Starts(p, e, a) && Starts(p, e + 1, b)
    ensures |r| == |p| && r[a - 1] == b
  {
    hide *;
    RanTrace(f, w, p, r, s);
    TraceSize(f, w, r, s);
    StartsAt(p, e + 1, b, 1);
    StartsAt(p, e, a, 1);
    TraceRange(f, w, r, s, a - 1);
    if b < r[a - 1] {
      var u := StepOver(r, b, 0, a - 1);
      RanAt(f, w, p, r, s, u, b);
      ChildDepth(p, e, a, b, b);
    } else if r[a - 1] < b {
      var i := r[a - 1];
      var u := StepOver(r, i, a - 1, |p| - 1);
      RanAt(f, w, p, r, s, u, i);
      ChildDepth(p, e, a, b, i);
    }
  }

  lemma RanTrace(f: seq<nat>, w: seq<nat>, p: seq<nat>, r: seq<nat>, s: seq<nat>)
    requires Ran(f, w, p, r, s)
    ensures Trace(f, w, r, s) && |p| == |f| && (|r| > 0 && |f| > 0 ==> r[0] == 2)
  {
  }

  lemma RanAt(f: seq<nat>, w: seq<nat>, p: seq<nat>, r: seq<nat>, s: seq<nat>, u: nat, i: nat)
    requires Ran(f, w, p, r, s) && 1 <= u < |r| && r[u - 1] <= i < r[u] && i < |p|
    ensures p[i] == u
  {
    hide Trace;
  }

  lemma ChildDepth(p: seq<nat>, e: nat, a: nat, b: nat, i: nat)
    requires Starts(p, e, a) && Starts(p, e + 1, b) && 2 <= i < |p|
    ensures i < b <==> p[i] < a
  {
    DepthUnder(p, i);
    StartsAt(p, e + 1, b, i);
    StartsAt(p, e, a, p[i]);
  }

  lemma {:induction false} RunGrows(f: seq<nat>, w: seq<nat>, r: seq<nat>, s: seq<nat>, a: nat, b: nat)
    requires Trace(f, w, r, s) && a <= b < |f|
    ensures |s| == |f| && s[a] <= s[b]
    decreases b
  {
    TraceSize(f, w, r, s);
    if a < b {
      RunGrows(f, w, r, s, a, b - 1);
      TraceAt(f, w, r, s, b);
      hide Trace;
      MergesSizes(f, w, b, r[b - 1], r[b], s[b - 1], s[b], w[b]);
    }
  }

  /** Node `t` has leaf `j` below it, so that the counts tell its depth. */
  lemma LeafCut(f: seq<nat>, w: seq<nat>, p: seq<nat>, r: seq<nat>, s: seq<nat>, count: seq<nat>, l: seq<nat>, t: nat, j: nat, e: nat)
    requires Ran(f, w, p, r, s) && |s| == |r| == |l| == |f| && 1 <= t < |r| && s[t - 1] <= j < s[t] && j < |l|
    requires forall u {:trigger r[u]} :: 0 <= u < |r| ==> r[u] + s[u] == 2 * u + 2
    requires 1 <= e <= |count| && LeavesAbove(p, e - 1, e, Codes(count[..e])) && CutBy(l, count, |count|)
    ensures IsTree(p) && t < |p| && (l[j] < e <==> DepthOf(p, t) < e - 1)
  {
    hide *;
    RanTrace(f, w, p, r, s);
    TraceSize(f, w, r, s);
    CutByAt(l, count, e, j);
    var a, b := LevelEnds(p, e - 1, e, Codes(count[..e]));
    ChildrenEnd(f, w, p, r, s, e - 1, a, b);
    StartsAt(p, e - 1, a, t);
    assert r[a - 1] + s[a - 1] == 2 * a;
    if t < a { RunGrows(f, w, r, s, t, a - 1); } else { RunGrows(f, w, r, s, a - 1, t - 1); }
  }

  lemma CutByAt(l: seq<nat>, count: seq<nat>, e: nat, j: nat)
    requires CutBy(l, count, |count|) && e <= |count| && j < |l|
    ensures l[j] < e <==> j < Codes(count[..e])
  {
    hide Codes;
  }

  lemma LevelEnds(p: seq<nat>, e: nat, d: nat, c: nat) returns (a: nat, b: nat)
    requires LeavesAbove(p, e, d, c)
    ensures Starts(p, e, a) && Starts(p, d, b) && c + b == 2 * a
  {
    hide Starts;
    a, b :| Starts(p, e, a) && Starts(p, d, b) && c + b == 2 * a;
  }

  /** The lengths given cost no more than any others. */
  lemma RunIsOptimal(f: seq<nat>, w: seq<nat>, p: seq<nat>, r: seq<nat>, s: seq<nat>, count: seq<nat>, l: seq<nat>)
    requires Ran(f, w, p, r, s) && |s| == |r| == |l| == |f| && IsTree(p)
    requires forall u {:trigger r[u]} :: 0 <= u < |r| ==> r[u] + s[u] == 2 * u + 2
    requires forall e {:trigger count[..e]} :: 1 <= e <= |count| ==> LeavesAbove(p, e - 1, e, Codes(count[..e]))
    requires CutBy(l, count, |count|) && forall i :: 1 <= i < |p| ==> DepthOf(p, i) + 2 <= |count|
    ensures Lower(f, Dot(f, l))
  {
    LeafDepths(f, w, p, r, s, count, l);
    hide *;
    RanTrace(f, w, p, r, s);
    TraceOptimal(f, w, r, s, NodeDepths(p), l);
  }

  /** The depths of the nodes. */
  ghost function NodeDepths(p: seq<nat>): (d: seq<nat>)
    requires IsTree(p)
    ensures |d| == |p| && forall i {:trigger d[i]} :: 1 <= i < |p| ==> d[i] == DepthOf(p, i)
  {
    seq(|p|, (i: int) requires 0 <= i < |p| => if i == 0 then 0 else DepthOf(p, i))
  }

  lemma LeafDepths(f: seq<nat>, w: seq<nat>, p: seq<nat>, r: seq<nat>, s: seq<nat>, count: seq<nat>, l: seq<nat>)
    requires Ran(f, w, p, r, s) && |s| == |r| == |l| == |f| && IsTree(p)
    requires forall u {:trigger r[u]} :: 0 <= u < |r| ==> r[u] + s[u] == 2 * u + 2
    requires forall e {:trigger count[..e]} :: 1 <= e <= |count| ==> LeavesAbove(p, e - 1, e, Codes(count[..e]))
    requires CutBy(l, count, |count|) && forall i :: 1 <= i < |p| ==> DepthOf(p, i) + 2 <= |count|
    ensures DepthsOf(r, s, NodeDepths(p), l)
  {
    hide Ran, LeavesAbove, CutBy, Codes, IsTree, DepthOf, NodeDepths;
    RanTrace(f, w, p, r, s);
    TraceSize(f, w, r, s);
    hide Trace;
    var d := NodeDepths(p);
    forall t, i {:trigger d[t], d[i]} | 1 <= t < |r| && r[t - 1] <= i < r[t] && i < |d| ensures d[i] == d[t] + 1 {
      NodeDepth(f, w, p, r, s, t, i);
    }
    forall t, j {:trigger d[t], l[j]} | 1 <= t < |r| && s[t - 1] <= j < s[t] && j < |l| ensures l[j] == d[t] + 1 {
      LeafDepth(f, w, p, r, s, count, l, t, j);
    }
    assert d[1] == 0 by { RootDepth(p); }
  }

  lemma NodeDepth(f: seq<nat>, w: seq<nat>, p: seq<nat>, r: seq<nat>, s: seq<nat>, t: nat, i: nat)
    requires Ran(f, w, p, r, s) && IsTree(p) && 1 <= t < |r| && r[t - 1] <= i < r[t] && i < |p|
    ensures 1 <= i && t < |p| && DepthOf(p, i) == DepthOf(p, t) + 1
  {
    RanTrace(f, w, p, r, s);
    TraceSize(f, w, r, s);
    TraceRange(f, w, r, s, t - 1);
    RanGrows(f, w, p, r, s, t - 1);
    RanAt(f, w, p, r, s, t, i);
    DepthUnder(p, i);
  }

  /** No node has the root below it. */
  lemma {:induction false} RanGrows(f: seq<nat>, w: seq<nat>, p: seq<nat>, r: seq<nat>, s: seq<nat>, t: nat)
    requires Ran(f, w, p, r, s) && t < |r|
    ensures r[t] >= 2
    decreases t
  {
    RanTrace(f, w, p, r, s);
    TraceSize(f, w, r, s);
    if t > 0 {
      RanGrows(f, w, p, r, s, t - 1);
      TraceAt(f, w, r, s, t);
    }
  }

  lemma LeafDepth(f: seq<nat>, w: seq<nat>, p: seq<nat>, r: seq<nat>, s: seq<nat>, count: seq<nat>, l: seq<nat>, t: nat, j: nat)
    requires Ran(f, w, p, r, s) && |s| == |r| == |l| == |f| == |p| && IsTree(p)
    requires forall u {:trigger r[u]} :: 0 <= u < |r| ==> r[u] + s[u] == 2 * u + 2
    requires forall e {:trigger count[..e]} :: 1 <= e <= |count| ==> LeavesAbove(p, e - 1, e, Codes(count[..e]))
    requires CutBy(l, count, |count|) && forall i :: 1 <= i < |p| ==> DepthOf(p, i) + 2 <= |count|
    requires 1 <= t < |r| && s[t - 1] <= j < s[t] && j < |l|
    ensures l[j] == DepthOf(p, t) + 1
  {
    hide *;
    var e := DepthOf(p, t) + 1;
    assert count[..e] == count[..e] && count[..e + 1] == count[..e + 1];
    LeafCut(f, w, p, r, s, count, l, t, j, e);
    LeafCut(f, w, p, r, s, count, l, t, j, e + 1);
  }

  lemma RootDepth(p: seq<nat>)
    requires IsTree(p) && |p| >= 2
    ensures DepthOf(p, 1) == 0
  {
  }

  /** Every symbol has its place in the order. */
  lemma PlaceOf(freq: seq<nat>, words: seq<uint64>, s: seq<uint64>, i: nat) returns (j: nat)
    requires Labelled(freq, words) && multiset(s) == multiset(words) && i < |freq|
    ensures j < |s| && SymbolAt(s, j) == i && Freq(s[j]) == freq[i]
  {
    hide Freq, Height, Label;
    assert words[i] in multiset(words);
    assert words[i] in s;
    j :| 0 <= j < |s| && s[j] == words[i];
    LeafFields(freq[i], i);
  }

  /** Symbols that occur more often have no longer codes, and no code is too long. */
  lemma GivenOrder(freq: seq<nat>, words: seq<uint64>, s: seq<uint64>, lens: seq<nat>, l: seq<nat>, d: nat, i: nat, k: nat)
    requires Labelled(freq, words) && multiset(s) == multiset(words) && |lens| == |freq| && |l| == |s| && Given(s, lens, l, d)
    requires LeavesOk(s) && i < |freq| && k < |freq|
    ensures 1 <= lens[i] <= d && (freq[i] > freq[k] ==> lens[i] <= lens[k])
  {
    hide Labelled, SymbolAt, Freq, Height;
    var x := PlaceOf(freq, words, s, i);
    var y := PlaceOf(freq, words, s, k);
  }

  /** The codes of a Huffman tree: complete, no longer than the total demands, and taking no
      more bits than any others that fit into the code space. */
  ghost predicate HuffmanLengths(freq: seq<nat>, lens: seq<nat>, total: nat) {
    && |lens| == |freq|
    && (forall i :: 0 <= i < |lens| ==> 1 <= lens[i] <= MAX_HUFF_CODE_LENGTH && Fib(lens[i] + 2) <= total)
    && Space(lens, MAX_HUFF_CODE_LENGTH) == Pow2(MAX_HUFF_CODE_LENGTH)
    && Lower(freq, Dot(freq, lens))
    && forall i, k :: 0 <= i < |lens| && 0 <= k < |lens| && freq[i] > freq[k] ==> lens[i] <= lens[k]
  }

  method LabelOnes(frequency: array<nat>, n: nat) returns (weight: array<uint64>)
    requires n <= MAX_ALPHA_SIZE && n <= frequency.Length && SumOf(Ones(frequency[..n])) < WORD
    ensures fresh(weight) && weight.Length == MAX_ALPHA_SIZE && Labelled(Ones(frequency[..n]), weight[..n])
  {
    hide SumOf, LeafWord;
    weight := new uint64[MAX_ALPHA_SIZE](_ => 0);
    ghost var ones := Ones(frequency[..n]);
    forall i {:trigger ones[i]} | 0 <= i < n ensures ones[i] < WORD { SumBounds(ones, i); }
    for i := 0 to n
      invariant forall j {:trigger weight[j]} :: 0 <= j < i ==> weight[j] == LeafWord(ones[j], j)
    {
      assert ones[i] == if frequency[i] < 1 then 1 else frequency[i];
      weight[i] := LeafWord(if frequency[i] < 1 then 1 else frequency[i], i);
    }
  }

  /** Gives out lengths in ascending order, by their counts. */
  method GiveLengths(length: array<nat>, weight: array<uint64>, count: array<nat>, n: nat, ghost freq: seq<nat>, ghost words: seq<uint64>, ghost s: seq<uint64>)
    returns (ghost l: seq<nat>)
    requires n <= weight.Length && n <= length.Length && |freq| == n && count.Length == MAX_HUFF_CODE_LENGTH + 2 && length != count
    requires Labelled(freq, words) && multiset(s) == multiset(words) && |s| == n
    requires forall j :: 0 <= j < n ==> Label(weight[j]) == Label(s[j])
    requires count[0] == 0 && Codes(count[..MAX_HUFF_CODE_LENGTH + 1]) == n
    requires CodeSpace(count[..MAX_HUFF_CODE_LENGTH + 1]) == Pow2(MAX_HUFF_CODE_LENGTH + 1)
    modifies length
    ensures length[n..] == old(length[n..])
    ensures LengthsGiven(freq, s, length[..n], l) && forall j :: 0 <= j < |l| ==> l[j] <= MAX_HUFF_CODE_LENGTH && count[l[j]] > 0
    ensures CutBy(l, count[..MAX_HUFF_CODE_LENGTH + 1], MAX_HUFF_CODE_LENGTH + 1)
  {
    hide Labelled, Label, Codes, CodeSpace, Space, Given, Pow2, CutBy;
    var i: nat, c: nat := 0, 0;
    ghost var all := count[..MAX_HUFF_CODE_LENGTH + 1];
    l := [];
    NothingGiven(s, length[..n], count[..0]);
    NothingCut(all);
    for d: nat := 0 to MAX_HUFF_CODE_LENGTH + 1
      invariant |l| == i == Codes(count[..d]) && c == CodeSpace(count[..d]) == Space(l, d)
      invariant Given(s, length[..n], l, if d == 0 then 0 else d - 1) && length[n..] == old(length[n..])
      invariant forall j :: 0 <= j < |l| ==> l[j] <= MAX_HUFF_CODE_LENGTH && count[l[j]] > 0
      invariant CutBy(l, all, d)
    {
      var k := count[d];
      ghost var c0 := c;
      SpaceNext(count[..MAX_HUFF_CODE_LENGTH + 1], d);
      assert count[..MAX_HUFF_CODE_LENGTH + 1][..d] == count[..d] && count[..MAX_HUFF_CODE_LENGTH + 1][..d + 1] == count[..d + 1];
      CodesMonotone(count[..MAX_HUFF_CODE_LENGTH + 1], d);
      c := (c + k) * 2;
      SpaceGrows(count[..MAX_HUFF_CODE_LENGTH + 1], d + 1);
      assert c <= Pow2(MAX_HUFF_CODE_LENGTH + 1);
      GivenWider(s, length[..n], l, if d == 0 then 0 else d - 1, d);
      while k != 0
        invariant |l| == i && i + k == Codes(count[..d + 1]) <= n && Space(l, d) + k == c0 + count[d] && k <= count[d]
        invariant Given(s, length[..n], l, d) && length[n..] == old(length[n..])
        invariant forall j :: 0 <= j < |l| ==> l[j] <= MAX_HUFF_CODE_LENGTH && count[l[j]] > 0
        invariant CutBy(l, all, d) && Codes(all[..d]) <= |l|
      {
        assert i < n;
        CutByNext(l, all, d, k);
        ghost var lens := length[..n];
        GivenNext(freq, words, s, lens, l, d);
        SpaceOneMore(l, d);
        LabelIs(weight[i]);
        length[MAX_ALPHA_SIZE - weight[i] % LEAVES] := d;
        assert length[..n] == lens[SymbolAt(s, i) := d];
        l := l + [d];
        i := i + 1;
        k := k - 1;
      }
      GivenBound(s, length[..n], l, d);
      CutByDone(l, all, d);
      SpaceDoubles(l, d);
    }
    assert c == Pow2(MAX_HUFF_CODE_LENGTH + 1) && i == n;
    SpaceHalf(s, length[..n], l, MAX_HUFF_CODE_LENGTH);
    assert LengthsGiven(freq, s, length[..n], l);
  }

  /** All leaves were given lengths, which fill the code space. */
  ghost predicate LengthsGiven(freq: seq<nat>, s: seq<uint64>, lens: seq<nat>, l: seq<nat>) {
    && |l| == |s| == |lens| == |freq| && Given(s, lens, l, MAX_HUFF_CODE_LENGTH)
    && Space(l, MAX_HUFF_CODE_LENGTH) == Pow2(MAX_HUFF_CODE_LENGTH)
  }

  lemma LabelIs(w: uint64)
    ensures Label(w) == w % LEAVES
  {
  }

  lemma NothingGiven(s: seq<uint64>, lens: seq<nat>, count: seq<nat>)
    requires count == []
    ensures Given(s, lens, [], 0) && Codes(count) == 0 && CodeSpace(count) == 0 == Space([], 0)
  {
  }

  lemma GivenWider(s: seq<uint64>, lens: seq<nat>, l: seq<nat>, d: nat, e: nat)
    requires Given(s, lens, l, d) && d <= e
    ensures Given(s, lens, l, e)
  {
    hide SymbolAt;
  }

  lemma GivenBound(s: seq<uint64>, lens: seq<nat>, l: seq<nat>, d: nat)
    requires Given(s, lens, l, d)
    ensures forall j :: 0 <= j < |l| ==> l[j] <= d
  {
  }

  lemma SpaceHalf(s: seq<uint64>, lens: seq<nat>, l: seq<nat>, d: nat)
    requires Given(s, lens, l, d) && Space(l, d + 1) == Pow2(d + 1)
    ensures Space(l, d) == Pow2(d)
  {
    SpaceDoubles(l, d);
  }

  lemma GivenAreHuffman(freq: seq<nat>, words: seq<uint64>, s: seq<uint64>, lens: seq<nat>, l: seq<nat>, h: nat, total: nat)
    requires Labelled(freq, words) && multiset(s) == multiset(words) && LeavesOk(s) && LengthsGiven(freq, s, lens, l)
    requires (forall j :: 0 <= j < |l| ==> l[j] <= h) && Fib(h + 2) <= total
    requires Lower(Freqs(s), Dot(Freqs(s), l))
    ensures HuffmanLengths(freq, lens, total)
  {
    hide Labelled, SymbolAt, Given, Fib, Space, Pow2, LeavesOk, Lower, Dot, Freqs;
    GivenAll(freq, words, s, lens, l, MAX_HUFF_CODE_LENGTH);
    forall i | 0 <= i < |lens| ensures 1 <= lens[i] <= MAX_HUFF_CODE_LENGTH && Fib(lens[i] + 2) <= total {
      GivenOrder(freq, words, s, lens, l, MAX_HUFF_CODE_LENGTH, i, i);
      var j := GivenAt(freq, words, s, lens, l, i);
      FibMonotone(lens[i] + 2, h + 2);
    }
    forall i, k | 0 <= i < |lens| && 0 <= k < |lens| && freq[i] > freq[k] ensures lens[i] <= lens[k] {
      GivenOrder(freq, words, s, lens, l, MAX_HUFF_CODE_LENGTH, i, k);
    }
    LowerSymbols(freq, words, s, lens, l, MAX_HUFF_CODE_LENGTH);
  }

  lemma GivenAt(freq: seq<nat>, words: seq<uint64>, s: seq<uint64>, lens: seq<nat>, l: seq<nat>, i: nat) returns (j: nat)
    requires Labelled(freq, words) && multiset(s) == multiset(words) && LengthsGiven(freq, s, lens, l) && i < |freq|
    ensures j < |l| && lens[i] == l[j]
  {
    hide Labelled, SymbolAt, Space, Pow2;
    j := PlaceOf(freq, words, s, i);
  }

  /** Makes code lengths for any frequencies whose total, with every symbol counted at least
      once, is below Fib(31).  They are those of a complete code, no code is longer than 30
      bits, symbols that occur more often have no longer codes, and no other code takes fewer
      bits. */
  method MakeCodeLengths(length: array<nat>, frequency: array<nat>, n: nat)
    requires MIN_ALPHA_SIZE <= n <= MAX_ALPHA_SIZE && n <= frequency.Length && n <= length.Length
    requires SumOf(Ones(frequency[..n])) < Fib(MAX_HUFF_CODE_LENGTH + 1)
    modifies length
    ensures HuffmanLengths(Ones(old(frequency[..n])), length[..n], SumOf(Ones(old(frequency[..n]))))
    ensures length[n..] == old(length[n..])
  {
    hide Labelled, SumOf, Fib, LeavesOk, AlphabetSort.Falls, Label, Freq, Height, Given, Codes, CodeSpace, Space, Pow2, IsTree, DepthOf, SumFreq,
      HuffmanLengths, CutBy, LeavesAbove, Ran, Lower, Dot, Freqs;
    ghost var freq := Ones(frequency[..n]);
    ghost var total := SumOf(freq);
    FibValue();
    var weight := LabelOnes(frequency, n);
    ghost var words := weight[..n];
    AlphabetSort.SortAlphabet(weight, 0, n);
    ghost var s := weight[..n];
    assert weight[..][0..n] == s;
    SortedLeavesOk(freq, words, s);
    SortedTotal(freq, words, s);
    var V := new nat[MAX_ALPHA_SIZE](_ => 0);
    ghost var rs, ss := BuildTree(V, weight, n);
    ghost var h := TreeHeight(V[..n], weight[..n], total);
    ghost var p, w := V[..n], Freqs(weight[..n]);
    var count := new nat[MAX_HUFF_CODE_LENGTH + 2](_ => 0);
    ComputeDepths(count, V, n, h);
    ghost var cs := count[..MAX_HUFF_CODE_LENGTH + 1];
    forall d {:trigger cs[..d]} | 1 <= d <= |cs| ensures LeavesAbove(p, d - 1, d, Codes(cs[..d])) { assert cs[..d] == count[..d]; }
    ghost var l := GiveLengths(length, weight, count, n, freq, words, s);
    RunIsOptimal(Freqs(s), w, p, rs, ss, cs, l);
    GivenAreHuffman(freq, words, s, length[..n], l, h, total);
  }

  /** No node is as deep as the tree is high. */
  lemma TreeHeight(p: seq<nat>, w: seq<uint64>, total: nat) returns (h: nat)
    requires IsTree(p) && |p| == |w| >= 2 && total < Fib(MAX_HUFF_CODE_LENGTH + 1) && Freq(w[1]) == total
    requires forall i :: 1 <= i < |w| ==> 1 <= Height(w[i]) && Fib(Height(w[i]) + 2) <= Freq(w[i])
    requires forall i :: 2 <= i < |w| ==> 1 <= p[i] < |w| && Height(w[p[i]]) >= Height(w[i]) + 1
    ensures h <= MAX_HUFF_CODE_LENGTH && Fib(h + 2) <= total && forall i :: 1 <= i < |p| ==> DepthOf(p, i) < h
  {
    hide Freq, Height, Fib, DepthOf, IsTree;
    h := Height(w[1]);
    LowHeight(h, total, MAX_HUFF_CODE_LENGTH + 1);
    var hs := seq(|w|, (i: int) requires 0 <= i < |w| => Height(w[i]));
    forall i | 1 <= i < |p| ensures DepthOf(p, i) < h { DepthHeight(p, hs, i); }
  }
}
