/** Labelling the symbols of an alphabet and sorting them by frequency. */
module LeafSorting {
  import opened Common
  import opened PackageMerge
  import opened PackedWeights
  import opened MergeLevels
  import opened PackageMerger
  import opened Alphabet
  import opened AlphabetSort

  function LeafWord(f: nat, i: nat): uint64
    requires f < WORD && i < MAX_ALPHA_SIZE
  {
    f * WORD + ONE_LEAF + (MAX_ALPHA_SIZE - i)
  }

  ghost predicate Labelled(freq: seq<nat>, words: seq<uint64>) {
    && |words| == |freq| <= MAX_ALPHA_SIZE
    && forall i {:trigger words[i]} :: 0 <= i < |freq| ==> freq[i] < WORD && words[i] == LeafWord(freq[i], i)
  }

  lemma UnpackLeaf(f: nat, i: nat)
    requires f < WORD && i < MAX_ALPHA_SIZE
    ensures Unpack(LeafWord(f, i)) == LeafWeight(f, i)
  {
  }

  function UnpackAll(s: seq<uint64>): (w: seq<Weight>)
    ensures |w| == |s| && forall i :: 0 <= i < |s| ==> w[i] == Unpack(s[i])
  {
    if s == [] then [] else UnpackAll(s[..|s| - 1]) + [Unpack(s[|s| - 1])]
  }

  function Reverse<T>(s: seq<T>): (r: seq<T>)
    ensures |r| == |s| && forall i :: 0 <= i < |s| ==> r[i] == s[|s| - 1 - i]
    ensures multiset(r) == multiset(s)
  {
    if s == [] then []
    else
      assert s == s[..|s| - 1] + [s[|s| - 1]];
      [s[|s| - 1]] + Reverse(s[..|s| - 1])
  }

  lemma {:induction false} UnpackRemove(s: seq<uint64>, j: nat)
    requires j < |s|
    ensures multiset(UnpackAll(s)) == multiset(UnpackAll(s[..j] + s[j + 1..])) + multiset{Unpack(s[j])}
    decreases |s|
  {
    var w, x := UnpackAll(s), Unpack(s[j]);
    assert w == w[..j] + [x] + w[j + 1..];
    assert UnpackAll(s[..j] + s[j + 1..]) == w[..j] + w[j + 1..];
  }

  /** Permuted words unpack to permuted weights. */
  lemma {:induction false} UnpackBag(a: seq<uint64>, b: seq<uint64>)
    requires multiset(a) == multiset(b)
    ensures multiset(UnpackAll(a)) == multiset(UnpackAll(b))
    decreases |a|
  {
    if a == [] {
      assert |multiset(b)| == 0;
    } else {
      var n := |a| - 1;
      assert a == a[..n] + [a[n]];
      assert a[n] in multiset(b);
      var j :| 0 <= j < |b| && b[j] == a[n];
      assert b == b[..j] + [b[j]] + b[j + 1..];
      assert multiset(b[..j] + b[j + 1..]) == multiset(b) - multiset{b[j]};
      assert multiset(a[..n]) == multiset(a) - multiset{a[n]};
      UnpackBag(a[..n], b[..j] + b[j + 1..]);
      UnpackRemove(b, j);
    }
  }

  /** The sorted leaves, in ascending order. */
  lemma SortedLeaves(freq: seq<nat>, words: seq<uint64>, s: seq<uint64>) returns (w: seq<Weight>)
    requires Labelled(freq, words)
    requires Falls(s) && multiset(s) == multiset(words)
    ensures w == Reverse(UnpackAll(s)) && |w| == |freq| && Arranges(freq, w)
  {
    hide Falls, Labelled, Sorted, Reverse, UnpackAll, AllLeaves;
    w := Reverse(UnpackAll(s));
    UnpackBag(s, words);
    UnpackWords(freq, words);
    LabelledSize(freq, words);
    Ascending(s, w);
    ArrangedSize(freq, w);
  }

  lemma LabelledSize(freq: seq<nat>, words: seq<uint64>)
    requires Labelled(freq, words)
    ensures |words| == |freq| <= MAX_ALPHA_SIZE
  {
  }

  lemma UnpackWords(freq: seq<nat>, words: seq<uint64>)
    requires Labelled(freq, words)
    ensures UnpackAll(words) == AllLeaves(freq)
  {
    forall i | 0 <= i < |freq| ensures UnpackAll(words)[i] == AllLeaves(freq)[i] {
      var x := words[i];
      UnpackLeaf(freq[i], i);
    }
    hide *;
  }

  lemma Ascending(s: seq<uint64>, w: seq<Weight>)
    requires Falls(s) && w == Reverse(UnpackAll(s))
    ensures Sorted(w)
  {
    hide Unpack, UnpackAll, Reverse, Leq;
    var n := |s|;
    forall i, j | 0 <= i <= j < n ensures Leq(w[i], w[j]) {
      LeafOrder(s, n - 1 - j, n - 1 - i);
    }
  }

  lemma LeafOrder(s: seq<uint64>, i: nat, j: nat)
    requires Falls(s) && i <= j < |s|
    ensures Leq(Unpack(s[j]), Unpack(s[i]))
  {
    CompareWords(s[j], s[i]);
  }

  function SumOf(freq: seq<nat>): nat {
    if freq == [] then 0 else SumOf(freq[..|freq| - 1]) + freq[|freq| - 1]
  }

  lemma {:induction false} SumBounds(freq: seq<nat>, i: nat)
    requires i < |freq|
    ensures freq[i] <= SumOf(freq)
    decreases |freq|
  {
    if i < |freq| - 1 { SumBounds(freq[..|freq| - 1], i); }
  }

  function FrequencyOf(): Weight -> nat {
    (x: Weight) => x.freq
  }

  lemma {:induction false} FrequencySum(w: seq<Weight>)
    ensures PrefixSum(w, |w|) == Sum(w, FrequencyOf())
    decreases |w|
  {
    if w != [] {
      FrequencySum(w[..|w| - 1]);
      PrefixCut(w, |w| - 1, |w| - 1);
    }
  }

  lemma {:induction false} PrefixCut(w: seq<Weight>, n: nat, i: nat)
    requires i <= n <= |w|
    ensures PrefixSum(w, i) == PrefixSum(w[..n], i)
    decreases i
  {
    if i > 0 { PrefixCut(w, n, i - 1); }
  }

  lemma {:induction false} LeavesSum(freq: seq<nat>)
    requires |freq| <= MAX_ALPHA_SIZE
    ensures PrefixSum(AllLeaves(freq), |freq|) == SumOf(freq)
    decreases |freq|
  {
    if freq != [] {
      var n := |freq| - 1;
      LeavesSum(freq[..n]);
      assert AllLeaves(freq)[..n] == AllLeaves(freq[..n]);
      PrefixCut(AllLeaves(freq), n, n);
    }
  }

  lemma ArrangedModest(freq: seq<nat>, w: seq<Weight>)
    requires Arranges(freq, w) && MIN_ALPHA_SIZE <= |freq| && SumOf(freq) <= TOTAL
    ensures Modest(w) && PrefixSum(w, |w|) == SumOf(freq)
  {
    ArrangedSize(freq, w);
    LeavesSum(freq);
    FrequencySum(w);
    FrequencySum(AllLeaves(freq));
    SumBag(w, AllLeaves(freq), FrequencyOf());
    forall i | 0 <= i < |w| ensures w[i].rank < DEPTH_UNIT { ArrangedLeaf(freq, w, i); }
  }

  /** The array of leaves: descending from index 1, with an infinite one at index 0. */
  lemma LeafArray(leaf: seq<uint64>, s: seq<uint64>, w: seq<Weight>)
    requires Modest(w) && w == Reverse(UnpackAll(s)) && |leaf| == |w| + 1
    requires leaf == [INFINITE] + s
    ensures LeafWeights(leaf, w)
  {
    hide Modest, Reverse, UnpackAll, Unpack;
    assert leaf[0] == INFINITE;
    var n := |w|;
    forall i: nat {:trigger LeafAt(leaf, w, i)} | i < n ensures LeafAt(leaf, w, i) { LeafEntry(leaf, s, w, i); }
  }

  lemma LeafEntry(leaf: seq<uint64>, s: seq<uint64>, w: seq<Weight>, i: nat)
    requires Modest(w) && w == Reverse(UnpackAll(s)) && leaf == [INFINITE] + s && i < |w|
    ensures |leaf| == |w| + 1 && LeafAt(leaf, w, i)
  {
    hide Sorted, PrefixSum, Reverse, UnpackAll, Unpack;
    assert leaf[|w| - i] == s[|w| - i - 1];
    FrequencyBound(w, i);
    FiniteLeaf(leaf[|w| - i], w[i]);
  }

  lemma FiniteLeaf(x: uint64, w: Weight)
    requires Unpack(x) == w && w.freq <= TOTAL
    ensures x != INFINITE
  {
  }

  /** Labels the frequencies of the symbols. */
  method LabelLeaves(frequency: array<nat>, n: nat) returns (leaf: array<uint64>)
    requires n <= MAX_ALPHA_SIZE && n <= frequency.Length && SumOf(frequency[..n]) <= TOTAL
    ensures fresh(leaf) && leaf.Length == MAX_ALPHA_SIZE + 1
    ensures Labelled(frequency[..n], leaf[..][1..n + 1])
  {
    hide SumOf, LeafWord;
    leaf := new uint64[MAX_ALPHA_SIZE + 1](_ => 0);
    forall i {:trigger frequency[i]} | 0 <= i < n ensures frequency[i] <= TOTAL { SumBounds(frequency[..n], i); }
    for i := 0 to n
      invariant forall j {:trigger leaf[j]} :: 1 <= j <= i ==> leaf[j] == LeafWord(frequency[j - 1], j - 1)
    {
      leaf[i + 1] := LeafWord(frequency[i], i);
    }
  }

  method SortLeaves(frequency: array<nat>, n: nat) returns (leaf: array<uint64>, ghost w: seq<Weight>)
    requires MIN_ALPHA_SIZE <= n <= MAX_ALPHA_SIZE && n <= frequency.Length && SumOf(frequency[..n]) <= TOTAL
    ensures fresh(leaf) && leaf.Length == MAX_ALPHA_SIZE + 1
    ensures LeafWeights(leaf[..n + 1], w) && Arranges(frequency[..n], w)
  {
    hide SumOf, Falls, Arranges, Modest, LeafWeights, Labelled, Reverse, UnpackAll;
    leaf := LabelLeaves(frequency, n);
    ghost var words := leaf[..][1..n + 1];
    SortAlphabet(leaf, 1, n + 1);
    ghost var s := leaf[..][1..n + 1];
    w := LeavesOf(frequency[..n], words, s);
    leaf[0] := INFINITE;
    assert leaf[..n + 1] == [INFINITE] + s;
    LeafArray(leaf[..n + 1], s, w);
  }

  lemma LeavesOf(freq: seq<nat>, words: seq<uint64>, s: seq<uint64>) returns (w: seq<Weight>)
    requires MIN_ALPHA_SIZE <= |freq| && SumOf(freq) <= TOTAL && Labelled(freq, words)
    requires Falls(s) && multiset(s) == multiset(words)
    ensures w == Reverse(UnpackAll(s)) && |w| == |freq| && Arranges(freq, w) && Modest(w)
  {
    w := SortedLeaves(freq, words, s);
    hide *;
    ArrangedModest(freq, w);
  }
}
