/** Choosing the height of a prefix code and assigning its canonical codes. */
module CodeAssigner {
  import opened Common
  import opened Powers
  import opened CountingSort
  import opened PrefixCode
  import opened PackageMerge
  import opened PackageRows
  import opened DeeperRows
  import opened PackedWeights
  import opened CodeLengths
  import opened MergeLevels
  import opened PackageMerger
  import opened Alphabet
  import opened LeafSorting
  import opened RowLengths

  // ----- measures of code lengths -----

  /** Two bits for every step up or down between neighbouring lengths. */
  function DeltaCost(lens: seq<nat>): nat {
    if |lens| <= 1 then 0
    else
      var a, b := lens[|lens| - 2], lens[|lens| - 1];
      DeltaCost(lens[..|lens| - 1]) + 2 * (if a < b then b - a else a - b)
  }

  /** The bits it takes to transmit the code and everything it codes. */
  function CodeCost(freq: seq<nat>, lens: seq<nat>): nat
    requires |lens| == |freq| <= MAX_ALPHA_SIZE
  {
    Total(AllLeaves(freq), lens, MAX_CODE_LENGTH) + DeltaCost(lens) + 5 + |freq|
  }

  lemma {:induction false} DeltaBound(lens: seq<nat>)
    requires Within(lens, MAX_CODE_LENGTH)
    ensures DeltaCost(lens) <= 40 * |lens|
    decreases |lens|
  {
    if |lens| > 1 { DeltaBound(lens[..|lens| - 1]); }
  }

  lemma {:induction false} CapIrrelevant(w: seq<Weight>, l: seq<nat>, h: nat)
    requires |l| <= |w| && Within(l, h) && h <= MAX_CODE_LENGTH
    ensures Total(w, l, h) == Total(w, l, MAX_CODE_LENGTH)
    decreases |l|
  {
    if l != [] { CapIrrelevant(w, l[..|l| - 1], h); }
  }

  /** The code space as the decoder counts it. */
  lemma {:induction false} StartAppend(lens: seq<byte>, x: byte, k: nat)
    requires k <= MAX_CODE_LENGTH + 1 && 1 <= x <= MAX_CODE_LENGTH
    ensures Start(lens + [x], k) == Start(lens, k) + if x < k then Pow2(MAX_CODE_LENGTH - x) else 0
    decreases k
  {
    if k > 1 {
      StartAppend(lens, x, k - 1);
      CountLast(lens, x, k - 1);
      Distribute(Count(lens, k - 1), 1, Pow2(MAX_CODE_LENGTH - (k - 1)));
    }
  }

  lemma CountLast(lens: seq<byte>, x: byte, k: nat)
    ensures Count(lens + [x], k) == Count(lens, k) + if x as int == k then 1 else 0
  {
    assert (lens + [x])[..|lens|] == lens;
  }

  lemma {:induction false} StartNone(k: nat)
    requires k <= MAX_CODE_LENGTH + 1
    ensures Start([], k) == 0
    decreases k
  {
    if k > 1 { StartNone(k - 1); }
  }

  lemma {:induction false} StartIsSpace(lens: seq<byte>)
    requires Within(lens, MAX_CODE_LENGTH)
    ensures Start(lens, MAX_CODE_LENGTH + 1) == Space(lens, MAX_CODE_LENGTH)
    decreases |lens|
  {
    if lens == [] {
      StartNone(MAX_CODE_LENGTH + 1);
    } else {
      var n := |lens| - 1;
      StartIsSpace(lens[..n]);
      StartAppend(lens[..n], lens[n], MAX_CODE_LENGTH + 1);
      assert lens == lens[..n] + [lens[n]];
    }
  }

  /** Complete codes are those of 3 to 258 symbols, of lengths 1 to 20, whose shares fill the
      code space exactly. */
  lemma CompleteIsKraft(lens: seq<byte>)
    ensures Complete(lens) <==> 3 <= |lens| <= 258 && (forall s :: 0 <= s < |lens| ==> 1 <= lens[s] <= 20) && Space(lens, 20) == 0x10_0000
  {
    Pow2Constants();
    hide Space, Start, Pow2;
    if Lengths(lens) { StartIsSpace(lens); }
  }

  lemma {:induction false} CountIsDifference(lens: seq<byte>, k: nat)
    ensures Count(lens, k) == AtLeast(lens, k) - AtLeast(lens, k + 1)
    decreases |lens|
  {
    if lens != [] { CountIsDifference(lens[..|lens| - 1], k); }
  }

  // ----- lengths for one height -----

  /** The leaves in descending order, of an alphabet of `n` symbols. */
  ghost predicate Sorting(freq: seq<nat>, leaf: seq<uint64>, w: seq<Weight>) {
    && MIN_ALPHA_SIZE <= |freq| && SumOf(freq) <= TOTAL
    && Arranges(freq, w) && LeafWeights(leaf, w) && |w| == |freq|
  }

  /** The state of handing out lengths: those of the last leaves, longest last. */
  ghost predicate Handing(freq: seq<nat>, w: seq<Weight>, row: seq<nat>, h: nat, lens: seq<byte>, l: seq<nat>) {
    && |lens| >= |freq| == |w|
    && Suffix(row, |w|, h, l) && Given(w, lens, l)
  }

  lemma LeafFacts(freq: seq<nat>, leaf: seq<uint64>, w: seq<Weight>, t: nat)
    requires Sorting(freq, leaf, w) && t < |w|
    ensures Unpack(leaf[|w| - t]) == w[t] && 0 <= SymbolOf(w[t]) < |freq| <= MAX_ALPHA_SIZE
  {
    ArrangedLeaf(freq, w, t);
  }

  lemma HandOut(freq: seq<nat>, leaf: seq<uint64>, w: seq<Weight>, row: seq<nat>, h: nat, lens: seq<byte>,
                l: seq<nat>, d: byte)
    requires Sorting(freq, leaf, w) && RowFor(row, |w|, h) && h <= MAX_CODE_LENGTH
    requires Handing(freq, w, row, h, lens, l) && |l| < |w|
    requires 1 <= d <= h && row[d] < |w| - |l| <= row[d - 1]
    ensures 0 <= SymbolOf(w[|w| - |l| - 1]) < |freq|
    ensures Handing(freq, w, row, h, lens[SymbolOf(w[|w| - |l| - 1]) := d], [d] + l)
    ensures TailTotal(w, [d] + l, h) == Times(w[|w| - |l| - 1].freq, d) + TailTotal(w, l, h)
  {
    hide Arranges, Given, Suffix, RowFor, Sorted, Total, Times, SymbolOf;
    SuffixNext(row, |w|, h, l, d);
    GivenNext(freq, w, lens, l, d);
    TailNext(w, l, d, h);
  }

  /** Gives length `depth` to the next `avail` symbols. */
  method FillDepth(length: array<byte>, leaf: array<uint64>, n: nat, depth: byte, avail: nat, leaf0: nat,
                   ghost freq: seq<nat>, ghost w: seq<Weight>, ghost row: seq<nat>, ghost h: nat, ghost l0: seq<nat>)
    returns (cost: nat, leaf1: nat, ghost l: seq<nat>)
    requires n == |freq| == |w| < leaf.Length && n <= length.Length && Sorting(freq, leaf[..n + 1], w) && h <= MAX_CODE_LENGTH
    requires RowFor(row, n, h) && 1 <= depth <= h && avail == row[depth - 1] - row[depth]
    requires Handing(freq, w, row, h, length[..], l0) && |l0| == leaf0 == n - row[depth - 1]
    modifies length
    ensures Handing(freq, w, row, h, length[..], l) && |l| == leaf1 == n - row[depth]
    ensures TailTotal(w, l, h) == cost + TailTotal(w, l0, h)
    ensures length[..][n..] == old(length[..][n..])
  {
    hide Sorting, RowFor, Handing, TailTotal, SymbolOf;
    leaf1, cost, l := leaf0, 0, l0;
    SizeFacts(freq, leaf[..n + 1], w, row, h, depth);
    ghost var above, below := row[depth - 1], row[depth];
    for left := avail downto 0
      invariant leaf1 == |l| == leaf0 + (avail - left) <= n - below
      invariant Handing(freq, w, row, h, length[..], l)
      invariant TailTotal(w, l, h) == cost + TailTotal(w, l0, h)
      invariant length[..][n..] == old(length[..][n..])
    {
      ghost var t := n - 1 - leaf1;
      ghost var before := length[..];
      LeafFacts(freq, leaf[..n + 1], w, t);
      HandOut(freq, leaf[..n + 1], w, row, h, before, l, depth);
      var symbol := MAX_ALPHA_SIZE - leaf[leaf1 + 1] % ONE_LEAF;
      WordSymbol(leaf[leaf1 + 1], w[t]);
      length[symbol] := depth;
      assert length[..] == before[symbol := depth];
      cost := cost + Times(leaf[leaf1 + 1] / WORD, depth);
      l := [depth as nat] + l;
      leaf1 := leaf1 + 1;
    }
  }

  lemma WordSymbol(x: uint64, w: Weight)
    requires Unpack(x) == w
    ensures SymbolOf(w) == MAX_ALPHA_SIZE - x % ONE_LEAF && w.freq == x / WORD
  {
  }

  lemma SizeFacts(freq: seq<nat>, leaf: seq<uint64>, w: seq<Weight>, row: seq<nat>, h: nat, d: nat)
    requires Sorting(freq, leaf, w) && RowFor(row, |freq|, h) && 1 <= d <= h
    ensures |w| == |freq| <= MAX_ALPHA_SIZE && |leaf| == |w| + 1
    ensures h < |row| && row[d] <= row[d - 1] <= |w|
  {
    assert row[0] == |w|;
  }

  // ----- the code of one height -----

  /** `lens` are the lengths, and `l` those of the ascending leaves, that package merge
      finds for height `h`. */
  ghost predicate RowCode(freq: seq<nat>, w: seq<Weight>, h: nat, lens: seq<nat>, l: seq<nat>) {
    && |lens| == |freq| == |w| >= 2 && 2 * |w| - 2 <= Size(|w|, h)
    && Describes(Row(w, h, 2 * |w| - 2), l) && LengthsOf(w, lens, l)
  }

  lemma RowCodeOnce(freq: seq<nat>, w: seq<Weight>, h: nat, lens: seq<nat>, l: seq<nat>, lens': seq<nat>, l': seq<nat>)
    requires Arranges(freq, w)
    requires RowCode(freq, w, h, lens, l) && RowCode(freq, w, h, lens', l')
    ensures lens == lens' && l == l'
  {
    DescribesOnce(Row(w, h, 2 * |w| - 2), l, l');
    hide Describes, Row, Size;
    forall i | 0 <= i < |freq| ensures lens[i] == lens'[i] {
      var t := Where(freq, w, i);
      assert Has(lens, w[t], l[t]) && Has(lens', w[t], l'[t]);
    }
  }

  /** The leaf of symbol `i`. */
  lemma Where(freq: seq<nat>, w: seq<Weight>, i: nat) returns (t: nat)
    requires Arranges(freq, w) && i < |freq|
    ensures t < |w| && SymbolOf(w[t]) == i
  {
    var x := AllLeaves(freq)[i];
    assert x in multiset(AllLeaves(freq));
    assert x in w;
    t :| 0 <= t < |w| && w[t] == x;
    LeafSymbol(freq[i], i);
  }

  /** All symbols have been given lengths. */
  lemma HandedOut(freq: seq<nat>, leaf: seq<uint64>, w: seq<Weight>, row: seq<nat>, h: nat, lens: seq<byte>, l: seq<nat>)
    requires Sorting(freq, leaf, w) && FullRow(w, h, row) && Handing(freq, w, row, h, lens, l) && |l| == |w|
    requires |w| <= Pow2(h)
    ensures RowCode(freq, w, h, lens[..|freq|], l)
  {
    hide Arranges, Given, Sorted, Describes, Row, Size, Leaves, LengthsOf;
    GivenAll(freq, w, lens, l);
    SuffixDescribes(row, |w|, h, l);
    assert row[..h] == Row(w, h, 2 * |w| - 2);
  }

  lemma {:induction false} WithinSymbols(freq: seq<nat>, w: seq<Weight>, lens: seq<nat>, l: seq<nat>, h: nat)
    requires Arranges(freq, w) && LengthsOf(w, lens, l) && |lens| == |freq| && Within(l, h)
    ensures Within(lens, h)
  {
    forall i | 0 <= i < |lens| ensures 1 <= lens[i] <= h {
      var t := Where(freq, w, i);
      assert Has(lens, w[t], l[t]);
    }
  }

  /** Such lengths are those of a complete code. */
  lemma RowCodeComplete(freq: seq<nat>, leaf: seq<uint64>, w: seq<Weight>, h: nat, lens: seq<nat>, l: seq<nat>)
    requires Sorting(freq, leaf, w) && RowCode(freq, w, h, lens, l) && 1 <= h <= MAX_CODE_LENGTH && |w| <= Pow2(h)
    ensures Within(l, h) && Within(lens, h) && Space(lens, h) == Pow2(h) == Space(l, h)
    ensures Total(AllLeaves(freq), lens, MAX_CODE_LENGTH) == Total(w, l, h)
  {
    hide *;
    RowParts(freq, leaf, w, h, lens, l);
    RowIsComplete(w, h, l);
    SameMeasures(freq, w, lens, l, h);
    WithinSymbols(freq, w, lens, l, h);
    CapIrrelevant(AllLeaves(freq), lens, h);
  }

  lemma RowParts(freq: seq<nat>, leaf: seq<uint64>, w: seq<Weight>, h: nat, lens: seq<nat>, l: seq<nat>)
    requires Sorting(freq, leaf, w) && RowCode(freq, w, h, lens, l)
    ensures Arranges(freq, w) && Sorted(w) && |l| == |w| == |freq| == |lens| >= 3 && |freq| <= MAX_ALPHA_SIZE
    ensures LengthsOf(w, lens, l) && 2 * |w| - 2 <= Size(|w|, h) && Describes(Row(w, h, 2 * |w| - 2), l)
  {
  }

  /** No prefix code of the same height takes fewer bits for the symbols. */
  lemma RowCodeOptimal(freq: seq<nat>, leaf: seq<uint64>, w: seq<Weight>, h: nat, lens: seq<nat>, l: seq<nat>,
                       other: seq<nat>)
    requires Sorting(freq, leaf, w) && RowCode(freq, w, h, lens, l) && 1 <= h <= MAX_CODE_LENGTH && |w| <= Pow2(h)
    requires |other| == |freq| && Within(other, h) && Space(other, h) <= Pow2(h)
    ensures |freq| <= MAX_ALPHA_SIZE
    ensures Total(AllLeaves(freq), lens, MAX_CODE_LENGTH) <= Total(AllLeaves(freq), other, MAX_CODE_LENGTH)
  {
    hide *;
    RowCodeComplete(freq, leaf, w, h, lens, l);
    RowParts(freq, leaf, w, h, lens, l);
    var k := LeafLengths(freq, w, other, h);
    SameMeasures(freq, w, other, k, h);
    RowIsOptimal(w, h, l, k);
    CapIrrelevant(AllLeaves(freq), other, h);
  }

  /** The lengths of the leaves that lengths of symbols give. */
  lemma LeafLengths(freq: seq<nat>, w: seq<Weight>, lens: seq<nat>, h: nat) returns (k: seq<nat>)
    requires Arranges(freq, w) && |lens| == |freq| && Within(lens, h)
    ensures LengthsOf(w, lens, k) && Within(k, h)
  {
    forall t | 0 <= t < |w| ensures 0 <= SymbolOf(w[t]) < |lens| { ArrangedLeaf(freq, w, t); }
    k := seq(|w|, t requires 0 <= t < |w| => lens[SymbolOf(w[t])]);
  }

  // ----- first codes -----

  lemma RowCount(freq: seq<nat>, leaf: seq<uint64>, w: seq<Weight>, row: seq<nat>, h: nat, lens: seq<byte>,
                 l: seq<nat>, k: nat)
    requires Sorting(freq, leaf, w) && FullRow(w, h, row) && RowFor(row, |w|, h) && RowCode(freq, w, h, lens, l)
    requires 1 <= k <= h
    ensures row[k] <= row[k - 1] && Count(lens, k) == row[k - 1] - row[k]
  {
    RowParts(freq, leaf, w, h, lens, l);
    CountIsDifference(lens, k);
    SameMeasures(freq, w, lens, l, k);
    SameMeasures(freq, w, lens, l, k + 1);
    RowAtLeast(w, row, h, l, k - 1);
    if k < h {
      RowAtLeast(w, row, h, l, k);
    } else {
      NoneLonger(l, h);
    }
  }

  lemma RowAtLeast(w: seq<Weight>, row: seq<nat>, h: nat, l: seq<nat>, x: nat)
    requires FullRow(w, h, row) && RowFor(row, |w|, h) && |l| == |w| && x < h
    requires Describes(Row(w, h, 2 * |w| - 2), l)
    ensures AtLeast(l, x + 1) == row[x]
  {
    var r := Row(w, h, 2 * |w| - 2);
    assert r[x] == row[x] <= row[0];
    hide *;
    DescribedPart(w, r, l, |l|, x);
    assert l[..|l|] == l;
  }

  lemma {:induction false} NoneLonger(l: seq<nat>, h: nat)
    requires forall t :: 0 <= t < |l| ==> l[t] <= h
    ensures AtLeast(l, h + 1) == 0
    decreases |l|
  {
    if l != [] { NoneLonger(l[..|l| - 1], h); }
  }

  // ----- trying the heights -----

  lemma NoneHanded(freq: seq<nat>, w: seq<Weight>, row: seq<nat>, h: nat, lens: seq<byte>)
    requires |lens| >= |freq| == |w| && RowFor(row, |w|, h)
    ensures Handing(freq, w, row, h, lens, []) && TailTotal(w, [], h) == 0
  {
  }

  lemma RowReady(w: seq<Weight>, h: nat, row: seq<nat>)
    requires Modest(w) && FullRow(w, h, row) && |w| <= Pow2(h)
    ensures RowFor(row, |w|, h) && row[0] == |w| && row[h] == 0 && |row| == MAX_CODE_LENGTH + 1
    ensures forall d {:trigger row[d]} :: 1 <= d <= h ==> row[d] <= row[d - 1]
  {
    hide *;
    PackedRow(w, h, row);
    FullRowFor(w, h, row);
    RowOrder(row, |w|, h);
  }

  lemma PackedRow(w: seq<Weight>, h: nat, row: seq<nat>)
    requires Modest(w) && FullRow(w, h, row)
    ensures Sorted(w) && 2 <= |w| && 0 < h < |row| == MAX_CODE_LENGTH + 1 && 2 * |w| - 2 <= Size(|w|, h)
    ensures row == Row(w, h, 2 * |w| - 2) + Repeat(0, |row| - h)
  {
    hide Row, Size, Sorted;
  }

  lemma RowOrder(row: seq<nat>, n: nat, h: nat)
    requires RowFor(row, n, h)
    ensures h < |row| && row[0] == n && row[h] == 0
    ensures forall d {:trigger row[d]} :: 1 <= d <= h ==> row[d] <= row[d - 1]
  {
  }

  lemma SortingModest(freq: seq<nat>, leaf: seq<uint64>, w: seq<Weight>)
    requires Sorting(freq, leaf, w)
    ensures Modest(w) && |w| == |freq| && |leaf| == |w| + 1 && 3 <= |w| <= MAX_ALPHA_SIZE
  {
    hide Arranges, Sorted, PrefixSum;
  }

  /** Two bits per step between neighbouring lengths, five for the first and one for
      every symbol. */
  method TreeCost(length: array<byte>, n: nat) returns (cost: nat)
    requires 3 <= n <= length.Length && Within(length[..n], MAX_CODE_LENGTH)
    ensures cost == DeltaCost(length[..n]) + 5 + n
  {
    cost := 0;
    for symbol := 1 to n
      invariant cost == DeltaCost(length[..symbol])
    {
      var a: int, b: int := length[symbol - 1], length[symbol];
      cost := cost + 2 * (if a - b < b - a then b - a else a - b);
      assert length[..symbol + 1][..symbol] == length[..symbol];
    }
    cost := cost + 5 + n;
  }

  /** The lengths for one height, and what they cost. */
  method TryHeight(length: array<byte>, leaf: array<uint64>, row: seq<nat>, h: nat, n: nat,
                   ghost freq: seq<nat>, ghost w: seq<Weight>)
    returns (cost: nat, ghost l: seq<nat>)
    requires n == |freq| == |w| < leaf.Length && n <= length.Length && Sorting(freq, leaf[..n + 1], w)
    requires 1 <= h <= MAX_CODE_LENGTH && FullRow(w, h, row) && n <= Pow2(h)
    modifies length
    ensures RowCode(freq, w, h, length[..n], l) && n <= MAX_ALPHA_SIZE && cost == CodeCost(freq, length[..n]) < M1
    ensures length[..][n..] == old(length[..][n..])
  {
    hide Sorting, RowCode, FullRow, RowFor, Handing, TailTotal, CodeCost, DeltaCost, Pow2, Within, Modest;
    SortingModest(freq, leaf[..n + 1], w);
    RowReady(w, h, row);
    cost, l := 0, [];
    var at := 0;
    NoneHanded(freq, w, row, h, length[..]);
    for depth := 1 to h + 1
      invariant RowFor(row, n, h) && Handing(freq, w, row, h, length[..], l) && |l| == at == n - row[depth - 1] <= n
      invariant TailTotal(w, l, h) == cost
      invariant length[..][n..] == old(length[..][n..])
    {
      var part;
      part, at, l := FillDepth(length, leaf, n, depth, row[depth - 1] - row[depth], at, freq, w, row, h, l);
      cost := cost + part;
    }
    HandedOut(freq, leaf[..n + 1], w, row, h, length[..], l);
    assert length[..][..n] == length[..n];
    HeightCost(freq, leaf[..n + 1], w, h, length[..n], l, cost);
    var tree := TreeCost(length, n);
    cost := cost + tree;
  }

  lemma HeightCost(freq: seq<nat>, leaf: seq<uint64>, w: seq<Weight>, h: nat, lens: seq<nat>, l: seq<nat>, cost: nat)
    requires Sorting(freq, leaf, w) && RowCode(freq, w, h, lens, l) && 1 <= h <= MAX_CODE_LENGTH && |w| <= Pow2(h)
    requires |l| == |w| && TailTotal(w, l, h) == cost
    ensures Within(lens, MAX_CODE_LENGTH) && |freq| <= MAX_ALPHA_SIZE
    ensures CodeCost(freq, lens) == cost + DeltaCost(lens) + 5 + |freq| < M1
  {
    hide Sorting, RowCode, Total, Space, Pow2, DeltaCost, Times;
    RowCodeComplete(freq, leaf, w, h, lens, l);
    RowParts(freq, leaf, w, h, lens, l);
    assert w[0..] == w;
    DeltaBound(lens);
    TotalBound(w, l, h);
    SortingSum(freq, leaf, w);
    TimesBound(PrefixSum(w, |w|), h);
  }

  lemma TimesBound(a: nat, h: nat)
    requires a <= TOTAL && h <= MAX_CODE_LENGTH
    ensures Times(a, h) <= TOTAL * MAX_CODE_LENGTH
  {
    MulMonotone(a, TOTAL, h);
    MulMonotone(h, MAX_CODE_LENGTH, TOTAL);
  }

  lemma SortingSum(freq: seq<nat>, leaf: seq<uint64>, w: seq<Weight>)
    requires Sorting(freq, leaf, w)
    ensures PrefixSum(w, |w|) <= TOTAL
  {
    ArrangedModest(freq, w);
  }

  /** The code after `d` lengths have been taken from the row. */
  function NextCode(row: seq<nat>, d: nat): int
    requires d < |row|
  {
    if d == 0 then 0 else 2 * (NextCode(row, d - 1) + row[d - 1] - row[d])
  }

  lemma {:induction false} FirstByRow(lens: seq<byte>, row: seq<nat>, h: nat, d: nat)
    requires 1 <= d <= h < |row|
    requires forall k {:trigger row[k]} :: 1 <= k <= h ==> row[k] <= row[k - 1] && Count(lens, k) == row[k - 1] - row[k]
    ensures FirstCode(lens, d) == NextCode(row, d - 1)
    ensures NextCode(row, d) == 2 * (FirstCode(lens, d) + Count(lens, d))
    decreases d
  {
    hide Count;
    if d > 1 { FirstByRow(lens, row, h, d - 1); }
    var x := row[d];
  }

  /** When a code of height `h` is complete, the code after its last one is `2^(h + 1)`. */
  lemma LastCode(lens: seq<byte>, h: nat)
    requires 1 <= h <= MAX_CODE_LENGTH && Within(lens, h) && Space(lens, h) == Pow2(h)
    ensures 2 * (FirstCode(lens, h) + Count(lens, h)) == Pow2(h + 1)
    ensures Start(lens, MAX_CODE_LENGTH + 1) == Pow2(MAX_CODE_LENGTH)
  {
    hide Space, FirstCode, Count, Pow2, Start, Times;
    StartIsSpace(lens);
    SpaceMultiple(lens, h, MAX_CODE_LENGTH);
    Pow2Add(h, MAX_CODE_LENGTH - h);
    StartEnds(lens, h, MAX_CODE_LENGTH + 1);
    CodesAfter(lens, h);
    PowerProduct(Pow2(h), Pow2(MAX_CODE_LENGTH - h));
    SameFactor(FirstCode(lens, h) + Count(lens, h), Pow2(h), Pow2(MAX_CODE_LENGTH - h));
    Doubles(h);
  }

  lemma PowerProduct(a: nat, b: nat)
    ensures Times(a, b) == a * b
  {
  }

  /** Where the codes longer than `h` start. */
  lemma CodesAfter(lens: seq<byte>, h: nat)
    requires 1 <= h <= MAX_CODE_LENGTH
    ensures Start(lens, h + 1) == Times(FirstCode(lens, h) + Count(lens, h), Pow2(MAX_CODE_LENGTH - h))
  {
    hide FirstCode, Count, Pow2;
    StartNext(lens, h);
    StartFirst(lens, h);
    hide Start;
    Distribute(FirstCode(lens, h), Count(lens, h), Pow2(MAX_CODE_LENGTH - h));
  }

  lemma Doubles(h: nat)
    ensures Pow2(h + 1) == 2 * Pow2(h)
  {
  }

  lemma SameFactor(a: nat, b: nat, p: nat)
    requires Times(a, p) == Times(b, p) && p > 0
    ensures a == b
  {
    assert a < b ==> a * p + p <= b * p;
    assert b < a ==> b * p + p <= a * p;
  }

  lemma {:induction false} StartEnds(lens: seq<byte>, h: nat, k: nat)
    requires 1 <= h < k <= MAX_CODE_LENGTH + 1 && Within(lens, h)
    ensures Start(lens, k) == Start(lens, h + 1)
    decreases k
  {
    if k > h + 1 {
      StartEnds(lens, h, k - 1);
      NoneOf(lens, k - 1);
      assert Times(0, Pow2(MAX_CODE_LENGTH - (k - 1))) == 0;
    }
  }

  lemma {:induction false} NoneOf(lens: seq<byte>, k: nat)
    requires forall t :: 0 <= t < |lens| ==> lens[t] < k
    ensures Count(lens, k) == 0
    decreases |lens|
  {
    if lens != [] { NoneOf(lens[..|lens| - 1], k); }
  }

  /** Hands out the lengths of the chosen height, and the first code of each length. */
  method FinalLengths(length: array<byte>, base: array<nat>, leaf: array<uint64>, row: seq<nat>, h: nat, n: nat,
                      ghost freq: seq<nat>, ghost w: seq<Weight>)
    returns (ghost l: seq<nat>)
    requires n == |freq| == |w| < leaf.Length && n <= length.Length && Sorting(freq, leaf[..n + 1], w)
    requires 1 <= h <= MAX_CODE_LENGTH < base.Length && FullRow(w, h, row) && n <= Pow2(h)
    modifies length, base
    ensures RowCode(freq, w, h, length[..n], l)
    ensures forall d {:trigger base[d]} :: 1 <= d <= h ==> base[d] == FirstCode(length[..n], d)
    ensures length[..][n..] == old(length[..][n..])
  {
    hide Sorting, RowCode, FullRow, RowFor, Handing, TailTotal, CodeCost, DeltaCost, Pow2, Within, Modest, NextCode;
    SortingModest(freq, leaf[..n + 1], w);
    RowReady(w, h, row);
    l := [];
    var at := 0;
    var nextCode := 0;
    NoneHanded(freq, w, row, h, length[..]);
    NextCodeStep(row, 0);
    for depth := 1 to h + 1
      invariant RowFor(row, n, h) && Handing(freq, w, row, h, length[..], l) && |l| == at == n - row[depth - 1] <= n
      invariant nextCode == NextCode(row, depth - 1)
      invariant forall d {:trigger base[d]} :: 1 <= d < depth ==> base[d] == NextCode(row, d - 1)
      invariant length[..][n..] == old(length[..][n..])
    {
      var avail := row[depth - 1] - row[depth];
      NextCodeStep(row, depth);
      base[depth] := nextCode;
      nextCode := 2 * (nextCode + avail);
      var part;
      part, at, l := FillDepth(length, leaf, n, depth, avail, at, freq, w, row, h, l);
    }
    HandedOut(freq, leaf[..n + 1], w, row, h, length[..], l);
    assert length[..][..n] == length[..n];
    assert at == n;
    FirstCodes(freq, leaf[..n + 1], w, row, h, length[..n], l);
    assert nextCode == Pow2(h + 1);
  }

  lemma NextCodeStep(row: seq<nat>, d: nat)
    requires d < |row| && (d > 0 ==> row[d] <= row[d - 1])
    ensures NextCode(row, d) == if d == 0 then 0 else 2 * (NextCode(row, d - 1) + (row[d - 1] - row[d]))
  {
  }

  lemma FirstCodes(freq: seq<nat>, leaf: seq<uint64>, w: seq<Weight>, row: seq<nat>, h: nat, lens: seq<byte>,
                   l: seq<nat>)
    requires Sorting(freq, leaf, w) && FullRow(w, h, row) && RowFor(row, |w|, h) && RowCode(freq, w, h, lens, l)
    requires 1 <= h <= MAX_CODE_LENGTH && |w| <= Pow2(h) && |row| == MAX_CODE_LENGTH + 1
    ensures forall d {:trigger FirstCode(lens, d)} :: 1 <= d <= h ==> FirstCode(lens, d) == NextCode(row, d - 1)
    ensures NextCode(row, h) == Pow2(h + 1)
  {
    hide Sorting, FullRow, RowFor, RowCode, Pow2, Count, FirstCode, NextCode;
    forall k {:trigger row[k]} | 1 <= k <= h ensures row[k] <= row[k - 1] && Count(lens, k) == row[k - 1] - row[k] {
      RowCount(freq, leaf, w, row, h, lens, l, k);
    }
    forall d {:trigger FirstCode(lens, d)} | 1 <= d <= h ensures FirstCode(lens, d) == NextCode(row, d - 1) {
      FirstByRow(lens, row, h, d);
    }
    FirstByRow(lens, row, h, h);
    RowCodeComplete(freq, leaf, w, h, lens, l);
    LastCode(lens, h);
  }

  /** Codes in the order of symbols. */
  method NumberCodes(code: array<nat>, length: array<byte>, base: array<nat>, h: nat, n: nat)
    requires n <= code.Length && n <= length.Length && h < base.Length && code != base
    requires forall s {:trigger length[s]} :: 0 <= s < n ==> 1 <= length[s] <= h
    requires forall d {:trigger base[d]} :: 1 <= d <= h ==> base[d] == FirstCode(length[..n], d)
    modifies code, base
    ensures forall s {:trigger code[s]} :: 0 <= s < n ==> code[s] == Code(length[..n], s)
    ensures code[..][n..] == old(code[..][n..])
  {
    ghost var lens := length[..n];
    hide FirstCode, Count, Code;
    forall d {:trigger base[d]} | 1 <= d <= h ensures base[d] == NextOf(lens, 0, d) { NoneYet(lens, d); }
    for symbol := 0 to n
      invariant forall s {:trigger code[s]} :: 0 <= s < symbol ==> code[s] == Code(lens, s)
      invariant forall d {:trigger base[d]} :: 1 <= d <= h ==> base[d] == NextOf(lens, symbol, d)
      invariant code[..][n..] == old(code[..][n..])
    {
      var k: nat := length[symbol];
      ghost var before := base[..];
      CodeIsNext(lens, symbol);
      code[symbol] := base[k];
      base[k] := base[k] + 1;
      forall d {:trigger base[d]} | 1 <= d <= h ensures base[d] == NextOf(lens, symbol + 1, d) {
        assert base[d] == if d == k then before[d] + 1 else before[d];
        NextOfStep(lens, symbol, d);
      }
    }
  }

  /** The next code of length `d` after `s` symbols. */
  function NextOf(lens: seq<byte>, s: nat, d: nat): nat
    requires s <= |lens|
  {
    FirstCode(lens, d) + Count(lens[..s], d)
  }

  lemma NoneYet(lens: seq<byte>, d: nat)
    ensures NextOf(lens, 0, d) == FirstCode(lens, d)
  {
    assert lens[..0] == [];
  }

  lemma CodeIsNext(lens: seq<byte>, s: nat)
    requires s < |lens|
    ensures Code(lens, s) == NextOf(lens, s, lens[s])
  {
  }

  lemma NextOfStep(lens: seq<byte>, s: nat, d: nat)
    requires s < |lens|
    ensures NextOf(lens, s + 1, d) == NextOf(lens, s, d) + if lens[s] as int == d then 1 else 0
  {
    assert lens[..s + 1] == lens[..s] + [lens[s]];
    CountLast(lens[..s], lens[s], d);
  }

  // ----- the best height -----

  /** No height from 2 up to `last` that suffices has a code cheaper than `cost`. */
  ghost predicate NoneCheaper(freq: seq<nat>, w: seq<Weight>, last: nat, cost: nat) {
    && |freq| <= MAX_ALPHA_SIZE
    && forall h, lens, l {:trigger RowCode(freq, w, h, lens, l)} ::
         2 <= h < last && |freq| <= Pow2(h) && RowCode(freq, w, h, lens, l) ==> cost <= CodeCost(freq, lens)
  }

  /** Height `last` would not be used in full. */
  ghost predicate Slack(w: seq<Weight>, last: nat) {
    && last > 0 && 2 * |w| - 2 >= 0 && 2 * |w| - 2 <= Size(|w|, last)
    && Row(w, last, 2 * |w| - 2)[last - 1] == 0
  }

  /** What is known about the best of the heights below `next`. */
  ghost predicate BestSoFar(freq: seq<nat>, w: seq<Weight>, next: nat, cost: nat, h: nat, lens: seq<byte>, l: seq<nat>) {
    && NoneCheaper(freq, w, next, cost)
    && if next > 2 && |freq| <= Pow2(next - 1) then
         && 2 <= h < next && |freq| <= Pow2(h) && RowCode(freq, w, h, lens, l) && cost == CodeCost(freq, lens)
       else cost == M1
  }

  lemma Skipped(freq: seq<nat>, w: seq<Weight>, next: nat, cost: nat, h: nat, lens: seq<byte>, l: seq<nat>)
    requires 2 <= next && BestSoFar(freq, w, next, cost, h, lens, l) && Pow2(next) < |freq|
    ensures BestSoFar(freq, w, next + 1, cost, h, lens, l)
  {
    hide RowCode, CodeCost;
    Pow2Monotone(next - 1, next);
  }

  lemma Tried(freq: seq<nat>, leaf: seq<uint64>, w: seq<Weight>, next: nat, cost: nat, h: nat, lens: seq<byte>, l: seq<nat>,
              cost': nat, lens': seq<byte>, l': seq<nat>)
    requires Sorting(freq, leaf, w)
    requires 2 <= next && BestSoFar(freq, w, next, cost, h, lens, l) && |freq| <= Pow2(next) && |freq| <= MAX_ALPHA_SIZE
    requires RowCode(freq, w, next, lens', l') && cost' == CodeCost(freq, lens') < M1
    ensures if cost' < cost then BestSoFar(freq, w, next + 1, cost', next, lens', l')
            else BestSoFar(freq, w, next + 1, cost, h, lens, l)
  {
    forall k, z {:trigger RowCode(freq, w, next, k, z)} | RowCode(freq, w, next, k, z)
      ensures cost' == CodeCost(freq, k)
    {
      RowCodeOnce(freq, w, next, lens', l', k, z);
    }
    hide RowCode, CodeCost, Sorting;
  }

  /** The first height that suffices is used in full, so a height that is not comes after
      one that was tried. */
  lemma ShallowRow(freq: seq<nat>, leaf: seq<uint64>, w: seq<Weight>, row: seq<nat>, h: nat)
    requires Sorting(freq, leaf, w) && FullRow(w, h, row) && RowFor(row, |w|, h) && 2 <= h <= MAX_CODE_LENGTH
    requires |w| <= Pow2(h) && row[h - 1] == 0
    ensures Slack(w, h)
  {
    var r := Row(w, h, 2 * |w| - 2);
    assert r[h - 1] == row[h - 1];
  }

  /** If a height would not be used in full, no greater one has a cheaper code either. */
  lemma SlackSuffices(freq: seq<nat>, leaf: seq<uint64>, w: seq<Weight>, last: nat, cost: nat)
    requires Sorting(freq, leaf, w) && NoneCheaper(freq, w, last, cost) && Slack(w, last)
    requires 2 < last && |freq| <= Pow2(last - 1)
    ensures NoneCheaper(freq, w, MAX_CODE_LENGTH + 1, cost)
  {
    forall h, lens, l {:trigger RowCode(freq, w, h, lens, l)} |
      2 <= h < MAX_CODE_LENGTH + 1 && |freq| <= Pow2(h) && RowCode(freq, w, h, lens, l)
      ensures cost <= CodeCost(freq, lens)
    {
      if h >= last {
        hide RowCode, CodeCost, Sorting;
        SameCode(freq, leaf, w, last, h, lens, l);
      }
    }
  }

  lemma SameCode(freq: seq<nat>, leaf: seq<uint64>, w: seq<Weight>, last: nat, h: nat, lens: seq<nat>, l: seq<nat>)
    requires Sorting(freq, leaf, w) && Slack(w, last) && 2 < last <= h && |freq| <= Pow2(last - 1)
    requires RowCode(freq, w, h, lens, l)
    ensures RowCode(freq, w, last - 1, lens, l)
  {
    hide Sorting, Size, Row, Describes, LengthsOf, Pow2, Repeat;
    RowParts(freq, leaf, w, h, lens, l);
    Pow2Monotone(last - 1, last);
    DeeperRow(w, last, h);
    DescribesFront(Row(w, last - 1, 2 * |w| - 2), h - last + 1, l);
  }

  /** Zeros at the end of a row describe no leaves. */
  lemma DescribesFront(r: seq<nat>, k: nat, l: seq<nat>)
    requires k > 0 && Describes(r + Repeat(0, k), l)
    ensures Describes(r, l)
  {
    var s := r + Repeat(0, k);
    assert s[|r|] == 0;
    forall t, x {:trigger l[t], r[x]} | 0 <= t < |l| && 0 <= x < |r| ensures l[t] > x <==> t < r[x] { assert s[x] == r[x]; }
    forall t | 0 <= t < |l| ensures l[t] <= |r| { assert l[t] > |r| <==> t < s[|r|]; }
  }

  /** The first height that suffices is used in full. */
  lemma FirstIsFull(w: seq<Weight>, row: seq<nat>, h: nat)
    requires Modest(w) && FullRow(w, h, row) && 2 <= h && |w| <= Pow2(h) && row[h - 1] == 0
    ensures h > 2 && |w| <= Pow2(h - 1)
  {
    hide *;
    PackedRow(w, h, row);
    var n, r := |w|, Row(w, h, 2 * |w| - 2);
    assert r[h - 1] == 0;
    RowWidth(w, h, 2 * n - 2);
    RowDescends(w, h, 2 * n - 2);
    RowHead(w, h, 2 * n - 2);
    FrontWidth(r, n);
    Fewer(n, Pow2(h - 1));
    NotFirst(w, h);
  }

  lemma NotFirst(w: seq<Weight>, h: nat)
    requires Modest(w) && 2 <= h && |w| <= Pow2(h - 1)
    ensures h > 2
  {
    assert Pow2(1) == 2;
  }

  lemma FrontWidth(r: seq<nat>, n: nat)
    requires r != [] && Descending(r) && r[0] <= n && r[|r| - 1] == 0
    ensures Width(r) + 2 * n <= 2 * Times(n, Pow2(|r| - 1))
  {
    WidthBound(r[..|r| - 1], n);
  }

  lemma Fewer(n: nat, p: nat)
    requires n >= 1 && Times(2 * n - 2, p) + 2 * n <= 2 * Times(n, p)
    ensures n <= p
  {
    assert (2 * n - 2) * p == 2 * (n * p) - 2 * p;
  }

  ghost predicate Rows(w: seq<Weight>, tree: seq<seq<nat>>) {
    && |tree| == MAX_CODE_LENGTH + 1
    && forall h {:trigger tree[h]} :: 1 <= h <= MAX_CODE_LENGTH && |w| <= Pow2(h) ==> FullRow(w, h, tree[h])
  }

  /** Tries the heights until one is not used in full. */
  method BestHeight(length: array<byte>, leaf: array<uint64>, tree: array<seq<nat>>, n: nat,
                    ghost freq: seq<nat>, ghost w: seq<Weight>)
    returns (bestCost: nat, bestHeight: nat, ghost last: nat, ghost lens: seq<byte>, ghost l: seq<nat>)
    requires n == |freq| == |w| < leaf.Length && n <= length.Length && Sorting(freq, leaf[..n + 1], w)
    requires Rows(w, tree[..])
    modifies length
    ensures 2 < last <= MAX_CODE_LENGTH + 1 && BestSoFar(freq, w, last, bestCost, bestHeight, lens, l)
    ensures n <= Pow2(last - 1) && (last <= MAX_CODE_LENGTH ==> Slack(w, last))
    ensures length[..][n..] == old(length[..][n..])
  {
    hide Sorting, RowCode, FullRow, RowFor, CodeCost, Within, Modest, BestSoFar, Slack, Pow2;
    SortingModest(freq, leaf[..n + 1], w);
    bestCost, bestHeight, lens, l := M1, MAX_CODE_LENGTH, [], [];
    NothingTried(freq, w, bestHeight);
    last := MAX_CODE_LENGTH + 1;
    DeepEnough(n);
    for height := 2 to MAX_CODE_LENGTH + 1
      invariant last == MAX_CODE_LENGTH + 1
      invariant BestSoFar(freq, w, height, bestCost, bestHeight, lens, l)
      invariant length[..][n..] == old(length[..][n..])
    {
      if Pow2(height) < n {
        Skipped(freq, w, height, bestCost, bestHeight, lens, l);
        continue;
      }
      var row := tree[height];
      RowReady(w, height, row);
      if row[height - 1] == 0 {
        FirstIsFull(w, row, height);
        ShallowRow(freq, leaf[..n + 1], w, row, height);
        last := height;
        break;
      }
      var cost;
      ghost var l';
      cost, l' := TryHeight(length, leaf, row, height, n, freq, w);
      Tried(freq, leaf[..n + 1], w, height, bestCost, bestHeight, lens, l, cost, length[..n], l');
      if cost < bestCost {
        bestCost, bestHeight, lens, l := cost, height, length[..n], l';
      }
    }
  }

  lemma NothingTried(freq: seq<nat>, w: seq<Weight>, h: nat)
    requires |freq| <= MAX_ALPHA_SIZE
    ensures BestSoFar(freq, w, 2, M1, h, [], [])
  {
  }

  lemma DeepEnough(n: nat)
    requires n <= MAX_ALPHA_SIZE
    ensures n <= Pow2(MAX_CODE_LENGTH)
  {
    Powers.Pow2Constants();
  }

  /** Assigns a canonical prefix code to `n` symbols, and returns the bits it takes to
      transmit the code and everything it codes. */
  method AssignCodes(code: array<nat>, length: array<byte>, frequency: array<nat>, n: nat)
    returns (bestCost: nat, ghost w: seq<Weight>, ghost height: nat, ghost l: seq<nat>)
    requires MIN_ALPHA_SIZE <= n <= MAX_ALPHA_SIZE
    requires n <= code.Length && n <= length.Length && n <= frequency.Length && SumOf(frequency[..n]) <= TOTAL
    requires code != frequency
    modifies code, length
    ensures Arranges(frequency[..n], w) && RowCode(frequency[..n], w, height, length[..n], l)
    ensures 2 <= height <= MAX_CODE_LENGTH && n <= Pow2(height)
    ensures bestCost == CodeCost(frequency[..n], length[..n]) && NoneCheaper(frequency[..n], w, MAX_CODE_LENGTH + 1, bestCost)
    ensures Complete(length[..n]) && forall s {:trigger code[s]} :: 0 <= s < n ==> code[s] == Code(length[..n], s)
    ensures Optimal(frequency[..n], length[..n], height)
    ensures code[..][n..] == old(code[..][n..]) && length[..][n..] == old(length[..][n..])
  {
    hide Sorting, RowCode, FullRow, RowFor, CodeCost, Within, Modest, BestSoFar, Slack, Pow2, Optimal, NoneCheaper;
    ghost var freq := frequency[..n];
    var leaf;
    leaf, w := SortLeaves(frequency, n);
    SortingOf(freq, leaf[..n + 1], w);
    SortingModest(freq, leaf[..n + 1], w);
    var tree := new seq<nat>[MAX_CODE_LENGTH + 1](_ => Repeat(0, MAX_CODE_LENGTH + 1));
    var count := new nat[32](_ => 0);
    Merge(tree, count, leaf, n, w);
    ghost var lens, best;
    var bestHeight: nat;
    ghost var last;
    bestCost, bestHeight, last, lens, best := BestHeight(length, leaf, tree, n, freq, w);
    BestKnown(freq, w, last, bestCost, bestHeight, lens, best);
    if last <= MAX_CODE_LENGTH { SlackSuffices(freq, leaf[..n + 1], w, last, bestCost); }
    var base := new nat[MAX_CODE_LENGTH + 1](_ => 0);
    l := FinalLengths(length, base, leaf, tree[bestHeight], bestHeight, n, freq, w);
    Final(freq, leaf[..n + 1], w, bestHeight, lens, best, length[..n], l);
    WithinAt(length[..n], bestHeight, n);
    assert forall s {:trigger length[s]} :: 0 <= s < n ==> length[s] == length[..n][s];
    NumberCodes(code, length, base, bestHeight, n);
    height := bestHeight;
  }

  lemma SortingOf(freq: seq<nat>, leaf: seq<uint64>, w: seq<Weight>)
    requires MIN_ALPHA_SIZE <= |freq| && SumOf(freq) <= TOTAL && Arranges(freq, w) && LeafWeights(leaf, w)
    ensures Sorting(freq, leaf, w)
  {
    hide LeafWeights, SumOf;
    ArrangedSize(freq, w);
  }

  lemma WithinAt(lens: seq<nat>, h: nat, n: nat)
    requires Within(lens, h) && n <= |lens|
    ensures forall s {:trigger lens[s]} :: 0 <= s < n ==> 1 <= lens[s] <= h
  {
  }

  lemma BestKnown(freq: seq<nat>, w: seq<Weight>, last: nat, cost: nat, h: nat, lens: seq<byte>, l: seq<nat>)
    requires last > 2 && BestSoFar(freq, w, last, cost, h, lens, l) && |freq| <= Pow2(last - 1)
    ensures 2 <= h < last && |freq| <= Pow2(h) && |freq| <= MAX_ALPHA_SIZE
    ensures NoneCheaper(freq, w, last, cost)
    ensures RowCode(freq, w, h, lens, l) && |lens| == |freq| && cost == CodeCost(freq, lens)
  {
  }

  lemma Final(freq: seq<nat>, leaf: seq<uint64>, w: seq<Weight>, h: nat, lens: seq<byte>, l: seq<nat>,
              lens': seq<byte>, l': seq<nat>)
    requires Sorting(freq, leaf, w) && 1 <= h <= MAX_CODE_LENGTH && |w| <= Pow2(h)
    requires RowCode(freq, w, h, lens, l) && RowCode(freq, w, h, lens', l')
    ensures lens == lens' && Complete(lens) && Within(lens, h) && |freq| <= MAX_ALPHA_SIZE
    ensures Optimal(freq, lens, h)
  {
    hide *;
    RowParts(freq, leaf, w, h, lens, l);
    RowCodeOnce(freq, w, h, lens, l, lens', l');
    RowCodeComplete(freq, leaf, w, h, lens, l);
    LastCode(lens, h);
    WithinLengths(lens, h);
    FinalOptimal(freq, leaf, w, h, lens, l);
  }

  lemma WithinLengths(lens: seq<byte>, h: nat)
    requires 3 <= |lens| <= MAX_ALPHA_SIZE && h <= MAX_CODE_LENGTH && Within(lens, h)
    requires Start(lens, MAX_CODE_LENGTH + 1) == Pow2(MAX_CODE_LENGTH)
    ensures Complete(lens)
  {
    hide Start, Pow2;
  }

  lemma FinalOptimal(freq: seq<nat>, leaf: seq<uint64>, w: seq<Weight>, h: nat, lens: seq<byte>, l: seq<nat>)
    requires Sorting(freq, leaf, w) && 1 <= h <= MAX_CODE_LENGTH && |w| <= Pow2(h)
    requires RowCode(freq, w, h, lens, l) && |lens| == |freq| <= MAX_ALPHA_SIZE
    ensures Optimal(freq, lens, h)
  {
    hide Sorting, RowCode, Space, Total, Pow2, Arranges, Within;
    forall other: seq<nat> | |other| == |freq| && Within(other, h) && Space(other, h) <= Pow2(h)
      ensures Total(AllLeaves(freq), lens, MAX_CODE_LENGTH) <= Total(AllLeaves(freq), other, MAX_CODE_LENGTH)
    {
      RowCodeOptimal(freq, leaf, w, h, lens, l, other);
    }
  }

  /** No prefix code with lengths 1 to `h` takes fewer bits for the symbols. */
  ghost predicate Optimal(freq: seq<nat>, lens: seq<nat>, h: nat) {
    && |lens| == |freq| <= MAX_ALPHA_SIZE
    && forall other: seq<nat> {:trigger Space(other, h)} ::
         |other| == |freq| && Within(other, h) && Space(other, h) <= Pow2(h) ==>
           Total(AllLeaves(freq), lens, MAX_CODE_LENGTH) <= Total(AllLeaves(freq), other, MAX_CODE_LENGTH)
  }
}
