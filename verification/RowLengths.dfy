/** Code lengths read off a row of package merge, longest codes first. */
module RowLengths {
  import opened Common
  import opened Powers
  import opened PackageMerge
  import opened PackageRows
  import opened CodeLengths
  import opened Alphabet

  /** A row of counts: `n` leaves at least one level deep, none deeper than `h`. */
  ghost predicate RowFor(row: seq<nat>, n: nat, h: nat) {
    && h < |row| && row[0] == n && row[h] == 0
    && forall x, y {:trigger row[x], row[y]} :: 0 <= x <= y <= h ==> row[y] <= row[x]
  }

  /** The lengths of the last `|l|` of `n` leaves, as the row has them. */
  ghost predicate Suffix(row: seq<nat>, n: nat, h: nat, l: seq<nat>) {
    && |l| <= n && h < |row|
    && (forall j {:trigger l[j]} :: 0 <= j < |l| ==> 1 <= l[j] <= h)
    && forall j, x {:trigger l[j], row[x]} :: 0 <= j < |l| && 0 <= x < h ==>
         (l[j] > x <==> n - |l| + j < row[x])
  }

  lemma SuffixNext(row: seq<nat>, n: nat, h: nat, l: seq<nat>, d: nat)
    requires RowFor(row, n, h) && Suffix(row, n, h, l) && 1 <= d <= h && |l| < n
    requires row[d] < n - |l| <= row[d - 1]
    ensures Suffix(row, n, h, [d] + l)
  {
    var l' := [d] + l;
    forall j, x {:trigger l'[j], row[x]} | 0 <= j < |l'| && 0 <= x < h
      ensures l'[j] > x <==> n - |l'| + j < row[x]
    {
      if j > 0 {
        assert l'[j] == l[j - 1];
      } else if x < d {
        assert row[d - 1] <= row[x];
      } else {
        assert row[x] <= row[d];
      }
    }
  }

  /** The leaves of the last `|l|` lengths have them. */
  ghost predicate Given(w: seq<Weight>, lens: seq<nat>, l: seq<nat>) {
    && |l| <= |w|
    && forall j {:trigger l[j]} :: 0 <= j < |l| ==> Has(lens, w[|w| - |l| + j], l[j])
  }

  lemma GivenNext(freq: seq<nat>, w: seq<Weight>, lens: seq<nat>, l: seq<nat>, d: nat)
    requires Arranges(freq, w) && |lens| >= |freq| && Given(w, lens, l) && |l| < |w|
    ensures 0 <= SymbolOf(w[|w| - |l| - 1]) < |freq|
    ensures Given(w, lens[SymbolOf(w[|w| - |l| - 1]) := d], [d] + l)
  {
    var t := |w| - |l| - 1;
    ArrangedLeaf(freq, w, t);
    hide Arranges;
    var s := SymbolOf(w[t]);
    var lens', l' := lens[s := d], [d] + l;
    forall j {:trigger l'[j]} | 0 <= j < |l'| ensures Has(lens', w[|w| - |l'| + j], l'[j]) {
      if j > 0 {
        assert Has(lens, w[t + j], l[j - 1]);
        ArrangedOnce(freq, w, t, t + j);
      }
    }
  }

  lemma GivenAll(freq: seq<nat>, w: seq<Weight>, lens: seq<nat>, l: seq<nat>)
    requires Arranges(freq, w) && |lens| >= |freq| && Given(w, lens, l) && |l| == |w|
    ensures |w| == |freq| && LengthsOf(w, lens[..|freq|], l)
  {
    ArrangedSize(freq, w);
    hide Arranges;
    forall t {:trigger l[t]} | 0 <= t < |w| ensures Has(lens[..|freq|], w[t], l[t]) {
      assert Has(lens, w[t], l[t]);
      ArrangedLeaf(freq, w, t);
    }
  }

  /** What the last `|l|` leaves cost. */
  function TailTotal(w: seq<Weight>, l: seq<nat>, h: nat): nat
    requires |l| <= |w|
  {
    Total(w[|w| - |l|..], l, h)
  }

  lemma {:induction false} TotalFront(w: seq<Weight>, l: seq<nat>, h: nat)
    requires 0 < |l| == |w|
    ensures Total(w, l, h) == Times(w[0].freq, Min(l[0], h)) + Total(w[1..], l[1..], h)
    decreases |l|
  {
    TotalPrefix(w, l, h);
    if |l| > 1 {
      var n := |l| - 1;
      TotalFront(w[..n], l[..n], h);
      TotalPrefix(w[1..], l[1..], h);
      assert w[..n][1..] == w[1..][..n - 1] && l[..n][1..] == l[1..][..n - 1];
    }
  }

  lemma TailNext(w: seq<Weight>, l: seq<nat>, d: nat, h: nat)
    requires |l| < |w| && d <= h
    ensures TailTotal(w, [d] + l, h) == Times(w[|w| - |l| - 1].freq, d) + TailTotal(w, l, h)
  {
    var v := w[|w| - |l| - 1..];
    TotalFront(v, [d] + l, h);
    assert v[1..] == w[|w| - |l|..] && ([d] + l)[1..] == l;
  }

  lemma {:induction false} TotalBound(w: seq<Weight>, l: seq<nat>, h: nat)
    requires |l| <= |w|
    ensures Total(w, l, h) <= Times(PrefixSum(w, |l|), h)
    decreases |l|
  {
    if l != [] {
      TotalBound(w, l[..|l| - 1], h);
      TimesMonotone(w[|l| - 1].freq, Min(l[|l| - 1], h), h);
      Distribute(PrefixSum(w, |l| - 1), w[|l| - 1].freq, h);
    }
  }

  // ----- a full row -----

  /** A full row counts leaves level by level, down to none. */
  lemma FullRowFor(w: seq<Weight>, h: nat, row: seq<nat>)
    requires Sorted(w) && 2 <= |w| <= Pow2(h) && h > 0
    requires 2 * |w| - 2 <= Size(|w|, h) && h < |row| && row == Row(w, h, 2 * |w| - 2) + Repeat(0, |row| - h)
    ensures RowFor(row, |w|, h)
  {
    hide *;
    RowFull(w, h);
    RowDescends(w, h, 2 * |w| - 2);
    RowHead(w, h, 2 * |w| - 2);
    PaddedRow(Row(w, h, 2 * |w| - 2), row, |w|, h);
  }

  lemma PaddedRow(r: seq<nat>, row: seq<nat>, n: nat, h: nat)
    requires |r| == h > 0 && Descending(r) && r[0] == n && h < |row| && row == r + Repeat(0, |row| - h)
    ensures RowFor(row, n, h)
  {
  }

  lemma RowHead(w: seq<Weight>, h: nat, m: nat)
    requires h > 0 && m <= Size(|w|, h)
    ensures Row(w, h, m)[0] == Leaves(w, h, m)
  {
  }

  /** All leaves done, the row describes their lengths. */
  lemma SuffixDescribes(row: seq<nat>, n: nat, h: nat, l: seq<nat>)
    requires Suffix(row, n, h, l) && |l| == n
    ensures Describes(row[..h], l)
  {
    forall t, x {:trigger l[t], row[..h][x]} | 0 <= t < |l| && 0 <= x < h ensures l[t] > x <==> t < row[..h][x] {
      assert row[..h][x] == row[x];
    }
  }

  /** A row describes only one sequence of lengths. */
  lemma DescribesOnce(r: seq<nat>, l: seq<nat>, k: seq<nat>)
    requires Describes(r, l) && Describes(r, k) && |l| == |k|
    ensures l == k
  {
    forall t | 0 <= t < |l| ensures l[t] == k[t] {
      var x := Min(l[t], k[t]);
      assert x < |r| ==> (l[t] > x <==> t < r[x]);
    }
  }

}
