/** Rows: how many leaves each level contributes to a prefix of the top level, and the
    code lengths a row stands for. */
module PackageRows {
  import opened Powers
  import opened PackageMerge

  /** The numbers of leaves among the items that the first `m` items of level `d` reach
      down to, from the top level to the bottom one. */
  function Row(w: seq<Weight>, d: nat, m: nat): (r: seq<nat>)
    requires m <= Size(|w|, d)
    ensures |r| == d
    decreases d
  {
    if d == 0 then [] else [Leaves(w, d, m)] + Row(w, d - 1, 2 * (m - Leaves(w, d, m)))
  }

  lemma {:induction false} RowChoice(w: seq<Weight>, d: nat, m: nat)
    requires m <= Size(|w|, d)
    ensures Choice(w, Row(w, d, m)) && ChoiceCost(w, Row(w, d, m)) == Cost(w, d, m)
    decreases d
  {
    if d > 0 {
      hide Leaves, Size, PrefixSum, Choice;
      var i := Leaves(w, d, m);
      var k := 2 * (m - i);
      RowChoice(w, d - 1, k);
      ChoiceCons(w, i, Row(w, d - 1, k));
    }
  }

  lemma ChoiceCons(w: seq<Weight>, i: nat, c: seq<nat>)
    requires i <= |w| && Choice(w, c)
    ensures Choice(w, [i] + c) && ChoiceCost(w, [i] + c) == PrefixSum(w, i) + ChoiceCost(w, c)
  {
    assert ([i] + c)[1..] == c;
  }

  lemma Split(a: nat, m: nat, p: nat)
    requires a <= m
    ensures Times(a, 2 * p) + Times(2 * (m - a), p) == Times(m, 2 * p)
  {
  }

  lemma {:induction false} RowWidth(w: seq<Weight>, d: nat, m: nat)
    requires d > 0 && m <= Size(|w|, d)
    ensures Width(Row(w, d, m)) == Times(m, Pow2(d - 1))
    decreases d
  {
    var r, i := Row(w, d, m), Leaves(w, d, m);
    WidthFirst(r);
    assert r[1..] == Row(w, d - 1, 2 * (m - i));
    hide Leaves, Row, Size;
    if d > 1 {
      RowWidth(w, d - 1, 2 * (m - i));
      hide Width, Times;
      Split(i, m, Pow2(d - 2));
    } else {
      assert i == m;
    }
  }

  /** A package is heavier than whatever is no heavier than its second part. */
  lemma PackageHeavier(w: seq<Weight>, d: nat, p: nat, x: Weight)
    requires p < Size(|w|, d) / 2 && Leq(x, Item(w, d, 2 * p + 1))
    ensures !Leq(Package(w, d, p), x)
  {
    hide Item, Size, PackageFirst;
    AddHeavier(Item(w, d, 2 * p), Item(w, d, 2 * p + 1));
  }

  /** A level contributes no more leaves than the level above it. */
  lemma RowStep(w: seq<Weight>, d: nat, m: nat)
    requires Sorted(w) && d > 1 && m <= Size(|w|, d)
    ensures Leaves(w, d - 1, 2 * (m - Leaves(w, d, m))) <= Leaves(w, d, m)
  {
    var i := Leaves(w, d, m);
    var j := m - i;
    var k := 2 * j;
    if i < Leaves(w, d - 1, k) {
      hide Leaves, Item, Package, Leq, Size, Sorted;
      TakenLeaf(w, d - 1, k, i);
      PackageHeavier(w, d - 1, j - 1, w[i]);
      TakenPackage(w, d, m, j - 1);
    }
  }

  ghost predicate Descending(r: seq<nat>) {
    forall x, y :: 0 <= x <= y < |r| ==> r[y] <= r[x]
  }

  lemma {:induction false} RowDescends(w: seq<Weight>, d: nat, m: nat)
    requires Sorted(w) && m <= Size(|w|, d)
    ensures Descending(Row(w, d, m))
    decreases d
  {
    if d > 1 {
      var k := 2 * (m - Leaves(w, d, m));
      RowStep(w, d, m);
      RowDescends(w, d - 1, k);
      DescendingCons(Leaves(w, d, m), Row(w, d - 1, k));
    }
  }

  lemma DescendingCons(a: nat, r: seq<nat>)
    requires Descending(r) && (r == [] || r[0] <= a)
    ensures Descending([a] + r)
  {
    forall x, y | 0 <= x <= y < |[a] + r| ensures ([a] + r)[y] <= ([a] + r)[x] {
      if 0 == x < y { assert r[y - 1] <= r[0]; }
    }
  }

  lemma {:induction false} WidthBound(c: seq<nat>, k: nat)
    requires forall x :: 0 <= x < |c| ==> c[x] <= k
    ensures Width(c) + k <= Times(k, Pow2(|c|))
    decreases |c|
  {
    if c != [] {
      WidthBound(c[..|c| - 1], k);
      Twice(k, Pow2(|c| - 1));
    }
  }

  /** How far a level falls short of twice the number of leaves. */
  lemma {:induction false} Shortfall(n: nat, d: nat)
    requires n > 0 && d > 0
    ensures Size(n, d) < 2 * n
    ensures (2 * n - Size(n, d) - 1) * Pow2(d - 1) < n
    decreases d
  {
    if d > 1 {
      Shortfall(n, d - 1);
      var x, y, p := 2 * n - Size(n, d - 1), 2 * n - Size(n, d), Pow2(d - 2);
      assert 2 * (y - 1) <= x - 1;
      assert (y - 1) * (2 * p) == 2 * (y - 1) * p;
      MulMonotone(2 * (y - 1), x - 1, p);
    }
  }

  /** `2n - 2` items exist at every level deep enough for `n` codes. */
  lemma Enough(n: nat, h: nat)
    requires 2 <= n <= Pow2(h) && h > 0
    ensures 2 * n - 2 <= Size(n, h)
  {
    Shortfall(n, h);
    var y, p := 2 * n - Size(n, h), Pow2(h - 1);
    if y >= 3 { MulMonotone(2, y - 1, p); }
  }

  /** Those items include every leaf. */
  lemma RowFull(w: seq<Weight>, h: nat)
    requires Sorted(w) && 2 <= |w| <= Pow2(h) && h > 0
    ensures 2 * |w| - 2 <= Size(|w|, h)
    ensures Leaves(w, h, 2 * |w| - 2) == |w|
  {
    Enough(|w|, h);
    var r := RowFacts(w, h, 2 * |w| - 2);
    FullWidth(r, |w|, 2 * |w| - 2);
  }

  lemma RowFacts(w: seq<Weight>, h: nat, m: nat) returns (r: seq<nat>)
    requires Sorted(w) && h > 0 && m <= Size(|w|, h)
    ensures |r| == h && Descending(r) && r[0] == Leaves(w, h, m)
    ensures Width(r) == Times(m, Pow2(h - 1))
  {
    r := Row(w, h, m);
    RowDescends(w, h, m);
    RowWidth(w, h, m);
  }

  lemma FullWidth(r: seq<nat>, n: nat, m: nat)
    requires Descending(r) && r != [] && n >= 2 && r[0] <= n && m == 2 * (n - 1)
    requires Width(r) == Times(m, Pow2(|r| - 1))
    ensures r[0] == n
  {
    Twice(n - 1, Pow2(|r| - 1));
    if r[0] < n {
      WidthBound(r, n - 1);
    }
  }
}
