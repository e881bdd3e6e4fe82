/** Package merge: the lists of leaves and packages behind optimal length-limited
    codes.  Level `d` is the ascending merge of all leaves with the packages, that is
    pairs of neighbours, of level `d - 1`. */
module PackageMerge {
  import opened Powers

  /** A frequency; ties are broken by `rank`, whose upper part is the nesting depth of
      packages. */
  datatype Weight = Weight(freq: nat, rank: nat)

  predicate Leq(a: Weight, b: Weight) {
    a.freq < b.freq || (a.freq == b.freq && a.rank <= b.rank)
  }

  const DEPTH_UNIT := 0x100_0000

  function Depth(a: Weight): nat {
    a.rank / DEPTH_UNIT
  }

  function Add(a: Weight, b: Weight): Weight {
    Weight(a.freq + b.freq, ((if Depth(a) < Depth(b) then Depth(b) else Depth(a)) + 1) * DEPTH_UNIT)
  }

  lemma AddMonotone(a: Weight, b: Weight, a': Weight, b': Weight)
    requires Leq(a, a') && Leq(b, b')
    ensures Leq(Add(a, b), Add(a', b'))
  {
  }

  /** A package is heavier than its parts, even if they are worth nothing. */
  lemma AddHeavier(a: Weight, b: Weight)
    ensures !Leq(Add(a, b), a) && !Leq(Add(a, b), b)
    ensures Leq(a, Add(a, b)) && Leq(b, Add(a, b))
  {
  }

  ghost predicate Sorted(w: seq<Weight>) {
    forall i, j :: 0 <= i <= j < |w| ==> Leq(w[i], w[j])
  }

  /** The number of items of level `d` over `n` leaves. */
  function Size(n: nat, d: nat): nat {
    if d == 0 then 0 else n + Size(n, d - 1) / 2
  }

  /** Does the package `j` of the level below come before leaf `i`? */
  predicate PackageFirst(w: seq<Weight>, d: nat, i: nat, j: nat)
    requires d > 0 && i <= |w|
    decreases d, 0, 1
  {
    j < Size(|w|, d - 1) / 2 && (i == |w| || Leq(Package(w, d - 1, j), w[i]))
  }

  /** How many of the first `m` items of level `d` are leaves. */
  function Leaves(w: seq<Weight>, d: nat, m: nat): (i: nat)
    requires m <= Size(|w|, d)
    ensures i <= m && i <= |w|
    ensures d > 0 ==> m - i <= Size(|w|, d - 1) / 2
    decreases d, m, 0
  {
    if m == 0 then 0
    else
      var i := Leaves(w, d, m - 1);
      if PackageFirst(w, d, i, m - 1 - i) then i else i + 1
  }

  /** Item `m` of level `d`. */
  function Item(w: seq<Weight>, d: nat, m: nat): Weight
    requires m < Size(|w|, d)
    decreases d, m + 1, 1
  {
    var i := Leaves(w, d, m);
    if PackageFirst(w, d, i, m - i) then Package(w, d - 1, m - i) else w[i]
  }

  /** Package `j` of level `d`. */
  function Package(w: seq<Weight>, d: nat, j: nat): Weight
    requires j < Size(|w|, d) / 2
    decreases d, 2 * j + 2, 2
  {
    Add(Item(w, d, 2 * j), Item(w, d, 2 * j + 1))
  }

  // ----- the levels are ascending -----

  lemma LeqTransitive(a: Weight, b: Weight, c: Weight)
    requires Leq(a, b) && Leq(b, c)
    ensures Leq(a, c)
  {
  }

  lemma {:induction false} PackagesAscend(w: seq<Weight>, d: nat, j: nat, k: nat)
    requires Sorted(w) && j <= k < Size(|w|, d) / 2
    ensures Leq(Package(w, d, j), Package(w, d, k))
    decreases d, 1, 0
  {
    ItemsAscend(w, d, 2 * j, 2 * k);
    ItemsAscend(w, d, 2 * j + 1, 2 * k + 1);
    AddMonotone(Item(w, d, 2 * j), Item(w, d, 2 * j + 1), Item(w, d, 2 * k), Item(w, d, 2 * k + 1));
  }

  lemma {:induction false} ItemsAscend(w: seq<Weight>, d: nat, m: nat, k: nat)
    requires Sorted(w) && m <= k < Size(|w|, d)
    ensures Leq(Item(w, d, m), Item(w, d, k))
    decreases d, 0, k - m
  {
    if m < k {
      ItemThenItem(w, d, m);
      ItemsAscend(w, d, m + 1, k);
      LeqTransitive(Item(w, d, m), Item(w, d, m + 1), Item(w, d, k));
    }
  }

  lemma {:induction false} ItemThenItem(w: seq<Weight>, d: nat, m: nat)
    requires Sorted(w) && m + 1 < Size(|w|, d)
    ensures Leq(Item(w, d, m), Item(w, d, m + 1))
    decreases d, 0, 0
  {
    var i := Leaves(w, d, m);
    var j := m - i;
    if PackageFirst(w, d, i, j) {
      if PackageFirst(w, d, i, j + 1) { PackagesAscend(w, d - 1, j, j + 1); }
    }
  }

  /** Packages taken before leaf `i` do not weigh more than it. */
  lemma {:induction false} TakenPackage(w: seq<Weight>, d: nat, m: nat, p: nat)
    requires Sorted(w) && m <= Size(|w|, d) && d > 0
    requires Leaves(w, d, m) < |w| && p < m - Leaves(w, d, m)
    ensures Leq(Package(w, d - 1, p), w[Leaves(w, d, m)])
    decreases m
  {
    var i, j := Leaves(w, d, m - 1), m - 1 - Leaves(w, d, m - 1);
    if p < j {
      TakenPackage(w, d, m - 1, p);
      LeqTransitive(Package(w, d - 1, p), w[i], w[Leaves(w, d, m)]);
    }
  }

  /** Packages not yet taken weigh at least as much as every leaf taken. */
  lemma {:induction false} UntakenPackage(w: seq<Weight>, d: nat, m: nat, q: nat, p: nat)
    requires Sorted(w) && m <= Size(|w|, d) && d > 0
    requires q < Leaves(w, d, m) && m - Leaves(w, d, m) <= p < Size(|w|, d - 1) / 2
    ensures Leq(w[q], Package(w, d - 1, p))
    decreases m
  {
    var i, j := Leaves(w, d, m - 1), m - 1 - Leaves(w, d, m - 1);
    if q < i {
      UntakenPackage(w, d, m - 1, q, p);
    } else {
      PackagesAscend(w, d - 1, j, p);
      LeqTransitive(w[q], Package(w, d - 1, j), Package(w, d - 1, p));
    }
  }

  /** Every leaf taken weighs no more than the last item taken. */
  lemma {:induction false} TakenLeaf(w: seq<Weight>, d: nat, m: nat, q: nat)
    requires Sorted(w) && 0 < m <= Size(|w|, d) && q < Leaves(w, d, m)
    ensures Leq(w[q], Item(w, d, m - 1))
    decreases m
  {
    var i := Leaves(w, d, m - 1);
    if q < i {
      TakenLeaf(w, d, m - 1, q);
      ItemThenItem(w, d, m - 2);
      LeqTransitive(w[q], Item(w, d, m - 2), Item(w, d, m - 1));
    }
  }

  // ----- the cost of a prefix of a level -----

  /** The frequencies of the `i` lightest leaves. */
  function PrefixSum(w: seq<Weight>, i: nat): nat
    requires i <= |w|
  {
    if i == 0 then 0 else PrefixSum(w, i - 1) + w[i - 1].freq
  }

  /** The frequencies of the leaves in the first `m` items of level `d`, counted once
      for every level they reach down to. */
  function Cost(w: seq<Weight>, d: nat, m: nat): nat
    requires m <= Size(|w|, d)
    decreases d, 1
  {
    if d == 0 then 0 else SplitCost(w, d, m, Leaves(w, d, m))
  }

  /** `a` leaves and `m - a` packages instead of the first `m` items. */
  function SplitCost(w: seq<Weight>, d: nat, m: nat, a: nat): nat
    requires d > 0 && a <= m && a <= |w| && m - a <= Size(|w|, d - 1) / 2
    decreases d, 0
  {
    PrefixSum(w, a) + Cost(w, d - 1, 2 * (m - a))
  }

  /** One more item: which kind, and what it changes. */
  lemma NextItem(w: seq<Weight>, d: nat, m: nat)
    requires d > 0 && m < Size(|w|, d)
    ensures var i := Leaves(w, d, m);
      if PackageFirst(w, d, i, m - i) then
        && m - i < Size(|w|, d - 1) / 2
        && Leaves(w, d, m + 1) == i && Item(w, d, m) == Package(w, d - 1, m - i)
      else
        && i < |w| && Leaves(w, d, m + 1) == i + 1 && Item(w, d, m) == w[i]
  {
  }

  /** One more item costs its weight. */
  lemma {:induction false} CostItem(w: seq<Weight>, d: nat, m: nat)
    requires m < Size(|w|, d)
    ensures Cost(w, d, m + 1) == Cost(w, d, m) + Item(w, d, m).freq
    decreases d, 0
  {
    hide Leaves, Item, Package, PackageFirst, PrefixSum;
    var i := Leaves(w, d, m);
    NextItem(w, d, m);
    PrefixNext(w, i);
    if PackageFirst(w, d, i, m - i) { CostPackage(w, d - 1, m - i); }
  }

  lemma PrefixNext(w: seq<Weight>, i: nat)
    requires i <= |w|
    ensures i < |w| ==> PrefixSum(w, i + 1) == PrefixSum(w, i) + w[i].freq
  {
  }

  /** One more package costs its weight in items of the level below. */
  lemma {:induction false} CostPackage(w: seq<Weight>, d: nat, j: nat)
    requires j < Size(|w|, d) / 2
    ensures Cost(w, d, 2 * j + 2) == Cost(w, d, 2 * j) + Package(w, d, j).freq
    decreases d, 1
  {
    CostItem(w, d, 2 * j);
    CostItem(w, d, 2 * j + 1);
  }

  /** Trading package `m - a - 1` for leaf `a`. */
  lemma SplitTrade(w: seq<Weight>, d: nat, m: nat, a: nat)
    requires d > 0 && a < m && a < |w| && m - a <= Size(|w|, d - 1) / 2
    ensures m - a - 1 < Size(|w|, d - 1) / 2
    ensures SplitCost(w, d, m, a + 1) + Package(w, d - 1, m - a - 1).freq == SplitCost(w, d, m, a) + w[a].freq
  {
    CostPackage(w, d - 1, m - a - 1);
    hide Package, Leaves, Size, Cost;
    assert 2 * (m - a - 1) + 2 == 2 * (m - a) && 2 * (m - (a + 1)) == 2 * (m - a - 1);
  }

  /** No split is cheaper than the merge: move one leaf at a time towards it. */
  lemma {:induction false} MergeCheapest(w: seq<Weight>, d: nat, m: nat, a: nat)
    requires Sorted(w) && d > 0 && a <= m <= Size(|w|, d) && a <= |w| && m - a <= Size(|w|, d - 1) / 2
    ensures Cost(w, d, m) <= SplitCost(w, d, m, a)
    decreases if a < Leaves(w, d, m) then Leaves(w, d, m) - a else a - Leaves(w, d, m)
  {
    hide Package, Leaves, Size, SplitCost;
    var i := Leaves(w, d, m);
    if a == i {
    } else if a < i {
      UntakenPackage(w, d, m, a, m - a - 1);
      SplitTrade(w, d, m, a);
      MergeCheapest(w, d, m, a + 1);
    } else {
      TakenPackage(w, d, m, m - a);
      assert Leq(w[i], w[a - 1]);
      SplitTrade(w, d, m, a - 1);
      MergeCheapest(w, d, m, a - 1);
    }
  }

  // ----- choices of leaves, level by level, from the top -----

  /** The numbers of leaves chosen at levels `|c|`, `|c| - 1`, ..., 1. */
  ghost predicate Choice(w: seq<Weight>, c: seq<nat>) {
    forall x :: 0 <= x < |c| ==> c[x] <= |w|
  }

  /** What a choice weighs in units of the bottom level. */
  function Width(c: seq<nat>): nat
    decreases |c|
  {
    if c == [] then 0 else 2 * Width(c[..|c| - 1]) + c[|c| - 1]
  }

  function ChoiceCost(w: seq<Weight>, c: seq<nat>): nat
    requires Choice(w, c)
    decreases |c|
  {
    if c == [] then 0 else PrefixSum(w, c[0]) + ChoiceCost(w, c[1..])
  }

  lemma {:induction false} WidthFirst(c: seq<nat>)
    requires c != []
    ensures Width(c) == Times(c[0], Pow2(|c| - 1)) + Width(c[1..])
    decreases |c|
  {
    if |c| > 1 {
      var f := c[..|c| - 1];
      WidthFirst(f);
      assert f[1..] == c[1..][..|c| - 2];
      Twice(c[0], Pow2(|c| - 2));
    }
  }

  /** Package merge is optimal: among all choices of leaves whose total width is that
      of `m` items of the top level, the first `m` items are the cheapest. */
  lemma {:induction false} Cheapest(w: seq<Weight>, c: seq<nat>, m: nat)
    requires Sorted(w) && Choice(w, c) && c != [] && Width(c) == Times(m, Pow2(|c| - 1))
    ensures m <= Size(|w|, |c|)
    ensures Cost(w, |c|, m) <= ChoiceCost(w, c)
    decreases |c|
  {
    var d, a, rest := |c|, c[0], c[1..];
    WidthFirst(c);
    Remainder(m, a, Pow2(d - 1), Width(rest));
    if d > 1 {
      assert Pow2(d - 1) == 2 * Pow2(d - 2);
      Twice(m - a, Pow2(d - 2));
      hide Leaves, Pow2, Width, Cost, Times, Sorted;
      Cheapest(w, rest, 2 * (m - a));
    }
    CheapestStep(w, c, m);
  }

  lemma CheapestStep(w: seq<Weight>, c: seq<nat>, m: nat)
    requires Sorted(w) && Choice(w, c) && c != [] && c[0] <= m
    requires |c| == 1 ==> m == c[0]
    requires |c| > 1 ==> 2 * (m - c[0]) <= Size(|w|, |c| - 1)
    requires |c| > 1 ==> Cost(w, |c| - 1, 2 * (m - c[0])) <= ChoiceCost(w, c[1..])
    ensures m <= Size(|w|, |c|)
    ensures Cost(w, |c|, m) <= ChoiceCost(w, c)
  {
    var d, a := |c|, c[0];
    assert Size(|w|, d) == |w| + Size(|w|, d - 1) / 2;
    assert SplitCost(w, d, m, a) == PrefixSum(w, a) + Cost(w, d - 1, 2 * (m - a));
    hide Leaves, Size, Cost, SplitCost, Sorted;
    MergeCheapest(w, d, m, a);
  }

  lemma Remainder(m: nat, a: nat, p: nat, r: nat)
    requires Times(m, p) == Times(a, p) + r && p > 0
    ensures m >= a && Times(m - a, p) == r && (p == 1 && r == 0 ==> m == a)
  {
    assert m < a ==> m * p + p <= a * p;
  }

  lemma Twice(a: nat, p: nat)
    ensures Times(a, 2 * p) == Times(2 * a, p) == 2 * Times(a, p)
  {
  }
}
