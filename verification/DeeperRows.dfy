/** Rows that do not use their last level: all deeper rows are the same but for zeros, so
    that trying greater heights is of no use. */
module DeeperRows {
  import opened Common
  import opened Powers
  import opened PackageMerge
  import opened PackageRows

  // ----- deeper levels are lighter -----

  lemma {:induction false} SizeGrows(n: nat, d: nat)
    ensures Size(n, d) <= Size(n, d + 1)
  {
    if d > 0 { SizeGrows(n, d - 1); }
  }

  lemma SizeStep(n: nat, d: nat)
    requires d > 0
    ensures Size(n, d) == n + Size(n, d - 1) / 2
  {
  }

  lemma LeqTotal(a: Weight, b: Weight)
    ensures Leq(a, a) && (Leq(a, b) || Leq(b, a))
  {
  }

  /** An item is no heavier than the next leaf, nor than the next package. */
  lemma ItemIsLeast(w: seq<Weight>, d: nat, m: nat)
    requires d > 0 && m < Size(|w|, d)
    ensures Leaves(w, d, m) < |w| ==> Leq(Item(w, d, m), w[Leaves(w, d, m)])
    ensures m - Leaves(w, d, m) < Size(|w|, d - 1) / 2 ==> Leq(Item(w, d, m), Package(w, d - 1, m - Leaves(w, d, m)))
  {
    var i := Leaves(w, d, m);
    hide Leq, Leaves, Package;
    if i < |w| { LeqTotal(w[i], w[i]); }
    if m - i < Size(|w|, d - 1) / 2 {
      var p := Package(w, d - 1, m - i);
      LeqTotal(p, p);
      if i < |w| { LeqTotal(p, w[i]); }
    }
  }

  /** Packages taken weigh no more than the last item taken. */
  lemma {:induction false} PackageTaken(w: seq<Weight>, d: nat, m: nat, p: nat)
    requires Sorted(w) && d > 0 && 0 < m <= Size(|w|, d) && p < m - Leaves(w, d, m)
    ensures Leq(Package(w, d - 1, p), Item(w, d, m - 1))
    decreases m
  {
    var i := Leaves(w, d, m - 1);
    if p < m - 1 - i {
      PackageTaken(w, d, m - 1, p);
      ItemThenItem(w, d, m - 2);
      LeqTransitive(Package(w, d - 1, p), Item(w, d, m - 2), Item(w, d, m - 1));
    }
  }

  /** The same place of the next level holds no heavier item. */
  lemma {:induction false} Lighter(w: seq<Weight>, d: nat, m: nat)
    requires Sorted(w) && m < Size(|w|, d)
    ensures m < Size(|w|, d + 1) && Leq(Item(w, d + 1, m), Item(w, d, m))
    decreases d, 1
  {
    SizeGrows(|w|, d);
    if d > 0 {
      var i, i' := Leaves(w, d, m), Leaves(w, d + 1, m);
      ItemIsLeast(w, d + 1, m);
      if PackageFirst(w, d, i, m - i) {
        if i' < i { LeafWins(w, d, m, i'); } else { PackageWins(w, d, m, m - i'); }
      } else {
        if i' <= i { LeafWins(w, d, m, i'); } else { PackageWins(w, d, m, m - i'); }
      }
    }
  }

  /** Leaf `i'` comes no later than item `m`. */
  lemma LeafWins(w: seq<Weight>, d: nat, m: nat, i': nat)
    requires Sorted(w) && d > 0 && m < Size(|w|, d) && i' < |w|
    requires i' < Leaves(w, d, m) || (i' == Leaves(w, d, m) && !PackageFirst(w, d, i', m - i'))
    requires m < Size(|w|, d + 1) && Leq(Item(w, d + 1, m), w[i'])
    ensures Leq(Item(w, d + 1, m), Item(w, d, m))
  {
    if i' < Leaves(w, d, m) {
      hide Leq, Item, Package, PackageFirst, Leaves, Sorted;
      assert m > 0;
      TakenLeaf(w, d, m, i');
      ItemThenItem(w, d, m - 1);
      LeqTransitive(w[i'], Item(w, d, m - 1), Item(w, d, m));
      LeqTransitive(Item(w, d + 1, m), w[i'], Item(w, d, m));
    }
  }

  /** Package `j'` comes no later than item `m`. */
  lemma {:induction false} PackageWins(w: seq<Weight>, d: nat, m: nat, j': nat)
    requires Sorted(w) && d > 0 && m < Size(|w|, d)
    requires var i := Leaves(w, d, m); j' < m - i || (j' == m - i && PackageFirst(w, d, i, j'))
    requires m < Size(|w|, d + 1) && m - Leaves(w, d + 1, m) == j'
    ensures Leq(Item(w, d + 1, m), Item(w, d, m))
    decreases d, 0
  {
    hide *;
    PackageThere(w, d, m, j');
    LighterPackage(w, d - 1, j');
    ItemIsLeast(w, d + 1, m);
    var p, q := Package(w, d, j'), Package(w, d - 1, j');
    LeqTransitive(p, q, Item(w, d, m));
    LeqTransitive(Item(w, d + 1, m), p, Item(w, d, m));
  }

  lemma PackageThere(w: seq<Weight>, d: nat, m: nat, j': nat)
    requires Sorted(w) && d > 0 && m < Size(|w|, d)
    requires var i := Leaves(w, d, m); j' < m - i || (j' == m - i && PackageFirst(w, d, i, j'))
    ensures j' < Size(|w|, d - 1) / 2 && Leq(Package(w, d - 1, j'), Item(w, d, m))
  {
    var i := Leaves(w, d, m);
    if j' < m - i {
      hide Leq, Item, Package, PackageFirst, Leaves, Sorted;
      PackageTaken(w, d, m, j');
      ItemThenItem(w, d, m - 1);
      LeqTransitive(Package(w, d - 1, j'), Item(w, d, m - 1), Item(w, d, m));
    }
  }

  lemma {:induction false} LighterPackage(w: seq<Weight>, d: nat, j: nat)
    requires Sorted(w) && j < Size(|w|, d) / 2
    ensures j < Size(|w|, d + 1) / 2 && Leq(Package(w, d + 1, j), Package(w, d, j))
    decreases d, 2
  {
    SizeGrows(|w|, d);
    Lighter(w, d, 2 * j);
    Lighter(w, d, 2 * j + 1);
    AddMonotone(Item(w, d + 1, 2 * j), Item(w, d + 1, 2 * j + 1), Item(w, d, 2 * j), Item(w, d, 2 * j + 1));
  }

  /** A level needs fewer items of the next one than it has itself. */
  lemma Shrinks(w: seq<Weight>, d: nat, m: nat)
    requires Sorted(w) && d > 0 && m <= Size(|w|, d)
    ensures 2 * (m - Leaves(w, d, m)) <= m
  {
    hide *;
    var p := m - Leaves(w, d, m);
    if 2 * p > m {
      SizeGrows(|w|, d - 1);
      var x, y, z := Package(w, d - 1, p - 1), Item(w, d, 2 * p - 1), Item(w, d - 1, 2 * p - 1);
      PackageTaken(w, d, m, p - 1);
      ItemsAscend(w, d, m - 1, 2 * p - 1);
      Lighter(w, d - 1, 2 * p - 1);
      PackageLast(w, d - 1, p - 1);
      LeqTransitive(x, Item(w, d, m - 1), y);
      LeqTransitive(x, y, z);
    }
  }

  lemma PackageLast(w: seq<Weight>, d: nat, p: nat)
    requires p < Size(|w|, d) / 2
    ensures !Leq(Package(w, d, p), Item(w, d, 2 * p + 1))
  {
    LeqTotal(Item(w, d, 2 * p + 1), Item(w, d, 2 * p + 1));
    hide *;
    PackageHeavier(w, d, p, Item(w, d, 2 * p + 1));
  }

  // ----- levels that agree -----

  /** The first `m` items of two levels are the same. */
  ghost predicate Agree(w: seq<Weight>, d: nat, e: nat, m: nat) {
    && m <= Size(|w|, d) && m <= Size(|w|, e)
    && (forall x: nat {:trigger Leaves(w, d, x)} {:trigger Leaves(w, e, x)} :: x <= m ==> Leaves(w, d, x) == Leaves(w, e, x))
    && forall x: nat {:trigger Item(w, d, x)} {:trigger Item(w, e, x)} :: x < m ==> Item(w, d, x) == Item(w, e, x)
  }

  lemma AgreeLess(w: seq<Weight>, d: nat, e: nat, f: nat, m: nat, k: nat)
    requires Agree(w, d, e, m) && k <= m && Agree(w, e, f, k)
    ensures Agree(w, d, f, k)
  {
    forall x: nat {:trigger Leaves(w, d, x)} {:trigger Leaves(w, f, x)} | x <= k ensures Leaves(w, d, x) == Leaves(w, f, x) {
      assert Leaves(w, d, x) == Leaves(w, e, x);
    }
    forall x: nat {:trigger Item(w, d, x)} {:trigger Item(w, f, x)} | x < k ensures Item(w, d, x) == Item(w, f, x) {
      assert Item(w, d, x) == Item(w, e, x);
    }
  }

  lemma SamePackage(w: seq<Weight>, d: nat, e: nat, k: nat, j: nat)
    requires Agree(w, d, e, k) && 2 * j + 1 < k
    ensures j < Size(|w|, d) / 2 && j < Size(|w|, e) / 2 && Package(w, d, j) == Package(w, e, j)
  {
    assert Item(w, d, 2 * j) == Item(w, e, 2 * j) && Item(w, d, 2 * j + 1) == Item(w, e, 2 * j + 1);
  }

  /** One more item, if both levels choose alike. */
  lemma AgreeNext(w: seq<Weight>, d: nat, e: nat, m: nat)
    requires d > 0 && e > 0 && Agree(w, d, e, m) && m < Size(|w|, d) && m < Size(|w|, e)
    requires var i := Leaves(w, d, m);
      && PackageFirst(w, d, i, m - i) == PackageFirst(w, e, i, m - i)
      && (PackageFirst(w, d, i, m - i) ==> Package(w, d - 1, m - i) == Package(w, e - 1, m - i))
    ensures Agree(w, d, e, m + 1)
  {
    var i := Leaves(w, d, m);
    assert Leaves(w, e, m) == i;
    assert Leaves(w, d, m + 1) == Leaves(w, e, m + 1);
    assert Item(w, d, m) == Item(w, e, m);
    hide Item, Leaves, Package, PackageFirst, Size;
  }

  lemma LeavesStep(w: seq<Weight>, d: nat, m: nat)
    requires 0 < m <= Size(|w|, d)
    ensures var i := Leaves(w, d, m - 1); Leaves(w, d, m) == if PackageFirst(w, d, i, m - 1 - i) then i else i + 1
  {
    hide PackageFirst, Size;
  }

  lemma AgreeSize(w: seq<Weight>, d: nat, e: nat, m: nat)
    requires Agree(w, d, e, m)
    ensures m <= Size(|w|, d) && m <= Size(|w|, e) && Leaves(w, d, m) == Leaves(w, e, m)
  {
    hide Leaves, Item, Size;
  }

  /** Levels with the same package choose alike. */
  lemma ChooseAlike(w: seq<Weight>, d: nat, e: nat, i: nat, j: nat)
    requires d > 0 && e > 0 && i <= |w| && j < Size(|w|, d - 1) / 2 && j < Size(|w|, e - 1) / 2
    requires Package(w, d - 1, j) == Package(w, e - 1, j)
    ensures PackageFirst(w, d, i, j) == PackageFirst(w, e, i, j)
  {
    hide Package, Size;
  }

  /** Levels with the same packages agree as long as they have not used them all. */
  lemma {:induction false} AgreeAbove(w: seq<Weight>, d: nat, e: nat, p: nat, m: nat)
    requires Agree(w, d, e, 2 * p) && m <= Size(|w|, d + 1) && m <= Size(|w|, e + 1)
    requires m - Leaves(w, d + 1, m) < p
    ensures Agree(w, d + 1, e + 1, m)
    decreases m
  {
    hide *;
    if m > 0 {
      LeavesStep(w, d + 1, m);
      var i := Leaves(w, d + 1, m - 1);
      var j := m - 1 - i;
      AgreeAbove(w, d, e, p, m - 1);
      SamePackage(w, d, e, 2 * p, j);
      ChooseAlike(w, d + 1, e + 1, i, j);
      AgreeNext(w, d + 1, e + 1, m - 1);
    } else {
      AgreeNone(w, d + 1, e + 1);
    }
  }

  lemma AgreeNone(w: seq<Weight>, d: nat, e: nat)
    ensures Agree(w, d, e, 0)
  {
  }

  /** If a level gets by with packages that the level above the one below has as well, the
      level below holds the same items. */
  lemma {:induction false} AgreeBelow(w: seq<Weight>, d: nat, p: nat, m: nat)
    requires Sorted(w) && d > 0 && Agree(w, d, d - 1, 2 * p)
    requires m <= Size(|w|, d + 1) && m - Leaves(w, d + 1, m) <= p
    ensures Agree(w, d + 1, d, m)
    decreases m
  {
    hide *;
    if m > 0 {
      LeavesStep(w, d + 1, m);
      var i := Leaves(w, d + 1, m - 1);
      var j := m - 1 - i;
      AgreeBelow(w, d, p, m - 1);
      AgreeSize(w, d, d - 1, 2 * p);
      SizeStep(|w|, d);
      if j < p {
        SamePackage(w, d, d - 1, 2 * p, j);
        ChooseAlike(w, d + 1, d, i, j);
      } else {
        LeafInBoth(w, d, i, j);
      }
      AgreeNext(w, d + 1, d, m - 1);
    } else {
      AgreeNone(w, d + 1, d);
    }
  }

  lemma LeqVia(a: Weight, b: Weight, c: Weight)
    requires Leq(a, b)
    ensures Leq(b, c) ==> Leq(a, c)
  {
  }

  /** A leaf that comes before a lighter package comes before a heavier one. */
  lemma LeafInBoth(w: seq<Weight>, d: nat, i: nat, j: nat)
    requires Sorted(w) && d > 0 && i < |w| && !PackageFirst(w, d + 1, i, j)
    ensures !PackageFirst(w, d, i, j)
  {
    if j < Size(|w|, d - 1) / 2 {
      LighterPackage(w, d - 1, j);
      LeqVia(Package(w, d, j), Package(w, d - 1, j), w[i]);
    }
  }

  // ----- rows -----

  lemma RowCons(w: seq<Weight>, d: nat, m: nat)
    requires d > 0 && m <= Size(|w|, d)
    ensures Row(w, d, m) == [Leaves(w, d, m)] + Row(w, d - 1, 2 * (m - Leaves(w, d, m)))
  {
    hide Leaves, Size;
  }

  lemma {:induction false} RowOfNone(w: seq<Weight>, d: nat)
    ensures Row(w, d, 0) == Repeat(0, d)
    decreases d
  {
    if d > 0 {
      RowOfNone(w, d - 1);
      RepeatFirst(d);
    }
  }

  lemma RepeatFirst(d: nat)
    requires d > 0
    ensures Repeat<nat>(0, d) == [0] + Repeat<nat>(0, d - 1)
  {
    RepeatSplit<nat>(0, 1, d - 1);
    assert Repeat<nat>(0, 1) == [0];
  }

  /** A row that ends in zero needs no more than the level below offers. */
  lemma {:induction false} UnusedLevel(w: seq<Weight>, d: nat, m: nat)
    requires Sorted(w) && d > 0 && m <= Size(|w|, d) && Row(w, d, m)[d - 1] == 0
    ensures Agree(w, d, d - 1, m) && (d == 1 ==> m == 0)
    decreases d
  {
    hide *;
    RowCons(w, d, m);
    var k := 2 * (m - Leaves(w, d, m));
    if d > 1 {
      UnusedLevel(w, d - 1, k);
      AgreeBelow(w, d - 1, k / 2, m);
    } else {
      NoPackages(|w|);
      AgreeNone(w, 1, 0);
    }
  }

  lemma NoPackages(n: nat)
    ensures Size(n, 0) == 0
  {
  }

  /** Levels from `h - 1` up to `top` agree on their first `m` items. */
  ghost predicate AllAgree(w: seq<Weight>, h: nat, top: nat, m: nat)
    requires h > 0
  {
    forall e: nat {:trigger Agree(w, e, h - 1, m)} :: h - 1 <= e <= top ==> Agree(w, e, h - 1, m)
  }

  /** Such a row is the shorter one, and so are all longer ones, but for zeros. */
  lemma {:induction false} RowsEnd(w: seq<Weight>, h: nat, top: nat, m: nat)
    requires Sorted(w) && 0 < h <= top && m <= Size(|w|, h) && Row(w, h, m)[h - 1] == 0 && AllAgree(w, h, top, m)
    ensures m <= Size(|w|, top) && m <= Size(|w|, h - 1)
    ensures Row(w, top, m) == Row(w, h - 1, m) + Repeat(0, top - h + 1)
    decreases h
  {
    hide *;
    OneAgrees(w, h, top, m, top);
    OneAgrees(w, h, top, m, h);
    if h == 1 {
      UnusedLevel(w, h, m);
      RowOfNone(w, top);
      RowOfNone(w, 0);
    } else {
      RowCons(w, h, m);
      RowCons(w, top, m);
      RowCons(w, h - 1, m);
      Shrinks(w, h, m);
      var k := 2 * (m - Leaves(w, h, m));
      UnusedLevel(w, h - 1, k);
      AllAgreeBelow(w, h, top, m, k);
      RowsEnd(w, h - 1, top - 1, k);
    }
  }

  lemma OneAgrees(w: seq<Weight>, h: nat, top: nat, m: nat, e: nat)
    requires h > 0 && AllAgree(w, h, top, m) && h - 1 <= e <= top
    ensures m <= Size(|w|, e) && m <= Size(|w|, h - 1) && Leaves(w, e, m) == Leaves(w, h - 1, m)
  {
    assert Agree(w, e, h - 1, m);
    hide *;
    AgreeSize(w, e, h - 1, m);
  }

  lemma AllAgreeBelow(w: seq<Weight>, h: nat, top: nat, m: nat, k: nat)
    requires 1 < h <= top && AllAgree(w, h, top, m) && k <= m && Agree(w, h - 1, h - 2, k)
    ensures AllAgree(w, h - 1, top - 1, k)
  {
    forall e: nat {:trigger Agree(w, e, h - 2, k)} | h - 2 <= e <= top - 1 ensures Agree(w, e, h - 2, k) {
      if e == h - 2 {
        SameLevel(w, e, h - 1, k);
      } else {
        assert Agree(w, e, h - 1, m);
        AgreeLess(w, e, h - 1, h - 2, m, k);
      }
    }
  }

  lemma SameLevel(w: seq<Weight>, d: nat, e: nat, m: nat)
    requires Agree(w, e, d, m)
    ensures Agree(w, d, d, m)
  {
  }

  /** If the full row of a height ends in zero, all levels from there on agree on what is
      needed for it. */
  lemma {:induction false} FullLevelsAgree(w: seq<Weight>, h: nat, e: nat)
    requires Sorted(w) && 2 <= |w| <= Pow2(h) && 0 < h <= e && 2 * |w| - 2 <= Size(|w|, h)
    requires Row(w, h, 2 * |w| - 2)[h - 1] == 0
    ensures Agree(w, e, e - 1, 2 * |w| - 2)
    decreases e
  {
    hide *;
    if e == h {
      UnusedLevel(w, h, 2 * |w| - 2);
    } else {
      FullLevelsAgree(w, h, e - 1);
      Pow2Monotone(h, e);
      Pow2Monotone(h, e - 1);
      RowFull(w, e);
      RowFull(w, e - 1);
      AgreeAbove(w, e - 1, e - 2, |w| - 1, 2 * |w| - 2);
    }
  }

  lemma {:induction false} FullLevels(w: seq<Weight>, h: nat, e: nat)
    requires Sorted(w) && 2 <= |w| <= Pow2(h) && 0 < h && h - 1 <= e && 2 * |w| - 2 <= Size(|w|, h)
    requires Row(w, h, 2 * |w| - 2)[h - 1] == 0
    ensures Agree(w, e, h - 1, 2 * |w| - 2)
    decreases e
  {
    var m := 2 * |w| - 2;
    hide Agree, Size, Row;
    if e == h - 1 {
      FullLevelsAgree(w, h, h);
      SameLevel(w, h - 1, h, m);
    } else {
      FullLevelsAgree(w, h, e);
      FullLevels(w, h, e - 1);
      AgreeLess(w, e, e - 1, h - 1, m, m);
    }
  }

  /** If the full row of a height ends in zero, the full rows of all greater heights are that
      of the height below, followed by zeros. */
  lemma DeeperRow(w: seq<Weight>, h: nat, top: nat)
    requires Sorted(w) && 2 <= |w| <= Pow2(h) && 0 < h <= top && 2 * |w| - 2 <= Size(|w|, h)
    requires Row(w, h, 2 * |w| - 2)[h - 1] == 0
    ensures 2 * |w| - 2 <= Size(|w|, top) && 2 * |w| - 2 <= Size(|w|, h - 1)
    ensures Row(w, top, 2 * |w| - 2) == Row(w, h - 1, 2 * |w| - 2) + Repeat(0, top - h + 1)
  {
    var m := 2 * |w| - 2;
    forall e: nat {:trigger Agree(w, e, h - 1, m)} | h - 1 <= e <= top ensures Agree(w, e, h - 1, m) {
      FullLevels(w, h, e);
    }
    hide Agree, Size, Row;
    RowsEnd(w, h, top, m);
  }
}
