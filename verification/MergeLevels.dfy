/** What package merge's level-by-level state means: each level's entries summarise the
    items consumed so far. */
module MergeLevels {
  import opened Common
  import opened Powers
  import opened PackageMerge
  import opened PackageRows
  import opened PackedWeights

  const TOTAL := 0x10_0000    // no block has more symbols than this

  /** Leaves of an alphabet: ascending, at depth zero, with a modest total. */
  ghost predicate Modest(w: seq<Weight>) {
    && Sorted(w) && MIN_ALPHA_SIZE <= |w| <= MAX_ALPHA_SIZE
    && PrefixSum(w, |w|) <= TOTAL
    && forall i :: 0 <= i < |w| ==> w[i].rank < DEPTH_UNIT
  }

  /** One level after `m` items. */
  datatype Level = Level(m: nat, row: seq<nat>, pkg: uint64, prev: uint64, curr: uint64)

  /** The next leaf of the level. */
  ghost predicate NextLeaf(w: seq<Weight>, l: Level) {
    && l.row != [] && l.row[0] <= |w|
    && if l.row[0] == |w| then l.curr == INFINITE
       else Unpack(l.curr) == w[l.row[0]] && l.curr != INFINITE
  }

  /** All items so far exist, and are summarised exactly. */
  ghost predicate Exact(w: seq<Weight>, d: nat, l: Level) {
    && 2 <= l.m <= Size(|w|, d) && d <= MAX_CODE_LENGTH
    && l.row == Row(w, d, l.m) + Repeat(0, MAX_CODE_LENGTH + 1 - d)
    && Unpack(l.prev) == Item(w, d, l.m - 1)
    && Unpack(l.pkg) == Add(Item(w, d, l.m - 2), Item(w, d, l.m - 1))
  }

  /** The level has run out of items; its package outweighs every leaf. */
  ghost predicate Exhausted(w: seq<Weight>, d: nat, l: Level) {
    && d > 0 && w != [] && l.row != []
    && l.m > Size(|w|, d) && l.row[0] == |w| && Pow2(d) < |w|
    && ExhaustedWeights(w, d, l.pkg, l.prev)
  }

  ghost predicate LevelOk(w: seq<Weight>, d: nat, l: Level) {
    && 1 <= d <= MAX_CODE_LENGTH && |l.row| == MAX_CODE_LENGTH + 1
    && l.m <= 2 * |w| - 2
    && NextLeaf(w, l)
    && (Exact(w, d, l) || Exhausted(w, d, l))
  }

  // ----- bounds -----

  lemma {:induction false} PrefixSumMonotone(w: seq<Weight>, i: nat, j: nat)
    requires i <= j <= |w|
    ensures PrefixSum(w, i) <= PrefixSum(w, j)
    decreases j
  {
    if i < j { PrefixSumMonotone(w, i, j - 1); }
  }

  /** A level reaches each leaf at most once per level below it. */
  lemma {:induction false} CostBound(w: seq<Weight>, d: nat, m: nat)
    requires m <= Size(|w|, d) && PrefixSum(w, |w|) <= TOTAL
    ensures Cost(w, d, m) <= d * TOTAL
    decreases d
  {
    if d > 0 {
      PrefixSumMonotone(w, Leaves(w, d, m), |w|);
      CostBound(w, d - 1, 2 * (m - Leaves(w, d, m)));
    }
  }

  lemma {:induction false} ItemDepth(w: seq<Weight>, d: nat, m: nat)
    requires Modest(w) && m < Size(|w|, d)
    ensures d > 0 && Depth(Item(w, d, m)) < d
    decreases d, 0
  {
    assert d > 0;
    hide Leaves, Item, Package, PackageFirst, Size, Depth;
    NextItem(w, d, m);
    var i := Leaves(w, d, m);
    if PackageFirst(w, d, i, m - i) {
      PackageDepth(w, d - 1, m - i);
    } else {
      LeafDepth(w, i);
    }
  }

  lemma {:induction false} PackageDepth(w: seq<Weight>, d: nat, j: nat)
    requires Modest(w) && j < Size(|w|, d) / 2
    ensures Depth(Package(w, d, j)) <= d
    decreases d, 1
  {
    hide Leaves, Item, PackageFirst, Size, Depth, Modest;
    ItemDepth(w, d, 2 * j);
    ItemDepth(w, d, 2 * j + 1);
    AddDepth(Item(w, d, 2 * j), Item(w, d, 2 * j + 1), d);
  }

  lemma AddDepth(a: Weight, b: Weight, d: nat)
    requires Depth(a) < d && Depth(b) < d
    ensures Depth(Add(a, b)) <= d
  {
  }

  lemma LeafDepth(w: seq<Weight>, i: nat)
    requires Modest(w) && i < |w|
    ensures Depth(w[i]) == 0
  {
  }

  lemma ItemBound(w: seq<Weight>, d: nat, m: nat)
    requires Modest(w) && m < Size(|w|, d)
    ensures d > 0 && Item(w, d, m).freq <= d * TOTAL && Depth(Item(w, d, m)) < d
  {
    hide Leaves, Cost, Item, Size;
    CostItem(w, d, m);
    CostBound(w, d, m + 1);
    ItemDepth(w, d, m);
  }

  lemma PairBound(w: seq<Weight>, d: nat, m: nat)
    requires Modest(w) && m + 1 < Size(|w|, d)
    ensures d > 0 && Item(w, d, m).freq + Item(w, d, m + 1).freq <= d * TOTAL
  {
    hide Leaves, Cost, Item, Size;
    CostItem(w, d, m);
    CostItem(w, d, m + 1);
    CostBound(w, d, m + 2);
    ItemDepth(w, d, m);
  }

  lemma {:induction false} PowerAbove(d: nat)
    requires d > 0
    ensures d <= Pow2(d - 1)
    decreases d
  {
    if d > 1 { PowerAbove(d - 1); }
  }

  /** The size of a level, from above. */
  lemma {:induction false} SizeAbove(n: nat, d: nat)
    requires d > 0
    ensures Times(Size(n, d), Pow2(d - 1)) + n <= Times(2 * n, Pow2(d - 1))
    decreases d
  {
    if d > 1 {
      SizeAbove(n, d - 1);
      Halve(n, Size(n, d - 1), Pow2(d - 2));
    }
  }

  lemma Halve(n: nat, s: nat, p: nat)
    requires Times(s, p) + n <= Times(2 * n, p)
    ensures Times(n + s / 2, 2 * p) + n <= Times(2 * n, 2 * p)
  {
    MulMonotone(2 * (s / 2), s, p);
    assert (n + s / 2) * (2 * p) == 2 * n * p + 2 * (s / 2) * p;
    assert 2 * n * (2 * p) == 2 * n * p + 2 * n * p;
  }

  /** A shallow level has few items. */
  lemma ShallowSize(n: nat, d: nat)
    requires d > 0 && Pow2(d) < n
    ensures Size(n, d) < 2 * n - 2
  {
    SizeAbove(n, d);
    FewItems(n, Size(n, d), Pow2(d - 1));
  }

  lemma FewItems(n: nat, s: nat, p: nat)
    requires Times(s, p) + n <= Times(2 * n, p) && 2 * p < n
    ensures s < 2 * n - 2
  {
    assert s >= 2 * n - 2 ==> s * p >= (2 * n - 2) * p;
  }

  lemma {:induction false} PackagesMonotone(w: seq<Weight>, d: nat, m: nat, k: nat)
    requires m <= k <= Size(|w|, d)
    ensures m - Leaves(w, d, m) <= k - Leaves(w, d, k)
    decreases k
  {
    if m < k { PackagesMonotone(w, d, m, k - 1); }
  }

  /** No level is asked for more than `n - 2` packages. */
  lemma PackagesBounded(w: seq<Weight>, d: nat, m: nat)
    requires Sorted(w) && |w| >= 3 && d > 0 && m <= Size(|w|, d) && m <= 2 * |w| - 2
    ensures m - Leaves(w, d, m) <= |w| - 2
  {
    var n := |w|;
    if n <= Pow2(d) {
      RowFull(w, d);
      PackagesMonotone(w, d, m, 2 * n - 2);
    } else if d > 1 {
      ShallowSize(n, d - 1);
    } else {
      assert Size(n, 0) == 0;
    }
  }

  // ----- the three things one step can do -----

  function TakeLeaf(w: seq<Weight>, l: Level, next: uint64): Level
    requires l.row != []
  {
    Level(l.m + 1, l.row[0 := l.row[0] + 1], WeightAdd(l.prev, l.curr), l.curr, next)
  }

  function TakePackage(l: Level, below: Level): Level
    requires l.row != [] && below.row != []
  {
    Level(l.m + 1, [l.row[0]] + below.row[..|below.row| - 1], WeightAdd(l.prev, below.pkg), below.pkg, l.curr)
  }

  /** The level below stands right after the package that comes next. */
  ghost predicate Aligned(l: Level, below: Level) {
    l.row != [] && l.row[0] <= l.m && below.m == 2 * (l.m - l.row[0]) + 2
  }

  lemma ExactRow(w: seq<Weight>, d: nat, l: Level)
    requires d > 0 && Exact(w, d, l)
    ensures |l.row| == MAX_CODE_LENGTH + 1 && l.row[0] == Leaves(w, d, l.m)
    ensures l.row[1..] == Row(w, d - 1, 2 * (l.m - l.row[0])) + Repeat(0, MAX_CODE_LENGTH + 1 - d)
  {
    hide Leaves, Item, Size;
  }

  /** Exact levels hold words small enough to add. */
  lemma ExactSmall(w: seq<Weight>, d: nat, l: Level)
    requires Modest(w) && d > 0 && Exact(w, d, l)
    ensures Unpack(l.prev).freq <= d * TOTAL && Depth(Unpack(l.prev)) < d
    ensures Unpack(l.pkg).freq <= d * TOTAL && Depth(Unpack(l.pkg)) <= d
    ensures Small(l.prev) && Small(l.pkg)
  {
    hide Leaves, Item, Size;
    ItemBound(w, d, l.m - 1);
    ItemDepth(w, d, l.m - 2);
    PairBound(w, d, l.m - 2);
    AddDepth(Item(w, d, l.m - 2), Item(w, d, l.m - 1), d);
    MulMonotone(d, MAX_CODE_LENGTH, TOTAL);
    SmallWord(l.prev);
    SmallWord(l.pkg);
  }

  /** So do exhausted ones. */
  lemma ExhaustedSmall(w: seq<Weight>, d: nat, l: Level)
    requires Modest(w) && d <= MAX_CODE_LENGTH && Exhausted(w, d, l)
    ensures Small(l.prev) && Small(l.pkg)
  {
    hide Leaves, Item, Size;
    Pow2Monotone(d - 1, d);
    MulMonotone(Pow2(d), |w|, TOTAL);
    MulMonotone(Pow2(d - 1), |w|, TOTAL);
    SmallWord(l.prev);
    SmallWord(l.pkg);
  }

  /** When the package below outweighs the next leaf, the leaf is the next item. */
  lemma LeafIsNext(w: seq<Weight>, d: nat, l: Level, below: Level)
    requires Modest(w) && d > 0 && Exact(w, d, l) && NextLeaf(w, l) && l.curr != INFINITE
    requires d > 1 ==> LevelOk(w, d - 1, below) && Aligned(l, below) && below.pkg > l.curr
    ensures l.m < Size(|w|, d) && l.row[0] < |w|
    ensures Item(w, d, l.m) == w[l.row[0]] && Leaves(w, d, l.m + 1) == l.row[0] + 1
    ensures l.row[0] == Leaves(w, d, l.m)
  {
    hide Leaves, Item, Package, Size, Row, Add, Sorted, PrefixSum;
    ExactRow(w, d, l);
    var i := l.row[0];
    if d > 1 {
      CompareWords(below.pkg, l.curr);
      BelowPackage(w, d - 1, below, l.m - i);
    } else {
      NothingBelow(|w|);
    }
    LeafFirst(w, d, l.m);
  }

  lemma LeafFirst(w: seq<Weight>, d: nat, m: nat)
    requires d > 0 && m <= Size(|w|, d) && Leaves(w, d, m) < |w|
    requires var j := m - Leaves(w, d, m);
      j < Size(|w|, d - 1) / 2 ==> !Leq(Package(w, d - 1, j), w[Leaves(w, d, m)])
    ensures m < Size(|w|, d)
    ensures Item(w, d, m) == w[Leaves(w, d, m)] && Leaves(w, d, m + 1) == Leaves(w, d, m) + 1
  {
    var i := Leaves(w, d, m);
    assert !PackageFirst(w, d, i, m - i);
    hide Leaves, PackageFirst;
    assert m < Size(|w|, d);
    hide Size;
    NextItem(w, d, m);
  }

  lemma NothingBelow(n: nat)
    ensures Size(n, 0) == 0
  {
  }

  /** The package the level below offers, if it is one. */
  lemma BelowPackage(w: seq<Weight>, d: nat, l: Level, j: nat)
    requires LevelOk(w, d, l) && l.m == 2 * j + 2
    ensures if Exact(w, d, l) then j < Size(|w|, d) / 2 && Unpack(l.pkg) == Package(w, d, j)
            else j >= Size(|w|, d) / 2
  {
  }

  lemma RowNext(w: seq<Weight>, d: nat, l: Level)
    requires d > 0 && Exact(w, d, l) && l.m < Size(|w|, d) && l.row[0] == Leaves(w, d, l.m)
    requires Leaves(w, d, l.m + 1) == l.row[0] + 1
    ensures l.row[0 := l.row[0] + 1] == Row(w, d, l.m + 1) + Repeat(0, MAX_CODE_LENGTH + 1 - d)
  {
    hide Leaves, Item, Size, Row, Package, Add, Unpack;
    ExactRow(w, d, l);
    RowUnfold(w, d, l.m + 1);
    assert l.row[0 := l.row[0] + 1] == [l.row[0] + 1] + l.row[1..];
    assert 2 * (l.m + 1 - (l.row[0] + 1)) == 2 * (l.m - l.row[0]);
  }

  lemma LeafStep(w: seq<Weight>, d: nat, l: Level, below: Level, next: uint64)
    requires Modest(w) && LevelOk(w, d, l) && l.m < 2 * |w| - 2
    requires d > 1 ==> LevelOk(w, d - 1, below) && Aligned(l, below) && below.pkg > l.curr
    requires d == 1 ==> l.curr != INFINITE
    requires l.row[0] < |w| ==> NextLeaf(w, TakeLeaf(w, l, next))
    ensures l.row[0] < |w| && LevelOk(w, d, TakeLeaf(w, l, next))
  {
    hide Leaves, Item, Size, WeightAdd, Add, Row, Package, Sorted, PrefixSum, Small;
    LeafNow(w, d, l, below);
    LeafIsNext(w, d, l, below);
    ExactSmall(w, d, l);
    RowNext(w, d, l);
    SmallLeaf(w, l);
    AddWords(l.prev, l.curr);
  }

  lemma LeafNow(w: seq<Weight>, d: nat, l: Level, below: Level)
    requires LevelOk(w, d, l)
    requires if d > 1 then below.pkg > l.curr else l.curr != INFINITE
    ensures l.curr != INFINITE && l.row[0] < |w| && Exact(w, d, l)
  {
    hide Leaves, Item, Size;
  }

  lemma SmallLeaf(w: seq<Weight>, l: Level)
    requires Modest(w) && NextLeaf(w, l) && l.row[0] < |w|
    ensures Small(l.curr)
  {
    FrequencyBound(w, l.row[0]);
    SmallWord(l.curr);
  }

  lemma FrequencyBound(w: seq<Weight>, i: nat)
    requires Modest(w) && i < |w|
    ensures w[i].freq <= TOTAL
  {
    PrefixSumMonotone(w, i + 1, |w|);
  }

  /** At the bottom level nothing happens once the leaves are used up. */
  lemma NothingStep(w: seq<Weight>, l: Level)
    requires Modest(w) && LevelOk(w, 1, l) && l.m < 2 * |w| - 2 && l.curr == INFINITE
    ensures LevelOk(w, 1, l.(m := l.m + 1))
  {
    hide Leaves, Item, Package, Sorted, PrefixSum, Add;
    if Exact(w, 1, l) {
      BottomItems(w, l.m);
      ExactRow(w, 1, l);
      AddHeavier(Item(w, 1, |w| - 2), Item(w, 1, |w| - 1));
      ExactSmall(w, 1, l);
      hide Unpack, Leq;
      assert Pow2(1) == 2 && Pow2(0) == 1;
      assert Exhausted(w, 1, l.(m := l.m + 1));
    }
  }

  /** The bottom level consists of the leaves. */
  lemma {:induction false} BottomItems(w: seq<Weight>, m: nat)
    requires m <= Size(|w|, 1)
    ensures Size(|w|, 1) == |w| && Leaves(w, 1, m) == m
    ensures m > 0 ==> Item(w, 1, m - 1) == w[m - 1]
    decreases m
  {
    assert Size(|w|, 0) == 0;
    if m > 0 { BottomItems(w, m - 1); }
  }

  /** When it does not, and the level below is exact, it is the next item. */
  lemma PackageIsNext(w: seq<Weight>, d: nat, l: Level, below: Level)
    requires Modest(w) && d > 1 && Exact(w, d, l) && NextLeaf(w, l)
    requires LevelOk(w, d - 1, below) && Exact(w, d - 1, below) && Aligned(l, below) && below.pkg <= l.curr
    ensures l.m < Size(|w|, d) && l.row[0] == Leaves(w, d, l.m) == Leaves(w, d, l.m + 1)
    ensures Item(w, d, l.m) == Package(w, d - 1, l.m - l.row[0]) == Unpack(below.pkg)
  {
    hide Leaves, Item, Package, Size, PackageFirst, Row, Add, Sorted, PrefixSum;
    ExactRow(w, d, l);
    var i := l.row[0];
    CompareWords(below.pkg, l.curr);
    BelowPackage(w, d - 1, below, l.m - i);
    PackageIsFirst(w, d, l.m);
  }

  lemma PackageIsFirst(w: seq<Weight>, d: nat, m: nat)
    requires d > 0 && m <= Size(|w|, d)
    requires m - Leaves(w, d, m) < Size(|w|, d - 1) / 2
    requires var i := Leaves(w, d, m); i == |w| || Leq(Package(w, d - 1, m - i), w[i])
    ensures m < Size(|w|, d)
    ensures Item(w, d, m) == Package(w, d - 1, m - Leaves(w, d, m)) && Leaves(w, d, m + 1) == Leaves(w, d, m)
  {
    var i := Leaves(w, d, m);
    assert PackageFirst(w, d, i, m - i);
    hide Leaves, PackageFirst;
    assert m < Size(|w|, d);
    hide Size;
    NextItem(w, d, m);
  }

  lemma RowPackage(w: seq<Weight>, d: nat, l: Level, below: Level)
    requires d > 1 && Exact(w, d, l) && Exact(w, d - 1, below) && Aligned(l, below) && l.m < Size(|w|, d)
    requires l.row[0] == Leaves(w, d, l.m) == Leaves(w, d, l.m + 1)
    ensures [l.row[0]] + below.row[..|below.row| - 1] == Row(w, d, l.m + 1) + Repeat(0, MAX_CODE_LENGTH + 1 - d)
  {
    hide Leaves, Item, Size;
    ExactRow(w, d - 1, below);
    RowUnfold(w, d, l.m + 1);
    RepeatSplit(0, MAX_CODE_LENGTH + 1 - d, 1);
  }

  lemma RowUnfold(w: seq<Weight>, d: nat, m: nat)
    requires d > 0 && m <= Size(|w|, d)
    ensures Row(w, d, m) == [Leaves(w, d, m)] + Row(w, d - 1, 2 * (m - Leaves(w, d, m)))
  {
  }

  lemma ExactPackage(w: seq<Weight>, d: nat, l: Level, below: Level)
    requires Modest(w) && LevelOk(w, d, l) && l.m < 2 * |w| - 2 && d > 1 && Exact(w, d, l)
    requires LevelOk(w, d - 1, below) && Exact(w, d - 1, below) && Aligned(l, below) && below.pkg <= l.curr
    ensures LevelOk(w, d, TakePackage(l, below))
  {
    hide Leaves, Item, Size, WeightAdd, Add, Row, Package, Sorted, PrefixSum, Small;
    PackageIsNext(w, d, l, below);
    RowPackage(w, d, l, below);
    ExactSmall(w, d, l);
    ExactSmall(w, d - 1, below);
    AddWords(l.prev, below.pkg);
  }

  /** Below an exhausted level every level is exhausted. */
  lemma BelowExhausted(w: seq<Weight>, d: nat, l: Level, below: Level)
    requires d > 1 && Exhausted(w, d, l) && Aligned(l, below)
    ensures below.m > Size(|w|, d - 1)
  {
  }

  /** A package offered by an exhausted level is taken only after all leaves, and
      exhausts the level. */
  lemma ExhaustedPackage(w: seq<Weight>, d: nat, l: Level, below: Level)
    requires Modest(w) && LevelOk(w, d, l) && l.m < 2 * |w| - 2 && d > 1
    requires LevelOk(w, d - 1, below) && Exhausted(w, d - 1, below) && Aligned(l, below) && below.pkg <= l.curr
    ensures LevelOk(w, d, TakePackage(l, below))
  {
    hide Add, Leaves, Item, Package, Size, PrefixSum, Sorted, Row, WeightAdd, Unpack, Leq;
    CompareWords(below.pkg, l.curr);
    LeavesGone(w, d - 1, l, below);
    PastTheEnd(w, d, l, below);
    Shallow(w, d, l.m + 1);
    SumBound(w, d, l, below);
  }

  /** `n` leaves and packages of at least half the items below exceed the level. */
  lemma PastTheEnd(w: seq<Weight>, d: nat, l: Level, below: Level)
    requires d > 1 && l.row != [] && l.row[0] == |w| && Aligned(l, below) && below.m > Size(|w|, d - 1)
    ensures l.m >= Size(|w|, d)
  {
  }

  lemma LeavesGone(w: seq<Weight>, d: nat, l: Level, below: Level)
    requires Modest(w) && NextLeaf(w, l) && Exhausted(w, d, below) && Leq(Unpack(below.pkg), Unpack(l.curr))
    ensures l.row[0] == |w| && l.curr == INFINITE
  {
    if l.row[0] < |w| {
      assert Leq(w[l.row[0]], w[|w| - 1]);
      LeqTransitive(Unpack(below.pkg), w[l.row[0]], w[|w| - 1]);
    }
  }

  lemma Shallow(w: seq<Weight>, d: nat, m: nat)
    requires |w| >= 2 && d > 0 && Size(|w|, d) < m <= 2 * |w| - 2
    ensures Pow2(d) < |w|
  {
    if |w| <= Pow2(d) { Enough(|w|, d); }
  }

  lemma SumBound(w: seq<Weight>, d: nat, l: Level, below: Level)
    requires Modest(w) && LevelOk(w, d, l) && d > 1
    requires LevelOk(w, d - 1, below) && Exhausted(w, d - 1, below)
    ensures ExhaustedWeights(w, d, WeightAdd(l.prev, below.pkg), below.pkg)
  {
    var prev, pkg := Unpack(l.prev), Unpack(below.pkg);
    ExhaustedSmall(w, d - 1, below);
    PrevBound(w, d, l);
    AddWords(l.prev, below.pkg);
    AddHeavier(prev, pkg);
    var sum := Add(prev, pkg);
    NotLeq(sum, pkg, w[|w| - 1]);
    AddDepth(prev, pkg, d);
    Double(Pow2(d - 1), TOTAL);
  }

  lemma Double(p: nat, t: nat)
    ensures Times(p, t) + Times(p, t) == Times(2 * p, t)
  {
  }

  lemma NotLeq(a: Weight, b: Weight, c: Weight)
    requires Leq(b, a) && !Leq(b, c)
    ensures !Leq(a, c)
  {
  }

  ghost predicate ExhaustedWeights(w: seq<Weight>, d: nat, pkg: uint64, prev: uint64)
    requires d > 0 && w != []
  {
    && !Leq(Unpack(pkg), w[|w| - 1])
    && Unpack(pkg).freq <= Times(Pow2(d), TOTAL) && Depth(Unpack(pkg)) <= d
    && Unpack(prev).freq <= Times(Pow2(d - 1), TOTAL) && Depth(Unpack(prev)) < d
  }

  lemma PrevBound(w: seq<Weight>, d: nat, l: Level)
    requires Modest(w) && LevelOk(w, d, l)
    ensures Small(l.prev)
    ensures Unpack(l.prev).freq <= Times(Pow2(d - 1), TOTAL) && Depth(Unpack(l.prev)) < d
  {
    hide Leaves, Item, Size;
    if Exact(w, d, l) {
      ExactSmall(w, d, l);
      PowerAbove(d);
      MulMonotone(d, Pow2(d - 1), TOTAL);
    } else {
      ExhaustedSmall(w, d, l);
    }
  }

  lemma PackageStep(w: seq<Weight>, d: nat, l: Level, below: Level)
    requires Modest(w) && LevelOk(w, d, l) && l.m < 2 * |w| - 2 && d > 1
    requires LevelOk(w, d - 1, below) && Aligned(l, below) && below.pkg <= l.curr
    ensures LevelOk(w, d, TakePackage(l, below))
  {
    hide Leaves, Item, Size;
    if Exhausted(w, d - 1, below) {
      ExhaustedPackage(w, d, l, below);
    } else {
      if Exhausted(w, d, l) { BelowExhausted(w, d, l, below); }
      ExactPackage(w, d, l, below);
    }
  }

  // ----- where the levels start -----

  lemma {:induction false} FirstItems(w: seq<Weight>, d: nat)
    requires Modest(w) && d > 0
    ensures Size(|w|, d) >= |w| >= 3
    ensures Item(w, d, 0) == w[0] && Item(w, d, 1) == w[1] && Leaves(w, d, 2) == 2
    decreases d
  {
    if d > 1 {
      FirstItems(w, d - 1);
      assert Package(w, d - 1, 0) == Add(w[0], w[1]);
      AddHeavier(w[0], w[1]);
    }
    LeavesStart(w, d);
  }

  lemma LeavesStart(w: seq<Weight>, d: nat)
    requires Modest(w) && d > 0
    requires Size(|w|, d - 1) / 2 > 0 ==> !Leq(Package(w, d - 1, 0), w[0]) && !Leq(Package(w, d - 1, 0), w[1])
    ensures Size(|w|, d) >= |w| >= 3
    ensures Item(w, d, 0) == w[0] && Item(w, d, 1) == w[1] && Leaves(w, d, 2) == 2
  {
    hide Package, Leq, Sorted, PrefixSum;
    assert Leaves(w, d, 0) == 0;
    hide Leaves, Size;
    LeafFirst(w, d, 0);
    LeafFirst(w, d, 1);
  }

  lemma {:induction false} RowNone(w: seq<Weight>, d: nat)
    ensures Row(w, d, 0) == Repeat(0, d)
    decreases d
  {
    if d > 0 { RowNone(w, d - 1); }
  }

  lemma FirstLevel(w: seq<Weight>, d: nat, l: Level)
    requires Modest(w) && 1 <= d <= MAX_CODE_LENGTH && l.m == 2
    requires l.row == [2] + Repeat(0, MAX_CODE_LENGTH) && NextLeaf(w, l)
    requires Unpack(l.prev) == w[1] && Unpack(l.pkg) == Add(w[0], w[1])
    ensures LevelOk(w, d, l)
  {
    FirstItems(w, d);
    hide Leaves, Item, Size, Package, Add, Leq, PrefixSum, Sorted;
    RowUnfold(w, d, 2);
    RowNone(w, d - 1);
    RepeatSplit(0, d - 1, MAX_CODE_LENGTH + 1 - d);
  }

  /** Room for the steps that are due at the level below. */
  lemma PackagesDue(w: seq<Weight>, d: nat, l: Level)
    requires Modest(w) && LevelOk(w, d, l)
    ensures l.row[0] <= l.m && 2 * (l.m - l.row[0]) + 2 <= 2 * |w| - 2
  {
    if Exact(w, d, l) {
      ExactRow(w, d, l);
      PackagesBounded(w, d, l.m);
    }
  }

  /** A level deep enough for the alphabet has used every leaf after `2n - 2` items. */
  lemma FullLevel(w: seq<Weight>, d: nat, l: Level)
    requires Modest(w) && LevelOk(w, d, l) && l.m == 2 * |w| - 2 && |w| <= Pow2(d)
    ensures l.row == Row(w, d, l.m) + Repeat(0, MAX_CODE_LENGTH + 1 - d) && l.row[0] == |w|
  {
    ExactRow(w, d, l);
    RowFull(w, d);
  }
}
