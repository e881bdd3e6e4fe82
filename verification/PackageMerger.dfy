/** The lazy package merge: one pass over all heights at once. */
module PackageMerger {
  import opened Common
  import opened Powers
  import opened PackageMerge
  import opened PackageRows
  import opened PackedWeights
  import opened MergeLevels

  /** `w` are the weights of `leaf[1..]`, which descend, in ascending order. */
  ghost predicate LeafWeights(leaf: seq<uint64>, w: seq<Weight>) {
    && |leaf| == |w| + 1 && Modest(w) && leaf[0] == INFINITE
    && forall i {:trigger w[i]} :: 0 <= i < |w| ==> LeafAt(leaf, w, i)
  }

  ghost predicate LeafAt(leaf: seq<uint64>, w: seq<Weight>, i: nat)
    requires i < |w| && |leaf| == |w| + 1
  {
    leaf[|w| - i] != INFINITE && Unpack(leaf[|w| - i]) == w[i]
  }

  ghost predicate Shaped(tree: seq<seq<nat>>, pkg: seq<uint64>, prev: seq<uint64>, curr: seq<uint64>, m: seq<nat>) {
    |tree| == |pkg| == |prev| == |curr| == |m| == MAX_CODE_LENGTH + 1
  }

  /** Level `d` of the arrays after `m[d]` items. */
  ghost function At(tree: seq<seq<nat>>, pkg: seq<uint64>, prev: seq<uint64>, curr: seq<uint64>, m: seq<nat>,
                    d: nat): Level
    requires Shaped(tree, pkg, prev, curr, m) && d <= MAX_CODE_LENGTH
  {
    Level(m[d], tree[d], pkg[d], prev[d], curr[d])
  }

  ghost predicate Levels(w: seq<Weight>, tree: seq<seq<nat>>, pkg: seq<uint64>, prev: seq<uint64>, curr: seq<uint64>,
                         m: seq<nat>) {
    && Shaped(tree, pkg, prev, curr, m) && pkg[0] == INFINITE
    && forall d {:trigger tree[d]} :: 1 <= d <= MAX_CODE_LENGTH ==>
         |tree[d]| == MAX_CODE_LENGTH + 1 && LevelOk(w, d, Level(m[d], tree[d], pkg[d], prev[d], curr[d]))
  }

  /** The steps `due` at each level: every package taken above asks for two
      items, and `width` pairs of items are asked for at the top. */
  ghost predicate Flow(tree: seq<seq<nat>>, m: seq<nat>, due: multiset<nat>, width: nat) {
    && |tree| == |m| == MAX_CODE_LENGTH + 1
    && (forall d {:trigger tree[d]} :: 1 <= d <= MAX_CODE_LENGTH ==> tree[d] != [])
    && m[MAX_CODE_LENGTH] + due[MAX_CODE_LENGTH] == 2 * width
    && forall d {:trigger tree[d]} :: 2 <= d <= MAX_CODE_LENGTH ==>
         tree[d][0] <= m[d] && m[d - 1] + due[d - 1] == 2 * (m[d] - tree[d][0]) + 2
  }

  ghost function Due(todo: seq<nat>): multiset<nat> {
    if todo == [] then multiset{} else Due(todo[..|todo| - 1]) + multiset{todo[|todo| - 1]}
  }

  lemma DueLast(stack: seq<nat>, d: nat)
    ensures Due(stack + [d]) == Due(stack) + multiset{d}
  {
    assert (stack + [d])[..|stack|] == stack;
  }

  /** The stack of levels: descending, and strictly so below the current one. */
  ghost predicate Stacked(todo: seq<nat>) {
    && (forall i {:trigger todo[i]} :: 0 <= i < |todo| ==> 1 <= todo[i] <= MAX_CODE_LENGTH)
    && (forall i {:trigger todo[i]} :: 0 <= i < |todo| - 1 ==> todo[i] + i <= MAX_CODE_LENGTH)
    && forall i, j {:trigger todo[i], todo[j]} :: 0 <= i < j < |todo| ==>
         if j < |todo| - 1 then todo[i] > todo[j] else todo[i] >= todo[j]
  }

  /** What the steps due can still expand to. */
  function Effort(todo: seq<nat>): nat {
    if todo == [] then 0 else Effort(todo[..|todo| - 1]) + Pow2(2 * todo[|todo| - 1])
  }

  lemma EffortDrops(stack: seq<nat>, d: nat)
    ensures Effort(stack) < Effort(stack + [d])
    ensures d > 0 ==> Effort(stack + [d - 1] + [d - 1]) < Effort(stack + [d])
  {
    assert (stack + [d])[..|stack|] == stack;
    if d > 0 {
      assert (stack + [d - 1] + [d - 1])[..|stack| + 1] == stack + [d - 1];
      assert (stack + [d - 1])[..|stack|] == stack;
      assert Pow2(2 * d) == 2 * Pow2(2 * d - 1) == 4 * Pow2(2 * (d - 1));
    }
  }

  lemma StackPop(stack: seq<nat>, d: nat)
    requires Stacked(stack + [d])
    ensures Stacked(stack)
  {
    var todo := stack + [d];
    assert forall i {:trigger stack[i]} :: 0 <= i < |stack| ==> stack[i] == todo[i];
  }

  lemma StackPush(stack: seq<nat>, d: nat)
    requires Stacked(stack + [d]) && d > 1
    ensures |stack| < MAX_CODE_LENGTH && Stacked(stack + [d - 1] + [d - 1])
  {
    var todo, next := stack + [d], stack + [d - 1] + [d - 1];
    assert forall i {:trigger next[i]} :: 0 <= i < |next| ==> next[i] == if i < |stack| then todo[i] else d - 1;
    assert todo[|stack|] == d;
    if stack != [] { assert todo[|stack| - 1] >= d; }
  }

  /** Nothing is due below the current level. */
  lemma NoneBelow(stack: seq<nat>, d: nat)
    requires Stacked(stack + [d])
    ensures forall x :: 0 <= x < d ==> Due(stack + [d])[x] == 0
  {
    var todo := stack + [d];
    assert todo[|stack|] == d;
    DueAbove(todo, d);
  }

  lemma {:induction false} DueAbove(todo: seq<nat>, d: nat)
    requires forall i {:trigger todo[i]} :: 0 <= i < |todo| ==> todo[i] >= d
    ensures forall x :: 0 <= x < d ==> Due(todo)[x] == 0
    decreases |todo|
  {
    if todo != [] { DueAbove(todo[..|todo| - 1], d); }
  }

  /** The current level stands right before the package that the level below offers, and
      has room for a step. */
  lemma CurrentLevel(w: seq<Weight>, tree: seq<seq<nat>>, pkg: seq<uint64>, prev: seq<uint64>, curr: seq<uint64>,
                     m: seq<nat>, stack: seq<nat>, d: nat, width: nat)
    requires Modest(w) && Levels(w, tree, pkg, prev, curr, m) && Stacked(stack + [d]) && width < |w|
    requires Flow(tree, m, Due(stack + [d]), width)
    ensures 1 <= d <= MAX_CODE_LENGTH && m[d] < 2 * |w| - 2
    ensures d > 1 ==> Aligned(At(tree, pkg, prev, curr, m, d), At(tree, pkg, prev, curr, m, d - 1))
  {
    hide LevelOk, Row, Size, PrefixSum, Sorted;
    var todo := stack + [d];
    assert todo[|stack|] == d;
    NoneBelow(stack, d);
    hide Stacked;
    DueLast(stack, d);
    assert Due(todo)[d] > 0;
    LevelAt(w, tree, pkg, prev, curr, m, d);
    PackagesDue(w, d, At(tree, pkg, prev, curr, m, d));
    if d < MAX_CODE_LENGTH {
      LevelAt(w, tree, pkg, prev, curr, m, d + 1);
      PackagesDue(w, d + 1, At(tree, pkg, prev, curr, m, d + 1));
    }
  }

  lemma FlowPackage(tree: seq<seq<nat>>, m: seq<nat>, due: multiset<nat>, d: nat, width: nat, row: seq<nat>)
    requires Flow(tree, m, due, width) && 1 < d <= MAX_CODE_LENGTH && due[d] > 0
    requires row != [] && row[0] == tree[d][0]
    ensures Flow(tree[d := row], m[d := m[d] + 1], due - multiset{d} + multiset{d - 1, d - 1}, width)
  {
    var tree', m', due' := tree[d := row], m[d := m[d] + 1], due - multiset{d} + multiset{d - 1, d - 1};
    forall x {:trigger tree'[x]} | 2 <= x <= MAX_CODE_LENGTH
      ensures tree'[x][0] <= m'[x] && m'[x - 1] + due'[x - 1] == 2 * (m'[x] - tree'[x][0]) + 2
    {
      assert tree[x] != [];
    }
  }

  lemma FlowLeaf(tree: seq<seq<nat>>, m: seq<nat>, due: multiset<nat>, d: nat, width: nat, row: seq<nat>)
    requires Flow(tree, m, due, width) && 1 <= d <= MAX_CODE_LENGTH && due[d] > 0
    requires row != [] && (d > 1 ==> row[0] == tree[d][0] + 1)
    ensures Flow(tree[d := row], m[d := m[d] + 1], due - multiset{d}, width)
  {
    var tree', m', due' := tree[d := row], m[d := m[d] + 1], due - multiset{d};
    forall x {:trigger tree'[x]} | 2 <= x <= MAX_CODE_LENGTH
      ensures tree'[x][0] <= m'[x] && m'[x - 1] + due'[x - 1] == 2 * (m'[x] - tree'[x][0]) + 2
    {
      assert tree[x] != [];
    }
  }

  lemma LevelDepth(w: seq<Weight>, d: nat, l: Level)
    requires LevelOk(w, d, l)
    ensures 1 <= d <= MAX_CODE_LENGTH && |l.row| == MAX_CODE_LENGTH + 1
  {
  }

  /** One level may change on its own. */
  lemma LevelsUpdate(w: seq<Weight>, tree: seq<seq<nat>>, pkg: seq<uint64>, prev: seq<uint64>, curr: seq<uint64>,
                     m: seq<nat>, d: nat, l: Level)
    requires Levels(w, tree, pkg, prev, curr, m) && LevelOk(w, d, l)
    ensures Levels(w, tree[d := l.row], pkg[d := l.pkg], prev[d := l.prev], curr[d := l.curr], m[d := l.m])
  {
    LevelDepth(w, d, l);
    var tree', pkg', prev', curr', m' := tree[d := l.row], pkg[d := l.pkg], prev[d := l.prev], curr[d := l.curr], m[d := l.m];
    forall x {:trigger tree'[x]} | 1 <= x <= MAX_CODE_LENGTH
      ensures |tree'[x]| == MAX_CODE_LENGTH + 1 && LevelOk(w, x, Level(m'[x], tree'[x], pkg'[x], prev'[x], curr'[x]))
    {
      if x == d {
        assert Level(m'[x], tree'[x], pkg'[x], prev'[x], curr'[x]) == l;
      } else {
        assert tree[x] == tree'[x];
      }
    }
  }

  lemma LevelAt(w: seq<Weight>, tree: seq<seq<nat>>, pkg: seq<uint64>, prev: seq<uint64>, curr: seq<uint64>,
                m: seq<nat>, d: nat)
    requires Levels(w, tree, pkg, prev, curr, m) && 1 <= d <= MAX_CODE_LENGTH
    ensures LevelOk(w, d, At(tree, pkg, prev, curr, m, d))
  {
    assert tree[d] == tree[d];
  }

  lemma {:induction false} AllItems(w: seq<Weight>, tree: seq<seq<nat>>, pkg: seq<uint64>, prev: seq<uint64>,
                                    curr: seq<uint64>, m: seq<nat>, h: nat)
    requires Modest(w) && Levels(w, tree, pkg, prev, curr, m) && Flow(tree, m, multiset{}, |w| - 1)
    requires 1 <= h <= MAX_CODE_LENGTH && |w| <= Pow2(h)
    ensures m[h] == 2 * |w| - 2 && tree[h] != [] && tree[h][0] == |w|
    decreases MAX_CODE_LENGTH - h
  {
    hide LevelOk, Row, Size, PrefixSum, Sorted, Repeat;
    LevelAt(w, tree, pkg, prev, curr, m, h);
    if h < MAX_CODE_LENGTH {
      Pow2Monotone(h, h + 1);
      hide Pow2;
      AllItems(w, tree, pkg, prev, curr, m, h + 1);
    }
    FullLevel(w, h, At(tree, pkg, prev, curr, m, h));
  }

  lemma AllFull(w: seq<Weight>, tree: seq<seq<nat>>, pkg: seq<uint64>, prev: seq<uint64>, curr: seq<uint64>,
                m: seq<nat>, h: nat)
    requires Modest(w) && Levels(w, tree, pkg, prev, curr, m) && Flow(tree, m, multiset{}, |w| - 1)
    requires 1 <= h <= MAX_CODE_LENGTH && |w| <= Pow2(h)
    ensures FullRow(w, h, tree[h])
  {
    hide LevelOk, Row, Size, PrefixSum, Sorted, Repeat;
    Enough(|w|, h);
    LevelAt(w, tree, pkg, prev, curr, m, h);
    AllItems(w, tree, pkg, prev, curr, m, h);
    FullLevel(w, h, At(tree, pkg, prev, curr, m, h));
  }

  /** What package merge leaves for height `h`. */
  ghost predicate FullRow(w: seq<Weight>, h: nat, row: seq<nat>) {
    && 1 <= h <= MAX_CODE_LENGTH && 2 <= |w| && 2 * |w| - 2 <= Size(|w|, h)
    && row == Row(w, h, 2 * |w| - 2) + Repeat(0, MAX_CODE_LENGTH + 1 - h)
  }

  method Merge(tree: array<seq<nat>>, count: array<nat>, leaf: array<uint64>, n: nat, ghost w: seq<Weight>)
    requires tree.Length == MAX_CODE_LENGTH + 1 && count.Length > MAX_CODE_LENGTH
    requires forall d {:trigger tree[d]} :: 1 <= d < tree.Length ==> tree[d] == Repeat(0, MAX_CODE_LENGTH + 1)
    requires leaf.Length > n == |w| && LeafWeights(leaf[..n + 1], w)
    modifies tree, count
    ensures forall h {:trigger tree[h]} :: 1 <= h <= MAX_CODE_LENGTH && n <= Pow2(h) ==> FullRow(w, h, tree[h])
  {
    var pkg := new uint64[MAX_CODE_LENGTH + 1](_ => 0);
    var prev := new uint64[MAX_CODE_LENGTH + 1](_ => 0);
    var curr := new uint64[MAX_CODE_LENGTH + 1](_ => 0);
    InitLevels(tree, pkg, prev, curr, leaf, n, w);
    ghost var m := Repeat(2, MAX_CODE_LENGTH + 1);
    for width := 2 to n
      invariant Levels(w, tree[..], pkg[..], prev[..], curr[..], m)
      invariant Flow(tree[..], m, multiset{}, width - 1)
    {
      m := AddPair(tree, pkg, prev, curr, count, leaf, n, width, w, m);
    }
    forall h {:trigger tree[h]} | 1 <= h <= MAX_CODE_LENGTH && n <= Pow2(h) ensures FullRow(w, h, tree[h]) {
      AllFull(w, tree[..], pkg[..], prev[..], curr[..], m, h);
    }
  }

  method InitLevels(tree: array<seq<nat>>, pkg: array<uint64>, prev: array<uint64>, curr: array<uint64>,
               leaf: array<uint64>, n: nat, ghost w: seq<Weight>)
    requires tree.Length == pkg.Length == prev.Length == curr.Length == MAX_CODE_LENGTH + 1
    requires pkg != prev && prev != curr && curr != pkg && leaf != pkg && leaf != prev && leaf != curr
    requires forall d {:trigger tree[d]} :: 1 <= d < tree.Length ==> tree[d] == Repeat(0, MAX_CODE_LENGTH + 1)
    requires leaf.Length > n == |w| && LeafWeights(leaf[..n + 1], w)
    modifies tree, pkg, prev, curr
    ensures Levels(w, tree[..], pkg[..], prev[..], curr[..], Repeat(2, MAX_CODE_LENGTH + 1))
    ensures Flow(tree[..], Repeat(2, MAX_CODE_LENGTH + 1), multiset{}, 1)
  {
    hide LevelOk;
    pkg[0] := INFINITE;
    for d := 1 to MAX_CODE_LENGTH + 1
      invariant pkg[0] == INFINITE
      invariant forall x {:trigger tree[x]} :: d <= x < tree.Length ==> tree[x] == Repeat(0, MAX_CODE_LENGTH + 1)
      invariant forall x {:trigger tree[x]} :: 1 <= x < d ==>
        |tree[x]| == MAX_CODE_LENGTH + 1 && tree[x][0] == 2 && LevelOk(w, x, Level(2, tree[x], pkg[x], prev[x], curr[x]))
    {
      tree[d] := tree[d][0 := 2];
      pkg[d] := WeightAdd(leaf[n], leaf[n - 1]);
      prev[d] := leaf[n - 1];
      curr[d] := leaf[n - 2];
      InitialLevel(leaf[..n + 1], w, d, Level(2, tree[d], pkg[d], prev[d], curr[d]));
    }
    FirstLevels(w, tree[..], pkg[..], prev[..], curr[..], Repeat(2, MAX_CODE_LENGTH + 1));
  }

  lemma FirstLevels(w: seq<Weight>, tree: seq<seq<nat>>, pkg: seq<uint64>, prev: seq<uint64>, curr: seq<uint64>,
                    m: seq<nat>)
    requires Shaped(tree, pkg, prev, curr, m) && pkg[0] == INFINITE && m == Repeat(2, MAX_CODE_LENGTH + 1)
    requires forall x {:trigger tree[x]} :: 1 <= x <= MAX_CODE_LENGTH ==>
      |tree[x]| == MAX_CODE_LENGTH + 1 && tree[x][0] == 2 && LevelOk(w, x, Level(2, tree[x], pkg[x], prev[x], curr[x]))
    ensures Levels(w, tree, pkg, prev, curr, m) && Flow(tree, m, multiset{}, 1)
  {
  }

  lemma InitialLevel(leaf: seq<uint64>, w: seq<Weight>, d: nat, l: Level)
    requires LeafWeights(leaf, w) && 1 <= d <= MAX_CODE_LENGTH
    requires var n := |w|;
      l == Level(2, [2] + Repeat(0, MAX_CODE_LENGTH), WeightAdd(leaf[n], leaf[n - 1]), leaf[n - 1], leaf[n - 2])
    ensures LevelOk(w, d, l)
  {
    var n := |w|;
    assert Unpack(leaf[n - 0]) == w[0] && Unpack(leaf[n - 1]) == w[1] && Unpack(leaf[n - 2]) == w[2];
    FrequencyBound(w, 0);
    FrequencyBound(w, 1);
    LeafDepth(w, 0);
    LeafDepth(w, 1);
    SmallWord(leaf[n]);
    SmallWord(leaf[n - 1]);
    AddWords(leaf[n], leaf[n - 1]);
    FirstLevel(w, d, l);
  }

  /** Asks the top level for two more items. */
  method AddPair(tree: array<seq<nat>>, pkg: array<uint64>, prev: array<uint64>, curr: array<uint64>,
                 count: array<nat>, leaf: array<uint64>, n: nat, ghost width: nat, ghost w: seq<Weight>,
                 ghost m0: seq<nat>)
    returns (ghost m: seq<nat>)
    requires tree.Length == pkg.Length == prev.Length == curr.Length == MAX_CODE_LENGTH + 1 < count.Length + 1
    requires pkg != prev && prev != curr && curr != pkg && leaf != pkg && leaf != prev && leaf != curr
    requires leaf.Length > n == |w| && LeafWeights(leaf[..n + 1], w) && 2 <= width < n
    requires Levels(w, tree[..], pkg[..], prev[..], curr[..], m0) && Flow(tree[..], m0, multiset{}, width - 1)
    modifies tree, pkg, prev, curr, count
    ensures Levels(w, tree[..], pkg[..], prev[..], curr[..], m) && Flow(tree[..], m, multiset{}, width)
  {
    hide Levels, Flow, Stacked, LeafWeights, Modest, Due, Effort;
    m := m0;
    count[0] := MAX_CODE_LENGTH;
    var depth: nat, next: nat := MAX_CODE_LENGTH, 1;
    ghost var stack := count[..next];
    FirstDue(stack, tree[..], m, width);
    while true
      invariant next <= MAX_CODE_LENGTH && stack == count[..next] && Stacked(stack + [depth])
      invariant Levels(w, tree[..], pkg[..], prev[..], curr[..], m)
      invariant Flow(tree[..], m, Due(stack + [depth]), width)
      decreases Effort(stack + [depth])
    {
      DepthRange(stack, depth);
      LeafModest(leaf[..n + 1], w);
      LevelsShaped(w, tree[..], pkg[..], prev[..], curr[..], m, depth);
      EffortDrops(stack, depth);
      if pkg[depth - 1] <= curr[depth] && depth != 1 {
        StackPush(stack, depth);
        m := OnePackage(tree, pkg, prev, curr, depth, w, m, stack, width);
        depth := depth - 1;
        count[next] := depth;
        next := next + 1;
        stack := stack + [depth];
        continue;
      }
      StackPop(stack, depth);
      m := OneLeaf(tree, pkg, prev, curr, leaf, n, depth, w, m, stack, width);
      if next == 0 {
        NoneDue(stack);
        break;
      }
      next := next - 1;
      depth := count[next];
      assert stack == count[..next] + [depth];
      stack := count[..next];
    }
  }

  lemma FirstDue(stack: seq<nat>, tree: seq<seq<nat>>, m: seq<nat>, width: nat)
    requires stack == [MAX_CODE_LENGTH] && width > 0 && Flow(tree, m, multiset{}, width - 1)
    ensures Stacked(stack + [MAX_CODE_LENGTH]) && Flow(tree, m, Due(stack + [MAX_CODE_LENGTH]), width)
  {
    DueLast(stack, MAX_CODE_LENGTH);
    DueLast([], MAX_CODE_LENGTH);
    assert [] + [MAX_CODE_LENGTH] == stack;
  }

  lemma DepthRange(stack: seq<nat>, d: nat)
    requires Stacked(stack + [d])
    ensures 1 <= d <= MAX_CODE_LENGTH
  {
    assert (stack + [d])[|stack|] == d;
  }

  lemma LevelsShaped(w: seq<Weight>, tree: seq<seq<nat>>, pkg: seq<uint64>, prev: seq<uint64>, curr: seq<uint64>,
                     m: seq<nat>, d: nat)
    requires Modest(w) && Levels(w, tree, pkg, prev, curr, m) && 1 <= d <= MAX_CODE_LENGTH
    ensures Shaped(tree, pkg, prev, curr, m) && pkg[0] == INFINITE && |tree[d]| == MAX_CODE_LENGTH + 1
    ensures tree[d][0] <= |w| && (curr[d] != INFINITE ==> tree[d][0] < |w|)
  {
    LevelAt(w, tree, pkg, prev, curr, m, d);
  }

  /** Taking the package below, on the values of the arrays. */
  lemma PackageLevels(w: seq<Weight>, tree: seq<seq<nat>>, pkg: seq<uint64>, prev: seq<uint64>, curr: seq<uint64>,
                      m: seq<nat>, stack: seq<nat>, d: nat, width: nat)
    requires Modest(w) && Levels(w, tree, pkg, prev, curr, m) && Stacked(stack + [d]) && width < |w| && d > 1
    requires Flow(tree, m, Due(stack + [d]), width)
    requires d <= MAX_CODE_LENGTH && pkg[d - 1] <= curr[d]
    ensures |tree[d]| == |tree[d - 1]| == MAX_CODE_LENGTH + 1
    ensures var row := [tree[d][0]] + tree[d - 1][..MAX_CODE_LENGTH];
      var tree', m' := tree[d := row], m[d := m[d] + 1];
      && Levels(w, tree', pkg[d := WeightAdd(prev[d], pkg[d - 1])], prev[d := pkg[d - 1]], curr, m')
      && Flow(tree', m', Due(stack + [d - 1] + [d - 1]), width)
  {
    hide Modest, Stacked, LevelOk, Due, WeightAdd;
    LevelAt(w, tree, pkg, prev, curr, m, d);
    LevelAt(w, tree, pkg, prev, curr, m, d - 1);
    LevelsShaped(w, tree, pkg, prev, curr, m, d);
    LevelsShaped(w, tree, pkg, prev, curr, m, d - 1);
    CurrentLevel(w, tree, pkg, prev, curr, m, stack, d, width);
    hide Levels;
    var l, below := At(tree, pkg, prev, curr, m, d), At(tree, pkg, prev, curr, m, d - 1);
    PackageStep(w, d, l, below);
    LevelsUpdate(w, tree, pkg, prev, curr, m, d, TakePackage(l, below));
    assert curr[d := curr[d]] == curr;
    DueMore(stack, d);
    FlowPackage(tree, m, Due(stack + [d]), d, width, TakePackage(l, below).row);
  }

  lemma DueMore(stack: seq<nat>, d: nat)
    requires d > 0
    ensures Due(stack + [d])[d] > 0 && Due(stack + [d]) - multiset{d} == Due(stack)
    ensures Due(stack + [d]) - multiset{d} + multiset{d - 1, d - 1} == Due(stack + [d - 1] + [d - 1])
  {
    DueLast(stack, d);
    DueLast(stack, d - 1);
    DueLast(stack + [d - 1], d - 1);
    hide Due;
    Bags(Due(stack), d);
  }

  lemma Bags(a: multiset<nat>, d: nat)
    requires d > 0
    ensures (a + multiset{d})[d] > 0 && a + multiset{d} - multiset{d} == a
    ensures a + multiset{d} - multiset{d} + multiset{d - 1, d - 1} == a + multiset{d - 1} + multiset{d - 1}
  {
    assert multiset{d - 1, d - 1} == multiset{d - 1} + multiset{d - 1};
  }

  lemma NoneDue(stack: seq<nat>)
    requires stack == []
    ensures Due(stack) == multiset{}
  {
  }

  method OnePackage(tree: array<seq<nat>>, pkg: array<uint64>, prev: array<uint64>, curr: array<uint64>,
                    d: nat, ghost w: seq<Weight>, ghost m: seq<nat>, ghost stack: seq<nat>, ghost width: nat)
    returns (ghost m': seq<nat>)
    requires tree.Length == pkg.Length == prev.Length == curr.Length == MAX_CODE_LENGTH + 1
    requires pkg != prev && prev != curr && curr != pkg
    requires Modest(w) && Levels(w, tree[..], pkg[..], prev[..], curr[..], m) && Stacked(stack + [d]) && width < |w|
    requires Flow(tree[..], m, Due(stack + [d]), width)
    requires 1 < d <= MAX_CODE_LENGTH && pkg[d - 1] <= curr[d]
    modifies tree, pkg, prev
    ensures Levels(w, tree[..], pkg[..], prev[..], curr[..], m')
    ensures Flow(tree[..], m', Due(stack + [d - 1] + [d - 1]), width)
  {
    hide Levels, Flow, Stacked, Modest, Due, WeightAdd;
    ghost var tree0, pkg0, prev0 := tree[..], pkg[..], prev[..];
    PackageLevels(w, tree0, pkg0, prev0, curr[..], m, stack, d, width);
    tree[d] := [tree[d][0]] + tree[d - 1][..MAX_CODE_LENGTH];
    pkg[d] := WeightAdd(prev[d], pkg[d - 1]);
    prev[d] := pkg[d - 1];
    LevelsLength(w, tree0, pkg0, prev0, curr[..], m);
    m' := m[d := m[d] + 1];
    assert tree[..] == tree0[d := [tree0[d][0]] + tree0[d - 1][..MAX_CODE_LENGTH]];
    assert pkg[..] == pkg0[d := WeightAdd(prev0[d], pkg0[d - 1])];
    assert prev[..] == prev0[d := pkg0[d - 1]];
  }

  lemma LevelsLength(w: seq<Weight>, tree: seq<seq<nat>>, pkg: seq<uint64>, prev: seq<uint64>, curr: seq<uint64>,
                     m: seq<nat>)
    requires Levels(w, tree, pkg, prev, curr, m)
    ensures Shaped(tree, pkg, prev, curr, m)
  {
  }

  /** Taking the next leaf. */
  lemma LeafLevels(w: seq<Weight>, tree: seq<seq<nat>>, pkg: seq<uint64>, prev: seq<uint64>, curr: seq<uint64>,
                   m: seq<nat>, stack: seq<nat>, d: nat, width: nat, next: uint64)
    requires Modest(w) && Levels(w, tree, pkg, prev, curr, m) && Stacked(stack + [d]) && width < |w|
    requires Flow(tree, m, Due(stack + [d]), width)
    requires 1 <= d <= MAX_CODE_LENGTH && pkg[d - 1] > curr[d] && |tree[d]| == MAX_CODE_LENGTH + 1
    requires NextLeaf(w, Level(m[d] + 1, tree[d][0 := tree[d][0] + 1], 0, 0, next))
    ensures var tree', m' := tree[d := tree[d][0 := tree[d][0] + 1]], m[d := m[d] + 1];
      && Levels(w, tree', pkg[d := WeightAdd(prev[d], curr[d])], prev[d := curr[d]], curr[d := next], m')
      && Flow(tree', m', Due(stack), width)
  {
    hide Modest, Stacked, LevelOk, Due, WeightAdd;
    LevelAt(w, tree, pkg, prev, curr, m, d);
    LevelsShaped(w, tree, pkg, prev, curr, m, d);
    CurrentLevel(w, tree, pkg, prev, curr, m, stack, d, width);
    var l := At(tree, pkg, prev, curr, m, d);
    var below := l;
    if d > 1 {
      below := At(tree, pkg, prev, curr, m, d - 1);
      LevelAt(w, tree, pkg, prev, curr, m, d - 1);
    }
    hide Levels;
    LeafStep(w, d, l, below, next);
    LevelsUpdate(w, tree, pkg, prev, curr, m, d, TakeLeaf(w, l, next));
    DueMore(stack, d);
    FlowLeaf(tree, m, Due(stack + [d]), d, width, TakeLeaf(w, l, next).row);
  }

  lemma NothingLevels(w: seq<Weight>, tree: seq<seq<nat>>, pkg: seq<uint64>, prev: seq<uint64>, curr: seq<uint64>,
                      m: seq<nat>, stack: seq<nat>, width: nat)
    requires Modest(w) && Levels(w, tree, pkg, prev, curr, m) && Stacked(stack + [1]) && width < |w|
    requires Flow(tree, m, Due(stack + [1]), width) && pkg[0] <= curr[1]
    ensures Levels(w, tree, pkg, prev, curr, m[1 := m[1] + 1])
    ensures Flow(tree, m[1 := m[1] + 1], Due(stack), width)
  {
    hide Modest, Stacked, LevelOk, Due;
    LevelAt(w, tree, pkg, prev, curr, m, 1);
    LevelsShaped(w, tree, pkg, prev, curr, m, 1);
    CurrentLevel(w, tree, pkg, prev, curr, m, stack, 1, width);
    hide Levels;
    var l := At(tree, pkg, prev, curr, m, 1);
    NothingStep(w, l);
    LevelsUpdate(w, tree, pkg, prev, curr, m, 1, l.(m := l.m + 1));
    assert tree[1 := tree[1]] == tree && pkg[1 := pkg[1]] == pkg;
    assert prev[1 := prev[1]] == prev && curr[1 := curr[1]] == curr;
    DueMore(stack, 1);
    FlowLeaf(tree, m, Due(stack + [1]), 1, width, tree[1]);
  }

  method OneLeaf(tree: array<seq<nat>>, pkg: array<uint64>, prev: array<uint64>, curr: array<uint64>,
                 leaf: array<uint64>, n: nat, d: nat,
                 ghost w: seq<Weight>, ghost m: seq<nat>, ghost stack: seq<nat>, ghost width: nat)
    returns (ghost m': seq<nat>)
    requires tree.Length == pkg.Length == prev.Length == curr.Length == MAX_CODE_LENGTH + 1
    requires pkg != prev && prev != curr && curr != pkg && leaf != pkg && leaf != prev && leaf != curr
    requires leaf.Length > n == |w| && LeafWeights(leaf[..n + 1], w) && width < n
    requires Levels(w, tree[..], pkg[..], prev[..], curr[..], m) && Stacked(stack + [d])
    requires Flow(tree[..], m, Due(stack + [d]), width)
    requires 1 <= d <= MAX_CODE_LENGTH && (pkg[d - 1] > curr[d] || d == 1)
    modifies tree, pkg, prev, curr
    ensures Levels(w, tree[..], pkg[..], prev[..], curr[..], m') && Flow(tree[..], m', Due(stack), width)
  {
    hide Levels, Flow, Stacked, Modest, Due, WeightAdd, LeafWeights;
    ghost var tree0, pkg0, prev0, curr0 := tree[..], pkg[..], prev[..], curr[..];
    LeafModest(leaf[..n + 1], w);
    LevelsShaped(w, tree0, pkg0, prev0, curr0, m, d);
    m' := m[d := m[d] + 1];
    if pkg[d - 1] > curr[d] {
      var taken := tree[d][0] + 1;
      var next := leaf[n - taken];
      LeafAfter(leaf[..n + 1], w, Level(m[d] + 1, tree[d][0 := taken], 0, 0, next));
      LeafLevels(w, tree0, pkg0, prev0, curr0, m, stack, d, width, next);
      tree[d] := tree[d][0 := taken];
      pkg[d] := WeightAdd(prev[d], curr[d]);
      prev[d] := curr[d];
      curr[d] := next;
      assert tree[..] == tree0[d := tree0[d][0 := tree0[d][0] + 1]];
      assert pkg[..] == pkg0[d := WeightAdd(prev0[d], curr0[d])];
      assert prev[..] == prev0[d := curr0[d]] && curr[..] == curr0[d := next];
    } else {
      NothingLevels(w, tree0, pkg0, prev0, curr0, m, stack, width);
    }
  }

  lemma LeafModest(leaf: seq<uint64>, w: seq<Weight>)
    requires LeafWeights(leaf, w)
    ensures Modest(w)
  {
  }

  lemma LeafAfter(leaf: seq<uint64>, w: seq<Weight>, l: Level)
    requires LeafWeights(leaf, w) && l.row != [] && l.row[0] <= |w| && l.curr == leaf[|w| - l.row[0]]
    ensures NextLeaf(w, l)
  {
    hide Modest;
  }
}
