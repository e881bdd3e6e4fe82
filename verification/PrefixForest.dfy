/** The prefix codes of a block: counting what each tree has to code, making the codes of
    the trees in use, and the second tree that the format asks for. */
module PrefixForest {
  import opened Common
  import opened PrefixCode
  import opened CodeLengths
  import opened MergeLevels
  import opened Alphabet
  import opened LeafSorting
  import opened CodeAssigner

  function Groups(n: nat): nat {
    (n + GROUP_SIZE - 1) / GROUP_SIZE
  }

  /** How many trees to use for a block of `nm` values. */
  function TreesFor(nm: nat): nat {
    if nm > 2400 then 6 else if nm > 1200 then 5 else if nm > 600 then 4
    else if nm > 300 then 3 else if nm > 150 then 2 else 1
  }

  // ----- counting -----

  /** The values of a block, completed to whole groups with dummies, and the tree chosen
      for each group. */
  ghost predicate Grouped(values: seq<nat>, selector: seq<nat>, n: nat) {
    && |values| == GROUP_SIZE * |selector|
    && (forall i {:trigger values[i]} :: 0 <= i < |values| ==> values[i] <= n)
    && forall g {:trigger selector[g]} :: 0 <= g < |selector| ==> selector[g] < MAX_TREES
  }

  /** The frequencies of every tree after `k` values. */
  ghost function Tally(values: seq<nat>, selector: seq<nat>, n: nat, k: nat): (f: seq<seq<nat>>)
    requires Grouped(values, selector, n) && k <= |values|
    ensures |f| == MAX_TREES && forall t {:trigger f[t]} :: 0 <= t < MAX_TREES ==> |f[t]| == n + 1
  {
    if k == 0 then Repeat<seq<nat>>(Repeat<nat>(0, n + 1), MAX_TREES)
    else
      var f, t, v := Tally(values, selector, n, k - 1), selector[(k - 1) / GROUP_SIZE], values[k - 1];
      f[t := f[t][v := f[t][v] + 1]]
  }

  lemma TallyNone(values: seq<nat>, selector: seq<nat>, n: nat)
    requires Grouped(values, selector, n)
    ensures Tally(values, selector, n, 0) == Repeat<seq<nat>>(Repeat<nat>(0, n + 1), MAX_TREES)
  {
  }

  lemma TallyNext(values: seq<nat>, selector: seq<nat>, n: nat, g: nat, i: nat)
    requires Grouped(values, selector, n) && g < |selector| && i < GROUP_SIZE
    ensures GROUP_SIZE * g + i < |values| && selector[g] < MAX_TREES && values[GROUP_SIZE * g + i] <= n
    ensures var k := GROUP_SIZE * g + i;
      var f := Tally(values, selector, n, k);
      && |f| == MAX_TREES && |f[selector[g]]| == n + 1
      && Tally(values, selector, n, k + 1) == f[selector[g] := f[selector[g]][values[k] := f[selector[g]][values[k]] + 1]]
  {
    var k := GROUP_SIZE * g + i;
    assert k / GROUP_SIZE == g;
    var f, v := Tally(values, selector, n, k), values[k];
    assert |f[selector[g]]| == n + 1;
  }

  method CountFrequencies(values: seq<nat>, selector: seq<nat>, n: nat) returns (frequency: seq<seq<nat>>)
    requires Grouped(values, selector, n)
    ensures frequency == Tally(values, selector, n, |values|)
  {
    hide Tally;
    TallyNone(values, selector, n);
    frequency := Repeat<seq<nat>>(Repeat<nat>(0, n + 1), MAX_TREES);
    for gs := 0 to |selector|
      invariant frequency == Tally(values, selector, n, GROUP_SIZE * gs)
    {
      var t := selector[gs];
      for i := 0 to GROUP_SIZE
        invariant frequency == Tally(values, selector, n, GROUP_SIZE * gs + i)
      {
        TallyNext(values, selector, n, gs, i);
        var v := values[GROUP_SIZE * gs + i];
        frequency := frequency[t := frequency[t][v := frequency[t][v] + 1]];
      }
    }
  }

  lemma {:induction false} SumIncrement(f: seq<nat>, v: nat)
    requires v < |f|
    ensures SumOf(f[v := f[v] + 1]) == SumOf(f) + 1
    decreases |f|
  {
    var m := |f| - 1;
    if v < m {
      SumIncrement(f[..m], v);
      assert f[v := f[v] + 1][..m] == f[..m][v := f[v] + 1];
    } else {
      assert f[v := f[v] + 1][..m] == f[..m];
    }
  }

  lemma {:induction false} SumRepeat(n: nat)
    ensures SumOf(Repeat<nat>(0, n)) == 0
    decreases n
  {
    if n > 0 {
      SumRepeat(n - 1);
      var z: seq<nat> := Repeat<nat>(0, n);
      assert z[..n - 1] == Repeat<nat>(0, n - 1);
    }
  }

  /** No tree codes more values than there are. */
  lemma {:induction false} TallySum(values: seq<nat>, selector: seq<nat>, n: nat, k: nat, t: nat)
    requires Grouped(values, selector, n) && k <= |values| && t < MAX_TREES
    ensures SumOf(Tally(values, selector, n, k)[t]) <= k
    decreases k
  {
    if k == 0 {
      SumRepeat(n + 1);
    } else {
      TallySum(values, selector, n, k - 1, t);
      var v := values[k - 1];
      SumIncrement(Tally(values, selector, n, k - 1)[t], v);
    }
  }

  lemma {:induction false} SumPrefix(f: seq<nat>, n: nat)
    requires n <= |f|
    ensures SumOf(f[..n]) <= SumOf(f)
    decreases |f|
  {
    if n < |f| {
      SumPrefix(f[..|f| - 1], n);
      assert f[..|f| - 1][..n] == f[..n];
    } else {
      assert f[..n] == f;
    }
  }

  // ----- what coding costs -----

  function DotAll(f: seq<seq<nat>>, l: seq<seq<nat>>): nat
    requires |f| == |l| && forall t :: 0 <= t < |f| ==> |f[t]| == |l[t]|
  {
    if f == [] then 0 else DotAll(f[..|f| - 1], l[..|f| - 1]) + Dot(f[|f| - 1], l[|f| - 1])
  }

  /** The lengths of all trees, dummies being coded with none. */
  ghost predicate Padded(l: seq<seq<nat>>, n: nat) {
    |l| == MAX_TREES && forall t {:trigger l[t]} :: 0 <= t < MAX_TREES ==> |l[t]| == n + 1 && l[t][n] == 0
  }

  /** The bits that `k` values take. */
  ghost function CodedBits(values: seq<nat>, selector: seq<nat>, l: seq<seq<nat>>, n: nat, k: nat): nat
    requires Grouped(values, selector, n) && Padded(l, n) && k <= |values|
  {
    if k == 0 then 0
    else CodedBits(values, selector, l, n, k - 1) + l[selector[(k - 1) / GROUP_SIZE]][values[k - 1]]
  }

  lemma {:induction false} DotIncrement(f: seq<nat>, l: seq<nat>, v: nat)
    requires |f| == |l| && v < |f|
    ensures Dot(f[v := f[v] + 1], l) == Dot(f, l) + l[v]
    decreases |f|
  {
    var m := |f| - 1;
    if v < m {
      DotIncrement(f[..m], l[..m], v);
      assert f[v := f[v] + 1][..m] == f[..m][v := f[v] + 1];
    } else {
      assert f[v := f[v] + 1][..m] == f[..m];
      Distribute(f[v], 1, l[v]);
    }
  }

  lemma {:induction false} DotAllUpdate(f: seq<seq<nat>>, l: seq<seq<nat>>, t: nat, g: seq<nat>)
    requires |f| == |l| && (forall t :: 0 <= t < |f| ==> |f[t]| == |l[t]|) && t < |f| && |g| == |l[t]|
    ensures DotAll(f[t := g], l) + Dot(f[t], l[t]) == DotAll(f, l) + Dot(g, l[t])
    decreases |f|
  {
    var m := |f| - 1;
    if t < m {
      DotAllUpdate(f[..m], l[..m], t, g);
      assert f[t := g][..m] == f[..m][t := g];
    } else {
      assert f[t := g][..m] == f[..m];
    }
  }

  lemma {:induction false} DotNothing(n: nat, l: seq<nat>)
    requires |l| == n
    ensures Dot(Repeat<nat>(0, n), l) == 0
    decreases n
  {
    if n > 0 {
      DotNothing(n - 1, l[..n - 1]);
      var z: seq<nat> := Repeat<nat>(0, n);
      assert z[..n - 1] == Repeat<nat>(0, n - 1);
    }
  }

  lemma {:induction false} DotAllNothing(f: seq<seq<nat>>, l: seq<seq<nat>>, n: nat)
    requires |f| == |l| && forall t :: 0 <= t < |f| ==> f[t] == Repeat<nat>(0, n) && |f[t]| == n == |l[t]|
    ensures DotAll(f, l) == 0
    decreases |f|
  {
    if f != [] {
      DotAllNothing(f[..|f| - 1], l[..|f| - 1], n);
      DotNothing(n, l[|f| - 1]);
    }
  }

  /** What the frequencies say the values cost is what they take. */
  lemma {:induction false} TallyCost(values: seq<nat>, selector: seq<nat>, l: seq<seq<nat>>, n: nat, k: nat)
    requires Grouped(values, selector, n) && Padded(l, n) && k <= |values|
    ensures DotAll(Tally(values, selector, n, k), l) == CodedBits(values, selector, l, n, k)
    decreases k
  {
    if k == 0 {
      DotAllNothing(Tally(values, selector, n, 0), l, n + 1);
    } else {
      TallyCost(values, selector, l, n, k - 1);
      var f, t, v := Tally(values, selector, n, k - 1), selector[(k - 1) / GROUP_SIZE], values[k - 1];
      DotIncrement(f[t], l[t], v);
      DotAllUpdate(f, l, t, f[t][v := f[t][v] + 1]);
    }
  }

  /** The cost in terms of leaves is the same. */
  lemma CostIsDot(f: seq<nat>, l: seq<nat>)
    requires |f| == |l| <= MAX_ALPHA_SIZE && Within(l, MAX_CODE_LENGTH)
    ensures Total(AllLeaves(f), l, MAX_CODE_LENGTH) == Dot(f, l)
  {
    TotalIsDot(AllLeaves(f), f, l, MAX_CODE_LENGTH);
  }

  // ----- trees in the order of their first use -----

  ghost predicate Distinct(o: seq<nat>) {
    && (forall i {:trigger o[i]} :: 0 <= i < |o| ==> o[i] < MAX_TREES)
    && forall i, j {:trigger o[i], o[j]} :: 0 <= i < j < |o| ==> o[i] != o[j]
  }

  function SumOver(o: seq<nat>, d: seq<nat>): nat
    requires forall i {:trigger o[i]} :: 0 <= i < |o| ==> o[i] < |d|
  {
    if o == [] then 0 else SumOver(o[..|o| - 1], d) + d[o[|o| - 1]]
  }

  lemma {:induction false} SumDrop(d: seq<nat>, t: nat)
    requires t < |d|
    ensures SumOf(d) == SumOf(d[t := 0]) + d[t]
    decreases |d|
  {
    var m := |d| - 1;
    if t < m {
      SumDrop(d[..m], t);
      assert d[t := 0][..m] == d[..m][t := 0];
    } else {
      assert d[t := 0][..m] == d[..m];
    }
  }

  lemma {:induction false} SumOverDrop(o: seq<nat>, d: seq<nat>, t: nat)
    requires Distinct(o) && |d| == MAX_TREES && t < MAX_TREES && t !in o
    ensures SumOver(o, d[t := 0]) == SumOver(o, d)
    decreases |o|
  {
    if o != [] {
      var m := |o| - 1;
      assert o[m] != t;
      DistinctPrefix(o, m);
      SumOverDrop(o[..m], d, t);
    }
  }

  lemma DistinctPrefix(o: seq<nat>, m: nat)
    requires Distinct(o) && m <= |o|
    ensures Distinct(o[..m]) && (m < |o| ==> o[m] !in o[..m])
  {
    assert forall i {:trigger o[..m][i]} :: 0 <= i < m ==> o[..m][i] == o[i];
  }

  lemma {:induction false} SumZeros(d: seq<nat>)
    requires forall t {:trigger d[t]} :: 0 <= t < |d| ==> d[t] == 0
    ensures SumOf(d) == 0
    decreases |d|
  {
    if d != [] {
      assert forall t {:trigger d[..|d| - 1][t]} :: 0 <= t < |d| - 1 ==> d[..|d| - 1][t] == d[t];
      SumZeros(d[..|d| - 1]);
    }
  }

  /** Summing over all trees that count is summing over all trees. */
  lemma {:induction false} SumOverAll(o: seq<nat>, d: seq<nat>)
    requires Distinct(o) && |d| == MAX_TREES
    requires forall t {:trigger d[t]} :: 0 <= t < MAX_TREES && t !in o ==> d[t] == 0
    ensures SumOver(o, d) == SumOf(d)
    decreases |o|
  {
    if o == [] {
      SumZeros(d);
    } else {
      var m := |o| - 1;
      var t := o[m];
      var d' := d[t := 0];
      DistinctPrefix(o, m);
      assert o == o[..m] + [t];
      forall u {:trigger d'[u]} | 0 <= u < MAX_TREES && u !in o[..m] ensures d'[u] == 0 {
        if u != t { assert d[u] == 0; }
      }
      SumOverAll(o[..m], d');
      SumOverDrop(o[..m], d, t);
      SumDrop(d, t);
    }
  }

  /** The codes of all trees. */
  datatype Forest = Forest(lens: seq<seq<byte>>, codes: seq<seq<nat>>)

  /** Tree `t` of the forest has a complete code for what it has to code. */
  ghost predicate HasCode(f: Forest, t: nat, n: nat) {
    && t < |f.lens| == |f.codes| == MAX_TREES
    && |f.lens[t]| == n && |f.codes[t]| == n && Complete(f.lens[t])
    && forall s {:trigger f.codes[t][s]} :: 0 <= s < n ==> f.codes[t][s] == Code(f.lens[t], s)
  }

  /** Makes one code, in the way of the arrays. */
  method MakeCode(frequency: seq<nat>) returns (lens: seq<byte>, code: seq<nat>, cost: nat)
    requires MIN_ALPHA_SIZE <= |frequency| <= MAX_ALPHA_SIZE && SumOf(frequency) <= TOTAL
    ensures |lens| == |frequency| == |code| && Complete(lens)
    ensures forall s {:trigger code[s]} :: 0 <= s < |lens| ==> code[s] == Code(lens, s)
    ensures cost == CodeCost(frequency, lens)
  {
    var n := |frequency|;
    var f := new nat[n](i requires 0 <= i < n => frequency[i]);
    var l := new byte[n](_ => 0);
    var c := new nat[n](_ => 0);
    assert f[..n] == frequency;
    ghost var w, height, leaves;
    cost, w, height, leaves := AssignCodes(c, l, f, n);
    lens, code := l[..n], c[..n];
  }

  /** Frequencies of trees, dummies included. */
  ghost predicate Frequencies(f: seq<seq<nat>>, n: nat) {
    && MIN_ALPHA_SIZE <= n <= MAX_ALPHA_SIZE && |f| == MAX_TREES
    && forall t {:trigger f[t]} :: 0 <= t < MAX_TREES ==> |f[t]| == n + 1 && SumOf(f[t][..n]) <= TOTAL
  }

  /** What it takes to transmit the trees and all they code. */
  ghost function CostOver(o: seq<nat>, f: seq<seq<nat>>, lens: seq<seq<byte>>, n: nat): nat
    requires Frequencies(f, n) && |lens| == MAX_TREES
    requires forall i {:trigger o[i]} :: 0 <= i < |o| ==> o[i] < MAX_TREES && |lens[o[i]]| == n
  {
    if o == [] then 0
    else
      var t := o[|o| - 1];
      assert o[|o| - 1] < MAX_TREES;
      CostOver(o[..|o| - 1], f, lens, n) + CodeCost(f[t][..n], lens[t])
  }

  lemma {:induction false} CostOverKeeps(o: seq<nat>, f: seq<seq<nat>>, lens: seq<seq<byte>>, n: nat, t: nat, l: seq<byte>)
    requires Frequencies(f, n) && |lens| == MAX_TREES && t < MAX_TREES && t !in o && |l| == n
    requires forall i {:trigger o[i]} :: 0 <= i < |o| ==> o[i] < MAX_TREES && |lens[o[i]]| == n
    ensures forall i {:trigger o[i]} :: 0 <= i < |o| ==> |lens[t := l][o[i]]| == n
    ensures CostOver(o, f, lens[t := l], n) == CostOver(o, f, lens, n)
    decreases |o|
  {
    forall i {:trigger o[i]} | 0 <= i < |o| ensures |lens[t := l][o[i]]| == n { assert o[i] != t; }
    if o != [] {
      var m := |o| - 1;
      assert o[m] != t;
      assert forall i {:trigger o[..m][i]} :: 0 <= i < m ==> o[..m][i] == o[i];
      CostOverKeeps(o[..m], f, lens, n, t, l);
    }
  }

  /** The trees seen so far, in order. */
  ghost predicate Seen(o: seq<nat>, old2new: seq<nat>, forest: Forest, n: nat) {
    && Distinct(o) && |old2new| == MAX_TREES && |forest.lens| == |forest.codes| == MAX_TREES
    && forall i {:trigger o[i]} :: 0 <= i < |o| ==> HasCode(forest, o[i], n) && old2new[o[i]] == i
  }

  lemma SeenNext(o: seq<nat>, old2new: seq<nat>, forest: Forest, n: nat, t: nat, l: seq<byte>, c: seq<nat>)
    requires Seen(o, old2new, forest, n) && t < MAX_TREES && t !in o
    requires |l| == n == |c| && Complete(l) && forall s {:trigger c[s]} :: 0 <= s < n ==> c[s] == Code(l, s)
    ensures Seen(o + [t], old2new[t := |o|], Forest(forest.lens[t := l], forest.codes[t := c]), n)
  {
    var o', forest' := o + [t], Forest(forest.lens[t := l], forest.codes[t := c]);
    hide Complete, Code;
    forall i {:trigger o'[i]} | 0 <= i < |o'|
      ensures o'[i] < MAX_TREES && HasCode(forest', o'[i], n) && old2new[t := |o|][o'[i]] == i
    {
      if i < |o| { assert HasCode(forest, o[i], n) && o[i] != t; }
    }
    forall i, j {:trigger o'[i], o'[j]} | 0 <= i < j < |o'| ensures o'[i] != o'[j] {
      if j < |o| { assert o[i] != o[j]; }
    }
  }

  lemma SeenLength(o: seq<nat>, old2new: seq<nat>, forest: Forest, n: nat)
    requires Seen(o, old2new, forest, n)
    ensures forall i {:trigger o[i]} :: 0 <= i < |o| ==> o[i] < MAX_TREES && |forest.lens[o[i]]| == n
  {
    hide Complete, Code;
    forall i {:trigger o[i]} | 0 <= i < |o| ensures o[i] < MAX_TREES && |forest.lens[o[i]]| == n {
      assert HasCode(forest, o[i], n);
    }
  }

  /** Makes the code of tree `t`, which is the next one in use. */
  method AddTree(frequency: seq<seq<nat>>, t: nat, n: nat, forest0: Forest, old2new0: seq<nat>, new2old: seq<nat>)
    returns (cost: nat, forest: Forest, old2new: seq<nat>)
    requires Frequencies(frequency, n) && Seen(new2old, old2new0, forest0, n) && t < MAX_TREES && t !in new2old
    requires |forest0.lens| == |forest0.codes| == |old2new0| == MAX_TREES
    requires forall i {:trigger new2old[i]} :: 0 <= i < |new2old| ==> new2old[i] < MAX_TREES && |forest0.lens[new2old[i]]| == n
    ensures Seen(new2old + [t], old2new, forest, n)
    ensures |forest.lens| == |forest.codes| == |old2new| == MAX_TREES
    ensures var o := new2old + [t]; forall i {:trigger o[i]} :: 0 <= i < |o| ==> o[i] < MAX_TREES && |forest.lens[o[i]]| == n
    ensures CostOver(new2old + [t], frequency, forest.lens, n) == CostOver(new2old, frequency, forest0.lens, n) + cost
  {
    hide HasCode, Frequencies, CostOver, Complete, Code, CodeCost, Seen;
    FrequencyOf(frequency, n, t);
    var l, c, x := MakeCode(frequency[t][..n]);
    SeenNext(new2old, old2new0, forest0, n, t, l, c);
    CostOverKeeps(new2old, frequency, forest0.lens, n, t, l);
    old2new := old2new0[t := |new2old|];
    forest := Forest(forest0.lens[t := l], forest0.codes[t := c]);
    SeenLength(new2old + [t], old2new, forest, n);
    CostNext(new2old, frequency, forest.lens, n, t);
    cost := x;
  }

  /** Numbers the trees in use in the order of their first use, and makes their codes. */
  method OrderTrees(selector: seq<nat>, frequency: seq<seq<nat>>, nt: nat, n: nat)
    returns (cost: nat, forest: Forest, old2new: seq<nat>, new2old: seq<nat>)
    requires selector != [] && nt <= MAX_TREES && Frequencies(frequency, n)
    requires forall g {:trigger selector[g]} :: 0 <= g < |selector| ==> selector[g] < nt
    ensures Seen(new2old, old2new, forest, n) && new2old != [] && new2old[0] == selector[0]
    ensures forall g {:trigger selector[g]} :: 0 <= g < |selector| ==> selector[g] in new2old
    ensures (forall i {:trigger new2old[i]} :: 0 <= i < |new2old| ==> new2old[i] < nt && |forest.lens[new2old[i]]| == n)
    ensures cost == CostOver(new2old, frequency, forest.lens, n)
  {
    hide HasCode, Frequencies, CostOver, Complete, Code, CodeCost;
    hide Seen;
    new2old, old2new := [], Repeat<nat>(0, MAX_TREES);
    forest := Forest(Repeat<seq<byte>>([], MAX_TREES), Repeat<seq<nat>>([], MAX_TREES));
    NoneSeen(old2new, forest, n, frequency);
    cost := 0;
    var notSeen := UpTo(nt);
    var sp := 0;
    while notSeen != {} && sp < |selector|
      invariant sp <= |selector| && Seen(new2old, old2new, forest, n)
      invariant |forest.lens| == MAX_TREES && |forest.codes| == MAX_TREES && |old2new| == MAX_TREES
      invariant forall i {:trigger new2old[i]} :: 0 <= i < |new2old| ==> new2old[i] < nt && |forest.lens[new2old[i]]| == n
      invariant forall t: nat :: t < nt ==> (t in notSeen <==> t !in new2old)
      invariant forall g {:trigger selector[g]} :: 0 <= g < sp ==> selector[g] in new2old
      invariant sp == 0 ==> new2old == []
      invariant sp > 0 ==> new2old != [] && new2old[0] == selector[0]
      invariant cost == CostOver(new2old, frequency, forest.lens, n)
    {
      var t := selector[sp];
      sp := sp + 1;
      if t in notSeen {
        notSeen := notSeen - {t};
        var x;
        x, forest, old2new := AddTree(frequency, t, n, forest, old2new, new2old);
        new2old := new2old + [t];
        cost := cost + x;
      }
    }
  }

  function UpTo(n: nat): (s: set<nat>)
    ensures forall t: nat :: t in s <==> t < n
  {
    if n == 0 then {} else UpTo(n - 1) + {n - 1}
  }

  lemma NoneSeen(old2new: seq<nat>, forest: Forest, n: nat, f: seq<seq<nat>>)
    requires |old2new| == MAX_TREES && |forest.lens| == |forest.codes| == MAX_TREES && Frequencies(f, n)
    ensures Seen([], old2new, forest, n) && CostOver([], f, forest.lens, n) == 0
  {
  }

  lemma FrequencyOf(f: seq<seq<nat>>, n: nat, t: nat)
    requires Frequencies(f, n) && t < MAX_TREES
    ensures |f| == MAX_TREES && |f[t]| == n + 1 && SumOf(f[t][..n]) <= TOTAL && MIN_ALPHA_SIZE <= n <= MAX_ALPHA_SIZE
  {
  }

  lemma CostNext(o: seq<nat>, f: seq<seq<nat>>, lens: seq<seq<byte>>, n: nat, t: nat)
    requires Frequencies(f, n) && |lens| == MAX_TREES && t < MAX_TREES && |lens[t]| == n
    requires forall i {:trigger o[i]} :: 0 <= i < |o| ==> o[i] < MAX_TREES && |lens[o[i]]| == n
    ensures |f[t]| == n + 1 && n <= MAX_ALPHA_SIZE
    ensures CostOver(o + [t], f, lens, n) == CostOver(o, f, lens, n) + CodeCost(f[t][..n], lens[t])
  {
    hide CodeCost, SumOf;
    var p := o + [t];
    assert p[..|o|] == o;
    assert forall i {:trigger p[i]} :: 0 <= i < |p| ==> p[i] == if i < |o| then o[i] else t;
  }
}
