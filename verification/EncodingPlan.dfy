/** All the trees of a block and what they cost. */
module EncodingPlan {
  import opened Common
  import opened Powers
  import Permutation
  import opened PrefixCode
  import opened CodeLengths
  import opened MergeLevels
  import opened LeafSorting
  import opened CodeAssigner
  import opened PrefixForest

  // ----- the dummy tree -----

  /** Two bits of a constant give the logarithm of a small number. */
  function LogDigit(x: nat): nat {
    0xFFFF_AA50 / Pow2(x / 2 * 2) % 4
  }

  /** The whole part of the logarithm of `n`, without a loop. */
  function Log(n: nat): nat {
    if n < 0x20 then LogDigit(n) + 1 else LogDigit(n / 16) + 5
  }

  lemma DigitIs(x: nat)
    requires 2 <= x < 32
    ensures LogDigit(x) + 1 == if x < 4 then 1 else if x < 8 then 2 else if x < 16 then 3 else 4
  {
    var h := x / 2;
    hide Pow2;
    if h < 4 { LowDigits(h); } else if h < 8 { MiddleDigits(h); } else if h < 12 { HighDigits(h); } else { TopDigits(h); }
  }

  lemma LowDigits(h: nat)
    requires 1 <= h < 4
    ensures 0xFFFF_AA50 / Pow2(h * 2) % 4 == if h == 1 then 0 else 1
  {
    assert Pow2(2) == 4 && Pow2(4) == 0x10 && Pow2(6) == 0x40;
  }

  lemma MiddleDigits(h: nat)
    requires 4 <= h < 8
    ensures 0xFFFF_AA50 / Pow2(h * 2) % 4 == 2
  {
    DigitPowers();
    hide Pow2;
    assert h == 4 || h == 5 || h == 6 || h == 7;
  }

  lemma HighDigits(h: nat)
    requires 8 <= h < 12
    ensures 0xFFFF_AA50 / Pow2(h * 2) % 4 == 3
  {
    DigitPowers();
    hide Pow2;
    assert h == 8 || h == 9 || h == 10 || h == 11;
  }

  lemma TopDigits(h: nat)
    requires 12 <= h < 16
    ensures 0xFFFF_AA50 / Pow2(h * 2) % 4 == 3
  {
    DigitPowers();
    hide Pow2;
    assert h == 12 || h == 13 || h == 14 || h == 15;
  }

  lemma DigitPowers()
    ensures Pow2(2) == 4 && Pow2(4) == 0x10 && Pow2(6) == 0x40 && Pow2(8) == 0x100 && Pow2(10) == 0x400
    ensures Pow2(12) == 0x1000 && Pow2(14) == 0x4000 && Pow2(16) == 0x1_0000 && Pow2(18) == 0x4_0000
    ensures Pow2(20) == 0x10_0000 && Pow2(22) == 0x40_0000 && Pow2(24) == 0x100_0000 && Pow2(26) == 0x400_0000
    ensures Pow2(28) == 0x1000_0000 && Pow2(30) == 0x4000_0000
  {
    Pow2Constants();
    assert Pow2(2) == 4 && Pow2(4) == 16;
    Pow2Add(2, 10);
    Pow2Add(4, 10);
    Pow2Add(2, 16);
    Pow2Add(2, 20);
    Pow2Add(2, 24);
    Pow2Add(4, 24);
    Pow2Add(6, 24);
  }

  lemma LogIs(n: nat)
    requires MIN_ALPHA_SIZE <= n <= MAX_ALPHA_SIZE
    ensures 1 <= Log(n) <= 8 && Pow2(Log(n)) <= n < 2 * Pow2(Log(n))
  {
    Pow2Constants();
    assert Pow2(2) == 4 && Pow2(4) == 16 && Pow2(7) == 128;
    hide LogDigit;
    if n < 0x20 { DigitIs(n); } else { DigitIs(n / 16); }
  }

  /** `k` symbols of one length, and the rest of the next. */
  function TwoLengths(c: nat, k: nat, n: nat): (l: seq<byte>)
    requires c < 20 && k <= n
    ensures |l| == n
  {
    Repeat<byte>(c, k) + Repeat<byte>(c + 1, n - k)
  }

  lemma SpaceLast(l: seq<nat>, c: nat, h: nat)
    requires c <= h
    ensures Space(l + [c], h) == Space(l, h) + Pow2(h - c)
  {
    assert (l + [c])[..|l|] == l;
  }

  lemma RepeatLast(l: seq<nat>, c: nat, k: nat)
    requires k > 0
    ensures l + Repeat<nat>(c, k) == l + Repeat<nat>(c, k - 1) + [c]
  {
    RepeatSplit<nat>(c, k - 1, 1);
    assert Repeat<nat>(c, 1) == [c];
  }

  lemma RepeatNone(l: seq<nat>, c: nat, p: nat)
    ensures l + Repeat<nat>(c, 0) == l && Times(0, p) == 0
  {
  }

  lemma {:induction false} SpaceRepeat(l: seq<nat>, c: nat, k: nat, h: nat)
    requires c <= h
    ensures Space(l + Repeat<nat>(c, k), h) == Space(l, h) + Times(k, Pow2(h - c))
    decreases k
  {
    hide *;
    if k == 0 {
      RepeatNone(l, c, Pow2(h - c));
    } else {
      SpaceRepeat(l, c, k - 1, h);
      RepeatLast(l, c, k);
      SpaceLast(l + Repeat<nat>(c, k - 1), c, h);
      Distribute(k - 1, 1, Pow2(h - c));
    }
  }

  lemma {:induction false} DeltaRepeat(l: seq<nat>, c: nat, k: nat)
    requires l != []
    ensures DeltaCost(l + Repeat<nat>(c, k)) == DeltaCost(l)
      + if k == 0 then 0 else 2 * (if l[|l| - 1] < c then c - l[|l| - 1] else l[|l| - 1] - c)
    decreases k
  {
    var s := l + Repeat<nat>(c, k);
    if k == 0 {
      assert s == l;
    } else {
      DeltaRepeat(l, c, k - 1);
      RepeatSplit<nat>(c, k - 1, 1);
      assert s[..|s| - 1] == l + Repeat<nat>(c, k - 1);
    }
  }

  /** The dummy tree is a complete code, with at most one step between its lengths. */
  lemma DummyComplete(n: nat, c: nat, k: nat)
    requires MIN_ALPHA_SIZE <= n <= MAX_ALPHA_SIZE && 1 <= c <= 8
    requires Pow2(c) <= n < 2 * Pow2(c) && k == 2 * Pow2(c) - n
    ensures 1 <= k <= n && Complete(TwoLengths(c, k, n))
    ensures DeltaCost(TwoLengths(c, k, n)) == if k < n then 2 else 0
  {
    var l := TwoLengths(c, k, n);
    TwoWithin(n, c, k);
    TwoSpace(n, c, k);
    TwoDelta(n, c, k);
    StartIsSpace(l);
  }

  lemma TwoWithin(n: nat, c: nat, k: nat)
    requires MIN_ALPHA_SIZE <= n <= MAX_ALPHA_SIZE && 1 <= c <= 8 && k <= n
    ensures Lengths(TwoLengths(c, k, n)) && Within(TwoLengths(c, k, n), MAX_CODE_LENGTH)
  {
  }

  lemma TwoParts(n: nat, c: nat, k: nat) returns (first: seq<nat>, rest: seq<nat>)
    requires c < 20 && k <= n
    ensures first == Repeat<nat>(c, k) && rest == Repeat<nat>(c + 1, n - k)
    ensures TwoLengths(c, k, n) == first + rest
  {
    first, rest := Repeat<nat>(c, k), Repeat<nat>(c + 1, n - k);
    assert TwoLengths(c, k, n) == first + rest;
  }

  lemma TwoSpace(n: nat, c: nat, k: nat)
    requires 1 <= c <= 8 && k <= n && k + n == 2 * Pow2(c)
    ensures Space(TwoLengths(c, k, n), MAX_CODE_LENGTH) == Pow2(MAX_CODE_LENGTH)
  {
    hide Space, Pow2, TwoLengths, Repeat, Times;
    var first, rest := TwoParts(n, c, k);
    NothingBefore(first);
    SpaceRepeat([], c, k, MAX_CODE_LENGTH);
    SpaceRepeat(first, c + 1, n - k, MAX_CODE_LENGTH);
    TwoShares(k, n, c, MAX_CODE_LENGTH);
    NoSpace(MAX_CODE_LENGTH);
  }

  lemma NoSpace(h: nat)
    ensures Space([], h) == 0
  {
  }

  lemma TwoDelta(n: nat, c: nat, k: nat)
    requires c <= 8 && 1 <= k <= n
    ensures DeltaCost(TwoLengths(c, k, n)) == if k < n then 2 else 0
  {
    var first, rest := TwoParts(n, c, k);
    hide TwoLengths;
    DeltaRepeat([c], c, k - 1);
    RepeatSplit<nat>(c, 1, k - 1);
    assert first == [c] + Repeat<nat>(c, k - 1);
    DeltaRepeat(first, c + 1, n - k);
  }

  lemma TwoShares(k: nat, n: nat, c: nat, h: nat)
    requires k <= n && c < h && k + n == 2 * Pow2(c)
    ensures Times(k, Pow2(h - c)) + Times(n - k, Pow2(h - c - 1)) == Pow2(h)
  {
    var p := Pow2(h - c - 1);
    Pow2Add(c + 1, h - c - 1);
    assert k * (2 * p) + (n - k) * p == (k + n) * p;
  }

  // ----- the plan -----

  /** The bits of the trees in use. */
  ghost function HeadCost(o: seq<nat>, lens: seq<seq<byte>>, n: nat): nat
    requires |lens| == MAX_TREES && forall i {:trigger o[i]} :: 0 <= i < |o| ==> o[i] < MAX_TREES
  {
    if o == [] then 0
    else
      assert o[|o| - 1] < MAX_TREES;
      HeadCost(o[..|o| - 1], lens, n) + 5 + n + DeltaCost(lens[o[|o| - 1]])
  }

  /** The lengths of a tree, dummies included; none if it is not in use. */
  function Pad(l: seq<byte>, n: nat): (p: seq<nat>)
    ensures |p| == n + 1 && p[n] == 0
  {
    if |l| == n then l + [0] else Repeat<nat>(0, n + 1)
  }

  function PadAll(lens: seq<seq<byte>>, n: nat): (p: seq<seq<nat>>)
    ensures |p| == |lens| && forall t {:trigger p[t]} :: 0 <= t < |lens| ==> p[t] == Pad(lens[t], n)
  {
    if lens == [] then [] else PadAll(lens[..|lens| - 1], n) + [Pad(lens[|lens| - 1], n)]
  }

  function Dots(f: seq<seq<nat>>, l: seq<seq<nat>>): (d: seq<nat>)
    requires |f| == |l| && forall t :: 0 <= t < |f| ==> |f[t]| == |l[t]|
    ensures |d| == |f| && SumOf(d) == DotAll(f, l)
    ensures forall t {:trigger d[t]} :: 0 <= t < |f| ==> d[t] == Dot(f[t], l[t])
  {
    if f == [] then [] else
      var m := |f| - 1;
      var d := Dots(f[..m], l[..m]);
      assert (d + [Dot(f[m], l[m])])[..m] == d;
      d + [Dot(f[m], l[m])]
  }

  lemma DotPadded(f: seq<nat>, l: seq<byte>, n: nat)
    requires |f| == n + 1 && |l| == n
    ensures Dot(f, Pad(l, n)) == Dot(f[..n], l)
  {
    var p := Pad(l, n);
    assert p[..n] == l;
    assert Times(f[n], 0) == 0;
  }

  /** What the trees in use cost is the bits of the trees and those of the values. */
  lemma {:induction false} CostSplits(o: seq<nat>, f: seq<seq<nat>>, lens: seq<seq<byte>>, n: nat, d: seq<nat>)
    requires Frequencies(f, n) && |lens| == MAX_TREES == |d|
    requires forall i {:trigger o[i]} :: 0 <= i < |o| ==>
      o[i] < MAX_TREES && |lens[o[i]]| == n && Lengths(lens[o[i]]) && d[o[i]] == Dot(f[o[i]][..n], lens[o[i]])
    ensures CostOver(o, f, lens, n) == HeadCost(o, lens, n) + SumOver(o, d)
    decreases |o|
  {
    if o != [] {
      var m := |o| - 1;
      var t := o[m];
      assert forall i {:trigger o[..m][i]} :: 0 <= i < m ==> o[..m][i] == o[i];
      CostSplits(o[..m], f, lens, n, d);
      CostIsDot(f[t][..n], lens[t]);
    }
  }

  /** A tree that no group uses has nothing to code. */
  lemma {:induction false} TallyUnused(values: seq<nat>, selector: seq<nat>, n: nat, k: nat, t: nat)
    requires Grouped(values, selector, n) && k <= |values| && t < MAX_TREES && t !in selector
    ensures Tally(values, selector, n, k)[t] == Repeat<nat>(0, n + 1)
    decreases k
  {
    if k > 0 { TallyUnused(values, selector, n, k - 1, t); }
  }

  /** Everything the encoder decides about the codes of a block. */
  datatype Plan = Plan(forest: Forest, old2new: seq<nat>, new2old: seq<nat>, cost: nat)

  ghost predicate Planned(p: Plan, values: seq<nat>, selector: seq<nat>, n: nat) {
    MIN_TREES <= |p.new2old| && Chosen(p, values, selector, n)
  }

  ghost predicate Chosen(p: Plan, values: seq<nat>, selector: seq<nat>, n: nat) {
    && Grouped(values, selector, n) && MIN_ALPHA_SIZE <= n <= MAX_ALPHA_SIZE
    && Distinct(p.new2old) && 1 <= |p.new2old| <= MAX_TREES
    && |p.old2new| == MAX_TREES && |p.forest.lens| == |p.forest.codes| == MAX_TREES
    && (forall i {:trigger p.new2old[i]} :: 0 <= i < |p.new2old| ==>
         p.old2new[p.new2old[i]] == i && |p.forest.lens[p.new2old[i]]| == n && Complete(p.forest.lens[p.new2old[i]]))
    && (forall g {:trigger selector[g]} :: 0 <= g < |selector| ==>
         selector[g] in p.new2old && HasCode(p.forest, selector[g], n))
    && p.cost == HeadCost(p.new2old, p.forest.lens, n)
         + CodedBits(values, selector, PadAll(p.forest.lens, n), n, |values|)
  }

  ghost predicate Trees(o: seq<nat>, lens: seq<seq<byte>>, n: nat) {
    && |lens| == MAX_TREES && Distinct(o)
    && forall i {:trigger o[i]} :: 0 <= i < |o| ==> |lens[o[i]]| == n && Complete(lens[o[i]])
  }

  /** What each tree has to code, nothing for those not in use. */
  lemma UsedDots(o: seq<nat>, lens: seq<seq<byte>>, values: seq<nat>, selector: seq<nat>, n: nat) returns (d: seq<nat>)
    requires Grouped(values, selector, n) && Distinct(o) && |lens| == MAX_TREES
    requires forall g {:trigger selector[g]} :: 0 <= g < |selector| ==> selector[g] in o
    ensures |d| == MAX_TREES
    ensures forall t {:trigger d[t]} :: 0 <= t < MAX_TREES ==> d[t] == Dot(Tally(values, selector, n, |values|)[t], Pad(lens[t], n))
    ensures SumOver(o, d) == CodedBits(values, selector, PadAll(lens, n), n, |values|)
  {
    var f, l := Tally(values, selector, n, |values|), PadAll(lens, n);
    d := Dots(f, l);
    hide Tally, CodedBits, Dot;
    TallyCost(values, selector, l, n, |values|);
    forall t {:trigger d[t]} | 0 <= t < MAX_TREES && t !in o ensures d[t] == 0 {
      TallyUnused(values, selector, n, |values|, t);
      DotNothing(n + 1, l[t]);
    }
    SumOverAll(o, d);
  }

  /** The cost of the trees in use, as the format counts bits. */
  lemma PlanCost(o: seq<nat>, lens: seq<seq<byte>>, values: seq<nat>, selector: seq<nat>, n: nat)
    requires Grouped(values, selector, n) && Frequencies(Tally(values, selector, n, |values|), n) && Trees(o, lens, n)
    requires forall g {:trigger selector[g]} :: 0 <= g < |selector| ==> selector[g] in o
    ensures CostOver(o, Tally(values, selector, n, |values|), lens, n)
      == HeadCost(o, lens, n) + CodedBits(values, selector, PadAll(lens, n), n, |values|)
  {
    hide Tally, Complete, HeadCost, CodedBits, Frequencies, Dot, CostOver, SumOver, DotAll, SumOf;
    var d := UsedDots(o, lens, values, selector, n);
    var f := Tally(values, selector, n, |values|);
    forall i {:trigger o[i]} | 0 <= i < |o|
      ensures Lengths(lens[o[i]]) && d[o[i]] == Dot(f[o[i]][..n], lens[o[i]])
    {
      CompleteLengths(lens[o[i]]);
      DotPadded(f[o[i]], lens[o[i]], n);
    }
    CostSplits(o, f, lens, n, d);
  }

  lemma CompleteLengths(lens: seq<byte>)
    requires Complete(lens)
    ensures Lengths(lens)
  {
  }

  /** The values of a block, completed to whole groups. */
  function Completed(values: seq<nat>, n: nat): (v: seq<nat>)
    ensures |v| == GROUP_SIZE * Groups(|values|)
    ensures values <= v && forall i :: |values| <= i < |v| ==> v[i] == n
  {
    values + Repeat<nat>(n, GROUP_SIZE * Groups(|values|) - |values|)
  }

  lemma FrequenciesFit(values: seq<nat>, selector: seq<nat>, n: nat)
    requires Grouped(values, selector, n) && |values| <= TOTAL && MIN_ALPHA_SIZE <= n <= MAX_ALPHA_SIZE
    ensures Frequencies(Tally(values, selector, n, |values|), n)
  {
    var f := Tally(values, selector, n, |values|);
    forall t {:trigger f[t]} | 0 <= t < MAX_TREES ensures |f[t]| == n + 1 && SumOf(f[t][..n]) <= TOTAL {
      TallySum(values, selector, n, |values|, t);
      SumPrefix(f[t], n);
    }
  }

  /** Makes the codes of a block, given the tree chosen for each group. */
  method GeneratePrefixCode(values: seq<nat>, selector: seq<nat>, nt: nat, n: nat) returns (plan: Plan)
    requires Grouped(values, selector, n) && selector != [] && |values| <= TOTAL && nt <= MAX_TREES
    requires MIN_ALPHA_SIZE <= n <= MAX_ALPHA_SIZE
    requires forall g {:trigger selector[g]} :: 0 <= g < |selector| ==> selector[g] < nt
    ensures Planned(plan, values, selector, n)
  {
    var frequency := CountFrequencies(values, selector, n);
    FrequenciesFit(values, selector, n);
    var cost, forest, old2new, new2old := OrderTrees(selector, frequency, nt, n);
    plan := Plan(forest, old2new, new2old, cost);
    SeenTrees(new2old, old2new, forest, n);
    PlanCost(new2old, forest.lens, values, selector, n);
    ChosenOf(plan, values, selector, n);
    if |new2old| == 1 {
      plan := AddDummyTree(plan, values, selector, n);
    }
  }

  lemma SeenTrees(o: seq<nat>, old2new: seq<nat>, forest: Forest, n: nat)
    requires Seen(o, old2new, forest, n)
    ensures Trees(o, forest.lens, n) && |o| <= MAX_TREES
  {
    hide Complete, Code;
    forall i {:trigger o[i]} | 0 <= i < |o| ensures |forest.lens[o[i]]| == n && Complete(forest.lens[o[i]]) {
      assert HasCode(forest, o[i], n);
    }
    FewTrees(o);
  }

  lemma FewTrees(o: seq<nat>)
    requires Distinct(o)
    ensures |o| <= MAX_TREES
  {
    Permutation.Pigeonhole(o, MAX_TREES);
  }

  lemma ChosenOf(p: Plan, values: seq<nat>, selector: seq<nat>, n: nat)
    requires Grouped(values, selector, n) && MIN_ALPHA_SIZE <= n <= MAX_ALPHA_SIZE && p.new2old != []
    requires Seen(p.new2old, p.old2new, p.forest, n) && Trees(p.new2old, p.forest.lens, n) && |p.new2old| <= MAX_TREES
    requires forall g {:trigger selector[g]} :: 0 <= g < |selector| ==> selector[g] in p.new2old
    requires p.cost == HeadCost(p.new2old, p.forest.lens, n)
         + CodedBits(values, selector, PadAll(p.forest.lens, n), n, |values|)
    ensures Chosen(p, values, selector, n)
  {
    hide HasCode, Complete, HeadCost, CodedBits;
    forall g {:trigger selector[g]} | 0 <= g < |selector| ensures HasCode(p.forest, selector[g], n) {
      var i :| 0 <= i < |p.new2old| && p.new2old[i] == selector[g];
      assert HasCode(p.forest, p.new2old[i], n);
    }
  }

  lemma {:induction false} CodedBitsKeeps(values: seq<nat>, selector: seq<nat>, l: seq<seq<nat>>, l': seq<seq<nat>>, n: nat, k: nat)
    requires Grouped(values, selector, n) && Padded(l, n) && Padded(l', n) && k <= |values|
    requires forall g {:trigger selector[g]} :: 0 <= g < |selector| ==> l[selector[g]] == l'[selector[g]]
    ensures CodedBits(values, selector, l, n, k) == CodedBits(values, selector, l', n, k)
    decreases k
  {
    if k > 0 { CodedBitsKeeps(values, selector, l, l', n, k - 1); }
  }

  /** The format does not allow a single tree: adds one that no group uses. */
  method AddDummyTree(plan: Plan, ghost values: seq<nat>, ghost selector: seq<nat>, n: nat) returns (p: Plan)
    requires Chosen(plan, values, selector, n) && |plan.new2old| == 1
    ensures Planned(p, values, selector, n)
  {
    hide Planned, Chosen, Log, TwoLengths, DeltaCost, Complete;
    OneTree(plan, values, selector, n);
    var t0 := plan.new2old[0];
    var t := if t0 % 2 == 0 then t0 + 1 else t0 - 1;
    var c := Log(n);
    LogIs(n);
    var k := 2 * Pow2(c) - n;
    DummyComplete(n, c, k);
    var l := TwoLengths(c, k, n);
    p := Plan(Forest(plan.forest.lens[t := l], plan.forest.codes), plan.old2new[t := 1], [t0, t],
              plan.cost + (if k < n then 2 else 0) + n + 5);
    DummyPlanned(plan, p, values, selector, n, t0, t, l);
  }

  lemma OneTree(plan: Plan, values: seq<nat>, selector: seq<nat>, n: nat)
    requires Chosen(plan, values, selector, n) && |plan.new2old| == 1
    ensures plan.new2old[0] < MAX_TREES && plan.new2old == [plan.new2old[0]] && MIN_ALPHA_SIZE <= n <= MAX_ALPHA_SIZE
    ensures |plan.forest.lens| == MAX_TREES == |plan.old2new|
  {
    hide Complete, HasCode, CodedBits, HeadCost;
  }

  lemma DummyPlanned(plan: Plan, p: Plan, values: seq<nat>, selector: seq<nat>, n: nat, t0: nat, t: nat, l: seq<byte>)
    requires Chosen(plan, values, selector, n) && plan.new2old == [t0] && t < MAX_TREES && t != t0
    requires |l| == n && Complete(l) && p.forest == Forest(plan.forest.lens[t := l], plan.forest.codes)
    requires p.old2new == plan.old2new[t := 1] && p.new2old == [t0, t] && p.cost == plan.cost + DeltaCost(l) + n + 5
    ensures Planned(p, values, selector, n)
  {
    hide Complete, CodedBits, Code, DeltaCost;
    var lens, lens' := plan.forest.lens, p.forest.lens;
    assert plan.new2old[0] == t0;
    forall g {:trigger selector[g]} | 0 <= g < |selector|
      ensures selector[g] in p.new2old && HasCode(p.forest, selector[g], n) && PadAll(lens, n)[selector[g]] == PadAll(lens', n)[selector[g]]
    {
      assert selector[g] in [t0];
      assert HasCode(plan.forest, selector[g], n);
    }
    CodedBitsKeeps(values, selector, PadAll(lens, n), PadAll(lens', n), n, |values|);
    assert [t0, t][..1] == [t0] && [t0][..0] == [];
    assert HeadCost([t0], lens', n) == HeadCost([t0], lens, n);
  }
}
