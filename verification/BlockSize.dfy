/** How many bits a block takes, part by part. */
module BlockSize {
  import opened Common
  import opened Bits
  import opened BlockBits
  import opened CodeAssigner
  import opened PrefixForest
  import opened EncodingPlan

  /** Rows of 16 characters with any in use. */
  function RowsInUse(marks: seq<bit>): nat
    requires |marks| % 16 == 0
    decreases |marks|
  {
    if marks == [] then 0 else (if Any(marks[..16]) then 1 else 0) + RowsInUse(marks[16..])
  }

  lemma {:induction false} SmallBitsSize(marks: seq<bit>)
    requires |marks| % 16 == 0
    ensures |SmallBits(marks)| == 16 * RowsInUse(marks)
    decreases |marks|
  {
    if marks != [] { SmallBitsSize(marks[16..]); }
  }

  function SumPlusOne(s: seq<nat>): nat {
    if s == [] then 0 else SumPlusOne(s[..|s| - 1]) + s[|s| - 1] + 1
  }

  lemma {:induction false} SelectorBitsConcat(a: seq<nat>, b: seq<nat>)
    ensures SelectorBits(a + b) == SelectorBits(a) + SelectorBits(b)
    decreases |a|
  {
    if a == [] {
      NothingBefore(b);
    } else {
      SelectorBitsConcat(a[1..], b);
      assert (a + b)[1..] == a[1..] + b;
      Regrouped(Unary(a[0]), SelectorBits(a[1..]), SelectorBits(b));
    }
  }

  lemma SelectorBitsOne(k: nat)
    ensures SelectorBits([k]) == Unary(k)
  {
    assert [k][1..] == [];
    NothingBefore(Unary(k));
  }

  lemma {:induction false} SelectorBitsSize(s: seq<nat>)
    ensures |SelectorBits(s)| == SumPlusOne(s)
    decreases |s|
  {
    if s != [] {
      var m := |s| - 1;
      SelectorBitsSize(s[..m]);
      SelectorBitsConcat(s[..m], [s[m]]);
      SelectorBitsOne(s[m]);
      assert s == s[..m] + [s[m]];
    }
  }

  // ----- trees -----

  lemma {:induction false} LengthBitsConcat(a: nat, l: seq<byte>, x: byte)
    ensures LengthBits(a, l + [x]) == LengthBits(a, l) + StepBits(if l == [] then a else l[|l| - 1], x)
    decreases |l|
  {
    hide StepBits;
    if l == [] {
      assert [] + [x] == [x] && [x][1..] == [];
      NothingBefore(StepBits(a, x));
    } else {
      LengthBitsConcat(l[0], l[1..], x);
      assert (l + [x])[1..] == l[1..] + [x];
      assert l[|l| - 1] == if l[1..] == [] then l[0] else l[1..][|l[1..]| - 1];
      Regrouped(StepBits(a, l[0]), LengthBits(l[0], l[1..]), StepBits(l[|l| - 1], x));
    }
  }

  /** The bits of a tree: one for every symbol and two for every step. */
  lemma {:induction false} LengthBitsSize(a: nat, l: seq<byte>)
    requires l != []
    ensures |LengthBits(a, l)| == 2 * Distance(a, l[0]) + DeltaCost(l) + |l|
    decreases |l|
  {
    var m := |l| - 1;
    LengthBitsConcat(a, l[..m], l[m]);
    assert l == l[..m] + [l[m]];
    if m > 0 {
      LengthBitsSize(a, l[..m]);
    }
  }

  /** The lengths a list of trees starts from: `pad` steps off for the first one. */
  function StartOf(l: seq<byte>, pad: nat): (a: nat)
    requires l != []
  {
    if l[0] < 4 then l[0] + pad else if l[0] >= pad then l[0] - pad else 0
  }

  function Starts(trees: seq<seq<byte>>, pad: nat): (s: seq<nat>)
    requires forall t {:trigger trees[t]} :: 0 <= t < |trees| ==> trees[t] != []
    ensures |s| == |trees|
    ensures forall t {:trigger s[t]} :: 0 <= t < |trees| ==> s[t] == StartOf(trees[t], if t == 0 then pad else 0)
  {
    if trees == [] then []
    else
      var m := |trees| - 1;
      assert trees[m] != [];
      assert forall t {:trigger trees[..m][t]} :: 0 <= t < m ==> trees[..m][t] == trees[t];
      Starts(trees[..m], pad) + [StartOf(trees[m], if m == 0 then pad else 0)]
  }

  lemma {:induction false} TreesBitsConcat(s: seq<nat>, trees: seq<seq<byte>>, a: nat, l: seq<byte>)
    requires |s| == |trees|
    ensures TreesBits(s + [a], trees + [l]) == TreesBits(s, trees) + (ToBits(a, 5) + LengthBits(a, l))
    decreases |trees|
  {
    hide ToBits, LengthBits;
    if trees == [] {
      assert [] + [a] == [a] && [] + [l] == [l] && [a][1..] == [] && [l][1..] == [];
      NothingBefore(ToBits(a, 5) + LengthBits(a, l));
    } else {
      TreesBitsConcat(s[1..], trees[1..], a, l);
      assert (s + [a])[1..] == s[1..] + [a] && (trees + [l])[1..] == trees[1..] + [l];
      Regrouped(ToBits(s[0], 5) + LengthBits(s[0], trees[0]), TreesBits(s[1..], trees[1..]), ToBits(a, 5) + LengthBits(a, l));
    }
  }

  function TreesCost(trees: seq<seq<byte>>): nat {
    if trees == [] then 0
    else TreesCost(trees[..|trees| - 1]) + 5 + |trees[|trees| - 1]| + DeltaCost(trees[|trees| - 1])
  }

  lemma TreeSize(trees: seq<seq<byte>>, pad: nat, m: nat, a: nat)
    requires pad <= 3 && |trees| == m + 1 && trees[m] != [] && trees[m][0] >= 1
    requires a == StartOf(trees[m], if m == 0 then pad else 0)
    ensures Distance(a, trees[m][0]) == if m == 0 then pad else 0
    ensures TreesCost(trees) == TreesCost(trees[..m]) + 5 + |trees[m]| + DeltaCost(trees[m])
  {
    hide DeltaCost;
  }

  lemma {:induction false} TreesBitsSize(trees: seq<seq<byte>>, pad: nat)
    requires pad <= 3 && forall t {:trigger trees[t]} :: 0 <= t < |trees| ==> trees[t] != [] && trees[t][0] >= 1
    ensures |TreesBits(Starts(trees, pad), trees)| == TreesCost(trees) + if trees == [] then 0 else 2 * pad
    decreases |trees|
  {
    if trees != [] {
      var m := |trees| - 1;
      var l := trees[m];
      assert trees[m] != [];
      assert forall t {:trigger trees[..m][t]} :: 0 <= t < m ==> trees[..m][t] == trees[t];
      TreesBitsSize(trees[..m], pad);
      var a := StartOf(l, if m == 0 then pad else 0);
      var s := Starts(trees[..m], pad);
      hide LengthBits, TreesBits, TreesCost, DeltaCost, Distance, StartOf;
      assert Starts(trees, pad) == s + [a];
      assert trees == trees[..m] + [l];
      TreesBitsConcat(s, trees[..m], a, l);
      LengthBitsSize(a, l);
      TreeSize(trees, pad, m, a);
    }
  }

  // ----- values -----

  /** The trees of the groups, in either numbering. */
  ghost predicate SameTrees(values: seq<nat>, selector: seq<nat>, lens: seq<seq<byte>>, n: nat,
                            groups: seq<nat>, trees: seq<seq<byte>>) {
    && Grouped(values, selector, n) && |lens| == MAX_TREES && |groups| == |selector|
    && (forall g {:trigger groups[g]} :: 0 <= g < |groups| ==>
         groups[g] < |trees| && trees[groups[g]] == lens[selector[g]])
    && forall t {:trigger trees[t]} :: 0 <= t < |trees| ==> |trees[t]| == n
  }

  /** The bits of the real values are what the plan counts for them. */
  lemma {:induction false} ValuesSize(values: seq<nat>, selector: seq<nat>, lens: seq<seq<byte>>, n: nat,
                                      groups: seq<nat>, trees: seq<seq<byte>>, m: nat, g: nat, index: nat)
    requires SameTrees(values, selector, lens, n, groups, trees) && m <= |values|
    requires g <= |groups| && index <= GROUP_SIZE && (g < |groups| || index == 0)
    requires GROUP_SIZE * g + index <= m && forall i {:trigger values[i]} :: 0 <= i < m ==> values[i] < n
    ensures CodedBits(values, selector, PadAll(lens, n), n, m)
      == CodedBits(values, selector, PadAll(lens, n), n, GROUP_SIZE * g + index)
        + |ValuesBits(trees, groups[g..], index, values[GROUP_SIZE * g + index..m])|
    decreases m - (GROUP_SIZE * g + index), index
  {
    hide ValuesBits, CodedBits, PadAll;
    var i := GROUP_SIZE * g + index;
    ValuesFit(values, selector, lens, n, groups, trees, m, g, index);
    if i == m {
      NoValues(trees, groups[g..], index, values[i..m]);
    } else if index == GROUP_SIZE {
      ValuesSize(values, selector, lens, n, groups, trees, m, g + 1, 0);
      ValuesFit(values, selector, lens, n, groups, trees, m, g + 1, 0);
      assert groups[g..][1..] == groups[g + 1..];
      NextGroupSize(trees, groups[g..], values[i..m]);
    } else {
      ValuesSize(values, selector, lens, n, groups, trees, m, g, index + 1);
      ValuesFit(values, selector, lens, n, groups, trees, m, g, index + 1);
      assert values[i..m][1..] == values[i + 1..m];
      NextValueSize(trees, groups[g..], index, values[i..m]);
      CodedNext(values, selector, lens, n, groups, trees, g, index);
    }
  }

  ghost predicate Fit(trees: seq<seq<byte>>, groups: seq<nat>, index: nat, values: seq<nat>) {
    && index <= GROUP_SIZE && index + |values| <= GROUP_SIZE * |groups|
    && (forall g :: 0 <= g < |groups| ==> groups[g] < |trees|)
    && forall t, i :: 0 <= t < |trees| && 0 <= i < |values| ==> values[i] < |trees[t]|
  }

  lemma ValuesFit(values: seq<nat>, selector: seq<nat>, lens: seq<seq<byte>>, n: nat,
                  groups: seq<nat>, trees: seq<seq<byte>>, m: nat, g: nat, index: nat)
    requires SameTrees(values, selector, lens, n, groups, trees) && m <= |values|
    requires g <= |groups| && index <= GROUP_SIZE && (g < |groups| || index == 0)
    requires GROUP_SIZE * g + index <= m && forall i {:trigger values[i]} :: 0 <= i < m ==> values[i] < n
    ensures Fit(trees, groups[g..], index, values[GROUP_SIZE * g + index..m])
  {
    var v, o := values[GROUP_SIZE * g + index..m], groups[g..];
    forall x | 0 <= x < |o| ensures o[x] < |trees| { assert o[x] == groups[g + x]; }
    forall t, i | 0 <= t < |trees| && 0 <= i < |v| ensures v[i] < |trees[t]| {
      assert v[i] == values[GROUP_SIZE * g + index + i] && |trees[t]| == n;
    }
  }

  lemma NoValues(trees: seq<seq<byte>>, groups: seq<nat>, index: nat, values: seq<nat>)
    requires Fit(trees, groups, index, values) && values == []
    ensures ValuesBits(trees, groups, index, values) == []
  {
  }

  lemma NextGroupSize(trees: seq<seq<byte>>, groups: seq<nat>, values: seq<nat>)
    requires Fit(trees, groups, GROUP_SIZE, values) && values != [] && Fit(trees, groups[1..], 0, values)
    ensures ValuesBits(trees, groups, GROUP_SIZE, values) == ValuesBits(trees, groups[1..], 0, values)
  {
  }

  lemma NextValueSize(trees: seq<seq<byte>>, groups: seq<nat>, index: nat, values: seq<nat>)
    requires Fit(trees, groups, index, values) && values != [] && index < GROUP_SIZE
    requires Fit(trees, groups, index + 1, values[1..])
    ensures groups[0] < |trees| && values[0] < |trees[groups[0]]|
    ensures |ValuesBits(trees, groups, index, values)|
      == trees[groups[0]][values[0]] as int + |ValuesBits(trees, groups, index + 1, values[1..])|
  {
    assert values[0] < |trees[groups[0]]|;
  }

  lemma CodedNext(values: seq<nat>, selector: seq<nat>, lens: seq<seq<byte>>, n: nat,
                  groups: seq<nat>, trees: seq<seq<byte>>, g: nat, index: nat)
    requires SameTrees(values, selector, lens, n, groups, trees) && g < |groups| && index < GROUP_SIZE
    requires values[GROUP_SIZE * g + index] < n
    ensures groups[g] < |trees| && |trees[groups[g]]| == n
    ensures CodedBits(values, selector, PadAll(lens, n), n, GROUP_SIZE * g + index + 1)
      == CodedBits(values, selector, PadAll(lens, n), n, GROUP_SIZE * g + index)
        + trees[groups[g]][values[GROUP_SIZE * g + index]] as int
  {
    var i := GROUP_SIZE * g + index;
    assert i / GROUP_SIZE == g;
    assert groups[g] < |trees| && trees[groups[g]] == lens[selector[g]];
    assert |trees[groups[g]]| == n;
    var p := PadAll(lens, n);
    assert p[selector[g]] == Pad(lens[selector[g]], n);
  }

  /** Dummies take no bits. */
  lemma {:induction false} DummiesFree(values: seq<nat>, selector: seq<nat>, lens: seq<seq<byte>>, n: nat, m: nat, k: nat)
    requires Grouped(values, selector, n) && |lens| == MAX_TREES && m <= k <= |values|
    requires forall i {:trigger values[i]} :: m <= i < |values| ==> values[i] == n
    ensures CodedBits(values, selector, PadAll(lens, n), n, k) == CodedBits(values, selector, PadAll(lens, n), n, m)
    decreases k
  {
    if m < k {
      DummiesFree(values, selector, lens, n, m, k - 1);
      DummyFree(values, selector, lens, n, k - 1);
      hide CodedBits, Grouped, Padded;
    }
  }

  lemma DummyFree(values: seq<nat>, selector: seq<nat>, lens: seq<seq<byte>>, n: nat, k: nat)
    requires Grouped(values, selector, n) && |lens| == MAX_TREES && k < |values| && values[k] == n
    ensures CodedBits(values, selector, PadAll(lens, n), n, k + 1) == CodedBits(values, selector, PadAll(lens, n), n, k)
  {
    hide Repeat;
    var t := selector[k / GROUP_SIZE];
    assert PadAll(lens, n)[t][n] == 0;
  }
}
