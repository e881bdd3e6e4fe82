/** The end of encoding: selectors, padding, and the exact size of the block. */
module Encoding {
  import opened Common
  import opened Bits
  import opened PrefixCode
  import MoveToFront
  import opened BlockFormat
  import opened BlockBits
  import opened PrefixForest
  import opened EncodingPlan
  import opened BlockSize
  import SelectorMtf

  // ----- selectors -----

  /** The positions at which a list of trees that moves to the front has the groups' trees. */
  ghost function SelectorCodes(order: seq<nat>, groups: seq<nat>): (s: seq<nat>)
    requires forall g {:trigger groups[g]} :: 0 <= g < |groups| ==> groups[g] in order
    ensures |s| == |groups|
    decreases |groups|
  {
    if groups == [] then []
    else
      var j := SelectorMtf.Position(order, groups[0]);
      StillIn(order, j, groups[1..]);
      [j] + SelectorCodes(SelectorMtf.ToFront(order, j), groups[1..])
  }

  lemma StillIn(order: seq<nat>, j: nat, groups: seq<nat>)
    requires j < |order|
    requires forall g {:trigger groups[g]} :: 0 <= g < |groups| ==> groups[g] in order
    ensures forall g {:trigger groups[g]} :: 0 <= g < |groups| ==> groups[g] in SelectorMtf.ToFront(order, j)
  {
    var to := SelectorMtf.ToFront(order, j);
    forall g {:trigger groups[g]} | 0 <= g < |groups| ensures groups[g] in to {
      var i :| 0 <= i < |order| && order[i] == groups[g];
      assert to[if i == j then 0 else if i < j then i + 1 else i] == order[i];
    }
  }

  const INITIAL_ORDER: seq<nat> := [0, 1, 2, 3, 4, 5]

  lemma InitialPacks()
    ensures SelectorMtf.Packs(0x543210, INITIAL_ORDER)
    ensures forall c: nat :: c < 6 ==> c in INITIAL_ORDER
    ensures |INITIAL_ORDER| == 6
  {
    assert SelectorMtf.At(0x543210, 0) == 0 && SelectorMtf.At(0x543210, 1) == 1 && SelectorMtf.At(0x543210, 2) == 2;
    assert SelectorMtf.At(0x543210, 3) == 3 && SelectorMtf.At(0x543210, 4) == 4 && SelectorMtf.At(0x543210, 5) == 5;
    assert INITIAL_ORDER[0] == 0 && INITIAL_ORDER[1] == 1 && INITIAL_ORDER[2] == 2;
    assert INITIAL_ORDER[3] == 3 && INITIAL_ORDER[4] == 4 && INITIAL_ORDER[5] == 5;
  }

  function Mapped(selector: seq<nat>, old2new: seq<nat>): (g: seq<nat>)
    requires forall i {:trigger selector[i]} :: 0 <= i < |selector| ==> selector[i] < |old2new|
    ensures |g| == |selector|
    ensures forall i {:trigger g[i]} :: 0 <= i < |g| ==> g[i] == old2new[selector[i]]
  {
    seq(|selector|, i requires 0 <= i < |selector| => (assert selector[i] < |old2new|; old2new[selector[i]]))
  }

  ghost predicate Mappable(selector: seq<nat>, old2new: seq<nat>) {
    forall i {:trigger selector[i]} :: 0 <= i < |selector| ==> selector[i] < |old2new| && old2new[selector[i]] < MAX_TREES
  }

  /** Codes the selectors, and adds up their bits. */
  method CodeSelectors(selector: seq<nat>, old2new: seq<nat>) returns (mtf: seq<nat>, cost: nat)
    requires Mappable(selector, old2new)
    ensures forall g {:trigger Mapped(selector, old2new)[g]} :: 0 <= g < |selector| ==> Mapped(selector, old2new)[g] in INITIAL_ORDER
    ensures mtf == SelectorCodes(INITIAL_ORDER, Mapped(selector, old2new)) && cost == SumPlusOne(mtf)
    ensures forall g {:trigger mtf[g]} :: 0 <= g < |mtf| ==> mtf[g] < MAX_TREES
  {
    hide SelectorMtf.Mask, SelectorMtf.Rotated, SelectorMtf.Nibble, SelectorMtf.TrailingZeros, SelectorMtf.Packs;
    hide SelectorMtf.Below, SelectorMtf.ToFront, SelectorMtf.Position, SumPlusOne, INITIAL_ORDER;
    ghost var groups := Mapped(selector, old2new);
    InitialPacks();
    NoneCoded();
    forall g {:trigger groups[g]} | 0 <= g < |groups| ensures groups[g] in INITIAL_ORDER {
      assert selector[g] < |old2new|;
    }
    mtf, cost := [], 0;
    var p: bv32 := 0x543210;
    ghost var order := INITIAL_ORDER;
    ghost var whole := SelectorCodes(INITIAL_ORDER, groups);
    assert groups[0..] == groups;
    NothingBefore(whole);
    for sp := 0 to |selector|
      invariant SelectorMtf.Packs(p, order) && |order| == 6 && |mtf| == sp && cost == SumPlusOne(mtf)
      invariant forall g {:trigger groups[sp..][g]} :: 0 <= g < |groups| - sp ==> groups[sp..][g] in order
      invariant whole == mtf + SelectorCodes(order, groups[sp..])
      invariant forall g {:trigger mtf[g]} :: 0 <= g < |mtf| ==> mtf[g] < MAX_TREES
    {
      assert selector[sp] < |old2new|;
      var c := old2new[selector[sp]];
      CodesNext(order, groups, sp, mtf);
      ghost var at := SelectorMtf.Position(order, c);
      SelectorMtf.RotatedPacks(p, order, c);
      SelectorMtf.PositionBits(at);
      PackedSize(order, c, at);
      var l := SelectorMtf.Mask(p, SelectorMtf.Nibble(c));
      var j := SelectorMtf.TrailingZeros(!l, 32) / 4 - 1;
      p := SelectorMtf.Rotated(p, SelectorMtf.Nibble(c));
      order := SelectorMtf.ToFront(order, at);
      SumNext(mtf, j);
      mtf := mtf + [j];
      cost := cost + j + 1;
    }
    NothingBefore(mtf);
  }

  lemma PackedSize(order: seq<nat>, c: nat, j: nat)
    requires c in order && |order| == 6 && j == SelectorMtf.Position(order, c)
    ensures j < 6 && |SelectorMtf.ToFront(order, j)| == 6
  {
  }

  lemma NoneCoded()
    ensures SumPlusOne([]) == 0
  {
  }

  lemma SumNext(s: seq<nat>, j: nat)
    ensures SumPlusOne(s + [j]) == SumPlusOne(s) + j + 1
  {
    assert (s + [j])[..|s|] == s;
  }

  lemma CodesNext(order: seq<nat>, groups: seq<nat>, g: nat, done: seq<nat>)
    requires g < |groups| && |order| == 6
    requires forall i {:trigger groups[g..][i]} :: 0 <= i < |groups| - g ==> groups[g..][i] in order
    ensures groups[g] in order
    ensures var j := SelectorMtf.Position(order, groups[g]);
      var to := SelectorMtf.ToFront(order, j);
      && (forall i {:trigger groups[g + 1..][i]} :: 0 <= i < |groups| - (g + 1) ==> groups[g + 1..][i] in to)
      && done + SelectorCodes(order, groups[g..]) == done + [j] + SelectorCodes(to, groups[g + 1..])
  {
    var left := groups[g..];
    assert left[0] == groups[g] && left[1..] == groups[g + 1..];
    var j := SelectorMtf.Position(order, left[0]);
    assert forall i {:trigger left[1..][i]} :: 0 <= i < |left| - 1 ==> left[1..][i] == left[i + 1];
    StillIn(order, j, left[1..]);
    Regrouped(done, [j], SelectorCodes(SelectorMtf.ToFront(order, j), left[1..]));
  }

  /** The decoder's list of trees mirrors the front of the encoder's. */
  ghost predicate Mirrors(refs: seq<TreeRef>, order: seq<nat>) {
    && |refs| <= |order|
    && (forall i {:trigger refs[i]} :: 0 <= i < |refs| ==> refs[i] == Good(order[i]) && order[i] < |refs|)
    && forall c: nat :: c < |refs| ==> c in order[..|refs|]
  }

  lemma MirrorsStep(refs: seq<TreeRef>, order: seq<nat>, c: nat)
    requires Mirrors(refs, order) && c < |refs| && c in order
    ensures SelectorMtf.Position(order, c) < |refs|
    ensures Mirrors(RefToFront(refs, SelectorMtf.Position(order, c)), SelectorMtf.ToFront(order, SelectorMtf.Position(order, c)))
  {
    var n, j := |refs|, SelectorMtf.Position(order, c);
    var front := order[..n];
    assert c in front;
    var i :| 0 <= i < |front| && front[i] == c;
    assert j <= i;
    var r, to := RefToFront(refs, j), SelectorMtf.ToFront(order, j);
    forall x {:trigger r[x]} | 0 <= x < n ensures r[x] == Good(to[x]) && to[x] < n {
      var y := if x == 0 then j else if x <= j then x - 1 else x;
      assert r[x] == refs[y];
    }
    forall d: nat | d < n ensures d in to[..n] {
      assert d in front;
      var x :| 0 <= x < |front| && front[x] == d;
      var y := if x == j then 0 else if x < j then x + 1 else x;
      assert to[..n][y] == d;
    }
  }

  /** So the coded selectors select the groups' trees. */
  lemma {:induction false} CodesSelect(refs: seq<TreeRef>, order: seq<nat>, groups: seq<nat>, more: seq<nat>)
    requires Mirrors(refs, order)
    requires forall g {:trigger groups[g]} :: 0 <= g < |groups| ==> groups[g] < |refs| && groups[g] in order
    ensures Selects(refs, SelectorCodes(order, groups) + more, groups)
    decreases |groups|
  {
    if groups != [] {
      hide Mirrors;
      var c := groups[0];
      assert c < |refs| && c in order;
      var j := SelectorMtf.Position(order, c);
      MirrorsStep(refs, order, c);
      assert forall i {:trigger groups[1..][i]} :: 0 <= i < |groups| - 1 ==> groups[1..][i] == groups[i + 1];
      StillIn(order, j, groups[1..]);
      var rest := SelectorCodes(SelectorMtf.ToFront(order, j), groups[1..]);
      CodesSelect(RefToFront(refs, j), SelectorMtf.ToFront(order, j), groups[1..], more);
      SelectsFirst(refs, order, groups, j, rest, more);
    }
  }

  lemma SelectsFirst(refs: seq<TreeRef>, order: seq<nat>, groups: seq<nat>, j: nat, rest: seq<nat>, more: seq<nat>)
    requires Mirrors(refs, order) && groups != [] && j < |refs| && order[j] == groups[0]
    requires Selects(RefToFront(refs, j), rest + more, groups[1..])
    ensures Selects(refs, [j] + rest + more, groups)
  {
    assert ([j] + rest + more)[1..] == rest + more;
    assert refs[j] == Good(order[j]);
  }

  // ----- the whole block -----

  function MarksOf(inuse: seq<bool>): (m: seq<bit>)
    ensures |m| == |inuse| && forall i :: 0 <= i < |m| ==> m[i] == if inuse[i] then 1 else 0
  {
    if inuse == [] then [] else MarksOf(inuse[..|inuse| - 1]) + [if inuse[|inuse| - 1] then 1 else 0]
  }

  /** The trees in the order of transmission. */
  function Sent(o: seq<nat>, lens: seq<seq<byte>>): (t: seq<seq<byte>>)
    requires forall i {:trigger o[i]} :: 0 <= i < |o| ==> o[i] < |lens|
    ensures |t| == |o| && forall i {:trigger t[i]} :: 0 <= i < |o| ==> t[i] == lens[o[i]]
  {
    seq(|o|, i requires 0 <= i < |o| => (assert o[i] < |lens|; lens[o[i]]))
  }

  /** What the encoder knows of a block before it lays it out. */
  ghost predicate Prepared(inuse: seq<bool>, values: seq<nat>, selector: seq<nat>, plan: Plan, n: nat) {
    && |inuse| == 256 && |Marked(0, MarksOf(inuse))| + 2 == n
    && Planned(plan, Completed(values, n), selector, n)
    && Ended(values, n - 1) && |values| <= MAX_BLOCK_SIZE + 1
  }

  ghost function CodedOf(idx: nat, inuse: seq<bool>, values: seq<nat>, selector: seq<nat>, plan: Plan, n: nat,
                         mtf: seq<nat>, pad: nat): BlockBits.Coded
    requires Prepared(inuse, values, selector, plan, n)
  {
    SentTrees(inuse, values, selector, plan, n);
    var trees := Sent(plan.new2old, plan.forest.lens);
    BlockBits.Coded(idx, MarksOf(inuse), mtf, Starts(trees, pad), trees, Mapped(selector, plan.old2new), values)
  }

  lemma SentTrees(inuse: seq<bool>, values: seq<nat>, selector: seq<nat>, plan: Plan, n: nat)
    requires Prepared(inuse, values, selector, plan, n)
    ensures forall i {:trigger plan.new2old[i]} :: 0 <= i < |plan.new2old| ==> plan.new2old[i] < |plan.forest.lens|
    ensures forall i {:trigger selector[i]} :: 0 <= i < |selector| ==> selector[i] < |plan.old2new|
    ensures var trees := Sent(plan.new2old, plan.forest.lens);
      && MIN_TREES <= |trees| <= MAX_TREES
      && forall t {:trigger trees[t]} :: 0 <= t < |trees| ==>
           trees[t] != [] && trees[t][0] >= 1 && |trees[t]| == n && Complete(trees[t])
  {
    hide Complete, Code, HeadCost, CodedBits, Start;
    var trees := Sent(plan.new2old, plan.forest.lens);
    forall t {:trigger trees[t]} | 0 <= t < |trees|
      ensures trees[t] != [] && trees[t][0] >= 1 && |trees[t]| == n && Complete(trees[t])
    {
      assert plan.new2old[t] < MAX_TREES;
      CompleteLengths(trees[t]);
    }
  }

  /** The groups' trees, in the order of transmission. */
  lemma MappedTrees(inuse: seq<bool>, values: seq<nat>, selector: seq<nat>, plan: Plan, n: nat)
    requires Prepared(inuse, values, selector, plan, n)
    ensures Mappable(selector, plan.old2new) && |plan.old2new| == MAX_TREES == |plan.forest.lens|
    ensures forall i {:trigger plan.new2old[i]} :: 0 <= i < |plan.new2old| ==> plan.new2old[i] < |plan.forest.lens|
    ensures var g, trees := Mapped(selector, plan.old2new), Sent(plan.new2old, plan.forest.lens);
      forall i {:trigger g[i]} :: 0 <= i < |g| ==> g[i] < |trees| && trees[g[i]] == plan.forest.lens[selector[i]]
  {
    hide Complete, Code, HeadCost, CodedBits;
    SentTrees(inuse, values, selector, plan, n);
    var g, trees := Mapped(selector, plan.old2new), Sent(plan.new2old, plan.forest.lens);
    forall i {:trigger selector[i]} | 0 <= i < |selector|
      ensures selector[i] < |plan.old2new| && plan.old2new[selector[i]] < |plan.new2old|
      ensures trees[plan.old2new[selector[i]]] == plan.forest.lens[selector[i]]
    {
      assert selector[i] in plan.new2old;
      var x :| 0 <= x < |plan.new2old| && plan.new2old[x] == selector[i];
      assert trees[x] == plan.forest.lens[plan.new2old[x]];
    }
  }

  lemma {:induction false} GoodRefs(trees: seq<seq<byte>>)
    requires forall t {:trigger trees[t]} :: 0 <= t < |trees| ==> Complete(trees[t])
    ensures forall i {:trigger Refs(trees)[i]} :: 0 <= i < |trees| ==> Refs(trees)[i] == Good(i)
    decreases |trees|
  {
    if trees != [] {
      var m := |trees| - 1;
      assert forall t {:trigger trees[..m][t]} :: 0 <= t < m ==> trees[..m][t] == trees[t];
      GoodRefs(trees[..m]);
      CompleteLengths(trees[m]);
      StatusOk(trees[m]);
      hide TreeStatus, Complete;
      forall i {:trigger Refs(trees)[i]} | 0 <= i < |trees| ensures Refs(trees)[i] == Good(i) {
        if i < m { assert Refs(trees)[i] == Refs(trees[..m])[i]; }
      }
    }
  }

  lemma MirrorsInitial(refs: seq<TreeRef>)
    requires |refs| <= 6 && forall i {:trigger refs[i]} :: 0 <= i < |refs| ==> refs[i] == Good(i)
    ensures Mirrors(refs, INITIAL_ORDER)
  {
    var o := INITIAL_ORDER;
    assert o[0] == 0 && o[1] == 1 && o[2] == 2 && o[3] == 3 && o[4] == 4 && o[5] == 5;
    forall c: nat | c < |refs| ensures c in o[..|refs|] {
      assert o[..|refs|][c] == c;
    }
  }

  /** Coded selectors are positions among the trees in use. */
  lemma {:induction false} CodesBelow(refs: seq<TreeRef>, order: seq<nat>, groups: seq<nat>)
    requires Mirrors(refs, order)
    requires forall g {:trigger groups[g]} :: 0 <= g < |groups| ==> groups[g] < |refs| && groups[g] in order
    ensures forall g {:trigger SelectorCodes(order, groups)[g]} :: 0 <= g < |groups| ==> SelectorCodes(order, groups)[g] < |refs|
    decreases |groups|
  {
    if groups != [] {
      hide Mirrors;
      var c := groups[0];
      assert c < |refs| && c in order;
      var j := SelectorMtf.Position(order, c);
      MirrorsStep(refs, order, c);
      assert forall i {:trigger groups[1..][i]} :: 0 <= i < |groups| - 1 ==> groups[1..][i] == groups[i + 1];
      StillIn(order, j, groups[1..]);
      CodesBelow(RefToFront(refs, j), SelectorMtf.ToFront(order, j), groups[1..]);
      var s, rest := SelectorCodes(order, groups), SelectorCodes(SelectorMtf.ToFront(order, j), groups[1..]);
      assert s == [j] + rest;
      forall g {:trigger s[g]} | 0 <= g < |groups| ensures s[g] < |refs| {
        if g > 0 { assert s[g] == rest[g - 1]; }
      }
    }
  }

  /** What the format asks of the trees and the selectors. */
  lemma HeadValid(idx: nat, inuse: seq<bool>, values: seq<nat>, selector: seq<nat>, plan: Plan, n: nat,
                  mtf: seq<nat>, pad: nat)
    requires Prepared(inuse, values, selector, plan, n) && pad <= 3
    requires 0 < |mtf| && forall g {:trigger mtf[g]} :: 0 <= g < |mtf| ==> mtf[g] < |plan.new2old|
    ensures var c := CodedOf(idx, inuse, values, selector, plan, n, mtf, pad);
      ValidHead(HeadOf(c)) && ValidStarts(c.starts) && |c.starts| == |c.trees|
  {
    var c := CodedOf(idx, inuse, values, selector, plan, n, mtf, pad);
    SentTrees(inuse, values, selector, plan, n);
    hide Prepared, Complete, Marked;
    forall t {:trigger c.trees[t]} | 0 <= t < |c.trees| ensures Lengths(c.trees[t]) { CompleteLengths(c.trees[t]); }
    UsedSome(inuse, values, selector, plan, n);
    forall t {:trigger c.starts[t]} | 0 <= t < |c.starts| ensures 1 <= c.starts[t] <= MAX_CODE_LENGTH {
      assert Lengths(c.trees[t]);
    }
  }

  lemma UsedSome(inuse: seq<bool>, values: seq<nat>, selector: seq<nat>, plan: Plan, n: nat)
    requires Prepared(inuse, values, selector, plan, n)
    ensures |inuse| == 256 && |Marked(0, MarksOf(inuse))| + 2 == n && 3 <= n <= MAX_ALPHA_SIZE
    ensures |selector| == Groups(|values|) && Ended(values, n - 1) && 0 < |values| <= MAX_BLOCK_SIZE + 1
  {
    hide Complete, Code, HeadCost, CodedBits, HasCode, Marked;
  }

  /** The trees, groups and values suit one another. */
  lemma ValuesSuit(idx: nat, inuse: seq<bool>, values: seq<nat>, selector: seq<nat>, plan: Plan, n: nat,
                   mtf: seq<nat>, pad: nat)
    requires Prepared(inuse, values, selector, plan, n)
    ensures var c := CodedOf(idx, inuse, values, selector, plan, n, mtf, pad); Suits(HeadOf(c), c.groups, 0, c.values)
  {
    var c := CodedOf(idx, inuse, values, selector, plan, n, mtf, pad);
    SentTrees(inuse, values, selector, plan, n);
    MappedTrees(inuse, values, selector, plan, n);
    UsedSome(inuse, values, selector, plan, n);
    hide Prepared, Complete, Marked, Ended;
    forall g | 0 <= g < |c.groups| ensures c.groups[g] < |c.trees| && Complete(c.trees[c.groups[g]]) {
      assert c.groups[g] < |c.trees|;
      var t := c.groups[g];
      assert Complete(c.trees[t]);
    }
  }

  ghost predicate SelectorsCoded(selector: seq<nat>, plan: Plan, mtf: seq<nat>) {
    && Mappable(selector, plan.old2new)
    && (forall g {:trigger Mapped(selector, plan.old2new)[g]} :: 0 <= g < |selector| ==>
         Mapped(selector, plan.old2new)[g] in INITIAL_ORDER)
    && exists extra: nat {:trigger Repeat<nat>(0, extra)} ::
         extra <= 1 && mtf == SelectorCodes(INITIAL_ORDER, Mapped(selector, plan.old2new)) + Repeat<nat>(0, extra)
  }

  /** Everything fits: the block laid out stands for its characters. */
  lemma LaidOut(idx: nat, inuse: seq<bool>, values: seq<nat>, selector: seq<nat>, plan: Plan, n: nat,
                mtf: seq<nat>, pad: nat, chars: seq<byte>)
    requires Prepared(inuse, values, selector, plan, n) && pad <= 3 && SelectorsCoded(selector, plan, mtf)
    requires idx < |chars| <= MAX_BLOCK_SIZE
    requires MoveToFront.Unsymbols(Marked(0, MarksOf(inuse)), 0, 0, values) == MoveToFront.Block(chars)
    ensures Codes(CodedOf(idx, inuse, values, selector, plan, n, mtf, pad), chars)
  {
    hide Prepared, Complete, Marked, Ended, Selects, Suits, ValidHead, ValidStarts, SelectorsCoded;
    SelectorsLaid(inuse, values, selector, plan, n, mtf);
    HeadValid(idx, inuse, values, selector, plan, n, mtf, pad);
    ValuesSuit(idx, inuse, values, selector, plan, n, mtf, pad);
    UsedSome(inuse, values, selector, plan, n);
  }

  /** The selectors as laid out name the groups' trees. */
  lemma SelectorsLaid(inuse: seq<bool>, values: seq<nat>, selector: seq<nat>, plan: Plan, n: nat, mtf: seq<nat>)
    requires Prepared(inuse, values, selector, plan, n) && SelectorsCoded(selector, plan, mtf)
    ensures Mappable(selector, plan.old2new)
    ensures forall i {:trigger plan.new2old[i]} :: 0 <= i < |plan.new2old| ==> plan.new2old[i] < |plan.forest.lens|
    ensures var groups := Mapped(selector, plan.old2new);
      && Selects(Refs(Sent(plan.new2old, plan.forest.lens)), mtf, groups)
      && groups != [] && |groups| <= Bound(|mtf|)
    ensures 0 < |mtf| < 0x8000 && forall g {:trigger mtf[g]} :: 0 <= g < |mtf| ==> mtf[g] < |plan.new2old|
  {
    hide Prepared, Complete, Ended, INITIAL_ORDER, Selects, SelectorsCoded, SelectorCodes, Mapped;
    var extra := ExtraOf(selector, plan, mtf);
    var groups := Mapped(selector, plan.old2new);
    SentTrees(inuse, values, selector, plan, n);
    MappedTrees(inuse, values, selector, plan, n);
    UsedSome(inuse, values, selector, plan, n);
    EnoughGroups(|values|);
    TreesSelected(Sent(plan.new2old, plan.forest.lens), groups, extra, mtf);
  }

  lemma ExtraOf(selector: seq<nat>, plan: Plan, mtf: seq<nat>) returns (extra: nat)
    requires SelectorsCoded(selector, plan, mtf)
    ensures Mappable(selector, plan.old2new) && extra <= 1
    ensures forall g {:trigger Mapped(selector, plan.old2new)[g]} :: 0 <= g < |selector| ==>
      Mapped(selector, plan.old2new)[g] in INITIAL_ORDER
    ensures mtf == SelectorCodes(INITIAL_ORDER, Mapped(selector, plan.old2new)) + Repeat<nat>(0, extra)
  {
    extra :| extra <= 1 && mtf == SelectorCodes(INITIAL_ORDER, Mapped(selector, plan.old2new)) + Repeat<nat>(0, extra);
  }

  lemma TreesSelected(trees: seq<seq<byte>>, groups: seq<nat>, extra: nat, mtf: seq<nat>)
    requires 0 < |trees| <= MAX_TREES && forall t {:trigger trees[t]} :: 0 <= t < |trees| ==> Complete(trees[t])
    requires forall g {:trigger groups[g]} :: 0 <= g < |groups| ==> groups[g] < |trees| && groups[g] in INITIAL_ORDER
    requires mtf == SelectorCodes(INITIAL_ORDER, groups) + Repeat<nat>(0, extra)
    ensures Selects(Refs(trees), mtf, groups)
    ensures forall g {:trigger mtf[g]} :: 0 <= g < |mtf| ==> mtf[g] < |trees|
  {
    hide INITIAL_ORDER, Selects, Mirrors, Complete, Refs;
    GoodRefs(trees);
    var refs := Refs(trees);
    MirrorsInitial(refs);
    CodesSelect(refs, INITIAL_ORDER, groups, Repeat<nat>(0, extra));
    CodesBelow(refs, INITIAL_ORDER, groups);
    MtfBelow(SelectorCodes(INITIAL_ORDER, groups), extra, mtf, |refs|);
  }

  lemma MtfBelow(codes: seq<nat>, extra: nat, mtf: seq<nat>, n: nat)
    requires mtf == codes + Repeat<nat>(0, extra) && n > 0
    requires forall g {:trigger codes[g]} :: 0 <= g < |codes| ==> codes[g] < n
    ensures forall g {:trigger mtf[g]} :: 0 <= g < |mtf| ==> mtf[g] < n
  {
    forall g {:trigger mtf[g]} | 0 <= g < |mtf| ensures mtf[g] < n {
      if g < |codes| { assert mtf[g] == codes[g]; }
    }
  }

  lemma EnoughGroups(m: nat)
    requires 0 < m <= MAX_BLOCK_SIZE + 1
    ensures 0 < Groups(m) <= MAX_GROUPS
  {
  }

  // ----- its size -----

  lemma {:induction false} HeadCostIsTreesCost(o: seq<nat>, lens: seq<seq<byte>>, n: nat)
    requires |lens| == MAX_TREES && forall i {:trigger o[i]} :: 0 <= i < |o| ==> o[i] < MAX_TREES && |lens[o[i]]| == n
    ensures TreesCost(Sent(o, lens)) == HeadCost(o, lens, n)
    decreases |o|
  {
    if o != [] {
      var m := |o| - 1;
      assert o[m] < MAX_TREES;
      assert forall i {:trigger o[..m][i]} :: 0 <= i < m ==> o[..m][i] == o[i];
      HeadCostIsTreesCost(o[..m], lens, n);
      assert Sent(o, lens)[..m] == Sent(o[..m], lens);
      assert Sent(o, lens)[m] == lens[o[m]];
    }
  }

  /** The trees and the values take what the plan says, and the padding steps. */
  lemma PlanSize(inuse: seq<bool>, values: seq<nat>, selector: seq<nat>, plan: Plan, n: nat, pad: nat)
    requires Prepared(inuse, values, selector, plan, n) && pad <= 3
    ensures var c := CodedOf(0, inuse, values, selector, plan, n, [], pad);
      && Suits(HeadOf(c), c.groups, 0, c.values) && |c.starts| == |c.trees|
      && |TreesBits(c.starts, c.trees)| + |SuitedBits(HeadOf(c), c.groups, 0, c.values)| == plan.cost + 2 * pad
  {
    var c := CodedOf(0, inuse, values, selector, plan, n, [], pad);
    SentTrees(inuse, values, selector, plan, n);
    MappedTrees(inuse, values, selector, plan, n);
    UsedSome(inuse, values, selector, plan, n);
    PlanParts(inuse, values, selector, plan, n);
    ValuesSuit(0, inuse, values, selector, plan, n, [], pad);
    hide Prepared, Complete, Marked, Ended, Grouped, CodedBits, HeadCost;
    TreesBitsSize(c.trees, pad);
    HeadCostIsTreesCost(plan.new2old, plan.forest.lens, n);
    var v := Completed(values, n);
    SuitedSize(c, v, values, selector, plan, n);
  }

  lemma PlanParts(inuse: seq<bool>, values: seq<nat>, selector: seq<nat>, plan: Plan, n: nat)
    requires Prepared(inuse, values, selector, plan, n)
    ensures Grouped(Completed(values, n), selector, n) && |plan.forest.lens| == MAX_TREES
    ensures forall i {:trigger plan.new2old[i]} :: 0 <= i < |plan.new2old| ==>
      plan.new2old[i] < MAX_TREES && |plan.forest.lens[plan.new2old[i]]| == n
    ensures plan.cost == HeadCost(plan.new2old, plan.forest.lens, n)
      + CodedBits(Completed(values, n), selector, PadAll(plan.forest.lens, n), n, |Completed(values, n)|)
  {
    hide Complete, Code, HeadCost, CodedBits, HasCode, Marked, Ended;
  }

  lemma SuitedSize(c: BlockBits.Coded, v: seq<nat>, values: seq<nat>, selector: seq<nat>, plan: Plan, n: nat)
    requires v == Completed(values, n) && Grouped(v, selector, n) && |plan.forest.lens| == MAX_TREES && |c.marks| == 256
    requires c.values == values && Suits(HeadOf(c), c.groups, 0, values) && |c.groups| == |selector|
    requires forall g {:trigger c.groups[g]} :: 0 <= g < |c.groups| ==>
      c.groups[g] < |c.trees| && c.trees[c.groups[g]] == plan.forest.lens[selector[g]]
    requires forall t {:trigger c.trees[t]} :: 0 <= t < |c.trees| ==> |c.trees[t]| == n
    requires |Marked(0, c.marks)| + 2 == n
    ensures |SuitedBits(HeadOf(c), c.groups, 0, values)|
      == CodedBits(v, selector, PadAll(plan.forest.lens, n), n, |v|)
  {
    var m := |values|;
    EndedBelow(values, n - 1);
    forall i {:trigger v[i]} | 0 <= i < m ensures v[i] < n { assert v[i] == values[i]; }
    hide Complete, Marked, Ended, CodedBits, ValuesBits;
    ValuesSize(v, selector, plan.forest.lens, n, c.groups, c.trees, m, 0, 0);
    DummiesFree(v, selector, plan.forest.lens, n, m, |v|);
    assert c.groups[0..] == c.groups && v[0..m] == values;
    NoneYetCoded(v, selector, PadAll(plan.forest.lens, n), n);
  }

  lemma NoneYetCoded(values: seq<nat>, selector: seq<nat>, l: seq<seq<nat>>, n: nat)
    requires Grouped(values, selector, n) && Padded(l, n)
    ensures CodedBits(values, selector, l, n, 0) == 0
  {
  }

  /** The exact number of bits from the randomisation flag on. */
  lemma BitsSize(idx: nat, inuse: seq<bool>, values: seq<nat>, selector: seq<nat>, plan: Plan, n: nat,
                 mtf: seq<nat>, pad: nat)
    requires Prepared(inuse, values, selector, plan, n) && pad <= 3
    ensures var c := CodedOf(idx, inuse, values, selector, plan, n, mtf, pad);
      && Suits(HeadOf(c), c.groups, 0, c.values) && |c.starts| == |c.trees|
      && |BitsOf(c)| == 1 + 24 + 16 + 16 * RowsInUse(MarksOf(inuse)) + 3 + 15 + SumPlusOne(mtf) + plan.cost + 2 * pad
  {
    var c := CodedOf(idx, inuse, values, selector, plan, n, mtf, pad);
    UsedSome(inuse, values, selector, plan, n);
    hide Prepared, Complete, Ended, Suits, SuitedBits, SmallBits, BigBits, SelectorBits, TreesBits, RowsInUse;
    ValuesSuit(idx, inuse, values, selector, plan, n, mtf, pad);
    PlanSize(inuse, values, selector, plan, n, pad);
    SuitedSame(idx, inuse, values, selector, plan, n, mtf, pad);
    SmallBitsSize(c.marks);
    SelectorBitsSize(mtf);
  }

  lemma SuitedSame(idx: nat, inuse: seq<bool>, values: seq<nat>, selector: seq<nat>, plan: Plan, n: nat,
                   mtf: seq<nat>, pad: nat)
    requires Prepared(inuse, values, selector, plan, n)
    ensures var c, d := CodedOf(idx, inuse, values, selector, plan, n, mtf, pad), CodedOf(0, inuse, values, selector, plan, n, [], pad);
      && Suits(HeadOf(c), c.groups, 0, c.values) && Suits(HeadOf(d), d.groups, 0, d.values)
      && SuitedBits(HeadOf(c), c.groups, 0, c.values) == SuitedBits(HeadOf(d), d.groups, 0, d.values)
      && c.starts == d.starts && c.trees == d.trees
  {
    ValuesSuit(idx, inuse, values, selector, plan, n, mtf, pad);
    ValuesSuit(0, inuse, values, selector, plan, n, [], pad);
    hide Prepared, Complete, Ended, Marked, ValuesBits;
  }

  /** The rows of the character map that are in use. */
  method CountRows(inuse: seq<bool>) returns (rows: nat)
    requires |inuse| == 256
    ensures rows == RowsInUse(MarksOf(inuse))
  {
    ghost var marks := MarksOf(inuse);
    rows := 0;
    assert marks[0..] == marks;
    for i := 0 to 16
      invariant RowsInUse(marks) == rows + RowsInUse(marks[16 * i..])
    {
      var pk := false;
      for j := 0 to 16
        invariant pk <==> exists x :: 0 <= x < j && marks[16 * i..][..16][x] == 1
      {
        pk := pk || inuse[16 * i + j];
        assert marks[16 * i..][..16][j] == marks[16 * i + j];
      }
      assert marks[16 * i..][16..] == marks[16 * (i + 1)..];
      rows := rows + if pk then 1 else 0;
    }
  }

  /** Lays out the block: codes the selectors, pads the block to whole bytes with steps of
      the first tree and one more selector, and returns the size in bytes. */
  method LayOut(inuse: seq<bool>, selector: seq<nat>, plan: Plan, n: nat, ghost values: seq<nat>, ghost idx: nat)
    returns (mtf: seq<nat>, treePad: nat, size: nat)
    requires Prepared(inuse, values, selector, plan, n)
    ensures treePad <= 3 && SelectorsCoded(selector, plan, mtf)
    ensures var c := CodedOf(idx, inuse, values, selector, plan, n, mtf, treePad);
      && Suits(HeadOf(c), c.groups, 0, c.values) && |c.starts| == |c.trees|
      && 8 * size == 48 + 32 + |BitsOf(c)|
  {
    hide Prepared, SelectorsCoded, BitsOf, RowsInUse, SumPlusOne, Suits, Starts, Sent, Mapped, Mappable, HeadOf;
    UsedSome(inuse, values, selector, plan, n);
    MappedTrees(inuse, values, selector, plan, n);
    var cost;
    mtf, treePad, cost := PadSelectors(selector, plan);
    var rows := CountRows(inuse);
    cost := cost + rows * 16 + 16;
    size := cost / 8;
    BitsSize(idx, inuse, values, selector, plan, n, mtf, treePad);
  }

  /** Codes the selectors, and makes the block whole bytes. */
  method PadSelectors(selector: seq<nat>, plan: Plan) returns (mtf: seq<nat>, treePad: nat, cost: nat)
    requires Mappable(selector, plan.old2new)
    ensures treePad <= 3 && SelectorsCoded(selector, plan, mtf)
    ensures cost == 48 + 32 + 1 + 24 + 3 + 15 + plan.cost + SumPlusOne(mtf) + 2 * treePad && cost % 8 == 0
  {
    hide SelectorsCoded, SumPlusOne;
    cost := 48 + 32 + 1 + 24 + 3 + 15;
    cost := cost + plan.cost;
    var x;
    mtf, x := CodeSelectors(selector, plan.old2new);
    cost := cost + x;
    ghost var codes := mtf;
    var j := (8 - cost % 8) % 8;
    cost := cost + j;
    treePad := j / 2;
    if j % 2 == 1 {
      SumNext(mtf, 0);
      mtf := mtf + [0];
    }
    ExtraSelector(selector, plan, codes, mtf);
  }

  lemma ExtraSelector(selector: seq<nat>, plan: Plan, codes: seq<nat>, mtf: seq<nat>)
    requires Mappable(selector, plan.old2new)
    requires forall g {:trigger Mapped(selector, plan.old2new)[g]} :: 0 <= g < |selector| ==>
      Mapped(selector, plan.old2new)[g] in INITIAL_ORDER
    requires codes == SelectorCodes(INITIAL_ORDER, Mapped(selector, plan.old2new)) && (mtf == codes || mtf == codes + [0])
    ensures SelectorsCoded(selector, plan, mtf)
  {
    hide SelectorCodes, INITIAL_ORDER;
    assert Repeat<nat>(0, 1) == [0];
    if mtf == codes {
      assert mtf == codes + Repeat<nat>(0, 0);
    } else {
      assert mtf == codes + Repeat<nat>(0, 1);
    }
  }
}
