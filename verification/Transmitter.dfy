/** Writing a block: every part of it enters the bit buffer, which never overflows. */
module Transmitter {
  import opened Common
  import opened Powers
  import opened Bits
  import opened Bitstreams
  import opened PrefixCode
  import opened BlockFormat
  import opened BlockBits
  import opened BlockSize
  import opened PrefixForest
  import opened EncodingPlan
  import opened BitWriters
  import opened Encoding

  // ----- codes of one part -----

  lemma {:induction false} UnaryValue(k: nat)
    ensures Pow2(k + 1) >= 2 && ToBits(Pow2(k + 1) - 2, k + 1) == Unary(k)
    decreases k
  {
    ValToBits(Pow2(k + 1) - 2, k + 1);
    UnaryVal(k);
    ValInjective(ToBits(Pow2(k + 1) - 2, k + 1), Unary(k));
  }

  lemma {:induction false} UnaryVal(k: nat)
    ensures Val(Unary(k)) == Pow2(k + 1) - 2
    decreases k
  {
    if k == 0 {
      assert [0][..0] == [];
    } else {
      UnaryVal(k - 1);
      ValConcat([1], Unary(k - 1));
      assert Val([1]) == 1 by { assert [1][..0] == []; }
    }
  }

  lemma TwoBits()
    ensures ToBits(2, 2) == [1, 0] && ToBits(3, 2) == [1, 1] && ToBits(0, 1) == [0]
    ensures Pow2(1) == 2 && Pow2(2) == 4
  {
    assert ToBits(1, 1) == [1] && ToBits(0, 1) == [0];
  }

  /** The registers never run over: between parts fewer than 32 bits are pending. */
  ghost predicate Ready(w: BitWriter)
    reads w
  {
    w.Valid() && w.k < 32
  }

  method SendSelectors(w: BitWriter, mtf: seq<nat>)
    requires Ready(w) && forall g {:trigger mtf[g]} :: 0 <= g < |mtf| ==> mtf[g] < MAX_TREES
    modifies w
    ensures Ready(w) && w.Written() == old(w.Written()) + SelectorBits(mtf)
  {
    hide ToBits, Pow2, Unary, SelectorBits;
    ghost var all := w.Written() + SelectorBits(mtf);
    NoSelectors();
    assert mtf[0..] == mtf;
    for t := 0 to |mtf|
      invariant Ready(w) && w.Written() + SelectorBits(mtf[t..]) == all
    {
      var v := 1 + mtf[t];
      UnaryValue(mtf[t]);
      SelectorNext(w.Written(), mtf, t);
      w.Send(v, Pow2(v) - 2);
    }
    assert mtf[|mtf|..] == [];
    NothingBefore(w.Written());
  }

  lemma NoSelectors()
    ensures SelectorBits([]) == []
  {
  }

  lemma SelectorNext(done: seq<bit>, mtf: seq<nat>, t: nat)
    requires t < |mtf|
    ensures done + SelectorBits(mtf[t..]) == done + Unary(mtf[t]) + SelectorBits(mtf[t + 1..])
  {
    assert mtf[t..][1..] == mtf[t + 1..];
    Regrouped(done, Unary(mtf[t]), SelectorBits(mtf[t + 1..]));
  }

  /** The steps from one length to the next. */
  method SendLength(w: BitWriter, a0: nat, c: nat)
    requires Ready(w)
    modifies w
    ensures Ready(w) && w.Written() == old(w.Written()) + StepBits(a0, c)
  {
    TwoBits();
    hide ToBits, Pow2, StepBits;
    var a: nat := a0;
    ghost var all := w.Written() + StepBits(a0, c);
    while a < c
      invariant Ready(w) && w.Written() + StepBits(a, c) == all && (a0 <= c ==> a <= c) && (a0 > c ==> a == a0)
      decreases c - a
    {
      StepNext(w.Written(), a, c);
      w.Send(2, 2);
      a := a + 1;
    }
    while a > c
      invariant a >= c && Ready(w) && w.Written() + StepBits(a, c) == all
      decreases a - c
    {
      StepNext(w.Written(), a, c);
      w.Send(2, 3);
      a := a - 1;
    }
    StepNext(w.Written(), a, c);
    w.Send(1, 0);
  }

  lemma StepNext(done: seq<bit>, a: nat, c: nat)
    ensures a < c ==> done + StepBits(a, c) == done + [1, 0] + StepBits(a + 1, c)
    ensures a > c ==> done + StepBits(a, c) == done + [1, 1] + StepBits(a - 1, c)
    ensures a == c ==> StepBits(a, c) == [0]
  {
    if a < c { Regrouped(done, [1, 0], StepBits(a + 1, c)); }
    if a > c { Regrouped(done, [1, 1], StepBits(a - 1, c)); }
  }

  method SendTree(w: BitWriter, a0: nat, len: seq<byte>)
    requires Ready(w) && a0 < 32
    modifies w
    ensures Ready(w) && w.Written() == old(w.Written()) + (ToBits(a0, 5) + LengthBits(a0, len))
  {
    Pow2Constants();
    Regrouped(w.Written(), ToBits(a0, 5), LengthBits(a0, len));
    ghost var all := w.Written() + ToBits(a0, 5) + LengthBits(a0, len);
    w.Send(5, a0);
    var a: nat := a0;
    assert len[0..] == len;
    for v := 0 to |len|
      invariant Ready(w) && w.Written() + LengthBits(a, len[v..]) == all
    {
      hide StepBits, Pow2;
      LengthNext(w.Written(), a, len, v);
      SendLength(w, a, len[v]);
      a := len[v];
    }
    NothingBefore(w.Written());
  }

  lemma LengthNext(done: seq<bit>, a: nat, len: seq<byte>, v: nat)
    requires v < |len|
    ensures done + LengthBits(a, len[v..]) == done + StepBits(a, len[v]) + LengthBits(len[v], len[v + 1..])
  {
    assert len[v..][1..] == len[v + 1..];
    Regrouped(done, StepBits(a, len[v]), LengthBits(len[v], len[v + 1..]));
  }

  /** The trees, the first of them starting `treePad` steps off. */
  method SendTrees(w: BitWriter, trees: seq<seq<byte>>, treePad: nat)
    requires Ready(w) && treePad <= 3
    requires forall t {:trigger trees[t]} :: 0 <= t < |trees| ==> trees[t] != [] && 1 <= trees[t][0] <= MAX_CODE_LENGTH
    modifies w
    ensures Ready(w) && w.Written() == old(w.Written()) + TreesBits(Starts(trees, treePad), trees)
  {
    ghost var starts := Starts(trees, treePad);
    ghost var all := w.Written() + TreesBits(starts, trees);
    assert trees[0..] == trees && starts[0..] == starts;
    for t := 0 to |trees|
      invariant Ready(w) && w.Written() + TreesBits(starts[t..], trees[t..]) == all
    {
      hide ToBits, LengthBits;
      var len := trees[t];
      var a: nat := len[0];
      if t == 0 {
        if a < 4 { a := a + treePad; } else { a := a - treePad; }
      }
      assert a == starts[t];
      TreeNext(w.Written(), starts, trees, t);
      SendTree(w, a, len);
    }
    NothingBefore(w.Written());
  }

  lemma TreeNext(done: seq<bit>, s: seq<nat>, trees: seq<seq<byte>>, t: nat)
    requires |s| == |trees| && t < |trees|
    ensures done + TreesBits(s[t..], trees[t..])
      == done + (ToBits(s[t], 5) + LengthBits(s[t], trees[t])) + TreesBits(s[t + 1..], trees[t + 1..])
  {
    hide ToBits, LengthBits;
    assert s[t..][1..] == s[t + 1..] && trees[t..][1..] == trees[t + 1..];
    Regrouped(done, ToBits(s[t], 5) + LengthBits(s[t], trees[t]), TreesBits(s[t + 1..], trees[t + 1..]));
  }

  // ----- the character map -----

  lemma {:induction false} BigBitsAt(marks: seq<bit>, i: nat)
    requires |marks| % 16 == 0 && 16 * i < |marks|
    ensures BigBits(marks)[i] == if Any(marks[16 * i..16 * i + 16]) then 1 else 0
    decreases i
  {
    hide Any;
    if i == 0 {
      assert marks[0..16] == marks[..16];
    } else {
      BigBitsAt(marks[16..], i - 1);
      SliceOfTail(marks, 16, 16 * (i - 1));
      BigBitsNext(marks, i);
    }
  }

  lemma SliceOfTail(marks: seq<bit>, k: nat, x: nat)
    requires k + x + 16 <= |marks|
    ensures marks[k..][x..x + 16] == marks[k + x..k + x + 16]
  {
  }

  lemma BigBitsNext(marks: seq<bit>, i: nat)
    requires |marks| % 16 == 0 && 16 * i < |marks| && i > 0
    ensures BigBits(marks)[i] == BigBits(marks[16..])[i - 1]
  {
  }

  /** One row of the map as a number. */
  method PackRow(inuse: seq<bool>, i: nat) returns (pk: nat)
    requires |inuse| == 256 && i < 16
    ensures pk < 0x1_0000 && ToBits(pk, 16) == MarksOf(inuse)[16 * i..16 * i + 16]
    ensures pk != 0 <==> Any(MarksOf(inuse)[16 * i..16 * i + 16])
  {
    ghost var row := MarksOf(inuse)[16 * i..16 * i + 16];
    pk := 0;
    assert row[..0] == [];
    for j := 0 to 16
      invariant pk == Val(row[..j])
    {
      assert row[..j + 1][..j] == row[..j];
      pk := 2 * pk + (if inuse[16 * i + j] then 1 else 0);
    }
    assert row[..16] == row;
    Pow2Constants();
    ToBitsVal(row);
    ZeroRow(row);
  }

  /** Only a row of zeros is zero. */
  lemma {:induction false} ZeroRow(row: seq<bit>)
    ensures Val(row) != 0 <==> Any(row)
    decreases |row|
  {
    if row != [] {
      var m := |row| - 1;
      ZeroRow(row[..m]);
      if Any(row) && row[m] == 0 {
        var i :| 0 <= i < |row| && row[i] == 1;
        assert row[..m][i] == 1;
      }
      if row[m] == 1 { assert Any(row); }
      if Any(row[..m]) {
        var i :| 0 <= i < m && row[..m][i] == 1;
        assert row[i] == 1;
      }
    }
  }

  /** The map packed: every row, and which rows have any characters. */
  method PackMap(inuse: seq<bool>) returns (pack: seq<nat>, big: nat)
    requires |inuse| == 256
    ensures |pack| == 16 && big < 0x1_0000 && ToBits(big, 16) == BigBits(MarksOf(inuse))
    ensures forall i {:trigger pack[i]} :: 0 <= i < 16 ==> RowPacked(inuse, i, pack[i])
  {
    hide BigBits, Any, MarksOf, ToBits, Pow2, Val;
    ghost var bigBits := BigBits(MarksOf(inuse));
    pack, big := [], 0;
    ValNone(bigBits);
    for i := 0 to 16
      invariant |pack| == i && big == Val(bigBits[..i])
      invariant forall x {:trigger pack[x]} :: 0 <= x < i ==> RowPacked(inuse, x, pack[x])
    {
      var pk := PackRow(inuse, i);
      BigBitsAt(MarksOf(inuse), i);
      ValNext(bigBits, i);
      pack := pack + [pk];
      big := 2 * big + if pk != 0 then 1 else 0;
    }
    ValWhole(bigBits);
  }

  lemma ValNone(b: seq<bit>)
    ensures Val(b[..0]) == 0
  {
  }

  lemma ValNext(b: seq<bit>, i: nat)
    requires i < |b|
    ensures Val(b[..i + 1]) == 2 * Val(b[..i]) + b[i]
  {
    assert b[..i + 1][..i] == b[..i];
  }

  lemma ValWhole(b: seq<bit>)
    requires |b| == 16
    ensures Val(b[..16]) < 0x1_0000 && ToBits(Val(b[..16]), 16) == b
  {
    assert b[..16] == b;
    Pow2Constants();
    ToBitsVal(b);
  }

  ghost predicate RowPacked(inuse: seq<bool>, i: nat, pk: nat) {
    && |inuse| == 256 && i < 16 && pk < 0x1_0000
    && ToBits(pk, 16) == MarksOf(inuse)[16 * i..16 * i + 16]
    && (pk != 0 <==> Any(MarksOf(inuse)[16 * i..16 * i + 16]))
  }

  method SendMap(w: BitWriter, inuse: seq<bool>)
    requires Ready(w) && w.k < 16 && |inuse| == 256
    modifies w
    ensures Ready(w)
    ensures w.Written() == old(w.Written()) + (BigBits(MarksOf(inuse)) + SmallBits(MarksOf(inuse)))
  {
    var pack, big := PackMap(inuse);
    ghost var marks := MarksOf(inuse);
    ghost var all := w.Written() + (BigBits(marks) + SmallBits(marks));
    Pow2Constants();
    hide ToBits, BigBits, MarksOf, Pow2, SmallBits;
    Regrouped(w.Written(), BigBits(marks), SmallBits(marks));
    w.Put(16, big);
    assert marks[0..] == marks;
    SendRows(w, inuse, pack, all);
  }

  method SendRows(w: BitWriter, inuse: seq<bool>, pack: seq<nat>, ghost all: seq<bit>)
    requires Ready(w) && |inuse| == 256 && |pack| == 16
    requires forall i {:trigger pack[i]} :: 0 <= i < 16 ==> RowPacked(inuse, i, pack[i])
    requires w.Written() + SmallBits(MarksOf(inuse)) == all
    modifies w
    ensures Ready(w) && w.Written() == all
  {
    hide ToBits, SmallBits, MarksOf, Pow2;
    ghost var marks := MarksOf(inuse);
    assert RowsFrom(marks, 0) == marks;
    for i := 0 to 16
      invariant Ready(w)
      invariant w.Written() + SmallBits(RowsFrom(marks, i)) == all
    {
      hide Any, RowsFrom;
      RowLeft(inuse, marks, i, pack[i]);
      RowNext(w.Written(), RowsFrom(marks, i), pack[i]);
      if pack[i] != 0 {
        Pow2Constants();
        w.Send(16, pack[i]);
      }
    }
    NoRows(marks);
    NothingBefore(w.Written());
  }

  ghost function RowsFrom(marks: seq<bit>, i: nat): (left: seq<bit>)
    requires |marks| == 256 && i <= 16
    ensures |left| == 256 - 16 * i && |left| % 16 == 0
  {
    marks[16 * i..]
  }

  lemma NoRows(marks: seq<bit>)
    requires |marks| == 256
    ensures SmallBits(RowsFrom(marks, 16)) == []
  {
  }

  lemma RowLeft(inuse: seq<bool>, marks: seq<bit>, i: nat, pk: nat)
    requires i < 16 && RowPacked(inuse, i, pk) && marks == MarksOf(inuse) && |marks| == 256
    ensures var left := RowsFrom(marks, i);
      left[..16] == ToBits(pk, 16) && (pk != 0 <==> Any(left[..16])) && left[16..] == RowsFrom(marks, i + 1)
  {
    hide ToBits, Any;
    assert marks[16 * i..][..16] == marks[16 * i..16 * i + 16];
  }

  lemma RowNext(done: seq<bit>, left: seq<bit>, pk: nat)
    requires |left| >= 16 && |left| % 16 == 0 && left[..16] == ToBits(pk, 16) && (pk != 0 <==> Any(left[..16]))
    ensures done + SmallBits(left) == (if pk != 0 then done + ToBits(pk, 16) else done) + SmallBits(left[16..])
  {
    hide ToBits, Any;
    NothingBefore(SmallBits(left[16..]));
    Regrouped(done, ToBits(pk, 16), SmallBits(left[16..]));
  }

  // ----- values -----

  /** Groups and trees as the values need them. */
  ghost predicate Sendable(trees: seq<seq<byte>>, groups: seq<nat>, values: seq<nat>, n: nat, m: nat) {
    && |values| == GROUP_SIZE * |groups| && m <= |values|
    && (forall g {:trigger groups[g]} :: 0 <= g < |groups| ==> groups[g] < |trees|)
    && (forall t {:trigger trees[t]} :: 0 <= t < |trees| ==> |trees[t]| == n && Complete(trees[t]))
    && forall i {:trigger values[i]} :: 0 <= i < |values| ==> if i < m then values[i] < n else values[i] == n
  }

  lemma SendableFit(trees: seq<seq<byte>>, groups: seq<nat>, values: seq<nat>, n: nat, m: nat, g: nat, index: nat)
    requires Sendable(trees, groups, values, n, m) && g <= |groups| && index <= GROUP_SIZE && (g < |groups| || index == 0)
    ensures var i := GROUP_SIZE * g + index;
      i <= |values| && Fit(trees, groups[g..], index, if i <= m then values[i..m] else [])
  {
    hide Complete;
    var i := GROUP_SIZE * g + index;
    var v, o := if i <= m then values[i..m] else [], groups[g..];
    forall x | 0 <= x < |o| ensures o[x] < |trees| { assert o[x] == groups[g + x]; }
    forall t, x | 0 <= t < |trees| && 0 <= x < |v| ensures v[x] < |trees[t]| {
      assert v[x] == values[i + x] && |trees[t]| == n;
    }
  }

  /** The bits of the values from the `i`-th on. */
  ghost function BitsLeft(trees: seq<seq<byte>>, groups: seq<nat>, values: seq<nat>, n: nat, m: nat, g: nat, index: nat): seq<bit>
    requires Sendable(trees, groups, values, n, m) && g <= |groups| && index <= GROUP_SIZE && (g < |groups| || index == 0)
  {
    SendableFit(trees, groups, values, n, m, g, index);
    var i := GROUP_SIZE * g + index;
    ValuesBits(trees, groups[g..], index, if i <= m then values[i..m] else [])
  }

  lemma ValueSent(trees: seq<seq<byte>>, groups: seq<nat>, values: seq<nat>, n: nat, m: nat, g: nat, i: nat)
    requires Sendable(trees, groups, values, n, m) && g < |groups| && i < GROUP_SIZE
    ensures var k := GROUP_SIZE * g + i;
      && k < |values| && groups[g] < |trees| && |trees[groups[g]]| == n && Complete(trees[groups[g]]) && values[k] <= n
      && BitsLeft(trees, groups, values, n, m, g, i)
        == (if values[k] < n then Codeword(trees[groups[g]], values[k]) else []) + BitsLeft(trees, groups, values, n, m, g, i + 1)
  {
    var k := GROUP_SIZE * g + i;
    SendableFit(trees, groups, values, n, m, g, i);
    SendableFit(trees, groups, values, n, m, g, i + 1);
    var o := groups[g..];
    assert o[0] == groups[g] < |trees|;
    assert |trees[groups[g]]| == n;
    hide Complete, Codeword;
    NothingBefore(BitsLeft(trees, groups, values, n, m, g, i + 1));
    if k < m {
      var v := values[k..m];
      assert v[0] == values[k] && v[1..] == values[k + 1..m];
      assert values[k] < n;
    } else {
      assert values[k] == n;
    }
  }

  lemma GroupSent(trees: seq<seq<byte>>, groups: seq<nat>, values: seq<nat>, n: nat, m: nat, g: nat)
    requires Sendable(trees, groups, values, n, m) && g < |groups|
    ensures BitsLeft(trees, groups, values, n, m, g, GROUP_SIZE) == BitsLeft(trees, groups, values, n, m, g + 1, 0)
  {
    hide Complete, Codeword, Sendable, ValuesBits;
    SendableFit(trees, groups, values, n, m, g, GROUP_SIZE);
    SendableFit(trees, groups, values, n, m, g + 1, 0);
    assert groups[g..][1..] == groups[g + 1..];
    var k := GROUP_SIZE * (g + 1);
    SendableSize(trees, groups, values, n, m);
    SameGroup(trees, groups[g..], if k <= m then values[k..m] else []);
  }

  lemma SendableSize(trees: seq<seq<byte>>, groups: seq<nat>, values: seq<nat>, n: nat, m: nat)
    requires Sendable(trees, groups, values, n, m)
    ensures |values| == GROUP_SIZE * |groups| && m <= |values|
  {
  }

  lemma SameGroup(trees: seq<seq<byte>>, groups: seq<nat>, values: seq<nat>)
    requires groups != [] && Fit(trees, groups, GROUP_SIZE, values) && Fit(trees, groups[1..], 0, values)
    ensures ValuesBits(trees, groups, GROUP_SIZE, values) == ValuesBits(trees, groups[1..], 0, values)
  {
    hide Codeword;
  }

  /** The codes of the trees that groups use. */
  ghost predicate CodesOf(trees: seq<seq<byte>>, codes: seq<seq<nat>>, groups: seq<nat>) {
    && |codes| == |trees|
    && forall g {:trigger groups[g]} :: 0 <= g < |groups| ==> groups[g] < |trees| && CodeOf(trees[groups[g]], codes[groups[g]])
  }

  ghost predicate CodeOf(lens: seq<byte>, code: seq<nat>) {
    |code| == |lens| && forall s {:trigger code[s]} :: 0 <= s < |lens| ==> code[s] == Code(lens, s)
  }

  /** The codes of all values, group by group; a dummy has a code of no bits. */
  method SendValues(w: BitWriter, trees: seq<seq<byte>>, codes: seq<seq<nat>>, groups: seq<nat>, values: seq<nat>, n: nat,
                    ghost m: nat)
    requires Ready(w) && Sendable(trees, groups, values, n, m) && CodesOf(trees, codes, groups)
    modifies w
    ensures Ready(w) && w.Written() == old(w.Written()) + BitsLeft(trees, groups, values, n, m, 0, 0)
  {
    hide BitsLeft, Complete, CodesOf, CodeOf, ValuesBits, Sendable;
    ghost var all := w.Written() + BitsLeft(trees, groups, values, n, m, 0, 0);
    for gr := 0 to |groups|
      invariant Ready(w) && w.Written() + BitsLeft(trees, groups, values, n, m, gr, 0) == all
    {
      for i := 0 to GROUP_SIZE
        invariant Ready(w) && w.Written() + BitsLeft(trees, groups, values, n, m, gr, i) == all
      {
        SendOne(w, trees, codes, groups, values, n, gr, i, m);
      }
      GroupSent(trees, groups, values, n, m, gr);
    }
    AllSent(trees, groups, values, n, m);
    NothingBefore(w.Written());
  }

  method SendOne(w: BitWriter, trees: seq<seq<byte>>, codes: seq<seq<nat>>, groups: seq<nat>, values: seq<nat>, n: nat,
                 gr: nat, i: nat, ghost m: nat)
    requires Ready(w) && Sendable(trees, groups, values, n, m) && CodesOf(trees, codes, groups)
    requires gr < |groups| && i < GROUP_SIZE
    modifies w
    ensures Ready(w)
    ensures w.Written() + BitsLeft(trees, groups, values, n, m, gr, i + 1)
      == old(w.Written()) + BitsLeft(trees, groups, values, n, m, gr, i)
  {
    ValueSent(trees, groups, values, n, m, gr, i);
    CodeAt(trees, codes, groups, gr);
    hide BitsLeft, Complete, CodesOf, Sendable;
    SendValue(w, trees[groups[gr]], codes[groups[gr]], values[GROUP_SIZE * gr + i], n, BitsLeft(trees, groups, values, n, m, gr, i + 1));
  }

  lemma CodeAt(trees: seq<seq<byte>>, codes: seq<seq<nat>>, groups: seq<nat>, g: nat)
    requires CodesOf(trees, codes, groups) && g < |groups|
    ensures groups[g] < |trees| == |codes| && CodeOf(trees[groups[g]], codes[groups[g]])
  {
  }

  lemma AllSent(trees: seq<seq<byte>>, groups: seq<nat>, values: seq<nat>, n: nat, m: nat)
    requires Sendable(trees, groups, values, n, m)
    ensures BitsLeft(trees, groups, values, n, m, |groups|, 0) == []
  {
    SendableFit(trees, groups, values, n, m, |groups|, 0);
  }

  method SendValue(w: BitWriter, lens: seq<byte>, codes: seq<nat>, mv: nat, n: nat, ghost rest: seq<bit>)
    requires Ready(w) && |lens| == n && Complete(lens) && mv <= n
    requires CodeOf(lens, codes)
    modifies w
    ensures Ready(w)
    ensures w.Written() + rest == old(w.Written()) + ((if mv < n then Codeword(lens, mv) else []) + rest)
  {
    if mv < n {
      CodeFits(lens, mv);
      CompleteLengths(lens);
      Regrouped(w.Written(), Codeword(lens, mv), rest);
      hide Complete, Code;
      w.Send(lens[mv], codes[mv]);
    } else {
      NothingBefore(rest);
      NothingBefore(w.Written());
      w.Send(0, 0);
    }
  }

  // ----- the whole block -----

  /** The magic number of a block and its checksum. */
  function HeaderBits(crc: uint32): seq<bit> {
    ToBits(0x314159, 24) + ToBits(0x265359, 24) + ToBits(M1 - crc, 32)
  }

  /** The parts of a block, in the order of writing. */
  lemma PartsJoin(c: BlockBits.Coded, crc: uint32)
    requires |c.marks| == 256 && Suits(HeadOf(c), c.groups, 0, c.values) && |c.starts| == |c.trees|
    ensures HeaderBits(crc) + BitsOf(c) ==
      HeaderBits(crc) + [0] + ToBits(c.idx, 24) + (BigBits(c.marks) + SmallBits(c.marks))
      + ToBits(|c.trees|, 3) + ToBits(|c.selectors|, 15) + SelectorBits(c.selectors)
      + TreesBits(c.starts, c.trees) + SuitedBits(HeadOf(c), c.groups, 0, c.values)
  {
    hide ToBits, BigBits, SmallBits, SelectorBits, TreesBits, SuitedBits, Suits, HeaderBits, ValuesBits;
    Join(HeaderBits(crc), [0], ToBits(c.idx, 24), BigBits(c.marks), SmallBits(c.marks), ToBits(|c.trees|, 3),
         ToBits(|c.selectors|, 15), SelectorBits(c.selectors), TreesBits(c.starts, c.trees),
         SuitedBits(HeadOf(c), c.groups, 0, c.values));
  }

  lemma Join<T>(h: seq<T>, a: seq<T>, b: seq<T>, c: seq<T>, d: seq<T>, e: seq<T>, f: seq<T>, g: seq<T>, i: seq<T>, j: seq<T>)
    ensures h + (a + b + (c + (d + (e + f + (g + (i + j)))))) == h + a + b + (c + d) + e + f + g + i + j
  {
  }

  /** The head of a block: its magic number, checksum and primary index. */
  method SendHead(w: BitWriter, crc: uint32, idx: nat)
    requires w.Valid() && w.k == 0 && w.Written() == [] && idx < 0x100_0000
    modifies w
    ensures w.Valid() && w.k == 9 && w.Written() == HeaderBits(crc) + [0] + ToBits(idx, 24)
  {
    Pow2Constants();
    TwoBits();
    hide ToBits, Pow2;
    NothingBefore(ToBits(0x314159, 24));
    w.Put(24, 0x314159);
    w.Put(24, 0x265359);
    w.Dump();
    w.Put(32, M1 - crc);
    w.Dump();
    w.Put(1, 0);
    w.Put(24, idx);
    w.Dump();
  }

  /** The rest of the last word. */
  method Flush(w: BitWriter, size: nat)
    requires Ready(w) && |w.Written()| == 8 * size
    modifies w
    ensures |w.out| == (size + 3) / 4 && 32 * |w.out| >= 8 * size
    ensures WordBits(w.out) == old(w.Written()) + Repeat<bit>(0, 32 * |w.out| - 8 * size)
  {
    hide ToBits, Pow2, Repeat, WordBits;
    WordBitsLength(w.out);
    assert w.k % 8 == 0 && w.k / 8 == size % 4 && |w.out| == size / 4;
    ghost var before, k0 := w.Written(), w.k;
    Pow2Positive(31);
    ZerosAre(31);
    w.Put(31, 0);
    if w.k >= 32 {
      w.Dump();
      WordBitsLength(w.out);
      PadZeros(WordBits(w.out), before, 31, w.k, w.pending);
    } else {
      OutAlone(WordBits(w.out), old(w.pending));
    }
  }

  lemma OutAlone(a: seq<bit>, p: seq<bit>)
    requires |p| == 0
    ensures a == a + p + Repeat<bit>(0, 0)
  {
  }

  lemma Pow2Positive(n: nat)
    ensures 0 < Pow2(n)
  {
  }

  lemma {:induction false} ZerosAre(n: nat)
    ensures ToBits(0, n) == Repeat<bit>(0, n)
    decreases n
  {
    if n > 0 {
      ZerosAre(n - 1);
      RepeatSplit<bit>(0, n - 1, 1);
    }
  }

  /** Cutting a tail off appended zeros leaves fewer zeros. */
  lemma PadZeros(a: seq<bit>, b: seq<bit>, n: nat, k: nat, p: seq<bit>)
    requires a + p == b + Repeat<bit>(0, n) && |p| == k <= n
    ensures a == b + Repeat<bit>(0, n - k)
  {
    RepeatSplit<bit>(0, n - k, k);
    assert a == (a + p)[..|a|];
    assert |a| == |b| + n - k;
    assert (b + Repeat<bit>(0, n))[..|a|] == b + Repeat<bit>(0, n - k);
  }

  /** The values as the groups need them, and what they say. */
  lemma ValuesReady(idx: nat, inuse: seq<bool>, values: seq<nat>, selector: seq<nat>, plan: Plan, n: nat, mtf: seq<nat>, pad: nat)
    requires Prepared(inuse, values, selector, plan, n)
    ensures var c := CodedOf(idx, inuse, values, selector, plan, n, mtf, pad);
      && Sendable(c.trees, c.groups, Completed(values, n), n, |values|)
      && Suits(HeadOf(c), c.groups, 0, c.values)
      && BitsLeft(c.trees, c.groups, Completed(values, n), n, |values|, 0, 0) == SuitedBits(HeadOf(c), c.groups, 0, c.values)
  {
    var c := CodedOf(idx, inuse, values, selector, plan, n, mtf, pad);
    hide Prepared, Complete, Ended, Marked, ValuesBits, Suits;
    SentTrees(inuse, values, selector, plan, n);
    MappedTrees(inuse, values, selector, plan, n);
    UsedSome(inuse, values, selector, plan, n);
    ValuesComplete(inuse, values, selector, plan, n);
    ValuesSuit(idx, inuse, values, selector, plan, n, mtf, pad);
    var v := Completed(values, n);
    assert v[0..|values|] == values && c.groups[0..] == c.groups;
  }

  lemma ValuesComplete(inuse: seq<bool>, values: seq<nat>, selector: seq<nat>, plan: Plan, n: nat)
    requires Prepared(inuse, values, selector, plan, n)
    ensures var v := Completed(values, n);
      && |v| == GROUP_SIZE * |selector| && |values| <= |v|
      && forall i {:trigger v[i]} :: 0 <= i < |v| ==> if i < |values| then v[i] < n else v[i] == n
  {
    UsedSome(inuse, values, selector, plan, n);
    PlanParts(inuse, values, selector, plan, n);
    EndedBelow(values, n - 1);
    var v := Completed(values, n);
    GroupsSize(v, selector, n);
    hide Prepared, Complete, Ended, Marked, CodedBits, HeadCost;
    forall i {:trigger v[i]} | 0 <= i < |v| ensures if i < |values| then v[i] < n else v[i] == n {
      if i < |values| { assert v[i] == values[i]; }
    }
  }

  lemma GroupsSize(v: seq<nat>, selector: seq<nat>, n: nat)
    requires Grouped(v, selector, n)
    ensures |v| == GROUP_SIZE * |selector|
  {
  }

  /** The codes in the order of transmission. */
  function SentCodes(o: seq<nat>, codes: seq<seq<nat>>): (t: seq<seq<nat>>)
    requires forall i {:trigger o[i]} :: 0 <= i < |o| ==> o[i] < |codes|
    ensures |t| == |o| && forall i {:trigger t[i]} :: 0 <= i < |o| ==> t[i] == codes[o[i]]
  {
    seq(|o|, i requires 0 <= i < |o| => (assert o[i] < |codes|; codes[o[i]]))
  }

  lemma CodesReady(inuse: seq<bool>, values: seq<nat>, selector: seq<nat>, plan: Plan, n: nat)
    requires Prepared(inuse, values, selector, plan, n)
    ensures Mappable(selector, plan.old2new) && |plan.forest.codes| == |plan.forest.lens| == MAX_TREES
    ensures forall i {:trigger plan.new2old[i]} :: 0 <= i < |plan.new2old| ==> plan.new2old[i] < MAX_TREES
    ensures CodesOf(Sent(plan.new2old, plan.forest.lens), SentCodes(plan.new2old, plan.forest.codes), Mapped(selector, plan.old2new))
  {
    hide Complete, Code, HeadCost, CodedBits;
    MappedTrees(inuse, values, selector, plan, n);
    var g := Mapped(selector, plan.old2new);
    forall i {:trigger plan.new2old[i]} | 0 <= i < |plan.new2old| ensures plan.new2old[i] < |plan.forest.codes| { }
    var trees, codes := Sent(plan.new2old, plan.forest.lens), SentCodes(plan.new2old, plan.forest.codes);
    forall i {:trigger g[i]} | 0 <= i < |g| ensures g[i] < |trees| && CodeOf(trees[g[i]], codes[g[i]]) {
      assert selector[i] in plan.new2old && HasCode(plan.forest, selector[i], n);
      var x :| 0 <= x < |plan.new2old| && plan.new2old[x] == selector[i];
      assert plan.old2new[plan.new2old[x]] == x;
      assert codes[x] == plan.forest.codes[plan.new2old[x]];
      assert trees[x] == plan.forest.lens[plan.new2old[x]];
    }
  }

  lemma StartsReady(inuse: seq<bool>, values: seq<nat>, selector: seq<nat>, plan: Plan, n: nat)
    requires Prepared(inuse, values, selector, plan, n)
    ensures forall i {:trigger plan.new2old[i]} :: 0 <= i < |plan.new2old| ==> plan.new2old[i] < |plan.forest.lens|
    ensures var trees := Sent(plan.new2old, plan.forest.lens);
      && MIN_TREES <= |trees| <= MAX_TREES
      && forall t {:trigger trees[t]} :: 0 <= t < |trees| ==> trees[t] != [] && 1 <= trees[t][0] <= MAX_CODE_LENGTH
  {
    SentTrees(inuse, values, selector, plan, n);
    var trees := Sent(plan.new2old, plan.forest.lens);
    hide Prepared, Complete;
    forall t {:trigger trees[t]} | 0 <= t < |trees| ensures trees[t] != [] && 1 <= trees[t][0] <= MAX_CODE_LENGTH {
      CompleteLengths(trees[t]);
    }
  }

  lemma MtfReady(inuse: seq<bool>, values: seq<nat>, selector: seq<nat>, plan: Plan, n: nat, mtf: seq<nat>)
    requires Prepared(inuse, values, selector, plan, n) && SelectorsCoded(selector, plan, mtf)
    ensures |mtf| < 0x8000 && forall g {:trigger mtf[g]} :: 0 <= g < |mtf| ==> mtf[g] < MAX_TREES
  {
    SelectorsLaid(inuse, values, selector, plan, n, mtf);
    StartsReady(inuse, values, selector, plan, n);
    hide Prepared, SelectorsCoded, Selects;
  }

  /** Writes a block, and with it exactly as many bits as were planned, rounded up to
      whole words. */
  method Transmit(crc: uint32, idx: nat, inuse: seq<bool>, values: seq<nat>, selector: seq<nat>, plan: Plan, n: nat,
                  mtf: seq<nat>, treePad: nat, size: nat)
    returns (out: seq<uint32>)
    requires Prepared(inuse, values, selector, plan, n) && SelectorsCoded(selector, plan, mtf) && treePad <= 3
    requires idx < 0x100_0000
    requires var c := CodedOf(idx, inuse, values, selector, plan, n, mtf, treePad);
      && Suits(HeadOf(c), c.groups, 0, c.values) && |c.starts| == |c.trees| && 8 * size == 48 + 32 + |BitsOf(c)|
    ensures |out| == (size + 3) / 4 && 32 * |out| >= 8 * size
    ensures var c := CodedOf(idx, inuse, values, selector, plan, n, mtf, treePad);
      WordBits(out) == HeaderBits(crc) + BitsOf(c) + Repeat<bit>(0, 32 * |out| - 8 * size)
  {
    hide Prepared, SelectorsCoded, HeaderBits, BitsOf, Suits, SuitedBits, BitsLeft, Sendable, CodesOf, Complete;
    hide ToBits, SelectorBits, TreesBits, SmallBits, BigBits, WordBits, Repeat;
    ghost var c := CodedOf(idx, inuse, values, selector, plan, n, mtf, treePad);
    UsedSome(inuse, values, selector, plan, n);
    StartsReady(inuse, values, selector, plan, n);
    MtfReady(inuse, values, selector, plan, n, mtf);
    CodesReady(inuse, values, selector, plan, n);
    ValuesReady(idx, inuse, values, selector, plan, n, mtf, treePad);
    PartsJoin(c, crc);
    HeaderSize(crc);
    var w := new BitWriter();
    SendHead(w, crc, idx);
    SendMap(w, inuse);
    SendCounts(w, |plan.new2old|, |mtf|);
    SendSelectors(w, mtf);
    var trees := Sent(plan.new2old, plan.forest.lens);
    SendTrees(w, trees, treePad);
    SendValues(w, trees, SentCodes(plan.new2old, plan.forest.codes), Mapped(selector, plan.old2new), Completed(values, n), n, |values|);
    Flush(w, size);
    out := w.out;
  }

  method SendCounts(w: BitWriter, trees: nat, selectors: nat)
    requires Ready(w) && trees <= MAX_TREES && selectors < 0x8000
    modifies w
    ensures Ready(w) && w.Written() == old(w.Written()) + ToBits(trees, 3) + ToBits(selectors, 15)
  {
    assert Pow2(15) == 0x8000 && Pow2(3) == 8 by { Pow2Constants(); Pow2Add(5, 10); }
    hide ToBits, Pow2;
    w.Put(3, trees);
    w.Send(15, selectors);
  }

  lemma HeaderSize(crc: uint32)
    ensures |HeaderBits(crc)| == 80
  {
  }
}
