/** The bits a compressed block is written as, and why reading them returns the block. */
module BlockBits {
  import opened Common
  import opened Powers
  import opened Bits
  import opened PrefixCode
  import opened MoveToFront
  import opened BlockFormat

  // ----- the character map -----

  function Any(b: seq<bit>): bool {
    exists i :: 0 <= i < |b| && b[i] == 1
  }

  /** One bit for every row of 16 characters. */
  function BigBits(marks: seq<bit>): (b: seq<bit>)
    requires |marks| % 16 == 0
    ensures |b| == |marks| / 16
    decreases |marks|
  {
    if marks == [] then [] else [if Any(marks[..16]) then 1 else 0] + BigBits(marks[16..])
  }

  /** The rows in use. */
  function SmallBits(marks: seq<bit>): seq<bit>
    requires |marks| % 16 == 0
    decreases |marks|
  {
    if marks == [] then [] else (if Any(marks[..16]) then marks[..16] else []) + SmallBits(marks[16..])
  }

  lemma {:induction false} MarkedSplit(c: nat, a: seq<bit>, b: seq<bit>)
    requires c + |a| + |b| <= 256
    ensures Marked(c, a + b) == Marked(c, a) + Marked(c + |a|, b)
    decreases |a|
  {
    if a == [] {
      assert a + b == b;
    } else {
      MarkedSplit(c + 1, a[1..], b);
      assert (a + b)[1..] == a[1..] + b;
    }
  }

  lemma {:induction false} MarkedNone(c: nat, a: seq<bit>)
    requires c + |a| <= 256 && !Any(a)
    ensures Marked(c, a) == []
    decreases |a|
  {
    if a != [] {
      assert a[0] != 1;
      assert forall i :: 0 <= i < |a[1..]| ==> a[1..][i] == a[i + 1];
      MarkedNone(c + 1, a[1..]);
    }
  }

  /** Reading the rows returns the marked characters. */
  lemma {:induction false} RowsRead(rand: bool, idx: nat, used: seq<byte>, marks: seq<bit>, rest: seq<bit>)
    requires |marks| % 16 == 0 && |used| + |marks| <= 256 && |rest| >= 32
    ensures |Marked(256 - |marks|, marks)| <= |marks|
    ensures ReadRows(rand, idx, used, BigBits(marks), SmallBits(marks) + rest)
      == ReadCounts(rand, idx, used + Marked(256 - |marks|, marks), rest)
    decreases |marks|
  {
    hide ReadRows, ReadCounts, Marked, BigBits, SmallBits, Any;
    var c := 256 - |marks|;
    if marks == [] {
      RowsDone(rand, idx, used, marks, rest);
    } else {
      var row, more := marks[..16], marks[16..];
      assert marks == row + more;
      MarkedSplit(c, row, more);
      RowRead(rand, idx, used, marks, rest);
      RowsRead(rand, idx, used + Marked(c, row), more, rest);
      Regrouped(used, Marked(c, row), Marked(c + 16, more));
    }
  }

  lemma RowsDone(rand: bool, idx: nat, used: seq<byte>, marks: seq<bit>, rest: seq<bit>)
    requires marks == [] && |used| <= 256
    ensures Marked(256, marks) == [] && used + Marked(256, marks) == used
    ensures ReadRows(rand, idx, used, BigBits(marks), SmallBits(marks) + rest) == ReadCounts(rand, idx, used, rest)
  {
    assert SmallBits(marks) + rest == rest;
  }

  /** Reading one row. */
  lemma RowRead(rand: bool, idx: nat, used: seq<byte>, marks: seq<bit>, rest: seq<bit>)
    requires |marks| % 16 == 0 && |used| + |marks| <= 256 && |rest| >= 32 && marks != []
    ensures |Marked(256 - |marks|, marks[..16])| <= 16
    ensures ReadRows(rand, idx, used, BigBits(marks), SmallBits(marks) + rest)
      == ReadRows(rand, idx, used + Marked(256 - |marks|, marks[..16]), BigBits(marks[16..]), SmallBits(marks[16..]) + rest)
  {
    hide ReadRows, Marked;
    var c, row, more := 256 - |marks|, marks[..16], marks[16..];
    if Any(row) {
      hide Any;
      Regrouped(row, SmallBits(more), rest);
      RowUsed(rand, idx, used, BigBits(more), row, SmallBits(more) + rest);
    } else {
      MarkedNone(c, row);
      hide Any;
      NothingBefore(SmallBits(more));
      NothingBefore(used);
      RowUnused(rand, idx, used, BigBits(more), SmallBits(more) + rest);
    }
  }

  lemma RowUsed(rand: bool, idx: nat, used: seq<byte>, big: seq<bit>, row: seq<bit>, b: seq<bit>)
    requires |row| == 16 && |used| + 16 * |big| + 16 <= 256 && |b| >= 32
    ensures |Marked(256 - 16 * |[1] + big|, row)| <= 16
    ensures ReadRows(rand, idx, used, [1] + big, row + b)
      == ReadRows(rand, idx, used + Marked(256 - 16 * |[1] + big|, row), big, b)
  {
    hide Marked;
    assert ([1] + big)[1..] == big && (row + b)[..16] == row && (row + b)[16..] == b;
  }

  lemma RowUnused(rand: bool, idx: nat, used: seq<byte>, big: seq<bit>, b: seq<bit>)
    requires |used| + 16 * |big| + 16 <= 256
    ensures ReadRows(rand, idx, used, [0] + big, b) == ReadRows(rand, idx, used, big, b)
  {
    assert ([0] + big)[1..] == big;
  }

  // ----- selectors -----

  /** `k` ones and a zero. */
  function Unary(k: nat): (b: seq<bit>)
    ensures |b| == k + 1
  {
    if k == 0 then [0] else [1] + Unary(k - 1)
  }

  function SelectorBits(selectors: seq<nat>): seq<bit> {
    if selectors == [] then [] else Unary(selectors[0]) + SelectorBits(selectors[1..])
  }

  lemma {:induction false} UnaryRead(k: nat, b: seq<bit>)
    requires Unary(k) <= b
    ensures FirstZero(b) == k + 1
    decreases k
  {
    if k > 0 {
      assert b[0] == 1;
      assert b[1..][..k] == Unary(k - 1);
      UnaryRead(k - 1, b[1..]);
    }
  }

  lemma {:induction false} SelectorsRead(f: Front, done: seq<nat>, selectors: seq<nat>, rest: seq<bit>)
    requires ValidFront(f) && ValidSelectors(f, done) && ValidSelectors(f, done + selectors)
    requires |done + selectors| == f.groups && |rest| >= 32
    ensures ReadSelectors(f, done, SelectorBits(selectors) + rest) == ReadTrees(f, done + selectors, [], rest)
    decreases |selectors|
  {
    var b := SelectorBits(selectors) + rest;
    if selectors == [] {
      assert b == rest && done + selectors == done;
    } else {
      var k := selectors[0];
      assert k == (done + selectors)[|done|];
      var next := SelectorBits(selectors[1..]) + rest;
      assert b == Unary(k) + next;
      assert b[..6] == Unary(k) + next[..5 - k];
      UnaryRead(k, b[..6]);
      assert b[k + 1..] == next;
      assert done + [k] + selectors[1..] == done + selectors;
      assert forall g {:trigger (done + [k])[g]} :: 0 <= g < |done| + 1 ==> (done + [k])[g] == (done + selectors)[g];
      SelectorsRead(f, done + [k], selectors[1..], rest);
    }
  }

  // ----- code lengths -----

  /** The steps from one length to the next. */
  function StepBits(a: nat, c: nat): (b: seq<bit>)
    ensures |b| == 2 * (if a < c then c - a else a - c) + 1
    decreases if a < c then c - a else a - c
  {
    if a == c then [0] else if a < c then [1, 0] + StepBits(a + 1, c) else [1, 1] + StepBits(a - 1, c)
  }

  function LengthBits(a: nat, lens: seq<byte>): seq<bit>
    decreases |lens|
  {
    if lens == [] then [] else StepBits(a, lens[0]) + LengthBits(lens[0], lens[1..])
  }

  function Toward(a: nat, c: nat): int {
    if a < c then 1 else if a > c then -1 else 0
  }

  function Distance(a: nat, c: nat): nat {
    if a < c then c - a else a - c
  }

  lemma OneStep(a: nat, c: nat, tail: seq<bit>, n: nat)
    requires a != c && 2 <= n <= |StepBits(a, c) + tail|
    ensures var s := ReadSteps((StepBits(a + Toward(a, c), c) + tail)[..n - 2]);
      ReadSteps((StepBits(a, c) + tail)[..n]) == Steps(s.bits + 2, s.delta + Toward(a, c), s.ends)
  {
    StepsFrom(a, c);
    hide *;
    var x: bit := if Toward(a, c) == 1 then 0 else 1;
    PairSlice(x, StepBits(a + Toward(a, c), c), tail, n);
    PairRead(x, (StepBits(a + Toward(a, c), c) + tail)[..n - 2]);
  }

  lemma PairSlice(x: bit, s: seq<bit>, tail: seq<bit>, n: nat)
    requires 2 <= n <= 2 + |s| + |tail|
    ensures ([1, x] + s + tail)[..n] == [1, x] + (s + tail)[..n - 2]
  {
  }

  lemma PairRead(x: bit, b: seq<bit>)
    ensures var s := ReadSteps(b);
      ReadSteps([1, x] + b) == Steps(s.bits + 2, s.delta + (if x == 0 then 1 else -1), s.ends)
  {
    assert ([1, x] + b)[2..] == b;
  }

  lemma StepsFrom(a: nat, c: nat)
    requires a != c
    ensures a + Toward(a, c) >= 0
    ensures StepBits(a, c) == [1, if Toward(a, c) == 1 then 0 else 1] + StepBits(a + Toward(a, c), c)
    ensures Toward(a, c) == 1 || Toward(a, c) == -1
  {
  }

  /** What the first `n` bits of steps lead to. */
  lemma {:induction false} StepsAhead(a: nat, c: nat, tail: seq<bit>, n: nat)
    requires n <= |StepBits(a, c) + tail|
    ensures ReadSteps((StepBits(a, c) + tail)[..n]) ==
      if n > 2 * Distance(a, c) then Steps(2 * Distance(a, c) + 1, c - a, true)
      else Steps(n / 2 * 2, n / 2 * Toward(a, c), false)
    decreases Distance(a, c)
  {
    if a != c && n >= 2 {
      StepsAhead(a + Toward(a, c), c, tail, n - 2);
      OneStep(a, c, tail, n);
      hide StepBits, ReadSteps;
    }
  }

  /** The bits of some steps, after the first six have been read. */
  lemma {:induction false} StepsLeft(a: nat, c: nat, n: nat)
    requires n <= Distance(a, c)
    ensures StepBits(a, c)[2 * n..] == StepBits(a + n * Toward(a, c), c)
    decreases n
  {
    if n > 0 {
      StepsLeft(a + Toward(a, c), c, n - 1);
      assert StepBits(a, c)[2..][2 * (n - 1)..] == StepBits(a, c)[2 * n..];
    }
  }

  /** The state of reading code lengths. */
  ghost predicate Reading(f: Front, selectors: seq<nat>, trees: seq<seq<byte>>, lens: seq<byte>) {
    && ValidFront(f) && |selectors| == f.groups && ValidSelectors(f, selectors) && ValidTrees(f, trees)
    && |trees| < f.trees && |lens| <= |f.used| + 2
    && forall s :: 0 <= s < |lens| ==> MIN_CODE_LENGTH <= lens[s] <= MAX_CODE_LENGTH
  }

  /** Reading one length, six bits at a time, leads to the length. */
  lemma {:induction false} LengthRead(f: Front, selectors: seq<nat>, trees: seq<seq<byte>>, lens: seq<byte>,
                                      a: nat, c: byte, rest: seq<bit>)
    requires Reading(f, selectors, trees, lens) && Reading(f, selectors, trees, lens + [c])
    requires 1 <= a <= MAX_CODE_LENGTH && |rest| >= 32
    ensures ReadLengths(f, selectors, trees, lens, a, StepBits(a, c) + rest)
      == ReadLengths(f, selectors, trees, lens + [c], c, rest)
    decreases Distance(a, c)
  {
    assert (lens + [c])[|lens|] == c;
    var b := StepBits(a, c) + rest;
    StepsAhead(a, c, rest, 6);
    var s := ReadSteps(b[..6]);
    if Distance(a, c) >= 3 {
      var a' := a + 3 * Toward(a, c);
      StepsLeft(a, c, 3);
      assert b[6..] == StepBits(a', c) + rest;
      LengthRead(f, selectors, trees, lens, a', c, rest);
    } else {
      assert b[s.bits..] == rest;
    }
  }

  lemma {:induction false} LengthsRead(f: Front, selectors: seq<nat>, trees: seq<seq<byte>>, done: seq<byte>,
                                       a: nat, lens: seq<byte>, rest: seq<bit>)
    requires Reading(f, selectors, trees, done) && Reading(f, selectors, trees, done + lens)
    requires 1 <= a <= MAX_CODE_LENGTH && |rest| >= 32
    ensures ReadLengths(f, selectors, trees, done, a, LengthBits(a, lens) + rest)
      == ReadLengths(f, selectors, trees, done + lens, if lens == [] then a else lens[|lens| - 1], rest)
    decreases |lens|
  {
    if lens == [] {
      assert done + lens == done && LengthBits(a, lens) + rest == rest;
    } else {
      var c := lens[0];
      var next := LengthBits(c, lens[1..]) + rest;
      assert done + [c] + lens[1..] == done + lens;
      assert (done + lens)[|done|] == c;
      assert forall s :: 0 <= s < |done + [c]| ==> (done + [c])[s] == (done + lens)[s];
      assert LengthBits(a, lens) + rest == StepBits(a, c) + next;
      LengthRead(f, selectors, trees, done, a, c, next);
      LengthsRead(f, selectors, trees, done + [c], c, lens[1..], rest);
    }
  }

  /** Every tree: the length it starts from, then the steps. */
  function TreesBits(starts: seq<nat>, trees: seq<seq<byte>>): seq<bit>
    requires |starts| == |trees|
  {
    if trees == [] then []
    else ToBits(starts[0], 5) + LengthBits(starts[0], trees[0]) + TreesBits(starts[1..], trees[1..])
  }

  ghost predicate ValidStarts(starts: seq<nat>) {
    forall t {:trigger starts[t]} :: 0 <= t < |starts| ==> 1 <= starts[t] <= MAX_CODE_LENGTH
  }

  lemma TreesStep(f: Front, done: seq<seq<byte>>, lens: seq<byte>, more: seq<seq<byte>>, starts: seq<nat>)
    requires ValidTrees(f, done) && ValidTrees(f, done + ([lens] + more)) && |starts| == 1 + |more| && ValidStarts(starts)
    ensures |done| < f.trees && Lengths(lens) && |lens| == |f.used| + 2 && 1 <= starts[0] <= MAX_CODE_LENGTH
    ensures ValidStarts(starts[1..])
  {
    assert (done + ([lens] + more))[|done|] == lens;
    assert forall t {:trigger starts[1..][t]} :: 0 <= t < |starts| - 1 ==> starts[1..][t] == starts[t + 1];
  }

  lemma {:induction false} TreesRead(f: Front, selectors: seq<nat>, done: seq<seq<byte>>,
                                     starts: seq<nat>, trees: seq<seq<byte>>, rest: seq<bit>)
    requires ValidFront(f) && |selectors| == f.groups && ValidSelectors(f, selectors)
    requires ValidTrees(f, done) && ValidTrees(f, done + trees) && |starts| == |trees| && ValidStarts(starts)
    requires |rest| >= 32
    ensures ReadTrees(f, selectors, done, TreesBits(starts, trees) + rest) == ReadTrees(f, selectors, done + trees, rest)
    decreases |trees|
  {
    hide LengthBits, ReadTrees, ValidSelectors;
    if trees == [] {
      assert done + trees == done && TreesBits(starts, trees) + rest == rest;
    } else {
      var a, lens := starts[0], trees[0];
      var next := TreesBits(starts[1..], trees[1..]) + rest;
      assert trees == [lens] + trees[1..];
      TreesStep(f, done, lens, trees[1..], starts);
      hide ValidTrees, ValidStarts;
      TreeRead(f, selectors, done, a, lens, next);
      Regrouped(done, [lens], trees[1..]);
      TreesRead(f, selectors, done + [lens], starts[1..], trees[1..], rest);
      Regrouped(ToBits(a, 5) + LengthBits(a, lens), TreesBits(starts[1..], trees[1..]), rest);
    }
  }

  lemma TreeRead(f: Front, selectors: seq<nat>, done: seq<seq<byte>>, a: nat, lens: seq<byte>, next: seq<bit>)
    requires ValidFront(f) && |selectors| == f.groups && ValidSelectors(f, selectors)
    requires ValidTrees(f, done) && |done| < f.trees && 1 <= a <= MAX_CODE_LENGTH && |next| >= 32
    requires Lengths(lens) && |lens| == |f.used| + 2
    ensures ValidTrees(f, done + [lens])
    ensures ReadTrees(f, selectors, done, ToBits(a, 5) + LengthBits(a, lens) + next)
      == ReadTrees(f, selectors, done + [lens], next)
  {
    hide LengthBits, ValidSelectors, ReadTrees, ReadLengths, ToBits;
    ValidMore(f, done, lens);
    TreeEnds(f, selectors, done, lens, lens[|lens| - 1], next);
    hide ValidTrees, ValidFront;
    Regrouped(ToBits(a, 5), LengthBits(a, lens), next);
    TreeStarts(f, selectors, done, a, LengthBits(a, lens) + next);
    NothingBefore(lens);
    LengthsRead(f, selectors, done, [], a, lens, next);
  }

  lemma TreeEnds(f: Front, selectors: seq<nat>, done: seq<seq<byte>>, lens: seq<byte>, cur: nat, b: seq<bit>)
    requires Reading(f, selectors, done, lens) && |lens| == |f.used| + 2 && ValidTrees(f, done + [lens])
    ensures ReadLengths(f, selectors, done, lens, cur, b) == ReadTrees(f, selectors, done + [lens], b)
  {
    hide ReadTrees, ValidFront, ValidSelectors;
  }

  lemma ValidMore(f: Front, done: seq<seq<byte>>, lens: seq<byte>)
    requires ValidTrees(f, done) && |done| < f.trees && Lengths(lens) && |lens| == |f.used| + 2
    ensures ValidTrees(f, done + [lens])
  {
  }

  lemma TreeStarts(f: Front, selectors: seq<nat>, done: seq<seq<byte>>, a: nat, b: seq<bit>)
    requires ValidFront(f) && |selectors| == f.groups && ValidSelectors(f, selectors)
    requires ValidTrees(f, done) && |done| < f.trees && 1 <= a <= MAX_CODE_LENGTH
    ensures ReadTrees(f, selectors, done, ToBits(a, 5) + b) == ReadLengths(f, selectors, done, [], a, b)
  {
    hide ReadLengths, ValidFront, ValidSelectors, ValidTrees;
    Pow2Constants();
    ValToBits(a, 5);
    assert (ToBits(a, 5) + b)[..5] == ToBits(a, 5) && (ToBits(a, 5) + b)[5..] == b;
  }

  // ----- values -----

  /** Each value coded with the tree of its group; `index` values of the first group have
      been written. */
  function ValuesBits(trees: seq<seq<byte>>, groups: seq<nat>, index: nat, values: seq<nat>): seq<bit>
    requires index <= GROUP_SIZE && index + |values| <= GROUP_SIZE * |groups|
    requires forall g :: 0 <= g < |groups| ==> groups[g] < |trees|
    requires forall t, i :: 0 <= t < |trees| && 0 <= i < |values| ==> values[i] < |trees[t]|
    decreases |values|, |groups|
  {
    if values == [] then []
    else if index == GROUP_SIZE then ValuesBits(trees, groups[1..], 0, values)
    else Codeword(trees[groups[0]], values[0]) + ValuesBits(trees, groups, index + 1, values[1..])
  }

  /** The selectors name the trees of the groups, each found in the list of trees and
      moved to its front. */
  ghost predicate Selects(refs: seq<TreeRef>, selectors: seq<nat>, groups: seq<nat>)
    decreases |groups|
  {
    groups == [] ||
    (&& selectors != [] && selectors[0] < |refs| && refs[selectors[0]] == Good(groups[0])
     && Selects(RefToFront(refs, selectors[0]), selectors[1..], groups[1..]))
  }

  /** Only the last value ends the block. */
  ghost predicate Ended(values: seq<nat>, eob: nat) {
    && values != [] && values[|values| - 1] == eob
    && forall i {:trigger values[i]} :: 0 <= i < |values| - 1 ==> values[i] < eob
  }

  lemma EndedNext(values: seq<nat>, eob: nat)
    requires Ended(values, eob)
    ensures values[0] <= eob && (values[0] < eob ==> Ended(values[1..], eob)) && (values[0] == eob ==> |values| == 1)
  {
    assert forall i {:trigger values[1..][i]} :: 0 <= i < |values| - 1 ==> values[1..][i] == values[i + 1];
  }

  /** The trees and groups suit the rest of the values. */
  ghost predicate Suits(h: Head, groups: seq<nat>, index: nat, values: seq<nat>) {
    && index <= GROUP_SIZE && index + |values| <= GROUP_SIZE * |groups|
    && (forall g :: 0 <= g < |groups| ==> groups[g] < |h.trees| && Complete(h.trees[groups[g]]))
    && Ended(values, |h.front.used| + 1)
    && forall t {:trigger h.trees[t]} :: 0 <= t < |h.trees| ==> |h.trees[t]| == |h.front.used| + 2
  }

  ghost function SuitedBits(h: Head, groups: seq<nat>, index: nat, values: seq<nat>): seq<bit>
    requires Suits(h, groups, index, values)
  {
    EndedBelow(values, |h.front.used| + 1);
    ValuesBits(h.trees, groups, index, values)
  }

  lemma EndedBelow(values: seq<nat>, eob: nat)
    requires Ended(values, eob)
    ensures forall i {:trigger values[i]} :: 0 <= i < |values| ==> values[i] <= eob
  {
  }

  lemma SuitsNext(h: Head, groups: seq<nat>, index: nat, values: seq<nat>)
    requires Suits(h, groups, index, values) && index < GROUP_SIZE && values[0] < |h.front.used| + 1
    ensures Suits(h, groups, index + 1, values[1..])
    ensures SuitedBits(h, groups, index, values)
      == Codeword(h.trees[groups[0]], values[0]) + SuitedBits(h, groups, index + 1, values[1..])
  {
    EndedNext(values, |h.front.used| + 1);
    EndedBelow(values, |h.front.used| + 1);
  }

  lemma SuitsGroup(h: Head, groups: seq<nat>, values: seq<nat>)
    requires Suits(h, groups, GROUP_SIZE, values)
    ensures |groups| > 1 && Suits(h, groups[1..], 0, values)
    ensures SuitedBits(h, groups, GROUP_SIZE, values) == SuitedBits(h, groups[1..], 0, values)
  {
    EndedBelow(values, |h.front.used| + 1);
  }

  lemma SuitsLast(h: Head, groups: seq<nat>, index: nat, values: seq<nat>)
    requires Suits(h, groups, index, values) && index < GROUP_SIZE && values[0] == |h.front.used| + 1
    ensures SuitedBits(h, groups, index, values) == Codeword(h.trees[groups[0]], values[0])
  {
    EndedNext(values, |h.front.used| + 1);
    EndedBelow(values, |h.front.used| + 1);
    assert ValuesBits(h.trees, groups, index + 1, values[1..]) == [];
  }

  /** A block has at least the run that is pending. */
  lemma {:induction false} PendingRun(l: seq<byte>, run: nat, shift: nat, values: seq<nat>)
    requires l != [] && Unsymbols(l, run, shift, values).Block?
    ensures |Unsymbols(l, run, shift, values).chars| >= run
    decreases |values|
  {
    if values != [] && values[0] <= 1 {
      PendingRun(l, run + (values[0] + 1) * Pow2(shift), shift + 1, values[1..]);
    }
  }

  /** A codeword in front is read as its symbol. */
  lemma SymbolRead(lens: seq<byte>, s: nat, more: seq<bit>)
    requires Complete(lens) && s < |lens| && |more| >= 32
    ensures var b := Codeword(lens, s) + more; SymbolAt(lens, b) == s && b[lens[s]..] == more
  {
    var b := Codeword(lens, s) + more;
    CodewordDecodes(lens, s, b);
    DecodesUnique(lens, Val(b[..MAX_CODE_LENGTH]), s, SymbolAt(lens, b));
  }

  /** What is known while the values are read: they stand for `chars`. */
  ghost predicate Spells(h: Head, p: Place, v: Values, groups: seq<nat>, values: seq<nat>, chars: seq<byte>) {
    && ValidHead(h) && ValidPlace(h, p) && p.group + |groups| <= Bound(h.front.groups) && ValidValues(h, v)
    && Suits(h, groups, p.index, values) && groups[0] == p.tree
    && Selects(p.refs, h.selectors[p.group + 1..], groups[1..])
    && Unsymbols(v.list, v.run, v.shift, values) == Block(chars)
    && |v.column| + |chars| <= MAX_BLOCK_SIZE && h.front.idx < |v.column| + |chars|
  }

  lemma GroupEnds(h: Head, p: Place, v: Values, groups: seq<nat>, values: seq<nat>, chars: seq<byte>, b: seq<bit>)
    returns (p': Place)
    requires Spells(h, p, v, groups, values, chars) && p.index == GROUP_SIZE
    ensures |groups| > 1 && Spells(h, p', v, groups[1..], values, chars) && p'.index == 0
    ensures ReadValues(h, p, v, b) == ReadValues(h, p', v, b)
  {
    SuitsGroup(h, groups, values);
    var left, more := h.selectors[p.group + 1..], groups[1..];
    assert left[0] == h.selectors[p.group + 1] && p.refs[left[0]] == Good(more[0]);
    RefsMoved(h, p.refs, left[0]);
    p' := Place(p.group + 1, RefToFront(p.refs, left[0]), more[0], 0);
    assert left[1..] == h.selectors[p.group + 2..];
    hide Suits, Unsymbols, ValidRefs, ReadValues;
    GroupRead(h, p, p', v, b);
  }

  lemma GroupRead(h: Head, p: Place, p': Place, v: Values, b: seq<bit>)
    requires ValidHead(h) && ValidPlace(h, p) && p.index == GROUP_SIZE && p.group + 1 < Bound(h.front.groups)
    requires ValidValues(h, v) && ValidPlace(h, p')
    requires var i := h.selectors[p.group + 1];
      i < |p.refs| && p.refs[i] == Good(p'.tree) && p' == Place(p.group + 1, RefToFront(p.refs, i), p'.tree, 0)
    ensures ReadValues(h, p, v, b) == ReadValues(h, p', v, b)
  {
    hide ValidFront, ValidTrees, ValidSelectors;
    assert ReadValues(h, p, v, b) == ReadGroups(h, p.group + 1, p.refs, v, b);
  }

  /** The next values after a run digit or a position. */
  lemma ValueNext(h: Head, p: Place, v: Values, groups: seq<nat>, values: seq<nat>, chars: seq<byte>)
    returns (v': Values, chars': seq<byte>)
    requires Spells(h, p, v, groups, values, chars) && p.index < GROUP_SIZE && values[0] < |h.front.used| + 1
    ensures v.run <= MAX_BLOCK_SIZE && Fits(v) && v.list != []
    ensures v' == if values[0] <= 1 then v.(run := v.run + (values[0] + 1) * Pow2(v.shift), shift := v.shift + 1)
                  else Values(Dumped(v), ToFront(v.list, values[0] - 1), 1, 0)
    ensures Spells(h, p.(index := p.index + 1), v', groups, values[1..], chars')
    ensures v'.column + chars' == v.column + chars
  {
    SpellsParts(h, p, v, groups, values, chars);
    SuitsFirst(h, groups, p.index, values);
    SuitsNext(h, groups, p.index, values);
    hide Suits, Spells, Pow2, Fits, Dumped, Unsymbols, Codeword, SuitedBits, ValidHead;
    v', chars' := NextSpelled(v, values, chars);
    SpellsNext(h, p, v, groups, values, chars, v', chars');
  }

  lemma SpellsParts(h: Head, p: Place, v: Values, groups: seq<nat>, values: seq<nat>, chars: seq<byte>)
    requires Spells(h, p, v, groups, values, chars)
    ensures ValidHead(h) && Suits(h, groups, p.index, values) && |v.list| == |h.front.used|
    ensures Unsymbols(v.list, v.run, v.shift, values) == Block(chars) && |v.column| + |chars| <= MAX_BLOCK_SIZE
  {
    hide ValidHead, Suits, ValidPlace, Selects, Unsymbols;
  }

  lemma SpellsNext(h: Head, p: Place, v: Values, groups: seq<nat>, values: seq<nat>, chars: seq<byte>, v': Values, chars': seq<byte>)
    requires Spells(h, p, v, groups, values, chars) && p.index < GROUP_SIZE && values != []
    requires Suits(h, groups, p.index + 1, values[1..]) && |v'.list| == |v.list| > 0 && v'.column + chars' == v.column + chars
    requires Unsymbols(v'.list, v'.run, v'.shift, values[1..]) == Block(chars')
    ensures Spells(h, p.(index := p.index + 1), v', groups, values[1..], chars')
  {
    hide ValidHead, Suits, Selects, Unsymbols, ValidRefs, Complete;
    assert |v'.column| + |chars'| == |v'.column + chars'|;
  }

  lemma SuitsFirst(h: Head, groups: seq<nat>, index: nat, values: seq<nat>)
    requires Suits(h, groups, index, values) && ValidHead(h)
    ensures values != [] && h.front.used != []
  {
  }

  lemma NextSpelled(v: Values, values: seq<nat>, chars: seq<byte>) returns (v': Values, chars': seq<byte>)
    requires v.list != [] && values != [] && values[0] < |v.list| + 1
    requires Unsymbols(v.list, v.run, v.shift, values) == Block(chars) && |v.column| + |chars| <= MAX_BLOCK_SIZE
    ensures v.run <= MAX_BLOCK_SIZE && Fits(v) && |v'.list| == |v.list|
    ensures v' == if values[0] <= 1 then v.(run := v.run + (values[0] + 1) * Pow2(v.shift), shift := v.shift + 1)
                  else Values(Dumped(v), ToFront(v.list, values[0] - 1), 1, 0)
    ensures Unsymbols(v'.list, v'.run, v'.shift, values[1..]) == Block(chars')
    ensures v'.column + chars' == v.column + chars
  {
    PendingRun(v.list, v.run, v.shift, values);
    hide Pow2;
    if values[0] <= 1 {
      v' := v.(run := v.run + (values[0] + 1) * Pow2(v.shift), shift := v.shift + 1);
      chars' := chars;
    } else {
      v' := Values(Dumped(v), ToFront(v.list, values[0] - 1), 1, 0);
      chars' := Unsymbols(v'.list, 1, 0, values[1..]).chars;
      Regrouped(v.column, Repeat(v.list[0], v.run), chars');
    }
  }

  /** Reading the values of a block returns its characters. */
  lemma {:induction false} ValuesRead(h: Head, p: Place, v: Values, groups: seq<nat>, values: seq<nat>,
                                      chars: seq<byte>, rest: seq<bit>)
    requires Spells(h, p, v, groups, values, chars) && |rest| >= 32
    ensures ReadValues(h, p, v, SuitedBits(h, groups, p.index, values) + rest)
      == Reads(h.front.rand, h.front.idx, v.column + chars, rest)
    decreases |values|, |groups|
  {
    hide SuitedBits, Suits, Unsymbols, ValidRefs, Selects, ValidTrees, ValidSelectors, Complete, Codeword, Pow2;
    var bits := SuitedBits(h, groups, p.index, values) + rest;
    if p.index == GROUP_SIZE {
      SuitsGroup(h, groups, values);
      var p' := GroupEnds(h, p, v, groups, values, chars, bits);
      ValuesRead(h, p', v, groups[1..], values, chars, rest);
    } else {
      SpellsFirst(h, p, v, groups, values, chars);
      var lens := h.trees[p.tree];
      if values[0] == |h.front.used| + 1 {
        SuitsLast(h, groups, p.index, values);
        SymbolRead(lens, values[0], rest);
        ValuesEnd(h, p, v, groups, values, chars, rest);
      } else {
        SuitsNext(h, groups, p.index, values);
        var v', chars' := ValueNext(h, p, v, groups, values, chars);
        var more := SuitedBits(h, groups, p.index + 1, values[1..]) + rest;
        SymbolRead(lens, values[0], more);
        Regrouped(Codeword(lens, values[0]), SuitedBits(h, groups, p.index + 1, values[1..]), rest);
        ValuesRead(h, p.(index := p.index + 1), v', groups, values[1..], chars', rest);
        ValueRead(h, p, v, values[0], bits, more, v');
      }
    }
  }

  lemma SpellsFirst(h: Head, p: Place, v: Values, groups: seq<nat>, values: seq<nat>, chars: seq<byte>)
    requires Spells(h, p, v, groups, values, chars) && p.index < GROUP_SIZE
    ensures Complete(h.trees[p.tree]) && values != [] && values[0] <= |h.front.used| + 1
    ensures |h.trees[p.tree]| == |h.front.used| + 2
  {
    EndedNext(values, |h.front.used| + 1);
  }

  lemma ValuesEnd(h: Head, p: Place, v: Values, groups: seq<nat>, values: seq<nat>, chars: seq<byte>, rest: seq<bit>)
    requires Spells(h, p, v, groups, values, chars) && p.index < GROUP_SIZE && values[0] == |h.front.used| + 1
    requires Complete(h.trees[p.tree]) && |rest| >= 32 && values[0] < |h.trees[p.tree]|
    requires var lens := h.trees[p.tree]; var b := Codeword(lens, values[0]) + rest;
      SymbolAt(lens, b) == values[0] && b[lens[values[0]]..] == rest
    ensures ReadValues(h, p, v, Codeword(h.trees[p.tree], values[0]) + rest)
      == Reads(h.front.rand, h.front.idx, v.column + chars, rest)
  {
    hide Codeword, Suits, Selects, ValidTrees, ValidSelectors, ValidRefs, SymbolAt;
    assert chars == Repeat(v.list[0], v.run);
  }

  lemma ValueRead(h: Head, p: Place, v: Values, s: nat, b: seq<bit>, more: seq<bit>, v': Values)
    requires ValidHead(h) && ValidPlace(h, p) && p.group < Bound(h.front.groups) && ValidValues(h, v)
    requires p.index < GROUP_SIZE && |b| >= 32 && ValidPlace(h, p.(index := p.index + 1)) && ValidValues(h, v')
    requires s < |h.front.used| + 1 && s < |h.trees[p.tree]|
    requires var lens := h.trees[p.tree]; SymbolAt(lens, b) == s && lens[s] as int <= |b| && b[lens[s]..] == more
    requires v.run <= MAX_BLOCK_SIZE && Fits(v) && v.list != []
    requires v' == if s <= 1 then v.(run := v.run + (s + 1) * Pow2(v.shift), shift := v.shift + 1)
                   else Values(Dumped(v), ToFront(v.list, s - 1), 1, 0)
    ensures ReadValues(h, p, v, b) == ReadValues(h, p.(index := p.index + 1), v', more)
  {
    hide ValidTrees, ValidSelectors, ValidRefs, SymbolAt;
    assert ReadValues(h, p, v, b) == Value(h, p, v, s, more);
  }

  // ----- the whole block -----

  /** A block ready to be written: the primary index, the characters in use, the move-to-front
      coded selectors, the lengths the trees start from, the trees, the tree of each
      group, and the values. */
  datatype Coded = Coded(idx: nat, marks: seq<bit>, selectors: seq<nat>, starts: seq<nat>,
                         trees: seq<seq<byte>>, groups: seq<nat>, values: seq<nat>)

  ghost function HeadOf(c: Coded): Head
    requires |c.marks| == 256
  {
    Head(Front(false, c.idx, Marked(0, c.marks), |c.trees|, |c.selectors|), c.selectors, c.trees)
  }

  /** The block stands for `chars`. */
  ghost predicate Codes(c: Coded, chars: seq<byte>) {
    && |c.marks| == 256 && ValidHead(HeadOf(c))
    && |c.selectors| < 0x8000 && |c.starts| == |c.trees| && ValidStarts(c.starts)
    && c.groups != [] && |c.groups| <= Bound(|c.selectors|)
    && Selects(Refs(c.trees), c.selectors, c.groups)
    && Suits(HeadOf(c), c.groups, 0, c.values)
    && Unsymbols(Marked(0, c.marks), 0, 0, c.values) == Block(chars)
    && c.idx < |chars| <= MAX_BLOCK_SIZE
  }

  ghost function TailBits(c: Coded): seq<bit>
    requires |c.marks| == 256 && Suits(HeadOf(c), c.groups, 0, c.values) && |c.starts| == |c.trees|
  {
    SelectorBits(c.selectors) + (TreesBits(c.starts, c.trees) + SuitedBits(HeadOf(c), c.groups, 0, c.values))
  }

  /** The bits of a block, from the randomisation flag to the last value. */
  ghost function BitsOf(c: Coded): seq<bit>
    requires |c.marks| == 256 && Suits(HeadOf(c), c.groups, 0, c.values) && |c.starts| == |c.trees|
  {
    [0] + ToBits(c.idx, 24)
    + (BigBits(c.marks) + (SmallBits(c.marks) + (ToBits(|c.trees|, 3) + ToBits(|c.selectors|, 15) + TailBits(c))))
  }

  lemma ValuesStart(c: Coded, chars: seq<byte>, rest: seq<bit>)
    requires Codes(c, chars) && |rest| >= 32
    ensures ValidRefs(HeadOf(c), Refs(c.trees)) && ValidHead(HeadOf(c))
    ensures ReadGroups(HeadOf(c), 0, Refs(c.trees), Values([], Marked(0, c.marks), 0, 0),
                       SuitedBits(HeadOf(c), c.groups, 0, c.values) + rest) == Reads(false, c.idx, chars, rest)
  {
    var h, refs, v := HeadOf(c), Refs(c.trees), Values([], Marked(0, c.marks), 0, 0);
    RefsValid(h.front, c.trees);
    var i := c.selectors[0];
    RefsMoved(h, refs, i);
    var p := Place(0, RefToFront(refs, i), c.groups[0], 0);
    assert h.selectors[1..] == c.selectors[1..];
    assert Spells(h, p, v, c.groups, c.values, chars);
    ValuesRead(h, p, v, c.groups, c.values, chars, rest);
    NothingBefore(chars);
    hide Suits, SuitedBits, Unsymbols, Selects, ReadValues, ValidTrees, ValidSelectors;
  }

  lemma TailRead(c: Coded, chars: seq<byte>, rest: seq<bit>)
    requires Codes(c, chars) && |rest| >= 32
    ensures ValidFront(HeadOf(c).front)
    ensures ReadSelectors(HeadOf(c).front, [], TailBits(c) + rest) == Reads(false, c.idx, chars, rest)
  {
    var h := HeadOf(c);
    var values := SuitedBits(h, c.groups, 0, c.values) + rest;
    var trees := TreesBits(c.starts, c.trees) + values;
    Regrouped(SelectorBits(c.selectors), TreesBits(c.starts, c.trees) + SuitedBits(h, c.groups, 0, c.values), rest);
    Regrouped(TreesBits(c.starts, c.trees), SuitedBits(h, c.groups, 0, c.values), rest);
    NothingBefore(c.selectors);
    NothingBefore(c.trees);
    SelectorsRead(h.front, [], c.selectors, trees);
    TreesRead(h.front, c.selectors, [], c.starts, c.trees, values);
    ValuesStart(c, chars, rest);
  }

  lemma CountsRead(rand: bool, idx: nat, used: seq<byte>, trees: nat, groups: nat, b: seq<bit>)
    requires 1 <= |used| <= 256 && MIN_TREES <= trees <= MAX_TREES && 0 < groups < 0x8000 && |b| >= 14
    ensures ReadCounts(rand, idx, used, ToBits(trees, 3) + ToBits(groups, 15) + b)
      == ReadSelectors(Front(rand, idx, used, trees, groups), [], b)
  {
    hide ReadSelectors, ToBits;
    var a := ToBits(trees, 3) + ToBits(groups, 15) + b;
    assert Pow2(3) == 8 && Pow2(15) == 0x8000 by { Pow2Constants(); Pow2Add(5, 10); }
    hide Pow2;
    ValToBits(trees, 3);
    ValToBits(groups, 15);
    hide Val;
    assert a[..3] == ToBits(trees, 3) && a[3..18] == ToBits(groups, 15) && a[18..] == b;
    hide ReadSelectors;
  }

  lemma StartRead(idx: nat, big: seq<bit>, b: seq<bit>)
    requires idx < 0x100_0000 && |big| == 16 && |b| >= 32
    ensures ReadBlock([0] + ToBits(idx, 24) + (big + b)) == ReadRows(false, idx, [], big, b)
  {
    var a := [0] + ToBits(idx, 24) + (big + b);
    Pow2Constants();
    ValToBits(idx, 24);
    assert a[0] == 0 && a[1..25] == ToBits(idx, 24) && a[25..] == big + b;
    hide ReadRows;
  }

  /** Reading the bits of a block returns the block, and leaves what follows. */
  lemma BlockRead(c: Coded, chars: seq<byte>, rest: seq<bit>)
    requires Codes(c, chars) && |rest| >= 32
    ensures ReadBlock(BitsOf(c) + rest) == Reads(false, c.idx, chars, rest)
  {
    hide Codes, Suits, TailBits, ReadBlock, ReadRows, ReadCounts, ReadSelectors, BigBits, SmallBits, Marked;
    CodesFront(c, chars);
    var counts := ToBits(|c.trees|, 3) + ToBits(|c.selectors|, 15);
    var tail := TailBits(c) + rest;
    var small := SmallBits(c.marks);
    Regrouped(counts, TailBits(c), rest);
    Regrouped(small, counts + TailBits(c), rest);
    Regrouped(BigBits(c.marks), small + (counts + TailBits(c)), rest);
    Regrouped([0] + ToBits(c.idx, 24), BigBits(c.marks) + (small + (counts + TailBits(c))), rest);
    StartRead(c.idx, BigBits(c.marks), small + (counts + tail));
    NothingBefore(Marked(0, c.marks));
    RowsRead(false, c.idx, [], c.marks, counts + tail);
    CountsRead(false, c.idx, Marked(0, c.marks), |c.trees|, |c.selectors|, tail);
    TailRead(c, chars, rest);
  }

  lemma CodesFront(c: Coded, chars: seq<byte>)
    requires Codes(c, chars)
    ensures |c.marks| == 256 && |c.starts| == |c.trees| && Suits(HeadOf(c), c.groups, 0, c.values)
    ensures 1 <= |Marked(0, c.marks)| <= 256 && MIN_TREES <= |c.trees| <= MAX_TREES && 0 < |c.selectors| < 0x8000
    ensures c.idx < 0x100_0000
  {
  }
}
