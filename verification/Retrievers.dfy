/** The resumable retriever: an automaton that reads a block from words that arrive in
    pieces, and can stop wherever it asks for 32 bits. */
module Retrievers {
  import opened Common
  import opened Powers
  import opened Bits
  import opened CountingSort
  import opened PrefixCode
  import opened DecodeTree
  import opened MoveToFront
  import opened SlidingLists
  import opened BlockFormat
  import BlockBits
  import opened DeltaTables
  import opened Bitstreams
  import opened Retrieval

  const MAX_SELECTORS := 32767

  datatype Phase =
    | S_INIT
    | S_BWT_IDX
    | S_BITMAP_BIG
    | S_BITMAP_SMALL
    | S_SELECTOR_MTF
    | S_DELTA_TAG
    | S_PREFIX

  class Retriever {
    // what the decoder will use
    var rand: bool
    var bwtIdx: nat
    var blockSize: nat
    const ftab: array<nat>
    const tt: array<uint32>

    // the automaton
    var state: Phase
    var selector: seq<nat>
    var numTrees: nat
    var numSelectors: nat
    var alphaSize: nat
    var codeLen: seq<byte>
    var mtf: seq<TreeRef>
    const tree: seq<Tree>
    var big: nat
    var small: nat
    var j: nat
    var t: nat
    var g: nat
    const row: array<nat>
    const slide: array<byte>
    var runChar: byte
    var run: uint32
    var shift: nat

    ghost var progress: Progress
    ghost var list: seq<byte>             // the list in the rows
    ghost const treeArrays: set<object>

    /** The memory of the retriever: all parts apart. */
    ghost predicate Structure() {
      && row.Length == NUM_ROWS && slide.Length == SLIDE_LENGTH
      && tt.Length == MAX_BLOCK_SIZE && ftab.Length == 256 && ftab != row
      && (tt as object) != slide && (tt as object) != row && (tt as object) != ftab
      && (slide as object) != row && (slide as object) != ftab
      && |tree| == MAX_TREES
      && (forall i {:trigger tree[i]} :: 0 <= i < MAX_TREES ==> tree[i].Shaped() && tree[i].Arrays() <= treeArrays)
      && (forall i, k {:trigger tree[i], tree[k]} :: 0 <= i < k < MAX_TREES ==> tree[i].Arrays() !! tree[k].Arrays())
      && this !in treeArrays && tt !in treeArrays && ftab !in treeArrays && row !in treeArrays && slide !in treeArrays
    }

    ghost predicate Sizes()
      reads this`selector, this`codeLen, this`mtf
    {
      |selector| == MAX_SELECTORS && |codeLen| == MAX_ALPHA_SIZE && |mtf| == MAX_TREES
    }

    /** The tables of the complete trees among the first ones. */
    ghost predicate TreesReady(trees: seq<seq<byte>>)
      reads treeArrays
    {
      && |trees| <= |tree|
      && forall i {:trigger tree[i]} :: 0 <= i < |trees| && Complete(trees[i]) ==>
           tree[i].Arrays() <= treeArrays && tree[i].Tables(trees[i])
    }

    /** The front of the block, apart from the list of characters. */
    ghost predicate FrontTied(f: Front)
      reads this`rand, this`bwtIdx, this`alphaSize, this`numTrees, this`numSelectors
    {
      && rand == f.rand && bwtIdx == f.idx && alphaSize == |f.used| + 2
      && numTrees == f.trees && numSelectors == f.groups <= MAX_SELECTORS
    }

    /** The automaton stands where `progress` says. */
    ghost predicate Tied()
      reads this, slide, row, tt, ftab, treeArrays
    {
      match progress
      case AtStart => state == S_INIT || state == S_BWT_IDX
      case AtBitmap(r, i) => state == S_BITMAP_BIG && rand == r && bwtIdx == i
      case InRow(r, i, used, bigBits, smallBits) =>
        && state == S_BITMAP_SMALL && rand == r && bwtIdx == i
        && InUse(slide[..], alphaSize, used) && Register(big, bigBits) && Register(small, smallBits)
        && j == 256 - 16 * |bigBits|
      case InSelectors(f, selectors) =>
        && state == S_SELECTOR_MTF && FrontTied(f) && InUse(slide[..], |f.used|, f.used)
        && Listing(selector, selectors) && |selectors| == j + 1
      case InLengths(f, selectors, trees, lens, cur) =>
        && state == S_DELTA_TAG && FrontTied(f) && InUse(slide[..], |f.used|, f.used)
        && Listing(selector, selectors) && t == |trees| && TreesReady(trees) && Listing(mtf, Refs(trees))
        && j == |lens| && Listing(codeLen, lens) && (j < alphaSize <= |codeLen| ==> cur == codeLen[j] as int)
      case InValues(h, place, v) => state == S_PREFIX && ValuesTied(h, place, v)
    }

    ghost predicate ValuesTied(h: Head, place: Place, v: Values)
      reads this, slide, row, tt, ftab, treeArrays
    {
      && HeadTied(h) && Listing(mtf, place.refs)
      && g == place.group && t == place.tree && j == place.index
      && ColumnTied(v.column) && ListTied(v.list) && RunTied(v)
    }

    /** What stays as it is while values are read. */
    ghost predicate HeadTied(h: Head)
      reads this`rand, this`bwtIdx, this`alphaSize, this`numTrees, this`numSelectors, this`selector, treeArrays
    {
      && ValidHead(h) && rand == h.front.rand && bwtIdx == h.front.idx && alphaSize == |h.front.used| + 2
      && numTrees == h.front.trees && numSelectors == Bound(h.front.groups)
      && numSelectors <= |h.selectors| && Listing(selector, h.selectors[..numSelectors])
      && TreesReady(h.trees)
    }

    /** The characters written so far. */
    ghost predicate ColumnTied(column: seq<byte>)
      reads this`blockSize, tt, ftab
    {
      Stored(tt[..], blockSize, column) && Tallied(ftab[..], column)
    }

    ghost predicate ListTied(l: seq<byte>)
      reads this`list, slide, row
    {
      Holds(row[..], slide[..], list) && l <= list && l != []
    }

    ghost predicate RunTied(v: Values)
      reads this`runChar, this`run, this`shift
    {
      v.list != [] && runChar == v.list[0] && run as int == v.run && shift == v.shift && Pow2(shift) <= run + 1
    }

    ghost predicate Valid()
      reads this, slide, row, tt, ftab, treeArrays
    {
      Structure() && Sizes() && ValidProgress(progress) && Tied()
    }

    /** What a step with result `st` has done, if the bits meant `goal` before it and
        `b` are left. */
    ghost predicate Leads(st: Status, goal: Outcome, b: seq<bit>)
      reads this, slide, row, tt, ftab, treeArrays
    {
      if st == MORE then Valid() && Meaning(progress, b) == goal
      else if st == OK then
        && Structure() && bwtIdx < blockSize <= MAX_BLOCK_SIZE && goal.Reads?
        && goal == Reads(rand, bwtIdx, goal.column, b)
        && Stored(tt[..], blockSize, goal.column) && Tallied(ftab[..], goal.column)
      else Structure() && goal == Fails(st)
    }

    lemma StopAtBitmap(goal: Outcome, b: seq<bit>)
      requires Structure() && Sizes() && progress == AtBitmap(rand, bwtIdx) && state == S_BITMAP_BIG
      requires goal == ReadBitmap(rand, bwtIdx, b)
      ensures Leads(MORE, goal, b)
    {
      hide ReadBitmap, Structure;
    }

    lemma OpenBitmap(b: seq<bit>)
      requires Valid() && progress.AtBitmap?
      ensures Structure() && Sizes() && slide.Length == SLIDE_LENGTH
      ensures Meaning(progress, b) == ReadBitmap(rand, bwtIdx, b)
    {
      hide ReadBitmap;
    }

    lemma OpenRow(b: seq<bit>)
      requires Valid() && progress.InRow?
      ensures Structure() && Sizes() && slide.Length == SLIDE_LENGTH
      ensures |progress.used| + 16 * |progress.big| <= 256 && progress.big != [] && |progress.small| == 16
      ensures InUse(slide[..], alphaSize, progress.used) && Register(big, progress.big) && Register(small, progress.small)
      ensures j == 256 - 16 * |progress.big|
      ensures Meaning(progress, b) == EndRow(rand, bwtIdx, progress.used, progress.big, progress.small, b)
    {
      hide EndRow, Register, InUse;
    }

    lemma OpenSelectors(b: seq<bit>)
      requires Valid() && progress.InSelectors? && |b| >= 32
      ensures Structure() && Sizes() && ValidFront(progress.front) && ValidSelectors(progress.front, progress.selectors)
      ensures FrontTied(progress.front) && InUse(slide[..], |progress.front.used|, progress.front.used)
      ensures Listing(selector, progress.selectors) && |progress.selectors| == j + 1
      ensures Meaning(progress, b) == ReadSelectors(progress.front, progress.selectors, b)
    {
      hide ReadSelectors, InUse, FrontTied, Listing, ValidFront, ValidSelectors, Structure;
    }

    lemma StopInSelectors(goal: Outcome, b: seq<bit>)
      requires Structure() && Sizes() && progress.InSelectors? && ValidProgress(progress) && state == S_SELECTOR_MTF
      requires FrontTied(progress.front) && InUse(slide[..], |progress.front.used|, progress.front.used)
      requires Listing(selector, progress.selectors) && |progress.selectors| == j + 1
      requires goal == EndSelector(progress.front, progress.selectors, b)
      ensures Leads(MORE, goal, b)
    {
      hide EndSelector, InUse, FrontTied, Listing, ValidFront, ValidSelectors, Structure;
    }

    lemma OpenLengths(b: seq<bit>)
      requires Valid() && progress.InLengths? && |b| >= 32
      ensures Structure() && Sizes() && alphaSize == |progress.front.used| + 2 && numTrees == progress.front.trees
      ensures TreesTied(progress.front, progress.selectors, progress.trees)
      ensures ValidLengths(progress.front, progress.selectors, progress.trees, progress.lens)
      ensures j == |progress.lens| && Listing(codeLen, progress.lens) && progress.cur <= 31
      ensures j < alphaSize <= |codeLen| ==> progress.cur == codeLen[j] as int
      ensures Meaning(progress, b)
        == ReadLengths(progress.front, progress.selectors, progress.trees, progress.lens, progress.cur, b)
    {
      hide ReadLengths, InUse, Listing, ValidFront, ValidSelectors, ValidTrees, Structure, TreesReady;
    }

    lemma StopInRow(goal: Outcome, b: seq<bit>)
      requires Structure() && Sizes() && progress.InRow? && ValidProgress(progress)
      requires state == S_BITMAP_SMALL && rand == progress.rand && bwtIdx == progress.idx
      requires InUse(slide[..], alphaSize, progress.used) && Register(big, progress.big) && Register(small, progress.small)
      requires j == 256 - 16 * |progress.big|
      requires goal == EndRow(rand, bwtIdx, progress.used, progress.big, progress.small, b)
      ensures Leads(MORE, goal, b)
    {
      hide InUse, Register, EndRow, Structure;
    }

    lemma StopInLengths(goal: Outcome, b: seq<bit>)
      requires progress.InLengths? && state == S_DELTA_TAG && Sizes()
      requires TreesTied(progress.front, progress.selectors, progress.trees)
      requires ValidLengths(progress.front, progress.selectors, progress.trees, progress.lens)
      requires j == |progress.lens| && Listing(codeLen, progress.lens) && progress.cur <= 31
      requires j < alphaSize <= |codeLen| ==> progress.cur == codeLen[j] as int
      requires goal == EndSteps(progress.front, progress.selectors, progress.trees, progress.lens, progress.cur, b)
      ensures Leads(MORE, goal, b)
    {
      hide ValidLengths, EndSteps, Structure, Sizes, TreesTied, Listing, Tied, Meaning, ValidProgress;
      LengthsTied();
      LengthsMeaning(progress, b);
    }

    lemma LengthsTied()
      requires progress.InLengths? && state == S_DELTA_TAG
      requires TreesTied(progress.front, progress.selectors, progress.trees)
      requires j == |progress.lens| && Listing(codeLen, progress.lens)
      requires j < alphaSize <= |codeLen| ==> progress.cur == codeLen[j] as int
      ensures Structure() && Tied()
    {
      hide Structure, InUse, Listing, TreesReady, FrontTied, ValidFront, ValidSelectors, ValidTrees;
    }

    /** An error ends the reading. */
    lemma StopFailing(st: Status, goal: Outcome, b: seq<bit>)
      requires Structure() && st != MORE && st != OK && goal == Fails(st)
      ensures Leads(st, goal, b)
    {
      hide Structure;
    }

    ghost predicate Free(bs: Bitstream) {
      && this !in treeArrays && tt !in treeArrays && ftab !in treeArrays && row !in treeArrays && slide !in treeArrays
      && bs !in treeArrays && (bs as object) != this && (bs as object) != tt && (bs as object) != ftab
      && (bs as object) != row && (bs as object) != slide
    }

    // ----- the front -----

    method StepStart(bs: Bitstream, ghost goal: Outcome, ghost future: seq<bit>) returns (st: Status)
      requires Valid() && Free(bs) && bs.Valid() && bs.live >= 32 && progress == AtStart
      requires goal == Meaning(progress, bs.Bits() + future)
      modifies this, bs
      ensures bs.Valid() && st == MORE && |bs.Bits()| < old(|bs.Bits()|) && bs.eof == old(bs.eof)
      ensures Leads(st, goal, bs.Bits() + future)
    {
      hide Leads, Structure, Tied, ReadBlock, ReadBitmap, ValidProgress;
      StartMeaning(bs.Bits(), future);
      var x := bs.Take(1);
      rand := x == 1;
      bwtIdx := bs.Take(24);
      state := S_BITMAP_BIG;
      progress := AtBitmap(rand, bwtIdx);
      StopAtBitmap(goal, bs.Bits() + future);
      st := MORE;
    }

    method StepBitmap(bs: Bitstream, ghost goal: Outcome, ghost future: seq<bit>) returns (st: Status)
      requires Valid() && Free(bs) && bs.Valid() && bs.live >= 32 && progress.AtBitmap?
      requires goal == Meaning(progress, bs.Bits() + future)
      modifies this, bs, slide
      ensures bs.Valid() && |bs.Bits()| < old(|bs.Bits()|) && bs.eof == old(bs.eof)
      ensures Leads(st, goal, bs.Bits() + future)
    {
      hide Leads, Structure, Register, InUse, ReadRows, RowsAt, Tied, Meaning, ReadBitmap;
      OpenBitmap(bs.Bits() + future);
      BitmapMeaning(rand, bwtIdx, bs.Bits(), future);
      ghost var bigBits := bs.Bits()[..16];
      big := bs.Take(16);
      small := 0;
      alphaSize := 0;
      j := 0;
      RowsStart(slide[..], big, bigBits);
      st := Rows(bs, [], bigBits, goal, future);
    }

    /** Goes through the rows up to one that has characters. */
    method Rows(bs: Bitstream, ghost used: seq<byte>, ghost bigBits0: seq<bit>, ghost goal: Outcome, ghost future: seq<bit>)
      returns (st: Status)
      requires Structure() && Sizes() && Free(bs) && bs.Valid() && bs.live >= (if used == [] then 16 else 32)
      requires RowsAt(slide[..], alphaSize, j, small, big, used, bigBits0)
      requires goal == ReadRows(rand, bwtIdx, used, bigBits0, bs.Bits() + future)
      modifies this, bs, slide
      ensures bs.Valid() && |bs.Bits()| <= old(|bs.Bits()|) && (st == MORE ==> |bs.Bits()| < old(|bs.Bits()|)) && bs.eof == old(bs.eof)
      ensures Leads(st, goal, bs.Bits() + future)
    {
      hide Leads, Structure, Register, InUse, ReadRows, EndRow, ReadCounts, RowsAt, Marked;
      ghost var bigBits := bigBits0;
      RowsFacts(slide[..], alphaSize, j, small, big, used, bigBits);
      while j < 256
        invariant Sizes() && unchanged(bs) && rand == old(rand) && bwtIdx == old(bwtIdx)
        invariant RowsAt(slide[..], alphaSize, j, small, big, used, bigBits)
        invariant |used| + 16 * |bigBits| <= 256 && j == 256 - 16 * |bigBits|
        invariant goal == ReadRows(rand, bwtIdx, used, bigBits, bs.Bits() + future)
        decreases 256 - j
      {
        RowsHead(slide[..], alphaSize, j, small, big, used, bigBits);
        RowsMeaning(rand, bwtIdx, used, bigBits, bs.Bits(), future);
        if big / 0x8000 == 1 {
          TakeRow(bs, used, bigBits, goal, future);
          return MORE;
        }
        SkipRow(used, bigBits);
        bigBits := bigBits[1..];
      }
      RowsFacts(slide[..], alphaSize, j, small, big, used, bigBits);
      RowsDone(rand, bwtIdx, used, bigBits, bs.Bits() + future);
      st := Counts(bs, used, goal, future);
    }

    /** Passes over a row that has no characters. */
    method SkipRow(ghost used: seq<byte>, ghost bigBits: seq<bit>)
      requires slide.Length == SLIDE_LENGTH && RowsAt(slide[..], alphaSize, j, small, big, used, bigBits)
      requires bigBits != [] && bigBits[0] == 0
      modifies this`j, this`alphaSize, this`small, this`big, slide
      ensures RowsAt(slide[..], alphaSize, j, small, big, used, bigBits[1..])
      ensures |used| + 16 * |bigBits[1..]| <= 256 && j == 256 - 16 * |bigBits[1..]|
    {
      hide Register, InUse, RowsAt, Marked;
      RowsFacts(slide[..], alphaSize, j, small, big, used, bigBits);
      RowsHead(slide[..], alphaSize, j, small, big, used, bigBits);
      NoMarks(j);
      MarkRow(used, ToBits(0, 16));
      big := 2 * big % 0x1_0000;
      NothingBefore(used);
      RowsNext(slide[..], alphaSize, j, small, big, used, bigBits[1..]);
    }

    method TakeRow(bs: Bitstream, ghost used: seq<byte>, ghost bigBits: seq<bit>, ghost goal: Outcome, ghost future: seq<bit>)
      requires Structure() && Sizes() && Free(bs) && bs.Valid() && bs.live >= 16
      requires InUse(slide[..], alphaSize, used) && Register(big, bigBits) && bigBits != []
      requires j == 256 - 16 * |bigBits| && |used| + 16 * |bigBits| <= 256
      requires |bs.Bits()| >= 16 && goal == EndRow(rand, bwtIdx, used, bigBits, bs.Bits()[..16], bs.Bits()[16..] + future)
      modifies this, bs
      ensures bs.Valid() && |bs.Bits()| < old(|bs.Bits()|) && bs.eof == old(bs.eof)
      ensures Leads(MORE, goal, bs.Bits() + future)
    {
      hide Leads, Structure, Register, InUse, EndRow;
      ghost var smallBits := bs.Bits()[..16];
      small := bs.Take(16);
      RegisterOf(small, smallBits);
      state := S_BITMAP_SMALL;
      progress := InRow(rand, bwtIdx, used, bigBits, smallBits);
      StopInRow(goal, bs.Bits() + future);
    }

    /** Adds the characters that `small` marks. */
    method MarkRow(ghost used: seq<byte>, ghost bits: seq<bit>)
      requires slide.Length == SLIDE_LENGTH && j % 16 == 0 && j + 16 <= 256 && |used| <= j
      requires InUse(slide[..], alphaSize, used) && |bits| == 16 && Register(small, bits)
      modifies this`j, this`alphaSize, this`small, slide
      ensures j == old(j) + 16 && small == 0
      ensures InUse(slide[..], alphaSize, used + Marked(old(j), bits))
    {
      hide InUse, Register, Marked, ToBits, Marking;
      ghost var j0 := j;
      ghost var n := 0;
      MarkStart(slide[..], alphaSize, j, small, used, bits);
      while true
        invariant n < 16 && j == j0 + n
        invariant Marking(slide[..], alphaSize, j, small, used, j0, bits, n)
        decreases 16 - n
      {
        ghost var before := slide[..];
        MarkStep(before, alphaSize, j, small, used, j0, bits, n);
        slide[CMAP_BASE + alphaSize] := j;
        ghost var c: byte := j;
        assert slide[..] == before[CMAP_BASE + alphaSize := c];
        j := j + 1;
        alphaSize := alphaSize + small / 0x8000;
        small := 2 * small % 0x1_0000;
        n := n + 1;
        if j % 16 == 0 { break; }
      }
      MarkEnd(slide[..], alphaSize, j, small, used, j0, bits);
    }

    method StepRow(bs: Bitstream, ghost goal: Outcome, ghost future: seq<bit>) returns (st: Status)
      requires Valid() && Free(bs) && bs.Valid() && bs.live >= 32 && progress.InRow?
      requires goal == Meaning(progress, bs.Bits() + future)
      modifies this, bs, slide
      ensures bs.Valid() && |bs.Bits()| <= old(|bs.Bits()|) && (st == MORE ==> |bs.Bits()| < old(|bs.Bits()|)) && bs.eof == old(bs.eof)
      ensures Leads(st, goal, bs.Bits() + future)
    {
      hide Leads, Structure, Register, InUse, ReadRows, EndRow, RowsAt, Marked, Tied, Meaning;
      OpenRow(bs.Bits() + future);
      ghost var used, bigBits, marks := progress.used, progress.big, progress.small;
      RowMeaning(rand, bwtIdx, used, bigBits, marks, bs.Bits(), future);
      RegisterHead(big, bigBits);
      ghost var j0 := j;
      MarkRow(used, marks);
      big := 2 * big % 0x1_0000;
      RowsNext(slide[..], alphaSize, j, small, big, used + Marked(j0, marks), bigBits[1..]);
      st := Rows(bs, used + Marked(j0, marks), bigBits[1..], goal, future);
    }

    method Counts(bs: Bitstream, ghost used: seq<byte>, ghost goal: Outcome, ghost future: seq<bit>)
      returns (st: Status)
      requires Structure() && Sizes() && Free(bs) && bs.Valid() && (used != [] ==> bs.live >= 32)
      requires InUse(slide[..], alphaSize, used)
      requires goal == ReadCounts(rand, bwtIdx, used, bs.Bits() + future)
      modifies this, bs
      ensures bs.Valid() && |bs.Bits()| <= old(|bs.Bits()|) && (st == MORE ==> |bs.Bits()| < old(|bs.Bits()|)) && bs.eof == old(bs.eof)
      ensures Leads(st, goal, bs.Bits() + future)
    {
      hide Leads, Structure, ReadCounts, ReadSelectors, InUse;
      UseCount(slide[..], alphaSize, used);
      if alphaSize == 0 {
        NoneUsed(rand, bwtIdx, used, bs.Bits() + future);
        StopFailing(ERR_BITMAP, goal, bs.Bits() + future);
        return ERR_BITMAP;
      }
      CountsMeaning(rand, bwtIdx, used, bs.Bits(), future);
      alphaSize := alphaSize + 2;
      numTrees := bs.Take(3);
      if numTrees < MIN_TREES || numTrees > MAX_TREES {
        StopFailing(ERR_TREES, goal, bs.Bits() + future);
        return ERR_TREES;
      }
      numSelectors := bs.Take(15);
      if numSelectors == 0 {
        StopFailing(ERR_GROUPS, goal, bs.Bits() + future);
        return ERR_GROUPS;
      }
      j := 0;
      ghost var front := Front(rand, bwtIdx, used, numTrees, numSelectors);
      st := OneSelector(bs, front, [], goal, future);
    }

    // ----- selectors -----

    method OneSelector(bs: Bitstream, ghost front: Front, ghost sels: seq<nat>, ghost goal: Outcome, ghost future: seq<bit>)
      returns (st: Status)
      requires Structure() && Sizes() && Free(bs) && bs.Valid() && bs.live >= 6
      requires ValidFront(front) && ValidSelectors(front, sels) && FrontTied(front)
      requires InUse(slide[..], |front.used|, front.used)
      requires Listing(selector, sels) && j == |sels| < numSelectors <= MAX_SELECTORS
      requires goal == ReadSelectors(front, sels, bs.Bits() + future)
      modifies this, bs
      ensures bs.Valid() && |bs.Bits()| <= old(|bs.Bits()|) && (st == MORE ==> |bs.Bits()| < old(|bs.Bits()|)) && bs.eof == old(bs.eof)
      ensures Leads(st, goal, bs.Bits() + future)
    {
      hide Leads, Structure, ReadSelectors, EndSelector, InUse, ValidFront, ValidSelectors, FIRST_ZERO;
      SelectorMeaning(front, sels, bs.Bits(), future);
      assert bs.Bits()[..6] == bs.held[..6];
      var k := FIRST_ZERO[bs.Peek(6)];
      if k > numTrees {
        StopFailing(ERR_SELECTOR, goal, bs.Bits() + future);
        return ERR_SELECTOR;
      }
      selector := selector[j := k - 1];
      bs.Dump(k);
      state := S_SELECTOR_MTF;
      progress := InSelectors(front, sels + [k - 1]);
      StopInSelectors(goal, bs.Bits() + future);
      st := MORE;
    }

    method StepSelector(bs: Bitstream, ghost goal: Outcome, ghost future: seq<bit>) returns (st: Status)
      requires Valid() && Free(bs) && bs.Valid() && bs.live >= 32 && progress.InSelectors?
      requires goal == Meaning(progress, bs.Bits() + future)
      modifies this, bs
      ensures bs.Valid() && |bs.Bits()| <= old(|bs.Bits()|) && (st == MORE ==> |bs.Bits()| < old(|bs.Bits()|)) && bs.eof == old(bs.eof)
      ensures Leads(st, goal, bs.Bits() + future)
    {
      hide Leads, Structure, ReadSelectors, ReadTrees, InUse, ValidFront, ValidSelectors, Tied, Meaning;
      ghost var front, sels := progress.front, progress.selectors;
      OpenSelectors(bs.Bits() + future);
      SelectorsDone(front, sels, bs.Bits() + future);
      j := j + 1;
      if j < numSelectors {
        st := OneSelector(bs, front, sels, goal, future);
      } else {
        t := 0;
        st := StartTree(bs, front, sels, [], goal, future);
      }
    }

    // ----- trees -----

    /** What stays as it is while trees are read. */
    ghost predicate TreesTied(f: Front, sels: seq<nat>, trees: seq<seq<byte>>)
      reads this`rand, this`bwtIdx, this`alphaSize, this`numTrees, this`numSelectors
      reads this`selector, this`mtf, this`t, slide, treeArrays
    {
      && Structure() && FrontTied(f) && InUse(slide[..], |f.used|, f.used)
      && ValidFront(f) && |sels| == f.groups && ValidSelectors(f, sels) && ValidTrees(f, trees)
      && Listing(selector, sels) && t == |trees| && TreesReady(trees) && Listing(mtf, Refs(trees))
    }

    lemma TreesFacts(f: Front, sels: seq<nat>, trees: seq<seq<byte>>)
      requires TreesTied(f, sels, trees)
      ensures Structure() && alphaSize == |f.used| + 2 && 3 <= alphaSize <= MAX_ALPHA_SIZE && t == |trees|
      ensures numTrees == f.trees && ValidFront(f)
      ensures |trees| < f.trees ==> ValidLengths(f, sels, trees, [])
    {
      hide Structure, ValidSelectors, ValidTrees, InUse, TreesReady, Listing;
    }

    method StartTree(bs: Bitstream, ghost front: Front, ghost sels: seq<nat>, ghost trees: seq<seq<byte>>,
                     ghost goal: Outcome, ghost future: seq<bit>)
      returns (st: Status)
      requires TreesTied(front, sels, trees) && Sizes() && |trees| < front.trees && Free(bs) && bs.Valid() && bs.live >= 32
      requires goal == ReadTrees(front, sels, trees, bs.Bits() + future)
      modifies this, bs
      ensures bs.Valid() && |bs.Bits()| <= old(|bs.Bits()|) && (st == MORE ==> |bs.Bits()| < old(|bs.Bits()|)) && bs.eof == old(bs.eof)
      ensures Leads(st, goal, bs.Bits() + future)
    {
      hide Leads, Structure, ReadTrees, ReadLengths, TreesTied, ValidLengths, Listing;
      TreesFacts(front, sels, trees);
      TreeMeaning(front, sels, trees, bs.Bits(), future);
      j := 0;
      var x := bs.Take(5);
      codeLen := codeLen[0 := x];
      ListingNone(codeLen);
      st := OneLength(bs, front, sels, trees, [], x, goal, future);
    }

    method OneLength(bs: Bitstream, ghost front: Front, ghost sels: seq<nat>, ghost trees: seq<seq<byte>>,
                     ghost lens: seq<byte>, ghost cur: nat, ghost goal: Outcome, ghost future: seq<bit>)
      returns (st: Status)
      requires TreesTied(front, sels, trees) && Sizes() && Free(bs) && bs.Valid() && bs.live >= 6
      requires ValidLengths(front, sels, trees, lens) && Listing(codeLen, lens) && j == |lens| < alphaSize
      requires cur == codeLen[j] as int <= 31
      requires goal == ReadLengths(front, sels, trees, lens, cur, bs.Bits() + future)
      modifies this, bs
      ensures bs.Valid() && |bs.Bits()| <= old(|bs.Bits()|) && (st == MORE ==> |bs.Bits()| < old(|bs.Bits()|)) && bs.eof == old(bs.eof)
      ensures Leads(st, goal, bs.Bits() + future)
    {
      hide Leads, Structure, ReadLengths, EndSteps, TreesTied, ValidLengths, Listing, STEP_BITS, STEP_DELTA;
      TreesFacts(front, sels, trees);
      LengthMeaning(front, sels, trees, lens, cur, bs.Bits(), future);
      assert bs.Bits()[..6] == bs.held[..6];
      var k := bs.Peek(6);
      var x: byte := codeLen[j] + STEP_DELTA[k];
      ListingUpdate(codeLen, lens, j, x);
      codeLen := codeLen[j := x];
      if codeLen[j] < 3 + MIN_CODE_LENGTH || codeLen[j] > 3 + MAX_CODE_LENGTH {
        StopFailing(ERR_DELTA, goal, bs.Bits() + future);
        return ERR_DELTA;
      }
      x := codeLen[j] - 3;
      ListingUpdate(codeLen, lens, j, x);
      codeLen := codeLen[j := x];
      EndLength(bs, STEP_BITS[k], front, sels, trees, lens, goal, future);
      st := MORE;
    }

    /** Keeps the length, and goes on to the next one if this one has ended. */
    /** The length is done: the next one starts from it. */
    method KeepLength(ghost lens: seq<byte>)
      requires Listing(codeLen, lens) && j == |lens| < alphaSize <= |codeLen|
      modifies this`j, this`codeLen
      ensures j == |lens| + 1 && |codeLen| == old(|codeLen|) && Listing(codeLen, lens + [old(codeLen[j])])
      ensures j < alphaSize ==> codeLen[j] == old(codeLen[j])
    {
      StoreLength(codeLen, lens, codeLen[j], alphaSize);
      hide Listing;
      j := j + 1;
      if j < alphaSize { codeLen := codeLen[j := codeLen[j - 1]]; }
    }

    method EndLength(bs: Bitstream, k: nat, ghost front: Front, ghost sels: seq<nat>, ghost trees: seq<seq<byte>>,
                     ghost lens: seq<byte>, ghost goal: Outcome, ghost future: seq<bit>)
      requires TreesTied(front, sels, trees) && Sizes() && Free(bs) && bs.Valid() && 1 <= k <= bs.live
      requires Listing(codeLen, lens) && j == |lens| < alphaSize <= |codeLen| && codeLen[j] <= 31 && |bs.Bits()| >= k
      requires ValidLengths(front, sels, trees, if k != 6 then lens + [codeLen[j]] else lens)
      requires goal == EndSteps(front, sels, trees, if k != 6 then lens + [codeLen[j]] else lens, codeLen[j], bs.Bits()[k..] + future)
      modifies this, bs
      ensures bs.Valid() && |bs.Bits()| < old(|bs.Bits()|) && bs.eof == old(bs.eof)
      ensures Leads(MORE, goal, bs.Bits() + future)
    {
      hide Leads, Structure, EndSteps, TreesTied, ValidLengths, Listing;
      ghost var c := codeLen[j];
      ghost var lens' := if k != 6 then lens + [c] else lens;
      if k != 6 { KeepLength(lens); }
      bs.Dump(k);
      state := S_DELTA_TAG;
      progress := InLengths(front, sels, trees, lens', c);
      StopInLengths(goal, bs.Bits() + future);
    }
  
    method StepLength(bs: Bitstream, ghost goal: Outcome, ghost future: seq<bit>) returns (st: Status)
      requires Valid() && Free(bs) && bs.Valid() && bs.live >= 32 && progress.InLengths?
      requires goal == Meaning(progress, bs.Bits() + future)
      modifies this, bs, row, slide, tt, ftab, treeArrays
      ensures bs.Valid() && |bs.Bits()| <= old(|bs.Bits()|) && bs.eof == old(bs.eof)
      ensures st == MORE ==> |bs.Bits()| < old(|bs.Bits()|) || state == S_PREFIX
      ensures Leads(st, goal, bs.Bits() + future)
    {
      hide Leads, Structure, ReadLengths, ReadTrees, TreesTied, ValidLengths, Tied, Meaning, Listing;
      ghost var front, sels, trees, lens := progress.front, progress.selectors, progress.trees, progress.lens;
      OpenLengths(bs.Bits() + future);
      TreesFacts(front, sels, trees);
      if j < alphaSize {
        st := OneLength(bs, front, sels, trees, lens, progress.cur, goal, future);
      } else {
        TreeDone(front, sels, trees, lens, progress.cur, bs.Bits() + future);
        MakeTree(front, sels, trees, lens);
        TreesFacts(front, sels, trees + [lens]);
        if t < numTrees {
          st := StartTree(bs, front, sels, trees + [lens], goal, future);
        } else {
          st := StartValues(bs, front, sels, trees + [lens], goal, future);
        }
      }
    }

    /** Makes the tables of the tree just read. */
    method MakeTree(ghost front: Front, ghost sels: seq<nat>, ghost trees: seq<seq<byte>>, ghost lens: seq<byte>)
      requires TreesTied(front, sels, trees) && Sizes() && this !in treeArrays && slide !in treeArrays
      requires ValidLengths(front, sels, trees, lens) && Listing(codeLen, lens) && |lens| == alphaSize
      modifies this`t, this`mtf, treeArrays
      ensures TreesTied(front, sels, trees + [lens]) && Sizes()
    {
      hide Structure, ValidLengths, FrontTied, ValidFront, ValidSelectors, ValidTrees, InUse, TreesReady, Listing, Complete, TreeStatus;
      TreesFacts(front, sels, trees);
      LengthsReady(codeLen, front, sels, trees, lens);
      var i := t;
      var st := MakeTables(i, codeLen[..alphaSize], trees);
      RefMade(mtf, trees, lens, i, if st == OK then Good(i) else Rejected(st));
      mtf := mtf[i := if st == OK then Good(i) else Rejected(st)];
      t := t + 1;
    }

    lemma TreeApart(i: nat)
      requires Structure() && i < MAX_TREES
      ensures |tree| == MAX_TREES && tree[i].Shaped() && tree[i].Arrays() <= treeArrays && slide !in treeArrays
      ensures forall k {:trigger tree[k]} :: 0 <= k < i ==> tree[k].Arrays() !! tree[i].Arrays()
    {
    }

    method MakeTables(i: nat, lens: seq<byte>, ghost trees: seq<seq<byte>>) returns (st: Status)
      requires Structure() && TreesReady(trees) && i == |trees| < MAX_TREES && Lengths(lens)
      modifies treeArrays
      ensures TreesReady(trees + [lens]) && st == TreeStatus(lens)
    {
      hide Structure, Complete, TreeStatus, Tree.Tables, Start;
      TreeApart(i);
      st := tree[i].Make(lens);
      StatusOf(lens, st);
      forall k {:trigger tree[k]} | 0 <= k < i + 1 && Complete((trees + [lens])[k])
        ensures tree[k].Arrays() <= treeArrays && tree[k].Tables((trees + [lens])[k])
      {
        if k < i {
          assert tree[k].Arrays() !! tree[i].Arrays();
          tree[k].TablesStay(trees[k]);
        }
      }
    }
  
    // ----- values -----

    method StartValues(bs: Bitstream, ghost front: Front, ghost sels: seq<nat>, ghost trees: seq<seq<byte>>,
                       ghost goal: Outcome, ghost future: seq<bit>)
      returns (st: Status)
      requires TreesTied(front, sels, trees) && |trees| == front.trees && Sizes() && Free(bs) && bs.Valid()
      requires goal == ReadTrees(front, sels, trees, bs.Bits() + future) && bs.live >= 32
      modifies this, bs, row, slide, tt, ftab
      ensures bs.Valid() && |bs.Bits()| <= old(|bs.Bits()|) && bs.eof == old(bs.eof)
      ensures st == MORE ==> state == S_PREFIX
      ensures Leads(st, goal, bs.Bits() + future)
    {
      hide Leads, Structure, ReadTrees, ReadGroups, TreesTied, Between, ValidFront, ValidSelectors, ValidTrees, ValidHead, ValidRefs;
      hide HeadTied, ColumnTied, ListTied, RunTied, TreesReady, InUse, Listing, Bitstream.Valid, Bitstream.Bits;
      ghost var h, refs, v := Head(front, sels, trees), Refs(trees), Values([], front.used, 0, 0);
      ToValues(front, sels, trees);
      TreesFacts(front, sels, trees);
      TreesComplete(front, sels, trees, bs.Bits() + future);
      FrontFits(front, sels, trees);
      InitValues(front);
      CapSelectors(h);
      ToBetween(h, refs, v);
      st := BeginGroup(bs, h, refs, v, goal, future);
    }

    /** Bounds the number of selectors. */
    method CapSelectors(ghost h: Head)
      requires ValidHead(h) && FrontTied(h.front) && Listing(selector, h.selectors) && TreesReady(h.trees)
      requires |h.selectors| == h.front.groups && this !in treeArrays
      modifies this`numSelectors, this`g
      ensures HeadTied(h) && g == 0
    {
      hide ValidHead, TreesReady, HeadTied, Listing;
      if numSelectors > MAX_GROUPS { numSelectors := MAX_GROUPS; }
      g := 0;
      ToHead(h);
    }

    lemma FrontFits(front: Front, sels: seq<nat>, trees: seq<seq<byte>>)
      requires ValidHead(Head(front, sels, trees))
      ensures ValidFront(front) && ValidValues(Head(front, sels, trees), Values([], front.used, 0, 0))
    {
    }

    lemma ToBetween(h: Head, refs: seq<TreeRef>, v: Values)
      requires Structure() && HeadTied(h) && Listing(mtf, refs) && |mtf| == MAX_TREES && ValidRefs(h, refs)
      requires g == 0 && ValidHead(h) && ValidValues(h, v)
      requires ColumnTied(v.column) && ListTied(v.list) && RunTied(v)
      ensures Between(h, refs, v)
    {
      hide Structure, HeadTied, ColumnTied, ListTied, RunTied, ValidHead, ValidRefs, ValidValues, Listing;
    }

    lemma ToValues(front: Front, sels: seq<nat>, trees: seq<seq<byte>>)
      requires TreesTied(front, sels, trees)
      ensures row.Length == NUM_ROWS && ftab.Length == 256 && tt.Length == MAX_BLOCK_SIZE && ftab != row
      ensures (slide as object) != row && (slide as object) != ftab
      ensures InUse(slide[..], |front.used|, front.used) && ValidFront(front) && Listing(mtf, Refs(trees))
      ensures |sels| == front.groups && ValidSelectors(front, sels) && ValidTrees(front, trees)
      ensures FrontTied(front) && Listing(selector, sels) && TreesReady(trees)
    {
      hide InUse, Listing, ValidFront, TreesReady, ValidTrees, ValidSelectors;
    }

    lemma ToHead(h: Head)
      requires ValidHead(h) && rand == h.front.rand && bwtIdx == h.front.idx && alphaSize == |h.front.used| + 2
      requires numTrees == h.front.trees && numSelectors == Bound(h.front.groups)
      requires Listing(selector, h.selectors) && TreesReady(h.trees) && |h.selectors| == h.front.groups
      ensures HeadTied(h)
    {
      hide ValidHead, TreesReady;
      assert h.selectors[..numSelectors] == selector[..numSelectors];
    }

    /** The rows one after another, no run, and no characters. */
    method InitValues(ghost front: Front)
      requires row.Length == NUM_ROWS && ftab.Length == 256 && tt.Length == MAX_BLOCK_SIZE && ftab != row
      requires (slide as object) != row && (slide as object) != ftab
      requires InUse(slide[..], |front.used|, front.used) && ValidFront(front)
      modifies this`list, this`runChar, this`run, this`shift, this`blockSize, row, ftab
      ensures ColumnTied([]) && ListTied(front.used) && RunTied(Values([], front.used, 0, 0))
    {
      list := slide[CMAP_BASE..];
      SetRows();
      FirstRows(row[..], slide[..]);
      FirstList(slide[..], front.used);
      runChar := slide[row[0]];
      run := 0;
      shift := 0;
      blockSize := 0;
      ClearCounts();
    }

    method SetRows()
      requires row.Length == NUM_ROWS
      modifies row
      ensures forall r {:trigger row[r]} :: 0 <= r < NUM_ROWS ==> row[r] == CMAP_BASE + r * ROW_WIDTH
    {
      for i := 0 to NUM_ROWS
        invariant forall r {:trigger row[r]} :: 0 <= r < i ==> row[r] == CMAP_BASE + r * ROW_WIDTH
      {
        row[i] := CMAP_BASE + i * ROW_WIDTH;
      }
    }

    method ClearCounts()
      requires ftab.Length == 256
      modifies ftab
      ensures Tallied(ftab[..], [])
    {
      for c := 0 to 256
        invariant forall x {:trigger ftab[x]} :: 0 <= x < c ==> ftab[x] == 0
      {
        ftab[c] := 0;
      }
    }

    /** Writes out the pending run. */
    method DumpRun(ghost v: Values)
      requires tt.Length == MAX_BLOCK_SIZE && ftab.Length == 256 && (tt as object) != ftab
      requires ColumnTied(v.column) && RunTied(v) && Fits(v)
      modifies this`blockSize, this`run, tt, ftab
      ensures ColumnTied(Dumped(v))
    {
      ghost var c := runChar;
      ghost var n := 0;
      TallyRun(ftab[..], v.column, c, v.run);
      ghost var ftab0 := ftab[..];
      ftab[runChar] := ftab[runChar] + run;
      assert ftab[..] == ftab0[c := ftab0[c] + v.run];
      assert v.column + Repeat(c, 0) == v.column;
      while run > 0
        invariant n + run == v.run && Stored(tt[..], blockSize, v.column + Repeat(c, n))
        invariant Tallied(ftab[..], Dumped(v))
      {
        ghost var before := tt[..];
        StoreOne(before, blockSize, v.column, c, n);
        tt[blockSize] := runChar;
        ghost var x: uint32 := c;
        assert tt[..] == before[blockSize := x];
        blockSize := blockSize + 1;
        run := run - 1;
        n := n + 1;
      }
    }
  
    /** What goes on while the values of a group are read. */
    ghost predicate Going(h: Head, p: Place, v: Values)
      reads this`rand, this`bwtIdx, this`alphaSize, this`numTrees, this`numSelectors, this`selector, treeArrays
      reads this`mtf, this`g, this`t, this`blockSize, this`list, this`runChar, this`run, this`shift, row, slide, tt, ftab
    {
      && Structure() && HeadTied(h) && Listing(mtf, p.refs) && |mtf| == MAX_TREES
      && g == p.group && t == p.tree
      && ValidHead(h) && ValidPlace(h, p) && p.group < Bound(h.front.groups) && ValidValues(h, v)
      && ColumnTied(v.column) && ListTied(v.list) && RunTied(v)
    }

    /** Decodes one symbol with the tree of the group. */
    method DecodeSymbol(bs: Bitstream, ghost h: Head, ghost p: Place, ghost v: Values)
      returns (symbol: nat, ghost s: nat)
      requires Going(h, p, v) && Free(bs) && bs.Valid() && bs.live >= 32
      modifies bs
      ensures bs.Valid() && bs.eof == old(bs.eof) && bs.data == old(bs.data)
      ensures p.tree < |h.trees| && Complete(h.trees[p.tree])
      ensures var lens := h.trees[p.tree]; var b := old(bs.Bits());
        && |lens| == |h.front.used| + 2 && s < |lens| && 1 <= lens[s] <= MAX_CODE_LENGTH
        && symbol == Internal(|lens|, s)
        && Decodes(lens, Val(b[..MAX_CODE_LENGTH]), s) && bs.Bits() == b[lens[s]..] && |b| >= 32
        && bs.live == old(bs.live) - lens[s]
    {
      hide Structure, Going, Decodes, Complete;
      TreeUsable(h, p, v);
      ghost var lens := h.trees[p.tree];
      BufferFinite(bs.buff, bs.held);
      BufferPeek(bs.buff, bs.held, MAX_CODE_LENGTH);
      TopBits();
      assert bs.held[..MAX_CODE_LENGTH] == bs.Bits()[..MAX_CODE_LENGTH];
      var k;
      symbol, k, s := tree[t].Lookup(bs.buff, lens);
      DecodedLength(lens, s, bs.buff / UNIT);
      bs.Dump(k);
    }

    lemma TreeUsable(h: Head, p: Place, v: Values)
      requires Going(h, p, v)
      ensures p.tree < |h.trees| && Complete(h.trees[p.tree]) && t == p.tree < |tree|
      ensures tree[t].Tables(h.trees[p.tree]) && |h.trees[p.tree]| == |h.front.used| + 2
    {
      hide ColumnTied, ListTied, RunTied, Structure;
      assert tree[t] == tree[p.tree];
    }
  
    /** Ends the block. */
    method FinishBlock(bs: Bitstream, ghost h: Head, ghost p: Place, ghost v: Values, ghost goal: Outcome, ghost future: seq<bit>)
      returns (st: Status)
      requires Going(h, p, v) && Free(bs) && bs.Valid() && goal == Finish(h.front, v, bs.Bits() + future)
      modifies this`blockSize, this`run, tt, ftab
      ensures st != MORE && Leads(st, goal, bs.Bits() + future)
    {
      hide Leads, HeadTied, ListTied, ColumnTied, ValidHead, ValidPlace, Structure;
      ValuesApart();
      ColumnSize(v.column);
      if run > MAX_BLOCK_SIZE - blockSize {
        StopFailing(ERR_OVERFLOW, goal, bs.Bits() + future);
        return ERR_OVERFLOW;
      }
      FrontKnown(h, p, v);
      DumpRun(v);
      ColumnSize(Dumped(v));
      if blockSize == 0 {
        StopFailing(ERR_EMPTY, goal, bs.Bits() + future);
        return ERR_EMPTY;
      }
      if bwtIdx >= blockSize {
        StopFailing(ERR_BWTIDX, goal, bs.Bits() + future);
        return ERR_BWTIDX;
      }
      StopFinished(Dumped(v), goal, bs.Bits() + future);
      st := OK;
    }

    lemma FrontKnown(h: Head, p: Place, v: Values)
      requires Going(h, p, v)
      ensures rand == h.front.rand && bwtIdx == h.front.idx && v.list != []
    {
    }

    lemma StopFinished(column: seq<byte>, goal: Outcome, b: seq<bit>)
      requires Structure() && ColumnTied(column) && bwtIdx < blockSize <= MAX_BLOCK_SIZE
      requires goal == Reads(rand, bwtIdx, column, b)
      ensures Leads(OK, goal, b)
    {
      hide Structure;
    }

    lemma ColumnSize(column: seq<byte>)
      requires ColumnTied(column)
      ensures blockSize == |column|
    {
    }

    /** One more digit of the run. */
    method CountDigit(symbol: nat, ghost h: Head, ghost p: Place, ghost v: Values) returns (ghost v': Values)
      requires Going(h, p, v) && RUN_A <= symbol <= RUN_B && run <= MAX_BLOCK_SIZE && p.index < GROUP_SIZE
      modifies this`run, this`shift
      ensures v' == v.(run := v.run + (symbol - 256) * Pow2(v.shift), shift := v.shift + 1)
      ensures Going(h, p.(index := p.index + 1), v')
    {
      hide HeadTied, ListTied, ColumnTied, ValidHead;
      DigitFits(run, shift, symbol - 256);
      run := run + (symbol - 256) * Pow2(shift);
      shift := shift + 1;
      v' := v.(run := v.run + (symbol - 256) * Pow2(v.shift), shift := v.shift + 1);
    }

    /** Writes the pending run and moves element `c` to the front. */
    method NextCharacter(c: byte, ghost h: Head, ghost p: Place, ghost v: Values) returns (ghost v': Values)
      requires Going(h, p, v) && 1 <= c as int < |v.list| && Fits(v) && p.index < GROUP_SIZE
      modifies this`blockSize, this`list, this`runChar, this`run, this`shift, row, slide, tt, ftab
      ensures v' == Values(Dumped(v), ToFront(v.list, c), 1, 0)
      ensures Going(h, p.(index := p.index + 1), v')
    {
      hide HeadTied, ValidHead, ColumnTied, ListTied, Holds, ValidRefs, Complete, Listing;
      ValuesApart();
      DumpRun(v);
      MoveFront(c, v.list);
      shift := 0;
      run := 1;
      v' := Values(Dumped(v), ToFront(v.list, c), 1, 0);
      assert Pow2(0) == 1;
    }

    lemma ValuesApart()
      requires Structure()
      ensures tt.Length == MAX_BLOCK_SIZE && ftab.Length == 256 && (tt as object) != ftab
      ensures (tt as object) != row && (tt as object) != slide && ftab != row && (ftab as object) != slide
      ensures tt !in treeArrays && ftab !in treeArrays && row !in treeArrays && slide !in treeArrays
    {
    }

    method MoveFront(c: byte, ghost l: seq<byte>)
      requires ListTied(l) && 1 <= c as int < |l| && (slide as object) != row
      modifies this`list, this`runChar, row, slide
      ensures ListTied(ToFront(l, c)) && runChar == ToFront(l, c)[0]
    {
      hide Holds;
      runChar := MtfOne(row, slide, c, list);
      FrontOf(list, l, c);
      list := ToFront(list, c);
    }
  
    /** Handles one value. */
    method OneValue(bs: Bitstream, ghost h: Head, ghost p: Place, ghost v: Values, ghost goal: Outcome, ghost future: seq<bit>)
      returns (st: Status, ghost v': Values)
      requires Going(h, p, v) && Free(bs) && bs.Valid() && bs.live >= 32 && p.index < GROUP_SIZE
      requires goal == ReadValues(h, p, v, bs.Bits() + future)
      modifies bs, this`blockSize, this`list, this`runChar, this`run, this`shift, row, slide, tt, ftab
      ensures bs.Valid() && bs.eof == old(bs.eof) && bs.data == old(bs.data) && |bs.Bits()| < old(|bs.Bits()|)
      ensures bs.live >= old(bs.live) - MAX_CODE_LENGTH
      ensures st == MORE ==> Going(h, p.(index := p.index + 1), v')
      ensures st == MORE ==> goal == ReadValues(h, p.(index := p.index + 1), v', bs.Bits() + future)
      ensures st != MORE ==> Leads(st, goal, bs.Bits() + future)
    {
      hide Leads, Structure, Going, ReadValues, Value, Complete, Decodes, Finish, ValidHead, ValidPlace;
      GoingValid(h, p, v);
      v' := v;
      ghost var x := bs.Bits();
      var symbol; ghost var s;
      symbol, s := DecodeSymbol(bs, h, p, v);
      ValueMeaning(h, p, v, s, x, future);
      if symbol == EOB {
        st := FinishBlock(bs, h, p, v, goal, future);
        return;
      }
      if symbol >= 256 && run <= MAX_BLOCK_SIZE {
        v' := CountDigit(symbol, h, p, v);
      } else {
        if run > MAX_BLOCK_SIZE - blockSize {
          StopFailing(ERR_OVERFLOW, goal, bs.Bits() + future);
          return ERR_OVERFLOW, v;
        }
        v' := NextCharacter(symbol, h, p, v);
      }
      st := MORE;
    }

    lemma GoingValid(h: Head, p: Place, v: Values)
      requires Going(h, p, v)
      ensures Structure() && ValidHead(h) && ValidPlace(h, p) && p.group < Bound(h.front.groups) && ValidValues(h, v)
      ensures run as int == v.run && blockSize == |v.column| <= MAX_BLOCK_SIZE && |h.front.used| <= 256
    {
      hide ValidPlace, HeadTied, ListTied, Structure;
    }
  
    // ----- groups -----

    /** Moves tree `i` of the list of trees to its front. */
    method MoveTree(i: nat, ghost refs: seq<TreeRef>)
      requires Listing(mtf, refs) && i < |refs| && |mtf| == MAX_TREES
      modifies this`mtf
      ensures Listing(mtf, RefToFront(refs, i)) && |mtf| == MAX_TREES
    {
      var t, k := mtf[i], i;
      ghost var m := mtf;
      while k > 0
        invariant k <= i && |mtf| == MAX_TREES
        invariant forall x {:trigger mtf[x]} :: 0 <= x < MAX_TREES ==> mtf[x] == if k < x <= i then m[x - 1] else m[x]
      {
        mtf := mtf[k := mtf[k - 1]];
        k := k - 1;
      }
      mtf := mtf[0 := t];
    }

    /** Among the values, with the bits `b` to come. */
    ghost predicate Ongoing(h: Head, p: Place, v: Values, goal: Outcome, b: seq<bit>)
      reads this`rand, this`bwtIdx, this`alphaSize, this`numTrees, this`numSelectors, this`selector, treeArrays
      reads this`mtf, this`g, this`t, this`blockSize, this`list, this`runChar, this`run, this`shift, row, slide, tt, ftab
    {
      Going(h, p, v) && goal == ReadValues(h, p, v, b)
    }

    method FastValue(bs: Bitstream, ghost h: Head, ghost p: Place, ghost v: Values, ghost goal: Outcome, ghost future: seq<bit>)
      returns (st: Status, ghost v': Values)
      requires Ongoing(h, p, v, goal, bs.Bits() + future)
      requires Free(bs) && bs.Valid() && (bs.live >= 32 || bs.data != []) && p.index < GROUP_SIZE
      modifies bs, this`blockSize, this`list, this`runChar, this`run, this`shift, row, slide, tt, ftab
      ensures bs.Valid() && bs.eof == old(bs.eof) && |bs.Bits()| < old(|bs.Bits()|)
      ensures |bs.data| == old(|bs.data|) - (if old(bs.live) < 32 then 1 else 0)
      ensures bs.live + MAX_CODE_LENGTH >= old(bs.live) + (if old(bs.live) < 32 then 32 else 0)
      ensures st == MORE ==> Ongoing(h, p.(index := p.index + 1), v', goal, bs.Bits() + future)
      ensures st != MORE ==> Leads(st, goal, bs.Bits() + future)
    {
      hide Leads, Going, ReadValues, Structure, ValidHead, ValidPlace;
      GoingValid(h, p, v);
      bs.NeedFast();
      st, v' := OneValue(bs, h, p, v, goal, future);
      if st == MORE { GoingValid(h, p.(index := p.index + 1), v'); }
    }

    /** Reads a whole group from words that are all there: 32 of them at most. */
    method GroupFast(bs: Bitstream, ghost h: Head, ghost p0: Place, ghost v0: Values, ghost goal: Outcome, ghost future: seq<bit>)
      returns (st: Status, ghost v: Values)
      requires Ongoing(h, p0, v0, goal, bs.Bits() + future)
      requires Free(bs) && bs.Valid() && |bs.data| >= 32 && p0.index == 0
      modifies bs, this`blockSize, this`list, this`runChar, this`run, this`shift, row, slide, tt, ftab
      ensures bs.Valid() && bs.eof == old(bs.eof) && |bs.Bits()| < old(|bs.Bits()|)
      ensures old(|bs.data|) - 32 <= |bs.data| <= old(|bs.data|)
      ensures st == MORE ==> Ongoing(h, p0.(index := GROUP_SIZE), v, goal, bs.Bits() + future)
      ensures st != MORE ==> Leads(st, goal, bs.Bits() + future)
    {
      hide Leads, Ongoing, Bitstream.Valid, Bitstream.Bits;
      v := v0;
      ghost var p, words := p0, |bs.data|;
      ghost var read: nat := 0;
      ghost var size := |bs.Bits()|;
      for i := 0 to GROUP_SIZE
        invariant p == p0.(index := i) && Ongoing(h, p, v, goal, bs.Bits() + future) && bs.Valid() && bs.eof == old(bs.eof)
        invariant read == words - |bs.data| && 32 * read <= bs.live + 20 * i && (read > 0 ==> 32 * read < 44 + 20 * i)
        invariant i > 0 ==> |bs.Bits()| < size
        invariant i == 0 ==> |bs.Bits()| == size
      {
        st, v := FastValue(bs, h, p, v, goal, future);
        read := words - |bs.data|;
        if st != MORE { return; }
        p := p.(index := i + 1);
      }
      st := MORE;
    }

    /** Between groups. */
    ghost predicate Between(h: Head, refs: seq<TreeRef>, v: Values)
      reads this`rand, this`bwtIdx, this`alphaSize, this`numTrees, this`numSelectors, this`selector, treeArrays
      reads this`mtf, this`g, this`blockSize, this`list, this`runChar, this`run, this`shift, row, slide, tt, ftab
    {
      && Structure() && HeadTied(h) && Listing(mtf, refs) && |mtf| == MAX_TREES && ValidRefs(h, refs)
      && g <= Bound(h.front.groups) && ValidHead(h) && ValidValues(h, v)
      && ColumnTied(v.column) && ListTied(v.list) && RunTied(v)
    }

    lemma GroupStarts(h: Head, refs: seq<TreeRef>, v: Values, b: seq<bit>)
      requires Between(h, refs, v)
      ensures Structure() && ValidHead(h) && ValidRefs(h, refs) && ValidValues(h, v) && g <= Bound(h.front.groups)
      ensures numSelectors == Bound(h.front.groups) <= |selector|
      ensures g == numSelectors ==> ReadGroups(h, g, refs, v, b) == Fails(ERR_UNTERM)
      ensures g < numSelectors ==>
        && h.selectors[g] == selector[g] < |refs| && selector[g] < |mtf| && mtf[selector[g]] == refs[selector[g]]
        && var r := refs[selector[g]];
           if r.Rejected? then r.status != OK && r.status != MORE && ReadGroups(h, g, refs, v, b) == Fails(r.status)
           else
             var p := Place(g, RefToFront(refs, selector[g]), r.tree, 0);
             ValidPlace(h, p) && ReadGroups(h, g, refs, v, b) == ReadValues(h, p, v, b)
    {
      hide Structure, ColumnTied, ListTied, RunTied, TreesReady, ReadValues;
      if g < numSelectors {
        var i := selector[g];
        assert h.selectors[..numSelectors][g] == selector[g];
        assert h.selectors[g] < h.front.trees;
        assert ValidRef(h.trees, refs[i]);
        RefsMoved(h, refs, i);
      }
    }

    /** Turns to the tree of the group. */
    method ChooseTree(i: nat, ghost h: Head, ghost refs: seq<TreeRef>, ghost v: Values) returns (ghost p: Place)
      requires Between(h, refs, v) && g < numSelectors && i < |mtf| && i < |refs| && mtf[i].Good?
      requires this !in treeArrays && refs[i] == mtf[i] && numSelectors == Bound(h.front.groups)
      requires ValidPlace(h, Place(g, RefToFront(refs, i), refs[i].tree, 0))
      modifies this`t, this`mtf
      ensures p == Place(g, RefToFront(refs, i), refs[i].tree, 0) && Going(h, p, v) && |mtf| == MAX_TREES
    {
      hide Structure, HeadTied, ColumnTied, ListTied, RunTied, ValidHead, ValidRefs, Listing, ValidPlace;
      t := mtf[i].tree;
      MoveTree(i, refs);
      p := Place(g, RefToFront(refs, i), t, 0);
    }

    method EndGroup(ghost h: Head, ghost p: Place, ghost v: Values, ghost goal: Outcome, ghost b: seq<bit>)
      requires Going(h, p, v) && p.index == GROUP_SIZE && goal == ReadValues(h, p, v, b) && this !in treeArrays
      modifies this`g
      ensures g == old(g) + 1 && Between(h, p.refs, v) && ValidHead(h) && ValidRefs(h, p.refs) && ValidValues(h, v)
      ensures g <= numSelectors == Bound(h.front.groups) && goal == ReadGroups(h, g, p.refs, v, b)
    {
      hide Structure, ColumnTied, ListTied, RunTied, ValidHead, ValidRefs, Listing, ReadGroups, TreesReady;
      g := g + 1;
    }

    lemma StopInValues(goal: Outcome, b: seq<bit>)
      requires progress.InValues? && state == S_PREFIX && Sizes() && progress.place.index < GROUP_SIZE
      requires Going(progress.head, progress.place, progress.values) && j == progress.place.index
      requires goal == ReadValues(progress.head, progress.place, progress.values, b)
      ensures Leads(MORE, goal, b)
    {
      hide Structure, HeadTied, ColumnTied, ListTied, RunTied, ValidHead, ValidPlace, Listing, ReadValues;
    }

    lemma OpenValues(b: seq<bit>)
      requires Valid() && progress.InValues?
      ensures Sizes() && progress.place.index < GROUP_SIZE && j == progress.place.index && state == S_PREFIX
      ensures Going(progress.head, progress.place, progress.values)
      ensures Meaning(progress, b) == ReadValues(progress.head, progress.place, progress.values, b)
    {
      hide Structure, HeadTied, ColumnTied, ListTied, RunTied, ValidHead, ValidPlace, Listing, ReadValues;
    }

    method StepValue(bs: Bitstream, ghost goal: Outcome, ghost future: seq<bit>) returns (st: Status)
      requires Valid() && Free(bs) && bs.Valid() && bs.live >= 32 && progress.InValues?
      requires goal == Meaning(progress, bs.Bits() + future)
      modifies this, bs, row, slide, tt, ftab
      ensures bs.Valid() && bs.eof == old(bs.eof) && |bs.Bits()| < old(|bs.Bits()|)
      ensures Leads(st, goal, bs.Bits() + future)
    {
      hide Leads, Between, Going, ReadGroups, ReadValues, Structure, ValidHead, ValidRefs, ValidPlace, Tied, Meaning;
      OpenValues(bs.Bits() + future);
      ghost var h, p, v := progress.head, progress.place, progress.values;
      st, v := OneValue(bs, h, p, v, goal, future);
      if st != MORE { return; }
      p := p.(index := p.index + 1);
      j := j + 1;
      if j < GROUP_SIZE {
        progress := InValues(h, p, v);
        StopInValues(goal, bs.Bits() + future);
      } else {
        EndGroup(h, p, v, goal, bs.Bits() + future);
        st := BeginGroup(bs, h, p.refs, v, goal, future);
      }
    }

    method StopForInput(ghost h: Head, ghost p: Place, ghost v: Values, ghost goal: Outcome, ghost b: seq<bit>)
      requires Going(h, p, v) && p.index == 0 && goal == ReadValues(h, p, v, b) && Sizes() && this !in treeArrays
      modifies this`j, this`state, this`progress
      ensures state == S_PREFIX && Leads(MORE, goal, b)
    {
      hide Leads, Going, ReadValues;
      j := 0;
      state := S_PREFIX;
      progress := InValues(h, p, v);
      StopInValues(goal, b);
    }

    /** Reads groups until input or the block runs out. */
    method BeginGroup(bs: Bitstream, ghost h: Head, ghost refs0: seq<TreeRef>, ghost v0: Values, ghost goal: Outcome, ghost future: seq<bit>)
      returns (st: Status)
      requires Between(h, refs0, v0) && Sizes() && Free(bs) && bs.Valid()
      requires goal == ReadGroups(h, g, refs0, v0, bs.Bits() + future)
      modifies this, bs, row, slide, tt, ftab
      ensures bs.Valid() && bs.eof == old(bs.eof) && |bs.Bits()| <= old(|bs.Bits()|)
      ensures st == MORE ==> state == S_PREFIX
      ensures Leads(st, goal, bs.Bits() + future)
    {
      hide Leads, Between, Going, ReadGroups, ReadValues, Structure, ValidHead, ValidRefs, ValidPlace, Bitstream.Valid, Bitstream.Bits;
      ghost var refs, v := refs0, v0;
      GroupStarts(h, refs, v, bs.Bits() + future);
      while true
        invariant Between(h, refs, v) && Sizes() && bs.Valid() && bs.eof == old(bs.eof)
        invariant |bs.Bits()| <= old(|bs.Bits()|) && g <= numSelectors == Bound(h.front.groups)
        invariant ValidHead(h) && ValidRefs(h, refs) && ValidValues(h, v)
        invariant goal == ReadGroups(h, g, refs, v, bs.Bits() + future)
        decreases numSelectors - g
      {
        GroupStarts(h, refs, v, bs.Bits() + future);
        if g == numSelectors {
          StopFailing(ERR_UNTERM, goal, bs.Bits() + future);
          return ERR_UNTERM;
        }
        var i := selector[g];
        if mtf[i].Rejected? {
          st := mtf[i].status;
          StopFailing(st, goal, bs.Bits() + future);
          return;
        }
        ghost var p := ChooseTree(i, h, refs, v);
        if |bs.data| >= 32 {
          st, v := GroupFast(bs, h, p, v, goal, future);
          if st != MORE { return; }
          refs := p.refs;
          EndGroup(h, p.(index := GROUP_SIZE), v, goal, bs.Bits() + future);
        } else {
          StopForInput(h, p, v, goal, bs.Bits() + future);
          return MORE;
        }
      }
    }
  
    // ----- the automaton -----

    static method NewTrees() returns (trees: seq<Tree>, ghost arrays: set<object>)
      ensures |trees| == MAX_TREES && fresh(arrays)
      ensures forall i {:trigger trees[i]} :: 0 <= i < MAX_TREES ==> trees[i].Shaped() && trees[i].Arrays() <= arrays
      ensures forall i, k {:trigger trees[i], trees[k]} :: 0 <= i < k < MAX_TREES ==> trees[i].Arrays() !! trees[k].Arrays()
    {
      trees, arrays := [], {};
      while |trees| < MAX_TREES
        invariant |trees| <= MAX_TREES && fresh(arrays)
        invariant forall i {:trigger trees[i]} :: 0 <= i < |trees| ==> trees[i].Shaped() && trees[i].Arrays() <= arrays
        invariant forall i, k {:trigger trees[i], trees[k]} :: 0 <= i < k < |trees| ==> trees[i].Arrays() !! trees[k].Arrays()
      {
        var t := new Tree();
        ghost var before := trees;
        trees := trees + [t];
        assert forall i {:trigger before[i]} :: 0 <= i < |before| ==> trees[i] == before[i];
        assert trees[|before|] == t;
        arrays := arrays + t.Arrays();
      }
    }

    constructor ()
      ensures progress == AtStart && fresh(treeArrays) && fresh(row) && fresh(slide) && fresh(tt) && fresh(ftab)
      ensures this !in treeArrays && {tt as object, ftab, row, slide} !! treeArrays
      ensures Valid()
    {
      state, progress := S_INIT, AtStart;
      rand, bwtIdx, blockSize, numTrees, numSelectors, alphaSize := false, 0, 0, 0, 0, 0;
      big, small, j, t, g, runChar, run, shift, list := 0, 0, 0, 0, 0, 0, 0, 0, [];
      selector, codeLen := Repeat(0, MAX_SELECTORS), Repeat(0, MAX_ALPHA_SIZE);
      mtf := Repeat(Good(0), MAX_TREES);
      var trees;
      ghost var arrays;
      trees, arrays := NewTrees();
      tree, treeArrays := trees, arrays;
      ftab := new nat[256](_ => 0);
      tt := new uint32[MAX_BLOCK_SIZE](_ => 0);
      row := new nat[NUM_ROWS](_ => 0);
      slide := new byte[SLIDE_LENGTH](_ => 0);
    }

    lemma StateShape()
      requires Valid()
      ensures state == S_INIT || state == S_BWT_IDX <==> progress == AtStart
      ensures state == S_BITMAP_BIG <==> progress.AtBitmap?
      ensures state == S_BITMAP_SMALL <==> progress.InRow?
      ensures state == S_SELECTOR_MTF <==> progress.InSelectors?
      ensures state == S_DELTA_TAG <==> progress.InLengths?
      ensures state == S_PREFIX <==> progress.InValues?
      ensures Structure() && ValidProgress(progress)
    {
      hide Structure;
    }

    /** Runs from where the automaton stands. */
    method Step(bs: Bitstream, ghost goal: Outcome, ghost future: seq<bit>) returns (st: Status)
      requires Valid() && Free(bs) && bs.Valid() && bs.live >= 32
      requires goal == Meaning(progress, bs.Bits() + future)
      modifies this, bs, row, slide, tt, ftab, treeArrays
      ensures bs.Valid() && bs.eof == old(bs.eof) && |bs.Bits()| <= old(|bs.Bits()|)
      ensures st == MORE ==> |bs.Bits()| < old(|bs.Bits()|) || (state == S_PREFIX && old(state) != S_PREFIX)
      ensures Leads(st, goal, bs.Bits() + future)
    {
      StateShape();
      hide Leads, Valid, Meaning, Structure;
      match state
      case S_INIT => st := StepStart(bs, goal, future);
      case S_BWT_IDX => st := StepStart(bs, goal, future);
      case S_BITMAP_BIG => st := StepBitmap(bs, goal, future);
      case S_BITMAP_SMALL => st := StepRow(bs, goal, future);
      case S_SELECTOR_MTF => st := StepSelector(bs, goal, future);
      case S_DELTA_TAG => st := StepLength(bs, goal, future);
      case S_PREFIX => st := StepValue(bs, goal, future);
    }

    lemma LeadsOn(goal: Outcome, b: seq<bit>)
      requires Leads(MORE, goal, b)
      ensures Valid() && Meaning(progress, b) == goal
    {
    }

    /** Asks for 32 bits, and remembers where it was if there is no input for them. */
    method Await(bs: Bitstream, ghost goal: Outcome, ghost future: seq<bit>) returns (ok: bool)
      requires Valid() && Free(bs) && bs.Valid() && (bs.eof ==> future == [])
      requires Meaning(progress, bs.Bits() + future) == goal
      modifies this`state, bs
      ensures bs.Valid() && bs.eof == old(bs.eof) && bs.Bits() == old(bs.Bits())
      ensures ok ==> bs.live >= 32 && state == old(state) && Valid() && Meaning(progress, bs.Bits() + future) == goal
      ensures !ok ==> bs.data == [] && bs.live < 32
      ensures !ok ==> Leads(if bs.eof then ERR_EOF else MORE, goal, bs.Bits() + future)
    {
      hide Meaning, Structure, ValidProgress, InUse, Register, Listing, TreesReady, FrontTied, ValuesTied;
      ok := bs.Need();
      if !ok {
        if bs.eof {
          NothingBefore(bs.held);
          TooShort(progress, bs.Bits() + future);
          StopFailing(ERR_EOF, goal, bs.Bits() + future);
        } else if state == S_INIT {
          state := S_BWT_IDX;
        }
      }
    }

    /** Reads as much of the block as there is input for.  What the bits mean, with those
        still to come, does not change when it stops for more; otherwise its result is
        what they mean. */
    method Retrieve(bs: Bitstream, ghost future: seq<bit>) returns (rv: Status)
      requires Valid() && Free(bs) && bs.Valid() && (bs.eof ==> future == [])
      modifies this, bs, row, slide, tt, ftab, treeArrays
      ensures bs.Valid() && bs.eof == old(bs.eof)
      ensures rv == MORE ==> !bs.eof && bs.data == [] && bs.live < 32
      ensures Leads(rv, old(Meaning(progress, bs.Bits() + future)), bs.Bits() + future)
    {
      hide Tied, Leads, Meaning, Structure;
      ghost var goal := Meaning(progress, bs.Bits() + future);
      while true
        invariant Valid() && bs.Valid() && bs.eof == old(bs.eof)
        invariant Meaning(progress, bs.Bits() + future) == goal
        decreases |bs.Bits()|, if state == S_PREFIX then 0 else 1
      {
        var ok := Await(bs, goal, future);
        if !ok {
          rv := if bs.eof then ERR_EOF else MORE;
          return;
        }
        rv := Step(bs, goal, future);
        if rv != MORE { return; }
        LeadsOn(goal, bs.Bits() + future);
      }
    }
  }

  // ----- what the registers and buffers hold -----

  /** The used characters found so far are at the end of the pool. */
  ghost predicate InUse(slide: seq<byte>, n: nat, used: seq<byte>) {
    && |slide| == SLIDE_LENGTH && n == |used| <= 256
    && forall i {:trigger used[i]} :: 0 <= i < n ==> slide[CMAP_BASE + i] == used[i]
  }

  /** The 16-bit register starts with `b`. */
  ghost predicate Register(x: nat, b: seq<bit>) {
    x < 0x1_0000 && |b| <= 16 && b == ToBits(x, 16)[..|b|]
  }

  ghost predicate Listing<T(!new)>(a: seq<T>, l: seq<T>) {
    |l| <= |a| && l == a[..|l|]
  }

  /** The first `n` cells hold the characters. */
  ghost predicate Stored(tt: seq<uint32>, n: nat, column: seq<byte>) {
    && n == |column| <= |tt|
    && forall i {:trigger tt[i]} :: 0 <= i < n ==> tt[i] == column[i]
  }

  ghost predicate Tallied(ftab: seq<nat>, column: seq<byte>) {
    |ftab| == 256 && forall c {:trigger ftab[c]} :: 0 <= c < 256 ==> ftab[c] == Count(column, c)
  }

  lemma StartMeaning(x: seq<bit>, future: seq<bit>)
    requires |x| >= 32
    ensures ReadBlock(x + future)
      == ReadBitmap(Val(x[..1]) == 1, Val(x[1..][..24]), x[1..][24..] + future)
  {
    var b := x + future;
    assert b[1..25] == x[1..][..24] && b[25..] == x[1..][24..] + future;
    assert x[..1] == [x[0]] && [x[0]][..0] == [];
    hide ReadBitmap;
  }

  lemma BitmapMeaning(rand: bool, idx: nat, x: seq<bit>, future: seq<bit>)
    requires |x| >= 32
    ensures ReadBitmap(rand, idx, x + future) == ReadRows(rand, idx, [], x[..16], x[16..] + future)
  {
    var b := x + future;
    assert b[..16] == x[..16] && b[16..] == x[16..] + future;
    hide ReadRows;
  }

  lemma RegisterOf(x: nat, b: seq<bit>)
    requires |b| == 16 && x == Val(b)
    ensures Register(x, b)
  {
    Pow2Constants();
    ToBitsVal(b);
    assert b[..16] == b;
  }

  /** The first bit, and the register without it. */
  lemma RegisterHead(x: nat, b: seq<bit>)
    requires Register(x, b) && b != []
    ensures x / 0x8000 == b[0] && Register(2 * x % 0x1_0000, b[1..])
  {
    RegisterPowers();
    ToBitsHead(x, 16);
    var a := ToBits(x, 16);
    assert (a[1..] + [0])[..|b| - 1] == a[..|b|][1..];
  }

  lemma RegisterPowers()
    ensures Pow2(16) == 0x1_0000 && Pow2(15) == 0x8000
  {
    Pow2Constants();
    assert Pow2(16) == 2 * Pow2(15);
  }

  lemma RegisterShift(x: nat, b: seq<bit>, n: nat)
    requires x < 0x1_0000 && |b| == 16 && n < 16 && ToBits(x, 16) == b[n..] + Repeat<bit>(0, n)
    ensures x / 0x8000 == b[n] && ToBits(2 * x % 0x1_0000, 16) == b[n + 1..] + Repeat<bit>(0, n + 1)
  {
    RegisterPowers();
    ToBitsHead(x, 16);
    RepeatSplit<bit>(0, n, 1);
    assert (b[n..] + Repeat<bit>(0, n))[1..] + [0] == b[n + 1..] + Repeat<bit>(0, n + 1);
  }

  lemma RegisterEmpty(x: nat)
    requires x < 0x1_0000 && ToBits(x, 16) == Repeat<bit>(0, 16)
    ensures x == 0
  {
    RegisterPowers();
    ValToBits(x, 16);
    ZeroVal(16);
  }

  lemma {:induction false} ZeroVal(n: nat)
    ensures Val(Repeat<bit>(0, n)) == 0
    decreases n
  {
    if n > 0 {
      ZeroVal(n - 1);
      var z: seq<bit> := Repeat<bit>(0, n);
      assert z[..n - 1] == Repeat<bit>(0, n - 1);
    }
  }

  lemma {:induction false} ZeroBits(n: nat)
    ensures ToBits(0, n) == Repeat<bit>(0, n)
    decreases n
  {
    if n > 0 {
      ZeroBits(n - 1);
      RepeatSplit<bit>(0, n - 1, 1);
    }
  }

  lemma RowsMeaning(rand: bool, idx: nat, used: seq<byte>, big: seq<bit>, x: seq<bit>, future: seq<bit>)
    requires |used| + 16 * |big| <= 256 && big != [] && |x| >= 16
    ensures ReadRows(rand, idx, used, big, x + future) ==
      if big[0] == 1 then EndRow(rand, idx, used, big, x[..16], x[16..] + future)
      else ReadRows(rand, idx, used, big[1..], x + future)
  {
    var b := x + future;
    assert b[..16] == x[..16] && b[16..] == x[16..] + future;
    hide EndRow;
  }

  lemma NoMarks(j: nat)
    requires j + 16 <= 256
    ensures |ToBits(0, 16)| == 16 && Register(0, ToBits(0, 16)) && Marked(j, ToBits(0, 16)) == []
  {
    ZeroBits(16);
    NoneMarked(j, 16);
    assert ToBits(0, 16)[..16] == ToBits(0, 16);
  }

  lemma {:induction false} NoneMarked(j: nat, n: nat)
    requires j + n <= 256
    ensures Marked(j, Repeat<bit>(0, n)) == []
    decreases n
  {
    if n > 0 { NoneMarked(j + 1, n - 1); }
  }

  // ----- the rows of the character map -----

  /** At the start of a row. */
  ghost predicate RowsAt(slide: seq<byte>, n: nat, j: nat, small: nat, big: nat, used: seq<byte>, bigBits: seq<bit>) {
    && InUse(slide, n, used) && Register(big, bigBits) && small == 0
    && j == 256 - 16 * |bigBits| && |used| + 16 * |bigBits| <= 256
  }

  lemma RowsStart(slide: seq<byte>, big: nat, bigBits: seq<bit>)
    requires |bigBits| == 16 && big == Val(bigBits) && |slide| == SLIDE_LENGTH
    ensures RowsAt(slide, 0, 0, 0, big, [], bigBits)
  {
    RegisterOf(big, bigBits);
  }

  lemma RowsFacts(slide: seq<byte>, n: nat, j: nat, small: nat, big: nat, used: seq<byte>, bigBits: seq<bit>)
    requires RowsAt(slide, n, j, small, big, used, bigBits)
    ensures InUse(slide, n, used) && n == |used| && small == 0 && |slide| == SLIDE_LENGTH
    ensures j == 256 - 16 * |bigBits| && |used| + 16 * |bigBits| <= 256
  {
  }

  lemma RowsHead(slide: seq<byte>, n: nat, j: nat, small: nat, big: nat, used: seq<byte>, bigBits: seq<bit>)
    requires RowsAt(slide, n, j, small, big, used, bigBits) && j < 256
    ensures InUse(slide, n, used) && small == 0 && bigBits != [] && |used| <= j && |slide| == SLIDE_LENGTH
    ensures Register(big, bigBits) && big / 0x8000 == bigBits[0]
    ensures Register(2 * big % 0x1_0000, bigBits[1..])
  {
    RegisterHead(big, bigBits);
  }

  lemma RowsNext(slide: seq<byte>, n: nat, j: nat, small: nat, big: nat, used: seq<byte>, bigBits: seq<bit>)
    requires InUse(slide, n, used) && Register(big, bigBits) && small == 0
    requires j == 256 - 16 * |bigBits| && |used| + 16 * |bigBits| <= 256
    ensures RowsAt(slide, n, j, small, big, used, bigBits)
  {
  }

  lemma RowsDone(rand: bool, idx: nat, used: seq<byte>, bigBits: seq<bit>, b: seq<bit>)
    requires bigBits == [] && |used| <= 256
    ensures ReadRows(rand, idx, used, bigBits, b) == ReadCounts(rand, idx, used, b)
  {
    hide ReadCounts;
  }

  /** `n` characters of a row have been looked at. */
  ghost predicate Marking(slide: seq<byte>, found: nat, j: nat, small: nat, used: seq<byte>, j0: nat, bits: seq<bit>, n: nat) {
    && |bits| == 16 && n <= 16 && j == j0 + n && j0 + 16 <= 256 && |used| <= j0
    && small < 0x1_0000 && ToBits(small, 16) == bits[n..] + Repeat<bit>(0, n)
    && InUse(slide, found, used + Marked(j0, bits[..n]))
  }

  lemma MarkStart(slide: seq<byte>, found: nat, j: nat, small: nat, used: seq<byte>, bits: seq<bit>)
    requires InUse(slide, found, used) && |bits| == 16 && Register(small, bits) && j + 16 <= 256 && |used| <= j
    ensures Marking(slide, found, j, small, used, j, bits, 0)
  {
    hide ToBits;
    assert bits[0..] + Repeat<bit>(0, 0) == bits == ToBits(small, 16)[..16];
    assert used + Marked(j, bits[..0]) == used;
  }

  lemma MarkStep(slide: seq<byte>, found: nat, j: nat, small: nat, used: seq<byte>, j0: nat, bits: seq<bit>, n: nat)
    requires Marking(slide, found, j, small, used, j0, bits, n) && n < 16
    ensures CMAP_BASE + found < |slide| && j < 256
    ensures var c: byte := j;
      Marking(slide[CMAP_BASE + found := c], found + small / 0x8000, j + 1, 2 * small % 0x1_0000, used, j0, bits, n + 1)
  {
    RegisterShift(small, bits, n);
    hide ToBits, InUse, Marked;
    MarkSlot(slide, found, used, j0, bits, n);
    var c: byte := j;
    assert small / 0x8000 == bits[n];
  }

  lemma MarkSlot(slide: seq<byte>, found: nat, used: seq<byte>, j0: nat, bits: seq<bit>, n: nat)
    requires |bits| == 16 && n < 16 && j0 + 16 <= 256 && |used| <= j0
    requires InUse(slide, found, used + Marked(j0, bits[..n]))
    ensures CMAP_BASE + found < |slide|
    ensures var c: byte := j0 + n;
      InUse(slide[CMAP_BASE + found := c], found + bits[n], used + Marked(j0, bits[..n + 1]))
  {
    var c: byte := j0 + n;
    assert bits[..n + 1] == bits[..n] + [bits[n]];
    BlockBits.MarkedSplit(j0, bits[..n], [bits[n]]);
    MarkedOne(j0 + n, bits[n]);
    hide Marked;
    var before, one := used + Marked(j0, bits[..n]), if bits[n] == 1 then [c] else [];
    Regrouped(used, Marked(j0, bits[..n]), one);
    assert used + Marked(j0, bits[..n + 1]) == before + one;
  }

  lemma MarkedOne(c: byte, x: bit)
    ensures Marked(c, [x]) == if x == 1 then [c] else []
  {
  }

  lemma MarkEnd(slide: seq<byte>, found: nat, j: nat, small: nat, used: seq<byte>, j0: nat, bits: seq<bit>)
    requires Marking(slide, found, j, small, used, j0, bits, 16)
    ensures small == 0 && InUse(slide, found, used + Marked(j0, bits))
  {
    assert bits[..16] == bits && bits[16..] + Repeat<bit>(0, 16) == Repeat<bit>(0, 16);
    RegisterEmpty(small);
  }

  lemma RowMeaning(rand: bool, idx: nat, used: seq<byte>, big: seq<bit>, small: seq<bit>, x: seq<bit>, future: seq<bit>)
    requires |used| + 16 * |big| <= 256 && big != [] && |small| == 16 && |x| >= 32
    ensures |used + Marked(256 - 16 * |big|, small)| + 16 * |big[1..]| <= 256
    ensures EndRow(rand, idx, used, big, small, x + future)
      == ReadRows(rand, idx, used + Marked(256 - 16 * |big|, small), big[1..], x + future)
  {
    hide ReadRows;
  }

  lemma CountsMeaning(rand: bool, idx: nat, used: seq<byte>, x: seq<bit>, future: seq<bit>)
    requires 0 < |used| <= 256 && |x| >= 32
    ensures ReadCounts(rand, idx, used, x + future) ==
      var trees, groups := Val(x[..3]), Val(x[3..][..15]);
      if trees < MIN_TREES || trees > MAX_TREES then Fails(ERR_TREES)
      else if groups == 0 then Fails(ERR_GROUPS)
      else ReadSelectors(Front(rand, idx, used, trees, groups), [], x[3..][15..] + future)
    ensures Val(x[3..][..15]) <= MAX_SELECTORS
  {
    var b := x + future;
    assert b[..3] == x[..3] && b[3..18] == x[3..][..15] && b[18..] == x[3..][15..] + future;
    RegisterPowers();
    hide ReadSelectors;
  }

  lemma SelectorMeaning(f: Front, sels: seq<nat>, x: seq<bit>, future: seq<bit>)
    requires ValidFront(f) && ValidSelectors(f, sels) && |sels| < f.groups && |x| >= 6
    ensures Val(x[..6]) < 64 && |FIRST_ZERO| == 64
    ensures var k := FIRST_ZERO[Val(x[..6])];
      && 1 <= k && (k <= f.trees ==> ValidSelectors(f, sels + [k - 1]) && k <= 6)
      && ReadSelectors(f, sels, x + future) ==
           if k > f.trees then Fails(ERR_SELECTOR) else EndSelector(f, sels + [k - 1], x[k..] + future)
  {
    hide EndSelector, FIRST_ZERO;
    var b := x + future;
    assert b[..6] == x[..6];
    FirstZeroTable(x[..6]);
    FirstZeroAt(Val(x[..6]));
    hide FirstZero, Val;
    var k := FirstZero(b[..6]);
    if k <= f.trees {
      SelectorFits(f, sels, k);
      assert b[k..] == x[k..] + future;
    }
  }

  lemma SelectorFits(f: Front, sels: seq<nat>, k: nat)
    requires ValidFront(f) && ValidSelectors(f, sels) && |sels| < f.groups && 1 <= k <= f.trees
    ensures ValidSelectors(f, sels + [k - 1]) && k <= 6
  {
  }

  lemma TreeMeaning(f: Front, sels: seq<nat>, trees: seq<seq<byte>>, x: seq<bit>, future: seq<bit>)
    requires ValidLengths(f, sels, trees, []) && |x| >= 5
    ensures Val(x[..5]) <= 31
    ensures ReadTrees(f, sels, trees, x + future) == ReadLengths(f, sels, trees, [], Val(x[..5]), x[5..] + future)
  {
    var b := x + future;
    assert b[..5] == x[..5] && b[5..] == x[5..] + future;
    Pow2Constants();
    hide ReadLengths;
  }

  lemma LengthMeaning(f: Front, sels: seq<nat>, trees: seq<seq<byte>>, lens: seq<byte>, cur: nat, x: seq<bit>, future: seq<bit>)
    requires ValidLengths(f, sels, trees, lens) && |lens| < |f.used| + 2 && |x| >= 6 && cur <= 31
    ensures Val(x[..6]) < 64 && |STEP_BITS| == 64 == |STEP_DELTA|
    ensures var k, c := STEP_BITS[Val(x[..6])], cur + STEP_DELTA[Val(x[..6])] - 3;
      && 1 <= k <= 6 && STEP_DELTA[Val(x[..6])] <= 6
      && (MIN_CODE_LENGTH <= c <= MAX_CODE_LENGTH ==>
           ValidLengths(f, sels, trees, if k != 6 then lens + [c as byte] else lens))
      && ReadLengths(f, sels, trees, lens, cur, x + future) ==
           if c < MIN_CODE_LENGTH || c > MAX_CODE_LENGTH then Fails(ERR_DELTA)
           else EndSteps(f, sels, trees, if k != 6 then lens + [c as byte] else lens, c, x[k..] + future)
  {
    var b := x + future;
    assert b[..6] == x[..6];
    StepTables(x[..6]);
    BitsAt(Val(x[..6]));
    DeltaAt(Val(x[..6]));
    DeltaSmall(Val(x[..6]));
    SixBits(x[..6]);
    hide EndSteps, STEP_BITS, STEP_DELTA, ValidFront, ValidSelectors, ValidTrees, ReadSteps;
    var s := ReadSteps(b[..6]);
    assert b[s.bits..] == x[s.bits..] + future;
  }

  lemma DeltaSmall(x: nat)
    requires x < 64
    ensures |STEP_DELTA| == 64 && STEP_DELTA[x] <= 6
  {
    DeltaAt(x);
  }

  lemma UseCount(slide: seq<byte>, n: nat, used: seq<byte>)
    requires InUse(slide, n, used)
    ensures n == |used| <= 256
  {
  }

  lemma NoneUsed(rand: bool, idx: nat, used: seq<byte>, b: seq<bit>)
    requires used == []
    ensures ReadCounts(rand, idx, used, b) == Fails(ERR_BITMAP)
  {
  }

  lemma SelectorsDone(f: Front, sels: seq<nat>, b: seq<bit>)
    requires ValidFront(f) && ValidSelectors(f, sels)
    ensures |sels| <= f.groups && f.trees > 0 && ValidTrees(f, [])
    ensures |sels| == f.groups ==> ReadSelectors(f, sels, b) == ReadTrees(f, sels, [], b)
  {
    hide ReadTrees;
  }

  lemma ListingNone<T(!new)>(a: seq<T>)
    ensures Listing(a, [])
  {
  }

  /** A length after those listed, and the one that follows it. */
  lemma StoreLength(a: seq<byte>, lens: seq<byte>, c: byte, n: nat)
    requires |lens| < n <= |a| && Listing(a, lens) && a[|lens|] == c
    ensures Listing(a, lens + [c])
    ensures |lens| + 1 < n ==> Listing(a[|lens| + 1 := c], lens + [c])
  {
  }

  lemma ListingUpdate<T(!new)>(a: seq<T>, l: seq<T>, i: nat, x: T)
    requires Listing(a, l) && |l| <= i < |a|
    ensures Listing(a[i := x], l)
  {
  }

  lemma TreeDone(f: Front, sels: seq<nat>, trees: seq<seq<byte>>, lens: seq<byte>, cur: nat, b: seq<bit>)
    requires ValidLengths(f, sels, trees, lens)
    ensures |lens| <= |f.used| + 2
    ensures |lens| == |f.used| + 2 ==> ValidTrees(f, trees + [lens]) && |sels| == f.groups
    ensures |lens| == |f.used| + 2 ==> ReadLengths(f, sels, trees, lens, cur, b) == ReadTrees(f, sels, trees + [lens], b)
  {
    hide ReadTrees;
  }

  lemma LengthsReady(codeLen: seq<byte>, f: Front, sels: seq<nat>, trees: seq<seq<byte>>, lens: seq<byte>)
    requires ValidLengths(f, sels, trees, lens) && |lens| == |f.used| + 2 && Listing(codeLen, lens)
    ensures Lengths(lens) && lens == codeLen[..|lens|] && ValidTrees(f, trees + [lens])
    ensures |trees| < f.trees <= MAX_TREES
  {
  }

  lemma StatusOf(lens: seq<byte>, st: Status)
    requires Lengths(lens) && (st == OK <==> Complete(lens))
    requires Start(lens, MAX_CODE_LENGTH + 1) < Pow2(MAX_CODE_LENGTH) <==> st == ERR_INCOMPLT
    requires Start(lens, MAX_CODE_LENGTH + 1) > Pow2(MAX_CODE_LENGTH) <==> st == ERR_PREFIX
    ensures st == TreeStatus(lens)
  {
  }

  lemma RefMade(mtf: seq<TreeRef>, trees: seq<seq<byte>>, lens: seq<byte>, i: nat, r: TreeRef)
    requires Listing(mtf, Refs(trees)) && i == |trees| < |mtf|
    requires r == if TreeStatus(lens) == OK then Good(i) else Rejected(TreeStatus(lens))
    ensures Listing(mtf[i := r], Refs(trees + [lens]))
  {
    hide *;
    RefAdded(trees, lens, r);
    ListingPush(mtf, Refs(trees), r);
  }

  lemma ListingPush<T(!new)>(a: seq<T>, l: seq<T>, x: T)
    requires Listing(a, l) && |l| < |a|
    ensures Listing(a[|l| := x], l + [x])
  {
  }

  lemma RefAdded(trees: seq<seq<byte>>, lens: seq<byte>, r: TreeRef)
    requires r == if TreeStatus(lens) == OK then Good(|trees|) else Rejected(TreeStatus(lens))
    ensures Refs(trees + [lens]) == Refs(trees) + [r]
  {
    hide TreeStatus;
    assert (trees + [lens])[..|trees|] == trees;
    assert (trees + [lens])[|trees|] == lens;
  }

  lemma {:induction false} CountRepeat(column: seq<byte>, c: byte, n: nat, x: int)
    ensures Count(column + Repeat(c, n), x) == Count(column, x) + if x == c as int then n else 0
    decreases n
  {
    if n == 0 {
      assert column + Repeat(c, n) == column;
    } else {
      var s := column + Repeat(c, n);
      CountRepeat(column, c, n - 1, x);
      RepeatSplit(c, n - 1, 1);
      assert s[..|s| - 1] == column + Repeat(c, n - 1);
    }
  }

  /** Counting a run at once. */
  lemma TallyRun(ftab: seq<nat>, column: seq<byte>, c: byte, n: nat)
    requires Tallied(ftab, column)
    ensures Tallied(ftab[c := ftab[c] + n], column + Repeat(c, n))
  {
    hide Count;
    forall x {:trigger ftab[c := ftab[c] + n][x]} | 0 <= x < 256
      ensures ftab[c := ftab[c] + n][x] == Count(column + Repeat(c, n), x)
    {
      CountRepeat(column, c, n, x);
      assert ftab[x] == Count(column, x);
    }
  }

  lemma StoreOne(tt: seq<uint32>, size: nat, column: seq<byte>, c: byte, n: nat)
    requires Stored(tt, size, column + Repeat(c, n)) && size < |tt|
    ensures Stored(tt[size := c as uint32], size + 1, column + Repeat(c, n + 1))
  {
    RepeatSplit(c, n, 1);
    assert column + Repeat(c, n + 1) == column + Repeat(c, n) + [c];
  }

  lemma FirstRows(row: seq<nat>, slide: seq<byte>)
    requires |row| == NUM_ROWS && |slide| == SLIDE_LENGTH
    requires forall r {:trigger row[r]} :: 0 <= r < NUM_ROWS ==> row[r] == CMAP_BASE + r * ROW_WIDTH
    ensures Holds(row, slide, slide[CMAP_BASE..])
  {
    var l := slide[CMAP_BASE..];
    forall r | 0 <= r < NUM_ROWS ensures RowHolds(slide, row[r], l, r) {
      forall j: nat {:trigger Cell(slide, row[r], j)} | j < ROW_WIDTH
        ensures Cell(slide, row[r], j) == Cell(l, ROW_WIDTH * r, j)
      {
      }
    }
  }

  lemma FirstList(slide: seq<byte>, used: seq<byte>)
    requires InUse(slide, |used|, used) && used != []
    ensures used <= slide[CMAP_BASE..] && slide[CMAP_BASE] == used[0]
  {
    assert slide[CMAP_BASE + 0] == used[0];
  }

  lemma TreesComplete(f: Front, sels: seq<nat>, trees: seq<seq<byte>>, b: seq<bit>)
    requires ValidFront(f) && |sels| == f.groups && ValidSelectors(f, sels) && ValidTrees(f, trees) && |trees| == f.trees
    ensures ValidHead(Head(f, sels, trees)) && ValidRefs(Head(f, sels, trees), Refs(trees))
    ensures ReadTrees(f, sels, trees, b)
      == ReadGroups(Head(f, sels, trees), 0, Refs(trees), Values([], f.used, 0, 0), b)
  {
    RefsValid(f, trees);
    hide ReadGroups;
  }

  lemma TopBits()
    ensures Pow2(64 - MAX_CODE_LENGTH) == UNIT
  {
    Pow2Constants();
    Pow2Add(24, 20);
  }

  lemma DecodedLength(lens: seq<byte>, s: nat, u: nat)
    requires Decodes(lens, u, s)
    ensures s < |lens| && 1 <= lens[s] <= MAX_CODE_LENGTH
  {
  }

  /** A run that is still counted has room for another digit. */
  lemma DigitFits(run: nat, shift: nat, d: nat)
    requires run <= MAX_BLOCK_SIZE && Pow2(shift) <= run + 1 && 1 <= d <= 2
    ensures shift < 20 && run + d * Pow2(shift) < 0x40_0000 && Pow2(shift + 1) <= run + d * Pow2(shift) + 1
  {
    Pow2Constants();
    if shift >= 20 { Pow2Monotone(20, shift); }
    assert Pow2(shift + 1) == 2 * Pow2(shift);
  }

  lemma FrontOf(l: seq<byte>, m: seq<byte>, c: nat)
    requires m <= l && c < |m|
    ensures ToFront(m, c) <= ToFront(l, c) && l[c] == m[c]
  {
  }

  /** What one value means. */
  lemma ValueMeaning(h: Head, p: Place, v: Values, s: nat, x: seq<bit>, future: seq<bit>)
    requires ValidHead(h) && ValidPlace(h, p) && p.group < Bound(h.front.groups) && ValidValues(h, v)
    requires p.index < GROUP_SIZE && |x| >= 32
    requires var lens := h.trees[p.tree]; s < |lens| && Decodes(lens, Val(x[..MAX_CODE_LENGTH]), s)
    ensures s < |h.front.used| + 2 && h.trees[p.tree][s] as int <= |x| && v.list != []
    ensures var p', b := p.(index := p.index + 1), x[h.trees[p.tree][s]..] + future;
      ReadValues(h, p, v, x + future) ==
        if s == |h.front.used| + 1 then Finish(h.front, v, b)
        else if s <= 1 && v.run <= MAX_BLOCK_SIZE then
          ReadValues(h, p', v.(run := v.run + (s + 1) * Pow2(v.shift), shift := v.shift + 1), b)
        else if s <= 1 || !Fits(v) then Fails(ERR_OVERFLOW)
        else ReadValues(h, p', Values(Dumped(v), ToFront(v.list, s - 1), 1, 0), b)
  {
    hide ValidHead, ValidPlace, Decodes, Finish, Complete, Fits, Dumped, ReadValues, Value;
    TreeLength(h, p);
    var lens := h.trees[p.tree];
    FirstSymbol(lens, s, x, future);
    ValueFirst(h, p, v, s, x, future);
    ValueCases(h, p, v, s, x[lens[s]..] + future);
  }

  lemma ValueCases(h: Head, p: Place, v: Values, s: nat, b: seq<bit>)
    requires ValidHead(h) && ValidPlace(h, p) && p.group < Bound(h.front.groups) && ValidValues(h, v)
    requires p.index < GROUP_SIZE && s < |h.front.used| + 2
    ensures v.list != [] && ValidPlace(h, p.(index := p.index + 1))
    ensures var p' := p.(index := p.index + 1);
      Value(h, p, v, s, b) ==
        if s == |h.front.used| + 1 then Finish(h.front, v, b)
        else if s <= 1 && v.run <= MAX_BLOCK_SIZE then
          ReadValues(h, p', v.(run := v.run + (s + 1) * Pow2(v.shift), shift := v.shift + 1), b)
        else if s <= 1 || !Fits(v) then Fails(ERR_OVERFLOW)
        else ReadValues(h, p', Values(Dumped(v), ToFront(v.list, s - 1), 1, 0), b)
  {
    hide ValidTrees, ValidSelectors, ValidRefs, Finish, Complete, ReadValues;
  }

  lemma ValueFirst(h: Head, p: Place, v: Values, s: nat, x: seq<bit>, future: seq<bit>)
    requires ValidHead(h) && ValidPlace(h, p) && p.group < Bound(h.front.groups) && ValidValues(h, v)
    requires p.index < GROUP_SIZE && |x| >= 32 && s < |h.front.used| + 2 == |h.trees[p.tree]|
    requires var lens := h.trees[p.tree];
      SymbolAt(lens, x + future) == s && lens[s] as int <= |x| && (x + future)[lens[s]..] == x[lens[s]..] + future
    ensures ReadValues(h, p, v, x + future) == Value(h, p, v, s, x[h.trees[p.tree][s]..] + future)
  {
    hide ValidTrees, ValidSelectors, ValidRefs, Decodes, SymbolAt, Complete, Lengths, Value, ReadGroups;
  }

  lemma TreeLength(h: Head, p: Place)
    requires ValidHead(h) && ValidPlace(h, p)
    ensures p.tree < |h.trees| && |h.trees[p.tree]| == |h.front.used| + 2 && Complete(h.trees[p.tree])
  {
  }

  lemma FirstSymbol(lens: seq<byte>, s: nat, x: seq<bit>, future: seq<bit>)
    requires Complete(lens) && |x| >= 32 && s < |lens| && Decodes(lens, Val(x[..MAX_CODE_LENGTH]), s)
    ensures SymbolAt(lens, x + future) == s && lens[s] as int <= |x|
    ensures (x + future)[lens[s]..] == x[lens[s]..] + future
  {
    assert (x + future)[..MAX_CODE_LENGTH] == x[..MAX_CODE_LENGTH];
    DecodesUnique(lens, Val(x[..MAX_CODE_LENGTH]), s, SymbolAt(lens, x + future));
  }
}
