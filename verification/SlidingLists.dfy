/** The decoder's move-to-front list: 256 elements in sixteen rows that slide down a
    pool of memory, so that moving an element touches one cell of most rows. */
module SlidingLists {
  import opened Common
  import opened MoveToFront

  const ROW_WIDTH := 16
  const NUM_ROWS := 16
  const SLIDE_LENGTH := 8192
  const CMAP_BASE := SLIDE_LENGTH - 256

  /** The rows are in order, disjoint, and inside the pool. */
  ghost predicate Ordered(row: seq<nat>) {
    && |row| == NUM_ROWS
    && row[NUM_ROWS - 1] + ROW_WIDTH <= SLIDE_LENGTH
    && forall r :: 0 <= r < NUM_ROWS - 1 ==> row[r] + ROW_WIDTH <= row[r + 1]
  }

  lemma {:induction false} OrderedFar(row: seq<nat>, q: nat, r: nat)
    requires Ordered(row) && q <= r < NUM_ROWS
    ensures row[q] + ROW_WIDTH * (r - q) <= row[r]
    decreases r - q
  {
    if q < r { OrderedFar(row, q + 1, r); }
  }

  lemma OrderedWithin(row: seq<nat>, r: nat)
    requires Ordered(row) && r < NUM_ROWS
    ensures row[r] + ROW_WIDTH * (NUM_ROWS - r) <= SLIDE_LENGTH
  {
    OrderedFar(row, r, NUM_ROWS - 1);
  }

  /** Cell `j` of the stretch of `s` that starts at `at`. */
  function Cell(s: seq<byte>, at: nat, j: nat): byte
    requires at + j < |s|
  {
    s[at + j]
  }

  /** Row `r` of the pool holds its part of the list `l`. */
  ghost predicate RowHolds(slide: seq<byte>, at: nat, l: seq<byte>, r: nat) {
    && at + ROW_WIDTH <= |slide| && ROW_WIDTH * r + ROW_WIDTH <= |l|
    && forall j: nat {:trigger Cell(slide, at, j)} :: j < ROW_WIDTH ==> Cell(slide, at, j) == Cell(l, ROW_WIDTH * r, j)
  }

  /** The rows, read in order, are the list `l`. */
  ghost predicate Holds(row: seq<nat>, slide: seq<byte>, l: seq<byte>) {
    && Ordered(row) && |slide| == SLIDE_LENGTH && |l| == 256
    && forall r :: 0 <= r < NUM_ROWS ==> RowHolds(slide, row[r], l, r)
  }

  /** The list is determined by the rows. */
  lemma HoldsUnique(row: seq<nat>, slide: seq<byte>, l: seq<byte>, m: seq<byte>)
    requires Holds(row, slide, l) && Holds(row, slide, m)
    ensures l == m
  {
    forall i | 0 <= i < 256 ensures l[i] == m[i] {
      var r, j := i / ROW_WIDTH, i % ROW_WIDTH;
      assert RowHolds(slide, row[r], l, r) && RowHolds(slide, row[r], m, r);
      assert Cell(slide, row[r], j) == Cell(l, ROW_WIDTH * r, j) == Cell(m, ROW_WIDTH * r, j);
    }
  }

  /** Moves cell `at + n` to cell `at`, shifting the cells between them up by one. */
  method ShiftUp(slide: array<byte>, at: nat, n: nat)
    requires at + n < slide.Length
    modifies slide
    ensures slide[..] == old(slide[..at] + [slide[at + n]] + slide[at..at + n] + slide[at + n + 1..])
  {
    var c := slide[at + n];
    var pp := at + n;
    while pp > at
      invariant at <= pp <= at + n
      invariant forall x {:trigger slide[x]} :: 0 <= x < slide.Length ==>
        slide[x] == if pp < x <= at + n then old(slide[..])[x - 1] else old(slide[x])
    {
      slide[pp] := slide[pp - 1];
      pp := pp - 1;
    }
    slide[pp] := c;
  }

  /** The rows from `rr` on have been packed at the top of the pool. */
  ghost predicate Packing(row: seq<nat>, slide: seq<byte>, row0: seq<nat>, l: seq<byte>, rr: nat) {
    && Ordered(row0) && |row| == NUM_ROWS && |slide| == SLIDE_LENGTH && |l| == 256 && rr <= NUM_ROWS
    && (forall r: nat {:trigger row[r]} :: r < NUM_ROWS ==>
         row[r] == if r < rr then row0[r] else CMAP_BASE + ROW_WIDTH * r)
    && (forall r: nat {:trigger row[r]} :: r < NUM_ROWS ==> RowHolds(slide, row[r], l, r))
  }

  lemma PackingStep(row: seq<nat>, slide: seq<byte>, row0: seq<nat>, l: seq<byte>, rr: nat,
                    row': seq<nat>, slide': seq<byte>)
    requires Packing(row, slide, row0, l, rr + 1)
    requires var kk := CMAP_BASE + ROW_WIDTH * rr;
      && row' == row[rr := kk]
      && |slide'| == |slide|
      && (forall j: nat {:trigger Cell(slide', kk, j)} :: j < ROW_WIDTH ==> Cell(slide', kk, j) == Cell(slide, row[rr], j))
      && forall x {:trigger slide'[x]} :: 0 <= x < |slide| && !(kk <= x < kk + ROW_WIDTH) ==> slide'[x] == slide[x]
    ensures Packing(row', slide', row0, l, rr)
  {
    OrderedWithin(row0, rr);
    forall r: nat | r < NUM_ROWS ensures RowHolds(slide', row'[r], l, r) {
      assert RowHolds(slide, row[r], l, r);
      if r < rr { OrderedFar(row0, r, rr); }
      if r != rr { RowKept(slide, slide', row[r], l, l, r); }
    }
  }

  /** Packs the rows at the top of the pool. */
  method Rebuild(row: array<nat>, slide: array<byte>, ghost l: seq<byte>)
    requires Holds(row[..], slide[..], l)
    modifies row, slide
    ensures Holds(row[..], slide[..], l) && row[0] == CMAP_BASE
  {
    ghost var row0 := row[..];
    var kk := SLIDE_LENGTH;
    var rr := NUM_ROWS;
    while rr > 0
      invariant 0 <= rr <= NUM_ROWS && kk == CMAP_BASE + ROW_WIDTH * rr
      invariant Packing(row[..], slide[..], row0, l, rr)
    {
      rr := rr - 1;
      OrderedWithin(row0, rr);
      kk := kk - ROW_WIDTH;
      ghost var rows, cells := row[..], slide[..];
      CopyUp(slide, row[rr], kk);
      row[rr] := kk;
      PackingStep(rows, cells, row0, l, rr, row[..], slide[..]);
    }
  }

  /** Copies one row to a place at or above it, last cell first. */
  method CopyUp(slide: array<byte>, from: nat, to: nat)
    requires from <= to && to + ROW_WIDTH <= slide.Length
    modifies slide
    ensures forall j: nat {:trigger Cell(slide[..], to, j)} :: j < ROW_WIDTH ==>
      Cell(slide[..], to, j) == Cell(old(slide[..]), from, j)
    ensures forall x {:trigger slide[x]} :: 0 <= x < slide.Length && !(to <= x < to + ROW_WIDTH) ==> slide[x] == old(slide[x])
  {
    var n := ROW_WIDTH;
    while n > 0
      invariant 0 <= n <= ROW_WIDTH
      invariant forall x {:trigger slide[x]} :: 0 <= x < slide.Length ==>
        slide[x] == if to + n <= x < to + ROW_WIDTH then old(slide[..])[x - to + from] else old(slide[x])
    {
      n := n - 1;
      slide[to + n] := slide[from + n];
    }
  }

  /** Moving an element of the first row touches that row only. */
  lemma NearMoved(row: seq<nat>, slide: seq<byte>, l: seq<byte>, c: nat, slide': seq<byte>)
    requires Holds(row, slide, l) && c < ROW_WIDTH && row[0] + c < |slide|
    requires slide' == slide[..row[0]] + [slide[row[0] + c]] + slide[row[0]..row[0] + c] + slide[row[0] + c + 1..]
    ensures slide[row[0] + c] == l[c] && Holds(row, slide', ToFront(l, c))
  {
    var m, at := ToFront(l, c), row[0];
    assert RowHolds(slide, at, l, 0);
    assert Cell(slide, at, c) == Cell(l, 0, c);
    TailShifted(slide, slide', at, l, c, 0, c);
    RowCompleted(slide', slide', at, m, 0);
    forall r | 0 < r < NUM_ROWS ensures RowHolds(slide', row[r], m, r) {
      OrderedFar(row, 0, r);
      assert RowHolds(slide, row[r], l, r);
      RowKept(slide, slide', row[r], l, m, r);
    }
  }

  /** Returns element `c0` of the list and moves it to the front.  The callers never
      ask for element 0, for which the switch of the short path has no case. */
  method MtfOne(row: array<nat>, slide: array<byte>, c0: byte, ghost l: seq<byte>) returns (c: byte)
    requires Holds(row[..], slide[..], l) && c0 >= 1
    modifies row, slide
    ensures c == l[c0] && Holds(row[..], slide[..], ToFront(l, c0))
  {
    if c0 < ROW_WIDTH {
      c := slide[row[0] + c0];
      ghost var slide0 := slide[..];
      ShiftUp(slide, row[0], c0);
      NearMoved(row[..], slide0, l, c0, slide[..]);
    } else {
      if row[0] == 0 {
        Rebuild(row, slide, l);
      }
      c := MoveFar(row, slide, c0, l);
    }
  }

  /** All of row `r` but its first cell holds its part of `l`. */
  ghost predicate TailHolds(slide: seq<byte>, at: nat, l: seq<byte>, r: nat) {
    && at + ROW_WIDTH <= |slide| && ROW_WIDTH * r + ROW_WIDTH <= |l|
    && forall j: nat {:trigger Cell(slide, at, j)} :: 0 < j < ROW_WIDTH ==> Cell(slide, at, j) == Cell(l, ROW_WIDTH * r, j)
  }

  /** Moving to the front has reached row `lno`, coming down from row `top`: the rows
      above hold the new list `m`, row `lno` lacks its first cell, the rows below still
      hold the old list `l`. */
  ghost predicate Cascading(row: seq<nat>, slide: seq<byte>, row0: seq<nat>, l: seq<byte>, m: seq<byte>, top: nat, lno: nat) {
    && Ordered(row0) && row0[0] > 0 && |row| == NUM_ROWS && |slide| == SLIDE_LENGTH
    && lno <= top < NUM_ROWS
    && (forall r {:trigger row[r]} :: 0 <= r < NUM_ROWS ==> row[r] + (if lno <= r < top then 1 else 0) == row0[r])
    && (forall r {:trigger row[r]} :: lno < r < NUM_ROWS ==> RowHolds(slide, row[r], m, r))
    && TailHolds(slide, row[lno], m, lno)
    && (forall r {:trigger row0[r]} :: 0 <= r < lno ==> RowHolds(slide, row0[r], l, r))
  }

  /** The shift within row `top`. */
  lemma CascadeStart(row: seq<nat>, slide: seq<byte>, l: seq<byte>, c: nat, slide': seq<byte>)
    requires Holds(row, slide, l) && ROW_WIDTH <= c < 256 && row[0] > 0
    requires var top, n := c / ROW_WIDTH, c % ROW_WIDTH;
      && row[top] + n < |slide|
      && slide' == slide[..row[top]] + [slide[row[top] + n]] + slide[row[top]..row[top] + n] + slide[row[top] + n + 1..]
    ensures slide[row[c / ROW_WIDTH] + c % ROW_WIDTH] == l[c]
    ensures Cascading(row, slide', row, l, ToFront(l, c), c / ROW_WIDTH, c / ROW_WIDTH)
  {
    var top, n, m := c / ROW_WIDTH, c % ROW_WIDTH, ToFront(l, c);
    assert RowHolds(slide, row[top], l, top);
    assert Cell(slide, row[top], n) == Cell(l, ROW_WIDTH * top, n);
    forall r | 0 <= r < NUM_ROWS && r != top ensures RowHolds(slide', row[r], if r < top then l else m, r) {
      if r < top { OrderedFar(row, r, top); } else { OrderedFar(row, top, r); }
      assert RowHolds(slide, row[r], l, r);
      RowKept(slide, slide', row[r], l, if r < top then l else m, r);
    }
    TailShifted(slide, slide', row[top], l, c, top, n);
  }

  lemma RowKept(slide: seq<byte>, slide': seq<byte>, at: nat, l: seq<byte>, m: seq<byte>, r: nat)
    requires RowHolds(slide, at, l, r) && |slide'| == |slide| && |m| == |l|
    requires forall x {:trigger slide'[x]} :: at <= x < at + ROW_WIDTH ==> slide'[x] == slide[x]
    requires forall x {:trigger m[x]} :: ROW_WIDTH * r <= x < ROW_WIDTH * r + ROW_WIDTH ==> m[x] == l[x]
    ensures RowHolds(slide', at, m, r)
  {
    forall j: nat | j < ROW_WIDTH ensures Cell(slide', at, j) == Cell(m, ROW_WIDTH * r, j) {
      assert Cell(slide, at, j) == Cell(l, ROW_WIDTH * r, j);
    }
  }

  lemma TailShifted(slide: seq<byte>, slide': seq<byte>, at: nat, l: seq<byte>, c: nat, top: nat, n: nat)
    requires RowHolds(slide, at, l, top) && |slide'| == |slide| && c < |l|
    requires c == ROW_WIDTH * top + n && n < ROW_WIDTH
    requires forall x {:trigger slide'[x]} :: at < x <= at + n ==> slide'[x] == slide[x - 1]
    requires forall x {:trigger slide'[x]} :: at + n < x < at + ROW_WIDTH ==> slide'[x] == slide[x]
    ensures TailHolds(slide', at, ToFront(l, c), top)
  {
    var m, b := ToFront(l, c), ROW_WIDTH * top;
    forall j: nat | 0 < j < ROW_WIDTH ensures Cell(slide', at, j) == Cell(m, b, j) {
      assert Cell(slide, at, if j <= n then j - 1 else j) == Cell(l, b, if j <= n then j - 1 else j);
    }
  }

  /** One row down. */
  lemma CascadeStep(row: seq<nat>, slide: seq<byte>, row0: seq<nat>, l: seq<byte>, c: nat, lno: nat,
                    row': seq<nat>, slide': seq<byte>)
    requires |l| == 256 && ROW_WIDTH <= c < 256
    requires Cascading(row, slide, row0, l, ToFront(l, c), c / ROW_WIDTH, lno) && lno > 0
    requires row[lno - 1] > 0 && row' == row[lno - 1 := row[lno - 1] - 1]
    requires row'[lno - 1] + ROW_WIDTH < |slide| && row'[lno] < |slide|
    requires slide' == slide[row'[lno] := slide[row'[lno - 1] + ROW_WIDTH]]
    ensures Cascading(row', slide', row0, l, ToFront(l, c), c / ROW_WIDTH, lno - 1)
  {
    var m, top, at, b := ToFront(l, c), c / ROW_WIDTH, row0[lno - 1], ROW_WIDTH * (lno - 1);
    assert row[lno - 1] == at && RowHolds(slide, at, l, lno - 1);
    assert at + ROW_WIDTH <= row0[lno];
    assert Cell(slide, at, ROW_WIDTH - 1) == Cell(l, b, ROW_WIDTH - 1);
    RowCompleted(slide, slide', row[lno], m, lno);
    forall r | lno < r < NUM_ROWS ensures RowHolds(slide', row'[r], m, r) {
      OrderedFar(row0, lno, r);
      assert row'[r] == row[r];
      RowKept(slide, slide', row[r], m, m, r);
    }
    forall r | 0 <= r < lno - 1 ensures RowHolds(slide', row0[r], l, r) {
      OrderedFar(row0, r, lno - 1);
      RowKept(slide, slide', row0[r], l, l, r);
    }
    forall j: nat | 0 < j < ROW_WIDTH ensures Cell(slide', row'[lno - 1], j) == Cell(m, b, j) {
      assert Cell(slide, at, j - 1) == Cell(l, b, j - 1);
    }
  }

  lemma RowCompleted(slide: seq<byte>, slide': seq<byte>, at: nat, m: seq<byte>, r: nat)
    requires TailHolds(slide, at, m, r) && |slide'| == |slide|
    requires slide'[at] == m[ROW_WIDTH * r]
    requires forall x {:trigger slide'[x]} :: at < x < at + ROW_WIDTH ==> slide'[x] == slide[x]
    ensures RowHolds(slide', at, m, r)
  {
    forall j: nat | j < ROW_WIDTH ensures Cell(slide', at, j) == Cell(m, ROW_WIDTH * r, j) {
      if j > 0 { assert Cell(slide, at, j) == Cell(m, ROW_WIDTH * r, j); }
    }
  }

  lemma CascadeEnd(row: seq<nat>, slide: seq<byte>, row0: seq<nat>, l: seq<byte>, c: nat)
    requires |l| == 256 && ROW_WIDTH <= c < 256
    requires Cascading(row, slide, row0, l, ToFront(l, c), c / ROW_WIDTH, 0)
    ensures row[0] < |slide| && Holds(row, slide[row[0] := l[c]], ToFront(l, c))
  {
    var m, slide' := ToFront(l, c), slide[row[0] := l[c]];
    RowCompleted(slide, slide', row[0], m, 0);
    forall r | 0 < r < NUM_ROWS ensures RowHolds(slide', row[r], m, r) {
      OrderedFar(row0, 0, r);
      RowKept(slide, slide', row[r], m, m, r);
    }
  }

  /** The general case: shift within the row of the element, then pull every lower row
      down by one cell and hand its last element to the row above. */
  method MoveFar(row: array<nat>, slide: array<byte>, c0: byte, ghost l: seq<byte>) returns (c: byte)
    requires Holds(row[..], slide[..], l) && c0 >= ROW_WIDTH && row[0] > 0
    modifies row, slide
    ensures c == l[c0] && Holds(row[..], slide[..], ToFront(l, c0))
  {
    ghost var row0, m := row[..], ToFront(l, c0);
    var lno := c0 / ROW_WIDTH;
    var n := c0 % ROW_WIDTH;
    c := slide[row[lno] + n];
    ghost var slide0 := slide[..];
    ShiftUp(slide, row[lno], n);
    CascadeStart(row0, slide0, l, c0, slide[..]);
    hide RowHolds, TailHolds, Holds;
    while lno > 0
      invariant 0 <= lno <= c0 / ROW_WIDTH
      invariant Cascading(row[..], slide[..], row0, l, m, c0 / ROW_WIDTH, lno)
    {
      CascadeBounds(row[..], slide[..], row0, l, m, c0 / ROW_WIDTH, lno);
      ghost var rows, cells := row[..], slide[..];
      var lno1 := lno;
      lno := lno - 1;
      row[lno] := row[lno] - 1;
      slide[row[lno1]] := slide[row[lno] + ROW_WIDTH];
      CascadeStep(rows, cells, row0, l, c0, lno1, row[..], slide[..]);
    }
    CascadeEnd(row[..], slide[..], row0, l, c0);
    slide[row[0]] := c;
  }

  lemma CascadeBounds(row: seq<nat>, slide: seq<byte>, row0: seq<nat>, l: seq<byte>, m: seq<byte>, top: nat, lno: nat)
    requires Cascading(row, slide, row0, l, m, top, lno) && lno > 0
    ensures 0 < row[lno - 1] && row[lno - 1] - 1 + ROW_WIDTH < |slide| && row[lno] < |slide|
  {
    OrderedFar(row0, 0, lno - 1);
    OrderedWithin(row0, lno - 1);
    OrderedWithin(row0, lno);
  }
}
