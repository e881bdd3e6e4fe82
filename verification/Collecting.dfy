/** Specification of block collection: what a block and its pending run become as
    input bytes arrive, and why expansion undoes it. */
module Collecting {
  import opened Common
  import opened RunLength

  /** A block under construction.  `run` is the length of the unfinished run of `ch`
      (zero between runs) and -1 once the block is closed. */
  datatype Rle = Rle(block: seq<byte>, run: int, ch: byte)

  ghost predicate Sound(max: nat, st: Rle) {
    && -1 <= st.run < 259
    && |st.block| <= max
    && (st.run >= 0 ==> |st.block| < max)
    && (st.run <= 0 ==> st.ch == 0)
  }

  const EMPTY := Rle([], 0, 0)

  /** Closes a block without room for another byte. */
  function Close(max: nat, st: Rle): Rle {
    if |st.block| >= max then Rle(st.block, -1, 0) else st
  }

  /** The block after one more byte; the flag tells if the byte was taken.  A fourth
      equal byte needs room for itself and for the count that will follow it. */
  function Take(max: nat, st: Rle, b: byte): (Rle, bool)
    requires 0 <= st.run < 259
  {
    if st.run >= 4 then
      if b == st.ch then
        if st.run + 1 == 259 then (Close(max, Rle(st.block + [255], 0, 0)), true)
        else (Rle(st.block, st.run + 1, st.ch), true)
      else
        var closed := st.block + [st.run - 4];
        if |closed| >= max then (Rle(closed, -1, 0), false)
        else (Close(max, Rle(closed + [b], 1, b)), true)
    else if st.run == 3 && b == st.ch then
      if |st.block| + 2 > max then (Rle(st.block, -1, 0), false)
      else (Rle(st.block + [b], 4, b), true)
    else if st.run > 0 && b == st.ch then (Close(max, Rle(st.block + [b], st.run + 1, b)), true)
    else (Close(max, Rle(st.block + [b], 1, b)), true)
  }

  /** The block after all of `input` has been offered, and the number of bytes taken. */
  function Feed(max: nat, st: Rle, input: seq<byte>): (r: (Rle, nat))
    requires -1 <= st.run < 259
    ensures r.1 <= |input|
    ensures -1 <= r.0.run < 259
    ensures r.1 < |input| ==> r.0.run == -1
    decreases |input|
  {
    if st.run == -1 || input == [] then (st, 0)
    else
      var (next, taken) := Take(max, st, input[0]);
      if !taken then (next, 0)
      else
        var (last, n) := Feed(max, next, input[1..]);
        (last, n + 1)
  }

  /** Offering the input in two pieces is offering it at once. */
  lemma {:induction false} FeedConcat(max: nat, st: Rle, a: seq<byte>, b: seq<byte>)
    requires -1 <= st.run < 259
    ensures var (mid, m) := Feed(max, st, a);
      Feed(max, st, a + b) ==
        if m < |a| then (mid, m) else (Feed(max, mid, b).0, m + Feed(max, mid, b).1)
    decreases |a|
  {
    if a == [] {
      assert a + b == b;
    } else if st.run != -1 {
      var (next, taken) := Take(max, st, a[0]);
      assert (a + b)[1..] == a[1..] + b;
      if taken {
        FeedConcat(max, next, a[1..], b);
      }
    }
  }

  lemma TakeSound(max: nat, st: Rle, b: byte)
    requires Sound(max, st) && st.run >= 0
    ensures Sound(max, Take(max, st, b).0)
  {
  }

  lemma {:induction false} FeedSound(max: nat, st: Rle, input: seq<byte>)
    requires Sound(max, st)
    ensures Sound(max, Feed(max, st, input).0)
    ensures st.run >= 0 && st.run < 3 && input != [] ==> Feed(max, st, input).1 > 0
    decreases |input|
  {
    if st.run != -1 && input != [] {
      var (next, taken) := Take(max, st, input[0]);
      TakeSound(max, st, input[0]);
      if taken { FeedSound(max, next, input[1..]); }
    }
  }

  /** The block as it is sorted: a pending run of four or more gets its count. */
  function Finished(st: Rle): seq<byte>
    requires -1 <= st.run < 259
  {
    if st.run >= 4 then st.block + [st.run - 4] else st.block
  }

  /** The bytes `st` was built from are `x`. */
  ghost predicate Encodes(st: Rle, x: seq<byte>) {
    var e := ExpandAll(Expander([], 0, 0), st.block);
    && -1 <= st.run < 259
    && (if st.run >= 4 then
          && e.run == 4 && e.last == st.ch
          && e.out + Repeat(st.ch, st.run - 4) == x
        else
          && e.out == x && e.run < 4
          && (st.run >= 0 ==> e.run == st.run)
          && (st.run > 0 ==> e.last == st.ch))
  }

  lemma ExpandAppend(e: Expander, blk: seq<byte>, c: byte)
    ensures ExpandAll(e, blk + [c]) == ExpandByte(ExpandAll(e, blk), c)
  {
    assert (blk + [c])[..|blk|] == blk;
  }

  lemma TakeEncodes(max: nat, st: Rle, b: byte, x: seq<byte>)
    requires Sound(max, st) && st.run >= 0 && Encodes(st, x)
    ensures var (next, taken) := Take(max, st, b);
      Encodes(next, if taken then x + [b] else x)
  {
    if st.run >= 4 {
      TakeEncodesLong(max, st, b, x);
    } else {
      ExpandAppend(Expander([], 0, 0), st.block, b);
      assert x + [b] + [] == x + [b];
    }
  }

  lemma LongerRun(out: seq<byte>, ch: byte, n: nat)
    ensures out + Repeat(ch, n + 1) == out + Repeat(ch, n) + [ch]
  {
    RepeatSplit(ch, n, 1);
    assert Repeat(ch, 1) == [ch];
  }

  lemma TakeEncodesLong(max: nat, st: Rle, b: byte, x: seq<byte>)
    requires Sound(max, st) && st.run >= 4 && Encodes(st, x)
    ensures var (next, taken) := Take(max, st, b);
      Encodes(next, if taken then x + [b] else x)
  {
    var e := Expander([], 0, 0);
    var n: byte := st.run - 4;
    var out := ExpandAll(e, st.block).out;
    ExpandAppend(e, st.block, n);
    if b != st.ch {
      ExpandAppend(e, st.block + [n], b);
    } else {
      LongerRun(out, st.ch, n);
      if n == 254 { ExpandAppend(e, st.block, 255); }
    }
  }

  lemma {:induction false} FeedEncodes(max: nat, st: Rle, input: seq<byte>, x: seq<byte>)
    requires Sound(max, st) && Encodes(st, x)
    ensures var (last, n) := Feed(max, st, input); Encodes(last, x + input[..n])
    decreases |input|
  {
    hide Encodes, Take;
    if st.run == -1 || input == [] {
      assert x + input[..0] == x;
    } else {
      var (next, taken) := Take(max, st, input[0]);
      TakeSound(max, st, input[0]);
      TakeEncodes(max, st, input[0], x);
      if taken {
        FeedEncodes(max, next, input[1..], x + [input[0]]);
        var n := Feed(max, next, input[1..]).1;
        assert x + [input[0]] + input[1..][..n] == x + input[..n + 1];
      } else {
        assert x + input[..0] == x;
      }
    }
  }

  lemma FinishedExpands(st: Rle, x: seq<byte>)
    requires Encodes(st, x)
    ensures Expand(Finished(st)) == Expansion(x, true)
  {
    var e := Expander([], 0, 0);
    UnrleIsFold(e, Finished(st));
    EmittedNone(Unrle(Finished(st), 0, 0));
    if st.run >= 4 {
      ExpandAppend(e, st.block, st.run - 4);
    }
  }

  /** Whatever the collector took from the input is what the finished block expands
      to, and the finished block fits. */
  lemma CollectedExpands(max: nat, input: seq<byte>)
    requires max > 0
    ensures var (st, n) := Feed(max, EMPTY, input);
      && Expand(Finished(st)) == Expansion(input[..n], true)
      && |Finished(st)| <= max
      && (input != [] ==> n > 0)
  {
    FeedSound(max, EMPTY, input);
    FeedEncodes(max, EMPTY, input, []);
    var (st, n) := Feed(max, EMPTY, input);
    assert [] + input[..n] == input[..n];
    FinishedExpands(st, input[..n]);
  }

  // ----- following the collecting automaton -----

  /** The labels of the automaton.  At the first five the byte `ch` has been read; at
      all but STATE0 it is not yet, or not only, accounted for in the block. */
  datatype Label = STATE0 | STATE1 | STATE2 | STATE3 | STATE4 | RUN | FINISH_RUN | DONE

  /** The specified state that the automaton's registers stand for. */
  function Standing(max: nat, pc: Label, blk: seq<byte>, ch: byte, run: int): Rle {
    match pc
    case STATE0 => Close(max, Rle(blk, 0, 0))
    case STATE1 => Close(max, Rle(blk + [ch], 1, ch))
    case STATE2 => Close(max, Rle(blk + [ch], 2, ch))
    case STATE3 => Close(max, Rle(blk + [ch], 3, ch))
    case STATE4 => Rle(blk + [ch], 4, ch)
    case RUN => Rle(blk, run, ch)
    case FINISH_RUN => Close(max, Rle(blk, run, ch))
    case DONE => Rle(blk, run, if run <= 0 then 0 else ch)
  }

  /** `goal` is what offering the rest of the input to `st` leads to. */
  ghost predicate Leads(max: nat, st: Rle, input: seq<byte>, p: nat, goal: (Rle, nat)) {
    && -1 <= st.run < 259
    && p <= |input|
    && goal == (Feed(max, st, input[p..]).0, p + Feed(max, st, input[p..]).1)
  }

  lemma LeadsEnd(max: nat, st: Rle, input: seq<byte>, p: nat, goal: (Rle, nat))
    requires Leads(max, st, input, p, goal) && (st.run == -1 || p == |input|)
    ensures goal == (st, p)
  {
  }

  lemma LeadsNext(max: nat, st: Rle, input: seq<byte>, p: nat, goal: (Rle, nat))
    requires Leads(max, st, input, p, goal) && st.run >= 0 && p < |input|
    ensures Take(max, st, input[p]).1 ==> Take(max, st, input[p]).0.run < 259
    ensures Take(max, st, input[p]).1 ==> Leads(max, Take(max, st, input[p]).0, input, p + 1, goal)
    ensures !Take(max, st, input[p]).1 ==> goal == (Take(max, st, input[p]).0, p)
  {
    assert input[p..][1..] == input[p + 1..];
  }

  /** A byte that ends a run is offered to the block with the run completed. */
  lemma LeadsAfterRun(max: nat, st: Rle, input: seq<byte>, p: nat, goal: (Rle, nat))
    requires Leads(max, st, input, p, goal) && st.run > 0 && |st.block| < max
    requires p < |input| && input[p] != st.ch
    ensures Leads(max, Close(max, Rle(Finished(st), 0, 0)), input, p, goal)
  {
    var rest := Close(max, Rle(Finished(st), 0, 0));
    assert Feed(max, st, input[p..]) == Feed(max, rest, input[p..]);
  }

  lemma Stand(max: nat, pc: Label, blk: seq<byte>, ch: byte, r: int)
    ensures pc == STATE0 ==> Standing(max, pc, blk, ch, r) == Close(max, Rle(blk, 0, 0))
    ensures pc == STATE1 ==> Standing(max, pc, blk, ch, r) == Close(max, Rle(blk + [ch], 1, ch))
    ensures pc == STATE2 ==> Standing(max, pc, blk, ch, r) == Close(max, Rle(blk + [ch], 2, ch))
    ensures pc == STATE3 ==> Standing(max, pc, blk, ch, r) == Close(max, Rle(blk + [ch], 3, ch))
    ensures pc == STATE4 ==> Standing(max, pc, blk, ch, r) == Standing(max, RUN, blk + [ch], ch, 4)
    ensures pc == RUN ==> Standing(max, pc, blk, ch, r) == Rle(blk, r, ch)
    ensures pc == FINISH_RUN ==> Standing(max, pc, blk, ch, r) == Close(max, Rle(blk, r, ch))
    ensures pc == DONE ==> Standing(max, pc, blk, ch, r) == Rle(blk, r, if r <= 0 then 0 else ch)
  {
  }

  // ----- the map of bytes in use -----

  ghost predicate Mapped(cmap: seq<bool>, blk: seq<byte>) {
    && |cmap| == 256
    && forall b: byte :: cmap[b] <==> b in blk
  }

  lemma MappedAppend(cmap: seq<bool>, blk: seq<byte>, b: byte)
    requires Mapped(cmap, blk)
    ensures Mapped(cmap[b := true], blk + [b])
    ensures cmap[b] ==> Mapped(cmap, blk + [b])
  {
  }
}
