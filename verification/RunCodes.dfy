/** The blocks that collecting makes: the plain run-length code of their bytes, which is the
    shortest one, and holding as many bytes as there is room for. */
module RunCodes {
  import opened Common
  import opened RunLength
  import opened Collecting

  // ----- the plain code -----

  datatype Stretch = Stretch(ch: byte, length: nat)

  /** The maximal stretches of equal bytes. */
  function Stretches(y: seq<byte>): (r: seq<Stretch>)
    ensures y != [] ==> r != [] && r[|r| - 1].ch == y[|y| - 1] && r[|r| - 1].length > 0
    ensures y == [] ==> r == []
  {
    if y == [] then []
    else
      var r, b := Stretches(y[..|y| - 1]), y[|y| - 1];
      if r != [] && r[|r| - 1].ch == b then r[..|r| - 1] + [Stretch(b, r[|r| - 1].length + 1)]
      else r + [Stretch(b, 1)]
  }

  /** Up to 259 equal bytes become four and a count. */
  function StretchCode(c: byte, n: nat): seq<byte>
    decreases n
  {
    if n < 4 then Repeat(c, n)
    else if n <= 259 then Repeat(c, 4) + [n - 4]
    else Repeat(c, 4) + [255] + StretchCode(c, n - 259)
  }

  function StretchCodes(r: seq<Stretch>): seq<byte> {
    if r == [] then [] else StretchCodes(r[..|r| - 1]) + StretchCode(r[|r| - 1].ch, r[|r| - 1].length)
  }

  function PlainCode(y: seq<byte>): seq<byte> {
    StretchCodes(Stretches(y))
  }

  // ----- no code is shorter -----

  /** What the code of `n` equal bytes takes, and what as many take at the least when each
      count ends a group. */
  function Size(n: nat): nat {
    if n < 4 then n else if n <= 259 then 5 else 5 + Size(n - 259)
  }

  function Groups(n: nat): nat {
    if n == 0 then 0 else if n <= 259 then 5 else 5 + Groups(n - 259)
  }

  lemma {:induction false} CodeSize(c: byte, n: nat)
    ensures |StretchCode(c, n)| == Size(n)
    decreases n
  {
    if n > 259 { CodeSize(c, n - 259); }
  }

  lemma {:induction false} OneGroupMore(n: nat, d: nat)
    requires d <= 259
    ensures Groups(n + d) <= Groups(n) + 5
    decreases n
  {
    if n > 259 { OneGroupMore(n - 259, d); }
  }

  lemma {:induction false} GroupsAndBytes(m: nat, k: nat)
    requires k <= 3
    ensures Size(m + k) <= Groups(m) + k
    decreases m
  {
    if m > 259 { GroupsAndBytes(m - 259, k); }
  }

  /** Something that expands to `y`, standing after `run` equal bytes, has taken as much. */
  ghost predicate TakesMuch(size: nat, y: seq<byte>, run: nat, last: byte) {
    var r := Stretches(y);
    if r == [] then run == 0
    else
      var s := r[|r| - 1];
      && run <= s.length && run <= 4 && last == s.ch
      && size >= |StretchCodes(r[..|r| - 1])| + Groups(s.length - run) + run
  }

  /** The stretches, with one more byte. */
  lemma NextStretches(x: seq<byte>, b: byte)
    ensures var r, s := Stretches(x), Stretches(x + [b]);
      if r != [] && r[|r| - 1].ch == b then |s| == |r| && s[..|s| - 1] == r[..|r| - 1] && s[|s| - 1] == Stretch(b, r[|r| - 1].length + 1)
      else |s| == |r| + 1 && s[..|s| - 1] == r && s[|s| - 1] == Stretch(b, 1)
  {
    assert (x + [b])[..|x|] == x;
  }

  lemma {:induction false} StretchesMore(y: seq<byte>, c: byte, k: nat)
    requires y != [] && y[|y| - 1] == c
    ensures var r, s := Stretches(y), Stretches(y + Repeat(c, k));
      && |s| == |r| > 0 && s[..|s| - 1] == r[..|r| - 1] && s[|s| - 1] == Stretch(c, r[|r| - 1].length + k)
    decreases k
  {
    hide Stretches;
    if k == 0 {
      assert y + Repeat(c, 0) == y;
    } else {
      StretchesMore(y, c, k - 1);
      LongerRun(y, c, k - 1);
      NextStretches(y + Repeat(c, k - 1), c);
    }
  }

  lemma CountTakes(size: nat, y: seq<byte>, last: byte, c: byte)
    requires y != [] && TakesMuch(size, y, 4, last)
    ensures TakesMuch(size + 1, y + Repeat(last, c), 0, last)
  {
    hide StretchCodes, Stretches;
    var r := Stretches(y);
    StretchesMore(y, last, c);
    OneGroupMore(r[|r| - 1].length - 4, 4 + c);
  }

  lemma ByteTakes(size: nat, y: seq<byte>, run: nat, last: byte, c: byte)
    requires run < 4 && TakesMuch(size, y, run, last) && (y == [] ==> run == 0)
    ensures TakesMuch(size + 1, y + [c], if c == last then run + 1 else 1, c)
  {
    var r := Stretches(y);
    assert (y + [c])[..|y|] == y;
    if r != [] && c != last {
      var s := r[|r| - 1];
      GroupsAndBytes(s.length - run, run);
      CodeSize(s.ch, s.length);
      assert Stretches(y + [c])[..|r|] == r;
    } else if r == [] {
      assert Stretches(y + [c]) == [Stretch(c, 1)];
    } else {
      assert Stretches(y + [c])[..|r| - 1] == r[..|r| - 1];
    }
  }

  const START := Expander([], 0, 0)

  lemma {:induction false} CodeTakes(x: seq<byte>)
    ensures var e := ExpandAll(START, x);
      TakesMuch(|x|, e.out, e.run, e.last) && e.run <= 4 && (e.run > 0 ==> e.out != [])
    decreases |x|
  {
    hide *;
    if x == [] {
      NothingTakes();
    } else {
      var front, c := x[..|x| - 1], x[|x| - 1];
      CodeTakes(front);
      var e := ExpandAll(START, front);
      assert x == front + [c];
      ExpandAppend(START, front, c);
      ExpandedByte(e, c);
      if e.run == 4 {
        CountTakes(|front|, e.out, e.last, c);
      } else {
        ByteTakes(|front|, e.out, e.run, e.last, c);
      }
    }
  }

  lemma NothingTakes()
    ensures ExpandAll(START, []) == Expander([], 0, 0) && TakesMuch(0, [], 0, 0)
  {
  }

  lemma ExpandedByte(e: Expander, c: byte)
    ensures ExpandByte(e, c) == if e.run == 4 then Expander(e.out + Repeat(e.last, c), 0, e.last)
                                else Expander(e.out + [c], if c == e.last then e.run + 1 else 1, c)
  {
  }

  lemma TakesAll(size: nat, y: seq<byte>, run: nat, last: byte)
    requires TakesMuch(size, y, run, last) && run < 4
    ensures |PlainCode(y)| <= size
  {
    hide Stretches;
    var r := Stretches(y);
    if r != [] {
      var s := r[|r| - 1];
      GroupsAndBytes(s.length - run, run);
      CodeSize(s.ch, s.length);
      hide StretchCode;
    }
  }

  /** No code of the same bytes is shorter than the plain one. */
  lemma PlainIsShortest(x: seq<byte>, y: seq<byte>)
    requires Expand(x) == Expansion(y, true)
    ensures |PlainCode(y)| <= |x|
  {
    hide TakesMuch, PlainCode, ExpandAll;
    var e := ExpandAll(START, x);
    UnrleIsFold(START, x);
    EmittedNone(Unrle(x, 0, 0));
    CodeTakes(x);
    TakesAll(|x|, y, e.run, e.last);
  }

  // ----- what is collected is the plain code -----

  /** What of the code of `n` equal bytes has been written, and how many are in the run. */
  function Written(c: byte, n: nat): seq<byte>
    decreases n
  {
    if n < 4 then Repeat(c, n) else if n < 259 then Repeat(c, 4) else Repeat(c, 4) + [255] + Written(c, n - 259)
  }

  function Pending(n: nat): (r: nat)
    ensures r < 259
  {
    if n < 259 then n else Pending(n - 259)
  }

  lemma {:induction false} WrittenAndPending(c: byte, n: nat)
    ensures StretchCode(c, n) == Written(c, n) + if Pending(n) >= 4 then [Pending(n) - 4] else []
    decreases n
  {
    if n < 4 {
      assert Repeat(c, n) + [] == Repeat(c, n);
    } else if n == 259 {
      assert Repeat(c, 4) + [255] + [] == Repeat(c, 4) + [255];
    } else if n > 259 {
      WrittenAndPending(c, n - 259);
      Regrouped(Repeat(c, 4) + [255], Written(c, n - 259), if Pending(n) >= 4 then [Pending(n) - 4] else []);
    }
  }

  lemma {:induction false} OneMore(c: byte, n: nat)
    ensures var r := Pending(n);
      && (r < 4 ==> Written(c, n + 1) == Written(c, n) + [c] && Pending(n + 1) == r + 1)
      && (4 <= r < 258 ==> Written(c, n + 1) == Written(c, n) && Pending(n + 1) == r + 1)
      && (r == 258 ==> Written(c, n + 1) == Written(c, n) + [255] && Pending(n + 1) == 0)
    decreases n
  {
    if n < 4 {
      LongerRun([], c, n);
      assert [] + Repeat(c, n + 1) == Repeat(c, n + 1) && [] + Repeat(c, n) + [c] == Repeat(c, n) + [c];
    } else if n >= 259 {
      OneMore(c, n - 259);
      Regrouped(Repeat(c, 4) + [255], Written(c, n - 259), [c]);
      Regrouped(Repeat(c, 4) + [255], Written(c, n - 259), [255]);
    } else if n == 258 {
      assert Repeat(c, 4) + [255] + [] == Repeat(c, 4) + [255];
    }
  }

  /** The block holds the plain code of `x`, but for the count of an unfinished run. */
  ghost predicate Plain(st: Rle, x: seq<byte>) {
    var r := Stretches(x);
    if st.run == -1 then st.block == PlainCode(x)
    else if r == [] then st.block == [] && st.run == 0
    else
      var s := r[|r| - 1];
      && st.run == Pending(s.length) && (st.run > 0 ==> st.ch == s.ch)
      && st.block == StretchCodes(r[..|r| - 1]) + Written(s.ch, s.length)
  }

  lemma FinishedIsPlain(st: Rle, x: seq<byte>)
    requires -1 <= st.run < 259 && Plain(st, x)
    ensures Finished(st) == PlainCode(x)
  {
    var r := Stretches(x);
    if st.run != -1 && r != [] {
      var s, front := r[|r| - 1], StretchCodes(r[..|r| - 1]);
      WrittenAndPending(s.ch, s.length);
      Regrouped(front, Written(s.ch, s.length), if st.run >= 4 then [st.run - 4] else []);
      NothingBefore(st.block);
    }
  }

  /** The length of the unfinished run behind `y`. */
  function OpenRun(y: seq<byte>): nat {
    if y == [] then 0 else Pending(Stretches(y)[|Stretches(y)| - 1].length)
  }

  /** After byte `b` was offered: the block is plain; it is closed only if there was no room
      for the byte, or there is none for another one. */
  ghost predicate PlainAfter(max: nat, x: seq<byte>, b: byte, next: Rle, taken: bool) {
    && Plain(next, if taken then x + [b] else x)
    && (next.run == -1 ==> if taken then |PlainCode(x + [b])| >= max && OpenRun(x + [b]) < 4 else |PlainCode(x + [b])| > max)
  }

  /** The plain code by its last stretch. */
  lemma PlainBy(y: seq<byte>, front: seq<byte>, c: byte, n: nat)
    requires var r := Stretches(y); r != [] && StretchCodes(r[..|r| - 1]) == front && r[|r| - 1] == Stretch(c, n)
    ensures PlainCode(y) == front + Written(c, n) + (if Pending(n) >= 4 then [Pending(n) - 4] else [])
    ensures Plain(Rle(front + Written(c, n), Pending(n), c), y) && OpenRun(y) == Pending(n)
    ensures Pending(n) == 0 ==> Plain(Rle(front + Written(c, n), 0, 0), y)
    ensures Plain(Rle(PlainCode(y), -1, 0), y)
  {
    hide Stretches, Pending, Written, StretchCode;
    assert y != [];
    WrittenAndPending(c, n);
    Regrouped(front, Written(c, n), if Pending(n) >= 4 then [Pending(n) - 4] else []);
  }

  lemma SameByte(max: nat, st: Rle, b: byte, x: seq<byte>)
    requires Sound(max, st) && st.run >= 0 && Plain(st, x)
    requires Stretches(x) != [] && Stretches(x)[|Stretches(x)| - 1].ch == b
    ensures PlainAfter(max, x, b, Take(max, st, b).0, Take(max, st, b).1)
  {
    hide Stretches, Pending, Written, StretchCode, PlainCode, StretchCodes, OpenRun;
    var r := Stretches(x);
    var n, front := r[|r| - 1].length, StretchCodes(r[..|r| - 1]);
    NextStretches(x, b);
    OneMore(b, n);
    PlainBy(x, front, b, n);
    PlainBy(x + [b], front, b, n + 1);
    var block := st.block;
    assert block == front + Written(b, n) && st.run == Pending(n);
    hide Plain;
    Regrouped(front, Written(b, n), [b]);
    Regrouped(front, Written(b, n), [255]);
    NothingBefore(front + Written(b, n + 1));
    NothingBefore(block);
  }

  lemma OtherByte(max: nat, st: Rle, b: byte, x: seq<byte>)
    requires Sound(max, st) && st.run >= 0 && Plain(st, x)
    requires Stretches(x) == [] || Stretches(x)[|Stretches(x)| - 1].ch != b
    ensures PlainAfter(max, x, b, Take(max, st, b).0, Take(max, st, b).1)
  {
    NextStretches(x, b);
    FinishedIsPlain(st, x);
    assert Written(b, 1) == [b] && Pending(1) == 1;
    hide StretchCode, Written, Stretches;
    PlainBy(x + [b], PlainCode(x), b, 1);
  }

  lemma TakePlain(max: nat, st: Rle, b: byte, x: seq<byte>)
    requires Sound(max, st) && st.run >= 0 && Plain(st, x)
    ensures PlainAfter(max, x, b, Take(max, st, b).0, Take(max, st, b).1)
  {
    var r := Stretches(x);
    hide Plain, PlainAfter, Take, Sound, Stretches;
    if r != [] && r[|r| - 1].ch == b { SameByte(max, st, b, x); } else { OtherByte(max, st, b, x); }
  }

  /** Unless a count is to follow, another byte takes room. */
  lemma Grows(y: seq<byte>, c: byte)
    requires OpenRun(y) < 4
    ensures |PlainCode(y + [c])| > |PlainCode(y)|
  {
    hide Pending, Written, StretchCode, StretchCodes, Stretches;
    var r := Stretches(y);
    NextStretches(y, c);
    if r != [] && r[|r| - 1].ch == c {
      var n, front := r[|r| - 1].length, StretchCodes(r[..|r| - 1]);
      PlainBy(y, front, c, n);
      PlainBy(y + [c], front, c, n + 1);
      hide PlainCode, Plain;
      OneMore(c, n);
    } else {
      FirstOfStretch(c);
      PlainBy(y + [c], PlainCode(y), c, 1);
    }
  }

  lemma FirstOfStretch(c: byte)
    ensures Written(c, 1) == [c] && Pending(1) == 1
  {
  }

  /** From `x` on, `n` bytes of the input were collected, and no more fit. */
  ghost predicate Collected(max: nat, x: seq<byte>, input: seq<byte>, last: Rle, n: nat) {
    && n <= |input| && Plain(last, x + input[..n])
    && (n < |input| ==> |PlainCode(x + input[..n + 1])| > max)
  }

  lemma CollectedLater(max: nat, x: seq<byte>, input: seq<byte>, last: Rle, n: nat)
    requires input != [] && Collected(max, x + [input[0]], input[1..], last, n)
    ensures Collected(max, x, input, last, n + 1)
  {
    hide Plain, PlainCode;
    assert x + [input[0]] + input[1..][..n] == x + input[..n + 1];
    if n + 1 < |input| { assert x + [input[0]] + input[1..][..n + 1] == x + input[..n + 2]; }
  }

  lemma NothingCollected(max: nat, x: seq<byte>, input: seq<byte>, last: Rle)
    requires Plain(last, x) && (input != [] ==> |PlainCode(x + [input[0]])| > max)
    ensures Collected(max, x, input, last, 0)
  {
    hide Plain, PlainCode;
    assert x + input[..0] == x;
    if input != [] { assert input[..1] == [input[0]]; }
  }

  /** A closed block has no room for any byte. */
  ghost predicate ClosedFull(max: nat, st: Rle, x: seq<byte>) {
    st.run == -1 ==> |PlainCode(x)| >= max && OpenRun(x) < 4
  }

  lemma {:induction false} FeedPlain(max: nat, st: Rle, input: seq<byte>, x: seq<byte>)
    requires Sound(max, st) && Plain(st, x) && ClosedFull(max, st, x)
    ensures Collected(max, x, input, Feed(max, st, input).0, Feed(max, st, input).1)
    decreases |input|
  {
    Within(max, st);
    if input == [] {
      NothingCollected(max, x, input, st);
    } else if st.run == -1 {
      Grows(x, input[0]);
      NothingCollected(max, x, input, st);
    } else {
      hide Plain, Take, PlainCode, OpenRun, Sound, Collected, PlainAfter, ClosedFull;
      var b := input[0];
      var next, taken := Take(max, st, b).0, Take(max, st, b).1;
      TakeSound(max, st, b);
      Within(max, next);
      TakePlain(max, st, b, x);
      AfterTaking(max, x, b, next, taken);
      if taken {
        FeedPlain(max, next, input[1..], x + [b]);
        CollectedLater(max, x, input, Feed(max, next, input[1..]).0, Feed(max, next, input[1..]).1);
      } else {
        RefusedIsClosed(max, st, b);
        NothingCollected(max, x, input, next);
      }
    }
  }

  lemma RefusedIsClosed(max: nat, st: Rle, b: byte)
    requires Sound(max, st) && st.run >= 0
    ensures !Take(max, st, b).1 ==> Take(max, st, b).0.run == -1
  {
  }

  lemma AfterTaking(max: nat, x: seq<byte>, b: byte, next: Rle, taken: bool)
    requires PlainAfter(max, x, b, next, taken)
    ensures Plain(next, if taken then x + [b] else x)
    ensures taken ==> ClosedFull(max, next, x + [b])
    ensures !taken && next.run == -1 ==> |PlainCode(x + [b])| > max
  {
    hide Plain, PlainCode, OpenRun;
  }

  lemma Within(max: nat, st: Rle)
    requires Sound(max, st)
    ensures -1 <= st.run < 259
  {
  }

  /** The block is the plain code of the first `n` bytes, no block that expands to them is
      shorter, and if a byte is left over, no block of the maximal size expands to these
      bytes and that one. */
  ghost predicate BestBlock(block: seq<byte>, max: nat, input: seq<byte>, n: nat) {
    && n <= |input| && block == PlainCode(input[..n])
    && (forall x :: Expand(x) == Expansion(input[..n], true) ==> |block| <= |x|)
    && (n < |input| ==> forall x :: Expand(x) == Expansion(input[..n + 1], true) ==> |x| > max)
  }

  lemma CollectedPlain(max: nat, input: seq<byte>)
    requires max > 0
    ensures BestBlock(Finished(Feed(max, EMPTY, input).0), max, input, Feed(max, EMPTY, input).1)
  {
    var (st, n) := Feed(max, EMPTY, input);
    FeedPlain(max, EMPTY, input, []);
    hide Feed, PlainCode;
    NothingBefore(input[..n]);
    FinishedIsPlain(st, input[..n]);
    forall x | Expand(x) == Expansion(input[..n], true) ensures |Finished(st)| <= |x| { PlainIsShortest(x, input[..n]); }
    if n < |input| {
      NothingBefore(input[..n + 1]);
      forall x | Expand(x) == Expansion(input[..n + 1], true) ensures |x| > max { PlainIsShortest(x, input[..n + 1]); }
    }
  }
}
