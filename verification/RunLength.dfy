/** The initial run-length code: four equal bytes are followed by a repeat count. */
module RunLength {
  import opened Common

  /** What a block expands to; not `ok` when it ends where a count is due. */
  datatype Expansion = Expansion(out: seq<byte>, ok: bool)

  function Prepend(s: seq<byte>, e: Expansion): Expansion {
    Expansion(s + e.out, e.ok)
  }

  /** One-pass expansion, after a run of `run` copies of `last`. */
  function Unrle(blk: seq<byte>, run: nat, last: byte): (e: Expansion)
    decreases |blk|
  {
    if blk == [] then Expansion([], true)
    else
      var c := blk[0];
      var r := if c == last then run + 1 else 1;
      if r < 4 then Prepend([c], Unrle(blk[1..], r, c))
      else if |blk| == 1 then Expansion([c], false)
      else Prepend([c] + Repeat(c, blk[1]), Unrle(blk[2..], 0, c))
  }

  /** The expansion of a whole block. */
  function Expand(blk: seq<byte>): Expansion {
    Unrle(blk, 0, 0)
  }

  lemma PrependPrepend(a: seq<byte>, b: seq<byte>, e: Expansion)
    ensures Prepend(a, Prepend(b, e)) == Prepend(a + b, e)
  {
    assert a + (b + e.out) == a + b + e.out;
  }

  /** The expansion still owed by an emitter that stands at point `pc` of its
      automaton with current character `c`, previous character `d` and unread
      characters `l`.  Points 1, 2 and 3 are about to write `c` after a run of that
      many `d`s, point 4 owes `c` more copies of `d`, point 0 starts afresh, point 5
      writes `c` afresh, and point 6 has just written the first `c` of a run. */
  function Owed(pc: int, c: byte, d: byte, l: seq<byte>): Expansion {
    if pc == 0 then Unrle(l, 0, d)
    else if pc == 4 then Prepend(Repeat(d, c), Unrle(l, 0, d))
    else if pc == 5 then Unrle([c] + l, 0, d)
    else if pc == 6 then Unrle(l, 1, c)
    else if pc > 0 then Unrle([c] + l, pc, d)
    else Unrle(l, 0, d)
  }

  lemma OwedFetch(pc: int, c: byte, d: byte, l: seq<byte>)
    requires pc == 0 || pc == 6
    ensures l == [] ==> Owed(pc, c, d, l) == Expansion([], true)
    ensures l != [] ==> Owed(pc, c, d, l) == Owed(if pc == 0 then 5 else 1, l[0], if pc == 0 then d else c, l[1..])
  {
    if l != [] {
      assert [l[0]] + l[1..] == l;
    }
  }

  lemma OwedFresh(c: byte, d: byte, e: byte, l: seq<byte>)
    ensures Owed(5, c, d, l) == Prepend([c], Owed(6, c, e, l))
  {
    assert ([c] + l)[1..] == l;
  }

  lemma OwedWrite(pc: int, c: byte, d: byte, l: seq<byte>)
    requires 1 <= pc <= 3
    ensures c != d ==> Owed(pc, c, d, l) == Prepend([c], Owed(6, c, d, l))
    ensures c == d && l == [] ==> Owed(pc, c, d, l) == Expansion([c], pc < 3)
    ensures c == d && l != [] ==> Owed(pc, c, d, l) == Prepend([c], Owed(pc + 1, l[0], d, l[1..]))
  {
    assert ([c] + l)[1..] == l;
    if l == [] {
      assert Unrle(l, pc + 1, c) == Expansion([], true);
      assert [c] + l == [c];
      assert pc < 3 ==> Unrle([c] + l, pc, c) == Prepend([c], Unrle(l, pc + 1, c));
    } else {
      assert [l[0]] + l[1..] == l;
      assert ([c] + l)[2..] == l[1..];
      if c == d && pc == 3 {
        PrependPrepend([c], Repeat(c, l[0]), Unrle(l[1..], 0, c));
      }
    }
  }

  lemma OwedRun(c: byte, d: byte, l: seq<byte>, m: nat)
    ensures m < c ==> Owed(4, c, d, l) == Prepend(Repeat(d, m), Owed(4, c - m, d, l))
    ensures Owed(4, c, d, l) == Prepend(Repeat(d, c), Owed(0, c, d, l))
  {
    if m < c {
      RepeatSplit(d, m, c - m);
      PrependPrepend(Repeat(d, m), Repeat(d, c - m), Unrle(l, 0, d));
    }
  }

  /** Output of `out` takes an emitter that owed `before` to one that owes `after`. */
  lemma Emitted(total: Expansion, written: seq<byte>, before: Expansion, out: seq<byte>, after: Expansion)
    requires total == Prepend(written, before) && before == Prepend(out, after)
    ensures total == Prepend(written + out, after)
  {
    PrependPrepend(written, out, after);
  }

  lemma EmittedNone(e: Expansion)
    ensures Prepend([], e) == e
  {
    assert [] + e.out == e.out;
  }

  lemma EmittedAll(total: Expansion, written: seq<byte>, out: seq<byte>, ok: bool)
    requires total == Prepend(written, Expansion(out, ok))
    ensures total == Expansion(written + out, ok)
  {
  }

  // ----- expansion as a left fold -----

  /** An expander that has produced `out`; `run` counts the last equal bytes and is
      four when a repeat count is due. */
  datatype Expander = Expander(out: seq<byte>, run: nat, last: byte)

  function ExpandByte(e: Expander, c: byte): Expander {
    if e.run == 4 then Expander(e.out + Repeat(e.last, c), 0, e.last)
    else Expander(e.out + [c], if c == e.last then e.run + 1 else 1, c)
  }

  function ExpandAll(e: Expander, blk: seq<byte>): Expander
    decreases |blk|
  {
    if blk == [] then e else ExpandByte(ExpandAll(e, blk[..|blk| - 1]), blk[|blk| - 1])
  }

  lemma {:induction false} ExpandAllFirst(e: Expander, blk: seq<byte>)
    requires blk != []
    ensures ExpandAll(e, blk) == ExpandAll(ExpandByte(e, blk[0]), blk[1..])
    decreases |blk|
  {
    if |blk| > 1 {
      ExpandAllFirst(e, blk[..|blk| - 1]);
      assert blk[..|blk| - 1][1..] == blk[1..][..|blk| - 2];
    }
  }

  /** The recursive expansion and the fold agree. */
  lemma {:induction false} UnrleIsFold(e: Expander, blk: seq<byte>)
    requires e.run < 4
    ensures var f := ExpandAll(e, blk);
      Prepend(e.out, Unrle(blk, e.run, e.last)) == Expansion(f.out, f.run != 4)
    decreases |blk|
  {
    if blk == [] {
      assert e.out + [] == e.out;
    } else {
      ExpandAllFirst(e, blk);
      var f := ExpandByte(e, blk[0]);
      if f.run < 4 {
        UnrleIsFold(f, blk[1..]);
        PrependPrepend(e.out, [blk[0]], Unrle(blk[1..], f.run, f.last));
      } else if |blk| > 1 {
        ExpandAllFirst(f, blk[1..]);
        var g := ExpandByte(f, blk[1]);
        assert blk[1..][1..] == blk[2..];
        UnrleIsFold(g, blk[2..]);
        var tail := Unrle(blk[2..], 0, blk[0]);
        PrependPrepend(e.out, [blk[0]] + Repeat(blk[0], blk[1]), tail);
        assert e.out + [blk[0]] + Repeat(blk[0], blk[1]) == e.out + ([blk[0]] + Repeat(blk[0], blk[1]));
      }
    }
  }
}
