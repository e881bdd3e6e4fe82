/** Compressing a collected block, given a correct sort of it. */
module Compressing {
  import opened Common
  import opened Bits
  import opened Bwt
  import Collecting
  import opened MoveToFront
  import opened MtfEncoder
  import opened BlockFormat
  import opened BlockBits
  import opened PrefixForest
  import opened EncodingPlan
  import opened Bitstreams
  import opened Encoding
  import opened Transmitter

  // ----- the characters in use -----

  /** The map of characters in use, read as bits, marks those the encoder numbers. */
  lemma {:induction false} MarkedUsed(inuse: seq<bool>)
    requires |inuse| <= 256
    ensures Marked(0, MarksOf(inuse)) == Used(inuse)
    decreases |inuse|
  {
    if inuse != [] {
      var n := |inuse| - 1;
      MarkedUsed(inuse[..n]);
      var last: bit := if inuse[n] then 1 else 0;
      assert MarksOf(inuse) == MarksOf(inuse[..n]) + [last];
      MarkedSplit(0, MarksOf(inuse[..n]), [last]);
      assert [last][1..] == [];
      assert Marked(n + 1, []) == [];
      assert Marked(n, [last]) == if inuse[n] then [n as byte] else [];
    }
  }

  /** A sorted column holds the characters of its block. */
  lemma ColumnCharacters(t: seq<byte>, col: seq<byte>, idx: int)
    requires IsBwt(t, col, idx)
    ensures |col| == |t| && 0 <= idx < |t| && forall i :: 0 <= i < |col| ==> col[i] in t
  {
    var sa: seq<int> :| BwtVia(t, sa, col, idx);
    forall i | 0 <= i < |col| ensures col[i] in t {
      assert 0 <= sa[i] < |t|;
    }
  }

  lemma UsedCovers(inuse: seq<bool>, block: seq<byte>, col: seq<byte>)
    requires Collecting.Mapped(inuse, block) && block != []
    requires forall i :: 0 <= i < |col| ==> col[i] in block
    ensures Covers(Used(inuse), col) && 0 < |Used(inuse)|
  {
    assert block[0] in block;
  }

  // ----- the values -----

  lemma {:induction false} SymbolsEnded(l: seq<byte>, run: nat, chars: seq<byte>)
    requires l != [] && Covers(l, chars)
    ensures Ended(Symbols(l, run, chars), |l| + 1)
    decreases |chars|
  {
    var s := Symbols(l, run, chars);
    if chars == [] {
      EndedAfter(RunDigits(run), [|l| + 1], |l| + 1);
    } else if chars[0] == l[0] {
      CoversNext(l, chars, 0);
      SymbolsEnded(l, run + 1, chars[1..]);
    } else {
      CoversFirst(l, chars);
      var i := Find(l, chars[0]);
      CoversNext(l, chars, i);
      var rest := Symbols(ToFront(l, i), 0, chars[1..]);
      SymbolsEnded(ToFront(l, i), 0, chars[1..]);
      EndedAfter(RunDigits(run) + [i + 1], rest, |l| + 1);
    }
  }

  lemma EndedAfter(a: seq<nat>, b: seq<nat>, eob: nat)
    requires Ended(b, eob) && forall i :: 0 <= i < |a| ==> a[i] < eob
    ensures Ended(a + b, eob)
  {
    var s := a + b;
    forall i {:trigger s[i]} | 0 <= i < |s| - 1 ensures s[i] < eob {
      if i >= |a| { assert s[i] == b[i - |a|]; }
    }
  }

  /** The sorted column as the sorter leaves it: 32-bit entries. */
  method LayColumn(col: seq<byte>) returns (mem: array<uint16>)
    ensures fresh(mem) && mem.Length == 2 * |col| + 2 && Unread(mem[..], col, 0)
  {
    mem := new uint16[2 * |col| + 2](_ => 0);
    for i := 0 to |col|
      invariant forall j {:trigger mem[j]} :: 2 * i <= j < mem.Length ==> mem[j] == 0
      invariant forall j :: 0 <= j < i ==> Entry(mem[..], j) == col[j]
    {
      mem[2 * i] := col[i];
      assert Entry(mem[..], i) == col[i];
    }
  }

  /** Codes the column as values. */
  method CodeColumn(inuse: array<bool>, col: seq<byte>, ghost block: seq<byte>) returns (values: seq<nat>, n: nat)
    requires inuse.Length == 256 && Collecting.Mapped(inuse[..], block) && block != []
    requires forall i :: 0 <= i < |col| ==> col[i] in block
    ensures n == |Used(inuse[..])| + 2 && MIN_ALPHA_SIZE <= n <= MAX_ALPHA_SIZE
    ensures values == Symbols(Used(inuse[..]), 0, col) && |values| <= |col| + 1
  {
    ghost var used := Used(inuse[..]);
    UsedCovers(inuse[..], block, col);
    var cmap := new byte[256](_ => 0);
    var eob := MakeMap(cmap, inuse);
    eob := eob + 1;
    var mem := LayColumn(col);
    var freq := new nat[eob + 1](_ => 0);
    var nmtf := DoMtf(mem, freq, cmap, |col|, eob, col, used);
    values := mem[..nmtf];
    n := eob + 1;
  }

  /** The tree chosen for each group: any choice among the trees there are. */
  method ChooseTrees(choice: nat -> nat, groups: nat, nt: nat) returns (selector: seq<nat>)
    requires nt > 0
    ensures |selector| == groups && forall g {:trigger selector[g]} :: 0 <= g < groups ==> selector[g] < nt
  {
    selector := seq(groups, g requires 0 <= g => choice(g) % nt);
  }

  lemma CompletedGrouped(values: seq<nat>, selector: seq<nat>, n: nat, nt: nat)
    requires |selector| == Groups(|values|) && nt <= MAX_TREES && n > 0 && Ended(values, n - 1)
    requires forall g {:trigger selector[g]} :: 0 <= g < |selector| ==> selector[g] < nt
    ensures Grouped(Completed(values, n), selector, n) && selector != []
  {
    var v := Completed(values, n);
    EndedBelow(values, n - 1);
    forall i {:trigger v[i]} | 0 <= i < |v| ensures v[i] <= n {
      if i < |values| { assert v[i] == values[i]; }
    }
  }

  /** Compresses a block.  Reading the bits it writes returns the column and the index of
      the sort. */
  method CompressBlock(inuse: array<bool>, blockCrc: uint32, col: seq<byte>, idx: nat, choice: nat -> nat,
                       ghost block: seq<byte>)
    returns (out: seq<uint32>, size: nat, ghost coded: BlockBits.Coded)
    requires inuse.Length == 256 && Collecting.Mapped(inuse[..], block) && 0 < |block| <= MAX_BLOCK_SIZE
    requires IsBwt(block, col, idx)
    ensures Codes(coded, col) && coded.idx == idx
    ensures 8 * size == 80 + |BitsOf(coded)| && |out| == (size + 3) / 4 && 32 * |out| >= 8 * size
    ensures WordBits(out) == HeaderBits(blockCrc) + BitsOf(coded) + Repeat<bit>(0, 32 * |out| - 8 * size)
  {
    hide IsBwt, Codes, BitsOf, Prepared, Planned, Symbols, Used, Covers, Ended;
    ColumnCharacters(block, col, idx);
    var values, n := CodeColumn(inuse, col, block);
    MarkedUsed(inuse[..]);
    UsedCovers(inuse[..], block, col);
    SymbolsEnded(Used(inuse[..]), 0, col);
    var nt := TreesFor(|values|);
    var selector := ChooseTrees(choice, Groups(|values|), nt);
    CompletedGrouped(values, selector, n, nt);
    var plan := GeneratePrefixCode(Completed(values, n), selector, nt, n);
    Ready(inuse[..], values, selector, plan, n);
    var mtf, treePad;
    mtf, treePad, size := LayOut(inuse[..], selector, plan, n, values, idx);
    ValuesSpell(Used(inuse[..]), col);
    LaidOut(idx, inuse[..], values, selector, plan, n, mtf, treePad, col);
    coded := CodedOf(idx, inuse[..], values, selector, plan, n, mtf, treePad);
    out := Transmit(blockCrc, idx, inuse[..], values, selector, plan, n, mtf, treePad, size);
  }

  lemma Ready(inuse: seq<bool>, values: seq<nat>, selector: seq<nat>, plan: Plan, n: nat)
    requires |inuse| == 256 && |Marked(0, MarksOf(inuse))| + 2 == n
    requires Planned(plan, Completed(values, n), selector, n) && Ended(values, n - 1) && |values| <= MAX_BLOCK_SIZE + 1
    ensures Prepared(inuse, values, selector, plan, n)
  {
  }

  /** Decoding the values of a column returns the column. */
  lemma ValuesSpell(l: seq<byte>, col: seq<byte>)
    requires l != [] && Covers(l, col)
    ensures Unsymbols(l, 0, 0, Symbols(l, 0, col)) == Block(col)
  {
    SymbolsInverse(l, 0, 0, col);
    assert Repeat(l[0], 0) == [];
    NothingBefore(col);
  }
}
