/** Expanding a block: retrieving it, undoing the sorting, and emitting it, whatever
    pieces the input comes in and whatever buffers the output goes to. */
module Expanding {
  import opened Common
  import opened Bits
  import opened Crc
  import opened CountingSort
  import opened Randomizer
  import opened RunLength
  import NodeList
  import opened Decoders
  import opened BlockFormat
  import opened Bitstreams
  import opened Retrievers
  import opened Feeding

  /** A run does not go on before it has started. */
  lemma UnrleFresh(l: seq<byte>, d: byte, e: byte)
    ensures Unrle(l, 0, d) == Unrle(l, 0, e)
  {
  }

  /** Emits a block into buffers of any sizes. */
  method EmitAll(d: Decoder, sizes: nat -> nat) returns (rv: Status, out: seq<byte>)
    requires d.Emitting() && forall k: nat :: 0 < sizes(k) <= 0x7FFF_FFFF
    modifies d
    ensures rv == OK || rv == ERR_RUNLEN
    ensures old(d.Remaining()) == Expansion(out, rv == OK)
    ensures rv == OK ==> d.crc == M1 - CrcFold(old(d.rleCrc), out)
  {
    ghost var total, crc0 := d.Remaining(), d.rleCrc;
    out := [];
    EmittedNone(total);
    CrcFoldEmpty(crc0);
    var k: nat := 0;
    while true
      invariant d.Emitting()
      invariant total == Prepend(out, d.Remaining()) && d.rleCrc == CrcFold(crc0, out)
      decreases |d.Remaining().out|
    {
      var buf := new byte[sizes(k)];
      k := k + 1;
      ghost var before := d.Remaining();
      var left;
      rv, left := d.Emit(buf);
      var piece := buf[..buf.Length - left];
      CrcFoldConcat(crc0, out, piece);
      if rv != MORE {
        out := out + piece;
        return;
      }
      assert piece == buf[..];
      Emitted(total, out, before, piece, d.Remaining());
      out := out + piece;
    }
  }

  /** What the column of a block expands to. */
  ghost function Plain(table: stepTable, rand: bool, idx: nat, column: seq<byte>): Expansion
    requires idx < |column|
  {
    var t := Unsorted(column, idx);
    Expand(if rand then Derandomized(table, t) else t)
  }

  /** The block size and characters that the retriever leaves to the decoder. */
  method Handed(r: Retriever, ghost column: seq<byte>) returns (c: seq<byte>)
    requires Stored(r.tt[..], r.blockSize, column)
    ensures c == column
  {
    c := [];
    for i := 0 to r.blockSize
      invariant c == column[..i]
    {
      assert r.tt[..][i] == column[i];
      c := c + [r.tt[i]];
    }
    assert column[..r.blockSize] == column;
  }

  lemma LeadsTo(r: Retriever, rv: Status, goal: Outcome, b: seq<bit>)
    requires r.Leads(rv, goal, b) && rv != MORE
    ensures if rv == OK then
        && goal == Reads(r.rand, r.bwtIdx, goal.column, b) && r.bwtIdx < |goal.column| <= MAX_BLOCK_SIZE
        && Stored(r.tt[..], r.blockSize, goal.column)
      else goal == Fails(rv)
  {
    hide Retriever.Structure;
  }

  lemma StartsFresh(c: byte, d: byte, l: seq<byte>)
    ensures Owed(0, c, d, l) == Expand(l)
  {
    UnrleFresh(l, d, 0);
  }

  /** Expands a block.  The result is what its bits mean in the simple form. */
  method ExpandBlock(table: stepTable, bs: Bitstream, pieces: seq<seq<uint32>>, sizes: nat -> nat)
    returns (rv: Status, out: seq<byte>, crc: uint32, ghost rest: seq<bit>)
    requires bs.Valid() && forall k: nat :: 0 < sizes(k) <= 0x7FFF_FFFF
    modifies bs
    ensures var goal := ReadBlock(old(bs.Bits()) + WordBits(Flat(pieces)));
      if goal.Fails? then rv == goal.status && out == []
      else
        && goal.idx < |goal.column|
        && Plain(table, goal.rand, goal.idx, goal.column) == Expansion(out, rv == OK)
        && goal.rest == rest && rv in {OK, ERR_RUNLEN}
        && (rv == OK ==> crc == M1 - CrcFold(M1, out))
  {
    hide Retriever.Leads, ReadBlock, Owed, Unrle, Derandomized, Unsorted;
    ghost var goal := ReadBlock(bs.Bits() + WordBits(Flat(pieces)));
    var r;
    ghost var taken;
    rv, r, taken := RetrieveInPieces(bs, pieces);
    rest := bs.Bits() + Future(pieces, taken);
    out, crc := [], 0;
    LeadsTo(r, rv, goal, rest);
    if rv != OK { return; }
    var column := Handed(r, goal.column);
    var d := new Decoder(table, column, r.rand, r.bwtIdx);
    d.Decode(column);
    StartsFresh(d.rleChar, d.rlePrev, NodeList.Listed(d.tt[..], d.rleIndex, d.rleAvail));
    CrcFoldEmpty(M1);
    rv, out := EmitAll(d, sizes);
    crc := d.crc;
  }
}
