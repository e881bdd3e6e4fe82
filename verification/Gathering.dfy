/** Blocks gathered from input that arrives in pieces. */
module Gathering {
  import opened Common
  import opened Crc
  import opened RunLength
  import opened Collecting
  import opened RunCodes
  import opened Collectors

  /** However the input is cut into pieces, collecting them one after another comes to what
      collecting all of it at once does: the same block, map of characters, checksum and
      number of bytes taken. */
  method CollectInPieces(c: Collector, pieces: seq<seq<byte>>) returns (full: bool, consumed: nat)
    requires c.Valid() && c.rleState >= 0
    modifies c, c.cmap, c.block
    ensures c.Valid()
    ensures (c.State(), consumed) == Feed(c.maxBlockSize, old(c.State()), Flat(pieces))
    ensures c.blockCrc == CrcFold(old(c.blockCrc), Flat(pieces)[..consumed])
    ensures full == (c.rleState == -1)
  {
    hide Feed, CrcFold, Flat, Sound, Mapped;
    ghost var all, st0, crc0, max := Flat(pieces), c.State(), c.blockCrc, c.maxBlockSize;
    full, consumed := false, 0;
    var i := 0;
    FeedNothing(max, st0, crc0, pieces);
    while !full && i < |pieces|
      invariant 0 <= i <= |pieces| && c.Valid() && full == (c.rleState == -1)
      invariant full ==> (c.State(), consumed) == Feed(max, st0, all) && consumed <= |all|
      invariant !full ==> (c.State(), consumed) == Feed(max, st0, Flat(pieces[..i])) && consumed == |Flat(pieces[..i])|
      invariant consumed <= |all| && c.blockCrc == CrcFold(crc0, all[..consumed])
      decreases |pieces| - i, if full then 0 else 1
    {
      var input := new byte[|pieces[i]|](k requires 0 <= k < |pieces[i]| => pieces[i][k]);
      assert input[..] == pieces[i];
      ghost var mid, crc, m := c.State(), c.blockCrc, consumed;
      var n;
      full, n := c.Collect(input);
      PieceTaken(max, st0, pieces, i, mid, m, n, crc0, crc);
      consumed := consumed + n;
      i := i + 1;
    }
    assert pieces[..|pieces|] == pieces;
  }

  lemma FeedNothing(max: nat, st: Rle, crc: uint32, pieces: seq<seq<byte>>)
    requires -1 <= st.run < 259
    ensures Feed(max, st, Flat(pieces[..0])) == (st, 0) && Flat(pieces[..0]) == []
    ensures CrcFold(crc, Flat(pieces)[..0]) == crc
  {
  }

  /** One more piece was offered, and `n` of its bytes taken. */
  lemma PieceTaken(max: nat, st0: Rle, pieces: seq<seq<byte>>, i: nat, mid: Rle, m: nat, n: nat, crc0: uint32, crc: uint32)
    requires i < |pieces| && -1 <= st0.run < 259 && -1 <= mid.run < 259
    requires (mid, m) == Feed(max, st0, Flat(pieces[..i])) && m == |Flat(pieces[..i])|
    requires n == Feed(max, mid, pieces[i]).1 && m <= |Flat(pieces)| && crc == CrcFold(crc0, Flat(pieces)[..m])
    ensures var st := Feed(max, mid, pieces[i]).0;
      if st.run == -1 then Feed(max, st0, Flat(pieces)) == (st, m + n)
      else Feed(max, st0, Flat(pieces[..i + 1])) == (st, m + n) && m + n == |Flat(pieces[..i + 1])|
    ensures m + n <= |Flat(pieces)| && CrcFold(crc, pieces[i][..n]) == CrcFold(crc0, Flat(pieces)[..m + n])
  {
    hide Flat, CrcFold, Feed;
    FlatSplit(pieces, i);
    FlatLast(pieces[..i], pieces[i]);
    assert pieces[..i] + [pieces[i]] == pieces[..i + 1];
    FeedPiece(max, st0, Flat(pieces[..i]), pieces[i], Flat(pieces[i + 1..]), mid, n, crc0);
  }

  lemma FeedPiece(max: nat, st0: Rle, a: seq<byte>, p: seq<byte>, rest: seq<byte>, mid: Rle, n: nat, crc0: uint32)
    requires -1 <= st0.run < 259 && -1 <= mid.run < 259 && (mid, |a|) == Feed(max, st0, a) && n == Feed(max, mid, p).1
    ensures Feed(max, st0, a + p) == (Feed(max, mid, p).0, |a| + n)
    ensures Feed(max, mid, p).0.run == -1 ==> Feed(max, st0, a + p + rest) == Feed(max, st0, a + p)
    ensures Feed(max, mid, p).0.run != -1 ==> n == |p|
    ensures CrcFold(CrcFold(crc0, (a + p + rest)[..|a|]), p[..n]) == CrcFold(crc0, (a + p + rest)[..|a| + n])
  {
    hide CrcFold, Feed;
    FeedConcat(max, st0, a, p);
    if Feed(max, mid, p).0.run == -1 { FeedStops(max, st0, a + p, rest); }
    assert (a + p + rest)[..|a|] == a && (a + p + rest)[..|a| + n] == a + p[..n];
    CrcFoldConcat(crc0, a, p[..n]);
  }

  lemma FlatSplit<T>(pieces: seq<seq<T>>, i: nat)
    requires i < |pieces|
    ensures Flat(pieces) == Flat(pieces[..i]) + pieces[i] + Flat(pieces[i + 1..])
  {
    assert pieces == pieces[..i] + pieces[i..];
    FlatConcat(pieces[..i], pieces[i..]);
    assert pieces[i..][1..] == pieces[i + 1..];
    Regrouped(Flat(pieces[..i]), pieces[i], Flat(pieces[i + 1..]));
  }

  /** A block that takes no more takes no more, whatever follows. */
  lemma FeedStops(max: nat, st: Rle, a: seq<byte>, b: seq<byte>)
    requires -1 <= st.run < 259 && Feed(max, st, a).0.run == -1
    ensures Feed(max, st, a + b) == Feed(max, st, a)
  {
    FeedConcat(max, st, a, b);
  }

  // ----- whole inputs -----

  /** The pieces without their first `n` bytes. */
  function Rest(pieces: seq<seq<byte>>, n: nat): (r: seq<seq<byte>>)
    requires n <= |Flat(pieces)|
    ensures Flat(r) == Flat(pieces)[n..]
  {
    if pieces == [] then []
    else if n < |pieces[0]| then
      assert (pieces[0] + Flat(pieces[1..]))[n..] == pieces[0][n..] + Flat(pieces[1..]);
      [pieces[0][n..]] + pieces[1..]
    else
      assert (pieces[0] + Flat(pieces[1..]))[n..] == Flat(pieces[1..])[n - |pieces[0]|..];
      Rest(pieces[1..], n - |pieces[0]|)
  }

  /** The blocks, expanded one after another. */
  function ExpandBlocks(blocks: seq<seq<byte>>): seq<byte> {
    if blocks == [] then [] else ExpandBlocks(blocks[..|blocks| - 1]) + Expand(blocks[|blocks| - 1]).out
  }

  /** Gathers the next block. */
  method GatherBlock(pieces: seq<seq<byte>>, maxBlockSize: nat) returns (c: Collector, consumed: nat)
    requires Flat(pieces) != [] && 0 < maxBlockSize <= MAX_BLOCK_SIZE
    ensures 0 < consumed <= |Flat(pieces)| && 0 < c.nblock <= maxBlockSize == c.block.Length && c.cmap.Length == 256
    ensures Expand(c.block[..c.nblock]) == Expansion(Flat(pieces)[..consumed], true)
    ensures Mapped(c.cmap[..], c.block[..c.nblock]) && c.blockCrc == CrcFold(M1, Flat(pieces)[..consumed])
    ensures BestBlock(c.block[..c.nblock], maxBlockSize, Flat(pieces), consumed)
  {
    hide Expand, Feed, CrcFold, Finished, Sound, Flat, BestBlock;
    CollectedExpands(maxBlockSize, Flat(pieces));
    CollectedPlain(maxBlockSize, Flat(pieces));
    c := new Collector(maxBlockSize);
    var full;
    full, consumed := CollectInPieces(c, pieces);
    c.Finish();
    SomeBlock(c.block[..c.nblock], Flat(pieces)[..consumed]);
  }

  /** Something was collected, so the block is not empty. */
  lemma SomeBlock(block: seq<byte>, x: seq<byte>)
    requires Expand(block) == Expansion(x, true) && x != []
    ensures block != []
  {
  }

  /** Gathers blocks until the input is used up.  Expanding them one after another gives the
      input back, and each is no longer than allowed. */
  method GatherAll(input: seq<seq<byte>>, maxBlockSize: nat) returns (blocks: seq<seq<byte>>)
    requires 0 < maxBlockSize <= MAX_BLOCK_SIZE
    ensures ExpandBlocks(blocks) == Flat(input)
    ensures forall i :: 0 <= i < |blocks| ==> 0 < |blocks[i]| <= maxBlockSize && Expand(blocks[i]).ok
  {
    hide Flat, Expand, Mapped, CrcFold, BestBlock;
    blocks := [];
    var pieces := input;
    ghost var all, at := Flat(input), 0;
    assert all[0..] == all && all[..0] == [];
    while Flat(pieces) != []
      invariant at <= |all| && Flat(pieces) == all[at..] && ExpandBlocks(blocks) == all[..at]
      invariant forall i :: 0 <= i < |blocks| ==> 0 < |blocks[i]| <= maxBlockSize && Expand(blocks[i]).ok
      decreases |all| - at
    {
      var c, n := GatherBlock(pieces, maxBlockSize);
      assert all[at..][..n] == all[at..at + n] && all[..at] + all[at..at + n] == all[..at + n] && all[at..][n..] == all[at + n..];
      assert (blocks + [c.block[..c.nblock]])[..|blocks|] == blocks;
      blocks := blocks + [c.block[..c.nblock]];
      pieces := Rest(pieces, n);
      at := at + n;
    }
  }
}
