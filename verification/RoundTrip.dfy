/** The two halves of the codec together: whatever is collected, compressed and expanded
    again comes back, with its checksum. */
module RoundTrip {
  import opened Common
  import opened Powers
  import opened Bits
  import opened Crc
  import opened Bwt
  import opened CountingSort
  import opened Randomizer
  import opened RunLength
  import Collecting
  import opened Gathering
  import opened InducedSort
  import opened BlockFormat
  import opened BlockBits
  import opened Bitstreams
  import opened Feeding
  import opened HeaderParser
  import opened Transmitter
  import opened Expanding
  import opened Compressing

  lemma HeaderLength(crc: uint32)
    ensures |HeaderBits(crc)| == 80
  {
    hide ToBits;
  }

  /** Cuts words into pieces of the given sizes. */
  method CutUp(words: seq<uint32>, sizes: nat -> nat) returns (pieces: seq<seq<uint32>>)
    requires forall k: nat :: 0 < sizes(k)
    ensures Flat(pieces) == words
  {
    pieces := [];
    var at, k: nat := 0, 0;
    NothingBefore(words);
    while at < |words|
      invariant at <= |words| && Flat(pieces) == words[..at]
    {
      var n := if sizes(k) < |words| - at then sizes(k) else |words| - at;
      FlatLast(pieces, words[at..at + n]);
      assert words[..at] + words[at..at + n] == words[..at + n];
      pieces := pieces + [words[at..at + n]];
      at, k := at + n, k + 1;
    }
    assert words[..at] == words;
  }

  /** Expands a compressed block out of a stream of words, however they are cut and whatever
      follows the block there. */
  method ExpandStream(table: stepTable, stream: seq<uint32>, cuts: nat -> nat, sizes: nat -> nat,
                      ghost crc0: uint32, ghost coded: BlockBits.Coded, ghost col: seq<byte>, ghost rest: seq<bit>)
    returns (rv: Status, out: seq<byte>, stored: uint32, computed: uint32)
    requires |rest| >= 32 && Codes(coded, col)
    requires WordBits(stream) == HeaderBits(crc0) + (BitsOf(coded) + rest)
    requires forall k: nat :: 0 < sizes(k) <= 0x7FFF_FFFF && 0 < cuts(k)
    ensures stored == M1 - crc0 && coded.idx < |col|
    ensures Expand(Unsorted(col, coded.idx)) == Expansion(out, rv == OK) && rv in {OK, ERR_RUNLEN}
    ensures rv == OK ==> computed == M1 - CrcFold(M1, out)
  {
    hide ReadBlock, BitsOf, Codes, Unsorted, WordBits, HeaderBits, Expand, Derandomized, ParseBits, Flat, Future;
    ColumnIndex(coded, col);
    var pieces := CutUp(stream, cuts);
    var bs := new Bitstream([], false);
    var parser := new Parser(9, false);
    assert WordBits([]) == [] by { NoWords(); }
    NothingBefore(WordBits(stream));
    HeaderParsed(parser.Now(), crc0, BitsOf(coded) + rest);
    var answer, taken := ParseInPieces(parser, bs, pieces);
    stored := answer.crc;
    BlockRead(coded, col, rest);
    FutureIs(pieces, taken);
    ghost var left;
    rv, out, computed, left := ExpandBlock(table, bs, pieces[taken..], sizes);
  }

  lemma FutureIs(pieces: seq<seq<uint32>>, i: nat)
    requires i <= |pieces|
    ensures Future(pieces, i) == WordBits(Flat(pieces[i..]))
  {
  }

  lemma ColumnIndex(coded: BlockBits.Coded, col: seq<byte>)
    requires Codes(coded, col)
    ensures coded.idx < |col| && |coded.marks| == 256 && |coded.starts| == |coded.trees|
    ensures Suits(HeadOf(coded), coded.groups, 0, coded.values)
  {
    hide Suits;
  }

  /** Packs bits into words, the last of which is filled up with zeros. */
  method PackBits(bits: seq<bit>) returns (words: seq<uint32>, ghost pad: nat)
    ensures WordBits(words) == bits + Repeat<bit>(0, pad) && 32 * |words| >= |bits|
  {
    hide WordBits, Repeat;
    var n := (|bits| + 31) / 32;
    pad := 32 * n - |bits|;
    var padded := bits + Repeat<bit>(0, 32 * n - |bits|);
    words := [];
    assert padded[..0] == [] && WordBits([]) == [] by { NoWords(); }
    for k := 0 to n
      invariant |words| == k && WordBits(words) == padded[..32 * k]
    {
      var chunk := padded[32 * k..32 * k + 32];
      PackWord(words, chunk);
      assert padded[..32 * k] + chunk == padded[..32 * (k + 1)];
      words := words + [Val(chunk)];
    }
    assert padded[..32 * n] == padded;
  }

  lemma NoWords()
    ensures WordBits([]) == []
  {
  }

  lemma PackWord(words: seq<uint32>, chunk: seq<bit>)
    requires |chunk| == 32
    ensures Val(chunk) < 0x1_0000_0000 && WordBits(words + [Val(chunk)]) == WordBits(words) + chunk
  {
    Pow2Constants();
    hide Pow2;
    ToBitsVal(chunk);
    var w: uint32 := Val(chunk);
    WordBitsConcat(words, [w]);
    assert [w][1..] == [] && WordBits([w]) == ToBits(w, 32) + [];
  }

  /** The bits of a block, cut to its size, and what follows it. */
  lemma BlockFollowed(words: seq<uint32>, size: nat, head: seq<bit>, body: seq<bit>, tail: seq<bit>)
    requires 32 * |words| >= 8 * size == |head| + |body|
    requires WordBits(words) == head + body + Repeat<bit>(0, 32 * |words| - 8 * size)
    ensures |WordBits(words)| >= 8 * size && WordBits(words)[..8 * size] + tail == head + (body + tail)
  {
    hide WordBits, Repeat;
    var zeros := Repeat<bit>(0, 32 * |words| - 8 * size);
    assert (head + body + zeros)[..8 * size] == head + body;
    Regrouped(head, body, tail);
  }

  /** Collecting, compressing and expanding again: for every input, however it is cut into
      pieces, every way to sort the rotations of type B* and every choice of trees, whatever
      follows the compressed block, however its words are cut, and for every sequence of
      output buffers, what comes out is what was taken in, with the checksum stored in the
      block. */
  method RoundTripBlock(input: seq<seq<byte>>, maxBlockSize: nat, sortBstar: seq<byte> -> Bstar, choice: nat -> nat,
                        tail: seq<bit>, table: stepTable, cuts: nat -> nat, sizes: nat -> nat)
    returns (rv: Status, out: seq<byte>, consumed: nat, stored: uint32, computed: uint32)
    requires Flat(input) != [] && 0 < maxBlockSize <= MAX_BLOCK_SIZE && |tail| >= 32
    requires forall t: seq<byte> :: 1 < |t| <= MAX_BLOCK_SIZE ==> SortsBstar(t, sortBstar(t))
    requires forall k: nat :: 0 < sizes(k) <= 0x7FFF_FFFF && 0 < cuts(k)
    ensures rv == OK && 0 < consumed <= |Flat(input)| && out == Flat(input)[..consumed]
    ensures stored == computed == M1 - CrcFold(M1, Flat(input)[..consumed])
  {
    hide IsBwt, Codes, BitsOf, Expand, Unsorted, WordBits, HeaderBits, Collecting.Mapped, CrcFold, Suits, SortsBstar, Collecting.Feed,
         Collecting.Finished, Flat;
    var c;
    c, consumed := GatherBlock(input, maxBlockSize);
    ghost var block := c.block[..c.nblock];
    var col, idx := DivBwt(c.block[..c.nblock], sortBstar);
    var words, size;
    ghost var coded;
    words, size, coded := CompressBlock(c.cmap, c.blockCrc, col, idx, choice, block);
    ghost var crc0 := c.blockCrc;
    ColumnIndex(coded, col);
    HeaderLength(crc0);
    BlockFollowed(words, size, HeaderBits(crc0), BitsOf(coded), tail);
    var stream;
    ghost var pad;
    stream, pad := PackBits(WordBits(words)[..8 * size] + tail);
    StreamParts(HeaderBits(crc0), BitsOf(coded), tail, Repeat<bit>(0, pad));
    UnsortedIsInverse(block, col, idx);
    rv, out, stored, computed := ExpandStream(table, stream, cuts, sizes, crc0, coded, col, tail + Repeat<bit>(0, pad));
  }

  lemma StreamParts<T>(a: seq<T>, b: seq<T>, c: seq<T>, d: seq<T>)
    ensures a + (b + c) + d == a + (b + (c + d))
  {
  }

  /** Block after block, a whole input comes back. */
  method RoundTripInput(input: seq<seq<byte>>, maxBlockSize: nat, sortBstar: seq<byte> -> Bstar, choice: nat -> nat,
                        tail: seq<bit>, table: stepTable, cuts: nat -> nat, sizes: nat -> nat) returns (out: seq<byte>)
    requires 0 < maxBlockSize <= MAX_BLOCK_SIZE && |tail| >= 32
    requires forall t: seq<byte> :: 1 < |t| <= MAX_BLOCK_SIZE ==> SortsBstar(t, sortBstar(t))
    requires forall k: nat :: 0 < sizes(k) <= 0x7FFF_FFFF && 0 < cuts(k)
    ensures out == Flat(input)
  {
    hide Flat, CrcFold, SortsBstar;
    out := [];
    var pieces := input;
    ghost var all := Flat(input);
    assert all[0..] == all && all[..0] == [];
    while Flat(pieces) != []
      invariant |out| <= |all| && Flat(pieces) == all[|out|..] && out == all[..|out|]
      decreases |all| - |out|
    {
      var rv, plain, n, stored, computed := RoundTripBlock(pieces, maxBlockSize, sortBstar, choice, tail, table, cuts, sizes);
      ghost var at := |out|;
      assert all[at..][..n] == all[at..at + n] && all[..at] + all[at..at + n] == all[..at + n] && all[at..][n..] == all[at + n..];
      out := out + plain;
      pieces := Rest(pieces, n);
    }
    assert all[..|all|] == all;
  }
}
