/** The parser of stream and block headers: an automaton that takes sixteen bits at a
    time. */
module HeaderParser {
  import opened Common
  import opened Powers
  import opened Bits
  import opened Crc
  import opened Polynomials
  import opened Bitstreams
  import opened Automata
  import opened Scanner
  import opened Feeding
  import opened Transmitter
  import Chains
  import CompressionProtocol

  datatype State =
    | STREAM_MAGIC_1 | STREAM_MAGIC_2
    | BLOCK_MAGIC_1 | BLOCK_MAGIC_2 | BLOCK_MAGIC_3 | BLOCK_CRC_1 | BLOCK_CRC_2
    | EOS_2 | EOS_3 | EOS_CRC_1 | EOS_CRC_2
    | ACCEPT

  /** What the parser remembers between calls. */
  datatype Memory = Memory(state: State, bs100k: int, storedCrc: uint32, computedCrc: uint32, streamMode: bool)

  /** What a call tells: a header is given with OK, the bits consumed after the end with
      FINISH. */
  datatype Answer = Answer(rv: Status, bs100k: int, crc: uint32, garbage: nat)

  const NO_ANSWER := Answer(MORE, 0, 0, 0)

  /** The checksum of a stream, with that of one more block. */
  function Combine(cc: uint32, crc: uint32): uint32 {
    XorBits(32, XorBits(32, cc * 2 % 0x1_0000_0000, cc / 0x8000_0000), crc) % 0x1_0000_0000
  }

  /** What the parser does with a word: what it remembers, what it answers, and whether it
      then goes on at the next byte boundary. */
  function React(p: Memory, word: nat): (Memory, Answer, bool)
    requires word < 0x1_0000 && p.state != ACCEPT
  {
    match p.state
    case STREAM_MAGIC_1 =>
      if word != 0x425A then (p.(state := ACCEPT), Answer(FINISH, -1, 0, 16), false)
      else (p.(state := STREAM_MAGIC_2), NO_ANSWER, false)
    case STREAM_MAGIC_2 =>
      if 0x6839 < word || 0x6831 > word then (p.(state := ACCEPT), Answer(FINISH, -1, 0, 32), false)
      else (p.(state := BLOCK_MAGIC_1, bs100k := word % 16), NO_ANSWER, false)
    case BLOCK_MAGIC_1 =>
      if word == 0x1772 then (p.(state := EOS_2), NO_ANSWER, false)
      else if word != 0x3141 then (p, Answer(ERR_HEADER, 0, 0, 0), false)
      else (p.(state := BLOCK_MAGIC_2), NO_ANSWER, false)
    case BLOCK_MAGIC_2 =>
      if word != 0x5926 then (p, Answer(ERR_HEADER, 0, 0, 0), false) else (p.(state := BLOCK_MAGIC_3), NO_ANSWER, false)
    case BLOCK_MAGIC_3 =>
      if word != 0x5359 then (p, Answer(ERR_HEADER, 0, 0, 0), false) else (p.(state := BLOCK_CRC_1), NO_ANSWER, false)
    case BLOCK_CRC_1 => (p.(state := BLOCK_CRC_2, storedCrc := word), NO_ANSWER, false)
    case BLOCK_CRC_2 =>
      var crc := p.storedCrc % 0x1_0000 * 0x1_0000 + word;
      (p.(state := BLOCK_MAGIC_1, computedCrc := Combine(p.computedCrc, crc)), Answer(OK, p.bs100k, crc, 0), false)
    case EOS_2 =>
      if word != 0x4538 then (p, Answer(ERR_HEADER, 0, 0, 0), false) else (p.(state := EOS_3), NO_ANSWER, false)
    case EOS_3 =>
      if word != 0x5090 then (p, Answer(ERR_HEADER, 0, 0, 0), false) else (p.(state := EOS_CRC_1), NO_ANSWER, false)
    case EOS_CRC_1 => (p.(state := EOS_CRC_2, storedCrc := word), NO_ANSWER, false)
    case EOS_CRC_2 =>
      var crc := p.storedCrc % 0x1_0000 * 0x1_0000 + word;
      if crc != p.computedCrc then (p.(storedCrc := crc), Answer(ERR_STRMCRC, 0, 0, 0), false)
      else if p.streamMode then (p.(state := ACCEPT, storedCrc := crc), Answer(FINISH, 0, 0, 0), false)
      else (p.(state := STREAM_MAGIC_1, storedCrc := crc, computedCrc := 0), NO_ANSWER, true)
  }

  /** What the parser answers when fewer than sixteen bits are left. */
  function AtEnd(p: Memory): (Memory, Answer) {
    if p.state == STREAM_MAGIC_1 then (p.(state := ACCEPT), Answer(FINISH, 0, 0, 0))
    else if p.state == STREAM_MAGIC_2 then (p.(state := ACCEPT), Answer(FINISH, 0, 0, 16))
    else (p, Answer(ERR_EOF, 0, 0, 0))
  }

  /** The bits from the next byte boundary on; what follows the last bit is one. */
  function Aligned(b: seq<bit>): seq<bit> {
    b[|b| % 8..]
  }

  /** What is left after a call, given all bits to come. */
  datatype Parsed = Parsed(memory: Memory, answer: Answer, rest: seq<bit>)

  function ParseBits(p: Memory, b: seq<bit>): Parsed
    requires p.state != ACCEPT
    decreases |b|
  {
    if |b| < 16 then Parsed(AtEnd(p).0, AtEnd(p).1, b)
    else
      var (q, a, align) := React(p, WordAt(b));
      if a.rv != MORE then Parsed(q, a, b[16..])
      else ParseBits(q, if align then Aligned(b[16..]) else b[16..])
  }

  function WordAt(b: seq<bit>): (w: nat)
    requires |b| >= 16
    ensures w < 0x1_0000
  {
    Pow2Constants();
    Val(b[..16])
  }

  lemma ParseNext(p: Memory, b: seq<bit>)
    requires p.state != ACCEPT && |b| >= 16
    ensures var (q, a, align) := React(p, WordAt(b));
      if a.rv != MORE then ParseBits(p, b) == Parsed(q, a, b[16..])
      else q.state != ACCEPT && ParseBits(p, b) == ParseBits(q, if align then Aligned(b[16..]) else b[16..])
  {
    hide WordAt, Combine;
  }

  lemma ParseEnds(p: Memory, b: seq<bit>)
    requires p.state != ACCEPT && |b| < 16
    ensures ParseBits(p, b) == Parsed(AtEnd(p).0, AtEnd(p).1, b)
  {
  }

  /** A word of sixteen bits was taken from the front of the bits. */
  lemma WordTaken(held: seq<bit>, future: seq<bit>, word: nat)
    requires |held| >= 16 && word == Val(held[..16])
    ensures WordAt(held + future) == word && (held + future)[16..] == held[16..] + future
  {
    assert (held + future)[..16] == held[..16];
  }

  /** The bits in the buffer beyond whole bytes are those beyond the next byte boundary. */
  lemma BufferAligned(held: seq<bit>, words: seq<uint32>, future: seq<bit>)
    requires |future| % 8 == 0
    ensures Aligned(held + WordBits(words) + future) == (held + WordBits(words))[|held| % 8..] + future
  {
    WordBitsLength(words);
    hide WordBits;
    var b := held + WordBits(words);
    assert |b + future| % 8 == |held| % 8;
    assert (b + future)[|held| % 8..] == b[|held| % 8..] + future;
  }

  class Parser {
    var state: State
    var bs100k: int
    var storedCrc: uint32
    var computedCrc: uint32
    var streamMode: bool

    constructor (bs100k: int, streamMode: bool)
      ensures Now() == Memory(BLOCK_MAGIC_1, bs100k, 0, 0, streamMode)
    {
      this.state, this.bs100k, this.storedCrc, this.computedCrc, this.streamMode := BLOCK_MAGIC_1, bs100k, 0, 0, streamMode;
    }

    function Now(): Memory
      reads this
    {
      Memory(state, bs100k, storedCrc, computedCrc, streamMode)
    }

    /** Stores what is remembered. */
    method Remember(q: Memory)
      modifies this
      ensures Now() == q
    {
      state, bs100k, storedCrc, computedCrc, streamMode := q.state, q.bs100k, q.storedCrc, q.computedCrc, q.streamMode;
    }

    /** Takes one word and reacts to it. */
    method TakeWord(bs: Bitstream, ghost future: seq<bit>) returns (r: Answer)
      requires bs.Valid() && bs.live >= 16 && state != ACCEPT && |future| % 8 == 0
      modifies this, bs
      ensures bs.Valid() && bs.eof == old(bs.eof) && |bs.Bits()| < |old(bs.Bits())|
      ensures r.rv == MORE ==> state != ACCEPT
      ensures r.rv == MORE ==> ParseBits(Now(), bs.Bits() + future) == ParseBits(old(Now()), old(bs.Bits()) + future)
      ensures r.rv != MORE ==> ParseBits(old(Now()), old(bs.Bits()) + future) == Parsed(Now(), r, bs.Bits() + future)
    {
      hide ParseBits, React, WordAt, Aligned, WordBits, Val;
      ghost var b := bs.Bits();
      ParseNext(Now(), b + future);
      var word := bs.Take(16);
      WordTaken(b, future, word);
      var (q, answer, align) := React(Now(), word);
      r := answer;
      Remember(q);
      if r.rv == MORE && align {
        BufferAligned(bs.held, bs.data, future);
        bs.Dump(bs.live % 8);
      }
    }

    /** Parses headers until a block is found, the stream ends or the input runs out.  In the
        last case what all bits come to, `future` included, is what the bits left and
        `future` come to from where the parser stopped. */
    method Parse(bs: Bitstream, ghost future: seq<bit>) returns (a: Answer)
      requires bs.Valid() && state != ACCEPT && |future| % 8 == 0 && (bs.eof ==> future == [])
      modifies this, bs
      ensures bs.Valid() && bs.eof == old(bs.eof)
      ensures a.rv == MORE ==> !bs.eof && bs.data == [] && state != ACCEPT
      ensures a.rv == MORE ==> ParseBits(Now(), bs.Bits() + future) == ParseBits(old(Now()), old(bs.Bits()) + future)
      ensures a.rv != MORE ==> ParseBits(old(Now()), old(bs.Bits()) + future) == Parsed(Now(), a, bs.Bits() + future)
    {
      hide ParseBits, React, WordAt, AtEnd, Aligned, WordBits;
      while true
        invariant bs.Valid() && bs.eof == old(bs.eof) && state != ACCEPT
        invariant ParseBits(Now(), bs.Bits() + future) == ParseBits(old(Now()), old(bs.Bits()) + future)
        decreases |bs.Bits()|
      {
        var rv := NeedBits(bs, 16);
        if rv != OK { break; }
        var r := TakeWord(bs, future);
        if r.rv != MORE { return r; }
      }
      if !bs.eof { return NO_ANSWER; }
      NothingBefore(bs.Bits());
      NothingLeft(bs.held);
      ParseEnds(Now(), bs.Bits() + future);
      EndAnswers(Now());
      var (q, answer) := AtEnd(Now());
      a := answer;
      Remember(q);
    }
  }

  lemma NothingLeft(held: seq<bit>)
    ensures held + WordBits([]) == held
  {
  }

  lemma EndAnswers(p: Memory)
    ensures AtEnd(p).1.rv != MORE
  {
  }

  /** However the words of a stream are cut into pieces, parsing them piece by piece comes to
      what parsing all of them does. */
  method ParseInPieces(p: Parser, bs: Bitstream, pieces: seq<seq<uint32>>) returns (a: Answer, taken: nat)
    requires bs.Valid() && p.state != ACCEPT
    modifies p, bs
    ensures bs.Valid() && taken <= |pieces| && a.rv != MORE
    ensures ParseBits(old(p.Now()), old(bs.Bits()) + WordBits(Flat(pieces))) == Parsed(p.Now(), a, bs.Bits() + Future(pieces, taken))
  {
    hide ParseBits, Future, WordBits;
    ghost var goal := ParseBits(p.Now(), bs.Bits() + WordBits(Flat(pieces)));
    taken := 0;
    bs.eof := taken == |pieces|;
    NoFuture(pieces, taken);
    WholeFuture(pieces);
    FutureBytes(pieces, taken);
    a := p.Parse(bs, Future(pieces, taken));
    while a.rv == MORE
      invariant taken <= |pieces| && bs.Valid()
      invariant a.rv == MORE ==> taken < |pieces| && bs.data == [] && p.state != ACCEPT && ParseBits(p.Now(), bs.Bits() + Future(pieces, taken)) == goal
      invariant a.rv != MORE ==> goal == Parsed(p.Now(), a, bs.Bits() + Future(pieces, taken))
      decreases |pieces| - taken, if a.rv == MORE then 1 else 0
    {
      NothingLeft(bs.held);
      FutureNext(bs.held, pieces, taken);
      bs.data := pieces[taken];
      taken := taken + 1;
      bs.eof := taken == |pieces|;
      NoFuture(pieces, taken);
      FutureBytes(pieces, taken);
      a := p.Parse(bs, Future(pieces, taken));
    }
  }

  lemma FutureBytes(pieces: seq<seq<uint32>>, i: nat)
    requires i <= |pieces|
    ensures |Future(pieces, i)| % 8 == 0
  {
    WordBitsLength(Flat(pieces[i..]));
  }

  // ----- headers as the compressor writes them -----

  lemma ParseWord(p: Memory, word: nat, rest: seq<bit>)
    requires p.state != ACCEPT && word < 0x1_0000
    ensures var (q, a, align) := React(p, word);
      if a.rv != MORE then ParseBits(p, ToBits(word, 16) + rest) == Parsed(q, a, rest)
      else q.state != ACCEPT && ParseBits(p, ToBits(word, 16) + rest) == ParseBits(q, if align then Aligned(rest) else rest)
  {
    hide React, ParseBits, Aligned, ToBits, Val;
    Pow2Constants();
    ValToBits(word, 16);
    var b := ToBits(word, 16) + rest;
    assert b[..16] == ToBits(word, 16) && b[16..] == rest;
    ParseNext(p, b);
    WordIs(b);
  }

  lemma WordIs(b: seq<bit>)
    requires |b| >= 16
    ensures WordAt(b) == Val(b[..16])
  {
  }

  /** The magic number of a block is three words. */
  lemma MagicWords()
    ensures ToBits(0x314159, 24) + ToBits(0x265359, 24) == ToBits(0x3141, 16) + (ToBits(0x5926, 16) + ToBits(0x5359, 16))
  {
    hide ToBits;
    Pow2Constants();
    JoinBits(0x3141, 16, 0x59, 8, 0x314159);
    JoinBits(0x26, 8, 0x5359, 16, 0x265359);
    JoinBits(0x59, 8, 0x26, 8, 0x5926);
    FourParts(ToBits(0x3141, 16), ToBits(0x59, 8), ToBits(0x26, 8), ToBits(0x5359, 16));
  }

  lemma FourParts<T>(a: seq<T>, b: seq<T>, c: seq<T>, d: seq<T>)
    ensures a + b + (c + d) == a + (b + c + d)
  {
    assert a + b + (c + d) == a + (b + c + d);
  }

  lemma CrcWords(crc: uint32)
    ensures ToBits(crc, 32) == ToBits(crc / 0x1_0000, 16) + ToBits(crc % 0x1_0000, 16)
  {
    hide ToBits;
    Pow2Constants();
    JoinBits(crc / 0x1_0000, 16, crc % 0x1_0000, 16, crc);
  }

  /** The words of a header, one by one. */
  lemma HeaderWords(crc0: uint32, body: seq<bit>)
    ensures var c := M1 - crc0;
      HeaderBits(crc0) + body ==
        ToBits(0x3141, 16) + (ToBits(0x5926, 16) + (ToBits(0x5359, 16) + (ToBits(c / 0x1_0000, 16) + (ToBits(c % 0x1_0000, 16) + body))))
  {
    hide ToBits;
    MagicWords();
    CrcWords(M1 - crc0);
    var c := M1 - crc0;
    FiveParts(ToBits(0x3141, 16), ToBits(0x5926, 16), ToBits(0x5359, 16), ToBits(c / 0x1_0000, 16), ToBits(c % 0x1_0000, 16), body);
  }

  lemma FiveParts<T>(a: seq<T>, b: seq<T>, c: seq<T>, d: seq<T>, e: seq<T>, f: seq<T>)
    ensures a + (b + c) + (d + e) + f == a + (b + (c + (d + (e + f))))
  {
  }

  /** A header that the compressor wrote is parsed to the checksum it was written for. */
  lemma HeaderParsed(p: Memory, crc0: uint32, body: seq<bit>)
    requires p.state == BLOCK_MAGIC_1
    ensures var r := ParseBits(p, HeaderBits(crc0) + body);
      && r.answer == Answer(OK, p.bs100k, M1 - crc0, 0) && r.rest == body
      && r.memory == p.(storedCrc := (M1 - crc0) / 0x1_0000, computedCrc := Combine(p.computedCrc, M1 - crc0))
  {
    hide ToBits, HeaderBits, ParseBits, Combine;
    HeaderWords(crc0, body);
    var c := M1 - crc0;
    var t5 := ToBits(c % 0x1_0000, 16) + body;
    var t4 := ToBits(c / 0x1_0000, 16) + t5;
    var t3 := ToBits(0x5359, 16) + t4;
    ParseWord(p, 0x3141, ToBits(0x5926, 16) + t3);
    ParseWord(p.(state := BLOCK_MAGIC_2), 0x5926, t3);
    ParseWord(p.(state := BLOCK_MAGIC_3), 0x5359, t4);
    ParseWord(p.(state := BLOCK_CRC_1), c / 0x1_0000, t5);
    ParseWord(p.(state := BLOCK_CRC_2, storedCrc := c / 0x1_0000), c % 0x1_0000, body);
  }

  /** The pattern that blocks are looked for by. */
  function Pattern(): (x: seq<bit>)
    ensures |x| == 48
  {
    ToBits(0x3141, 16) + (ToBits(0x5926, 16) + ToBits(0x5359, 16))
  }

  /** A scan for the pattern that meets it first in a header ends where the block's contents
      begin. */
  lemma HeaderSought(before: seq<bit>, crc0: uint32, body: seq<bit>)
    requires forall e: nat {:trigger EndsAt(Pattern(), before + (HeaderBits(crc0) + body), e)} ::
      e < |before| + 48 ==> !EndsAt(Pattern(), before + (HeaderBits(crc0) + body), e)
    ensures Found(Pattern(), before + (HeaderBits(crc0) + body), OK, body)
  {
    var h, x := HeaderBits(crc0), Pattern();
    var all, e := before + (h + body), |before| + 48;
    MagicWords();
    assert h[..48] == x;
    hide ToBits, HeaderBits, Pattern;
    assert all[e - 48..e] == x && all[e + 32..] == body;
    assert FirstEnd(x, all, e);
  }

  /** The trailer of a stream. */
  function TrailerBits(crc: uint32): seq<bit> {
    ToBits(0x1772, 16) + (ToBits(0x4538, 16) + (ToBits(0x5090, 16) + ToBits(crc, 32)))
  }

  lemma TrailerWords(crc: uint32, rest: seq<bit>)
    ensures TrailerBits(crc) + rest ==
      ToBits(0x1772, 16) + (ToBits(0x4538, 16) + (ToBits(0x5090, 16) + (ToBits(crc / 0x1_0000, 16) + (ToBits(crc % 0x1_0000, 16) + rest))))
  {
    hide ToBits;
    CrcWords(crc);
    TrailerParts(ToBits(0x1772, 16), ToBits(0x4538, 16), ToBits(0x5090, 16), ToBits(crc / 0x1_0000, 16), ToBits(crc % 0x1_0000, 16), rest);
  }

  lemma TrailerParts<T>(a: seq<T>, b: seq<T>, c: seq<T>, d: seq<T>, e: seq<T>, f: seq<T>)
    ensures a + (b + (c + (d + e))) + f == a + (b + (c + (d + (e + f))))
  {
  }

  /** The magic number of a trailer is passed over. */
  lemma TrailerMagic(p: Memory, rest: seq<bit>)
    requires p.state == BLOCK_MAGIC_1
    ensures ParseBits(p, ToBits(0x1772, 16) + (ToBits(0x4538, 16) + (ToBits(0x5090, 16) + rest))) == ParseBits(p.(state := EOS_CRC_1), rest)
  {
    hide ToBits, ParseBits, Combine, Aligned;
    var t3 := ToBits(0x5090, 16) + rest;
    ParseWord(p, 0x1772, ToBits(0x4538, 16) + t3);
    ParseWord(p.(state := EOS_2), 0x4538, t3);
    ParseWord(p.(state := EOS_3), 0x5090, rest);
  }

  /** A trailer ends the stream if it holds the checksum computed from the headers, and is in
      error if not.  In a file of several streams the next may follow at a byte boundary. */
  lemma TrailerParsed(p: Memory, crc: uint32, rest: seq<bit>)
    requires p.state == BLOCK_MAGIC_1
    ensures var r := ParseBits(p, TrailerBits(crc) + rest);
      if crc != p.computedCrc then r.answer.rv == ERR_STRMCRC
      else if p.streamMode then r.answer == Answer(FINISH, 0, 0, 0) && r.rest == rest
      else r == ParseBits(p.(state := STREAM_MAGIC_1, storedCrc := crc, computedCrc := 0), Aligned(rest))
  {
    hide ToBits, TrailerBits, ParseBits, Combine, Aligned;
    TrailerWords(crc, rest);
    var t5 := ToBits(crc % 0x1_0000, 16) + rest;
    TrailerMagic(p, ToBits(crc / 0x1_0000, 16) + t5);
    ParseWord(p.(state := EOS_CRC_1), crc / 0x1_0000, t5);
    ParseWord(p.(state := EOS_CRC_2, storedCrc := crc / 0x1_0000), crc % 0x1_0000, rest);
  }

  // ----- streams after streams -----

  /** `BZh` and a digit. */
  function StreamBits(k: nat): seq<bit> {
    ToBits(0x425A_6830 + k, 32)
  }

  lemma StreamWords(k: nat, rest: seq<bit>)
    requires 1 <= k <= 9
    ensures StreamBits(k) + rest == ToBits(0x425A, 16) + (ToBits(0x6830 + k, 16) + rest)
  {
    hide ToBits;
    Pow2Constants();
    JoinBits(0x425A, 16, 0x6830 + k, 16, 0x425A_6830 + k);
    Regrouped(ToBits(0x425A, 16), ToBits(0x6830 + k, 16), rest);
  }

  /** Behind a stream another one is recognised, and its first block. */
  lemma StreamParsed(p: Memory, k: nat, c: uint32, body: seq<bit>)
    requires p.state == STREAM_MAGIC_1 && 1 <= k <= 9
    ensures var r := ParseBits(p, StreamBits(k) + (HeaderBits(c) + body));
      && r.answer == Answer(OK, k, M1 - c, 0) && r.rest == body
      && r.memory == p.(state := BLOCK_MAGIC_1, bs100k := k, storedCrc := (M1 - c) / 0x1_0000, computedCrc := Combine(p.computedCrc, M1 - c))
  {
    hide ToBits, HeaderBits, ParseBits, Combine, StreamBits;
    var h := HeaderBits(c) + body;
    StreamWords(k, h);
    ParseWord(p, 0x425A, ToBits(0x6830 + k, 16) + h);
    ParseWord(p.(state := STREAM_MAGIC_2), 0x6830 + k, h);
    HeaderParsed(p.(state := BLOCK_MAGIC_1, bs100k := k), c, body);
  }

  /** The whole word `i` of the bits. */
  function Word(b: seq<bit>, i: nat): nat
    requires 16 * (i + 1) <= |b|
  {
    Val(b[16 * i..16 * (i + 1)])
  }

  lemma WordsAhead(b: seq<bit>, i: nat)
    requires |b| >= 16 && 16 * (i + 1) <= |b[16..]|
    ensures Word(b[16..], i) == Word(b, i + 1)
  {
    assert b[16..][16 * i..16 * (i + 1)] == b[16 * (i + 1)..16 * (i + 2)];
  }

  lemma ParseFirst(p: Memory, b: seq<bit>)
    requires p.state != ACCEPT && |b| >= 16
    ensures Word(b, 0) < 0x1_0000
    ensures var (q, a, align) := React(p, Word(b, 0));
      if a.rv != MORE then ParseBits(p, b) == Parsed(q, a, b[16..])
      else q.state != ACCEPT && ParseBits(p, b) == ParseBits(q, if align then Aligned(b[16..]) else b[16..])
  {
    WordIs(b);
    hide React, ParseBits, Val, Aligned;
    ParseNext(p, b);
  }

  /** Anything else behind a stream is garbage, of which the words looked at are counted. */
  lemma GarbageParsed(p: Memory, b: seq<bit>)
    requires p.state == STREAM_MAGIC_1
    ensures |b| < 16 ==> ParseBits(p, b) == Parsed(p.(state := ACCEPT), Answer(FINISH, 0, 0, 0), b)
    ensures |b| >= 16 && Word(b, 0) != 0x425A ==> ParseBits(p, b) == Parsed(p.(state := ACCEPT), Answer(FINISH, -1, 0, 16), b[16..])
    ensures 16 <= |b| < 32 && Word(b, 0) == 0x425A ==> ParseBits(p, b) == Parsed(p.(state := ACCEPT), Answer(FINISH, 0, 0, 16), b[16..])
    ensures |b| >= 32 && Word(b, 0) == 0x425A && !(0x6831 <= Word(b, 1) <= 0x6839) ==>
      ParseBits(p, b) == Parsed(p.(state := ACCEPT), Answer(FINISH, -1, 0, 32), b[32..])
  {
    hide ParseBits, Val, Combine, Aligned, Word;
    if |b| < 16 {
      ParseEnds(p, b);
    } else {
      ParseFirst(p, b);
      var q := p.(state := STREAM_MAGIC_2);
      if |b| < 32 {
        ParseEnds(q, b[16..]);
      } else {
        ParseFirst(q, b[16..]);
        WordsAhead(b, 0);
        assert b[16..][16..] == b[32..];
      }
    }
  }

  lemma StreamLength(k: nat, c: uint32, body: seq<bit>)
    ensures |StreamBits(k) + (HeaderBits(c) + body)| == 112 + |body|
  {
  }

  lemma AlignedBehind(pad: seq<bit>, rest: seq<bit>)
    requires |pad| < 8 && |rest| % 8 == 0
    ensures Aligned(pad + rest) == rest
  {
  }

  /** Two streams, the first filled up to whole bytes: the second one's block is found, and
      its checksum begins afresh. */
  lemma StreamsParsed(p: Memory, crc: uint32, pad: seq<bit>, k: nat, c: uint32, body: seq<bit>)
    requires p.state == BLOCK_MAGIC_1 && !p.streamMode && crc == p.computedCrc
    requires |pad| < 8 && |body| % 8 == 0 && 1 <= k <= 9
    ensures var r := ParseBits(p, TrailerBits(crc) + (pad + (StreamBits(k) + (HeaderBits(c) + body))));
      r.answer == Answer(OK, k, M1 - c, 0) && r.rest == body && r.memory.computedCrc == Combine(0, M1 - c)
  {
    hide ParseBits, Combine, TrailerBits, StreamBits, HeaderBits, Aligned;
    var rest := StreamBits(k) + (HeaderBits(c) + body);
    StreamLength(k, c, body);
    AlignedBehind(pad, rest);
    TrailerParsed(p, crc, pad + rest);
    StreamParsed(p.(state := STREAM_MAGIC_1, storedCrc := crc, computedCrc := 0), k, c, body);
  }

  // ----- what is neither a block nor the end -----

  const BLOCK_WORDS := [0x3141, 0x5926, 0x5359]
  const END_WORDS := [0x1772, 0x4538, 0x5090]

  /** The whole words that there are, three at most, are these. */
  ghost predicate Begins(b: seq<bit>, words: seq<nat>)
    requires |words| == 3
  {
    forall i: nat {:trigger words[i]} :: i < 3 && 16 * (i + 1) <= |b| ==> Word(b, i) == words[i]
  }

  lemma BeginsNext(b: seq<bit>, words: seq<nat>)
    requires |words| == 3
    ensures |b| < 16 ==> Begins(b, words)
    ensures |b| >= 16 ==> (Begins(b, words) <==> Word(b, 0) == words[0] && Later(b[16..], words, 1))
  {
    hide Word;
    if |b| >= 16 {
      if |b| >= 32 { WordsAhead(b, 0); }
      if |b| >= 48 { WordsAhead(b, 1); }
      assert Begins(b, words) <==> Word(b, 0) == words[0] && (|b| >= 32 ==> Word(b, 1) == words[1]) && (|b| >= 48 ==> Word(b, 2) == words[2]);
    }
  }

  /** The same for the words from `k` on. */
  ghost predicate Later(b: seq<bit>, words: seq<nat>, k: nat)
    requires |words| == 3 && k <= 2
  {
    && (|b| >= 16 ==> Word(b, 0) == words[k])
    && (k == 1 && |b| >= 32 ==> Word(b, 1) == words[2])
  }

  lemma LaterNext(b: seq<bit>, words: seq<nat>)
    requires |words| == 3
    ensures |b| < 16 ==> Later(b, words, 1)
    ensures |b| >= 16 ==> (Later(b, words, 1) <==> Word(b, 0) == words[1] && Later(b[16..], words, 2))
  {
    hide Word;
    if |b| >= 32 { WordsAhead(b, 0); }
  }

  /** A block or the end of a stream is looked for: what begins otherwise is an error, and
      what begins so but ends too early is another. */
  lemma ErrorParsed(p: Memory, b: seq<bit>)
    requires p.state == BLOCK_MAGIC_1
    ensures !Begins(b, BLOCK_WORDS) && !Begins(b, END_WORDS) ==> ParseBits(p, b).answer == Answer(ERR_HEADER, 0, 0, 0)
    ensures (Begins(b, BLOCK_WORDS) || Begins(b, END_WORDS)) && |b| < 80 ==> ParseBits(p, b).answer == Answer(ERR_EOF, 0, 0, 0)
  {
    hide ParseBits, Val, Combine, Aligned, Word, Begins, Later;
    BeginsNext(b, BLOCK_WORDS);
    BeginsNext(b, END_WORDS);
    if |b| < 16 {
      ParseEnds(p, b);
    } else {
      ParseFirst(p, b);
      if Word(b, 0) == 0x3141 {
        SecondWord(p.(state := BLOCK_MAGIC_2), b[16..], BLOCK_WORDS);
      } else if Word(b, 0) == 0x1772 {
        SecondWord(p.(state := EOS_2), b[16..], END_WORDS);
      }
    }
  }

  lemma SecondWord(p: Memory, b: seq<bit>, words: seq<nat>)
    requires (p.state == BLOCK_MAGIC_2 && words == BLOCK_WORDS) || (p.state == EOS_2 && words == END_WORDS)
    ensures !Later(b, words, 1) ==> ParseBits(p, b).answer == Answer(ERR_HEADER, 0, 0, 0)
    ensures Later(b, words, 1) && |b| < 64 ==> ParseBits(p, b).answer == Answer(ERR_EOF, 0, 0, 0)
  {
    hide ParseBits, Val, Combine, Aligned, Word, Later;
    LaterNext(b, words);
    if |b| < 16 {
      ParseEnds(p, b);
    } else {
      ParseFirst(p, b);
      if Word(b, 0) == words[1] {
        ThirdWord(p.(state := if p.state == EOS_2 then EOS_3 else BLOCK_MAGIC_3), b[16..], words);
      }
    }
  }

  lemma ThirdWord(p: Memory, b: seq<bit>, words: seq<nat>)
    requires (p.state == BLOCK_MAGIC_3 && words == BLOCK_WORDS) || (p.state == EOS_3 && words == END_WORDS)
    ensures !Later(b, words, 2) ==> ParseBits(p, b).answer == Answer(ERR_HEADER, 0, 0, 0)
    ensures Later(b, words, 2) && |b| < 48 ==> ParseBits(p, b).answer == Answer(ERR_EOF, 0, 0, 0)
  {
    hide ParseBits, Val, Combine, Aligned, Word;
    if |b| < 16 {
      ParseEnds(p, b);
    } else {
      ParseFirst(p, b);
      if Word(b, 0) == words[2] && |b| < 48 {
        CrcMissing(p.(state := if p.state == EOS_3 then EOS_CRC_1 else BLOCK_CRC_1), b[16..]);
      }
    }
  }

  lemma CrcMissing(p: Memory, b: seq<bit>)
    requires p.state in {BLOCK_CRC_1, EOS_CRC_1} && |b| < 32
    ensures ParseBits(p, b).answer == Answer(ERR_EOF, 0, 0, 0)
  {
    hide ParseBits, Val, Combine, Aligned, Word;
    if |b| < 16 {
      ParseEnds(p, b);
    } else {
      ParseFirst(p, b);
      var q := p.(state := if p.state == EOS_CRC_1 then EOS_CRC_2 else BLOCK_CRC_2, storedCrc := Word(b, 0));
      ParseEnds(q, b[16..]);
    }
  }

  // ----- the checksum of a stream -----

  /** A list of bits, turned round by one to the left. */
  function Turned(b: seq<bit>): seq<bit>
    requires b != []
  {
    b[1..] + [b[0]]
  }

  /** Combining checksums turns the old one and adds the new one to it, bit by bit. */
  lemma CombineTurns(cc: uint32, c: uint32)
    ensures ToBits(Combine(cc, c), 32) == Plus(Turned(ToBits(cc, 32)), ToBits(c, 32))
  {
    hide ToBits, XorBits, Pow2, Plus, Zeros;
    RegisterParts(cc);
    var low, top: bit := cc % 0x8000_0000, cc / 0x8000_0000;
    var x := XorBits(32, low * 2, top);
    XorIsPlus(32, low * 2, top);
    XorIsPlus(32, x, c);
    Pow2Constants();
    JoinBits(0, 31, top, 1, top);
    ZeroBits(31);
    OneBit(top);
    PlusConcat(ToBits(low, 31), Zeros(31), [0], [top]);
    PlusZeros(ToBits(low, 31));
    assert Plus([0], [top]) == [top] by { PlusOne(top); }
    assert Turned(ToBits(cc, 32)) == ToBits(low, 31) + [top];
  }

  lemma PlusOne(b: bit)
    ensures Plus([0], [b]) == [b]
  {
  }

  /** The two halves of a complement. */
  lemma HalfNot(p: nat, c: nat)
    requires c < 2 * p
    ensures c / 2 < p && (2 * p - 1 - c) / 2 == p - 1 - c / 2 && (2 * p - 1) / 2 == p - 1
    ensures (2 * p - 1 - c) % 2 == 1 - c % 2 && (2 * p - 1) % 2 == 1
  {
  }

  lemma Parity(a: nat, b: nat)
    ensures (a + b) % 2 == (a % 2 + b % 2) % 2
  {
  }

  lemma LastDigit(x: nat, y: nat, b: nat)
    requires x == 2 * y + b && b < 2
    ensures x / 2 == y && x % 2 == b
  {
  }

  lemma XorStep(n: nat, a: nat, b: nat)
    requires n > 0
    ensures XorBits(n, a, b) == 2 * XorBits(n - 1, a / 2, b / 2) + (a % 2 + b % 2) % 2
    ensures XorBits(n, a, b) / 2 == XorBits(n - 1, a / 2, b / 2) && XorBits(n, a, b) % 2 == (a % 2 + b % 2) % 2
  {
    var x, y := XorBits(n, a, b), XorBits(n - 1, a / 2, b / 2);
    assert x == 2 * y + (a + b) % 2;
    hide XorBits;
    Parity(a, b);
    LastDigit(x, y, (a % 2 + b % 2) % 2);
  }

  lemma FlippedDigit(a: nat, c: nat)
    requires a < 2 && c < 2
    ensures ((a + c) % 2 + 1) % 2 == (a + (1 - c)) % 2
  {
  }

  lemma XorWith(n: nat, a: nat, b: nat, h: nat, d: nat)
    requires n > 0 && b / 2 == h && b % 2 == d
    ensures XorBits(n, a, b) == 2 * XorBits(n - 1, a / 2, h) + (a % 2 + d) % 2
  {
    XorStep(n, a, b);
  }

  lemma XorNotStep(n: nat, a: nat, c: nat, q: nat)
    requires n > 0 && c < 2 * q && c / 2 < q
    requires XorBits(n - 1, XorBits(n - 1, a / 2, c / 2), q - 1) == XorBits(n - 1, a / 2, q - 1 - c / 2)
    ensures XorBits(n, XorBits(n, a, c), 2 * q - 1) == XorBits(n, a, 2 * q - 1 - c)
  {
    hide *;
    HalfNot(q, c);
    XorStep(n, a, c);
    XorWith(n, XorBits(n, a, c), 2 * q - 1, q - 1, 1);
    XorWith(n, a, 2 * q - 1 - c, q - 1 - c / 2, 1 - c % 2);
    FlippedDigit(a % 2, c % 2);
  }

  /** Complementing after mixing in, or what is mixed in, comes to the same. */
  lemma {:induction false} XorNot(n: nat, a: nat, c: nat, p: nat)
    requires c < p == Pow2(n)
    ensures XorBits(n, XorBits(n, a, c), p - 1) == XorBits(n, a, p - 1 - c)
  {
    if n > 0 {
      var q := Pow2(n - 1);
      assert p == 2 * q;
      hide *;
      HalfNot(q, c);
      XorNot(n - 1, a / 2, c / 2, q);
      XorNotStep(n, a, c, q);
    }
  }

  /** The checksum that the parser computes from the headers of blocks. */
  function Computed(blocks: seq<Chains.Block>): uint32 {
    if blocks == [] then 0
    else Combine(Computed(blocks[..|blocks| - 1]), M1 - CompressionProtocol.BlockCrc(blocks[|blocks| - 1].bytes))
  }

  lemma CombinedAlike(cc: uint32, c: uint32)
    ensures CompressionProtocol.CombineCrc(cc, c) == Combine(cc, M1 - c)
  {
    Pow2Constants();
    hide XorBits;
    XorNot(32, XorBits(32, cc * 2 % 0x1_0000_0000, cc / 0x8000_0000), c, 0x1_0000_0000);
  }

  /** The checksum the compressor writes after the blocks is the one the parser computes from
      their headers. */
  lemma {:induction false} ChecksumsAgree(blocks: seq<Chains.Block>)
    ensures CompressionProtocol.CombineAll(blocks) == Computed(blocks)
    decreases |blocks|
  {
    hide Combine, CompressionProtocol.CombineCrc, CompressionProtocol.BlockCrc;
    if blocks != [] {
      ChecksumsAgree(blocks[..|blocks| - 1]);
      CombinedAlike(Computed(blocks[..|blocks| - 1]), CompressionProtocol.BlockCrc(blocks[|blocks| - 1].bytes));
    }
  }
}
