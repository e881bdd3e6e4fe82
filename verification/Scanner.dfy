/** Scanning a stream for the bit pattern that a block starts with. */
module Scanner {
  import opened Common
  import opened Powers
  import opened Bits
  import opened Bitstreams
  import opened Automata

  /** Makes sure of `n` bits: `OK` if there are, after reading a word if need be. */
  method NeedBits(bs: Bitstream, n: nat) returns (rv: Status)
    requires bs.Valid() && n <= 32
    modifies bs
    ensures bs.Valid() && bs.Bits() == old(bs.Bits()) && bs.eof == old(bs.eof)
    ensures rv == OK <==> |old(bs.Bits())| >= n
    ensures rv == OK ==> bs.live >= n
    ensures rv != OK ==> bs.data == [] && rv == if bs.eof then FINISH else MORE
    ensures n > 0 ==> rv == OK ==> bs.live > 0
  {
    WordBitsLength(bs.data);
    if n <= bs.live { return OK; }
    if bs.data == [] { return if bs.eof then FINISH else MORE; }
    bs.NeedFast();
    rv := OK;
  }

  /** Drops everything. */
  method Consume(bs: Bitstream)
    requires bs.Valid()
    modifies bs
    ensures bs.Valid() && bs.Bits() == [] && bs.eof == old(bs.eof)
  {
    bs.Dump(bs.live);
    bs.data := [];
  }

  /** How many bits a request to skip `skip` of them drops: none if they are in the
      buffer, and else the buffer and whole words. */
  function Dropped(skip: nat, live: nat, words: nat): (n: nat)
    ensures skip > live ==> n == live + 32 * words || skip <= n < skip + 32
    ensures skip <= live ==> n == 0
  {
    if skip <= live then 0
    else
      var w := (skip - live + 31) / 32;
      live + 32 * (if words < w then words else w)
  }

  method Skip(bs: Bitstream, skip: nat)
    requires bs.Valid()
    modifies bs
    ensures bs.Valid() && bs.eof == old(bs.eof)
    ensures var n := Dropped(skip, old(bs.live), |old(bs.data)|); n <= |old(bs.Bits())| && bs.Bits() == old(bs.Bits())[n..]
  {
    hide WordBits, Dropped;
    DroppedIs(skip, bs.live, |bs.data|);
    if skip > bs.live {
      var w := (skip - bs.live + 31) / 32;
      ghost var held := bs.held;
      bs.Dump(bs.live);
      var n := if |bs.data| < w then |bs.data| else w;
      DropWords(held, bs.data, n);
      bs.data := bs.data[n..];
      NothingBefore(WordBits(bs.data));
    }
  }

  lemma DroppedIs(skip: nat, live: nat, words: nat)
    ensures skip <= live ==> Dropped(skip, live, words) == 0
    ensures skip > live ==>
      var w := (skip - live + 31) / 32;
      Dropped(skip, live, words) == live + 32 * (if words < w then words else w)
  {
  }

  lemma DropTwo<T>(a: seq<T>, b: seq<T>, c: seq<T>)
    ensures (a + (b + c))[|a| + |b|..] == c
  {
  }

  lemma DropWords(held: seq<bit>, data: seq<uint32>, n: nat)
    requires n <= |data|
    ensures |held| + 32 * n <= |held + WordBits(data)|
    ensures (held + WordBits(data))[|held| + 32 * n..] == WordBits(data[n..])
  {
    WordBitsLength(data);
    WordBitsLength(data[..n]);
    WordBitsConcat(data[..n], data[n..]);
    assert data[..n] + data[n..] == data;
    hide WordBits;
    DropTwo(held, WordBits(data[..n]), WordBits(data[n..]));
  }

  /** The bits of a word are those of its bytes. */
  lemma WordBytes(w: uint32)
    ensures var a, b, c, d := w / 0x100_0000, w / 0x1_0000 % 0x100, w / 0x100 % 0x100, w % 0x100;
      ToBits(w, 32) == ToBits(a, 8) + ToBits(b, 8) + ToBits(c, 8) + ToBits(d, 8)
  {
    hide ToBits;
    var a, b, c, d := w / 0x100_0000, w / 0x1_0000 % 0x100, w / 0x100 % 0x100, w % 0x100;
    Pow2Constants();
    BytesOf(w);
    JoinBits(a, 8, b, 8, w / 0x1_0000);
    JoinBits(w / 0x1_0000, 16, c, 8, w / 0x100);
    JoinBits(w / 0x100, 24, d, 8, w);
  }

  lemma BytesOf(w: uint32)
    ensures w / 0x1_0000 == Times(w / 0x100_0000, 0x100) + w / 0x1_0000 % 0x100
    ensures w / 0x100 == Times(w / 0x1_0000, 0x100) + w / 0x100 % 0x100
    ensures w == Times(w / 0x100, 0x100) + w % 0x100
    ensures w / 0x100_0000 < 0x100 && w / 0x1_0000 < 0x1_0000 && w / 0x100 < 0x100_0000
  {
  }

  /** Reads a word byte by byte. */
  method ReadWord(big: seq<seq<nat>>, state: nat, word: uint32, ghost d: seq<(nat, nat)>) returns (s: nat)
    requires IsBig(d, big) && state <= |d| && forall r, c: bit {:trigger On(d[r], c)} :: 0 <= r < |d| ==> On(d[r], c) <= |d|
    ensures s == Absorb(d, state, ToBits(word, 32)) && s <= |d|
  {
    WordBytes(word);
    var a: byte, b: byte, c: byte, e: byte := word / 0x100_0000, word / 0x1_0000 % 0x100, word / 0x100 % 0x100, word % 0x100;
    hide ToBits, Absorb, IsBig;
    s := ReadByte(big, state, a, d);
    s := ReadByte(big, s, b, d);
    s := ReadByte(big, s, c, d);
    s := ReadByte(big, s, e, d);
    AbsorbConcat(d, state, ToBits(a, 8), ToBits(b, 8));
    AbsorbConcat(d, state, ToBits(a, 8) + ToBits(b, 8), ToBits(c, 8));
    AbsorbConcat(d, state, ToBits(a, 8) + ToBits(b, 8) + ToBits(c, 8), ToBits(e, 8));
  }

  method ReadByte(big: seq<seq<nat>>, state: nat, c: byte, ghost d: seq<(nat, nat)>) returns (s: nat)
    requires IsBig(d, big) && state <= |d| && forall r, c: bit {:trigger On(d[r], c)} :: 0 <= r < |d| ==> On(d[r], c) <= |d|
    ensures s == Absorb(d, state, ToBits(c, 8)) && s <= |d|
  {
    hide ToBits;
    assert IsRow(d, state, big[state]);
    s := big[state][c];
    AbsorbStays(d, state, ToBits(c, 8));
  }

  lemma {:induction false} AbsorbStays(d: seq<(nat, nat)>, s: nat, b: seq<bit>)
    requires s <= |d| && forall r, c: bit {:trigger On(d[r], c)} :: 0 <= r < |d| ==> On(d[r], c) <= |d|
    ensures Absorb(d, s, b) <= |d|
    decreases |b|
  {
    if b != [] && s < |d| { AbsorbStays(d, On(d[s], b[0]), b[1..]); }
  }

  /** Where the scanner stands in `all`, with `left` still to read. */
  ghost predicate Scanned(x: seq<bit>, all: seq<bit>, left: seq<bit>, state: nat) {
    |left| <= |all| && left == all[|all| - |left|..] && Sofar(x, all, |all| - |left|, state)
  }

  /** What a scan has come to: it stops 32 bits after the first end of the pattern, if
      there are as many, and else at the end of the input. */
  ghost predicate Found(x: seq<bit>, all: seq<bit>, rv: Status, left: seq<bit>) {
    if rv == OK then exists e: nat {:trigger FirstEnd(x, all, e)} :: FirstEnd(x, all, e) && e + 32 <= |all| && left == all[e + 32..]
    else rv == MORE && left == [] && forall e: nat {:trigger FirstEnd(x, all, e)} :: FirstEnd(x, all, e) ==> e + 32 > |all|
  }

  lemma ScanBit(x: seq<bit>, d: seq<(nat, nat)>, all: seq<bit>, left: seq<bit>, state: nat)
    requires IsMini(x, d) && Scanned(x, all, left, state) && left != []
    ensures state < |d|
    ensures if On(d[state], left[0]) == |x| then FirstEnd(x, all, |all| - |left| + 1)
            else Scanned(x, all, left[1..], On(d[state], left[0]))
  {
    hide IsMini, Sofar, FirstEnd, On;
    var k := |all| - |left|;
    SofarBit(x, d, all, k, state);
    assert left[0] == all[k] && left[1..] == all[k + 1..];
  }

  lemma OneEnd(x: seq<bit>, all: seq<bit>, e: nat, f: nat)
    requires FirstEnd(x, all, e) && FirstEnd(x, all, f)
    ensures e == f
  {
  }

  lemma EndFound(x: seq<bit>, all: seq<bit>, e: nat)
    requires FirstEnd(x, all, e)
    ensures e <= |all|
    ensures e + 32 <= |all| ==> Found(x, all, OK, all[e + 32..])
    ensures e + 32 > |all| ==> Found(x, all, MORE, [])
  {
    forall f: nat {:trigger FirstEnd(x, all, f)} | FirstEnd(x, all, f) ensures f == e { OneEnd(x, all, e, f); }
    hide FirstEnd;
  }

  lemma NothingFound(x: seq<bit>, all: seq<bit>, state: nat)
    requires Scanned(x, all, [], state)
    ensures Found(x, all, MORE, [])
  {
  }

  /** Drops the checksum after the pattern. */
  method SkipChecksum(bs: Bitstream, x: seq<bit>, ghost all: seq<bit>, ghost e: nat) returns (rv: Status)
    requires bs.Valid() && FirstEnd(x, all, e) && e <= |all| && bs.Bits() == all[e..]
    modifies bs
    ensures bs.Valid() && bs.eof == old(bs.eof) && |bs.Bits()| <= old(|bs.Bits()|)
    ensures rv != FINISH && Found(x, all, rv, bs.Bits())
  {
    hide Found, FirstEnd;
    EndFound(x, all, e);
    var ok := NeedBits(bs, 32);
    if ok == OK {
      bs.Dump(32);
      rv := OK;
    } else {
      Consume(bs);
      rv := MORE;
    }
  }

  /** The bits that are left in the buffer, one at a time. */
  method ScanBits(bs: Bitstream, x: seq<bit>, mini: seq<(nat, nat)>, state0: nat, ghost all: seq<bit>)
    returns (rv: Status, state: nat)
    requires IsMini(x, mini) && bs.Valid() && Scanned(x, all, bs.Bits(), state0)
    modifies bs
    ensures bs.Valid() && bs.eof == old(bs.eof) && |bs.Bits()| <= old(|bs.Bits()|)
    ensures rv == FINISH ==> Scanned(x, all, bs.Bits(), state) && bs.live == 0
    ensures rv == FINISH && old(bs.live) > 0 ==> |bs.Bits()| < old(|bs.Bits()|)
    ensures rv != FINISH ==> Found(x, all, rv, bs.Bits())
  {
    hide Scanned, Found, FirstEnd, IsMini, On;
    MiniSize(x, mini);
    state := state0;
    while bs.live > 0
      invariant bs.Valid() && bs.eof == old(bs.eof) && Scanned(x, all, bs.Bits(), state) && |bs.Bits()| <= old(|bs.Bits()|)
      invariant old(bs.live) > 0 ==> bs.live == old(bs.live) || |bs.Bits()| < old(|bs.Bits()|)
      decreases bs.live
    {
      ghost var left := bs.Bits();
      ScanBit(x, mini, all, left, state);
      LeftAfter(x, all, left, state);
      var c := bs.Take(1);
      FirstBit(left);
      state := On(mini[state], c);
      if state == |x| {
        rv := SkipChecksum(bs, x, all, |all| - |left| + 1);
        return;
      }
    }
    rv := FINISH;
  }

  lemma FirstBit(b: seq<bit>)
    requires b != []
    ensures Val(b[..1]) == b[0]
  {
    assert b[..1][..0] == [];
  }

  lemma LeftAfter(x: seq<bit>, all: seq<bit>, left: seq<bit>, state: nat)
    requires Scanned(x, all, left, state) && left != []
    ensures |left| <= |all| && left[1..] == all[|all| - |left| + 1..]
  {
    hide Sofar;
  }

  /** Four bytes at once. */
  lemma ScanWord(x: seq<bit>, d: seq<(nat, nat)>, all: seq<bit>, data: seq<uint32>, state: nat)
    requires IsMini(x, d) && Scanned(x, all, WordBits(data), state) && data != []
    ensures state < |d| == |x|
    ensures var t := Absorb(d, state, ToBits(data[0], 32));
      t < |x| ==> Scanned(x, all, WordBits(data[1..]), t)
  {
    var left := WordBits(data);
    FirstWord(data);
    MiniSize(x, d);
    hide ToBits, WordBits, IsMini, Sofar, FirstEnd, On, Absorb;
    var k := |all| - |left|;
    SubSlice(all, left, 32);
    SofarBits(x, d, all, k, state, 32);
    SofarRange(x, all, k, state);
  }

  lemma SofarRange(x: seq<bit>, b: seq<bit>, k: nat, s: nat)
    requires Sofar(x, b, k, s)
    ensures s < |x|
  {
  }

  lemma FirstWord(data: seq<uint32>)
    requires data != []
    ensures |WordBits(data)| == 32 + |WordBits(data[1..])|
    ensures WordBits(data)[..32] == ToBits(data[0], 32) && WordBits(data)[32..] == WordBits(data[1..])
  {
    hide ToBits;
  }

  /** A piece of what is left. */
  lemma SubSlice(all: seq<bit>, left: seq<bit>, n: nat)
    requires n <= |left| <= |all| && left == all[|all| - |left|..]
    ensures var k := |all| - |left|;
      all[k..k + n] == left[..n] && left[n..] == all[k + n..]
  {
  }

  lemma MiniRange(x: seq<bit>, d: seq<(nat, nat)>)
    requires IsMini(x, d)
    ensures |d| == |x| && forall r, c: bit {:trigger On(d[r], c)} :: 0 <= r < |d| ==> On(d[r], c) <= |d|
  {
    forall r, c: bit {:trigger On(d[r], c)} | 0 <= r < |d| ensures On(d[r], c) <= |d| {
      assert Follows(x, r, d[r]);
    }
  }

  /** Passes over words that do not complete the pattern. */
  method ScanWords(bs: Bitstream, x: seq<bit>, mini: seq<(nat, nat)>, big: seq<seq<nat>>, state0: nat, ghost all: seq<bit>)
    returns (again: bool, state: nat)
    requires IsMini(x, mini) && IsBig(mini, big) && bs.Valid() && bs.live == 0 && Scanned(x, all, bs.Bits(), state0)
    modifies bs
    ensures bs.Valid() && bs.eof == old(bs.eof) && |bs.Bits()| <= old(|bs.Bits()|)
    ensures Scanned(x, all, bs.Bits(), state)
    ensures again ==> bs.live > 0
    ensures !again ==> bs.Bits() == []
  {
    hide Scanned, IsMini, IsBig, WordBits, Absorb, ToBits;
    MiniRange(x, mini);
    state := state0;
    var data := bs.data;
    NothingBefore(WordBits(data));
    while data != []
      invariant bs.Valid() && bs.eof == old(bs.eof) && bs.data == old(bs.data) && bs.held == []
      invariant Scanned(x, all, WordBits(data), state) && |data| <= |bs.data|
      decreases |data|
    {
      var btState := state;
      ScanWord(x, mini, all, data, state);
      state := ReadWord(big, state, data[0], mini);
      if state == |x| {
        state := btState;
        WordBitsLength(bs.data);
        WordBitsLength(data);
        NothingBefore(WordBits(bs.data));
        NothingBefore(WordBits(data));
        bs.data := data;
        var ok := NeedBits(bs, 1);
        return true, state;
      }
      data := data[1..];
    }
    NoBits();
    bs.data := data;
    NothingBefore(WordBits(data));
    assert bs.Bits() == [];
    again := false;
  }

  lemma NoBits()
    ensures WordBits([]) == []
  {
  }

  /** Scans for the pattern after skipping some bits.  Words that cannot complete it are
      read byte by byte, and the one that does is read again bit by bit. */
  method Scan(bs: Bitstream, x: seq<bit>, mini: seq<(nat, nat)>, big: seq<seq<nat>>, skip: nat) returns (rv: Status)
    requires x != [] && IsMini(x, mini) && IsBig(mini, big) && bs.Valid()
    modifies bs
    ensures bs.Valid() && bs.eof == old(bs.eof)
    ensures var n := Dropped(skip, old(bs.live), |old(bs.data)|);
      n <= |old(bs.Bits())| && Found(x, old(bs.Bits())[n..], rv, bs.Bits())
  {
    hide Scanned, Found, IsMini, IsBig;
    Skip(bs, skip);
    ghost var all := bs.Bits();
    var state := 0;
    ScanStarts(x, all);
    while true
      invariant bs.Valid() && bs.eof == old(bs.eof) && Scanned(x, all, bs.Bits(), state)
      decreases |bs.Bits()|, if bs.live == 0 then 1 else 0
    {
      rv, state := ScanBits(bs, x, mini, state, all);
      if rv != FINISH { return; }
      var again;
      again, state := ScanWords(bs, x, mini, big, state, all);
      if !again {
        NothingFound(x, all, state);
        return MORE;
      }
    }
  }

  lemma ScanStarts(x: seq<bit>, all: seq<bit>)
    requires x != []
    ensures Scanned(x, all, all, 0)
  {
    SofarNone(x, all);
  }
}
