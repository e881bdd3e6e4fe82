/** The second half of the block decoder: inverse transform and run expansion. */
module Decoders {
  import opened Common
  import opened Bwt
  import opened CountingSort
  import opened NodeList
  import opened Randomizer
  import opened InverseTransform
  import opened RunLength
  import opened Crc

  class Decoder {
    var rand: bool
    var bwtIdx: nat
    var crc: uint32
    const table: stepTable         // the table behind randomised blocks
    const ftab: array<uint32>
    const tt: array<uint32>        // the retrieved block, one node a byte

    var rleState: int
    var rleCrc: uint32
    var rleIndex: uint32
    var rleAvail: uint32
    var rleChar: byte
    var rlePrev: byte

    constructor (table: stepTable, block: seq<byte>, rand: bool, bwtIdx: nat)
      requires |block| <= MAX_BLOCK_SIZE
      ensures fresh(ftab) && fresh(tt)
      ensures this.table == table && this.rand == rand && this.bwtIdx == bwtIdx && Retrieved(block)
    {
      ftab := new uint32[256](c => 0);
      tt := new uint32[|block|](i requires 0 <= i < |block| => block[i]);
      this.table, this.rand, this.bwtIdx := table, rand, bwtIdx;
      crc, rleState, rleCrc, rleIndex, rleAvail, rleChar, rlePrev := 0, 0, 0, 0, 0, 0, 0;
      new;
      for i := 0 to |block|
        modifies ftab
        invariant ftab.Length == 256 && tt.Length == |block|
        invariant forall x :: 0 <= x < |block| ==> tt[x] == block[x]
        invariant forall c :: 0 <= c < 256 ==> ftab[c] == Count(block[..i], c)
      {
        assert block[..i + 1][..i] == block[..i];
        ftab[block[i]] := ftab[block[i]] + 1;
      }
      assert block[..|block|] == block;
    }

    /** The state in which retrieval leaves the decoder: the column of the sorted
        matrix, one character a node, and its character counts. */
    ghost predicate Retrieved(col: seq<byte>)
      reads this, ftab, tt
    {
      && ftab.Length == 256 && ftab != tt
      && |col| == tt.Length <= MAX_BLOCK_SIZE
      && (forall i :: 0 <= i < |col| ==> tt[i] == col[i])
      && (forall c :: 0 <= c < 256 ==> ftab[c] == Count(col, c))
    }

    /** Transforms counts into first indices. */
    method Accumulate(ghost col: seq<byte>)
      requires Retrieved(col)
      modifies ftab
      ensures forall c :: 0 <= c < 256 ==> ftab[c] == CountBelow(col, c)
    {
      var cum := 0;
      CountBelowEnds(col);
      for i := 0 to 256
        invariant cum == CountBelow(col, i)
        invariant forall c :: 0 <= c < i ==> ftab[c] == CountBelow(col, c)
        invariant forall c :: i <= c < 256 ==> ftab[c] == Count(col, c)
      {
        CountBelowStep(col, i);
        cum := cum + ftab[i];
        ftab[i] := cum - ftab[i];
      }
      assert cum == tt.Length;
    }

    /** Stores in every node the index of its successor. */
    method LinkNodes(ghost col: seq<byte>, ghost place: seq<int>, ghost next: seq<int>)
      requires IsInverse(place, next) && |place| == |col|
      requires forall x {:trigger Place(col, x)} :: 0 <= x < |col| ==> place[x] == Place(col, x)
      requires ftab.Length == 256 && ftab != tt && |col| == tt.Length <= MAX_BLOCK_SIZE
      requires forall i :: 0 <= i < |col| ==> tt[i] == col[i]
      requires forall c :: 0 <= c < 256 ==> ftab[c] == CountBelow(col, c)
      modifies ftab, tt
      ensures Packed(tt[..], col, next)
      ensures forall c :: 0 <= c < 256 ==> ftab[c] == CountBelow(col, c + 1)
    {
      for i := 0 to tt.Length
        invariant forall c :: 0 <= c < 256 ==> ftab[c] == CountBelow(col, c) + Count(col[..i], c)
        invariant PartlyLinked(tt[..], col, next, i)
      {
        var uc := tt[i] % 0x100;
        Unpack(tt[i], if next[i] < i then next[i] else 0, col[i]);
        var p := ftab[uc];
        ghost var before := tt[..];
        assert Place(col, i) == p;
        PartlyLinkedStep(before, col, place, next, i, p);
        tt[p] := tt[p] + i * 0x100;
        assert tt[..] == before[p := before[p] + i * 0x100];
        ftab[uc] := p + 1;
        CountNext(col, i);
      }
      assert col[..|col|] == col;
      forall c | 0 <= c < 256 ensures ftab[c] == CountBelow(col, c + 1) {
        CountBelowStep(col, c);
      }
    }

    /** The character whose range of sorted places holds `j`, by binary search. */
    method FindCharacter(j: nat, ghost col: seq<byte>) returns (k: byte)
      requires ftab.Length == 256 && j < |col|
      requires forall c :: 0 <= c < 256 ==> ftab[c] == CountBelow(col, c + 1)
      ensures Brackets(col, k, j)
    {
      CountBelowEnds(col);
      hide CountBelow;
      var c, step: int := 0, 128;
      while step > 0
        invariant step in {128, 64, 32, 16, 8, 4, 2, 1, 0}
        invariant 0 <= c && c + Span(step) <= 256
        invariant CountBelow(col, c) <= j < CountBelow(col, c + Span(step))
      {
        if j >= ftab[c + step - 1] { c := c + step; }
        step := step / 2;
      }
      k := c;
    }

    /** Replaces the characters of the nodes, in memory order, by the characters of
        the walk that starts after node `bwtIdx`. */
    method UnsortInPlace(ghost col: seq<byte>, ghost next: seq<int>, ghost t: seq<byte>)
      requires ftab.Length == 256 && ftab != tt && |col| == tt.Length <= MAX_BLOCK_SIZE
      requires bwtIdx < |col| && FirstColumn(col, next)
      requires t == Walk(col, next, next[bwtIdx], |col|)
      requires forall c :: 0 <= c < 256 ==> ftab[c] == CountBelow(col, c + 1)
      requires Packed(tt[..], col, next)
      modifies tt
      ensures Characters(tt[..]) == t
    {
      var j: int := bwtIdx;
      for i := 0 to tt.Length
        invariant 0 <= j < |col|
        invariant Walk(col, next, next[j], |col| - i) == t[i..]
        invariant PartlyUnsorted(tt[..], next, col, t, i)
      {
        var k := FindCharacter(j, col);
        BracketsUnique(col, k, col[next[j]], j);
        hide CountBelow, Brackets;
        WalkStep(col, next, j, i, t);
        ghost var before := tt[..];
        Unpack(tt[i], next[i], col[i]);
        tt[i] := tt[i] - tt[i] % 0x100 + k;
        assert tt[..] == before[i := tt[i]];
        Unpack(tt[j], next[j], if j <= i then t[j] else col[j]);
        j := tt[j] / 0x100;
      }
      UnsortedCharacters(tt[..], next, col, t);
    }

    /** Flips the positions the random table names. */
    method Derandomize(ghost t: seq<byte>)
      requires Characters(tt[..]) == t
      modifies tt
      ensures Characters(tt[..]) == Derandomized(table, t)
    {
      var i, j := 0, RAND_THRESH;
      while j < tt.Length
        invariant 0 <= i < 512
        invariant forall x :: j <= x < |t| ==> Hit(table, 0, RAND_THRESH, x) == Hit(table, i, j, x)
        invariant PartlyDerandomized(table, tt[..], t, j)
      {
        HitJump(table, i, j);
        ghost var before := tt[..];
        tt[j] := if tt[j] % 2 == 0 then tt[j] + 1 else tt[j] - 1;
        assert tt[..] == before[j := tt[j]];
        PartlyDerandomizedStep(table, before, tt[..], t, i, j);
        i := (i + 1) % 512;
        j := j + table[i];
      }
      DerandomizedCharacters(table, tt[..], t);
    }

    /** Makes the nodes follow each other in memory. */
    method Relink()
      requires tt.Length <= MAX_BLOCK_SIZE
      modifies tt
      ensures Characters(tt[..]) == old(Characters(tt[..]))
      ensures forall i :: 0 <= i < tt.Length ==> tt[i] / 0x100 == i + 1
    {
      for i := 0 to tt.Length
        invariant forall x :: 0 <= x < tt.Length ==> tt[x] % 0x100 == old(tt[x]) % 0x100
        invariant forall x :: 0 <= x < i ==> tt[x] / 0x100 == x + 1
      {
        tt[i] := (i + 1) * 0x100 + tt[i] % 0x100;
      }
    }

    /** The path taken by randomised blocks. */
    method UndoInPlace(ghost col: seq<byte>, ghost next: seq<int>, ghost t: seq<byte>)
      requires ftab.Length == 256 && ftab != tt && |col| == tt.Length <= MAX_BLOCK_SIZE
      requires bwtIdx < |col| && FirstColumn(col, next)
      requires t == Walk(col, next, next[bwtIdx], |col|)
      requires forall c :: 0 <= c < 256 ==> ftab[c] == CountBelow(col, c + 1)
      requires Packed(tt[..], col, next)
      modifies tt
      ensures Linked(tt[..], 0, tt.Length)
      ensures Listed(tt[..], 0, tt.Length) == Derandomized(table, t)
    {
      UnsortInPlace(col, next, t);
      Derandomize(t);
      Relink();
      hide *;
      ListedInOrder(tt[..], 0);
      assert Characters(tt[..])[0 / 0x100..] == Characters(tt[..]);
    }

    /** Undoes the randomisation if need be and starts a walk over the block. */
    method StartWalk(ghost col: seq<byte>, ghost next: seq<int>, ghost t: seq<byte>)
      requires ftab.Length == 256 && ftab != tt && |col| == tt.Length <= MAX_BLOCK_SIZE
      requires bwtIdx < |col| && FirstColumn(col, next)
      requires t == Walk(col, next, next[bwtIdx], |col|)
      requires forall c :: 0 <= c < 256 ==> ftab[c] == CountBelow(col, c + 1)
      requires Packed(tt[..], col, next)
      modifies this, tt
      ensures Linked(tt[..], rleIndex, rleAvail) && rleAvail == tt.Length
      ensures Listed(tt[..], rleIndex, rleAvail) == if rand then Derandomized(table, t) else t
      ensures rleState == 0 && rleCrc == M1 && rand == old(rand) && bwtIdx == old(bwtIdx)
    {
      hide CountBelow, Walk, Linked, Listed;
      if rand {
        UndoInPlace(col, next, t);
      } else {
        PackedWalk(tt[..], col, next, bwtIdx);
      }
      rleState := 0;
      rleCrc := M1;
      rleIndex := if rand then 0 else tt[bwtIdx];
      rleAvail := tt.Length;
      rlePrev := 0;
      rleChar := 0;
    }

    /** Reverses the sorting transform (and the randomisation), leaving a list that
        the emitter can walk. */
    method Decode(ghost col: seq<byte>)
      requires Retrieved(col) && bwtIdx < |col|
      modifies this, ftab, tt
      ensures Emitting()
      ensures var t := Unsorted(col, old(bwtIdx));
        Listed(tt[..], rleIndex, rleAvail) == if rand then Derandomized(table, t) else t
      ensures rleState == 0 && rleCrc == M1 && rand == old(rand) && bwtIdx == old(bwtIdx)
    {
      Accumulate(col);
      ghost var place, next, t := DescribeLinks(col, bwtIdx);
      hide Unsorted, Links, Places, Count, CountBelow, Place, Walk, Brackets;
      LinkNodes(col, place, next);
      StartWalk(col, next, t);
    }

    /** The emitter may be entered or resumed. */
    ghost predicate Emitting()
      reads this, tt
    {
      && 0 <= rleState <= 5
      && rleAvail <= tt.Length <= MAX_BLOCK_SIZE
      && Linked(tt[..], rleIndex, rleAvail)
    }

    /** The bytes the emitter still has to produce. */
    ghost function Remaining(): Expansion
      requires Emitting()
      reads this, tt
    {
      Owed(rleState, rleChar, rlePrev, Listed(tt[..], rleIndex, rleAvail))
    }

    /** Appends `n` copies of `d` to the output and to the checksum. */
    static method WriteRun(buf: array<byte>, w: nat, d: byte, n: nat, crc: uint32) returns (s: uint32)
      requires w + n <= buf.Length
      modifies buf
      ensures buf[..w] == old(buf[..w]) && buf[..w + n] == old(buf[..w]) + Repeat(d, n)
      ensures s == CrcFold(crc, Repeat(d, n))
    {
      s := crc;
      for i := 0 to n
        invariant buf[..w + i] == old(buf[..w]) + Repeat(d, i)
        invariant s == CrcFold(crc, Repeat(d, i))
      {
        buf[w + i] := d;
        s := CrcStep(s, d);
        RepeatSplit(d, i, 1);
        CrcFoldConcat(crc, Repeat(d, i), [d]);
      }
    }

    /** Expands the runs of the block into `buf`.  `MORE` means the buffer was filled
        and the emitter can be resumed; `left` is the unused part of the buffer.  The
        six resumption points and the main loop of the automaton share one copy of
        each transition here. */
    method Emit(buf: array<byte>) returns (rv: Status, left: nat)
      requires Emitting() && 0 < buf.Length <= 0x7FFF_FFFF
      modifies this, buf
      ensures left <= buf.Length
      ensures rv in {OK, MORE, ERR_RUNLEN}
      ensures rv == MORE ==> left == 0 && Emitting()
      ensures rv == MORE ==> old(Remaining()) == Prepend(buf[..], Remaining())
      ensures rv == MORE ==> rleCrc == CrcFold(old(rleCrc), buf[..])
      ensures rv == OK ==> old(Remaining()) == Expansion(buf[..buf.Length - left], true)
      ensures rv == OK ==> crc == M1 - CrcFold(old(rleCrc), buf[..buf.Length - left])
      ensures rv == ERR_RUNLEN ==> old(Remaining()) == Expansion(buf[..buf.Length - left], false)
    {
      hide Unrle, Owed, CrcFold, CrcStep, Listed, Linked, Prepend;
      ghost var total := Remaining();
      ghost var nodes := tt[..];
      var pc := rleState;
      var a: uint32, p: uint32, c: byte, d: byte := rleAvail, rleIndex, rleChar, rlePrev;
      var s: uint32, m: uint32 := rleCrc, buf.Length;
      var w: nat := 0;
      var done := false;
      EmittedNone(total);
      CrcFoldEmpty(s);
      assert buf[..0] == [];
      while !done
        invariant 0 <= pc <= 6 && w <= buf.Length && nodes == tt[..]
        invariant s == CrcFold(old(rleCrc), buf[..w])
        invariant done && a == M1 ==> m == buf.Length - w && total == Expansion(buf[..w], true)
        invariant done && a != M1 ==> m == M1 && w == buf.Length && pc == rleState <= 5
        invariant !done ==> a <= tt.Length && m == buf.Length - w
        invariant a != M1 ==> a <= tt.Length && Linked(nodes, p, a)
        invariant a != M1 ==> total == Prepend(buf[..w], Owed(pc, c, d, Listed(nodes, p, a)))
        decreases !done, a, if pc in {0, 6} then 0 else 1
      {
        ghost var l := Listed(nodes, p, a);
        ghost var written, owed := buf[..w], Owed(pc, c, d, l);
        ListedFetch(nodes, p, a);
        if pc == 4 {
          OwedRun(c, d, l, m);
          var n: byte := if m < c then m else c;
          s := WriteRun(buf, w, d, n, s);
          CrcFoldConcat(old(rleCrc), written, Repeat(d, n));
          w := w + n;
          if m < c {
            c := c - n;
            m := M1;
            rleState := 4;
            done := true;
          } else {
            m := m - n;
            pc := 0;
          }
          Emitted(total, written, owed, Repeat(d, n), Owed(pc, c, d, l));
        } else if pc == 0 || pc == 6 {
          OwedFetch(pc, c, d, l);
          if a == 0 {
            a := M1;
            done := true;
            EmittedAll(total, written, [], true);
            assert written + [] == written;
          } else {
            a := a - 1;
            if pc == 6 { d := c; }
            p := tt[p / 0x100];
            c := p % 0x100;
            pc := if pc == 0 then 5 else 1;
          }
        } else if m == 0 {
          m := M1;
          rleState := pc;
          done := true;
        } else {
          if pc == 5 { OwedFresh(c, d, d, l); } else { OwedWrite(pc, c, d, l); }
          s := WriteRun(buf, w, c, 1, s);
          assert Repeat(c, 1) == [c];
          CrcFoldConcat(old(rleCrc), written, [c]);
          w := w + 1;
          m := m - 1;
          if pc == 5 || c != d {
            pc := 6;
            Emitted(total, written, owed, [c], Owed(6, c, d, l));
          } else if a == 0 {
            EmittedAll(total, written, [c], pc < 3);
            if pc == 3 { return ERR_RUNLEN, m; }
            a := M1;
            done := true;
          } else {
            Emitted(total, written, owed, [c], Owed(pc + 1, l[0], d, l[1..]));
            a := a - 1;
            p := tt[p / 0x100];
            c := p % 0x100;
            pc := pc + 1;
          }
        }
      }
      rleAvail := a;
      if m == M1 {
        assert buf[..w] == buf[..];
        rleIndex, rleChar, rlePrev, rleCrc := p, c, d, s;
        return MORE, 0;
      }
      crc := M1 - s;
      return OK, m;
    }
  }
}
