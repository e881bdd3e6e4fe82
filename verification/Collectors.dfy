/** The first stage of the compressor: gathering a run-length encoded block. */
module Collectors {
  import opened Common
  import opened Crc
  import opened Collecting

  const MAX_RUN_LENGTH := 4 + 255

  class Collector {
    const maxBlockSize: nat
    const cmap: array<bool>       // bytes in use
    const block: array<byte>
    var nblock: nat
    var rleState: int
    var rleCharacter: byte
    var blockCrc: uint32

    constructor (maxBlockSize: nat)
      requires 0 < maxBlockSize <= MAX_BLOCK_SIZE
      ensures this.maxBlockSize == maxBlockSize
      ensures Valid() && State() == EMPTY && blockCrc == M1
      ensures fresh(cmap) && fresh(block)
    {
      this.maxBlockSize := maxBlockSize;
      cmap := new bool[256](i => false);
      block := new byte[maxBlockSize](i => 0);
      nblock, rleState, rleCharacter, blockCrc := 0, 0, 0, M1;
    }

    ghost predicate Valid()
      reads this, cmap, block
    {
      && cmap.Length == 256
      && 0 < maxBlockSize == block.Length <= MAX_BLOCK_SIZE
      && nblock <= block.Length
      && -1 <= rleState < MAX_RUN_LENGTH
      && Sound(maxBlockSize, State())
      && Mapped(cmap[..], block[..nblock])
      && (rleState > 0 ==> cmap[rleCharacter])
    }

    ghost function State(): Rle
      requires nblock <= block.Length
      reads this, block
    {
      Rle(block[..nblock], rleState, if rleState <= 0 then 0 else rleCharacter)
    }

    /** Writes one byte of the block. */
    method Put(q: nat, b: byte)
      requires q < block.Length && cmap.Length == 256
      modifies block
      ensures block[..q + 1] == old(block[..q]) + [b]
    {
      block[q] := b;
    }

    /** Writes a run count and marks it in the map. */
    method PutCount(q: nat, b: byte)
      requires q < block.Length && Mapped(cmap[..], block[..q])
      modifies block, cmap
      ensures block[..q + 1] == old(block[..q]) + [b]
      ensures Mapped(cmap[..], block[..q + 1]) && forall x: byte :: old(cmap[x]) ==> cmap[x]
    {
      MappedAppend(cmap[..], block[..q], b);
      Put(q, b);
      ghost var before := cmap[..];
      cmap[b] := true;
      assert cmap[..] == before[b := true];
    }

    /** The invariant of the automaton: offering the rest of the input to the state the
        registers stand for leads to `goal`. */
    ghost predicate At(g: Registers, bytes: seq<byte>, crc0: uint32, goal: (Rle, nat))
      reads this, cmap, block
    {
      && cmap.Length == 256 && 0 < maxBlockSize == block.Length
      && g.q <= block.Length && g.p <= |bytes| && -1 <= rleState < MAX_RUN_LENGTH
      && Leads(maxBlockSize, Stands(g, block[..g.q]), bytes, g.p, goal)
      && (g.pc in {STATE1, STATE2, STATE3, RUN} ==> g.q < block.Length)
      && (g.pc == STATE4 ==> g.q + 1 < block.Length)
      && (g.pc == FINISH_RUN ==> rleState > 0 && (rleState >= 4 ==> g.q < block.Length))
      && (g.pc == RUN ==> 4 <= g.run < MAX_RUN_LENGTH)
      && (g.pc in {STATE2, STATE3, STATE4, RUN} ==> g.ch == g.last && cmap[g.ch])
      && (g.pc == FINISH_RUN || (g.pc == DONE && rleState > 0) ==> g.ch == rleCharacter && cmap[g.ch])
      && (g.pc == DONE ==> rleState == -1 || g.p == |bytes|)
      && Mapped(cmap[..], block[..g.q])
      && g.crc == CrcFold(crc0, bytes[..g.p])
    }

    ghost function Stands(g: Registers, blk: seq<byte>): Rle
      reads this
    {
      Standing(maxBlockSize, g.pc, blk, g.ch, if g.pc == RUN then g.run else rleState)
    }

    /** What is known when the automaton is about to look at the next byte. */
    lemma Look(g: Registers, bytes: seq<byte>, crc0: uint32, goal: (Rle, nat))
      requires At(g, bytes, crc0, goal)
      ensures var st := Stands(g, block[..g.q]);
        if st.run == -1 || g.p == |bytes| then goal == (st, g.p)
        else
          var (next, taken) := Take(maxBlockSize, st, bytes[g.p]);
          && CrcStep(g.crc, bytes[g.p]) == CrcFold(crc0, bytes[..g.p + 1])
          && (if taken then next.run < 259 && Leads(maxBlockSize, next, bytes, g.p + 1, goal)
              else goal == (next, g.p))
    {
      var st := Stands(g, block[..g.q]);
      if st.run == -1 || g.p == |bytes| {
        LeadsEnd(maxBlockSize, st, bytes, g.p, goal);
      } else {
        LeadsNext(maxBlockSize, st, bytes, g.p, goal);
        CrcFoldNext(crc0, bytes, g.p);
      }
    }

    lemma LeadsDone(st: Rle, bytes: seq<byte>, p: nat, goal: (Rle, nat))
      requires -1 <= st.run < 259 && p <= |bytes| && goal == (st, p)
      requires st.run == -1 || p == |bytes|
      ensures Leads(maxBlockSize, st, bytes, p, goal)
    {
    }

    method Fresh(g: Registers, input: array<byte>, ghost crc0: uint32, ghost goal: (Rle, nat)) returns (g': Registers)
      requires At(g, input[..], crc0, goal) && g.pc == STATE0
      modifies this
      ensures At(g', input[..], crc0, goal)
      ensures g'.p >= g.p && (g'.pc == DONE || g'.p > g.p)
    {
      Look(g, input[..], crc0, goal);
      hide Feed, CrcFold, CrcStep, Leads, Mapped;
      if g.q > block.Length - 1 {
        rleState := -1;
        return g.(pc := DONE);
      }
      if g.p == input.Length {
        rleState := 0;
        return g.(pc := DONE);
      }
      g' := g.(pc := STATE1, ch := input[g.p], p := g.p + 1, crc := CrcStep(g.crc, input[g.p]));
    }

    /** STATE1 and STATE2: write the first or second byte of a run. */
    method Short(g: Registers, input: array<byte>, ghost crc0: uint32, ghost goal: (Rle, nat)) returns (g': Registers)
      requires At(g, input[..], crc0, goal) && g.pc in {STATE1, STATE2} && input != block
      modifies this, block, cmap
      ensures At(g', input[..], crc0, goal)
      ensures g'.p >= g.p && (g'.pc == DONE || g'.p > g.p)
    {
      var n := if g.pc == STATE1 then 1 else 2;
      Look(g, input[..], crc0, goal);
      MappedAppend(cmap[..], block[..g.q], g.ch);
      hide Feed, CrcFold, CrcStep, Leads, Mapped;
      if n == 1 {
        ghost var before := cmap[..];
        cmap[g.ch] := true;
        assert cmap[..] == before[g.ch := true];
      }
      Put(g.q, g.ch);
      var q := g.q + 1;
      if q > block.Length - 1 {
        rleState := -1;
        return g.(pc := DONE, q := q);
      }
      if g.p == input.Length {
        rleState, rleCharacter := n, g.ch;
        return g.(pc := DONE, q := q);
      }
      var next := input[g.p];
      var last := if n == 1 then g.ch else g.last;
      g' := Registers(if next != last then STATE1 else if n == 1 then STATE2 else STATE3,
        q, g.p + 1, next, last, g.run, CrcStep(g.crc, next));
    }

    /** STATE3: write the third byte; a fourth needs room for its count as well. */
    method Third(g: Registers, input: array<byte>, ghost crc0: uint32, ghost goal: (Rle, nat)) returns (g': Registers)
      requires At(g, input[..], crc0, goal) && g.pc == STATE3 && input != block
      modifies this, block
      ensures At(g', input[..], crc0, goal)
      ensures g'.p >= g.p && (g'.pc == DONE || g'.p > g.p)
    {
      Look(g, input[..], crc0, goal);
      MappedAppend(cmap[..], block[..g.q], g.ch);
      hide Feed, CrcFold, CrcStep, Leads, Mapped;
      Put(g.q, g.ch);
      var q := g.q + 1;
      if q >= block.Length - 1 && (q > block.Length - 1 || (g.p < input.Length && input[g.p] == g.last)) {
        rleState := -1;
        return g.(pc := DONE, q := q);
      }
      if g.p == input.Length {
        rleState, rleCharacter := 3, g.ch;
        return g.(pc := DONE, q := q);
      }
      var next := input[g.p];
      g' := Registers(if next != g.last then STATE1 else STATE4, q, g.p + 1, next, g.last, g.run, CrcStep(g.crc, next));
    }

    /** STATE4: write the fourth byte. */
    method Fourth(g: Registers, input: array<byte>, ghost crc0: uint32, ghost goal: (Rle, nat)) returns (g': Registers)
      requires At(g, input[..], crc0, goal) && g.pc == STATE4 && input != block
      modifies block
      ensures At(g', input[..], crc0, goal)
      ensures g'.pc == RUN && g'.p == g.p
    {
      MappedAppend(cmap[..], block[..g.q], g.ch);
      hide Feed, CrcFold, CrcStep, Leads, Mapped;
      Put(g.q, g.ch);
      g' := g.(pc := RUN, q := g.q + 1, run := 4);
    }

    /** A different byte ends a run of four or more: the run gets its count. */
    method EndRun(g: Registers, input: array<byte>, ghost crc0: uint32, ghost goal: (Rle, nat)) returns (g': Registers)
      requires At(g, input[..], crc0, goal) && g.pc == RUN && input != block
      requires g.p < input.Length && input[g.p] != g.last
      modifies this, block, cmap
      ensures At(g', input[..], crc0, goal)
      ensures g'.p >= g.p && (g'.pc == DONE || g'.p > g.p)
    {
      Look(g, input[..], crc0, goal);
      hide Feed, CrcFold, CrcStep, Leads, Mapped;
      var next := input[g.p];
      PutCount(g.q, g.run - 4);
      if g.q + 1 <= block.Length - 1 {
        return g.(pc := STATE1, q := g.q + 1, p := g.p + 1, ch := next, crc := CrcStep(g.crc, next));
      }
      // No space is left to begin a new run: the byte just read is given back.
      rleState := -1;
      LeadsDone(goal.0, input[..], g.p, goal);
      g' := g.(pc := DONE, q := g.q + 1);
    }

    /** Another equal byte lengthens a run of four or more. */
    method Lengthen(g: Registers, input: array<byte>, ghost crc0: uint32, ghost goal: (Rle, nat)) returns (g': Registers)
      requires At(g, input[..], crc0, goal) && g.pc == RUN && input != block
      requires g.p < input.Length && input[g.p] == g.last
      modifies block, cmap
      ensures At(g', input[..], crc0, goal) && g'.p > g.p
    {
      Look(g, input[..], crc0, goal);
      hide Feed, CrcFold, CrcStep, Leads, Mapped;
      var crc := CrcStep(g.crc, input[g.p]);
      if g.run + 1 == MAX_RUN_LENGTH {
        PutCount(g.q, MAX_RUN_LENGTH - 4);
        return g.(pc := STATE0, q := g.q + 1, p := g.p + 1, crc := crc);
      }
      g' := g.(run := g.run + 1, p := g.p + 1, crc := crc);
    }

    /** RUN: the block holds four equal bytes and their count is still open. */
    method Long(g: Registers, input: array<byte>, ghost crc0: uint32, ghost goal: (Rle, nat)) returns (g': Registers)
      requires At(g, input[..], crc0, goal) && g.pc == RUN && input != block
      modifies this, block, cmap
      ensures At(g', input[..], crc0, goal)
      ensures g'.p >= g.p && (g'.pc == DONE || g'.p > g.p)
    {
      hide Feed, CrcFold, CrcStep, Leads, Mapped;
      if g.p == input.Length {
        rleState, rleCharacter := g.run, g.ch;
        g' := g.(pc := DONE);
      } else if input[g.p] != g.last {
        g' := EndRun(g, input, crc0, goal);
      } else {
        g' := Lengthen(g, input, crc0, goal);
      }
    }

    /** A different byte ends the run left over from the previous call. */
    method EndResumed(g: Registers, input: array<byte>, ghost crc0: uint32, ghost goal: (Rle, nat)) returns (g': Registers)
      requires At(g, input[..], crc0, goal) && g.pc == FINISH_RUN && input != block
      requires g.q < block.Length && g.p < input.Length && input[g.p] != g.ch
      modifies block, cmap
      ensures At(g', input[..], crc0, goal) && g'.pc == STATE0 && g'.p == g.p
    {
      LeadsAfterRun(maxBlockSize, Stands(g, block[..g.q]), input[..], g.p, goal);
      hide Feed, CrcFold, CrcStep, Leads, Mapped;
      if rleState >= 4 {
        PutCount(g.q, rleState - 4);
        return g.(pc := STATE0, q := g.q + 1);
      }
      g' := g.(pc := STATE0);
    }

    /** Another equal byte extends a leftover run of fewer than four. */
    method AppendResumed(g: Registers, input: array<byte>, ghost crc0: uint32, ghost goal: (Rle, nat))
      returns (g': Registers)
      requires At(g, input[..], crc0, goal) && g.pc == FINISH_RUN && input != block
      requires g.q < block.Length && g.p < input.Length && input[g.p] == g.ch && rleState < 4
      requires rleState == 3 ==> g.q + 1 < block.Length
      modifies this, block
      ensures At(g', input[..], crc0, goal) && g'.p > g.p
    {
      Look(g, input[..], crc0, goal);
      MappedAppend(cmap[..], block[..g.q], g.ch);
      hide Feed, CrcFold, CrcStep, Leads, Mapped;
      rleState := rleState + 1;
      Put(g.q, g.ch);
      g' := g.(q := g.q + 1, p := g.p + 1, crc := CrcStep(g.crc, g.ch));
    }

    /** Another equal byte lengthens a leftover run of four or more. */
    method LengthenResumed(g: Registers, input: array<byte>, ghost crc0: uint32, ghost goal: (Rle, nat))
      returns (g': Registers)
      requires At(g, input[..], crc0, goal) && g.pc == FINISH_RUN && input != block
      requires g.q < block.Length && g.p < input.Length && input[g.p] == g.ch && rleState >= 4
      modifies this, block, cmap
      ensures At(g', input[..], crc0, goal) && g'.p > g.p
    {
      Look(g, input[..], crc0, goal);
      hide Feed, CrcFold, CrcStep, Leads, Mapped;
      var crc := CrcStep(g.crc, g.ch);
      rleState := rleState + 1;
      if rleState == MAX_RUN_LENGTH {
        PutCount(g.q, MAX_RUN_LENGTH - 4);
        rleState := 0;
        return g.(pc := STATE0, q := g.q + 1, p := g.p + 1, crc := crc);
      }
      g' := g.(p := g.p + 1, crc := crc);
    }

    /** FINISH_RUN: go on with the run left over from the previous call. */
    method Resume(g: Registers, input: array<byte>, ghost crc0: uint32, ghost goal: (Rle, nat)) returns (g': Registers)
      requires At(g, input[..], crc0, goal) && g.pc == FINISH_RUN && input != block
      modifies this, block, cmap
      ensures At(g', input[..], crc0, goal)
      ensures g'.p >= g.p && (g'.pc == DONE || g'.p > g.p || g'.pc == STATE0)
    {
      if g.q >= block.Length - 1
         && (g.q > block.Length - 1 || (rleState == 3 && g.p < input.Length && input[g.p] == g.ch)) {
        g' := CloseResumed(g, input, crc0, goal);
      } else if g.p == input.Length {
        g' := g.(pc := DONE);
      } else if input[g.p] != g.ch {
        g' := EndResumed(g, input, crc0, goal);
      } else if rleState < 4 {
        g' := AppendResumed(g, input, crc0, goal);
      } else {
        g' := LengthenResumed(g, input, crc0, goal);
      }
    }

    method CloseResumed(g: Registers, input: array<byte>, ghost crc0: uint32, ghost goal: (Rle, nat))
      returns (g': Registers)
      requires At(g, input[..], crc0, goal) && g.pc == FINISH_RUN
      requires g.q >= block.Length - 1
      requires g.q > block.Length - 1 || (rleState == 3 && g.p < input.Length && input[g.p] == g.ch)
      modifies this
      ensures At(g', input[..], crc0, goal) && g'.pc == DONE && g'.p == g.p
    {
      Look(g, input[..], crc0, goal);
      LeadsDone(goal.0, input[..], g.p, goal);
      hide Feed, CrcFold, CrcStep, Leads, Mapped;
      rleState := -1;
      g' := g.(pc := DONE);
    }

    /** One transition of the automaton. */
    method Step(g: Registers, input: array<byte>, ghost crc0: uint32, ghost goal: (Rle, nat)) returns (g': Registers)
      requires At(g, input[..], crc0, goal) && g.pc != DONE && input != block
      modifies this, block, cmap
      ensures At(g', input[..], crc0, goal)
      ensures g'.p > g.p || (g'.p == g.p && Rank(g'.pc) < Rank(g.pc))
    {
      hide At;
      match g.pc
      case STATE0 => g' := Fresh(g, input, crc0, goal);
      case STATE1 => g' := Short(g, input, crc0, goal);
      case STATE2 => g' := Short(g, input, crc0, goal);
      case STATE3 => g' := Third(g, input, crc0, goal);
      case STATE4 => g' := Fourth(g, input, crc0, goal);
      case RUN => g' := Long(g, input, crc0, goal);
      case FINISH_RUN => g' := Resume(g, input, crc0, goal);
    }

    /** Collects as much of `input` as the block can take.  `full` tells that the
        block accepts nothing more; `consumed` counts the bytes taken. */
    method Collect(input: array<byte>) returns (full: bool, consumed: nat)
      requires Valid() && rleState >= 0 && input != block
      modifies this, cmap, block
      ensures Valid()
      ensures (State(), consumed) == Feed(maxBlockSize, old(State()), input[..])
      ensures blockCrc == CrcFold(old(blockCrc), input[..consumed])
      ensures full == (rleState == -1)
    {
      ghost var bytes, crc0 := input[..], blockCrc;
      ghost var goal := Feed(maxBlockSize, State(), bytes);
      FeedSound(maxBlockSize, State(), bytes);
      var g := Registers(if rleState == 0 then STATE0 else FINISH_RUN, nblock, 0, rleCharacter, 0, 0, blockCrc);
      assert bytes[0..] == bytes && bytes[..0] == [];
      assert At(g, bytes, crc0, goal);
      hide Feed, CrcFold, Leads, Mapped, Standing, Sound;
      while g.pc != DONE
        invariant bytes == input[..] && At(g, bytes, crc0, goal)
        decreases input.Length - g.p, Rank(g.pc)
      {
        g := Step(g, input, crc0, goal);
      }
      Stand(maxBlockSize, DONE, block[..g.q], g.ch, rleState);
      LeadsEnd(maxBlockSize, Stands(g, block[..g.q]), bytes, g.p, goal);
      nblock := g.q;
      blockCrc := g.crc;
      full := rleState < 0;
      consumed := g.p;
    }

    /** Completes the block for sorting: a pending run gets its count. */
    method Finish()
      requires Valid()
      modifies this, cmap, block
      ensures nblock <= block.Length && block[..nblock] == Finished(old(State()))
      ensures Mapped(cmap[..], block[..nblock]) && blockCrc == old(blockCrc)
    {
      if rleState >= 4 {
        PutCount(nblock, rleState - 4);
        nblock := nblock + 1;
      }
    }
  }

  datatype Registers = Registers(pc: Label, q: nat, p: nat, ch: byte, last: byte, run: int, crc: uint32)

  function Rank(pc: Label): nat {
    match pc
    case DONE => 0
    case STATE0 => 1
    case RUN => 2
    case _ => 3
  }
}
