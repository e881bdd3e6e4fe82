/** The parallel compressor as a state machine: every step is what one thread does
    between entering and leaving the monitor.  Blocks are collected from one input block
    each, by all workers, or, in sequential mode, by one worker at a time across input
    blocks. */
module CompressionProtocol {
  import opened Common
  import Permutation
  import opened Positions
  import opened Crc
  import opened Chains

  const TRANSM_THRESH := 2

  datatype Reader = Idle | Reading | Ended

  /** The blocks in the compressor, by what is being done to them.  In sequential mode a
      block that wants more input is unfinished, or growing while a worker collects. */
  datatype Stages = Stages(
    unfinished: set<Block>,
    growing: set<Block>,
    encoding: set<Block>,
    transQ: set<Block>,
    transmitting: set<Block>,
    reordQ: set<Block>)

  /** `chain`, `consumed` and `written` are there to state properties with: all input and
      blocks from the one to be written next on, all input read and all blocks written. */
  datatype State = State(
    workers: nat,
    sequential: bool,
    eof: bool,
    reader: Reader,
    inSlots: nat,
    workUnits: nat,
    outSlots: nat,
    token: bool,
    collQ: set<Input>,
    collecting: set<Input>,
    stages: Stages,
    order: Position,
    nextId: nat,
    combinedCrc: uint32,
    sink: seq<Block>,
    written: seq<Block>,
    chain: seq<Cell>,
    consumed: seq<byte>)

  function TotalIn(s: State): nat { 2 * s.workers }

  function TotalOut(s: State): nat { 2 * s.workers + TRANSM_THRESH }

  function Initial(workers: nat, sequential: bool): State {
    State(workers, sequential, false, Idle, 2 * workers, workers, 2 * workers + TRANSM_THRESH, true, {}, {},
          Stages({}, {}, {}, {}, {}, {}), Position(0, 0), 0, 0, [], [], [], [])
  }

  // ----- the steps -----

  /** The head of the queue of input. */
  ghost predicate FirstInput(q: set<Input>, i: Input) {
    i in q && forall j :: j in q ==> LessEq(i.pos, j.pos)
  }

  ghost predicate FirstBlock(q: set<Block>, b: Block) {
    b in q && forall c :: c in q ==> LessEq(b.pos, c.pos)
  }

  /** The checksum of a block. */
  function BlockCrc(bytes: seq<byte>): uint32 {
    CrcFold(M1, bytes)
  }

  /** Rotates the combined checksum and mixes in that of a block. */
  function CombineCrc(cc: uint32, c: uint32): uint32 {
    XorBits(32, XorBits(32, XorBits(32, cc * 2 % 0x1_0000_0000, cc / 0x8000_0000), c), M1) % 0x1_0000_0000
  }

  function StartReading(s: State): State
    requires s.inSlots > 0
  {
    s.(reader := Reading, inSlots := s.inSlots - 1)
  }

  /** The reader delivers what it has read, and stops if that was less than asked for. */
  function Deliver(s: State, data: seq<byte>, short: bool): State {
    if data == [] then s.(reader := Ended, inSlots := s.inSlots + 1)
    else
      var i := Input(Position(s.nextId, 0), data);
      s.(reader := if short then Ended else Idle, nextId := s.nextId + 1, collQ := s.collQ + {i},
         chain := s.chain + [In(i)], consumed := s.consumed + data)
  }

  ghost predicate CanCollect(s: State) {
    !s.sequential && s.collQ != {} && s.workUnits > 0
  }

  function TakeCollect(s: State, i: Input): State
    requires s.workUnits > 0
  {
    s.(collQ := s.collQ - {i}, collecting := s.collecting + {i}, workUnits := s.workUnits - 1)
  }

  /** The input that is left when `n` bytes were taken. */
  function Left(i: Input, n: nat): set<Input>
    requires n <= |i.left|
  {
    if n < |i.left| then {Input(NextMinor(i.pos), i.left[n..])} else {}
  }

  function LeftCells(i: Input, n: nat): seq<Cell>
    requires n <= |i.left|
  {
    if n < |i.left| then [In(Input(NextMinor(i.pos), i.left[n..]))] else []
  }

  /** The block made of `n` more bytes. */
  function Grown(w: Block, i: Input, n: nat): Block
    requires n <= |i.left|
  {
    Block(w.pos, if n < |i.left| then NextMinor(w.next) else NextMajor(w.next), w.bytes + i.left[..n])
  }

  /** A block with nothing in it yet. */
  function NewBlock(i: Input): Block {
    Block(i.pos, i.pos, [])
  }

  /** Where blocks go when input was collected. */
  function Taken(s: State, i: Input, n: nat, q: Stages, chain: seq<Cell>): State
    requires n <= |i.left|
  {
    s.(collecting := s.collecting - {i}, collQ := s.collQ + Left(i, n), inSlots := if n < |i.left| then s.inSlots else s.inSlots + 1,
       token := true, stages := q, chain := chain)
  }

  /** Collects `n` bytes of the input at `k` in the chain; what is left goes back into the
      queue. */
  function Collect(s: State, i: Input, k: nat, n: nat): State
    requires n <= |i.left| && k < |s.chain|
  {
    var b := Grown(NewBlock(i), i, n);
    Taken(s, i, n, Entered(s.stages, b), Splice(s.chain, k, k + 1, [Work(b)] + LeftCells(i, n)))
  }

  ghost predicate CanCollectSeq(s: State) {
    && s.sequential && s.token && (s.collQ != {} || (s.eof && s.stages.unfinished != {}))
    && (s.workUnits > 0 || s.stages.unfinished != {})
  }

  /** One worker takes the token, the unfinished block or a unit for a new one, and the first
      input if there is any. */
  function TakeSeq(s: State, inputs: set<Input>): State
    requires s.workUnits > 0 || s.stages.unfinished != {}
  {
    s.(collQ := s.collQ - inputs, collecting := inputs, token := false,
       workUnits := if s.stages.unfinished == {} then s.workUnits - 1 else s.workUnits,
       stages := s.stages.(unfinished := {}, growing := s.stages.unfinished))
  }

  /** The block in hand, if there is one, grows by `n` bytes.  If it is done it is encoded,
      else it waits for more input. */
  function CollectSeq(s: State, i: Input, w: Block, k: nat, n: nat, done: bool): State
    requires n <= |i.left| && k < |s.chain| && (s.stages.growing != {} ==> k > 0)
  {
    var b := Grown(w, i, n);
    Taken(s, i, n, Handed(s.stages, b, done),
          Splice(s.chain, if s.stages.growing == {} then k else k - 1, k + 1, [Work(b)] + LeftCells(i, n)))
  }

  /** At the end of the input the unfinished block is encoded. */
  function FlushSeq(s: State): State {
    s.(token := true, stages := s.stages.(growing := {}, encoding := s.stages.encoding + s.stages.growing))
  }

  function FinishEncoding(s: State, b: Block): State {
    s.(stages := Encoded(s.stages, b))
  }

  ghost predicate MayTransmit(s: State, b: Block) {
    FirstBlock(s.stages.transQ, b) && (s.outSlots > TRANSM_THRESH || (s.outSlots > 0 && b.pos == s.order))
  }

  function TakeTransmit(s: State, b: Block): State
    requires s.outSlots > 0
  {
    s.(stages := Sending(s.stages, b), outSlots := s.outSlots - 1)
  }

  function FinishTransmit(s: State, b: Block): State {
    s.(stages := Sent(s.stages, b), workUnits := s.workUnits + 1)
  }

  ghost predicate MayReorder(s: State, b: Block) {
    FirstBlock(s.stages.reordQ, b) && b.pos == s.order
  }

  function Reorder(s: State, b: Block): State
    requires s.chain != []
  {
    s.(stages := s.stages.(reordQ := s.stages.reordQ - {b}), order := b.next, sink := s.sink + [b], chain := s.chain[1..],
       combinedCrc := CombineCrc(s.combinedCrc, BlockCrc(b.bytes)))
  }

  /** The sink completes a write and gives the slot back. */
  function Write(s: State): State
    requires s.sink != []
  {
    s.(sink := s.sink[1..], written := s.written + [s.sink[0]], outSlots := s.outSlots + 1)
  }

  datatype Step =
    | DoStartReading
    | DoDeliver(data: seq<byte>, short: bool)
    | DoSetEof
    | DoTakeCollect(i: Input)
    | DoCollect(i: Input, k: nat, n: nat)
    | DoTakeSeq(i: Input)
    | DoTakeFlush
    | DoCollectSeq(i: Input, w: Block, k: nat, n: nat, done: bool)
    | DoFlushSeq
    | DoFinishEncoding(b: Block)
    | DoTakeTransmit(b: Block)
    | DoFinishTransmit(b: Block)
    | DoReorder(b: Block)
    | DoWrite

  /** Collecting takes at least one byte into a new block, and the whole input unless the
      block is done. */
  ghost predicate Collects(s: State, i: Input, k: nat, n: nat, fresh': bool, done: bool) {
    && i in s.collecting && k < |s.chain| && s.chain[k] == In(i) && n <= |i.left|
    && (fresh' ==> n > 0) && (n < |i.left| ==> done)
  }

  ghost predicate InHand(s: State, i: Input, w: Block, k: nat) {
    if s.stages.growing == {} then w == NewBlock(i) else k > 0 && w in s.stages.growing
  }

  /** `s` goes over to `t` in one step. */
  ghost predicate Next(s: State, t: State, a: Step) {
    match a
    case DoStartReading => s.reader == Idle && s.inSlots > 0 && t == StartReading(s)
    case DoDeliver(data, short) => s.reader == Reading && (data == [] ==> short) && t == Deliver(s, data, short)
    case DoSetEof => s.reader == Ended && !s.eof && t == s.(eof := true)
    case DoTakeCollect(i) => CanCollect(s) && FirstInput(s.collQ, i) && t == TakeCollect(s, i)
    case DoCollect(i, k, n) => !s.sequential && Collects(s, i, k, n, true, true) && t == Collect(s, i, k, n)
    case DoTakeSeq(i) => CanCollectSeq(s) && FirstInput(s.collQ, i) && t == TakeSeq(s, {i})
    case DoTakeFlush => CanCollectSeq(s) && s.collQ == {} && t == TakeSeq(s, {})
    case DoCollectSeq(i, w, k, n, done) =>
      s.sequential && Collects(s, i, k, n, s.stages.growing == {}, done) && InHand(s, i, w, k) && t == CollectSeq(s, i, w, k, n, done)
    case DoFlushSeq => s.sequential && !s.token && s.collecting == {} && t == FlushSeq(s)
    case DoFinishEncoding(b) => b in s.stages.encoding && t == FinishEncoding(s, b)
    case DoTakeTransmit(b) => MayTransmit(s, b) && t == TakeTransmit(s, b)
    case DoFinishTransmit(b) => b in s.stages.transmitting && t == FinishTransmit(s, b)
    case DoReorder(b) => MayReorder(s, b) && s.chain != [] && t == Reorder(s, b)
    case DoWrite => s.sink != [] && t == Write(s)
  }

  ghost predicate CanTransmit(s: State) {
    exists b :: MayTransmit(s, b)
  }

  ghost predicate CanReorder(s: State) {
    exists b :: MayReorder(s, b)
  }

  ghost predicate CanTerminate(s: State) {
    s.eof && s.collQ == {} && s.workUnits == s.workers && s.outSlots == TotalOut(s)
  }

  // ----- what every step keeps -----

  function CombineAll(blocks: seq<Block>): uint32 {
    if blocks == [] then 0
    else CombineCrc(CombineAll(blocks[..|blocks| - 1]), BlockCrc(blocks[|blocks| - 1].bytes))
  }

  /** The chain runs without gaps from the block to be written next to the end of the
      input read so far. */
  ghost predicate ChainOk(order: Position, chain: seq<Cell>, nextId: nat) {
    Linked(order, chain) && EndOf(order, chain) == Position(nextId, 0)
  }

  function Inputs(s: State): set<Input> { s.collQ + s.collecting }

  function Blocks(q: Stages): set<Block> { q.unfinished + q.growing + q.encoding + q.transQ + q.transmitting + q.reordQ }

  /** Blocks that hold a unit of work from being encoded on. */
  function UnitBlocks(q: Stages): set<Block> { q.encoding + q.transQ + q.transmitting }

  /** The blocks that hold an output slot, apart from the sink's. */
  function SlotBlocks(q: Stages): set<Block> { q.transmitting + q.reordQ }

  /** No block is in two stages. */
  ghost predicate Apart(q: Stages) {
    && q.unfinished !! q.growing && q.unfinished + q.growing !! q.encoding && q.unfinished + q.growing + q.encoding !! q.transQ
    && q.unfinished + q.growing + q.encoding + q.transQ !! q.transmitting
    && q.unfinished + q.growing + q.encoding + q.transQ + q.transmitting !! q.reordQ
  }

  function Count(q: Stages): nat { |q.encoding| + |q.transQ| + |q.transmitting| }

  /** Units of work held by those who collect, and by an unfinished block. */
  function Collectors(sequential: bool, token: bool, collecting: nat, unfinished: nat): nat {
    if sequential then (if token then 0 else 1) + unfinished else collecting
  }

  /** No slot and no unit of work is lost. */
  ghost predicate Accounts(s: State) {
    && s.inSlots + |s.collQ| + |s.collecting| + (if s.reader == Reading then 1 else 0) == TotalIn(s)
    && s.workUnits + Collectors(s.sequential, s.token, |s.collecting|, |s.stages.unfinished|) + Count(s.stages) == s.workers
    && s.outSlots + |s.stages.transmitting| + |s.stages.reordQ| + |s.sink| == TotalOut(s)
  }

  /** Blocks that hold a slot although others are to be written before them. */
  ghost function Beyond(order: Position, q: set<Block>): set<Block> {
    set b | b in q && b.pos != order
  }

  /** Two slots are never taken by such blocks. */
  ghost predicate Reserved(workers: nat, order: Position, slotHolders: set<Block>) {
    |Beyond(order, slotHolders)| <= 2 * workers
  }

  ghost predicate Ahead(waiting: set<Input>, collecting: set<Input>, blocks: set<Block>, p: Position) {
    && ((exists i :: i in collecting && i.pos == p) || exists b :: b in blocks && b.pos == p)
    && forall i :: i in waiting ==> Less(p, i.pos)
  }

  /** When units of work have run out, one of their holders precedes all input waiting. */
  ghost predicate UnitsAhead(busy: bool, waiting: set<Input>, collecting: set<Input>, blocks: set<Block>) {
    busy ==> exists p :: Ahead(waiting, collecting, blocks, p)
  }

  predicate Busy(s: State) { !s.sequential && s.workUnits == 0 && s.workers > 0 }

  /** What has left the queues is a gap-free chain up to the block to be written next;
      with the rest of the chain it is all that was read. */
  ghost predicate OutputOk(out: seq<Block>, order: Position, chain: seq<Cell>, consumed: seq<byte>, crc: uint32) {
    && Linked(Position(0, 0), Cells(out)) && EndOf(Position(0, 0), Cells(out)) == order
    && AllBytes(Cells(out)) + AllBytes(chain) == consumed
    && crc == CombineAll(out)
  }

  /** In sequential mode the first `m` links are blocks and the others input; the last block
      may be the one in hand, and the first input the one being collected. */
  ghost predicate Divided(chain: seq<Cell>, m: nat, hand: set<Block>, collecting: set<Input>) {
    && m <= |chain| && (forall k :: 0 <= k < m ==> chain[k].Work?) && (forall k :: m <= k < |chain| ==> chain[k].In?)
    && (forall w :: w in hand ==> m > 0 && chain[m - 1] == Work(w))
    && forall i :: i in collecting ==> m < |chain| && chain[m] == In(i)
  }

  ghost predicate ModeOk(s: State) {
    if s.sequential then
      && (if s.token then s.stages.growing == {} && s.collecting == {}
          else s.stages.unfinished == {} && (s.stages.growing != {} || s.collecting != {}))
      && exists m: nat :: Divided(s.chain, m, s.stages.unfinished + s.stages.growing, s.collecting)
    else s.token && s.stages.unfinished == {} && s.stages.growing == {}
  }

  ghost predicate Inv(s: State) {
    && ChainOk(s.order, s.chain, s.nextId) && HeldOk(s.chain, Inputs(s), Blocks(s.stages))
    && s.collQ !! s.collecting && Apart(s.stages)
    && Accounts(s) && Reserved(s.workers, s.order, SlotBlocks(s.stages))
    && UnitsAhead(Busy(s), s.collQ, s.collecting, UnitBlocks(s.stages))
    && OutputOk(s.written + s.sink, s.order, s.chain, s.consumed, s.combinedCrc)
    && ModeOk(s) && (s.eof ==> s.reader == Ended)
  }

  lemma InitialInv(workers: nat, sequential: bool)
    ensures Inv(Initial(workers, sequential))
  {
    var s := Initial(workers, sequential);
    assert Beyond(s.order, SlotBlocks(s.stages)) == {};
    assert Divided([], 0, {}, {});
  }

  // ----- steps that only move things between queues -----

  lemma SizeOfPart<T>(a: set<T>, b: set<T>)
    requires a <= b
    ensures |a| <= |b|
  {
    Permutation.SubsetSize(a, b);
  }

  lemma SizeWithout<T>(a: set<T>, x: T)
    requires x in a
    ensures |a - {x}| == |a| - 1
  {
  }

  lemma SizeWith<T>(a: set<T>, x: T)
    requires x !in a
    ensures |a + {x}| == |a| + 1
  {
  }

  lemma StartReadingInv(s: State)
    requires Inv(s) && s.reader == Idle && s.inSlots > 0
    ensures Inv(StartReading(s))
  {
    hide ChainOk, HeldOk, OutputOk, Reserved, UnitsAhead, Apart, ModeOk;
    SameMode(s, StartReading(s));
  }

  lemma SameMode(s: State, t: State)
    requires ModeOk(s) && t.sequential == s.sequential && t.token == s.token && t.chain == s.chain && t.collecting == s.collecting
    requires t.stages.unfinished == s.stages.unfinished && t.stages.growing == s.stages.growing
    ensures ModeOk(t)
  {
    hide Divided;
  }

  lemma SetEofInv(s: State)
    requires Inv(s) && s.reader == Ended
    ensures Inv(s.(eof := true))
  {
    hide ChainOk, HeldOk, OutputOk, Reserved, UnitsAhead, Apart, ModeOk;
    SameMode(s, s.(eof := true));
  }

  lemma WriteInv(s: State)
    requires Inv(s) && s.sink != []
    ensures Inv(Write(s))
  {
    hide ChainOk, HeldOk, OutputOk, Reserved, UnitsAhead, Apart, ModeOk;
    var t := Write(s);
    SameMode(s, t);
    assert t.written + t.sink == s.written + s.sink;
  }

  function Encoded(q: Stages, b: Block): Stages {
    q.(encoding := q.encoding - {b}, transQ := q.transQ + {b})
  }

  lemma EncodedApart(q: Stages, b: Block)
    requires Apart(q) && b in q.encoding
    ensures Apart(Encoded(q, b)) && b !in q.transQ
  {
  }

  lemma EncodedSets(q: Stages, b: Block)
    requires b in q.encoding
    ensures var r := Encoded(q, b); Blocks(r) == Blocks(q) && UnitBlocks(r) == UnitBlocks(q) && SlotBlocks(r) == SlotBlocks(q)
  {
  }

  lemma FinishEncodingStages(q: Stages, b: Block)
    requires Apart(q) && b in q.encoding
    ensures var r := Encoded(q, b);
      Apart(r) && Blocks(r) == Blocks(q) && UnitBlocks(r) == UnitBlocks(q) && SlotBlocks(r) == SlotBlocks(q) && Count(r) == Count(q)
  {
    EncodedApart(q, b);
    EncodedSets(q, b);
    hide Apart, Blocks, UnitBlocks, SlotBlocks;
    SizeWithout(q.encoding, b);
    SizeWith(q.transQ, b);
  }

  lemma FinishEncodingInv(s: State, b: Block)
    requires Inv(s) && b in s.stages.encoding
    ensures Inv(FinishEncoding(s, b))
  {
    hide ChainOk, HeldOk, OutputOk, Reserved, UnitsAhead, Apart, ModeOk, Count, Blocks, UnitBlocks, SlotBlocks;
    FinishEncodingStages(s.stages, b);
    SameMode(s, FinishEncoding(s, b));
  }

  function Sending(q: Stages, b: Block): Stages {
    q.(transQ := q.transQ - {b}, transmitting := q.transmitting + {b})
  }

  lemma SendingApart(q: Stages, b: Block)
    requires Apart(q) && b in q.transQ
    ensures Apart(Sending(q, b)) && b !in q.transmitting
  {
  }

  lemma SendingSets(q: Stages, b: Block)
    requires b in q.transQ
    ensures var r := Sending(q, b); Blocks(r) == Blocks(q) && UnitBlocks(r) == UnitBlocks(q) && SlotBlocks(r) == SlotBlocks(q) + {b}
  {
  }

  lemma SlotSize(q: Stages)
    requires Apart(q)
    ensures |SlotBlocks(q)| == |q.transmitting| + |q.reordQ|
  {
  }

  lemma TakeTransmitStages(q: Stages, b: Block)
    requires Apart(q) && b in q.transQ
    ensures var r := Sending(q, b);
      Apart(r) && Blocks(r) == Blocks(q) && UnitBlocks(r) == UnitBlocks(q) && SlotBlocks(r) == SlotBlocks(q) + {b} && Count(r) == Count(q)
      && |r.transmitting| == |q.transmitting| + 1 && |SlotBlocks(r)| == |r.transmitting| + |r.reordQ|
  {
    SendingApart(q, b);
    SendingSets(q, b);
    SlotSize(Sending(q, b));
    hide Apart, Blocks, UnitBlocks, SlotBlocks;
    SizeWithout(q.transQ, b);
    SizeWith(q.transmitting, b);
  }

  lemma TakeTransmitInv(s: State, b: Block)
    requires Inv(s) && MayTransmit(s, b)
    ensures Inv(TakeTransmit(s, b))
  {
    hide ChainOk, HeldOk, OutputOk, Reserved, UnitsAhead, Apart, ModeOk, Count, Blocks, UnitBlocks, SlotBlocks;
    TakeTransmitStages(s.stages, b);
    SameMode(s, TakeTransmit(s, b));
    TakeTransmitReserved(s.workers, s.order, SlotBlocks(s.stages), b, s.outSlots);
  }

  /** Only the block to be written next may take one of the last two slots. */
  lemma TakeTransmitReserved(workers: nat, order: Position, q: set<Block>, b: Block, outSlots: nat)
    requires Reserved(workers, order, q) && (outSlots > TRANSM_THRESH || b.pos == order)
    requires |q + {b}| + outSlots - 1 <= 2 * workers + TRANSM_THRESH
    ensures Reserved(workers, order, q + {b})
  {
    if b.pos == order {
      assert Beyond(order, q + {b}) == Beyond(order, q);
    } else {
      SizeOfPart(Beyond(order, q + {b}), q + {b});
    }
  }

  function Sent(q: Stages, b: Block): Stages {
    q.(transmitting := q.transmitting - {b}, reordQ := q.reordQ + {b})
  }

  lemma SentApart(q: Stages, b: Block)
    requires Apart(q) && b in q.transmitting
    ensures Apart(Sent(q, b)) && b !in q.reordQ
  {
  }

  lemma SentSets(q: Stages, b: Block)
    requires b in q.transmitting
    ensures Blocks(Sent(q, b)) == Blocks(q) && SlotBlocks(Sent(q, b)) == SlotBlocks(q)
  {
  }

  lemma FinishTransmitStages(q: Stages, b: Block)
    requires Apart(q) && b in q.transmitting
    ensures var r := Sent(q, b);
      Apart(r) && Blocks(r) == Blocks(q) && SlotBlocks(r) == SlotBlocks(q) && Count(r) == Count(q) - 1
      && |r.transmitting| == |q.transmitting| - 1 && |r.reordQ| == |q.reordQ| + 1
  {
    SentApart(q, b);
    SentSets(q, b);
    hide Apart, Blocks, SlotBlocks;
    SizeWithout(q.transmitting, b);
    SizeWith(q.reordQ, b);
  }

  lemma FinishTransmitInv(s: State, b: Block)
    requires Inv(s) && b in s.stages.transmitting
    ensures Inv(FinishTransmit(s, b))
  {
    hide ChainOk, HeldOk, OutputOk, Reserved, Apart, ModeOk, Count, Blocks, UnitBlocks, SlotBlocks;
    FinishTransmitStages(s.stages, b);
    SameMode(s, FinishTransmit(s, b));
  }

  // ----- input -----

  /** Anything held lies before the end of the input read. */
  lemma BeforeEnd(order: Position, chain: seq<Cell>, nextId: nat, inputs: set<Input>, blocks: set<Block>, c: Cell)
    requires ChainOk(order, chain, nextId) && HeldOk(chain, inputs, blocks) && Held(c, inputs, blocks)
    ensures Less(CellPos(c), Position(nextId, 0))
  {
    hide Linked;
    var k := HeldAt(chain, inputs, blocks, c);
    var n := |chain| - 1;
    LinkedAt(order, chain, n);
    if k < n {
      Ascends(order, chain, k, n);
      LessTransitive(CellPos(chain[k]), CellPos(chain[n]), Position(nextId, 0));
    }
  }

  lemma HeldMore(chain: seq<Cell>, inputs: set<Input>, blocks: set<Block>, i: Input)
    requires HeldOk(chain, inputs, blocks)
    ensures HeldOk(chain + [In(i)], inputs + {i}, blocks)
  {
    var c := chain + [In(i)];
    forall x {:trigger x in c} ensures x in c <==> Held(x, inputs + {i}, blocks) {
      assert x in chain <==> Held(x, inputs, blocks);
    }
  }

  lemma OutputMore(out: seq<Block>, order: Position, chain: seq<Cell>, chain': seq<Cell>, consumed: seq<byte>, crc: uint32, data: seq<byte>)
    requires OutputOk(out, order, chain, consumed, crc) && AllBytes(chain') == AllBytes(chain) + data
    ensures OutputOk(out, order, chain', consumed + data, crc)
  {
    hide Linked, AllBytes;
    Regrouped(AllBytes(Cells(out)), AllBytes(chain), data);
  }

  lemma DeliverNothing(s: State)
    requires Inv(s) && s.reader == Reading
    ensures Inv(Deliver(s, [], true))
  {
    hide ChainOk, HeldOk, OutputOk, Reserved, UnitsAhead, Apart, ModeOk;
    SameMode(s, Deliver(s, [], true));
  }

  lemma DeliverInv(s: State, data: seq<byte>, short: bool)
    requires Inv(s) && s.reader == Reading && data != []
    ensures Inv(Deliver(s, data, short))
  {
    hide ChainOk, HeldOk, Reserved, UnitsAhead, OutputOk, AllBytes, Apart, ModeOk, Linked, Count, Blocks, UnitBlocks, SlotBlocks;
    var i := Input(Position(s.nextId, 0), data);
    var t := Deliver(s, data, short);
    DeliverNew(s, i);
    ChainMore(s.order, s.chain, s.nextId, i);
    OutputMore(s.written + s.sink, s.order, s.chain, t.chain, s.consumed, s.combinedCrc, data);
    DeliverAhead(s, i);
    HeldMore(s.chain, Inputs(s), Blocks(s.stages), i);
    DeliverMode(s, t, i);
  }

  lemma DeliverNew(s: State, i: Input)
    requires Inv(s) && i.pos == Position(s.nextId, 0)
    ensures |s.collQ + {i}| == |s.collQ| + 1 && s.collQ + {i} !! s.collecting && s.collQ + {i} + s.collecting == Inputs(s) + {i}
  {
    hide ChainOk, HeldOk, Reserved, UnitsAhead, OutputOk, Apart, ModeOk, Blocks, UnitBlocks, SlotBlocks, Accounts;
    if i in Inputs(s) { BeforeEnd(s.order, s.chain, s.nextId, Inputs(s), Blocks(s.stages), In(i)); }
    SizeWith(s.collQ, i);
  }

  lemma ChainMore(order: Position, chain: seq<Cell>, nextId: nat, i: Input)
    requires ChainOk(order, chain, nextId) && i.pos == Position(nextId, 0)
    ensures ChainOk(order, chain + [In(i)], nextId + 1) && AllBytes(chain + [In(i)]) == AllBytes(chain) + i.left
  {
    hide Linked, AllBytes;
    MoreLinked(order, chain, In(i));
  }

  lemma DeliverMode(s: State, t: State, i: Input)
    requires ModeOk(s) && t.sequential == s.sequential && t.token == s.token && t.chain == s.chain + [In(i)] && t.collecting == s.collecting
    requires t.stages == s.stages
    ensures ModeOk(t)
  {
    if s.sequential {
      var hand := s.stages.unfinished + s.stages.growing;
      var m: nat :| Divided(s.chain, m, hand, s.collecting);
      assert Divided(t.chain, m, hand, s.collecting);
    }
  }

  lemma DeliverAhead(s: State, i: Input)
    requires Inv(s) && i.pos == Position(s.nextId, 0)
    ensures UnitsAhead(Busy(s), s.collQ + {i}, s.collecting, UnitBlocks(s.stages))
  {
    hide ChainOk, HeldOk, Reserved, OutputOk, Accounts, ModeOk, Apart;
    if Busy(s) {
      var p :| Ahead(s.collQ, s.collecting, UnitBlocks(s.stages), p);
      if x :| x in s.collecting && x.pos == p {
        BeforeEnd(s.order, s.chain, s.nextId, Inputs(s), Blocks(s.stages), In(x));
      } else {
        var b :| b in UnitBlocks(s.stages) && b.pos == p;
        BeforeEnd(s.order, s.chain, s.nextId, Inputs(s), Blocks(s.stages), Work(b));
      }
      assert Ahead(s.collQ + {i}, s.collecting, UnitBlocks(s.stages), p);
    }
  }

  // ----- taking input -----

  lemma FirstInputAhead(s: State, i: Input, j: Input)
    requires Inv(s) && FirstInput(s.collQ, i) && j in s.collQ && j != i
    ensures Less(i.pos, j.pos)
  {
    hide OutputOk, Reserved, UnitsAhead, Accounts, Linked, ModeOk, Apart;
    var k := HeldAt(s.chain, Inputs(s), Blocks(s.stages), In(i));
    var l := HeldAt(s.chain, Inputs(s), Blocks(s.stages), In(j));
    if i.pos == j.pos { SameCell(s.order, s.chain, k, l); }
  }

  /** Some of the input waiting is taken up. */
  lemma TakenUp(waiting: set<Input>, collecting: set<Input>, inputs: set<Input>)
    requires waiting !! collecting && inputs <= waiting
    ensures waiting - inputs !! collecting + inputs && waiting - inputs + (collecting + inputs) == waiting + collecting
    ensures |waiting - inputs| + |collecting + inputs| == |waiting| + |collecting| && |collecting + inputs| == |collecting| + |inputs|
  {
    assert waiting == (waiting - inputs) + inputs;
  }

  lemma FirstIn(q: set<Input>, i: Input)
    requires FirstInput(q, i)
    ensures i in q && {i} <= q
  {
  }

  lemma TakeCollectInv(s: State, i: Input)
    requires Inv(s) && CanCollect(s) && FirstInput(s.collQ, i)
    ensures Inv(TakeCollect(s, i))
  {
    hide ChainOk, HeldOk, OutputOk, Reserved, UnitsAhead, Apart, Count, Blocks, UnitBlocks, SlotBlocks, FirstInput;
    TakeCollectAhead(s, i);
    FirstIn(s.collQ, i);
    TakenUp(s.collQ, s.collecting, {i});
  }

  lemma TakeCollectAhead(s: State, i: Input)
    requires Inv(s) && CanCollect(s) && FirstInput(s.collQ, i)
    ensures var t := TakeCollect(s, i); UnitsAhead(Busy(t), t.collQ, t.collecting, UnitBlocks(t.stages))
  {
    hide Inv, FirstInput;
    var t := TakeCollect(s, i);
    forall j | j in t.collQ ensures Less(i.pos, j.pos) { FirstInputAhead(s, i, j); }
    assert i in t.collecting;
    assert Ahead(t.collQ, t.collecting, UnitBlocks(t.stages), i.pos);
  }

  /** In sequential mode the first input is the first link after the blocks. */
  lemma FirstInputAt(s: State, i: Input, m: nat)
    requires Inv(s) && FirstInput(s.collQ, i) && s.collecting == {} && Divided(s.chain, m, s.stages.unfinished + s.stages.growing, {})
    ensures m < |s.chain| && s.chain[m] == In(i)
  {
    hide OutputOk, Reserved, UnitsAhead, Accounts, Linked, ModeOk, Apart;
    var k := HeldAt(s.chain, Inputs(s), Blocks(s.stages), In(i));
    var x := s.chain[m].input;
    assert s.chain[m] in s.chain;
    assert x in s.collQ;
    if m < k { Ascends(s.order, s.chain, m, k); }
  }

  lemma TakeSeqStages(q: Stages)
    requires Apart(q) && q.growing == {}
    ensures var r := q.(unfinished := {}, growing := q.unfinished);
      Apart(r) && Blocks(r) == Blocks(q) && UnitBlocks(r) == UnitBlocks(q) && SlotBlocks(r) == SlotBlocks(q) && Count(r) == Count(q)
  {
  }

  /** There is at most one unfinished block. */
  lemma OneInHand(chain: seq<Cell>, m: nat, hand: set<Block>, collecting: set<Input>)
    requires Divided(chain, m, hand, collecting)
    ensures |hand| <= 1 && |collecting| <= 1
  {
    if hand != {} {
      var w :| w in hand;
      assert hand == {w};
    }
    if collecting != {} {
      var i :| i in collecting;
      assert collecting == {i};
    }
  }

  lemma TakeSeqInv(s: State, inputs: set<Input>)
    requires Inv(s) && CanCollectSeq(s) && (inputs == {} ==> s.collQ == {}) && (forall i :: i in inputs ==> FirstInput(s.collQ, i) && inputs == {i})
    ensures Inv(TakeSeq(s, inputs))
  {
    hide ChainOk, HeldOk, OutputOk, Reserved, UnitsAhead, Apart, Blocks, UnitBlocks, SlotBlocks, Divided, FirstInput, Accounts, Inputs;
    var t := TakeSeq(s, inputs);
    var hand := s.stages.unfinished + s.stages.growing;
    var m: nat :| Divided(s.chain, m, hand, {});
    assert hand == s.stages.unfinished;
    forall i | i in inputs ensures i in s.collQ { FirstIn(s.collQ, i); }
    TakeSeqStages(s.stages);
    OneInHand(s.chain, m, hand, {});
    TakeSeqAccounts(s, inputs);
    TakeSeqMode(s, inputs, m);
    NotBusy(t);
  }

  lemma TakeSeqAccounts(s: State, inputs: set<Input>)
    requires Accounts(s) && s.collecting == {} && inputs <= s.collQ && s.sequential && s.token && |s.stages.unfinished| <= 1
    requires s.workUnits > 0 || s.stages.unfinished != {}
    ensures var t := TakeSeq(s, inputs); Accounts(t) && t.collQ !! t.collecting && Inputs(t) == Inputs(s)
  {
    TakenUp(s.collQ, {}, inputs);
    assert {} + inputs == inputs;
    if s.stages.unfinished != {} { NotEmpty(s.stages.unfinished); }
  }

  lemma NotEmpty<T>(a: set<T>)
    requires a != {}
    ensures |a| > 0
  {
    assert |a| == 0 ==> a == {};
  }

  lemma NotBusy(t: State)
    requires t.sequential
    ensures UnitsAhead(Busy(t), t.collQ, t.collecting, UnitBlocks(t.stages))
  {
  }

  lemma TakeSeqMode(s: State, inputs: set<Input>, m: nat)
    requires Inv(s) && CanCollectSeq(s) && (inputs == {} ==> s.collQ == {}) && (forall i :: i in inputs ==> FirstInput(s.collQ, i) && inputs == {i})
    requires Divided(s.chain, m, s.stages.unfinished + s.stages.growing, {})
    ensures ModeOk(TakeSeq(s, inputs))
  {
    hide ChainOk, HeldOk, OutputOk, Reserved, UnitsAhead, Apart, Accounts;
    var t := TakeSeq(s, inputs);
    forall i | i in inputs ensures m < |s.chain| && s.chain[m] == In(i) { FirstInputAt(s, i, m); }
    assert Divided(t.chain, m, t.stages.unfinished + t.stages.growing, t.collecting);
  }

  // ----- collecting -----

  /** The new block, and the input left, cover what the input and the block in hand did. */
  lemma GrownCovers(w: Block, i: Input, n: nat)
    requires n <= |i.left| && w.next == i.pos && (w.pos == w.next || Less(w.pos, w.next))
    ensures var cells := [Work(Grown(w, i, n))] + LeftCells(i, n);
      && Linked(w.pos, cells) && EndOf(w.pos, cells) == NextMajor(i.pos) && AllBytes(cells) == w.bytes + i.left
  {
    hide Linked, AllBytes;
    var b := Grown(w, i, n);
    if n < |i.left| {
      var rest := Input(NextMinor(i.pos), i.left[n..]);
      assert [Work(b)] + [In(rest)] == [Work(b), In(rest)];
      TwoLinked(w.pos, Work(b), In(rest));
      assert i.left == i.left[..n] + i.left[n..];
      Regrouped(w.bytes, i.left[..n], i.left[n..]);
    } else {
      assert [Work(b)] + [] == [Work(b)] && i.left[..n] == i.left;
      OneLinked(w.pos, Work(b));
    }
  }

  /** What the cells from `a` to `k` held, and who holds the new ones. */
  lemma GrownHeld(chain: seq<Cell>, a: nat, k: nat, inputs: set<Input>, blocks: set<Block>, hand: set<Block>, i: Input, w: Block, n: nat)
    requires a <= k < |chain| && chain[k] == In(i) && n <= |i.left|
    requires if a == k then hand == {} else a == k - 1 && hand == {w} && chain[a] == Work(w)
    ensures var cells := [Work(Grown(w, i, n))] + LeftCells(i, n);
      forall c {:trigger Held(c, inputs - {i} + Left(i, n), blocks - hand + {Grown(w, i, n)})} ::
        Held(c, inputs - {i} + Left(i, n), blocks - hand + {Grown(w, i, n)}) <==> c in cells || (Held(c, inputs, blocks) && c !in chain[a..k + 1])
  {
    hide Grown;
    if a == k { assert chain[a..k + 1] == [In(i)]; } else { assert chain[a..k + 1] == [Work(w), In(i)]; }
  }

  /** Neither the new block nor the input that is left was there before. */
  lemma GrownNew(s: State, a: nat, k: nat, i: Input, w: Block, n: nat)
    requires ChainOk(s.order, s.chain, s.nextId) && HeldOk(s.chain, Inputs(s), Blocks(s.stages)) && a <= k < |s.chain|
    requires s.chain[k] == In(i) && n <= |i.left|
    requires if a == k then w == NewBlock(i) else a == k - 1 && s.chain[a] == Work(w)
    ensures w.next == i.pos && (w.pos == w.next || Less(w.pos, w.next)) && CellPos(s.chain[a]) == w.pos == Grown(w, i, n).pos
    ensures Grown(w, i, n) !in Blocks(s.stages) && Left(i, n) !! Inputs(s)
  {
    hide Linked, Inputs, Blocks, HeldOk;
    LinkedAt(s.order, s.chain, k);
    LinkedAt(s.order, s.chain, a);
    var b := Grown(w, i, n);
    if b in Blocks(s.stages) {
      NoOther(s.order, s.chain, Inputs(s), Blocks(s.stages), a, Work(b));
    }
    forall x | x in Left(i, n) ensures x !in Inputs(s) {
      if x in Inputs(s) { NoOther(s.order, s.chain, Inputs(s), Blocks(s.stages), k, In(x)); }
    }
  }

  /** The chain after collecting. */
  lemma GrownChain(s: State, a: nat, k: nat, i: Input, w: Block, n: nat, hand: set<Block>)
    requires ChainOk(s.order, s.chain, s.nextId) && HeldOk(s.chain, Inputs(s), Blocks(s.stages)) && a <= k < |s.chain|
    requires s.chain[k] == In(i) && n <= |i.left|
    requires if a == k then w == NewBlock(i) && hand == {} else a == k - 1 && s.chain[a] == Work(w) && hand == {w}
    ensures var chain := Splice(s.chain, a, k + 1, [Work(Grown(w, i, n))] + LeftCells(i, n));
      && ChainOk(s.order, chain, s.nextId) && AllBytes(chain) == AllBytes(s.chain)
      && HeldOk(chain, Inputs(s) - {i} + Left(i, n), Blocks(s.stages) - hand + {Grown(w, i, n)})
  {
    hide Linked, AllBytes, Inputs, Blocks, HeldOk, Grown, LeftCells, Left, Splice;
    GrownNew(s, a, k, i, w, n);
    GrownCovers(w, i, n);
    var cells := [Work(Grown(w, i, n))] + LeftCells(i, n);
    SegmentBytes(s.chain, a, k, i, w);
    SpliceLinked(s.order, s.chain, a, k + 1, cells);
    SpliceBytes(s.chain, a, k + 1, cells);
    GrownHeld(s.chain, a, k, Inputs(s), Blocks(s.stages), hand, i, w, n);
    SpliceHeld(s.order, s.chain, Inputs(s), Blocks(s.stages), a, k + 1, cells, Inputs(s) - {i} + Left(i, n), Blocks(s.stages) - hand + {Grown(w, i, n)});
  }

  lemma SegmentBytes(chain: seq<Cell>, a: nat, k: nat, i: Input, w: Block)
    requires a <= k < |chain| && chain[k] == In(i)
    requires if a == k then w == NewBlock(i) else a == k - 1 && chain[a] == Work(w)
    ensures AllBytes(chain[a..k + 1]) == w.bytes + i.left
  {
    hide AllBytes;
    if a == k {
      assert chain[a..k + 1] == [In(i)];
      OneLinked(i.pos, In(i));
      NothingBefore(i.left);
    } else {
      assert chain[a..k + 1] == [Work(w), In(i)];
      TwoLinked(w.pos, Work(w), In(i));
    }
  }

  lemma OutputSame(out: seq<Block>, order: Position, chain: seq<Cell>, chain': seq<Cell>, consumed: seq<byte>, crc: uint32)
    requires OutputOk(out, order, chain, consumed, crc) && AllBytes(chain') == AllBytes(chain)
    ensures OutputOk(out, order, chain', consumed, crc)
  {
    hide Linked, AllBytes;
  }

  lemma LeftSize(i: Input, n: nat)
    requires n <= |i.left|
    ensures |Left(i, n)| == if n < |i.left| then 1 else 0
  {
  }

  /** Input taken up is used up, or some of it put back. */
  lemma PutBack(waiting: set<Input>, collecting: set<Input>, i: Input, rest: set<Input>)
    requires waiting !! collecting && i in collecting && rest !! waiting + collecting
    ensures waiting + rest !! collecting - {i} && waiting + rest + (collecting - {i}) == waiting + collecting - {i} + rest
    ensures |waiting + rest| == |waiting| + |rest| && |collecting - {i}| == |collecting| - 1
  {
  }

  function Entered(q: Stages, b: Block): Stages {
    q.(encoding := q.encoding + {b})
  }

  lemma EnteredApart(q: Stages, b: Block)
    requires Apart(q) && b !in Blocks(q)
    ensures Apart(Entered(q, b))
  {
  }

  lemma EnteredSets(q: Stages, b: Block)
    ensures var r := Entered(q, b); Blocks(r) == Blocks(q) + {b} && UnitBlocks(r) == UnitBlocks(q) + {b} && SlotBlocks(r) == SlotBlocks(q)
  {
  }

  lemma EnteredCount(q: Stages, b: Block)
    requires b !in Blocks(q)
    ensures Count(Entered(q, b)) == Count(q) + 1
  {
    SizeWith(q.encoding, b);
  }

  /** Slots and units when collecting ends. */
  lemma TakenAccounts(s: State, i: Input, n: nat, q: Stages, chain: seq<Cell>)
    requires Accounts(s) && n <= |i.left| && i in s.collecting && s.collQ !! s.collecting && Left(i, n) !! Inputs(s)
    requires q.transmitting == s.stages.transmitting && q.reordQ == s.stages.reordQ
    requires Collectors(s.sequential, true, |s.collecting| - 1, |q.unfinished|) + Count(q)
             == Collectors(s.sequential, s.token, |s.collecting|, |s.stages.unfinished|) + Count(s.stages)
    ensures var t := Taken(s, i, n, q, chain); Accounts(t) && t.collQ !! t.collecting && Inputs(t) == Inputs(s) - {i} + Left(i, n)
  {
    hide Count, Left;
    PutBack(s.collQ, s.collecting, i, Left(i, n));
    LeftSize(i, n);
  }

  lemma CollectInv(s: State, i: Input, k: nat, n: nat)
    requires Inv(s) && !s.sequential && Collects(s, i, k, n, true, true)
    ensures Inv(Collect(s, i, k, n))
  {
    hide OutputOk, Reserved, UnitsAhead, HeldOk, ChainOk, AllBytes, Left, LeftCells, Grown, Apart, Count, Blocks, UnitBlocks, SlotBlocks, Linked, Splice, Accounts,
         Inputs, Taken;
    var b := Grown(NewBlock(i), i, n);
    var chain := Splice(s.chain, k, k + 1, [Work(b)] + LeftCells(i, n));
    GrownNew(s, k, k, i, NewBlock(i), n);
    GrownChain(s, k, k, i, NewBlock(i), n, {});
    assert Blocks(s.stages) - {} == Blocks(s.stages);
    EnteredApart(s.stages, b);
    EnteredSets(s.stages, b);
    EnteredCount(s.stages, b);
    TakenAccounts(s, i, n, Entered(s.stages, b), chain);
    CollectAhead(s, i, n, b);
    OutputSame(s.written + s.sink, s.order, s.chain, chain, s.consumed, s.combinedCrc);
    TakenIs(s, i, n, Entered(s.stages, b), chain);
  }

  lemma TakenIs(s: State, i: Input, n: nat, q: Stages, chain: seq<Cell>)
    requires n <= |i.left|
    ensures var t := Taken(s, i, n, q, chain);
      && t == s.(collecting := s.collecting - {i}, collQ := s.collQ + Left(i, n), inSlots := t.inSlots, token := true, stages := q, chain := chain)
  {
    hide Left;
  }

  lemma CollectAhead(s: State, i: Input, n: nat, b: Block)
    requires UnitsAhead(Busy(s), s.collQ, s.collecting, UnitBlocks(s.stages)) && i in s.collecting && n <= |i.left| && b.pos == i.pos
    ensures UnitsAhead(Busy(s), s.collQ + Left(i, n), s.collecting - {i}, UnitBlocks(s.stages) + {b})
  {
    hide UnitBlocks;
    if Busy(s) {
      var p :| Ahead(s.collQ, s.collecting, UnitBlocks(s.stages), p);
      var waiting, collecting, blocks := s.collQ + Left(i, n), s.collecting - {i}, UnitBlocks(s.stages) + {b};
      assert b in blocks;
      if p == i.pos || Less(i.pos, p) {
        assert Ahead(waiting, collecting, blocks, b.pos);
      } else {
        if x :| x in s.collecting && x.pos == p {
          assert x in collecting;
        } else {
          var c :| c in UnitBlocks(s.stages) && c.pos == p;
          assert c in blocks;
        }
        assert Ahead(waiting, collecting, blocks, p);
      }
    }
  }

  // ----- collecting in sequence -----

  /** The block in hand becomes another, to be encoded or to wait. */
  function Handed(q: Stages, b: Block, done: bool): Stages {
    var p := q.(growing := {});
    if done then Entered(p, b) else p.(unfinished := {b})
  }

  lemma HandedApart(q: Stages, b: Block, done: bool)
    requires Apart(q) && b !in Blocks(q) && q.unfinished == {}
    ensures Apart(Handed(q, b, done))
  {
  }

  lemma HandedSets(q: Stages, b: Block, done: bool)
    requires Apart(q) && q.unfinished == {}
    ensures var r := Handed(q, b, done); Blocks(r) == Blocks(q) - q.growing + {b} && SlotBlocks(r) == SlotBlocks(q)
  {
    if done { EnteredSets(q.(growing := {}), b); }
  }

  lemma HandedCount(q: Stages, b: Block, done: bool)
    requires b !in Blocks(q) && q.unfinished == {}
    ensures var r := Handed(q, b, done); |r.unfinished| + Count(r) == Count(q) + 1
  {
    if done { EnteredCount(q.(growing := {}), b); }
  }

  /** The input being collected, and the block in hand, are where blocks meet input. */
  lemma HandPlace(s: State, i: Input, w: Block, k: nat) returns (m: nat)
    requires Inv(s) && s.sequential && i in s.collecting && k < |s.chain| && s.chain[k] == In(i) && InHand(s, i, w, k)
    ensures m == k && Divided(s.chain, k, s.stages.growing, s.collecting) && s.collecting == {i} && !s.token && s.stages.unfinished == {}
    ensures s.stages.growing != {} ==> s.stages.growing == {w} && s.chain[k - 1] == Work(w)
  {
    hide OutputOk, Reserved, UnitsAhead, HeldOk, Apart, Accounts, Linked;
    m :| Divided(s.chain, m, s.stages.unfinished + s.stages.growing, s.collecting);
    assert s.stages.unfinished + s.stages.growing == s.stages.growing;
    SameCell(s.order, s.chain, m, k);
    OneInHand(s.chain, m, s.stages.growing, s.collecting);
    if s.stages.growing != {} { OnlyOne(s.stages.growing, w); }
    OnlyOne(s.collecting, i);
  }

  lemma OnlyOne<T>(a: set<T>, x: T)
    requires x in a && |a| <= 1
    ensures a == {x}
  {
    assert |a - {x}| == 0;
  }

  lemma CollectSeqInv(s: State, i: Input, w: Block, k: nat, n: nat, done: bool)
    requires Inv(s) && s.sequential && Collects(s, i, k, n, s.stages.growing == {}, done) && InHand(s, i, w, k)
    ensures Inv(CollectSeq(s, i, w, k, n, done))
  {
    hide OutputOk, Reserved, UnitsAhead, HeldOk, ChainOk, AllBytes, Left, LeftCells, Grown, Apart, Count, Blocks, UnitBlocks, SlotBlocks, Linked, Splice,
         Divided, ModeOk, Accounts, Inputs, Taken, Handed;
    var b := Grown(w, i, n);
    var t := CollectSeq(s, i, w, k, n, done);
    var a := if s.stages.growing == {} then k else k - 1;
    var q := Handed(s.stages, b, done);
    var m := HandPlace(s, i, w, k);
    GrownNew(s, a, k, i, w, n);
    GrownChain(s, a, k, i, w, n, s.stages.growing);
    HandedApart(s.stages, b, done);
    HandedSets(s.stages, b, done);
    HandedCount(s.stages, b, done);
    HandedSlots(s.stages, b, done);
    TakenAccounts(s, i, n, q, t.chain) by { TakenIs(s, i, n, q, Splice(s.chain, a, k + 1, [Work(b)] + LeftCells(i, n))); }
    TakenIs(s, i, n, q, Splice(s.chain, a, k + 1, [Work(b)] + LeftCells(i, n)));
    OutputSame(s.written + s.sink, s.order, s.chain, t.chain, s.consumed, s.combinedCrc);
    NotBusy(t);
    CollectSeqMode(s, i, w, k, n, done);
  }

  lemma HandedSlots(q: Stages, b: Block, done: bool)
    ensures var r := Handed(q, b, done); r.transmitting == q.transmitting && r.reordQ == q.reordQ
  {
  }

  lemma CollectSeqMode(s: State, i: Input, w: Block, k: nat, n: nat, done: bool)
    requires s.sequential && n <= |i.left| && k < |s.chain| && s.chain[k] == In(i) && (s.stages.growing != {} ==> k > 0)
    requires Divided(s.chain, k, s.stages.growing, s.collecting) && s.collecting == {i} && s.stages.unfinished == {}
    requires n < |i.left| ==> done
    ensures ModeOk(CollectSeq(s, i, w, k, n, done))
  {
    hide Grown;
    var t := CollectSeq(s, i, w, k, n, done);
    var a := if s.stages.growing == {} then k else k - 1;
    var b := Grown(w, i, n);
    assert t.chain[a] == Work(b);
    assert Divided(t.chain, a + 1, t.stages.unfinished + t.stages.growing, t.collecting);
  }

  lemma FlushStages(q: Stages)
    requires Apart(q) && q.unfinished == {}
    ensures var r := q.(growing := {}, encoding := q.encoding + q.growing);
      Apart(r) && Blocks(r) == Blocks(q) && SlotBlocks(r) == SlotBlocks(q) && Count(r) == Count(q) + |q.growing|
  {
  }

  lemma FlushSeqInv(s: State)
    requires Inv(s) && s.sequential && !s.token && s.collecting == {}
    ensures Inv(FlushSeq(s))
  {
    hide ChainOk, HeldOk, OutputOk, Reserved, UnitsAhead, Apart, Count, Blocks, UnitBlocks, SlotBlocks, Divided;
    var t := FlushSeq(s);
    var m: nat :| Divided(s.chain, m, s.stages.unfinished + s.stages.growing, s.collecting);
    assert s.stages.unfinished + s.stages.growing == s.stages.growing;
    OneInHand(s.chain, m, s.stages.growing, {});
    FlushStages(s.stages);
    NotBusy(t);
    HandEmpty(s.chain, m, s.stages.growing, {});
    assert t.stages.unfinished + t.stages.growing == {};
    assert |s.stages.growing| == 1;
  }

  lemma HandEmpty(chain: seq<Cell>, m: nat, hand: set<Block>, collecting: set<Input>)
    requires Divided(chain, m, hand, collecting)
    ensures Divided(chain, m, {}, {})
  {
  }

  // ----- output -----

  /** The block to be written next is the first link of the chain. */
  lemma FrontIsNext(s: State, b: Block)
    requires Inv(s) && b in Blocks(s.stages) && b.pos == s.order
    ensures s.chain != [] && s.chain[0] == Work(b)
  {
    hide OutputOk, Reserved, UnitsAhead, Accounts, Apart, ModeOk, Linked, Blocks, Inputs;
    var k := HeldAt(s.chain, Inputs(s), Blocks(s.stages), Work(b));
    LinkedAt(s.order, s.chain, 0);
    SameCell(s.order, s.chain, 0, k);
  }

  lemma HeldRest(order: Position, chain: seq<Cell>, inputs: set<Input>, blocks: set<Block>, b: Block)
    requires Linked(order, chain) && HeldOk(chain, inputs, blocks) && chain != [] && chain[0] == Work(b)
    ensures HeldOk(chain[1..], inputs, blocks - {b})
  {
    hide Linked;
    assert chain[0..1] == [Work(b)];
    assert Splice(chain, 0, 1, []) == chain[1..];
    SpliceHeld(order, chain, inputs, blocks, 0, 1, [], inputs, blocks - {b});
  }

  lemma OutputOne(out: seq<Block>, order: Position, chain: seq<Cell>, rest: seq<Cell>, consumed: seq<byte>, crc: uint32, b: Block)
    requires OutputOk(out, order, chain, consumed, crc) && b.pos == order && Less(order, b.next)
    requires AllBytes(chain) == b.bytes + AllBytes(rest)
    ensures OutputOk(out + [b], b.next, rest, consumed, CombineCrc(crc, BlockCrc(b.bytes)))
  {
    hide Linked, AllBytes, CombineCrc, BlockCrc;
    assert (out + [b])[..|out|] == out;
    MoreLinked(Position(0, 0), Cells(out), Work(b));
    Regrouped(AllBytes(Cells(out)), b.bytes, AllBytes(rest));
  }

  lemma WrittenStages(q: Stages, b: Block)
    requires Apart(q) && b in q.reordQ
    ensures var r := q.(reordQ := q.reordQ - {b});
      Apart(r) && Blocks(r) == Blocks(q) - {b} && SlotBlocks(r) == SlotBlocks(q) - {b} && UnitBlocks(r) == UnitBlocks(q) && |r.reordQ| == |q.reordQ| - 1
  {
    WrittenApart(q, b);
    SizeWithout(q.reordQ, b);
  }

  lemma WrittenApart(q: Stages, b: Block)
    requires Apart(q) && b in q.reordQ
    ensures Apart(q.(reordQ := q.reordQ - {b}))
    ensures b !in q.unfinished && b !in q.growing && b !in q.encoding && b !in q.transQ && b !in q.transmitting
  {
  }

  lemma FirstBlockIn(q: set<Block>, b: Block)
    requires FirstBlock(q, b)
    ensures b in q
  {
  }

  lemma ReorderInv(s: State, b: Block)
    requires Inv(s) && MayReorder(s, b)
    ensures s.chain != [] && Inv(Reorder(s, b))
  {
    hide OutputOk, UnitsAhead, HeldOk, ChainOk, AllBytes, FirstBlock, Reserved, CombineCrc, BlockCrc, Apart, Blocks, UnitBlocks, SlotBlocks, Linked, ModeOk;
    FirstBlockIn(s.stages.reordQ, b);
    InBlocks(s.stages, b);
    FrontIsNext(s, b);
    ReorderChain(s, b);
    WrittenStages(s.stages, b);
    ReorderReserved(s, b);
    ReorderMode(s, b);
    Regrouped(s.written, s.sink, [b]);
    OutputOne(s.written + s.sink, s.order, s.chain, s.chain[1..], s.consumed, s.combinedCrc, b);
  }

  lemma InBlocks(q: Stages, b: Block)
    requires b in q.reordQ || b in q.transmitting
    ensures b in Blocks(q) && b in SlotBlocks(q)
  {
  }

  lemma ReorderChain(s: State, b: Block)
    requires ChainOk(s.order, s.chain, s.nextId) && HeldOk(s.chain, Inputs(s), Blocks(s.stages)) && s.chain != [] && s.chain[0] == Work(b)
    ensures ChainOk(b.next, s.chain[1..], s.nextId) && HeldOk(s.chain[1..], Inputs(s), Blocks(s.stages) - {b})
    ensures b.pos == s.order && Less(s.order, b.next) && AllBytes(s.chain) == b.bytes + AllBytes(s.chain[1..])
  {
    hide Linked, AllBytes, HeldOk, Blocks, Inputs;
    RestLinked(s.order, s.chain);
    HeldRest(s.order, s.chain, Inputs(s), Blocks(s.stages), b);
  }

  /** Once the block to be written next is gone, no more blocks lie beyond the next. */
  lemma ReorderReserved(s: State, b: Block)
    requires Inv(s) && b in s.stages.reordQ && b.pos == s.order
    ensures Reserved(s.workers, b.next, SlotBlocks(s.stages) - {b})
  {
    hide OutputOk, UnitsAhead, HeldOk, ChainOk, Accounts, Apart, ModeOk, Linked, Blocks;
    var q, r := SlotBlocks(s.stages), SlotBlocks(s.stages) - {b};
    forall x | x in r ensures x.pos != s.order {
      if x.pos == s.order {
        InBlocks(s.stages, b);
        InBlocks(s.stages, x);
        FrontIsNext(s, b);
        FrontIsNext(s, x);
      }
    }
    SizeOfPart(Beyond(b.next, r), Beyond(s.order, q));
  }

  lemma ReorderMode(s: State, b: Block)
    requires Inv(s) && b in s.stages.reordQ && s.chain != [] && s.chain[0] == Work(b)
    ensures ModeOk(Reorder(s, b))
  {
    hide OutputOk, UnitsAhead, HeldOk, ChainOk, Accounts, Reserved, Linked, CombineCrc, BlockCrc;
    var t := Reorder(s, b);
    if s.sequential {
      var hand := s.stages.unfinished + s.stages.growing;
      var m: nat :| Divided(s.chain, m, hand, s.collecting);
      assert m > 0;
      assert b !in hand;
      DividedRest(s.chain, m, hand, s.collecting, b);
    }
  }

  lemma DividedRest(chain: seq<Cell>, m: nat, hand: set<Block>, collecting: set<Input>, b: Block)
    requires Divided(chain, m, hand, collecting) && m > 0 && chain[0] == Work(b) && b !in hand
    ensures Divided(chain[1..], m - 1, hand, collecting)
  {
  }

  // ----- every run -----

  /** Every step keeps the invariant. */
  lemma NextInv(s: State, t: State, a: Step)
    requires Inv(s) && Next(s, t, a)
    ensures Inv(t)
  {
    hide Inv;
    match a
    case DoStartReading => StartReadingInv(s);
    case DoDeliver(data, short) => if data == [] { DeliverNothing(s); } else { DeliverInv(s, data, short); }
    case DoSetEof => SetEofInv(s);
    case DoTakeCollect(i) => TakeCollectInv(s, i);
    case DoCollect(i, k, n) => CollectInv(s, i, k, n);
    case DoTakeSeq(i) => TakeSeqInv(s, {i});
    case DoTakeFlush => TakeSeqInv(s, {});
    case DoCollectSeq(i, w, k, n, done) => CollectSeqInv(s, i, w, k, n, done);
    case DoFlushSeq => FlushSeqInv(s);
    case DoFinishEncoding(b) => FinishEncodingInv(s, b);
    case DoTakeTransmit(b) => TakeTransmitInv(s, b);
    case DoFinishTransmit(b) => FinishTransmitInv(s, b);
    case DoReorder(b) => ReorderInv(s, b);
    case DoWrite => WriteInv(s);
  }

  ghost predicate Steps(s: State, t: State) {
    exists a :: Next(s, t, a)
  }

  /** A run of the compressor, in either mode. */
  ghost predicate Run(workers: nat, sequential: bool, run: seq<State>) {
    && run != [] && run[0] == Initial(workers, sequential)
    && forall k :: 0 < k < |run| ==> Steps(run[k - 1], run[k])
  }

  lemma {:induction false} RunInv(workers: nat, sequential: bool, run: seq<State>, k: nat)
    requires Run(workers, sequential, run) && k < |run|
    ensures Inv(run[k]) && run[k].workers == workers && run[k].sequential == sequential
    decreases k
  {
    hide Inv, Next, Initial;
    if k == 0 {
      InitialInv(workers, sequential);
      InitialSize(workers, sequential);
    } else {
      RunInv(workers, sequential, run, k - 1);
      assert Steps(run[k - 1], run[k]);
      var a :| Next(run[k - 1], run[k], a);
      NextInv(run[k - 1], run[k], a);
      NextSize(run[k - 1], run[k], a);
    }
  }

  lemma InitialSize(workers: nat, sequential: bool)
    ensures Initial(workers, sequential).workers == workers && Initial(workers, sequential).sequential == sequential
  {
  }

  lemma NextSize(s: State, t: State, a: Step)
    requires Next(s, t, a)
    ensures t.workers == s.workers && t.sequential == s.sequential
  {
    hide FirstInput, FirstBlock, CombineCrc, BlockCrc, Splice, Grown, Left, LeftCells, Encoded, Sending, Sent, Handed, Entered;
  }

  /** At any moment of any run, what has been handed to the sink is a prefix of the input,
      as a chain of blocks without gaps, and the checksum is that of these blocks in
      order. */
  lemma OutputInOrder(workers: nat, sequential: bool, run: seq<State>, k: nat)
    requires Run(workers, sequential, run) && k < |run|
    ensures var out := run[k].written + run[k].sink;
      && Linked(Position(0, 0), Cells(out)) && AllBytes(Cells(out)) <= run[k].consumed
      && run[k].combinedCrc == CombineAll(out)
  {
    RunInv(workers, sequential, run, k);
    hide ChainOk, HeldOk, Reserved, UnitsAhead, Accounts, Apart, Linked, ModeOk, Run;
  }

  /** The compressor ends only when all input has been written. */
  lemma TerminatesComplete(workers: nat, sequential: bool, run: seq<State>, k: nat)
    requires Run(workers, sequential, run) && k < |run| && CanTerminate(run[k])
    ensures run[k].sink == [] && run[k].chain == [] && AllBytes(Cells(run[k].written)) == run[k].consumed
    ensures run[k].combinedCrc == CombineAll(run[k].written) && run[k].reader == Ended
    ensures run[k].inSlots == TotalIn(run[k])
  {
    RunInv(workers, sequential, run, k);
    var s := run[k];
    NothingHeld(s);
    hide Inv, Run;
    NothingBefore(s.written);
    NothingBefore(AllBytes(Cells(s.written)));
    OutputIsOk(s);
  }

  lemma OutputIsOk(s: State)
    requires Inv(s)
    ensures OutputOk(s.written + s.sink, s.order, s.chain, s.consumed, s.combinedCrc)
  {
    hide OutputOk, ChainOk, HeldOk, Reserved, UnitsAhead, Accounts, Apart, ModeOk;
  }

  lemma NothingHeld(s: State)
    requires Inv(s) && CanTerminate(s)
    ensures s.sink == [] && s.chain == [] && s.reader == Ended && s.inSlots == TotalIn(s)
  {
    hide ChainOk, OutputOk, Reserved, UnitsAhead, Divided, Apart, Linked;
    assert s.stages.encoding == {} && s.stages.transQ == {} && s.stages.transmitting == {} && s.stages.reordQ == {};
    assert s.stages.unfinished == {} && s.stages.growing == {} && s.collecting == {};
    NothingLinked(s.chain, Inputs(s), Blocks(s.stages));
  }

  /** Nothing is held exactly when the chain is empty. */
  lemma NothingLinked(chain: seq<Cell>, inputs: set<Input>, blocks: set<Block>)
    requires HeldOk(chain, inputs, blocks)
    ensures chain == [] <==> inputs == {} && blocks == {}
  {
    if chain != [] { assert chain[0] in chain && Held(chain[0], inputs, blocks); }
    forall i | i in inputs ensures chain != [] { assert In(i) in chain; }
    forall b | b in blocks ensures chain != [] { assert Work(b) in chain; }
  }

  // ----- no deadlock -----

  /** Nobody is running: no task is between its steps, nothing is being written or read. */
  ghost predicate Quiet(s: State) {
    && s.collecting == {} && s.stages.growing == {} && s.stages.encoding == {} && s.stages.transmitting == {} && s.sink == []
    && s.reader != Reading
  }

  /** The queue that holds the block to be written next has it at its head. */
  lemma HeadIsNext(s: State, q: set<Block>, b: Block)
    requires Inv(s) && q <= Blocks(s.stages) && b in q && b.pos == s.order
    ensures FirstBlock(q, b)
  {
    hide OutputOk, Reserved, UnitsAhead, Accounts, Apart, ModeOk, Linked, Blocks, Inputs;
    forall c | c in q ensures LessEq(b.pos, c.pos) {
      var k := HeldAt(s.chain, Inputs(s), Blocks(s.stages), Work(c));
      if k > 0 { Ascends(s.order, s.chain, 0, k); }
      LinkedAt(s.order, s.chain, 0);
    }
  }

  /** Some worker may start a task, or the reader may go on. */
  ghost predicate CanGoOn(s: State) {
    CanCollect(s) || CanCollectSeq(s) || CanTransmit(s) || CanReorder(s) || (s.reader == Idle && s.inSlots > 0) || (s.reader == Ended && !s.eof)
  }

  /** The compressor never gets stuck, in either mode: when nobody is running, a task is
      ready, or the reader may read or has its end to report, or everything is done. */
  lemma NeverStuck(workers: nat, sequential: bool, run: seq<State>, k: nat)
    requires Run(workers, sequential, run) && k < |run| && workers > 0 && Quiet(run[k])
    ensures CanGoOn(run[k]) || CanTerminate(run[k])
  {
    RunInv(workers, sequential, run, k);
    hide Inv, Run;
    var s := run[k];
    if s.chain == [] {
      QuietAndEmpty(s);
    } else {
      QuietAndBusy(s);
    }
  }

  lemma QuietAndEmpty(s: State)
    requires Inv(s) && Quiet(s) && s.chain == [] && s.workers > 0
    ensures CanGoOn(s) || CanTerminate(s)
  {
    hide ChainOk, OutputOk, Reserved, UnitsAhead, Apart, Divided, CanCollect, CanCollectSeq, CanTransmit, CanReorder;
    NothingLinked(s.chain, Inputs(s), Blocks(s.stages));
    assert s.collQ <= Inputs(s) && s.stages.transQ <= Blocks(s.stages) && s.stages.reordQ <= Blocks(s.stages) && s.stages.unfinished <= Blocks(s.stages);
  }

  lemma QuietAndBusy(s: State)
    requires Inv(s) && Quiet(s) && s.chain != [] && s.workers > 0
    ensures CanGoOn(s)
  {
    hide OutputOk, UnitsAhead, Reserved, Linked, Accounts, Apart, ModeOk;
    LinkedAt(s.order, s.chain, 0);
    assert s.chain[0] in s.chain && Held(s.chain[0], Inputs(s), Blocks(s.stages));
    if s.chain[0].In? {
      if s.sequential { SequentialInput(s); } else { UnitsLeft(s, s.chain[0].input); }
    } else {
      var b := s.chain[0].block;
      if b in s.stages.reordQ {
        HeadIsNext(s, s.stages.reordQ, b);
        assert MayReorder(s, b);
      } else if b in s.stages.transQ {
        HeadIsNext(s, s.stages.transQ, b);
        SlotsLeft(s, b);
        assert MayTransmit(s, b);
      } else {
        SequentialUnfinished(s);
      }
    }
  }

  /** In sequential mode, input that comes next finds all units of work free. */
  lemma SequentialInput(s: State)
    requires Inv(s) && Quiet(s) && s.chain != [] && s.chain[0].In? && s.workers > 0 && s.sequential
    ensures CanCollectSeq(s)
  {
    hide OutputOk, UnitsAhead, Reserved, Linked, Apart;
    var hand := s.stages.unfinished + s.stages.growing;
    var m: nat :| Divided(s.chain, m, hand, s.collecting);
    assert m == 0;
    var held := s.stages.unfinished + s.stages.transQ;
    assert held <= Blocks(s.stages);
    if held != {} {
      var b :| b in held;
      NoBlock(s.chain, Inputs(s), Blocks(s.stages), b);
    }
    assert s.chain[0] in s.chain && Held(s.chain[0], Inputs(s), Blocks(s.stages));
    assert s.stages.unfinished <= held && s.stages.transQ <= held;
  }

  lemma NoBlock(chain: seq<Cell>, inputs: set<Input>, blocks: set<Block>, b: Block)
    requires HeldOk(chain, inputs, blocks) && forall k :: 0 <= k < |chain| ==> chain[k].In?
    ensures b !in blocks
  {
    if b in blocks { var k := HeldAt(chain, inputs, blocks, Work(b)); }
  }

  /** An unfinished block waits for input, or for the end of it. */
  lemma SequentialUnfinished(s: State)
    requires Inv(s) && Quiet(s) && s.stages.unfinished != {}
    ensures CanCollectSeq(s) || (s.reader == Idle && s.inSlots > 0) || (s.reader == Ended && !s.eof)
  {
    hide OutputOk, UnitsAhead, Reserved, ChainOk, HeldOk, Apart;
    if s.collQ == {} {
      var hand := s.stages.unfinished + s.stages.growing;
      var m: nat :| Divided(s.chain, m, hand, s.collecting);
      OneInHand(s.chain, m, hand, s.collecting);
      assert hand == s.stages.unfinished;
      NotEmpty(s.stages.unfinished);
      assert s.workers > 0;
    }
  }

  /** Units cannot run out while the next thing to do is to collect. */
  lemma UnitsLeft(s: State, i: Input)
    requires Inv(s) && Quiet(s) && s.chain != [] && s.chain[0] == In(i) && s.workers > 0 && !s.sequential
    ensures CanCollect(s)
  {
    hide OutputOk, Reserved, Accounts, Linked, Apart;
    assert Held(In(i), Inputs(s), Blocks(s.stages)) by { assert s.chain[0] in s.chain; }
    if s.workUnits == 0 {
      var p :| Ahead(s.collQ, s.collecting, UnitBlocks(s.stages), p);
      var b :| b in UnitBlocks(s.stages) && b.pos == p;
      var k := HeldAt(s.chain, Inputs(s), Blocks(s.stages), Work(b));
      Ascends(s.order, s.chain, 0, k);
    }
  }

  /** A slot is left for the block to be written next. */
  lemma SlotsLeft(s: State, b: Block)
    requires Inv(s) && Quiet(s) && b in s.stages.transQ && b.pos == s.order
    ensures s.outSlots > 0
  {
    hide OutputOk, UnitsAhead, HeldOk, ChainOk, Apart, ModeOk;
    assert b !in s.stages.reordQ by { NotBoth(s.stages, b); }
    forall x | x in s.stages.reordQ ensures x.pos != s.order {
      if x.pos == s.order {
        FrontIsNext(s, b);
        FrontIsNext(s, x);
      }
    }
    assert Beyond(s.order, SlotBlocks(s.stages)) == s.stages.reordQ;
  }

  lemma NotBoth(q: Stages, b: Block)
    requires Apart(q) && b in q.transQ
    ensures b !in q.reordQ
  {
  }
}
