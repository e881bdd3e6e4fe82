/** The parallel decompressor as a state machine.  Scanners guess where blocks start and
    retrievers follow the guesses; one sequential master, the parser or the retriever of
    the block it has found, decides which of them count. */
module ExpansionProtocol {
  import opened Common

  // ----- the stream, and a sequential decompressor -----

  /** The header of a block: where its data starts, and what the header says about it. */
  datatype Found = Found(base: nat, header: nat)

  datatype Parsed = Header(found: Found) | End | Bad

  /** What becomes of a part of a block at the output: more parts follow, the block is
      complete, or its data is in error. */
  datatype Verdict = Continues | Completes | Fails

  /** What the bits of a stream mean, whoever looks at them.  `head(blocks, p)` is what the
      parser finds from position `p` on when it has found `blocks` before; `end(b)` is
      where the data of a block that starts at `b` ends, and `part(b, k)` part `k` of what
      the data decodes to; `more(b, k)` tells whether there is a part after it. */
  datatype Stream = Stream(
    head: (seq<Found>, nat) -> Parsed,
    end: nat -> nat,
    part: (nat, nat) -> seq<byte>,
    more: (nat, nat) -> bool,
    verdict: (Found, nat) -> Verdict)

  const HEADER_BITS := 80

  ghost predicate Sensible(m: Stream) {
    && (forall blocks, p: nat :: m.head(blocks, p).Header? ==> m.head(blocks, p).found.base >= p + HEADER_BITS)
    && (forall b: nat :: m.end(b) >= b)
    && forall f, k: nat :: (m.verdict(f, k) == Continues ==> m.more(f.base, k)) && (m.verdict(f, k) == Completes ==> !m.more(f.base, k))
  }

  /** Where the header after these blocks is looked for. */
  function After(m: Stream, blocks: seq<Found>): nat {
    if blocks == [] then 0 else m.end(blocks[|blocks| - 1].base)
  }

  /** How far a sequential decompressor has come: it is at part `k` of the last block of
      `blocks`, has reached the end of the stream, or has met an error. */
  datatype Stage = Emitting(blocks: seq<Found>, k: nat) | Finished(all: seq<Found>) | Broken

  function Parse(m: Stream, blocks: seq<Found>): (r: Stage)
    ensures r.Emitting? ==> |r.blocks| == |blocks| + 1
  {
    var h := m.head(blocks, After(m, blocks));
    if h.Header? then Emitting(blocks + [h.found], 0) else if h == End then Finished(blocks) else Broken
  }

  /** A sequential decompressor that has written `n` parts. */
  function Sequential(m: Stream, n: nat): (r: Stage)
    ensures r.Emitting? ==> r.blocks != []
  {
    if n == 0 then Parse(m, [])
    else
      var r := Sequential(m, n - 1);
      if !r.Emitting? then r
      else
        var v := m.verdict(r.blocks[|r.blocks| - 1], r.k);
        if v == Continues then Emitting(r.blocks, r.k + 1) else if v == Completes then Parse(m, r.blocks) else Broken
  }

  /** The parts that a sequential decompressor writes first. */
  function Chunks(m: Stream, n: nat): (r: seq<seq<byte>>)
    ensures |r| <= n
  {
    if n == 0 then []
    else
      var r := Sequential(m, n - 1);
      if r.Emitting? && m.verdict(r.blocks[|r.blocks| - 1], r.k) != Fails
      then Chunks(m, n - 1) + [m.part(r.blocks[|r.blocks| - 1].base, r.k)] else Chunks(m, n - 1)
  }

  // ----- the state -----

  /** A place in the stream: a bit position, and the number of words read to get there, up
      to 63 bits of which are still in the buffer. */
  datatype Place = Place(bit: nat, off: nat)

  predicate Buffered(p: Place) {
    32 * p.off - 63 <= p.bit <= 32 * p.off
  }

  /** Less than a word is in the buffer. */
  predicate Short(p: Place) {
    p.bit <= 32 * p.off < p.bit + 32
  }

  /** A retriever; `guessed` tells that a scanner started it. */
  datatype Job = Job(id: nat, base: nat, at: Place, guessed: bool)

  /** A scanner's guess, shared by the parser and the retriever that follows it. */
  datatype Guess = Guess(base: nat, at: Place, complete: bool, legitimate: bool)

  /** Part `k` of the block that starts at `base`. */
  datatype Part = Part(base: nat, k: nat)

  /** A block to be output, from part `k` on. */
  datatype Expected = Expected(found: Found, k: nat)

  /** What passes through decoding and emitting to the output; there may be many copies of
      a part. */
  datatype Pipe = Pipe(decoding: multiset<nat>, emitQ: multiset<Part>, emitting: multiset<Part>, reordQ: multiset<Part>)

  /** `parsed` and `origin` are there to state properties with: all blocks that the parser
      has found, and where it has started to look for the next one. */
  datatype State = State(
    workers: nat,
    slots: nat,
    workUnits: nat,
    outSlots: nat,
    eof: bool,
    parseToken: bool,
    parsing: bool,
    parsingDone: bool,
    parser: Place,
    headOff: nat,
    retrQ: set<Job>,
    retrieving: set<Job>,
    guesses: map<nat, Guess>,
    unordQ: set<nat>,
    scanning: nat,
    pipe: Pipe,
    orderQ: seq<Expected>,
    sink: nat,
    failed: bool,
    nextId: nat,
    parsed: seq<Found>,
    origin: nat,
    out: seq<seq<byte>>)

  function Initial(workers: nat, slots: nat): State {
    State(workers, slots, workers, slots, false, true, false, false, Place(0, 0), 0, {}, {}, map[], {}, 0,
          Pipe(multiset{}, multiset{}, multiset{}, multiset{}), [], 0, false, 0, [], 0, [])
  }

  function Jobs(s: State): set<Job> { s.retrQ + s.retrieving }

  // ----- the steps -----

  /** Is the retriever the master? */
  predicate IsMaster(guesses: map<nat, Guess>, j: Job) {
    !j.guessed || (j.id in guesses && guesses[j.id].complete && guesses[j.id].legitimate)
  }

  /** Has the retriever been told that it does not count? */
  predicate IsDismissed(guesses: map<nat, Guess>, j: Job) {
    j.guessed && j.id in guesses && guesses[j.id].complete && !guesses[j.id].legitimate
  }

  /** The words released when the master moves, and the retrievers given up for that. */
  datatype Release = Release(headOff: nat, dropped: set<Job>)

  /** Input blocks that end before `p` are released, and all retrievers that wait for input
      released are given up. */
  ghost predicate Releases(s: State, p: Place, r: Release) {
    && s.headOff <= r.headOff && (r.headOff > s.headOff ==> r.headOff <= p.off)
    && r.dropped == set j | j in s.retrQ && j.at.off < r.headOff
  }

  /** The master moves to `p`. */
  function Advance(s: State, p: Place, r: Release): (t: State)
    requires r.dropped <= s.retrQ
    ensures t.workers == s.workers && t.slots == s.slots
  {
    s.(parser := p, headOff := r.headOff, retrQ := s.retrQ - r.dropped, workUnits := s.workUnits + |r.dropped|)
  }

  /** The guesses that are told that they do not count, unless already complete. */
  function Dismiss(g: map<nat, Guess>, ids: set<nat>): map<nat, Guess> {
    map id | id in g :: if id in ids && !g[id].complete then g[id].(complete := true, legitimate := false) else g[id]
  }

  ghost predicate CanParse(s: State) {
    !s.parsingDone && s.parseToken && s.workUnits > 0
  }

  function StartParsing(s: State): (t: State)
    requires s.workUnits > 0
    ensures t.workers == s.workers && t.slots == s.slots
  {
    s.(parseToken := false, parsing := true, workUnits := s.workUnits - 1)
  }

  /** The parser has run to `p`, with less than a word left in its buffer. */
  ghost predicate Parses(s: State, p: Place, r: Release) {
    s.parsing && Short(p) && p.bit >= s.parser.bit && p.off >= s.parser.off && Releases(s, p, r)
  }

  /** The parser runs out of input. */
  function ParseMore(s: State, p: Place, r: Release): (t: State)
    requires r.dropped <= s.retrQ
    ensures t.workers == s.workers && t.slots == s.slots
  {
    var u := Advance(s, p, r);
    u.(parseToken := true, parsing := false, workUnits := u.workUnits + 1)
  }

  /** The parser finds the end of the stream: retrievers that wait are given up, and all
      guesses dismissed. */
  function ParseEnd(s: State, p: Place, r: Release): (t: State)
    requires r.dropped <= s.retrQ
    ensures t.workers == s.workers && t.slots == s.slots
  {
    var u := Advance(s, p, r);
    u.(parseToken := true, parsing := false, parsingDone := true, retrQ := {}, workUnits := u.workUnits + |u.retrQ| + 1,
       guesses := Dismiss(s.guesses, s.unordQ), unordQ := {})
  }

  /** The guesses in the queue that start before position `b`. */
  function Behind(guesses: map<nat, Guess>, ids: set<nat>, b: nat): set<nat> {
    set id | id in ids && id in guesses && guesses[id].base < b
  }

  /** The parser finds a block at `p`, and tells the guesses before it that they were
      wrong. */
  function FindBlock(s: State, f: Found, p: Place, r: Release): (t: State)
    requires r.dropped <= s.retrQ
    ensures t.workers == s.workers && t.slots == s.slots
  {
    var u := Advance(s, p, r);
    var behind := Behind(s.guesses, s.unordQ, p.bit);
    u.(parsing := false, orderQ := s.orderQ + [Expected(f, 0)], parsed := s.parsed + [f],
       guesses := Dismiss(s.guesses, behind), unordQ := s.unordQ - behind)
  }

  /** Nobody has guessed the block: the parser starts a retriever for it. */
  function ParseNew(s: State, f: Found, p: Place, r: Release): (t: State)
    requires r.dropped <= s.retrQ
    ensures t.workers == s.workers && t.slots == s.slots
  {
    var u := FindBlock(s, f, p, r);
    u.(retrQ := u.retrQ + {Job(u.nextId, p.bit, p, false)}, nextId := u.nextId + 1)
  }

  /** The block was guessed.  If its retriever is done, the parser goes on from where it
      ended, else the retriever becomes the master. */
  function ParseGuessed(s: State, f: Found, p: Place, r: Release, id: nat, r': Release): (t: State)
    requires r.dropped <= s.retrQ && r'.dropped <= s.retrQ - r.dropped && id in s.guesses
    ensures t.workers == s.workers && t.slots == s.slots
  {
    var u := FindBlock(s, f, p, r);
    var g := s.guesses[id];
    var v := Advance(u, g.at, r').(unordQ := u.unordQ - {id});
    if g.complete then v.(parseToken := true, origin := v.parser.bit, workUnits := v.workUnits + 1)
    else v.(guesses := v.guesses[id := g.(complete := true, legitimate := true)], workUnits := v.workUnits + 1)
  }

  function StartRetrieving(s: State, j: Job): (t: State)
    ensures t.workers == s.workers && t.slots == s.slots
  {
    s.(retrQ := s.retrQ - {j}, retrieving := s.retrieving + {j})
  }

  function GiveUp(s: State, j: Job): (t: State)
    ensures t.workers == s.workers && t.slots == s.slots
  {
    s.(retrieving := s.retrieving - {j}, workUnits := s.workUnits + 1)
  }

  /** The retriever has run to `p`, and was not told to give up. */
  ghost predicate Retrieves(m: Stream, s: State, j: Job, p: Place, r: Release) {
    && j in s.retrieving && !s.parsingDone && !IsDismissed(s.guesses, j)
    && Buffered(p) && j.at.bit <= p.bit <= m.end(j.base) && j.at.off <= p.off && r.dropped <= s.retrQ
    && (IsMaster(s.guesses, j) ==> Releases(s, p, r))
  }

  /** A retriever tells how far it has come: the master moves the parser, another its
      guess. */
  function Report(s: State, j: Job, p: Place, r: Release): (t: State)
    requires r.dropped <= s.retrQ
    ensures t.workers == s.workers && t.slots == s.slots
  {
    if IsMaster(s.guesses, j) then Advance(s, p, r)
    else if j.id in s.guesses then s.(guesses := s.guesses[j.id := s.guesses[j.id].(at := p)])
    else s
  }

  /** The retriever runs out of input. */
  function RetrieveMore(s: State, j: Job, p: Place, r: Release): (t: State)
    requires r.dropped <= s.retrQ
    ensures t.workers == s.workers && t.slots == s.slots
  {
    var u := Report(s, j, p, r);
    u.(retrieving := u.retrieving - {j}, retrQ := u.retrQ + {j.(at := p)})
  }

  /** The retriever is done.  The master passes on to the parser. */
  function RetrieveDone(s: State, j: Job, p: Place, r: Release): (t: State)
    requires r.dropped <= s.retrQ
    ensures t.workers == s.workers && t.slots == s.slots
  {
    var u := Report(s, j, p, r);
    var v := u.(retrieving := u.retrieving - {j}, pipe := u.pipe.(decoding := u.pipe.decoding + multiset{j.base}));
    if IsMaster(s.guesses, j) then v.(parseToken := true, origin := p.bit)
    else if j.id in u.guesses then v.(guesses := u.guesses[j.id := u.guesses[j.id].(complete := true)])
    else v
  }

  function FinishDecoding(s: State, b: nat): (t: State)
    ensures t.workers == s.workers && t.slots == s.slots
  {
    s.(pipe := s.pipe.(decoding := s.pipe.decoding - multiset{b}, emitQ := s.pipe.emitQ + multiset{Part(b, 0)}))
  }

  predicate Before(a: Part, b: Part) {
    a.base < b.base || (a.base == b.base && a.k < b.k)
  }

  /** The head of a queue of parts. */
  ghost predicate FirstPart(q: multiset<Part>, e: Part) {
    e in q && forall x :: x in q ==> !Before(x, e)
  }

  function HeadPart(q: seq<Expected>): Part
    requires q != []
  {
    Part(q[0].found.base, q[0].k)
  }

  const EMIT_THRESH := 2
  const SCAN_THRESH := 1

  ghost predicate CanEmit(s: State, e: Part) {
    && FirstPart(s.pipe.emitQ, e)
    && (s.outSlots > EMIT_THRESH || (s.outSlots > 0 && s.orderQ != [] && e == HeadPart(s.orderQ)))
  }

  function StartEmitting(s: State, e: Part): (t: State)
    requires s.outSlots > 0
    ensures t.workers == s.workers && t.slots == s.slots
  {
    s.(pipe := s.pipe.(emitQ := s.pipe.emitQ - multiset{e}, emitting := s.pipe.emitting + multiset{e}), outSlots := s.outSlots - 1)
  }

  function FinishEmitting(s: State, e: Part, more: bool): (t: State)
    ensures t.workers == s.workers && t.slots == s.slots
  {
    var u := s.pipe.(emitting := s.pipe.emitting - multiset{e}, reordQ := s.pipe.reordQ + multiset{e});
    if more then s.(pipe := u.(emitQ := u.emitQ + multiset{Part(e.base, e.k + 1)}))
    else s.(pipe := u, workUnits := s.workUnits + 1)
  }

  ghost predicate CanReject(s: State, o: Part) {
    FirstPart(s.pipe.reordQ, o) && if s.orderQ == [] then s.parsingDone else Before(o, HeadPart(s.orderQ))
  }

  function Reject(s: State, o: Part): (t: State)
    ensures t.workers == s.workers && t.slots == s.slots
  {
    s.(pipe := s.pipe.(reordQ := s.pipe.reordQ - multiset{o}), outSlots := s.outSlots + 1)
  }

  ghost predicate CanOutput(s: State, o: Part) {
    FirstPart(s.pipe.reordQ, o) && s.orderQ != [] && o == HeadPart(s.orderQ)
  }

  /** The part that comes next goes to the sink, unless it turns out to be in error. */
  function Output(m: Stream, s: State, o: Part): (t: State)
    requires s.orderQ != []
    ensures t.workers == s.workers && t.slots == s.slots
  {
    var x := s.orderQ[0];
    var v := m.verdict(x.found, x.k);
    if v == Fails then s.(failed := true)
    else
      s.(pipe := s.pipe.(reordQ := s.pipe.reordQ - multiset{o}), sink := s.sink + 1, out := s.out + [m.part(o.base, o.k)],
         orderQ := if v == Continues then [Expected(x.found, x.k + 1)] + s.orderQ[1..] else s.orderQ[1..])
  }

  function Write(s: State): (t: State)
    requires s.sink > 0
    ensures t.workers == s.workers && t.slots == s.slots
  {
    s.(sink := s.sink - 1, outSlots := s.outSlots + 1)
  }

  ghost predicate CanScan(s: State) {
    !s.parsingDone && (s.workUnits > SCAN_THRESH || (s.workUnits > 0 && !s.parseToken))
  }

  function StartScanning(s: State): (t: State)
    requires s.workUnits > 0
    ensures t.workers == s.workers && t.slots == s.slots
  {
    s.(scanning := s.scanning + 1, workUnits := s.workUnits - 1)
  }

  /** The scanner finds nothing, or nothing new. */
  function ScanNothing(s: State): (t: State)
    requires s.scanning > 0
    ensures t.workers == s.workers && t.slots == s.slots
  {
    s.(scanning := s.scanning - 1, workUnits := s.workUnits + 1)
  }

  /** The scanner finds a pattern ahead of the parser. */
  function ScanFound(s: State, p: Place): (t: State)
    requires s.scanning > 0
    ensures t.workers == s.workers && t.slots == s.slots
  {
    s.(scanning := s.scanning - 1, nextId := s.nextId + 1, unordQ := s.unordQ + {s.nextId},
       guesses := s.guesses[s.nextId := Guess(p.bit, p, false, false)],
       retrQ := s.retrQ + {Job(s.nextId, p.bit, p, true)})
  }

  datatype Step =
    | DoSetEof
    | DoStartParsing
    | DoParseMore(p: Place, r: Release)
    | DoParseEnd(p: Place, r: Release)
    | DoParseBad(p: Place, r: Release)
    | DoParseNew(p: Place, r: Release, f: Found)
    | DoParseGuessed(p: Place, r: Release, f: Found, id: nat, r': Release)
    | DoStartRetrieving(j: Job)
    | DoGiveUp(j: Job)
    | DoRetrieveMore(p: Place, r: Release, j: Job)
    | DoRetrieveDone(p: Place, r: Release, j: Job)
    | DoFinishDecoding(b: nat)
    | DoStartEmitting(e: Part)
    | DoFinishEmitting(e: Part)
    | DoReject(e: Part)
    | DoOutput(e: Part)
    | DoWrite
    | DoStartScanning
    | DoScanNothing
    | DoScanFound(p: Place)

  /** The parser finds a block. */
  ghost predicate Meets(m: Stream, s: State, f: Found, p: Place, r: Release) {
    Parses(s, p, r) && m.head(s.parsed, s.origin) == Header(f) && f.base == p.bit
  }

  /** No guess in the queue is for position `b`. */
  ghost predicate Unguessed(guesses: map<nat, Guess>, ids: set<nat>, b: nat) {
    forall id :: id in ids && id in guesses ==> guesses[id].base != b
  }

  /** Guess `id` is for the block at `p`. */
  ghost predicate Guessed(s: State, p: Place, r: Release, id: nat, r': Release) {
    && r.dropped <= s.retrQ && id in s.unordQ && id in s.guesses && s.guesses[id].base == p.bit
    && Releases(Advance(s, p, r), s.guesses[id].at, r')
  }

  /** The retriever that waits for the least position, whose input must not be released. */
  ghost predicate MayRetrieve(s: State, j: Job) {
    j in s.retrQ && j.at.off >= s.headOff && forall i :: i in s.retrQ ==> j.at.bit <= i.at.bit
  }

  /** `s` goes over to `t` in one step. */
  ghost predicate Next(m: Stream, s: State, t: State, a: Step) {
    && !s.failed
    && match a
       case DoSetEof => t == s.(eof := true)
       case DoStartParsing => CanParse(s) && t == StartParsing(s)
       case DoParseMore(p, r) => Parses(s, p, r) && t == ParseMore(s, p, r)
       case DoParseEnd(p, r) => Parses(s, p, r) && m.head(s.parsed, s.origin) == End && t == ParseEnd(s, p, r)
       case DoParseBad(p, r) => Parses(s, p, r) && m.head(s.parsed, s.origin) == Bad && t == s.(failed := true)
       case DoParseNew(p, r, f) => Meets(m, s, f, p, r) && Unguessed(s.guesses, s.unordQ, p.bit) && t == ParseNew(s, f, p, r)
       case DoParseGuessed(p, r, f, id, r') => Meets(m, s, f, p, r) && Guessed(s, p, r, id, r') && t == ParseGuessed(s, f, p, r, id, r')
       case DoStartRetrieving(j) => MayRetrieve(s, j) && t == StartRetrieving(s, j)
       case DoGiveUp(j) => j in s.retrieving && (s.parsingDone || IsDismissed(s.guesses, j)) && t == GiveUp(s, j)
       case DoRetrieveMore(p, r, j) => Retrieves(m, s, j, p, r) && Short(p) && t == RetrieveMore(s, j, p, r)
       case DoRetrieveDone(p, r, j) => Retrieves(m, s, j, p, r) && p.bit == m.end(j.base) && t == RetrieveDone(s, j, p, r)
       case DoFinishDecoding(b) => b in s.pipe.decoding && t == FinishDecoding(s, b)
       case DoStartEmitting(e) => CanEmit(s, e) && t == StartEmitting(s, e)
       case DoFinishEmitting(e) => e in s.pipe.emitting && t == FinishEmitting(s, e, m.more(e.base, e.k))
       case DoReject(e) => CanReject(s, e) && t == Reject(s, e)
       case DoOutput(e) => CanOutput(s, e) && t == Output(m, s, e)
       case DoWrite => s.sink > 0 && t == Write(s)
       case DoStartScanning => CanScan(s) && t == StartScanning(s)
       case DoScanNothing => s.scanning > 0 && t == ScanNothing(s)
       case DoScanFound(p) => s.scanning > 0 && !s.parsingDone && Short(p) && p.bit > s.parser.bit && t == ScanFound(s, p)
  }

  ghost predicate CanTerminate(s: State) {
    s.eof && s.parsingDone && s.parseToken && s.workUnits == s.workers && s.outSlots == s.slots
  }

  // ----- the invariant -----

  /** Units of work and output slots are conserved. */
  ghost predicate Accounts(s: State) {
    && s.workUnits + (if s.parsing then 1 else 0) + |s.retrQ| + |s.retrieving| + s.scanning
       + |s.pipe.decoding| + |s.pipe.emitQ| + |s.pipe.emitting| == s.workers
    && s.outSlots + |s.pipe.emitting| + |s.pipe.reordQ| + s.sink == s.slots
  }

  /** Retrievers have different numbers, and are inside their blocks. */
  ghost predicate JobsOk(m: Stream, retrQ: set<Job>, retrieving: set<Job>, nextId: nat) {
    && retrQ !! retrieving
    && (forall j :: j in retrQ || j in retrieving ==> j.id < nextId && Short(j.at) && j.base <= j.at.bit <= m.end(j.base))
    && forall i, j :: (i in retrQ || i in retrieving) && (j in retrQ || j in retrieving) && i.id == j.id ==> i == j
  }

  /** A retriever and its guess agree. */
  ghost predicate Agree(guesses: map<nat, Guess>, j: Job) {
    j.guessed ==> j.id in guesses && guesses[j.id].base == j.base && (!guesses[j.id].complete ==> guesses[j.id].at == j.at)
  }

  ghost predicate AllAgree(guesses: map<nat, Guess>, jobs: set<Job>) {
    forall j :: j in jobs ==> Agree(guesses, j)
  }

  /** A guess in the queue is complete, and says where the block ends, or is being
      followed, or is behind what the parser can find next. */
  ghost predicate Waits(m: Stream, guesses: map<nat, Guess>, jobs: set<Job>, id: nat, past: nat) {
    && id in guesses
    && if guesses[id].complete then Buffered(guesses[id].at) && guesses[id].at.bit == m.end(guesses[id].base)
       else guesses[id].base < past || Followed(jobs, id)
  }

  ghost predicate Followed(jobs: set<Job>, id: nat) {
    exists j :: j in jobs && j.guessed && j.id == id
  }

  ghost predicate AllWait(m: Stream, guesses: map<nat, Guess>, jobs: set<Job>, ids: set<nat>, past: nat) {
    forall id :: id in ids ==> Waits(m, guesses, jobs, id, past)
  }

  ghost predicate NumbersUsed(guesses: map<nat, Guess>, nextId: nat) {
    forall id :: id in guesses ==> id < nextId
  }

  /** What the parser finds next does not start before this. */
  function Past(s: State): nat {
    if s.parseToken || s.parsing then Max(s.parser.bit, s.origin + HEADER_BITS) else s.parser.bit + 32
  }

  function Max(a: nat, b: nat): nat {
    if a < b then b else a
  }

  /** The parser or one retriever is the master, and stands where a sequential
      decompressor would. */
  ghost predicate OneMaster(m: Stream, s: State) {
    && !(s.parseToken && s.parsing)
    && (s.parsingDone ==> s.parseToken && s.retrQ == {})
    && (s.parseToken || s.parsing ==> s.origin == After(m, s.parsed) && forall j :: j in Jobs(s) ==> !IsMaster(s.guesses, j))
    && (!s.parseToken && !s.parsing ==> s.parsed != [] && exists j :: TheMaster(s.guesses, Jobs(s), j) && j.base == s.parsed[|s.parsed| - 1].base)
  }

  /** The one master among the retrievers. */
  ghost predicate TheMaster(guesses: map<nat, Guess>, jobs: set<Job>, j: Job) {
    j in jobs && IsMaster(guesses, j) && forall i :: i in jobs && IsMaster(guesses, i) ==> i == j
  }

  /** The blocks are those that a sequential decompressor finds. */
  ghost predicate InTurn(m: Stream, blocks: seq<Found>) {
    forall i :: 0 <= i < |blocks| ==> m.head(blocks[..i], After(m, blocks[..i])) == Header(blocks[i])
  }

  /** The output is what a sequential decompressor writes, and the expected blocks are
      those it would go on with. */
  ghost predicate OutputOk(m: Stream, parsed: seq<Found>, orderQ: seq<Expected>, out: seq<seq<byte>>) {
    && out == Chunks(m, |out|)
    && |orderQ| <= |parsed|
    && (forall i :: 0 <= i < |orderQ| ==> orderQ[i].found == parsed[|parsed| - |orderQ| + i] && (i > 0 ==> orderQ[i].k == 0))
    && Sequential(m, |out|) == (if orderQ == [] then Parse(m, parsed) else Emitting(parsed[..|parsed| - |orderQ| + 1], orderQ[0].k))
    && (orderQ != [] ==> forall j: nat :: j < orderQ[0].k ==> m.verdict(orderQ[0].found, j) == Continues)
  }

  /** Parts of block `b` from `i` up to `k` wait for output. */
  ghost predicate Ready(reordQ: multiset<Part>, b: nat, i: nat, k: nat) {
    forall j: nat :: i <= j < k ==> Part(b, j) in reordQ
  }

  /** Part `k` of block `b` is next to be produced. */
  ghost predicate Producing(pipe: Pipe, b: nat, k: nat) {
    (k == 0 && b in pipe.decoding) || Part(b, k) in pipe.emitQ || Part(b, k) in pipe.emitting
  }

  /** Part `i` of block `b` and those after it wait for output or will be produced. */
  ghost predicate InPipe(m: Stream, pipe: Pipe, b: nat, i: nat) {
    exists k: nat :: Ready(pipe.reordQ, b, i, k) && (Producing(pipe, b, k) || (k > i && !m.more(b, k - 1)))
  }

  /** All blocks that are expected, and all complete guesses ahead of the parser, are in the
      pipe, except for the block that the master retrieves. */
  ghost predicate Fed(m: Stream, s: State) {
    && (forall i :: 0 <= i < |s.orderQ| ==>
          InPipe(m, s.pipe, s.orderQ[i].found.base, s.orderQ[i].k) || (i == |s.orderQ| - 1 && !s.parseToken && !s.parsing))
    && GuessesFed(m, s.guesses, s.unordQ, s.pipe, s.parsed)
  }

  ghost predicate GuessesFed(m: Stream, guesses: map<nat, Guess>, ids: set<nat>, pipe: Pipe, parsed: seq<Found>) {
    forall id :: id in ids && id in guesses && guesses[id].complete && (forall f :: f in parsed ==> f.base < guesses[id].base)
      ==> InPipe(m, pipe, guesses[id].base, 0)
  }

  ghost predicate ErrorOk(m: Stream, s: State) {
    s.failed ==> m.head(s.parsed, After(m, s.parsed)) == Bad || Sequential(m, |s.out| + 1) == Broken
  }

  ghost predicate Inv(m: Stream, s: State) {
    Accounts(s) && Ordered(m, s) && Fed(m, s) && Placed(s)
  }

  /** The parser is not behind the input released, and the retriever that is the master
      stands where the parser does. */
  ghost predicate Placed(s: State) {
    && Buffered(s.parser) && s.headOff <= s.parser.off
    && forall j :: j in Jobs(s) && IsMaster(s.guesses, j) ==> j.at == s.parser
  }

  // ----- what moving forward means -----

  /** The master moves forward. */
  ghost predicate CanAdvance(s: State, p: Place, r: Release) {
    && Buffered(p) && p.bit >= s.parser.bit && s.headOff <= r.headOff <= p.off
    && r.dropped <= s.retrQ && forall j :: j in r.dropped ==> j.at.off < r.headOff
  }

  ghost predicate ParsedTo(s: State, p: Place, r: Release) {
    s.parsing && CanAdvance(s, p, r) && 32 * p.off < p.bit + 32
  }

  ghost predicate RetrievedTo(m: Stream, s: State, j: Job, p: Place, r: Release) {
    && j in s.retrieving && !s.parsingDone && !IsDismissed(s.guesses, j)
    && Buffered(p) && j.at.bit <= p.bit <= m.end(j.base) && r.dropped <= s.retrQ
    && if IsMaster(s.guesses, j) then CanAdvance(s, p, r) else j.id in s.guesses
  }

  ghost predicate Finds(m: Stream, s: State, f: Found, p: Place, r: Release) {
    ParsedTo(s, p, r) && m.head(s.parsed, s.origin) == Header(f) && f.base == p.bit
  }

  ghost predicate GuessedRight(s: State, p: Place, r: Release, id: nat, r': Release) {
    && r.dropped <= s.retrQ && id in s.unordQ && id in s.guesses && s.guesses[id].base == p.bit
    && CanAdvance(Advance(s, p, r), s.guesses[id].at, r')
  }

  lemma ParsesForward(s: State, p: Place, r: Release)
    requires Placed(s) && Parses(s, p, r)
    ensures ParsedTo(s, p, r)
  {
  }

  lemma RetrievesForward(m: Stream, s: State, j: Job, p: Place, r: Release)
    requires Placed(s) && Led(m, s) && Retrieves(m, s, j, p, r)
    ensures RetrievedTo(m, s, j, p, r)
  {
    hide IsMaster, AllWait, OneMaster;
    assert j in Jobs(s);
    if !IsMaster(s.guesses, j) { assert Agree(s.guesses, j); }
    hide Agree, AllAgree, JobsOk;
    GuessedIn(s.guesses, j);
  }

  lemma GuessedIn(guesses: map<nat, Guess>, j: Job)
    ensures !IsMaster(guesses, j) && (j.guessed ==> j.id in guesses) ==> j.id in guesses
  {
  }

  /** A guess is never behind the block it is for. */
  lemma GuessForward(m: Stream, s: State, f: Found, p: Place, r: Release, id: nat, r': Release)
    requires Sensible(m) && Placed(s) && Led(m, s) && Finds(m, s, f, p, r) && Guessed(s, p, r, id, r')
    ensures GuessedRight(s, p, r, id, r')
  {
    hide IsMaster, OneMaster;
    assert Waits(m, s.guesses, Jobs(s), id, Past(s));
    if !s.guesses[id].complete {
      var j :| j in Jobs(s) && j.guessed && j.id == id;
      assert Agree(s.guesses, j);
    }
  }

  /** What does not depend on the pipe and the counters. */
  ghost predicate Ordered(m: Stream, s: State) {
    Led(m, s) && Coursed(m, s)
  }

  ghost predicate Led(m: Stream, s: State) {
    && JobsOk(m, s.retrQ, s.retrieving, s.nextId)
    && AllAgree(s.guesses, Jobs(s))
    && AllWait(m, s.guesses, Jobs(s), s.unordQ, Past(s))
    && NumbersUsed(s.guesses, s.nextId)
    && OneMaster(m, s)
  }

  ghost predicate Coursed(m: Stream, s: State) {
    && InTurn(m, s.parsed)
    && OutputOk(m, s.parsed, s.orderQ, s.out)
    && (s.parsingDone ==> m.head(s.parsed, After(m, s.parsed)) == End && s.unordQ == {})
    && ErrorOk(m, s)
  }

  lemma InitialInv(m: Stream, workers: nat, slots: nat)
    ensures Inv(m, Initial(workers, slots))
  {
  }

  // ----- the pipe -----

  /** All parts that are on their way stay on their way. */
  ghost predicate StaysInPipe(m: Stream, p: Pipe, q: Pipe) {
    forall b: nat, i: nat :: InPipe(m, p, b, i) && MoreUpTo(m, b, i) ==> InPipe(m, q, b, i)
  }

  ghost predicate MoreUpTo(m: Stream, b: nat, i: nat) {
    forall j: nat :: j < i ==> m.more(b, j)
  }

  lemma FinishDecodingPipe(m: Stream, p: Pipe, q: Pipe, b: nat)
    requires b in p.decoding
    requires q == p.(decoding := p.decoding - multiset{b}, emitQ := p.emitQ + multiset{Part(b, 0)})
    ensures StaysInPipe(m, p, q)
  {
    forall c: nat, i: nat | InPipe(m, p, c, i) ensures InPipe(m, q, c, i) {
      var k: nat :| Ready(p.reordQ, c, i, k) && (Producing(p, c, k) || (k > i && !m.more(c, k - 1)));
      assert Ready(q.reordQ, c, i, k);
    }
  }

  lemma StartEmittingPipe(m: Stream, p: Pipe, q: Pipe, e: Part)
    requires e in p.emitQ
    requires q == p.(emitQ := p.emitQ - multiset{e}, emitting := p.emitting + multiset{e})
    ensures StaysInPipe(m, p, q)
  {
    forall c: nat, i: nat | InPipe(m, p, c, i) ensures InPipe(m, q, c, i) {
      var k: nat :| Ready(p.reordQ, c, i, k) && (Producing(p, c, k) || (k > i && !m.more(c, k - 1)));
      assert Ready(q.reordQ, c, i, k);
    }
  }

  /** The pipe after part `e` was emitted. */
  function Emitted(p: Pipe, e: Part, more: bool): Pipe {
    var u := p.(emitting := p.emitting - multiset{e}, reordQ := p.reordQ + multiset{e});
    if more then u.(emitQ := u.emitQ + multiset{Part(e.base, e.k + 1)}) else u
  }

  lemma FinishEmittingPipe(m: Stream, p: Pipe, q: Pipe, e: Part)
    requires e in p.emitting && q == Emitted(p, e, m.more(e.base, e.k))
    ensures StaysInPipe(m, p, q)
  {
    forall c: nat, i: nat | InPipe(m, p, c, i) && MoreUpTo(m, c, i) ensures InPipe(m, q, c, i) {
      var k: nat :| Ready(p.reordQ, c, i, k) && (Producing(p, c, k) || (k > i && !m.more(c, k - 1)));
      assert Ready(q.reordQ, c, i, k);
      if e == Part(c, k) && Producing(p, c, k) {
        assert Ready(q.reordQ, c, i, k + 1);
      }
    }
  }

  /** Taking part `o` out of the pipe leaves all that does not need it. */
  lemma TakenOut(m: Stream, p: Pipe, q: Pipe, o: Part, b: nat, i: nat)
    requires q == p.(reordQ := p.reordQ - multiset{o})
    requires InPipe(m, p, b, i) && (o.base != b || o.k < i)
    ensures InPipe(m, q, b, i)
  {
    var k: nat :| Ready(p.reordQ, b, i, k) && (Producing(p, b, k) || (k > i && !m.more(b, k - 1)));
    assert Ready(q.reordQ, b, i, k);
  }

  /** Once a part is output that is not the last, those after it are still in the pipe. */
  lemma GoesOn(m: Stream, p: Pipe, b: nat, i: nat)
    requires InPipe(m, p, b, i) && m.more(b, i)
    ensures InPipe(m, p, b, i + 1)
  {
    var k: nat :| Ready(p.reordQ, b, i, k) && (Producing(p, b, k) || (k > i && !m.more(b, k - 1)));
    assert Ready(p.reordQ, b, i + 1, k);
  }

  /** With an empty pipe nothing is on its way. */
  lemma NothingInPipe(m: Stream, p: Pipe, b: nat, i: nat)
    requires |p.decoding| == |p.emitQ| == |p.emitting| == |p.reordQ| == 0
    ensures !InPipe(m, p, b, i)
  {
    forall k: nat | Ready(p.reordQ, b, i, k) ensures !Producing(p, b, k) && !(k > i && !m.more(b, k - 1)) {
      if k > i { assert Part(b, i) !in p.reordQ; }
    }
  }

  lemma FedStill(m: Stream, s: State, t: State)
    requires Sensible(m) && Fed(m, s) && OutputOk(m, s.parsed, s.orderQ, s.out) && StaysInPipe(m, s.pipe, t.pipe)
    requires t.orderQ == s.orderQ && t.parseToken == s.parseToken && t.parsing == s.parsing
    requires t.guesses == s.guesses && t.unordQ == s.unordQ && t.parsed == s.parsed
    ensures Fed(m, t)
  {
    forall i | 0 <= i < |s.orderQ| ensures MoreUpTo(m, s.orderQ[i].found.base, s.orderQ[i].k) {
    }
    assert forall b: nat :: MoreUpTo(m, b, 0);
  }

  // ----- steps of the pipe -----

  lemma OrderedStill(m: Stream, s: State, t: State)
    requires Ordered(m, s) && ErrorOk(m, t)
    requires t == s.(workUnits := t.workUnits, outSlots := t.outSlots, pipe := t.pipe, scanning := t.scanning, sink := t.sink, eof := t.eof, failed := t.failed)
    ensures Ordered(m, t)
  {
    hide OutputOk, InTurn, Waits, Agree, JobsOk, Sequential;
  }

  lemma FinishDecodingInv(m: Stream, s: State, b: nat)
    requires Sensible(m) && Inv(m, s) && !s.failed && b in s.pipe.decoding
    ensures Inv(m, FinishDecoding(s, b))
  {
    hide OutputOk, InPipe, StaysInPipe, Ordered, Fed;
    var t := FinishDecoding(s, b);
    FinishDecodingPipe(m, s.pipe, t.pipe, b);
    OutputIsOk(m, s);
    FedStill(m, s, t);
    OrderedStill(m, s, t);
  }

  lemma OutputIsOk(m: Stream, s: State)
    requires Ordered(m, s)
    ensures OutputOk(m, s.parsed, s.orderQ, s.out)
  {
  }

  lemma StartEmittingInv(m: Stream, s: State, e: Part)
    requires Sensible(m) && Inv(m, s) && !s.failed && CanEmit(s, e)
    ensures Inv(m, StartEmitting(s, e))
  {
    hide OutputOk, InPipe, StaysInPipe, Ordered, Fed;
    var t := StartEmitting(s, e);
    StartEmittingPipe(m, s.pipe, t.pipe, e);
    OutputIsOk(m, s);
    FedStill(m, s, t);
    OrderedStill(m, s, t);
  }

  lemma FinishEmittingInv(m: Stream, s: State, e: Part)
    requires Sensible(m) && Inv(m, s) && !s.failed && e in s.pipe.emitting
    ensures Inv(m, FinishEmitting(s, e, m.more(e.base, e.k)))
  {
    hide OutputOk, InPipe, StaysInPipe, Ordered, Fed;
    var t := FinishEmitting(s, e, m.more(e.base, e.k));
    FinishEmittingPipe(m, s.pipe, t.pipe, e);
    OutputIsOk(m, s);
    FedStill(m, s, t);
    OrderedStill(m, s, t);
  }

  /** Steps that only move units of work and slots. */
  lemma UnitsInv(m: Stream, s: State, t: State, a: Step)
    requires Sensible(m) && Inv(m, s) && (a.DoSetEof? || a.DoWrite? || a.DoStartScanning? || a.DoScanNothing?)
    requires Next(m, s, t, a)
    ensures Inv(m, t)
  {
    hide Ordered, InPipe, GuessesFed;
    OrderedStill(m, s, t);
  }

  // ----- the order of the blocks -----

  /** Later blocks start further on. */
  lemma {:induction false} Ascending(m: Stream, blocks: seq<Found>, i: nat, j: nat)
    requires Sensible(m) && InTurn(m, blocks) && i < j < |blocks|
    ensures blocks[i].base < blocks[j].base
  {
    assert m.head(blocks[..j], After(m, blocks[..j])) == Header(blocks[j]);
    if i < j - 1 { Ascending(m, blocks, i, j - 1); }
  }

  lemma RejectInv(m: Stream, s: State, o: Part)
    requires Sensible(m) && Inv(m, s) && !s.failed && CanReject(s, o)
    ensures Inv(m, Reject(s, o))
  {
    hide Ordered, InPipe, OutputOk, InTurn, GuessesFed;
    var t := Reject(s, o);
    OrderedStill(m, s, t);
    OutputIsOk(m, s);
    RejectFed(m, s, o);
    RejectGuesses(m, s, o);
  }

  lemma RejectGuesses(m: Stream, s: State, o: Part)
    requires Ordered(m, s) && GuessesFed(m, s.guesses, s.unordQ, s.pipe, s.parsed)
    requires if s.orderQ == [] then s.parsingDone else o == HeadPart(s.orderQ) || Before(o, HeadPart(s.orderQ))
    ensures GuessesFed(m, s.guesses, s.unordQ, s.pipe.(reordQ := s.pipe.reordQ - multiset{o}), s.parsed)
  {
    hide InPipe, InTurn, GuessesFed;
    GuessesKept(m, s, o);
  }

  lemma InTurnOf(m: Stream, s: State)
    requires Ordered(m, s)
    ensures InTurn(m, s.parsed)
  {
  }

  lemma RejectFed(m: Stream, s: State, o: Part)
    requires Sensible(m) && Ordered(m, s) && Fed(m, s) && CanReject(s, o)
    ensures var t := Reject(s, o);
      forall i :: 0 <= i < |t.orderQ| ==>
        InPipe(m, t.pipe, t.orderQ[i].found.base, t.orderQ[i].k) || (i == |t.orderQ| - 1 && !t.parseToken && !t.parsing)
  {
    hide InPipe, InTurn, Ordered;
    InTurnOf(m, s);
    OutputIsOk(m, s);
    var t := Reject(s, o);
    forall i | 0 <= i < |s.orderQ| && InPipe(m, s.pipe, s.orderQ[i].found.base, s.orderQ[i].k)
      ensures InPipe(m, t.pipe, s.orderQ[i].found.base, s.orderQ[i].k)
    {
      if i > 0 { Ascending(m, s.parsed, |s.parsed| - |s.orderQ|, |s.parsed| - |s.orderQ| + i); }
      TakenOut(m, s.pipe, t.pipe, o, s.orderQ[i].found.base, s.orderQ[i].k);
    }
  }

  lemma GuessesKept(m: Stream, s: State, o: Part)
    requires GuessesFed(m, s.guesses, s.unordQ, s.pipe, s.parsed) && (s.orderQ == [] ==> s.unordQ == {})
    requires s.orderQ != [] ==> o.base <= s.orderQ[0].found.base && s.orderQ[0].found in s.parsed
    ensures GuessesFed(m, s.guesses, s.unordQ, s.pipe.(reordQ := s.pipe.reordQ - multiset{o}), s.parsed)
  {
    hide InPipe;
    forall id | id in s.unordQ && id in s.guesses && s.guesses[id].complete && (forall f :: f in s.parsed ==> f.base < s.guesses[id].base)
      ensures InPipe(m, s.pipe.(reordQ := s.pipe.reordQ - multiset{o}), s.guesses[id].base, 0)
    {
      TakenOut(m, s.pipe, s.pipe.(reordQ := s.pipe.reordQ - multiset{o}), o, s.guesses[id].base, 0);
    }
  }

  lemma OutputInv(m: Stream, s: State, o: Part)
    requires Sensible(m) && Inv(m, s) && !s.failed && CanOutput(s, o)
    ensures Inv(m, Output(m, s, o))
  {
    hide Ordered, InPipe, OutputOk, GuessesFed, InTurn;
    OutputIsOk(m, s);
    InTurnOf(m, s);
    if m.verdict(s.orderQ[0].found, s.orderQ[0].k) == Fails {
      OutputFails(m, s.parsed, s.orderQ, s.out);
      OrderedFails(m, s, Output(m, s, o));
    } else {
      OutputOrdered(m, s, o);
      OutputFed(m, s, o);
      RejectGuesses(m, s, o);
      OutputAccounts(m, s, o);
    }
  }

  lemma OutputAccounts(m: Stream, s: State, o: Part)
    requires Accounts(s) && CanOutput(s, o)
    ensures Accounts(Output(m, s, o))
  {
    hide FirstPart;
    if m.verdict(s.orderQ[0].found, s.orderQ[0].k) != Fails {
      TakeOne(s.pipe.reordQ, o) by { InQueue(s.pipe.reordQ, o); }
    }
  }

  lemma InQueue(q: multiset<Part>, o: Part)
    requires FirstPart(q, o)
    ensures o in q
  {
  }

  lemma TakeOne<T>(q: multiset<T>, o: T)
    requires o in q
    ensures |q - multiset{o}| == |q| - 1
  {
    assert q == (q - multiset{o}) + multiset{o};
  }

  lemma OutputOrdered(m: Stream, s: State, o: Part)
    requires Sensible(m) && Ordered(m, s) && !s.failed && CanOutput(s, o) && m.verdict(s.orderQ[0].found, s.orderQ[0].k) != Fails
    ensures Ordered(m, Output(m, s, o))
  {
    hide Ordered, OutputOk, InTurn;
    var t := Output(m, s, o);
    OutputIsOk(m, s);
    InTurnOf(m, s);
    OutputGoesOn(m, s.parsed, s.orderQ, s.out, t.orderQ);
    OrderedOutput(m, s, t);
  }

  lemma OrderedFails(m: Stream, s: State, t: State)
    requires Ordered(m, s) && t == s.(failed := true) && Sequential(m, |s.out| + 1) == Broken
    ensures Ordered(m, t)
  {
    hide Ordered, Sequential;
    OrderedStill(m, s, t);
  }

  lemma OrderedOutput(m: Stream, s: State, t: State)
    requires Ordered(m, s) && !s.failed && OutputOk(m, t.parsed, t.orderQ, t.out)
    requires t == s.(pipe := t.pipe, sink := t.sink, orderQ := t.orderQ, out := t.out)
    ensures Ordered(m, t)
  {
    hide OutputOk, InTurn, Waits, Agree, JobsOk, Sequential;
  }

  lemma OutputFails(m: Stream, parsed: seq<Found>, orderQ: seq<Expected>, out: seq<seq<byte>>)
    requires OutputOk(m, parsed, orderQ, out) && orderQ != [] && m.verdict(orderQ[0].found, orderQ[0].k) == Fails
    ensures Sequential(m, |out| + 1) == Broken
  {
    hide Sequential, Chunks, Parse;
    var blocks := parsed[..|parsed| - |orderQ| + 1];
    assert blocks[|parsed| - |orderQ|] == orderQ[0].found;
    SequentialStep(m, |out|, blocks, orderQ[0].k);
  }

  lemma OutputGoesOn(m: Stream, parsed: seq<Found>, orderQ: seq<Expected>, out: seq<seq<byte>>, rest: seq<Expected>)
    requires OutputOk(m, parsed, orderQ, out) && orderQ != [] && m.verdict(orderQ[0].found, orderQ[0].k) != Fails && InTurn(m, parsed)
    requires rest == if m.verdict(orderQ[0].found, orderQ[0].k) == Continues
                     then [Expected(orderQ[0].found, orderQ[0].k + 1)] + orderQ[1..] else orderQ[1..]
    ensures OutputOk(m, parsed, rest, out + [m.part(orderQ[0].found.base, orderQ[0].k)])
  {
    hide Sequential, Chunks, InTurn;
    ChunksGoOn(m, parsed, orderQ, out);
    SequentialGoesOn(m, parsed, orderQ, out);
  }

  lemma ChunksGoOn(m: Stream, parsed: seq<Found>, orderQ: seq<Expected>, out: seq<seq<byte>>)
    requires OutputOk(m, parsed, orderQ, out) && orderQ != [] && m.verdict(orderQ[0].found, orderQ[0].k) != Fails
    ensures Chunks(m, |out| + 1) == out + [m.part(orderQ[0].found.base, orderQ[0].k)]
  {
    hide Sequential;
    assert parsed[..|parsed| - |orderQ| + 1][|parsed| - |orderQ|] == orderQ[0].found;
  }

  lemma SequentialGoesOn(m: Stream, parsed: seq<Found>, orderQ: seq<Expected>, out: seq<seq<byte>>)
    requires OutputOk(m, parsed, orderQ, out) && orderQ != [] && m.verdict(orderQ[0].found, orderQ[0].k) != Fails && InTurn(m, parsed)
    ensures Sequential(m, |out| + 1) ==
              if m.verdict(orderQ[0].found, orderQ[0].k) == Continues then Emitting(parsed[..|parsed| - |orderQ| + 1], orderQ[0].k + 1)
              else if |orderQ| == 1 then Parse(m, parsed) else Emitting(parsed[..|parsed| - |orderQ| + 2], 0)
  {
    hide Chunks, Sequential, InTurn, Parse;
    var n := |parsed| - |orderQ|;
    assert parsed[..n + 1][n] == orderQ[0].found;
    SequentialStep(m, |out|, parsed[..n + 1], orderQ[0].k);
    if |orderQ| == 1 { assert parsed[..n + 1] == parsed; } else { ParseTurn(m, parsed, n + 1); }
  }

  lemma SequentialStep(m: Stream, n: nat, blocks: seq<Found>, k: nat)
    requires Sequential(m, n) == Emitting(blocks, k) && blocks != []
    ensures var v := m.verdict(blocks[|blocks| - 1], k);
      Sequential(m, n + 1) == if v == Continues then Emitting(blocks, k + 1) else if v == Completes then Parse(m, blocks) else Broken
  {
    hide Parse;
  }

  lemma ParseTurn(m: Stream, parsed: seq<Found>, i: nat)
    requires InTurn(m, parsed) && i < |parsed|
    ensures Parse(m, parsed[..i]) == Emitting(parsed[..i + 1], 0)
  {
    assert parsed[..i] + [parsed[i]] == parsed[..i + 1];
  }

  lemma OutputFed(m: Stream, s: State, o: Part)
    requires Sensible(m) && Ordered(m, s) && Fed(m, s) && CanOutput(s, o) && m.verdict(s.orderQ[0].found, s.orderQ[0].k) != Fails
    ensures var t := Output(m, s, o);
      forall i :: 0 <= i < |t.orderQ| ==>
        InPipe(m, t.pipe, t.orderQ[i].found.base, t.orderQ[i].k) || (i == |t.orderQ| - 1 && !t.parseToken && !t.parsing)
  {
    hide InPipe, InTurn, Ordered, GuessesFed, OutputOk, FirstPart;
    var t := Output(m, s, o);
    var d := |s.orderQ| - |t.orderQ|;
    forall i | 0 <= i < |t.orderQ| && InPipe(m, s.pipe, s.orderQ[i + d].found.base, s.orderQ[i + d].k)
      ensures InPipe(m, t.pipe, t.orderQ[i].found.base, t.orderQ[i].k)
    {
      OutputFedAt(m, s, o, i + d);
    }
  }

  /** The block at place `i` of those expected does not need the part that is written, except
      the first, which goes on after it. */
  lemma OutputFedAt(m: Stream, s: State, o: Part, i: nat)
    requires Sensible(m) && Ordered(m, s) && CanOutput(s, o) && i < |s.orderQ| && m.verdict(s.orderQ[0].found, s.orderQ[0].k) != Fails
    requires InPipe(m, s.pipe, s.orderQ[i].found.base, s.orderQ[i].k)
    requires i == 0 ==> m.verdict(s.orderQ[0].found, s.orderQ[0].k) == Continues
    ensures InPipe(m, s.pipe.(reordQ := s.pipe.reordQ - multiset{o}), s.orderQ[i].found.base, if i == 0 then s.orderQ[0].k + 1 else s.orderQ[i].k)
  {
    hide InPipe, InTurn, Ordered, FirstPart;
    InTurnOf(m, s);
    OutputIsOk(m, s);
    if i > 0 { Ascending(m, s.parsed, |s.parsed| - |s.orderQ|, |s.parsed| - |s.orderQ| + i); }
    else { GoesOn(m, s.pipe, o.base, o.k); }
    TakenOut(m, s.pipe, s.pipe.(reordQ := s.pipe.reordQ - multiset{o}), o, s.orderQ[i].found.base, if i == 0 then s.orderQ[0].k + 1 else s.orderQ[i].k);
  }

  // ----- retrievers and guesses -----

  lemma SizeOfRest<T>(a: set<T>, b: set<T>)
    requires b <= a
    ensures |a - b| == |a| - |b|
  {
    assert a == (a - b) + b;
  }

  /** Retrievers left behind have started behind the master, or little ahead of it. */
  lemma Dropped(m: Stream, s: State, p: Place, r: Release, j: Job)
    requires JobsOk(m, s.retrQ, s.retrieving, s.nextId) && CanAdvance(s, p, r) && j in r.dropped
    ensures j.base < p.bit + 32 && (32 * p.off < p.bit + 32 ==> j.base < p.bit)
  {
  }

  /** Guesses wait on when some retrievers are given up. */
  lemma StillWait(m: Stream, guesses: map<nat, Guess>, jobs: set<Job>, ids: set<nat>, past: nat, dropped: set<Job>, past': nat)
    requires AllWait(m, guesses, jobs, ids, past) && AllAgree(guesses, jobs) && past <= past' && dropped <= jobs
    requires forall j :: j in dropped ==> j.base < past'
    ensures AllWait(m, guesses, jobs - dropped, ids, past')
  {
    forall id | id in ids ensures Waits(m, guesses, jobs - dropped, id, past') {
      assert Waits(m, guesses, jobs, id, past);
      if !guesses[id].complete && guesses[id].base >= past' {
        var j :| j in jobs && j.guessed && j.id == id;
        assert Agree(guesses, j);
        assert j in jobs - dropped;
      }
    }
  }

  lemma CoursedStill(m: Stream, s: State, t: State)
    requires Coursed(m, s) && t.parsed == s.parsed && t.orderQ == s.orderQ && t.out == s.out && t.failed == s.failed
    requires t.parsingDone == s.parsingDone && (s.unordQ == {} && s.parsingDone ==> t.unordQ == {})
    ensures Coursed(m, t)
  {
    hide OutputOk, InTurn, Sequential;
  }

  /** Retrievers and guesses change, but nothing that counts for the output. */
  lemma FedSame(m: Stream, s: State, t: State)
    requires Fed(m, s) && t.pipe == s.pipe && t.orderQ == s.orderQ && t.parsed == s.parsed
    requires (t.parseToken || t.parsing) == (s.parseToken || s.parsing)
    requires forall id :: id in t.unordQ && id in t.guesses && t.guesses[id].complete ==>
               id in s.unordQ && id in s.guesses && s.guesses[id].complete && t.guesses[id].base == s.guesses[id].base
    ensures Fed(m, t)
  {
    hide InPipe;
  }

  lemma StartParsingInv(m: Stream, s: State)
    requires Sensible(m) && Inv(m, s) && !s.failed && CanParse(s)
    ensures Inv(m, StartParsing(s))
  {
    hide OutputOk, InTurn, Waits, Agree, JobsOk, Sequential, InPipe, GuessesFed;
  }

  lemma StartRetrievingInv(m: Stream, s: State, j: Job)
    requires Sensible(m) && Inv(m, s) && !s.failed && j in s.retrQ
    ensures Inv(m, StartRetrieving(s, j))
  {
    hide Coursed, Fed, Led;
    StartRetrievingLed(m, s, j);
    CoursedStill(m, s, StartRetrieving(s, j));
    FedSame(m, s, StartRetrieving(s, j));
    SizeOfRest(s.retrQ, {j});
    assert j !in s.retrieving by { OnlyOnce(m, s, j); }
  }

  lemma OnlyOnce(m: Stream, s: State, j: Job)
    requires Led(m, s)
    ensures j in s.retrQ ==> j !in s.retrieving
  {
  }

  lemma StartRetrievingLed(m: Stream, s: State, j: Job)
    requires Led(m, s) && j in s.retrQ
    ensures Led(m, StartRetrieving(s, j))
  {
    hide Waits, Agree;
    assert Jobs(StartRetrieving(s, j)) == Jobs(s);
  }

  lemma GiveUpInv(m: Stream, s: State, j: Job)
    requires Sensible(m) && Inv(m, s) && !s.failed && j in s.retrieving && (s.parsingDone || IsDismissed(s.guesses, j))
    ensures Inv(m, GiveUp(s, j))
  {
    hide Coursed, Fed, Led;
    GiveUpLed(m, s, j);
    CoursedStill(m, s, GiveUp(s, j));
    FedSame(m, s, GiveUp(s, j));
    SizeOfRest(s.retrieving, {j});
  }

  lemma GiveUpLed(m: Stream, s: State, j: Job)
    requires Ordered(m, s) && j in s.retrieving && (s.parsingDone || IsDismissed(s.guesses, j))
    ensures Led(m, GiveUp(s, j))
  {
    hide Waits, Coursed;
    GiveUpWait(m, s, j);
  }

  lemma GiveUpWait(m: Stream, s: State, j: Job)
    requires Ordered(m, s) && j in s.retrieving && (s.parsingDone || IsDismissed(s.guesses, j))
    ensures AllWait(m, s.guesses, Jobs(GiveUp(s, j)), s.unordQ, Past(s))
  {
    hide OutputOk, InTurn, Sequential;
    forall id | id in s.unordQ ensures Waits(m, s.guesses, Jobs(GiveUp(s, j)), id, Past(s)) {
      assert Waits(m, s.guesses, Jobs(s), id, Past(s));
      if !s.guesses[id].complete && s.guesses[id].base >= Past(s) {
        var i :| i in Jobs(s) && i.guessed && i.id == id;
        assert i in Jobs(GiveUp(s, j));
      }
    }
  }

  lemma ScanFoundInv(m: Stream, s: State, p: Place)
    requires Sensible(m) && Inv(m, s) && !s.failed && s.scanning > 0 && !s.parsingDone && Short(p)
    ensures Inv(m, ScanFound(s, p))
  {
    hide Coursed, Fed, Led;
    var t := ScanFound(s, p);
    ScanFoundLed(m, s, p);
    CoursedStill(m, s, t);
    FedSame(m, s, t);
    assert Job(s.nextId, p.bit, p, true) !in s.retrQ by { NewJob(m, s, Job(s.nextId, p.bit, p, true)); }
  }

  lemma NewJob(m: Stream, s: State, j: Job)
    requires Led(m, s) && j.id == s.nextId
    ensures j !in s.retrQ && j !in s.retrieving
  {
  }

  lemma ScanFoundLed(m: Stream, s: State, p: Place)
    requires Sensible(m) && Led(m, s) && s.scanning > 0 && !s.parsingDone && Short(p)
    ensures Led(m, ScanFound(s, p))
  {
    hide Waits;
    ScanFoundWait(m, s, p);
  }

  lemma ScanFoundWait(m: Stream, s: State, p: Place)
    requires Led(m, s) && s.scanning > 0
    ensures var t := ScanFound(s, p); AllWait(m, t.guesses, Jobs(t), t.unordQ, Past(t))
  {
    hide OutputOk, InTurn, Sequential;
    var t := ScanFound(s, p);
    forall id | id in t.unordQ ensures Waits(m, t.guesses, Jobs(t), id, Past(t)) {
      if id == s.nextId {
        assert Job(s.nextId, p.bit, p, true) in Jobs(t);
      } else {
        assert Waits(m, s.guesses, Jobs(s), id, Past(s));
        if !s.guesses[id].complete && s.guesses[id].base >= Past(s) {
          var i :| i in Jobs(s) && i.guessed && i.id == id;
          assert i in Jobs(t);
        }
      }
    }
  }

  // ----- steps of the parser -----

  lemma ParseMoreInv(m: Stream, s: State, p: Place, r: Release)
    requires Sensible(m) && Inv(m, s) && !s.failed && ParsedTo(s, p, r)
    ensures Inv(m, ParseMore(s, p, r))
  {
    hide Coursed, Fed, Led;
    var t := ParseMore(s, p, r);
    ParseMoreLed(m, s, p, r);
    ParsedPlaced(m, s, p, r, t);
    CoursedStill(m, s, t);
    FedSame(m, s, t);
    SizeOfRest(s.retrQ, r.dropped);
  }

  lemma ParseMoreLed(m: Stream, s: State, p: Place, r: Release)
    requires Led(m, s) && ParsedTo(s, p, r)
    ensures Led(m, ParseMore(s, p, r))
  {
    hide Waits;
    ParsedToWait(m, s, p, r);
  }

  lemma ParsedToWait(m: Stream, s: State, p: Place, r: Release)
    requires Led(m, s) && ParsedTo(s, p, r)
    ensures AllWait(m, s.guesses, s.retrQ - r.dropped + s.retrieving, s.unordQ, Max(p.bit, s.origin + HEADER_BITS))
  {
    hide OutputOk, InTurn, Sequential, Waits;
    forall j | j in r.dropped ensures j.base < p.bit { Dropped(m, s, p, r, j); }
    StillWait(m, s.guesses, Jobs(s), s.unordQ, Past(s), r.dropped, Max(p.bit, s.origin + HEADER_BITS));
    assert Jobs(s) - r.dropped == s.retrQ - r.dropped + s.retrieving;
  }

  /** Dismissing guesses makes and breaks no masters. */
  lemma DismissJob(guesses: map<nat, Guess>, ids: set<nat>, j: Job)
    requires Agree(guesses, j)
    ensures Agree(Dismiss(guesses, ids), j) && IsMaster(Dismiss(guesses, ids), j) == IsMaster(guesses, j)
  {
  }

  lemma DismissJobs(guesses: map<nat, Guess>, ids: set<nat>, jobs: set<Job>)
    requires AllAgree(guesses, jobs)
    ensures AllAgree(Dismiss(guesses, ids), jobs)
    ensures forall j :: j in jobs ==> IsMaster(Dismiss(guesses, ids), j) == IsMaster(guesses, j)
  {
    forall j | j in jobs ensures Agree(Dismiss(guesses, ids), j) && IsMaster(Dismiss(guesses, ids), j) == IsMaster(guesses, j) {
      DismissJob(guesses, ids, j);
    }
  }

  lemma ParseEndInv(m: Stream, s: State, p: Place, r: Release)
    requires Sensible(m) && Inv(m, s) && !s.failed && ParsedTo(s, p, r) && m.head(s.parsed, s.origin) == End
    ensures Inv(m, ParseEnd(s, p, r))
  {
    hide Coursed, Fed, Led, Dismiss;
    var t := ParseEnd(s, p, r);
    ParseEndLed(m, s, p, r);
    ParseEndPlaced(m, s, p, r);
    ParseEndCoursed(m, s, t);
    FedSame(m, s, t);
    SizeOfRest(s.retrQ, r.dropped);
  }

  lemma ParseEndCoursed(m: Stream, s: State, t: State)
    requires Ordered(m, s) && s.parsing && m.head(s.parsed, s.origin) == End
    requires t.parsed == s.parsed && t.orderQ == s.orderQ && t.out == s.out && t.failed == s.failed && t.unordQ == {}
    ensures Coursed(m, t)
  {
    hide OutputOk, InTurn, Sequential, AllWait, AllAgree, JobsOk;
  }

  lemma ParseEndLed(m: Stream, s: State, p: Place, r: Release)
    requires Led(m, s) && ParsedTo(s, p, r)
    ensures Led(m, ParseEnd(s, p, r))
  {
    hide Waits, Agree, Dismiss, IsMaster, JobsOk;
    DismissJobs(s.guesses, s.unordQ, Jobs(s));
    DismissNumbers(s.guesses, s.unordQ, s.nextId);
    NoneWaits(m, s);
  }

  lemma NoneWaits(m: Stream, s: State)
    requires JobsOk(m, s.retrQ, s.retrieving, s.nextId)
    ensures JobsOk(m, {}, s.retrieving, s.nextId)
  {
  }

  lemma DismissNumbers(guesses: map<nat, Guess>, ids: set<nat>, nextId: nat)
    requires NumbersUsed(guesses, nextId)
    ensures NumbersUsed(Dismiss(guesses, ids), nextId)
  {
  }

  lemma ParseBadInv(m: Stream, s: State)
    requires Sensible(m) && Inv(m, s) && s.parsing && m.head(s.parsed, s.origin) == Bad
    ensures Inv(m, s.(failed := true))
  {
    hide Ordered, InPipe, GuessesFed, IsMaster;
    var t := s.(failed := true);
    StandsAfter(m, s);
    OrderedStill(m, s, t);
  }

  lemma StandsAfter(m: Stream, s: State)
    requires Ordered(m, s) && (s.parsing || s.parseToken)
    ensures s.origin == After(m, s.parsed)
  {
    hide JobsOk, AllAgree, AllWait, Coursed;
  }

  // ----- the parser finds a block -----

  /** One more block. */
  lemma FoundInTurn(m: Stream, parsed: seq<Found>, f: Found)
    requires InTurn(m, parsed) && m.head(parsed, After(m, parsed)) == Header(f)
    ensures InTurn(m, parsed + [f])
  {
    forall i | 0 <= i < |parsed| + 1
      ensures m.head((parsed + [f])[..i], After(m, (parsed + [f])[..i])) == Header((parsed + [f])[i])
    {
      assert (parsed + [f])[..i] == parsed[..i];
      if i == |parsed| { assert parsed[..i] == parsed; }
    }
  }

  lemma FoundOutput(m: Stream, parsed: seq<Found>, f: Found, orderQ: seq<Expected>, out: seq<seq<byte>>)
    requires OutputOk(m, parsed, orderQ, out) && m.head(parsed, After(m, parsed)) == Header(f)
    ensures OutputOk(m, parsed + [f], orderQ + [Expected(f, 0)], out)
  {
    hide Sequential, Chunks;
    var n := |parsed| - |orderQ|;
    if orderQ == [] { assert (parsed + [f])[..n + 1] == parsed + [f]; }
    else { assert (parsed + [f])[..n + 1] == parsed[..n + 1]; }
  }

  lemma FoundCoursed(m: Stream, s: State, f: Found, t: State)
    requires Ordered(m, s) && !s.failed && s.parsing && m.head(s.parsed, s.origin) == Header(f)
    requires t.parsed == s.parsed + [f] && t.orderQ == s.orderQ + [Expected(f, 0)] && t.out == s.out && !t.failed && !t.parsingDone
    ensures Coursed(m, t)
  {
    hide OutputOk, InTurn, Sequential, AllWait, AllAgree, JobsOk;
    FoundInTurn(m, s.parsed, f);
    FoundOutput(m, s.parsed, f, s.orderQ, s.out);
  }

  /** The block is in the pipe, or will be retrieved by the new master. */
  lemma FoundFed(m: Stream, s: State, f: Found, t: State)
    requires Fed(m, s) && s.parsing && t.pipe == s.pipe && t.parsed == s.parsed + [f] && t.orderQ == s.orderQ + [Expected(f, 0)]
    requires t.unordQ <= s.unordQ && !t.parsing && (t.parseToken ==> InPipe(m, s.pipe, f.base, 0))
    requires forall id :: id in t.unordQ && id in t.guesses ==> id in s.guesses && t.guesses[id] == s.guesses[id]
    ensures Fed(m, t)
  {
    hide InPipe;
    forall i | 0 <= i < |t.orderQ|
      ensures InPipe(m, t.pipe, t.orderQ[i].found.base, t.orderQ[i].k) || (i == |t.orderQ| - 1 && !t.parseToken && !t.parsing)
    {
      if i < |s.orderQ| { assert t.orderQ[i] == s.orderQ[i]; }
    }
    FoundGuesses(m, s, f, t);
  }

  lemma FoundGuesses(m: Stream, s: State, f: Found, t: State)
    requires GuessesFed(m, s.guesses, s.unordQ, s.pipe, s.parsed) && t.parsed == s.parsed + [f] && t.unordQ <= s.unordQ
    requires forall id :: id in t.unordQ && id in t.guesses ==> id in s.guesses && t.guesses[id] == s.guesses[id]
    ensures GuessesFed(m, t.guesses, t.unordQ, s.pipe, t.parsed)
  {
    hide InPipe;
    assert forall g :: g in s.parsed ==> g in t.parsed;
  }

  lemma Kept(guesses: map<nat, Guess>, ids: set<nat>, b: nat, id: nat)
    requires id in ids - Behind(guesses, ids, b) && id in guesses
    ensures Dismiss(guesses, Behind(guesses, ids, b))[id] == guesses[id] && guesses[id].base >= b
  {
  }

  lemma KeptRight(guesses: map<nat, Guess>, ids: set<nat>, id: nat)
    requires id in guesses
    ensures var g := Dismiss(guesses, Behind(guesses, ids, guesses[id].base)); id in g && g[id] == guesses[id]
  {
  }

  /** Guesses that are not dismissed are complete, or still followed. */
  lemma FoundWait(m: Stream, s: State, f: Found, p: Place, r: Release)
    requires Sensible(m) && Led(m, s) && Finds(m, s, f, p, r)
    ensures var behind := Behind(s.guesses, s.unordQ, p.bit);
      AllWait(m, Dismiss(s.guesses, behind), s.retrQ - r.dropped + s.retrieving, s.unordQ - behind, 0)
  {
    hide Waits, Dismiss, Behind, Agree;
    ParsedToWait(m, s, p, r);
    var behind := Behind(s.guesses, s.unordQ, p.bit);
    var jobs := s.retrQ - r.dropped + s.retrieving;
    var past := Max(p.bit, s.origin + HEADER_BITS);
    forall id | id in s.unordQ - behind ensures Waits(m, Dismiss(s.guesses, behind), jobs, id, 0) {
      assert Waits(m, s.guesses, jobs, id, past);
      KeptWaits(m, s.guesses, s.unordQ, p.bit, jobs, id, past);
    }
  }

  lemma KeptWaits(m: Stream, guesses: map<nat, Guess>, ids: set<nat>, b: nat, jobs: set<Job>, id: nat, past: nat)
    requires id in ids - Behind(guesses, ids, b) && Waits(m, guesses, jobs, id, past) && past <= b
    ensures Waits(m, Dismiss(guesses, Behind(guesses, ids, b)), jobs, id, 0)
  {
    Kept(guesses, ids, b, id);
  }

  /** Guesses go on waiting with more retrievers, or a later position. */
  lemma WaitMore(m: Stream, guesses: map<nat, Guess>, jobs: set<Job>, jobs': set<Job>, ids: set<nat>, past: nat, past': nat)
    requires AllWait(m, guesses, jobs, ids, past) && jobs <= jobs' && past <= past'
    ensures AllWait(m, guesses, jobs', ids, past')
  {
    forall id | id in ids ensures Waits(m, guesses, jobs', id, past') {
      assert Waits(m, guesses, jobs, id, past);
      if Followed(jobs, id) {
        var j :| j in jobs && j.guessed && j.id == id;
        assert j in jobs';
      }
    }
  }

  lemma ParseNewInv(m: Stream, s: State, f: Found, p: Place, r: Release)
    requires Sensible(m) && Inv(m, s) && !s.failed && Finds(m, s, f, p, r)
    ensures Inv(m, ParseNew(s, f, p, r))
  {
    hide Coursed, Fed, Led, Dismiss, Behind, InPipe;
    var t := ParseNew(s, f, p, r);
    NotDone(m, s);
    ParseNewLed(m, s, f, p, r);
    ParseNewPlaced(m, s, f, p, r);
    FoundCoursed(m, s, f, t);
    forall id | id in t.unordQ && id in t.guesses ensures id in s.guesses && t.guesses[id] == s.guesses[id] {
      DismissKeys(s.guesses, Behind(s.guesses, s.unordQ, p.bit));
      Kept(s.guesses, s.unordQ, p.bit, id);
    }
    FoundFed(m, s, f, t);
    SizeOfRest(s.retrQ, r.dropped);
    assert Job(s.nextId, p.bit, p, false) !in s.retrQ by { NewJob(m, s, Job(s.nextId, p.bit, p, false)); }
  }

  lemma DismissKeys(guesses: map<nat, Guess>, ids: set<nat>)
    ensures Dismiss(guesses, ids).Keys == guesses.Keys
  {
  }

  lemma NotDone(m: Stream, s: State)
    requires Led(m, s) && s.parsing
    ensures !s.parsingDone && !s.parseToken
  {
  }

  lemma ParseNewLed(m: Stream, s: State, f: Found, p: Place, r: Release)
    requires Sensible(m) && Led(m, s) && Finds(m, s, f, p, r)
    ensures Led(m, ParseNew(s, f, p, r))
  {
    hide Waits, Agree, Dismiss, Behind, IsMaster, AllWait, JobsOk;
    var t := ParseNew(s, f, p, r);
    var behind := Behind(s.guesses, s.unordQ, p.bit);
    DismissJobs(s.guesses, behind, Jobs(s));
    DismissNumbers(s.guesses, behind, s.nextId);
    FoundWait(m, s, f, p, r);
    WaitMore(m, t.guesses, s.retrQ - r.dropped + s.retrieving, Jobs(t), t.unordQ, 0, Past(t));
    var j := Job(s.nextId, p.bit, p, false);
    ParseNewJobs(m, s, f, p, r);
    NewIsMaster(t.guesses, j);
    assert TheMaster(t.guesses, Jobs(t), j);
  }

  lemma NewIsMaster(guesses: map<nat, Guess>, j: Job)
    requires !j.guessed
    ensures IsMaster(guesses, j) && Agree(guesses, j)
  {
  }

  lemma ParseNewJobs(m: Stream, s: State, f: Found, p: Place, r: Release)
    requires Sensible(m) && JobsOk(m, s.retrQ, s.retrieving, s.nextId) && Finds(m, s, f, p, r)
    ensures var t := ParseNew(s, f, p, r); JobsOk(m, t.retrQ, t.retrieving, t.nextId)
  {
    hide Dismiss, Behind;
  }

  /** What the parser needs to know of the guess it takes. */
  lemma RightGuess(m: Stream, s: State, f: Found, p: Place, r: Release, id: nat, r': Release)
    requires Sensible(m) && Led(m, s) && Finds(m, s, f, p, r) && GuessedRight(s, p, r, id, r')
    ensures Buffered(s.guesses[id].at)
    ensures if s.guesses[id].complete then s.guesses[id].at.bit == m.end(p.bit)
            else exists j :: j in Jobs(s) - r.dropped - r'.dropped && j.guessed && j.id == id && j.base == p.bit
  {
    assert Waits(m, s.guesses, Jobs(s), id, Past(s));
    if !s.guesses[id].complete {
      var j :| j in Jobs(s) && j.guessed && j.id == id;
      assert Agree(s.guesses, j);
      if j in r.dropped { Dropped(m, s, p, r, j); assert false; }
    }
  }

  lemma ParseGuessedInv(m: Stream, s: State, f: Found, p: Place, r: Release, id: nat, r': Release)
    requires Sensible(m) && Inv(m, s) && !s.failed && Finds(m, s, f, p, r) && GuessedRight(s, p, r, id, r')
    ensures Inv(m, ParseGuessed(s, f, p, r, id, r'))
  {
    hide Coursed, Fed, Led, Dismiss, Behind, InPipe, Accounts, Placed;
    var t := ParseGuessed(s, f, p, r, id, r');
    NotDone(m, s);
    ParseGuessedLed(m, s, f, p, r, id, r');
    ParseGuessedPlaced(m, s, f, p, r, id, r');
    FoundCoursed(m, s, f, t);
    ParseGuessedFed(m, s, f, p, r, id, r');
    ParseGuessedAccounts(m, s, f, p, r, id, r');
  }

  lemma ParseGuessedAccounts(m: Stream, s: State, f: Found, p: Place, r: Release, id: nat, r': Release)
    requires Accounts(s) && Finds(m, s, f, p, r) && GuessedRight(s, p, r, id, r')
    ensures Accounts(ParseGuessed(s, f, p, r, id, r'))
  {
    hide ParseGuessed;
    ParseGuessedCounts(s, f, p, r, id, r');
    SizeOfRest(s.retrQ, r.dropped);
    SizeOfRest(s.retrQ - r.dropped, r'.dropped);
  }

  lemma ParseGuessedCounts(s: State, f: Found, p: Place, r: Release, id: nat, r': Release)
    requires r.dropped <= s.retrQ && r'.dropped <= s.retrQ - r.dropped && id in s.guesses
    ensures var t := ParseGuessed(s, f, p, r, id, r');
      && t.retrQ == s.retrQ - r.dropped - r'.dropped && t.workUnits == s.workUnits + |r.dropped| + |r'.dropped| + 1 && !t.parsing
      && t.retrieving == s.retrieving && t.scanning == s.scanning && t.pipe == s.pipe && t.outSlots == s.outSlots && t.sink == s.sink
  {
    hide Dismiss, Behind;
  }

  lemma ParseGuessedFed(m: Stream, s: State, f: Found, p: Place, r: Release, id: nat, r': Release)
    requires Sensible(m) && Inv(m, s) && Finds(m, s, f, p, r) && GuessedRight(s, p, r, id, r')
    ensures Fed(m, ParseGuessed(s, f, p, r, id, r'))
  {
    hide Coursed, Fed, Led, Dismiss, Behind, InPipe, Accounts, Placed;
    var t := ParseGuessed(s, f, p, r, id, r');
    NotDone(m, s);
    forall i | i in t.unordQ && i in t.guesses ensures i in s.guesses && t.guesses[i] == s.guesses[i] {
      DismissKeys(s.guesses, Behind(s.guesses, s.unordQ, p.bit));
      Kept(s.guesses, s.unordQ, p.bit, i);
    }
    if t.parseToken { GuessInPipe(m, s, f, p, r, id, r'); }
    FoundFed(m, s, f, t);
  }

  lemma GuessInPipe(m: Stream, s: State, f: Found, p: Place, r: Release, id: nat, r': Release)
    requires Sensible(m) && Inv(m, s) && Finds(m, s, f, p, r) && GuessedRight(s, p, r, id, r') && s.guesses[id].complete
    ensures InPipe(m, s.pipe, f.base, 0)
  {
    hide InPipe, AllWait, AllAgree, JobsOk, OutputOk;
    FoundInTurn(m, s.parsed, f);
    forall g | g in s.parsed ensures g.base < f.base {
      var i :| 0 <= i < |s.parsed| && s.parsed[i] == g;
      Ascending(m, s.parsed + [f], i, |s.parsed|);
    }
  }

  lemma ParseGuessedLed(m: Stream, s: State, f: Found, p: Place, r: Release, id: nat, r': Release)
    requires Sensible(m) && Led(m, s) && Finds(m, s, f, p, r) && GuessedRight(s, p, r, id, r')
    ensures Led(m, ParseGuessed(s, f, p, r, id, r'))
  {
    hide Waits, Agree, Dismiss, Behind, IsMaster, AllWait, JobsOk, Buffered;
    var t := ParseGuessed(s, f, p, r, id, r');
    var behind := Behind(s.guesses, s.unordQ, p.bit);
    DismissJobs(s.guesses, behind, Jobs(s));
    DismissNumbers(s.guesses, behind, s.nextId);
    ParseGuessedJobs(m, s, f, p, r, id, r');
    ParseGuessedWait(m, s, f, p, r, id, r');
    RightGuess(m, s, f, p, r, id, r');
    if !s.guesses[id].complete {
      var j :| j in Jobs(s) - r.dropped - r'.dropped && j.guessed && j.id == id && j.base == p.bit;
      DismissKeys(s.guesses, behind);
      KeptRight(s.guesses, s.unordQ, id);
      BecomesMaster(m, s, Dismiss(s.guesses, behind), t.guesses, Jobs(t), j);
    }
  }

  /** The retriever of the guess becomes the one master. */
  lemma BecomesMaster(m: Stream, s: State, g: map<nat, Guess>, h: map<nat, Guess>, jobs: set<Job>, j: Job)
    requires JobsOk(m, s.retrQ, s.retrieving, s.nextId) && jobs <= Jobs(s) && j in jobs && j.guessed && j.id in g
    requires AllAgree(g, jobs) && forall i :: i in jobs ==> !IsMaster(g, i)
    requires j.id in h && h == g[j.id := h[j.id]] && h[j.id].complete && h[j.id].legitimate && h[j.id].base == g[j.id].base
    ensures TheMaster(h, jobs, j) && AllAgree(h, jobs)
  {
    forall i | i in jobs ensures Agree(h, i) && (IsMaster(h, i) ==> i == j) {
      assert Agree(g, i);
    }
  }

  lemma ParseGuessedJobs(m: Stream, s: State, f: Found, p: Place, r: Release, id: nat, r': Release)
    requires JobsOk(m, s.retrQ, s.retrieving, s.nextId) && Finds(m, s, f, p, r) && GuessedRight(s, p, r, id, r')
    ensures var t := ParseGuessed(s, f, p, r, id, r');
      JobsOk(m, t.retrQ, t.retrieving, t.nextId) && Jobs(t) == Jobs(s) - r.dropped - r'.dropped
  {
    hide JobsOk, Dismiss, Behind;
    var t := ParseGuessed(s, f, p, r, id, r');
    assert s.retrQ - r.dropped - r'.dropped == s.retrQ - (r.dropped + r'.dropped);
    assert t.retrQ == s.retrQ - r.dropped - r'.dropped && t.retrieving == s.retrieving && t.nextId == s.nextId;
    DroppedJobs(m, s.retrQ, s.retrieving, s.nextId, r.dropped + r'.dropped);
  }

  lemma DroppedJobs(m: Stream, retrQ: set<Job>, retrieving: set<Job>, nextId: nat, dropped: set<Job>)
    requires JobsOk(m, retrQ, retrieving, nextId) && dropped <= retrQ
    ensures JobsOk(m, retrQ - dropped, retrieving, nextId) && retrQ - dropped + retrieving == retrQ + retrieving - dropped
  {
  }

  lemma ParseGuessedWait(m: Stream, s: State, f: Found, p: Place, r: Release, id: nat, r': Release)
    requires Sensible(m) && Led(m, s) && Finds(m, s, f, p, r) && GuessedRight(s, p, r, id, r')
    ensures var t := ParseGuessed(s, f, p, r, id, r'); AllWait(m, t.guesses, Jobs(t), t.unordQ, Past(t))
  {
    hide Waits, Agree, Dismiss, Behind, IsMaster;
    var t := ParseGuessed(s, f, p, r, id, r');
    var behind := Behind(s.guesses, s.unordQ, p.bit);
    var g := Dismiss(s.guesses, behind);
    var jobs := s.retrQ - r.dropped + s.retrieving;
    FoundWait(m, s, f, p, r);
    DismissJobs(s.guesses, behind, Jobs(s));
    var at := s.guesses[id].at;
    var u := FindBlock(s, f, p, r);
    forall j | j in r'.dropped ensures j.base < at.bit + 32 { Dropped(m, u, at, r', j); }
    StillWait(m, g, jobs, s.unordQ - behind, 0, r'.dropped, Past(t));
    assert jobs - r'.dropped == Jobs(t) by { OnlyWaiting(m, s, r'.dropped); }
    WaitOther(m, g, t.guesses, Jobs(t), s.unordQ - behind, id, Past(t));
  }

  lemma OnlyWaiting(m: Stream, s: State, dropped: set<Job>)
    requires Led(m, s) && dropped <= s.retrQ
    ensures dropped !! s.retrieving
  {
  }

  lemma WaitOther(m: Stream, g: map<nat, Guess>, h: map<nat, Guess>, jobs: set<Job>, ids: set<nat>, id: nat, past: nat)
    requires AllWait(m, g, jobs, ids, past) && forall i :: i in g && i != id ==> i in h && h[i] == g[i]
    ensures AllWait(m, h, jobs, ids - {id}, past)
  {
    forall i | i in ids - {id} ensures Waits(m, h, jobs, i, past) {
      assert Waits(m, g, jobs, i, past);
    }
  }

  // ----- steps of the retrievers -----

  /** A retriever that is the master works for the last block found, and the parser does
      not run; one that is not has an incomplete guess. */
  lemma MasterWorks(m: Stream, s: State, j: Job)
    requires Led(m, s) && j in s.retrieving && !IsDismissed(s.guesses, j)
    ensures if IsMaster(s.guesses, j) then
              !s.parseToken && !s.parsing && s.parsed != [] && j.base == s.parsed[|s.parsed| - 1].base
              && forall i :: i in Jobs(s) && IsMaster(s.guesses, i) ==> i == j
            else j.guessed && j.id in s.guesses && !s.guesses[j.id].complete && s.guesses[j.id].base == j.base
  {
    hide Waits;
    if !IsMaster(s.guesses, j) { assert Agree(s.guesses, j); }
    assert j in Jobs(s);
  }

  /** The retriever is where it says; its number stays with it. */
  lemma ReplaceJobs(m: Stream, s: State, j: Job, p: Place, dropped: set<Job>)
    requires JobsOk(m, s.retrQ, s.retrieving, s.nextId) && j in s.retrieving && Short(p) && j.at.bit <= p.bit <= m.end(j.base)
    ensures JobsOk(m, s.retrQ - dropped + {j.(at := p)}, s.retrieving - {j}, s.nextId)
  {
  }

  /** A guess in the queue is followed by what the retriever has become. */
  lemma ReplaceWait(m: Stream, g: map<nat, Guess>, h: map<nat, Guess>, jobs: set<Job>, jobs': set<Job>, ids: set<nat>, j: Job, p: Place, past: nat)
    requires AllWait(m, g, jobs, ids, past) && jobs' == jobs - {j} + {j.(at := p)}
    requires h == g || (j.id in g && !g[j.id].complete && h == g[j.id := g[j.id].(at := p)])
    ensures AllWait(m, h, jobs', ids, past)
  {
    forall id | id in ids ensures Waits(m, h, jobs', id, past) {
      assert Waits(m, g, jobs, id, past);
      if Followed(jobs, id) {
        var i :| i in jobs && i.guessed && i.id == id;
        assert (if i == j then j.(at := p) else i) in jobs';
      }
    }
  }

  /** Retrievers and guesses agree after a report. */
  lemma ReplaceAgree(m: Stream, s: State, h: map<nat, Guess>, jobs: set<Job>, j: Job, p: Place)
    requires JobsOk(m, s.retrQ, s.retrieving, s.nextId) && AllAgree(s.guesses, Jobs(s)) && j in Jobs(s) && jobs <= Jobs(s)
    requires if IsMaster(s.guesses, j) then h == s.guesses
             else j.id in s.guesses && !s.guesses[j.id].complete && h == s.guesses[j.id := s.guesses[j.id].(at := p)]
    ensures AllAgree(h, jobs - {j} + {j.(at := p)})
    ensures forall i :: i in jobs ==> IsMaster(h, i) == IsMaster(s.guesses, i)
    ensures IsMaster(h, j.(at := p)) == IsMaster(s.guesses, j)
  {
    assert Agree(s.guesses, j);
    forall i | i in jobs - {j} ensures Agree(h, i) { assert Agree(s.guesses, i); }
  }

  /** The guesses after a report. */
  function Told(guesses: map<nat, Guess>, j: Job, p: Place): map<nat, Guess> {
    if IsMaster(guesses, j) || j.id !in guesses then guesses else guesses[j.id := guesses[j.id].(at := p)]
  }

  /** The retrievers given up for a report. */
  function GivenUp(s: State, j: Job, r: Release): set<Job> {
    if IsMaster(s.guesses, j) then r.dropped else {}
  }

  lemma ReportWait(m: Stream, s: State, j: Job, p: Place, r: Release)
    requires Sensible(m) && Led(m, s) && RetrievedTo(m, s, j, p, r)
    ensures AllWait(m, s.guesses, Jobs(s) - GivenUp(s, j, r), s.unordQ, if IsMaster(s.guesses, j) then p.bit + 32 else Past(s))
  {
    hide Waits, Agree, IsMaster;
    MasterWorks(m, s, j);
    if IsMaster(s.guesses, j) {
      forall i | i in r.dropped ensures i.base < p.bit + 32 { Dropped(m, s, p, r, i); }
      StillWait(m, s.guesses, Jobs(s), s.unordQ, Past(s), r.dropped, p.bit + 32);
    } else {
      assert Jobs(s) - {} == Jobs(s);
    }
  }

  lemma ReportMore(s: State, j: Job, p: Place, r: Release)
    requires r.dropped <= s.retrQ && (IsMaster(s.guesses, j) || j.id in s.guesses) && s.retrQ !! s.retrieving && j in s.retrieving
    ensures var t := RetrieveMore(s, j, p, r);
      && Jobs(t) == Jobs(s) - GivenUp(s, j, r) - {j} + {j.(at := p)}
      && t.retrQ == s.retrQ - GivenUp(s, j, r) + {j.(at := p)} && t.retrieving == s.retrieving - {j}
      && t.guesses == Told(s.guesses, j, p)
      && t == s.(parser := t.parser, headOff := t.headOff, retrQ := t.retrQ, retrieving := t.retrieving, guesses := t.guesses,
                 workUnits := s.workUnits + |GivenUp(s, j, r)|)
      && t.parser == (if IsMaster(s.guesses, j) then p else s.parser)
      && t.headOff == if IsMaster(s.guesses, j) then r.headOff else s.headOff
  {
    hide IsMaster;
    assert r.dropped !! s.retrieving;
    var t := RetrieveMore(s, j, p, r);
    assert s.retrQ - {} == s.retrQ;
    assert Jobs(t) == Jobs(s) - GivenUp(s, j, r) - {j} + {j.(at := p)};
  }

  lemma RetrieveMoreInv(m: Stream, s: State, p: Place, r: Release, j: Job)
    requires Sensible(m) && Inv(m, s) && !s.failed && RetrievedTo(m, s, j, p, r) && Short(p)
    ensures Inv(m, RetrieveMore(s, j, p, r))
  {
    hide Coursed, Fed, Led, IsMaster, RetrieveMore, GivenUp, Told;
    var t := RetrieveMore(s, j, p, r);
    JobsApart(m, s);
    ReportMore(s, j, p, r);
    MasterWorks(m, s, j);
    RetrieveMoreLed(m, s, p, r, j);
    RetrieveMorePlaced(m, s, p, r, j);
    CoursedStill(m, s, t);
    ToldGuesses(s.guesses, j, p);
    FedSame(m, s, t);
    MoreAccounts(m, s, p, r, j);
  }

  lemma MoreAccounts(m: Stream, s: State, p: Place, r: Release, j: Job)
    requires Sensible(m) && Led(m, s) && Accounts(s) && RetrievedTo(m, s, j, p, r)
    ensures Accounts(RetrieveMore(s, j, p, r))
  {
    hide Led, IsMaster, RetrieveMore;
    JobsApart(m, s);
    ReportMore(s, j, p, r);
    RetrieveMoreSize(m, s, p, r, j);
  }

  lemma ToldGuesses(guesses: map<nat, Guess>, j: Job, p: Place)
    ensures var h := Told(guesses, j, p); h.Keys == guesses.Keys && forall id :: id in h ==> h[id].base == guesses[id].base && h[id].complete == guesses[id].complete
  {
  }

  lemma JobsApart(m: Stream, s: State)
    requires Led(m, s)
    ensures s.retrQ !! s.retrieving
  {
  }

  lemma OneNumber(m: Stream, s: State, j: Job, i: Job)
    requires Led(m, s) && j in s.retrieving && i.id == j.id
    ensures i !in s.retrQ
  {
  }

  lemma RetrieveMoreSize(m: Stream, s: State, p: Place, r: Release, j: Job)
    requires Sensible(m) && Led(m, s) && RetrievedTo(m, s, j, p, r)
    ensures var t := RetrieveMore(s, j, p, r); t.workUnits + |t.retrQ| + |t.retrieving| == s.workUnits + |s.retrQ| + |s.retrieving|
  {
    hide Led, IsMaster, RetrieveMore;
    var d := GivenUp(s, j, r);
    JobsApart(m, s);
    ReportMore(s, j, p, r);
    SizeOfRest(s.retrQ, d);
    SizeOfRest(s.retrieving, {j});
    OneNumber(m, s, j, j.(at := p));
  }

  lemma RetrieveMoreLed(m: Stream, s: State, p: Place, r: Release, j: Job)
    requires Sensible(m) && Led(m, s) && RetrievedTo(m, s, j, p, r) && Short(p)
    ensures Led(m, RetrieveMore(s, j, p, r))
  {
    hide Waits, Agree, IsMaster, AllWait, AllAgree, JobsOk, RetrieveMore;
    var t := RetrieveMore(s, j, p, r);
    var jobs := Jobs(s) - GivenUp(s, j, r);
    JobsApart(m, s);
    ReportMore(s, j, p, r);
    MasterWorks(m, s, j);
    ReplaceJobs(m, s, j, p, GivenUp(s, j, r));
    ReportWait(m, s, j, p, r);
    ReplaceWait(m, s.guesses, t.guesses, jobs, Jobs(t), s.unordQ, j, p, Past(t));
    ReplaceAgree(m, s, t.guesses, jobs, j, p);
    ToldGuesses(s.guesses, j, p);
    ToldNumbers(s, j, p);
    if IsMaster(s.guesses, j) { assert TheMaster(t.guesses, Jobs(t), j.(at := p)); }
    else if !s.parseToken && !s.parsing { StillMaster(s, t, j); }
  }

  lemma ToldNumbers(s: State, j: Job, p: Place)
    requires NumbersUsed(s.guesses, s.nextId)
    ensures NumbersUsed(Told(s.guesses, j, p), s.nextId)
  {
  }

  lemma StillMaster(s: State, t: State, j: Job)
    requires exists i :: TheMaster(s.guesses, Jobs(s), i) && s.parsed != [] && i.base == s.parsed[|s.parsed| - 1].base
    requires !IsMaster(s.guesses, j) && t.parsed == s.parsed
    requires exists k :: Jobs(t) == Jobs(s) - {j} + {k} && !IsMaster(t.guesses, k)
    requires forall i :: i in Jobs(s) ==> IsMaster(t.guesses, i) == IsMaster(s.guesses, i)
    ensures exists i :: TheMaster(t.guesses, Jobs(t), i) && i.base == t.parsed[|t.parsed| - 1].base
  {
    hide IsMaster;
    var i :| TheMaster(s.guesses, Jobs(s), i) && s.parsed != [] && i.base == s.parsed[|s.parsed| - 1].base;
    assert TheMaster(t.guesses, Jobs(t), i);
  }

  /** The retriever's block enters the pipe. */
  lemma EntersPipe(m: Stream, p: Pipe, b: nat)
    ensures StaysInPipe(m, p, p.(decoding := p.decoding + multiset{b}))
    ensures forall i: nat :: InPipe(m, p.(decoding := p.decoding + multiset{b}), b, i)
  {
    var q := p.(decoding := p.decoding + multiset{b});
    forall c: nat, i: nat | InPipe(m, p, c, i) ensures InPipe(m, q, c, i) {
      var k: nat :| Ready(p.reordQ, c, i, k) && (Producing(p, c, k) || (k > i && !m.more(c, k - 1)));
      assert Ready(q.reordQ, c, i, k);
    }
    forall i: nat ensures InPipe(m, q, b, i) {
      assert Ready(q.reordQ, b, i, 0) && Producing(q, b, 0);
    }
  }

  /** The guesses after a retriever is done. */
  function Completed(guesses: map<nat, Guess>, j: Job, p: Place): map<nat, Guess> {
    var h := Told(guesses, j, p);
    if IsMaster(guesses, j) || j.id !in h then h else h[j.id := h[j.id].(complete := true)]
  }

  lemma ReportDone(s: State, j: Job, p: Place, r: Release)
    requires r.dropped <= s.retrQ && (IsMaster(s.guesses, j) || j.id in s.guesses) && s.retrQ !! s.retrieving && j in s.retrieving
    ensures var t := RetrieveDone(s, j, p, r);
      && Jobs(t) == Jobs(s) - GivenUp(s, j, r) - {j}
      && t.retrQ == s.retrQ - GivenUp(s, j, r) && t.retrieving == s.retrieving - {j}
      && t.guesses == Completed(s.guesses, j, p)
      && t == s.(parser := t.parser, headOff := t.headOff, retrQ := t.retrQ, retrieving := t.retrieving, guesses := t.guesses,
                 pipe := t.pipe, parseToken := t.parseToken, origin := t.origin, workUnits := s.workUnits + |GivenUp(s, j, r)|)
      && t.pipe == s.pipe.(decoding := s.pipe.decoding + multiset{j.base})
      && (if IsMaster(s.guesses, j) then t.parser == p && t.headOff == r.headOff && t.parseToken && t.origin == p.bit
          else t.parser == s.parser && t.headOff == s.headOff && t.parseToken == s.parseToken && t.origin == s.origin)
  {
    hide IsMaster;
    assert r.dropped !! s.retrieving;
    var t := RetrieveDone(s, j, p, r);
    assert s.retrQ - {} == s.retrQ;
    assert Jobs(t) == Jobs(s) - GivenUp(s, j, r) - {j};
  }

  lemma RetrieveDoneInv(m: Stream, s: State, p: Place, r: Release, j: Job)
    requires Sensible(m) && Inv(m, s) && !s.failed && RetrievedTo(m, s, j, p, r) && p.bit == m.end(j.base)
    ensures Inv(m, RetrieveDone(s, j, p, r))
  {
    hide Coursed, Fed, Led, IsMaster, RetrieveDone, Completed;
    var t := RetrieveDone(s, j, p, r);
    JobsApart(m, s);
    ReportDone(s, j, p, r);
    MasterWorks(m, s, j);
    RetrieveDoneLed(m, s, p, r, j);
    RetrieveDonePlaced(m, s, p, r, j);
    CoursedStill(m, s, t);
    RetrieveDoneFed(m, s, p, r, j);
    DoneAccounts(s, p, r, j);
  }

  lemma DoneAccounts(s: State, p: Place, r: Release, j: Job)
    requires r.dropped <= s.retrQ && (IsMaster(s.guesses, j) || j.id in s.guesses) && s.retrQ !! s.retrieving && j in s.retrieving
    requires Accounts(s)
    ensures Accounts(RetrieveDone(s, j, p, r))
  {
    hide IsMaster, RetrieveDone, Completed;
    ReportDone(s, j, p, r);
    SizeOfRest(s.retrQ, GivenUp(s, j, r));
    SizeOfRest(s.retrieving, {j});
  }

  lemma RetrieveDoneFed(m: Stream, s: State, p: Place, r: Release, j: Job)
    requires Sensible(m) && Inv(m, s) && RetrievedTo(m, s, j, p, r)
    ensures Fed(m, RetrieveDone(s, j, p, r))
  {
    hide Led, IsMaster, RetrieveDone, Completed, InPipe, Fed, OutputOk, Agree, AllWait;
    var t := RetrieveDone(s, j, p, r);
    JobsApart(m, s);
    ReportDone(s, j, p, r);
    MasterWorks(m, s, j);
    DoneFed(m, s, t.pipe, j);
    OutputIsOk(m, s);
    if IsMaster(s.guesses, j) { LastExpected(m, s, t.pipe, j.base); }
    FedDone(m, s.(pipe := t.pipe), t, p, j);
  }

  lemma FedDone(m: Stream, s: State, t: State, p: Place, j: Job)
    requires Fed(m, s) && t.pipe == s.pipe && t.orderQ == s.orderQ && t.parsed == s.parsed && t.unordQ == s.unordQ && t.parsing == s.parsing
    requires t.parseToken == s.parseToken || (s.orderQ != [] ==> InPipe(m, s.pipe, s.orderQ[|s.orderQ| - 1].found.base, s.orderQ[|s.orderQ| - 1].k))
    requires InPipe(m, s.pipe, j.base, 0) && t.guesses == Completed(s.guesses, j, p)
    requires IsMaster(s.guesses, j) || (j.id in s.guesses && s.guesses[j.id].base == j.base)
    ensures Fed(m, t)
  {
    hide IsMaster, Completed, InPipe, GuessesFed;
    FedGuesses(m, s);
    DoneGuesses(m, s, p, j, t.pipe);
  }

  lemma FedGuesses(m: Stream, s: State)
    requires Fed(m, s)
    ensures GuessesFed(m, s.guesses, s.unordQ, s.pipe, s.parsed)
  {
  }

  lemma DoneFed(m: Stream, s: State, pipe: Pipe, j: Job)
    requires Sensible(m) && Inv(m, s) && pipe == s.pipe.(decoding := s.pipe.decoding + multiset{j.base})
    ensures Fed(m, s.(pipe := pipe)) && forall i: nat :: InPipe(m, pipe, j.base, i)
  {
    hide Led, InPipe, Fed, OutputOk, StaysInPipe;
    EntersPipe(m, s.pipe, j.base);
    OutputIsOk(m, s);
    FedStill(m, s, s.(pipe := pipe));
  }

  /** The last block expected is the one last found. */
  lemma LastExpected(m: Stream, s: State, pipe: Pipe, b: nat)
    requires OutputOk(m, s.parsed, s.orderQ, s.out) && s.parsed != [] && s.parsed[|s.parsed| - 1].base == b
    requires forall i: nat :: InPipe(m, pipe, b, i)
    ensures s.orderQ != [] ==> InPipe(m, pipe, s.orderQ[|s.orderQ| - 1].found.base, s.orderQ[|s.orderQ| - 1].k)
  {
    hide InPipe, Sequential, Chunks;
  }

  lemma DoneGuesses(m: Stream, s: State, p: Place, j: Job, pipe: Pipe)
    requires GuessesFed(m, s.guesses, s.unordQ, pipe, s.parsed) && InPipe(m, pipe, j.base, 0)
    requires IsMaster(s.guesses, j) || (j.id in s.guesses && s.guesses[j.id].base == j.base)
    ensures GuessesFed(m, Completed(s.guesses, j, p), s.unordQ, pipe, s.parsed)
  {
    hide InPipe, IsMaster;
  }

  lemma RetrieveDoneLed(m: Stream, s: State, p: Place, r: Release, j: Job)
    requires Sensible(m) && Led(m, s) && RetrievedTo(m, s, j, p, r) && p.bit == m.end(j.base)
    ensures Led(m, RetrieveDone(s, j, p, r))
  {
    hide Waits, Agree, IsMaster, AllWait, JobsOk, RetrieveDone, Completed;
    var t := RetrieveDone(s, j, p, r);
    var jobs := Jobs(s) - GivenUp(s, j, r);
    JobsApart(m, s);
    ReportDone(s, j, p, r);
    MasterWorks(m, s, j);
    FewerJobs(m, s, j, GivenUp(s, j, r));
    ReportWait(m, s, j, p, r);
    DoneWait(m, s, t.guesses, jobs, j, p, if IsMaster(s.guesses, j) then p.bit + 32 else Past(s), Past(t));
    DoneAgree(m, s, j, p);
    DoneNumbers(s, j, p);
    if !IsMaster(s.guesses, j) && !s.parseToken && !s.parsing { MasterStays(s, t, j); }
  }

  lemma FewerJobs(m: Stream, s: State, j: Job, dropped: set<Job>)
    requires JobsOk(m, s.retrQ, s.retrieving, s.nextId)
    ensures JobsOk(m, s.retrQ - dropped, s.retrieving - {j}, s.nextId)
  {
  }

  lemma DoneNumbers(s: State, j: Job, p: Place)
    requires NumbersUsed(s.guesses, s.nextId)
    ensures NumbersUsed(Completed(s.guesses, j, p), s.nextId)
  {
    hide IsMaster;
  }

  lemma DoneAgree(m: Stream, s: State, j: Job, p: Place)
    requires JobsOk(m, s.retrQ, s.retrieving, s.nextId) && AllAgree(s.guesses, Jobs(s)) && j in Jobs(s)
    ensures AllAgree(Completed(s.guesses, j, p), Jobs(s) - {j})
    ensures forall i :: i in Jobs(s) - {j} ==> IsMaster(Completed(s.guesses, j, p), i) == IsMaster(s.guesses, i)
  {
    forall i | i in Jobs(s) - {j}
      ensures Agree(Completed(s.guesses, j, p), i) && IsMaster(Completed(s.guesses, j, p), i) == IsMaster(s.guesses, i)
    {
      assert Agree(s.guesses, i);
    }
  }

  lemma DoneWait(m: Stream, s: State, h: map<nat, Guess>, jobs: set<Job>, j: Job, p: Place, past: nat, past': nat)
    requires AllWait(m, s.guesses, jobs, s.unordQ, past) && past <= past' && Buffered(p) && p.bit == m.end(j.base)
    requires IsMaster(s.guesses, j) || (j.id in s.guesses && s.guesses[j.id].base == j.base)
    requires h == Completed(s.guesses, j, p)
    ensures AllWait(m, h, jobs - {j}, s.unordQ, past')
  {
    forall id | id in s.unordQ ensures Waits(m, h, jobs - {j}, id, past') {
      assert Waits(m, s.guesses, jobs, id, past);
      if Followed(jobs, id) {
        var i :| i in jobs && i.guessed && i.id == id;
        if i != j { assert i in jobs - {j}; }
      }
    }
  }

  lemma MasterStays(s: State, t: State, j: Job)
    requires exists i :: TheMaster(s.guesses, Jobs(s), i) && s.parsed != [] && i.base == s.parsed[|s.parsed| - 1].base
    requires !IsMaster(s.guesses, j) && t.parsed == s.parsed && Jobs(t) == Jobs(s) - {j}
    requires forall i :: i in Jobs(s) - {j} ==> IsMaster(t.guesses, i) == IsMaster(s.guesses, i)
    ensures exists i :: TheMaster(t.guesses, Jobs(t), i) && i.base == t.parsed[|t.parsed| - 1].base
  {
    hide IsMaster;
    var i :| TheMaster(s.guesses, Jobs(s), i) && s.parsed != [] && i.base == s.parsed[|s.parsed| - 1].base;
    assert TheMaster(t.guesses, Jobs(t), i);
  }

  // ----- where the master stands -----

  lemma ParsedPlaced(m: Stream, s: State, p: Place, r: Release, t: State)
    requires Led(m, s) && Placed(s) && ParsedTo(s, p, r)
    requires t.parser == p && t.headOff == r.headOff && Jobs(t) <= Jobs(s)
    requires forall j :: j in Jobs(t) ==> IsMaster(t.guesses, j) == IsMaster(s.guesses, j)
    ensures Placed(t)
  {
    hide Waits, Agree, AllWait, AllAgree, JobsOk, IsMaster;
  }

  lemma ParseEndPlaced(m: Stream, s: State, p: Place, r: Release)
    requires Led(m, s) && Placed(s) && ParsedTo(s, p, r)
    ensures Placed(ParseEnd(s, p, r))
  {
    hide Waits, Agree, AllWait, JobsOk, IsMaster, Dismiss;
    DismissJobs(s.guesses, s.unordQ, Jobs(s));
    ParsedPlaced(m, s, p, r, ParseEnd(s, p, r));
  }

  lemma ParseNewPlaced(m: Stream, s: State, f: Found, p: Place, r: Release)
    requires Led(m, s) && Placed(s) && ParsedTo(s, p, r)
    ensures Placed(ParseNew(s, f, p, r))
  {
    hide Waits, Agree, AllWait, JobsOk, IsMaster, Dismiss, Behind;
    DismissJobs(s.guesses, Behind(s.guesses, s.unordQ, p.bit), Jobs(s));
  }

  lemma ParseGuessedPlaced(m: Stream, s: State, f: Found, p: Place, r: Release, id: nat, r': Release)
    requires Sensible(m) && Led(m, s) && Placed(s) && Finds(m, s, f, p, r) && GuessedRight(s, p, r, id, r')
    ensures Placed(ParseGuessed(s, f, p, r, id, r'))
  {
    hide Waits, AllWait, JobsOk, Dismiss, Behind;
    var t := ParseGuessed(s, f, p, r, id, r');
    var behind := Behind(s.guesses, s.unordQ, p.bit);
    DismissJobs(s.guesses, behind, Jobs(s));
    DismissKeys(s.guesses, behind);
    KeptRight(s.guesses, s.unordQ, id);
    forall j | j in Jobs(t) && IsMaster(t.guesses, j) ensures j.at == t.parser {
      assert Agree(s.guesses, j);
    }
  }

  lemma RetrieveMorePlaced(m: Stream, s: State, p: Place, r: Release, j: Job)
    requires Led(m, s) && Placed(s) && RetrievedTo(m, s, j, p, r)
    ensures Placed(RetrieveMore(s, j, p, r))
  {
    hide Waits, Agree, IsMaster, AllWait, RetrieveMore;
    var t := RetrieveMore(s, j, p, r);
    JobsApart(m, s);
    ReportMore(s, j, p, r);
    MasterWorks(m, s, j);
    ReplaceAgree(m, s, t.guesses, Jobs(s), j, p);
  }

  lemma RetrieveDonePlaced(m: Stream, s: State, p: Place, r: Release, j: Job)
    requires Led(m, s) && Placed(s) && RetrievedTo(m, s, j, p, r)
    ensures Placed(RetrieveDone(s, j, p, r))
  {
    hide Waits, Agree, IsMaster, AllWait, RetrieveDone, Completed;
    var t := RetrieveDone(s, j, p, r);
    JobsApart(m, s);
    ReportDone(s, j, p, r);
    MasterWorks(m, s, j);
    DoneAgree(m, s, j, p);
  }

  // ----- runs -----

  /** Every step keeps the invariant. */
  lemma NextInv(m: Stream, s: State, t: State, a: Step)
    requires Sensible(m) && Inv(m, s) && Next(m, s, t, a)
    ensures Inv(m, t)
  {
    hide Inv, Next;
    if a.DoParseMore? || a.DoParseEnd? || a.DoParseBad? || a.DoParseNew? || a.DoParseGuessed? || a.DoStartParsing? { ParserInv(m, s, t, a); }
    else if a.DoStartRetrieving? || a.DoGiveUp? || a.DoRetrieveMore? || a.DoRetrieveDone? || a.DoScanFound? { RetrieverInv(m, s, t, a); }
    else { PipeInv(m, s, t, a); }
  }

  lemma ParserInv(m: Stream, s: State, t: State, a: Step)
    requires Sensible(m) && Inv(m, s) && Next(m, s, t, a)
    requires a.DoParseMore? || a.DoParseEnd? || a.DoParseBad? || a.DoParseNew? || a.DoParseGuessed? || a.DoStartParsing?
    ensures Inv(m, t)
  {
    hide Inv, Releases;
    Forward(m, s);
    match a
    case DoStartParsing => StartParsingInv(m, s);
    case DoParseMore(p, r) => ParsesForward(s, p, r); ParseMoreInv(m, s, p, r);
    case DoParseEnd(p, r) => ParsesForward(s, p, r); ParseEndInv(m, s, p, r);
    case DoParseBad(p, r) => ParseBadInv(m, s);
    case DoParseNew(p, r, f) => ParsesForward(s, p, r); ParseNewInv(m, s, f, p, r);
    case DoParseGuessed(p, r, f, id, r') => GuessedNext(m, s, f, p, r, id, r');
  }

  lemma RetrieverInv(m: Stream, s: State, t: State, a: Step)
    requires Sensible(m) && Inv(m, s) && Next(m, s, t, a)
    requires a.DoStartRetrieving? || a.DoGiveUp? || a.DoRetrieveMore? || a.DoRetrieveDone? || a.DoScanFound?
    ensures Inv(m, t)
  {
    hide Inv, Releases, IsMaster;
    Forward(m, s);
    match a
    case DoStartRetrieving(j) => StartRetrievingInv(m, s, j);
    case DoGiveUp(j) => GiveUpInv(m, s, j);
    case DoRetrieveMore(p, r, j) => RetrievesForward(m, s, j, p, r); RetrieveMoreInv(m, s, p, r, j);
    case DoRetrieveDone(p, r, j) => RetrievesForward(m, s, j, p, r); RetrieveDoneInv(m, s, p, r, j);
    case DoScanFound(p) => ScanFoundInv(m, s, p);
  }

  lemma PipeInv(m: Stream, s: State, t: State, a: Step)
    requires Sensible(m) && Inv(m, s) && Next(m, s, t, a)
    requires a.DoSetEof? || a.DoWrite? || a.DoStartScanning? || a.DoScanNothing? || a.DoFinishDecoding? || a.DoStartEmitting?
             || a.DoFinishEmitting? || a.DoReject? || a.DoOutput?
    ensures Inv(m, t)
  {
    hide Inv, CanEmit, CanReject, CanOutput, CanScan;
    match a
    case DoFinishDecoding(b) => FinishDecodingInv(m, s, b);
    case DoStartEmitting(e) => StartEmittingInv(m, s, e);
    case DoFinishEmitting(e) => FinishEmittingInv(m, s, e);
    case DoReject(e) => RejectInv(m, s, e);
    case DoOutput(e) => OutputInv(m, s, e);
    case DoSetEof => UnitsInv(m, s, t, a);
    case DoWrite => UnitsInv(m, s, t, a);
    case DoStartScanning => UnitsInv(m, s, t, a);
    case DoScanNothing => UnitsInv(m, s, t, a);
  }

  lemma Forward(m: Stream, s: State)
    requires Inv(m, s)
    ensures Placed(s) && Led(m, s)
  {
    hide Accounts, Placed, Led, Coursed, Fed;
  }

  lemma GuessedNext(m: Stream, s: State, f: Found, p: Place, r: Release, id: nat, r': Release)
    requires Sensible(m) && Inv(m, s) && !s.failed && Meets(m, s, f, p, r) && Guessed(s, p, r, id, r')
    ensures r'.dropped <= s.retrQ - r.dropped && Inv(m, ParseGuessed(s, f, p, r, id, r'))
  {
    hide Inv;
    Forward(m, s);
    ParsesForward(s, p, r);
    GuessForward(m, s, f, p, r, id, r');
    ParseGuessedInv(m, s, f, p, r, id, r');
  }

  /** A run of the decompressor, with any number of workers and slots. */
  ghost predicate Run(m: Stream, workers: nat, slots: nat, run: seq<State>) {
    && run != [] && run[0] == Initial(workers, slots)
    && forall i :: 0 < i < |run| ==> Steps(m, run[i - 1], run[i])
  }

  ghost predicate Steps(m: Stream, s: State, t: State) {
    exists a :: Next(m, s, t, a)
  }

  lemma {:induction false} RunInv(m: Stream, workers: nat, slots: nat, run: seq<State>, k: nat)
    requires Sensible(m) && Run(m, workers, slots, run) && k < |run|
    ensures Inv(m, run[k])
  {
    hide Inv, Next;
    if k == 0 {
      InitialInv(m, workers, slots);
    } else {
      RunInv(m, workers, slots, run, k - 1);
      assert Steps(m, run[k - 1], run[k]);
      var a :| Next(m, run[k - 1], run[k], a);
      NextInv(m, run[k - 1], run[k], a);
    }
  }

  /** Speculation never changes the output: at any time, the parts handed to the sink are the
      first that a sequential decompressor writes, and the blocks that count are those it
      finds. */
  lemma OutputIsSequential(m: Stream, workers: nat, slots: nat, run: seq<State>, k: nat)
    requires Sensible(m) && Run(m, workers, slots, run) && k < |run|
    ensures run[k].out == Chunks(m, |run[k].out|) && InTurn(m, run[k].parsed)
  {
    hide JobsOk, AllAgree, AllWait, OneMaster, Sequential, Fed, Next;
    RunInv(m, workers, slots, run, k);
  }

  /** Always exactly one of these holds: the parser may start, the parser runs, or one
      retriever is the master, and it retrieves the block found last. */
  lemma MasterIsUnique(m: Stream, workers: nat, slots: nat, run: seq<State>, k: nat)
    requires Sensible(m) && Run(m, workers, slots, run) && k < |run|
    ensures var s := run[k];
      && !(s.parseToken && s.parsing)
      && (s.parseToken || s.parsing ==> forall j :: j in Jobs(s) ==> !IsMaster(s.guesses, j))
      && (!s.parseToken && !s.parsing ==> s.parsed != [] && exists j :: TheMaster(s.guesses, Jobs(s), j) && j.base == s.parsed[|s.parsed| - 1].base)
  {
    hide JobsOk, AllAgree, AllWait, Coursed, Fed, Next;
    RunInv(m, workers, slots, run, k);
  }

  /** No unit of work or output slot is lost or made up, and when the parser has reached the
      end of the stream no retriever waits. */
  lemma UnitsConserved(m: Stream, workers: nat, slots: nat, run: seq<State>, k: nat)
    requires Sensible(m) && Run(m, workers, slots, run) && k < |run|
    ensures Accounts(run[k]) && (run[k].parsingDone ==> run[k].retrQ == {})
    ensures run[k].workers == workers && run[k].slots == slots
  {
    hide JobsOk, AllAgree, AllWait, Coursed, Fed, Next;
    RunInv(m, workers, slots, run, k);
    SameSize(m, workers, slots, run, k);
  }

  lemma {:induction false} SameSize(m: Stream, workers: nat, slots: nat, run: seq<State>, k: nat)
    requires Run(m, workers, slots, run) && k < |run|
    ensures run[k].workers == workers && run[k].slots == slots
  {
    hide Next;
    if k > 0 {
      SameSize(m, workers, slots, run, k - 1);
      assert Steps(m, run[k - 1], run[k]);
      var a :| Next(m, run[k - 1], run[k], a);
      NextSize(m, run[k - 1], run[k], a);
    }
  }

  lemma NextSize(m: Stream, s: State, t: State, a: Step)
    requires Next(m, s, t, a)
    ensures t.workers == s.workers && t.slots == s.slots
  {
    hide Parses, Meets, Retrieves, Guessed, MayRetrieve, CanParse, CanEmit, CanReject, CanOutput, CanScan, IsDismissed, Short, Unguessed,
         StartParsing, ParseMore, ParseEnd, ParseNew, ParseGuessed, StartRetrieving, GiveUp, RetrieveMore, RetrieveDone, FinishDecoding,
         StartEmitting, FinishEmitting, Reject, Output, Write, StartScanning, ScanNothing, ScanFound;
  }

  /** A decompressor that may stop has written all that a sequential one writes. */
  lemma TerminatesComplete(m: Stream, workers: nat, slots: nat, run: seq<State>, k: nat)
    requires Sensible(m) && Run(m, workers, slots, run) && k < |run| && CanTerminate(run[k])
    ensures Sequential(m, |run[k].out|) == Finished(run[k].parsed)
  {
    hide JobsOk, AllAgree, AllWait, OneMaster, Next, Run, InTurn;
    RunInv(m, workers, slots, run, k);
    var s := run[k];
    if s.orderQ != [] {
      hide InPipe;
      assert InPipe(m, s.pipe, s.orderQ[0].found.base, s.orderQ[0].k);
      NothingInPipe(m, s.pipe, s.orderQ[0].found.base, s.orderQ[0].k);
    }
  }

  /** Where the stages of a sequential decompressor come from. */
  lemma {:induction false} SequentialTurn(m: Stream, n: nat)
    ensures StageTurn(m, Sequential(m, n))
  {
    hide InTurn, Parse, StageTurn;
    if n > 0 {
      SequentialTurn(m, n - 1);
      var r := Sequential(m, n - 1);
      if r.Emitting? {
        SequentialStep(m, n - 1, r.blocks, r.k);
        NextTurn(m, r.blocks, r.k);
      } else {
        assert Sequential(m, n) == r;
      }
    } else {
      NothingInTurn(m);
      ParsedTurn(m, []);
    }
  }

  ghost predicate StageTurn(m: Stream, r: Stage) {
    && (r.Emitting? ==> InTurn(m, r.blocks))
    && (r.Finished? ==> InTurn(m, r.all) && m.head(r.all, After(m, r.all)) == End)
  }

  lemma NothingInTurn(m: Stream)
    ensures InTurn(m, [])
  {
  }

  lemma NextTurn(m: Stream, blocks: seq<Found>, k: nat)
    requires StageTurn(m, Emitting(blocks, k))
    ensures StageTurn(m, Emitting(blocks, k + 1)) && StageTurn(m, Parse(m, blocks)) && StageTurn(m, Broken)
  {
    ParsedTurn(m, blocks);
  }

  lemma ParsedTurn(m: Stream, blocks: seq<Found>)
    requires InTurn(m, blocks)
    ensures StageTurn(m, Parse(m, blocks))
  {
    var h := m.head(blocks, After(m, blocks));
    if h.Header? { FoundInTurn(m, blocks, h.found); }
  }

  /** Two lists of blocks found in turn agree as far as both go. */
  lemma {:induction false} TurnsAgree(m: Stream, a: seq<Found>, b: seq<Found>, i: nat)
    requires InTurn(m, a) && InTurn(m, b) && i <= |a| && i <= |b|
    ensures a[..i] == b[..i]
  {
    hide InTurn, After;
    if i > 0 {
      TurnsAgree(m, a, b, i - 1);
      assert a[..i] == a[..i - 1] + [a[i - 1]] && b[..i] == b[..i - 1] + [b[i - 1]];
      TurnAt(m, a, i - 1);
      TurnAt(m, b, i - 1);
    }
  }

  lemma TurnAt(m: Stream, a: seq<Found>, i: nat)
    requires InTurn(m, a) && i < |a|
    ensures m.head(a[..i], After(m, a[..i])) == Header(a[i])
  {
  }

  /** Where one list of blocks found in turn ends, another ends as well. */
  lemma SameEnd(m: Stream, a: seq<Found>, b: seq<Found>)
    requires InTurn(m, a) && InTurn(m, b) && !m.head(a, After(m, a)).Header? && !m.head(b, After(m, b)).Header?
    ensures a == b
  {
    if |a| <= |b| { TurnsAgree(m, a, b, |a|); } else { TurnsAgree(m, a, b, |b|); }
    assert a[..|a|] == a && b[..|b|] == b;
  }

  lemma {:induction false} BrokenStays(m: Stream, n: nat, k: nat)
    requires n <= k && Sequential(m, n).Broken?
    ensures Sequential(m, k).Broken?
  {
    if n < k { BrokenStays(m, n, k - 1); }
  }

  /** The decompressor reports an error only if a sequential one never finishes: either it
      meets the same error, or it never gets to the header that is in error. */
  lemma FailsOnlyOnErrors(m: Stream, workers: nat, slots: nat, run: seq<State>, k: nat, n: nat)
    requires Sensible(m) && Run(m, workers, slots, run) && k < |run| && run[k].failed
    ensures !Sequential(m, n).Finished?
  {
    hide JobsOk, AllAgree, AllWait, OneMaster, Next, Run, InTurn, Fed, OutputOk, Sequential, Chunks;
    RunInv(m, workers, slots, run, k);
    var s := run[k];
    if Sequential(m, n).Finished? {
      SequentialTurn(m, n);
      if m.head(s.parsed, After(m, s.parsed)) == Bad {
        SameEnd(m, s.parsed, Sequential(m, n).all);
      } else if n <= |s.out| + 1 {
        NothingMore(m, n, |s.out| + 1);
      } else {
        BrokenStays(m, |s.out| + 1, n);
      }
    }
  }

  /** Nothing follows the end. */
  lemma {:induction false} NothingMore(m: Stream, n: nat, k: nat)
    requires n <= k && Sequential(m, n).Finished?
    ensures Sequential(m, k) == Sequential(m, n) && Chunks(m, k) == Chunks(m, n)
  {
    if n < k { NothingMore(m, n, k - 1); }
  }

  /** Any two runs that end write the same, however many workers they have and whatever their
      scanners guess. */
  lemma RunsAgree(m: Stream, w: nat, x: nat, run: seq<State>, k: nat, w': nat, x': nat, run': seq<State>, k': nat)
    requires Sensible(m) && Run(m, w, x, run) && k < |run| && CanTerminate(run[k])
    requires Run(m, w', x', run') && k' < |run'| && CanTerminate(run'[k'])
    ensures run[k].out == run'[k'].out && run[k].parsed == run'[k'].parsed
  {
    hide Run, Sequential, Chunks, CanTerminate;
    OutputIsSequential(m, w, x, run, k);
    OutputIsSequential(m, w', x', run', k');
    TerminatesComplete(m, w, x, run, k);
    TerminatesComplete(m, w', x', run', k');
    if |run[k].out| <= |run'[k'].out| { NothingMore(m, |run[k].out|, |run'[k'].out|); }
    else { NothingMore(m, |run'[k'].out|, |run[k].out|); }
  }

  // ----- released input -----

  /** No retriever waits for input that was released.  The decompressor relies on it where it
      looks for the input of the retriever to run next. */
  ghost predicate Attachable(s: State) {
    forall j :: j in s.retrQ ==> j.at.off >= s.headOff
  }

  /** A step that queues a retriever behind the input released: one that ran out of input
      while the master moved on, or one that a scanner starts there. */
  ghost predicate LeavesBehind(s: State, a: Step) {
    || (a.DoRetrieveMore? && !IsMaster(s.guesses, a.j) && a.p.off < s.headOff)
    || (a.DoScanFound? && a.p.off < s.headOff)
  }

  lemma AdvanceAttachable(s: State, p: Place, r: Release)
    requires Attachable(s) && Releases(s, p, r)
    ensures Attachable(Advance(s, p, r))
  {
  }

  /** The steps named break the property, and no other. */
  lemma AttachableNext(m: Stream, s: State, t: State, a: Step)
    requires Sensible(m) && Inv(m, s) && Attachable(s) && Next(m, s, t, a)
    ensures Attachable(t) <==> !LeavesBehind(s, a)
  {
    hide Inv, IsMaster, Attachable, Next;
    Forward(m, s);
    if a.DoParseMore? || a.DoParseEnd? || a.DoParseNew? || a.DoParseGuessed? { AttachableParser(m, s, t, a); }
    else if a.DoRetrieveMore? || a.DoRetrieveDone? { AttachableRetriever(m, s, t, a); }
    else { AttachableOther(m, s, t, a); }
  }

  lemma AttachableParser(m: Stream, s: State, t: State, a: Step)
    requires Placed(s) && Attachable(s) && Next(m, s, t, a) && (a.DoParseMore? || a.DoParseEnd? || a.DoParseNew? || a.DoParseGuessed?)
    ensures Attachable(t)
  {
    hide Attachable, Placed, Unguessed;
    match a
    case DoParseMore(p, r) => AttachableParsed(s, p, r);
    case DoParseEnd(p, r) => AttachableParsed(s, p, r);
    case DoParseNew(p, r, f) => AttachableNew(s, f, p, r);
    case DoParseGuessed(p, r, f, id, r') => AttachableGuessed(s, f, p, r, id, r');
  }

  lemma AttachableParsed(s: State, p: Place, r: Release)
    requires Attachable(s) && Releases(s, p, r)
    ensures r.dropped <= s.retrQ && Attachable(ParseMore(s, p, r)) && Attachable(ParseEnd(s, p, r))
  {
    hide Dismiss;
  }

  lemma AttachableRetriever(m: Stream, s: State, t: State, a: Step)
    requires Placed(s) && Led(m, s) && Attachable(s) && Next(m, s, t, a) && (a.DoRetrieveMore? || a.DoRetrieveDone?)
    ensures Attachable(t) <==> !LeavesBehind(s, a)
  {
    hide Attachable, Placed, Led, IsMaster, RetrieveMore, RetrieveDone;
    match a
    case DoRetrieveMore(p, r, j) => AttachableMore(m, s, j, p, r);
    case DoRetrieveDone(p, r, j) => AttachableDone(m, s, j, p, r);
  }

  lemma AttachableOther(m: Stream, s: State, t: State, a: Step)
    requires Attachable(s) && Next(m, s, t, a)
    requires !(a.DoParseMore? || a.DoParseEnd? || a.DoParseNew? || a.DoParseGuessed? || a.DoRetrieveMore? || a.DoRetrieveDone?)
    ensures Attachable(t) <==> !LeavesBehind(s, a)
  {
    if a.DoScanFound? {
      AttachableFound(s, a.p);
    } else {
      StaysPut(m, s, t, a);
    }
  }

  lemma StaysPut(m: Stream, s: State, t: State, a: Step)
    requires Next(m, s, t, a)
    requires !(a.DoParseMore? || a.DoParseEnd? || a.DoParseNew? || a.DoParseGuessed? || a.DoRetrieveMore? || a.DoRetrieveDone? || a.DoScanFound?)
    ensures t.headOff == s.headOff && t.retrQ <= s.retrQ
  {
    hide FirstPart, IsMaster, IsDismissed, Parses, CanEmit, CanReject, CanOutput, CanScan, MayRetrieve, CanParse;
    hide Retrieves, Meets, Guessed, Short, ParseMore, ParseEnd, ParseNew, ParseGuessed, RetrieveMore, RetrieveDone, ScanFound, Unguessed;
    if a.DoStartRetrieving? || a.DoGiveUp? || a.DoParseBad? { } else { assert t.retrQ == s.retrQ; }
  }

  lemma AttachableFound(s: State, p: Place)
    requires Attachable(s) && s.scanning > 0
    ensures Attachable(ScanFound(s, p)) <==> p.off >= s.headOff
  {
    assert Job(s.nextId, p.bit, p, true) in ScanFound(s, p).retrQ;
  }

  lemma AttachableNew(s: State, f: Found, p: Place, r: Release)
    requires Placed(s) && Attachable(s) && Parses(s, p, r)
    ensures Attachable(ParseNew(s, f, p, r))
  {
    hide Dismiss, Behind, IsMaster;
  }

  lemma AttachableGuessed(s: State, f: Found, p: Place, r: Release, id: nat, r': Release)
    requires Attachable(s) && Releases(s, p, r) && Guessed(s, p, r, id, r') && r'.dropped <= s.retrQ - r.dropped
    ensures Attachable(ParseGuessed(s, f, p, r, id, r'))
  {
    hide Dismiss, Behind, IsMaster;
    AdvanceAttachable(s, p, r);
    AdvanceAttachable(Advance(s, p, r), s.guesses[id].at, r');
  }

  lemma AttachableMore(m: Stream, s: State, j: Job, p: Place, r: Release)
    requires Placed(s) && Led(m, s) && Attachable(s) && Retrieves(m, s, j, p, r)
    ensures Attachable(RetrieveMore(s, j, p, r)) <==> IsMaster(s.guesses, j) || p.off >= s.headOff
  {
    hide IsMaster, Led, RetrieveMore;
    var t := RetrieveMore(s, j, p, r);
    JobsApart(m, s);
    RetrievesForward(m, s, j, p, r);
    ReportMore(s, j, p, r);
    assert j.(at := p) in t.retrQ;
    if IsMaster(s.guesses, j) { AdvanceAttachable(s, p, r); }
  }

  lemma AttachableDone(m: Stream, s: State, j: Job, p: Place, r: Release)
    requires Placed(s) && Led(m, s) && Attachable(s) && Retrieves(m, s, j, p, r)
    ensures Attachable(RetrieveDone(s, j, p, r))
  {
    hide IsMaster, Led, RetrieveDone, Completed;
    JobsApart(m, s);
    RetrievesForward(m, s, j, p, r);
    ReportDone(s, j, p, r);
    if IsMaster(s.guesses, j) { AdvanceAttachable(s, p, r); }
  }

  /** The step from `s` to `t` leaves a retriever behind. */
  ghost predicate LeftBehind(m: Stream, s: State, t: State) {
    exists a :: Next(m, s, t, a) && LeavesBehind(s, a)
  }

  lemma AttachableStep(m: Stream, s: State, t: State)
    requires Sensible(m) && Inv(m, s) && Attachable(s) && Steps(m, s, t)
    ensures Attachable(t) <==> !LeftBehind(m, s, t)
  {
    hide Inv, Next, LeavesBehind, Attachable;
    var a :| Next(m, s, t, a);
    AttachableNext(m, s, t, a);
    if LeftBehind(m, s, t) {
      var b :| Next(m, s, t, b) && LeavesBehind(s, b);
      AttachableNext(m, s, t, b);
    }
  }

  /** In any run, all retrievers that wait find their input exactly as long as no step leaves
      one behind. */
  lemma {:induction false} AttachableRun(m: Stream, workers: nat, slots: nat, run: seq<State>, k: nat)
    requires Sensible(m) && Run(m, workers, slots, run) && k < |run|
    ensures (forall i :: 0 <= i <= k ==> Attachable(run[i])) <==> forall i :: 0 < i <= k ==> !LeftBehind(m, run[i - 1], run[i])
  {
    hide Inv, LeftBehind, Attachable, Steps;
    if k == 0 {
      NobodyWaits(workers, slots);
    } else {
      AttachableRun(m, workers, slots, run, k - 1);
      RunInv(m, workers, slots, run, k - 1);
      assert Steps(m, run[k - 1], run[k]);
      if Attachable(run[k - 1]) { AttachableStep(m, run[k - 1], run[k]); }
    }
  }

  lemma NobodyWaits(workers: nat, slots: nat)
    ensures Attachable(Initial(workers, slots))
  {
  }

  // ----- a run that leaves a retriever behind -----

  /** One block of data that starts at bit 80 and ends at bit 10000, and nothing after it. */
  function OneBlock(): Stream {
    Stream((blocks: seq<Found>, p: nat) => if blocks == [] then Header(Found(p + HEADER_BITS, 0)) else End,
           (b: nat) => b + 9920, (b: nat, k: nat) => [], (b: nat, k: nat) => false, (f: Found, k: nat) => Completes)
  }

  const MASTER := Job(0, 80, Place(80, 3), false)
  const STRAY := Job(1, 200, Place(200, 7), true)

  /** The parser finds the block, and a scanner something in it; both retrievers are started. */
  function BothRetrieve(): State {
    Initial(4, 4).(workUnits := 2, parseToken := false, parser := Place(80, 3), retrieving := {MASTER, STRAY},
                   guesses := map[1 := Guess(200, Place(200, 7), false, false)], unordQ := {1}, orderQ := [Expected(Found(80, 0), 0)],
                   nextId := 2, parsed := [Found(80, 0)])
  }

  lemma RunStarts(m: Stream, workers: nat, slots: nat)
    ensures Run(m, workers, slots, [Initial(workers, slots)])
  {
  }

  lemma RunMore(m: Stream, workers: nat, slots: nat, run: seq<State>, t: State, a: Step) returns (more: seq<State>)
    requires Run(m, workers, slots, run) && Next(m, run[|run| - 1], t, a)
    ensures Run(m, workers, slots, more) && more == run + [t] && more[|more| - 1] == t
  {
    hide Next;
    assert Steps(m, run[|run| - 1], t);
    more := run + [t];
  }

  /** The parser finds the block, and a scanner something in it. */
  /** The parser is about to find the block, and a scanner to find something. */
  function BothRun(): State {
    Initial(4, 4).(workUnits := 2, parseToken := false, parsing := true, scanning := 1)
  }

  lemma BothBegin(m: Stream) returns (run: seq<State>)
    ensures Run(m, 4, 4, run) && run[|run| - 1] == BothRun()
  {
    RunStarts(m, 4, 4);
    run := [Initial(4, 4)];
    hide Run;
    var s := StartScanning(Initial(4, 4));
    run := RunMore(m, 4, 4, run, s, DoStartScanning);
    var t := StartParsing(s);
    run := RunMore(m, 4, 4, run, t, DoStartParsing);
  }

  /** The parser finds the block. */
  lemma ParserAndScanner(m: Stream) returns (run: seq<State>, s: State)
    requires m == OneBlock()
    ensures Run(m, 4, 4, run) && s == run[|run| - 1]
    ensures s == BothRetrieve().(retrQ := {MASTER}, retrieving := {}, guesses := map[], unordQ := {}, nextId := 1, scanning := 1, workUnits := 2)
  {
    run := BothBegin(m);
    hide Run;
    s := ParseNew(BothRun(), Found(80, 0), Place(80, 3), Release(0, {}));
    run := RunMore(m, 4, 4, run, s, DoParseNew(Place(80, 3), Release(0, {}), Found(80, 0)));
  }

  lemma BothStart(m: Stream) returns (run: seq<State>)
    requires m == OneBlock()
    ensures Run(m, 4, 4, run) && run[|run| - 1] == BothRetrieve()
  {
    var s;
    run, s := ParserAndScanner(m);
    hide Run;
    var t := ScanFound(s, Place(200, 7));
    run := RunMore(m, 4, 4, run, t, DoScanFound(Place(200, 7)));
    s := StartRetrieving(t, MASTER);
    run := RunMore(m, 4, 4, run, s, DoStartRetrieving(MASTER));
    t := StartRetrieving(s, STRAY);
    run := RunMore(m, 4, 4, run, t, DoStartRetrieving(STRAY));
  }

  /** Say that input comes in blocks of ten words.  While the stray retriever reads the first
      block, the master moves on to the end of the third; then the stray one stops at the end
      of the first, and waits there. */
  lemma MasterMovesOn(m: Stream, s: State) returns (t: State, u: State)
    requires m == OneBlock() && s == BothRetrieve()
    ensures Next(m, s, t, DoRetrieveMore(Place(950, 30), Release(30, {}), MASTER))
    ensures Next(m, t, u, DoRetrieveMore(Place(300, 10), Release(30, {}), STRAY))
    ensures !Attachable(u)
  {
    t := RetrieveMore(s, MASTER, Place(950, 30), Release(30, {}));
    u := RetrieveMore(t, STRAY, Place(300, 10), Release(30, {}));
    assert STRAY.(at := Place(300, 10)) in u.retrQ;
  }

  /** Retrievers do get left behind: there is a run in which one waits for input that was
      released. */
  lemma SomeRunLeavesBehind() returns (m: Stream, run: seq<State>)
    ensures Sensible(m) && Run(m, 4, 4, run) && !Attachable(run[|run| - 1])
  {
    m := OneBlock();
    run := BothStart(m);
    var t, u := MasterMovesOn(m, BothRetrieve());
    hide Next, Run, BothRetrieve;
    run := RunMore(m, 4, 4, run, t, DoRetrieveMore(Place(950, 30), Release(30, {}), MASTER));
    run := RunMore(m, 4, 4, run, u, DoRetrieveMore(Place(300, 10), Release(30, {}), STRAY));
  }
}
