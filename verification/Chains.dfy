/** Chains of blocks and of input not yet collected, each starting where the one before it
    ends. */
module Chains {
  import opened Common
  import opened Positions

  /** What is left of an input block. */
  datatype Input = Input(pos: Position, left: seq<byte>)

  /** A block to compress: `next` is the position of the block after it. */
  datatype Block = Block(pos: Position, next: Position, bytes: seq<byte>)

  /** A link of the chain: input not yet collected, or a block. */
  datatype Cell = In(input: Input) | Work(block: Block)

  function CellPos(c: Cell): Position {
    if c.In? then c.input.pos else c.block.pos
  }

  /** The position of what follows a cell. */
  function CellEnd(c: Cell): Position {
    if c.In? then NextMajor(c.input.pos) else c.block.next
  }

  function CellBytes(c: Cell): seq<byte> {
    if c.In? then c.input.left else c.block.bytes
  }

  function EndOf(start: Position, chain: seq<Cell>): Position {
    if chain == [] then start else CellEnd(chain[|chain| - 1])
  }

  /** Each cell starts where the one before it ends. */
  ghost predicate Linked(start: Position, chain: seq<Cell>) {
    chain != [] ==>
      && Linked(start, chain[..|chain| - 1])
      && CellPos(chain[|chain| - 1]) == EndOf(start, chain[..|chain| - 1])
      && Less(CellPos(chain[|chain| - 1]), CellEnd(chain[|chain| - 1]))
  }

  function AllBytes(chain: seq<Cell>): seq<byte> {
    if chain == [] then [] else AllBytes(chain[..|chain| - 1]) + CellBytes(chain[|chain| - 1])
  }

  /** The blocks that have left the queues, as cells. */
  function Cells(blocks: seq<Block>): (c: seq<Cell>)
    ensures |c| == |blocks|
  {
    if blocks == [] then [] else Cells(blocks[..|blocks| - 1]) + [Work(blocks[|blocks| - 1])]
  }

  lemma LessTransitive(a: Position, b: Position, c: Position)
    requires Less(a, b) && Less(b, c)
    ensures Less(a, c)
  {
  }

  // ----- parts of chains -----

  lemma {:induction false} LinkedSplit(start: Position, a: seq<Cell>, b: seq<Cell>)
    ensures Linked(start, a + b) <==> Linked(start, a) && Linked(EndOf(start, a), b)
    ensures EndOf(start, a + b) == EndOf(EndOf(start, a), b)
    decreases |b|
  {
    if b == [] {
      assert a + b == a;
    } else {
      var n := |b| - 1;
      LinkedSplit(start, a, b[..n]);
      assert (a + b)[..|a + b| - 1] == a + b[..n];
    }
  }

  lemma {:induction false} AllBytesConcat(a: seq<Cell>, b: seq<Cell>)
    ensures AllBytes(a + b) == AllBytes(a) + AllBytes(b)
    decreases |b|
  {
    if b == [] {
      assert a + b == a;
    } else {
      AllBytesConcat(a, b[..|b| - 1]);
      assert (a + b)[..|a + b| - 1] == a + b[..|b| - 1];
    }
  }

  lemma OneLinked(start: Position, c: Cell)
    ensures Linked(start, [c]) <==> CellPos(c) == start && Less(CellPos(c), CellEnd(c))
    ensures EndOf(start, [c]) == CellEnd(c) && AllBytes([c]) == CellBytes(c)
  {
    assert [c][..0] == [];
    assert Linked(start, []) && AllBytes([]) == [];
    NothingBefore(CellBytes(c));
  }

  lemma TwoLinked(start: Position, c: Cell, d: Cell)
    ensures Linked(start, [c, d]) <==> CellPos(c) == start && Less(CellPos(c), CellEnd(c)) && CellPos(d) == CellEnd(c) && Less(CellPos(d), CellEnd(d))
    ensures EndOf(start, [c, d]) == CellEnd(d) && AllBytes([c, d]) == CellBytes(c) + CellBytes(d)
  {
    hide AllBytes;
    assert [c] + [d] == [c, d];
    OneLinked(start, c);
    OneLinked(CellEnd(c), d);
    LinkedSplit(start, [c], [d]);
    AllBytesConcat([c], [d]);
  }

  lemma LinkedAt(start: Position, chain: seq<Cell>, k: nat)
    requires Linked(start, chain) && k < |chain|
    ensures CellPos(chain[k]) == (if k == 0 then start else CellEnd(chain[k - 1]))
    ensures Less(CellPos(chain[k]), CellEnd(chain[k]))
  {
    var a, b := chain[..k + 1], chain[k + 1..];
    assert chain == a + b;
    LinkedSplit(start, a, b);
    assert a[..k] == chain[..k];
  }

  /** Positions along a chain ascend. */
  lemma {:induction false} Ascends(start: Position, chain: seq<Cell>, j: nat, k: nat)
    requires Linked(start, chain) && j < k < |chain|
    ensures Less(CellPos(chain[j]), CellPos(chain[k]))
    decreases k - j
  {
    LinkedAt(start, chain, k);
    LinkedAt(start, chain, k - 1);
    if j < k - 1 {
      Ascends(start, chain, j, k - 1);
      LessTransitive(CellPos(chain[j]), CellPos(chain[k - 1]), CellPos(chain[k]));
    }
  }

  lemma SameCell(start: Position, chain: seq<Cell>, j: nat, k: nat)
    requires Linked(start, chain) && j < |chain| && k < |chain| && CellPos(chain[j]) == CellPos(chain[k])
    ensures j == k
  {
    hide Linked;
    if j < k { Ascends(start, chain, j, k); }
    if k < j { Ascends(start, chain, k, j); }
  }

  /** Only one cell of the chain covers a position. */
  lemma Covers(start: Position, chain: seq<Cell>, k: nat, j: nat, p: Position)
    requires Linked(start, chain) && k < |chain| && j < |chain|
    requires LessEq(CellPos(chain[k]), p) && Less(p, CellEnd(chain[k])) && CellPos(chain[j]) == p
    ensures j == k
  {
    hide Linked;
    if j < k { Ascends(start, chain, j, k); }
    if k < j {
      LinkedAt(start, chain, k + 1);
      if k + 1 < j { Ascends(start, chain, k + 1, j); }
    }
  }

  // ----- replacing parts of chains -----

  function Splice(chain: seq<Cell>, a: nat, b: nat, cells: seq<Cell>): seq<Cell>
    requires a <= b <= |chain|
  {
    chain[..a] + cells + chain[b..]
  }

  /** Cells that cover the same stretch may stand in place of others. */
  lemma SpliceLinked(start: Position, chain: seq<Cell>, a: nat, b: nat, cells: seq<Cell>)
    requires Linked(start, chain) && a < b <= |chain| && cells != []
    requires Linked(CellPos(chain[a]), cells) && EndOf(start, cells) == CellEnd(chain[b - 1])
    ensures Linked(start, Splice(chain, a, b, cells)) && EndOf(start, Splice(chain, a, b, cells)) == EndOf(start, chain)
  {
    hide Linked;
    var front, middle, back := chain[..a], chain[a..b], chain[b..];
    assert chain == front + middle + back;
    LinkedAt(start, chain, a);
    LinkedSplit(start, front + middle, back);
    LinkedSplit(start, front, middle);
    LinkedSplit(start, front, cells);
    LinkedSplit(start, front + cells, back);
  }

  lemma SpliceBytes(chain: seq<Cell>, a: nat, b: nat, cells: seq<Cell>)
    requires a <= b <= |chain| && AllBytes(cells) == AllBytes(chain[a..b])
    ensures AllBytes(Splice(chain, a, b, cells)) == AllBytes(chain)
  {
    hide AllBytes;
    var front, middle, back := chain[..a], chain[a..b], chain[b..];
    assert chain == front + middle + back;
    AllBytesConcat(front + middle, back);
    AllBytesConcat(front, middle);
    AllBytesConcat(front + cells, back);
    AllBytesConcat(front, cells);
  }

  /** The cell after the first is where the chain goes on. */
  lemma RestLinked(start: Position, chain: seq<Cell>)
    requires Linked(start, chain) && chain != []
    ensures CellPos(chain[0]) == start && Less(start, CellEnd(chain[0]))
    ensures Linked(CellEnd(chain[0]), chain[1..]) && EndOf(CellEnd(chain[0]), chain[1..]) == EndOf(start, chain)
    ensures AllBytes(chain) == CellBytes(chain[0]) + AllBytes(chain[1..])
  {
    hide Linked, AllBytes;
    assert chain == [chain[0]] + chain[1..];
    LinkedSplit(start, [chain[0]], chain[1..]);
    OneLinked(start, chain[0]);
    AllBytesConcat([chain[0]], chain[1..]);
  }

  lemma MoreLinked(start: Position, chain: seq<Cell>, c: Cell)
    requires Linked(start, chain) && CellPos(c) == EndOf(start, chain) && Less(CellPos(c), CellEnd(c))
    ensures Linked(start, chain + [c]) && EndOf(start, chain + [c]) == CellEnd(c)
    ensures AllBytes(chain + [c]) == AllBytes(chain) + CellBytes(c)
  {
    hide Linked, AllBytes;
    LinkedSplit(start, chain, [c]);
    OneLinked(EndOf(start, chain), c);
    AllBytesConcat(chain, [c]);
  }

  // ----- who holds the cells -----

  predicate Held(c: Cell, inputs: set<Input>, blocks: set<Block>) {
    if c.In? then c.input in inputs else c.block in blocks
  }

  /** The cells of the chain are exactly what is held. */
  ghost predicate HeldOk(chain: seq<Cell>, inputs: set<Input>, blocks: set<Block>) {
    forall c {:trigger c in chain} {:trigger Held(c, inputs, blocks)} :: c in chain <==> Held(c, inputs, blocks)
  }

  lemma HeldAt(chain: seq<Cell>, inputs: set<Input>, blocks: set<Block>, c: Cell) returns (k: nat)
    requires HeldOk(chain, inputs, blocks) && Held(c, inputs, blocks)
    ensures k < |chain| && chain[k] == c
  {
    assert c in chain;
    k :| 0 <= k < |chain| && chain[k] == c;
  }

  /** A position that the cell at `k` covers is not that of anything else held. */
  lemma NoOther(start: Position, chain: seq<Cell>, inputs: set<Input>, blocks: set<Block>, k: nat, c: Cell)
    requires Linked(start, chain) && HeldOk(chain, inputs, blocks) && k < |chain| && Held(c, inputs, blocks)
    requires LessEq(CellPos(chain[k]), CellPos(c)) && Less(CellPos(c), CellEnd(chain[k]))
    ensures c == chain[k]
  {
    hide Linked;
    var j := HeldAt(chain, inputs, blocks, c);
    Covers(start, chain, k, j, CellPos(c));
  }

  /** Cells outside a part of the chain are not in it. */
  lemma Outside(start: Position, chain: seq<Cell>, a: nat, b: nat, c: Cell)
    requires Linked(start, chain) && a <= b <= |chain|
    ensures c in chain[..a] || c in chain[b..] <==> c in chain && c !in chain[a..b]
  {
    hide Linked;
    assert chain == chain[..a] + chain[a..b] + chain[b..];
    if (c in chain[..a] || c in chain[b..]) && c in chain[a..b] {
      var i :| 0 <= i < b - a && chain[a..b][i] == c;
      if c in chain[..a] {
        var k :| 0 <= k < a && chain[..a][k] == c;
        SameCell(start, chain, k, a + i);
      } else {
        var k :| 0 <= k < |chain| - b && chain[b..][k] == c;
        SameCell(start, chain, b + k, a + i);
      }
    }
  }

  /** Those who held the cells replaced hold the new ones. */
  lemma SpliceHeld(start: Position, chain: seq<Cell>, inputs: set<Input>, blocks: set<Block>, a: nat, b: nat, cells: seq<Cell>,
                   inputs': set<Input>, blocks': set<Block>)
    requires Linked(start, chain) && HeldOk(chain, inputs, blocks) && a <= b <= |chain|
    requires forall c {:trigger Held(c, inputs', blocks')} ::
               Held(c, inputs', blocks') <==> c in cells || (Held(c, inputs, blocks) && c !in chain[a..b])
    ensures HeldOk(Splice(chain, a, b, cells), inputs', blocks')
  {
    hide Linked, Held;
    var spliced := Splice(chain, a, b, cells);
    forall c {:trigger c in spliced} ensures c in spliced <==> Held(c, inputs', blocks') {
      Outside(start, chain, a, b, c);
    }
  }
}
