/** Where a retriever can stop for more input, and what the bits still to come mean from
    there. */
module Retrieval {
  import opened Common
  import opened Powers
  import opened Bits
  import opened BlockFormat

  /** The places of the automaton, with what has been read so far. */
  datatype Progress =
    | AtStart
    | AtBitmap(rand: bool, idx: nat)
    | InRow(rand: bool, idx: nat, used: seq<byte>, big: seq<bit>, small: seq<bit>)
    | InSelectors(front: Front, selectors: seq<nat>)
    | InLengths(front: Front, selectors: seq<nat>, trees: seq<seq<byte>>, lens: seq<byte>, cur: nat)
    | InValues(head: Head, place: Place, values: Values)

  ghost predicate ValidLengths(f: Front, selectors: seq<nat>, trees: seq<seq<byte>>, lens: seq<byte>) {
    && ValidFront(f) && |selectors| == f.groups && ValidSelectors(f, selectors) && ValidTrees(f, trees)
    && |trees| < f.trees && |lens| <= |f.used| + 2
    && forall s :: 0 <= s < |lens| ==> MIN_CODE_LENGTH <= lens[s] <= MAX_CODE_LENGTH
  }

  ghost predicate ValidProgress(p: Progress) {
    match p
    case AtStart => true
    case AtBitmap(_, _) => true
    case InRow(_, _, used, big, small) => |used| + 16 * |big| <= 256 && big != [] && |small| == 16
    case InSelectors(f, selectors) => ValidFront(f) && ValidSelectors(f, selectors)
    case InLengths(f, selectors, trees, lens, cur) => ValidLengths(f, selectors, trees, lens) && cur <= 31
    case InValues(h, place, v) =>
      ValidHead(h) && ValidPlace(h, place) && place.group < Bound(h.front.groups) && ValidValues(h, v)
      && place.index < GROUP_SIZE
  }

  /** What the remaining bits mean. */
  ghost function Meaning(p: Progress, b: seq<bit>): Outcome
    requires ValidProgress(p)
  {
    match p
    case AtStart => ReadBlock(b)
    case AtBitmap(rand, idx) => ReadBitmap(rand, idx, b)
    case InRow(rand, idx, used, big, small) => EndRow(rand, idx, used, big, small, b)
    case InSelectors(f, selectors) => EndSelector(f, selectors, b)
    case InLengths(f, selectors, trees, lens, cur) => EndSteps(f, selectors, trees, lens, cur, b)
    case InValues(h, place, v) => ReadValues(h, place, v, b)
  }

  lemma LengthsMeaning(p: Progress, b: seq<bit>)
    requires p.InLengths? && ValidLengths(p.front, p.selectors, p.trees, p.lens) && p.cur <= 31
    ensures ValidProgress(p) && Meaning(p, b) == EndSteps(p.front, p.selectors, p.trees, p.lens, p.cur, b)
  {
    hide ValidLengths, EndSteps;
  }

  /** Wherever the automaton asks for bits, fewer than 32 of them are an early end. */
  lemma TooShort(p: Progress, b: seq<bit>)
    requires ValidProgress(p) && |b| < 32
    ensures Meaning(p, b) == Fails(ERR_EOF)
  {
    hide ValidFront, ValidSelectors, ValidTrees, ValidHead, ValidPlace;
  }

  // ----- sixteen-bit registers that are shifted out -----

  lemma ToBitsHead(x: nat, n: nat)
    requires n > 0 && x < Pow2(n)
    ensures ToBits(x, n)[0] == x / Pow2(n - 1) && x / Pow2(n - 1) < 2
    ensures ToBits(x, n)[1..] + [0] == ToBits(2 * x % Pow2(n), n)
  {
    var p := Pow2(n - 1);
    assert Pow2(n) == 2 * p;
    TopDigit(x, p);
    HeadAndTail(x / p, x % p, n);
    hide *;
    assert ToBits(x, n) == [(x / p) as bit] + ToBits(x % p, n - 1);
    assert ([(x / p) as bit] + ToBits(x % p, n - 1))[1..] == ToBits(x % p, n - 1);
  }

  lemma TopDigit(x: nat, p: nat)
    requires 0 < p && x < 2 * p
    ensures x / p < 2 && x % p < p && x == x / p * p + x % p && 2 * x % (2 * p) == 2 * (x % p)
  {
    if x >= p {
      Wrapped(x - p, p);
      Wrapped(2 * (x - p), 2 * p);
    } else {
      Wrapped(x, p);
      Wrapped(2 * x, 2 * p);
    }
  }

  lemma Wrapped(x: nat, p: nat)
    requires x < p
    ensures x / p == 0 && x % p == x && (x + p) / p == 1 && (x + p) % p == x
  {
    QuotientIff(x, p, 0);
    QuotientIff(x + p, p, 1);
  }

  /** A leading bit before `n - 1` others. */
  lemma {:induction false} HeadAndTail(h: nat, r: nat, n: nat)
    requires n > 0 && h < 2 && r < Pow2(n - 1)
    ensures ToBits(h * Pow2(n - 1) + r, n) == [h as bit] + ToBits(r, n - 1)
    ensures ToBits(2 * r, n) == ToBits(r, n - 1) + [0]
    decreases n
  {
    if n > 1 {
      var p := Pow2(n - 2);
      HeadAndTail(h, r / 2, n - 1);
      assert (h * (2 * p) + r) / 2 == h * p + r / 2;
    }
  }
}
