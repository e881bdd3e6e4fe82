/** The lookup tables that read selectors and code lengths six bits at a time. */
module DeltaTables {
  import opened Powers
  import opened Bits
  import opened BlockFormat

  const ROW_ONES: seq<nat> := [1, 1, 1, 1, 1, 1, 1, 1, 1, 1, 1, 1, 1, 1, 1, 1]
  const ROW_TWOS: seq<nat> := [2, 2, 2, 2, 2, 2, 2, 2, 2, 2, 2, 2, 2, 2, 2, 2]
  const ROW_THREES: seq<nat> := [3, 3, 3, 3, 3, 3, 3, 3, 3, 3, 3, 3, 3, 3, 3, 3]

  const FIRST_ZERO_LAST: seq<nat> := [3, 3, 3, 3, 3, 3, 3, 3, 4, 4, 4, 4, 5, 5, 6, 7]

  /** The position of the first zero bit of a six-bit integer; 7 if there is none. */
  const FIRST_ZERO: seq<nat> := ROW_ONES + ROW_ONES + ROW_TWOS + FIRST_ZERO_LAST

  const BITS_LAST: seq<nat> := [3, 3, 3, 3, 3, 3, 3, 3, 5, 5, 6, 6, 5, 5, 6, 6]

  /** How many of six bits of steps to consume. */
  const STEP_BITS: seq<nat> := ROW_ONES + ROW_ONES + BITS_LAST + BITS_LAST

  const UP_FIRST: seq<nat> := [4, 4, 4, 4, 4, 4, 4, 4, 5, 5, 6, 4, 3, 3, 4, 2]
  const DOWN_FIRST: seq<nat> := [2, 2, 2, 2, 2, 2, 2, 2, 3, 3, 4, 2, 1, 1, 2, 0]

  /** By how much they change the length, plus three. */
  const STEP_DELTA: seq<nat> := ROW_THREES + ROW_THREES + UP_FIRST + DOWN_FIRST

  lemma FourRows(a: seq<nat>, b: seq<nat>, c: seq<nat>, d: seq<nat>, x: nat)
    requires |a| == |b| == |c| == |d| == 16 && x < 64
    ensures (a + b + c + d)[x] == if x < 16 then a[x] else if x < 32 then b[x - 16] else if x < 48 then c[x - 32] else d[x - 48]
  {
  }

  lemma LastBit(b: seq<bit>, v: nat, x: bit)
    requires Val(b) == v
    ensures Val(b + [x]) == 2 * v + x
  {
    assert (b + [x])[..|b|] == b;
  }

  lemma ValOfFour(b: seq<bit>)
    requires |b| == 4
    ensures var w: int, x: int, y: int, z: int := b[0], b[1], b[2], b[3]; Val(b) == 8 * w + 4 * x + 2 * y + z
  {
    hide Pow2;
    var w: int, x: int, y: int := b[0], b[1], b[2];
    assert b == [b[0]] + [b[1]] + [b[2]] + [b[3]];
    assert [] + [b[0]] == [b[0]];
    LastBit([], 0, b[0]);
    LastBit([b[0]], w, b[1]);
    LastBit([b[0]] + [b[1]], 2 * w + x, b[2]);
    LastBit([b[0]] + [b[1]] + [b[2]], 4 * w + 2 * x + y, b[3]);
  }

  lemma ValOfSix(b: seq<bit>)
    requires |b| == 6
    ensures var w: int, x: int := b[0], b[1]; Val(b) == 32 * w + 16 * x + Val(b[2..])
    ensures Val(b[2..]) < 16
  {
    assert Pow2(4) == 16;
    var w: int, x: int := b[0], b[1];
    ValConcat(b[..2], b[2..]);
    assert b == b[..2] + b[2..];
    assert Val(b[..2]) == 2 * w + x by { assert b[..2][..1] == [b[0]]; assert [b[0]][..0] == []; }
  }

  /** The last four bits of a selector code. */
  lemma FirstZeroOfFour(b: seq<bit>)
    requires |b| == 4
    ensures Val(b) < 16 && FIRST_ZERO_LAST[Val(b)] == 2 + FirstZero(b)
  {
    ValOfFour(b);
    hide Val;
    assert FirstZero(b) == if b[0] == 0 then 1 else 1 + FirstZero(b[1..]);
    assert FirstZero(b[1..]) == if b[1] == 0 then 1 else 1 + FirstZero(b[2..]);
    assert FirstZero(b[2..]) == if b[2] == 0 then 1 else 1 + FirstZero(b[3..]);
    assert FirstZero(b[3..]) == if b[3] == 0 then 1 else 2;
  }

  lemma FirstZeroTable(b: seq<bit>)
    requires |b| == 6
    ensures Val(b) < 64 && FIRST_ZERO[Val(b)] == FirstZero(b)
  {
    ValOfSix(b);
    FirstZeroAt(Val(b));
    FirstZeroOfFour(b[2..]);
    hide Val, Pow2;
    assert b[1..][1..] == b[2..];
    hide FIRST_ZERO, FIRST_ZERO_LAST;
  }

  lemma FirstZeroAt(x: nat)
    requires x < 64
    ensures |FIRST_ZERO| == 64 && |FIRST_ZERO_LAST| == 16
    ensures FIRST_ZERO[x] == if x < 32 then 1 else if x < 48 then 2 else FIRST_ZERO_LAST[x - 48]
  {
    FourRows(ROW_ONES, ROW_ONES, ROW_TWOS, FIRST_ZERO_LAST, x);
  }

  lemma BitsAt(x: nat)
    requires x < 64
    ensures |STEP_BITS| == 64 && |BITS_LAST| == 16
    ensures STEP_BITS[x] == if x < 32 then 1 else if x < 48 then BITS_LAST[x - 32] else BITS_LAST[x - 48]
  {
    FourRows(ROW_ONES, ROW_ONES, BITS_LAST, BITS_LAST, x);
  }

  lemma DeltaAt(x: nat)
    requires x < 64
    ensures |STEP_DELTA| == 64 && |UP_FIRST| == |DOWN_FIRST| == 16
    ensures STEP_DELTA[x] == if x < 32 then 3 else if x < 48 then UP_FIRST[x - 32] else DOWN_FIRST[x - 48]
  {
    FourRows(ROW_THREES, ROW_THREES, UP_FIRST, DOWN_FIRST, x);
  }

  lemma StepsOfFour(b: seq<bit>, up: bool)
    requires |b| == 4
    ensures Val(b) < 16 && BITS_LAST[Val(b)] == 2 + ReadSteps(b).bits
    ensures (if up then UP_FIRST else DOWN_FIRST)[Val(b)] == 3 + (if up then 1 else -1) + ReadSteps(b).delta
    ensures !ReadSteps(b).ends <==> ReadSteps(b).bits == 4
  {
    ValOfFour(b);
    hide Val;
    var c := b[2..];
    var d := c[2..];
    assert c[0] == b[2] && c[1] == b[3];
    assert ReadSteps(d) == Steps(0, 0, false);
    assert ReadSteps(c) == if b[2] == 0 then Steps(1, 0, true) else Steps(2, if b[3] == 0 then 1 else -1, false);
  }

  lemma StepTables(b: seq<bit>)
    requires |b| == 6
    ensures Val(b) < 64 && STEP_BITS[Val(b)] == ReadSteps(b).bits
    ensures STEP_DELTA[Val(b)] == ReadSteps(b).delta + 3
    ensures STEP_BITS[Val(b)] != 6 <==> ReadSteps(b).ends
  {
    hide *;
    ValOfSix(b);
    BitsAt(Val(b));
    DeltaAt(Val(b));
    StepsOfFour(b[2..], b[1] == 0);
    FirstSteps(b);
  }

  lemma FirstSteps(b: seq<bit>)
    requires |b| == 6
    ensures ReadSteps(b) == if b[0] == 0 then Steps(1, 0, true)
      else var s := ReadSteps(b[2..]); Steps(s.bits + 2, s.delta + (if b[1] == 0 then 1 else -1), s.ends)
  {
  }
}
