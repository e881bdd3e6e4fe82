/** The obsolete randomisation of blocks and its removal. */
module Randomizer {
  import opened Common

  const RAND_THRESH := 617

  /** The numbers of a table lie in this range. */
  type step = n: int | 50 <= n <= 999 witness 50

  type stepTable = t: seq<step> | |t| == 512 witness seq(512, _ => 50)

  /** The character with its lowest bit flipped. */
  function Flip(c: byte): byte {
    if c % 2 == 0 then c + 1 else c - 1
  }

  /** Is position `x` flipped, once the walk over the table has reached entry `i`
      and position `j`? */
  ghost predicate Hit(table: stepTable, i: nat, j: nat, x: int)
    requires i < 512
    decreases x - j
  {
    x == j || (j < x && Hit(table, (i + 1) % 512, j + table[(i + 1) % 512], x))
  }

  /** The block with randomisation removed, or added: it is its own inverse. */
  ghost function Derandomized(table: stepTable, t: seq<byte>): (r: seq<byte>)
    ensures |r| == |t|
  {
    seq(|t|, (x: int) requires 0 <= x < |t| => if Hit(table, 0, RAND_THRESH, x) then Flip(t[x]) else t[x])
  }

  // ----- which characters are flipped -----

  /** The sum of entries 1 to `m` of the table, which repeats. */
  function StepSum(table: stepTable, m: nat): nat {
    if m == 0 then 0 else StepSum(table, m - 1) + table[m % 512]
  }

  /** Having gone `k` steps to position `j`, the walk hits what lies any number of steps on. */
  lemma {:induction false} HitSums(table: stepTable, k: nat, j: nat, x: int)
    requires j == 617 + StepSum(table, k)
    ensures Hit(table, k % 512, j, x) <==> exists m: nat :: k <= m && x == 617 + StepSum(table, m)
    decreases x - j
  {
    if x > j {
      var i := (k + 1) % 512;
      assert (k % 512 + 1) % 512 == i;
      HitSums(table, k + 1, j + table[i], x);
      assert x != 617 + StepSum(table, k);
    } else {
      forall m: nat | k < m ensures x < 617 + StepSum(table, m) { SumsGrow(table, k, m); }
      if x == j { assert x == 617 + StepSum(table, k); }
    }
  }

  lemma {:induction false} SumsGrow(table: stepTable, k: nat, m: nat)
    requires k < m
    ensures StepSum(table, k) < StepSum(table, m)
    decreases m
  {
    if k < m - 1 { SumsGrow(table, k, m - 1); }
  }

  /** A character is changed exactly if it lies at 617 plus the first entries of the table,
      however many, beginning with the second one and repeating; and then in its lowest bit. */
  lemma DerandomizedAt(table: stepTable, t: seq<byte>, x: nat)
    requires x < |t|
    ensures Derandomized(table, t)[x] != t[x] <==> exists m: nat :: x == 617 + StepSum(table, m)
    ensures Derandomized(table, t)[x] / 2 == t[x] / 2
  {
    HitSums(table, 0, 617, x);
    if m: nat :| x == 617 + StepSum(table, m) { assert 0 <= m && x == 617 + StepSum(table, m); }
    assert RAND_THRESH == 617 && 0 % 512 == 0;
    hide Hit;
    assert Hit(table, 0, RAND_THRESH, x) == Hit(table, 0 % 512, 617, x);
  }

  lemma DerandomizedTwice(table: stepTable, t: seq<byte>)
    ensures Derandomized(table, Derandomized(table, t)) == t
  {
    forall x | 0 <= x < |t| ensures Derandomized(table, Derandomized(table, t))[x] == t[x] {
      assert Flip(Flip(t[x])) == t[x];
    }
  }
}
