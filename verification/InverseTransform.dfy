/** Facts about counts, links and packed nodes that the block decoder relies on. */
module InverseTransform {
  import opened Common
  import opened Permutation
  import opened Bwt
  import opened CountingSort
  import opened NodeList
  import opened Randomizer

  /** The width of the range left to search when `step` is tried next. */
  function Span(step: int): int {
    if step == 0 then 1 else 2 * step
  }

  /** Character `c` owns place `j` of the sorted column. */
  ghost predicate Brackets(col: seq<byte>, c: int, j: nat) {
    CountBelow(col, c) <= j < CountBelow(col, c + 1)
  }

  lemma BracketsUnique(col: seq<byte>, c: int, d: int, j: nat)
    requires Brackets(col, c, j) && Brackets(col, d, j)
    ensures c == d
  {
    if c < d {
      CountBelowMonotone(col, c + 1, d);
    } else if d < c {
      CountBelowMonotone(col, d + 1, c);
    }
  }

  /** Link `j` leads to the character that comes `j`-th. */
  ghost predicate FirstColumn(col: seq<byte>, next: seq<int>) {
    && |next| == |col| && Below(next, |col|)
    && forall j :: 0 <= j < |col| ==> Brackets(col, col[next[j]], j)
  }

  lemma LinksAreFirstColumn(col: seq<byte>)
    ensures FirstColumn(col, Links(col))
  {
    var next := Links(col);
    forall j | 0 <= j < |col| ensures Brackets(col, col[next[j]], j) {
      PlaceBounds(col, next[j], col[next[j]]);
    }
  }

  lemma DescribeLinks(col: seq<byte>, idx: nat) returns (place: seq<int>, next: seq<int>, t: seq<byte>)
    requires idx < |col|
    ensures |place| == |col| && IsInverse(place, next) && FirstColumn(col, next)
    ensures forall x {:trigger Place(col, x)} :: 0 <= x < |col| ==> place[x] == Place(col, x)
    ensures t == Walk(col, next, next[idx], |col|) == Unsorted(col, idx)
  {
    place, next, t := Places(col), Links(col), Unsorted(col, idx);
    LinksInvertPlaces(col);
    LinksAreFirstColumn(col);
  }

  ghost predicate PartlyDerandomized(table: stepTable, tt: seq<uint32>, t: seq<byte>, j: int) {
    && |tt| == |t|
    && forall x {:trigger tt[x]} :: 0 <= x < |tt| ==>
         tt[x] % 0x100 == if x < j && Hit(table, 0, RAND_THRESH, x) then Flip(t[x]) else t[x]
  }

  lemma DerandomizedCharacters(table: stepTable, tt: seq<uint32>, t: seq<byte>)
    requires PartlyDerandomized(table, tt, t, |t|)
    ensures Characters(tt) == Derandomized(table, t)
  {
  }

  lemma HitJump(table: stepTable, i: nat, j: nat)
    requires i < 512
    ensures Hit(table, i, j, j)
    ensures var k := (i + 1) % 512;
      && (forall x :: j < x < j + table[k] ==> !Hit(table, i, j, x))
      && (forall x :: j + table[k] <= x ==> Hit(table, i, j, x) == Hit(table, k, j + table[k], x))
  {
  }

  lemma PartlyDerandomizedStep(table: stepTable, tt: seq<uint32>, tt': seq<uint32>, t: seq<byte>, i: nat, j: nat)
    requires i < 512 && j < |tt| == |t| && PartlyDerandomized(table, tt, t, j)
    requires forall x :: j <= x < |t| ==> Hit(table, 0, RAND_THRESH, x) == Hit(table, i, j, x)
    requires |tt'| == |tt| && tt'[j] == (if tt[j] % 2 == 0 then tt[j] + 1 else tt[j] - 1)
    requires tt' == tt[j := tt'[j]]
    ensures PartlyDerandomized(table, tt', t, j + table[(i + 1) % 512])
  {
    HitJump(table, i, j);
    FlipNode(tt[j], tt'[j]);
    forall x | 0 <= x < |tt'| && x != j ensures tt'[x] == tt[x] {
    }
    var next := j + table[(i + 1) % 512];
    assert Hit(table, 0, RAND_THRESH, j);
    assert forall x :: j < x < next && x < |t| ==> !Hit(table, 0, RAND_THRESH, x);
    hide *;
  }

  lemma Halve(x: nat, h: nat, l: nat)
    requires x == 2 * h + l && l < 2
    ensures x % 2 == l
  {
  }

  lemma FlipParts(q: nat, h: nat, l: nat, a: nat)
    requires h < 0x80 && l < 2 && a == 0x100 * q + 2 * h + l
    ensures a % 2 == l && a % 0x100 == 2 * h + l
    ensures (if l == 0 then a + 1 else a - 1) % 0x100 == 2 * h + (1 - l) == Flip(2 * h + l)
  {
    Halve(a, 0x80 * q + h, l);
    Halve(2 * h + l, h, l);
    Unpack(a, q, 2 * h + l);
    Unpack(if l == 0 then a + 1 else a - 1, q, 2 * h + (1 - l));
  }

  lemma FlipNode(a: uint32, b: uint32)
    requires b == if a % 2 == 0 then a + 1 else a - 1
    ensures b % 0x100 == Flip(a % 0x100)
  {
    var q, r := a / 0x100, a % 0x100;
    FlipParts(q, r / 2, r % 2, a);
  }

  ghost predicate PartlyUnsorted(tt: seq<uint32>, next: seq<int>, col: seq<byte>, t: seq<byte>, i: int) {
    && |tt| == |next| == |col| == |t|
    && forall x {:trigger tt[x]} :: 0 <= x < |tt| ==> tt[x] == next[x] * 0x100 + if x < i then t[x] else col[x]
  }

  lemma UnsortedCharacters(tt: seq<uint32>, next: seq<int>, col: seq<byte>, t: seq<byte>)
    requires PartlyUnsorted(tt, next, col, t, |tt|) && Below(next, |tt|)
    ensures Characters(tt) == t
  {
    forall x | 0 <= x < |tt| ensures Characters(tt)[x] == t[x] {
      Unpack(tt[x], next[x], t[x]);
    }
  }

  lemma WalkStep(col: seq<byte>, next: seq<int>, j: int, i: nat, t: seq<byte>)
    requires |next| == |col| == |t| && Below(next, |col|) && 0 <= j < |col| && i < |col|
    requires Walk(col, next, next[j], |col| - i) == t[i..]
    ensures col[next[j]] == t[i]
    ensures Walk(col, next, next[next[j]], |col| - (i + 1)) == t[i + 1..]
  {
    var w := Walk(col, next, next[j], |col| - i);
    assert w[0] == t[i..][0];
    assert w[1..] == t[i..][1..];
  }

  lemma PackedWalk(tt: seq<uint32>, col: seq<byte>, next: seq<int>, idx: nat)
    requires |tt| == |next| == |col| && Below(next, |col|) && idx < |col|
    requires Packed(tt, col, next)
    ensures Linked(tt, tt[idx], |tt|)
    ensures Listed(tt, tt[idx], |tt|) == Walk(col, next, next[idx], |col|)
  {
    forall j | 0 <= j < |tt| ensures Pointers(tt)[j] == next[j] && Characters(tt)[j] == col[j] {
      Unpack(tt[j], next[j], col[j]);
    }
    assert Pointers(tt) == next;
    assert Characters(tt) == col;
    ListedIsWalk(tt, tt[idx], |tt|);
  }

  /** The nodes of the first `i` positions have been linked to. */
  ghost predicate PartlyLinked(tt: seq<uint32>, col: seq<byte>, next: seq<int>, i: int)
    requires |next| == |col|
  {
    && |tt| == |col|
    && forall j {:trigger tt[j]} :: 0 <= j < |col| ==> tt[j] == if next[j] < i then next[j] * 0x100 + col[j] else col[j]
  }

  ghost predicate Packed(tt: seq<uint32>, col: seq<byte>, next: seq<int>) {
    && |tt| == |col| == |next|
    && forall j {:trigger tt[j]} :: 0 <= j < |tt| ==> tt[j] == next[j] * 0x100 + col[j]
  }

  lemma Unpack(node: int, pointer: nat, c: byte)
    requires node == pointer * 0x100 + c
    ensures node % 0x100 == c && node / 0x100 == pointer
  {
  }

  lemma PartlyLinkedStep(tt: seq<uint32>, col: seq<byte>, place: seq<int>, next: seq<int>, i: nat, p: int)
    requires |place| == |next| == |col| <= MAX_BLOCK_SIZE
    requires IsInverse(place, next)
    requires i < |col| && p == place[i]
    requires PartlyLinked(tt, col, next, i)
    ensures 0 <= p < |col| && tt[p] + i * 0x100 < 0x1_0000_0000
    ensures PartlyLinked(tt[p := tt[p] + i * 0x100], col, next, i + 1)
  {
    assert next[p] == i;
    forall j | 0 <= j < |col| && j != p ensures next[j] != i {
      assert place[next[j]] == j;
    }
  }

}
