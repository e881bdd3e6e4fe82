/** Move-to-front coding of selectors without branches: the whole list of six trees is
    packed into one 32-bit word. */
module SelectorMtf {

  /** Tree `n` as a nibble. */
  function Nibble(n: nat): bv32
    requires n < 6
  {
    if n == 0 then 0 else if n == 1 then 1 else if n == 2 then 2 else if n == 3 then 3 else if n == 4 then 4 else 5
  }

  function At(p: bv32, i: nat): bv32
    requires i < 6
  {
    if i == 0 then p & 0xF else if i == 1 then (p >> 4) & 0xF else if i == 2 then (p >> 8) & 0xF
    else if i == 3 then (p >> 12) & 0xF else if i == 4 then (p >> 16) & 0xF else (p >> 20) & 0xF
  }

  /** How many zero bits are below the lowest one bit. */
  function TrailingZeros(h: bv32, limit: nat): (n: nat)
    ensures n <= limit
  {
    if limit == 0 || h & 1 == 1 then 0 else 1 + TrailingZeros(h >> 1, limit - 1)
  }

  /** The mask up to the lowest nibble that equals `c`. */
  function Mask(p: bv32, c: bv32): bv32 {
    var v := p ^ (0x111111 * c);
    var z := (v + 0xEEEEEF) & 0x888888;
    z ^ (z - 1)
  }

  function Rotated(p: bv32, c: bv32): bv32 {
    Moved(p, c, Mask(p, c))
  }

  /** The list packed into `p`. */
  ghost predicate Packs(p: bv32, order: seq<nat>) {
    && |order| == 6 && p & 0xFF000000 == 0
    && forall i {:trigger order[i]} :: 0 <= i < 6 ==> order[i] < 6 && At(p, i) == Nibble(order[i])
  }

  /** All nibbles below the sixth are trees. */
  predicate Six(p: bv32) {
    p & 0xFF888888 == 0
  }

  lemma Mask0(p: bv32, c: bv32)
    requires c <= 5 && Six(p) && p & 0xF == c
    ensures Mask(p, c) == 0xF
  {
  }

  lemma Mask1(p: bv32, c: bv32)
    requires c <= 5 && Six(p) && (p >> 4) & 0xF == c
    requires p & 0xF != c
    ensures Mask(p, c) == 0xFF
  {
  }

  lemma Mask2(p: bv32, c: bv32)
    requires c <= 5 && Six(p) && (p >> 8) & 0xF == c
    requires p & 0xF != c && (p >> 4) & 0xF != c
    ensures Mask(p, c) == 0xFFF
  {
  }

  lemma Mask3(p: bv32, c: bv32)
    requires c <= 5 && Six(p) && (p >> 12) & 0xF == c
    requires p & 0xF != c && (p >> 4) & 0xF != c && (p >> 8) & 0xF != c
    ensures Mask(p, c) == 0xFFFF
  {
  }

  lemma Mask4(p: bv32, c: bv32)
    requires c <= 5 && Six(p) && (p >> 16) & 0xF == c
    requires p & 0xF != c && (p >> 4) & 0xF != c && (p >> 8) & 0xF != c && (p >> 12) & 0xF != c
    ensures Mask(p, c) == 0xFFFFF
  {
  }

  lemma Mask5(p: bv32, c: bv32)
    requires c <= 5 && Six(p) && (p >> 20) & 0xF == c
    requires p & 0xF != c && (p >> 4) & 0xF != c && (p >> 8) & 0xF != c && (p >> 12) & 0xF != c && (p >> 16) & 0xF != c
    ensures Mask(p, c) == 0xFFFFFF
  {
  }

  /** The mask covers the nibbles up to position `j`. */
  function Below(j: nat): bv32
    requires j < 6
  {
    if j == 0 then 0xF else if j == 1 then 0xFF else if j == 2 then 0xFFF
    else if j == 3 then 0xFFFF else if j == 4 then 0xFFFFF else 0xFFFFFF
  }

  lemma MaskIs(p: bv32, c: bv32, j: nat)
    requires c <= 5 && Six(p) && j < 6 && At(p, j) == c && forall i :: 0 <= i < j ==> At(p, i) != c
    ensures Mask(p, c) == Below(j)
  {
    assert j > 0 ==> At(p, 0) != c;
    assert j > 1 ==> At(p, 1) != c;
    assert j > 2 ==> At(p, 2) != c;
    assert j > 3 ==> At(p, 3) != c;
    assert j > 4 ==> At(p, 4) != c;
    hide Mask;
    if j == 0 { Mask0(p, c); }
    if j == 1 { Mask1(p, c); }
    if j == 2 { Mask2(p, c); }
    if j == 3 { Mask3(p, c); }
    if j == 4 { Mask4(p, c); }
    if j == 5 { Mask5(p, c); }
  }

  /** Everything up to the mask `m` moves up by one nibble, and `c` takes the front. */
  function Moved(p: bv32, c: bv32, m: bv32): bv32 {
    (p | m) & ((p << 4) | !m | c)
  }

  lemma Moved0(p: bv32, c: bv32)
    requires c <= 5 && Six(p)
    ensures var r := Moved(p, c, 0xF);
      At(r, 0) == c && At(r, 1) == At(p, 1) && At(r, 2) == At(p, 2)
      && At(r, 3) == At(p, 3) && At(r, 4) == At(p, 4) && At(r, 5) == At(p, 5) && r & 0xFF000000 == 0
  {
  }

  lemma Moved1(p: bv32, c: bv32)
    requires c <= 5 && Six(p)
    ensures var r := Moved(p, c, 0xFF);
      At(r, 0) == c && At(r, 1) == At(p, 0) && At(r, 2) == At(p, 2)
      && At(r, 3) == At(p, 3) && At(r, 4) == At(p, 4) && At(r, 5) == At(p, 5) && r & 0xFF000000 == 0
  {
  }

  lemma Moved2(p: bv32, c: bv32)
    requires c <= 5 && Six(p)
    ensures var r := Moved(p, c, 0xFFF);
      At(r, 0) == c && At(r, 1) == At(p, 0) && At(r, 2) == At(p, 1)
      && At(r, 3) == At(p, 3) && At(r, 4) == At(p, 4) && At(r, 5) == At(p, 5) && r & 0xFF000000 == 0
  {
  }

  lemma Moved3(p: bv32, c: bv32)
    requires c <= 5 && Six(p)
    ensures var r := Moved(p, c, 0xFFFF);
      At(r, 0) == c && At(r, 1) == At(p, 0) && At(r, 2) == At(p, 1)
      && At(r, 3) == At(p, 2) && At(r, 4) == At(p, 4) && At(r, 5) == At(p, 5) && r & 0xFF000000 == 0
  {
  }

  lemma Moved4(p: bv32, c: bv32)
    requires c <= 5 && Six(p)
    ensures var r := Moved(p, c, 0xFFFFF);
      At(r, 0) == c && At(r, 1) == At(p, 0) && At(r, 2) == At(p, 1)
      && At(r, 3) == At(p, 2) && At(r, 4) == At(p, 3) && At(r, 5) == At(p, 5) && r & 0xFF000000 == 0
  {
  }

  lemma Moved5(p: bv32, c: bv32)
    requires c <= 5 && Six(p)
    ensures var r := Moved(p, c, 0xFFFFFF);
      At(r, 0) == c && At(r, 1) == At(p, 0) && At(r, 2) == At(p, 1)
      && At(r, 3) == At(p, 2) && At(r, 4) == At(p, 3) && At(r, 5) == At(p, 4) && r & 0xFF000000 == 0
  {
  }

  lemma RotatedAt(p: bv32, c: bv32, j: nat, i: nat)
    requires c <= 5 && Six(p) && i < 6 && j < 6
    ensures var r := Moved(p, c, Below(j));
      At(r, i) == (if i == 0 then c else if i <= j then At(p, i - 1) else At(p, i)) && r & 0xFF000000 == 0
  {
    hide Moved, At, Six;
    if j == 0 { Moved0(p, c); }
    if j == 1 { Moved1(p, c); }
    if j == 2 { Moved2(p, c); }
    if j == 3 { Moved3(p, c); }
    if j == 4 { Moved4(p, c); }
    if j == 5 { Moved5(p, c); }
  }

  lemma SixNibbles(p: bv32, order: seq<nat>)
    requires Packs(p, order)
    ensures Six(p)
  {
    assert order[0] < 6 && order[1] < 6 && order[2] < 6 && order[3] < 6 && order[4] < 6 && order[5] < 6;
    SixParts(p);
  }

  lemma SixParts(p: bv32)
    requires At(p, 0) <= 5 && At(p, 1) <= 5 && At(p, 2) <= 5 && At(p, 3) <= 5 && At(p, 4) <= 5 && At(p, 5) <= 5
    requires p & 0xFF000000 == 0
    ensures Six(p)
  {
  }

  function ToFront<T>(order: seq<T>, j: nat): (r: seq<T>)
    requires j < |order|
    ensures |r| == |order|
    ensures forall i {:trigger r[i]} :: 0 <= i < |r| ==>
      r[i] == if i == 0 then order[j] else if i <= j then order[i - 1] else order[i]
  {
    [order[j]] + order[..j] + order[j + 1..]
  }

  /** Where the list has tree `c`. */
  function Position(order: seq<nat>, c: nat): (j: nat)
    requires c in order
    ensures j < |order| && order[j] == c && forall i :: 0 <= i < j ==> order[i] != c
  {
    if order[0] == c then 0 else
      assert forall x :: x in order ==> x == order[0] || x in order[1..];
      1 + Position(order[1..], c)
  }

  lemma NibbleInjective(a: nat, b: nat)
    requires a < 6 && b < 6
    ensures Nibble(a) == Nibble(b) <==> a == b
    ensures Nibble(a) <= 5
  {
  }

  /** The word without branches is the list with the tree moved to the front. */
  lemma RotatedPacks(p: bv32, order: seq<nat>, c: nat)
    requires Packs(p, order) && c < 6 && c in order
    ensures Mask(p, Nibble(c)) == Below(Position(order, c))
    ensures Packs(Rotated(p, Nibble(c)), ToFront(order, Position(order, c)))
  {
    hide Mask, At, Below, Moved, Six, Nibble;
    var j, n := Position(order, c), Nibble(c);
    SixNibbles(p, order);
    NibbleInjective(c, c);
    forall i | 0 <= i < j ensures At(p, i) != n {
      assert order[i] < 6;
      NibbleInjective(order[i], c);
    }
    assert order[j] == c;
    MaskIs(p, n, j);
    var r := Rotated(p, n);
    var to := ToFront(order, j);
    RotatedAt(p, n, j, 0);
    forall i {:trigger to[i]} | 0 <= i < 6 ensures to[i] < 6 && At(r, i) == Nibble(to[i]) {
      RotatedAt(p, n, j, i);
      assert order[i] < 6;
      if i > 0 { assert order[i - 1] < 6; }
    }
  }

  lemma FourZeros(h: bv32, limit: nat)
    requires h & 0xF == 0 && limit >= 4
    ensures TrailingZeros(h, limit) == 4 + TrailingZeros(h >> 4, limit - 4)
  {
    assert h & 1 == 0 && (h >> 1) & 1 == 0 && ((h >> 1) >> 1) & 1 == 0 && (((h >> 1) >> 1) >> 1) & 1 == 0;
    assert (((h >> 1) >> 1) >> 1) >> 1 == h >> 4;
    assert TrailingZeros(h, limit) == 1 + TrailingZeros(h >> 1, limit - 1);
    assert TrailingZeros(h >> 1, limit - 1) == 1 + TrailingZeros((h >> 1) >> 1, limit - 2);
  }

  /** The position is read off the number of zero bits below the rest of the word. */
  lemma PositionBits(j: nat)
    requires j < 6
    ensures TrailingZeros(!Below(j), 32) / 4 - 1 == j
  {
    var h := !Below(j);
    FourZeros(h, 32);
    if j >= 1 { FourZeros(h >> 4, 28); }
    if j >= 2 { FourZeros((h >> 4) >> 4, 24); }
    if j >= 3 { FourZeros(((h >> 4) >> 4) >> 4, 20); }
    if j >= 4 { FourZeros((((h >> 4) >> 4) >> 4) >> 4, 16); }
    if j >= 5 { FourZeros(((((h >> 4) >> 4) >> 4) >> 4) >> 4, 12); }
  }
}
