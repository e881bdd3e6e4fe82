/** Rising and falling rotations: what the sorted matrix of rotations tells about the row
    that each row leads to. */
module SortedRows {
  import opened Common
  import opened Bwt
  import opened CountingSort

  // ----- rising and falling strings -----

  /** The first character that differs from those before it is greater: a string of type B. */
  predicate Rises(x: seq<byte>) {
    |x| >= 2 && (x[0] < x[1] || (x[0] == x[1] && Rises(x[1..])))
  }

  /** The first character that differs is smaller: a string of type A. */
  predicate Falls(x: seq<byte>) {
    |x| >= 2 && (x[0] > x[1] || (x[0] == x[1] && Falls(x[1..])))
  }

  predicate Constant(x: seq<byte>) {
    forall i :: 0 <= i < |x| ==> x[i] == x[0]
  }

  lemma {:induction false} RisesOrFalls(x: seq<byte>)
    requires !Constant(x)
    ensures Rises(x) != Falls(x)
  {
    if x[0] == x[1] {
      if Constant(x[1..]) { ConstantTail(x); }
      RisesOrFalls(x[1..]);
    }
  }

  lemma ConstantTail(x: seq<byte>)
    requires |x| >= 2 && x[0] == x[1] && Constant(x[1..])
    ensures Constant(x)
  {
    forall i | 0 <= i < |x| ensures x[i] == x[0] {
      if i > 0 { assert x[i] == x[1..][i - 1]; }
    }
  }

  /** A string that rises is less than what follows its first character. */
  lemma {:induction false} RisesLess(x: seq<byte>, y: byte)
    requires Rises(x)
    ensures !LexLe(x[1..] + [y], x)
  {
    var z := x[1..] + [y];
    if x[0] == x[1] {
      RisesLess(x[1..], y);
      assert z[1..] == x[1..][1..] + [y];
    }
  }

  lemma {:induction false} FallsGreater(x: seq<byte>, y: byte)
    requires Falls(x)
    ensures !LexLe(x, x[1..] + [y])
  {
    var z := x[1..] + [y];
    if x[0] == x[1] {
      FallsGreater(x[1..], y);
      assert z[1..] == x[1..][1..] + [y];
    }
  }

  /** Among strings with one first character, those that rise come last. */
  lemma {:induction false} RisesLater(a: seq<byte>, b: seq<byte>)
    requires |a| == |b| > 0 && a[0] == b[0] && LexLe(a, b) && Rises(a)
    ensures Rises(b)
  {
    if a[0] == a[1] && b[0] == b[1] {
      RisesLater(a[1..], b[1..]);
    }
  }

  /** Without its last character, equal to the first, a string rises as before. */
  lemma {:induction false} RisesFront(x: seq<byte>, c: byte)
    requires |x| >= 1 && x[|x| - 1] == c && c == x[0]
    ensures Rises(x[..|x| - 1]) == Rises(x)
    decreases |x|
  {
    var f := x[..|x| - 1];
    if |x| >= 3 && x[0] == x[1] {
      assert f[1..] == x[1..][..|x| - 2];
      RisesFront(x[1..], c);
    }
  }

  /** Rotated right, a string rises if its last character is less than its first, or equal
      and it rises itself. */
  lemma RotatedRises(x: seq<byte>)
    requires |x| >= 2
    ensures Rises(RotateRight(x)) <==> x[|x| - 1] < x[0] || (x[|x| - 1] == x[0] && Rises(x))
  {
    var z := RotateRight(x);
    assert z[1..] == x[..|x| - 1];
    if x[|x| - 1] == x[0] { RisesFront(x, x[0]); }
  }

  // ----- the rows -----

  /** First and last characters of the sorted rows, and whether they rise. */
  datatype Rows = Rows(first: seq<byte>, last: seq<byte>, rises: seq<bool>)

  ghost function RowsOf(t: seq<byte>, sa: seq<int>): (r: Rows)
    requires IsRotationOrder(t, sa)
    ensures |r.first| == |r.last| == |r.rises| == |t| && r.last == LastColumn(t, sa)
    ensures forall p {:trigger r.first[p]} {:trigger r.rises[p]} :: 0 <= p < |t| ==> r.first[p] == t[sa[p]] && r.rises[p] == Rises(Rotation(t, sa[p]))
  {
    Rows(seq(|t|, (p: int) requires 0 <= p < |t| => t[sa[p]]), LastColumn(t, sa),
         seq(|t|, (p: int) requires 0 <= p < |t| => Rises(Rotation(t, sa[p]))))
  }

  /** Does the rotation that starts one position before that of row `p` rise? */
  predicate PredRises(r: Rows, p: int)
    requires 0 <= p < |r.first| == |r.last| == |r.rises|
  {
    r.last[p] < r.first[p] || (r.last[p] == r.first[p] && r.rises[p])
  }

  /** The row of that rotation. */
  function Pred(r: Rows, p: int): int
    requires 0 <= p < |r.last|
  {
    Place(r.last, p)
  }

  /** How rows lead to one another: a row that rises is before the row it comes from, and
      one that falls after it. */
  ghost predicate Coherent(r: Rows) {
    && |r.first| == |r.last| == |r.rises|
    && (forall p {:trigger Pred(r, p)} :: 0 <= p < |r.last| ==>
          0 <= Pred(r, p) < |r.last| && r.first[Pred(r, p)] == r.last[p] && r.rises[Pred(r, p)] == PredRises(r, p)
          && if PredRises(r, p) then Pred(r, p) < p else p < Pred(r, p))
    && (forall p, q {:trigger r.first[p], r.first[q]} :: 0 <= p < q < |r.last| ==>
          r.first[p] < r.first[q] || (r.first[p] == r.first[q] && (r.rises[p] ==> r.rises[q])))
  }

  lemma {:induction false} ConstantRotation(t: seq<byte>, i: nat)
    requires i < |t| && Constant(Rotation(t, i))
    ensures Constant(t)
  {
    var x := Rotation(t, i);
    forall k | 0 <= k < |t| ensures t[k] == x[0] {
      assert t[k] == x[if k >= i then k - i else k + |t| - i];
    }
  }

  /** Row `p` rotated right is row `Pred(p)`. */
  lemma PredRow(t: seq<byte>, sa: seq<int>, p: nat)
    requires IsRotationOrder(t, sa) && p < |t|
    ensures var q := Place(LastColumn(t, sa), p);
      0 <= q < |t| && Links(LastColumn(t, sa))[q] == p && Rotation(t, sa[q]) == RotateRight(Rotation(t, sa[p]))
  {
    var col := LastColumn(t, sa);
    LinksSort(col);
    LinkRotates(t, sa, Links(col), Place(col, p));
  }

  /** A string is less than itself rotated left exactly if it rises. */
  lemma LeftOrder(z: seq<byte>, x: seq<byte>)
    requires |z| >= 2 && !Constant(z) && x == z[1..] + [z[0]]
    ensures if Rises(z) then !LexLe(x, z) else !LexLe(z, x)
  {
    hide Constant, LexLe, Rises, Falls;
    RisesOrFalls(z);
    if Rises(z) { RisesLess(z, z[0]); } else { FallsGreater(z, z[0]); }
  }

  lemma LeftOfRight(x: seq<byte>)
    requires x != []
    ensures x == RotateRight(x)[1..] + [RotateRight(x)[0]]
  {
    assert RotateRight(x)[1..] == x[..|x| - 1];
  }

  lemma PredOrder(t: seq<byte>, sa: seq<int>, p: nat, q: nat)
    requires IsRotationOrder(t, sa) && p < |t| && q < |t| && !Constant(t) && Rotation(t, sa[q]) == RotateRight(Rotation(t, sa[p]))
    ensures if Rises(Rotation(t, sa[q])) then q < p else p < q
  {
    hide LexLe, Rises, Constant, RotateRight, Rotation;
    var x, z := Rotation(t, sa[p]), Rotation(t, sa[q]);
    if Constant(z) { ConstantRotation(t, sa[q]); assert false; }
    LeftOfRight(x);
    assert |t| >= 2 by { ShortConstant(t); }
    LeftOrder(z, x);
    LexRefl(x);
  }

  lemma ShortConstant(t: seq<byte>)
    ensures |t| < 2 ==> Constant(t)
  {
  }

  lemma PredCoherent(t: seq<byte>, sa: seq<int>, p: nat)
    requires IsRotationOrder(t, sa) && p < |t| && !Constant(t)
    ensures var r := RowsOf(t, sa);
      && 0 <= Pred(r, p) < |t| && r.first[Pred(r, p)] == r.last[p] && r.rises[Pred(r, p)] == PredRises(r, p)
      && if PredRises(r, p) then Pred(r, p) < p else p < Pred(r, p)
  {
    hide Place, LexLe, LastColumn, Rotation, Rises;
    var r := RowsOf(t, sa);
    var q := Pred(r, p);
    PredRow(t, sa, p);
    PredOrder(t, sa, p, q);
    PredType(t, sa, p, q);
  }

  lemma PredType(t: seq<byte>, sa: seq<int>, p: nat, q: nat)
    requires IsRotationOrder(t, sa) && p < |t| && q < |t| && |t| >= 2 && Rotation(t, sa[q]) == RotateRight(Rotation(t, sa[p]))
    ensures var r := RowsOf(t, sa); r.first[q] == r.last[p] && r.rises[q] == PredRises(r, p)
  {
    hide Rises, Place;
    var x := Rotation(t, sa[p]);
    RotateRightRotation(t, sa[p]);
    RotatedRises(x);
    assert x[0] == t[sa[p]] && Rotation(t, sa[q])[0] == t[sa[q]];
  }

  lemma RowOrder(t: seq<byte>, sa: seq<int>, p: nat, q: nat)
    requires IsRotationOrder(t, sa) && p < q < |t|
    ensures var r := RowsOf(t, sa); r.first[p] < r.first[q] || (r.first[p] == r.first[q] && (r.rises[p] ==> r.rises[q]))
  {
    var a, b := Rotation(t, sa[p]), Rotation(t, sa[q]);
    assert a[0] == t[sa[p]] && b[0] == t[sa[q]];
    if a[0] == b[0] && Rises(a) { RisesLater(a, b); }
  }

  lemma RowsCoherent(t: seq<byte>, sa: seq<int>)
    requires IsRotationOrder(t, sa) && !Constant(t)
    ensures Coherent(RowsOf(t, sa))
  {
    hide Place, Rises, IsRotationOrder, LastColumn;
    var r := RowsOf(t, sa);
    forall p {:trigger Pred(r, p)} | 0 <= p < |t|
      ensures 0 <= Pred(r, p) < |t| && r.first[Pred(r, p)] == r.last[p] && r.rises[Pred(r, p)] == PredRises(r, p)
        && if PredRises(r, p) then Pred(r, p) < p else p < Pred(r, p)
    {
      PredCoherent(t, sa, p);
    }
    forall p, q {:trigger r.first[p], r.first[q]} | 0 <= p < q < |t|
      ensures r.first[p] < r.first[q] || (r.first[p] == r.first[q] && (r.rises[p] ==> r.rises[q]))
    {
      RowOrder(t, sa, p, q);
    }
  }

  // ----- positions at rows -----

  function Before(x: int, n: nat): int {
    if x == 0 then n - 1 else x - 1
  }

  /** The rotation that starts at `x` is that of row `p`. */
  ghost predicate AtRow(t: seq<byte>, sa: seq<int>, p: int, x: int)
    requires IsRotationOrder(t, sa) && 0 <= p < |t|
  {
    0 <= x < |t| && Rotation(t, x) == Rotation(t, sa[p])
  }

  /** The position before that of row `p` is at row `Pred(p)`. */
  lemma PredAtRow(t: seq<byte>, sa: seq<int>, p: nat, x: int)
    requires IsRotationOrder(t, sa) && p < |t| && AtRow(t, sa, p, x)
    ensures var q := Pred(RowsOf(t, sa), p); 0 <= q < |t| && AtRow(t, sa, q, Before(x, |t|))
    ensures t[x] == RowsOf(t, sa).first[p] && t[Before(x, |t|)] == RowsOf(t, sa).last[p]
  {
    PredRow(t, sa, p);
    RotateRightRotation(t, x);
    RotateRightRotation(t, sa[p]);
    assert Rotation(t, x)[0] == t[x] && Rotation(t, sa[p])[0] == t[sa[p]];
  }
}
