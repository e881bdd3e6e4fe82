/** The block sorter's last stage: from the sorted rotations of type B*, two scans over one
    array leave in it the last column of all sorted rotations. */
module InducedSort {
  import opened Common
  import opened Permutation
  import opened Bwt
  import opened CountingSort
  import opened SortedRows

  // ----- buckets -----

  const BUCKETS := 257 * 256

  function BucketA(c: int): int { c + 0x1_0000 }

  /** For strings of type B; `c0 <= c1`. */
  function BucketB(c0: int, c1: int): int { c1 * 256 + c0 }

  /** For strings of type B*; `c0 < c1`. */
  function BucketBstar(c0: int, c1: int): int { c0 * 256 + c1 }

  /** Bitwise complement. */
  function Not(x: int): int { -x - 1 }

  ghost function Next(r: Rows, q: int): (p: int)
    requires 0 <= q < |r.last|
    ensures 0 <= p < |r.last| && Pred(r, p) == q
  {
    Links(r.last)[q]
  }

  lemma NextOfPred(r: Rows, p: int)
    requires 0 <= p < |r.last| && 0 <= Pred(r, p) < |r.last|
    ensures Next(r, Pred(r, p)) == p
  {
  }

  /** Type B*: a row that rises and comes from one that falls. */
  ghost predicate Star(r: Rows, q: int)
    requires 0 <= q < |r.last| == |r.rises|
  {
    r.rises[q] && !r.rises[Next(r, q)]
  }

  /** Rows that start with a character below `c` come before this. */
  ghost predicate StartOk(r: Rows, b: seq<int>, c: int)
    requires |b| == BUCKETS && 0 <= c < 256 && |r.first| == |r.last|
  {
    0 <= b[BucketA(c)] <= |r.last| && forall p :: 0 <= p < |r.last| ==> (r.first[p] < c <==> p < b[BucketA(c)])
  }

  /** Rows of type B that start with `c` start here. */
  ghost predicate RisingOk(r: Rows, b: seq<int>, c: int)
    requires |b| == BUCKETS && 0 <= c < 255 && |r.first| == |r.last| == |r.rises|
  {
    && 0 <= b[BucketBstar(c, c + 1)] <= |r.last|
    && forall p :: 0 <= p < |r.last| ==> (r.first[p] < c || (r.first[p] == c && !r.rises[p]) <==> p < b[BucketBstar(c, c + 1)])
  }

  /** Rows of type B that start with `c0` and `c1` end here. */
  ghost predicate EndOk(r: Rows, b: seq<int>, c0: int, c1: int)
    requires |b| == BUCKETS && 0 <= c0 <= c1 < 255 && |r.first| == |r.last|
  {
    && -1 <= b[BucketB(c0, c1)] < |r.last|
    && forall p :: 0 <= p < |r.last| ==>
         (r.first[p] < c0 || (r.first[p] == c0 && r.first[Next(r, p)] <= c1) <==> p <= b[BucketB(c0, c1)])
  }

  /** What the scans read of the buckets. */
  ghost predicate BucketsOk(r: Rows, b: seq<int>)
    requires |b| == BUCKETS && |r.first| == |r.last| == |r.rises|
  {
    && (forall c {:trigger StartOk(r, b, c)} :: 0 <= c < 256 ==> StartOk(r, b, c))
    && (forall c {:trigger RisingOk(r, b, c)} :: 0 <= c < 255 ==> RisingOk(r, b, c))
  }

  ghost predicate EndsOk(r: Rows, b: seq<int>, c1: int)
    requires |b| == BUCKETS && 0 <= c1 < 255 && |r.first| == |r.last|
  {
    forall c0 {:trigger EndOk(r, b, c0, c1)} :: 0 <= c0 <= c1 ==> EndOk(r, b, c0, c1)
  }

  // ----- slots -----

  function Position(v: int): int { if v >= 0 then v else Not(v) }

  /** An entry not scanned from the right yet: a position, complemented if the one before it
      is not of type B. */
  predicate Flagged(r: Rows, v: int, x: int, q: int)
    requires 0 <= q < |r.first| == |r.last| == |r.rises|
  {
    v == if PredRises(r, q) then x else Not(x)
  }

  /** An entry to be scanned from the left: a position that still leads to another, or the
      complement of the character to be output. */
  predicate Passed(r: Rows, v: int, x: int, q: int)
    requires 0 <= q < |r.first| == |r.last| == |r.rises|
  {
    v == if PredRises(r, q) then Not(r.last[q]) else x
  }

  /** What `sort_typeBstar` leaves: the buckets, and in the slots of type B* the positions of
      type B*, in the order of their rotations and flagged.  Other slots hold anything. */
  ghost predicate BstarSorted(t: seq<byte>, sa: seq<int>, a: seq<int>, b: seq<int>) {
    && IsRotationOrder(t, sa) && !Constant(t) && |a| == |t| && |b| == BUCKETS
    && var r := RowsOf(t, sa);
    && BucketsOk(r, b)
    && (forall c1 {:trigger EndsOk(r, b, c1)} :: 0 <= c1 < 255 ==> EndsOk(r, b, c1))
    && (forall q {:trigger Star(r, q)} :: 0 <= q < |t| && Star(r, q) ==> AtRow(t, sa, q, Position(a[q])) && Flagged(r, a[q], Position(a[q]), q))
    && StarsCovered(t, sa, a)
  }

  ghost predicate StarsCovered(t: seq<byte>, sa: seq<int>, g: seq<int>)
    requires IsRotationOrder(t, sa) && |g| == |t|
  {
    forall q, x {:trigger AtRow(t, sa, q, x)} :: 0 <= q < |t| && Star(RowsOf(t, sa), q) && AtRow(t, sa, q, x) ==> InSlot(RowsOf(t, sa), g, x)
  }

  ghost predicate InSlot(r: Rows, g: seq<int>, x: int)
    requires |g| == |r.last| == |r.rises|
  {
    exists p :: 0 <= p < |g| && Star(r, p) && Position(g[p]) == x
  }

  // ----- the invariants -----

  /** Slot `q` was filled with the position `g[q]`, got from the row that leads to it. */
  ghost predicate Known(t: seq<byte>, sa: seq<int>, r: Rows, g: seq<int>, q: int)
    requires IsRotationOrder(t, sa) && |g| == |t| == |r.last| == |r.rises| && 0 <= q < |t|
  {
    AtRow(t, sa, q, g[q]) && (!Star(r, q) ==> g[q] == Before(g[Next(r, q)], |t|))
  }

  /** Filled, and still to be scanned from the right, when the rows after `j` were. */
  ghost predicate RightFilled(r: Rows, q: int, j: int)
    requires 0 <= q < |r.last| == |r.rises|
  {
    r.rises[q] && q <= j && (Star(r, q) || Next(r, q) > j)
  }

  ghost predicate RightSlot(t: seq<byte>, sa: seq<int>, r: Rows, a: seq<int>, g: seq<int>, q: int, j: int)
    requires IsRotationOrder(t, sa) && |a| == |g| == |t| == |r.first| == |r.last| == |r.rises| && 0 <= q < |t|
  {
    && (r.rises[q] && q > j ==> Known(t, sa, r, g, q) && Passed(r, a[q], g[q], q))
    && (RightFilled(r, q, j) ==> Known(t, sa, r, g, q) && Flagged(r, a[q], g[q], q))
  }

  ghost predicate RightOk(t: seq<byte>, sa: seq<int>, r: Rows, a: seq<int>, g: seq<int>, j: int)
    requires IsRotationOrder(t, sa) && |a| == |g| == |t| == |r.first| == |r.last| == |r.rises|
  {
    forall q {:trigger RightSlot(t, sa, r, a, g, q, j)} :: 0 <= q < |t| ==> RightSlot(t, sa, r, a, g, q, j)
  }

  ghost predicate LeftSlot(t: seq<byte>, sa: seq<int>, r: Rows, a: seq<int>, g: seq<int>, q: int, i: int)
    requires IsRotationOrder(t, sa) && |a| == |g| == |t| == |r.first| == |r.last| == |r.rises| && 0 <= q < |t|
  {
    && (q < i ==> Known(t, sa, r, g, q) && a[q] == r.last[q])
    && (q >= i && (r.rises[q] || Next(r, q) < i) ==> Known(t, sa, r, g, q) && Passed(r, a[q], g[q], q))
  }

  ghost predicate LeftOk(t: seq<byte>, sa: seq<int>, r: Rows, a: seq<int>, g: seq<int>, i: int)
    requires IsRotationOrder(t, sa) && |a| == |g| == |t| == |r.first| == |r.last| == |r.rises|
  {
    forall q {:trigger LeftSlot(t, sa, r, a, g, q, i)} :: 0 <= q < |t| ==> LeftSlot(t, sa, r, a, g, q, i)
  }

  /** The slot that the next position with character `c` goes to, counted from the right. */
  function RightPointer(r: Rows, c: int, j: int): int
    requires -1 <= j < |r.last|
  {
    CountBelow(r.last, c) + Count(r.last[..j + 1], c) - 1
  }

  // ----- steps of the scan from the right -----

  lemma {:induction false} RightNext(r: Rows, j: int, c: int)
    requires 0 <= j < |r.last|
    ensures RightPointer(r, c, j - 1) == RightPointer(r, c, j) - if r.last[j] == c then 1 else 0
    ensures c == r.last[j] ==> RightPointer(r, c, j) == Pred(r, j)
  {
    assert r.last[..j + 1][..j] == r.last[..j];
  }

  /** The entry at `j` leads to a position of type B. */
  lemma RightInduces(t: seq<byte>, sa: seq<int>, r: Rows, a: seq<int>, g: seq<int>, j: int, x: int, v: int)
    requires IsRotationOrder(t, sa) && |a| == |g| == |t| && r == RowsOf(t, sa) && Coherent(r)
    requires 0 <= j < |t| && r.rises[j] && RightOk(t, sa, r, a, g, j) && a[j] >= 0
    requires x == Before(a[j], |t|)
    requires v == if 0 <= x < |t| && t[Before(x, |t|)] > t[x] then Not(x) else x
    ensures 0 <= Pred(r, j) < j && 0 <= x < |t| && t[x] == r.last[j] == r.first[Pred(r, j)]
    ensures RightOk(t, sa, r, a[j := Not(t[x])][Pred(r, j) := v], g[Pred(r, j) := x], j - 1)
    ensures AtRow(t, sa, Pred(r, j), x) && a[j] == g[j] && PredRises(r, j) && r.last[j] <= r.first[j] && !Star(r, Pred(r, j))
  {
    hide AtRow, RowsOf, IsRotationOrder, Place, Links;
    var q := Pred(r, j);
    CurrentFilled(t, sa, r, a, g, j);
    PredAtRow(t, sa, j, g[j]);
    PredAtRow(t, sa, q, x);
    NextOfPred(r, j);
    RightRest(t, sa, r, a, g, j, x, v);
  }

  lemma CurrentFilled(t: seq<byte>, sa: seq<int>, r: Rows, a: seq<int>, g: seq<int>, j: int)
    requires IsRotationOrder(t, sa) && |a| == |g| == |t| == |r.first| == |r.last| == |r.rises| && Coherent(r)
    requires 0 <= j < |t| && r.rises[j] && RightOk(t, sa, r, a, g, j)
    ensures Known(t, sa, r, g, j) && Flagged(r, a[j], g[j], j) && AtRow(t, sa, j, g[j]) && 0 <= g[j] < |t|
  {
    hide Place, Links, IsRotationOrder;
    var p := Next(r, j);
    assert Pred(r, p) == j;
    assert RightSlot(t, sa, r, a, g, j, j);
  }

  lemma RightRest(t: seq<byte>, sa: seq<int>, r: Rows, a: seq<int>, g: seq<int>, j: int, x: int, v: int)
    requires IsRotationOrder(t, sa) && |a| == |g| == |t| == |r.first| == |r.last| == |r.rises| && Coherent(r)
    requires 0 <= j < |t| && r.rises[j] && RightOk(t, sa, r, a, g, j) && PredRises(r, j)
    requires Known(t, sa, r, g, j) && x == Before(g[j], |t|) && AtRow(t, sa, Pred(r, j), x)
    requires Flagged(r, v, x, Pred(r, j))
    ensures 0 <= Pred(r, j) < j && RightOk(t, sa, r, a[j := Not(r.last[j])][Pred(r, j) := v], g[Pred(r, j) := x], j - 1)
  {
    hide IsRotationOrder, AtRow, Place, Links, Known, Flagged, RightSlot;
    var q := Pred(r, j);
    var a', g', h := a[j := Not(r.last[j])][q := v], g[q := x], j - 1;
    forall p | 0 <= p < |t| ensures RightSlot(t, sa, r, a', g', p, h) {
      assert RightSlot(t, sa, r, a, g, p, j);
      RightRestSlot(t, sa, r, a, g, j, x, v, p);
    }
  }

  lemma RightRestSlot(t: seq<byte>, sa: seq<int>, r: Rows, a: seq<int>, g: seq<int>, j: int, x: int, v: int, p: int)
    requires IsRotationOrder(t, sa) && |a| == |g| == |t| == |r.first| == |r.last| == |r.rises| && Coherent(r)
    requires 0 <= j < |t| && r.rises[j] && 0 <= p < |t| && RightSlot(t, sa, r, a, g, p, j) && PredRises(r, j)
    requires Known(t, sa, r, g, j) && x == Before(g[j], |t|) && AtRow(t, sa, Pred(r, j), x)
    requires Flagged(r, v, x, Pred(r, j))
    ensures 0 <= Pred(r, j) < j && RightSlot(t, sa, r, a[j := Not(r.last[j])][Pred(r, j) := v], g[Pred(r, j) := x], p, j - 1)
  {
    hide AtRow, IsRotationOrder, Place, Links, Flagged;
    NextOfPred(r, j);
    assert Pred(r, Next(r, p)) == p;
  }

  /** The entry at `j` leads to none: it only loses its flag. */
  lemma RightKeeps(t: seq<byte>, sa: seq<int>, r: Rows, a: seq<int>, g: seq<int>, j: int)
    requires IsRotationOrder(t, sa) && |a| == |g| == |t| == |r.first| == |r.last| == |r.rises| && Coherent(r)
    requires 0 <= j < |t| && r.rises[j] && RightOk(t, sa, r, a, g, j) && a[j] < 0
    ensures RightOk(t, sa, r, a[j := Not(a[j])], g, j - 1) && !PredRises(r, j) && r.last[j] > r.first[j]
  {
    hide AtRow, IsRotationOrder, Place, Links, Known, RightSlot;
    CurrentFilled(t, sa, r, a, g, j);
    var a', h := a[j := Not(a[j])], j - 1;
    forall p | 0 <= p < |t| ensures RightSlot(t, sa, r, a', g, p, h) {
      assert RightSlot(t, sa, r, a, g, p, j);
      RightKeepsSlot(t, sa, r, a, g, j, p);
    }
  }

  lemma RightKeepsSlot(t: seq<byte>, sa: seq<int>, r: Rows, a: seq<int>, g: seq<int>, j: int, p: int)
    requires IsRotationOrder(t, sa) && |a| == |g| == |t| == |r.first| == |r.last| == |r.rises| && Coherent(r)
    requires 0 <= j < |t| && r.rises[j] && 0 <= p < |t| && RightSlot(t, sa, r, a, g, p, j) && a[j] < 0
    requires Known(t, sa, r, g, j) && Flagged(r, a[j], g[j], j) && 0 <= g[j]
    ensures RightSlot(t, sa, r, a[j := Not(a[j])], g, p, j - 1)
  {
    hide AtRow, IsRotationOrder, Place, Links;
    assert Pred(r, Next(r, p)) == p;
  }

  /** Rows that fall are not scanned. */
  lemma RightSkips(t: seq<byte>, sa: seq<int>, r: Rows, a: seq<int>, g: seq<int>, j: int, i: int)
    requires IsRotationOrder(t, sa) && |a| == |g| == |t| == |r.first| == |r.last| == |r.rises|
    requires RightOk(t, sa, r, a, g, j) && i <= j && forall q :: 0 <= q < |t| && i < q <= j ==> !r.rises[q]
    ensures RightOk(t, sa, r, a, g, i)
  {
    hide AtRow, IsRotationOrder, Place, Links, Known;
    forall q | 0 <= q < |t| ensures RightSlot(t, sa, r, a, g, q, i) {
      assert RightSlot(t, sa, r, a, g, q, j);
      if RightFilled(r, q, i) && !RightFilled(r, q, j) {
        assert i < Next(r, q) <= j;
        StarOrRises(r, q);
        assert false;
      }
    }
  }

  lemma StarOrRises(r: Rows, q: int)
    requires 0 <= q < |r.last| == |r.rises| && r.rises[q]
    ensures Star(r, q) || r.rises[Next(r, q)]
  {
  }

  /** Before the scan, the slots of type B* are filled. */
  lemma RightStart(t: seq<byte>, sa: seq<int>, a: seq<int>, b: seq<int>, g: seq<int>)
    requires BstarSorted(t, sa, a, b) && |g| == |t| && forall q :: 0 <= q < |t| ==> g[q] == Position(a[q])
    ensures RightOk(t, sa, RowsOf(t, sa), a, g, |t| - 1)
  {
    hide AtRow, IsRotationOrder, Place, Links, Flagged;
    var r := RowsOf(t, sa);
    var j := |t| - 1;
    forall q | 0 <= q < |t| ensures RightSlot(t, sa, r, a, g, q, j) {
      if RightFilled(r, q, j) { assert Star(r, q); }
    }
  }

  // ----- bucket ends -----

  /** The bucket of `c0` and `c1` ends where the last row that starts with `c1` leads to. */
  lemma EndIsPointer(r: Rows, b: seq<int>, c0: int, c1: int)
    requires Coherent(r) && |b| == BUCKETS && 0 <= c0 <= c1 < 255 && EndOk(r, b, c0, c1) && StartOk(r, b, c1 + 1)
    ensures b[BucketB(c0, c1)] == RightPointer(r, c0, b[BucketA(c1 + 1)] - 1)
  {
    var a := b[BucketA(c1 + 1)];
    var x := RightPointer(r, c0, a - 1) + 1;
    PointerRange(r, c0, a);
    var q := if x < b[BucketB(c0, c1)] + 1 then x else b[BucketB(c0, c1)] + 1;
    if q < |r.last| {
      RowBelowPointer(r, c0, a, q);
      assert Pred(r, Next(r, q)) == q;
    }
  }

  lemma PointerRange(r: Rows, c: int, a: nat)
    requires a <= |r.last|
    ensures CountBelow(r.last, c) <= CountBelow(r.last, c) + Count(r.last[..a], c) <= CountBelow(r.last, c + 1) <= |r.last|
  {
    CountBelowStep(r.last, c);
    CountPrefix(r.last, a, |r.last|, c);
    assert r.last[..|r.last|] == r.last;
  }

  /** The rows that `a` first rows lead to, for characters up to `c`, come first. */
  lemma RowBelowPointer(r: Rows, c: int, a: nat, q: nat)
    requires q < |r.last| && a <= |r.last|
    ensures q < CountBelow(r.last, c) + Count(r.last[..a], c) <==>
              r.last[Next(r, q)] < c || (r.last[Next(r, q)] == c && Next(r, q) < a)
  {
    var p := Next(r, q);
    var d: int := r.last[p];
    PlaceBounds(r.last, p, d);
    PointerRange(r, c, a);
    if d < c {
      CountBelowMonotone(r.last, d + 1, c);
    } else if d > c {
      CountBelowMonotone(r.last, c + 1, d);
    } else if p < a {
      CountPrefix(r.last, p, a, c);
    } else {
      CountPrefix(r.last, a, p, c);
    }
  }

  /** Rows that start with characters below `c` are as many as rows that end with them. */
  lemma StartIsCount(r: Rows, b: seq<int>, c: int)
    requires Coherent(r) && |b| == BUCKETS && 0 <= c < 256 && StartOk(r, b, c)
    ensures b[BucketA(c)] == CountBelow(r.last, c)
  {
    var q := if CountBelow(r.last, c) < b[BucketA(c)] then CountBelow(r.last, c) else b[BucketA(c)];
    if q < |r.last| {
      RowBelowPointer(r, c, 0, q);
      assert Count(r.last[..0], c) == 0;
      assert Pred(r, Next(r, q)) == q;
    }
  }

  // ----- the scan from the right -----

  /** The end of bucket `c0`, the one in use being kept in `k`. */
  function EndAt(b: seq<int>, c1: int, k: int, c2: int, c0: int): int
    requires |b| == BUCKETS && 0 <= c0 <= c1 < 255
  {
    if c0 == c2 then k else b[BucketB(c0, c1)]
  }

  ghost predicate EndsPoint(r: Rows, b: seq<int>, c1: int, k: int, c2: int, j: int)
    requires |b| == BUCKETS && 0 <= c1 < 255 && -1 <= j < |r.last|
  {
    forall c0 {:trigger EndAt(b, c1, k, c2, c0)} :: 0 <= c0 <= c1 ==> EndAt(b, c1, k, c2, c0) == RightPointer(r, c0, j)
  }

  ghost predicate EndsBelow(r: Rows, b: seq<int>, c1: int)
    requires |b| == BUCKETS && c1 <= 255 && |r.first| == |r.last|
  {
    forall c {:trigger EndsOk(r, b, c)} :: 0 <= c < c1 ==> EndsOk(r, b, c)
  }

  /** The bucket in use is written back, and another one used. */
  function Switched(b: seq<int>, c1: int, k: int, c2: int, c0: int): seq<int>
    requires |b| == BUCKETS && -1 <= c2 <= c1 < 255
  {
    if c0 != c2 && c2 >= 0 then b[BucketB(c2, c1) := k] else b
  }

  lemma SameBucketEnd(r: Rows, b: seq<int>, b': seq<int>, c0: int, c1: int)
    requires |b| == |b'| == BUCKETS && 0 <= c0 <= c1 < 255 && |r.first| == |r.last| && EndOk(r, b, c0, c1)
    requires b[BucketB(c0, c1)] == b'[BucketB(c0, c1)]
    ensures EndOk(r, b', c0, c1)
  {
  }

  lemma SwitchedBuckets(r: Rows, b: seq<int>, c1: int, k: int, c2: int, c0: int)
    requires |b| == BUCKETS && -1 <= c2 <= c1 < 255 && 0 <= c1 && |r.first| == |r.last| == |r.rises|
    requires BucketsOk(r, b) && EndsBelow(r, b, c1)
    ensures BucketsOk(r, Switched(b, c1, k, c2, c0)) && EndsBelow(r, Switched(b, c1, k, c2, c0), c1)
  {
    hide Next;
    var b' := Switched(b, c1, k, c2, c0);
    forall c {:trigger StartOk(r, b', c)} | 0 <= c < 256 ensures StartOk(r, b', c) { assert StartOk(r, b, c); }
    forall c {:trigger RisingOk(r, b', c)} | 0 <= c < 255 ensures RisingOk(r, b', c) {
      assert RisingOk(r, b, c);
      OtherBucket(c, c2, c1);
    }
    forall c {:trigger EndsOk(r, b', c)} | 0 <= c < c1 ensures EndsOk(r, b', c) {
      assert EndsOk(r, b, c);
      forall d {:trigger EndOk(r, b', d, c)} | 0 <= d <= c ensures EndOk(r, b', d, c) {
        SameBucketEnd(r, b, b', d, c);
      }
    }
  }

  lemma OtherBucket(c: int, c0: int, c1: int)
    requires 0 <= c < 255 && c0 <= c1 < 255
    ensures 0 <= c0 ==> BucketBstar(c, c + 1) != BucketB(c0, c1)
  {
  }

  lemma SwitchedPoint(r: Rows, b: seq<int>, c1: int, k: int, c2: int, j: int)
    requires |b| == BUCKETS && -1 <= c2 <= c1 < 255 && 0 <= c1 && 0 <= j < |r.last| && r.last[j] <= c1
    requires EndsPoint(r, b, c1, k, c2, j)
    ensures EndAt(b, c1, k, c2, r.last[j]) == Pred(r, j)
    ensures EndsPoint(r, Switched(b, c1, k, c2, r.last[j]), c1, Pred(r, j) - 1, r.last[j], j - 1)
  {
    hide RightPointer, Pred;
    var c0 := r.last[j];
    RightNext(r, j, c0);
    var b', k', i := Switched(b, c1, k, c2, c0), Pred(r, j) - 1, j - 1;
    assert EndAt(b, c1, k, c2, c0) == Pred(r, j);
    forall c {:trigger EndAt(b', c1, k', c0, c)} | 0 <= c <= c1 ensures EndAt(b', c1, k', c0, c) == RightPointer(r, c, i) {
      RightNext(r, j, c);
      assert EndAt(b, c1, k, c2, c) == RightPointer(r, c, j);
    }
  }

  lemma SkippedPoint(r: Rows, b: seq<int>, c1: int, k: int, c2: int, j: int)
    requires |b| == BUCKETS && 0 <= c1 < 255 && 0 <= j < |r.last| && r.last[j] > c1
    requires EndsPoint(r, b, c1, k, c2, j)
    ensures EndsPoint(r, b, c1, k, c2, j - 1)
  {
    hide RightPointer;
    var i := j - 1;
    forall c {:trigger EndAt(b, c1, k, c2, c)} | 0 <= c <= c1 ensures EndAt(b, c1, k, c2, c) == RightPointer(r, c, i) {
      RightNext(r, j, c);
    }
  }

  /** The primary index, once the entry that leads to the whole block was met. */
  ghost predicate IndexOk(t: seq<byte>, sa: seq<int>, orig: int)
    requires IsRotationOrder(t, sa)
  {
    orig == -10 || (0 <= orig < |t| && AtRow(t, sa, orig, 0))
  }

  ghost predicate IndexSeenRight(r: Rows, g: seq<int>, orig: int, j: int)
    requires |g| == |r.first| == |r.last| == |r.rises|
  {
    forall q :: 0 <= q < |g| && q > j && r.rises[q] && PredRises(r, q) && g[q] == 0 ==> orig != -10
  }

  /** Rows of type B that start with `c1`. */
  lemma RisingRows(r: Rows, b: seq<int>, c1: int, j: int)
    requires |b| == BUCKETS && 0 <= c1 < 255 && |r.first| == |r.last| == |r.rises| && BucketsOk(r, b)
    requires 0 <= j && b[BucketBstar(c1, c1 + 1)] <= j < b[BucketA(c1 + 1)]
    ensures j < |r.last| && r.first[j] == c1 && r.rises[j]
  {
    assert StartOk(r, b, c1 + 1) && RisingOk(r, b, c1);
  }

  /** Between the rows of type B that start with one character and those that start with the
      next there are only rows that fall. */
  lemma FallingRows(r: Rows, b: seq<int>, c1: int, q: int)
    requires |b| == BUCKETS && 0 <= c1 < 255 && |r.first| == |r.last| == |r.rises| && BucketsOk(r, b)
    requires b[BucketA(c1)] <= q < b[BucketBstar(c1, c1 + 1)] && 0 <= q < |r.last|
    ensures !r.rises[q]
  {
    assert StartOk(r, b, c1) && RisingOk(r, b, c1);
  }

  lemma EndsPointFirst(r: Rows, b: seq<int>, c1: int)
    requires |b| == BUCKETS && 0 <= c1 < 255 && Coherent(r) && BucketsOk(r, b) && EndsBelow(r, b, c1 + 1)
    ensures 0 <= b[BucketA(c1 + 1)] <= |r.last| && EndsPoint(r, b, c1, 0, -1, b[BucketA(c1 + 1)] - 1)
  {
    hide RightPointer;
    assert StartOk(r, b, c1 + 1) && EndsOk(r, b, c1);
    var j := b[BucketA(c1 + 1)] - 1;
    forall c {:trigger EndAt(b, c1, 0, -1, c)} | 0 <= c <= c1 ensures EndAt(b, c1, 0, -1, c) == RightPointer(r, c, j) {
      assert EndOk(r, b, c, c1);
      EndIsPointer(r, b, c, c1);
    }
  }

  lemma EndsFewer(r: Rows, b: seq<int>, c1: int)
    requires |b| == BUCKETS && 0 <= c1 < 255 && |r.first| == |r.last| && EndsBelow(r, b, c1 + 1)
    ensures EndsBelow(r, b, c1)
  {
    hide EndsOk;
  }

  /** All that holds while rows of type B that start with `c1` are scanned. */
  ghost predicate RightState(t: seq<byte>, sa: seq<int>, r: Rows, a: seq<int>, g: seq<int>, b: seq<int>, c1: int, orig: int, j: int)
    requires IsRotationOrder(t, sa) && |a| == |g| == |t| == |r.first| == |r.last| == |r.rises| && |b| == BUCKETS && c1 <= 255
  {
    RightOk(t, sa, r, a, g, j) && BucketsOk(r, b) && EndsBelow(r, b, c1) && IndexOk(t, sa, orig) && IndexSeenRight(r, g, orig, j)
  }

  /** The entry at `j` was met. */
  lemma IndexTaken(t: seq<byte>, sa: seq<int>, r: Rows, g: seq<int>, orig: int, j: int, q: int, x: int)
    requires IsRotationOrder(t, sa) && |g| == |t| == |r.first| == |r.last| == |r.rises| && 0 <= q < j < |t|
    requires IndexOk(t, sa, orig) && IndexSeenRight(r, g, orig, j) && AtRow(t, sa, j, g[j])
    ensures var o := if g[j] == 0 then j else orig; IndexOk(t, sa, o) && IndexSeenRight(r, g[q := x], o, j - 1)
  {
    hide AtRow, PredRises;
  }

  lemma IndexPassed(r: Rows, g: seq<int>, orig: int, j: int)
    requires |g| == |r.first| == |r.last| == |r.rises| && 0 <= j < |g| && IndexSeenRight(r, g, orig, j) && !PredRises(r, j)
    ensures IndexSeenRight(r, g, orig, j - 1)
  {
    hide PredRises;
  }

  /** Slots of type B* keep their positions. */
  ghost predicate SameStars(r: Rows, g: seq<int>, g0: seq<int>)
    requires |g| == |g0| == |r.last| == |r.rises|
  {
    forall q {:trigger Star(r, q)} :: 0 <= q < |g| && Star(r, q) ==> g[q] == g0[q]
  }

  /** Scans the rows of type B that start with `c1`. */
  method ScanRight(t: seq<byte>, SA: array<int>, bucket: array<int>, c1: int, before: int, ghost sa: seq<int>, ghost r: Rows, ghost g0: seq<int>)
    returns (orig: int, ghost g: seq<int>)
    requires SA != bucket && bucket.Length == BUCKETS && 0 <= c1 < 255 && SA.Length == |t| == |g0|
    requires IsRotationOrder(t, sa) && r == RowsOf(t, sa) && Coherent(r)
    requires RightState(t, sa, r, SA[..], g0, bucket[..], c1 + 1, before, bucket[BucketA(c1 + 1)] - 1)
    modifies SA, bucket
    ensures |g| == |t| && SameStars(r, g, g0) && RightState(t, sa, r, SA[..], g, bucket[..], c1, orig, bucket[BucketA(c1)] - 1)
    ensures 0 <= bucket[BucketA(c1)] <= |t|
  {
    hide IsRotationOrder, RightOk, BucketsOk, EndsBelow, IndexOk, IndexSeenRight, EndsPoint, RowsOf, Coherent, LastColumn, AtRow, Pred, PredRises, Star;
    orig, g := before, g0;
    var n := |t|;
    var i := bucket[BucketBstar(c1, c1 + 1)];
    var j := bucket[BucketA(c1 + 1)] - 1;
    var k, c2 := 0, -1;
    EndsPointFirst(r, bucket[..], c1);
    EndsFewer(r, bucket[..], c1);
    StartsInOrder(r, bucket[..], c1);
    while i <= j
      invariant 0 <= i && i - 1 <= j < n && |g| == n && -1 <= c2 <= c1 && SameStars(r, g, g0)
      invariant RightState(t, sa, r, SA[..], g, bucket[..], c1, orig, j)
      invariant EndsPoint(r, bucket[..], c1, k, c2, j)
      invariant i == bucket[BucketBstar(c1, c1 + 1)] && j < bucket[BucketA(c1 + 1)]
    {
      RisingRows(r, bucket[..], c1, j);
      ghost var a, b, k0, c20, orig0 := SA[..], bucket[..], k, c2, orig;
      CurrentFilled(t, sa, r, a, g, j);
      var s := SA[j];
      if 0 <= s {
        var x;
        assert s == a[j] == g[j];
        if s != 0 { x := s - 1; } else { x := n - 1; orig := j; }
        ghost var v := if t[Before(x, n)] > t[x] then Not(x) else x;
        RightInduces(t, sa, r, a, g, j, x, v);
        IndexTaken(t, sa, r, g, orig0, j, Pred(r, j), x);
        SwitchedPoint(r, b, c1, k, c2, j);
        SwitchedBuckets(r, b, c1, k, c2, t[x]);
        var c0 := t[x];
        SA[j] := Not(c0);
        if c0 != c2 {
          if 0 <= c2 { bucket[BucketB(c2, c1)] := k; }
          c2 := c0;
          k := bucket[BucketB(c2, c1)];
        }
        assert k < j;
        assert bucket[..] == Switched(b, c1, k0, c20, c0);
        SA[k] := if (if x != 0 then t[x - 1] else t[n - 1]) > c2 then Not(x) else x;
        assert SA[..] == a[j := Not(c0)][k := v];
        g := g[k := x];
        k := k - 1;
      } else {
        RightKeeps(t, sa, r, a, g, j);
        SkippedPoint(r, b, c1, k, c2, j);
        IndexPassed(r, g, orig, j);
        SA[j] := Not(s);
        assert SA[..] == a[j := Not(a[j])];
      }
      j := j - 1;
    }
    RightStateSkips(t, sa, r, SA[..], g, bucket[..], c1, orig);
    StartsInOrder(r, bucket[..], c1);
  }

  lemma StartsInOrder(r: Rows, b: seq<int>, c1: int)
    requires |b| == BUCKETS && 0 <= c1 < 255 && |r.first| == |r.last| == |r.rises| && BucketsOk(r, b)
    ensures 0 <= b[BucketA(c1)] <= b[BucketBstar(c1, c1 + 1)] <= b[BucketA(c1 + 1)] <= |r.last|
  {
    assert StartOk(r, b, c1 + 1) && RisingOk(r, b, c1) && StartOk(r, b, c1);
    var x, y, z := b[BucketA(c1)], b[BucketBstar(c1, c1 + 1)], b[BucketA(c1 + 1)];
    if y < x { RowsBefore(r, b, c1, y); }
    if z < y { RowsBefore(r, b, c1, z); }
  }

  lemma RowsBefore(r: Rows, b: seq<int>, c: int, p: int)
    requires |b| == BUCKETS && 0 <= c < 255 && |r.first| == |r.last| == |r.rises| && 0 <= p < |r.last|
    requires StartOk(r, b, c + 1) && RisingOk(r, b, c) && StartOk(r, b, c)
    ensures p < b[BucketA(c)] ==> p < b[BucketBstar(c, c + 1)]
    ensures p < b[BucketBstar(c, c + 1)] ==> p < b[BucketA(c + 1)]
  {
    var f := r.first[p];
  }

  /** Rows of type A are passed over. */
  lemma RightStateSkips(t: seq<byte>, sa: seq<int>, r: Rows, a: seq<int>, g: seq<int>, b: seq<int>, c1: int, orig: int)
    requires IsRotationOrder(t, sa) && |a| == |g| == |t| == |r.first| == |r.last| == |r.rises| && |b| == BUCKETS && 0 <= c1 < 255
    requires RightState(t, sa, r, a, g, b, c1, orig, b[BucketBstar(c1, c1 + 1)] - 1)
    ensures RightState(t, sa, r, a, g, b, c1, orig, b[BucketA(c1)] - 1)
  {
    hide IsRotationOrder, RightOk, BucketsOk, EndsBelow, IndexOk, Known, PredRises;
    var j, i := b[BucketBstar(c1, c1 + 1)] - 1, b[BucketA(c1)] - 1;
    StartsInOrder(r, b, c1);
    forall q | 0 <= q < |t| && i < q <= j ensures !r.rises[q] { FallingRows(r, b, c1, q); }
    RightSkips(t, sa, r, a, g, j, i);
  }

  // ----- steps of the scan from the left -----

  lemma CurrentPassed(t: seq<byte>, sa: seq<int>, r: Rows, a: seq<int>, g: seq<int>, i: int)
    requires IsRotationOrder(t, sa) && |a| == |g| == |t| == |r.first| == |r.last| == |r.rises| && Coherent(r)
    requires 0 <= i < |t| && LeftOk(t, sa, r, a, g, i)
    ensures Known(t, sa, r, g, i) && Passed(r, a[i], g[i], i) && AtRow(t, sa, i, g[i]) && 0 <= g[i] < |t|
    ensures PredRises(r, i) <==> a[i] < 0
  {
    hide Place, Links, IsRotationOrder;
    var p := Next(r, i);
    assert Pred(r, p) == i;
    assert LeftSlot(t, sa, r, a, g, i, i);
  }

  /** The entry at `i` leads to a position of type A. */
  lemma LeftInduces(t: seq<byte>, sa: seq<int>, r: Rows, a: seq<int>, g: seq<int>, i: int, x: int, v: int)
    requires IsRotationOrder(t, sa) && |a| == |g| == |t| && r == RowsOf(t, sa) && Coherent(r)
    requires 0 <= i < |t| && LeftOk(t, sa, r, a, g, i) && a[i] >= 0
    requires x == Before(a[i], |t|)
    requires v == if 0 <= x < |t| && t[Before(x, |t|)] < t[x] then Not(t[Before(x, |t|)]) else x
    ensures i < Pred(r, i) < |t| && 0 <= x < |t| && t[x] == r.last[i]
    ensures LeftOk(t, sa, r, a[i := t[x]][Pred(r, i) := v], g[Pred(r, i) := x], i + 1)
    ensures AtRow(t, sa, Pred(r, i), x) && a[i] == g[i] && !PredRises(r, i) && !r.rises[Pred(r, i)] && !Star(r, Pred(r, i))
  {
    hide AtRow, RowsOf, IsRotationOrder, Place, Links;
    var q := Pred(r, i);
    CurrentPassed(t, sa, r, a, g, i);
    PredAtRow(t, sa, i, g[i]);
    PredAtRow(t, sa, q, x);
    LeftRest(t, sa, r, a, g, i, x, v);
  }

  lemma LeftRest(t: seq<byte>, sa: seq<int>, r: Rows, a: seq<int>, g: seq<int>, i: int, x: int, v: int)
    requires IsRotationOrder(t, sa) && |a| == |g| == |t| == |r.first| == |r.last| == |r.rises| && Coherent(r)
    requires 0 <= i < |t| && LeftOk(t, sa, r, a, g, i) && !PredRises(r, i)
    requires Known(t, sa, r, g, i) && x == Before(g[i], |t|) && AtRow(t, sa, Pred(r, i), x)
    requires Passed(r, v, x, Pred(r, i))
    ensures i < Pred(r, i) && LeftOk(t, sa, r, a[i := r.last[i]][Pred(r, i) := v], g[Pred(r, i) := x], i + 1)
  {
    hide IsRotationOrder, AtRow, Place, Links, Known, Passed, LeftSlot;
    var q := Pred(r, i);
    var a', g', h := a[i := r.last[i]][q := v], g[q := x], i + 1;
    forall p | 0 <= p < |t| ensures LeftSlot(t, sa, r, a', g', p, h) {
      assert LeftSlot(t, sa, r, a, g, p, i);
      LeftRestSlot(t, sa, r, a, g, i, x, v, p);
    }
  }

  lemma LeftRestSlot(t: seq<byte>, sa: seq<int>, r: Rows, a: seq<int>, g: seq<int>, i: int, x: int, v: int, p: int)
    requires IsRotationOrder(t, sa) && |a| == |g| == |t| == |r.first| == |r.last| == |r.rises| && Coherent(r)
    requires 0 <= i < |t| && 0 <= p < |t| && LeftSlot(t, sa, r, a, g, p, i) && !PredRises(r, i)
    requires Known(t, sa, r, g, i) && x == Before(g[i], |t|) && AtRow(t, sa, Pred(r, i), x)
    requires Passed(r, v, x, Pred(r, i))
    ensures i < Pred(r, i) && LeftSlot(t, sa, r, a[i := r.last[i]][Pred(r, i) := v], g[Pred(r, i) := x], p, i + 1)
  {
    hide AtRow, IsRotationOrder, Place, Links, Passed;
    NextOfPred(r, i);
    assert Pred(r, Next(r, p)) == p;
    assert Pred(r, Next(r, i)) == i;
  }

  /** The entry at `i` holds the complement of its character. */
  lemma LeftKeeps(t: seq<byte>, sa: seq<int>, r: Rows, a: seq<int>, g: seq<int>, i: int)
    requires IsRotationOrder(t, sa) && |a| == |g| == |t| == |r.first| == |r.last| == |r.rises| && Coherent(r)
    requires 0 <= i < |t| && LeftOk(t, sa, r, a, g, i) && a[i] < 0
    ensures LeftOk(t, sa, r, a[i := Not(a[i])], g, i + 1) && PredRises(r, i)
  {
    hide AtRow, IsRotationOrder, Place, Links, Known, LeftSlot;
    CurrentPassed(t, sa, r, a, g, i);
    var a', h := a[i := Not(a[i])], i + 1;
    forall p | 0 <= p < |t| ensures LeftSlot(t, sa, r, a', g, p, h) {
      assert LeftSlot(t, sa, r, a, g, p, i);
      LeftKeepsSlot(t, sa, r, a, g, i, p);
    }
  }

  lemma LeftKeepsSlot(t: seq<byte>, sa: seq<int>, r: Rows, a: seq<int>, g: seq<int>, i: int, p: int)
    requires IsRotationOrder(t, sa) && |a| == |g| == |t| == |r.first| == |r.last| == |r.rises| && Coherent(r)
    requires 0 <= i < |t| && 0 <= p < |t| && LeftSlot(t, sa, r, a, g, p, i) && PredRises(r, i)
    requires Known(t, sa, r, g, i) && Passed(r, a[i], g[i], i)
    ensures LeftSlot(t, sa, r, a[i := Not(a[i])], g, p, i + 1)
  {
    hide AtRow, IsRotationOrder, Place, Links;
    assert Pred(r, Next(r, p)) == p;
  }

  // ----- bucket starts -----

  function StartAt(b: seq<int>, k: int, c2: int, c: int): int
    requires |b| == BUCKETS && 0 <= c < 256
  {
    if c == c2 then k else b[BucketA(c)]
  }

  ghost predicate NoneRises(r: Rows, c: int, i: int)
    requires i <= |r.first| == |r.last| == |r.rises|
  {
    forall p :: 0 <= p < i && r.last[p] == c ==> !PredRises(r, p)
  }

  /** As long as only rows of type A were led to, the next goes here. */
  ghost predicate StartsPoint(r: Rows, b: seq<int>, k: int, c2: int, i: int)
    requires |b| == BUCKETS && 0 <= i <= |r.first| == |r.last| == |r.rises|
  {
    forall c {:trigger StartAt(b, k, c2, c)} :: 0 <= c < 256 && NoneRises(r, c, i) ==> StartAt(b, k, c2, c) == RightPointer(r, c, i - 1) + 1
  }

  lemma FirstFalls(r: Rows, i: int)
    requires Coherent(r) && 0 <= i < |r.last| && !PredRises(r, i)
    ensures NoneRises(r, r.last[i], i)
  {
    forall p | 0 <= p < i && r.last[p] == r.last[i] ensures !PredRises(r, p) {
      assert r.first[p] <= r.first[i];
    }
  }

  lemma StartsPointFirst(r: Rows, b: seq<int>)
    requires |b| == BUCKETS && Coherent(r) && BucketsOk(r, b)
    ensures StartsPoint(r, b, b[BucketA(0)], 0, 0)
  {
    hide CountBelow, Count;
    var k := b[BucketA(0)];
    forall c {:trigger StartAt(b, k, 0, c)} | 0 <= c < 256 ensures StartAt(b, k, 0, c) == RightPointer(r, c, -1) + 1 {
      assert StartOk(r, b, c);
      StartIsCount(r, b, c);
      NoneCounted(r, c);
    }
  }

  lemma NoneCounted(r: Rows, c: int)
    ensures RightPointer(r, c, -1) == CountBelow(r.last, c) - 1
  {
    assert r.last[..0] == [];
  }

  lemma StartsTaken(r: Rows, b: seq<int>, k: int, c2: int, i: int)
    requires |b| == BUCKETS && 0 <= c2 < 256 && 0 <= i < |r.last| && Coherent(r) && !PredRises(r, i)
    requires StartsPoint(r, b, k, c2, i)
    ensures StartAt(b, k, c2, r.last[i]) == Pred(r, i)
    ensures StartsPoint(r, if r.last[i] != c2 then b[BucketA(c2) := k] else b, Pred(r, i) + 1, r.last[i], i + 1)
  {
    hide RightPointer, Pred, NoneRises;
    var c0 := r.last[i];
    RightNext(r, i, c0);
    FirstFalls(r, i);
    var b', k', h := if c0 != c2 then b[BucketA(c2) := k] else b, Pred(r, i) + 1, i + 1;
    assert StartAt(b, k, c2, c0) == Pred(r, i);
    forall c {:trigger StartAt(b', k', c0, c)} | 0 <= c < 256 && NoneRises(r, c, h) ensures StartAt(b', k', c0, c) == RightPointer(r, c, i) + 1 {
      NoneBefore(r, c, i);
      RightNext(r, i, c);
      assert StartAt(b, k, c2, c) == RightPointer(r, c, i - 1) + 1;
    }
  }

  lemma NoneBefore(r: Rows, c: int, i: int)
    requires 0 <= i < |r.first| == |r.last| == |r.rises| && NoneRises(r, c, i + 1)
    ensures NoneRises(r, c, i) && !(r.last[i] == c && PredRises(r, i))
  {
  }

  lemma StartsKept(r: Rows, b: seq<int>, k: int, c2: int, i: int)
    requires |b| == BUCKETS && 0 <= i < |r.last| == |r.first| == |r.rises| && PredRises(r, i)
    requires StartsPoint(r, b, k, c2, i)
    ensures StartsPoint(r, b, k, c2, i + 1)
  {
    hide RightPointer, NoneRises;
    var h := i + 1;
    forall c {:trigger StartAt(b, k, c2, c)} | 0 <= c < 256 && NoneRises(r, c, h) ensures StartAt(b, k, c2, c) == RightPointer(r, c, i) + 1 {
      NoneBefore(r, c, i);
      RightNext(r, i, c);
    }
  }

  // ----- the scan from the left -----

  ghost predicate IndexSeenLeft(r: Rows, g: seq<int>, orig: int, i: int)
    requires |g| == |r.first| == |r.last| == |r.rises|
  {
    forall q :: 0 <= q < |g| && g[q] == 0 && (q < i || (PredRises(r, q) && (r.rises[q] || Next(r, q) < i))) ==> orig != -10
  }

  ghost predicate LeftState(t: seq<byte>, sa: seq<int>, r: Rows, a: seq<int>, g: seq<int>, orig: int, i: int)
    requires IsRotationOrder(t, sa) && |a| == |g| == |t| == |r.first| == |r.last| == |r.rises|
  {
    LeftOk(t, sa, r, a, g, i) && IndexOk(t, sa, orig) && IndexSeenLeft(r, g, orig, i)
  }

  lemma IndexLed(t: seq<byte>, sa: seq<int>, r: Rows, g: seq<int>, orig: int, i: int, x: int)
    requires IsRotationOrder(t, sa) && |g| == |t| == |r.first| == |r.last| == |r.rises| && 0 <= i < |t| && Coherent(r) && !PredRises(r, i)
    requires IndexOk(t, sa, orig) && IndexSeenLeft(r, g, orig, i) && AtRow(t, sa, i, g[i]) && AtRow(t, sa, Pred(r, i), x)
    ensures var o := if x == 0 then Pred(r, i) else if g[i] == 0 then i else orig;
      IndexOk(t, sa, o) && IndexSeenLeft(r, g[Pred(r, i) := x], o, i + 1)
  {
    hide AtRow, PredRises, IsRotationOrder, Place;
    var q := Pred(r, i);
    var o := if x == 0 then q else if g[i] == 0 then i else orig;
    var g' := g[q := x];
    forall p | 0 <= p < |g| && g'[p] == 0 && (p < i + 1 || (PredRises(r, p) && (r.rises[p] || Next(r, p) < i + 1))) ensures o != -10 {
      assert Pred(r, Next(r, p)) == p;
    }
  }

  lemma IndexKept(r: Rows, g: seq<int>, orig: int, i: int)
    requires |g| == |r.last| && 0 <= i < |g| && Coherent(r) && PredRises(r, i) && IndexSeenLeft(r, g, orig, i)
    ensures IndexSeenLeft(r, g, orig, i + 1)
  {
    hide PredRises, Place;
    assert Pred(r, Next(r, i)) == i;
    forall p | 0 <= p < |g| && g[p] == 0 && (p < i + 1 || (PredRises(r, p) && (r.rises[p] || Next(r, p) < i + 1))) ensures orig != -10 {
      assert Pred(r, Next(r, p)) == p;
    }
  }

  /** Scans all rows, and leaves the last column. */
  method ScanLeft(t: seq<byte>, SA: array<int>, bucket: array<int>, before: int, ghost sa: seq<int>, ghost r: Rows, ghost g0: seq<int>)
    returns (orig: int, ghost g: seq<int>)
    requires SA != bucket && bucket.Length == BUCKETS && SA.Length == |t| == |g0|
    requires IsRotationOrder(t, sa) && r == RowsOf(t, sa) && Coherent(r) && BucketsOk(r, bucket[..])
    requires LeftState(t, sa, r, SA[..], g0, before, 0)
    modifies SA, bucket
    ensures |g| == |t| && SameStars(r, g, g0) && LeftState(t, sa, r, SA[..], g, orig, |t|)
  {
    hide IsRotationOrder, LeftOk, BucketsOk, IndexOk, IndexSeenLeft, StartsPoint, RowsOf, Coherent, LastColumn, AtRow, Pred, PredRises, Star;
    orig, g := before, g0;
    var n := |t|;
    var c2 := 0;
    var k := bucket[BucketA(0)];
    var i := 0;
    StartsPointFirst(r, bucket[..]);
    while i < n
      invariant 0 <= i <= n && |g| == n && 0 <= c2 < 256 && SameStars(r, g, g0)
      invariant LeftState(t, sa, r, SA[..], g, orig, i)
      invariant StartsPoint(r, bucket[..], k, c2, i)
    {
      ghost var a, b, k0, c20, orig0 := SA[..], bucket[..], k, c2, orig;
      CurrentPassed(t, sa, r, a, g, i);
      var s := SA[i];
      if 0 <= s {
        var x;
        assert s == a[i] == g[i];
        if s != 0 { x := s - 1; } else { x := n - 1; orig := i; }
        ghost var v := if t[Before(x, n)] < t[x] then Not(t[Before(x, n)]) else x;
        LeftInduces(t, sa, r, a, g, i, x, v);
        IndexLed(t, sa, r, g, orig0, i, x);
        StartsTaken(r, b, k, c2, i);
        var c0 := t[x];
        SA[i] := c0;
        if c0 != c2 {
          bucket[BucketA(c2)] := k;
          c2 := c0;
          k := bucket[BucketA(c2)];
        }
        var c1;
        if x != 0 { c1 := t[x - 1]; } else { c1 := t[n - 1]; orig := k; }
        assert i <= k;
        assert bucket[..] == if c0 != c20 then b[BucketA(c20) := k0] else b;
        SA[k] := if c1 < c2 then Not(c1) else x;
        assert SA[..] == a[i := t[x]][k := v];
        g := g[k := x];
        k := k + 1;
      } else {
        LeftKeeps(t, sa, r, a, g, i);
        StartsKept(r, b, k, c2, i);
        IndexKept(r, g, orig, i);
        SA[i] := Not(s);
        assert SA[..] == a[i := Not(a[i])];
      }
      i := i + 1;
    }
  }

  // ----- the whole -----

  lemma {:induction false} RisesBelow(x: seq<byte>)
    requires Rises(x)
    ensures x[0] < 255
  {
    if x[0] == x[1] { RisesBelow(x[1..]); }
  }

  /** Before the scan from the right. */
  lemma ScanStarts(t: seq<byte>, sa: seq<int>, a: seq<int>, b: seq<int>, g: seq<int>)
    requires BstarSorted(t, sa, a, b) && |g| == |t| && forall q :: 0 <= q < |t| ==> g[q] == Position(a[q])
    ensures t != [] && Coherent(RowsOf(t, sa)) && 0 <= b[BucketA(255)] <= |t|
    ensures RightState(t, sa, RowsOf(t, sa), a, g, b, 255, -10, b[BucketA(255)] - 1)
  {
    hide AtRow, IsRotationOrder, Place, Links, Flagged, RightOk, Rises, EndsOk, RisingOk, Coherent, StarsCovered, LastColumn;
    var r := RowsOf(t, sa);
    RowsCoherent(t, sa);
    RightStart(t, sa, a, b, g);
    assert StartOk(r, b, 255);
    var j, i := |t| - 1, b[BucketA(255)] - 1;
    forall q | 0 <= q < |t| && i < q <= j ensures !r.rises[q] {
      NoneAbove(t, sa, q);
    }
    RightSkips(t, sa, r, a, g, j, i);
  }

  lemma NoneAbove(t: seq<byte>, sa: seq<int>, q: nat)
    requires IsRotationOrder(t, sa) && q < |t|
    ensures RowsOf(t, sa).rises[q] ==> RowsOf(t, sa).first[q] < 255
  {
    var x := Rotation(t, sa[q]);
    if Rises(x) { RisesBelow(x); }
    assert x[0] == t[sa[q]];
  }

  /** Between the scans. */
  lemma ScanTurns(t: seq<byte>, sa: seq<int>, r: Rows, a: seq<int>, g: seq<int>, b: seq<int>, orig: int)
    requires IsRotationOrder(t, sa) && |a| == |g| == |t| == |r.first| == |r.last| == |r.rises| && |b| == BUCKETS && Coherent(r)
    requires RightState(t, sa, r, a, g, b, 0, orig, b[BucketA(0)] - 1)
    ensures LeftState(t, sa, r, a, g, orig, 0) && BucketsOk(r, b)
  {
    hide AtRow, IsRotationOrder, Known, RisingOk, PredRises, EndsBelow, Place;
    assert StartOk(r, b, 0);
    NoRowBelow(r, b);
    var j := -1;
    forall q | 0 <= q < |t| ensures LeftSlot(t, sa, r, a, g, q, 0) {
      assert RightSlot(t, sa, r, a, g, q, j);
    }
  }

  lemma NoRowBelow(r: Rows, b: seq<int>)
    requires |b| == BUCKETS && |r.first| == |r.last| && StartOk(r, b, 0)
    ensures b[BucketA(0)] == 0
  {
    var f := if |r.first| > 0 then r.first[0] else 0;
  }

  /** Every position is in some slot: from any that is, so is the one before it. */
  lemma {:induction false} FromSlot(t: seq<byte>, sa: seq<int>, r: Rows, g: seq<int>, q: nat)
    requires IsRotationOrder(t, sa) && |g| == |t| && r == RowsOf(t, sa) && q < |t|
    requires forall p {:trigger Known(t, sa, r, g, p)} :: 0 <= p < |t| ==> Known(t, sa, r, g, p)
    requires StarsCovered(t, sa, g)
    ensures exists p :: 0 <= p < |g| && g[p] == 0
    decreases if 0 <= g[q] then g[q] else 0
  {
    hide IsRotationOrder, Place, Links, RowsOf, LastColumn;
    assert Known(t, sa, r, g, q);
    InRange(t, sa, r, g, q);
    if g[q] != 0 {
      var x := g[q] - 1;
      PredAtRow(t, sa, q, g[q]);
      var p := Pred(r, q);
      NextOfPred(r, q);
      assert Known(t, sa, r, g, p);
      if Star(r, p) {
        assert InSlot(r, g, x);
        var s :| 0 <= s < |g| && Star(r, s) && Position(g[s]) == x;
        assert Known(t, sa, r, g, s);
        InRange(t, sa, r, g, s);
        FromSlot(t, sa, r, g, s);
      } else {
        FromSlot(t, sa, r, g, p);
      }
    }
  }

  lemma InRange(t: seq<byte>, sa: seq<int>, r: Rows, g: seq<int>, q: nat)
    requires IsRotationOrder(t, sa) && |g| == |t| == |r.last| == |r.rises| && q < |t| && Known(t, sa, r, g, q)
    ensures 0 <= g[q] < |t|
  {
  }

  /** After both scans: the last column, and the primary index. */
  lemma ScanEnds(t: seq<byte>, sa: seq<int>, a0: seq<int>, a: seq<int>, g: seq<int>, orig: int)
    requires IsRotationOrder(t, sa) && |a0| == |a| == |g| == |t| > 0 && LeftState(t, sa, RowsOf(t, sa), a, g, orig, |t|)
    requires StarsCovered(t, sa, a0)
    requires forall q {:trigger Star(RowsOf(t, sa), q)} :: 0 <= q < |g| && Star(RowsOf(t, sa), q) ==> g[q] == Position(a0[q])
    ensures BwtVia(t, sa, LastColumn(t, sa), orig) && forall q :: 0 <= q < |t| ==> a[q] == LastColumn(t, sa)[q]
  {
    hide IsRotationOrder, Place, Links, AtRow, StarsCovered, Star, RowsOf;
    var r, n := RowsOf(t, sa), |t|;
    forall q {:trigger Known(t, sa, r, g, q)} | 0 <= q < |t| ensures Known(t, sa, r, g, q) && a[q] == r.last[q] {
      assert LeftSlot(t, sa, r, a, g, q, n);
    }
    CoveredStill(t, sa, a0, g);
    FromSlot(t, sa, r, g, 0);
    var p :| 0 <= p < |g| && g[p] == 0;
    FirstRow(t, sa, orig);
    forall q | 0 <= q < |t| ensures a[q] == r.last[q] {
      assert Known(t, sa, r, g, q);
    }
  }

  lemma CoveredStill(t: seq<byte>, sa: seq<int>, a0: seq<int>, g: seq<int>)
    requires IsRotationOrder(t, sa) && |a0| == |g| == |t| && StarsCovered(t, sa, a0)
    requires forall q {:trigger Known(t, sa, RowsOf(t, sa), g, q)} :: 0 <= q < |t| ==> Known(t, sa, RowsOf(t, sa), g, q)
    requires forall q {:trigger Star(RowsOf(t, sa), q)} :: 0 <= q < |g| && Star(RowsOf(t, sa), q) ==> g[q] == Position(a0[q])
    ensures StarsCovered(t, sa, g)
  {
    hide IsRotationOrder, Place, Links, Star, RowsOf;
    var r := RowsOf(t, sa);
    forall q, x {:trigger AtRow(t, sa, q, x)} | 0 <= q < |t| && Star(r, q) && AtRow(t, sa, q, x) ensures InSlot(r, g, x) {
      assert InSlot(r, a0, x);
      var s :| 0 <= s < |a0| && Star(r, s) && Position(a0[s]) == x;
      assert Known(t, sa, r, g, s);
    }
  }

  lemma FirstRow(t: seq<byte>, sa: seq<int>, orig: int)
    requires IsRotationOrder(t, sa) && 0 <= orig < |t| && AtRow(t, sa, orig, 0)
    ensures Rotation(t, sa[orig]) == t
  {
    assert Rotation(t, 0) == t;
  }

  /** From the sorted rotations of type B*, the last column of all sorted rotations, in
      place, and the row of the block itself. */
  method ConstructBwt(t: seq<byte>, SA: array<int>, bucket: array<int>, ghost sa: seq<int>) returns (orig: int)
    requires SA != bucket && bucket.Length == BUCKETS && SA.Length == |t| && BstarSorted(t, sa, SA[..], bucket[..])
    modifies SA, bucket
    ensures IsRotationOrder(t, sa) && BwtVia(t, sa, LastColumn(t, sa), orig)
    ensures forall q :: 0 <= q < |t| ==> SA[q] == LastColumn(t, sa)[q]
  {
    hide IsRotationOrder, RightState, LeftState, StarsCovered, Coherent, RowsOf, BwtVia, LastColumn, Star, Constant;
    ghost var r, a0 := RowsOf(t, sa), SA[..];
    ghost var g0 := seq(|t|, (q: int) requires 0 <= q < |t| => Position(a0[q]));
    ghost var g := g0;
    ScanStarts(t, sa, a0, bucket[..], g);
    orig := -10;
    var c1 := 254;
    while 0 <= c1
      invariant -1 <= c1 <= 254 && |g| == |t| && SameStars(r, g, g0)
      invariant 0 <= bucket[BucketA(c1 + 1)] <= |t|
      invariant RightState(t, sa, r, SA[..], g, bucket[..], c1 + 1, orig, bucket[BucketA(c1 + 1)] - 1)
    {
      ghost var g1 := g;
      orig, g := ScanRight(t, SA, bucket, c1, orig, sa, r, g);
      SameThrough(r, g, g1, g0);
      c1 := c1 - 1;
    }
    ScanTurns(t, sa, r, SA[..], g, bucket[..], orig);
    ghost var g1 := g;
    orig, g := ScanLeft(t, SA, bucket, orig, sa, r, g);
    SameThrough(r, g, g1, g0);
    ScanEnds(t, sa, a0, SA[..], g, orig);
  }

  lemma SameThrough(r: Rows, g: seq<int>, g1: seq<int>, g0: seq<int>)
    requires |g| == |g1| == |g0| == |r.last| == |r.rises| && SameStars(r, g, g1) && SameStars(r, g1, g0)
    ensures SameStars(r, g, g0)
  {
    hide Star;
  }

  // ----- the block sorter -----

  /** The result of sorting the rotations of type B*: their number, the slots, and the
      buckets. */
  datatype Bstar = Bstar(m: nat, slots: seq<int>, buckets: seq<int>)

  /** What sorting the rotations of type B* owes its caller.  There are none exactly if all
      characters are the same. */
  ghost predicate SortsBstar(t: seq<byte>, s: Bstar) {
    && (s.m == 0 <==> Constant(t))
    && (s.m > 0 ==> |s.slots| == |t| && |s.buckets| == BUCKETS && exists sa :: BstarSorted(t, sa, s.slots, s.buckets))
  }

  lemma RotatesToItself(t: seq<byte>, i: nat)
    requires i < |t| && Constant(t)
    ensures Rotation(t, i) == t
  {
    forall k | 0 <= k < |t| ensures Rotation(t, i)[k] == t[k] {
      assert Rotation(t, i)[k] == t[if k < |t| - i then i + k else k + i - |t|];
    }
  }

  lemma ConstantColumn(t: seq<byte>, sa: seq<int>)
    requires |sa| == |t| && Below(sa, |t|) && Constant(t)
    ensures LastColumn(t, sa) == t
  {
  }

  /** All rotations of a block of equal characters are the block. */
  lemma ConstantBwt(t: seq<byte>)
    requires t != [] && Constant(t)
    ensures IsBwt(t, t, 0)
  {
    hide Rotation, LastColumn, Constant, LexLe;
    var sa := seq(|t|, (i: int) requires 0 <= i < |t| => i);
    forall i | 0 <= i < |t| ensures Rotation(t, sa[i]) == t { RotatesToItself(t, i); }
    LexRefl(t);
    ConstantColumn(t, sa);
    assert BwtVia(t, sa, t, 0);
  }

  /** The last column of the sorted rotations of a block, given sorted rotations of type B*. */
  method DivBwt(t: seq<byte>, sortBstar: seq<byte> -> Bstar) returns (col: seq<byte>, idx: nat)
    requires t != [] && (|t| > 1 ==> SortsBstar(t, sortBstar(t)))
    ensures IsBwt(t, col, idx)
  {
    hide BstarSorted, BwtVia, LastColumn;
    if |t| == 1 {
      ConstantBwt(t);
      return t, 0;
    }
    var s := sortBstar(t);
    if s.m > 0 {
      ghost var sa :| BstarSorted(t, sa, s.slots, s.buckets);
      var SA := new int[|t|](i requires 0 <= i < |t| => s.slots[i]);
      var bucket := new int[BUCKETS](i requires 0 <= i < BUCKETS => s.buckets[i]);
      assert SA[..] == s.slots && bucket[..] == s.buckets;
      var orig := ConstructBwt(t, SA, bucket, sa);
      col, idx := ReadColumn(t, SA, orig, sa);
    } else {
      ConstantBwt(t);
      return t, 0;
    }
  }

  method ReadColumn(t: seq<byte>, SA: array<int>, orig: int, ghost sa: seq<int>) returns (col: seq<byte>, idx: nat)
    requires SA.Length == |t| && IsRotationOrder(t, sa) && BwtVia(t, sa, LastColumn(t, sa), orig)
    requires forall q :: 0 <= q < |t| ==> SA[q] == LastColumn(t, sa)[q]
    ensures IsBwt(t, col, idx)
  {
    hide LastColumn;
    ghost var last := LastColumn(t, sa);
    col := [];
    for q := 0 to |t|
      invariant col == last[..q]
    {
      assert SA[q] == last[q];
      col := col + [SA[q]];
    }
    idx := orig;
    assert BwtVia(t, sa, col, idx);
  }
}
