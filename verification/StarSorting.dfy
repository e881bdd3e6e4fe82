/** Every block has its rotations of type B* sorted in some way: what the block sorter's
    last stage asks for can be had. */
module StarSorting {
  import opened Common
  import opened Permutation
  import opened Bwt
  import opened CountingSort
  import opened SortedRows
  import opened InducedSort

  // ----- sorting the rotations -----

  ghost predicate SortedUpTo(t: seq<byte>, sa: seq<int>, n: nat)
    requires n <= |t|
  {
    && |sa| == n && IsPermutation(sa)
    && forall i, j :: 0 <= i < j < n ==> LexLe(Rotation(t, sa[i]), Rotation(t, sa[j]))
  }

  /** Where the rotation that starts at `x` belongs. */
  lemma {:induction false} InsertAt(t: seq<byte>, sa: seq<int>, n: nat, x: nat, k: nat) returns (h: nat)
    requires n <= |t| && SortedUpTo(t, sa, n) && x < |t| && k <= n
    requires forall i :: 0 <= i < k ==> LexLe(Rotation(t, sa[i]), Rotation(t, x))
    ensures h <= n && forall i :: 0 <= i < h ==> LexLe(Rotation(t, sa[i]), Rotation(t, x))
    ensures forall i :: h <= i < n ==> LexLe(Rotation(t, x), Rotation(t, sa[i]))
    decreases n - k
  {
    hide LexLe, Rotation;
    if k < n && LexLe(Rotation(t, sa[k]), Rotation(t, x)) {
      h := InsertAt(t, sa, n, x, k + 1);
    } else {
      h := k;
      forall i | k <= i < n ensures LexLe(Rotation(t, x), Rotation(t, sa[i])) {
        LexTotal(Rotation(t, sa[k]), Rotation(t, x));
        if k < i { LexTrans(Rotation(t, x), Rotation(t, sa[k]), Rotation(t, sa[i])); }
      }
    }
  }

  lemma {:induction false} Sort(t: seq<byte>, n: nat) returns (sa: seq<int>)
    requires n <= |t|
    ensures SortedUpTo(t, sa, n)
    decreases n
  {
    if n == 0 {
      sa := [];
    } else {
      var s := Sort(t, n - 1);
      var h := InsertAt(t, s, n - 1, n - 1, 0);
      sa := s[..h] + [n - 1] + s[h..];
      InsertedOnce(s, h);
      InsertedInOrder(t, s, n - 1, h);
    }
  }

  lemma InsertedOnce(s: seq<int>, h: nat)
    requires IsPermutation(s) && h <= |s|
    ensures IsPermutation(s[..h] + [|s|] + s[h..])
  {
    var u := s[..h] + [|s|] + s[h..];
    forall i, j | 0 <= i < j < |u| ensures u[i] != u[j] {
      assert i != h ==> u[i] == s[if i < h then i else i - 1];
      assert j != h ==> u[j] == s[if j < h then j else j - 1];
    }
    forall i | 0 <= i < |u| ensures 0 <= u[i] < |u| {
      assert i != h ==> u[i] == s[if i < h then i else i - 1];
    }
  }

  lemma InsertedInOrder(t: seq<byte>, s: seq<int>, n: nat, h: nat)
    requires n < |t| && SortedUpTo(t, s, n) && h <= n
    requires forall i :: 0 <= i < h ==> LexLe(Rotation(t, s[i]), Rotation(t, n))
    requires forall i :: h <= i < n ==> LexLe(Rotation(t, n), Rotation(t, s[i]))
    requires IsPermutation(s[..h] + [n] + s[h..])
    ensures SortedUpTo(t, s[..h] + [n] + s[h..], n + 1)
  {
    hide LexLe, Rotation;
    var u := s[..h] + [n] + s[h..];
    forall i, j | 0 <= i < j < |u| ensures LexLe(Rotation(t, u[i]), Rotation(t, u[j])) {
      assert u[i] == if i < h then s[i] else if i == h then n else s[i - 1];
      assert u[j] == if j < h then s[j] else if j == h then n else s[j - 1];
    }
  }

  // ----- the buckets -----

  /** A property that holds of the rows before some row, if it holds before each it holds of. */
  lemma {:induction false} Threshold(p: int -> bool, n: nat, k: nat) returns (h: nat)
    requires k <= n && (forall q :: 0 <= q < k ==> p(q))
    requires forall i, j {:trigger p(i), p(j)} :: 0 <= i < j < n && p(j) ==> p(i)
    ensures h <= n && forall q :: 0 <= q < n ==> (p(q) <==> q < h)
    decreases n - k
  {
    if k < n && p(k) {
      h := Threshold(p, n, k + 1);
    } else {
      h := k;
    }
  }

  /** The property that bucket `i` divides the rows by. */
  ghost function Divider(r: Rows, i: int): int -> bool
    requires |r.first| == |r.last| == |r.rises|
  {
    if i >= 0x1_0000 then p => 0 <= p < |r.last| && r.first[p] as int < i - 0x1_0000
    else if i / 256 >= i % 256 then
      p => 0 <= p < |r.last| && (r.first[p] as int < i % 256 || (r.first[p] as int == i % 256 && r.first[Next(r, p)] as int <= i / 256))
    else
      p => 0 <= p < |r.last| && (r.first[p] as int < i / 256 || (r.first[p] as int == i / 256 && !r.rises[p]))
  }

  /** Rows that start alike are in the order of what follows. */
  lemma SecondOrder(t: seq<byte>, sa: seq<int>, p: nat, q: nat)
    requires IsRotationOrder(t, sa) && p < q < |t| && t[sa[p]] == t[sa[q]]
    ensures var r := RowsOf(t, sa); r.first[Next(r, p)] <= r.first[Next(r, q)]
  {
    Follower(t, sa, p);
    Follower(t, sa, q);
    LexSecond(Rotation(t, sa[p]), Rotation(t, sa[q]));
  }

  lemma LexSecond(x: seq<byte>, y: seq<byte>)
    requires |x| == |y| >= 2 && x[0] == y[0] && LexLe(x, y)
    ensures x[1] <= y[1]
  {
  }

  /** The row that a row leads to starts with its second character. */
  lemma Follower(t: seq<byte>, sa: seq<int>, p: nat)
    requires IsRotationOrder(t, sa) && p < |t|
    ensures var r := RowsOf(t, sa);
      && Rotation(t, sa[p]) == RotateRight(Rotation(t, sa[Next(r, p)]))
      && Rotation(t, sa[p])[0] == r.first[p]
      && (|t| > 1 ==> Rotation(t, sa[p])[1] == r.first[Next(r, p)])
  {
    var r := RowsOf(t, sa);
    LinksSort(r.last);
    LinkRotates(t, sa, Links(r.last), p);
  }

  ghost predicate DividesAt(r: Rows, i: int, h: nat)
    requires |r.first| == |r.last| == |r.rises|
  {
    h <= |r.last| && forall p {:trigger Divider(r, i)(p)} :: 0 <= p < |r.last| ==> (Divider(r, i)(p) <==> p < h)
  }

  lemma Divides(t: seq<byte>, sa: seq<int>, i: int) returns (h: nat)
    requires IsRotationOrder(t, sa) && 0 <= i < BUCKETS
    ensures DividesAt(RowsOf(t, sa), i, h)
  {
    var r := RowsOf(t, sa);
    forall p, q | 0 <= p < q < |t| && Divider(r, i)(q) ensures Divider(r, i)(p) {
      RowOrder(t, sa, p, q);
      if r.first[p] == r.first[q] { SecondOrder(t, sa, p, q); }
    }
    h := Threshold(Divider(r, i), |t|, 0);
  }

  ghost function BucketAt(t: seq<byte>, sa: seq<int>, i: int): (h: nat)
    requires IsRotationOrder(t, sa) && 0 <= i < BUCKETS
    ensures DividesAt(RowsOf(t, sa), i, h)
  {
    assert exists h: nat :: DividesAt(RowsOf(t, sa), i, h) by { var h := Divides(t, sa, i); }
    var h: nat :| DividesAt(RowsOf(t, sa), i, h);
    h
  }

  /** Is `i` the index of a bucket that is described by its last row? */
  predicate ByEnd(i: int) {
    0 <= i < 0x1_0000 && i / 256 >= i % 256
  }

  ghost function Buckets(t: seq<byte>, sa: seq<int>): (b: seq<int>)
    requires IsRotationOrder(t, sa)
    ensures |b| == BUCKETS
    ensures forall i {:trigger b[i]} :: 0 <= i < BUCKETS ==> b[i] == BucketAt(t, sa, i) as int - (if ByEnd(i) then 1 else 0)
  {
    seq(BUCKETS, (i: int) requires 0 <= i < BUCKETS => BucketAt(t, sa, i) as int - (if ByEnd(i) then 1 else 0))
  }

  lemma BucketsStart(t: seq<byte>, sa: seq<int>, c: int)
    requires IsRotationOrder(t, sa) && 0 <= c < 256
    ensures StartOk(RowsOf(t, sa), Buckets(t, sa), c)
  {
    var r, i, b := RowsOf(t, sa), BucketA(c), Buckets(t, sa);
    assert b[i] == BucketAt(t, sa, i);
    forall p | 0 <= p < |t| ensures r.first[p] as int < c <==> p < b[i] { assert Divider(r, i)(p) <==> p < b[i]; }
  }

  lemma BucketsRise(t: seq<byte>, sa: seq<int>, c: int)
    requires IsRotationOrder(t, sa) && 0 <= c < 255
    ensures RisingOk(RowsOf(t, sa), Buckets(t, sa), c)
  {
    var r, i, b := RowsOf(t, sa), BucketBstar(c, c + 1), Buckets(t, sa);
    assert i / 256 == c && i % 256 == c + 1;
    assert b[i] == BucketAt(t, sa, i);
    forall p | 0 <= p < |t| ensures r.first[p] as int < c || (r.first[p] as int == c && !r.rises[p]) <==> p < b[i] {
      assert Divider(r, i)(p) <==> p < b[i];
    }
  }

  lemma BucketsEnd(t: seq<byte>, sa: seq<int>, c0: int, c1: int)
    requires IsRotationOrder(t, sa) && 0 <= c0 <= c1 < 255
    ensures EndOk(RowsOf(t, sa), Buckets(t, sa), c0, c1)
  {
    var r, i, b := RowsOf(t, sa), BucketB(c0, c1), Buckets(t, sa);
    assert i / 256 == c1 && i % 256 == c0 && ByEnd(i);
    assert b[i] == BucketAt(t, sa, i) - 1;
    var n, e := |r.last|, b[i];
    assert -1 <= e < n;
    forall p {:trigger r.first[p]} | 0 <= p < n
      ensures r.first[p] as int < c0 || (r.first[p] as int == c0 && r.first[Next(r, p)] as int <= c1) <==> p <= e
    {
      assert Divider(r, i)(p) <==> p < e + 1;
    }
  }

  // ----- the slots -----

  ghost function Slots(t: seq<byte>, sa: seq<int>): (a: seq<int>)
    requires IsRotationOrder(t, sa)
    ensures |a| == |t|
    ensures forall q {:trigger a[q]} :: 0 <= q < |t| ==> Position(a[q]) == sa[q] && Flagged(RowsOf(t, sa), a[q], sa[q], q)
  {
    seq(|t|, (q: int) requires 0 <= q < |t| => if PredRises(RowsOf(t, sa), q) then sa[q] else Not(sa[q]))
  }

  /** Rows with the same rotation are of the same type. */
  lemma SameStar(t: seq<byte>, sa: seq<int>, p: nat, q: nat)
    requires IsRotationOrder(t, sa) && p < |t| && q < |t| && Rotation(t, sa[p]) == Rotation(t, sa[q])
    ensures Star(RowsOf(t, sa), p) == Star(RowsOf(t, sa), q)
  {
    var r := RowsOf(t, sa);
    Follower(t, sa, p);
    Follower(t, sa, q);
    RightOnce(Rotation(t, sa[Next(r, p)]), Rotation(t, sa[Next(r, q)]));
    hide Rises, RotateRight, Rotation;
    assert r.rises[p] == r.rises[q] && r.rises[Next(r, p)] == r.rises[Next(r, q)];
  }

  lemma RightOnce(x: seq<byte>, y: seq<byte>)
    requires |x| == |y| && RotateRight(x) == RotateRight(y)
    ensures x == y
  {
    if x != [] {
      assert x == RotateRight(x)[1..] + [RotateRight(x)[0]] && y == RotateRight(y)[1..] + [RotateRight(y)[0]];
    }
  }

  lemma SlotsCover(t: seq<byte>, sa: seq<int>)
    requires IsRotationOrder(t, sa)
    ensures StarsCovered(t, sa, Slots(t, sa))
  {
    var r, a := RowsOf(t, sa), Slots(t, sa);
    forall q, x {:trigger AtRow(t, sa, q, x)} | 0 <= q < |t| && Star(r, q) && AtRow(t, sa, q, x) ensures InSlot(r, a, x) {
      var p := Surjective(sa, x);
      SameStar(t, sa, p, q);
      assert Position(a[p]) == x;
    }
  }

  // ----- what is asked for -----

  /** The contract for sorting the rotations of type B* can be met for every block. */
  lemma SomeBstar(t: seq<byte>) returns (s: Bstar)
    requires t != []
    ensures SortsBstar(t, s)
  {
    if Constant(t) {
      s := Bstar(0, [], []);
    } else {
      var sa := Sort(t, |t|);
      assert IsRotationOrder(t, sa);
      s := Bstar(1, Slots(t, sa), Buckets(t, sa));
      Sorts(t, sa);
    }
  }

  lemma Sorts(t: seq<byte>, sa: seq<int>)
    requires IsRotationOrder(t, sa) && !Constant(t)
    ensures BstarSorted(t, sa, Slots(t, sa), Buckets(t, sa))
  {
    var r, b := RowsOf(t, sa), Buckets(t, sa);
    hide StartOk, RisingOk, EndOk, StarsCovered, Constant, Star, Flagged;
    SlotsCover(t, sa);
    forall c {:trigger StartOk(r, b, c)} | 0 <= c < 256 ensures StartOk(r, b, c) { BucketsStart(t, sa, c); }
    forall c {:trigger RisingOk(r, b, c)} | 0 <= c < 255 ensures RisingOk(r, b, c) { BucketsRise(t, sa, c); }
    forall c1 {:trigger EndsOk(r, b, c1)} | 0 <= c1 < 255 ensures EndsOk(r, b, c1) {
      forall c0 {:trigger EndOk(r, b, c0, c1)} | 0 <= c0 <= c1 ensures EndOk(r, b, c0, c1) { BucketsEnd(t, sa, c0, c1); }
    }
  }
}
