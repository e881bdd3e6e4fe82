/** The Burrows-Wheeler transform: sorted cyclic rotations, their last column,
    and why walking the sorting links of that column gives back the block. */
module Bwt {
  import opened Common
  import opened Permutation

  /** The block rotated left by `i`. */
  function Rotation(t: seq<byte>, i: nat): (r: seq<byte>)
    requires i <= |t|
    ensures |r| == |t|
  {
    t[i..] + t[..i]
  }

  predicate LexLe(a: seq<byte>, b: seq<byte>)
    requires |a| == |b|
  {
    |a| == 0 || a[0] < b[0] || (a[0] == b[0] && LexLe(a[1..], b[1..]))
  }

  /** `sa` lists the start positions of all rotations of `t` in sorted order;
      equal rotations may come in any order. */
  ghost predicate IsRotationOrder(t: seq<byte>, sa: seq<int>) {
    && |sa| == |t|
    && IsPermutation(sa)
    && forall i, j :: 0 <= i < j < |sa| ==> LexLe(Rotation(t, sa[i]), Rotation(t, sa[j]))
  }

  function LastColumn(t: seq<byte>, sa: seq<int>): (col: seq<byte>)
    requires |sa| == |t| && Below(sa, |t|)
    ensures |col| == |t|
  {
    seq(|t|, (i: int) requires 0 <= i < |t| => t[if sa[i] == 0 then |t| - 1 else sa[i] - 1])
  }

  /** What a block sorter owes its caller: `col` is the last column of the sorted
      rotation matrix and row `idx` of that matrix is the block itself. */
  ghost predicate IsBwt(t: seq<byte>, col: seq<byte>, idx: int) {
    exists sa: seq<int> :: BwtVia(t, sa, col, idx)
  }

  ghost predicate BwtVia(t: seq<byte>, sa: seq<int>, col: seq<byte>, idx: int) {
    && IsRotationOrder(t, sa)
    && col == LastColumn(t, sa)
    && 0 <= idx < |t|
    && Rotation(t, sa[idx]) == t
  }

  /** `next` sorts the positions of `col` stably by character. */
  ghost predicate SortingLinks(col: seq<byte>, next: seq<int>) {
    && |next| == |col|
    && IsPermutation(next)
    && forall i, j :: 0 <= i < j < |col| ==>
         col[next[i]] < col[next[j]] || (col[next[i]] == col[next[j]] && next[i] < next[j])
  }

  /** The characters met when walking `n` links starting at node `q`. */
  function Walk(col: seq<byte>, next: seq<int>, q: int, n: nat): (r: seq<byte>)
    requires |next| == |col| && Below(next, |col|) && 0 <= q < |col|
    ensures |r| == n
    decreases n
  {
    if n == 0 then [] else [col[q]] + Walk(col, next, next[q], n - 1)
  }

  // ----- lexicographic order -----

  lemma {:induction false} LexTotal(a: seq<byte>, b: seq<byte>)
    requires |a| == |b|
    ensures LexLe(a, b) || LexLe(b, a)
  {
    if |a| > 0 && a[0] == b[0] {
      LexTotal(a[1..], b[1..]);
    }
  }

  lemma {:induction false} LexAntisym(a: seq<byte>, b: seq<byte>)
    requires |a| == |b| && LexLe(a, b) && LexLe(b, a)
    ensures a == b
  {
    if |a| > 0 {
      LexAntisym(a[1..], b[1..]);
      assert a == [a[0]] + a[1..] && b == [b[0]] + b[1..];
    }
  }

  lemma {:induction false} LexRefl(a: seq<byte>)
    ensures LexLe(a, a)
  {
    if |a| > 0 {
      LexRefl(a[1..]);
    }
  }

  lemma {:induction false} LexTrans(a: seq<byte>, b: seq<byte>, c: seq<byte>)
    requires |a| == |b| == |c| && LexLe(a, b) && LexLe(b, c)
    ensures LexLe(a, c)
  {
    if |a| > 0 && a[0] == b[0] == c[0] {
      LexTrans(a[1..], b[1..], c[1..]);
    }
  }

  lemma {:induction false} LexPrefix(a: seq<byte>, b: seq<byte>, n: nat)
    requires |a| == |b| && n <= |a| && LexLe(a, b)
    ensures LexLe(a[..n], b[..n])
  {
    if n > 0 && a[0] == b[0] {
      LexPrefix(a[1..], b[1..], n - 1);
      assert a[..n][1..] == a[1..][..n - 1];
      assert b[..n][1..] == b[1..][..n - 1];
    }
  }

  // ----- sorted sequences of rows -----

  ghost predicate Rows(rows: seq<seq<byte>>, width: nat) {
    forall i :: 0 <= i < |rows| ==> |rows[i]| == width
  }

  ghost predicate Sorted(rows: seq<seq<byte>>, width: nat)
    requires Rows(rows, width)
  {
    forall i, j :: 0 <= i < j < |rows| ==> LexLe(rows[i], rows[j])
  }

  /** Two sorted matrices with the same rows up to a permutation are equal. */
  lemma SortedUnique(q: seq<seq<byte>>, r: seq<seq<byte>>, g: seq<int>, width: nat, k: nat)
    requires |q| == |r| == |g| && k < |q| && IsPermutation(g)
    requires Rows(q, width) && Rows(r, width) && Sorted(q, width) && Sorted(r, width)
    requires forall j :: 0 <= j < |q| ==> q[j] == r[g[j]]
    ensures q[k] == r[k]
  {
    LexTotal(q[k], r[k]);
    if LexLe(q[k], r[k]) {
      if !LexLe(r[k], q[k]) {
        // The k + 1 rows q[0..k] are all found among the k rows r[0..k).
        forall j | 0 <= j <= k ensures 0 <= g[j] < k {
          if g[j] >= k {
            LexRefl(r[k]);
            assert LexLe(r[k], r[g[j]]);
            if j < k { LexTrans(r[k], q[j], q[k]); }
          }
        }
        Pigeonhole(g[..k + 1], k);
      }
    } else {
      var tail := seq(|q| - k, (j: int) requires 0 <= j < |q| - k => g[k + j] - (k + 1));
      forall j | k <= j < |q| ensures k + 1 <= g[j] < |q| {
        if g[j] <= k {
          LexRefl(r[k]);
          assert LexLe(r[g[j]], r[k]);
          LexTrans2(q, k, j, r[k]);
        }
      }
      assert Below(tail, |q| - k - 1);
      assert Injective(tail) by {
        forall i, j | 0 <= i < j < |tail| ensures tail[i] != tail[j] {
          assert g[k + i] != g[k + j];
        }
      }
      Pigeonhole(tail, |q| - k - 1);
    }
    LexAntisym(q[k], r[k]);
  }

  /** If a row at or after `k` is at most `x`, so is row `k`. */
  lemma LexTrans2(q: seq<seq<byte>>, k: nat, j: nat, x: seq<byte>)
    requires k <= j < |q| && Rows(q, |x|) && Sorted(q, |x|) && LexLe(q[j], x)
    ensures LexLe(q[k], x)
  {
    if k < j { LexTrans(q[k], q[j], x); }
  }

  // ----- walking the links -----

  function RotateRight(a: seq<byte>): (r: seq<byte>)
    ensures |r| == |a|
  {
    if a == [] then [] else [a[|a| - 1]] + a[..|a| - 1]
  }

  /** Rotating rotation `i` right by one gives the rotation before it. */
  lemma RotateRightRotation(t: seq<byte>, i: nat)
    requires i < |t|
    ensures RotateRight(Rotation(t, i)) == Rotation(t, if i == 0 then |t| - 1 else i - 1)
    ensures Rotation(t, i)[|t| - 1] == t[if i == 0 then |t| - 1 else i - 1]
  {
    if i == 0 {
      assert Rotation(t, 0) == t;
      assert t == t[..|t| - 1] + t[|t| - 1..];
    } else {
      assert t[..i] == t[..i - 1] + [t[i - 1]];
      assert t[i - 1..] == [t[i - 1]] + t[i..];
      assert RotateRight(Rotation(t, i)) == [t[i - 1]] + (t[i..] + t[..i - 1]);
    }
  }

  function Matrix(t: seq<byte>, sa: seq<int>): (rows: seq<seq<byte>>)
    requires |sa| == |t| && Below(sa, |t|)
    ensures |rows| == |t|
  {
    seq(|t|, (i: int) requires 0 <= i < |t| => Rotation(t, sa[i]))
  }

  /** The matrix whose row `j` is row `next[j]` rotated right by one. */
  function Shifted(t: seq<byte>, sa: seq<int>, next: seq<int>): (rows: seq<seq<byte>>)
    requires |sa| == |next| == |t| && Below(sa, |t|) && Below(next, |t|)
    ensures |rows| == |t|
  {
    seq(|t|, (j: int) requires 0 <= j < |t| => RotateRight(Rotation(t, sa[next[j]])))
  }

  lemma ShiftedSorted(t: seq<byte>, sa: seq<int>, next: seq<int>, i: nat, j: nat)
    requires IsRotationOrder(t, sa) && SortingLinks(LastColumn(t, sa), next)
    requires i < j < |t|
    ensures LexLe(Shifted(t, sa, next)[i], Shifted(t, sa, next)[j])
  {
    var n := |t|;
    var a, b := Rotation(t, sa[next[i]]), Rotation(t, sa[next[j]]);
    RotateRightRotation(t, sa[next[i]]);
    RotateRightRotation(t, sa[next[j]]);
    assert RotateRight(a)[0] == LastColumn(t, sa)[next[i]];
    assert RotateRight(b)[0] == LastColumn(t, sa)[next[j]];
    if a[n - 1] == b[n - 1] {
      assert next[i] < next[j];
      LexPrefix(a, b, n - 1);
      assert RotateRight(a)[1..] == a[..n - 1];
      assert RotateRight(b)[1..] == b[..n - 1];
    }
  }

  lemma PrecedingRowInjective(sa: seq<int>, next: seq<int>, g: seq<int>)
    requires |sa| == |next| == |g| && IsPermutation(sa) && IsPermutation(next) && Below(g, |sa|)
    requires forall i :: 0 <= i < |g| ==>
      sa[g[i]] == if sa[next[i]] == 0 then |sa| - 1 else sa[next[i]] - 1
    ensures IsPermutation(g)
  {
    forall i, k | 0 <= i < k < |g| ensures g[i] != g[k] {
      assert next[i] != next[k];
      assert sa[next[i]] != sa[next[k]];
    }
  }

  /** The key step: following a link rotates the row left by one. */
  lemma LinkRotates(t: seq<byte>, sa: seq<int>, next: seq<int>, j: nat)
    requires IsRotationOrder(t, sa) && SortingLinks(LastColumn(t, sa), next) && j < |t|
    ensures Rotation(t, sa[j]) == RotateRight(Rotation(t, sa[next[j]]))
  {
    var n := |t|;
    var q, r := Shifted(t, sa, next), Matrix(t, sa);
    var inv := Inverse(sa);
    var g := seq(n, (i: int) requires 0 <= i < n =>
      inv[if sa[next[i]] == 0 then n - 1 else sa[next[i]] - 1]);
    forall i | 0 <= i < n ensures q[i] == r[g[i]] {
      RotateRightRotation(t, sa[next[i]]);
    }
    PrecedingRowInjective(sa, next, g);
    forall i, k | 0 <= i < k < n ensures LexLe(q[i], q[k]) {
      ShiftedSorted(t, sa, next, i, k);
    }
    SortedUnique(q, r, g, n, j);
  }

  lemma RotateLeftRotation(t: seq<byte>, i: nat, b: seq<byte>)
    requires i < |t| == |b| && Rotation(t, i) == RotateRight(b)
    ensures b == Rotation(t, i + 1)
  {
    var a := Rotation(t, i);
    assert b == b[..|b| - 1] + [b[|b| - 1]] == a[1..] + [a[0]];
    assert t[i..] == [t[i]] + t[i + 1..];
    assert t[..i + 1] == t[..i] + [t[i]];
  }

  /** One step of the walk, on rows. */
  lemma LinkAdvances(t: seq<byte>, sa: seq<int>, next: seq<int>, q: int, i: nat)
    requires IsRotationOrder(t, sa) && SortingLinks(LastColumn(t, sa), next)
    requires 0 <= q < |t| && i < |t| && Rotation(t, sa[q]) == Rotation(t, i)
    ensures Rotation(t, sa[next[q]]) == Rotation(t, i + 1)
  {
    LinkRotates(t, sa, next, q);
    RotateLeftRotation(t, i, Rotation(t, sa[next[q]]));
  }

  /** The last character of rotation `i` of the block precedes position `i`. */
  lemma ColumnReads(t: seq<byte>, sa: seq<int>, q: int, i: nat)
    requires IsRotationOrder(t, sa)
    requires 0 <= q < |t| && 0 < i <= |t| && Rotation(t, sa[q]) == Rotation(t, i)
    ensures LastColumn(t, sa)[q] == t[i - 1]
  {
    RotateRightRotation(t, sa[q]);
    assert Rotation(t, i)[|t| - 1] == t[i - 1];
  }

  /** Walking from a node whose row is rotation `i` of the block reads the block
      on from position `i - 1`. */
  lemma {:induction false} WalkReads(t: seq<byte>, sa: seq<int>, next: seq<int>, q: int, i: nat, n: nat)
    requires IsRotationOrder(t, sa) && SortingLinks(LastColumn(t, sa), next)
    requires 0 <= q < |t| && 0 < i && i - 1 + n <= |t|
    requires i <= |t| && Rotation(t, sa[q]) == Rotation(t, i)
    ensures Walk(LastColumn(t, sa), next, q, n) == t[i - 1..i - 1 + n]
    decreases n
  {
    if n > 0 {
      ColumnReads(t, sa, q, i);
      if n > 1 {
        LinkAdvances(t, sa, next, q, i);
        WalkReads(t, sa, next, next[q], i + 1, n - 1);
      }
      assert t[i - 1..i - 1 + n] == [t[i - 1]] + t[i..i + (n - 1)];
    }
  }

  lemma InverseBwtVia(t: seq<byte>, sa: seq<int>, idx: int, next: seq<int>)
    requires IsRotationOrder(t, sa) && SortingLinks(LastColumn(t, sa), next)
    requires 0 <= idx < |t| && Rotation(t, sa[idx]) == t
    ensures Walk(LastColumn(t, sa), next, next[idx], |t|) == t
  {
    assert Rotation(t, 0) == t;
    LinkAdvances(t, sa, next, idx, 0);
    WalkReads(t, sa, next, next[idx], 1, |t|);
    assert t[0..|t|] == t;
  }

  /** Whatever order a sorter gave to equal rotations, and however many cycles the
      links therefore form, `|t|` steps from the successor of row `idx` read back
      exactly the block. */
  lemma InverseBwt(t: seq<byte>, col: seq<byte>, idx: int, next: seq<int>)
    requires IsBwt(t, col, idx) && SortingLinks(col, next)
    ensures 0 <= idx < |t| == |col|
    ensures Walk(col, next, next[idx], |t|) == t
  {
    var sa: seq<int> :| BwtVia(t, sa, col, idx);
    InverseBwtVia(t, sa, idx, next);
  }
}
