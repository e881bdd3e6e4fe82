/** Why merging two least frequencies again and again costs the least: codes of any lengths
    that fit into the code space take at least the sum of all merged frequencies. */
module HuffmanCost {
  import opened Powers
  import opened CodeLengths

  // ----- changing single lengths -----

  lemma {:induction false} DotUpdate(v: seq<nat>, x: seq<nat>, i: nat, y: nat)
    requires |v| == |x| && i < |v|
    ensures Dot(v, x[i := y]) + Times(v[i], x[i]) == Dot(v, x) + Times(v[i], y)
    decreases |v|
  {
    hide Times;
    var n := |v| - 1;
    if i < n {
      DotUpdate(v[..n], x[..n], i, y);
      assert x[i := y][..n] == x[..n][i := y];
    } else {
      assert x[i := y][..n] == x[..n];
    }
  }

  /** The share of one code. */
  function Share(h: nat, d: nat): nat {
    Pow2(h - Min(d, h))
  }

  lemma {:induction false} ShareUpdate(x: seq<nat>, h: nat, i: nat, y: nat)
    requires i < |x|
    ensures Space(x[i := y], h) + Share(h, x[i]) == Space(x, h) + Share(h, y)
    decreases |x|
  {
    var n := |x| - 1;
    if i < n {
      ShareUpdate(x[..n], h, i, y);
      assert x[i := y][..n] == x[..n][i := y];
    } else {
      assert x[i := y][..n] == x[..n];
    }
    hide Pow2, Min;
  }

  lemma {:induction false} OneShare(x: seq<nat>, h: nat, i: nat)
    requires i < |x|
    ensures Space(x, h) >= Share(h, x[i])
    decreases |x|
  {
    if i < |x| - 1 { OneShare(x[..|x| - 1], h, i); }
  }

  lemma {:induction false} TwoShares(x: seq<nat>, h: nat, i: nat, j: nat)
    requires i < j < |x|
    ensures Space(x, h) >= Share(h, x[i]) + Share(h, x[j])
    decreases |x|
  {
    if j < |x| - 1 { TwoShares(x[..|x| - 1], h, i, j); } else { OneShare(x[..|x| - 1], h, i); }
  }

  /** Of two or more codes none is empty. */
  lemma NoneEmpty(x: seq<nat>, h: nat)
    requires |x| >= 2 && Space(x, h) <= Pow2(h) && forall i :: 0 <= i < |x| ==> x[i] <= h
    ensures Within(x, h)
  {
    hide Space, Share, Pow2;
    forall i | 0 <= i < |x| ensures x[i] >= 1 {
      var k := if i == 0 then 1 else 0;
      if i == 0 { TwoShares(x, h, 0, 1); } else { TwoShares(x, h, 0, i); }
      SomeShare(h, x[k]);
      SomeShare(h, x[i]);
    }
  }

  lemma SomeShare(h: nat, d: nat)
    ensures Share(h, d) > 0 && (d == 0 ==> Share(h, d) == Pow2(h))
  {
  }

  function Swap(x: seq<nat>, i: nat, j: nat): (y: seq<nat>)
    requires i < |x| && j < |x|
    ensures |y| == |x| && forall k :: 0 <= k < |x| ==> y[k] == if k == i then x[j] else if k == j then x[i] else x[k]
  {
    x[i := x[j]][j := x[i]]
  }

  /** Giving the longer code to what is rarer costs no more. */
  lemma SwapCosts(v: seq<nat>, x: seq<nat>, h: nat, i: nat, j: nat)
    requires |v| == |x| && i < |v| && j < |v| && v[i] <= v[j] && x[i] <= x[j]
    ensures Dot(v, Swap(x, i, j)) <= Dot(v, x) && Space(Swap(x, i, j), h) == Space(x, h)
  {
    if i != j {
      DotUpdate(v, x, i, x[j]);
      DotUpdate(v, x[i := x[j]], j, x[i]);
      ShareUpdate(x, h, i, x[j]);
      ShareUpdate(x[i := x[j]], h, j, x[i]);
      CrossProducts(v[i], v[j], x[i], x[j]);
      hide Times, Dot, Space, Share;
    } else {
      assert Swap(x, i, j) == x;
    }
  }

  lemma CrossProducts(a: nat, b: nat, x: nat, y: nat)
    requires a <= b && x <= y
    ensures Times(a, y) + Times(b, x) <= Times(a, x) + Times(b, y)
  {
    var d, e := b - a, y - x;
    assert b * y == (a + d) * y && b * x == (a + d) * x;
    assert d * y == d * (x + e);
  }

  // ----- complete codes -----

  /** The greatest of the lengths but for one. */
  lemma {:induction false} LongestOther(x: seq<nat>, i: nat) returns (j: nat)
    requires |x| >= 2 && i < |x|
    ensures j < |x| && j != i && forall k :: 0 <= k < |x| && k != i ==> x[k] <= x[j]
  {
    j := Longest(x[i := 0]);
    var y := x[i := 0];
    if j == i {
      j := if i == 0 then 1 else 0;
      assert forall k :: 0 <= k < |x| ==> y[k] <= y[i];
    }
    assert forall k :: 0 <= k < |x| && k != i ==> y[k] == x[k];
  }

  /** In a complete code the greatest length occurs twice. */
  lemma LongestTwice(x: seq<nat>, h: nat, i: nat, j: nat)
    requires |x| >= 2 && Within(x, h) && Space(x, h) == Pow2(h) && i < |x| && j < |x| && i != j
    requires forall k :: 0 <= k < |x| ==> x[k] <= x[i]
    requires forall k :: 0 <= k < |x| && k != i ==> x[k] <= x[j]
    ensures x[j] == x[i]
  {
    hide Space, Pow2;
    if x[j] < x[i] { NotOnce(x, h, i, x[i]); }
  }

  lemma NotOnce(x: seq<nat>, h: nat, i: nat, m: nat)
    requires i < |x| && x[i] == m && 1 <= m <= h && forall k :: 0 <= k < |x| && k != i ==> x[k] <= m - 1
    ensures Space(x, h) != Pow2(h)
  {
    hide *;
    var y := x[i := m - 1];
    SpaceUpdate(x, h, i);
    SpaceMultiple(y, m - 1, h);
    PowerTimes(m - 1, h - m + 1);
    HalfPower(h - m);
    TooBig(Space(y, m - 1), Pow2(m - 1), Pow2(h - m), Pow2(h - m + 1));
  }

  lemma PowerTimes(a: nat, b: nat)
    ensures Pow2(a + b) == Times(Pow2(a), Pow2(b))
  {
    Pow2Add(a, b);
  }

  lemma HalfPower(n: nat)
    ensures Pow2(n + 1) == 2 * Pow2(n) && Pow2(n) > 0
  {
  }

  lemma TooBig(s: nat, q: nat, g: nat, d: nat)
    requires g > 0 && d == 2 * g
    ensures Times(s, d) != Times(q, d) + g
  {
    if s <= q {
      MulMonotone(s, q, d);
    } else {
      MulMonotone(q + 1, s, d);
      assert (q + 1) * d == q * d + d;
    }
  }

  // ----- merging -----

  /** No codes for these frequencies that fit into the code space cost less than `c`. */
  ghost predicate Lower(v: seq<nat>, c: nat) {
    forall x: seq<nat>, h: nat {:trigger Space(x, h), Dot(v, x)} ::
      |x| == |v| && (forall i :: 0 <= i < |x| ==> x[i] <= h) && Space(x, h) <= Pow2(h) ==> c <= Dot(v, x)
  }

  /** Codes that are no longer cost no more. */
  lemma {:induction false} DotMonotone(v: seq<nat>, y: seq<nat>, x: seq<nat>)
    requires |y| == |x| == |v| && forall t :: 0 <= t < |x| ==> y[t] <= x[t]
    ensures Dot(v, y) <= Dot(v, x)
    decreases |v|
  {
    hide Times;
    if v != [] {
      var n := |v| - 1;
      DotMonotone(v[..n], y[..n], x[..n]);
      TimesMonotone(v[n], y[n], x[n]);
    }
  }

  /** The two rarest, `i` and `j`, may as well have the longest codes. */
  lemma Exchange(v: seq<nat>, x: seq<nat>, h: nat, i: nat, j: nat) returns (y: seq<nat>)
    requires |v| == |x| >= 2 && i < |v| && j < |v| && i != j && v[i] <= v[j]
    requires forall k :: 0 <= k < |v| && k != i && k != j ==> v[j] <= v[k]
    requires (forall k :: 0 <= k < |x| ==> x[k] <= h) && Space(x, h) <= Pow2(h)
    ensures |y| == |x| && Within(y, h) && Space(y, h) == Pow2(h) && y[i] == y[j] && Dot(v, y) <= Dot(v, x)
  {
    NoneEmpty(x, h);
    var a := Shorten(x, h);
    DotMonotone(v, a, x);
    hide Dot, Space, Pow2;
    var e := Longest(a);
    SwapCosts(v, a, h, i, e);
    var b := Swap(a, i, e);
    var f := LongestOther(b, i);
    LongestTwice(b, h, i, f);
    SwapCosts(v, b, h, j, f);
    y := Swap(b, j, f);
  }

  lemma {:induction false} DotConcat(v: seq<nat>, w: seq<nat>, x: seq<nat>, y: seq<nat>)
    requires |v| == |x| && |w| == |y|
    ensures Dot(v + w, x + y) == Dot(v, x) + Dot(w, y)
    decreases |w|
  {
    if w == [] {
      assert v + w == v && x + y == x;
    } else {
      DotConcat(v, w[..|w| - 1], x, y[..|y| - 1]);
      assert (v + w)[..|v + w| - 1] == v + w[..|w| - 1] && (x + y)[..|x + y| - 1] == x + y[..|y| - 1];
    }
  }

  lemma {:induction false} SpaceConcat(x: seq<nat>, y: seq<nat>, h: nat)
    ensures Space(x + y, h) == Space(x, h) + Space(y, h)
    decreases |y|
  {
    if y == [] {
      assert x + y == x;
    } else {
      SpaceConcat(x, y[..|y| - 1], h);
      assert (x + y)[..|x + y| - 1] == x + y[..|y| - 1];
    }
  }

  lemma DotOne(a: nat, d: nat)
    ensures Dot([a], [d]) == Times(a, d)
  {
    assert [a][..0] == [] && [d][..0] == [];
    assert Dot([], []) == 0;
  }

  lemma SpaceOne(d: nat, h: nat)
    requires d <= h
    ensures Space([d], h) == Pow2(h - d)
  {
    assert [d][..0] == [];
    assert Space([], h) == 0;
  }

  /** Merging the two rarest: what holds for the others and the sum of the two holds, with
      that sum added, for the others and the two. */
  lemma LowerMerge(u: seq<nat>, a: nat, b: nat, c: nat)
    requires Lower([a + b] + u, c) && forall k :: 0 <= k < |u| ==> a <= u[k] && b <= u[k]
    ensures Lower(u + [a, b], c + a + b)
  {
    var v, n := u + [a, b], |u|;
    forall x: seq<nat>, h: nat {:trigger Space(x, h), Dot(v, x)} |
      |x| == |v| && (forall i :: 0 <= i < |x| ==> x[i] <= h) && Space(x, h) <= Pow2(h)
      ensures c + a + b <= Dot(v, x)
    {
      hide Lower, Dot, Space, Pow2;
      var y;
      if a <= b { y := Exchange(v, x, h, n, n + 1); } else { y := Exchange(v, x, h, n + 1, n); }
      MergedCost(u, a, b, c, y, h);
    }
  }

  lemma MergedCost(u: seq<nat>, a: nat, b: nat, c: nat, y: seq<nat>, h: nat)
    requires Lower([a + b] + u, c) && |y| == |u| + 2 && Within(y, h) && Space(y, h) == Pow2(h) && y[|u|] == y[|u| + 1]
    ensures c + a + b <= Dot(u + [a, b], y)
  {
    hide Dot, Space, Pow2, Times, Lower;
    var n := |u|;
    var m, front := y[n], y[..n];
    assert y == front + [m, m];
    var z: seq<nat> := [m - 1] + front;
    MergedDots(u, a, b, front, m);
    MergedSpaces(front, m, h);
    UseLower([a + b] + u, c, z, h);
  }

  lemma MergedDots(u: seq<nat>, a: nat, b: nat, front: seq<nat>, m: nat)
    requires |front| == |u| && m > 0
    ensures Dot(u + [a, b], front + [m, m]) == Dot([a + b] + u, [m - 1] + front) + a + b
  {
    hide Dot, Times;
    DotConcat(u, [a, b], front, [m, m]);
    assert [a, b] == [a] + [b] && [m, m] == [m] + [m];
    DotConcat([a], [b], [m], [m]);
    DotConcat([a + b], u, [m - 1], front);
    DotOne(a, m);
    DotOne(b, m);
    DotOne(a + b, m - 1);
    MergedProducts(a, b, m);
  }

  lemma MergedSpaces(front: seq<nat>, m: nat, h: nat)
    requires 0 < m <= h
    ensures Space([m - 1] + front, h) == Space(front + [m, m], h)
  {
    hide Space, Pow2;
    SpaceConcat(front, [m, m], h);
    assert [m, m] == [m] + [m];
    SpaceConcat([m], [m], h);
    SpaceConcat([m - 1], front, h);
    SpaceOne(m, h);
    SpaceOne(m - 1, h);
    HalfPower(h - m);
  }

  lemma MergedProducts(a: nat, b: nat, m: nat)
    requires m > 0
    ensures Times(a, m) + Times(b, m) == Times(a + b, m - 1) + a + b
  {
  }

  /** The order of the frequencies does not matter. */
  lemma LowerOrder(p: seq<nat>, q: seq<nat>, r: seq<nat>, s: seq<nat>, c: nat)
    requires Lower((p + r) + (q + s), c)
    ensures Lower((p + q) + (r + s), c)
  {
    var v, w := (p + q) + (r + s), (p + r) + (q + s);
    forall x: seq<nat>, h: nat {:trigger Space(x, h), Dot(v, x)} |
      |x| == |v| && (forall i :: 0 <= i < |x| ==> x[i] <= h) && Space(x, h) <= Pow2(h)
      ensures c <= Dot(v, x)
    {
      hide Lower;
      var a, b, d, e := Cut(x, |p|, |q|, |r|, |s|);
      FourDots(p, q, r, s, a, b, d, e);
      FourSpaces(a, b, d, e, h);
      var y := (a + d) + (b + e);
      Bounded(a, b, d, e, h);
      hide Dot, Space, Pow2;
      UseLower(w, c, y, h);
    }
  }

  lemma Cut(x: seq<nat>, i: nat, j: nat, k: nat, l: nat) returns (a: seq<nat>, b: seq<nat>, d: seq<nat>, e: seq<nat>)
    requires |x| == i + j + k + l
    ensures x == (a + b) + (d + e) && |a| == i && |b| == j && |d| == k && |e| == l
  {
    a, b, d, e := x[..i], x[i..i + j], x[i + j..i + j + k], x[i + j + k..];
  }

  lemma UseLower(v: seq<nat>, c: nat, x: seq<nat>, h: nat)
    requires Lower(v, c) && |x| == |v| && (forall i :: 0 <= i < |x| ==> x[i] <= h) && Space(x, h) <= Pow2(h)
    ensures c <= Dot(v, x)
  {
  }

  lemma Bounded(a: seq<nat>, b: seq<nat>, d: seq<nat>, e: seq<nat>, h: nat)
    requires var x := (a + b) + (d + e); forall t :: 0 <= t < |x| ==> x[t] <= h
    ensures var y := (a + d) + (b + e); forall t :: 0 <= t < |y| ==> y[t] <= h
  {
    var x, y := (a + b) + (d + e), (a + d) + (b + e);
    var i, j, k := |a|, |b|, |d|;
    forall t | 0 <= t < |y| ensures y[t] <= h {
      assert y[t] == x[if t < i then t else if t < i + k then t + j else if t < i + k + j then t - k else t];
    }
  }

  lemma FourDots(p: seq<nat>, q: seq<nat>, r: seq<nat>, s: seq<nat>, a: seq<nat>, b: seq<nat>, d: seq<nat>, e: seq<nat>)
    requires |p| == |a| && |q| == |b| && |r| == |d| && |s| == |e|
    ensures Dot((p + q) + (r + s), (a + b) + (d + e)) == Dot((p + r) + (q + s), (a + d) + (b + e))
  {
    hide Dot;
    DotConcat(p + q, r + s, a + b, d + e);
    DotConcat(p, q, a, b);
    DotConcat(r, s, d, e);
    DotConcat(p + r, q + s, a + d, b + e);
    DotConcat(p, r, a, d);
    DotConcat(q, s, b, e);
  }

  lemma FourSpaces(a: seq<nat>, b: seq<nat>, d: seq<nat>, e: seq<nat>, h: nat)
    ensures Space((a + b) + (d + e), h) == Space((a + d) + (b + e), h)
  {
    hide Space;
    SpaceConcat(a + b, d + e, h);
    SpaceConcat(a, b, h);
    SpaceConcat(d, e, h);
    SpaceConcat(a + d, b + e, h);
    SpaceConcat(a, d, h);
    SpaceConcat(b, e, h);
  }
}
