/** The run of the two-queue construction: which nodes and leaves stood alone before each
    node was made.  From it follows what the codes cost, and that no others cost less. */
module HuffmanTrace {
  import opened Powers
  import opened CodeLengths
  import opened HuffmanCost

  /** What node `t` was made of: the nodes from `r'` to `r` and the leaves from `s'` to `s`. */
  function Parts(f: seq<nat>, w: seq<nat>, r': nat, r: nat, s': nat, s: nat): (p: seq<nat>)
    requires r' <= r <= |w| && s' <= s <= |f|
    ensures |p| == (r - r') + (s - s')
  {
    w[r'..r] + f[s'..s]
  }

  /** Node `t` is over two, than which no other that stood alone was less. */
  ghost predicate Merges(f: seq<nat>, w: seq<nat>, t: nat, r': nat, r: nat, s': nat, s: nat, x: nat) {
    && t < r' <= r <= |w| == |f| && s' <= s <= |f| && (r - r') + (s - s') == 2
    && x == Sum(Parts(f, w, r', r, s', s))
    && forall i, k {:trigger Parts(f, w, r', r, s', s)[i], Parts(f, w, t + 1, r', 0, s')[k]} ::
         0 <= i < 2 && 0 <= k < (r' - t - 1) + s' ==> Parts(f, w, r', r, s', s)[i] <= Parts(f, w, t + 1, r', 0, s')[k]
  }

  /** `r[t]` and `s[t]` say what stood alone after node `t + 1` was made. */
  ghost predicate Trace(f: seq<nat>, w: seq<nat>, r: seq<nat>, s: seq<nat>) {
    var n := |f|;
    && n >= 2 && |w| == |r| == |s| == n
    && r[n - 1] == n && s[n - 1] == n && r[0] == 2 && s[0] == 0
    && forall t {:trigger r[t]} :: 1 <= t < n ==> Merges(f, w, t, r[t - 1], r[t], s[t - 1], s[t], w[t])
  }

  lemma TraceAt(f: seq<nat>, w: seq<nat>, r: seq<nat>, s: seq<nat>, t: nat)
    requires Trace(f, w, r, s) && 1 <= t < |f|
    ensures |w| == |r| == |s| == |f| && Merges(f, w, t, r[t - 1], r[t], s[t - 1], s[t], w[t])
  {
    assert r[t] == r[t];
  }

  lemma TraceSize(f: seq<nat>, w: seq<nat>, r: seq<nat>, s: seq<nat>)
    requires Trace(f, w, r, s)
    ensures |w| == |r| == |s| == |f| >= 2
  {
  }

  lemma MergesSizes(f: seq<nat>, w: seq<nat>, t: nat, r': nat, r: nat, s': nat, s: nat, x: nat)
    requires Merges(f, w, t, r', r, s', s, x)
    ensures t < r' <= r <= |w| == |f| && s' <= s <= |f|
  {
  }

  lemma TraceEnds(f: seq<nat>, w: seq<nat>, r: seq<nat>, s: seq<nat>)
    requires Trace(f, w, r, s)
    ensures |w| == |r| == |s| == |f| >= 2 && r[0] == 2 && s[0] == 0 && r[|f| - 1] == |f| == s[|f| - 1]
  {
  }

  lemma TraceRange(f: seq<nat>, w: seq<nat>, r: seq<nat>, s: seq<nat>, t: nat)
    requires Trace(f, w, r, s) && t < |f|
    ensures |w| == |r| == |s| == |f| && t + 1 <= r[t] <= |f| && s[t] <= |f|
    ensures r[0] == 2 && s[0] == 0 && r[|f| - 1] == |f| == s[|f| - 1]
  {
    hide *;
    TraceEnds(f, w, r, s);
    if t > 0 {
      TraceAt(f, w, r, s, t);
      MergesSizes(f, w, t, r[t - 1], r[t], s[t - 1], s[t], w[t]);
    }
  }

  // ----- no codes cost less -----

  lemma {:induction false} SumConcat(a: seq<nat>, b: seq<nat>)
    ensures Sum(a + b) == Sum(a) + Sum(b)
    decreases |b|
  {
    if b == [] {
      assert a + b == a;
    } else {
      SumConcat(a, b[..|b| - 1]);
      assert (a + b)[..|a + b| - 1] == a + b[..|b| - 1];
    }
  }

  lemma SumOfTwo(a: seq<nat>)
    requires |a| == 2
    ensures Sum(a) == a[0] + a[1] && a == [a[0], a[1]]
  {
    assert a[..1][..0] == [] && Sum(a[..1]) == a[0];
  }

  /** One more node. */
  lemma SumMore(w: seq<nat>, t: nat)
    requires 1 <= t < |w|
    ensures Sum(w[1..t + 1]) == Sum(w[1..t]) + w[t]
  {
    assert w[1..t + 1][..t - 1] == w[1..t];
  }

  lemma MergesLower(f: seq<nat>, w: seq<nat>, t: nat, r': nat, r: nat, s': nat, s: nat, c: nat)
    requires 1 <= t < |w| && Merges(f, w, t, r', r, s', s, w[t]) && Lower(Parts(f, w, t, r', 0, s'), c)
    ensures Lower(Parts(f, w, t + 1, r, 0, s), c + w[t])
  {
    hide Lower;
    var u, v := Parts(f, w, t + 1, r', 0, s'), Parts(f, w, r', r, s', s);
    SumOfTwo(v);
    assert Parts(f, w, t, r', 0, s') == [v[0] + v[1]] + u;
    LowerMerge(u, v[0], v[1], c);
    var p, q, g, h := w[t + 1..r'], w[r'..r], f[0..s'], f[s'..s];
    LowerOrder(p, q, g, h, c + w[t]);
    assert p + q == w[t + 1..r] && g + h == f[0..s];
  }

  lemma {:induction false} TraceLower(f: seq<nat>, w: seq<nat>, r: seq<nat>, s: seq<nat>, t: nat)
    requires Trace(f, w, r, s) && t < |f|
    ensures |w| == |r| == |s| == |f| && t + 1 <= r[t] <= |f| && s[t] <= |f|
    ensures Lower(Parts(f, w, t + 1, r[t], 0, s[t]), Sum(w[1..t + 1]))
    decreases t
  {
    hide *;
    TraceRange(f, w, r, s, t);
    if t == 0 {
      assert w[1..1] == [];
      NothingLower(Parts(f, w, 1, r[0], 0, s[0]));
    } else {
      TraceAt(f, w, r, s, t);
      TraceRange(f, w, r, s, t - 1);
      TraceLower(f, w, r, s, t - 1);
      MergesLower(f, w, t, r[t - 1], r[t], s[t - 1], s[t], Sum(w[1..t]));
      SumMore(w, t);
    }
  }

  lemma NothingLower(v: seq<nat>)
    ensures Lower(v, Sum([]))
  {
  }

  // ----- what the codes of the tree cost -----

  /** The depths of the nodes and of the leaves. */
  ghost predicate DepthsOf(r: seq<nat>, s: seq<nat>, d: seq<nat>, l: seq<nat>) {
    && |r| == |s| == |d| == |l| >= 2 && d[1] == 0
    && (forall t, i {:trigger d[t], d[i]} :: 1 <= t < |r| && r[t - 1] <= i < r[t] && i < |d| ==> d[i] == d[t] + 1)
    && forall t, j {:trigger d[t], l[j]} :: 1 <= t < |r| && s[t - 1] <= j < s[t] && j < |l| ==> l[j] == d[t] + 1
  }

  lemma {:induction false} DotConstant(v: seq<nat>, x: seq<nat>, k: nat)
    requires |v| == |x| && forall i :: 0 <= i < |x| ==> x[i] == k
    ensures Dot(v, x) == Times(Sum(v), k)
    decreases |v|
  {
    if v == [] {
      TimesNothing(k);
    } else {
      var n := |v| - 1;
      DotConstant(v[..n], x[..n], k);
      Distribute(Sum(v[..n]), v[n], k);
    }
  }

  lemma TimesNothing(k: nat)
    ensures Times(0, k) == 0
  {
  }

  lemma MergesCost(f: seq<nat>, w: seq<nat>, t: nat, r': nat, r: nat, s': nat, s: nat, d: seq<nat>, l: seq<nat>)
    requires 1 <= t < |w| && Merges(f, w, t, r', r, s', s, w[t]) && |d| == |l| == |f|
    requires forall i :: r' <= i < r ==> d[i] == d[t] + 1
    requires forall j :: s' <= j < s ==> l[j] == d[t] + 1
    ensures Dot(Parts(f, w, t + 1, r, 0, s), Parts(l, d, t + 1, r, 0, s)) == Dot(Parts(f, w, t, r', 0, s'), Parts(l, d, t, r', 0, s')) + w[t]
  {
    hide Dot, Times, Sum;
    var k := d[t] + 1;
    var p, q, g, h := w[t + 1..r'], w[r'..r], f[0..s'], f[s'..s];
    var p', q', g', h' := d[t + 1..r'], d[r'..r], l[0..s'], l[s'..s];
    assert w[t + 1..r] == p + q && f[0..s] == g + h && d[t + 1..r] == p' + q' && l[0..s] == g' + h';
    assert w[t..r'] == [w[t]] + p && d[t..r'] == [d[t]] + p';
    DotConcat(p + q, g + h, p' + q', g' + h');
    DotConcat(p, q, p', q');
    DotConcat(g, h, g', h');
    DotConcat([w[t]] + p, g, [d[t]] + p', g');
    DotConcat([w[t]], p, [d[t]], p');
    DotOne(w[t], d[t]);
    DotConcat(q, h, q', h');
    DotConstant(q + h, q' + h', k);
    MoreTimes(w[t], d[t]);
  }

  lemma {:induction false} TraceCost(f: seq<nat>, w: seq<nat>, r: seq<nat>, s: seq<nat>, d: seq<nat>, l: seq<nat>, t: nat)
    requires Trace(f, w, r, s) && DepthsOf(r, s, d, l) && |d| == |f| && t < |f|
    ensures |w| == |r| == |s| == |f| == |l| && t + 1 <= r[t] <= |f| && s[t] <= |f|
    ensures Dot(Parts(f, w, t + 1, r[t], 0, s[t]), Parts(l, d, t + 1, r[t], 0, s[t])) == Sum(w[1..t + 1])
    decreases t
  {
    hide *;
    TraceRange(f, w, r, s, t);
    DepthsSizes(r, s, d, l);
    if t == 0 {
      RootCosts(f, w, d, l);
    } else {
      TraceRange(f, w, r, s, t - 1);
      TraceCost(f, w, r, s, d, l, t - 1);
      StepCosts(f, w, r, s, d, l, t);
      SumMore(w, t);
    }
  }

  lemma StepCosts(f: seq<nat>, w: seq<nat>, r: seq<nat>, s: seq<nat>, d: seq<nat>, l: seq<nat>, t: nat)
    requires Trace(f, w, r, s) && DepthsOf(r, s, d, l) && |d| == |f| && 1 <= t < |f|
    ensures |w| == |r| == |s| == |l| == |f| && t <= r[t - 1] && t + 1 <= r[t] <= |f| && s[t] <= |f| && r[t - 1] <= |f| && s[t - 1] <= |f|
    ensures Dot(Parts(f, w, t + 1, r[t], 0, s[t]), Parts(l, d, t + 1, r[t], 0, s[t]))
      == Dot(Parts(f, w, t, r[t - 1], 0, s[t - 1]), Parts(l, d, t, r[t - 1], 0, s[t - 1])) + w[t]
  {
    hide *;
    TraceRange(f, w, r, s, t);
    TraceRange(f, w, r, s, t - 1);
    DepthsAt(r, s, d, l, t);
    TraceAt(f, w, r, s, t);
    MergesSizes(f, w, t, r[t - 1], r[t], s[t - 1], s[t], w[t]);
    MergesCost(f, w, t, r[t - 1], r[t], s[t - 1], s[t], d, l);
  }

  lemma DepthsSizes(r: seq<nat>, s: seq<nat>, d: seq<nat>, l: seq<nat>)
    requires DepthsOf(r, s, d, l)
    ensures |r| == |s| == |d| == |l| >= 2 && d[1] == 0
  {
  }

  lemma DepthsAt(r: seq<nat>, s: seq<nat>, d: seq<nat>, l: seq<nat>, t: nat)
    requires DepthsOf(r, s, d, l)
    ensures |r| == |s| == |d| == |l| >= 2 && d[1] == 0
    ensures 1 <= t < |r| ==> forall i :: r[t - 1] <= i < r[t] && i < |d| ==> d[i] == d[t] + 1
    ensures 1 <= t < |r| ==> forall j :: s[t - 1] <= j < s[t] && j < |l| ==> l[j] == d[t] + 1
  {
  }

  lemma RootCosts(f: seq<nat>, w: seq<nat>, d: seq<nat>, l: seq<nat>)
    requires |f| == |w| == |d| == |l| >= 2 && d[1] == 0
    ensures Dot(Parts(f, w, 1, 2, 0, 0), Parts(l, d, 1, 2, 0, 0)) == Sum(w[1..1]) == 0
  {
    assert Parts(f, w, 1, 2, 0, 0) == [w[1]] && Parts(l, d, 1, 2, 0, 0) == [0];
    DotOne(w[1], 0);
    MoreTimes(w[1], 0);
    assert w[1..1] == [];
  }

  /** The depths of the leaves are lengths of codes that cost no more than any others that
      fit into the code space. */
  lemma TraceOptimal(f: seq<nat>, w: seq<nat>, r: seq<nat>, s: seq<nat>, d: seq<nat>, l: seq<nat>)
    requires Trace(f, w, r, s) && DepthsOf(r, s, d, l) && |d| == |f|
    ensures |l| == |f| && Lower(f, Dot(f, l))
  {
    hide *;
    var n := |f|;
    TraceSize(f, w, r, s);
    TraceRange(f, w, r, s, n - 1);
    TraceLower(f, w, r, s, n - 1);
    TraceCost(f, w, r, s, d, l, n - 1);
    PartsAll(f, w);
    PartsAll(l, d);
  }

  lemma PartsAll(f: seq<nat>, w: seq<nat>)
    requires |f| == |w|
    ensures Parts(f, w, |f|, |f|, 0, |f|) == f
  {
  }
}
