/** Insertion sort of a small alphabet by descending weight. */
module AlphabetSort {
  import opened Common

  ghost predicate Falls(s: seq<uint64>) {
    forall i, j {:trigger s[i], s[j]} :: 0 <= i < j < |s| ==> s[i] >= s[j]
  }

  lemma SwapBag<T>(s: seq<T>, i: nat, j: nat)
    requires i < j < |s|
    ensures multiset(s[i := s[j]][j := s[i]]) == multiset(s)
  {
  }

  /** Sorts `a[first..last]`. */
  method SortAlphabet(a: array<uint64>, first: nat, last: nat)
    requires first < last <= a.Length
    modifies a
    ensures Falls(a[..][first..last]) && multiset(a[..][first..last]) == multiset(old(a[..][first..last]))
    ensures a[..][..first] == old(a[..][..first]) && a[..][last..] == old(a[..][last..])
  {
    ghost var s := a[..][first..last];
    for i := first + 1 to last
      invariant Falls(a[..][first..i]) && multiset(a[..][first..last]) == multiset(s)
      invariant a[..][..first] == old(a[..][..first]) && a[..][last..] == old(a[..][last..])
    {
      Insert(a, first, i, last);
    }
  }

  /** All but position `k` fall, and what precedes it would not fall below `t`. */
  ghost predicate Hole(s: seq<uint64>, n: nat, k: nat, t: uint64)
    requires k <= n < |s|
  {
    && (forall i, j {:trigger s[i], s[j]} :: 0 <= i < j <= n && i != k && j != k ==> s[i] >= s[j])
    && forall j {:trigger s[j]} :: k < j <= n ==> s[j] < t
  }

  lemma Shift(s: seq<uint64>, n: nat, k: nat, t: uint64)
    requires 0 < k <= n < |s| && Hole(s, n, k, t) && s[k - 1] < t
    ensures Hole(s[k := s[k - 1]], n, k - 1, t)
    ensures multiset(s[k := s[k - 1]][k - 1 := t]) == multiset(s[k := t])
  {
    SwapBag(s[k := t], k - 1, k);
    assert s[k := t][k - 1 := t][k := s[k - 1]] == s[k := s[k - 1]][k - 1 := t];
  }

  lemma Fill(s: seq<uint64>, n: nat, k: nat, t: uint64)
    requires k <= n < |s| && Hole(s, n, k, t) && (k > 0 ==> s[k - 1] >= t)
    ensures Falls(s[k := t][..n + 1])
  {
    var f := s[k := t][..n + 1];
    forall i, j {:trigger f[i], f[j]} | 0 <= i < j < |f| ensures f[i] >= f[j] {
      if j == k && i < k - 1 { assert s[i] >= s[k - 1]; }
    }
  }

  lemma Opened(s: seq<uint64>, n: nat)
    requires n < |s| && Falls(s[..n])
    ensures Hole(s, n, n, s[n]) && s[n := s[n]] == s
  {
    forall i, j {:trigger s[i], s[j]} | 0 <= i < j <= n && i != n && j != n ensures s[i] >= s[j] {
      assert s[..n][i] == s[i] && s[..n][j] == s[j];
    }
  }

  lemma Slices(s: seq<uint64>, first: nat, last: nat, x: nat, v: uint64)
    requires first <= x < last <= |s|
    ensures s[x := v][first..last] == s[first..last][x - first := v]
    ensures s[x := v][..first] == s[..first] && s[x := v][last..] == s[last..]
  {
  }

  /** In the midst of inserting `t`, whose place is open at `k`. */
  ghost predicate Inserting(s: seq<uint64>, s0: seq<uint64>, first: nat, i: nat, last: nat, k: nat, t: uint64) {
    && |s| == |s0| && first <= k <= i < last <= |s|
    && Hole(s[first..last], i - first, k - first, t)
    && multiset(s[first..last][k - first := t]) == multiset(s0[first..last])
    && s[..first] == s0[..first] && s[last..] == s0[last..]
  }

  lemma InsertStart(s: seq<uint64>, first: nat, i: nat, last: nat)
    requires first < i < last <= |s| && Falls(s[first..i])
    ensures Inserting(s, s, first, i, last, i, s[i])
  {
    assert s[first..last][..i - first] == s[first..i];
    Opened(s[first..last], i - first);
  }

  lemma InsertShift(s: seq<uint64>, s0: seq<uint64>, first: nat, i: nat, last: nat, k: nat, t: uint64)
    requires Inserting(s, s0, first, i, last, k, t) && first < k && s[k - 1] < t
    ensures Inserting(s[k := s[k - 1]], s0, first, i, last, k - 1, t)
  {
    hide Hole;
    Shift(s[first..last], i - first, k - first, t);
    Slices(s, first, last, k, s[k - 1]);
  }

  lemma InsertEnd(s: seq<uint64>, s0: seq<uint64>, first: nat, i: nat, last: nat, k: nat, t: uint64)
    requires Inserting(s, s0, first, i, last, k, t) && (first < k ==> s[k - 1] >= t)
    ensures Inserted(s[k := t], s0, first, i, last)
  {
    hide Hole, Falls;
    Fill(s[first..last], i - first, k - first, t);
    Slices(s, first, last, k, t);
    assert s[k := t][first..i + 1] == s[first..last][k - first := t][..i - first + 1];
  }

  ghost predicate Inserted(s: seq<uint64>, s0: seq<uint64>, first: nat, i: nat, last: nat) {
    && |s| == |s0| && first <= i < last <= |s|
    && Falls(s[first..i + 1]) && multiset(s[first..last]) == multiset(s0[first..last])
    && s[..first] == s0[..first] && s[last..] == s0[last..]
  }

  method Insert(a: array<uint64>, first: nat, i: nat, ghost last: nat)
    requires first < i < last <= a.Length && Falls(a[..][first..i])
    modifies a
    ensures Inserted(a[..], old(a[..]), first, i, last)
  {
    hide *;
    ghost var s0 := a[..];
    InsertStart(s0, first, i, last);
    var b1 := i;
    var t := a[b1];
    var b := b1 - 1;
    while a[b] < t
      invariant first <= b == b1 - 1 < i
      invariant Inserting(a[..], s0, first, i, last, b1, t)
      decreases b
    {
      ghost var s := a[..];
      InsertShift(s, s0, first, i, last, b1, t);
      a[b1] := a[b];
      assert a[..] == s[b1 := s[b1 - 1]];
      b1 := b;
      if b1 == first { break; }
      b := b - 1;
    }
    ghost var s := a[..];
    InsertEnd(s, s0, first, i, last, b1, t);
    a[b1] := t;
    assert a[..] == s[b1 := t];
  }
}
