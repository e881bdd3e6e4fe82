/** Stable counting sort of the positions of a byte string. */
module CountingSort {
  import opened Common
  import opened Permutation
  import opened Bwt

  /** Occurrences of `c` in `s`. */
  function Count(s: seq<byte>, c: int): (n: nat)
    ensures n <= |s|
  {
    if s == [] then 0
    else Count(s[..|s| - 1], c) + if s[|s| - 1] == c then 1 else 0
  }

  /** Occurrences of characters smaller than `c` in `s`. */
  function CountBelow(s: seq<byte>, c: int): (n: nat)
    ensures n <= |s|
  {
    if s == [] then 0
    else CountBelow(s[..|s| - 1], c) + if s[|s| - 1] < c then 1 else 0
  }

  lemma {:induction false} CountBelowStep(s: seq<byte>, c: int)
    ensures CountBelow(s, c + 1) == CountBelow(s, c) + Count(s, c)
  {
    if s != [] { CountBelowStep(s[..|s| - 1], c); }
  }

  lemma {:induction false} CountBelowEnds(s: seq<byte>)
    ensures CountBelow(s, 0) == 0 && CountBelow(s, 256) == |s|
  {
    if s != [] { CountBelowEnds(s[..|s| - 1]); }
  }

  lemma {:induction false} CountBelowMonotone(s: seq<byte>, c: int, d: int)
    requires c <= d
    ensures CountBelow(s, c) <= CountBelow(s, d)
  {
    if s != [] { CountBelowMonotone(s[..|s| - 1], c, d); }
  }

  lemma {:induction false} CountPrefix(s: seq<byte>, x: nat, y: nat, c: int)
    requires x <= y <= |s|
    ensures Count(s[..x], c) <= Count(s[..y], c)
    ensures x < y && s[x] == c ==> Count(s[..x], c) < Count(s[..y], c)
    decreases y
  {
    if x < y {
      assert s[..y][..y - 1] == s[..y - 1];
      CountPrefix(s, x, y - 1, c);
    }
  }

  /** The place position `x` takes in the stable order. */
  function Place(s: seq<byte>, x: nat): nat
    requires x < |s|
  {
    CountBelow(s, s[x]) + Count(s[..x], s[x])
  }

  lemma CountStrict(s: seq<byte>, x: nat)
    requires x < |s|
    ensures Count(s[..x], s[x]) < Count(s, s[x])
  {
    CountPrefix(s, x, |s|, s[x]);
    assert s[..|s|] == s;
  }

  lemma PlaceBounds(s: seq<byte>, x: nat, c: int)
    requires x < |s| && c == s[x]
    ensures CountBelow(s, c) <= Place(s, x) < CountBelow(s, c + 1) <= |s|
  {
    CountBelowStep(s, c);
    CountStrict(s, x);
  }

  lemma PlaceMonotone(s: seq<byte>, x: nat, y: nat)
    requires x < |s| && y < |s|
    requires s[x] < s[y] || (s[x] == s[y] && x < y)
    ensures Place(s, x) < Place(s, y)
  {
    PlaceBounds(s, x, s[x]);
    PlaceBounds(s, y, s[y]);
    if s[x] < s[y] {
      var c: int := s[x];
      CountBelowMonotone(s, c + 1, s[y]);
    } else {
      CountPrefix(s, x, y, s[x]);
    }
  }

  ghost function Places(s: seq<byte>): (r: seq<int>)
    ensures |r| == |s| && IsPermutation(r)
    ensures forall x :: 0 <= x < |s| ==> r[x] == Place(s, x)
  {
    var r := seq(|s|, (x: int) requires 0 <= x < |s| => Place(s, x));
    assert Below(r, |s|) by {
      forall x | 0 <= x < |s| ensures r[x] < |s| { PlaceBounds(s, x, s[x]); }
    }
    assert Injective(r) by {
      forall x, y | 0 <= x < y < |s| ensures r[x] != r[y] {
        if s[y] < s[x] { PlaceMonotone(s, y, x); } else { PlaceMonotone(s, x, y); }
      }
    }
    r
  }

  /** The links of the inverse transform: `Links(s)[j]` is the position that
      comes `j`-th in the stable order. */
  ghost function Links(s: seq<byte>): (next: seq<int>)
    ensures |next| == |s| && IsPermutation(next)
    ensures forall x :: 0 <= x < |s| ==> Place(s, x) < |s| && next[Place(s, x)] == x
    ensures forall j :: 0 <= j < |s| ==> Place(s, next[j]) == j
  {
    var next := Inverse(Places(s));
    assert forall x :: 0 <= x < |s| ==> Places(s)[x] == Place(s, x) && next[Places(s)[x]] == x;
    next
  }

  lemma LinksSort(s: seq<byte>)
    ensures SortingLinks(s, Links(s))
  {
    var next := Links(s);
    forall i, j | 0 <= i < j < |s|
      ensures s[next[i]] < s[next[j]] || (s[next[i]] == s[next[j]] && next[i] < next[j])
    {
      assert next[i] != next[j];
      if s[next[j]] < s[next[i]] || (s[next[i]] == s[next[j]] && next[j] < next[i]) {
        PlaceMonotone(s, next[j], next[i]);
      }
    }
  }

  /** The block a last column and a primary index stand for. */
  ghost function Unsorted(col: seq<byte>, idx: int): (t: seq<byte>)
    requires 0 <= idx < |col|
    ensures |t| == |col|
  {
    Walk(col, Links(col), Links(col)[idx], |col|)
  }

  /** Undoing the transform recovers the block. */
  lemma UnsortedIsInverse(t: seq<byte>, col: seq<byte>, idx: int)
    requires IsBwt(t, col, idx)
    ensures 0 <= idx < |col| && Unsorted(col, idx) == t
  {
    LinksSort(col);
    InverseBwt(t, col, idx, Links(col));
  }

  ghost predicate IsInverse(a: seq<int>, b: seq<int>) {
    && |a| == |b|
    && (forall x :: 0 <= x < |a| ==> 0 <= a[x] < |b| && b[a[x]] == x)
    && (forall x :: 0 <= x < |b| ==> 0 <= b[x] < |a| && a[b[x]] == x)
  }

  lemma LinksInvertPlaces(col: seq<byte>)
    ensures IsInverse(Places(col), Links(col))
  {
    var place, next := Places(col), Links(col);
    forall x | 0 <= x < |col| ensures next[place[x]] == x {
      assert place[x] == Place(col, x);
    }
    forall j | 0 <= j < |col| ensures place[next[j]] == j {
      assert place[next[j]] == Place(col, next[j]);
    }
  }

  lemma CountNext(col: seq<byte>, i: nat)
    requires i < |col|
    ensures forall c :: 0 <= c < 256 ==>
      Count(col[..i + 1], c) == Count(col[..i], c) + if col[i] == c then 1 else 0
  {
    assert col[..i + 1][..i] == col[..i];
  }
}
