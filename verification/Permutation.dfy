/** Finite counting arguments: injections on an initial segment of the naturals. */
module Permutation {

  ghost predicate Injective(s: seq<int>) {
    forall i, j :: 0 <= i < j < |s| ==> s[i] != s[j]
  }

  ghost predicate Below(s: seq<int>, n: int) {
    forall i :: 0 <= i < |s| ==> 0 <= s[i] < n
  }

  /** `s` lists every number below its length exactly once. */
  ghost predicate IsPermutation(s: seq<int>) {
    Below(s, |s|) && Injective(s)
  }

  ghost function UpTo(n: nat): (r: set<int>)
    ensures forall i :: i in r <==> 0 <= i < n
    ensures |r| == n
  {
    if n == 0 then {} else UpTo(n - 1) + {n - 1}
  }

  lemma {:induction false} ImageSize(s: seq<int>)
    requires Injective(s)
    ensures |set x | x in s| == |s|
  {
    if s != [] {
      var last := s[|s| - 1];
      var front := s[..|s| - 1];
      ImageSize(front);
      assert s == front + [last];
      assert last !in front;
      assert (set x | x in s) == (set x | x in front) + {last};
    }
  }

  /** The pigeonhole principle. */
  lemma Pigeonhole(s: seq<int>, n: nat)
    requires Injective(s) && Below(s, n)
    ensures |s| <= n
  {
    ImageSize(s);
    var image := set x | x in s;
    assert image <= UpTo(n);
    SubsetSize(image, UpTo(n));
  }

  lemma {:induction false} SubsetSize<T>(a: set<T>, b: set<T>)
    requires a <= b
    ensures |a| <= |b|
    ensures |a| == |b| ==> a == b
  {
    if a != {} {
      var x :| x in a;
      SubsetSize(a - {x}, b - {x});
    }
  }

  /** An injection of an initial segment into itself hits every number. */
  lemma Surjective(s: seq<int>, y: int) returns (i: nat)
    requires IsPermutation(s) && 0 <= y < |s|
    ensures i < |s| && s[i] == y
  {
    ImageSize(s);
    var image := set x | x in s;
    assert image <= UpTo(|s|);
    SubsetSize(image, UpTo(|s|));
    assert y in image;
    i :| 0 <= i < |s| && s[i] == y;
  }

  /** The inverse of a permutation. */
  ghost function Inverse(s: seq<int>): (r: seq<int>)
    requires IsPermutation(s)
    ensures IsPermutation(r) && |r| == |s|
    ensures forall y :: 0 <= y < |s| ==> s[r[y]] == y
    ensures forall i :: 0 <= i < |s| ==> r[s[i]] == i
  {
    var r := seq(|s|, (y: int) requires 0 <= y < |s| => InverseAt(s, y));
    r
  }

  ghost function InverseAt(s: seq<int>, y: int): (i: nat)
    requires IsPermutation(s) && 0 <= y < |s|
    ensures i < |s| && s[i] == y
  {
    assert exists i: nat :: i < |s| && s[i] == y by {
      var i := Surjective(s, y);
    }
    var i: nat :| i < |s| && s[i] == y;
    i
  }
}
