/** The packed linked list the decoder walks: a node holds a character in its low
    eight bits and the index of the next node above them. */
module NodeList {
  import opened Common
  import opened Permutation
  import opened Bwt

  /** `n` nodes can be followed from pointer `p`. */
  predicate Linked(tt: seq<uint32>, p: uint32, n: nat)
    decreases n
  {
    n == 0 || (p / 0x100 < |tt| && Linked(tt, tt[p / 0x100], n - 1))
  }

  /** The characters of those nodes. */
  function Listed(tt: seq<uint32>, p: uint32, n: nat): (r: seq<byte>)
    requires Linked(tt, p, n)
    ensures |r| == n
    decreases n
  {
    if n == 0 then []
    else [tt[p / 0x100] % 0x100] + Listed(tt, tt[p / 0x100], n - 1)
  }

  function Characters(tt: seq<uint32>): (col: seq<byte>)
    ensures |col| == |tt|
  {
    seq(|tt|, (i: int) requires 0 <= i < |tt| => tt[i] % 0x100)
  }

  function Pointers(tt: seq<uint32>): (next: seq<int>)
    ensures |next| == |tt|
  {
    seq(|tt|, (i: int) requires 0 <= i < |tt| => tt[i] / 0x100)
  }

  /** Walking the packed list is walking its links. */
  lemma {:induction false} ListedIsWalk(tt: seq<uint32>, p: uint32, n: nat)
    requires Below(Pointers(tt), |tt|) && p / 0x100 < |tt|
    ensures Linked(tt, p, n)
    ensures Listed(tt, p, n) == Walk(Characters(tt), Pointers(tt), p / 0x100, n)
    decreases n
  {
    if n > 0 {
      assert Pointers(tt)[p / 0x100] == tt[p / 0x100] / 0x100;
      ListedIsWalk(tt, tt[p / 0x100], n - 1);
    }
  }

  /** A list whose nodes follow each other in memory reads the rest of the array. */
  lemma {:induction false} ListedInOrder(tt: seq<uint32>, p: uint32)
    requires p / 0x100 <= |tt|
    requires forall i :: 0 <= i < |tt| ==> tt[i] / 0x100 == i + 1
    ensures Linked(tt, p, |tt| - p / 0x100)
    ensures Listed(tt, p, |tt| - p / 0x100) == Characters(tt)[p / 0x100..]
    decreases |tt| - p / 0x100
  {
    if p / 0x100 < |tt| {
      ListedInOrder(tt, tt[p / 0x100]);
    }
  }

  /** Following one link. */
  lemma ListedFetch(tt: seq<uint32>, p: uint32, n: nat)
    requires Linked(tt, p, n)
    ensures n == 0 ==> Listed(tt, p, n) == []
    ensures n > 0 ==> p / 0x100 < |tt| && Linked(tt, tt[p / 0x100], n - 1)
    ensures n > 0 ==> Listed(tt, p, n) != [] && Listed(tt, p, n)[0] == tt[p / 0x100] % 0x100
    ensures n > 0 ==> Listed(tt, p, n)[1..] == Listed(tt, tt[p / 0x100], n - 1)
  {
  }
}
