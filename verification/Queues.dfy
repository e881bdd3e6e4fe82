/** The queues of the scheduler: a priority queue in a binary heap, and a deque in a ring. */
module Queues {
  import opened Positions

  // ----- heaps -----

  function Parent(i: nat): nat
    requires i > 0
  {
    (i - 1) / 2
  }

  function Left(i: nat): nat {
    2 * i + 1
  }

  /** Element `i` does not come before its parent. */
  ghost predicate Over<T>(s: seq<T>, key: T -> Position, i: nat)
    requires i < |s|
  {
    i == 0 || LessEq(key(s[Parent(i)]), key(s[i]))
  }

  ghost predicate IsHeap<T>(s: seq<T>, key: T -> Position) {
    forall i: nat {:trigger Over(s, key, i)} :: i < |s| ==> Over(s, key, i)
  }

  /** Element `j` may come before its parent; all else is a heap, with or without it. */
  ghost predicate RisesAt<T>(s: seq<T>, key: T -> Position, j: nat) {
    && j < |s|
    && (forall i: nat {:trigger Over(s, key, i)} :: i < |s| && i != j ==> Over(s, key, i))
    && forall i: nat {:trigger s[i]} :: 0 < i < |s| && Parent(i) == j && j > 0 ==> LessEq(key(s[Parent(j)]), key(s[i]))
  }

  /** Element `j` may come after its children; all else is a heap, with or without it. */
  ghost predicate SinksAt<T>(s: seq<T>, key: T -> Position, j: nat) {
    && j < |s|
    && (forall i: nat {:trigger Over(s, key, i)} :: i < |s| && (i == 0 || Parent(i) != j) ==> Over(s, key, i))
    && forall i: nat {:trigger s[i]} :: 0 < i < |s| && Parent(i) == j && j > 0 ==> LessEq(key(s[Parent(j)]), key(s[i]))
  }

  /** The head of a heap is a least element. */
  lemma {:induction false} HeapTop<T>(s: seq<T>, key: T -> Position, i: nat)
    requires IsHeap(s, key) && i < |s|
    ensures LessEq(key(s[0]), key(s[i]))
    decreases i
  {
    if i > 0 {
      HeapTop(s, key, Parent(i));
      assert Over(s, key, i);
    }
  }

  /** The element with its parent pulled down. */
  lemma Rise<T>(s: seq<T>, key: T -> Position, j: nat)
    requires RisesAt(s, key, j) && j > 0 && !LessEq(key(s[Parent(j)]), key(s[j]))
    ensures RisesAt(s[j := s[Parent(j)]][Parent(j) := s[j]], key, Parent(j))
    ensures multiset(s[j := s[Parent(j)]][Parent(j) := s[j]]) == multiset(s)
  {
    var p := Parent(j);
    var t := s[j := s[p]][p := s[j]];
    assert Over(s, key, p) || p == j;
    forall i: nat {:trigger Over(t, key, i)} | i < |t| && i != p ensures Over(t, key, i) {
      if i != j && i > 0 { assert Over(s, key, i); }
    }
    forall i: nat {:trigger t[i]} | 0 < i < |t| && Parent(i) == p && p > 0 ensures LessEq(key(t[Parent(p)]), key(t[i])) {
      assert i == j || Over(s, key, i);
    }
  }

  lemma Risen<T>(s: seq<T>, key: T -> Position, j: nat)
    requires RisesAt(s, key, j) && (j == 0 || LessEq(key(s[Parent(j)]), key(s[j])))
    ensures IsHeap(s, key)
  {
  }

  /** Element `c` is a lesser child of element `j`. */
  ghost predicate IsLesserChild<T>(s: seq<T>, key: T -> Position, j: nat, c: nat) {
    && j < c < |s| && Parent(c) == j
    && forall i: nat {:trigger s[i]} :: 0 < i < |s| && Parent(i) == j ==> LessEq(key(s[c]), key(s[i]))
  }

  /** The place of `el` moves from `j` to its lesser child. */
  lemma Sink<T>(s: seq<T>, key: T -> Position, j: nat, el: T, c: nat)
    requires IsLesserChild(s, key, j, c) && SinksAt(s[j := el], key, j) && !LessEq(key(el), key(s[c]))
    ensures var t := s[j := s[c]][c := el];
      SinksAt(t, key, c) && multiset(t) == multiset(s[j := el])
  {
    var r, t := s[j := el], s[j := s[c]][c := el];
    assert r[c] == s[c];
    forall i: nat {:trigger Over(t, key, i)} | i < |t| && (i == 0 || Parent(i) != c) ensures Over(t, key, i) {
      assert i > 0 && Parent(i) == j ==> s[i] == s[i];
      assert i == 0 || Parent(i) == j || Over(r, key, i);
    }
    forall i: nat {:trigger t[i]} | 0 < i < |t| && Parent(i) == c && c > 0 ensures LessEq(key(t[Parent(c)]), key(t[i])) {
      assert Over(r, key, i);
    }
  }

  /** `el` stays at `j`: it does not come after its children. */
  lemma Sunk<T>(s: seq<T>, key: T -> Position, j: nat, el: T, c: nat)
    requires IsLesserChild(s, key, j, c) && SinksAt(s[j := el], key, j) && LessEq(key(el), key(s[c]))
    ensures IsHeap(s[j := el], key)
  {
    var r := s[j := el];
    forall i: nat {:trigger Over(r, key, i)} | i < |r| ensures Over(r, key, i) {
      if i > 0 && Parent(i) == j { assert r[i] == s[i]; }
    }
  }

  /** An element without children stays. */
  lemma SunkLow<T>(s: seq<T>, key: T -> Position, j: nat)
    requires SinksAt(s, key, j) && Left(j) >= |s|
    ensures IsHeap(s, key)
  {
    forall i: nat {:trigger Over(s, key, i)} | i < |s| ensures Over(s, key, i) {
      if i > 0 { Children(i); }
    }
  }

  lemma Children(i: nat)
    requires i > 0
    ensures i == Left(Parent(i)) || i == Left(Parent(i)) + 1
  {
  }

  /** The last element takes the place of the head. */
  lemma HeadRemoved<T>(s: seq<T>, key: T -> Position)
    requires IsHeap(s, key) && |s| > 1
    ensures var n := |s| - 1; var t := s[..n][0 := s[n]];
      multiset(t) + multiset{s[0]} == multiset(s) && SinksAt(t, key, 0)
  {
    var n := |s| - 1;
    var t := s[..n][0 := s[n]];
    assert s == s[..n] + [s[n]];
    forall i: nat {:trigger Over(t, key, i)} | i < |t| && (i == 0 || Parent(i) != 0) ensures Over(t, key, i) {
      assert Over(s, key, i);
    }
  }

  /** A queue of elements that are ordered by the positions they start with. */
  class PriorityQueue<T(0)> {
    const root: array<T>
    const key: T -> Position
    var size: nat

    ghost predicate Valid()
      reads this, root
    {
      size <= root.Length && IsHeap(root[..size], key)
    }

    ghost function Contents(): multiset<T>
      reads this, root
      requires size <= root.Length
    {
      multiset(root[..size])
    }

    constructor (capacity: nat, default: T, key: T -> Position)
      ensures Valid() && Contents() == multiset{} && root.Length == capacity && this.key == key && fresh(root)
    {
      this.key := key;
      root := new T[capacity](_ => default);
      size := 0;
    }

    method UpHeap(n: nat)
      requires n < root.Length && RisesAt(root[..n + 1], key, n)
      modifies root
      ensures IsHeap(root[..n + 1], key) && multiset(root[..n + 1]) == old(multiset(root[..n + 1]))
    {
      hide IsHeap, RisesAt, Less;
      var j := n;
      var el := root[j];
      ghost var s := root[..n + 1];
      assert s[j := el] == s;
      while j > 0 && Less(key(el), key(root[Parent(j)]))
        invariant j <= n && root[..n + 1][j := el] == s && RisesAt(s, key, j)
        invariant multiset(s) == old(multiset(root[..n + 1]))
        decreases j
      {
        var p := Parent(j);
        assert s[p] == root[p];
        Rise(s, key, j);
        root[j] := root[p];
        s := s[j := s[p]][p := s[j]];
        assert root[..n + 1][p := el] == s;
        j := p;
      }
      Risen(s, key, j);
      root[j] := el;
      assert root[..n + 1] == s;
    }

    method LesserChild(j: nat, n: nat) returns (child: nat)
      requires Left(j) < n <= root.Length
      ensures IsLesserChild(root[..n], key, j, child)
    {
      child := Left(j);
      forall i: nat {:trigger root[i]} | 0 < i < n && Parent(i) == j ensures i == Left(j) || i == Left(j) + 1 { Children(i); }
      if child + 1 < n && Less(key(root[child + 1]), key(root[child])) {
        child := child + 1;
      }
    }

    /** Pulls up the lesser child of element `j`, unless `el` can stay there. */
    method SinkOnce(j: nat, n: nat, el: T) returns (j': nat, stays: bool)
      requires Left(j) < n <= root.Length && SinksAt(root[..n][j := el], key, j)
      modifies root
      ensures forall k: nat {:trigger root[k]} :: n <= k < root.Length ==> root[k] == old(root[k])
      ensures j' < n && multiset(root[..n][j' := el]) == old(multiset(root[..n][j := el]))
      ensures if stays then j' == j && IsHeap(root[..n][j' := el], key) else j < j' && SinksAt(root[..n][j' := el], key, j')
    {
      hide IsHeap, SinksAt, LessEq, Less;
      var child := LesserChild(j, n);
      ghost var s := root[..n];
      if LessEq(key(el), key(root[child])) {
        Sunk(s, key, j, el, child);
        return j, true;
      }
      Sink(s, key, j, el, child);
      root[j] := root[child];
      assert root[..n] == s[j := s[child]];
      return child, false;
    }

    /** Puts `el` where it belongs below the head. */
    method SinkDown(n: nat, el: T)
      requires 0 < n <= root.Length && SinksAt(root[..n][0 := el], key, 0)
      modifies root
      ensures forall k: nat {:trigger root[k]} :: n <= k < root.Length ==> root[k] == old(root[k])
      ensures IsHeap(root[..n], key) && multiset(root[..n]) == old(multiset(root[..n][0 := el]))
    {
      hide IsHeap, SinksAt;
      var j, stays := 0, false;
      while Left(j) < n && !stays
        invariant forall k: nat {:trigger root[k]} :: n <= k < root.Length ==> root[k] == old(root[k])
        invariant j < n && (if stays then IsHeap(root[..n][j := el], key) else SinksAt(root[..n][j := el], key, j))
        invariant multiset(root[..n][j := el]) == old(multiset(root[..n][0 := el]))
        decreases n - j, !stays
      {
        j, stays := SinkOnce(j, n, el);
      }
      ghost var s := root[..n][j := el];
      if !stays { SunkLow(s, key, j); }
      root[j] := el;
      assert root[..n] == s;
    }

    method DownHeap(n: nat)
      requires n < root.Length && IsHeap(root[..n + 1], key)
      modifies root
      ensures IsHeap(root[..n], key) && root[n] == old(root[0])
      ensures multiset(root[..n]) + multiset{root[n]} == old(multiset(root[..n + 1]))
    {
      if n == 0 {
        assert root[..1] == [root[0]];
        return;
      }
      ghost var s := root[..n + 1];
      HeadRemoved(s, key);
      hide IsHeap, SinksAt;
      var el := root[n];
      root[n] := root[0];
      assert root[..n] == s[..n];
      SinkDown(n, el);
    }

    method Enqueue(e: T)
      requires Valid() && size < root.Length
      modifies this`size, root
      ensures Valid() && size == old(size) + 1 && Contents() == old(Contents()) + multiset{e}
    {
      ghost var s := root[..size];
      root[size] := e;
      assert root[..size + 1] == s + [e];
      Appended(s, key, e);
      UpHeap(size);
      size := size + 1;
    }

    /** Takes out a least element. */
    method Dequeue() returns (e: T)
      requires Valid() && size > 0
      modifies this`size, root
      ensures Valid() && size == old(size) - 1 && Contents() + multiset{e} == old(Contents())
      ensures forall x :: x in old(Contents()) ==> LessEq(key(e), key(x))
    {
      ghost var s := root[..size];
      forall x | x in multiset(s) ensures LessEq(key(s[0]), key(x)) {
        var i: nat :| i < |s| && s[i] == x;
        HeapTop(s, key, i);
      }
      size := size - 1;
      DownHeap(size);
      e := root[size];
    }
  }

  lemma Appended<T>(s: seq<T>, key: T -> Position, e: T)
    requires IsHeap(s, key)
    ensures RisesAt(s + [e], key, |s|)
  {
    forall i: nat {:trigger Over(s + [e], key, i)} | i < |s| ensures Over(s + [e], key, i) {
      assert Over(s, key, i);
    }
  }

  // ----- deques -----

  /** What 32-bit arithmetic makes of a number. */
  function Word(x: int): nat {
    x % 0x1_0000_0000
  }

  function Min(a: nat, b: nat): nat {
    if a < b then a else b
  }

  /** The cell of a ring of `m` cells that is meant by `x`. */
  function Ring(x: int, m: nat): (i: nat)
    requires 0 < m && -1 <= x < 2 * m
    ensures i < m
  {
    if x < 0 then x + m else if x < m then x else x - m
  }

  /** Of an index and the same index one round off, the one in range is the lesser: the
      other one is not in range, or it has wrapped around. */
  lemma IndexInRing(x: int, m: nat)
    requires 0 < m <= 0x8000_0000 && -1 <= x < 2 * m
    ensures x >= 0 ==> Min(Word(x), Word(x - m)) == Ring(x, m)
    ensures x < m ==> Min(Word(x), Word(x + m)) == Ring(x, m)
  {
  }

  /** A ring of cells: the elements begin behind `head`. */
  class Deque<T(0)> {
    const root: array<T>
    const modulus: nat
    var size: nat
    var head: nat

    ghost predicate Valid()
      reads this
    {
      head < modulus == root.Length && size <= modulus <= 0x8000_0000
    }

    ghost function Contents(): (s: seq<T>)
      reads this, root
      requires Valid()
      ensures |s| == size && forall i: nat {:trigger s[i]} :: i < size ==> s[i] == root[Ring(head + i + 1, modulus)]
    {
      seq(size, i requires 0 <= i < size && Valid() reads this, root => root[Ring(head + i + 1, modulus)])
    }

    constructor (n: nat, default: T)
      requires 0 < n <= 0x8000_0000
      ensures Valid() && Contents() == [] && modulus == n && fresh(root)
    {
      root := new T[n](_ => default);
      modulus, head, size := n, 0, 0;
    }

    method Get(i: nat) returns (e: T)
      requires Valid() && i < size
      ensures e == Contents()[i]
    {
      IndexInRing(head + i + 1, modulus);
      e := root[Min(Word(head + i + 1), Word(head + i + 1 - modulus))];
    }

    method Set(i: nat, e: T)
      requires Valid() && i < size
      modifies root
      ensures Valid() && Contents() == old(Contents())[i := e]
    {
      IndexInRing(head + i + 1, modulus);
      root[Min(Word(head + i + 1), Word(head + i + 1 - modulus))] := e;
    }

    method Shift() returns (e: T)
      requires Valid() && size > 0
      modifies this`size, this`head
      ensures Valid() && [e] + Contents() == old(Contents())
    {
      IndexInRing(head + 1, modulus);
      size := size - 1;
      head := Min(Word(head + 1), Word(head + 1 - modulus));
      e := root[head];
    }

    method Unshift(e: T)
      requires Valid() && size < modulus
      modifies this`size, this`head, root
      ensures Valid() && Contents() == [e] + old(Contents())
    {
      IndexInRing(head - 1, modulus);
      size := size + 1;
      root[head] := e;
      head := Min(Word(head - 1), Word(head - 1 + modulus));
    }

    method Push(e: T)
      requires Valid() && size < modulus
      modifies this`size, root
      ensures Valid() && Contents() == old(Contents()) + [e]
    {
      size := size + 1;
      IndexInRing(head + size, modulus);
      root[Min(Word(head + size), Word(head + size - modulus))] := e;
    }

    method Pop() returns (e: T)
      requires Valid() && size > 0
      modifies this`size
      ensures Valid() && Contents() + [e] == old(Contents())
    {
      size := size - 1;
      IndexInRing(head + size + 1, modulus);
      e := root[Min(Word(head + size + 1), Word(head + size + 1 - modulus))];
    }
  }
}
