/** Constants and value types shared by the compressor and the decompressor. */
module Common {

  type byte = b: int | 0 <= b < 0x100
  type uint32 = w: int | 0 <= w < 0x1_0000_0000
  type uint64 = w: int | 0 <= w < 0x1_0000_0000_0000_0000

  const MIN_ALPHA_SIZE := 3
  const MAX_ALPHA_SIZE := 258
  const MIN_TREES := 2
  const MAX_TREES := 6
  const GROUP_SIZE := 50
  const MIN_CODE_LENGTH := 1
  const MAX_CODE_LENGTH := 20
  const MAX_BLOCK_SIZE := 900000

  /** Result codes of the low-level decoder that the model distinguishes. */
  datatype Status =
    | OK
    | MORE
    | FINISH
    | ERR_HEADER
    | ERR_BITMAP
    | ERR_TREES
    | ERR_GROUPS
    | ERR_SELECTOR
    | ERR_DELTA
    | ERR_PREFIX
    | ERR_INCOMPLT
    | ERR_EMPTY
    | ERR_UNTERM
    | ERR_RUNLEN
    | ERR_STRMCRC
    | ERR_OVERFLOW
    | ERR_BWTIDX
    | ERR_EOF

  /** `0xFFFFFFFF`, the value an exhausted 32-bit counter wraps to. */
  const M1: uint32 := 0xFFFF_FFFF

  /** `x` repeated `n` times. */
  function Repeat<T>(x: T, n: nat): (s: seq<T>)
    ensures |s| == n
    ensures forall i :: 0 <= i < n ==> s[i] == x
  {
    if n == 0 then [] else [x] + Repeat(x, n - 1)
  }

  lemma {:induction false} RepeatSplit<T>(x: T, m: nat, n: nat)
    ensures Repeat(x, m + n) == Repeat(x, m) + Repeat(x, n)
  {
    assert Repeat(x, m + n) == Repeat(x, m) + Repeat(x, n);
  }

  lemma Associate<T>(a: seq<T>, b: seq<T>, c: seq<T>, d: seq<T>)
    ensures a + (b + c + d) == a + b + c + d
  {
  }

  lemma Regrouped<T>(a: seq<T>, b: seq<T>, c: seq<T>)
    ensures a + b + c == a + (b + c)
  {
  }

  lemma NothingBefore<T>(a: seq<T>)
    ensures [] + a == a && a + [] == a
  {
  }

  /** What the pieces are pieces of. */
  function Flat<T>(pieces: seq<seq<T>>): seq<T> {
    if pieces == [] then [] else pieces[0] + Flat(pieces[1..])
  }

  lemma {:induction false} FlatLast<T>(pieces: seq<seq<T>>, p: seq<T>)
    ensures Flat(pieces + [p]) == Flat(pieces) + p
    decreases |pieces|
  {
    if pieces == [] {
      assert [] + [p] == [p] && [p][1..] == [];
      NothingBefore(p);
    } else {
      FlatLast(pieces[1..], p);
      assert (pieces + [p])[1..] == pieces[1..] + [p];
      Regrouped(pieces[0], Flat(pieces[1..]), p);
    }
  }

  lemma {:induction false} FlatConcat<T>(a: seq<seq<T>>, b: seq<seq<T>>)
    ensures Flat(a + b) == Flat(a) + Flat(b)
    decreases |a|
  {
    if a == [] {
      assert [] + b == b;
      NothingBefore(Flat(b));
    } else {
      FlatConcat(a[1..], b);
      assert (a + b)[1..] == a[1..] + b;
      Regrouped(a[0], Flat(a[1..]), Flat(b));
    }
  }
}
