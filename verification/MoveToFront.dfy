/** Move-to-front coding of a sorted column with run-length coded zeros, and its
    inverse in the simple form of a list and a counter. */
module MoveToFront {
  import opened Common
  import opened Powers

  function ToFront(l: seq<byte>, i: nat): (r: seq<byte>)
    requires i < |l|
    ensures |r| == |l| && r[0] == l[i]
    ensures forall j :: 0 < j <= i ==> r[j] == l[j - 1]
    ensures forall j :: i < j < |l| ==> r[j] == l[j]
  {
    [l[i]] + l[..i] + l[i + 1..]
  }

  /** The position of `c` in a list that holds it. */
  function Find(l: seq<byte>, c: byte): (i: nat)
    requires c in l
    ensures i < |l| && l[i] == c && c !in l[..i]
  {
    if l[0] == c then 0 else
      assert forall x :: x in l ==> x == l[0] || x in l[1..];
      var i := 1 + Find(l[1..], c);
      assert l[..i] == [l[0]] + l[1..][..i - 1];
      i
  }

  lemma ToFrontKeeps(l: seq<byte>, i: nat, c: byte)
    requires i < |l|
    ensures c in l <==> c in ToFront(l, i)
  {
    assert l == l[..i] + [l[i]] + l[i + 1..];
  }

  /** The bijective base-two digits of a run, least significant first: 0 for one,
      1 for two. */
  function RunDigits(k: nat): (d: seq<nat>)
    ensures forall i :: 0 <= i < |d| ==> d[i] <= 1
    ensures |d| <= k
    decreases k
  {
    if k == 0 then [] else [(k - 1) % 2] + RunDigits((k - 1) / 2)
  }

  ghost predicate Covers(l: seq<byte>, chars: seq<byte>) {
    forall i :: 0 <= i < |chars| ==> chars[i] in l
  }

  lemma CoversNext(l: seq<byte>, chars: seq<byte>, i: nat)
    requires Covers(l, chars) && chars != [] && i < |l|
    ensures Covers(ToFront(l, i), chars[1..]) && Covers(l, chars[1..])
  {
    forall j | 0 <= j < |chars[1..]| ensures chars[1..][j] in ToFront(l, i) && chars[1..][j] in l {
      assert chars[j + 1] in l;
      ToFrontKeeps(l, i, chars[j + 1]);
    }
  }

  /** The symbols for `chars` after `run` repetitions of the front of `l`: run digits,
      list positions shifted up by one, and the end-of-block symbol `|l| + 1`.
      (Nothing follows a character that is not in the list.) */
  function Symbols(l: seq<byte>, run: nat, chars: seq<byte>): (s: seq<nat>)
    requires l != []
    ensures |s| <= run + |chars| + 1
    decreases |chars|
  {
    if chars == [] then RunDigits(run) + [|l| + 1]
    else if chars[0] == l[0] then Symbols(l, run + 1, chars[1..])
    else if chars[0] !in l then []
    else
      var i := Find(l, chars[0]);
      RunDigits(run) + [i + 1] + Symbols(ToFront(l, i), 0, chars[1..])
  }

  /** What the simple decoder has read: either the block, or it hit a symbol that the
      list has no position for, or the symbols ran out. */
  datatype Unmtf = Block(chars: seq<byte>) | Bad

  /** The simple decoder: list `l`, pending run of its front, weight of the next digit. */
  function Unsymbols(l: seq<byte>, run: nat, shift: nat, symbols: seq<nat>): Unmtf
    requires l != []
    decreases |symbols|
  {
    if symbols == [] then Bad
    else
      var s := symbols[0];
      if s <= 1 then Unsymbols(l, run + (s + 1) * Pow2(shift), shift + 1, symbols[1..])
      else if s == |l| + 1 then Block(Repeat(l[0], run))
      else if s > |l| + 1 then Bad
      else
        match Unsymbols(ToFront(l, s - 1), 1, 0, symbols[1..])
        case Block(rest) => Block(Repeat(l[0], run) + rest)
        case Bad => Bad
  }

  /** A run of `run` to which `k` are added in units of `2^shift`. */
  function AtWeight(run: nat, shift: nat, k: nat): nat {
    run + k * Pow2(shift)
  }

  lemma NoDigits(run: nat, shift: nat, rest: seq<nat>)
    ensures AtWeight(run, shift, 0) == run && RunDigits(0) == [] && [] + rest == rest
  {
  }

  /** Reading the first digit of `k`. */
  lemma FirstDigit(l: seq<byte>, run: nat, shift: nat, k: nat, rest: seq<nat>) returns (run': nat, k': nat)
    requires l != [] && k > 0
    ensures k' < k && AtWeight(run', shift + 1, k') == AtWeight(run, shift, k)
    ensures Unsymbols(l, run, shift, RunDigits(k) + rest) == Unsymbols(l, run', shift + 1, RunDigits(k') + rest)
    ensures |RunDigits(k)| == 1 + |RunDigits(k')|
  {
    run', k' := run + ((k - 1) % 2 + 1) * Pow2(shift), (k - 1) / 2;
    DigitWeight(run, shift, k);
    assert (RunDigits(k) + rest)[1..] == RunDigits(k') + rest;
    hide Pow2;
  }

  lemma DigitWeight(run: nat, shift: nat, k: nat)
    requires k > 0
    ensures run + ((k - 1) % 2 + 1) * Pow2(shift) + (k - 1) / 2 * Pow2(shift + 1) == run + k * Pow2(shift)
  {
    var d, q, w := (k - 1) % 2, (k - 1) / 2, Pow2(shift);
    assert k == d + 1 + 2 * q;
    assert q * (2 * w) == 2 * q * w;
    assert (d + 1) * w + 2 * q * w == (d + 1 + 2 * q) * w;
  }

  /** Reading the digits of `k` adds `k`, at the weight reached. */
  lemma {:induction false} DigitsAdd(l: seq<byte>, run: nat, shift: nat, k: nat, rest: seq<nat>, total: nat)
    requires l != [] && total == AtWeight(run, shift, k)
    ensures Unsymbols(l, run, shift, RunDigits(k) + rest) == Unsymbols(l, total, shift + |RunDigits(k)|, rest)
    decreases k
  {
    hide *;
    if k == 0 {
      NoDigits(run, shift, rest);
    } else {
      var run', k' := FirstDigit(l, run, shift, k, rest);
      DigitsAdd(l, run', shift + 1, k', rest, total);
    }
  }

  /** Digits of a run followed by another symbol: the run is known, whatever weight
      the next digit would have had. */
  lemma DigitsThen(l: seq<byte>, base: nat, run: nat, tail: seq<nat>)
    requires l != [] && tail != [] && tail[0] > 1
    ensures Unsymbols(l, base, 0, RunDigits(run) + tail) == Unsymbols(l, base + run, 0, tail)
  {
    DigitsAdd(l, base, 0, run, tail, base + run);
  }

  /** Decoding the symbols of a block, with `base` characters of the current run
      already counted by the decoder, returns the block. */
  lemma {:induction false} SymbolsInverse(l: seq<byte>, base: nat, run: nat, chars: seq<byte>)
    requires l != [] && Covers(l, chars)
    ensures Unsymbols(l, base, 0, Symbols(l, run, chars)) == Block(Repeat(l[0], base + run) + chars)
    decreases |chars|
  {
    hide Unsymbols, Covers, Symbols;
    if chars == [] {
      SymbolsEnd(l, base, run);
    } else if chars[0] == l[0] {
      CoversNext(l, chars, 0);
      SymbolsInverse(l, base, run + 1, chars[1..]);
      SymbolsSame(l, base, run, chars);
    } else {
      CoversFirst(l, chars);
      var i := Find(l, chars[0]);
      CoversNext(l, chars, i);
      SymbolsInverse(ToFront(l, i), 1, 0, chars[1..]);
      SymbolsOther(l, base, run, chars);
    }
  }

  lemma SymbolsSame(l: seq<byte>, base: nat, run: nat, chars: seq<byte>)
    requires l != [] && chars != [] && chars[0] == l[0]
    ensures Symbols(l, run, chars) == Symbols(l, run + 1, chars[1..])
    ensures Repeat(l[0], base + (run + 1)) + chars[1..] == Repeat(l[0], base + run) + chars
  {
    RepeatSplit(l[0], base + run, 1);
  }

  lemma SymbolsOther(l: seq<byte>, base: nat, run: nat, chars: seq<byte>)
    requires l != [] && chars != [] && chars[0] != l[0] && chars[0] in l
    requires var m := ToFront(l, Find(l, chars[0]));
      Unsymbols(m, 1, 0, Symbols(m, 0, chars[1..])) == Block(Repeat(m[0], 1) + chars[1..])
    ensures Unsymbols(l, base, 0, Symbols(l, run, chars)) == Block(Repeat(l[0], base + run) + chars)
  {
    var i := Find(l, chars[0]);
    var m := ToFront(l, i);
    assert Repeat(m[0], 1) + chars[1..] == chars;
    SymbolsMove(l, base, run, i, Symbols(m, 0, chars[1..]), chars);
  }

  lemma CoversFirst(l: seq<byte>, chars: seq<byte>)
    requires Covers(l, chars) && chars != []
    ensures chars[0] in l
  {
  }

  lemma SymbolsEnd(l: seq<byte>, base: nat, run: nat)
    requires l != []
    ensures Unsymbols(l, base, 0, Symbols(l, run, [])) == Block(Repeat(l[0], base + run) + [])
  {
    DigitsThen(l, base, run, [|l| + 1]);
    assert Repeat(l[0], base + run) + [] == Repeat(l[0], base + run);
  }

  lemma SymbolsMove(l: seq<byte>, base: nat, run: nat, i: nat, rest: seq<nat>, chars: seq<byte>)
    requires 0 < i < |l| && Unsymbols(ToFront(l, i), 1, 0, rest) == Block(chars)
    ensures Unsymbols(l, base, 0, RunDigits(run) + [i + 1] + rest) == Block(Repeat(l[0], base + run) + chars)
  {
    var tail := [i + 1] + rest;
    assert tail[1..] == rest;
    assert RunDigits(run) + [i + 1] + rest == RunDigits(run) + tail;
    DigitsThen(l, base, run, tail);
  }
}
