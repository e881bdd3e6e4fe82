/** The compressor's move-to-front stage: it works in the memory of the sorted column
    and leaves the symbols there. */
module MtfEncoder {
  import opened Common
  import opened MoveToFront

  type uint16 = w: int | 0 <= w < 0x1_0000

  /** The bytes in use, in ascending order. */
  function Used(inuse: seq<bool>): (l: seq<byte>)
    requires |inuse| <= 256
    ensures |l| <= |inuse|
    ensures forall r :: 0 <= r < |l| ==> l[r] < |inuse| && inuse[l[r]]
    ensures forall c :: 0 <= c < |inuse| && inuse[c] ==> c in l
  {
    if inuse == [] then []
    else
      var n := |inuse| - 1;
      Used(inuse[..n]) + if inuse[n] then [n] else []
  }

  lemma {:induction false} UsedRank(inuse: seq<bool>, c: nat)
    requires |inuse| <= 256 && c < |inuse| && inuse[c]
    ensures |Used(inuse[..c])| < |Used(inuse)| && Used(inuse)[|Used(inuse[..c])|] == c
    decreases |inuse|
  {
    var n := |inuse| - 1;
    if c < n {
      UsedRank(inuse[..n], c);
      assert inuse[..n][..c] == inuse[..c];
    }
  }

  /** `cmap` numbers the bytes in use. */
  ghost predicate Ranks(cmap: seq<byte>, used: seq<byte>) {
    && |cmap| == 256
    && forall r :: 0 <= r < |used| ==> cmap[used[r]] == r
  }

  /** How many bytes below `c` are in use. */
  function Rank(inuse: seq<bool>, c: nat): (r: nat)
    requires c <= |inuse| <= 256
    ensures r <= c
  {
    |Used(inuse[..c])|
  }

  lemma RankNext(inuse: seq<bool>, c: nat)
    requires c < |inuse| <= 256
    ensures Rank(inuse, c + 1) == Rank(inuse, c) + if inuse[c] then 1 else 0
  {
    assert inuse[..c + 1][..c] == inuse[..c];
  }

  method MakeMap(cmap: array<byte>, inuse: array<bool>) returns (j: nat)
    requires cmap.Length == 256 == inuse.Length
    modifies cmap
    ensures j == |Used(inuse[..])|
    ensures Ranks(cmap[..], Used(inuse[..]))
  {
    ghost var marks := inuse[..];
    assert marks[..0] == [] && marks[..256] == marks;
    j := 0;
    for i := 0 to 256
      invariant j == Rank(marks, i)
      invariant forall c {:trigger cmap[c]} :: 0 <= c < i ==> cmap[c] == Rank(marks, c)
    {
      RankNext(marks, i);
      hide Rank;
      cmap[i] := j;
      j := j + if inuse[i] then 1 else 0;
    }
    UsedRanked(cmap[..], marks);
  }

  lemma UsedRanked(cmap: seq<byte>, inuse: seq<bool>)
    requires |cmap| == |inuse| == 256
    requires forall c :: 0 <= c < 256 ==> cmap[c] == Rank(inuse, c)
    ensures Ranks(cmap, Used(inuse))
  {
    var used := Used(inuse);
    forall r | 0 <= r < |used| ensures cmap[used[r]] == r {
      UsedRank(inuse, used[r]);
      UsedDistinct(inuse, r, Rank(inuse, used[r]));
    }
  }

  lemma {:induction false} UsedDistinct(inuse: seq<bool>, r: nat, q: nat)
    requires |inuse| <= 256 && r < |Used(inuse)| && q < |Used(inuse)|
    requires Used(inuse)[r] == Used(inuse)[q]
    ensures r == q
    decreases |inuse|
  {
    var n := |inuse| - 1;
    var front := Used(inuse[..n]);
    if r < |front| && q < |front| {
      UsedDistinct(inuse[..n], r, q);
    }
  }

  /** Moves rank `c`, which stands at position `k` of the list behind the front `u`, to
      the front.  Two registers take turns in carrying an element one place down. */
  method Rotate(order: array<byte>, u0: byte, c: byte, ghost k: nat) returns (u: byte, t: nat)
    requires order.Length == 255 && k < 255 && order[k] == c
    requires forall j :: 0 <= j < k ==> order[j] != c
    modifies order
    ensures u == c && t == k + 2
    ensures order[..] == [u0] + old(order[..k]) + old(order[k + 1..])
  {
    ghost var was := order[..];
    u := u0;
    var p: nat := 0;
    var carried := order[0];
    order[0] := u;
    while true
      invariant p <= k && carried == was[p]
      invariant forall j {:trigger order[j]} :: 0 <= j < 255 ==> order[j] == if j == 0 then u0 else if j <= p then was[j - 1] else was[j]
      decreases k - p
    {
      if c == carried {
        u := carried;
        break;
      }
      p := p + 1;
      u := order[p];
      order[p] := carried;
      if c == u { break; }
      p := p + 1;
      carried := order[p];
      order[p] := u;
    }
    t := p + 2;
    assert order[..] == [u0] + was[..k] + was[k + 1..];
  }

  /** The cells of the column entries from `i` on still hold the column. */
  ghost predicate Unread(mem: seq<uint16>, col: seq<byte>, i: int) {
    && 2 * |col| <= |mem|
    && forall j :: 0 <= j && i <= j < |col| ==> Entry(mem, j) == col[j]
  }

  /** Entry `j` of the column: 32 bits, spread over two cells. */
  function Entry(mem: seq<uint16>, j: nat): int
    requires 2 * j + 1 < |mem|
  {
    var low: int, high: int := mem[2 * j], mem[2 * j + 1];
    low + 0x1_0000 * high
  }

  /** The encoder's list of ranks, `u` and then `order`, stands for the list `l` of
      characters. */
  ghost predicate Listing(u: byte, order: seq<byte>, cmap: seq<byte>, l: seq<byte>) {
    && |order| == 255 && |cmap| == 256 && 0 < |l| <= 256
    && (forall r :: 0 <= r < |l| ==> cmap[l[r]] == RankAt(u, order, r))
    && (forall q, r :: 0 <= q < r < 256 ==> RankAt(u, order, q) != RankAt(u, order, r))
  }

  function RankAt(u: byte, order: seq<byte>, r: nat): byte
    requires r <= |order|
  {
    if r == 0 then u else order[r - 1]
  }

  ghost predicate Counted(freq: seq<nat>, symbols: seq<nat>) {
    forall x :: 0 <= x < |freq| ==> freq[x] == multiset(symbols)[x]
  }

  ghost function Written(mem: seq<uint16>, w: nat): (s: seq<nat>)
    requires w <= |mem|
    ensures |s| == w
  {
    mem[..w]
  }

  /** Writes a symbol and counts it. */
  method PutSymbol(mem: array<uint16>, freq: array<nat>, w: nat, s: uint16)
    requires w < mem.Length && s < freq.Length && Counted(freq[..], Written(mem[..], w))
    modifies mem, freq
    ensures Written(mem[..], w + 1) == old(Written(mem[..], w)) + [s]
    ensures forall j {:trigger mem[j]} :: w < j < mem.Length ==> mem[j] == old(mem[j])
    ensures Counted(freq[..], Written(mem[..], w + 1))
  {
    ghost var before := Written(mem[..], w);
    mem[w] := s;
    freq[s] := freq[s] + 1;
    assert Written(mem[..], w + 1) == before + [s];
  }

  /** Writes the digits of a run of length `k0` and counts them. */
  method PutRun(mem: array<uint16>, freq: array<nat>, w0: nat, k0: nat) returns (w: nat)
    requires w0 + |RunDigits(k0)| <= mem.Length && freq.Length >= 2
    requires Counted(freq[..], Written(mem[..], w0))
    modifies mem, freq
    ensures w == w0 + |RunDigits(k0)|
    ensures Written(mem[..], w) == old(Written(mem[..], w0)) + RunDigits(k0)
    ensures forall j {:trigger mem[j]} :: w <= j < mem.Length ==> mem[j] == old(mem[j])
    ensures Counted(freq[..], Written(mem[..], w))
  {
    w := w0;
    var k := k0;
    ghost var goal := Written(mem[..], w0) + RunDigits(k0);
    while k != 0
      invariant w + |RunDigits(k)| == w0 + |RunDigits(k0)|
      invariant Written(mem[..], w) + RunDigits(k) == goal
      invariant forall j {:trigger mem[j]} :: w <= j < mem.Length ==> mem[j] == old(mem[j])
      invariant Counted(freq[..], Written(mem[..], w))
    {
      ghost var before := Written(mem[..], w);
      k := k - 1;
      assert RunDigits(k + 1) == [k % 2] + RunDigits(k / 2);
      assert before + RunDigits(k + 1) == before + [k % 2] + RunDigits(k / 2);
      PutSymbol(mem, freq, w, k % 2);
      w := w + 1;
      k := k / 2;
    }
    assert RunDigits(0) == [];
  }

  lemma ListingSame(u: byte, order: seq<byte>, cmap: seq<byte>, l: seq<byte>, c: byte)
    requires Listing(u, order, cmap, l) && c in l
    ensures cmap[c] == u <==> c == l[0]
  {
    assert cmap[l[0]] == RankAt(u, order, 0);
    var r := Find(l, c);
    assert cmap[c] == RankAt(u, order, r);
  }

  /** Where the rank of `c` stands in `order`. */
  lemma ListingFind(u: byte, order: seq<byte>, cmap: seq<byte>, l: seq<byte>, c: byte)
    requires Listing(u, order, cmap, l) && c in l && c != l[0]
    ensures var k := Find(l, c);
      && 0 < k <= 255 && order[k - 1] == cmap[c]
      && forall j :: 0 <= j < k - 1 ==> order[j] != cmap[c]
  {
    var k := Find(l, c);
    assert cmap[l[k]] == RankAt(u, order, k);
    forall j | 0 <= j < k - 1 ensures order[j] != cmap[c] {
      assert RankAt(u, order, j + 1) != RankAt(u, order, k);
    }
  }

  lemma ListingRotate(u: byte, order: seq<byte>, cmap: seq<byte>, l: seq<byte>, k: nat, order': seq<byte>)
    requires Listing(u, order, cmap, l) && 0 < k < |l|
    requires order' == [u] + order[..k - 1] + order[k..]
    ensures Listing(order[k - 1], order', cmap, ToFront(l, k))
  {
    var m, u' := ToFront(l, k), order[k - 1];
    forall r | 0 <= r < 256
      ensures RankAt(u', order', r) == RankAt(u, order, if r == 0 then k else if r <= k then r - 1 else r)
    {
    }
    forall r | 0 <= r < |m| ensures cmap[m[r]] == RankAt(u', order', r) {
      assert m[r] == l[if r == 0 then k else if r <= k then r - 1 else r];
    }
  }

  /** Output that ends before the next entry leaves the unread column intact. */
  lemma UnreadKept(mem: seq<uint16>, mem': seq<uint16>, col: seq<byte>, i: nat, w: nat)
    requires Unread(mem, col, i - 1) && |mem'| == |mem| && w <= 2 * i
    requires forall j {:trigger mem'[j]} :: w <= j < |mem| ==> mem'[j] == mem[j]
    ensures Unread(mem', col, i)
  {
  }

  /** Ends the run of length `k` and writes the position of rank `c`, which moves to
      the front. */
  method PutMoved(mem: array<uint16>, freq: array<nat>, order: array<byte>, u0: byte, c: byte, w0: nat, k: nat,
                  ghost cmap: seq<byte>, ghost l: seq<byte>, ghost x: byte)
    returns (u: byte, w: nat)
    requires order.Length == 255 && Listing(u0, order[..], cmap, l) && x in l && x != l[0] && cmap[x] == c
    requires w0 + |RunDigits(k)| < mem.Length && freq.Length == |l| + 2
    requires Counted(freq[..], Written(mem[..], w0))
    modifies mem, freq, order
    ensures w == w0 + |RunDigits(k)| + 1
    ensures Written(mem[..], w) == old(Written(mem[..], w0)) + RunDigits(k) + [Find(l, x) + 1]
    ensures forall j {:trigger mem[j]} :: w <= j < mem.Length ==> mem[j] == old(mem[j])
    ensures Counted(freq[..], Written(mem[..], w))
    ensures Listing(u, order[..], cmap, ToFront(l, Find(l, x)))
  {
    ghost var at := Find(l, x);
    ListingFind(u0, order[..], cmap, l, x);
    ListingRotate(u0, order[..], cmap, l, at, [u0] + order[..at - 1] + order[at..]);
    hide Listing, Counted, Written;
    w := PutRun(mem, freq, w0, k);
    var t;
    u, t := Rotate(order, u0, c, at - 1);
    PutSymbol(mem, freq, w, t);
    w := w + 1;
  }

  /** Clears the counters and sets up the list of ranks. */
  method StartList(freq: array<nat>, cmap: array<byte>, ghost used: seq<byte>) returns (order: array<byte>)
    requires 0 < |used| <= 256 && Ranks(cmap[..], used)
    modifies freq
    ensures fresh(order) && order.Length == 255 && Listing(0, order[..], cmap[..], used)
    ensures Counted(freq[..], [])
  {
    for i := 0 to freq.Length
      invariant forall x :: 0 <= x < i ==> freq[x] == 0
    {
      freq[i] := 0;
    }
    order := new byte[255](i requires 0 <= i < 255 => i + 1);
  }

  /** The invariant of the coding loop, before entry `i`. */
  ghost predicate Coding(mem: seq<uint16>, freq: seq<nat>, order: seq<byte>, cmap: seq<byte>, u: byte, k: nat, w: nat,
                         l: seq<byte>, col: seq<byte>, i: nat, goal: seq<nat>) {
    && i <= |col| && w + k <= i && 2 * |col| < |mem|
    && Unread(mem, col, i) && Covers(l, col[i..])
    && Listing(u, order, cmap, l) && |freq| == |l| + 2
    && goal == Written(mem, w) + Symbols(l, k, col[i..])
    && Counted(freq, Written(mem, w))
  }

  /** Another repetition of the front of the list. */
  lemma CodingSame(mem: seq<uint16>, freq: seq<nat>, order: seq<byte>, cmap: seq<byte>, u: byte, k: nat, w: nat,
                   l: seq<byte>, col: seq<byte>, i: nat, goal: seq<nat>)
    requires Coding(mem, freq, order, cmap, u, k, w, l, col, i, goal) && i < |col| && col[i] == l[0]
    ensures Coding(mem, freq, order, cmap, u, k + 1, w, l, col, i + 1, goal)
  {
    var rest := col[i..];
    assert rest[0] == col[i] && rest[1..] == col[i + 1..];
    CoversNext(l, rest, 0);
    SymbolsFirst(l, k, rest);
  }

  lemma GoalMoved(out: seq<nat>, l: seq<byte>, k: nat, rest: seq<byte>, at: nat, goal: seq<nat>)
    requires l != [] && rest != [] && rest[0] in l && rest[0] != l[0] && at == Find(l, rest[0])
    requires goal == out + Symbols(l, k, rest)
    ensures goal == out + RunDigits(k) + [at + 1] + Symbols(ToFront(l, at), 0, rest[1..])
  {
    SymbolsFirst(l, k, rest);
    Associate(out, RunDigits(k), [at + 1], Symbols(ToFront(l, at), 0, rest[1..]));
  }

  /** Another character of the list has been coded and moved to the front. */
  lemma CodingMoved(mem: seq<uint16>, freq: seq<nat>, order: seq<byte>, cmap: seq<byte>, u: byte, k: nat, w: nat,
                    l: seq<byte>, col: seq<byte>, i: nat, goal: seq<nat>, at: nat, w': nat,
                    mem': seq<uint16>, freq': seq<nat>, order': seq<byte>, u': byte, l': seq<byte>)
    requires Coding(mem, freq, order, cmap, u, k, w, l, col, i, goal)
    requires i < |col| && col[i] != l[0] && col[i] in l && at == Find(l, col[i]) && l' == ToFront(l, at)
    requires |mem'| == |mem| && |freq'| == |freq|
    requires w' == w + |RunDigits(k)| + 1 <= |mem|
    requires Written(mem', w') == Written(mem, w) + RunDigits(k) + [at + 1]
    requires forall j {:trigger mem'[j]} :: w' <= j < |mem| ==> mem'[j] == mem[j]
    requires Counted(freq', Written(mem', w')) && Listing(u', order', cmap, l')
    ensures Coding(mem', freq', order', cmap, u', 0, w', l', col, i + 1, goal)
  {
    var rest := col[i..];
    assert rest[0] == col[i] && rest[1..] == col[i + 1..];
    UnreadNext(mem, col, i);
    UnreadKept(mem, mem', col, i + 1, w');
    CoversNext(l, rest, at);
    GoalMoved(Written(mem, w), l, k, rest, at, goal);
    hide Unread, Listing, Covers, Symbols, Counted, Written, RunDigits, Find, ToFront;
  }

  lemma CodingLooks(mem: seq<uint16>, freq: seq<nat>, order: seq<byte>, cmap: seq<byte>, u: byte, k: nat, w: nat,
                    l: seq<byte>, col: seq<byte>, i: nat, goal: seq<nat>)
    requires Coding(mem, freq, order, cmap, u, k, w, l, col, i, goal) && i < |col|
    ensures |cmap| == 256 && 2 * i + 1 < |mem| && Entry(mem, i) == col[i] && col[i] in l
    ensures cmap[col[i]] == u <==> col[i] == l[0]
  {
    CoversFirst(l, col[i..]);
    ListingSame(u, order, cmap, l, col[i]);
    UnreadNext(mem, col, i);
  }

  /** One turn of the coding loop. */
  method CodeEntry(mem: array<uint16>, freq: array<nat>, order: array<byte>, cmap: array<byte>,
                   i: nat, u0: byte, k0: nat, w0: nat, ghost l0: seq<byte>, ghost col: seq<byte>, ghost goal: seq<nat>)
    returns (u: byte, k: nat, w: nat, ghost l: seq<byte>)
    requires order != cmap && order.Length == 255 && i < |col|
    requires Coding(mem[..], freq[..], order[..], cmap[..], u0, k0, w0, l0, col, i, goal)
    modifies mem, freq, order
    ensures Coding(mem[..], freq[..], order[..], cmap[..], u, k, w, l, col, i + 1, goal)
    ensures |l| == |l0|
  {
    CodingLooks(mem[..], freq[..], order[..], cmap[..], u0, k0, w0, l0, col, i, goal);
    hide Unread, Listing, Covers, Symbols, Counted, Written, RunDigits, Find, Entry;
    var c := cmap[Entry(mem[..], i)];
    if c == u0 {
      CodingSame(mem[..], freq[..], order[..], cmap[..], u0, k0, w0, l0, col, i, goal);
      u, k, w, l := u0, k0 + 1, w0, l0;
    } else {
      ghost var mem0, freq0, order0 := mem[..], freq[..], order[..];
      u, w := PutMoved(mem, freq, order, u0, c, w0, k0, cmap[..], l0, col[i]);
      ghost var at := Find(l0, col[i]);
      k, l := 0, ToFront(l0, at);
      CodingMoved(mem0, freq0, order0, cmap[..], u0, k0, w0, l0, col, i, goal, at, w,
                  mem[..], freq[..], order[..], u, l);
    }
  }

  /** Codes the column that `mem` holds, one 32-bit entry a character, into 16-bit
      symbols that grow from the start of the same memory. */
  method DoMtf(mem: array<uint16>, freq: array<nat>, cmap: array<byte>, nblock: nat, eob: uint16,
               ghost col: seq<byte>, ghost used: seq<byte>)
    returns (nmtf: nat)
    requires nblock == |col| && 2 * nblock + 1 <= mem.Length
    requires Unread(mem[..], col, 0) && Covers(used, col)
    requires 0 < |used| <= 256 && Ranks(cmap[..], used)
    requires eob == |used| + 1 && freq.Length == eob + 1
    modifies mem, freq
    ensures nmtf <= nblock + 1
    ensures Written(mem[..], nmtf) == Symbols(used, 0, col)
    ensures Counted(freq[..], Written(mem[..], nmtf))
  {
    var order := StartList(freq, cmap, used);
    var u: byte, k: nat, w: nat := 0, 0, 0;
    ghost var l := used;
    ghost var goal := Symbols(used, 0, col);
    assert col[0..] == col && Written(mem[..], 0) == [];
    assert goal == Written(mem[..], 0) + Symbols(l, k, col[0..]);
    for i := 0 to nblock
      invariant |l| == |used| && order.Length == 255 && Coding(mem[..], freq[..], order[..], cmap[..], u, k, w, l, col, i, goal)
    {
      hide *;
      u, k, w, l := CodeEntry(mem, freq, order, cmap, i, u, k, w, l, col, goal);
    }
    nmtf := FinishCoding(mem, freq, w, k, eob, l, col, goal);
  }

  /** Ends the last run and the block. */
  method FinishCoding(mem: array<uint16>, freq: array<nat>, w0: nat, k: nat, eob: uint16,
                      ghost l: seq<byte>, ghost col: seq<byte>, ghost goal: seq<nat>)
    returns (w: nat)
    requires l != [] && eob == |l| + 1 && freq.Length == |l| + 2
    requires w0 + k <= |col| && 2 * |col| < mem.Length
    requires goal == Written(mem[..], w0) + Symbols(l, k, [])
    requires Counted(freq[..], Written(mem[..], w0))
    modifies mem, freq
    ensures w <= |col| + 1 && Written(mem[..], w) == goal
    ensures Counted(freq[..], Written(mem[..], w))
  {
    SymbolsLast(l, k);
    Associate(Written(mem[..], w0), RunDigits(k), [eob], []);
    hide Symbols, Counted, Written;
    w := PutRun(mem, freq, w0, k);
    PutSymbol(mem, freq, w, eob);
    w := w + 1;
  }

  lemma UnreadNext(mem: seq<uint16>, col: seq<byte>, i: nat)
    requires Unread(mem, col, i) && i < |col|
    ensures 2 * i + 1 < |mem| && Entry(mem, i) == col[i] && Unread(mem, col, i + 1)
  {
  }

  lemma SymbolsFirst(l: seq<byte>, k: nat, chars: seq<byte>)
    requires l != [] && chars != [] && chars[0] in l
    ensures chars[0] == l[0] ==> Symbols(l, k, chars) == Symbols(l, k + 1, chars[1..])
    ensures chars[0] != l[0] ==> var i := Find(l, chars[0]);
      Symbols(l, k, chars) == RunDigits(k) + [i + 1] + Symbols(ToFront(l, i), 0, chars[1..])
  {
  }

  lemma SymbolsLast(l: seq<byte>, k: nat)
    requires l != []
    ensures Symbols(l, k, []) == RunDigits(k) + [|l| + 1]
  {
  }
}
