/** Huffman trees built in place with two queues, one of leaves and one of nodes, and the
    depths of their nodes. */
module HuffmanTree {
  import opened Common
  import opened Powers
  import opened CodeLengths
  import opened HuffmanTrace

  const MAX_HUFF_CODE_LENGTH := 30

  function Fib(n: nat): nat {
    if n < 2 then n else Fib(n - 1) + Fib(n - 2)
  }

  lemma {:induction false} FibMonotone(a: nat, b: nat)
    requires a <= b
    ensures Fib(a) <= Fib(b)
    decreases b
  {
    if a < b {
      FibMonotone(a, b - 1);
      if b < 2 { assert Fib(b - 1) <= Fib(b); }
    }
  }

  // ----- packed weights -----

  const FREQ := 0x1_0000_0000
  const DEPTH := 0x100_0000
  const LEAVES := 0x1_0000

  function Freq(w: uint64): nat { w / FREQ }

  /** The height of the tree, in one byte of its weight. */
  function Height(w: uint64): nat { w / DEPTH % 0x100 }

  function Label(w: uint64): nat { w % LEAVES }

  /** Weight `w` with all but the frequency and the number of leaves masked out. */
  function Masked(w: uint64): uint64 {
    w / FREQ * FREQ + w / LEAVES % 0x100 * LEAVES
  }

  /** The weight of a node over two others, put where there was `was`: its label stays. */
  function Join(was: uint64, a: uint64, b: uint64): nat {
    Label(was) + Masked((a + b) % 0x1_0000_0000_0000_0000)
    + (if Height(a) < Height(b) then Height(b) else Height(a)) * DEPTH + DEPTH
  }

  lemma JoinFields(was: uint64, a: uint64, b: uint64)
    requires Freq(a) + Freq(b) < 0x8000_0000 && Height(a) < 0x7F && Height(b) < 0x7F
    ensures Join(was, a, b) < 0x1_0000_0000_0000_0000
    ensures Freq(Join(was, a, b)) == Freq(a) + Freq(b)
    ensures Height(Join(was, a, b)) == 1 + if Height(a) < Height(b) then Height(b) else Height(a)
    ensures Label(Join(was, a, b)) == Label(was)
  {
    SumFields(a, b);
    var h := if Height(a) < Height(b) then Height(b) else Height(a);
    JoinParts(was, a, b, (a + b) / FREQ, (a + b) / LEAVES % 0x100, h);
    hide Height, Freq, Label, Join;
    LabelRange(was);
    Fields(Freq(a) + Freq(b), h + 1, (a + b) / LEAVES % 0x100, Label(was));
  }

  lemma JoinParts(was: uint64, a: uint64, b: uint64, f: nat, k: nat, h: nat)
    requires a + b < 0x1_0000_0000_0000_0000 && f == (a + b) / FREQ && k == (a + b) / LEAVES % 0x100
    requires h == if Height(a) < Height(b) then Height(b) else Height(a)
    ensures Join(was, a, b) == Label(was) + (f * FREQ + k * LEAVES) + h * DEPTH + DEPTH
  {
    hide Height, Label;
    assert (a + b) % 0x1_0000_0000_0000_0000 == a + b;
  }

  lemma LabelRange(w: uint64)
    ensures Label(w) < LEAVES
  {
  }

  lemma SumFields(a: uint64, b: uint64)
    requires Freq(a) + Freq(b) < 0x8000_0000 && Height(a) < 0x7F && Height(b) < 0x7F
    ensures (a + b) / FREQ == Freq(a) + Freq(b) && a + b < 0x1_0000_0000_0000_0000
  {
    LowPart(a);
    LowPart(b);
    hide Height;
    Quotient(a + b, FREQ, a / FREQ + b / FREQ, a % FREQ + b % FREQ);
  }

  lemma LowPart(a: uint64)
    requires Height(a) < 0x7F
    ensures a % FREQ < 0x8000_0000
  {
    var q := a / DEPTH;
    assert a == q * DEPTH + a % DEPTH;
    assert q == q / 0x100 * 0x100 + q % 0x100;
    assert a == q / 0x100 * FREQ + (q % 0x100 * DEPTH + a % DEPTH);
  }

  lemma Fields(f: nat, h: nat, k: nat, l: nat)
    requires f < 0x8000_0000 && h < 0x100 && k < 0x100 && l < LEAVES
    ensures var w := l + (f * FREQ + k * LEAVES) + (h - 1) * DEPTH + DEPTH;
      0 <= w < 0x1_0000_0000_0000_0000 && Freq(w) == f && Height(w) == h && Label(w) == l
  {
    var w := l + (f * FREQ + k * LEAVES) + (h - 1) * DEPTH + DEPTH;
    Quotient(w, FREQ, f, h * DEPTH + k * LEAVES + l);
    Quotient(w, DEPTH, f * 0x100 + h, k * LEAVES + l);
    Quotient(f * 0x100 + h, 0x100, f, h);
    Quotient(w, LEAVES, f * 0x1_0000 + h * 0x100 + k, l);
  }

  lemma Quotient(x: nat, d: nat, q: nat, r: nat)
    requires d > 0 && r < d && x == q * d + r
    ensures x / d == q && x % d == r
  {
    QuotientIff(x, d, q);
  }

  // ----- building -----

  /** The sum of the frequencies from `a` up to `b`. */
  function SumFreq(w: seq<uint64>, a: nat, b: nat): nat
    requires b <= |w|
  {
    if a >= b then 0 else SumFreq(w, a, b - 1) + Freq(w[b - 1])
  }

  lemma {:induction false} SumFreqSame(v: seq<uint64>, w: seq<uint64>, a: nat, b: nat)
    requires b <= |v| && b <= |w| && forall i :: a <= i < b ==> v[i] == w[i]
    ensures SumFreq(v, a, b) == SumFreq(w, a, b)
    decreases b
  {
    if a < b { SumFreqSame(v, w, a, b - 1); }
  }

  lemma {:induction false} SumFreqFirst(w: seq<uint64>, a: nat, b: nat)
    requires a < b <= |w|
    ensures SumFreq(w, a, b) == Freq(w[a]) + SumFreq(w, a + 1, b)
    decreases b
  {
    if a + 1 < b { SumFreqFirst(w, a, b - 1); }
  }

  /** Leaves in descending order. */
  ghost predicate LeavesOk(leaves: seq<uint64>) {
    && (forall i :: 0 <= i < |leaves| ==> Freq(leaves[i]) >= 1 && Height(leaves[i]) == 0)
    && forall i, j :: 0 <= i < j < |leaves| ==> Freq(leaves[i]) >= Freq(leaves[j])
  }

  /** Nodes `t + 1` and up were made, of which those below `r` still stand alone, as the
      first `s` leaves do.  `m` is the greatest frequency that was taken. */
  ghost predicate QueuesOk(leaves: seq<uint64>, w: seq<uint64>, t: nat, r: nat, s: nat, m: nat, total: nat) {
    var n := |leaves|;
    && |w| == n && t < n && t + 1 <= r <= n && s <= n && s + (r - 1 - t) == t + 1 && (t + 1 < n ==> r >= t + 2)
    && (forall i :: 0 <= i <= t ==> w[i] == leaves[i])
    && (forall i :: 0 <= i < n ==> Label(w[i]) == Label(leaves[i]))
    && (s > 0 ==> m <= Freq(leaves[s - 1])) && (r > t + 1 ==> m <= Freq(w[r - 1]))
    && SumFreq(w, 0, s) + SumFreq(w, t + 1, r) == total
  }

  /** A node and its children are at least as heavy as Fibonacci numbers. */
  ghost predicate NodesOk(w: seq<uint64>, t: nat, m: nat) {
    && (forall i :: t < i < |w| ==> 1 <= Height(w[i]) && Fib(Height(w[i]) + 2) <= Freq(w[i]) <= 2 * m && Fib(Height(w[i]) + 1) <= m)
    && forall i, j :: t < i < j < |w| ==> Freq(w[i]) >= Freq(w[j])
  }

  /** The parents of the nodes taken, `r` and up. */
  ghost predicate ParentsOk(p: seq<nat>, w: seq<uint64>, t: nat, r: nat)
    requires |p| == |w|
  {
    && (forall i :: r <= i < |p| ==> t < p[i] < i && Height(w[p[i]]) >= Height(w[i]) + 1)
    && (forall i, j :: r <= i < j < |p| ==> p[i] <= p[j])
    && forall i, j :: r <= i && j == i + 2 && j < |p| ==> p[i] < p[j]
  }

  /** Heights are small while the total is. */
  lemma LowHeight(h: nat, f: nat, k: nat)
    requires Fib(h + 2) <= f < Fib(k)
    ensures h + 2 < k
  {
    if h + 2 >= k { FibMonotone(k, h + 2); }
  }

  lemma FibValue()
    ensures Fib(MAX_HUFF_CODE_LENGTH + 1) == 1346269
  {
    assert Fib(10) == 55 && Fib(11) == 89;
    assert Fib(20) == 6765 && Fib(21) == 10946;
    assert Fib(30) == 832040 && Fib(31) == 1346269;
  }

  lemma {:induction false} SumFreqSplit(w: seq<uint64>, a: nat, b: nat, c: nat)
    requires a <= b <= c <= |w|
    ensures SumFreq(w, a, c) == SumFreq(w, a, b) + SumFreq(w, b, c)
    decreases c
  {
    if b < c { SumFreqSplit(w, a, b, c - 1); }
  }

  function Greater(a: nat, b: nat): nat { if a < b then b else a }

  /** Two weights, those of the nodes from `r'` to `r` and the leaves from `s'` to `s`, than
      which no other that stands alone is less. */
  ghost predicate Least(leaves: seq<uint64>, w: seq<uint64>, t: nat, r: nat, s: nat, m: nat, r': nat, s': nat, a: uint64, b: uint64) {
    && |w| == |leaves| && t + 1 <= r' <= r <= |w| && s' <= s <= t + 1 && (r - r') + (s - s') == 2 && t < |w|
    && Freq(a) + Freq(b) == SumFreq(w, s', s) + SumFreq(w, r', r)
    && m <= Freq(a) && m <= Freq(b)
    && (forall i :: r' <= i < r ==> Freq(w[i]) <= Greater(Freq(a), Freq(b)))
    && (forall i :: s' <= i < s ==> Freq(w[i]) <= Greater(Freq(a), Freq(b)))
    && (s' > 0 ==> Greater(Freq(a), Freq(b)) <= Freq(leaves[s' - 1])) && (r' > t + 1 ==> Greater(Freq(a), Freq(b)) <= Freq(w[r' - 1]))
    && (forall i :: r' <= i < r ==> Height(w[i]) <= Greater(Height(a), Height(b)))
    && Fib(Height(a) + 2) <= Freq(a) && Fib(Height(a) + 1) <= m
    && Fib(Height(b) + 2) <= Freq(b) && Fib(Height(b) + 1) <= m
  }

  /** The node over the two least is no lighter than any before it, and as heavy as its
      height demands. */
  lemma JoinGrows(a: uint64, b: uint64, m: nat, x: uint64)
    requires Fib(Height(a) + 2) <= Freq(a) && Fib(Height(a) + 1) <= m <= Freq(a)
    requires Fib(Height(b) + 2) <= Freq(b) && Fib(Height(b) + 1) <= m <= Freq(b)
    requires Freq(x) == Freq(a) + Freq(b) && Height(x) == 1 + Greater(Height(a), Height(b))
    ensures 2 * m <= Freq(x) <= 2 * Greater(Freq(a), Freq(b))
    ensures Fib(Height(x) + 2) <= Freq(x) && Fib(Height(x) + 1) <= Greater(Freq(a), Freq(b))
  {
    hide Height, Freq;
    var h := Greater(Height(a), Height(b));
    assert Fib(h + 3) == Fib(h + 2) + Fib(h + 1);
  }

  function Adopt(p: seq<nat>, r': nat, r: nat, t: nat): (q: seq<nat>)
    requires r' <= r <= |p|
    ensures |q| == |p| && forall i :: 0 <= i < |p| ==> q[i] == if r' <= i < r then t else p[i]
  {
    seq(|p|, (i: int) requires 0 <= i < |p| => if r' <= i < r then t else p[i])
  }

  lemma JoinQueues(leaves: seq<uint64>, w: seq<uint64>, t: nat, r: nat, s: nat, m: nat, total: nat, r': nat, s': nat, a: uint64, b: uint64, x: uint64)
    requires QueuesOk(leaves, w, t, r, s, m, total) && t > 0 && Least(leaves, w, t, r, s, m, r', s', a, b)
    requires Freq(x) == Freq(a) + Freq(b) && Label(x) == Label(w[t])
    ensures QueuesOk(leaves, w[t := x], t - 1, r', s', Greater(Freq(a), Freq(b)), total)
  {
    hide Freq, Label, Height, Fib;
    var v := w[t := x];
    SumFreqSplit(w, 0, s', s);
    SumFreqSplit(w, t + 1, r', r);
    SumFreqSame(v, w, 0, s');
    SumFreqSame(v, w, t + 1, r');
    SumFreqFirst(v, t, r');
  }

  /** A node over two that were not lighter than any before is no lighter than any before. */
  lemma JoinNodes(leaves: seq<uint64>, w: seq<uint64>, t: nat, r: nat, s: nat, m: nat, r': nat, s': nat, a: uint64, b: uint64, x: uint64)
    requires NodesOk(w, t, m) && t > 0 && Least(leaves, w, t, r, s, m, r', s', a, b)
    requires Freq(x) == Freq(a) + Freq(b) && Height(x) == 1 + Greater(Height(a), Height(b))
    ensures NodesOk(w[t := x], t - 1, Greater(Freq(a), Freq(b)))
  {
    LeastGrown(leaves, w, t, r, s, m, r', s', a, b);
    JoinGrows(a, b, m, x);
    NodesMore(w, t, m, x, Greater(Freq(a), Freq(b)));
  }

  lemma LeastGrown(leaves: seq<uint64>, w: seq<uint64>, t: nat, r: nat, s: nat, m: nat, r': nat, s': nat, a: uint64, b: uint64)
    requires Least(leaves, w, t, r, s, m, r', s', a, b)
    ensures Fib(Height(a) + 2) <= Freq(a) && Fib(Height(a) + 1) <= m <= Freq(a)
    ensures Fib(Height(b) + 2) <= Freq(b) && Fib(Height(b) + 1) <= m <= Freq(b) && t < |w|
  {
    hide Freq, Height, Fib, SumFreq;
  }

  lemma NodesMore(w: seq<uint64>, t: nat, m: nat, x: uint64, g: nat)
    requires NodesOk(w, t, m) && 0 < t < |w| && m <= g
    requires 1 <= Height(x) && Fib(Height(x) + 2) <= Freq(x) && Fib(Height(x) + 1) <= g && 2 * m <= Freq(x) <= 2 * g
    ensures NodesOk(w[t := x], t - 1, g)
  {
    hide Freq, Height, Fib;
  }

  lemma JoinParents(leaves: seq<uint64>, w: seq<uint64>, p: seq<nat>, t: nat, r: nat, s: nat, m: nat, r': nat, s': nat, a: uint64, b: uint64, x: uint64)
    requires |p| == |w| && ParentsOk(p, w, t, r) && t > 0 && Least(leaves, w, t, r, s, m, r', s', a, b)
    requires Height(x) == 1 + Greater(Height(a), Height(b))
    ensures ParentsOk(Adopt(p, r', r, t), w[t := x], t - 1, r')
  {
    hide Freq, Height, Fib, SumFreq;
    var v, q := w[t := x], Adopt(p, r', r, t);
    forall i | r' <= i < |q| ensures t - 1 < q[i] < i && Height(v[q[i]]) >= Height(v[i]) + 1 {
      assert v[i] == w[i];
      if i >= r { assert v[p[i]] == w[p[i]]; }
    }
  }

  ghost predicate BuildOk(leaves: seq<uint64>, w: seq<uint64>, p: seq<nat>, t: nat, r: nat, s: nat, m: nat, total: nat) {
    |p| == |w| && QueuesOk(leaves, w, t, r, s, m, total) && NodesOk(w, t, m) && ParentsOk(p, w, t, r)
  }

  lemma JoinBuilds(leaves: seq<uint64>, w: seq<uint64>, p: seq<nat>, t: nat, r: nat, s: nat, m: nat, total: nat, r': nat, s': nat, a: uint64, b: uint64)
    requires BuildOk(leaves, w, p, t, r, s, m, total) && t > 0 && Least(leaves, w, t, r, s, m, r', s', a, b)
    requires total < Fib(MAX_HUFF_CODE_LENGTH + 1)
    ensures Join(w[t], a, b) < 0x1_0000_0000_0000_0000 && m <= Greater(Freq(a), Freq(b))
    ensures BuildOk(leaves, w[t := Join(w[t], a, b)], Adopt(p, r', r, t), t - 1, r', s', Greater(Freq(a), Freq(b)), total)
  {
    hide Freq, Height, Label, Join, Fib;
    FibValue();
    LeastBounds(leaves, w, t, r, s, m, total, r', s', a, b);
    JoinFields(w[t], a, b);
    JoinQueues(leaves, w, t, r, s, m, total, r', s', a, b, Join(w[t], a, b));
    JoinNodes(leaves, w, t, r, s, m, r', s', a, b, Join(w[t], a, b));
    JoinParents(leaves, w, p, t, r, s, m, r', s', a, b, Join(w[t], a, b));
  }

  lemma LeastBounds(leaves: seq<uint64>, w: seq<uint64>, t: nat, r: nat, s: nat, m: nat, total: nat, r': nat, s': nat, a: uint64, b: uint64)
    requires QueuesOk(leaves, w, t, r, s, m, total) && Least(leaves, w, t, r, s, m, r', s', a, b) && total < Fib(MAX_HUFF_CODE_LENGTH + 1)
    ensures Freq(a) + Freq(b) <= total && Height(a) < 0x7F && Height(b) < 0x7F
  {
    hide Freq, Height, Label, Fib;
    SumFreqSplit(w, 0, s', s);
    SumFreqSplit(w, t + 1, r', r);
    LowHeight(Height(a), Freq(a), MAX_HUFF_CODE_LENGTH + 1);
    LowHeight(Height(b), Freq(b), MAX_HUFF_CODE_LENGTH + 1);
  }

  // ----- the run -----

  function Freqs(w: seq<uint64>): (f: seq<nat>)
    ensures |f| == |w| && forall i {:trigger f[i]} :: 0 <= i < |w| ==> f[i] == Freq(w[i])
  {
    seq(|w|, (i: int) requires 0 <= i < |w| => Freq(w[i]))
  }

  lemma {:induction false} SumOfFreqs(w: seq<uint64>, a: nat, b: nat)
    requires a <= b <= |w|
    ensures Sum(Freqs(w)[a..b]) == SumFreq(w, a, b)
    decreases b
  {
    if a < b {
      SumOfFreqs(w, a, b - 1);
      assert Freqs(w)[a..b][..b - 1 - a] == Freqs(w)[a..b - 1];
    }
  }

  /** The run so far: `r` and `s` as they were when node `u + 1` had been made, and whose
      children the nodes are. */
  ghost predicate Traced(f: seq<nat>, w: seq<nat>, p: seq<nat>, r: seq<nat>, s: seq<nat>, t: nat) {
    var n := |f|;
    && |w| == |p| == |r| == |s| == n && t < n && r[n - 1] == n == s[n - 1]
    && (forall u {:trigger r[u]} :: t <= u < n ==> r[t] <= r[u])
    && (forall u {:trigger r[u]} :: t < u < n ==> Merges(f, w, u, r[u - 1], r[u], s[u - 1], s[u], w[u]))
    && forall u, i {:trigger r[u], p[i]} :: t < u < n && r[u - 1] <= i < r[u] && i < n ==> p[i] == u
  }

  /** What `Merges` reads of the frequencies lies above the node. */
  lemma MergesSame(f: seq<nat>, w: seq<nat>, v: seq<nat>, u: nat, r': nat, r: nat, s': nat, s: nat, x: nat)
    requires Merges(f, w, u, r', r, s', s, x) && |v| == |w| && forall i :: u < i < |w| ==> v[i] == w[i]
    ensures Merges(f, v, u, r', r, s', s, x)
  {
    assert Parts(f, v, r', r, s', s) == Parts(f, w, r', r, s', s);
    assert Parts(f, v, u + 1, r', 0, s') == Parts(f, w, u + 1, r', 0, s');
  }

  lemma MergesRange(f: seq<nat>, w: seq<nat>, t: nat, r': nat, r: nat, s': nat, s: nat, x: nat)
    requires Merges(f, w, t, r', r, s', s, x)
    ensures t < r' <= r
  {
  }

  lemma NextMerges(f: seq<nat>, w: seq<nat>, p: seq<nat>, r: seq<nat>, s: seq<nat>, t: nat, r': nat, s': nat, x: nat, u: nat)
    requires Traced(f, w, p, r, s, t) && t > 0 && Merges(f, w, t, r', r[t], s', s[t], x) && t <= u < |f|
    ensures var v, r1, s1 := w[t := x], r[t - 1 := r'], s[t - 1 := s'];
      Merges(f, v, u, r1[u - 1], r1[u], s1[u - 1], s1[u], v[u])
  {
    hide Merges;
    if u == t {
      MergesSame(f, w, w[t := x], t, r', r[t], s', s[t], x);
    } else {
      assert r[u] == r[u];
      MergesSame(f, w, w[t := x], u, r[u - 1], r[u], s[u - 1], s[u], w[u]);
    }
  }

  lemma TracedNext(f: seq<nat>, w: seq<nat>, p: seq<nat>, r: seq<nat>, s: seq<nat>, t: nat, r': nat, s': nat, x: nat)
    requires Traced(f, w, p, r, s, t) && t > 0 && r' <= r[t] <= |p| && Merges(f, w, t, r', r[t], s', s[t], x)
    ensures Traced(f, w[t := x], Adopt(p, r', r[t], t), r[t - 1 := r'], s[t - 1 := s'], t - 1)
  {
    var n, v, q, r1, s1 := |f|, w[t := x], Adopt(p, r', r[t], t), r[t - 1 := r'], s[t - 1 := s'];
    hide Merges, Sum;
    MergesRange(f, w, t, r', r[t], s', s[t], x);
    forall u {:trigger r1[u]} | t - 1 < u < n ensures Merges(f, v, u, r1[u - 1], r1[u], s1[u - 1], s1[u], v[u]) {
      NextMerges(f, w, p, r, s, t, r', s', x, u);
    }
    forall u, i {:trigger r1[u], q[i]} | t - 1 < u < n && r1[u - 1] <= i < r1[u] && i < n ensures q[i] == u {
      if u > t { assert r[u] == r1[u] && r[u - 1] >= r[t]; }
    }
    forall u {:trigger r1[u]} | t - 1 <= u < n ensures r1[t - 1] <= r1[u] {
      if u >= t { assert r[u] >= r[t]; }
    }
  }

  lemma LeastSum(leaves: seq<uint64>, w: seq<uint64>, t: nat, r: nat, s: nat, m: nat, total: nat, r': nat, s': nat, a: uint64, b: uint64)
    requires QueuesOk(leaves, w, t, r, s, m, total) && t > 0 && Least(leaves, w, t, r, s, m, r', s', a, b)
    ensures t < r' <= r <= |w| == |leaves| && s' <= s <= t + 1 && (r - r') + (s - s') == 2
    ensures Freq(a) + Freq(b) == Sum(Parts(Freqs(leaves), Freqs(w), r', r, s', s))
    ensures Freqs(w)[s'..s] == Freqs(leaves)[s'..s]
  {
    hide Freq, Height, Label, Fib, SumFreq, Sum;
    var f, v := Freqs(leaves), Freqs(w);
    assert v[s'..s] == f[s'..s];
    SumConcat(v[r'..r], f[s'..s]);
    SumOfFreqs(w, r', r);
    SumOfFreqs(w, s', s);
  }

  /** Neither of the two is above the greater. */
  lemma LeastParts(leaves: seq<uint64>, w: seq<uint64>, t: nat, r: nat, s: nat, m: nat, r': nat, s': nat, a: uint64, b: uint64, i: nat)
    requires Least(leaves, w, t, r, s, m, r', s', a, b) && i < 2 && |Freqs(w)| == |Freqs(leaves)|
    requires Freqs(w)[s'..s] == Freqs(leaves)[s'..s]
    ensures Parts(Freqs(leaves), Freqs(w), r', r, s', s)[i] <= Greater(Freq(a), Freq(b))
  {
    hide Freq, Height, Fib, SumFreq;
    var f, v := Freqs(leaves), Freqs(w);
    if i >= r - r' { assert v[s'..s][i - (r - r')] == f[s'..s][i - (r - r')]; }
  }

  /** What stays alone is not below it. */
  lemma LeastRest(leaves: seq<uint64>, w: seq<uint64>, t: nat, r: nat, s: nat, m: nat, r': nat, s': nat, a: uint64, b: uint64, k: nat)
    requires LeavesOk(leaves) && NodesOk(w, t, m) && Least(leaves, w, t, r, s, m, r', s', a, b) && k < (r' - t - 1) + s' && s' <= |leaves|
    ensures Greater(Freq(a), Freq(b)) <= Parts(Freqs(leaves), Freqs(w), t + 1, r', 0, s')[k]
  {
    hide Freq, Height, Fib, SumFreq, LeavesOk, NodesOk;
    var c := r' - t - 1;
    if k < c { NodeOrder(w, t, m, t + 1 + k, r' - 1); } else { LeafOrder(leaves, k - c, s' - 1); }
  }

  /** The two chosen are merged. */
  lemma LeastMerges(leaves: seq<uint64>, w: seq<uint64>, t: nat, r: nat, s: nat, m: nat, total: nat, r': nat, s': nat, a: uint64, b: uint64)
    requires LeavesOk(leaves) && QueuesOk(leaves, w, t, r, s, m, total) && NodesOk(w, t, m) && t > 0
    requires Least(leaves, w, t, r, s, m, r', s', a, b)
    ensures Merges(Freqs(leaves), Freqs(w), t, r', r, s', s, Freq(a) + Freq(b))
  {
    hide Freq, Sum, LeavesOk, QueuesOk, NodesOk, Least, Parts, Greater;
    LeastSum(leaves, w, t, r, s, m, total, r', s', a, b);
    var x, y := Parts(Freqs(leaves), Freqs(w), r', r, s', s), Parts(Freqs(leaves), Freqs(w), t + 1, r', 0, s');
    forall i: nat {:trigger x[i]} | i < 2 ensures x[i] <= Greater(Freq(a), Freq(b)) { LeastParts(leaves, w, t, r, s, m, r', s', a, b, i); }
    forall k: nat {:trigger y[k]} | k < (r' - t - 1) + s' ensures Greater(Freq(a), Freq(b)) <= y[k] { LeastRest(leaves, w, t, r, s, m, r', s', a, b, k); }
  }

  lemma NodeOrder(w: seq<uint64>, t: nat, m: nat, i: nat, j: nat)
    requires NodesOk(w, t, m) && t < i <= j < |w|
    ensures Freq(w[i]) >= Freq(w[j])
  {
    hide Freq, Height, Fib;
  }

  lemma LeafOrder(leaves: seq<uint64>, i: nat, j: nat)
    requires LeavesOk(leaves) && i <= j < |leaves|
    ensures Freq(leaves[i]) >= Freq(leaves[j])
  {
    hide Freq, Height;
  }

  /** What `BuildTree` tells of its run. */
  ghost predicate Ran(f: seq<nat>, w: seq<nat>, p: seq<nat>, r: seq<nat>, s: seq<nat>) {
    && Trace(f, w, r, s) && |p| == |f|
    && forall t, i {:trigger r[t], p[i]} :: 1 <= t < |r| && r[t - 1] <= i < r[t] && i < |p| ==> p[i] == t
  }

  lemma TracedAll(f: seq<nat>, w: seq<nat>, p: seq<nat>, r: seq<nat>, s: seq<nat>)
    requires Traced(f, w, p, r, s, 0) && |f| >= 2 && r[0] == 2 && s[0] == 0
    ensures Ran(f, w, p, r, s)
  {
    hide Merges;
  }

  lemma TracedNone(f: seq<nat>, p: seq<nat>)
    requires |f| == |p| >= 1
    ensures Traced(f, f, p, seq(|f|, _ => |f|), seq(|f|, _ => |f|), |f| - 1)
  {
  }

  // ----- the choice -----

  lemma FreqOrder(a: uint64, b: uint64)
    requires a <= b
    ensures Freq(a) <= Freq(b)
  {
  }

  lemma LeafGrown(leaves: seq<uint64>, i: nat, m: nat)
    requires LeavesOk(leaves) && i < |leaves| && m >= 1
    ensures Height(leaves[i]) == 0 && Fib(Height(leaves[i]) + 2) <= Freq(leaves[i]) && Fib(Height(leaves[i]) + 1) <= m
  {
  }

  lemma TwoNodes(leaves: seq<uint64>, w: seq<uint64>, p: seq<nat>, t: nat, r: nat, s: nat, m: nat, total: nat)
    requires BuildOk(leaves, w, p, t, r, s, m, total) && t > 0 && LeavesOk(leaves) && m >= 1
    requires s < 1 || (r > t + 2 && w[r - 2] < w[s - 1])
    ensures r >= t + 3 && Least(leaves, w, t, r, s, m, r - 2, s, w[r - 1], w[r - 2])
  {
    hide Freq, Height, Label, Fib, ParentsOk, LeavesOk;
    assert SumFreq(w, r - 2, r) == Freq(w[r - 2]) + Freq(w[r - 1]) by {
      SumFreqFirst(w, r - 2, r);
      SumFreqFirst(w, r - 1, r);
    }
    if s >= 1 { FreqOrder(w[r - 2], w[s - 1]); }
  }

  lemma TwoLeaves(leaves: seq<uint64>, w: seq<uint64>, p: seq<nat>, t: nat, r: nat, s: nat, m: nat, total: nat)
    requires BuildOk(leaves, w, p, t, r, s, m, total) && t > 0 && LeavesOk(leaves) && m >= 1
    requires r < t + 2 || (s > 1 && w[s - 2] <= w[r - 1])
    ensures s >= 2 && Least(leaves, w, t, r, s, m, r, s - 2, w[s - 1], w[s - 2])
  {
    hide Freq, Height, Label, Fib, ParentsOk, LeavesOk;
    assert SumFreq(w, s - 2, s) == Freq(w[s - 2]) + Freq(w[s - 1]) by {
      SumFreqFirst(w, s - 2, s);
      SumFreqFirst(w, s - 1, s);
    }
    LeafGrown(leaves, s - 1, m);
    LeafGrown(leaves, s - 2, m);
    LeavesFall(leaves, s - 2, s - 1);
    if s > 2 { LeavesFall(leaves, s - 3, s - 2); }
    if r >= t + 2 { FreqOrder(w[s - 2], w[r - 1]); }
  }

  lemma LeavesFall(leaves: seq<uint64>, i: nat, j: nat)
    requires LeavesOk(leaves) && i < j < |leaves|
    ensures Freq(leaves[i]) >= Freq(leaves[j])
  {
  }

  lemma OneFreq(w: seq<uint64>, i: nat)
    requires i < |w|
    ensures SumFreq(w, i, i + 1) == Freq(w[i])
  {
  }

  lemma LeafAndNode(leaves: seq<uint64>, w: seq<uint64>, p: seq<nat>, t: nat, r: nat, s: nat, m: nat, total: nat)
    requires BuildOk(leaves, w, p, t, r, s, m, total) && t > 0 && LeavesOk(leaves) && m >= 1
    requires !(s < 1 || (r > t + 2 && w[r - 2] < w[s - 1])) && !(r < t + 2 || (s > 1 && w[s - 2] <= w[r - 1]))
    ensures Least(leaves, w, t, r, s, m, r - 1, s - 1, w[r - 1], w[s - 1])
  {
    hide Freq, Height, Label, Fib, SumFreq, BuildOk, LeavesOk;
    LeafAlone(leaves, w, p, t, r, s, m, total);
    NodeAlone(leaves, w, p, t, r, s, m, total);
    OneFreq(w, s - 1);
    OneFreq(w, r - 1);
    LeafGrown(leaves, s - 1, m);
    if s > 1 { LeavesFall(leaves, s - 2, s - 1); FreqOrder(w[r - 1], w[s - 2]); }
    if r > t + 2 { FreqOrder(w[s - 1], w[r - 2]); }
  }

  /** What is known of the last leaf that stands alone. */
  lemma LeafAlone(leaves: seq<uint64>, w: seq<uint64>, p: seq<nat>, t: nat, r: nat, s: nat, m: nat, total: nat)
    requires BuildOk(leaves, w, p, t, r, s, m, total)
    ensures |w| == |leaves| > t && t + 1 <= r <= |w| && s + (r - 1 - t) == t + 1
    ensures s > 0 ==> m <= Freq(leaves[s - 1]) && w[s - 1] == leaves[s - 1]
    ensures s > 1 ==> w[s - 2] == leaves[s - 2]
  {
    hide Freq, Height, Label, Fib, SumFreq, ParentsOk, NodesOk;
  }

  /** And of the last node. */
  lemma NodeAlone(leaves: seq<uint64>, w: seq<uint64>, p: seq<nat>, t: nat, r: nat, s: nat, m: nat, total: nat)
    requires BuildOk(leaves, w, p, t, r, s, m, total)
    ensures |w| == |leaves| > t && t + 1 <= r <= |w|
    ensures r > t + 1 ==> m <= Freq(w[r - 1]) && Fib(Height(w[r - 1]) + 2) <= Freq(w[r - 1]) && Fib(Height(w[r - 1]) + 1) <= m
    ensures r > t + 2 ==> Freq(w[r - 2]) >= Freq(w[r - 1])
  {
    hide Freq, Height, Label, Fib, SumFreq, ParentsOk;
  }

  lemma BuildStarts(leaves: seq<uint64>, p: seq<nat>)
    requires LeavesOk(leaves) && |leaves| > 0 && |p| == |leaves|
    ensures BuildOk(leaves, leaves, p, |leaves| - 1, |leaves|, |leaves|, 1, SumFreq(leaves, 0, |leaves|))
  {
    hide Freq, Height, Label, Fib;
    LeafGrown(leaves, |leaves| - 1, 1);
    LeafHeavy(leaves, |leaves| - 1);
  }

  lemma LeafHeavy(leaves: seq<uint64>, i: nat)
    requires LeavesOk(leaves) && i < |leaves|
    ensures Freq(leaves[i]) >= 1
  {
  }

  /** A tree of nodes 1 to `|p| - 1`, node 1 the root, in the order of their depths, each with
      at most two nodes below it. */
  ghost predicate IsTree(p: seq<nat>) {
    && (forall i :: 2 <= i < |p| ==> 1 <= p[i] < i)
    && (forall i, j :: 2 <= i < j < |p| ==> p[i] <= p[j])
    && forall i, j :: 2 <= i && j == i + 2 && j < |p| ==> p[i] < p[j]
  }

  /** Builds the tree from leaves in descending order.  In the end one tree is left, with all
      the weight, and heights as low as its weight demands. */
  method BuildTree(tree: array<nat>, weight: array<uint64>, n: nat) returns (ghost rs: seq<nat>, ghost ss: seq<nat>)
    requires 2 <= n <= tree.Length && n <= weight.Length && LeavesOk(weight[..n])
    requires SumFreq(weight[..n], 0, n) < Fib(MAX_HUFF_CODE_LENGTH + 1)
    modifies tree, weight
    ensures IsTree(tree[..n]) && weight[n..] == old(weight[n..])
    ensures forall i :: 0 <= i < n ==> Label(weight[i]) == Label(old(weight[i]))
    ensures forall i :: 1 <= i < n ==> 1 <= Height(weight[i]) && Fib(Height(weight[i]) + 2) <= Freq(weight[i])
    ensures forall i :: 2 <= i < n ==> 1 <= tree[i] < n && Height(weight[tree[i]]) >= Height(weight[i]) + 1
    ensures Freq(weight[1]) == SumFreq(old(weight[..n]), 0, n)
    ensures Ran(Freqs(old(weight[..n])), Freqs(weight[..n]), tree[..n], rs, ss)
    ensures |rs| == |ss| == n && forall t {:trigger rs[t]} :: 0 <= t < n ==> rs[t] + ss[t] == 2 * t + 2
  {
    hide Freq, Height, Label, Fib, LeavesOk, Join, Least, Building, BuildOk, Ran, SumFreq, Greater, IsTree;
    ghost var leaves, total := weight[..n], SumFreq(weight[..n], 0, n);
    var r: nat, s: nat := n, n;
    ghost var m: nat := 1;
    rs, ss := seq(n, _ => n), seq(n, _ => n);
    BuildingStarts(leaves, tree[..n], rs, ss);
    var t: nat := n - 1;
    while t > 0
      invariant t < n && m >= 1 && t < r <= n && s <= t + 1 && weight[n..] == old(weight[n..])
      invariant |rs| == |ss| == n && Building(leaves, weight[..n], tree[..n], t, r, s, m, total, rs, ss)
    {
      ghost var w, p, r0, s0 := weight[..n], tree[..n], r, s;
      BuildingIs(leaves, w, p, t, r, s, m, total, rs, ss);
      var w1, w2;
      if s < 1 || (r > t + 2 && weight[r - 2] < weight[s - 1]) {
        TwoNodes(leaves, w, p, t, r, s, m, total);
        tree[r - 1] := t;
        tree[r - 2] := t;
        w1, w2 := weight[r - 1], weight[r - 2];
        r := r - 2;
      } else if r < t + 2 || (s > 1 && weight[s - 2] <= weight[r - 1]) {
        TwoLeaves(leaves, w, p, t, r, s, m, total);
        w1, w2 := weight[s - 1], weight[s - 2];
        s := s - 2;
      } else {
        LeafAndNode(leaves, w, p, t, r, s, m, total);
        tree[r - 1] := t;
        w1, w2 := weight[r - 1], weight[s - 1];
        s := s - 1;
        r := r - 1;
      }
      assert tree[..n] == Adopt(p, r, r0, t);
      BuildingNext(leaves, w, p, t, r0, s0, m, total, r, s, w1, w2, rs, ss);
      weight[t] := Join(weight[t], w1, w2);
      assert weight[..n] == w[t := Join(w[t], w1, w2)];
      m := Greater(Freq(w1), Freq(w2));
      rs, ss := rs[t - 1 := r], ss[t - 1 := s];
      t := t - 1;
      BuildingIs(leaves, weight[..n], tree[..n], t, r, s, m, total, rs, ss);
    }
    BuildingEnds(leaves, weight[..n], tree[..n], r, s, m, total, rs, ss);
    assert r == 2 && s == 0;
  }

  /** The state of the construction, with its run. */
  ghost predicate Building(leaves: seq<uint64>, w: seq<uint64>, p: seq<nat>, t: nat, r: nat, s: nat, m: nat, total: nat,
                           rs: seq<nat>, ss: seq<nat>) {
    && BuildOk(leaves, w, p, t, r, s, m, total) && |rs| == |ss| == |w| && rs[t] == r && ss[t] == s
    && Traced(Freqs(leaves), Freqs(w), p, rs, ss, t)
    && forall u {:trigger rs[u]} :: t <= u < |w| ==> rs[u] + ss[u] == 2 * u + 2
  }

  lemma BuildingStarts(leaves: seq<uint64>, p: seq<nat>, rs: seq<nat>, ss: seq<nat>)
    requires LeavesOk(leaves) && |leaves| > 0 && |p| == |leaves| && rs == ss == seq(|p|, _ => |p|)
    ensures Building(leaves, leaves, p, |leaves| - 1, |leaves|, |leaves|, 1, SumFreq(leaves, 0, |leaves|), rs, ss)
  {
    hide BuildOk, SumFreq, Traced;
    BuildStarts(leaves, p);
    TracedNone(Freqs(leaves), p);
  }

  lemma BuildingIs(leaves: seq<uint64>, w: seq<uint64>, p: seq<nat>, t: nat, r: nat, s: nat, m: nat, total: nat, rs: seq<nat>, ss: seq<nat>)
    requires Building(leaves, w, p, t, r, s, m, total, rs, ss)
    ensures BuildOk(leaves, w, p, t, r, s, m, total)
    ensures t < r <= |w| == |leaves| && s <= t + 1 && (t > 0 ==> 2 <= r)
  {
    hide Traced;
    BuildRanges(leaves, w, p, t, r, s, m, total);
    hide BuildOk;
  }

  lemma BuildingNext(leaves: seq<uint64>, w: seq<uint64>, p: seq<nat>, t: nat, r: nat, s: nat, m: nat, total: nat, r': nat, s': nat,
                     a: uint64, b: uint64, rs: seq<nat>, ss: seq<nat>)
    requires Building(leaves, w, p, t, r, s, m, total, rs, ss) && t > 0 && Least(leaves, w, t, r, s, m, r', s', a, b)
    requires LeavesOk(leaves) && total < Fib(MAX_HUFF_CODE_LENGTH + 1) && r' <= r <= |p|
    ensures Join(w[t], a, b) < 0x1_0000_0000_0000_0000 && m <= Greater(Freq(a), Freq(b))
    ensures Building(leaves, w[t := Join(w[t], a, b)], Adopt(p, r', r, t), t - 1, r', s', Greater(Freq(a), Freq(b)), total,
                     rs[t - 1 := r'], ss[t - 1 := s'])
  {
    hide BuildOk, Traced, Join, Freq, Freqs, Adopt, Least, LeavesOk, Fib, Greater;
    BuildingIs(leaves, w, p, t, r, s, m, total, rs, ss);
    JoinBuilds(leaves, w, p, t, r, s, m, total, r', s', a, b);
    TracedJoins(leaves, w, p, t, r, s, m, total, r', s', a, b, rs, ss);
    SumsNext(rs, ss, t, r', s');
  }

  lemma SumsNext(rs: seq<nat>, ss: seq<nat>, t: nat, r': nat, s': nat)
    requires |rs| == |ss| > t > 0 && r' + s' == 2 * t && forall u {:trigger rs[u]} :: t <= u < |rs| ==> rs[u] + ss[u] == 2 * u + 2
    ensures var x, y := rs[t - 1 := r'], ss[t - 1 := s'];
      forall u {:trigger x[u]} :: t - 1 <= u < |rs| ==> x[u] + y[u] == 2 * u + 2
  {
    var x, y := rs[t - 1 := r'], ss[t - 1 := s'];
    forall u {:trigger x[u]} | t - 1 <= u < |rs| ensures x[u] + y[u] == 2 * u + 2 {
      if u >= t { assert rs[u] == x[u]; }
    }
  }

  lemma TracedJoins(leaves: seq<uint64>, w: seq<uint64>, p: seq<nat>, t: nat, r: nat, s: nat, m: nat, total: nat, r': nat, s': nat,
                    a: uint64, b: uint64, rs: seq<nat>, ss: seq<nat>)
    requires BuildOk(leaves, w, p, t, r, s, m, total) && t > 0 && Least(leaves, w, t, r, s, m, r', s', a, b)
    requires LeavesOk(leaves) && total < Fib(MAX_HUFF_CODE_LENGTH + 1)
    requires |rs| == |ss| == |w| && rs[t] == r && ss[t] == s && Traced(Freqs(leaves), Freqs(w), p, rs, ss, t)
    ensures Join(w[t], a, b) < 0x1_0000_0000_0000_0000 && r' <= r <= |p| && r' + s' == 2 * t
    ensures Traced(Freqs(leaves), Freqs(w[t := Join(w[t], a, b)]), Adopt(p, r', r, t), rs[t - 1 := r'], ss[t - 1 := s'], t - 1)
  {
    hide Freq, Height, Label, Fib, Join, LeavesOk, Traced, Merges, NodesOk, ParentsOk;
    FibValue();
    LeastBounds(leaves, w, t, r, s, m, total, r', s', a, b);
    JoinFields(w[t], a, b);
    LeastMerges(leaves, w, t, r, s, m, total, r', s', a, b);
    TracedNext(Freqs(leaves), Freqs(w), p, rs, ss, t, r', s', Freq(a) + Freq(b));
    assert Freqs(w[t := Join(w[t], a, b)]) == Freqs(w)[t := Freq(a) + Freq(b)];
  }

  lemma BuildingEnds(leaves: seq<uint64>, w: seq<uint64>, p: seq<nat>, r: nat, s: nat, m: nat, total: nat, rs: seq<nat>, ss: seq<nat>)
    requires Building(leaves, w, p, 0, r, s, m, total, rs, ss) && |w| >= 2
    ensures r == 2 && s == 0 && IsTree(p) && |p| == |w|
    ensures forall i :: 0 <= i < |w| ==> Label(w[i]) == Label(leaves[i])
    ensures forall i :: 1 <= i < |w| ==> 1 <= Height(w[i]) && Fib(Height(w[i]) + 2) <= Freq(w[i])
    ensures forall i :: 2 <= i < |w| ==> 1 <= p[i] < |w| && Height(w[p[i]]) >= Height(w[i]) + 1
    ensures Freq(w[1]) == total
    ensures Ran(Freqs(leaves), Freqs(w), p, rs, ss)
    ensures |rs| == |ss| == |w| && forall t {:trigger rs[t]} :: 0 <= t < |w| ==> rs[t] + ss[t] == 2 * t + 2
  {
    hide Freq, Height, Label, Fib, Traced, Ran;
    BuildEnds(leaves, w, p, r, s, m, total);
    BuildSizes(leaves, w, p, r, s, m, total);
    TracedAll(Freqs(leaves), Freqs(w), p, rs, ss);
    hide BuildOk, Freqs;
  }

  lemma BuildSizes(leaves: seq<uint64>, w: seq<uint64>, p: seq<nat>, r: nat, s: nat, m: nat, total: nat)
    requires BuildOk(leaves, w, p, 0, r, s, m, total)
    ensures |p| == |w| == |leaves|
  {
  }

  lemma BuildRanges(leaves: seq<uint64>, w: seq<uint64>, p: seq<nat>, t: nat, r: nat, s: nat, m: nat, total: nat)
    requires BuildOk(leaves, w, p, t, r, s, m, total)
    ensures t < r <= |w| == |leaves| && s <= t + 1 && (t > 0 ==> 2 <= r)
  {
  }

  lemma BuildEnds(leaves: seq<uint64>, w: seq<uint64>, p: seq<nat>, r: nat, s: nat, m: nat, total: nat)
    requires BuildOk(leaves, w, p, 0, r, s, m, total) && |w| >= 2
    ensures r == 2 && s == 0 && IsTree(p)
    ensures forall i :: 0 <= i < |w| ==> Label(w[i]) == Label(leaves[i])
    ensures forall i :: 1 <= i < |w| ==> 1 <= Height(w[i]) && Fib(Height(w[i]) + 2) <= Freq(w[i])
    ensures forall i :: 2 <= i < |w| ==> Height(w[p[i]]) >= Height(w[i]) + 1
    ensures Freq(w[1]) == total
  {
    hide Freq, Height, Label, Fib;
    SumFreqFirst(w, 1, 2);
  }

  // ----- depths -----

  /** The depth of node `i` under the root. */
  function DepthOf(p: seq<nat>, i: nat): (d: nat)
    requires IsTree(p) && 1 <= i < |p|
    ensures i == 1 <==> d == 0
  {
    if i == 1 then 0 else DepthOf(p, p[i]) + 1
  }

  lemma {:induction false} DepthMonotone(p: seq<nat>, i: nat, j: nat)
    requires IsTree(p) && 1 <= i <= j < |p|
    ensures DepthOf(p, i) <= DepthOf(p, j)
  {
    if 1 < i < j { DepthMonotone(p, p[i], p[j]); }
  }

  /** A node is no deeper than the root is higher. */
  lemma {:induction false} DepthHeight(p: seq<nat>, h: seq<nat>, i: nat)
    requires IsTree(p) && |h| == |p| && 1 <= i < |p| && forall j :: 2 <= j < |p| ==> h[p[j]] >= h[j] + 1
    ensures DepthOf(p, i) + h[i] <= h[1]
  {
    if i > 1 { DepthHeight(p, h, p[i]); }
  }

  /** The code space, in units of the next length, that codes with these numbers fill. */
  function CodeSpace(count: seq<nat>): nat {
    if count == [] then 0 else 2 * (CodeSpace(count[..|count| - 1]) + count[|count| - 1])
  }

  function Codes(count: seq<nat>): nat {
    if count == [] then 0 else Codes(count[..|count| - 1]) + count[|count| - 1]
  }

  /** The nodes of depth `d - 1` are those from `a` to `b`; of the nodes of depth `d`, `used`
      were met, up to `node`. */
  ghost predicate Level(p: seq<nat>, d: nat, a: nat, b: nat, node: nat, used: nat) {
    && IsTree(p) && 1 <= a <= b <= node <= |p| && 2 <= b && used == node - b && d >= 1
    && (forall i :: 1 <= i < |p| ==> (DepthOf(p, i) == d - 1 <==> a <= i < b) && (DepthOf(p, i) < d - 1 <==> i < a))
    && (forall i :: b <= i < node ==> DepthOf(p, i) == d && p[i] >= a + (i - b) / 2)
  }

  /** There are fewer nodes than places. */
  lemma LevelRoom(p: seq<nat>, d: nat, a: nat, b: nat, node: nat, used: nat)
    requires Level(p, d, a, b, node, used) && node < |p| && DepthOf(p, p[node]) + 1 == d
    ensures used < 2 * (b - a) && Level(p, d, a, b, node + 1, used + 1)
  {
    assert a <= p[node] < b;
    assert p[node] >= a + used / 2 by {
      if used >= 2 { assert p[node - 2] < p[node]; }
    }
    assert node > 1 ==> DepthOf(p, node) == DepthOf(p, p[node]) + 1;
  }

  /** The next level. */
  lemma LevelNext(p: seq<nat>, d: nat, a: nat, b: nat, node: nat, used: nat)
    requires Level(p, d, a, b, node, used) && (node < |p| ==> DepthOf(p, p[node]) + 1 != d)
    ensures Level(p, d + 1, b, node, node, 0)
  {
    forall i | 1 <= i < |p|
      ensures (DepthOf(p, i) == d <==> b <= i < node) && (DepthOf(p, i) < d <==> i < b)
    {
      if i >= node {
        DepthMonotone(p, node, i);
        assert DepthOf(p, node) == DepthOf(p, p[node]) + 1;
      }
    }
  }

  lemma LevelFirst(p: seq<nat>)
    requires IsTree(p) && |p| >= 2
    ensures Level(p, 1, 1, 2, 2, 0)
  {
    forall i | 1 <= i < |p| ensures (DepthOf(p, i) == 0 <==> 1 <= i < 2) && (DepthOf(p, i) < 0 <==> i < 1) {
    }
  }

  /** What the counts of lengths below `d` come to: the code space they leave at depth `d`,
      and the nodes met. */
  ghost predicate Counted(count: seq<nat>, d: nat, avail: nat, node: nat) {
    && |count| == d >= 1 && count[0] == 0
    && CodeSpace(count) + avail == Pow2(d) && Codes(count) + avail == node
  }

  lemma CountedNext(count: seq<nat>, d: nat, avail: nat, node: nat, used: nat)
    requires Counted(count, d, avail, node) && used <= avail
    ensures Counted(count + [avail - used], d + 1, 2 * used, node + used)
  {
    assert (count + [avail - used])[..d] == count;
  }

  lemma CountedFirst()
    ensures Counted([0], 1, 2, 2)
  {
    assert [0][..0] == [];
    assert CodeSpace([0]) == 2 * (CodeSpace([]) + 0) && Codes([0]) == Codes([]) + 0;
  }

  /** The nodes before `node` were replaced by their depths. */
  ghost predicate Depths(tree: seq<nat>, p: seq<nat>, node: nat) {
    && IsTree(p) && |tree| == |p| && 1 < node <= |p|
    && (forall i :: 1 <= i < node ==> tree[i] == DepthOf(p, i))
    && forall i :: node <= i < |p| ==> tree[i] == p[i]
  }

  lemma DepthsNext(tree: seq<nat>, p: seq<nat>, node: nat)
    requires Depths(tree, p, node) && node < |p|
    ensures 1 <= tree[node] < node && tree[node] == p[node] && tree[tree[node]] == DepthOf(p, p[node])
    ensures Depths(tree[node := DepthOf(p, p[node]) + 1], p, node + 1)
  {
  }

  lemma LevelUsed(p: seq<nat>, d: nat, a: nat, b: nat, node: nat, used: nat)
    requires Level(p, d, a, b, node, used)
    ensures used == node - b && b <= node <= |p| && (node == b ==> used == 0)
    ensures used <= 2 * (b - a)
  {
    if used > 0 {
      assert p[node - 1] >= a + (node - 1 - b) / 2;
      assert DepthOf(p, node - 1) == DepthOf(p, p[node - 1]) + 1;
      assert DepthOf(p, p[node - 1]) == d - 1;
    }
  }

  /** Below the deepest node no place is left. */
  lemma LevelLast(p: seq<nat>, d: nat, a: nat, b: nat)
    requires Level(p, d, a, b, b, 0) && forall i :: 1 <= i < |p| ==> DepthOf(p, i) < d - 1
    ensures a == b == |p|
  {
    assert DepthOf(p, |p| - 1) < d - 1;
  }

  /** Where there are places there is a node above them. */
  lemma LevelAbove(p: seq<nat>, d: nat, a: nat, b: nat, h: nat)
    requires Level(p, d, a, b, b, 0) && forall i :: 1 <= i < |p| ==> DepthOf(p, i) < h
    ensures a < b ==> d <= h
  {
    if a < b { assert DepthOf(p, a) == d - 1; }
  }

  /** The nodes of depth below `d` are those before `a`. */
  ghost predicate Starts(p: seq<nat>, d: nat, a: nat) {
    IsTree(p) && 1 <= a <= |p| && forall i :: 1 <= i < |p| ==> (DepthOf(p, i) < d <==> i < a)
  }

  /** `c` leaves are at depths up to `e`, each node having two nodes or leaves below it. */
  ghost predicate LeavesAbove(p: seq<nat>, e: nat, d: nat, c: nat) {
    exists a: nat, b: nat {:trigger Starts(p, e, a), Starts(p, d, b)} :: Starts(p, e, a) && Starts(p, d, b) && c + b == 2 * a
  }

  lemma LevelLeaves(p: seq<nat>, e: nat, d: nat, a: nat, b: nat, count: seq<nat>)
    requires d == e + 1 && Level(p, d, a, b, b, 0) && Counted(count, d, 2 * (b - a), b)
    ensures LeavesAbove(p, e, d, Codes(count))
  {
    hide IsTree, Codes, CodeSpace, Pow2;
    assert Starts(p, e, a) && Starts(p, d, b);
  }

  /** Counts the codes of every length, replacing the parents of nodes by their depths.  The
      codes fill the code space, no place is left over, and there is one for every leaf. */
  method ComputeDepths(count: array<nat>, tree: array<nat>, n: nat, ghost h: nat)
    requires h <= MAX_HUFF_CODE_LENGTH && 2 <= n <= tree.Length && count.Length == MAX_HUFF_CODE_LENGTH + 2 && count != tree && IsTree(tree[..n])
    requires forall i :: 1 <= i < n ==> DepthOf(tree[..n], i) < h
    modifies count, tree
    ensures forall d :: h < d <= MAX_HUFF_CODE_LENGTH ==> count[d] == 0
    ensures count[0] == 0 && Codes(count[..MAX_HUFF_CODE_LENGTH + 1]) == n
    ensures CodeSpace(count[..MAX_HUFF_CODE_LENGTH + 1]) == Pow2(MAX_HUFF_CODE_LENGTH + 1)
    ensures forall d {:trigger count[..d]} :: 1 <= d <= MAX_HUFF_CODE_LENGTH + 1 ==> LeavesAbove(old(tree[..n]), d - 1, d, Codes(count[..d]))
  {
    hide IsTree, Level, Depths, Counted, DepthOf, CodeSpace, Codes, Pow2, LeavesAbove;
    ghost var p := tree[..n];
    tree[1] := 0;
    count[0] := 0;
    var node: nat, depth: nat, avail: nat := 2, 1, 2;
    ghost var a: nat, b: nat := 1, 2;
    DepthsFirst(tree[..n], p);
    LevelFirst(p);
    CountedFirst();
    assert count[..1] == [0];
    LevelLeaves(p, 0, 1, 1, 2, count[..1]);
    while depth <= MAX_HUFF_CODE_LENGTH
      invariant 1 <= depth <= MAX_HUFF_CODE_LENGTH + 1 && a <= b == node <= n && avail == 2 * (b - a)
      invariant Level(p, depth, a, b, b, 0) && Depths(tree[..n], p, node)
      invariant Counted(count[..depth], depth, avail, node)
      invariant forall d :: h < d < depth ==> count[d] == 0
      invariant forall d {:trigger count[..d]} :: 1 <= d <= depth ==> LeavesAbove(p, d - 1, d, Codes(count[..d]))
    {
      LevelAbove(p, depth, a, b, h);
      ghost var all := count[..depth];
      var used: nat := 0;
      node, used := Descend(tree, n, depth, node, avail, p, a, b);
      ghost var before := count[..depth];
      CountedNext(before, depth, avail, b, used);
      LevelNext(p, depth, a, b, node, used);
      count[depth] := avail - used;
      assert count[..depth + 1] == before + [avail - used];
      LevelLeaves(p, depth, depth + 1, b, node, count[..depth + 1]);
      forall d {:trigger count[..d]} | 1 <= d <= depth ensures LeavesAbove(p, d - 1, d, Codes(count[..d])) {
        assert count[..d] == before[..d] == all[..d];
      }
      depth := depth + 1;
      avail := 2 * used;
      a, b := b, node;
    }
    LevelLast(p, depth, a, b);
    assert avail == 0;
    CountedLast(count[..depth], depth, node);
  }

  lemma CountedLast(count: seq<nat>, d: nat, node: nat)
    requires Counted(count, d, 0, node)
    ensures count[0] == 0 && CodeSpace(count) == Pow2(d) && Codes(count) == node
  {
  }

  lemma DepthsFirst(tree: seq<nat>, p: seq<nat>)
    requires IsTree(p) && |p| >= 2 && |tree| == |p| && tree == p[1 := 0]
    ensures Depths(tree, p, 2)
  {
  }

  /** Meets all nodes of one depth. */
  method Descend(tree: array<nat>, n: nat, depth: nat, first: nat, avail: nat, ghost p: seq<nat>, ghost a: nat, ghost b: nat)
    returns (node: nat, used: nat)
    requires n <= tree.Length && first == b <= n && a <= b && avail == 2 * (b - a)
    requires Level(p, depth, a, b, b, 0) && Depths(tree[..n], p, first) && |p| == n
    modifies tree
    ensures b <= node <= n && used == node - b && used <= avail
    ensures Level(p, depth, a, b, node, used) && Depths(tree[..n], p, node)
    ensures IsTree(p) && (node < n ==> 1 <= p[node] < |p| && DepthOf(p, p[node]) + 1 != depth)
  {
    hide IsTree, Level, Depths, DepthOf;
    node, used := first, 0;
    while true
      invariant b <= node <= n && used == node - b
      invariant Level(p, depth, a, b, node, used) && Depths(tree[..n], p, node)
      decreases n - node
    {
      LevelUsed(p, depth, a, b, node, used);
      DepthsTree(tree[..n], p, node);
      if node < n { DepthsNext(tree[..n], p, node); }
      if !(node < n && tree[tree[node]] + 1 == depth) { break; }
      LevelRoom(p, depth, a, b, node, used);
      assert avail > used;
      used := used + 1;
      ghost var q := tree[..n];
      tree[node] := depth;
      assert tree[..n] == q[node := depth];
      node := node + 1;
    }
  }

  lemma DepthsTree(tree: seq<nat>, p: seq<nat>, node: nat)
    requires Depths(tree, p, node)
    ensures IsTree(p) && (node < |p| ==> 1 <= p[node] < |p|)
  {
  }
}
