/** Code lengths over sorted leaves: their cost, their completeness, and why those a
    row of package merge describes are optimal. */
module CodeLengths {
  import opened Powers
  import opened PackageMerge
  import opened PackageRows

  /** How many codes have length at least `x`. */
  function AtLeast(l: seq<nat>, x: nat): (c: nat)
    ensures c <= |l|
  {
    if l == [] then 0 else AtLeast(l[..|l| - 1], x) + if l[|l| - 1] >= x then 1 else 0
  }

  /** Those numbers for lengths 1 to `h`. */
  function Chosen(l: seq<nat>, h: nat): (c: seq<nat>)
    ensures |c| == h
    ensures forall x :: 0 <= x < h ==> c[x] == AtLeast(l, x + 1)
  {
    if h == 0 then [] else Chosen(l, h - 1) + [AtLeast(l, h)]
  }

  function Min(a: nat, b: nat): nat {
    if a < b then a else b
  }

  /** The code space taken, in units of 2^-h; longer codes count as `h`. */
  function Space(l: seq<nat>, h: nat): nat {
    if l == [] then 0 else Space(l[..|l| - 1], h) + Pow2(h - Min(l[|l| - 1], h))
  }

  /** Total frequency times length. */
  function Total(w: seq<Weight>, l: seq<nat>, h: nat): nat
    requires |l| <= |w|
  {
    if l == [] then 0 else Total(w, l[..|l| - 1], h) + Times(w[|l| - 1].freq, Min(l[|l| - 1], h))
  }

  /** Frequencies times lengths. */
  function Dot(f: seq<nat>, l: seq<nat>): nat
    requires |f| == |l|
  {
    if f == [] then 0 else Dot(f[..|f| - 1], l[..|f| - 1]) + Times(f[|f| - 1], l[|f| - 1])
  }

  lemma {:induction false} TotalIsDot(w: seq<Weight>, f: seq<nat>, l: seq<nat>, h: nat)
    requires |l| == |f| <= |w| && forall i :: 0 <= i < |f| ==> w[i].freq == f[i] && l[i] <= h
    ensures Total(w, l, h) == Dot(f, l)
    decreases |l|
  {
    if l != [] { TotalIsDot(w, f[..|f| - 1], l[..|l| - 1], h); }
  }

  /** The frequencies of the codes of length at least `x`. */
  function Part(w: seq<Weight>, l: seq<nat>, x: nat): nat
    requires |l| <= |w|
  {
    if l == [] then 0 else Part(w, l[..|l| - 1], x) + if l[|l| - 1] >= x then w[|l| - 1].freq else 0
  }

  lemma {:induction false} SpaceHalves(l: seq<nat>, h: nat)
    requires h > 0
    ensures Space(l, h) + AtLeast(l, h) == 2 * Space(l, h - 1)
    decreases |l|
  {
    if l != [] { SpaceHalves(l[..|l| - 1], h); }
  }

  lemma {:induction false} SpaceEnds(l: seq<nat>)
    ensures Space(l, 0) == |l|
    decreases |l|
  {
    if l != [] { SpaceEnds(l[..|l| - 1]); }
  }

  /** The space left by the codes is the width of the choice they make. */
  lemma {:induction false} WidthAndSpace(l: seq<nat>, h: nat)
    ensures Width(Chosen(l, h)) + Space(l, h) == Times(|l|, Pow2(h))
    decreases h
  {
    if h == 0 {
      SpaceEnds(l);
    } else {
      WidthAndSpace(l, h - 1);
      SpaceHalves(l, h);
      WidthChosen(l, h);
      Doubled(|l|, Pow2(h - 1), Width(Chosen(l, h - 1)), Space(l, h - 1), AtLeast(l, h));
    }
  }

  lemma WidthChosen(l: seq<nat>, h: nat)
    requires h > 0
    ensures Width(Chosen(l, h)) == 2 * Width(Chosen(l, h - 1)) + AtLeast(l, h)
  {
    assert Chosen(l, h)[..h - 1] == Chosen(l, h - 1);
  }

  lemma Doubled(n: nat, p: nat, width: nat, space: nat, c: nat)
    requires width + space == Times(n, p) && c <= 2 * space
    ensures (2 * width + c) + (2 * space - c) == Times(n, 2 * p)
  {
  }

  lemma {:induction false} TotalByLevels(w: seq<Weight>, l: seq<nat>, h: nat)
    requires |l| <= |w| && h > 0
    ensures Total(w, l, h) == Total(w, l, h - 1) + Part(w, l, h)
    decreases |l|
  {
    if l != [] {
      TotalByLevels(w, l[..|l| - 1], h);
      var f := w[|l| - 1].freq;
      MoreTimes(f, h - 1);
    }
  }

  lemma MoreTimes(a: nat, b: nat)
    ensures Times(a, b + 1) == Times(a, b) + a && Times(a, 0) == 0
  {
  }

  lemma TimesMonotone(a: nat, b: nat, c: nat)
    requires b <= c
    ensures Times(a, b) <= Times(a, c)
  {
  }

  lemma {:induction false} TotalNothing(w: seq<Weight>, l: seq<nat>)
    requires |l| <= |w|
    ensures Total(w, l, 0) == 0
    decreases |l|
  {
    if l != [] { TotalNothing(w, l[..|l| - 1]); }
  }

  /** Any `c` leaves weigh at least as much as the `c` lightest. */
  lemma {:induction false} PartAtLeast(w: seq<Weight>, l: seq<nat>, x: nat)
    requires |l| <= |w| && Sorted(w)
    ensures PrefixSum(w, AtLeast(l, x)) <= Part(w, l, x)
    decreases |l|
  {
    if l != [] {
      PartAtLeast(w, l[..|l| - 1], x);
      assert Leq(w[AtLeast(l[..|l| - 1], x)], w[|l| - 1]);
    }
  }

  lemma {:induction false} ChoiceCostLast(w: seq<Weight>, c: seq<nat>, x: nat)
    requires Choice(w, c) && x <= |w|
    ensures Choice(w, c + [x]) && ChoiceCost(w, c + [x]) == ChoiceCost(w, c) + PrefixSum(w, x)
    decreases |c|
  {
    if c == [] {
      assert [] + [x] == [x] && [x][1..] == [];
    } else {
      ChoiceCostLast(w, c[1..], x);
      assert (c + [x])[1..] == c[1..] + [x];
    }
  }

  lemma {:induction false} ChosenCost(w: seq<Weight>, l: seq<nat>, h: nat)
    requires |l| == |w| && Sorted(w)
    ensures Choice(w, Chosen(l, h)) && ChoiceCost(w, Chosen(l, h)) <= Total(w, l, h)
    decreases h
  {
    if h > 0 {
      ChosenCost(w, l, h - 1);
      ChoiceCostLast(w, Chosen(l, h - 1), AtLeast(l, h));
      TotalByLevels(w, l, h);
      PartAtLeast(w, l, h);
    }
  }

  /** No complete code of height `h` costs less than package merge's. */
  lemma CompleteCodesCost(w: seq<Weight>, l: seq<nat>, h: nat)
    requires Sorted(w) && |l| == |w| >= 2 && h > 0 && Space(l, h) == Pow2(h)
    ensures 2 * |w| - 2 <= Size(|w|, h) && Cost(w, h, 2 * |w| - 2) <= Total(w, l, h)
  {
    hide Times, Width, Size;
    var n, c := |w|, Chosen(l, h);
    WidthAndSpace(l, h);
    ChosenCost(w, l, h);
    LessOne(n, Pow2(h - 1), Width(c));
    Cheapest(w, c, 2 * n - 2);
  }

  lemma LessOne(n: nat, p: nat, width: nat)
    requires n >= 2 && width + 2 * p == Times(n, 2 * p)
    ensures width == Times(2 * n - 2, p)
  {
  }

  // ----- codes that leave some space unused -----

  ghost predicate Within(l: seq<nat>, h: nat) {
    forall t :: 0 <= t < |l| ==> 1 <= l[t] <= h
  }

  /** In codes of height `k` the space taken is a multiple of the smallest share. */
  lemma {:induction false} SpaceMultiple(l: seq<nat>, k: nat, h: nat)
    requires k <= h && forall t :: 0 <= t < |l| ==> l[t] <= k
    ensures Space(l, h) == Times(Space(l, k), Pow2(h - k))
    decreases |l|
  {
    if l != [] {
      SpaceMultiple(l[..|l| - 1], k, h);
      Pow2Add(k - l[|l| - 1], h - k);
      Distribute(Space(l[..|l| - 1], k), Pow2(k - l[|l| - 1]), Pow2(h - k));
    }
  }

  lemma Distribute(a: nat, b: nat, p: nat)
    ensures Times(a + b, p) == Times(a, p) + Times(b, p) && Times(1, p) == p
  {
  }

  lemma {:induction false} SpaceUpdate(l: seq<nat>, h: nat, t: nat)
    requires t < |l| && 1 <= l[t] <= h
    ensures Space(l[t := l[t] - 1], h) == Space(l, h) + Pow2(h - l[t])
    decreases |l|
  {
    var n := |l| - 1;
    if t < n {
      SpaceUpdate(l[..n], h, t);
      assert l[t := l[t] - 1][..n] == l[..n][t := l[t] - 1];
    } else {
      assert l[t := l[t] - 1][..n] == l[..n];
    }
  }

  function Sum(l: seq<nat>): nat {
    if l == [] then 0 else Sum(l[..|l| - 1]) + l[|l| - 1]
  }

  lemma {:induction false} SumUpdate(l: seq<nat>, t: nat)
    requires t < |l| && 1 <= l[t]
    ensures Sum(l[t := l[t] - 1]) < Sum(l)
    decreases |l|
  {
    var n := |l| - 1;
    if t < n {
      SumUpdate(l[..n], t);
      assert l[t := l[t] - 1][..n] == l[..n][t := l[t] - 1];
    } else {
      assert l[t := l[t] - 1][..n] == l[..n];
    }
  }

  lemma {:induction false} Longest(l: seq<nat>) returns (t: nat)
    requires l != []
    ensures t < |l| && forall x :: 0 <= x < |l| ==> l[x] <= l[t]
    decreases |l|
  {
    var n := |l| - 1;
    if n == 0 { return 0; }
    t := Longest(l[..n]);
    if l[n] > l[t] { t := n; }
  }

  lemma Less(a: nat, b: nat, p: nat)
    requires Times(a, p) < Times(b, p)
    ensures Times(a, p) + p <= Times(b, p)
  {
    MulMonotone(a + 1, b, p);
    assert a >= b ==> a * p >= b * p;
  }

  /** A code that leaves space unused can be shortened until it is complete. */
  lemma {:induction false} Shorten(l: seq<nat>, h: nat) returns (l': seq<nat>)
    requires |l| >= 2 && Within(l, h) && Space(l, h) <= Pow2(h)
    ensures |l'| == |l| && Within(l', h) && Space(l', h) == Pow2(h)
    ensures forall t :: 0 <= t < |l| ==> l'[t] <= l[t]
    decreases Sum(l)
  {
    if Space(l, h) == Pow2(h) { return l; }
    var t := Longest(l);
    var k := l[t];
    SpaceMultiple(l, k, h);
    Pow2Add(k, h - k);
    Less(Space(l, k), Pow2(k), Pow2(h - k));
    if k == 1 { SpaceOfOnes(l, h); }
    SpaceUpdate(l, h, t);
    SumUpdate(l, t);
    l' := Shorten(l[t := k - 1], h);
  }

  lemma {:induction false} SpaceOfOnes(l: seq<nat>, h: nat)
    requires h > 0 && forall t :: 0 <= t < |l| ==> l[t] == 1
    ensures Space(l, h) == Times(|l|, Pow2(h - 1))
    decreases |l|
  {
    if l != [] {
      SpaceOfOnes(l[..|l| - 1], h);
      Distribute(|l| - 1, 1, Pow2(h - 1));
    }
  }

  lemma {:induction false} TotalMonotone(w: seq<Weight>, l': seq<nat>, l: seq<nat>, h: nat)
    requires |l'| == |l| <= |w| && forall t :: 0 <= t < |l| ==> l'[t] <= l[t]
    ensures Total(w, l', h) <= Total(w, l, h)
    decreases |l|
  {
    hide Times;
    if l != [] {
      var n := |l| - 1;
      TotalMonotone(w, l'[..n], l[..n], h);
      TimesMonotone(w[n].freq, Min(l'[n], h), Min(l[n], h));
    }
  }

  /** No prefix code of height `h` at all costs less than package merge's. */
  lemma CodesCost(w: seq<Weight>, l: seq<nat>, h: nat)
    requires Sorted(w) && |l| == |w| >= 2 && h > 0 && Within(l, h) && Space(l, h) <= Pow2(h)
    ensures 2 * |w| - 2 <= Size(|w|, h) && Cost(w, h, 2 * |w| - 2) <= Total(w, l, h)
  {
    var l' := Shorten(l, h);
    CompleteCodesCost(w, l', h);
    TotalMonotone(w, l', l, h);
  }

  // ----- the lengths a row describes -----

  /** Leaf `t` is among those that level `x` contributes exactly when its code is longer
      than `x`. */
  ghost predicate Describes(r: seq<nat>, l: seq<nat>) {
    && (forall t :: 0 <= t < |l| ==> l[t] <= |r|)
    && (forall t, x {:trigger l[t], r[x]} :: 0 <= t < |l| && 0 <= x < |r| ==> (l[t] > x <==> t < r[x]))
  }

  lemma {:induction false} DescribedPart(w: seq<Weight>, r: seq<nat>, l: seq<nat>, n: nat, x: nat)
    requires n <= |l| == |w| && Describes(r, l) && x < |r|
    ensures AtLeast(l[..n], x + 1) == if n < r[x] then n else Min(r[x], |l|)
    ensures Part(w, l[..n], x + 1) == PrefixSum(w, if n < r[x] then n else Min(r[x], |l|))
    decreases n
  {
    if n > 0 {
      DescribedPart(w, r, l, n - 1, x);
      assert l[..n][..n - 1] == l[..n - 1];
      assert l[n - 1] > x <==> n - 1 < r[x];
    }
  }

  lemma {:induction false} DescribedTotal(w: seq<Weight>, r: seq<nat>, l: seq<nat>, h: nat)
    requires |l| == |w| && Describes(r, l) && Choice(w, r) && h <= |r|
    ensures Chosen(l, h) == r[..h]
    ensures Choice(w, r[..h]) && Total(w, l, h) == ChoiceCost(w, r[..h])
    decreases h
  {
    if h == 0 {
      TotalNothing(w, l);
    } else {
      DescribedTotal(w, r, l, h - 1);
      DescribedPart(w, r, l, |l|, h - 1);
      assert l[..|l|] == l;
      TotalByLevels(w, l, h);
      ChoiceCostLast(w, r[..h - 1], r[h - 1]);
      assert r[..h] == r[..h - 1] + [r[h - 1]];
    }
  }

  lemma DescribedCode(w: seq<Weight>, r: seq<nat>, l: seq<nat>, h: nat)
    requires |l| == |w| >= 2 && Describes(r, l) && Choice(w, r) && |r| == h > 0
    requires r[0] == |w| && Width(r) == Times(2 * |w| - 2, Pow2(h - 1))
    ensures Within(l, h) && Space(l, h) == Pow2(h) && Total(w, l, h) == ChoiceCost(w, r)
  {
    DescribedTotal(w, r, l, h);
    assert r[..h] == r;
    forall t | 0 <= t < |l| ensures 1 <= l[t] <= h {
      assert l[t] > 0 <==> t < r[0];
    }
    WidthAndSpace(l, h);
    Filled(|w|, Pow2(h - 1), Space(l, h));
  }

  lemma Filled(n: nat, p: nat, space: nat)
    requires n >= 2 && Times(2 * n - 2, p) + space == Times(n, 2 * p)
    ensures space == 2 * p
  {
  }

  /** The row that package merge leaves for height `h` describes a complete code with
      lengths 1 to `h`. */
  lemma RowIsComplete(w: seq<Weight>, h: nat, l: seq<nat>)
    requires Sorted(w) && |l| == |w| && 2 <= |w| <= Pow2(h) && h > 0
    requires 2 * |w| - 2 <= Size(|w|, h)
    requires Describes(Row(w, h, 2 * |w| - 2), l)
    ensures Within(l, h) && Space(l, h) == Pow2(h)
    ensures Total(w, l, h) == Cost(w, h, 2 * |w| - 2)
  {
    hide Times, Width, Size, Describes, Total, Space, Cost, ChoiceCost, Choice;
    RowFull(w, h);
    RowChoice(w, h, 2 * |w| - 2);
    RowWidth(w, h, 2 * |w| - 2);
    DescribedCode(w, Row(w, h, 2 * |w| - 2), l, h);
  }

  /** No prefix code of height `h` is cheaper than the one the row describes. */
  lemma RowIsOptimal(w: seq<Weight>, h: nat, l: seq<nat>, k: seq<nat>)
    requires Sorted(w) && |k| == |l| == |w| && 2 <= |w| <= Pow2(h) && h > 0
    requires 2 * |w| - 2 <= Size(|w|, h)
    requires Describes(Row(w, h, 2 * |w| - 2), l)
    requires Within(k, h) && Space(k, h) <= Pow2(h)
    ensures Total(w, l, h) <= Total(w, k, h)
  {
    RowIsComplete(w, h, l);
    CodesCost(w, k, h);
  }
}
