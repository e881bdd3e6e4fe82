/** Reading no more than 18001 groups loses nothing: a block that has more values is too long
    before. */
module GroupLimit {
  import opened Common
  import opened Powers
  import opened Bits
  import opened PrefixCode
  import opened MoveToFront
  import opened BlockFormat

  /** After `n` values without an error: each but the digits of the pending run has given a
      byte at least, and that run has as many as it has digits. */
  ghost predicate Progress(v: Values, n: nat) {
    && v.shift <= 20 && Pow2(v.shift) <= v.run + 1 && |v.column| <= 900000
    && (n <= v.shift || (Pow2(v.shift) <= v.run && n <= |v.column| + 1 + v.shift))
  }

  lemma {:induction false} PowerAbove(n: nat)
    ensures n < Pow2(n)
  {
    if n > 0 { PowerAbove(n - 1); }
  }

  lemma DigitProgress(v: Values, n: nat, s: nat)
    requires Progress(v, n) && s <= 1 && v.run <= 900000
    ensures Progress(v.(run := v.run + (s + 1) * Pow2(v.shift), shift := v.shift + 1), n + 1)
  {
    Pow2Constants();
    assert Pow2(v.shift + 1) == 2 * Pow2(v.shift);
    assert s == 0 || s == 1;
    assert (s + 1) * Pow2(v.shift) == if s == 0 then Pow2(v.shift) else 2 * Pow2(v.shift);
  }

  lemma CharacterProgress(v: Values, n: nat, l: seq<byte>)
    requires Progress(v, n) && v.list != [] && Fits(v)
    ensures Progress(Values(Dumped(v), l, 1, 0), n + 1)
  {
    PowerAbove(v.shift);
  }

  lemma FewValues(v: Values, n: nat)
    requires Progress(v, n)
    ensures n <= 900021
  {
  }

  lemma SymbolFits(h: Head, p: Place, u: nat, s: nat)
    requires ValidHead(h) && p.tree < |h.trees| && Decodes(h.trees[p.tree], u, s)
    ensures s < |h.front.used| + 2
  {
    hide ValidFront, ValidSelectors;
    assert |h.trees[p.tree]| == |h.front.used| + 2;
  }

  /** The limit on groups is never what ends the reading. */
  lemma {:induction false} NeverCapped(h: Head, p: Place, v: Values, b: seq<bit>)
    requires ValidHead(h) && ValidPlace(h, p) && p.group < Bound(h.front.groups) && ValidValues(h, v)
    requires h.front.groups > 18001 && Progress(v, 50 * p.group + p.index)
    ensures ReadValues(h, p, v, b) != Fails(ERR_UNTERM)
    decreases Bound(h.front.groups) - p.group, GROUP_SIZE - p.index, 0
  {
    hide Progress, ValidFront, ValidTrees, ValidSelectors, Complete;
    FewValues(v, 50 * p.group + p.index);
    if p.index == GROUP_SIZE {
      NoGroupCapped(h, p.group + 1, p.refs, v, b);
    } else if |b| >= 32 {
      var lens := h.trees[p.tree];
      var s := SymbolAt(lens, b);
      SymbolFits(h, p, Val(b[..MAX_CODE_LENGTH]), s);
      ValueCapped(h, p, v, s, b[lens[s]..]);
    }
  }

  lemma {:induction false} NoGroupCapped(h: Head, g: nat, refs: seq<TreeRef>, v: Values, b: seq<bit>)
    requires ValidHead(h) && ValidRefs(h, refs) && ValidValues(h, v) && g <= Bound(h.front.groups)
    requires h.front.groups > 18001 && Progress(v, 50 * g)
    ensures ReadGroups(h, g, refs, v, b) != Fails(ERR_UNTERM)
    decreases Bound(h.front.groups) - g, GROUP_SIZE + 1, 0
  {
    hide Progress, ValidFront, ValidTrees;
    FewValues(v, 50 * g);
    assert g < Bound(h.front.groups);
    assert h.selectors[g] < h.front.trees;
    var i := h.selectors[g];
    assert ValidRef(h.trees, refs[i]);
    if refs[i].Good? {
      RefsMoved(h, refs, i);
      NeverCapped(h, Place(g, RefToFront(refs, i), refs[i].tree, 0), v, b);
    }
  }

  lemma {:induction false} ValueCapped(h: Head, p: Place, v: Values, s: nat, b: seq<bit>)
    requires ValidHead(h) && ValidPlace(h, p) && p.group < Bound(h.front.groups) && ValidValues(h, v)
    requires s < |h.front.used| + 2 && p.index < GROUP_SIZE
    requires h.front.groups > 18001 && Progress(v, 50 * p.group + p.index)
    ensures Value(h, p, v, s, b) != Fails(ERR_UNTERM)
    decreases Bound(h.front.groups) - p.group, GROUP_SIZE - p.index - 1, 1
  {
    hide Progress, ValidTrees, ValidSelectors, ValidRefs;
    var q, n := p.(index := p.index + 1), 50 * p.group + p.index;
    if s == |h.front.used| + 1 {
    } else if s <= 1 && v.run <= MAX_BLOCK_SIZE {
      DigitProgress(v, n, s);
      NeverCapped(h, q, v.(run := v.run + (s + 1) * Pow2(v.shift), shift := v.shift + 1), b);
    } else if s > 1 && Fits(v) {
      CharacterProgress(v, n, ToFront(v.list, s - 1));
      NeverCapped(h, q, Values(Dumped(v), ToFront(v.list, s - 1), 1, 0), b);
    }
  }

  /** However many groups a block announces, it is never found unterminated because of the
      limit. */
  lemma LimitLosesNothing(h: Head, refs: seq<TreeRef>, b: seq<bit>)
    requires ValidHead(h) && ValidRefs(h, refs) && h.front.groups > 18001
    ensures ReadGroups(h, 0, refs, Values([], h.front.used, 0, 0), b) != Fails(ERR_UNTERM)
  {
    NoGroupCapped(h, 0, refs, Values([], h.front.used, 0, 0), b);
  }
}
