/** The compressed block as a sequence of bits, read in the simple form: what each part
    means, and which error stops the reading.  Wherever 32 bits are wanted they must be
    there, or the block has ended too early. */
module BlockFormat {
  import opened Common
  import opened Powers
  import opened Bits
  import opened CountingSort
  import opened PrefixCode
  import opened MoveToFront

  const MAX_GROUPS := 18001

  /** What comes of reading a block. */
  datatype Outcome =
    | Fails(status: Status)
    | Reads(rand: bool, idx: nat, column: seq<byte>, rest: seq<bit>)

  /** What the front of the block says. */
  datatype Front = Front(rand: bool, idx: nat, used: seq<byte>, trees: nat, groups: nat)

  /** A tree that can be used, or what is wrong with it. */
  datatype TreeRef = Good(tree: nat) | Rejected(status: Status)

  /** All but the coded values. */
  datatype Head = Head(front: Front, selectors: seq<nat>, trees: seq<seq<byte>>)

  /** The values read so far: the block's column, the list of characters, and the pending
      run of the character at its front. */
  datatype Values = Values(column: seq<byte>, list: seq<byte>, run: nat, shift: nat)

  ghost predicate ValidFront(f: Front) {
    1 <= |f.used| <= 256 && MIN_TREES <= f.trees <= MAX_TREES && f.groups > 0
  }

  ghost predicate ValidSelectors(f: Front, selectors: seq<nat>) {
    |selectors| <= f.groups && forall g {:trigger selectors[g]} :: 0 <= g < |selectors| ==> selectors[g] < f.trees
  }

  ghost predicate ValidTrees(f: Front, trees: seq<seq<byte>>) {
    && |trees| <= f.trees
    && forall t {:trigger trees[t]} :: 0 <= t < |trees| ==> Lengths(trees[t]) && |trees[t]| == |f.used| + 2
  }

  ghost predicate ValidHead(h: Head) {
    && ValidFront(h.front)
    && |h.selectors| == h.front.groups && ValidSelectors(h.front, h.selectors)
    && |h.trees| == h.front.trees && ValidTrees(h.front, h.trees)
  }

  ghost predicate ValidValues(h: Head, v: Values) {
    |v.list| == |h.front.used| && |v.column| <= MAX_BLOCK_SIZE
  }

  // ----- the front -----

  ghost function ReadBlock(b: seq<bit>): Outcome {
    if |b| < 32 then Fails(ERR_EOF) else ReadBitmap(b[0] == 1, Val(b[1..25]), b[25..])
  }

  ghost function ReadBitmap(rand: bool, idx: nat, b: seq<bit>): Outcome {
    if |b| < 32 then Fails(ERR_EOF) else ReadRows(rand, idx, [], b[..16], b[16..])
  }

  /** The characters from `c` on that `row` marks. */
  function Marked(c: nat, row: seq<bit>): (m: seq<byte>)
    requires c + |row| <= 256
    ensures |m| <= |row|
    decreases |row|
  {
    if row == [] then [] else (if row[0] == 1 then [c as byte] else []) + Marked(c + 1, row[1..])
  }

  /** The rows of characters still to come; `big` says which of them have any. */
  ghost function ReadRows(rand: bool, idx: nat, used: seq<byte>, big: seq<bit>, b: seq<bit>): Outcome
    requires |used| + 16 * |big| <= 256
    decreases |big|, 1
  {
    if big == [] then ReadCounts(rand, idx, used, b)
    else if big[0] == 0 then ReadRows(rand, idx, used, big[1..], b)
    else if |b| < 16 then Fails(ERR_EOF)
    else EndRow(rand, idx, used, big, b[..16], b[16..])
  }

  ghost function EndRow(rand: bool, idx: nat, used: seq<byte>, big: seq<bit>, small: seq<bit>, b: seq<bit>): Outcome
    requires |used| + 16 * |big| <= 256 && big != [] && |small| == 16
    decreases |big|, 0
  {
    if |b| < 32 then Fails(ERR_EOF)
    else ReadRows(rand, idx, used + Marked(256 - 16 * |big|, small), big[1..], b)
  }

  ghost function ReadCounts(rand: bool, idx: nat, used: seq<byte>, b: seq<bit>): Outcome
    requires |used| <= 256
  {
    if used == [] then Fails(ERR_BITMAP)
    else if |b| < 32 then Fails(ERR_EOF)
    else
      var trees, groups := Val(b[..3]), Val(b[3..18]);
      if trees < MIN_TREES || trees > MAX_TREES then Fails(ERR_TREES)
      else if groups == 0 then Fails(ERR_GROUPS)
      else ReadSelectors(Front(rand, idx, used, trees, groups), [], b[18..])
  }

  // ----- selectors -----

  /** The position of the first zero bit, counted from one. */
  function FirstZero(b: seq<bit>): (k: nat)
    ensures 1 <= k <= |b| + 1
  {
    if b == [] then 1 else if b[0] == 0 then 1 else 1 + FirstZero(b[1..])
  }

  ghost function ReadSelectors(f: Front, selectors: seq<nat>, b: seq<bit>): Outcome
    requires ValidFront(f) && ValidSelectors(f, selectors)
    decreases f.groups - |selectors|, 0
  {
    if |selectors| == f.groups then ReadTrees(f, selectors, [], b)
    else if |b| < 6 then Fails(ERR_EOF)
    else
      var k := FirstZero(b[..6]);
      if k > f.trees then Fails(ERR_SELECTOR) else EndSelector(f, selectors + [k - 1], b[k..])
  }

  ghost function EndSelector(f: Front, selectors: seq<nat>, b: seq<bit>): Outcome
    requires ValidFront(f) && ValidSelectors(f, selectors)
    decreases f.groups - |selectors|, 1
  {
    if |b| < 32 then Fails(ERR_EOF) else ReadSelectors(f, selectors, b)
  }

  // ----- trees -----

  /** Steps of a code length: `10` up, `11` down, as many as there are in full before a
      zero bit ends the length. */
  datatype Steps = Steps(bits: nat, delta: int, ends: bool)

  function ReadSteps(b: seq<bit>): (s: Steps)
    ensures s.bits <= |b|
    decreases |b|
  {
    if b == [] then Steps(0, 0, false)
    else if b[0] == 0 then Steps(1, 0, true)
    else if |b| == 1 then Steps(0, 0, false)
    else
      var s := ReadSteps(b[2..]);
      Steps(s.bits + 2, s.delta + (if b[1] == 0 then 1 else -1), s.ends)
  }

  lemma SixBits(b: seq<bit>)
    requires |b| == 6
    ensures ReadSteps(b).bits >= 1 && (!ReadSteps(b).ends ==> ReadSteps(b).bits == 6)
  {
    var c := b[2..];
    var d := c[2..];
    var e := d[2..];
    assert ReadSteps(e) == Steps(0, 0, false);
    assert !ReadSteps(d).ends ==> ReadSteps(d).bits == 2;
    assert !ReadSteps(c).ends ==> ReadSteps(c).bits == 4;
  }

  ghost function ReadTrees(f: Front, selectors: seq<nat>, trees: seq<seq<byte>>, b: seq<bit>): Outcome
    requires ValidFront(f) && |selectors| == f.groups && ValidSelectors(f, selectors) && ValidTrees(f, trees)
    decreases f.trees - |trees|, |b|, 0
  {
    if |trees| == f.trees then (
        RefsValid(f, trees);
        ReadGroups(Head(f, selectors, trees), 0, Refs(trees), Values([], f.used, 0, 0), b))
    else if |b| < 5 then Fails(ERR_EOF)
    else ReadLengths(f, selectors, trees, [], Val(b[..5]), b[5..])
  }

  ghost function ReadLengths(f: Front, selectors: seq<nat>, trees: seq<seq<byte>>, lens: seq<byte>, cur: nat, b: seq<bit>): Outcome
    requires ValidFront(f) && |selectors| == f.groups && ValidSelectors(f, selectors) && ValidTrees(f, trees)
    requires |trees| < f.trees && |lens| <= |f.used| + 2
    requires forall s :: 0 <= s < |lens| ==> MIN_CODE_LENGTH <= lens[s] <= MAX_CODE_LENGTH
    decreases f.trees - |trees|, |b|, 1
  {
    if |lens| == |f.used| + 2 then ReadTrees(f, selectors, trees + [lens], b)
    else if |b| < 6 then Fails(ERR_EOF)
    else
      var s := ReadSteps(b[..6]);
      SixBits(b[..6]);
      var c := cur + s.delta;
      if c < MIN_CODE_LENGTH || c > MAX_CODE_LENGTH then Fails(ERR_DELTA)
      else EndSteps(f, selectors, trees, if s.ends then lens + [c as byte] else lens, c, b[s.bits..])
  }

  ghost function EndSteps(f: Front, selectors: seq<nat>, trees: seq<seq<byte>>, lens: seq<byte>, cur: nat, b: seq<bit>): Outcome
    requires ValidFront(f) && |selectors| == f.groups && ValidSelectors(f, selectors) && ValidTrees(f, trees)
    requires |trees| < f.trees && |lens| <= |f.used| + 2
    requires forall s :: 0 <= s < |lens| ==> MIN_CODE_LENGTH <= lens[s] <= MAX_CODE_LENGTH
    decreases f.trees - |trees|, |b|, 2
  {
    if |b| < 32 then Fails(ERR_EOF) else ReadLengths(f, selectors, trees, lens, cur, b)
  }

  // ----- values -----

  function TreeStatus(lens: seq<byte>): Status {
    if Start(lens, MAX_CODE_LENGTH + 1) < Pow2(MAX_CODE_LENGTH) then ERR_INCOMPLT
    else if Start(lens, MAX_CODE_LENGTH + 1) > Pow2(MAX_CODE_LENGTH) then ERR_PREFIX
    else OK
  }

  function Refs(trees: seq<seq<byte>>): (r: seq<TreeRef>)
    ensures |r| == |trees|
  {
    if trees == [] then []
    else
      var t := |trees| - 1;
      Refs(trees[..t]) + [if TreeStatus(trees[t]) == OK then Good(t) else Rejected(TreeStatus(trees[t]))]
  }

  ghost predicate ValidRef(trees: seq<seq<byte>>, r: TreeRef) {
    match r
    case Good(t) => t < |trees| && Complete(trees[t])
    case Rejected(status) => status == ERR_INCOMPLT || status == ERR_PREFIX
  }

  /** Tree references point to complete codes. */
  ghost predicate ValidRefs(h: Head, refs: seq<TreeRef>) {
    && |refs| == h.front.trees
    && forall i {:trigger refs[i]} :: 0 <= i < |refs| ==> ValidRef(h.trees, refs[i])
  }

  lemma {:induction false} RefsValid(f: Front, trees: seq<seq<byte>>)
    requires ValidTrees(f, trees)
    ensures forall i {:trigger Refs(trees)[i]} :: 0 <= i < |trees| ==> ValidRef(trees, Refs(trees)[i])
    decreases |trees|
  {
    if trees != [] {
      var n := |trees| - 1;
      assert forall t {:trigger trees[..n][t]} :: 0 <= t < n ==> trees[..n][t] == trees[t];
      RefsValid(f, trees[..n]);
      assert Lengths(trees[n]);
      StatusOk(trees[n]);
      hide TreeStatus, Complete;
      forall i {:trigger Refs(trees)[i]} | 0 <= i < |trees| ensures ValidRef(trees, Refs(trees)[i]) {
        if i < n { assert Refs(trees)[i] == Refs(trees[..n])[i]; }
      }
    }
  }

  lemma StatusOk(lens: seq<byte>)
    requires Lengths(lens)
    ensures TreeStatus(lens) == OK <==> Complete(lens)
    ensures TreeStatus(lens) in {OK, ERR_INCOMPLT, ERR_PREFIX}
  {
  }

  /** The reference at position `i` moved to the front. */
  function RefToFront(refs: seq<TreeRef>, i: nat): (r: seq<TreeRef>)
    requires i < |refs|
    ensures |r| == |refs|
  {
    [refs[i]] + refs[..i] + refs[i + 1..]
  }

  /** Some symbol is what any bits start with. */
  lemma {:induction false} SomeStretch(lens: seq<byte>, u: nat, k: nat) returns (j: nat)
    requires 1 <= k <= MAX_CODE_LENGTH + 1 && u < Start(lens, k)
    ensures 1 <= j < k && Start(lens, j) <= u < Start(lens, j + 1)
    decreases k
  {
    j := k - 1;
    if u < Start(lens, k - 1) { j := SomeStretch(lens, u, k - 1); }
  }

  lemma SomeSymbol(lens: seq<byte>, u: nat)
    requires Complete(lens) && u < Pow2(MAX_CODE_LENGTH)
    ensures exists s: nat :: Decodes(lens, u, s)
  {
    var k := SomeStretch(lens, u, MAX_CODE_LENGTH + 1);
    var r := StretchDecodes(lens, k, u);
    assert Decodes(lens, u, Links(lens)[r]);
  }

  /** The symbol at the front of the bits. */
  ghost function SymbolAt(lens: seq<byte>, b: seq<bit>): (s: nat)
    requires Complete(lens) && |b| >= MAX_CODE_LENGTH
    ensures Decodes(lens, Val(b[..MAX_CODE_LENGTH]), s)
  {
    SomeSymbol(lens, Val(b[..MAX_CODE_LENGTH]));
    var s: nat :| Decodes(lens, Val(b[..MAX_CODE_LENGTH]), s);
    s
  }

  /** Where the groups of values stand. */
  datatype Place = Place(group: nat, refs: seq<TreeRef>, tree: nat, index: nat)

  ghost predicate ValidPlace(h: Head, p: Place) {
    && p.group < h.front.groups && ValidRefs(h, p.refs)
    && p.tree < |h.trees| && Complete(h.trees[p.tree]) && p.index <= GROUP_SIZE
  }

  function Bound(groups: nat): nat {
    if groups > MAX_GROUPS then MAX_GROUPS else groups
  }

  ghost function ReadGroups(h: Head, g: nat, refs: seq<TreeRef>, v: Values, b: seq<bit>): Outcome
    requires ValidHead(h) && ValidRefs(h, refs) && ValidValues(h, v) && g <= Bound(h.front.groups)
    decreases Bound(h.front.groups) - g, GROUP_SIZE + 1, 0
  {
    if g == Bound(h.front.groups) then Fails(ERR_UNTERM)
    else
      assert h.selectors[g] < h.front.trees;
      var i := h.selectors[g];
      match refs[i]
      case Rejected(status) => Fails(status)
      case Good(t) =>
        RefsMoved(h, refs, i);
        ReadValues(h, Place(g, RefToFront(refs, i), t, 0), v, b)
  }

  lemma RefsMoved(h: Head, refs: seq<TreeRef>, i: nat)
    requires ValidRefs(h, refs) && i < |refs|
    ensures ValidRefs(h, RefToFront(refs, i))
  {
    var r := RefToFront(refs, i);
    forall x {:trigger r[x]} | 0 <= x < |r| ensures ValidRef(h.trees, r[x]) {
      assert r[x] == if x == 0 then refs[i] else if x <= i then refs[x - 1] else refs[x];
    }
  }

  /** Does the pending run fit the block? */
  predicate Fits(v: Values) {
    |v.column| + v.run <= MAX_BLOCK_SIZE
  }

  /** The pending run written out. */
  function Dumped(v: Values): (c: seq<byte>)
    requires v.list != []
    ensures |c| == |v.column| + v.run
  {
    v.column + Repeat(v.list[0], v.run)
  }

  /** The end of the block. */
  function Finish(f: Front, v: Values, b: seq<bit>): Outcome
    requires v.list != []
  {
    if !Fits(v) then Fails(ERR_OVERFLOW)
    else if Dumped(v) == [] then Fails(ERR_EMPTY)
    else if f.idx >= |Dumped(v)| then Fails(ERR_BWTIDX)
    else Reads(f.rand, f.idx, Dumped(v), b)
  }

  ghost function ReadValues(h: Head, p: Place, v: Values, b: seq<bit>): Outcome
    requires ValidHead(h) && ValidPlace(h, p) && p.group < Bound(h.front.groups) && ValidValues(h, v)
    decreases Bound(h.front.groups) - p.group, GROUP_SIZE - p.index, 0
  {
    if p.index == GROUP_SIZE then ReadGroups(h, p.group + 1, p.refs, v, b)
    else if |b| < 32 then Fails(ERR_EOF)
    else
      var lens := h.trees[p.tree];
      var s := SymbolAt(lens, b);
      Value(h, p, v, s, b[lens[s]..])
  }

  /** One value: a run digit, a position in the list, or the end of the block. */
  ghost function Value(h: Head, p: Place, v: Values, s: nat, b: seq<bit>): Outcome
    requires ValidHead(h) && ValidPlace(h, p) && p.group < Bound(h.front.groups) && ValidValues(h, v)
    requires s < |h.front.used| + 2 && p.index < GROUP_SIZE
    decreases Bound(h.front.groups) - p.group, GROUP_SIZE - p.index - 1, 1
  {
    if s == |h.front.used| + 1 then Finish(h.front, v, b)
    else if s <= 1 && v.run <= MAX_BLOCK_SIZE then
      ReadValues(h, p.(index := p.index + 1), v.(run := v.run + (s + 1) * Pow2(v.shift), shift := v.shift + 1), b)
    else if s <= 1 || !Fits(v) then Fails(ERR_OVERFLOW)
    else ReadValues(h, p.(index := p.index + 1), Values(Dumped(v), ToFront(v.list, s - 1), 1, 0), b)
  }
}
