/** The decoder's tables for one prefix code: direct lookup for short codes and a
    search of left-justified base codes for long ones. */
module DecodeTree {
  import opened Common
  import opened Powers
  import opened CountingSort
  import opened PrefixCode

  const HUFF_START_WIDTH := 10
  const START_SIZE := 0x400            // two to the power of the start width
  const CODE_SPACE := 0x10_0000        // two to the power of the longest code length
  const UNIT := 0x1000_0000_0000       // one share of the code space in a 64-bit word
  const MAX64 := 0xFFFF_FFFF_FFFF_FFFF

  const RUN_A := 257
  const RUN_B := 258
  const EOB := 0

  /** The decoder's own numbering of symbols: runs at the top, list positions as they
      are, end of block at zero. */
  function Internal(n: nat, s: nat): nat {
    if s == 0 then RUN_A else if s == 1 then RUN_B else if s + 1 < n then s - 1 else EOB
  }

  ghost predicate BaseTable(lens: seq<byte>, base: seq<int>) {
    && |base| == MAX_CODE_LENGTH + 2
    && forall k {:trigger base[k]} :: 1 <= k <= MAX_CODE_LENGTH + 1 ==>
         base[k] == if Start(lens, k) < CODE_SPACE then Start(lens, k) * UNIT else MAX64
  }

  ghost predicate CountTable(lens: seq<byte>, count: seq<nat>) {
    && |count| == MAX_CODE_LENGTH + 1
    && forall k {:trigger count[k]} :: 1 <= k <= MAX_CODE_LENGTH ==> count[k] == CountBelow(lens, k)
  }

  ghost predicate PermTable(lens: seq<byte>, perm: seq<nat>) {
    && |perm| >= |lens|
    && forall r {:trigger perm[r]} :: 0 <= r < |lens| ==> perm[r] == Internal(|lens|, Links(lens)[r])
  }

  /** Start entry `x` of prefix `c` names symbol `s` and the length of its code. */
  ghost predicate Immediate(lens: seq<byte>, c: nat, x: nat, s: nat) {
    && s < |lens| && 1 <= lens[s] <= HUFF_START_WIDTH
    && x == 0x20 * Internal(|lens|, s) + lens[s]
    && c / Pow2(HUFF_START_WIDTH - lens[s]) == Code(lens, s)
  }

  /** Start entry `x` of prefix `c` is a length that no code starting so goes below. */
  ghost predicate Deferred(lens: seq<byte>, c: nat, x: nat) {
    HUFF_START_WIDTH < x <= MAX_CODE_LENGTH && Start(lens, x) <= c * START_SIZE
  }

  ghost predicate StartTable(lens: seq<byte>, start: seq<nat>) {
    && |start| == START_SIZE
    && forall c {:trigger start[c]} :: 0 <= c < START_SIZE ==> StartEntry(lens, c, start[c])
  }

  ghost predicate StartEntry(lens: seq<byte>, c: nat, x: nat) {
    (exists s: nat :: Immediate(lens, c, x, s)) || Deferred(lens, c, x)
  }

  /** The sum the completeness check computes. */
  lemma SpaceTaken(lens: seq<byte>)
    ensures Start(lens, MAX_CODE_LENGTH + 1) == CODE_SPACE <==> Start(lens, MAX_CODE_LENGTH + 1) == Pow2(MAX_CODE_LENGTH)
  {
    Pow2Constants();
  }

  class Tree {
    const start: array<nat>
    const base: array<uint64>
    const count: array<nat>
    const perm: array<nat>

    constructor ()
      ensures Shaped()
      ensures fresh(start) && fresh(base) && fresh(count) && fresh(perm)
    {
      start := new nat[START_SIZE](i => 0);
      base := new uint64[MAX_CODE_LENGTH + 2](i => 0);
      count := new nat[MAX_CODE_LENGTH + 1](i => 0);
      perm := new nat[MAX_ALPHA_SIZE](i => 0);
    }

    ghost function Arrays(): set<object> {
      {start as object, base, count, perm}
    }

    ghost predicate Shaped() {
      && start.Length == START_SIZE && base.Length == MAX_CODE_LENGTH + 2
      && count.Length == MAX_CODE_LENGTH + 1 && perm.Length == MAX_ALPHA_SIZE
      && start != count && start != perm && count != perm
      && (base as object) != start && (base as object) != count && (base as object) != perm
    }

    /** The tables decode the complete code with lengths `lens`. */
    ghost predicate Tables(lens: seq<byte>)
      reads start, base, count, perm
    {
      && Shaped() && Complete(lens)
      && BaseTable(lens, base[..]) && CountTable(lens, count[..])
      && PermTable(lens, perm[..]) && StartTable(lens, start[..])
    }

    /** Tables stay while nothing writes to them. */
    twostate lemma TablesStay(lens: seq<byte>)
      requires old(Tables(lens)) && unchanged(start, base, count, perm)
      ensures Tables(lens)
    {
    }

    /** Counts the code lengths. */
    method CountLengths(lens: seq<byte>)
      requires Shaped() && Lengths(lens)
      modifies count
      ensures count[0] == 0
      ensures forall k {:trigger count[k]} :: 1 <= k <= MAX_CODE_LENGTH ==> count[k] == Count(lens, k)
    {
      for k := 0 to MAX_CODE_LENGTH + 1
        invariant forall j {:trigger count[j]} :: 0 <= j < k ==> count[j] == 0
      {
        count[k] := 0;
      }
      for s := 0 to |lens|
        invariant count[0] == 0
        invariant forall k {:trigger count[k]} :: 1 <= k <= MAX_CODE_LENGTH ==> count[k] == Count(lens[..s], k)
      {
        assert lens[..s + 1][..s] == lens[..s];
        count[lens[s]] := count[lens[s]] + 1;
      }
      assert lens[..|lens|] == lens;
    }

    /** The share of the code space taken by all codes. */
    method SumWidths(ghost lens: seq<byte>) returns (sofar: nat)
      requires Shaped()
      requires forall k {:trigger count[k]} :: 1 <= k <= MAX_CODE_LENGTH ==> count[k] == Count(lens, k)
      ensures sofar == Start(lens, MAX_CODE_LENGTH + 1)
    {
      sofar := 0;
      hide Count;
      for k := 1 to MAX_CODE_LENGTH + 1
        invariant sofar == Start(lens, k)
      {
        StartNext(lens, k);
        sofar := sofar + Times(count[k], Pow2(MAX_CODE_LENGTH - k));
      }
    }

    /** Left-justified base codes; the sum overflows to zero after the last length in
        use. */
    method SumBase(ghost lens: seq<byte>)
      requires Shaped() && Complete(lens)
      requires forall k {:trigger count[k]} :: 1 <= k <= MAX_CODE_LENGTH ==> count[k] == Count(lens, k)
      modifies base
      ensures forall j {:trigger base[j]} :: 1 <= j <= MAX_CODE_LENGTH ==> base[j] == Units(Start(lens, j))
    {
      hide Count, Pow2, Units, Wrap, Complete;
      SpaceTaken(lens);
      UnitsEnds();
      var sofar: uint64 := 0;
      for k := 1 to MAX_CODE_LENGTH + 1
        invariant sofar == Units(Start(lens, k))
        invariant forall j {:trigger base[j]} :: 1 <= j < k ==> base[j] == Units(Start(lens, j))
      {
        BaseNext(lens, k);
        var next := Wrap(sofar + Times(count[k], Pow2(64 - k)));
        assert next == 0 || next >= sofar;
        base[k] := sofar;
        sofar := next;
      }
      CompleteEnds(lens);
      assert sofar == 0;
    }

    /** Replaces the entries that overflowed by the greatest value. */
    method CapBase(ghost lens: seq<byte>)
      requires Shaped() && Complete(lens) && count[0] == 0
      requires forall k {:trigger count[k]} :: 1 <= k <= MAX_CODE_LENGTH ==> count[k] == Count(lens, k)
      requires forall j {:trigger base[j]} :: 1 <= j <= MAX_CODE_LENGTH ==> base[j] == Units(Start(lens, j))
      modifies base
      ensures BaseTable(lens, base[..])
    {
      hide Count, Pow2, Units, Wrap, Start, Complete;
      CompleteEnds(lens);
      var k := MAX_CODE_LENGTH + 1;
      base[k] := MAX64;
      k := k - 1;
      while count[k] == 0
        decreases k
        invariant 1 <= k <= MAX_CODE_LENGTH && Start(lens, k + 1) == CODE_SPACE
        invariant PartlyCapped(lens, base[..], k)
      {
        StartNext(lens, k);
        TimesNext(0, Pow2(MAX_CODE_LENGTH - k));
        StartOne(lens);
        assert Start(lens, k) == CODE_SPACE;
        assert k != 1;
        ghost var before := base[..];
        CapOne(lens, before, k);
        base[k] := MAX64;
        var cap: uint64 := MAX64;
        assert base[..] == before[k := cap];
        k := k - 1;
      }
      Capped(lens, base[..], k);
    }

    /** Counts become cumulative. */
    method Accumulate(ghost lens: seq<byte>)
      requires Shaped() && Lengths(lens) && count[0] == 0
      requires forall k {:trigger count[k]} :: 1 <= k <= MAX_CODE_LENGTH ==> count[k] == Count(lens, k)
      modifies count
      ensures count[0] == 0 && CountTable(lens, count[..])
    {
      NoneBelow(lens);
      hide Count, CountBelow;
      var cum := 0;
      for k := 1 to MAX_CODE_LENGTH + 1
        invariant cum == CountBelow(lens, k) && count[0] == 0
        invariant forall j {:trigger count[j]} :: 1 <= j < k ==> count[j] == CountBelow(lens, j)
        invariant forall j {:trigger count[j]} :: k <= j <= MAX_CODE_LENGTH ==> count[j] == Count(lens, j)
      {
        CountBelowStep(lens, k);
        var t1 := count[k];
        count[k] := cum;
        cum := cum + t1;
      }
      assert cum == |lens|;
    }

    /** Sorts the symbols stably by code length.  Every cumulative count moves on to
        the next length's. */
    method Sort(lens: seq<byte>, ghost place: seq<int>, ghost next: seq<int>)
      requires Shaped() && Lengths(lens) && count[0] == 0 && CountTable(lens, count[..])
      requires IsInverse(place, next) && |place| == |lens|
      requires forall s {:trigger Place(lens, s)} :: 0 <= s < |lens| ==> place[s] == Place(lens, s)
      modifies count, perm
      ensures count[0] == 0
      ensures forall k {:trigger count[k]} :: 1 <= k <= MAX_CODE_LENGTH ==> count[k] == CountBelow(lens, k + 1)
      ensures forall r {:trigger perm[r]} :: 0 <= r < |lens| ==> perm[r] == Internal(|lens|, next[r])
    {
      assert lens[..0] == [];
      for s := 0 to |lens|
        invariant count[0] == 0
        invariant forall k {:trigger count[k]} :: 1 <= k <= MAX_CODE_LENGTH ==>
          count[k] == CountBelow(lens, k) + Count(lens[..s], k)
        invariant forall r {:trigger perm[r]} :: 0 <= r < |lens| && next[r] < s ==> perm[r] == Internal(|lens|, next[r])
      {
        ghost var p := count[lens[s]];
        assert p == Place(lens, s);
        assert next[p] == s;
        CountNext(lens, s);
        perm[count[lens[s]]] := Internal(|lens|, s);
        count[lens[s]] := count[lens[s]] + 1;
      }
      assert lens[..|lens|] == lens;
      forall k | 1 <= k <= MAX_CODE_LENGTH ensures count[k] == CountBelow(lens, k + 1) {
        CountBelowStep(lens, k);
      }
    }

    /** Start entries of codes no longer than the start width. */
    method FillShort(lens: seq<byte>) returns (code: nat)
      requires Shaped() && Complete(lens) && PermTable(lens, perm[..]) && count[0] == 0
      requires forall k {:trigger count[k]} :: 1 <= k <= MAX_CODE_LENGTH ==> count[k] == CountBelow(lens, k + 1)
      modifies start
      ensures code <= START_SIZE && code * START_SIZE == Start(lens, HUFF_START_WIDTH + 1)
      ensures forall c {:trigger start[c]} :: 0 <= c < code ==> StartEntry(lens, c, start[c])
    {
      NoneBelow(lens);
      hide CountBelow, StartEntry, Start, FirstCode, Count;
      code := 0;
      StartsAtZero(lens);
      var inc := START_SIZE / 2;
      for k := 1 to HUFF_START_WIDTH + 1
        invariant inc == ShortWidth(k)
        invariant code <= START_SIZE && code * START_SIZE == Start(lens, k)
        invariant forall c {:trigger start[c]} :: 0 <= c < code ==> StartEntry(lens, c, start[c])
      {
        assert count[k - 1] == CountBelow(lens, k);
        code := FillLength(lens, k, inc, code);
        inc := inc / 2;
      }
    }

    /** The start entries of all codes of length `k`. */
    method FillLength(lens: seq<byte>, k: nat, inc: nat, code0: nat) returns (code: nat)
      requires Shaped() && Complete(lens) && PermTable(lens, perm[..])
      requires 1 <= k <= HUFF_START_WIDTH && inc == ShortWidth(k)
      requires count[k - 1] == CountBelow(lens, k) && count[k] == CountBelow(lens, k + 1)
      requires code0 * START_SIZE == Start(lens, k)
      requires forall c {:trigger start[c]} :: 0 <= c < code0 && c < START_SIZE ==> StartEntry(lens, c, start[c])
      modifies start
      ensures code <= START_SIZE && code * START_SIZE == Start(lens, k + 1)
      ensures forall c {:trigger start[c]} :: 0 <= c < code ==> StartEntry(lens, c, start[c])
    {
      ShortStretch(lens, k, code0);
      code := code0;
      CountBelowStep(lens, k);
      hide CountBelow, StartEntry, Start, FirstCode, Count, ShortWidth, Times;
      TimesNext(0, inc);
      for s := count[k - 1] to count[k]
        invariant code == code0 + Times(s - CountBelow(lens, k), inc)
        invariant forall c {:trigger start[c]} :: 0 <= c < code && c < START_SIZE ==> StartEntry(lens, c, start[c])
      {
        ghost var e := s - CountBelow(lens, k);
        TimesNext(e, inc);
        TimesMonotone(e + 1, Count(lens, k), inc);
        var x := perm[s] * 0x20 + k;
        ShortEntries(lens, k, s, code, x);
        FillCode(lens, code, inc, x);
        code := code + inc;
      }
    }

    /** The start entries of one code. */
    method FillCode(ghost lens: seq<byte>, code: nat, inc: nat, x: nat)
      requires Shaped() && code + inc <= START_SIZE
      requires forall v :: code <= v < code + inc ==> StartEntry(lens, v, x)
      requires forall c {:trigger start[c]} :: 0 <= c < code ==> StartEntry(lens, c, start[c])
      modifies start
      ensures forall c {:trigger start[c]} :: 0 <= c < code + inc ==> StartEntry(lens, c, start[c])
    {
      hide StartEntry;
      var v := code;
      while v < code + inc
        invariant code <= v <= code + inc
        invariant forall c {:trigger start[c]} :: 0 <= c < v ==> StartEntry(lens, c, start[c])
      {
        start[v] := x;
        v := v + 1;
      }
    }

    /** The remaining start entries: the length at which the search may begin. */
    method FillLong(lens: seq<byte>, code0: nat)
      requires Shaped() && Complete(lens) && BaseTable(lens, base[..])
      requires code0 <= START_SIZE && code0 * START_SIZE == Start(lens, HUFF_START_WIDTH + 1)
      requires forall c {:trigger start[c]} :: 0 <= c < code0 ==> StartEntry(lens, c, start[c])
      modifies start
      ensures StartTable(lens, start[..])
    {
      SpaceTaken(lens);
      hide Start, FirstCode, Count;
      var code, k := code0, HUFF_START_WIDTH + 1;
      var sofar := Wrap(code * (START_SIZE * UNIT));
      while code < START_SIZE
        invariant code <= START_SIZE && HUFF_START_WIDTH < k <= MAX_CODE_LENGTH
        invariant sofar == Wrap(code * (START_SIZE * UNIT))
        invariant Start(lens, k) <= code * START_SIZE
        invariant forall c {:trigger start[c]} :: 0 <= c < code ==> StartEntry(lens, c, start[c])
      {
        while sofar >= base[k + 1]
          invariant HUFF_START_WIDTH < k <= MAX_CODE_LENGTH && Start(lens, k) <= code * START_SIZE
          decreases MAX_CODE_LENGTH - k
        {
          k := k + 1;
        }
        start[code] := k;
        assert Deferred(lens, code, k);
        code := code + 1;
        sofar := Wrap(sofar + START_SIZE * UNIT);
      }
      assert sofar == 0;
    }

    /** Moves every cumulative count back to its own length. */
    method Restore(ghost lens: seq<byte>)
      requires Shaped() && Lengths(lens) && count[0] == 0
      requires forall k {:trigger count[k]} :: 1 <= k <= MAX_CODE_LENGTH ==> count[k] == CountBelow(lens, k + 1)
      modifies count
      ensures CountTable(lens, count[..])
    {
      NoneBelow(lens);
      hide CountBelow;
      var k := MAX_CODE_LENGTH;
      while k > 0
        invariant 0 <= k <= MAX_CODE_LENGTH && count[0] == 0
        invariant forall j {:trigger count[j]} :: 1 <= j <= k ==> count[j] == CountBelow(lens, j + 1)
        invariant forall j {:trigger count[j]} :: k < j <= MAX_CODE_LENGTH ==> count[j] == CountBelow(lens, j)
      {
        count[k] := count[k - 1];
        k := k - 1;
      }
    }

    /** Makes the tables of the code with the given lengths, or reports that the code
        is incomplete or oversubscribed. */
    method Make(lens: seq<byte>) returns (st: Status)
      requires Shaped() && Lengths(lens)
      modifies start, base, count, perm
      ensures st == OK <==> Complete(lens)
      ensures st == OK ==> Tables(lens)
      ensures Start(lens, MAX_CODE_LENGTH + 1) < Pow2(MAX_CODE_LENGTH) <==> st == ERR_INCOMPLT
      ensures Start(lens, MAX_CODE_LENGTH + 1) > Pow2(MAX_CODE_LENGTH) <==> st == ERR_PREFIX
    {
      Pow2Constants();
      hide Start, Count, CountBelow, StartEntry, Pow2;
      CountLengths(lens);
      var sofar := SumWidths(lens);
      if sofar != CODE_SPACE {
        return if sofar < CODE_SPACE then ERR_INCOMPLT else ERR_PREFIX;
      }
      BuildTables(lens);
      st := OK;
    }

    method BuildTables(lens: seq<byte>)
      requires Shaped() && Complete(lens) && count[0] == 0
      requires forall k {:trigger count[k]} :: 1 <= k <= MAX_CODE_LENGTH ==> count[k] == Count(lens, k)
      modifies start, base, count, perm
      ensures Tables(lens)
    {
      ghost var place, next := Ranking(lens);
      hide Start, Count, CountBelow, StartEntry, Pow2, Units, Place;
      SumBase(lens);
      CapBase(lens);
      Accumulate(lens);
      Sort(lens, place, next);
      var code := FillShort(lens);
      FillLong(lens, code);
      Restore(lens);
    }

    /** The length of a code longer than the start width, by comparison with the base
        codes. */
    method SearchLength(v: uint64, k0: nat, ghost lens: seq<byte>) returns (k: nat)
      requires Tables(lens) && v < MAX64
      requires HUFF_START_WIDTH < k0 <= MAX_CODE_LENGTH && Start(lens, k0) <= v / UNIT
      ensures k0 <= k <= MAX_CODE_LENGTH && Start(lens, k) <= v / UNIT < Start(lens, k + 1)
    {
      hide Start, StartTable, PermTable, CountTable;
      k := k0;
      BaseCompare(lens, base[..], v, k + 1);
      while v >= base[k + 1]
        invariant k0 <= k <= MAX_CODE_LENGTH && Start(lens, k) <= v / UNIT
        invariant v >= base[k + 1] <==> Start(lens, k + 1) <= v / UNIT
        invariant k == MAX_CODE_LENGTH ==> v < base[k + 1]
        decreases MAX_CODE_LENGTH - k
      {
        k := k + 1;
        BaseCompare(lens, base[..], v, k + 1);
      }
    }

    /** Decodes the symbol at the front of the bit buffer `v`. */
    method Lookup(v: uint64, ghost lens: seq<byte>) returns (symbol: nat, k: nat, ghost s: nat)
      requires Tables(lens) && v < MAX64
      ensures Decodes(lens, v / UNIT, s)
      ensures symbol == Internal(|lens|, s) && k == lens[s]
    {
      Halves(v);
      var x := start[v / (START_SIZE * UNIT)];
      k := x % 0x20;
      EntryCases(lens, v, start[..], x);
      hide Start, StartTable, StartEntry;
      if k <= HUFF_START_WIDTH {
        s := ShortLookup(lens, v, x);
        symbol := x / 0x20;
      } else {
        k := SearchLength(v, k, lens);
        ghost var i;
        s, i := LongLookup(lens, base[..], count[..], perm[..], v, k);
        var offset := (v - base[k]) / Pow2(64 - k);
        assert offset == i;
        symbol := perm[count[k] + offset];
      }
    }
  }

  lemma Ranking(lens: seq<byte>) returns (place: seq<int>, next: seq<int>)
    ensures |place| == |lens| && IsInverse(place, next) && next == Links(lens)
    ensures forall s {:trigger Place(lens, s)} :: 0 <= s < |lens| ==> place[s] == Place(lens, s)
  {
    place, next := Places(lens), Links(lens);
    LinksInvertPlaces(lens);
  }

  lemma Halves(v: uint64)
    ensures v / (START_SIZE * UNIT) < START_SIZE && v / UNIT < CODE_SPACE
    ensures v / UNIT / START_SIZE == v / (START_SIZE * UNIT)
    ensures v / (START_SIZE * UNIT) * START_SIZE <= v / UNIT
  {
  }

  lemma EntryCases(lens: seq<byte>, v: uint64, start: seq<nat>, x: nat)
    requires StartTable(lens, start) && Lengths(lens)
    requires v / (START_SIZE * UNIT) < START_SIZE && x == start[v / (START_SIZE * UNIT)]
    ensures StartEntry(lens, v / (START_SIZE * UNIT), x)
    ensures x % 0x20 > HUFF_START_WIDTH ==> x % 0x20 <= MAX_CODE_LENGTH && Start(lens, x % 0x20) <= v / UNIT
  {
    Halves(v);
    var c := v / (START_SIZE * UNIT);
    hide Start, Links;
    assert StartEntry(lens, c, x);
    if s: nat :| Immediate(lens, c, x, s) {
      Fields(x, Internal(|lens|, s), lens[s]);
    } else {
      assert Deferred(lens, c, x);
    }
  }

  lemma Fields(x: nat, symbol: nat, k: nat)
    requires x == 0x20 * symbol + k && k < 0x20
    ensures x % 0x20 == k && x / 0x20 == symbol
  {
  }

  /** Comparing the buffer with a base code is comparing shares of the code space. */
  lemma BaseCompare(lens: seq<byte>, base: seq<uint64>, v: uint64, k: nat)
    requires Complete(lens) && BaseTable(lens, base) && v < MAX64 && 1 <= k <= MAX_CODE_LENGTH + 1
    ensures v >= base[k] <==> Start(lens, k) <= v / UNIT
    ensures k == MAX_CODE_LENGTH + 1 ==> v < base[k]
  {
    CompleteEnds(lens);
    StartMonotone(lens, k, MAX_CODE_LENGTH + 1);
    hide Start;
    Halves(v);
    QuotientCompare(v, UNIT, Start(lens, k));
  }

  lemma LongLookup(lens: seq<byte>, base: seq<uint64>, count: seq<nat>, perm: seq<nat>, v: uint64, k: nat)
    returns (s: nat, i: nat)
    requires Complete(lens) && BaseTable(lens, base) && CountTable(lens, count) && PermTable(lens, perm)
    requires 1 <= k <= MAX_CODE_LENGTH && Start(lens, k) <= v / UNIT < Start(lens, k + 1)
    ensures v >= base[k] && (v - base[k]) / Pow2(64 - k) == i
    ensures count[k] + i < |perm|
    ensures Decodes(lens, v / UNIT, s) && lens[s] == k && perm[count[k] + i] == Internal(|lens|, s)
  {
    Halves(v);
    var r := StretchDecodes(lens, k, v / UNIT);
    s := Links(lens)[r];
    i := r - CountBelow(lens, k);
    hide Start, CountBelow, Links;
    assert base[k] == Start(lens, k) * UNIT;
    OffsetInWord(v, Start(lens, k), k);
  }

  lemma OffsetInWord(v: uint64, start: nat, k: nat)
    requires 1 <= k <= MAX_CODE_LENGTH && start <= v / UNIT
    ensures v >= start * UNIT
    ensures (v - start * UNIT) / Pow2(64 - k) == (v / UNIT - start) / Pow2(MAX_CODE_LENGTH - k)
  {
    QuotientCompare(v, UNIT, start);
    QuotientAdd(v - start * UNIT, UNIT, start);
    UnitIsPower();
    Pow2Add(44, MAX_CODE_LENGTH - k);
    QuotientTwice(v - start * UNIT, UNIT, Pow2(MAX_CODE_LENGTH - k));
  }

  lemma ShortLookup(lens: seq<byte>, v: uint64, x: nat) returns (s: nat)
    requires StartEntry(lens, v / (START_SIZE * UNIT), x) && x % 0x20 <= HUFF_START_WIDTH && Lengths(lens)
    ensures Decodes(lens, v / UNIT, s) && x / 0x20 == Internal(|lens|, s) && x % 0x20 == lens[s]
  {
    var c := v / (START_SIZE * UNIT);
    s :| Immediate(lens, c, x, s);
    Fields(x, Internal(|lens|, s), lens[s]);
    ShortDecodes(lens, v, c, x, s);
  }

  lemma ShortDecodes(lens: seq<byte>, v: uint64, c: nat, x: nat, s: nat)
    requires Lengths(lens) && Immediate(lens, c, x, s) && c == v / (START_SIZE * UNIT)
    ensures Decodes(lens, v / UNIT, s)
  {
    Halves(v);
    var k: nat := lens[s];
    Pow2Constants();
    Pow2Add(HUFF_START_WIDTH, HUFF_START_WIDTH - k);
    hide Code, Pow2;
    QuotientTwice(v / UNIT, START_SIZE, Pow2(HUFF_START_WIDTH - k));
  }

  /** How many start entries a code of length `k` fills. */
  function ShortWidth(k: nat): nat {
    if k > HUFF_START_WIDTH then 0 else Pow2(HUFF_START_WIDTH - k)
  }

  lemma TimesNext(a: nat, b: nat)
    ensures Times(0, b) == 0 && Times(a + 1, b) == Times(a, b) + b
  {
  }

  lemma TimesMonotone(a: nat, b: nat, w: nat)
    requires a <= b
    ensures Times(a, w) <= Times(b, w)
  {
  }

  /** Codes of length `k` fill start entries from `code0` on. */
  lemma ShortStretch(lens: seq<byte>, k: nat, code0: nat)
    requires Complete(lens) && 1 <= k <= HUFF_START_WIDTH && code0 * START_SIZE == Start(lens, k)
    ensures var end := code0 + Times(Count(lens, k), ShortWidth(k));
      end <= START_SIZE && end * START_SIZE == Start(lens, k + 1)
    ensures code0 == Times(FirstCode(lens, k), ShortWidth(k))
  {
    SpaceTaken(lens);
    StartNext(lens, k);
    StartMonotone(lens, k + 1, MAX_CODE_LENGTH + 1);
    StartFirst(lens, k);
    Pow2Constants();
    Pow2Add(HUFF_START_WIDTH - k, HUFF_START_WIDTH);
    Scale(Count(lens, k), ShortWidth(k));
    Scale(FirstCode(lens, k), ShortWidth(k));
    hide Count, Start, FirstCode, Pow2;
  }

  lemma TimesAdd(a: nat, b: nat, w: nat)
    ensures (a + b) * w == Times(a, w) + Times(b, w)
  {
  }

  lemma Scale(c: nat, w: nat)
    ensures Times(c, w * START_SIZE) == Times(c, w) * START_SIZE == c * (w * START_SIZE)
  {
  }

  /** The entries of one short code. */
  lemma ShortEntries(lens: seq<byte>, k: nat, r: nat, code: nat, x: nat)
    requires Lengths(lens) && 1 <= k <= HUFF_START_WIDTH
    requires CountBelow(lens, k) <= r < CountBelow(lens, k + 1) <= |lens|
    requires x == Internal(|lens|, Links(lens)[r]) * 0x20 + k
    requires code == Times(FirstCode(lens, k), ShortWidth(k)) + Times(r - CountBelow(lens, k), ShortWidth(k))
    ensures forall v :: code <= v < code + ShortWidth(k) ==> StartEntry(lens, v, x)
  {
    RankSymbol(lens, r, k);
    var s, w := Links(lens)[r], ShortWidth(k);
    TimesAdd(FirstCode(lens, k), r - CountBelow(lens, k), w);
    hide CountBelow, Count, FirstCode, Links, Start, Times, Code;
    forall v | code <= v < code + w ensures StartEntry(lens, v, x) {
      QuotientIff(v, w, Code(lens, s));
      assert Immediate(lens, v, x, s);
    }
  }

  lemma StartsAtZero(lens: seq<byte>)
    ensures Start(lens, 1) == 0 && ShortWidth(1) == START_SIZE / 2
    ensures forall k {:trigger ShortWidth(k)} :: 1 <= k <= HUFF_START_WIDTH ==> ShortWidth(k + 1) == ShortWidth(k) / 2
  {
    Pow2Constants();
  }

  lemma {:induction false} NoneBelowIn(lens: seq<byte>)
    requires forall s :: 0 <= s < |lens| ==> MIN_CODE_LENGTH <= lens[s] <= MAX_CODE_LENGTH
    ensures CountBelow(lens, 1) == 0 && CountBelow(lens, MAX_CODE_LENGTH + 1) == |lens|
  {
    if lens != [] { NoneBelowIn(lens[..|lens| - 1]); }
  }

  lemma NoneBelow(lens: seq<byte>)
    requires Lengths(lens)
    ensures CountBelow(lens, 1) == 0 && CountBelow(lens, MAX_CODE_LENGTH + 1) == |lens|
  {
    NoneBelowIn(lens);
  }

  /** The entries above `k` have overflowed and been replaced. */
  ghost predicate PartlyCapped(lens: seq<byte>, base: seq<uint64>, k: int) {
    && |base| == MAX_CODE_LENGTH + 2
    && forall j {:trigger base[j]} :: 1 <= j <= MAX_CODE_LENGTH + 1 ==>
         if j <= k then base[j] == Units(Start(lens, j)) else base[j] == MAX64 && Start(lens, j) == CODE_SPACE
  }

  lemma CapOne(lens: seq<byte>, base: seq<uint64>, k: nat)
    requires 1 <= k <= MAX_CODE_LENGTH && PartlyCapped(lens, base, k) && Start(lens, k) == CODE_SPACE
    ensures var cap: uint64 := MAX64; PartlyCapped(lens, base[k := cap], k - 1)
  {
    var cap: uint64 := MAX64;
    var capped := base[k := cap];
    forall j {:trigger capped[j]} | 1 <= j <= MAX_CODE_LENGTH + 1
      ensures if j <= k - 1 then capped[j] == Units(Start(lens, j)) else capped[j] == MAX64 && Start(lens, j) == CODE_SPACE
    {
      assert j != k ==> capped[j] == base[j];
    }
    assert PartlyCapped(lens, capped, k - 1);
  }

  lemma StartOne(lens: seq<byte>)
    ensures Start(lens, 1) == 0
  {
  }

  lemma Capped(lens: seq<byte>, base: seq<uint64>, k: nat)
    requires Complete(lens) && 1 <= k <= MAX_CODE_LENGTH && Count(lens, k) != 0
    requires PartlyCapped(lens, base, k)
    ensures BaseTable(lens, base)
  {
    BelowLast(lens, k);
    hide Start, Units, Count;
  }

  /** What a 64-bit register keeps of `x`. */
  function Wrap(x: nat): uint64 {
    x % 0x1_0000_0000_0000_0000
  }

  /** `n` shares of the code space in a 64-bit register; all of it overflows to zero. */
  function Units(n: nat): uint64
  {
    if n < CODE_SPACE then n * UNIT else 0
  }

  lemma CompleteEnds(lens: seq<byte>)
    requires Complete(lens)
    ensures Start(lens, MAX_CODE_LENGTH + 1) == CODE_SPACE
  {
    SpaceTaken(lens);
  }

  lemma UnitsEnds()
    ensures Units(0) == 0 && Units(CODE_SPACE) == 0
    ensures forall n :: 0 <= n < CODE_SPACE ==> Units(n) == n * UNIT
  {
  }

  lemma UnitsAdd(a: nat, b: nat)
    requires a + b <= CODE_SPACE
    ensures Wrap(Units(a) + b * UNIT) == Units(a + b)
    ensures Units(a + b) == 0 || Units(a + b) >= Units(a)
  {
  }

  lemma BaseNext(lens: seq<byte>, k: nat)
    requires Complete(lens) && 1 <= k <= MAX_CODE_LENGTH
    ensures Start(lens, k + 1) <= CODE_SPACE
    ensures Wrap(Units(Start(lens, k)) + Times(Count(lens, k), Pow2(64 - k))) == Units(Start(lens, k + 1))
    ensures Units(Start(lens, k + 1)) == 0 || Units(Start(lens, k + 1)) >= Units(Start(lens, k))
  {
    SpaceTaken(lens);
    StartNext(lens, k);
    StartMonotone(lens, k + 1, MAX_CODE_LENGTH + 1);
    WordShare(Count(lens, k), k);
    UnitsAdd(Start(lens, k), Times(Count(lens, k), Pow2(MAX_CODE_LENGTH - k)));
    hide *;
  }

  /** `c` codes of length `k`, in a 64-bit word. */
  lemma WordShare(c: nat, k: nat)
    requires 1 <= k <= MAX_CODE_LENGTH
    ensures Times(c, Pow2(64 - k)) == Times(c, Pow2(MAX_CODE_LENGTH - k)) * UNIT
  {
    UnitIsPower();
    Pow2Add(MAX_CODE_LENGTH - k, 44);
    hide Pow2;
    assert c * (Pow2(MAX_CODE_LENGTH - k) * UNIT) == c * Pow2(MAX_CODE_LENGTH - k) * UNIT;
  }

  lemma UnitIsPower()
    ensures Pow2(44) == UNIT
  {
    Pow2Constants();
    Pow2Add(20, 24);
  }

  /** Up to the last length in use nothing has overflowed. */
  lemma BelowLast(lens: seq<byte>, k: nat)
    requires Complete(lens) && 1 <= k <= MAX_CODE_LENGTH && Count(lens, k) != 0
    ensures forall j {:trigger Start(lens, j)} :: 1 <= j <= k ==>
      Start(lens, j) < CODE_SPACE && Units(Start(lens, j)) == Start(lens, j) * UNIT
  {
    SpaceTaken(lens);
    StartNext(lens, k);
    StartMonotone(lens, k + 1, MAX_CODE_LENGTH + 1);
    Positive(Count(lens, k), Pow2(MAX_CODE_LENGTH - k));
    hide Pow2, Times, Count;
    forall j | 1 <= j <= k ensures Start(lens, j) < CODE_SPACE {
      StartMonotone(lens, j, k);
    }
  }

  lemma Positive(a: nat, b: nat)
    requires a > 0 && b > 0
    ensures Times(a, b) > 0
  {
  }
}
