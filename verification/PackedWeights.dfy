/** Weights packed into 64-bit words: frequency above, depth and rank below, so that one
    comparison or addition handles them all. */
module PackedWeights {
  import opened Common
  import opened PackageMerge

  const WORD := 0x1_0000_0000
  const INFINITE: uint64 := 0xFFFF_FFFF_FFFF_FFFF

  function Unpack(x: uint64): Weight {
    Weight(x / WORD, x % WORD)
  }

  /** The sum of the frequencies above one more than the greater depth. */
  function WeightAdd(a: uint64, b: uint64): uint64 {
    var x, y := a % WORD / DEPTH_UNIT, b % WORD / DEPTH_UNIT;
    var sum := (a + b) / WORD * WORD;
    (sum + (if x < y then y else x) * DEPTH_UNIT + DEPTH_UNIT) % (WORD * WORD)
  }

  /** Far from overflowing. */
  predicate Small(x: uint64) {
    x < 0x4000_0000 * WORD && x % WORD < 0x4000_0000
  }

  lemma CompareWords(a: uint64, b: uint64)
    ensures a <= b <==> Leq(Unpack(a), Unpack(b))
  {
  }

  /** Adding words adds the weights they pack. */
  lemma AddWords(a: uint64, b: uint64)
    requires Small(a) && Small(b)
    ensures Unpack(WeightAdd(a, b)) == Add(Unpack(a), Unpack(b))
  {
    var f, g, r, s := a / WORD, b / WORD, a % WORD, b % WORD;
    assert a == f * WORD + r && b == g * WORD + s;
    assert (a + b) / WORD == f + g by { assert a + b == (f + g) * WORD + (r + s); }
    var x, y := r / DEPTH_UNIT, s / DEPTH_UNIT;
    var low := (if x < y then y else x) * DEPTH_UNIT + DEPTH_UNIT;
    assert low < WORD;
    assert WeightAdd(a, b) == (f + g) * WORD + low;
  }

  /** A finite word is small when its frequency is modest and its depth is low. */
  lemma SmallWord(x: uint64)
    requires Unpack(x).freq < 0x4000_0000 && Unpack(x).rank < 0x4000_0000
    ensures Small(x)
  {
  }
}
