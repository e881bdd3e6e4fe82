/** The checksum is a remainder: polynomials over the two-element field as lists of
    coefficients, divided in the schoolbook way. */
module Polynomials {
  import opened Common
  import opened Powers
  import opened Bits
  import opened Crc

  function Sum(a: bit, b: bit): bit {
    if a == b then 0 else 1
  }

  /** The sum of two polynomials. */
  function Plus(a: seq<bit>, b: seq<bit>): (c: seq<bit>)
    requires |a| == |b|
    ensures |c| == |a| && forall i {:trigger c[i]} :: 0 <= i < |a| ==> c[i] == Sum(a[i], b[i])
  {
    seq(|a|, (i: int) requires 0 <= i < |a| => Sum(a[i], b[i]))
  }

  function Zeros(n: nat): (z: seq<bit>)
    ensures |z| == n && forall i {:trigger z[i]} :: 0 <= i < n ==> z[i] == 0
  {
    if n == 0 then [] else Zeros(n - 1) + [0]
  }

  /** The polynomial without its leading term: its exponents are 32 and these. */
  const EXPONENTS: set<int> := {26, 23, 22, 16, 12, 11, 10, 8, 7, 5, 4, 2, 1, 0}

  function Divisor(): (p: seq<bit>)
    ensures |p| == 32 && forall i {:trigger p[i]} :: 0 <= i < 32 ==> p[i] == if 31 - i in EXPONENTS then 1 else 0
  {
    seq(32, (i: int) requires 0 <= i < 32 => if 31 - i in EXPONENTS then 1 else 0)
  }

  /** Long division, which takes the multiple of the divisor off that cancels the leading
      term, until fewer than 33 terms are left. */
  function Remainder(a: seq<bit>): (r: seq<bit>)
    ensures |r| == if |a| < 32 then |a| else 32
    decreases |a|
  {
    if |a| <= 32 then a
    else if a[0] == 0 then Remainder(a[1..])
    else Remainder(Plus(a[1..33], Divisor()) + a[33..])
  }

  function MessageBits(bytes: seq<byte>): (b: seq<bit>)
    ensures |b| == 8 * |bytes|
  {
    if bytes == [] then [] else MessageBits(bytes[..|bytes| - 1]) + ToBits(bytes[|bytes| - 1], 8)
  }

  lemma PlusConcat(a: seq<bit>, b: seq<bit>, c: seq<bit>, d: seq<bit>)
    requires |a| == |b| && |c| == |d|
    ensures Plus(a + c, b + d) == Plus(a, b) + Plus(c, d)
  {
  }

  lemma PlusZeros(a: seq<bit>)
    ensures Plus(a, Zeros(|a|)) == a && Plus(Zeros(|a|), a) == a
  {
  }

  lemma PlusMixed(a: seq<bit>, b: seq<bit>, c: seq<bit>)
    requires |a| == |b| == |c|
    ensures Plus(Plus(a, b), c) == Plus(a, Plus(b, c)) && Plus(a, b) == Plus(b, a)
  {
  }

  // ----- a bit at a time -----

  /** The register after one more bit of the message. */
  function BitStep(c: seq<bit>, m: bit): (d: seq<bit>)
    requires |c| == 32
    ensures |d| == 32
  {
    if c[0] == m then c[1..] + [0] else Plus(c[1..] + [0], Divisor())
  }

  function Serial(c: seq<bit>, m: seq<bit>): (d: seq<bit>)
    requires |c| == 32
    ensures |d| == 32
    decreases |m|
  {
    if m == [] then c else Serial(BitStep(c, m[0]), m[1..])
  }

  /** The list with the register added to its leading terms. */
  function Front(a: seq<bit>, c: seq<bit>): (b: seq<bit>)
    requires |a| >= 32 == |c|
    ensures |b| == |a|
  {
    Plus(a[..32], c) + a[32..]
  }

  /** One step of the division is one step of the register. */
  lemma DivideStep(a: seq<bit>, c: seq<bit>)
    requires |a| > 32 == |c|
    ensures Remainder(Front(a, c)) == Remainder(Front(a[1..], BitStep(c, a[0])))
  {
    var f, d := Front(a, c), c[1..] + [0];
    assert f[0] == Sum(a[0], c[0]);
    assert f[1..33] == Plus(a[1..33], d);
    assert f[33..] == a[33..] && a[1..][..32] == a[1..33] && a[1..][32..] == a[33..];
    if c[0] == a[0] {
      assert f[1..] == f[1..33] + f[33..];
    } else {
      PlusMixed(a[1..33], d, Divisor());
    }
  }

  lemma {:induction false} SerialDivides(c: seq<bit>, m: seq<bit>)
    requires |c| == 32
    ensures Remainder(Front(m + Zeros(32), c)) == Serial(c, m)
    decreases |m|
  {
    var a := m + Zeros(32);
    if m == [] {
      assert a == Zeros(32);
      PlusZeros(c);
      assert Front(a, c) == c;
    } else {
      DivideStep(a, c);
      assert a[1..] == m[1..] + Zeros(32);
      SerialDivides(BitStep(c, m[0]), m[1..]);
    }
  }

  lemma {:induction false} SerialConcat(c: seq<bit>, m: seq<bit>, n: seq<bit>)
    requires |c| == 32
    ensures Serial(c, m + n) == Serial(Serial(c, m), n)
    decreases |m|
  {
    if m == [] {
      assert m + n == n;
    } else {
      assert (m + n)[1..] == m[1..] + n;
      SerialConcat(BitStep(c, m[0]), m[1..], n);
    }
  }

  // ----- a byte at a time -----

  /** Steps that take no message in. */
  function Steps(c: seq<bit>, k: nat): (d: seq<bit>)
    requires |c| == 32
    ensures |d| == 32
    decreases k
  {
    if k == 0 then c else Steps(BitStep(c, 0), k - 1)
  }

  /** A message may be added to the register at once. */
  lemma {:induction false} SerialAdds(c: seq<bit>, m: seq<bit>)
    requires |c| == 32 >= |m|
    ensures Serial(c, m) == Steps(Plus(c, m + Zeros(32 - |m|)), |m|)
    decreases |m|
  {
    if m == [] {
      assert m + Zeros(32) == Zeros(32);
      PlusZeros(c);
    } else {
      var p := m + Zeros(32 - |m|);
      assert p[1..] + [0] == m[1..] + Zeros(32 - |m| + 1);
      StepAdds(c, p);
      SerialAdds(BitStep(c, m[0]), m[1..]);
    }
  }

  lemma StepAdds(c: seq<bit>, p: seq<bit>)
    requires |c| == 32 == |p|
    ensures BitStep(Plus(c, p), 0) == Plus(BitStep(c, p[0]), p[1..] + [0])
  {
    var x, y := c[1..] + [0], p[1..] + [0];
    assert Plus(c, p)[1..] + [0] == Plus(x, y);
    PlusMixed(x, y, Divisor());
    PlusMixed(x, Divisor(), y);
    PlusMixed(Divisor(), y, x);
  }

  lemma {:induction false} StepsAdd(c: seq<bit>, d: seq<bit>, k: nat)
    requires |c| == 32 == |d|
    ensures Steps(Plus(c, d), k) == Plus(Steps(c, k), Steps(d, k))
    decreases k
  {
    if k > 0 {
      StepAdd(c, d);
      StepsAdd(BitStep(c, 0), BitStep(d, 0), k - 1);
    }
  }

  lemma StepAdd(c: seq<bit>, d: seq<bit>)
    requires |c| == 32 == |d|
    ensures BitStep(Plus(c, d), 0) == Plus(BitStep(c, 0), BitStep(d, 0))
  {
    var x, y, q := c[1..] + [0], d[1..] + [0], Divisor();
    assert Plus(c, d)[1..] + [0] == Plus(x, y);
    StepCases(x, y, q);
  }

  lemma StepCases(x: seq<bit>, y: seq<bit>, q: seq<bit>)
    requires |x| == |y| == |q|
    ensures Plus(Plus(x, q), y) == Plus(Plus(x, y), q) == Plus(x, Plus(y, q))
    ensures Plus(Plus(x, q), Plus(y, q)) == Plus(x, y)
  {
  }

  /** Leading zeros are shifted out. */
  lemma {:induction false} StepsShift(v: seq<bit>, k: nat)
    requires |v| + k == 32
    ensures Steps(Zeros(k) + v, k) == v + Zeros(k)
    decreases k
  {
    if k == 0 {
      assert Zeros(0) + v == v == v + Zeros(0);
    } else {
      assert Zeros(k)[1..] == Zeros(k - 1);
      assert (Zeros(k) + v)[1..] + [0] == Zeros(k - 1) + (v + [0]);
      StepsShift(v + [0], k - 1);
      assert [0] + Zeros(k - 1) == Zeros(k);
      assert v + [0] + Zeros(k - 1) == v + Zeros(k);
    }
  }

  // ----- numbers and lists -----

  lemma {:induction false} XorIsPlus(n: nat, a: nat, b: nat)
    ensures XorBits(n, a, b) < Pow2(n)
    ensures ToBits(XorBits(n, a, b), n) == Plus(ToBits(a, n), ToBits(b, n))
    decreases n
  {
    if n > 0 {
      XorIsPlus(n - 1, a / 2, b / 2);
      XorHalves(n, a, b);
      PlusConcat(ToBits(a / 2, n - 1), ToBits(b / 2, n - 1), [a % 2], [b % 2]);
      assert Plus([a % 2], [b % 2]) == [Sum(a % 2, b % 2)];
    }
  }

  lemma XorHalves(n: nat, a: nat, b: nat)
    requires n > 0
    ensures var x := XorBits(n, a, b); x / 2 == XorBits(n - 1, a / 2, b / 2) && x % 2 == (a + b) % 2 == Sum(a % 2, b % 2)
  {
  }

  lemma {:induction false} ZeroBits(k: nat)
    ensures ToBits(0, k) == Zeros(k)
  {
    if k > 0 { ZeroBits(k - 1); }
  }

  // ----- the checksum -----

  lemma Nibble(x: nat, a: bit, b: bit, c: bit, d: bit)
    requires x / 8 == a && x / 4 % 2 == b && x / 2 % 2 == c && x % 2 == d
    ensures ToBits(x, 4) == [a, b, c, d]
  {
    assert x / 2 / 2 == x / 4 && x / 2 / 2 / 2 == x / 8;
    assert ToBits(x / 8, 1) == [a];
    assert ToBits(x / 4, 2) == [a, b];
    assert ToBits(x / 2, 3) == [a, b, c];
  }

  lemma DivisorBytes()
    ensures ToBits(0x04, 8) == [0, 0, 0, 0, 0, 1, 0, 0] && ToBits(0xC1, 8) == [1, 1, 0, 0, 0, 0, 0, 1]
    ensures ToBits(0x1D, 8) == [0, 0, 0, 1, 1, 1, 0, 1] && ToBits(0xB7, 8) == [1, 0, 1, 1, 0, 1, 1, 1]
  {
    hide ToBits, Pow2;
    assert Pow2(4) == 16 by { Pow2Four(); }
    Pow2Constants();
    JoinBits(0x0, 4, 0x4, 4, 0x04);
    JoinBits(0xC, 4, 0x1, 4, 0xC1);
    JoinBits(0x1, 4, 0xD, 4, 0x1D);
    JoinBits(0xB, 4, 0x7, 4, 0xB7);
    Nibble(0x0, 0, 0, 0, 0);
    Nibble(0x4, 0, 1, 0, 0);
    Nibble(0xC, 1, 1, 0, 0);
    Nibble(0x1, 0, 0, 0, 1);
    Nibble(0xD, 1, 1, 0, 1);
    Nibble(0xB, 1, 0, 1, 1);
    Nibble(0x7, 0, 1, 1, 1);
  }

  lemma Pow2Four()
    ensures Pow2(4) == 16
  {
  }

  lemma DivisorNumber()
    ensures ToBits(0x04C1_1DB7, 32) == Divisor()
  {
    hide ToBits, Pow2;
    DivisorBytes();
    Pow2Constants();
    JoinBits(0x04C1, 16, 0x1DB7, 16, 0x04C1_1DB7);
    JoinBits(0x04, 8, 0xC1, 8, 0x04C1);
    JoinBits(0x1D, 8, 0xB7, 8, 0x1DB7);
    DivisorAt();
  }

  lemma DivisorAt()
    ensures Divisor() == [0, 0, 0, 0, 0, 1, 0, 0] + [1, 1, 0, 0, 0, 0, 0, 1] + ([0, 0, 0, 1, 1, 1, 0, 1] + [1, 0, 1, 1, 0, 1, 1, 1])
  {
  }

  /** One step of the register as a number. */
  lemma RegisterStep(r: uint32)
    ensures var q := if r >= 0x8000_0000 then XorBits(32, r * 2 % 0x1_0000_0000, 0x04C1_1DB7) else r * 2;
      q < 0x1_0000_0000 && ToBits(q, 32) == BitStep(ToBits(r, 32), 0)
  {
    hide ToBits, XorBits, Pow2, Divisor;
    RegisterParts(r);
    var low := r % 0x8000_0000;
    XorIsPlus(32, low * 2, 0x04C1_1DB7);
    DivisorNumber();
    Pow2Constants();
    assert ToBits(r, 32)[1..] == ToBits(low, 31);
  }

  lemma RegisterParts(r: uint32)
    ensures var low := r % 0x8000_0000; var top: bit := r / 0x8000_0000;
      && r * 2 % 0x1_0000_0000 == low * 2 && (top == 0 ==> r * 2 == low * 2) && (top == 1 <==> r >= 0x8000_0000)
      && ToBits(r, 32) == [top] + ToBits(low, 31) && ToBits(low * 2, 32) == ToBits(low, 31) + [0]
  {
    hide ToBits, Pow2;
    HalfPower();
    Pow2Constants();
    JoinBits(r / 0x8000_0000, 1, r % 0x8000_0000, 31, r);
    OneBit(r / 0x8000_0000);
    LastBit(r % 0x8000_0000, 31);
  }

  lemma HalfPower()
    ensures Pow2(31) == 0x8000_0000
  {
    Pow2Constants();
  }

  lemma OneBit(b: bit)
    ensures ToBits(b, 1) == [b]
  {
  }

  lemma LastBit(x: nat, n: nat)
    ensures ToBits(x * 2, n + 1) == ToBits(x, n) + [0]
  {
    assert x * 2 / 2 == x && x * 2 % 2 == 0;
  }

  lemma {:induction false} DivideIsSteps(r: uint32, k: nat)
    ensures Divide(r, k) < 0x1_0000_0000 && ToBits(Divide(r, k), 32) == Steps(ToBits(r, 32), k)
    decreases k
  {
    hide ToBits, XorBits, BitStep;
    if k > 0 {
      RegisterStep(r);
      DivideIsSteps(if r >= 0x8000_0000 then XorBits(32, r * 2 % 0x1_0000_0000, 0x04C1_1DB7) else r * 2, k - 1);
    }
  }

  lemma StepNumbers(c: uint32)
    ensures c * 0x100 % 0x1_0000_0000 == c % 0x100_0000 * 0x100
  {
  }

  /** Eight bits at once. */
  lemma CrcStepIsSerial(c: uint32, b: byte)
    ensures ToBits(CrcStep(c, b), 32) == Serial(ToBits(c, 32), ToBits(b, 8))
  {
    hide ToBits, XorBits, Divide, Serial, Steps, Plus, Pow2, Zeros;
    Pow2Constants();
    var x, low := XorBits(8, c / 0x100_0000, b), c % 0x100_0000;
    XorIsPlus(8, c / 0x100_0000, b);
    JoinBits(c / 0x100_0000, 8, low, 24, c);
    JoinBits(x, 8, 0, 24, x * 0x100_0000);
    JoinBits(low, 24, 0, 8, low * 0x100);
    ZeroBits(24);
    ZeroBits(8);
    StepNumbers(c);
    var top, l, m := ToBits(c / 0x100_0000, 8), ToBits(low, 24), ToBits(b, 8);
    SerialAdds(top + l, m);
    PlusConcat(top, m, l, Zeros(24));
    PlusZeros(l);
    PlusConcat(ToBits(x, 8), Zeros(8), Zeros(24), l);
    PlusZeros(ToBits(x, 8));
    StepsAdd(ToBits(x, 8) + Zeros(24), Zeros(8) + l, 8);
    StepsShift(l, 8);
    DivideIsSteps(x * 0x100_0000, 8);
    var d := Divide(x * 0x100_0000, 8);
    XorIsPlus(32, low * 0x100, d);
    PlusMixed(l + Zeros(8), ToBits(d, 32), ToBits(d, 32));
  }

  lemma {:induction false} CrcIsSerial(c: uint32, bytes: seq<byte>)
    ensures ToBits(CrcFold(c, bytes), 32) == Serial(ToBits(c, 32), MessageBits(bytes))
    decreases |bytes|
  {
    hide ToBits, CrcStep;
    if bytes != [] {
      var front, b := bytes[..|bytes| - 1], bytes[|bytes| - 1];
      CrcIsSerial(c, front);
      CrcStepIsSerial(CrcFold(c, front), b);
      SerialConcat(ToBits(c, 32), MessageBits(front), ToBits(b, 8));
    }
  }

  /** The checksum of a message is the remainder of the message with 32 zeros behind it, the
      start value having been added to its first 32 bits. */
  lemma ChecksumIsRemainder(c: uint32, bytes: seq<byte>)
    ensures ToBits(CrcFold(c, bytes), 32)
      == Remainder(Plus(MessageBits(bytes) + Zeros(32), ToBits(c, 32) + Zeros(8 * |bytes|)))
  {
    var m, r := MessageBits(bytes), ToBits(c, 32);
    CrcIsSerial(c, bytes);
    SerialDivides(r, m);
    hide ToBits, CrcFold, MessageBits, Remainder;
    var a := m + Zeros(32);
    assert a == a[..32] + a[32..];
    PlusConcat(a[..32], r, a[32..], Zeros(|m|));
    PlusZeros(a[32..]);
  }
}
