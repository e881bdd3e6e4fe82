/** The checksum both halves of the codec fold over the plain bytes. */
module Crc {
  import opened Common

  /** Exclusive or of the low `n` bits of two numbers. */
  function XorBits(n: nat, a: nat, b: nat): nat {
    if n == 0 then 0 else 2 * XorBits(n - 1, a / 2, b / 2) + (a + b) % 2
  }

  /** Eight steps of the shift register behind one entry of the CRC table. */
  function Divide(register: nat, steps: nat): nat
    decreases steps
  {
    if steps == 0 then register
    else if register >= 0x8000_0000
    then Divide(XorBits(32, register * 2 % 0x1_0000_0000, 0x04C1_1DB7), steps - 1)
    else Divide(register * 2, steps - 1)
  }

  function CrcStep(crc: uint32, b: byte): uint32 {
    XorBits(32, crc * 0x100 % 0x1_0000_0000,
            Divide(XorBits(8, crc / 0x100_0000, b) * 0x100_0000, 8)) % 0x1_0000_0000
  }

  function CrcFold(crc: uint32, bytes: seq<byte>): uint32 {
    if bytes == [] then crc
    else CrcStep(CrcFold(crc, bytes[..|bytes| - 1]), bytes[|bytes| - 1])
  }

  lemma {:induction false} CrcFoldConcat(crc: uint32, a: seq<byte>, b: seq<byte>)
    ensures CrcFold(crc, a + b) == CrcFold(CrcFold(crc, a), b)
  {
    if b == [] {
      assert a + b == a;
    } else {
      CrcFoldConcat(crc, a, b[..|b| - 1]);
      assert (a + b)[..|a + b| - 1] == a + b[..|b| - 1];
    }
  }

  lemma CrcFoldEmpty(crc: uint32)
    ensures CrcFold(crc, []) == crc
  {
  }

  lemma CrcFoldNext(crc: uint32, bytes: seq<byte>, p: nat)
    requires p < |bytes|
    ensures CrcFold(crc, bytes[..p + 1]) == CrcStep(CrcFold(crc, bytes[..p]), bytes[p])
  {
    assert bytes[..p + 1][..p] == bytes[..p];
  }
}
