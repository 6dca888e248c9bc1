/** CRC-32/MPEG-2 as used for PSI sections (annex A of ISO/IEC 13818-1), on a 32-bit register held as a number. */
module Crc32 {
  import opened Bytes

  const TOP_BIT: nat := 0x8000_0000
  const POLY: nat := 0x04C1_1DB7
  type Register = x: int | 0 <= x < 0x1_0000_0000

  function Xor32(a: Register, b: Register): Register {
    Pow2Values();
    XorBitsBound(32, a, b);
    XorBits(32, a, b)
  }

  /** One left shift, dividing by the generator polynomial when a one falls out. */
  function ShiftBit(c: Register): Register {
    if c >= TOP_BIT then Xor32(2 * (c - TOP_BIT), POLY) else 2 * c
  }

  function ShiftBits(c: Register, n: nat): Register
    decreases n, c
  {
    if n == 0 then c else ShiftBit(ShiftBits(c, n - 1))
  }

  function Absorb(c: Register, b: byte): Register {
    ShiftBits(Xor32(c, b * 0x100_0000), 8)
  }

  /** The register after `data`, starting from all ones. */
  function Crc(data: seq<byte>): Register {
    if data == [] then 0xFFFF_FFFF else Absorb(Crc(data[..|data| - 1]), data[|data| - 1])
  }

  method Crc32Mpeg2(data: seq<byte>) returns (crc: Register)
    ensures crc == Crc(data)
  {
    crc := 0xFFFF_FFFF;
    for i := 0 to |data|
      invariant crc == Crc(data[..i])
    {
      ghost var before := crc;
      crc := Xor32(crc, data[i] as int * 0x100_0000);
      for j := 0 to 8
        invariant crc == ShiftBits(Xor32(before, data[i] as int * 0x100_0000), j)
      {
        if crc >= TOP_BIT {
          crc := Xor32(2 * (crc - TOP_BIT), POLY);
        } else {
          crc := 2 * crc;
        }
      }
      assert data[..i + 1][..i] == data[..i];
    }
    assert data[..|data|] == data;
  }

  lemma Pow2Values()
    ensures Pow2(8) == 256 && Pow2(24) == 0x100_0000 && Pow2(32) == 0x1_0000_0000
  {
    Pow2Sum(4, 4);
    Pow2Sum(8, 8);
    Pow2Sum(16, 8);
    Pow2Sum(16, 16);
  }

  lemma {:induction false} Pow2Sum(a: nat, b: nat)
    ensures Pow2(a + b) == Pow2(a) * Pow2(b)
  {
    if a > 0 {
      Pow2Sum(a - 1, b);
      var x, y := Pow2(a - 1), Pow2(b);
      Doubled(x, y);
      assert Pow2(a) == 2 * x && Pow2(a + b) == 2 * Pow2(a - 1 + b);
    }
  }

  lemma Doubled(x: nat, y: nat)
    ensures 2 * (x * y) == (2 * x) * y
  {
  }

  lemma {:induction false} XorSame(k: nat, a: nat)
    ensures XorBits(k, a, a) == 0
  {
    if k > 0 {
      XorSame(k - 1, a / 2);
    }
  }

  lemma XorStep(k: nat, r: nat, a: nat, b: nat)
    ensures XorBits(k + 1, r + 2 * a, 2 * b) == r % 2 + 2 * XorBits(k, r / 2 + a, b)
  {
    assert (r + 2 * a) / 2 == r / 2 + a;
  }

  lemma Regroup(p: nat, a: nat)
    ensures (2 * p) * a == 2 * (p * a)
  {
  }

  /** Exclusive-or with a number whose low `low` bits are clear leaves those bits alone. */
  lemma {:induction false} XorHigh(low: nat, k: nat, a: nat, r: nat, b: nat)
    requires r < Pow2(low)
    ensures XorBits(low + k, r + Pow2(low) * a, Pow2(low) * b) == r + Pow2(low) * XorBits(k, a, b)
  {
    if low == 0 {
      assert r == 0;
    } else {
      var half := Pow2(low - 1);
      XorHigh(low - 1, k, a, r / 2, b);
      XorStep(low - 1 + k, r, half * a, half * b);
      Regroup(half, a);
      Regroup(half, b);
      Regroup(half, XorBits(k, a, b));
    }
  }

  /** While no one bit reaches the top, shifting doubles. */
  lemma {:induction false} ShiftClear(c: Register, n: nat)
    requires c * Pow2(n) < 0x1_0000_0000
    ensures ShiftBits(c, n) == c * Pow2(n)
  {
    if n > 0 {
      Doubled(Pow2(n - 1), c);
      assert c * Pow2(n) == 2 * (Pow2(n - 1) * c) && Pow2(n - 1) * c == c * Pow2(n - 1);
      hide Pow2;
      ShiftClear(c, n - 1);
    }
  }

  /** Absorbing the register's own top byte shifts it out. */
  lemma AbsorbTop(c: Register)
    ensures Absorb(c, c / 0x100_0000) == c % 0x100_0000 * 256
  {
    var top, rest := c / 0x100_0000, c % 0x100_0000;
    Pow2Values();
    XorHigh(24, 8, top, rest, top);
    XorSame(8, top);
    ShiftClear(rest, 8);
  }

  /** The check a receiver makes: a section followed by its stored CRC leaves the register at zero. */
  lemma ResidueIsZero(data: seq<byte>)
    ensures Crc(data + BE(4, Crc(data))) == 0
  {
    var c := Crc(data);
    var b0, b1, b2, b3 := SplitRegister(c);
    var c1 := CrcOfTop(data, c, b0);
    var c2 := CrcOfTop(data + [b0], c1, b1);
    var c3 := CrcOfTop(data + [b0] + [b1], c2, b2);
    var c4 := CrcOfTop(data + [b0] + [b1] + [b2], c3, b3);
    assert data + [b0] + [b1] + [b2] + [b3] == data + [b0, b1, b2, b3];
  }

  lemma SplitRegister(c: Register) returns (b0: byte, b1: byte, b2: byte, b3: byte)
    ensures BE(4, c) == [b0, b1, b2, b3]
    ensures c == b0 * 0x100_0000 + b1 * 0x1_0000 + b2 * 0x100 + b3
  {
    var q1 := c / 256;
    var q2 := q1 / 256;
    var q3 := q2 / 256;
    b0, b1, b2, b3 := q3, q2 % 256, q1 % 256, c % 256;
    assert BE(1, q3) == BE(0, q3 / 256) + [q3 % 256] == [b0];
    assert BE(2, q2) == BE(1, q3) + [b1];
    assert BE(3, q1) == BE(2, q2) + [b2];
    assert BE(4, c) == BE(3, q1) + [b3];
  }

  lemma CrcOfTop(data: seq<byte>, c: Register, b: byte) returns (next: Register)
    requires Crc(data) == c && b == c / 0x100_0000
    ensures Crc(data + [b]) == next == c % 0x100_0000 * 256
  {
    assert (data + [b])[..|data|] == data;
    AbsorbTop(c);
    next := c % 0x100_0000 * 256;
  }
}
