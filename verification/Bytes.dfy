/** Bytes, big-endian fields, bitwise exclusive-or and the source's integer division over unbounded integers. */
module Bytes {

  type byte = x: int | 0 <= x < 256

  function Pow256(k: nat): (p: nat)
    ensures p >= 1
  {
    if k == 0 then 1 else 256 * Pow256(k - 1)
  }

  /** The low `k` bytes of `n`, most significant first; higher bytes are cut off, as the casts in the source do. */
  function BE(k: nat, n: nat): (s: seq<byte>)
    ensures |s| == k
  {
    if k == 0 then [] else BE(k - 1, n / 256) + [n % 256]
  }

  /** The number a big-endian field stands for. */
  function FromBE(s: seq<byte>): (n: nat) {
    if s == [] then 0 else FromBE(s[..|s| - 1]) * 256 + s[|s| - 1]
  }

  lemma {:induction false} FromBEOfBE(k: nat, n: nat)
    requires n < Pow256(k)
    ensures FromBE(BE(k, n)) == n
  {
    if k > 0 {
      FromBEOfBE(k - 1, n / 256);
      assert BE(k, n)[..k - 1] == BE(k - 1, n / 256);
    }
  }

  /** A field never reads back as more than it can hold, so a field holds `n` exactly when `n` fits. */
  lemma {:induction false} FromBEBound(s: seq<byte>)
    ensures FromBE(s) < Pow256(|s|)
  {
    if s != [] {
      FromBEBound(s[..|s| - 1]);
    }
  }

  lemma FieldHoldsIffFits(k: nat, n: nat)
    ensures FromBE(BE(k, n)) == n <==> n < Pow256(k)
  {
    FromBEBound(BE(k, n));
    if n < Pow256(k) {
      FromBEOfBE(k, n);
    }
  }

  lemma Widths()
    ensures Pow256(2) == 0x1_0000 && Pow256(3) == 0x100_0000
    ensures Pow256(4) == 0x1_0000_0000 && Pow256(8) == 0x1_0000_0000_0000_0000
  {
    assert Pow256(1) == 256;
    assert Pow256(2) == 0x1_0000;
    assert Pow256(3) == 0x100_0000;
    assert Pow256(4) == 0x1_0000_0000;
    assert Pow256(5) == 0x100_0000_0000;
    assert Pow256(6) == 0x1_0000_0000_0000;
    assert Pow256(7) == 0x100_0000_0000_0000;
  }

  /** `k`-bit exclusive-or. */
  function XorBits(k: nat, a: nat, b: nat): (r: nat) {
    if k == 0 then 0 else (a % 2 + b % 2) % 2 + 2 * XorBits(k - 1, a / 2, b / 2)
  }

  function Pow2(k: nat): nat {
    if k == 0 then 1 else 2 * Pow2(k - 1)
  }

  lemma {:induction false} XorBitsBound(k: nat, a: nat, b: nat)
    ensures XorBits(k, a, b) < Pow2(k)
  {
    if k > 0 {
      XorBitsBound(k - 1, a / 2, b / 2);
    }
  }

  lemma FlipTwice(x: nat, y: nat)
    requires x < 2 && y < 2
    ensures ((x + y) % 2 + y) % 2 == x
  {
  }

  /** Applying the same mask twice gives the number back. */
  lemma {:induction false} XorBitsInvolution(k: nat, a: nat, b: nat)
    requires a < Pow2(k)
    ensures XorBits(k, XorBits(k, a, b), b) == a
    decreases k, a
  {
    if k > 0 {
      var high := XorBits(k - 1, a / 2, b / 2);
      var low := (a % 2 + b % 2) % 2;
      assert a / 2 < Pow2(k - 1);
      XorBitsInvolution(k - 1, a / 2, b / 2);
      XorUnfold(k, a, b);
      XorUnfold(k, low + 2 * high, b);
      hide XorBits, Pow2;
      LowAndHigh(low + 2 * high, low, high);
      FlipTwice(a % 2, b % 2);
    }
  }

  lemma XorUnfold(k: nat, a: nat, b: nat)
    requires k > 0
    ensures XorBits(k, a, b) == (a % 2 + b % 2) % 2 + 2 * XorBits(k - 1, a / 2, b / 2)
  {
  }

  lemma LowAndHigh(r: nat, low: nat, high: nat)
    requires r == low + 2 * high && low < 2
    ensures r % 2 == low && r / 2 == high
  {
  }

  function Xor(a: byte, b: byte): (r: byte)
    ensures XorBits(8, r, b) == a
  {
    XorIsByte(a, b);
    XorBits(8, a, b)
  }

  lemma XorIsByte(a: byte, b: byte)
    ensures XorBits(8, a, b) < 256 && XorBits(8, XorBits(8, a, b), b) == a
  {
    assert Pow2(8) == 256 by {
      assert Pow2(2) == 4;
      assert Pow2(4) == 16;
      assert Pow2(6) == 64;
    }
    XorBitsBound(8, a, b);
    XorBitsInvolution(8, a, b);
  }

  function Min(a: nat, b: nat): nat {
    if a < b then a else b
  }

  /** So many whole ticks of a 90 kHz clock, each of 100/9 microseconds, on the side of zero. */
  predicate IsTicks(us: int, ticks: int) {
    if us >= 0 then ticks * 100 <= us * 9 < (ticks + 1) * 100 else (ticks - 1) * 100 < us * 9 <= ticks * 100
  }

  /** C++ division of signed integers, which drops the fraction. */
  function TruncDiv(a: int, b: int): int
    requires b > 0
  {
    if a >= 0 then a / b else -(-a / b)
  }
}
