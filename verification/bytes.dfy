/** Bytes, bits and addresses as the driver and the chip see them.

    A byte is an integer below 256.  Masking with `0xFF`, `0x1F` or `1 << k` and shifting by
    constants are written as division and remainder, which is what they mean on unsigned values. */
module Bytes {

  type Byte = x: int | 0 <= x < 256

  /** Bit `i` of a byte. */
  predicate Bit(x: Byte, i: nat)
    requires i < 8
  {
    if i == 0 then x % 2 == 1
    else if i == 1 then x / 2 % 2 == 1
    else if i == 2 then x / 4 % 2 == 1
    else if i == 3 then x / 8 % 2 == 1
    else if i == 4 then x / 16 % 2 == 1
    else if i == 5 then x / 32 % 2 == 1
    else if i == 6 then x / 64 % 2 == 1
    else x / 128 % 2 == 1
  }

  /** Bitwise or of the lowest `n` bits, the rest is dropped. */
  function OrBits(x: nat, y: nat, n: nat): nat
    decreases n
  {
    if n == 0 then 0
    else OrBits(x / 2, y / 2, n - 1) * 2 + (if x % 2 == 1 || y % 2 == 1 then 1 else 0)
  }

  /** Bitwise and-not of the lowest `n` bits. */
  function AndNotBits(x: nat, y: nat, n: nat): nat
    decreases n
  {
    if n == 0 then 0
    else AndNotBits(x / 2, y / 2, n - 1) * 2 + (if x % 2 == 1 && y % 2 == 0 then 1 else 0)
  }

  function Or(x: Byte, y: Byte): (r: Byte) {
    OrBitsBounded(x, y, 8);
    OrBits(x, y, 8)
  }

  function AndNot(x: Byte, y: Byte): (r: Byte) {
    AndNotBitsBounded(x, y, 8);
    AndNotBits(x, y, 8)
  }

  function Pow2(n: nat): nat { if n == 0 then 1 else 2 * Pow2(n - 1) }

  lemma OrBitsBounded(x: nat, y: nat, n: nat)
    ensures OrBits(x, y, n) < Pow2(n)
    ensures n == 8 ==> Pow2(n) == 256
  {
    assert Pow2(8) == 256;
  }

  lemma AndNotBitsBounded(x: nat, y: nat, n: nat)
    ensures AndNotBits(x, y, n) < Pow2(n)
    ensures n == 8 ==> Pow2(n) == 256
  {
    assert Pow2(8) == 256;
  }

  /** Bit `i` of any number, by repeated halving. */
  predicate NthBit(x: nat, i: nat) {
    if i == 0 then x % 2 == 1 else NthBit(x / 2, i - 1)
  }

  lemma BitIsNthBit(x: Byte, i: nat)
    requires i < 8
    ensures Bit(x, i) == NthBit(x, i)
  {
    if i > 0 { HalfBit(x, i); }
  }

  lemma HalfDiv(x: nat)
    ensures x / 2 / 2 == x / 4 && x / 2 / 4 == x / 8 && x / 2 / 8 == x / 16
    ensures x / 2 / 16 == x / 32 && x / 2 / 32 == x / 64 && x / 2 / 64 == x / 128
  {
  }

  lemma {:induction false} HalfBit(x: Byte, i: nat)
    requires 0 < i < 8
    ensures Bit(x, i) == Bit(x / 2, i - 1) == NthBit(x / 2, i - 1)
  {
    HalfDiv(x);
    if i > 1 { HalfBit(x / 2, i - 1); }
  }

  lemma DoublePlus(k: nat, b: nat)
    requires b < 2
    ensures (k * 2 + b) / 2 == k && (k * 2 + b) % 2 == b
  {
  }

  lemma {:induction false} OrNthBit(x: nat, y: nat, n: nat, i: nat)
    requires i < n
    ensures NthBit(OrBits(x, y, n), i) == (NthBit(x, i) || NthBit(y, i))
  {
    DoublePlus(OrBits(x / 2, y / 2, n - 1), if x % 2 == 1 || y % 2 == 1 then 1 else 0);
    if i > 0 {
      OrNthBit(x / 2, y / 2, n - 1, i - 1);
    }
  }

  lemma {:induction false} AndNotNthBit(x: nat, y: nat, n: nat, i: nat)
    requires i < n
    ensures NthBit(AndNotBits(x, y, n), i) == (NthBit(x, i) && !NthBit(y, i))
  {
    DoublePlus(AndNotBits(x / 2, y / 2, n - 1), if x % 2 == 1 && y % 2 == 0 then 1 else 0);
    if i > 0 {
      AndNotNthBit(x / 2, y / 2, n - 1, i - 1);
    }
  }

  /** `Or` is the bitwise or. */
  lemma OrBit(x: Byte, y: Byte, i: nat)
    requires i < 8
    ensures Bit(Or(x, y), i) == (Bit(x, i) || Bit(y, i))
  {
    OrNthBit(x, y, 8, i);
    BitIsNthBit(x, i);
    BitIsNthBit(y, i);
    BitIsNthBit(Or(x, y), i);
  }

  /** `AndNot` is the bitwise and with the complement. */
  lemma AndNotBit(x: Byte, y: Byte, i: nat)
    requires i < 8
    ensures Bit(AndNot(x, y), i) == (Bit(x, i) && !Bit(y, i))
  {
    AndNotNthBit(x, y, 8, i);
    BitIsNthBit(x, i);
    BitIsNthBit(y, i);
    BitIsNthBit(AndNot(x, y), i);
  }

  // ---------------------------------------------------------------- 13-bit addresses in two registers

  type FiveBits = x: int | 0 <= x < 32

  /** The low and the high register of an address. */
  datatype Pair = Pair(lo: Byte, hi: FiveBits)

  /** `lo | ((hi & 0x1F) << 8)` */
  function Address(p: Pair): (a: nat)
    ensures a < 8192
  {
    p.lo + p.hi * 256 as nat
  }

  /** `a & 0xFF` and `(a >> 8) & 0x1F` */
  function Split(a: nat): Pair {
    Pair(a % 256, a / 256 % 32)
  }

  lemma SplitAddress(a: nat)
    requires a < 8192
    ensures Address(Split(a)) == a
  {
    assert a / 256 % 32 == a / 256;
  }

  lemma AddressSplit(p: Pair)
    ensures Split(Address(p)) == p
  {
  }
}
