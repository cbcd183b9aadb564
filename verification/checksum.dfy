/** One's-complement checksum arithmetic (RFC 1071) over messages of any length. */
module Checksum {
  import opened Bytes

  const MODULUS := 65535

  /** Sum of the big-endian 16-bit words of a message; an odd last byte is padded with zero. */
  function SumBE(m: seq<Byte>): nat {
    if |m| == 0 then 0
    else if |m| == 1 then 256 * m[0]
    else 256 * m[0] + m[1] + SumBE(m[2..])
  }

  /** The same sum with every word read in little-endian order. */
  function SumLE(m: seq<Byte>): nat {
    if |m| == 0 then 0
    else if |m| == 1 then m[0]
    else m[0] + 256 * m[1] + SumLE(m[2..])
  }

  /** Adds the carries back in until the sum fits 16 bits. */
  function Fold(x: nat): nat {
    if x < 65536 then x else Fold(x % 65536 + x / 65536)
  }

  /** A message with its checksum field in place verifies when its one's-complement sum is all ones. */
  predicate Verifies(m: seq<Byte>) {
    Fold(SumBE(m)) == 0xFFFF
  }

  /** Equation 3 in section 3 of RFC 1624: HC' = ~(~HC + ~m + m'). */
  function Equation3(hc: nat, m: nat, m': nat): int
    requires hc < 65536 && m < 65536 && m' < 65536
  {
    0xFFFF - Fold((0xFFFF - hc) + (0xFFFF - m) + m')
  }

  lemma ModMultiple(a: int, k: int)
    ensures (a + MODULUS * k) % MODULUS == a % MODULUS
  {
  }

  /** Folding keeps the residue modulo 65535 and keeps zero apart from the other sums. */
  lemma {:induction false} FoldExact(x: nat)
    ensures Fold(x) < 65536
    ensures Fold(x) % MODULUS == x % MODULUS
    ensures Fold(x) == 0 <==> x == 0
  {
    if x >= 65536 {
      var q, r := x / 65536, x % 65536;
      FoldExact(r + q);
      ModMultiple(r + q, q);
    }
  }

  lemma VerifiesIffMultiple(m: seq<Byte>)
    ensures Verifies(m) <==> SumBE(m) > 0 && SumBE(m) % MODULUS == 0
  {
    FoldExact(SumBE(m));
  }

  /** Byte-order independence, section 2(B) of RFC 1071: swapping the bytes of every word
      multiplies the sum by 256 modulo 65535. */
  lemma {:induction false} SwappedSum(m: seq<Byte>)
    ensures (256 * SumBE(m) - SumLE(m)) % MODULUS == 0
    ensures SumBE(m) == 0 <==> SumLE(m) == 0
  {
    if |m| == 1 {
      ModMultiple(0, m[0]);
    } else if |m| >= 2 {
      SwappedSum(m[2..]);
      ModMultiple(256 * SumBE(m[2..]) - SumLE(m[2..]), m[0]);
      assert 256 * SumBE(m) - SumLE(m) == 256 * SumBE(m[2..]) - SumLE(m[2..]) + MODULUS * m[0];
    }
  }

  /** A message verifies in one byte order exactly when it verifies in the other. */
  lemma OrderIndependent(m: seq<Byte>)
    ensures Verifies(m) <==> SumLE(m) > 0 && SumLE(m) % MODULUS == 0
  {
    VerifiesIffMultiple(m);
    SwappedSum(m);
    var b, l := SumBE(m), SumLE(m);
    var d := (256 * b - l) / MODULUS;
    assert 256 * b == l + MODULUS * d;
    if b % MODULUS == 0 {
      ModMultiple(0, 256 * (b / MODULUS) - d);
    }
    if l % MODULUS == 0 {
      // 256 is its own inverse: 256 * 256 == 1 modulo 65535
      ModMultiple(0, 256 * (l / MODULUS + d) - b);
      assert b == MODULUS * (256 * (l / MODULUS + d) - b);
    }
  }
}
