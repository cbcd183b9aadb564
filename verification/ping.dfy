/** The ping responder: recognising an echo request and turning it into its reply. */
module Ping {
  import opened Bytes
  import opened Checksum

  const ETH_HEADER := 14
  const IP_HEADER := 20
  const ICMP := 34        // ETH_HEADER + IP_HEADER, the responder assumes no IP options
  const MIN_PING := 42    // ICMP plus the 8 byte echo header

  /** A 16-bit field as the little-endian controller reads it. */
  function Le16(lo: Byte, hi: Byte): nat { lo + 256 * hi }

  /** A 16-bit field in network order. */
  function Be16(hi: Byte, lo: Byte): nat { 256 * hi + lo }

  /** An IPv4 frame (EtherType 0x0800) carrying ICMP (protocol 1) of type 8, an echo request. */
  predicate IsPing(p: seq<Byte>) {
    |p| >= MIN_PING && Be16(p[12], p[13]) == 0x0800 && p[23] == 1 && p[ICMP] == 8
  }

  /** A frame field by field: two station addresses; EtherType 0x0800; twenty bytes of IPv4 header, the tenth of
      which is the protocol, 1 for ICMP; then type 8 and the rest of the message. */
  function EchoRequest(macs: seq<Byte>, a: seq<Byte>, b: seq<Byte>, rest: seq<Byte>): seq<Byte> {
    macs + [0x08, 0x00] + a + [1] + b + [8] + rest
  }

  /** An echo request with a whole echo header behind an IPv4 header without options. */
  ghost predicate IsEchoRequest(p: seq<Byte>) {
    exists macs: seq<Byte>, a: seq<Byte>, b: seq<Byte>, rest: seq<Byte> ::
      |macs| == 12 && |a| == 9 && |b| == 10 && |rest| >= 7 && p == EchoRequest(macs, a, b, rest)
  }

  /** Every echo request is recognised, however long, and nothing else. */
  lemma RecognisedExactly(p: seq<Byte>)
    ensures IsPing(p) <==> IsEchoRequest(p)
  {
    if IsPing(p) {
      assert p == EchoRequest(p[..12], p[14..23], p[24..34], p[35..]);
    }
  }

  /** The checksum field as the controller reads it. */
  function ChecksumField(p: seq<Byte>): nat
    requires |p| >= MIN_PING
  {
    Le16(p[ICMP + 2], p[ICMP + 3])
  }

  /** The frame that answers an echo request. */
  function Reply(p: seq<Byte>): (r: seq<Byte>)
    requires |p| >= MIN_PING
  {
    var c := (ChecksumField(p) + 8) % 65536;
    p[6..12] + p[..6] + p[12..26] + p[30..34] + p[26..30] + [0, p[35], c % 256, c / 256] + p[38..]
  }

  /** Byte by byte: addresses exchanged, type and checksum rewritten, everything else kept. */
  lemma ReplyExact(p: seq<Byte>, i: nat)
    requires IsPing(p) && i < |p|
    ensures |Reply(p)| == |p|
    ensures Reply(p)[i] ==
            if i < 6 then p[i + 6]
            else if i < 12 then p[i - 6]
            else if 26 <= i < 30 then p[i + 4]
            else if 30 <= i < 34 then p[i - 4]
            else if i == ICMP then 0
            else if i == ICMP + 2 then (ChecksumField(p) + 8) % 65536 % 256
            else if i == ICMP + 3 then (ChecksumField(p) + 8) % 65536 / 256
            else p[i]
  {
  }

  // ---------------------------------------------------------------- the two functions of enc28_debug.c

  /** `enc28_debug_is_ping_request` */
  method IsPingRequest(pkt: array<Byte>, pktSize: nat) returns (b: bool)
    requires pktSize <= pkt.Length
    ensures b <==> IsPing(pkt[..pktSize])
    ensures b <==> IsEchoRequest(pkt[..pktSize])
  {
    hide IsEchoRequest;
    RecognisedExactly(pkt[..pktSize]);
    if pktSize < ETH_HEADER + IP_HEADER + 8 {
      return false;
    }
    if Le16(pkt[12], pkt[13]) == 0x08 {
      if pkt[ETH_HEADER + 9] == 0x1 {
        if pkt[ETH_HEADER + IP_HEADER] == 0x8 {
          return true;
        }
      }
    }
    return false;
  }

  /** The C library's `memcpy`, which is only defined for objects that do not overlap. */
  method Memcpy(dst: array<Byte>, to: nat, src: array<Byte>, from: nat, n: nat)
    requires dst != src
    requires to + n <= dst.Length && from + n <= src.Length
    modifies dst
    ensures forall i :: 0 <= i < dst.Length ==>
              dst[i] == if to <= i < to + n then src[from + (i - to)] else old(dst[i])
  {
    forall i | 0 <= i < n {
      dst[to + i] := src[from + i];
    }
  }

  /** `enc28_debug_handle_ping` */
  method HandlePing(pkt: array<Byte>, pktSize: nat, resp: array<Byte>, respSize: nat) returns (status: int)
    requires pkt != resp
    requires pktSize <= pkt.Length && respSize <= resp.Length
    modifies resp
    ensures status == if pktSize != respSize then -1 else if !IsPing(pkt[..pktSize]) then -2 else 0
    ensures status == 0 ==> resp[..respSize] == Reply(pkt[..pktSize])
    ensures status == 0 ==> resp[respSize..] == old(resp[respSize..])
    ensures status != 0 ==> resp[..] == old(resp[..])
  {
    hide Reply, IsEchoRequest;
    if pktSize != respSize {
      return -1;
    }
    var isPing := IsPingRequest(pkt, pktSize);
    if !isPing {
      return -2;
    }
    Memcpy(resp, 0, pkt, 0, respSize);
    Memcpy(resp, 0, pkt, 6, 6);
    Memcpy(resp, 6, pkt, 0, 6);
    Memcpy(resp, ETH_HEADER + 16, pkt, ETH_HEADER + 12, 4);
    Memcpy(resp, ETH_HEADER + 12, pkt, ETH_HEADER + 16, 4);

    resp[ICMP] := 0x0;
    var checksum := (Le16(resp[ICMP + 2], resp[ICMP + 3]) + 0x8) % 65536;
    resp[ICMP + 2] := checksum % 256;
    resp[ICMP + 3] := checksum / 256;

    ghost var p := pkt[..pktSize];
    forall i | 0 <= i < respSize ensures |Reply(p)| == respSize && resp[i] == Reply(p)[i] {
      ReplyExact(p, i);
    }
    return 0;
  }

  // ---------------------------------------------------------------- what the reply is

  /** A reply is never itself answered, so two responders cannot keep each other busy. */
  lemma ReplyIsNotAnswered(p: seq<Byte>)
    requires IsPing(p)
    ensures |Reply(p)| == |p| && !IsPing(Reply(p))
  {
    ReplyExact(p, ICMP);
  }

  lemma {:induction false} SumBEAppend(a: seq<Byte>, b: seq<Byte>)
    requires |a| % 2 == 0
    ensures SumBE(a + b) == SumBE(a) + SumBE(b)
  {
    if |a| == 0 {
      assert a + b == b;
    } else {
      assert (a + b)[2..] == a[2..] + b;
      SumBEAppend(a[2..], b);
    }
  }

  /** The IPv4 header sum (section 3.1 of RFC 791) survives the address exchange, so the header
      checksum of the request is valid for the reply. */
  lemma HeaderSumPreserved(p: seq<Byte>)
    requires IsPing(p)
    ensures |Reply(p)| == |p|
    ensures SumBE(Reply(p)[ETH_HEADER..ICMP]) == SumBE(p[ETH_HEADER..ICMP])
  {
    var r := Reply(p);
    assert r[14..34] == p[14..26] + (p[30..34] + p[26..30]);
    assert p[14..34] == p[14..26] + (p[26..30] + p[30..34]);
    SumBEAppend(p[14..26], p[30..34] + p[26..30]);
    SumBEAppend(p[14..26], p[26..30] + p[30..34]);
    SumBEAppend(p[30..34], p[26..30]);
    SumBEAppend(p[26..30], p[30..34]);
  }

  // ---------------------------------------------------------------- the ICMP checksum

  /** The ICMP message of length `n` behind a 20 byte IP header; `n` may be odd. */
  function Message(p: seq<Byte>, n: nat): seq<Byte>
    requires ICMP + n <= |p|
  {
    p[ICMP..ICMP + n]
  }

  /** The little-endian sums of request and reply differ only where `+= 8` wraps. */
  lemma ReplySum(p: seq<Byte>, n: nat)
    requires IsPing(p) && 8 <= n && ICMP + n <= |p|
    ensures |Reply(p)| == |p|
    ensures SumLE(Message(Reply(p), n)) ==
            SumLE(Message(p, n)) - (if ChecksumField(p) < 0xFFF8 then 0 else 65536)
  {
    var m, m' := Message(p, n), Message(Reply(p), n);
    assert m'[4..] == m[4..];
    assert m[2..][2..] == m[4..] && m'[2..][2..] == m'[4..];
    assert SumLE(m) == 8 + 256 * m[1] + (m[2] + 256 * m[3] + SumLE(m[4..]));
    assert SumLE(m') == 256 * m[1] + (m'[2] + 256 * m'[3] + SumLE(m[4..]));
  }

  /** Main result: a request whose ICMP checksum verifies gets a reply whose ICMP checksum verifies
      if and only if the checksum field, read little-endian, is below 0xFFF8.  At or above it the
      carry out of the 16-bit addition is lost instead of being added back in. */
  lemma ReplyChecksumExact(p: seq<Byte>, n: nat)
    requires IsPing(p) && 8 <= n && ICMP + n <= |p|
    requires Verifies(Message(p, n))
    ensures |Reply(p)| == |p|
    ensures Verifies(Message(Reply(p), n)) <==> ChecksumField(p) < 0xFFF8
  {
    ReplySum(p, n);
    OrderIndependent(Message(p, n));
    OrderIndependent(Message(Reply(p), n));
    var s := SumLE(Message(p, n));
    if ChecksumField(p) >= 0xFFF8 {
      ModMultiple(s - 65536, 1);
      assert (s - 1) % MODULUS == MODULUS - 1;
    }
  }

  /** A damaged request is not turned into a valid reply while the field does not wrap. */
  lemma DamageIsKept(p: seq<Byte>, n: nat)
    requires IsPing(p) && 8 <= n && ICMP + n <= |p|
    requires ChecksumField(p) < 0xFFF8
    ensures |Reply(p)| == |p|
    ensures Verifies(Message(Reply(p), n)) <==> Verifies(Message(p, n))
  {
    ReplySum(p, n);
    OrderIndependent(Message(p, n));
    OrderIndependent(Message(Reply(p), n));
  }

  lemma PatchedHead(p: seq<Byte>)
    requires IsPing(p) && ChecksumField(p) < 0xFFF8
    ensures |Reply(p)| == |p|
    ensures Be16(p[34], p[35]) == Be16(Reply(p)[34], Reply(p)[35]) + 0x800
    ensures Le16(Reply(p)[36], Reply(p)[37]) == ChecksumField(p) + 8
  {
    hide Reply;
    ReplyExact(p, 34);
    ReplyExact(p, 35);
    ReplyExact(p, 36);
    ReplyExact(p, 37);
  }

  /** 256 times the little-endian value of a field is its big-endian value, modulo 65535. */
  lemma FieldOrder(lo: Byte, hi: Byte, lo': Byte, hi': Byte, d: int)
    requires Le16(lo', hi') == Le16(lo, hi) + d
    ensures Be16(lo', hi') % MODULUS == (Be16(lo, hi) + 256 * d) % MODULUS
  {
    assert Be16(lo', hi') == Be16(lo, hi) + 256 * d + MODULUS * (hi as int - hi' as int);
    ModMultiple(Be16(lo, hi) + 256 * d, hi as int - hi' as int);
  }

  lemma Equation3Exact(hc: nat, m: nat, m': nat)
    requires hc < 65536 && m < 65536 && m' < 65536
    ensures Equation3(hc, m, m') % MODULUS == (hc + m - m') % MODULUS
  {
    var x := (0xFFFF - hc) + (0xFFFF - m) + m';
    FoldExact(x);
    var k := x / MODULUS - Fold(x) / MODULUS;
    assert x - Fold(x) == MODULUS * k;
    assert 0xFFFF - Fold(x) == hc + m - m' + MODULUS * (k - 1);
    ModMultiple(hc + m - m', k - 1);
  }

  /** In the same range the patched field agrees with RFC 1624 up to the two forms of zero. */
  lemma AgreesWithRfc1624(p: seq<Byte>)
    requires IsPing(p) && ChecksumField(p) < 0xFFF8
    ensures |Reply(p)| == |p|
    ensures Be16(Reply(p)[36], Reply(p)[37]) % MODULUS ==
            Equation3(Be16(p[36], p[37]), Be16(p[34], p[35]), Be16(Reply(p)[34], Reply(p)[35])) % MODULUS
  {
    hide Reply, Equation3;
    PatchedHead(p);
    var r := Reply(p);
    FieldOrder(p[36], p[37], r[36], r[37], 8);
    Equation3Exact(Be16(p[36], p[37]), Be16(p[34], p[35]), Be16(r[34], r[35]));
  }

  /** A request the code answers wrongly: its checksum verifies, the checksum of the reply does not. */
  lemma LostCarryExample() returns (p: seq<Byte>)
    ensures IsPing(p) && |Reply(p)| == |p|
    ensures Verifies(Message(p, 8)) && !Verifies(Message(Reply(p), 8))
  {
    // type 8, code 0, checksum bytes F8 FF, and an identifier word that makes the sum 2 * 0xFFFF
    var zeros := seq(12, _ => 0);
    p := zeros + [8, 0] + seq(9, _ => 0) + [1] + seq(10, _ => 0) + [8, 0, 0xF8, 0xFF, 0xFE, 0xFF, 0, 0];
    var m := Message(p, 8);
    assert m == [8, 0, 0xF8, 0xFF, 0xFE, 0xFF, 0, 0];
    var m1 := m[2..];
    var m2 := m1[2..];
    assert m2[2..] == [0, 0];
    assert SumBE([0, 0]) == 0;
    assert SumBE(m2) == 0xFEFF;
    assert SumBE(m1) == 0xF8FF + 0xFEFF;
    VerifiesIffMultiple(m);
    ReplyChecksumExact(p, 8);
  }
}
