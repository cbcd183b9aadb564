/** The ENC28J60 driver.  Every SPI command is preceded by whatever the chip does on its own, so all
    results hold for every interleaving of receptions and transmit completions with the driver's
    commands. */
module Driver {
  import opened Bytes
  import opened Registers
  import opened RxRing
  import opened ReadLog
  import opened Chip

  /** `priv_enc28_is_mac_or_mii_reg` for a given value of the shadow bank. */
  predicate IsMacOrMiiReg(bank: nat, reg: Byte) {
    if bank == 2 then
      reg in {MACON1, MACON3, MACON4, MABBIPG, MAIPGL, MAIPGH, MACLCON1, MACLCON2, MAMXFLH, MAMXFLL,
              MICMD, MIREGADR, MIWRL, MIWRH, MIRDL, MIRDH}
    else if bank == 3 then
      reg in {MISTAT, MAC_ADD1, MAC_ADD2, MAC_ADD3, MAC_ADD4, MAC_ADD5, MAC_ADD6}
    else false
  }

  /** With the right bank the driver expects the dummy byte exactly where the chip sends one, except
      at the addresses of bank 2 that hold no usable register. */
  lemma ClassifierExact(bank: nat, reg: Byte)
    requires bank < 4 && reg < 32 && reg != RESERVED
    ensures IsMacOrMiiReg(bank, reg) == IsMacMii(bank, reg) <==> !Unimplemented(bank, reg)
  {
  }

  /** `priv_enc28_is_phy_reg` */
  predicate IsPhyReg(reg: Byte) { reg <= 0x03 || 0x10 <= reg <= 0x14 }

  // ---------------------------------------------------------------- what the chip does meanwhile

  /** What the chip may change in its own state over a stretch of time in which `k` frames are taken
      in and the host neither requests a transmission nor clears a flag. */
  ghost predicate Carried(rxen: bool, n: Engine, n': Engine, k: int) {
    && k >= 0 && n'.pkts == n.pkts + k && n'.phy == n.phy && n'.txResets == n.txResets && n'.clkWait <= n.clkWait
    && (!rxen ==> k == 0 && n'.wr == n.wr && n'.rxerif == n.rxerif)
    && (!n.txrts ==> !n'.txrts && n'.txif == n.txif && n'.txabrt == n.txabrt)
    && (n.txif ==> n'.txif) && (n.rxerif ==> n'.rxerif)
  }

  /** The MII side: a running read of PHY register `reg` gets closer to its end, its result appears
      when it is reached. */
  ghost predicate MiiCarried(reg: Byte, n: Engine, n': Engine) {
    && n'.miBusy <= n.miBusy
    && n'.mird == if n.miBusy > 0 && n'.miBusy == 0 then n.phy[reg % 32] else n.mird
  }

  /** What the chip may do between two commands. */
  ghost predicate Rely(c: Chip, c': Chip, k: int) {
    && c'.cfg == c.cfg
    && Carried(c.cfg.rxen, c.eng, c'.eng, k)
    && MiiCarried(c.cfg.regs[64 + MIREGADR], c.eng, c'.eng)
    && (c.eng.clkWait > 0 ==> c'.eng.clkWait < c.eng.clkWait)
    && (c.eng.miBusy > 0 ==> c'.eng.miBusy < c.eng.miBusy)
  }

  /** While nothing is being transmitted the memory below the receive ring stays as it is. */
  ghost predicate LowMemoryKept(n: Engine, n': Engine) {
    !n.txrts ==> forall a :: 0 <= a < RX_START ==> n'.mem[a] == n.mem[a]
  }

  lemma LowMemoryTrans(n: Engine, n': Engine, n'': Engine)
    requires LowMemoryKept(n, n') && LowMemoryKept(n', n'') && (n'.txrts ==> n.txrts)
    ensures LowMemoryKept(n, n'')
  {
  }

  lemma RelyTick(c: Chip)
    ensures Rely(c, Evolve(c, Tick), 0)
  {
  }

  lemma RelyEvolve(c: Chip, c': Chip, k: int, e: Event)
    requires Rely(c, c', k)
    ensures Rely(c, Evolve(c', e), k + |Added(c', e)|)
  {
  }

  /** The frames in the ring of chip `c` are those accepted and not yet delivered, in order. */
  ghost predicate RingTracks(c: Chip, accepted: seq<Frame>, delivered: seq<Frame>, h: nat, r: nat) {
    && delivered <= accepted
    && Ring(c, h, r, accepted[|delivered|..])
  }

  lemma InOrder(c: Chip, accepted: seq<Frame>, delivered: seq<Frame>, h: nat, r: nat)
    requires RingTracks(c, accepted, delivered, h, r)
    ensures delivered <= accepted
  {
  }

  /** The receive pointers between two calls: ERDPT is even and at the head of a record, ERXRDPT is odd,
      both are inside the ring, the chip's write pointer is even and never at the limit, and from there up
      to a tight limit no address holds a byte that waits to be read. */
  lemma PointersAtRest(c: Chip, accepted: seq<Frame>, delivered: seq<Frame>, h: nat, r: nat)
    requires RingTracks(c, accepted, delivered, h, r) && Address(c.cfg.erdpt) == At(h)
    ensures Address(c.cfg.erdpt) % 2 == 0 && RX_START <= Address(c.cfg.erdpt) <= RX_END
    ensures Address(c.cfg.erxrdpt) % 2 == 1 && RX_START <= Address(c.cfg.erxrdpt) <= RX_END
    ensures c.eng.wr % 2 == 0 && c.eng.wr != Address(c.cfg.erxrdpt)
    ensures var w := h + Span(accepted[|delivered|..]);
            && c.eng.wr == At(w) && Address(c.cfg.erxrdpt) == At(r)
            && (Tight(h, r) ==> forall p, k :: h <= p < w <= k < r ==> At(p) != At(k))
  {
    hide Address, At, Holds, Tight;
    var n := Span(accepted[|delivered|..]);
    PointersDistinct(c.eng.wr, Address(c.cfg.erxrdpt), h, r, n);
    if Tight(h, r) {
      forall p, k | h <= p < h + n <= k < r ensures At(p) != At(k) {
        WritableIsFree(c.eng.wr, Address(c.cfg.erxrdpt), h, r, n, p, k);
      }
    }
  }

  /** While the limit is tight the waiting frames fit the ring; so they do while none waits. */
  lemma TightTracks(c: Chip, accepted: seq<Frame>, delivered: seq<Frame>, h: nat, r: nat)
    requires RingTracks(c, accepted, delivered, h, r)
    ensures delivered <= accepted
    ensures Tight(h, r) ==> Span(accepted[|delivered|..]) < SIZE
    ensures |delivered| == |accepted| ==> Tight(h, r)
  {
    TightFits(c.eng.wr, Address(c.cfg.erxrdpt), h, r, Span(accepted[|delivered|..]));
  }

  lemma EvolveTracks(c: Chip, e: Event, accepted: seq<Frame>, delivered: seq<Frame>, h: nat, r: nat)
    requires RingTracks(c, accepted, delivered, h, r)
    ensures RingTracks(Evolve(c, e), accepted + Added(c, e), delivered, h, r)
  {
    hide Ring, Evolve, Added;
    EvolveKeepsRing(c, e, h, r, accepted[|delivered|..]);
    assert (accepted + Added(c, e))[|delivered|..] == accepted[|delivered|..] + Added(c, e);
  }

  lemma EvolveFenced(c0: Chip, c: Chip, k: int, e: Event)
    requires Fenced(c) && LowMemoryKept(c0.eng, c.eng) && Rely(c0, c, k)
    ensures Fenced(Evolve(c, e)) && LowMemoryKept(c0.eng, Evolve(c, e).eng)
  {
    hide Fenced, Evolve;
    EvolveStaysFenced(c, e);
  }

  lemma FirstTick(c: Chip)
    ensures Added(c, Tick) == [] && LowMemoryKept(c.eng, Evolve(c, Tick).eng)
    ensures Fenced(c) ==> Fenced(Evolve(c, Tick))
  {
  }

  /** What the ring depends on. */
  lemma TracksFrame(c: Chip, c': Chip, accepted: seq<Frame>, delivered: seq<Frame>, h: nat, r: nat)
    requires RingTracks(c, accepted, delivered, h, r)
    requires c'.eng.mem == c.eng.mem && c'.eng.wr == c.eng.wr && (c'.eng.txrts ==> c.eng.txrts)
    requires c'.cfg.erxst == c.cfg.erxst && c'.cfg.erxnd == c.cfg.erxnd
    requires c'.cfg.erxrdpt == c.cfg.erxrdpt && c'.cfg.etxnd == c.cfg.etxnd
    ensures RingTracks(c', accepted, delivered, h, r)
  {
  }

  /** Where nothing is being sent, ETXND does not matter. */
  lemma IdleFrame(c: Chip, c': Chip, accepted: seq<Frame>, delivered: seq<Frame>, h: nat, r: nat)
    requires !c'.eng.txrts && c'.eng.mem == c.eng.mem && c'.eng.wr == c.eng.wr
    requires c'.cfg == c.cfg.(etxnd := c'.cfg.etxnd)
    ensures RingTracks(c, accepted, delivered, h, r) ==> RingTracks(c', accepted, delivered, h, r)
    ensures Fenced(c) ==> Fenced(c')
  {
    hide RingOk, Address;
  }

  lemma FencedFrame(c: Chip, c': Chip)
    requires Fenced(c)
    requires c'.eng.wr == c.eng.wr && (c'.eng.txrts ==> c.eng.txrts)
    requires c'.cfg.erxst == c.cfg.erxst && c'.cfg.erxnd == c.cfg.erxnd
    requires c'.cfg.erxrdpt == c.cfg.erxrdpt && c'.cfg.etxnd == c.cfg.etxnd
    ensures Fenced(c')
  {
  }

  /** Any number of events of any kind; at least some time passes. */
  method Evolution(c0: Chip, ghost live: bool, ghost fenced: bool,
                   ghost accepted: seq<Frame>, ghost delivered: seq<Frame>, ghost h: nat, ghost r: nat)
    returns (c: Chip, ghost added: seq<Frame>)
    requires live ==> RingTracks(c0, accepted, delivered, h, r)
    requires fenced ==> Fenced(c0)
    ensures Rely(c0, c, |added|)
    ensures live ==> RingTracks(c, accepted + added, delivered, h, r)
    ensures fenced ==> Fenced(c) && LowMemoryKept(c0.eng, c.eng)
  {
    hide Rely, RingTracks, LowMemoryKept, Fenced, Evolve, Added;
    RelyTick(c0);
    FirstTick(c0);
    c, added := Evolve(c0, Tick), [];
    if live { EvolveTracks(c0, Tick, accepted, delivered, h, r); }
    var n: nat := *;
    while n > 0
      invariant Rely(c0, c, |added|)
      invariant live ==> RingTracks(c, accepted + added, delivered, h, r)
      invariant fenced ==> Fenced(c) && LowMemoryKept(c0.eng, c.eng)
    {
      var e: Event := *;
      RelyEvolve(c0, c, |added|, e);
      if live {
        EvolveTracks(c, e, accepted + added, delivered, h, r);
        assert accepted + added + Added(c, e) == accepted + (added + Added(c, e));
      }
      if fenced { EvolveFenced(c0, c, |added|, e); }
      c, added := Evolve(c, e), added + Added(c, e);
      n := n - 1;
    }
  }

  /** What a bank switch makes of the ECON1 it has read. */
  function WithBank(econ1: Byte, bank: Bank): Byte { econ1 / 4 * 4 + bank as int }

  /** The byte written back by a bank switch changes BSEL and nothing else. */
  lemma SelectBankValue(c: Chip, bank: nat)
    requires bank < 4
    ensures var v := WithBank(Econ1Byte(c), bank);
            && v % 4 == bank && v / 16 == c.cfg.econ1High
            && (Bit(v, 3) <==> c.eng.txrts) && (Bit(v, 2) <==> c.cfg.rxen)
  {
    hide Bit;
    var c' := c.(cfg := c.cfg.(bsel := bank));
    Econ1Bits(c');
    var k := (if c.eng.txrts then 2 else 0) + (if c.cfg.rxen then 1 else 0);
    assert Econ1Byte(c) == 4 * (c.cfg.econ1High * 4 + k) + c.cfg.bsel;
    assert Econ1Byte(c') == Econ1Byte(c) / 4 * 4 + bank;
  }

  /** `ENC28_Receive_Status_Vector` */
  datatype StatusVector = StatusVector(lenLo: Byte, lenHi: Byte, bitsLo: Byte, bitsHi: Byte)

  function PacketLen(v: StatusVector): nat { v.lenHi as int * 256 + v.lenLo }

  predicate ReceivedOk(v: StatusVector) { Bit(v.bitsLo, 7) }

  predicate Describes(vec: StatusVector, f: Frame) {
    PacketLen(vec) == |f.data| && vec.bitsLo == f.status && vec.bitsHi == f.status2
  }

  /** A frame was copied into the buffer and described in the status vector. */
  ghost predicate Received(buf: seq<Byte>, buf': seq<Byte>, bufSize: nat, vec: StatusVector, f: Frame) {
    && |f.data| <= bufSize <= |buf|
    && buf' == f.data + buf[|f.data|..]
    && Describes(vec, f) && ReceivedOk(vec)
  }

  predicate OutsideRing(p: Pair) { Address(p) < RX_START || Address(p) > RX_END }

  /** The packet a call hands to its caller. */
  function Returned(status: CommandStatus, buf: seq<Byte>, vec: StatusVector): seq<Byte> {
    if status == OK && PacketLen(vec) <= |buf| then buf[..PacketLen(vec)] else []
  }

  lemma ReceivedWhole(buf: seq<Byte>, buf': seq<Byte>, bufSize: nat, vec: StatusVector, f: Frame)
    requires |buf| == |buf'| && PacketLen(vec) == |f.data| <= bufSize <= |buf| && ReceivedOk(vec)
    requires vec.bitsLo == f.status && vec.bitsHi == f.status2
    requires buf'[..|f.data|] == f.data && buf'[|f.data|..] == buf[|f.data|..]
    ensures Received(buf, buf', bufSize, vec, f) && Returned(OK, buf', vec) == f.data
  {
  }

  lemma RefusedEntered(status: CommandStatus, o: Outcome, packet: seq<Byte>, t: nat, accepted: seq<Frame>,
                       bufSize: nat)
    requires o.Refused? && o.first < o.head == |accepted| && t <= o.head
    requires status in {PACKET_RCV_ERR, BUFFER_TOO_SMALL}
    requires HeadFits(o, accepted) ==> IsRefusal(status, bufSize, accepted[o.first])
    ensures Entered(ReadEntry(status, o, packet), o.first, t, accepted, bufSize)
    ensures Ranged(o, |accepted|) && Intact(o, accepted)
  {
    hide HeadFits, IsRefusal;
  }

  lemma TookEntered(o: Outcome, packet: seq<Byte>, t: nat, accepted: seq<Frame>, bufSize: nat)
    requires (o.Took? || o.Misled?) && Ranged(o, |accepted|) && t <= o.head
    requires o.Took? && Intact(o, accepted) ==> packet == accepted[o.first].data
    requires o.Misled? ==> !HeadFits(o, accepted)
    ensures Entered(ReadEntry(OK, o, packet), o.first, t, accepted, bufSize)
  {
    hide HeadFits, Intact, IsRefusal;
  }

  lemma AstrayEntered(status: CommandStatus, packet: seq<Byte>, n: nat, t: nat, accepted: seq<Frame>, bufSize: nat)
    ensures Entered(ReadEntry(status, Astray, packet), n, t, accepted, bufSize)
  {
  }

  /** The flags of EIR the driver never touches are the same. */
  ghost predicate OtherFlags(eir: Byte, eir': Byte) {
    forall i :: i in {1, 4, 5} ==> Bit(eir', i) == Bit(eir, i)
  }

  lemma OtherFlagsTrans(a: Byte, b: Byte, c: Byte)
    requires OtherFlags(a, b) && OtherFlags(b, c)
    ensures OtherFlags(a, c)
  {
    hide Bit;
  }

  /** A call kept everything but the bank, the receive pointers and the receive flags; it requested no
      transmission and lost no word about one. */
  ghost predicate RestKept(c: Chip, c': Chip) {
    var g, g' := c.cfg, c'.cfg;
    && g' == g.(bsel := g'.bsel, erdpt := g'.erdpt, erxrdpt := g'.erxrdpt,
                latch := g'.latch, regs := g.regs[EIR := g'.regs[EIR]])
    && OtherFlags(g.regs[EIR], g'.regs[EIR])
    && c'.eng.phy == c.eng.phy && c'.eng.txResets == c.eng.txResets && (c'.eng.txrts ==> c.eng.txrts)
    && (c.eng.txif ==> c'.eng.txif)
    && (!c.eng.txrts ==> c'.eng.txif == c.eng.txif && c'.eng.txabrt == c.eng.txabrt)
  }

  lemma RestKeptTrans(c: Chip, c': Chip, c'': Chip)
    requires RestKept(c, c') && RestKept(c', c'')
    ensures RestKept(c, c'')
  {
    hide OtherFlags;
    OtherFlagsTrans(c.cfg.regs[EIR], c'.cfg.regs[EIR], c''.cfg.regs[EIR]);
  }

  /** Reading `n` bytes of buffer memory inside the ring. */
  lemma ReadInRing(c: Chip, p: nat, n: nat)
    requires Address(c.cfg.erxst) == RX_START && Address(c.cfg.erxnd) == RX_END
    requires c.cfg.autoinc && Address(c.cfg.erdpt) == At(p)
    ensures var (c', data) := ReadMemory(c, n);
            && c' == c.(cfg := c.cfg.(erdpt := Split(At(p + n))))
            && |data| == n && StoredAt(c.eng.mem, p, data)
  {
    FetchInRing(c.eng.mem, p, n);
  }

  lemma OldestStored(c: Chip, accepted: seq<Frame>, delivered: seq<Frame>, h: nat, r: nat)
    requires RingTracks(c, accepted, delivered, h, r) && |delivered| < |accepted|
    ensures var f := accepted[|delivered|];
            RecordAt(c.eng.mem, h + Span(accepted[|delivered|..]) - SIZE, h, f, At(h + RecLen(f)))
  {
    assert accepted[|delivered|..][0] == accepted[|delivered|];
  }

  /** The head of a record, taken apart the way the driver does it. */
  lemma HeadDecodes(f: Frame, next: Pointer)
    requires |f.data| < 65536
    ensures var s := Record(f, next);
            && Address(Pair(s[0], s[1] % 32)) == next
            && PacketLen(StatusVector(s[2], s[3], s[4], s[5])) == |f.data|
            && s[4] == f.status && s[5] == f.status2
  {
    var s := Record(f, next);
    SplitAddress(next);
    assert Pair(s[0], s[1] % 32) == Split(next);
    assert s[3] as int * 256 + s[2] == |f.data|;
  }

  /** Reading six bytes at the oldest record gives its head. */
  lemma OldestHead(c: Chip, accepted: seq<Frame>, delivered: seq<Frame>, h: nat, r: nat)
    requires RingTracks(c, accepted, delivered, h, r) && |delivered| < |accepted|
    requires Span(accepted[|delivered|..]) <= SIZE
    requires c.cfg.autoinc && Address(c.cfg.erdpt) == At(h)
    ensures var f := accepted[|delivered|];
            && |f.data| < 65536
            && ReadMemory(c, 6) == (c.(cfg := c.cfg.(erdpt := Split(At(h + 6)))), Record(f, At(h + RecLen(f)))[..6])
  {
    OldestStored(c, accepted, delivered, h, r);
    ReadInRing(c, h, 6);
    var f := accepted[|delivered|];
    var s := Record(f, At(h + RecLen(f)));
    RecordAtIsStored(c.eng.mem, h + Span(accepted[|delivered|..]) - SIZE, h, f, At(h + RecLen(f)));
    StoredSuffix(c.eng.mem, h, s, 6);
    StoredUnique(c.eng.mem, h, s[..6], ReadMemory(c, 6).1);
  }

  /** Where reading the head leaves the read pointer does not depend on what is read. */
  lemma HeadMoves(c: Chip, accepted: seq<Frame>, delivered: seq<Frame>, h: nat, r: nat)
    requires RingTracks(c, accepted, delivered, h, r) && c.cfg.autoinc && Address(c.cfg.erdpt) == At(h)
    ensures ReadMemory(c, 6).0 == c.(cfg := c.cfg.(erdpt := Split(At(h + 6))))
  {
    ReadInRing(c, h, 6);
  }

  /** Reading on from there gives the frame, even if the chip has meanwhile come round to the head. */
  lemma OldestBody(c: Chip, accepted: seq<Frame>, delivered: seq<Frame>, h: nat, r: nat)
    requires RingTracks(c, accepted, delivered, h, r) && |delivered| < |accepted|
    requires Span(accepted[|delivered|..]) <= SIZE + 6
    requires c.cfg.autoinc && Address(c.cfg.erdpt) == At(h + 6)
    ensures var f := accepted[|delivered|]; ReadMemory(c, |f.data|).1 == f.data
  {
    OldestStored(c, accepted, delivered, h, r);
    var f := accepted[|delivered|];
    BodyIsStored(c.eng.mem, h + Span(accepted[|delivered|..]) - SIZE, h, f, At(h + RecLen(f)));
    ReadInRing(c, h + 6, |f.data|);
    StoredUnique(c.eng.mem, h + 6, f.data, ReadMemory(c, |f.data|).1);
  }

  /** Setting the limit before the next record takes the oldest frame out of the ring. */
  lemma OldestReleased(c: Chip, c': Chip, accepted: seq<Frame>, delivered: seq<Frame>, h: nat, r: nat)
    requires RingTracks(c, accepted, delivered, h, r) && |delivered| < |accepted|
    requires var h' := h + RecLen(accepted[|delivered|]);
             c' == c.(cfg := c.cfg.(erxrdpt := Split(ReadLimit(At(h')))))
    ensures Span(accepted[|delivered|..]) == RecLen(accepted[|delivered|]) + Span(accepted[|delivered| + 1..])
    ensures var f := accepted[|delivered|];
            var r' := LimitFrom(h + RecLen(f), h + Span(accepted[|delivered|..]));
            && RingTracks(c', accepted, delivered + [f], h + RecLen(f), r')
            && (Tight(h + RecLen(f), r') <==> Span(accepted[|delivered| + 1..]) < SIZE)
  {
    hide Split, Address, LimitFrom, Tight;
    var q := accepted[|delivered|..];
    SplitAddress(ReadLimit(At(h + RecLen(accepted[|delivered|]))));
    assert q[1..] == accepted[|delivered| + 1..];
    TakeOldest(c.eng.mem, c.eng.wr, Address(c.cfg.erxrdpt), h, r, q);
  }

  /** Setting the limit to the end of the ring loses no waiting frame, but keeps the engine away from them
      only when they do not run past that end. */
  lemma LimitReset(c: Chip, c': Chip, accepted: seq<Frame>, delivered: seq<Frame>, h: nat, r: nat)
    requires RingTracks(c, accepted, delivered, h, r) && Tight(h, r)
    requires c' == c.(cfg := c.cfg.(erxrdpt := Split(RX_END)))
    ensures delivered <= accepted
    ensures var q, e := accepted[|delivered|..], EndFrom(h + Span(accepted[|delivered|..]));
            && Span(q) < SIZE && c.eng.wr == At(h + Span(q))
            && RingTracks(c', accepted, delivered, h, e)
            && (Tight(h, e) <==> c.eng.wr >= At(h))
  {
    hide Split, Address, RingOk, At, Tight;
    SplitAddress(RX_END);
    TightTracks(c, accepted, delivered, h, r);
    WritesAtEnd(c, accepted, delivered, h, r);
    ResetLimitExact(c.eng.mem, c.eng.wr, Address(c.cfg.erxrdpt), h, r, accepted[|delivered|..]);
  }

  lemma WritesAtEnd(c: Chip, accepted: seq<Frame>, delivered: seq<Frame>, h: nat, r: nat)
    requires RingTracks(c, accepted, delivered, h, r)
    ensures delivered <= accepted && c.eng.wr == At(h + Span(accepted[|delivered|..]))
  {
  }

  /** Clearing RXERIF or TXIF clears that flag only: every other bit of EIR reads as before. */
  lemma EirBitField(c: Chip)
    ensures var s := ClearBits(c, EIR, RXERIF);
            && s.cfg == c.cfg.(regs := c.cfg.regs[EIR := s.cfg.regs[EIR]])
            && s.eng == c.eng.(rxerif := false) && s.cfg.regs[EIR] == AndNot(EirByte(c), RXERIF)
            && OtherFlags(c.cfg.regs[EIR], s.cfg.regs[EIR])
    ensures var s := ClearBits(c, EIR, TXIF);
            && s.cfg == c.cfg.(regs := c.cfg.regs[EIR := s.cfg.regs[EIR]])
            && s.eng == c.eng.(txif := false) && s.cfg.regs[EIR] == AndNot(EirByte(c), TXIF)
            && OtherFlags(c.cfg.regs[EIR], s.cfg.regs[EIR])
  {
    hide EirByte, ReadReg, Bit, AndNot, OtherFlags;
    EirBits(c);
    EirCleared(c, RXERIF);
    EirCleared(c, TXIF);
  }

  lemma EirCleared(c: Chip, mask: Byte)
    requires mask in {RXERIF, TXIF}
    ensures var e := AndNot(EirByte(c), mask);
            && OtherFlags(c.cfg.regs[EIR], e)
            && (Bit(e, 0) <==> c.eng.rxerif && mask != RXERIF) && (Bit(e, 3) <==> c.eng.txif && mask != TXIF)
  {
    hide EirByte, Bit, AndNot;
    EirBits(c);
    EirMasks();
    EirRest(c);
    forall i | i in {0, 1, 3, 4, 5}
      ensures Bit(AndNot(EirByte(c), mask), i) == (Bit(EirByte(c), i) && !Bit(mask, i))
    {
      AndNotBit(EirByte(c), mask, i);
    }
  }

  lemma EirOnlyThat(c: Chip, mask: Byte, i: nat)
    requires mask in {RXERIF, TXIF} && i < 8
    ensures Bit(ReadReg(ClearBits(c, EIR, mask), EIR), i) == (Bit(ReadReg(c, EIR), i) && !Bit(mask, i))
  {
    hide EirByte, ReadReg, Bit, AndNot;
    var s := ClearBits(c, EIR, mask);
    EirBitField(c);
    EirMasks();
    EirBits(c);
    EirBits(s);
    EirRest(c);
    EirRest(s);
    AndNotBit(EirByte(c), mask, i);
  }

  lemma EirMasks()
    ensures forall i :: 0 <= i < 8 ==> (Bit(RXERIF, i) <==> i == 0) && (Bit(TXIF, i) <==> i == 3)
  {
  }

  const TX_START := 0x1D
  const MAX_PACKET := 1962    // above it the status vector behind the packet reaches the receive ring

  ghost predicate TransmitKept(c: Chip, c': Chip) {
    var g, g' := c.cfg, c'.cfg;
    && g' == g.(bsel := g'.bsel, etxst := g'.etxst, ewrpt := g'.ewrpt, etxnd := g'.etxnd,
                econ1High := g.econ1High % 8, regs := g.regs[EIR := g'.regs[EIR]])
    && OtherFlags(g.regs[EIR], g'.regs[EIR])
    && c'.eng.phy == c.eng.phy && (c.eng.rxerif ==> c'.eng.rxerif)
    // TXRST was raised and released, unless it was up already
    && c'.eng.txResets == c.eng.txResets + if g.econ1High < 8 then 1 else 0
  }

  lemma TransmitKeptSince(c: Chip, c': Chip, c'': Chip)
    requires c'.cfg == c.cfg && c'.eng.phy == c.eng.phy && c'.eng.txResets == c.eng.txResets
    requires (c.eng.rxerif ==> c'.eng.rxerif) && TransmitKept(c', c'')
    ensures TransmitKept(c, c'')
  {
    hide OtherFlags;
  }

  /** A packet stored at ETXST stays below the ring. */
  lemma LoadKeepsRing(c: Chip, data: seq<Byte>, accepted: seq<Frame>, delivered: seq<Frame>, h: nat, r: nat)
    requires RingTracks(c, accepted, delivered, h, r) && c.cfg.autoinc && Address(c.cfg.ewrpt) == TX_START
    requires |data| <= MAX_PACKET + 1
    ensures RingTracks(WriteMemory(c, data), accepted, delivered, h, r)
  {
    hide Address, Split, Store, Holds, PointersOk;
    var q := accepted[|delivered|..];
    BelowRing(c.eng.mem, TX_START, data, h + Span(q) - SIZE, h, q);
  }

  /** A transmission may start when its status vector will stay below the ring. */
  lemma TracksStart(c: Chip, c': Chip, accepted: seq<Frame>, delivered: seq<Frame>, h: nat, r: nat)
    requires RingTracks(c, accepted, delivered, h, r)
    requires c'.eng.mem == c.eng.mem && c'.eng.wr == c.eng.wr
    requires c'.cfg.erxst == c.cfg.erxst && c'.cfg.erxnd == c.cfg.erxnd
    requires c'.cfg.erxrdpt == c.cfg.erxrdpt && Address(c'.cfg.etxnd) + 7 < RX_START
    ensures RingTracks(c', accepted, delivered, h, r)
  {
  }

  lemma FencedStart(c: Chip, c': Chip)
    requires Fenced(c) && c'.eng.wr == c.eng.wr
    requires c'.cfg.erxst == c.cfg.erxst && c'.cfg.erxnd == c.cfg.erxnd
    requires c'.cfg.erxrdpt == c.cfg.erxrdpt && Address(c'.cfg.etxnd) + 7 < RX_START
    ensures Fenced(c')
  {
  }

  /** Storing a packet at ETXST stores exactly its bytes, and the engine's pointers stay. */
  lemma LoadStores(c: Chip, data: seq<Byte>)
    requires Fenced(c) && c.cfg.autoinc && Address(c.cfg.ewrpt) == TX_START && |data| <= MAX_PACKET + 1
    ensures Fenced(WriteMemory(c, data))
    ensures WriteMemory(c, data).eng.mem[TX_START..TX_START + |data|] == data
  {
    hide Address, Split, Store;
    StoreBelow(c.eng.mem, TX_START, data);
  }

  /** A limit inside the ring. */
  lemma FencedLimit(c: Chip, c': Chip, limit: nat)
    requires Fenced(c) && RX_START <= limit <= RX_END
    requires c' == c.(cfg := c.cfg.(erxrdpt := Split(limit)))
    ensures Fenced(c')
  {
    hide Split, Address;
    SplitAddress(limit);
  }

  /** The address the status check computes: `(hi << 8) & 0x1F` is zero, so only the low byte counts. */
  function StatusVectorAddress(etxnd: Pair): nat { etxnd.lo as nat + 1 }

  /** `(hi << 8) & 0x1F` */
  function ShiftedAway(hi: Byte): (r: nat)
    ensures r == 0
  {
    hi as int * 256 % 32
  }

  lemma LoadedKept(n: Engine, n': Engine, n'': Engine, k: nat)
    requires k <= MAX_PACKET && !n.txrts && LowMemoryKept(n, n')
    requires forall a :: 0 <= a < RX_START ==> n''.mem[a] == n'.mem[a]
    ensures n''.mem[TX_START..TX_START + 1 + k] == n.mem[TX_START..TX_START + 1 + k]
  {
  }

  /** The vector is where the chip writes it, behind ETXND, exactly when ETXND is below 256. */
  lemma StatusVectorAddressExact(etxnd: Pair)
    ensures StatusVectorAddress(etxnd) == Address(etxnd) + 1 <==> Address(etxnd) < 256
    ensures StatusVectorAddress(etxnd) == Address(etxnd) % 256 + 1
  {
  }

  const MAX_FRAME_LEN := 1536

  /** PHCON1.PDPXMD */
  predicate FullDuplex(phcon1: Word) { phcon1 / 256 % 2 == 1 }

  /** The registers of bank 2 that initialisation and PHY reads write. */
  const MAC_SETTINGS: set<nat> :=
    {64 + MACON1, 64 + MACON3, 64 + MACON4, 64 + MAMXFLL, 64 + MAMXFLH, 64 + MABBIPG, 64 + MAIPGL, 64 + MAIPGH,
     64 + MIREGADR, 64 + MICMD}

  /** Those of them that the first part of the initialisation and PHY reads write. */
  const MAC_CONTROL: set<nat> := {64 + MACON1, 64 + MACON3, 64 + MACON4, 64 + MIREGADR, 64 + MICMD}

  /** Those that a PHY read writes. */
  const MII: set<nat> := {64 + MIREGADR, 64 + MICMD}

  /** The station address registers of bank 3. */
  const MAC_ADDRESS: set<nat> := {96, 97, 98, 99, 100, 101}

  ghost predicate RegsKept(regs: RegisterFile, regs': RegisterFile, except: set<nat>) {
    forall i :: 0 <= i < 128 && i !in except ==> regs'[i] == regs[i]
  }

  ghost predicate DuplexSettings(regs: RegisterFile, fullDuplex: bool) {
    && regs[64 + MAMXFLL] == 0x00 && regs[64 + MAMXFLH] == 0x06 && regs[64 + MABBIPG] == 0x12
    && regs[64 + MAIPGL] == (if fullDuplex then 0x15 else 0x12)
    && (!fullDuplex ==> regs[64 + MAIPGH] == 0x0C)
  }

  function WithMac(regs: RegisterFile, mac: seq<Byte>): RegisterFile
    requires |mac| == 6
  {
    regs[96 + MAC_ADD1 := mac[0]][96 + MAC_ADD2 := mac[1]][96 + MAC_ADD3 := mac[2]]
        [96 + MAC_ADD4 := mac[3]][96 + MAC_ADD5 := mac[4]][96 + MAC_ADD6 := mac[5]]
  }

  /** What initialisation asks of the MACON registers by bit field commands. */
  function WithControl(asked: map<nat, BitField>, fullDuplex: bool): map<nat, BitField> {
    asked[64 + MACON1 := Raise(0x0D)][64 + MACON3 := Raise(if fullDuplex then 0xF3 else 0xF2)]
         [64 + MACON4 := Raise(0x10)]
  }

  function WithTiming(regs: RegisterFile, fullDuplex: bool): RegisterFile {
    var common := regs[64 + MAMXFLL := MAX_FRAME_LEN % 256][64 + MAMXFLH := MAX_FRAME_LEN / 256]
                      [64 + MABBIPG := 0x12][64 + MAIPGL := if fullDuplex then 0x15 else 0x12];
    if fullDuplex then common else common[64 + MAIPGH := 0x0C]
  }

  /** The last two groups of registers written by the MAC initialisation do not disturb each other. */
  lemma WithTimingFacts(regs: RegisterFile, fullDuplex: bool, mac: seq<Byte>)
    requires |mac| == 6
    ensures var r := WithMac(WithTiming(regs, fullDuplex), mac);
            && MacOf(r) == mac && DuplexSettings(r, fullDuplex)
            && RegsKept(regs, r, MAC_SETTINGS + MAC_ADDRESS)
  {
  }

  /** Neither receiving nor transmitting, nothing pending. */
  ghost predicate Idle(c: Chip) { !c.cfg.rxen && !c.eng.txrts && c.eng.pkts == 0 }

  /** Like `Carried`, where flags may be cleared and the receiver switched. */
  ghost predicate Kept(c: Chip, c': Chip, k: int) {
    k >= 0 && c'.eng.pkts == c.eng.pkts + k && c'.eng.phy == c.eng.phy && (c'.eng.txrts ==> c.eng.txrts)
  }

  /** Like `Carried`, where the write pointer may be set. */
  ghost predicate Waited(c: Chip, c': Chip, k: int) {
    && Kept(c, c', k) && c'.cfg.rxen == c.cfg.rxen && (!c.cfg.rxen ==> k == 0)
  }

  lemma ErxWrite(c: Chip, reg: nat, v: Byte)
    requires c.cfg.bsel == 0 && reg in {ERXSTL, ERXSTH, ERXNDL, ERXNDH}
    ensures var c' := WriteReg(c, reg, v);
            && c'.cfg == WritePointerReg(c.cfg, reg, v)
            && c'.eng == c.eng.(wr := if reg <= ERXSTH then Address(c'.cfg.erxst) else c.eng.wr)
  {
  }

  lemma MacBitField(c: Chip, reg: nat, mask: Byte)
    requires c.cfg.bsel == 2 && reg < RESERVED
    ensures SetBits(c, reg, mask) == c.(cfg := c.cfg.(regs := c.cfg.regs[64 + reg := c.eng.noise],
                                                      asked := c.cfg.asked[64 + reg := Raise(mask)]))
  {
  }

  lemma EieSet(c: Chip, mask: Byte)
    ensures SetBits(c, EIE, mask) == c.(cfg := c.cfg.(regs := c.cfg.regs[EIE := Or(c.cfg.regs[EIE], mask)]))
  {
  }

  /** 0xC3 is INTIE, PKTIE, TXERIE and RXERIE. */
  lemma EieMask(x: Byte, i: nat)
    requires i < 8
    ensures Bit(Or(x, 0xC3), i) == (Bit(x, i) || i in {0, 1, 6, 7})
  {
    hide Or, Bit;
    OrBit(x, 0xC3, i);
    EieMaskBits(i);
  }

  lemma EieMaskBits(i: nat)
    requires i < 8
    ensures Bit(0xC3, i) == (i in {0, 1, 6, 7})
  {
  }

  lemma RevisionKept(regs: RegisterFile, regs': RegisterFile)
    requires RegsKept(regs, regs', MAC_SETTINGS + MAC_ADDRESS + {32 + ERXFCON})
    ensures regs'[96 + EREVID] == regs[96 + EREVID]
  {
  }

  lemma MacBesideFlags(regs: RegisterFile, eie: Byte, eir: Byte)
    ensures MacOf(regs[EIE := eie][EIR := eir]) == MacOf(regs)
  {
  }

  lemma MacBesideEir(regs: RegisterFile, eir: Byte)
    ensures MacOf(regs[EIR := eir]) == MacOf(regs)
  {
  }

  lemma FilterKept(regs: RegisterFile, regs': RegisterFile)
    requires RegsKept(regs[32 + ERXFCON := 0x83], regs', MAC_SETTINGS + MAC_ADDRESS)
    ensures regs'[32 + ERXFCON] == 0x83
    ensures RegsKept(regs, regs', MAC_SETTINGS + MAC_ADDRESS + {32 + ERXFCON})
  {
  }

  lemma MacBesideMii(regs: RegisterFile, miregadr: Byte, micmd: Byte)
    ensures MacOf(regs[64 + MIREGADR := miregadr][64 + MICMD := micmd]) == MacOf(regs)
  {
  }

  /** The settings `enc28_do_init` leaves in the registers that keep what is written to them. */
  ghost predicate Configured(regs: RegisterFile, mac: seq<Byte>, fullDuplex: bool) {
    MacOf(regs) == mac && regs[32 + ERXFCON] == 0x83 && DuplexSettings(regs, fullDuplex)
  }

  lemma ConfiguredKept(regs: RegisterFile, regs': RegisterFile, mac: seq<Byte>, fullDuplex: bool)
    requires RegsKept(regs, regs', MII) && Configured(regs, mac, fullDuplex)
    ensures Configured(regs', mac, fullDuplex)
  {
  }

  lemma ConfiguredBesideFlags(regs: RegisterFile, eie: Byte, eir: Byte, mac: seq<Byte>, fullDuplex: bool)
    requires Configured(regs, mac, fullDuplex)
    ensures Configured(regs[EIE := eie][EIR := eir], mac, fullDuplex)
  {
  }

  lemma AutoincSet(c: Chip)
    ensures SetBits(c, ECON2, AUTOINC) ==
            c.(cfg := c.cfg.(autoinc := true))
  {
    hide Or, Bit, Econ2Byte;
    Econ2Bits(c);
    OrBit(Econ2Byte(c), AUTOINC, 6);
    OrBit(Econ2Byte(c), AUTOINC, 7);
    LowUnderMask(Econ2Byte(c), AUTOINC);
  }

  /** A freshly configured chip has an empty ring. */
  lemma EmptyRing(c: Chip, accepted: seq<Frame>)
    requires Address(c.cfg.erxst) == RX_START && Address(c.cfg.erxnd) == RX_END
    requires Address(c.cfg.erxrdpt) == RX_END && c.eng.wr == RX_START && !c.eng.txrts
    ensures RingTracks(c, accepted, accepted, 0, SIZE - 1)
  {
    assert accepted[|accepted|..] == [];
  }

  lemma EmptyFence(c: Chip)
    requires Address(c.cfg.erxst) == RX_START && Address(c.cfg.erxnd) == RX_END
    requires Address(c.cfg.erxrdpt) == RX_END && c.eng.wr == RX_START && !c.eng.txrts
    ensures Fenced(c)
  {
  }

  /** A transmission that ends between the two commands of a bank switch is requested again, because
      the switch writes back the ECON1 it read before. */
  lemma BankSwitchRepeatsRequest(c: Chip, bank: nat, aborted: bool, vector: seq<Byte>)
    requires bank < 4 && |vector| == 7
    ensures var v := WithBank(Econ1Byte(c), bank);
            var done := Evolve(c, Sent(aborted, vector));
            !done.eng.txrts && (WriteReg(done, ECON1, v).eng.txrts <==> c.eng.txrts)
  {
    SelectBankValue(c, bank);
  }

  /** A call of the driver after startup. */
  datatype Call = Begin | End | Read | Write(packet: array<Byte>, size: nat) | Check | Phy(reg: Byte)

  /** What the calls that read returned. */
  function ReadResults(calls: seq<Call>, results: seq<CommandStatus>): seq<CommandStatus>
    requires |results| <= |calls|
  {
    if results == [] then []
    else
      var n := |results| - 1;
      ReadResults(calls, results[..n]) + (if calls[n].Read? then [results[n]] else [])
  }

  /** The calls whose packets were handed to the transmitter. */
  function Writes(calls: seq<Call>, results: seq<CommandStatus>): seq<Call>
    requires |results| <= |calls|
  {
    if results == [] then []
    else
      var n := |results| - 1;
      Writes(calls, results[..n]) + (if calls[n].Write? && results[n] == OK then [calls[n]] else [])
  }

  lemma OneMoreResult(calls: seq<Call>, results: seq<CommandStatus>, status: CommandStatus)
    requires |results| < |calls|
    ensures ReadResults(calls, results + [status]) ==
            ReadResults(calls, results) + (if calls[|results|].Read? then [status] else [])
    ensures Writes(calls, results + [status]) ==
            Writes(calls, results) + (if calls[|results|].Write? && status == OK then [calls[|results|]] else [])
  {
    assert (results + [status])[..|results|] == results;
  }

  /** The statuses a transmission can be refused with, and why. */
  predicate Wrote(status: CommandStatus, size: nat, c: Chip, c': Chip) {
    && status in {OK, INVALID_PARAM, PACKET_TX_IN_PROGRESS}
    && (status == INVALID_PARAM <==> size < 14)
    && (status == PACKET_TX_IN_PROGRESS ==> c.eng.txrts)
    && (status == OK ==> c'.eng.txrts && c'.cfg.etxnd == Split((TX_START + size + 1) % 65536))
  }

  /** What is known of the last transmission, unless one is running. */
  predicate Checked(status: CommandStatus, c: Chip) {
    && status in {OK, NO_DATA, PACKET_TX_ABORTED}
    && (!c.eng.txrts ==>
          status == if !c.eng.txif then NO_DATA else if c.eng.txabrt then PACKET_TX_ABORTED else OK)
  }

  /** What a call that reads no frame returns and does. */
  predicate Does(call: Call, status: CommandStatus, value: Word, c: Chip, c': Chip) {
    match call
    case Begin => status == OK && c'.cfg.rxen && c'.cfg.erdpt == Split(RX_START)
    case End => status == OK && !c'.cfg.rxen
    case Read => true
    case Write(_, size) => Wrote(status, size, c, c')
    case Check => Checked(status, c)
    case Phy(reg) =>
      status == (if IsPhyReg(reg) then OK else INVALID_PARAM) && (IsPhyReg(reg) ==> value == c.eng.phy[reg])
  }

  lemma NoneYet(calls: seq<Call>)
    ensures ReadResults(calls, []) == [] == Statuses([]) && Writes(calls, []) == [] && Packets([]) == []
  {
  }

  lemma StatusesAre(statuses: seq<CommandStatus>, entries: seq<ReadEntry>)
    requires |statuses| == |entries| && forall i :: 0 <= i < |statuses| ==> statuses[i] == entries[i].status
    ensures (forall s :: s in statuses ==> s in {OK, NO_DATA}) ==> NoErrors(entries)
  {
    if forall s :: s in statuses ==> s in {OK, NO_DATA} {
      forall i | 0 <= i < |entries| ensures entries[i].status in {OK, NO_DATA} {
        assert statuses[i] in statuses;
      }
    }
  }

  class Enc28 {
    var chip: Chip
    var currBank: nat                  // priv_enc28_curr_bank

    ghost var fenced: bool             // the ring is set up, and nothing was sent that reaches into it
    ghost var live: bool               // and its invariant holds
    ghost var accepted: seq<Frame>     // every frame the chip has taken in
    ghost var delivered: seq<Frame>    // every frame whose turn is over
    ghost var h: nat                   // position of the oldest frame not delivered
    ghost var r: nat                   // position of the read limit
    ghost var sent: seq<seq<Byte>>     // every packet handed to the transmitter
    ghost var history: seq<ReadEntry>    // every call of enc28_read_packet

    /** A chip in any state, and the driver's static variable as the program starts with it. */
    constructor (c: Chip)
      ensures chip == c && currBank == 0 && !live && !fenced
      ensures accepted == delivered == [] && sent == [] && history == []
    {
      chip, currBank := c, 0;
      live, fenced, accepted, delivered, h, r, sent, history := false, false, [], [], 0, 0, [], [];
    }

    // -------------------------------------------------------------- invariants

    /** The shadow bank is the bank the chip has selected. */
    ghost predicate Coherent()
      reads this`chip, this`currBank
    {
      currBank == chip.cfg.bsel
    }

    ghost predicate Tracks(c: Chip)
      reads this`live, this`fenced, this`accepted, this`delivered, this`h, this`r
    {
      (live ==> RingTracks(c, accepted, delivered, h, r)) && (fenced ==> Fenced(c)) && (live ==> fenced)
    }

    lemma KeepTracks(c: Chip, c': Chip)
      requires Tracks(c)
      requires c'.eng.mem == c.eng.mem && c'.eng.wr == c.eng.wr && (c'.eng.txrts ==> c.eng.txrts)
      requires c'.cfg.erxst == c.cfg.erxst && c'.cfg.erxnd == c.cfg.erxnd
      requires c'.cfg.erxrdpt == c.cfg.erxrdpt && c'.cfg.etxnd == c.cfg.etxnd
      ensures Tracks(c')
    {
      hide RingTracks, Fenced;
      if live { TracksFrame(c, c', accepted, delivered, h, r); }
      if fenced { FencedFrame(c, c'); }
    }

    /** A bank switch may request again a transmission that was running when it began. */
    lemma SwitchKeepsTracks(start: Chip, c: Chip, c': Chip)
      requires Tracks(c) && (fenced ==> Fenced(start)) && start.cfg.etxnd == c.cfg.etxnd
      requires c'.eng.mem == c.eng.mem && c'.eng.wr == c.eng.wr && (c'.eng.txrts ==> start.eng.txrts)
      requires c'.cfg.erxst == c.cfg.erxst && c'.cfg.erxnd == c.cfg.erxnd
      requires c'.cfg.erxrdpt == c.cfg.erxrdpt && c'.cfg.etxnd == c.cfg.etxnd
      ensures Tracks(c')
    {
      hide Address;
    }

    // -------------------------------------------------------------- the SPI port

    method Environment()
      requires Tracks(chip)
      modifies this`chip, this`accepted
      ensures old(accepted) <= accepted
      ensures Rely(old(chip), chip, |accepted| - |old(accepted)|)
      ensures Tracks(chip) && (fenced ==> LowMemoryKept(old(chip).eng, chip.eng))
    {
      hide RingTracks, Fenced, LowMemoryKept;
      ghost var added;
      chip, added := Evolution(chip, live, fenced, accepted, delivered, h, r);
      accepted := accepted + added;
    }

    /** One chip select period; `mid` is the chip the command meets. */
    method Spi(tx: seq<Byte>) returns (rx: seq<Byte>, ghost mid: Chip)
      requires tx != [] && Tracks(chip)
      modifies this`chip, this`accepted
      ensures old(accepted) <= accepted
      ensures Rely(old(chip), mid, |accepted| - |old(accepted)|)
      ensures Tracks(mid) && (fenced ==> LowMemoryKept(old(chip).eng, mid.eng))
      ensures (chip, rx) == Transact(mid, tx)
    {
      hide RingTracks, Fenced, LowMemoryKept, Transact;
      Environment();
      mid := chip;
      var (c, out) := Transact(chip, tx);
      chip, rx := c, out;
    }

    // -------------------------------------------------------------- control registers

    /** `enc28_do_read_ctl_reg`.  The value is right whenever the driver's idea of the dummy byte is. */
    method ReadCtlReg(reg: Byte) returns (status: CommandStatus, value: Byte)
      requires Tracks(chip)
      modifies this`chip, this`accepted
      ensures status == if reg == RESERVED then INVALID_REGISTER else OK
      ensures reg == RESERVED ==> chip == old(chip) && accepted == old(accepted)
      ensures old(accepted) <= accepted
      ensures reg != RESERVED ==> Rely(old(chip), chip, |accepted| - |old(accepted)|)
      ensures Tracks(chip) && (fenced ==> LowMemoryKept(old(chip).eng, chip.eng))
      ensures reg != RESERVED && IsMacOrMiiReg(currBank, reg) == IsMacMii(chip.cfg.bsel, reg % 32) ==>
                value == ReadReg(chip, reg % 32)
    {
      hide RingTracks, Fenced;
      value := 0;
      if reg == RESERVED {
        return INVALID_REGISTER, value;
      }
      var cmd := OP_RCR * 32 + reg % 32;
      var skipDummyByte := IsMacOrMiiReg(currBank, reg);
      var rx;
      ghost var mid;
      if skipDummyByte {
        rx, mid := Spi([cmd, 0, 0]);
        value := rx[2];
      } else {
        rx, mid := Spi([cmd, 0]);
        value := rx[1];
      }
      return OK, value;
    }

    /** `enc28_do_write_ctl_reg` */
    method WriteCtlReg(reg: Byte, value: Byte) returns (status: CommandStatus, ghost mid: Chip)
      requires Tracks(chip)
      modifies this`chip, this`accepted
      ensures status == if reg == RESERVED then INVALID_REGISTER else OK
      ensures reg == RESERVED ==> chip == old(chip) && accepted == old(accepted)
      ensures old(accepted) <= accepted
      ensures reg != RESERVED ==>
                && Rely(old(chip), mid, |accepted| - |old(accepted)|)
                && Tracks(mid) && (fenced ==> LowMemoryKept(old(chip).eng, mid.eng))
                && chip == WriteReg(mid, reg % 32, value)
    {
      hide Transact, WriteReg, WriteConfig, WriteEngine, SetBits, ClearBits, RingTracks, Fenced;
      mid := chip;
      if reg == RESERVED {
        return INVALID_REGISTER, mid;
      }
      var rx;
      rx, mid := Spi([OP_WCR * 32 + reg % 32, value]);
      WriteCommand(mid, OP_WCR, reg, value);
      return OK, mid;
    }

    /** `enc28_do_set_bits_ctl_reg` */
    method SetBitsCtlReg(reg: Byte, mask: Byte) returns (status: CommandStatus, ghost mid: Chip)
      requires Tracks(chip)
      modifies this`chip, this`accepted
      ensures status == if reg == RESERVED then INVALID_REGISTER else OK
      ensures reg == RESERVED ==> chip == old(chip) && accepted == old(accepted)
      ensures old(accepted) <= accepted
      ensures reg != RESERVED ==>
                && Rely(old(chip), mid, |accepted| - |old(accepted)|)
                && Tracks(mid) && (fenced ==> LowMemoryKept(old(chip).eng, mid.eng))
                && chip == SetBits(mid, reg % 32, mask)
    {
      hide Transact, WriteReg, WriteConfig, WriteEngine, SetBits, ClearBits, RingTracks, Fenced;
      mid := chip;
      if reg == RESERVED {
        return INVALID_REGISTER, mid;
      }
      var rx;
      rx, mid := Spi([OP_BFS * 32 + reg % 32, mask]);
      WriteCommand(mid, OP_BFS, reg, mask);
      return OK, mid;
    }

    /** `enc28_do_clear_bits_ctl_reg` */
    method ClearBitsCtlReg(reg: Byte, mask: Byte) returns (status: CommandStatus, ghost mid: Chip)
      requires Tracks(chip)
      modifies this`chip, this`accepted
      ensures status == if reg == RESERVED then INVALID_REGISTER else OK
      ensures reg == RESERVED ==> chip == old(chip) && accepted == old(accepted)
      ensures old(accepted) <= accepted
      ensures reg != RESERVED ==>
                && Rely(old(chip), mid, |accepted| - |old(accepted)|)
                && Tracks(mid) && (fenced ==> LowMemoryKept(old(chip).eng, mid.eng))
                && chip == ClearBits(mid, reg % 32, mask)
    {
      hide Transact, WriteReg, WriteConfig, WriteEngine, SetBits, ClearBits, RingTracks, Fenced;
      mid := chip;
      if reg == RESERVED {
        return INVALID_REGISTER, mid;
      }
      var rx;
      rx, mid := Spi([OP_BFC * 32 + reg % 32, mask]);
      WriteCommand(mid, OP_BFC, reg, mask);
      return OK, mid;
    }

    /** `enc28_select_register_bank`.  Works from any pair of shadow bank and selected bank, because
        ECON1 is common to all banks and never takes a dummy byte. */
    method SelectBank(bank: Byte) returns (status: CommandStatus)
      requires Tracks(chip)
      modifies this`chip, this`accepted, this`currBank
      ensures status == if bank >= 4 then INVALID_PARAM else OK
      ensures bank >= 4 ==> chip == old(chip) && accepted == old(accepted) && currBank == old(currBank)
      ensures old(accepted) <= accepted
      ensures bank < 4 ==>
                && currBank == bank
                && chip.cfg == old(chip).cfg.(bsel := bank)
                && Carried(chip.cfg.rxen, old(chip).eng, chip.eng, |accepted| - |old(accepted)|)
                && MiiCarried(chip.cfg.regs[64 + MIREGADR], old(chip).eng, chip.eng)
      ensures Tracks(chip) && (fenced ==> LowMemoryKept(old(chip).eng, chip.eng))
    {
      hide WriteReg, WriteConfig, WriteEngine, Bit, Econ1Byte, RingTracks, Fenced;
      if bank >= 4 {
        return INVALID_PARAM;
      }
      var econ1;
      ghost var mid;
      status, econ1 := ReadCtlReg(ECON1);
      if status != OK { return; }
      SelectBankValue(chip, bank);
      ghost var start := chip;
      econ1 := econ1 / 4 * 4;
      econ1 := econ1 + bank;
      status, mid := WriteCtlReg(ECON1, econ1);
      Econ1Write(mid, econ1);
      SwitchKeepsTracks(start, mid, chip);
      if status == OK {
        currBank := bank;
      }
    }

    /** `enc28_do_write_ctl_reg` on a register that just keeps its value. */
    method WritePlain(reg: Byte, value: Byte) returns (status: CommandStatus)
      requires Tracks(chip)
      requires reg < 32 && Plain(chip.cfg.bsel, reg)
      modifies this`chip, this`accepted
      ensures status == OK
      ensures old(accepted) <= accepted
      ensures chip.cfg == old(chip).cfg.(regs := old(chip).cfg.regs[Index(old(chip).cfg.bsel, reg) := value])
      ensures Carried(chip.cfg.rxen, old(chip).eng, chip.eng, |accepted| - |old(accepted)|)
      ensures Tracks(chip) && (fenced ==> LowMemoryKept(old(chip).eng, chip.eng))
    {
      hide WriteReg, WriteConfig, WriteEngine, RingTracks, Fenced;
      ghost var mid;
      status, mid := WriteCtlReg(reg, value);
      PlainWrite(mid, reg, value);
      KeepTracks(mid, chip);
    }

    /** `enc28_do_write_ctl_reg` on MICMD. */
    method WriteMicmd(value: Byte) returns (status: CommandStatus)
      requires Tracks(chip)
      requires chip.cfg.bsel == 2
      modifies this`chip, this`accepted
      ensures status == OK
      ensures old(accepted) <= accepted
      ensures chip.cfg == old(chip).cfg.(regs := old(chip).cfg.regs[64 + MICMD := value])
      ensures Carried(chip.cfg.rxen, old(chip).eng, chip.eng, |accepted| - |old(accepted)|)
      ensures Bit(value, 0) ==> chip.eng.miBusy > 0
      ensures !Bit(value, 0) ==> MiiCarried(chip.cfg.regs[64 + MIREGADR], old(chip).eng, chip.eng)
      ensures Tracks(chip) && (fenced ==> LowMemoryKept(old(chip).eng, chip.eng))
    {
      hide WriteReg, WriteConfig, WriteEngine, Bit, RingTracks, Fenced;
      ghost var mid;
      status, mid := WriteCtlReg(MICMD, value);
      MicmdWrite(mid, value);
      KeepTracks(mid, chip);
    }

    /** `enc28_do_read_ctl_reg` on a register that just keeps its value. */
    method ReadPlain(reg: Byte) returns (status: CommandStatus, value: Byte)
      requires Tracks(chip) && Coherent()
      requires reg < RESERVED && Plain(chip.cfg.bsel, reg) && !Unimplemented(chip.cfg.bsel, reg)
      modifies this`chip, this`accepted
      ensures status == OK && value == chip.cfg.regs[Index(chip.cfg.bsel, reg)]
      ensures old(accepted) <= accepted
      ensures chip.cfg == old(chip).cfg
      ensures Carried(chip.cfg.rxen, old(chip).eng, chip.eng, |accepted| - |old(accepted)|)
      ensures Tracks(chip) && (fenced ==> LowMemoryKept(old(chip).eng, chip.eng))
    {
      hide ReadReg, RingTracks, Fenced;
      ClassifierExact(currBank, reg);
      status, value := ReadCtlReg(reg);
      PlainRead(chip, reg);
    }

    // Pairs of `enc28_do_write_ctl_reg` calls that store a 13-bit address, low byte first.

    method WriteErdpt(lo: Byte, hi: Byte) returns (status: CommandStatus)
      requires Tracks(chip) && chip.cfg.bsel == 0
      modifies this`chip, this`accepted
      ensures status == OK
      ensures old(accepted) <= accepted
      ensures chip.cfg == old(chip).cfg.(erdpt := Pair(lo, hi % 32))
      ensures Carried(chip.cfg.rxen, old(chip).eng, chip.eng, |accepted| - |old(accepted)|)
      ensures Tracks(chip) && (fenced ==> LowMemoryKept(old(chip).eng, chip.eng))
    {
      hide WriteReg, WriteConfig, WriteEngine, RingTracks, Fenced;
      ghost var mid;
      status, mid := WriteCtlReg(ERDPTL, lo);
      PointerWrite(mid, ERDPTL, lo);
      KeepTracks(mid, chip);
      if status != OK { return; }
      status, mid := WriteCtlReg(ERDPTH, hi);
      PointerWrite(mid, ERDPTH, hi);
      KeepTracks(mid, chip);
    }

    method WriteEwrpt(lo: Byte, hi: Byte) returns (status: CommandStatus)
      requires Tracks(chip) && chip.cfg.bsel == 0
      modifies this`chip, this`accepted
      ensures status == OK
      ensures old(accepted) <= accepted
      ensures chip.cfg == old(chip).cfg.(ewrpt := Pair(lo, hi % 32))
      ensures Carried(chip.cfg.rxen, old(chip).eng, chip.eng, |accepted| - |old(accepted)|)
      ensures Tracks(chip) && (fenced ==> LowMemoryKept(old(chip).eng, chip.eng))
    {
      hide WriteReg, WriteConfig, WriteEngine, RingTracks, Fenced;
      ghost var mid;
      status, mid := WriteCtlReg(EWRPTL, lo);
      PointerWrite(mid, EWRPTL, lo);
      KeepTracks(mid, chip);
      if status != OK { return; }
      status, mid := WriteCtlReg(EWRPTH, hi);
      PointerWrite(mid, EWRPTH, hi);
      KeepTracks(mid, chip);
    }

    method WriteEtxst(lo: Byte, hi: Byte) returns (status: CommandStatus)
      requires Tracks(chip) && chip.cfg.bsel == 0
      modifies this`chip, this`accepted
      ensures status == OK
      ensures old(accepted) <= accepted
      ensures chip.cfg == old(chip).cfg.(etxst := Pair(lo, hi % 32))
      ensures Carried(chip.cfg.rxen, old(chip).eng, chip.eng, |accepted| - |old(accepted)|)
      ensures Tracks(chip) && (fenced ==> LowMemoryKept(old(chip).eng, chip.eng))
    {
      hide WriteReg, WriteConfig, WriteEngine, RingTracks, Fenced;
      ghost var mid;
      status, mid := WriteCtlReg(ETXSTL, lo);
      PointerWrite(mid, ETXSTL, lo);
      KeepTracks(mid, chip);
      if status != OK { return; }
      status, mid := WriteCtlReg(ETXSTH, hi);
      PointerWrite(mid, ETXSTH, hi);
      KeepTracks(mid, chip);
    }

    method WriteEtxnd(lo: Byte, hi: Byte) returns (status: CommandStatus)
      requires Tracks(chip) && chip.cfg.bsel == 0
      requires !chip.eng.txrts
      modifies this`chip, this`accepted
      ensures status == OK
      ensures old(accepted) <= accepted
      ensures chip.cfg == old(chip).cfg.(etxnd := Pair(lo, hi % 32))
      ensures Carried(chip.cfg.rxen, old(chip).eng, chip.eng, |accepted| - |old(accepted)|)
      ensures Tracks(chip) && (fenced ==> LowMemoryKept(old(chip).eng, chip.eng))
    {
      hide WriteReg, WriteConfig, WriteEngine, RingTracks, Fenced;
      ghost var mid;
      status, mid := WriteCtlReg(ETXNDL, lo);
      PointerWrite(mid, ETXNDL, lo);
      IdleFrame(mid, chip, accepted, delivered, h, r);
      if status != OK { return; }
      status, mid := WriteCtlReg(ETXNDH, hi);
      PointerWrite(mid, ETXNDH, hi);
      IdleFrame(mid, chip, accepted, delivered, h, r);
    }

    // -------------------------------------------------------------- PHY and MAC registers

    /** `enc28_do_read_phy_register`: right for every PHY register, starting bank and busy time. */
    method ReadPhyRegister(reg: Byte) returns (status: CommandStatus, value: Word)
      requires Tracks(chip)
      modifies this`chip, this`accepted, this`currBank
      ensures status == if IsPhyReg(reg) then OK else INVALID_PARAM
      ensures !IsPhyReg(reg) ==> chip == old(chip) && accepted == old(accepted) && currBank == old(currBank)
      ensures old(accepted) <= accepted
      ensures IsPhyReg(reg) ==>
                && value == old(chip).eng.phy[reg]
                && currBank == 2
                && chip.cfg == old(chip).cfg.(bsel := 2,
                     regs := old(chip).cfg.regs[64 + MIREGADR := reg][64 + MICMD := 0])
                && Carried(chip.cfg.rxen, old(chip).eng, chip.eng, |accepted| - |old(accepted)|)
      ensures Tracks(chip) && (fenced ==> LowMemoryKept(old(chip).eng, chip.eng))
    {
      value := 0;
      if !IsPhyReg(reg) {
        return INVALID_PARAM, value;
      }
      hide RingTracks, Fenced;
      status := StartPhyRead(reg);
      if status != OK { return; }
      status := AwaitPhy();
      if status != OK { return; }
      status, value := FetchPhy();
    }

    /** Selects the PHY register and sets MICMD.MIIRD (enc28j60.c, lines 562 to 574). */
    method StartPhyRead(reg: Byte) returns (status: CommandStatus)
      requires Tracks(chip) && IsPhyReg(reg)
      modifies this`chip, this`accepted, this`currBank
      ensures status == OK && currBank == 2
      ensures old(accepted) <= accepted
      ensures chip.cfg == old(chip).cfg.(bsel := 2,
                regs := old(chip).cfg.regs[64 + MIREGADR := reg][64 + MICMD := 1])
      ensures Carried(chip.cfg.rxen, old(chip).eng, chip.eng, |accepted| - |old(accepted)|)
      ensures chip.eng.miBusy > 0
      ensures Tracks(chip) && (fenced ==> LowMemoryKept(old(chip).eng, chip.eng))
    {
      hide RingTracks, Fenced;
      status := SelectBank(2);
      if status != OK { return; }
      status := WritePlain(MIREGADR, reg);
      if status != OK { return; }
      status := WriteMicmd(1);
    }

    /** Polls MISTAT.BUSY (enc28j60.c, lines 576 to 592); it ends because every read takes time. */
    method AwaitPhy() returns (status: CommandStatus)
      requires Tracks(chip)
      modifies this`chip, this`accepted, this`currBank
      ensures status == OK && currBank == 3
      ensures old(accepted) <= accepted
      ensures chip.cfg == old(chip).cfg.(bsel := 3)
      ensures Carried(chip.cfg.rxen, old(chip).eng, chip.eng, |accepted| - |old(accepted)|)
      ensures MiiCarried(chip.cfg.regs[64 + MIREGADR], old(chip).eng, chip.eng)
      ensures chip.eng.miBusy == 0
      ensures Tracks(chip) && (fenced ==> LowMemoryKept(old(chip).eng, chip.eng))
    {
      hide RingTracks, Fenced;
      status := SelectBank(3);
      if status != OK { return; }
      while status == OK
        invariant status == OK && currBank == 3
        invariant old(accepted) <= accepted
        invariant chip.cfg == old(chip).cfg.(bsel := 3)
        invariant Carried(chip.cfg.rxen, old(chip).eng, chip.eng, |accepted| - |old(accepted)|)
        invariant MiiCarried(chip.cfg.regs[64 + MIREGADR], old(chip).eng, chip.eng)
        invariant Tracks(chip) && (fenced ==> LowMemoryKept(old(chip).eng, chip.eng))
        decreases chip.eng.miBusy
      {
        var mistat;
        status, mistat := ReadCtlReg(MISTAT);
        if status != OK { return; }
        if mistat % 2 == 0 {
          break;
        }
      }
    }

    /** Clears MICMD.MIIRD and reads the result (enc28j60.c, lines 594 to 611). */
    method FetchPhy() returns (status: CommandStatus, value: Word)
      requires Tracks(chip) && chip.eng.miBusy == 0
      modifies this`chip, this`accepted, this`currBank
      ensures status == OK && currBank == 2
      ensures value == old(chip).eng.mird
      ensures old(accepted) <= accepted
      ensures chip.cfg == old(chip).cfg.(bsel := 2, regs := old(chip).cfg.regs[64 + MICMD := 0])
      ensures Carried(chip.cfg.rxen, old(chip).eng, chip.eng, |accepted| - |old(accepted)|)
      ensures Tracks(chip) && (fenced ==> LowMemoryKept(old(chip).eng, chip.eng))
    {
      hide RingTracks, Fenced;
      value := 0;
      status := SelectBank(2);
      if status != OK { return; }
      status := WriteMicmd(0);
      if status != OK { return; }
      var lo, hi;
      status, lo := ReadCtlReg(MIRDL);
      if status != OK { return; }
      status, hi := ReadCtlReg(MIRDH);
      if status != OK { return; }
      value := hi as int * 256 + lo;
    }

    // -------------------------------------------------------------- receiving

    /** The frame the next call of `enc28_read_packet` is about. */
    ghost function Oldest(): Frame
      reads this`accepted, this`delivered
      requires |delivered| < |accepted|
    {
      accepted[|delivered|]
    }

    /** Between driver calls: the read pointer stands at the oldest waiting frame and the packet count
        is the number of waiting frames. */
    ghost predicate Synced()
      reads this`chip, this`currBank, this`live, this`fenced, this`accepted, this`delivered, this`h, this`r
    {
      && Coherent() && live && Tracks(chip) && delivered <= accepted
      && chip.cfg.autoinc && Address(chip.cfg.erdpt) == At(h)
      && chip.eng.pkts == |accepted| - |delivered|
    }

    /** The ring can hold the frames that wait, and `extra` bytes more. */
    ghost predicate Fits(extra: nat)
      reads this`accepted, this`delivered
    {
      |delivered| <= |accepted| && Span(accepted[|delivered|..]) <= SIZE + extra
    }

    /** What a call leaves behind that found driver and chip in step. */
    ghost predicate Leaves(left: Outcome, bufSize: nat, vec: StatusVector,
                           buf: seq<Byte>, buf': seq<Byte>, delivered0: seq<Frame>, tight: bool)
      reads this`chip, this`currBank, this`live, this`fenced, this`accepted, this`delivered, this`h, this`r
    {
      && Ranged(left, |accepted|)
      // exactly this decides whether they still are
      && (Synced() <==> InStep(left))
      && delivered == delivered0 + (if left.Took? then [accepted[left.first]] else [])
      && (left.Took? ==>
            && (Intact(left, accepted) ==> Received(buf, buf', bufSize, vec, accepted[left.first]))
            && (Tight(h, r) <==> Spanning(accepted, left.first + 1, left.upTo) < SIZE))
      // the pointer read was wrong, and is where the read pointer went
      && (left.Misled? ==> Address(chip.cfg.erdpt) != At(h + RecLen(accepted[left.first])))
      && (left.Refused? ==>
            && Address(chip.cfg.erdpt) == At(h + 6) && chip.eng.pkts == |accepted| - |delivered|
            && (HeadFits(left, accepted) ==> Describes(vec, accepted[left.first])))
      // with a tight limit nothing is overwritten
      && (tight ==> HeadFits(left, accepted) && Intact(left, accepted) && (left.Took? ==> Tight(h, r)))
    }

    /** `enc28_read_packet`: the first command reads EIR, then one of three branches follows.  `Entered` says
        which branch, about which frame, and what the caller gets; see module ReadLog. */
    method ReadPacket(buf: array<Byte>, bufSize: nat)
      returns (status: CommandStatus, vec: StatusVector, ghost left: Outcome)
      requires Coherent() && Tracks(chip)
      requires bufSize <= buf.Length
      modifies this`chip, this`accepted, this`currBank, this`live, this`delivered, this`h, this`r, this`history, buf
      ensures Coherent() && Tracks(chip) && RestKept(old(chip), chip)
      ensures old(accepted) <= accepted && old(delivered) <= delivered
      ensures status == OK ==> PacketLen(vec) <= bufSize && buf[PacketLen(vec)..] == old(buf[PacketLen(vec)..])
      ensures status != OK ==> buf[..] == old(buf[..])
      ensures history == old(history) + [ReadEntry(status, left, Returned(status, buf[..], vec))]
      ensures Entered(ReadEntry(status, left, Returned(status, buf[..], vec)),
                      |old(delivered)|, |old(accepted)|, accepted, bufSize)
      ensures if old(Synced()) then
                !left.Astray? && Leaves(left, bufSize, vec, old(buf[..]), buf[..], old(delivered), old(Tight(h, r)))
              else left.Astray? && delivered == old(delivered) && !Synced()
      // the flags and the read pointer decide, in step or not
      ensures status == READ_PTR_OUT_OF_RANGE ==> OutsideRing(old(chip).cfg.erdpt)
      ensures old(chip).eng.pkts > 0 ==>
                (status == READ_PTR_OUT_OF_RANGE <==> OutsideRing(old(chip).cfg.erdpt)) && status != NO_DATA
      ensures status == NO_DATA ==> chip.eng.pkts == 0 && !chip.eng.rxerif
      ensures old(chip).eng.pkts == 0 && !old(chip).cfg.rxen ==>
                status == (if old(chip).eng.rxerif then PACKET_RCV_ERR else NO_DATA) && !chip.eng.rxerif
      ensures left.Reset? ==> !chip.eng.rxerif
      // no frame is passed over: the other two branches need an empty ring
      ensures left.Nothing? || left.Reset? ==> |old(delivered)| == |old(accepted)|
      ensures left.Nothing? ==> !old(chip).eng.rxerif && h == old(h) && r == old(r)
      ensures left.Reset? ==>
                && left.oldest == At(h) && left.wr == At(h + Spanning(accepted, left.first, left.upTo))
                && (Tight(h, r) <==> left.wr >= left.oldest)
    {
      hide Bit, RingTracks, Fenced, Address, Tight, Entered, Span, At, Synced, RestKept, Spanning, Leaves;
      vec := StatusVector(0, 0, 0, 0);
      var val;
      val := ReadEir();
      ghost var inStep, taken, read := live, |accepted|, chip;
      assert buf[..] == old(buf[..]);
      status, vec, left := HandleEvent(val, buf, bufSize);
      RestKeptTrans(old(chip), read, chip);
      if inStep {
        EnteredElsewhere(ReadEntry(status, left, Returned(status, buf[..], vec)), |old(delivered)|, |old(delivered)|,
                         taken, |old(accepted)|, accepted, bufSize);
      } else {
        left := Astray;
        AstrayEntered(status, Returned(status, buf[..], vec), |old(delivered)|, |old(accepted)|, accepted, bufSize);
      }
      history := history + [ReadEntry(status, left, Returned(status, buf[..], vec))];
    }

    /** EIR as a read finds it: PKTIF is set if and only if a packet waits.  Once driver and chip are out of step
        nothing more is said about the ring. */
    method ReadEir() returns (val: Byte)
      requires Coherent() && Tracks(chip)
      modifies this`chip, this`accepted, this`live
      ensures live == old(Synced()) == Synced() && Coherent() && Tracks(chip) && RestKept(old(chip), chip)
      ensures old(accepted) <= accepted
      ensures (Bit(val, 6) <==> chip.eng.pkts > 0) && (Bit(val, 0) <==> chip.eng.rxerif)
      ensures Carried(chip.cfg.rxen, old(chip).eng, chip.eng, |accepted| - |old(accepted)|)
      ensures chip.cfg == old(chip).cfg
      ensures live && chip.eng.pkts == 0 ==> |old(accepted)| == |accepted| == |delivered|
    {
      hide ReadReg, EirByte, Bit, RingTracks, Fenced, Address, LowMemoryKept, MiiCarried;
      live := Synced();
      var status;
      status, val := ReadCtlReg(EIR);
      EirBits(chip);
    }

    /** The three branches of `enc28_read_packet` (enc28j60.c, lines 656 to 756): a pending packet comes
        first, the receive error flag decides between the other two. */
    method HandleEvent(val: Byte, buf: array<Byte>, bufSize: nat)
      returns (status: CommandStatus, vec: StatusVector, ghost left: Outcome)
      requires Coherent() && Tracks(chip) && (live ==> Synced()) && bufSize <= buf.Length
      requires (Bit(val, 6) <==> chip.eng.pkts > 0) && (Bit(val, 0) <==> chip.eng.rxerif)
      modifies this`chip, this`accepted, this`currBank, this`live, this`delivered, this`h, this`r, buf
      ensures Coherent() && Tracks(chip) && RestKept(old(chip), chip)
      ensures old(accepted) <= accepted && old(delivered) <= delivered && (live ==> old(live))
      ensures status == OK ==> PacketLen(vec) <= bufSize && buf[PacketLen(vec)..] == old(buf[PacketLen(vec)..])
      ensures status != OK ==> buf[..] == old(buf[..])
      ensures status == NO_DATA <==> old(chip).eng.pkts == 0 && !Bit(val, 0)
      ensures status == NO_DATA ==> chip == old(chip)
      ensures old(chip).eng.pkts == 0 && Bit(val, 0) ==> status == PACKET_RCV_ERR && !chip.eng.rxerif
      ensures status == READ_PTR_OUT_OF_RANGE <==> old(chip).eng.pkts > 0 && OutsideRing(old(chip).cfg.erdpt)
      ensures !old(live) ==> delivered == old(delivered) && !Synced()
      ensures old(live) ==>
                && !left.Astray? && (left.Reset? <==> old(chip).eng.pkts == 0 && Bit(val, 0))
                && Entered(ReadEntry(status, left, Returned(status, buf[..], vec)),
                           |old(delivered)|, |old(accepted)|, accepted, bufSize)
                && Leaves(left, bufSize, vec, old(buf[..]), buf[..], old(delivered), old(Tight(h, r)))
                && (left.Nothing? ==> h == old(h) && r == old(r))
                && (left.Nothing? || left.Reset? ==> Synced())
                && (left.Reset? ==>
                      && left.oldest == At(h) && left.wr == At(h + Spanning(accepted, left.first, left.upTo))
                      && (Tight(h, r) <==> left.wr >= left.oldest))
    {
      hide Bit, RingTracks, Fenced, Address, Received, Tight, Span, At, IsRefusal;
      vec := StatusVector(0, 0, 0, 0);
      left := Nothing;
      if Bit(val, 6) {
        status, vec, left := ReadPending(buf, bufSize);
      } else if Bit(val, 0) {
        status, left := ResetReceiver();
      } else {
        return NO_DATA, vec, left;
      }
    }

    /** The packet branch (enc28j60.c, lines 656 to 737). */
    method ReadPending(buf: array<Byte>, bufSize: nat)
      returns (status: CommandStatus, vec: StatusVector, ghost left: Outcome)
      requires Coherent() && Tracks(chip) && (live ==> Synced())
      requires live ==> |delivered| < |accepted|
      requires bufSize <= buf.Length
      modifies this`chip, this`accepted, this`currBank, this`live, this`delivered, this`h, this`r, buf
      ensures Coherent() && Tracks(chip) && RestKept(old(chip), chip) && (live ==> old(live))
      ensures old(accepted) <= accepted && old(delivered) <= delivered
      ensures status == OK ==> PacketLen(vec) <= bufSize && buf[PacketLen(vec)..] == old(buf[PacketLen(vec)..])
      ensures status != OK ==> buf[..] == old(buf[..])
      ensures status != NO_DATA && (!old(live) ==> delivered == old(delivered))
      ensures status == READ_PTR_OUT_OF_RANGE <==> OutsideRing(old(chip).cfg.erdpt)
      ensures old(live) ==>
                && (left.Took? || left.Misled? || left.Refused?)
                && Entered(ReadEntry(status, left, Returned(status, buf[..], vec)),
                           |old(delivered)|, |old(accepted)|, accepted, bufSize)
                && Leaves(left, bufSize, vec, old(buf[..]), buf[..], old(delivered), old(Tight(h, r)))
    {
      hide Bit, RingTracks, Fenced, Address, Received, Tight, Span, At, IsRefusal, Entered, Leaves, HeadFits, Intact;
      vec := StatusVector(0, 0, 0, 0);
      left := Nothing;
      status := SelectBank(0);
      if status != OK { return; }
      var readPtr := ReadReadPointer();
      if readPtr < RX_START || readPtr > RX_END {
        return READ_PTR_OUT_OF_RANGE, vec, left;
      }
      ghost var taken := |accepted|;
      assert buf[..] == old(buf[..]);
      status, vec, left := ReadRecord(buf, bufSize);
      if old(live) {
        EnteredElsewhere(ReadEntry(status, left, Returned(status, buf[..], vec)), |old(delivered)|, |old(delivered)|,
                         taken, |old(accepted)|, accepted, bufSize);
      }
    }

    /** While driver and chip are in step, the read pointer stands at position `p` of a waiting frame. */
    ghost predicate ReadsAt(p: nat)
      reads this
    {
      live ==> chip.cfg.autoinc && Address(chip.cfg.erdpt) == At(p) && |delivered| < |accepted|
    }

    /** Reads the head of the record, then takes the frame or refuses it (enc28j60.c, lines 672 to 736). */
    method ReadRecord(buf: array<Byte>, bufSize: nat)
      returns (status: CommandStatus, vec: StatusVector, ghost left: Outcome)
      requires Tracks(chip) && ReadsAt(h)
      requires chip.cfg.bsel == 0 == currBank && bufSize <= buf.Length
      requires live ==> chip.eng.pkts == |accepted| - |delivered|
      modifies this`chip, this`accepted, this`currBank, this`live, this`delivered, this`h, this`r, buf
      ensures Coherent() && Tracks(chip) && RestKept(old(chip), chip) && (live ==> old(live))
      ensures old(accepted) <= accepted && old(delivered) <= delivered
      ensures status == OK ==> PacketLen(vec) <= bufSize && buf[PacketLen(vec)..] == old(buf[PacketLen(vec)..])
      ensures status != OK ==> buf[..] == old(buf[..])
      ensures status in {OK, PACKET_RCV_ERR, BUFFER_TOO_SMALL}
      ensures !old(live) ==> delivered == old(delivered)
      ensures old(live) ==>
                && (left.Took? || left.Misled? || left.Refused?)
                && Entered(ReadEntry(status, left, Returned(status, buf[..], vec)),
                           |old(delivered)|, |old(accepted)|, accepted, bufSize)
                && Leaves(left, bufSize, vec, old(buf[..]), buf[..], old(delivered), old(Tight(h, r)))
    {
      hide Bit, RingTracks, Fenced, Address, Tight, At, LowMemoryKept, Entered, Received, RecLen, Span;
      var hdr := ReadHeader();
      vec := StatusVector(hdr[3], hdr[4], hdr[5], hdr[6]);
      left := Refused(|delivered|, |accepted|);
      InsideRecord(h);
      if live {
        TightTracks(chip, accepted, delivered, h, r);
        SpanningAt(accepted, accepted, |delivered|);
      }
      if !ReceivedOk(vec) {
        if live { RefusedEntered(PACKET_RCV_ERR, left, [], |old(accepted)|, accepted, bufSize); }
        return PACKET_RCV_ERR, vec, left;
      }
      var packetLen := PacketLen(vec);
      if packetLen > bufSize {
        if live { RefusedEntered(BUFFER_TOO_SMALL, left, [], |old(accepted)|, accepted, bufSize); }
        return BUFFER_TOO_SMALL, vec, left;
      }
      ghost var atHead, intact := accepted, live && Fits(0);
      status, left := TakePacket(buf, packetLen, hdr[1], hdr[2], intact);
      if old(live) {
        SpanningAt(atHead, accepted, left.first);
        if intact && Intact(left, accepted) && left.Took? {
          ReceivedWhole(old(buf[..]), buf[..], bufSize, vec, accepted[left.first]);
        }
        TookEntered(left, Returned(OK, buf[..], vec), |old(accepted)|, accepted, bufSize);
      }
    }

    /** Reads the frame, gives its room back and counts it off (enc28j60.c, lines 702 to 736).  `intact` says
        that the head was. */
    method TakePacket(buf: array<Byte>, packetLen: nat, nextLo: Byte, nextHi: Byte, ghost intact: bool)
      returns (status: CommandStatus, ghost left: Outcome)
      requires Tracks(chip) && ReadsAt(h + 6)
      requires chip.cfg.bsel == 0 == currBank && packetLen <= buf.Length
      requires live ==> chip.eng.pkts == |accepted| - |delivered|
      requires intact == (live && Fits(0))
      requires intact ==>
                 && packetLen == |Oldest().data|
                 && Address(Pair(nextLo, nextHi % 32)) == At(h + RecLen(Oldest()))
      modifies this`chip, this`accepted, this`currBank, this`live, this`delivered, this`h, this`r, buf
      ensures status == OK && (live ==> old(live))
      ensures Coherent() && Tracks(chip) && RestKept(old(chip), chip)
      ensures old(accepted) <= accepted && old(delivered) <= delivered
      ensures !old(live) ==> delivered == old(delivered)
      ensures buf[packetLen..] == old(buf[packetLen..])
      ensures old(live) ==>
                && (left.Took? || left.Misled?) && Ranged(left, |accepted|)
                && left.first == |old(delivered)| && left.head == |old(accepted)|
                && (left.Took? <==> Address(Pair(nextLo, nextHi % 32)) == At(old(h + RecLen(Oldest()))))
                && (Synced() <==> left.Took?)
                && delivered == old(delivered) + (if left.Took? then [old(Oldest())] else [])
                && (left.Took? && intact && Spanning(accepted, left.first, left.body) <= SIZE + 6 ==>
                      buf[..packetLen] == old(Oldest()).data)
                && (left.Took? ==> (Tight(h, r) <==> Spanning(accepted, left.first + 1, left.upTo) < SIZE))
                && (left.Misled? ==> Address(chip.cfg.erdpt) != At(h + RecLen(old(Oldest()))))
                && (old(Tight(h, r)) ==>
                      && Spanning(accepted, left.first, left.head) <= SIZE
                      && (left.Took? ==> Spanning(accepted, left.first, left.body) <= SIZE && Tight(h, r)))
    {
      hide RingTracks, Fenced, Address, Tight, Span, At, RecLen, LowMemoryKept, Spanning, Split, ReadLimit;
      left := Astray;
      ghost var first, head, turn := |delivered|, |accepted|, if live then Oldest() else Frame([], 0, 0);
      ReadBody(buf, packetLen, intact);
      ghost var atBody := accepted;
      if live { TightTracks(chip, accepted, delivered, h, r); }
      status := AdvanceRing(nextLo, nextHi);
      ghost var atLimit := accepted;
      if status != OK { return; }
      status := CountOff();
      if old(live) {
        left := if live then Took(first, head, |atBody|, |atLimit|) else Misled(first, head);
        SpanningAt(old(accepted), accepted, first);
        SpanningAt(atBody, accepted, first);
        SpanningAt(atLimit, accepted, first + 1);
        SpanningGrows(accepted, first, head, |atBody|);
      }
    }

    /** Sets ECON2.PKTDEC. */
    method CountOff() returns (status: CommandStatus)
      requires Tracks(chip)
      modifies this`chip, this`accepted
      ensures status == OK && Tracks(chip) && old(accepted) <= accepted && (live ==> delivered <= accepted)
      ensures chip.cfg == old(chip).cfg
      ensures old(chip).eng.pkts > 0 ==> chip.eng.pkts == old(chip).eng.pkts + |accepted| - |old(accepted)| - 1
      ensures RestKept(old(chip), chip)
    {
      hide SetBits, Econ2Byte, RingTracks, Fenced, LowMemoryKept;
      ghost var mid;
      status, mid := SetBitsCtlReg(ECON2, PKTDEC);
      PacketDecrement(mid);
      KeepTracks(mid, chip);
      if live { InOrder(chip, accepted, delivered, h, r); }
    }

    /** ERDPT from its two registers; errors of the two reads are ignored there as well. */
    method ReadReadPointer() returns (readPtr: nat)
      requires Tracks(chip) && chip.cfg.bsel == 0 == currBank
      modifies this`chip, this`accepted
      ensures old(accepted) <= accepted
      ensures chip.cfg == old(chip).cfg && readPtr == Address(chip.cfg.erdpt)
      ensures Carried(chip.cfg.rxen, old(chip).eng, chip.eng, |accepted| - |old(accepted)|)
      ensures Tracks(chip)
    {
      hide RingTracks, Fenced, LowMemoryKept;
      var status, lo, hi;
      status, lo := ReadCtlReg(ERDPTL);
      status, hi := ReadCtlReg(ERDPTH);
      readPtr := Address(Pair(lo, hi % 32));
    }

    /** One command: the opcode and six bytes of the record head. */
    method ReadHeader() returns (hdr: seq<Byte>)
      requires Tracks(chip) && ReadsAt(h)
      modifies this`chip, this`accepted
      ensures old(accepted) <= accepted
      ensures |hdr| == 7
      ensures live && Fits(0) ==>
                && |delivered| < |accepted|
                && Address(Pair(hdr[1], hdr[2] % 32)) == At(h + RecLen(Oldest()))
                && PacketLen(StatusVector(hdr[3], hdr[4], hdr[5], hdr[6])) == |Oldest().data|
                && hdr[5] == Oldest().status && hdr[6] == Oldest().status2
      ensures chip.cfg == old(chip).cfg.(erdpt := chip.cfg.erdpt) && ReadsAt(h + 6)
      ensures Carried(chip.cfg.rxen, old(chip).eng, chip.eng, |accepted| - |old(accepted)|)
      ensures Tracks(chip)
    {
      hide Transact, ReadMemory, RingTracks, Fenced, Address, Split;
      ghost var mid;
      hdr, mid := Spi([0x3A, 0, 0, 0, 0, 0, 0]);
      ReadMemoryCommand(mid, [0x3A, 0, 0, 0, 0, 0, 0]);
      KeepTracks(mid, chip);
      if live {
        HeadMoves(mid, accepted, delivered, h, r);
        SplitAddress(At(h + 6));
        if Fits(0) {
          OldestHead(mid, accepted, delivered, h, r);
          HeadDecodes(Oldest(), At(h + RecLen(Oldest())));
        }
      }
    }

    /** One command: the opcode and the frame itself.  What it reads is the frame if `known`, that is, if the
        length is that of the frame, and if by then the chip had at most come round to the head. */
    method ReadBody(buf: array<Byte>, packetLen: nat, ghost known: bool)
      requires Tracks(chip) && ReadsAt(h + 6)
      requires packetLen <= buf.Length && (live && known ==> packetLen == |Oldest().data|)
      modifies this`chip, this`accepted, buf
      ensures old(accepted) <= accepted
      ensures live ==> |delivered| < |accepted| && Oldest() == old(Oldest())
      ensures live && known && Fits(6) ==> buf[..packetLen] == Oldest().data
      ensures buf[packetLen..] == old(buf[packetLen..])
      ensures chip.cfg == old(chip).cfg.(erdpt := chip.cfg.erdpt)
      ensures Carried(chip.cfg.rxen, old(chip).eng, chip.eng, |accepted| - |old(accepted)|)
      ensures Tracks(chip)
    {
      hide Transact, ReadMemory, RingTracks, Fenced, Address, Split;
      var rx;
      ghost var mid;
      var tx := [0x3A] + seq(packetLen, _ => 0);
      rx, mid := Spi(tx);
      ReadMemoryCommand(mid, tx);
      KeepTracks(mid, chip);
      if live && known && Fits(6) {
        OldestBody(mid, accepted, delivered, h, r);
      }
      forall i | 0 <= i < packetLen {
        buf[i] := rx[i + 1];
      }
    }

    /** Sets ERXRDPT; the new limit counts from the write to ERXRDPTH on, which meets the chip `mid`. */
    method WriteLimit(limit: Pointer) returns (status: CommandStatus, ghost mid: Chip)
      requires Tracks(chip) && chip.cfg.bsel == 0
      modifies this`chip, this`accepted
      ensures status == OK
      ensures old(accepted) <= accepted
      ensures mid.cfg == old(chip).cfg.(latch := Split(limit).lo)
      ensures Carried(mid.cfg.rxen, old(chip).eng, mid.eng, |accepted| - |old(accepted)|)
      ensures Tracks(mid)
      ensures chip == mid.(cfg := mid.cfg.(erxrdpt := Split(limit)))
    {
      hide WriteReg, WriteConfig, WriteEngine, Split;
      status, mid := WriteCtlReg(ERXRDPTL, Split(limit).lo);
      PointerWrite(mid, ERXRDPTL, Split(limit).lo);
      if status != OK { return; }
      status, mid := WriteCtlReg(ERXRDPTH, Split(limit).hi);
      PointerWrite(mid, ERXRDPTH, Split(limit).hi);
    }

    /** Moves ERDPT to the next record and ERXRDPT to just before it (enc28j60.c, lines 708 to 732).
        From the write to ERXRDPTH on, the oldest frame is no longer in the ring.  That goes well if and only
        if the pointer read is that of the next record, and leaves a tight limit if and only if the ring can
        hold what still waits. */
    method AdvanceRing(nextLo: Byte, nextHi: Byte) returns (status: CommandStatus)
      requires Tracks(chip) && chip.cfg.bsel == 0 == currBank
      requires live ==> |delivered| < |accepted|
      modifies this`chip, this`accepted, this`live, this`delivered, this`h, this`r
      ensures status == OK && (live ==> old(live))
      ensures Tracks(chip) && currBank == old(currBank)
      ensures old(accepted) <= accepted
      ensures old(live) ==>
                (live <==> Address(Pair(nextLo, nextHi % 32)) == At(old(h + RecLen(Oldest()))))
      ensures delivered == old(delivered) + if live then [old(Oldest())] else []
      ensures if live then h == old(h + RecLen(Oldest())) else h == old(h)
      ensures live ==>
                && |old(delivered)| < |accepted|
                && (Tight(h, r) <==> Span(accepted[|old(delivered)| + 1..]) < SIZE)
                && (old(Tight(h, r)) ==> Tight(h, r))
      ensures chip.cfg == old(chip).cfg.(erdpt := Pair(nextLo, nextHi % 32),
                                         erxrdpt := Split(ReadLimit(Address(Pair(nextLo, nextHi % 32)))),
                                         latch := chip.cfg.latch)
      ensures Carried(chip.cfg.rxen, old(chip).eng, chip.eng, |accepted| - |old(accepted)|)
    {
      hide RingTracks, Fenced, Split, Tight, Address, RecLen, LowMemoryKept, Span, At;
      ghost var next := Address(Pair(nextLo, nextHi % 32));
      var pp := Address(Pair(nextLo, nextHi % 32));
      status := WriteErdpt(nextLo, nextHi);
      if status != OK { return; }
      if pp - 1 > RX_END || pp - 1 < RX_START {
        pp := RX_END;
      } else {
        pp := pp - 1;
      }
      ghost var mid;
      status, mid := WriteLimit(pp);
      if fenced { FencedLimit(mid, chip, pp); }
      ReleaseOldest(mid, next);
    }

    /** The moment the limit passes the oldest frame, to just before address `next`. */
    ghost method ReleaseOldest(mid: Chip, next: nat)
      requires Tracks(mid) && (fenced ==> Fenced(chip))
      requires live ==> |delivered| < |accepted|
      requires chip == mid.(cfg := mid.cfg.(erxrdpt := Split(ReadLimit(next))))
      modifies this`live, this`delivered, this`h, this`r
      ensures old(live) ==> (live <==> next == At(old(h + RecLen(Oldest()))))
      ensures (live ==> old(live)) && Tracks(chip)
      ensures delivered == old(delivered) + if live then [old(Oldest())] else []
      ensures if live then h == old(h + RecLen(Oldest())) else h == old(h)
      ensures live ==>
                && (Tight(h, r) <==> Span(accepted[|old(delivered)| + 1..]) < SIZE)
                && (old(Tight(h, r)) ==> Tight(h, r))
    {
      hide RingTracks, Fenced, Split, Address, Tight, RecLen, Span, At, LimitFrom;
      if live { TightTracks(mid, accepted, delivered, h, r); }
      live := live && next == At(h + RecLen(Oldest()));
      if live {
        OldestReleased(mid, chip, accepted, delivered, h, r);
        h, r := h + RecLen(Oldest()), LimitFrom(h + RecLen(Oldest()), h + Span(accepted[|delivered|..]));
        delivered := delivered + [Oldest()];
      }
    }

    /** The receive error branch (enc28j60.c, lines 738 to 751).  Frames may still come in while it runs;
        those taken in by the time the limit is set are all still there afterwards.  The new limit keeps
        the engine away from them if and only if they do not run past the end of the ring. */
    method ResetReceiver() returns (status: CommandStatus, ghost left: Outcome)
      requires Coherent() && Tracks(chip) && (live ==> Synced() && delivered == accepted)
      modifies this`chip, this`accepted, this`currBank, this`r
      ensures status == PACKET_RCV_ERR && left.Reset? && !chip.eng.rxerif
      ensures Coherent() && Tracks(chip) && RestKept(old(chip), chip)
      ensures old(accepted) <= accepted
      ensures live ==>
                && Synced() && left.first == |delivered| <= left.upTo <= |accepted| && |old(accepted)| <= left.upTo
                && left.oldest == At(h) && left.wr == At(h + Spanning(accepted, left.first, left.upTo))
                && Spanning(accepted, left.first, left.upTo) < SIZE
                && (Tight(h, r) <==> left.wr >= left.oldest)
    {
      hide ClearBits, EirByte, RingTracks, Fenced, Split, Tight, Span, At, AndNot, Address, LowMemoryKept;
      if live { TightTracks(chip, accepted, delivered, h, r); }
      status := SelectBank(0);
      left := LimitToEnd();
      ghost var taken := accepted;
      ghost var mid;
      status, mid := ClearBitsCtlReg(EIR, RXERIF);
      EirBitField(mid);
      KeepTracks(mid, chip);
      if live { SpanningAt(taken, accepted, left.first); }
      return PACKET_RCV_ERR, left;
    }

    method LimitToEnd() returns (ghost left: Outcome)
      requires Tracks(chip) && chip.cfg.bsel == 0 && (live ==> Tight(h, r))
      modifies this`chip, this`accepted, this`r
      ensures Tracks(chip) && old(accepted) <= accepted
      ensures left == Reset(|delivered|, |accepted|, At(h), chip.eng.wr)
      ensures chip.cfg == old(chip).cfg.(erxrdpt := Split(RX_END), latch := Split(RX_END).lo)
      ensures Carried(chip.cfg.rxen, old(chip).eng, chip.eng, |accepted| - |old(accepted)|)
      ensures live ==>
                && delivered <= accepted && Span(accepted[|delivered|..]) < SIZE
                && chip.eng.wr == At(h + Span(accepted[|delivered|..]))
                && (Tight(h, r) <==> chip.eng.wr >= At(h))
    {
      hide Split, Address, RingTracks, Fenced, Tight;
      ghost var status, mid;
      status, mid := WriteLimit(RX_END);
      left := Reset(|delivered|, |accepted|, At(h), chip.eng.wr);
      if fenced { FencedLimit(mid, chip, RX_END); }
      if live {
        LimitReset(mid, chip, accepted, delivered, h, r);
        r := EndFrom(h + Span(accepted[|delivered|..]));
      }
    }

    // -------------------------------------------------------------- transmitting

    /** `enc28_write_packet` */
    method WritePacket(packet: array<Byte>, bufSize: nat) returns (status: CommandStatus)
      requires Coherent() && Tracks(chip) && chip.cfg.autoinc
      requires bufSize <= packet.Length && bufSize < 65536
      modifies this`chip, this`accepted, this`currBank, this`live, this`fenced, this`sent
      ensures Coherent() && Tracks(chip)
      ensures old(accepted) <= accepted
      ensures status in {OK, INVALID_PARAM, PACKET_TX_IN_PROGRESS}
      ensures bufSize < 14 <==> status == INVALID_PARAM
      ensures status == PACKET_TX_IN_PROGRESS ==> old(chip).eng.txrts
      ensures status != OK ==>
                chip.cfg == old(chip).cfg && sent == old(sent) && live == old(live) && fenced == old(fenced)
      // what is handed to the transmitter: control byte and packet, from ETXST on
      ensures status == OK ==>
                && sent == old(sent) + [packet[..bufSize]] && chip.eng.txrts && !chip.eng.txif
                && Address(chip.cfg.etxst) == TX_START && TransmitKept(old(chip), chip)
                && chip.cfg.etxnd == Split((TX_START + bufSize + 1) % 65536)
      ensures status == OK && fenced ==>
                && Address(chip.cfg.etxnd) == TX_START + bufSize + 1
                && chip.eng.mem[TX_START..TX_START + 1 + bufSize] == [0] + packet[..bufSize]
      // packets of at most MAX_PACKET bytes keep clear of the ring, whatever arrives meanwhile
      ensures status == OK ==>
                live == (old(live) && bufSize <= MAX_PACKET) && fenced == (old(fenced) && bufSize <= MAX_PACKET)
      ensures Synced() <==> old(Synced()) && live
      ensures bufSize <= MAX_PACKET ==> (Synced() <==> old(Synced()))
    {
      if bufSize < 14 {
        return INVALID_PARAM;
      }
      hide Split, Address, RingTracks, Fenced, OtherFlags, TransmitKept, Synced;
      var busy := ReadTxrts();
      if busy {
        return PACKET_TX_IN_PROGRESS;
      }
      ghost var asked := chip;
      status := Transmit(packet, bufSize);
      TransmitKeptSince(old(chip), asked, chip);
      sent := sent + [packet[..bufSize]];
    }

    /** ECON1.TXRTS */
    method ReadTxrts() returns (txrts: bool)
      requires Coherent() && Tracks(chip)
      modifies this`chip, this`accepted
      ensures old(accepted) <= accepted && Tracks(chip) && txrts == chip.eng.txrts
      ensures chip.cfg == old(chip).cfg && (Synced() <==> old(Synced()))
      ensures Carried(chip.cfg.rxen, old(chip).eng, chip.eng, |accepted| - |old(accepted)|)
    {
      hide Econ1Byte, Bit, ReadReg, Address, RingTracks, Fenced, LowMemoryKept, MiiCarried;
      var status, econ1;
      status, econ1 := ReadCtlReg(ECON1);
      Econ1Bits(chip);
      txrts := Bit(econ1, 3);
    }

    /** enc28j60.c, lines 777 to 822. */
    method Transmit(packet: array<Byte>, bufSize: nat) returns (status: CommandStatus)
      requires Tracks(chip) && chip.cfg.autoinc && !chip.eng.txrts
      requires 14 <= bufSize <= packet.Length && bufSize < 65536
      modifies this`chip, this`accepted, this`live, this`fenced, this`currBank
      ensures status == OK && Coherent() && Tracks(chip) && chip.eng.txrts && !chip.eng.txif
      ensures old(accepted) <= accepted
      ensures chip.eng.pkts == old(chip).eng.pkts + |accepted| - |old(accepted)|
      ensures old(Coherent()) ==> (Synced() <==> old(Synced()) && live)
      ensures Address(chip.cfg.etxst) == TX_START && TransmitKept(old(chip), chip)
      ensures chip.cfg.etxnd == Split((TX_START + bufSize + 1) % 65536)
      ensures live == (old(live) && bufSize <= MAX_PACKET) && fenced == (old(fenced) && bufSize <= MAX_PACKET)
      ensures fenced ==>
                && Address(chip.cfg.etxnd) == TX_START + bufSize + 1
                && chip.eng.mem[TX_START..TX_START + 1 + bufSize] == [0] + packet[..bufSize]
    {
      hide Split, Address, RingTracks, Fenced, LowMemoryKept;
      status := PointToTransmitBuffer();
      if status != OK { return; }
      LoadPacket(packet, bufSize);
      ghost var loaded := chip.eng;
      var endAddress := (TX_START + bufSize + 1) % 65536;
      if bufSize <= MAX_PACKET { SplitAddress(endAddress); }
      status := WriteEtxnd(Split(endAddress).lo, Split(endAddress).hi);
      if status != OK { return; }
      ghost var ready := chip.eng;
      status := StartTransmission();
      if fenced { LoadedKept(loaded, ready, chip.eng, bufSize); }
    }

    method PointToTransmitBuffer() returns (status: CommandStatus)
      requires Tracks(chip)
      modifies this`chip, this`accepted, this`currBank
      ensures status == OK && currBank == 0 && Tracks(chip)
      ensures old(accepted) <= accepted
      ensures chip.cfg == old(chip).cfg.(bsel := 0, etxst := Split(TX_START), ewrpt := Split(TX_START))
      ensures Address(Split(TX_START)) == TX_START
      ensures Carried(chip.cfg.rxen, old(chip).eng, chip.eng, |accepted| - |old(accepted)|)
    {
      hide Split, Address, RingTracks, Fenced, LowMemoryKept;
      status := SelectBank(0);
      if status != OK { return; }
      SplitAddress(TX_START);
      status := WriteEtxst(Split(TX_START).lo, Split(TX_START).hi);
      if status != OK { return; }
      status := WriteEwrpt(Split(TX_START).lo, Split(TX_START).hi);
    }

    /** One command: opcode, per-packet control byte and the packet (enc28j60.c, lines 791 to 798). */
    method LoadPacket(packet: array<Byte>, bufSize: nat)
      requires Tracks(chip) && chip.cfg.autoinc && !chip.eng.txrts && Address(chip.cfg.ewrpt) == TX_START
      requires bufSize <= packet.Length
      modifies this`chip, this`accepted, this`live, this`fenced
      ensures old(accepted) <= accepted && Tracks(chip)
      ensures live == (old(live) && bufSize <= MAX_PACKET) && fenced == (old(fenced) && bufSize <= MAX_PACKET)
      ensures chip.cfg == old(chip).cfg.(ewrpt := chip.cfg.ewrpt)
      ensures Carried(chip.cfg.rxen, old(chip).eng, chip.eng, |accepted| - |old(accepted)|)
      ensures fenced ==> chip.eng.mem[TX_START..TX_START + 1 + bufSize] == [0] + packet[..bufSize]
    {
      hide Transact, WriteMemory, RingTracks, Fenced, Address, LowMemoryKept, MiiCarried;
      live, fenced := live && bufSize <= MAX_PACKET, fenced && bufSize <= MAX_PACKET;
      var tx := [0x7A, 0] + packet[..bufSize];
      var rx;
      ghost var mid;
      rx, mid := Spi(tx);
      WriteMemoryCommand(mid, tx);
      assert tx[1..] == [0] + packet[..bufSize];
      if fenced { LoadStores(mid, tx[1..]); }
      if live { LoadKeepsRing(mid, tx[1..], accepted, delivered, h, r); }
    }

    /** enc28j60.c, lines 808 to 820: clear TXIF, pulse TXRST, set TXRTS. */
    method StartTransmission() returns (status: CommandStatus)
      requires Tracks(chip) && !chip.eng.txrts
      requires fenced ==> Address(chip.cfg.etxnd) + 7 < RX_START
      modifies this`chip, this`accepted
      ensures status == OK && chip.eng.txrts && !chip.eng.txif
      ensures old(accepted) <= accepted && Tracks(chip)
      ensures chip.cfg == old(chip).cfg.(econ1High := old(chip).cfg.econ1High % 8,
                regs := old(chip).cfg.regs[EIR := chip.cfg.regs[EIR]])
      ensures chip.eng.pkts == old(chip).eng.pkts + |accepted| - |old(accepted)|
      ensures TransmitKept(old(chip), chip)
      ensures fenced ==> forall a :: 0 <= a < RX_START ==> chip.eng.mem[a] == old(chip).eng.mem[a]
    {
      hide SetBits, ClearBits, EirByte, Econ1Byte, RingTracks, Fenced, Address;
      ghost var mid;
      status, mid := ClearBitsCtlReg(EIR, TXIF);
      EirBitField(mid);
      KeepTracks(mid, chip);
      if status != OK { return; }
      status := PulseTxReset();
      if status != OK { return; }
      status, mid := SetBitsCtlReg(ECON1, TXRTS);
      Econ1Field(mid, TXRTS);
      if live { TracksStart(mid, chip, accepted, delivered, h, r); }
      if fenced { FencedStart(mid, chip); }
    }

    method PulseTxReset() returns (status: CommandStatus)
      requires Tracks(chip) && !chip.eng.txrts
      modifies this`chip, this`accepted
      ensures status == OK
      ensures old(accepted) <= accepted && Tracks(chip)
      ensures chip.cfg == old(chip).cfg.(econ1High := old(chip).cfg.econ1High % 8)
      ensures Carried(chip.cfg.rxen, old(chip).eng, chip.eng.(txResets := old(chip).eng.txResets),
                      |accepted| - |old(accepted)|)
      ensures chip.eng.txResets == old(chip).eng.txResets + if old(chip).cfg.econ1High < 8 then 1 else 0
      ensures fenced ==> LowMemoryKept(old(chip).eng, chip.eng)
    {
      hide LowMemoryKept, RingTracks, Fenced;
      status := SetTxReset(true);
      if status != OK { return; }
      ghost var reset := chip.eng;
      status := SetTxReset(false);
      if fenced { LowMemoryTrans(old(chip).eng, reset, chip.eng); }
    }

    method SetTxReset(on: bool) returns (status: CommandStatus)
      requires Tracks(chip) && !chip.eng.txrts
      modifies this`chip, this`accepted
      ensures status == OK
      ensures old(accepted) <= accepted && Tracks(chip)
      ensures chip.cfg == old(chip).cfg.(econ1High := old(chip).cfg.econ1High % 8 + if on then 8 else 0)
      ensures Carried(chip.cfg.rxen, old(chip).eng, chip.eng.(txResets := old(chip).eng.txResets),
                      |accepted| - |old(accepted)|)
      ensures chip.eng.txResets == old(chip).eng.txResets + if on && old(chip).cfg.econ1High < 8 then 1 else 0
      ensures fenced ==> LowMemoryKept(old(chip).eng, chip.eng)
    {
      hide SetBits, ClearBits, Econ1Byte, RingTracks, Fenced;
      ghost var mid;
      if on {
        status, mid := SetBitsCtlReg(ECON1, TXRST);
      } else {
        status, mid := ClearBitsCtlReg(ECON1, TXRST);
      }
      Econ1Field(mid, TXRST);
      KeepTracks(mid, chip);
    }

    /** `enc28_check_outgoing_packet_status`.  Whatever address it reads the status vector from, the
        read pointer has its old value on return, so it can be called anywhere. */
    method CheckOutgoingPacketStatus() returns (status: CommandStatus, ghost vectorAddress: nat)
      requires Coherent() && Tracks(chip)
      modifies this`chip, this`accepted, this`currBank
      ensures Coherent() && Tracks(chip)
      ensures old(accepted) <= accepted
      ensures chip.cfg == old(chip).cfg.(bsel := chip.cfg.bsel)
      ensures Carried(chip.cfg.rxen, old(chip).eng, chip.eng, |accepted| - |old(accepted)|)
      ensures status in {OK, NO_DATA, PACKET_TX_ABORTED}
      ensures old(chip).eng.txif ==> status != NO_DATA
      ensures !old(chip).eng.txif && !old(chip).eng.txrts ==> status == NO_DATA
      ensures status != NO_DATA ==> chip.eng.txif && vectorAddress == StatusVectorAddress(chip.cfg.etxnd)
      ensures old(chip).eng.txif && !old(chip).eng.txrts ==> (status == PACKET_TX_ABORTED <==> old(chip).eng.txabrt)
      ensures old(Synced()) ==> Synced()
    {
      hide RingTracks, Fenced, Address, Split, LowMemoryKept, MiiCarried, StatusVectorAddress, ReadMemory;
      vectorAddress := 0;
      var ended, aborted, hdr;
      ghost var mid;
      ended := ReadTxif();
      if ended {
        aborted := ReadTxabrt();
        status, vectorAddress, hdr, mid := ReadStatusVector();
        if status != OK { return; }
        if aborted {
          return PACKET_TX_ABORTED, vectorAddress;
        }
        return OK, vectorAddress;
      }
      return NO_DATA, vectorAddress;
    }

    /** EIR.TXIF */
    method ReadTxif() returns (txif: bool)
      requires Tracks(chip)
      modifies this`chip, this`accepted
      ensures old(accepted) <= accepted && Tracks(chip) && txif == chip.eng.txif
      ensures chip.cfg == old(chip).cfg
      ensures Carried(chip.cfg.rxen, old(chip).eng, chip.eng, |accepted| - |old(accepted)|)
    {
      hide ReadReg, EirByte, Bit, RingTracks, Fenced, LowMemoryKept, MiiCarried;
      var status, eir;
      status, eir := ReadCtlReg(EIR);
      EirBits(chip);
      txif := Bit(eir, 3);
    }

    /** ESTAT.TXABRT */
    method ReadTxabrt() returns (txabrt: bool)
      requires Tracks(chip)
      modifies this`chip, this`accepted
      ensures old(accepted) <= accepted && Tracks(chip) && txabrt == chip.eng.txabrt
      ensures chip.cfg == old(chip).cfg
      ensures Carried(chip.cfg.rxen, old(chip).eng, chip.eng, |accepted| - |old(accepted)|)
    {
      hide ReadReg, EstatByte, Bit, RingTracks, Fenced, LowMemoryKept, MiiCarried;
      var status, estat;
      status, estat := ReadCtlReg(ESTAT);
      EstatBits(chip);
      txabrt := Bit(estat, 1);
    }

    /** The two registers of a pointer. */
    method ReadPair(regL: Byte, regH: Byte) returns (status: CommandStatus, lo: Byte, hi: Byte)
      requires Tracks(chip) && chip.cfg.bsel == 0 == currBank && regL < 14 && regH < 14
      modifies this`chip, this`accepted
      ensures status == OK && Tracks(chip)
      ensures lo == PointerByte(chip.cfg, regL) && hi == PointerByte(chip.cfg, regH)
      ensures old(accepted) <= accepted && chip.cfg == old(chip).cfg
      ensures Carried(chip.cfg.rxen, old(chip).eng, chip.eng, |accepted| - |old(accepted)|)
    {
      hide RingTracks, Fenced, LowMemoryKept, PointerByte;
      hi := 0;
      status, lo := ReadCtlReg(regL);
      if status != OK { return; }
      status, hi := ReadCtlReg(regH);
    }

    /** Saves ERDPT, reads the vector, restores ERDPT (enc28j60.c, lines 836 to 881). */
    method ReadStatusVector() returns (status: CommandStatus, vectorAddress: nat, hdr: seq<Byte>, ghost mid: Chip)
      requires Tracks(chip)
      modifies this`chip, this`accepted, this`currBank
      ensures status == OK && currBank == 0 && Tracks(chip)
      ensures old(accepted) <= accepted
      ensures chip.cfg == old(chip).cfg.(bsel := 0)
      ensures Carried(chip.cfg.rxen, old(chip).eng, chip.eng, |accepted| - |old(accepted)|)
      ensures vectorAddress == StatusVectorAddress(chip.cfg.etxnd)
      ensures mid.cfg.erdpt == Split(vectorAddress) && |hdr| == 7 && hdr[1..] == ReadMemory(mid, 6).1
    {
      hide Transact, ReadMemory, RingTracks, Fenced, Address, Split, LowMemoryKept;
      vectorAddress, hdr, mid := 0, [], chip;
      var rdptLo, rdptHi, endLo, endHi;
      status := SelectBank(0);
      if status != OK { return; }
      status, rdptLo, rdptHi := ReadPair(ERDPTL, ERDPTH);
      if status != OK { return; }
      status, endLo, endHi := ReadPair(ETXNDL, ETXNDH);
      if status != OK { return; }

      vectorAddress := endLo + ShiftedAway(endHi) + 1;
      status, hdr, mid := ReadVectorAt(vectorAddress);
      if status != OK { return; }
      status := WriteErdpt(rdptLo, rdptHi);
    }

    /** One command reads from there; with the opcode it is seven bytes long, so it stops short of the last byte
        of the vector. */
    method ReadVectorAt(address: nat) returns (status: CommandStatus, hdr: seq<Byte>, ghost mid: Chip)
      requires Tracks(chip) && chip.cfg.bsel == 0
      modifies this`chip, this`accepted
      ensures status == OK && Tracks(chip)
      ensures old(accepted) <= accepted
      ensures mid.cfg == old(chip).cfg.(erdpt := Split(address)) && |hdr| == 7 && hdr[1..] == ReadMemory(mid, 6).1
      ensures chip.cfg == old(chip).cfg.(erdpt := chip.cfg.erdpt)
      ensures Carried(chip.cfg.rxen, old(chip).eng, chip.eng, |accepted| - |old(accepted)|)
    {
      hide Transact, ReadMemory, RingTracks, Fenced, Address;
      hdr, mid := [], chip;
      status := WriteErdpt(Split(address).lo, Split(address).hi);
      if status != OK { return; }
      hdr, mid := Spi([0x3A, 0, 0, 0, 0, 0, 0]);
      ReadMemoryCommand(mid, [0x3A, 0, 0, 0, 0, 0, 0]);
      KeepTracks(mid, chip);
    }

    // -------------------------------------------------------------- starting and stopping

    /** `enc28_do_soft_reset`; the shadow bank is not reset with the chip. */
    method SoftReset() returns (status: CommandStatus)
      modifies this
      ensures status == OK && !live && !fenced && Idle(chip) && chip.cfg.bsel == 0 && chip.cfg.autoinc
      ensures old(accepted) <= accepted && currBank == old(currBank)
      ensures chip.cfg.econ1High == 0 && chip.cfg.asked == map[] && chip.cfg.regs[EIE] == 0
      ensures !chip.eng.rxerif && !chip.eng.txif && !chip.eng.txabrt
      ensures chip.eng.phy == old(chip).eng.phy && chip.cfg.regs[96 + EREVID] == old(chip).cfg.regs[96 + EREVID]
    {
      hide RingTracks, Fenced;
      live, fenced := false, false;
      var rx;
      ghost var mid;
      rx, mid := Spi([0xFF]);
      return OK;
    }

    /** `enc28_do_init`.  On a chip that is neither receiving nor transmitting it leaves an empty ring. */
    method Init(mac: seq<Byte>) returns (status: CommandStatus)
      requires |mac| == 6
      modifies this
      ensures status == OK && Coherent() && chip.cfg.bsel == 0
      ensures MacOf(chip.cfg.regs) == mac
      ensures chip.cfg == old(chip).cfg.(bsel := 0, erxst := Split(RX_START), erxnd := Split(RX_END),
                erxrdpt := Split(RX_END), latch := Split(RX_END).lo, regs := chip.cfg.regs,
                asked := WithControl(old(chip).cfg.asked, FullDuplex(old(chip).eng.phy[0])))
      ensures chip.cfg.regs[32 + ERXFCON] == 0x83
      ensures RegsKept(old(chip).cfg.regs, chip.cfg.regs, MAC_SETTINGS + MAC_ADDRESS + {32 + ERXFCON})
      ensures chip.eng.phy == old(chip).eng.phy && chip.eng.clkWait == 0
      ensures DuplexSettings(chip.cfg.regs, FullDuplex(old(chip).eng.phy[0]))
      ensures old(accepted) <= accepted
      ensures old(Idle(chip)) ==>
                && live && fenced && Tracks(chip) && Idle(chip)
                && accepted == delivered == old(accepted) && h == 0 && Tight(h, r)
      ensures !old(Idle(chip)) ==> !live && !fenced
    {
      hide MacOf, DuplexSettings, RegsKept, RingTracks, Fenced, LowMemoryKept, Split, Address, WithControl, MiiCarried;
      SplitAddress(RX_START);
      SplitAddress(RX_END);
      ghost var idle := Idle(chip);
      live, fenced := false, false;
      status := InitBuffers();
      if status != OK { return; }
      status := InitReceiveFilter();
      if status != OK { return; }
      status := PollClock();
      if status != OK { return; }
      status := InitMac(mac);
      if status != OK { return; }
      FilterKept(old(chip).cfg.regs, chip.cfg.regs);
      if idle {
        EmptyRing(chip, accepted);
        EmptyFence(chip);
        live, fenced, h, r, delivered := true, true, 0, SIZE - 1, accepted;
      }
    }

    /** `priv_enc28_do_buffer_register_init` */
    method InitBuffers() returns (status: CommandStatus)
      requires !live && !fenced
      modifies this`chip, this`accepted, this`currBank
      ensures status == OK && currBank == 0
      ensures old(accepted) <= accepted
      ensures chip.cfg == old(chip).cfg.(bsel := 0, erxst := Split(RX_START), erxnd := Split(RX_END),
                erxrdpt := Split(RX_END), latch := Split(RX_END).lo)
      ensures Waited(old(chip), chip, |accepted| - |old(accepted)|)
      ensures !chip.cfg.rxen ==> chip.eng.wr == RX_START
    {
      hide Split, Address, RingTracks, Fenced, LowMemoryKept;
      SplitAddress(RX_START);
      status := SelectBank(0);
      status := WriteErxst(Split(RX_START).lo, Split(RX_START).hi);
      if status != OK { return; }
      status := WriteErxnd(Split(RX_END).lo, Split(RX_END).hi);
      if status != OK { return; }
      ghost var mid;
      status, mid := WriteLimit(RX_END);
    }

    /** `enc28_do_write_ctl_reg` on ERXST, before the ring is in use; the write pointer follows. */
    method WriteErxst(lo: Byte, hi: Byte) returns (status: CommandStatus)
      requires !live && !fenced && chip.cfg.bsel == 0
      modifies this`chip, this`accepted
      ensures status == OK
      ensures old(accepted) <= accepted
      ensures chip.cfg == old(chip).cfg.(erxst := Pair(lo, hi % 32))
      ensures Waited(old(chip), chip, |accepted| - |old(accepted)|)
      ensures !chip.cfg.rxen ==> chip.eng.wr == Address(chip.cfg.erxst)
    {
      hide WriteReg, WriteConfig, WriteEngine, Address;
      ghost var mid;
      status, mid := WriteCtlReg(ERXSTL, lo);
      ErxWrite(mid, ERXSTL, lo);
      if status != OK { return; }
      status, mid := WriteCtlReg(ERXSTH, hi);
      ErxWrite(mid, ERXSTH, hi);
    }

    method WriteErxnd(lo: Byte, hi: Byte) returns (status: CommandStatus)
      requires !live && !fenced && chip.cfg.bsel == 0
      modifies this`chip, this`accepted
      ensures status == OK
      ensures old(accepted) <= accepted
      ensures chip.cfg == old(chip).cfg.(erxnd := Pair(lo, hi % 32))
      ensures Waited(old(chip), chip, |accepted| - |old(accepted)|)
      ensures !chip.cfg.rxen ==> chip.eng.wr == old(chip).eng.wr
    {
      hide WriteReg, WriteConfig, WriteEngine, Address;
      ghost var mid;
      status, mid := WriteCtlReg(ERXNDL, lo);
      ErxWrite(mid, ERXNDL, lo);
      if status != OK { return; }
      status, mid := WriteCtlReg(ERXNDH, hi);
      ErxWrite(mid, ERXNDH, hi);
    }

    /** `priv_enc28_do_receive_filter_init`: unicast, multicast and broadcast. */
    method InitReceiveFilter() returns (status: CommandStatus)
      requires Tracks(chip)
      modifies this`chip, this`accepted, this`currBank
      ensures status == OK && currBank == 1 && Tracks(chip)
      ensures old(accepted) <= accepted
      ensures chip.cfg == old(chip).cfg.(bsel := 1, regs := old(chip).cfg.regs[32 + ERXFCON := 0x83])
      ensures Carried(chip.cfg.rxen, old(chip).eng, chip.eng, |accepted| - |old(accepted)|)
    {
      hide RingTracks, Fenced, LowMemoryKept;
      status := SelectBank(1);
      if status != OK { return; }
      status := WritePlain(ERXFCON, 0x83);
    }

    /** `priv_enc28_do_poll_estat_clk`: ends once the clock is ready. */
    method PollClock() returns (status: CommandStatus)
      requires Tracks(chip)
      modifies this`chip, this`accepted
      ensures status == OK && Tracks(chip)
      ensures old(accepted) <= accepted
      ensures chip.cfg == old(chip).cfg
      ensures Carried(chip.cfg.rxen, old(chip).eng, chip.eng, |accepted| - |old(accepted)|)
      ensures chip.eng.clkWait == 0
    {
      hide ReadReg, EstatByte, RingTracks, Fenced;
      var value;
      status, value := ReadCtlReg(ESTAT);
      EstatBits(chip);
      while status == OK
        invariant status == OK && value == EstatByte(chip) && Tracks(chip)
        invariant Bit(value, 0) <==> chip.eng.clkWait == 0
        invariant old(accepted) <= accepted
        invariant chip.cfg == old(chip).cfg
        invariant Carried(chip.cfg.rxen, old(chip).eng, chip.eng, |accepted| - |old(accepted)|)
        decreases chip.eng.clkWait
      {
        if Bit(value, 0) {
          break;
        }
        status, value := ReadCtlReg(ESTAT);
        EstatBits(chip);
      }
      return OK;
    }

    /** `priv_enc28_do_mac_init`, for which the clock has to be ready. */
    method InitMac(mac: seq<Byte>) returns (status: CommandStatus)
      requires Tracks(chip) && |mac| == 6 && chip.eng.clkWait == 0
      modifies this`chip, this`accepted, this`currBank
      ensures status == OK && currBank == 0 && Tracks(chip)
      ensures old(accepted) <= accepted
      ensures chip.cfg == old(chip).cfg.(bsel := 0, regs := chip.cfg.regs,
                asked := WithControl(old(chip).cfg.asked, FullDuplex(old(chip).eng.phy[0])))
      ensures RegsKept(old(chip).cfg.regs, chip.cfg.regs, MAC_SETTINGS + MAC_ADDRESS)
      ensures MacOf(chip.cfg.regs) == mac
      ensures DuplexSettings(chip.cfg.regs, FullDuplex(old(chip).eng.phy[0]))
      ensures Carried(chip.cfg.rxen, old(chip).eng, chip.eng, |accepted| - |old(accepted)|)
    {
      hide RingTracks, Fenced, LowMemoryKept, WithMac, WithTiming, DuplexSettings, MacOf;
      var fullDuplex;
      status, fullDuplex := InitMacControl();
      if status != OK { return; }
      WithTimingFacts(chip.cfg.regs, fullDuplex, mac);
      status := InitMacTiming(fullDuplex);
      if status != OK { return; }
      status := WriteMacAddress(mac);
      if status != OK { return; }
      status := SelectBank(0);
    }

    /** enc28j60.c, lines 143 to 178: the MACON registers, set according to the PHY's duplex mode. */
    method InitMacControl() returns (status: CommandStatus, fullDuplex: bool)
      requires Tracks(chip)
      modifies this`chip, this`accepted, this`currBank
      ensures status == OK && currBank == 2 && Tracks(chip)
      ensures fullDuplex == FullDuplex(old(chip).eng.phy[0])
      ensures old(accepted) <= accepted
      ensures chip.cfg == old(chip).cfg.(bsel := 2, regs := chip.cfg.regs,
                                         asked := WithControl(old(chip).cfg.asked, fullDuplex))
      ensures RegsKept(old(chip).cfg.regs, chip.cfg.regs, MAC_CONTROL)
      ensures Carried(chip.cfg.rxen, old(chip).eng, chip.eng, |accepted| - |old(accepted)|)
    {
      hide RingTracks, Fenced, LowMemoryKept, MiiCarried, Coherent;
      fullDuplex := false;
      status := SelectBank(2);
      if status != OK { return; }
      status := SetMacBits(MACON1, 0x0D);
      if status != OK { return; }
      var phcon1;
      status, phcon1 := ReadPhyRegister(0x00);
      if status != OK { return; }
      fullDuplex := FullDuplex(phcon1);
      status := SetMacBits(MACON3, if fullDuplex then 0xF3 else 0xF2);
      if status != OK { return; }
      status := SetMacBits(MACON4, 0x10);
    }

    /** `enc28_do_set_bits_ctl_reg` on a MAC register, for which the command is not defined: whatever
        that leaves behind, it is left in this register only. */
    method SetMacBits(reg: Byte, mask: Byte) returns (status: CommandStatus)
      requires Tracks(chip) && chip.cfg.bsel == 2 && reg < RESERVED
      modifies this`chip, this`accepted
      ensures status == OK && Tracks(chip)
      ensures old(accepted) <= accepted
      ensures chip.cfg == old(chip).cfg.(regs := chip.cfg.regs,
                                         asked := old(chip).cfg.asked[(64 + reg) as nat := Raise(mask)])
      ensures RegsKept(old(chip).cfg.regs, chip.cfg.regs, {64 + reg})
      ensures Carried(chip.cfg.rxen, old(chip).eng, chip.eng, |accepted| - |old(accepted)|)
    {
      hide SetBits, RingTracks, Fenced, LowMemoryKept;
      ghost var mid;
      status, mid := SetBitsCtlReg(reg, mask);
      MacBitField(mid, reg, mask);
      KeepTracks(mid, chip);
    }

    /** enc28j60.c, lines 180 to 205: frame length and gaps. */
    method InitMacTiming(fullDuplex: bool) returns (status: CommandStatus)
      requires Tracks(chip) && chip.cfg.bsel == 2
      modifies this`chip, this`accepted
      ensures status == OK && Tracks(chip)
      ensures old(accepted) <= accepted
      ensures chip.cfg == old(chip).cfg.(regs := WithTiming(old(chip).cfg.regs, fullDuplex))
      ensures Carried(chip.cfg.rxen, old(chip).eng, chip.eng, |accepted| - |old(accepted)|)
    {
      hide RingTracks, Fenced, LowMemoryKept;
      status := WritePlain(MAMXFLL, MAX_FRAME_LEN % 256);
      if status != OK { return; }
      status := WritePlain(MAMXFLH, MAX_FRAME_LEN / 256);
      if status != OK { return; }
      status := WritePlain(MABBIPG, 0x12);
      if status != OK { return; }
      status := WritePlain(MAIPGL, if fullDuplex then 0x15 else 0x12);
      if status != OK { return; }
      if !fullDuplex {
        status := WritePlain(MAIPGH, 0x0C);
      }
    }

    /** enc28j60.c, lines 207 to 222: the station address, in bank 3. */
    method WriteMacAddress(mac: seq<Byte>) returns (status: CommandStatus)
      requires Tracks(chip) && |mac| == 6
      modifies this`chip, this`accepted, this`currBank
      ensures status == OK && currBank == 3 && Tracks(chip)
      ensures old(accepted) <= accepted
      ensures chip.cfg == old(chip).cfg.(bsel := 3, regs := WithMac(old(chip).cfg.regs, mac))
      ensures Carried(chip.cfg.rxen, old(chip).eng, chip.eng, |accepted| - |old(accepted)|)
    {
      hide RingTracks, Fenced, LowMemoryKept;
      status := SelectBank(3);
      if status != OK { return; }
      status := WritePlain(MAC_ADD1, mac[0]);
      if status != OK { return; }
      status := WritePlain(MAC_ADD2, mac[1]);
      if status != OK { return; }
      status := WritePlain(MAC_ADD3, mac[2]);
      if status != OK { return; }
      status := WritePlain(MAC_ADD4, mac[3]);
      if status != OK { return; }
      status := WritePlain(MAC_ADD5, mac[4]);
      if status != OK { return; }
      status := WritePlain(MAC_ADD6, mac[5]);
    }

    /** `enc28_do_read_mac` */
    method ReadMac() returns (status: CommandStatus, mac: seq<Byte>)
      requires Tracks(chip)
      modifies this`chip, this`accepted, this`currBank
      ensures status == OK && Coherent() && Tracks(chip)
      ensures mac == MacOf(old(chip).cfg.regs)
      ensures old(accepted) <= accepted
      ensures chip.cfg == old(chip).cfg.(bsel := 3)
      ensures Carried(chip.cfg.rxen, old(chip).eng, chip.eng, |accepted| - |old(accepted)|)
    {
      hide RingTracks, Fenced, LowMemoryKept;
      mac := [];
      var a0, a1, a2, a3, a4, a5;
      status := SelectBank(3);
      if status != OK { return; }
      status, a0 := ReadPlain(MAC_ADD1);
      if status != OK { return; }
      status, a1 := ReadPlain(MAC_ADD2);
      if status != OK { return; }
      status, a2 := ReadPlain(MAC_ADD3);
      if status != OK { return; }
      status, a3 := ReadPlain(MAC_ADD4);
      if status != OK { return; }
      status, a4 := ReadPlain(MAC_ADD5);
      if status != OK { return; }
      status, a5 := ReadPlain(MAC_ADD6);
      mac := [a0, a1, a2, a3, a4, a5];
    }

    /** `enc28_do_read_hw_rev` */
    method ReadHwRev() returns (status: CommandStatus, phid1: Word, phid2: Word, ethrev: Byte)
      requires Tracks(chip)
      modifies this`chip, this`accepted, this`currBank
      ensures status == OK && Coherent() && Tracks(chip)
      ensures phid1 == old(chip).eng.phy[2] && phid2 == old(chip).eng.phy[3]
      ensures ethrev == old(chip).cfg.regs[96 + EREVID]
      ensures old(accepted) <= accepted
      ensures chip.cfg == old(chip).cfg.(bsel := 3, regs := chip.cfg.regs)
      ensures RegsKept(old(chip).cfg.regs, chip.cfg.regs, MII)
      ensures Carried(chip.cfg.rxen, old(chip).eng, chip.eng, |accepted| - |old(accepted)|)
    {
      hide RingTracks, Fenced, LowMemoryKept;
      phid1, phid2, ethrev := 0, 0, 0;
      status, phid1 := ReadPhyRegister(0x02);
      if status != OK { return; }
      status, phid2 := ReadPhyRegister(0x03);
      if status != OK { return; }
      status := SelectBank(3);
      if status != OK { return; }
      status, ethrev := ReadCtlReg(EREVID);
    }

    /** `enc28_begin_packet_transfer`.  It sends the read pointer to the start of the ring, so driver and
        chip are in step afterwards exactly when that is where the oldest waiting frame is. */
    method BeginPacketTransfer() returns (status: CommandStatus)
      requires Tracks(chip)
      modifies this`chip, this`accepted, this`currBank
      ensures status == OK && Coherent() && Tracks(chip)
      ensures old(accepted) <= accepted
      ensures chip.cfg == old(chip).cfg.(bsel := 0, erdpt := Split(RX_START), rxen := true, autoinc := true,
                regs := old(chip).cfg.regs[EIE := Or(old(chip).cfg.regs[EIE], 0xC3)][EIR := chip.cfg.regs[EIR]])
      ensures OtherFlags(old(chip).cfg.regs[EIR], chip.cfg.regs[EIR])
      ensures (chip.eng.txrts ==> old(chip).eng.txrts) && (old(chip).eng.txif ==> chip.eng.txif)
      ensures !old(chip).cfg.rxen ==> !chip.eng.rxerif
      ensures live && old(chip.eng.pkts == |accepted| - |delivered| && delivered <= accepted) ==>
                (Synced() <==> At(h) == RX_START)
    {
      hide Split, Address, RingTracks, Fenced, LowMemoryKept, SetBits, ClearBits, EirByte, Econ1Byte, Econ2Byte, Or;
      SplitAddress(RX_START);
      status := SelectBank(0);
      if status != OK { return; }
      status := WriteErdpt(Split(RX_START).lo, Split(RX_START).hi);
      if status != OK { return; }
      status := EnableInterrupts();
      if status != OK { return; }
      ghost var mid;
      status, mid := SetBitsCtlReg(ECON2, AUTOINC);
      AutoincSet(mid);
      KeepTracks(mid, chip);
      if status != OK { return; }
      status := SetReceiveEnable(true);
    }

    /** enc28j60.c, lines 628 to 638. */
    method EnableInterrupts() returns (status: CommandStatus)
      requires Tracks(chip) && chip.cfg.bsel == 0
      modifies this`chip, this`accepted
      ensures status == OK && Tracks(chip)
      ensures old(accepted) <= accepted
      ensures chip.cfg == old(chip).cfg.(
                regs := old(chip).cfg.regs[EIE := Or(old(chip).cfg.regs[EIE], 0xC3)][EIR := chip.cfg.regs[EIR]])
      ensures OtherFlags(old(chip).cfg.regs[EIR], chip.cfg.regs[EIR])
      ensures !chip.eng.rxerif && (old(chip).eng.txif ==> chip.eng.txif)
      ensures Kept(old(chip), chip, |accepted| - |old(accepted)|)
    {
      hide RingTracks, Fenced, LowMemoryKept, SetBits, ClearBits, EirByte, Or;
      ghost var mid;
      status, mid := SetBitsCtlReg(EIE, 0xC3);
      EieSet(mid, 0xC3);
      KeepTracks(mid, chip);
      if status != OK { return; }
      status, mid := ClearBitsCtlReg(EIR, RXERIF);
      EirBitField(mid);
      KeepTracks(mid, chip);
    }

    /** Sets or clears ECON1.RXEN. */
    method SetReceiveEnable(on: bool) returns (status: CommandStatus)
      requires Tracks(chip)
      modifies this`chip, this`accepted
      ensures status == OK && Tracks(chip)
      ensures old(accepted) <= accepted
      ensures chip.cfg == old(chip).cfg.(rxen := on)
      ensures Kept(old(chip), chip, |accepted| - |old(accepted)|) && (old(chip).eng.txif ==> chip.eng.txif)
      ensures !old(chip).cfg.rxen ==> chip.eng.rxerif == old(chip).eng.rxerif
    {
      hide RingTracks, Fenced, LowMemoryKept, SetBits, ClearBits, Econ1Byte;
      ghost var mid;
      if on {
        status, mid := SetBitsCtlReg(ECON1, RXEN);
      } else {
        status, mid := ClearBitsCtlReg(ECON1, RXEN);
      }
      Econ1Field(mid, RXEN);
      KeepTracks(mid, chip);
    }

    /** `enc28_end_packet_transfer` */
    method EndPacketTransfer() returns (status: CommandStatus)
      requires Tracks(chip)
      modifies this`chip, this`accepted, this`currBank
      ensures status == OK && Coherent() && Tracks(chip)
      ensures old(accepted) <= accepted
      ensures chip.cfg == old(chip).cfg.(bsel := 0, rxen := false)
      ensures chip.eng.txrts ==> old(chip).eng.txrts
      ensures old(Coherent()) ==> (Synced() <==> old(Synced()))
    {
      hide Address, RingTracks, Fenced, LowMemoryKept;
      status := SelectBank(0);
      if status != OK { return; }
      status := SetReceiveEnable(false);
    }

    /** The startup order of the application: reset, initialise, read the revision, begin. */
    method StartUp(mac: seq<Byte>) returns (status: CommandStatus, phid1: Word, phid2: Word, ethrev: Byte)
      requires |mac| == 6
      modifies this
      ensures status == OK && Synced() && Tight(h, r) && old(accepted) <= delivered
      ensures MacOf(chip.cfg.regs) == mac && chip.cfg.rxen
      ensures Configured(chip.cfg.regs, mac, FullDuplex(old(chip).eng.phy[0]))
      ensures chip.cfg.asked == WithControl(map[], FullDuplex(old(chip).eng.phy[0]))
      ensures (forall i :: i in {0, 1, 6, 7} ==> Bit(chip.cfg.regs[EIE], i)) && !chip.eng.rxerif
      ensures phid1 == old(chip).eng.phy[2] && phid2 == old(chip).eng.phy[3]
      ensures ethrev == old(chip).cfg.regs[96 + EREVID]
    {
      hide Address, RingTracks, Fenced, LowMemoryKept, Split, MacOf, DuplexSettings, RegsKept, WithControl, Bit, Or;
      phid1, phid2, ethrev := 0, 0, 0;
      ghost var fullDuplex := FullDuplex(chip.eng.phy[0]);
      status := SoftReset();
      if status != OK { return; }
      ghost var regs := chip.cfg.regs;
      status := Init(mac);
      if status != OK { return; }
      RevisionKept(regs, chip.cfg.regs);
      regs := chip.cfg.regs;
      status, phid1, phid2, ethrev := ReadHwRev();
      if status != OK { return; }
      ConfiguredKept(regs, chip.cfg.regs, mac, fullDuplex);
      regs := chip.cfg.regs;
      status := BeginPacketTransfer();
      ConfiguredBesideFlags(regs, chip.cfg.regs[EIE], chip.cfg.regs[EIR], mac, fullDuplex);
      forall i | i in {0, 1, 6, 7} ensures Bit(chip.cfg.regs[EIE], i) {
        EieMask(regs[EIE], i);
      }
    }

    // -------------------------------------------------------------- any sequence of calls

    /** Now. */
    ghost function Present(): Moment
      reads this
    {
      Moment(|history|, |delivered|, |accepted|, Tight(h, r))
    }

    /** `Explains` for the calls since moment `m`. */
    ghost predicate Explained(m: Moment, bufSize: nat)
      reads this
    {
      m.call <= |history| && Explains(history[m.call..], m, accepted, |delivered|, bufSize, Synced(), Tight(h, r))
    }

    /** The receive ring is a FIFO queue in every run, whatever other calls come between the reads and
        whatever the chip does meanwhile.  Every read is recorded; the records say which frame it was about
        and when the packet it returned is that frame, byte for byte; and `Explains` says when driver and
        chip stay in step.  As long as they do and every packet is intact, the packets are the frames the
        chip took in, in order. */
    method Traffic(calls: seq<Call>, buf: array<Byte>)
      returns (packets: seq<seq<Byte>>, results: seq<CommandStatus>)
      requires Synced()
      requires forall c :: c in calls ==>
                 !c.Begin? && (c.Write? ==> c.size <= c.packet.Length && c.size <= MAX_PACKET)
      modifies this, buf
      ensures |results| == |calls| && old(history) <= history
      ensures ReadResults(calls, results) == Statuses(history[|old(history)|..])
      ensures packets == Packets(history[|old(history)|..])
      ensures Explained(old(Present()), buf.Length)
      ensures Synced() ==> old(delivered) <= delivered <= accepted
      ensures Synced() && AllIntact(history[|old(history)|..], accepted) ==>
                packets == Payloads(Slice(accepted, |old(delivered)|, |delivered|))
      ensures old(Tight(h, r)) && (forall s :: s in ReadResults(calls, results) ==> s in {OK, NO_DATA}) ==>
                Synced() && packets == Payloads(Slice(accepted, |old(delivered)|, |delivered|))
      // meanwhile every packet the driver did not refuse was handed to the transmitter, in order
      ensures HandedOver(calls, results, old(sent), buf)
      ensures forall i :: 0 <= i < |calls| && calls[i].Write? ==>
                (results[i] == INVALID_PARAM <==> calls[i].size < 14)
    {
      hide RingTracks, Fenced, Bit, Tight, Explains, Payloads, Slice, Statuses, Packets, Writes, ReadResults, Synced,
           Tracks, Coherent;
      SyncedMeans();
      packets, results := [], [];
      ghost var m := Present();
      NoneYet(calls);
      StartExplained(m, accepted, buf.Length, Tight(h, r));
      assert history[m.call..] == [] && sent[|sent|..] == [];
      for i := 0 to |calls|
        invariant Coherent() && Tracks(chip) && chip.cfg.autoinc && old(delivered) <= delivered
        invariant |results| == i && old(history) <= history && Explained(m, buf.Length)
        invariant ReadResults(calls, results) == Statuses(history[m.call..]) && packets == Packets(history[m.call..])
        invariant HandedOver(calls, results, old(sent), buf)
        invariant forall k :: 0 <= k < i && calls[k].Write? ==> (results[k] == INVALID_PARAM <==> calls[k].size < 14)
      {
        var got, status := NextCall(calls[i], buf, m);
        packets := packets + got;
        OneMoreResult(calls, results, status);
        results := results + [status];
      }
      SyncedMeans();
      StatusesAre(ReadResults(calls, results), history[m.call..]);
      FirstInFirstOut(history[m.call..], m, accepted, |delivered|, buf.Length, Synced(), Tight(h, r));
    }

    /** One call, what it returned, and the packet if it brought one. */
    method NextCall(call: Call, buf: array<Byte>, ghost m: Moment)
      returns (got: seq<seq<Byte>>, status: CommandStatus)
      requires Coherent() && Tracks(chip) && chip.cfg.autoinc && Explained(m, buf.Length)
      requires !call.Begin? && (call.Write? ==> call.size <= call.packet.Length && call.size <= MAX_PACKET)
      modifies this, buf
      ensures Coherent() && Tracks(chip) && chip.cfg.autoinc && Explained(m, buf.Length)
      ensures old(accepted) <= accepted && old(delivered) <= delivered && old(history) <= history
      ensures Statuses(history[m.call..]) == Statuses(old(history[m.call..])) + (if call.Read? then [status] else [])
      ensures Packets(history[m.call..]) == Packets(old(history[m.call..])) + got
      ensures sent == old(sent) + if call.Write? && status == OK then [old(call.packet[..call.size])] else []
      ensures call.Write? ==> (status == INVALID_PARAM <==> call.size < 14)
    {
      hide RingTracks, Fenced, Explains, Tight, Synced, Tracks, Coherent, Packets, Statuses;
      got := [];
      if call.Read? {
        got, status := ReadCall(buf, m);
        assert history[m.call..] == old(history[m.call..]) + [history[|history| - 1]];
        OneMoreStatus(old(history[m.call..]), history[|history| - 1]);
      } else {
        status := OtherCall(call, m, buf.Length);
      }
    }

    lemma SyncedMeans()
      ensures Synced() ==> Coherent() && Tracks(chip) && chip.cfg.autoinc && delivered <= accepted
    {
      hide RingTracks, Fenced, Address;
    }

    /** The packets sent since are those of the accepted calls, in order; the buffer that frames are read into
        may have changed since. */
    ghost predicate HandedOver(calls: seq<Call>, results: seq<CommandStatus>, sent0: seq<seq<Byte>>, buf: array<Byte>)
      requires |results| <= |calls|
      reads this`sent, set c | c in calls && c.Write? && c.packet != buf :: c.packet
    {
      && sent0 <= sent && |sent| - |sent0| == |Writes(calls, results)|
      && forall k :: 0 <= k < |Writes(calls, results)| ==>
           var w := Writes(calls, results)[k];
           && w in calls && w.Write?
           && (w.packet != buf && w.size <= w.packet.Length ==> sent[|sent0| + k] == w.packet[..w.size])
    }

    /** One read, and what it returned. */
    method ReadCall(buf: array<Byte>, ghost m: Moment)
      returns (got: seq<seq<Byte>>, status: CommandStatus)
      requires Coherent() && Tracks(chip) && chip.cfg.autoinc && Explained(m, buf.Length)
      modifies this, buf
      ensures Coherent() && Tracks(chip) && chip.cfg.autoinc && Explained(m, buf.Length)
      ensures old(accepted) <= accepted && old(delivered) <= delivered
      ensures |history| == |old(history)| + 1 && old(history) <= history && history[|old(history)|].status == status
      ensures Packets(history[m.call..]) == Packets(old(history[m.call..])) + got
      ensures unchanged(this`sent)
    {
      hide RingTracks, Fenced, Address, Explains, Entered, Tight, Intact, HeadFits, Received, Packets;
      var vec;
      ghost var left;
      ghost var synced, tightNow := Synced(), Tight(h, r);
      status, vec, left := ReadPacket(buf, buf.Length);
      got := if status == OK then [buf[..PacketLen(vec)]] else [];
      ghost var e := ReadEntry(status, left, Returned(status, buf[..], vec));
      Recorded(e, synced, tightNow, old(history), old(accepted), |old(delivered)|, m, buf.Length);
    }

    /** The record of one more call explains it. */
    lemma Recorded(e: ReadEntry, synced: bool, tightNow: bool, history0: seq<ReadEntry>, accepted0: seq<Frame>,
                   delivered0: nat, m: Moment, bufSize: nat)
      requires history == history0 + [e] && accepted0 <= accepted && m.call <= |history0|
      requires Explains(history0[m.call..], m, accepted0, delivered0, bufSize, synced, tightNow)
      requires Entered(e, delivered0, |accepted0|, accepted, bufSize)
      requires Follows(e, synced, tightNow, Synced(), Tight(h, r), accepted)
      requires |delivered| == delivered0 + if e.outcome.Took? then 1 else 0
      ensures Explained(m, bufSize)
      ensures Packets(history[m.call..]) == Packets(history0[m.call..]) + (if e.status == OK then [e.packet] else [])
    {
      hide Explains, Entered, Follows, Tight, Synced;
      assert history[m.call..] == history0[m.call..] + [e];
      ExplainsMore(history0[m.call..], e, m, accepted0, accepted, delivered0, |delivered|, bufSize,
                   synced, tightNow, Synced(), Tight(h, r));
      OneMore(history0[m.call..], e, 0);
    }

    /** The calls that read no frame leave the receiving side alone. */
    method OtherCall(call: Call, ghost m: Moment, ghost bufSize: nat) returns (status: CommandStatus)
      requires Explained(m, bufSize)
      requires Coherent() && Tracks(chip) && chip.cfg.autoinc
      requires call.Write? ==> call.size <= call.packet.Length && call.size <= MAX_PACKET
      requires !call.Begin? && !call.Read?
      modifies this`chip, this`accepted, this`currBank, this`live, this`fenced, this`sent
      ensures Coherent() && Tracks(chip) && chip.cfg.autoinc
      ensures old(accepted) <= accepted
      ensures Explained(m, bufSize) && (Synced() <==> old(Synced()))
      ensures sent == old(sent) + if call.Write? && status == OK then [call.packet[..call.size]] else []
      ensures call.Write? ==> (status == INVALID_PARAM <==> call.size < 14)
    {
      hide RingTracks, Fenced, Synced, Explains, Tight;
      var value;
      status, value := Perform(call);
      ExplainsLater(history[m.call..], m, old(accepted), accepted, |delivered|, bufSize, Synced(), Tight(h, r));
    }

    /** Any call but a read. */
    method Perform(call: Call) returns (status: CommandStatus, value: Word)
      requires Coherent() && Tracks(chip) && chip.cfg.autoinc && !call.Read?
      requires call.Write? ==> call.size <= call.packet.Length && call.size < 65536
      modifies this`chip, this`accepted, this`currBank, this`live, this`fenced, this`sent
      ensures Coherent() && Tracks(chip) && chip.cfg.autoinc
      ensures old(accepted) <= accepted
      ensures MacOf(chip.cfg.regs) == MacOf(old(chip).cfg.regs)
      ensures Does(call, status, value, old(chip), chip)
      ensures sent == old(sent) + if call.Write? && status == OK then [call.packet[..call.size]] else []
      ensures !call.Begin? && (call.Write? ==> call.size <= MAX_PACKET) ==> (Synced() <==> old(Synced()))
    {
      hide RingTracks, Fenced, MacOf, RegsKept, Address, Split, LowMemoryKept, OtherFlags;
      value := 0;
      ghost var regs := chip.cfg.regs;
      match call {
      case Begin =>
        status := BeginPacketTransfer();
        MacBesideFlags(regs, chip.cfg.regs[EIE], chip.cfg.regs[EIR]);
      case End =>
        status := EndPacketTransfer();
      case Write(packet, size) =>
        status := WritePacket(packet, size);
        MacBesideEir(regs, chip.cfg.regs[EIR]);
      case Check =>
        ghost var vectorAddress;
        status, vectorAddress := CheckOutgoingPacketStatus();
      case Phy(reg) =>
        status, value := ReadPhyRegister(reg);
        if IsPhyReg(reg) { MacBesideMii(regs, reg, 0); }
      }
    }

    /** After any sequence of calls the driver knows the selected bank, and the station address is what
        initialisation wrote, although the same register numbers mean pointers in bank 0. */
    method Session(calls: seq<Call>, buf: array<Byte>) returns (mac: seq<Byte>, results: seq<CommandStatus>)
      requires Coherent() && Tracks(chip) && chip.cfg.autoinc
      requires forall c :: c in calls && c.Write? ==> c.size <= c.packet.Length && c.size < 65536
      modifies this, buf
      ensures Coherent() && Tracks(chip)
      ensures mac == MacOf(old(chip).cfg.regs) == MacOf(chip.cfg.regs)
      ensures |results| == |calls| && old(history) <= history
      ensures ReadResults(calls, results) == Statuses(history[|old(history)|..])
      ensures HandedOver(calls, results, old(sent), buf)
    {
      hide RingTracks, Fenced, MacOf, RegsKept, Does, Statuses, Writes, ReadResults, Synced;
      results := [];
      ghost var entries: seq<ReadEntry> := [];
      NoneYet(calls);
      assert history[|history|..] == [] && sent[|sent|..] == [];
      for i := 0 to |calls|
        invariant Coherent() && Tracks(chip) && chip.cfg.autoinc
        invariant MacOf(chip.cfg.regs) == MacOf(old(chip).cfg.regs)
        invariant |results| == i && old(history) <= history && entries == history[|old(history)|..]
        invariant ReadResults(calls, results) == Statuses(entries)
        invariant HandedOver(calls, results, old(sent), buf)
      {
        ghost var es := entries;
        var status := MakeCall(calls[i], buf);
        entries := history[|old(history)|..];
        if calls[i].Read? {
          assert entries == es + [history[|history| - 1]];
          OneMoreStatus(es, history[|history| - 1]);
        }
        OneMoreResult(calls, results, status);
        results := results + [status];
      }
      var status;
      status, mac := ReadMac();
    }

    method MakeCall(call: Call, buf: array<Byte>) returns (status: CommandStatus)
      requires Coherent() && Tracks(chip) && chip.cfg.autoinc
      requires call.Write? ==> call.size <= call.packet.Length && call.size < 65536
      modifies this, buf
      ensures Coherent() && Tracks(chip) && chip.cfg.autoinc
      ensures MacOf(chip.cfg.regs) == MacOf(old(chip).cfg.regs)
      ensures if call.Read? then
                |history| == |old(history)| + 1 && old(history) <= history && history[|old(history)|].status == status
              else history == old(history)
      ensures call.Read? ==> sent == old(sent)
      ensures !call.Read? ==>
                sent == old(sent) + if call.Write? && status == OK then [old(call.packet[..call.size])] else []
      ensures !call.Read? ==> exists value: Word :: Does(call, status, value, old(chip), chip)
    {
      hide RingTracks, Fenced, MacOf, RegsKept, Address, Split, OtherFlags, Does, Synced;
      ghost var regs := chip.cfg.regs;
      if call.Read? {
        var vec;
        ghost var left;
        status, vec, left := ReadPacket(buf, buf.Length);
        MacBesideEir(regs, chip.cfg.regs[EIR]);
      } else {
        var value;
        status, value := Perform(call);
      }
    }
  }
}
