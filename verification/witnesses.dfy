/** Runs on which the driver does not do what one would expect: for every failure that is possible, a state
    and events that lead to it. */
module Witnesses {
  import opened Bytes
  import opened Registers
  import opened RxRing
  import opened Chip
  import opened Driver
  import Protocol

  /** An initialised chip with every frame read, the next one going to position `h`. */
  function ChipAt(h: nat): Chip {
    Chip(Config(seq(128, _ => 0), 0, true, 0, true, 0, Split(At(h)), Split(0), Split(0), Split(0),
                Split(RX_START), Split(RX_END), Split(ReadLimit(At(h))), 0, map[]),
         Engine(seq(MEM_SIZE, _ => 0), At(h), 0, false, false, false, 0, false, seq(32, _ => 0), 0, 0, 0, 0, 0))
  }

  lemma ChipAtRest(h: nat)
    requires h % 2 == 0
    ensures RingTracks(ChipAt(h), [], [], h, h + SIZE - 1) && Tight(h, h + SIZE - 1)
    ensures Address(ChipAt(h).cfg.erdpt) == At(h)
  {
    hide Address, Split;
    SplitAddress(At(h));
    SplitAddress(RX_START);
    SplitAddress(RX_END);
    SplitAddress(ReadLimit(At(h)));
    LimitBefore(h);
  }

  // ---------------------------------------------------------------- what the driver sends

  function WriteRegister(c: Chip, reg: Byte, v: Byte): Chip { Transact(c, [OP_WCR * 32 + reg % 32, v]).0 }

  function SetField(c: Chip, reg: Byte, mask: Byte): Chip { Transact(c, [OP_BFS * 32 + reg % 32, mask]).0 }

  function ClearField(c: Chip, reg: Byte, mask: Byte): Chip { Transact(c, [OP_BFC * 32 + reg % 32, mask]).0 }

  function ReadBytes(c: Chip, n: nat): (Chip, seq<Byte>) {
    var (c', rx) := Transact(c, [0x3A] + seq(n, _ => 0));
    (c', rx[1..])
  }

  lemma ReadBytesAre(c: Chip, n: nat)
    ensures ReadBytes(c, n) == ReadMemory(c, n)
  {
    hide Transact, ReadMemory;
    ReadMemoryCommand(c, [0x3A] + seq(n, _ => 0));
  }

  function SelectBankZero(c: Chip): Chip { WriteRegister(c, ECON1, WithBank(Econ1Byte(c), 0)) }

  lemma StaysInBankZero(c: Chip)
    requires c.cfg.bsel == 0
    ensures SelectBankZero(c) == c
  {
    hide WriteReg, Transact, Econ1Byte, Bit;
    WriteCommand(c, OP_WCR, ECON1, WithBank(Econ1Byte(c), 0));
    SelectBankValue(c, 0);
    Econ1Write(c, WithBank(Econ1Byte(c), 0));
  }

  /** A pointer of bank 0, low byte first. */
  function WritePointer(c: Chip, regL: Byte, regH: Byte, a: Pair): Chip {
    WriteRegister(WriteRegister(c, regL, a.lo), regH, a.hi)
  }

  lemma LimitWritten(c: Chip, a: Pair)
    requires c.cfg.bsel == 0
    ensures WritePointer(c, ERXRDPTL, ERXRDPTH, a) == c.(cfg := c.cfg.(erxrdpt := a, latch := a.lo))
  {
    hide WriteReg, Transact;
    WriteCommand(c, OP_WCR, ERXRDPTL, a.lo);
    PointerWrite(c, ERXRDPTL, a.lo);
    var c1 := WriteRegister(c, ERXRDPTL, a.lo);
    WriteCommand(c1, OP_WCR, ERXRDPTH, a.hi);
    PointerWrite(c1, ERXRDPTH, a.hi);
  }

  lemma ReadPointerWritten(c: Chip, a: Pair)
    requires c.cfg.bsel == 0
    ensures WritePointer(c, ERDPTL, ERDPTH, a) == c.(cfg := c.cfg.(erdpt := a))
  {
    hide WriteReg, Transact;
    WriteCommand(c, OP_WCR, ERDPTL, a.lo);
    PointerWrite(c, ERDPTL, a.lo);
    var c1 := WriteRegister(c, ERDPTL, a.lo);
    WriteCommand(c1, OP_WCR, ERDPTH, a.hi);
    PointerWrite(c1, ERDPTH, a.hi);
  }

  /** The receive error branch (enc28j60.c, lines 740 to 748). */
  function ResetCommands(c: Chip): Chip {
    ClearField(WritePointer(SelectBankZero(c), ERXRDPTL, ERXRDPTH, Split(RX_END)), EIR, RXERIF)
  }

  lemma ResetCommandsDo(c: Chip)
    requires c.cfg.bsel == 0
    ensures var c' := ResetCommands(c);
            && c'.eng == c.eng.(rxerif := false)
            && c'.cfg == c.cfg.(erxrdpt := Split(RX_END), latch := Split(RX_END).lo, regs := c'.cfg.regs)
  {
    hide Transact, ClearBits, Split, SelectBankZero, WritePointer, EirByte, AndNot;
    StaysInBankZero(c);
    LimitWritten(c, Split(RX_END));
    var c1 := c.(cfg := c.cfg.(erxrdpt := Split(RX_END), latch := Split(RX_END).lo));
    WriteCommand(c1, OP_BFC, EIR, RXERIF);
    EirBitField(c1);
  }

  /** What follows the body of a frame whose head begins with the pointer `next` (enc28j60.c, lines 710 to 734). */
  function TakeCommands(c: Chip, next: Pair): Chip {
    var c1 := WritePointer(c, ERDPTL, ERDPTH, next);
    SetField(WritePointer(c1, ERXRDPTL, ERXRDPTH, Split(ReadLimit(Address(next)))), ECON2, PKTDEC)
  }

  lemma TakeCommandsDo(c: Chip, next: Pair)
    requires c.cfg.bsel == 0 && c.eng.pkts > 0
    ensures var c', limit := TakeCommands(c, next), Split(ReadLimit(Address(next)));
            && c'.eng == c.eng.(pkts := c.eng.pkts - 1)
            && c'.cfg == c.cfg.(erdpt := next, erxrdpt := limit, latch := limit.lo)
  {
    hide Transact, SetBits, Split, ReadLimit, WritePointer;
    var limit := Split(ReadLimit(Address(next)));
    ReadPointerWritten(c, next);
    var c1 := c.(cfg := c.cfg.(erdpt := next));
    LimitWritten(c1, limit);
    var c2 := c1.(cfg := c1.cfg.(erxrdpt := limit, latch := limit.lo));
    WriteCommand(c2, OP_BFS, ECON2, PKTDEC);
    PacketDecrement(c2);
  }

  /** `enc28_begin_packet_transfer` */
  function BeginCommands(c: Chip): Chip {
    var c1 := WritePointer(SelectBankZero(c), ERDPTL, ERDPTH, Split(RX_START));
    SetField(SetField(ClearField(SetField(c1, EIE, 0xC3), EIR, RXERIF), ECON2, AUTOINC), ECON1, RXEN)
  }

  lemma BeginCommandsDo(c: Chip)
    requires c.cfg.bsel == 0
    ensures var c' := BeginCommands(c);
            && c'.eng == c.eng.(rxerif := false)
            && c'.cfg == c.cfg.(erdpt := Split(RX_START), rxen := true, autoinc := true, regs := c'.cfg.regs)
  {
    hide SetField, ClearField, Split, SelectBankZero, WritePointer;
    StaysInBankZero(c);
    ReadPointerWritten(c, Split(RX_START));
    var c1 := WritePointer(c, ERDPTL, ERDPTH, Split(RX_START));
    InterruptsEnabled(c1);
    ReceiverEnabled(ClearField(SetField(c1, EIE, 0xC3), EIR, RXERIF));
  }

  lemma InterruptsEnabled(c: Chip)
    ensures var c' := ClearField(SetField(c, EIE, 0xC3), EIR, RXERIF);
            c'.eng == c.eng.(rxerif := false) && c'.cfg == c.cfg.(regs := c'.cfg.regs)
  {
    hide Transact, SetBits, ClearBits, EirByte, AndNot, Or;
    WriteCommand(c, OP_BFS, EIE, 0xC3);
    EieSet(c, 0xC3);
    var c1 := SetField(c, EIE, 0xC3);
    WriteCommand(c1, OP_BFC, EIR, RXERIF);
    EirBitField(c1);
  }

  lemma ReceiverEnabled(c: Chip)
    ensures var c' := SetField(SetField(c, ECON2, AUTOINC), ECON1, RXEN);
            c'.eng == c.eng && c'.cfg == c.cfg.(rxen := true, autoinc := true)
  {
    hide Transact, SetBits, ClearBits;
    WriteCommand(c, OP_BFS, ECON2, AUTOINC);
    AutoincSet(c);
    var c1 := SetField(c, ECON2, AUTOINC);
    WriteCommand(c1, OP_BFS, ECON1, RXEN);
    Econ1Field(c1, RXEN);
  }

  // ---------------------------------------------------------------- frames that come in

  /** Frames arriving one after the other. */
  function Arrivals(c: Chip, fs: seq<Frame>): Chip
    decreases |fs|
  {
    if fs == [] then c else Arrivals(Evolve(c, Arrive(fs[0])), fs[1..])
  }

  predicate AllAccepted(c: Chip, fs: seq<Frame>)
    decreases |fs|
  {
    fs == [] || (Accepts(c, fs[0]) && AllAccepted(Evolve(c, Arrive(fs[0])), fs[1..]))
  }

  lemma {:induction false} ArrivalsTrack(c: Chip, fs: seq<Frame>, accepted: seq<Frame>, delivered: seq<Frame>,
                                         h: nat, r: nat)
    requires RingTracks(c, accepted, delivered, h, r) && AllAccepted(c, fs)
    ensures RingTracks(Arrivals(c, fs), accepted + fs, delivered, h, r)
    decreases |fs|
  {
    hide RingTracks, Evolve, Accepts;
    if fs == [] {
      assert accepted + fs == accepted;
    } else {
      EvolveTracks(c, Arrive(fs[0]), accepted, delivered, h, r);
      ArrivalsTrack(Evolve(c, Arrive(fs[0])), fs[1..], accepted + [fs[0]], delivered, h, r);
      assert accepted + [fs[0]] + fs[1..] == accepted + fs;
    }
  }

  /** One arrival: accepted when its record fits, and then counted. */
  lemma OneArrival(c: Chip, f: Frame, accepted: seq<Frame>, delivered: seq<Frame>, h: nat, r: nat)
    requires RingTracks(c, accepted, delivered, h, r) && c.cfg.rxen && c.eng.pkts < 255
    requires |f.data| < 65530 && h + Span(accepted[|delivered|..]) + 6 + |f.data| < r
    ensures Accepts(c, f) && RingTracks(Evolve(c, Arrive(f)), accepted + [f], delivered, h, r)
    ensures Evolve(c, Arrive(f)).cfg == c.cfg && Evolve(c, Arrive(f)).eng.pkts == c.eng.pkts + 1
    ensures Span((accepted + [f])[|delivered|..]) == Span(accepted[|delivered|..]) + RecLen(f)
  {
    hide At, Address, Holds, Deposit, FreeSpace, Span, RecLen;
    var q := accepted[|delivered|..];
    FreeSpaceExact(h + Span(q), r);
    EvolveTracks(c, Arrive(f), accepted, delivered, h, r);
    assert (accepted + [f])[|delivered|..] == q + [f];
    SpanAppend(q, f);
  }

  // ---------------------------------------------------------------- a raced reset

  /** A frame that comes in when the ring can hold no more overwrites the head of the oldest one. */
  lemma OverrunDamages(c: Chip, f: Frame, accepted: seq<Frame>, delivered: seq<Frame>, h: nat, r: nat)
    requires RingTracks(c, accepted, delivered, h, r) && Accepts(c, f)
    requires c.cfg.autoinc && Address(c.cfg.erdpt) == At(h)
    requires Span(accepted[|delivered|..]) <= SIZE < Span(accepted[|delivered|..]) + RecLen(f)
    ensures var c', i := Evolve(c, Arrive(f)), SIZE - Span(accepted[|delivered|..]);
            && i < 6 + |f.data|
            && forall k :: 0 <= k < 6 && i + k < 6 + |f.data| ==>
                 ReadBytes(c', 6).1[k] == Record(f, c'.eng.wr)[i + k]
  {
    hide At, Address, Holds, FreeSpace, Span, RecLen, Record, Deposit, PointersOk, ReadBytes;
    var q, c' := accepted[|delivered|..], Evolve(c, Arrive(f));
    SpanEven(q);
    EvenRecord(f, Span(q));
    ReadBytesAre(c', 6);
    FetchInRing(c'.eng.mem, h, 6);
    forall k | 0 <= k < 6 && SIZE - Span(q) + k < 6 + |f.data|
      ensures ReadBytes(c', 6).1[k] == Record(f, c'.eng.wr)[SIZE - Span(q) + k]
    {
      OverrunOverwrites(c.eng.mem, c.eng.wr, Address(c.cfg.erxrdpt), h, r, q, f, h + k);
    }
  }

  lemma EvenRecord(f: Frame, n: nat)
    requires n % 2 == 0 && n <= SIZE < n + RecLen(f)
    ensures SIZE - n < 6 + |f.data|
  {
  }

  const NEAR_END := 5836       // a hundred bytes before the end of the ring

  function Zeros(n: nat): Frame { Frame(seq(n, _ => 0), 0x80, 0) }

  function Ones(n: nat): Frame { Frame(seq(n, _ => 0xFF), 0x80, 0) }

  /** The command that begins a read, and what EIR said. */
  function EirRead(c: Chip): Byte { Transact(c, [OP_RCR * 32 + EIR, 0]).1[1] }

  lemma EirReadIs(c: Chip)
    requires c.cfg.bsel == 0
    ensures EirRead(c) == EirByte(c)
  {
    hide EirByte;
    EirBits(c);
  }

  /** EIR shows a receive error and no packet, so the read goes into the receive error branch.  A frame that
      runs past the end of the ring comes in before the limit is set: the new limit is not tight. */
  lemma AfterRacedReset() returns (c0: Chip, c: Chip, r: nat)
    ensures c0.eng.pkts == 0 && !Bit(EirRead(c0), 6) && Bit(EirRead(c0), 0)
    ensures RingTracks(c0, [], [], NEAR_END, NEAR_END + SIZE - 1) && Tight(NEAR_END, NEAR_END + SIZE - 1)
    ensures Accepts(c0, Zeros(150)) && c == ResetCommands(Evolve(c0, Arrive(Zeros(150))))
    ensures RingTracks(c, [Zeros(150)], [], NEAR_END, r) && !Tight(NEAR_END, r) && r == 5836 + 156 + 5879
    ensures c.cfg.rxen && c.cfg.autoinc && c.cfg.bsel == 0 && c.eng.pkts == 1
    ensures Address(c.cfg.erdpt) == At(NEAR_END)
    ensures Span([Zeros(150)]) == 156
  {
    hide Address, Split, RingTracks, Evolve, ResetCommands, EirRead, EirByte, Bit;
    var rest, f := ChipAt(NEAR_END), Zeros(150);
    ChipAtRest(NEAR_END);
    c0 := rest.(eng := rest.eng.(rxerif := true));
    EirReadIs(c0);
    EirBits(c0);
    TracksFrame(rest, c0, [], [], NEAR_END, NEAR_END + SIZE - 1);
    OneArrival(c0, f, [], [], NEAR_END, NEAR_END + SIZE - 1);
    assert [] + [f] == [f];
    assert [f][0..] == [f];
    var c1 := Evolve(c0, Arrive(f));
    c := ResetCommands(c1);
    ResetCommandsDo(c1);
    var c2 := c1.(cfg := c1.cfg.(erxrdpt := Split(RX_END)));
    LimitReset(c1, c2, [f], [], NEAR_END, NEAR_END + SIZE - 1);
    r := EndFrom(NEAR_END + 156);
    TracksFrame(c2, c, [f], [], NEAR_END, r);
  }

  /** And three long ones. */
  function Waiting(): seq<Frame> { [Zeros(150), Zeros(1494), Zeros(1494), Zeros(1494)] }

  /** Three long frames come in before the next read: nothing is lost yet. */
  lemma ThreeMore(c: Chip, r: nat) returns (c3: Chip)
    requires RingTracks(c, [Zeros(150)], [], NEAR_END, r) && r == 5836 + 156 + 5879
    requires c.cfg.rxen && c.eng.pkts == 1 && Span([Zeros(150)]) == 156
    ensures AllAccepted(c, [Zeros(1494), Zeros(1494), Zeros(1494)])
    ensures c3 == Arrivals(c, [Zeros(1494), Zeros(1494), Zeros(1494)])
    ensures RingTracks(c3, Waiting(), [], NEAR_END, r) && Span(Waiting()) == 4656
    ensures c3.cfg == c.cfg && c3.eng.pkts == 4
  {
    hide RingTracks, Evolve, Accepts, Address;
    var q, f := [Zeros(150)], Zeros(1494);
    assert q[0..] == q;
    OneArrival(c, f, q, [], NEAR_END, r);
    var c1 := Evolve(c, Arrive(f));
    OneArrival(c1, f, q + [f], [], NEAR_END, r);
    var c2 := Evolve(c1, Arrive(f));
    OneArrival(c2, f, q + [f] + [f], [], NEAR_END, r);
    c3 := Evolve(c2, Arrive(f));
    var all := q + [f] + [f] + [f];
    assert all == Waiting() && all[0..] == all;
    assert [f, f, f][1..] == [f, f] && [f, f][1..] == [f] && [f][1..] == [];
  }

  /** A fourth one does it: the frame that waits, which the chip has accepted and counted, is overwritten.
      Where its head was, the driver now reads six times 0xFF: a good frame of 65535 bytes. */
  lemma LostFrame() returns (c: Chip, c4: Chip, r: nat)
    ensures RingTracks(c, Waiting(), [], NEAR_END, r) && Span(Waiting()) <= SIZE && c.eng.pkts == 4
    ensures Accepts(c, Ones(1294)) && c4 == Evolve(c, Arrive(Ones(1294))) && c4.eng.pkts == 5
    ensures ReadBytes(c, 6).1 == Record(Zeros(150), At(NEAR_END + RecLen(Zeros(150))))[..6]
    ensures ReadBytes(c4, 6).1 == [0xFF, 0xFF, 0xFF, 0xFF, 0xFF, 0xFF]
    ensures var vec := StatusVector(0xFF, 0xFF, 0xFF, 0xFF); ReceivedOk(vec) && PacketLen(vec) == 65535
  {
    hide RingTracks, Evolve, Accepts, Address, ReadBytes, Record, At, ResetCommands, EirRead, Span;
    var c0, c1;
    c0, c1, r := AfterRacedReset();
    c := ThreeMore(c1, r);
    var all := Waiting();
    assert all[0..] == all;
    OneArrival(c, Ones(1294), all, [], NEAR_END, r);
    c4 := Evolve(c, Arrive(Ones(1294)));
    OldestHead(c, all, [], NEAR_END, r);
    ReadBytesAre(c, 6);
    OverrunDamages(c, Ones(1294), all, [], NEAR_END, r);
    ReadBytesAre(c4, 6);
    forall k | 0 <= k < 6 ensures ReadBytes(c4, 6).1[k] == 0xFF {
      AllOnes(c4.eng.wr, 1280 + k);
    }
    HighBit();
  }

  lemma AllOnes(next: Pointer, k: nat)
    requires 6 <= k < 1300
    ensures Record(Ones(1294), next)[k] == 0xFF
  {
  }

  lemma HighBit()
    ensures Bit(0xFF, 7)
  {
  }

  /** But an overrun that comes after the frame was copied, and reaches no other, does no harm.  The ring is
      nearly full when the driver reads the oldest frame; then one more comes in, more than the ring can hold,
      and only then is the limit set.  The frame was read right, and driver and chip are in step with a tight
      limit. */
  lemma CopiedInTime() returns (c: Chip, c1: Chip, data: seq<Byte>, c2: Chip, c3: Chip, r: nat)
    ensures var head := ReadBytes(c, 6);
            && (c1, data) == ReadBytes(head.0, 150) && c2 == Evolve(c1, Arrive(Ones(60))) && Accepts(c1, Ones(60))
            && c3 == TakeCommands(c2, Pair(head.1[0], head.1[1] % 32))
    ensures data == Zeros(150).data
    ensures var all, h := Waiting() + [Zeros(1272), Ones(60)], NEAR_END + 156;
            && Span(all) > SIZE && RingTracks(c3, all, [Zeros(150)], h, r) && Tight(h, r)
            && Address(c3.cfg.erdpt) == At(h) && c3.eng.pkts == 5
  {
    hide RingTracks, Evolve, Accepts, Address, ReadBytes, Record, At, ResetCommands, EirRead, Span, Split, TakeCommands,
         ReadLimit, LimitFrom;
    var c0, b, loose;
    c0, b, loose := AfterRacedReset();
    var b3 := ThreeMore(b, loose);
    var q, all := Waiting() + [Zeros(1272)], Waiting() + [Zeros(1272), Ones(60)];
    assert Waiting()[0..] == Waiting() && q[0..] == q && q + [Ones(60)] == all && all[0..] == all;
    OneArrival(b3, Zeros(1272), Waiting(), [], NEAR_END, loose);
    c := Evolve(b3, Arrive(Zeros(1272)));
    var head := ReadBytes(c, 6);
    HeadRead(c, q, NEAR_END, loose);
    BodyRead(head.0, q, NEAR_END, loose);
    c1, data := ReadBytes(head.0, 150).0, ReadBytes(head.0, 150).1;
    OneArrival(c1, Ones(60), q, [], NEAR_END, loose);
    c2 := Evolve(c1, Arrive(Ones(60)));
    c3 := TakeCommands(c2, Pair(head.1[0], head.1[1] % 32));
    r := LimitFrom(NEAR_END + 156, NEAR_END + Span(all));
    FrameTaken(c2, all, NEAR_END, loose);
    SpanOfFirst(all);
  }

  lemma SpanOfFirst(q: seq<Frame>)
    requires q != []
    ensures Span(q) == RecLen(q[0]) + Span(q[1..])
  {
  }

  // ---------------------------------------------------------------- a whole read, step by step

  /** Reading the head of the oldest frame, when none was taken before. */
  lemma HeadRead(c: Chip, q: seq<Frame>, h: nat, r: nat)
    requires RingTracks(c, q, [], h, r) && q != [] && Span(q) <= SIZE
    requires c.cfg.autoinc && Address(c.cfg.erdpt) == At(h)
    ensures |q[0].data| < 65536
    ensures ReadBytes(c, 6) == (c.(cfg := c.cfg.(erdpt := Split(At(h + 6)))), Record(q[0], At(h + RecLen(q[0])))[..6])
    ensures var s := ReadBytes(c, 6).1;
            && Pair(s[0], s[1] % 32) == Split(At(h + RecLen(q[0])))
            && PacketLen(StatusVector(s[2], s[3], s[4], s[5])) == |q[0].data| && s[4] == q[0].status
    ensures RingTracks(ReadBytes(c, 6).0, q, [], h, r) && Address(Split(At(h + 6))) == At(h + 6)
  {
    hide RingTracks, Address, ReadBytes, Record, At, Split, Span, RecLen;
    assert q[0..] == q;
    OldestHead(c, q, [], h, r);
    ReadBytesAre(c, 6);
    var next := At(h + RecLen(q[0]));
    HeadDecodes(q[0], next);
    AddressSplit(Pair(Record(q[0], next)[0], Record(q[0], next)[1] % 32));
    TracksFrame(c, ReadBytes(c, 6).0, q, [], h, r);
    SplitAddress(At(h + 6));
  }

  lemma BodyRead(c: Chip, q: seq<Frame>, h: nat, r: nat)
    requires RingTracks(c, q, [], h, r) && q != [] && Span(q) <= SIZE + 6
    requires c.cfg.autoinc && Address(c.cfg.erdpt) == At(h + 6)
    ensures var (c', data) := ReadBytes(c, |q[0].data|);
            data == q[0].data && RingTracks(c', q, [], h, r) && c' == c.(cfg := c.cfg.(erdpt := c'.cfg.erdpt))
  {
    hide RingTracks, Address, ReadBytes, At, Split, Span, RecLen;
    assert q[0..] == q;
    OldestBody(c, q, [], h, r);
    ReadBytesAre(c, |q[0].data|);
    TracksFrame(c, ReadBytes(c, |q[0].data|).0, q, [], h, r);
  }

  lemma FrameTaken(c: Chip, q: seq<Frame>, h: nat, r: nat)
    requires RingTracks(c, q, [], h, r) && q != [] && c.cfg.bsel == 0 && c.eng.pkts > 0
    ensures var h', c' := h + RecLen(q[0]), TakeCommands(c, Split(At(h + RecLen(q[0]))));
            var r' := LimitFrom(h', h + Span(q));
            && RingTracks(c', q, [q[0]], h', r') && (Tight(h', r') <==> Span(q[1..]) < SIZE)
            && Address(c'.cfg.erdpt) == At(h') && c'.eng.pkts == c.eng.pkts - 1
            && c'.cfg.autoinc == c.cfg.autoinc && c'.cfg.bsel == 0 && c'.eng.mem == c.eng.mem
            && c'.cfg.erxst == c.cfg.erxst && c'.cfg.erxnd == c.cfg.erxnd
  {
    hide RingTracks, Address, At, Split, Span, RecLen, ReadLimit, LimitFrom, TakeCommands, Tight;
    assert q[0..] == q && [] + [q[0]] == [q[0]];
    var h' := h + RecLen(q[0]);
    var c1, c' := c.(cfg := c.cfg.(erxrdpt := Split(ReadLimit(At(h'))))), TakeCommands(c, Split(At(h')));
    SplitAddress(At(h'));
    TakeCommandsDo(c, Split(At(h')));
    OldestReleased(c, c1, q, [], h, r);
    TracksFrame(c1, c', q, [q[0]], h', LimitFrom(h', h + Span(q)));
  }

  // ---------------------------------------------------------------- a refused frame

  /** After a refusal the read pointer stands behind the head, so the next call takes the first six bytes
      of the refused frame for the head of a record. */
  lemma RefusedFrameIsHead(c: Chip, accepted: seq<Frame>, delivered: seq<Frame>, h: nat, r: nat)
    requires RingTracks(c, accepted, delivered, h, r) && |delivered| < |accepted|
    requires Span(accepted[|delivered|..]) <= SIZE && |accepted[|delivered|].data| >= 6
    requires c.cfg.autoinc && Address(c.cfg.erdpt) == At(h + 6)
    ensures ReadBytes(c, 6).1 == accepted[|delivered|].data[..6]
  {
    hide Address, At, Holds, RecordAt, PointersOk, ReadBytes, ReadMemory, Span, RecLen;
    var f := accepted[|delivered|];
    OldestStored(c, accepted, delivered, h, r);
    BodyIsStored(c.eng.mem, h + Span(accepted[|delivered|..]) - SIZE, h, f, At(h + RecLen(f)));
    StoredSuffix(c.eng.mem, h + 6, f.data, 6);
    ReadInRing(c, h + 6, 6);
    StoredUnique(c.eng.mem, h + 6, f.data[..6], ReadMemory(c, 6).1);
    ReadBytesAre(c, 6);
  }

  /** The station address of the application as the destination of a damaged frame. */
  function Damaged(rest: seq<Byte>): Frame { Frame([0xDE, 0xAD, 0xBE, 0xEF, 0xCC, 0xAA] + rest, 0, 0) }

  /** A damaged frame for this station comes in.  One call reads its head and refuses it; the next call reads
      its destination address as the head of a good frame of 61374 bytes, which it refuses as too long for
      any buffer of the application. */
  lemma RefusedThenMisread(rest: seq<Byte>) returns (c: Chip, head: seq<Byte>, c': Chip, head': seq<Byte>)
    requires |rest| < 1600
    ensures c == Evolve(ChipAt(0), Arrive(Damaged(rest))) && Accepts(ChipAt(0), Damaged(rest))
    ensures RingTracks(c, [Damaged(rest)], [], 0, SIZE - 1) && c.eng.pkts == 1 && Address(c.cfg.erdpt) == At(0)
    ensures (c', head) == ReadBytes(c, 6) && |head| == 6
    ensures !ReceivedOk(StatusVector(head[2], head[3], head[4], head[5]))
    ensures head' == ReadBytes(c', 6).1 && |head'| == 6
    ensures var vec := StatusVector(head'[2], head'[3], head'[4], head'[5]);
            ReceivedOk(vec) && PacketLen(vec) == 61374
  {
    hide RingTracks, Evolve, Accepts, Address, Split, ReadBytes, Record, At;
    var c0, f := ChipAt(0), Damaged(rest);
    ChipAtRest(0);
    OneArrival(c0, f, [], [], 0, SIZE - 1);
    assert [] + [f] == [f] && [f][0..] == [f];
    c := Evolve(c0, Arrive(f));
    HeadRead(c, [f], 0, SIZE - 1);
    c', head := ReadBytes(c, 6).0, ReadBytes(c, 6).1;
    RefusedFrameIsHead(c', [f], [], 0, SIZE - 1);
    head' := ReadBytes(c', 6).1;
    assert head' == [0xDE, 0xAD, 0xBE, 0xEF, 0xCC, 0xAA];
    LengthAndFlag();
  }

  lemma LengthAndFlag()
    ensures Bit(0xCC, 7) && !Bit(0, 7)
  {
  }

  // ---------------------------------------------------------------- a second begin

  /** Two frames come in and one is taken.  A second begin sends the read pointer back to the start of the
      ring: the next call reads the head of the frame already delivered. */
  lemma SecondBeginRereads(f: Frame, g: Frame) returns (c: Chip, c': Chip, c'': Chip)
    requires |f.data| <= 1600 && |g.data| <= 1600
    ensures c == Arrivals(ChipAt(0), [f, g]) && AllAccepted(ChipAt(0), [f, g])
    ensures var head := ReadBytes(c, 6);
            var body := ReadBytes(head.0, |f.data|);
            && body.1 == f.data && |head.1| == 6
            && c' == TakeCommands(body.0, Pair(head.1[0], head.1[1] % 32))
    ensures RingTracks(c', [f, g], [f], RecLen(f), LimitFrom(RecLen(f), RecLen(f) + RecLen(g)))
    ensures c'.cfg.autoinc && c'.eng.pkts == 1 && Address(c'.cfg.erdpt) == At(RecLen(f)) != RX_START
    ensures c'' == BeginCommands(c') && Address(c''.cfg.erdpt) == RX_START && c''.eng.pkts == 1
    ensures ReadBytes(c'', 6).1 == Record(f, At(RecLen(f)))[..6]
  {
    hide RingTracks, Evolve, Accepts, Address, Split, Record, At, ReadBytes, TakeCommands, BeginCommands,
         LimitFrom, Span, RecLen;
    var c0, q := ChipAt(0), [f, g];
    ChipAtRest(0);
    StartOfRing(f, g);
    OneArrival(c0, f, [], [], 0, SIZE - 1);
    var c1 := Evolve(c0, Arrive(f));
    assert [] + [f] == [f] && [f][0..] == [f];
    OneArrival(c1, g, [f], [], 0, SIZE - 1);
    assert [f] + [g] == q && q[0..] == q && q[1..] == [g] && [g][1..] == [];
    c := Evolve(c1, Arrive(g));
    assert Arrivals(c1, [g]) == Arrivals(c, []) && AllAccepted(c1, [g]);
    var head := ReadBytes(c, 6);
    HeadRead(c, q, 0, SIZE - 1);
    BodyRead(head.0, q, 0, SIZE - 1);
    var taken := ReadBytes(head.0, |f.data|).0;
    c' := TakeCommands(taken, Pair(head.1[0], head.1[1] % 32));
    FrameTaken(taken, q, 0, SIZE - 1);
    c'' := BeginCommands(c');
    BeginCommandsDo(c');
    SplitAddress(RX_START);
    Reread(c, c'', q, SIZE - 1);
    AtSmall(RecLen(f));
  }

  lemma StartOfRing(f: Frame, g: Frame)
    requires |f.data| <= 1600 && |g.data| <= 1600
    ensures At(0) == RX_START && Span([]) == 0 && 0 < RecLen(f) <= 1607 && RecLen(g) <= 1607
  {
  }

  lemma AtSmall(p: nat)
    requires 0 < p < SIZE
    ensures At(p) != RX_START
  {
  }

  /** The frame is still in memory. */
  lemma Reread(c: Chip, c'': Chip, q: seq<Frame>, r: nat)
    requires RingTracks(c, q, [], 0, r) && q != [] && Span(q) <= SIZE
    requires c.cfg.autoinc && Address(c.cfg.erdpt) == At(0) && c''.cfg.autoinc && Address(c''.cfg.erdpt) == At(0)
    requires c''.eng.mem == c.eng.mem && c''.cfg.erxst == c.cfg.erxst && c''.cfg.erxnd == c.cfg.erxnd
    ensures ReadBytes(c'', 6).1 == ReadBytes(c, 6).1
  {
    hide Address, Fetch, Advance, RingTracks, Transact, ReadBytes, At, Split, Span;
    ReadBytesAre(c, 6);
    ReadBytesAre(c'', 6);
  }

  // ---------------------------------------------------------------- sending

  /** What a caller knows: the status vector is looked for where the chip puts it exactly for packets of at
      most 225 bytes; from 226 bytes on the driver looks at the start of the memory instead. */
  lemma StatusVectorMissed(size: nat)
    requires Protocol.MIN_WRITE <= size <= MAX_PACKET
    ensures var etxnd := Split(TX_START + size + 1);
            && (StatusVectorAddress(etxnd) == Address(etxnd) + 1 <==> size <= 225)
            && (size == 226 ==> StatusVectorAddress(etxnd) == 1)
  {
    SplitAddress(TX_START + size + 1);
    StatusVectorAddressExact(Split(TX_START + size + 1));
  }

  /** A transmission is running when a bank switch reads ECON1 and has ended when it writes ECON1 back: the
      chip is told to send once more. */
  lemma SentTwice() returns (c: Chip, done: Chip, c': Chip)
    ensures c.eng.txrts && done == Evolve(c, Sent(false, [0, 0, 0, 0, 0, 0, 0])) && !done.eng.txrts && done.eng.txif
    ensures c' == WriteReg(done, ECON1, WithBank(Econ1Byte(c), 3)) && c'.cfg.bsel == 3 && c'.eng.txrts
  {
    hide Econ1Byte, Store;
    c := ChipAt(0);
    c := c.(eng := c.eng.(txrts := true));
    done := Evolve(c, Sent(false, [0, 0, 0, 0, 0, 0, 0]));
    SelectBankValue(c, 3);
    BankSwitchRepeatsRequest(c, 3, false, [0, 0, 0, 0, 0, 0, 0]);
    c' := WriteReg(done, ECON1, WithBank(Econ1Byte(c), 3));
  }
}
