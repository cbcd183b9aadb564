/** Control register numbers and fixed values of the driver's header. */
module Registers {
  // common to all banks
  const EIE := 0x1B
  const EIR := 0x1C
  const ESTAT := 0x1D
  const ECON2 := 0x1E
  const ECON1 := 0x1F
  const RESERVED := 0x1A

  // bank 0
  const ERDPTL := 0x00
  const ERDPTH := 0x01
  const EWRPTL := 0x02
  const EWRPTH := 0x03
  const ETXSTL := 0x04
  const ETXSTH := 0x05
  const ETXNDL := 0x06
  const ETXNDH := 0x07
  const ERXSTL := 0x08
  const ERXSTH := 0x09
  const ERXNDL := 0x0A
  const ERXNDH := 0x0B
  const ERXRDPTL := 0x0C
  const ERXRDPTH := 0x0D
  const ERXWRPTL := 0x0E
  const ERXWRPTH := 0x0F

  // bank 1
  const ERXFCON := 0x18
  const EPKTCNT := 0x19

  // bank 2
  const MACON1 := 0x00
  const MACON3 := 0x02
  const MACON4 := 0x03
  const MABBIPG := 0x04
  const MAIPGL := 0x06
  const MAIPGH := 0x07
  const MACLCON1 := 0x08
  const MACLCON2 := 0x09
  const MAMXFLL := 0x0A
  const MAMXFLH := 0x0B
  const MICMD := 0x12
  const MIREGADR := 0x14
  const MIWRL := 0x16
  const MIWRH := 0x17
  const MIRDL := 0x18
  const MIRDH := 0x19

  // bank 3
  const MAC_ADD1 := 0x04
  const MAC_ADD2 := 0x05
  const MAC_ADD3 := 0x02
  const MAC_ADD4 := 0x03
  const MAC_ADD5 := 0x00
  const MAC_ADD6 := 0x01
  const MISTAT := 0x0A
  const EREVID := 0x12

  // single bits, as masks
  const PKTIF := 0x40
  const TXIF := 0x08
  const RXERIF := 0x01
  const TXRTS := 0x08
  const TXRST := 0x80
  const RXEN := 0x04
  const AUTOINC := 0x80
  const PKTDEC := 0x40
}

/** The part of the ENC28J60 the driver relies on: register banks, SPI commands, buffer memory,
    receive engine, transmit completion and MII reads. */
module Chip {
  import opened Bytes
  import opened Registers
  import opened RxRing

  type Word = x: int | 0 <= x < 65536

  type Pointer = x: int | 0 <= x < MEM_SIZE
  type Bank = x: int | 0 <= x < 4
  type Nibble = x: int | 0 <= x < 16
  type SixBits = x: int | 0 <= x < 64
  type RegisterFile = r: seq<Byte> | |r| == 128 witness seq(128, _ => 0)
  type PhyRegisters = r: seq<Word> | |r| == 32 witness seq(32, _ => 0)

  /** A bit field command given to a MAC or MII register, for which the chip does not define it. */
  datatype BitField = Raise(mask: Byte) | Clear(mask: Byte)

  /** The registers only the host changes. */
  datatype Config = Config(
    regs: RegisterFile,      // four banks of 32; EIE and EIR are common and kept once, in bank 0
    bsel: Bank,           // ECON1.BSEL
    rxen: bool,           // ECON1.RXEN
    econ1High: Nibble,    // ECON1 above TXRTS
    autoinc: bool,        // ECON2.AUTOINC
    econ2Low: SixBits,    // ECON2 below PKTDEC, which always reads as zero
    erdpt: Pair,          // the 13-bit pointers, each in two registers of bank 0
    ewrpt: Pair,
    etxst: Pair,
    etxnd: Pair,
    erxst: Pair,
    erxnd: Pair,
    erxrdpt: Pair,
    latch: Byte,          // ERXRDPTL takes effect only when ERXRDPTH is written
    asked: map<nat, BitField>)    // the last bit field command of each MAC and MII register

  /** What the chip changes on its own. */
  datatype Engine = Engine(
    mem: Memory,
    wr: Pointer,          // ERXWRPT, where the receive engine writes next
    pkts: Byte,           // EPKTCNT
    txrts: bool,          // ECON1.TXRTS
    txif: bool,
    txabrt: bool,
    txResets: nat,        // how often ECON1.TXRST was raised
    rxerif: bool,
    phy: PhyRegisters,
    miBusy: nat,          // remaining time of an MII read
    mird: Word,
    clkWait: nat,         // time until the clock is ready
    miDelay: nat,         // how long the next MII read will take
    noise: Byte)          // whatever the data sheet leaves open

  datatype Chip = Chip(cfg: Config, eng: Engine)

  // ---------------------------------------------------------------- registers

  function Index(bank: nat, a: nat): nat
    requires bank < 4 && a < 32
  {
    if a >= EIE then a else 32 * bank + a
  }

  /** What a read of one of the registers 0x00 to 0x0D of bank 0 delivers. */
  function PointerByte(g: Config, a: nat): Byte
    requires a < 14
  {
    if a == ERDPTL then g.erdpt.lo else if a == ERDPTH then g.erdpt.hi
    else if a == EWRPTL then g.ewrpt.lo else if a == EWRPTH then g.ewrpt.hi
    else if a == ETXSTL then g.etxst.lo else if a == ETXSTH then g.etxst.hi
    else if a == ETXNDL then g.etxnd.lo else if a == ETXNDH then g.etxnd.hi
    else if a == ERXSTL then g.erxst.lo else if a == ERXSTH then g.erxst.hi
    else if a == ERXNDL then g.erxnd.lo else if a == ERXNDH then g.erxnd.hi
    else if a == ERXRDPTL then g.erxrdpt.lo else g.erxrdpt.hi
  }

  /** A write to one of the registers 0x00 to 0x0D of bank 0. */
  function WritePointerReg(g: Config, a: nat, v: Byte): Config
    requires a < 14
  {
    if a == ERDPTL then g.(erdpt := g.erdpt.(lo := v))
    else if a == ERDPTH then g.(erdpt := g.erdpt.(hi := v % 32))
    else if a == EWRPTL then g.(ewrpt := g.ewrpt.(lo := v))
    else if a == EWRPTH then g.(ewrpt := g.ewrpt.(hi := v % 32))
    else if a == ETXSTL then g.(etxst := g.etxst.(lo := v))
    else if a == ETXSTH then g.(etxst := g.etxst.(hi := v % 32))
    else if a == ETXNDL then g.(etxnd := g.etxnd.(lo := v))
    else if a == ETXNDH then g.(etxnd := g.etxnd.(hi := v % 32))
    else if a == ERXSTL then g.(erxst := g.erxst.(lo := v))
    else if a == ERXSTH then g.(erxst := g.erxst.(hi := v % 32))
    else if a == ERXNDL then g.(erxnd := g.erxnd.(lo := v))
    else if a == ERXNDH then g.(erxnd := g.erxnd.(hi := v % 32))
    else if a == ERXRDPTL then g.(latch := v)
    else g.(erxrdpt := Pair(g.latch, v % 32))
  }

  /** The six station address registers; addr[0] is MAC_ADD1. */
  function MacOf(regs: RegisterFile): seq<Byte> {
    [regs[96 + MAC_ADD1], regs[96 + MAC_ADD2], regs[96 + MAC_ADD3],
     regs[96 + MAC_ADD4], regs[96 + MAC_ADD5], regs[96 + MAC_ADD6]]
  }

  /** MAC and MII registers answer a read with a dummy byte first. */
  predicate IsMacMii(bank: nat, a: nat) {
    (bank == 2 && a < RESERVED) || (bank == 3 && (a <= 5 || a == MISTAT))
  }

  /** Addresses of bank 2 at which the data sheet's register map has no usable register. */
  predicate Unimplemented(bank: nat, a: nat) {
    bank == 2 && a in {0x01, 0x05, 0x0C, 0x0D, 0x0E, 0x0F, 0x10, 0x11, 0x13, 0x15}
  }

  function EirByte(c: Chip): Byte {
    (if c.eng.pkts > 0 then PKTIF else 0) + (if c.eng.txif then TXIF else 0)
    + (if c.eng.rxerif then RXERIF else 0)
    + c.cfg.regs[EIR] / 16 % 4 * 16 + c.cfg.regs[EIR] / 2 % 2 * 2
  }

  function EstatByte(c: Chip): Byte {
    (if c.eng.clkWait == 0 then 1 else 0) + (if c.eng.txabrt then 2 else 0)
  }

  function Econ1Byte(c: Chip): Byte {
    c.cfg.econ1High * 16 + (if c.eng.txrts then TXRTS else 0) + (if c.cfg.rxen then RXEN else 0) + c.cfg.bsel
  }

  function Econ2Byte(c: Chip): Byte {
    (if c.cfg.autoinc then AUTOINC else 0) + c.cfg.econ2Low
  }

  /** What a register read delivers. */
  function ReadReg(c: Chip, a: nat): Byte
    requires a < 32
  {
    var b := c.cfg.bsel;
    if a == EIR then EirByte(c)
    else if a == ESTAT then EstatByte(c)
    else if a == ECON1 then Econ1Byte(c)
    else if a == ECON2 then Econ2Byte(c)
    else if b == 0 && a < 14 then
      PointerByte(c.cfg, a)
    else if b == 0 && a == ERXWRPTL then Split(c.eng.wr).lo
    else if b == 0 && a == ERXWRPTH then Split(c.eng.wr).hi
    else if b == 1 && a == EPKTCNT then c.eng.pkts
    else if b == 2 && a == MIRDL then c.eng.mird % 256
    else if b == 2 && a == MIRDH then c.eng.mird / 256
    else if b == 3 && a == MISTAT then (if c.eng.miBusy > 0 then 1 else 0)
    else c.cfg.regs[Index(b, a)]
  }

  /** What a register write does to the host's registers. */
  function WriteConfig(g: Config, a: nat, v: Byte): Config
    requires a < 32
  {
    var b := g.bsel;
    if a == ESTAT then g
    else if a == ECON1 then g.(bsel := v % 4, rxen := Bit(v, 2), econ1High := v / 16)
    else if a == ECON2 then g.(autoinc := Bit(v, 7), econ2Low := v % 64)
    else if b == 0 && a < 14 then WritePointerReg(g, a, v)
    else if ReadOnly(b, a) then g
    else g.(regs := g.regs[Index(b, a) := v])
  }

  /** What it sets off in the chip: flags, transmit request, packet count, the receive write pointer
      following ERXST, the start of an MII read. */
  function WriteEngine(g: Config, n: Engine, a: nat, v: Byte): Engine
    requires a < 32
  {
    var b := g.bsel;
    if a == EIR then n.(rxerif := Bit(v, 0), txif := Bit(v, 3))
    else if a == ESTAT then n.(txabrt := Bit(v, 1))
    else if a == ECON1 then
      n.(txrts := Bit(v, 3), txResets := n.txResets + if Bit(v, 7) && g.econ1High < 8 then 1 else 0)
    else if a == ECON2 then n.(pkts := if Bit(v, 6) && n.pkts > 0 then n.pkts - 1 else n.pkts)
    else if b == 0 && (a == ERXSTL || a == ERXSTH) then n.(wr := Address(WriteConfig(g, a, v).erxst))
    else if b == 2 && a == MICMD then n.(miBusy := if Bit(v, 0) then n.miDelay + 1 else n.miBusy)
    else n
  }

  function WriteReg(c: Chip, a: nat, v: Byte): Chip
    requires a < 32
  {
    Chip(WriteConfig(c.cfg, a, v), WriteEngine(c.cfg, c.eng, a, v))
  }

  predicate ReadOnly(b: nat, a: nat) {
    (b == 0 && (a == ERXWRPTL || a == ERXWRPTH)) || (b == 1 && a == EPKTCNT)
    || (b == 2 && (a == MIRDL || a == MIRDH)) || (b == 3 && (a == MISTAT || a == EREVID))
  }

  /** Registers that simply keep what is written to them. */
  predicate Plain(b: nat, a: nat) {
    (a < RESERVED || a == EIE) && !ReadOnly(b, a) && !(b == 0 && a < 14) && !(b == 2 && a == MICMD)
  }

  /** Bit field set.  It is defined for ETH registers only; what it leaves in a MAC or MII register is open. */
  function SetBits(c: Chip, a: nat, mask: Byte): Chip
    requires a < 32
  {
    if IsMacMii(c.cfg.bsel, a) then Scrambled(c, a, Raise(mask)) else WriteReg(c, a, Or(ReadReg(c, a), mask))
  }

  /** Bit field clear, likewise. */
  function ClearBits(c: Chip, a: nat, mask: Byte): Chip
    requires a < 32
  {
    if IsMacMii(c.cfg.bsel, a) then Scrambled(c, a, Clear(mask)) else WriteReg(c, a, AndNot(ReadReg(c, a), mask))
  }

  function Scrambled(c: Chip, a: nat, f: BitField): Chip
    requires a < 32
  {
    var k := Index(c.cfg.bsel, a);
    c.(cfg := c.cfg.(regs := c.cfg.regs[k := c.eng.noise], asked := c.cfg.asked[k := f]))
  }

  // ---------------------------------------------------------------- SPI commands

  const OP_RCR := 0
  const OP_RBM := 1
  const OP_WCR := 2
  const OP_WBM := 3
  const OP_BFS := 4
  const OP_BFC := 5
  const OP_SRC := 7

  /** Reading the buffer memory moves ERDPT on, from ERXND back to ERXST. */
  function ReadMemory(c: Chip, n: nat): (r: (Chip, seq<Byte>)) {
    var g := c.cfg;
    if g.autoinc then
      (c.(cfg := g.(erdpt := Split(Advance(Address(g.erdpt), n, Address(g.erxst), Address(g.erxnd))))),
       Fetch(c.eng.mem, Address(g.erdpt), n, Address(g.erxst), Address(g.erxnd)))
    else
      (c, seq(n, _ => c.eng.mem[Address(g.erdpt)]))
  }

  /** Writing the buffer memory moves EWRPT on, from the end of the memory back to its start. */
  function WriteMemory(c: Chip, data: seq<Byte>): (r: Chip) {
    var g, n := c.cfg, c.eng;
    if g.autoinc then
      Chip(g.(ewrpt := Split(Advance(Address(g.ewrpt), |data|, 0, MEM_SIZE - 1))),
           n.(mem := Store(n.mem, Address(g.ewrpt), data, 0, MEM_SIZE - 1)))
    else if data == [] then c
    else c.(eng := n.(mem := n.mem[Address(g.ewrpt) := data[|data| - 1]]))
  }

  /** The soft reset: receiver and transmitter off, bank 0, no packet pending. */
  function SoftReset(c: Chip): Chip {
    var regs := seq(128, _ => c.eng.noise)[EIE := 0][EIR := 0][96 + EREVID := c.cfg.regs[96 + EREVID]];
    Chip(c.cfg.(regs := regs, bsel := 0, rxen := false, econ1High := 0, autoinc := true, econ2Low := 0, asked := map[]),
         c.eng.(pkts := 0, txrts := false, txif := false, txabrt := false, rxerif := false, miBusy := 0))
  }

  /** The bytes a register read shifts out: the dummy byte comes first for MAC and MII registers. */
  function RegisterByte(c: Chip, a: nat, i: int): Byte
    requires a < 32
  {
    if i <= 0 || (i == 1 && IsMacMii(c.cfg.bsel, a)) then c.eng.noise else ReadReg(c, a)
  }

  /** One chip select period: the bytes `tx` go in while the bytes of the same number come out. */
  function Transact(c: Chip, tx: seq<Byte>): (r: (Chip, seq<Byte>))
    requires tx != []
    ensures |r.1| == |tx|
  {
    var op, a := tx[0] / 32, tx[0] % 32;
    if op == OP_RCR then
      (c, seq(|tx|, i => RegisterByte(c, a, i)))
    else if op == OP_RBM && a == RESERVED then
      var (c', data) := ReadMemory(c, |tx| - 1);
      (c', [c.eng.noise] + data)
    else if op == OP_WBM && a == RESERVED then
      (WriteMemory(c, tx[1..]), seq(|tx|, _ => c.eng.noise))
    else if op == OP_WCR && |tx| == 2 then
      (WriteReg(c, a, tx[1]), seq(|tx|, _ => c.eng.noise))
    else if op == OP_BFS && |tx| == 2 then
      (SetBits(c, a, tx[1]), seq(|tx|, _ => c.eng.noise))
    else if op == OP_BFC && |tx| == 2 then
      (ClearBits(c, a, tx[1]), seq(|tx|, _ => c.eng.noise))
    else if op == OP_SRC && a == 0x1F then
      (SoftReset(c), seq(|tx|, _ => c.eng.noise))
    else
      (c, seq(|tx|, _ => c.eng.noise))
  }

  // ---------------------------------------------------------------- what happens between SPI commands

  datatype Event =
    | Tick                                       // time passes
    | Arrive(frame: Frame)                       // a frame passed the filters
    | Sent(aborted: bool, vector: seq<Byte>)     // a transmission ended
    | Drift(delay: nat, noise: Byte)             // values the model leaves open change

  /** The receive engine takes a frame if it is enabled, the count can go up and the record fits. */
  predicate Accepts(c: Chip, f: Frame) {
    c.cfg.rxen && c.eng.pkts < 255 && |f.data| < 65530
    && 6 + |f.data| <= FreeSpace(c.eng.wr, Address(c.cfg.erxrdpt), Address(c.cfg.erxst), Address(c.cfg.erxnd))
  }

  function Receive(c: Chip, f: Frame): Engine {
    if !c.cfg.rxen then c.eng
    else if Accepts(c, f) then
      var (mem', wr') := Deposit(c.eng.mem, c.eng.wr, f, Address(c.cfg.erxst), Address(c.cfg.erxnd));
      c.eng.(mem := mem', wr := wr', pkts := c.eng.pkts + 1)
    else c.eng.(rxerif := true)
  }

  function EvolveEngine(c: Chip, e: Event): Engine {
    var n := c.eng;
    match e
    case Tick =>
      n.(clkWait := if n.clkWait == 0 then 0 else n.clkWait - 1,
         miBusy := if n.miBusy == 0 then 0 else n.miBusy - 1,
         mird := if n.miBusy == 1 then n.phy[c.cfg.regs[64 + MIREGADR] % 32] else n.mird)
    case Arrive(f) => Receive(c, f)
    case Sent(aborted, vector) =>
      if !n.txrts || |vector| != 7 then n
      else n.(txrts := false, txif := true, txabrt := aborted,
              mem := Store(n.mem, (Address(c.cfg.etxnd) + 1) % MEM_SIZE, vector, 0, MEM_SIZE - 1))
    case Drift(delay, noise) => n.(miDelay := delay, noise := noise)
  }

  /** The host's registers never change on their own. */
  function Evolve(c: Chip, e: Event): Chip { c.(eng := EvolveEngine(c, e)) }

  /** The frames an event adds to the ring. */
  function Added(c: Chip, e: Event): seq<Frame> {
    if e.Arrive? && Accepts(c, e.frame) then [e.frame] else []
  }

  // ---------------------------------------------------------------- facts

  lemma EirBits(c: Chip)
    ensures ReadReg(c, EIR) == EirByte(c)
    ensures Bit(EirByte(c), 6) <==> c.eng.pkts > 0
    ensures Bit(EirByte(c), 3) <==> c.eng.txif
    ensures Bit(EirByte(c), 0) <==> c.eng.rxerif
  {
  }

  type Digit = x: int | 0 <= x < 2

  lemma EirDigits(x: Byte, k: Digit, h5: Digit, h4: Digit, a: Digit, l: Digit, b: Digit)
    requires x == 64 * k as nat + 32 * h5 as nat + 16 * h4 as nat + 8 * a as nat + 2 * l as nat + b
    ensures (Bit(x, 1) <==> l == 1) && (Bit(x, 4) <==> h4 == 1) && (Bit(x, 5) <==> h5 == 1)
    ensures !Bit(x, 2) && !Bit(x, 7)
  {
    assert x / 2 == 32 * k as nat + 16 * h5 as nat + 8 * h4 as nat + 4 * a as nat + l;
    assert x / 4 == 16 * k as nat + 8 * h5 as nat + 4 * h4 as nat + 2 * a as nat;
    assert x / 16 == 4 * k as nat + 2 * h5 as nat + h4;
    assert x / 32 == 2 * k as nat + h5;
  }

  /** The other flags of EIR are kept as written; two bits always read as zero. */
  lemma EirRest(c: Chip)
    ensures Bit(EirByte(c), 1) <==> Bit(c.cfg.regs[EIR], 1)
    ensures Bit(EirByte(c), 4) <==> Bit(c.cfg.regs[EIR], 4)
    ensures Bit(EirByte(c), 5) <==> Bit(c.cfg.regs[EIR], 5)
    ensures !Bit(EirByte(c), 2) && !Bit(EirByte(c), 7)
  {
    var r := c.cfg.regs[EIR];
    EirFields(r);
    EirDigits(EirByte(c), if c.eng.pkts > 0 then 1 else 0, if Bit(r, 5) then 1 else 0, if Bit(r, 4) then 1 else 0,
              if c.eng.txif then 1 else 0, if Bit(r, 1) then 1 else 0, if c.eng.rxerif then 1 else 0) by {
      hide Bit;
    }
  }

  lemma EirFields(r: Byte)
    ensures r / 2 % 2 == if Bit(r, 1) then 1 else 0
    ensures r / 16 % 4 == (if Bit(r, 5) then 2 else 0) + (if Bit(r, 4) then 1 else 0)
  {
    assert r / 16 == r / 32 * 2 + r / 16 % 2;
  }

  // What a write to each kind of register comes down to.

  lemma PointerWrite(c: Chip, a: nat, v: Byte)
    requires c.cfg.bsel == 0 && a < 14 && a != ERXSTL && a != ERXSTH
    ensures WriteReg(c, a, v) == c.(cfg := WritePointerReg(c.cfg, a, v))
  {
  }

  lemma PlainWrite(c: Chip, a: nat, v: Byte)
    requires a < 32 && Plain(c.cfg.bsel, a)
    ensures WriteReg(c, a, v) == c.(cfg := c.cfg.(regs := c.cfg.regs[Index(c.cfg.bsel, a) := v]))
  {
  }

  lemma PlainRead(c: Chip, a: nat)
    requires a < RESERVED && Plain(c.cfg.bsel, a)
    ensures ReadReg(c, a) == c.cfg.regs[Index(c.cfg.bsel, a)]
  {
  }

  lemma MicmdWrite(c: Chip, v: Byte)
    requires c.cfg.bsel == 2
    ensures WriteReg(c, MICMD, v) ==
            Chip(c.cfg.(regs := c.cfg.regs[64 + MICMD := v]),
                 c.eng.(miBusy := if Bit(v, 0) then c.eng.miDelay + 1 else c.eng.miBusy))
  {
  }

  lemma Econ1Write(c: Chip, v: Byte)
    ensures WriteReg(c, ECON1, v) ==
            Chip(c.cfg.(bsel := v % 4, rxen := Bit(v, 2), econ1High := v / 16),
                 c.eng.(txrts := Bit(v, 3),
                        txResets := c.eng.txResets + if v / 16 >= 8 && c.cfg.econ1High < 8 then 1 else 0))
  {
    HighestBit(v);
  }

  lemma HighestBit(x: Byte)
    ensures Bit(x, 7) <==> x / 16 >= 8
  {
    assert x / 128 == x / 16 / 8;
  }

  lemma Econ1Bits(c: Chip)
    ensures ReadReg(c, ECON1) == Econ1Byte(c)
    ensures Bit(Econ1Byte(c), 3) <==> c.eng.txrts
    ensures Bit(Econ1Byte(c), 2) <==> c.cfg.rxen
    ensures Econ1Byte(c) % 4 == c.cfg.bsel && Econ1Byte(c) / 16 == c.cfg.econ1High
  {
    var x := Econ1Byte(c);
    assert x / 4 == 4 * c.cfg.econ1High + (if c.eng.txrts then 2 else 0) + (if c.cfg.rxen then 1 else 0);
    assert x / 8 == 2 * c.cfg.econ1High + (if c.eng.txrts then 1 else 0);
  }

  lemma Econ2Bits(c: Chip)
    ensures !Bit(Econ2Byte(c), 6)
    ensures Bit(Econ2Byte(c), 7) <==> c.cfg.autoinc
    ensures Bit(PKTDEC, 6) && !Bit(PKTDEC, 7) && !Bit(AUTOINC, 6) && Bit(AUTOINC, 7)
    ensures Econ2Byte(c) % 64 == c.cfg.econ2Low && ReadReg(c, ECON2) == Econ2Byte(c)
  {
  }

  lemma LowBits(x: Byte)
    ensures x % 4 == (if Bit(x, 0) then 1 else 0) + (if Bit(x, 1) then 2 else 0)
  {
  }

  lemma HighNibble(x: Byte)
    ensures x / 16 == (if Bit(x, 4) then 1 else 0) + (if Bit(x, 5) then 2 else 0)
                      + (if Bit(x, 6) then 4 else 0) + (if Bit(x, 7) then 8 else 0)
  {
    assert x / 16 == 2 * (x / 32) + x / 16 % 2;
    assert x / 32 == 2 * (x / 64) + x / 32 % 2;
    assert x / 64 == 2 * (x / 128) + x / 64 % 2;
  }

  /** The upper half of ECON1 under a mask: kept by one of the lower half, and by TXRST up to that bit. */
  lemma HighUnderMask(x: Byte, mask: Byte)
    requires mask in {RXEN, TXRTS, TXRST}
    ensures Or(x, mask) / 16 == if mask == TXRST then x / 16 % 8 + 8 else x / 16
    ensures AndNot(x, mask) / 16 == if mask == TXRST then x / 16 % 8 else x / 16
  {
    hide Or, AndNot, Bit;
    HighNibble(x);
    HighNibble(Or(x, mask));
    HighNibble(AndNot(x, mask));
    forall i | 4 <= i < 8
      ensures Bit(Or(x, mask), i) == (Bit(x, i) || Bit(mask, i))
      ensures Bit(AndNot(x, mask), i) == (Bit(x, i) && !Bit(mask, i))
    {
      OrBit(x, mask, i);
      AndNotBit(x, mask, i);
    }
    Econ1Masks();
  }

  lemma Econ1Masks()
    ensures forall i :: 4 <= i < 8 ==> !Bit(RXEN, i) && !Bit(TXRTS, i) && (Bit(TXRST, i) <==> i == 7)
  {
  }

  /** Setting or clearing bits of ECON1 outside BSEL does what the mask says to each flag. */
  lemma Econ1BitField(c: Chip, mask: Byte)
    requires mask % 4 == 0
    ensures var s := SetBits(c, ECON1, mask);
            && s.cfg == c.cfg.(rxen := c.cfg.rxen || Bit(mask, 2), econ1High := Or(Econ1Byte(c), mask) / 16)
            && s.eng == c.eng.(txrts := c.eng.txrts || Bit(mask, 3),
                 txResets := c.eng.txResets + if Bit(mask, 7) && c.cfg.econ1High < 8 then 1 else 0)
    ensures var s := ClearBits(c, ECON1, mask);
            && s.cfg == c.cfg.(rxen := c.cfg.rxen && !Bit(mask, 2), econ1High := AndNot(Econ1Byte(c), mask) / 16)
            && s.eng == c.eng.(txrts := c.eng.txrts && !Bit(mask, 3))
  {
    hide Bit, Or, AndNot, Econ1Byte;
    var x := Econ1Byte(c);
    Econ1Bits(c);
    forall i | 0 <= i < 8
      ensures Bit(Or(x, mask), i) == (Bit(x, i) || Bit(mask, i))
      ensures Bit(AndNot(x, mask), i) == (Bit(x, i) && !Bit(mask, i))
    {
      OrBit(x, mask, i);
      AndNotBit(x, mask, i);
    }
    LowBits(x);
    LowBits(mask);
    LowBits(Or(x, mask));
    LowBits(AndNot(x, mask));
    HighestBit(x);
  }

  /** For the three masks the driver uses, the whole of ECON1. */
  lemma Econ1Field(c: Chip, mask: Byte)
    requires mask in {RXEN, TXRTS, TXRST}
    ensures var s := SetBits(c, ECON1, mask);
            && s.eng == c.eng.(txrts := c.eng.txrts || mask == TXRTS,
                 txResets := c.eng.txResets + if mask == TXRST && c.cfg.econ1High < 8 then 1 else 0)
            && s.cfg == c.cfg.(rxen := c.cfg.rxen || mask == RXEN,
                               econ1High := if mask == TXRST then c.cfg.econ1High % 8 + 8 else c.cfg.econ1High)
    ensures var s := ClearBits(c, ECON1, mask);
            && s.eng == c.eng.(txrts := c.eng.txrts && mask != TXRTS)
            && s.cfg == c.cfg.(rxen := c.cfg.rxen && mask != RXEN,
                               econ1High := if mask == TXRST then c.cfg.econ1High % 8 else c.cfg.econ1High)
  {
    hide Bit, Or, AndNot, Econ1Byte, SetBits, ClearBits;
    Econ1Bits(c);
    Econ1BitField(c, mask);
    HighUnderMask(Econ1Byte(c), mask);
    LowMasks();
  }

  lemma LowMasks()
    ensures Bit(RXEN, 2) && !Bit(RXEN, 3) && !Bit(TXRTS, 2) && Bit(TXRTS, 3) && !Bit(TXRST, 2) && !Bit(TXRST, 3)
    ensures !Bit(RXEN, 7) && !Bit(TXRTS, 7) && Bit(TXRST, 7)
  {
  }

  /** A register write command carries the register in its low five bits. */
  lemma WriteCommand(c: Chip, op: nat, reg: Byte, v: Byte)
    requires op in {OP_WCR, OP_BFS, OP_BFC}
    ensures Transact(c, [op * 32 + reg % 32, v]).0 ==
            if op == OP_WCR then WriteReg(c, reg % 32, v)
            else if op == OP_BFS then SetBits(c, reg % 32, v)
            else ClearBits(c, reg % 32, v)
  {
    hide WriteReg, SetBits, ClearBits, ReadMemory, WriteMemory, SoftReset;
  }

  /** The bytes sent to read a register, with room for the dummy byte where there is one. */
  function ReadCommand(bank: nat, a: nat): seq<Byte>
    requires a < 32
  {
    [OP_RCR * 32 + a, 0] + if IsMacMii(bank, a) then [0] else []
  }

  function InBank(c: Chip, b: Bank): Chip { c.(cfg := c.cfg.(bsel := b)) }

  /** Register access through the bytes on the wire: what is written to a plain register is read back,
      and no register of any bank but this one reads differently afterwards. */
  lemma RegisterRoundTrip(c: Chip, a: nat, v: Byte)
    requires a < 32 && a != RESERVED && Plain(c.cfg.bsel, a)
    ensures var c' := Transact(c, [OP_WCR * 32 + a, v]).0;
            var tx := ReadCommand(c.cfg.bsel, a);
            && Transact(c', tx).0 == c'
            && Transact(c', tx).1[|tx| - 1] == v
            && forall b: Bank, x :: 0 <= x < 32 && Index(b, x) != Index(c.cfg.bsel, a) ==>
                 ReadReg(InBank(c', b), x) == ReadReg(InBank(c, b), x)
  {
    hide Bit, Split, Address, WriteReg, ReadMemory, WriteMemory, SoftReset;
    WriteCommand(c, OP_WCR, a, v);
    PlainWrite(c, a, v);
  }

  /** The bit field commands on a plain ETH register are the bitwise or and the bitwise and-not. */
  lemma BitFieldRoundTrip(c: Chip, a: nat, mask: Byte, i: nat)
    requires a < 32 && a != RESERVED && Plain(c.cfg.bsel, a) && !IsMacMii(c.cfg.bsel, a) && i < 8
    ensures var raised := Transact(c, [OP_BFS * 32 + a, mask]).0;
            Bit(ReadReg(raised, a), i) == (Bit(ReadReg(c, a), i) || Bit(mask, i))
    ensures var cleared := Transact(c, [OP_BFC * 32 + a, mask]).0;
            Bit(ReadReg(cleared, a), i) == (Bit(ReadReg(c, a), i) && !Bit(mask, i))
  {
    hide Bit, Or, AndNot, Split, Address, WriteReg, Transact;
    WriteCommand(c, OP_BFS, a, mask);
    WriteCommand(c, OP_BFC, a, mask);
    var x := ReadReg(c, a);
    PlainWrite(c, a, Or(x, mask));
    PlainWrite(c, a, AndNot(x, mask));
    OrBit(x, mask, i);
    AndNotBit(x, mask, i);
  }

  /** The buffer memory read command is 0x3A; the bytes sent after it do not matter. */
  lemma ReadMemoryCommand(c: Chip, tx: seq<Byte>)
    requires tx != [] && tx[0] == 0x3A
    ensures Transact(c, tx).0 == ReadMemory(c, |tx| - 1).0
    ensures Transact(c, tx).1[1..] == ReadMemory(c, |tx| - 1).1
    ensures var c' := ReadMemory(c, |tx| - 1).0; c' == c.(cfg := c.cfg.(erdpt := c'.cfg.erdpt))
  {
  }

  /** The buffer memory write command is 0x7A; the first byte after it is data as well. */
  lemma WriteMemoryCommand(c: Chip, tx: seq<Byte>)
    requires tx != [] && tx[0] == 0x7A
    ensures Transact(c, tx).0 == WriteMemory(c, tx[1..])
    ensures var c' := WriteMemory(c, tx[1..]);
            c' == Chip(c.cfg.(ewrpt := c'.cfg.ewrpt), c.eng.(mem := c'.eng.mem))
  {
  }

  lemma EstatBits(c: Chip)
    ensures ReadReg(c, ESTAT) == EstatByte(c)
    ensures Bit(EstatByte(c), 0) <==> c.eng.clkWait == 0
    ensures Bit(EstatByte(c), 1) <==> c.eng.txabrt
  {
  }

  /** Setting PKTDEC takes one off the packet count and leaves all of ECON2. */
  lemma PacketDecrement(c: Chip)
    ensures SetBits(c, ECON2, PKTDEC) == c.(eng := c.eng.(pkts := if c.eng.pkts > 0 then c.eng.pkts - 1 else 0))
  {
    hide Or, Bit, Econ2Byte;
    Econ2Bits(c);
    OrBit(Econ2Byte(c), PKTDEC, 6);
    OrBit(Econ2Byte(c), PKTDEC, 7);
    LowUnderMask(Econ2Byte(c), PKTDEC);
  }

  lemma TwoDigits(y: nat)
    ensures y % 4 == y % 2 + 2 * (y / 2 % 2)
  {
  }

  lemma BitPairs(x: Byte)
    ensures x / 4 % 4 == (if Bit(x, 2) then 1 else 0) + (if Bit(x, 3) then 2 else 0)
    ensures x / 16 % 4 == (if Bit(x, 4) then 1 else 0) + (if Bit(x, 5) then 2 else 0)
  {
    TwoDigits(x / 4);
    TwoDigits(x / 16);
    assert x / 8 == x / 4 / 2 && x / 32 == x / 16 / 2;
  }

  lemma ThreePairs(x: Byte)
    ensures x % 64 == x % 4 + 4 * (x / 4 % 4) + 16 * (x / 16 % 4)
  {
    assert x / 16 == x / 4 / 4;
  }

  /** A mask of the two highest bits leaves the other six. */
  lemma LowUnderMask(x: Byte, mask: Byte)
    requires mask in {PKTDEC, AUTOINC}
    ensures Or(x, mask) % 64 == x % 64
  {
    hide Or, Bit;
    var y := Or(x, mask);
    Econ2Masks();
    forall i | 0 <= i < 6 ensures Bit(y, i) == Bit(x, i) {
      OrBit(x, mask, i);
    }
    LowBits(x);
    LowBits(y);
    BitPairs(x);
    BitPairs(y);
    ThreePairs(x);
    ThreePairs(y);
  }

  lemma Econ2Masks()
    ensures forall i :: 0 <= i < 6 ==> !Bit(PKTDEC, i) && !Bit(AUTOINC, i)
  {
  }

  /** The receive ring of a configured chip, and a transmit area kept away from it. */
  ghost predicate Ring(c: Chip, h: nat, r: nat, q: seq<Frame>) {
    && Address(c.cfg.erxst) == RX_START && Address(c.cfg.erxnd) == RX_END
    && (c.eng.txrts ==> Address(c.cfg.etxnd) + 7 < RX_START)
    && RingOk(c.eng.mem, c.eng.wr, Address(c.cfg.erxrdpt), h, r, q)
  }

  /** The seven bytes of the status vector. */
  predicate BehindPacket(c: Chip, a: nat) { Address(c.cfg.etxnd) < a <= Address(c.cfg.etxnd) + 7 }

  /** A frame that arrives is appended or refused. */
  lemma ArrivalKeepsRing(c: Chip, f: Frame, h: nat, r: nat, q: seq<Frame>)
    requires Ring(c, h, r, q)
    ensures Ring(Evolve(c, Arrive(f)), h, r, q + Added(c, Arrive(f)))
    ensures forall a :: 0 <= a < RX_START ==> Evolve(c, Arrive(f)).eng.mem[a] == c.eng.mem[a]
  {
    hide Address, RingOk, Deposit;
    assert q + [] == q;
    if Accepts(c, f) {
      DepositAppends(c.eng.mem, c.eng.wr, Address(c.cfg.erxrdpt), h, r, q, f);
    }
  }

  /** The status vector of a transmission goes below the ring. */
  lemma CompletionKeepsRing(c: Chip, aborted: bool, vector: seq<Byte>, h: nat, r: nat, q: seq<Frame>)
    requires Ring(c, h, r, q)
    ensures var c' := Evolve(c, Sent(aborted, vector));
            && Ring(c', h, r, q)
            && forall a :: 0 <= a < RX_START && !(c.eng.txrts && BehindPacket(c, a)) ==>
                 c'.eng.mem[a] == c.eng.mem[a]
  {
    hide Address, Store, Holds, PointersOk;
    if c.eng.txrts && |vector| == 7 {
      StoreBelow(c.eng.mem, Address(c.cfg.etxnd) + 1, vector);
      BelowRing(c.eng.mem, Address(c.cfg.etxnd) + 1, vector, h + Span(q) - SIZE, h, q);
    }
  }

  /** The receive engine is confined to the ring and the status vector to the area below it. */
  ghost predicate Fenced(c: Chip) {
    && Address(c.cfg.erxst) == RX_START && Address(c.cfg.erxnd) == RX_END
    && RX_START <= Address(c.cfg.erxrdpt) <= RX_END && RX_START <= c.eng.wr <= RX_END
    && (c.eng.txrts ==> Address(c.cfg.etxnd) + 7 < RX_START)
  }

  lemma ArrivalStaysFenced(c: Chip, f: Frame)
    requires Fenced(c)
    ensures Fenced(Evolve(c, Arrive(f)))
    ensures forall a :: 0 <= a < RX_START ==> Evolve(c, Arrive(f)).eng.mem[a] == c.eng.mem[a]
  {
    hide Address, Deposit;
    if Accepts(c, f) {
      DepositStaysInRing(c.eng.mem, c.eng.wr, Address(c.cfg.erxrdpt), f);
    }
  }

  /** Nothing the chip does on its own gets out of these bounds, whatever the state of the ring. */
  lemma EvolveStaysFenced(c: Chip, e: Event)
    requires Fenced(c)
    ensures Fenced(Evolve(c, e))
    ensures forall a :: 0 <= a < RX_START && !(c.eng.txrts && BehindPacket(c, a)) ==>
              Evolve(c, e).eng.mem[a] == c.eng.mem[a]
  {
    hide Address, Store;
    match e
    case Arrive(f) =>
      hide Evolve;
      ArrivalStaysFenced(c, f);
    case Sent(aborted, vector) =>
      if c.eng.txrts && |vector| == 7 {
        StoreBelow(c.eng.mem, Address(c.cfg.etxnd) + 1, vector);
      }
    case _ =>
  }

  /** Whatever the chip does on its own, the frames wait in their order, new ones at the end, and the ring holds
      the last bytes of what was written. */
  lemma EvolveKeepsRing(c: Chip, e: Event, h: nat, r: nat, q: seq<Frame>)
    requires Ring(c, h, r, q)
    ensures Ring(Evolve(c, e), h, r, q + Added(c, e))
    ensures forall a :: 0 <= a < RX_START && !(c.eng.txrts && BehindPacket(c, a)) ==>
              Evolve(c, e).eng.mem[a] == c.eng.mem[a]
  {
    hide Address, RingOk;
    match e
    case Arrive(f) =>
      hide Evolve;
      ArrivalKeepsRing(c, f, h, r, q);
    case Sent(aborted, vector) =>
      hide Evolve;
      assert q + [] == q;
      CompletionKeepsRing(c, aborted, vector, h, r, q);
    case _ =>
      assert q + [] == q;
  }

  /** Bytes stored below the ring are stored there and nowhere else. */
  lemma StoreBelow(mem: Memory, a: nat, data: seq<Byte>)
    requires a + |data| <= RX_START
    ensures var mem' := Store(mem, a, data, 0, MEM_SIZE - 1);
            && mem'[a..a + |data|] == data
            && forall k :: 0 <= k < MEM_SIZE && !(a <= k < a + |data|) ==> mem'[k] == mem[k]
  {
    StoreLinear(mem, a, data, 0, MEM_SIZE - 1);
  }

  /** They leave the waiting frames alone. */
  lemma BelowRing(mem: Memory, a: nat, data: seq<Byte>, lo: int, h: nat, q: seq<Frame>)
    requires Holds(mem, lo, h, q) && a + |data| <= RX_START
    ensures Holds(Store(mem, a, data, 0, MEM_SIZE - 1), lo, h, q)
  {
    StoreBelow(mem, a, data);
    HoldsFrame(mem, Store(mem, a, data, 0, MEM_SIZE - 1), lo, h, q);
  }
}
