/** The two tasks as they run: shared queues, eight buffers written in place, and the driver.

    Each method is one step of one task, and its contract says that it does to the abstract state what
    the step of the same name in module Protocol does.  A run lets any schedule choose who moves. */
module Tasks {
  import opened Bytes
  import opened Ping
  import opened RxRing
  import opened ReadLog
  import opened Chip
  import Registers
  import Driver
  import opened Protocol
  import opened Guarantees

  /** Who goes next. */
  datatype Turn = PacketMoves | IpMoves | StackSends(data: Packet)

  /** The step that takes this turn. */
  predicate Chosen(t: Turn, l: Label) {
    match t
    case PacketMoves => MovesPacketTask(l)
    case IpMoves => l == IpTask
    case StackSends(data) => l == Output(data)
  }

  predicate PacketCanStep(s: State) { s.packet.Read? || PacketReady(s) }

  /** One step for every turn, and no turn of the packet task is passed over in which it can move. */
  ghost predicate Scheduled(s: State, turns: seq<Turn>, ls: seq<Label>) {
    && |ls| == |turns|
    && (forall i :: 0 <= i < |turns| ==> Chosen(turns[i], ls[i]))
    && forall i :: 0 <= i < |turns| && turns[i].PacketMoves? && PacketCanStep(Run(s, ls[..i])) ==>
         Enabled(Run(s, ls[..i]), ls[i])
  }

  lemma ScheduledMore(s: State, turns: seq<Turn>, ls: seq<Label>, t: Turn, l: Label)
    requires Scheduled(s, turns, ls) && Chosen(t, l)
    requires t.PacketMoves? && PacketCanStep(Run(s, ls)) ==> Enabled(Run(s, ls), l)
    ensures Scheduled(s, turns + [t], ls + [l])
  {
    hide Run, Enabled, PacketCanStep;
    forall i | 0 <= i <= |ls| ensures (ls + [l])[..i] == ls[..i] {
    }
    assert ls[..|ls|] == ls;
  }

  /** The step of the state machine that a call of `enc28_read_packet` is. */
  function LabelOf(e: ReadEntry): Label { if e.status == OK then Receive(e.packet) else NoFrame }

  function LabelsOf(es: seq<ReadEntry>): seq<Label> {
    seq(|es|, i requires 0 <= i < |es| => LabelOf(es[i]))
  }

  /** The reads among the steps. */
  function Reads(ls: seq<Label>): seq<Label> {
    if ls == [] then []
    else Reads(ls[..|ls| - 1]) + (if IsRead(ls[|ls| - 1]) then [ls[|ls| - 1]] else [])
  }

  predicate IsRead(l: Label) { l.Receive? || l.NoFrame? }

  lemma ReadsMore(ls: seq<Label>, l: Label, es: seq<ReadEntry>, more: seq<ReadEntry>)
    requires Reads(ls) == LabelsOf(es) && (if IsRead(l) then [l] else []) == LabelsOf(more)
    ensures Reads(ls + [l]) == LabelsOf(es + more)
  {
    hide LabelsOf, IsRead;
    assert (ls + [l])[..|ls|] == ls;
    LabelsAppend(es, more);
  }

  lemma LabelsAppend(a: seq<ReadEntry>, b: seq<ReadEntry>)
    ensures LabelsOf(a + b) == LabelsOf(a) + LabelsOf(b)
  {
    hide LabelOf;
  }

  /** `struct eth_packet_buff_t` */
  class PacketBuffer {
    const buf: array<Byte>
    var usedBytes: nat

    constructor ()
      ensures fresh(buf) && buf.Length == PACKET_SIZE
    {
      buf := new Byte[PACKET_SIZE];
    }
  }

  /** The static array `eth_packets`; `cells` are the objects it consists of. */
  method AllocateBuffers() returns (bs: seq<PacketBuffer>, ghost cells: set<object>)
    ensures |bs| == MAX_PACKETS && fresh(cells)
    ensures forall i :: 0 <= i < MAX_PACKETS ==> bs[i] in cells && bs[i].buf in cells && bs[i].buf.Length == PACKET_SIZE
    ensures forall i, j :: 0 <= i < j < MAX_PACKETS ==> bs[i] != bs[j] && bs[i].buf != bs[j].buf
  {
    bs, cells := [], {};
    for n := 0 to MAX_PACKETS
      invariant |bs| == n && fresh(cells)
      invariant forall i :: 0 <= i < n ==> bs[i] in cells && bs[i].buf in cells && bs[i].buf.Length == PACKET_SIZE
      invariant forall i, j :: 0 <= i < j < n ==> bs[i] != bs[j] && bs[i].buf != bs[j].buf
    {
      var b := new PacketBuffer();
      bs, cells := bs + [b], cells + {b, b.buf};
    }
  }

  class App {
    const lwip: bool                      // USE_LWIP
    const driver: Driver.Enc28
    const buffers: seq<PacketBuffer>      // eth_packets; pointers into it are indices
    const pktBuf: array<Byte>             // pkt_buf
    ghost const cells: set<object>        // the objects the buffers consist of

    var free: seq<Id>                     // free_packet_buffer_queue
    var ready: seq<Id>                    // ready_packet_buffer_queue
    var transmit: seq<Id>                 // transmit_packet_queue
    var packet: PacketPc
    var ip: IpPc

    ghost var log: Log
    ghost var begin: Moment               // when the tasks started
    ghost var beginSent: nat              // and how many packets had been sent by then
    ghost var station: seq<Byte>          // the address the chip was initialised with

    // -------------------------------------------------------------- the abstract state

    /** The memory is laid out as eight separate buffers of 1600 bytes and one of the packet task. */
    ghost predicate Separate() {
      && |buffers| == MAX_PACKETS && pktBuf.Length == PACKET_SIZE
      && this !in cells && driver !in cells && pktBuf !in cells
      && (forall i :: 0 <= i < MAX_PACKETS ==> buffers[i] in cells && buffers[i].buf in cells)
      && (forall i :: 0 <= i < MAX_PACKETS ==> buffers[i].buf.Length == PACKET_SIZE)
      && (forall i, j :: 0 <= i < j < MAX_PACKETS ==> buffers[i] != buffers[j] && buffers[i].buf != buffers[j].buf)
    }

    ghost function Cell(i: Id): Buff
      requires Separate()
      reads buffers[i], buffers[i].buf
    {
      Buff(buffers[i].buf[..], buffers[i].usedBytes)
    }

    ghost function PoolOf(): Pool
      requires Separate()
      reads cells
    {
      seq(MAX_PACKETS, i requires 0 <= i < MAX_PACKETS reads cells => Cell(i))
    }

    ghost function Abs(): State
      requires Separate()
      reads this, pktBuf, cells
    {
      State(lwip, free, ready, transmit, PoolOf(), pktBuf[..], packet, ip, log)
    }

    /** What the tasks received and sent is what the driver returned and handed to the transmitter; `Explained`
        says which frames these packets are. */
    ghost predicate Linked()
      reads driver, this`log, this`begin, this`beginSent, this`station
    {
      LinkedTo(log)
    }

    ghost predicate LinkedTo(log: Log)
      reads driver, this`begin, this`beginSent, this`station
    {
      && driver.Coherent() && driver.Tracks(driver.chip) && driver.chip.cfg.autoinc && driver.fenced
      && MacOf(driver.chip.cfg.regs) == station
      && beginSent <= |driver.sent| && driver.sent[beginSent..] == log.sent
      && driver.Explained(begin, PACKET_SIZE) && Packets(driver.history[begin.call..]) == log.received
    }

    ghost predicate Valid()
      reads this, driver, pktBuf, cells
    {
      Separate() && Linked() && Inv(Abs())
    }

    /** Writing to one buffer changes one cell of the pool. */
    twostate lemma OnlyCell(b: Id)
      requires Separate()
      requires forall i :: 0 <= i < MAX_PACKETS && i != b ==> Cell(i) == old(Cell(i))
      ensures PoolOf() == old(PoolOf())[b := Cell(b)] && old(PoolOf())[b] == old(Cell(b))
    {
    }

    twostate lemma StillLinked()
      requires old(Linked()) && unchanged(driver)
      requires begin == old(begin) && beginSent == old(beginSent) && station == old(station)
      requires log.sent == old(log.sent) && log.received == old(log.received)
      ensures Linked()
    {
    }

    lemma CellOf(b: Id)
      requires Separate()
      ensures PoolOf()[b] == Cell(b)
    {
    }

    lemma CellData(b: Id)
      requires Separate() && buffers[b].usedBytes <= PACKET_SIZE
      ensures Data(PoolOf(), b) == buffers[b].buf[..buffers[b].usedBytes]
    {
    }

    constructor (lwip: bool, driver: Driver.Enc28)
      requires driver.Synced() && driver.Tracks(driver.chip) && Tight(driver.h, driver.r)
      ensures this.lwip == lwip && this.driver == driver
      ensures Valid() && Abs() == Start(lwip, PoolOf(), pktBuf[..])
      ensures begin == driver.Present() && begin.tight && beginSent == |driver.sent|
      ensures station == MacOf(driver.chip.cfg.regs)
      ensures fresh(this) && fresh(pktBuf) && fresh(cells)
    {
      hide Inv, PoolOf, Driver.RingTracks, Fenced, MacOf, Explains, Tight;
      this.lwip, this.driver := lwip, driver;
      var ethPackets;
      ghost var objects;
      ethPackets, objects := AllocateBuffers();
      buffers, cells := ethPackets, objects;
      pktBuf := new Byte[PACKET_SIZE];
      free, ready, transmit := [], [], [];
      packet, ip := Fill(0), Wait;
      log, begin, beginSent := Log([], [], [], [], [], []), driver.Present(), |driver.sent|;
      station := MacOf(driver.chip.cfg.regs);
      new;
      assert driver.history[begin.call..] == [];
      StartExplained(begin, driver.accepted, PACKET_SIZE, true);
      StartInv(lwip, PoolOf(), pktBuf[..]);
    }

    // -------------------------------------------------------------- the packet task

    /** `xQueueSend(free_packet_buffer_queue, &item, 0)` and the assertion on its result. */
    method PutInPool()
      requires Valid() && packet.Fill?
      modifies this`free, this`packet
      ensures Valid() && Abs() == Protocol.PutInPool(old(Abs()))
    {
      hide Inv, Linked, PoolOf;
      StepKeeps(Abs(), PacketTask);
      var i := packet.i;
      var ok;
      free, ok := QueueSend(free, i);
      packet := if ok then Wipe(i) else Halted([]);
    }

    /** `memset(&eth_packets[i], 0xFF, …)`, and round the loop. */
    method WipeBuffer()
      requires Valid() && packet.Wipe?
      modifies this`packet, cells
      ensures Valid() && Abs() == Protocol.WipeBuffer(old(Abs()))
      ensures var b := buffers[old(packet.i)];
              b.usedBytes == 0xFFFF && forall k :: 0 <= k < PACKET_SIZE ==> b.buf[k] == 0xFF
    {
      hide Inv, Linked, PoolOf;
      StepKeeps(Abs(), PacketTask);
      var i := packet.i;
      var b := buffers[i];
      forall k | 0 <= k < PACKET_SIZE {
        b.buf[k] := 0xFF;
      }
      b.usedBytes := 0xFFFF;
      packet := if i + 1 < MAX_PACKETS then Fill(i + 1) else PacketPc.Read;
      assert b.buf[..] == Wiped().buf;
      OnlyCell(i);
      StillLinked();
      assert Abs() == Protocol.WipeBuffer(old(Abs()));
    }

    /** The call of `enc28_read_packet`; the label says what came of it. */
    method ReadFrame() returns (ghost l: Label)
      requires Valid() && packet.Read?
      modifies this`packet, this`log, pktBuf, driver
      ensures Valid() && Enabled(old(Abs()), l) && Abs() == Next(old(Abs()), l)
      // exactly one call was made, and this is what came of it
      ensures |driver.history| == |old(driver.history)| + 1 && old(driver.history) <= driver.history
      ensures l == LabelOf(driver.history[|old(driver.history)|])
    {
      hide Inv, PoolOf, LinkedTo;
      ghost var s := Abs();
      var packetLen, ok := CallDriver();
      if ok {
        l := Receive(pktBuf[..packetLen]);
        packet, log := WaitFree(packetLen), log.Received(pktBuf[..packetLen]);
        assert pktBuf[..] == pktBuf[..packetLen] + old(pktBuf[..])[packetLen..];
      } else {
        l := NoFrame;
        packet := PacketPc.Drain;
      }
      StepKeeps(s, l);
    }

    method CallDriver() returns (packetLen: nat, ok: bool)
      requires Separate() && Linked()
      modifies pktBuf, driver
      ensures packetLen <= PACKET_SIZE && pktBuf[packetLen..] == old(pktBuf[packetLen..])
      ensures LinkedTo(if ok then log.Received(pktBuf[..packetLen]) else log)
      ensures !ok ==> pktBuf[..] == old(pktBuf[..])
      ensures |driver.history| == |old(driver.history)| + 1 && old(driver.history) <= driver.history
      ensures var e := driver.history[|old(driver.history)|];
              (ok <==> e.status == OK) && (ok ==> e.packet == pktBuf[..packetLen])
    {
      hide Driver.RingTracks, Fenced, Explains, Entered, Tight, Intact, HeadFits, Driver.Received, Packets, MacOf;
      ghost var regs := driver.chip.cfg.regs;
      ghost var synced, tightNow := driver.Synced(), Tight(driver.h, driver.r);
      var status, vec;
      ghost var left;
      status, vec, left := driver.ReadPacket(pktBuf, PACKET_SIZE);
      packetLen, ok := if status == OK then Driver.PacketLen(vec) else 0, status == OK;
      ghost var e := ReadEntry(status, left, Driver.Returned(status, pktBuf[..], vec));
      driver.Recorded(e, synced, tightNow, old(driver.history), old(driver.accepted), |old(driver.delivered)|,
                      begin, PACKET_SIZE);
      Driver.MacBesideEir(regs, driver.chip.cfg.regs[Registers.EIR]);
    }

    /** `xQueueReceive(free_packet_buffer_queue, &free_buf, portMAX_DELAY)` */
    method TakeBuffer()
      requires Valid() && packet.WaitFree? && free != []
      modifies this`free, this`packet
      ensures Valid() && Abs() == Protocol.TakeBuffer(old(Abs()))
    {
      hide Inv, Linked, PoolOf;
      StepKeeps(Abs(), PacketTask);
      free, packet := free[1..], Copy(packet.len, free[0]);
    }

    /** `used_bytes` and the copy out of the task's own buffer. */
    method CopyIn()
      requires Valid() && packet.Copy?
      modifies this`packet, cells
      ensures Valid() && Abs() == Protocol.CopyIn(old(Abs()))
    {
      hide Inv, Linked, PoolOf;
      StepKeeps(Abs(), PacketTask);
      CopyFits(Abs());
      var b, len := packet.b, packet.len;
      buffers[b].usedBytes := len;
      Memcpy(buffers[b].buf, 0, pktBuf, 0, len);
      packet := SendReady(b);
      OnlyCell(b);
      assert buffers[b].buf[..] == old(pktBuf[..len]) + old(buffers[b].buf[len..]);
    }

    /** `xQueueSend(ready_packet_buffer_queue, &free_buf, portMAX_DELAY)` */
    method PutReady()
      requires Valid() && packet.SendReady? && |ready| < MAX_PACKETS
      modifies this`ready, this`packet
      ensures Valid() && Abs() == Protocol.PutReady(old(Abs()))
    {
      hide Inv, Linked, PoolOf;
      StepKeeps(Abs(), PacketTask);
      ready, packet := ready + [packet.b], PacketPc.Read;
    }

    /** `xQueueReceive(transmit_packet_queue, &to_send, 0)` */
    method TakeTransmit()
      requires Valid() && packet.Drain?
      modifies this`transmit, this`packet
      ensures Valid() && Abs() == Protocol.TakeTransmit(old(Abs()))
    {
      hide Inv, Linked, PoolOf;
      StepKeeps(Abs(), PacketTask);
      if transmit == [] {
        packet := Notify;
      } else {
        transmit, packet := transmit[1..], PacketPc.Write(transmit[0]);
      }
    }

    /** The call of `enc28_write_packet` and the assertion on its status. */
    method WritePacket() returns (ghost l: Label)
      requires Valid() && packet.Write?
      modifies this`packet, this`log, driver
      ensures Valid() && Enabled(old(Abs()), l) && Abs() == Next(old(Abs()), l)
      // the chip has been told to send exactly what the buffer holds
      ensures packet.Release? ==>
                var data := Data(PoolOf(), packet.b);
                && driver.chip.eng.txrts && driver.sent == old(driver.sent) + [data]
                && driver.chip.eng.mem[Driver.TX_START..Driver.TX_START + 1 + |data|] == [0] + data
      // an idle transmitter takes every packet that is long enough
      ensures l == TxBusy ==> old(driver.chip).eng.txrts
      ensures l == TxBusy || l == PacketTask
      ensures !old(driver.chip).eng.txrts && old(buffers[packet.b].usedBytes) >= MIN_WRITE ==> packet.Release?
      ensures driver.history == old(driver.history)
    {
      hide Inv, PoolOf, LinkedTo, Data;
      ghost var s := Abs();
      var b := packet.b;
      WriteFits(s);
      CellOf(b);
      CellData(b);
      var status := HandToDriver(b);
      l := if status == PACKET_TX_IN_PROGRESS then TxBusy else PacketTask;
      if status == OK {
        packet, log := Release(b), log.Sent(buffers[b].buf[..buffers[b].usedBytes]);
      } else {
        packet := Halted([b]);
      }
      StepKeeps(s, l);
    }

    method HandToDriver(b: Id) returns (status: CommandStatus)
      requires Separate() && Linked() && buffers[b].usedBytes <= PACKET_SIZE
      modifies driver
      ensures status in {OK, INVALID_PARAM, PACKET_TX_IN_PROGRESS}
      ensures status == INVALID_PARAM <==> buffers[b].usedBytes < MIN_WRITE
      ensures status == PACKET_TX_IN_PROGRESS ==> old(driver.chip).eng.txrts
      ensures driver.history == old(driver.history)
      ensures var data := buffers[b].buf[..buffers[b].usedBytes];
              && LinkedTo(if status == OK then log.Sent(data) else log)
              && (status == OK ==>
                    && driver.chip.eng.txrts && driver.sent == old(driver.sent) + [data]
                    && driver.chip.eng.mem[Driver.TX_START..Driver.TX_START + 1 + |data|] == [0] + data)
    {
      hide Driver.RingTracks, Fenced, Driver.Enc28.Synced, Explains, Tight, MacOf, Packets;
      ghost var regs := driver.chip.cfg.regs;
      status := driver.WritePacket(buffers[b].buf, buffers[b].usedBytes);
      ExplainsLater(driver.history[begin.call..], begin, old(driver.accepted), driver.accepted, |driver.delivered|,
                    PACKET_SIZE, driver.Synced(), Tight(driver.h, driver.r));
      Driver.MacBesideEir(regs, driver.chip.cfg.regs[Registers.EIR]);
    }

    /** `xQueueSend(free_packet_buffer_queue, &to_send, 0)` */
    method PutBack()
      requires Valid() && packet.Release?
      modifies this`free, this`packet
      ensures Valid() && Abs() == Protocol.PutBack(old(Abs()))
    {
      hide Inv, Linked, PoolOf;
      StepKeeps(Abs(), PacketTask);
      var ok;
      free, ok := QueueSend(free, packet.b);
      packet := Notify;
    }

    /** `ulTaskNotifyTake` returns, notified or not. */
    method WakeUp()
      requires Valid() && packet.Notify?
      modifies this`packet
      ensures Valid() && Abs() == Protocol.WakeUp(old(Abs()))
    {
      hide Inv, Linked, PoolOf;
      StepKeeps(Abs(), PacketTask);
      packet := PacketPc.Read;
    }

    // -------------------------------------------------------------- the IP task

    /** `xQueueReceive(ready_packet_buffer_queue, &ready_packet, portMAX_DELAY)` */
    method TakeReady()
      requires Valid() && ip.Wait? && ready != []
      modifies this`ready, this`ip, this`log
      ensures Valid() && Abs() == Protocol.TakeReady(old(Abs()))
    {
      hide Inv, Linked, PoolOf;
      StepKeeps(Abs(), IpTask);
      ghost var data := Data(PoolOf(), ready[0]);
      var p := ready[0];
      ready, ip, log := ready[1..], if lwip then Stack([p]) else IpPc.Check(p), log.Processed(data);
      StillLinked();
    }

    method CheckPing()
      requires Valid() && ip.Check?
      modifies this`ip, this`log
      ensures Valid() && Abs() == Protocol.CheckPing(old(Abs()))
    {
      hide Inv, Linked, PoolOf;
      StepKeeps(Abs(), IpTask);
      RequestFits(Abs());
      var p := ip.p;
      CellOf(p);
      var isPing := IsPingRequest(buffers[p].buf, buffers[p].usedBytes);
      if isPing {
        ip := TakeFree(p);
      } else {
        ip, log := IpPc.Free(p), log.Settled(Ignored);
      }
      StillLinked();
    }

    /** `xQueueReceive(free_packet_buffer_queue, &ping_resp, 0)` */
    method TakeReplyBuffer()
      requires Valid() && ip.TakeFree?
      modifies this`free, this`ip, this`log
      ensures Valid() && Abs() == Protocol.TakeReplyBuffer(old(Abs()))
    {
      hide Inv, Linked, PoolOf;
      StepKeeps(Abs(), IpTask);
      if free == [] {
        ip, log := IpPc.Free(ip.p), log.Settled(Dropped);
      } else {
        free, ip := free[1..], Answer(ip.p, free[0]);
      }
      StillLinked();
    }

    /** `used_bytes` and `enc28_debug_handle_ping`, whose copies are between different buffers. */
    method AnswerPing()
      requires Valid() && ip.Answer?
      modifies this`ip, cells
      ensures Valid() && Abs() == Protocol.AnswerPing(old(Abs()))
    {
      hide Inv, Linked, PoolOf;
      StepKeeps(Abs(), IpTask);
      RequestFits(Abs());
      AnswerReady(Abs());
      var p, q := ip.p, ip.q;
      CellOf(p);
      ghost var n := buffers[p].usedBytes;
      buffers[q].usedBytes := buffers[p].usedBytes;
      var status := HandlePing(buffers[p].buf, buffers[p].usedBytes, buffers[q].buf, buffers[q].usedBytes);
      ip := if status == 0 then SendReply(p, q) else GiveBack(p, q);
      OnlyCell(q);
      assert status == 0 ==> buffers[q].buf[..] == buffers[q].buf[..n] + buffers[q].buf[n..];
    }

    /** `xQueueSend(transmit_packet_queue, &ping_resp, 0)` */
    method PutTransmit()
      requires Valid() && ip.SendReply?
      modifies this`transmit, this`ip, this`log
      ensures Valid() && Abs() == Protocol.PutTransmit(old(Abs()))
    {
      hide Inv, Linked, PoolOf;
      StepKeeps(Abs(), IpTask);
      ghost var data := Data(PoolOf(), ip.q);
      var ok;
      transmit, ok := QueueSend(transmit, ip.q);
      ip, log := IpPc.Free(ip.p), log.Queued(data).Settled(Answered);
      StillLinked();
    }

    /** The error branch: `xQueueSend(free_packet_buffer_queue, &ping_resp, 0)`. */
    method GiveReplyBack()
      requires Separate() && Linked() && ip.GiveBack?
      modifies this`free, this`ip, this`log
      ensures Linked() && Abs() == Protocol.GiveReplyBack(old(Abs()))
    {
      hide Linked, PoolOf;
      var ok;
      free, ok := QueueSend(free, ip.q);
      ip, log := IpPc.Free(ip.p), log.Settled(Dropped);
      StillLinked();
    }

    /** `xQueueSend(free_packet_buffer_queue, &ready_packet, 0)` */
    method FreeRequest()
      requires Valid() && ip.Free?
      modifies this`free, this`ip
      ensures Valid() && Abs() == Protocol.FreeRequest(old(Abs()))
    {
      hide Inv, Linked, PoolOf;
      StepKeeps(Abs(), IpTask);
      var ok;
      free, ok := QueueSend(free, ip.p);
      ip := Wait;
    }

    // -------------------------------------------------------------- the IP task with lwIP

    /** `enc28_pbuf_free`, or the return from lwIP once the packet is freed. */
    method FreeInput()
      requires Valid() && ip.Stack? && (ip.h != [] ==> |free| < MAX_PACKETS)
      modifies this`free, this`ip
      ensures Valid() && Abs() == Protocol.FreeInput(old(Abs()))
    {
      hide Inv, Linked, PoolOf;
      StepKeeps(Abs(), IpTask);
      if ip.h == [] {
        ip := Wait;
      } else {
        free, ip := free + [ip.h[0]], Stack(ip.h[1..]);
      }
    }

    /** `enc28_netif_output` asks for a buffer. */
    method TakeOutputBuffer(data: Packet)
      requires Valid() && ip.Stack? && |data| <= PACKET_SIZE
      modifies this`free, this`ip, this`log
      ensures Valid() && Abs() == Protocol.TakeOutputBuffer(old(Abs()), data)
    {
      hide Inv, Linked, PoolOf;
      StepKeeps(Abs(), Output(data));
      if free != [] {
        free, ip, log := free[1..], Emit(ip.h, free[0], data), log.Taken(data);
      }
      StillLinked();
    }

    /** `used_bytes` and the copy of the payload. */
    method CopyOut()
      requires Valid() && ip.Emit?
      modifies this`ip, cells
      ensures Valid() && Abs() == Protocol.CopyOut(old(Abs()))
      ensures var b := buffers[old(ip.q)];
              b.usedBytes == |old(ip.data)| <= PACKET_SIZE && b.buf[..b.usedBytes] == old(ip.data)
    {
      hide Inv, Linked, PoolOf;
      StepKeeps(Abs(), IpTask);
      OutputFits(Abs());
      var q, data := ip.q, ip.data;
      buffers[q].usedBytes := |data|;
      forall k | 0 <= k < |data| {
        buffers[q].buf[k] := data[k];
      }
      ip := Emitted(ip.h, q);
      OnlyCell(q);
      assert buffers[q].buf[..] == data + old(buffers[q].buf[..])[|data|..];
      StillLinked();
      assert Abs() == Protocol.CopyOut(old(Abs()));
    }

    /** `xQueueSend(transmit_packet_queue, &ip_resp, 0)` */
    method PutOutput()
      requires Valid() && ip.Emitted?
      modifies this`transmit, this`ip, this`log
      ensures Valid() && Abs() == Protocol.PutOutput(old(Abs()))
    {
      hide Inv, Linked, PoolOf;
      StepKeeps(Abs(), IpTask);
      ghost var data := Data(PoolOf(), ip.q);
      var ok;
      transmit, ok := QueueSend(transmit, ip.q);
      ip, log := Stack(ip.h), log.Queued(data);
      StillLinked();
    }

    // -------------------------------------------------------------- any schedule

    /** The packet task goes one step if it can. */
    method PacketTurn() returns (ghost l: Label)
      requires Valid()
      modifies this`free, this`ready, this`transmit, this`packet, this`log, cells, pktBuf, driver
      ensures Valid() && Abs() == Step(old(Abs()), l)
      ensures MovesPacketTask(l) && (PacketCanStep(old(Abs())) ==> Enabled(old(Abs()), l))
      ensures l == TxBusy ==> old(driver.chip).eng.txrts
      ensures old(driver.history) <= driver.history
      ensures (if IsRead(l) then [l] else []) == LabelsOf(driver.history[|old(driver.history)|..])
    {
      hide Inv, Linked, PoolOf;
      l := PacketTask;
      match packet
      case Fill(_) => PutInPool();
      case Wipe(_) => WipeBuffer();
      case Read => l := ReadFrame();
      case WaitFree(_) =>
        if free != [] { TakeBuffer(); }
      case Copy(_, _) =>
        CopyFits(Abs());
        CopyIn();
      case SendReady(_) =>
        if |ready| < MAX_PACKETS { PutReady(); }
      case Drain => TakeTransmit();
      case Write(_) => l := WritePacket();
      case Release(_) => PutBack();
      case Notify => WakeUp();
      case Halted(_) =>
    }

    /** The IP task goes one step if it can; inside lwIP it frees the packet or returns. */
    method IpTurn()
      requires Valid()
      modifies this`free, this`ready, this`transmit, this`ip, this`log, cells
      ensures Valid() && Abs() == Step(old(Abs()), IpTask)
    {
      hide Inv, Linked, PoolOf;
      match ip
      case Wait =>
        if ready != [] { TakeReady(); }
      case Check(_) => CheckPing();
      case TakeFree(_) => TakeReplyBuffer();
      case Answer(_, _) => AnswerPing();
      case SendReply(_, _) => PutTransmit();
      case GiveBack(_, _) => StepKeeps(Abs(), IpTask); GiveReplyBack();
      case Free(_) => FreeRequest();
      case Stack(h) =>
        if h == [] || |free| < MAX_PACKETS { FreeInput(); }
      case Emit(_, _, _) => OutputFits(Abs()); CopyOut();
      case Emitted(_, _) => PutOutput();
    }

    /** Inside lwIP, which may send. */
    method StackTurn(data: Packet)
      requires Valid()
      modifies this`free, this`ip, this`log
      ensures Valid() && Abs() == Step(old(Abs()), Output(data))
    {
      hide Inv, Linked, PoolOf;
      if ip.Stack? && |data| <= PACKET_SIZE { TakeOutputBuffer(data); }
    }

    /** What was received, when driver and chip are in step, and when the packets are the frames taken in. */
    lemma ReceivedExactly()
      requires Linked() && begin.tight
      ensures begin.call <= |driver.history|
      ensures var calls, frames := driver.history[begin.call..], driver.accepted;
              var taken := Payloads(Slice(frames, begin.frame, |driver.delivered|));
              && log.received == Packets(calls) && Entries(calls, begin, frames, PACKET_SIZE)
              && (driver.Synced() <==> AllInStep(calls))
              && (driver.Synced() ==> begin.frame <= |driver.delivered| <= |frames|)
              && (driver.Synced() && AllIntact(calls, frames) ==> log.received == taken)
              && (NoErrors(calls) ==> driver.Synced() && log.received == taken)
              && (AllDeliverable(frames, begin.frame, PACKET_SIZE) && NoRace(calls) ==>
                    driver.Synced() && log.received == taken)
              && (AllDeliverable(frames, begin.frame, PACKET_SIZE) && HeadsFit(calls, frames) ==> driver.Synced())
    {
      hide AllInStep, AllIntact, NoErrors, NoRace, HeadsFit, AllDeliverable, Entries, Packets, Payloads, Slice,
           Driver.RingTracks, Fenced, Tight, MacOf;
      FirstInFirstOut(driver.history[begin.call..], begin, driver.accepted, |driver.delivered|, PACKET_SIZE,
                      driver.Synced(), Tight(driver.h, driver.r));
    }

    /** Any schedule of the two tasks is a run of the state machine. */
    method Execute(turns: seq<Turn>) returns (ghost ls: seq<Label>)
      requires Valid()
      modifies this`free, this`ready, this`transmit, this`packet, this`ip, this`log, cells, pktBuf, driver
      ensures Valid() && Abs() == Run(old(Abs()), ls) && Scheduled(old(Abs()), turns, ls)
      ensures old(driver.history) <= driver.history
      ensures Reads(ls) == LabelsOf(driver.history[|old(driver.history)|..])
    {
      hide Inv, Linked, PoolOf, Step, Enabled, Scheduled, PacketCanStep, Reads, LabelsOf, IsRead, Run;
      ls := [];
      ghost var s0 := Abs();
      NothingYet(s0);
      assert turns[..0] == [] && driver.history[|driver.history|..] == [];
      for i := 0 to |turns|
        invariant Valid() && Abs() == Run(s0, ls) && Scheduled(s0, turns[..i], ls)
        invariant old(driver.history) <= driver.history
        invariant Reads(ls) == LabelsOf(driver.history[|old(driver.history)|..])
      {
        ghost var l := IpTask;
        ghost var before := driver.history;
        match turns[i] {
          case PacketMoves => l := PacketTurn();
          case IpMoves => IpTurn();
          case StackSends(data) =>
            l := Output(data);
            StackTurn(data);
        }
        RunAppend(s0, ls, [l]);
        RunSingle(Run(s0, ls), l);
        ScheduledMore(s0, turns[..i], ls, turns[i], l);
        assert turns[..i + 1] == turns[..i] + [turns[i]];
        ghost var n := |old(driver.history)|;
        assert driver.history[n..] == before[n..] + driver.history[|before|..];
        NoReads();
        ReadsMore(ls, l, before[n..], driver.history[|before|..]);
        ls := ls + [l];
      }
      assert turns[..|turns|] == turns;
    }
  }

  lemma NothingYet(s: State)
    ensures Scheduled(s, [], []) && Reads([]) == [] == LabelsOf([]) && Run(s, []) == s
  {
  }

  lemma NoReads()
    ensures !IsRead(IpTask) && (forall data :: !IsRead(Output(data))) && LabelsOf([]) == []
  {
  }

  /** `xQueueSend` with timeout 0 */
  method QueueSend(q: seq<Id>, b: Id) returns (q': seq<Id>, ok: bool)
    ensures q' == Push(q, b) && (ok <==> |q| < MAX_PACKETS)
  {
    if |q| < MAX_PACKETS { return q + [b], true; }
    return q, false;
  }

  /** `enc28_test_app` in either build, under any schedule and whatever the chip was doing before.

      What the tasks received is what the driver returned; it is what they processed, what waits and what is
      on its way, and what they queued is what was handed to the transmitter, what is on its way and what
      waits; with lwIP these are also the outputs it asked for and got a buffer for. Every turn is one step,
      and the reads among the steps are the calls of the driver. While driver and chip are in step and every
      packet was intact, the packets received are exactly the frames the chip took in, from the first one
      on. They are in step if and only if every recorded call was, and in particular if every call returned
      OK or NO_DATA, or if all frames are good and fit a buffer and no receive error was handled while one
      waited, or none was read while more waited than the ring can hold. Without lwIP, the packets queued
      are the replies to the answered ones of the echo requests processed, in their order. */
  method RunApplication(lwip: bool, c: Chip, mac: seq<Byte>, turns: seq<Turn>)
    returns (app: App, ghost s0: State, ghost ls: seq<Label>)
    requires |mac| == 6
    ensures s0 == Start(lwip, s0.pool, s0.pktBuf) && app.Valid() && app.Abs() == Run(s0, ls)
    ensures Scheduled(s0, turns, ls) && app.begin.call <= |app.driver.history|
    ensures Reads(ls) == LabelsOf(app.driver.history[app.begin.call..]) && app.log.received == FramesRead(s0, ls)
    ensures lwip ==> app.log.queued + InOutput(app.Abs()) == OutputsTaken(s0, ls)
    ensures app.Valid() && app.lwip == lwip && Reachable(app.Abs()) && app.driver.fenced
    ensures MacOf(app.driver.chip.cfg.regs) == mac
    ensures var log := app.log;
            && log.received == log.processed + Contents(app.PoolOf(), app.ready) + Arriving(app.Abs())
            && log.queued ==
               app.driver.sent[app.beginSent..] + Leaving(app.Abs()) + Contents(app.PoolOf(), app.transmit)
    ensures var calls, frames, begin := app.driver.history[app.begin.call..], app.driver.accepted, app.begin;
            var taken := Payloads(Slice(frames, begin.frame, |app.driver.delivered|));
            && app.log.received == Packets(calls) && Entries(calls, begin, frames, PACKET_SIZE)
            && (app.driver.Synced() <==> AllInStep(calls))
            && (app.driver.Synced() ==> begin.frame <= |app.driver.delivered| <= |frames|)
            && (app.driver.Synced() && AllIntact(calls, frames) ==> app.log.received == taken)
            && (NoErrors(calls) ==> app.driver.Synced() && app.log.received == taken)
            && (AllDeliverable(frames, begin.frame, PACKET_SIZE) && NoRace(calls) ==>
                  app.driver.Synced() && app.log.received == taken)
            && (AllDeliverable(frames, begin.frame, PACKET_SIZE) && HeadsFit(calls, frames) ==> app.driver.Synced())
    ensures !lwip ==>
              && |app.log.fates| <= |app.log.processed|
              && app.log.queued == Replies(app.log.processed, app.log.fates)
              && (forall i :: 0 <= i < |app.log.fates| ==>
                    (app.log.fates[i] == Ignored <==> !IsEchoRequest(app.log.processed[i])))
  {
    hide Inv, AllInStep, AllIntact, NoErrors, NoRace, HeadsFit, AllDeliverable, Entries, Packets, Payloads, Slice,
         Explains, Tight, MacOf, Run, Fenced, Driver.RingTracks, IsPing, Contents, Arriving, Leaving, Replies,
         Scheduled, Reads, LabelsOf, FramesRead, OutputsTaken, InOutput, IsEchoRequest, Driver.Configured;
    var driver := new Driver.Enc28(c);
    var status, phid1, phid2, ethrev := driver.StartUp(mac);
    app := new App(lwip, driver);
    s0 := app.Abs();
    ls := app.Execute(turns);
    LogsFollow(s0, ls);
    if lwip { OutputsAreQueued(app.Abs()); }
    FlowsInBothBuilds(app.Abs());
    if !lwip { RefinesValueQueues(app.Abs()); }
    app.ReceivedExactly();
  }
}
