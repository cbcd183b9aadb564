/** The two tasks and the three queues between them.

    Eight packet buffers circulate as pointers through the queues `free`, `ready` and `transmit`.
    The packet task fills ready buffers from the network and sends transmit buffers; the IP task
    answers echo requests.  One step is one queue operation, one copy or one driver call, and steps
    of the two tasks interleave in any order, which includes every order the scheduler can choose. */
module Protocol {
  import opened Bytes
  import opened Ping

  const MAX_PACKETS := 8
  const PACKET_SIZE := 1600
  const MIN_WRITE := 14     // shorter packets are refused by the driver

  type Id = x: int | 0 <= x < MAX_PACKETS
  type Storage = s: seq<Byte> | |s| == PACKET_SIZE witness seq(PACKET_SIZE, _ => 0)
  type Packet = seq<Byte>

  /** `struct eth_packet_buff_t` */
  datatype Buff = Buff(buf: Storage, used: nat)

  type Pool = p: seq<Buff> | |p| == MAX_PACKETS witness seq(MAX_PACKETS, _ => Buff(seq(PACKET_SIZE, _ => 0), 0))

  /** Where the packet task stands, with the buffer it holds. */
  datatype PacketPc =
    | Fill(i: Id)                  // about to put buffer i into the free queue
    | Wipe(i: Id)                  // about to overwrite it, although it is in the queue already
    | Read                         // about to call enc28_read_packet
    | WaitFree(len: nat)
    | Copy(len: nat, b: Id)
    | SendReady(b: Id)
    | Drain
    | Write(b: Id)
    | Release(b: Id)
    | Notify
    | Halted(held: seq<Id>)        // stopped by configASSERT

  /** Where the IP task stands, with the buffers it holds.  The last three belong to the build in
      which the task hands packets to lwIP. */
  datatype IpPc =
    | Wait
    | Check(p: Id)
    | TakeFree(p: Id)
    | Answer(p: Id, q: Id)
    | SendReply(p: Id, q: Id)
    | GiveBack(p: Id, q: Id)
    | Free(p: Id)
    | Stack(h: seq<Id>)                        // inside lwIP, which owns the buffers h
    | Emit(h: seq<Id>, q: Id, data: Packet)    // in enc28_netif_output
    | Emitted(h: seq<Id>, q: Id)

  /** What became of a packet the IP task took. */
  datatype Fate = Ignored | Dropped | Answered

  datatype Log = Log(
    received: seq<Packet>,      // every packet enc28_read_packet delivered
    processed: seq<Packet>,     // every packet the IP task took from the ready queue
    fates: seq<Fate>,           // what became of them
    queued: seq<Packet>,        // every packet put into the transmit queue
    sent: seq<Packet>,          // every packet enc28_write_packet accepted
    outputs: seq<Packet>)       // every packet of lwIP for which there was a buffer
  {
    function Received(p: Packet): Log { this.(received := received + [p]) }
    function Processed(p: Packet): Log { this.(processed := processed + [p]) }
    function Settled(f: Fate): Log { this.(fates := fates + [f]) }
    function Queued(p: Packet): Log { this.(queued := queued + [p]) }
    function Sent(p: Packet): Log { this.(sent := sent + [p]) }
    function Taken(p: Packet): Log { this.(outputs := outputs + [p]) }
  }

  datatype State = State(
    lwip: bool,                 // which branch of USE_LWIP the IP task was built with
    free: seq<Id>,
    ready: seq<Id>,
    transmit: seq<Id>,
    pool: Pool,
    pktBuf: Storage,
    packet: PacketPc,
    ip: IpPc,
    log: Log)

  /** Who moves, and what the outside decides. */
  datatype Label =
    | Receive(frame: Packet)    // enc28_read_packet returns OK
    | NoFrame                   // enc28_read_packet returns anything else
    | TxBusy                    // enc28_write_packet returns PACKET_TX_IN_PROGRESS
    | PacketTask                // any other step of the packet task
    | IpTask                    // any step of the IP task it decides itself
    | Output(data: Packet)      // lwIP calls linkoutput

  // ---------------------------------------------------------------- queues and buffers

  /** `xQueueSend` with timeout 0 and the result ignored: on a full queue the pointer is lost. */
  function Push(q: seq<Id>, b: Id): seq<Id> {
    if |q| < MAX_PACKETS then q + [b] else q
  }

  function Data(pool: Pool, b: Id): Packet {
    if pool[b].used <= PACKET_SIZE then pool[b].buf[..pool[b].used] else pool[b].buf
  }

  /** `used_bytes` is set and that many bytes are copied to the start of the buffer. */
  function Put(pool: Pool, b: Id, data: Packet): Pool
    requires |data| <= PACKET_SIZE
  {
    pool[b := Buff(data + pool[b].buf[|data|..], |data|)]
  }

  /** `memset(…, 0xFF, …)` on the whole structure */
  function Wiped(): Buff { Buff(seq(PACKET_SIZE, _ => 0xFF), 0xFFFF) }

  /** The packets in a queue of pointers. */
  function Contents(pool: Pool, q: seq<Id>): (c: seq<Packet>)
    ensures |c| == |q|
  {
    seq(|q|, i requires 0 <= i < |q| => Data(pool, q[i]))
  }

  // ---------------------------------------------------------------- steps of packet_handling_task

  function PutInPool(s: State): State
    requires s.packet.Fill?
  {
    var i := s.packet.i;
    s.(free := Push(s.free, i), packet := if |s.free| < MAX_PACKETS then Wipe(i) else Halted([]))
  }

  function WipeBuffer(s: State): State
    requires s.packet.Wipe?
  {
    var i := s.packet.i;
    s.(pool := s.pool[i := Wiped()], packet := if i + 1 < MAX_PACKETS then Fill(i + 1) else Read)
  }

  function ReadFrame(s: State, frame: Packet): State
    requires s.packet.Read? && |frame| <= PACKET_SIZE
  {
    s.(pktBuf := frame + s.pktBuf[|frame|..], packet := WaitFree(|frame|), log := s.log.Received(frame))
  }

  function ReadNothing(s: State): State
    requires s.packet.Read?
  {
    s.(packet := Drain)
  }

  function TakeBuffer(s: State): State
    requires s.packet.WaitFree? && s.free != []
  {
    s.(free := s.free[1..], packet := Copy(s.packet.len, s.free[0]))
  }

  function CopyIn(s: State): State
    requires s.packet.Copy? && s.packet.len <= PACKET_SIZE
  {
    s.(pool := Put(s.pool, s.packet.b, s.pktBuf[..s.packet.len]), packet := SendReady(s.packet.b))
  }

  function PutReady(s: State): State
    requires s.packet.SendReady?
  {
    s.(ready := Push(s.ready, s.packet.b), packet := Read)
  }

  function TakeTransmit(s: State): State
    requires s.packet.Drain?
  {
    if s.transmit == [] then s.(packet := Notify)
    else s.(transmit := s.transmit[1..], packet := Write(s.transmit[0]))
  }

  /** `enc28_write_packet` with the transmitter idle. */
  function WriteOut(s: State): State
    requires s.packet.Write?
  {
    var b := s.packet.b;
    if s.pool[b].used < MIN_WRITE then s.(packet := Halted([b]))
    else s.(packet := Release(b), log := s.log.Sent(Data(s.pool, b)))
  }

  function WriteRefused(s: State): State
    requires s.packet.Write?
  {
    s.(packet := Halted([s.packet.b]))
  }

  function PutBack(s: State): State
    requires s.packet.Release?
  {
    s.(free := Push(s.free, s.packet.b), packet := Notify)
  }

  function WakeUp(s: State): State
    requires s.packet.Notify?
  {
    s.(packet := Read)
  }

  // ---------------------------------------------------------------- steps of ip_stack_task

  function TakeReady(s: State): State
    requires s.ip.Wait? && s.ready != []
  {
    var p := s.ready[0];
    s.(ready := s.ready[1..], ip := if s.lwip then Stack([p]) else Check(p), log := s.log.Processed(Data(s.pool, p)))
  }

  function CheckPing(s: State): State
    requires s.ip.Check?
  {
    if IsPing(Data(s.pool, s.ip.p)) then s.(ip := TakeFree(s.ip.p))
    else s.(ip := Free(s.ip.p), log := s.log.Settled(Ignored))
  }

  function TakeReplyBuffer(s: State): State
    requires s.ip.TakeFree?
  {
    if s.free == [] then s.(ip := Free(s.ip.p), log := s.log.Settled(Dropped))
    else s.(free := s.free[1..], ip := Answer(s.ip.p, s.free[0]))
  }

  function AnswerPing(s: State): State
    requires s.ip.Answer?
  {
    var p, q := s.ip.p, s.ip.q;
    if IsPing(Data(s.pool, p)) then s.(pool := Put(s.pool, q, Reply(Data(s.pool, p))), ip := SendReply(p, q))
    else s.(pool := s.pool[q := Buff(s.pool[q].buf, s.pool[p].used)], ip := GiveBack(p, q))
  }

  function PutTransmit(s: State): State
    requires s.ip.SendReply?
  {
    s.(transmit := Push(s.transmit, s.ip.q), ip := Free(s.ip.p),
       log := s.log.Queued(Data(s.pool, s.ip.q)).Settled(Answered))
  }

  function GiveReplyBack(s: State): State
    requires s.ip.GiveBack?
  {
    s.(free := Push(s.free, s.ip.q), ip := Free(s.ip.p), log := s.log.Settled(Dropped))
  }

  function FreeRequest(s: State): State
    requires s.ip.Free?
  {
    s.(free := Push(s.free, s.ip.p), ip := Wait)
  }

  // ---------------------------------------------------------------- and with lwIP

  /** lwIP frees the packet (`enc28_pbuf_free`), or returns once it has. */
  function FreeInput(s: State): State
    requires s.ip.Stack?
  {
    if s.ip.h == [] then s.(ip := Wait)
    else s.(free := Push(s.free, s.ip.h[0]), ip := Stack(s.ip.h[1..]))
  }

  /** `enc28_netif_output`, which reports success even when it drops the packet. */
  function TakeOutputBuffer(s: State, data: Packet): State
    requires s.ip.Stack?
  {
    if s.free == [] then s
    else s.(free := s.free[1..], ip := Emit(s.ip.h, s.free[0], data), log := s.log.Taken(data))
  }

  function CopyOut(s: State): State
    requires s.ip.Emit? && |s.ip.data| <= PACKET_SIZE
  {
    s.(pool := Put(s.pool, s.ip.q, s.ip.data), ip := Emitted(s.ip.h, s.ip.q))
  }

  function PutOutput(s: State): State
    requires s.ip.Emitted?
  {
    s.(transmit := Push(s.transmit, s.ip.q), ip := Stack(s.ip.h), log := s.log.Queued(Data(s.pool, s.ip.q)))
  }

  // ---------------------------------------------------------------- interleaving

  /** Whether a step can be taken now; receiving with portMAX_DELAY needs an element, sending room. */
  predicate Enabled(s: State, l: Label) {
    match l
    case Receive(frame) => s.packet.Read? && |frame| <= PACKET_SIZE
    case NoFrame => s.packet.Read?
    case TxBusy => s.packet.Write?
    case PacketTask => PacketReady(s)
    case IpTask => IpReady(s)
    case Output(data) => s.ip.Stack? && |data| <= PACKET_SIZE
  }

  predicate PacketReady(s: State) {
    match s.packet
    case Read => false
    case WaitFree(_) => s.free != []
    case Copy(len, _) => len <= PACKET_SIZE
    case SendReady(_) => |s.ready| < MAX_PACKETS
    case Halted(_) => false
    case _ => true
  }

  predicate IpReady(s: State) {
    match s.ip
    case Wait => s.ready != []
    case Stack(h) => h == [] || |s.free| < MAX_PACKETS
    case Emit(_, _, data) => |data| <= PACKET_SIZE
    case _ => true
  }

  function Next(s: State, l: Label): State
    requires Enabled(s, l)
  {
    match l
    case Receive(frame) => ReadFrame(s, frame)
    case NoFrame => ReadNothing(s)
    case TxBusy => WriteRefused(s)
    case PacketTask => PacketNext(s)
    case IpTask => IpNext(s)
    case Output(data) => TakeOutputBuffer(s, data)
  }

  function PacketNext(s: State): State
    requires PacketReady(s)
  {
    match s.packet
    case Fill(_) => PutInPool(s)
    case Wipe(_) => WipeBuffer(s)
    case WaitFree(_) => TakeBuffer(s)
    case Copy(_, _) => CopyIn(s)
    case SendReady(_) => PutReady(s)
    case Drain => TakeTransmit(s)
    case Write(_) => WriteOut(s)
    case Release(_) => PutBack(s)
    case Notify => WakeUp(s)
  }

  function IpNext(s: State): State
    requires IpReady(s)
  {
    match s.ip
    case Wait => TakeReady(s)
    case Check(_) => CheckPing(s)
    case TakeFree(_) => TakeReplyBuffer(s)
    case Answer(_, _) => AnswerPing(s)
    case SendReply(_, _) => PutTransmit(s)
    case GiveBack(_, _) => GiveReplyBack(s)
    case Free(_) => FreeRequest(s)
    case Stack(_) => FreeInput(s)
    case Emit(_, _, _) => CopyOut(s)
    case Emitted(_, _) => PutOutput(s)
  }

  /** A scheduler may propose anything; what is not possible is passed over. */
  function Step(s: State, l: Label): State {
    if Enabled(s, l) then Next(s, l) else s
  }

  function Run(s: State, ls: seq<Label>): State
    decreases |ls|
  {
    if ls == [] then s else Run(Step(s, ls[0]), ls[1..])
  }

  function Start(lwip: bool, pool: Pool, pktBuf: Storage): State {
    State(lwip, [], [], [], pool, pktBuf, Fill(0), Wait, Log([], [], [], [], [], []))
  }

  // ---------------------------------------------------------------- conservation of buffers

  /** How often buffer `x` occurs in a queue. */
  function Occ(q: seq<Id>, x: Id): (n: nat)
    ensures n > 0 <==> x in q
  {
    if q == [] then 0 else (if q[0] == x then 1 else 0) + Occ(q[1..], x)
  }

  lemma {:induction false} OccAppend(q: seq<Id>, b: Id, x: Id)
    ensures Occ(q + [b], x) == Occ(q, x) + (if x == b then 1 else 0)
  {
    if q == [] {
      assert [b][1..] == [];
    } else {
      assert (q + [b])[1..] == q[1..] + [b];
      OccAppend(q[1..], b, x);
    }
  }

  lemma OccPop(q: seq<Id>, x: Id)
    requires q != []
    ensures Occ(q, x) == (if q[0] == x then 1 else 0) + Occ(q[1..], x)
  {
  }

  lemma OccFew(p: Id, q: Id, x: Id)
    ensures Occ([], x) == 0
    ensures Occ([p], x) == if x == p then 1 else 0
    ensures Occ([p, q], x) == (if x == p then 1 else 0) + (if x == q then 1 else 0)
  {
    assert [p, q][1..] == [q];
    assert [p][1..] == [];
  }

  /** How many buffers have been put into circulation. */
  function InUse(pc: PacketPc): (n: nat)
    ensures n <= MAX_PACKETS
  {
    match pc
    case Fill(i) => i
    case Wipe(i) => i + 1
    case _ => MAX_PACKETS
  }

  function PacketHolds(pc: PacketPc): seq<Id> {
    match pc
    case Copy(_, b) => [b]
    case SendReady(b) => [b]
    case Write(b) => [b]
    case Release(b) => [b]
    case Halted(held) => held
    case _ => []
  }

  function IpHolds(pc: IpPc): seq<Id> {
    match pc
    case Wait => []
    case Check(p) => [p]
    case TakeFree(p) => [p]
    case Answer(p, q) => [p, q]
    case SendReply(p, q) => [p, q]
    case GiveBack(p, q) => [p, q]
    case Free(p) => [p]
    case Stack(h) => h
    case Emit(h, q, _) => h + [q]
    case Emitted(h, q) => h + [q]
  }

  function Owned(s: State, x: Id): nat {
    Occ(s.free, x) + Occ(s.ready, x) + Occ(s.transmit, x) + Occ(PacketHolds(s.packet), x) + Occ(IpHolds(s.ip), x)
  }

  function Total(s: State): nat {
    |s.free| + |s.ready| + |s.transmit| + |PacketHolds(s.packet)| + |IpHolds(s.ip)|
  }

  /** Every buffer in circulation is in exactly one queue or with exactly one task, and there once. */
  ghost predicate Conserved(s: State) {
    Total(s) == InUse(s.packet) && forall x: Id :: Owned(s, x) == if x < InUse(s.packet) then 1 else 0
  }

  /** Nothing moves before the pool is filled, and lwIP owns at most the packet it was handed. */
  ghost predicate Shaped(s: State) {
    && (s.packet.Fill? || s.packet.Wipe? ==> s.ready == [] && s.transmit == [] && s.ip == Wait)
    && (s.packet.WaitFree? || s.packet.Copy? ==> s.packet.len <= PACKET_SIZE)
    && (s.lwip <==> s.ip.Stack? || s.ip.Emit? || s.ip.Emitted? || (s.lwip && s.ip.Wait?))
    && (s.ip.Stack? || s.ip.Emit? || s.ip.Emitted? ==> |s.ip.h| <= 1)
    && (s.ip.Emit? ==> |s.ip.data| <= PACKET_SIZE)
    && (!s.lwip ==> |s.transmit| < MAX_PACKETS)
  }

  // ---------------------------------------------------------------- contents of buffers

  predicate Fits(pool: Pool, b: Id) { pool[b].used <= PACKET_SIZE }

  /** An echo reply: like a ping request, with type 0. */
  predicate IsEchoReply(p: Packet) {
    |p| >= MIN_PING && Be16(p[12], p[13]) == 0x0800 && p[23] == 1 && p[ICMP] == 0
  }

  /** What may be transmitted: echo replies, or with lwIP whatever it sends. */
  predicate Outgoing(lwip: bool, pool: Pool, b: Id) {
    Fits(pool, b) && (!lwip ==> IsEchoReply(Data(pool, b)))
  }

  /** The packet between enc28_read_packet and the ready queue. */
  function Arriving(s: State): seq<Packet> {
    match s.packet
    case WaitFree(len) => if len <= PACKET_SIZE then [s.pktBuf[..len]] else []
    case Copy(len, _) => if len <= PACKET_SIZE then [s.pktBuf[..len]] else []
    case SendReady(b) => [Data(s.pool, b)]
    case _ => []
  }

  /** The packet between the transmit queue and the network. */
  function Leaving(s: State): seq<Packet> {
    match s.packet
    case Write(b) => [Data(s.pool, b)]
    case Halted(held) => Contents(s.pool, held)
    case _ => []
  }

  /** The pointer queues carry packets like value queues would: nothing is lost, duplicated, reordered
      or overwritten between the network and the IP task, nor on the way back. */
  ghost predicate Flowing(s: State) {
    && s.log.received == s.log.processed + Contents(s.pool, s.ready) + Arriving(s)
    && s.log.queued == s.log.sent + Leaving(s) + Contents(s.pool, s.transmit)
  }

  ghost predicate Sized(s: State) {
    && (forall b :: b in s.ready ==> Fits(s.pool, b))
    && (forall b :: b in s.transmit ==> Outgoing(s.lwip, s.pool, b))
    && (s.packet.SendReady? ==> Fits(s.pool, s.packet.b))
    && (s.packet.Write? ==> Outgoing(s.lwip, s.pool, s.packet.b))
    && (s.ip.Emitted? ==> Fits(s.pool, s.ip.q))
  }

  /** The replies to the answered ones among the packets `ps`, in order. */
  function Replies(ps: seq<Packet>, fates: seq<Fate>): seq<Packet>
    requires |fates| <= |ps|
    decreases |fates|
  {
    if fates == [] then []
    else
      var n := |fates| - 1;
      Replies(ps, fates[..n]) + (if fates[n].Answered? && |ps[n]| >= MIN_PING then [Reply(ps[n])] else [])
  }

  /** The IP task has not yet decided about the packet it holds. */
  predicate Undecided(pc: IpPc) { pc.Check? || pc.TakeFree? || pc.Answer? || pc.SendReply? }

  ghost predicate Deciding(s: State) {
    Undecided(s.ip) ==>
      && |s.log.processed| > 0 && Fits(s.pool, s.ip.p)
      && Data(s.pool, s.ip.p) == s.log.processed[|s.log.processed| - 1]
      && (!s.ip.Check? ==> IsPing(Data(s.pool, s.ip.p)))
      && (s.ip.SendReply? ==> Fits(s.pool, s.ip.q) && Data(s.pool, s.ip.q) == Reply(Data(s.pool, s.ip.p)))
  }

  /** What was queued for transmission are the replies to the packets settled as answered; exactly the
      packets that are no echo requests are ignored. */
  ghost predicate Answering(s: State) {
    && !s.ip.GiveBack?
    && (!s.lwip ==>
          && |s.log.fates| + (if Undecided(s.ip) then 1 else 0) == |s.log.processed|
          && s.log.queued == Replies(s.log.processed, s.log.fates)
          && forall i :: 0 <= i < |s.log.fates| ==> (s.log.fates[i] == Ignored <==> !IsPing(s.log.processed[i])))
  }

  /** The packet between lwIP and the transmit queue: before the copy as it was handed over, after it as it
      stands in the buffer. */
  function InOutput(s: State): seq<Packet> {
    match s.ip
    case Emit(_, _, data) => [data]
    case Emitted(_, q) => [Data(s.pool, q)]
    case _ => []
  }

  /** What was queued is what lwIP handed over. */
  ghost predicate Emitting(s: State) {
    if s.lwip then s.log.queued + InOutput(s) == s.log.outputs else s.log.outputs == []
  }

  ghost predicate Carrying(s: State) {
    Flowing(s) && Sized(s) && Deciding(s) && Answering(s) && Emitting(s)
  }

  ghost predicate Inv(s: State) { Conserved(s) && Shaped(s) && Carrying(s) }

  // ---------------------------------------------------------------- every step conserves the buffers

  lemma PutInPoolConserves(s: State)
    requires Conserved(s) && Shaped(s) && s.packet.Fill?
    ensures Conserved(PutInPool(s)) && Shaped(PutInPool(s))
  {
    hide Data, Put, Wiped, IsPing, Reply, Occ;
    forall x: Id ensures Owned(PutInPool(s), x) == Owned(s, x) + (if x == s.packet.i then 1 else 0) {
      OccFew(0, 0, x);
      OccAppend(s.free, s.packet.i, x);
    }
  }

  lemma TakeBufferConserves(s: State)
    requires Conserved(s) && Shaped(s) && s.packet.WaitFree? && s.free != []
    ensures Conserved(TakeBuffer(s)) && Shaped(TakeBuffer(s))
  {
    hide Data, Put, Wiped, IsPing, Reply, Occ;
    forall x: Id ensures Owned(TakeBuffer(s), x) == Owned(s, x) {
      OccPop(s.free, x);
      OccFew(s.free[0], 0, x);
    }
  }

  lemma PutReadyConserves(s: State)
    requires Conserved(s) && Shaped(s) && s.packet.SendReady?
    ensures Conserved(PutReady(s)) && Shaped(PutReady(s))
  {
    hide Data, Put, Wiped, IsPing, Reply, Occ;
    forall x: Id ensures Owned(PutReady(s), x) == Owned(s, x) {
      OccAppend(s.ready, s.packet.b, x);
      OccFew(s.packet.b, 0, x);
    }
  }

  lemma TakeTransmitConserves(s: State)
    requires Conserved(s) && Shaped(s) && s.packet.Drain? && s.transmit != []
    ensures Conserved(TakeTransmit(s)) && Shaped(TakeTransmit(s))
  {
    hide Data, Put, Wiped, IsPing, Reply, Occ;
    forall x: Id ensures Owned(TakeTransmit(s), x) == Owned(s, x) {
      OccPop(s.transmit, x);
      OccFew(s.transmit[0], 0, x);
    }
  }

  lemma PutBackConserves(s: State)
    requires Conserved(s) && Shaped(s) && s.packet.Release?
    ensures Conserved(PutBack(s)) && Shaped(PutBack(s))
  {
    hide Data, Put, Wiped, IsPing, Reply, Occ;
    forall x: Id ensures Owned(PutBack(s), x) == Owned(s, x) {
      OccAppend(s.free, s.packet.b, x);
      OccFew(s.packet.b, 0, x);
    }
  }

  lemma TakeReadyConserves(s: State)
    requires Conserved(s) && Shaped(s) && s.ip.Wait? && s.ready != []
    ensures Conserved(TakeReady(s)) && Shaped(TakeReady(s))
  {
    hide Data, Put, Wiped, IsPing, Reply, Occ;
    forall x: Id ensures Owned(TakeReady(s), x) == Owned(s, x) {
      OccPop(s.ready, x);
      OccFew(s.ready[0], 0, x);
    }
  }

  lemma TakeReplyBufferConserves(s: State)
    requires Conserved(s) && Shaped(s) && s.ip.TakeFree? && s.free != []
    ensures Conserved(TakeReplyBuffer(s)) && Shaped(TakeReplyBuffer(s))
  {
    hide Data, Put, Wiped, IsPing, Reply, Occ;
    forall x: Id ensures Owned(TakeReplyBuffer(s), x) == Owned(s, x) {
      OccPop(s.free, x);
      OccFew(s.ip.p, s.free[0], x);
    }
  }

  lemma PutTransmitConserves(s: State)
    requires Conserved(s) && Shaped(s) && s.ip.SendReply?
    ensures Conserved(PutTransmit(s)) && Shaped(PutTransmit(s))
  {
    hide Data, Put, Wiped, IsPing, Reply, Occ;
    forall x: Id ensures Owned(PutTransmit(s), x) == Owned(s, x) {
      OccAppend(s.transmit, s.ip.q, x);
      OccFew(s.ip.p, s.ip.q, x);
    }
  }

  lemma FreeRequestConserves(s: State)
    requires Conserved(s) && Shaped(s) && s.ip.Free?
    ensures Conserved(FreeRequest(s)) && Shaped(FreeRequest(s))
  {
    hide Data, Put, Wiped, IsPing, Reply, Occ;
    forall x: Id ensures Owned(FreeRequest(s), x) == Owned(s, x) {
      OccAppend(s.free, s.ip.p, x);
      OccFew(s.ip.p, 0, x);
    }
  }

  lemma FreeInputConserves(s: State)
    requires Conserved(s) && Shaped(s) && s.ip.Stack? && s.ip.h != []
    ensures Conserved(FreeInput(s)) && Shaped(FreeInput(s))
  {
    hide Data, Put, Wiped, IsPing, Reply, Occ;
    forall x: Id ensures Owned(FreeInput(s), x) == Owned(s, x) {
      OccAppend(s.free, s.ip.h[0], x);
      OccPop(s.ip.h, x);
    }
  }

  lemma PutOutputConserves(s: State)
    requires Conserved(s) && Shaped(s) && s.ip.Emitted?
    ensures Conserved(PutOutput(s)) && Shaped(PutOutput(s))
  {
    hide Data, Put, Wiped, IsPing, Reply, Occ;
    forall x: Id ensures Owned(PutOutput(s), x) == Owned(s, x) {
      OccAppend(s.transmit, s.ip.q, x);
      OccAppend(s.ip.h, s.ip.q, x);
    }
  }

  // The other steps leave every buffer where it is.

  lemma SameHolders(s: State, s': State)
    requires Conserved(s)
    requires s'.free == s.free && s'.ready == s.ready && s'.transmit == s.transmit
    requires PacketHolds(s'.packet) == PacketHolds(s.packet) && IpHolds(s'.ip) == IpHolds(s.ip)
    requires InUse(s'.packet) == InUse(s.packet)
    ensures Conserved(s')
  {
    assert forall x: Id :: Owned(s', x) == Owned(s, x);
  }

  lemma TakeOutputBufferConserves(s: State, data: Packet)
    requires Conserved(s) && Shaped(s) && s.ip.Stack? && s.free != [] && |data| <= PACKET_SIZE
    ensures Conserved(TakeOutputBuffer(s, data)) && Shaped(TakeOutputBuffer(s, data))
  {
    hide Occ;
    forall x: Id ensures Owned(TakeOutputBuffer(s, data), x) == Owned(s, x) {
      OccPop(s.free, x);
      OccAppend(s.ip.h, s.free[0], x);
    }
  }

  // ---------------------------------------------------------------- and what is in them

  /** What a task holds is in no queue and not with the other task, so writing to it disturbs nobody. */
  lemma Exclusive(s: State, b: Id)
    requires Conserved(s) && (b in PacketHolds(s.packet) || b in IpHolds(s.ip))
    ensures b !in s.free && b !in s.ready && b !in s.transmit
    ensures !(b in PacketHolds(s.packet) && b in IpHolds(s.ip))
  {
    assert Owned(s, b) <= 1;
  }

  /** Request and reply buffer differ: the copies between them never overlap. */
  lemma RequestIsNotReply(s: State)
    requires Conserved(s) && |IpHolds(s.ip)| == 2
    ensures IpHolds(s.ip)[0] != IpHolds(s.ip)[1]
  {
    var b := IpHolds(s.ip)[0];
    assert Owned(s, b) <= 1;
    OccPop(IpHolds(s.ip), b);
  }

  lemma ContentsPop(pool: Pool, q: seq<Id>)
    requires q != []
    ensures Contents(pool, q) == [Data(pool, q[0])] + Contents(pool, q[1..])
  {
    hide Data;
  }

  lemma ContentsPush(pool: Pool, q: seq<Id>, b: Id)
    ensures Contents(pool, q + [b]) == Contents(pool, q) + [Data(pool, b)]
  {
    hide Data;
  }

  lemma ContentsKept(pool: Pool, b: Id, v: Buff, q: seq<Id>)
    requires b !in q
    ensures Contents(pool[b := v], q) == Contents(pool, q)
  {
    forall i | 0 <= i < |q| ensures Data(pool[b := v], q[i]) == Data(pool, q[i]) {
      assert q[i] in q;
    }
  }

  /** Filling a buffer: it holds the data, and every queue it is not in keeps its contents. */
  lemma PutFills(pool: Pool, b: Id, data: Packet)
    requires |data| <= PACKET_SIZE
    ensures Data(Put(pool, b, data), b) == data && Fits(Put(pool, b, data), b)
    ensures forall i: Id :: i != b ==> Put(pool, b, data)[i] == pool[i]
  {
  }

  lemma PutElsewhere(pool: Pool, b: Id, data: Packet, q: seq<Id>)
    requires |data| <= PACKET_SIZE && b !in q
    ensures Contents(Put(pool, b, data), q) == Contents(pool, q)
  {
    ContentsKept(pool, b, Put(pool, b, data)[b], q);
  }

  lemma {:induction false} RepliesMore(ps: seq<Packet>, fates: seq<Fate>, p: Packet)
    requires |fates| <= |ps|
    ensures Replies(ps + [p], fates) == Replies(ps, fates)
    decreases |fates|
  {
    hide Reply;
    if fates != [] {
      RepliesMore(ps, fates[..|fates| - 1], p);
    }
  }

  lemma RepliesSettled(ps: seq<Packet>, fates: seq<Fate>, f: Fate)
    requires |fates| < |ps|
    ensures Replies(ps, fates + [f]) ==
            Replies(ps, fates) + (if f.Answered? && |ps[|fates|]| >= MIN_PING then [Reply(ps[|fates|])] else [])
  {
    assert (fates + [f])[..|fates|] == fates;
  }

  lemma CopyInCarries(s: State)
    requires Inv(s) && s.packet.Copy?
    ensures Carrying(CopyIn(s))
  {
    hide Reply, IsPing, Replies, IsEchoReply, Put, Owned;
    var b := s.packet.b;
    var data := s.pktBuf[..s.packet.len];
    Exclusive(s, b);
    PutFills(s.pool, b, data);
    PutElsewhere(s.pool, b, data, s.ready);
    PutElsewhere(s.pool, b, data, s.transmit);
  }

  lemma TakeReadyFlows(s: State)
    requires Flowing(s) && s.ip.Wait? && s.ready != []
    ensures Flowing(TakeReady(s))
  {
    hide Data;
    ContentsPop(s.pool, s.ready);
  }

  lemma TakeReadyDecides(s: State)
    requires Sized(s) && Answering(s) && s.ip.Wait? && s.ready != []
    ensures Sized(TakeReady(s)) && Deciding(TakeReady(s)) && Answering(TakeReady(s))
  {
    hide Reply, IsPing, Replies, IsEchoReply, Data;
    if !s.lwip { RepliesMore(s.log.processed, s.log.fates, Data(s.pool, s.ready[0])); }
  }

  lemma TakeReadyCarries(s: State)
    requires Inv(s) && s.ip.Wait? && s.ready != []
    ensures Carrying(TakeReady(s))
  {
    hide Flowing, Sized, Deciding, Answering, Conserved;
    TakeReadyFlows(s);
    TakeReadyDecides(s);
  }

  lemma PutReadyCarries(s: State)
    requires Inv(s) && s.packet.SendReady?
    ensures Carrying(PutReady(s))
  {
    hide Reply, IsPing, Replies, IsEchoReply, Data, Owned;
    ContentsPush(s.pool, s.ready, s.packet.b);
  }

  lemma TakeTransmitCarries(s: State)
    requires Inv(s) && s.packet.Drain?
    ensures Carrying(TakeTransmit(s))
  {
    hide Reply, IsPing, Replies, IsEchoReply, Data, Conserved;
    if s.transmit != [] { ContentsPop(s.pool, s.transmit); }
  }

  lemma WriteOutCarries(s: State)
    requires Inv(s) && s.packet.Write?
    ensures Carrying(WriteOut(s))
    ensures !s.lwip ==> WriteOut(s).packet.Release?
  {
    hide Reply, IsPing, Replies, Conserved;
    ContentsPop(s.pool, [s.packet.b]);
  }

  lemma CheckPingCarries(s: State)
    requires Inv(s) && s.ip.Check?
    ensures Carrying(CheckPing(s))
  {
    hide Reply, IsPing, Replies, IsEchoReply, Data, Conserved;
    RepliesSettled(s.log.processed, s.log.fates, Ignored);
  }

  lemma TakeReplyBufferCarries(s: State)
    requires Inv(s) && s.ip.TakeFree?
    ensures Carrying(TakeReplyBuffer(s))
  {
    hide Reply, IsPing, Replies, IsEchoReply, Data, Conserved;
    RepliesSettled(s.log.processed, s.log.fates, Dropped);
  }

  /** The reply is written and the error branch behind it is never taken. */
  lemma AnswerPingCarries(s: State)
    requires Inv(s) && s.ip.Answer?
    ensures Carrying(AnswerPing(s)) && AnswerPing(s).ip.SendReply?
  {
    hide Reply, IsPing, Replies, IsEchoReply, Put, Owned, Flowing, Sized;
    AnswerReady(s);
    PingLength(Data(s.pool, s.ip.p));
    AnswerFills(s);
    AnswerDisturbsNobody(s);
  }

  lemma AnswerFills(s: State)
    requires Inv(s) && s.ip.Answer?
    ensures var p, q, s' := s.ip.p, s.ip.q, AnswerPing(s);
            && s' == s.(pool := s'.pool, ip := SendReply(p, q)) && s'.pool[p] == s.pool[p]
            && Fits(s'.pool, q) && Data(s'.pool, q) == Reply(Data(s.pool, p))
  {
    hide Reply, IsPing, Replies, IsEchoReply, Put, Owned, Flowing, Sized;
    var p, q := s.ip.p, s.ip.q;
    AnswerReady(s);
    PingLength(Data(s.pool, p));
    ReplyIsEchoReply(Data(s.pool, p));
    PutFills(s.pool, q, Reply(Data(s.pool, p)));
  }

  lemma AnswerDisturbsNobody(s: State)
    requires Inv(s) && s.ip.Answer?
    ensures Flowing(AnswerPing(s)) && Sized(AnswerPing(s))
  {
    hide Reply, IsPing, Replies, IsEchoReply, Put, Owned, Deciding, Answering;
    var p, q := s.ip.p, s.ip.q;
    AnswerReady(s);
    RequestFits(s);
    PingLength(Data(s.pool, p));
    var data := Reply(Data(s.pool, p));
    Exclusive(s, q);
    ReplyIsEchoReply(Data(s.pool, p));
    PutFills(s.pool, q, data);
    PutElsewhere(s.pool, q, data, s.ready);
    PutElsewhere(s.pool, q, data, s.transmit);
    PutElsewhere(s.pool, q, data, PacketHolds(s.packet));
  }

  lemma ReplyIsEchoReply(p: Packet)
    requires IsPing(p)
    ensures |Reply(p)| == |p| && IsEchoReply(Reply(p)) && !IsPing(Reply(p))
  {
    ReplyExact(p, 12);
    ReplyExact(p, 13);
    ReplyExact(p, 23);
    ReplyExact(p, ICMP);
  }

  lemma PutTransmitCarries(s: State)
    requires Inv(s) && s.ip.SendReply?
    ensures Carrying(PutTransmit(s))
  {
    hide Reply, IsPing, Replies, IsEchoReply, Data, Owned;
    var request := s.log.processed[|s.log.processed| - 1];
    ReplyIsEchoReply(request);
    ContentsPush(s.pool, s.transmit, s.ip.q);
    RepliesSettled(s.log.processed, s.log.fates, Answered);
    assert |request| >= MIN_PING by { PingLength(request); }
  }

  lemma PingLength(p: Packet)
    requires IsPing(p)
    ensures |p| >= MIN_PING
  {
  }

  /** After the copy the buffer holds exactly the output that was asked for. */
  lemma CopyOutCarries(s: State)
    requires Inv(s) && s.ip.Emit?
    ensures Carrying(CopyOut(s))
    ensures CopyOut(s).pool[s.ip.q].used == |s.ip.data| && Data(CopyOut(s).pool, s.ip.q) == s.ip.data
  {
    hide Reply, IsPing, Replies, IsEchoReply, Put, Owned;
    var q := s.ip.q;
    Exclusive(s, q);
    PutFills(s.pool, q, s.ip.data);
    PutElsewhere(s.pool, q, s.ip.data, s.ready);
    PutElsewhere(s.pool, q, s.ip.data, s.transmit);
    PutElsewhere(s.pool, q, s.ip.data, PacketHolds(s.packet));
  }

  lemma PutOutputCarries(s: State)
    requires Inv(s) && s.ip.Emitted?
    ensures Carrying(PutOutput(s))
  {
    hide Reply, IsPing, Replies, IsEchoReply, Data, Owned;
    ContentsPush(s.pool, s.transmit, s.ip.q);
  }

  // ---------------------------------------------------------------- the invariant over every run

  lemma PacketKeeps(s: State)
    requires Inv(s) && PacketReady(s)
    ensures Inv(PacketNext(s))
  {
    hide Data, Owned, Put, Wiped, Conserved, Flowing, Sized, Deciding, Answering;
    match s.packet
    case Copy(_, _) => SameHolders(s, PacketNext(s)); CopyInCarries(s);
    case SendReady(_) => PutReadyConserves(s); PutReadyCarries(s);
    case Drain =>
      if s.transmit != [] { TakeTransmitConserves(s); } else { SameHolders(s, PacketNext(s)); }
      TakeTransmitCarries(s);
    case Write(_) => SameHolders(s, PacketNext(s)); WriteOutCarries(s);
    case _ => BufferMoveKeeps(s);
  }

  lemma BufferMoveKeeps(s: State)
    requires Inv(s) && PacketReady(s)
    requires s.packet.Fill? || s.packet.Wipe? || s.packet.WaitFree? || s.packet.Release? || s.packet.Notify?
    ensures Inv(PacketNext(s))
  {
    hide Reply, IsPing, Replies, IsEchoReply, Data, Owned, Put, Wiped, Conserved;
    match s.packet
    case Fill(_) => PutInPoolConserves(s);
    case Wipe(_) => SameHolders(s, PacketNext(s));
    case WaitFree(_) => TakeBufferConserves(s);
    case Release(_) => PutBackConserves(s);
    case Notify => SameHolders(s, PacketNext(s));
  }

  lemma IpKeeps(s: State)
    requires Inv(s) && IpReady(s)
    ensures Inv(IpNext(s))
  {
    hide Data, Owned, Put, Wiped, Conserved, Flowing, Sized, Deciding, Answering;
    match s.ip
    case Wait => TakeReadyConserves(s); TakeReadyCarries(s);
    case Check(_) => SameHolders(s, IpNext(s)); CheckPingCarries(s);
    case TakeFree(_) =>
      if s.free != [] { TakeReplyBufferConserves(s); } else { SameHolders(s, IpNext(s)); }
      TakeReplyBufferCarries(s);
    case Answer(_, _) => AnswerPingCarries(s); SameHolders(s, IpNext(s));
    case SendReply(_, _) => PutTransmitConserves(s); PutTransmitCarries(s);
    case GiveBack(_, _) => NoGiveBack(s);
    case Free(_) => FreeRequestConserves(s); HandBackCarries(s);
    case Stack(h) =>
      if h != [] { FreeInputConserves(s); } else { SameHolders(s, IpNext(s)); }
      HandBackCarries(s);
    case Emit(_, _, _) => SameHolders(s, IpNext(s)); CopyOutCarries(s);
    case Emitted(_, _) => PutOutputConserves(s); PutOutputCarries(s);
  }

  // What the bodies of single steps rely on.

  lemma CopyFits(s: State)
    requires Inv(s) && s.packet.Copy?
    ensures s.packet.len <= PACKET_SIZE
  {
  }

  lemma RequestFits(s: State)
    requires Inv(s) && (s.ip.Check? || s.ip.Answer?)
    ensures Fits(s.pool, s.ip.p) && Data(s.pool, s.ip.p) == s.pool[s.ip.p].buf[..s.pool[s.ip.p].used]
  {
  }

  lemma WriteFits(s: State)
    requires Inv(s) && s.packet.Write?
    ensures Fits(s.pool, s.packet.b)
  {
  }

  lemma OutputFits(s: State)
    requires Inv(s) && s.ip.Emit?
    ensures |s.ip.data| <= PACKET_SIZE
  {
  }

  lemma AnswerReady(s: State)
    requires Inv(s) && s.ip.Answer?
    ensures s.ip.p != s.ip.q && IsPing(Data(s.pool, s.ip.p))
  {
    hide Owned;
    RequestIsNotReply(s);
  }

  lemma NoGiveBack(s: State)
    requires Answering(s)
    ensures !s.ip.GiveBack?
  {
  }

  lemma HandBackCarries(s: State)
    requires Inv(s) && IpReady(s) && (s.ip.Free? || s.ip.Stack?)
    ensures Carrying(IpNext(s))
  {
    hide Reply, IsPing, Replies, IsEchoReply, Data, Conserved;
  }

  lemma ReadFrameKeeps(s: State, frame: Packet)
    requires Inv(s) && s.packet.Read? && |frame| <= PACKET_SIZE
    ensures Inv(ReadFrame(s, frame))
  {
    hide Reply, IsPing, Replies, IsEchoReply, Data, Owned, Conserved;
    SameHolders(s, ReadFrame(s, frame));
    assert ReadFrame(s, frame).pktBuf[..|frame|] == frame;
  }

  lemma WriteRefusedKeeps(s: State)
    requires Inv(s) && s.packet.Write?
    ensures Inv(WriteRefused(s))
  {
    hide Reply, IsPing, Replies, IsEchoReply, Data, Owned, Conserved;
    SameHolders(s, WriteRefused(s));
    ContentsPop(s.pool, [s.packet.b]);
  }

  /** Every step, of either task, in either build, keeps the invariant. */
  lemma StepKeeps(s: State, l: Label)
    requires Inv(s)
    ensures Inv(Step(s, l))
  {
    hide PacketNext, IpNext, PacketReady, IpReady, Conserved, Flowing, Sized, Deciding, Answering;
    if Enabled(s, l) {
      match l
      case Receive(frame) => ReadFrameKeeps(s, frame);
      case NoFrame => ReadNothingKeeps(s);
      case TxBusy => WriteRefusedKeeps(s);
      case PacketTask => PacketKeeps(s);
      case IpTask => IpKeeps(s);
      case Output(data) => TakeOutputBufferKeeps(s, data);
    }
  }

  lemma ReadNothingKeeps(s: State)
    requires Inv(s) && s.packet.Read?
    ensures Inv(ReadNothing(s))
  {
    hide Reply, IsPing, Replies, IsEchoReply, Data, Owned, Conserved;
    SameHolders(s, ReadNothing(s));
  }

  lemma TakeOutputBufferKeeps(s: State, data: Packet)
    requires Inv(s) && s.ip.Stack? && |data| <= PACKET_SIZE
    ensures Inv(TakeOutputBuffer(s, data))
  {
    hide Reply, IsPing, Replies, IsEchoReply, Data, Owned, Conserved;
    if s.free != [] { TakeOutputBufferConserves(s, data); }
  }

  lemma StartInv(lwip: bool, pool: Pool, pktBuf: Storage)
    ensures Inv(Start(lwip, pool, pktBuf))
  {
  }

  /** The invariant holds in every state of every run. */
  lemma {:induction false} RunKeeps(s: State, ls: seq<Label>)
    requires Inv(s)
    ensures Inv(Run(s, ls)) && Run(s, ls).lwip == s.lwip
    decreases |ls|
  {
    hide Inv, Enabled, Next;
    if ls != [] {
      StepKeeps(s, ls[0]);
      StepMode(s, ls[0]);
      RunKeeps(Step(s, ls[0]), ls[1..]);
    }
  }

  lemma StepMode(s: State, l: Label)
    ensures Step(s, l).lwip == s.lwip
  {
    hide Data, Put, Wiped, IsPing, Reply, Push;
  }
}
