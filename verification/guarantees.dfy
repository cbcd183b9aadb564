/** What the two tasks guarantee in every run. */
module Guarantees {
  import opened Ping
  import opened Protocol

  /** States that some run of some schedule reaches. */
  ghost predicate Reachable(s: State) {
    exists lwip: bool, pool: Pool, pktBuf: Storage, ls: seq<Label> :: s == Run(Start(lwip, pool, pktBuf), ls)
  }

  lemma ReachableInv(s: State)
    requires Reachable(s)
    ensures Inv(s)
  {
    hide Inv, Run, Start;
    var lwip: bool, pool: Pool, pktBuf: Storage, ls: seq<Label> :| s == Run(Start(lwip, pool, pktBuf), ls);
    StartInv(lwip, pool, pktBuf);
    RunKeeps(Start(lwip, pool, pktBuf), ls);
  }

  lemma {:induction false} RunAppend(s: State, a: seq<Label>, b: seq<Label>)
    ensures Run(s, a + b) == Run(Run(s, a), b)
    decreases |a|
  {
    hide Step;
    if a == [] {
      assert a + b == b;
    } else {
      assert (a + b)[1..] == a[1..] + b;
      RunAppend(Step(s, a[0]), a[1..], b);
    }
  }

  lemma RunSingle(s: State, l: Label)
    ensures Run(s, [l]) == Step(s, l)
  {
    hide Step;
    assert [l][1..] == [];
  }

  // ---------------------------------------------------------------- conservation

  /** All places a buffer can be, one after the other. */
  function All(s: State): seq<Id> {
    s.free + s.ready + s.transmit + PacketHolds(s.packet) + IpHolds(s.ip)
  }

  lemma {:induction false} OccConcat(a: seq<Id>, b: seq<Id>, x: Id)
    ensures Occ(a + b, x) == Occ(a, x) + Occ(b, x)
  {
    if a == [] {
      assert a + b == b;
    } else {
      assert (a + b)[1..] == a[1..] + b;
      OccConcat(a[1..], b, x);
    }
  }

  lemma {:induction false} OnceIsDistinct(q: seq<Id>, i: nat, j: nat)
    requires i < j < |q| && Occ(q, q[i]) <= 1
    ensures q[i] != q[j]
  {
    if i == 0 {
      assert q[j] == q[1..][j - 1];
    } else {
      OnceIsDistinct(q[1..], i - 1, j - 1);
    }
  }

  lemma AllOcc(s: State, x: Id)
    ensures Occ(All(s), x) == Owned(s, x)
  {
    OccConcat(s.free, s.ready, x);
    OccConcat(s.free + s.ready, s.transmit, x);
    OccConcat(s.free + s.ready + s.transmit, PacketHolds(s.packet), x);
    OccConcat(s.free + s.ready + s.transmit + PacketHolds(s.packet), IpHolds(s.ip), x);
  }

  /** In every reachable state the buffers put into circulation, eight after the fill loop, are found
      in the three queues and the hands of the two tasks, each exactly once. */
  lemma BuffersConserved(s: State)
    requires Reachable(s)
    ensures |All(s)| == InUse(s.packet)
    ensures forall x: Id :: x in All(s) <==> x < InUse(s.packet)
    ensures forall i, j :: 0 <= i < j < |All(s)| ==> All(s)[i] != All(s)[j]
  {
    ReachableInv(s);
    hide Occ, Owned;
    forall x: Id ensures Occ(All(s), x) == if x < InUse(s.packet) then 1 else 0 {
      AllOcc(s, x);
    }
    assert forall x: Id :: Occ(All(s), x) > 0 <==> x in All(s);
    forall i, j | 0 <= i < j < |All(s)| ensures All(s)[i] != All(s)[j] {
      OnceIsDistinct(All(s), i, j);
    }
  }

  /** Exclusive ownership: while a task holds a buffer, nobody else can reach it; in particular the two
      buffers of the ping responder are different objects. */
  lemma OwnershipExclusive(s: State, b: Id)
    requires Reachable(s) && (b in PacketHolds(s.packet) || b in IpHolds(s.ip))
    ensures b !in s.free && b !in s.ready && b !in s.transmit
    ensures !(b in PacketHolds(s.packet) && b in IpHolds(s.ip))
    ensures s.ip.Answer? ==> s.ip.p != s.ip.q
  {
    ReachableInv(s);
    hide Owned;
    Exclusive(s, b);
    if s.ip.Answer? { RequestIsNotReply(s); }
  }

  /** The queue a task is about to send to, if it is about to send. */
  function SendsTo(s: State): seq<seq<Id>> {
    (match s.packet
     case Fill(_) => [s.free]
     case SendReady(_) => [s.ready]
     case Release(_) => [s.free]
     case _ => [])
    + (match s.ip
       case SendReply(_, _) => [s.transmit]
       case Emitted(_, _) => [s.transmit]
       case GiveBack(_, _) => [s.free]
       case Free(_) => [s.free]
       case Stack(h) => if h == [] then [] else [s.free]
       case _ => [])
  }

  /** Every send finds room at once, so no result that is ignored hides a lost buffer and no send with
      portMAX_DELAY blocks. */
  lemma SendsSucceed(s: State)
    requires Reachable(s)
    ensures forall q :: q in SendsTo(s) ==> |q| < MAX_PACKETS
  {
    ReachableInv(s);
    hide Owned, Carrying;
  }

  // ---------------------------------------------------------------- what is in the queues

  /** Buffers in the ready queue hold at most 1600 bytes.  Without lwIP, buffers in the transmit queue
      hold echo replies of 42 to 1600 bytes, which no responder answers and the driver never refuses as
      too short, and the error branch of the responder is never taken. */
  lemma QueuedDataFits(s: State)
    requires Reachable(s)
    ensures forall b :: b in s.ready ==> s.pool[b].used <= PACKET_SIZE
    ensures !s.lwip ==> forall b :: b in s.transmit ==>
              && MIN_PING <= s.pool[b].used <= PACKET_SIZE
              && IsEchoReply(Data(s.pool, b)) && !IsPing(Data(s.pool, b))
    ensures !s.ip.GiveBack?
    ensures !s.lwip && s.packet.Write? ==> MIN_WRITE < s.pool[s.packet.b].used <= PACKET_SIZE
  {
    ReachableInv(s);
    hide Conserved, Reply, IsPing, Flowing, Deciding;
    forall b | b in s.transmit && !s.lwip ensures !IsPing(Data(s.pool, b)) {
      ReplyNotPing(Data(s.pool, b));
    }
  }

  lemma ReplyNotPing(p: Packet)
    requires IsEchoReply(p)
    ensures !IsPing(p)
  {
  }

  // ---------------------------------------------------------------- refinement to queues of values

  /** The indices of the packets settled as answered. */
  function AnsweredIndices(fates: seq<Fate>): seq<nat> {
    if fates == [] then []
    else
      var n := |fates| - 1;
      AnsweredIndices(fates[..n]) + (if fates[n].Answered? then [n] else [])
  }

  lemma {:induction false} AnsweredInOrder(fates: seq<Fate>)
    ensures forall k :: 0 <= k < |AnsweredIndices(fates)| ==>
              AnsweredIndices(fates)[k] < |fates| && fates[AnsweredIndices(fates)[k]].Answered?
    ensures forall j, k :: 0 <= j < k < |AnsweredIndices(fates)| ==>
              AnsweredIndices(fates)[j] < AnsweredIndices(fates)[k]
  {
    if fates != [] { AnsweredInOrder(fates[..|fates| - 1]); }
  }

  /** The replies belong to an in-order subsequence of the packets. */
  lemma {:induction false} RepliesInOrder(ps: seq<Packet>, fates: seq<Fate>)
    requires |fates| <= |ps|
    requires forall i :: 0 <= i < |fates| ==> fates[i].Answered? ==> IsPing(ps[i])
    ensures var idx, rs := AnsweredIndices(fates), Replies(ps, fates);
            && |rs| == |idx|
            && (forall k :: 0 <= k < |idx| ==>
                  idx[k] < |fates| && IsPing(ps[idx[k]]) && rs[k] == Reply(ps[idx[k]]))
    decreases |fates|
  {
    hide Reply, IsPing;
    if fates != [] {
      var n := |fates| - 1;
      RepliesInOrder(ps, fates[..n]);
      if fates[n].Answered? { PingLength(ps[n]); }
    }
  }

  /** End to end, without lwIP: what was received is what was processed, what waits in the ready queue
      and what is on its way there; what was sent, what is on its way out and what waits in the transmit
      queue are together the replies to the answered ones of the processed packets, in order.  Packets
      are ignored exactly when they are no echo requests. */
  lemma RefinesValueQueues(s: State)
    requires Reachable(s) && !s.lwip
    ensures s.log.received == s.log.processed + Contents(s.pool, s.ready) + Arriving(s)
    ensures |s.log.fates| <= |s.log.processed| <= |s.log.fates| + 1
    ensures s.log.sent + Leaving(s) + Contents(s.pool, s.transmit) == Replies(s.log.processed, s.log.fates)
    ensures forall i :: 0 <= i < |s.log.fates| ==> (s.log.fates[i] == Ignored <==> !IsEchoRequest(s.log.processed[i]))
  {
    ReachableInv(s);
    hide Conserved, Sized, Deciding, IsPing, IsEchoRequest;
    forall i | 0 <= i < |s.log.fates| ensures s.log.fates[i] == Ignored <==> !IsEchoRequest(s.log.processed[i]) {
      RecognisedExactly(s.log.processed[i]);
    }
  }

  /** In both builds: what was received is what was processed, what waits and what is on its way; what was
      put into the transmit queue is what was sent, what is on its way out and what waits. */
  lemma FlowsInBothBuilds(s: State)
    requires Reachable(s)
    ensures s.log.received == s.log.processed + Contents(s.pool, s.ready) + Arriving(s)
    ensures s.log.queued == s.log.sent + Leaving(s) + Contents(s.pool, s.transmit)
  {
    ReachableInv(s);
    hide Conserved, Sized, Deciding, Answering;
  }

  /** With lwIP: what was sent, what is on its way out, what waits and what is between lwIP and the queue are
      together the outputs lwIP asked for and got a buffer for, in order and byte for byte. */
  lemma OutputsInOrder(s: State)
    requires Reachable(s) && s.lwip
    ensures s.log.sent + Leaving(s) + Contents(s.pool, s.transmit) + InOutput(s) == s.log.outputs
  {
    ReachableInv(s);
    hide Conserved, Sized, Deciding, Answering;
  }

  lemma OutputsAreQueued(s: State)
    requires Reachable(s) && s.lwip
    ensures s.log.queued + InOutput(s) == s.log.outputs
  {
    ReachableInv(s);
    hide Conserved, Flowing, Sized, Deciding, Answering, InOutput;
  }

  /** The outputs a schedule asks for while a buffer is free. */
  function OutputsTaken(s: State, ls: seq<Label>): seq<Packet>
    decreases |ls|
  {
    if ls == [] then []
    else
      (if ls[0].Output? && Enabled(s, ls[0]) && s.free != [] then [ls[0].data] else [])
      + OutputsTaken(Step(s, ls[0]), ls[1..])
  }

  /** The frames a schedule brings. */
  function FramesRead(s: State, ls: seq<Label>): seq<Packet>
    decreases |ls|
  {
    if ls == [] then []
    else
      (if ls[0].Receive? && Enabled(s, ls[0]) then [ls[0].frame] else [])
      + FramesRead(Step(s, ls[0]), ls[1..])
  }

  /** Nothing else is received or handed over. */
  lemma {:induction false} LogsFollow(s: State, ls: seq<Label>)
    ensures Run(s, ls).log.received == s.log.received + FramesRead(s, ls)
    ensures Run(s, ls).log.outputs == s.log.outputs + OutputsTaken(s, ls)
    decreases |ls|
  {
    hide Step, Enabled;
    if ls != [] {
      StepLogs(s, ls[0]);
      LogsFollow(Step(s, ls[0]), ls[1..]);
    }
  }

  lemma StepLogs(s: State, l: Label)
    ensures Step(s, l).log.received == s.log.received + if l.Receive? && Enabled(s, l) then [l.frame] else []
    ensures Step(s, l).log.outputs ==
            s.log.outputs + if l.Output? && Enabled(s, l) && s.free != [] then [l.data] else []
  {
    hide Data, Put, Reply, IsPing, Push, Wiped;
  }

  /** An output is lost only when the free queue is empty, that is, when all eight buffers are queued for one
      of the tasks or held. */
  lemma OutputLostOnlyWhenExhausted(s: State, data: Packet)
    requires Reachable(s) && Enabled(s, Output(data))
    ensures Next(s, Output(data)).log.outputs == s.log.outputs + if s.free == [] then [] else [data]
    ensures s.free == [] && !s.packet.Fill? && !s.packet.Wipe? ==>
              |s.ready| + |s.transmit| + |PacketHolds(s.packet)| + |s.ip.h| == MAX_PACKETS
  {
    ReachableInv(s);
    hide Owned, Carrying;
  }

  /** A request is dropped only when the free queue is empty, that is, when the other seven buffers are
      all queued for one of the tasks or held by the packet task. */
  lemma DroppedOnlyWhenExhausted(s: State, l: Label)
    requires Reachable(s) && Enabled(s, l)
    requires Next(s, l).log.fates == s.log.fates + [Dropped]
    ensures l == IpTask && s.free == [] && s.ip.TakeFree? && IsPing(Data(s.pool, s.ip.p))
    ensures |s.ready| + |s.transmit| + |PacketHolds(s.packet)| == MAX_PACKETS - 1
  {
    ReachableInv(s);
    hide Owned, Flowing, Sized, Put, Reply, IsPing;
    FatesGrow(s, l);
  }

  lemma FatesGrow(s: State, l: Label)
    requires Enabled(s, l) && !s.ip.GiveBack?
    requires Next(s, l).log.fates == s.log.fates + [Dropped]
    ensures l == IpTask && s.ip.TakeFree? && s.free == []
  {
    hide Data, Put, Reply, IsPing, Push, Wiped;
    assert s.log.fates != s.log.fates + [Dropped];
    assert (s.log.fates + [Ignored])[|s.log.fates|] == Ignored;
    assert (s.log.fates + [Answered])[|s.log.fates|] == Answered;
    assert (s.log.fates + [Dropped])[|s.log.fates|] == Dropped;
  }

  // ---------------------------------------------------------------- deadlock

  /** The packet task waits for a free buffer, the IP task for a ready one, and there is neither. */
  predicate Deadlocked(s: State) {
    s.packet.WaitFree? && s.free == [] && s.ip.Wait? && s.ready == []
  }

  /** Nobody can move. */
  ghost predicate Stuck(s: State) { forall l: Label :: !Enabled(s, l) }

  /** In both builds the tasks get stuck only by a failed assertion or in that deadlock, in which the
      transmit queue holds all eight buffers. */
  lemma StuckExact(s: State)
    requires Reachable(s) && !s.packet.Halted?
    ensures Stuck(s) <==> Deadlocked(s)
    ensures Deadlocked(s) ==> |s.transmit| == MAX_PACKETS
  {
    ReachableInv(s);
    hide Owned, Carrying;
    assert !Enabled(s, NoFrame) <==> !s.packet.Read?;
    assert !Enabled(s, PacketTask) <==> !PacketReady(s);
    assert !Enabled(s, IpTask) <==> !IpReady(s);
  }

  /** Without lwIP there is no deadlock: a reply is queued only while its request is still held, so the
      transmit queue never holds all eight buffers. */
  lemma NoDeadlock(s: State)
    requires Reachable(s) && !s.lwip
    ensures |s.transmit| < MAX_PACKETS
    ensures !Deadlocked(s)
    ensures Stuck(s) ==> s.packet.Halted?
  {
    ReachableInv(s);
    if !s.packet.Halted? { StuckExact(s); }
    hide Owned, Carrying;
  }

  /** The packet task stops only when the driver reports a transmission still in progress. */
  lemma HaltsOnlyWhenBusy(s: State, l: Label)
    requires Reachable(s) && !s.lwip && Enabled(s, l)
    requires !s.packet.Halted? && Next(s, l).packet.Halted?
    ensures l == TxBusy
  {
    ReachableInv(s);
    if l == PacketTask {
      if s.packet.Write? { WriteOutCarries(s); }
    } else if l == IpTask {
      IpKeepsPacket(s);
    }
  }

  /** In both builds it stops exactly when the driver refuses a packet: because a transmission is still in
      progress, or because the packet is shorter than 14 bytes, which only lwIP can make happen. */
  lemma HaltsExact(s: State, l: Label)
    requires Reachable(s) && Enabled(s, l) && !s.packet.Halted?
    ensures Next(s, l).packet.Halted? <==>
              l == TxBusy || (l == PacketTask && s.packet.Write? && s.pool[s.packet.b].used < MIN_WRITE)
    ensures !s.lwip && s.packet.Write? ==> s.pool[s.packet.b].used >= MIN_WRITE
  {
    ReachableInv(s);
    if l == IpTask {
      IpKeepsPacket(s);
    } else if l == PacketTask && s.packet.Fill? {
      SendsSucceed(s);
      assert s.free in SendsTo(s);
    }
    if s.packet.Write? { QueuedDataFits(s); }
  }

  lemma IpKeepsPacket(s: State)
    requires IpReady(s)
    ensures IpNext(s).packet == s.packet
  {
    hide Data, Put, Reply, IsPing, Push;
  }

  /** A schedule on which only the IP task runs. */
  function Alone(n: nat): seq<Label> { seq(n, _ => IpTask) }

  function StepsToFree(pc: IpPc): (n: nat)
    ensures n <= 4
  {
    match pc
    case Wait => 4
    case Check(_) => 3
    case TakeFree(_) => 2
    case Answer(_, _) => 3
    case SendReply(_, _) => 2
    case _ => 1
  }

  /** While the packet task waits for a free buffer, at most four steps of the IP task make one
      available. */
  lemma {:induction false} FreeSoon(s: State) returns (n: nat)
    requires Inv(s) && !s.lwip && s.packet.WaitFree?
    ensures n <= StepsToFree(s.ip) <= 4
    ensures Run(s, Alone(n)).free != []
    decreases StepsToFree(s.ip)
  {
    hide Inv, Enabled, Next, IpNext, Run, StepsToFree;
    if s.free != [] {
      n := 0;
      RunNone(s);
    } else {
      FreeCloser(s);
      StepKeeps(s, IpTask);
      StepMode(s, IpTask);
      var s' := Step(s, IpTask);
      n := 0;
      if s'.free == [] { n := FreeSoon(s'); } else { RunNone(s'); }
      RunOne(s, n);
      n := n + 1;
    }
  }

  lemma RunNone(s: State)
    ensures Run(s, Alone(0)) == s
  {
  }

  lemma RunOne(s: State, n: nat)
    ensures Run(s, Alone(n + 1)) == Run(Step(s, IpTask), Alone(n))
  {
    hide Step;
    assert Alone(n + 1)[1..] == Alone(n);
  }

  lemma FreeCloser(s: State)
    requires Inv(s) && !s.lwip && s.packet.WaitFree? && s.free == []
    ensures var s' := Step(s, IpTask);
            && s'.packet.WaitFree?
            && (s'.free != [] || StepsToFree(s'.ip) < StepsToFree(s.ip))
    ensures 0 < StepsToFree(s.ip) <= 4
  {
    hide Inv, IpNext;
    IpCanMove(s);
    IpGetsCloser(s);
    IpKeepsPacket(s);
  }

  lemma IpCanMove(s: State)
    requires Inv(s) && !s.lwip && s.packet.WaitFree? && s.free == []
    ensures IpReady(s)
  {
    hide Owned, Carrying;
  }

  lemma IpGetsCloser(s: State)
    requires Inv(s) && !s.lwip && s.packet.WaitFree? && s.free == [] && IpReady(s)
    ensures var s' := IpNext(s); s'.free != [] || StepsToFree(s'.ip) < StepsToFree(s.ip)
  {
    hide Owned, Flowing, Sized, Data, Put, Reply, IsPing;
  }

  // ---------------------------------------------------------------- round the loop

  /** How many steps the packet task is away from its next read. */
  function ToRead(pc: PacketPc): (n: nat)
    ensures n <= 2 * MAX_PACKETS
  {
    match pc
    case Fill(i) => 2 * (MAX_PACKETS - i)
    case Wipe(i) => 2 * (MAX_PACKETS - i) - 1
    case WaitFree(_) => 3
    case Copy(_, _) => 2
    case SendReady(_) => 1
    case Drain => 4
    case Write(_) => 3
    case Release(_) => 2
    case Notify => 1
    case _ => 0
  }

  predicate MovesPacketTask(l: Label) { !l.IpTask? && !l.Output? }

  /** The order of the loop: the transmit queue is looked at only after a read that brought no frame, and at
      one packet; the next read comes after the wait, or at once after a frame was passed on. */
  lemma LoopOrder(s: State, l: Label)
    requires Reachable(s) && Enabled(s, l)
    ensures Next(s, l).packet.Drain? && !s.packet.Drain? <==> l == NoFrame
    ensures Next(s, l).transmit != s.transmit && MovesPacketTask(l) ==> s.packet.Drain? && s.transmit != []
    ensures Next(s, l).packet.Read? && !s.packet.Read? <==>
              l == PacketTask && (s.packet.Notify? || s.packet.SendReady? || s.packet == Wipe(MAX_PACKETS - 1))
  {
    ReachableInv(s);
    hide Carrying, Owned, Data, Put, Reply, IsPing, Wiped;
    if !MovesPacketTask(l) { OthersKeepPacket(s, l); }
  }

  lemma OthersKeepPacket(s: State, l: Label)
    requires Enabled(s, l) && !MovesPacketTask(l)
    ensures Next(s, l).packet == s.packet
  {
    if l.IpTask? { IpKeepsPacket(s); }
  }

  /** Every step of the packet task brings it closer to its next read, in either build, unless the assertion
      on the write stops it; nobody else changes where it stands. */
  lemma CloserToRead(s: State, l: Label)
    requires Inv(s) && Enabled(s, l)
    ensures !MovesPacketTask(l) ==> Next(s, l).packet == s.packet
    ensures MovesPacketTask(l) && !s.packet.Read? ==>
              Next(s, l).packet.Halted? || ToRead(Next(s, l).packet) < ToRead(s.packet)
  {
    hide Carrying, Owned, Data, Put, Reply, IsPing, Wiped;
    if !MovesPacketTask(l) { OthersKeepPacket(s, l); }
  }

  /** The steps of a schedule that the packet task takes. */
  function PacketSteps(s: State, ls: seq<Label>): nat
    decreases |ls|
  {
    if ls == [] then 0
    else (if MovesPacketTask(ls[0]) && Enabled(s, ls[0]) then 1 else 0) + PacketSteps(Step(s, ls[0]), ls[1..])
  }

  /** However the tasks are scheduled, a packet task that takes enough steps comes back to its read, or has been
      stopped by the assertion on the write. */
  lemma {:induction false} ReadsAgain(s: State, ls: seq<Label>) returns (n: nat)
    requires Inv(s) && PacketSteps(s, ls) >= ToRead(s.packet)
    ensures n <= |ls| && (Run(s, ls[..n]).packet.Read? || Run(s, ls[..n]).packet.Halted?)
    decreases |ls|
  {
    hide Inv, Enabled, Next, MovesPacketTask;
    n := 0;
    if !s.packet.Read? && !s.packet.Halted? {
      NotThere(s.packet);
      if Enabled(s, ls[0]) { CloserToRead(s, ls[0]); }
      StepKeeps(s, ls[0]);
      var s' := Step(s, ls[0]);
      var m := 0;
      if !s'.packet.Halted? { m := ReadsAgain(s', ls[1..]); }
      n := m + 1;
      assert ls[..n][1..] == ls[1..][..m];
    }
  }

  lemma NotThere(pc: PacketPc)
    requires !pc.Read? && !pc.Halted?
    ensures ToRead(pc) > 0
  {
  }

  lemma PacketCanMove(s: State)
    requires Inv(s) && !s.packet.Read? && !s.packet.Halted? && (s.packet.WaitFree? ==> s.free != [])
    ensures PacketReady(s) && !PacketNext(s).packet.WaitFree?
  {
    hide Carrying, Owned, Data, Put, Wiped;
  }

  /** Unless it waits for a buffer, the packet task needs nobody else for that. */
  lemma {:induction false} GoOn(s: State) returns (n: nat)
    requires Inv(s) && !s.lwip && !s.packet.Halted? && (s.packet.WaitFree? ==> s.free != [])
    ensures n <= ToRead(s.packet) && Run(s, Turns(n)).packet.Read?
    decreases ToRead(s.packet)
  {
    hide Inv, Next, PacketNext, PacketReady, Run, ToRead;
    n := 0;
    if s.packet.Read? {
      TurnsNone(s);
    } else {
      PacketCanMove(s);
      CloserToRead(s, PacketTask);
      QuietNeverHalts(s, PacketTask);
      StepKeeps(s, PacketTask);
      StepMode(s, PacketTask);
      PacketStepIs(s);
      n := GoOn(Step(s, PacketTask));
      TurnsOne(s, n);
      n := n + 1;
    }
  }

  lemma PacketStepIs(s: State)
    requires PacketReady(s)
    ensures Enabled(s, PacketTask) && Step(s, PacketTask) == Next(s, PacketTask) == PacketNext(s)
  {
    hide PacketNext, PacketReady;
  }

  /** A schedule on which only the packet task runs. */
  function Turns(n: nat): seq<Label> { seq(n, _ => PacketTask) }

  lemma TurnsNone(s: State)
    ensures Run(s, Turns(0)) == s
  {
  }

  lemma TurnsOne(s: State, n: nat)
    ensures Run(s, Turns(n + 1)) == Run(Step(s, PacketTask), Turns(n))
  {
    hide Step;
    assert Turns(n + 1)[1..] == Turns(n);
  }

  lemma {:induction false} AloneKeeps(s: State, n: nat)
    requires Inv(s)
    ensures var s' := Run(s, Alone(n)); Inv(s') && s'.packet == s.packet && s'.lwip == s.lwip
    decreases n
  {
    hide Inv, Step, Run;
    if n == 0 {
      RunNone(s);
    } else {
      StepKeeps(s, IpTask);
      StepMode(s, IpTask);
      IpStepKeepsPacket(s);
      AloneKeeps(Step(s, IpTask), n - 1);
      RunOne(s, n - 1);
    }
  }

  lemma IpStepKeepsPacket(s: State)
    ensures Step(s, IpTask).packet == s.packet
  {
    hide IpNext, IpReady;
    if IpReady(s) { IpKeepsPacket(s); }
  }

  /** And without lwIP it can always come back: from every state in which it is not stopped, a bounded number of
      steps leads to the next read. */
  lemma {:induction false} BackToRead(s: State) returns (ls: seq<Label>)
    requires Inv(s) && !s.lwip && !s.packet.Halted?
    ensures |ls| <= ToRead(s.packet) + 4 && (forall l :: l in ls ==> Quiet(l))
    ensures Run(s, ls).packet.Read?
  {
    hide Inv, Run, ToRead, StepsToFree;
    var waits := 0;
    if s.packet.WaitFree? { waits := FreeSoon(s); }
    AloneKeeps(s, waits);
    var n := GoOn(Run(s, Alone(waits)));
    ls := Alone(waits) + Turns(n);
    RunAppend(s, Alone(waits), Turns(n));
    RunNone(s);
  }

  // ---------------------------------------------------------------- draining

  /** How much work is left, counted so that every useful step takes some off. */
  function Weight(s: State): nat {
    14 * |s.ready| + 6 * |s.transmit| + PacketWeight(s.packet, s.transmit != []) + IpWeight(s.ip)
  }

  function PacketWeight(pc: PacketPc, pending: bool): nat {
    match pc
    case Fill(i) => 2 * (MAX_PACKETS - i) + 2
    case Wipe(i) => 2 * (MAX_PACKETS - i) + 1
    case WaitFree(_) => 18
    case Copy(_, _) => 17
    case SendReady(_) => 16
    case Write(_) => 5
    case Release(_) => 4
    case Notify => if pending then 2 else 0
    case Read => if pending then 1 else 0
    case _ => 0
  }

  function IpWeight(pc: IpPc): nat {
    match pc
    case Check(_) => 13
    case TakeFree(_) => 12
    case Answer(_, _) => 11
    case SendReply(_, _) => 10
    case GiveBack(_, _) => 10
    case Free(_) => 1
    case _ => 0
  }

  /** The packet task goes round its loop without anything to send. */
  predicate Idle(s: State) {
    s.transmit == [] && (s.packet.Read? || s.packet.Drain? || s.packet.Notify?)
  }

  /** Steps in which nothing is received and no write is refused. */
  predicate Quiet(l: Label) { l.NoFrame? || l.PacketTask? || l.IpTask? }

  /** Nothing left to do: all eight buffers are free again. */
  predicate Drained(s: State) {
    |s.free| == MAX_PACKETS && s.ready == [] && s.transmit == [] && s.ip.Wait? && Idle(s)
  }

  lemma PacketDrains(s: State)
    requires Inv(s) && !s.lwip && PacketReady(s)
    ensures if Idle(s) then Weight(PacketNext(s)) == Weight(s) else Weight(PacketNext(s)) < Weight(s)
  {
    hide Owned, Carrying, Data, Put, Wiped;
  }

  lemma IpDrains(s: State)
    requires Inv(s) && !s.lwip && IpReady(s)
    ensures Weight(IpNext(s)) < Weight(s)
  {
    hide Owned, Carrying, Data, Put, Reply, IsPing;
  }

  /** Every step but an idle turn of the packet task takes off weight, in any interleaving. */
  lemma StepDrains(s: State, l: Label)
    requires Inv(s) && !s.lwip && Quiet(l) && Enabled(s, l)
    ensures Weight(Next(s, l)) <= Weight(s)
    ensures !(Idle(s) && l != IpTask) ==> Weight(Next(s, l)) < Weight(s)
  {
    hide Inv;
    match l
    case NoFrame =>
    case PacketTask => PacketDrains(s);
    case IpTask => IpDrains(s);
  }

  /** The steps of a schedule that do something useful. */
  function UsefulSteps(s: State, ls: seq<Label>): nat
    decreases |ls|
  {
    if ls == [] then 0
    else (if Enabled(s, ls[0]) && !(Idle(s) && ls[0] != IpTask) then 1 else 0) + UsefulSteps(Step(s, ls[0]), ls[1..])
  }

  /** However the tasks are scheduled, only so many useful steps are left. */
  lemma {:induction false} UsefulStepsBounded(s: State, ls: seq<Label>)
    requires Inv(s) && !s.lwip
    requires forall l :: l in ls ==> Quiet(l)
    ensures UsefulSteps(s, ls) + Weight(Run(s, ls)) <= Weight(s)
    decreases |ls|
  {
    hide Inv, Weight, Idle, Next, Enabled;
    if ls != [] {
      if Enabled(s, ls[0]) { StepDrains(s, ls[0]); }
      StepKeeps(s, ls[0]);
      StepMode(s, ls[0]);
      UsefulStepsBounded(Step(s, ls[0]), ls[1..]);
    }
  }

  /** As long as a buffer is not free some useful step is possible, unless a refused write has stopped
      the packet task. */
  lemma UsefulStepPossible(s: State) returns (l: Label)
    requires Inv(s) && !s.lwip && !s.packet.Halted? && !Drained(s)
    ensures Quiet(l) && Enabled(s, l) && !(Idle(s) && l != IpTask)
  {
    hide Owned, Carrying;
    if s.packet.Read? && s.transmit != [] {
      l := NoFrame;
    } else if PacketReady(s) && !Idle(s) {
      l := PacketTask;
    } else {
      l := IpTask;
    }
  }

  /** Without receptions and refused writes the system drains: useful steps can be chosen until all
      eight buffers are free, and no more than the weight of the state are needed. */
  lemma {:induction false} DrainsCompletely(s: State) returns (ls: seq<Label>)
    requires Inv(s) && !s.lwip && !s.packet.Halted?
    ensures |ls| <= Weight(s) && (forall l :: l in ls ==> Quiet(l))
    ensures Drained(Run(s, ls))
    decreases Weight(s)
  {
    hide Inv, Weight, Drained, Idle, Next, Enabled;
    ls := [];
    if !Drained(s) {
      var l := UsefulStepPossible(s);
      StepDrains(s, l);
      StepKeeps(s, l);
      StepMode(s, l);
      QuietNeverHalts(s, l);
      var rest := DrainsCompletely(Step(s, l));
      ls := [l] + rest;
      assert ls[1..] == rest;
    }
  }

  lemma QuietNeverHalts(s: State, l: Label)
    requires Inv(s) && !s.lwip && !s.packet.Halted? && Quiet(l) && Enabled(s, l)
    ensures !Next(s, l).packet.Halted?
  {
    hide Owned, Carrying;
    match l
    case PacketTask =>
      if s.packet.Write? { WriteOutCarries(s); }
    case IpTask => IpKeepsPacket(s);
    case NoFrame =>
  }

  // ---------------------------------------------------------------- the build with lwIP

  /** One step more: a schedule that leads from `s0` to `s` leads on to the next state. */
  lemma Extend(s0: State, ls: seq<Label>, l: Label)
    requires Enabled(Run(s0, ls), l)
    ensures Run(s0, ls + [l]) == Next(Run(s0, ls), l)
  {
    hide Enabled, Next;
    RunAppend(s0, ls, [l]);
  }

  /** The task side of a state: where the two tasks stand and how long the queues are. */
  predicate StandsAt(s: State, pc: PacketPc, ip: IpPc, free: nat, transmit: nat) {
    s.packet == pc && s.ip == ip && |s.free| == free && s.ready == [] && |s.transmit| == transmit
  }

  /** The fill loop runs to its end. */
  lemma {:induction false} PoolFills(s0: State, ls: seq<Label>, i: Id) returns (ls': seq<Label>)
    requires StandsAt(Run(s0, ls), Fill(i), Wait, i, 0)
    ensures StandsAt(Run(s0, ls'), Read, Wait, MAX_PACKETS, 0)
    decreases MAX_PACKETS - i
  {
    hide Run;
    Extend(s0, ls, PacketTask);
    Extend(s0, ls + [PacketTask], PacketTask);
    ls' := ls + [PacketTask] + [PacketTask];
    if i + 1 < MAX_PACKETS { ls' := PoolFills(s0, ls', i + 1); }
  }

  /** A frame arrives and is handed to lwIP, which frees it. */
  lemma FrameIsConsumed(s0: State, ls: seq<Label>, frame: Packet) returns (ls': seq<Label>)
    requires s0.lwip && StandsAt(Run(s0, ls), Read, Wait, MAX_PACKETS, 0) && |frame| <= PACKET_SIZE
    ensures StandsAt(Run(s0, ls'), Read, Stack([]), MAX_PACKETS, 0)
  {
    hide Run, Data, Put;
    ls' := FrameIsQueued(s0, ls, frame);
    RunMode(s0, ls');
    Extend(s0, ls', IpTask);
    ls' := ls' + [IpTask];
    Extend(s0, ls', IpTask);
    ls' := ls' + [IpTask];
  }

  lemma FrameIsQueued(s0: State, ls: seq<Label>, frame: Packet) returns (ls': seq<Label>)
    requires StandsAt(Run(s0, ls), Read, Wait, MAX_PACKETS, 0) && |frame| <= PACKET_SIZE
    ensures var s := Run(s0, ls');
            s.packet == Read && s.ip == Wait && |s.free| == MAX_PACKETS - 1 && |s.ready| == 1 && s.transmit == []
  {
    hide Run, Data, Put;
    Extend(s0, ls, Receive(frame));
    ls' := ls + [Receive(frame)];
    Extend(s0, ls', PacketTask);
    ls' := ls' + [PacketTask];
    Extend(s0, ls', PacketTask);
    ls' := ls' + [PacketTask];
    Extend(s0, ls', PacketTask);
    ls' := ls' + [PacketTask];
  }

  lemma {:induction false} RunMode(s: State, ls: seq<Label>)
    ensures Run(s, ls).lwip == s.lwip
    decreases |ls|
  {
    hide Step;
    if ls != [] {
      StepMode(s, ls[0]);
      RunMode(Step(s, ls[0]), ls[1..]);
    }
  }

  /** lwIP, holding no input packet, sends until no buffer is free. */
  lemma {:induction false} TimersSend(s0: State, ls: seq<Label>, data: Packet, n: nat) returns (ls': seq<Label>)
    requires n <= MAX_PACKETS && StandsAt(Run(s0, ls), Read, Stack([]), n, MAX_PACKETS - n)
    requires |data| <= PACKET_SIZE
    ensures StandsAt(Run(s0, ls'), Read, Stack([]), 0, MAX_PACKETS)
    decreases n
  {
    hide Run, Data, Put;
    ls' := ls;
    if n > 0 {
      Extend(s0, ls', Output(data));
      ls' := ls' + [Output(data)];
      Extend(s0, ls', IpTask);
      ls' := ls' + [IpTask];
      Extend(s0, ls', IpTask);
      ls' := ls' + [IpTask];
      ls' := TimersSend(s0, ls', data, n - 1);
    }
  }

  /** With lwIP the deadlock can be reached: once the input packet is freed, timers that send eight
      packets before the packet task drains any leave no buffer for the next frame. */
  lemma DeadlockReachable(pool: Pool, pktBuf: Storage, frame: Packet, data: Packet) returns (ls: seq<Label>)
    requires |frame| <= PACKET_SIZE && MIN_WRITE <= |data| <= PACKET_SIZE
    ensures Deadlocked(Run(Start(true, pool, pktBuf), ls))
  {
    var s0 := Start(true, pool, pktBuf);
    ls := PoolFills(s0, [], 0);
    hide Run;
    ls := FrameIsConsumed(s0, ls, frame);
    ls := TimersSend(s0, ls, data, MAX_PACKETS);
    Extend(s0, ls, IpTask);
    ls := ls + [IpTask];
    Extend(s0, ls, Receive(frame));
    ls := ls + [Receive(frame)];
  }

  /** lwIP sends only while it still holds the packet it was handed. */
  predicate Disciplined(s: State, l: Label) {
    l.Output? && Enabled(s, l) ==> s.ip.h != []
  }

  predicate AlwaysDisciplined(s: State, ls: seq<Label>)
    decreases |ls|
  {
    ls == [] || (Disciplined(s, ls[0]) && AlwaysDisciplined(Step(s, ls[0]), ls[1..]))
  }

  /** What that discipline keeps. */
  ghost predicate Spare(s: State) {
    |s.transmit| < MAX_PACKETS && (s.ip.Emit? || s.ip.Emitted? ==> s.ip.h != [])
  }

  lemma StepKeepsSpare(s: State, l: Label)
    requires Inv(s) && Spare(s) && Disciplined(s, l)
    ensures Spare(Step(s, l))
  {
    hide Owned, Carrying, Data, Put, Reply, IsPing, Wiped;
  }

  lemma SpareNoDeadlock(s: State)
    requires Inv(s) && Spare(s)
    ensures !Deadlocked(s)
  {
    hide Owned, Carrying;
  }

  /** With lwIP, and in general, there is no deadlock on any run on which lwIP sends only while it holds its
      input packet: the counterpart of `DeadlockReachable`, where it sends holding none. */
  lemma {:induction false} NoDeadlockWhenDisciplined(s: State, ls: seq<Label>)
    requires Inv(s) && Spare(s) && AlwaysDisciplined(s, ls)
    ensures !Deadlocked(Run(s, ls)) && |Run(s, ls).transmit| < MAX_PACKETS
    decreases |ls|
  {
    hide Inv, Spare, Step, Disciplined, Deadlocked;
    if ls == [] {
      SpareNoDeadlock(s);
      SpareRoom(s);
    } else {
      StepKeepsSpare(s, ls[0]);
      StepKeeps(s, ls[0]);
      NoDeadlockWhenDisciplined(Step(s, ls[0]), ls[1..]);
    }
  }

  lemma SpareRoom(s: State)
    requires Spare(s)
    ensures |s.transmit| < MAX_PACKETS
  {
  }

  /** In other words: every run from the start that deadlocks contains an output without an input packet,
      and there are such runs. */
  lemma DeadlockExact(pool: Pool, pktBuf: Storage, ls: seq<Label>)
    requires Deadlocked(Run(Start(true, pool, pktBuf), ls))
    ensures !AlwaysDisciplined(Start(true, pool, pktBuf), ls)
  {
    var s0 := Start(true, pool, pktBuf);
    StartInv(true, pool, pktBuf);
    if AlwaysDisciplined(s0, ls) {
      NoDeadlockWhenDisciplined(s0, ls);
    }
  }
}
