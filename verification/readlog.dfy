/** A record of the calls of enc28_read_packet, and what it says about the frames the chip took in.

    Frames are numbered in the order the chip took them in.  A call is about the oldest frame not delivered;
    how far the chip had got at the moments that matter is given as the number of frames taken in by then. */
module ReadLog {
  import opened Bytes
  import opened RxRing

  datatype CommandStatus =
    | OK | INVALID_REGISTER | INVALID_PARAM | NO_DATA | READ_PTR_OUT_OF_RANGE | BUFFER_TOO_SMALL
    | PACKET_RCV_ERR | PACKET_TX_IN_PROGRESS | PACKET_TX_ABORTED

  /** What a call did with the ring. */
  datatype Outcome =
    | Nothing
    // the oldest frame: its head was read, then its body, then the limit was moved past it
    | Took(first: nat, head: nat, body: nat, upTo: nat)
    // the pointer in the head was not that of the next record any more
    | Misled(first: nat, head: nat)
    | Refused(first: nat, head: nat)
    // the limit went to the end of the ring, with the oldest frame at `oldest` and the chip writing at `wr`
    | Reset(first: nat, upTo: nat, oldest: nat, wr: nat)
    // driver and chip were not in step when the call began
    | Astray

  datatype ReadEntry = ReadEntry(status: CommandStatus, outcome: Outcome, packet: seq<Byte>)

  predicate Numbered(o: Outcome) { o.Took? || o.Misled? || o.Refused? || o.Reset? }

  function Earliest(o: Outcome): nat
    requires Numbered(o)
  {
    if o.Reset? then o.upTo else o.head
  }

  function Latest(o: Outcome): nat
    requires Numbered(o)
  {
    if o.Took? || o.Reset? then o.upTo else o.head
  }

  predicate Ranged(o: Outcome, n: nat) {
    Numbered(o) ==>
      && o.first <= Earliest(o) <= Latest(o) <= n
      && (!o.Reset? ==> o.first < o.head)
      && (o.Took? ==> o.head <= o.body <= o.upTo)
  }

  /** The room frames number `a` to `b` take in the ring. */
  function Spanning(accepted: seq<Frame>, a: nat, b: nat): nat {
    if a <= b <= |accepted| then Span(accepted[a..b]) else 0
  }

  /** The ring could hold what waited when the head was read: the head was intact. */
  predicate HeadFits(o: Outcome, accepted: seq<Frame>) {
    o.Took? || o.Misled? || o.Refused? ==> Spanning(accepted, o.first, o.head) <= SIZE
  }

  /** And when the body was read, the chip had at most come round to the head before it. */
  predicate Intact(o: Outcome, accepted: seq<Frame>) {
    o.Took? ==> Spanning(accepted, o.first, o.head) <= SIZE && Spanning(accepted, o.first, o.body) <= SIZE + 6
  }

  /** The call left driver and chip in step. */
  predicate InStep(o: Outcome) { o.Nothing? || o.Took? || o.Reset? }

  /** A receive error was handled while a frame waited. */
  predicate Raced(o: Outcome) { o.Reset? && o.first < o.upTo }

  /** A frame was refused: marked bad by the chip, or longer than the buffer. */
  predicate IsRefusal(status: CommandStatus, bufSize: nat, f: Frame) {
    && status == (if !Bit(f.status, 7) then PACKET_RCV_ERR else BUFFER_TOO_SMALL)
    && (Bit(f.status, 7) ==> |f.data| > bufSize)
  }

  /** What an entry says, if before the call `n` frames had been delivered and `t` taken in. */
  predicate Entered(e: ReadEntry, n: nat, t: nat, accepted: seq<Frame>, bufSize: nat) {
    var o := e.outcome;
    && Ranged(o, |accepted|)
    && (!o.Astray? ==>
          && (e.status == OK <==> o.Took? || o.Misled?) && (e.status == NO_DATA <==> o.Nothing?)
          && (o.Reset? ==> e.status == PACKET_RCV_ERR) && e.status != READ_PTR_OUT_OF_RANGE
          && (Numbered(o) ==> o.first == n && t <= Earliest(o))
          && (o.Took? && Intact(o, accepted) ==> e.packet == accepted[o.first].data)
          && (o.Misled? ==> !HeadFits(o, accepted))
          && (o.Refused? && HeadFits(o, accepted) ==> IsRefusal(e.status, bufSize, accepted[o.first])))
  }

  lemma SpanningStays(accepted: seq<Frame>, accepted': seq<Frame>, a: nat, b: nat)
    requires accepted <= accepted' && b <= |accepted|
    ensures Spanning(accepted', a, b) == Spanning(accepted, a, b)
  {
    if a <= b { assert accepted'[a..b] == accepted[a..b]; }
  }

  lemma SpanningAt(accepted: seq<Frame>, accepted': seq<Frame>, a: nat)
    requires accepted <= accepted' && a <= |accepted|
    ensures Spanning(accepted', a, |accepted|) == Span(accepted[a..])
  {
    assert accepted'[a..|accepted|] == accepted[a..];
  }

  /** Room taken only grows. */
  lemma SpanningGrows(accepted: seq<Frame>, a: nat, b: nat, b': nat)
    requires a <= b <= b' <= |accepted|
    ensures Spanning(accepted, a, b) <= Spanning(accepted, a, b')
  {
    assert accepted[a..b] == accepted[a..b'][..b - a];
    SpanMore(accepted[a..b'], b - a);
  }

  /** Frames taken in later do not change what a call did. */
  lemma OutcomeStays(o: Outcome, accepted: seq<Frame>, accepted': seq<Frame>)
    requires accepted <= accepted' && Ranged(o, |accepted|)
    ensures Ranged(o, |accepted'|)
    ensures HeadFits(o, accepted') == HeadFits(o, accepted) && Intact(o, accepted') == Intact(o, accepted)
  {
    if o.Took? || o.Misled? || o.Refused? { SpanningStays(accepted, accepted', o.first, o.head); }
    if o.Took? { SpanningStays(accepted, accepted', o.first, o.body); }
  }

  lemma EnteredStays(e: ReadEntry, n: nat, t: nat, accepted: seq<Frame>, accepted': seq<Frame>, bufSize: nat)
    requires accepted <= accepted' && Entered(e, n, t, accepted, bufSize)
    ensures Entered(e, n, t, accepted', bufSize)
  {
    hide HeadFits, Intact, IsRefusal;
    OutcomeStays(e.outcome, accepted, accepted');
  }

  // ---------------------------------------------------------------- the calls since a moment

  /** A moment: how many calls had been made, frames delivered and taken in, and whether the limit was tight. */
  datatype Moment = Moment(call: nat, frame: nat, taken: nat, tight: bool)

  function TookIn(es: seq<ReadEntry>): nat {
    if es == [] then 0 else TookIn(es[..|es| - 1]) + (if es[|es| - 1].outcome.Took? then 1 else 0)
  }

  /** How many frames had been taken in when last one of the calls looked. */
  function LastTaken(es: seq<ReadEntry>, t: nat): nat {
    if es == [] then t
    else
      var o := es[|es| - 1].outcome;
      if Numbered(o) then Latest(o) else LastTaken(es[..|es| - 1], t)
  }

  function Statuses(es: seq<ReadEntry>): (ss: seq<CommandStatus>)
    ensures |ss| == |es| && forall i :: 0 <= i < |es| ==> ss[i] == es[i].status
  {
    seq(|es|, i requires 0 <= i < |es| => es[i].status)
  }

  lemma OneMoreStatus(es: seq<ReadEntry>, e: ReadEntry)
    ensures Statuses(es + [e]) == Statuses(es) + [e.status]
  {
  }

  /** The packets the calls returned. */
  function Packets(es: seq<ReadEntry>): seq<seq<Byte>> {
    if es == [] then []
    else Packets(es[..|es| - 1]) + (if es[|es| - 1].status == OK then [es[|es| - 1].packet] else [])
  }

  /** The bytes of frames. */
  function Payloads(fs: seq<Frame>): (ps: seq<seq<Byte>>)
    ensures |ps| == |fs|
  {
    seq(|fs|, i requires 0 <= i < |fs| => fs[i].data)
  }

  predicate AllInStep(es: seq<ReadEntry>) {
    forall i :: 0 <= i < |es| ==> InStep(es[i].outcome)
  }

  /** Every call returned OK or NO_DATA. */
  predicate NoErrors(es: seq<ReadEntry>) {
    forall i :: 0 <= i < |es| ==> es[i].status in {OK, NO_DATA}
  }

  /** No receive error was handled while a frame waited. */
  predicate NoRace(es: seq<ReadEntry>) {
    forall i :: 0 <= i < |es| ==> !Raced(es[i].outcome)
  }

  /** The ring could hold what waited whenever a head was read. */
  predicate HeadsFit(es: seq<ReadEntry>, accepted: seq<Frame>) {
    forall i :: 0 <= i < |es| ==> HeadFits(es[i].outcome, accepted)
  }

  predicate AllIntact(es: seq<ReadEntry>, accepted: seq<Frame>) {
    forall i :: 0 <= i < |es| ==> Intact(es[i].outcome, accepted)
  }

  /** From frame `n` on, every frame is marked as received without error and fits the buffer. */
  predicate AllDeliverable(accepted: seq<Frame>, n: nat, bufSize: nat) {
    forall i :: n <= i < |accepted| ==> Bit(accepted[i].status, 7) && |accepted[i].data| <= bufSize
  }

  /** An entry says what a call in its place can say: about the frame whose turn it was, not before anything
      recorded earlier; and calls are astray from the first one on that got out of step. */
  predicate EntryAt(es: seq<ReadEntry>, k: nat, m: Moment, accepted: seq<Frame>, bufSize: nat)
    requires k < |es|
  {
    && Entered(es[k], m.frame + TookIn(es[..k]), LastTaken(es[..k], m.taken), accepted, bufSize)
    && (es[k].outcome.Astray? <==> !AllInStep(es[..k]))
  }

  predicate Entries(es: seq<ReadEntry>, m: Moment, accepted: seq<Frame>, bufSize: nat) {
    forall k :: 0 <= k < |es| ==> EntryAt(es, k, m, accepted, bufSize)
  }

  /** When driver and chip are in step after these calls, given that they were before: if and only if no
      frame was refused and no pointer misled the driver.  It is enough that every call returned OK or
      NO_DATA; or that all frames are good and fit the buffer, and either no receive error was handled
      while a frame waited, or the ring could hold what waited whenever a head was read.  In the first two
      cases every packet is intact as well. */
  predicate Explains(es: seq<ReadEntry>, m: Moment, accepted: seq<Frame>, delivered: nat, bufSize: nat,
                     synced: bool, tightNow: bool) {
    && Entries(es, m, accepted, bufSize) && LastTaken(es, m.taken) <= |accepted|
    && (synced <==> AllInStep(es))
    && (synced ==> delivered == m.frame + TookIn(es))
    && (m.tight && NoErrors(es) ==> synced && tightNow && AllIntact(es, accepted))
    && (m.tight && AllDeliverable(accepted, m.frame, bufSize) && NoRace(es) ==>
          synced && tightNow && AllIntact(es, accepted))
    && (AllDeliverable(accepted, m.frame, bufSize) && HeadsFit(es, accepted) ==> synced)
  }

  /** What one more call does to that. */
  predicate Follows(e: ReadEntry, synced: bool, tightNow: bool, synced': bool, tightNow': bool,
                    accepted: seq<Frame>) {
    var o := e.outcome;
    && (o.Astray? <==> !synced) && (synced' <==> InStep(o))
    && (synced && tightNow ==> HeadFits(o, accepted) && Intact(o, accepted) && (o.Took? ==> tightNow'))
    && (o.Nothing? ==> tightNow' == tightNow)
    && (o.Reset? && !Raced(o) ==> tightNow')
  }

  /** A good frame that fits the buffer is not refused while its head is intact. */
  lemma NotRefused(e: ReadEntry, n: nat, t: nat, accepted: seq<Frame>, bufSize: nat, from: nat)
    requires Entered(e, n, t, accepted, bufSize) && from <= n
    requires AllDeliverable(accepted, from, bufSize) && HeadFits(e.outcome, accepted)
    ensures !e.outcome.Refused? && !e.outcome.Misled?
  {
  }

  lemma EnteredElsewhere(e: ReadEntry, n: nat, n': nat, t: nat, t': nat, accepted: seq<Frame>, bufSize: nat)
    requires Entered(e, n, t, accepted, bufSize) && t' <= t && (e.outcome.Astray? || n' == n)
    ensures Entered(e, n', t', accepted, bufSize)
  {
  }

  lemma LastTakenBound(e: ReadEntry, n: nat, t: nat, accepted: seq<Frame>, bufSize: nat)
    requires Entered(e, n, t, accepted, bufSize)
    ensures Numbered(e.outcome) ==> Latest(e.outcome) <= |accepted|
  {
  }

  lemma EntriesMore(es: seq<ReadEntry>, e: ReadEntry, m: Moment, accepted: seq<Frame>, bufSize: nat)
    requires Entries(es, m, accepted, bufSize)
    requires Entered(e, m.frame + TookIn(es), LastTaken(es, m.taken), accepted, bufSize)
    requires e.outcome.Astray? <==> !AllInStep(es)
    ensures Entries(es + [e], m, accepted, bufSize)
  {
    hide EntryAt;
    var all := es + [e];
    forall k | 0 <= k < |all| ensures EntryAt(all, k, m, accepted, bufSize) {
      if k < |es| { SamePlace(es, e, k, m, accepted, bufSize); } else { LastPlace(es, e, m, accepted, bufSize); }
    }
  }

  lemma SamePlace(es: seq<ReadEntry>, e: ReadEntry, k: nat, m: Moment, accepted: seq<Frame>, bufSize: nat)
    requires k < |es|
    ensures EntryAt(es + [e], k, m, accepted, bufSize) == EntryAt(es, k, m, accepted, bufSize)
  {
    assert (es + [e])[..k] == es[..k] && (es + [e])[k] == es[k];
  }

  lemma LastPlace(es: seq<ReadEntry>, e: ReadEntry, m: Moment, accepted: seq<Frame>, bufSize: nat)
    requires Entered(e, m.frame + TookIn(es), LastTaken(es, m.taken), accepted, bufSize)
    requires e.outcome.Astray? <==> !AllInStep(es)
    ensures EntryAt(es + [e], |es|, m, accepted, bufSize)
  {
    hide Entered, AllInStep, TookIn, LastTaken;
    assert (es + [e])[..|es|] == es && (es + [e])[|es|] == e;
  }

  lemma OneMore(es: seq<ReadEntry>, e: ReadEntry, t: nat)
    ensures TookIn(es + [e]) == TookIn(es) + (if e.outcome.Took? then 1 else 0)
    ensures LastTaken(es + [e], t) == if Numbered(e.outcome) then Latest(e.outcome) else LastTaken(es, t)
    ensures Packets(es + [e]) == Packets(es) + (if e.status == OK then [e.packet] else [])
  {
    assert (es + [e])[..|es|] == es;
  }

  /** Frames taken in later do not change what the calls did. */
  lemma EntriesStay(es: seq<ReadEntry>, m: Moment, accepted: seq<Frame>, accepted': seq<Frame>, bufSize: nat)
    requires accepted <= accepted' && Entries(es, m, accepted, bufSize)
    ensures Entries(es, m, accepted', bufSize)
    ensures AllIntact(es, accepted') == AllIntact(es, accepted) && HeadsFit(es, accepted') == HeadsFit(es, accepted)
  {
    hide Entered, InStep, AllInStep, HeadFits, Intact;
    forall k | 0 <= k < |es|
      ensures EntryAt(es, k, m, accepted', bufSize)
      ensures HeadFits(es[k].outcome, accepted') == HeadFits(es[k].outcome, accepted)
      ensures Intact(es[k].outcome, accepted') == Intact(es[k].outcome, accepted)
    {
      assert EntryAt(es, k, m, accepted, bufSize);
      var n, t := m.frame + TookIn(es[..k]), LastTaken(es[..k], m.taken);
      EnteredStays(es[k], n, t, accepted, accepted', bufSize);
      EnteredRanged(es[k], n, t, accepted, bufSize);
      OutcomeStays(es[k].outcome, accepted, accepted');
    }
  }

  lemma EnteredRanged(e: ReadEntry, n: nat, t: nat, accepted: seq<Frame>, bufSize: nat)
    requires Entered(e, n, t, accepted, bufSize)
    ensures Ranged(e.outcome, |accepted|)
  {
  }

  lemma ExplainsLater(es: seq<ReadEntry>, m: Moment, accepted: seq<Frame>, accepted': seq<Frame>,
                      delivered: nat, bufSize: nat, synced: bool, tightNow: bool)
    requires accepted <= accepted' && Explains(es, m, accepted, delivered, bufSize, synced, tightNow)
    ensures Explains(es, m, accepted', delivered, bufSize, synced, tightNow)
  {
    hide Entries, AllInStep, NoErrors, NoRace;
    EntriesStay(es, m, accepted, accepted', bufSize);
    DeliverableBefore(accepted, accepted', m.frame, bufSize);
  }

  lemma DeliverableBefore(accepted: seq<Frame>, accepted': seq<Frame>, n: nat, bufSize: nat)
    requires accepted <= accepted'
    ensures AllDeliverable(accepted', n, bufSize) ==> AllDeliverable(accepted, n, bufSize)
  {
    assert forall i :: 0 <= i < |accepted| ==> accepted[i] == accepted'[i];
  }

  lemma ExplainsMore(es: seq<ReadEntry>, e: ReadEntry, m: Moment, accepted: seq<Frame>, accepted': seq<Frame>,
                     delivered: nat, delivered': nat, bufSize: nat,
                     synced: bool, tightNow: bool, synced': bool, tightNow': bool)
    requires accepted <= accepted' && Explains(es, m, accepted, delivered, bufSize, synced, tightNow)
    requires Entered(e, delivered, |accepted|, accepted', bufSize)
    requires Follows(e, synced, tightNow, synced', tightNow', accepted')
    requires delivered' == delivered + if e.outcome.Took? then 1 else 0
    ensures Explains(es + [e], m, accepted', delivered', bufSize, synced', tightNow')
  {
    hide Entries, Entered, HeadFits, Intact, Raced, AllDeliverable, Ranged, AllInStep, NoErrors, NoRace, AllIntact,
         HeadsFit, TookIn, LastTaken;
    ExplainsLater(es, m, accepted, accepted', delivered, bufSize, synced, tightNow);
    EnteredElsewhere(e, delivered, m.frame + TookIn(es), |accepted|, LastTaken(es, m.taken), accepted', bufSize);
    EntriesMore(es, e, m, accepted', bufSize);
    OneMore(es, e, m.taken);
    LastTakenBound(e, delivered, |accepted|, accepted', bufSize);
    ForallMore(es, e, accepted');
    StillInStep(e, delivered, |accepted|, m, accepted', bufSize, synced, tightNow, synced', tightNow');
  }

  lemma ForallMore(es: seq<ReadEntry>, e: ReadEntry, accepted: seq<Frame>)
    ensures AllInStep(es + [e]) <==> AllInStep(es) && InStep(e.outcome)
    ensures NoErrors(es + [e]) <==> NoErrors(es) && e.status in {OK, NO_DATA}
    ensures NoRace(es + [e]) <==> NoRace(es) && !Raced(e.outcome)
    ensures AllIntact(es + [e], accepted) <==> AllIntact(es, accepted) && Intact(e.outcome, accepted)
    ensures HeadsFit(es + [e], accepted) <==> HeadsFit(es, accepted) && HeadFits(e.outcome, accepted)
  {
    hide InStep, Raced, Intact, HeadFits;
    var all := es + [e];
    assert all[|es|] == e && forall i :: 0 <= i < |es| ==> all[i] == es[i];
  }

  lemma StillInStep(e: ReadEntry, n: nat, t: nat, m: Moment, accepted: seq<Frame>, bufSize: nat,
                    synced: bool, tightNow: bool, synced': bool, tightNow': bool)
    requires Entered(e, n, t, accepted, bufSize) && Follows(e, synced, tightNow, synced', tightNow', accepted)
    requires synced ==> m.frame <= n
    ensures synced && tightNow && e.status in {OK, NO_DATA} ==> synced' && tightNow' && Intact(e.outcome, accepted)
    ensures synced && tightNow && AllDeliverable(accepted, m.frame, bufSize) && !Raced(e.outcome) ==>
              synced' && tightNow' && Intact(e.outcome, accepted)
    ensures synced && AllDeliverable(accepted, m.frame, bufSize) && HeadFits(e.outcome, accepted) ==> synced'
  {
    hide HeadFits, Intact, AllDeliverable, IsRefusal;
    if synced && AllDeliverable(accepted, m.frame, bufSize) && HeadFits(e.outcome, accepted) {
      NotRefused(e, n, t, accepted, bufSize, m.frame);
    }
  }

  lemma StartExplained(m: Moment, accepted: seq<Frame>, bufSize: nat, tightNow: bool)
    requires m.taken <= |accepted| && (m.tight ==> tightNow)
    ensures Explains([], m, accepted, m.frame, bufSize, true, tightNow)
  {
  }

  // ---------------------------------------------------------------- first in, first out

  /** Frames number `a` to `b`. */
  function Slice(accepted: seq<Frame>, a: nat, b: nat): seq<Frame> {
    if a <= b <= |accepted| then accepted[a..b] else []
  }

  lemma PayloadsNext(accepted: seq<Frame>, a: nat, b: nat)
    requires a <= b < |accepted|
    ensures Payloads(Slice(accepted, a, b + 1)) == Payloads(Slice(accepted, a, b)) + [accepted[b].data]
  {
    assert accepted[a..b + 1] == accepted[a..b] + [accepted[b]];
  }

  /** While driver and chip stayed in step and every packet was intact, the packets returned are, byte for
      byte and in order, the frames the chip took in, from the first one not delivered before. */
  lemma {:induction false} PacketsAreFrames(es: seq<ReadEntry>, m: Moment, accepted: seq<Frame>, bufSize: nat)
    requires Entries(es, m, accepted, bufSize) && AllInStep(es) && AllIntact(es, accepted)
    ensures Packets(es) == Payloads(Slice(accepted, m.frame, m.frame + TookIn(es)))
    decreases |es|
  {
    hide Entered, EntryAt, Intact, InStep, Slice, Payloads;
    if es == [] {
      NoPayload(accepted, m.frame);
    } else {
      var k := |es| - 1;
      EntriesBefore(es, m, accepted, bufSize, k);
      PacketsAreFrames(es[..k], m, accepted, bufSize);
      LastIntact(es, m, accepted, bufSize);
      if es[k].outcome.Took? { PayloadsNext(accepted, m.frame, m.frame + TookIn(es[..k])); }
    }
  }

  lemma NoPayload(accepted: seq<Frame>, n: nat)
    ensures Payloads(Slice(accepted, n, n)) == []
  {
  }

  lemma LastIntact(es: seq<ReadEntry>, m: Moment, accepted: seq<Frame>, bufSize: nat)
    requires es != [] && Entries(es, m, accepted, bufSize) && AllInStep(es) && AllIntact(es, accepted)
    ensures var k, n := |es| - 1, m.frame + TookIn(es[..|es| - 1]);
            && (es[k].status == OK <==> es[k].outcome.Took?)
            && (es[k].outcome.Took? ==> n < |accepted| && es[k].packet == accepted[n].data)
  {
    hide Entered, Intact, InStep;
    var k := |es| - 1;
    assert EntryAt(es, k, m, accepted, bufSize);
    IntactPacket(es[k], m.frame + TookIn(es[..k]), LastTaken(es[..k], m.taken), accepted, bufSize);
  }

  lemma IntactPacket(e: ReadEntry, n: nat, t: nat, accepted: seq<Frame>, bufSize: nat)
    requires Entered(e, n, t, accepted, bufSize) && InStep(e.outcome) && Intact(e.outcome, accepted)
    ensures e.status == OK <==> e.outcome.Took?
    ensures e.outcome.Took? ==> n < |accepted| && e.packet == accepted[n].data
  {
  }

  lemma EntriesBefore(es: seq<ReadEntry>, m: Moment, accepted: seq<Frame>, bufSize: nat, k: nat)
    requires k <= |es| && Entries(es, m, accepted, bufSize) && AllInStep(es) && AllIntact(es, accepted)
    ensures Entries(es[..k], m, accepted, bufSize) && AllInStep(es[..k]) && AllIntact(es[..k], accepted)
  {
    hide Entered, InStep, Intact;
    forall i | 0 <= i < k ensures EntryAt(es[..k], i, m, accepted, bufSize) {
      assert EntryAt(es, i, m, accepted, bufSize);
      assert es[..k][..i] == es[..i];
    }
  }

  /** In step and intact, so first in, first out; and it is enough that no call reported an error. */
  lemma FirstInFirstOut(es: seq<ReadEntry>, m: Moment, accepted: seq<Frame>, delivered: nat, bufSize: nat,
                        synced: bool, tightNow: bool)
    requires Explains(es, m, accepted, delivered, bufSize, synced, tightNow)
    ensures synced && AllIntact(es, accepted) ==> Packets(es) == Payloads(Slice(accepted, m.frame, delivered))
    ensures m.tight && NoErrors(es) ==> synced && Packets(es) == Payloads(Slice(accepted, m.frame, delivered))
    ensures m.tight && AllDeliverable(accepted, m.frame, bufSize) && NoRace(es) ==>
              synced && Packets(es) == Payloads(Slice(accepted, m.frame, delivered))
  {
    hide Entries, AllInStep, AllIntact, NoErrors, NoRace, Payloads, Slice;
    if synced && AllIntact(es, accepted) { PacketsAreFrames(es, m, accepted, bufSize); }
  }
}
