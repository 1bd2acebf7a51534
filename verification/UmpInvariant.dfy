/** The joint invariant of the UMP channel: unbounded message counts explain the 16-bit indices, the
  * epoch bits and the contents of both rings. */
module UmpInvariant {
  import opened RingArith
  import opened UmpWords
  import opened UmpChannel

  /** What the first `r` messages of `sent` acknowledge. */
  function Covered(sent: seq<Sent>, r: nat): nat
    requires r <= |sent|
  {
    if r == 0 then 0 else sent[r - 1].ack
  }

  /** Number of peer messages this side has acknowledged. */
  function AckSent(side: Side): nat {
    Covered(side.sent, |side.sent|)
  }

  /** Number of slots this side has claimed from the peer's ring. */
  function ClaimCount(side: Side): nat {
    |side.got| + if side.end.pc.Claimed? then 1 else 0
  }

  ghost predicate SenderIndices(snd: Side) {
    var n := |snd.ring|;
    && 0 < n <= 65534
    && snd.end.nextId == Wrap(|snd.sent| + 1)
    && snd.end.txPos == Pos(|snd.sent|, n)
    && snd.end.txEpoch == OddLap(|snd.sent|, n)
    && (forall j | 0 <= j < n :: |snd.ring[j].data| == PAYLOAD_WORDS)
  }

  ghost predicate ReceiverIndices(snd: Side, rcv: Side) {
    var n := |snd.ring|;
    && 0 < n
    && ClaimCount(rcv) <= |snd.sent|
    && rcv.end.rxPos == Pos(ClaimCount(rcv), n)
    && rcv.end.rxEpoch == OddLap(ClaimCount(rcv), n)
    && rcv.end.seqId == Wrap(|rcv.got|)
    && (rcv.end.pc.Claimed? ==> rcv.end.pc.slot == Pos(|rcv.got|, n))
  }

  /** The last `n` control words sent are in the ring; slots never used still hold zero. */
  ghost predicate ControlWindow(sent: seq<Sent>, ring: seq<Slot>) {
    var n := |ring|;
    && 0 < n
    && (forall i: nat | |sent| - n <= i < |sent| ::
          ring[Pos(i, n)].ctrl == Pack(sent[i].tag, Wrap(sent[i].ack), OddLap(i, n)))
    && (forall j | |sent| <= j < n :: ring[j].ctrl == 0)
  }

  /** Every payload from message `from` on is intact. */
  ghost predicate PayloadWindow(sent: seq<Sent>, ring: seq<Slot>, from: nat) {
    && 0 < |ring|
    && forall i: nat | from <= i < |sent| :: ring[Pos(i, |ring|)].data == sent[i].data
  }

  /** Acknowledgements never run ahead of what was received, and never go back. */
  ghost predicate AcksOrdered(side: Side) {
    && (forall j | 0 <= j < |side.sent| :: side.sent[j].ack <= |side.got| && side.sent[j].tag <= ACK_TAG)
    && (forall j, k | 0 <= j < k < |side.sent| :: side.sent[j].ack <= side.sent[k].ack)
    && side.end.lastAck == Wrap(AckSent(side))
  }

  /** The sender never holds more than `n` unacknowledged messages, by the acknowledgements it has read. */
  ghost predicate FlowControl(snd: Side, rcv: Side) {
    var n := |snd.ring|;
    && |snd.got| <= |rcv.sent|
    && snd.end.ackId == Wrap(Covered(rcv.sent, |snd.got|))
    && |snd.sent| <= Covered(rcv.sent, |snd.got|) + n
    && (snd.end.pc.Filling? ==> |snd.sent| < Covered(rcv.sent, |snd.got|) + n)
  }

  /** Each message was sent into a free slot, by the acknowledgements its sender had read at the time. */
  ghost predicate SentIntoFreeSlots(sent: seq<Sent>, acks: seq<Sent>, n: nat) {
    && (forall i | 0 <= i < |sent| :: sent[i].ack <= |acks|)
    && (forall i {:trigger Covered(acks, sent[i].ack)} | 0 <= i < |sent| :: i < Covered(acks, sent[i].ack) + n)
  }

  /** What was received is what was sent, in order. */
  ghost predicate Faithful(snd: Side, rcv: Side) {
    && |rcv.got| <= |snd.sent|
    && forall i | 0 <= i < |rcv.got| :: rcv.got[i] == Got(snd.sent[i].tag, snd.sent[i].data)
  }

  ghost predicate Link(snd: Side, rcv: Side) {
    && SenderIndices(snd)
    && ReceiverIndices(snd, rcv)
    && ControlWindow(snd.sent, snd.ring)
    && PayloadWindow(snd.sent, snd.ring, AckSent(rcv))
    && AcksOrdered(snd)
    && FlowControl(snd, rcv)
    && SentIntoFreeSlots(snd.sent, rcv.sent, |snd.ring|)
    && Faithful(snd, rcv)
  }

  predicate HoldsWake(e: End) {
    e.pc.Rechecking? || e.pc.Aborting? || e.pc.Asleep? || e.pc.Waking?
  }

  predicate Unread(side: Side, peer: Side) {
    |side.got| < |peer.sent|
  }

  predicate AboutToNotify(e: End) {
    e.pc.Submitted? || e.pc.Notifying?
  }

  ghost predicate WakeInv(s: State) {
    && s.me.end.discriminant != s.peer.end.discriminant
    && (s.wake == OwnWait(s.me.end) <==> HoldsWake(s.me.end))
    && (s.wake == OwnWait(s.peer.end) <==> HoldsWake(s.peer.end))
    && (s.me.end.pc.Asleep? && Unread(s.me, s.peer) ==> s.me.wakeup || AboutToNotify(s.peer.end))
    && (s.peer.end.pc.Asleep? && Unread(s.peer, s.me) ==> s.peer.wakeup || AboutToNotify(s.me.end))
  }

  ghost predicate Inv(s: State) {
    && Link(s.me, s.peer) && Link(s.peer, s.me)
    && WakeInv(s)
  }

  lemma InvSwap(s: State)
    ensures Inv(s) <==> Inv(Swap(s))
  {
  }

  lemma InvInit(s: State)
    requires Init(s) && |s.me.ring| <= 65534 && |s.peer.ring| <= 65534
    ensures Inv(s)
  {
  }

  /** Acknowledgements covered grow with the number of messages read. */
  lemma CoveredMonotone(side: Side, a: nat, b: nat)
    requires AcksOrdered(side) && a <= b <= |side.sent|
    ensures Covered(side.sent, a) <= Covered(side.sent, b) <= |side.got|
  {
  }

  /** The epoch test succeeds exactly when a message has been sent that was not yet claimed. */
  lemma CanReceiveIsExact(snd: Side, rcv: Side)
    requires Link(snd, rcv) && Link(rcv, snd)
    ensures rcv.end.rxPos < |snd.ring|
    ensures CanReceive(rcv.end, snd.ring) <==> ClaimCount(rcv) < |snd.sent|
  {
    hide SentIntoFreeSlots, Pos, OddLap, Pack, TagOf, IndexOf, EpochOf, Wrap, Covered;
    var n, c := |snd.ring|, ClaimCount(rcv);
    WithinWindow(snd, rcv);
    if c < |snd.sent| {
      ControlAt(snd, c);
    } else if c < n {
      FirstLap(c, n);
      ZeroIsEvenLap();
    } else {
      NextLap(c - n, n);
      ControlAt(snd, c - n);
    }
  }

  lemma ZeroIsEvenLap()
    ensures !EpochOf(0)
  {
  }

  lemma WithinWindow(snd: Side, rcv: Side)
    requires FlowControl(snd, rcv) && AcksOrdered(rcv)
    ensures |snd.sent| <= AckSent(rcv) + |snd.ring| <= |rcv.got| + |snd.ring|
    ensures snd.end.pc.Filling? ==> |snd.sent| < AckSent(rcv) + |snd.ring|
  {
  }

  lemma ControlAt(snd: Side, i: nat)
    requires SenderIndices(snd) && ControlWindow(snd.sent, snd.ring) && AcksOrdered(snd)
    requires |snd.sent| - |snd.ring| <= i < |snd.sent|
    ensures var raw := snd.ring[Pos(i, |snd.ring|)].ctrl;
            TagOf(raw) == snd.sent[i].tag && IndexOf(raw) == Wrap(snd.sent[i].ack)
            && EpochOf(raw) == OddLap(i, |snd.ring|)
  {
    PackRoundTrip(snd.sent[i].tag, Wrap(snd.sent[i].ack), OddLap(i, |snd.ring|));
  }

  lemma InvIsSane(s: State)
    requires Inv(s)
    ensures Sane(s)
  {
  }

  // ----- each action of `me` keeps the invariant -----

  /** Nothing changed that matters to a sender. */
  ghost predicate SameSender(a: Side, a': Side) {
    && a'.ring == a.ring && a'.sent == a.sent && a'.got == a.got
    && a'.end.nextId == a.end.nextId && a'.end.ackId == a.end.ackId && a'.end.lastAck == a.end.lastAck
    && a'.end.txPos == a.end.txPos && a'.end.txEpoch == a.end.txEpoch
  }

  /** A link stays intact while the sender's side of it and the histories do not change. */
  lemma LinkKept(snd: Side, rcv: Side, snd': Side, rcv': Side)
    requires Link(snd, rcv) && SameSender(snd, snd') && rcv'.sent == rcv.sent && rcv'.got == rcv.got
    requires ReceiverIndices(snd, rcv')
    requires snd'.end.pc.Filling? ==> snd.end.pc.Filling? || HasRoom(snd, rcv)
    ensures Link(snd', rcv')
  {
    hide SentIntoFreeSlots, ControlWindow, PayloadWindow, Pos, OddLap, Wrap, Covered;
  }

  /** A slot is free, by the acknowledgements the sender has read. */
  ghost predicate HasRoom(snd: Side, rcv: Side) {
    |snd.got| <= |rcv.sent| && |snd.sent| < Covered(rcv.sent, |snd.got|) + |snd.ring|
  }

  lemma SendTestMeansRoom(snd: Side, rcv: Side)
    requires Link(snd, rcv) && Link(rcv, snd) && CanSend(snd.end, |snd.ring|)
    ensures HasRoom(snd, rcv)
  {
    hide SentIntoFreeSlots, ControlWindow, PayloadWindow, ReceiverIndices, Faithful, Pos, OddLap, Wrap, CanSendTest;
    CanSendIsExact(|snd.sent|, Covered(rcv.sent, |snd.got|), |snd.ring|) by {
      CoveredMonotone(rcv, |snd.got|, |snd.got|);
      hide Covered;
    }
  }

  lemma LinkParts(snd: Side, rcv: Side)
    requires Link(snd, rcv)
    ensures ReceiverIndices(snd, rcv)
  {
  }

  lemma PrepareKeeps(s: State)
    requires Inv(s) && Enabled(s, Prepare)
    ensures Inv(Apply(s, Prepare))
  {
    hide Link, CanSend, HasRoom, Pos, OddLap, Wrap;
    var me := Apply(s, Prepare).me;
    SendTestMeansRoom(s.me, s.peer);
    LinkParts(s.me, s.peer);
    LinkParts(s.peer, s.me);
    LinkKept(s.me, s.peer, me, s.peer);
    LinkKept(s.peer, s.me, s.peer, me);
  }

  lemma WriteWordKeeps(s: State, w: nat, v: int)
    requires Inv(s) && Enabled(s, WriteWord(w, v))
    ensures Inv(Apply(s, WriteWord(w, v)))
  {
    hide SentIntoFreeSlots, Pos, OddLap, Pack, TagOf, IndexOf, EpochOf, Wrap, Covered;
    var s' := Apply(s, WriteWord(w, v));
    var n := |s.me.ring|;
    WithinWindow(s.me, s.peer);
    forall i: nat | AckSent(s.peer) <= i < |s.me.sent|
      ensures s'.me.ring[Pos(i, n)].data == s.me.sent[i].data
    {
      PosInjective(i, |s.me.sent|, n);
    }
  }

  lemma SubmitKeeps(s: State, tag: nat)
    requires Inv(s) && Enabled(s, Submit(tag))
    ensures Inv(Apply(s, Submit(tag)))
  {
    hide SentIntoFreeSlots, Pos, OddLap, Pack, TagOf, IndexOf, EpochOf, Wrap, Covered;
    SubmitForward(s, tag);
    SubmitBackward(s, tag);
  }

  /** The link on which the message travels. */
  lemma SubmitForward(s: State, tag: nat)
    requires Inv(s) && Enabled(s, Submit(tag))
    ensures var s' := Apply(s, Submit(tag)); Link(s'.me, s'.peer)
  {
    hide SentIntoFreeSlots, Pos, OddLap, Pack, TagOf, IndexOf, EpochOf, Wrap, Covered;
    var s' := Apply(s, Submit(tag));
    var n, k := |s.me.ring|, |s.me.sent|;
    WithinWindow(s.me, s.peer);
    PosStep(k, n);
    WrapStep(k + 1);
    SubmitControl(s, tag);
    SubmitPayload(s, tag);
    SubmitAcks(s, tag);
    SubmitFreeSlots(s, tag);
  }

  lemma SubmitControl(s: State, tag: nat)
    requires Inv(s) && Enabled(s, Submit(tag))
    ensures var s' := Apply(s, Submit(tag)); ControlWindow(s'.me.sent, s'.me.ring)
  {
    hide SentIntoFreeSlots, Pos, OddLap, Pack, TagOf, IndexOf, EpochOf, Wrap, Covered;
    var s' := Apply(s, Submit(tag));
    var n, k := |s.me.ring|, |s.me.sent|;
    forall i: nat | k + 1 - n <= i < k + 1
      ensures s'.me.ring[Pos(i, n)].ctrl == Pack(s'.me.sent[i].tag, Wrap(s'.me.sent[i].ack), OddLap(i, n))
    {
      if i < k {
        PosInjective(i, k, n);
      }
    }
    if k < n {
      FirstLap(k, n);
    }
  }

  lemma SubmitPayload(s: State, tag: nat)
    requires Inv(s) && Enabled(s, Submit(tag))
    ensures var s' := Apply(s, Submit(tag)); PayloadWindow(s'.me.sent, s'.me.ring, AckSent(s'.peer))
  {
    hide SentIntoFreeSlots, Pos, OddLap, Pack, TagOf, IndexOf, EpochOf, Wrap, Covered;
    var s' := Apply(s, Submit(tag));
    var n, k := |s.me.ring|, |s.me.sent|;
    WithinWindow(s.me, s.peer);
    forall i: nat | AckSent(s'.peer) <= i < |s'.me.sent|
      ensures s'.me.ring[Pos(i, n)].data == s'.me.sent[i].data
    {
      if i < k {
        PosInjective(i, k, n);
      }
    }
  }

  lemma SubmitAcks(s: State, tag: nat)
    requires Inv(s) && Enabled(s, Submit(tag))
    ensures var s' := Apply(s, Submit(tag)); AcksOrdered(s'.me) && AckSent(s'.me) == |s.me.got|
  {
    hide SentIntoFreeSlots, Pos, OddLap, Pack, TagOf, IndexOf, EpochOf, Wrap;
  }

  lemma SubmitFreeSlots(s: State, tag: nat)
    requires Inv(s) && Enabled(s, Submit(tag))
    ensures var s' := Apply(s, Submit(tag)); SentIntoFreeSlots(s'.me.sent, s'.peer.sent, |s'.me.ring|)
  {
    hide Pos, OddLap, Pack, TagOf, IndexOf, EpochOf, Wrap, Covered;
  }

  /** The link whose acknowledgements the message carries. */
  lemma SubmitBackward(s: State, tag: nat)
    requires Inv(s) && Enabled(s, Submit(tag))
    ensures var s' := Apply(s, Submit(tag)); Link(s'.peer, s'.me)
  {
    hide SentIntoFreeSlots, Pos, OddLap, Pack, TagOf, IndexOf, EpochOf, Wrap, Covered;
    var s' := Apply(s, Submit(tag));
    SubmitAcks(s, tag);
    CoveredAppend(s.me.sent, Sent(tag, |s.me.got|, s.me.ring[s.me.end.txPos].data), |s.peer.got|);
    CoveredMonotone(s.me, |s.me.sent|, |s.me.sent|);
    FreeSlotsAppend(s.peer.sent, s.me.sent, Sent(tag, |s.me.got|, s.me.ring[s.me.end.txPos].data), |s.peer.ring|);
  }

  lemma CoveredAppend(sent: seq<Sent>, m: Sent, r: nat)
    requires r <= |sent|
    ensures Covered(sent + [m], r) == Covered(sent, r)
  {
  }

  lemma FreeSlotsAppend(sent: seq<Sent>, acks: seq<Sent>, m: Sent, n: nat)
    requires SentIntoFreeSlots(sent, acks, n)
    ensures SentIntoFreeSlots(sent, acks + [m], n)
  {
    hide Covered;
    forall i | 0 <= i < |sent|
      ensures sent[i].ack <= |acks + [m]| && i < Covered(acks + [m], sent[i].ack) + n
    {
      CoveredAppend(acks, m, sent[i].ack);
    }
  }

  lemma PollKeeps(s: State)
    requires Inv(s) && Enabled(s, Poll)
    ensures Inv(Apply(s, Poll))
  {
    hide Link, CanReceive, PollEnd, Pos, OddLap, Wrap;
    var me := Apply(s, Poll).me;
    PollSame(s);
    PollClaims(s);
    LinkParts(s.me, s.peer);
    LinkKept(s.me, s.peer, me, s.peer);
    LinkKept(s.peer, s.me, s.peer, me);
  }

  lemma PollSame(s: State)
    requires Enabled(s, Poll)
    ensures SameSender(s.me, Apply(s, Poll).me)
    ensures var e := Apply(s, Poll).me.end; e.discriminant == s.me.end.discriminant && (e.pc.Ready? || e.pc.Claimed?)
  {
  }

  lemma PollClaims(s: State)
    requires Link(s.me, s.peer) && Link(s.peer, s.me) && Enabled(s, Poll)
    ensures ReceiverIndices(s.peer, Apply(s, Poll).me)
  {
    hide Link, CanReceive, Pos, OddLap, Wrap;
    LinkParts(s.peer, s.me);
    CanReceiveIsExact(s.peer, s.me);
    PosStep(ClaimCount(s.me), |s.peer.ring|);
  }

  lemma ReadHeaderKeeps(s: State)
    requires Inv(s) && Enabled(s, ReadHeader)
    ensures Inv(Apply(s, ReadHeader))
  {
    hide Link;
    ReadHeaderForward(s);
    ReadHeaderBackward(s);
  }

  /** The link the message came by. */
  lemma ReadHeaderForward(s: State)
    requires Inv(s) && Enabled(s, ReadHeader)
    ensures var s' := Apply(s, ReadHeader); Link(s'.peer, s'.me)
  {
    hide SentIntoFreeSlots, ControlWindow, Pos, OddLap, Pack, TagOf, IndexOf, EpochOf, Wrap;
    var r := |s.me.got|;
    CoveredMonotone(s.me, |s.peer.got|, |s.me.sent|);
    ControlAt(s.peer, r);
    WrapStep(r);
    assert s.peer.ring[Pos(r, |s.peer.ring|)].data == s.peer.sent[r].data;
  }

  /** The link whose acknowledgement the message brought. */
  lemma ReadHeaderBackward(s: State)
    requires Inv(s) && Enabled(s, ReadHeader)
    ensures var s' := Apply(s, ReadHeader); Link(s'.me, s'.peer)
  {
    hide SentIntoFreeSlots, ControlWindow, PayloadWindow, Pos, OddLap, Pack, TagOf, IndexOf, EpochOf, Wrap;
    var r := |s.me.got|;
    CoveredMonotone(s.peer, r, r + 1);
    ControlAt(s.peer, r);
    WrapStep(r);
  }

  predicate IsWaiting(a: Action) {
    !a.Prepare? && !a.WriteWord? && !a.Submit? && !a.Poll? && !a.ReadHeader?
  }

  /** Changing only the thread's position among the waiting states does not concern the rings. */
  lemma LinkFrame(a: Side, b: Side, pc: Pc, wakeupA: bool, wakeupB: bool)
    requires Link(a, b) && Link(b, a) && !a.end.pc.Claimed? && !pc.Claimed? && !pc.Filling?
    ensures var a' := a.(end := a.end.(pc := pc), wakeup := wakeupA);
            var b' := b.(wakeup := wakeupB);
            Link(a', b') && Link(b', a')
  {
    hide Link, Pos, OddLap, Wrap;
    LinkParts(a, b);
    LinkParts(b, a);
    var a', b' := a.(end := a.end.(pc := pc), wakeup := wakeupA), b.(wakeup := wakeupB);
    LinkKept(a, b, a', b');
    LinkKept(b, a, b', a');
  }

  lemma WaitingKeeps(s: State, a: Action)
    requires Inv(s) && Enabled(s, a) && IsWaiting(a)
    ensures Inv(Apply(s, a))
  {
    hide Link;
    var s' := Apply(s, a);
    LinkFrame(s.me, s.peer, s'.me.end.pc, s'.me.wakeup, s'.peer.wakeup);
    CanReceiveIsExact(s.peer, s.me);
    WaitingKeepsWake(s, a);
  }

  lemma WaitingKeepsWake(s: State, a: Action)
    requires WakeInv(s) && Enabled(s, a) && IsWaiting(a)
    requires CanReceive(s.me.end, s.peer.ring) <==> ClaimCount(s.me) < |s.peer.sent|
    ensures WakeInv(Apply(s, a))
  {
    hide CanReceive;
  }

  lemma ApplyKeeps(s: State, a: Action)
    requires Inv(s) && Enabled(s, a)
    ensures Inv(Apply(s, a))
  {
    match a
    case Prepare => PrepareKeeps(s);
    case WriteWord(w, v) => WriteWordKeeps(s, w, v);
    case Submit(tag) => SubmitKeeps(s, tag);
    case Poll => PollKeeps(s);
    case ReadHeader => ReadHeaderKeeps(s);
    case _ => WaitingKeeps(s, a);
  }

  lemma NextKeeps(s: State, s': State)
    requires Inv(s) && Next(s, s')
    ensures Inv(s')
  {
    if a :| Enabled(s, a) && s' == Apply(s, a) {
      ApplyKeeps(s, a);
    } else {
      var a :| Enabled(Swap(s), a) && s' == Swap(Apply(Swap(s), a));
      InvSwap(s);
      ApplyKeeps(Swap(s), a);
      InvSwap(Apply(Swap(s), a));
    }
  }

  lemma {:induction false} RunKeeps(t: seq<State>, i: nat)
    requires Run(t) && i < |t|
    requires |t[0].me.ring| <= 65534 && |t[0].peer.ring| <= 65534
    ensures Inv(t[i])
  {
    if i == 0 {
      InvInit(t[0]);
    } else {
      RunKeeps(t, i - 1);
      NextKeeps(t[i - 1], t[i]);
    }
  }
}
