/** One-way use of a UMP channel through the queue functions: `me` only enqueues, `peer` only dequeues and
  * returns bare acknowledgements when it must. */
module UmpOneWay {
  import opened UmpWords
  import opened UmpChannel
  import opened UmpInvariant

  /** The channel, and whether the consumer has just taken a message and not yet decided about an ack. */
  datatype QState = QState(ch: State, due: bool)

  /** Number of messages after which the consumer sends a forced acknowledgement. */
  function AckStep(n: nat): nat {
    if n <= 1 then 1 else n - 1
  }

  predicate ProducerAction(s: State, a: Action) {
    && Enabled(s, a)
    && (a.Submit? ==> a.tag != ACK_TAG)
    && (a.CheckEmpty? ==> !CanSend(s.me.end, |s.me.ring|))     // it only waits when it could not enqueue
  }

  /** Outside of the acknowledgement check the consumer only receives and waits. */
  predicate ConsumerAction(s: State, a: Action) {
    Enabled(s, a) && !a.Prepare? && !a.WriteWord? && !a.Submit?
  }

  function Consume(s: State, a: Action): State
    requires Enabled(Swap(s), a)
  {
    Swap(Apply(Swap(s), a))
  }

  ghost predicate ProducerStep(q: QState, q': QState) {
    exists a :: ProducerAction(q.ch, a) && q' == QState(Apply(q.ch, a), q.due)
  }

  ghost predicate ConsumerStep(q: QState, q': QState) {
    !q.due && exists a :: ConsumerAction(Swap(q.ch), a) && q' == AfterConsume(q, a)
  }

  function AfterConsume(q: QState, a: Action): QState
    requires Enabled(Swap(q.ch), a)
  {
    var s' := Consume(q.ch, a);
    QState(s', a.ReadHeader? && s'.peer.got[|s'.peer.got| - 1].tag != ACK_TAG)
  }

  /** The check after a message was taken; its ack is the only thing the consumer ever sends. */
  ghost predicate AckCheckStep(q: QState, q': QState) {
    var c, n := q.ch.peer, |q.ch.me.ring|;
    && q.due
    && if c.end.pc.Filling? then
         Enabled(Swap(q.ch), Submit(ACK_TAG)) && q' == QState(Consume(q.ch, Submit(ACK_TAG)), false)
       else if NeedsAck(c.end, n) then
         Enabled(Swap(q.ch), Prepare) && q' == QState(Consume(q.ch, Prepare), true)
       else
         q' == q.(due := false)
  }

  ghost predicate QNext(q: QState, q': QState) {
    ProducerStep(q, q') || ConsumerStep(q, q') || AckCheckStep(q, q')
  }

  ghost predicate QRun(t: seq<QState>) {
    && 0 < |t| && Init(t[0].ch) && !t[0].due
    && forall i | 0 < i < |t| :: QNext(t[i - 1], t[i])
  }

  // ----- what the code asserts -----

  /** The forced acknowledgement always finds a slot. */
  predicate ForcedAckSucceeds(q: QState) {
    q.due && q.ch.peer.end.pc.Ready? && NeedsAck(q.ch.peer.end, |q.ch.me.ring|) ==>
      CanSend(q.ch.peer.end, |q.ch.peer.ring|)
  }

  /** Whatever the producer reads is just an ack, and afterwards it has space. */
  predicate AckFreesSpace(q: QState) {
    q.ch.me.end.pc.Claimed? && Enabled(q.ch, ReadHeader) ==>
      var me := Apply(q.ch, ReadHeader).me;
      me.got[|me.got| - 1].tag == ACK_TAG && CanSend(me.end, |me.ring|)
  }

  // ----- the invariant of one-way use -----

  ghost predicate OnlyAcks(sent: seq<Sent>) {
    forall j | 0 <= j < |sent| :: sent[j].tag == ACK_TAG
  }

  ghost predicate NoAcks(sent: seq<Sent>) {
    forall j | 0 <= j < |sent| :: sent[j].tag != ACK_TAG
  }

  /** Each acknowledgement covers exactly `step` more messages than the one before. */
  ghost predicate EvenlySpaced(sent: seq<Sent>, step: nat) {
    forall j | 0 <= j < |sent| :: Covered(sent, j + 1) == Covered(sent, j) + step
  }

  ghost predicate Pending(q: QState) {
    var c, step := q.ch.peer, AckStep(|q.ch.me.ring|);
    && AckSent(c) <= |c.got| <= AckSent(c) + step
    && (!q.due ==> |c.got| < AckSent(c) + step && !c.end.pc.Filling?)
    && (q.due ==> (c.end.pc.Ready? || c.end.pc.Filling?) && AckSent(c) < |c.got|)
    && (c.end.pc.Filling? ==> |c.got| == AckSent(c) + step)
  }

  ghost predicate WaitsOnlyWhenFull(side: Side) {
    HoldsWake(side.end) || side.end.pc.Casting? ==> !CanSend(side.end, |side.ring|)
  }

  ghost predicate OneWay(q: QState) {
    && Inv(q.ch)
    && NoAcks(q.ch.me.sent) && OnlyAcks(q.ch.peer.sent)
    && EvenlySpaced(q.ch.peer.sent, AckStep(|q.ch.me.ring|))
    && Pending(q)
    && WaitsOnlyWhenFull(q.ch.me)
  }

  lemma OneWayInit(q: QState)
    requires Init(q.ch) && !q.due && |q.ch.me.ring| <= 65534 && |q.ch.peer.ring| <= 65534
    ensures OneWay(q)
  {
    InvInit(q.ch);
  }

  lemma ProducerKeeps(q: QState, a: Action)
    requires OneWay(q) && ProducerAction(q.ch, a)
    ensures OneWay(QState(Apply(q.ch, a), q.due))
  {
    hide Inv, Covered, CanSendTest, CanReceive;
    ApplyKeeps(q.ch, a);
  }

  lemma ConsumerKeeps(q: QState, a: Action)
    requires OneWay(q) && !q.due && ConsumerAction(Swap(q.ch), a)
    ensures OneWay(AfterConsume(q, a))
  {
    hide Inv, Covered, CanSendTest, CanReceive;
    InvSwap(q.ch);
    ApplyKeeps(Swap(q.ch), a);
    InvSwap(Apply(Swap(q.ch), a));
    if a.ReadHeader? {
      ConsumerReadsData(q);
    }
  }

  /** The consumer never meets an acknowledgement. */
  lemma ConsumerReadsData(q: QState)
    requires OneWay(q) && Enabled(Swap(q.ch), ReadHeader)
    ensures var c := Consume(q.ch, ReadHeader).peer; c.got[|c.got| - 1].tag != ACK_TAG
  {
    ReadsNext(Swap(q.ch));
  }

  lemma ReadsNext(s: State)
    requires Inv(s) && Enabled(s, ReadHeader)
    ensures |s.me.got| < |s.peer.sent|
    ensures Apply(s, ReadHeader).me.got[|s.me.got|].tag == s.peer.sent[|s.me.got|].tag
  {
    InvSwap(s);
    ApplyKeeps(s, ReadHeader);
    hide SentIntoFreeSlots, FlowControl, ControlWindow, PayloadWindow, SenderIndices, ReceiverIndices, WakeInv,
         AcksOrdered, TagOf, IndexOf, Wrap;
  }

  /** In the acknowledgement check, the 16-bit test means the full step has been taken. */
  lemma NeedsAckIsExact(q: QState)
    requires OneWay(q) && q.due
    ensures NeedsAck(q.ch.peer.end, |q.ch.me.ring|) <==>
            |q.ch.peer.got| == AckSent(q.ch.peer) + AckStep(|q.ch.me.ring|)
  {
    var c, n := q.ch.peer, |q.ch.me.ring|;
    hide Covered, SentIntoFreeSlots, FlowControl, ControlWindow, PayloadWindow, WakeInv, Faithful;
    assert c.end.seqId == Wrap(|c.got|) && c.end.lastAck == Wrap(AckSent(c));
    WrapDifference(|c.got|, AckSent(c));
  }

  lemma AckCheckKeeps(q: QState, q': QState)
    requires OneWay(q) && AckCheckStep(q, q')
    ensures OneWay(q')
  {
    hide Inv, Covered, CanSendTest, CanReceive, NeedsAck;
    InvSwap(q.ch);
    NeedsAckIsExact(q);
    var c := q.ch.peer;
    if c.end.pc.Filling? {
      ApplyKeeps(Swap(q.ch), Submit(ACK_TAG));
      InvSwap(Apply(Swap(q.ch), Submit(ACK_TAG)));
      AckSubmitted(q);
    } else if NeedsAck(c.end, |q.ch.me.ring|) {
      ApplyKeeps(Swap(q.ch), Prepare);
      InvSwap(Apply(Swap(q.ch), Prepare));
    }
  }

  lemma AckSubmitted(q: QState)
    requires Pending(q) && EvenlySpaced(q.ch.peer.sent, AckStep(|q.ch.me.ring|))
    requires q.ch.peer.end.pc.Filling? && Enabled(Swap(q.ch), Submit(ACK_TAG))
    ensures var c := Consume(q.ch, Submit(ACK_TAG)).peer;
            EvenlySpaced(c.sent, AckStep(|q.ch.me.ring|)) && AckSent(c) == |c.got|
  {
    var c := q.ch.peer;
    SpacedAppend(c.sent, Sent(ACK_TAG, |c.got|, c.ring[c.end.txPos].data), AckStep(|q.ch.me.ring|));
  }

  lemma SpacedAppend(sent: seq<Sent>, m: Sent, step: nat)
    requires EvenlySpaced(sent, step) && m.ack == Covered(sent, |sent|) + step
    ensures EvenlySpaced(sent + [m], step)
  {
    forall j | 0 <= j < |sent| + 1
      ensures Covered(sent + [m], j + 1) == Covered(sent + [m], j) + step
    {
      CoveredAppend(sent, m, j);
      if j < |sent| {
        CoveredAppend(sent, m, j + 1);
      }
    }
  }

  lemma {:induction false} QRunKeeps(t: seq<QState>, i: nat)
    requires QRun(t) && i < |t| && |t[0].ch.me.ring| <= 65534 && |t[0].ch.peer.ring| <= 65534
    ensures OneWay(t[i])
    ensures |t[i].ch.me.ring| == |t[0].ch.me.ring| && |t[i].ch.peer.ring| == |t[0].ch.peer.ring|
  {
    if i == 0 {
      OneWayInit(t[0]);
    } else {
      QRunKeeps(t, i - 1);
      QNextKeeps(t[i - 1], t[i]);
    }
  }

  lemma QNextKeeps(q: QState, q': QState)
    requires OneWay(q) && QNext(q, q')
    ensures OneWay(q')
    ensures |q'.ch.me.ring| == |q.ch.me.ring| && |q'.ch.peer.ring| == |q.ch.peer.ring|
  {
    hide OneWay;
    if ProducerStep(q, q') {
      var a :| ProducerAction(q.ch, a) && q' == QState(Apply(q.ch, a), q.due);
      ProducerKeeps(q, a);
    } else if ConsumerStep(q, q') {
      var a :| ConsumerAction(Swap(q.ch), a) && q' == AfterConsume(q, a);
      ConsumerKeeps(q, a);
    } else {
      AckCheckKeeps(q, q');
    }
  }

  // ----- the asserts never fail -----

  /** At most one acknowledgement is outstanding when another is due, and then only in a ring of two. */
  lemma OutstandingAcks(q: QState)
    requires OneWay(q) && q.due && NeedsAck(q.ch.peer.end, |q.ch.me.ring|)
    ensures var c, p, n := q.ch.peer, q.ch.me, |q.ch.me.ring|;
            && |c.got| <= |p.sent|
            && |c.sent| <= Covered(p.sent, |c.got|) + if n == 2 then 1 else 0
  {
    var c, p, n := q.ch.peer, q.ch.me, |q.ch.me.ring|;
    NeedsAckIsExact(q);
    LastTakenAcks(q);
    hide Inv, NeedsAck;
    var acked := p.sent[|c.got| - 1].ack;
    SpacedAtLeast(c.sent, AckStep(n), acked);
  }

  /** The message taken last was sent within a lap of what its sender had acknowledged by then. */
  lemma LastTakenAcks(q: QState)
    requires OneWay(q) && q.due
    ensures var c, p := q.ch.peer, q.ch.me;
            && 0 < |c.got| <= |p.sent|
            && Covered(p.sent, |c.got|) == p.sent[|c.got| - 1].ack <= |c.sent|
            && |c.got| - 1 < Covered(c.sent, p.sent[|c.got| - 1].ack) + |p.ring|
  {
    hide ControlWindow, PayloadWindow, WakeInv, SenderIndices, FlowControl, AcksOrdered, EvenlySpaced, NeedsAck;
  }

  lemma SpacedAtLeast(sent: seq<Sent>, step: nat, a: nat)
    requires EvenlySpaced(sent, step) && a <= |sent|
    ensures a < |sent| ==> Covered(sent, |sent|) >= Covered(sent, a) + step
    ensures a + 1 < |sent| ==> Covered(sent, |sent|) >= Covered(sent, a) + 2 * step
    decreases |sent| - a
  {
    hide Covered;
    if a < |sent| {
      SpacedAtLeast(sent, step, a + 1);
      assert Covered(sent, a + 1) == Covered(sent, a) + step;
    }
  }

  lemma ForcedAckLemma(q: QState)
    requires OneWay(q) && !(|q.ch.me.ring| == 2 && |q.ch.peer.ring| == 1)
    ensures ForcedAckSucceeds(q)
  {
    var c, p := q.ch.peer, q.ch.me;
    if q.due && NeedsAck(c.end, |p.ring|) {
      OutstandingAcks(q);
      PeerSendTest(q);
    }
  }

  lemma PeerSendTest(q: QState)
    requires OneWay(q)
    ensures |q.ch.peer.got| <= |q.ch.me.sent|
    ensures CanSend(q.ch.peer.end, |q.ch.peer.ring|) <==>
            |q.ch.peer.sent| - Covered(q.ch.me.sent, |q.ch.peer.got|) < |q.ch.peer.ring|
  {
    InvSwap(q.ch);
    SendTest(Swap(q.ch));
  }

  lemma SendTest(s: State)
    requires Inv(s)
    ensures |s.me.got| <= |s.peer.sent|
    ensures CanSend(s.me.end, |s.me.ring|) <==>
            |s.me.sent| - Covered(s.peer.sent, |s.me.got|) < |s.me.ring|
    ensures |s.me.sent| <= Covered(s.peer.sent, |s.me.got|) + |s.me.ring|
  {
    hide SentIntoFreeSlots, ControlWindow, PayloadWindow, WakeInv, Faithful, Wrap;
    CoveredMonotone(s.peer, |s.me.got|, |s.me.got|);
    CanSendIsExact(|s.me.sent|, Covered(s.peer.sent, |s.me.got|), |s.me.ring|);
  }

  lemma AckFreesSpaceLemma(q: QState)
    requires OneWay(q)
    ensures AckFreesSpace(q)
  {
    hide Inv, Covered, CanSend, TagOf;
    if q.ch.me.end.pc.Claimed? && Enabled(q.ch, ReadHeader) {
      var s' := Apply(q.ch, ReadHeader);
      var g := |q.ch.me.got|;
      ReadsNext(q.ch);
      ApplyKeeps(q.ch, ReadHeader);
      SendTest(s');
      SendTest(q.ch);
      assert Covered(q.ch.peer.sent, g + 1) == Covered(q.ch.peer.sent, g) + AckStep(|q.ch.me.ring|);
    }
  }

  /** In every run of producer and consumer, with any two ring sizes but (2, 1), no assert of the queue
    * functions fails. */
  lemma QueueAssertsHold(t: seq<QState>, i: nat)
    requires QRun(t) && i < |t|
    requires |t[0].ch.me.ring| <= 65534 && |t[0].ch.peer.ring| <= 65534
    requires !(|t[0].ch.me.ring| == 2 && |t[0].ch.peer.ring| == 1)
    ensures ForcedAckSucceeds(t[i]) && AckFreesSpace(t[i])
  {
    QRunKeeps(t, i);
    ForcedAckLemma(t[i]);
    AckFreesSpaceLemma(t[i]);
  }

  // ----- and (2, 1) is the one exception -----

  ghost predicate QRunWithSizes(t: seq<QState>, n: nat, m: nat) {
    QRun(t) && |t[0].ch.me.ring| == n && |t[0].ch.peer.ring| == m
  }

  lemma ByProducer(t: seq<QState>, a: Action) returns (t': seq<QState>)
    requires QRun(t) && ProducerAction(t[|t| - 1].ch, a)
    ensures QRun(t') && t' == t + [QState(Apply(t[|t| - 1].ch, a), t[|t| - 1].due)]
  {
    var q := t[|t| - 1];
    t' := t + [QState(Apply(q.ch, a), q.due)];
    assert ProducerStep(q, t'[|t|]);
  }

  lemma ByConsumer(t: seq<QState>, a: Action) returns (t': seq<QState>)
    requires QRun(t) && !t[|t| - 1].due && ConsumerAction(Swap(t[|t| - 1].ch), a)
    ensures QRun(t') && t' == t + [AfterConsume(t[|t| - 1], a)]
  {
    var q := t[|t| - 1];
    t' := t + [AfterConsume(q, a)];
    assert ConsumerStep(q, t'[|t|]);
  }

  lemma ByAckCheck(t: seq<QState>, q': QState) returns (t': seq<QState>)
    requires QRun(t) && AckCheckStep(t[|t| - 1], q')
    ensures QRun(t') && t' == t + [q']
  {
    t' := t + [q'];
  }

  const EMPTY: seq<int> := [0, 0, 0, 0, 0, 0, 0]

  const FRESH: End := End(true, 1, 0, 0, 0, 0, true, 0, true, Ready)

  /** Two data slots and one ack slot, after the producer filled the first. */
  function TwoSent(): QState {
    var m := Sent(0, 0, EMPTY);
    QState(State(Side(FRESH.(nextId := 3, txEpoch := false, pc := Submitted),
                      [Slot(Pack(0, 0, true), EMPTY), Slot(Pack(0, 0, true), EMPTY)], false, [m, m], []),
                 Side(FRESH.(discriminant := false), [Slot(0, EMPTY)], false, [], []), Running), false)
  }

  lemma FillTwo() returns (t: seq<QState>)
    ensures QRunWithSizes(t, 2, 1) && t[|t| - 1] == TwoSent()
  {
    hide QRun;
    var slot := Slot(0, EMPTY);
    var start := QState(State(Side(FRESH, [slot, slot], false, [], []),
                              Side(FRESH.(discriminant := false), [slot], false, [], []), Running), false);
    SingleStateRun(start);
    t := ByProducer([start], Prepare);
    t := ByProducer(t, Submit(0));
    t := ByProducer(t, LoadWake);
    t := ByProducer(t, Prepare);
    t := ByProducer(t, Submit(0));
  }

  /** The second message taken finds the ack ring full. */
  lemma StuckAck() returns (t: seq<QState>)
    ensures QRunWithSizes(t, 2, 1) && !ForcedAckSucceeds(t[|t| - 1])
  {
    hide QRun;
    t := FillTwo();
    t := ByConsumer(t, Poll);
    t := ByConsumer(t, ReadHeader);
    var q := t[|t| - 1];
    t := ByAckCheck(t, QState(Consume(q.ch, Prepare), true));
    q := t[|t| - 1];
    t := ByAckCheck(t, QState(Consume(q.ch, Submit(ACK_TAG)), false));
    t := ByConsumer(t, LoadWake);
    t := ByConsumer(t, Poll);
    t := ByConsumer(t, ReadHeader);
  }

  lemma SingleStateRun(q: QState)
    requires Init(q.ch) && !q.due
    ensures QRun([q])
  {
  }

  /** The forced acknowledgement succeeds in every run exactly when the rings are not of sizes 2 and 1. */
  lemma ForcedAckCondition(n: nat, m: nat)
    requires 1 <= n <= 65534 && 1 <= m <= 65534
    ensures !(n == 2 && m == 1) <==>
            forall t: seq<QState>, i: nat | QRunWithSizes(t, n, m) && i < |t| :: ForcedAckSucceeds(t[i])
  {
    hide ForcedAckSucceeds;
    if n == 2 && m == 1 {
      var t := StuckAck();
      assert !ForcedAckSucceeds(t[|t| - 1]);
    } else {
      forall t: seq<QState>, i: nat | QRunWithSizes(t, n, m) && i < |t|
        ensures ForcedAckSucceeds(t[i])
      {
        QueueAssertsHold(t, i);
      }
    }
  }

  /** Both polls tell exactly whether something is unclaimed. */
  lemma PollsAreExact(q: QState)
    requires OneWay(q)
    ensures Sane(q.ch) && Sane(Swap(q.ch)) && Pending(q)
    ensures ClaimCount(q.ch.me) <= |q.ch.peer.sent| && ClaimCount(q.ch.peer) <= |q.ch.me.sent|
    ensures CanReceive(q.ch.me.end, q.ch.peer.ring) <==> ClaimCount(q.ch.me) < |q.ch.peer.sent|
    ensures CanReceive(q.ch.peer.end, q.ch.me.ring) <==> ClaimCount(q.ch.peer) < |q.ch.me.sent|
  {
    InvSwap(q.ch);
    InvIsSane(q.ch);
    InvIsSane(Swap(q.ch));
    CanReceiveIsExact(q.ch.peer, q.ch.me);
    CanReceiveIsExact(q.ch.me, q.ch.peer);
  }
}
