/** Producer and consumer never wait on each other, and a producer that wants to send always gets to. */
module UmpOneWayProgress {
  import opened UmpWords
  import opened UmpChannel
  import opened UmpInvariant
  import opened UmpOneWay

  // ----- the pair cannot deadlock -----

  /** The producer has nothing to do: the ring is full and it has no ack to read, or it is asleep. */
  predicate ProducerWaits(q: QState) {
    var p := q.ch.me;
    || (p.end.pc.Ready? && !CanSend(p.end, |p.ring|) && !Unread(p, q.ch.peer))
    || (p.end.pc.Asleep? && !p.wakeup)
  }

  predicate ConsumerWaits(q: QState) {
    var c := q.ch.peer;
    || (c.end.pc.Ready? && !q.due && !Unread(c, q.ch.me))
    || (c.end.pc.Asleep? && !c.wakeup)
  }

  /** A full ring means an unread ack, unread data, or an acknowledgement check under way. */
  lemma FullMeansWork(q: QState)
    requires OneWay(q) && !CanSend(q.ch.me.end, |q.ch.me.ring|)
    ensures Unread(q.ch.me, q.ch.peer) || Unread(q.ch.peer, q.ch.me) || q.due
  {
    SendTest(q.ch);
    PeerSendTest(q);
    hide Inv, CanSend;
  }

  lemma NoDeadlockLemma(q: QState)
    requires OneWay(q)
    ensures !(ProducerWaits(q) && ConsumerWaits(q))
  {
    if ProducerWaits(q) && ConsumerWaits(q) {
      hide Link, CanSend;
      if !CanSend(q.ch.me.end, |q.ch.me.ring|) {
        FullMeansWork(q);
      }
    }
  }

  // ----- the work before the next message -----

  /** Steps before an endpoint is ready again. */
  function Rank(pc: Pc): nat {
    match pc
    case Filling => 0
    case Ready => 1
    case Notifying => 2
    case Claimed(_) => 2
    case Waking => 2
    case Aborting => 2
    case Submitted => 3
    case Asleep => 3
    case Rechecking => 4
    case Casting => 5
  }

  /** The same for the consumer, who may owe an acknowledgement, or be about to. */
  function ConsumerRank(pc: Pc, due: bool): nat {
    if due then (if pc.Filling? then 6 else 7)
    else if pc.Claimed? then 8
    else Rank(pc)
  }

  /** Unclaimed messages and acknowledgements, and where both endpoints are. */
  function Work(q: QState): int {
    var p, c := q.ch.me, q.ch.peer;
    8 * (|p.sent| - ClaimCount(c)) + 2 * (|c.sent| - ClaimCount(p)) + Rank(p.end.pc) + ConsumerRank(c.end.pc, q.due)
  }

  /** What a producer that is not waiting does next. */
  function ProducerMove(q: QState): Action {
    var p := q.ch.me;
    match p.end.pc
    case Ready => if CanSend(p.end, |p.ring|) then Prepare else Poll
    case Filling => Submit(0)
    case _ => BusyMove(p.end.pc)
  }

  function BusyMove(pc: Pc): Action {
    match pc
    case Submitted => LoadWake
    case Notifying => NotifyPeer
    case Claimed(_) => ReadHeader
    case Casting => CasWait
    case Rechecking => Recheck
    case Aborting => AbortWait
    case Asleep => SleepReturn
    case _ => Wakeup
  }

  /** A step in the middle of something brings its endpoint closer to being ready, and nobody has more to do. */
  lemma BusyWorks(s: State)
    requires Sane(s) && !s.me.end.pc.Ready? && !s.me.end.pc.Filling? && (s.me.end.pc.Asleep? ==> s.me.wakeup)
    ensures Enabled(s, BusyMove(s.me.end.pc))
    ensures var s' := Apply(s, BusyMove(s.me.end.pc));
            && s'.me.sent == s.me.sent && s'.peer.sent == s.peer.sent && s'.peer.end == s.peer.end
            && ClaimCount(s'.me) == ClaimCount(s.me) && ClaimCount(s'.peer) == ClaimCount(s.peer)
            && Rank(s'.me.end.pc) < Rank(s.me.end.pc) && !s'.me.end.pc.Claimed?
  {
    hide CanReceive, TagOf, IndexOf;
  }

  /** A successful poll. */
  lemma PollWorks(s: State)
    requires Sane(s) && s.me.end.pc.Ready? && CanReceive(s.me.end, s.peer.ring)
    ensures Enabled(s, Poll)
    ensures var s' := Apply(s, Poll);
            && s'.me.sent == s.me.sent && s'.peer == s.peer && s'.me.end.pc.Claimed?
            && ClaimCount(s'.me) == ClaimCount(s.me) + 1
  {
    hide CanReceive;
  }

  /** A step of the pair that gets somewhere: one more message is out, or there is less work before it. */
  ghost predicate Useful(q: QState, q': QState) {
    QNext(q, q') && q.ch.me.sent <= q'.ch.me.sent && (|q.ch.me.sent| < |q'.ch.me.sent| || Work(q') < Work(q))
  }

  /** The producer, when it is not waiting, submits or gets closer to it. */
  lemma ProducerProgress(q: QState) returns (q': QState)
    requires Sane(q.ch) && !ProducerWaits(q)
    requires CanReceive(q.ch.me.end, q.ch.peer.ring) <==> ClaimCount(q.ch.me) < |q.ch.peer.sent|
    ensures Useful(q, q')
  {
    hide CanSend, CanReceive, Sane, Apply;
    var a := ProducerMove(q);
    ProducerMoves(q);
    q' := QState(Apply(q.ch, a), q.due);
    assert ProducerStep(q, q');
  }

  lemma ProducerMoves(q: QState)
    requires Sane(q.ch) && !ProducerWaits(q)
    requires CanReceive(q.ch.me.end, q.ch.peer.ring) <==> ClaimCount(q.ch.me) < |q.ch.peer.sent|
    ensures var a := ProducerMove(q);
            && ProducerAction(q.ch, a)
            && var q' := QState(Apply(q.ch, a), q.due);
               q.ch.me.sent <= q'.ch.me.sent && (|q.ch.me.sent| < |q'.ch.me.sent| || Work(q') < Work(q))
  {
    hide CanSend, CanReceive;
    var pc := q.ch.me.end.pc;
    if pc.Ready? && !CanSend(q.ch.me.end, |q.ch.me.ring|) {
      PollWorks(q.ch);
    } else if !pc.Ready? && !pc.Filling? {
      BusyWorks(q.ch);
      hide Apply;
    }
  }

  /** The consumer, when it is not waiting, gets closer to having nothing left to do. */
  lemma ConsumerProgress(q: QState) returns (q': QState)
    requires Sane(Swap(q.ch)) && Pending(q) && !ConsumerWaits(q) && ForcedAckSucceeds(q)
    requires CanReceive(q.ch.peer.end, q.ch.me.ring) <==> ClaimCount(q.ch.peer) < |q.ch.me.sent|
    ensures Useful(q, q')
  {
    if q.due {
      q' := AckProgress(q);
    } else {
      hide CanSend, CanReceive, Apply;
      var a := if q.ch.peer.end.pc.Ready? then Poll else BusyMove(q.ch.peer.end.pc);
      if a.Poll? {
        PollWorks(Swap(q.ch));
      } else {
        BusyWorks(Swap(q.ch));
      }
      q' := AfterConsume(q, a);
      assert ConsumerAction(Swap(q.ch), a);
      assert ConsumerStep(q, q');
    }
  }

  lemma AckProgress(q: QState) returns (q': QState)
    requires q.due && Sane(Swap(q.ch)) && Pending(q) && ForcedAckSucceeds(q)
    ensures Useful(q, q')
  {
    hide CanSend, CanReceive, NeedsAck, Covered, SubmitRing;
    var c := q.ch.peer;
    if c.end.pc.Filling? {
      q' := QState(Consume(q.ch, Submit(ACK_TAG)), false);
    } else if NeedsAck(c.end, |q.ch.me.ring|) {
      q' := QState(Consume(q.ch, Prepare), true);
    } else {
      q' := q.(due := false);
    }
    assert AckCheckStep(q, q');
  }

  // ----- runs -----

  lemma WorkIsLeft(q: QState)
    requires OneWay(q)
    ensures 0 <= Work(q)
  {
    hide OneWay;
    PollsAreExact(q);
  }

  lemma UsefulStep(q: QState) returns (q': QState)
    requires OneWay(q) && !(|q.ch.me.ring| == 2 && |q.ch.peer.ring| == 1)
    ensures !(ProducerWaits(q) && ConsumerWaits(q))
    ensures Useful(q, q')
  {
    hide OneWay, ProducerWaits, ConsumerWaits, Useful;
    NoDeadlockLemma(q);
    ForcedAckLemma(q);
    PollsAreExact(q);
    if ProducerWaits(q) {
      q' := ConsumerProgress(q);
    } else {
      q' := ProducerProgress(q);
    }
  }

  /** In every run, with any two ring sizes but (2, 1): producer and consumer are never both waiting, awake
    * or asleep, and one of them always has a useful step to take. */
  lemma NeverDeadlocks(t: seq<QState>, i: nat)
    requires QRun(t) && i < |t|
    requires |t[0].ch.me.ring| <= 65534 && |t[0].ch.peer.ring| <= 65534
    requires !(|t[0].ch.me.ring| == 2 && |t[0].ch.peer.ring| == 1)
    ensures !(ProducerWaits(t[i]) && ConsumerWaits(t[i]))
    ensures exists q' :: Useful(t[i], q')
  {
    hide QRun, OneWay, ProducerWaits, ConsumerWaits, Useful;
    QRunKeeps(t, i);
    var q' := UsefulStep(t[i]);
  }

  lemma ExtendRun(t: seq<QState>, q': QState) returns (t': seq<QState>)
    requires QRun(t) && QNext(t[|t| - 1], q')
    ensures QRun(t') && t' == t + [q']
  {
    hide QNext, Init;
    t' := t + [q'];
  }

  lemma {:induction false} SubmitsFrom(t: seq<QState>) returns (t': seq<QState>)
    requires QRun(t) && OneWay(t[|t| - 1])
    requires !(|t[|t| - 1].ch.me.ring| == 2 && |t[|t| - 1].ch.peer.ring| == 1)
    ensures QRun(t') && t <= t' && |t[|t| - 1].ch.me.sent| < |t'[|t'| - 1].ch.me.sent|
    decreases (WorkIsLeft(t[|t| - 1]); Work(t[|t| - 1]))
  {
    hide OneWay, Work, ProducerWaits, ConsumerWaits, QNext, Init;
    var q := t[|t| - 1];
    WorkIsLeft(q);
    var q' := UsefulStep(q);
    t' := ExtendRun(t, q');
    if |q'.ch.me.sent| == |q.ch.me.sent| {
      QNextKeeps(q, q');
      WorkIsLeft(q');
      t' := SubmitsFrom(t');
    }
  }

  /** In every run, with any two ring sizes but (2, 1), the producer can still get its next message out: the
    * run has a continuation in which it has submitted one more. */
  lemma AlwaysSubmitsAgain(t: seq<QState>) returns (t': seq<QState>)
    requires QRun(t) && |t[0].ch.me.ring| <= 65534 && |t[0].ch.peer.ring| <= 65534
    requires !(|t[0].ch.me.ring| == 2 && |t[0].ch.peer.ring| == 1)
    ensures QRun(t') && t <= t' && |t[|t| - 1].ch.me.sent| < |t'[|t'| - 1].ch.me.sent|
  {
    hide OneWay, Init, QNext;
    QRunKeeps(t, |t| - 1);
    t' := SubmitsFrom(t);
  }
}
