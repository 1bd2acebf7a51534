/** The queue functions over a UMP channel, with the asserts they carry. `q` is the state of the pair; the
  * peer is paused while one of these calls runs, UmpOneWay lets it run between any two actions. */
module UmpQueueCode {
  import opened UmpWords
  import opened UmpChannel
  import opened UmpInvariant
  import opened UmpOneWay
  import opened UmpEndpoint
  import opened Wrappers

  // ----- producer -----

  ghost function ProducerReceived(q: QState): QState
    requires Sane(q.ch) && q.ch.me.end.pc.Ready?
  {
    QState(AfterReceive(q.ch), q.due)
  }

  lemma ProducerReceives(q: QState)
    requires OneWay(q) && Sane(q.ch) && q.ch.me.end.pc.Ready? && CanReceive(q.ch.me.end, q.ch.peer.ring)
    ensures var q' := ProducerReceived(q);
            && OneWay(q') && CanSend(q'.ch.me.end, |q'.ch.me.ring|)
            && |q'.ch.me.got| == |q.ch.me.got| + 1
            && TagOf(q.ch.peer.ring[q.ch.me.end.rxPos].ctrl) == ACK_TAG
  {
    hide OneWay, CanReceive, CanSend, TagOf;
    ProducerKeeps(q, Poll);
    var q1 := QState(Apply(q.ch, Poll), q.due);
    ProducerKeeps(q1, ReadHeader);
    AckFreesSpaceLemma(q1);
    PollClaims(q.ch);
  }

  lemma PollClaims(s: State)
    requires Sane(s) && CanReceive(s.me.end, s.peer.ring)
    ensures PollEnd(s.me.end, s.peer.ring).pc == Claimed(s.me.end.rxPos)
  {
  }

  method CanEnqueue(e: Endpoint, ghost q: QState) returns (ok: bool, ghost q': QState)
    requires OneWay(q) && e.Shows(q.ch, Ready)
    modifies e
    ensures OneWay(q') && e.Shows(q'.ch, Ready)
    ensures q'.ch.me.sent == q.ch.me.sent && q'.ch.peer == q.ch.peer && q'.due == q.due
    ensures q'.ch.me.ring == q.ch.me.ring && q'.ch.wake == q.ch.wake
    ensures ok <==> CanSend(q.ch.me.end, |q.ch.me.ring|) || Unread(q.ch.me, q.ch.peer)
    ensures ok ==> CanSend(q'.ch.me.end, |q'.ch.me.ring|)
  {
    hide OneWay;
    q' := q;
    PollsAreExact(q);
    if Wrap(e.nextId - e.ackId) <= e.tx.Length {
      return true, q';
    }
    var sawAck := false;
    while EpochOf(e.rx[e.rxPos].ctrl) == e.rxEpoch
      invariant OneWay(q') && e.Shows(q'.ch, Ready) && Sane(q'.ch)
      invariant q'.ch.me.sent == q.ch.me.sent && q'.ch.peer == q.ch.peer && q'.due == q.due
      invariant q'.ch.me.ring == q.ch.me.ring && q'.ch.wake == q.ch.wake
      invariant CanReceive(q'.ch.me.end, q'.ch.peer.ring) <==> ClaimCount(q'.ch.me) < |q'.ch.peer.sent|
      invariant |q'.ch.me.got| >= |q.ch.me.got|
      invariant sawAck ==> CanSend(q'.ch.me.end, |q'.ch.me.ring|) && |q'.ch.me.got| > |q.ch.me.got|
      invariant |q'.ch.me.got| <= |q.ch.peer.sent|
      invariant !sawAck ==> q' == q
      decreases |q'.ch.peer.sent| - |q'.ch.me.got|
    {
      ProducerReceives(q');
      ghost var s;
      var msg;
      msg, s := e.Receive(q'.ch);
      q' := ProducerReceived(q');
      assert msg == Nothing;                                  // just an ack
      assert CanSend(q'.ch.me.end, |q'.ch.me.ring|);          // should now have space in the channel
      PollsAreExact(q');
      sawAck := true;
    }
    ok := sawAck;
  }

  lemma OneMoreWord(data: seq<int>, words: seq<int>, w: nat)
    requires w < |data| && w < |words| && data[..w] == words[..w]
    ensures data[w := words[w]][..w + 1] == words[..w + 1]
  {
    assert data[w := words[w]][..w + 1] == data[..w] + [words[w]];
  }

  method FillWord(e: Endpoint, w: nat, v: int, ghost q: QState) returns (ghost q': QState)
    requires OneWay(q) && e.Shows(q.ch, Filling) && Sane(q.ch) && w < PAYLOAD_WORDS
    modifies e.tx
    ensures OneWay(q') && e.Shows(q'.ch, Filling) && Sane(q'.ch)
    ensures q' == QState(q.ch.(me := q.ch.me.(ring := q'.ch.me.ring)), q.due)
    ensures |q'.ch.me.ring| == |q.ch.me.ring|
    ensures var p := q.ch.me.end.txPos;
            q'.ch.me.ring[p].data == q.ch.me.ring[p].data[w := v]
  {
    hide OneWay, Pack, Wrap;
    ProducerKeeps(q, WriteWord(w, v));
    ghost var s := e.WriteWord(w, v, q.ch);
    q' := QState(s, q.due);
    PollsAreExact(q');
  }

  /** Fill the prepared slot word by word; nothing but its payload changes. */
  method FillPayload(e: Endpoint, words: seq<int>, ghost q: QState) returns (ghost q': QState)
    requires OneWay(q) && e.Shows(q.ch, Filling) && |words| == PAYLOAD_WORDS
    modifies e.tx
    ensures OneWay(q') && e.Shows(q'.ch, Filling) && Sane(q'.ch)
    ensures q'.ch == q.ch.(me := q.ch.me.(ring := q'.ch.me.ring)) && q'.due == q.due
    ensures |q'.ch.me.ring| == |q.ch.me.ring|
    ensures q'.ch.me.ring[q'.ch.me.end.txPos].data == words
  {
    hide OneWay, Pack, Wrap, Enabled, Apply;
    q' := q;
    PollsAreExact(q');
    for w := 0 to PAYLOAD_WORDS
      invariant OneWay(q') && e.Shows(q'.ch, Filling) && Sane(q'.ch)
      invariant q'.ch == q.ch.(me := q.ch.me.(ring := q'.ch.me.ring)) && q'.due == q.due
      invariant |q'.ch.me.ring| == |q.ch.me.ring|
      invariant q'.ch.me.ring[q'.ch.me.end.txPos].data[..w] == words[..w]
    {
      ghost var data := q'.ch.me.ring[q'.ch.me.end.txPos].data;
      q' := FillWord(e, w, words[w], q');
      OneMoreWord(data, words, w);
    }
    assert q'.ch.me.ring[q'.ch.me.end.txPos].data == words;
  }

  /** Enqueue seven words: it succeeds exactly if there is room or an acknowledgement to read, and then
    * the message joins the end of what was sent. */
  method EnqueueNonblock(e: Endpoint, words: seq<int>, ghost q: QState) returns (ok: bool, ghost q': QState)
    requires OneWay(q) && e.Shows(q.ch, Ready) && |words| == PAYLOAD_WORDS
    modifies e, e.tx, e.peerContext
    ensures OneWay(q') && e.Shows(q'.ch, Ready) && q'.due == q.due
    ensures ok <==> CanSend(q.ch.me.end, |q.ch.me.ring|) || Unread(q.ch.me, q.ch.peer)
    ensures !ok ==> q'.ch.me.sent == q.ch.me.sent
    ensures ok ==> |q'.ch.me.sent| == |q.ch.me.sent| + 1 && q.ch.me.sent <= q'.ch.me.sent
                   && q'.ch.me.sent[|q.ch.me.sent|].tag == 0 && q'.ch.me.sent[|q.ch.me.sent|].data == words
    ensures q'.ch.peer.got == q.ch.peer.got && q'.ch.peer.sent == q.ch.peer.sent
  {
    hide OneWay, Pack, Wrap;
    ok, q' := CanEnqueue(e, q);
    if !ok {
      return;
    }
    PollsAreExact(q');
    ProducerKeeps(q', Prepare);
    q' := FillPayload(e, words, QState(Apply(q'.ch, Prepare), q'.due));
    SubmittedKeepsOneWay(q');
    ghost var s := e.Submit(0, q'.ch);
    q' := QState(s, q'.due);
  }

  lemma SubmittedKeepsOneWay(q: QState)
    requires OneWay(q) && Enabled(q.ch, Submit(0))
    ensures OneWay(QState(AfterSubmit(q.ch, 0), q.due))
  {
    hide OneWay;
    ProducerKeeps(q, Submit(0));
    var q1 := QState(Apply(q.ch, Submit(0)), q.due);
    PollsAreExact(q1);
    ProducerKeeps(q1, LoadWake);
    var q2 := QState(Apply(q1.ch, LoadWake), q.due);
    if q.ch.wake != Running {
      PollsAreExact(q2);
      ProducerKeeps(q2, NotifyPeer);
    }
  }

  // ----- consumer -----

  /** After the consumer took a message, before it decides about an acknowledgement. */
  ghost function Taken(q: QState): QState
    requires Sane(Swap(q.ch)) && q.ch.peer.end.pc.Ready?
  {
    QState(Swap(AfterReceive(Swap(q.ch))), true)
  }

  lemma ConsumerTakes(q: QState)
    requires OneWay(q) && !q.due && Sane(Swap(q.ch)) && q.ch.peer.end.pc.Ready?
    requires CanReceive(q.ch.peer.end, q.ch.me.ring)
    ensures OneWay(Taken(q)) && |q.ch.peer.got| < |q.ch.me.sent|
    ensures q.ch.me.ring[q.ch.peer.end.rxPos].data == q.ch.me.sent[|q.ch.peer.got|].data
    ensures TagOf(q.ch.me.ring[q.ch.peer.end.rxPos].ctrl) != ACK_TAG
  {
    hide OneWay, CanReceive, TagOf;
    ConsumerKeeps(q, Poll);
    PollClaims(Swap(q.ch));
    var q1 := AfterConsume(q, Poll);
    ConsumerKeeps(q1, ReadHeader);
    ConsumerReadsData(q1);
    var q2 := AfterConsume(q1, ReadHeader);
    TakenIsSent(q2);
  }

  lemma TakenIsSent(q: QState)
    requires OneWay(q)
    ensures |q.ch.peer.got| <= |q.ch.me.sent|
    ensures forall i | 0 <= i < |q.ch.peer.got| ::
              q.ch.peer.got[i] == Got(q.ch.me.sent[i].tag, q.ch.me.sent[i].data)
  {
    hide SentIntoFreeSlots, FlowControl, ControlWindow, PayloadWindow, SenderIndices, ReceiverIndices, WakeInv,
         AcksOrdered;
  }

  lemma AckKeepsOneWay(q: QState)
    requires OneWay(q) && q.due && q.ch.peer.end.pc.Ready? && NeedsAck(q.ch.peer.end, |q.ch.me.ring|)
    requires Enabled(Swap(q.ch), Prepare)
    ensures OneWay(QState(Swap(AfterSubmit(Apply(Swap(q.ch), Prepare), ACK_TAG)), false))
  {
    hide OneWay, NeedsAck;
    var q1 := QState(Consume(q.ch, Prepare), true);
    AckCheckKeeps(q, q1);
    PollsAreExact(q1);
    var q2 := QState(Consume(q1.ch, Submit(ACK_TAG)), false);
    AckCheckKeeps(q1, q2);
    PollsAreExact(q2);
    ConsumerKeeps(q2, LoadWake);
    var q3 := AfterConsume(q2, LoadWake);
    if q.ch.wake != Running {
      PollsAreExact(q3);
      ConsumerKeeps(q3, NotifyPeer);
    }
  }

  /** Dequeue seven words: it succeeds exactly if a message is unread, and returns the next one sent. */
  method DequeueNonblock(e: Endpoint, ghost q: QState) returns (r: Option<seq<int>>, ghost q': QState)
    requires OneWay(q) && !q.due && e.Shows(Swap(q.ch), Ready)
    requires !(|q.ch.me.ring| == 2 && |q.ch.peer.ring| == 1)
    modifies e, e.tx, e.peerContext
    ensures OneWay(q') && !q'.due && e.Shows(Swap(q'.ch), Ready)
    ensures r.Some? <==> Unread(q.ch.peer, q.ch.me)
    ensures r.Some? ==> r.value == q.ch.me.sent[|q.ch.peer.got|].data
    ensures |q'.ch.peer.got| == |q.ch.peer.got| + if r.Some? then 1 else 0
    ensures q'.ch.me.got == q.ch.me.got && q'.ch.me.sent == q.ch.me.sent
  {
    hide OneWay, NeedsAck, CanSend, TagOf, Pack;
    PollsAreExact(q);
    ghost var found := CanReceive(q.ch.peer.end, q.ch.me.ring);
    if found {
      ConsumerTakes(q);
    }
    var msg;
    ghost var s;
    msg, s := e.Receive(Swap(q.ch));
    if msg == Nothing {
      return None, q;
    }
    q' := Taken(q);
    var words := [];
    for w := 0 to PAYLOAD_WORDS
      invariant words == e.rx[msg.slot].data[..w]
    {
      words := words + [e.rx[msg.slot].data[w]];
    }
    r := Some(words);
    PollsAreExact(q');
    ForcedAckLemma(q');
    AckTestOf(e, q');
    if Wrap(e.seqId - e.lastAck) >= Wrap(e.rx.Length - 1) {
      var success;
      success, s := e.SendAck(Swap(q'.ch));
      assert success;
      AckKeepsOneWay(q');
      q' := QState(Swap(s), false);
    } else {
      AckCheckKeeps(q', q'.(due := false));
      q' := q'.(due := false);
    }
  }

  lemma AckTestOf(e: Endpoint, q: QState)
    requires e.Shows(Swap(q.ch), Ready)
    ensures NeedsAck(q.ch.peer.end, |q.ch.me.ring|) <==> Wrap(e.seqId - e.lastAck) >= Wrap(e.rx.Length - 1)
  {
  }
}
