/** What holds in every run of two UMP endpoints, for every ring size from 1 to 65534. */
module UmpTheorems {
  import opened RingArith
  import opened UmpWords
  import opened UmpChannel
  import opened UmpInvariant

  ghost predicate LegalRun(t: seq<State>) {
    Run(t) && |t[0].me.ring| <= 65534 && |t[0].peer.ring| <= 65534
  }

  /** Payloads of the application's messages: all but the bare acknowledgements. */
  function SubmittedMessages(sent: seq<Sent>): seq<(nat, seq<int>)> {
    if sent == [] then []
    else
      var last := sent[|sent| - 1];
      SubmittedMessages(sent[..|sent| - 1]) + if last.tag == ACK_TAG then [] else [(last.tag, last.data)]
  }

  /** Messages handed to the caller of the receive function. */
  function DeliveredMessages(got: seq<Got>): seq<(nat, seq<int>)> {
    if got == [] then []
    else
      var last := got[|got| - 1];
      DeliveredMessages(got[..|got| - 1]) + if last.tag == ACK_TAG then [] else [(last.tag, last.data)]
  }

  lemma {:induction false} DeliveredIsSubmittedMessages(sent: seq<Sent>, got: seq<Got>)
    requires |got| == |sent|
    requires forall i | 0 <= i < |got| :: got[i] == Got(sent[i].tag, sent[i].data)
    ensures DeliveredMessages(got) == SubmittedMessages(sent)
  {
    if got != [] {
      DeliveredIsSubmittedMessages(sent[..|sent| - 1], got[..|got| - 1]);
    }
  }

  lemma {:induction false} SubmittedPrefix(sent: seq<Sent>, r: nat)
    requires r <= |sent|
    ensures SubmittedMessages(sent[..r]) <= SubmittedMessages(sent)
  {
    if r < |sent| {
      SubmittedPrefix(sent[..|sent| - 1], r);
      assert sent[..|sent| - 1][..r] == sent[..r];
    } else {
      assert sent[..r] == sent;
    }
  }

  /** FIFO delivery, both ways: the receiver has exactly a prefix of what the sender submitted. */
  lemma FifoDelivery(t: seq<State>, i: nat)
    requires LegalRun(t) && i < |t|
    ensures DeliveredMessages(t[i].me.got) <= SubmittedMessages(t[i].peer.sent)
    ensures DeliveredMessages(t[i].peer.got) <= SubmittedMessages(t[i].me.sent)
  {
    RunKeeps(t, i);
    FifoLink(t[i].peer, t[i].me);
    FifoLink(t[i].me, t[i].peer);
  }

  lemma FifoLink(snd: Side, rcv: Side)
    requires Faithful(snd, rcv)
    ensures DeliveredMessages(rcv.got) <= SubmittedMessages(snd.sent)
  {
    DeliveredIsSubmittedMessages(snd.sent[..|rcv.got|], rcv.got);
    SubmittedPrefix(snd.sent, |rcv.got|);
  }

  /** Nothing is lost: polling finds a message exactly when one has been submitted and not yet claimed. */
  lemma PollFindsExactlyUnread(t: seq<State>, i: nat)
    requires LegalRun(t) && i < |t|
    ensures Sane(t[i]) && Sane(Swap(t[i]))
    ensures CanReceive(t[i].me.end, t[i].peer.ring) <==> ClaimCount(t[i].me) < |t[i].peer.sent|
    ensures CanReceive(t[i].peer.end, t[i].me.ring) <==> ClaimCount(t[i].peer) < |t[i].me.sent|
  {
    RunKeeps(t, i);
    CanReceiveIsExact(t[i].peer, t[i].me);
    CanReceiveIsExact(t[i].me, t[i].peer);
  }

  /** And so are both looks of a try to wait: it goes for the wake word only with nothing unread, and falls
    * asleep only if there is still nothing then; otherwise it backs out. */
  lemma LooksAreExact(t: seq<State>, i: nat)
    requires LegalRun(t) && i < |t|
    ensures LooksExactly(t[i]) && LooksExactly(Swap(t[i]))
  {
    PollFindsExactlyUnread(t, i);
  }

  predicate LooksExactly(s: State) {
    var unread := ClaimCount(s.me) < |s.peer.sent|;
    && (Enabled(s, CheckEmpty) ==> Apply(s, CheckEmpty).me.end.pc == if unread then Ready else Casting)
    && (Enabled(s, Recheck) ==> Apply(s, Recheck).me.end.pc == if unread then Aborting else Asleep)
  }

  /** The 16-bit send test is the count of unacknowledged messages, and a slot it grants is one the
    * receiver is done with: at most `bufmsgs` messages are ever unreceived. */
  lemma SendTestIsExact(t: seq<State>, i: nat)
    requires LegalRun(t) && i < |t|
    ensures var me, peer := t[i].me, t[i].peer;
            && |me.got| <= |peer.sent|
            && (CanSend(me.end, |me.ring|) <==> |me.sent| - Covered(peer.sent, |me.got|) < |me.ring|)
            && (CanSend(me.end, |me.ring|) || me.end.pc.Filling? ==> |me.sent| - |peer.got| < |me.ring|)
            && |me.sent| - |peer.got| <= |me.ring|
  {
    RunKeeps(t, i);
    var me, peer := t[i].me, t[i].peer;
    CoveredMonotone(peer, |me.got|, |me.got|);
    CanSendIsExact(|me.sent|, Covered(peer.sent, |me.got|), |me.ring|);
  }

  // ----- histories only grow -----

  ghost predicate Extends(s: State, s': State) {
    && s.me.sent <= s'.me.sent && s.me.got <= s'.me.got && |s.me.ring| == |s'.me.ring|
    && s.peer.sent <= s'.peer.sent && s.peer.got <= s'.peer.got && |s.peer.ring| == |s'.peer.ring|
  }

  lemma NextExtends(s: State, s': State)
    requires Next(s, s')
    ensures Extends(s, s')
  {
    hide Enabled, Apply;
    if a :| Enabled(s, a) && s' == Apply(s, a) {
      ApplyExtends(s, a);
    } else {
      var a :| Enabled(Swap(s), a) && s' == Swap(Apply(Swap(s), a));
      ApplyExtends(Swap(s), a);
    }
  }

  lemma ApplyExtends(s: State, a: Action)
    requires Enabled(s, a)
    ensures Extends(s, Apply(s, a))
  {
    hide SubmitEnd, PollEnd, HeaderEnd, CanReceive, TagOf;
  }

  lemma {:induction false} RunExtends(t: seq<State>, i: nat, k: nat)
    requires Run(t) && i <= k < |t|
    ensures Extends(t[i], t[k])
    decreases k
  {
    hide Next, Init;
    if i < k {
      RunExtends(t, i, k - 1);
      NextExtends(t[k - 1], t[k]);
      ExtendsTransitive(t[i], t[k - 1], t[k]);
    }
  }

  lemma ExtendsTransitive(a: State, b: State, c: State)
    requires Extends(a, b) && Extends(b, c)
    ensures Extends(a, c)
  {
  }

  /** Payload stability: once `me` has taken message `r`, its slot keeps that payload until `me` submits
    * again, even while the peer is half way through writing its next message. */
  lemma PayloadStable(t: seq<State>, r: nat, i: nat, k: nat)
    requires LegalRun(t) && 0 < i <= k < |t|
    requires |t[i - 1].me.got| == r && |t[i].me.got| == r + 1     // step i returned message r
    requires |t[k].me.sent| == |t[i - 1].me.sent|                 // and nothing was submitted since
    ensures 0 < |t[i].peer.ring| == |t[k].peer.ring|
    ensures var slot := Pos(r, |t[i].peer.ring|);
            t[k].peer.ring[slot].data == t[i].peer.ring[slot].data == t[i].me.got[r].data
  {
    hide Inv, Extends, Next, Init;
    RunKeeps(t, i - 1);
    RunKeeps(t, i);
    RunKeeps(t, k);
    RunExtends(t, i - 1, i);
    RunExtends(t, i, k);
    StableBetween(t[i - 1], t[i], t[k], r);
  }

  lemma StableBetween(before: State, taken: State, later: State, r: nat)
    requires Inv(before) && Inv(taken) && Inv(later)
    requires Extends(before, taken) && Extends(taken, later)
    requires |before.me.got| == r && |taken.me.got| == r + 1 && |later.me.sent| == |before.me.sent|
    ensures 0 < |taken.peer.ring| == |later.peer.ring|
    ensures var slot := Pos(r, |taken.peer.ring|);
            later.peer.ring[slot].data == taken.peer.ring[slot].data == taken.me.got[r].data
  {
    hide Covered, Pos, OddLap, SentIntoFreeSlots, FlowControl, ControlWindow, PayloadWindow, SenderIndices,
         ReceiverIndices, WakeInv, Faithful;
    AckNotAhead(before.me);
    SentUnchanged(before, taken, later);
    PayloadHeld(taken.peer, taken.me, r);
    PayloadHeld(later.peer, later.me, r);
  }

  lemma SentUnchanged(before: State, taken: State, later: State)
    requires Extends(before, taken) && Extends(taken, later) && |later.me.sent| == |before.me.sent|
    ensures taken.me.sent == before.me.sent && later.me.sent == before.me.sent
  {
  }

  lemma AckNotAhead(side: Side)
    requires AcksOrdered(side)
    ensures AckSent(side) <= |side.got|
  {
  }

  lemma PayloadHeld(snd: Side, rcv: Side, r: nat)
    requires Link(snd, rcv) && AckSent(rcv) <= r < |rcv.got|
    ensures snd.ring[Pos(r, |snd.ring|)].data == rcv.got[r].data
  {
    hide SentIntoFreeSlots, AcksOrdered, FlowControl, ControlWindow;
    assert r < |snd.sent| && rcv.got[r] == Got(snd.sent[r].tag, snd.sent[r].data);
  }

  // ----- sleeping and waking -----

  /** The endpoints are never in a wait together, and the wake word names the one that is. */
  lemma NeverBothWaiting(t: seq<State>, i: nat)
    requires LegalRun(t) && i < |t|
    ensures !(HoldsWake(t[i].me.end) && HoldsWake(t[i].peer.end))
    ensures t[i].wake == Running <==> !HoldsWake(t[i].me.end) && !HoldsWake(t[i].peer.end)
  {
    RunKeeps(t, i);
  }

  /** The wake word is put back to running only by the endpoint whose wait value it holds, and a sender
    * that looks at it finds either running or its peer's wait value, never its own. */
  lemma WakeWordDiscipline(t: seq<State>, i: nat)
    requires LegalRun(t) && i < |t|
    ensures MayRestore(t[i].me.end) ==> t[i].wake == OwnWait(t[i].me.end)
    ensures MayRestore(t[i].peer.end) ==> t[i].wake == OwnWait(t[i].peer.end)
    ensures t[i].me.end.pc.Submitted? ==> t[i].wake == Running || t[i].wake == OwnWait(t[i].peer.end)
    ensures t[i].peer.end.pc.Submitted? ==> t[i].wake == Running || t[i].wake == OwnWait(t[i].me.end)
  {
    RunKeeps(t, i);
  }

  predicate MayRestore(e: End) {
    e.pc.Aborting? || e.pc.Waking?
  }

  predicate AsleepOnUnread(side: Side, peer: Side) {
    side.end.pc.Asleep? && Unread(side, peer)
  }

  predicate WillBeWoken(side: Side, peer: Side, wake: WakeState) {
    side.wakeup || peer.end.pc.Notifying? || (peer.end.pc.Submitted? && wake != Running)
  }

  /** No lost wakeup: an endpoint asleep on an unread message is signalled or about to be. */
  lemma NoLostWakeup(t: seq<State>, i: nat)
    requires LegalRun(t) && i < |t|
    ensures AsleepOnUnread(t[i].me, t[i].peer) ==> WillBeWoken(t[i].me, t[i].peer, t[i].wake)
    ensures AsleepOnUnread(t[i].peer, t[i].me) ==> WillBeWoken(t[i].peer, t[i].me, t[i].wake)
  {
    RunKeeps(t, i);
  }

  // ----- 65534 is the tight bound -----

  /** The buffers initialisation accepts: aligned ones of 1 to 65535 messages of 64 bytes. */
  lemma AcceptedSizes(bytes: nat, aligned: bool)
    ensures GoodBuffer(bytes, aligned) <==> aligned && exists n: nat :: 1 <= n <= 65535 && HoldsMessages(bytes, n)
  {
    if GoodBuffer(bytes, aligned) {
      assert HoldsMessages(bytes, bytes / 64);
    }
  }

  predicate HoldsMessages(bytes: nat, n: nat) {
    bytes == 64 * n
  }

  /** The peer's epoch test tells exactly whether a message of `me` is waiting. */
  predicate PollIsExact(s: State) {
    && s.peer.end.rxPos < |s.me.ring|
    && (CanReceive(s.peer.end, s.me.ring) <==> ClaimCount(s.peer) < |s.me.sent|)
  }

  ghost predicate RunWithSizes(t: seq<State>, n: nat, m: nat) {
    Run(t) && |t[0].me.ring| == n && |t[0].peer.ring| == m
  }

  /** Both sides of every run always tell exactly whether a message is waiting. */
  ghost predicate PollsAreExact(n: nat, m: nat) {
    forall t: seq<State>, i: nat | RunWithSizes(t, n, m) && i < |t| :: PollIsExact(t[i]) && PollIsExact(Swap(t[i]))
  }

  /** Of the pairs of buffers initialisation accepts, exactly those without a ring of 65535 slots are safe. */
  lemma TightBound(bytes: nat, peerBytes: nat)
    requires GoodBuffer(bytes, true) && GoodBuffer(peerBytes, true)
    ensures bytes < 65535 * 64 && peerBytes < 65535 * 64 <==> PollsAreExact(bytes / 64, peerBytes / 64)
  {
    var n, m := bytes / 64, peerBytes / 64;
    hide PollIsExact;
    if n <= 65534 && m <= 65534 {
      forall t: seq<State>, i: nat | RunWithSizes(t, n, m) && i < |t|
        ensures PollIsExact(t[i]) && PollIsExact(Swap(t[i]))
      {
        BothPoll(t, i);
      }
    } else if n == 65535 {
      var t := Overrun(m);
      assert RunWithSizes(t, n, m);
      assert !PollIsExact(t[|t| - 1]) by {
        Misses(t[|t| - 1]);
      }
    } else {
      var t := Overrun(n);
      var u := SwapRun(t);
      Misses(t[|t| - 1]);
      assert Swap(u[|t| - 1]) == t[|t| - 1];
      assert RunWithSizes(u, n, m) && !PollIsExact(Swap(u[|t| - 1]));
    }
  }

  lemma BothPoll(t: seq<State>, i: nat)
    requires LegalRun(t) && i < |t|
    ensures PollIsExact(t[i]) && PollIsExact(Swap(t[i]))
  {
    PollFindsExactlyUnread(t, i);
  }

  lemma Misses(s: State)
    requires s.peer.end.rxPos < |s.me.ring| && !CanReceive(s.peer.end, s.me.ring) && ClaimCount(s.peer) < |s.me.sent|
    ensures !PollIsExact(s)
  {
  }

  /** The same run with the sides exchanged. */
  lemma SwapRun(t: seq<State>) returns (u: seq<State>)
    requires Run(t)
    ensures Run(u) && |u| == |t| && forall i | 0 <= i < |t| :: u[i] == Swap(t[i])
  {
    u := seq(|t|, i requires 0 <= i < |t| => Swap(t[i]));
    forall i | 0 < i < |u|
      ensures Next(u[i - 1], u[i])
    {
      SwapNext(t[i - 1], t[i]);
    }
  }

  lemma SwapNext(s: State, s': State)
    requires Next(s, s')
    ensures Next(Swap(s), Swap(s'))
  {
    hide Enabled, Apply;
    assert Swap(Swap(s)) == s;
    if a :| Enabled(s, a) && s' == Apply(s, a) {
      assert Enabled(Swap(Swap(s)), a) && Swap(s') == Swap(Apply(Swap(Swap(s)), a));
    } else {
      var a :| Enabled(Swap(s), a) && s' == Swap(Apply(Swap(s), a));
      assert Enabled(Swap(s), a) && Swap(s') == Apply(Swap(s), a);
    }
  }

  /** After `k` messages sent into a ring of 65535 slots while the peer does nothing. */
  ghost predicate Flooded(s: State, k: nat, m: nat) {
    && |s.me.ring| == 65535 && |s.peer.ring| == m
    && (forall j | 0 <= j < 65535 :: |s.me.ring[j].data| == PAYLOAD_WORDS)
    && |s.me.sent| == k && s.me.got == []
    && s.me.end.txPos == Pos(k, 65535) && s.me.end.txEpoch == OddLap(k, 65535)
    && s.me.end.rxPos == 0 && s.me.end.pc == Ready
    && InitSide(s.peer, false) && s.wake == Running
    && (65535 < k ==> s.me.ring[0].ctrl == Pack(0, s.me.end.seqId, false))
  }

  lemma {:induction false} Flood(k: nat, m: nat) returns (t: seq<State>)
    requires 1 <= m && k <= 65536
    ensures RunWithSizes(t, 65535, m)
    ensures Flooded(t[|t| - 1], k, m)
  {
    if k == 0 {
      var slot := Slot(0, [0, 0, 0, 0, 0, 0, 0]);
      var idle := End(true, 1, 0, 0, 0, 0, true, 0, true, Ready);
      t := [State(Side(idle, seq(65535, _ => slot), false, [], []),
                  Side(idle.(discriminant := false), seq(m, _ => slot), false, [], []), Running)];
    } else {
      t := Flood(k - 1, m);
      var s := t[|t| - 1];
      CanSendAlwaysAtFullRange(s.me.end.nextId, s.me.end.ackId);
      t := Extend(t, Prepare);
      t := Extend(t, Submit(0));
      t := Extend(t, LoadWake);
      PosStep(k - 1, 65535);
      FloodSlot(s, k, m);
    }
  }

  lemma Extend(t: seq<State>, a: Action) returns (t': seq<State>)
    requires Run(t) && Enabled(t[|t| - 1], a)
    ensures Run(t') && |t'| == |t| + 1 && t'[0] == t[0]
    ensures t'[|t|] == Apply(t[|t| - 1], a)
  {
    t' := t + [Apply(t[|t| - 1], a)];
  }

  /** Message 65535 overwrites slot 0, which still holds the unread message 0. */
  lemma FloodSlot(s: State, k: nat, m: nat)
    requires 0 < k <= 65536 && Flooded(s, k - 1, m)
    ensures k == 65536 ==> s.me.end.txPos == 0 && !s.me.end.txEpoch
  {
    if k == 65536 {
      NextLap(0, 65535);
      FirstLap(0, 65535);
    }
  }

  lemma Overrun(m: nat) returns (t: seq<State>)
    requires 1 <= m
    ensures RunWithSizes(t, 65535, m)
    ensures var s := t[|t| - 1];
            && Sane(s) && s.peer.end.rxPos < |s.me.ring|
            && |s.me.sent| == 65536 && s.peer.got == [] && ClaimCount(s.peer) == 0
            && !CanReceive(s.peer.end, s.me.ring)
  {
    t := Flood(65536, m);
  }
}
