/** The channel functions themselves, updating an endpoint and the shared memory in place. Each call is a
  * sequence of actions of the state machine; the ghost parameters name the states it goes through. */
module UmpEndpoint {
  import opened UmpWords
  import opened UmpChannel
  import opened UmpInvariant

  /** The word both sides swap to announce that they wait. */
  class SharedWord {
    var wakeState: WakeState

    constructor ()
      ensures wakeState == Running
    {
      wakeState := Running;
    }
  }

  /** The remembered wakeup flag of one thread. */
  class WakeContext {
    var wakeup: bool

    constructor ()
      ensures !wakeup
    {
      wakeup := false;
    }
  }

  datatype Reception = Nothing | Message(slot: nat, tag: nat)

  /** The state after the control word is written and a waiting peer is signalled. */
  ghost function AfterSubmit(s: State, tag: nat): State
    requires Enabled(s, Submit(tag))
  {
    var sent := Apply(s, Submit(tag));
    if s.wake == Running then
      sent.(me := sent.me.(end := sent.me.end.(pc := Ready)))
    else
      State(sent.me.(end := sent.me.end.(pc := Ready)), sent.peer.(wakeup := true), sent.wake)
  }

  lemma AfterSubmitIs(s: State, tag: nat)
    requires Enabled(s, Submit(tag))
    ensures s.me.end.txPos < |s.me.ring|
    ensures var s' := AfterSubmit(s, tag);
            && s'.me.end == SubmitEnd(s.me.end, |s.me.ring|).(pc := Ready)
            && s'.me.ring == SubmitRing(s.me.end, s.me.ring, tag) && s'.me.wakeup == s.me.wakeup
            && s'.peer == s.peer.(wakeup := s.peer.wakeup || s.wake != Running) && s'.wake == s.wake
  {
  }

  /** What one call of the receive function does to the channel. */
  ghost function AfterReceive(s: State): State
    requires Sane(s) && s.me.end.pc.Ready?
  {
    if CanReceive(s.me.end, s.peer.ring) then Apply(Apply(s, Poll), ReadHeader) else s
  }

  class Endpoint {
    const discriminant: bool
    const tx: array<Slot>
    const rx: array<Slot>
    const shared: SharedWord
    const own: WakeContext
    const peerContext: WakeContext

    var nextId: nat
    var seqId: nat
    var ackId: nat
    var lastAck: nat
    var txPos: nat
    var txEpoch: bool
    var rxPos: nat
    var rxEpoch: bool

    constructor (discriminant: bool, tx: array<Slot>, rx: array<Slot>,
                 shared: SharedWord, own: WakeContext, peerContext: WakeContext)
      ensures this.discriminant == discriminant && this.tx == tx && this.rx == rx
      ensures this.shared == shared && this.own == own && this.peerContext == peerContext
    {
      this.discriminant, this.tx, this.rx := discriminant, tx, rx;
      this.shared, this.own, this.peerContext := shared, own, peerContext;
      nextId, seqId, ackId, lastAck := 0, 0, 0, 0;
      txPos, txEpoch, rxPos, rxEpoch := 0, false, 0, false;
    }

    /** This endpoint's private state, as the machine has it. */
    ghost function Private(pc: Pc): End
      reads this
    {
      End(discriminant, nextId, seqId, ackId, lastAck, txPos, txEpoch, rxPos, rxEpoch, pc)
    }

    ghost predicate Shows(s: State, pc: Pc)
      reads this, tx, rx, shared, own, peerContext
    {
      && tx != rx && own != peerContext
      && s.me.end == Private(pc)
      && s.me.ring == tx[..] && s.peer.ring == rx[..]
      && s.wake == shared.wakeState
      && s.me.wakeup == own.wakeup && s.peer.wakeup == peerContext.wakeup
    }

    /** The sending half: the checks, the position, and every control word cleared. */
    method InitTx(bytes: nat, aligned: bool) returns (ok: bool)
      requires bytes / MSG_BYTES == tx.Length
      modifies this`txPos, this`txEpoch, tx
      ensures ok <==> GoodBuffer(bytes, aligned)
      ensures ok ==> txPos == 0 && txEpoch && forall j | 0 <= j < tx.Length :: tx[j] == old(tx[j]).(ctrl := 0)
      ensures !ok ==> tx[..] == old(tx[..]) && unchanged(this)
    {
      if bytes == 0 || bytes % MSG_BYTES != 0 || bytes / MSG_BYTES > 65535 {
        return false;
      }
      if !aligned {
        return false;
      }
      txPos, txEpoch := 0, true;
      for i := 0 to tx.Length
        invariant forall j | 0 <= j < i :: tx[j] == old(tx[j]).(ctrl := 0)
        invariant forall j | i <= j < tx.Length :: tx[j] == old(tx[j])
        invariant txPos == 0 && txEpoch
      {
        tx[i] := tx[i].(ctrl := 0);
      }
      ok := true;
    }

    /** The receiving half leaves its ring alone. */
    method InitRx(bytes: nat, aligned: bool) returns (ok: bool)
      modifies this`rxPos, this`rxEpoch
      ensures ok <==> GoodBuffer(bytes, aligned)
      ensures ok ==> rxPos == 0 && rxEpoch
      ensures !ok ==> unchanged(this)
    {
      if bytes == 0 || bytes % MSG_BYTES != 0 || bytes / MSG_BYTES > 65535 {
        return false;
      }
      if !aligned {
        return false;
      }
      rxPos, rxEpoch := 0, true;
      ok := true;
    }

    /** Initialisation accepts exactly two good buffers. Refused for the first, it changes nothing; refused for
      * the second, it has cleared the first one's control words and set the send position. */
    method Init(txBytes: nat, txAligned: bool, rxBytes: nat, rxAligned: bool) returns (ok: bool)
      requires txBytes / MSG_BYTES == tx.Length && tx != rx
      modifies this, tx, shared
      ensures ok <==> GoodBuffer(txBytes, txAligned) && GoodBuffer(rxBytes, rxAligned)
      ensures rx[..] == old(rx[..])
      ensures ok ==> nextId == 1 && seqId == ackId == lastAck == 0
      ensures ok ==> rxPos == 0 && rxEpoch && shared.wakeState == Running
      ensures !ok ==> unchanged(this`nextId, this`seqId, this`ackId, this`lastAck, this`rxPos, this`rxEpoch, shared)
      ensures if GoodBuffer(txBytes, txAligned) then
                txPos == 0 && txEpoch && forall j | 0 <= j < tx.Length :: tx[j] == old(tx[j]).(ctrl := 0)
              else
                tx[..] == old(tx[..]) && unchanged(this`txPos, this`txEpoch)
    {
      ok := InitTx(txBytes, txAligned);
      if !ok {
        return;
      }
      ok := InitRx(rxBytes, rxAligned);
      if !ok {
        return;
      }
      nextId, seqId, ackId, lastAck := 1, 0, 0, 0;
      shared.wakeState := Running;
    }

    /** Writing one payload word into the prepared slot. */
    method WriteWord(w: nat, v: int, ghost s: State) returns (ghost s': State)
      requires Shows(s, Filling) && Enabled(s, UmpChannel.WriteWord(w, v))
      modifies tx
      ensures s' == Apply(s, UmpChannel.WriteWord(w, v)) && Shows(s', Filling)
    {
      s' := Apply(s, UmpChannel.WriteWord(w, v));
      tx[txPos] := tx[txPos].(data := tx[txPos].data[w := v]);
    }

    /** Write the control word of the prepared slot, and move on. */
    method Publish(tag: nat)
      requires txPos < tx.Length
      modifies this, tx
      ensures tx[..] == SubmitRing(old(Private(Ready)), old(tx[..]), tag)
      ensures Private(Submitted) == SubmitEnd(old(Private(Ready)), tx.Length)
    {
      hide Pack, Wrap;
      tx[txPos] := tx[txPos].(ctrl := Pack(tag, seqId, txEpoch));
      lastAck := seqId;
      nextId := Wrap(nextId + 1);
      txPos := txPos + 1;
      if txPos == tx.Length {
        txPos := 0;
        txEpoch := !txEpoch;
      }
    }

    method Submit(tag: nat, ghost s: State) returns (ghost s': State)
      requires Shows(s, Filling) && Enabled(s, UmpChannel.Submit(tag))
      modifies this, tx, peerContext
      ensures s' == AfterSubmit(s, tag) && Shows(s', Ready)
    {
      AfterSubmitIs(s, tag);
      hide Pack, Wrap, AfterSubmit, Enabled, Apply, SubmitRing;
      s' := AfterSubmit(s, tag);
      Publish(tag);
      if shared.wakeState != Running {
        peerContext.wakeup := true;
      }
    }

    method Receive(ghost s: State) returns (m: Reception, ghost s': State)
      requires Shows(s, Ready) && Sane(s)
      modifies this
      ensures s' == AfterReceive(s) && Shows(s', Ready)
      ensures !CanReceive(s.me.end, s.peer.ring) ==> m == Nothing
      ensures CanReceive(s.me.end, s.peer.ring) ==>
                var tag := TagOf(s.peer.ring[s.me.end.rxPos].ctrl);
                m == if tag == ACK_TAG then Nothing else Message(s.me.end.rxPos, tag)
    {
      hide TagOf, IndexOf, EpochOf, Wrap;
      s' := AfterReceive(s);
      if EpochOf(rx[rxPos].ctrl) != rxEpoch {
        return Nothing, s';
      }
      var slot := rxPos;
      rxPos := rxPos + 1;
      if rxPos == rx.Length {
        rxPos := 0;
        rxEpoch := !rxEpoch;
      }
      ackId := IndexOf(rx[slot].ctrl);
      var tag := TagOf(rx[slot].ctrl);
      seqId := Wrap(seqId + 1);
      m := if tag == ACK_TAG then Nothing else Message(slot, tag);
    }

    /** A bare acknowledgement, if the send test allows it. */
    method SendAck(ghost s: State) returns (ok: bool, ghost s': State)
      requires Shows(s, Ready) && Sane(s)
      modifies this, tx, peerContext
      ensures ok <==> CanSend(s.me.end, |s.me.ring|)
      ensures ok ==> s' == AfterSubmit(Apply(s, Prepare), ACK_TAG)
      ensures !ok ==> s' == s
      ensures Shows(s', Ready)
    {
      ok := Wrap(nextId - ackId) <= tx.Length;
      s' := s;
      if ok {
        s' := Submit(ACK_TAG, Apply(s, Prepare));
      }
    }

    /** Try to wait: it succeeds exactly if both looks find nothing unread and the peer is not waiting, and
      * then the wake word holds this endpoint's wait value; otherwise it is as before. `again` is the control
      * word as the second look finds it, after the swap. */
    method TryWait(again: nat, ghost s: State) returns (ok: bool, ghost s': State)
      requires Shows(s, Ready) && Sane(s)
      modifies shared
      ensures ok <==> !CanReceive(s.me.end, s.peer.ring) && s.wake == Running && EpochOf(again) != rxEpoch
      ensures ok ==> Shows(s', Asleep) && shared.wakeState == OwnWait(s.me.end)
      ensures ok ==> s' == Apply(Apply(Apply(s, CheckEmpty), CasWait), Recheck)
      ensures !ok ==> s' == s && Shows(s', Ready)
    {
      hide EpochOf;
      var waitState := if discriminant then Wait0 else Wait1;
      s' := s;
      if EpochOf(rx[rxPos].ctrl) == rxEpoch {
        return false, s';
      }
      if shared.wakeState != Running {
        return false, s';
      }
      shared.wakeState := waitState;
      if EpochOf(again) == rxEpoch {
        shared.wakeState := Running;
        return false, s';
      }
      s' := Apply(Apply(Apply(s, CheckEmpty), CasWait), Recheck);
      ok := true;
    }

    /** Take the remembered wakeup, and return to polling; the wake word is this endpoint's to restore. */
    method Wakeup(ghost s: State) returns (ghost s': State)
      requires Shows(s, Asleep) && Sane(s) && Inv(s) && s.me.wakeup
      modifies own, shared
      ensures s' == Apply(Apply(s, SleepReturn), UmpChannel.Wakeup) && Shows(s', Ready)
      ensures !own.wakeup && shared.wakeState == Running
    {
      own.wakeup := false;
      assert shared.wakeState == if discriminant then Wait0 else Wait1;
      shared.wakeState := Running;
      s' := Apply(Apply(s, SleepReturn), UmpChannel.Wakeup);
    }
  }

  /** Set up both ends of a channel: each sends into the ring the other receives from, and notifies the context
    * the other sleeps on. If both are accepted, the machine starts here. */
  method OpenPair(src: Endpoint, dst: Endpoint, srcBytes: nat, srcAligned: bool, dstBytes: nat, dstAligned: bool)
    returns (ok: bool, ghost s: State)
    requires src.tx == dst.rx && src.rx == dst.tx && src.tx != src.rx && src.shared == dst.shared && src != dst
    requires src.own == dst.peerContext && src.peerContext == dst.own && src.own != src.peerContext
    requires src.discriminant && !dst.discriminant && !src.own.wakeup && !dst.own.wakeup
    requires srcBytes / MSG_BYTES == src.tx.Length && dstBytes / MSG_BYTES == dst.tx.Length
    requires forall j | 0 <= j < src.tx.Length :: |src.tx[j].data| == PAYLOAD_WORDS
    requires forall j | 0 <= j < dst.tx.Length :: |dst.tx[j].data| == PAYLOAD_WORDS
    modifies src, dst, src.tx, dst.tx, src.shared
    ensures ok <==> GoodBuffer(srcBytes, srcAligned) && GoodBuffer(dstBytes, dstAligned)
    ensures ok ==> UmpChannel.Init(s) && src.Shows(s, Ready) && dst.Shows(Swap(s), Ready)
    ensures ok ==> |s.me.ring| == srcBytes / MSG_BYTES && |s.peer.ring| == dstBytes / MSG_BYTES
  {
    var first := src.Init(srcBytes, srcAligned, dstBytes, dstAligned);
    var second := dst.Init(dstBytes, dstAligned, srcBytes, srcAligned);
    ok := first && second;
    s := State(Side(src.Private(Ready), src.tx[..], false, [], []),
               Side(dst.Private(Ready), dst.tx[..], false, [], []), Running);
  }

  /** A completed submit is two or three actions of the machine, so it keeps the invariant. */
  lemma AfterSubmitKeeps(s: State, tag: nat)
    requires Inv(s) && Enabled(s, Submit(tag))
    ensures Inv(AfterSubmit(s, tag))
  {
    hide Inv;
    SubmitKeeps(s, tag);
    var s1 := Apply(s, Submit(tag));
    InvIsSane(s1);
    ApplyKeeps(s1, LoadWake);
    var s2 := Apply(s1, LoadWake);
    if s.wake != Running {
      InvIsSane(s2);
      ApplyKeeps(s2, NotifyPeer);
    }
  }
}
