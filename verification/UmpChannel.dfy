/** The bidirectional UMP channel as a state machine: two endpoints, two rings, one shared wake word.
  * Every action touches shared memory at most once, so every interleaving of the two threads is a run. */
module UmpChannel {
  import opened RingArith
  import opened UmpWords

  /** One cache line of a ring: the control word and seven payload words. */
  datatype Slot = Slot(ctrl: nat, data: seq<int>)

  datatype WakeState = Running | Wait0 | Wait1

  /** Where an endpoint's thread is between two accesses to shared memory. */
  datatype Pc =
    | Ready                  // outside of all channel functions
    | Filling                // prepared a slot, writing its payload
    | Submitted              // control word written, about to look at the wake word
    | Notifying              // saw a waiting peer, about to set its wakeup flag
    | Claimed(slot: nat)     // saw a fresh epoch and advanced, about to read the header
    | Casting                // found nothing, about to swap the wake word
    | Rechecking             // swapped, about to look for a message once more
    | Aborting               // a message arrived meanwhile, about to restore the wake word
    | Asleep                 // blocked until the wakeup flag is set
    | Waking                 // woken, about to restore the wake word

  /** The private state of an endpoint; all indices are 16 bits wide. */
  datatype End = End(
    discriminant: bool,
    nextId: nat, seqId: nat, ackId: nat, lastAck: nat,
    txPos: nat, txEpoch: bool,
    rxPos: nat, rxEpoch: bool,
    pc: Pc)

  /** History: a message as submitted, with the number of messages its sender had received by then. */
  datatype Sent = Sent(tag: nat, ack: nat, data: seq<int>)

  /** History: a message as the receiver found it. */
  datatype Got = Got(tag: nat, data: seq<int>)

  /** One side: its endpoint, the ring it writes, its wakeup flag, and its history. */
  datatype Side = Side(end: End, ring: seq<Slot>, wakeup: bool, sent: seq<Sent>, got: seq<Got>)

  datatype State = State(me: Side, peer: Side, wake: WakeState)

  datatype Action =
    | Prepare | WriteWord(w: nat, v: int) | Submit(tag: nat)
    | LoadWake | NotifyPeer
    | Poll | ReadHeader
    | CheckEmpty | CasWait | Recheck | AbortWait | SleepReturn | Wakeup

  function OwnWait(e: End): WakeState {
    if e.discriminant then Wait0 else Wait1
  }

  function Swap(s: State): State {
    State(s.peer, s.me, s.wake)
  }

  /** Position and epoch after one slot, on either side of a ring of `n` slots. */
  function Advance(pos: nat, epoch: bool, n: nat): (nat, bool) {
    if pos + 1 == n then (0, !epoch) else (pos + 1, epoch)
  }

  predicate CanSend(e: End, bufmsgs: nat) {
    CanSendTest(e.nextId, e.ackId, bufmsgs)
  }

  predicate NeedsAck(e: End, rxBufmsgs: nat) {
    Wrap(e.seqId - e.lastAck) >= Wrap(rxBufmsgs - 1)
  }

  predicate CanReceive(e: End, rxRing: seq<Slot>)
    requires e.rxPos < |rxRing|
  {
    EpochOf(rxRing[e.rxPos].ctrl) == e.rxEpoch
  }

  // ----- what each action does to the endpoint that takes it -----

  function SubmitEnd(e: End, n: nat): End {
    var (pos, epoch) := Advance(e.txPos, e.txEpoch, n);
    e.(lastAck := e.seqId, nextId := Wrap(e.nextId + 1), txPos := pos, txEpoch := epoch, pc := Submitted)
  }

  function SubmitRing(e: End, ring: seq<Slot>, tag: nat): seq<Slot>
    requires e.txPos < |ring|
  {
    ring[e.txPos := ring[e.txPos].(ctrl := Pack(tag, e.seqId, e.txEpoch))]
  }

  function PollEnd(e: End, rxRing: seq<Slot>): End
    requires e.rxPos < |rxRing|
  {
    if CanReceive(e, rxRing) then
      var (pos, epoch) := Advance(e.rxPos, e.rxEpoch, |rxRing|);
      e.(rxPos := pos, rxEpoch := epoch, pc := Claimed(e.rxPos))
    else
      e
  }

  function HeaderEnd(e: End, raw: nat): End {
    e.(ackId := IndexOf(raw), seqId := Wrap(e.seqId + 1), pc := Ready)
  }

  predicate Sane(s: State) {
    && s.me.end.txPos < |s.me.ring| && s.me.end.rxPos < |s.peer.ring|
    && (s.me.end.pc.Claimed? ==> s.me.end.pc.slot < |s.peer.ring|)
    && (forall j | 0 <= j < |s.me.ring| :: |s.me.ring[j].data| == PAYLOAD_WORDS)
  }

  predicate Enabled(s: State, a: Action) {
    var pc := s.me.end.pc;
    && Sane(s)
    && match a
       case Prepare => pc.Ready? && CanSend(s.me.end, |s.me.ring|)
       case WriteWord(w, _) => pc.Filling? && w < PAYLOAD_WORDS
       case Submit(tag) => pc.Filling? && tag <= ACK_TAG
       case LoadWake => pc.Submitted?
       case NotifyPeer => pc.Notifying?
       case Poll => pc.Ready?
       case ReadHeader => pc.Claimed?
       case CheckEmpty => pc.Ready?
       case CasWait => pc.Casting?
       case Recheck => pc.Rechecking?
       case AbortWait => pc.Aborting?
       case SleepReturn => pc.Asleep? && s.me.wakeup
       case Wakeup => pc.Waking?
  }

  /** The state after `s.me` takes action `a`. */
  function Apply(s: State, a: Action): State
    requires Enabled(s, a)
  {
    var me, e := s.me, s.me.end;
    match a
    case Prepare => s.(me := me.(end := e.(pc := Filling)))
    case WriteWord(w, v) =>
      var slot := me.ring[e.txPos];
      s.(me := me.(ring := me.ring[e.txPos := slot.(data := slot.data[w := v])]))
    case Submit(tag) =>
      s.(me := me.(end := SubmitEnd(e, |me.ring|),
                   ring := SubmitRing(e, me.ring, tag),
                   sent := me.sent + [Sent(tag, |me.got|, me.ring[e.txPos].data)]))
    case LoadWake => s.(me := me.(end := e.(pc := if s.wake == Running then Ready else Notifying)))
    case NotifyPeer => State(me.(end := e.(pc := Ready)), s.peer.(wakeup := true), s.wake)
    case Poll => s.(me := me.(end := PollEnd(e, s.peer.ring)))
    case ReadHeader =>
      var slot := s.peer.ring[e.pc.slot];
      s.(me := me.(end := HeaderEnd(e, slot.ctrl), got := me.got + [Got(TagOf(slot.ctrl), slot.data)]))
    case CheckEmpty => s.(me := me.(end := e.(pc := if CanReceive(e, s.peer.ring) then Ready else Casting)))
    case CasWait =>
      if s.wake == Running then
        State(me.(end := e.(pc := Rechecking)), s.peer, OwnWait(e))
      else
        s.(me := me.(end := e.(pc := Ready)))
    case Recheck => s.(me := me.(end := e.(pc := if CanReceive(e, s.peer.ring) then Aborting else Asleep)))
    case AbortWait => State(me.(end := e.(pc := Ready)), s.peer, Running)
    case SleepReturn => s.(me := me.(end := e.(pc := Waking), wakeup := false))
    case Wakeup => State(me.(end := e.(pc := Ready)), s.peer, Running)
  }

  /** Bytes of a message in memory. */
  const MSG_BYTES: nat := 64

  /** The buffers initialisation accepts. */
  predicate GoodBuffer(bytes: nat, aligned: bool) {
    0 < bytes && bytes % MSG_BYTES == 0 && bytes / MSG_BYTES <= 65535 && aligned
  }

  predicate InitSide(side: Side, discriminant: bool) {
    && side.end == End(discriminant, 1, 0, 0, 0, 0, true, 0, true, Ready)
    && 0 < |side.ring|
    && (forall j | 0 <= j < |side.ring| :: side.ring[j].ctrl == 0 && |side.ring[j].data| == PAYLOAD_WORDS)
    && !side.wakeup && side.sent == [] && side.got == []
  }

  /** Both endpoints initialised, in either order, and told apart by the discriminant. Ring sizes may differ. */
  predicate Init(s: State) {
    && InitSide(s.me, s.me.end.discriminant) && InitSide(s.peer, !s.me.end.discriminant)
    && s.wake == Running
  }

  /** One step: an action of either endpoint. */
  ghost predicate Next(s: State, s': State) {
    || (exists a :: Enabled(s, a) && s' == Apply(s, a))
    || (exists a :: Enabled(Swap(s), a) && s' == Swap(Apply(Swap(s), a)))
  }

  ghost predicate Run(t: seq<State>) {
    && 0 < |t| && Init(t[0])
    && forall i | 0 < i < |t| :: Next(t[i - 1], t[i])
  }
}
