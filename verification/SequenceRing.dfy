/** The broadcast ring with sequence numbers (shm_queue4): one writer, any number of readers, positions
  * published every 16 messages. Every action makes at most one access to shared memory. */
module SequenceRing {
  import opened RingArith

  const WORDS: nat := 7
  const CAP: nat := 0xFFFF_FFFF     // where the search for the slowest reader starts

  datatype Slot = Slot(seqno: nat, data: seq<int>)

  datatype WriterPc =
    | Idle
    | Scanning(msg: seq<int>, i: nat, min: nat)                  // about to compare reader i's position
    | Reloading(msg: seq<int>, i: nat, min: nat, seen: nat)      // position `seen` was smaller; loading it again
    | Storing(msg: seq<int>, k: nat)                             // k payload words written

  datatype Writer = Writer(lPos: nat, nextSeq: nat, nextSync: nat, pc: WriterPc)

  datatype ReaderPc = Polling | Reading(buf: seq<int>) | Publishing

  datatype Reader = Reader(lPos: nat, nextSeq: nat, pc: ReaderPc, got: seq<seq<int>>)

  /** `fused` tells whether the compiled scan loads a position once instead of twice. */
  datatype State = State(fused: bool, slots: seq<Slot>, pos: seq<nat>,
                         w: Writer, readers: seq<Reader>, sent: seq<seq<int>>)

  datatype Action =
    | Send(msg: seq<int>) | Scan | Store
    | Check(j: nat) | Read(j: nat) | Finish(j: nat) | Publish(j: nat)

  predicate Sane(s: State) {
    && 2 <= |s.slots| && |s.pos| == |s.readers|
    && s.w.lPos <= |s.slots|
    && (s.w.pc.Storing? ==> s.w.lPos < |s.slots| && s.w.pc.k <= WORDS == |s.w.pc.msg|)
    && (forall j | 0 <= j < |s.slots| :: |s.slots[j].data| == WORDS)
    && (forall j | 0 <= j < |s.readers| :: s.readers[j].lPos < |s.slots|)
  }

  predicate Enabled(s: State, a: Action) {
    && Sane(s)
    && match a
       case Send(msg) => s.w.pc.Idle? && |msg| == WORDS
       case Scan => s.w.pc.Scanning? || (s.w.pc.Reloading? && s.w.pc.i < |s.pos|)
       case Store => s.w.pc.Storing?
       case Check(j) => j < |s.readers| && s.readers[j].pc.Polling?
       case Read(j) => j < |s.readers| && s.readers[j].pc.Reading? && |s.readers[j].pc.buf| < WORDS
       case Finish(j) => j < |s.readers| && s.readers[j].pc.Reading? && |s.readers[j].pc.buf| == WORDS
       case Publish(j) => j < |s.readers| && s.readers[j].pc.Publishing?
  }

  // ----- the writer -----

  /** Entering the send function: wrap the position, and look for readers only at the sync point. */
  function BeginSend(w: Writer, n: nat, msg: seq<int>): Writer {
    w.(lPos := if w.lPos == n then 0 else w.lPos,
       pc := if w.nextSeq == w.nextSync then Scanning(msg, 0, CAP) else Storing(msg, 0))
  }

  /** One load of the search for the slowest reader; a completed search either releases the writer or
    * starts again. */
  function ScanStep(w: Writer, n: nat, pos: seq<nat>, fused: bool): Writer
    requires 2 <= n && (w.pc.Scanning? || (w.pc.Reloading? && w.pc.i < |pos|))
  {
    match w.pc
    case Reloading(msg, i, min, seen) => w.(pc := Scanning(msg, i + 1, pos[i]))
    case Scanning(msg, i, min) =>
      if i < |pos| then
        if min > pos[i] then
          w.(pc := if fused then Scanning(msg, i + 1, pos[i]) else Reloading(msg, i, min, pos[i]))
        else
          w.(pc := Scanning(msg, i + 1, min))
      else if w.nextSeq == min + (n - 1) then
        w.(pc := Scanning(msg, 0, CAP))
      else
        w.(nextSync := min + (n - 1), pc := Storing(msg, 0))
  }

  /** Payload words in order, and the sequence number last. */
  function StoreSlot(w: Writer, slot: Slot): Slot
    requires w.pc.Storing? && w.pc.k <= WORDS == |w.pc.msg| && |slot.data| == WORDS
  {
    if w.pc.k < WORDS then slot.(data := slot.data[w.pc.k := w.pc.msg[w.pc.k]])
    else slot.(seqno := w.nextSeq)
  }

  function StoreWriter(w: Writer): Writer
    requires w.pc.Storing?
  {
    if w.pc.k < WORDS then w.(pc := Storing(w.pc.msg, w.pc.k + 1))
    else w.(lPos := w.lPos + 1, nextSeq := w.nextSeq + 1, pc := Idle)
  }

  // ----- a reader -----

  function CheckReader(r: Reader, slots: seq<Slot>): Reader
    requires r.lPos < |slots|
  {
    if r.nextSeq == slots[r.lPos].seqno then r.(pc := Reading([])) else r
  }

  function FinishReader(r: Reader, n: nat): Reader
    requires r.pc.Reading?
  {
    r.(lPos := if r.lPos + 1 == n then 0 else r.lPos + 1,
       nextSeq := r.nextSeq + 1,
       pc := if (r.nextSeq + 1) % 16 == 0 then Publishing else Polling,
       got := r.got + [r.pc.buf])
  }

  function Apply(s: State, a: Action): State
    requires Enabled(s, a)
  {
    match a
    case Send(msg) => s.(w := BeginSend(s.w, |s.slots|, msg))
    case Scan => s.(w := ScanStep(s.w, |s.slots|, s.pos, s.fused))
    case Store =>
      s.(w := StoreWriter(s.w),
         slots := s.slots[s.w.lPos := StoreSlot(s.w, s.slots[s.w.lPos])],
         sent := if s.w.pc.k < WORDS then s.sent else s.sent + [s.w.pc.msg])
    case Check(j) => s.(readers := s.readers[j := CheckReader(s.readers[j], s.slots)])
    case Read(j) =>
      var r := s.readers[j];
      var word := s.slots[r.lPos].data[|r.pc.buf|];
      s.(readers := s.readers[j := r.(pc := Reading(r.pc.buf + [word]))])
    case Finish(j) => s.(readers := s.readers[j := FinishReader(s.readers[j], |s.slots|)])
    case Publish(j) =>
      var r := s.readers[j];
      s.(pos := s.pos[j := if r.nextSeq == 0 then 0 else r.nextSeq - 1],
         readers := s.readers[j := r.(pc := Polling)])
  }

  /** Zeroed shared memory, with `|slots|` slots and `|pos|` readers. */
  predicate Init(s: State) {
    && Sane(s)
    && (forall j | 0 <= j < |s.slots| :: s.slots[j].seqno == 0)
    && (forall j | 0 <= j < |s.pos| :: s.pos[j] == 0)
    && s.w == Writer(0, 1, |s.slots| - 1, Idle)
    && (forall j | 0 <= j < |s.readers| :: s.readers[j] == Reader(0, 1, Polling, []))
    && s.sent == []
  }

  ghost predicate Next(s: State, s': State) {
    exists a :: Enabled(s, a) && s' == Apply(s, a)
  }

  ghost predicate Path(t: seq<State>) {
    0 < |t| && forall i | 0 < i < |t| :: Next(t[i - 1], t[i])
  }

  ghost predicate Run(t: seq<State>) {
    Path(t) && Init(t[0])
  }
}
