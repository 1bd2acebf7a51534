/** The broadcast ring with laps (the END/RESET variant of shm_queue): the writer rewinds its position when
  * every reader has reported the end of the lap, and then releases the readers one by one. Every action makes
  * at most one access to shared memory. */
module LapRing {

  const WORDS: nat := 7
  const END: nat := 1
  const RESET: nat := 9

  datatype WriterPc =
    | Idle
    | Watching(msg: seq<int>, i: nat)   // at the end of the lap, about to look at reader i
    | Rewinding(msg: seq<int>)          // about to put the write position back to 0
    | Releasing(msg: seq<int>, i: nat)  // about to reset reader i
    | Storing(msg: seq<int>, k: nat)    // k payload words written

  datatype ReaderPc =
    | Outside
    | Waiting                  // reported the end of the lap, spinning until reset
    | Comparing                // about to compare with the write position
    | Reading(buf: seq<int>)

  /** History: `base` is the number of messages of all earlier laps. */
  datatype Reader = Reader(lPos: nat, pc: ReaderPc, base: nat, got: seq<seq<int>>)

  datatype State = State(
    slots: seq<seq<int>>, writePos: nat, readersPos: seq<nat>,
    w: WriterPc, readers: seq<Reader>,
    base: nat, sent: seq<seq<int>>)

  datatype Action =
    | Send(msg: seq<int>) | Write
    | Call(j: nat) | Access(j: nat)

  predicate Sane(s: State) {
    && 0 < |s.slots| && |s.readersPos| == |s.readers| && s.writePos <= |s.slots|
    && (forall j | 0 <= j < |s.slots| :: |s.slots[j]| == WORDS)
    && (s.w.Watching? || s.w.Releasing? ==> s.w.i <= |s.readers|)
    && (s.w.Storing? ==> s.writePos < |s.slots| && s.w.k <= WORDS == |s.w.msg|)
    && (forall j | 0 <= j < |s.readers| ::
          s.readers[j].lPos <= |s.slots|
          && (s.readers[j].pc.Reading? ==> s.readers[j].lPos < |s.slots| && |s.readers[j].pc.buf| < WORDS))
  }

  predicate Enabled(s: State, a: Action) {
    && Sane(s)
    && match a
       case Send(msg) => s.w.Idle? && |msg| == WORDS
       case Write => !s.w.Idle?
       case Call(j) => j < |s.readers| && s.readers[j].pc.Outside?
       case Access(j) => j < |s.readers| && !s.readers[j].pc.Outside?
  }

  /** The writer's next access: a look at a reader starts over when that reader is not done. */
  function WriteStep(s: State): State
    requires Sane(s) && !s.w.Idle?
  {
    match s.w
    case Watching(msg, i) =>
      if i == |s.readers| then s.(w := Rewinding(msg))
      else s.(w := Watching(msg, if s.readersPos[i] == END then i + 1 else 0))
    case Rewinding(msg) => s.(writePos := 0, base := s.base + |s.slots|, w := Releasing(msg, 0))
    case Releasing(msg, i) =>
      if i == |s.readers| then s.(w := Storing(msg, 0))
      else s.(readersPos := s.readersPos[i := RESET], w := Releasing(msg, i + 1))
    case Storing(msg, k) =>
      if k < WORDS then
        s.(slots := s.slots[s.writePos := s.slots[s.writePos][k := msg[k]]], w := Storing(msg, k + 1))
      else
        s.(writePos := s.writePos + 1, w := Idle, sent := s.sent + [msg])
  }

  /** Entering the receive function: at the end of the lap, report it. */
  function CallStep(s: State, j: nat): State
    requires Sane(s) && j < |s.readers|
  {
    var r := s.readers[j];
    if r.lPos == |s.slots| then
      s.(readersPos := s.readersPos[j := END],
         readers := s.readers[j := r.(lPos := 0, base := r.base + |s.slots|, pc := Waiting)])
    else
      s.(readers := s.readers[j := r.(pc := Comparing)])
  }

  /** The reader's next access; reading the last word ends the call. */
  function ReadStep(r: Reader, mine: nat, writePos: nat, slots: seq<seq<int>>): Reader
    requires r.pc.Reading? ==> r.lPos < |slots| && |r.pc.buf| < |slots[r.lPos]|
  {
    match r.pc
    case Outside => r
    case Waiting => if mine == RESET then r.(pc := Comparing) else r
    case Comparing => r.(pc := if r.lPos == writePos then Outside else Reading([]))
    case Reading(buf) =>
      var buf' := buf + [slots[r.lPos][|buf|]];
      if |buf'| == WORDS then r.(lPos := r.lPos + 1, pc := Outside, got := r.got + [buf'])
      else r.(pc := Reading(buf'))
  }

  function Apply(s: State, a: Action): State
    requires Enabled(s, a)
  {
    match a
    case Send(msg) => s.(w := if s.writePos == |s.slots| then Watching(msg, 0) else Storing(msg, 0))
    case Write => WriteStep(s)
    case Call(j) => CallStep(s, j)
    case Access(j) => s.(readers := s.readers[j := ReadStep(s.readers[j], s.readersPos[j], s.writePos, s.slots)])
  }

  /** Zeroed shared memory. */
  predicate Init(s: State) {
    && Sane(s) && s.w == Idle && s.writePos == 0 && s.base == 0 && s.sent == []
    && forall j | 0 <= j < |s.readers| :: s.readersPos[j] == 0 && s.readers[j] == Reader(0, Outside, 0, [])
  }

  ghost predicate Next(s: State, s': State) {
    exists a :: Enabled(s, a) && s' == Apply(s, a)
  }

  ghost predicate Run(t: seq<State>) {
    && 0 < |t| && Init(t[0])
    && forall i | 0 < i < |t| :: Next(t[i - 1], t[i])
  }
}
