/** The broadcast ring with a reader bitmask per slot (shm_queue3). Every action makes at most one access to
  * shared memory; the compare-and-swap loop loads the header twice before it swaps. */
module MaskRing {
  import opened RingArith
  import opened ReaderBits

  const WORDS: nat := 7

  datatype Slot = Slot(header: bv64, data: seq<int>)

  datatype WriterPc =
    | Idle
    | Waiting(msg: seq<int>)            // spinning until the slot's header is zero
    | Storing(msg: seq<int>, k: nat)    // k payload words written

  datatype Writer = Writer(lPos: nat, pc: WriterPc)

  datatype ReaderPc =
    | Polling
    | Reading(buf: seq<int>)
    | Retrying(buf: seq<int>)                               // about to load the header
    | Loaded(buf: seq<int>, before: bv64)                    // about to load it again for the new value
    | Swapping(buf: seq<int>, before: bv64, again: bv64, after: bv64)   // about to compare and swap

  datatype Reader = Reader(lPos: nat, pc: ReaderPc, got: seq<seq<int>>)

  /** Reader `j` owns the bit `ids[j]` of every header. */
  datatype State = State(slots: seq<Slot>, writerMask: bv64, ids: seq<bv64>,
                         w: Writer, readers: seq<Reader>, sent: seq<seq<int>>)

  /** The writer's steps, and the next access of reader `j` to its slot. */
  datatype Action = Send(msg: seq<int>) | Spin | Store | Access(j: nat)

  predicate SaneReader(r: Reader, n: nat) {
    r.lPos < n && (r.pc.Reading? ==> |r.pc.buf| <= WORDS)
  }

  predicate Sane(s: State) {
    && s.w.lPos < |s.slots| && |s.ids| == |s.readers|
    && (forall j | 0 <= j < |s.ids| :: s.ids[j] < 64)
    && (forall i | 0 <= i < |s.slots| :: |s.slots[i].data| == WORDS)
    && (forall j | 0 <= j < |s.readers| :: SaneReader(s.readers[j], |s.slots|))
    && (s.w.pc.Storing? ==> |s.w.pc.msg| == WORDS && s.w.pc.k <= WORDS)
  }

  predicate Enabled(s: State, a: Action) {
    && Sane(s)
    && match a
       case Send(msg) => s.w.pc.Idle? && |msg| == WORDS
       case Spin => s.w.pc.Waiting?
       case Store => s.w.pc.Storing?
       case Access(j) => j < |s.readers|
  }

  function Following(pos: nat, n: nat): nat {
    if pos + 1 == n then 0 else pos + 1
  }

  function StoreSlot(w: Writer, slot: Slot, mask: bv64): Slot
    requires w.pc.Storing? && w.pc.k <= WORDS == |w.pc.msg| && |slot.data| == WORDS
  {
    if w.pc.k < WORDS then slot.(data := slot.data[w.pc.k := w.pc.msg[w.pc.k]])
    else slot.(header := mask)
  }

  function StoreWriter(w: Writer, n: nat): Writer
    requires w.pc.Storing?
  {
    if w.pc.k < WORDS then w.(pc := Storing(w.pc.msg, w.pc.k + 1))
    else Writer(Following(w.lPos, n), Idle)
  }

  /** A reader's access to its slot, other than a successful swap. */
  function Move(r: Reader, id: bv64, slot: Slot): Reader
    requires id < 64 && |slot.data| == WORDS && (r.pc.Reading? ==> |r.pc.buf| <= WORDS)
  {
    match r.pc
    case Polling => if Bit(slot.header, id) then r.(pc := Reading([])) else r
    case Reading(buf) =>
      if |buf| < WORDS then r.(pc := Reading(buf + [slot.data[|buf|]])) else r.(pc := Loaded(buf, slot.header))
    case Retrying(buf) => r.(pc := Loaded(buf, slot.header))
    case Loaded(buf, before) => r.(pc := Swapping(buf, before, slot.header, Turned(slot.header, id)))
    case Swapping(buf, _, _, _) => r.(pc := Retrying(buf))
  }

  function Swapped(r: Reader, n: nat): Reader
    requires r.pc.Swapping?
  {
    r.(lPos := Following(r.lPos, n), pc := Polling, got := r.got + [r.pc.buf])
  }

  /** The compare-and-swap about to be tried finds the header unchanged. */
  predicate Succeeds(r: Reader, slot: Slot) {
    r.pc.Swapping? && slot.header == r.pc.before
  }

  function AccessStep(s: State, j: nat): State
    requires Sane(s) && j < |s.readers|
  {
    var r := s.readers[j];
    var slot := s.slots[r.lPos];
    if Succeeds(r, slot) then
      s.(slots := s.slots[r.lPos := slot.(header := r.pc.after)],
         readers := s.readers[j := Swapped(r, |s.slots|)])
    else
      s.(readers := s.readers[j := Move(r, s.ids[j], slot)])
  }

  function Apply(s: State, a: Action): State
    requires Enabled(s, a)
  {
    match a
    case Send(msg) => s.(w := s.w.(pc := Waiting(msg)))
    case Spin => if s.slots[s.w.lPos].header == 0 then s.(w := s.w.(pc := Storing(s.w.pc.msg, 0))) else s
    case Store =>
      s.(w := StoreWriter(s.w, |s.slots|),
         slots := s.slots[s.w.lPos := StoreSlot(s.w, s.slots[s.w.lPos], s.writerMask)],
         sent := if s.w.pc.k < WORDS then s.sent else s.sent + [s.w.pc.msg])
    case Access(j) => AccessStep(s, j)
  }

  /** The set-up gives each reader its own id, and the writer one bit for each. */
  ghost predicate MaskOfIds(mask: bv64, ids: seq<bv64>) {
    && (forall a, b | 0 <= a < b < |ids| :: ids[a] != ids[b])
    && (forall k | 0 <= k < |ids| :: ids[k] < 64 && Bit(mask, ids[k]))
    && (forall j: bv64 | j < 64 && Bit(mask, j) :: j in ids)
  }

  /** Zeroed shared memory. */
  ghost predicate Init(s: State) {
    && Sane(s)
    && (forall i | 0 <= i < |s.slots| :: s.slots[i].header == 0)
    && MaskOfIds(s.writerMask, s.ids)
    && s.w == Writer(0, Idle)
    && (forall k | 0 <= k < |s.readers| :: s.readers[k] == Reader(0, Polling, []))
    && s.sent == []
  }

  ghost predicate Next(s: State, s': State) {
    exists a :: Enabled(s, a) && s' == Apply(s, a)
  }

  ghost predicate Run(t: seq<State>) {
    && 0 < |t| && Init(t[0])
    && forall i | 0 < i < |t| :: Next(t[i - 1], t[i])
  }
}
