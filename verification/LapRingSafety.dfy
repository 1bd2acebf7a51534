/** Every reader gets the writer's exact sequence over any number of laps. */
module LapRingSafety {
  import opened LapRing

  /** The current lap's messages are in the slots below the write position. */
  ghost predicate LapHolds(s: State) {
    && |s.sent| == s.base + s.writePos
    && s.writePos <= |s.slots|
    && forall k | 0 <= k < s.writePos :: s.slots[k] == s.sent[s.base + k]
  }

  /** A reader in the current lap, or done with it and not yet released. */
  ghost predicate ReaderInv(s: State, j: nat)
    requires j < |s.readers| && j < |s.readersPos|
  {
    var r, n := s.readers[j], |s.slots|;
    && |r.got| == r.base + r.lPos <= |s.sent| && r.got == s.sent[..|r.got|] && r.lPos <= n
    && (if s.readersPos[j] == END then
          r.pc.Waiting? && r.lPos == 0 && r.base == (if Rewound(s, j) then s.base else s.base + n)
        else
          r.base == s.base && r.lPos <= s.writePos && !Rewound(s, j))
    && (r.pc.Waiting? ==> r.lPos == 0 && (s.readersPos[j] == END || s.readersPos[j] == RESET))
    && (r.pc.Comparing? ==> r.lPos < n)
    && (r.pc.Reading? ==> r.lPos < s.writePos <= n && |r.pc.buf| < WORDS
                          && |s.slots[r.lPos]| == WORDS && r.pc.buf == s.slots[r.lPos][..|r.pc.buf|])
  }

  /** The writer has rewound but not yet released reader `j`. */
  predicate Rewound(s: State, j: nat) {
    s.w.Releasing? && s.w.i <= j
  }

  ghost predicate WriterInv(s: State) {
    var n := |s.slots|;
    && |s.readers| == |s.readersPos|
    && match s.w
       case Idle => true
       case Watching(msg, i) =>
         && s.writePos == n && i <= |s.readers| && |msg| == WORDS
         && (forall j | 0 <= j < i :: s.readersPos[j] == END)
       case Rewinding(msg) =>
         && s.writePos == n && |msg| == WORDS && (forall j | 0 <= j < |s.readers| :: s.readersPos[j] == END)
       case Releasing(msg, i) => s.writePos == 0 && i <= |s.readers| && |msg| == WORDS
       case Storing(msg, k) =>
         && s.writePos < n && k <= WORDS == |msg| && |s.slots[s.writePos]| == WORDS
         && s.slots[s.writePos][..k] == msg[..k]
  }

  ghost predicate Inv(s: State) {
    && Sane(s) && LapHolds(s) && WriterInv(s)
    && forall j | 0 <= j < |s.readers| :: ReaderInv(s, j)
  }

  lemma InitInv(s: State)
    requires Init(s)
    ensures Inv(s)
  {
  }

  /** What the invariant says apart from the readers. */
  ghost predicate MemoryInv(s: State) {
    Sane(s) && LapHolds(s) && WriterInv(s)
  }

  lemma InvParts(s: State)
    requires Inv(s)
    ensures MemoryInv(s)
  {
  }

  lemma ReaderNow(s: State, j: nat)
    requires Inv(s) && j < |s.readers|
    ensures Sane(s) && ReaderInv(s, j)
  {
  }

  lemma SendMemory(s: State, msg: seq<int>)
    requires MemoryInv(s) && Enabled(s, Send(msg))
    ensures MemoryInv(Apply(s, Send(msg)))
  {
  }

  lemma SendReader(s: State, msg: seq<int>, j: nat)
    requires Inv(s) && Enabled(s, Send(msg)) && j < |s.readers|
    ensures ReaderInv(Apply(s, Send(msg)), j)
  {
    hide Inv, LapHolds;
    ReaderNow(s, j);
  }

  lemma SendKeeps(s: State, msg: seq<int>)
    requires Inv(s) && Enabled(s, Send(msg))
    ensures Inv(Apply(s, Send(msg)))
  {
    hide ReaderInv, LapHolds, WriterInv;
    InvParts(s);
    SendMemory(s, msg);
    forall j | 0 <= j < |s.readers|
      ensures ReaderInv(Apply(s, Send(msg)), j)
    {
      SendReader(s, msg, j);
    }
  }

  lemma WriteMemory(s: State)
    requires MemoryInv(s) && Enabled(s, Write)
    ensures MemoryInv(Apply(s, Write))
  {
    if s.w.Storing? && s.w.k == WORDS {
      assert s.slots[s.writePos] == s.w.msg;
    }
  }

  lemma WriteReader(s: State, j: nat)
    requires Inv(s) && Enabled(s, Write) && j < |s.readers|
    ensures ReaderInv(Apply(s, Write), j)
  {
    assert ReaderInv(s, j);
  }

  lemma WriteKeeps(s: State)
    requires Inv(s) && Enabled(s, Write)
    ensures Inv(Apply(s, Write))
  {
    hide ReaderInv, LapHolds, WriterInv;
    InvParts(s);
    WriteMemory(s);
    forall j | 0 <= j < |s.readers|
      ensures ReaderInv(Apply(s, Write), j)
    {
      WriteReader(s, j);
    }
  }

  lemma CallMemory(s: State, j: nat)
    requires Inv(s) && Enabled(s, Call(j))
    ensures MemoryInv(Apply(s, Call(j)))
  {
    ReaderNow(s, j);
  }

  lemma CallReader(s: State, j: nat, i: nat)
    requires Inv(s) && Enabled(s, Call(j)) && i < |s.readers|
    ensures ReaderInv(Apply(s, Call(j)), i)
  {
    hide Inv;
    InvParts(s);
    ReaderNow(s, i);
  }

  lemma CallKeeps(s: State, j: nat)
    requires Inv(s) && Enabled(s, Call(j))
    ensures Inv(Apply(s, Call(j)))
  {
    hide ReaderInv, LapHolds, WriterInv;
    CallMemory(s, j);
    forall i | 0 <= i < |s.readers|
      ensures ReaderInv(Apply(s, Call(j)), i)
    {
      CallReader(s, j, i);
    }
  }

  /** The next word of a message being read. */
  lemma WordRead(s: State, j: nat)
    requires Inv(s) && j < |s.readers| && s.readers[j].pc.Reading?
    ensures var r := s.readers[j];
            var buf := r.pc.buf + [s.slots[r.lPos][|r.pc.buf|]];
            && |buf| <= WORDS && buf == s.slots[r.lPos][..|buf|]
            && |r.got| < |s.sent| && (|buf| == WORDS ==> r.got + [buf] == s.sent[..|r.got| + 1])
  {
    assert ReaderInv(s, j);
    var r := s.readers[j];
    assert s.slots[r.lPos] == s.sent[s.base + r.lPos];
    assert s.slots[r.lPos][..WORDS] == s.slots[r.lPos];
  }

  lemma AccessReader(s: State, j: nat, i: nat)
    requires Inv(s) && Enabled(s, Access(j)) && i < |s.readers|
    ensures ReaderInv(Apply(s, Access(j)), i)
  {
    assert ReaderInv(s, i);
    if i == j && s.readers[j].pc.Reading? {
      WordRead(s, j);
    }
  }

  lemma AccessKeeps(s: State, j: nat)
    requires Inv(s) && Enabled(s, Access(j))
    ensures Inv(Apply(s, Access(j)))
  {
    AccessReader(s, j, j);
    forall i | 0 <= i < |s.readers|
      ensures ReaderInv(Apply(s, Access(j)), i)
    {
      AccessReader(s, j, i);
    }
  }

  lemma StepKeeps(s: State, s': State)
    requires Inv(s) && Next(s, s')
    ensures Inv(s')
  {
    hide Inv, Apply;
    var a :| Enabled(s, a) && s' == Apply(s, a);
    match a
    case Send(msg) => SendKeeps(s, msg);
    case Write => WriteKeeps(s);
    case Call(j) => CallKeeps(s, j);
    case Access(j) => AccessKeeps(s, j);
  }

  lemma {:induction false} RunKeeps(t: seq<State>, i: nat)
    requires Run(t) && i < |t|
    ensures Inv(t[i])
  {
    hide Inv, Next;
    if i == 0 {
      InitInv(t[0]);
    } else {
      RunKeeps(t, i - 1);
      StepKeeps(t[i - 1], t[i]);
    }
  }

  // ----- theorems -----

  /** Every reader has received exactly a prefix of what was sent. */
  lemma DeliversInOrder(t: seq<State>, i: nat, j: nat)
    requires Run(t) && i < |t| && j < |t[i].readers|
    ensures t[i].readers[j].got <= t[i].sent
  {
    RunKeeps(t, i);
    assert ReaderInv(t[i], j);
  }

  /** While the writer stores into a slot, every reader has received all messages of the earlier laps, so also
    * the one the slot held before; and no reader is reading that slot. */
  lemma NeverOverwrites(t: seq<State>, i: nat, j: nat)
    requires Run(t) && i < |t| && j < |t[i].readers| && t[i].w.Storing?
    ensures |t[i].sent| - t[i].writePos <= |t[i].readers[j].got|
    ensures t[i].readers[j].pc.Reading? ==> t[i].readers[j].lPos != t[i].writePos
  {
    RunKeeps(t, i);
    assert ReaderInv(t[i], j);
  }

  /** The writer rewinds only when every reader has received the whole lap. */
  lemma RewindsAfterAll(t: seq<State>, i: nat, j: nat)
    requires Run(t) && i < |t| && j < |t[i].readers| && t[i].w.Rewinding?
    ensures t[i].readers[j].got == t[i].sent
  {
    RunKeeps(t, i);
    assert ReaderInv(t[i], j);
  }

  /** A reader's comparison with the write position is exact: it finds nothing exactly when it has received
    * everything sent so far. */
  lemma ComparesExactly(t: seq<State>, i: nat, j: nat)
    requires Run(t) && i < |t| && j < |t[i].readers| && t[i].readers[j].pc.Comparing?
    ensures t[i].readers[j].lPos == t[i].writePos <==> t[i].readers[j].got == t[i].sent
  {
    RunKeeps(t, i);
    assert ReaderInv(t[i], j);
  }

  /** The receive call that is meant not to block waits only after the last message of a lap, when nothing is
    * left to receive; it is released during the send of the next message, before that message is stored. */
  lemma WaitsOnlyWhenDrained(t: seq<State>, i: nat, j: nat)
    requires Run(t) && i < |t| && j < |t[i].readers| && j < |t[i].readersPos|
    requires t[i].readers[j].pc.Waiting? && t[i].readersPos[j] != RESET
    ensures t[i].readers[j].got == t[i].sent && !t[i].w.Storing?
  {
    RunKeeps(t, i);
    assert ReaderInv(t[i], j);
  }

  // ----- progress -----

  /** Every reader has read all there is, called again, and been told nothing new. */
  ghost predicate AllReported(s: State) {
    forall j | 0 <= j < |s.readersPos| :: s.readersPos[j] == END
  }

  /** Writer steps until the message is sent, once all readers have reported. */
  function Remaining(s: State): nat
    requires s.w.Storing? ==> s.w.k <= WORDS
    requires s.w.Watching? || s.w.Releasing? ==> s.w.i <= |s.readers|
  {
    match s.w
    case Idle => 0
    case Watching(_, i) => (|s.readers| - i) + |s.readers| + WORDS + 4
    case Rewinding(_) => |s.readers| + WORDS + 3
    case Releasing(_, i) => (|s.readers| - i) + WORDS + 2
    case Storing(_, k) => WORDS - k + 1
  }

  /** A writer at the end of a lap is released once every reader has reported: each of its steps then brings
    * it closer to having sent its message. */
  lemma ReleasedOnceReported(t: seq<State>, i: nat)
    requires Run(t) && i < |t| && !t[i].w.Idle?
    requires t[i].w.Watching? ==> AllReported(t[i])
    ensures Enabled(t[i], Write) && Sane(Apply(t[i], Write))
    ensures Remaining(Apply(t[i], Write)) < Remaining(t[i])
  {
    RunKeeps(t, i);
    WriteKeeps(t[i]);
  }

  /** And all have reported as soon as every reader has received the whole lap and called once more. */
  lemma ReportedOnceCalled(t: seq<State>, i: nat)
    requires Run(t) && i < |t| && t[i].writePos == |t[i].slots|
    requires forall j | 0 <= j < |t[i].readers| ::
               t[i].readers[j].got == t[i].sent
               && !(t[i].readers[j].pc.Outside? && t[i].readers[j].lPos == |t[i].slots|)
    ensures AllReported(t[i])
  {
    RunKeeps(t, i);
    forall j | 0 <= j < |t[i].readersPos|
      ensures t[i].readersPos[j] == END
    {
      assert ReaderInv(t[i], j);
    }
  }

  /** A reader still owing its report can always take a step towards it: it has a message to read, or it is
    * at the end of the lap and reports with its next call. */
  lemma ReportsWhenDrained(t: seq<State>, i: nat, j: nat)
    requires Run(t) && i < |t| && t[i].w.Watching?
    requires j < |t[i].readers| && j < |t[i].readersPos| && t[i].readersPos[j] != END
    ensures t[i].readers[j].got == t[i].sent ==> t[i].readers[j].pc.Outside? && t[i].readers[j].lPos == |t[i].slots|
    ensures t[i].readers[j].got != t[i].sent ==> t[i].readers[j].lPos < t[i].writePos
    ensures Enabled(t[i], if t[i].readers[j].pc.Outside? then Call(j) else Access(j))
  {
    RunKeeps(t, i);
    assert ReaderInv(t[i], j);
  }
}
