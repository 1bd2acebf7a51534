/** Where the sequence-number ring stops working: the race of the two loads of a position. */
module SequenceRingLimits {
  import opened RingArith
  import opened SequenceRing
  import opened SequenceRingSafety
  import opened SequenceRingCalls

  const ZEROS: seq<int> := [0, 0, 0, 0, 0, 0, 0]

  // ----- what overshooting leads to -----

  /** Reader 0 has found its next message and has not loaded a word of it. */
  ghost predicate Loading(s: State) {
    && 0 < |s.slots| && 0 < |s.readers|
    && var r := s.readers[0];
       r.pc == Reading([]) && |r.got| < |s.sent| && r.lPos == Pos(|r.got|, |s.slots|)
  }

  lemma StartLoading(from: State, s: State) returns (s': State)
    requires Reachable(from, s) && Inv(s) && Sane(s) && 0 < |s.readers|
    requires s.readers[0].pc.Polling? && |s.readers[0].got| < |s.sent|
    ensures Reachable(from, s') && Inv(s') && Sane(s') && Loading(s')
    ensures s' == s.(readers := s.readers[0 := s.readers[0].(pc := Reading([]))])
  {
    s' := StartRead(from, s, 0);
    hide RingHolds, WriterInv, SyncInv, Pos, Published, Reachable;
    assert ReaderInv(s.readers[0], s.sent, |s.slots|, s.pos[0]);
  }

  lemma SentKeepsLoading(s: State, s': State, m: nat)
    requires Loading(s) && Sent(s, s', m)
    ensures Loading(s')
  {
  }

  /** The next message goes into the slot reader 0 is loading from, and nothing stops the writer. */
  ghost predicate AboutToLap(s: State) {
    && Sane(s) && Placed(s) && s.w.pc.Idle? && s.w.nextSeq != s.w.nextSync
    && Loading(s) && |s.sent| == |s.readers[0].got| + |s.slots|
  }

  lemma {:induction false} StoreWords(from: State, s: State) returns (s': State)
    requires Reachable(from, s) && Sane(s) && s.w.pc.Storing?
    requires s.slots[s.w.lPos].data[..s.w.pc.k] == s.w.pc.msg[..s.w.pc.k]
    ensures Reachable(from, s') && Sane(s') && |s'.slots| == |s.slots|
    ensures s'.readers == s.readers && s'.sent == s.sent && s'.slots[s.w.lPos].data == s.w.pc.msg
    decreases WORDS - s.w.pc.k
  {
    hide Reachable;
    s' := s;
    if s.w.pc.k < WORDS {
      ReachStep(from, s, Store);
      s' := StoreWords(from, Apply(s, Store));
    }
  }

  lemma {:induction false} ReadWords(from: State, s: State) returns (s': State)
    requires Reachable(from, s) && Sane(s) && 0 < |s.readers| && s.readers[0].pc.Reading?
    requires s.readers[0].pc.buf <= s.slots[s.readers[0].lPos].data
    ensures Reachable(from, s') && s'.sent == s.sent && 0 < |s'.readers|
    ensures s'.readers[0].got == s.readers[0].got + [s.slots[s.readers[0].lPos].data]
    decreases WORDS - |s.readers[0].pc.buf|
  {
    hide Reachable;
    if |s.readers[0].pc.buf| < WORDS {
      ReachStep(from, s, Read(0));
      s' := ReadWords(from, Apply(s, Read(0)));
    } else {
      assert s.readers[0].pc.buf == s.slots[s.readers[0].lPos].data;
      ReachStep(from, s, Finish(0));
      s' := Apply(s, Finish(0));
    }
  }

  /** The writer laps the reader: it overwrites the reader's message, and the reader gets the wrong one. */
  lemma Lap(from: State, s: State) returns (a: State, b: State)
    requires Reachable(from, s) && AboutToLap(s)
    ensures Reachable(from, a) && Overwrites(a, 0)
    ensures Reachable(from, b) && 0 < |b.readers| && !(b.readers[0].got <= b.sent)
  {
    var r := s.readers[0];
    var msg := if s.sent[|r.got|] == ZEROS then ZEROS[0 := 1] else ZEROS;
    NextLap(|r.got|, |s.slots|);
    hide Reachable, Pos;
    ReachStep(from, s, Send(msg));
    a := Apply(s, Send(msg));
    b := StoreWords(from, a);
    b := ReadWords(from, b);
    assert b.readers[0].got[|r.got|] == msg && ZEROS[0 := 1][0] == 1 && msg != b.sent[|r.got|];
  }

  // ----- two or more readers, 33 or more slots -----

  /** Readers `k` and up have consumed 31 messages, the first one 15, the others none. */
  ghost predicate Prepared(s: State, k: nat) {
    && Inv(s) && Sane(s) && !s.fused && 2 <= k <= |s.readers| == |s.pos| && 33 <= |s.slots|
    && s.w.pc.Idle? && s.w.nextSeq == s.w.nextSync == |s.slots| - 1 && |s.sent| == |s.slots| - 2
    && (forall j | 0 <= j < |s.readers| :: s.readers[j].pc.Polling?)
    && |s.readers[0].got| == 15 && s.pos[0] == 15
    && |s.readers[1].got| == 0 && s.pos[1] == 0
    && (forall j | k <= j < |s.readers| :: |s.readers[j].got| == 31 && s.pos[j] == 31)
    && (forall j | 2 <= j < k :: |s.readers[j].got| == 0)
  }

  lemma PrepareFirst(start: State) returns (s: State)
    requires Init(start) && !start.fused && 2 <= |start.readers| && 33 <= |start.slots|
    ensures Reachable(start, s) && Prepared(s, |s.readers|)
  {
    hide Inv, Reachable;
    ReachSelf(start);
    InvInit(start);
    s := SendMany(start, start, ZEROS, |start.slots| - 2);
    s := ReadMany(start, s, 0, 15);
    PositionOf(s, 1);
  }

  lemma {:induction false} PrepareOthers(from: State, s: State, k: nat) returns (s': State)
    requires Reachable(from, s) && Prepared(s, k)
    ensures Reachable(from, s') && Prepared(s', 2)
    decreases k
  {
    hide Inv, Reachable;
    s' := s;
    if 2 < k {
      s' := ReadMany(from, s, k - 1, 31);
      s' := PrepareOthers(from, s', k - 1);
    }
  }

  /** The search has passed readers 0 and 1, and its minimum jumped from 15 to 31. */
  ghost predicate Overshot(s: State, i: nat) {
    && Sane(s) && Placed(s) && 2 <= i <= |s.readers| && !s.fused && 33 <= |s.slots|
    && s.w.pc.Scanning? && s.w.pc.i == i && s.w.pc.min == 31 && IsMessage(s.w.pc.msg)
    && s.w.nextSeq == s.w.nextSync == |s.slots| - 1 && s.w.lPos < |s.slots|
    && Loading(s) && |s.readers[0].got| == 15
    && (forall j | 2 <= j < |s.readers| :: s.pos[j] == 31)
  }

  lemma Overshoot(from: State, s: State) returns (s': State)
    requires Reachable(from, s) && Prepared(s, 2)
    ensures Reachable(from, s') && Overshot(s', 2)
  {
    hide Inv, Reachable, Placed, Pos;
    ReachStep(from, s, Send(ZEROS));
    ApplyKeeps(s, Send(ZEROS));
    var s1 := Apply(s, Send(ZEROS));
    InvIsSane(s1);
    var s2 := ScanInvariantly(from, s1);
    var s3 := ScanInvariantly(from, s2);
    var s4 := ScanInvariantly(from, s3);
    assert s4.w.pc == Reloading(ZEROS, 1, 15, 0);
    var s5 := ReadMany(from, s4, 1, 31);
    assert s5.pos[1] == 31;
    s' := StartLoading(from, s5);
    s' := SecondLoad(from, s');
  }

  lemma SecondLoad(from: State, s: State) returns (s': State)
    requires Reachable(from, s) && Inv(s) && s.w.pc.Reloading? && s.w.pc.i < |s.pos|
    ensures Reachable(from, s') && s' == Apply(s, Scan) && Sane(s') && Placed(s')
    ensures s'.w.lPos < |s.slots| && |s.w.pc.msg| == WORDS
  {
    ReachStep(from, s, Scan);
    s' := Apply(s, Scan);
  }

  lemma {:induction false} FinishScan(from: State, s: State) returns (s': State)
    requires Reachable(from, s) && s.w.pc.Scanning? && Overshot(s, s.w.pc.i)
    ensures Reachable(from, s') && Sane(s') && Placed(s') && Loading(s') && s'.w.pc.Storing?
    ensures s'.w.nextSeq == |s'.slots| - 1 && s'.w.nextSync == |s'.slots| + 30 && |s'.readers[0].got| == 15
    decreases |s.readers| - s.w.pc.i
  {
    hide Reachable, Pos;
    ReachStep(from, s, Scan);
    s' := Apply(s, Scan);
    if s.w.pc.i < |s.readers| {
      s' := FinishScan(from, s');
    }
  }

  /** With at least two readers and 33 slots, the writer can lap a reader. */
  lemma RaceLaps(start: State) returns (s: State)
    requires Init(start) && !start.fused && 2 <= |start.readers| && 33 <= |start.slots|
    ensures Reachable(start, s) && AboutToLap(s)
  {
    hide Inv, Reachable, Prepared, Overshot, Placed, Pos;
    s := PrepareFirst(start);
    s := PrepareOthers(start, s, |s.readers|);
    s := Overshoot(start, s);
    assert s.w.pc.Scanning? && s.w.pc.i == 2 by {
      ScanningPast(s);
    }
    s := FinishScan(start, s);
    s := LapAfter(start, s, 16);
  }

  /** Out of the search with a sync point too far ahead, the writer fills the ring and more. */
  lemma LapAfter(from: State, s: State, m: nat) returns (s': State)
    requires Reachable(from, s) && Sane(s) && Placed(s) && Loading(s) && s.w.pc.Storing?
    requires s.w.nextSeq + m + 1 < s.w.nextSync && s.w.nextSeq + m == |s.readers[0].got| + |s.slots|
    ensures Reachable(from, s') && AboutToLap(s')
  {
    hide Inv, Reachable, Pos;
    var s1 := FinishSend(from, s);
    SentKeepsLoading(s, s1, 1);
    s' := SendMany(from, s1, ZEROS, m);
    SentKeepsLoading(s1, s', m);
  }

  lemma ScanningPast(s: State)
    requires Overshot(s, 2)
    ensures s.w.pc.Scanning? && s.w.pc.i == 2
  {
  }

  // ----- one reader, 34 or more slots, 2^32 messages -----

  /** The only reader has received and published `p`, and the next search is due a lap minus one later. */
  ghost predicate Synced(s: State, p: nat) {
    && Inv(s) && Sane(s) && !s.fused && |s.readers| == 1 && 34 <= |s.slots|
    && s.w.pc.Idle? && s.w.nextSeq <= s.w.nextSync == p + |s.slots| - 1 && s.w.nextSeq == |s.sent| + 1
    && s.readers[0].pc.Polling? && |s.readers[0].got| == p
  }

  /** Position number `q` the reader publishes. */
  function Milestone(q: nat): (p: nat)
    ensures Published(p) == p
  {
    if q == 0 then 0 else 16 * q - 1
  }

  /** At the sync point, the reader `m` messages further. */
  lemma ToSync(from: State, s: State, p: nat) returns (s': State)
    requires Reachable(from, s) && Synced(s, p)
    ensures Reachable(from, s') && Synced(s', p) && s'.w.nextSeq == s'.w.nextSync && |s'.slots| == |s.slots|
  {
    hide Inv, Reachable;
    s' := SendMany(from, s, ZEROS, s.w.nextSync - s.w.nextSeq);
  }

  /** From one published position to the next: read sixteen messages, and search once. */
  lemma NextMilestone(from: State, s: State, q: nat) returns (s': State)
    requires Reachable(from, s) && Synced(s, Milestone(q)) && Milestone(q + 1) < CAP
    ensures Reachable(from, s') && Synced(s', Milestone(q + 1)) && |s'.slots| == |s.slots|
  {
    hide Inv, Reachable, Published;
    var p, p' := Milestone(q), Milestone(q + 1);
    s' := ToSync(from, s, p);
    s' := ReadMany(from, s', 0, p' - p);
    ApplyKeeps(s', Send(ZEROS));
    ReachStep(from, s', Send(ZEROS));
    s' := Apply(s', Send(ZEROS));
    InvIsSane(s');
    s' := ScanInvariantly(from, s');
    s' := ScanInvariantly(from, s');
    s' := ScanInvariantly(from, s');
    s' := FinishSend(from, s');
  }

  lemma {:induction false} ToMilestone(start: State, q: nat) returns (s: State)
    requires Init(start) && !start.fused && |start.readers| == 1 && 34 <= |start.slots| && Milestone(q) < CAP
    ensures Reachable(start, s) && Synced(s, Milestone(q))
    decreases q
  {
    if q == 0 {
      ReachSelf(start);
      InvInit(start);
      s := start;
    } else {
      hide Inv, Reachable, Synced;
      s := ToMilestone(start, q - 1);
      s := NextMilestone(start, s, q - 1);
    }
  }

  /** The last position below the start value of the search. */
  lemma LastMilestone()
    ensures Milestone(0x0FFF_FFFF) == CAP - 16
  {
  }

  /** The search starts at 2^32 - 1, finds the reader sixteen below that, and loads a position sixteen above:
    * the sync point moves past what the search can find. */
  lemma OvershootCap(from: State, s: State) returns (s': State)
    requires Reachable(from, s) && Synced(s, CAP - 16)
    ensures Reachable(from, s') && Sane(s') && Placed(s') && Loading(s') && s'.w.pc.Idle?
    ensures |s'.readers| == |s'.pos| == 1 && |s'.readers[0].got| == s'.pos[0] == CAP + 16 && !s'.fused
    ensures s'.w.nextSeq == CAP + |s'.slots| - 16 && s'.w.nextSync == CAP + |s'.slots| + 15
  {
    hide Inv, Reachable, Placed, Pos;
    PositionOf(s, 0);
    s' := ToSync(from, s, CAP - 16);
    PositionOf(s', 0);
    ApplyKeeps(s', Send(ZEROS));
    ReachStep(from, s', Send(ZEROS));
    s' := Apply(s', Send(ZEROS));
    InvIsSane(s');
    s' := ScanInvariantly(from, s');
    assert s'.w.pc == Reloading(ZEROS, 0, CAP, CAP - 16);
    s' := ReadMany(from, s', 0, 32);
    assert s'.pos[0] == CAP + 16;
    s' := FinishOvershoot(from, s');
  }

  lemma FinishOvershoot(from: State, s: State) returns (s': State)
    requires Reachable(from, s) && Inv(s) && Sane(s) && !s.fused && |s.readers| == |s.pos| == 1 && 34 <= |s.slots|
    requires s.w.pc == Reloading(ZEROS, 0, CAP, CAP - 16)
    requires s.w.nextSeq == s.w.nextSync == CAP + |s.slots| - 17 && |s.sent| + 1 == s.w.nextSeq
    requires s.readers[0].pc.Polling? && |s.readers[0].got| == CAP + 16 == s.pos[0]
    ensures Reachable(from, s') && Sane(s') && Placed(s') && Loading(s') && s'.w.pc.Idle?
    ensures |s'.readers| == |s'.pos| == 1 && |s'.readers[0].got| == s'.pos[0] == CAP + 16 && !s'.fused
    ensures s'.w.nextSeq == CAP + |s'.slots| - 16 && s'.w.nextSync == CAP + |s'.slots| + 15
  {
    hide Inv, Reachable, Placed, Pos;
    ReachStep(from, s, Scan);
    var s1 := Apply(s, Scan);
    ReachStep(from, s1, Scan);
    var s2 := Apply(s1, Scan);
    PassSearch(s);
    s' := FinishSend(from, s2);
    InvIsPlaced(s');
    s' := StartLoading(from, s');
    InvIsPlaced(s');
  }

  /** Leaving the search with the position loaded second keeps all of the invariant but the cap. */
  lemma PassSearch(s: State)
    requires Inv(s) && s.w.pc.Reloading? && |s.pos| == 1 && s.w.pc.i == 0 && s.w.nextSeq < s.pos[0] + |s.slots| - 1
    ensures var s1 := Apply(s, Scan);
            Enabled(s1, Scan) && s1.w.pc.Scanning? && Inv(Apply(s1, Scan)) && Sane(Apply(s1, Scan))
    ensures Apply(Apply(s, Scan), Scan) ==
            s.(w := s.w.(nextSync := s.pos[0] + |s.slots| - 1, pc := Storing(s.w.pc.msg, 0)))
  {
    hide RingHolds, Pos, ReaderInv, Published;
  }

  lemma LoseSync(from: State, s: State) returns (s': State)
    requires Reachable(from, s) && Sane(s) && Placed(s) && Loading(s) && s.w.pc.Idle?
    requires |s.readers| == |s.pos| == 1 && s.pos[0] == CAP + 16
    requires s.w.nextSeq == s.w.nextSync == CAP + |s.slots| + 15
    ensures Reachable(from, s') && Sane(s') && Placed(s') && Loading(s') && s'.w.pc.Storing?
    ensures s'.slots == s.slots && s'.readers == s.readers && s'.w.nextSeq == s.w.nextSeq
    ensures s'.w.nextSync == CAP + |s.slots| - 1
  {
    hide Reachable, Pos;
    ReachStep(from, s, Send(ZEROS));
    s' := Apply(s, Send(ZEROS));
    ReachStep(from, s', Scan);
    s' := Apply(s', Scan);
    ReachStep(from, s', Scan);
    s' := Apply(s', Scan);
  }

  /** After that one search finds no position below its start, leaves the sync point behind the next number,
    * and no send looks for readers again. */
  lemma CapLaps(start: State) returns (s: State)
    requires Init(start) && !start.fused && |start.readers| == 1 && 34 <= |start.slots|
    ensures Reachable(start, s) && AboutToLap(s)
  {
    hide Inv, Reachable, Pos, Synced;
    LastMilestone();
    s := ToMilestone(start, 0x0FFF_FFFF);
    s := OvershootCap(start, s);
    var n, s1 := |s.slots|, s;
    s := SendMany(start, s1, ZEROS, 31);
    SentKeepsLoading(s1, s, 31);
    s1 := LoseSync(start, s);
    s := FinishSend(start, s1);
    SentKeepsLoading(s1, s, 1);
    s1 := s;
    s := SendOne(start, s1, ZEROS);
    SentKeepsLoading(s1, s, 1);
  }

  // ----- the exact conditions -----

  /** With at least two readers and 33 slots, one run overwrites a message reader 0 has not consumed, and in
    * another the reader receives what was never its next message. */
  lemma RaceOverwrites(start: State) returns (t: seq<State>, u: seq<State>)
    requires Init(start) && !start.fused && 2 <= |start.readers| && 33 <= |start.slots|
    ensures Run(t) && t[0] == start && Overwrites(t[|t| - 1], 0)
    ensures Run(u) && u[0] == start && OutOfOrder(u[|u| - 1], 0)
  {
    hide Run, Reachable, AboutToLap;
    var s := RaceLaps(start);
    t, u := LapRuns(start, s);
  }

  /** So do runs with one reader and 34 slots, once 2^32 messages have been sent. */
  lemma OneReaderOverwrites(start: State) returns (t: seq<State>, u: seq<State>)
    requires Init(start) && !start.fused && |start.readers| == 1 && 34 <= |start.slots|
    ensures Run(t) && t[0] == start && Overwrites(t[|t| - 1], 0)
    ensures Run(u) && u[0] == start && OutOfOrder(u[|u| - 1], 0)
  {
    hide Run, Reachable, AboutToLap;
    var s := CapLaps(start);
    t, u := LapRuns(start, s);
  }

  predicate OutOfOrder(s: State, j: nat) {
    j < |s.readers| && !(s.readers[j].got <= s.sent)
  }

  lemma LapRuns(start: State, s: State) returns (t: seq<State>, u: seq<State>)
    requires Init(start) && Reachable(start, s) && AboutToLap(s)
    ensures Run(t) && t[0] == start && Overwrites(t[|t| - 1], 0)
    ensures Run(u) && u[0] == start && OutOfOrder(u[|u| - 1], 0)
  {
    var a, b := Lap(start, s);
    hide Reachable, AboutToLap, Init, Next;
    t := ContinueRun([start], a);
    u := ContinueRun([start], b);
  }

  /** A fresh queue of `n` slots for `k` readers. */
  function Fresh(fused: bool, k: nat, n: nat): (s: State)
    requires 2 <= n
    ensures Init(s) && s.fused == fused && |s.readers| == |s.pos| == k && |s.slots| == n
  {
    State(fused, seq(n, _ => Slot(0, ZEROS)), seq(k, _ => 0),
          Writer(0, 1, n - 1, Idle), seq(k, _ => Reader(0, 1, Polling, [])), [])
  }

  ghost predicate RunOf(t: seq<State>, fused: bool, k: nat, n: nat) {
    Run(t) && t[0].fused == fused && |t[0].readers| == |t[0].pos| == k && |t[0].slots| == n
  }

  ghost predicate OverwriteFree(fused: bool, k: nat, n: nat) {
    forall t: seq<State>, i: nat, j: nat | RunOf(t, fused, k, n) && i < |t| && j < k :: !Overwrites(t[i], j)
  }

  ghost predicate InOrder(fused: bool, k: nat, n: nat) {
    forall t: seq<State>, i: nat, j: nat | RunOf(t, fused, k, n) && i < |t| && j < k :: !OutOfOrder(t[i], j)
  }

  /** Exactly when no run ever overwrites an unread message, and exactly when all of them deliver in order. */
  lemma SafetyCondition(fused: bool, k: nat, n: nat)
    requires 2 <= n
    ensures Safe(fused, k, n) <==> OverwriteFree(fused, k, n)
    ensures Safe(fused, k, n) <==> InOrder(fused, k, n)
  {
    hide Run, Overwrites;
    if Safe(fused, k, n) {
      forall t: seq<State>, i: nat, j: nat | RunOf(t, fused, k, n) && i < |t| && j < k
        ensures !Overwrites(t[i], j) && !OutOfOrder(t[i], j)
      {
        SafeRun(t, i, j);
      }
    } else {
      UnsafeRuns(fused, k, n);
    }
  }

  lemma SafeRun(t: seq<State>, i: nat, j: nat)
    requires Run(t) && Safe(t[0].fused, |t[0].pos|, |t[0].slots|) && i < |t| && j < |t[0].readers|
    ensures !Overwrites(t[i], j) && !OutOfOrder(t[i], j)
  {
    RunGrows(t, 0, i);
    NeverOverwrites(t, i, j);
    DeliversInOrder(t, i, j);
  }

  lemma UnsafeRuns(fused: bool, k: nat, n: nat)
    requires 2 <= n && !Safe(fused, k, n)
    ensures !OverwriteFree(fused, k, n) && !InOrder(fused, k, n)
  {
    hide Next, Init, Overwrites, OutOfOrder;
    var start := Fresh(fused, k, n);
    var t, u;
    if k == 1 {
      t, u := OneReaderOverwrites(start);
    } else {
      t, u := RaceOverwrites(start);
    }
    assert RunOf(t, fused, k, n) && RunOf(u, fused, k, n);
    assert Overwrites(t[|t| - 1], 0) && OutOfOrder(u[|u| - 1], 0);
  }

  /** The queue allots 62 slots minus one per reader: with the positions loaded twice, as compiled from the
    * volatile declaration, it is safe for thirty readers or more, and for none. */
  lemma SafeReaderCounts(k: nat)
    requires k <= 60
    ensures OverwriteFree(false, k, 62 - k) && InOrder(false, k, 62 - k) <==> k == 0 || 30 <= k
  {
    SafetyCondition(false, k, 62 - k);
  }
}
