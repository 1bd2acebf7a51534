/** When a writer at a sync point is released: 18 slots are needed, and they suffice. */
module SequenceRingProgress {
  import opened RingArith
  import opened SequenceRing
  import opened SequenceRingSafety
  import opened SequenceRingCalls
  import opened SequenceRingLimits

  /** Every reader has consumed all that was sent and is back to polling. */
  predicate Drained(s: State) {
    && |s.readers| == |s.pos|
    && forall j | 0 <= j < |s.readers| :: s.readers[j].pc.Polling? && |s.readers[j].got| == |s.sent|
  }

  predicate AtSync(s: State) {
    s.w.pc.Scanning? || s.w.pc.Reloading?
  }

  /** All positions are the last multiple published, which is at most 15 behind. */
  lemma DrainedPositions(s: State, j: nat)
    requires Inv(s) && Drained(s) && j < |s.pos|
    ensures s.pos[j] == Published(|s.sent|)
  {
    hide RingHolds, WriterInv, SyncInv, Pos, Published;
    assert ReaderInv(s.readers[j], s.sent, |s.slots|, s.pos[j]);
  }

  /** The state after the writer alone took up to `k` steps of its search. */
  function Search(s: State, k: nat): State
    decreases k
  {
    if k == 0 || !Enabled(s, Scan) then s else Search(Apply(s, Scan), k - 1)
  }

  lemma {:induction false} SearchOn(s: State, a: nat, b: nat)
    ensures Search(s, a + b) == Search(Search(s, a), b)
    decreases a
  {
    hide Enabled, Apply;
    if a != 0 && Enabled(s, Scan) {
      SearchOn(Apply(s, Scan), a - 1, b);
    } else if a != 0 {
      assert Search(s, b) == s;
    }
  }

  /** The search from reader `i` on, started afresh, with all readers at `p`. */
  ghost predicate FreshScan(s: State, p: nat) {
    && Sane(s) && s.w.pc.Scanning? && s.w.pc.i <= |s.pos| && |s.w.pc.msg| == WORDS && s.w.lPos < |s.slots|
    && (forall j | 0 <= j < |s.pos| :: s.pos[j] == p)
    && (s.w.pc.min == CAP || (s.w.pc.min == p && p <= CAP))
    && (0 < s.w.pc.i ==> s.w.pc.min <= p)
  }

  lemma {:induction false} FreshScanReleases(s: State, p: nat) returns (k: nat)
    requires FreshScan(s, p)
    requires s.w.nextSeq != CAP + (|s.slots| - 1) && s.w.nextSeq != p + (|s.slots| - 1)
    ensures Search(s, k).w.pc.Storing?
    decreases |s.pos| - s.w.pc.i
  {
    var s' := Apply(s, Scan);
    if s.w.pc.i == |s.pos| {
      k := 1;
      assert Search(s, 1) == s' by {
        SearchOne(s);
      }
    } else if s'.w.pc.Reloading? {
      var s'' := Apply(s', Scan);
      FreshScanStep(s, p);
      k := FreshScanReleases(s'', p);
      k := k + 2;
    } else {
      FreshScanStep(s, p);
      k := FreshScanReleases(s', p);
      k := k + 1;
    }
  }

  lemma SearchOne(s: State)
    requires Enabled(s, Scan)
    ensures Search(s, 1) == Apply(s, Scan)
  {
    assert Search(Apply(s, Scan), 0) == Apply(s, Scan);
  }

  lemma FreshScanStep(s: State, p: nat)
    requires FreshScan(s, p) && s.w.pc.i < |s.pos|
    ensures var s' := Apply(s, Scan);
            if s'.w.pc.Reloading? then
              Enabled(s', Scan) && FreshScan(Apply(s', Scan), p) && Apply(s', Scan).w.pc.i == s.w.pc.i + 1
            else FreshScan(s', p) && s'.w.pc.i == s.w.pc.i + 1
  {
  }

  predicate AtStart(s: State) {
    s.w.pc.Scanning? && s.w.pc.i == 0 && s.w.pc.min == CAP
  }

  /** A search already under way either releases the writer or starts afresh. */
  lemma {:induction false} PartialScan(s: State) returns (k: nat)
    requires Inv(s) && IsCareful(s) && AtSync(s)
    ensures Settled(s, Search(s, k))
    decreases |s.pos| - s.w.pc.i, if s.w.pc.Reloading? then 0 else 1
  {
    SyncShape(s);
    ApplyKeeps(s, Scan);
    ScanShape(s);
    hide Inv, Careful, Enabled, Apply;
    var s' := Apply(s, Scan);
    if s.w.pc.Scanning? && s.w.pc.i == |s.pos| {
      k := 1;
      SearchOne(s);
    } else {
      SyncShape(s');
      k := PartialScan(s');
      k := k + 1;
    }
  }

  /** The search is over, or at its start with nothing else changed. */
  ghost predicate Settled(s: State, last: State) {
    last.w.pc.Storing? || (AtStart(last) && Inv(last) && last == s.(w := s.w.(pc := last.w.pc)))
  }

  lemma ScanShape(s: State)
    requires Enabled(s, Scan) && AtSync(s) && s.w.pc.i <= |s.pos|
    ensures var s' := Apply(s, Scan);
            if s.w.pc.Scanning? && s.w.pc.i == |s.pos| then s'.w.pc.Storing? || AtStart(s') else AtSync(s')
    ensures var s' := Apply(s, Scan);
            s'.w.pc.Storing? || (s' == s.(w := s.w.(pc := s'.w.pc)))
    ensures var s' := Apply(s, Scan);
            AtSync(s') && !(s.w.pc.Scanning? && s.w.pc.i == |s.pos|) ==>
              s.w.pc.i < s'.w.pc.i || (s'.w.pc.i == s.w.pc.i && s.w.pc.Scanning? && s'.w.pc.Reloading?)
  {
  }

  lemma SyncShape(s: State)
    requires Inv(s) && AtSync(s)
    ensures Enabled(s, Scan) && s.w.pc.i <= |s.pos| && |s.w.pc.msg| == WORDS && s.w.lPos < |s.slots|
    ensures s.w.pc.Reloading? ==> s.w.pc.i < |s.pos|
    ensures s.w.nextSeq == s.w.nextSync == |s.sent| + 1
  {
  }

  lemma Release(s: State) returns (k: nat)
    requires Inv(s) && IsCareful(s) && AtSync(s) && Drained(s)
    requires (18 <= |s.slots| || |s.pos| == 0) && s.w.nextSeq <= CAP
    ensures Search(s, k).w.pc.Storing?
  {
    SyncShape(s);
    forall j | 0 <= j < |s.pos|
      ensures s.pos[j] == Published(|s.sent|)
    {
      DrainedPositions(s, j);
    }
    hide Inv, Careful, Published, Search, Apply;
    k := PartialScan(s);
    var last := Search(s, k);
    if !last.w.pc.Storing? {
      SyncShape(last);
      var p := if |s.pos| == 0 then s.w.nextSeq else Published(|s.sent|);
      var more := FreshScanReleases(last, p);
      SearchOn(s, k, more);
      k := k + more;
    }
  }

  /** Progress: with 18 slots or more and fewer than 2^32 messages, a writer spinning at its sync point is
    * released by its own search, alone, once the readers have drained the ring. */
  lemma ReleasedOnceDrained(t: seq<State>, i: nat)
    requires CarefulRun(t) && i < |t| && AtSync(t[i]) && Drained(t[i])
    requires 18 <= |t[0].slots| && t[i].w.nextSeq <= CAP
    ensures exists k: nat :: Search(t[i], k).w.pc.Storing?
  {
    hide Run, Inv, Careful, Search;
    RunKeeps(t, i);
    RunGrows(t, 0, i);
    RunGrows(t, i, |t| - 1);
    StillCareful(t[0].fused, |t[0].pos|, |t[0].slots|, |t[i].sent|, |t[|t| - 1].sent|);
    var k := Release(t[i]);
  }

  lemma StillCareful(fused: bool, readers: nat, slots: nat, m: nat, m': nat)
    requires Careful(fused, readers, slots, m') && m <= m'
    ensures Careful(fused, readers, slots, m)
  {
  }

  /** Number of messages a writer with fewer than 18 slots gets to send. */
  function SendLimit(n: nat): nat
    requires 2 <= n <= 17
  {
    if n == 17 then 30 else n - 2
  }

  ghost predicate Limited(s: State) {
    && Inv(s) && Capped(s) && 0 < |s.pos| && 2 <= |s.slots| <= 17
    && s.w.nextSync <= SendLimit(|s.slots|) + 1
  }

  lemma LimitedKeeps(s: State, s': State)
    requires Limited(s) && Next(s, s')
    ensures Limited(s')
  {
    var a :| Enabled(s, a) && s' == Apply(s, a);
    assert Safe(s.fused, |s.pos|, |s.slots|);
    ApplyKeeps(s, a);
    hide Inv, Published;
    if a.Scan? {
      LimitedScan(s);
    } else {
      KeepsSync(s, a);
    }
  }

  lemma KeepsSync(s: State, a: Action)
    requires Enabled(s, a) && !a.Scan?
    ensures var s' := Apply(s, a);
            s'.w.nextSync == s.w.nextSync && |s'.slots| == |s.slots| && |s'.pos| == |s.pos|
  {
  }

  /** The only publishable positions a writer this close to its start can find are 0 and 15. */
  lemma LimitedScan(s: State)
    requires Limited(s) && Enabled(s, Scan)
    ensures var s' := Apply(s, Scan);
            s'.w.nextSync <= SendLimit(|s.slots|) + 1 && |s'.slots| == |s.slots| && |s'.pos| == |s.pos|
  {
    PositionIsPublished(s, 0);
    ScanBounds(s);
    hide Inv;
  }

  lemma ScanBounds(s: State)
    requires Inv(s) && AtSync(s)
    ensures s.w.nextSync == |s.sent| + 1 && PubValue(s.w.pc.min)
    ensures 0 < s.w.pc.i && 0 < |s.pos| ==> s.w.pc.min <= s.pos[0]
  {
  }

  /** With fewer than 18 slots the writer stops for good: after n - 2 messages, or after 30 if n is 17. */
  lemma {:induction false} BlockedForever(t: seq<State>, i: nat)
    requires Run(t) && i < |t| && 0 < |t[0].pos| && 2 <= |t[0].slots| <= 17
    ensures |t[i].slots| == |t[0].slots| && |t[i].sent| <= SendLimit(|t[0].slots|)
    ensures Limited(t[i])
  {
    hide Inv, Next;
    if i == 0 {
      InvInit(t[0]);
    } else {
      BlockedForever(t, i - 1);
      LimitedKeeps(t[i - 1], t[i]);
      NextGrows(t[i - 1], t[i]);
    }
    NotPastSync(t[i]);
  }

  lemma NotPastSync(s: State)
    requires Inv(s)
    ensures |s.sent| + 1 == s.w.nextSeq <= s.w.nextSync
  {
  }

  /** The 32-bit start value of the search is a second limit: no more than 2^32 + n - 3 messages are ever
    * sent where the ring is safe. */
  lemma CapStopsWriter(t: seq<State>, i: nat)
    requires Run(t) && i < |t| && Safe(t[0].fused, |t[0].pos|, |t[0].slots|)
    ensures |t[i].sent| <= 0x1_0000_0000 + |t[0].slots| - 3
  {
    hide Init, Next, Inv;
    RunKeeps(t, i);
    RunGrows(t, 0, i);
    NotPastSync(t[i]);
  }

  // ----- progress over runs -----

  /** Every run that has not sent 2^32 - 1 messages can be continued to one that has sent more. */
  ghost predicate CanGoOn(fused: bool, k: nat, n: nat) {
    forall t: seq<State> | RunOf(t, fused, k, n) && |t[|t| - 1].sent| < CAP :: SendsMore(t[|t| - 1])
  }

  ghost predicate SendsMore(s: State) {
    exists s' :: Reachable(s, s') && |s.sent| < |s'.sent|
  }

  /** Let reader `j` finish what it is at. */
  lemma Settle(from: State, s: State, j: nat) returns (s': State)
    requires Reachable(from, s) && Inv(s) && Sane(s) && j < |s.readers|
    ensures Reachable(from, s') && Inv(s') && Sane(s') && OnlyReader(s, s', j)
    ensures |s'.readers[j].got| <= |s'.sent|
  {
    BehindWriter(s, j);
    hide Inv, Reachable, Published, Sane;
    if s.readers[j].pc.Reading? {
      s' := ReadRest(from, s, j);
    } else {
      s' := PublishOne(from, s, j);
    }
    BehindWriter(s', j);
  }

  lemma OnlyReaderTwice(s: State, s': State, s'': State, j: nat)
    requires OnlyReader(s, s', j) && OnlyReader(s', s'', j)
    ensures OnlyReader(s, s'', j)
  {
  }

  /** Let it also receive everything. */
  lemma DrainOne(from: State, s: State, j: nat) returns (s': State)
    requires Reachable(from, s) && Inv(s) && Sane(s) && j < |s.readers|
    ensures Reachable(from, s') && Inv(s') && Sane(s') && OnlyReader(s, s', j)
    ensures |s'.readers[j].got| == |s.sent|
  {
    hide Inv, Reachable, Published, Sane;
    var settled := Settle(from, s, j);
    s' := ReadMany(from, settled, j, |settled.sent| - |settled.readers[j].got|);
    OnlyReaderTwice(s, settled, s', j);
  }

  lemma BehindWriter(s: State, j: nat)
    requires Inv(s) && j < |s.readers|
    ensures |s.readers[j].got| <= |s.sent| && |s.readers| == |s.pos|
    ensures s.readers[j].pc.Reading? ==> |s.readers[j].pc.buf| <= WORDS
  {
    hide RingHolds, WriterInv, SyncInv, Pos, Published;
    assert ReaderInv(s.readers[j], s.sent, |s.slots|, s.pos[j]);
  }

  /** Readers from `k` on have received everything. */
  predicate DrainedFrom(s: State, k: nat) {
    && |s.readers| == |s.pos|
    && forall j | k <= j < |s.readers| :: s.readers[j].pc.Polling? && |s.readers[j].got| == |s.sent|
  }

  lemma {:induction false} DrainAll(from: State, s: State, k: nat) returns (s': State)
    requires Reachable(from, s) && Inv(s) && Sane(s) && k <= |s.readers| && DrainedFrom(s, k)
    ensures Reachable(from, s') && Inv(s') && Sane(s') && Drained(s')
    ensures s'.w == s.w && s'.sent == s.sent && SameShape(s, s')
    decreases k
  {
    hide Inv, Reachable;
    s' := s;
    if 0 < k {
      s' := DrainOne(from, s, k - 1);
      s' := DrainAll(from, s', k - 1);
    }
  }

  lemma {:induction false} SearchReaches(from: State, s: State, k: nat)
    requires Reachable(from, s)
    requires Sane(s) && s.w.lPos < |s.slots| && (s.w.pc.Storing? || (AtSync(s) && |s.w.pc.msg| == WORDS))
    ensures Reachable(from, Search(s, k)) && Search(s, k).sent == s.sent && Sane(Search(s, k))
    decreases k
  {
    hide Reachable;
    if k != 0 && Enabled(s, Scan) {
      ReachStep(from, s, Scan);
      SearchReaches(from, Apply(s, Scan), k - 1);
    }
  }

  /** From a drained state the writer alone sends one more message. */
  lemma SendDrained(from: State, s: State) returns (s': State)
    requires Reachable(from, s) && Inv(s) && Sane(s) && Capped(s) && Drained(s) && |s.sent| < CAP
    requires Safe(s.fused, |s.pos|, |s.slots|) && (18 <= |s.slots| || |s.pos| == 0)
    ensures Reachable(from, s') && |s'.sent| == |s.sent| + 1
  {
    NotPastSync(s);
    hide Inv, Reachable, Search, Safe, Published;
    s' := s;
    if s.w.pc.Idle? {
      ReachStep(from, s, Send(ZEROS));
      ApplyKeeps(s, Send(ZEROS));
      s' := Apply(s, Send(ZEROS));
      InvIsSane(s');
    }
    if AtSync(s') {
      SyncShape(s');
      var k := Release(s');
      SearchReaches(from, s', k);
      s' := Search(s', k);
    }
    s' := FinishSend(from, s');
  }

  lemma GoesOn(t: seq<State>)
    requires Run(t) && Safe(t[0].fused, |t[0].pos|, |t[0].slots|) && |t[|t| - 1].sent| < CAP
    requires 18 <= |t[0].slots| || |t[0].pos| == 0
    ensures SendsMore(t[|t| - 1])
  {
    var s := t[|t| - 1];
    RunKeeps(t, |t| - 1);
    RunGrows(t, 0, |t| - 1);
    InvIsSane(s);
    ReachSelf(s);
    hide Inv, Reachable, Safe, Run;
    var s' := DrainAll(s, s, |s.readers|);
    s' := SendDrained(s, s');
  }

  /** Where every run can go on, some run sends any number of messages. */
  lemma {:induction false} SendsAny(fused: bool, k: nat, n: nat, m: nat) returns (t: seq<State>)
    requires 2 <= n && CanGoOn(fused, k, n) && m <= CAP
    ensures RunOf(t, fused, k, n) && m <= |t[|t| - 1].sent|
    decreases m
  {
    hide Next, Reachable, Init;
    if m == 0 {
      t := FreshRun(fused, k, n);
    } else {
      t := SendsAny(fused, k, n, m - 1);
      if |t[|t| - 1].sent| < m {
        assert SendsMore(t[|t| - 1]);
        var s' :| Reachable(t[|t| - 1], s') && |t[|t| - 1].sent| < |s'.sent|;
        t := ContinueRun(t, s');
      }
    }
  }

  lemma FreshRun(fused: bool, k: nat, n: nat) returns (t: seq<State>)
    requires 2 <= n
    ensures RunOf(t, fused, k, n)
  {
    t := [Fresh(fused, k, n)];
    assert Path(t);
  }

  /** A safe ring goes on, up to the 2^32 messages, exactly if it has 18 slots or no readers. */
  lemma ProgressCondition(fused: bool, k: nat, n: nat)
    requires 2 <= n && Safe(fused, k, n)
    ensures CanGoOn(fused, k, n) <==> 18 <= n || k == 0
  {
    hide Next, Init, Safe, SendsMore;
    if 18 <= n || k == 0 {
      forall t: seq<State> | RunOf(t, fused, k, n) && |t[|t| - 1].sent| < CAP
        ensures SendsMore(t[|t| - 1])
      {
        GoesOn(t);
      }
    } else if CanGoOn(fused, k, n) {
      var t := SendsAny(fused, k, n, 31);
      BlockedForever(t, |t| - 1);
    }
  }

  /** Of the reader counts the queue can be set up with, safety and progress together hold for thirty to
    * forty-four. */
  lemma UsableReaderCounts(k: nat)
    requires 1 <= k <= 60
    ensures OverwriteFree(false, k, 62 - k) && InOrder(false, k, 62 - k) && CanGoOn(false, k, 62 - k)
            <==> 30 <= k <= 44
  {
    hide OverwriteFree, InOrder, CanGoOn;
    SafeReaderCounts(k);
    if Safe(false, k, 62 - k) {
      ProgressCondition(false, k, 62 - k);
    }
  }
}
