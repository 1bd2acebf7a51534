/** Whole calls of the send and receive functions, as paths of the machine. */
module SequenceRingCalls {
  import opened RingArith
  import opened SequenceRing
  import opened SequenceRingSafety

  ghost predicate Reachable(from: State, s: State) {
    exists t :: Path(t) && t[0] == from && t[|t| - 1] == s
  }

  lemma ReachSelf(s: State)
    ensures Reachable(s, s)
  {
    assert Path([s]);
  }

  lemma ReachStep(from: State, s: State, a: Action)
    requires Reachable(from, s) && Enabled(s, a)
    ensures Reachable(from, Apply(s, a))
  {
    var t :| Path(t) && t[0] == from && t[|t| - 1] == s;
    var t' := t + [Apply(s, a)];
    assert Next(s, Apply(s, a));
    assert Path(t');
  }

  /** A path that starts where a run ends continues it. */
  lemma ContinueRun(t: seq<State>, s: State) returns (t': seq<State>)
    requires Run(t) && Reachable(t[|t| - 1], s)
    ensures Run(t') && t'[0] == t[0] && t'[|t'| - 1] == s
  {
    hide Next, Init;
    var u :| Path(u) && u[0] == t[|t| - 1] && u[|u| - 1] == s;
    t' := t + u[1..];
    forall i | 0 < i < |t'|
      ensures Next(t'[i - 1], t'[i])
    {
      if |t| <= i {
        assert t'[i - 1] == u[i - |t|] && t'[i] == u[i - |t| + 1];
      }
    }
  }

  predicate IsMessage(msg: seq<int>) {
    |msg| == WORDS
  }

  lemma InvIsSane(s: State)
    requires Inv(s)
    ensures Sane(s)
  {
  }

  // ----- sending -----

  /** The write position is that of the next message. */
  ghost predicate Placed(s: State) {
    && 0 < |s.slots| && s.w.lPos <= |s.slots| && s.w.nextSeq == |s.sent| + 1
    && Pos(|s.sent|, |s.slots|) == (if s.w.lPos == |s.slots| then 0 else s.w.lPos)
  }

  lemma InvIsPlaced(s: State)
    requires Inv(s)
    ensures Placed(s)
  {
  }

  /** Only the writer moved, and it has sent `m` more messages and is between two calls. */
  ghost predicate Sent(s: State, s': State, m: nat) {
    && s'.pos == s.pos && s'.readers == s.readers && s'.fused == s.fused && |s'.slots| == |s.slots|
    && s.sent <= s'.sent && |s'.sent| == |s.sent| + m
    && Sane(s') && s'.w.pc.Idle? && s'.w.nextSync == s.w.nextSync && s'.w.nextSeq == s.w.nextSeq + m
  }

  lemma StorePlaced(s: State)
    requires Enabled(s, Store) && Placed(s)
    ensures Placed(Apply(s, Store))
  {
    PosStep(|s.sent|, |s.slots|);
  }

  /** Finish a send that passed the sync point. */
  lemma {:induction false} FinishSend(from: State, s: State) returns (s': State)
    requires Reachable(from, s) && Sane(s) && s.w.pc.Storing?
    ensures Reachable(from, s') && Sent(s, s', 1)
    ensures (Inv(s) ==> Inv(s')) && (Placed(s) ==> Placed(s'))
    decreases WORDS - s.w.pc.k
  {
    hide Inv, Placed, Reachable;
    ReachStep(from, s, Store);
    if Inv(s) {
      ApplyKeeps(s, Store);
    }
    if Placed(s) {
      StorePlaced(s);
    }
    if s.w.pc.k == WORDS {
      s' := Apply(s, Store);
    } else {
      s' := FinishSend(from, Apply(s, Store));
    }
  }

  /** A send that does not have to look for readers. */
  lemma SendOne(from: State, s: State, msg: seq<int>) returns (s': State)
    requires Reachable(from, s) && Sane(s) && s.w.pc.Idle? && s.w.nextSeq != s.w.nextSync && IsMessage(msg)
    ensures Reachable(from, s') && Sent(s, s', 1)
    ensures (Inv(s) ==> Inv(s')) && (Placed(s) ==> Placed(s'))
  {
    hide Inv, Reachable;
    ReachStep(from, s, Send(msg));
    if Inv(s) {
      SendFreely(s, msg);
    }
    s' := FinishSend(from, Apply(s, Send(msg)));
  }

  /** Away from the sync point a send needs no bound on it. */
  lemma SendFreely(s: State, msg: seq<int>)
    requires Inv(s) && Enabled(s, Send(msg)) && s.w.nextSeq != s.w.nextSync
    ensures Inv(Apply(s, Send(msg)))
  {
    hide RingHolds, Pos, ReaderInv, Published;
  }

  lemma {:induction false} SendMany(from: State, s: State, msg: seq<int>, m: nat) returns (s': State)
    requires Reachable(from, s) && Sane(s) && s.w.pc.Idle? && IsMessage(msg)
    requires s.w.nextSeq + m <= s.w.nextSync
    ensures Reachable(from, s') && Sent(s, s', m)
    ensures (Inv(s) ==> Inv(s')) && (Placed(s) ==> Placed(s'))
    decreases m
  {
    hide Inv, Placed, Reachable;
    s' := s;
    if 0 < m {
      s' := SendOne(from, s, msg);
      s' := SendMany(from, s', msg, m - 1);
    }
  }

  // ----- receiving -----

  /** Only reader `j` moved, and it is between two messages. */
  ghost predicate OnlyReader(s: State, s': State, j: nat) {
    && s'.w == s.w && s'.slots == s.slots && s'.sent == s.sent && s'.fused == s.fused
    && j < |s.readers| == |s'.readers| == |s.pos| == |s'.pos|
    && s'.readers == s.readers[j := s'.readers[j]] && s'.pos == s.pos[j := s'.pos[j]]
    && s'.readers[j].pc.Polling?
  }

  lemma PublishOne(from: State, s: State, j: nat) returns (s': State)
    requires Reachable(from, s) && Inv(s) && Sane(s) && j < |s.readers| && !s.readers[j].pc.Reading?
    ensures Reachable(from, s') && Inv(s') && Sane(s') && OnlyReader(s, s', j)
    ensures |s'.readers[j].got| == |s.readers[j].got|
  {
    hide Inv, Reachable;
    s' := s;
    if s.readers[j].pc.Publishing? {
      ReachStep(from, s, Publish(j));
      ApplyKeeps(s, Publish(j));
      s' := Apply(s, Publish(j));
      InvIsSane(s');
    }
  }

  lemma {:induction false} ReadRest(from: State, s: State, j: nat) returns (s': State)
    requires Reachable(from, s) && Inv(s) && Sane(s) && j < |s.readers| && s.readers[j].pc.Reading?
    requires |s.readers[j].pc.buf| <= WORDS
    ensures Reachable(from, s') && Inv(s') && Sane(s') && OnlyReader(s, s', j)
    ensures |s'.readers[j].got| == |s.readers[j].got| + 1
    decreases WORDS - |s.readers[j].pc.buf|
  {
    hide Inv, Reachable;
    if |s.readers[j].pc.buf| < WORDS {
      ReachStep(from, s, Read(j));
      ApplyKeeps(s, Read(j));
      InvIsSane(Apply(s, Read(j)));
      s' := ReadRest(from, Apply(s, Read(j)), j);
    } else {
      ReachStep(from, s, Finish(j));
      ApplyKeeps(s, Finish(j));
      InvIsSane(Apply(s, Finish(j)));
      s' := PublishOne(from, Apply(s, Finish(j)), j);
    }
  }

  /** A reader that polls and finds its message starts to read it. */
  lemma StartRead(from: State, s: State, j: nat) returns (s': State)
    requires Reachable(from, s) && Inv(s) && Sane(s) && j < |s.readers|
    requires s.readers[j].pc.Polling? && |s.readers[j].got| < |s.sent|
    ensures Reachable(from, s') && Inv(s') && Sane(s')
    ensures s' == s.(readers := s.readers[j := s.readers[j].(pc := Reading([]))])
  {
    hide Inv, Reachable;
    NextPayload(s, j);
    ReachStep(from, s, Check(j));
    ApplyKeeps(s, Check(j));
    s' := Apply(s, Check(j));
    InvIsSane(s');
  }

  lemma ReadOne(from: State, s: State, j: nat) returns (s': State)
    requires Reachable(from, s) && Inv(s) && Sane(s) && j < |s.readers|
    requires s.readers[j].pc.Polling? && |s.readers[j].got| < |s.sent|
    ensures Reachable(from, s') && Inv(s') && Sane(s') && OnlyReader(s, s', j)
    ensures |s'.readers[j].got| == |s.readers[j].got| + 1
  {
    hide Inv, Reachable;
    s' := StartRead(from, s, j);
    s' := ReadRest(from, s', j);
  }

  lemma {:induction false} ReadMany(from: State, s: State, j: nat, m: nat) returns (s': State)
    requires Reachable(from, s) && Inv(s) && Sane(s) && j < |s.readers|
    requires s.readers[j].pc.Polling? && |s.readers[j].got| + m <= |s.sent|
    ensures Reachable(from, s') && Inv(s') && Sane(s') && OnlyReader(s, s', j)
    ensures |s'.readers[j].got| == |s.readers[j].got| + m
    ensures s'.pos[j] == Published(|s.readers[j].got| + m)
    decreases m
  {
    hide Inv, Reachable, Published;
    s' := s;
    if 0 < m {
      s' := ReadOne(from, s, j);
      s' := ReadMany(from, s', j, m - 1);
    } else {
      PositionOf(s, j);
    }
  }

  lemma PositionOf(s: State, j: nat)
    requires Inv(s) && j < |s.readers| && s.readers[j].pc.Polling?
    ensures s.pos[j] == Published(|s.readers[j].got|)
  {
    hide RingHolds, WriterInv, SyncInv, Pos, Published;
    assert ReaderInv(s.readers[j], s.sent, |s.slots|, s.pos[j]);
  }

  /** A load of the search that keeps the invariant. */
  lemma ScanInvariantly(from: State, s: State) returns (s': State)
    requires Reachable(from, s) && Inv(s) && Enabled(s, Scan)
    requires s.w.pc.Reloading? ==> s.pos[s.w.pc.i] <= s.w.pc.min
    ensures s' == Apply(s, Scan) && Reachable(from, s') && Inv(s') && Sane(s')
  {
    hide Inv, Reachable;
    ReachStep(from, s, Scan);
    ScanKeeps(s);
    s' := Apply(s, Scan);
    InvIsSane(s');
  }
}
