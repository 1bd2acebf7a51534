/** Safety of the sequence-number ring, and the exact reader counts for which it holds. */
module SequenceRingSafety {
  import opened RingArith
  import opened SequenceRing

  /** Values a reader ever publishes. */
  predicate PubValue(x: int) {
    x == 0 || (0 < x && x % 16 == 15)
  }

  /** Position a reader that consumed `c` messages has published. */
  function Published(c: nat): (p: nat)
    ensures p <= c && PubValue(p) && c < p + 16
  {
    if c < 15 then 0 else c - (c + 1) % 16
  }

  /** When the two loads of a position in the search can never do harm. */
  predicate Safe(fused: bool, readers: nat, slots: nat) {
    fused || readers == 0 || slots <= 32 || (readers == 1 && slots <= 33)
  }

  /** They do none to a single reader either until 2^32 messages have been sent. */
  predicate Careful(fused: bool, readers: nat, slots: nat, sent: nat) {
    Safe(fused, readers, slots) || (readers == 1 && sent <= CAP)
  }

  predicate IsCareful(s: State) {
    Careful(s.fused, |s.pos|, |s.slots|, |s.sent|)
  }

  // ----- invariant -----

  ghost predicate RingHolds(sent: seq<seq<int>>, slots: seq<Slot>) {
    var n := |slots|;
    && 0 < n
    && (forall i: nat | |sent| - n <= i < |sent| :: slots[Pos(i, n)].seqno == i + 1)
    && (forall j | |sent| <= j < n :: slots[j].seqno == 0)
    && (forall i: nat | |sent| - n < i < |sent| :: slots[Pos(i, n)].data == sent[i])
  }

  ghost predicate WriterInv(w: Writer, sent: seq<seq<int>>, slots: seq<Slot>) {
    var n := |slots|;
    && 0 < n
    && w.nextSeq == |sent| + 1
    && w.lPos <= n
    && Pos(|sent|, n) == (if w.lPos == n then 0 else w.lPos)
    && (!w.pc.Idle? ==> w.lPos < n && |w.pc.msg| == WORDS)
    && (w.pc.Storing? ==> w.pc.k <= WORDS == |slots[w.lPos].data|
                          && slots[w.lPos].data[..w.pc.k] == w.pc.msg[..w.pc.k])
  }

  ghost predicate ReaderInv(r: Reader, sent: seq<seq<int>>, n: nat, p: nat) {
    var c := |r.got|;
    && 0 < n && c <= |sent| && r.got == sent[..c]
    && r.nextSeq == c + 1 && r.lPos == Pos(c, n)
    && (r.pc.Reading? ==> c < |sent| && |r.pc.buf| <= WORDS == |sent[c]| && r.pc.buf == sent[c][..|r.pc.buf|])
    && p == (if r.pc.Publishing? && c > 0 then Published(c - 1) else Published(c))
    && (r.pc.Publishing? ==> (c + 1) % 16 == 0)
  }

  ghost predicate ReadersInv(s: State) {
    && |s.pos| == |s.readers|
    && forall j | 0 <= j < |s.readers| :: ReaderInv(s.readers[j], s.sent, |s.slots|, s.pos[j])
  }

  ghost predicate SyncInv(s: State) {
    var w, n := s.w, |s.slots|;
    && (forall j | 0 <= j < |s.pos| :: w.nextSync <= s.pos[j] + (n - 1))
    && n - 1 <= w.nextSync
    && w.nextSeq <= w.nextSync
    && (w.pc.Storing? ==> w.nextSeq < w.nextSync)
    && (w.pc.Scanning? || w.pc.Reloading? ==> w.nextSeq == w.nextSync && ScanInv(s))
  }

  /** The minimum so far is a published value no scanned reader is behind. */
  ghost predicate ScanInv(s: State)
    requires !s.w.pc.Idle? && !s.w.pc.Storing?
  {
    var w, n := s.w, |s.slots|;
    && w.pc.i <= |s.pos| && w.pc.min <= CAP && PubValue(w.pc.min)
    && w.nextSync <= w.pc.min + (n - 1) && (w.pc.i == 0 ==> w.pc.min == CAP)
    && (forall j | 0 <= j < w.pc.i :: w.pc.min <= s.pos[j])
    && (w.pc.Reloading? ==> w.pc.i < |s.pos| && PubValue(w.pc.seen) && !s.fused
                            && w.nextSync <= w.pc.seen + (n - 1) && w.pc.seen < w.pc.min
                            && w.pc.seen <= s.pos[w.pc.i])
  }

  ghost predicate Inv(s: State) {
    && Sane(s)
    && RingHolds(s.sent, s.slots)
    && WriterInv(s.w, s.sent, s.slots)
    && ReadersInv(s)
    && SyncInv(s)
    && (forall i | 0 <= i < |s.sent| :: |s.sent[i]| == WORDS)
  }

  /** The sync point is one the search can find: a lap minus one beyond its start value at most. */
  predicate Capped(s: State) {
    s.w.nextSync <= CAP + |s.slots| - 1
  }

  lemma InvInit(s: State)
    requires Init(s)
    ensures Inv(s) && Capped(s)
  {
  }

  /** Nobody is more than a lap minus two behind the writer. */
  lemma WithinLap(s: State, j: nat)
    requires Inv(s) && j < |s.readers|
    ensures |s.sent| + 2 <= |s.readers[j].got| + |s.slots|
    ensures s.pos[j] <= |s.readers[j].got| <= |s.sent|
  {
    hide RingHolds, Pos, Published;
    assert ReaderInv(s.readers[j], s.sent, |s.slots|, s.pos[j]);
    assert s.w.nextSync <= s.pos[j] + (|s.slots| - 1);
  }

  lemma SendKeeps(s: State, msg: seq<int>)
    requires Inv(s) && Capped(s) && Enabled(s, Send(msg))
    ensures Inv(Apply(s, Send(msg)))
  {
    hide RingHolds, Pos, ReaderInv, Published;
  }

  lemma StoreKeeps(s: State)
    requires Inv(s) && Enabled(s, Store)
    ensures Inv(Apply(s, Store))
  {
    hide RingHolds, Pos, WriterInv, ReaderInv, Published;
    StoreRing(s);
    StoreWriterInv(s);
    StoreReaders(s);
  }

  lemma StoreReaders(s: State)
    requires Inv(s) && Enabled(s, Store)
    ensures ReadersInv(Apply(s, Store)) && SyncInv(Apply(s, Store))
  {
    hide RingHolds, Pos, Published;
    var s' := Apply(s, Store);
    forall j | 0 <= j < |s.readers|
      ensures ReaderInv(s.readers[j], s'.sent, |s'.slots|, s.pos[j])
    {
      assert ReaderInv(s.readers[j], s.sent, |s.slots|, s.pos[j]);
    }
  }

  lemma StoreWriterInv(s: State)
    requires Inv(s) && Enabled(s, Store)
    ensures var s' := Apply(s, Store); WriterInv(s'.w, s'.sent, s'.slots)
    ensures forall i | 0 <= i < |Apply(s, Store).sent| :: |Apply(s, Store).sent[i]| == WORDS
  {
    hide RingHolds, Pos, ReaderInv, SyncInv, Published;
    PosStep(|s.sent|, |s.slots|);
  }

  lemma StoreRing(s: State)
    requires Inv(s) && Enabled(s, Store)
    ensures var s' := Apply(s, Store); RingHolds(s'.sent, s'.slots)
  {
    hide Pos, ReaderInv, SyncInv, Published;
    var s' := Apply(s, Store);
    var n, m := |s.slots|, |s.sent|;
    forall i: nat | |s'.sent| - n <= i < |s'.sent|
      ensures s'.slots[Pos(i, n)].seqno == i + 1
    {
      if i < m && m < i + n {
        PosInjective(i, m, n);
      }
    }
    forall i: nat | |s'.sent| - n < i < |s'.sent|
      ensures s'.slots[Pos(i, n)].data == s'.sent[i]
    {
      if i < m {
        PosInjective(i, m, n);
      } else {
        assert s.slots[s.w.lPos].data == s.w.pc.msg;
      }
    }
    if m < n {
      FirstLap(m, n);
    }
  }

  // ----- readers -----

  predicate ReaderAction(a: Action, j: nat) {
    a == Check(j) || a == Read(j) || a == Finish(j) || a == Publish(j)
  }

  lemma ReaderKeeps(s: State, a: Action, j: nat)
    requires Inv(s) && Enabled(s, a) && ReaderAction(a, j)
    ensures Inv(Apply(s, a))
  {
    hide Inv, ReaderInv;
    var s' := Apply(s, a);
    match a {
      case Check(_) => CheckKeeps(s, j);
      case Read(_) => ReadKeeps(s, j);
      case Finish(_) => FinishKeeps(s, j);
      case Publish(_) => PublishKeeps(s, j);
    }
    assert s'.pos == s.pos[j := s'.pos[j]];
    ReaderFrame(s, j, s'.readers[j], s'.pos[j]);
  }

  /** A reader's move matters to nobody else, as long as its position does not go back. */
  lemma ReaderFrame(s: State, j: nat, r: Reader, p: nat)
    requires Inv(s) && j < |s.readers| && r.lPos < |s.slots|
    requires ReaderInv(r, s.sent, |s.slots|, p) && s.pos[j] <= p
    ensures Inv(s.(readers := s.readers[j := r], pos := s.pos[j := p]))
  {
    hide RingHolds, Pos, WriterInv, ReaderInv, Published;
  }

  lemma CheckKeeps(s: State, j: nat)
    requires Inv(s) && Enabled(s, Check(j))
    ensures ReaderInv(CheckReader(s.readers[j], s.slots), s.sent, |s.slots|, s.pos[j])
  {
    hide Pos, SyncInv, WriterInv, Published;
    assert ReaderInv(s.readers[j], s.sent, |s.slots|, s.pos[j]);
    if |s.readers[j].got| == |s.sent| {
      NotYetSent(s.sent, s.slots);
    }
  }

  lemma ReadKeeps(s: State, j: nat)
    requires Inv(s) && Enabled(s, Read(j))
    ensures ReaderInv(Apply(s, Read(j)).readers[j], s.sent, |s.slots|, s.pos[j])
  {
    var r := s.readers[j];
    NextPayload(s, j);
    hide Pos, SyncInv, WriterInv, Published, RingHolds;
    assert ReaderInv(r, s.sent, |s.slots|, s.pos[j]);
    assert s.slots[r.lPos].data == s.sent[|r.got|];
  }

  /** The slot a reader is reading still holds the message it expects. */
  lemma NextPayload(s: State, j: nat)
    requires Inv(s) && j < |s.readers| && |s.readers[j].got| < |s.sent|
    ensures s.slots[s.readers[j].lPos].data == s.sent[|s.readers[j].got|]
    ensures s.slots[s.readers[j].lPos].seqno == s.readers[j].nextSeq
  {
    WithinLap(s, j);
    hide Pos, SyncInv, WriterInv, Published;
    assert ReaderInv(s.readers[j], s.sent, |s.slots|, s.pos[j]);
  }

  lemma FinishKeeps(s: State, j: nat)
    requires Inv(s) && Enabled(s, Finish(j))
    ensures ReaderInv(FinishReader(s.readers[j], |s.slots|), s.sent, |s.slots|, s.pos[j])
  {
    hide Pos, SyncInv, WriterInv, Published, RingHolds;
    var r := s.readers[j];
    assert ReaderInv(r, s.sent, |s.slots|, s.pos[j]);
    PosStep(|r.got|, |s.slots|);
    PublishedStep(|r.got|);
    assert r.pc.buf == s.sent[|r.got|];
    assert s.sent[..|r.got| + 1] == s.sent[..|r.got|] + [r.pc.buf];
  }

  lemma PublishedStep(c: nat)
    ensures Published(c + 1) == if (c + 2) % 16 == 0 then c + 1 else Published(c)
  {
  }

  lemma PublishKeeps(s: State, j: nat)
    requires Inv(s) && Enabled(s, Publish(j))
    ensures var s' := Apply(s, Publish(j));
            ReaderInv(s'.readers[j], s'.sent, |s'.slots|, s'.pos[j]) && s.pos[j] <= s'.pos[j]
  {
    hide Pos, SyncInv, WriterInv, Published, RingHolds;
    var r := s.readers[j];
    assert ReaderInv(r, s.sent, |s.slots|, s.pos[j]);
    PublishedStep(|r.got| - 1);
  }

  /** The slot after the newest message holds an older sequence number. */
  lemma NotYetSent(sent: seq<seq<int>>, slots: seq<Slot>)
    requires RingHolds(sent, slots)
    ensures slots[Pos(|sent|, |slots|)].seqno != |sent| + 1
  {
    var n, c := |slots|, |sent|;
    if c < n {
      FirstLap(c, n);
    } else {
      NextLap(c - n, n);
    }
  }

  /** With at most 32 slots, the position seen first and the one loaded next cannot straddle the minimum. */
  lemma NoOvershoot(seen: nat, min: nat, pos: nat, m0: int, n: nat)
    requires PubValue(seen) && PubValue(min) && PubValue(pos)
    requires m0 <= seen < min && seen <= pos <= m0 + n - 2 && n <= 32
    ensures pos <= min
  {
  }

  /** With at most 33 slots, nor can they straddle the value the search starts with. */
  lemma NoOvershootOfCap(seen: nat, pos: nat, m0: int, n: nat)
    requires PubValue(seen) && PubValue(pos)
    requires m0 <= seen < CAP && seen <= pos <= m0 + n - 2 && n <= 33
    ensures pos <= CAP
  {
  }

  /** The second load of a position is no larger than the minimum it is to replace. */
  lemma ReloadStaysBelow(s: State)
    requires Inv(s) && s.w.pc.Reloading? && s.w.pc.i < |s.pos| && IsCareful(s)
    ensures s.pos[s.w.pc.i] <= s.w.pc.min
  {
    hide RingHolds, Pos, Published, ReaderInv, PubValue;
    var w, n := s.w, |s.slots|;
    PositionIsPublished(s, w.pc.i);
    if n <= 32 {
      NoOvershoot(w.pc.seen, w.pc.min, s.pos[w.pc.i], w.nextSync - (n - 1), n);
    } else if n <= 33 {
      NoOvershootOfCap(w.pc.seen, s.pos[w.pc.i], w.nextSync - (n - 1), n);
    }
  }

  lemma ScanKeeps(s: State)
    requires Inv(s) && Enabled(s, Scan)
    requires s.w.pc.Reloading? ==> s.pos[s.w.pc.i] <= s.w.pc.min
    ensures Inv(Apply(s, Scan)) && Capped(Apply(s, Scan))
  {
    hide RingHolds, Pos, Published, ReaderInv;
    if s.w.pc.i < |s.pos| {
      PositionIsPublished(s, s.w.pc.i);
    }
  }

  lemma PositionIsPublished(s: State, j: nat)
    requires Inv(s) && j < |s.pos|
    ensures PubValue(s.pos[j]) && s.pos[j] <= |s.sent|
  {
    hide RingHolds, Pos, WriterInv, SyncInv;
    assert ReaderInv(s.readers[j], s.sent, |s.slots|, s.pos[j]);
  }

  lemma ApplyKeeps(s: State, a: Action)
    requires Inv(s) && Enabled(s, a)
    requires a.Send? ==> Capped(s)
    requires a.Scan? ==> IsCareful(s)
    ensures Inv(Apply(s, a)) && (Capped(s) ==> Capped(Apply(s, a)))
  {
    hide Inv;
    match a
    case Send(msg) => SendKeeps(s, msg);
    case Scan =>
      if s.w.pc.Reloading? {
        ReloadStaysBelow(s);
      }
      ScanKeeps(s);
    case Store => StoreKeeps(s);
    case Check(j) => ReaderKeeps(s, a, j);
    case Read(j) => ReaderKeeps(s, a, j);
    case Finish(j) => ReaderKeeps(s, a, j);
    case Publish(j) => ReaderKeeps(s, a, j);
  }

  // ----- runs -----

  ghost predicate CarefulRun(t: seq<State>) {
    Run(t) && Careful(t[0].fused, |t[0].pos|, |t[0].slots|, |t[|t| - 1].sent|)
  }

  predicate SameShape(s: State, s': State) {
    && s'.fused == s.fused && |s'.pos| == |s.pos| && |s'.slots| == |s.slots|
    && |s'.readers| == |s.readers|
  }

  lemma NextGrows(s: State, s': State)
    requires Next(s, s')
    ensures SameShape(s, s') && s.sent <= s'.sent
  {
  }

  lemma {:induction false} RunGrows(t: seq<State>, i: nat, k: nat)
    requires Run(t) && i <= k < |t|
    ensures SameShape(t[i], t[k]) && |t[i].sent| <= |t[k].sent|
    decreases k
  {
    hide Next, Init;
    if i < k {
      RunGrows(t, i, k - 1);
      NextGrows(t[k - 1], t[k]);
    }
  }

  lemma {:induction false} RunKeeps(t: seq<State>, i: nat)
    requires CarefulRun(t) && i < |t|
    ensures Inv(t[i]) && Capped(t[i])
  {
    hide Init, Next, Inv;
    if i == 0 {
      InvInit(t[0]);
    } else {
      RunKeeps(t, i - 1);
      RunGrows(t, 0, i - 1);
      RunGrows(t, i - 1, |t| - 1);
      NextKeeps(t[i - 1], t[i]);
    }
  }

  lemma NextKeeps(s: State, s': State)
    requires Inv(s) && Capped(s) && Next(s, s') && IsCareful(s)
    ensures Inv(s') && Capped(s')
  {
    hide Inv, Careful;
    var a :| Enabled(s, a) && s' == Apply(s, a);
    ApplyKeeps(s, a);
  }

  /** Every reader receives exactly the writer's messages, in order, without gap or repetition. */
  lemma DeliversInOrder(t: seq<State>, i: nat, j: nat)
    requires CarefulRun(t) && i < |t| && j < |t[i].readers|
    ensures t[i].readers[j].got <= t[i].sent
    ensures t[i].readers[j].nextSeq == |t[i].readers[j].got| + 1
  {
    RunKeeps(t, i);
    hide RingHolds, Pos, WriterInv, SyncInv, Published;
    assert ReaderInv(t[i].readers[j], t[i].sent, |t[i].slots|, t[i].pos[j]);
  }

  /** The writer is storing into a slot whose last message reader `j` has not consumed. */
  predicate Overwrites(s: State, j: nat) {
    s.w.pc.Storing? && j < |s.readers| && |s.readers[j].got| + |s.slots| < s.w.nextSeq
  }

  lemma NeverOverwrites(t: seq<State>, i: nat, j: nat)
    requires CarefulRun(t) && i < |t| && j < |t[i].readers|
    ensures !Overwrites(t[i], j)
  {
    RunKeeps(t, i);
    WithinLap(t[i], j);
  }
}
