/** Safety of the bitmask ring: a header's bits are exactly the readers still owed the slot's message. */
module MaskRingSafety {
  import opened RingArith
  import opened ReaderBits
  import opened MaskRing

  // ----- invariant -----

  /** A reader's bit is set exactly while it has not consumed message `i`. */
  ghost predicate Owed(h: bv64, i: nat, ids: seq<bv64>, readers: seq<Reader>) {
    && |ids| == |readers|
    && forall k | 0 <= k < |ids| :: ids[k] < 64 && (Bit(h, ids[k]) <==> |readers[k].got| <= i)
  }

  ghost predicate HeadersInv(sent: seq<seq<int>>, slots: seq<Slot>, ids: seq<bv64>, readers: seq<Reader>) {
    var n := |slots|;
    && 0 < n
    && (forall i: nat | |sent| - n <= i < |sent| :: Owed(slots[Pos(i, n)].header, i, ids, readers))
    && (forall j | |sent| <= j < n :: slots[j].header == 0)
  }

  ghost predicate WithinMask(slots: seq<Slot>, mask: bv64) {
    forall i | 0 <= i < |slots| :: Subset(slots[i].header, mask)
  }

  /** A payload is intact until its header is zero and its slot is due for the next message. */
  ghost predicate PayloadsInv(sent: seq<seq<int>>, slots: seq<Slot>) {
    var n := |slots|;
    && 0 < n
    && forall i: nat | |sent| - n <= i < |sent| ::
         |sent| - n < i || slots[Pos(i, n)].header != 0 ==> slots[Pos(i, n)].data == sent[i]
  }

  ghost predicate WriterInv(w: Writer, sent: seq<seq<int>>, slots: seq<Slot>) {
    var n := |slots|;
    && 0 < n && w.lPos == Pos(|sent|, n)
    && (!w.pc.Idle? ==> |w.pc.msg| == WORDS)
    && (w.pc.Storing? ==> w.pc.k <= WORDS == |slots[w.lPos].data| && slots[w.lPos].header == 0
                          && slots[w.lPos].data[..w.pc.k] == w.pc.msg[..w.pc.k])
  }

  /** In the swap loop the header only loses bits from one load to the next, and the new value is the
    * header of the second load with the own bit turned. */
  ghost predicate LoopInv(pc: ReaderPc, j: bv64, h: bv64)
    requires j < 64
  {
    match pc
    case Loaded(_, before) => Subset(h, before)
    case Swapping(_, before, again, after) => Subset(h, again) && Subset(again, before) && after == Turned(again, j)
    case _ => true
  }

  ghost predicate ReaderInv(r: Reader, id: bv64, sent: seq<seq<int>>, slots: seq<Slot>) {
    var c, n := |r.got|, |slots|;
    && 0 < n && id < 64
    && c <= |sent| <= c + n && r.got == sent[..c] && r.lPos == Pos(c, n)
    && (!r.pc.Polling? ==>
          && c < |sent| && |r.pc.buf| <= WORDS == |sent[c]| && r.pc.buf == sent[c][..|r.pc.buf|]
          && (!r.pc.Reading? ==> |r.pc.buf| == WORDS)
          && LoopInv(r.pc, id, slots[r.lPos].header))
  }

  ghost predicate ReadersInv(s: State) {
    |s.ids| == |s.readers| && forall j | 0 <= j < |s.readers| :: ReaderInv(s.readers[j], s.ids[j], s.sent, s.slots)
  }

  ghost predicate Inv(s: State) {
    && Sane(s)
    && MaskOfIds(s.writerMask, s.ids)
    && HeadersInv(s.sent, s.slots, s.ids, s.readers) && WithinMask(s.slots, s.writerMask)
    && PayloadsInv(s.sent, s.slots)
    && WriterInv(s.w, s.sent, s.slots)
    && ReadersInv(s)
    && (forall i | 0 <= i < |s.sent| :: |s.sent[i]| == WORDS)
  }

  lemma InvInit(s: State)
    requires Init(s)
    ensures Inv(s)
  {
    hide Bit;
    ZeroIsSubset(s.writerMask);
  }

  // ----- what the header says -----

  lemma BitAtReader(s: State, j: nat)
    requires Inv(s) && j < |s.readers|
    ensures s.ids[j] < 64 && s.readers[j].lPos < |s.slots|
    ensures Bit(s.slots[s.readers[j].lPos].header, s.ids[j]) <==> |s.readers[j].got| < |s.sent|
    ensures |s.readers[j].got| < |s.sent| ==> s.slots[s.readers[j].lPos].data == s.sent[|s.readers[j].got|]
  {
    hide Bit, WriterInv, LoopInv, Pos;
    var c, n := |s.readers[j].got|, |s.slots|;
    assert ReaderInv(s.readers[j], s.ids[j], s.sent, s.slots);
    if c < |s.sent| {
      assert Owed(s.slots[Pos(c, n)].header, c, s.ids, s.readers);
      NoBits(s.ids[j]);
    } else if c < n {
      FirstLap(c, n);
      NoBits(s.ids[j]);
    } else {
      NextLap(c - n, n);
      assert Owed(s.slots[Pos(c - n, n)].header, c - n, s.ids, s.readers);
    }
  }

  /** A zero header means that every reader is done with what the slot held. */
  lemma ZeroMeansConsumed(s: State, j: nat)
    requires Inv(s) && s.slots[s.w.lPos].header == 0 && 0 <= j < |s.readers|
    ensures |s.sent| < |s.readers[j].got| + |s.slots|
  {
    hide Bit, LoopInv, Pos, PayloadsInv;
    var n := |s.slots|;
    if n <= |s.sent| {
      NextLap(|s.sent| - n, n);
      assert Owed(s.slots[Pos(|s.sent| - n, n)].header, |s.sent| - n, s.ids, s.readers);
      NoBits(s.ids[j]);
    } else {
      assert ReaderInv(s.readers[j], s.ids[j], s.sent, s.slots);
    }
  }

  // ----- the writer keeps it -----

  lemma WriterMoveKeeps(s: State, a: Action)
    requires Inv(s) && Enabled(s, a) && (a.Send? || a.Spin?)
    ensures Inv(Apply(s, a))
  {
    hide Bit, HeadersInv, PayloadsInv, ReaderInv, Pos, MaskOfIds, SaneReader;
  }

  lemma StoreWordKeeps(s: State)
    requires Inv(s) && Enabled(s, Store) && s.w.pc.k < WORDS
    ensures Inv(Apply(s, Store))
  {
    hide Bit, Pos, HeadersInv, PayloadsInv, ReaderInv, MaskOfIds, SaneReader, Subset;
    StoreWordHeaders(s);
    StoreWordPayloads(s);
    StoreWordReaders(s);
  }

  lemma StoreWordHeaders(s: State)
    requires Inv(s) && Enabled(s, Store) && s.w.pc.k < WORDS
    ensures var s' := Apply(s, Store); HeadersInv(s'.sent, s'.slots, s'.ids, s'.readers)
  {
    hide Bit, Pos, PayloadsInv, ReaderInv, Owed, MaskOfIds;
    var s' := Apply(s, Store);
    assert forall i | 0 <= i < |s.slots| :: s'.slots[i].header == s.slots[i].header;
  }

  lemma StoreWordPayloads(s: State)
    requires Inv(s) && Enabled(s, Store) && s.w.pc.k < WORDS
    ensures var s' := Apply(s, Store); PayloadsInv(s'.sent, s'.slots)
  {
    hide Bit, Pos, HeadersInv, ReaderInv, MaskOfIds;
    var s' := Apply(s, Store);
    var n, m := |s.slots|, |s.sent|;
    forall i: nat | m - n <= i < m
      ensures m - n < i || s'.slots[Pos(i, n)].header != 0 ==> s'.slots[Pos(i, n)].data == s.sent[i]
    {
      if m - n < i {
        PosInjective(i, m, n);
      }
    }
  }

  lemma StoreWordReaders(s: State)
    requires Inv(s) && Enabled(s, Store) && s.w.pc.k < WORDS
    ensures ReadersInv(Apply(s, Store))
  {
    hide Bit, Pos, HeadersInv, PayloadsInv, LoopInv, MaskOfIds;
    var s' := Apply(s, Store);
    forall j | 0 <= j < |s.readers|
      ensures ReaderInv(s.readers[j], s.ids[j], s'.sent, s'.slots)
    {
      assert ReaderInv(s.readers[j], s.ids[j], s.sent, s.slots);
    }
  }

  /** The last store of a send: the header takes the writer's mask. */
  lemma StoreHeaderKeeps(s: State)
    requires Inv(s) && Enabled(s, Store) && s.w.pc.k == WORDS
    ensures Inv(Apply(s, Store))
  {
    hide Bit, Pos, HeadersInv, PayloadsInv, ReaderInv, MaskOfIds, SaneReader, Subset;
    PosStep(|s.sent|, |s.slots|);
    SubsetReflexive(s.writerMask);
    StoreHeaderHeaders(s);
    StoreHeaderPayloads(s);
    StoreHeaderReaders(s);
  }

  lemma StoreHeaderHeaders(s: State)
    requires Inv(s) && Enabled(s, Store) && s.w.pc.k == WORDS
    ensures var s' := Apply(s, Store); HeadersInv(s'.sent, s'.slots, s'.ids, s'.readers)
  {
    hide Bit, Pos, PayloadsInv, LoopInv, WithinMask;
    var s' := Apply(s, Store);
    var n, m := |s.slots|, |s.sent|;
    forall i: nat | m + 1 - n <= i < m + 1
      ensures Owed(s'.slots[Pos(i, n)].header, i, s.ids, s.readers)
    {
      if i < m {
        PosInjective(i, m, n);
      } else {
        assert forall j | 0 <= j < |s.readers| :: ReaderInv(s.readers[j], s.ids[j], s.sent, s.slots);
      }
    }
    if m < n {
      FirstLap(m, n);
    }
  }

  lemma StoreHeaderPayloads(s: State)
    requires Inv(s) && Enabled(s, Store) && s.w.pc.k == WORDS
    ensures var s' := Apply(s, Store); PayloadsInv(s'.sent, s'.slots)
  {
    hide Bit, Pos, HeadersInv, ReaderInv;
    var s' := Apply(s, Store);
    var n, m := |s.slots|, |s.sent|;
    assert s.slots[s.w.lPos].data == s.w.pc.msg;
    forall i: nat | m + 1 - n <= i < m + 1
      ensures s'.slots[Pos(i, n)].data == s'.sent[i]
    {
      if i < m {
        PosInjective(i, m, n);
      }
    }
  }

  lemma StoreHeaderReaders(s: State)
    requires Inv(s) && Enabled(s, Store) && s.w.pc.k == WORDS
    ensures ReadersInv(Apply(s, Store))
  {
    var s' := Apply(s, Store);
    hide Bit, Pos, HeadersInv, PayloadsInv, LoopInv, MaskOfIds;
    forall j | 0 <= j < |s.readers|
      ensures ReaderInv(s.readers[j], s.ids[j], s'.sent, s'.slots)
    {
      assert ReaderInv(s.readers[j], s.ids[j], s.sent, s.slots);
      ZeroMeansConsumed(s, j);
      if |s.readers[j].got| < |s.sent| {
        PosInjective(|s.readers[j].got|, |s.sent|, |s.slots|);
      }
    }
  }

  // ----- a reader keeps it -----

  lemma MoveKeeps(s: State, j: nat)
    requires Inv(s) && Enabled(s, Access(j)) && !Succeeds(s.readers[j], s.slots[s.readers[j].lPos])
    ensures Inv(Apply(s, Access(j)))
  {
    hide Inv, Succeeds;
    MoveReader(s, j);
    ReaderFrame(s, j, Move(s.readers[j], s.ids[j], s.slots[s.readers[j].lPos]));
  }

  lemma ReaderFrame(s: State, j: nat, r: Reader)
    requires Inv(s) && 0 <= j < |s.readers| && SaneReader(r, |s.slots|) && ReaderInv(r, s.ids[j], s.sent, s.slots)
    requires |r.got| == |s.readers[j].got|
    ensures Inv(s.(readers := s.readers[j := r]))
  {
    hide Bit, Pos, PayloadsInv, ReaderInv, WriterInv;
    forall i: nat | |s.sent| - |s.slots| <= i < |s.sent|
      ensures Owed(s.slots[Pos(i, |s.slots|)].header, i, s.ids, s.readers[j := r])
    {
      assert Owed(s.slots[Pos(i, |s.slots|)].header, i, s.ids, s.readers);
    }
  }

  lemma MoveReader(s: State, j: nat)
    requires Inv(s) && Enabled(s, Access(j)) && !Succeeds(s.readers[j], s.slots[s.readers[j].lPos])
    ensures var r' := Move(s.readers[j], s.ids[j], s.slots[s.readers[j].lPos]);
            && ReaderInv(r', s.ids[j], s.sent, s.slots) && r'.got == s.readers[j].got
            && SaneReader(r', |s.slots|)
  {
    hide Bit, Pos, PayloadsInv, HeadersInv, WriterInv, Mask, Subset, MaskOfIds, LoopInv, Move;
    var r := s.readers[j];
    var slot := s.slots[r.lPos];
    BitAtReader(s, j);
    assert ReaderInv(r, s.ids[j], s.sent, s.slots);
    MoveLoop(r, s.ids[j], slot);
    if r.pc.Polling? || r.pc.Reading? {
      MoveRead(r, s.ids[j], slot);
    }
  }

  lemma MoveLoop(r: Reader, id: bv64, slot: Slot)
    requires id < 64 && |slot.data| == WORDS && (r.pc.Reading? ==> |r.pc.buf| <= WORDS)
    requires r.pc.Polling? || LoopInv(r.pc, id, slot.header)
    ensures var r' := Move(r, id, slot);
            && LoopInv(r'.pc, id, slot.header) && r'.got == r.got && r'.lPos == r.lPos
            && (!r.pc.Polling? && !r.pc.Reading? ==> !r'.pc.Polling? && !r'.pc.Reading? && r'.pc.buf == r.pc.buf)
  {
    hide Bit, Mask, Subset;
    SubsetReflexive(slot.header);
  }

  lemma MoveRead(r: Reader, id: bv64, slot: Slot)
    requires id < 64 && |slot.data| == WORDS && (r.pc.Polling? || r.pc.Reading?)
    requires r.pc.Reading? ==> |r.pc.buf| <= WORDS && r.pc.buf == slot.data[..|r.pc.buf|]
    ensures var r' := Move(r, id, slot);
            && (!r'.pc.Polling? ==> |r'.pc.buf| <= WORDS && r'.pc.buf == slot.data[..|r'.pc.buf|]
                                    && (!r'.pc.Reading? ==> |r'.pc.buf| == WORDS))
            && (r.pc.Polling? && !r'.pc.Polling? ==> Bit(slot.header, id))
  {
    hide Bit, Mask;
  }

  /** The swap that succeeds clears exactly the reader's own bit. */
  lemma SwapClearsOwnBit(s: State, j: nat)
    requires Inv(s) && Enabled(s, Access(j)) && Succeeds(s.readers[j], s.slots[s.readers[j].lPos])
    ensures s.readers[j].pc.after == Turned(s.slots[s.readers[j].lPos].header, s.ids[j])
    ensures Bit(s.slots[s.readers[j].lPos].header, s.ids[j])
    ensures s.slots[s.readers[j].lPos].data == s.readers[j].pc.buf
  {
    hide Bit, Pos, PayloadsInv, HeadersInv, WriterInv, Mask, Subset, MaskOfIds;
    BitAtReader(s, j);
    var r := s.readers[j];
    assert ReaderInv(r, s.ids[j], s.sent, s.slots);
    var h := s.slots[r.lPos].header;
    Squeezed(h, r.pc.again, r.pc.before);
  }

  lemma SwapKeeps(s: State, j: nat)
    requires Inv(s) && Enabled(s, Access(j)) && Succeeds(s.readers[j], s.slots[s.readers[j].lPos])
    ensures Inv(Apply(s, Access(j)))
  {
    hide Bit, Pos, PayloadsInv, HeadersInv, WriterInv, ReaderInv, Subset, Mask;
    SwapClearsOwnBit(s, j);
    SwapWithinMask(s.slots[s.readers[j].lPos].header, s.ids[j], s.writerMask);
    SwapHeaders(s, j);
    SwapPayloads(s, j);
    SwapWriter(s, j);
    SwapReaders(s, j);
  }

  lemma SwapWithinMask(h: bv64, id: bv64, mask: bv64)
    requires id < 64 && Bit(h, id) && Subset(h, mask)
    ensures Subset(Turned(h, id), mask)
  {
    hide Bit, Mask, Subset;
    XorTurnsOne(h, id, id);
    SubsetTransitive(Turned(h, id), h, mask);
  }

  lemma SwapHeaders(s: State, j: nat)
    requires Inv(s) && Enabled(s, Access(j)) && Succeeds(s.readers[j], s.slots[s.readers[j].lPos])
    ensures var s' := Apply(s, Access(j));
            HeadersInv(s'.sent, s'.slots, s'.ids, s'.readers)
  {
    hide Bit, Pos, PayloadsInv, WriterInv, LoopInv, Mask, WithinMask;
    SwapClearsOwnBit(s, j);
    var s' := Apply(s, Access(j));
    var c, n, m := |s.readers[j].got|, |s.slots|, |s.sent|;
    assert ReaderInv(s.readers[j], s.ids[j], s.sent, s.slots);
    forall i: nat | m - n <= i < m
      ensures Owed(s'.slots[Pos(i, n)].header, i, s.ids, s'.readers)
    {
      assert Owed(s.slots[Pos(i, n)].header, i, s.ids, s.readers);
      if i == c {
        OwedAfterSwap(s.slots[Pos(c, n)].header, c, s.ids, s.readers, j, s'.readers[j]);
      } else if i < c {
        PosInjective(i, c, n);
        OwedElsewhere(s.slots[Pos(i, n)].header, i, s.ids, s.readers, j, s'.readers[j]);
      } else {
        PosInjective(c, i, n);
        OwedElsewhere(s.slots[Pos(i, n)].header, i, s.ids, s.readers, j, s'.readers[j]);
      }
    }
    if m < n {
      FirstLap(c, n);
    }
  }

  lemma OwedElsewhere(h: bv64, i: nat, ids: seq<bv64>, readers: seq<Reader>, j: nat, r: Reader)
    requires Owed(h, i, ids, readers) && j < |readers|
    requires |r.got| == |readers[j].got| + 1 && i != |readers[j].got|
    ensures Owed(h, i, ids, readers[j := r])
  {
    hide Bit;
  }

  lemma OwedAfterSwap(h: bv64, c: nat, ids: seq<bv64>, readers: seq<Reader>, j: nat, r: Reader)
    requires Owed(h, c, ids, readers) && j < |readers|
    requires forall k | 0 <= k < |ids| && k != j :: ids[k] != ids[j]
    requires |readers[j].got| == c && |r.got| == c + 1
    ensures ids[j] < 64 && Owed(Turned(h, ids[j]), c, ids, readers[j := r])
  {
    hide Bit, Mask;
    var h' := Turned(h, ids[j]);
    forall k | 0 <= k < |ids|
      ensures Bit(h', ids[k]) <==> |readers[j := r][k].got| <= c
    {
      XorTurnsOne(h, ids[j], ids[k]);
    }
  }

  lemma SwapPayloads(s: State, j: nat)
    requires Inv(s) && Enabled(s, Access(j)) && Succeeds(s.readers[j], s.slots[s.readers[j].lPos])
    ensures var s' := Apply(s, Access(j)); PayloadsInv(s'.sent, s'.slots)
  {
    hide Bit, Pos, HeadersInv, WriterInv, LoopInv, Mask, MaskOfIds;
    SwapClearsOwnBit(s, j);
    assert ReaderInv(s.readers[j], s.ids[j], s.sent, s.slots);
    var s' := Apply(s, Access(j));
    var c, n, m := |s.readers[j].got|, |s.slots|, |s.sent|;
    forall i: nat | m - n <= i < m
      ensures m - n < i || s'.slots[Pos(i, n)].header != 0 ==> s'.slots[Pos(i, n)].data == s.sent[i]
    {
      if i < c {
        PosInjective(i, c, n);
      } else if c < i {
        PosInjective(c, i, n);
      }
    }
  }

  lemma SwapWriter(s: State, j: nat)
    requires Inv(s) && Enabled(s, Access(j)) && Succeeds(s.readers[j], s.slots[s.readers[j].lPos])
    ensures var s' := Apply(s, Access(j)); WriterInv(s'.w, s'.sent, s'.slots)
  {
    hide Bit, Pos, HeadersInv, PayloadsInv, LoopInv, Mask, MaskOfIds;
    SwapClearsOwnBit(s, j);
    NoBits(s.ids[j]);
  }

  /** Other readers in their swap loops see one bit less at most. */
  lemma SwapReaders(s: State, j: nat)
    requires Inv(s) && Enabled(s, Access(j)) && Succeeds(s.readers[j], s.slots[s.readers[j].lPos])
    ensures var s' := Apply(s, Access(j)); ReadersInv(s') && SaneReader(s'.readers[j], |s'.slots|)
  {
    hide Bit, Pos, HeadersInv, PayloadsInv, WriterInv, Mask, LoopInv, Subset, MaskOfIds;
    SwapClearsOwnBit(s, j);
    var s' := Apply(s, Access(j));
    var r := s.readers[j];
    XorTurnsOne(s.slots[r.lPos].header, s.ids[j], s.ids[j]);
    SwappedReader(s, j);
    forall i | 0 <= i < |s'.readers| && i != j
      ensures ReaderInv(s'.readers[i], s.ids[i], s'.sent, s'.slots)
    {
      OtherReader(s, i, r.lPos, r.pc.after);
    }
  }

  lemma SwappedReader(s: State, j: nat)
    requires Inv(s) && Enabled(s, Access(j)) && Succeeds(s.readers[j], s.slots[s.readers[j].lPos])
    ensures var s' := Apply(s, Access(j));
            ReaderInv(s'.readers[j], s.ids[j], s'.sent, s'.slots) && SaneReader(s'.readers[j], |s'.slots|)
  {
    hide Bit, Pos, HeadersInv, PayloadsInv, WriterInv, Mask, LoopInv, Subset, MaskOfIds;
    var r := s.readers[j];
    assert ReaderInv(r, s.ids[j], s.sent, s.slots);
    PosStep(|r.got|, |s.slots|);
    assert r.pc.buf == s.sent[|r.got|];
  }

  lemma OtherReader(s: State, i: nat, p: nat, h: bv64)
    requires Inv(s) && 0 <= i < |s.readers| && p < |s.slots| && Subset(h, s.slots[p].header)
    ensures ReaderInv(s.readers[i], s.ids[i], s.sent, s.slots[p := s.slots[p].(header := h)])
  {
    hide Bit, Pos, HeadersInv, PayloadsInv, WriterInv, Mask, LoopInv, Subset, MaskOfIds;
    var r := s.readers[i];
    assert ReaderInv(r, s.ids[i], s.sent, s.slots);
    if r.lPos == p && !r.pc.Polling? {
      LoopFrame(r.pc, s.ids[i], s.slots[p].header, h);
    }
  }

  lemma LoopFrame(pc: ReaderPc, j: bv64, h: bv64, h': bv64)
    requires j < 64 && LoopInv(pc, j, h) && Subset(h', h)
    ensures LoopInv(pc, j, h')
  {
    hide Subset, Mask;
    if pc.Loaded? {
      SubsetTransitive(h', h, pc.before);
    } else if pc.Swapping? {
      SubsetTransitive(h', h, pc.again);
    }
  }

  // ----- runs -----

  lemma ApplyKeeps(s: State, a: Action)
    requires Inv(s) && Enabled(s, a)
    ensures Inv(Apply(s, a))
  {
    hide Inv, Succeeds;
    if a.Store? {
      if s.w.pc.k < WORDS {
        StoreWordKeeps(s);
      } else {
        StoreHeaderKeeps(s);
      }
    } else if a.Access? {
      if Succeeds(s.readers[a.j], s.slots[s.readers[a.j].lPos]) {
        SwapKeeps(s, a.j);
      } else {
        MoveKeeps(s, a.j);
      }
    } else {
      WriterMoveKeeps(s, a);
    }
  }

  lemma {:induction false} RunKeeps(t: seq<State>, i: nat)
    requires Run(t) && i < |t|
    ensures Inv(t[i])
  {
    hide Inv, Init, Next;
    if i == 0 {
      InvInit(t[0]);
    } else {
      RunKeeps(t, i - 1);
      NextKeeps(t[i - 1], t[i]);
    }
  }

  lemma NextKeeps(s: State, s': State)
    requires Inv(s) && Next(s, s')
    ensures Inv(s')
  {
    hide Inv, Apply, Enabled;
    var a :| Enabled(s, a) && s' == Apply(s, a);
    ApplyKeeps(s, a);
  }

  /** In every run with up to 64 readers: each reader gets every message once and in order, and the bit of
    * its slot is set exactly while a message waits there for it. */
  lemma DeliversInOrder(t: seq<State>, i: nat, j: nat)
    requires Run(t) && i < |t| && j < |t[i].readers|
    ensures var s := t[i]; var r := s.readers[j];
            && r.got <= s.sent
            && j < |s.ids| && s.ids[j] < 64 && r.lPos < |s.slots|
            && (Bit(s.slots[r.lPos].header, s.ids[j]) <==> |r.got| < |s.sent|)
            && (|r.got| < |s.sent| ==> s.slots[r.lPos].data == s.sent[|r.got|])
  {
    RunKeeps(t, i);
    BitAtReader(t[i], j);
    hide Bit, Pos, HeadersInv, PayloadsInv, WriterInv, LoopInv;
    assert ReaderInv(t[i].readers[j], t[i].ids[j], t[i].sent, t[i].slots);
  }

  /** Each header holds exactly the readers that have not consumed the slot's message. */
  lemma HeaderIsExact(t: seq<State>, i: nat, k: nat)
    requires Run(t) && i < |t| && |t[i].sent| - |t[i].slots| <= k < |t[i].sent|
    ensures 0 < |t[i].slots|
    ensures Owed(t[i].slots[Pos(k, |t[i].slots|)].header, k, t[i].ids, t[i].readers)
  {
    RunKeeps(t, i);
  }

  /** While the writer stores, every reader has consumed what the slot held before. */
  lemma NeverOverwrites(t: seq<State>, i: nat, j: nat)
    requires Run(t) && i < |t| && 0 <= j < |t[i].readers| && t[i].w.pc.Storing?
    ensures |t[i].sent| < |t[i].readers[j].got| + |t[i].slots|
  {
    RunKeeps(t, i);
    ZeroMeansConsumed(t[i], j);
  }

  /** A swap that succeeds clears the reader's own bit and no other, although the header was loaded twice. */
  lemma SwapClearsOnlyOwnBit(t: seq<State>, i: nat, j: nat, b: bv64)
    requires Run(t) && i < |t| && Enabled(t[i], Access(j)) && b < 64
    requires Succeeds(t[i].readers[j], t[i].slots[t[i].readers[j].lPos])
    ensures var r := t[i].readers[j];
            Bit(r.pc.after, b) <==> Bit(t[i].slots[r.lPos].header, b) && b != t[i].ids[j]
  {
    hide Run, Inv, Mask, Bit;
    RunKeeps(t, i);
    SwapClearsOwnBit(t[i], j);
    XorTurnsOne(t[i].slots[t[i].readers[j].lPos].header, t[i].ids[j], b);
  }

  /** A writer waiting for its slot finds it free once all readers have drained the ring. */
  lemma FreeOnceDrained(t: seq<State>, i: nat)
    requires Run(t) && i < |t|
    requires forall j | 0 <= j < |t[i].readers| :: |t[i].readers[j].got| == |t[i].sent|
    ensures t[i].w.lPos < |t[i].slots| && t[i].slots[t[i].w.lPos].header == 0
  {
    hide Run;
    RunKeeps(t, i);
    DrainedIsFree(t[i]);
  }

  lemma DrainedIsFree(s: State)
    requires Inv(s) && forall j | 0 <= j < |s.readers| :: |s.readers[j].got| == |s.sent|
    ensures s.slots[s.w.lPos].header == 0
  {
    hide Bit, Pos, PayloadsInv, ReaderInv, Subset;
    var n, m := |s.slots|, |s.sent|;
    if m < n {
      FirstLap(m, n);
    } else {
      NextLap(m - n, n);
      var h := s.slots[Pos(m - n, n)].header;
      assert Owed(h, m - n, s.ids, s.readers);
      forall j: bv64 | j < 64
        ensures !Bit(h, j)
      {
        if Bit(h, j) {
          SubsetBit(h, s.writerMask, j);
        }
      }
      NoBitMeansZero(h);
    }
  }
}
