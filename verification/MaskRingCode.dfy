/** The send and receive functions of the bitmask ring, on the shared array. Ghost parameters name the states
  * of the machine a call goes through while the other threads are paused. */
module MaskRingCode {
  import opened RingArith
  import opened ReaderBits
  import opened MaskRing
  import opened MaskRingSafety
  import opened Wrappers

  /** One thread's context: the writer uses `mask` as a whole, a reader has its own bit `id`. */
  class Queue {
    const slots: array<Slot>
    const id: bv64
    const mask: bv64
    var lPos: nat

    constructor (slots: array<Slot>, id: bv64, mask: bv64)
      ensures this.slots == slots && this.id == id && this.mask == mask && lPos == 0
    {
      this.slots, this.id, this.mask := slots, id, mask;
      lPos := 0;
    }

    ghost predicate ShowsWriter(s: State)
      reads this, slots
    {
      s.slots == slots[..] && s.w.lPos == lPos && s.writerMask == mask
    }

    ghost predicate ShowsReader(s: State, j: nat)
      reads this, slots
    {
      s.slots == slots[..] && j < |s.readers| == |s.ids| && s.ids[j] == id && s.readers[j].lPos == lPos
    }

    /** One attempt to send: it gives up exactly where the code would spin, on a slot some reader still
      * needs, and otherwise fills the slot and gives it to all readers. */
    method TrySend(words: seq<int>, ghost s: State) returns (ok: bool, ghost s': State)
      requires ShowsWriter(s) && Inv(s) && s.w.pc.Idle? && |words| == WORDS
      modifies this, slots
      ensures ShowsWriter(s') && Inv(s') && s'.readers == s.readers
      ensures s.w.lPos < |s.slots| && (ok <==> s.slots[s.w.lPos].header == 0)
      ensures !ok ==> s'.sent == s.sent && slots[..] == old(slots[..])
      ensures ok ==> s'.sent == s.sent + [words] && s'.w.pc.Idle?
                     && slots[..] == old(slots[..])[s.w.lPos := Slot(mask, words)]
    {
      hide Inv;
      InvIsSane(s);
      WriterMoveKeeps(s, Send(words));
      s' := Apply(s, Send(words));
      InvIsSane(s');
      if slots[lPos].header != 0 {
        return false, s';
      }
      WriterMoveKeeps(s', Spin);
      s' := Apply(s', Spin);
      InvIsSane(s');
      s' := StoreWords(words, s');
      StoreHeaderKeeps(s');
      s' := Apply(s', Store);
      var pos := lPos + 1;
      slots[lPos] := slots[lPos].(header := mask);
      lPos := if pos == slots.Length then 0 else pos;
      ok := true;
    }

    /** The payload words, in order. */
    method StoreWords(words: seq<int>, ghost s: State) returns (ghost s': State)
      requires ShowsWriter(s) && Inv(s) && Sane(s) && s.w.pc == Storing(words, 0)
      modifies slots
      ensures lPos < slots.Length && ShowsWriter(s') && Inv(s') && Sane(s')
      ensures s' == s.(slots := s'.slots, w := s.w.(pc := Storing(words, WORDS)))
      ensures slots[..] == old(slots[..])[lPos := Slot(old(slots[lPos].header), words)]
    {
      hide Inv, Apply;
      s' := s;
      for k := 0 to WORDS
        invariant ShowsWriter(s') && Inv(s') && Sane(s')
        invariant s' == s.(slots := s'.slots, w := s.w.(pc := Storing(words, k)))
        invariant |slots[lPos].data| == WORDS && slots[lPos].data[..k] == words[..k]
        invariant slots[lPos].header == old(slots[lPos].header)
        invariant forall j | 0 <= j < slots.Length && j != lPos :: slots[j] == old(slots[j])
      {
        StoreWord(s');
        s' := Apply(s', Store);
        slots[lPos] := slots[lPos].(data := slots[lPos].data[k := words[k]]);
      }
      assert slots[lPos].data == words;
    }

    /** Copy the payload of the slot at hand. */
    method CopyWords(j: nat, ghost s: State) returns (words: seq<int>, ghost s': State)
      requires ShowsReader(s, j) && Inv(s) && Sane(s) && s.readers[j].pc == Reading([])
      ensures s' == s.(readers := s.readers[j := s.readers[j].(pc := Reading(words))]) && Inv(s')
      ensures words == slots[lPos].data && |words| == WORDS
    {
      hide Inv, Bit, Mask;
      s' := s;
      words := [];
      for k := 0 to WORDS
        invariant Inv(s') && words == slots[lPos].data[..k]
        invariant s' == s.(readers := s.readers[j := s.readers[j].(pc := Reading(words))])
      {
        InvIsSane(s');
        MoveKeeps(s', j);
        s' := Apply(s', Access(j));
        words := words + [slots[lPos].data[k]];
      }
    }

    /** One round of the swap loop: load the header, load it again for the new value, compare and swap. With
      * nobody in between the swap succeeds at once. */
    method ClearBit(j: nat, words: seq<int>, ghost s: State) returns (ghost s': State)
      requires ShowsReader(s, j) && Inv(s) && Sane(s) && s.readers[j].pc == Reading(words) && |words| == WORDS
      requires id < 64
      modifies this, slots
      ensures ShowsReader(s', j) && Inv(s') && s'.sent == s.sent && s'.w == s.w && s'.readers[j].pc.Polling?
      ensures |s'.readers[j].got| == |s.readers[j].got| + 1
      ensures var p := s.readers[j].lPos;
              slots[..] == old(slots[..])[p := old(slots[p]).(header := Turned(old(slots[p]).header, id))]
    {
      hide Inv, Bit, Mask, Turned;
      InvIsSane(s);
      var header := slots[lPos].header;
      ghost var ready := LoadTwice(s, j);
      var again := slots[lPos].header;
      var cleared := Turned(again, id);
      assert slots[lPos].header == header;
      s' := SwapNow(ready, j);
      slots[lPos] := slots[lPos].(header := cleared);
      lPos := lPos + 1;
      if lPos == slots.Length {
        lPos := 0;
      }
    }

    /** Receive if the own bit is set: exactly if a message is unread, and then it is the next one sent; the
      * own bit is cleared and every other header bit stays. */
    method ReceiveNonBlocking(j: nat, ghost s: State) returns (r: Option<seq<int>>, ghost s': State)
      requires ShowsReader(s, j) && Inv(s) && s.readers[j].pc.Polling?
      modifies this, slots
      ensures ShowsReader(s', j) && Inv(s') && s'.sent == s.sent && s'.w == s.w && s'.readers[j].pc.Polling?
      ensures |s.readers[j].got| <= |s.sent| && s.readers[j].lPos < |s.slots| && id < 64
      ensures r.Some? <==> |s.readers[j].got| < |s.sent|
      ensures r.Some? ==> r.value == s.sent[|s.readers[j].got|]
      ensures r.Some? ==> var p := s.readers[j].lPos;
                          slots[..] == old(slots[..])[p := old(slots[p]).(header := Turned(old(slots[p]).header, id))]
      ensures r.None? ==> slots[..] == old(slots[..])
      ensures |s'.readers[j].got| == |s.readers[j].got| + if r.Some? then 1 else 0
    {
      hide Inv, Bit, Mask;
      InvIsSane(s);
      BitMeansUnread(s, j);
      if !Bit(slots[lPos].header, id) {
        return None, s;
      }
      s' := Accessed(s, j);
      var words;
      words, s' := CopyWords(j, s');
      InvIsSane(s');
      s' := ClearBit(j, words, s');
      r := Some(words);
    }
  }

  /** The state after an access of reader `j` other than a successful swap. */
  ghost function Accessed(s: State, j: nat): (s': State)
    requires Inv(s) && Enabled(s, Access(j)) && !Succeeds(s.readers[j], s.slots[s.readers[j].lPos])
    ensures Inv(s') && Sane(s') && s'.slots == s.slots && s'.sent == s.sent && s'.w == s.w && s'.ids == s.ids
    ensures s' == s.(readers := s.readers[j := Move(s.readers[j], s.ids[j], s.slots[s.readers[j].lPos])])
  {
    MoveKeeps(s, j);
    InvIsSane(Apply(s, Access(j)));
    Apply(s, Access(j))
  }

  /** Reader `j` loads the header twice. */
  lemma LoadTwice(s: State, j: nat) returns (s': State)
    requires Inv(s) && Enabled(s, Access(j)) && s.readers[j].pc.Reading? && |s.readers[j].pc.buf| == WORDS
    ensures Inv(s') && Sane(s') && s.ids[j] < 64
    ensures var r := s.readers[j];
            var h := s.slots[r.lPos].header;
            s' == s.(readers := s.readers[j := r.(pc := Swapping(r.pc.buf, h, h, Turned(h, s.ids[j])))])
  {
    hide Inv, Bit, Mask;
    s' := Accessed(s, j);
    s' := Accessed(s', j);
  }

  /** Reader `j` swaps the header it loaded for the new one. */
  lemma SwapNow(s: State, j: nat) returns (s': State)
    requires Inv(s) && Enabled(s, Access(j)) && Succeeds(s.readers[j], s.slots[s.readers[j].lPos])
    ensures Inv(s')
    ensures var r := s.readers[j];
            s' == s.(slots := s.slots[r.lPos := s.slots[r.lPos].(header := r.pc.after)],
                     readers := s.readers[j := Swapped(r, |s.slots|)])
  {
    hide Inv, Bit, Mask;
    SwapKeeps(s, j);
    s' := Apply(s, Access(j));
  }

  lemma BitMeansUnread(s: State, j: nat)
    requires Inv(s) && j < |s.readers|
    ensures s.ids[j] < 64 && s.readers[j].lPos < |s.slots| && |s.readers[j].got| <= |s.sent|
    ensures Bit(s.slots[s.readers[j].lPos].header, s.ids[j]) <==> |s.readers[j].got| < |s.sent|
    ensures |s.readers[j].got| < |s.sent| ==> s.slots[s.readers[j].lPos].data == s.sent[|s.readers[j].got|]
  {
    BitAtReader(s, j);
    hide Bit, Pos, HeadersInv, PayloadsInv, WriterInv, LoopInv;
    assert ReaderInv(s.readers[j], s.ids[j], s.sent, s.slots);
  }

  lemma StoreWord(s: State)
    requires Inv(s) && Sane(s) && s.w.pc.Storing? && s.w.pc.k < WORDS
    ensures Enabled(s, Store) && Inv(Apply(s, Store)) && Sane(Apply(s, Store))
    ensures var k, slot := s.w.pc.k, s.slots[s.w.lPos];
            Apply(s, Store) == s.(slots := s.slots[s.w.lPos := slot.(data := slot.data[k := s.w.pc.msg[k]])],
                                  w := s.w.(pc := Storing(s.w.pc.msg, k + 1)))
  {
    StoreWordKeeps(s);
    InvIsSane(Apply(s, Store));
    hide Inv;
  }

  lemma InvIsSane(s: State)
    requires Inv(s)
    ensures Sane(s)
  {
  }
}
