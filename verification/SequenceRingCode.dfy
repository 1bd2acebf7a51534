/** The send and receive functions of the sequence-number ring, on the shared arrays. Ghost parameters name
  * the states of the machine a call goes through while the other threads are paused. */
module SequenceRingCode {
  import opened RingArith
  import opened SequenceRing
  import opened SequenceRingSafety
  import opened SequenceRingCalls
  import opened Wrappers

  /** The position of the slowest reader, or the start value of the search if that is smaller. */
  ghost predicate IsSlowest(min: nat, pos: seq<nat>) {
    && min <= CAP && (forall j | 0 <= j < |pos| :: min <= pos[j])
    && (min == CAP || min in pos)
  }

  /** One thread's view: the shared memory and its private context. */
  class Queue {
    const slots: array<Slot>
    const readersPos: array<nat>
    const id: nat
    var lPos: nat
    var nextSync: nat
    var nextSeq: nat

    constructor (slots: array<Slot>, readersPos: array<nat>, id: nat)
      requires 2 <= slots.Length
      ensures this.slots == slots && this.readersPos == readersPos && this.id == id
      ensures lPos == 0 && nextSync == slots.Length - 1 && nextSeq == 1
    {
      this.slots, this.readersPos, this.id := slots, readersPos, id;
      lPos, nextSync, nextSeq := 0, slots.Length - 1, 1;
    }

    ghost predicate ShowsMemory(s: State)
      reads slots, readersPos
    {
      s.slots == slots[..] && s.pos == readersPos[..]
    }

    ghost predicate ShowsWriter(s: State)
      reads this, slots, readersPos
    {
      ShowsMemory(s) && s.w.lPos == lPos && s.w.nextSeq == nextSeq && s.w.nextSync == nextSync
    }

    ghost predicate ShowsReader(s: State)
      reads this, slots, readersPos
    {
      && ShowsMemory(s) && id < |s.readers|
      && s.readers[id].lPos == lPos && s.readers[id].nextSeq == nextSeq
    }

    /** One pass over the readers' positions. */
    method GetNextSync(ghost s: State) returns (next: nat, ghost s': State)
      requires Sane(s) && s.w.pc.Scanning? && s.w.pc.i == 0 && s.w.pc.min == CAP && ShowsMemory(s)
      requires Inv(s)
      ensures next >= slots.Length - 1 && IsSlowest(next - (slots.Length - 1), readersPos[..])
      ensures s' == s.(w := s.w.(pc := Scanning(s.w.pc.msg, |s.pos|, next - (slots.Length - 1)))) && Inv(s')
    {
      hide Inv;
      var min := CAP;
      s' := s;
      for i := 0 to readersPos.Length
        invariant min <= CAP && forall j | 0 <= j < i :: min <= readersPos[j]
        invariant min == CAP || min in readersPos[..i]
        invariant s' == s.(w := s.w.(pc := Scanning(s.w.pc.msg, i, min))) && Inv(s')
      {
        ScanKeeps(s');
        s' := Apply(s', Scan);
        if min > readersPos[i] {
          min := readersPos[i];
          if s'.w.pc.Reloading? {
            ScanKeeps(s');
            s' := Apply(s', Scan);
          }
        }
      }
      assert readersPos[..readersPos.Length] == readersPos[..];
      next := min + (slots.Length - 1);
    }

    /** One attempt to send: it gives up exactly where the code would spin, and otherwise puts the words in
      * the next slot under the next sequence number, touching no other slot. */
    method TrySend(words: seq<int>, ghost s: State) returns (ok: bool, ghost s': State)
      requires ShowsWriter(s) && Inv(s) && Capped(s) && s.w.pc.Idle? && |words| == WORDS
      modifies this, slots
      ensures ShowsWriter(s') && Inv(s') && Capped(s') && s'.pos == s.pos && s'.readers == s.readers
      ensures !ok ==> s'.sent == s.sent && slots[..] == old(slots[..])
                      && s'.w.nextSeq == s.w.nextSync && IsSlowest(s.w.nextSync - (slots.Length - 1), s.pos)
      ensures ok ==> s'.sent == s.sent + [words] && s'.w.pc.Idle?
      ensures ok ==> var p := if s.w.lPos == slots.Length then 0 else s.w.lPos;
                     p < slots.Length && slots[..] == old(slots[..])[p := Slot(s.w.nextSeq, words)]
    {
      hide Inv;
      SendKeeps(s, words) by {
        InvIsSane(s);
      }
      s' := Apply(s, Send(words)) by {
        InvIsSane(s);
      }
      InvIsSane(s');
      if lPos == slots.Length {
        lPos := 0;
      }
      if nextSeq == nextSync {
        var next;
        next, s' := GetNextSync(s');
        InvIsSane(s');
        if nextSeq == next {
          return false, s';
        }
        ScanKeeps(s');
        s' := Apply(s', Scan);
        nextSync := next;
      }
      s' := StoreMessage(words, s');
      ok := true;
    }

    method StoreMessage(words: seq<int>, ghost s: State) returns (ghost s': State)
      requires ShowsWriter(s) && Inv(s) && s.w.pc == Storing(words, 0)
      modifies this, slots
      ensures ShowsWriter(s') && Inv(s') && s'.pos == s.pos && s'.readers == s.readers && s'.w.pc.Idle?
      ensures nextSync == old(nextSync)
      ensures s'.sent == s.sent + [words]
      ensures s.w.lPos < slots.Length && slots[..] == old(slots[..])[s.w.lPos := Slot(s.w.nextSeq, words)]
    {
      hide Inv;
      InvIsSane(s);
      s' := StoreWords(words, s);
      StoreKeeps(s');
      s' := Apply(s', Store);
      slots[lPos] := slots[lPos].(seqno := nextSeq);
      nextSeq := nextSeq + 1;
      lPos := lPos + 1;
    }

    /** The payload words, in order. */
    method StoreWords(words: seq<int>, ghost s: State) returns (ghost s': State)
      requires ShowsWriter(s) && Inv(s) && Sane(s) && s.w.pc == Storing(words, 0)
      modifies slots
      ensures ShowsMemory(s') && Inv(s') && Sane(s')
      ensures s' == s.(slots := s'.slots, w := s.w.(pc := Storing(words, WORDS)))
      ensures slots[..] == old(slots[..])[lPos := Slot(old(slots[lPos].seqno), words)]
    {
      hide Inv, Apply;
      s' := s;
      for k := 0 to WORDS
        invariant ShowsMemory(s') && Inv(s') && Sane(s')
        invariant s' == s.(slots := s'.slots, w := s.w.(pc := Storing(words, k)))
        invariant |slots[lPos].data| == WORDS && slots[lPos].data[..k] == words[..k]
        invariant slots[lPos].seqno == old(slots[lPos].seqno)
        invariant forall j | 0 <= j < slots.Length && j != lPos :: slots[j] == old(slots[j])
      {
        StoreWord(s');
        s' := Apply(s', Store);
        slots[lPos] := slots[lPos].(data := slots[lPos].data[k := words[k]]);
      }
      assert slots[lPos].data == words;
    }

    /** Load the payload of the slot at the read position. */
    method CopyWords(ghost s: State) returns (words: seq<int>, ghost s': State)
      requires ShowsReader(s) && Inv(s) && Sane(s) && s.readers[id].pc == Reading([])
      ensures lPos < slots.Length && words == slots[lPos].data && |words| == WORDS
      ensures s' == s.(readers := s.readers[id := s.readers[id].(pc := Reading(words))]) && Inv(s') && Sane(s')
    {
      hide Inv;
      assert |s.slots[lPos].data| == WORDS;
      words := [];
      s' := s;
      for k := 0 to WORDS
        invariant words == slots[lPos].data[..k] && Inv(s') && Sane(s')
        invariant s' == s.(readers := s.readers[id := s.readers[id].(pc := Reading(words))])
      {
        ReaderKeeps(s', Read(id), id);
        s' := Apply(s', Read(id));
        InvIsSane(s');
        words := words + [slots[lPos].data[k]];
      }
    }

    /** Receive if the expected sequence number is there: exactly if a message is unread, and then it is the
      * next one sent. */
    method ReceiveNonBlocking(ghost s: State) returns (r: Option<seq<int>>, ghost s': State)
      requires ShowsReader(s) && Inv(s) && s.readers[id].pc.Polling?
      modifies this, readersPos
      ensures ShowsReader(s') && Inv(s') && s'.sent == s.sent && s'.w == s.w && s'.readers[id].pc.Polling?
      ensures |s.readers[id].got| <= |s.sent| && id < |s.pos|
      ensures s' == s.(readers := s.readers[id := s'.readers[id]], pos := s.pos[id := s'.pos[id]])
      ensures r.Some? <==> |s.readers[id].got| < |s.sent|
      ensures r.Some? ==> r.value == s.sent[|s.readers[id].got|]
      ensures |s'.readers[id].got| == |s.readers[id].got| + if r.Some? then 1 else 0
    {
      hide Inv, Published;
      InvIsSane(s);
      ExpectedIffUnread(s, id);
      s' := s;
      if nextSeq != slots[lPos].seqno {
        return None, s';
      }
      NextPayload(s, id);
      ReaderKeeps(s', Check(id), id);
      s' := Apply(s', Check(id));
      InvIsSane(s');
      var words;
      words, s' := CopyWords(s');
      s' := FinishReceive(s');
      r := Some(words);
    }

    /** Move on, and publish every sixteenth number. */
    method FinishReceive(ghost s: State) returns (ghost s': State)
      requires ShowsReader(s) && Inv(s) && Sane(s) && s.readers[id].pc.Reading? && |s.readers[id].pc.buf| == WORDS
      modifies this, readersPos
      ensures ShowsReader(s') && Inv(s') && s'.readers[id].pc.Polling?
      ensures s' == s.(readers := s.readers[id := s'.readers[id]], pos := s.pos[id := s'.pos[id]])
      ensures |s'.readers[id].got| == |s.readers[id].got| + 1
    {
      hide Inv, Published;
      ReaderKeeps(s, Finish(id), id);
      s' := Apply(s, Finish(id));
      InvIsSane(s');
      lPos := lPos + 1;
      nextSeq := nextSeq + 1;
      if lPos == slots.Length {
        lPos := 0;
      }
      if nextSeq % 16 == 0 {
        ReaderKeeps(s', Publish(id), id);
        s' := Apply(s', Publish(id));
        readersPos[id] := nextSeq - 1;
      }
    }
  }

  lemma StoreWord(s: State)
    requires Inv(s) && Sane(s) && s.w.pc.Storing? && s.w.pc.k < WORDS
    ensures Enabled(s, Store) && Inv(Apply(s, Store)) && Sane(Apply(s, Store))
    ensures var k, slot := s.w.pc.k, s.slots[s.w.lPos];
            Apply(s, Store) == s.(slots := s.slots[s.w.lPos := slot.(data := slot.data[k := s.w.pc.msg[k]])],
                                  w := s.w.(pc := Storing(s.w.pc.msg, k + 1)))
  {
    StoreKeeps(s);
    InvIsSane(Apply(s, Store));
    hide Inv;
  }

  lemma ExpectedIffUnread(s: State, j: nat)
    requires Inv(s) && j < |s.readers|
    ensures s.readers[j].lPos < |s.slots| && |s.readers[j].got| <= |s.sent|
    ensures s.readers[j].nextSeq == s.slots[s.readers[j].lPos].seqno <==> |s.readers[j].got| < |s.sent|
  {
    hide SyncInv, WriterInv, Pos, Published;
    assert ReaderInv(s.readers[j], s.sent, |s.slots|, s.pos[j]);
    if |s.readers[j].got| < |s.sent| {
      NextPayload(s, j);
    } else {
      NotYetSent(s.sent, s.slots);
    }
  }
}
