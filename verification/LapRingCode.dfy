/** The send and receive functions of the lap ring, on the shared arrays. Ghost parameters name the states of
  * the machine a call goes through while the other threads are paused. */
module LapRingCode {
  import opened LapRing
  import opened LapRingSafety

  datatype Received = Nothing | MustWait | Message(words: seq<int>)

  /** The shared memory. */
  class Memory {
    const slots: array<seq<int>>
    const readersPos: array<nat>
    var writePos: nat

    constructor (slots: array<seq<int>>, readersPos: array<nat>)
      ensures this.slots == slots && this.readersPos == readersPos && writePos == 0
    {
      this.slots, this.readersPos, writePos := slots, readersPos, 0;
    }

    ghost predicate Shows(s: State)
      reads this, slots, readersPos
    {
      s.slots == slots[..] && s.readersPos == readersPos[..] && s.writePos == writePos
    }

    /** One look at all readers: it stops at the first that has not reported the end. */
    method CheckReadersEnd(ghost s: State) returns (all: bool, ghost s': State)
      requires Shows(s) && Inv(s) && s.w.Watching? && s.w.i == 0
      ensures all <==> forall j | 0 <= j < readersPos.Length :: readersPos[j] == END
      ensures s' == s.(w := if all then Rewinding(s.w.msg) else Watching(s.w.msg, 0)) && Inv(s')
    {
      hide Inv;
      s' := s;
      for i := 0 to readersPos.Length
        invariant forall j | 0 <= j < i :: readersPos[j] == END
        invariant s' == s.(w := Watching(s.w.msg, i)) && Inv(s')
      {
        InvIsSane(s');
        WriteKeeps(s');
        s' := Apply(s', Write);
        if readersPos[i] != END {
          return false, s';
        }
      }
      InvIsSane(s');
      WriteKeeps(s');
      s' := Apply(s', Write);
      all := true;
    }

    /** Put the write position back and release every reader. */
    method StartLap(ghost s: State) returns (ghost s': State)
      requires Shows(s) && Inv(s) && s.w.Rewinding?
      modifies this, readersPos
      ensures Shows(s') && Inv(s') && s'.w == Storing(s.w.msg, 0) && s'.sent == s.sent && s'.readers == s.readers
      ensures writePos == 0 && slots[..] == s.slots && forall j | 0 <= j < readersPos.Length :: readersPos[j] == RESET
    {
      hide Inv;
      InvIsSane(s);
      WriteKeeps(s);
      s' := Apply(s, Write);
      writePos := 0;
      for i := 0 to readersPos.Length
        invariant Shows(s') && Inv(s') && s'.w == Releasing(s.w.msg, i) && s'.sent == s.sent && s'.readers == s.readers
        invariant writePos == 0 && slots[..] == s.slots && forall j | 0 <= j < i :: readersPos[j] == RESET
      {
        InvIsSane(s');
        WriteKeeps(s');
        s' := Apply(s', Write);
        readersPos[i] := RESET;
      }
      InvIsSane(s');
      WriteKeeps(s');
      s' := Apply(s', Write);
    }

    /** Payload words in order, and then the position. */
    method StoreMessage(words: seq<int>, ghost s: State) returns (ghost s': State)
      requires Shows(s) && Inv(s) && s.w == Storing(words, 0)
      modifies this, slots
      ensures Shows(s') && Inv(s') && s'.w == Idle && s'.sent == s.sent + [words] && s'.readers == s.readers
      ensures s.writePos < slots.Length && slots[..] == old(slots[..])[s.writePos := words]
      ensures writePos == old(writePos) + 1
    {
      hide Inv;
      s' := s;
      InvIsSane(s);
      for k := 0 to WORDS
        invariant Shows(s') && Inv(s') && Sane(s') && s'.w == Storing(words, k)
        invariant s'.sent == s.sent && s'.readers == s.readers && writePos == old(writePos)
        invariant |slots[writePos]| == WORDS && slots[writePos][..k] == words[..k]
        invariant forall j | 0 <= j < slots.Length && j != writePos :: slots[j] == old(slots[j])
      {
        WriteKeeps(s');
        s' := Apply(s', Write);
        InvIsSane(s');
        slots[writePos] := slots[writePos][k := words[k]];
      }
      WriteKeeps(s');
      s' := Apply(s', Write);
      assert slots[writePos] == words;
      writePos := writePos + 1;
    }

    /** One attempt to send: it gives up exactly where the code would spin, at the end of a lap some reader has
      * not reported, and otherwise puts the message in the next slot. */
    method TrySend(words: seq<int>, ghost s: State) returns (ok: bool, ghost s': State)
      requires Shows(s) && Inv(s) && s.w == Idle && |words| == WORDS
      modifies this, slots, readersPos
      ensures Shows(s') && Inv(s') && s'.readers == s.readers
      ensures ok <==> s.writePos < |s.slots| || forall j | 0 <= j < |s.readersPos| :: s.readersPos[j] == END
      ensures ok ==> s'.sent == s.sent + [words] && s'.w == Idle
      ensures ok ==> var p := if s.writePos == |s.slots| then 0 else s.writePos;
                     p < |s.slots| && slots[..] == s.slots[p := words] && writePos == p + 1
      ensures !ok ==> s'.sent == s.sent && slots[..] == old(slots[..]) && writePos == old(writePos)
    {
      hide Inv;
      InvIsSane(s);
      SendKeeps(s, words);
      s' := Apply(s, Send(words));
      ok := true;
      if writePos == slots.Length {
        ok, s' := CheckReadersEnd(s');
        if !ok {
          return;
        }
        s' := StartLap(s');
      }
      s' := StoreMessage(words, s');
    }
  }

  lemma InvIsSane(s: State)
    requires Inv(s)
    ensures Sane(s) && (s.w.Watching? || s.w.Releasing? ==> |s.readers| == |s.readersPos|)
  {
  }

  /** One reader's context. */
  class Reader {
    const memory: Memory
    const id: nat
    var lPos: nat

    constructor (memory: Memory, id: nat)
      ensures this.memory == memory && this.id == id && lPos == 0
    {
      this.memory, this.id, lPos := memory, id, 0;
    }

    ghost predicate Shows(s: State)
      reads this, memory, memory.slots, memory.readersPos
    {
      memory.Shows(s) && id < |s.readers| && s.readers[id].lPos == lPos
    }

    ghost predicate Attached(memory: Memory, j: nat, s: State)
      reads this
    {
      this.memory == memory && id == j < |s.readers| && s.readers[j].lPos == lPos
    }

    /** One attempt to receive; `waiting` resumes a call that was left waiting for the next lap. A new call at
      * the end of a lap reports it, rewinds and must wait; a resumed one must wait exactly if the reader has
      * not been released. Otherwise it finds a message exactly if one is unread, and then it is the next one
      * sent. */
    method ReceiveNonBlocking(waiting: bool, ghost s: State) returns (r: Received, ghost s': State)
      requires Shows(s) && Inv(s) && s.readers[id].pc == (if waiting then Waiting else Outside)
      modifies this, memory.readersPos
      ensures Shows(s') && Inv(s') && |s.readers[id].got| <= |s.sent| && id < |s.readersPos|
      ensures s' == s.(readers := s.readers[id := s'.readers[id]], readersPos := s'.readersPos)
      ensures AtLapEnd(waiting, s, id) ==> r.MustWait? && lPos == 0 && s'.readersPos == s.readersPos[id := END]
      ensures !AtLapEnd(waiting, s, id) ==> s'.readersPos == s.readersPos
      ensures r.MustWait? <==> AtLapEnd(waiting, s, id) || (waiting && s.readersPos[id] != RESET)
      ensures r.MustWait? ==> |s.readers[id].got| == |s.sent| && s'.readers[id].pc.Waiting?
      ensures !r.MustWait? ==> s'.readers[id].pc.Outside?
      ensures r.Message? ==> |s.readers[id].got| < |s.sent| && r.words == s.sent[|s.readers[id].got|]
      ensures r.Message? <==> |s.readers[id].got| < |s.sent|
      ensures |s'.readers[id].got| == |s.readers[id].got| + if r.Message? then 1 else 0
    {
      hide Inv;
      InvIsSane(s);
      Progress(s, id);
      s' := s;
      var blocked := waiting;
      if !waiting {
        CallKeeps(s, id);
        s' := Apply(s, Call(id));
        if lPos == memory.slots.Length {
          memory.readersPos[id] := END;
          lPos := 0;
          blocked := true;
        }
      }
      if blocked {
        Progress(s', id);
        if memory.readersPos[id] != RESET {
          return MustWait, s';
        }
        InvIsSane(s');
        AccessKeeps(s', id);
        s' := Apply(s', Access(id));
      }
      InvIsSane(s');
      Progress(s', id);
      ghost var s1 := s';
      AccessKeeps(s', id);
      s' := Apply(s', Access(id));
      if lPos == memory.writePos {
        return Nothing, s';
      }
      var words;
      words, s' := CopyWords(s');
      r := Message(words);
    }

    /** Copy the payload of the slot at hand and move on. */
    method CopyWords(ghost s: State) returns (words: seq<int>, ghost s': State)
      requires Shows(s) && Inv(s) && s.readers[id].pc == Reading([])
      modifies this
      ensures Shows(s') && Inv(s') && s'.readers[id].pc.Outside? && lPos == old(lPos) + 1
      ensures s' == s.(readers := s.readers[id := s'.readers[id]])
      ensures |s.readers[id].got| < |s.sent| && words == s.sent[|s.readers[id].got|]
      ensures |s'.readers[id].got| == |s.readers[id].got| + 1
    {
      hide Inv;
      s' := s;
      words := [];
      for k := 0 to WORDS - 1
        invariant Inv(s') && lPos == old(lPos)
        invariant s' == s.(readers := s.readers[id := s.readers[id].(pc := Reading(words))])
        invariant |words| == k
      {
        InvIsSane(s');
        WordRead(s', id);
        AccessKeeps(s', id);
        s' := Apply(s', Access(id));
        words := words + [memory.slots[lPos][k]];
      }
      InvIsSane(s');
      WordRead(s', id);
      AccessKeeps(s', id);
      s' := Apply(s', Access(id));
      words := words + [memory.slots[lPos][WORDS - 1]];
      lPos := lPos + 1;
    }
  }

  /** A call that starts at the end of a lap. */
  predicate AtLapEnd(waiting: bool, s: State, j: nat) {
    !waiting && j < |s.readers| && s.readers[j].lPos == |s.slots|
  }

  /** Every reader has received the whole lap and calls once more, and then the writer's next send goes
    * through: it does not spin. */
  method EndLap(memory: Memory, readers: seq<Reader>, words: seq<int>, ghost s: State)
    returns (ok: bool, ghost s': State)
    requires memory.Shows(s) && Inv(s) && s.w == Idle && |words| == WORDS
    requires |readers| == |s.readers| && forall j | 0 <= j < |readers| :: readers[j].Attached(memory, j, s)
    requires forall j | 0 <= j < |s.readers| :: s.readers[j].pc.Outside? && s.readers[j].lPos == |s.slots|
    modifies memory, memory.slots, memory.readersPos, readers
    ensures ok && memory.Shows(s') && Inv(s') && s'.w == Idle && s'.sent == s.sent + [words]
    ensures |s'.readers| == |s.readers| && forall j | 0 <= j < |s.readers| :: s'.readers[j].pc.Waiting?
  {
    hide Inv;
    s' := s;
    InvIsSane(s);
    for i := 0 to |readers|
      invariant memory.Shows(s') && Inv(s') && s'.w == Idle && s'.sent == s.sent && |s'.slots| == |s.slots|
      invariant |s'.readers| == |readers| == |s'.readersPos|
      invariant forall j | i <= j < |readers| ::
                  readers[j].Attached(memory, j, s') && s'.readers[j].pc.Outside? && s'.readers[j].lPos == |s.slots|
      invariant forall j | 0 <= j < i :: s'.readers[j].pc.Waiting? && s'.readersPos[j] == END
    {
      var r;
      r, s' := readers[i].ReceiveNonBlocking(false, s');
      assert r.MustWait?;
    }
    ok, s' := memory.TrySend(words, s');
  }

  lemma Progress(s: State, j: nat)
    requires Inv(s) && j < |s.readers|
    ensures |s.readers[j].got| <= |s.sent| && j < |s.readersPos| && s.readers[j].lPos <= |s.slots|
    ensures s.readers[j].pc.Waiting? && s.readersPos[j] != RESET ==> |s.readers[j].got| == |s.sent|
    ensures s.readers[j].pc.Comparing? ==> (s.readers[j].lPos == s.writePos <==> |s.readers[j].got| == |s.sent|)
    ensures s.readers[j].pc.Outside? && s.readers[j].lPos == |s.slots| ==> |s.readers[j].got| == |s.sent|
  {
    assert ReaderInv(s, j);
  }
}
