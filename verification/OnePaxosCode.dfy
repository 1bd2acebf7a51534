/** The handlers of a 1Paxos replica in the steady state, on its own fields. */
module OnePaxosCode {
  import opened OnePaxos
  import opened OnePaxosSafety

  /** A receive buffer. */
  class Buffer {
    var data: Message

    constructor (data: Message)
      ensures this.data == data
    {
      this.data := data;
    }
  }

  class Node {
    const message: Buffer
    const lastExecutedRid: array<nat>
    var index: nat
    var proposalIndex: nat
    var entryQueue: seq<Buffer>
    var executed: seq<Request>

    constructor (clients: nat, message: Buffer)
      ensures fresh(lastExecutedRid) && Abs() == After([], clients) && proposalIndex == 0 && entryQueue == []
      ensures this.message == message
    {
      this.message := message;
      lastExecutedRid := new nat[clients](_ => NONE);
      index, proposalIndex, entryQueue, executed := 0, 0, [], [];
    }

    ghost function Abs(): Replica
      reads this, lastExecutedRid
    {
      Replica(index, lastExecutedRid[..], executed)
    }

    /** All of the leader's part of the state but what its buffer holds. */
    ghost predicate ShowsFields(s: State)
      reads this, lastExecutedRid
    {
      && Shaped(s) && s.replicas[0] == Abs() && s.proposalIndex == proposalIndex && |s.queue| == |entryQueue|
      && forall j | 0 <= j < |s.queue| :: s.queue[j] == MESSAGE && entryQueue[j] == message
    }

    ghost predicate ShowsLeader(s: State)
      reads this, lastExecutedRid, message
    {
      ShowsFields(s) && s.buffers[MESSAGE] == message.data
    }

    /** Run the command unless it is a repeat or stale. */
    method ExecuteRequest(r: Request) returns (success: bool)
      requires r.client < lastExecutedRid.Length
      modifies this`executed, lastExecutedRid
      ensures Abs() == OnePaxos.Execute(old(Abs()), r) && success == Fresh(old(lastExecutedRid[..]), r)
    {
      var last := lastExecutedRid[r.client];
      if last == r.id || (last > r.id && last != NONE) {
        return false;
      }
      executed := executed + [r];
      lastExecutedRid[r.client] := r.id;
      success := true;
    }

    method HandleLearn(m: Learn) returns (success: bool)
      requires m.request.client < lastExecutedRid.Length
      modifies this`executed, this`index, lastExecutedRid
      ensures Abs() == OnePaxos.HandleLearn(old(Abs()), m) && success == Fresh(old(lastExecutedRid[..]), m.request)
    {
      success := ExecuteRequest(m.request);
      if index != m.index {
        index := m.index;
      }
      index := index + 1;
    }

    /** The leader's part of a request just received: queue the buffer it is in, and propose it. */
    method HandleRequest(msg: Buffer, ghost s: State, ghost clients: nat) returns (ghost s': State)
      requires ShowsFields(s) && msg == message && Inv(s, clients) && Enabled(s, Arrive(msg.data.request))
      modifies this`entryQueue, this`proposalIndex, msg
      ensures ShowsLeader(s') && Inv(s', clients) && s'.requests == s.requests + [old(msg.data.request)]
      ensures s'.toAcceptor == s.toAcceptor + [msg.data]
      ensures entryQueue == old(entryQueue) + [msg] && msg.data == old(msg.data).(tag := Accepting)
    {
      hide Inv;
      ArriveKeeps(s, clients, msg.data.request);
      s' := Apply(s, Arrive(msg.data.request));
      entryQueue := entryQueue + [msg];
      msg.data := msg.data.(tag := Accepting);
      proposalIndex := proposalIndex + 1;
    }

    /** The leader learns from a message just received: it executes the request if it is new, and then replies;
      * the queue has as many entries as there are open requests, and one for this request. */
    method LeaderLearns(msg: Buffer, number: nat, ghost s: State, ghost clients: nat)
      returns (reply: bool, ghost s': State)
      requires ShowsFields(s) && msg == message && Inv(s, clients) && Enabled(s, Take(0))
      requires msg.data.tag == Learning && Learn(msg.data.request, number) == s.learns[0][0]
      requires msg.data.request.client < lastExecutedRid.Length
      modifies this, lastExecutedRid, msg
      ensures ShowsLeader(s') && Inv(s', clients) && msg.data.request == old(msg.data.request)
      ensures index == number + 1 && executed == old(executed) + (if reply then [msg.data.request] else [])
      ensures msg.data.tag == (if reply then Response else Learning)
      ensures s'.replies == s.replies + (if reply then [msg.data] else [])
      ensures number < |s.requests| && (reply <==> IsRecord(s.requests, number))
      ensures index <= |s'.requests| && |entryQueue| == |s'.requests| - index + 1
    {
      hide Inv, After, Fresh, OnePaxos.Execute, AcceptorInv, IsRecord;
      TakeKeeps(s, clients, 0);
      NewIsRecord(s, clients, 0);
      s' := Apply(s, Take(0));
      reply := HandleLearn(Learn(msg.data.request, number));
      AcceptorNow(s, clients);
      AcceptorNow(s', clients);
      if |entryQueue| > proposalIndex - index + 1 {
        entryQueue := entryQueue[1..];
      }
      if reply {
        msg.data := msg.data.(tag := Response);
      }
    }
  }
}
