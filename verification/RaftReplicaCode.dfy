/** The handlers of a replica on its own fields and its linked log queue. A method that reports harm has
  * reached what the code would go wrong at, and promises nothing else about the state. */
module RaftReplicaCode {
  import opened RaftCommit
  import opened RaftQueue
  import opened RaftReplica
  import opened Wrappers

  class RaftNode {
    const id: nat
    var term: nat
    var leader: nat
    var commitIndex: nat
    var lastApplied: nat
    var lastLogIndex: nat
    const queue: LogQueue
    const nextIndex: array<nat>
    const matchIndex: array<nat>
    var executed: seq<Request>

    ghost predicate Valid()
      reads this, queue, queue.nodes
    {
      nextIndex != matchIndex && queue.Valid()
    }

    ghost function Abs(): Replica
      reads this, nextIndex, matchIndex, queue, queue.nodes
    {
      Replica(id, term, leader, commitIndex, lastApplied, lastLogIndex, queue.Contents(),
              nextIndex[..], matchIndex[..], executed)
    }

    constructor (id: nat, n: nat, garbage: Entry)
      requires garbage.index == 0 && garbage.term == 1
      ensures Valid() && fresh(nextIndex) && fresh(matchIndex) && fresh(queue) && fresh(queue.repr)
      ensures Abs() == Replica(id, 1, 0, 0, 0, 0, [garbage], seq(n, _ => 2), seq(n, _ => 0), [])
    {
      this.id, term, leader := id, 1, 0;
      commitIndex, lastApplied, lastLogIndex := 0, 0, 0;
      queue := new LogQueue();
      executed := [];
      nextIndex := new nat[n](_ => 2);
      matchIndex := new nat[n](_ => 0);
      new;
      queue.Enqueue(garbage);
    }

    /** The conflict branch of handle_append. */
    method RemoveFrom(index: nat) returns (harm: Option<Harm>)
      requires queue.Valid()
      modifies queue, queue.repr
      ensures Trims(harm, RemoveConflicts(old(queue.Contents()), index)) && queue.repr == old(queue.repr)
    {
      hide RemoveConflicts, LogQueue.Valid, LogQueue.Contents;
      ghost var target := RemoveConflicts(queue.Contents(), index);
      var entryIndex, found := index, true;
      harm := None;
      while harm.None? && found
        invariant queue.repr == old(queue.repr)
        invariant harm.None? && found ==> queue.Valid() && RemoveConflicts(queue.Contents(), entryIndex) == target
        invariant harm.None? && !found ==> queue.Valid() && target == Intact(queue.Contents())
        invariant harm.Some? ==> target == Broken(harm.value)
        decreases if harm.None? && found then 1 + |queue.Contents()| else 0
      {
        ConflictStep(queue.Contents(), entryIndex);
        var node;
        harm, node := queue.RemoveEntry(entryIndex);
        found := node != null;
        entryIndex := entryIndex + 1;
      }
    }

    /** The queue is what trimming is to leave, or the harm is. */
    ghost predicate Trims(harm: Option<Harm>, o: Trimmed)
      reads queue, queue.nodes
    {
      && (harm.None? <==> o.Intact?) && (harm.Some? ==> o == Broken(harm.value))
      && (harm.None? ==> queue.Valid() && queue.Contents() == o.queue)
    }

    /** Apply the next committed entry. */
    method ApplyNext() returns (harm: Option<Harm>, replies: seq<Request>)
      requires lastApplied < commitIndex && queue.Valid()
      modifies this`lastApplied, this`executed, queue, queue.repr
      ensures lastApplied == old(lastApplied) + 1 && queue.repr == old(queue.repr)
      ensures var o := RaftReplica.ApplyNext(old(Abs()));
              && (harm.None? <==> o.Applied?) && (harm.Some? ==> o == Harmed(harm.value))
              && (harm.None? ==> queue.Valid() && o == Applied(Abs(), replies))
    {
      hide Cleanup, Remove, LogQueue.Valid, LogQueue.Contents, Find, NodeAt;
      replies := [];
      lastApplied := lastApplied + 1;
      var node, p := queue.QueueContains(lastApplied);
      queue.Holds(p);
      if node == null {
        return Some(NullPointer), replies;
      }
      executed := executed + [node.entry.request];
      if id == leader {
        replies := [node.entry.request];
        harm := Answered(node, p);
      } else if lastApplied > 2 {
        harm := Trim(lastApplied - 2);
      } else {
        harm := None;
      }
    }

    /** The leader counts the execution and cleans up. */
    method Answered(node: LogNode, ghost p: nat) returns (harm: Option<Harm>)
      requires queue.Valid() && p < |queue.nodes| && node == queue.nodes[p]
      modifies queue, queue.repr
      ensures queue.repr == old(queue.repr)
      ensures var q := old(queue.Contents());
              Trims(harm, Cleanup(q[p := CountedOnce(q[p])], matchIndex.Length, commitIndex))
    {
      queue.Holds(p);
      hide LogQueue.Valid, LogQueue.Contents, CountedOnce, NodeAt;
      queue.CountExecution(node, p);
      harm := queue.Cleanup(matchIndex.Length, commitIndex);
    }

    /** A follower frees an entry it no longer needs, if it has it. */
    method Trim(index: nat) returns (harm: Option<Harm>)
      requires queue.Valid()
      modifies queue, queue.repr
      ensures queue.repr == old(queue.repr) && Trims(harm, Remove(old(queue.Contents()), index))
      ensures var p := Find(old(queue.Contents()), index);
              harm.None? && p < |old(queue.nodes)| ==> old(queue.nodes)[p].freed
    {
      hide LogQueue.Valid, LogQueue.Contents, Find, Remove;
      var node;
      harm, node := queue.RemoveEntry(index);
      if harm.None? && node != null {
        node.freed := true;
      }
    }

    /** Apply committed entries one at a time; the leader answers the client of each. */
    method UpdateAppliedEntries() returns (harm: Option<Harm>, replies: seq<Request>)
      requires queue.Valid()
      modifies this`lastApplied, this`executed, queue, queue.repr
      ensures queue.repr == old(queue.repr)
      ensures Ends(harm, ApplyEntries(old(Abs())), replies, [], [])
    {
      hide RaftReplica.ApplyNext, LogQueue.Valid, LogQueue.Contents;
      harm, replies := None, [];
      ghost var target := ApplyEntries(Abs());
      NothingAdded(target);
      while commitIndex > lastApplied
        invariant harm.None? && commitIndex == old(commitIndex) && queue.Valid() && queue.repr == old(queue.repr)
        invariant Answering(replies, ApplyEntries(Abs())) == target
        decreases commitIndex - lastApplied
      {
        ghost var before := Abs();
        var more;
        harm, more := ApplyNext();
        if harm.Some? {
          return;
        }
        AnsweringTwice(replies, more, ApplyEntries(Abs()));
        replies := replies + more;
      }
      assert replies + [] == replies;
    }

    /** The replica, and what it sent, are what the handler is to leave, or the harm is. */
    ghost predicate Ends(harm: Option<Harm>, o: Outcome, replies: seq<Request>, acks: seq<Ack>, resent: seq<Append>)
      reads this, nextIndex, matchIndex, queue, queue.nodes
    {
      && (harm.None? <==> o.Done?) && (harm.Some? ==> o == Fault(harm.value))
      && (harm.None? ==> queue.Valid() && o == Done(Abs(), replies, acks, resent))
    }

    method UpdateState(term: nat, leader: nat)
      modifies this`term, this`leader
      ensures Abs() == RaftReplica.UpdateState(old(Abs()), term, leader)
    {
      if term > this.term {
        this.term, this.leader := term, leader;
      }
    }

    /** The leader's own part of a request, and the message every follower is sent. */
    method BeginRequest(request: Request) returns (m: Append)
      requires queue.Valid()
      modifies this`lastLogIndex, queue, queue.repr
      ensures queue.Valid() && fresh(queue.repr - old(queue.repr))
      ensures Abs() == AppendOwn(old(Abs()), request) && m == AppendMessage(Abs(), request)
    {
      hide LogQueue.Valid, LogQueue.Contents;
      lastLogIndex := lastLogIndex + 1;
      queue.Enqueue(Entry(lastLogIndex, term, request, 0));
      m := Append(term, leader, lastLogIndex - 1, commitIndex, request);
    }

    method HandleAppend(m: Append) returns (harm: Option<Harm>, replies: seq<Request>, acks: seq<Ack>)
      requires queue.Valid()
      modifies this, queue, queue.repr
      ensures Ends(harm, RaftReplica.HandleAppend(old(Abs()), m), replies, acks, [])
      ensures fresh(queue.repr - old(queue.repr))
    {
      hide ApplyEntries, RaftReplica.TakeEntry, LogQueue.Valid, LogQueue.Contents, Find, NodeAt;
      UpdateState(m.term, m.leader);
      replies, acks := [], [];
      if id == m.leader {
        harm, replies := UpdateAppliedEntries();
        return;
      }
      if m.term < term {
        return None, [], [Ack(term, m.prev, id, false, m.request.client)];
      }
      var node, p := queue.QueueContains(m.prev);
      queue.Holds(p);
      if node == null {
        return None, [], [Ack(term, m.prev, id, false, m.request.client)];
      }
      harm, replies, acks := TakeEntry(m);
    }

    method TakeEntry(m: Append) returns (harm: Option<Harm>, replies: seq<Request>, acks: seq<Ack>)
      requires queue.Valid()
      modifies this, queue, queue.repr
      ensures Ends(harm, RaftReplica.TakeEntry(old(Abs()), m), replies, acks, [])
      ensures fresh(queue.repr - old(queue.repr))
    {
      hide ApplyEntries, RemoveConflicts, LogQueue.Valid, LogQueue.Contents, Then;
      replies, acks := [], [];
      harm := RemoveFrom(m.prev + 1);
      if harm.Some? {
        return;
      }
      AcceptEntry(m);
      acks := [Ack(term, m.prev + 1, id, true, m.request.client)];
      ThenAck(ApplyEntries(Abs()), acks);
      harm, replies := UpdateAppliedEntries();
    }

    /** A follower takes the leader's entry. */
    method AcceptEntry(m: Append)
      requires queue.Valid()
      modifies this`lastLogIndex, this`commitIndex, queue, queue.repr
      ensures queue.Valid() && Abs() == Accept(old(Abs()), m, old(queue.Contents()))
      ensures fresh(queue.repr - old(queue.repr))
    {
      hide LogQueue.Valid, LogQueue.Contents;
      lastLogIndex := m.prev + 1;
      queue.Enqueue(Entry(m.prev + 1, m.term, m.request, 0));
      if m.commit > commitIndex {
        commitIndex := if m.commit <= lastLogIndex then m.commit else lastLogIndex;
      }
    }

    method HandleAppendResponse(a: Ack) returns (harm: Option<Harm>, replies: seq<Request>, resent: seq<Append>)
      requires Valid()
      modifies this, nextIndex, matchIndex, queue, queue.repr
      ensures Ends(harm, RaftReplica.HandleAppendResponse(old(Abs()), a), replies, [], resent)
      ensures queue.repr == old(queue.repr)
    {
      hide Succeed, LogQueue.Valid, LogQueue.Contents, Find, NodeAt;
      UpdateState(a.term, leader);
      replies, resent := [], [];
      if a.from >= nextIndex.Length || a.from >= matchIndex.Length {
        return Some(OutOfRange), [], [];
      }
      if !a.success {
        harm := if a.lastIndex < matchIndex[a.from] then None else Some(AssertFails);
        return;
      }
      var node, p := queue.QueueContains(a.lastIndex);
      queue.Holds(p);
      if node == null {
        return Some(NullPointer), [], [];
      }
      harm, replies, resent := TakeSuccess(a, node, p);
    }

    /** The leader records what the follower has, and sends it the entry after that if there is one. */
    method TakeSuccess(a: Ack, node: LogNode, ghost p: nat)
      returns (harm: Option<Harm>, replies: seq<Request>, resent: seq<Append>)
      requires Valid() && p < |queue.nodes| && node == queue.nodes[p]
      requires a.from < nextIndex.Length && a.from < matchIndex.Length
      modifies this, nextIndex, matchIndex, queue, queue.repr
      ensures Ends(harm, Succeed(old(Abs()), a, p), replies, [], resent)
      ensures queue.repr == old(queue.repr)
    {
      hide ApplyEntries, RaftReplica.Acknowledge, LogQueue.Valid, LogQueue.Contents, Find, NodeAt, Then;
      replies, resent := [], [];
      queue.Holds(p);
      ghost var r := Abs();
      AcknowledgedRest(r, a, p);
      Acknowledge(a, node, p);
      if lastLogIndex >= nextIndex[a.from] {
        harm, resent := Resend(a, node, p);
        if harm.Some? {
          return;
        }
      }
      ThenResent(ApplyEntries(Abs()), resent);
      harm, replies := UpdateAppliedEntries();
    }

    /** The entry after the acknowledged one, which there must be. */
    method Resend(a: Ack, node: LogNode, ghost p: nat) returns (harm: Option<Harm>, resent: seq<Append>)
      requires queue.Valid() && p < |queue.nodes| && node == queue.nodes[p]
      ensures harm == (if p + 1 == |queue.Contents()| then Some(AssertFails) else None)
      ensures harm.None? ==>
                var payload := queue.Contents()[p + 1].request.payload;
                resent == [Append(term, id, a.lastIndex, commitIndex, Request(a.client, payload))]
    {
      queue.Holds(p);
      hide LogQueue.Valid, LogQueue.Contents, NodeAt;
      if node.next == null {
        return Some(AssertFails), [];
      }
      harm := None;
      resent := [Append(term, id, a.lastIndex, commitIndex, Request(a.client, node.next.entry.request.payload))];
    }

    /** Record a successful response and move the commit index. */
    method Acknowledge(a: Ack, node: LogNode, ghost p: nat)
      requires Valid() && p < |queue.nodes| && node == queue.nodes[p]
      requires a.from < nextIndex.Length && a.from < matchIndex.Length
      modifies this`commitIndex, nextIndex, matchIndex, node`entry
      ensures Valid() && Abs() == RaftReplica.Acknowledge(old(Abs()), a, p)
      ensures nextIndex[a.from] == a.lastIndex + 1
    {
      hide LogQueue.Valid, LogQueue.Contents;
      nextIndex[a.from] := a.lastIndex + 1;
      matchIndex[a.from] := a.lastIndex;
      queue.CountExecution(node, p);
      commitIndex := UpdateCommitIndex(matchIndex, commitIndex);
    }
  }

  lemma ConflictStep(q: seq<Entry>, index: nat)
    ensures !Contains(q, index) ==> RemoveConflicts(q, index) == Intact(q) == Remove(q, index)
    ensures Contains(q, index) ==>
              match Remove(q, index)
              case Broken(harm) => RemoveConflicts(q, index) == Broken(harm)
              case Intact(rest) => RemoveConflicts(q, index) == RemoveConflicts(rest, index + 1) && |rest| < |q|
  {
  }

  lemma AcknowledgedRest(r: Replica, a: Ack, p: nat)
    requires a.from < |r.nextIndex| && a.from < |r.matchIndex| && p < |r.queue|
    ensures var q := Acknowledge(r, a, p).queue;
            |q| == |r.queue| && forall j | p < j < |q| :: q[j] == r.queue[j]
  {
  }

  lemma ThenAck(o: Outcome, acks: seq<Ack>)
    ensures Then(o, acks, []) ==
            if o.Fault? then o else Done(o.replica, o.replies, acks + o.acks, o.resent)
    ensures acks + [] == acks
  {
    if o.Done? {
      assert [] + o.resent == o.resent;
    }
  }

  lemma ThenResent(o: Outcome, resent: seq<Append>)
    ensures Then(o, [], resent) == if o.Fault? then o else o.(resent := resent + o.resent)
    ensures Then(o, [], []) == o && resent + [] == resent
  {
    if o.Done? {
      assert [] + o.acks == o.acks && [] + o.resent == o.resent;
    }
  }

  lemma NothingAdded(o: Outcome)
    ensures Answering([], o) == o
  {
    if o.Done? {
      assert [] + o.replies == o.replies;
    }
  }

  lemma AnsweringTwice(a: seq<Request>, b: seq<Request>, o: Outcome)
    ensures Answering(a, Answering(b, o)) == Answering(a + b, o)
  {
    if o.Done? {
      assert a + (b + o.replies) == a + b + o.replies;
    }
  }
}
