/** What the handlers of a replica do in any state at all, also in those that runs with a fixed leader never
  * reach: terms, rejections, and what is sent again. */
module RaftHandlers {
  import opened RaftCommit
  import opened RaftReplica
  import opened Wrappers

  function Max(a: nat, b: nat): nat {
    if a < b then b else a
  }

  /** Applying catches up with the commit index, and answers each entry applied if the replica leads; nothing
    * else of the replica changes but its queue. */
  lemma {:induction false} CatchesUp(r: Replica)
    requires ApplyEntries(r).Done?
    ensures var o := ApplyEntries(r);
            && o.acks == [] && o.resent == []
            && o.replica.lastApplied == Max(r.lastApplied, r.commitIndex)
            && o.replica == r.(lastApplied := o.replica.lastApplied, queue := o.replica.queue,
                               executed := o.replica.executed)
            && r.executed <= o.replica.executed
            && |o.replica.executed| - |r.executed| == o.replica.lastApplied - r.lastApplied
            && o.replies == (if r.id == r.leader then o.replica.executed[|r.executed|..] else [])
    decreases r.commitIndex - r.lastApplied
  {
    hide Cleanup, Remove, Find;
    if r.lastApplied < r.commitIndex {
      OneApplied(r);
      hide ApplyNext;
      var next := ApplyNext(r);
      CatchesUp(next.replica);
    }
  }

  lemma OneApplied(r: Replica)
    requires ApplyNext(r).Applied?
    ensures var o := ApplyNext(r);
            && o.replica == r.(lastApplied := r.lastApplied + 1, queue := o.replica.queue,
                               executed := o.replica.executed)
            && (exists request :: o.replica.executed == r.executed + [request]
                                  && o.replies == (if r.id == r.leader then [request] else []))
  {
    hide Cleanup, Remove, Find;
  }

  predicate HasEntry(q: seq<Entry>, index: nat) {
    exists j :: 0 <= j < |q| && q[j].index == index
  }

  lemma HasIsContains(q: seq<Entry>, index: nat)
    ensures Contains(q, index) <==> HasEntry(q, index)
  {
    if Contains(q, index) {
      assert q[Find(q, index)].index == index;
    }
  }

  /** A replica that is not the sender adopts a newer term, and answers once, with its own term and id. It
    * accepts exactly if the term is not older and it has the entry before; a rejection leaves its log, its
    * commit index and what it executed alone. A newer commit index is adopted up to the entry taken, even if
    * that is behind the replica's own. */
  lemma AnswersAppend(r: Replica, m: Append)
    requires HandleAppend(r, m).Done? && r.id != m.leader
    ensures var o := HandleAppend(r, m);
            && o.replica.term == Max(r.term, m.term) && o.replica.id == r.id
            && o.replica.leader == (if r.term < m.term then m.leader else r.leader)
            && |o.acks| == 1 && o.resent == []
            && o.acks[0].term == o.replica.term && o.acks[0].from == r.id && o.acks[0].client == m.request.client
            && (o.acks[0].success <==> r.term <= m.term && HasEntry(r.queue, m.prev))
            && (o.acks[0].success ==> o.acks[0].lastIndex == m.prev + 1 == o.replica.lastLogIndex)
            && (o.acks[0].success && m.commit <= r.commitIndex ==> o.replica.commitIndex == r.commitIndex)
            && (o.acks[0].success && r.commitIndex < m.commit ==>
                  o.replica.commitIndex == AtMost(m.commit, m.prev + 1))
            && (!o.acks[0].success ==> o.acks[0].lastIndex == m.prev && o.replies == [])
            && (!o.acks[0].success ==> o.replica == r.(term := o.replica.term, leader := o.replica.leader))
  {
    hide ApplyEntries, RemoveConflicts, Find;
    HasIsContains(r.queue, m.prev);
    var r1 := UpdateState(r, m.term, m.leader);
    if r1.term <= m.term && Contains(r.queue, m.prev) {
      CatchesUp(Accept(r1, m, RemoveConflicts(r1.queue, m.prev + 1).queue));
    }
  }

  function AtMost(a: nat, b: nat): nat {
    if a < b then a else b
  }

  /** A replica that gets an entry of its own only catches up. */
  lemma OwnAppend(r: Replica, m: Append)
    requires HandleAppend(r, m).Done? && r.id == m.leader
    ensures var o := HandleAppend(r, m);
            && o.acks == [] && o.resent == [] && o.replica.term == Max(r.term, m.term)
            && o.replica.commitIndex == r.commitIndex && o.replica.lastLogIndex == r.lastLogIndex
            && o.replica.lastApplied == Max(r.lastApplied, r.commitIndex)
  {
    CatchesUp(UpdateState(r, m.term, m.leader));
  }

  /** A successful response is recorded; if the log goes on behind the entry acknowledged, the one entry after
    * it is sent again, as the next one for that follower. A stale rejection does nothing but adopt its term;
    * any other rejection fails an assert. */
  lemma AnswersResponse(r: Replica, a: Ack)
    requires HandleAppendResponse(r, a).Done?
    ensures var o := HandleAppendResponse(r, a);
            && a.from < |r.matchIndex| && a.from < |r.nextIndex| && o.acks == []
            && o.replica.term == Max(r.term, a.term) && o.replica.leader == r.leader
            && (a.success ==> o.replica.matchIndex == r.matchIndex[a.from := a.lastIndex]
                              && o.replica.nextIndex == r.nextIndex[a.from := a.lastIndex + 1])
            && (a.success ==> o.replica.commitIndex == CommitIndex(o.replica.matchIndex, r.commitIndex))
            && (!a.success ==> a.lastIndex < r.matchIndex[a.from] && o.replies == [] && o.resent == []
                               && o.replica == r.(term := o.replica.term))
            && |o.resent| == (if a.success && a.lastIndex < r.lastLogIndex then 1 else 0)
  {
    hide ApplyEntries, Find, CommitIndex;
    var r1 := UpdateState(r, a.term, r.leader);
    if a.success {
      CatchesUp(Acknowledge(r1, a, Find(r1.queue, a.lastIndex)));
    }
  }

  lemma RejectionsAssert(r: Replica, a: Ack)
    requires !a.success && a.from < |r.matchIndex| && a.from < |r.nextIndex|
    ensures HandleAppendResponse(r, a) == Fault(AssertFails) <==> r.matchIndex[a.from] <= a.lastIndex
  {
  }

  /** What is sent again is the entry behind the one acknowledged, as the next entry. Its payload is right; its
    * client is the one of the entry acknowledged, which is right exactly if both entries are of one client. */
  lemma ResendFits(r: Replica, a: Ack, p: nat)
    requires HandleAppendResponse(r, a).Done? && a.success && a.lastIndex < r.lastLogIndex
    requires p + 1 < |r.queue| && r.queue[p].index == a.lastIndex
    requires forall j | 0 <= j < p :: r.queue[j].index != a.lastIndex
    ensures var o := HandleAppendResponse(r, a);
            && |o.resent| == 1 && o.resent[0].prev == a.lastIndex
            && o.resent[0].term == o.replica.term && o.resent[0].leader == r.id
            && o.resent[0].commit == o.replica.commitIndex
            && o.resent[0].request.payload == r.queue[p + 1].request.payload
            && (o.resent[0].request == r.queue[p + 1].request <==> a.client == r.queue[p + 1].request.client)
  {
    hide ApplyEntries, Find, CommitIndex;
    FindIs(r.queue, a.lastIndex, p);
    var r1 := UpdateState(r, a.term, r.leader);
    CatchesUp(Acknowledge(r1, a, p));
  }
}
