/** Agreement and execution at most once in every run, whatever ids the clients use. */
module OnePaxosSafety {
  import opened OnePaxos

  // ----- what a stream of requests amounts to -----

  /** A replica that has handled these requests in order. */
  function After(requests: seq<Request>, clients: nat): Replica {
    if requests == [] then Replica(0, seq(clients, _ => NONE), [])
    else
      var k := After(requests[..|requests| - 1], clients);
      Execute(k, requests[|requests| - 1]).(index := |requests|)
  }

  predicate Legal(requests: seq<Request>, clients: nat) {
    forall j | 0 <= j < |requests| :: requests[j].client < clients && requests[j].id < IDS
  }

  /** The request is newer than every earlier one of its client. */
  predicate IsRecord(requests: seq<Request>, k: nat)
    requires k < |requests|
  {
    forall j | 0 <= j < k && requests[j].client == requests[k].client :: requests[j].id < requests[k].id
  }

  /** The requests newer than every earlier one of their client. */
  function Records(requests: seq<Request>): seq<Request> {
    if requests == [] then []
    else
      Records(requests[..|requests| - 1])
      + if IsRecord(requests, |requests| - 1) then [requests[|requests| - 1]] else []
  }

  /** The id remembered for a client is the largest it has used. */
  ghost predicate IsLargest(requests: seq<Request>, c: nat, last: nat) {
    if last == NONE then forall j | 0 <= j < |requests| :: requests[j].client != c
    else
      && last < IDS
      && (exists j | 0 <= j < |requests| :: requests[j] == Request(c, last))
      && (forall j | 0 <= j < |requests| && requests[j].client == c :: requests[j].id <= last)
  }

  lemma {:induction false} AfterMeaning(requests: seq<Request>, clients: nat)
    requires Legal(requests, clients)
    ensures var k := After(requests, clients);
            && k.index == |requests| && |k.last| == clients && k.executed == Records(requests)
            && forall c | 0 <= c < clients :: IsLargest(requests, c, k.last[c])
  {
    if requests != [] {
      var n := |requests| - 1;
      var rest, r := requests[..n], requests[n];
      AfterMeaning(rest, clients);
      var k, k' := After(rest, clients), After(requests, clients);
      assert IsLargest(rest, r.client, k.last[r.client]);
      FreshIsRecord(requests, k.last);
      forall c | 0 <= c < clients
        ensures IsLargest(requests, c, k'.last[c])
      {
        assert IsLargest(rest, c, k.last[c]);
        LargestAfter(requests, c, k.last[c]);
      }
    }
  }

  lemma FreshIsRecord(requests: seq<Request>, last: seq<nat>)
    requires requests != [] && requests[|requests| - 1].client < |last| && requests[|requests| - 1].id < IDS
    requires var c := requests[|requests| - 1].client; IsLargest(requests[..|requests| - 1], c, last[c])
    ensures Fresh(last, requests[|requests| - 1]) <==> IsRecord(requests, |requests| - 1)
  {
    var n := |requests| - 1;
    var rest, r := requests[..n], requests[n];
    assert forall j | 0 <= j < n :: rest[j] == requests[j];
    if last[r.client] != NONE {
      var j :| 0 <= j < |rest| && rest[j] == Request(r.client, last[r.client]);
      assert requests[j].client == r.client;
    }
  }

  lemma LargestAfter(requests: seq<Request>, c: nat, last: nat)
    requires requests != [] && requests[|requests| - 1].id < IDS
    requires IsLargest(requests[..|requests| - 1], c, last)
    ensures var r := requests[|requests| - 1];
            IsLargest(requests, c, if r.client == c && (last == NONE || last < r.id) then r.id else last)
  {
    var n := |requests| - 1;
    var rest, r := requests[..n], requests[n];
    assert forall j | 0 <= j < n :: rest[j] == requests[j];
    if last != NONE {
      var j :| 0 <= j < |rest| && rest[j] == Request(c, last);
      assert requests[j] == Request(c, last);
    }
    assert requests[n] == Request(r.client, r.id);
  }

  /** Executed at most once: two executed requests of one client have increasing ids. */
  lemma {:induction false} RecordsIncrease(requests: seq<Request>, i: nat, j: nat)
    requires i < j < |Records(requests)| && Records(requests)[i].client == Records(requests)[j].client
    ensures Records(requests)[i].id < Records(requests)[j].id
  {
    var n := |requests| - 1;
    var rest := requests[..n];
    if j < |Records(rest)| {
      RecordsIncrease(rest, i, j);
    } else {
      RecordIsRequest(rest, i);
      var p :| 0 <= p < |rest| && rest[p] == Records(rest)[i];
      assert requests[p] == rest[p];
    }
  }

  lemma {:induction false} RecordIsRequest(requests: seq<Request>, i: nat)
    requires i < |Records(requests)|
    ensures exists p :: 0 <= p < |requests| && requests[p] == Records(requests)[i]
  {
    var n := |requests| - 1;
    var rest := requests[..n];
    if i < |Records(rest)| {
      RecordIsRequest(rest, i);
      var p :| 0 <= p < |rest| && rest[p] == Records(rest)[i];
      assert requests[p] == Records(requests)[i];
    } else {
      assert requests[n] == Records(requests)[i];
    }
  }

  // ----- invariant -----

  /** Requests whose learn messages have been sent to replica `i`. */
  function SentTo(s: State, i: nat): nat
    requires Shaped(s)
  {
    s.replicas[1].index + if s.pc.Broadcasting? && i < s.pc.i then 1 else 0
  }

  ghost predicate ReplicaInv(requests: seq<Request>, clients: nat, k: Replica) {
    k.index <= |requests| && k == After(requests[..k.index], clients)
  }

  ghost predicate LearnsInv(requests: seq<Request>, from: nat, until: nat, learns: seq<Learn>) {
    && |learns| == until - from && until <= |requests|
    && forall j | 0 <= j < |learns| :: learns[j] == Learn(requests[from + j], from + j)
  }

  ghost predicate AcceptorInv(s: State)
    requires Shaped(s)
  {
    var a := s.replicas[1].index;
    match s.pc
    case Receiving => a <= |s.requests| && s.toAcceptor == Tagged(Accepting, s.requests[a..])
    case Broadcasting(r, i) =>
      && a < |s.requests| && r == s.requests[a]
      && s.toAcceptor == Tagged(Accepting, s.requests[a + 1..]) && i <= |s.replicas|
  }

  /** A message with this tag for each of these requests. */
  function Tagged(tag: Tag, requests: seq<Request>): (messages: seq<Message>)
    ensures |messages| == |requests| && forall j | 0 <= j < |messages| :: messages[j] == Message(tag, requests[j])
  {
    seq(|requests|, j requires 0 <= j < |requests| => Message(tag, requests[j]))
  }

  ghost predicate LeaderInv(s: State)
    requires Shaped(s)
  {
    var l := s.replicas[0].index;
    && s.proposalIndex == |s.requests| && l <= |s.requests|
    && |s.queue| == |s.requests| - (if l == 0 then 0 else l - 1)
    && s.replies == Tagged(Response, s.replicas[0].executed) && BufferInv(s)
  }

  /** Every entry of the queue is the one buffer, and that holds what was received last. */
  ghost predicate BufferInv(s: State)
    requires Shaped(s)
  {
    && (forall j | 0 <= j < |s.queue| :: s.queue[j] == MESSAGE)
    && (s.heard == [] ==> s.requests == [])
    && (s.heard != [] ==>
          var h := s.heard[|s.heard| - 1];
          && s.buffers[MESSAGE].request == h.request
          && match h
             case Asked(r) => s.requests != [] && r == s.requests[|s.requests| - 1]
             case Learned(r) =>
               0 < s.replicas[0].index <= |s.requests| && r == s.requests[s.replicas[0].index - 1])
  }

  ghost predicate Inv(s: State, clients: nat) {
    && Shaped(s) && Legal(s.requests, clients) && AcceptorInv(s) && LeaderInv(s)
    && (forall i | 0 <= i < |s.replicas| :: ReplicaInv(s.requests, clients, s.replicas[i]))
    && (forall i | 0 <= i < |s.replicas| && i != 1 ::
          s.replicas[i].index <= SentTo(s, i)
          && LearnsInv(s.requests, s.replicas[i].index, SentTo(s, i), s.learns[i]))
  }

  lemma InitInv(s: State, clients: nat)
    requires Init(s, clients)
    ensures Inv(s, clients)
  {
  }

  /** Handling the next request of the sequence. */
  lemma NextRequest(requests: seq<Request>, clients: nat, k: Replica)
    requires ReplicaInv(requests, clients, k) && k.index < |requests| && Legal(requests, clients)
    ensures var k' := Execute(k, requests[k.index]).(index := k.index + 1);
            ReplicaInv(requests, clients, k')
  {
    assert requests[..k.index + 1][..k.index] == requests[..k.index];
    AfterIndex(requests[..k.index], clients);
  }

  lemma AfterIndex(requests: seq<Request>, clients: nat)
    requires Legal(requests, clients)
    ensures After(requests, clients).index == |requests| && |After(requests, clients).last| == clients
  {
    AfterMeaning(requests, clients);
  }

  lemma ArriveKeeps(s: State, clients: nat, r: Request)
    requires Inv(s, clients) && Enabled(s, Arrive(r))
    ensures Inv(Apply(s, Arrive(r)), clients)
  {
    hide After;
    var s' := Apply(s, Arrive(r));
    AfterIndex(s.requests[..s.replicas[0].index], clients);
    forall i | 0 <= i < |s.replicas|
      ensures ReplicaInv(s'.requests, clients, s'.replicas[i])
    {
      assert s'.requests[..s.replicas[i].index] == s.requests[..s.replicas[i].index];
    }
  }

  lemma LearnsNow(s: State, clients: nat, i: nat)
    requires Inv(s, clients) && i < |s.replicas|
    ensures Shaped(s) && ReplicaInv(s.requests, clients, s.replicas[i]) && Legal(s.requests, clients)
    ensures i != 1 ==> && s.replicas[i].index <= SentTo(s, i)
                       && LearnsInv(s.requests, s.replicas[i].index, SentTo(s, i), s.learns[i])
  {
  }

  lemma LearnsAccepted(s: State, clients: nat, a: Action, j: nat)
    requires Inv(s, clients) && Enabled(s, a) && (a.Accept? || a.Broadcast?) && j < |s.replicas| && j != 1
    ensures var s' := Apply(s, a);
            && s'.replicas[j].index <= SentTo(s', j)
            && LearnsInv(s'.requests, s'.replicas[j].index, SentTo(s', j), s'.learns[j])
  {
    hide Inv, After, Execute, Legal;
    LearnsNow(s, clients, j);
    AcceptorNow(s, clients);
  }

  lemma LearnsTaken(s: State, clients: nat, i: nat, j: nat)
    requires Inv(s, clients) && Enabled(s, Take(i)) && j < |s.replicas| && j != 1
    ensures var s' := Apply(s, Take(i));
            && s'.replicas[j].index <= SentTo(s', j)
            && LearnsInv(s'.requests, s'.replicas[j].index, SentTo(s', j), s'.learns[j])
  {
    hide Inv, After, Execute, Legal, Fresh, ReplicaInv;
    LearnsNow(s, clients, j);
    if i == j {
      Learned(s.replicas[i], s.learns[i][0]);
    }
  }

  lemma Learned(k: Replica, m: Learn)
    ensures HandleLearn(k, m).index == m.index + 1
  {
  }

  lemma AcceptorNow(s: State, clients: nat)
    requires Inv(s, clients)
    ensures Shaped(s) && AcceptorInv(s) && LeaderInv(s)
  {
  }

  lemma AcceptorStep(s: State, clients: nat, a: Action)
    requires Inv(s, clients) && Enabled(s, a) && (a.Accept? || a.Broadcast?)
    ensures var s' := Apply(s, a);
            AcceptorInv(s') && LeaderInv(s') && ReplicaInv(s'.requests, clients, s'.replicas[1])
  {
    hide *;
    if a.Accept? {
      AcceptStep(s, clients);
    } else {
      BroadcastStep(s, clients);
    }
  }

  lemma AcceptStep(s: State, clients: nat)
    requires Inv(s, clients) && Enabled(s, Accept)
    ensures var s' := Apply(s, Accept);
            Shaped(s') && AcceptorInv(s') && LeaderInv(s') && ReplicaInv(s'.requests, clients, s'.replicas[1])
  {
    hide Inv, After, Execute, Legal, LearnsInv, ReplicaInv;
    AcceptorNow(s, clients);
    LearnsNow(s, clients, 1);
  }

  lemma BroadcastStep(s: State, clients: nat)
    requires Inv(s, clients) && Enabled(s, Broadcast)
    ensures var s' := Apply(s, Broadcast);
            Shaped(s') && AcceptorInv(s') && LeaderInv(s') && ReplicaInv(s'.requests, clients, s'.replicas[1])
  {
    hide Inv, After, Execute, Legal, LearnsInv;
    AcceptorNow(s, clients);
    LearnsNow(s, clients, 1);
    NextRequest(s.requests, clients, s.replicas[1]);
  }

  lemma AcceptorKeeps(s: State, clients: nat, a: Action)
    requires Inv(s, clients) && Enabled(s, a) && (a.Accept? || a.Broadcast?)
    ensures Inv(Apply(s, a), clients)
  {
    hide LearnsInv, AcceptorInv, LeaderInv, ReplicaInv, Execute;
    var s' := Apply(s, a);
    AcceptorStep(s, clients, a);
    forall j | 0 <= j < |s.replicas| && j != 1
      ensures s'.replicas[j].index <= SentTo(s', j)
      ensures LearnsInv(s'.requests, s'.replicas[j].index, SentTo(s', j), s'.learns[j])
    {
      LearnsAccepted(s, clients, a, j);
    }
  }

  lemma TakeStep(s: State, clients: nat, i: nat)
    requires Inv(s, clients) && Enabled(s, Take(i))
    ensures var s' := Apply(s, Take(i));
            AcceptorInv(s') && LeaderInv(s') && ReplicaInv(s'.requests, clients, s'.replicas[i])
  {
    hide Inv, After, Legal, AcceptorInv, LeaderInv, BufferInv, Execute;
    AcceptorNow(s, clients);
    LearnsNow(s, clients, i);
    NextRequest(s.requests, clients, s.replicas[i]);
    if i == 0 {
      LeaderTakes(s, clients);
    } else {
      OtherTakes(s, clients, i);
    }
  }

  lemma LeaderTakes(s: State, clients: nat)
    requires Inv(s, clients) && Enabled(s, Take(0))
    ensures AcceptorInv(Apply(s, Take(0))) && LeaderInv(Apply(s, Take(0)))
  {
    LeaderLearned(s, clients);
    AcceptorUnmoved(s, clients);
  }

  lemma AcceptorUnmoved(s: State, clients: nat)
    requires Inv(s, clients) && Enabled(s, Take(0))
    ensures AcceptorInv(Apply(s, Take(0)))
  {
    hide Inv, After, Legal, ReplicaInv, LeaderInv, LearnsInv;
    AcceptorNow(s, clients);
  }

  lemma LeaderLearned(s: State, clients: nat)
    requires Inv(s, clients) && Enabled(s, Take(0))
    ensures LeaderInv(Apply(s, Take(0)))
  {
    hide Inv, After, Legal, ReplicaInv;
    AcceptorNow(s, clients);
    LearnsNow(s, clients, 0);
  }

  lemma OtherTakes(s: State, clients: nat, i: nat)
    requires Inv(s, clients) && Enabled(s, Take(i)) && i != 0
    ensures AcceptorInv(Apply(s, Take(i))) && LeaderInv(Apply(s, Take(i)))
  {
    hide Inv, After, Legal, ReplicaInv, LearnsInv;
    AcceptorNow(s, clients);
  }

  lemma TakeKeeps(s: State, clients: nat, i: nat)
    requires Inv(s, clients) && Enabled(s, Take(i))
    ensures Inv(Apply(s, Take(i)), clients)
  {
    hide LearnsInv, AcceptorInv, LeaderInv, ReplicaInv, Execute;
    var s' := Apply(s, Take(i));
    TakeStep(s, clients, i);
    forall j | 0 <= j < |s.replicas| && j != 1
      ensures s'.replicas[j].index <= SentTo(s', j)
      ensures LearnsInv(s'.requests, s'.replicas[j].index, SentTo(s', j), s'.learns[j])
    {
      LearnsTaken(s, clients, i, j);
    }
  }

  lemma StepKeeps(s: State, clients: nat, s': State)
    requires Inv(s, clients) && Next(s, s')
    ensures Inv(s', clients)
  {
    hide Inv, Apply;
    var a :| Enabled(s, a) && s' == Apply(s, a);
    match a
    case Arrive(r) => ArriveKeeps(s, clients, r);
    case Take(i) => TakeKeeps(s, clients, i);
    case _ => AcceptorKeeps(s, clients, a);
  }

  lemma {:induction false} RunKeeps(t: seq<State>, clients: nat, i: nat)
    requires Run(t, clients) && i < |t|
    ensures Inv(t[i], clients)
  {
    hide Inv, Next, Init;
    if i == 0 {
      assert Init(t[0], clients);
      InitInv(t[0], clients);
    } else {
      RunKeeps(t, clients, i - 1);
      StepKeeps(t[i - 1], clients, t[i]);
    }
  }

  /** A replica finds the next request it learns new exactly if it is newer than all earlier ones of its
    * client. */
  lemma NewIsRecord(s: State, clients: nat, i: nat)
    requires Inv(s, clients) && Enabled(s, Take(i))
    ensures var m := s.learns[i][0];
            && m.index < |s.requests| && m.request == s.requests[m.index]
            && (Fresh(s.replicas[i].last, m.request) <==> IsRecord(s.requests, m.index))
  {
    hide Inv, AcceptorInv, LeaderInv, Records, Execute;
    LearnsNow(s, clients, i);
    var l := s.replicas[i].index;
    var upto := s.requests[..l + 1];
    assert upto[..l] == s.requests[..l];
    AfterMeaning(s.requests[..l], clients);
    assert IsLargest(s.requests[..l], upto[l].client, s.replicas[i].last[upto[l].client]);
    FreshIsRecord(upto, s.replicas[i].last);
    assert forall j | 0 <= j <= l :: upto[j] == s.requests[j];
  }

  // ----- theorems -----

  /** Every replica has executed exactly the new requests among the first `index` ones. */
  lemma ExecutesRecords(t: seq<State>, clients: nat, i: nat, j: nat)
    requires Run(t, clients) && i < |t| && j < |t[i].replicas|
    ensures t[i].replicas[j].index <= |t[i].requests|
    ensures t[i].replicas[j].executed == Records(t[i].requests[..t[i].replicas[j].index])
  {
    hide Records, IsLargest;
    RunKeeps(t, clients, i);
    assert ReplicaInv(t[i].requests, clients, t[i].replicas[j]);
    AfterMeaning(t[i].requests[..t[i].replicas[j].index], clients);
  }

  lemma {:induction false} RecordsGrow(requests: seq<Request>, l: nat, m: nat)
    requires l <= m <= |requests|
    ensures Records(requests[..l]) <= Records(requests[..m])
    decreases m
  {
    if l < m {
      RecordsGrow(requests, l, m - 1);
      assert requests[..m][..m - 1] == requests[..m - 1];
    }
  }

  /** Agreement: of any two replicas, one has executed a prefix of what the other has. */
  lemma Agreement(t: seq<State>, clients: nat, i: nat, j: nat, k: nat)
    requires Run(t, clients) && i < |t| && j < |t[i].replicas| && k < |t[i].replicas|
    ensures t[i].replicas[j].index <= t[i].replicas[k].index ==>
              t[i].replicas[j].executed <= t[i].replicas[k].executed
  {
    hide Records;
    ExecutesRecords(t, clients, i, j);
    ExecutesRecords(t, clients, i, k);
    if t[i].replicas[j].index <= t[i].replicas[k].index {
      RecordsGrow(t[i].requests, t[i].replicas[j].index, t[i].replicas[k].index);
    }
  }

  /** At most once: the ids a replica executes for one client strictly increase. */
  lemma ExecutedIdsIncrease(t: seq<State>, clients: nat, i: nat, j: nat, a: nat, b: nat)
    requires Run(t, clients) && i < |t| && j < |t[i].replicas| && a < b < |t[i].replicas[j].executed|
    ensures t[i].replicas[j].executed[a].client == t[i].replicas[j].executed[b].client ==>
              t[i].replicas[j].executed[a].id < t[i].replicas[j].executed[b].id
  {
    hide Records;
    ExecutesRecords(t, clients, i, j);
    var requests := t[i].requests[..t[i].replicas[j].index];
    if Records(requests)[a].client == Records(requests)[b].client {
      RecordsIncrease(requests, a, b);
    }
  }

  /** The leader's queue has an entry for every request not yet learned, and at most one more; it answers each
    * executed request once, in order. */
  lemma LeaderKeepsOpenRequests(t: seq<State>, clients: nat, i: nat)
    requires Run(t, clients) && i < |t|
    ensures var s := t[i];
            && 2 <= |s.replicas| && s.replicas[0].index <= |s.requests| == s.proposalIndex
            && s.proposalIndex - s.replicas[0].index <= |s.queue| <= s.proposalIndex - s.replicas[0].index + 1
            && |s.replies| == |s.replicas[0].executed|
            && forall j | 0 <= j < |s.replies| :: s.replies[j] == Message(Response, s.replicas[0].executed[j])
  {
    hide After;
    RunKeeps(t, clients, i);
  }

  predicate IsOpen(s: State, n: nat) {
    0 < |s.replicas| && s.replicas[0].index <= n < |s.requests|
  }

  /** The entry queued for open request `n`, counted from the end of the queue, still points to it. */
  predicate EntryHolds(s: State, n: nat) {
    var j := |s.queue| - (|s.requests| - n);
    0 <= j < |s.queue| && s.queue[j] < |s.buffers| && s.buffers[s.queue[j]].request == s.requests[n]
  }

  /** All entries are the address of the buffer the leader receives into: an entry holds its request exactly if
    * the message received last, whatever it was, carried that very request. */
  lemma EntryContents(t: seq<State>, clients: nat, i: nat, n: nat)
    requires Run(t, clients) && i < |t| && IsOpen(t[i], n)
    ensures var s := t[i];
            s.heard != [] && (EntryHolds(s, n) <==> s.heard[|s.heard| - 1].request == s.requests[n])
  {
    hide After, AcceptorInv, ReplicaInv, LearnsInv;
    RunKeeps(t, clients, i);
  }

  predicate Distinct(requests: seq<Request>) {
    forall j, k | 0 <= j < k < |requests| :: requests[j] != requests[k]
  }

  /** If no request is repeated, that is the newest request alone, and only until anything is received. */
  lemma OnlyNewestIsHeld(t: seq<State>, clients: nat, i: nat, n: nat)
    requires Run(t, clients) && i < |t| && IsOpen(t[i], n) && Distinct(t[i].requests)
    ensures var s := t[i];
            EntryHolds(s, n) <==>
            n == |s.requests| - 1 && s.heard != [] && s.heard[|s.heard| - 1] == Asked(s.requests[n])
  {
    hide After, AcceptorInv, ReplicaInv, LearnsInv;
    RunKeeps(t, clients, i);
    EntryContents(t, clients, i, n);
  }

  /** Two requests in a row, and the first entry already holds the second one. */
  lemma FirstEntryIsLost(start: State, clients: nat, a: Request, b: Request) returns (t: seq<State>)
    requires Init(start, clients) && a != b
    requires a.client < clients && b.client < clients && a.id < IDS && b.id < IDS
    ensures Run(t, clients) && IsOpen(t[|t| - 1], 0) && IsOpen(t[|t| - 1], 1)
    ensures !EntryHolds(t[|t| - 1], 0) && EntryHolds(t[|t| - 1], 1)
  {
    var s1 := Apply(start, Arrive(a));
    var s2 := Apply(s1, Arrive(b));
    assert Next(start, s1) && Next(s1, s2);
    t := [start, s1, s2];
  }

  /** No learner is ahead of the acceptor by more than the request it is broadcasting. */
  lemma AcceptorLeads(t: seq<State>, clients: nat, i: nat, j: nat)
    requires Run(t, clients) && i < |t| && j < |t[i].replicas| && j != 1
    ensures 2 <= |t[i].replicas| == |t[i].learns|
    ensures t[i].replicas[j].index + |t[i].learns[j]|
         == t[i].replicas[1].index + if t[i].pc.Broadcasting? && j < t[i].pc.i then 1 else 0
  {
    hide After;
    RunKeeps(t, clients, i);
  }
}
