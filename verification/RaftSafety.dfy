/** What every run of the replicated log keeps. */
module RaftSafety {
  import opened RaftCommit
  import opened RaftReplica
  import opened RaftSystem
  import opened RaftInvariant

  /** Where a follower is with respect to the newest request. */
  datatype Mode =
    | Behind   // it has not been sent the entry
    | Busy     // the entry, or the response to it, is in a channel
    | Current  // the leader has its response

  function ModeOf(phase: Phase, i: nat): Mode {
    match phase
    case Idle => Current
    case Sending(to, _) => if i < to then Busy else Behind
    case Collecting(from) => if i < from then Current else Busy
  }

  /** Responses to the newest request that the leader has taken. */
  function Answers(phase: Phase, n: nat): nat {
    match phase
    case Idle => Less(n, 1, 0)
    case Sending(_, _) => 0
    case Collecting(from) => Less(from, 1, 0)
  }

  predicate First(r: Replica) {
    0 < |r.queue| && r.queue[0].index == 0
  }

  predicate FollowerInv(mode: Mode, n: nat, i: nat, r: Replica, down: seq<Append>, up: seq<Ack>,
                        requests: seq<Request>)
  {
    var k := |requests|;
    && First(r)
    && match mode
       case Current => r == FollowerAt(n, i, k, requests, r.queue[0]) && down == [] && up == []
       case Behind => 0 < k && r == FollowerAt(n, i, k - 1, requests, r.queue[0]) && down == [] && up == []
       case Busy =>
         && 0 < k
         && (|| (&& r == FollowerAt(n, i, k - 1, requests, r.queue[0])
                 && down == [Append(1, 0, k - 1, k - 1, requests[k - 1])] && up == [])
             || (&& r == FollowerAt(n, i, k, requests, r.queue[0])
                 && down == [] && up == [Ack(1, k, i, true, requests[k - 1].client)]))
  }

  predicate PhaseInv(phase: Phase, n: nat, requests: seq<Request>) {
    match phase
    case Idle => true
    case Sending(to, request) => requests != [] && request == requests[|requests| - 1] && 0 < to <= n
    case Collecting(from) => requests != [] && 0 < from <= n
  }

  predicate LeaderInv(phase: Phase, n: nat, r: Replica, requests: seq<Request>) {
    First(r) && r == LeaderAt(n, |requests|, Answers(phase, n), requests, r.queue[0])
  }

  predicate FollowersInv(s: State)
    requires |s.replicas| == |s.down| == |s.up|
  {
    forall i | 0 < i < |s.replicas| ::
      FollowerInv(ModeOf(s.phase, i), |s.replicas|, i, s.replicas[i], s.down[i], s.up[i], s.requests)
  }

  /** What the buffer holds when entry `k` commits: the response of follower `Needed(n)`. */
  function Committing(n: nat, k: nat, request: Request): Message {
    Response(Ack(1, k, Needed(n), true, request.client))
  }

  predicate RepliesInv(n: nat, replies: seq<Reply>, executed: seq<Request>) {
    && |replies| == |executed|
    && forall k | 0 <= k < |replies| :: replies[k] == Reply(executed[k], Committing(n, k + 1, executed[k]))
  }

  predicate Inv(s: State) {
    var n := |s.replicas|;
    && Shaped(s)
    && PhaseInv(s.phase, n, s.requests)
    && LeaderInv(s.phase, n, s.replicas[0], s.requests)
    && FollowersInv(s)
    && s.down[0] == [] && s.up[0] == []
    && RepliesInv(n, s.replies, s.replicas[0].executed)
  }

  lemma InitInv(s: State)
    requires Init(s)
    ensures Inv(s)
  {
    var n := |s.replicas|;
    var r := s.replicas[0];
    assert InitReplica(r, 0, n);
    assert r == LeaderAt(n, 0, Less(n, 1, 0), s.requests, r.queue[0]);
    forall i | 0 < i < n
      ensures FollowerInv(Current, n, i, s.replicas[i], s.down[i], s.up[i], s.requests)
    {
      assert InitReplica(s.replicas[i], i, n);
    }
  }

  // ----- one step -----

  lemma FollowerWaits(n: nat, i: nat, r: Replica, down: seq<Append>, up: seq<Ack>, requests: seq<Request>,
                      request: Request)
    requires FollowerInv(Current, n, i, r, down, up, requests)
    ensures FollowerInv(Behind, n, i, r, down, up, requests + [request])
  {
    hide QueueAt;
    var k := |requests|;
    var more := requests + [request];
    assert more[..k] == requests;
    SameQueue(r.queue[0], more, k, Less(k, 2, 1), 0, 0);
    assert more[..Less(k, 1, 0)] == requests[..Less(k, 1, 0)];
  }

  lemma ArriveKeeps(s: State, request: Request)
    requires Inv(s) && Enabled(s, Arrive(request))
    ensures Inv(Apply(s, Arrive(request)))
  {
    hide LeaderAt, FollowerAt, FollowerInv, AppendOwn, First, QueueAt;
    var n, k, r := |s.replicas|, |s.requests|, s.replicas[0];
    var s' := Apply(s, Arrive(request));
    assert s'.requests[..k] == s.requests;
    LeaderKept(n, k, s.requests, s'.requests, request, r);
    forall i | 0 < i < n
      ensures FollowerInv(Behind, n, i, s'.replicas[i], s'.down[i], s'.up[i], s'.requests)
    {
      FollowerWaits(n, i, s.replicas[i], s.down[i], s.up[i], s.requests, request);
    }
  }

  lemma LeaderKept(n: nat, k: nat, requests: seq<Request>, more: seq<Request>, request: Request, r: Replica)
    requires 0 < n && k == |requests| && more == requests + [request] && LeaderInv(Idle, n, r, requests)
    ensures LeaderInv(Sending(1, request), n, AppendOwn(r, request), more)
    ensures AppendOwn(r, request).executed == r.executed
  {
    assert more[..k] == requests;
    LeaderAppends(n, more, k, r.queue[0]);
  }

  lemma SendKeeps(s: State)
    requires Inv(s) && s.phase.Sending? && Enabled(s, Lead)
    ensures Inv(Apply(s, Lead))
  {
    hide LeaderAt, FollowerAt, QueueAt;
    var n, k, to := |s.replicas|, |s.requests|, s.phase.to;
    var s' := Apply(s, Lead);
    if to < n {
      LeaderSends(n, s.phase, s.replicas[0], s.requests);
      assert s'.down[to] == [Append(1, 0, k - 1, k - 1, s.requests[k - 1])];
    }
    forall i | 0 < i < n
      ensures FollowerInv(ModeOf(s'.phase, i), n, i, s'.replicas[i], s'.down[i], s'.up[i], s'.requests)
    {
      assert FollowerInv(ModeOf(s.phase, i), n, i, s.replicas[i], s.down[i], s.up[i], s.requests);
    }
  }

  lemma LeaderSends(n: nat, phase: Phase, r: Replica, requests: seq<Request>)
    requires 1 < n && phase.Sending? && PhaseInv(phase, n, requests) && LeaderInv(phase, n, r, requests)
    ensures r.lastLogIndex == |requests|
    ensures AppendMessage(r, phase.request)
         == Append(1, 0, |requests| - 1, |requests| - 1, requests[|requests| - 1])
  {
  }

  lemma CollectKeeps(s: State)
    requires Inv(s) && s.phase.Collecting? && Enabled(s, Lead)
    requires s.phase.from == Needed(|s.replicas|) ==> Safe(s.replicas[0].queue[0], |s.replicas|, |s.requests|)
    ensures Inv(Apply(s, Lead))
  {
    hide LeaderAt, FollowerAt, QueueAt, HandleAppendResponse, Committed;
    var n, k, from := |s.replicas|, |s.requests|, s.phase.from;
    var s' := Apply(s, Lead);
    if from < n {
      assert FollowerInv(Busy, n, from, s.replicas[from], s.down[from], s.up[from], s.requests);
      LeaderHears(n, k, from, s.requests, s.replicas[0]);
    }
    forall i | 0 < i < n
      ensures FollowerInv(ModeOf(s'.phase, i), n, i, s'.replicas[i], s'.down[i], s'.up[i], s'.requests)
    {
      assert FollowerInv(ModeOf(s.phase, i), n, i, s.replicas[i], s.down[i], s.up[i], s.requests);
    }
  }

  /** One response at the leader; the replies are exactly the requests it executes. */
  lemma LeaderHears(n: nat, k: nat, from: nat, requests: seq<Request>, r: Replica)
    requires 0 < k == |requests| && 0 < from < n
    requires LeaderInv(Collecting(from), n, r, requests) && (from == Needed(n) ==> Safe(r.queue[0], n, k))
    ensures var o := HandleAppendResponse(r, Ack(1, k, from, true, requests[k - 1].client));
            && o.Done? && o.acks == [] && o.resent == []
            && LeaderInv(Collecting(from + 1), n, o.replica, requests)
            && o.replica.executed == r.executed + o.replies
            && o.replica.queue[0] == r.queue[0]
            && (o.replies != [] ==> from == Needed(n) && o.replies == [requests[k - 1]] && |r.executed| == k - 1)
  {
    hide HandleAppendResponse, QueueAt, NextAt, Acked, Safe;
    LeaderAnswered(n, k, from, requests, r.queue[0], requests[k - 1].client);
    assert requests[..k] == requests[..k - 1] + [requests[k - 1]];
    FirstOf(r.queue[0], requests, LeaderLow(n, k, from), k, n, LastCount(n, from));
  }

  lemma FirstOf(blank: Entry, requests: seq<Request>, lo: nat, k: nat, full: nat, last: nat)
    requires 1 <= lo <= k + 1 <= |requests| + 1
    ensures var q := QueueAt(blank, requests, lo, k, full, last); q != [] && q[0] == blank
  {
  }

  lemma FollowKeeps(s: State, i: nat)
    requires Inv(s) && Enabled(s, Follow(i))
    ensures Inv(Apply(s, Follow(i)))
  {
    hide LeaderAt, FollowerAt, QueueAt, HandleAppend;
    var n, k := |s.replicas|, |s.requests|;
    var s' := Apply(s, Follow(i));
    assert FollowerInv(ModeOf(s.phase, i), n, i, s.replicas[i], s.down[i], s.up[i], s.requests);
    FollowerHears(n, i, s.requests, s.replicas[i]);
    forall j | 0 < j < n
      ensures FollowerInv(ModeOf(s'.phase, j), n, j, s'.replicas[j], s'.down[j], s'.up[j], s'.requests)
    {
      assert FollowerInv(ModeOf(s.phase, j), n, j, s.replicas[j], s.down[j], s.up[j], s.requests);
    }
  }

  lemma FollowerHears(n: nat, i: nat, requests: seq<Request>, r: Replica)
    requires 0 < i && requests != [] && First(r)
    requires r == FollowerAt(n, i, |requests| - 1, requests, r.queue[0])
    ensures var k := |requests|;
            var o := HandleAppend(r, Append(1, 0, k - 1, k - 1, requests[k - 1]));
            && o.Done? && o.replies == [] && o.resent == []
            && o.acks == [Ack(1, k, i, true, requests[k - 1].client)]
            && First(o.replica) && o.replica == FollowerAt(n, i, k, requests, o.replica.queue[0])
  {
    hide HandleAppend;
    FollowerTakes(n, i, |requests| - 1, requests, r.queue[0]);
  }

  lemma StepKeeps(s: State, s': State)
    requires Inv(s) && Next(s, s') && Safe(s.replicas[0].queue[0], |s.replicas|, |s.requests|)
    ensures Inv(s')
  {
    hide Inv;
    var a :| Enabled(s, a) && s' == Apply(s, a);
    match a
    case Arrive(request) => ArriveKeeps(s, request);
    case Lead =>
      if s.phase.Sending? {
        SendKeeps(s);
      } else {
        CollectKeeps(s);
      }
    case Poll(from) => QuietWhenIdle(s, from);
    case Follow(i) => FollowKeeps(s, i);
  }

  lemma QuietWhenIdle(s: State, from: nat)
    requires Inv(s) && s.phase.Idle? && from < |s.replicas|
    ensures s.up[from] == [] && s.down[from] == []
  {
    if 0 < from {
      assert FollowerInv(Current, |s.replicas|, from, s.replicas[from], s.down[from], s.up[from], s.requests);
    }
  }
}
