/** What holds in every run of the replicated log, for every number of replicas. */
module RaftTheorems {
  import opened RaftCommit
  import opened RaftReplica
  import opened RaftSystem
  import opened RaftInvariant
  import opened RaftSafety

  /** The uninitialised execution count of the leader's first entry is not the number of replicas. */
  predicate LuckyCount(s: State) {
    && 0 < |s.replicas| && 0 < |s.replicas[0].queue|
    && s.replicas[0].queue[0].execCount != |s.replicas|
  }

  ghost predicate LegalRun(t: seq<State>) {
    Run(t) && LuckyCount(t[0])
  }

  // ----- the invariant over runs -----

  lemma FirstStays(s: State, s': State)
    requires Inv(s) && Next(s, s') && Inv(s')
    requires s.phase.Collecting? && s.phase.from == Needed(|s.replicas|) ==>
               Safe(s.replicas[0].queue[0], |s.replicas|, |s.requests|)
    ensures |s'.replicas| == |s.replicas| && s'.replicas[0].queue[0] == s.replicas[0].queue[0]
  {
    hide FollowersInv, HandleAppend, HandleAppendResponse, LeaderAt;
    var a :| Enabled(s, a) && s' == Apply(s, a);
    match a
    case Arrive(request) =>
    case Lead =>
      if s.phase.Collecting? && s.phase.from < |s.replicas| {
        var n, from := |s.replicas|, s.phase.from;
        assert FollowerInv(Busy, n, from, s.replicas[from], s.down[from], s.up[from], s.requests) by {
          assert FollowersInv(s);
          FollowerNow(s, from);
        }
        LeaderHears(n, |s.requests|, from, s.requests, s.replicas[0]);
      }
    case Poll(from) => QuietWhenIdle(s, from);
    case Follow(i) =>
  }

  lemma FollowerNow(s: State, i: nat)
    requires Inv(s) && 0 < i < |s.replicas|
    ensures FollowerInv(ModeOf(s.phase, i), |s.replicas|, i, s.replicas[i], s.down[i], s.up[i], s.requests)
  {
  }

  lemma {:induction false} RunKeeps(t: seq<State>, i: nat)
    requires LegalRun(t) && i < |t|
    ensures Inv(t[i]) && LuckyCount(t[i])
  {
    hide Inv, Next, Init;
    if i == 0 {
      InitInv(t[0]);
    } else {
      RunKeeps(t, i - 1);
      StepKeeps(t[i - 1], t[i]);
      FirstStays(t[i - 1], t[i]);
      Lucky(t[i]);
    }
  }

  lemma Lucky(s: State)
    requires Inv(s)
    ensures 0 < |s.replicas| && 0 < |s.replicas[0].queue|
  {
  }

  // ----- theorems -----

  /** No handler goes wrong, no append is ever rejected, and nothing is left in a channel between requests, so
    * the leader's receive loop never sees a stray response. */
  lemma NothingRejected(t: seq<State>, i: nat)
    requires LegalRun(t) && i < |t|
    ensures t[i].fault.None?
    ensures forall j, a | 0 <= j < |t[i].up| && a in t[i].up[j] :: a.success
    ensures t[i].phase.Idle? ==> forall j | 0 <= j < |t[i].up| == |t[i].down| :: t[i].up[j] == [] && t[i].down[j] == []
  {
    RunKeeps(t, i);
    var s := t[i];
    forall j: nat, a | j < |s.up| && a in s.up[j]
      ensures a.success
    {
      if 0 < j {
        FollowerNow(s, j);
      }
    }
    forall j: nat | j < |s.up| && s.phase.Idle?
      ensures s.up[j] == [] && s.down[j] == []
    {
      QuietWhenIdle(s, j);
    }
  }

  /** Every replica holds its newest entries behind the first one, each at the place of its request, and
    * trimming keeps all it will look up again: the last one it applied, and everything after that. */
  predicate LogMatches(r: Replica, requests: seq<Request>) {
    && First(r)
    && r.lastApplied == r.commitIndex <= r.lastLogIndex <= |requests|
    && |r.queue| - 1 <= r.lastLogIndex
    && (forall j | 0 < j < |r.queue| ::
          var x := r.lastLogIndex + 1 + j - |r.queue|;
          r.queue[j].index == x && r.queue[j].term == 1 && r.queue[j].request == requests[x - 1])
    && (forall x | 0 < x <= r.lastLogIndex && r.lastApplied <= x :: Contains(r.queue, x))
  }

  lemma MatchAt(r: Replica, requests: seq<Request>, lo: nat, full: nat, last: nat)
    requires First(r) && 1 <= lo <= r.lastLogIndex + 1 && r.lastLogIndex <= |requests|
    requires r.lastApplied == r.commitIndex <= r.lastLogIndex && (0 < r.lastApplied ==> lo <= r.lastApplied)
    requires r.lastApplied == 0 ==> lo == 1
    requires r.queue == QueueAt(r.queue[0], requests, lo, r.lastLogIndex, full, last)
    ensures LogMatches(r, requests) && |r.queue| == r.lastLogIndex + 2 - lo
  {
    forall x | 0 < x <= r.lastLogIndex && r.lastApplied <= x
      ensures Contains(r.queue, x)
    {
      FindInQueue(r.queue[0], requests, lo, r.lastLogIndex, full, last, x);
    }
  }

  lemma LogMatching(t: seq<State>, i: nat, j: nat)
    requires LegalRun(t) && i < |t| && j < |t[i].replicas|
    ensures LogMatches(t[i].replicas[j], t[i].requests)
    ensures |t[i].replicas| > 1 ==> |t[i].replicas[j].queue| <= 4
  {
    hide QueueAt;
    RunKeeps(t, i);
    var s := t[i];
    var n, k, r := |s.replicas|, |s.requests|, s.replicas[j];
    if j == 0 {
      var m := Answers(s.phase, n);
      MatchAt(r, s.requests, LeaderLow(n, k, m), if n <= 1 then 0 else n, LastCount(n, m));
    } else {
      FollowerNow(s, j);
      MatchAt(r, s.requests, Less(r.lastLogIndex, 2, 1), 0, 0);
    }
  }

  /** Every replica executes the requests in the order the leader took them, each once; no follower is ahead
    * of the leader, and none lags more than two requests behind it. */
  lemma ExecutionOrder(t: seq<State>, i: nat, j: nat)
    requires LegalRun(t) && i < |t| && j < |t[i].replicas|
    ensures var s := t[i];
            && s.replicas[j].executed <= s.replicas[0].executed <= s.requests
            && |s.replicas[j].executed| == s.replicas[j].lastApplied
            && (|s.replicas| > 1 ==> |s.replicas[0].executed| <= |s.replicas[j].executed| + 2)
  {
    hide QueueAt;
    RunKeeps(t, i);
    if 0 < j {
      FollowerNow(t[i], j);
    }
  }

  /** One reply per request, in order, when the leader executes it, and carrying the response that committed
    * it: with two replicas or more, everything is answered by the time the next request is taken; a single
    * replica never answers anything. */
  lemma Replies(t: seq<State>, i: nat)
    requires LegalRun(t) && i < |t|
    ensures t[i].replicas != [] && |t[i].replies| == |t[i].replicas[0].executed| <= |t[i].requests|
    ensures forall k | 0 <= k < |t[i].replies| ::
              t[i].replies[k] == Reply(t[i].requests[k], Committing(|t[i].replicas|, k + 1, t[i].requests[k]))
    ensures |t[i].replicas| > 1 ==> |t[i].requests| <= |t[i].replies| + 1
    ensures |t[i].replicas| > 1 && t[i].phase.Idle? ==> |t[i].replies| == |t[i].requests|
    ensures |t[i].replicas| == 1 ==> t[i].replies == []
  {
    hide QueueAt, FollowersInv;
    RunKeeps(t, i);
  }

  /** The handler never waits for something that cannot come: either the leader can go on, or the follower it
    * waits for has the entry to take. */
  lemma NeverStuck(t: seq<State>, i: nat)
    requires LegalRun(t) && i < |t| && !t[i].phase.Idle?
    ensures Enabled(t[i], Lead) || (t[i].phase.Collecting? && Enabled(t[i], Follow(t[i].phase.from)))
  {
    hide QueueAt;
    RunKeeps(t, i);
    if t[i].phase.Collecting? && t[i].phase.from < |t[i].replicas| {
      FollowerNow(t[i], t[i].phase.from);
    }
  }

  // ----- how many replicas hold a committed entry -----

  /** Replicas among the first `m` whose log reaches entry `x`. */
  function Holders(replicas: seq<Replica>, x: nat, m: nat): (c: nat)
    requires m <= |replicas|
    ensures c <= m
  {
    if m == 0 then 0 else Holders(replicas, x, m - 1) + if x <= replicas[m - 1].lastLogIndex then 1 else 0
  }

  function AllHolders(s: State, x: nat): nat {
    Holders(s.replicas, x, |s.replicas|)
  }

  lemma {:induction false} HoldersAtLeast(replicas: seq<Replica>, x: nat, h: nat, m: nat)
    requires h <= m <= |replicas| && forall j | 0 <= j < h :: x <= replicas[j].lastLogIndex
    ensures h <= Holders(replicas, x, m)
    decreases m
  {
    if h < m {
      HoldersAtLeast(replicas, x, h, m - 1);
    } else if 0 < m {
      HoldersAtLeast(replicas, x, h - 1, m - 1);
    }
  }

  /** The leader and the followers whose responses it counted hold the entry, in this and every later state. */
  lemma CommittedIsHeld(t: seq<State>, i: nat, x: nat)
    requires LegalRun(t) && i < |t| && t[i].replicas != [] && 0 < x <= t[i].replicas[0].commitIndex
    ensures FewestHolders(|t[i].replicas|) <= AllHolders(t[i], x)
  {
    hide QueueAt;
    RunKeeps(t, i);
    var s := t[i];
    var h := FewestHolders(|s.replicas|);
    forall j | 0 <= j < h
      ensures x <= s.replicas[j].lastLogIndex
    {
      if 0 < j {
        FollowerNow(s, j);
      }
    }
    HoldersAtLeast(s.replicas, x, h, |s.replicas|);
  }
}
