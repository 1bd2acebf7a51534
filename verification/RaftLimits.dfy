/** The exact conditions under which committed entries are on a majority and no handler faults. */
module RaftLimits {
  import opened RaftCommit
  import opened RaftReplica
  import opened RaftSystem
  import opened RaftInvariant
  import opened RaftSafety
  import opened RaftTheorems
  import opened Wrappers

  ghost predicate Reachable(first: State, s: State) {
    exists t :: Run(t) && t[0] == first && t[|t| - 1] == s
  }

  lemma ReachStep(first: State, s: State, a: Action)
    requires Reachable(first, s) && Enabled(s, a)
    ensures Reachable(first, Apply(s, a))
  {
    hide Init, Enabled, Apply;
    var t :| Run(t) && t[0] == first && t[|t| - 1] == s;
    var t' := t + [Apply(s, a)];
    assert Next(t'[|t'| - 2], t'[|t'| - 1]);
    assert Run(t');
  }

  /** `n` replicas set up, with execution count `g` in every first entry. */
  function Fresh(n: nat, g: nat): (s: State)
    requires 0 < n
    ensures Init(s) && |s.replicas| == n && s.replicas[0].queue[0].execCount == g
  {
    State(seq(n, i requires 0 <= i < n =>
                Replica(i, 1, 0, 0, 0, 0, [Entry(0, 1, Request(0, 0), g)], seq(n, _ => 2), seq(n, _ => 0), [])),
          seq(n, _ => []), seq(n, _ => []), Idle, Response(Ack(0, 0, 0, false, 0)), [], [], None)
  }

  /** Followers `from` and up have been sent the newest entry and not looked at it yet. */
  predicate Unread(s: State, from: nat) {
    && |s.replicas| == |s.down|
    && (forall j | from <= j < |s.replicas| :: s.replicas[j].lastLogIndex + 1 == |s.requests|)
  }

  lemma {:induction false} SendAll(first: State, s: State) returns (s': State)
    requires Reachable(first, s) && Inv(s) && s.phase.Sending? && Unread(s, 1)
    ensures Reachable(first, s') && Inv(s') && s'.phase == Collecting(1) && Unread(s', 1)
    ensures s'.replicas == s.replicas && s'.requests == s.requests
    decreases |s.replicas| - s.phase.to
  {
    hide Inv, FollowerInv, AppendMessage;
    SendReady(s);
    ReachStep(first, s, Lead);
    SendKeeps(s);
    s' := Apply(s, Lead);
    if s.phase.to < |s.replicas| {
      s' := SendAll(first, s');
    }
  }

  lemma SendReady(s: State)
    requires Inv(s) && s.phase.Sending?
    ensures Enabled(s, Lead) && s.phase.to <= |s.replicas|
  {
    hide QueueAt, FollowersInv;
  }

  /** The leader waits for follower `from` and those after it, none of which has looked at the entry. */
  ghost predicate Waiting(first: State, s: State, n: nat, requests: seq<Request>, blank: Entry, from: nat) {
    && Reachable(first, s) && Inv(s) && s.phase == Collecting(from) && Unread(s, from)
    && |s.replicas| == n && s.requests == requests
    && 0 < n && s.replicas[0].queue != [] && s.replicas[0].queue[0] == blank
  }

  /** Follower `from` takes its entry, and the leader its response. */
  lemma Exchange(first: State, s: State, n: nat, requests: seq<Request>, blank: Entry, from: nat) returns (s': State)
    requires Waiting(first, s, n, requests, blank, from) && from < n
    requires from == Needed(n) ==> Safe(blank, n, |requests|)
    ensures Waiting(first, s', n, requests, blank, from + 1)
  {
    hide Inv, FollowerInv, HandleAppend, HandleAppendResponse, Safe;
    var s1 := HearOne(first, s);
    CollectKeeps(s1);
    ReachStep(first, s1, Lead);
    s' := Apply(s1, Lead);
    assert Next(s1, s');
    FirstStays(s1, s');
    CollectFrame(s1, s');
    Lucky(s');
  }

  lemma CollectFrame(s: State, s': State)
    requires Inv(s) && s.phase.Collecting? && s.phase.from < |s.replicas| && Enabled(s, Lead) && s' == Apply(s, Lead)
    requires Inv(s')
    ensures s'.phase == Collecting(s.phase.from + 1) && s'.requests == s.requests
    ensures |s'.replicas| == |s.replicas| && forall j | 0 < j < |s.replicas| :: s'.replicas[j] == s.replicas[j]
  {
    hide HandleAppendResponse, FollowersInv, LeaderInv;
  }

  /** Follower `from` takes its entry; the leader can go on. */
  lemma HearOne(first: State, s: State) returns (s': State)
    requires Reachable(first, s) && Inv(s) && s.phase.Collecting? && s.phase.from < |s.replicas|
    requires Unread(s, s.phase.from)
    ensures Reachable(first, s') && Inv(s') && s'.phase == s.phase && s'.requests == s.requests
    ensures |s'.replicas| == |s.replicas| && s'.replicas[0] == s.replicas[0]
    ensures Unread(s', s.phase.from + 1) && Enabled(s', Lead)
  {
    hide Inv;
    var from := s.phase.from;
    FollowerReady(s, from);
    ReachStep(first, s, Follow(from));
    FollowKeeps(s, from);
    s' := Apply(s, Follow(from));
  }

  /** A follower with the newest entry unread can take it, and then the leader its answer. */
  lemma FollowerReady(s: State, i: nat)
    requires Inv(s) && s.phase == Collecting(i) && i < |s.replicas| && Unread(s, i)
    ensures Enabled(s, Follow(i))
    ensures var s' := Apply(s, Follow(i));
            && s'.phase == s.phase && s'.requests == s.requests && |s'.replicas| == |s.replicas| == |s'.down|
            && s'.replicas == s.replicas[i := s'.replicas[i]] && Enabled(s', Lead) && 0 < i
  {
    hide HandleAppend, LeaderInv, QueueAt;
    FollowerNow(s, i);
    FollowerHears(|s.replicas|, i, s.requests, s.replicas[i]);
  }

  /** Let the followers before `to` answer. */
  lemma {:induction false} Answer(first: State, s: State, n: nat, requests: seq<Request>, blank: Entry,
                                  from: nat, upto: nat)
    returns (s': State)
    requires Waiting(first, s, n, requests, blank, from) && from <= upto <= n
    requires upto > Needed(n) ==> Safe(blank, n, |requests|)
    ensures Waiting(first, s', n, requests, blank, upto)
    decreases upto - from
  {
    hide Waiting, Safe;
    s' := s;
    if from < upto {
      s' := Exchange(first, s, n, requests, blank, from);
      s' := Answer(first, s', n, requests, blank, from + 1, upto);
    }
  }

  lemma Ask(first: State, s: State, n: nat, request: Request, blank: Entry) returns (s': State)
    requires Reachable(first, s) && Inv(s) && s.phase.Idle?
    requires 0 < n == |s.replicas| && s.replicas[0].queue != [] && s.replicas[0].queue[0] == blank
    ensures Waiting(first, s', n, s.requests + [request], blank, 1)
  {
    hide QueueAt, LeaderAt;
    ReachStep(first, s, Arrive(request));
    ArriveKeeps(s, request);
    s' := Apply(s, Arrive(request));
    forall j | 1 <= j < |s'.replicas|
      ensures s'.replicas[j].lastLogIndex + 1 == |s'.requests|
    {
      FollowerNow(s, j);
    }
    s' := SendAll(first, s');
  }

  /** The earliest moment the leader has committed, and answered, its first request. */
  lemma EarlyCommit(n: nat, g: nat, request: Request) returns (s: State)
    requires 2 <= n && g != n
    ensures Reachable(Fresh(n, g), s) && Inv(s) && |s.replicas| == n
    ensures s.phase == Collecting(Needed(n) + 1) && s.requests == [request] && Unread(s, Needed(n) + 1)
  {
    hide Inv, Unread, Fresh, Init;
    var first := Fresh(n, g);
    InitInv(first);
    InitReachable(first);
    InitIdle(first);
    var blank := first.replicas[0].queue[0];
    s := Ask(first, first, n, request, blank);
    s := Answer(first, s, n, [request], blank, 1, Needed(n) + 1);
  }

  lemma InitReachable(s: State)
    requires Init(s)
    ensures Reachable(s, s)
  {
    assert Run([s]);
    assert [s][|[s]| - 1] == s;
  }

  lemma InitIdle(s: State)
    requires Init(s)
    ensures s.phase.Idle? && s.requests == [] && s.replicas != [] && s.replicas[0].queue != []
  {
    assert InitReplica(s.replicas[0], 0, |s.replicas|);
  }

  lemma {:induction false} HoldersExactly(replicas: seq<Replica>, x: nat, h: nat, m: nat)
    requires h <= m <= |replicas|
    requires forall j | 0 <= j < h :: x <= replicas[j].lastLogIndex
    requires forall j | h <= j < m :: replicas[j].lastLogIndex < x
    ensures Holders(replicas, x, m) == h
    decreases m
  {
    if h < m {
      HoldersExactly(replicas, x, h, m - 1);
    } else if 0 < m {
      HoldersExactly(replicas, x, h - 1, m - 1);
    }
  }

  /** The number of holders the commit rule guarantees is reached. */
  lemma HoldersAreTight(n: nat, g: nat, request: Request) returns (t: seq<State>)
    requires 2 <= n && g != n
    ensures t != [] && LegalRun(t) && |t[0].replicas| == n
    ensures var s := t[|t| - 1];
            && s.replicas != [] && s.replicas[0].commitIndex == 1
            && s.replies == [Reply(request, Committing(n, 1, request))]
            && |s.replicas| == n && AllHolders(s, 1) == FewestHolders(n)
  {
    hide QueueAt;
    var s := EarlyCommit(n, g, request);
    t :| Run(t) && t[0] == Fresh(n, g) && t[|t| - 1] == s;
    var h := FewestHolders(n);
    forall j | 0 < j < h
      ensures 1 <= s.replicas[j].lastLogIndex
    {
      FollowerNow(s, j);
    }
    HoldersExactly(s.replicas, 1, h, n);
  }

  // ----- majorities -----

  ghost predicate RunOf(t: seq<State>, n: nat) {
    LegalRun(t) && |t[0].replicas| == n
  }

  /** In every run of `n` replicas, every committed entry is always held by more than half of them. */
  ghost predicate CommitsNeedMajority(n: nat) {
    forall t: seq<State>, i: nat, x: nat |
      RunOf(t, n) && i < |t| && t[i].replicas != [] && 0 < x <= t[i].replicas[0].commitIndex ::
      StrictMajority(AllHolders(t[i], x), n)
  }

  lemma {:induction false} SameCountOfReplicas(t: seq<State>, i: nat)
    requires LegalRun(t) && i < |t|
    ensures |t[i].replicas| == |t[0].replicas|
  {
    hide Inv, Next, Init;
    if 0 < i {
      SameCountOfReplicas(t, i - 1);
      RunKeeps(t, i - 1);
      RunKeeps(t, i);
      FirstStays(t[i - 1], t[i]);
    }
  }

  /** Exactly when a committed entry is on a strict majority: for odd numbers of replicas, and for two. */
  lemma MajorityCondition(n: nat)
    requires 2 <= n
    ensures n % 2 == 1 || n == 2 <==> CommitsNeedMajority(n)
  {
    hide Run, AllHolders;
    if n % 2 == 1 || n == 2 {
      forall t: seq<State>, i: nat, x: nat |
        RunOf(t, n) && i < |t| && t[i].replicas != [] && 0 < x <= t[i].replicas[0].commitIndex
        ensures StrictMajority(AllHolders(t[i], x), n)
      {
        SameCountOfReplicas(t, i);
        CommittedIsHeld(t, i, x);
      }
    } else {
      var t := HoldersAreTight(n, 0, Request(0, 0));
      var i: nat := |t| - 1;
      assert RunOf(t, n) && 0 < 1 <= t[i].replicas[0].commitIndex;
      assert !StrictMajority(AllHolders(t[i], 1), n);
    }
  }

  // ----- the uninitialised count -----

  /** With the unlucky count, committing the second request trims the first entry, whose `prev` link nothing
    * has set. */
  lemma UnluckyFaults(n: nat, request: Request) returns (s: State)
    requires 2 <= n
    ensures Reachable(Fresh(n, n), s) && s.fault == Some(UnsetLink)
  {
    hide Inv, Fresh, Init, Unread, FollowerInv;
    var first := Fresh(n, n);
    InitInv(first);
    InitReachable(first);
    InitIdle(first);
    var blank := first.replicas[0].queue[0];
    s := Ask(first, first, n, request, blank);
    s := Answer(first, s, n, [request], blank, 1, n);
    SettleRound(first, s, n, [request], blank);
    s := Apply(s, Lead);
    s := Ask(first, s, n, request, blank);
    s := Answer(first, s, n, [request, request], blank, 1, Needed(n));
    s := FaultNow(first, s, n, [request, request], blank);
  }

  lemma SettleRound(first: State, s: State, n: nat, requests: seq<Request>, blank: Entry)
    requires Waiting(first, s, n, requests, blank, n) && 2 <= n
    ensures Enabled(s, Lead)
    ensures var s' := Apply(s, Lead);
            Reachable(first, s') && Inv(s') && s'.phase.Idle? && s'.replicas == s.replicas && s'.requests == requests
  {
    hide FollowerInv;
    assert Enabled(s, Lead);
    ReachStep(first, s, Lead);
    CollectKeeps(s);
  }

  lemma AboutToFault(s: State, from: nat)
    requires Inv(s) && s.phase == Collecting(from) && from < |s.replicas| && Enabled(s, Lead)
    requires from == Needed(|s.replicas|) && !Safe(s.replicas[0].queue[0], |s.replicas|, |s.requests|)
    ensures Apply(s, Lead).fault == Some(UnsetLink)
  {
    hide HandleAppendResponse, QueueAt, FollowersInv, LeaderAt, Safe;
    ResponseWaits(s, from);
    LeaderFaults(|s.replicas|, |s.requests|, from, s.requests, s.replicas[0].queue[0],
                 s.requests[|s.requests| - 1].client);
  }

  lemma FaultNow(first: State, s: State, n: nat, requests: seq<Request>, blank: Entry) returns (s': State)
    requires Waiting(first, s, n, requests, blank, Needed(n)) && 2 <= n && !Safe(blank, n, |requests|)
    ensures Reachable(first, s') && s'.fault == Some(UnsetLink)
  {
    hide Inv, Safe, Apply, Unread;
    var s1 := HearOne(first, s);
    AboutToFault(s1, Needed(n));
    ReachStep(first, s1, Lead);
    s' := Apply(s1, Lead);
  }

  lemma ResponseWaits(s: State, from: nat)
    requires Inv(s) && s.phase == Collecting(from) && from < |s.replicas| && Enabled(s, Lead)
    ensures s.requests != [] && s.up[from] == [Ack(1, |s.requests|, from, true, s.requests[|s.requests| - 1].client)]
  {
    hide QueueAt;
    FollowerNow(s, from);
  }

  /** No run of `n` replicas started with this count ever faults. */
  ghost predicate FaultFree(n: nat, g: nat) {
    forall t: seq<State>, i: nat | CountedRun(t, n, g) && i < |t| :: t[i].fault.None?
  }

  ghost predicate CountedRun(t: seq<State>, n: nat, g: nat) {
    Run(t) && |t[0].replicas| == n && (t[0].replicas != [] && t[0].replicas[0].queue != [] &&
    t[0].replicas[0].queue[0].execCount == g)
  }

  /** Exactly when the handlers never fault: the garbage in the first entry is not the number of replicas. */
  lemma FaultCondition(n: nat, g: nat)
    requires 2 <= n
    ensures g != n <==> FaultFree(n, g)
  {
    if g != n {
      forall t: seq<State>, i: nat | CountedRun(t, n, g) && i < |t|
        ensures t[i].fault.None?
      {
        NothingRejected(t, i);
      }
    } else {
      var s := UnluckyFaults(n, Request(0, 0));
      var t: seq<State> :| Run(t) && t[0] == Fresh(n, n) && t[|t| - 1] == s;
      var i: nat := |t| - 1;
      assert CountedRun(t, n, g) && !t[i].fault.None?;
    }
  }
}
