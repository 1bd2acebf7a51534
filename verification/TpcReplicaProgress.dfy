/** Open requests are decided and answered, whatever steps are taken, once clients stop submitting more. */
module TpcReplicaProgress {
  import opened TpcReplica
  import opened TpcReplicaSafety

  // ----- the work left -----

  function Times(k: nat, p: nat): nat {
    if k == 0 then 0 else Times(k - 1, p) + p
  }

  /** Steps a message still causes among `n` replicas: an answer may be the one that decides. */
  function MsgWork(n: nat, m: Msg): nat {
    match m
    case Prepare(_) => 2 * n + 1
    case Ready(_) => 2 * n
    case _ => 1
  }

  function QueueWork(n: nat, q: seq<Msg>): nat {
    if q == [] then 0 else MsgWork(n, q[0]) + QueueWork(n, q[1..])
  }

  /** The same for the first `m` channels together. */
  function ChannelsWork(n: nat, qs: seq<seq<Msg>>, m: nat): nat
    requires m <= |qs|
  {
    if m == 0 then 0 else ChannelsWork(n, qs, m - 1) + QueueWork(n, qs[m - 1])
  }

  /** A send loop sends and later has handled what it still has to send. */
  function LoopWork(n: nat, pc: LeaderPc): nat {
    match pc
    case Receiving => 0
    case Preparing(_, i) => 1 + Times(if i < n then n - i else 0, 2 * n + 2)
    case Committing(_, i) => 1 + if i < n then 2 * (n - i) else 0
  }

  function RequestWork(n: nat): nat {
    2 + Times(n, 2 * n + 2)
  }

  function InboxWork(n: nat, inbox: seq<seq<Request>>, m: nat): nat
    requires m <= |inbox|
  {
    if m == 0 then 0 else InboxWork(n, inbox, m - 1) + Times(|inbox[m - 1]|, RequestWork(n))
  }

  function Work(s: State): nat {
    var n := Replicas(s);
    InboxWork(n, s.inbox, |s.inbox|) + LoopWork(n, s.pc)
    + ChannelsWork(n, s.down, |s.down|) + ChannelsWork(n, s.up, |s.up|)
  }

  lemma {:induction false} QueueGrows(n: nat, q: seq<Msg>, m: Msg)
    ensures QueueWork(n, q + [m]) == QueueWork(n, q) + MsgWork(n, m)
  {
    if q != [] {
      assert (q + [m])[1..] == q[1..] + [m];
      QueueGrows(n, q[1..], m);
    }
  }

  lemma {:induction false} ChannelChanges(n: nat, qs: seq<seq<Msg>>, i: nat, q: seq<Msg>, m: nat)
    requires i < |qs| && m <= |qs|
    ensures ChannelsWork(n, qs[i := q], m)
         == ChannelsWork(n, qs, m) + if i < m then QueueWork(n, q) - QueueWork(n, qs[i]) else 0
    decreases m
  {
    hide QueueWork;
    if 0 < m {
      ChannelChanges(n, qs, i, q, m - 1);
    }
  }

  lemma {:induction false} InboxChanges(n: nat, inbox: seq<seq<Request>>, c: nat, m: nat)
    requires c < |inbox| && inbox[c] != [] && m <= |inbox|
    ensures InboxWork(n, inbox, m) == InboxWork(n, inbox[c := inbox[c][1..]], m) + if c < m then RequestWork(n) else 0
    decreases m
  {
    hide RequestWork;
    if 0 < m {
      InboxChanges(n, inbox, c, m - 1);
    }
  }

  // ----- every step but a new request lowers it -----

  lemma TakeWorks(s: State, c: nat)
    requires Enabled(s, Take(c))
    ensures Work(Apply(s, Take(c))) < Work(s)
  {
    hide ChannelsWork, InboxWork;
    InboxChanges(Replicas(s), s.inbox, c, |s.inbox|);
    FewerTimes(Replicas(s), 2 * Replicas(s) + 2);
  }

  lemma FewerTimes(n: nat, p: nat)
    ensures Times(if 1 < n then n - 1 else 0, p) <= Times(n, p)
  {
  }

  lemma SendWorks(s: State)
    requires Enabled(s, Send)
    ensures Work(Apply(s, Send)) < Work(s)
  {
    hide ChannelsWork, InboxWork, QueueWork;
    var n := Replicas(s);
    if s.pc.i < n {
      var m := if s.pc.Preparing? then Prepare(s.pc.request) else Commit(s.pc.request, s.index);
      QueueGrows(n, s.down[s.pc.i], m);
      ChannelChanges(n, s.down, s.pc.i, s.down[s.pc.i] + [m], n);
    }
  }

  lemma HearWorks(s: State, i: nat)
    requires Enabled(s, Hear(i))
    ensures Work(Apply(s, Hear(i))) < Work(s)
  {
    hide ChannelsWork, InboxWork, Times;
    ChannelChanges(Replicas(s), s.up, i, s.up[i][1..], |s.up|);
  }

  lemma FollowWorks(s: State, i: nat)
    requires Enabled(s, Follow(i))
    ensures Work(Apply(s, Follow(i))) < Work(s)
  {
    hide ChannelsWork, InboxWork, Times, QueueWork;
    var n, m := Replicas(s), s.down[i][0];
    TakesFirst(n, s.down[i]);
    ChannelChanges(n, s.down, i, s.down[i][1..], n);
    if m.Prepare? {
      QueueGrows(n, s.up[i], Ready(m.request));
      ChannelChanges(n, s.up, i, s.up[i] + [Ready(m.request)], |s.up|);
    }
  }

  lemma TakesFirst(n: nat, q: seq<Msg>)
    requires q != []
    ensures QueueWork(n, q) == MsgWork(n, q[0]) + QueueWork(n, q[1..])
  {
  }

  lemma StepWorks(s: State, a: Action)
    requires Enabled(s, a) && !a.Submit?
    ensures Work(Apply(s, a)) < Work(s) && Apply(s, a).submitted == s.submitted
    ensures Replicas(Apply(s, a)) == Replicas(s)
  {
    hide Work;
    match a
    case Take(c) => TakeWorks(s, c);
    case Send => SendWorks(s);
    case Hear(i) => HearWorks(s, i);
    case Follow(i) => FollowWorks(s, i);
  }

  // ----- runs -----

  ghost predicate Reachable(first: State, s: State) {
    exists t :: Run(t) && t[0] == first && t[|t| - 1] == s
  }

  lemma ReachStep(first: State, s: State, a: Action)
    requires Reachable(first, s) && Enabled(s, a)
    ensures Reachable(first, Apply(s, a))
  {
    hide Init, Enabled, Apply;
    var t :| Run(t) && t[0] == first && t[|t| - 1] == s;
    var t' := t + [Apply(s, a)];
    assert Next(s, Apply(s, a));
    assert Run(t');
  }

  lemma ReachInv(first: State, s: State)
    requires Reachable(first, s)
    ensures Inv(s)
  {
    hide Inv, Init, Next;
    var t :| Run(t) && t[0] == first && t[|t| - 1] == s;
    RunKeeps(t, |t| - 1);
  }

  predicate Answered(s: State, c: nat)
    requires Shaped(s) && c < Clients(s)
  {
    && |s.replies[c]| == |s.submitted[c]|
    && forall k | 0 <= k < |s.replies[c]| ::
         s.replies[c][k].Response? && s.replies[c][k].request == s.submitted[c][k]
  }

  /** Every request is answered, and every replica has executed every decision. */
  predicate Settled(s: State) {
    && Shaped(s)
    && (forall c | 0 <= c < Clients(s) :: Answered(s, c))
    && (forall i | 0 <= i < Replicas(s) :: s.executed[i] == s.log)
  }

  /** With two replicas or more, whatever steps are taken other than new requests, there are finitely many,
    * and then every request has been answered and all replicas have executed the same list. */
  lemma {:induction false} SettlesRequests(first: State, s: State) returns (s': State)
    requires Reachable(first, s) && 1 < Replicas(s)
    ensures Reachable(first, s') && Settled(s') && s'.submitted == s.submitted
    decreases Work(s)
  {
    hide Inv, Enabled, Apply, Work, Settled, Shaped;
    if CanMove(s) {
      var a := SomeMove(s);
      ReachStep(first, s, a);
      StepWorks(s, a);
      s' := SettlesRequests(first, Apply(s, a));
    } else {
      s' := s;
      StillIsSettled(first, s);
    }
  }

  lemma SomeMove(s: State) returns (a: Action)
    requires CanMove(s)
    ensures !a.Submit? && Enabled(s, a)
  {
    if Enabled(s, Send) {
      a := Send;
    } else if c :| 0 <= c < Clients(s) && Enabled(s, Take(c)) {
      a := Take(c);
    } else {
      var i :| 0 < i < Replicas(s) && (Enabled(s, Hear(i)) || Enabled(s, Follow(i)));
      a := if Enabled(s, Hear(i)) then Hear(i) else Follow(i);
    }
  }

  lemma StillIsSettled(first: State, s: State)
    requires Reachable(first, s) && 1 < Replicas(s) && !CanMove(s)
    ensures Settled(s)
  {
    hide Inv, Init, Next;
    ReachInv(first, s);
    LeaderNow(s);
    forall c | 0 <= c < Clients(s)
      ensures Answered(s, c)
    {
      AllAnswered(first, s, c);
    }
    forall i | 0 < i < Replicas(s)
      ensures s.executed[i] == s.log
    {
      LogNow(s, i);
      assert !Enabled(s, Follow(i));
    }
  }

  lemma AllAnswered(first: State, s: State, c: nat)
    requires Reachable(first, s) && 1 < Replicas(s) && !CanMove(s) && Shaped(s) && c < Clients(s)
    ensures Answered(s, c)
  {
    hide Inv, CanMove, Init, Next, Of, Followers;
    ReachInv(first, s);
    ClientNow(s, c);
    PlacesNow(s);
    assert RepliesInv(s, c);
    var t :| Run(t) && t[0] == first && t[|t| - 1] == s;
    if |s.replies[c]| < |s.submitted[c]| {
      NeverStuck(t, |t| - 1, c);
    }
  }
}
