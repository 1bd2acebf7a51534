/** Every request is learned by all and answered, whatever steps are taken, once no more requests arrive. */
module OnePaxosProgress {
  import opened OnePaxos
  import opened OnePaxosSafety

  // ----- the work left -----

  function Times(k: nat, p: nat): nat {
    if k == 0 then 0 else Times(k - 1, p) + p
  }

  /** A broadcast sends, and later has learned, what it still has to send. */
  function LoopWork(n: nat, pc: AcceptorPc): nat {
    match pc
    case Receiving => 0
    case Broadcasting(_, i) => 1 + if i < n then 2 * (n - i) else 0
  }

  function LearnsWork(learns: seq<seq<Learn>>, m: nat): nat
    requires m <= |learns|
  {
    if m == 0 then 0 else LearnsWork(learns, m - 1) + |learns[m - 1]|
  }

  function Work(s: State): nat {
    var n := |s.replicas|;
    Times(|s.toAcceptor|, 2 * n + 2) + LoopWork(n, s.pc) + LearnsWork(s.learns, |s.learns|)
  }

  lemma {:induction false} LearnsChange(learns: seq<seq<Learn>>, i: nat, q: seq<Learn>, m: nat)
    requires i < |learns| && m <= |learns|
    ensures LearnsWork(learns[i := q], m) == LearnsWork(learns, m) + if i < m then |q| - |learns[i]| else 0
    decreases m
  {
    if 0 < m {
      LearnsChange(learns, i, q, m - 1);
    }
  }

  /** Every step but a request lowers it. */
  lemma StepWorks(s: State, a: Action)
    requires Enabled(s, a) && !a.Arrive?
    ensures Work(Apply(s, a)) < Work(s) && Apply(s, a).requests == s.requests
  {
    hide Execute, HandleLearn, Fresh;
    match a
    case Accept =>
    case Broadcast =>
      if s.pc.i < |s.replicas| && s.pc.i != 1 {
        var i := s.pc.i;
        LearnsChange(s.learns, i, s.learns[i] + [Learn(s.pc.request, s.replicas[1].index)], |s.learns|);
      }
    case Take(i) => LearnsChange(s.learns, i, s.learns[i][1..], |s.learns|);
  }

  // ----- runs -----

  ghost predicate Reachable(first: State, clients: nat, s: State) {
    exists t :: Run(t, clients) && t[0] == first && t[|t| - 1] == s
  }

  lemma ReachStep(first: State, clients: nat, s: State, a: Action)
    requires Reachable(first, clients, s) && Enabled(s, a)
    ensures Reachable(first, clients, Apply(s, a))
  {
    hide Init, Enabled, Apply;
    var t :| Run(t, clients) && t[0] == first && t[|t| - 1] == s;
    var t' := t + [Apply(s, a)];
    assert Next(s, Apply(s, a));
    assert Run(t', clients);
  }

  lemma ReachInv(first: State, clients: nat, s: State)
    requires Reachable(first, clients, s)
    ensures Inv(s, clients)
  {
    hide Inv, Init, Next;
    var t :| Run(t, clients) && t[0] == first && t[|t| - 1] == s;
    RunKeeps(t, clients, |t| - 1);
  }

  ghost predicate CanMove(s: State) {
    exists a: Action :: !a.Arrive? && Enabled(s, a)
  }

  /** Every replica has executed exactly the new requests, and each of those has its reply. */
  predicate Settled(s: State) {
    && Shaped(s)
    && (forall i | 0 <= i < |s.replicas| :: s.replicas[i].executed == Records(s.requests))
    && s.replies == Tagged(Response, Records(s.requests))
  }

  /** A state in which nothing but a request can happen is settled: the acceptor never finds a message it does
    * not handle. */
  lemma StillIsSettled(s: State, clients: nat)
    requires Inv(s, clients) && !CanMove(s)
    ensures Settled(s)
  {
    hide Inv, LearnsInv, BufferInv, Records, IsLargest;
    AcceptorNow(s, clients);
    assert !Enabled(s, Broadcast) && !Enabled(s, Accept);
    forall i | 0 <= i < |s.replicas|
      ensures s.replicas[i].executed == Records(s.requests)
    {
      LearnsNow(s, clients, i);
      if i != 1 {
        assert !Enabled(s, Take(i));
        NoneLeft(s, clients, i);
      }
      assert s.requests[..|s.requests|] == s.requests;
      AfterMeaning(s.requests, clients);
    }
  }

  lemma NoneLeft(s: State, clients: nat, i: nat)
    requires Inv(s, clients) && i < |s.replicas| && i != 1 && s.learns[i] == []
    ensures s.replicas[i].index == SentTo(s, i)
  {
    hide After;
  }

  /** Whatever steps are taken other than new requests, there are finitely many, and then all replicas have
    * executed the same list and every request on it has been answered. */
  lemma {:induction false} SettlesRequests(first: State, clients: nat, s: State) returns (s': State)
    requires Reachable(first, clients, s)
    ensures Reachable(first, clients, s') && Settled(s') && s'.requests == s.requests
    decreases Work(s)
  {
    hide Enabled, Apply, Work, Settled, Inv, Init;
    s' := s;
    if CanMove(s) {
      var a: Action :| !a.Arrive? && Enabled(s, a);
      ReachStep(first, clients, s, a);
      StepWorks(s, a);
      s' := SettlesRequests(first, clients, Apply(s, a));
    } else {
      ReachInv(first, clients, s);
      StillIsSettled(s, clients);
    }
  }
}
