/** Once everybody has entered a barrier, everybody returns from it, whatever steps are taken. */
module TreeBarrierProgress {
  import opened Trees
  import opened TreeBarrier
  import opened TreeBarrierSafety
  import opened Wrappers

  /** Steps a core has at most before it returns, in a tree of `n` cores. */
  function Rank(n: nat, k: Core): int {
    match k.pc
    case Outside => 0
    case Collecting(received, _) => 2 * n + 3 - |received|
    case Awaiting => n + 2
    case Forwarding(sent, _) => n + 1 - |sent|
  }

  /** The same for the first `m` cores together. */
  function Left(n: nat, cores: seq<Core>, m: nat): int
    requires m <= |cores|
  {
    if m == 0 then 0 else Left(n, cores, m - 1) + Rank(n, cores[m - 1])
  }

  /** The core that takes a step. */
  function Actor(t: Tree, s: State, a: Action): nat
    requires Enabled(t, s, a)
  {
    match a
    case Enter(c) => c
    case Gather(d) => t.parent[d]
    case PassUp(c) => c
    case Receive(d) => d
    case Forward(d) => t.parent[d]
    case Return(c) => c
  }

  lemma {:induction false} FewBelow(f: set<nat>, n: nat)
    requires forall d | d in f :: d < n
    ensures |f| <= n
    decreases n
  {
    if n == 0 {
      assert f == {};
    } else {
      FewBelow(f - {n - 1}, n - 1);
    }
  }

  lemma FewChildren(t: Tree, s: State, c: nat)
    requires Inv(t, s) && c < Size(t)
    ensures Shaped(t, s)
    ensures s.cores[c].pc.Collecting? ==> |s.cores[c].pc.received| <= Size(t)
    ensures s.cores[c].pc.Forwarding? ==> |s.cores[c].pc.sent| <= Size(t)
  {
    hide Inv;
    ReceivedFromChildren(t, s, c);
    FewBelow(Children(t, c), Size(t));
    if s.cores[c].pc.Collecting? {
      SubsetCard(s.cores[c].pc.received, Children(t, c));
    } else if s.cores[c].pc.Forwarding? {
      SubsetCard(s.cores[c].pc.sent, Children(t, c));
    }
  }

  /** Every step inside the barrier brings its core closer to the end, and changes no other core. */
  lemma ActorAdvances(t: Tree, s: State, a: Action)
    requires Inv(t, s) && Enabled(t, s, a) && !a.Enter?
    ensures var c, s' := Actor(t, s, a), Apply(t, s, a);
            && c < |s.cores| == |s'.cores| && s'.cores == s.cores[c := s'.cores[c]]
            && s'.cores[c].entered == s.cores[c].entered
            && Rank(Size(t), s'.cores[c]) < Rank(Size(t), s.cores[c])
  {
    FewChildren(t, s, Actor(t, s, a));
    hide Inv, Children;
  }

  lemma {:induction false} LeftShrinks(n: nat, cores: seq<Core>, cores': seq<Core>, c: nat, m: nat)
    requires c < |cores| == |cores'| && cores' == cores[c := cores'[c]] && m <= |cores|
    requires Rank(n, cores'[c]) < Rank(n, cores[c])
    ensures if c < m then Left(n, cores', m) < Left(n, cores, m) else Left(n, cores', m) == Left(n, cores, m)
    decreases m
  {
    hide Rank;
    if 0 < m {
      LeftShrinks(n, cores, cores', c, m - 1);
    }
  }

  lemma {:induction false} LeftBounds(t: Tree, s: State, m: nat)
    requires Inv(t, s) && m <= Size(t)
    ensures m <= |s.cores| && 0 <= Left(Size(t), s.cores, m)
    decreases m
  {
    hide Inv;
    if 0 < m {
      LeftBounds(t, s, m - 1);
      FewChildren(t, s, m - 1);
    } else {
      WithinTree(t, s);
    }
  }

  predicate AllEntered(s: State, k: nat) {
    forall c | 0 <= c < |s.cores| :: s.cores[c].entered == k
  }

  ghost predicate Reachable(t: Tree, first: State, s: State) {
    exists r :: Run(t, r) && r[0] == first && r[|r| - 1] == s
  }

  lemma ReachStep(t: Tree, first: State, s: State, a: Action)
    requires Reachable(t, first, s) && Enabled(t, s, a)
    ensures Reachable(t, first, Apply(t, s, a))
  {
    hide Init, Enabled, Apply;
    var r :| Run(t, r) && r[0] == first && r[|r| - 1] == s;
    var r' := r + [Apply(t, s, a)];
    assert Next(t, s, Apply(t, s, a));
    assert Run(t, r');
  }

  /** Whatever steps are taken once all cores have entered their k-th barrier, there are finitely many, and
    * then all have returned from it. */
  lemma {:induction false} EndsBarrier(t: Tree, first: State, s: State, k: nat) returns (s': State)
    requires Reachable(t, first, s) && Inv(t, s) && AllEntered(s, k)
    ensures Reachable(t, first, s') && Inv(t, s') && |s'.cores| == Size(t) && AllEntered(s', k)
    ensures forall c | 0 <= c < Size(t) :: Returned(s'.cores[c]) == k
    decreases (LeftBounds(t, s, Size(t)); Left(Size(t), s.cores, Size(t)))
  {
    hide Inv, Apply, Enabled, Left, Rank, Init;
    LeftBounds(t, s, Size(t));
    WithinTree(t, s);
    s' := s;
    if CanMove(t, s) {
      var a: Action :| !a.Enter? && Enabled(t, s, a);
      ReachStep(t, first, s, a);
      var s1 := Apply(t, s, a);
      assert Next(t, s, s1);
      StepKeeps(t, s, s1);
      ActorAdvances(t, s, a);
      LeftShrinks(Size(t), s.cores, s1.cores, Actor(t, s, a), Size(t));
      LeftBounds(t, s1, Size(t));
      s' := EndsBarrier(t, first, s1, k);
    } else {
      forall c | 0 <= c < Size(t)
        ensures Returned(s.cores[c]) == k
      {
        StuckReturned(t, s, k, c);
      }
    }
  }
}
