/** Every round of the tree two-phase commit ends, and exactly when none of its asserts can fail. */
module TreeCommitProgress {
  import opened Trees
  import opened TreeCommit
  import opened TreeCommitSafety
  import opened TreeCommitTheorems
  import opened Wrappers

  // ----- somebody can always move -----

  ghost predicate CanMove(t: Tree, s: Net) {
    exists a: Action :: !a.Start? && Enabled(t, s, a)
  }

  lemma Movable(t: Tree, s: Net, a: Action)
    requires !CanMove(t, s) && !a.Start?
    ensures !Enabled(t, s, a)
  {
  }

  lemma PcShape(t: Tree, versions: seq<nat>, c: nat, k: Node)
    requires ValidTree(t) && |versions| == Size(t) && c < Size(t) && NodeInv(t, versions, c, k)
    ensures k.pc.Spreading? ==> k.pc.sent <= Children(t, c)
    ensures c != t.root ==> !k.pc.Between?
    ensures k.asked > |k.votes| ==> k.heard <= Children(t, c)
    ensures Rounds(k)
  {
    hide Willing, AllWilling, VersionInv;
  }

  lemma NoneSpreading(t: Tree, versions: seq<nat>, s: Net, c: nat)
    requires Inv(t, versions, s) && !CanMove(t, s) && c < Size(t)
    ensures |s.nodes| == Size(t) && !s.nodes[c].pc.Spreading? && (c != t.root ==> s.nodes[c].pc.Polling?)
  {
    hide CanMove, NodeInv, EdgeInv;
    PcShape(t, versions, c, s.nodes[c]);
    if s.nodes[c].pc.Spreading? {
      Movable(t, s, Done(c));
      var d :| d in Children(t, c) && d !in s.nodes[c].pc.sent;
      Movable(t, s, Spread(d));
    }
  }

  /** With nothing left to take, neighbours are in the same round. */
  lemma StuckEdge(t: Tree, versions: seq<nat>, s: Net, d: nat)
    requires Inv(t, versions, s) && !CanMove(t, s) && d < Size(t) && d != t.root
    ensures var child, parent := s.nodes[d], s.nodes[t.parent[d]];
            && s.up[d] == [] && s.down[d] == []
            && child.asked == parent.asked && child.told == parent.told && |child.votes| == Gathered(parent, d)
  {
    hide CanMove, NodeInv, MsgNo;
    Edge(t, versions, s, d);
    AllRounds(t, versions, s);
    EdgeRounds(t, versions, s, d);
    NoneSpreading(t, versions, s, d);
    NoneSpreading(t, versions, s, t.parent[d]);
    Movable(t, s, FromParent(d));
    Movable(t, s, FromChild(d));
    BetweenIsRoot(t, versions, s, t.parent[d]);
  }

  lemma BetweenIsRoot(t: Tree, versions: seq<nat>, s: Net, c: nat)
    requires Inv(t, versions, s) && c < Size(t)
    ensures s.nodes[c].pc.Between? ==> s.nodes[c].asked == s.nodes[c].told
  {
    hide Willing, AllWilling;
    assert NodeInv(t, versions, c, s.nodes[c]);
  }

  lemma {:induction false} StuckVoted(t: Tree, versions: seq<nat>, s: Net, c: nat)
    requires Inv(t, versions, s) && !CanMove(t, s) && c < Size(t) && c != t.root
    ensures |s.nodes[c].votes| == s.nodes[c].asked
    decreases t.height[c]
  {
    hide CanMove, Inv, Willing, AllWilling, EdgeInv, VersionInv;
    Edge(t, versions, s, c);
    NoneSpreading(t, versions, s, c);
    forall d | d in Children(t, c)
      ensures |s.nodes[c].votes| < s.nodes[c].asked ==> d in s.nodes[c].heard
    {
      Edge(t, versions, s, d);
      StuckVoted(t, versions, s, d);
      StuckEdge(t, versions, s, d);
    }
  }

  /** Whenever the requester is not between two drained rounds, some core can take a step. */
  lemma StuckIsDrained(t: Tree, versions: seq<nat>, s: Net)
    requires Inv(t, versions, s) && !CanMove(t, s)
    ensures Drained(t, s)
  {
    hide CanMove, Willing, AllWilling, OtherInv;
    NoneSpreading(t, versions, s, t.root);
    assert NodeInv(t, versions, t.root, s.nodes[t.root]);
    forall d | 0 <= d < Size(t) && d != t.root
      ensures s.up[d] == [] && s.down[d] == [] && s.nodes[d].pc.Polling?
      ensures d in Children(t, t.root) && s.nodes[t.root].pc.Polling? ==> d in s.nodes[t.root].heard
    {
      StuckEdge(t, versions, s, d);
      StuckVoted(t, versions, s, d);
      NoneSpreading(t, versions, s, d);
    }
  }

  lemma NeverStuck(t: Tree, r: seq<Net>, versions: seq<nat>, i: nat)
    requires Run(t, r, versions) && i < |r| && !r[i].failed
    ensures CanMove(t, r[i]) || Drained(t, r[i])
  {
    hide Inv;
    RunKeeps(t, r, versions, i);
    if !CanMove(t, r[i]) {
      StuckIsDrained(t, versions, r[i]);
    }
  }

  // ----- each round takes a bounded number of steps -----

  /** Steps core `k` with `deg` children has certainly taken. */
  function Steps(deg: nat, k: Node): int {
    Taken(k) * (deg + 2) - (if k.pc.Spreading? then deg + 1 - |k.pc.sent| else 0)
    + |k.votes| * deg + (if k.asked > |k.votes| then |k.heard| else 0)
  }

  /** An upper bound on them while `n` versions have been asked for. */
  function MostSteps(deg: nat, n: nat): nat {
    (2 * n) * (deg + 2) + n * deg
  }

  function Left(t: Tree, s: Net, n: nat, m: nat): int
    requires m <= Size(t) && m <= |s.nodes|
  {
    if m == 0 then 0
    else Left(t, s, n, m - 1) + MostSteps(|Children(t, m - 1)|, n) - Steps(|Children(t, m - 1)|, s.nodes[m - 1])
  }

  lemma StepsBounded(t: Tree, versions: seq<nat>, c: nat, k: Node, n: nat)
    requires ValidTree(t) && |versions| == Size(t) && c < Size(t) && NodeInv(t, versions, c, k)
    requires k.asked <= n
    ensures Steps(|Children(t, c)|, k) <= MostSteps(|Children(t, c)|, n)
  {
    hide NodeInv, Children;
    var deg := |Children(t, c)|;
    PcShape(t, versions, c, k);
    if k.pc.Spreading? {
      SubsetCard(k.pc.sent, Children(t, c));
    }
    if k.asked > |k.votes| {
      SubsetCard(k.heard, Children(t, c));
    }
    StepsAtMost(deg, n, k);
  }

  lemma StepsAtMost(deg: nat, n: nat, k: Node)
    requires k.told <= k.asked <= n && |k.votes| <= k.asked
    requires k.pc.Spreading? ==> |k.pc.sent| <= deg
    requires k.asked > |k.votes| ==> |k.heard| <= deg
    ensures Steps(deg, k) <= MostSteps(deg, n)
  {
    var votes := |k.votes|;
    assert Taken(k) * (deg + 2) <= (2 * n) * (deg + 2) by {
      MulGrows(Taken(k), 2 * n, deg + 2);
    }
    assert votes * deg + (if k.asked > votes then |k.heard| else 0) <= n * deg by {
      if k.asked > votes {
        MulGrows(votes + 1, n, deg);
        MulGrows(votes, n, deg);
      } else {
        MulGrows(votes, n, deg);
      }
    }
  }

  lemma {:induction false} MulGrows(a: nat, b: nat, c: nat)
    requires a <= b
    ensures a * c <= b * c && (a + 1) * c == a * c + c
    decreases b
  {
    if a < b {
      MulGrows(a, b - 1, c);
      assert b * c == (b - 1) * c + c;
    }
  }

  lemma {:induction false} LeftBounded(t: Tree, versions: seq<nat>, s: Net, n: nat, m: nat)
    requires Inv(t, versions, s) && m <= Size(t) && forall c | 0 <= c < Size(t) :: s.nodes[c].asked <= n
    ensures 0 <= Left(t, s, n, m)
  {
    hide Inv, NodeInv, Steps, MostSteps;
    WithinTree(t, versions, s);
    if 0 < m {
      LeftBounded(t, versions, s, n, m - 1);
      StepsBounded(t, versions, m - 1, s.nodes[m - 1], n);
    }
  }

  lemma {:induction false} LeftShrinks(t: Tree, s: Net, s': Net, n: nat, c: nat, m: nat)
    requires m <= Size(t) == |s.nodes| == |s'.nodes| && c < Size(t)
    requires forall j | 0 <= j < Size(t) && j != c :: s'.nodes[j] == s.nodes[j]
    requires Steps(|Children(t, c)|, s.nodes[c]) < Steps(|Children(t, c)|, s'.nodes[c])
    ensures Left(t, s', n, m) <= Left(t, s, n, m) - if c < m then 1 else 0
  {
    hide Steps, MostSteps, Children;
    if 0 < m {
      LeftShrinks(t, s, s', n, c, m - 1);
    }
  }

  lemma TakingCounts(t: Tree, c: nat, k: Node, o: Reaction)
    requires TookOne(t, c, k, o) && |k.votes| == k.asked && k.pc.Polling?
    ensures Steps(|Children(t, c)|, k) < Steps(|Children(t, c)|, o.node)
  {
    var deg := |Children(t, c)|;
    MulGrows(Taken(k), Taken(k), deg + 2);
    MulGrows(|k.votes|, |o.node.votes|, deg);
  }

  lemma CountingCounts(t: Tree, c: nat, k: Node, d: nat, o: Reaction)
    requires Counted(t, c, k, d, o) && k.pc.Polling? && |k.votes| < k.asked && d !in k.heard && d in Children(t, c)
    requires k.asked <= |k.votes| + 1
    ensures Steps(|Children(t, c)|, k) < Steps(|Children(t, c)|, o.node)
  {
    MulGrows(|k.votes|, |k.votes|, |Children(t, c)|);
  }

  lemma RootCountingCounts(t: Tree, k: Node, d: nat, o: Reaction)
    requires RootCounted(t, k, d, o) && k.pc.Polling? && |k.votes| < k.asked && d !in k.heard
    requires k.asked <= |k.votes| + 1
    ensures Steps(|Children(t, t.root)|, k) < Steps(|Children(t, t.root)|, o.node)
  {
    var deg := |Children(t, t.root)|;
    MulGrows(|k.votes|, |k.votes|, deg);
    MulGrows(Taken(k), Taken(k), deg + 2);
  }

  /** Which core an action other than the start of a round belongs to. */
  function Actor(t: Tree, a: Action): nat {
    match a
    case Start => t.root
    case FromParent(c) => c
    case FromChild(d) => if d < Size(t) then t.parent[d] else d
    case Spread(d) => if d < Size(t) then t.parent[d] else d
    case Done(c) => c
  }

  lemma ActorAdvances(t: Tree, versions: seq<nat>, s: Net, a: Action)
    requires Inv(t, versions, s) && Enabled(t, s, a) && !a.Start? && !Apply(t, s, a).failed
    ensures var s', c := Apply(t, s, a), Actor(t, a);
            && c < Size(t) == |s.nodes| == |s'.nodes|
            && (forall j | 0 <= j < Size(t) && j != c :: s'.nodes[j] == s.nodes[j])
            && Steps(|Children(t, c)|, s.nodes[c]) < Steps(|Children(t, c)|, s'.nodes[c])
            && s'.nodes[t.root].asked == s.nodes[t.root].asked
  {
    hide NodeInv, EdgeInv, Handle, Finish, Children, Steps;
    WithinTree(t, versions, s);
    match a
    case FromParent(c) =>
      FromParentNode(t, versions, s, c);
      VotedBefore(t, versions, s, c);
      TakingCounts(t, c, s.nodes[c], Handle(Neighbors(t, c), c, s.nodes[c], s.down[c][0], s.nodes[c].heard));
    case FromChild(d) =>
      var c := t.parent[d];
      FromChildNode(t, versions, s, d);
      ReplyIs(t, versions, s, d);
      Edge(t, versions, s, d);
      var o := Handle(Neighbors(t, c), c, s.nodes[c], s.up[d][0], s.nodes[c].heard + {d});
      if c == t.root {
        RootCountingCounts(t, s.nodes[c], d, o);
      } else {
        CountingCounts(t, c, s.nodes[c], d, o);
      }
    case Spread(d) =>
      SpreadCounts(|Children(t, t.parent[d])|, s.nodes[t.parent[d]], d);
      Edge(t, versions, s, d);
    case Done(c) =>
      Finishes(t, versions, c, s.nodes[c]);
      DoneCounts(|Children(t, c)|, s.nodes[c], Finish(c, s.nodes[c]));
  }

  lemma VotedBefore(t: Tree, versions: seq<nat>, s: Net, c: nat)
    requires Inv(t, versions, s) && Enabled(t, s, FromParent(c))
    ensures |s.nodes[c].votes| == s.nodes[c].asked
  {
    hide NodeInv, EdgeInv;
    AllRounds(t, versions, s);
    if s.nodes[c].asked > s.nodes[c].told {
      CommitAfterVote(t, versions, s, c);
    }
  }

  lemma SpreadCounts(deg: nat, k: Node, d: nat)
    requires k.pc.Spreading? && d !in k.pc.sent
    ensures Steps(deg, k) < Steps(deg, k.(pc := Spreading(k.pc.msg, k.pc.sent + {d})))
  {
  }

  lemma DoneCounts(deg: nat, k: Node, o: Reaction)
    requires k.pc.Spreading? && |k.pc.sent| == deg && o.Go?
    requires o.node == k.(pending := o.node.pending, pc := o.node.pc) && !o.node.pc.Spreading?
    ensures Steps(deg, k) < Steps(deg, o.node)
  {
  }

  // ----- running a round to its end -----

  ghost predicate Reachable(t: Tree, first: Net, versions: seq<nat>, s: Net) {
    exists r :: Run(t, r, versions) && r[0] == first && r[|r| - 1] == s
  }

  lemma ReachStep(t: Tree, first: Net, versions: seq<nat>, s: Net, a: Action)
    requires Reachable(t, first, versions, s) && Enabled(t, s, a)
    ensures Reachable(t, first, versions, Apply(t, s, a))
  {
    hide Init, Enabled, Apply, ValidTree;
    var r :| Run(t, r, versions) && r[0] == first && r[|r| - 1] == s;
    var r' := r + [Apply(t, s, a)];
    assert Next(t, r'[|r'| - 2], r'[|r'| - 1]);
    assert Run(t, r', versions);
  }

  ghost predicate SameRound(t: Tree, s: Net, s': Net) {
    && t.root < |s.nodes| && t.root < |s'.nodes|
    && s'.nodes[t.root].asked == s.nodes[t.root].asked
  }

  lemma RoundBounds(t: Tree, versions: seq<nat>, s: Net)
    requires Inv(t, versions, s)
    ensures t.root < Size(t) == |s.nodes| && 0 <= Left(t, s, s.nodes[t.root].asked, Size(t))
  {
    hide Inv, NodeInv, EdgeInv, Left;
    WithinTree(t, versions, s);
    forall c | 0 <= c < Size(t)
      ensures s.nodes[c].asked <= s.nodes[t.root].asked
    {
      AskedBelowRoot(t, versions, s, c);
    }
    LeftBounded(t, versions, s, s.nodes[t.root].asked, Size(t));
  }

  lemma {:induction false} AskedBelowRoot(t: Tree, versions: seq<nat>, s: Net, c: nat)
    requires Inv(t, versions, s) && c < Size(t)
    ensures s.nodes[c].asked <= s.nodes[t.root].asked
    decreases t.height[t.root] - t.height[c]
  {
    hide Inv, NodeInv, EdgeInv;
    if c != t.root {
      Edge(t, versions, s, c);
      EdgeRounds(t, versions, s, c);
      AskedBelowRoot(t, versions, s, t.parent[c]);
    }
  }

  /** Whatever steps are taken, the round ends: drained, or with a failed assert. */
  lemma {:induction false} EndsRound(t: Tree, first: Net, versions: seq<nat>, s: Net) returns (s': Net)
    requires Reachable(t, first, versions, s) && Inv(t, versions, s)
    ensures Reachable(t, first, versions, s')
    ensures s'.failed || (Inv(t, versions, s') && Drained(t, s') && SameRound(t, s, s'))
    decreases (RoundBounds(t, versions, s); Left(t, s, s.nodes[t.root].asked, Size(t)))
  {
    hide Inv, Apply, Enabled, Left, Drained, Init;
    RoundBounds(t, versions, s);
    s' := s;
    if CanMove(t, s) {
      var a: Action :| !a.Start? && Enabled(t, s, a);
      ReachStep(t, first, versions, s, a);
      var s1 := Apply(t, s, a);
      assert Next(t, s, s1);
      if s1.failed {
        return s1;
      }
      StepKeeps(t, versions, s, s1);
      ActorAdvances(t, versions, s, a);
      LeftShrinks(t, s, s1, s.nodes[t.root].asked, Actor(t, a), Size(t));
      RoundBounds(t, versions, s1);
      s' := EndsRound(t, first, versions, s1);
    } else {
      StuckIsDrained(t, versions, s);
    }
  }

  lemma {:induction false} RunRounds(t: Tree, first: Net, versions: seq<nat>, n: nat) returns (s: Net)
    requires ValidTree(t) && Init(t, first, versions)
    ensures Reachable(t, first, versions, s)
    ensures s.failed || (Inv(t, versions, s) && Drained(t, s) && |s.nodes| == Size(t) && s.nodes[t.root].asked == n)
  {
    hide Inv, NodeInv, EdgeInv;
    if n == 0 {
      s := first;
      InitInv(t, versions, first);
      assert Run(t, [first], versions) && [first][|[first]| - 1] == s;
    } else {
      s := RunRounds(t, first, versions, n - 1);
      if !s.failed {
        ReachStep(t, first, versions, s, Start);
        StartKeeps(t, versions, s);
        s := EndsRound(t, first, versions, Apply(t, s, Start));
        if !s.failed {
          WithinTree(t, versions, s);
        }
      }
    }
  }

  // ----- exactly when no assert fails -----

  /** Away from the requester, no core starts with an older version than a core below it. */
  predicate Ordered(t: Tree, versions: seq<nat>) {
    && |versions| == Size(t)
    && forall d | 0 <= d < Size(t) && d != t.root && 0 <= t.parent[d] < Size(t) && t.parent[d] != t.root ::
      versions[d] <= versions[t.parent[d]]
  }

  lemma {:induction false} OrderedWilling(t: Tree, versions: seq<nat>, c: nat, v: nat)
    requires ValidTree(t) && Ordered(t, versions) && c < Size(t) && c != t.root && versions[c] < v
    ensures Willing(t, versions, c, v)
    decreases t.height[c]
  {
    forall d | 0 <= d < Size(t) && IsChild(t, d, c)
      ensures Willing(t, versions, d, v)
    {
      OrderedWilling(t, versions, d, v);
    }
  }

  lemma OrderedStep(t: Tree, versions: seq<nat>, s: Net, s': Net)
    requires Inv(t, versions, s) && Ordered(t, versions) && Next(t, s, s')
    ensures !s'.failed
  {
    hide NodeInv, EdgeInv, Willing, Handle, Finish;
    var a :| Enabled(t, s, a) && s' == Apply(t, s, a);
    match a
    case Start =>
    case FromParent(c) =>
      FromParentNode(t, versions, s, c);
      if s.down[c][0].Commit? {
        CommitKnown(t, versions, s, c);
      }
    case FromChild(d) => FromChildNode(t, versions, s, d);
    case Spread(_) =>
    case Done(c) =>
      WithinTree(t, versions, s);
      Finishes(t, versions, c, s.nodes[c]);
  }

  lemma CommitKnown(t: Tree, versions: seq<nat>, s: Net, c: nat)
    requires Inv(t, versions, s) && Ordered(t, versions) && Enabled(t, s, FromParent(c)) && s.down[c][0].Commit?
    ensures s.nodes[c].told < s.nodes[c].lastVersion
  {
    hide Willing, AllWilling, Open, SpreadInv, RootInv;
    var k := s.nodes[c];
    Edge(t, versions, s, c);
    AllRounds(t, versions, s);
    MsgNoIs(t.root, k.told);
    assert s.down[c][0] == MsgNo(t.root, Taken(k));
    CommitAfterVote(t, versions, s, c);
    if versions[c] < k.told + 1 {
      OrderedWilling(t, versions, c, k.told + 1);
      assert k.votes[k.told];
    }
  }

  lemma {:induction false} OrderedRun(t: Tree, r: seq<Net>, versions: seq<nat>, i: nat)
    requires Run(t, r, versions) && Ordered(t, versions) && i < |r|
    ensures !r[i].failed
  {
    hide Inv, Apply, Enabled;
    if 0 < i {
      OrderedRun(t, r, versions, i - 1);
      RunKeeps(t, r, versions, i - 1);
      assert Next(t, r[i - 1], r[i]);
      OrderedStep(t, versions, r[i - 1], r[i]);
    }
  }

  /** A commit of a version older than what a core below refused cannot be handled. */
  lemma RefusedFails(t: Tree, versions: seq<nat>, s: Net, d: nat)
    requires Inv(t, versions, s) && Drained(t, s) && d < Size(t) && d != t.root
    requires t.parent[d] != t.root && versions[t.parent[d]] < versions[d]
    ensures s.nodes[t.root].asked != versions[t.parent[d]] + 1
  {
    hide Willing, Inv, EdgeInv, NodeInv;
    Edge(t, versions, s, d);
    var c := t.parent[d];
    DrainedNode(t, versions, s, c);
    WillingSplits(t, versions, c, versions[c] + 1);
    WillingSplits(t, versions, d, versions[c] + 1);
    if s.nodes[t.root].asked == versions[c] + 1 {
      VoteMeans(t, versions, c, s.nodes[c], versions[c]);
      RefusedIsUnknown(t, versions, c, s.nodes[c]);
    }
  }

  /** A core that voted no on the newest version knows nothing newer than it started with, or than the
    * version before. */
  lemma RefusedIsUnknown(t: Tree, versions: seq<nat>, c: nat, k: Node)
    requires ValidTree(t) && |versions| == Size(t) && c < Size(t) && c != t.root && NodeInv(t, versions, c, k)
    requires k.votes != [] && !k.votes[|k.votes| - 1] && k.told == |k.votes| == versions[c] + 1
    ensures false
  {
    hide Willing, AllWilling, Open;
  }

  /** No run on this tree from these versions ever fails an assert. */
  ghost predicate NeverFails(t: Tree, versions: seq<nat>) {
    forall r: seq<Net>, i: nat | Run(t, r, versions) && i < |r| :: !r[i].failed
  }

  function Fresh(t: Tree, versions: seq<nat>): (s: Net)
    requires ValidTree(t) && |versions| == Size(t)
    ensures Init(t, s, versions)
  {
    Net(seq(Size(t), c requires 0 <= c < Size(t) =>
              Node(versions[c], 0, [], if c == t.root then Between else Polling, 0, {}, [], 0)),
        seq(Size(t), _ => []), seq(Size(t), _ => []), false)
  }

  /** Exactly when no assert can fail, in any number of rounds: the versions the cores start with do not
    * increase away from the requester. In particular, they may all be 0. */
  lemma AssertCondition(t: Tree, versions: seq<nat>)
    requires ValidTree(t) && |versions| == Size(t)
    ensures Ordered(t, versions) <==> NeverFails(t, versions)
  {
    hide Run, Inv, Fresh, Drained;
    if Ordered(t, versions) {
      forall r: seq<Net>, i: nat | Run(t, r, versions) && i < |r|
        ensures !r[i].failed
      {
        OrderedRun(t, r, versions, i);
      }
    } else {
      var d: nat :| d < Size(t) && d != t.root && t.parent[d] != t.root && versions[t.parent[d]] < versions[d];
      var s := RunRounds(t, Fresh(t, versions), versions, versions[t.parent[d]] + 1);
      if !s.failed {
        RefusedFails(t, versions, s, d);
      }
      var r := RunTo(t, Fresh(t, versions), versions, s);
      var i: nat := |r| - 1;
      assert r[i].failed;
    }
  }

  lemma RunTo(t: Tree, first: Net, versions: seq<nat>, s: Net) returns (r: seq<Net>)
    requires Reachable(t, first, versions, s)
    ensures r != [] && Run(t, r, versions) && r[|r| - 1] == s
  {
    r :| Run(t, r, versions) && r[0] == first && r[|r| - 1] == s;
  }
}
