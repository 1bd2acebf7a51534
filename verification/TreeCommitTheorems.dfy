/** What holds in every run of the tree two-phase commit with one requester, on every tree. */
module TreeCommitTheorems {
  import opened Trees
  import opened TreeCommit
  import opened TreeCommitSafety

  lemma {:induction false} RunKeeps(t: Tree, r: seq<Net>, versions: seq<nat>, i: nat)
    requires Run(t, r, versions) && i < |r| && !r[i].failed
    ensures Inv(t, versions, r[i])
  {
    hide Inv, Apply;
    if i == 0 {
      InitInv(t, versions, r[0]);
    } else {
      assert Next(t, r[i - 1], r[i]);
      RunKeeps(t, r, versions, i - 1);
      StepKeeps(t, versions, r[i - 1], r[i]);
    }
  }

  /** The requester decides on a version only after every other core has voted on it. */
  lemma DecidesAfterAllVotes(t: Tree, r: seq<Net>, versions: seq<nat>, i: nat, c: nat)
    requires Run(t, r, versions) && i < |r| && !r[i].failed && c < Size(t)
    ensures |r[i].nodes| == Size(t) && t.root < Size(t)
    ensures |r[i].nodes[t.root].votes| <= |r[i].nodes[c].votes|
  {
    RunKeeps(t, r, versions, i);
    TowardsRoot(t, versions, r[i], c);
  }

  // ----- what the requester decides -----

  ghost predicate OthersWilling(t: Tree, versions: seq<nat>, v: nat)
    requires ValidTree(t) && |versions| == Size(t)
  {
    forall c | 0 <= c < Size(t) && c != t.root :: Willing(t, versions, c, v)
  }

  lemma {:induction false} WillingDown(t: Tree, versions: seq<nat>, v: nat, c: nat)
    requires ValidTree(t) && |versions| == Size(t) && c < Size(t) && c != t.root
    requires AllWilling(t, versions, t.root, Children(t, t.root), v)
    ensures Willing(t, versions, c, v)
    decreases t.height[t.root] - t.height[c]
  {
    var p := t.parent[c];
    assert c in Children(t, p);
    if p != t.root {
      WillingDown(t, versions, v, p);
    }
  }

  /** Everybody below the requester answers yes exactly if everybody knew only older versions. */
  lemma WillingIsNewer(t: Tree, versions: seq<nat>, v: nat)
    requires ValidTree(t) && |versions| == Size(t)
    ensures AllWilling(t, versions, t.root, Children(t, t.root), v) <==> OthersWilling(t, versions, v)
    ensures OthersWilling(t, versions, v) <==> forall c | 0 <= c < Size(t) && c != t.root :: versions[c] < v
  {
    if AllWilling(t, versions, t.root, Children(t, t.root), v) {
      forall c | 0 <= c < Size(t) && c != t.root
        ensures Willing(t, versions, c, v)
      {
        WillingDown(t, versions, v, c);
      }
    }
    if OthersWilling(t, versions, v) {
      forall c | 0 <= c < Size(t) && c != t.root
        ensures versions[c] < v
      {
        assert Willing(t, versions, c, v);
      }
    }
    if forall c | 0 <= c < Size(t) && c != t.root :: versions[c] < v {
      forall c | 0 <= c < Size(t) && c != t.root
        ensures Willing(t, versions, c, v)
      {
        NewerIsWilling(t, versions, v, c);
      }
    }
  }

  lemma {:induction false} NewerIsWilling(t: Tree, versions: seq<nat>, v: nat, c: nat)
    requires ValidTree(t) && |versions| == Size(t) && c < Size(t) && c != t.root
    requires forall j | 0 <= j < Size(t) && j != t.root :: versions[j] < v
    ensures Willing(t, versions, c, v)
    decreases t.height[c]
  {
    forall d | 0 <= d < Size(t) && IsChild(t, d, c)
      ensures Willing(t, versions, d, v)
    {
      NewerIsWilling(t, versions, v, d);
    }
  }

  lemma VoteMeans(t: Tree, versions: seq<nat>, c: nat, k: Node, j: nat)
    requires ValidTree(t) && |versions| == Size(t) && c < Size(t) && NodeInv(t, versions, c, k) && j < |k.votes|
    ensures c != t.root ==> (k.votes[j] <==> Willing(t, versions, c, j + 1))
    ensures c == t.root ==> (k.votes[j] <==> AllWilling(t, versions, c, Children(t, c), j + 1))
  {
    hide Willing, AllWilling;
  }

  /** The decision on version `j + 1` is the conjunction of the votes of all other cores, and it is yes exactly
    * if all of them started with older versions. */
  lemma DecisionIsConjunction(t: Tree, r: seq<Net>, versions: seq<nat>, i: nat, j: nat)
    requires Run(t, r, versions) && i < |r| && !r[i].failed
    requires t.root < |r[i].nodes| && j < |r[i].nodes[t.root].votes|
    ensures |r[i].nodes| == Size(t) == |versions|
    ensures forall c | 0 <= c < Size(t) :: j < |r[i].nodes[c].votes|
    ensures r[i].nodes[t.root].votes[j] <==> forall c | 0 <= c < Size(t) && c != t.root :: r[i].nodes[c].votes[j]
    ensures r[i].nodes[t.root].votes[j] <==> forall c | 0 <= c < Size(t) && c != t.root :: versions[c] <= j
  {
    hide Willing, AllWilling, Inv, NodeInv;
    var s := r[i];
    RunKeeps(t, r, versions, i);
    WithinTree(t, versions, s);
    WillingIsNewer(t, versions, j + 1);
    forall c | 0 <= c < Size(t)
      ensures j < |s.nodes[c].votes|
      ensures c != t.root ==> (s.nodes[c].votes[j] <==> Willing(t, versions, c, j + 1))
    {
      TowardsRoot(t, versions, s, c);
      VoteMeans(t, versions, c, s.nodes[c], j);
    }
    VoteMeans(t, versions, t.root, s.nodes[t.root], j);
    if !OthersWilling(t, versions, j + 1) {
      var c :| 0 <= c < Size(t) && c != t.root && !Willing(t, versions, c, j + 1);
      assert !s.nodes[c].votes[j];
    }
  }

  // ----- what is left behind -----

  ghost predicate Drained(t: Tree, s: Net) {
    && Shaped(t, s) && s.nodes[t.root].pc.Between?
    && (forall d | 0 <= d < Size(t) && d != t.root :: s.up[d] == [] && s.down[d] == [] && s.nodes[d].pc.Polling?)
  }

  /** Between rounds, once the last commit has been passed on everywhere, no core has an open request, and
    * every core but the requester has committed every version asked for. */
  lemma DrainedIsClean(t: Tree, r: seq<Net>, versions: seq<nat>, i: nat, c: nat)
    requires Run(t, r, versions) && i < |r| && !r[i].failed && Drained(t, r[i]) && c < Size(t)
    ensures var s := r[i];
            && s.nodes[c].pending == []
            && s.nodes[c].asked == s.nodes[c].told == |s.nodes[c].votes| == s.nodes[t.root].asked
            && (c != t.root ==> s.nodes[c].lastCommitted == s.nodes[t.root].asked)
  {
    RunKeeps(t, r, versions, i);
    DrainedNode(t, versions, r[i], c);
  }

  lemma {:induction false} DrainedRounds(t: Tree, versions: seq<nat>, s: Net, c: nat)
    requires Inv(t, versions, s) && Drained(t, s) && c < Size(t)
    ensures s.nodes[c].asked == s.nodes[c].told == s.nodes[t.root].asked
    decreases t.height[t.root] - t.height[c]
  {
    hide Willing, AllWilling, NodeInv, Inv;
    AllRounds(t, versions, s);
    if c != t.root {
      Edge(t, versions, s, c);
      DrainedRounds(t, versions, s, t.parent[c]);
    } else {
      BetweenRounds(t, versions, s);
    }
  }

  lemma BetweenRounds(t: Tree, versions: seq<nat>, s: Net)
    requires Inv(t, versions, s) && s.nodes[t.root].pc.Between?
    ensures s.nodes[t.root].asked == s.nodes[t.root].told && s.nodes[t.root].pending == []
  {
    hide Willing, AllWilling, OtherInv;
    assert NodeInv(t, versions, t.root, s.nodes[t.root]);
  }

  lemma DrainedNode(t: Tree, versions: seq<nat>, s: Net, c: nat)
    requires Inv(t, versions, s) && Drained(t, s) && c < Size(t)
    ensures var k := s.nodes[c];
            && k.pending == [] && k.asked == k.told == |k.votes| == s.nodes[t.root].asked
            && (c != t.root ==> k.lastCommitted == k.told <= k.lastVersion)
  {
    hide Willing, AllWilling, Open;
    DrainedRounds(t, versions, s, c);
    BetweenRounds(t, versions, s);
    assert NodeInv(t, versions, c, s.nodes[c]);
  }

  /** At most two messages on the way down an edge, one on the way up. */
  lemma ChannelBounds(t: Tree, r: seq<Net>, versions: seq<nat>, i: nat, d: nat)
    requires Run(t, r, versions) && i < |r| && !r[i].failed && d < Size(t) && d != t.root
    ensures |r[i].up| == |r[i].down| == Size(t) && |r[i].up[d]| <= 1 && |r[i].down[d]| <= 2
  {
    hide NodeInv, MsgNo;
    var s := r[i];
    RunKeeps(t, r, versions, i);
    Edge(t, versions, s, d);
    AllRounds(t, versions, s);
    EdgeRounds(t, versions, s, d);
    TowardsRoot(t, versions, s, d);
    TowardsRoot(t, versions, s, t.parent[d]);
  }
}
