/** What every run of the tree two-phase commit keeps, whatever versions the cores start with. */
module TreeCommitSafety {
  import opened Trees
  import opened TreeCommit
  import opened Wrappers

  // ----- what a core answers -----

  /** Core `c` and everything below it know only older versions. */
  predicate Willing(t: Tree, versions: seq<nat>, c: nat, v: nat)
    requires ValidTree(t) && |versions| == Size(t) && c < Size(t)
    decreases t.height[c]
  {
    versions[c] < v && forall d | 0 <= d < Size(t) && IsChild(t, d, c) :: Willing(t, versions, d, v)
  }

  ghost predicate AllWilling(t: Tree, versions: seq<nat>, c: nat, heard: set<nat>, v: nat)
    requires ValidTree(t) && |versions| == Size(t) && c < Size(t)
  {
    forall d | d in heard && d in Children(t, c) :: Willing(t, versions, d, v)
  }

  // ----- invariant -----

  /** The `k`-th message the requester's neighbours are sent. */
  function MsgNo(root: nat, k: nat): Msg {
    if k % 2 == 0 then Req(root, k / 2 + 1) else Commit(root, k / 2 + 1)
  }

  lemma MsgNoIs(root: nat, j: nat)
    ensures MsgNo(root, 2 * j) == Req(root, j + 1) && MsgNo(root, 2 * j + 1) == Commit(root, j + 1)
  {
  }

  function Taken(k: Node): nat {
    k.asked + k.told
  }

  function SentOn(k: Node, d: nat): int {
    k.asked + k.told - if k.pc.Spreading? && d !in k.pc.sent then 1 else 0
  }

  function Gathered(k: Node, d: nat): nat {
    |k.votes| + if k.asked > |k.votes| && d in k.heard then 1 else 0
  }

  ghost predicate EdgeInv(t: Tree, d: nat, child: Node, parent: Node, up: seq<Msg>, down: seq<Msg>) {
    && |up| == |child.votes| - Gathered(parent, d)
    && |down| == SentOn(parent, d) - Taken(child)
    && (forall j | 0 <= j < |up| ::
          up[j] == Reply(t.root, Gathered(parent, d) + j + 1, child.votes[Gathered(parent, d) + j]))
    && (forall j | 0 <= j < |down| :: down[j] == MsgNo(t.root, Taken(child) + j))
  }

  predicate Rounds(k: Node) {
    k.told <= |k.votes| <= k.asked <= k.told + 1
  }

  /** The open request of a core that has heard from `heard` in round `asked`. */
  ghost predicate Open(t: Tree, versions: seq<nat>, c: nat, k: Node)
    requires ValidTree(t) && |versions| == Size(t) && c < Size(t)
  {
    && k.heard <= Children(t, c) && k.asked == k.told + 1
    && |k.pending| == 1
    && k.pending[0].core == t.root && k.pending[0].version == k.asked && k.pending[0].numResp == |k.heard|
    && (k.pending[0].accept <==> AllWilling(t, versions, c, k.heard, k.asked))
  }

  ghost predicate SpreadInv(t: Tree, c: nat, k: Node)
    requires k.pc.Spreading?
  {
    && k.pc.sent <= Children(t, c) && Children(t, c) != {}
    && match k.pc.msg
       case Req(node, v) =>
         && node == t.root && v == k.asked == k.told + 1 == |k.votes| + 1
         && k.pending == [] && k.heard == {}
       case Commit(node, v) =>
         && node == t.root && 0 < v == k.told == k.asked == |k.votes|
         && (if c == t.root then |k.pending| == 1 && k.pending[0].core == t.root && k.pending[0].version == v
             else k.pending == [])
       case Reply(_, _, _) => false
  }

  ghost predicate RootInv(t: Tree, versions: seq<nat>, k: Node)
    requires ValidTree(t) && |versions| == Size(t)
  {
    && Rounds(k) && |k.votes| == k.told
    && (forall j | 0 <= j < |k.votes| :: k.votes[j] <==> AllWilling(t, versions, t.root, Children(t, t.root), j + 1))
    && match k.pc
       case Between => k.asked == k.told && k.pending == []
       case Polling => Open(t, versions, t.root, k) && k.heard != Children(t, t.root)
       case Spreading(_, _) => SpreadInv(t, t.root, k)
  }

  /** The version a core knows is what it started with or one it agreed to, and covers every commit. */
  ghost predicate VersionInv(t: Tree, versions: seq<nat>, c: nat, k: Node)
    requires ValidTree(t) && |versions| == Size(t) && c < Size(t)
  {
    && versions[c] <= k.lastVersion
    && (k.lastVersion == versions[c] || (0 < k.lastVersion <= |k.votes| && k.votes[k.lastVersion - 1]))
    && k.told <= k.lastVersion && k.lastCommitted == k.told
    && (k.votes != [] && k.votes[|k.votes| - 1] ==> |k.votes| <= k.lastVersion)
  }

  ghost predicate OtherInv(t: Tree, versions: seq<nat>, c: nat, k: Node)
    requires ValidTree(t) && |versions| == Size(t) && c < Size(t)
  {
    && Rounds(k) && VersionInv(t, versions, c, k)
    && (forall j | 0 <= j < |k.votes| :: k.votes[j] <==> Willing(t, versions, c, j + 1))
    && match k.pc
       case Between => false
       case Polling =>
         if Children(t, c) == {} then k.pending == [] && |k.votes| == k.asked
         else if k.asked == k.told then k.pending == []
         else Open(t, versions, c, k) && (|k.votes| == k.asked <==> k.heard == Children(t, c))
       case Spreading(_, _) => SpreadInv(t, c, k)
  }

  ghost predicate NodeInv(t: Tree, versions: seq<nat>, c: nat, k: Node)
    requires ValidTree(t) && |versions| == Size(t) && c < Size(t)
  {
    if c == t.root then RootInv(t, versions, k) else OtherInv(t, versions, c, k)
  }

  ghost predicate EdgeHolds(t: Tree, s: Net, e: nat) {
    && e < Size(t) && e < |s.nodes| && e < |s.up| && e < |s.down| && t.parent[e] < |s.nodes|
    && EdgeInv(t, e, s.nodes[e], s.nodes[t.parent[e]], s.up[e], s.down[e])
  }

  ghost predicate Inv(t: Tree, versions: seq<nat>, s: Net) {
    && ValidTree(t) && Shaped(t, s) && |versions| == Size(t) && !s.failed
    && (forall c | 0 <= c < Size(t) :: NodeInv(t, versions, c, s.nodes[c]))
    && (forall d | 0 <= d < Size(t) && d != t.root :: EdgeHolds(t, s, d))
  }

  lemma InitInv(t: Tree, versions: seq<nat>, s: Net)
    requires ValidTree(t) && Init(t, s, versions)
    ensures Inv(t, versions, s)
  {
    hide NodeInv, EdgeInv;
    forall c | 0 <= c < Size(t)
      ensures NodeInv(t, versions, c, s.nodes[c])
    {
      InitNode(t, versions, c, s.nodes[c]);
    }
    forall d | 0 <= d < Size(t) && d != t.root
      ensures EdgeInv(t, d, s.nodes[d], s.nodes[t.parent[d]], s.up[d], s.down[d])
    {
      InitEdge(t, d, s.nodes[d], s.nodes[t.parent[d]]);
    }
  }

  lemma InitNode(t: Tree, versions: seq<nat>, c: nat, k: Node)
    requires ValidTree(t) && |versions| == Size(t) && c < Size(t)
    requires k == Node(versions[c], 0, [], if c == t.root then Between else Polling, 0, {}, [], 0)
    ensures NodeInv(t, versions, c, k)
  {
    hide Willing, AllWilling;
  }

  lemma InitEdge(t: Tree, d: nat, child: Node, parent: Node)
    requires child.asked == child.told == parent.asked == parent.told == 0 && child.votes == parent.votes == []
    requires !parent.pc.Spreading?
    ensures EdgeInv(t, d, child, parent, [], [])
  {
  }

  // ----- the list of open requests -----

  lemma FindOnly(list: seq<Pending>, core: nat, version: nat)
    requires |list| == 1 && list[0].core == core && list[0].version == version
    ensures Find(list, core, version) == 0 && Deleted(list, 0) == []
  {
  }

  // ----- one handler at one core -----

  /** A core took one message from its parent: it owes its children one message more, and answers when it
    * votes. */
  ghost predicate TookOne(t: Tree, c: nat, k: Node, o: Reaction) {
    && o.Go? && Taken(o.node) == Taken(k) + 1
    && (forall d | d in Children(t, c) :: SentOn(o.node, d) == SentOn(k, d) && Gathered(o.node, d) == Gathered(k, d))
    && Answers(t, k, o)
  }

  /** At most one vote more, sent in the answer. */
  ghost predicate Answers(t: Tree, k: Node, o: Reaction)
    requires o.Go?
  {
    && k.votes <= o.node.votes && |o.node.votes| <= |k.votes| + 1
    && o.answer == (if o.node.votes == k.votes then []
                    else [Reply(t.root, |o.node.votes|, o.node.votes[|k.votes|])])
  }

  lemma TakesRequest(t: Tree, versions: seq<nat>, c: nat, k: Node)
    requires ValidTree(t) && |versions| == Size(t) && c < Size(t) && c != t.root
    requires OtherInv(t, versions, c, k) && k.pc.Polling? && k.asked == k.told
    ensures var o := Handle(Neighbors(t, c), c, k, Req(t.root, k.asked + 1), k.heard);
            o.Go? && TookOne(t, c, k, o) && OtherInv(t, versions, c, o.node)
  {
    hide Willing, AllWilling;
    if Children(t, c) == {} {
      Leaf(t, versions, c, k.asked + 1);
    }
  }

  lemma Leaf(t: Tree, versions: seq<nat>, c: nat, v: nat)
    requires ValidTree(t) && |versions| == Size(t) && c < Size(t) && Children(t, c) == {}
    ensures Willing(t, versions, c, v) <==> versions[c] < v
  {
    assert forall d | 0 <= d < Size(t) && IsChild(t, d, c) :: d in Children(t, c);
  }

  lemma WillingSplits(t: Tree, versions: seq<nat>, c: nat, v: nat)
    requires ValidTree(t) && |versions| == Size(t) && c < Size(t)
    ensures Willing(t, versions, c, v) <==> versions[c] < v && AllWilling(t, versions, c, Children(t, c), v)
  {
    assert forall d | 0 <= d < Size(t) && IsChild(t, d, c) :: d in Children(t, c);
  }

  lemma TakesCommit(t: Tree, versions: seq<nat>, c: nat, k: Node)
    requires ValidTree(t) && |versions| == Size(t) && c < Size(t) && c != t.root
    requires OtherInv(t, versions, c, k) && k.pc.Polling? && |k.votes| == k.asked == k.told + 1
    ensures var o := Handle(Neighbors(t, c), c, k, Commit(t.root, k.told + 1), k.heard);
            && (o.AssertFails? <==> k.lastVersion < k.told + 1)
            && (o.Go? ==> TookOne(t, c, k, o) && OtherInv(t, versions, c, o.node))
  {
    hide Willing, AllWilling;
    if Children(t, c) != {} {
      FindOnly(k.pending, t.root, k.asked);
    }
  }

  lemma ReplyCounted(t: Tree, versions: seq<nat>, c: nat, k: Node, d: nat, yes: bool)
    requires ValidTree(t) && |versions| == Size(t) && c < Size(t)
    requires Open(t, versions, c, k) && d in Children(t, c) && d !in k.heard
    requires yes <==> Willing(t, versions, d, k.asked)
    ensures Find(k.pending, t.root, k.asked) == 0
    ensures var e := CountReply(k.pending[0], yes);
            && e.core == t.root && e.version == k.asked && e.numResp == |k.heard + {d}|
            && (e.accept <==> AllWilling(t, versions, c, k.heard + {d}, k.asked))
            && k.heard + {d} <= Children(t, c)
            && (e.numResp >= |Children(t, c)| <==> k.heard + {d} == Children(t, c))
  {
    hide Willing;
    FindOnly(k.pending, t.root, k.asked);
    SubsetCard(k.heard + {d}, Children(t, c));
  }

  /** A core counted the reply of child `d`; it answers when that was the last one. */
  ghost predicate Counted(t: Tree, c: nat, k: Node, d: nat, o: Reaction) {
    && o.Go? && Answers(t, k, o)
    && o.node.asked == k.asked && o.node.told == k.told && o.node.pc == k.pc && o.node.heard == k.heard + {d}
    && (|k.votes| < |o.node.votes| ==> o.node.heard == Children(t, c))
    && (forall e | e in Children(t, c) ::
          SentOn(o.node, e) == SentOn(k, e) && Gathered(o.node, e) == Gathered(k, e) + if e == d then 1 else 0)
  }

  lemma LastReply(t: Tree, versions: seq<nat>, c: nat, k: Node, accept: bool)
    requires ValidTree(t) && |versions| == Size(t) && c < Size(t) && c != t.root
    requires Rounds(k) && VersionInv(t, versions, c, k) && k.pc.Polling? && |k.votes| < k.asked
    requires forall j | 0 <= j < |k.votes| :: k.votes[j] <==> Willing(t, versions, c, j + 1)
    requires Open(t, versions, c, k) && k.heard == Children(t, c) != {} && accept == k.pending[0].accept
    ensures var o := CastVote(k, t.root, k.asked, accept);
            && o.Go? && OtherInv(t, versions, c, o.node) && Answers(t, k, o)
            && o.node == k.(lastVersion := o.node.lastVersion, votes := o.node.votes) && |o.node.votes| == k.asked
  {
    hide Willing, AllWilling, Children;
    WillingSplits(t, versions, c, k.asked);
  }

  lemma HearsReply(t: Tree, versions: seq<nat>, c: nat, k: Node, d: nat, yes: bool)
    requires ValidTree(t) && |versions| == Size(t) && c < Size(t) && c != t.root
    requires OtherInv(t, versions, c, k) && k.pc.Polling? && |k.votes| < k.asked
    requires d in Children(t, c) && d !in k.heard && (yes <==> Willing(t, versions, d, k.asked))
    ensures var o := Handle(Neighbors(t, c), c, k, Reply(t.root, k.asked, yes), k.heard + {d});
            Counted(t, c, k, d, o) && OtherInv(t, versions, c, o.node)
  {
    hide Willing, AllWilling, Find, Children, VersionInv, CastVote;
    ReplyCounted(t, versions, c, k, d, yes);
    var e := CountReply(k.pending[0], yes);
    var k1 := k.(pending := k.pending[0 := e], heard := k.heard + {d});
    SameVersions(t, versions, c, k, k1);
    if k1.heard == Children(t, c) {
      LastReply(t, versions, c, k1, e.accept);
    }
  }

  lemma SameVersions(t: Tree, versions: seq<nat>, c: nat, k: Node, k1: Node)
    requires ValidTree(t) && |versions| == Size(t) && c < Size(t) && VersionInv(t, versions, c, k)
    requires k1 == k.(pending := k1.pending, heard := k1.heard)
    ensures VersionInv(t, versions, c, k1)
  {
  }

  /** The requester counted the reply of child `d`; the last one starts phase 2. */
  ghost predicate RootCounted(t: Tree, k: Node, d: nat, o: Reaction) {
    && o.Go? && o.answer == [] && o.node.asked == k.asked && o.node.heard == k.heard + {d}
    && (if o.node.heard == Children(t, t.root) then
          o.node.told == k.told + 1 && |o.node.votes| == |k.votes| + 1
        else o.node.told == k.told && o.node.votes == k.votes && o.node.pc == k.pc)
    && (forall e | e in Children(t, t.root) ::
          SentOn(o.node, e) == SentOn(k, e) && Gathered(o.node, e) == Gathered(k, e) + if e == d then 1 else 0)
  }

  lemma RootHears(t: Tree, versions: seq<nat>, k: Node, d: nat, yes: bool)
    requires ValidTree(t) && |versions| == Size(t)
    requires RootInv(t, versions, k) && k.pc.Polling?
    requires d in Children(t, t.root) && d !in k.heard && (yes <==> Willing(t, versions, d, k.asked))
    ensures var o := Handle(Neighbors(t, t.root), t.root, k, Reply(t.root, k.asked, yes), k.heard + {d});
            RootCounted(t, k, d, o) && RootInv(t, versions, o.node)
  {
    hide Willing, AllWilling, Find, Children;
    RootHasChild(t);
    ReplyCounted(t, versions, t.root, k, d, yes);
  }

  lemma Finishes(t: Tree, versions: seq<nat>, c: nat, k: Node)
    requires ValidTree(t) && |versions| == Size(t) && c < Size(t)
    requires NodeInv(t, versions, c, k) && k.pc.Spreading? && k.pc.sent == Children(t, c)
    ensures var o := Finish(c, k);
            && o.Go? && NodeInv(t, versions, c, o.node) && o.answer == []
            && o.node == k.(pending := o.node.pending, pc := o.node.pc) && !o.node.pc.Spreading?
  {
    hide Willing;
    if k.pc.msg.Commit? && c == t.root {
      FindOnly(k.pending, c, k.told);
    }
  }

  // ----- chains along the tree -----

  lemma Edge(t: Tree, versions: seq<nat>, s: Net, d: nat)
    requires Inv(t, versions, s) && d < Size(t) && d != t.root
    ensures ValidTree(t) && |versions| == Size(t)
    ensures t.parent[d] < Size(t) && t.parent[d] != d && d in Children(t, t.parent[d])
    ensures t.height[d] < t.height[t.parent[d]] <= t.height[t.root]
    ensures EdgeInv(t, d, s.nodes[d], s.nodes[t.parent[d]], s.up[d], s.down[d])
    ensures NodeInv(t, versions, d, s.nodes[d]) && NodeInv(t, versions, t.parent[d], s.nodes[t.parent[d]])
  {
    assert EdgeHolds(t, s, d);
  }

  lemma NodeRounds(t: Tree, versions: seq<nat>, c: nat, k: Node)
    requires ValidTree(t) && |versions| == Size(t) && c < Size(t) && NodeInv(t, versions, c, k)
    ensures Rounds(k) && (c == t.root ==> |k.votes| == k.told)
  {
  }

  /** Neighbouring cores are at most one step apart. */
  lemma EdgeRounds(t: Tree, versions: seq<nat>, s: Net, d: nat)
    requires Inv(t, versions, s) && d < Size(t) && d != t.root
    ensures var child, parent := s.nodes[d], s.nodes[t.parent[d]];
            && |parent.votes| <= Gathered(parent, d) <= |child.votes| && child.told <= parent.told
            && child.asked <= parent.asked
            && (s.down[d] != [] && child.asked > child.told ==> child.told < parent.told)
            && (s.up[d] != [] ==> parent.asked == |parent.votes| + 1 == parent.told + 1 && d !in parent.heard)
  {
    hide NodeInv, Willing;
    Edge(t, versions, s, d);
    NodeRounds(t, versions, d, s.nodes[d]);
    NodeRounds(t, versions, t.parent[d], s.nodes[t.parent[d]]);
  }

  lemma {:induction false} TowardsRoot(t: Tree, versions: seq<nat>, s: Net, c: nat)
    requires Inv(t, versions, s) && c < Size(t)
    ensures |s.nodes[t.root].votes| <= |s.nodes[c].votes| && s.nodes[c].told <= s.nodes[t.root].told
    decreases t.height[t.root] - t.height[c]
  {
    hide Inv, NodeInv, EdgeInv;
    if c != t.root {
      Edge(t, versions, s, c);
      EdgeRounds(t, versions, s, c);
      TowardsRoot(t, versions, s, t.parent[c]);
    }
  }

  /** A commit reaches a core only after it has voted. */
  lemma CommitAfterVote(t: Tree, versions: seq<nat>, s: Net, c: nat)
    requires Inv(t, versions, s) && c < Size(t) && c != t.root && s.down[c] != []
    requires s.nodes[c].asked > s.nodes[c].told
    ensures |s.nodes[c].votes| == s.nodes[c].asked == s.nodes[c].told + 1
  {
    hide Inv, NodeInv, EdgeInv;
    Edge(t, versions, s, c);
    EdgeRounds(t, versions, s, c);
    TowardsRoot(t, versions, s, t.parent[c]);
    TowardsRoot(t, versions, s, c);
    AllRounds(t, versions, s);
  }

  lemma AllRounds(t: Tree, versions: seq<nat>, s: Net)
    requires Inv(t, versions, s)
    ensures t.root < Size(t) == |s.nodes| && |s.nodes[t.root].votes| == s.nodes[t.root].told
    ensures forall c | 0 <= c < Size(t) :: Rounds(s.nodes[c])
  {
    forall c | 0 <= c < Size(t)
      ensures Rounds(s.nodes[c])
    {
      NodeRounds(t, versions, c, s.nodes[c]);
    }
    NodeRounds(t, versions, t.root, s.nodes[t.root]);
  }

  // ----- one step -----

  /** The core can take this step, and no assert fails in it. */
  ghost predicate Goes(t: Tree, s: Net, a: Action) {
    Enabled(t, s, a) && !Apply(t, s, a).failed
  }

  lemma StartKeeps(t: Tree, versions: seq<nat>, s: Net)
    requires Inv(t, versions, s) && Enabled(t, s, Start)
    ensures Inv(t, versions, Apply(t, s, Start))
  {
    hide Willing, AllWilling, OtherInv;
    var s' := Apply(t, s, Start);
    assert NodeInv(t, versions, t.root, s.nodes[t.root]);
    RootHasChild(t);
    forall d | 0 <= d < Size(t) && d != t.root
      ensures EdgeInv(t, d, s'.nodes[d], s'.nodes[t.parent[d]], s'.up[d], s'.down[d])
    {
      Edge(t, versions, s, d);
    }
    forall c | 0 <= c < Size(t)
      ensures NodeInv(t, versions, c, s'.nodes[c])
    {
      assert NodeInv(t, versions, c, s.nodes[c]);
    }
  }

  lemma RootHasChild(t: Tree)
    requires ValidTree(t)
    ensures Children(t, t.root) != {}
  {
    var d :| IsChild(t, d, t.root);
    assert d in Children(t, t.root);
  }

  lemma FromParentNode(t: Tree, versions: seq<nat>, s: Net, c: nat)
    requires Inv(t, versions, s) && Enabled(t, s, FromParent(c))
    ensures var k := s.nodes[c];
            var o := Handle(Neighbors(t, c), c, k, s.down[c][0], k.heard);
            && (o.AssertFails? <==> s.down[c][0].Commit? && k.lastVersion < k.told + 1)
            && (o.Go? ==> TookOne(t, c, k, o) && NodeInv(t, versions, c, o.node))
  {
    hide Willing, AllWilling, Open, Handle, VersionInv, Inv, TookOne, MsgNo;
    var k := s.nodes[c];
    Edge(t, versions, s, c);
    NodeRounds(t, versions, c, k);
    MsgNoIs(t.root, k.told);
    assert s.down[c][0] == MsgNo(t.root, Taken(k));
    if k.asked == k.told {
      TakesRequest(t, versions, c, k);
    } else {
      CommitAfterVote(t, versions, s, c);
      TakesCommit(t, versions, c, k);
    }
  }

  lemma FromParentEdge(t: Tree, versions: seq<nat>, s: Net, c: nat, e: nat)
    requires Goes(t, s, FromParent(c)) && e < Size(t) && e != t.root && Inv(t, versions, s)
    ensures EdgeHolds(t, Apply(t, s, FromParent(c)), e)
  {
    hide Handle, NodeInv, SentOn, MsgNo, Inv;
    FromParentNode(t, versions, s, c);
    Edge(t, versions, s, e);
  }

  lemma FromParentKeeps(t: Tree, versions: seq<nat>, s: Net, c: nat)
    requires Inv(t, versions, s) && Enabled(t, s, FromParent(c)) && !Apply(t, s, FromParent(c)).failed
    ensures Inv(t, versions, Apply(t, s, FromParent(c)))
  {
    hide Handle, NodeInv, EdgeInv, TookOne;
    FromParentNode(t, versions, s, c);
    forall e | 0 <= e < Size(t) && e != t.root
      ensures EdgeHolds(t, Apply(t, s, FromParent(c)), e)
    {
      FromParentEdge(t, versions, s, c, e);
    }
  }

  lemma ReplyIs(t: Tree, versions: seq<nat>, s: Net, d: nat)
    requires Inv(t, versions, s) && d < Size(t) && d != t.root && s.up[d] != []
    ensures var k := s.nodes[t.parent[d]];
            && |k.votes| + 1 == k.asked == k.told + 1 && d !in k.heard
            && s.up[d][0].Reply? && s.up[d][0] == Reply(t.root, k.asked, s.up[d][0].yes)
            && (s.up[d][0].yes <==> Willing(t, versions, d, k.asked))
  {
    hide Willing, AllWilling, VersionInv, Open, SpreadInv, RootInv;
    Edge(t, versions, s, d);
    EdgeRounds(t, versions, s, d);
  }

  lemma FromChildNode(t: Tree, versions: seq<nat>, s: Net, d: nat)
    requires Inv(t, versions, s) && Enabled(t, s, FromChild(d))
    ensures var c := t.parent[d];
            var k := s.nodes[c];
            var o := Handle(Neighbors(t, c), c, k, s.up[d][0], k.heard + {d});
            && o.Go? && NodeInv(t, versions, c, o.node)
            && (if c == t.root then RootCounted(t, k, d, o) else Counted(t, c, k, d, o))
  {
    hide Willing, AllWilling, Handle, OtherInv, RootInv, EdgeInv, Inv;
    ReplyIs(t, versions, s, d);
    Edge(t, versions, s, d);
    var c := t.parent[d];
    if c == t.root {
      RootHears(t, versions, s.nodes[c], d, s.up[d][0].yes);
    } else {
      HearsReply(t, versions, c, s.nodes[c], d, s.up[d][0].yes);
    }
  }

  /** The edge to child `e` after its parent counted the reply of child `d`. */
  lemma EdgeBelow(t: Tree, e: nat, child: Node, parent: Node, parent': Node, up: seq<Msg>, down: seq<Msg>, d: nat)
    requires EdgeInv(t, e, child, parent, up, down) && (e == d ==> up != [])
    requires SentOn(parent', e) == SentOn(parent, e)
    requires Gathered(parent', e) == Gathered(parent, e) + if e == d then 1 else 0
    ensures EdgeInv(t, e, child, parent', if e == d then up[1..] else up, down)
  {
    hide SentOn, Gathered, MsgNo;
  }

  /** The edge to its own parent after a core voted, or did not. */
  lemma EdgeAbove(t: Tree, e: nat, child: Node, parent: Node, o: Reaction, up: seq<Msg>, down: seq<Msg>)
    requires EdgeInv(t, e, child, parent, up, down) && o.Go? && Answers(t, child, o)
    requires Taken(o.node) == Taken(child)
    ensures EdgeInv(t, e, o.node, parent, up + o.answer, down)
  {
    hide SentOn, Gathered, MsgNo;
  }

  lemma FromChildEdge(t: Tree, versions: seq<nat>, s: Net, d: nat, e: nat)
    requires Goes(t, s, FromChild(d)) && e < Size(t) && e != t.root && Inv(t, versions, s)
    ensures EdgeHolds(t, Apply(t, s, FromChild(d)), e)
  {
    hide Handle, NodeInv, EdgeInv, SentOn, Inv, Children, Gathered, Answers;
    var c, s' := t.parent[d], Apply(t, s, FromChild(d));
    FromChildNode(t, versions, s, d);
    Edge(t, versions, s, e);
    Edge(t, versions, s, d);
    var o := Handle(Neighbors(t, c), c, s.nodes[c], s.up[d][0], s.nodes[c].heard + {d});
    if e == c {
      EdgeAbove(t, e, s.nodes[e], s.nodes[t.parent[e]], o, s.up[e], s.down[e]);
    } else if t.parent[e] == c {
      EdgeBelow(t, e, s.nodes[e], s.nodes[c], o.node, s.up[e], s.down[e], d);
      assert s'.up[e] == (if e == d then s.up[e][1..] else s.up[e]);
    }
  }

  lemma FromChildKeeps(t: Tree, versions: seq<nat>, s: Net, d: nat)
    requires Inv(t, versions, s) && Enabled(t, s, FromChild(d))
    ensures Inv(t, versions, Apply(t, s, FromChild(d)))
  {
    hide Handle, NodeInv, EdgeInv, Counted, RootCounted;
    FromChildNode(t, versions, s, d);
    forall e | 0 <= e < Size(t) && e != t.root
      ensures EdgeHolds(t, Apply(t, s, FromChild(d)), e)
    {
      FromChildEdge(t, versions, s, d, e);
    }
  }

  lemma SpreadNode(t: Tree, versions: seq<nat>, c: nat, k: Node, d: nat)
    requires ValidTree(t) && |versions| == Size(t) && c < Size(t)
    requires NodeInv(t, versions, c, k) && k.pc.Spreading? && d in Children(t, c) && d !in k.pc.sent
    ensures NodeInv(t, versions, c, k.(pc := Spreading(k.pc.msg, k.pc.sent + {d})))
    ensures SentOn(k, d) >= 0 && k.pc.msg == MsgNo(t.root, SentOn(k, d))
  {
    hide Willing, AllWilling;
    assert SpreadInv(t, c, k);
    MsgNoIs(t.root, k.told);
    if 0 < k.told {
      MsgNoIs(t.root, k.told - 1);
    }
  }

  lemma SpreadEdge(t: Tree, versions: seq<nat>, s: Net, d: nat, e: nat)
    requires Goes(t, s, Spread(d)) && e < Size(t) && e != t.root && Inv(t, versions, s)
    ensures EdgeHolds(t, Apply(t, s, Spread(d)), e)
  {
    hide NodeInv, EdgeInv, MsgNo, Inv, SentOn, Taken, Gathered, Children;
    Edge(t, versions, s, d);
    SpreadNode(t, versions, t.parent[d], s.nodes[t.parent[d]], d);
    Edge(t, versions, s, e);
    var c, s' := t.parent[d], Apply(t, s, Spread(d));
    if t.parent[e] == c {
      EdgeSent(t, e, s.nodes[e], s.nodes[c], s'.nodes[c], s.up[e], s.down[e], d);
    } else if e == c {
      EdgeSends(t, e, s.nodes[c], s'.nodes[c], s.nodes[t.parent[e]], s.up[e], s.down[e]);
    }
  }

  /** The edge to child `e` after its parent sent on to child `d`. */
  lemma EdgeSent(t: Tree, e: nat, child: Node, parent: Node, parent': Node, up: seq<Msg>, down: seq<Msg>, d: nat)
    requires EdgeInv(t, e, child, parent, up, down) && parent.pc.Spreading? && d !in parent.pc.sent
    requires parent' == parent.(pc := Spreading(parent.pc.msg, parent.pc.sent + {d}))
    requires 0 <= SentOn(parent, d) && parent.pc.msg == MsgNo(t.root, SentOn(parent, d))
    ensures EdgeInv(t, e, child, parent', up, if e == d then down + [parent.pc.msg] else down)
  {
    hide MsgNo;
  }

  /** The edge to its own parent while a core sends on. */
  lemma EdgeSends(t: Tree, e: nat, child: Node, child': Node, parent: Node, up: seq<Msg>, down: seq<Msg>)
    requires EdgeInv(t, e, child, parent, up, down) && child' == child.(pc := child'.pc)
    ensures EdgeInv(t, e, child', parent, up, down)
  {
    hide MsgNo, SentOn, Gathered;
  }

  lemma SpreadKeeps(t: Tree, versions: seq<nat>, s: Net, d: nat)
    requires Inv(t, versions, s) && Enabled(t, s, Spread(d))
    ensures Inv(t, versions, Apply(t, s, Spread(d)))
  {
    hide NodeInv, EdgeInv;
    Edge(t, versions, s, d);
    SpreadNode(t, versions, t.parent[d], s.nodes[t.parent[d]], d);
    forall e | 0 <= e < Size(t) && e != t.root
      ensures EdgeHolds(t, Apply(t, s, Spread(d)), e)
    {
      SpreadEdge(t, versions, s, d, e);
    }
  }

  lemma DoneEdge(t: Tree, versions: seq<nat>, s: Net, c: nat, e: nat)
    requires Goes(t, s, Done(c)) && e < Size(t) && e != t.root && Inv(t, versions, s)
    ensures EdgeHolds(t, Apply(t, s, Done(c)), e)
  {
    hide NodeInv, MsgNo, Inv, Finish;
    WithinTree(t, versions, s);
    Finishes(t, versions, c, s.nodes[c]);
    Edge(t, versions, s, e);
  }

  lemma WithinTree(t: Tree, versions: seq<nat>, s: Net)
    requires Inv(t, versions, s)
    ensures ValidTree(t) && |versions| == Size(t) == |s.nodes| && Shaped(t, s)
    ensures forall c | 0 <= c < Size(t) :: NodeInv(t, versions, c, s.nodes[c])
  {
  }

  lemma DoneKeeps(t: Tree, versions: seq<nat>, s: Net, c: nat)
    requires Inv(t, versions, s) && Enabled(t, s, Done(c))
    ensures Inv(t, versions, Apply(t, s, Done(c)))
  {
    hide NodeInv, EdgeInv, Finish;
    Finishes(t, versions, c, s.nodes[c]);
    forall e | 0 <= e < Size(t) && e != t.root
      ensures EdgeHolds(t, Apply(t, s, Done(c)), e)
    {
      DoneEdge(t, versions, s, c, e);
    }
  }

  lemma StepKeeps(t: Tree, versions: seq<nat>, s: Net, s': Net)
    requires Inv(t, versions, s) && Next(t, s, s') && !s'.failed
    ensures Inv(t, versions, s')
  {
    hide Inv;
    var a :| Enabled(t, s, a) && s' == Apply(t, s, a);
    match a
    case Start => StartKeeps(t, versions, s);
    case FromParent(c) => FromParentKeeps(t, versions, s, c);
    case FromChild(d) => FromChildKeeps(t, versions, s, d);
    case Spread(d) => SpreadKeeps(t, versions, s, d);
    case Done(c) => DoneKeeps(t, versions, s, c);
  }
}
