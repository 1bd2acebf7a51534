/** Barrier safety on every tree and in every round, and what the root sums up. */
module TreeBarrierSafety {
  import opened Trees
  import opened TreeBarrier

  // ----- the root's sum is the sum of all ids -----

  function IdSum(t: Tree, m: nat): nat
    requires m <= |t.id|
  {
    if m == 0 then 0 else IdSum(t, m - 1) + t.id[m - 1]
  }

  function AllSums(t: Tree, m: nat): nat
    requires ValidTree(t) && m <= Size(t)
  {
    if m == 0 then 0 else AllSums(t, m - 1) + SubtreeSum(t, m - 1)
  }

  function NonRootSums(t: Tree, m: nat): nat
    requires ValidTree(t) && m <= Size(t)
  {
    if m == 0 then 0 else NonRootSums(t, m - 1) + if m - 1 == t.root then 0 else SubtreeSum(t, m - 1)
  }

  function AllChildSums(t: Tree, k: nat, m: nat): nat
    requires ValidTree(t) && k <= Size(t) && m <= Size(t)
  {
    if k == 0 then 0 else AllChildSums(t, k - 1, m) + ChildSums(t, k - 1, Children(t, k - 1), m)
  }

  lemma {:induction false} SumsSplit(t: Tree, k: nat)
    requires ValidTree(t) && k <= Size(t)
    ensures AllSums(t, k) == IdSum(t, k) + AllChildSums(t, k, Size(t))
  {
    if 0 < k {
      SumsSplit(t, k - 1);
    }
  }

  /** Every core but the root is counted once, with its parent. */
  lemma {:induction false} OneParentEach(t: Tree, k: nat, m: nat)
    requires ValidTree(t) && k <= Size(t) && 0 < m <= Size(t)
    ensures AllChildSums(t, k, m) == AllChildSums(t, k, m - 1)
              + if m - 1 != t.root && t.parent[m - 1] < k then SubtreeSum(t, m - 1) else 0
  {
    hide SubtreeSum, ValidTree;
    if 0 < k {
      OneParentEach(t, k - 1, m);
      assert IsChild(t, m - 1, k - 1) <==> m - 1 in Children(t, k - 1);
    }
  }

  lemma {:induction false} ChildrenAreNonRoots(t: Tree, m: nat)
    requires ValidTree(t) && m <= Size(t)
    ensures AllChildSums(t, Size(t), m) == NonRootSums(t, m)
  {
    if 0 < m {
      ChildrenAreNonRoots(t, m - 1);
      OneParentEach(t, Size(t), m);
    } else {
      NoChildSums(t, Size(t));
    }
  }

  lemma {:induction false} NoChildSums(t: Tree, k: nat)
    requires ValidTree(t) && k <= Size(t)
    ensures AllChildSums(t, k, 0) == 0
  {
    if 0 < k {
      NoChildSums(t, k - 1);
    }
  }

  lemma {:induction false} RootSplit(t: Tree, m: nat)
    requires ValidTree(t) && m <= Size(t)
    ensures AllSums(t, m) == NonRootSums(t, m) + if t.root < m then SubtreeSum(t, t.root) else 0
  {
    if 0 < m {
      RootSplit(t, m - 1);
    }
  }

  lemma RootSumIsIdSum(t: Tree)
    requires ValidTree(t)
    ensures SubtreeSum(t, t.root) == IdSum(t, Size(t))
  {
    SumsSplit(t, Size(t));
    ChildrenAreNonRoots(t, Size(t));
    RootSplit(t, Size(t));
  }

  // ----- how far a core has come -----

  /** Sums it passed up. */
  function Passed(k: Core): int {
    if k.pc.Collecting? then k.entered - 1 else k.entered
  }

  /** Broadcasts it saw; for the root, the ones it started. */
  function Released(k: Core): int {
    if k.pc.Collecting? || k.pc.Awaiting? then k.entered - 1 else k.entered
  }

  /** Barriers it returned from. */
  function Returned(k: Core): int {
    if k.pc.Outside? then k.entered else k.entered - 1
  }

  /** Messages from child `d` it consumed. */
  function Gathered(k: Core, d: nat): int {
    if k.pc.Collecting? && d !in k.pc.received then k.entered - 1 else k.entered
  }

  /** Broadcasts it sent on to child `d`. */
  function Sent(k: Core, d: nat): int {
    if k.pc.Outside? || (k.pc.Forwarding? && d in k.pc.sent) then k.entered else k.entered - 1
  }

  // ----- invariant -----

  ghost predicate CoreInv(t: Tree, c: nat, k: Core)
    requires ValidTree(t) && c < Size(t)
  {
    match k.pc
    case Outside => true
    case Collecting(received, sum) =>
      0 < k.entered && received <= Children(t, c) && sum == ChildSums(t, c, received, Size(t))
    case Awaiting => 0 < k.entered && c != t.root
    case Forwarding(sent, payload) => 0 < k.entered && sent <= Children(t, c) && payload == t.id[t.root]
  }

  ghost predicate EdgeInv(t: Tree, d: nat, child: Core, parent: Core, up: seq<nat>, down: seq<nat>)
    requires ValidTree(t) && d < Size(t)
  {
    && |up| == Passed(child) - Gathered(parent, d)
    && |down| == Sent(parent, d) - Released(child)
    && (forall v | v in up :: v == SubtreeSum(t, d))
    && (forall v | v in down :: v == t.id[t.root])
  }

  ghost predicate Inv(t: Tree, s: State) {
    && ValidTree(t) && Shaped(t, s)
    && (forall c | 0 <= c < Size(t) :: CoreInv(t, c, s.cores[c]))
    && (forall d | 0 <= d < Size(t) && d != t.root ::
          EdgeInv(t, d, s.cores[d], s.cores[t.parent[d]], s.up[d], s.down[d]))
    && |s.sums| == Passed(s.cores[t.root])
    && (forall v | v in s.sums :: v == SubtreeSum(t, t.root))
  }

  lemma CoreStep(t: Tree, s: State, a: Action, c: nat)
    requires Inv(t, s) && Enabled(t, s, a) && c < Size(t)
    ensures c < |Apply(t, s, a).cores| && CoreInv(t, c, Apply(t, s, a).cores[c])
  {
    hide SubtreeSum, EdgeInv;
    assert CoreInv(t, c, s.cores[c]);
    match a
    case Enter(_) => ChildSumsNone(t, c, Size(t));
    case Gather(d) => GatherCore(t, s, d, c);
    case Receive(d) => ReceiveCore(t, s, d, c);
    case _ =>
  }

  lemma GatherCore(t: Tree, s: State, d: nat, c: nat)
    requires Inv(t, s) && Enabled(t, s, Gather(d)) && c < Size(t)
    ensures c < |Apply(t, s, Gather(d)).cores| && CoreInv(t, c, Apply(t, s, Gather(d)).cores[c])
  {
    assert CoreInv(t, c, s.cores[c]) && EdgeInv(t, d, s.cores[d], s.cores[t.parent[d]], s.up[d], s.down[d]);
    hide SubtreeSum, Inv;
    if c == t.parent[d] {
      assert s.up[d][0] in s.up[d];
      ChildSumsAdd(t, c, s.cores[c].pc.received, d, Size(t));
    }
  }

  lemma ReceiveCore(t: Tree, s: State, d: nat, c: nat)
    requires Inv(t, s) && Enabled(t, s, Receive(d)) && c < Size(t)
    ensures c < |Apply(t, s, Receive(d)).cores| && CoreInv(t, c, Apply(t, s, Receive(d)).cores[c])
  {
    assert CoreInv(t, c, s.cores[c]) && EdgeInv(t, d, s.cores[d], s.cores[t.parent[d]], s.up[d], s.down[d]);
    hide SubtreeSum, ChildSums, Inv;
    assert s.down[d][0] in s.down[d];
  }

  lemma EdgeStep(t: Tree, s: State, a: Action, d: nat)
    requires Inv(t, s) && Enabled(t, s, a) && d < Size(t) && d != t.root
    ensures var s' := Apply(t, s, a);
            EdgeInv(t, d, s'.cores[d], s'.cores[t.parent[d]], s'.up[d], s'.down[d])
  {
    hide *;
    EdgeBefore(t, s, d);
    if a.Enter? || a.Return? {
      EdgeOutside(t, s, a, d);
    } else if a.Gather? {
      EdgeGather(t, s, a, d);
    } else if a.PassUp? {
      EdgePassUp(t, s, a, d);
    } else {
      EdgeDown(t, s, a, d);
    }
  }

  lemma EdgeOutside(t: Tree, s: State, a: Action, d: nat)
    requires Inv(t, s) && Enabled(t, s, a) && d < Size(t) && d != t.root && (a.Enter? || a.Return?)
    ensures var s' := Apply(t, s, a);
            t.parent[d] < |s'.cores| && EdgeInv(t, d, s'.cores[d], s'.cores[t.parent[d]], s'.up[d], s'.down[d])
  {
    hide ChildSums, SubtreeSum, Children, Inv;
    EdgeBefore(t, s, d);
  }

  lemma EdgeGather(t: Tree, s: State, a: Action, d: nat)
    requires Inv(t, s) && Enabled(t, s, a) && d < Size(t) && d != t.root && a.Gather?
    ensures var s' := Apply(t, s, a);
            t.parent[d] < |s'.cores| && EdgeInv(t, d, s'.cores[d], s'.cores[t.parent[d]], s'.up[d], s'.down[d])
  {
    hide ChildSums, SubtreeSum, Children, Inv;
    EdgeBefore(t, s, d);
  }

  lemma EdgePassUp(t: Tree, s: State, a: Action, d: nat)
    requires Inv(t, s) && Enabled(t, s, a) && d < Size(t) && d != t.root && a.PassUp?
    ensures var s' := Apply(t, s, a);
            t.parent[d] < |s'.cores| && EdgeInv(t, d, s'.cores[d], s'.cores[t.parent[d]], s'.up[d], s'.down[d])
  {
    hide ChildSums, SubtreeSum, Children, Inv;
    EdgeBefore(t, s, d);
    SubtreeSumIs(t, d);
  }

  lemma EdgeDown(t: Tree, s: State, a: Action, d: nat)
    requires Inv(t, s) && Enabled(t, s, a) && d < Size(t) && d != t.root && (a.Receive? || a.Forward?)
    ensures var s' := Apply(t, s, a);
            t.parent[d] < |s'.cores| && EdgeInv(t, d, s'.cores[d], s'.cores[t.parent[d]], s'.up[d], s'.down[d])
  {
    hide ChildSums, SubtreeSum, Children, Inv;
    EdgeBefore(t, s, d);
  }

  lemma EdgeBefore(t: Tree, s: State, d: nat)
    requires Inv(t, s) && d < Size(t) && d != t.root
    ensures ValidTree(t) && Shaped(t, s) && t.parent[d] != d && d in Children(t, t.parent[d])
    ensures EdgeInv(t, d, s.cores[d], s.cores[t.parent[d]], s.up[d], s.down[d])
    ensures CoreInv(t, d, s.cores[d]) && CoreInv(t, t.parent[d], s.cores[t.parent[d]])
  {
  }

  lemma SubtreeSumIs(t: Tree, c: nat)
    requires ValidTree(t) && c < Size(t)
    ensures SubtreeSum(t, c) == ChildSums(t, c, Children(t, c), Size(t)) + t.id[c]
  {
  }

  lemma StepKeeps(t: Tree, s: State, s': State)
    requires Inv(t, s) && Next(t, s, s')
    ensures Inv(t, s')
  {
    hide CoreInv, EdgeInv, SubtreeSum;
    var a :| Enabled(t, s, a) && s' == Apply(t, s, a);
    forall c | 0 <= c < Size(t)
      ensures CoreInv(t, c, s'.cores[c])
    {
      CoreStep(t, s, a, c);
    }
    forall d | 0 <= d < Size(t) && d != t.root
      ensures EdgeInv(t, d, s'.cores[d], s'.cores[t.parent[d]], s'.up[d], s'.down[d])
    {
      EdgeStep(t, s, a, d);
    }
    RootStep(t, s, a);
  }

  lemma RootStep(t: Tree, s: State, a: Action)
    requires Inv(t, s) && Enabled(t, s, a)
    ensures var s' := Apply(t, s, a);
            && |s'.sums| == Passed(s'.cores[t.root])
            && (forall v | v in s'.sums :: v == SubtreeSum(t, t.root))
  {
    hide ChildSums, EdgeInv;
    assert CoreInv(t, t.root, s.cores[t.root]);
  }

  lemma InitInv(t: Tree, s: State)
    requires ValidTree(t) && Init(t, s)
    ensures Inv(t, s)
  {
  }

  lemma {:induction false} RunKeeps(t: Tree, r: seq<State>, i: nat)
    requires Run(t, r) && i < |r|
    ensures Inv(t, r[i])
  {
    hide Inv, Next;
    if i == 0 {
      InitInv(t, r[0]);
    } else {
      RunKeeps(t, r, i - 1);
      StepKeeps(t, r[i - 1], r[i]);
    }
  }

  // ----- theorems -----

  lemma Edge(t: Tree, s: State, d: nat)
    requires Inv(t, s) && d < Size(t) && d != t.root
    ensures t.parent[d] < Size(t) && t.height[d] < t.height[t.parent[d]] <= t.height[t.root]
    ensures Released(s.cores[d]) <= Sent(s.cores[t.parent[d]], d) <= Released(s.cores[t.parent[d]])
    ensures Passed(s.cores[t.parent[d]]) <= Gathered(s.cores[t.parent[d]], d) <= Passed(s.cores[d])
  {
    hide SubtreeSum, ChildSums;
    assert EdgeInv(t, d, s.cores[d], s.cores[t.parent[d]], s.up[d], s.down[d]);
    assert CoreInv(t, t.parent[d], s.cores[t.parent[d]]);
    assert d in Children(t, t.parent[d]);
  }

  lemma {:induction false} TowardsRoot(t: Tree, s: State, c: nat)
    requires Inv(t, s) && c < Size(t)
    ensures Released(s.cores[c]) <= Released(s.cores[t.root])
    ensures Passed(s.cores[t.root]) <= Passed(s.cores[c])
    decreases t.height[t.root] - t.height[c]
  {
    hide Inv;
    if c != t.root {
      Edge(t, s, c);
      TowardsRoot(t, s, t.parent[c]);
    }
  }

  lemma RootReleases(t: Tree, s: State)
    requires Inv(t, s)
    ensures t.root < |s.cores| && Released(s.cores[t.root]) <= Passed(s.cores[t.root])
  {
  }

  /** No core returns from its k-th barrier before every core has entered its k-th. */
  lemma BarrierSafety(t: Tree, r: seq<State>, i: nat, c: nat, other: nat)
    requires Run(t, r) && i < |r| && c < Size(t) && other < Size(t)
    ensures |r[i].cores| == Size(t) && Returned(r[i].cores[c]) <= r[i].cores[other].entered
  {
    RunKeeps(t, r, i);
    var s := r[i];
    TowardsRoot(t, s, c);
    RootReleases(t, s);
    TowardsRoot(t, s, other);
  }

  /** Each round gives the root the sum of all ids, once. */
  lemma RootSums(t: Tree, r: seq<State>, i: nat)
    requires Run(t, r) && i < |r|
    ensures t.root < |r[i].cores| && |r[i].sums| == Passed(r[i].cores[t.root])
    ensures |t.id| == Size(t) && forall v | v in r[i].sums :: v == IdSum(t, Size(t))
  {
    hide SubtreeSum;
    RunKeeps(t, r, i);
    RootSumIsIdSum(t);
  }

  /** A channel never holds more than one message, and a core that has passed its sum up has consumed exactly
    * one message of every child in this round. */
  lemma OneMessageEach(t: Tree, r: seq<State>, i: nat, d: nat)
    requires Run(t, r) && i < |r| && d < Size(t) && d != t.root
    ensures var s := r[i];
            && |s.up| == |s.down| == |s.cores| == Size(t) && t.parent[d] < Size(t)
            && |s.up[d]| <= 1 && |s.down[d]| <= 1
            && (!s.cores[t.parent[d]].pc.Collecting? ==>
                  s.up[d] == [] || s.cores[d].entered > s.cores[t.parent[d]].entered)
  {
    hide SubtreeSum, ChildSums;
    RunKeeps(t, r, i);
    var s := r[i];
    Edge(t, s, d);
    assert EdgeInv(t, d, s.cores[d], s.cores[t.parent[d]], s.up[d], s.down[d]);
  }

  // ----- progress -----

  /** Some core inside the barrier can take a step. */
  ghost predicate CanMove(t: Tree, s: State) {
    exists a: Action :: !a.Enter? && Enabled(t, s, a)
  }

  lemma Movable(t: Tree, s: State, a: Action)
    requires !CanMove(t, s) && !a.Enter?
    ensures !Enabled(t, s, a)
  {
  }

  /** If nobody can move, every core has passed up as many sums as it has entered barriers. */
  lemma {:induction false} StuckPassed(t: Tree, s: State, k: nat, c: nat)
    requires Inv(t, s) && !CanMove(t, s) && c < Size(t)
    requires forall j | 0 <= j < Size(t) :: s.cores[j].entered == k
    ensures Passed(s.cores[c]) == k
    decreases t.height[c]
  {
    hide Inv, CanMove;
    WithinTree(t, s);
    if s.cores[c].pc.Collecting? {
      forall d | d in Children(t, c)
        ensures d in s.cores[c].pc.received
      {
        Edge(t, s, d);
        StuckPassed(t, s, k, d);
        UpLength(t, s, d);
        Movable(t, s, Gather(d));
      }
      ReceivedFromChildren(t, s, c);
      Movable(t, s, PassUp(c));
    }
  }

  lemma WithinTree(t: Tree, s: State)
    requires Inv(t, s)
    ensures ValidTree(t) && Shaped(t, s)
  {
  }

  lemma UpLength(t: Tree, s: State, d: nat)
    requires Inv(t, s) && d < Size(t) && d != t.root
    ensures Shaped(t, s)
    ensures |s.up[d]| == Passed(s.cores[d]) - Gathered(s.cores[t.parent[d]], d)
    ensures |s.down[d]| == Sent(s.cores[t.parent[d]], d) - Released(s.cores[d])
  {
    assert EdgeInv(t, d, s.cores[d], s.cores[t.parent[d]], s.up[d], s.down[d]);
  }

  lemma ReceivedFromChildren(t: Tree, s: State, c: nat)
    requires Inv(t, s) && c < Size(t)
    ensures Shaped(t, s)
    ensures s.cores[c].pc.Collecting? ==> s.cores[c].pc.received <= Children(t, c)
    ensures s.cores[c].pc.Forwarding? ==> s.cores[c].pc.sent <= Children(t, c)
    ensures s.cores[t.root].pc != Awaiting
  {
    assert CoreInv(t, c, s.cores[c]) && CoreInv(t, t.root, s.cores[t.root]);
  }

  lemma NoneForwarding(t: Tree, s: State, c: nat)
    requires Inv(t, s) && !CanMove(t, s) && c < Size(t)
    ensures Shaped(t, s) && !s.cores[c].pc.Forwarding?
  {
    hide Inv, CanMove;
    ReceivedFromChildren(t, s, c);
    if s.cores[c].pc.Forwarding? {
      Movable(t, s, Return(c));
      var d :| d in Children(t, c) && d !in s.cores[c].pc.sent;
      Movable(t, s, Forward(d));
    }
  }

  lemma {:induction false} StuckReturned(t: Tree, s: State, k: nat, c: nat)
    requires Inv(t, s) && !CanMove(t, s) && c < Size(t)
    requires forall j | 0 <= j < Size(t) :: s.cores[j].entered == k
    ensures s.cores[c].pc.Outside?
    decreases t.height[t.root] - t.height[c]
  {
    hide Inv, CanMove;
    StuckPassed(t, s, k, c);
    NoneForwarding(t, s, c);
    ReceivedFromChildren(t, s, c);
    if c != t.root {
      Edge(t, s, c);
      StuckReturned(t, s, k, t.parent[c]);
      UpLength(t, s, c);
      Movable(t, s, Receive(c));
    }
  }

  /** Once every core has entered its k-th barrier, somebody can move until everybody has returned from it. */
  lemma NeverStuck(t: Tree, r: seq<State>, i: nat, k: nat)
    requires Run(t, r) && i < |r| && |r[i].cores| == Size(t)
    requires forall j | 0 <= j < Size(t) :: r[i].cores[j].entered == k
    ensures CanMove(t, r[i]) || forall j | 0 <= j < Size(t) :: Returned(r[i].cores[j]) == k
  {
    hide Inv, CanMove;
    RunKeeps(t, r, i);
    if !CanMove(t, r[i]) {
      forall j | 0 <= j < Size(t)
        ensures Returned(r[i].cores[j]) == k
      {
        StuckReturned(t, r[i], k, j);
      }
    }
  }
}
