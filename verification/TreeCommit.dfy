/** Two-phase commit over a tree with one requesting core, for any number of rounds. The tree is the network
  * seen from the requester: a core's parent is its next hop towards it. */
module TreeCommit {
  import opened Trees

  datatype Msg =
    | Req(node: nat, version: nat)
    | Reply(node: nat, version: nat, yes: bool)
    | Commit(node: nat, version: nat)

  /** An open request at a core: how many neighbours have answered, and whether all said yes. */
  datatype Pending = Pending(core: nat, version: nat, numResp: nat, accept: bool)

  datatype Pc =
    | Between                          // the requester, outside its polling loop
    | Polling
    | Spreading(msg: Msg, sent: set<nat>)  // sending a message on, child by child

  /** A core, and its history: requests begun, children heard from in this round, votes cast (at the
    * requester: decisions), commits begun. */
  datatype Node = Node(
    lastVersion: nat, lastCommitted: nat, pending: seq<Pending>, pc: Pc,
    asked: nat, heard: set<nat>, votes: seq<bool>, told: nat)

  datatype Net = Net(nodes: seq<Node>, up: seq<seq<Msg>>, down: seq<seq<Msg>>, failed: bool)

  datatype Reaction =
    | AssertFails
    | Go(node: Node, answer: seq<Msg>)

  // ----- the list of open requests -----

  function Find(list: seq<Pending>, core: nat, version: nat): (p: nat)
    ensures p <= |list|
    ensures p < |list| ==> list[p].core == core && list[p].version == version
    ensures forall j | 0 <= j < p :: list[j].core != core || list[j].version != version
  {
    if list == [] || (list[0].core == core && list[0].version == version) then 0
    else 1 + Find(list[1..], core, version)
  }

  function Deleted(list: seq<Pending>, p: nat): seq<Pending>
    requires p < |list|
  {
    list[..p] + list[p + 1..]
  }

  // ----- handlers -----

  function CastVote(k: Node, node: nat, version: nat, accept: bool): Reaction {
    var vote := accept && version > k.lastVersion;
    Go(k.(lastVersion := if vote then version else k.lastVersion, votes := k.votes + [vote]),
       [Reply(node, version, vote)])
  }

  function CountReply(e: Pending, yes: bool): Pending {
    e.(numResp := e.numResp + 1, accept := e.accept && yes)
  }

  /** Core `c` with that many neighbours processes a message; `heard` is the history after it. */
  function Handle(neighbors: nat, c: nat, k: Node, m: Msg, heard: set<nat>): Reaction {
    match m
    case Req(node, version) =>
      if neighbors == 1 then CastVote(k.(asked := k.asked + 1), node, version, true)
      else Go(k.(asked := k.asked + 1, heard := {}, pc := Spreading(m, {})), [])
    case Reply(node, version, yes) =>
      var p := Find(k.pending, node, version);
      if p == |k.pending| then AssertFails
      else
        var e := CountReply(k.pending[p], yes);
        var k1 := k.(pending := k.pending[p := e], heard := heard);
        if node == c && e.numResp >= neighbors then
          Go(k1.(votes := k.votes + [e.accept], told := k.told + 1, pc := Spreading(Commit(c, k.asked), {})), [])
        else if node != c && e.numResp + 1 >= neighbors then CastVote(k1, node, version, e.accept)
        else Go(k1, [])
    case Commit(node, version) =>
      var p := Find(k.pending, node, version);
      var k1 := k.(lastCommitted := version, told := k.told + 1);
      if k.lastVersion < version || version <= k.lastCommitted then AssertFails
      else if p < |k.pending| then Go(k1.(pending := Deleted(k.pending, p), pc := Spreading(m, {})), [])
      else if neighbors != 1 then AssertFails
      else Go(k1, [])
  }

  /** The message has gone to every child: open the request, or (at the requester) close it. */
  function Finish(c: nat, k: Node): Reaction
    requires k.pc.Spreading?
  {
    match k.pc.msg
    case Req(node, version) =>
      if Find(k.pending, node, version) < |k.pending| then AssertFails
      else Go(k.(pending := k.pending + [Pending(node, version, 0, true)], pc := Polling), [])
    case Commit(node, version) =>
      if node != c then Go(k.(pc := Polling), [])
      else
        var p := Find(k.pending, c, version);
        if p == |k.pending| then AssertFails
        else Go(k.(pending := Deleted(k.pending, p), pc := Between), [])
    case Reply(_, _, _) => AssertFails
  }

  // ----- the machine -----

  function Neighbors(t: Tree, c: nat): nat {
    |Children(t, c)| + if c == t.root then 0 else 1
  }

  datatype Action =
    | Start               // phase 1 at the requester
    | FromParent(c: nat)
    | FromChild(d: nat)
    | Spread(d: nat)      // the parent of `d` sends on to it
    | Done(c: nat)

  predicate Shaped(t: Tree, s: Net) {
    && t.root < Size(t) == |s.nodes| == |s.up| == |s.down|
    && (forall d | 0 <= d < Size(t) && d != t.root :: t.parent[d] < Size(t))
  }

  predicate Enabled(t: Tree, s: Net, a: Action) {
    && Shaped(t, s) && !s.failed
    && match a
       case Start => s.nodes[t.root].pc.Between?
       case FromParent(c) => c < Size(t) && c != t.root && s.nodes[c].pc.Polling? && s.down[c] != []
       case FromChild(d) => d < Size(t) && d != t.root && s.nodes[t.parent[d]].pc.Polling? && s.up[d] != []
       case Spread(d) =>
         && d < Size(t) && d != t.root
         && var pc := s.nodes[t.parent[d]].pc; pc.Spreading? && d !in pc.sent
       case Done(c) => c < Size(t) && var pc := s.nodes[c].pc; pc.Spreading? && pc.sent == Children(t, c)
  }

  function React(s: Net, c: nat, o: Reaction): Net
    requires c < |s.nodes| && c < |s.up|
  {
    if o.AssertFails? then s.(failed := true)
    else s.(nodes := s.nodes[c := o.node], up := s.up[c := s.up[c] + o.answer])
  }

  function Apply(t: Tree, s: Net, a: Action): Net
    requires Enabled(t, s, a)
  {
    match a
    case Start =>
      var k := s.nodes[t.root];
      var k' := k.(asked := k.asked + 1, heard := {}, pc := Spreading(Req(t.root, k.asked + 1), {}));
      s.(nodes := s.nodes[t.root := k'])
    case FromParent(c) =>
      React(s.(down := s.down[c := s.down[c][1..]]), c,
            Handle(Neighbors(t, c), c, s.nodes[c], s.down[c][0], s.nodes[c].heard))
    case FromChild(d) =>
      var c := t.parent[d];
      React(s.(up := s.up[d := s.up[d][1..]]), c,
            Handle(Neighbors(t, c), c, s.nodes[c], s.up[d][0], s.nodes[c].heard + {d}))
    case Spread(d) =>
      var c := t.parent[d];
      var k := s.nodes[c];
      s.(nodes := s.nodes[c := k.(pc := Spreading(k.pc.msg, k.pc.sent + {d}))],
         down := s.down[d := s.down[d] + [k.pc.msg]])
    case Done(c) => React(s, c, Finish(c, s.nodes[c]))
  }

  /** Every core starts with nothing committed and some version it already knows. */
  predicate Init(t: Tree, s: Net, versions: seq<nat>) {
    && Shaped(t, s) && !s.failed && |versions| == Size(t)
    && forall c | 0 <= c < Size(t) ::
         && s.nodes[c] == Node(versions[c], 0, [], if c == t.root then Between else Polling, 0, {}, [], 0)
         && s.up[c] == [] && s.down[c] == []
  }

  ghost predicate Next(t: Tree, s: Net, s': Net) {
    exists a :: Enabled(t, s, a) && s' == Apply(t, s, a)
  }

  ghost predicate Run(t: Tree, r: seq<Net>, versions: seq<nat>) {
    && ValidTree(t) && 0 < |r| && Init(t, r[0], versions)
    && forall i | 0 < i < |r| :: Next(t, r[i - 1], r[i])
  }
}
