/** The doubly linked list of open requests, and the message handler of one core on its own fields. */
module TreeCommitCode {
  import opened TreeCommit

  class ListNode {
    var prev: ListNode?
    var next: ListNode?
    var data: Pending

    constructor (data: Pending, prev: ListNode?)
      ensures this.data == data && this.prev == prev && next == null
    {
      this.data, this.prev, next := data, prev, null;
    }
  }

  ghost function NodeAt(nodes: seq<ListNode>, i: int): ListNode? {
    if 0 <= i < |nodes| then nodes[i] else null
  }

  class List {
    var head: ListNode?
    var tail: ListNode?
    ghost var nodes: seq<ListNode>
    ghost var repr: set<ListNode>      // every node ever in the list

    ghost predicate Valid()
      reads this, nodes
    {
      && head == NodeAt(nodes, 0) && tail == NodeAt(nodes, |nodes| - 1)
      && (forall i, j | 0 <= i < j < |nodes| :: nodes[i] != nodes[j])
      && (forall i | 0 <= i < |nodes| ::
            nodes[i] in repr && nodes[i].prev == NodeAt(nodes, i - 1) && nodes[i].next == NodeAt(nodes, i + 1))
    }

    ghost function Contents(): (c: seq<Pending>)
      reads this, nodes
      ensures |c| == |nodes|
    {
      seq(|nodes|, i requires 0 <= i < |nodes| reads this, nodes => nodes[i].data)
    }

    lemma Members()
      requires Valid()
      ensures forall i | 0 <= i < |nodes| :: nodes[i] in repr
    {
    }

    constructor ()
      ensures Valid() && Contents() == [] && repr == {}
    {
      head, tail, nodes, repr := null, null, [], {};
    }

    method AddNode(data: Pending)
      requires Valid()
      modifies this, repr
      ensures Valid() && Contents() == old(Contents()) + [data] && fresh(repr - old(repr))
    {
      hide NodeAt;
      var node := new ListNode(data, tail);
      AddsOne(nodes, node);
      if tail != null {
        tail.next := node;
      }
      if head == null {
        head := node;
      }
      tail := node;
      nodes, repr := nodes + [node], repr + {node};
    }

    /** Search from the head; the index is where the list says the node is. */
    method FindNode(core: nat, version: nat) returns (node: ListNode?, ghost p: nat)
      requires Valid()
      ensures p == Find(Contents(), core, version)
      ensures node == NodeAt(nodes, p)
    {
      hide NodeAt, Find;
      node, p := head, 0;
      while node != null
        invariant p <= |nodes|
        invariant node == NodeAt(nodes, p)
        invariant forall j | 0 <= j < p :: Contents()[j].core != core || Contents()[j].version != version
        decreases |nodes| - p
      {
        NodePlace(nodes, p);
        if node.data.core == core && node.data.version == version {
          FindIs(Contents(), core, version, p);
          return;
        }
        node, p := node.next, p + 1;
      }
      NodePlace(nodes, p);
      FindNone(Contents(), core, version);
    }

    /** Write to the request a node tracks. */
    method Track(node: ListNode, data: Pending, ghost p: nat)
      requires Valid() && p < |nodes| && node == nodes[p]
      modifies node`data
      ensures Valid() && Contents() == old(Contents())[p := data]
    {
      hide NodeAt;
      node.data := data;
    }

    /** Make the neighbours of a node, and the ends of the list, pass it by. */
    method Unlink(node: ListNode, ghost p: nat)
      requires Valid() && p < |nodes| && node == nodes[p]
      modifies this`head, this`tail, repr
      ensures head == NodeAt(nodes, if p == 0 then 1 else 0)
      ensures tail == NodeAt(nodes, if p == |nodes| - 1 then p - 1 else |nodes| - 1)
      ensures forall i | 0 <= i < |nodes| :: nodes[i].data == old(nodes[i].data)
      ensures forall i | 0 <= i < |nodes| :: nodes[i].prev == NodeAt(nodes, if i == p + 1 then p - 1 else i - 1)
      ensures forall i | 0 <= i < |nodes| :: nodes[i].next == NodeAt(nodes, if i == p - 1 then p + 1 else i + 1)
    {
      hide NodeAt;
      Places(nodes, p);
      assert node.prev == NodeAt(nodes, p - 1) && node.next == NodeAt(nodes, p + 1);
      if node.prev != null {
        node.prev.next := node.next;
      }
      if node.next != null {
        node.next.prev := node.prev;
      }
      if head == node {
        head := node.next;
      }
      if tail == node {
        tail := node.prev;
      }
    }

    method DeleteNode(node: ListNode, ghost p: nat)
      requires Valid() && p < |nodes| && node == nodes[p]
      modifies this`head, this`tail, this`nodes, repr
      ensures Valid() && Contents() == Deleted(old(Contents()), p)
      ensures nodes == old(nodes)[..p] + old(nodes)[p + 1..]
    {
      hide NodeAt;
      Unlink(node, p);
      ghost var before := nodes;
      nodes := nodes[..p] + nodes[p + 1..];
      assert forall i | 0 <= i < |nodes| :: nodes[i] == before[if i < p then i else i + 1];
      SkipsOne(before, nodes, p);
    }
  }

  /** One core: its versions and its list. Ghost parameters name the states of the machine around a call. */
  class Core {
    const id: nat
    const neighbors: nat
    var lastVersion: nat
    var lastCommitted: nat
    const activeReqs: List

    constructor (id: nat, neighbors: nat, version: nat)
      ensures this.id == id && this.neighbors == neighbors && fresh(activeReqs)
      ensures activeReqs.Valid() && activeReqs.Contents() == [] && activeReqs.repr == {}
      ensures lastVersion == version && lastCommitted == 0
    {
      this.id, this.neighbors := id, neighbors;
      lastVersion, lastCommitted := version, 0;
      activeReqs := new List();
    }

    ghost predicate Shows(k: Node)
      reads this, activeReqs, activeReqs.nodes
    {
      && activeReqs.Valid()
      && k.lastVersion == lastVersion && k.lastCommitted == lastCommitted && k.pending == activeReqs.Contents()
    }

    method Vote(vote: bool, node: nat, version: nat, ghost k: Node) returns (answer: Msg, ghost k': Node)
      requires Shows(k)
      modifies this`lastVersion
      ensures Shows(k') && CastVote(k, node, version, vote) == Go(k', [answer])
      ensures answer == Reply(node, version, vote && version > old(lastVersion))
      ensures lastVersion == if answer.yes then version else old(lastVersion)
    {
      var yes := vote && version > lastVersion;
      if yes {
        lastVersion := version;
      }
      answer := Reply(node, version, yes);
      k' := CastVote(k, node, version, vote).node;
    }

    /** Send a request on to all children and open it. */
    method ForwardRequest(node: nat, version: nat, ghost k: Node) returns (ok: bool, ghost k': Node)
      requires Shows(k) && k.pc.Spreading? && k.pc.msg == Req(node, version)
      modifies activeReqs, activeReqs.repr
      ensures fresh(activeReqs.repr - old(activeReqs.repr))
      ensures ok == Finish(id, k).Go?
      ensures ok ==> Shows(k') && k' == Finish(id, k).node
    {
      var open, _ := activeReqs.FindNode(node, version);
      ok := open == null;
      k' := k;
      if ok {
        activeReqs.AddNode(Pending(node, version, 0, true));
        k' := Finish(id, k).node;
      }
    }

    /** What processing a message must come to: the handler, and the sends it causes. */
    ghost predicate Processed(k: Node, m: Msg, heard: set<nat>, ok: bool, polling: bool,
                              answer: seq<Msg>, spread: seq<Msg>, k': Node)
    {
      var o := Handle(neighbors, id, k, m, heard);
      var spreads := o.Go? && o.node.pc.Spreading? && !m.Reply?;
      && (ok <==> o.Go? && (spreads ==> Finish(id, o.node).Go?))
      && (ok ==> && answer == o.answer
                 && (polling <==> !(m.Reply? && o.node.pc.Spreading?))
                 && spread == (if spreads then [o.node.pc.msg] else [])
                 && k' == (if spreads then Finish(id, o.node).node else o.node))
    }

    method ProcessRequest(node: nat, version: nat, ghost k: Node, ghost heard: set<nat>)
      returns (ok: bool, answer: seq<Msg>, spread: seq<Msg>, ghost k': Node)
      requires Shows(k) && k.pc.Polling?
      modifies this`lastVersion, activeReqs, activeReqs.repr
      ensures Processed(k, Req(node, version), heard, ok, true, answer, spread, k') && (ok ==> Shows(k'))
    {
      hide NodeAt;
      ok, answer, spread := true, [], [];
      if neighbors == 1 {
        var a;
        a, k' := Vote(true, node, version, k.(asked := k.asked + 1));
        answer := [a];
      } else {
        spread := [Req(node, version)];
        ok, k' := ForwardRequest(node, version,
          k.(asked := k.asked + 1, heard := {}, pc := Spreading(Req(node, version), {})));
      }
    }

    method ProcessReply(node: nat, version: nat, yes: bool, ghost k: Node, ghost heard: set<nat>)
      returns (ok: bool, polling: bool, answer: seq<Msg>, ghost k': Node)
      requires Shows(k) && k.pc.Polling?
      modifies this`lastVersion, activeReqs.repr
      ensures Processed(k, Reply(node, version, yes), heard, ok, polling, answer, [], k') && (ok ==> Shows(k'))
    {
      hide NodeAt, Finish, List.Valid;
      ok, polling, answer, k' := true, true, [], k;
      var state, p := activeReqs.FindNode(node, version);
      NodePlace(activeReqs.nodes, p);
      activeReqs.Members();
      if state == null {
        return false, true, [], k;
      }
      assert state.data == k.pending[p];
      activeReqs.Track(state, CountReply(state.data, yes), p);
      assert activeReqs.Contents()[p] == state.data;
      k' := k.(pending := activeReqs.Contents(), heard := heard);
      if node == id && state.data.numResp >= neighbors {
        polling := false;
        k' := Handle(neighbors, id, k, Reply(node, version, yes), heard).node;
      } else if node != id && state.data.numResp + 1 >= neighbors {
        var a;
        a, k' := Vote(state.data.accept, node, version, k');
        answer := [a];
      }
    }

    /** No core is sent its own commit. */
    method ProcessCommit(node: nat, version: nat, ghost k: Node, ghost heard: set<nat>)
      returns (ok: bool, spread: seq<Msg>, ghost k': Node)
      requires Shows(k) && k.pc.Polling? && node != id
      modifies this`lastCommitted, activeReqs, activeReqs.repr
      ensures Processed(k, Commit(node, version), heard, ok, true, [], spread, k') && (ok ==> Shows(k'))
    {
      hide NodeAt, List.Valid;
      ok, spread, k' := lastVersion >= version && version > lastCommitted, [], k;
      if !ok {
        return;
      }
      lastCommitted := version;
      var state, p := activeReqs.FindNode(node, version);
      NodePlace(activeReqs.nodes, p);
      if state != null {
        activeReqs.DeleteNode(state, p);
        spread := [Commit(node, version)];
      } else {
        ok := neighbors == 1;
      }
      k' := k.(lastCommitted := version, told := k.told + 1, pending := activeReqs.Contents());
    }

    /** Process one message, up to and including the sends it causes; `polling` says whether to go on. The
      * asserts hold exactly if an inner core's request is new, a reply is for an open request, and a commit
      * is for a version known here and later than the last commit, open unless the core is a leaf. */
    method Process(m: Msg, ghost k: Node, ghost heard: set<nat>)
      returns (ok: bool, polling: bool, answer: seq<Msg>, spread: seq<Msg>, ghost k': Node)
      requires Shows(k) && k.pc.Polling? && (m.Commit? ==> m.node != id)
      modifies this`lastVersion, this`lastCommitted, activeReqs, activeReqs.repr
      ensures Processed(k, m, heard, ok, polling, answer, spread, k') && (ok ==> Shows(k'))
      ensures var open := exists p | 0 <= p < |k.pending| ::
                            k.pending[p].core == m.node && k.pending[p].version == m.version;
              ok == match m
                    case Req(_, _) => neighbors == 1 || !open
                    case Reply(_, _, _) => open
                    case Commit(_, version) =>
                      && old(lastCommitted) < version <= old(lastVersion)
                      && (open || neighbors == 1)
    {
      hide NodeAt, List.Valid, CastVote;
      AssertsAre(neighbors, id, k, m, heard);
      polling, answer, spread := true, [], [];
      match m
      case Req(node, version) => ok, answer, spread, k' := ProcessRequest(node, version, k, heard);
      case Reply(node, version, yes) => ok, polling, answer, k' := ProcessReply(node, version, yes, k, heard);
      case Commit(node, version) => ok, spread, k' := ProcessCommit(node, version, k, heard);
    }
  }

  /** When processing a message fails no assert. */
  lemma AssertsAre(neighbors: nat, c: nat, k: Node, m: Msg, heard: set<nat>)
    requires k.pc.Polling? && (m.Commit? ==> m.node != c)
    ensures var o := Handle(neighbors, c, k, m, heard);
            var spreads := o.Go? && o.node.pc.Spreading? && !m.Reply?;
            var open := exists p | 0 <= p < |k.pending| ::
                          k.pending[p].core == m.node && k.pending[p].version == m.version;
            (o.Go? && (spreads ==> Finish(c, o.node).Go?))
            == match m
               case Req(_, _) => neighbors == 1 || !open
               case Reply(_, _, _) => open
               case Commit(_, version) => k.lastCommitted < version <= k.lastVersion && (open || neighbors == 1)
  {
  }

  lemma AddsOne(nodes: seq<ListNode>, node: ListNode)
    ensures var longer, n := nodes + [node], |nodes|;
            && (forall i :: NodeAt(longer, i) == if i == n then node else NodeAt(nodes, i))
            && (NodeAt(nodes, 0) == null <==> n == 0) && (NodeAt(nodes, n - 1) == null <==> n == 0)
            && (0 < n ==> NodeAt(nodes, n - 1) == nodes[n - 1])
            && NodeAt(nodes, n) == null && NodeAt(nodes, n + 1) == null && NodeAt(nodes, -1) == null
  {
  }

  lemma NodePlace(nodes: seq<ListNode>, p: nat)
    requires p <= |nodes|
    ensures NodeAt(nodes, p) == if p == |nodes| then null else nodes[p]
  {
  }

  lemma Places(nodes: seq<ListNode>, p: nat)
    requires p < |nodes|
    ensures NodeAt(nodes, p - 1) == if p == 0 then null else nodes[p - 1]
    ensures NodeAt(nodes, p + 1) == if p == |nodes| - 1 then null else nodes[p + 1]
    ensures NodeAt(nodes, 0) == nodes[0] && NodeAt(nodes, |nodes| - 1) == nodes[|nodes| - 1]
  {
  }

  lemma SkipsOne(before: seq<ListNode>, nodes: seq<ListNode>, p: nat)
    requires p < |before| && nodes == before[..p] + before[p + 1..]
    ensures forall i :: NodeAt(nodes, i) == NodeAt(before, if i < p then i else i + 1)
  {
  }

  lemma FindIs(list: seq<Pending>, core: nat, version: nat, p: nat)
    requires p < |list| && list[p].core == core && list[p].version == version
    requires forall j | 0 <= j < p :: list[j].core != core || list[j].version != version
    ensures Find(list, core, version) == p
  {
  }

  lemma FindNone(list: seq<Pending>, core: nat, version: nat)
    requires forall j | 0 <= j < |list| :: list[j].core != core || list[j].version != version
    ensures Find(list, core, version) == |list|
  {
  }
}
