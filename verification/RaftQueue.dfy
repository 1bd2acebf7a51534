/** The log queue of a replica as linked entries, with what removal leaves of its links. */
module RaftQueue {
  import opened RaftReplica
  import opened Wrappers

  /** A pointer that may never have been written. */
  datatype Link = Unset | Set(node: LogNode?)

  class LogNode {
    var entry: Entry
    var next: LogNode?
    var prev: Link
    var freed: bool

    constructor (entry: Entry)
      ensures this.entry == entry && next == null && prev.Unset? && !freed
    {
      this.entry, next, prev, freed := entry, null, Unset, false;
    }
  }

  ghost function NodeAt(nodes: seq<LogNode>, i: int): LogNode? {
    if 0 <= i < |nodes| then nodes[i] else null
  }

  /** The link back from node `i`: nothing sets the first one. */
  ghost function BackLink(nodes: seq<LogNode>, i: int): Link {
    if 0 < i <= |nodes| then Set(nodes[i - 1]) else Unset
  }

  function CountedOnce(e: Entry): Entry {
    e.(execCount := e.execCount + 1)
  }

  class LogQueue {
    var head: LogNode?
    var tail: LogNode?
    ghost var nodes: seq<LogNode>
    ghost var repr: set<LogNode>       // every entry ever queued

    /** Walking from the head passes the nodes in order, and the links back do, but for the first one. */
    ghost predicate Linked()
      reads this, nodes
    {
      && head == NodeAt(nodes, 0)
      && (forall i, j | 0 <= i < j < |nodes| :: nodes[i] != nodes[j])
      && (forall i | 0 <= i < |nodes| ::
            && nodes[i] in repr && !nodes[i].freed
            && nodes[i].prev == BackLink(nodes, i) && nodes[i].next == NodeAt(nodes, i + 1))
    }

    ghost predicate Valid()
      reads this, nodes
    {
      Linked() && tail == NodeAt(nodes, |nodes| - 1)
    }

    /** Linked, with the tail at the last node, or at one that has been freed. */
    ghost predicate Ended(freed: bool)
      reads this, nodes, tail
    {
      Linked() && if freed then tail != null && tail.freed else Valid()
    }

    ghost function Contents(): (q: seq<Entry>)
      reads this, nodes
      ensures |q| == |nodes|
    {
      seq(|nodes|, i requires 0 <= i < |nodes| reads this, nodes => nodes[i].entry)
    }

    constructor ()
      ensures Valid() && Contents() == [] && repr == {}
    {
      head, tail, nodes, repr := null, null, [], {};
    }

    method Enqueue(entry: Entry)
      requires Valid()
      modifies this, repr
      ensures Valid() && Contents() == old(Contents()) + [entry] && fresh(repr - old(repr))
    {
      hide NodeAt, BackLink;
      var node := new LogNode(entry);
      AddsOne(nodes, node);
      if head == null {
        head, tail := node, node;
      } else {
        var before := tail;
        tail.next := node;
        tail := node;
        tail.prev := Set(before);
      }
      nodes, repr := nodes + [node], repr + {node};
    }

    /** Walk from the head to the first entry with this index. */
    method QueueContains(index: nat) returns (node: LogNode?, ghost p: nat)
      requires Valid()
      ensures p == Find(Contents(), index) && node == NodeAt(nodes, p)
    {
      node, p := head, 0;
      while node != null
        invariant p <= |nodes| && node == NodeAt(nodes, p)
        invariant forall j | 0 <= j < p :: Contents()[j].index != index
        decreases |nodes| - p
      {
        if node.entry.index == index {
          FindIs(Contents(), index, p);
          return;
        }
        node, p := node.next, p + 1;
      }
      FindNone(Contents(), index);
    }

    /** Count one more execution of an entry. */
    method CountExecution(node: LogNode, ghost p: nat)
      requires Valid() && p < |nodes| && node == nodes[p]
      modifies node`entry
      ensures Valid() && Contents() == old(Contents())[p := CountedOnce(old(Contents())[p])]
    {
      hide NodeAt, BackLink;
      node.entry := node.entry.(execCount := node.entry.execCount + 1);
    }

    /** Make the neighbours of a node that is not the first pass it by. */
    method Relink(node: LogNode, ghost p: nat)
      requires Linked() && 0 < p < |nodes| && node == nodes[p]
      modifies nodes
      ensures forall i | 0 <= i < |nodes| :: nodes[i].entry == old(nodes[i].entry) && !nodes[i].freed
      ensures forall i | 0 <= i < |nodes| :: nodes[i].next == NodeAt(nodes, if i == p - 1 then p + 1 else i + 1)
      ensures forall i | 0 <= i < |nodes| :: nodes[i].prev == BackLink(nodes, if i == p + 1 then p else i)
    {
      hide NodeAt, BackLink;
      Places(nodes, p);
      var prev, next := node.prev.node, node.next;
      prev.next := next;
      if next != null {
        next.prev := Set(prev);
      }
    }

    /** Take a node that is not the first out; the queue's own ends stay as they are. */
    method PassBy(node: LogNode, ghost p: nat)
      requires Linked() && 0 < p < |nodes| && node == nodes[p]
      modifies this, repr
      ensures Linked() && nodes == Without(old(nodes), p) && Contents() == Without(old(Contents()), p)
      ensures node.next == old(node.next) && !node.freed && node in repr
      ensures repr == old(repr) && tail == old(tail)
    {
      hide NodeAt, BackLink;
      Relink(node, p);
      ghost var before := nodes;
      nodes := Without(nodes, p);
      SkipsOne(before, nodes, p);
    }

    /** Looking at place `p`. */
    lemma Holds(p: nat)
      requires Valid()
      ensures NodeAt(nodes, p) == null <==> |Contents()| <= p
      ensures p < |nodes| ==> NodeAt(nodes, p) == nodes[p] && Contents()[p] == nodes[p].entry && nodes[p] in repr
      ensures p < |nodes| ==> (nodes[p].next == null <==> p + 1 == |nodes|)
      ensures p + 1 < |nodes| ==> nodes[p].next == nodes[p + 1] && Contents()[p + 1] == nodes[p + 1].entry
    {
    }

    lemma ValidIsLinked()
      requires Valid()
      ensures Linked()
    {
    }

    lemma EntryAt(p: nat)
      requires p < |nodes|
      ensures Contents()[p] == nodes[p].entry
    {
    }

    lemma ValidIsEnded()
      requires Valid()
      ensures Ended(false) && head == NodeAt(nodes, 0)
    {
    }

    lemma EndedIsValid()
      requires Ended(false)
      ensures Valid()
    {
    }

    lemma TailTells(freed: bool)
      requires Ended(freed)
      ensures (tail != null && tail.freed) <==> freed
      ensures !freed ==> Valid()
    {
    }

    lemma EndLinks(p: nat)
      requires Linked() && p < |nodes|
      ensures nodes[p].prev.Unset? <==> p == 0
      ensures nodes[p].next == NodeAt(nodes, p + 1)
      ensures nodes[p].next == null <==> p + 1 == |nodes|
    {
    }

    /** And the tail stays the queue's last node, unless that is the one taken out. */
    method Drop(node: LogNode, ghost p: nat)
      requires Valid() && 0 < p < |nodes| && node == nodes[p]
      modifies this, repr
      ensures Linked() && nodes == Without(old(nodes), p) && Contents() == Without(old(Contents()), p)
      ensures node.next == old(node.next) && !node.freed && node !in nodes && node in repr && repr == old(repr)
      ensures if p + 1 < |old(nodes)| then Valid() else tail == node
    {
      hide NodeAt, BackLink;
      LastOf(nodes, p);
      PassBy(node, p);
    }

    /** The first entry with this index is taken out by writing through both of its links, unguarded. */
    method RemoveEntry(index: nat) returns (harm: Option<Harm>, node: LogNode?)
      requires Valid()
      modifies this, repr
      ensures var o := Remove(old(Contents()), index);
              && (harm.None? <==> o.Intact?) && (harm.Some? ==> o == Broken(harm.value))
              && (harm.None? ==> Valid() && Contents() == o.queue)
      ensures node == old(NodeAt(nodes, Find(Contents(), index)))
      ensures harm.None? && node != null ==> node in repr && node !in nodes
      ensures repr == old(repr)
    {
      hide Find, Contents, Linked, Valid, NodeAt, Without;
      ghost var p;
      node, p := QueueContains(index);
      harm := None;
      Places(nodes, p);
      if node == null {
        return;
      }
      assert Linked() && p < |nodes| by {
        ValidIsLinked();
      }
      EndLinks(p);
      if node.prev.Unset? {
        harm := Some(UnsetLink);
      } else if node.next == null {
        harm := Some(NullPointer);
      } else {
        Drop(node, p);
      }
    }

    /** Take a node that is not the first out and free it. */
    method Free(node: LogNode, ghost p: nat)
      requires Valid() && 0 < p < |nodes| && node == nodes[p]
      modifies this, repr
      ensures Ended(p + 1 == |old(nodes)|) && Contents() == Without(old(Contents()), p)
      ensures old(node.next) == NodeAt(nodes, p) && repr == old(repr)
    {
      ValidIsLinked();
      EndLinks(p);
      NextIsHere(nodes, p);
      hide Contents, Linked, Valid, Ended, NodeAt, Without;
      Drop(node, p);
      Discard(node, p + 1 == |old(nodes)|);
    }

    method Discard(node: LogNode, ghost isTail: bool)
      requires Linked() && node !in nodes && node in repr
      requires if isTail then tail == node else Valid()
      modifies node`freed
      ensures Ended(isTail) && Contents() == old(Contents())
    {
      hide Contents, NodeAt, BackLink;
      node.freed := true;
    }

    /** Look at one entry, guarding both links when it goes. */
    method Sweep(ele: LogNode, n: nat, commit: nat, ghost p: nat)
      returns (harm: Option<Harm>, next: LogNode?, ghost p': nat)
      requires Valid() && p < |nodes| && ele == nodes[p]
      modifies this, repr
      ensures Swept(old(Contents())[p], p, n, commit, harm, p', old(Contents()), Contents())
      ensures harm.None? ==> next == NodeAt(nodes, p') && Ended(p' == p && p + 1 == |old(nodes)|)
      ensures repr == old(repr)
    {
      ValidIsLinked();
      EndLinks(p);
      EntryAt(p);
      ValidIsEnded();
      hide Contents, Linked, Valid, Ended, NodeAt, Without, Before;
      harm, next, p' := None, ele.next, p + 1;
      if ele.entry.execCount == n && ele.entry.index < Before(commit) {
        if ele.prev.Unset? {
          return Some(UnsetLink), next, p;
        }
        p' := p;
        Free(ele, p);
      }
    }

    /** Free every entry executed on all replicas and older than the commit index. */
    method Cleanup(n: nat, commit: nat) returns (harm: Option<Harm>)
      requires Valid()
      modifies this, repr
      ensures var o := RaftReplica.Cleanup(old(Contents()), n, commit);
              && (harm.None? <==> o.Intact?) && (harm.Some? ==> o == Broken(harm.value))
              && (harm.None? ==> Valid() && Contents() == o.queue)
      ensures harm == Some(FreedTail) ==> tail != null && tail.freed
      ensures repr == old(repr)
    {
      hide Contents, Linked, Valid, Ended, NodeAt, KeptSoFar, Swept, LastGoes, RaftReplica.Cleanup;
      harm := None;
      ghost var q, i: nat, p: nat := Contents(), 0, 0;
      NothingSwept(q, n, commit);
      ValidIsEnded();
      var ele := head;
      while ele != null
        invariant ele == NodeAt(nodes, p) && KeptSoFar(q, i, p, Contents(), n, commit) && i <= |q|
        invariant Ended(i == |q| && LastGoes(q, n, commit))
        invariant repr == old(repr)
        decreases |q| - i
      {
        Places(nodes, p);
        ghost var now, at := Contents(), p;
        NotDone(q, i, at, now, n, commit);
        EndedIsValid();
        harm, ele, p := Sweep(ele, n, commit, at);
        SweepOne(q, i, at, now, n, commit, harm, p, Contents());
        if harm.Some? {
          return;
        }
        i := i + 1;
      }
      Places(nodes, p);
      AllSwept(q, i, p, Contents(), n, commit);
      TailTells(LastGoes(q, n, commit));
      harm := if tail != null && tail.freed then Some(FreedTail) else None;
    }
  }

  /** What looking at the entry at `p` comes to. */
  predicate Swept(e: Entry, p: nat, n: nat, commit: nat, harm: Option<Harm>, p': nat, q: seq<Entry>, q': seq<Entry>)
    requires p < |q|
  {
    if !Removable(e, n, commit) then harm.None? && p' == p + 1 && q' == q
    else if p == 0 then harm == Some(UnsetLink)
    else harm.None? && p' == p && q' == Without(q, p)
  }

  /** The first `i` entries of `q` have been looked at; the `p` of them kept are the first of `now`. */
  ghost predicate KeptSoFar(q: seq<Entry>, i: nat, p: nat, now: seq<Entry>, n: nat, commit: nat) {
    && i <= |q| && now == Kept(q[..i], n, commit) + q[i..] && p == |Kept(q[..i], n, commit)|
    && (0 < i ==> 0 < p && !Removable(q[0], n, commit))
  }

  predicate LastGoes(q: seq<Entry>, n: nat, commit: nat) {
    q != [] && Removable(q[|q| - 1], n, commit)
  }

  lemma NothingSwept(q: seq<Entry>, n: nat, commit: nat)
    ensures KeptSoFar(q, 0, 0, q, n, commit) && (q == [] ==> !LastGoes(q, n, commit))
  {
  }

  lemma AllSwept(q: seq<Entry>, i: nat, p: nat, now: seq<Entry>, n: nat, commit: nat)
    requires KeptSoFar(q, i, p, now, n, commit) && |now| <= p
    ensures i == |q|
    ensures RaftReplica.Cleanup(q, n, commit) == if LastGoes(q, n, commit) then Broken(FreedTail) else Intact(now)
  {
    assert q[..|q|] == q;
  }

  lemma NotDone(q: seq<Entry>, i: nat, p: nat, now: seq<Entry>, n: nat, commit: nat)
    requires KeptSoFar(q, i, p, now, n, commit) && p < |now|
    ensures i < |q|
  {
  }

  lemma SweepOne(q: seq<Entry>, i: nat, p: nat, now: seq<Entry>, n: nat, commit: nat,
                 harm: Option<Harm>, p': nat, now': seq<Entry>)
    requires KeptSoFar(q, i, p, now, n, commit) && p < |now| && Swept(now[p], p, n, commit, harm, p', now, now')
    ensures i < |q| && |now| - p == |q| - i
    ensures harm.Some? ==> Broken(harm.value) == RaftReplica.Cleanup(q, n, commit) == Broken(UnsetLink)
    ensures harm.None? ==> KeptSoFar(q, i + 1, p', now', n, commit)
    ensures harm.None? ==> (p' == p && p + 1 == |now| <==> i + 1 == |q| && LastGoes(q, n, commit))
  {
    assert now[p] == q[i] && q[..i + 1][..i] == q[..i];
  }

  lemma FindNone(q: seq<Entry>, index: nat)
    requires forall j | 0 <= j < |q| :: q[j].index != index
    ensures Find(q, index) == |q|
  {
  }

  lemma AddsOne(nodes: seq<LogNode>, node: LogNode)
    ensures var longer, n := nodes + [node], |nodes|;
            && (forall i :: NodeAt(longer, i) == if i == n then node else NodeAt(nodes, i))
            && (forall i | i <= n :: BackLink(longer, i) == BackLink(nodes, i))
            && BackLink(nodes, n) == (if n == 0 then Unset else Set(NodeAt(nodes, n - 1)))
            && (NodeAt(nodes, 0) == null <==> n == 0) && (0 < n ==> NodeAt(nodes, n - 1) == nodes[n - 1])
            && NodeAt(nodes, n) == null && NodeAt(nodes, n + 1) == null
  {
  }

  lemma Places(nodes: seq<LogNode>, p: nat)
    ensures NodeAt(nodes, p) == if p < |nodes| then nodes[p] else null
    ensures NodeAt(nodes, p + 1) == if p + 1 < |nodes| then nodes[p + 1] else null
    ensures p < |nodes| ==> BackLink(nodes, p) == if p == 0 then Unset else Set(nodes[p - 1])
    ensures p + 1 < |nodes| ==> BackLink(nodes, p + 1) == Set(nodes[p])
  {
  }

  lemma SkipsOne(before: seq<LogNode>, nodes: seq<LogNode>, p: nat)
    requires 0 < p < |before| && nodes == Without(before, p)
    ensures forall i | 0 <= i < |nodes| :: nodes[i] == before[if i < p then i else i + 1]
    ensures forall i :: NodeAt(nodes, i) == NodeAt(before, if i < p then i else i + 1)
    ensures forall i :: BackLink(nodes, i) == BackLink(before, if i <= p then i else i + 1)
  {
  }

  lemma NextIsHere(nodes: seq<LogNode>, p: nat)
    requires p < |nodes|
    ensures NodeAt(Without(nodes, p), p) == NodeAt(nodes, p + 1)
  {
  }

  lemma LastOf(nodes: seq<LogNode>, p: nat)
    requires 0 < p < |nodes|
    ensures NodeAt(nodes, |nodes| - 1) == nodes[|nodes| - 1]
    ensures p + 1 < |nodes| ==> NodeAt(Without(nodes, p), |nodes| - 2) == nodes[|nodes| - 1]
  {
  }
}
