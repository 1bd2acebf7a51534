/** One replica of the log: what its message handlers do to its state, including the ways they would
  * corrupt it or crash. */
module RaftReplica {
  import opened RaftCommit
  import opened Wrappers

  /** How a handler can go wrong:
    * a null pointer is followed;
    * the `prev` link of the queue's first entry is used, which nothing ever sets: what it holds is written
    * through, or, where it is tested first and happens to be null, `head` is left at the freed entry;
    * `tail` is left at a freed entry;
    * an assert fails;
    * an array is indexed past the replicas. */
  datatype Harm = NullPointer | UnsetLink | FreedTail | AssertFails | OutOfRange

  /** A client's command; its header names the client, the payload words are one value. */
  datatype Request = Request(client: nat, payload: nat)

  datatype Entry = Entry(index: nat, term: nat, request: Request, execCount: nat)

  datatype Replica = Replica(
    id: nat, term: nat, leader: nat,
    commitIndex: nat, lastApplied: nat, lastLogIndex: nat,
    queue: seq<Entry>,
    nextIndex: seq<nat>, matchIndex: seq<nat>,
    executed: seq<Request>)

  datatype Append = Append(term: nat, leader: nat, prev: nat, commit: nat, request: Request)

  datatype Ack = Ack(term: nat, lastIndex: nat, from: nat, success: bool, client: nat)

  /** What a handler leaves behind: the new state and what it sent, or harm. */
  datatype Outcome =
    | Fault(harm: Harm)
    | Done(replica: Replica, replies: seq<Request>, acks: seq<Ack>, resent: seq<Append>)

  // ----- the log queue -----

  /** Where the entry with this index is; the length of the queue if there is none. */
  function Find(q: seq<Entry>, index: nat): (p: nat)
    ensures p <= |q|
    ensures p < |q| ==> q[p].index == index
    ensures forall j | 0 <= j < p :: q[j].index != index
  {
    if q == [] || q[0].index == index then 0 else 1 + Find(q[1..], index)
  }

  predicate Contains(q: seq<Entry>, index: nat) {
    Find(q, index) < |q|
  }

  function Without<T>(q: seq<T>, p: nat): seq<T>
    requires p < |q|
  {
    q[..p] + q[p + 1..]
  }

  /** What taking entries out leaves of the queue. */
  datatype Trimmed = Intact(queue: seq<Entry>) | Broken(harm: Harm)

  /** Unlinking writes through both neighbours, unguarded: the previous one first. */
  function Remove(q: seq<Entry>, index: nat): Trimmed {
    var p := Find(q, index);
    if p == |q| then Intact(q)
    else if p == 0 then Broken(UnsetLink)
    else if p == |q| - 1 then Broken(NullPointer)
    else Intact(Without(q, p))
  }

  /** The conflict branch: remove entries of consecutive indices until one is missing. */
  function RemoveConflicts(q: seq<Entry>, index: nat): Trimmed
    decreases |q|
  {
    if !Contains(q, index) then Intact(q)
    else
      match Remove(q, index)
      case Broken(harm) => Broken(harm)
      case Intact(rest) => RemoveConflicts(rest, index + 1)
  }

  /** The predecessor of a 64-bit index. */
  function Before(index: nat): nat {
    if index == 0 then 0xFFFF_FFFF_FFFF_FFFF else index - 1
  }

  predicate Removable(e: Entry, n: nat, commit: nat) {
    e.execCount == n && e.index < Before(commit)
  }

  function Kept(q: seq<Entry>, n: nat, commit: nat): seq<Entry> {
    if q == [] then []
    else Kept(q[..|q| - 1], n, commit) + if Removable(q[|q| - 1], n, commit) then [] else [q[|q| - 1]]
  }

  /** Cleaning up guards the links to both neighbours, but never moves the queue's own ends. */
  function Cleanup(q: seq<Entry>, n: nat, commit: nat): Trimmed {
    if q == [] then Intact(q)
    else if Removable(q[0], n, commit) then Broken(UnsetLink)
    else if Removable(q[|q| - 1], n, commit) then Broken(FreedTail)
    else Intact(Kept(q, n, commit))
  }

  // ----- state updates -----

  function UpdateState(r: Replica, term: nat, leader: nat): Replica {
    if term > r.term then r.(term := term, leader := leader) else r
  }

  /** Applying one entry: the new state and the clients answered, or harm. */
  datatype Applied = Applied(replica: Replica, replies: seq<Request>) | Harmed(harm: Harm)

  /** Apply the next committed entry: execute it, then answer the client and clean up, or trim. */
  function ApplyNext(r: Replica): (o: Applied)
    ensures o.Applied? ==> o.replica.commitIndex == r.commitIndex && o.replica.lastApplied == r.lastApplied + 1
  {
    var a := r.lastApplied + 1;
    if !Contains(r.queue, a) then Harmed(NullPointer)
    else
      var p := Find(r.queue, a);
      var e := r.queue[p];
      var r1 := r.(lastApplied := a, executed := r.executed + [e.request]);
      if r.id == r.leader then
        match Cleanup(r.queue[p := e.(execCount := e.execCount + 1)], |r.matchIndex|, r.commitIndex)
        case Broken(harm) => Harmed(harm)
        case Intact(q) => Applied(r1.(queue := q), [e.request])
      else if a > 2 then
        match Remove(r.queue, a - 2)
        case Broken(harm) => Harmed(harm)
        case Intact(q) => Applied(r1.(queue := q), [])
      else
        Applied(r1, [])
  }

  function ApplyEntries(r: Replica): Outcome
    decreases r.commitIndex - r.lastApplied
  {
    if r.commitIndex <= r.lastApplied then Done(r, [], [], [])
    else
      match ApplyNext(r)
      case Harmed(harm) => Fault(harm)
      case Applied(r', replies) => Answering(replies, ApplyEntries(r'))
  }

  function Answering(replies: seq<Request>, o: Outcome): Outcome {
    if o.Fault? then o else o.(replies := replies + o.replies)
  }

  function Then(o: Outcome, acks: seq<Ack>, resent: seq<Append>): Outcome {
    if o.Fault? then o else o.(acks := acks + o.acks, resent := resent + o.resent)
  }

  // ----- handlers -----

  /** The leader's part of a request before it sends: append to its own log. */
  function AppendOwn(r: Replica, request: Request): Replica {
    r.(lastLogIndex := r.lastLogIndex + 1,
       queue := r.queue + [Entry(r.lastLogIndex + 1, r.term, request, 0)])
  }

  function AppendMessage(r: Replica, request: Request): Append
    requires 0 < r.lastLogIndex
  {
    Append(r.term, r.leader, r.lastLogIndex - 1, r.commitIndex, request)
  }

  function Accept(r: Replica, m: Append, q: seq<Entry>): Replica {
    var commit := if m.commit <= m.prev + 1 then m.commit else m.prev + 1;
    r.(lastLogIndex := m.prev + 1,
       queue := q + [Entry(m.prev + 1, m.term, m.request, 0)],
       commitIndex := if m.commit > r.commitIndex then commit else r.commitIndex)
  }

  /** A follower whose log has the entry before it takes an entry. */
  function TakeEntry(r: Replica, m: Append): Outcome {
    match RemoveConflicts(r.queue, m.prev + 1)
    case Broken(harm) => Fault(harm)
    case Intact(q) =>
      Then(ApplyEntries(Accept(r, m, q)), [Ack(r.term, m.prev + 1, r.id, true, m.request.client)], [])
  }

  function HandleAppend(r0: Replica, m: Append): Outcome {
    var r := UpdateState(r0, m.term, m.leader);
    if r.id == m.leader then ApplyEntries(r)
    else if m.term < r.term || !Contains(r.queue, m.prev) then
      Done(r, [], [Ack(r.term, m.prev, r.id, false, m.request.client)], [])
    else TakeEntry(r, m)
  }

  /** The leader's bookkeeping for a successful response, up to the new commit index. */
  function Acknowledge(r: Replica, a: Ack, p: nat): Replica
    requires a.from < |r.nextIndex| && a.from < |r.matchIndex| && p < |r.queue|
  {
    var m := r.matchIndex[a.from := a.lastIndex];
    r.(nextIndex := r.nextIndex[a.from := a.lastIndex + 1], matchIndex := m,
       queue := r.queue[p := r.queue[p].(execCount := r.queue[p].execCount + 1)],
       commitIndex := CommitIndex(m, r.commitIndex))
  }

  /** The entry at `p` is acknowledged: record it, and send the next one if there is one. */
  function Succeed(r: Replica, a: Ack, p: nat): Outcome
    requires a.from < |r.nextIndex| && a.from < |r.matchIndex| && p < |r.queue|
  {
    var r1 := Acknowledge(r, a, p);
    if r1.lastLogIndex < a.lastIndex + 1 then ApplyEntries(r1)
    else if p + 1 == |r.queue| then Fault(AssertFails)
    else
      var next := Request(a.client, r.queue[p + 1].request.payload);
      Then(ApplyEntries(r1), [], [Append(r.term, r.id, a.lastIndex, r1.commitIndex, next)])
  }

  function HandleAppendResponse(r0: Replica, a: Ack): Outcome {
    var r := UpdateState(r0, a.term, r0.leader);
    if a.from >= |r.nextIndex| || a.from >= |r.matchIndex| then Fault(OutOfRange)
    else if a.success then
      var p := Find(r.queue, a.lastIndex);
      if p == |r.queue| then Fault(NullPointer) else Succeed(r, a, p)
    else if a.lastIndex < r.matchIndex[a.from] then Done(r, [], [], [])
    else Fault(AssertFails)
  }

  // ----- what removal does -----

  /** Smaller indices, then `index` at place `p` and one more at each place after it. */
  predicate RunsOnFrom(q: seq<Entry>, index: nat, p: nat) {
    && p < |q|
    && (forall j | 0 <= j < p :: q[j].index < index)
    && (forall j | p <= j < |q| :: q[j].index == index + (j - p))
  }

  /** On a queue whose indices run on without a gap, deleting a conflicting suffix always follows a null
    * pointer, as the last entry has no successor to unlink, unless it starts at the first entry. */
  lemma {:induction false} ConflictAlwaysFaults(q: seq<Entry>, index: nat, p: nat)
    requires RunsOnFrom(q, index, p)
    ensures RemoveConflicts(q, index) == Broken(if p == 0 then UnsetLink else NullPointer)
    decreases |q|
  {
    hide Find;
    FindIs(q, index, p);
    if p != 0 && p != |q| - 1 {
      RunsOnWithout(q, index, p);
      hide RunsOnFrom, Without;
      ConflictAlwaysFaults(Without(q, p), index + 1, p);
    }
  }

  lemma RunsOnWithout(q: seq<Entry>, index: nat, p: nat)
    requires RunsOnFrom(q, index, p) && p < |q| - 1
    ensures RunsOnFrom(Without(q, p), index + 1, p) && |Without(q, p)| < |q|
  {
  }

  lemma {:induction false} FindIs(q: seq<Entry>, index: nat, p: nat)
    requires p < |q| && q[p].index == index && forall j | 0 <= j < p :: q[j].index != index
    ensures Find(q, index) == p
  {
  }
}
