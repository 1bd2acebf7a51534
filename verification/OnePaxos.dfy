/** The steady state of 1Paxos: replica 0 leads, replica 1 is the acceptor and orders everything, all others
  * learn from it. Channels are reliable and first-in-first-out. */
module OnePaxos {

  const NONE: nat := 0xFFFF_FFFF_FFFF_FFFF   // "nothing executed yet"
  const IDS: nat := 0x1_0000_0000            // request ids are 32 bits wide

  datatype Request = Request(client: nat, id: nat)

  datatype Learn = Learn(request: Request, index: nat)

  datatype Tag = Ask | Accepting | Learning | Response

  /** What a receive buffer holds. */
  datatype Message = Message(tag: Tag, request: Request)

  /** The leader allocates one buffer, for all it ever receives. */
  const MESSAGE: nat := 0

  /** A message the leader has received. */
  datatype Heard = Asked(request: Request) | Learned(request: Request)

  /** `last` holds the id last executed for each client. */
  datatype Replica = Replica(index: nat, last: seq<nat>, executed: seq<Request>)

  /** A repeated or stale request is not executed. */
  predicate Fresh(last: seq<nat>, r: Request) {
    r.client < |last| && last[r.client] != r.id && !(last[r.client] > r.id && last[r.client] != NONE)
  }

  function Execute(k: Replica, r: Request): Replica {
    if Fresh(k.last, r) then k.(last := k.last[r.client := r.id], executed := k.executed + [r]) else k
  }

  function HandleLearn(k: Replica, m: Learn): Replica {
    Execute(k, m.request).(index := m.index + 1)
  }

  datatype AcceptorPc = Receiving | Broadcasting(request: Request, i: nat)

  /** An entry of the leader's queue is the address of a buffer. */
  datatype State = State(
    replicas: seq<Replica>, pc: AcceptorPc,
    toAcceptor: seq<Message>, learns: seq<seq<Learn>>,
    proposalIndex: nat, queue: seq<nat>, buffers: seq<Message>,
    requests: seq<Request>, replies: seq<Message>, heard: seq<Heard>)

  datatype Action =
    | Arrive(r: Request)  // the leader takes a request
    | Accept              // the acceptor takes a proposal
    | Broadcast           // its next send, or the end of its loop
    | Take(i: nat)        // another replica takes a learn message

  predicate Shaped(s: State) {
    2 <= |s.replicas| == |s.learns| && |s.buffers| == 1
  }

  predicate Enabled(s: State, a: Action) {
    && Shaped(s)
    && match a
       case Arrive(r) => r.client < |s.replicas[0].last| && r.id < IDS
       case Accept => s.pc.Receiving? && s.toAcceptor != [] && s.toAcceptor[0].tag == Accepting
       case Broadcast => s.pc.Broadcasting?
       case Take(i) => i < |s.replicas| && i != 1 && s.learns[i] != []
  }

  /** What the leader does with its queue of open entries, its buffer, and the reply, when it learns. */
  function LeaderLearns(s: State, m: Learn): State
    requires Shaped(s)
  {
    var k, isNew := HandleLearn(s.replicas[0], m), Fresh(s.replicas[0].last, m.request);
    var buffer := Message(if isNew then Response else Learning, m.request);
    s.(replicas := s.replicas[0 := k],
       queue := if |s.queue| > s.proposalIndex - k.index + 1 && s.queue != [] then s.queue[1..] else s.queue,
       buffers := s.buffers[MESSAGE := buffer],
       replies := if isNew then s.replies + [buffer] else s.replies,
       heard := s.heard + [Learned(m.request)])
  }

  function Apply(s: State, a: Action): State
    requires Enabled(s, a)
  {
    match a
    case Arrive(r) =>
      s.(queue := s.queue + [MESSAGE], buffers := s.buffers[MESSAGE := Message(Accepting, r)],
         toAcceptor := s.toAcceptor + [Message(Accepting, r)], proposalIndex := s.proposalIndex + 1,
         requests := s.requests + [r], heard := s.heard + [Asked(r)])
    case Accept => s.(pc := Broadcasting(s.toAcceptor[0].request, 0), toAcceptor := s.toAcceptor[1..])
    case Broadcast =>
      var r, i, k := s.pc.request, s.pc.i, s.replicas[1];
      if i < |s.replicas| then
        s.(learns := if i == 1 then s.learns else s.learns[i := s.learns[i] + [Learn(r, k.index)]],
           pc := Broadcasting(r, i + 1))
      else
        s.(replicas := s.replicas[1 := Execute(k, r).(index := k.index + 1)], pc := Receiving)
    case Take(i) =>
      var m, s1 := s.learns[i][0], s.(learns := s.learns[i := s.learns[i][1..]]);
      if i == 0 then LeaderLearns(s1, m)
      else s1.(replicas := s1.replicas[i := HandleLearn(s1.replicas[i], m)])
  }

  predicate Init(s: State, clients: nat) {
    && Shaped(s) && s.pc == Receiving && s.toAcceptor == [] && s.queue == [] && s.proposalIndex == 0
    && s.requests == [] && s.replies == [] && s.heard == []
    && forall i | 0 <= i < |s.replicas| ::
         s.replicas[i] == Replica(0, seq(clients, _ => NONE), []) && s.learns[i] == []
  }

  ghost predicate Next(s: State, s': State) {
    exists a :: Enabled(s, a) && s' == Apply(s, a)
  }

  ghost predicate Run(t: seq<State>, clients: nat) {
    && 0 < |t| && Init(t[0], clients)
    && forall i | 0 < i < |t| :: Next(t[i - 1], t[i])
  }
}
