/** Replicated log with a fixed leader: replica 0 handles one client request at a time, sends it to every
  * follower, then takes one response from each follower in turn. Followers run at their own pace; the
  * channels between the leader and each follower are reliable and first-in-first-out. */
module RaftSystem {
  import opened RaftCommit
  import opened RaftReplica
  import opened Wrappers

  /** Where the leader is: in its receive loop, or inside the request handler. */
  datatype Phase =
    | Idle
    | Sending(to: nat, request: Request)
    | Collecting(from: nat)

  /** What the leader's one receive buffer holds: the response taken last, or the entry resent in its place. */
  datatype Message = Response(ack: Ack) | Resent(append: Append)

  /** A reply goes to the client of the request executed, and is whatever the buffer holds. */
  datatype Reply = Reply(request: Request, message: Message)

  datatype State = State(
    replicas: seq<Replica>,
    down: seq<seq<Append>>, up: seq<seq<Ack>>,
    phase: Phase, buf: Message,
    requests: seq<Request>, replies: seq<Reply>,
    fault: Option<Harm>)

  datatype Action = Arrive(request: Request) | Lead | Poll(from: nat) | Follow(i: nat)

  predicate Shaped(s: State) {
    && 0 < |s.replicas| == |s.down| == |s.up|
    && s.fault.None?
  }

  function Replies(requests: seq<Request>, buf: Message): (r: seq<Reply>)
    ensures |r| == |requests| && forall k | 0 <= k < |r| :: r[k] == Reply(requests[k], buf)
  {
    if requests == [] then [] else Replies(requests[..|requests| - 1], buf) + [Reply(requests[|requests| - 1], buf)]
  }

  /** Replica `i` has run a handler for a message from (or, at the leader, of) `peer`. */
  function Settle(s: State, i: nat, peer: nat, o: Outcome): State
    requires i < |s.replicas| && i < |s.up| && peer < |s.down|
  {
    if o.Fault? then s.(fault := Some(o.harm))
    else s.(replicas := s.replicas[i := o.replica], replies := s.replies + Replies(o.replies, s.buf),
            up := s.up[i := s.up[i] + o.acks], down := s.down[peer := s.down[peer] + o.resent])
  }

  predicate Enabled(s: State, a: Action) {
    && Shaped(s)
    && match a
       case Arrive(_) => s.phase.Idle?
       case Lead =>
         (match s.phase
          case Idle => false
          case Sending(to, _) => to < |s.replicas| ==> 0 < s.replicas[0].lastLogIndex
          case Collecting(from) => from < |s.replicas| ==> s.up[from] != [])
       case Poll(from) => s.phase.Idle? && from < |s.replicas| && s.up[from] != []
       case Follow(i) => 0 < i < |s.replicas| && s.down[i] != []
  }

  function TakeResponse(s: State, from: nat): State
    requires Shaped(s) && from < |s.replicas| && s.up[from] != []
  {
    Settle(s.(up := s.up[from := s.up[from][1..]]), 0, from, HandleAppendResponse(s.replicas[0], s.up[from][0]))
  }

  /** Inside the request handler the response is received into the buffer, and an entry resent is built there,
    * before any client is answered. The receive loop has a buffer of its own. */
  function Receive(s: State, from: nat): Message
    requires Shaped(s) && from < |s.replicas| && s.up[from] != []
  {
    var a := s.up[from][0];
    var o := HandleAppendResponse(s.replicas[0], a);
    if o.Done? && o.resent != [] then Resent(o.resent[0]) else Response(a)
  }

  function TakeAppend(s: State, i: nat): State
    requires Shaped(s) && i < |s.replicas| && s.down[i] != []
  {
    Settle(s.(down := s.down[i := s.down[i][1..]]), i, i, HandleAppend(s.replicas[i], s.down[i][0]))
  }

  function Apply(s: State, a: Action): State
    requires Enabled(s, a)
  {
    match a
    case Arrive(request) =>
      s.(replicas := s.replicas[0 := AppendOwn(s.replicas[0], request)], phase := Sending(1, request),
         requests := s.requests + [request])
    case Lead =>
      (match s.phase
       case Sending(to, request) =>
         if to < |s.replicas| then
           s.(down := s.down[to := s.down[to] + [AppendMessage(s.replicas[0], request)]],
              phase := Sending(to + 1, request))
         else
           s.(phase := Collecting(1))
       case Collecting(from) =>
         if from < |s.replicas| then TakeResponse(s.(buf := Receive(s, from)), from).(phase := Collecting(from + 1))
         else s.(phase := Idle)
       case Idle => s)
    case Poll(from) => TakeResponse(s, from)
    case Follow(i) => TakeAppend(s, i)
  }

  predicate InitReplica(r: Replica, i: nat, n: nat) {
    && |r.queue| == 1 && r.queue[0].index == 0 && r.queue[0].term == 1
    && r == Replica(i, 1, 0, 0, 0, 0, r.queue, seq(n, _ => 2), seq(n, _ => 0), [])
  }

  /** All replicas set up. The execution count of the first, empty entry is whatever memory held. */
  predicate Init(s: State) {
    && Shaped(s) && s.phase == Idle && s.requests == [] && s.replies == []
    && (forall i | 0 <= i < |s.replicas| :: InitReplica(s.replicas[i], i, |s.replicas|))
    && (forall i | 0 <= i < |s.replicas| :: s.down[i] == [] && s.up[i] == [])
  }

  ghost predicate Next(s: State, s': State) {
    exists a :: Enabled(s, a) && s' == Apply(s, a)
  }

  ghost predicate Run(t: seq<State>) {
    && 0 < |t| && Init(t[0])
    && forall i | 0 < i < |t| :: Next(t[i - 1], t[i])
  }
}
