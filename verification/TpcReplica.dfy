/** Two-phase commit among replicas (without the multicast tree): replica 0 leads, any number of clients keep
  * one request each outstanding, and requests of different clients overlap freely. */
module TpcReplica {

  datatype Request = Request(client: nat, payload: nat)

  datatype Msg =
    | Prepare(request: Request)
    | Ready(request: Request)
    | Commit(request: Request, index: nat)
    | Response(request: Request, index: nat)

  /** Where the leader is: in its receive loop, or in the middle of a send loop. */
  datatype LeaderPc =
    | Receiving
    | Preparing(request: Request, i: nat)
    | Committing(request: Request, i: nat)

  /** `counter` is the leader's ready counter of each client. The rest below is history: the followers counted
    * for each client's current request, what each client submitted and was answered, the commit decisions in
    * order, and what each replica executed. */
  datatype State = State(
    pc: LeaderPc, counter: seq<nat>, index: nat,
    inbox: seq<seq<Request>>, down: seq<seq<Msg>>, up: seq<seq<Msg>>,
    heard: seq<set<nat>>, submitted: seq<seq<Request>>, replies: seq<seq<Msg>>,
    log: seq<Request>, executed: seq<seq<Request>>)

  datatype Action =
    | Submit(c: nat, payload: nat)
    | Take(c: nat)     // the leader receives a client's request
    | Send             // the leader's next send, or the end of its loop
    | Hear(i: nat)     // the leader receives a message of a follower
    | Follow(i: nat)   // a follower handles a message

  function Replicas(s: State): nat {
    |s.down|
  }

  function Clients(s: State): nat {
    |s.inbox|
  }

  predicate Shaped(s: State) {
    && 0 < Replicas(s) == |s.up| == |s.executed|
    && Clients(s) == |s.counter| == |s.heard| == |s.submitted| == |s.replies|
    && (!s.pc.Receiving? ==> s.pc.request.client < Clients(s))
  }

  predicate Enabled(s: State, a: Action) {
    && Shaped(s)
    && match a
       case Submit(c, _) => c < Clients(s) && |s.submitted[c]| == |s.replies[c]|
       case Take(c) => s.pc.Receiving? && c < Clients(s) && s.inbox[c] != [] && s.inbox[c][0].client < Clients(s)
       case Send => !s.pc.Receiving?
       case Hear(i) =>
         s.pc.Receiving? && 0 < i < Replicas(s) && s.up[i] != [] && s.up[i][0].request.client < Clients(s)
       case Follow(i) => 0 < i < Replicas(s) && s.down[i] != []
  }

  function HearReady(s: State, i: nat, r: Request): State
    requires Shaped(s) && r.client < Clients(s)
  {
    var c := r.client;
    var s1 := s.(counter := s.counter[c := s.counter[c] + 1], heard := s.heard[c := s.heard[c] + {i}]);
    if s1.counter[c] + 1 >= Replicas(s) then
      s1.(index := s.index + 1, pc := Committing(r, 1), log := s.log + [r])
    else s1
  }

  function FollowStep(s: State, i: nat, m: Msg): State
    requires Shaped(s) && i < Replicas(s)
  {
    match m
    case Prepare(r) => s.(up := s.up[i := s.up[i] + [Ready(r)]])
    case Commit(r, _) => s.(executed := s.executed[i := s.executed[i] + [r]])
    case _ => s
  }

  function Apply(s: State, a: Action): State
    requires Enabled(s, a)
  {
    match a
    case Submit(c, payload) =>
      var r := Request(c, payload);
      s.(inbox := s.inbox[c := s.inbox[c] + [r]], submitted := s.submitted[c := s.submitted[c] + [r]])
    case Take(c) =>
      var r := s.inbox[c][0];
      s.(inbox := s.inbox[c := s.inbox[c][1..]], counter := s.counter[r.client := 0], heard := s.heard[r.client := {}],
         pc := Preparing(r, 1))
    case Send =>
      (match s.pc
       case Preparing(r, i) =>
         if i < Replicas(s) then s.(down := s.down[i := s.down[i] + [Prepare(r)]], pc := Preparing(r, i + 1))
         else s.(pc := Receiving)
       case Committing(r, i) =>
         if i < Replicas(s) then s.(down := s.down[i := s.down[i] + [Commit(r, s.index)]], pc := Committing(r, i + 1))
         else s.(pc := Receiving, executed := s.executed[0 := s.executed[0] + [r]],
                 replies := s.replies[r.client := s.replies[r.client] + [Response(r, s.index)]])
       case Receiving => s)
    case Hear(i) =>
      var s1 := s.(up := s.up[i := s.up[i][1..]]);
      if s.up[i][0].Ready? then HearReady(s1, i, s.up[i][0].request) else s1
    case Follow(i) => FollowStep(s.(down := s.down[i := s.down[i][1..]]), i, s.down[i][0])
  }

  /** Counters hold whatever memory held; the first request of a client resets its own. */
  predicate Init(s: State) {
    && Shaped(s) && s.pc == Receiving && s.index == 0 && s.log == []
    && (forall i | 0 <= i < Replicas(s) :: s.down[i] == [] && s.up[i] == [] && s.executed[i] == [])
    && (forall c | 0 <= c < Clients(s) :: s.inbox[c] == [] && s.submitted[c] == [] && s.replies[c] == [])
  }

  ghost predicate Next(s: State, s': State) {
    exists a :: Enabled(s, a) && s' == Apply(s, a)
  }

  ghost predicate Run(t: seq<State>) {
    && 0 < |t| && Init(t[0])
    && forall i | 0 < i < |t| :: Next(t[i - 1], t[i])
  }
}
