/** The handlers of a replica in two-phase commit, on its own fields. Ghost parameters name the states of the
  * machine a handler goes through while the other replicas are paused. */
module TpcReplicaCode {
  import opened TpcReplica
  import opened TpcReplicaSafety

  /** The leader: a channel to each replica (its own stays unused) and one to each client. */
  class Leader {
    const replicas: nat
    const readyCounter: array<nat>
    const channels: array<seq<Msg>>
    const clients: array<seq<Msg>>
    var index: nat
    var executed: seq<Request>

    constructor (replicas: nat, readyCounter: array<nat>)
      ensures this.replicas == replicas && this.readyCounter == readyCounter && index == 0 && executed == []
      ensures fresh(channels) && channels.Length == replicas && forall i | 0 <= i < replicas :: channels[i] == []
      ensures fresh(clients) && clients.Length == readyCounter.Length && channels != clients
      ensures forall c | 0 <= c < clients.Length :: clients[c] == []
    {
      this.replicas, this.readyCounter := replicas, readyCounter;
      channels := new seq<Msg>[replicas](_ => []);
      clients := new seq<Msg>[readyCounter.Length](_ => []);
      index, executed := 0, [];
    }

    ghost predicate Shows(s: State)
      reads this, readyCounter, channels, clients
    {
      && Shaped(s) && Replicas(s) == replicas && s.counter == readyCounter[..] && channels != clients
      && s.down == channels[..] && s.replies == clients[..] && s.index == index && s.executed[0] == executed
    }

    /** One send of a loop: the machine's step of sending to the next follower. */
    method SendTo(i: nat, m: Msg, ghost s: State) returns (ghost s': State)
      requires Shows(s) && Inv(s) && 0 < i < replicas
      requires || (m.Prepare? && s.pc == Preparing(m.request, i))
               || (m == Commit(m.request, index) && s.pc == Committing(m.request, i))
      modifies channels
      ensures Shows(s') && Inv(s') && s' == s.(down := channels[..], pc := s'.pc)
      ensures s'.pc == if m.Prepare? then Preparing(m.request, i + 1) else Committing(m.request, i + 1)
      ensures channels[..] == old(channels[..])[i := old(channels[i]) + [m]]
    {
      hide Inv;
      s' := Apply(s, Send);
      StepKeeps(s, s') by {
        assert Next(s, s');
      }
      channels[i] := channels[i] + [m];
    }

    /** Ask every follower about a client's request. */
    method HandleRequest(r: Request, ghost s: State) returns (ghost s': State)
      requires Shows(s) && Inv(s) && Enabled(s, Take(r.client)) && s.inbox[r.client][0] == r
      modifies readyCounter, channels
      ensures Shows(s') && Inv(s') && s'.pc.Receiving? && s'.log == s.log && s'.up == s.up
      ensures readyCounter[..] == old(readyCounter[..])[r.client := 0]
      ensures forall i | 0 < i < replicas :: channels[i] == old(channels[i]) + [Prepare(r)]
      ensures channels[0] == old(channels[0])
    {
      hide Inv;
      ghost var c := r.client;
      TakeIs(s, c);
      s' := Apply(s, Take(c));
      StepKeeps(s, s') by {
        assert Next(s, s');
      }
      readyCounter[r.client] := 0;
      ghost var asked := s';
      var i := 1;
      while i < replicas
        invariant 1 <= i <= replicas
        invariant Shows(s') && Inv(s') && s' == asked.(down := channels[..], pc := Preparing(r, i))
        invariant readyCounter[..] == old(readyCounter[..])[r.client := 0]
        invariant channels[0] == old(channels[0])
        invariant forall j | 0 < j < replicas :: channels[j] == old(channels[j]) + if j < i then [Prepare(r)] else []
      {
        ghost var before := channels[..];
        s' := SendTo(i, Prepare(r), s');
        assert forall j | 0 < j < replicas :: channels[j] == if j == i then before[j] + [Prepare(r)] else before[j];
        i := i + 1;
      }
      ghost var sent := s';
      s' := Apply(sent, Send);
      StepKeeps(sent, s') by {
        assert Next(sent, s');
      }
    }

    /** Count a follower's answer; the last one decides: commit to every follower, execute, and reply. */
    method HandleReady(i: nat, r: Request, ghost s: State) returns (decided: bool, ghost s': State)
      requires Shows(s) && Inv(s) && Enabled(s, Hear(i)) && s.up[i][0].request == r
      modifies this, readyCounter, channels, clients
      ensures Shows(s') && Inv(s') && s'.pc.Receiving? && s'.up == s.up[i := s.up[i][1..]]
      ensures decided <==> s.heard[r.client] + {i} == Followers(replicas)
      ensures readyCounter[..] == old(readyCounter[..])[r.client := old(readyCounter[r.client]) + 1]
      ensures !decided ==> s'.log == s.log && executed == old(executed) && index == old(index)
                           && channels[..] == old(channels[..]) && clients[..] == old(clients[..])
      ensures decided ==> s'.log == s.log + [r] && executed == old(executed) + [r] && index == old(index) + 1
      ensures decided ==> clients[..] == old(clients[..])[r.client := old(clients[r.client]) + [Response(r, index)]]
      ensures decided ==> forall j | 0 < j < replicas :: channels[j] == old(channels[j]) + [Commit(r, index)]
      ensures channels[0] == old(channels[0])
    {
      hide Inv, Followers;
      ReadyIs(s, i);
      s' := Apply(s, Hear(i));
      StepKeeps(s, s') by {
        assert Next(s, s');
      }
      readyCounter[r.client] := readyCounter[r.client] + 1;
      decided := readyCounter[r.client] + 1 >= replicas;
      if decided {
        index := index + 1;
        s' := SendCommits(r, s');
      }
    }

    /** The send loop of a decision, its execution, and the reply. */
    method SendCommits(r: Request, ghost s: State) returns (ghost s': State)
      requires Shows(s) && Inv(s) && s.pc == Committing(r, 1)
      modifies `executed, channels, clients
      ensures Shows(s') && Inv(s') && s'.pc.Receiving? && s'.log == s.log && s'.up == s.up
      ensures s'.counter == s.counter && executed == old(executed) + [r]
      ensures clients[..] == old(clients[..])[r.client := old(clients[r.client]) + [Response(r, index)]]
      ensures forall j | 0 < j < replicas :: channels[j] == old(channels[j]) + [Commit(r, index)]
      ensures channels[0] == old(channels[0])
    {
      hide Inv;
      s' := s;
      var i := 1;
      while i < replicas
        invariant 1 <= i <= replicas
        invariant Shows(s') && Inv(s') && s' == s.(down := channels[..], pc := Committing(r, i))
        invariant clients[..] == old(clients[..]) && executed == old(executed)
        invariant channels[0] == old(channels[0])
        invariant forall j | 0 < j < replicas ::
                    channels[j] == old(channels[j]) + if j < i then [Commit(r, index)] else []
      {
        ghost var before := channels[..];
        s' := SendTo(i, Commit(r, index), s');
        assert forall j | 0 < j < replicas ::
            channels[j] == if j == i then before[j] + [Commit(r, index)] else before[j];
        i := i + 1;
      }
      ghost var sent := s';
      s' := Apply(sent, Send);
      StepKeeps(sent, s') by {
        assert Next(sent, s');
      }
      executed := executed + [r];
      clients[r.client] := clients[r.client] + [Response(r, index)];
    }
  }

  class Follower {
    const id: nat
    var executed: seq<Request>

    constructor (id: nat)
      ensures this.id == id && executed == []
    {
      this.id := id;
      executed := [];
    }

    ghost predicate Shows(s: State)
      reads this
    {
      Shaped(s) && 0 < id < Replicas(s) && s.executed[id] == executed
    }

    /** Handle the message received. A prepare is about an open request of its client, and answered at once; a
      * commit is for the leader's next decision this follower has not executed. It gets nothing else. */
    method Handle(m: Msg, ghost s: State) returns (answer: seq<Msg>, ghost s': State)
      requires Shows(s) && Inv(s) && Enabled(s, Follow(id)) && s.down[id][0] == m
      modifies this
      ensures Shows(s') && Inv(s') && s'.log == s.log && s'.up == s.up[id := s.up[id] + answer]
      ensures s'.down == s.down[id := s.down[id][1..]] && s'.executed == s.executed[id := executed]
      ensures executed <= s.log && (m.Prepare? || m.Commit?)
      ensures m.Prepare? ==> IsOpen(s, m.request) && answer == [Ready(m.request)] && executed == old(executed)
      ensures m.Commit? ==> answer == [] && |executed| == |old(executed)| + 1
    {
      hide Inv, Commits;
      FollowerReceives(s, id);
      StepKeeps(s, Apply(s, Follow(id))) by {
        assert Next(s, Apply(s, Follow(id)));
      }
      s' := Apply(s, Follow(id));
      FollowerPrefix(s', id);
      answer := [];
      assert s.up[id] + [] == s.up[id];
      match m
      case Prepare(r) => answer := [Ready(r)];
      case Commit(r, _) => executed := executed + [r];
      case _ =>
    }
  }

  /** The client waits for the answer to this very request, and it is undecided. */
  predicate IsOpen(s: State, r: Request) {
    Shaped(s) && r.client < Clients(s) && Active(s, r.client) && r == Current(s, r.client)
  }

  lemma FollowerReceives(s: State, i: nat)
    requires Inv(s) && Enabled(s, Follow(i))
    ensures var m := s.down[i][0]; (m.Prepare? || m.Commit?) && (m.Prepare? ==> IsOpen(s, m.request))
  {
    hide TokenInv, ClientInv, Commits;
    FollowIs(s, i);
    FollowerNow(s, i);
    assert s.down[i][0] in s.down[i];
  }

  lemma FollowerPrefix(s: State, i: nat)
    requires Inv(s) && 0 < i < Replicas(s)
    ensures |s.executed| == Replicas(s) && s.executed[i] <= s.log
  {
    hide TokenInv, ClientInv, Commits;
    FollowerNow(s, i);
  }
}
