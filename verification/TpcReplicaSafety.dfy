/** Agreement, and exactly one commit and one reply per request, in every run. */
module TpcReplicaSafety {
  import opened TpcReplica
  import opened Wrappers

  // ----- counting messages -----

  /** Part of the vote on a request: the leader's question or a follower's answer. */
  predicate Asks(m: Msg) {
    m.Prepare? || m.Ready?
  }

  predicate IsFor(m: Msg, c: nat) {
    Asks(m) && m.request.client == c
  }

  /** Prepare or ready messages for requests of client `c`. */
  function Tokens(q: seq<Msg>, c: nat): nat {
    if q == [] then 0 else (if IsFor(q[0], c) then 1 else 0) + Tokens(q[1..], c)
  }

  function Commits(q: seq<Msg>): seq<Request> {
    if q == [] then [] else (if q[0].Commit? then [q[0].request] else []) + Commits(q[1..])
  }

  lemma {:induction false} TokensAppend(q: seq<Msg>, m: Msg, c: nat)
    ensures Tokens(q + [m], c) == Tokens(q, c) + if IsFor(m, c) then 1 else 0
    ensures Commits(q + [m]) == Commits(q) + if m.Commit? then [m.request] else []
  {
    if q != [] {
      assert (q + [m])[1..] == q[1..] + [m];
      TokensAppend(q[1..], m, c);
    }
  }

  /** The requests of client `c` in a log. */
  function Of(log: seq<Request>, c: nat): seq<Request> {
    if log == [] then []
    else Of(log[..|log| - 1], c) + if log[|log| - 1].client == c then [log[|log| - 1]] else []
  }

  // ----- invariant -----

  predicate Outstanding(s: State, c: nat)
    requires Shaped(s) && c < Clients(s)
  {
    s.submitted[c] != [] && |s.submitted[c]| == |s.replies[c]| + 1
  }

  function Current(s: State, c: nat): Request
    requires Shaped(s) && c < Clients(s) && Outstanding(s, c)
  {
    s.submitted[c][|s.submitted[c]| - 1]
  }

  /** The commit of client `c`'s request is decided and being sent. */
  predicate Deciding(s: State, c: nat) {
    s.pc.Committing? && s.pc.request.client == c
  }

  /** Client `c`'s request is with the leader and not yet decided. */
  predicate Active(s: State, c: nat)
    requires Shaped(s) && c < Clients(s)
  {
    Outstanding(s, c) && s.inbox[c] == [] && !Deciding(s, c)
  }

  function Followers(n: nat): (f: set<nat>)
    ensures forall i :: i in f <==> 0 < i < n
    ensures |f| == if n == 0 then 0 else n - 1
  {
    if n <= 1 then {} else Followers(n - 1) + {n - 1}
  }

  ghost predicate ClientInv(s: State, c: nat)
    requires Shaped(s) && c < Clients(s)
  {
    && (|s.submitted[c]| == |s.replies[c]| || Outstanding(s, c))
    && (forall k | 0 <= k < |s.replies[c]| :: s.replies[c][k].request == s.submitted[c][k])
    && (forall j | 0 <= j < |s.submitted[c]| :: s.submitted[c][j].client == c)
    && (s.inbox[c] != [] ==> Outstanding(s, c) && s.inbox[c] == [Current(s, c)])
    && (!s.pc.Receiving? && s.pc.request.client == c ==>
          Outstanding(s, c) && s.pc.request == Current(s, c) && s.inbox[c] == [])
    && Of(s.log, c) ==
       s.submitted[c][..if Outstanding(s, c) && !Deciding(s, c) then |s.replies[c]| else |s.submitted[c]|]
    && (Active(s, c) ==> && s.counter[c] == |s.heard[c]| && s.heard[c] <= Followers(Replicas(s))
                         && (Replicas(s) > 1 ==> s.heard[c] != Followers(Replicas(s))))
  }

  /** Each follower is asked about an active request once: the prepare not yet sent, on its way, or answered. */
  predicate Unsent(s: State, i: nat, c: nat) {
    s.pc.Preparing? && s.pc.request.client == c && s.pc.i <= i
  }

  ghost predicate TokenInv(s: State, i: nat, c: nat)
    requires Shaped(s) && c < Clients(s) && 0 < i < Replicas(s)
  {
    Tokens(s.down[i], c) + Tokens(s.up[i], c)
    + (if Active(s, c) && i in s.heard[c] then 1 else 0) + (if Unsent(s, i, c) then 1 else 0)
    == if Active(s, c) then 1 else 0
  }

  ghost predicate MessagesInv(s: State, q: seq<Msg>)
    requires Shaped(s)
  {
    forall m | m in q && Asks(m) ::
      var c := m.request.client; c < Clients(s) && Active(s, c) && m.request == Current(s, c)
  }

  ghost predicate FollowerInv(s: State, i: nat)
    requires Shaped(s) && 0 < i < Replicas(s)
  {
    && s.executed[i] + Commits(s.down[i]) + (if s.pc.Committing? && s.pc.i <= i then [s.pc.request] else []) == s.log
    && MessagesInv(s, s.down[i]) && MessagesInv(s, s.up[i])
    && (forall m | m in s.up[i] :: m.Ready?) && (forall m | m in s.down[i] :: m.Prepare? || m.Commit?)
  }

  /** A commit and a response carry the place of their request in the order of decisions, counted from one. */
  predicate Placed(s: State, m: Msg) {
    m.Commit? || m.Response? ==> 0 < m.index <= |s.log| && s.log[m.index - 1] == m.request
  }

  /** The replies to a client are responses, and their places increase. */
  ghost predicate RepliesInv(s: State, c: nat)
    requires Shaped(s) && c < Clients(s)
  {
    && (forall k | 0 <= k < |s.replies[c]| ::
          && s.replies[c][k].Response? && Placed(s, s.replies[c][k])
          && s.replies[c][k].index <= |s.executed[0]|)
    && (forall j, k | 0 <= j < k < |s.replies[c]| :: s.replies[c][j].index < s.replies[c][k].index)
  }

  ghost predicate Inv(s: State) {
    && Shaped(s) && s.index == |s.log|
    && (forall c | 0 <= c < Clients(s) :: RepliesInv(s, c))
    && (forall i | 0 < i < Replicas(s) :: forall m | m in s.down[i] :: Placed(s, m))
    && s.executed[0] + (if s.pc.Committing? then [s.pc.request] else []) == s.log
    && (forall c | 0 <= c < Clients(s) :: ClientInv(s, c))
    && (forall i | 0 < i < Replicas(s) :: FollowerInv(s, i))
    && (forall i, c | 0 < i < Replicas(s) && 0 <= c < Clients(s) :: TokenInv(s, i, c))
  }

  lemma InitInv(s: State)
    requires Init(s)
    ensures Inv(s)
  {
  }

  lemma {:induction false} NoTokens(q: seq<Msg>, c: nat, m: Msg)
    requires Tokens(q, c) == 0 && m in q
    ensures !IsFor(m, c)
  {
    if m != q[0] {
      NoTokens(q[1..], c, m);
    }
  }

  // ----- one step: the clients -----

  lemma OfAppend(log: seq<Request>, r: Request, c: nat)
    ensures Of(log + [r], c) == Of(log, c) + if r.client == c then [r] else []
  {
    assert (log + [r])[..|log|] == log;
  }

  lemma ClientNow(s: State, c: nat)
    requires Inv(s) && c < Clients(s)
    ensures Shaped(s) && ClientInv(s, c)
  {
  }

  /** The client an action is about, if it concerns one at the leader. */
  lemma TakeIs(s: State, c: nat)
    requires Inv(s) && Enabled(s, Take(c))
    ensures Outstanding(s, c) && s.inbox[c] == [Current(s, c)] && s.inbox[c][0].client == c
  {
    hide FollowerInv, TokenInv, Of, Followers;
    assert ClientInv(s, c);
  }

  lemma SendIs(s: State)
    requires Inv(s) && Enabled(s, Send)
    ensures var c := s.pc.request.client; Outstanding(s, c) && s.pc.request == Current(s, c) && s.inbox[c] == []
  {
    hide FollowerInv, TokenInv, Of, Followers;
    assert ClientInv(s, s.pc.request.client);
  }

  lemma ClientTake(s: State, d: nat, c: nat)
    requires Inv(s) && Enabled(s, Take(d)) && c < Clients(s)
    ensures ClientInv(Apply(s, Take(d)), c)
  {
    hide Inv, Of, Followers;
    ClientNow(s, c);
    TakeIs(s, d);
  }

  lemma ClientSubmit(s: State, d: nat, payload: nat, c: nat)
    requires Inv(s) && Enabled(s, Submit(d, payload)) && c < Clients(s)
    ensures ClientInv(Apply(s, Submit(d, payload)), c)
  {
    hide Inv, Of, Followers;
    ClientNow(s, c);
  }

  lemma ClientFollow(s: State, i: nat, c: nat)
    requires Inv(s) && Enabled(s, Follow(i)) && c < Clients(s)
    ensures ClientInv(Apply(s, Follow(i)), c)
  {
    hide Inv, Of, Followers;
    ClientNow(s, c);
  }

  lemma ClientSend(s: State, c: nat)
    requires Inv(s) && Enabled(s, Send) && c < Clients(s)
    ensures ClientInv(Apply(s, Send), c)
  {
    hide Inv, Of, Followers;
    ClientNow(s, c);
    SendIs(s);
    if s.pc.Committing? && s.pc.i >= Replicas(s) {
      ClientReplied(s, c);
    }
  }

  lemma ClientReplied(s: State, c: nat)
    requires Inv(s) && Enabled(s, Send) && c < Clients(s) && s.pc.Committing? && s.pc.i >= Replicas(s)
    ensures ClientInv(Apply(s, Send), c)
  {
    hide Inv, Of, Followers;
    ClientNow(s, c);
    SendIs(s);
  }

  lemma ReadyIs(s: State, i: nat)
    requires Inv(s) && Enabled(s, Hear(i))
    ensures var r, c := s.up[i][0].request, s.up[i][0].request.client;
            && s.up[i][0] == Ready(r) && Active(s, c) && r == Current(s, c)
            && i !in s.heard[c] && !Unsent(s, i, c) && Tokens(s.up[i], c) == 1 && Tokens(s.down[i], c) == 0
            && s.counter[c] == |s.heard[c]|
            && s.heard[c] + {i} <= Followers(Replicas(s))
            && (|s.heard[c]| + 2 >= Replicas(s) <==> s.heard[c] + {i} == Followers(Replicas(s)))
  {
    hide Of;
    assert FollowerInv(s, i);
    assert s.up[i][0] in s.up[i];
    var c := s.up[i][0].request.client;
    assert ClientInv(s, c) && TokenInv(s, i, c);
    SubsetCard(s.heard[c] + {i}, Followers(Replicas(s)));
  }

  lemma ClientHear(s: State, i: nat, c: nat)
    requires Inv(s) && Enabled(s, Hear(i)) && c < Clients(s)
    ensures ClientInv(Apply(s, Hear(i)), c)
  {
    hide Inv, Of, Followers;
    ClientNow(s, c);
    ReadyIs(s, i);
    OfAppend(s.log, s.up[i][0].request, c);
  }

  // ----- one step: the tokens -----

  lemma FollowIs(s: State, i: nat)
    requires Inv(s) && Enabled(s, Follow(i))
    ensures s.down[i][0].Prepare? || s.down[i][0].Commit?
  {
    hide MessagesInv, TokenInv, ClientInv;
    assert FollowerInv(s, i);
    assert s.down[i][0] in s.down[i];
  }

  lemma TokenSend(s: State, i: nat, c: nat)
    requires Inv(s) && Enabled(s, Send) && 0 < i < Replicas(s) && c < Clients(s)
    ensures TokenInv(Apply(s, Send), i, c)
  {
    hide Inv, Of, Followers, ClientInv;
    TokenNow(s, i, c);
    SendIs(s);
    if s.pc.i < Replicas(s) {
      var m := if s.pc.Preparing? then Prepare(s.pc.request) else Commit(s.pc.request, s.index);
      TokensAppend(s.down[s.pc.i], m, c);
    }
  }

  lemma TokenFollow(s: State, j: nat, i: nat, c: nat)
    requires Inv(s) && Enabled(s, Follow(j)) && 0 < i < Replicas(s) && c < Clients(s)
    ensures TokenInv(Apply(s, Follow(j)), i, c)
  {
    hide Inv, Of, Followers, ClientInv;
    TokenNow(s, i, c);
    FollowIs(s, j);
    if s.down[j][0].Prepare? {
      TokensAppend(s.up[j], Ready(s.down[j][0].request), c);
    }
  }

  lemma TokenStep(s: State, a: Action, i: nat, c: nat)
    requires Inv(s) && Enabled(s, a) && 0 < i < Replicas(s) && c < Clients(s)
    ensures TokenInv(Apply(s, a), i, c)
  {
    hide FollowerInv, ClientInv, TokenInv, Of, Commits, Followers, Inv;
    match a
    case Send => TokenSend(s, i, c);
    case Follow(j) => TokenFollow(s, j, i, c);
    case Hear(j) => TokenHear(s, j, i, c);
    case Take(d) => TokenTake(s, d, i, c);
    case Submit(d, payload) => TokenSubmit(s, d, payload, i, c);
  }

  lemma TokenHear(s: State, j: nat, i: nat, c: nat)
    requires Inv(s) && Enabled(s, Hear(j)) && 0 < i < Replicas(s) && c < Clients(s)
    ensures TokenInv(Apply(s, Hear(j)), i, c)
  {
    hide Inv, Of, Commits, Followers, ClientInv;
    TokenNow(s, i, c);
    ReadyIs(s, j);
  }

  lemma TokenTake(s: State, d: nat, i: nat, c: nat)
    requires Inv(s) && Enabled(s, Take(d)) && 0 < i < Replicas(s) && c < Clients(s)
    ensures TokenInv(Apply(s, Take(d)), i, c)
  {
    hide Inv, Of, Commits, Followers, ClientInv, Tokens;
    TokenNow(s, i, c);
    TakeIs(s, d);
  }

  lemma TokenSubmit(s: State, d: nat, payload: nat, i: nat, c: nat)
    requires Inv(s) && Enabled(s, Submit(d, payload)) && 0 < i < Replicas(s) && c < Clients(s)
    ensures TokenInv(Apply(s, Submit(d, payload)), i, c)
  {
    hide Inv, Of, Commits, Followers, ClientInv, Tokens;
    TokenNow(s, i, c);
  }

  lemma TokenNow(s: State, i: nat, c: nat)
    requires Inv(s) && 0 < i < Replicas(s) && c < Clients(s)
    ensures Shaped(s) && TokenInv(s, i, c) && ClientInv(s, c)
  {
  }

  // ----- one step: the followers -----

  /** An active request stays the current one until its commit is decided. */
  lemma ActiveKept(s: State, a: Action, c: nat)
    requires Inv(s) && Enabled(s, a) && c < Clients(s) && Active(s, c) && !Deciding(Apply(s, a), c)
    ensures Active(Apply(s, a), c) && Current(Apply(s, a), c) == Current(s, c)
  {
    hide FollowerInv, TokenInv, ClientInv, Of, Followers, Inv;
    match a
    case Submit(d, _) =>
    case Take(d) => TakeIs(s, d);
    case Send => SendIs(s);
    case Hear(j) => ReadyIs(s, j);
    case Follow(j) =>
  }

  /** A message about a request, still in a channel after the step, is about an active request. */
  lemma MessageKept(s: State, a: Action, i: nat, m: Msg)
    requires Inv(s) && Enabled(s, a) && 0 < i < Replicas(s) && Asks(m)
    requires m in Apply(s, a).down[i] || m in Apply(s, a).up[i]
    requires m.request.client < Clients(s) && Active(s, m.request.client) && m.request == Current(s, m.request.client)
    ensures Active(Apply(s, a), m.request.client) && m.request == Current(Apply(s, a), m.request.client)
  {
    hide FollowerInv, ClientInv, Of, Followers, Inv;
    var s', c := Apply(s, a), m.request.client;
    TokenStep(s, a, i, c);
    if Deciding(s', c) {
      if m in s'.down[i] {
        NoTokens(s'.down[i], c, m);
      } else {
        NoTokens(s'.up[i], c, m);
      }
    }
    ActiveKept(s, a, c);
  }

  lemma FollowerNow(s: State, i: nat)
    requires Inv(s) && 0 < i < Replicas(s)
    ensures Shaped(s) && FollowerInv(s, i)
  {
  }

  /** A message new to a channel. */
  lemma NewMessage(s: State, a: Action, i: nat, m: Msg)
    requires Inv(s) && Enabled(s, a) && 0 < i < Replicas(s) && Asks(m)
    requires (m in Apply(s, a).down[i] && m !in s.down[i]) || (m in Apply(s, a).up[i] && m !in s.up[i])
    ensures m.request.client < Clients(s) && Active(s, m.request.client) && m.request == Current(s, m.request.client)
  {
    hide TokenInv, ClientInv, Of, Followers, Inv;
    FollowerNow(s, i);
    match a
    case Send => SendIs(s);
    case Follow(j) => assert s.down[j][0] in s.down[j];
    case _ =>
  }

  lemma FollowerMessages(s: State, a: Action, i: nat)
    requires Inv(s) && Enabled(s, a) && 0 < i < Replicas(s)
    ensures var s' := Apply(s, a);
            && MessagesInv(s', s'.down[i]) && MessagesInv(s', s'.up[i])
            && (forall m | m in s'.up[i] :: m.Ready?) && (forall m | m in s'.down[i] :: m.Prepare? || m.Commit?)
  {
    hide TokenInv, ClientInv, Of, Followers, Inv, Tokens, Commits;
    var s' := Apply(s, a);
    FollowerNow(s, i);
    forall m | (m in s'.down[i] || m in s'.up[i]) && Asks(m)
      ensures m.request.client < Clients(s) && Active(s', m.request.client)
      ensures m.request == Current(s', m.request.client)
    {
      if (m in s'.down[i] && m !in s.down[i]) || (m in s'.up[i] && m !in s.up[i]) {
        NewMessage(s, a, i, m);
      }
      MessageKept(s, a, i, m);
    }
    KindsKept(s, a, i);
  }

  lemma KindsKept(s: State, a: Action, i: nat)
    requires Inv(s) && Enabled(s, a) && 0 < i < Replicas(s)
    ensures forall m | m in Apply(s, a).up[i] :: m.Ready?
    ensures forall m | m in Apply(s, a).down[i] :: m.Prepare? || m.Commit?
  {
    hide TokenInv, ClientInv, MessagesInv, Of, Followers, Inv, Tokens, Commits;
    FollowerNow(s, i);
    if a.Follow? {
      FollowIs(s, a.i);
    }
  }

  /** What a follower executed, was sent and is still to be sent is the log. */
  ghost predicate LogInv(s: State, i: nat)
    requires Shaped(s) && 0 < i < Replicas(s)
  {
    s.executed[i] + Commits(s.down[i]) + (if s.pc.Committing? && s.pc.i <= i then [s.pc.request] else []) == s.log
  }

  lemma LogNow(s: State, i: nat)
    requires Inv(s) && 0 < i < Replicas(s)
    ensures Shaped(s) && LogInv(s, i)
  {
    FollowerNow(s, i);
  }

  lemma LogSend(s: State, i: nat)
    requires Inv(s) && Enabled(s, Send) && 0 < i < Replicas(s)
    ensures LogInv(Apply(s, Send), i)
  {
    hide Inv;
    LogNow(s, i);
    if s.pc.i == i {
      var m := if s.pc.Preparing? then Prepare(s.pc.request) else Commit(s.pc.request, s.index);
      TokensAppend(s.down[i], m, 0);
    }
  }

  lemma LogFollow(s: State, j: nat, i: nat)
    requires Inv(s) && Enabled(s, Follow(j)) && 0 < i < Replicas(s)
    ensures LogInv(Apply(s, Follow(j)), i)
  {
    hide Inv, TokenInv, ClientInv;
    LogNow(s, i);
    FollowIs(s, j);
  }

  lemma FollowerLog(s: State, a: Action, i: nat)
    requires Inv(s) && Enabled(s, a) && 0 < i < Replicas(s)
    ensures LogInv(Apply(s, a), i)
  {
    hide Inv, Commits;
    match a
    case Submit(_, _) => LogNow(s, i);
    case Take(_) => LogNow(s, i);
    case Send => LogSend(s, i);
    case Hear(j) =>
      LogNow(s, i);
      ReadyIs(s, j);
    case Follow(j) => LogFollow(s, j, i);
  }

  lemma StepKeeps(s: State, s': State)
    requires Inv(s) && Next(s, s')
    ensures Inv(s')
  {
    hide ClientInv, TokenInv, FollowerInv, MessagesInv, RepliesInv, Placed, Tokens, Commits, Followers, Of;
    var a :| Enabled(s, a) && s' == Apply(s, a);
    LeaderLog(s, a);
    PlacesKept(s, a);
    forall c | 0 <= c < Clients(s)
      ensures ClientInv(s', c)
    {
      match a
      case Hear(i) => ClientHear(s, i, c);
      case Send => ClientSend(s, c);
      case Take(d) => ClientTake(s, d, c);
      case Submit(d, payload) => ClientSubmit(s, d, payload, c);
      case Follow(i) => ClientFollow(s, i, c);
    }
    forall i, c | 0 < i < Replicas(s) && 0 <= c < Clients(s)
      ensures TokenInv(s', i, c)
    {
      TokenStep(s, a, i, c);
    }
    forall i | 0 < i < Replicas(s)
      ensures FollowerInv(s', i)
    {
      FollowerKept(s, a, i);
    }
  }

  lemma FollowerKept(s: State, a: Action, i: nat)
    requires Inv(s) && Enabled(s, a) && 0 < i < Replicas(s)
    ensures FollowerInv(Apply(s, a), i)
  {
    hide Inv, MessagesInv, Tokens, Commits;
    FollowerMessages(s, a, i);
    FollowerLog(s, a, i);
  }

  lemma LeaderNow(s: State)
    requires Inv(s)
    ensures Shaped(s) && s.index == |s.log|
    ensures s.executed[0] + (if s.pc.Committing? then [s.pc.request] else []) == s.log
  {
  }

  lemma LeaderLog(s: State, a: Action)
    requires Inv(s) && Enabled(s, a)
    ensures var s' := Apply(s, a);
            && Shaped(s') && Replicas(s') == Replicas(s) && Clients(s') == Clients(s) && s'.index == |s'.log|
            && s'.executed[0] + (if s'.pc.Committing? then [s'.pc.request] else []) == s'.log
  {
    hide Inv, Active, Current, Tokens, Followers;
    LeaderNow(s);
  }

  lemma PlacesNow(s: State)
    requires Inv(s)
    ensures Shaped(s)
    ensures forall c | 0 <= c < Clients(s) :: RepliesInv(s, c)
    ensures forall i | 0 < i < Replicas(s) :: forall m | m in s.down[i] :: Placed(s, m)
  {
    hide RepliesInv, Placed;
  }

  /** A channel to a follower only grows by a message with its place, and decisions are only added. */
  lemma ChannelPlaces(s: State, a: Action, i: nat)
    requires Inv(s) && Enabled(s, a) && 0 < i < Replicas(s)
    ensures forall m | m in Apply(s, a).down[i] :: Placed(Apply(s, a), m)
  {
    hide Inv, Tokens, Commits, Followers, Of, RepliesInv;
    PlacesNow(s);
    LeaderNow(s);
    var s' := Apply(s, a);
    assert s.log <= s'.log;
    forall m | m in s'.down[i]
      ensures Placed(s', m)
    {
      if m in s.down[i] {
        assert Placed(s, m);
      }
    }
  }

  /** Replies already given keep their places. */
  lemma RepliesKept(s: State, s': State, c: nat)
    requires Shaped(s) && Shaped(s') && Clients(s') == Clients(s) && c < Clients(s) && RepliesInv(s, c)
    requires s.log <= s'.log && s.executed[0] <= s'.executed[0] && s'.replies[c] == s.replies[c]
    ensures RepliesInv(s', c)
  {
  }

  lemma ReplyPlaces(s: State, a: Action, c: nat)
    requires Inv(s) && Enabled(s, a) && c < Clients(s)
    ensures RepliesInv(Apply(s, a), c)
  {
    hide Inv, Tokens, Commits, Followers, Of, RepliesInv;
    PlacesNow(s);
    LeaderNow(s);
    var s' := Apply(s, a);
    assert s.log <= s'.log && s.executed[0] <= s'.executed[0];
    if s'.replies[c] == s.replies[c] {
      RepliesKept(s, s', c);
    } else {
      NewReply(s, c);
    }
  }

  lemma NewReply(s: State, c: nat)
    requires Inv(s) && Enabled(s, Send) && c < Clients(s)
    requires s.pc.Committing? && s.pc.i >= Replicas(s) && s.pc.request.client == c
    ensures RepliesInv(Apply(s, Send), c)
  {
    hide Inv, Tokens, Commits, Followers, Of;
    PlacesNow(s);
    LeaderNow(s);
    assert RepliesInv(s, c);
  }

  lemma PlacesKept(s: State, a: Action)
    requires Inv(s) && Enabled(s, a)
    ensures var s' := Apply(s, a);
            && (forall c | 0 <= c < Clients(s) :: RepliesInv(s', c))
            && (forall i | 0 < i < Replicas(s) :: forall m | m in s'.down[i] :: Placed(s', m))
  {
    hide Inv, Tokens, Commits, Followers, Of, RepliesInv, Placed, Apply;
    LeaderLog(s, a);
    forall c | 0 <= c < Clients(s)
      ensures RepliesInv(Apply(s, a), c)
    {
      ReplyPlaces(s, a, c);
    }
    forall i | 0 < i < Replicas(s)
      ensures forall m | m in Apply(s, a).down[i] :: Placed(Apply(s, a), m)
    {
      ChannelPlaces(s, a, i);
    }
  }

  lemma {:induction false} RunKeeps(t: seq<State>, i: nat)
    requires Run(t) && i < |t|
    ensures Inv(t[i])
  {
    hide Inv, Next;
    if i == 0 {
      InitInv(t[0]);
    } else {
      RunKeeps(t, i - 1);
      StepKeeps(t[i - 1], t[i]);
    }
  }

  // ----- theorems -----

  /** All replicas execute prefixes of the one sequence of commit decisions, and the leader counts them. */
  lemma Agreement(t: seq<State>, i: nat, j: nat)
    requires Run(t) && i < |t| && j < |t[i].executed|
    ensures t[i].executed[j] <= t[i].log && |t[i].log| == t[i].index
    ensures t[i].executed[0] <= t[i].log && |t[i].log| <= |t[i].executed[0]| + 1
  {
    hide ClientInv, TokenInv;
    RunKeeps(t, i);
    if 0 < j {
      FollowerNow(t[i], j);
    }
  }

  /** Exactly one commit and one reply for each request, in the order its client submitted them: only the
    * newest request of a client can lack either. A reply is a response to its request, and carries the place
    * of that request among the decisions of all clients. */
  lemma OneCommitEach(t: seq<State>, i: nat, c: nat)
    requires Run(t) && i < |t| && c < Clients(t[i])
    ensures var s := t[i];
            && |s.submitted| == |s.replies| == Clients(s)
            && Of(s.log, c) <= s.submitted[c] && |s.replies[c]| <= |Of(s.log, c)|
            && |s.submitted[c]| <= |s.replies[c]| + 1
    ensures var s := t[i];
            forall k | 0 <= k < |s.replies[c]| ::
              && s.replies[c][k].Response? && s.replies[c][k].request == s.submitted[c][k]
              && 0 < s.replies[c][k].index <= |s.log| && s.log[s.replies[c][k].index - 1] == s.submitted[c][k]
    ensures forall j, k | 0 <= j < k < |t[i].replies[c]| :: t[i].replies[c][j].index < t[i].replies[c][k].index
  {
    hide Of, TokenInv, FollowerInv, Followers, Inv;
    RunKeeps(t, i);
    ClientNow(t[i], c);
    PlacesNow(t[i]);
    assert RepliesInv(t[i], c);
  }

  /** In every run a commit is decided only by a follower's answer for that very request, after every other
    * follower has answered for it. */
  lemma DecidedByAll(t: seq<State>, i: nat, a: Action)
    requires Run(t) && i < |t| && Enabled(t[i], a) && |t[i].log| < |Apply(t[i], a).log|
    ensures a.Hear? && t[i].up[a.i][0].Ready?
    ensures var s, r := t[i], t[i].up[a.i][0].request;
            && Apply(s, a).log == s.log + [r]
            && Active(s, r.client) && r == Current(s, r.client)
            && s.heard[r.client] + {a.i} == Followers(Replicas(s))
  {
    hide Inv, Of, Followers, Run;
    RunKeeps(t, i);
    if a.Hear? {
      ReadyIs(t[i], a.i);
    }
  }

  /** And it is decided at the last answer, whatever the counter has counted before. */
  lemma DecidesAtLastAnswer(t: seq<State>, i: nat, j: nat)
    requires Run(t) && i < |t| && Enabled(t[i], Hear(j))
    ensures var s, c := t[i], t[i].up[j][0].request.client;
            s.heard[c] + {j} == Followers(Replicas(s)) <==> |Apply(s, Hear(j)).log| == |s.log| + 1
  {
    hide Inv, Of, Followers, Run;
    RunKeeps(t, i);
    ReadyIs(t[i], j);
  }

  // ----- progress -----

  predicate CanMove(s: State) {
    || Enabled(s, Send)
    || (exists c | 0 <= c < Clients(s) :: Enabled(s, Take(c)))
    || (exists i | 0 < i < Replicas(s) :: Enabled(s, Hear(i)) || Enabled(s, Follow(i)))
  }

  /** With a follower at all, a client waiting for its reply never waits on a system that cannot move; alone,
    * the leader never answers. */
  lemma NeverStuck(t: seq<State>, i: nat, c: nat)
    requires Run(t) && i < |t| && c < Clients(t[i]) && |t[i].submitted| == |t[i].replies| == Clients(t[i])
    requires |t[i].replies[c]| < |t[i].submitted[c]|
    ensures Replicas(t[i]) > 1 ==> CanMove(t[i])
  {
    hide Inv, Of, Followers, Tokens, FollowerInv;
    var s := t[i];
    RunKeeps(t, i);
    ClientNow(s, c);
    if Replicas(s) > 1 && s.pc.Receiving? {
      if s.inbox[c] != [] {
        assert Enabled(s, Take(c));
      } else {
        assert Active(s, c);
        var j :| j in Followers(Replicas(s)) && j !in s.heard[c];
        TokenNow(s, j, c);
        NoEmptyTokens(s.down[j], c);
        NoEmptyTokens(s.up[j], c);
        if s.up[j] != [] {
          HearEnabled(s, j);
        }
        assert Enabled(s, Hear(j)) || Enabled(s, Follow(j));
      }
    }
  }

  lemma NoEmptyTokens(q: seq<Msg>, c: nat)
    ensures q == [] ==> Tokens(q, c) == 0
  {
  }

  lemma HearEnabled(s: State, i: nat)
    requires Inv(s) && s.pc.Receiving? && 0 < i < Replicas(s) && s.up[i] != []
    ensures Enabled(s, Hear(i))
  {
    hide TokenInv, ClientInv;
    FollowerNow(s, i);
    assert s.up[i][0] in s.up[i];
  }

  lemma {:induction false} AloneNeverReplies(t: seq<State>, i: nat)
    requires Run(t) && i < |t| && Replicas(t[0]) == 1
    ensures Replicas(t[i]) == 1 && t[i].log == [] && !t[i].pc.Committing?
    ensures forall c | 0 <= c < |t[i].replies| :: t[i].replies[c] == []
  {
    if 0 < i {
      AloneNeverReplies(t, i - 1);
      assert Next(t[i - 1], t[i]);
    }
  }
}
