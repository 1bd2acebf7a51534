/** The polling loop of the reduction and the send loop of the broadcast. */
module TreeBarrierCode {
  import opened Trees
  import opened TreeBarrier
  import opened TreeBarrierSafety

  function Total(payload: seq<nat>): nat {
    if payload == [] then 0 else Total(payload[..|payload| - 1]) + payload[|payload| - 1]
  }

  /** Sum over the first `m` children heard from. */
  function HeardSum(payload: seq<nat>, received: seq<bool>, m: nat): nat
    requires m <= |payload| == |received|
  {
    if m == 0 then 0 else HeardSum(payload, received, m - 1) + if received[m - 1] then payload[m - 1] else 0
  }

  function HeardCount(received: seq<bool>, m: nat): (c: nat)
    requires m <= |received|
    ensures c <= m
  {
    if m == 0 then 0 else HeardCount(received, m - 1) + if received[m - 1] then 1 else 0
  }

  lemma {:induction false} HearOne(payload: seq<nat>, received: seq<bool>, i: nat, m: nat)
    requires m <= |payload| == |received| && i < |received| && !received[i]
    ensures HeardSum(payload, received[i := true], m)
         == HeardSum(payload, received, m) + if i < m then payload[i] else 0
    ensures HeardCount(received[i := true], m) == HeardCount(received, m) + if i < m then 1 else 0
    decreases m
  {
    if 0 < m {
      HearOne(payload, received, i, m - 1);
    }
  }

  lemma {:induction false} AllHeard(payload: seq<nat>, received: seq<bool>, m: nat)
    requires m <= |payload| == |received| && HeardCount(received, m) == m
    ensures HeardSum(payload, received, m) == Total(payload[..m])
    ensures forall i | 0 <= i < m :: received[i]
    decreases m
  {
    if 0 < m {
      AllHeard(payload, received, m - 1);
      assert payload[..m][..m - 1] == payload[..m - 1];
    }
  }

  lemma {:induction false} CountAll(received: seq<bool>, m: nat)
    requires m <= |received| && forall i | 0 <= i < m :: received[i]
    ensures HeardCount(received, m) == m
  {
    if 0 < m {
      CountAll(received, m - 1);
    }
  }

  lemma {:induction false} CountNone(payload: seq<nat>, received: seq<bool>, m: nat)
    requires m <= |payload| == |received| && forall i | 0 <= i < m :: !received[i]
    ensures HeardCount(received, m) == 0 && HeardSum(payload, received, m) == 0
    decreases m
  {
    if 0 < m {
      CountNone(payload, received, m - 1);
    }
  }

  /** Poll the children in turn, skipping those already heard, until all have been heard. Child `j` has its
    * message in the channel from poll number `arrival[j]` on. Whenever the messages arrive, each is taken
    * exactly once and the loop ends. */
  method CollectSum(id: nat, arrival: seq<nat>, payload: seq<nat>) returns (sum: nat)
    requires |arrival| == |payload|
    ensures sum == Total(payload) + id
  {
    var n := |payload|;
    var received := new bool[n](_ => false);
    var numRecv, idx := 0, 0;
    sum := 0;
    CountNone(payload, received[..], n);
    ghost var last := Latest(arrival);
    var polls := 0;
    ghost var calm := false;
    while idx < n
      invariant idx <= n && numRecv <= n
      invariant idx == n ==> numRecv == n
      invariant numRecv == HeardCount(received[..], n) && sum == HeardSum(payload, received[..], n)
      invariant calm ==> last <= polls && forall i | 0 <= i < idx :: received[i]
      decreases if polls < last then last - polls else 0, if calm then 0 else 1, n - idx
    {
      if !received[idx] && arrival[idx] <= polls {
        HearOne(payload, received[..], idx, n);
        sum := sum + payload[idx];
        ghost var before := received[..];
        received[idx] := true;
        assert received[..] == before[idx := true];
        numRecv := numRecv + 1;
      }
      ArrivesBy(arrival, idx);
      polls := polls + 1;
      idx := idx + 1;
      if idx == n && numRecv < n {
        if calm {
          CountAll(received[..], n);
        }
        idx := 0;
        calm := last <= polls;
      }
    }
    AllHeard(payload, received[..], n);
    assert payload[..n] == payload;
    sum := sum + id;
  }

  ghost function Latest(arrival: seq<nat>): nat {
    if arrival == [] then 0
    else
      var rest := Latest(arrival[..|arrival| - 1]);
      if rest < arrival[|arrival| - 1] then arrival[|arrival| - 1] else rest
  }

  lemma {:induction false} ArrivesBy(arrival: seq<nat>, i: nat)
    requires i < |arrival|
    ensures arrival[i] <= Latest(arrival)
  {
    if i < |arrival| - 1 {
      ArrivesBy(arrival[..|arrival| - 1], i);
    }
  }

  /** The first `m` of these. */
  function First(kids: seq<nat>, m: nat): (f: set<nat>)
    requires m <= |kids|
    ensures forall d :: d in f <==> d in kids[..m]
  {
    if m == 0 then {} else First(kids, m - 1) + {kids[m - 1]}
  }

  /** A core's sending side: one channel per child, and the two counters. Ghost parameters name the states of
    * the machine a call goes through while the other cores are paused. */
  class Sender {
    const core: nat
    const kids: seq<nat>
    const channels: array<seq<nat>>
    var numTx: nat
    var numSend: nat

    constructor (core: nat, kids: seq<nat>)
      ensures fresh(channels) && channels.Length == |kids| && numTx == 0 && numSend == 0
      ensures this.core == core && this.kids == kids && forall j | 0 <= j < |kids| :: channels[j] == []
    {
      this.core, this.kids := core, kids;
      channels := new seq<nat>[|kids|](_ => []);
      numTx, numSend := 0, 0;
    }

    /** The core is sending the broadcast, and has sent it to its first `m` children. */
    ghost predicate Shows(t: Tree, s: State, payload: nat, m: nat)
      reads this, channels
    {
      && Shaped(t, s) && core < Size(t) && m <= |kids| == channels.Length && AreChildren(t, core, kids)
      && s.cores[core].pc == Forwarding(First(kids, m), payload)
      && forall j | 0 <= j < |kids| :: s.down[kids[j]] == channels[j]
    }

    /** Send to the next child: the machine's step of sending the broadcast on. */
    method Send(j: nat, payload: nat, ghost t: Tree, ghost s: State) returns (ghost s': State)
      requires j < |kids| && Shows(t, s, payload, j) && Inv(t, s)
      modifies this`numTx, channels
      ensures Enabled(t, s, Forward(kids[j])) && s' == Apply(t, s, Forward(kids[j]))
      ensures Shows(t, s', payload, j + 1) && Inv(t, s') && numTx == old(numTx) + 1
      ensures channels[..] == old(channels[..])[j := old(channels[j]) + [payload]]
    {
      hide Inv, First, Apply, Enabled, Children;
      NextChild(t, s, core, kids, payload, j);
      s' := Apply(t, s, Forward(kids[j]));
      StepKeeps(t, s, s') by {
        assert Next(t, s, s');
      }
      channels[j] := channels[j] + [payload];
      numTx := numTx + 1;
    }

    /** Every child gets the payload once, after everything it was sent before; then the core can return. */
    method SendChildren(payload: nat, ghost t: Tree, ghost s: State) returns (ghost s': State)
      requires Shows(t, s, payload, 0) && Inv(t, s)
      modifies this, channels
      ensures Shows(t, s', payload, |kids|) && Inv(t, s') && Enabled(t, s', Return(core))
      ensures forall j | 0 <= j < channels.Length :: channels[j] == old(channels[j]) + [payload]
      ensures numTx == old(numTx) + channels.Length && numSend == old(numSend) + channels.Length
    {
      hide Inv, First, Apply, Children, AreChildren;
      s' := s;
      for j := 0 to channels.Length
        invariant Shows(t, s', payload, j) && Inv(t, s')
        invariant forall i | 0 <= i < j :: channels[i] == old(channels[i]) + [payload]
        invariant forall i | j <= i < channels.Length :: channels[i] == old(channels[i])
        invariant numTx == old(numTx) + j && numSend == old(numSend) + j
      {
        ghost var before := channels[..];
        s' := Send(j, payload, t, s');
        assert forall i | 0 <= i < channels.Length ::
            channels[i] == if i == j then before[i] + [payload] else before[i];
        numSend := numSend + 1;
      }
      AllSent(t, core, kids);
    }
  }

  /** The children of a core, each once. */
  ghost predicate AreChildren(t: Tree, c: nat, kids: seq<nat>)
    requires c < Size(t)
  {
    && (forall i, j | 0 <= i < j < |kids| :: kids[i] != kids[j])
    && (forall j | 0 <= j < |kids| :: kids[j] < Size(t) && IsChild(t, kids[j], c))
    && (forall d | d in Children(t, c) :: d in kids)
  }

  lemma AllSent(t: Tree, c: nat, kids: seq<nat>)
    requires c < Size(t) && AreChildren(t, c, kids)
    ensures First(kids, |kids|) == Children(t, c)
  {
    assert kids[..|kids|] == kids;
  }

  lemma NextChild(t: Tree, s: State, c: nat, kids: seq<nat>, payload: nat, j: nat)
    requires Shaped(t, s) && c < Size(t) && j < |kids| && AreChildren(t, c, kids)
    requires s.cores[c].pc == Forwarding(First(kids, j), payload)
    ensures Enabled(t, s, Forward(kids[j]))
    ensures var s' := Apply(t, s, Forward(kids[j]));
            && Shaped(t, s') && s'.cores[c].pc == Forwarding(First(kids, j + 1), payload)
            && s'.down == s.down[kids[j] := s.down[kids[j]] + [payload]]
  {
    assert kids[j] !in kids[..j];
  }
}
