/** The message-passing barrier: a sum up the tree, then a broadcast down it, for any number of rounds. */
module TreeBarrier {
  import opened Trees

  /** Where a core is in `mp_barrier`. */
  datatype Pc =
    | Outside
    | Collecting(received: set<nat>, sum: nat)
    | Awaiting
    | Forwarding(sent: set<nat>, payload: nat)

  datatype Core = Core(entered: nat, pc: Pc)

  /** For each core but the root, the channels to and from its parent; the sums the root obtained. */
  datatype State = State(cores: seq<Core>, up: seq<seq<nat>>, down: seq<seq<nat>>, sums: seq<nat>)

  datatype Action =
    | Enter(c: nat)     // call mp_barrier
    | Gather(d: nat)    // the parent of `d` finds its message
    | PassUp(c: nat)    // all children heard: send the sum, or start the broadcast
    | Receive(d: nat)   // the broadcast arrives
    | Forward(d: nat)   // the parent of `d` sends it on
    | Return(c: nat)    // leave mp_barrier

  predicate Shaped(t: Tree, s: State) {
    && t.root < Size(t) == |t.id| == |s.cores| == |s.up| == |s.down|
    && (forall d | 0 <= d < Size(t) && d != t.root :: t.parent[d] < Size(t))
  }

  predicate Enabled(t: Tree, s: State, a: Action) {
    && Shaped(t, s)
    && match a
       case Enter(c) => c < Size(t) && s.cores[c].pc.Outside?
       case Gather(d) =>
         && d < Size(t) && d != t.root && s.up[d] != []
         && var p := s.cores[t.parent[d]].pc; p.Collecting? && d !in p.received
       case PassUp(c) => c < Size(t) && var p := s.cores[c].pc; p.Collecting? && p.received == Children(t, c)
       case Receive(d) => d < Size(t) && d != t.root && s.cores[d].pc.Awaiting? && s.down[d] != []
       case Forward(d) =>
         && d < Size(t) && d != t.root
         && var p := s.cores[t.parent[d]].pc; p.Forwarding? && d !in p.sent
       case Return(c) => c < Size(t) && var p := s.cores[c].pc; p.Forwarding? && p.sent == Children(t, c)
  }

  function At(s: State, c: nat, pc: Pc): State
    requires c < |s.cores|
  {
    s.(cores := s.cores[c := s.cores[c].(pc := pc)])
  }

  function Apply(t: Tree, s: State, a: Action): State
    requires Enabled(t, s, a)
  {
    match a
    case Enter(c) => s.(cores := s.cores[c := Core(s.cores[c].entered + 1, Collecting({}, 0))])
    case Gather(d) =>
      var c := t.parent[d];
      var p := s.cores[c].pc;
      At(s, c, Collecting(p.received + {d}, p.sum + s.up[d][0])).(up := s.up[d := s.up[d][1..]])
    case PassUp(c) =>
      var sum := s.cores[c].pc.sum + t.id[c];
      if c == t.root then
        At(s, c, Forwarding({}, t.id[c])).(sums := s.sums + [sum])
      else
        At(s, c, Awaiting).(up := s.up[c := s.up[c] + [sum]])
    case Receive(d) => At(s, d, Forwarding({}, s.down[d][0])).(down := s.down[d := s.down[d][1..]])
    case Forward(d) =>
      var c := t.parent[d];
      var p := s.cores[c].pc;
      At(s, c, Forwarding(p.sent + {d}, p.payload)).(down := s.down[d := s.down[d] + [p.payload]])
    case Return(c) => At(s, c, Outside)
  }

  predicate Init(t: Tree, s: State) {
    && Shaped(t, s) && s.sums == []
    && forall c | 0 <= c < Size(t) :: s.cores[c] == Core(0, Outside) && s.up[c] == [] && s.down[c] == []
  }

  ghost predicate Next(t: Tree, s: State, s': State) {
    exists a :: Enabled(t, s, a) && s' == Apply(t, s, a)
  }

  ghost predicate Run(t: Tree, r: seq<State>) {
    && ValidTree(t) && 0 < |r| && Init(t, r[0])
    && forall i | 0 < i < |r| :: Next(t, r[i - 1], r[i])
  }

  // ----- sums over the tree -----

  /** What core `c` passes up: its own id and everything below it. */
  function SubtreeSum(t: Tree, c: nat): nat
    requires ValidTree(t) && c < Size(t)
    decreases t.height[c], Size(t) + 1
  {
    t.id[c] + ChildSums(t, c, Children(t, c), Size(t))
  }

  /** The same over the first `m` cores that are children of `c` and in `from`. */
  function ChildSums(t: Tree, c: nat, from: set<nat>, m: nat): nat
    requires ValidTree(t) && c < Size(t) && m <= Size(t)
    decreases t.height[c], m
  {
    if m == 0 then 0
    else
      ChildSums(t, c, from, m - 1)
      + if IsChild(t, m - 1, c) && m - 1 in from then SubtreeSum(t, m - 1) else 0
  }

  lemma {:induction false} ChildSumsAdd(t: Tree, c: nat, from: set<nat>, d: nat, m: nat)
    requires ValidTree(t) && c < Size(t) && m <= Size(t) && IsChild(t, d, c) && d !in from
    ensures ChildSums(t, c, from + {d}, m) == ChildSums(t, c, from, m) + if d < m then SubtreeSum(t, d) else 0
    decreases m
  {
    if 0 < m {
      ChildSumsAdd(t, c, from, d, m - 1);
    }
  }

  lemma {:induction false} ChildSumsNone(t: Tree, c: nat, m: nat)
    requires ValidTree(t) && c < Size(t) && m <= Size(t)
    ensures ChildSums(t, c, {}, m) == 0
    decreases m
  {
    if 0 < m {
      ChildSumsNone(t, c, m - 1);
    }
  }
}
