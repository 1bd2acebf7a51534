/** Sleeping and waking over whole runs: every notification is for a waiting endpoint, every return from sleep
  * uses up a notification of its own, and a notification is kept until it is used. */
module UmpWakeups {
  import opened UmpWords
  import opened UmpChannel
  import opened UmpInvariant
  import opened UmpTheorems

  /** `me` returns from sleep in this step. */
  predicate Returns(s: State, s': State) {
    s.me.end.pc.Asleep? && !s'.me.end.pc.Asleep?
  }

  /** The peer notifies `me` in this step. */
  predicate Notified(s: State, s': State) {
    s.peer.end.pc.Notifying? && !s'.peer.end.pc.Notifying?
  }

  /** How often `me` returned from sleep in steps 1 to `i`. */
  function ReturnCount(t: seq<State>, i: nat): nat
    requires i < |t|
  {
    if i == 0 then 0 else ReturnCount(t, i - 1) + if Returns(t[i - 1], t[i]) then 1 else 0
  }

  function NoticeCount(t: seq<State>, i: nat): nat
    requires i < |t|
  {
    if i == 0 then 0 else NoticeCount(t, i - 1) + if Notified(t[i - 1], t[i]) then 1 else 0
  }

  function Remembered(s: State): nat {
    if s.me.wakeup then 1 else 0
  }

  /** What one step does to the remembered wakeup of `me`: a notification sets it, a return from sleep needs it
    * and clears it, and nothing else touches it. */
  lemma FlagStep(s: State, s': State)
    requires Next(s, s')
    ensures Notified(s, s') ==> s'.me.wakeup && !Returns(s, s')
    ensures Returns(s, s') ==> s.me.wakeup && !s'.me.wakeup
    ensures !Notified(s, s') && !Returns(s, s') ==> s'.me.wakeup == s.me.wakeup
  {
    hide Enabled, Apply;
    if a :| Enabled(s, a) && s' == Apply(s, a) {
      OwnStep(s, a);
    } else {
      var a :| Enabled(Swap(s), a) && s' == Swap(Apply(Swap(s), a));
      PeerStep(Swap(s), a);
    }
  }

  lemma OwnStep(s: State, a: Action)
    requires Enabled(s, a)
    ensures var s' := Apply(s, a);
            && s'.peer.end == s.peer.end
            && (Returns(s, s') ==> s.me.wakeup && !s'.me.wakeup)
            && (!Returns(s, s') ==> s'.me.wakeup == s.me.wakeup)
  {
    hide SubmitEnd, PollEnd, HeaderEnd, CanReceive;
  }

  /** The same step seen from the other side. */
  lemma PeerStep(s: State, a: Action)
    requires Enabled(s, a)
    ensures var s' := Apply(s, a);
            && s'.peer.end == s.peer.end
            && (s.me.end.pc.Notifying? && !s'.me.end.pc.Notifying? ==> s'.peer.wakeup)
            && (!(s.me.end.pc.Notifying? && !s'.me.end.pc.Notifying?) ==> s'.peer.wakeup == s.peer.wakeup)
  {
    hide SubmitEnd, PollEnd, HeaderEnd, CanReceive;
  }

  /** In any stretch of a run, an endpoint returns from sleep at most as often as it is notified, but for a
    * notification remembered from before. */
  lemma {:induction false} ReturnsAreNotified(t: seq<State>, i: nat, k: nat)
    requires Run(t) && i <= k < |t|
    ensures ReturnCount(t, k) + Remembered(t[k]) - ReturnCount(t, i)
         <= NoticeCount(t, k) + Remembered(t[i]) - NoticeCount(t, i)
    ensures k == 0 ==> Remembered(t[k]) == 0
    decreases k
  {
    hide Next;
    if i < k {
      ReturnsAreNotified(t, i, k - 1);
      FlagStep(t[k - 1], t[k]);
    }
  }

  /** Each return from sleep follows a notification later than the return before it. */
  lemma EachReturnIsNotified(t: seq<State>, a: nat, b: nat) returns (c: nat)
    requires Run(t) && 0 < a < b < |t| && Returns(t[a - 1], t[a]) && Returns(t[b - 1], t[b])
    ensures a < c < b && Notified(t[c - 1], t[c])
  {
    hide Next, Init;
    FlagStep(t[a - 1], t[a]);
    FlagStep(t[b - 1], t[b]);
    ReturnsAreNotified(t, a, b - 1);
    CountGrows(t, a, b - 1);
    c := SomeNotice(t, a, b - 1);
  }

  lemma {:induction false} CountGrows(t: seq<State>, i: nat, k: nat)
    requires i <= k < |t|
    ensures ReturnCount(t, i) <= ReturnCount(t, k)
    decreases k
  {
    if i < k {
      CountGrows(t, i, k - 1);
    }
  }

  lemma {:induction false} SomeNotice(t: seq<State>, i: nat, k: nat) returns (c: nat)
    requires i <= k < |t| && NoticeCount(t, i) < NoticeCount(t, k)
    ensures i < c <= k && Notified(t[c - 1], t[c])
    decreases k
  {
    if Notified(t[k - 1], t[k]) {
      c := k;
    } else {
      c := SomeNotice(t, i, k - 1);
    }
  }

  /** A notification is remembered until a return from sleep uses it, whatever happens in between. */
  lemma {:induction false} NoticeIsKept(t: seq<State>, i: nat, k: nat)
    requires Run(t) && 0 < i <= k < |t| && Notified(t[i - 1], t[i])
    requires forall j | i < j <= k :: !Returns(t[j - 1], t[j])
    ensures t[k].me.wakeup
    decreases k
  {
    hide Next, Init;
    if i < k {
      NoticeIsKept(t, i, k - 1);
    }
    FlagStep(t[k - 1], t[k]);
  }

  /** After its submit, a sender goes on to notify exactly if the other endpoint waits. */
  lemma NotifiesWaiters(t: seq<State>, i: nat)
    requires LegalRun(t) && 0 < i < |t| && t[i - 1].peer.end.pc.Submitted? && !t[i].peer.end.pc.Submitted?
    ensures t[i].peer.end.pc.Notifying? <==> HoldsWake(t[i - 1].me.end)
    ensures t[i].peer.end.pc.Ready? <==> !HoldsWake(t[i - 1].me.end)
  {
    hide LegalRun, Next, HoldsWake;
    NeverBothWaiting(t, i - 1);
    StepOf(t, i);
    LoadsWake(t[i - 1], t[i]);
  }

  lemma StepOf(t: seq<State>, i: nat)
    requires LegalRun(t) && 0 < i < |t|
    ensures Next(t[i - 1], t[i])
  {
  }

  lemma LoadsWake(s: State, s': State)
    requires Next(s, s') && s.peer.end.pc.Submitted? && !s'.peer.end.pc.Submitted?
    ensures if s.wake == Running then s'.peer.end.pc.Ready? else s'.peer.end.pc.Notifying?
    ensures !HoldsWake(s.peer.end)
  {
    hide Enabled, Apply;
    if a :| Enabled(s, a) && s' == Apply(s, a) {
      OwnStep(s, a);
    } else {
      var a :| Enabled(Swap(s), a) && s' == Swap(Apply(Swap(s), a));
      SubmittedStep(Swap(s), a);
    }
  }

  lemma SubmittedStep(s: State, a: Action)
    requires Enabled(s, a) && s.me.end.pc.Submitted?
    ensures Apply(s, a).me.end.pc == if s.wake == Running then Ready else Notifying
  {
  }
}
