/** The leader's commit rule: the nested loop over the match indices, and what it means for majorities. */
module RaftCommit {

  /** Number of the first `m` replicas whose match index is at least `x`. */
  function CountUpTo(match_: seq<nat>, x: nat, m: nat): (c: nat)
    requires m <= |match_|
    ensures c <= m
  {
    if m == 0 then 0 else CountUpTo(match_, x, m - 1) + if x <= match_[m - 1] then 1 else 0
  }

  function Count(match_: seq<nat>, x: nat): nat {
    CountUpTo(match_, x, |match_|)
  }

  /** Match entries needed to commit; the leader's own entry always stays 0. */
  function Quorum(n: nat): nat {
    if n == 0 then 0 else (n - 1) / 2
  }

  /** Responses to the newest entry after which the leader commits it. */
  function Needed(n: nat): nat {
    if Quorum(n) == 0 then 1 else Quorum(n)
  }

  predicate Supported(match_: seq<nat>, x: nat) {
    Count(match_, x) >= Quorum(|match_|)
  }

  /** The largest of the old commit index and the match indices with enough support. */
  ghost predicate IsCommitIndex(match_: seq<nat>, before: nat, c: nat) {
    && before <= c
    && (c == before || (c in match_ && Supported(match_, c)))
    && (forall i | 0 <= i < |match_| && Supported(match_, match_[i]) :: match_[i] <= c)
  }

  lemma CommitIndexUnique(match_: seq<nat>, before: nat, c: nat, d: nat)
    requires IsCommitIndex(match_, before, c) && IsCommitIndex(match_, before, d)
    ensures c == d
  {
  }

  lemma {:induction false} CountGrows(match_: seq<nat>, x: nat, m: nat, m': nat)
    requires m <= m' <= |match_|
    ensures CountUpTo(match_, x, m) <= CountUpTo(match_, x, m')
    decreases m'
  {
    if m < m' {
      CountGrows(match_, x, m, m' - 1);
    }
  }

  /** The commit index after the replicas from `i` on have been looked at. */
  function Raised(match_: seq<nat>, commit: nat, i: nat): nat
    requires i <= |match_|
    decreases |match_| - i
  {
    if i == |match_| then commit
    else Raised(match_, if commit < match_[i] && Supported(match_, match_[i]) then match_[i] else commit, i + 1)
  }

  function CommitIndex(match_: seq<nat>, before: nat): nat {
    Raised(match_, before, 0)
  }

  lemma {:induction false} RaisedIsCommitIndex(match_: seq<nat>, before: nat, commit: nat, i: nat)
    requires i <= |match_| && before <= commit
    requires commit == before || (commit in match_ && Supported(match_, commit))
    requires forall k | 0 <= k < i && Supported(match_, match_[k]) :: match_[k] <= commit
    ensures IsCommitIndex(match_, before, Raised(match_, commit, i))
    decreases |match_| - i
  {
    if i < |match_| {
      RaisedIsCommitIndex(match_, before,
        if commit < match_[i] && Supported(match_, match_[i]) then match_[i] else commit, i + 1);
    }
  }

  lemma CommitIndexMeaning(match_: seq<nat>, before: nat)
    ensures IsCommitIndex(match_, before, CommitIndex(match_, before))
  {
    RaisedIsCommitIndex(match_, before, before, 0);
  }

  /** The loops of update_commit_index_leader compute exactly that index. */
  method UpdateCommitIndex(match_: array<nat>, before: nat) returns (commit: nat)
    ensures IsCommitIndex(match_[..], before, commit)
    ensures commit == CommitIndex(match_[..], before)
  {
    var n := match_.Length;
    var majority := if n == 0 then 0 else (n - 1) / 2;
    commit := before;
    for i := 0 to n
      invariant before <= commit
      invariant commit == before || (commit in match_[..] && Supported(match_[..], commit))
      invariant forall k | 0 <= k < i && Supported(match_[..], match_[k]) :: match_[k] <= commit
    {
      var toTest := match_[i];
      var numLarger := 0;
      if toTest > commit {
        for j := 0 to n
          invariant numLarger == CountUpTo(match_[..], toTest, j)
          invariant commit == toTest || (commit == before || (commit in match_[..] && Supported(match_[..], commit)))
          invariant commit == toTest ==> Supported(match_[..], toTest)
          invariant before <= commit <= toTest
          invariant j > 0 && numLarger >= majority ==> commit == toTest
          invariant forall k | 0 <= k < i && Supported(match_[..], match_[k]) :: match_[k] <= commit
        {
          if toTest <= match_[j] {
            numLarger := numLarger + 1;
          }
          if numLarger >= majority {
            CountGrows(match_[..], toTest, j + 1, n);
            commit := toTest;
          }
        }
        assert match_[..][i] == toTest;
      }
    }
    CommitIndexMeaning(match_[..], before);
  }

  /** k-th largest: with at least three replicas, the new index is the larger of the old one and the
    * quorum-th largest match index. */
  lemma QuorumthLargest(match_: seq<nat>, before: nat, c: nat)
    requires IsCommitIndex(match_, before, c) && 3 <= |match_|
    ensures before < c ==> Count(match_, c) >= Quorum(|match_|)
    ensures forall x: nat | c < x :: Count(match_, x) < Quorum(|match_|)
  {
    forall x: nat | c < x
      ensures Count(match_, x) < Quorum(|match_|)
    {
      if Count(match_, x) >= Quorum(|match_|) {
        var i := SmallestAbove(match_, x, |match_|);
        assert Supported(match_, match_[i]);
      }
    }
  }

  /** Some match index at or above `x` is reached by exactly the replicas that reach `x`. */
  lemma {:induction false} SmallestAbove(match_: seq<nat>, x: nat, m: nat) returns (i: nat)
    requires m <= |match_| && 0 < CountUpTo(match_, x, m)
    ensures i < m && x <= match_[i] && CountUpTo(match_, match_[i], m) == CountUpTo(match_, x, m)
  {
    if CountUpTo(match_, x, m - 1) == 0 {
      i := m - 1;
      NoneAbove(match_, x, match_[i], m - 1);
    } else {
      i := SmallestAbove(match_, x, m - 1);
      if x <= match_[m - 1] < match_[i] {
        SameCount(match_, x, match_[m - 1], match_[i], m - 1);
        i := m - 1;
      }
    }
  }

  lemma {:induction false} NoneAbove(match_: seq<nat>, x: nat, y: nat, m: nat)
    requires m <= |match_| && x <= y && CountUpTo(match_, x, m) == 0
    ensures CountUpTo(match_, y, m) == 0
  {
    if 0 < m {
      NoneAbove(match_, x, y, m - 1);
    }
  }

  lemma {:induction false} SameCount(match_: seq<nat>, x: nat, y: nat, z: nat, m: nat)
    requires m <= |match_| && x <= y <= z
    ensures CountUpTo(match_, z, m) <= CountUpTo(match_, y, m) <= CountUpTo(match_, x, m)
  {
    if 0 < m {
      SameCount(match_, x, y, z, m - 1);
    }
  }

  // ----- majorities -----

  /** More than half of the `n` replicas. */
  predicate StrictMajority(holders: nat, n: nat) {
    2 * holders > n
  }

  /** Fewest replicas, the leader included, that hold an entry when it is committed. */
  function FewestHolders(n: nat): nat {
    1 + Needed(n)
  }
}
