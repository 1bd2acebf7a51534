/** The exact state of every replica, as a function of the requests so far. */
module RaftInvariant {
  import opened RaftCommit
  import opened RaftReplica
  import opened RaftSystem
  import opened Wrappers

  // ----- exact states -----

  function EntryAt(requests: seq<Request>, x: nat, count: nat): Entry
    requires 0 < x <= |requests|
  {
    Entry(x, 1, requests[x - 1], count)
  }

  /** The first entry, then entries `lo..k`; `full` is the count of all of these but the last. */
  function QueueAt(blank: Entry, requests: seq<Request>, lo: nat, k: nat, full: nat, last: nat): (q: seq<Entry>)
    requires 1 <= lo <= k + 1 <= |requests| + 1
    ensures |q| == k + 2 - lo && q[0] == blank
    ensures forall j | 0 < j < |q| :: q[j] == EntryAt(requests, lo + j - 1, if lo + j - 1 < k then full else last)
  {
    [blank] + seq(k + 1 - lo, j requires 0 <= j < k + 1 - lo =>
                    EntryAt(requests, lo + j, if lo + j < k then full else last))
  }

  /** `a - b`, but at least `floor`. */
  function Less(a: nat, b: nat, floor: nat): nat {
    if a < b + floor then floor else a - b
  }

  /** A follower that has taken `c` entries. */
  function FollowerAt(n: nat, i: nat, c: nat, requests: seq<Request>, blank: Entry): Replica
    requires c <= |requests|
  {
    var applied := Less(c, 1, 0);
    Replica(i, 1, 0, applied, applied, c, QueueAt(blank, requests, Less(c, 2, 1), c, 0, 0),
            seq(n, _ => 2), seq(n, _ => 0), requests[..applied])
  }

  /** Whether the leader has committed the newest entry, after `m` responses to it. */
  predicate Committed(n: nat, m: nat) {
    1 < n && m >= Needed(n)
  }

  /** Last entry a follower has acknowledged, when `m` of them have answered for entry `k`. */
  function Acked(i: nat, k: nat, m: nat): nat {
    if i == 0 || k == 0 then 0 else if i <= m then k else k - 1
  }

  function NextAt(i: nat, k: nat, m: nat): nat {
    if Acked(i, k, m) == 0 then 2 else Acked(i, k, m) + 1
  }

  function LeaderCommit(n: nat, k: nat, m: nat): (c: nat)
    ensures c <= k
  {
    if k == 0 || n <= 1 then 0 else if Committed(n, m) then k else k - 1
  }

  function LeaderLow(n: nat, k: nat, m: nat): (lo: nat)
    ensures 1 <= lo <= k + 1
  {
    if n <= 1 then 1 else Less(k, if Committed(n, m) then 1 else 2, 1)
  }

  function LastCount(n: nat, m: nat): nat {
    m + if Committed(n, m) then 1 else 0
  }

  /** The leader with `k` entries, after `m` responses to the newest one. */
  function LeaderAt(n: nat, k: nat, m: nat, requests: seq<Request>, blank: Entry): Replica
    requires k <= |requests|
  {
    var applied := LeaderCommit(n, k, m);
    Replica(0, 1, 0, applied, applied, k,
            QueueAt(blank, requests, LeaderLow(n, k, m), k, if n <= 1 then 0 else n, LastCount(n, m)),
            seq(n, i requires 0 <= i < n => NextAt(i, k, m)), seq(n, i requires 0 <= i < n => Acked(i, k, m)),
            requests[..applied])
  }

  // ----- looking up and removing entries -----

  lemma FindInQueue(blank: Entry, requests: seq<Request>, lo: nat, k: nat, full: nat, last: nat, x: nat)
    requires 1 <= lo <= k + 1 <= |requests| + 1 && blank.index == 0
    ensures var q := QueueAt(blank, requests, lo, k, full, last);
            && (lo <= x <= k ==> Find(q, x) == x + 1 - lo)
            && (x == 0 ==> Find(q, x) == 0)
            && (x != 0 && (x < lo || k < x) ==> Find(q, x) == |q|)
  {
    var q := QueueAt(blank, requests, lo, k, full, last);
    if lo <= x <= k {
      FindIs(q, x, x + 1 - lo);
    }
  }

  lemma QueueGrows(blank: Entry, requests: seq<Request>, lo: nat, k: nat, full: nat)
    requires 1 <= lo <= k + 1 <= |requests|
    ensures QueueAt(blank, requests, lo, k, full, full) + [Entry(k + 1, 1, requests[k], 0)]
         == QueueAt(blank, requests, lo, k + 1, full, 0)
  {
  }

  // ----- a follower takes one entry -----

  lemma FollowerTakes(n: nat, i: nat, c: nat, requests: seq<Request>, blank: Entry)
    requires 0 < i && c < |requests| && blank.index == 0
    ensures HandleAppend(FollowerAt(n, i, c, requests, blank), Append(1, 0, c, c, requests[c]))
         == Done(FollowerAt(n, i, c + 1, requests, blank), [], [Ack(1, c + 1, i, true, requests[c].client)], [])
  {
    hide ApplyEntries, QueueAt, Remove, Find;
    var lo := Less(c, 2, 1);
    FindInQueue(blank, requests, lo, c, 0, 0, c);
    FindInQueue(blank, requests, lo, c, 0, 0, c + 1);
    QueueGrows(blank, requests, lo, c, 0);
    FollowerApplies(n, i, c, requests, blank, Accept(FollowerAt(n, i, c, requests, blank),
                    Append(1, 0, c, c, requests[c]), QueueAt(blank, requests, lo, c, 0, 0)));
  }

  lemma QueueTrims(blank: Entry, requests: seq<Request>, lo: nat, k: nat)
    requires 1 <= lo < k <= |requests| && blank.index == 0
    ensures Remove(QueueAt(blank, requests, lo, k, 0, 0), lo) == Intact(QueueAt(blank, requests, lo + 1, k, 0, 0))
  {
    FindInQueue(blank, requests, lo, k, 0, 0, lo);
    assert Without(QueueAt(blank, requests, lo, k, 0, 0), 1) == QueueAt(blank, requests, lo + 1, k, 0, 0);
  }

  lemma FollowerApplies(n: nat, i: nat, c: nat, requests: seq<Request>, blank: Entry, r: Replica)
    requires 0 < i && c < |requests| && blank.index == 0
    requires r == FollowerAt(n, i, c, requests, blank).(lastLogIndex := c + 1, commitIndex := c,
                    queue := QueueAt(blank, requests, Less(c, 2, 1), c + 1, 0, 0))
    ensures ApplyEntries(r) == Done(FollowerAt(n, i, c + 1, requests, blank), [], [], [])
  {
    hide QueueAt, Find, Remove;
    if 0 < c {
      FindInQueue(blank, requests, Less(c, 2, 1), c + 1, 0, 0, c);
      assert requests[..c] == requests[..c - 1] + [requests[c - 1]];
      if 2 < c {
        QueueTrims(blank, requests, c - 2, c + 1);
      }
    }
  }

  // ----- the leader takes one request, then one response -----

  lemma LeaderAppends(n: nat, requests: seq<Request>, k: nat, blank: Entry)
    requires 0 < n && k + 1 == |requests|
    ensures AppendOwn(LeaderAt(n, k, n - 1, requests[..k], blank), requests[k])
         == LeaderAt(n, k + 1, 0, requests, blank)
  {
    hide QueueAt;
    var a, b := LeaderAt(n, k, n - 1, requests[..k], blank), LeaderAt(n, k + 1, 0, requests, blank);
    var lo, full := LeaderLow(n, k, n - 1), if n <= 1 then 0 else n;
    SameQueue(blank, requests, k, lo, full, full);
    QueueGrows(blank, requests, lo, k, full);
    assert requests[..k][..a.lastApplied] == requests[..b.lastApplied];
  }

  lemma SameQueue(blank: Entry, requests: seq<Request>, k: nat, lo: nat, full: nat, last: nat)
    requires k <= |requests| && 1 <= lo <= k + 1
    ensures QueueAt(blank, requests[..k], lo, k, full, last) == QueueAt(blank, requests, lo, k, full, last)
  {
  }

  lemma {:induction false} CountAcked(n: nat, k: nat, m: nat, j: nat)
    requires 0 < k && m < n && 0 < j <= n
    ensures CountUpTo(seq(n, i requires 0 <= i < n => Acked(i, k, m)), k, j) == if j - 1 <= m then j - 1 else m
  {
    if 1 < j {
      CountAcked(n, k, m, j - 1);
    }
  }

  /** Response number `m` commits the newest entry exactly when it is response number `Needed(n)` or later. */
  lemma CommitOnResponse(n: nat, k: nat, m: nat, before: nat)
    requires 0 < k && 0 < m < n && k - 1 <= before <= k
    ensures CommitIndex(seq(n, i requires 0 <= i < n => Acked(i, k, m)), before)
         == if Committed(n, m) then k else before
  {
    var a := seq(n, i requires 0 <= i < n => Acked(i, k, m));
    CountAcked(n, k, m, n);
    assert a[1] == k;
    CommitIndexMeaning(a, before);
  }

  /** The execution count of the first entry is never written; it must not happen to be the replica count. */
  predicate Safe(blank: Entry, n: nat, k: nat) {
    blank.execCount != n || k <= 1
  }

  lemma KeptAll(q: seq<Entry>, n: nat, commit: nat)
    requires forall j | 0 <= j < |q| :: !Removable(q[j], n, commit)
    ensures Kept(q, n, commit) == q
  {
    if q != [] {
      KeptAll(q[..|q| - 1], n, commit);
    }
  }

  lemma KeptDropsOne(q: seq<Entry>, n: nat, commit: nat, p: nat)
    requires p < |q| && forall j | 0 <= j < |q| :: Removable(q[j], n, commit) <==> j == p
    ensures Kept(q, n, commit) == Without(q, p)
  {
    if p == |q| - 1 {
      KeptAll(q[..p], n, commit);
    } else {
      KeptDropsOne(q[..|q| - 1], n, commit, p);
    }
  }

  /** Committing entry `k` trims the leader's queue to the newest two entries behind the first. */
  lemma LeaderTrims(n: nat, k: nat, requests: seq<Request>, blank: Entry, last: nat)
    requires 0 < k <= |requests| && blank.index == 0 && Safe(blank, n, k)
    ensures Cleanup(QueueAt(blank, requests, Less(k, 2, 1), k, n, last), n, k)
         == Intact(QueueAt(blank, requests, Less(k, 1, 1), k, n, last))
  {
    var q := QueueAt(blank, requests, Less(k, 2, 1), k, n, last);
    if 2 < k {
      KeptDropsOne(q, n, k, 1);
      assert Without(q, 1) == QueueAt(blank, requests, k - 1, k, n, last);
    } else {
      KeptAll(q, n, k);
    }
  }

  /** The leader with response `m` recorded, its commit index raised, and nothing applied yet. */
  function Recorded(n: nat, k: nat, m: nat, requests: seq<Request>, blank: Entry): Replica
    requires 0 < k <= |requests| && 0 < m < n
  {
    LeaderAt(n, k, m - 1, requests, blank).(
      commitIndex := LeaderCommit(n, k, m),
      queue := QueueAt(blank, requests, LeaderLow(n, k, m - 1), k, n, LastCount(n, m - 1) + 1),
      nextIndex := seq(n, i requires 0 <= i < n => NextAt(i, k, m)),
      matchIndex := seq(n, i requires 0 <= i < n => Acked(i, k, m)))
  }

  lemma IndicesRecorded(n: nat, k: nat, m: nat)
    requires 0 < k && 0 < m < n
    ensures seq(n, i requires 0 <= i < n => Acked(i, k, m - 1))[m := k]
         == seq(n, i requires 0 <= i < n => Acked(i, k, m))
    ensures seq(n, i requires 0 <= i < n => NextAt(i, k, m - 1))[m := k + 1]
         == seq(n, i requires 0 <= i < n => NextAt(i, k, m))
  {
  }

  lemma QueueRecorded(requests: seq<Request>, blank: Entry, lo: nat, k: nat, n: nat, last: nat)
    requires 1 <= lo <= k <= |requests| && blank.index == 0
    ensures var q := QueueAt(blank, requests, lo, k, n, last);
            && Find(q, k) == |q| - 1
            && q[|q| - 1 := q[|q| - 1].(execCount := q[|q| - 1].execCount + 1)]
               == QueueAt(blank, requests, lo, k, n, last + 1)
  {
    FindInQueue(blank, requests, lo, k, n, last, k);
  }

  lemma LeaderRecords(n: nat, k: nat, m: nat, requests: seq<Request>, blank: Entry, a: Ack)
    requires 0 < k <= |requests| && 0 < m < n && blank.index == 0
    requires a.lastIndex == k && a.from == m
    ensures var r := LeaderAt(n, k, m - 1, requests, blank);
            && Find(r.queue, k) == |r.queue| - 1
            && Acknowledge(r, a, |r.queue| - 1) == Recorded(n, k, m, requests, blank)
  {
    hide CommitIndex, QueueAt, Acked, NextAt;
    IndicesRecorded(n, k, m);
    QueueRecorded(requests, blank, LeaderLow(n, k, m - 1), k, n, LastCount(n, m - 1));
    CommitOnResponse(n, k, m, LeaderCommit(n, k, m - 1));
  }

  lemma LeaderApplies(n: nat, k: nat, m: nat, requests: seq<Request>, blank: Entry)
    requires 0 < k <= |requests| && 0 < m < n && blank.index == 0
    requires m == Needed(n) ==> Safe(blank, n, k)
    ensures ApplyEntries(Recorded(n, k, m, requests, blank))
         == Done(LeaderAt(n, k, m, requests, blank), if m == Needed(n) then [requests[k - 1]] else [], [], [])
  {
    hide Cleanup, QueueAt, Acked, NextAt, ApplyNext, Find;
    if m == Needed(n) {
      LeaderAppliesOne(n, k, m, requests, blank);
      var done := LeaderAt(n, k, m, requests, blank);
      assert ApplyEntries(done) == Done(done, [], [], []);
    }
  }

  lemma LeaderAppliesOne(n: nat, k: nat, m: nat, requests: seq<Request>, blank: Entry)
    requires 0 < k <= |requests| && 0 < m < n && blank.index == 0 && m == Needed(n) && Safe(blank, n, k)
    ensures ApplyNext(Recorded(n, k, m, requests, blank))
         == Applied(LeaderAt(n, k, m, requests, blank), [requests[k - 1]])
  {
    hide Cleanup, QueueAt, Acked, NextAt, Find;
    QueueRecorded(requests, blank, Less(k, 2, 1), k, n, m);
    LeaderTrims(n, k, requests, blank, m + 1);
    assert requests[..k] == requests[..k - 1] + [requests[k - 1]];
  }

  lemma LeaderAnswered(n: nat, k: nat, m: nat, requests: seq<Request>, blank: Entry, client: nat)
    requires 0 < k <= |requests| && 0 < m < n && blank.index == 0
    requires m == Needed(n) ==> Safe(blank, n, k)
    ensures HandleAppendResponse(LeaderAt(n, k, m - 1, requests, blank), Ack(1, k, m, true, client))
         == Done(LeaderAt(n, k, m, requests, blank), if m == Needed(n) then [requests[k - 1]] else [], [], [])
  {
    hide ApplyEntries, Acknowledge, QueueAt;
    LeaderRecords(n, k, m, requests, blank, Ack(1, k, m, true, client));
    LeaderApplies(n, k, m, requests, blank);
  }

  /** The response that would commit entry 2 or later trims the first entry if the count is unlucky. */
  lemma LeaderFaults(n: nat, k: nat, m: nat, requests: seq<Request>, blank: Entry, client: nat)
    requires 0 < k <= |requests| && 0 < m < n && m == Needed(n) && blank.index == 0 && !Safe(blank, n, k)
    ensures HandleAppendResponse(LeaderAt(n, k, m - 1, requests, blank), Ack(1, k, m, true, client))
         == Fault(UnsetLink)
  {
    hide Acknowledge, QueueAt, Acked, NextAt, Kept;
    LeaderRecords(n, k, m, requests, blank, Ack(1, k, m, true, client));
    QueueRecorded(requests, blank, Less(k, 2, 1), k, n, m);
    assert Removable(QueueAt(blank, requests, Less(k, 2, 1), k, n, m + 1)[0], n, k);
  }
}
