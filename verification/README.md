# Message passing and agreement between cores: a verified model

The repository moves messages between the cores of one machine and builds agreement on top of them. This
project models its concurrent protocols as state machines, one access to shared memory or one message per
step, so that every interleaving is a run, and proves what holds in every run. Beside each machine stand the
functions of the program as methods on arrays, lists and fields; their contracts tie each call to steps of the
machine, so what is proved of runs is proved of calls.

| part | files | in the repository |
|---|---|---|
| UMP channel: two rings, 16-bit indices, epoch bits, sleep and wake | `RingArith`, `UmpWords`, `UmpChannel`, `UmpInvariant`, `UmpTheorems`, `UmpWakeups`, `UmpEndpoint` | `test/shm_queue/umpq/ump_chan.c`, `ump_txchan.h`, `ump_rxchan.h`, `ump_os.h`, `ump_conf.c` |
| UMP queue: one-way use with forced acknowledgements | `UmpOneWay*`, `UmpQueueCode` | `test/shm_queue/umpq/ump_queue.c` |
| broadcast ring with sequence numbers | `SequenceRing*` | `test/shm_queue/shm_queue4.c` |
| broadcast ring with reader bits | `ReaderBits`, `MaskRing*` | `test/shm_queue/shm_queue3.c` |
| broadcast ring with laps | `LapRing*` | `test/shm_queue/shm_queue.c` |
| replicated log | `Raft*` | `raft_replica.c` |
| two-phase commit among replicas | `TpcReplica*` | `tpc_replica.c` |
| 1Paxos, steady state | `OnePaxos*` | `one_replica.c` |
| barrier: a sum up a tree, a broadcast down | `Trees`, `TreeBarrier*` | `exp_barrier.c`, `exp_reduction.c`, `exp_ab.c` |
| two-phase commit over a tree | `TreeCommit*` | `exp_2pc.c`, `doublylinkedlist.h` |
| lists of integers and ranges as text | `RangeSyntax`, `RangeMeaning`, `RangeParser` | `test/shm_queue/umpq/parse_int.c` |

`Wrappers` holds what several parts share. `dafny verify dfyconfig.toml` checks everything.

## How to read it

A file `X.dfy` without suffix holds the machine (`Enabled`, `Apply`, `Init`, `Run`), `XSafety` or `XInvariant`
the invariant and the theorems, `XProgress` what the machine comes to, `XCode` the methods. Histories of what
was sent, received, executed or voted are unbounded sequences kept in the state; no step looks at them. A
theorem is a lemma over an arbitrary run `t` and an arbitrary index `i` into it. `RaftHandlers` is about single
calls in states the runs never reach.

Where the code does not meet what its comments or names promise, the exact condition under which it does is
proved, both ways:

- The channel accepts buffers of 1 to 65535 slots (`UmpTheorems.AcceptedSizes`); with 65535 the 16-bit send test
  never refuses, and unread messages are overwritten. 1 to 65534 are safe (`UmpTheorems.TightBound`).
- The forced acknowledgement of the queue can fail its assert for exactly one pair of ring sizes, two data
  slots and one slot for acknowledgements (`UmpOneWay.ForcedAckCondition`).
- The search for the slowest reader loads each position twice, and the second load can overshoot. The ring is
  safe, in that no unread message is overwritten and every reader receives the messages in order, exactly if
  positions are loaded once, or there are no readers, or at most 32 slots, or one reader and 33 slots
  (`SequenceRingLimits.SafetyCondition`). With one reader and more slots it fails only after 2^32 messages, when
  positions pass the value the search starts with (`SequenceRingLimits.OneReaderOverwrites`). Positions are
  published every sixteen messages, so with 2 to 17 slots the writer stops for good
  (`SequenceRingProgress.ProgressCondition`). Of the reader counts the queue can be set up with, 30 to 44 work.
- A committed log entry is on a strict majority of replicas exactly for odd numbers of replicas, and for two:
  the leader's own entry never counts, and the threshold rounds down (`RaftLimits.MajorityCondition`).
- Neither the execution count nor the `prev` link of the log's first entry is ever initialised. Trimming removes
  that entry exactly if the garbage in its count equals the number of replicas; then the garbage in its link is
  written through or, if it is null, the queue's head stays at the freed entry (`RaftLimits.FaultCondition`).
- An entry sent again to a follower that lags carries the client of the entry acknowledged before it: it is the
  entry of the log exactly if both are of one client (`RaftHandlers.ResendFits`). Runs without rejections never
  send an entry again.
- The leader of 1Paxos queues the address of its one receive buffer for every open request. The queue has the
  right length, but an entry holds its request exactly while the message received last carries that request
  (`OnePaxosSafety.EntryContents`), which without repeated requests is the newest request until anything else
  is received (`OnePaxosSafety.OnlyNewestIsHeld`).
- A core of the tree two-phase commit that refuses a version still gets its commit. The asserts of the handler
  hold in all runs exactly if the versions the cores start with do not increase away from the requester; the
  program starts them all at 0, which meets this (`TreeCommitProgress.AssertCondition`).
- Parsing a printed list gives its expansion exactly if no range counts up to the largest int and there are at
  most 2^30 - 32 numbers: the size in bytes of the next 32 is cut to a 32-bit 0 (`RangeSyntax.RoundTrip`). The
  lists `2147483647-2147483647` and `0-1073741823` fail.

Two asserts on the wake word in `ump_chan.c` (lines 130 and 240) compare before they choose, because of
operator precedence, and so hold for every value; the property they mean is `UmpTheorems.WakeWordDiscipline`.

## Model

| member | source | states |
|---|---|---|
| UmpWords.PackRoundTrip | test/shm_queue/umpq/ump_common.h:42-60 | tag, index and epoch packed by the sender are what the receiver unpacks, and the word fits 32 bits |
| UmpWords.CanSendIsExact | test/shm_queue/umpq/ump_chan.h:77-81 | the send test on wrapped 16-bit indices decides exactly whether fewer than `bufmsgs` messages are unacknowledged, for every size up to 65534 |
| UmpWords.CanSendAlwaysAtFullRange | test/shm_queue/umpq/ump_chan.h:77-81 | with 65535 slots the test grants every send |
| RingArith.PosIsModulo | test/shm_queue/umpq/ump_txchan.h:78-82 | stepping a position and flipping the epoch at the end of the ring gives the message number modulo the size and the parity of its lap |
| UmpInvariant.CanReceiveIsExact | test/shm_queue/umpq/ump_rxchan.h:32-37 | the one-bit epoch comparison tells exactly whether an unclaimed message is in the ring |
| UmpInvariant.RunKeeps | test/shm_queue/umpq/ump_chan.c:71-242 | the joint invariant over both endpoints, both rings, the wake word and both wakeup flags holds in every state of every run |
| UmpTheorems.FifoDelivery | test/shm_queue/umpq/ump_chan.c:113-198 | in every interleaving each side has received exactly a prefix of what the other submitted, payloads and tags, acknowledgements apart |
| UmpTheorems.PollFindsExactlyUnread | test/shm_queue/umpq/ump_chan.h:103-107 | polling finds something exactly when a submitted message has not been claimed |
| UmpTheorems.LooksAreExact | test/shm_queue/umpq/ump_chan.c:209-231 | in every run an endpoint goes for the wake word only with nothing unread, and falls asleep, instead of backing out, exactly if there is still nothing then |
| UmpTheorems.SendTestIsExact | test/shm_queue/umpq/ump_chan.h:77-81 | in every run the test is the count of unacknowledged messages, and no more than the ring holds are ever unreceived |
| UmpTheorems.PayloadStable | test/shm_queue/umpq/ump_chan.c:171-175 | from a receive until the receiver's next submit the peer never writes that payload, not even in an unfinished send |
| UmpTheorems.NeverBothWaiting | test/shm_queue/umpq/ump_chan.c:209-242 | the endpoints never wait together, and the wake word is running exactly when neither does |
| UmpTheorems.WakeWordDiscipline | test/shm_queue/umpq/ump_chan.c:126-132 | a sender finds the wake word running or at its peer's wait value; only the endpoint it names puts it back |
| UmpTheorems.NoLostWakeup | test/shm_queue/umpq/ump_os.h:103-122 | an endpoint asleep with an unread message has its flag set or a peer about to set it |
| UmpWakeups.ReturnsAreNotified | test/shm_queue/umpq/ump_os.h:103-122 | in any stretch of any run an endpoint returns from sleep at most as often as it is notified, one notification remembered from before apart |
| UmpWakeups.EachReturnIsNotified | test/shm_queue/umpq/ump_os.h:103-122 | between two returns from sleep lies a notification |
| UmpWakeups.NoticeIsKept | test/shm_queue/umpq/ump_os.h:103-122 | a notification is remembered until a return from sleep uses it |
| UmpWakeups.NotifiesWaiters | test/shm_queue/umpq/ump_chan.c:126-132 | a sender that has submitted goes on to notify if and only if its peer holds the wake word |
| UmpTheorems.AcceptedSizes | test/shm_queue/umpq/ump_txchan.c:30-38 | initialisation accepts exactly the aligned buffers of 1 to 65535 messages of 64 bytes |
| UmpTheorems.TightBound | test/shm_queue/umpq/ump_txchan.c:30-44 | of the pairs of buffers initialisation accepts, polling is exact on both sides in every run if and only if neither has 65535 slots |
| UmpTheorems.Overrun | test/shm_queue/umpq/ump_txchan.c:30-44 | a run with 65535 slots in which 65536 messages are sent unread and the receiver sees none |
| UmpEndpoint.Endpoint.Init | test/shm_queue/umpq/ump_chan.c:71-111 | it accepts exactly two aligned buffers of 1 to 65535 whole messages, and then clears the sending ring's control words; refused for the first buffer it changes nothing, refused for the second it has already cleared the first |
| UmpEndpoint.OpenPair | test/shm_queue/umpq/ump_conf.c:36-103 | setting up both ends succeeds exactly if both buffers are accepted, and then they show an initial state of the machine |
| UmpEndpoint.Endpoint.WriteWord | test/shm_queue/umpq/ump_queue.c:112-121 | filling a slot word by word changes only that word of the prepared slot |
| UmpEndpoint.Endpoint.Submit | test/shm_queue/umpq/ump_chan.c:113-133 | the call is the machine's submit, look at the wake word and notification of a waiting peer |
| UmpEndpoint.Endpoint.Receive | test/shm_queue/umpq/ump_chan.c:176-198 | it returns the slot and tag of the next message, or nothing for none and for a bare acknowledgement |
| UmpEndpoint.Endpoint.SendAck | test/shm_queue/umpq/ump_chan.c:152-161 | an acknowledgement is sent exactly when the send test grants a slot, and otherwise nothing changes |
| UmpEndpoint.Endpoint.TryWait | test/shm_queue/umpq/ump_chan.c:209-231 | waiting succeeds exactly if both looks find nothing and the peer does not wait; a failed try leaves the wake word as it was |
| UmpEndpoint.Endpoint.Wakeup | test/shm_queue/umpq/ump_chan.c:238-242 | the woken endpoint clears its remembered wakeup, finds its own wait value in the wake word and puts it back to running |
| UmpEndpoint.AfterSubmitKeeps | test/shm_queue/umpq/ump_chan.c:113-133 | a whole submit call keeps the joint invariant |
| UmpOneWay.QueueAssertsHold | test/shm_queue/umpq/ump_queue.c:59-66 | in every producer and consumer run "just an ack" and "should now have space" hold, and the forced acknowledgement succeeds, unless the rings have two and one slots |
| UmpOneWay.ForcedAckCondition | test/shm_queue/umpq/ump_queue.c:226-229 | the assert on the forced acknowledgement holds in all runs if and only if the ring sizes are not two and one |
| UmpOneWay.StuckAck | test/shm_queue/umpq/ump_queue.c:226-229 | the run with two data slots and one acknowledgement slot in which it fails |
| UmpOneWayProgress.NeverDeadlocks | test/shm_queue/umpq/ump_queue.c:171-209 | a blocked producer and an idle consumer never wait on each other: one of them always has a step that gets a message out or lowers the work left before that |
| UmpOneWayProgress.AlwaysSubmitsAgain | test/shm_queue/umpq/ump_queue.c:171-209 | from every state of every run the producer can get its next message out |
| UmpOneWay.NeedsAckIsExact | test/shm_queue/umpq/ump_chan.h:122-129 | the wrapped test for a forced acknowledgement counts exactly the unacknowledged messages |
| UmpQueueCode.CanEnqueue | test/shm_queue/umpq/ump_queue.c:50-69 | true exactly if a slot is free or an acknowledgement is unread, and then a slot is free; the asserts in its loop hold |
| UmpQueueCode.FillPayload | test/shm_queue/umpq/ump_queue.c:112-121 | the seven words end up in the prepared slot and nothing else changes |
| UmpQueueCode.EnqueueNonblock | test/shm_queue/umpq/ump_queue.c:99-130 | it succeeds exactly when it can and appends exactly that message with tag 0 |
| UmpQueueCode.DequeueNonblock | test/shm_queue/umpq/ump_queue.c:240-266 | it returns a message exactly if one is unread, the next one sent, and its forced acknowledgement never fails |
| SequenceRingSafety.RunKeeps | test/shm_queue/shm_queue4.c:74-199 | ring, writer, readers, published positions and a search in progress keep their joint invariant in every run of a safe ring, and with one reader in every run up to 2^32 - 1 messages |
| SequenceRingSafety.DeliversInOrder | test/shm_queue/shm_queue4.c:154-199 | in those runs every reader has received exactly a prefix of what was sent and expects the next number |
| SequenceRingSafety.NeverOverwrites | test/shm_queue/shm_queue4.c:98-138 | and the writer never stores into a slot whose message some reader has not consumed |
| SequenceRingLimits.RaceOverwrites | test/shm_queue/shm_queue4.c:77-82 | with two readers or more and 33 slots or more, a run in which the second load of a position lets the writer overwrite an unread message, and one in which the reader receives the wrong message |
| SequenceRingLimits.OneReaderOverwrites | test/shm_queue/shm_queue4.c:74-111 | with one reader and 34 slots or more, the same once 2^32 messages have been sent: the sync point passes the start of the search, and the writer never looks for the reader again |
| SequenceRingLimits.SafetyCondition | test/shm_queue/shm_queue4.c:74-111 | no run overwrites an unread message, and no run delivers out of order, if and only if positions are loaded once, or there are no readers, or at most 32 slots, or one reader and at most 33 |
| SequenceRingLimits.SafeReaderCounts | test/shm_queue/shm_queue4.c:59-67 | with the slots the queue allots, that is no reader or at least thirty |
| SequenceRingProgress.ReleasedOnceDrained | test/shm_queue/shm_queue4.c:105-111 | with 18 slots or more and fewer than 2^32 messages, a writer at its sync point is released by its own search once the readers have drained the ring |
| SequenceRingProgress.BlockedForever | test/shm_queue/shm_queue4.c:193-195 | with 2 to 17 slots the writer never gets past a fixed number of messages in any run |
| SequenceRingProgress.CapStopsWriter | test/shm_queue/shm_queue4.c:77-84 | where the ring is safe, the 32-bit start value of the search stops the writer after 2^32 + n - 3 messages |
| SequenceRingProgress.ProgressCondition | test/shm_queue/shm_queue4.c:98-138 | in a safe ring every run with fewer than 2^32 - 1 messages can go on to send one more if and only if there are 18 slots or no readers |
| SequenceRingProgress.UsableReaderCounts | test/shm_queue/shm_queue4.c:59-67 | of 1 to 60 readers, no overwriting, delivery in order and the possibility of going on hold together exactly for 30 to 44 |
| SequenceRingCode.Queue.GetNextSync | test/shm_queue/shm_queue4.c:74-85 | one pass finds the smallest position, or the start value if that is smaller |
| SequenceRingCode.Queue.TrySend | test/shm_queue/shm_queue4.c:87-138 | it gives up exactly where the code would spin, and otherwise puts the words in the next slot under the next number |
| SequenceRingCode.Queue.StoreMessage | test/shm_queue/shm_queue4.c:118-137 | payload words first, then the number; no other slot changes |
| SequenceRingCode.Queue.ReceiveNonBlocking | test/shm_queue/shm_queue4.c:154-199 | it returns a message exactly if one is unread, and then the next one sent |
| ReaderBits.WriterMask | test/shm_queue/shm_queue3.c:65-68 | the set-up loop gives a mask with exactly the bits of the readers, for 1 to 64 of them |
| ReaderBits.XorTurnsOne | test/shm_queue/shm_queue3.c:163 | exclusive-or with a reader's mask turns that bit and no other |
| MaskRingSafety.RunKeeps | test/shm_queue/shm_queue3.c:72-181 | headers, payloads, writer and every reader's swap loop keep their joint invariant in every run |
| MaskRingSafety.DeliversInOrder | test/shm_queue/shm_queue3.c:131-181 | each reader gets every message once and in order, and its bit in its slot is set exactly while a message waits there |
| MaskRingSafety.HeaderIsExact | test/shm_queue/shm_queue3.c:88-111 | a header holds exactly the readers that have not consumed the slot's message |
| MaskRingSafety.NeverOverwrites | test/shm_queue/shm_queue3.c:88-97 | while the writer stores, every reader has consumed what the slot held |
| MaskRingSafety.SwapClearsOnlyOwnBit | test/shm_queue/shm_queue3.c:161-169 | a successful swap clears the reader's own bit and keeps all others, although the header was loaded twice |
| MaskRingSafety.FreeOnceDrained | test/shm_queue/shm_queue3.c:88-89 | the writer's slot is free once all readers have drained the ring |
| MaskRingCode.Queue.TrySend | test/shm_queue/shm_queue3.c:72-113 | it gives up exactly on an occupied slot, and otherwise fills it and gives it to all readers |
| MaskRingCode.Queue.CopyWords | test/shm_queue/shm_queue3.c:145-152 | the words copied are the slot's payload |
| MaskRingCode.Queue.ClearBit | test/shm_queue/shm_queue3.c:158-179 | the swap turns only the own bit of that slot and the position moves on |
| MaskRingCode.Queue.ReceiveNonBlocking | test/shm_queue/shm_queue3.c:131-181 | it returns a message exactly if one is unread, the next one sent, and changes no header bit but its own |
| LapRingSafety.RunKeeps | test/shm_queue/shm_queue.c:86-206 | the lap invariant over writer, slots, reports and readers holds in every run |
| LapRingSafety.DeliversInOrder | test/shm_queue/shm_queue.c:153-206 | every reader has received exactly a prefix of what was sent, over any number of laps |
| LapRingSafety.NeverOverwrites | test/shm_queue/shm_queue.c:115-138 | while the writer stores, every reader has received all earlier laps, and none reads that slot |
| LapRingSafety.RewindsAfterAll | test/shm_queue/shm_queue.c:97-112 | the writer rewinds only when every reader has received everything sent |
| LapRingSafety.ComparesExactly | test/shm_queue/shm_queue.c:178-180 | a released reader never compares with a stale position: equal exactly if it has received everything |
| LapRingSafety.WaitsOnlyWhenDrained | test/shm_queue/shm_queue.c:164-176 | the receive call named non-blocking waits only at the end of a lap with nothing left to receive |
| LapRingSafety.ReleasedOnceReported | test/shm_queue/shm_queue.c:97-112 | once all readers have reported the end of the lap, each writer step brings the send closer to its end |
| LapRingSafety.ReportsWhenDrained | test/shm_queue/shm_queue.c:164-176 | a reader that still owes its report has a message to read, or reports with its next call |
| LapRingSafety.ReportedOnceCalled | test/shm_queue/shm_queue.c:97-98 | all have reported the end of a lap as soon as every reader has received it all and called once more |
| LapRingCode.Memory.CheckReadersEnd | test/shm_queue/shm_queue.c:72-84 | true exactly if every reader has reported the end |
| LapRingCode.Memory.StartLap | test/shm_queue/shm_queue.c:106-112 | the position is back at 0, every reader is released and no slot is touched |
| LapRingCode.Memory.StoreMessage | test/shm_queue/shm_queue.c:115-139 | the words fill the slot at the write position, and then the position moves |
| LapRingCode.Memory.TrySend | test/shm_queue/shm_queue.c:86-139 | it gives up exactly at the end of a lap not reported by all, and otherwise puts the message in the next slot |
| LapRingCode.Reader.ReceiveNonBlocking | test/shm_queue/shm_queue.c:153-206 | at the end of a lap it reports the end, rewinds and must wait; waiting, it goes on exactly if released; otherwise it finds a message exactly if one is unread, the next one sent |
| LapRingCode.Reader.CopyWords | test/shm_queue/shm_queue.c:183-191 | the words copied are the next message sent |
| LapRingCode.EndLap | test/shm_queue/shm_queue.c:164-176 | once every reader has drained the lap and called once more, the next send does not spin |
| RaftCommit.UpdateCommitIndex | raft_replica.c:419-443 | the nested loops leave the largest of the old index and the match indices that enough replicas have reached |
| RaftCommit.CommitIndexUnique | raft_replica.c:415-418 | that index is unique |
| RaftCommit.QuorumthLargest | raft_replica.c:424-441 | with three replicas or more, no index above it has the support of (n-1)/2 followers, and a raised one has |
| RaftReplica.ConflictAlwaysFaults | raft_replica.c:584-590 | deleting a conflicting suffix of a gapless log always follows the null link behind the last entry, or uses the unset one before the first; the runs never take this branch |
| RaftQueue.LogQueue.Enqueue | raft_replica.c:210-225 | the entry joins the end, with all links in place but the one back from the first entry |
| RaftQueue.LogQueue.QueueContains | raft_replica.c:248-259 | the walk finds the first entry with the index |
| RaftQueue.LogQueue.RemoveEntry | raft_replica.c:227-246 | the entry is unlinked if it has both neighbours; the first entry's unset link and the last one's null link are followed |
| RaftQueue.LogQueue.Cleanup | raft_replica.c:445-468 | the walk frees exactly the entries acknowledged by all and old enough; for the first it uses the unset link, and freeing the last leaves the tail at a freed entry |
| RaftReplicaCode.RaftNode.ApplyNext | raft_replica.c:382-411 | one committed entry is executed, answered and trimmed as the specification says |
| RaftReplicaCode.RaftNode.UpdateAppliedEntries | raft_replica.c:378-412 | the loop applies every committed entry once, in order |
| RaftReplicaCode.RaftNode.BeginRequest | raft_replica.c:477-500 | the leader appends to its own log and builds the message every follower is sent |
| RaftReplicaCode.RaftNode.HandleAppend | raft_replica.c:537-621 | new state, responses and harm of the handler are those of the specification |
| RaftReplicaCode.RaftNode.HandleAppendResponse | raft_replica.c:790-864 | the same for the leader's handler, with the resend and the two asserts |
| RaftInvariant.FollowerTakes | raft_replica.c:592-621 | handling entry c+1 takes a follower from its exact state with c entries to the one with c+1, accepted, trimmed, with everything before it executed |
| RaftInvariant.LeaderAnswered | raft_replica.c:805-864 | handling response m takes the leader to its exact next state, and replies exactly at the response that commits |
| RaftInvariant.CommitOnResponse | raft_replica.c:419-443 | the newest entry commits at response max(1, (n-1)/2) and not before |
| RaftInvariant.LeaderTrims | raft_replica.c:445-468 | committing entry k trims the leader's queue to the newest two entries behind the first |
| RaftSafety.StepKeeps | raft_replica.c:473-864 | the exact-state invariant over all replicas and channels is kept by every step |
| RaftTheorems.NothingRejected | raft_replica.c:554-581 | unless the first count is unlucky, in every run no handler goes wrong, no append is rejected, and channels are empty between requests |
| RaftTheorems.LogMatching | raft_replica.c:389-409 | every replica's queue is a gapless window of the leader's order that still holds all it will look up, at most four entries with two replicas or more |
| RaftTheorems.ExecutionOrder | raft_replica.c:378-412 | every replica executes a prefix of the request order, each entry once; no follower is ahead of the leader or more than two behind |
| RaftTheorems.Replies | raft_replica.c:393-399 | one reply per request, in order, and none outstanding between requests; each carries what the receive buffer holds, the response that committed that very request; a single replica never replies |
| RaftHandlers.CatchesUp | raft_replica.c:378-412 | in any state, applying catches up with the commit index, executes each entry once, and answers it if and only if the replica leads |
| RaftHandlers.AnswersAppend | raft_replica.c:537-621 | in any state, a follower adopts newer terms, accepts exactly if the term is not older and it has the entry before, and takes over the commit index up to the entry taken; a rejection leaves its log alone |
| RaftHandlers.OwnAppend | raft_replica.c:617-620 | a replica that gets an entry of its own only catches up |
| RaftHandlers.AnswersResponse | raft_replica.c:790-864 | in any state, a success is recorded and the commit rule applied; the entry behind the one acknowledged is sent again exactly if there is one; a stale rejection changes nothing but the term |
| RaftHandlers.RejectionsAssert | raft_replica.c:836-847 | a rejection fails the assert on the null entry if and only if it is not stale |
| RaftHandlers.ResendFits | raft_replica.c:814-835 | an entry sent again is the next of the log if and only if its client is that of the entry acknowledged |
| RaftTheorems.NeverStuck | raft_replica.c:505-517 | while a request is handled, the leader can go on or the follower it waits for can |
| RaftTheorems.CommittedIsHeld | raft_replica.c:803-811 | a committed entry is on at least 1 + max(1, (n-1)/2) replicas in every later state |
| RaftLimits.HoldersAreTight | raft_replica.c:803-811 | a run in which an entry is committed and answered with exactly that many holders |
| RaftLimits.MajorityCondition | raft_replica.c:415-443 | committed entries are on a strict majority in all runs if and only if n is odd or two |
| RaftLimits.UnluckyFaults | raft_replica.c:445-468 | with the uninitialised count equal to the number of replicas, a run in which trimming the log uses the unset link of its first entry |
| RaftLimits.FaultCondition | raft_replica.c:973-979 | no handler of any run goes wrong if and only if the count does not equal it |
| TpcReplicaSafety.StepKeeps | tpc_replica.c:381-541 | prepares, answers, counters, decisions and executed lists keep their joint invariant in every step |
| TpcReplicaSafety.Agreement | tpc_replica.c:476-514 | all replicas execute prefixes of the one sequence of decisions, and the index counts them |
| TpcReplicaSafety.OneCommitEach | tpc_replica.c:474-514 | exactly one commit and one reply per request, in each client's order; only its newest request can lack them; each reply is tagged as a response and carries the place of its request among all decisions, increasing for each client |
| TpcReplicaSafety.DecidedByAll | tpc_replica.c:474-478 | a decision is made only on an answer for that very request after all other followers have answered for it |
| TpcReplicaSafety.DecidesAtLastAnswer | tpc_replica.c:474-478 | and it is made exactly at the last answer |
| TpcReplicaSafety.NeverStuck | tpc_replica.c:282-332 | with two replicas or more, a waiting client always leaves some replica a step to take |
| TpcReplicaProgress.StepWorks | tpc_replica.c:381-541 | every step but a new request lowers the work left |
| TpcReplicaProgress.SettlesRequests | tpc_replica.c:282-332 | with two replicas or more, whatever steps are taken other than new requests, they end with every request answered and the same list executed by all |
| TpcReplicaSafety.AloneNeverReplies | tpc_replica.c:476-478 | a single replica never commits or replies |
| TpcReplicaCode.Leader.HandleRequest | tpc_replica.c:393-409 | the client's counter restarts, and the prepare is appended to every follower's channel |
| TpcReplicaCode.Leader.HandleReady | tpc_replica.c:468-521 | it decides exactly at the last answer; then every follower is sent the commit with the new index, the client the response, and the request is executed; otherwise only the counter moves |
| TpcReplicaCode.Leader.SendCommits | tpc_replica.c:482-516 | each follower's channel grows by the commit, the client's by the response, with the same index |
| TpcReplicaCode.Follower.Handle | tpc_replica.c:418-541 | the call is the machine's step: a prepare is about an open undecided request and answered at once, a commit is for the next decision of the leader, and nothing else arrives |
| OnePaxosSafety.AfterMeaning | one_replica.c:1210-1224 | a replica that handled a stream has executed exactly the requests newer than all earlier ones of their client, and remembers each client's largest id |
| OnePaxosSafety.RecordsIncrease | one_replica.c:1210-1224 | the ids of those requests strictly increase for each client |
| OnePaxosSafety.ExecutesRecords | one_replica.c:800-829 | in every run each replica's index counts its learns and its executed list is that of the requests learned |
| OnePaxosSafety.Agreement | one_replica.c:723-772 | of any two replicas one has executed a prefix of what the other has |
| OnePaxosSafety.ExecutedIdsIncrease | one_replica.c:1210-1224 | at most once: executed ids of a client strictly increase at every replica, whatever clients repeat |
| OnePaxosSafety.LeaderKeepsOpenRequests | one_replica.c:830-858 | the leader's queue has an entry for every request not yet learned and at most one more, and each executed request is answered once, in order, with a message tagged as a response |
| OnePaxosSafety.EntryContents | one_replica.c:627-631 | the entry of an open request holds it if and only if the message received last carried that very request |
| OnePaxosSafety.OnlyNewestIsHeld | one_replica.c:404-438 | without repeated requests, that is the newest request alone, until anything is received |
| OnePaxosSafety.FirstEntryIsLost | one_replica.c:627-631 | two requests in a row, after which both entries hold the second |
| OnePaxosSafety.AcceptorLeads | one_replica.c:739-772 | what a replica has learned and what is on its way to it add up to what the acceptor has sent it |
| OnePaxosSafety.NewIsRecord | one_replica.c:1210-1224 | a replica finds the next request it learns new if and only if its id is larger than all earlier ones of its client |
| OnePaxosProgress.StepWorks | one_replica.c:723-858 | every step but a new request lowers the work left |
| OnePaxosProgress.SettlesRequests | one_replica.c:723-858 | whatever steps are taken other than new requests, they end with the same list executed by all and answered |
| OnePaxosCode.Node.ExecuteRequest | one_replica.c:1210-1224 | a request runs exactly if it is neither a repeat nor stale |
| OnePaxosCode.Node.HandleLearn | one_replica.c:816-828 | the index follows the message, whatever it was |
| OnePaxosCode.Node.HandleRequest | one_replica.c:627-637 | the address of the receive buffer is queued, its request proposed, its tag overwritten, and the invariant kept |
| OnePaxosCode.Node.LeaderLearns | one_replica.c:800-858 | it replies exactly to a request newer than all earlier ones of its client, with the message re-tagged as a response; without a reply the tag stays; its queue then has an entry for each open request and one for the one just learned |
| TreeBarrier.ChildSumsAdd | test/shm_queue/umpq/exp_reduction.c:66-72 | hearing one more child adds exactly that child's subtree to the sum |
| TreeBarrierSafety.StepKeeps | test/shm_queue/umpq/exp_reduction.c:30-116 | per-core and per-edge counts, channel contents and partial sums keep their invariant in every step |
| TreeBarrierSafety.RootSumIsIdSum | test/shm_queue/umpq/exp_reduction.c:92-100 | on every tree the root's subtree sum is the sum of all ids |
| TreeBarrierSafety.BarrierSafety | test/shm_queue/umpq/exp_barrier.c:22-26 | no core returns from its k-th barrier before every core has entered its k-th |
| TreeBarrierSafety.RootSums | test/shm_queue/umpq/exp_reduction.c:92-100 | the root obtains the sum of all ids once per round |
| TreeBarrierSafety.OneMessageEach | test/shm_queue/umpq/exp_reduction.c:54-90 | an edge never carries more than one message either way, and a parent consumes one per child and round |
| TreeBarrierSafety.NeverStuck | test/shm_queue/umpq/exp_barrier.c:22-26 | once every core has entered a barrier, some core can move until all have returned from it |
| TreeBarrierProgress.ActorAdvances | test/shm_queue/umpq/exp_reduction.c:30-116 | every step inside the barrier brings its core closer to returning, and changes no other core |
| TreeBarrierProgress.EndsBarrier | test/shm_queue/umpq/exp_barrier.c:22-26 | whatever steps are taken once all cores have entered, they end with all cores returned |
| TreeBarrierCode.CollectSum | test/shm_queue/umpq/exp_reduction.c:46-92 | whenever the children's messages arrive, the polling loop takes each exactly once and ends with their sum and the own id |
| TreeBarrierCode.Sender.Send | test/shm_queue/umpq/exp_ab.c:55-74 | the call is the machine's step of sending the broadcast on to one more child, and keeps its invariant |
| TreeBarrierCode.Sender.SendChildren | test/shm_queue/umpq/exp_ab.c:110-123 | every child's channel gets the payload once, after all it was sent before, and then the core can return |
| TreeCommitSafety.StepKeeps | test/shm_queue/umpq/exp_2pc.c:91-272 | open requests, votes, versions and channel contents keep their invariant in every step that fails no assert |
| TreeCommitSafety.CommitAfterVote | test/shm_queue/umpq/exp_2pc.c:191-193 | a commit reaches a core only after the core has voted on that version |
| TreeCommitSafety.HearsReply | test/shm_queue/umpq/exp_2pc.c:166-189 | an inner core answers exactly when the last child has, with the conjunction of their votes and its own |
| TreeCommitTheorems.DecidesAfterAllVotes | test/shm_queue/umpq/exp_2pc.c:183-186 | the requester decides on a version only after every other core has voted on it |
| TreeCommitTheorems.DecisionIsConjunction | test/shm_queue/umpq/exp_2pc.c:176-189 | its decision is the conjunction of all other cores' votes, and yes exactly if all of them started with older versions |
| TreeCommitTheorems.DrainedIsClean | test/shm_queue/umpq/exp_2pc.c:203-212 | after a round's commits have drained no core has an open request and all have committed every version |
| TreeCommitTheorems.ChannelBounds | test/shm_queue/umpq/exp_2pc.c:63-84 | an edge carries at most two messages down and one up |
| TreeCommitProgress.NeverStuck | test/shm_queue/umpq/exp_2pc.c:221-253 | unless the network has drained between rounds, some core can take a step |
| TreeCommitProgress.ActorAdvances | test/shm_queue/umpq/exp_2pc.c:149-219 | every step other than the start of a round brings its core closer to the round's end, and changes no other core |
| TreeCommitProgress.EndsRound | test/shm_queue/umpq/exp_2pc.c:221-253 | from every reachable state the round can be run to its end |
| TreeCommitProgress.AssertCondition | test/shm_queue/umpq/exp_2pc.c:193-202 | no assert fails in any run if and only if, away from the requester, no core starts with an older version than a core below it |
| TreeCommitCode.List.AddNode | test/shm_queue/umpq/doublylinkedlist.h:91-100 | the list grows by the request at its end, all links in place |
| TreeCommitCode.List.FindNode | test/shm_queue/umpq/doublylinkedlist.h:117-125 | the walk returns the first node for the core and version, or null if there is none |
| TreeCommitCode.List.Unlink | test/shm_queue/umpq/doublylinkedlist.h:141-149 | both neighbours and both ends of the list pass the node by |
| TreeCommitCode.List.DeleteNode | test/shm_queue/umpq/doublylinkedlist.h:141-149 | the contents lose exactly that node, all other links in place |
| TreeCommitCode.Core.Vote | test/shm_queue/umpq/exp_2pc.c:91-110 | it says yes exactly if asked to and the version is newer than the one remembered, which a yes replaces |
| TreeCommitCode.Core.ForwardRequest | test/shm_queue/umpq/exp_2pc.c:112-129 | the request is opened exactly if it is not open already |
| TreeCommitCode.Core.Process | test/shm_queue/umpq/exp_2pc.c:149-219 | exactly which messages fail an assert; otherwise the new state, vote, messages passed on and end of polling are those of the handler's specification |
| RangeSyntax.ReadsBack | test/shm_queue/umpq/parse_int.c:17-29 | a printed number of the range of a long reads back as itself |
| RangeMeaning.ParseIntMeaning | test/shm_queue/umpq/parse_int.c:17-29 | reading succeeds if and only if the whole string is empty or spaces, an optional sign and digits, and gives the long nearest to what the digits are worth |
| RangeMeaning.ToIntMeaning | test/shm_queue/umpq/parse_int.c:28 | conversion to int keeps the number modulo 2^32 |
| RangeMeaning.FieldMeaning | test/shm_queue/umpq/parse_int.c:128-185 | a field is malformed if and only if it is neither empty, nor a number, nor two numbers around its first dash; otherwise it adds what it spells |
| RangeMeaning.ParseIsInOrder | test/shm_queue/umpq/parse_int.c:119-193 | a string is handled as its fields between commas, from left to right, up to the first that fails |
| RangeMeaning.RejectsExactly | test/shm_queue/umpq/parse_int.c:17-29 | the parser rejects a string if and only if the first of its fields that adds no numbers is malformed |
| RangeSyntax.RoundTrip | test/shm_queue/umpq/parse_int.c:98-193 | parsing a printed list of ints and ranges gives the expansions in order if and only if no nonempty range ends at the largest int and the result holds at most 2^30 - 32 numbers |
| RangeSyntax.TooManyNumbers | test/shm_queue/umpq/parse_int.c:142-147 | a list of numbers far below the largest int that fails: `0-1073741823` |
| RangeSyntax.CountsPastMaximum | test/shm_queue/umpq/parse_int.c:162 | a list of a single number that fails: `2147483647-2147483647` |
| RangeParser.IntList.Grow | test/shm_queue/umpq/parse_int.c:142-150 | in 32-bit arithmetic there is room for 32 more numbers if and only if there were fewer than 2^30 - 32 |
| RangeParser.IntList.Add | test/shm_queue/umpq/parse_int.c:138-154 | the number is appended within the capacity, if and only if there were fewer than 2^30 - 32; the asserts on index and capacity hold |
| RangeParser.TokenizeBySep | test/shm_queue/umpq/parse_int.c:35-54 | it overwrites exactly the first separator and returns the place after it, or changes nothing and returns -1 |
| RangeParser.ParseFieldAt | test/shm_queue/umpq/parse_int.c:128-185 | one field adds exactly its numbers, or fails as the notation says, and nothing behind it in the copy is touched |
| RangeParser.AddRange | test/shm_queue/umpq/parse_int.c:162-183 | a range adds its numbers in order, or stops at the largest int or where the result is full |
| RangeParser.NextField | test/shm_queue/umpq/parse_int.c:119-188 | the next field ends at the first comma or the end, and adds its numbers or fails |
| RangeParser.ParseIntsRange | test/shm_queue/umpq/parse_int.c:98-193 | the parser on its overwritten copy and its growing result gives what the notation means, failures included, for every string |

## Left out

- Memory ordering weaker than sequential consistency, beyond payload stores preceding the control store.
- Shared memory is taken to start as zeros, and endpoints of one channel to be initialised before either receives.
- Spin loops appear in the methods as single attempts that say exactly when the code would spin; in the machines they are steps that can repeat.
- Blocking calls that combine polling, a timeout and sleeping (`ump_enqueue`, `ump_dequeue`): the clock is left out, their steps are machine steps.
- The `*_zero` variants of the UMP calls, which skip flow control, and the command-line options in `ump_conf.c`.
- UmpOneWay.QueueAssertsHold: covers rings of up to 65534 slots and one-way use; both directions carrying data is outside the queue's design.
- SequenceRingSafety.DeliversInOrder: with one reader and 34 slots or more it covers the runs up to 2^32 - 1 messages, because past them it is false.
- Wrap-around of the 64-bit sequence numbers, indices and sums.
- The sequence ring's readers are set up with one id each; a shared id is not modelled. `shm_queue2.c`, the top-level `shm_queue.c`, `ff_queue.c` and `pt_queue.c` are weaker versions of the rings here.
- Log replication without failures only: leader election, votes and heartbeats do nothing or are commented out in the code.
- RaftQueue.LogQueue.Cleanup: reading the successor of an entry just freed is taken to see it intact. In the machine of the replicas the queue is a sequence.
- RaftReplicaCode.RaftNode.HandleAppendResponse: it returns whose requests are answered; that the reply is whatever the one receive buffer holds is in the machine of the replicas.
- The three payload words of a command are one value, and running a command appends it to a list.
- Smelt channels and the queues of the trees are reliable first-in-first-out channels; the assert in `mp_send` that the channel has room is not modelled, its buffers are sized for a whole experiment.
- The two-tier composition in `com_layer.c`, and the Smelt-tree variants of the replicas.
- The build of 1Paxos in which other replicas than the leader reply (`KVS`). Leader and acceptor change of 1Paxos, which has unsent messages and is the only reader of the queued entries; set-up messages of clients, which also go through the receive buffer. Request ids are 32 bits wide, so none equals the 64-bit mark for "nothing executed".
- The tree two-phase commit has one requester; its tree is the network as seen from there. A group of a single core is left out of both tree protocols: the code asserts that a neighbour exists.
- TreeCommitCode.Core.Process: leaves out a core being sent its own commit, which no core sends.
- `shm_barrier`, the experiments' timing loops, `parse_int_tuple`, and the table-driven CRC.
- RangeParser.ParseFieldAt: reading one number is the C library's `strtol` and enters as the function `RangeSyntax.ParseInt`, whose meaning is `RangeMeaning.ParseIntMeaning`; counting an int past its maximum, and storing into a result reallocated to no bytes, are reported instead of followed.
- RangeParser.ParseIntsRange: running out of memory earlier, and strings whose places do not fit an int; the copy of the string is on the stack.
