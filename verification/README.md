# Verified models of the distributed-systems assignments

This project models five systems of the repository in Dafny 4.11 and proves what their clients can rely on.

* **The replicated key-value store of Assignment 10**, in leader-follower and in leaderless mode. Each protocol is a
  step system: client calls, deliveries, acknowledgements, losses and responses are steps, a step whose guard fails
  changes nothing, and a schedule is any list of steps, so a statement over all step lists covers every delay, loss,
  reordering and repetition. `KVStore`, the load generator's version tracker and the HTTP handlers are classes whose
  methods, with their channel loops, are proved against the same functions that the steps of the protocols apply.
* **The circuit breaker of the mid-term project and the crashing server behind it**, under any interleaving of the
  proxy's requests and, separately, with one request in flight, as the shipped client sends them.
* **The MapReduce word count of Assignment 4** against the sequential program.
* **The queue processor of Assignment 7**: semaphores, wait group and goroutines of one batch, and the queue around it.
* **The two cart backends of Assignment 8** against each other.

`dafny verify dfyconfig.toml` checks everything.

## Results that differ from what one might hope

Each is stated as an exact condition, with a witness where the hope fails.

* Leaderless replicas need not converge, even when every write was answered 201: they disagree on a key exactly when two
  writes tie at its largest version with different values (`DivergenceIsExactlyATie`), and acknowledged writes can do so
  exactly when there are at least two nodes and N does not exceed their number (`AcknowledgedWritesCanDiverge`).
* A write need not get a larger version than one that was answered before it started. It does after a 201 when N is at
  least the number of nodes (`LaterWriteGetsLargerVersion`); it can tie after a 503 exactly when N and the number of
  nodes are at least 2, and after a 201 exactly when N is below a number of nodes of at least 2
  (`AnsweredWritesCanTie`). A read at some node can be older than a 201 in the latter clusters only
  (`CreatedWritesCanBeMissed`).
* Reading `q` replicas sees every acknowledged write exactly when W + q > N (`QuorumBoundIsExact`; `MissedGroup` is a
  schedule below the bound).
* "A half-open failure reopens the breaker" holds exactly when a single failure trips it or no two proxied calls are ever
  in flight together (`ReopeningIsSequential`). Two calls suffice to break it: one that succeeds late, while the breaker
  is open, wipes the failure count (`LateSuccessDefeatsReopening`).
* The word-count pipeline agrees with the sequential program exactly when neither byte cut severs a word
  (`PipelineIsExact`); every severed word adds one to the total. `BothCutsSever` gives texts on which the total is off
  by two and six occurrences differ, the largest deviation there is.
* NUM_WORKERS=0 is accepted and deadlocks on the first message of every batch (`DeadlockFreeExactly`).
* The cart backends agree exactly when no cart id is drawn twice (`BackendsAgreeExactly`; `RepeatedIdTellsApart`
  has runs that tell them apart, in which DynamoDB loses an item that MySQL keeps).
* A read at the leader that the load generator flags as stale was not stale. It is flagged exactly when a newer write was
  answered 201 and recorded before the check (`StaleFlagIsExact`), and `SetLocal` of that write ran after the read began:
  before the answer, or between the answer and the check (`StaleLeaderReadWasOvertaken`). Both happen, for every R, in
  every cluster that can acknowledge a write (`FreshReadsCanBeFlagged`). Where writes wait for every node, in leader mode
  with W = N and in leaderless mode, a flag at any node is only ever for a write that had no 201 yet when the read began
  (`FlagsAreForConcurrentWrites` in LeaderStale.dfy and in LeaderlessTies.dfy).
* Of a dead backend the breaker promises less when calls overlap. With `limit` calls in flight the backend is called up
  to threshold - 1 + limit times, plus `limit` times the number of half-open phases so far, and that is exact (`DeadBackendIsProtected`, `BoundIsAttained` in BreakerConcurrent.dfy).

## Files

| file | content |
|---|---|
| Options.dfy, Basics.dfy | option type; counting nodes, finding the step that establishes a property |
| Replica.dfy, WriteLog.dfy | the versioned store; the numbered log of writes and the register it describes |
| AckLoop.dfy, Channel.dfy, ReadMerge.dfy, Nodes.dfy, Tracker.dfy | the channel loops, the replies they read, the handlers, the stale-read detector |
| LeaderProtocol.dfy, LeaderInvariant.dfy | leader mode: steps and invariant |
| LeaderTheorems.dfy, LeaderReads.dfy, LeaderQuorum.dfy, LeaderTight.dfy, LeaderProgress.dfy, LeaderStale.dfy, LeaderFlags.dfy | leader mode: linearizability, the R quorum, the W quorum and its exactness, progress, what a stale flag means, when there can be one |
| LeaderlessProtocol.dfy, LeaderlessInvariant.dfy, LeaderlessTheorems.dfy, LeaderlessConvergence.dfy, LeaderlessTies.dfy, LeaderlessProgress.dfy | leaderless mode: steps, invariant, real-time order, convergence, what an answer promises, progress |
| Breaker.dfy, BreakerHistory.dfy, BreakerConcurrent.dfy, BreakerRuns.dfy, CrashLoop.dfy | the breaker, its history, a dead backend under overlapping calls, sequential runs, the crashing server |
| Text.dfy, WordCount.dfy, CountedWords.dfy, Pipeline.dfy | words, the programs, what is counted, the pipeline theorems |
| WorkerPool.dfy, PayBeforeDelete.dfy | one batch; many processors and batches with redelivery and restarts |
| Carts.dfy | both cart backends |

## Model

| member | source | states |
|---|---|---|
| Replica.KVStore.Get | Assignment 10/main.go:33-38 | answers with the entry the store holds, or reports that there is none |
| Replica.KVStore.Set | Assignment 10/main.go:40-47 | the newer of the two entries survives; no other key changes; the version never drops |
| Replica.KVStore.SetLocal | Assignment 10/main.go:50-59 | numbers the write one above what the store holds, 1 for a new key, and stores it |
| Replica.CommuteExactly | Assignment 10/main.go:40-47 | two deliveries commute at a store if and only if they are not a fresh tie (same key and version, different values, newer than the store) |
| Replica.ApplyAllHoldsNewest | Assignment 10/main.go:40-47 | after any deliveries a key holds the newest of its old entry and the messages for it |
| Replica.DeliveryOrderIrrelevant | Assignment 10/main.go:40-47 | order and repetition of deliveries do not matter when the version of a key fixes its value |
| AckLoop.AwaitQuorum | Assignment 10/main.go:140-162 | the early-exit loop consumes exactly the stopping prefix and its verdict is that of the number of positive replies in all |
| AckLoop.EarlyExitIsExact | Assignment 10/main.go:140-161 | for any order of arrival and any W, stopping early gives the verdict of waiting for everyone, whatever is still to come |
| AckLoop.ExitIsEarliest | Assignment 10/main.go:144-156 | the loop leaves at the first reply after which no further reply can change the verdict; with a quorum larger than the followers, at the first failure |
| AckLoop.AcksCountsPositives | Assignment 10/main.go:145-146 | the count is the number of positive replies |
| AckLoop.LoopLeavesOnce | Assignment 10/main.go:144-156 | the loop always stops within the replies and at one place only |
| AckLoop.AwaitAll | Assignment 10/leaderless/main.go:119-127 | the leaderless loop counts every positive reply |
| ReadMerge.MergeReplies | Assignment 10/main.go:189-223 | the read loop takes replies until exactly R - 1 of them are entries or all are in, and returns the first of the newest among them and the local entry; nothing is found only if none of them is an entry |
| ReadMerge.ConsumesTakesQuorum | Assignment 10/main.go:208-221 | leaving the loop means having exactly that quorum of entries and no fewer replies, and the other way round |
| ReadMerge.MergedIsNewest | Assignment 10/main.go:212-217 | the merge returns something it was given, the newest of it, never older than the local entry, and 404 only when nothing was found |
| Nodes.LeaderFollowerNode.HandleSet | Assignment 10/main.go:101-170 | 405 exactly without POST, 400 exactly for a POST without readable body or key, 403 exactly for a good request at a follower, and none of these writes; every other write stays whether or not the quorum is met, and is answered 201 exactly when W - 1 followers acknowledged, else 503 |
| Nodes.LeaderFollowerNode.HandleGet | Assignment 10/main.go:173-254 | 400 exactly without a key; a leader answers the first of the newest of its own entry and R - 1 entries, or all replies; other nodes answer from their own store; 404 exactly when nothing was found |
| Nodes.LeaderFollowerNode.HandleReplicate | Assignment 10/main.go:279-298 | answers 200 even when the store rejects the version |
| Nodes.LeaderlessNode.HandleSet | Assignment 10/leaderless/main.go:89-146 | any node numbers and keeps the write; 201 exactly when at least N - 1 peers acknowledged |
| Nodes.LeaderlessNode.HandleGet | Assignment 10/leaderless/main.go:149-168 | answers from the node's own store |
| Tracker.VersionTracker.RecordWrite | Assignment 10/loadtest/main.go:50-57 | keeps the largest version per key; no expectation ever drops |
| Tracker.VersionTracker.CheckRead | Assignment 10/loadtest/main.go:59-66 | flags exactly the versions below a recorded one |
| LeaderInvariant.InvAlways | Assignment 10/main.go:40-59 | in every reachable state the n-th write of a key has version n, the leader is at the head of the log, every entry and reply in the system comes from the log, acknowledged followers hold the write, and responses follow the ack count |
| WriteLog.VersionNamesWrite | Assignment 10/main.go:50-59 | in a numbered log key and version name one write |
| WriteLog.RegisterIsNewest | Assignment 10/main.go:50-59 | the register of a numbered log holds its newest write, whose version is the number of writes |
| LeaderTheorems.NothingIsTakenBack | Assignment 10/main.go:40-59 | versions, log, acknowledgements, responses and answers only grow along any schedule |
| LeaderTheorems.LeaderIsTheRegister | Assignment 10/main.go:50-59 | the leader's store is at every moment the register that its writes, taken one after the other, describe |
| LeaderTheorems.LeaderReadsLinearize | Assignment 10/main.go:187-228 | every leader read, 404 included, fits into the order of the writes at a place between its call and its answer, for every R and any follower behaviour |
| LeaderTheorems.WritesTakeTheirPlace | Assignment 10/main.go:121-123 | a write enters the register during its own call, numbered by the writes before it, whatever its response |
| LeaderTheorems.LeaderReadsNeverGoBack | Assignment 10/main.go:187-228 | a leader read after another never answers 404 or an older version |
| LeaderReads.LeaderReadTakesQuorum | Assignment 10/main.go:187-228 | in every schedule an answered leader read with R above 1 took the entries of exactly R - 1 distinct followers, or heard all of them, and no fewer; its answer is its own entry or one of theirs and none of them is newer |
| LeaderReads.ServedAtMoment | Assignment 10/main.go:300-321 | what a follower sends to a leader read is its store at one moment of the read |
| LeaderReads.ReadUnderWaySeesWrite | Assignment 10/main.go:187-228 | a leader read answers a write, or something newer, whenever the followers it took that had not served it at the 201 outnumber the cluster together with the W replicas |
| LeaderReads.QuorumOfReadSeesWrite | Assignment 10/main.go:187-228 | with W + R above N + 1, a read that met R and that no follower had served at the 201 sees the write even if it began earlier |
| LeaderProgress.FollowerCanAcknowledge | Assignment 10/main.go:128-138 | a follower that has not replied can always take the message and acknowledge it |
| LeaderProgress.FollowerCanReply | Assignment 10/main.go:198-205 | a follower that has not served a read can always do so, and what arrives is the entry it holds |
| LeaderProgress.WriteCanEnd | Assignment 10/main.go:124-169 | whatever has happened, if all missing replies are failures the write is answered, 201 exactly if W - 1 followers had acknowledged, and stays |
| LeaderProgress.WriteAnswersAtOnce | Assignment 10/main.go:144-156 | with W - 1 acknowledgements in, or more failures than the quorum can bear, the leader can answer without the other replies |
| LeaderProgress.WritesCanBeRefused | Assignment 10/main.go:158-161 | some schedule answers 503 if and only if W is above 1 |
| LeaderProgress.ReadCanEnd | Assignment 10/main.go:209-228 | whatever has happened, if all missing replies are lost a leader read is answered |
| LeaderProgress.ReadAnswersAtOnce | Assignment 10/main.go:219-221 | with the entries of R - 1 followers in, the leader can answer without the other replies |
| LeaderProgress.FollowerReadCanEnd | Assignment 10/main.go:238-254 | a follower can answer a read at any moment, with what it holds |
| LeaderProgress.RepliesCanBeNewer | Assignment 10/main.go:187-228 | a leader read can return a write newer than the leader held when it began if and only if W and R are above 1 and there is a follower |
| LeaderProgress.CreatedCanBeRecorded | Assignment 10/loadtest/main.go:50-57 | every write answered 201 can be recorded, and the tracker then expects at least its version |
| LeaderProgress.AnswerCanBeChecked | Assignment 10/loadtest/main.go:184-191 | every entry read at any node can be checked, against what the tracker then expects |
| LeaderQuorum.NoSenderBlocks | Assignment 10/main.go:129-137 | a follower that has not replied always finds room in the channel, even after the loop left |
| LeaderQuorum.ResponseMatchesFullCount | Assignment 10/main.go:140-162 | once all followers replied, the response given earlier is the one the full count gives |
| LeaderQuorum.QuorumIsDurable | Assignment 10/main.go:124-162 | after a 201 at least W replicas (one for any W below 1), the leader among them, hold the version or a newer one, then and ever after |
| LeaderQuorum.QuorumReadSeesWrite | Assignment 10/main.go:209-223 | when W (1 for any W below it) plus the replicas read exceeds N, merging their replies, each taken at any later moment, yields the version or a newer one |
| LeaderQuorum.NoReplicaIsAhead | Assignment 10/main.go:40-59 | every version a replica holds is at least 1 and at most the leader's |
| LeaderQuorum.ReplicasNeverConflict | Assignment 10/main.go:40-59 | replicas with the same version of a key hold the same value, at every moment of every schedule |
| LeaderQuorum.FollowerReadIsSnapshot | Assignment 10/main.go:238-254 | a follower's answer is its store at one moment of the call |
| LeaderQuorum.FollowerFreshWhenAllAck | Assignment 10/main.go:238-254 | with W = N every follower read after a 201 is fresh and never 404 |
| LeaderQuorum.DeliveredMeansConverged | Assignment 10/main.go:128-138 | once all messages are delivered, in any order and number, every follower's store equals the leader's |
| LeaderQuorum.WriteOneReplicatesNothing | Assignment 10/main.go:124-128 | with W = 1 no follower ever holds anything |
| LeaderTight.QuorumBoundIsExact | Assignment 10/main.go:124-162 | groups of q replicas see every acknowledged write in every schedule if and only if W + q > N |
| LeaderTight.MissedGroup | Assignment 10/main.go:124-162 | below the bound: a schedule with a 201 and a group none of whose members holds the write |
| LeaderStale.StaleFlagIsExact | Assignment 10/loadtest/main.go:50-66 | a read at any node is flagged if and only if a write of its key newer than its answer had been answered 201 and recorded by the time of the check |
| LeaderStale.StaleLeaderReadWasOvertaken | Assignment 10/loadtest/main.go:184-191 | for every write for which a leader read is flagged, SetLocal ran after the read began and before the check; it ran before the answer if and only if the log already held the write at the answer |
| LeaderFlags.FreshReadsCanBeFlagged | Assignment 10/loadtest/main.go:184-191 | a leader read can be flagged, for a write whose SetLocal ran before its answer or for one whose SetLocal ran after it, if and only if the cluster has the W replicas that a 201 needs |
| LeaderStale.FlagsAreForConcurrentWrites | Assignment 10/loadtest/main.go:59-66 | with W = N a read at any node is never flagged for a write that was answered 201 before the read began |
| LeaderStale.OldAnswerIsAlwaysFlagged | Assignment 10/loadtest/main.go:59-66 | an answer, from any node, below a version recorded before the read began is always flagged |
| LeaderlessInvariant.InvAlways | Assignment 10/leaderless/main.go:40-57 | in every reachable state every entry comes from a write, coordinators and acknowledged peers hold each write or something newer, and 201 follows the ack count |
| LeaderlessTheorems.NothingIsTakenBack | Assignment 10/leaderless/main.go:40-57 | versions, log and responses only grow along any schedule |
| LeaderlessTheorems.ReadsAfterCreatedAreFresh | Assignment 10/leaderless/main.go:148-160 | after a 201 every node answers with that version or a newer one, never 404 |
| LeaderlessTheorems.LaterWriteGetsLargerVersion | Assignment 10/leaderless/main.go:104-135 | a write that starts, at any node, after another was answered 201 gets a larger version, and the log holds it under that version from then on |
| LeaderlessTheorems.EqualVersionMeansNotCreated | Assignment 10/leaderless/main.go:104-135 | a write can share the version of an earlier one only if that one had no 201 when it started |
| LeaderlessTies.AnsweredWritesCanTie | Assignment 10/leaderless/main.go:104-135 | a write can tie, with another value, with one that was answered before it started: after a 503 if and only if N and the number of nodes are at least 2, after a 201 if and only if N is below a number of nodes of at least 2 |
| LeaderlessTies.CreatedWritesCanBeMissed | Assignment 10/leaderless/main.go:130-160 | some node can answer with an older version after a 201 if and only if N is below a number of nodes of at least 2 |
| LeaderlessTies.FlagsAreForConcurrentWrites | Assignment 10/loadtest/main.go:59-66 | a read at any node is flagged if and only if a newer write was recorded, and each such write had no 201 yet when the read began, N being at least the number of nodes |
| LeaderlessProgress.PeerCanAcknowledge | Assignment 10/leaderless/main.go:110-116 | a peer that has not replied can always take the message and acknowledge it |
| LeaderlessProgress.WriteCanEnd | Assignment 10/leaderless/main.go:119-145 | whatever has happened, if all missing replies are failures the write is answered, 201 exactly if N - 1 peers had acknowledged, and stays |
| LeaderlessConvergence.DivergenceIsExactlyATie | Assignment 10/leaderless/main.go:40-57 | with all messages delivered, replicas disagree on a key if and only if two writes tie at its largest version with different values |
| LeaderlessConvergence.AcknowledgedWritesCanDiverge | Assignment 10/leaderless/main.go:104-145 | some schedule has every write answered 201, every message delivered and two replicas that differ if and only if there are at least two nodes and N is at most their number |
| LeaderlessConvergence.SerialIsNumbered | Assignment 10/leaderless/main.go:48-57 | if writes of a key do not overlap and each gets 201, the k-th has version k |
| LeaderlessConvergence.SerialRunsAgree | Assignment 10/tests/consistency_test.go:261-281 | in such a run any node answers with the last value written and all nodes agree |
| Breaker.CircuitBreaker.CanRequest | Mid Term Mastery/Part 2/midterm-crash-recovery/proxy/main.go:33-52 | grants unless open within the timeout, and moves an expired open breaker to half-open |
| Breaker.CircuitBreaker.RecordSuccess | Mid Term Mastery/Part 2/midterm-crash-recovery/proxy/main.go:54-69 | counts half-open successes, closes on the second, and otherwise clears the failures |
| Breaker.CircuitBreaker.RecordFailure | Mid Term Mastery/Part 2/midterm-crash-recovery/proxy/main.go:71-83 | counts the failure, forgets successes, opens at the threshold |
| Breaker.ProxyRequest | Mid Term Mastery/Part 2/midterm-crash-recovery/proxy/main.go:98-143 | a refused call leaves breaker and backend alone; a forwarded one records its outcome; the fallback is served exactly when refused or failed |
| BreakerHistory.CountersAlwaysMatch | Mid Term Mastery/Part 2/midterm-crash-recovery/proxy/main.go:33-83 | under any interleaving: closed, failureCount is the failure run of the history and below the threshold; half-open, successCount is the pending success; elsewhere successCount is 0 |
| BreakerHistory.TripsExactlyOnTheThreshold | Mid Term Mastery/Part 2/midterm-crash-recovery/proxy/main.go:71-83 | a closed breaker opens exactly on the failure that completes a run of threshold failures |
| BreakerHistory.ClosesExactlyOnTwoSuccesses | Mid Term Mastery/Part 2/midterm-crash-recovery/proxy/main.go:54-69 | it closes exactly on the second of two half-open successes with no failure between |
| BreakerHistory.AskingExactly | Mid Term Mastery/Part 2/midterm-crash-recovery/proxy/main.go:33-52 | after any history a call is let through exactly when the breaker is not open or more than the timeout has passed since the last failure of the history, however long ago; that moves an open breaker to half-open and changes nothing else |
| BreakerHistory.SucceedingExactly | Mid Term Mastery/Part 2/midterm-crash-recovery/proxy/main.go:54-69 | outside HALF_OPEN a success clears the failure count and nothing else; in HALF_OPEN the first is remembered and the second closes with all counters 0 |
| BreakerHistory.FailingExactly | Mid Term Mastery/Part 2/midterm-crash-recovery/proxy/main.go:71-83 | in any state a failure opens the breaker exactly when it brings the failures since they were last cleared to the threshold |
| BreakerHistory.TwoProbesRecover | Mid Term Mastery/Part 2/midterm-crash-recovery/proxy/main.go:33-69 | from any open state two successful probes, the first at any moment past the timeout, close the breaker |
| BreakerHistory.LateSuccessDefeatsReopening | Mid Term Mastery/Part 2/midterm-crash-recovery/proxy/main.go:54-83 | for every threshold of at least 2 and two calls in flight, a history of proxied calls in which a half-open failure does not reopen |
| BreakerHistory.ReopeningIsSequential | Mid Term Mastery/Part 2/midterm-crash-recovery/proxy/main.go:102-142 | over the histories that proxied calls can leave, at most `limit` in flight at a time, every half-open failure reopens if and only if the threshold or the limit is at most 1 |
| BreakerConcurrent.DeadBackendIsProtected | Mid Term Mastery/Part 2/midterm-crash-recovery/proxy/main.go:33-142 | with at most `limit` calls in flight a dead backend has been called at most threshold - 1 + limit times, plus `limit` times the number of half-open phases so far, and k phases take k waits longer than the timeout |
| BreakerConcurrent.BoundIsAttained | Mid Term Mastery/Part 2/midterm-crash-recovery/proxy/main.go:33-142 | for every threshold, timeout, limit and number of half-open phases a history of proxied calls with exactly that many calls in exactly that time |
| BreakerConcurrent.NeverClosesAgain | Mid Term Mastery/Part 2/midterm-crash-recovery/proxy/main.go:54-83 | under any interleaving a breaker that left CLOSED stays out of it while no call succeeds |
| BreakerRuns.SequentialRunIsHistory | Mid Term Mastery/Part 2/midterm-crash-recovery/client/loadtest_fixed.go:32-61 | a sequential run is one of the interleavings, with at most one call in flight |
| BreakerRuns.AlwaysSettled | Mid Term Mastery/Part 2/midterm-crash-recovery/proxy/main.go:33-83 | in sequential runs a breaker that is not closed remembers at least threshold failures |
| BreakerRuns.ProbeFailureReopens | Mid Term Mastery/Part 2/midterm-crash-recovery/proxy/main.go:71-83 | in sequential runs every failed probe reopens |
| BreakerRuns.TwoRequestsRecover | Mid Term Mastery/Part 2/midterm-crash-recovery/proxy/main.go:33-69 | the same for two requests of a sequential run |
| BreakerRuns.DeadBackendIsProtected | Mid Term Mastery/Part 2/midterm-crash-recovery/proxy/main.go:33-83 | from any state a sequential run leaves, a dead backend is called until the breaker is open and then k times, where k recovery timeouts fit strictly into the time since it opened |
| BreakerRuns.DeadBackendNeverCloses | Mid Term Mastery/Part 2/midterm-crash-recovery/proxy/main.go:54-83 | against a dead backend a breaker that is not closed never closes |
| CrashLoop.CrashingServer.Admit | Mid Term Mastery/Part 2/midterm-crash-recovery/server/main.go:40-70 | counts the request and passes it exactly up to the fiftieth |
| CrashLoop.FirstFiftyPass | Mid Term Mastery/Part 2/midterm-crash-recovery/server/main.go:40-70 | under any interleaving of counting and flagging exactly the first fifty requests pass, and the flag is up exactly when a later one raised it |
| CrashLoop.FirstFiftySucceed | Mid Term Mastery/Part 2/midterm-crash-recovery/proxy/main.go:117-139 | a forwarded call succeeds exactly when it is not lost and fewer than fifty requests came before it |
| CrashLoop.HealthyForFifty | Mid Term Mastery/Part 2/midterm-crash-recovery/server/main.go:40-60 | up to fifty calls of a client on its own, none lost, all succeed and leave the breaker as new |
| CrashLoop.CrashedServerFailsAll | Mid Term Mastery/Part 2/midterm-crash-recovery/proxy/main.go:121-139 | after fifty requests every forwarded call is a failure |
| CrashLoop.NoRecoveryAfterCrash | Mid Term Mastery/Part 2/midterm-crash-recovery/proxy/main.go:58-139 | after the crash the breaker, in whatever state a sequential run left it, spends exactly its remaining allowance of calls before it is open, then probes no faster than the timeout, and never closes again unless it was closed all along |
| Text.WordsAreTheText | Assignment 4/mapper/main.go:68 | the fields of a text, joined, are the text without white space |
| Text.WordsAreClean | Assignment 4/mapper/main.go:68 | no field is empty or holds white space |
| Text.WordsOfAppend | Assignment 4/splitter/main.go:64-69 | the words of a text in two parts are the finished words of the first and those of the second continuing its last one |
| Text.WordsOfLower | Assignment 4/sequential_wordcount.py:13 | lower-casing commutes with splitting into words |
| Text.TrimOfLower | Assignment 4/mapper/main.go:71 | lower-casing commutes with trimming |
| Text.TrimmedAway | Assignment 4/mapper/main.go:71-72 | trimming leaves nothing exactly of words that are punctuation only |
| WordCount.MapChunk | Assignment 4/mapper/main.go:67-75 | the mapper's table is the tally of the cleaned words of its chunk |
| WordCount.SequentialCount | Assignment 4/sequential_wordcount.py:13-23 | the sequential table is the tally of the stripped words of the lower-cased text |
| WordCount.SequentialIsOneMapper | Assignment 4/sequential_wordcount.py:13-18 | on one text the sequential program and the mapper, which clean in different orders, count the same words |
| CountedWords.CaseDoesNotMatter | Assignment 4/mapper/main.go:71 | texts that differ in the case of letters only have the same counts, in both programs |
| CountedWords.LettersAreLowered | Assignment 4/sequential_wordcount.py:13 | a capital becomes its small letter and every other character stays |
| CountedWords.TrimStripsPunctuation | Assignment 4/mapper/main.go:71 | trimming takes all of the fourteen punctuation characters off both ends of a word and nothing else |
| CountedWords.CountedWordsAreClean | Assignment 4/mapper/main.go:67-75 | no counted word is empty, holds a capital or white space, or begins or ends with punctuation |
| CountedWords.TablesCountOccurrences | Assignment 4/mapper/main.go:67-75 | a table holds exactly the words that occur, each with the number of its occurrences, and the sequential program has the same table |
| CountedWords.WordsAreSeparated | Assignment 4/mapper/main.go:68 | a text is its words with white space around them and some between any two |
| CountedWords.SpacesSeparate | Assignment 4/mapper/main.go:68 | text on the two sides of a space, tab, line feed, vertical tab, form feed or carriage return is counted apart |
| CountedWords.OthersStayTogether | Assignment 4/mapper/main.go:68-71 | a run of other characters is counted as one word, cleaned |
| WordCount.SplitAndUpload | Assignment 4/splitter/main.go:63-85 | on success the three chunks are stored; a failed upload stops with 500 and the chunks before it |
| WordCount.ChunksAreTheContent | Assignment 4/splitter/main.go:64-69 | the chunks joined are the content; two are equally long and the last is longer by at most two |
| WordCount.MergeInto | Assignment 4/reducer/main.go:73-75 | adds every count once, in whatever order the map is visited |
| WordCount.Reduce | Assignment 4/reducer/main.go:39-100 | a missing bucket, output name or list of results is 400; an unreadable result or a failed upload is 500; otherwise every word of any result is stored with its counts added up, and the answer carries the number of different words |
| Pipeline.CutEffect | Assignment 4/splitter/main.go:64-69 | one cut costs exactly one occurrence and adds exactly two if it severs a word, and changes nothing otherwise |
| Pipeline.ReduceAddsBags | Assignment 4/reducer/main.go:50-76 | reducing the tallies of bags is the tally of their sum |
| Pipeline.MapperOrderIrrelevant | Assignment 4/reducer/main.go:52-76 | the order of the mapper keys does not matter |
| Pipeline.DeviationIsExact | Assignment 4/splitter/main.go:64-69 | for every text the distributed total is the sequential total plus the number of severed words; one severed word changes exactly three occurrences, two at most six |
| Pipeline.PipelineIsExact | Assignment 4/reducer/main.go:50-76 | in any mapper order the pipeline gives the sequential counts if and only if neither cut severs a word, and its total exceeds the sequential one by at most 2 |
| Pipeline.BothCutsSever | Assignment 4/splitter/main.go:64-69 | texts on which the tables differ, the total is off by two and six occurrences differ, so the bounds are attained |
| Pipeline.CutsAtWordEdges | Assignment 4/splitter/main.go:64-69 | cuts next to white space or an end give exactly the sequential counts |
| WorkerPool.InvAlways | Assignment 7/main.go:192-205 | in every reachable state the fill of both channels and the wait group's counter are exactly what the goroutines hold |
| WorkerPool.LimitsHold | Assignment 7/main.go:48-56 | at most numWorkers messages in process and at most one payment running |
| WorkerPool.AllWorkersCanBeBusy | Assignment 7/main.go:192-205 | the limit is reached: as many messages as workers, or all of a smaller batch, can be in process at once |
| WorkerPool.BlockedExactly | Assignment 7/main.go:50-56 | a running goroutine is blocked only while it waits for the payment and another holds the token; the loop waits for a slot only while numWorkers messages are in process, and at wg.Wait only until all are done |
| WorkerPool.DeadlockFreeExactly | Assignment 7/main.go:192-205 | some step is possible until wg.Wait returns, in every schedule, if and only if there is a worker or no message |
| WorkerPool.EveryScheduleEnds | Assignment 7/main.go:196-205 | a batch of n messages takes at most 10n + 1 steps and can stop only past wg.Wait |
| WorkerPool.ScheduleCompletes | Assignment 7/main.go:192-205 | with a worker every schedule can be continued past wg.Wait |
| WorkerPool.BatchIsComplete | Assignment 7/main.go:196-233 | when wg.Wait returned, every message had one delete attempt, every order exactly one payment and nothing else any, and both semaphores are empty |
| PayBeforeDelete.NoOrderLeavesUnpaid | Assignment 7/main.go:209-243 | over all runs of any number of processors on one queue, with redelivery, failing deletes and restarts in mid-batch, an order leaves the queue only after its payment completed |
| PayBeforeDelete.QueueHoldsTheUndeleted | Assignment 7/main.go:229-243 | a message is in the queue exactly when it was published and no delete of it succeeded |
| PayBeforeDelete.ServedBatchIsGone | Assignment 7/main.go:196-205 | when wg.Wait has returned and no delete of the batch failed, none of its messages is in the queue, whatever other processors did |
| PayBeforeDelete.BatchCanBeServed | Assignment 7/main.go:196-243 | from any run a polling processor with a worker can take any published messages out of the queue |
| PayBeforeDelete.RestartLosesNothing | Assignment 7/main.go:196-243 | after a restart in mid-batch queue and payments are as before, and the batch can be delivered again and removed |
| PayBeforeDelete.OrdersGetThrough | Assignment 7/main.go:196-243 | an order can be published, paid and removed if and only if some processor has a worker |
| Carts.DynamoStore.CreateCart | Assignment 8/src/dynamo_store.go:72-108 | stores an empty active cart under the id, whatever was there |
| Carts.DynamoStore.AddItem | Assignment 8/src/dynamo_store.go:133-182 | an unknown cart changes nothing; otherwise the list is upserted and returned |
| Carts.UpdateOrAppend | Assignment 8/src/dynamo_store.go:141-153 | the loop replaces the first line of the product or appends one |
| Carts.UpsertIsMapUpdate | Assignment 8/src/dynamo_store.go:141-153 | on a list with no product twice the upsert is the map update and keeps it so |
| Carts.MySQLStore.CreateCart | Assignment 8/src/mysql_store.go:89-109 | inserts the cart, refusing a known id |
| Carts.MySQLStore.GetCart | Assignment 8/src/mysql_store.go:111-144 | the cart with the rows that carry its id, or not found |
| Carts.MySQLStore.AddItem | Assignment 8/src/mysql_store.go:146-173 | an unknown cart changes nothing; otherwise the row is upserted under the unique index |
| Carts.RowUpsertIsListUpsert | Assignment 8/src/mysql_store.go:157-164 | a row upsert is a list upsert of its own cart and leaves every other cart alone |
| Carts.FreshRunsStayEqual | Assignment 8/src/mysql_store.go:89-173 | with fresh ids both backends hold the same carts, no product twice, after any calls |
| Carts.CartHoldsLastAdds | Assignment 8/src/dynamo_store.go:72-182 | after any calls a DynamoDB cart exists exactly when it was created, belongs to whoever created it last, and lists for each product, once, the line of the newest AddItem since |
| Carts.GetShowsLastAdds | Assignment 8/src/dynamo_store.go:110-131 | GetCart shows exactly the newest AddItem of every product since the cart was created, or not found if it never was; so does MySQL when no id is drawn twice |
| Carts.BackendsAgreeExactly | Assignment 8/src/store.go:6-19 | over any calls that do not overlap both backends answer alike if and only if no cart id is drawn twice |
| Carts.RepeatedIdTellsApart | Assignment 8/src/mysql_store.go:89-109 | an id drawn again after an item was added, by whomever: MySQL refuses and keeps customer and item, DynamoDB shows the second customer an empty cart |

## Assumptions

* Followers and peers have distinct addresses, only coordinators call `/replicate`, and nodes of Assignment 10 do not
  restart (their stores are in memory). The leaderless freshness results assume that N is at least the number of nodes.
* Clocks of the breaker are integers; the sequential bound and the histories of proxied calls assume they do not run
  backwards.
* Text is ASCII without the characters 0x1c to 0x1f.
* Thresholds and quorums are arbitrary integers; a breaker threshold below 1 acts as 1, a W below 1 as 1.
* NUM_WORKERS is not negative. `getEnvInt` (Assignment 7/main.go:263-273) would accept a negative number, and making a
  channel of that size panics before the first message of a batch is taken up (Assignment 7/main.go:192).

## Left out

- HTTP, JSON, S3, SNS, SQS, DynamoDB and MySQL clients, logging and environment parsing: the network and the queue are steps of the environment, storage is a map or a sequence.
- Sleeps and delays, which the schedules cover as arbitrary waiting; the degraded stage of the crashing server therefore only passes requests.
- The mutexes: each locked section is one step or one method call.
- WorkerPool.InvAlways: goroutines and channels are a step system on values, not threads; the blocking rules of full and empty channels are its guards.
- Carts.MySQLStore.GetCart: lists rows in table order, because the query asks for none; the agreement theorem compares carts as maps from product to line.
- The Unicode rules of word splitting and lower-casing, and byte cuts inside a multi-byte character.
- At-most-once payment: redelivery can repeat a payment, so it does not hold; message expiry in the queue.
- Overlapping DynamoDB AddItem calls, which can lose an update.
- Timestamps, floating-point prices, DECIMAL rounding and collation; prices are cents, product ids are compared exactly.
- The `local_read` endpoint, which is the follower read without its delay, and the load generator's latency statistics.
- The receiver of Assignment 7 and its Lambda variant, and Assignments 1, 2, 3, 5, 6 and Final Mastery.
