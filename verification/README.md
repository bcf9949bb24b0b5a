# Verified models of the repository's protocols, codecs and containers

This project models the parts of the repository that carry an algorithm and proves what they are for: a smooth
weighted round-robin balancer, two thread-pool handoff protocols, an arithmetic expression compiler, a consistent
hash, a crawler's frontier, a string matcher, a hash table, a growable buffer, a UTF-8 classifier, and the codecs for
integers, RPC messages and DNS packets. Code that updates state in place is modelled by methods over classes and arrays;
each method is proved against a function or predicate, and the theorems are about those, over every input, every run
or every reachable state. The two thread pools are transition systems whose steps are single statements of single
threads; in the runs of the crawler's frontier a step is one critical section, or one test outside of any.

`dafny verify dfyconfig.toml` checks everything.

| file | what it models |
|---|---|
| `smooth_schedule.dfy` | the arithmetic of one choice of the balancer, and of schedules of choices |
| `round_robin.dfy` | choosing, freeing, notifying and setting up peers |
| `round_robin_runs.dfy`, `round_robin_fairness.dfy`, `round_robin_health.dfy` | whole runs of the balancer: accounts, fairness, and which peers are kept back |
| `pool_threads.dfy`, `slot_handoff.dfy`, `ring_handoff.dfy` | the one-slot and the ring-buffer thread pool |
| `expr_machine.dfy`, `expr_language.dfy`, `expr_precedence.dfy`, `expr_results.dfy`, `expr_values.dfy`, `expr_arithmetic.dfy`, `expr_brackets.dfy` | tokeniser, conversion to suffix form, evaluation |
| `jump_hash.dfy`, `jump_balance.dfy` | jump consistent hash |
| `url_queue.dfy`, `frontier.dfy`, `frontier_runs.dfy` | the crawler's queues, its shared state, and runs of it |
| `int_text.dfy`, `int_prefixes.dfy` | integers printed in a base and parsed back |
| `octets.dfy`, `framing.dfy`, `frame_stream.dfy`, `byte_order.dfy` | RPC messages, and reading them from a stream |
| `dns_codec.dfy`, `dns_packets.dfy` | DNS names, queries and responses |
| `chained_hash.dfy` | the chained hash table |
| `looks_utf8.dfy` | the UTF-8 classifier |
| `growable_buffer.dfy` | the growable buffer |
| `bit_set.dfy`, `char_match.dfy`, `match_language.dfy`, `match_results.dfy` | the string matcher |
| `numbers.dfy`, `sums.dfy`, `wrappers.dfy` | shared vocabulary |

## Where the code does not do what it is meant to

The models follow the code. In these places that differs from what the code is meant to do; a lemma says exactly when.

- Round robin: Go reads `1 << i % 64` as `(1 << i) % 64`, so from the seventh peer on a peer counts as tried before it
  has been. `HighPeersNeverPicked` shows such a peer is never picked from a list of several, and
  `FairToAllIffAtMostSix` that whole rounds are fair to all peers exactly when there are at most six. The schedule
  itself is fair for any number of eligible peers (`FairRounds`, `FairRun`).
- Ring-buffer pool: the acceptor never asks whether there is room. A put into a full ring loses every pending
  connection (`OverrunLoses`); a step keeps the order of connections exactly when a put finds room (`FifoIffRoom`), and
  with any number of workers some run leads to a full ring (`OverrunReachable`).
- Expressions: an operator of lower priority than the pending one is pushed without popping it, so `2*3+1` is 8
  (`FallingPriorityExample`). `StandardIffNonFalling` says exactly which expressions are read as usual, and
  `NumComputesCodeTree` what the others yield. Each of those has literals with which the value is wrong
  (`StandardValuesIffNonFalling`, `NumMisreads`). An expression whose suffix form does not fit the 100 places of the
  output always panics, because the number of items kept is even (`DroppedItemsPanic`). A closing bracket that meets
  an empty stack is pushed like an operator; the evaluation still panics (`UnmatchedPanics`).
- Framing: the check in `proto_encode` leaves out the four octets of the header, so a field that passes it can still be
  written past the end of the buffer (`ProtoEncode` says exactly when). A frame without payload cannot be told from the
  end of the stream (`SameSequenceIff`). The byte swap is wrong for some negative operands (`SignedSwapIff`).
- Integers: a digit is any letter or decimal digit, whatever the base, and the case conversion also takes the control
  characters 16 to 25 for decimal digits (`DigitValueReads`).
- DNS names: a name survives exactly when its labels have 1 to 127 octets, which includes all names of RFC 1035
  (`NameRoundTrip`).
- Crawler: `url_add` tests a domain before it takes the lock under which it appends. When a good response comes
  between the test and the append, the waiting queue is gone and the append goes through a null pointer (`LosingRun`);
  URLs are conserved exactly when that does not happen (`ConservedIffNotStraddled`). The resolver sets the flag of a
  domain before it splices the queues, so a URL can overtake earlier ones of its domain (`OvertakingRun`);
  `OrderIffNotReordered` says exactly which steps do.
- String matcher: the closing brace of a group does not end the search for an alternative (`StrayAlternative`);
  `GroupIffCovered` says exactly when that does no harm. A descending range never ends: `MatchIsGreedy` says exactly on
  which strings the matcher hangs, and `EndsIffAscending` on which formats it can. It never goes back, so it misses
  strings of the language when what follows a directive looks like more of it (`GreedyMisses`); on deterministic
  formats it misses none (`MatchIsComplete`), and where literals separate what varies only on those
  (`CompleteIffDeterministic`).
- Hash table: a key with a NULL value and a missing key give the same answer (`HashTable.Get`). The default hash
  function does not see the order of the bytes (`RearrangedKeysCollide`).

## Model

| member | source | states |
|---|---|---|
| SmoothSchedule.BestIsFirstMaximum | ng-go/src/stream/upstream_round_robin.go:570-573 | the scan chooses the first eligible peer with the largest current weight, and any peer so described is the one chosen |
| SmoothSchedule.SpinConserves | ng-go/src/stream/upstream_round_robin.go:563-587 | what the peers gain the chosen one pays: the sum of the current weights never changes |
| SmoothSchedule.SpinKeeps | ng-go/src/stream/upstream_round_robin.go:563-587 | if somebody has a share, somebody is chosen, and the weights stay above minus the total |
| SmoothSchedule.SpinsExact | ng-go/src/stream/upstream_round_robin.go:526-594 | after k picks every current weight is k times the share minus the total times the picks of that peer |
| SmoothSchedule.PrefixSmooth | ng-go/src/stream/upstream_round_robin.go:526-594 | after any number of picks no peer is ahead of its share by a whole pick |
| SmoothSchedule.FairRounds | ng-go/src/stream/upstream_round_robin.go:526-594 | t rounds choose every peer exactly t times its share and bring all current weights back to 0, for any number of peers |
| SmoothSchedule.Periodic | ng-go/src/stream/upstream_round_robin.go:526-594 | the schedule repeats itself after one round |
| RoundRobin.MaskValue | ng-go/src/stream/upstream_round_robin.go:544 | the mask as Go reads it: one bit for each of the first six peers, nothing for the others |
| RoundRobin.HighPeersAlwaysTried | ng-go/src/stream/upstream_round_robin.go:543-547 | a peer from the seventh on always counts as tried |
| RoundRobin.FreshTriedExactly | ng-go/src/stream/upstream_round_robin.go:543-547 | a new request counts exactly those peers as tried |
| RoundRobin.MarkAddsOne | ng-go/src/stream/upstream_round_robin.go:582-585 | marking one of the first six peers adds that peer and no other |
| RoundRobin.UpstreamGetPeer | ng-go/src/stream/upstream_round_robin.go:526-594 | picks the first maximum of the raised weights among the eligible peers, and leaves every peer, the tried set and the current peer as specified; nothing changes when nobody is eligible |
| RoundRobin.UpstreamGetRoundRobinPeer | ng-go/src/stream/upstream_round_robin.go:440-524 | a peer gets a connection and its name is returned, or BUSY with the name of the list and no connection counted |
| RoundRobin.UpstreamFreeRoundRobinPeer | ng-go/src/stream/upstream_round_robin.go:596-661 | the whole state of the freed peer, after success and after failure, of a single and of several peers |
| RoundRobin.UpstreamNotifyRoundRobinPeer | ng-go/src/stream/upstream_round_robin.go:663-684 | only a connect event of a checked peer clears its failures |
| RoundRobin.UpstreamInitRoundRobin | ng-go/src/stream/upstream_round_robin.go:73-196 | one unused peer for every address of every primary server in order, their number, total weight, and the single and weighted marks; ERROR exactly without primaries |
| RoundRobin.PrimariesUnused | ng-go/src/stream/upstream_round_robin.go:117-124 | every peer starts at full weight with nothing counted |
| RoundRobin.PeerOfAddress | ng-go/src/stream/upstream_round_robin.go:106-130 | each address of a primary server has its peer at its place, with the settings of the server |
| RoundRobinRuns.PickIsSpin | ng-go/src/stream/upstream_round_robin.go:539-587 | the loop over peers is one spin of the weights, also while effective weights recover |
| RoundRobinRuns.GetKeepsSum | ng-go/src/stream/upstream_round_robin.go:440-524 | no Get changes the sum of the current weights, whoever is eligible |
| RoundRobinRuns.NextAccounted | ng-go/src/stream/upstream_round_robin.go:440-684 | every step of every request keeps the accounts: weights sum to zero, effective weights are in range, connections are counted, nobody got a peer twice |
| RoundRobinRuns.ReachableAccounted | ng-go/src/stream/upstream_round_robin.go:440-684 | the accounts are right in every reachable state, under any interleaving of requests |
| RoundRobinRuns.PickedWasUntried | ng-go/src/stream/upstream_round_robin.go:543-547 | a request never gets the same peer of several twice |
| RoundRobinRuns.HighPeersNeverPicked | ng-go/src/stream/upstream_round_robin.go:544-547 | no run ever picks a peer from the seventh on |
| RoundRobinFairness.SteadyRun | ng-go/src/stream/upstream_round_robin.go:440-684 | while the same peers stay eligible and no connection fails, a run follows the schedule, whoever makes the picks and frees |
| RoundRobinFairness.FairRun | ng-go/src/stream/upstream_round_robin.go:440-684 | such a run serves every eligible peer exactly by weight in every whole number of rounds, and ends as it began |
| RoundRobinFairness.SmoothRun | ng-go/src/stream/upstream_round_robin.go:440-684 | at every moment of such a run no peer is ahead by a whole pick |
| RoundRobinFairness.PeriodicRun | ng-go/src/stream/upstream_round_robin.go:440-684 | such a run repeats itself after one round |
| RoundRobinFairness.FairToAllIffAtMostSix | ng-go/src/stream/upstream_round_robin.go:526-594 | whole rounds of first picks, all peers usable, serve every peer by weight if and only if there are at most six peers |
| RoundRobinFairness.FreshRunsExist | ng-go/src/stream/upstream_round_robin.go:440-594 | there are such runs of every length for every list of unlimited peers |
| RoundRobinFairness.Recovery | ng-go/src/stream/upstream_round_robin.go:566-568 | without failures a peer regains one unit of weight for each round it is eligible in, up to its weight and no further |
| RoundRobinHealth.EligibleIffNotKeptBack | ng-go/src/stream/upstream_round_robin.go:539-561 | in every run on a list of several, a peer is eligible for a request unless the request has got it, it is past the sixth, marked down, at its connection limit, or failed maxFails times with its last check not longer ago than failTimeout |
| RoundRobinHealth.BusyIffAllKeptBack | ng-go/src/stream/upstream_round_robin.go:440-524 | a request is told BUSY exactly when every peer is kept back from it for one of these reasons |
| RoundRobinHealth.PickedIsBest | ng-go/src/stream/upstream_round_robin.go:563-573 | of the peers not kept back the one picked has the largest sum of current and effective weight, and is the first such |
| RoundRobinHealth.SingleBusyIff | ng-go/src/stream/upstream_round_robin.go:458-470 | a list of one peer refuses exactly when that peer is down or at its limit |
| RoundRobinHealth.DownNeverPicked | ng-go/src/stream/upstream_round_robin.go:549-551 | no run ever picks a peer that is marked down |
| RoundRobinHealth.FailedStaysOut | ng-go/src/stream/upstream_round_robin.go:553-557 | after maxFails failures, none cleared, a peer is not picked until failTimeout has passed since the last one |
| RoundRobinHealth.OneProbeAtATime | ng-go/src/stream/upstream_round_robin.go:589-591 | then it is picked once, and not again for failTimeout unless that attempt ends |
| RoundRobinHealth.NextFails | ng-go/src/stream/upstream_round_robin.go:622-654 | failures are counted one by one, and cleared exactly by a success or connect after a check later than the last failure |
| RoundRobinHealth.NextChecked | ng-go/src/stream/upstream_round_robin.go:589-627 | the time of the last check moves with a failure and with a pick after failTimeout, and else not |
| RoundRobinHealth.FailureCosts | ng-go/src/stream/upstream_round_robin.go:629-643 | a failure costs the whole part of weight over maxFails, or all there is left |
| SlotHandoff.InitInv | thread/thread_server01.c:137-163 | the pool starts with as many workers as asked for, or 4, in a state that satisfies the invariant |
| SlotHandoff.NextInv | thread/thread_server01.c:176-224 | every statement of every thread, and every spurious wakeup, keeps mutual exclusion, the guards, no lost wakeup, FIFO order and processing exactly once |
| SlotHandoff.ReachableInv | thread/thread_server01.c:176-224 | the invariant holds in every reachable state, for any number of workers |
| SlotHandoff.NeverAllAsleep | thread/thread_server01.c:184-216 | never do the acceptor and all workers sleep while a connection is published or held |
| SlotHandoff.StuckIsIdle | thread/thread_server01.c:176-224 | if no thread can move by itself, every accepted connection has been taken, in order, and processed once |
| SlotHandoff.QuietStepWorks | thread/thread_server01.c:176-224 | every step that is not an arrival or a spurious wakeup leaves less work |
| SlotHandoff.QuietRunsDrain | thread/thread_server01.c:176-224 | under any scheduler the pool drains within a bound and then is idle |
| FdRing.RoomMeans | thread/thread_server02.c:190-198 | a ring with room holds fewer connections than the places it has |
| FdRing.PutAppendsIffRoom | thread/thread_server02.c:240-244 | a put with its lazy wrap appends to the pending connections exactly when there is room; otherwise it leaves at most itself |
| FdRing.GetTakesOldest | thread/thread_server02.c:195-198 | a get with its lazy wrap takes the oldest pending connection |
| FdRing.EmptyIffIndicesMeet | thread/thread_server02.c:190 | the indices are equal exactly when nothing is pending |
| FdRing.Fds.PutSock | thread/thread_server02.c:240-244 | the array and the put index after a put |
| FdRing.Fds.GetSock | thread/thread_server02.c:195-198 | the connection and the get index after a get |
| RingHandoff.InitInv | thread/thread_server02.c:139-165 | the pool starts with as many workers as asked for, up to 128, or 128, in a state that satisfies the invariant |
| RingHandoff.NextInv | thread/thread_server02.c:177-252 | every step that finds room keeps mutual exclusion, FIFO order, enough workers awake, and processing exactly once |
| RingHandoff.ReachableInv | thread/thread_server02.c:177-252 | so does every run whose puts find room: at least as many workers are awake as connections are announced, or all of them |
| RingHandoff.OverrunLoses | thread/thread_server02.c:240-244 | a put without room loses every pending connection |
| RingHandoff.FifoIffRoom | thread/thread_server02.c:240-244 | a step from a reachable state keeps the order of connections if and only if its put finds room |
| RingHandoff.OverrunReachable | thread/thread_server02.c:226-252 | with any number of workers there is a run, all its puts with room, that ends with the acceptor about to put into a full ring |
| RingHandoff.StuckIsIdle | thread/thread_server02.c:177-252 | no connection is left in the ring with all workers asleep |
| RingHandoff.QuietRunsDrain | thread/thread_server02.c:177-252 | under any scheduler the pool drains within a bound and then is idle |
| PoolThreads.HeldUpdate | thread/thread_server01.c:187-194 | what one worker takes or finishes changes what all workers hold by exactly that |
| ExprContainers.Queue.constructor | gurl/gurlib/cal.go:42-51 | an empty queue with at least one place |
| ExprContainers.Queue.Put | gurl/gurlib/cal.go:53-68 | appends unless the ring is full, and refuses exactly then |
| ExprContainers.Queue.Get | gurl/gurlib/cal.go:70-87 | removes the oldest item, and fails exactly on an empty ring |
| ExprContainers.Stack.Pop | gurl/gurlib/cal.go:15-22 | removes the newest item, and fails exactly on an empty stack |
| ExprMachine.ParseExpr | gurl/gurlib/conf.go:164-186 | the tokens of the whole text |
| ExprMachine.Expr.ToSuffix | gurl/gurlib/cal.go:129-193 | the output queue holds as much of the suffix form as fits, the operator stack is empty; it panics exactly on an unmatched bracket |
| ExprMachine.Expr.CalVal | gurl/gurlib/cal.go:231-293 | leaves the value of the queued items, with 64-bit wrap-around, or panics exactly as evaluation does |
| ExprMachine.Num | gurl/gurlib/conf.go:188-196 | the value, nil or panic of the whole pipeline |
| ExprLanguage.OutputIsPostfix | gurl/gurlib/cal.go:129-193 | for every well-formed expression the conversion puts out the postfix form of one tree, CodeTree |
| ExprLanguage.TailRuns | gurl/gurlib/cal.go:157-177 | operators of equal priority nest to the left, every change of priority nests to the right |
| ExprPrecedence.StandardIffNonFalling | gurl/gurlib/cal.go:160-177 | that tree is the one of standard precedence if and only if priorities never fall from left to right inside a bracket group |
| ExprResults.PostfixEvaluates | gurl/gurlib/cal.go:231-287 | evaluating the postfix form of a tree pushes its meaning, and panics exactly when it has none |
| ExprResults.StackParity | gurl/gurlib/cal.go:231-287 | the height of the stack has the parity of the number of items |
| ExprResults.DroppedItemsPanic | gurl/gurlib/cal.go:53-56 | once the full queue has dropped an item, evaluation always panics and never yields a wrong value |
| ExprResults.TokensFromIsTokens | gurl/gurlib/conf.go:164-186 | reading a number and the operator after it in one turn reads the same tokens as reading one after the other |
| ExprResults.LayoutReadBack | gurl/gurlib/conf.go:164-186 | tokens laid out with any blanks that keep numbers apart are read back |
| ExprResults.EveryTextIsLaidOut | gurl/gurlib/conf.go:164-186 | every text is its tokens with blanks between them: nothing else is dropped |
| ExprResults.NumComputesCodeTree | gurl/gurlib/conf.go:188-196 | for every well-formed expression in any layout: the meaning of CodeTree if it fits the queue and has a meaning, else a panic |
| ExprResults.NumComputesStandard | gurl/gurlib/conf.go:188-196 | the value of standard arithmetic for every expression whose priorities never fall inside a bracket group |
| ExprResults.FallingPriorityExample | gurl/gurlib/cal.go:175-176 | the text 2*3+1 is evaluated to 8 |
| ExprValues.StandardValuesIffNonFalling | gurl/gurlib/cal.go:157-177 | an expression has its standard value with all literals if and only if its priorities never fall inside a bracket group |
| ExprValues.NumMisreads | gurl/gurlib/conf.go:188-196 | with a fall of priorities there are literals for which the expression has a standard value and the pipeline does not yield it in any layout |
| ExprArithmetic.Characters | gurl/gurlib/cal.go:104-127 | the digits, the operators and the two priorities |
| ExprArithmetic.MeaningEvaluates | gurl/gurlib/cal.go:243-264 | every tree has one value, and it follows from its digits and from sums, differences and products modulo 2^64, quotients truncated toward zero and remainders with the sign of the dividend |
| ExprArithmetic.NumEvaluates | gurl/gurlib/conf.go:188-196 | the pipeline yields v for an expression that fits exactly when the tree it reads has the value v |
| ExprArithmetic.NumEvaluatesStandard | gurl/gurlib/conf.go:188-196 | and, without a fall of priorities, exactly when the standard tree has it |
| ExprArithmetic.NumOfTwo | gurl/gurlib/cal.go:250-264 | what two operands and an operator yield, from what the operands yield alone |
| ExprArithmetic.NumDivides | gurl/gurlib/cal.go:259-263 | quotient times divisor and remainder make the dividend, the remainder is smaller than the divisor and has the sign of the dividend; a zero divisor panics, the least integer over -1 wraps |
| ExprArithmetic.Truncates | gurl/gurlib/cal.go:259-263 | 7 by 3, -7 by 2 and 7 by -2 |
| ExprBrackets.UnmatchedPanics | gurl/gurlib/cal.go:129-193 | a text whose brackets do not match panics, wherever they stand and however long it is |
| JumpHash.JumpGoesForward | test_hash/jump_consistent_hash.c:23 | every jump is past the bucket it starts from, and within 64-bit integers |
| JumpHash.JumpConsistentHash | test_hash/jump_consistent_hash.c:18-26 | the loop ends with the bucket of the jump sequence, and with -1 without buckets |
| JumpHash.JumpInRange | test_hash/jump_consistent_hash.c:18-26 | the bucket is one of the n |
| JumpHash.MinimalMovement | test_hash/jump_consistent_hash.c:18-26 | with more buckets a key stays or moves to a new bucket; with one more, only to that one |
| JumpHash.JumpIsLastLanding | test_hash/jump_consistent_hash.c:20-24 | the bucket for n is the last landing below n of one jump sequence that does not depend on n |
| JumpBalance.JumpBelowIff | test_hash/jump_consistent_hash.c:22-23 | without rounding a jump from b stays below n exactly when b + 1 over n is less than one more than the top 31 bits of the key over 2^31 |
| JumpBalance.JumpNearProduct | test_hash/jump_consistent_hash.c:23 | with any rounding it lands on the product of b + 1 and the rounded quotient, up or down to a whole number |
| JumpBalance.OnlyTopBits | test_hash/jump_consistent_hash.c:23 | only the top 31 bits of the key matter |
| JumpBalance.BeyondCounted | test_hash/jump_consistent_hash.c:23 | of their 2^31 values a share of (b + 1)/n, to within one value, carries the jump from b to n or beyond |
| JumpBalance.SharesBalance | test_hash/jump_consistent_hash.c:18-26 | with these shares each of n buckets is the last landing of one key in n |
| JumpBalance.KeyClosed | test_hash/jump_consistent_hash.c:22 | the i-th key is the i-th power of the multiplier times the key plus the geometric sum, modulo 2^64 |
| LinkedQueue.QueueHead.Put | mini_ant/src/ant_queue.c:34-44 | appends to the linked queue |
| LinkedQueue.QueueHead.Get | mini_ant/src/ant_queue.c:46-53 | removes the oldest element |
| LinkedQueue.QueueHead.JoinInit | mini_ant/src/ant_queue.c:56-74 | appends all of the second queue in order and leaves it empty, also when either is empty |
| Frontier.TotalContext.LookUp | mini_ant/src/mini_ant.c:740-777 | what url_add finds out about a domain outside its locks |
| Frontier.TotalContext.ParkUrl | mini_ant/src/mini_ant.c:783-785 | the append to a waiting queue; it finds the queue exactly if the domain is not resolved |
| Frontier.TotalContext.UrlAdd | mini_ant/src/mini_ant.c:727-788 | the whole shared state after adding a URL of an unknown, a waiting or a known domain without interruption |
| Frontier.TotalContext.MarkHost | mini_ant/src/ant_dns.c:290-306 | only a good response for a waiting domain sets its flag, and nothing else changes |
| Frontier.TotalContext.SpliceHost | mini_ant/src/ant_dns.c:308-320 | the waiting URLs join the download queue, in order, and no other domain changes |
| Frontier.TotalContext.ProcessCacheDns | mini_ant/src/ant_dns.c:285-327 | the whole shared state after a response that is processed without interruption |
| Frontier.TotalContext.TakeUrl | mini_ant/src/mini_ant.c:331-342 | takes the oldest URL of the download queue |
| Frontier.TotalContext.TakeDomain | mini_ant/src/ant_dns.c:541-550 | takes the oldest domain to be looked up |
| Frontier.CacheVal.Release | mini_ant/src/ant_dns.c:308-320 | the entry of a domain is left without a queue of its own |
| FrontierRuns.ReachableInv | mini_ant/src/mini_ant.c:727-788 | after any interleaving of the steps of both threads: each domain is announced for lookup once, no URL of it appears or vanishes but for a lost one, and its flag is ahead of its queue only during the splice |
| FrontierRuns.ConservedUnlessLost | mini_ant/src/mini_ant.c:727-788 | every URL was added as often as it was taken, is queued, waits and is in hand, together, exactly unless it is the lost one |
| FrontierRuns.ConservedIffNotStraddled | mini_ant/src/mini_ant.c:777-785 | every append finds its queue, and URLs are conserved, if and only if no good response takes the waiting queue away between a test that saw it and the append of that test |
| FrontierRuns.OrderIffNotReordered | mini_ant/src/mini_ant.c:777-781 | a step keeps the order within each domain if and only if it does not queue a URL before different ones that are about to be spliced |
| FrontierRuns.OrderlyRunsKeepOrder | mini_ant/src/mini_ant.c:727-788 | without such steps the URLs of a domain are taken, queued and waiting in the order in which they were added |
| FrontierRuns.ResolvedForGood | mini_ant/src/ant_dns.c:296-319 | a resolved domain stays resolved, and all its URLs are queued or taken but for the one in hand or lost |
| FrontierRuns.OtherResponseIgnored | mini_ant/src/ant_dns.c:292-302 | a response with other flags than 0x8180, or for a domain that does not wait, changes nothing |
| FrontierRuns.GoodResponseMarks | mini_ant/src/ant_dns.c:296-306 | one with these flags for a waiting domain marks it and changes nothing else |
| FrontierRuns.KnownIffAnswered | mini_ant/src/ant_dns.c:285-327 | in every run the address of a domain is known exactly if a response with the flags 0x8180 has come for it since its entry was made |
| FrontierRuns.UninterruptedAdd | mini_ant/src/mini_ant.c:727-788 | the steps of url_add, taken together, are the whole function |
| FrontierRuns.UninterruptedAnswer | mini_ant/src/ant_dns.c:285-327 | and so are those of process_cache_dns |
| FrontierRuns.LosingRun | mini_ant/src/mini_ant.c:777-785 | a run in which the append does not find its queue |
| FrontierRuns.OvertakingRun | mini_ant/src/mini_ant.c:777-781 | a run in which a URL is queued before an earlier one of its domain |
| IntText.Int2Str | GAS/int2str.c:6-40 | the buffer holds the printed number and its terminator and nothing else has changed; 33 characters of scratch are enough |
| IntText.AntItoa | corecode/ant_string.c:79-107 | the backward fill yields the same string for bases 2 to 16 |
| IntText.NegationIsMagnitude | GAS/int2str.c:20-23 | negating the least integer wraps and is still the right magnitude |
| IntText.DigitsLength | GAS/int2str.c:8 | a 32-bit number has at most 32 digits in any base |
| IntText.Str2Int | GAS/str2int.c:10-57 | white space, sign, prefix, digits and wrap-around as parsed |
| IntText.ParseIsHorner | GAS/str2int.c:43-54 | the digit loop yields the Horner value modulo 2^32 in two's complement, for strings of any length |
| IntText.ParsedIsHorner | GAS/str2int.c:10-57 | so does the whole function for every digit string without a leading zero |
| IntText.ParsedNegative | GAS/str2int.c:24-56 | a sign negates that value, modulo 2^32 |
| IntText.HornerOfDigits | GAS/int2str.c:25-28 | the digits printed have the value printed, and begin with 0 only for 0 |
| IntText.RoundTrip | GAS/str2int.c:10-57 | parsing what was printed in the same base gives every 32-bit integer back, the least one included |
| IntPrefixes.PrintedWrites | GAS/int2str.c:19-34 | what is printed, character by character: a minus sign only in base 10, and the digits without leading zeros |
| IntPrefixes.DigitValueReads | GAS/str2int.c:45-50 | which characters are digits, and of which value |
| IntPrefixes.TextParsed | GAS/str2int.c:10-57 | white space, a sign, a prefix and digits, whatever follows: the number they denote in the base, or in that of the prefix for base 0, modulo 2^32 |
| IntPrefixes.OtherBases | GAS/str2int.c:16-17 | a base out of range gives 0 |
| Octets.Be32Read | thread/proto.h:25-42 | reading four octets in network byte order undoes writing them |
| Octets.Be64Read | thread/proto.h:82-119 | and so for eight octets |
| Octets.Be32Order | thread/proto.h:25 | the most significant octet comes first |
| Octets.Be64Order | thread/proto.h:82-86 | and so for eight octets |
| ByteOrder.SwapReverses | thread/proto.h:61-71 | the macro reverses the eight octets |
| ByteOrder.SwapTwice | thread/proto.h:61-71 | swapping twice changes nothing |
| ByteOrder.SignedSwapIff | thread/proto.h:61-71 | on a signed operand the macro is right if and only if it is not negative or its lower seven octets are all ones |
| Framing.ProtoEncode | thread/proto.h:17-35 | writes the frame and moves the offset past it, refuses exactly on its length check, and overruns exactly when the header is what does not fit |
| Framing.Push | thread/proto.h:73-103 | writes bytes, or an integer in network byte order, as one frame |
| Framing.PushAll | thread/proto.h:90-103 | a list of fields that fits with its headers is written as the message, and the offset is its length |
| Framing.PushHead | thread/proto.h:17-33 | the offset in network byte order goes before the message, and nothing else changes; refused exactly when the length leaves no room for it |
| Framing.ProtoDecode | thread/proto.h:37-52 | the payload at the offset and the offset after it, or a refusal, or an access past the end |
| Framing.DecodedMeans | thread/proto.h:37-52 | refused at or past the end of the message and for a payload longer than the room, past the end of the buffer as it stands there, else exactly the octets that the header counts |
| Framing.Pop | thread/proto.h:105-121 | one field of the kind asked for |
| Framing.PushedIsPopped | thread/proto.h:90-121 | the pops that match any list of pushes give the list back, and the offset ends where the message does |
| Framing.PopAll | thread/proto.h:105-121 | a list of pops reads what the model of pops says, and so the fields of any message that lies there |
| FrameStream.Readn | thread/proto.h:148-170 | reads exactly the octets asked for unless the stream ends or a read fails, however reads are split or interrupted |
| FrameStream.Readvrec | thread/proto.h:172-210 | the payload of the next frame, and the stream after it; 0 for an empty frame, and for an incomplete one, which is used up |
| FrameStream.ReadAll | thread/proto.h:172-210 | repeated calls yield the payloads up to the first that yields none |
| FrameStream.FramesRead | thread/proto.h:172-210 | of a concatenation of frames, the payloads before the first empty one |
| FrameStream.SameSequenceIff | thread/proto.h:172-210 | the same sequence of payloads if and only if none is empty |
| FrameStream.FieldsArrive | thread/proto.h:96-121 | a message sent as a frame comes out as the fields that were pushed |
| DnsCodec.SetQname | mini_ant/src/ant_dns.c:174-215 | fills a buffer of strlen + 2 octets with every label after its length, and a final 0 |
| DnsCodec.QnameOfLabels | mini_ant/src/ant_dns.c:174-215 | the encoding of a name of labels: each after an octet with its length, and a final 0 (section 3.1 of RFC 1035) |
| DnsCodec.ReadHostText | mini_ant/src/ant_dns.c:125-131 | the labels up to the final 0, each with a dot, and the position of that 0, or a read past the end |
| DnsCodec.GoodLabelsRead | mini_ant/src/ant_dns.c:125-132 | labels of 1 to 127 octets are read back, whatever follows |
| DnsCodec.NameRoundTrip | mini_ant/src/ant_dns.c:125-215 | a name survives encoding and decoding if and only if each label has between 1 and 127 octets (section 3.1 of RFC 1035 allows 63) |
| DnsPackets.SetDnsPackets | mini_ant/src/ant_dns.c:51-93 | the whole query packet and its length (sections 4.1.1 and 4.1.2 of RFC 1035) |
| DnsPackets.QueryOctets | mini_ant/src/ant_dns.c:51-93 | the query octet by octet: identifier, flags, one question, no records, name, type and class |
| DnsPackets.ParseDnsPackets | mini_ant/src/ant_dns.c:96-171 | flags, host name and addresses as read, the return value, and what stays of the old addresses |
| DnsPackets.ReadAddresses | mini_ant/src/ant_dns.c:144-169 | the addresses the answer loop stores, or a read past the end |
| DnsPackets.AddressesFound | mini_ant/src/ant_dns.c:144-169 | for any list of records with compressed names, the first four A addresses in order, every other record skipped (section 4.1.3 of RFC 1035) |
| DnsPackets.ResponseRead | mini_ant/src/ant_dns.c:96-171 | from any response: its flags, the name asked for, and, when the flags are 0x8180, those addresses |
| DnsPackets.QueryRead | mini_ant/src/ant_dns.c:51-171 | a query read back gives its name and the flags of a query |
| ChainedHash.HashTable.constructor | mini_ant/src/ant_hash.c:26-47 | an empty table of m buckets |
| ChainedHash.HashTable.Lookup | mini_ant/src/ant_hash.c:107-168 | the element of the key and the one before it in its chain, or none exactly when the key is not in the map |
| ChainedHash.HashTable.Get | mini_ant/src/ant_hash.c:74-79 | the value of the map, and NULL for a missing key |
| ChainedHash.HashTable.Put | mini_ant/src/ant_hash.c:49-72 | the map with the key set, and the value before |
| ChainedHash.HashTable.Del | mini_ant/src/ant_hash.c:81-105 | the map without the key, and the value it had |
| ChainedHash.HashTable.LengthIsSize | mini_ant/src/ant_hash.c:64-102 | length is the size of the map |
| ChainedHash.InsertOwned | mini_ant/src/ant_hash.c:55-64 | after an insertion every chain still holds elements of distinct keys that hash to its bucket, and every key is in its chain |
| ChainedHash.UnlinkOwned | mini_ant/src/ant_hash.c:91-102 | and so after a deletion |
| ChainedHashRuns.Run | mini_ant/src/ant_hash.c:49-105 | any sequence of puts, gets and deletions answers as a finite map and leaves its contents |
| ChainedHashRuns.AntHash | mini_ant/src/ant_hash.c:8-24 | the default hash function: 31 times the sum of the bytes modulo 2^32, modulo the number of buckets |
| ChainedHashRuns.RearrangedKeysCollide | mini_ant/src/ant_hash.c:8-24 | keys that are rearrangements of each other share a bucket, for every number of buckets |
| LooksUtf8.FileLooksUtf8 | mini_ant/src/ant_look.c:44-91 | returns the verdict on what the scan finds |
| LooksUtf8.TableIsPlainText | mini_ant/src/ant_look.c:7-28 | the table marks BEL, BS, HT, LF, FF, CR, ESC and the printable characters |
| LooksUtf8.SkipCharacter | mini_ant/src/ant_look.c:61-86 | one character of several octets: rejected, cut off by the end, or complete |
| LooksUtf8.ScanReads | mini_ant/src/ant_look.c:44-91 | what is not rejected is a sequence of characters and perhaps a cut-off one (section 2 of RFC 2279) |
| LooksUtf8.ReadsScan | mini_ant/src/ant_look.c:44-91 | however it is read so, it is accepted, with its controls and its characters of several octets found |
| LooksUtf8.VerdictMeans | mini_ant/src/ant_look.c:30-91 | -1 iff the buffer begins no text; else 0 iff an odd control character occurs, 2 iff a character of several octets is complete, 1 otherwise |
| GrowableBuffer.AntBuf.constructor | mini_ant/src/ant_buf.c:7-25 | an empty buffer of the given length |
| GrowableBuffer.AntBuf.Grow | mini_ant/src/ant_buf.c:43-58 | at least doubles the length, keeps the contents, and counts the bytes copied |
| GrowableBuffer.AntBuf.Append | mini_ant/src/ant_buf.c:27-65 | appends the bytes; the length stays, starts, or at least doubles |
| GrowableBuffer.AntBuf.Clear | mini_ant/src/ant_buf.c:74-78 | zeroes and empties the buffer and keeps its length |
| GrowableBuffer.Replay | mini_ant/src/ant_buf.c:18-78 | over any appends and clears from any initial length: the contents, at most two bytes copied per byte appended, and a length of at most twice the bytes appended plus one unless it never grew |
| CharBits.BitSet.Set | char_engine/str_match.c:20-23 | adds one character to the set |
| CharBits.BitSet.Rev | char_engine/str_match.c:34-42 | the complement |
| CharMatch.SkipDigits | char_engine/str_match.c:67-76 | passes the longest run of digits within the width |
| CharMatch.SkipFloat | char_engine/str_match.c:120-143 | passes digits, a point and digits within the width |
| CharMatch.SetRange | char_engine/str_match.c:88-93 | adds the range without its upper end, by signed codes, and reaches that end exactly when the range ascends |
| CharMatch.ReadSet | char_engine/str_match.c:87-98 | the set of a bracket expression, or a loop without progress |
| CharMatch.TryGroup | char_engine/str_match.c:145-176 | the first alternative that fits and where the format goes on, or none |
| CharMatch.StrMatch | char_engine/str_match.c:48-206 | the result is that of the recursive reading of the format, for every string and every format, with endless loops and reads past the format told apart |
| MatchLanguage.ItemsListed | char_engine/str_match.c:87-98 | a list of characters and ranges stands for exactly their characters, upper ends included, if every range ascends; if one descends, wherever it stands, the loop never ends |
| MatchLanguage.ClassRead | char_engine/str_match.c:87-106 | the set of a bracket expression holds the characters that some item holds, and after a caret those below 256 that none does |
| MatchLanguage.WidthIsNumber | char_engine/str_match.c:60-61 | a width is read as its decimal number |
| MatchLanguage.BracketRead | char_engine/str_match.c:78-118 | such a directive, with or without a caret and a width, passes the longest run of its class, or never ends |
| MatchLanguage.GroupIffCovered | char_engine/str_match.c:149-169 | a group stands for its first fitting alternative on every string if and only if every stray alternative after it begins with one of its own |
| MatchLanguage.MatchIsGreedy | char_engine/str_match.c:48-206 | on every well-formed format the matcher hangs exactly where the greedy reading of its directives meets a descending range, and else matches exactly as that reading |
| MatchResults.MatchIsSound | char_engine/str_match.c:48-206 | it returns 1 only if the whole string splits into pieces, one in the language of each directive |
| MatchResults.MatchIsComplete | char_engine/str_match.c:48-206 | on a deterministic format it returns 1 for exactly the strings of the language |
| MatchResults.CompleteIffDeterministic | char_engine/str_match.c:48-206 | on formats in which literals separate what varies: it returns 1 for exactly the language if and only if the format is deterministic, and else misses a shortest string of it |
| MatchResults.LeastIsBytes | char_engine/str_match.c:48-206 | that shortest string is a C string if the format is one |
| MatchResults.TwoRunsComplete | char_engine/str_match.c:67-76 | %d%d is complete although it is not deterministic |
| MatchResults.EndsIffAscending | char_engine/str_match.c:87-98 | on a deterministic format it ends on every string if and only if no range descends |
| MatchResults.BrokenOverruns | char_engine/str_match.c:60-66 | a format that breaks off after a percent sign and a width is read past its end, whatever the string |
| MatchResults.OverrunsBroken | char_engine/str_match.c:48-206 | no other format is: one read past its end ends in such a piece |
| MatchResults.StrayAlternative | char_engine/str_match.c:163-168 | without the condition on stray alternatives it is not sound |
| MatchResults.GreedyMisses | char_engine/str_match.c:67-76 | %d1 does not match 1 |

## Left out

- RoundRobin.UpstreamInitRoundRobin: the list of backup servers is built but never linked (its link is commented out), so only its effect on the `single` mark is modelled; the upstream implied by a URL and the per-request set-up are not part of this model.
- RoundRobin.UpstreamGetRoundRobinPeer: no backup list, for the same reason; the peer slice hangs on the list, `data` is the same object in every call, and the time is a parameter where the port writes 0.
- JumpHash.JumpConsistentHash: the double arithmetic is real arithmetic followed by any rounding that is monotone and exact on the integers a double holds, which IEEE rounding is; bit-level double arithmetic is not modelled.
- SlotHandoff.ReachableInv: errors returned by the pthread functions, thread creation, and memory reordering (all shared data is under the mutex) are not modelled.
- RingHandoff.ReachableInv: the same, and failing `inet_ntop`, which ends the acceptor.
- Frontier.TotalContext.UrlAdd: the domain and normalised text of a URL are given, so splitting and normalising URLs, IP literals and time stamps are not modelled.
- Frontier.TotalContext.ProcessCacheDns: the addresses that are copied into the entry are not modelled.
- FrontierRuns.ReachableInv: a critical section is one step; `url_add` appends to a waiting queue under another lock than the one under which the resolver splices it, so the two can also meet inside of one operation on the linked list, which is not modelled.
- MatchResults.CompleteIffDeterministic: where what varies is followed by something else that can be empty, determinism is enough but not needed (`TwoRunsComplete`), and no exact condition is given.
- CharMatch.StrMatch: widths are unbounded integers.
- MatchLanguage.MatchIsGreedy: for whole formats the condition on bars is shown sufficient, and necessary only group by group.
- Framing.ProtoEncode: offsets and lengths are unbounded integers below the 32-bit header; `PUSH` writes four octets into its buffer, which is modelled as the buffer from there on.
- FrameStream.Readvrec: the doubling of the buffer size is on unbounded integers, and what a failed read leaves behind is left open.
- DnsCodec.SetQname: lengths of host names and packets are not bounded, as the source does not check them.
- DnsPackets.ParseDnsPackets: owner names that are not two-octet pointers are read as such, as in the source; nothing is proved about responses that use others.
- ChainedHash.HashTable.Put: keys are values; that the table stores the caller's pointer and frees it on deletion is not modelled.
- GrowableBuffer.AntBuf.Append: lengths are unbounded integers and allocation never fails.
- Sockets, epoll, files, logging, memory allocation failures, and NUL terminators beyond the printed integers.
- The URL de-duplication set of the crawler and its HTTP client.
- `rbtree`, `datrie`, `coreutils`, `chowder`, `processpool`, the URL parser and the other programs: unfinished ports, operating-system glue, or code that would only add easy members.
