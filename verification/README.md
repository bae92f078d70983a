# Verification of the LEAP stablecoin system

A Dafny 4.11 model of the stablecoin system's execution path and of three
pieces of its consensus, with proofs. `dafny verify dfyconfig.toml` checks the
whole project.

## What is modelled

**The LEAP parallel executor** (`State`, `Protocol`). The Block-STM protocol is
a transition system: one program counter per worker, one step per atomic
operation or lock-protected section, shared memory as one record. A worker's
program counter says where it is in `next_task`, `check_done`, `execute_one`,
`finish_execution`, `validate_one` or `finish_abort`; a worker holds a
`TaskGuard` exactly when it is past the creation of the guard. `Config` fixes
the block, the number of workers, the backpressure window and the segment
table, all arbitrary. A transaction is an arbitrary deterministic function of
the values it reads that ends after finitely many reads. Panics, failed
assertions and out-of-range indices are a step to a `Panicked` program counter.

A *run* is a finite sequence of states from the initial one, one step of one
worker after the other (`IsRun`); for statements about what happens eventually
it is an infinite sequence that repeats its last state once all workers have
returned (`Forever`). Statements about runs therefore cover every interleaving.

The proof keeps one inductive invariant (`Runs.Inv`) made of parts with a
module each: who holds which transaction (`Ownership`), what memory holds at
each index (`Footprint`), what the captured reads mean (`ReadLog`), which
invalid reads are still going to be noticed (`Coverage`), which ready or parked
transactions are still going to be picked up (`Progress`), and what each load
of the double collect has established (`Termination`). `Settling` adds a
lexicographic weight per transaction that every piece of work makes lighter;
`Liveness`, `Fairness` and `FairRuns` build termination on it. `Revalidation`
says what moves the indices back.

**The stablecoin ledger** (`Stablecoin`, `HotDelta`, `Hotspots`, `Sharding`,
`Supply`). `execute_transaction` is given as a transaction of the protocol, with
and without Hot-Delta shards, and related to the plain serial ledger.
`Execution` joins both halves: from a finished run, over the collected outputs,
to the state the callers rebuild. `Speculation`, `SpeculativeBurn` and
`SelfPayment` are about single incarnations, which may read a state that no
serial execution has.

**Ordering and plan** (`Cado`, `Interleave`, `Rounds`, `Ordering`, `DomainPlan`,
`Throttling`). The two CADO orderings with an arbitrary domain hash, the domain
plan, and what both mean for the scheduler. `Agreement` is the statement for
replicas: same transactions in any order of arrival, any interleaving, same
state.

**Consensus pieces** (`PendingVotes`, `VoteHistory`, `Recovery`, `Quorum`). Vote
aggregation for one round, one-pass pruning of the recovered block tree, and quorum
intersection. Digests and signatures are opaque numbers.

Loops of the source that update variables are methods proved against the
functions the lemmas are about. The multi-version hash map, the outcome array,
the hot-delta manager and the pending votes are classes.

Where the code and its comments differ, the model follows the code. In
particular a transfer from an account to itself credits a balance that was read
before the debit, and `verify` of a certificate does not look at who voted
(`Quorum.RepeatedVoter`), so the theorems that need it ask for enough committee
members among the voters; `Quorum.MeetsEveryQuorumIff` says how many are enough.
The supply is subtracted from without a check (`Supply.FundedThenBurnt`);
`Supply.BurnsSafeIff` and `Supply.SupplyNonNegativeIff` say when that is safe.

## Model

| member | source | states |
|---|---|---|
| `Fairness.FairRunsFinish` | leap/src/executor.rs:276-357 | Total correctness under weak fairness: if no worker that can go on is passed over for ever, all workers return, every transaction is Executed and the outputs give the serial state; for every block, number of workers, window, plan and interleaving, for outputs that name each key once (a funded self-transfer is the exception, SelfPaymentRefused) |
| `Fairness.MaximalRunsFinish` | leap/src/executor.rs:301-322 | A run that cannot be continued has ended with all workers returned and the serial result |
| `FairRuns.FairRunExists` | leap/src/executor.rs:301-322 | Every configuration with a worker has a fair run, so the theorem above is about something |
| `FairRuns.FairExtension` | leap/src/executor.rs:301-322 | Every finite run is the beginning of a fair one |
| `FairRuns.EveryRunCanFinish` | leap/src/executor.rs:276-357 | From every state of every run the executor can still finish, with all workers returned and the serial result |
| `Serial.SerialEquivalence` | leap/src/executor.rs:159-357 | Once the done marker is set, each recorded output is what its transaction computes alone on the serial state before it, and the outputs in index order give exactly the serial state |
| `Serial.QuietExecuted` | leap/src/scheduler.rs:190-255 | Nothing is left behind: with both indices past the block and no task active every transaction is Executed, because a parked one waits on a smaller one |
| `Serial.QuietGood` | leap/src/executor.rs:239-274 | In such a state every recorded read matches memory |
| `Serial.LatestIsState` | leap/src/mvmemory.rs:92-111 | If every index below j holds its output, a lookup below j reads the state after j outputs |
| `Serial.FollowsAlone` | leap/src/executor.rs:43-77 | A transaction whose captured reads carry the values of a state computes what it computes alone on it |
| `Settling.WorkDiesOut` | leap/src/scheduler.rs:200-255 | In every run, fair or not, there is a moment after which nothing is executed, aborted, woken or re-executed and statuses, dependency lists, memory and records stay fixed |
| `Settling.WeightStep` | leap/src/executor.rs:159-274 | Every step either leaves all weights and all working memory alone, or makes one transaction lighter without touching the weights of smaller indices |
| `Settling.TidyStep` | leap/src/scheduler.rs:259-345 | Statuses only move on within an incarnation or to a later one; a validator of an Executed incarnation holds reads of that incarnation; whoever is woken has a larger index |
| `Liveness.NeverStuck` | leap/src/scheduler.rs:190-224 | In every state of every run some worker can take a step as long as one has not returned: the dependency locks cannot deadlock |
| `Liveness.MoveChanges` | leap/src/executor.rs:306-318 | Every step moves its worker on: no step leaves the program counter where it was |
| `Runs.RunSafe` | leap/src/scheduler.rs:138-361 | The inductive invariant holds in every state of every run |
| `Runs.StepSafe` | leap/src/executor.rs:159-274 | Every step of every worker keeps the whole invariant |
| `Runs.NoPanicStep` | leap/src/mvmemory.rs:58-86 | For outputs that name each key once, no assertion, expect or unreachable of scheduler, executor and memory is hit by any step |
| `Guarantees.NoPanic` | leap/src/scheduler.rs:326-345 | For outputs that name each key once, no worker panics in any state of any run |
| `Guarantees.ParkingExact` | leap/src/scheduler.rs:190-224 | A transaction sits in at most one dependency list, once, on a smaller index, only while Executing without an executor and in no wake-up list; if the awaited one is already Executed, its finisher has still to take the list |
| `Guarantees.ExecutingIsHeld` | leap/src/executor.rs:177-200 | Every Executing transaction is with an executor, parked on a smaller index, or in the list of a finishing worker |
| `Guarantees.FootprintExact` | leap/src/executor.rs:202-235 | Outside the window of its writes an index holds exactly its last recorded write set: current when Executed, all ESTIMATE when ready, never of a later incarnation |
| `Guarantees.ValidationCoverage` | leap/src/scheduler.rs:200-263 | Each Executed transaction below the validation index matches memory read by read, or a worker with a task is bound to validate or abort it or to lower the index |
| `Guarantees.DoubleCollectSound` | leap/src/scheduler.rs:347-361 | If the marker is set, some thread set it, and when this very thread read the task counter both indices were past the block, no task was active, and nothing has changed since |
| `Guarantees.ConcludesSince` | leap/src/scheduler.rs:347-361 | A thread whose check can still succeed has itself read the task counter as zero in a quiet state that still stands |
| `Revalidation.RevalidatesIff` | leap/src/executor.rs:202-236 | In every run an execution asks for revalidation of what follows iff it wrote a key that the output recorded before it does not have |
| `Revalidation.IndexLowered` | leap/src/scheduler.rs:226-269 | In every run the validation index is lowered only by an execution that asked for revalidation, to its own index, or by an abort, to the index after it; the execution index only to the target of a worker that has woken transactions |
| `Ownership.OwnedStep` | leap/src/scheduler.rs:190-255 | Every step keeps each Executing transaction in exactly one place |
| `Footprint.FootprintsStep` | leap/src/txn_last_input_output.rs:71-98 | Every step keeps the cells of each index equal to the writes of the incarnation that recorded them, inside and outside the window of its writes |
| `ReadLog.AllLoggedStep` | leap/src/executor.rs:43-77 | Every step keeps captured and recorded reads as runs of their transaction whose values are those their versions wrote |
| `Coverage.AllCoveredStep` | leap/src/executor.rs:202-273 | Every step keeps each invalid read of an Executed transaction below the validation index covered |
| `Progress.AllFetchedStep` | leap/src/scheduler.rs:311-333 | Every step keeps a ready transaction below the execution index in the hands of a worker that will fetch it or lower the index |
| `Progress.NoneLostStep` | leap/src/scheduler.rs:190-224 | No wake-up is lost between adding a dependency and finishing an execution |
| `Termination.CountedStep` | leap/src/scheduler.rs:14-29 | The task counter stays the number of workers that hold a guard |
| `Termination.CollectedStep` | leap/src/scheduler.rs:347-361 | Each load of check_done keeps what it has established, whatever runs in between |
| `Overshoot.OvershootBound` | leap/src/scheduler.rs:296-324 | With T workers and n transactions neither index exceeds n + T - 1, although test and increment are separate steps |
| `Stabilisation.FirstNeverAborted` | leap/src/executor.rs:251-273 | Transaction 0 has one incarnation: never aborted, never parked |
| `Stabilisation.AbortedAtMostOnce` | leap/src/txn_last_input_output.rs:44-51 | While the memory below j is final and free of ESTIMATE, j is aborted at most once |
| `Throttling.ThrottlingTransparent` | leap/src/scheduler.rs:138-186 | In every run, with any window and any plan of build_domain_plan, a worker turns to execution only from having read a validation index at least the execution index |
| `Throttling.ChooseAsUnthrottled` | leap/src/scheduler.rs:138-186 | For such plans the choice of an execution task is the one made without throttling |
| `Throttling.ChooseExactly` | leap/src/scheduler.rs:144-184 | What next_task does with the indices it has read: execution iff validation is not behind; else validation, and only behind a boundary that the plan does not let run in parallel, and within the window, is a second attempt made without reading them again |
| `Throttling.BoundaryAhead` | leap/src/scheduler.rs:368-374 | A segment boundary holds back only execution that is ahead of validation |
| `MvMemory.MVHashMap.constructor` | leap/src/mvmemory.rs:51-55 | The empty map is the empty memory of every block |
| `MvMemory.MVHashMap.Write` | leap/src/mvmemory.rs:58-72 | On the protocol's view of memory exactly one cell changes, and the assertion holds iff the incarnation grew |
| `MvMemory.MVHashMap.MarkEstimate` | leap/src/mvmemory.rs:75-80 | Panics iff the cell is missing; else only its flag changes |
| `MvMemory.MVHashMap.Delete` | leap/src/mvmemory.rs:83-86 | Exactly that cell disappears, if it was there; panics iff the key was never written |
| `MvMemory.MVHashMap.Read` | leap/src/mvmemory.rs:92-111 | Returns what the protocol's lookup finds below the reader: value and version, the blocking index, or nothing |
| `Outcome.OutcomeArray.constructor` | leap/src/outcome_array.rs:12-16 | All cells empty |
| `Outcome.OutcomeArray.SetResult` | leap/src/outcome_array.rs:18-21 | Each cell can be set once; a second attempt changes nothing and fails |
| `Outcome.OutcomeArray.GetAllResults` | leap/src/outcome_array.rs:23-39 | Succeeds iff every cell below the stop index is usable; then outputs followed by skip outputs; else the error of the first unusable cell |
| `Outcome.CollectOutputs` | leap/src/executor.rs:337-356 | Returns the recorded outputs iff all are usable, panics iff one is missing, else the error of the first unusable one |
| `Execution.Collect` | leap/src/executor.rs:337-356 | After a finished run collecting cannot fail and returns the outputs of the run |
| `Execution.RebuildState` | leap/src/stablecoin.rs:691-699 | Inserting all writes output by output gives the outputs replayed in order, whatever the order inside an output |
| `Execution.ParallelExecuteToState` | leap/src/stablecoin.rs:663-699 | In every interleaving the result of a finished run is the plain serial ledger, for every funded balance and every block in which no transaction pays its own sender |
| `Execution.ParallelExecuteWithHotDelta` | leap/src/stablecoin.rs:702-764 | In every interleaving and for every shard assignment the rebuilt and folded state is the plain serial ledger, under the same condition |
| `Execution.UnshardedIsLedger` | leap/src/stablecoin.rs:203-353 | Without hot accounts executing one by one is the plain ledger |
| `Execution.FoldedIsLedger` | leap/src/stablecoin.rs:731-763 | With nothing pre-funded the fold of the sharded state is the plain ledger |
| `Stablecoin.SerialExecute` | leap/src/stablecoin.rs:557-603 | The loop over a mutable map computes the ledger the other theorems are about |
| `Stablecoin.StepMeaning` | leap/src/stablecoin.rs:560-601 | What one step of the ledger moves: nothing if the balance check fails; else the amount out of the sender and into the domain of a transfer, into or out of the domain of a mint or burn and the supply, and one nonce of the sender |
| `HotDelta.RunIsSharded` | leap/src/stablecoin.rs:203-392 | Run read by read as a transaction of the protocol, execute_transaction writes the sharded writes of the state it reads |
| `Sharding.CreditShard` | leap/src/hot_delta.rs:93-100 | Two credits to a hot account go to the same shard iff the hashes of their transactions differ by a multiple of the shard count; a hash below the count names its own shard |
| `Sharding.TouchesIff` | leap/src/stablecoin.rs:212-333 | The keys a transaction can read or write, by its kind: balance and shards of the account it debits, the credit key, nonce and supply, and no other |
| `Sharding.CreditTouchesOneShard` | leap/src/stablecoin.rs:242-260 | A credit to a hot account touches one shard and no other key of the account |
| `Sharding.TransfersConflictIff` | leap/src/stablecoin.rs:242-260 | Two transfers from different senders that do not credit each other's sender have a key in common iff they credit the same account and, if it is hot, the same shard |
| `HotDelta.StepRefines` | leap/src/stablecoin.rs:203-353 | For every shard assignment one sharded step matches one plain step under balance plus shards, nonces and supply included, unless the write list names a key twice |
| `HotDelta.BlockRefines` | leap/src/stablecoin.rs:557-603 | The same for whole blocks in which no transaction pays its own sender |
| `HotDelta.FoldDeltas` | leap/src/stablecoin.rs:731-763 | The fold adds each account's shards to its base entry and removes them, in whatever order the keys come |
| `HotDelta.FoldIsPlainIff` | leap/src/stablecoin.rs:731-763 | The folded state is the plain one iff nothing is pre-funded or every sharded account has a base entry |
| `HotDelta.DistinctKeysIff` | leap/src/stablecoin.rs:212-333 | A write list names a key twice iff it is a self-transfer that passes its balance check |
| `Speculation.ApplyWrites` | leap/src/executor.rs:205-213 | Written pair by pair, a list goes through iff it names no key twice and meets only older cells, and then leaves the memory that the protocol reaches with the output as a map |
| `Speculation.ListOnDistinctIff` | leap/src/stablecoin.rs:212-333 | Whatever an incarnation has read, its list names a key twice iff it is a self-transfer that passes its check on those reads |
| `Speculation.WritesAcceptedIff` | leap/src/mvmemory.rs:58-72 | In every run on a stablecoin block the memory accepts the list of an incarnation iff it is no such self-transfer: the exact condition of the write assertion |
| `SelfPayment.SelfPaymentRefused` | leap/src/mvmemory.rs:58-72 | A run on the block of a single transfer of 0 from account 1 to itself: the worker comes to write a list that the memory refuses |
| `Speculation.UnderflowIff` | leap/src/stablecoin.rs:306-334 | An incarnation that read no negative value writes one iff it is a burn that saw enough balance and too little supply |
| `Speculation.BurnBetweenWrites` | leap/src/stablecoin.rs:306-334 | A burn of 10 that read balance 10 and no supply writes a supply of -10 |
| `SpeculativeBurn.BurnUnderflows` | leap/src/executor.rs:205-213 | A run of two workers in which this happens: the burn executes between the two writes of a mint |
| `Speculation.SerialNonNegativeIff` | leap/src/stablecoin.rs:306-334 | In a block without funded self-transfers: the outputs read from the serial prefixes hold no negative value iff the supply covers every burn that passes its balance check |
| `Speculation.RecordedNonNegativeIff` | leap/src/stablecoin.rs:306-334 | Under the same condition on self-transfers: the recorded outputs of a finished run hold no negative value iff the serial loop has enough supply for every burn it performs, for every starting balance, shard assignment and interleaving |
| `Hotspots.HotDeltaManager.constructor` | leap/src/hot_delta.rs:26-34 | No account is hot at first |
| `Hotspots.HotDeltaManager.DetectHotspots` | leap/src/hot_delta.rs:38-71 | Exactly the accounts that receive often enough become hot, with the shard count of their frequency; reports exactly when the subtraction from a maximum below 2 underflows; the table is one every execution theorem accepts |
| `Hotspots.HotDeltaManager.AssignShards` | leap/src/hot_delta.rs:57-70 | From the frequencies: exactly the accounts that reach the lower threshold get the shard count of their frequency, and it reports exactly when a subtraction underflows |
| `Hotspots.ShardsMonotone` | leap/src/hot_delta.rs:57-68 | More transactions never mean fewer shards and the count is between 2 and the maximum, for every pair of monotone floating-point operations |
| `Hotspots.ShardsAtEnds` | leap/src/hot_delta.rs:59-66 | Two shards at the lower threshold, the maximum from the upper one on |
| `Hotspots.ShardsExact` | leap/src/hot_delta.rs:63-67 | With exact operations, n of d up from the lower threshold, the shards beyond 2 are the largest f with f d <= (maximum - 2) n |
| `Hotspots.ShardsNear` | leap/src/hot_delta.rs:63-67 | With operations off by at most e they satisfy this up to (maximum - 1) e d |
| `Hotspots.ShardsAlmostExact` | leap/src/hot_delta.rs:63-67 | If that slack is below 1 they are the exact number, or one less where the share is a whole number of shards |
| `Hotspots.RoundedValid` | leap/src/hot_delta.rs:64-66 | Conversions, quotient and product with any monotone rounding that keeps 0 and 1 are such operations |
| `Hotspots.RoundedNear` | leap/src/hot_delta.rs:64-66 | If the rounding keeps whole numbers and moves nothing by more than e, neither operation is off by more than e |
| `Supply.StepKeepsGapIff` | leap/src/stablecoin.rs:560-601 | A step keeps supply and balances in line iff it is neither an InitBalance that changes a balance nor a funded self-transfer of a positive amount |
| `Supply.SupplyConservedIff` | leap/src/stablecoin.rs:560-601 | TotalSupply is the sum of all balances after every prefix iff no transaction of the block is of that kind |
| `Supply.SupplyConserved` | leap/src/stablecoin.rs:560-601 | In a block without such transactions the supply is the sum of all balances after any number of transactions |
| `Supply.OnlyMovesSuffices` | leap/src/stablecoin.rs:560-601 | A block without InitBalance and self-transfers is of that kind |
| `Supply.BurnNeverUnderflows` | leap/src/stablecoin.rs:587-596 | As long as the balances are not ahead of the supply, the supply covers every burn that passes its balance check |
| `Supply.FundedThenBurnt` | leap/src/stablecoin.rs:587-599 | An account funded with 10 by InitBalance that burns 10 leaves a supply of -10 |
| `Supply.SupplyNonNegativeIff` | leap/src/stablecoin.rs:557-603 | The serial loop never takes the supply below zero iff the supply covers every burn that passes its balance check, for every block and starting balance |
| `Supply.BurnsSafeIff` | leap/src/stablecoin.rs:587-596 | From a ledger, no sequence of burns of the accounts below n takes the supply below zero iff the balances of these accounts are not ahead of it |
| `Supply.NoneBreaksCovers` | leap/src/stablecoin.rs:560-601 | In a block without InitBalance that changes a balance and without funded self-transfers of a positive amount, the supply covers every burn |
| `Supply.BalanceAtMostMinted` | leap/src/stablecoin.rs:579-586 | After a block that leaves the balances not ahead of the supply, balances lie between 0 and the supply, and the supply is at most what was minted |
| `Supply.LedgerNonNegative` | leap/src/stablecoin.rs:557-603 | No block makes a balance or nonce negative |
| `Supply.ShardedSupplyConserved` | leap/src/stablecoin.rs:212-333 | In a block without funded self-transfers, balances and shards are as far ahead of the supply as the balances of the serial loop are; not at all if no transaction breaks the supply |
| `Cado.ConcatenatedMeaning` | leap/src/cado.rs:18-46 | The output is a permutation of the retained transactions, ascending in domain hash, sender, nonce and transaction hash, compared in this order |
| `Cado.ConcatenatedCanonicalIff` | leap/src/cado.rs:18-46 | All orders of arrival give the same output iff no (sender, nonce) has two different transactions |
| `Cado.DistinctIsCanonical` | leap/src/cado.rs:18-46 | If no two transactions have the same sender and nonce nothing is dropped and the order of arrival does not matter |
| `Cado.SortedUnique` | leap/src/cado.rs:30-46 | Two sorted lists with the same elements are equal |
| `Cado.DedupUnique` | leap/src/cado.rs:19-21 | No two retained transactions have the same sender and nonce; every (sender, nonce) received is retained, nothing is invented |
| `Cado.DedupExact` | leap/src/cado.rs:19-21 | A transaction is retained iff some occurrence of it has no earlier transaction with its sender and nonce |
| `Interleave.InterleavedMeaning` | leap/src/cado.rs:59-103 | The output is a permutation of the retained transactions; those with the same domain hash are ascending in sender, nonce and transaction hash; two neighbours share a hash only if nothing else follows |
| `Rounds.InterleavedInRounds` | leap/src/cado.rs:82-102 | The output position by position: ordered by how many of the same domain hash come before, then by the size of the group, largest first, then by domain hash |
| `Interleave.InterleavedCanonicalIff` | leap/src/cado.rs:59-103 | All orders of arrival give the same output iff no (sender, nonce) has two different transactions |
| `Interleave.RoundRobinSpread` | leap/src/cado.rs:88-103 | The spread property for any groups of distinct classes |
| `Interleave.RoundRobinKeepsGroup` | leap/src/cado.rs:88-103 | Dealing out keeps the order inside each group and loses nothing of it |
| `Interleave.BySizeMeaning` | leap/src/cado.rs:83-85 | The sort by size is descending and stable |
| `Ordering.RetainFirst` | leap/src/cado.rs:19-21 | The retain pass with its set of seen keys keeps exactly the first transaction of every sender and nonce |
| `Ordering.SortedGroups` | leap/src/cado.rs:23-40 | Grouping by hash and sorting each group cuts the fully sorted list into its classes |
| `Ordering.CadoOrdering` | leap/src/cado.rs:18-46 | The loops compute the canonical concatenated order: the first transaction of every sender and nonce, once, ascending in domain hash, sender, nonce and transaction hash |
| `Ordering.SortBySize` | leap/src/cado.rs:83-85 | Computes the stable sort by size |
| `Ordering.InsertBySize` | leap/src/cado.rs:83-85 | Inserts one group where the stable order by size puts it |
| `Ordering.OneRound` | leap/src/cado.rs:91-98 | One pass over the iterators takes the head of each that has one |
| `Ordering.Deal` | leap/src/cado.rs:87-102 | Rounds until one takes nothing deal out the groups in the round-robin order, and end |
| `Ordering.CadoInterleave` | leap/src/cado.rs:59-103 | The loops terminate and compute the canonical interleaved order: the first transaction of every sender and nonce, once, ascending in sender, nonce and transaction hash inside each domain hash |
| `DomainPlan.GrowSegment` | leap/src/domain_plan.rs:39-65 | A segment has one domain and at most max(1, l_max) transactions, stops only at a change of domain, when full or at the end, and lists exactly the accounts written |
| `DomainPlan.BuildDomainPlan` | leap/src/domain_plan.rs:28-87 | The segments tile the block and are of that kind; a boundary is parallel iff the neighbours split a domain or write disjoint accounts |
| `DomainPlan.ParallelMeaning` | leap/src/domain_plan.rs:68-81 | Neighbours are parallel iff they split a domain or do not share the supply key |
| `Sharding.SupplyWrittenIff` | leap/src/domain_plan.rs:120-140 | The plan marks exactly the transactions that can write the supply |
| `Sharding.DomainWrittenIff` | leap/src/stablecoin.rs:101-108 | The accounts a transaction can write are that of its domain and, for a transfer, the sender |
| `DomainPlan.TxnToSegment` | leap/src/domain_plan.rs:101-110 | The table holds for each index the last segment that contains it, or the number of segments |
| `DomainPlan.SegmentOfMonotone` | leap/src/domain_plan.rs:101-110 | For a tiling the table is monotone and points past the segments exactly past the block |
| `Agreement.ReplicasAgree` | leap/src/cado.rs:105-112 | If no two different transactions received have the same sender and nonce and no received self-transfer is ever funded, replicas that received the same transactions, in any order unless ordering is disabled, report the same state, whatever their shards, workers, windows, plans and interleavings |
| `Agreement.OrderedMeaning` | leap/src/cado.rs:105-112 | What each mode does: nothing, the ascending order, or the order by rounds; unless disabled, of the first transaction of every sender and nonce |
| `Agreement.ReplicaIsLedger` | leap/src/stablecoin.rs:702-764 | What a replica reports is the serial ledger of the ordered transactions |
| `Agreement.NoSelfTransfersSuffices` | leap/src/stablecoin.rs:565-578 | The condition of the agreement theorems on self-transfers holds if no received transfer has one account at both ends |
| `PendingVotes.PendingVotes.constructor` | Block-STM/consensus/src/pending_votes.rs:66-73 | The book of votes is empty |
| `PendingVotes.PendingVotes.InsertVote` | Block-STM/consensus/src/pending_votes.rs:79-221 | Result and whole new state of one vote, through the function of which RefusedIff, CertificateIff, TimeoutCertificateIff, TwoChainCertificateIff, ErrorIff and VoteAddedIff say when each answer is given |
| `PendingVotes.PendingVotes.AddTimeouts` | Block-STM/consensus/src/pending_votes.rs:154-221 | The timeout half of the same |
| `PendingVotes.CheckVotingPower` | Block-STM/types/src/validator_verifier.rs:224-246 | The loop, in any order of authors, reports unknown authors, the exact sum, or a quorum |
| `PendingVotes.InsertSound` | Block-STM/consensus/src/pending_votes.rs:79-221 | Every vote keeps each author signed up for exactly the digest of its stored vote |
| `PendingVotes.SignersDisjoint` | Block-STM/consensus/src/pending_votes.rs:79-221 | After any sequence of votes no author counts for two digests |
| `PendingVotes.SignersExact` | Block-STM/consensus/src/pending_votes.rs:85-128 | After any sequence the signers of a digest are exactly the authors whose first vote is for it |
| `PendingVotes.VoteAddedExact` | Block-STM/consensus/src/pending_votes.rs:117-221 | VoteAdded reports the summed power of the distinct authors stored for the digest, all known, below the quorum |
| `PendingVotes.CertificateBacked` | Block-STM/consensus/src/pending_votes.rs:117-141 | A quorum certificate carries the signatures of known authors with the power of a quorum |
| `PendingVotes.CertificateIff` | Block-STM/consensus/src/pending_votes.rs:79-152 | A vote returns a quorum certificate iff it is accepted and all authors whose first vote is for its digest are known and reach the quorum; while one of them is unknown every accepted vote for the digest is an error |
| `VoteHistory.AcceptedIff` | Block-STM/consensus/src/pending_votes.rs:89-110 | A vote is accepted iff it is the first of its author or its first timeout vote for the digest of that first vote |
| `VoteHistory.RefusedIff` | Block-STM/consensus/src/pending_votes.rs:89-110 | It is an equivocation iff the first vote of its author was for another digest, and a duplicate iff that was for the same digest and this is not the first timeout vote for it |
| `VoteHistory.CertificateSignatures` | Block-STM/consensus/src/pending_votes.rs:117-141 | The signers of a quorum certificate are the authors whose first vote is for its digest, with the signatures of these votes |
| `VoteHistory.TimeoutCertificateIff` | Block-STM/consensus/src/pending_votes.rs:154-191 | A timeout certificate is returned iff the vote is accepted, carries a timeout signature, forms no quorum certificate, and the authors of such votes so far reach the quorum; it holds exactly their signatures |
| `VoteHistory.TwoChainCertificateIff` | Block-STM/consensus/src/pending_votes.rs:195-217 | The same for the two-chain certificate, among votes that return no timeout certificate; it holds exactly their rounds and signatures and the highest of these rounds |
| `VoteHistory.ErrorIff` | Block-STM/consensus/src/pending_votes.rs:140-152 | An error is returned iff the vote is accepted and an author whose first vote is for its digest is unknown: the timeout checks never fail on an unknown author |
| `VoteHistory.VoteAddedIff` | Block-STM/consensus/src/pending_votes.rs:79-221 | VoteAdded is returned iff the vote is accepted and no certificate and no error is due, with the power of the first voters for its digest |
| `PendingVotes.OneCertificatePerRound` | Block-STM/consensus/src/pending_votes.rs:79-221 | With a quorum above half of the total power at most one digest is ever certified |
| `PendingVotes.OneCertificateByDefault` | Block-STM/types/src/validator_verifier.rs:85-99 | The default quorum always meets that condition |
| `PendingVotes.DefaultQuorum` | Block-STM/types/src/validator_verifier.rs:85-99 | The default quorum is the least power above two thirds of the total, so two quorums share more than a third |
| `PendingVotes.TwoChainCertificateHighest` | Block-STM/consensus/consensus-types/src/timeout_2chain.rs:179-195 | A two-chain certificate carries the highest round its signers signed, as its verification demands |
| `Recovery.FindRoot` | Block-STM/consensus/src/persistent_liveness_storage.rs:87-145 | Root block, its certificate and the committing certificate, or exactly which is missing; at the end of an epoch the root is the virtual genesis; the rest is complete and ascending in (epoch, round) |
| `Recovery.FindBlocksToPrune` | Block-STM/consensus/src/persistent_liveness_storage.rs:283-304 | The retain passes compute the kept blocks, the removal list and the kept certificates of one pass from left to right |
| `Recovery.KeptExact` | Block-STM/consensus/src/persistent_liveness_storage.rs:283-304 | With parents earlier than children in (epoch, round), one pass keeps precisely the blocks whose parent chain reaches the root |
| `Recovery.RemovedExact` | Block-STM/consensus/src/persistent_liveness_storage.rs:283-304 | It lists precisely the others |
| `Recovery.TreeExact` | Block-STM/consensus/src/persistent_liveness_storage.rs:283-304 | The tree is the root and the kept blocks |
| `Recovery.KeptInOrder` | Block-STM/consensus/src/persistent_liveness_storage.rs:180-182 | The kept blocks stay sorted and each parent is the root or comes earlier |
| `Recovery.Recover` | Block-STM/consensus/src/persistent_liveness_storage.rs:192-231 | The whole recovery: fails exactly for a missing root, certificate of the root or commit certificate of the root, in that order, and never at the end of an epoch; else returns the first certificates of the root and the kept blocks ascending in (epoch, round), each parent the root or earlier; if every stored parent has a smaller (epoch, round) than its child, kept blocks, removed ids and kept certificates are exact with respect to the stored blocks; with unique ids no kept id is removed |
| `Quorum.Thresholds` | mp3bft/src/config.rs:37-51 | max_faults is the largest f with 3 f < n, a quorum is everyone but the tolerated faults, for every committee size; validity is faults plus one iff the size is no multiple of three |
| `Quorum.QuorumIntersection` | mp3bft/src/types.rs:267-275 | A certificate with 2 max_faults + 1 committee members among its voters and one whose committee voters reach the threshold share at least max_faults + 1 members, repeats and outsiders notwithstanding, each of whom signed both digests if they differ |
| `Quorum.MeetsEveryQuorumIff` | mp3bft/src/types.rs:267-275 | A certificate shares max_faults + 1 members with every verified certificate whose committee voters reach the threshold iff it has 2 max_faults + 1 committee members among its voters |
| `Quorum.BackedIsAnchored` | mp3bft/src/config.rs:37-51 | Reaching the threshold is more than that: a quorum has at least 2 max_faults + 1 members |
| `Quorum.NoConflict` | mp3bft/src/types.rs:183-191 | With at most max_faults equivocating members no two such verified certificates of one view and height or slot conflict |
| `Quorum.DistinctIsBacked` | mp3bft/src/types.rs:267-275 | Distinct committee voters suffice to reach the threshold |
| `Quorum.QuorumCertifies` | mp3bft/src/types.rs:267-275 | Whenever a quorum of members votes for a digest there is a certificate of exactly them that verifies |
| `Quorum.RepeatedVoter` | mp3bft/src/types.rs:267-275 | verify alone does not suffice: one repeated voter makes two verified certificates that conflict |
| `Quorum.NewCommittee` | mp3bft/src/config.rs:20-26 | The committee is the set of ids given |

## Left out

- Update in place by concurrent workers: scheduler, executor and the recorded inputs and outputs are values in a transition system, not objects; sequentially consistent steps, no weaker memory orderings, no cache padding, no lock or map internals.
- Abort and SkipRest outcomes and a stop index below the block size: the serial-equivalence theorems are for executors that always return Success, as the stablecoin executor does.
- SerialExecute: balances, nonces and supply are unbounded integers; BalanceAtMostMinted bounds them from above where the balances are not ahead of the supply, SupplyNonNegativeIff and RecordedNonNegativeIff say exactly when the serial loop and the outputs of a finished run stay non-negative (FundedThenBurnt is a block where they do not), and nothing bounds what a speculative burn computes in between (BurnUnderflows).
- NoPanic: outputs are maps and arithmetic is unbounded, so a key named twice and a 64-bit underflow inside execute_transaction are not steps of the protocol; WritesAcceptedIff and UnderflowIff say exactly when they occur.
- FairRunsFinish: as NoPanic.
- NoPanicStep: as NoPanic.
- StepRefines: a self-transfer that passes its check is excluded, since the multi-version map rejects its write list.
- DetectHotspots: where the subtraction from a maximum below 2 underflows, the table is that of a build without overflow checks.
- FindRoot: blocks of one epoch and round come in any order, where the original's sort is stable.
- CollectOutputs: cells are filled in index order, where the source fills them in parallel chunks.
- Delete: the protocol also counts removing an absent cell as a panic, which the original does only for a key never written.
- Reads after a recorded dependency: the original's read helpers go on with default values and the result is dropped; the model ends the execution at the recorded dependency, since those reads touch no shared state. UnderflowIff, which is for any values read, covers what such a dropped computation would write.
- ReadDesc in the protocol also records the value read; validation does not look at it.
- The order in which an execution applies its writes and an abort marks them is left open.
- rewrite_writes of the hot-delta manager, is_skewed and the adaptive window: not on the execution path, or floating-point tuning; the window is an arbitrary number.
- Cryptographic busy work, workload generation, success counts and timing: no logical content.
- Signatures, hashing and verification of votes and certificates beyond voting power and voters.
- Vote data, ledger-info contents and logging of the consensus code; recovery of the last vote and the highest timeout certificates.
- The MP3-BFT data plane, slot assignment and view change, and the rest of the Block-STM repository: network, storage, mempool, APIs.
