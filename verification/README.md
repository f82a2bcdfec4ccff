# Consensus and API state machines of an Aptos node, in Dafny

This project models the parts of the node whose correctness is not visible from one function: vote
collection for a consensus round, the gas-price estimator and its caches, the epoch manager and the
catch-up protocol between nodes, the payload status cell of a block, the start-up loop of the safety
rules, the payload poll loop, the port allocator of the test harness and the cursor pagination of the
REST API. Verify it with `dafny verify dfyconfig.toml`.

Every stateful component is modelled twice. A class keeps the fields the source keeps and its methods
update them in the source's order; each method is proved equal to one step of a function on values. Runs
are then folds of that step over arbitrary inputs, and the results below are about all runs.

## The modules and their main results

**Votes** (`Validators`, `PendingVotes`, `VoteRuns`, `VoteOutcomes`). Votes arrive in any order, repeated, conflicting, from
unknown authors. `RunMirrorsHistory` gives the collector's state as a function of the history, and `VoteOutcomes`
says exactly which votes are answered with what. On top:
signed power is conserved, a run certifies one digest at most, two collectors that certify different
digests share `2 * quorum - total` of two-faced power, an echo is sent once and meets every quorum, and while
nothing is decided the order of votes does not matter.

**Gas estimates** (`Ledger`, `BlockHistory`, `GasPricing`, `GasLaws`, `PriceCache`, `WarmCold`, `GasEstimator`,
`HistoryLaws`, `EpochCache`, `Rendering`). The estimator walks back over finished blocks, stops at the first block it has priced before
and completes the list from its cache. `WarmEqualsCold` compares that with pricing everything from the
ledger, for calls whose ledger versions come in any order. The two are *not* always equal. A caller that
lags the newest caller by some blocks, but fewer than the history limit, in an epoch with more finished
blocks than the cache keeps, gets a shorter list (`LaggingCallerGetsLess` is such a run); in every other case
the lists are equal, and versions in order are always such a case. `GasLaws` and `HistoryLaws` say of the ledger itself which blocks are in the list and
what each costs. The estimates themselves are characterised by how many of the sampled blocks
each would have got into.

**Epochs** (`EpochManager`, `EpochRuns`, `EpochProofs`, `CatchUp`). Signature checks run beside the main loop
and may finish after the epoch has changed, or while its components stop one after the other.
`EpochIsolation` says that a component only ever receives events verified under its own epoch, and
`ChecksReachTheirEpoch` that it receives them exactly as long as it runs; `MessageDelivers` follows an event from
the network to its component. That holds although the senders are not
all reset: a quorum-store event that comes in during recovery is put into the channel of an older epoch, whose
reader has stopped. `PushesGoAstrayInRecovery` gives the exact condition and `RecoveryPushGoesAstray` a run.
`CatchUp` composes the message checks of any number of honest nodes with a lossy, reordering network and Byzantine
senders: epochs are safe in every run, and a lagging node makes progress with whatever steps in between.

**Payloads** (`PayloadManager`, `PayloadClient`). Every successful call for a block's transactions returns the
same list, the unexpired batches in the order of their certificates, whatever failed or was prefetched in between; polling is bounded by the deadline.

**Safety rules** (`SafetyRules`). Initialisation walks the waypoint through pages of a hundred epoch
endings. It ends, and with a known waypoint its outcome depends on storage alone. A node that is far behind
is *not* always set up for the newest epoch: the walk stops at the first page that reaches the epoch last
signed in. `ReachesNewestIff` says when it is, and `RequestsGetSigned` how many requests get it there.

**Ports** (`PortAllocator`) and **pages** (`KeyOrder`, `Pagination`). Two calls get the same port exactly if the
probes between them go round the vector. Keys are ordered by their bytes, which start with the length of the path.
Module pages list every module once. Resource pages need *not*: the cursor is built as a resource path even for a
resource group. `CompleteIff` with `FindsIff` gives the exact condition for
ending with every key, `ResourcePagesLoop` accounts whose pages
never end and `ResourcePagesMayLoop` the smallest of them.

Where code and comment differ the code is followed: the comment in the initialisation loop of the safety
rules (consensus/src/metrics_safety_rules.rs:48) says it goes on for as long as the waypoint increases, but it
also stops at the first page that is accepted, which is why a node far behind may end short of the newest epoch.

## Model

| member | source | states |
|---|---|---|
| Validators.CheckVotingPower | types/src/validator_verifier.rs:321-349 | the summing loop reports an unknown author if and only if there is one, otherwise whether the joint power reaches the quorum, and the power if not |
| Validators.PowerInclusionExclusion | types/src/validator_verifier.rs:321-349 | power of two sets adds up to the power of their union and intersection |
| Validators.PowerBounded | types/src/validator_verifier.rs:395-400 | no set of authors, known or not, outweighs the total |
| Validators.QuorumsIntersect | consensus/README.md:19 | any two quorums share at least 2 * quorum - total of power |
| Validators.NewVerifierQuorum | types/src/validator_verifier.rs:145-173 | the default quorum is the least power above two thirds, stays within the total exactly if there are no validators or some power, and two default quorums share more than a third of it |
| PendingVotes.Collector.constructor | consensus/src/pending_votes.rs:75-83 | a new collector holds nothing and has not echoed |
| PendingVotes.Collector.InsertVote | consensus/src/pending_votes.rs:86-258 | result and all four fields after a vote are those of one step, on each of the early returns |
| PendingVotes.Collector.DrainVotes | consensus/src/pending_votes.rs:260-289 | hands out votes and timeout certificate and empties them; the author index and the echo flag stay |
| PendingVotes.SignersDisjoint | consensus/src/pending_votes.rs:98-145 | consistent maps never count an author for two digests |
| PendingVotes.StepKeepsInv | consensus/src/pending_votes.rs:86-258 | every return path keeps the index, the signature sets, the timeout certificate and the echo flag consistent with one another |
| PendingVotes.AddTimeoutKeepsMax | consensus/consensus-types/src/timeout_2chain.rs:237-258 | adding a timeout by a new author keeps the carried round equal to the largest signed one |
| PendingVotes.StepRecords | consensus/src/pending_votes.rs:98-171 | an admitted vote is recorded whatever the result; a rejected one changes nothing; timeout signers only grow and the flag is never unset |
| PendingVotes.TimeoutOutcome | consensus/src/pending_votes.rs:206-251 | what is known when a timeout certificate or an echo comes out, and that the flag is set exactly by an echo |
| PendingVotes.ErrorMeansUnknown | consensus/src/pending_votes.rs:188-256 | adding fails exactly for admitted votes whose digest has an unknown signer |
| VoteRuns.RunInv | consensus/src/pending_votes.rs:86-258 | the invariant holds after every sequence of votes |
| VoteRuns.RunMirrorsHistory | consensus/src/pending_votes.rs:98-171 | after any run: an author signs the digest of its first vote, with the signature of that vote, and the vote kept is its first timeout for that digest or else its first vote |
| VoteRuns.SignedPowerConserved | consensus/src/pending_votes.rs:98-200 | power summed over all digests never exceeds the validators' total |
| VoteRuns.CertificateIsQuorum | consensus/src/pending_votes.rs:171-187 | a certificate carries exactly the authors whose first vote was for its digest, all known, with quorum power |
| VoteRuns.ConflictingCertificatesShareSigners | consensus/src/pending_votes.rs:171-187 | certificates of two collectors share 2 * quorum - total of power, held by authors who voted in both runs |
| VoteRuns.Agreement | consensus/README.md:19 | while authors that told two collectors different things hold less than that, both certify the same digest |
| VoteRuns.CertificateUnique | consensus/src/pending_votes.rs:171-187 | if a quorum is more than half, one run certifies at most one digest |
| VoteRuns.AddingFailsOnUnknownAuthor | consensus/src/pending_votes.rs:188-256 | over runs, adding fails exactly if the vote was admitted and an unknown author's first vote is for its digest |
| VoteRuns.TimeoutCertificateSound | consensus/consensus-types/src/timeout_2chain.rs:136-178 | a timeout certificate has known signers with quorum power, each with the round of its kept timeout vote, and carries the largest of these rounds |
| VoteRuns.EchoFlag | consensus/src/pending_votes.rs:240-251 | once the echo was sent, timeout power stays at total - quorum + 1 or more |
| VoteRuns.EchoOnce | consensus/src/pending_votes.rs:240-251 | a run echoes at most once |
| VoteRuns.EchoMeetsEveryQuorum | consensus/src/pending_votes.rs:240-251 | an echo goes out only with timeout power from total - quorum + 1 up to below the quorum, and its authors meet every quorum |
| VoteRuns.UndecidedClosedForm | consensus/src/pending_votes.rs:98-251 | with known authors, no equivocation and no quorum, signer sets are read off the set of votes, and the echo was sent exactly if timeout power is in its window |
| VoteRuns.OrderIndependence | consensus/src/pending_votes.rs:98-251 | such votes in any order and with any repetition leave the same signers |
| VoteOutcomes.TurnedAwayIff | consensus/src/pending_votes.rs:98-120 | a vote is called equivocation exactly if its author's first vote was for another digest, and a duplicate exactly if it was for this one and this is not its first timeout for it |
| VoteOutcomes.QuorumCertificateIff | consensus/src/pending_votes.rs:171-200 | a certificate comes out exactly if the vote is admitted, the authors whose first vote is for its digest are known and have a quorum, and aggregation succeeds; exactly when each of the two errors comes out instead |
| VoteOutcomes.TimeoutsFollow | consensus/src/pending_votes.rs:206-251 | timeout signers and echo flag after any run, from the history alone |
| VoteOutcomes.TimeoutCertificateIff | consensus/src/pending_votes.rs:206-251 | exactly when a timeout certificate, its aggregation error or the one echo comes out, and with which authors or power |
| VoteOutcomes.AddedIff | consensus/src/pending_votes.rs:188-257 | exactly which votes are just added, with the power of all who chose their digest |
| Ledger.BlockBounds | storage/aptosdb/src/lib.rs:1846-1874 | between the first and last version of a block no other block starts, and one starts right after |
| Ledger.EpochMonotone | storage/aptosdb/src/lib.rs:1846-1874 | later versions are never of an earlier epoch |
| Ledger.BlockStable | storage/aptosdb/src/lib.rs:1846-1874 | appending moves neither the start of a block nor the end of a finished one |
| Ledger.BlockTimestampIsTime | storage/aptosdb/src/lib.rs:1819-1827 | the timestamp looked up for a version is the on-chain time at that version |
| Rendering.RenderNonSequential | api/src/context.rs:611-637 | the looking-up renderer converts each transaction with its block's timestamp, and fails if one conversion fails |
| Rendering.RenderedIs | api/src/context.rs:611-637 | a page is rendered exactly if every transaction converts with its block's timestamp, and then holds the conversions in order |
| Rendering.RenderSequential | api/src/context.rs:579-609 | on a contiguous page started with the timestamp of its first version, the running renderer gives the same page |
| Rendering.TimestampStep | api/src/context.rs:579-609 | moving the time only at block metadata keeps it equal to the looked-up timestamp |
| BlockHistory.BackFacts | api/src/context.rs:963-986 | the walk back visits blocks of the epoch with falling ends, none of them genesis |
| BlockHistory.BackIs | api/src/context.rs:963-986 | the walk lists the whole blocks of the epoch, each ending right before the next newer one starts, back to the first of the epoch |
| BlockHistory.BackStable | api/src/context.rs:963-986 | the walk back from a finished block is the same on every longer ledger |
| BlockHistory.BackExtends | api/src/context.rs:963-986 | looking back from a later point of the epoch only adds newer blocks in front |
| GasPricing.NextBucketRoundsUp | api/src/context.rs:831-842 | never below the price, a bucket if any is above it, and with ascending buckets the least one above |
| GasPricing.PanicsIffUnsafe | api/src/context.rs:1005-1024 | some block makes the unwrap fail exactly if an empty block counts as full |
| GasPricing.PriceAtAnyVersion | api/src/context.rs:882-910 | the price of a finished block does not depend on the ledger version of the request |
| GasPricing.PriceFloor | api/src/context.rs:998-1027 | no block is priced below the minimum if no transaction in it is |
| GasPricing.CoveredOfSort | api/src/context.rs:1056-1077 | sorting changes for no offer how many prices it covers |
| GasPricing.SortSorts | api/src/context.rs:1056-1077 | the sorted list is ascending |
| GasPricing.EstimateQuality | api/src/context.rs:1044-1098 | low, market and aggressive are ordered; low is the least recent price; market covers more than half of the recent blocks, aggressive more than nine tenths of all sampled |
| GasPricing.EstimateFloor | api/src/context.rs:1044-1098 | no estimate is below a floor under all prices |
| GasLaws.NextBucketIs | api/src/context.rs:831-842 | the first bucket above the price, in the order of the configuration, or the price |
| GasLaws.UserPricesAt | api/src/context.rs:882-910 | what is read of a range are its user transactions, each once and in order; their number and gas |
| GasLaws.BlockPriceIs | api/src/context.rs:998-1027 | a block that is not full costs the minimum; a full one the bucket above the price of a user transaction in it that none in it is cheaper than |
| GasLaws.CoveredIsCount | api/src/context.rs:1044-1098 | an offer covers as many prices as there are at or below it |
| GasLaws.EstimateIs | api/src/context.rs:1044-1098 | low is the least newest price, market the least price covering more than half of the newest, aggressive the bucket above the least covering more than nine tenths of all, each no lower than the one before |
| GasLaws.DefaultIs | api/src/context.rs:844-850 | the estimates without finished blocks |
| PriceCache.GcKeepsNewest | api/src/context.rs:1100-1105 | garbage collection keeps exactly the newest entries |
| PriceCache.CachedBelowIsTail | api/src/context.rs:1033-1042 | a downward range read lists the cached entries from a version on, newest first |
| PriceCache.InsertAllRepresents | api/src/context.rs:998-1032 | priced blocks take their places between newer and older entries |
| PriceCache.ScanFollowsHistory | api/src/context.rs:952-986 | the scan prices exactly the leading unpriced blocks and stops at the first priced one, the epoch's start or the limit |
| WarmCold.FinishAhead | api/src/context.rs:987-1105 | at or past the newest block seen, the list is the cold list and the cache moves up to it |
| WarmCold.FinishBehind | api/src/context.rs:987-1105 | behind it, the list is what the cache shows and the cache stays |
| WarmCold.CacheIsNewestBlocks | api/src/context.rs:945-1107 | after every call of any run the cache holds exactly the right prices of the newest finished blocks of the current epoch, as many as the limit allows |
| WarmCold.WarmEqualsCold | api/src/context.rs:945-1107 | in any order of calls the warm list is a leading part of the cold one, and equal to it exactly under the stated condition on the caller's lag |
| WarmCold.WarmEqualsColdInOrder | api/src/context.rs:945-1107 | with versions in order the cache changes nothing |
| WarmCold.LaggingCallerGetsLess | api/src/context.rs:945-1107 | a run of two calls in which the second gets a shorter list than the ledger alone would give it |
| HistoryLaws.StartIs | api/src/context.rs:953-961 | the walk starts right before the block that holds the request's version |
| HistoryLaws.HistoryIs | api/src/context.rs:953-986 | the blocks sampled are the whole blocks of the epoch from there back to its first |
| HistoryLaws.ColdPricesAre | api/src/context.rs:992-1042 | the cold list holds the price of each of them, newest first, up to the history limit |
| HistoryLaws.AnswerIs | api/src/context.rs:987-1098 | the answer of every full computation, in terms of its price list |
| GasEstimator.AnswerInOrder | api/src/context.rs:912-1108 | with versions in order an estimate does not depend on the calls before it |
| GasEstimator.AnswerBounds | api/src/context.rs:912-1108 | every estimate is ordered and not below the minimum price if no transaction in its blocks is |
| GasEstimator.Estimator.constructor | api/src/context.rs:852-880 | a new estimator has an empty cache |
| GasEstimator.Estimator.EstimateGasPrice | api/src/context.rs:852-1108 | the answer is that of the latest full computation and of the caller's epoch; it is served again exactly while younger than the expiration time and of the same epoch, otherwise a new one is made and recorded |
| GasEstimator.Estimator.Compute | api/src/context.rs:945-1042 | prices and cache after the full computation are those of one refresh |
| GasEstimator.Estimator.ScanBack | api/src/context.rs:952-986 | the loop finds the blocks and the hit of the recursive scan |
| GasEstimator.Estimator.PriceBlocks | api/src/context.rs:996-1032 | the loop prices each block and inserts exactly these prices |
| GasEstimator.Estimator.ReadCached | api/src/context.rs:1033-1042 | the loop reads the newest entries up to a version, at most as many as asked for |
| GasEstimator.Estimator.CollectGarbage | api/src/context.rs:1100-1105 | the loop removes first entries until the limit is met |
| EpochCache.Store.Read | api/src/context.rs:1115-1135 | a value is served under the shared lock only for its own epoch |
| EpochCache.Store.Refresh | api/src/context.rs:1136-1188 | under the exclusive lock: checks again, else stores and serves what storage has |
| EpochCache.ServedFromOwnEpoch | api/src/context.rs:1115-1231 | under any interleaving, what a caller is served was read from storage by a caller of the same epoch |
| EpochCache.ServedIsOnChain | api/src/context.rs:1115-1231 | so if the setting is fixed within an epoch, it is what storage holds at the caller's own version |
| EpochCache.FailsOnlyWithoutValue | api/src/context.rs:1149-1188 | under any interleaving a caller whose version has the setting never fails |
| EpochCache.TwoSectionsDecide | api/src/context.rs:1119-1188 | in any run a caller is served or failed after its second section at the latest |
| EpochCache.LoadedIsServed | api/src/context.rs:1119-1188 | what one caller has loaded, the next of the same epoch is served without storage, and one of another epoch is not |
| EpochManager.Manager.constructor | consensus/src/epoch_manager.rs:146-190 | a new manager has no epoch and no senders |
| EpochManager.Manager.ShutdownCurrentProcessor | consensus/src/epoch_manager.rs:530-572 | which senders are dropped, which stay, and which components have stopped |
| EpochManager.Manager.StartNewEpoch | consensus/src/epoch_manager.rs:796-837 | the whole new state and the spawned components, for full and partial recovery data |
| EpochManager.Manager.StartRoundManager | consensus/src/epoch_manager.rs:603-794 | the senders and components of a full start |
| EpochManager.DifferentEpochsMeet | consensus/src/epoch_manager.rs:351-432 | what a node behind asks for is what the node ahead, then or later, offers, and it is exactly the epochs between them; unasked it is offered exactly by non-validators |
| EpochManager.SameEpochUnreachable | consensus/src/epoch_manager.rs:428-431 | neither caller can reach the bail for an equal epoch |
| EpochRuns.RunKeepsInv | consensus/src/epoch_manager.rs:1107-1145 | the invariant on senders, live components, checks in flight and deliveries holds in every run |
| EpochRuns.OneProcessor | consensus/src/epoch_manager.rs:1085-1145 | in every run nothing panics, at most one processor is live, and at the loop head it is the current epoch's, with its sender in place |
| EpochRuns.LiveAtLoopHead | consensus/src/epoch_manager.rs:603-837 | exactly which components run at the loop head, from what the epoch was entered with |
| EpochRuns.MessageDelivers | consensus/src/epoch_manager.rs:844-1037 | in any run, a message and its check deliver to a component exactly if it is an event of the current epoch, the check succeeds and the component runs; exactly a verified proof of the current epoch starts a shutdown |
| EpochRuns.TimeoutDelivers | consensus/src/epoch_manager.rs:1085-1095 | a local timeout always reaches the current round or recovery manager |
| EpochRuns.RpcsReachTheirEpoch | consensus/src/epoch_manager.rs:1039-1083 | in which epochs block, batch and commit requests reach the current channel, and that they fail in all others |
| EpochRuns.EpochIsolation | consensus/src/epoch_manager.rs:862-907 | in every run a component, round manager or quorum store, only receives events verified under its own epoch |
| EpochRuns.ChecksReachTheirEpoch | consensus/src/epoch_manager.rs:1007-1037 | at any point of any run a check that succeeds delivers its event exactly if the component of its own epoch that reads it, the round manager or the quorum store's network listener, is still running |
| EpochRuns.PushesGoAstrayInRecovery | consensus/src/epoch_manager.rs:530-601 | an event is put into the channel of another epoch exactly if it is for the quorum store and came in during recovery |
| EpochRuns.FullStartsKeepPushes | consensus/src/epoch_manager.rs:530-601 | no push goes astray if no later epoch is entered from partial recovery data |
| EpochRuns.RecoveryPushGoesAstray | consensus/src/epoch_manager.rs:574-601 | a run in which a batch of epoch 2 is put into the channel of epoch 1, whose quorum store has stopped, and is lost |
| EpochProofs.VerifyProof | types/src/epoch_change.rs:67-117 | succeeds exactly if, after a stale prefix, the rest is a non-empty signed chain from the verifier's epoch, and returns the epoch it opens |
| EpochProofs.ProvesIff | types/src/epoch_change.rs:67-117 | element by element, which lists of ledger infos prove something and what |
| EpochProofs.ProvesUnique | types/src/epoch_change.rs:67-117 | a proof opens at most one epoch |
| EpochProofs.PageProves | storage/aptosdb/src/lib.rs:619-663 | what storage hands out for a range proves its way from the first epoch to the end of the page |
| EpochProofs.EndingsAre | storage/aptosdb/src/lib.rs:619-663 | for which ranges storage answers, and with which endings |
| CatchUp.NextAdvances | consensus/src/epoch_manager.rs:351-458 | every step, honest or Byzantine, keeps the invariant and moves no epoch back |
| CatchUp.EpochsSafe | consensus/src/epoch_manager.rs:434-458 | in every run no honest node's epoch goes back or passes the newest epoch an honest node has opened |
| CatchUp.RequestsAnswered | consensus/src/epoch_manager.rs:351-373 | every honest request asks for a non-empty range, and at an honest node is always answered with a chain from where the request starts to its end, or as far as a proof can hold |
| CatchUp.ProofEffect | consensus/src/epoch_manager.rs:911-969 | a proof changes its receiver exactly if it starts at the receiver's epoch and verifies, and then lifts it to the epoch it opens |
| CatchUp.ExchangeLifts | consensus/src/epoch_manager.rs:375-432 | an undisturbed exchange lifts the lagging node by the gap or by a hundred epochs and touches no other |
| CatchUp.CatchesUp | consensus/src/epoch_manager.rs:351-458 | one exchange per hundred epochs closes any gap |
| CatchUp.RoundLifts | consensus/src/epoch_manager.rs:351-458 | with any other steps in between, a message of a newer epoch gets its request and answer, and the lagging node ends up in a later epoch; if nothing else moved it, by the gap or a hundred epochs |
| CatchUp.RoundsCatchUp | consensus/src/epoch_manager.rs:351-458 | repeated once per epoch to go, one message leads the lagging node at least to its epoch, whatever else happens |
| PayloadManager.Cell.RequestTransactions | consensus/src/payload_manager.rs:33-56 | exactly the unexpired batches are asked for, in order |
| PayloadManager.Cell.Prefetch | consensus/src/payload_manager.rs:98-125 | asks unless there is a status already |
| PayloadManager.Cell.GetTransactions | consensus/src/payload_manager.rs:129-206 | result and status for every pattern of arrivals and failures; the status is always put back |
| PayloadManager.LiveIsUnexpired | consensus/src/payload_manager.rs:33-56 | a batch is asked for exactly if some certificate for it has not expired |
| PayloadManager.LivePositions | consensus/src/payload_manager.rs:41-55 | the batches asked for are those of the unexpired certificates, one for each of them and in their order |
| PayloadManager.ConcatLaws | consensus/src/payload_manager.rs:185-206 | concatenation of batches, from either end |
| PayloadManager.OutcomeServes | consensus/src/payload_manager.rs:129-206 | a cached payload is handed out and kept; otherwise all batches in order if all arrive, and the error of the first that does not if not, with all asked for again |
| PayloadManager.PayloadDetermined | consensus/src/payload_manager.rs:129-206 | under any interleaving of prefetches, failures and retries every success returns the batches of the unexpired certificates, concatenated in their order |
| PayloadManager.StatusPresent | consensus/src/payload_manager.rs:98-206 | the status is missing only before the first prefetch has finished or inside a call, so taking it fails exactly before that |
| PayloadManager.StepsMakeTheCall | consensus/src/payload_manager.rs:129-206 | undisturbed, the interleaved steps add up to the whole call |
| PayloadClient.PullPayload | consensus/src/payload_client.rs:86-144 | the answer of the first poll that is an error, brings something, may be empty or is past the deadline, and with which flag each poll is made; empty only if allowed or past the deadline; one wait at most; polls bounded by the deadline over the pause |
| SafetyRules.Metrics.PerformInitialize | consensus/src/metrics_safety_rules.rs:35-64 | ends; with a known waypoint it succeeds or lacks keys if storage has enough endings and reports an out-of-date waypoint at the newest ending if not; otherwise nothing changes |
| SafetyRules.InitializeStep | consensus/safety-rules/src/safety_rules.rs:216-260 | one page moves the waypoint to the page's last ending and never back |
| SafetyRules.ReachedFacts | consensus/src/metrics_safety_rules.rs:38-63 | the walk reaches the epoch last signed in exactly if storage does, else the newest ending |
| SafetyRules.ReachesNewestIff | consensus/src/metrics_safety_rules.rs:38-63 | it ends at the newest ending exactly if no full page ends between the epoch last signed in and the newest |
| SafetyRules.ReadyForNewestEpochIff | consensus/src/metrics_safety_rules.rs:35-80 | exactly then the rules can sign in the newest epoch afterwards |
| SafetyRules.StopsShort | consensus/safety-rules/src/persistent_safety_storage.rs:34-62 | a fresh node, with safety data of epoch 1, and 150 ended epochs is set up for epoch 100 |
| SafetyRules.RequestsAdvance | consensus/src/metrics_safety_rules.rs:66-80 | every request for the newest epoch moves the rules on by one page until they are there, with or without keys on the way |
| SafetyRules.RequestsGetSigned | consensus/src/metrics_safety_rules.rs:66-80 | a request for the newest epoch repeated once per 99 epochs still to go is signed exactly if the rules accept it there, given keys for that epoch |
| SafetyRules.EpochOfEnding | storage/aptosdb/src/ledger_store/mod.rs:72-102 | the epoch of an ending's version is the epoch it ends, and no epoch starts its page before the version |
| SafetyRules.Metrics.Sign | consensus/src/metrics_safety_rules.rs:66-80 | tried once, and again only after a successful initialisation; signed at most once, under the epoch the rules are set up for, which is the request's own if it has one (a commit vote has none); a request for the newest epoch leaves the rules where the request model says |
| PortAllocator.BindPortFromCounter | config/src/utils.rs:183-209 | the port of the first probe that binds, with the counter one past it, wrapped; none exactly if a thousand probes fail; indices in range |
| PortAllocator.CounterFile.GetUniquePort | config/src/utils.rs:125-153 | the file holds the new counter after a success and is untouched after a panic; the port is that of the run model |
| PortAllocator.CounterCountsProbes | config/src/utils.rs:125-153 | over any run the counter is the number of probes, modulo 20000 |
| PortAllocator.SamePortIffFullCircle | config/src/utils.rs:125-209 | two calls get the same port exactly if the probes between them are a multiple of 20000 |
| PortAllocator.PortsUnique | config/src/utils.rs:125-209 | up to 20000 probes all ports differ and are in the range |
| KeyOrder.BeforeByLength | types/src/state_store/state_key.rs:157-177 | paths of one length are ordered by their bytes, others by their written lengths alone |
| KeyOrder.UlebReads | types/src/state_store/state_key.rs:157-177 | a written length reads back as itself, low groups first, with the top bit clear on the last byte only |
| KeyOrder.VersionsDoNotMatter | storage/aptosdb/src/schema/state_value/mod.rs:39-45 | the version behind a key never changes the order of different keys |
| Pagination.FollowIsExpected | api/src/context.rs:298-342 | if every boundary is found, following the cursors gives each listed key once, in order, fails exactly at a page with an unparsable key, and ends |
| Pagination.ModulePagesExact | api/src/context.rs:396-437 | module pages are always exact |
| Pagination.ResourcePagesExactWithoutGroups | api/src/context.rs:298-342 | resource pages are exact for accounts without resource groups |
| Pagination.ListedKeys | api/src/context.rs:315-337 | which keys of an account a listing consists of |
| Pagination.AllModules | api/src/context.rs:396-437 | enough module pages give every module of the account once, in order; or fail, exactly if some key is not well-formed |
| Pagination.AllResources | api/src/context.rs:298-394 | the same for the resources of an account without resource groups |
| Pagination.EnoughPages | api/src/context.rs:298-437 | the same for any listing whose boundaries are found |
| Pagination.CursorLands | api/src/context.rs:385-394 | a cursor never skips a key, and finds its key again exactly under the stated condition |
| Pagination.FindsIff | api/src/context.rs:385-394 | a resource's cursor finds it; a group's exactly if no key before it has the same path length and is a resource with a tag not below the group's or a group with a tag below it |
| Pagination.PagesExactIff | api/src/context.rs:298-394 | pages are exact, also in where they fail, exactly if every boundary is found or leads to a page that fails like the right one |
| Pagination.CompleteIff | api/src/context.rs:298-394 | some number of pages ends with every wanted key once and in order exactly if every boundary is found |
| Pagination.ResourcePagesLoop | api/src/context.rs:385-394 | if the first key after the first page is a group and the first key lies between it and its cursor, every page is the first page again |
| Pagination.ResourcePagesMayLoop | api/src/context.rs:385-394 | for any three tags of one length, an account with two resources and a resource group with the least tag, whose resource pages never end and never show the group |

## Left out

- Signatures, aggregation, hashing and BLS: an oracle per call says whether aggregation succeeds; a ledger info says whether it was really signed.
- Overflow of power and gas sums in 64 and 128 bits: sums are unbounded.
- The vote data inside a quorum certificate, because the digest commits to it; logging, counters and metrics everywhere.
- Gas estimation switched off or overridden by configuration, database errors and pruning during an estimate, and the check on the requested page size: they would only add easy members.
- GasEstimator.Estimator.EstimateGasPrice: the two checks under the read and the write lock are one check, because only the second decides.
- Ledger: blocks are cut at new-block events and epochs never fall, as storage and the framework ensure.
- EpochManager: signature verification of messages, the conversion of commit messages, and what the spawned components do.
- EpochRuns: reconfiguration notifications announce ever newer epochs; state synchronisation behind an epoch change is part of the environment; an event read from a channel counts as received, queues do not overflow.
- CatchUp: signatures are unforgeable, and an epoch ends when an honest node says so; how validators agree on that is not modelled.
- PayloadManager: two calls for the same block's transactions at once, and the commit notification.
- SafetyRules: the conditions under which the inner rules accept a vote are an input; persistent-storage failures are not modelled.
- PayloadClient: the pull itself is an oracle, and the clock advances by at least the pause.
- PortAllocator: sockets, the lock file and the shuffle are inputs; the ephemeral-port path is not modelled.
- Pagination: whether a path parses is part of the key; the expansion of resource groups into their members is not modelled.
- Leader election, block store, round manager, quorum store, execution, mempool, network wiring, REST endpoints and tooling.
