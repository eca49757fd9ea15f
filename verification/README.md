# Snapchain: a verified model of its consensus application code

A Dafny model of the code Snapchain runs around its consensus engine, with proofs about whole runs of it. Each module
follows one component. Where the source updates state in place the model is a class whose methods are proved against a
function of the old state; what the component promises is then proved about that function, over every sequence of
events it can be sent.

| module | component |
|---|---|
| `CatchUp`, `ReadNode` | the read node: verifying decided values, buffering heights, draining the buffer |
| `Certificates` | the signature check on commit certificates and what acceptance implies |
| `ValidatorSets` | sorted validator lists, proposer rotation, the set in force at a height |
| `ProposalStore`, `LocalState`, `Host` | proposals in memory and on disk, the validator, and the host's decided step |
| `Blocks`, `Versions` | witness collection, building and judging blocks, protocol versions |
| `Mempool` | per-shard ordered pools: insert, pull, decided chunks |
| `OnchainSync` | checkpointed historical sync under crashes |
| `ByteStrings` | big-endian increment and decrement against lexicographic order |
| `EventIds`, `EventReplay` | event ids, event keys, and the paged replay with its kept chunk |
| `ChunkWriter` | the multi-part snapshot writer |
| `Basics` | options, ordered listings of sets, gap-free runs of numbers |

Conventions. Heights and timestamps are unbounded naturals except where a width matters (`U32`, `U64`, `I64`: keys,
slots and event ids). Hash functions and signature verification are arbitrary functions. A quorum is strictly more than
two thirds, as the consensus library's default threshold. Randomness, disk failures, crashes, store answers, rate
limiter answers and arrival orders are parameters that the theorems quantify over. Each component is modelled for its
own shard, since values are routed by shard before they reach it.

Where the code differs from what one would expect of it, the code is modelled as it is and a lemma states exactly when
the expectation holds:

- a quorum of good signatures is accepted only if the signers come in list order (`QuorumAcceptedIffSorted`, `UnsortedQuorumIsRefused`);
- the set in force may be one that is not effective or not for the shard (`InForceIsEligibleIff`, `FirstSetIsInForceAnyway`);
- a proposal hash reused at a later height is lost when the earlier height is decided (`DecisionIsExactIff`, `ReusedHashIsLost`);
- a proposal recovered from disk is not put back into memory, so its certificate only restarts the height (`OwnProposalIsCommittedIff`, `RecoveredProposalIsNotCommitted`);
- a block proposer calls a chunk valid without storing it (`ValidProposalIsStoredIff`, `ChunkIsValidButNotStored`);
- copies of a username transfer stop one shard short (`TransferReachesAllIff`, `TransferMissesLastShard`);
- raising the configured start block leaves blocks unqueried for good (`AttemptKeepsCoverageIff`, `RaisedStartLeavesHole`), also when it is beyond the chain's tip (`StartBeyondTipStoresTip`);
- a stored block number that cannot be read counts as zero, so recording can take it back (`NumberGoesBackIff`, `UnreadableNumberGoesBack`);
- decrementing zeros shortens the string (`PredecessorSubtractsOneIff`, `PredecessorOfSuccessorIff`, `SuccessorOfPredecessorIff`);
- a comment allows 16384 events per block, but a block cannot be confirmed once more than 16382 events were numbered in its round (`NumberRound`);
- a proposal validated again in a round numbers its events on, so an event's id depends on what a node did before in that round (`NumberIsKeptIff`, `ValidatedTwiceIsRenumbered`);
- pruning by a height that does not fit an event id deletes too little (`PruningIsExactIff`).

## Model

| member | source | states |
|---|---|---|
| `CatchUp.RunsAreSafe` | src/consensus/read_validator.rs:51-97 | On every run, even with values dropped on a full buffer: commits are consecutive from the start, buffered heights exceed the next height, the buffer keeps its bound |
| `CatchUp.RunsHoldOnly` | src/consensus/read_validator.rs:210-237 | Everything logged or buffered was delivered at exactly that height |
| `CatchUp.CatchUpIsExact` | src/consensus/read_validator.rs:196-237 | For every delivery order with duplicates in which no new height met a full buffer, the log is the longest gap-free run of delivered heights and the buffer is exactly the rest |
| `CatchUp.FewAreNotTurnedAway` | src/consensus/read_validator.rs:210-216 | If no more delivered heights than the buffer holds lie beyond the next one, none is turned away, in any order |
| `CatchUp.ExactIsUnique` | src/consensus/read_validator.rs:196-237 | The set of delivered heights determines log, last height and buffer |
| `CatchUp.CatchUpIsConfluent` | src/consensus/read_validator.rs:196-237 | Two delivery orders of the same heights, even with different buffer bounds, end in the same node |
| `CatchUp.LogsArePrefixes` | src/consensus/read_validator.rs:83-97 | With one value per height, of any two logs one is a prefix of the other, dropped values or not |
| `CatchUp.RunOfMapped` | src/consensus/read_validator.rs:196-237 | Catch-up never looks at values: viewing the outcome of a run is running on the viewed values, and the same heights are turned away |
| `CatchUp.CatchUpIsConfluentUpTo` | src/consensus/read_validator.rs:196-237 | Two delivery orders of the same heights, over values that may differ but show the same view per height, end in nodes that show the same |
| `CatchUp.LogsArePrefixesUpTo` | src/consensus/read_validator.rs:83-97 | Under one view per height, of any two viewed logs one is a prefix of the other, dropped values or not |
| `CatchUp.InOrderRedeliveryCatchesUp` | src/consensus/read_validator.rs:210-237 | Whatever was dropped before, values sent again in height order are all committed |
| `CatchUp.DrainOfAdvanced` | src/consensus/read_validator.rs:83-97 | Popping and committing the next buffered height does not change where the drain ends |
| `ReadNode.ReadValidator.constructor` | src/consensus/read_validator.rs:36-42 | The node starts at the confirmed height with an empty buffer |
| `ReadNode.ReadValidator.CommitDecidedValue` | src/consensus/read_validator.rs:51-81 | Panics exactly on a value of the other kind; otherwise the value is logged at the height and the last height moves there |
| `ReadNode.ReadValidator.ProcessBufferedBlocks` | src/consensus/read_validator.rs:83-97 | Panics exactly when the drain would log a value of the other kind; otherwise the pop-first loop commits exactly the gap-free run, leaves the rest, and counts the change of the last height |
| `ReadNode.ReadValidator.ProcessDecidedValue` | src/consensus/read_validator.rs:196-237 | For every value, of either kind: rejected values change nothing, accepted ones are one step of the catch-up machine, the count is the change of the last height, and the engine panics exactly when the step would log a value of the other kind |
| `ReadNode.RunIsCatchUp` | src/consensus/read_validator.rs:196-237 | A run over arbitrary values is catch-up over the verified ones |
| `ReadNode.ReadNodesConverge` | src/consensus/read_validator.rs:196-237 | Two nodes fed arbitrary values in any order, with any signer subsets, that verify the same heights and turn none away end with the same last height and the same identities logged and buffered |
| `ReadNode.DifferentSignersConverge` | src/core/types.rs:852-876 | Two nodes that get one chunk with certificates by different three of four validators log different values and converge |
| `ReadNode.SameHeightSameValue` | src/consensus/read_validator.rs:111-163 | Two accepted values of one height and round carry the same value id and payload hash while at most a third of the validators in force double-sign |
| `ReadNode.VerifiedAreFixed` | src/consensus/read_validator.rs:111-163 | One identity per height among everything two nodes verify follows from the signatures; it is not assumed |
| `ReadNode.LoggedWasAccepted` | src/consensus/read_validator.rs:99-109 | Every log entry was processed, passed the checks, and its own chunk or block header has the height of its place |
| `ReadNode.LoggedIsCertified` | src/consensus/read_validator.rs:111-163 | Behind every log entry of every run are more than two thirds as many signatures as validators in force at the certificate height, each by one of them and verifying on a precommit for the certificate height, round and value |
| `ReadNode.LoggedBlocksAreScheduled` | src/consensus/read_validator.rs:165-194 | Every block any run logs has a chain id of a network and the version of that network at its timestamp, in numbers |
| `ReadNode.BlockIsDeliveredIfScheduled` | src/consensus/read_validator.rs:196-208 | A certified block of the version its network runs at its time is delivered at its header height; one of any other version, or of no network, leaves the node unchanged |
| `ReadNode.ChunkIsDeliveredIffCertified` | src/consensus/read_validator.rs:196-208 | A certified chunk is always delivered at its height, an uncertified value never |
| `ReadNode.OwnKindNeverPanics` | src/consensus/read_validator.rs:51-81 | A run whose accepted values are all of the engine kind never reaches the panic |
| `ReadNode.OtherKindPanics` | src/consensus/read_validator.rs:51-81 | An accepted value of the next height and the other kind makes the engine panic |
| `ReadNode.CertifiedLogsAgree` | src/consensus/read_validator.rs:111-237 | Two nodes fed arbitrary values, dropped ones included, hold logs of value ids and payload hashes of which one is a prefix of the other, given bound certificates and at most a third of double signers |
| `ReadNode.LoggedPayloadsAgree` | src/consensus/read_validator.rs:111-237 | Where two logs reach a height with payloads of one kind, the hashes in the payloads agree |
| `Certificates.Contains` | src/consensus/read_validator.rs:143-146 | The membership test consumes the key iterator up to and including the first match, or to its end |
| `Certificates.LeastQuorum` | src/consensus/read_validator.rs:133-139 | The least quorum of n validators is two thirds of n rounded down, plus one |
| `Certificates.VerifySignatures` | src/consensus/read_validator.rs:111-163 | Accepts if and only if there is a quorum, every signature verifies, and the signers are an in-order subsequence of the key list |
| `Certificates.AcceptedSignersAreDistinct` | src/consensus/read_validator.rs:142-146 | The signers of an accepted certificate are distinct members of the list |
| `Certificates.AcceptedQuorumsIntersect` | src/consensus/read_validator.rs:133-139 | Two certificates accepted against one list share more than a third of the validators |
| `Certificates.NoConflictingCertificates` | src/consensus/read_validator.rs:111-163 | While at most a third double-sign, certificates accepted at one height and round name one value |
| `Certificates.QuorumAcceptedIffSorted` | src/consensus/read_validator.rs:128-146 | A quorum of verifying signatures by members is accepted if and only if the signers come in increasing order of address |
| `Certificates.UnsortedQuorumIsRefused` | src/consensus/read_validator.rs:128-146 | Both of two validators sign and verify, out of order: refused |
| `ValidatorSets.SnapchainValidatorSet.Add` | src/core/types.rs:462-476 | Adds exactly a fresh address of the same shard and keeps the list sorted without repetition |
| `ValidatorSets.CanonicalIsUnique` | src/core/types.rs:453-481 | A sorted, duplicate-free list is determined by its members |
| `ValidatorSets.NewStoredValidatorSet` | src/consensus/validator.rs:54-71 | The stored list is sorted, duplicate-free, and holds exactly the configured keys |
| `ValidatorSets.StoredKeysAreConfigured` | src/consensus/validator.rs:54-71 | The addresses of the stored list are exactly the configured keys, all on the shard |
| `ValidatorSets.SameKeysSameProposers` | src/core/types.rs:648-668 | Nodes configured with the same keys in any order and repetition hold the same list and select the same proposer at every height and round |
| `ValidatorSets.ProposersTakeTurns` | src/core/types.rs:648-668 | The first validator opens height 1, and the next round or the next height is the next validator in the list |
| `ValidatorSets.ExactTurns` | src/core/types.rs:648-668 | The exact number of turns of a validator in any stretch of rounds |
| `ValidatorSets.RoundRobinIsFair` | src/core/types.rs:648-668 | In any stretch of rounds or heights every validator proposes count/n times or once more, and in n turns exactly once |
| `ValidatorSets.GetValidatorSet` | src/consensus/validator.rs:33-45 | The loop returns the list chosen by the scan specification |
| `ValidatorSets.ChosenIsLatest` | src/consensus/validator.rs:33-45 | The scan settles on the latest eligible set, the earliest of equals, unless none is later than the first set |
| `ValidatorSets.InForceIgnoresOthers` | src/consensus/validator.rs:33-45 | Removing the later sets that do not list the shard or are not yet effective does not change the set in force |
| `ValidatorSets.EachShardHasItsSet` | src/consensus/validator.rs:33-45 | Of a set for shard 1 and a later one for shard 2, shard 1 keeps the first and shard 2 changes at the later height |
| `ValidatorSets.InForceIsEligibleIff` | src/consensus/validator.rs:33-45 | The set in force is for the shard and effective if and only if the first set is or an eligible set takes effect later than the first |
| `ValidatorSets.FirstSetIsInForceAnyway` | src/consensus/validator.rs:33-45 | A single set for another shard, effective at 10, is in force at height 5 |
| `ValidatorSets.InForceAdvances` | src/consensus/validator.rs:33-45 | As heights grow the set in force never goes back to one effective earlier |
| `ProposalStore.ProposedValues.AddProposedValue` | src/consensus/proposer.rs:65-77 | Both indexes are updated; the hash is listed at the height |
| `ProposalStore.HeightsUpTo` | src/consensus/proposer.rs:84-92 | The early break loses nothing: exactly the heights up to the decided one are collected, in order |
| `ProposalStore.ProposedValues.Decide` | src/consensus/proposer.rs:83-100 | All heights up to the decided one and every hash listed at them are gone, nothing else |
| `ProposalStore.RunsAreIndexed` | src/consensus/proposer.rs:57-100 | On every run each stored proposal is listed at its own height |
| `ProposalStore.NothingStaleSurvives` | src/consensus/proposer.rs:83-100 | After a decision, on every run, only proposals of later heights are left |
| `ProposalStore.DecisionIsExactIff` | src/consensus/proposer.rs:83-100 | A decision removes exactly the proposals up to the height if and only if no later proposal's hash is listed at one of those heights |
| `ProposalStore.StoreRefinesMap` | src/consensus/proposer.rs:57-100 | When equal hashes carry equal heights the two-index store refines a plain map and no entry dangles, over every add/decide sequence |
| `ProposalStore.ReusedHashIsLost` | src/consensus/proposer.rs:83-100 | A hash proposed at heights 1 and 2 is lost when height 1 is decided, while the plain map keeps it |
| `LocalState.PrefixSelectsHeight` | src/storage/store/node_local_state.rs:63-74 | A proposal key starts with a height's prefix if and only if it is of that shard and height |
| `LocalState.KeysAreDistinct` | src/storage/store/node_local_state.rs:63-74 | Different slots have different keys, negative rounds included |
| `LocalState.RangeSelectsHeight` | src/storage/store/node_local_state.rs:85-102 | The deleted key range holds exactly the proposals of the height and none of the progress markers |
| `LocalState.LocalStateStore.PutProposal` | src/storage/store/node_local_state.rs:76-83 | The byte store refines a map from slots: one slot is set, markers are untouched |
| `LocalState.LocalStateStore.GetProposal` | src/storage/store/node_local_state.rs:104-122 | The slot's proposal, or none |
| `LocalState.LocalStateStore.DeleteProposals` | src/storage/store/node_local_state.rs:85-102 | Exactly the slots of the shard and height are removed, markers are untouched |
| `Host.ShardValidator.ProposeValue` | src/consensus/validator.rs:293-324 | Returns the stored proposal of the slot if the disk gives one, else builds, remembers and stores a fresh one |
| `Host.ShardValidator.AddProposedValue` | src/consensus/validator.rs:260-291 | Blocks are stored only if judged valid, chunks always, values of the other kind never; the verdict per kind |
| `Host.VerdictIsValidIff` | src/consensus/proposer.rs:191-242 | A proposal is called valid if and only if the engine accepts one of the own kind, or a block proposer is sent a chunk |
| `Host.ShardValidator.Decide` | src/consensus/validator.rs:198-246 | The value is committed, memory and disk are pruned, and the state stays sound |
| `Host.HostState.HandleDecided` | src/consensus/malachite/host.rs:211-257 | Either the height restarts, exactly for an unknown value, or the value committed is the value published, with the certificate's hash |
| `Host.RunsAreSound` | src/consensus/malachite/host.rs:91-257 | After every run of proposals, received parts, synced values, certificates and restarts, memory holds only indexed values of the own kind and shard |
| `Host.DecidedCommitsWhatItBroadcasts` | src/consensus/malachite/host.rs:211-257 | After every run a certificate for a known value meets no missing proposal and no wrong kind, commits what it broadcasts, and leaves nothing of a decided height in memory nor of its own height on disk |
| `Host.ReceivedIsCommitted` | src/consensus/malachite/host.rs:211-257 | From any state an accepted proposal is committed by its certificate as it came, and broadcast if and only if this node proposed it |
| `Host.SyncedIsCommitted` | src/consensus/malachite/host.rs:316-348 | From any state an accepted synced value is committed by its certificate, as a block on shard 0 and as a chunk elsewhere |
| `Host.FreshProposalIsCommitted` | src/consensus/validator.rs:293-324 | With nothing on disk for the slot the proposal carries the drawn hash and content and the node's address, shard and kind, and its certificate commits and broadcasts it |
| `Host.DiskKeepsSlot` | src/consensus/validator.rs:198-246 | A stored slot survives any events, restarts and certificates for values not in memory included, until a certificate for a value in memory deletes its height or an unreadable disk is overwritten |
| `Host.ProposingIsCrashSafe` | src/consensus/validator.rs:293-324 | Two requests for one height and round return the same proposal across restarts and restarted heights, unless the slot was deleted or overwritten in between |
| `Host.OwnProposalIsCommittedIff` | src/consensus/validator.rs:299-308 | A certificate for the value just proposed commits it if and only if it was built afresh or was in memory anyway |
| `Host.RecoveredProposalIsNotCommitted` | src/consensus/malachite/host.rs:211-233 | Propose, restart, recover, certificate: nothing is committed, and the next request returns the proposal again |
| `Host.ValidProposalIsStoredIff` | src/consensus/proposer.rs:499-560 | A proposal reported valid is in memory if and only if it is of the proposer's kind or was there before |
| `Host.InvalidIsStoredIff` | src/consensus/proposer.rs:191-242 | A new proposal is called invalid and kept if and only if it is a chunk refused by the engine of a shard proposer |
| `Host.RefusedChunkIsCommitted` | src/consensus/proposer.rs:229-263 | A chunk reported invalid is still committed by its certificate, a block reported invalid is not |
| `Host.ChunkIsValidButNotStored` | src/consensus/proposer.rs:499-560 | A chunk sent to a block proposer is called valid, is not stored, and its certificate changes nothing |
| `Blocks.PollStores` | src/consensus/proposer.rs:366-398 | One poll adds, for exactly the stores that had not answered before, a witness with the height, hash and shard root of the answered chunk |
| `Blocks.CollectConfirmedShardWitnesses` | src/consensus/proposer.rs:353-409 | With one store per shard: if every store answered in some poll, one witness per store in shard order with the height, hash and shard root of its first answer; else nothing |
| `Blocks.OneWitness` | src/consensus/proposer.rs:377-381 | The witness of a chunk with hash [1] and shard root [2] has exactly these |
| `Blocks.CollectionIsOrderFree` | src/consensus/proposer.rs:353-409 | Complete collections over fixed per-shard chunks are equal, whatever the order and number of polls, and the i-th witness is of the chunk of the i-th shard |
| `Blocks.HonestBlockIsValidIff` | src/consensus/proposer.rs:424-560 | A proposer's block is judged valid if and only if the validators share the network and next height and every shard was collected |
| `Blocks.AlteredBlockIsRefused` | src/consensus/proposer.rs:499-560 | A valid block with its height, chain id, version or witness digest altered is refused, and one with another witness list unless length and digest agree; parent and hash are not looked at |
| `Blocks.MovedBlockIsValidIff` | src/consensus/proposer.rs:519-530 | A valid block moved to another time stays valid if and only if the network runs the same protocol version then |
| `Blocks.ProposedParentIs` | src/consensus/proposer.rs:437-461 | The parent is the genesis message at height 1, else the hash of the last block, else 32 zeros; the hash is the digest of the header |
| `Blocks.ValidateProtocolVersion` | src/consensus/read_validator.rs:165-194 | Accepts if and only if the header names some network and carries the version scheduled there at its time |
| `Blocks.AcceptedBlockPassesReadNode` | src/consensus/read_validator.rs:165-194 | Any block a validator accepts, honest or not, passes the read node's version check |
| `Versions.FirstEntryAlwaysApplies` | src/version/version.rs:80-97 | A schedule that starts at zero has a version for every time, so the panic is unreachable |
| `Versions.LastActiveIs` | src/version/version.rs:86-89 | The version in force is that of the last schedule entry active at the time |
| `Versions.VersionsSwitchOnce` | src/version/version.rs:33-127 | Each network runs protocol version 1 without username routing before one stated time and version 2 with it from then on |
| `Versions.ProtocolVersionIsMonotone` | src/version/version.rs:80-127 | On every network the protocol version never goes back as time passes |
| `Mempool.KeyLessIsTotal` | src/mempool/mempool.rs:141-166 | Keys are totally ordered: kind, then timestamp, then identity |
| `Mempool.UserKeysAre` | src/mempool/mempool.rs:168-180 | User messages share a key if and only if they share time and hash, never with a validator message; the key has Unix time |
| `Mempool.ValidatorKeysAre` | src/mempool/mempool.rs:182-219 | Transfers share a key if and only if they share id and proof time, on-chain events if and only if they share identity and block time |
| `Mempool.RouteFid` | src/mempool/routing.rs:11-18 | The shard lies between 1 and the shard count |
| `Mempool.RoutingFollowsHash` | src/mempool/routing.rs:11-18 | Fids with equal low 32 bits route alike, and the shard is the remainder of the hash plus one |
| `Mempool.Mempool.MessageIsValid` | src/mempool/mempool.rs:460-478 | The verdict and the limiter's move: known messages are refused before the limiter is asked |
| `Mempool.Mempool.InsertIntoShard` | src/mempool/mempool.rs:524-570 | Accepts exactly a new key that passes the checks; the pool and the ledger grow by that message |
| `Mempool.Mempool.Insert` | src/mempool/mempool.rs:480-522 | The routed shard, and for username transfers the copies, receive the message; the result is that of the routed shard |
| `Mempool.InsertIsAcceptedIff` | src/mempool/mempool.rs:460-570 | An insert is accepted if and only if the key is new, the routed store does not hold a message of a keyed type, and the limiter, if asked, says yes; a refused user message changes no pool; the limiter is asked once or not at all |
| `Mempool.UnlimitedInsertIsAcceptedIff` | src/mempool/mempool.rs:417-478 | Without a limiter a new user message is accepted if and only if its store does not have it |
| `Mempool.ValidatorMessagesAreRouted` | src/mempool/mempool.rs:480-522 | A transfer reaches the shard of its proof fid, an on-chain event that of its fid, and no other shard changes but the copies of a transfer under the routing fix |
| `Mempool.Mempool.PullMessages` | src/mempool/mempool.rs:435-458 | Pops the shortest initial run of the pool that delivers the maximum, or the whole pool, and returns its valid messages |
| `Mempool.PoppedIsDeliveredIff` | src/mempool/mempool.rs:435-478 | Each popped message is delivered if and only if its store does not hold it and the limiter, asked once per such user message in order, says yes; else it is discarded |
| `Mempool.Mempool.RemoveDecided` | src/mempool/mempool.rs:583-612 | Exactly the keys of the chunk's messages leave the shard's pool |
| `Mempool.DecidedKeysLeave` | src/mempool/mempool.rs:583-612 | After a chunk a key is left in the pool of its shard if and only if no user or system message of the chunk has it; other shards are unchanged |
| `Mempool.RunsConserve` | src/mempool/mempool.rs:435-612 | In every reachable state entries sit under their own keys, user messages in the shard they route to, and per shard accepted = pending + delivered + discarded + removed |
| `Mempool.PullsDeliverOnlyNew` | src/mempool/mempool.rs:263-308 | In every run no pull delivers a user message of a type with a primary-key set that its shard's store already has, and only user messages are discarded |
| `Mempool.PullsDiscardWithReason` | src/mempool/mempool.rs:435-478 | In every run whatever a pull discards was in the store of its shard or met a refusal of the limiter during that pull |
| `Mempool.PullIsOrdered` | src/mempool/mempool.rs:435-458 | At most max messages in strictly increasing key order, validator messages first; what is left comes later; a short result means an empty pool |
| `Mempool.PulledOldestFirst` | src/mempool/mempool.rs:141-152 | Pulled user messages come oldest first and by hash within a second, transfers and on-chain events by their times, and no validator message after a user message |
| `Mempool.TransferReachesAllIff` | src/mempool/mempool.rs:495-520 | A username transfer reaches every shard if and only if it routes to the last shard or the last shard held it |
| `Mempool.TransferMissesLastShard` | src/mempool/mempool.rs:495-520 | A run of one insert with two shards leaves the transfer in the first pool only |
| `OnchainSync.WindowsCover` | src/connectors/onchain_events/mod.rs:834-872 | Every block from start to stop lies in one window, and in a second one exactly when it is the joint of two |
| `OnchainSync.Subscriber.RecordBlockNumber` | src/connectors/onchain_events/mod.rs:527-545 | The stored number becomes the maximum of itself and the block when the disk works; a failed write leaves it, and an unreadable number counts as zero |
| `OnchainSync.NumberGoesBackIff` | src/connectors/onchain_events/mod.rs:527-545 | Recording lowers the stored number if and only if it cannot be read, can be written, and the block is lower and not zero |
| `OnchainSync.UnreadableNumberGoesBack` | src/connectors/onchain_events/mod.rs:527-545 | One window recorded by a node that cannot read its number 5000 takes it back to 1001 |
| `OnchainSync.Subscriber.SyncHistoricalEvents` | src/connectors/onchain_events/mod.rs:834-872 | The batch loop ends; wherever it dies and whatever the disk does, the queries made and the number stored are those of the windows completed and contracts reached |
| `OnchainSync.Subscriber.Sync` | src/connectors/onchain_events/mod.rs:1063-1078 | Start and stop are chosen from the stored number, the configuration and the chain; the outcome is that of one attempt |
| `OnchainSync.QueriesKeepWithin` | src/connectors/onchain_events/mod.rs:1063-1078 | No attempt asks below the configured start, beyond the chain's latest block or beyond a configured stop |
| `OnchainSync.NumberKeepsWithin` | src/connectors/onchain_events/mod.rs:1063-1078 | Nor does it store a number beyond them, and a finished one with a working disk has reached one of the two |
| `OnchainSync.AttemptKeepsCoverage` | src/connectors/onchain_events/mod.rs:834-872 | An attempt cut off anywhere, with any disk failures, keeps every block up to the stored number queried for every contract; while reads work the number never decreases |
| `OnchainSync.CheckpointIsCovered` | src/connectors/onchain_events/mod.rs:1063-1078 | Over any sequence of cut-off attempts that start no later than the first block not yet vouched for, no block up to the stored number is left unqueried |
| `OnchainSync.AttemptKeepsCoverageIff` | src/connectors/onchain_events/mod.rs:1063-1078 | Every outcome of a run, wherever it is cut off and whatever the disk does, keeps coverage if and only if every block that the configured start passes over and the stop does not was queried before |
| `OnchainSync.RaisedStartLeavesHole` | src/connectors/onchain_events/mod.rs:1063-1078 | After a finished run an unqueried block below the configured start, up to the stop, is vouched for by the stored number and still unqueried |
| `OnchainSync.StartBeyondTipStoresTip` | src/connectors/onchain_events/mod.rs:848-859 | From a stored 100, a start of 10000 and a tip of 5000: 5000 is stored and no block from 101 on is queried |
| `ByteStrings.BytesCompare` | src/storage/util.rs:13-30 | The sign of the comparison is lexicographic order, a prefix coming first |
| `ByteStrings.LessIsNumeric` | src/storage/util.rs:13-30 | For equal lengths lexicographic order is numeric order |
| `ByteStrings.IncrementVec` | src/storage/util.rs:33-57 | The carry loop computes the successor |
| `ByteStrings.SuccessorAddsOne` | src/storage/util.rs:33-57 | The successor spells one more for every byte string, and only strings of 255s grow |
| `ByteStrings.DecrementVec` | src/storage/util.rs:84-108 | The borrow loop computes the predecessor |
| `ByteStrings.PredecessorSubtractsOneIff` | src/storage/util.rs:84-108 | The decrement spells one less if and only if some byte is not zero |
| `ByteStrings.PredecessorOfSuccessorIff` | src/storage/util.rs:33-108 | Decrementing undoes an increment if and only if the increment did not overflow |
| `ByteStrings.SuccessorOfPredecessorIff` | src/storage/util.rs:33-108 | Incrementing undoes a decrement if and only if some byte is not zero |
| `ByteStrings.RangeIsPrefixIff` | src/storage/util.rs:33-57 | The keys between a string and its increment are exactly those it prefixes if and only if it is not all 255 |
| `EventIds.EventIdRoundTripsIff` | src/storage/store/account/event.rs:75-89 | Packing and unpacking an id loses nothing if and only if height and sequence fit their bits |
| `EventIds.IdsFollowBlocks` | src/storage/store/account/event.rs:75-89 | Ids are ordered by height, then sequence |
| `EventIds.HubEventIdGenerator.GenerateId` | src/storage/store/account/event.rs:38-73 | One id or an error when the height or sequence is used up; confirmations take sequence 0 and do not advance it |
| `EventIds.ConfirmationTakesNoNumber` | src/storage/store/account/event.rs:59-69 | A confirmation gets sequence 0 and the next event is numbered as if it had not been |
| `EventIds.HubEventIdGenerator.NumberEvents` | src/storage/store/account/event.rs:38-73 | The events of a pass take consecutive sequences from wherever the generator stands, and none past the limit |
| `EventIds.HubEventIdGenerator.NumberRound` | src/storage/store/engine.rs:397-443 | In a round every pass over a proposal numbers its events on from the passes before, each event getting an id up to sequence 16383; the confirmation gets sequence 0 if at most 16382 events were numbered in all, else an error |
| `EventIds.NumberIsKeptIff` | src/storage/store/engine.rs:1339-1379 | An event has the same id in a later pass of the round if and only if nothing was numbered before, or it gets no id at all |
| `EventIds.ValidatedTwiceIsRenumbered` | src/storage/store/engine.rs:1339-1379 | The one event of a proposal at height 1 has id 16385 after one pass and 16386 after two |
| `EventIds.NumbersAreDistinct` | src/storage/store/account/event.rs:38-79 | No two positions of any two blocks get the same id |
| `EventIds.KeysFollowIds` | src/storage/store/account/event.rs:128-135 | Event keys are ordered as ids are |
| `EventIds.PruningIsExactIff` | src/storage/store/account/event.rs:206-227 | Pruning deletes exactly the events below the stop height if and only if that height fits an id |
| `EventReplay.StampPage` | src/network/server.rs:484-508 | With a kept chunk still stored, every event is stamped as a fresh lookup would, missing chunks included, while chunks are only added; each field is stated against the stored event |
| `EventReplay.GetEvents` | src/storage/store/account/event.rs:148-187 | A page is the start of the events in range in id order; there is a next page token exactly when the page is full |
| `EventReplay.BoundsSelect` | src/storage/db/rocksdb.rs:370-412 | The byte bounds of a page select exactly the ids after the token, or from the start, up to the stop |
| `EventReplay.GetEventServes` | src/network/server.rs:437-470 | A served event has the block number its id lies in, the shard, the time of that block chunk or its own, and its body without the deleted messages of a merged compact state |
| `EventReplay.GetEventsFromStore` | src/network/server.rs:472-518 | A stamped page continues the replay where the last one ended, the kept chunk handed on |
| `EventReplay.Replay` | src/network/server.rs:842-877 | For every page size, while events and chunks are being added, the subscriber is sent the events from the start id that the store read last holds and that are of a wanted kind, each as a fresh single lookup serves it |
| `EventReplay.SentServesStored` | src/network/server.rs:842-877 | Every event a replay sends is so served from a stored one, against the chunks stored when it was stamped |
| `EventReplay.StoredIsPrefix` | src/network/server.rs:842-877 | While later blocks add events, what a replay covers of a store comes first in what it covers of a later one |
| `EventReplay.DeliversExactly` | src/network/server.rs:862-868 | An event is sent if and only if it is stored in range and of a wanted kind |
| `EventReplay.DeliversInOrder` | src/network/server.rs:862-868 | Events are sent in increasing id order, none twice |
| `ChunkWriter.MultiChunkWriter.Write` | src/storage/db/multi_chunk_writer.rs:83-98 | The buffer goes whole into the last part if it fits, else into a new part |
| `ChunkWriter.MultiChunkWriter.WriteAll` | src/storage/db/multi_chunk_writer.rs:42-98 | The files in order hold exactly the bytes written |
| `ChunkWriter.PartsAreTheWrites` | src/storage/db/multi_chunk_writer.rs:83-98 | No write is lost, repeated, split or reordered |
| `ChunkWriter.PartsAreWellSized` | src/storage/db/multi_chunk_writer.rs:83-98 | A part exceeds the maximum only if it is one write, and adjacent parts together exceed it |
| `ChunkWriter.PartCountIsBounded` | src/storage/db/multi_chunk_writer.rs:83-98 | (parts - 1) * (max + 1) is at most twice the bytes written |
| `ChunkWriter.WriterUsesFewestParts` | src/storage/db/multi_chunk_writer.rs:83-98 | No other way to cut the same writes into fitting parts uses fewer parts |

## Left out

- The consensus engine (votes, rounds, locking, synchronisation): the host is modelled over the events it is sent, and no agreement across rounds is claimed.
- The shard and block engines, the stores behind them and the merkle trie: a commit is an entry in a log, a verdict is a parameter.
- CertifiedLogsAgree: the match between a certificate and the height and hash it arrives with, and one round per height, are assumed of accepted values (`Bound`), since the read node takes the height from the header and the quorum from the certificate; the same holds for ReadNodesConverge.
- ReadValidator: panics on a missing header or certificate and on an unknown chain id are not modelled as outcomes; a block with an unknown chain id counts as refused.
- ShardValidator: panics on proposals or commits for another shard are preconditions.
- HandleDecided: delays, metrics and the message that starts the next height are not modelled.
- SnapchainValidatorSet: the constructor from a list of mixed shards is not modelled, only insertion one by one, which is how stored sets are built.
- The order of equal addresses by their remaining fields: the sort is any sort by shard and address.
- Heights near the top of 64 bits: increments do not wrap in this model.
- The mempool's capacity check, which counts shard pools rather than messages, and its gossip and metrics.
- PullMessages: the rate limiter is a stream of yes/no answers; its refill and its reset after a storage purchase are not modelled.
- Live sync of on-chain events, retries, and what is done with the logs a query returns.
- Replay: one store at a time; events and chunks may be added during a replay but not pruned, added events have larger ids, as `IdsFollowBlocks` gives for later blocks, and a page reads one state of the events. The live stream that follows and reverse pages are not modelled.
- WriteAll: compression and file errors are not modelled; the encoder takes whole buffers.
- LocalStateStore: reads and writes succeed; failed disk access is a parameter of `Host`.
- Conversions between protobuf and internal forms, HTTP, RPC and gossip plumbing, message field validation, configuration, clocks and logging.
