# Verified model of the SOL ⇄ DCC bridge

A Dafny 4.11 model of the bridge's validator, prover and shared libraries, with proofs of the properties the
bridge rests on. `dafny verify dfyconfig.toml` checks the whole project.

| Component of the repository | Files here |
|---|---|
| M-of-N attestation consensus: one engine, its processed set, and a network of engines with faulty keys | `Engine.dfy`, `ProcessedSet.dfy`, `EngineInvariants.dfy`, `EngineRounds.dfy`, `EngineOutcomes.dfy`, `Network.dfy`, `Whitelists.dfy`, `Replays.dfy` |
| Messages the committee signs | `Messages.dfy`, `Base58.dfy` |
| Merkle trees of the prover (sparse) and the validator (dense), and what a proof proves | `MerkleTree.dfy`, `MerkleBinding.dfy` |
| Checkpoint windows of the ZK service | `Checkpoints.dfy`, `CheckpointInvariants.dfy`, `CheckpointEffects.dfy` |
| Deposit preimage, its parser, the unlock transaction | `DepositEncoding.dfy`, `DepositParsing.dfy`, `TextDecoding.dfy`, `UnlockSubmission.dfy` |
| Circuit inputs, and the deposit circuit against the checkpoint windows | `CircuitBits.dfy`, `DepositCircuit.dfy` |
| Fees, daily outflow limit, backing of the wrapped token, reconciliation | `Fees.dfy`, `RateLimits.dfy`, `Solvency.dfy`, `Reconciliation.dfy` |
| Cursors of the two chain watchers | `DccScan.dfy`, `SolanaScan.dfy` |
| Bytes, integers, shifts, overlapping writes, options | `Bytes.dfy`, `Buffers.dfy`, `Options.dfy` |

How the model is built:

- Objects that the program updates are classes (`ConsensusEngine`, `SparseTree`, `ZkBridgeService`, `RateLimiter`,
  `ReconciliationDaemon`, `DccWatcher`, `SolanaWatcher`), buffers written by offset are arrays. Each method is proved equal
  to a function on the object's state; runs are sequences of those functions in any order the environment allows, and the
  theorems are about all runs.
- Beside the theorems about runs, each main operation has a lemma that says its effect, or what its bytes say, in terms of
  inputs, configuration fields and literal constants alone (`EngineOutcomes`, `CheckpointEffects`, the lemmas named
  `...Says`, `...Effect` and `...Exactly`).
- `await` splits a method into steps between which anything may happen (`ProposeUntilSigning` / `ProposeAfterSigning`,
  `CloseWindow` / `CloseWindowDone`, `Start` / `StartDone`). Timers and waiting calls are part of the state.
- Thrown errors are `None`. Clocks, fetched data, and whether a read, a save or a fetch succeeds are arguments; for the
  consensus engine's file, whose writes happen inside other steps, it is part of the state.
- Keccak is any function from byte strings to 32 bytes. Binding theorems assume that no two of the finitely many preimages
  they name collide. A signature check is any predicate; honest keys sign only through the engine's signing step.
- Lamports and wSOL units are mathematical integers; fixed-width writes are modelled with their wrap-around or range error.

## What the proofs found

- `Whitelists.EmptyWhitelistAchievesAlone`: an empty whitelist is not in force, and nothing in the repository's TypeScript
  calls the engine's `registerValidator` or `syncValidatorSet` (scripts of that name call the chains). As long as that is so,
  keys that belong to nobody on the committee count towards the threshold. `Whitelists.WhitelistBoundsExactly` says what the
  whitelist must be instead.
- `EngineRounds.StaleCleanupLosesRound`: the timer that tidies up after a success names the transfer, so it also removes
  a round opened for that transfer in the meantime, and no outcome is ever emitted for it. Nothing before the signature
  stops the second proposal.
- `ProcessedSet.EmptyIdStopsEviction`: the bound of 100,000 processed ids is kept exactly while the oldest id is not the
  empty string; once it is, nothing is evicted any more.
- `CheckpointInvariants.DepositCanBeStranded`: three deposits and two timer events can leave a deposit in a window that
  nothing will ever close, because a closing call opens a new window over a non-empty one and clears whichever timer is
  remembered.
- `MerkleBinding.ValidatorRootIgnoresTrailingZeroId`: the validator pads with the leaf of an all-zero id, so its root does
  not tell a trailing all-zero id from padding. The prover's padding leaf has no prefix, and its root determines the list.
- `Base58.AddressSurvives`: an address whose decoded bytes end in a zero byte is altered on its way through the 32-byte
  recipient field.
- `DepositParsing.ParseUndoesEncode`: the parser has the default separator's 17 bytes built in, so a message encoded with a
  separator of another length is read at the wrong places.
- `DepositParsing.ParseRestoresText`: a separator that begins with a byte-order mark loses it in parsing, and
  `DepositParsing.EncodeRestoresBytes`: a message whose separator is not UTF-8 is not restored by encoding it again.
- `DepositCircuit.SingleProofInput`: a deposit whose recipient decodes to fewer than 32 bytes is taken into a window and gets
  an id, but no circuit input can be built for it.
- `Fees.DefaultTiersDrop`: with the default rates, sending one lamport more at the 100 SOL boundary yields less.
- `RateLimits.TwiceTheCapIsReached`: twice the daily amount can leave within one millisecond, at a window's end and the next
  one's beginning; that is also the most a day allows.
- `RateLimits.OverspendsExactly`: a restart lets the open window be overspent exactly when neither the window is over or
  empty nor the file holds its current counter; failed writes do no other harm. `RateLimits.UnsavedSpendingIsUnbounded`
  repeats such restarts.
- `Reconciliation.CriticalExactly`, `Reconciliation.OneMintBetweenReadsRaisesAlarm`, `Reconciliation.FailedSolanaReadMisleadsExactly`:
  the daemon compares reads made at different times and takes a failed read for zero, so it can report a fully backed
  bridge as critical; it is given exactly when. `Reconciliation.SafeReadOrder` names an order of reading that never does.
- `DccScan.RestartLosesHeightsExactly`, `SolanaScan.PollLeavesHoleExactly`: exactly when a restart or a poll loses work.

Where code and comments disagree the model follows the code: leaves and nodes are hashed behind 0x00 and 0x01 although two
file headers describe a leaf as the plain hash of the id, and the unlock chain id is the configured one, not the "default: 2"
of a comment.

## Model

| member | source | states |
|---|---|---|
| Network.NoQuorumOnAnotherMessage | validator/src/consensus/engine.ts:207-471 | in every run of N engines over a network that delays, drops, repeats and reorders, and for every byte string that is not the message of some finalised event: valid votes on it under distinct keys number at most the faulty keys |
| Network.NoQuorumOnAnotherContent | validator/src/consensus/engine.ts:207-471 | in terms of events: no quorum forms on the message of an event whose content differs from the one finalised for its transfer |
| Network.OtherMessageVotesAreFaulty | validator/src/consensus/engine.ts:276-398 | a counted vote is on the message of a finalised event or under a faulty key |
| Network.AchievedRestsOnHonestValidators | validator/src/consensus/engine.ts:425-471 | every achieved round rests on at least required − f distinct honest validators, each with its own signature on the message, and its event was finalised; required is the configured threshold of its kind, by default the general one |
| Network.SignersFinalisedThatEvent | validator/src/consensus/engine.ts:207-270 | each honest signer of a round's message finalised an event with that very content, and signed mints with its mint key and unlocks with its unlock key |
| Network.AchievedRoundsAgree | validator/src/consensus/engine.ts:425-471 | rounds resolved for one transfer on any two nodes agree on the message |
| Network.QuorumNeedsSigners | validator/src/consensus/engine.ts:276-398 | distinct valid keys on a canonical message are outnumbered by its honest signers by at most f |
| Network.CanonicalDeterminesContent | validator/src/consensus/engine.ts:510-616 | the signed bytes determine kind, transfer and event: the whole deposit, or recipient, amount and id of a burn and its time to the second |
| Network.CanonicalSays | validator/src/consensus/engine.ts:510-616 | what is signed, for the configured chains and expiry window: the mint text field by field, or the 140 unlock bytes; and exactly when an event has a message |
| Network.RunKeepsNetInv | validator/src/consensus/engine.ts:207-501 | every vote counted anywhere was signed by its honest key's owner or belongs to a faulty key, in every state of every run |
| Whitelists.WhitelistBoundsExactly | validator/src/consensus/engine.ts:285-295 | as long as anybody outside the committee and the faulty keys can sign anything: unforgeability alone bounds whom a node can count, by those two groups, if and only if its whitelist is in force and lists nobody else who can sign; entries under which nothing verifies do no harm |
| Whitelists.ListedRunIsRun | validator/src/consensus/engine.ts:276-309 | a run over a network bound by unforgeability alone is one of the runs the network theorems are about, if every receiving node's whitelist is proper |
| Whitelists.WhitelistsBoundTheFaulty | validator/src/consensus/engine.ts:276-471 | then every achieved round rests on at least required − f honest validators, f being the listed keys that are not the committee's |
| Whitelists.EmptyWhitelistAchievesAlone | validator/src/consensus/engine.ts:118-133 | with whitelists never filled, from every initial state required − 1 fresh keys turn one honest validator's proposal into an achieved round with no other honest signer |
| EngineInvariants.ExecKeepsInv | validator/src/consensus/engine.ts:207-501 | in every reachable state, overlapping proposals and stale timers included, votes of a round have distinct keys, node ids equal to the key, the round's message and verified signatures; unresolved rounds are below threshold |
| EngineInvariants.OneOutcomePerRound | validator/src/consensus/engine.ts:425-501 | a round emits at most one outcome, so a failed round never succeeds later, and success only at the threshold of its own type |
| EngineOutcomes.AchievedExactly | validator/src/consensus/engine.ts:415-431 | in every run an unlock is achieved if and only if its votes number at least minValidatorsUnlock, or minValidators when that is unset, and a mint likewise with minValidatorsMint |
| EngineOutcomes.OpenExactly | validator/src/consensus/engine.ts:415-431 | in every run an open round has fewer votes than its kind asks for |
| EngineOutcomes.EveryVoteVerifies | validator/src/consensus/engine.ts:231-256 | in every run of a node whose signer works, every vote of every stored round and outcome verifies, the node's own included, and so does everything it broadcasts |
| EngineOutcomes.BroadcastIsCounted | validator/src/consensus/engine.ts:234-259 | what a node broadcasts on finishing a proposal changes every peer that has an open round on the same message, lets its key in and has no vote of it |
| EngineOutcomes.ProposalEffect | validator/src/consensus/engine.ts:231-270 | the whole effect of finishing a proposal: one vote with the node's key and signature, broadcast; below the threshold an open round with a timeout, otherwise one success at once; nothing else changes |
| EngineOutcomes.TimeoutEffect | validator/src/consensus/engine.ts:476-501 | the whole effect of a timeout: one failure with the round's votes and its kind's threshold, the round kept as resolved with a removal scheduled |
| EngineOutcomes.MarkEffect | validator/src/consensus/engine.ts:405-413 | a marked transfer is in the set, on disk if writing works, and is refused from then on; nobody leaves a set below its maximum; no round is touched |
| EngineOutcomes.RestartEffect | validator/src/consensus/engine.ts:120-133 | a restart forgets rounds, timers and whitelist and takes the set from the file |
| EngineInvariants.DistinctKeysAreDistinctNodes | validator/src/consensus/engine.ts:358-374 | the two duplicate guards agree: node ids are distinct if and only if keys are |
| EngineInvariants.ProcessedSurvivesRestarts | validator/src/consensus/engine.ts:138-171 | along every run that never marks the empty id, restarts included, the set stays bounded and duplicate-free, and while writes succeed a restart restores it in order |
| EngineInvariants.RestartRestoresAnEarlierSet | validator/src/consensus/engine.ts:160-171 | whichever writes fail, a restart restores the ordered set the engine held at some moment of the run, or the one saved before it |
| EngineInvariants.ProcessedIdStays | validator/src/consensus/engine.ts:405-457 | along every run, restarts, timeouts and resolutions included, a processed id stays while fewer than 100,000 marks follow its own and writes succeed |
| Replays.ProcessedTransferIsNotReplayed | validator/src/consensus/engine.ts:207-220 | in every network run, while that holds, the node takes up no proposal for the transfer beyond those already waiting for a signature, and opens no round for it if there were none |
| Replays.EngineFollowsItsActions | validator/src/consensus/engine.ts:207-501 | a node's state in a network run is where its own actions, in order, have brought it |
| Bytes.HexText | validator/src/consensus/engine.ts:238 | node ids print keys as two lower-case hexadecimal digits a byte, the high one first |
| EngineRounds.CountedExactly | validator/src/consensus/engine.ts:276-388 | a received vote changes anything if and only if it is complete, listed, bound to its key, verified, and over the message of an open round its key has not voted in; the repeated-node-id guard refuses nothing more |
| EngineRounds.VoteEffect | validator/src/consensus/engine.ts:388-471 | below the threshold of its kind the round gains one vote and nothing is emitted; at it the round is gone, one success with all its votes is emitted and a removal scheduled; other rounds, the processed set and the whitelist are untouched |
| EngineRounds.RoundsAreTimed | validator/src/consensus/engine.ts:264-269 | in every reachable state every open round has a timeout scheduled and every failed one its removal |
| EngineRounds.RoundEndsExactly | validator/src/consensus/engine.ts:207-501 | an open round goes on with its votes, or an outcome for it is emitted, or a later proposal, a removal timer or a restart displaces it without one |
| EngineRounds.OutcomePossibleExactly | validator/src/consensus/engine.ts:207-501 | a round without an outcome can still have one in some continuation if and only if it is open; once displaced it stays silent for ever |
| EngineRounds.StaleCleanupLosesRound | validator/src/consensus/engine.ts:467-469 | from the start, for a transfer not yet processed, a proposal, one vote and the proposal again, both of which pass the guards before signing, leave an open round beside the removal timer of the success before it; if that fires, the round is gone and no continuation emits an outcome for it |
| ConsensusEngine.ConsensusEngine.ProposeUntilSigning | validator/src/consensus/engine.ts:207-229 | a proposal starts exactly when the transfer is neither processed nor pending, with the canonical message |
| ConsensusEngine.ConsensusEngine.ProposeAfterSigning | validator/src/consensus/engine.ts:231-270 | the round is put in place whatever happened meanwhile, broadcast, checked, and given a timer if still open |
| ConsensusEngine.ConsensusEngine.ReceiveAttestation | validator/src/consensus/engine.ts:276-398 | the whole new state: a vote is counted only past every guard, in the source's order |
| ConsensusEngine.ConsensusEngine.CheckConsensusFor | validator/src/consensus/engine.ts:425-471 | resolves, deletes, persists and emits exactly at the threshold |
| ConsensusEngine.ConsensusEngine.CheckConsensusTimeout | validator/src/consensus/engine.ts:476-501 | a timer of any age fails only a round that is pending and open |
| ConsensusEngine.ConsensusEngine.MarkTransferSubmitted | validator/src/consensus/engine.ts:405-413 | adds at the end, evicts the oldest above the cap, persists |
| ConsensusEngine.ConsensusEngine.LoadProcessedTransfers | validator/src/consensus/engine.ts:138-155 | the set is the last 100,000 entries of the file, in order, without repeats |
| ConsensusEngine.ConsensusEngine.SyncValidatorSet | validator/src/consensus/engine.ts:193-201 | the whitelist becomes the given keys and the node's own mint key |
| ConsensusEngine.ConsensusEngine.constructor | validator/src/consensus/engine.ts:120-133 | an engine with no rounds, no whitelist and the processed set of its file |
| ConsensusEngine.ConsensusEngine.Cleanup | validator/src/consensus/engine.ts:467-469 | removes whatever round the transfer has now |
| ProcessedSet.MarkIsQueue | validator/src/consensus/engine.ts:405-413 | marking keeps insertion order and drops at most the oldest id |
| ProcessedSet.BoundKeptExactly | validator/src/consensus/engine.ts:405-413 | a mark breaks the size bound if and only if a new id meets a full set headed by the empty id |
| ProcessedSet.RunStaysBounded | validator/src/consensus/engine.ts:405-413 | with non-empty ids the set never exceeds its maximum |
| ProcessedSet.EmptyIdStopsEviction | validator/src/consensus/engine.ts:407-411 | with the empty id oldest every fresh id is kept and none leaves |
| ProcessedSet.MarksKeepNewest | validator/src/consensus/engine.ts:405-413 | marking fresh ids keeps exactly the newest 100,000 of all, in order: each leaves at the 100,000th mark after its own and not before |
| ProcessedSet.LoadRestoresExactly | validator/src/consensus/engine.ts:138-171 | loading what was saved gives the same list if and only if it is within the cap |
| ProcessedSet.LoadKeepsMostRecent | validator/src/consensus/engine.ts:138-155 | what is loaded is what the last 100,000 entries of the file hold, in order when none is repeated |
| ProcessedSet.ProcessedCannotStart | validator/src/consensus/engine.ts:207-229 | a proposal is taken up if and only if its transfer is neither processed nor pending and its event has a message, which it then carries |
| ProcessedSet.LoadIsBounded | validator/src/consensus/engine.ts:144-148 | whatever the file holds, the loaded list is within the cap |
| ProcessedSet.ResolvingNeverEvicts | validator/src/consensus/engine.ts:450-457 | the eviction inside checkConsensus never fires on a bounded set |
| Messages.ConstructMintMessage | validator/src/consensus/engine.ts:526-559 | the bytes are the UTF-8 of prefix, transfer id, base58 recipient, amount, slot and chain id between bars; None when the recipient field is empty |
| Messages.MintMessageSays | validator/src/consensus/engine.ts:526-559 | behind the prefix (SOL_DCC_BRIDGE_V1, bar, MINT, bar) and between bars: the transfer id, the text that decodes to the recipient without trailing zeros, and amount, slot and chain in decimal without leading zeros |
| Messages.MintTextReadable | validator/src/consensus/engine.ts:555-558 | the five fields can be read back from the text, for every transfer id, even one holding bars |
| Messages.MintMessageDeterminesDeposit | validator/src/consensus/engine.ts:526-559 | equal mint messages come from equal transfers, deposits and chains |
| Messages.ConstructUnlockMessage | validator/src/consensus/engine.ts:572-616 | the 140 bytes with two's-complement expiration, for any configured expiry window, or the range error of a fixed-width write |
| Messages.UnlockMessageSays | validator/src/consensus/engine.ts:572-616 | exactly when there is a message; then 140 bytes: the 24 of the prefix, and at fixed places transfer id, recipient, amount, burn id, chain and an expiration that is the burn's second plus the window |
| Messages.UnlockReadsBack | libs/encoding-ts/index.ts:185-223 | behind any separator the six fields can be read back at their places, the expiration as a signed number |
| Messages.RebuildUnlockMessage | validator/src/main.ts:792-825 | the submitter rebuilds, for every burn, exactly the bytes the engine signed |
| Messages.UnlockBytesInjective | validator/src/consensus/engine.ts:572-616 | the bytes determine all six fields, negative expirations included |
| Messages.MintIsNotUnlock | validator/src/consensus/engine.ts:510-616 | no mint message equals an unlock message |
| MerkleBinding.VerifiedProofIsReal | zk/prover/src/merkle.ts:158-170 | a proof of any length that carries a leaf hash and verifies has exactly `depth` siblings, and its leaf and siblings are the tree's at the position its bits spell |
| MerkleBinding.ProverMembership | zk/prover/src/message.ts:137-166 | for the prover's tree the position is below the number of ids and holds that id |
| MerkleBinding.ValidatorMembership | validator/src/zk/zk-utils.ts:85-129 | for the validator's tree the position holds that id, or the id is all zeros and the position is padding |
| MerkleBinding.SameRootSameLeaf | zk/prover/src/merkle.ts:56-103 | trees with equal nodes have equal leaf preimages below them |
| MerkleBinding.RootDeterminesPaddedLeaves | zk/prover/src/merkle.ts:56-103 | roots are equal if and only if the padded leaf lists are |
| MerkleBinding.ProverRootDeterminesList | zk/prover/src/message.ts:137-166 | the prover's root determines the list of ids: roots equal if and only if lists equal |
| MerkleBinding.ValidatorRootDeterminesUpToZeros | validator/src/zk/zk-utils.ts:102-129 | the validator's root determines the list up to trailing all-zero ids, and no further |
| MerkleBinding.ValidatorRootIgnoresTrailingZeroId | validator/src/zk/zk-utils.ts:110-116 | appending an all-zero id leaves the root as it was |
| MerkleTree.SparseTree.constructor | zk/prover/src/merkle.ts:38-47 | an unbuilt tree of the given depth with the prover's padding leaf |
| MerkleTree.SparseTree.GetEmptyHashes | zk/prover/src/merkle.ts:56-65 | the cached list holds the padding subtree's hash of every level |
| MerkleTree.SparseTree.BuildFromMessageIds | zk/prover/src/merkle.ts:71-103 | for every depth and list that fits, each stored row is the prefix of the dense tree's row; otherwise refused |
| MerkleTree.SparseTree.NodeAt | zk/prover/src/merkle.ts:109-113 | every node, stored or implied, equals the dense tree's node |
| MerkleTree.SparseTree.GetRoot | zk/prover/src/merkle.ts:118-123 | the root of the dense tree padded with the same leaf; None before building |
| MerkleTree.SparseTree.GetProof | zk/prover/src/merkle.ts:128-153 | every proof verifies against the root, its path is the binary expansion of the index, its siblings are the real ones |
| MerkleTree.VerifyProof | zk/prover/src/merkle.ts:158-170 | true if and only if folding leads to the root; None when a hash input does not fit |
| MerkleTree.FoldTurns | zk/prover/src/merkle.ts:158-170 | a path entry that is the number 0 puts the current value on the left, any other or a missing one on the right |
| MerkleTree.ProofFoldsToRoot | zk/prover/src/merkle.ts:158-170 | real siblings along the binary digits of i fold leaf i to the root |
| MerkleTree.BeyondStoredIsEmpty | zk/prover/src/merkle.ts:82-85 | every node past the stored prefix is the padding subtree of its level |
| MerkleTree.BuildMerkleTree | validator/src/zk/zk-utils.ts:102-129 | the dense bottom-up tree over 32-byte ids computes the reference root of depth 20 |
| MerkleTree.GetMerkleProof | validator/src/zk/zk-utils.ts:131-164 | over 32-byte ids, the dense proof of position i folds to the root that building returns |
| CheckpointInvariants.ExecKeepsInv | validator/src/zk/zk-bridge-service.ts:466-606 | in every interleaving: ids belong to their events, accepted deposits and window slots correspond one to one, windows stay within the maximum, a closed window has the root of its ids |
| CheckpointInvariants.ClosedStaysFrozen | validator/src/zk/zk-bridge-service.ts:548-606 | a closed window keeps its events, ids and root through every continuation |
| CheckpointInvariants.LateProofsFoldToFixedRoot | validator/src/zk/zk-bridge-service.ts:912-968 | a proof computed at any later time leads from the event's own id to the root fixed at closing |
| CheckpointInvariants.OpenWindowClosesExactly | validator/src/zk/zk-bridge-service.ts:466-606 | an open window with deposits can still close, in some continuation, if and only if it is current or its own timer is scheduled |
| CheckpointInvariants.DepositCanBeStranded | validator/src/zk/zk-bridge-service.ts:535-606 | for any configuration with room for two events, a run that leaves a deposit in a window nothing can close |
| Checkpoints.ZkBridgeService.AddDepositEvent | validator/src/zk/zk-bridge-service.ts:466-513 | opens a window if needed even when decoding then throws; pushes event and id; closes at the maximum |
| Checkpoints.ZkBridgeService.EventId | validator/src/zk/zk-bridge-service.ts:476-494 | the hash of the 181 bytes of the event's decoded fields, or the decoding error |
| CheckpointEffects.MessageIdSays | validator/src/zk/zk-bridge-service.ts:476-494 | exactly when a deposit gets an id; it is the hash of 181 bytes that the library's parser reads as separator DCC_SOL_BRIDGE_V1, chains 1 and 2, the event's slot, index, amount and nonce modulo their widths, the base-58 values of program and sender, the recipient cut or filled to 32 bytes and a zero asset |
| CheckpointEffects.DepositEffect | validator/src/zk/zk-bridge-service.ts:466-513 | nothing while stopped; otherwise a window is opened unless the current one is open, the deposit goes to its end, and it is closed if and only if that reaches the maximum, 100 if unset |
| CheckpointEffects.CloseEffect | validator/src/zk/zk-bridge-service.ts:548-572 | a closed window is left alone, an empty one replaced, any other gets the root of its ids at depth 20 and the remembered timer is cancelled |
| CheckpointEffects.TimerEffect | validator/src/zk/zk-bridge-service.ts:536-543 | a timer closes an open window with deposits and opens another window over an empty one |
| CheckpointEffects.StartStopEffect | validator/src/zk/zk-bridge-service.ts:392-399 | a start always opens a window, the end of a closing call only while running, a stop cancels the remembered timer |
| Checkpoints.ZkBridgeService.OpenNewWindow | validator/src/zk/zk-bridge-service.ts:519-546 | replaces the current window and the remembered timer whatever they were |
| Checkpoints.ZkBridgeService.CloseWindow | validator/src/zk/zk-bridge-service.ts:548-572 | closes once, clears the remembered timer, fixes the root or reopens when empty |
| Checkpoints.ZkBridgeService.CloseWindowDone | validator/src/zk/zk-bridge-service.ts:596-606 | after the waits, opens a window if the service still runs |
| Checkpoints.ZkBridgeService.OnTimer | validator/src/zk/zk-bridge-service.ts:536-543 | closes its own window if it has deposits, otherwise opens another |
| Checkpoints.ZkBridgeService.ProveEvent | validator/src/zk/zk-bridge-service.ts:929-930 | the proof holds the real siblings of the window's ids |
| Checkpoints.ZkBridgeService.constructor | validator/src/zk/zk-bridge-service.ts:118-136 | no window, no timer, not running |
| Checkpoints.ZkBridgeService.Start | validator/src/zk/zk-bridge-service.ts:141-163 | deposits are taken from here on, before the first window is opened |
| Checkpoints.ZkBridgeService.StartDone | validator/src/zk/zk-bridge-service.ts:165-166 | opens a window even if a deposit already opened one |
| Checkpoints.ZkBridgeService.Stop | validator/src/zk/zk-bridge-service.ts:392-399 | clears the remembered timer only |
| Solvency.Conservation | monitoring/src/reconciliation.ts:254-266 | locked − unlocked is exactly ten times the supply plus owed, fees, rounding dust and unminted deposits; supply and debts are backed and the vault covers them |
| Solvency.VaultFollowsTotals | monitoring/src/reconciliation.ts:296-305 | over every run the vault moves by exactly what is locked, unlocked and given to it |
| Solvency.CreditExactly | validator/src/main.ts:345-392 | by committee a deposit is credited what the deposit rates leave of it, a burn is paid what the withdrawal rates leave of ten times its units |
| Solvency.ExecKeepsInv | validator/src/main.ts:310-393 | in every interleaving of deposits, mints (net or fee-exempt, whichever), burns and unlocks the published totals are the sums over what happened |
| Solvency.DepositsSplit | validator/src/utils/fee-calculator.ts:40-71 | every deposited lamport is waiting, fee, dust or minted |
| Solvency.BurnsSplit | validator/src/watchers/dcc-watcher.ts:443-446 | every burned lamport is owed, fee or paid |
| Reconciliation.ConsistentSnapshotIsNeverCritical | monitoring/src/reconciliation.ts:254-305 | on one snapshot of any reachable state the drift is minus the surplus, never positive, the vault is not short and the status not critical |
| Reconciliation.ReadingExactly | monitoring/src/reconciliation.ts:248-305 | with vault, Solana totals, minted and burned read at any four moments, the drift is ten times what was minted since and burned before the Solana read less the surplus, and the vault misses what was locked since its read less its slack |
| Reconciliation.CriticalExactly | monitoring/src/reconciliation.ts:280-305 | a bridge that keeps its promises is reported critical if and only if those movements outweigh the slack, or the surplus by the threshold |
| Reconciliation.SafeReadOrder | monitoring/src/reconciliation.ts:248-305 | reading minted first, then Solana with its vault, then burned is never critical |
| Reconciliation.SkewedReadsAreBounded | monitoring/src/reconciliation.ts:248-305 | reads apart mislead by at most what was minted after and burned before the Solana read, and what was locked after the vault read |
| Reconciliation.OneMintBetweenReadsRaisesAlarm | monitoring/src/reconciliation.ts:248-283 | that bound is reached: a backed bridge shows as critical for any threshold |
| Reconciliation.FailedSolanaReadMisleadsExactly | monitoring/src/reconciliation.ts:394-410 | with a failed read of the Solana totals the drift is positive if and only if there is any supply, though the true drift never is |
| Reconciliation.ReconciliationDaemon.Reconcile | monitoring/src/reconciliation.ts:244-380 | locked and unlocked as read, minted and burned as answered, the drift ten times the supply less the net lock; critical if and only if the vault is short or the drift positive and at the threshold; warn in both directions; the error snapshot when the vault read throws; history keeps the last 1000 |
| Reconciliation.ReconcileBridge | monitoring/src/reconciliation.ts:244-380 | a cycle that is given the vault and the four totals of a reachable bridge finds the drift to be minus the surplus and is never critical |
| Reconciliation.ReconciliationDaemon.FetchDccState | monitoring/src/reconciliation.ts:412-433 | one failed request loses both totals, a malformed number those after it, a missing value counts as zero |
| Solvency.TotalsOnlyGrow | monitoring/src/reconciliation.ts:254-255 | none of the four published totals ever falls |
| Solvency.CreditWithinAmount | validator/src/main.ts:345-392 | a deposit never credits more than it brought and a burn is never paid more than it burned |
| RateLimits.OutflowIsBounded | validator/src/utils/rate-limiter.ts:37-141 | over every run with a nondecreasing clock in which each restart finds the open window over, empty or on disk as it is in memory, whichever writes fail, the counter is exactly what was spent since the window opened, within the cap, and no closed 24 hours see more than twice the cap |
| RateLimits.GrantedExactly | validator/src/utils/rate-limiter.ts:63-99 | a transfer passes if and only if what was let through since the window opened, or nothing once that was 24 hours ago, leaves room for it under the cap; it is then counted, and saved if writing works |
| RateLimits.StartExactly | validator/src/utils/rate-limiter.ts:105-122 | a start takes up a saved window with a non-zero start less than 24 hours ago, otherwise it opens one |
| RateLimits.OverspendsExactly | validator/src/utils/rate-limiter.ts:105-141 | right after a restart a saved consumption can take the window that was open past the cap if and only if the restart does not find it over, empty or on disk as it is in memory |
| RateLimits.SavedSpendingIsAccounted | validator/src/utils/rate-limiter.ts:63-73 | if every consumption was written, no restart anywhere in the run forgets anything |
| RateLimits.TwiceTheCapIsReached | validator/src/utils/rate-limiter.ts:92-99 | twice the cap is reached, so the bound is exact |
| RateLimits.UnsavedSpendingIsUnbounded | validator/src/utils/rate-limiter.ts:127-141 | when such restarts repeat, any multiple of the cap can leave within one millisecond |
| RateLimits.RateLimiter.constructor | validator/src/utils/rate-limiter.ts:26-31 | restores a saved window that is less than 24 hours old, otherwise starts afresh without saving |
| RateLimits.RateLimiter.LoadState | validator/src/utils/rate-limiter.ts:105-122 | restores only a window with a non-zero start that is still open |
| RateLimits.RateLimiter.MaybeResetWindow | validator/src/utils/rate-limiter.ts:92-99 | a day or more after its start the window begins anew, saved |
| RateLimits.RateLimiter.CanConsume | validator/src/utils/rate-limiter.ts:54-58 | turns the window over if a day has passed, consumes nothing |
| RateLimits.RateLimiter.ConsumeBudget | validator/src/utils/rate-limiter.ts:63-73 | consumes and persists exactly when the amount fits |
| RateLimits.RateLimiter.AdmitDeposit | validator/src/main.ts:316-343 | a deposit passes if and only if it is between the limits and would fit now |
| RateLimits.RateLimiter.OnConsensusReached | validator/src/main.ts:453-466 | a transfer is handed to submission if and only if its amount is zero or was consumed |
| Fees.Calculate | validator/src/utils/fee-calculator.ts:40-105 | net plus the smaller of fee and amount is the amount; the fee is never below the minimum |
| Fees.CalculatedExactly | validator/src/utils/fee-calculator.ts:34-105 | the fee is the tier's share rounded down to a lamport but at least the minimum, the net amount what is left, the tier by the configured threshold |
| Fees.FeeStep | validator/src/utils/fee-calculator.ts:51-55 | one more lamport changes the fee by 0 or 1, across the minimum-fee kink too |
| Fees.NetStep | validator/src/utils/fee-calculator.ts:51-60 | one more lamport in is 0 or 1 more lamport net |
| Fees.Monotone | validator/src/utils/fee-calculator.ts:51-60 | fee and net are nondecreasing within a tier |
| Fees.FeeOfParts | validator/src/utils/fee-calculator.ts:51-55 | above the floor fee(a+b) − fee(a) − fee(b) is 0 or 1 |
| Fees.SplittingSavesAtMostOne | validator/src/utils/fee-calculator.ts:51-55 | splitting within a tier saves at most one lamport, floor or not |
| Fees.NetNeverDropsExactly | validator/src/utils/fee-calculator.ts:34-60 | for any threshold the net amount is monotone over all amounts if and only if it is at the tier boundary |
| Fees.DefaultTiersDrop | validator/src/config/index.ts:174-178 | with the default rates it drops, by 0.05 SOL for deposits and 0.25 SOL for withdrawals; sample amounts of each tier |
| DepositEncoding.ProverPreimage | zk/prover/src/message.ts:78-125 | whole fields set at their offsets: each position shows the last field that covers it; fields of at most 32 bytes give the concatenation of the eleven fields, zero-filled where shorter; a field that would run over the end is the range error |
| DepositEncoding.SetField | zk/prover/src/message.ts:95-97 | the range error exactly when the field runs over the end, otherwise the buffer with the field over what was there |
| DepositEncoding.ValidatorPreimage | validator/src/zk/zk-utils.ts:26-64 | the same for fields cut or zero-filled to 32 bytes |
| DepositEncoding.LibraryPreimage | libs/encoding-ts/index.ts:117-179 | the same with unsigned shifts and any separator, or the wrong-length error |
| DepositEncoding.RustPreimage | libs/encoding-rust/src/lib.rs:77-91 | the same by appending |
| DepositEncoding.FourEncodersAgree | libs/encoding-rust/src/lib.rs:77-91 | all four encoders give the same 181 bytes for every deposit in range |
| DepositEncoding.LibraryUnlock | libs/encoding-ts/index.ts:185-223 | the unlock bytes behind any separator, by default the engine's own, for every amount, chain and signed expiration; or the wrong-length error |
| DepositEncoding.RustUnlock | libs/encoding-rust/src/lib.rs:94-104 | the Rust library's unlock bytes are the same behind the same separator |
| DepositEncoding.Same32Bits | libs/encoding-ts/index.ts:69-74 | neither signed nor unsigned 32-bit reading changes the four bytes written, for any integer |
| DepositEncoding.WriteU32Signed | validator/src/zk/zk-utils.ts:13-18 | four bytes by signed shifts are the little-endian bytes of any integer, nothing else is touched |
| DepositEncoding.WriteU32Unsigned | libs/encoding-ts/index.ts:69-74 | the same by unsigned shifts |
| DepositEncoding.WriteU64 | libs/encoding-ts/index.ts:76-80 | eight bytes of any integer, nothing else is touched |
| DepositEncoding.WriteCut | validator/src/zk/zk-utils.ts:50-51 | a field cut to 32 bytes, or followed by zeros |
| DepositParsing.ParseDepositMessage | libs/encoding-ts/index.ts:244-297 | or-ing shifted bytes with 32-bit signed semantics reads every number as its little-endian value; the separator is decoded to text |
| DepositParsing.ParseUndoesEncode | libs/encoding-ts/index.ts:244-297 | with the separator taken as bytes, parsing undoes encoding if and only if the separator has 17 bytes and every number fits its width |
| DepositParsing.EncodeUndoesParse | libs/encoding-ts/index.ts:244-297 | with the separator taken as bytes, any 181 bytes are the encoding of what they parse to |
| DepositParsing.ParseRestoresText | libs/encoding-ts/index.ts:244-297 | with the separator decoded to text as the parser does, and 17 bytes long, parsing undoes encoding if and only if it does not begin with a byte-order mark and every number fits its width |
| DepositParsing.EncodeRestoresBytes | libs/encoding-ts/index.ts:244-297 | encoding what was parsed gives the 181 bytes back if and only if the separator's bytes are UTF-8 without a byte-order mark |
| TextDecoding.TextSurvives | libs/encoding-ts/index.ts:249 | decoding an encoded text gives it back if and only if it does not begin with a byte-order mark |
| TextDecoding.BytesSurvive | libs/encoding-ts/index.ts:249 | encoding decoded bytes gives them back if and only if they are UTF-8 without a byte-order mark |
| TextDecoding.MalformedIsReplaced | libs/encoding-ts/index.ts:249 | exactly what begins no character's encoding is replaced, by U+FFFD, the longest stretch that begins some character at a time |
| DepositParsing.PreimageInjective | libs/encoding-ts/index.ts:117-179 | no two deposits in range share a preimage |
| DepositParsing.Or32Adds | libs/encoding-ts/index.ts:252-256 | or-ing a shifted byte adds it although the shifted byte may read as negative |
| DepositParsing.ReadU32 | libs/encoding-ts/index.ts:252-256 | four bytes or-ed with signed shifts and made unsigned are their little-endian value |
| DepositParsing.ReadU64 | libs/encoding-ts/index.ts:261-263 | eight bytes or-ed as big integers are their little-endian value |
| CircuitBits.BuildCircuitInput | validator/src/zk/zk-bridge-service.ts:912-968 | the private bit arrays with the expansions of the public numbers in between are exactly the bits of the hashed preimage; root and id halves expand to their bits; siblings and path are those of the event's position; fails if and only if the recipient is shorter than 32 bytes |
| CircuitBits.BytesToBitsLE | validator/src/zk/zk-utils.ts:210-218 | bits of each byte in turn, least significant first |
| CircuitBits.NumberToBitsLE | validator/src/zk/zk-utils.ts:220-228 | low bits of any integer, by shifting the number |
| CircuitBits.ProverNumberToBitsLE | zk/prover/src/message.ts:203-210 | the same bits, by shifting by position |
| CircuitBits.HashToFieldElements | validator/src/zk/zk-utils.ts:230-245 | little-endian values of the two halves; None for a short input |
| CircuitBits.SplitTo128 | libs/encoding-ts/index.ts:323-330 | the same, insisting on 32 bytes |
| CircuitBits.LittleEndian | zk/prover/src/message.ts:218-224 | accumulating from the last byte down gives the little-endian value |
| CircuitBits.HalvesDetermineHash | libs/encoding-rust/src/lib.rs:124-128 | splitting is a bijection between 32-byte strings and pairs below 2^128 |
| CircuitBits.HalvesGiveBits | zk/circuits/bridge_deposit.circom:135-145 | the two 128-bit expansions side by side are the bits of the hash |
| CircuitBits.CircuitPreimageInjective | zk/circuits/bridge_deposit.circom:159-228 | equal preimage bits, equal deposits |
| DepositCircuit.RootBitsFold | zk/circuits/merkle_tree.circom:50-121 | the circuit's tree levels, selecting and hashing bits, compute the byte-level fold of the same siblings and path |
| DepositCircuit.SingleProofInput | validator/src/zk/zk-bridge-service.ts:912-968 | from the service's own state, the input of an event of a closed window; none exactly when an address does not decode or the recipient is shorter than 32 bytes |
| DepositCircuit.BuiltInputIsAccepted | zk/circuits/bridge_deposit.circom:95-313 | the input of an event whose id hashes its own preimage satisfies the circuit if and only if its amount is a 64-bit number |
| DepositCircuit.LateInputIsAccepted | validator/src/zk/zk-bridge-service.ts:912-968 | in every interleaving and however long after closing, the input then built for an event satisfies the circuit, against the root fixed at closing, if and only if the event's amount is a 64-bit number |
| DepositCircuit.AcceptedInputIsADeposit | zk/circuits/bridge_deposit.circom:95-313 | whoever built it, what the circuit accepts for a window's root has the id, amount, recipient and every other field of the deposit at the position its path spells, or its preimage hashes to the padding id |
| CircuitBits.FieldElementToBytes | zk/prover/src/serializer.ts:32-40 | filling from the last byte down gives the 32 big-endian bytes |
| CircuitBits.FieldRoundTrip | zk/prover/src/serializer.ts:32-40 | reading back gives the value if and only if it is below 2^256 |
| CircuitBits.SerializeInputs | zk/prover/src/serializer.ts:102-115 | eight field elements one after the other, or the wrong-count error |
| CircuitBits.InputsReadBack | zk/prover/src/serializer.ts:102-115 | every signal below 2^256 can be read back at its place |
| CircuitBits.DerivePublicInputs | libs/encoding-ts/index.ts:349-381 | the eight inputs join back to root (zero when missing), id and recipient; only the amount can be refused as outside the field |
| UnlockSubmission.BuildPackedInstruction | validator/src/main.ts:1001-1035 | in-place writes at computed offsets: each position shows the last piece that covers it, which for keys and signatures of at most 32 and 64 bytes are five regions, disjoint and without gaps, zero-filled where shorter; refused exactly on a byte or 16-bit overflow |
| UnlockSubmission.InstructionReadsBack | validator/src/main.ts:1001-1035 | read through its own offset records the instruction yields exactly the given keys and signatures and the one message; offsets stay below 65536 |
| UnlockSubmission.PairsReadBackExactly | validator/src/main.ts:1001-1035 | the pairs read back are the given ones if and only if all keys have 32 bytes and all signatures 64 |
| UnlockSubmission.SerializeUnlockParams | validator/src/main.ts:1037-1072 | the Borsh bytes of the fields, or the range error of a fixed-width write |
| UnlockSubmission.SerializeAttestations | validator/src/main.ts:1082-1103 | length prefix and padded or cut pairs |
| UnlockSubmission.PaddedCopy | validator/src/main.ts:1041-1043 | the first n bytes, zero-filled |
| UnlockSubmission.ParamsReadBack | validator/src/main.ts:1037-1103 | decoding gives every field and the list back and consumes everything |
| Base58.DccIdToBytes32 | validator/src/utils/dcc-ids.ts:16-40 | the last 32 bytes of leading zeros and value; zeros for text that is not base58 |
| Base58.Base58ToBytes | validator/src/zk/zk-utils.ts:257-289 | the first bytes of the padded decoding, or the invalid-character error |
| Base58.AlphabetText | validator/src/utils/dcc-ids.ts:13 | the digit table used by the proofs is the 58-character alphabet, position by position |
| Base58.EncodeBytes | validator/src/consensus/engine.ts:535-544 | the big-integer loop gives one '1' a leading zero and the digits of the value |
| Base58.FullOfEncode | validator/src/consensus/engine.ts:535-544 | decoding gives back every non-empty byte string, leading zeros included, with one zero more when all are zero |
| Base58.EncodeOfFull | validator/src/consensus/engine.ts:535-544 | encoding undoes decoding if and only if the text's value is not zero |
| Base58.EncodeInjective | validator/src/consensus/engine.ts:535-544 | different byte strings print differently |
| Base58.DccIdValue | validator/src/utils/dcc-ids.ts:16-40 | the 32 bytes are the base-58 value modulo 256^32, for every valid text |
| Base58.DccIdDecodesEncoding | validator/src/utils/dcc-ids.ts:16-40 | ids of at most 32 bytes come back, right-aligned |
| Base58.Base58ToBytesDecodesEncoding | validator/src/zk/zk-utils.ts:257-289 | byte strings of at most the target length come back, right-aligned |
| Base58.DecodersAgree | validator/src/zk/zk-utils.ts:257-289 | the two decoders agree on every valid text that decodes to at most 32 bytes, and on a longer one if and only if its first and last 32 bytes coincide |
| Base58.DccIdInjective | validator/src/utils/dcc-ids.ts:16-40 | two ids of 32 bytes decode alike only if they are the same text |
| Base58.RecipientFromField | validator/src/consensus/engine.ts:530-544 | strips trailing zeros, keeping one byte, and encodes |
| Base58.AddressSurvives | api/src/routes/deposit.ts:29-37 | an address survives padding and stripping if and only if its last decoded byte is not zero, or it is the single byte zero |
| DccScan.NoHeightIsSkipped | validator/src/watchers/dcc-watcher.ts:107-188 | if restarts pick up the saved cursor, every height from the first seed to the cursor was read and none above tip − 1, whatever fails in between |
| DccScan.RestartLosesHeightsExactly | validator/src/watchers/dcc-watcher.ts:115-133 | at a restart an unread height can still be read if and only if the saved cursor is at most 1000 blocks behind |
| DccScan.CursorMovesForward | validator/src/watchers/dcc-watcher.ts:315-338 | neither the cursor in memory nor the one on disk ever goes back |
| DccScan.ScanReads | validator/src/watchers/dcc-watcher.ts:160-188 | a scan reads a contiguous stretch behind the cursor and stops at the first height it cannot read |
| DccScan.PollExactly | validator/src/watchers/dcc-watcher.ts:160-188 | a poll reads a contiguous stretch up to one block below the tip or the first unreadable height, moves to its end, and leaves the last cursor it could write |
| DccScan.SeedExactly | validator/src/watchers/dcc-watcher.ts:107-140 | a start resumes a positive cursor behind the tip by at most 1000 blocks, otherwise it stands on the tip |
| DccScan.DccWatcher.SeedHeight | validator/src/watchers/dcc-watcher.ts:107-140 | resumes a usable cursor, otherwise starts at the tip, and saves |
| DccScan.DccWatcher.RunPoll | validator/src/watchers/dcc-watcher.ts:160-188 | the loop over heights with its break, one saved cursor a height |
| SolanaScan.NoTransactionIsSkipped | validator/src/watchers/solana-watcher.ts:170-318 | while no poll finds more than 50 new transactions and restarts find a cursor, everything between the first position and the cursor was handled |
| SolanaScan.PollLeavesHoleExactly | validator/src/watchers/solana-watcher.ts:258-318 | a poll passes over transactions if and only if more than 50 wait and the oldest it sees does not throw |
| SolanaScan.PollsHandleInOrder | validator/src/watchers/solana-watcher.ts:274-318 | between restarts transactions are handled in chain order, each exactly once |
| SolanaScan.PollStopsAtThrow | validator/src/watchers/solana-watcher.ts:309-316 | a poll leaves the cursor on the transaction before the first that throws |
| SolanaScan.PollExactly | validator/src/watchers/solana-watcher.ts:258-318 | a poll handles consecutive transactions from the cursor or the 50th newest, whichever is later, up to the first that throws, and leaves the last cursor it could write |
| SolanaScan.SeedExactly | validator/src/watchers/solana-watcher.ts:170-200 | a start looks for the saved cursor only after a successful fetch, and without one stands behind the newest transaction |
| SolanaScan.SolanaWatcher.SeedCursor | validator/src/watchers/solana-watcher.ts:170-200 | the saved cursor is loaded only if fetching the newest signature worked |
| SolanaScan.SolanaWatcher.PollNewTransactions | validator/src/watchers/solana-watcher.ts:258-318 | the loop over the 50 newest, oldest first, advancing past failed, log-less and processed ones |

## Left out

- Keccak, Ed25519, Curve25519 and Groth16 themselves: foreign code, taken as a hash function and a signature check with the assumptions named above.
- The Solana program, the RIDE contracts and the circuit's constraints: the accounting takes from the TypeScript comments that mints divide by ten, that each transfer is settled at most once and that burns do not exceed the supply; the circuit is taken as its equations on bits, without field arithmetic and keccak's rounds.
- The type field of an attestation is not claimed to equal its round's type: nothing compares them.
- Object identity of checkpoint windows: windows live in a map and are named by id instead of being shared objects.
- Proposals waiting for a signature are remembered and may complete any number of times, which allows more runs than the program has.
- Eventual closing of a window and eventual emission of an event: not claimed; pending events of the watchers live only in memory, so coverage is of scanning.
- Proposal and checkpoint id discovery, proof submission and the start-up recovery scan of validator/src/zk/zk-bridge-service.ts: they depend on how dcc/contracts/bridge/zk_verifier.ride numbers proposals and checkpoints, which is not part of this model.
- Hexadecimal decoding of the recipient, base58 decoding of Solana addresses by their library: parameters.
- Timestamps of attestations and snapshots, logging, alerts (and an alert that throws), metrics and status notifications: no property depends on them.
- Rounding of the configured decimal rates to basis points and floating-point quotes: rates are integers here.
- The burn sweep of the DecentralChain watcher and its finality checks: remote calls over contract state, no cursor moves.
- Configuration changes between restarts: the rate limit keeps one cap over a run.
- Serialising proofs, parsing RIDE results, WebSocket subscriptions, peer gossip, HTTP routes, key storage and the frontend: plumbing that would add only easy members.
