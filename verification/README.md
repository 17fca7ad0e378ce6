# A verified model of BaseApp, proposals, coins and the wire codec

This project models four parts of the AtomOne SDK, a Cosmos SDK fork, in Dafny 4.11 and proves what they promise.

1. **Block execution** (`Stores`, `Gas`, `Recovery`, `RunTx`, `TxEffects`, `Blocks`, `BlockGas`, `Abci`, `Consensus`,
   `RejectedRound`, `BaseApp`). BaseApp keeps one committed multistore and four volatile branches. `ProcessProposal` may
   start the block speculatively in a goroutine, and `FinalizeBlock` reuses or discards that run. The model has every
   step of the goroutine as a separate atomic step, with its cancel points. The main results are about every run the
   consensus protocol allows; the decisions that have to be excluded are named and shown to be exactly those.
2. **Proposals and vote extensions** (`Proposals`, `VoteExtensions`).
3. **Coins** (`Denoms`, `Coins`, `CoinLaws`, `CoinOps`, `DecCoins`, `MapCoins`, `Texts`, `DecText`).
4. **The generated protobuf codec** (`Varints`, `Wire`, `WireFormat`, `WireRecords`, `WireBuffer`, `CoinCodec`,
   `AbciCodec`).

`dafny verify dfyconfig.toml` checks everything. Code that updates state in place is modelled by classes, array methods
and loops; each is proved equal to a function, and the theorems are about those functions.

## The main theorems

- `Consensus.OptimisticExecutionRefinesPlain`: after every conforming run, whatever rounds, goroutine steps, aborts and
  restarts it had, and for a block of any height, `FinalizeBlock` gives the response, the app hash and the root store of
  one uncancelled execution of the block on the last committed state, or its refusal. This needs the side condition
  `Safe`: if the decided block is the one last accepted for speculation, no later proposal of that height was rejected;
  and the block is not one decided before whose request is still held.
- `Consensus.SafeIsExact`: the side condition cannot be dropped. `Abort` cancels the goroutine but keeps the stored
  request, so after "A accepted, B rejected, A decided" the aborted run is taken for the result. Agreement holds if and
  only if `Safe` holds, or the test abort rate fires, or the aborted run was not cancelled and the block leaves the
  committed state as it is. `RejectedRound.RejectionAgreesExactly` says the same of the family by the number of goroutine
  steps before the rejection: at every cancel point before the end `FinalizeBlock` fails with the cancellation error,
  after it `FinalizeBlock` succeeds without the block's writes. `DecidedBlockLost` is a concrete run.
- `Consensus.CommittedStoreIsTheLedger`: in every run of legal calls that loses no block, the committed store is genesis
  followed by the decided blocks, each executed once and in order; heights are contiguous, because the code refuses every
  other height (`OtherHeightsRefused`); and no block reaches the halt height or the halt time. "Loses a block"
  (`LosesBlock`) is the late case above on a block that changes the state, or a block decided a second time while its old
  response is stored: a request that was reused is not reset at the commit, so such a call is answered from it. Both are
  exactly what has to be excluded: `LostBlockBreaksLedger` shows that such a decision breaks the ledger, and
  `NoSpeculationNoLoss` that without optimistic execution there is none. `NodesAgree` follows.
- `BaseApp.BaseApp.FinalizeBlock` and `BaseApp.BaseApp.Commit`: the object with its mutable fields keeps to these runs.
- `Abci.RunTxByMode`: which state a transaction can reach in each of the eight execution modes.
- `RunTx.TwoStageAtomicity`, `RunTx.ChargedOnce`; `TxEffects.TxEffect` and `TxEffects.SuccessIsReported`: the error of a
  transaction is nil if and only if every stage succeeds, and then the ante handler, the messages and the post handler ran
  one after the other, each on the state its predecessor left.
- `BlockGas.BlockGasLaw`: a block is a run of its transactions in order. With a positive maximum in the state that
  beginBlock leaves, the transactions without an error are charged at most that maximum together, and once the charges have
  reached it every later transaction fails and changes nothing. Without a maximum each does what it does with no block meter.
- `Consensus.HandlersSeeTheLedger`: proposal and vote handlers always run on the state the next block is executed on.
- `Proposals.ProposalAccepted`: whatever the default handler proposes, a validator on the same committed state accepts.
  `RemovedThoughValid` says exactly when the handler removes a valid transaction from the mempool, which it can.
  `PreparedInTurn` says in exact sums which transactions are proposed, and `AcceptsExactly` which proposals are accepted.
- `VoteExtensions.ValidateVoteExtensions`, `VoteExtensions.QuorumsIntersect`.
- `Coins.Canonical` and the laws of `CoinLaws`; the three adders in `MapCoins`; `DecText.ParseDecCoins`;
  `DecCoins.SharesNeverExceed`.
- `CoinCodec.MarshalThenUnmarshal`, `AbciCodec.MarshalThenUnmarshal`, `Wire.InsertUnknown`. `WireFormat.DecodeExactly`:
  decoding succeeds exactly on lists of well-formed fields, and applies them in order. `CoinCodec.OnlyEncoding` and
  `AbciCodec.OnlyLog`: the bytes written are the only ones with the message's fields in order and in shortest form.

## What the model takes as given

- Consensus calls `InitChain`, the proposals, `FinalizeBlock` and `Commit` in protocol order, and equal block hashes
  mean equal requests (`Consensus.Legal`). Proposals and votes are for the next height; the height of a decided block is
  not restricted. Single transactions in any mode but finalize, goroutine steps and restarts
  may come at any time. A conforming run (`Consensus.Conforms`) consists of legal calls and loses no block.
- A store is a map from keys to values; a branch is a set of deletions and updates. The app hash is any function of the
  store. Decoder, ante, message, post, begin, end and proposal handlers, the mempool and the router are parameters, and
  all but the decoder and the block hooks may panic. The handlers of a block's transactions may depend on the block, those
  of other transactions on the application's contexts. `mempool.Insert` may write to the context it is given.
  The ante handler leaves the block gas meter in place. Whether removing a transaction from the mempool fails depends
  on the transaction only. In `Proposals` the ante handler is the sequence-checking one.
- `math.Int` is an integer, `LegacyDec` an integer number of 10^-18 units. Heights are unbounded integers, converted
  where the code converts them; the halt-height clause therefore speaks of heights below 2^63, and the block gas theorems
  of a maximum below 2^63, which every `int64` is.
- `uint64` and `int64` arithmetic wraps where the code could wrap. `|=` of a shifted byte onto smaller bits is addition.
- A panic outside `runTx` that the code recovers or that ends the call is an error value; in the coin modules a panic is
  `None`.

Where code and comments disagree, the model follows the code. `ValidateVoteExtensions` has a branch for commits without
extensions while they are disabled, but it can never succeed then, because no power is counted. `Commit` runs the
precommitter after the finalize branch has been flushed, so its writes are dropped.

## Model

| member | source | states |
|---|---|---|
| `Stores.ViewMerged` | baseapp/baseapp.go:693-706 | Writing a nested branch back into its parent shows the same store as reading through both |
| `Stores.ViewAt` | baseapp/baseapp.go:693-706 | A branch shows its own writes, hides what it deleted and lets every other key through |
| `Recovery.AddRunTxRecoveryHandler` | baseapp/baseapp.go:558-562 | The loop builds the chain in which every handler stands in front of the earlier ones |
| `Recovery.InstalledOrder` | baseapp/recovery.go:26-48 | The chain asks the custom handlers from the last added to the first added before the rest |
| `Recovery.RecoveryOrder` | baseapp/recovery.go:26-80 | Every panic becomes the first non-nil error in the order out-of-gas, last added to first added, default; never nil |
| `RunTx.RunMsgs` | baseapp/baseapp.go:1009-1072 | In every mode the message loop goes through a sequence of states: each message runs on the store and meter its predecessor left, up to the first that fails to route, fails, panics or has no response; at the end the writes show the last state and the responses are the replies in order |
| `RunTx.MsgsRun` | baseapp/baseapp.go:1009-1072 | Accumulating writes in a branch is running the messages one after the other on real states |
| `RunTx.RunIsUnique` | baseapp/baseapp.go:1009-1072 | That sequence of states is unique |
| `RunTx.PrecheckTx` | baseapp/baseapp.go:881-891 | The first failure or panic of basic validation, then of the router, or the error for an empty list |
| `RunTx.BodyOk` | baseapp/baseapp.go:876-1002 | Before the deferred closures: what has landed, whether the meter was charged, and that a normal return without error has a result |
| `RunTx.RunTx` | baseapp/baseapp.go:829-1002 | The method with its two deferred closures leaves all or nothing in two stages and charges the block meter once, on every exit and in every mode |
| `RunTx.TwoStageAtomicity` | baseapp/baseapp.go:829-1002 | Over every error and panic point after decoding, final writes are nothing, the first stage, or the first stage plus messages and post; the last in finalize mode exactly when the error is nil; a nil error has a result |
| `RunTx.ChargedOnce` | baseapp/baseapp.go:838-875 | Over the same points, a transaction that starts in finalize mode charges the block meter once; message writes land only if the charge fits |
| `TxEffects.PrecheckPasses` | baseapp/baseapp.go:881-891 | The checks pass if and only if there is a message and every message is valid and routed |
| `TxEffects.TxEffect` | baseapp/baseapp.go:876-1002 | A nil error means that every stage succeeded; the branch then shows what ante handler, messages in order and post handler leave, and the responses are the replies in order |
| `TxEffects.SuccessIsReported` | baseapp/baseapp.go:876-1002 | Conversely, a transaction that passes every stage returns a nil error |
| `TxEffects.EarlyFailures` | baseapp/baseapp.go:876-934 | Up to the ante handler and in every mode: the first failure or panic decides the error, and the gas wanted is the limit of the meter the ante handler sets |
| `TxEffects.LateFailures` | baseapp/baseapp.go:938-1002 | After the ante handler and in every mode: mempool call, message extraction, first failing message and post handler decide the error, in this order |
| `TxEffects.RunWithMeter` | baseapp/baseapp.go:838-875 | With a block meter a transaction uses the same gas as without; if the charge fits nothing else differs, if not it fails with the recovered error and only the ante writes land |
| `Blocks.DeliverCharges` | baseapp/baseapp.go:759-794 | One delivered transaction moves the block meter by its own gas, saturating, and succeeds only within the limit |
| `Blocks.ChargesAddUp` | baseapp/abci.go:800-836 | Over any list of transactions the meter ends at the sum of the charges |
| `Blocks.LandedGasFits` | baseapp/abci.go:800-836 | Gas of transactions whose messages landed never passes the limit, from any point of the block |
| `Blocks.BlockGasBudget` | baseapp/abci.go:800-836 | For a whole block with a positive limit: one charge each, and landed gas within the limit |
| `Blocks.ExhaustedBlockIsInert` | baseapp/baseapp.go:838-841 | After exhaustion no later transaction changes store or meter, and each reports its error |
| `Blocks.RefusedExactly` | baseapp/abci.go:919-934 | Which blocks are refused and with which error: exactly those at or past a halt height or halt time, then those of any height but the next |
| `Blocks.DeliveringIsPlain` | baseapp/abci.go:800-836 | The goroutine's transaction steps from any position equal delivering the rest in one go |
| `Blocks.FinishIsPlain` | baseapp/abci.go:712-864 | The stepped `internalFinalizeBlock`, run to its end, equals executing the block once on the state below |
| `BlockGas.DeliverRan` | baseapp/baseapp.go:759-794 | One transaction after given charges: exact gas, state, error, responses, gas wanted and gas used |
| `BlockGas.DeliverAllRan` | baseapp/abci.go:800-836 | The transactions of a block run in order, each on the state and after the charges of its predecessors |
| `BlockGas.PlainBlockRan` | baseapp/abci.go:712-864 | Executing a block is such a run between the hooks, under the gas limit of the state beginBlock leaves, with every part of the response |
| `BlockGas.BlockNotRun` | baseapp/abci.go:767-801 | A block whose begin fails reports the first thing that went wrong |
| `BlockGas.BlockGasLaw` | baseapp/baseapp.go:567-583 | With a positive maximum after beginBlock, charges of transactions without error sum to at most it, and once the charges reach it every later transaction fails and changes nothing; with zero, minus one or block gas disabled none is refused for block gas |
| `Abci.Await` | baseapp/oe/optimistic_execution.go:157-160 | Waiting ends with the goroutine stopped |
| `Abci.RunTxByMode` | baseapp/baseapp.go:636-706 | For all eight modes, which state a transaction can reach: simulation none, every other mode its own branch, with exactly which writes |
| `Abci.RunTxOnIs` | baseapp/baseapp.go:665-689 | With or without the cache of simulation the transaction sees the store of its mode; behind the cache its writes do not get there |
| `BaseApp.OptimisticExecution.constructor` | baseapp/oe/optimistic_execution.go:39-48 | A new struct is idle and has never run |
| `BaseApp.OptimisticExecution.Reset` | baseapp/oe/optimistic_execution.go:59-66 | Clears request and initialized, and keeps the cancel function and the stopped goroutine |
| `BaseApp.OptimisticExecution.Execute` | baseapp/oe/optimistic_execution.go:85-120 | Stores the request and starts a fresh uncancelled run |
| `BaseApp.OptimisticExecution.AbortIfNeeded` | baseapp/oe/optimistic_execution.go:123-143 | Cancels exactly on another hash or when the abort rate fires |
| `BaseApp.OptimisticExecution.Publish` | baseapp/oe/optimistic_execution.go:100-119 | A returning goroutine stores response and error and closes its channel |
| `BaseApp.BaseApp.constructor` | baseapp/baseapp.go:358-395 | Loading the last version is a restart step of the run the node was in |
| `BaseApp.BaseApp.InitChain` | baseapp/abci.go:39-140 | One InitChain step of the run; while it conforms, the finalize branch then shows the genesis state |
| `BaseApp.BaseApp.RunMode` | baseapp/baseapp.go:636-689 | Choosing the context by mode and writing back touches only that mode's branch, and none in simulation |
| `BaseApp.BaseApp.HandleTx` | baseapp/abci.go:356-390 | CheckTx, recheck, simulation and proposal verification are steps of the run that touch only their own branch |
| `BaseApp.BaseApp.PrepareProposal` | baseapp/abci.go:397-455 | One PrepareProposal step of the run, keeping its invariant |
| `BaseApp.BaseApp.ProcessProposal` | baseapp/abci.go:475-560 | One ProcessProposal step of the run: abort, branch reset above the initial height, verdict, start of speculation |
| `BaseApp.BaseApp.Goroutine` | baseapp/oe/optimistic_execution.go:100-119 | The goroutine may move at any point between calls: a step of the run, keeping its invariant |
| `BaseApp.BaseApp.Await` | baseapp/oe/optimistic_execution.go:157-160 | Letting the goroutine finish equals the function that runs it to its end |
| `BaseApp.BaseApp.Abort` | baseapp/oe/optimistic_execution.go:147-154 | Cancels and waits; the stored request stays |
| `BaseApp.BaseApp.BeginFinalize` | baseapp/abci.go:712-799 | Stops with the first error of the height checks, preBlock, beginBlock or the gas maximum, or stands at the first transaction on the state beginBlock leaves, with a block meter that has the limit of that state and nothing charged |
| `BaseApp.BaseApp.DeliverTx` | baseapp/baseapp.go:759-794 | One transaction on the finalize branch, with handlers that see the block, equals `Deliver` |
| `BaseApp.BaseApp.InternalFinalizeBlock` | baseapp/abci.go:712-864 | The straight loop is the stepped machine run to its end, and one plain execution on the state its branch shows: refused, failed at its begin, or a run of the transactions in order under the gas limit |
| `BaseApp.BaseApp.WorkingHash` | baseapp/abci.go:998-1009 | Flushes the finalize branch into the root and hashes the result, or panics on a nil finalize state |
| `BaseApp.BaseApp.FinalizeBlock` | baseapp/abci.go:876-916 | In a conforming run and for a block of any height: response, hash and root store, or refusal, of one plain execution, if and only if the stated condition holds; an error leaves the root alone |
| `BaseApp.BaseApp.Commit` | baseapp/abci.go:943-992 | Panics exactly on a nil finalize state, which no conforming run meets; in a conforming run the committed store is the ledger of the decided blocks with this one at its end, at its height |
| `Consensus.InitChainOk` | baseapp/abci.go:39-140 | InitChain keeps the run invariant, and starts the chain exactly for the right chain and a genesis that succeeds |
| `Consensus.GenesisWaits` | baseapp/abci.go:64-66 | After InitChain the finalize branch shows the genesis state over an unchanged root, and the first height is the requested one, with zero for one |
| `Consensus.BystanderOk` | baseapp/baseapp.go:485-517 | Single transactions in any mode but finalize, PrepareProposal and votes change only their own branch, and keep the run invariant |
| `Consensus.GoStepOk` | baseapp/oe/optimistic_execution.go:100-119 | Any goroutine step keeps the run invariant |
| `Consensus.CancelledOrPlain` | baseapp/abci.go:790-853 | A cancelled run stops at its next cancel point or ends as it would have ended anyway |
| `Consensus.ProcessOk` | baseapp/abci.go:475-560 | Every proposal round keeps the run invariant |
| `Consensus.AbortOk` | baseapp/oe/optimistic_execution.go:147-154 | After an abort the goroutine has stopped, and its outcome is cancelled or plain |
| `Consensus.RunDirectlyAgrees` | baseapp/abci.go:909-916 | The direct path of FinalizeBlock equals plain execution on the branch it finds |
| `Consensus.DirectAgrees` | baseapp/abci.go:889-916 | A block, of whatever height, that is not answered from a stored request is executed from the committed state or refused |
| `Consensus.ReuseAgrees` | baseapp/abci.go:889-898 | A speculation that is reused ended exactly as a run from scratch |
| `Consensus.SafeAgrees` | baseapp/abci.go:876-916 | In every state of the run invariant and for every block FinalizeBlock equals one plain execution, if no later proposal was rejected and no old request is in the way, or the stored run is discarded |
| `Consensus.UnsafeAnswer` | baseapp/oe/optimistic_execution.go:147-160 | Otherwise it answers with the stored outcome and an unchanged root, or panics when there is no branch to flush |
| `Consensus.AbortedOutcome` | baseapp/abci.go:790-853 | After a rejection the stored outcome is the cancellation or the block's own outcome |
| `Consensus.StaleOutcome` | baseapp/abci.go:889-898 | A block decided a second time is below the next height, plain execution refuses it, and its old response is still stored |
| `Consensus.ExpectedIsNext` | baseapp/baseapp.go:587-614 | In every run the height the code expects is the one after the last decided block |
| `Consensus.OtherHeightsRefused` | baseapp/baseapp.go:587-614 | A block that plain execution does not refuse has the next height and is not at a halt |
| `Consensus.PlainExactly` | baseapp/baseapp.go:587-614 | In every run a block is refused exactly at a halt or at another height than the next, and executed otherwise |
| `Consensus.AgreesExactly` | baseapp/abci.go:889-916 | When the answer agrees with plain execution, in both directions, for every block |
| `Consensus.OptimisticExecutionRefinesPlain` | baseapp/abci.go:876-916 | After every conforming run and for a block of any height, FinalizeBlock equals one plain execution in response, hash and root store, under the side condition |
| `Consensus.SafeIsExact` | baseapp/oe/optimistic_execution.go:123-160 | After every conforming run, the exact condition for that agreement: the side condition, the abort rate, or an aborted run that was not cancelled on a block that changes nothing |
| `Consensus.FinalizeFrame` | baseapp/abci.go:876-916 | FinalizeBlock leaves the goroutine stopped and touches only root, finalize branch and the struct; a response leaves a branch, and a request it keeps has the block's hash |
| `Consensus.FinalizeOk` | baseapp/abci.go:876-916 | For every block, FinalizeBlock keeps the run invariant if and only if it loses no block; other heights are refused by the code |
| `Consensus.CommitOk` | baseapp/abci.go:943-992 | Commit keeps the run invariant |
| `Consensus.CommitExtendsLedger` | baseapp/abci.go:943-992 | After Commit the committed store is the ledger with the decided block at its end, and CheckTx starts from that store with what PrepareCheckState writes |
| `Consensus.RestartOk` | baseapp/baseapp.go:358-395 | A restart at any moment keeps the run invariant |
| `Consensus.RunOk` | baseapp/abci.go:39-1009 | The invariant holds after every run of legal calls that loses no block |
| `Consensus.CommittedStoreIsTheLedger` | baseapp/abci.go:943-1009 | For every run of legal calls that loses no block, with decisions of any height: committed store, contiguous heights, halt height and halt time |
| `Consensus.LostBlockBreaksLedger` | baseapp/abci.go:889-898 | A legal decision that loses a block breaks the ledger or the order of heights at its commit, after any conforming run |
| `Consensus.NoSpeculationNoLoss` | baseapp/abci.go:909-916 | Without optimistic execution every legal run conforms, so the ledger theorem has no side condition |
| `Consensus.NoNilState` | baseapp/abci.go:943-1009 | After every conforming run the only legal call that meets a nil finalize state is a second decision of a block whose response is still stored |
| `Consensus.HandlersSeeTheLedger` | baseapp/abci.go:397-560 | After every conforming run PrepareProposal, ProcessProposal and the vote handlers run on the genesis state at the first height and on the ledger after it, and answer what their handler says there |
| `Consensus.NodesAgree` | baseapp/abci.go:876-1009 | Same decided blocks and genesis give the same committed store, whatever else differs between two nodes that lose no block |
| `Consensus.FailedFinalizeWritesNothing` | baseapp/abci.go:876-934 | A FinalizeBlock that errors leaves root, committed store and height alone, in any state |
| `RejectedRound.RejectionOutcome` | baseapp/abci.go:503-557 | After accept, k goroutine steps and reject: the old request is kept beside an empty branch |
| `RejectedRound.EarlyRejectionFails` | baseapp/abci.go:790-853 | A rejection at any cancel point before the goroutine's end makes FinalizeBlock of the accepted block fail with the cancellation error |
| `RejectedRound.LateRejectionLosesBlock` | baseapp/oe/optimistic_execution.go:147-160 | A late rejection makes it succeed with the previous root store and app hash |
| `RejectedRound.RejectionAgreesExactly` | baseapp/oe/optimistic_execution.go:123-160 | For any number of goroutine steps before the rejection: agreement if and only if the goroutine had finished and the block changes nothing |
| `RejectedRound.DecidedBlockLost` | baseapp/abci.go:889-898 | A concrete conforming run from genesis whose next legal decision loses its block |
| `Proposals.DefaultProposalHandler.ProcessProposal` | baseapp/abci_utils.go:380-416 | Accepts everything without a mempool; else exactly when every transaction decodes and verifies in turn and the gas limits sum to at most the maximum (in general, the running sum modulo 2^64) |
| `Proposals.DefaultTxSelector.constructor` | baseapp/abci_utils.go:468-476 | A new selector has selected nothing |
| `Proposals.DefaultTxSelector.Clear` | baseapp/abci_utils.go:484-488 | Forgets the selection |
| `Proposals.DefaultTxSelector.SelectTxForProposal` | baseapp/abci_utils.go:490-518 | Takes the transaction exactly when the byte sum and, under a limit, the gas sum stay within the limits; the counters grow by exactly what was taken, and the result says whether one has reached its limit |
| `Proposals.CheckSigners` | baseapp/abci_utils.go:296-318 | Succeeds exactly when every known signer continues its sequence, and collects the transaction's sequences |
| `Proposals.UpdateKnown` | baseapp/abci_utils.go:333-347 | The map update is the same for every iteration order of the map |
| `Proposals.DefaultProposalHandler.constructor` | baseapp/abci_utils.go:218-226 | A new handler has an empty selector |
| `Proposals.DefaultProposalHandler.PrepareProposal` | baseapp/abci_utils.go:252-367 | The proposal is exactly what the candidates, or without a mempool the requested transactions, get chosen in turn by exact sums; it is accepted and within the limits, and the one selector is empty again on every exit |
| `Proposals.RequestedInBudget` | baseapp/abci_utils.go:262-279 | Without a mempool the selection stays within the byte and gas limits |
| `Proposals.VerifiesWithoutTheRest` | baseapp/abci_utils.go:296-325 | A candidate that passes the sequence map and verifies on the prepare state verifies on the selected-only state |
| `Proposals.RelatedAfter` | baseapp/abci_utils.go:324-348 | The invariant "map entry plus one is the next sequence in the selected-only state" survives every verified candidate, selected or not |
| `Proposals.SelectionAccepted` | baseapp/abci_utils.go:490-518 | Selecting a verified transaction keeps the proposal acceptable: selector and validator count gas alike |
| `Proposals.SelectionInBudget` | baseapp/abci_utils.go:490-518 | Below 2^63 the selector's sums are exact and within the limits |
| `Proposals.ConsideredSound` | baseapp/abci_utils.go:282-352 | The invariant holds after any mempool order |
| `Proposals.SelectExactly` | baseapp/abci_utils.go:490-518 | With sizes and limits below 2^63 the selector chooses by the exact sums of what it has chosen |
| `Proposals.PreparedInTurn` | baseapp/abci_utils.go:282-367 | Which candidates are proposed: those that come before the block is full, continue the sequences seen, verify on the prepare state and fit by bytes and gas; when the handler fails |
| `Proposals.ChosenStays` | baseapp/abci_utils.go:282-367 | What is chosen in a turn is in the proposal, at its place |
| `Proposals.FirstIsProposed` | baseapp/abci_utils.go:282-367 | A valid transaction that fits into an empty block is proposed when it comes first |
| `Proposals.RequestedTurns` | baseapp/abci_utils.go:262-279 | Without a mempool: which requested transactions are proposed, and when the handler fails |
| `Proposals.AcceptsExactly` | baseapp/abci_utils.go:380-416 | A validator accepts exactly proposals whose transactions verify in turn and whose gas limits sum to at most the maximum |
| `Proposals.ProposalAccepted` | baseapp/abci_utils.go:252-416 | Whatever is proposed is accepted by a validator on the same committed state, and stays within byte and gas limits |
| `Proposals.RemovedThoughValid` | baseapp/abci_utils.go:324-327 | A candidate removed from the mempool is valid for a validator exactly when the prepare state runs ahead of the selected transactions for one of its signers and nothing else is wrong |
| `Proposals.ValidTxRemoved` | baseapp/abci_utils.go:356-362 | A concrete case in which a valid transaction is removed |
| `VoteExtensions.ValidateAgainstLastCommit` | baseapp/abci_utils.go:156-195 | Accepts exactly a sorted, duplicate-free commit that mirrors the last one |
| `VoteExtensions.Tally` | baseapp/abci_utils.go:82-136 | The two power sums; failure exactly on an unsigned commit vote while extensions are enabled, and on any extension or signature while they are not |
| `VoteExtensions.CommitPowerIsSignerPower` | baseapp/abci_utils.go:82-136 | The loop's sum is the power of a set of distinct validators |
| `VoteExtensions.ValidateVoteExtensions` | baseapp/abci_utils.go:44-149 | Succeeds if and only if extensions are enabled and distinct validators with valid signatures hold over two thirds of the power |
| `VoteExtensions.QuorumsIntersect` | baseapp/abci_utils.go:44-149 | Two successes on one last commit share validators with more than one third of the power, signing both |
| `Denoms.LessTotal` | types/coin.go:811-817 | The string order used for sorting is total |
| `Denoms.LessExactly` | types/coin.go:811-817 | The string order is that of the first difference, with a proper prefix first |
| `Coins.Canonical` | types/coin.go:233-275 | Two sorted zero-free lists with equal amounts for every denomination are the same list |
| `Coins.CombineNormal` | types/coin.go:323-354 | Pointwise combination of sorted lists is sorted and zero-free |
| `Coins.CombineAmt` | types/coin.go:323-354 | Its amount for every denomination is the combined amount |
| `CoinLaws.ResultsValid` | types/coin.go:313-317 | Sums, maxima and minima of valid sets are valid |
| `CoinLaws.DifferenceValid` | types/coin.go:373-397 | The difference is valid when nothing goes negative |
| `CoinLaws.AddCommutes` | types/coin.go:313-354 | a + b and b + a are the same sequence |
| `CoinLaws.AddAssociates` | types/coin.go:313-354 | Addition is associative as a function on sequences |
| `CoinLaws.AddThenSub` | types/coin.go:373-397 | (a + b) - b is a |
| `CoinLaws.NegativeIffNotAllGTE` | types/coin.go:394-397 | A negative difference appears exactly when a does not cover b |
| `CoinLaws.MaxIsLeastUpperBound` | types/coin.go:464-515 | Max is the least upper bound |
| `CoinLaws.MinIsGreatestLowerBound` | types/coin.go:517-549 | Min is the greatest lower bound |
| `CoinLaws.MinPlusMaxIsSum` | types/coin.go:517-549 | a + b equals Min(a, b) + Max(a, b) |
| `CoinOps.FindIsScan` | types/coin.go:703-727 | Binary search equals the linear scan and the amount function on every strictly sorted list |
| `CoinOps.Validate` | types/coin.go:233-275 | Accepts exactly the valid sets |
| `CoinOps.IsSorted` | types/coin.go:277-285 | Decides weak sortedness |
| `CoinOps.Sort` | types/coin.go:822-831 | A permutation in order with the same amounts, strictly sorted for distinct denominations |
| `CoinOps.Collect` | types/coin.go:333-339 | The map groups hold exactly the coins of both lists |
| `CoinOps.Coalesce` | types/coin.go:341-353 | Any iteration order of the map gives one non-zero coin per denomination with the total amount |
| `CoinOps.SafeAdd` | types/coin.go:323-354 | Panics unless both lists are sorted; otherwise the canonical pointwise sum, `Add` on strictly sorted lists |
| `CoinOps.RemoveZeroCoins` | types/coin.go:795-806 | Drops exactly the zero coins, in order |
| `CoinOps.NewCoins` | types/coin.go:184-203 | Succeeds exactly when the non-zero coins are distinct, positive and validly named; the identity on valid sets |
| `CoinOps.NegatedAmt` | types/coin.go:781-792 | Negation negates every amount |
| `CoinOps.IsAnyNegative` | types/coin.go:755-763 | Finds a negative coin if there is one |
| `CoinOps.SafeSub` | types/coin.go:394-397 | The difference, and the flag exactly when a does not cover b; when it panics |
| `CoinOps.IsAllGTE` | types/coin.go:579-595 | Decides the pointwise order on valid sets |
| `CoinOps.Equal` | types/coin.go:663-678 | Equal lists have the same coins; with distinct denominations it decides that in any order; on valid sets it decides equality of amounts |
| `CoinOps.MaxCoins` | types/coin.go:479-515 | The two-pointer loop computes the pointwise maximum on valid sets |
| `CoinOps.MinCoins` | types/coin.go:527-549 | The two-pointer loop computes the pointwise minimum on valid sets |
| `DecCoins.SafeAddDec` | types/dec_coin.go:244-290 | The two-pointer loop computes the same `Add` on any two lists |
| `DecCoins.SafeSubDec` | types/dec_coin.go:293-319 | Difference and flag on sorted sets |
| `DecCoins.AmountOfDecIsScan` | types/dec_coin.go:455-482 | The recursive search is the one of `Coins` on every list and the amount function on sorted ones |
| `DecCoins.Intersect` | types/dec_coin.go:327-337 | Pointwise minimum on valid sets; panics exactly on an invalid denomination |
| `DecCoins.TruncateDecimal` | types/dec_coin.go:214-226 | Whole parts and fractions; panics exactly on a negative amount or an invalid denomination |
| `DecCoins.TruncationConserves` | types/dec_coin.go:110-114 | Whole coins and change below one are valid and add up to the input for every denomination |
| `DecCoins.MulDecTruncate` | types/dec_coin.go:382-400 | For every denomination the amount is the product cut off after the last decimal, from below and above; no zero coin is left; multiplying by one gives the set back |
| `DecCoins.SharesNeverExceed` | types/dec_coin.go:305-319 | For any non-negative ratios summing to at most one, subtracting the shares in turn never goes negative and stays valid |
| `MapCoins.MapCoins.constructor` | types/mapcoins.go:10-14 | The map holds the amounts of the list |
| `MapCoins.MapCoins.Add` | types/mapcoins.go:16-26 | Adds the amounts of the list to the map in place |
| `MapCoins.MapCoins.ToCoins` | types/mapcoins.go:28-44 | The valid set with the map's amounts, for any iteration order; when it panics |
| `MapCoins.SumByCoins` | types/coin.go:313-354 | Folding `Coins.Add` over any list of valid sets gives their sum |
| `MapCoins.SumByDecCoins` | types/dec_coin.go:235-290 | Folding the two-pointer adder gives the same sum |
| `MapCoins.SumByMap` | types/mapcoins.go:8-44 | Folding `MapCoins.Add` and converting once gives the same sum |
| `DecText.DecRoundTrip` | types/dec_coin.go:132-134 | Parsing a printed decimal in range gives it back |
| `DecText.DecStringExactly` | types/dec_coin.go:132-134 | The one text of a decimal: a minus sign exactly if negative, no superfluous leading zero, all 18 decimals |
| `DecText.CoinStringExactly` | types/dec_coin.go:132-134 | A coin is written as that text directly followed by its denomination |
| `DecText.MatchIsUnique` | types/coin.go:838-864 | The coin expression splits a text into amount and denomination in at most one way, which the scan finds |
| `DecText.CoinRoundTrip` | types/dec_coin.go:626-646 | Parsing a printed coin gives it back |
| `DecText.String` | types/dec_coin.go:198-209 | The loop prints the coins separated by commas |
| `DecText.SplitCoins` | types/dec_coin.go:660-661 | Splitting a printed set at commas gives its printed coins |
| `DecText.ParseDecCoins` | types/dec_coin.go:654-677 | When parsing succeeds, with which amounts, and that it undoes `String` on every valid set in range |
| `Varints.VarintRoundTrip` | types/coin.pb.go:436-446 | Reading a written varint gives the value and its length, whatever follows |
| `Varints.ReadVarintExactly` | types/coin.pb.go:511-524 | What a varint is: bytes from 128 up to the first smaller one, with their seven-bit digits from the least significant; reading fails exactly when there is no smaller byte within reach |
| `Varints.SovIsLength` | types/coin.pb.go:499-501 | The bit-length formula is the length of the encoding |
| `Wire.DecodeConcat` | types/coin.pb.go:505-620 | Decoding a concatenation is decoding the parts in order |
| `Wire.DecodeChunkField` | types/coin.pb.go:534-565 | A written length-delimited field hands over exactly its bytes |
| `Wire.DecodeNumberField` | types/abci.pb.go:2263-2281 | A written varint field hands over exactly its value |
| `Wire.SkipItem` | types/coin.pb.go:905-982 | Skipping passes any well-formed field, nested groups included, at any depth |
| `Wire.DecodeUnknown` | types/coin.pb.go:600-612 | An unknown field leaves no trace |
| `Wire.InsertUnknown` | types/coin.pb.go:505-620 | Inserting any well-formed unknown field between fields changes neither the decoded message nor what an error leaves of it |
| `WireFormat.DecodeApplies` | types/coin.pb.go:505-620 | Decoding a list of well-formed fields applies them in order |
| `WireFormat.SkippedField` | types/coin.pb.go:905-982 | Whatever the skipping loop passes is one well-formed field, nested groups included |
| `WireFormat.DecodeExactly` | types/coin.pb.go:505-620 | Decoding succeeds exactly on lists of well-formed fields with positive numbers and the right wire types, with exactly the message they spell |
| `WireRecords.ShortestIsVarint` | types/coin.pb.go:436-446 | The shortest varint with a value is the one that is written |
| `WireRecords.EncodesOnce` | types/coin.pb.go:305-328 | Fields, their order and shortest form leave exactly one byte string |
| `WireBuffer.EncodeVarint` | types/coin.pb.go:436-446 | Fills exactly the bytes before the offset and nothing else |
| `WireBuffer.PutChunk` | types/coin.pb.go:320-326 | Writes bytes, length and tag backwards |
| `WireBuffer.DecodeVarint` | types/coin.pb.go:511-524 | The shift loop computes the varint cut to its width, or fails having put together what came before the error |
| `WireBuffer.DecodeLength` | types/coin.pb.go:538-563 | The range checks with wrapping arithmetic accept exactly lengths inside the input |
| `WireBuffer.DecodeTag` | types/coin.pb.go:510-532 | Field number and wire type, with the illegal tags |
| `WireBuffer.SkipRound` | types/coin.pb.go:909-975 | One round of the skipping loop |
| `WireBuffer.SkipField` | types/coin.pb.go:905-982 | The skipping loop finds the end of the field or fails |
| `WireBuffer.SkipUnknown` | types/coin.pb.go:600-612 | Skips and checks the index |
| `CoinCodec.DecimalRoundTrip` | types/coin.pb.go:596-598 | Decimal text meets the requirement of the round trip for every amount in range |
| `CoinCodec.CoinRoundTrip` | types/coin.pb.go:505-620 | Decoding an encoded coin gives it back |
| `CoinCodec.DecimalCoinRoundTrip` | types/coin.pb.go:505-620 | The round trip with decimal amounts, for every amount in range |
| `CoinCodec.OnlyEncoding` | types/coin.pb.go:305-328 | The bytes of a coin are the only ones with these fields in this order and in shortest form |
| `CoinCodec.Size` | types/coin.pb.go:447-460 | The size is the length of the encoding |
| `CoinCodec.MarshalToSizedBuffer` | types/coin.pb.go:305-328 | The backward writer fills the bytes before the offset with the fields of the coin in order and in shortest form, and leaves the rest of the buffer alone |
| `CoinCodec.Marshal` | types/coin.pb.go:290-298 | The bytes hold the denomination, unless it is empty, and then the decimal text of the amount, each as one field in shortest form |
| `CoinCodec.Unmarshal` | types/coin.pb.go:505-620 | Terminates on every input without leaving it, and gives the message and success, or the error and the partly filled message, that the wire format says |
| `CoinCodec.MarshalThenUnmarshal` | types/coin.pb.go:290-328 | Unmarshal after Marshal gives the coin back |
| `AbciCodec.AttributeRoundTrip` | types/abci.pb.go:2485-2598 | Decoding an encoded attribute gives it back |
| `AbciCodec.EventRoundTrip` | types/abci.pb.go:2369-2484 | Decoding an encoded event gives it back, attributes in order |
| `AbciCodec.LogRoundTrip` | types/abci.pb.go:2234-2368 | Decoding an encoded log gives it back, events in order |
| `AbciCodec.OnlyAttribute` | types/abci.pb.go:1029-1049 | The bytes of an attribute are the only ones with key and value, where not empty, in this order and in shortest form |
| `AbciCodec.OnlyEvent` | types/abci.pb.go:985-1012 | The same for an event: its type, and then its attributes in order |
| `AbciCodec.OnlyLog` | types/abci.pb.go:936-969 | The same for a log: its index, its text, and then its events in order |
| `AbciCodec.SizeAttribute` | types/abci.pb.go:1519-1534 | The size is the length of the encoding |
| `AbciCodec.SizeEvent` | types/abci.pb.go:1500-1517 | The size is the length of the encoding |
| `AbciCodec.SizeLog` | types/abci.pb.go:1478-1498 | The size is the length of the encoding |
| `AbciCodec.MarshalAttribute` | types/abci.pb.go:1029-1049 | The backward writer fills exactly the bytes of the attribute, fields in order and in shortest form |
| `AbciCodec.PutAttributes` | types/abci.pb.go:990-1004 | The loop over the attributes, from the last to the first |
| `AbciCodec.MarshalEvent` | types/abci.pb.go:985-1012 | The backward writer fills exactly the bytes of the event, fields in order and in shortest form |
| `AbciCodec.PutEvents` | types/abci.pb.go:941-955 | The loop over the events, from the last to the first |
| `AbciCodec.MarshalToSizedBuffer` | types/abci.pb.go:936-969 | The backward writer fills exactly the bytes of the log, fields in order and in shortest form, and leaves the rest of the buffer alone |
| `AbciCodec.Marshal` | types/abci.pb.go:921-929 | The bytes hold index, text and events of the log, in order and in shortest form |
| `AbciCodec.UnmarshalAttribute` | types/abci.pb.go:2485-2598 | Decodes or fails as the wire format says, on every input, with the partly filled message on failure |
| `AbciCodec.UnmarshalEvent` | types/abci.pb.go:2369-2484 | The same, with nested attributes, the last of which a failure may leave partly filled |
| `AbciCodec.Unmarshal` | types/abci.pb.go:2234-2368 | The same, with nested events and the 32-bit index |
| `AbciCodec.MarshalThenUnmarshal` | types/abci.pb.go:921-969 | Unmarshal after Marshal gives the log back |

## Left out

- The IAVL store, hashing, snapshots, pruning and query contexts: the store is a map and the app hash any function of it.
- The internals of ante, post and module handlers, except the sequence check and increment used for proposals.
- Streaming listeners, telemetry, logging, tracing, events and error texts: they do not affect state. Errors are named values.
- Queries, gRPC, command line, keyring, configuration and server start-up.
- Amino, JSON and YAML forms, `NormalizeCoins` and the denomination registry.
- `GetBlockRetentionHeight` and the bech32 address caches.
- Custom proposal handlers and selectors; the default ones are modelled.
- `DecCoin` and the other messages of the two generated files, which are written and read by the same pattern.
- `QuoDec` and `MulDec`, whose rounding belongs to the decimal library, and `MulInt`, `QuoInt`, the strict comparisons and the operations on single coins.
- RunTx.TwoStageAtomicity: a panic of the transaction decoder is not modelled. In finalize mode the same decoder has already returned outside the recovery (baseapp/abci.go:812), where a panic ends the process.
- Overflow of `math.Int` and `LegacyDec` beyond their bit limits is modelled only when parsing text.
- DecText.DecRoundTrip: the format of `LegacyDec` and the parser of big integers belong to libraries that are not part of this repository; the model writes down their text format.
- CoinCodec.CoinRoundTrip: how the amount field is read belongs to the integer library, so the reader is a parameter and the lemma needs it to read back decimal text. `DecimalCoinRoundTrip` gives the decimal reader; the prefixes for other bases that the library also reads are not modelled.
- Proposals.ProposalAccepted: signers of one transaction are pairwise different, as signature verification makes them.
- RunTx.RunTx: events are left out of the result.
