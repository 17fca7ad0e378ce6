/**
 BaseApp's ABCI methods as functions on its state: the root multistore, the four volatile
 branches, and the optimistic-execution record with its goroutine.
 */
module Abci {
  import opened Prelude
  import opened Stores
  import opened Gas
  import opened Recovery
  import opened RunTx
  import opened Blocks

  datatype InitRequest = InitRequest(chainId: string, initialHeight: int, genesis: string)

  /** `RequestProcessProposal` and, field for field, `RequestPrepareProposal`. */
  datatype Proposal = Proposal(hash: Hash, height: int, time: int, txs: seq<Bytes>, rest: string)

  /** The request `Execute` builds for the speculative run. */
  function Requested(p: Proposal): (b: Block) {
    Block(p.hash, p.height, p.time, p.txs, p.rest)
  }

  datatype Verdict = Accept | Reject

  datatype GenesisResult = GenesisResult(writes: Writes, ok: bool)

  /** A handler error or panic in ProcessProposal is a rejection. */
  datatype ProcessResult = ProcessResult(writes: Writes, verdict: Verdict)

  /** `modeTx` are the handlers of transactions outside a block; they see the application's own contexts. */
  datatype Config = Config(
    env: BlockEnv,
    modeTx: (App, Mode) -> TxEnv,
    chainId: string,
    oeEnabled: bool,
    genesis: (Store, InitRequest) -> GenesisResult,
    appHash: Store -> Hash,
    prepare: (Store, Proposal) -> Writes,
    process: (Store, Proposal) -> ProcessResult,
    extend: (Store, int) -> Writes,
    precommit: Store -> Writes,
    prepareCheck: Store -> Writes)

  /** A proposal branch; at the initial height it sits on the finalize branch instead of on the root. */
  datatype Branch = Branch(writes: Writes, onFinalize: bool)

  /**
   The optimistic-execution struct. `started` is "there is a cancel function", `cancelled` is the
   state of the context it cancels, and `pc` is how far the goroutine is: `stopCh` is closed, and
   the response and error are stored, exactly when it is `Stopped`.
   */
  datatype OE = OE(initialized: bool, request: Option<Block>, started: bool, cancelled: bool, pc: Progress)

  const FRESH_OE: OE := OE(false, None, false, false, Stopped(Failed(ErrCancelled)))

  datatype App = App(
    root: Store,
    committed: Store,
    lastHeight: nat,
    initialVersion: int,
    initialHeight: int,
    check: Writes,
    prepare: Option<Branch>,
    process: Option<Branch>,
    finalize: Option<BlockState>,
    oe: OE)

  function Booted(committed: Store, lastHeight: nat): (a: App) {
    App(committed, committed, lastHeight, 0, 0, NO_WRITES, None, None, None, FRESH_OE)
  }

  function ChainOf(a: App): (c: Chain) {
    Chain(a.root, a.lastHeight, a.initialHeight)
  }

  // ---------------------------------------------------------------- InitChain

  function InitialHeight(req: InitRequest): (h: int) {
    if req.initialHeight == 0 then 1 else req.initialHeight
  }

  function InitChain(cfg: Config, a: App, req: InitRequest): (r: (App, bool)) {
    if req.chainId != cfg.chainId then (a, false)
    else
      var g := cfg.genesis(a.root, req);
      (a.(initialHeight := InitialHeight(req),
          initialVersion := if req.initialHeight > 1 then req.initialHeight else a.initialVersion,
          check := NO_WRITES,
          finalize := Some(BlockState(g.writes, Infinite(0)))), g.ok)
  }

  // ---------------------------------------------------------------- runTx on the application, by mode

  /** What the context of a mode shows: a store and a block gas meter. */
  datatype ModeState = ModeState(store: Store, gas: Meter)

  /** What a proposal branch sits on. */
  function BranchBase(a: App, b: Branch): (s: Store) {
    if b.onFinalize && a.finalize.Some? then View(a.root, a.finalize.value.ms) else a.root
  }

  function BranchState(a: App, b: Option<Branch>): (s: Option<ModeState>) {
    if b.None? then None else Some(ModeState(View(BranchBase(a, b.value), b.value.writes), Infinite(0)))
  }

  /** `getState`, and the context it holds; `None` is a nil state. */
  function StateFor(a: App, mode: Mode): (s: Option<ModeState>) {
    match mode
    case Finalize =>
      if a.finalize.None? then None
      else Some(ModeState(View(a.root, a.finalize.value.ms), a.finalize.value.gas))
    case PrepareProposal => BranchState(a, a.prepare)
    case ProcessProposal => BranchState(a, a.process)
    case _ => Some(ModeState(View(a.root, a.check), Infinite(0)))
  }

  function Extended(b: Option<Branch>, w: Writes): (r: Option<Branch>) {
    if b.None? then None else Some(b.value.(writes := Merge(b.value.writes, w)))
  }

  /** Flushing `w` into the multistore of a mode's context. */
  function FlushInto(a: App, mode: Mode, w: Writes): (a': App) {
    match mode
    case Finalize =>
      if a.finalize.None? then a
      else a.(finalize := Some(a.finalize.value.(ms := Merge(a.finalize.value.ms, w))))
    case PrepareProposal => a.(prepare := Extended(a.prepare, w))
    case ProcessProposal => a.(process := Extended(a.process, w))
    case _ => a.(check := Merge(a.check, w))
  }

  /**
   The context of a running transaction: the store and meter of its mode, what it has written into
   the mode's own multistore, and, if there is one, what it has written into a cache in between.
   */
  datatype TxContext = TxContext(base: ModeState, direct: Writes, cache: Option<Writes>)

  /** `getContextForTx`: simulation gets a cache, and the function that would write it back is thrown away. */
  function ContextForTx(s: ModeState, mode: Mode): (c: TxContext) {
    TxContext(s, NO_WRITES, if mode.Simulate? then Some(NO_WRITES) else None)
  }

  function ContextStore(c: TxContext): (s: Store) {
    var s := View(c.base.store, c.direct);
    if c.cache.Some? then View(s, c.cache.value) else s
  }

  /** A write to the context's multistore stays in the cache if there is one. */
  function WriteTo(c: TxContext, w: Writes): (c': TxContext) {
    if c.cache.Some? then c.(cache := Some(Merge(c.cache.value, w))) else c.(direct := Merge(c.direct, w))
  }

  /**
   `runTx` on the application, on the context of its mode. A nil state panics before anything is
   deferred, shown as `None`.
   */
  function RunTxOn(env: TxEnv, a: App, mode: Mode, raw: Bytes): (r: (App, Option<TxOutcome>)) {
    var s := StateFor(a, mode);
    if s.None? then (a, None)
    else
      var c := ContextForTx(s.value, mode);
      var o := Run(env, mode, ContextStore(c), s.value.gas, raw);
      var a1 := FlushInto(a, mode, WriteTo(c, o.writes).direct);
      var a2 := if mode.Finalize? then a1.(finalize := Some(a1.finalize.value.(gas := o.block))) else a1;
      (a2, Some(o))
  }

  /** All fields but the branch of the mode. */
  predicate OnlyItsBranch(a: App, mode: Mode, a': App) {
    match mode
    case Finalize => a' == a.(finalize := a'.finalize)
    case PrepareProposal => a' == a.(prepare := a'.prepare)
    case ProcessProposal => a' == a.(process := a'.process)
    case Simulate => a' == a
    case _ => a' == a.(check := a'.check)
  }

  /** With or without the cache, the transaction sees the store of its mode; only without it do its writes get there. */
  lemma RunTxOnIs(env: TxEnv, a: App, mode: Mode, raw: Bytes)
    requires StateFor(a, mode).Some?
    ensures
      var s := StateFor(a, mode).value;
      var o := Run(env, mode, s.store, s.gas, raw);
      var a1 := FlushInto(a, mode, if mode.Simulate? then NO_WRITES else o.writes);
      RunTxOn(env, a, mode, raw) ==
      (if mode.Finalize? then a1.(finalize := Some(a1.finalize.value.(gas := o.block))) else a1, Some(o))
    ensures FlushInto(a, Simulate, NO_WRITES) == a
  {
    var s := StateFor(a, mode).value;
    ViewNothing(s.store);
    MergeNothing(Run(env, mode, s.store, s.gas, raw).writes);
    MergeNothing(a.check);
    hide View, Merge, Run;
  }

  lemma FlushedView(a: App, mode: Mode, w: Writes)
    requires StateFor(a, mode).Some?
    ensures
      var a' := FlushInto(a, mode, w);
      StateFor(a', mode) == Some(StateFor(a, mode).value.(store := View(StateFor(a, mode).value.store, w)))
  {
    hide View, Merge;
    match mode
    case Finalize => ViewMerged(a.root, a.finalize.value.ms, w);
    case PrepareProposal => ViewMerged(BranchBase(a, a.prepare.value), a.prepare.value.writes, w);
    case ProcessProposal => ViewMerged(BranchBase(a, a.process.value), a.process.value.writes, w);
    case _ => ViewMerged(a.root, a.check, w);
  }

  /**
   Which state `runTx` can reach, for all eight modes. Simulation changes nothing. Every other
   mode changes only its own branch, and what that branch shows afterwards is its old content with
   the first-stage writes, or in finalize mode, exactly when the error is nil, with those and the
   message and post writes.
   */
  lemma RunTxByMode(env: TxEnv, a: App, mode: Mode, raw: Bytes)
    requires StateFor(a, mode).Some?
    ensures RunTxOn(env, a, mode, raw).1.Some? && OnlyItsBranch(a, mode, RunTxOn(env, a, mode, raw).0)
    ensures
      var (a', o) := RunTxOn(env, a, mode, raw);
      var s := StateFor(a, mode).value;
      var first := if Starts(mode, s.gas) then View(s.store, FirstStage(env, mode, s.store, raw)) else s.store;
      && StateFor(a', mode).Some?
      && (mode.Simulate? ==> StateFor(a', mode).value.store == s.store)
      && (!mode.Simulate? && (!mode.Finalize? || o.value.error.Some?) ==> StateFor(a', mode).value.store == first)
      && (mode.Finalize? && o.value.error.None? ==>
            AnteStage(env, mode, s.store, raw).Some? && StateFor(a', mode).value.store == View(first, MsgAndPostWrites(env, s.store, raw)))
      && (mode.Finalize? ==> OneCharge(mode, s.gas, o.value) && StateFor(a', mode).value.gas == o.value.block)
  {
    var s := StateFor(a, mode).value;
    var o := Run(env, mode, s.store, s.gas, raw);
    var w := if mode.Simulate? then NO_WRITES else o.writes;
    RunTxOnIs(env, a, mode, raw);
    TwoStageAtomicity(env, mode, s.store, s.gas, raw);
    ChargedOnce(env, mode, s.store, s.gas, raw);
    FlushedView(a, mode, w);
    ViewNothing(s.store);
    hide RunTxOn, View, Merge, Run, FirstStage, MsgAndPostWrites, AnteStage, OneCharge;
    if mode.Finalize? && o.error.None? {
      assert Starts(mode, s.gas) by {
        ChargedOnce(env, mode, s.store, s.gas, raw);
      }
      ViewMerged(s.store, FirstStage(env, mode, s.store, raw), MsgAndPostWrites(env, s.store, raw));
    }
  }

  // ---------------------------------------------------------------- proposals and votes

  /** The state a proposal or vote handler reads: at the initial height, InitChain's uncommitted state. */
  function ProposalBase(a: App, height: int): (s: Store) {
    if height == a.initialHeight && a.finalize.Some? then View(a.root, a.finalize.value.ms) else a.root
  }

  function PrepareProposal(cfg: Config, a: App, p: Proposal): (r: (App, bool)) {
    if p.height < 1 then (a.(prepare := Some(Branch(NO_WRITES, false))), false)
    else
      (a.(prepare := Some(Branch(cfg.prepare(ProposalBase(a, p.height), p), p.height == a.initialHeight))), true)
  }

  /** `<-stopCh`: let the goroutine run to its end. */
  function Await(cfg: Config, a: App): (a': App)
    ensures a.oe.request.Some? ==> a'.oe.pc.Stopped?
  {
    if a.oe.request.None? || a.oe.pc.Stopped? then a
    else
      var w := Finish(cfg.env, ChainOf(a), a.oe.request.value, a.oe.cancelled, Worker(a.finalize, a.oe.pc));
      a.(finalize := w.state, oe := a.oe.(pc := w.pc))
  }

  /** `Abort`: cancel the context and wait until the goroutine has stopped. */
  function Abort(cfg: Config, a: App): (a': App) {
    if !a.oe.started then a
    else Await(cfg, a.(oe := a.oe.(cancelled := true)))
  }

  /** One step of the goroutine, if it is running. */
  function GoStep(cfg: Config, a: App): (a': App) {
    if a.oe.request.None? || a.oe.pc.Stopped? then a
    else
      var w := Advance(cfg.env, ChainOf(a), a.oe.request.value, a.oe.cancelled, Worker(a.finalize, a.oe.pc));
      a.(finalize := w.state, oe := a.oe.(pc := w.pc))
  }

  /** Above the initial height a new proposal aborts the running speculation and resets the finalize branch. */
  function ResetForProposal(cfg: Config, a: App, height: int): (a': App) {
    if height > a.initialHeight then Abort(cfg, a).(finalize := Some(EMPTY_STATE)) else a
  }

  function ProcessProposal(cfg: Config, a: App, p: Proposal): (r: (App, Verdict)) {
    if p.height < 1 then (a, Reject)
    else
      var a1 := ResetForProposal(cfg, a, p.height);
      var res := cfg.process(ProposalBase(a1, p.height), p);
      var a2 := a1.(process := Some(Branch(res.writes, p.height == a.initialHeight)));
      if res.verdict.Accept? && cfg.oeEnabled && p.height > a.initialHeight then
        (a2.(oe := OE(true, Some(Requested(p)), true, false, Starting)), Accept)
      else
        (a2, res.verdict)
  }

  /** ExtendVote and VerifyVoteExtension run their handler on a branch nobody keeps. */
  function VoteExtension(cfg: Config, a: App, height: int): (w: Writes) {
    cfg.extend(ProposalBase(a, height), height)
  }

  // ---------------------------------------------------------------- FinalizeBlock and Commit

  datatype FinalizeResult = Finalized(response: Response, appHash: Hash) | Refused(error: Error)

  /** `workingHash`: flush the finalize branch into the root, to be hashed. */
  function Flush(a: App): (a': App)
    requires a.finalize.Some?
  {
    a.(root := View(a.root, a.finalize.value.ms), finalize := Some(a.finalize.value.(ms := NO_WRITES)))
  }

  /** Return the outcome; only a response flushes, and a nil finalize state then panics. */
  function Conclude(cfg: Config, a: App, outcome: Outcome): (r: (App, FinalizeResult)) {
    match outcome
    case Done(response) =>
      if a.finalize.None? then (a, Refused(ErrPanic))
      else var a' := Flush(a); (a', Finalized(response, cfg.appHash(a'.root)))
    case Failed(e) => (a, Refused(e))
  }

  function RunDirectly(cfg: Config, a: App, blk: Block): (r: (App, FinalizeResult)) {
    var w := Finish(cfg.env, ChainOf(a), blk, false, Worker(a.finalize, Starting));
    Conclude(cfg, a.(finalize := w.state), w.pc.outcome)
  }

  /** `AbortIfNeeded`: on another hash, or when the test abort rate (`dice`) says so. */
  predicate MustAbort(a: App, blk: Block, dice: bool) {
    a.oe.request.None? || a.oe.request.value.hash != blk.hash || dice
  }

  function FinalizeBlock(cfg: Config, a: App, blk: Block, dice: bool): (r: (App, FinalizeResult)) {
    if !a.oe.initialized then RunDirectly(cfg, a, blk)
    else if !MustAbort(a, blk, dice) then
      var a1 := Await(cfg, a);
      Conclude(cfg, a1, a1.oe.pc.outcome)
    else
      var a1 := Abort(cfg, a);
      RunDirectly(cfg, a1.(finalize := None, oe := a1.oe.(initialized := false, request := None)), blk)
  }

  predicate RunsToNil(cfg: Config, a: App, blk: Block) {
    var w := Finish(cfg.env, ChainOf(a), blk, false, Worker(a.finalize, Starting));
    w.pc.outcome.Done? && w.state.None?
  }

  /** FinalizeBlock is about to flush a finalize state that is nil. */
  predicate FlushesNil(cfg: Config, a: App, blk: Block, dice: bool) {
    if !a.oe.initialized then RunsToNil(cfg, a, blk)
    else if !MustAbort(a, blk, dice) then
      Await(cfg, a).oe.pc.outcome.Done? && Await(cfg, a).finalize.None?
    else RunsToNil(cfg, Abort(cfg, a).(finalize := None), blk)
  }

  /** The version the multistore gives its next commit. */
  function NextVersion(a: App): (v: nat) {
    if a.lastHeight == 0 && a.initialVersion > 1 then a.initialVersion else a.lastHeight + 1
  }

  /** The precommitter writes to the finalize branch after the flush, so its writes are dropped with it. */
  function Commit(cfg: Config, a: App): (a': App) {
    a.(committed := a.root, lastHeight := NextVersion(a), check := cfg.prepareCheck(a.root), finalize := None)
  }
}
