/**
 Whole runs of the application under the consensus protocol. A `World` is the application
 together with what the consensus engine knows; the theorems are about every sequence of events
 the protocol allows, with the speculative goroutine stepping at any point in between.
 */
module Consensus {
  import opened Prelude
  import opened Stores
  import opened Gas
  import opened Recovery
  import opened RunTx
  import opened Blocks
  import opened Abci

  /** Where the engine is: before InitChain, in the rounds of a height, after a decision, or stopped by an error. */
  datatype Stage = Fresh | Rounds | Decided(block: Block) | Halted

  datatype World = World(
    app: App,
    stage: Stage,
    origin: Store,             // the root store the node was first started on
    genesis: Store,            // the origin with InitChain's writes
    first: int,                // the effective initial height
    decided: seq<Block>,       // the committed blocks, in order
    seen: map<Hash, Block>,    // every block or proposal the engine has sent, by hash
    executed: Option<Hash>,    // the last proposal of this height that was accepted for speculation
    accepted: bool)            // was the last proposal of this height accepted?

  datatype Event =
    | InitChainCall(init: InitRequest)
    | TxCall(mode: Mode, raw: Bytes)
    | PrepareCall(proposal: Proposal)
    | ProcessCall(proposal: Proposal)
    | VoteCall(height: int)
    | GoroutineStep
    | FinalizeCall(block: Block, dice: bool)
    | CommitCall
    | Restart

  function Start(origin: Store): (w: World) {
    World(Booted(origin, 0), Fresh, origin, origin, 1, [], map[], None, true)
  }

  function NextHeight(w: World): (h: int) {
    w.first + |w.decided|
  }

  /** The state the next block executes on. */
  function Base(w: World): (s: Store) {
    if w.decided == [] then w.genesis else w.app.committed
  }

  function Step(cfg: Config, w: World, e: Event): (w': World) {
    match e
    case InitChainCall(req) =>
      var r := InitChain(cfg, w.app, req);
      w.(app := r.0,
         stage := if r.1 then Rounds else Halted,
         first := InitialHeight(req),
         genesis := View(w.origin, cfg.genesis(w.origin, req).writes))
    case TxCall(mode, raw) => w.(app := RunTxOn(cfg.modeTx(w.app, mode), w.app, mode, raw).0)
    case PrepareCall(p) => w.(app := Abci.PrepareProposal(cfg, w.app, p).0)
    case ProcessCall(p) =>
      var r := Abci.ProcessProposal(cfg, w.app, p);
      var above := p.height > w.app.initialHeight;
      w.(app := r.0,
         seen := w.seen[p.hash := Requested(p)],
         executed := if above && r.1.Accept? && cfg.oeEnabled then Some(p.hash) else w.executed,
         accepted := r.1.Accept?)
    case VoteCall(_) => w
    case GoroutineStep => w.(app := GoStep(cfg, w.app))
    case FinalizeCall(blk, dice) =>
      var r := FinalizeBlock(cfg, w.app, blk, dice);
      w.(app := r.0, stage := if r.1.Finalized? then Decided(blk) else Halted, seen := w.seen[blk.hash := blk])
    case CommitCall =>
      w.(app := Commit(cfg, w.app),
         stage := Rounds,
         decided := if w.stage.Decided? then w.decided + [w.stage.block] else w.decided,
         executed := None, accepted := true)
    case Restart =>
      w.(app := Booted(w.app.committed, w.app.lastHeight),
         stage := if w.app.lastHeight == 0 then Fresh else Rounds,
         executed := None, accepted := true)
  }

  /** Equal hashes mean equal requests. */
  predicate Faithful(w: World, blk: Block) {
    blk.hash in w.seen ==> w.seen[blk.hash] == blk
  }

  /** FinalizeBlock may be asked to execute any block, of whatever height. */
  predicate MayFinalize(w: World, blk: Block) {
    w.stage.Rounds? && Faithful(w, blk)
  }

  /**
   The calls the protocol allows: InitChain first; then proposals for the next height, one
   decision, and Commit. Nothing is asked of the height of the decided block. CheckTx, recheck,
   simulation and the verification of single transactions may come at any time, and so may
   goroutine steps and restarts.
   */
  predicate Legal(w: World, e: Event) {
    match e
    case InitChainCall(req) => w.stage.Fresh? && req.initialHeight >= 0
    case TxCall(mode, _) => !mode.Finalize?
    case PrepareCall(p) => w.stage.Rounds? && p.height == NextHeight(w)
    case ProcessCall(p) => w.stage.Rounds? && p.height == NextHeight(w) && Faithful(w, Requested(p))
    case VoteCall(height) => w.stage.Rounds? && height == NextHeight(w)
    case GoroutineStep => true
    case FinalizeCall(blk, _) => MayFinalize(w, blk)
    case CommitCall => w.stage.Decided?
    case Restart => true
  }

  /**
   The block was decided before, and the struct still holds its request: a request that was reused
   is not reset.
   */
  predicate Stale(w: World, blk: Block) {
    blk in w.decided && w.app.oe.initialized && w.app.oe.request == Some(blk)
  }

  /**
   If the decided block is the last one accepted for speculation, no later proposal of the height
   was rejected; and it is not a block whose request is left over from an earlier decision.
   */
  predicate Safe(w: World, blk: Block) {
    (w.executed == Some(blk.hash) ==> w.accepted) && !Stale(w, blk)
  }

  /** The decided block, executed once on the state before it. */
  function Plain(cfg: Config, w: World, blk: Block): (x: Executed) {
    PlainFinalize(cfg.env, ChainOf(w.app), Base(w), blk)
  }

  /**
   The decisions that break the ledger. Either the block was speculated on to its end, a later
   proposal of the height was rejected, and the block changes the state; or a block is decided a
   second time while its old response is still stored, with a branch to flush. (`dice` is the
   test abort rate, which discards what is stored.)
   */
  predicate LosesBlock(cfg: Config, w: World, blk: Block, dice: bool) {
    && !Safe(w, blk) && !dice
    && w.app.oe.pc.Stopped? && w.app.oe.pc.outcome.Done?
    && if Stale(w, blk) then w.app.finalize.Some? else Plain(cfg, w, blk).store != w.app.committed
  }

  /** A legal call that does not lose a block. */
  predicate Allowed(cfg: Config, w: World, e: Event) {
    Legal(w, e) && (e.FinalizeCall? ==> !LosesBlock(cfg, w, e.block, e.dice))
  }

  // ---------------------------------------------------------------- the reference ledger

  /** Execute each block once, in order, starting from the genesis state. */
  function Replay(cfg: Config, genesis: Store, blocks: seq<Block>): (s: Store) {
    if blocks == [] then genesis
    else PlainBlock(cfg.env, Replay(cfg, genesis, blocks[..|blocks| - 1]), blocks[|blocks| - 1]).store
  }

  // ---------------------------------------------------------------- the invariant

  /** Letting the goroutine finish from where it is equals running the request from scratch. */
  predicate OnTrack(cfg: Config, a: App, blk: Block) {
    a.finalize.Some?
    && Finish(cfg.env, ChainOf(a), blk, false, Worker(a.finalize, a.oe.pc)) ==
       Finish(cfg.env, ChainOf(a), blk, false, Worker(Some(EMPTY_STATE), Starting))
  }

  /** A stopped run that was aborted ended cancelled, or as it would have ended anyway. */
  predicate AbortedRun(cfg: Config, a: App, blk: Block) {
    a.oe.pc.Stopped?
    && (|| a.oe.pc.outcome == Failed(ErrCancelled)
        || a.oe.pc == Finish(cfg.env, ChainOf(a), blk, false, Worker(Some(EMPTY_STATE), Starting)).pc)
  }

  predicate Known(w: World, blk: Block) {
    blk.hash in w.seen && w.seen[blk.hash] == blk
  }

  /** The struct holds a request of this height. */
  predicate CurrentOk(cfg: Config, w: World, r: Block) {
    && w.app.oe.started && Known(w, r)
    && w.executed == Some(r.hash) && w.app.oe.cancelled == !w.accepted
    && (w.accepted ==> OnTrack(cfg, w.app, r))
    && (!w.accepted ==> w.app.finalize == Some(EMPTY_STATE) && AbortedRun(cfg, w.app, r))
  }

  /** The speculation in the rounds of a height above the initial one. */
  predicate SpeculationOk(cfg: Config, w: World) {
    var oe := w.app.oe;
    if oe.initialized && oe.request.Some? && oe.request.value.height == NextHeight(w) then
      CurrentOk(cfg, w, oe.request.value)
    else
      && w.executed.None?
      && (oe.started ==> oe.pc.Stopped?)
      && (oe.initialized ==>
            && oe.request.Some? && Known(w, oe.request.value) && oe.request.value in w.decided
            && oe.pc.Stopped? && oe.pc.outcome.Done?)
      && (w.app.finalize.Some? ==> w.app.finalize == Some(EMPTY_STATE))
  }

  /** After FinalizeBlock the goroutine has stopped, and a request still held is the decided block's. */
  predicate Stopping(w: World) {
    && (w.app.oe.started ==> w.app.oe.pc.Stopped?)
    && (w.app.oe.initialized ==> w.app.oe.pc.Stopped?)
    && (w.app.oe.initialized ==>
          && w.stage.Decided? && w.app.oe.request == Some(w.stage.block) && Known(w, w.stage.block)
          && w.app.oe.pc.outcome.Done?)
  }

  predicate HeightsOk(cfg: Config, w: World) {
    && w.first >= 1
    && (w.decided == [] <==> w.app.lastHeight == 0)
    && (w.decided != [] ==> w.app.lastHeight == w.first + |w.decided| - 1)
    && (w.decided != [] ==> w.app.initialHeight <= w.app.lastHeight)
    && (forall i :: 0 <= i < |w.decided| ==>
          w.decided[i].height == w.first + i && CheckHalt(cfg.env, w.decided[i].height, w.decided[i].time).None?)
  }

  predicate LedgerOk(cfg: Config, w: World) {
    w.app.committed == if w.decided == [] then w.origin else Replay(cfg, w.genesis, w.decided)
  }

  /** Before the first commit, once InitChain has run. */
  predicate FirstHeightOk(w: World) {
    && w.app.initialHeight == w.first
    && w.app.initialVersion == (if w.first > 1 then w.first else 0)
    && w.app.oe == FRESH_OE && w.executed.None?
  }

  predicate StageOk(cfg: Config, w: World) {
    var a := w.app;
    match w.stage
    case Fresh => w.decided == [] && a == Booted(a.committed, 0).(check := a.check) && w.executed.None?
    case Rounds =>
      && a.root == a.committed
      && (w.decided == [] ==> FirstHeightOk(w) && a.finalize.Some? && View(a.root, a.finalize.value.ms) == w.genesis)
      && (w.decided != [] ==> SpeculationOk(cfg, w))
    case Decided(blk) =>
      && (w.decided == [] ==> FirstHeightOk(w))
      && Stopping(w)
      && a.finalize.Some?
      && blk.height == NextHeight(w) && CheckHalt(cfg.env, blk.height, blk.time).None?
      && PlainBlock(cfg.env, Base(w), blk).store == a.root
    case Halted => a.root == a.committed && (a.oe.started ==> a.oe.pc.Stopped?)
  }

  predicate Inv(cfg: Config, w: World) {
    HeightsOk(cfg, w) && LedgerOk(cfg, w) && StageOk(cfg, w) && (w.app.oe.initialized ==> w.app.oe.started)
    && (w.app.oe.request.Some? ==> w.app.oe.started) && (w.app.oe.started ==> cfg.oeEnabled)
  }

  // ---------------------------------------------------------------- every event keeps the invariant

  lemma StartOk(cfg: Config, origin: Store)
    ensures Inv(cfg, Start(origin))
  {
  }

  lemma InitChainOk(cfg: Config, w: World, req: InitRequest)
    requires Inv(cfg, w) && Legal(w, InitChainCall(req))
    ensures Inv(cfg, Step(cfg, w, InitChainCall(req)))
    ensures Step(cfg, w, InitChainCall(req)).stage ==
            if req.chainId == cfg.chainId && cfg.genesis(w.origin, req).ok then Rounds else Halted
  {
    hide View;
  }

  /** InitChain's writes wait in the finalize branch, on top of a root that is still the origin. */
  lemma GenesisWaits(cfg: Config, w: World, req: InitRequest)
    requires Inv(cfg, w) && Legal(w, InitChainCall(req)) && InitChain(cfg, w.app, req).1
    ensures
      var w' := Step(cfg, w, InitChainCall(req));
      && w'.first == w'.app.initialHeight == (if req.initialHeight == 0 then 1 else req.initialHeight)
      && w'.genesis == View(w.origin, cfg.genesis(w.origin, req).writes)
      && w'.app.finalize.Some? && View(w'.app.root, w'.app.finalize.value.ms) == w'.genesis
      && w'.app.root == w'.app.committed == w.origin
  {
    hide View;
  }

  /** `e` changes nothing but the branch it works on. */
  predicate OnlyOwnBranch(e: Event, w: World, w': World) {
    match e
    case TxCall(mode, _) => w' == w.(app := w'.app) && OnlyItsBranch(w.app, mode, w'.app)
    case PrepareCall(_) => w' == w.(app := w.app.(prepare := w'.app.prepare))
    case _ => w' == w
  }

  lemma RunTxKeeps(env: TxEnv, a: App, mode: Mode, raw: Bytes)
    ensures OnlyItsBranch(a, mode, RunTxOn(env, a, mode, raw).0)
    ensures StateFor(a, mode).None? ==> RunTxOn(env, a, mode, raw).0 == a
  {
    hide View, Merge, Run, FirstStage, MsgAndPostWrites, AnteStage;
    if StateFor(a, mode).Some? {
      RunTxByMode(env, a, mode, raw);
    } else {
      assert RunTxOn(env, a, mode, raw).0 == a;
    }
  }

  /**
   Running single transactions in any mode but finalize, PrepareProposal and vote extensions touch
   only their own branch: no committed, root or finalize state, and nothing of the speculation.
   */
  lemma BystanderOk(cfg: Config, w: World, e: Event)
    requires Inv(cfg, w) && Legal(w, e) && (e.TxCall? || e.PrepareCall? || e.VoteCall?)
    ensures OnlyOwnBranch(e, w, Step(cfg, w, e))
    ensures Inv(cfg, Step(cfg, w, e))
  {
    hide View, Merge, Finish, CheckHalt, PlainBlock, Replay, RunTxOn;
    var w' := Step(cfg, w, e);
    if e.TxCall? {
      RunTxKeeps(cfg.modeTx(w.app, e.mode), w.app, e.mode, e.raw);
    }
    assert w' == w.(app := w.app.(check := w'.app.check, prepare := w'.app.prepare, process := w'.app.process));
    assert ChainOf(w'.app) == ChainOf(w.app);
  }

  lemma GoStepOk(cfg: Config, w: World)
    requires Inv(cfg, w)
    ensures Inv(cfg, Step(cfg, w, GoroutineStep))
  {
    hide View, Merge, Advance, CheckHalt, PlainBlock, Replay;
  }

  /** A cancelled run stops at its next cancel point, or ends as it would have ended anyway. */
  lemma CancelledOrPlain(env: BlockEnv, chain: Chain, blk: Block, w: Worker)
    ensures
      var stopped := Finish(env, chain, blk, true, w).pc;
      stopped.outcome == Failed(ErrCancelled) || stopped == Finish(env, chain, blk, false, w).pc
  {
    hide View, Merge, Deliver, HeightError, BlockMeter;
    var cancelled, plain := Advance(env, chain, blk, true, w), Advance(env, chain, blk, false, w);
    assert cancelled.pc.Stopped?;
    assert Finish(env, chain, blk, true, w) == cancelled;
    if cancelled.pc.outcome != Failed(ErrCancelled) {
      assert plain.pc == cancelled.pc;
      assert Finish(env, chain, blk, false, w) == plain;
    }
  }

  lemma AbortOk(cfg: Config, w: World)
    requires Inv(cfg, w) && w.stage.Rounds? && w.decided != []
    ensures
      var a' := Abort(cfg, w.app);
      && a'.oe == w.app.oe.(cancelled := a'.oe.cancelled, pc := a'.oe.pc)
      && (a'.oe.started ==> a'.oe.pc.Stopped? && a'.oe.cancelled)
      && (w.executed.Some? ==> AbortedRun(cfg, a'.(finalize := Some(EMPTY_STATE)), w.app.oe.request.value))
  {
    hide View, Merge, Advance, CheckHalt, PlainBlock, Replay;
    if w.executed.Some? {
      CancelledOrPlain(cfg.env, ChainOf(w.app), w.app.oe.request.value, Worker(w.app.finalize, w.app.oe.pc));
    }
  }

  /** What ProcessProposal leaves behind above the initial height. */
  lemma ProcessOk(cfg: Config, w: World, p: Proposal)
    requires Inv(cfg, w) && Legal(w, ProcessCall(p))
    ensures Inv(cfg, Step(cfg, w, ProcessCall(p)))
  {
    hide View, Merge, Advance, CheckHalt, PlainBlock, Replay, Finish;
    var a := w.app;
    var w' := Step(cfg, w, ProcessCall(p));
    if w.decided == [] {
      assert w'.app == a.(process := w'.app.process);
    } else {
      var r := Abci.ProcessProposal(cfg, a, p);
      assert ChainOf(w'.app) == ChainOf(a);
      if r.1.Accept? && cfg.oeEnabled {
        assert CurrentOk(cfg, w', Requested(p));
      } else {
        AbortOk(cfg, w);
        assert w'.app.finalize == Some(EMPTY_STATE);
        assert w'.app.oe == Abort(cfg, a).oe;
      }
    }
  }

  // ---------------------------------------------------------------- FinalizeBlock

  /** FinalizeBlock answered `r` as executing the block once on `base` does, in response and in root store. */
  predicate AgreesWith(cfg: Config, r: (App, FinalizeResult), root: Store, x: Executed) {
    match x.outcome
    case Done(response) => r.1 == Finalized(response, cfg.appHash(x.store)) && r.0.root == x.store
    case Failed(e) => r.1 == Refused(e) && r.0.root == root
  }

  predicate Agrees(cfg: Config, w: World, blk: Block, dice: bool) {
    AgreesWith(cfg, FinalizeBlock(cfg, w.app, blk, dice), w.app.root, Plain(cfg, w, blk))
  }

  /** A run that produces a response has a branch to flush. */
  lemma {:induction false} FinishKeepsBranch(env: BlockEnv, chain: Chain, blk: Block, state: Option<BlockState>)
    ensures
      var w := Finish(env, chain, blk, false, Worker(state, Starting));
      w.pc.outcome.Done? ==> w.state.Some?
  {
    hide View, Merge, Deliver, HeightError, BlockMeter, TxStep, EndStep;
    var w := Advance(env, chain, blk, false, Worker(state, Starting));
    assert Finish(env, chain, blk, false, Worker(state, Starting)) == Finish(env, chain, blk, false, w);
    assert w.state.Some? || w.pc.Stopped?;
  }

  lemma RunDirectlyAgrees(cfg: Config, a: App, blk: Block)
    ensures
      var base := if a.finalize.Some? then View(a.root, a.finalize.value.ms) else a.root;
      AgreesWith(cfg, RunDirectly(cfg, a, blk), a.root, PlainFinalize(cfg.env, ChainOf(a), base, blk))
  {
    hide View, Merge, Advance, Finish, PlainFinalize;
    FinishIsPlain(cfg.env, ChainOf(a), blk, a.finalize);
    FinishKeepsBranch(cfg.env, ChainOf(a), blk, a.finalize);
  }

  /** A decided block other than the one speculated on is run directly, from the committed state. */
  lemma DirectAgrees(cfg: Config, w: World, blk: Block, dice: bool)
    requires Inv(cfg, w) && MayFinalize(w, blk)
    requires dice || (w.executed != Some(blk.hash) && !Stale(w, blk))
    ensures Agrees(cfg, w, blk, dice)
  {
    hide View, Merge, Advance, Finish, PlainFinalize, CheckHalt, PlainBlock, Replay, AgreesWith, RunDirectly;
    var a := w.app;
    ViewNothing(a.root);
    if !a.oe.initialized {
      RunDirectlyAgrees(cfg, a, blk);
    } else {
      assert MustAbort(a, blk, dice);
      var a1 := Abort(cfg, a);
      var a2 := a1.(finalize := None, oe := a1.oe.(initialized := false, request := None));
      assert ChainOf(a2) == ChainOf(a);
      RunDirectlyAgrees(cfg, a2, blk);
    }
  }

  /** The speculation is used as it is: it ended as a run from scratch would have. */
  lemma ReuseAgrees(cfg: Config, w: World, blk: Block)
    requires Inv(cfg, w) && MayFinalize(w, blk)
    requires w.executed == Some(blk.hash) && w.accepted
    ensures Agrees(cfg, w, blk, false)
  {
    hide View, Merge, Advance, PlainFinalize, CheckHalt, PlainBlock, Replay;
    var a := w.app;
    assert w.decided != [];
    assert blk == a.oe.request.value;
    assert Await(cfg, a).finalize == Finish(cfg.env, ChainOf(a), blk, false, Worker(a.finalize, a.oe.pc)).state;
    FinishIsPlain(cfg.env, ChainOf(a), blk, Some(EMPTY_STATE));
    ViewNothing(a.root);
  }

  /** The speculation is used as it is, or thrown away for a direct run. */
  lemma SafeAgrees(cfg: Config, w: World, blk: Block, dice: bool)
    requires Inv(cfg, w) && MayFinalize(w, blk) && (Safe(w, blk) || dice)
    ensures Agrees(cfg, w, blk, dice)
  {
    hide View, Merge, Inv, Agrees;
    if dice || (w.executed != Some(blk.hash) && !Stale(w, blk)) {
      DirectAgrees(cfg, w, blk, dice);
    } else {
      ReuseAgrees(cfg, w, blk);
    }
  }

  /**
   The aborted run got past its last cancel point, or failed by itself, and the block leaves the
   committed state as it is: then the stored outcome happens to be right.
   */
  predicate Harmless(cfg: Config, w: World, blk: Block) {
    var x := Plain(cfg, w, blk);
    && !Stale(w, blk)
    && (w.app.oe.pc != Stopped(Failed(ErrCancelled)) || x.outcome == Failed(ErrCancelled))
    && (x.outcome.Done? ==> x.store == w.app.committed)
  }

  /** What FinalizeBlock answers from a stored outcome over an empty branch, or over none. */
  function StoredAnswer(cfg: Config, a: App, outcome: Outcome): (r: FinalizeResult) {
    match outcome
    case Done(response) => if a.finalize.None? then Refused(ErrPanic) else Finalized(response, cfg.appHash(a.committed))
    case Failed(e) => Refused(e)
  }

  /** After a rejection, or a second time, FinalizeBlock answers with what is stored and flushes nothing. */
  lemma UnsafeAnswer(cfg: Config, w: World, blk: Block)
    requires Inv(cfg, w) && MayFinalize(w, blk) && !Safe(w, blk)
    ensures
      var r := FinalizeBlock(cfg, w.app, blk, false);
      && w.decided != []
      && w.app.oe.pc.Stopped?
      && r.1 == StoredAnswer(cfg, w.app, w.app.oe.pc.outcome)
      && r.0.root == w.app.root == w.app.committed == Base(w)
      && (!Stale(w, blk) ==> w.app.finalize.Some?)
  {
    hide View, Merge, Advance, Finish, CheckHalt, PlainBlock, Replay, PlainFinalize;
    ViewNothing(w.app.root);
    assert w.decided != [];
    assert Await(cfg, w.app) == w.app;
  }

  /** After a rejection the stored outcome is the cancellation, or the outcome of the block. */
  lemma AbortedOutcome(cfg: Config, w: World, blk: Block)
    requires Inv(cfg, w) && MayFinalize(w, blk) && !Safe(w, blk) && !Stale(w, blk)
    ensures w.app.oe.pc == Stopped(Failed(ErrCancelled)) || w.app.oe.pc == Stopped(Plain(cfg, w, blk).outcome)
  {
    hide View, Merge, Advance, Finish, CheckHalt, PlainBlock, Replay, PlainFinalize;
    assert w.decided != [];
    ViewNothing(w.app.root);
    FinishIsPlain(cfg.env, ChainOf(w.app), blk, Some(EMPTY_STATE));
  }

  /** The height `validateFinalizeBlockHeight` expects is the one after the last decided block. */
  lemma ExpectedIsNext(cfg: Config, w: World)
    requires Inv(cfg, w) && w.stage.Rounds?
    ensures ExpectedHeight(w.app.lastHeight, w.app.initialHeight) == NextHeight(w)
  {
    hide View, Finish, CheckHalt, PlainBlock, Replay;
  }

  /** The second time the block has the wrong height, and yet its old response is what is stored. */
  lemma StaleOutcome(cfg: Config, w: World, blk: Block)
    requires Inv(cfg, w) && MayFinalize(w, blk) && Stale(w, blk)
    ensures blk.height < NextHeight(w)
    ensures w.app.oe.pc.Stopped? && w.app.oe.pc.outcome.Done?
    ensures
      var x := Plain(cfg, w, blk);
      x.outcome == Failed(ErrHalt) || x.outcome == Failed(ErrInvalidHeight)
  {
    hide View, Merge, Advance, Finish, CheckHalt, PlainBlock, Replay;
    ExpectedIsNext(cfg, w);
    var i :| 0 <= i < |w.decided| && w.decided[i] == blk;
    assert blk.height == w.first + i;
    assert CheckHalt(cfg.env, blk.height, blk.time).None?;
  }

  /** The code refuses every other height. */
  lemma OtherHeightsRefused(cfg: Config, w: World, blk: Block)
    requires Inv(cfg, w) && MayFinalize(w, blk) && Plain(cfg, w, blk).outcome.Done?
    ensures blk.height == NextHeight(w) && CheckHalt(cfg.env, blk.height, blk.time).None?
    ensures Plain(cfg, w, blk) == PlainBlock(cfg.env, Base(w), blk)
  {
    ExpectedIsNext(cfg, w);
    hide Inv, View, CheckHalt, PlainBlock;
  }

  /** When FinalizeBlock agrees with plain execution, exactly, for every block whatsoever. */
  lemma AgreesExactly(cfg: Config, w: World, blk: Block, dice: bool)
    requires Inv(cfg, w) && MayFinalize(w, blk)
    ensures Agrees(cfg, w, blk, dice) <==> Safe(w, blk) || dice || Harmless(cfg, w, blk)
  {
    hide Inv, View, FinalizeBlock, PlainFinalize, Stale;
    if Safe(w, blk) || dice {
      SafeAgrees(cfg, w, blk, dice);
    } else {
      UnsafeAnswer(cfg, w, blk);
      if Stale(w, blk) {
        StaleOutcome(cfg, w, blk);
      } else {
        AbortedOutcome(cfg, w, blk);
      }
    }
  }

  /** FinalizeBlock leaves the goroutine stopped and changes nothing but the root, its branch and the struct. */
  lemma FinalizeFrame(cfg: Config, w: World, blk: Block, dice: bool)
    requires Inv(cfg, w) && MayFinalize(w, blk)
    ensures
      var a, a' := w.app, FinalizeBlock(cfg, w.app, blk, dice).0;
      && a' == a.(root := a'.root, finalize := a'.finalize, oe := a'.oe)
      && (!a.oe.initialized ==> a'.oe == a.oe)
      && (a'.oe.started == a.oe.started)
      && (a'.oe.started ==> a'.oe.pc.Stopped?)
      && (a'.oe.request.Some? ==> a'.oe.started)
      && (a'.oe.initialized ==>
            && a.oe.initialized && a'.oe.request == a.oe.request
            && a.oe.request.Some? && a.oe.request.value.hash == blk.hash)
      && (FinalizeBlock(cfg, w.app, blk, dice).1.Finalized? ==>
            a'.finalize.Some? && (a'.oe.initialized ==> a'.oe.pc.Stopped? && a'.oe.pc.outcome.Done?))
  {
    hide View, Merge, Advance, Finish, CheckHalt, PlainBlock, Replay, HeightError;
  }

  /** A request that FinalizeBlock keeps is that of the block. */
  lemma KeptRequest(cfg: Config, w: World, blk: Block, dice: bool)
    requires Inv(cfg, w) && MayFinalize(w, blk)
    requires FinalizeBlock(cfg, w.app, blk, dice).0.oe.initialized
    ensures FinalizeBlock(cfg, w.app, blk, dice).0.oe.request == Some(blk)
  {
    FinalizeFrame(cfg, w, blk, dice);
    hide View, Merge, Advance, Finish, CheckHalt, PlainBlock, Replay, FinalizeBlock;
    assert Known(w, w.app.oe.request.value);
  }

  /** The run invariant survives a decision exactly when no block is lost. */
  lemma FinalizeOk(cfg: Config, w: World, blk: Block, dice: bool)
    requires Inv(cfg, w) && MayFinalize(w, blk)
    ensures Inv(cfg, Step(cfg, w, FinalizeCall(blk, dice))) <==> !LosesBlock(cfg, w, blk, dice)
  {
    hide View, Merge, Advance, Finish, CheckHalt, PlainBlock, Replay, FinalizeBlock, Stale, PlainFinalize;
    FinalizeFrame(cfg, w, blk, dice);
    var w' := Step(cfg, w, FinalizeCall(blk, dice));
    assert Base(w') == Base(w) && NextHeight(w') == NextHeight(w);
    if w'.app.oe.initialized {
      KeptRequest(cfg, w, blk, dice);
      assert Known(w', blk);
    }
    if Plain(cfg, w, blk).outcome.Done? {
      OtherHeightsRefused(cfg, w, blk);
    }
    if Safe(w, blk) || dice {
      SafeAgrees(cfg, w, blk, dice);
    } else {
      UnsafeAnswer(cfg, w, blk);
      if Stale(w, blk) {
        StaleOutcome(cfg, w, blk);
      } else {
        AbortedOutcome(cfg, w, blk);
      }
    }
  }

  /** The committed store is not what the decided blocks make, or their heights do not follow each other. */
  predicate LedgerBroken(cfg: Config, w: World) {
    || w.app.committed != Replay(cfg, w.genesis, w.decided)
    || exists i :: 0 <= i < |w.decided| && w.decided[i].height != w.first + i
  }

  lemma LedgerIsBase(cfg: Config, w: World)
    requires Inv(cfg, w) && w.decided != []
    ensures Replay(cfg, w.genesis, w.decided) == Base(w)
  {
  }

  /** A lost block is committed as decided, and the store stays as it was. */
  lemma LostBlockCommitted(cfg: Config, w: World, blk: Block)
    requires Inv(cfg, w) && MayFinalize(w, blk) && LosesBlock(cfg, w, blk, false)
    ensures
      var w' := Step(cfg, Step(cfg, w, FinalizeCall(blk, false)), CommitCall);
      && w'.decided == w.decided + [blk]
      && w'.app.committed == w.app.committed
      && LedgerBroken(cfg, w')
  {
    hide View, Merge, Advance, Finish, CheckHalt, PlainBlock, FinalizeBlock, Inv, PlainFinalize, Stale, Safe;
    UnsafeAnswer(cfg, w, blk);
    FinalizeFrame(cfg, w, blk, false);
    var w1 := Step(cfg, w, FinalizeCall(blk, false));
    var w' := Step(cfg, w1, CommitCall);
    assert w1.stage == Decided(blk) && w1.app.root == w.app.committed;
    assert w'.decided == w.decided + [blk] && w'.app.committed == w.app.committed;
    assert w'.first == w.first && w'.genesis == w.genesis;
    var n := |w.decided|;
    assert w'.decided[..n] == w.decided && w'.decided[n] == blk;
    hide Step;
    if Stale(w, blk) {
      StaleOutcome(cfg, w, blk);
      assert w'.decided[n].height != w'.first + n;
    } else {
      AbortedOutcome(cfg, w, blk);
      OtherHeightsRefused(cfg, w, blk);
      LedgerIsBase(cfg, w);
      assert Replay(cfg, w'.genesis, w'.decided) == PlainBlock(cfg.env, Base(w), blk).store;
    }
  }

  lemma {:induction false} CommitOk(cfg: Config, w: World)
    requires Inv(cfg, w) && Legal(w, CommitCall)
    ensures Inv(cfg, Step(cfg, w, CommitCall))
  {
    hide View, Merge, Advance, Finish, CheckHalt, PlainBlock;
    var w' := Step(cfg, w, CommitCall);
    assert w'.decided[..|w'.decided| - 1] == w.decided && w'.decided[|w'.decided| - 1] == w.stage.block;
    assert Replay(cfg, w.genesis, w.decided) == Base(w);
    assert Replay(cfg, w.genesis, w'.decided) == w.app.root;
  }

  /**
   After Commit the committed store is the ledger with the decided block at its end, and CheckTx starts
   again from that store, with what PrepareCheckState writes.
   */
  lemma CommitExtendsLedger(cfg: Config, w: World)
    requires Inv(cfg, w) && Legal(w, CommitCall)
    ensures
      var w' := Step(cfg, w, CommitCall);
      && w'.decided == w.decided + [w.stage.block]
      && w'.app.committed == Replay(cfg, w'.genesis, w'.decided)
      && w'.app.lastHeight == w.stage.block.height
      && StateFor(w'.app, Check) == Some(ModeState(View(w'.app.committed, cfg.prepareCheck(w'.app.committed)), Infinite(0)))
  {
    hide View, Merge, Advance, Finish, CheckHalt, PlainBlock, Replay;
    CommitOk(cfg, w);
  }

  /** The application's part of a call. */
  lemma StepApp(cfg: Config, w: World, e: Event)
    ensures e.CommitCall? ==> Step(cfg, w, e).app == Commit(cfg, w.app)
    ensures e.InitChainCall? ==> Step(cfg, w, e).app == InitChain(cfg, w.app, e.init).0
    ensures e.ProcessCall? ==> Step(cfg, w, e).app == Abci.ProcessProposal(cfg, w.app, e.proposal).0
    ensures e.FinalizeCall? ==> Step(cfg, w, e).app == FinalizeBlock(cfg, w.app, e.block, e.dice).0
  {
    hide Commit, InitChain, Abci.ProcessProposal, FinalizeBlock, View;
  }

  lemma RestartOk(cfg: Config, w: World)
    requires Inv(cfg, w)
    ensures Inv(cfg, Step(cfg, w, Restart))
  {
    hide View, Merge, Advance, Finish, CheckHalt, PlainBlock, Replay;
  }

  lemma StepOk(cfg: Config, w: World, e: Event)
    requires Inv(cfg, w) && Allowed(cfg, w, e)
    ensures Inv(cfg, Step(cfg, w, e))
  {
    hide Inv, Step, LosesBlock;
    match e
    case InitChainCall(req) => InitChainOk(cfg, w, req);
    case TxCall(_, _) => BystanderOk(cfg, w, e);
    case PrepareCall(_) => BystanderOk(cfg, w, e);
    case ProcessCall(p) => ProcessOk(cfg, w, p);
    case VoteCall(_) => BystanderOk(cfg, w, e);
    case GoroutineStep => GoStepOk(cfg, w);
    case FinalizeCall(blk, dice) => FinalizeOk(cfg, w, blk, dice);
    case CommitCall => CommitOk(cfg, w);
    case Restart => RestartOk(cfg, w);
  }

  // ---------------------------------------------------------------- nil states

  /** The call reads a finalize state that is nil. */
  predicate ReadsNil(cfg: Config, w: World, e: Event) {
    match e
    case PrepareCall(p) => p.height == w.app.initialHeight && w.app.finalize.None?
    case ProcessCall(p) => p.height == w.app.initialHeight && w.app.finalize.None?
    case VoteCall(height) => height == w.app.initialHeight && w.app.finalize.None?
    case FinalizeCall(blk, dice) => FlushesNil(cfg, w.app, blk, dice)
    case CommitCall => w.app.finalize.None?
    case _ => false
  }

  lemma NilFlushExactly(cfg: Config, w: World, blk: Block, dice: bool)
    requires Inv(cfg, w) && MayFinalize(w, blk)
    ensures FlushesNil(cfg, w.app, blk, dice) <==> !dice && Stale(w, blk) && w.app.finalize.None?
  {
    hide View, Merge, Advance, CheckHalt, PlainBlock, Replay, Finish;
    var a := w.app;
    if !a.oe.initialized {
      FinishKeepsBranch(cfg.env, ChainOf(a), blk, a.finalize);
    } else if MustAbort(a, blk, dice) {
      var a1 := Abort(cfg, a).(finalize := None);
      FinishKeepsBranch(cfg.env, ChainOf(a1), blk, None);
    } else if blk in w.decided {
      assert Await(cfg, a) == a;
    } else {
      assert a.finalize.Some?;
    }
  }

  /** Only a second decision of a block whose response is still stored can meet a nil state. */
  lemma NilExactly(cfg: Config, w: World, e: Event)
    requires Inv(cfg, w) && Legal(w, e)
    ensures ReadsNil(cfg, w, e) <==> e.FinalizeCall? && !e.dice && Stale(w, e.block) && w.app.finalize.None?
  {
    hide View, Merge, Advance, CheckHalt, PlainBlock, Replay, Finish;
    if e.FinalizeCall? {
      NilFlushExactly(cfg, w, e.block, e.dice);
    }
  }

  // ---------------------------------------------------------------- what the handlers see

  /** The answer and the branch of a proposal handler that runs on `base`; at the initial height `base` is the genesis state. */
  predicate RanOn(cfg: Config, w: World, e: Event, base: Store) {
    match e
    case PrepareCall(p) =>
      var r := Abci.PrepareProposal(cfg, w.app, p);
      r.1 && StateFor(r.0, Mode.PrepareProposal) == Some(ModeState(View(base, cfg.prepare(base, p)), Infinite(0)))
    case ProcessCall(p) =>
      var r := Abci.ProcessProposal(cfg, w.app, p);
      && r.1 == cfg.process(base, p).verdict
      && StateFor(r.0, Mode.ProcessProposal) == Some(ModeState(View(base, cfg.process(base, p).writes), Infinite(0)))
    case VoteCall(height) => Abci.VoteExtension(cfg, w.app, height) == cfg.extend(base, height)
    case _ => true
  }

  lemma HandlersRunOnBase(cfg: Config, w: World, e: Event)
    requires Inv(cfg, w) && Legal(w, e)
    ensures RanOn(cfg, w, e, Base(w))
  {
    hide View, Merge, Advance, Finish, CheckHalt, PlainBlock, Replay;
  }

  /** The block is refused at a halt or at another height, and executed on the state before it otherwise. */
  lemma PlainExactly(cfg: Config, w: World, blk: Block)
    requires Inv(cfg, w) && MayFinalize(w, blk) && 0 <= blk.height < TWO_63 && cfg.env.haltTime < TWO_63
    ensures Plain(cfg, w, blk) ==
            if AtHalt(cfg.env, blk) then Executed(Base(w), Failed(ErrHalt))
            else if blk.height != NextHeight(w) then Executed(Base(w), Failed(ErrInvalidHeight))
            else PlainBlock(cfg.env, Base(w), blk)
  {
    ExpectedIsNext(cfg, w);
    RefusedExactly(cfg.env, ChainOf(w.app), blk);
    hide Inv, View, HeightError, PlainBlock;
  }

  // ---------------------------------------------------------------- whole runs

  function After(cfg: Config, w: World, events: seq<Event>): (w': World)
    decreases |events|
  {
    if events == [] then w else After(cfg, Step(cfg, w, events[0]), events[1..])
  }

  predicate Conforms(cfg: Config, w: World, events: seq<Event>)
    decreases |events|
  {
    events == [] || (Allowed(cfg, w, events[0]) && Conforms(cfg, Step(cfg, w, events[0]), events[1..]))
  }

  lemma {:induction false} RunOk(cfg: Config, w: World, events: seq<Event>)
    requires Inv(cfg, w) && Conforms(cfg, w, events)
    ensures Inv(cfg, After(cfg, w, events))
    decreases |events|
  {
    hide Inv, Step, Allowed;
    if events == [] {
    } else {
      StepOk(cfg, w, events[0]);
      RunOk(cfg, Step(cfg, w, events[0]), events[1..]);
    }
  }

  lemma {:induction false} RunConcat(cfg: Config, w: World, a: seq<Event>, b: seq<Event>)
    ensures After(cfg, w, a + b) == After(cfg, After(cfg, w, a), b)
    ensures Conforms(cfg, w, a + b) <==> Conforms(cfg, w, a) && Conforms(cfg, After(cfg, w, a), b)
    decreases |a|
  {
    hide Step, Allowed;
    if a == [] {
      assert a + b == b;
    } else {
      assert (a + b)[1..] == a[1..] + b;
      RunConcat(cfg, Step(cfg, w, a[0]), a[1..], b);
    }
  }

  /**
   Optimistic execution refines plain execution. After every conforming run, whatever rounds,
   goroutine steps, aborts and restarts it had, FinalizeBlock gives the response, the app hash and
   the root store of one uncancelled execution of the block on the last committed state, or its
   refusal, provided the last proposal of the height was accepted or the decided block is not the
   speculated one, and its request is not left over from an earlier decision.
   */
  lemma OptimisticExecutionRefinesPlain(cfg: Config, origin: Store, events: seq<Event>, blk: Block, dice: bool)
    requires Conforms(cfg, Start(origin), events)
    requires var w := After(cfg, Start(origin), events); MayFinalize(w, blk) && Safe(w, blk)
    ensures Agrees(cfg, After(cfg, Start(origin), events), blk, dice)
  {
    hide Inv, Step, Conforms, Agrees, MayFinalize;
    StartOk(cfg, origin);
    RunOk(cfg, Start(origin), events);
    SafeAgrees(cfg, After(cfg, Start(origin), events), blk, dice);
  }

  /** The exact condition, after every conforming run. */
  lemma SafeIsExact(cfg: Config, origin: Store, events: seq<Event>, blk: Block, dice: bool)
    requires Conforms(cfg, Start(origin), events) && MayFinalize(After(cfg, Start(origin), events), blk)
    ensures
      var w := After(cfg, Start(origin), events);
      Agrees(cfg, w, blk, dice) <==> Safe(w, blk) || dice || Harmless(cfg, w, blk)
  {
    hide Inv, Step, Conforms, Agrees, MayFinalize, Safe, Harmless;
    StartOk(cfg, origin);
    RunOk(cfg, Start(origin), events);
    AgreesExactly(cfg, After(cfg, Start(origin), events), blk, dice);
  }

  lemma {:induction false} OriginKept(cfg: Config, w: World, events: seq<Event>)
    ensures After(cfg, w, events).origin == w.origin
    decreases |events|
  {
    if events == [] {
    } else {
      OriginKept(cfg, Step(cfg, w, events[0]), events[1..]);
    }
  }

  /**
   In every run of legal calls that loses no block, the committed store is the genesis state followed by the decided
   blocks, each executed once and in order; the committed heights are contiguous from the
   effective initial height; and no block reaches a configured halt height or halt time.
   */
  lemma CommittedStoreIsTheLedger(cfg: Config, origin: Store, events: seq<Event>)
    requires Conforms(cfg, Start(origin), events)
    ensures
      var w := After(cfg, Start(origin), events);
      && w.app.committed == (if w.decided == [] then origin else Replay(cfg, w.genesis, w.decided))
      && w.first >= 1
      && w.app.lastHeight == (if w.decided == [] then 0 else w.first + |w.decided| - 1)
      && (forall i :: 0 <= i < |w.decided| ==> w.decided[i].height == w.first + i)
      && (cfg.env.haltHeight > 0 ==>
            forall i :: 0 <= i < |w.decided| && w.decided[i].height < TWO_63 ==>
              w.decided[i].height < cfg.env.haltHeight)
      && (cfg.env.haltTime > 0 ==>
            forall i :: 0 <= i < |w.decided| ==> w.decided[i].time < ToI64(cfg.env.haltTime))
  {
    hide Step, Allowed, Replay, Conforms;
    StartOk(cfg, origin);
    RunOk(cfg, Start(origin), events);
    var w := After(cfg, Start(origin), events);
    assert w.origin == origin by {
      OriginKept(cfg, Start(origin), events);
    }
  }

  /**
   The condition is needed: a legal decision that loses a block breaks the ledger at its commit.
   */
  lemma LostBlockBreaksLedger(cfg: Config, origin: Store, events: seq<Event>, blk: Block)
    requires Conforms(cfg, Start(origin), events)
    requires var w := After(cfg, Start(origin), events); MayFinalize(w, blk) && LosesBlock(cfg, w, blk, false)
    ensures
      var w := After(cfg, Start(origin), events);
      var w' := Step(cfg, Step(cfg, w, FinalizeCall(blk, false)), CommitCall);
      w'.decided == w.decided + [blk] && LedgerBroken(cfg, w')
  {
    hide Inv, Step, Conforms, MayFinalize, LosesBlock, LedgerBroken;
    StartOk(cfg, origin);
    RunOk(cfg, Start(origin), events);
    LostBlockCommitted(cfg, After(cfg, Start(origin), events), blk);
  }

  /** After every conforming run, the one way a legal call can meet a nil state. */
  lemma NoNilState(cfg: Config, origin: Store, events: seq<Event>, e: Event)
    requires Conforms(cfg, Start(origin), events) && Legal(After(cfg, Start(origin), events), e)
    ensures
      var w := After(cfg, Start(origin), events);
      ReadsNil(cfg, w, e) <==> e.FinalizeCall? && !e.dice && Stale(w, e.block) && w.app.finalize.None?
  {
    hide Inv, Step, Conforms, Legal, ReadsNil, Stale;
    StartOk(cfg, origin);
    RunOk(cfg, Start(origin), events);
    NilExactly(cfg, After(cfg, Start(origin), events), e);
  }

  /**
   After every conforming run, proposal and vote handlers run on the state the next block will be
   executed on: the genesis state at the first height, the last committed state after it.
   */
  lemma HandlersSeeTheLedger(cfg: Config, origin: Store, events: seq<Event>, e: Event)
    requires Conforms(cfg, Start(origin), events) && Legal(After(cfg, Start(origin), events), e)
    ensures
      var w := After(cfg, Start(origin), events);
      RanOn(cfg, w, e, if w.decided == [] then w.genesis else Replay(cfg, w.genesis, w.decided))
  {
    var w := After(cfg, Start(origin), events);
    hide Step, Conforms, Legal, RanOn, StageOk;
    StartOk(cfg, origin);
    RunOk(cfg, Start(origin), events);
    HandlersRunOnBase(cfg, w, e);
    if w.decided != [] {
      LedgerIsBase(cfg, w);
    }
  }

  /** A run of legal calls, with no condition on the decisions. */
  predicate LegalRun(cfg: Config, w: World, events: seq<Event>)
    decreases |events|
  {
    events == [] || (Legal(w, events[0]) && LegalRun(cfg, Step(cfg, w, events[0]), events[1..]))
  }

  /** Without optimistic execution every legal run conforms: no decision can lose a block. */
  lemma {:induction false} NoSpeculationNoLoss(cfg: Config, w: World, events: seq<Event>)
    requires !cfg.oeEnabled && Inv(cfg, w) && LegalRun(cfg, w, events)
    ensures Conforms(cfg, w, events)
    decreases |events|
  {
    if events == [] {
    } else {
      if events[0].FinalizeCall? {
        assert Safe(w, events[0].block) by {
          hide View, Finish, Replay, PlainBlock, CheckHalt, LosesBlock;
        }
      }
      hide Inv, Step, Legal;
      StepOk(cfg, w, events[0]);
      NoSpeculationNoLoss(cfg, Step(cfg, w, events[0]), events[1..]);
    }
  }

  lemma {:induction false} SameEnvSameReplay(cfg: Config, cfg': Config, genesis: Store, blocks: seq<Block>)
    requires cfg.env == cfg'.env
    ensures Replay(cfg, genesis, blocks) == Replay(cfg', genesis, blocks)
  {
    hide PlainBlock;
    if blocks == [] {
    } else {
      SameEnvSameReplay(cfg, cfg', genesis, blocks[..|blocks| - 1]);
    }
  }

  /**
   Two nodes that run the same block logic and decide the same blocks from the same genesis
   state commit the same store, whatever else differs: speculation on or off, their proposal
   handlers, mempool traffic, rounds, goroutine timing, restarts.
   */
  lemma NodesAgree(cfg: Config, cfg': Config, origin: Store, events: seq<Event>, events': seq<Event>)
    requires cfg.env == cfg'.env
    requires Conforms(cfg, Start(origin), events) && Conforms(cfg', Start(origin), events')
    requires After(cfg, Start(origin), events).genesis == After(cfg', Start(origin), events').genesis
    requires After(cfg, Start(origin), events).decided == After(cfg', Start(origin), events').decided
    ensures After(cfg, Start(origin), events).app.committed == After(cfg', Start(origin), events').app.committed
  {
    hide Step, Conforms;
    CommittedStoreIsTheLedger(cfg, origin, events);
    CommittedStoreIsTheLedger(cfg', origin, events');
    var w := After(cfg, Start(origin), events);
    SameEnvSameReplay(cfg, cfg', w.genesis, w.decided);
  }

  /** A FinalizeBlock that errors writes nothing to the root store, in any state whatsoever. */
  lemma FailedFinalizeWritesNothing(cfg: Config, a: App, blk: Block, dice: bool)
    ensures
      var r := FinalizeBlock(cfg, a, blk, dice);
      r.1.Refused? ==> r.0.root == a.root && r.0.committed == a.committed && r.0.lastHeight == a.lastHeight
  {
    hide View, Merge, Finish, Advance;
  }
}
