/**
 Why FinalizeBlock needs its side condition. When a proposal is accepted and speculated on, a
 later proposal of the same height is rejected, and the first one is decided after all, the
 application answers from the aborted run: `Abort` keeps the stored request.
 */
module RejectedRound {
  import opened Prelude
  import opened Stores
  import opened Gas
  import opened Recovery
  import opened RunTx
  import opened Blocks
  import opened Abci
  import opened Consensus

  /** `k` steps of the goroutine. */
  function Steps(cfg: Config, w: World, k: nat): (w': World)
    decreases k
  {
    if k == 0 then w else Steps(cfg, Step(cfg, w, GoroutineStep), k - 1)
  }

  function AfterFirst(cfg: Config, w: World, p: Proposal, k: nat): (w': World) {
    Steps(cfg, Step(cfg, w, ProcessCall(p)), k)
  }

  /** `p` is accepted, `k` goroutine steps pass, `q` is rejected; executing `p`'s block would succeed. */
  predicate Rejection(cfg: Config, w: World, p: Proposal, q: Proposal, k: nat) {
    && Inv(cfg, w) && w.stage.Rounds? && w.decided != [] && cfg.oeEnabled
    && Legal(w, ProcessCall(p)) && Abci.ProcessProposal(cfg, w.app, p).1.Accept?
    && Legal(AfterFirst(cfg, w, p, k), ProcessCall(q))
    && Abci.ProcessProposal(cfg, AfterFirst(cfg, w, p, k).app, q).1.Reject?
    && Plain(cfg, w, Requested(p)).outcome.Done?
  }

  function AfterRejection(cfg: Config, w: World, p: Proposal, q: Proposal, k: nat): (w': World) {
    Step(cfg, AfterFirst(cfg, w, p, k), ProcessCall(q))
  }

  /** One step of the goroutine: only the branch and the progress change, and the run will end as before. */
  lemma GoStepRuns(cfg: Config, a: App)
    requires a.oe.request.Some?
    ensures
      var a', r := GoStep(cfg, a), a.oe.request.value;
      && a' == a.(finalize := a'.finalize, oe := a.oe.(pc := a'.oe.pc))
      && Finish(cfg.env, ChainOf(a), r, a.oe.cancelled, Worker(a'.finalize, a'.oe.pc)) ==
         Finish(cfg.env, ChainOf(a), r, a.oe.cancelled, Worker(a.finalize, a.oe.pc))
      && (a.oe.pc.Stopped? || Rank(a'.oe.pc, r) < Rank(a.oe.pc, r))
  {
    hide BeginStep, TxStep, EndStep, View, Merge;
  }

  lemma GoroutineStepIs(cfg: Config, w: World)
    ensures Step(cfg, w, GoroutineStep) == w.(app := GoStep(cfg, w.app))
  {
    hide GoStep, FinalizeBlock, InitChain, RunTxOn, Commit, Abci.ProcessProposal, Abci.PrepareProposal, View;
  }

  lemma {:induction false} StepsRun(cfg: Config, w: World, k: nat)
    requires w.app.oe.request.Some?
    ensures
      var w' := Steps(cfg, w, k);
      && w' == w.(app := w.app.(finalize := w'.app.finalize, oe := w.app.oe.(pc := w'.app.oe.pc)))
      && Finish(cfg.env, ChainOf(w.app), w.app.oe.request.value, w.app.oe.cancelled, Worker(w'.app.finalize, w'.app.oe.pc)) ==
         Finish(cfg.env, ChainOf(w.app), w.app.oe.request.value, w.app.oe.cancelled, Worker(w.app.finalize, w.app.oe.pc))
    decreases k
  {
    hide Step, GoStep, Finish;
    if k == 0 {
    } else {
      GoStepRuns(cfg, w.app);
      GoroutineStepIs(cfg, w);
      StepsRun(cfg, w.(app := GoStep(cfg, w.app)), k - 1);
    }
  }

  lemma {:induction false} StepsStop(cfg: Config, w: World, k: nat)
    requires w.app.oe.request.Some? && k >= Rank(w.app.oe.pc, w.app.oe.request.value)
    ensures Steps(cfg, w, k).app.oe.pc.Stopped?
    decreases k
  {
    if k == 0 {
      assert w.app.oe.pc.Stopped?;
    } else {
      assert w.app.oe.pc.Stopped? ==> Rank(w.app.oe.pc, w.app.oe.request.value) == 0 && GoStep(cfg, w.app) == w.app;
      hide Step, GoStep, Finish, Rank;
      GoStepRuns(cfg, w.app);
      GoroutineStepIs(cfg, w);
      StepsStop(cfg, w.(app := GoStep(cfg, w.app)), k - 1);
    }
  }

  lemma {:induction false} StepsKeepInv(cfg: Config, w: World, k: nat)
    requires Inv(cfg, w)
    ensures Inv(cfg, Steps(cfg, w, k))
    decreases k
  {
    hide Inv, Step;
    if k == 0 {
    } else {
      GoStepOk(cfg, w);
      StepsKeepInv(cfg, Step(cfg, w, GoroutineStep), k - 1);
    }
  }

  /** The situation the rejection leads to: the struct still holds `p`'s request, on an empty branch. */
  lemma RejectionOutcome(cfg: Config, w: World, p: Proposal, q: Proposal, k: nat)
    requires Rejection(cfg, w, p, q, k)
    ensures
      var w2 := AfterRejection(cfg, w, p, q, k);
      var cancelledRun := Finish(cfg.env, ChainOf(w.app), Requested(p), true,
                                 Worker(AfterFirst(cfg, w, p, k).app.finalize, AfterFirst(cfg, w, p, k).app.oe.pc));
      && Inv(cfg, w2) && MayFinalize(w2, Requested(p)) && !Safe(w2, Requested(p)) && !Stale(w2, Requested(p))
      && w2.app.root == w.app.root && w2.app.committed == w.app.committed
      && Plain(cfg, w2, Requested(p)) == Plain(cfg, w, Requested(p))
      && w2.app.finalize == Some(EMPTY_STATE)
      && w2.app.oe.initialized && w2.app.oe.request == Some(Requested(p)) && w2.app.oe.pc == cancelledRun.pc
  {
    var w0 := Step(cfg, w, ProcessCall(p));
    var w1 := AfterFirst(cfg, w, p, k);
    assert w1.app.oe == OE(true, Some(Requested(p)), true, false, w1.app.oe.pc) && w1 == w0.(app := w1.app) by {
      hide Finish, Advance, Inv, Legal, Plain;
      StepsRun(cfg, w0, k);
    }
    assert Inv(cfg, w1) by {
      hide Step, Inv;
      ProcessOk(cfg, w, p);
      StepsKeepInv(cfg, w0, k);
    }
    ProcessOk(cfg, w1, q);
    assert ChainOf(w1.app) == ChainOf(w.app) && w1.app.root == w.app.root by {
      hide Finish, Advance, Inv, Legal, Plain;
      StepsRun(cfg, w0, k);
    }
    hide Finish, Inv, View, PlainFinalize;
  }

  /** One step of a run that will succeed uses up exactly one. */
  lemma NextRank(env: BlockEnv, chain: Chain, blk: Block, w: Worker)
    requires !w.pc.Stopped? && Finish(env, chain, blk, false, w).pc.outcome.Done?
    ensures Rank(Advance(env, chain, blk, false, w).pc, blk) == Rank(w.pc, blk) - 1
  {
    hide View, Merge, Deliver, HeightError, BlockMeter;
    var w' := Advance(env, chain, blk, false, w);
    if w'.pc.Stopped? {
      assert Finish(env, chain, blk, false, w') == w';
    }
  }

  lemma GoStepRank(cfg: Config, a: App)
    requires a.oe.request.Some? && !a.oe.cancelled && !a.oe.pc.Stopped?
    requires Finish(cfg.env, ChainOf(a), a.oe.request.value, false, Worker(a.finalize, a.oe.pc)).pc.outcome.Done?
    ensures Rank(GoStep(cfg, a).oe.pc, a.oe.request.value) == Rank(a.oe.pc, a.oe.request.value) - 1
  {
    hide Finish, Advance, Rank;
    NextRank(cfg.env, ChainOf(a), a.oe.request.value, Worker(a.finalize, a.oe.pc));
  }

  lemma RankOfStopped(pc: Progress, blk: Block)
    ensures pc.Stopped? <==> Rank(pc, blk) == 0
  {
  }

  /** Before its last step, a run that will succeed has not stopped. */
  lemma {:induction false} StillRunning(cfg: Config, w: World, k: nat)
    requires w.app.oe.request.Some? && !w.app.oe.cancelled && k < Rank(w.app.oe.pc, w.app.oe.request.value)
    requires Finish(cfg.env, ChainOf(w.app), w.app.oe.request.value, false, Worker(w.app.finalize, w.app.oe.pc)).pc.outcome.Done?
    ensures !Steps(cfg, w, k).app.oe.pc.Stopped?
    decreases k
  {
    hide Step, GoStep, Finish, Rank;
    RankOfStopped(w.app.oe.pc, w.app.oe.request.value);
    if k == 0 {
    } else {
      GoStepRank(cfg, w.app);
      GoStepRuns(cfg, w.app);
      GoroutineStepIs(cfg, w);
      StillRunning(cfg, w.(app := GoStep(cfg, w.app)), k - 1);
    }
  }

  /** Cancelled at any point before it has stopped, a run that would have succeeded is cancelled. */
  lemma CancelledAnywhere(env: BlockEnv, chain: Chain, blk: Block, w: Worker)
    requires !w.pc.Stopped? && Finish(env, chain, blk, false, w).pc.outcome.Done?
    ensures Finish(env, chain, blk, true, w).pc.outcome == Failed(ErrCancelled)
  {
    hide View, Merge, Deliver, HeightError, BlockMeter;
    CancelledOrPlain(env, chain, blk, w);
    assert Finish(env, chain, blk, true, w) == Advance(env, chain, blk, true, w);
  }

  lemma BaseIsRoot(cfg: Config, w: World)
    requires Inv(cfg, w) && w.stage.Rounds? && w.decided != []
    ensures Base(w) == w.app.root == w.app.committed
  {
  }

  /**
   If the rejection comes before the goroutine's last step, at whichever cancel point, FinalizeBlock
   answers the decided block with the cancellation error of the aborted run.
   */
  lemma EarlyRejectionFails(cfg: Config, w: World, p: Proposal, q: Proposal, k: nat)
    requires Rejection(cfg, w, p, q, k) && k < |p.txs| + 2
    ensures
      var w2 := AfterRejection(cfg, w, p, q, k);
      FinalizeBlock(cfg, w2.app, Requested(p), false).1 == Refused(ErrCancelled) && !Agrees(cfg, w2, Requested(p), false)
  {
    RejectionOutcome(cfg, w, p, q, k);
    var w0 := Step(cfg, w, ProcessCall(p));
    var w1 := AfterFirst(cfg, w, p, k);
    var w2 := AfterRejection(cfg, w, p, q, k);
    assert w0.app.oe == OE(true, Some(Requested(p)), true, false, Starting) && w0.app.finalize == Some(EMPTY_STATE)
           && ChainOf(w0.app) == ChainOf(w.app) by {
      hide Inv, Finish, Plain;
    }
    hide Inv, Step, AfterRejection, View, PlainBlock, Advance, FinalizeBlock, PlainFinalize, Safe;
    BaseIsRoot(cfg, w);
    ViewNothing(w.app.root);
    FinishIsPlain(cfg.env, ChainOf(w.app), Requested(p), Some(EMPTY_STATE));
    StepsRun(cfg, w0, k);
    StillRunning(cfg, w0, k);
    hide Finish;
    CancelledAnywhere(cfg.env, ChainOf(w.app), Requested(p), Worker(w1.app.finalize, w1.app.oe.pc));
    UnsafeAnswer(cfg, w2, Requested(p));
  }

  /**
   If the goroutine has finished before the rejection, FinalizeBlock reports success with the
   right transaction results but flushes nothing: the root store, and hence the app hash, are
   those of the previous block.
   */
  lemma LateRejectionLosesBlock(cfg: Config, w: World, p: Proposal, q: Proposal, k: nat)
    requires Rejection(cfg, w, p, q, k) && k >= |p.txs| + 2
    ensures
      var w2 := AfterRejection(cfg, w, p, q, k);
      var r := FinalizeBlock(cfg, w2.app, Requested(p), false);
      && r.1 == Finalized(Plain(cfg, w, Requested(p)).outcome.response, cfg.appHash(w.app.committed))
      && r.0.root == w.app.committed
      && (Plain(cfg, w, Requested(p)).store != w.app.committed ==> !Agrees(cfg, w2, Requested(p), false))
  {
    RejectionOutcome(cfg, w, p, q, k);
    var w0 := Step(cfg, w, ProcessCall(p));
    var w1 := AfterFirst(cfg, w, p, k);
    assert w0.app.oe == OE(true, Some(Requested(p)), true, false, Starting) && w0.app.finalize == Some(EMPTY_STATE)
           && ChainOf(w0.app) == ChainOf(w.app) by {
      hide Inv, Finish, Plain;
    }
    hide Inv, Step, AfterRejection, View, PlainBlock, Advance;
    StepsRun(cfg, w0, k);
    StepsStop(cfg, w0, k);
    BaseIsRoot(cfg, w);
    FinishIsPlain(cfg.env, ChainOf(w.app), Requested(p), Some(EMPTY_STATE));
    ViewNothing(w.app.root);
  }

  /**
   The whole family: after "p accepted, k goroutine steps, q rejected", deciding p agrees with
   plain execution if and only if the goroutine had finished and p's block changes nothing.
   */
  lemma RejectionAgreesExactly(cfg: Config, w: World, p: Proposal, q: Proposal, k: nat)
    requires Rejection(cfg, w, p, q, k)
    ensures Agrees(cfg, AfterRejection(cfg, w, p, q, k), Requested(p), false) <==>
            k >= |p.txs| + 2 && Plain(cfg, w, Requested(p)).store == w.app.committed
  {
    hide Step, AfterRejection, Inv, PlainFinalize, FinalizeBlock;
    if k < |p.txs| + 2 {
      EarlyRejectionFails(cfg, w, p, q, k);
    } else {
      LateRejectionLosesBlock(cfg, w, p, q, k);
      RejectionOutcome(cfg, w, p, q, k);
    }
  }

  // ---------------------------------------------------------------- a concrete instance

  const NO_ENV: TxEnv := TxEnv(
    raw => None, m => PASSED, m => Returned(true), None, (s, g, tx) => InsertResult(NO_WRITES, g, PASSED), tx => Removed,
    tx => PASSED, (s, g, m) => MsgDone(NO_WRITES, g, NoReply), m => PASSED, rs => PASSED, None, [])

  /** An application whose only activity is that each block's end sets one key to the block's hash. */
  function Recorder(): (cfg: Config) {
    Config(
      BlockEnv(
        b => NO_ENV, false, s => 0, s => "", 0, 0,
        (s: Store, b: Block) => HookResult(NO_WRITES, None, ""),
        (s: Store, b: Block) => HookResult(NO_WRITES, None, ""),
        (s: Store, b: Block) => HookResult(Writes({}, map["last" := b.hash]), None, "")),
      (a, mode) => NO_ENV, "chain", true,
      (s: Store, r: InitRequest) => GenesisResult(NO_WRITES, true),
      (s: Store) => if "last" in s then s["last"] else "",
      (s: Store, p: Proposal) => NO_WRITES,
      (s: Store, p: Proposal) => ProcessResult(NO_WRITES, if p.hash == "B" then Reject else Accept),
      (s: Store, h: int) => NO_WRITES,
      s => NO_WRITES,
      s => NO_WRITES)
  }

  const FIRST_BLOCK: Block := Block("genesis", 1, 0, [], "")

  const PROPOSAL_A: Proposal := Proposal("A", 2, 0, [], "")

  const PROPOSAL_B: Proposal := Proposal("B", 2, 0, [], "")

  const GENESIS: InitRequest := InitRequest("chain", 1, "")

  /** The first block decided and committed; then A accepted and executed to its end, and B rejected. */
  function FirstCalls(): (events: seq<Event>) {
    [InitChainCall(GENESIS), FinalizeCall(FIRST_BLOCK, false), CommitCall]
  }

  function LaterCalls(): (events: seq<Event>) {
    [ProcessCall(PROPOSAL_A), GoroutineStep, GoroutineStep, ProcessCall(PROPOSAL_B)]
  }

  function AfterFirstBlock(): (w: World) {
    var w1 := Step(Recorder(), Start(map[]), InitChainCall(GENESIS));
    Step(Recorder(), Step(Recorder(), w1, FinalizeCall(FIRST_BLOCK, false)), CommitCall)
  }

  predicate SecondHeight(w: World) {
    && Inv(Recorder(), w) && w.stage.Rounds? && w.decided == [FIRST_BLOCK] && w.first == 1
    && w.seen == map["genesis" := FIRST_BLOCK] && w.app.initialHeight == 1
  }

  /** Executing a block without transactions in the recorder application. */
  lemma RecorderBlock(s: Store, blk: Block)
    requires blk.txs == []
    ensures PlainBlock(Recorder().env, s, blk) == Executed(s["last" := blk.hash], Done(Response(["", ""], [], "", "")))
  {
    ViewNothing(s);
    assert DeliverAll(NO_ENV, s, Infinite(0), []) == Batch(s, Infinite(0), []);
    assert View(s, Writes({}, map["last" := blk.hash])) == s["last" := blk.hash];
  }

  /** Runs of three and of four calls, step by step. */
  lemma ThreeSteps(cfg: Config, w: World, es: seq<Event>)
    requires |es| == 3
    ensures After(cfg, w, es) == Step(cfg, Step(cfg, Step(cfg, w, es[0]), es[1]), es[2])
    ensures
      var w1 := Step(cfg, w, es[0]);
      Conforms(cfg, w, es) <==>
      Allowed(cfg, w, es[0]) && Allowed(cfg, w1, es[1]) && Allowed(cfg, Step(cfg, w1, es[1]), es[2])
  {
    hide Step, Allowed;
    var w1 := Step(cfg, w, es[0]);
    var w2 := Step(cfg, w1, es[1]);
    var w3 := Step(cfg, w2, es[2]);
    assert es[1..][1..] == es[2..] && es[2..][1..] == [];
    assert After(cfg, w2, es[2..]) == w3 && (Conforms(cfg, w2, es[2..]) <==> Allowed(cfg, w2, es[2]));
  }

  lemma FirstBlockCommitted()
    ensures
      var w := AfterFirstBlock();
      SecondHeight(w) && w.app.root == w.app.committed == map["last" := "genesis"]
    ensures Conforms(Recorder(), Start(map[]), FirstCalls())
    ensures After(Recorder(), Start(map[]), FirstCalls()) == AfterFirstBlock()
  {
    hide Finish, Replay;
    var cfg := Recorder();
    var w0 := Start(map[]);
    StartOk(cfg, map[]);
    var w1 := Step(cfg, w0, InitChainCall(GENESIS));
    assert cfg.genesis(w0.app.root, GENESIS) == GenesisResult(NO_WRITES, true);
    InitChainOk(cfg, w0, GENESIS);
    ViewNothing(map[]);
    assert w1.stage.Rounds? && w1.decided == [] && w1.first == 1 && w1.genesis == map[];
    RecorderBlock(map[], FIRST_BLOCK);
    var w2 := Step(cfg, w1, FinalizeCall(FIRST_BLOCK, false));
    assert Plain(cfg, w1, FIRST_BLOCK).outcome.Done? by {
      hide PlainBlock, Inv, View;
    }
    hide Inv, FinalizeBlock, PlainBlock, View;
    FinalizeOk(cfg, w1, FIRST_BLOCK, false);
    SafeAgrees(cfg, w1, FIRST_BLOCK, false);
    FinalizeFrame(cfg, w1, FIRST_BLOCK, false);
    CommitOk(cfg, w2);
    assert Allowed(cfg, w0, InitChainCall(GENESIS));
    assert Allowed(cfg, w1, FinalizeCall(FIRST_BLOCK, false)) && Allowed(cfg, w2, CommitCall);
    hide Step, Allowed;
    ThreeSteps(cfg, w0, FirstCalls());
  }

  lemma FourSteps(cfg: Config, w: World, es: seq<Event>)
    requires |es| == 4
    ensures After(cfg, w, es) == Step(cfg, Step(cfg, Step(cfg, Step(cfg, w, es[0]), es[1]), es[2]), es[3])
    ensures
      var w1 := Step(cfg, w, es[0]);
      var w2 := Step(cfg, w1, es[1]);
      Conforms(cfg, w, es) <==>
      && Allowed(cfg, w, es[0]) && Allowed(cfg, w1, es[1])
      && Allowed(cfg, w2, es[2]) && Allowed(cfg, Step(cfg, w2, es[2]), es[3])
  {
    hide Step, Allowed;
    ThreeSteps(cfg, Step(cfg, w, es[0]), es[1..]);
  }

  lemma HeightOfSecond(w: World)
    requires Inv(Recorder(), w) && w.first == 1 && w.decided == [FIRST_BLOCK]
    ensures HeightError(Recorder().env, ChainOf(w.app), Requested(PROPOSAL_A)).None?
  {
    hide PlainBlock, Finish, View, Replay;
  }

  lemma SecondBlockSucceeds(w: World)
    requires SecondHeight(w)
    ensures Plain(Recorder(), w, Requested(PROPOSAL_A)).outcome.Done?
  {
    RecorderBlock(w.app.root, Requested(PROPOSAL_A));
    BaseIsRoot(Recorder(), w);
    HeightOfSecond(w);
    hide Inv, View, PlainBlock;
  }

  lemma RecorderVerdict(a: App, p: Proposal)
    requires p.height >= 1
    ensures Abci.ProcessProposal(Recorder(), a, p).1 == if p.hash == "B" then Reject else Accept
  {
    hide ResetForProposal, ProposalBase;
  }

  /** The world after an accepted proposal and `k` goroutine steps, as far as the engine sees it. */
  lemma AcceptedWorld(cfg: Config, w: World, p: Proposal, k: nat)
    requires cfg.oeEnabled && p.height > w.app.initialHeight && p.height >= 1
    requires Abci.ProcessProposal(cfg, w.app, p).1.Accept?
    ensures
      var w' := AfterFirst(cfg, w, p, k);
      w' == w.(app := w'.app, seen := w.seen[p.hash := Requested(p)], executed := Some(p.hash), accepted := true)
  {
    hide Abort, ProposalBase, Finish, View;
    var w0 := Step(cfg, w, ProcessCall(p));
    assert w0.app.oe.request == Some(Requested(p));
    hide Step;
    StepsRun(cfg, w0, k);
  }

  lemma RoundRejects(w: World)
    requires SecondHeight(w)
    ensures Rejection(Recorder(), w, PROPOSAL_A, PROPOSAL_B, 2)
  {
    hide Step, Finish, View, PlainBlock, Steps;
    var cfg := Recorder();
    SecondBlockSucceeds(w);
    RecorderVerdict(w.app, PROPOSAL_A);
    AcceptedWorld(cfg, w, PROPOSAL_A, 2);
    var w1 := AfterFirst(cfg, w, PROPOSAL_A, 2);
    RecorderVerdict(w1.app, PROPOSAL_B);
    hide Recorder, AfterFirst, Inv, Plain, Abci.ProcessProposal;
    assert Legal(w, ProcessCall(PROPOSAL_A)) && Legal(w1, ProcessCall(PROPOSAL_B)) by {
      assert |"A"| == |"B"| == 1 && |"genesis"| == 7 && "A"[0] != "B"[0];
    }
  }

  lemma SecondBlockChanges(w: World)
    requires SecondHeight(w) && w.app.committed == map["last" := "genesis"]
    ensures Plain(Recorder(), w, Requested(PROPOSAL_A)).store != w.app.committed
  {
    RecorderBlock(w.app.root, Requested(PROPOSAL_A));
    BaseIsRoot(Recorder(), w);
    HeightOfSecond(w);
    hide Inv, View, PlainBlock;
    assert |"A"| == 1 && |"genesis"| == 7;
    assert w.app.committed["last" := "A"]["last"] != w.app.committed["last"];
  }

  lemma LaterCallsConform(cfg: Config, w: World)
    requires Rejection(cfg, w, PROPOSAL_A, PROPOSAL_B, 2)
    ensures Conforms(cfg, w, LaterCalls())
    ensures After(cfg, w, LaterCalls()) == AfterRejection(cfg, w, PROPOSAL_A, PROPOSAL_B, 2)
  {
    hide Step, Inv, Plain, Abci.ProcessProposal, LosesBlock, Faithful;
    FourSteps(cfg, w, LaterCalls());
    var w1 := Step(cfg, w, ProcessCall(PROPOSAL_A));
    assert Steps(cfg, w1, 2) == Step(cfg, Step(cfg, w1, GoroutineStep), GoroutineStep);
  }

  /**
   A concrete run. A is accepted and executed, B is rejected, A is decided: the calls conform up to
   the decision, the decision is legal and loses the block, FinalizeBlock succeeds, and A's write
   is not in the root store.
   */
  lemma DecidedBlockLost()
    ensures
      var cfg, blk := Recorder(), Requested(PROPOSAL_A);
      var w := After(cfg, Start(map[]), FirstCalls() + LaterCalls());
      var r := FinalizeBlock(cfg, w.app, blk, false);
      && Conforms(cfg, Start(map[]), FirstCalls() + LaterCalls())
      && MayFinalize(w, blk) && LosesBlock(cfg, w, blk, false)
      && r.1.Finalized? && r.1.appHash == "genesis" && r.0.root == map["last" := "genesis"]
  {
    var cfg, w := Recorder(), AfterFirstBlock();
    var blk := Requested(PROPOSAL_A);
    FirstBlockCommitted();
    var w2 := AfterRejection(cfg, w, PROPOSAL_A, PROPOSAL_B, 2);
    RoundRejects(w);
    LaterCallsConform(cfg, w);
    RunConcat(cfg, Start(map[]), FirstCalls(), LaterCalls());
    assert After(cfg, Start(map[]), FirstCalls() + LaterCalls()) == w2 by {
      hide AfterFirstBlock, AfterRejection, Inv, FinalizeBlock;
    }
    SecondBlockChanges(w);
    hide AfterFirstBlock, AfterRejection, Inv, View, FinalizeBlock, PlainBlock, Rejection, Plain, Stale, Safe, FirstCalls, LaterCalls;
    RejectionOutcome(cfg, w, PROPOSAL_A, PROPOSAL_B, 2);
    LateRejectionLosesBlock(cfg, w, PROPOSAL_A, PROPOSAL_B, 2);
    UnsafeAnswer(cfg, w2, blk);
    AbortedOutcome(cfg, w2, blk);
  }
}
