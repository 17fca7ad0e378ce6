/**
 The imperative BaseApp: an object whose ABCI methods update its fields in place, and the
 optimistic-execution object it owns. A ghost field follows the run the object takes part in:
 every ABCI call is one step of that run, and while the run conforms the run invariant holds. So
 FinalizeBlock is specified by one plain execution of the block, and Commit by the ledger.
 */
module BaseApp {
  import opened Prelude
  import opened Stores
  import opened Gas
  import opened Recovery
  import opened RunTx
  import opened Blocks
  import Abci
  import BlockGas
  import Consensus

  type Config = Abci.Config

  class OptimisticExecution {
    var initialized: bool
    var request: Option<Block>
    var response: Option<Response>
    var err: Option<Error>
    var hasCancel: bool
    var cancelled: bool
    var pc: Progress

    /** `stopCh` is closed. */
    predicate Stopped()
      reads this
    {
      pc.Stopped?
    }

    /** A stopped goroutine has stored its response and its error. */
    ghost predicate Valid()
      reads this
    {
      && (initialized ==> request.Some? && hasCancel)
      && (request.Some? && pc.Stopped? ==>
            && response == (if pc.outcome.Done? then Some(pc.outcome.response) else None)
            && err == (if pc.outcome.Failed? then Some(pc.outcome.error) else None))
    }

    function Abs(): (oe: Abci.OE)
      reads this
    {
      Abci.OE(initialized, request, hasCancel, cancelled, pc)
    }

    constructor ()
      ensures Valid() && Abs() == Abci.FRESH_OE
    {
      initialized, request, response, err := false, None, None, None;
      hasCancel, cancelled, pc := false, false, Progress.Stopped(Failed(ErrCancelled));
    }

    method Reset()
      requires Valid()
      modifies this
      ensures Valid() && Abs() == old(Abs()).(initialized := false, request := None)
    {
      request, response, err, initialized := None, None, None, false;
    }

    method Execute(p: Abci.Proposal)
      modifies this
      ensures Valid() && Abs() == Abci.OE(true, Some(Abci.Requested(p)), true, false, Starting)
    {
      request := Some(Block(p.hash, p.height, p.time, p.txs, p.rest));
      hasCancel, cancelled := true, false;
      initialized := true;
      pc := Starting;
    }

    method AbortIfNeeded(hash: Hash, dice: bool) returns (aborted: bool)
      requires Valid() && initialized
      modifies this
      ensures Valid() && aborted == (old(request).value.hash != hash || dice)
      ensures Abs() == old(Abs()).(cancelled := aborted || old(cancelled))
    {
      aborted := false;
      if request.value.hash != hash {
        cancelled := true;
        aborted := true;
      } else if dice {
        cancelled := true;
        aborted := true;
      }
    }

    /** The goroutine moves on; when its function returns, it stores the result and closes `stopCh`. */
    method Publish(next: Progress)
      requires Valid()
      modifies this
      ensures Valid() && Abs() == old(Abs()).(pc := next)
    {
      pc := next;
      if next.Stopped? {
        match next.outcome {
          case Done(r) => response, err := Some(r), None;
          case Failed(e) => response, err := None, Some(e);
        }
      }
    }
  }

  lemma BeginStepDelivers(env: BlockEnv, chain: Chain, blk: Block, state: Option<BlockState>)
    ensures
      var w := BeginStep(env, chain, blk, false, state);
      !w.pc.Stopped? ==> w.state.Some? && w.pc.Delivering? && w.pc.next == 0 && w.pc.results == []
  {
    hide View, Merge, HeightError, BlockMeter;
  }

  class BaseApp {
    const cfg: Config
    const oe: OptimisticExecution

    var root: Store
    var committed: Store
    var lastHeight: nat
    var initialVersion: int
    var initialHeight: int
    var check: Writes
    var prepare: Option<Abci.Branch>
    var process: Option<Abci.Branch>
    var finalize: Option<BlockState>

    /** The run so far, and whether all its calls were allowed. */
    ghost var world: Consensus.World
    ghost var conforming: bool

    ghost predicate Valid()
      reads this, oe
    {
      oe.Valid() && world.app == Abs() && (conforming ==> Consensus.Inv(cfg, world))
    }

    function Abs(): (a: Abci.App)
      reads this, oe
    {
      Abci.App(root, committed, lastHeight, initialVersion, initialHeight, check, prepare, process, finalize, oe.Abs())
    }

    /** Load the latest version: a restart of the node whose last committed version this is. */
    constructor (cfg: Config, committed: Store, lastHeight: nat, ghost before: Consensus.World)
      requires before.app.committed == committed && before.app.lastHeight == lastHeight
      ensures Valid() && fresh(oe) && this.cfg == cfg
      ensures world == Consensus.Step(cfg, before, Consensus.Restart) && conforming == Consensus.Inv(cfg, before)
    {
      this.cfg := cfg;
      this.oe := new OptimisticExecution();
      this.root, this.committed, this.lastHeight := committed, committed, lastHeight;
      this.initialVersion, this.initialHeight := 0, 0;
      this.check, this.prepare, this.process, this.finalize := NO_WRITES, None, None, None;
      this.world, this.conforming := Consensus.Step(cfg, before, Consensus.Restart), Consensus.Inv(cfg, before);
      new;
      hide Consensus.Inv;
      if conforming {
        Consensus.RestartOk(cfg, before);
      }
    }

    /** The call was step `e` of the run, which goes on conforming exactly if the step was allowed. */
    twostate predicate Did(e: Consensus.Event)
      reads this
    {
      && world == Consensus.Step(cfg, old(world), e)
      && conforming == (old(conforming) && Consensus.Allowed(cfg, old(world), e))
    }

    ghost method Record(e: Consensus.Event)
      requires conforming ==> Consensus.Inv(cfg, world)
      modifies this`world, this`conforming
      ensures Did(e)
      ensures conforming ==> Consensus.Inv(cfg, world)
    {
      hide Consensus.Inv, Consensus.Step, Consensus.Allowed;
      if conforming && Consensus.Allowed(cfg, world, e) {
        Consensus.StepOk(cfg, world, e);
      }
      conforming := conforming && Consensus.Allowed(cfg, world, e);
      world := Consensus.Step(cfg, world, e);
    }

    // ---------------------------------------------------------------- InitChain, CheckTx

    method InitChain(req: Abci.InitRequest) returns (ok: bool)
      requires Valid()
      modifies this`initialHeight, this`initialVersion, this`check, this`finalize, this`world, this`conforming
      ensures Valid() && Did(Consensus.InitChainCall(req))
      ensures ok == Abci.InitChain(cfg, old(Abs()), req).1
      ensures conforming && ok ==> finalize.Some? && View(root, finalize.value.ms) == world.genesis
    {
      hide Consensus.Inv, View, Consensus.Step, Abci.InitChain;
      Consensus.StepApp(cfg, world, Consensus.InitChainCall(req));
      ok := LoadGenesis(req);
      if conforming && ok && Consensus.Legal(world, Consensus.InitChainCall(req)) {
        Consensus.GenesisWaits(cfg, world, req);
      }
      Record(Consensus.InitChainCall(req));
    }

    method LoadGenesis(req: Abci.InitRequest) returns (ok: bool)
      modifies this`initialHeight, this`initialVersion, this`check, this`finalize
      ensures (Abs(), ok) == Abci.InitChain(cfg, old(Abs()), req)
    {
      if req.chainId != cfg.chainId {
        return false;
      }
      initialHeight := req.initialHeight;
      if initialHeight == 0 {
        initialHeight := 1;
      }
      if req.initialHeight > 1 {
        initialVersion := req.initialHeight;
      }
      finalize := Some(EMPTY_STATE);
      check := NO_WRITES;
      var g := cfg.genesis(root, req);
      finalize := Some(BlockState(g.writes, Infinite(0)));
      ok := g.ok;
    }

    /** `getState` and `getContextForTx`, then `runTx` with the handlers `env` on what they give. */
    method RunMode(env: TxEnv, mode: Mode, raw: Bytes) returns (o: Option<TxOutcome>)
      modifies this`check, this`prepare, this`process, this`finalize
      ensures (Abs(), o) == Abci.RunTxOn(env, old(Abs()), mode, raw)
      ensures Abci.OnlyItsBranch(old(Abs()), mode, Abs())
    {
      hide View, Merge, Run, TwoStages, OneCharge;
      if Abci.StateFor(Abs(), mode).Some? {
        Abci.RunTxOnIs(env, Abs(), mode, raw);
      }
      var store, gas := View(root, check), Infinite(0);
      match mode {
        case Finalize =>
          if finalize.None? {
            return None;
          }
          store, gas := View(root, finalize.value.ms), finalize.value.gas;
        case PrepareProposal =>
          if prepare.None? {
            return None;
          }
          store := BranchView(prepare.value);
        case ProcessProposal =>
          if process.None? {
            return None;
          }
          store := BranchView(process.value);
        case _ =>
      }
      o := RunInCache(env, mode, store, gas, raw);
      var w, gas' := o.value.writes, o.value.block;
      match mode {
        case Finalize => finalize := Some(BlockState(Merge(finalize.value.ms, w), gas'));
        case PrepareProposal => prepare := Some(prepare.value.(writes := Merge(prepare.value.writes, w)));
        case ProcessProposal => process := Some(process.value.(writes := Merge(process.value.writes, w)));
        case Simulate =>
        case _ => check := Merge(check, w);
      }
    }

    /** Simulation reads through a cache that starts empty and is dropped afterwards. */
    method RunInCache(env: TxEnv, mode: Mode, store: Store, gas: Meter, raw: Bytes) returns (o: Option<TxOutcome>)
      ensures o == Some(Run(env, mode, store, gas, raw))
    {
      hide View, Run, TwoStages, OneCharge;
      ViewNothing(store);
      var seen := if mode.Simulate? then View(store, NO_WRITES) else store;
      var outcome := RunTx.RunTx(env, mode, seen, gas, raw);
      o := Some(outcome);
    }

    function BranchView(b: Abci.Branch): (s: Store)
      reads this
      ensures s == View(Abci.BranchBase(Abs(), b), b.writes)
    {
      View(if b.onFinalize && finalize.Some? then View(root, finalize.value.ms) else root, b.writes)
    }

    /** CheckTx, recheck, simulation, and the verification of one transaction for a proposal. */
    method HandleTx(mode: Mode, raw: Bytes) returns (o: Option<TxOutcome>)
      requires Valid() && !mode.Finalize?
      modifies this`check, this`prepare, this`process, this`finalize, this`world, this`conforming
      ensures Valid() && Did(Consensus.TxCall(mode, raw))
      ensures o == Abci.RunTxOn(cfg.modeTx(old(Abs()), mode), old(Abs()), mode, raw).1
      ensures Abci.OnlyItsBranch(old(Abs()), mode, Abs())
    {
      hide Consensus.Inv, Abci.RunTxOn;
      o := RunMode(cfg.modeTx(Abs(), mode), mode, raw);
      Record(Consensus.TxCall(mode, raw));
    }

    // ---------------------------------------------------------------- proposals

    /** `getContextForProposal`, reduced to the store it reads. */
    method ProposalContext(height: int) returns (s: Store)
      ensures s == Abci.ProposalBase(Abs(), height)
    {
      s := root;
      if height == initialHeight && finalize.Some? {
        s := View(root, finalize.value.ms);
      }
    }

    method PrepareProposal(p: Abci.Proposal) returns (ok: bool)
      requires Valid()
      modifies this`prepare, this`world, this`conforming
      ensures Valid() && Did(Consensus.PrepareCall(p))
      ensures ok == Abci.PrepareProposal(cfg, old(Abs()), p).1
    {
      hide Consensus.Inv, View;
      prepare := Some(Abci.Branch(NO_WRITES, false));
      ok := false;
      if p.height >= 1 {
        var s := ProposalContext(p.height);
        prepare := Some(Abci.Branch(cfg.prepare(s, p), p.height == initialHeight));
        ok := true;
      }
      Record(Consensus.PrepareCall(p));
    }

    method ProcessProposal(p: Abci.Proposal) returns (verdict: Abci.Verdict)
      requires Valid()
      modifies this`process, this`finalize, this`world, this`conforming, oe
      ensures Valid() && Did(Consensus.ProcessCall(p))
      ensures verdict == Abci.ProcessProposal(cfg, old(Abs()), p).1
    {
      hide Consensus.Inv, Consensus.Step, Abci.ProcessProposal;
      Consensus.StepApp(cfg, world, Consensus.ProcessCall(p));
      verdict := DecideProposal(p);
      Record(Consensus.ProcessCall(p));
    }

    method DecideProposal(p: Abci.Proposal) returns (verdict: Abci.Verdict)
      requires oe.Valid()
      modifies this`process, this`finalize, oe
      ensures oe.Valid() && (Abs(), verdict) == Abci.ProcessProposal(cfg, old(Abs()), p)
    {
      hide View, Merge, Finish;
      if p.height < 1 {
        return Abci.Reject;
      }
      process := Some(Abci.Branch(NO_WRITES, false));
      if p.height > initialHeight {
        Abort();
        finalize := Some(EMPTY_STATE);
      }
      var s := ProposalContext(p.height);
      var res := cfg.process(s, p);
      process := Some(Abci.Branch(res.writes, p.height == initialHeight));
      if res.verdict == Abci.Accept && cfg.oeEnabled && p.height > initialHeight {
        oe.Execute(p);
      }
      verdict := res.verdict;
    }

    method ExtendVote(height: int) returns (w: Writes)
      requires Valid()
      modifies this`world, this`conforming
      ensures Valid() && Did(Consensus.VoteCall(height))
      ensures w == Abci.VoteExtension(cfg, Abs(), height)
    {
      hide Consensus.Inv, View;
      var s := ProposalContext(height);
      w := cfg.extend(s, height);
      Record(Consensus.VoteCall(height));
    }

    // ---------------------------------------------------------------- the goroutine

    /** The goroutine runs up to its next cancel point, between any two calls. */
    method Goroutine()
      requires Valid()
      modifies this`finalize, this`world, this`conforming, oe
      ensures Valid() && Did(Consensus.GoroutineStep)
    {
      hide Consensus.Inv, Advance;
      GoStep();
      Record(Consensus.GoroutineStep);
    }

    method GoStep()
      requires oe.Valid()
      modifies this`finalize, oe
      ensures oe.Valid() && Abs() == Abci.GoStep(cfg, old(Abs()))
    {
      if oe.request.Some? && !oe.Stopped() {
        var w := Advance(cfg.env, Chain(root, lastHeight, initialHeight), oe.request.value, oe.cancelled,
                         Worker(finalize, oe.pc));
        finalize := w.state;
        oe.Publish(w.pc);
      }
    }

    /** `<-stopCh` */
    method Await()
      requires oe.Valid()
      modifies this`finalize, oe
      ensures oe.Valid() && Abs() == Abci.Await(cfg, old(Abs()))
    {
      ghost var chain := Chain(root, lastHeight, initialHeight);
      while oe.request.Some? && !oe.Stopped()
        invariant oe.Valid()
        invariant Abs() == old(Abs()).(finalize := finalize, oe := old(oe.Abs()).(pc := oe.pc))
        invariant oe.request.None? ==> Abs() == old(Abs())
        invariant oe.request.Some? ==>
                    Finish(cfg.env, chain, oe.request.value, oe.cancelled, Worker(finalize, oe.pc)) ==
                    Finish(cfg.env, chain, oe.request.value, oe.cancelled, Worker(old(finalize), old(oe.pc)))
        decreases if oe.request.Some? then Rank(oe.pc, oe.request.value) else 0
      {
        hide Advance;
        GoStep();
      }
    }

    method Abort()
      requires oe.Valid()
      modifies this`finalize, oe
      ensures oe.Valid() && Abs() == Abci.Abort(cfg, old(Abs()))
    {
      if !oe.hasCancel {
        return;
      }
      oe.cancelled := true;
      Await();
    }

    // ---------------------------------------------------------------- FinalizeBlock and Commit

    method CheckHeight(blk: Block) returns (e: Option<Error>)
      ensures e == HeightError(cfg.env, Chain(root, lastHeight, initialHeight), blk)
    {
      if cfg.env.haltHeight > 0 && ToU64(blk.height) >= cfg.env.haltHeight {
        return Some(ErrHalt);
      }
      if cfg.env.haltTime > 0 && blk.time >= ToI64(cfg.env.haltTime) {
        return Some(ErrHalt);
      }
      if blk.height < 1 {
        return Some(ErrInvalidHeight);
      }
      var expected := lastHeight + 1;
      if lastHeight == 0 && initialHeight > 1 {
        expected := initialHeight;
      }
      e := if blk.height != expected then Some(ErrInvalidHeight) else None;
    }

    /** Up to the first transaction, with a context that is never cancelled. */
    method BeginFinalize(blk: Block) returns (pc: Progress)
      modifies this`finalize
      ensures Worker(finalize, pc) == BeginStep(cfg.env, Chain(root, lastHeight, initialHeight), blk, false, old(finalize))
      ensures
        var base := if old(finalize).Some? then View(root, old(finalize).value.ms) else root;
        BlockGas.Begun(cfg.env, Chain(root, lastHeight, initialHeight), base, blk, Worker(finalize, pc))
    {
      BlockGas.BeginStepBegins(cfg.env, Chain(root, lastHeight, initialHeight), blk, finalize);
      hide View, Merge, HeightError, BlockMeter, BlockGas.Begun;
      var e := CheckHeight(blk);
      if e.Some? {
        return Progress.Stopped(Failed(e.value));
      }
      if finalize.None? {
        finalize := Some(EMPTY_STATE);
      }
      var meter := BlockMeter(cfg.env, View(root, finalize.value.ms));
      if meter.None? {
        return Progress.Stopped(Failed(ErrPanic));
      }
      var pre := cfg.env.preBlock(View(root, finalize.value.ms), blk);
      finalize := Some(BlockState(Merge(finalize.value.ms, pre.writes), meter.value));
      if pre.error.Some? {
        return Progress.Stopped(Failed(pre.error.value));
      }
      var beg := cfg.env.beginBlock(View(root, finalize.value.ms), blk);
      finalize := Some(finalize.value.(ms := Merge(finalize.value.ms, beg.writes)));
      if beg.error.Some? {
        return Progress.Stopped(Failed(beg.error.value));
      }
      meter := BlockMeter(cfg.env, View(root, finalize.value.ms));
      if meter.None? {
        return Progress.Stopped(Failed(ErrPanic));
      }
      finalize := Some(finalize.value.(gas := meter.value));
      pc := Delivering(0, [], [pre.output, beg.output]);
    }

    /** One transaction of the block; its handlers see the block. */
    method DeliverTx(blk: Block, raw: Bytes) returns (result: ExecTxResult)
      requires finalize.Some?
      modifies this`finalize
      ensures
        var d := Deliver(cfg.env.tx(blk), View(root, old(finalize).value.ms), old(finalize).value.gas, raw);
        finalize == Some(BlockState(Merge(old(finalize).value.ms, d.writes), d.block)) && result == d.result
    {
      var b := finalize.value;
      if cfg.env.tx(blk).decode(raw).None? {
        assert Merge(b.ms, NO_WRITES) == b.ms;
        return DecodeFailure();
      }
      var o := RunTx.RunTx(cfg.env.tx(blk), Finalize, View(root, b.ms), b.gas, raw);
      finalize := Some(BlockState(Merge(b.ms, o.writes), o.block));
      if o.error.Some? {
        result := ExecTxResult(o.error, [], o.wanted, Consumed(o.meter));
      } else {
        result := ExecTxResult(None, o.result.value.responses, o.wanted, Consumed(o.meter));
      }
    }

    /** The straight loop: the goroutine's steps run to their end, and so one plain execution on the branch it finds. */
    method InternalFinalizeBlock(blk: Block) returns (outcome: Outcome)
      modifies this`finalize
      ensures Worker(finalize, Progress.Stopped(outcome)) ==
              Finish(cfg.env, Chain(root, lastHeight, initialHeight), blk, false, Worker(old(finalize), Starting))
      ensures
        var base := if old(finalize).Some? then View(root, old(finalize).value.ms) else root;
        PlainFinalize(cfg.env, Chain(root, lastHeight, initialHeight), base, blk) ==
        Executed(if finalize.Some? then View(root, finalize.value.ms) else root, outcome)
      ensures
        var base := if old(finalize).Some? then View(root, old(finalize).value.ms) else root;
        BlockGas.RunsBlock(cfg.env, Chain(root, lastHeight, initialHeight), base, blk,
                           Executed(if finalize.Some? then View(root, finalize.value.ms) else root, outcome))
    {
      ghost var base := if finalize.Some? then View(root, finalize.value.ms) else root;
      BlockGas.PlainFinalizeRuns(cfg.env, Chain(root, lastHeight, initialHeight), base, blk);
      FinishIsPlain(cfg.env, Chain(root, lastHeight, initialHeight), blk, finalize);
      hide View, Merge, BeginStep, Deliver, PlainFinalize, BlockGas.RunsBlock, BlockGas.Begun, Rank;
      ghost var chain := Chain(root, lastHeight, initialHeight);
      ghost var start := Worker(finalize, Starting);
      var begun := BeginFinalize(blk);
      if begun.Stopped? {
        return begun.outcome;
      }
      var results: seq<ExecTxResult> := [];
      assert Worker(finalize, begun) == Advance(cfg.env, chain, blk, false, start);
      assert begun.Delivering? && finalize.Some? && begun == Delivering(0, results, begun.events) by {
        BeginStepDelivers(cfg.env, chain, blk, old(finalize));
      }
      for i := 0 to |blk.txs|
        invariant finalize.Some?
        invariant Finish(cfg.env, chain, blk, false, Worker(finalize, Delivering(i, results, begun.events))) ==
                  Finish(cfg.env, chain, blk, false, start)
      {
        var r := DeliverTx(blk, blk.txs[i]);
        results := results + [r];
      }
      var fin := cfg.env.endBlock(View(root, finalize.value.ms), blk);
      finalize := Some(finalize.value.(ms := Merge(finalize.value.ms, fin.writes)));
      if fin.error.Some? {
        return Failed(fin.error.value);
      }
      outcome := Done(Response(begun.events, results, fin.output, cfg.env.params(View(root, finalize.value.ms))));
    }

    /** Flush the finalize branch into the root and hash it; `None` is the panic on a nil finalize state. */
    method WorkingHash() returns (h: Option<Hash>)
      modifies this`root, this`finalize
      ensures old(finalize).None? ==> h.None? && Abs() == old(Abs())
      ensures old(finalize).Some? ==> h == Some(cfg.appHash(root)) && Abs() == Abci.Flush(old(Abs()))
    {
      if finalize.None? {
        return None;
      }
      root := View(root, finalize.value.ms);
      finalize := Some(finalize.value.(ms := NO_WRITES));
      h := Some(cfg.appHash(root));
    }

    /** A response gets the hash of the flushed state; a nil finalize state ends the call instead. */
    method Respond(response: Response) returns (r: Abci.FinalizeResult)
      modifies this`root, this`finalize
      ensures (Abs(), r) == Abci.Conclude(cfg, old(Abs()), Done(response))
    {
      hide View;
      var h := WorkingHash();
      r := if h.None? then Abci.Refused(ErrPanic) else Abci.Finalized(response, h.value);
    }

    /**
     FinalizeBlock in a conforming run: the response, the hash and the root store are those of one
     plain execution of the block on the state before it, exactly under the stated condition.
     */
    method FinalizeBlock(blk: Block, dice: bool) returns (r: Abci.FinalizeResult)
      requires Valid()
      modifies this`root, this`finalize, this`world, this`conforming, oe
      ensures Valid() && Did(Consensus.FinalizeCall(blk, dice))
      ensures old(conforming) && Consensus.MayFinalize(old(world), blk) ==>
                (Consensus.AgreesWith(cfg, (Abs(), r), old(root), Consensus.Plain(cfg, old(world), blk)) <==>
                 Consensus.Safe(old(world), blk) || dice || Consensus.Harmless(cfg, old(world), blk))
      ensures r.Refused? ==> root == old(root)
    {
      hide Consensus.Inv, Abci.FinalizeBlock, Consensus.Plain, Consensus.AgreesWith, Consensus.Harmless, Consensus.MayFinalize;
      hide Consensus.Safe, Consensus.LosesBlock, Consensus.Step;
      Consensus.StepApp(cfg, world, Consensus.FinalizeCall(blk, dice));
      r := ReuseOrRun(blk, dice);
      Consensus.FailedFinalizeWritesNothing(cfg, old(Abs()), blk, dice);
      if conforming && Consensus.MayFinalize(world, blk) {
        Consensus.AgreesExactly(cfg, world, blk, dice);
      }
      Record(Consensus.FinalizeCall(blk, dice));
    }

    method ReuseOrRun(blk: Block, dice: bool) returns (r: Abci.FinalizeResult)
      requires oe.Valid()
      modifies this`root, this`finalize, oe
      ensures oe.Valid() && (Abs(), r) == Abci.FinalizeBlock(cfg, old(Abs()), blk, dice)
    {
      hide View, Merge, Finish, BlockGas.RunsBlock, PlainFinalize;
      if oe.initialized {
        var aborted := oe.AbortIfNeeded(blk.hash, dice);
        Await();
        if !aborted {
          if oe.response.Some? {
            r := Respond(oe.response.value);
            return;
          }
          return Abci.Refused(oe.err.value);
        }
        finalize := None;
        oe.Reset();
      }
      var outcome := InternalFinalizeBlock(blk);
      match outcome {
        case Done(response) =>
          r := Respond(response);
        case Failed(e) =>
          r := Abci.Refused(e);
      }
    }

    /**
     Commit. A nil finalize state panics (`ok` is false), which no conforming run meets; and in a
     conforming run the committed store is the ledger of the decided blocks, this one last.
     */
    method Commit() returns (ok: bool)
      requires Valid()
      modifies this`committed, this`lastHeight, this`check, this`finalize, this`world, this`conforming
      ensures Valid() && ok == old(finalize).Some?
      ensures if ok then Did(Consensus.CommitCall) else world == old(world) && conforming == old(conforming)
      ensures old(conforming) && Consensus.Legal(old(world), Consensus.CommitCall) ==> ok
      ensures ok && conforming ==>
                && old(world).stage.Decided?
                && world.decided == old(world).decided + [old(world).stage.block]
                && committed == Consensus.Replay(cfg, world.genesis, world.decided)
                && lastHeight == old(world).stage.block.height
    {
      hide Abci.Commit, Consensus.Replay, Consensus.Inv, Consensus.Step;
      Consensus.StepApp(cfg, world, Consensus.CommitCall);
      if conforming && Consensus.Legal(world, Consensus.CommitCall) {
        Consensus.CommitExtendsLedger(cfg, world);
        Consensus.NilExactly(cfg, world, Consensus.CommitCall);
      }
      ok := finalize.Some?;
      if ok {
        Persist();
        Record(Consensus.CommitCall);
      }
    }

    method Persist()
      requires finalize.Some?
      modifies this`committed, this`lastHeight, this`check, this`finalize
      ensures Abs() == Abci.Commit(cfg, old(Abs()))
    {
      hide View, Merge;
      var b := finalize.value;
      finalize := Some(b.(ms := Merge(b.ms, cfg.precommit(View(root, b.ms)))));
      committed := root;
      if lastHeight == 0 && initialVersion > 1 {
        lastHeight := initialVersion;
      } else {
        lastHeight := lastHeight + 1;
      }
      check := NO_WRITES;
      finalize := None;
      check := cfg.prepareCheck(root);
    }
  }
}
