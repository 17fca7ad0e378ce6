/**
 Executing a block. `PlainBlock` is the reference: run the hooks and the transactions once, in
 order, on a store. `Advance` is one atomic step of `internalFinalizeBlock` working on the
 finalize branch under a cancellation flag; `Finish` lets it run to its end.
 */
module Blocks {
  import opened Prelude
  import opened Stores
  import opened Gas
  import opened Recovery
  import opened RunTx

  type Hash = string

  /** `RequestFinalizeBlock`; `rest` stands for the commit, misbehaviour, validator and proposer fields. */
  datatype Block = Block(hash: Hash, height: int, time: int, txs: seq<Bytes>, rest: string)

  datatype ExecTxResult = ExecTxResult(error: Option<Error>, responses: seq<string>, wanted: U64, used: U64)

  /** The response without its app hash. */
  datatype Response = Response(events: seq<string>, txResults: seq<ExecTxResult>, updates: string, params: string)

  datatype Outcome = Done(response: Response) | Failed(error: Error)

  datatype HookResult = HookResult(writes: Writes, error: Option<Error>, output: string)

  /** The handlers of transactions see the block through their context, and so may depend on it. */
  datatype BlockEnv = BlockEnv(
    tx: Block -> TxEnv,
    disableBlockGas: bool,
    maxGas: Store -> int,
    params: Store -> string,
    haltHeight: U64,
    haltTime: U64,
    preBlock: (Store, Block) -> HookResult,
    beginBlock: (Store, Block) -> HookResult,
    endBlock: (Store, Block) -> HookResult)

  /** `getBlockGasMeter`; `None` is the panic on a maximum below minus one. */
  function BlockMeter(env: BlockEnv, store: Store): (m: Option<Meter>) {
    if env.disableBlockGas then Some(Noop)
    else
      var maxGas := env.maxGas(store);
      if maxGas < -1 then None
      else if maxGas <= 0 then Some(Infinite(0))
      else Some(Limited(ToU64(maxGas), 0))
  }

  // ---------------------------------------------------------------- transactions

  datatype Delivered = Delivered(writes: Writes, block: Meter, result: ExecTxResult)

  function DecodeFailure(): (r: ExecTxResult) {
    ExecTxResult(Some(ErrTxDecode), [], 0, 0)
  }

  function Report(o: TxOutcome): (r: ExecTxResult)
    requires o.error.None? ==> o.result.Some?
  {
    ExecTxResult(o.error, if o.error.None? then o.result.value.responses else [], o.wanted, Consumed(o.meter))
  }

  /** One transaction of the block: `deliverTx`, or the default response for bytes that do not decode. */
  function Deliver(env: TxEnv, store: Store, block: Meter, raw: Bytes): (d: Delivered) {
    if env.decode(raw).None? then Delivered(NO_WRITES, block, DecodeFailure())
    else
      var o := Run(env, Finalize, store, block, raw);
      TwoStageAtomicity(env, Finalize, store, block, raw);
      Delivered(o.writes, o.block, Report(o))
  }

  datatype Batch = Batch(store: Store, block: Meter, results: seq<ExecTxResult>)

  function DeliverAll(env: TxEnv, store: Store, block: Meter, txs: seq<Bytes>): (b: Batch)
    decreases |txs|
  {
    if txs == [] then Batch(store, block, [])
    else
      var d := Deliver(env, store, block, txs[0]);
      var rest := DeliverAll(env, View(store, d.writes), d.block, txs[1..]);
      Batch(rest.store, rest.block, [d.result] + rest.results)
  }

  predicate Charges(env: TxEnv, block: Meter, raw: Bytes) {
    env.decode(raw).Some? && Starts(Finalize, block)
  }

  /** The gas a transaction is charged: what its own meter shows, up to its limit. */
  function GasOf(env: TxEnv, store: Store, block: Meter, raw: Bytes): (g: U64) {
    if Charges(env, block, raw) then ConsumedToLimit(Run(env, Finalize, store, block, raw).meter) else 0
  }

  /** Total gas of the transactions that started. */
  function ChargedGas(env: TxEnv, store: Store, block: Meter, txs: seq<Bytes>): (g: nat)
    decreases |txs|
  {
    if txs == [] then 0
    else
      var d := Deliver(env, store, block, txs[0]);
      GasOf(env, store, block, txs[0]) + ChargedGas(env, View(store, d.writes), d.block, txs[1..])
  }

  /** Total gas of the transactions whose message writes landed. */
  function LandedGas(env: TxEnv, store: Store, block: Meter, txs: seq<Bytes>): (g: nat)
    decreases |txs|
  {
    if txs == [] then 0
    else
      var d := Deliver(env, store, block, txs[0]);
      (if d.result.error.None? then GasOf(env, store, block, txs[0]) else 0)
      + LandedGas(env, View(store, d.writes), d.block, txs[1..])
  }

  lemma DeliverCharges(env: TxEnv, store: Store, block: Meter, raw: Bytes)
    requires block.Limited?
    ensures
      var d := Deliver(env, store, block, raw);
      && d.block.Limited? && d.block.limit == block.limit
      && d.block.consumed == Min(MAX_U64, block.consumed + GasOf(env, store, block, raw))
      && (d.result.error.None? ==> block.consumed + GasOf(env, store, block, raw) <= block.limit)
  {
    hide View, Run;
    ChargedOnce(env, Finalize, store, block, raw);
  }

  lemma {:induction false} LandedGasFits(env: TxEnv, store: Store, block: Meter, txs: seq<Bytes>, landed: nat)
    requires block.Limited? && landed <= block.consumed && landed <= block.limit
    ensures landed + LandedGas(env, store, block, txs) <= block.limit
    decreases |txs|
  {
    hide View, Deliver, GasOf;
    if txs == [] {
    } else {
      var d := Deliver(env, store, block, txs[0]);
      DeliverCharges(env, store, block, txs[0]);
      var landed' := landed + if d.result.error.None? then GasOf(env, store, block, txs[0]) else 0;
      LandedGasFits(env, View(store, d.writes), d.block, txs[1..], landed');
    }
  }

  lemma {:induction false} ChargesAddUp(env: TxEnv, store: Store, block: Meter, txs: seq<Bytes>)
    requires block.Limited?
    ensures
      var b := DeliverAll(env, store, block, txs);
      && b.block.Limited? && b.block.limit == block.limit
      && b.block.consumed == Min(MAX_U64, block.consumed + ChargedGas(env, store, block, txs))
    decreases |txs|
  {
    hide View, Deliver, GasOf;
    if txs == [] {
    } else {
      var d := Deliver(env, store, block, txs[0]);
      DeliverCharges(env, store, block, txs[0]);
      ChargesAddUp(env, View(store, d.writes), d.block, txs[1..]);
    }
  }

  /**
   Block gas over a whole block with a positive limit: the meter ends at the sum of one charge
   for each transaction that started (up to the largest `uint64`), and the transactions whose
   message writes landed stay within the limit together.
   */
  lemma BlockGasBudget(env: TxEnv, store: Store, limit: U64, txs: seq<Bytes>)
    requires limit > 0
    ensures
      var meter := Limited(limit, 0);
      && DeliverAll(env, store, meter, txs).block ==
         Limited(limit, Min(MAX_U64, ChargedGas(env, store, meter, txs)))
      && LandedGas(env, store, meter, txs) <= limit
  {
    hide View, Deliver, GasOf;
    ChargesAddUp(env, store, Limited(limit, 0), txs);
    LandedGasFits(env, store, Limited(limit, 0), txs, 0);
  }

  /** Once the block meter is exhausted, no later transaction changes the state or the meter. */
  lemma {:induction false} ExhaustedBlockIsInert(env: TxEnv, store: Store, block: Meter, txs: seq<Bytes>)
    requires IsOutOfGas(block)
    ensures DeliverAll(env, store, block, txs).store == store
    ensures DeliverAll(env, store, block, txs).block == block
    ensures |DeliverAll(env, store, block, txs).results| == |txs|
    ensures forall i :: 0 <= i < |txs| ==>
              DeliverAll(env, store, block, txs).results[i].error ==
              Some(if env.decode(txs[i]).None? then ErrTxDecode else ErrOutOfGas)
    decreases |txs|
  {
    hide View;
    if txs == [] {
    } else {
      var d := Deliver(env, store, block, txs[0]);
      ViewNothing(store);
      assert d.writes == NO_WRITES && d.block == block;
      ExhaustedBlockIsInert(env, store, block, txs[1..]);
      var rest := DeliverAll(env, store, block, txs[1..]);
      assert DeliverAll(env, store, block, txs).results == [d.result] + rest.results;
      forall i | 0 < i < |txs|
        ensures ([d.result] + rest.results)[i] == rest.results[i - 1] && txs[i] == txs[1..][i - 1]
      {
      }
    }
  }

  // ---------------------------------------------------------------- the reference

  datatype Executed = Executed(store: Store, outcome: Outcome)

  /** The end of the block, after the transactions. */
  function PlainEnd(env: BlockEnv, batch: Batch, blk: Block, events: seq<string>): (x: Executed) {
    var fin := env.endBlock(batch.store, blk);
    var s := View(batch.store, fin.writes);
    if fin.error.Some? then Executed(s, Failed(fin.error.value))
    else Executed(s, Done(Response(events, batch.results, fin.output, env.params(s))))
  }

  /** Execute the block once on `s`. No branches, no steps, no cancellation. */
  function PlainBlock(env: BlockEnv, s: Store, blk: Block): (x: Executed) {
    if BlockMeter(env, s).None? then Executed(s, Failed(ErrPanic))
    else
      var pre := env.preBlock(s, blk);
      var s1 := View(s, pre.writes);
      if pre.error.Some? then Executed(s1, Failed(pre.error.value))
      else
        var beg := env.beginBlock(s1, blk);
        var s2 := View(s1, beg.writes);
        if beg.error.Some? then Executed(s2, Failed(beg.error.value))
        else
          var meter := BlockMeter(env, s2);
          if meter.None? then Executed(s2, Failed(ErrPanic))
          else PlainEnd(env, DeliverAll(env.tx(blk), s2, meter.value, blk.txs), blk, [pre.output, beg.output])
  }

  /** What `checkHalt` and `validateFinalizeBlockHeight` need to know about the chain. */
  datatype Chain = Chain(root: Store, lastHeight: nat, initialHeight: int)

  function CheckHalt(env: BlockEnv, height: int, time: int): (e: Option<Error>) {
    if env.haltHeight > 0 && ToU64(height) >= env.haltHeight then Some(ErrHalt)
    else if env.haltTime > 0 && time >= ToI64(env.haltTime) then Some(ErrHalt)
    else None
  }

  function ExpectedHeight(lastHeight: nat, initialHeight: int): (h: int) {
    if lastHeight == 0 && initialHeight > 1 then initialHeight else lastHeight + 1
  }

  function HeightError(env: BlockEnv, chain: Chain, blk: Block): (e: Option<Error>) {
    var halt := CheckHalt(env, blk.height, blk.time);
    if halt.Some? then halt
    else if blk.height < 1 || blk.height != ExpectedHeight(chain.lastHeight, chain.initialHeight) then Some(ErrInvalidHeight)
    else None
  }

  /** At or past a configured halt height or halt time. */
  predicate AtHalt(env: BlockEnv, blk: Block) {
    || (env.haltHeight > 0 && blk.height >= env.haltHeight)
    || (env.haltTime > 0 && blk.time >= env.haltTime)
  }

  /**
   Which blocks are refused, and with which error: those at or past a halt, then those of any height
   but the next. A negative height, which the conversion to `uint64` may turn into one past the halt
   height, is refused either way.
   */
  lemma RefusedExactly(env: BlockEnv, chain: Chain, blk: Block)
    requires blk.height < TWO_63 && env.haltTime < TWO_63
    ensures
      var next := if chain.lastHeight == 0 && chain.initialHeight > 1 then chain.initialHeight else chain.lastHeight + 1;
      if blk.height >= 0 then
        HeightError(env, chain, blk) ==
        if AtHalt(env, blk) then Some(ErrHalt) else if blk.height != next then Some(ErrInvalidHeight) else None
      else HeightError(env, chain, blk) == Some(ErrHalt) || HeightError(env, chain, blk) == Some(ErrInvalidHeight)
  {
  }

  /** The reference for `FinalizeBlock`: refuse the block, or execute it once on `base`. */
  function PlainFinalize(env: BlockEnv, chain: Chain, base: Store, blk: Block): (x: Executed) {
    var err := HeightError(env, chain, blk);
    if err.Some? then Executed(base, Failed(err.value)) else PlainBlock(env, base, blk)
  }

  // ---------------------------------------------------------------- internalFinalizeBlock, step by step

  /** The finalize branch and the block gas meter in its context. */
  datatype BlockState = BlockState(ms: Writes, gas: Meter)

  const EMPTY_STATE: BlockState := BlockState(NO_WRITES, Infinite(0))

  datatype Progress =
    | Starting
    | Delivering(next: nat, results: seq<ExecTxResult>, events: seq<string>)
    | Stopped(outcome: Outcome)

  /** A running `internalFinalizeBlock`: the branch it works on and how far it is. */
  datatype Worker = Worker(state: Option<BlockState>, pc: Progress)

  /** A `select` on the context: a cancelled worker stops here instead of going on. */
  function CancelPoint(cancelled: bool, state: BlockState, next: Progress): (w: Worker) {
    Worker(Some(state), if cancelled then Stopped(Failed(ErrCancelled)) else next)
  }

  /** Height checks, a branch if there is none, preBlock and beginBlock, and the first cancel point. */
  function BeginStep(env: BlockEnv, chain: Chain, blk: Block, cancelled: bool, state: Option<BlockState>): (w: Worker) {
    var err := HeightError(env, chain, blk);
    if err.Some? then Worker(state, Stopped(Failed(err.value)))
    else
      var b := if state.Some? then state.value else EMPTY_STATE;
      var s := View(chain.root, b.ms);
      var meter := BlockMeter(env, s);
      if meter.None? then Worker(Some(b), Stopped(Failed(ErrPanic)))
      else
        var pre := env.preBlock(s, blk);
        var b1 := BlockState(Merge(b.ms, pre.writes), meter.value);
        if pre.error.Some? then Worker(Some(b1), Stopped(Failed(pre.error.value)))
        else
          var beg := env.beginBlock(View(chain.root, b1.ms), blk);
          var b2 := b1.(ms := Merge(b1.ms, beg.writes));
          if beg.error.Some? then Worker(Some(b2), Stopped(Failed(beg.error.value)))
          else if cancelled then Worker(Some(b2), Stopped(Failed(ErrCancelled)))
          else
            var meter2 := BlockMeter(env, View(chain.root, b2.ms));
            if meter2.None? then Worker(Some(b2), Stopped(Failed(ErrPanic)))
            else Worker(Some(b2.(gas := meter2.value)), Delivering(0, [], [pre.output, beg.output]))
  }

  function TxStep(env: BlockEnv, chain: Chain, blk: Block, cancelled: bool, b: BlockState, pc: Progress): (w: Worker)
    requires pc.Delivering? && pc.next < |blk.txs|
  {
    var d := Deliver(env.tx(blk), View(chain.root, b.ms), b.gas, blk.txs[pc.next]);
    CancelPoint(cancelled, BlockState(Merge(b.ms, d.writes), d.block),
                Delivering(pc.next + 1, pc.results + [d.result], pc.events))
  }

  function EndStep(env: BlockEnv, chain: Chain, blk: Block, cancelled: bool, b: BlockState, pc: Progress): (w: Worker)
    requires pc.Delivering?
  {
    var fin := env.endBlock(View(chain.root, b.ms), blk);
    var b1 := b.(ms := Merge(b.ms, fin.writes));
    if fin.error.Some? then Worker(Some(b1), Stopped(Failed(fin.error.value)))
    else
      CancelPoint(cancelled, b1,
                  Stopped(Done(Response(pc.events, pc.results, fin.output, env.params(View(chain.root, b1.ms))))))
  }

  function Rank(pc: Progress, blk: Block): (r: nat) {
    match pc
    case Starting => |blk.txs| + 2
    case Delivering(next, _, _) => if next < |blk.txs| then |blk.txs| + 1 - next else 1
    case Stopped(_) => 0
  }

  /** One atomic step of the worker: a piece of work up to and including the next cancel point. */
  function Advance(env: BlockEnv, chain: Chain, blk: Block, cancelled: bool, w: Worker): (w': Worker)
    ensures !w.pc.Stopped? ==> Rank(w'.pc, blk) < Rank(w.pc, blk)
    ensures w.state.Some? ==> w'.state.Some?
  {
    match w.pc
    case Stopped(_) => w
    case Starting => BeginStep(env, chain, blk, cancelled, w.state)
    case Delivering(next, _, _) =>
      var b := if w.state.Some? then w.state.value else EMPTY_STATE;
      if next < |blk.txs| then TxStep(env, chain, blk, cancelled, b, w.pc)
      else EndStep(env, chain, blk, cancelled, b, w.pc)
  }

  function Finish(env: BlockEnv, chain: Chain, blk: Block, cancelled: bool, w: Worker): (w': Worker)
    ensures w'.pc.Stopped?
    ensures w.state.Some? ==> w'.state.Some?
    decreases Rank(w.pc, blk)
  {
    if w.pc.Stopped? then w else Finish(env, chain, blk, cancelled, Advance(env, chain, blk, cancelled, w))
  }

  /** What a stopped worker amounts to for a reader of the root store. */
  function Seen(chain: Chain, w: Worker): (x: Executed)
    requires w.pc.Stopped?
  {
    Executed(if w.state.Some? then View(chain.root, w.state.value.ms) else chain.root, w.pc.outcome)
  }

  /** From any point among the transactions, an uncancelled worker ends as the reference does. */
  lemma {:induction false} DeliveringIsPlain(env: BlockEnv, chain: Chain, blk: Block, b: BlockState, pc: Progress)
    requires pc.Delivering? && pc.next <= |blk.txs|
    ensures
      var batch := DeliverAll(env.tx(blk), View(chain.root, b.ms), b.gas, blk.txs[pc.next..]);
      Seen(chain, Finish(env, chain, blk, false, Worker(Some(b), pc))) ==
      PlainEnd(env, batch.(results := pc.results + batch.results), blk, pc.events)
    decreases |blk.txs| - pc.next
  {
    hide View, Merge, Deliver;
    var w := Worker(Some(b), pc);
    var w' := Advance(env, chain, blk, false, w);
    if pc.next == |blk.txs| {
      var fin := env.endBlock(View(chain.root, b.ms), blk);
      ViewMerged(chain.root, b.ms, fin.writes);
      assert pc.results + [] == pc.results;
      assert Finish(env, chain, blk, false, w') == w';
    } else {
      var d := Deliver(env.tx(blk), View(chain.root, b.ms), b.gas, blk.txs[pc.next]);
      ViewMerged(chain.root, b.ms, d.writes);
      assert blk.txs[pc.next..][1..] == blk.txs[pc.next + 1..];
      DeliveringIsPlain(env, chain, blk, w'.state.value, w'.pc);
      var rest := DeliverAll(env.tx(blk), View(chain.root, w'.state.value.ms), d.block, blk.txs[pc.next + 1..]);
      assert pc.results + ([d.result] + rest.results) == pc.results + [d.result] + rest.results;
    }
  }

  /**
   An uncancelled `internalFinalizeBlock`, started on any branch, does to the store seen through
   that branch exactly what the reference does, and returns the same response or error.
   */
  lemma FinishIsPlain(env: BlockEnv, chain: Chain, blk: Block, state: Option<BlockState>)
    ensures
      var base := if state.Some? then View(chain.root, state.value.ms) else chain.root;
      Seen(chain, Finish(env, chain, blk, false, Worker(state, Starting))) == PlainFinalize(env, chain, base, blk)
  {
    hide View, Merge, HeightError, BlockMeter, DeliverAll, PlainEnd;
    var b := if state.Some? then state.value else EMPTY_STATE;
    ViewNothing(chain.root);
    var s := View(chain.root, b.ms);
    var pre := env.preBlock(s, blk);
    ViewMerged(chain.root, b.ms, pre.writes);
    var ms1 := Merge(b.ms, pre.writes);
    var beg := env.beginBlock(View(chain.root, ms1), blk);
    ViewMerged(chain.root, ms1, beg.writes);
    var w := Advance(env, chain, blk, false, Worker(state, Starting));
    if w.pc.Delivering? {
      DeliveringIsPlain(env, chain, blk, w.state.value, w.pc);
      assert blk.txs[0..] == blk.txs;
      var batch := DeliverAll(env.tx(blk), View(chain.root, w.state.value.ms), w.state.value.gas, blk.txs);
      assert [] + batch.results == batch.results;
    } else {
      assert Finish(env, chain, blk, false, w) == w;
    }
  }
}
