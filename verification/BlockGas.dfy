/**
 A block seen from outside: the states its transactions go through, the gas they are charged, and
 the limit the consensus parameters set on that gas.
 */
module BlockGas {
  import opened Prelude
  import opened Stores
  import opened Gas
  import opened Recovery
  import opened RunTx
  import opened TxEffects
  import opened Blocks

  // ---------------------------------------------------------------- what a block may use

  /** No block meter at all; gas is only counted; or gas is counted and limited. */
  datatype Policy = Unmetered | Counted | Capped(limit: U64)

  /** The policy in a state, from the configuration and the consensus parameters of that state. */
  function PolicyOf(env: BlockEnv, s: Store): (p: Policy)
    requires env.disableBlockGas || env.maxGas(s) < TWO_63
  {
    if env.disableBlockGas then Unmetered
    else if env.maxGas(s) > 0 then Capped(env.maxGas(s))
    else Counted
  }

  predicate Exhausted(policy: Policy, before: nat) {
    policy.Capped? && before >= policy.limit
  }

  /** A charge fits: within the limit, or, where there is none, within a `uint64`. */
  predicate Fits(policy: Policy, before: nat, gas: nat) {
    match policy
    case Unmetered => true
    case Counted => before + gas <= MAX_U64
    case Capped(limit) => before + gas <= limit
  }

  function Sum(gas: seq<U64>): (n: nat) {
    if gas == [] then 0 else gas[0] + Sum(gas[1..])
  }

  lemma {:induction false} SumGrows(gas: seq<U64>, i: nat)
    requires i < |gas|
    ensures Sum(gas[..i + 1]) == Sum(gas[..i]) + gas[i]
  {
    if i == 0 {
      assert gas[..1] == [gas[0]] && gas[..1][1..] == [];
    } else {
      SumGrows(gas[1..], i - 1);
      assert gas[1..][..i] == gas[..i + 1][1..] && gas[1..][..i - 1] == gas[..i][1..];
    }
  }

  lemma {:induction false} SumAtMost(gas: seq<U64>, i: nat)
    requires i <= |gas|
    ensures Sum(gas[..i]) <= Sum(gas)
    decreases |gas| - i
  {
    if i == |gas| {
      assert gas[..i] == gas;
    } else {
      SumGrows(gas, i);
      SumAtMost(gas, i + 1);
    }
  }

  // ---------------------------------------------------------------- the run of a block

  /**
   One transaction, after charges of `before`: bytes that do not decode and transactions of an
   exhausted block change nothing. Any other is charged the gas it uses, up to its own limit. If the
   charge fits, it does and reports what it does without a block meter; if not, it fails, and only
   the ante handler's writes land.
   */
  predicate TxRan(env: TxEnv, policy: Policy, before: nat, raw: Bytes, s: Store, s': Store, gas: U64, r: ExecTxResult) {
    if env.decode(raw).None? then s' == s && gas == 0 && r == ExecTxResult(Some(ErrTxDecode), [], 0, 0)
    else if Exhausted(policy, before) then s' == s && gas == 0 && r == ExecTxResult(Some(ErrOutOfGas), [], 0, 0)
    else
      var free := Run(env, Finalize, s, Noop, raw);
      && gas == Min(Consumed(free.meter), Limit(free.meter))
      && r.wanted == free.wanted && r.used == Consumed(free.meter)
      && if Fits(policy, before, gas) then
           && s' == View(s, free.writes) && r.error == free.error
           && (free.error.Some? ==> r.responses == [])
           && (free.error.None? ==> free.result == Some(TxResult(r.responses)))
         else
           && s' == View(s, FirstStage(env, Finalize, s, raw)) && r.error.Some? && r.responses == []
           && (policy.Capped? && before + gas <= MAX_U64 ==> r.error == Some(ErrOutOfGas))
  }

  /** What was charged before a transaction; the counter stops at the largest `uint64`. */
  function Before(start: nat, gas: seq<U64>, i: nat): (n: nat)
    requires i <= |gas|
  {
    Min(MAX_U64, start + Sum(gas[..i]))
  }

  /** The transactions ran in order, each on the state and after the charges of its predecessors. */
  predicate TxsRan(
    env: TxEnv, policy: Policy, start: nat, txs: seq<Bytes>, stores: seq<Store>, gas: seq<U64>, results: seq<ExecTxResult>)
  {
    && |stores| == |txs| + 1 && |gas| == |txs| && |results| == |txs|
    && forall i :: 0 <= i < |txs| ==>
         TxRan(env, policy, Before(start, gas, i), txs[i], stores[i], stores[i + 1], gas[i], results[i])
  }

  /** The meter of a block under a policy, after charges of `before`. */
  predicate Shows(block: Meter, policy: Policy, before: U64) {
    match policy
    case Unmetered => block == Noop
    case Counted => block == Infinite(before)
    case Capped(limit) => block == Limited(limit, before)
  }

  lemma OutOfGasIsReported(env: TxEnv)
    ensures RecoveredFrom(env, OutOfGasPanic("block gas meter")) == Some(ErrOutOfGas)
  {
    var handlers := [OutOfGasHandler] + Reversed(env.recovery) + [DefaultHandler];
    assert handlers[0] == OutOfGasHandler;
  }

  lemma RunWhenExhausted(env: TxEnv, s: Store, block: Meter, raw: Bytes)
    requires IsOutOfGas(block)
    ensures Run(env, Finalize, s, block, raw) == TxOutcome(NO_WRITES, block, Infinite(0), 0, None, Some(ErrOutOfGas))
  {
  }

  lemma DeliverRan(env: TxEnv, policy: Policy, before: U64, s: Store, block: Meter, raw: Bytes) returns (gas: U64)
    requires Shows(block, policy, before)
    ensures
      var d := Deliver(env, s, block, raw);
      && TxRan(env, policy, before, raw, s, View(s, d.writes), gas, d.result)
      && Shows(d.block, policy, Min(MAX_U64, before + gas))
  {
    hide View, Merge, Run, FirstStage, RecoveredFrom;
    ViewNothing(s);
    if env.decode(raw).None? {
      gas := 0;
    } else if IsOutOfGas(block) {
      gas := 0;
      RunWhenExhausted(env, s, block, raw);
    } else {
      RunWithMeter(env, s, block, raw);
      TwoStageAtomicity(env, Finalize, s, Noop, raw);
      var free := Run(env, Finalize, s, Noop, raw);
      ChargedToLimit(free.meter);
      gas := ConsumedToLimit(free.meter);
      OutOfGasIsReported(env);
    }
  }

  lemma BeforeShifts(start: nat, g: U64, gas: seq<U64>, i: nat)
    requires i <= |gas|
    ensures Before(start, [g] + gas, i + 1) == Before(start + g, gas, i)
  {
    assert ([g] + gas)[..i + 1] == [g] + gas[..i];
    assert ([g] + gas[..i])[1..] == gas[..i];
  }

  lemma {:induction false} DeliverAllRan(
    env: TxEnv, policy: Policy, start: nat, s: Store, block: Meter, txs: seq<Bytes>)
    returns (stores: seq<Store>, gas: seq<U64>)
    requires Shows(block, policy, Min(MAX_U64, start))
    ensures
      var b := DeliverAll(env, s, block, txs);
      && TxsRan(env, policy, start, txs, stores, gas, b.results)
      && stores[0] == s && stores[|txs|] == b.store
    decreases |txs|
  {
    hide View, Deliver, TxRan, Shows;
    if txs == [] {
      stores, gas := [s], [];
    } else {
      var d := Deliver(env, s, block, txs[0]);
      var g := DeliverRan(env, policy, Min(MAX_U64, start), s, block, txs[0]);
      var s', gas' := DeliverAllRan(env, policy, start + g, View(s, d.writes), d.block, txs[1..]);
      stores, gas := [s] + s', [g] + gas';
      var rest := DeliverAll(env, View(s, d.writes), d.block, txs[1..]);
      forall i | 0 <= i < |txs|
        ensures TxRan(env, policy, Before(start, gas, i), txs[i], stores[i], stores[i + 1], gas[i], ([d.result] + rest.results)[i])
      {
        if i == 0 {
          assert gas[..0] == [];
        } else {
          BeforeShifts(start, g, gas', i - 1);
          assert TxRan(env, policy, Before(start + g, gas', i - 1), txs[1..][i - 1], s'[i - 1], s'[i], gas'[i - 1], rest.results[i - 1]);
        }
      }
    }
  }

  /** The state the transactions of a block start from. */
  function AfterBeginBlock(env: BlockEnv, s: Store, blk: Block): (s2: Store) {
    var s1 := View(s, env.preBlock(s, blk).writes);
    View(s1, env.beginBlock(s1, blk).writes)
  }

  /** The error that keeps the transactions of a block from being run at all. */
  function BeginError(env: BlockEnv, s: Store, blk: Block): (e: Option<Error>) {
    var pre := env.preBlock(s, blk);
    var beg := env.beginBlock(View(s, pre.writes), blk);
    if !env.disableBlockGas && env.maxGas(s) < -1 then Some(ErrPanic)
    else if pre.error.Some? then pre.error
    else if beg.error.Some? then beg.error
    else if !env.disableBlockGas && env.maxGas(AfterBeginBlock(env, s, blk)) < -1 then Some(ErrPanic)
    else None
  }

  /**
   A block that is executed: preBlock and beginBlock, the transactions in order under the gas limit
   of the state beginBlock leaves, and endBlock, with what each contributes to the response.
   */
  predicate BlockRan(
    env: BlockEnv, s: Store, blk: Block, x: Executed, stores: seq<Store>, gas: seq<U64>, results: seq<ExecTxResult>)
  {
    var pre, s2 := env.preBlock(s, blk), AfterBeginBlock(env, s, blk);
    var beg := env.beginBlock(View(s, pre.writes), blk);
    && env.maxGas(s2) < TWO_63
    && TxsRan(env.tx(blk), PolicyOf(env, s2), 0, blk.txs, stores, gas, results)
    && stores[0] == s2
    && var fin := env.endBlock(stores[|blk.txs|], blk);
       var s3 := View(stores[|blk.txs|], fin.writes);
       && x.store == s3
       && x.outcome ==
          if fin.error.Some? then Failed(fin.error.value)
          else Done(Response([pre.output, beg.output], results, fin.output, env.params(s3)))
  }

  /** Executing a block is such a run. The maximum is an `int64`. */
  lemma PlainBlockRan(env: BlockEnv, s: Store, blk: Block)
    returns (stores: seq<Store>, gas: seq<U64>, results: seq<ExecTxResult>)
    requires BeginError(env, s, blk).None? && env.maxGas(AfterBeginBlock(env, s, blk)) < TWO_63
    ensures BlockRan(env, s, blk, PlainBlock(env, s, blk), stores, gas, results)
  {
    hide View, DeliverAll, TxRan;
    var s2 := AfterBeginBlock(env, s, blk);
    stores, gas := DeliverAllRan(env.tx(blk), PolicyOf(env, s2), 0, s2, BlockMeter(env, s2).value, blk.txs);
    results := DeliverAll(env.tx(blk), s2, BlockMeter(env, s2).value, blk.txs).results;
  }

  /** And a block whose begin fails reports the first thing that went wrong. */
  lemma BlockNotRun(env: BlockEnv, s: Store, blk: Block)
    requires BeginError(env, s, blk).Some?
    ensures PlainBlock(env, s, blk).outcome == Failed(BeginError(env, s, blk).value)
  {
    hide View, DeliverAll;
  }

  // ---------------------------------------------------------------- the gas of a block

  /** The gas of the first `i` transactions whose result has no error. */
  function Landed(gas: seq<U64>, results: seq<ExecTxResult>, i: nat): (n: nat)
    requires i <= |gas| && i <= |results|
  {
    if i == 0 then 0
    else Landed(gas, results, i - 1) + if results[i - 1].error.None? then gas[i - 1] else 0
  }

  lemma {:induction false} LandedFits(
    env: TxEnv, policy: Policy, txs: seq<Bytes>, stores: seq<Store>, gas: seq<U64>, results: seq<ExecTxResult>, i: nat)
    requires TxsRan(env, policy, 0, txs, stores, gas, results) && policy.Capped? && i <= |txs|
    ensures Landed(gas, results, i) <= policy.limit && Landed(gas, results, i) <= Sum(gas[..i])
  {
    hide Run, View, FirstStage;
    if i == 0 {
    } else {
      LandedFits(env, policy, txs, stores, gas, results, i - 1);
      SumGrows(gas, i - 1);
      assert TxRan(env, policy, Before(0, gas, i - 1), txs[i - 1], stores[i - 1], stores[i], gas[i - 1], results[i - 1]);
    }
  }

  /** No transaction of the block is refused for the gas of the block. */
  predicate NoneRefused(env: TxEnv, txs: seq<Bytes>, stores: seq<Store>, gas: seq<U64>, results: seq<ExecTxResult>) {
    TxsRan(env, Unmetered, 0, txs, stores, gas, results)
  }

  lemma UncappedRefusesNone(
    env: TxEnv, policy: Policy, txs: seq<Bytes>, stores: seq<Store>, gas: seq<U64>, results: seq<ExecTxResult>)
    requires TxsRan(env, policy, 0, txs, stores, gas, results)
    requires policy.Unmetered? || (policy.Counted? && Sum(gas) <= MAX_U64)
    ensures NoneRefused(env, txs, stores, gas, results)
  {
    hide Run, View, FirstStage;
    forall i | 0 <= i < |txs|
      ensures TxRan(env, Unmetered, Before(0, gas, i), txs[i], stores[i], stores[i + 1], gas[i], results[i])
    {
      SumGrows(gas, i);
      SumAtMost(gas, i + 1);
      assert TxRan(env, policy, Before(0, gas, i), txs[i], stores[i], stores[i + 1], gas[i], results[i]);
    }
  }

  lemma NothingAfterTheLimit(
    env: TxEnv, policy: Policy, txs: seq<Bytes>, stores: seq<Store>, gas: seq<U64>, results: seq<ExecTxResult>, i: nat)
    requires TxsRan(env, policy, 0, txs, stores, gas, results) && policy.Capped? && i < |txs| && Sum(gas[..i]) >= policy.limit
    ensures results[i].error.Some? && stores[i + 1] == stores[i]
  {
    hide Run, View, FirstStage;
    assert TxRan(env, policy, Before(0, gas, i), txs[i], stores[i], stores[i + 1], gas[i], results[i]);
  }

  /**
   Block gas. With a positive maximum in the state beginBlock leaves, the transactions that report no
   error are together charged at most that maximum, and once the charges have reached it every later
   transaction fails and changes nothing. With a maximum of zero or minus one, or with block gas
   disabled, every transaction does what it does without a block meter, as long as the charges add
   up to a `uint64`.
   */
  lemma BlockGasLaw(env: BlockEnv, chain: Chain, base: Store, blk: Block)
    returns (stores: seq<Store>, gas: seq<U64>, results: seq<ExecTxResult>)
    requires HeightError(env, chain, blk).None? && BeginError(env, base, blk).None?
    requires env.maxGas(AfterBeginBlock(env, base, blk)) < TWO_63
    ensures BlockRan(env, base, blk, PlainFinalize(env, chain, base, blk), stores, gas, results)
    ensures
      var max := env.maxGas(AfterBeginBlock(env, base, blk));
      if !env.disableBlockGas && max > 0 then
        && Landed(gas, results, |results|) <= max
        && forall i :: 0 <= i < |blk.txs| && Sum(gas[..i]) >= max ==> results[i].error.Some? && stores[i + 1] == stores[i]
      else
        env.disableBlockGas || Sum(gas) <= MAX_U64 ==> NoneRefused(env.tx(blk), blk.txs, stores, gas, results)
  {
    hide View, DeliverAll, TxRan, PlainBlock, NoneRefused, HeightError, BeginError;
    stores, gas, results := PlainBlockRan(env, base, blk);
    var policy := PolicyOf(env, AfterBeginBlock(env, base, blk));
    if policy.Capped? {
      LandedFits(env.tx(blk), policy, blk.txs, stores, gas, results, |blk.txs|);
      forall i | 0 <= i < |blk.txs| && Sum(gas[..i]) >= policy.limit
        ensures results[i].error.Some? && stores[i + 1] == stores[i]
      {
        NothingAfterTheLimit(env.tx(blk), policy, blk.txs, stores, gas, results, i);
      }
    } else if policy.Unmetered? || Sum(gas) <= MAX_U64 {
      UncappedRefusesNone(env.tx(blk), policy, blk.txs, stores, gas, results);
    }
  }

  // ---------------------------------------------------------------- internalFinalizeBlock

  /** What `FinalizeBlock` does with a block: refuse it, fail at its begin, or run it. */
  ghost predicate RunsBlock(env: BlockEnv, chain: Chain, base: Store, blk: Block, x: Executed) {
    if HeightError(env, chain, blk).Some? then x == Executed(base, Failed(HeightError(env, chain, blk).value))
    else if BeginError(env, base, blk).Some? then x.outcome == Failed(BeginError(env, base, blk).value)
    else
      env.maxGas(AfterBeginBlock(env, base, blk)) < TWO_63 ==>
        exists stores: seq<Store>, gas: seq<U64>, results: seq<ExecTxResult> :: BlockRan(env, base, blk, x, stores, gas, results)
  }

  lemma PlainFinalizeRuns(env: BlockEnv, chain: Chain, base: Store, blk: Block)
    ensures RunsBlock(env, chain, base, blk, PlainFinalize(env, chain, base, blk))
  {
    hide View, HeightError, BeginError, AfterBeginBlock, PlainBlock, BlockRan;
    if HeightError(env, chain, blk).None? {
      if BeginError(env, base, blk).Some? {
        BlockNotRun(env, base, blk);
      } else if env.maxGas(AfterBeginBlock(env, base, blk)) < TWO_63 {
        var stores, gas, results := PlainBlockRan(env, base, blk);
      }
    }
  }

  /**
   The begin of a block: stopped with its error, or at the first transaction, on the state beginBlock
   leaves and with a block meter that has the limit of that state and nothing charged.
   */
  predicate Begun(env: BlockEnv, chain: Chain, base: Store, blk: Block, w: Worker) {
    var error := if HeightError(env, chain, blk).Some? then HeightError(env, chain, blk) else BeginError(env, base, blk);
    if error.Some? then w.pc == Progress.Stopped(Failed(error.value))
    else
      var pre, s2 := env.preBlock(base, blk), AfterBeginBlock(env, base, blk);
      && w.pc == Delivering(0, [], [pre.output, env.beginBlock(View(base, pre.writes), blk).output])
      && w.state.Some? && View(chain.root, w.state.value.ms) == s2
      && (env.maxGas(s2) < TWO_63 ==> Shows(w.state.value.gas, PolicyOf(env, s2), 0))
  }

  lemma BeginStepBegins(env: BlockEnv, chain: Chain, blk: Block, state: Option<BlockState>)
    ensures
      var base := if state.Some? then View(chain.root, state.value.ms) else chain.root;
      Begun(env, chain, base, blk, BeginStep(env, chain, blk, false, state))
  {
    hide View, Merge, HeightError;
    var b := if state.Some? then state.value else EMPTY_STATE;
    ViewNothing(chain.root);
    var s := View(chain.root, b.ms);
    var pre := env.preBlock(s, blk);
    ViewMerged(chain.root, b.ms, pre.writes);
    var ms1 := Merge(b.ms, pre.writes);
    ViewMerged(chain.root, ms1, env.beginBlock(View(chain.root, ms1), blk).writes);
  }
}
