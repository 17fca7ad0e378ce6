/**
 What a transaction does in finalize mode, said without the branches and closures of `runTx`: the
 states it goes through when it succeeds, what it reports, and how the block gas meter enters.
 */
module TxEffects {
  import opened Prelude
  import opened Stores
  import opened Gas
  import opened Recovery
  import opened RunTx

  // ---------------------------------------------------------------- a transaction that succeeds

  lemma AfterMsgsEffect(
    env: TxEnv, store: Store, block: Meter, tx: Tx, ante: Writes, wanted: U64, o: MsgsOut)
    requires
      var f := AfterMsgs(env, Finalize, store, block, tx, ante, wanted, o);
      f.exit.Return? && f.exit.error.None?
    ensures
      var f := AfterMsgs(env, Finalize, store, block, tx, ante, wanted, o);
      && o.exit.Responses? && f.exit.result == Some(TxResult(o.exit.responses))
      && (env.post.None? ==> f.writes == Merge(ante, o.writes) && f.meter == o.meter)
      && (env.post.Some? ==>
            var p := env.post.value(View(View(store, ante), o.writes), o.meter, tx, Finalize, true);
            p.PostDone? && f.writes == Merge(ante, Merge(o.writes, p.writes)) && f.meter == p.meter)
  {
    hide View, Merge;
  }

  /** The mempool has let the transaction go, and its messages could be extracted. */
  predicate MessagesMayRun(env: TxEnv, tx: Tx) {
    (env.remove(tx).Removed? || env.remove(tx).NotFound?) && env.msgsV2(tx) == PASSED
  }

  lemma AfterAnteEffect(
    env: TxEnv, store: Store, block: Meter, tx: Tx, ante: Writes, meter: Meter, wanted: U64)
    requires
      var f := AfterAnte(env, Finalize, store, block, tx, ante, meter, wanted);
      f.exit.Return? && f.exit.error.None?
    ensures MessagesMayRun(env, tx)
    ensures AfterAnte(env, Finalize, store, block, tx, ante, meter, wanted) ==
            AfterMsgs(env, Finalize, store, block, tx, ante, wanted, Msgs(env, Finalize, View(store, ante), meter, tx.msgs))
  {
    hide View, Merge, AfterMsgs, Msgs;
    var o := MsgStage(env, Finalize, View(store, ante), meter, tx);
    var f := AfterAnte(env, Finalize, store, block, tx, ante, meter, wanted);
    assert env.remove(tx).Removed? || env.remove(tx).NotFound?;
    assert f == AfterMsgs(env, Finalize, store, block, tx, ante, wanted, o);
    AfterMsgsEffect(env, store, block, tx, ante, wanted, o);
  }

  lemma BodyEffect(env: TxEnv, store: Store, block: Meter, raw: Bytes)
    requires
      var f := Body(env, Finalize, store, block, raw);
      f.exit.Return? && f.exit.error.None?
    ensures AnteStage(env, Finalize, store, raw).Some? && MessagesMayRun(env, env.decode(raw).value)
    ensures
      var f, tx := Body(env, Finalize, store, block, raw), env.decode(raw).value;
      var ante, meter := AnteStage(env, Finalize, store, raw).value, AnteMeter(env, Finalize, store, raw);
      f == AfterMsgs(env, Finalize, store, block, tx, ante, if env.ante.None? then 0 else Limit(meter),
                     Msgs(env, Finalize, View(store, ante), meter, tx.msgs))
  {
    hide View, Merge, AfterMsgs, Msgs, Precheck, AfterAnte, MessagesMayRun;
    var tx := env.decode(raw).value;
    var ante, meter := AnteStage(env, Finalize, store, raw).value, AnteMeter(env, Finalize, store, raw);
    AfterAnteEffect(env, store, block, tx, ante, meter, if env.ante.None? then 0 else Limit(meter));
  }

  /** Nothing is recovered from when the error is nil: the outcome is that of the body. */
  lemma NoErrorNoPanic(env: TxEnv, store: Store, block: Meter, raw: Bytes)
    requires Run(env, Finalize, store, block, raw).error.None?
    ensures
      var o, f := Run(env, Finalize, store, block, raw), Body(env, Finalize, store, block, raw);
      f.exit == Return(o.result, None) && o.writes == f.writes && o.meter == f.meter
  {
    hide Body, RunTxChain;
    var g := ChargeDeferred(Finalize, Body(env, Finalize, store, block, raw));
    if g.exit.Panic? {
      RecoveryOrder(env.recovery, g.exit.value);
    }
  }

  /** What the first message finds. */
  function AfterAnteHandler(env: TxEnv, store: Store, tx: Tx): (first: Option<MsgState>) {
    if env.ante.None? then Some(MsgState(store, Infinite(0), []))
    else
      match env.ante.value(store, tx, Finalize)
      case AnteReturned(Some(meter), _, None, w) => Some(MsgState(View(store, w), meter, []))
      case AnteReturned(None, meter, None, w) => Some(MsgState(View(store, w), meter, []))
      case _ => None
  }

  /**
   The run of a transaction that succeeds, stage by stage: it decodes, its messages pass the checks,
   the ante handler passes, the mempool lets it go, every message does its work on the state its
   predecessor left, and the post handler, if there is one, passes on the last of these states.
   */
  predicate Succeeds(env: TxEnv, store: Store, raw: Bytes, states: seq<MsgState>) {
    env.decode(raw).Some? &&
    var tx := env.decode(raw).value;
    && tx.msgs != [] && |states| == |tx.msgs| + 1
    && (forall i :: 0 <= i < |tx.msgs| ==>
          && env.validateBasic(tx.msgs[i]) == PASSED && env.routed(tx.msgs[i]) == Returned(true)
          && Does(env, tx.msgs[i], states[i], states[i + 1]))
    && AfterAnteHandler(env, store, tx) == Some(states[0])
    && MessagesMayRun(env, tx)
    && var last := states[|tx.msgs|];
       && env.marshalData(last.replies) == PASSED
       && (env.post.Some? ==> env.post.value(last.store, last.meter, tx, Finalize, true).PostDone?)
  }

  /** The last state of the messages, and what the post handler makes of it. */
  predicate EndsWith(env: TxEnv, tx: Tx, last: MsgState, store: Store, meter: Meter) {
    if env.post.None? then store == last.store && meter == last.meter
    else
      var p := env.post.value(last.store, last.meter, tx, Finalize, true);
      p.PostDone? && store == View(last.store, p.writes) && meter == p.meter
  }

  lemma {:induction false} NoneInvalid(env: TxEnv, msgs: seq<Msg>)
    ensures FirstInvalid(env, msgs) == PASSED <==> forall i :: 0 <= i < |msgs| ==> env.validateBasic(msgs[i]) == PASSED
  {
    if msgs == [] {
    } else {
      NoneInvalid(env, msgs[1..]);
      assert msgs == [msgs[0]] + msgs[1..];
    }
  }

  lemma {:induction false} NoneUnrouted(env: TxEnv, msgs: seq<Msg>)
    ensures FirstUnrouted(env, msgs) == PASSED <==> forall i :: 0 <= i < |msgs| ==> env.routed(msgs[i]) == Returned(true)
  {
    if msgs == [] {
    } else {
      NoneUnrouted(env, msgs[1..]);
      assert msgs == [msgs[0]] + msgs[1..];
    }
  }

  /** The checks before the ante handler pass for a transaction with messages that all pass. */
  lemma PrecheckPasses(env: TxEnv, tx: Tx)
    ensures Precheck(env, tx) == PASSED <==>
            && tx.msgs != []
            && (forall i :: 0 <= i < |tx.msgs| ==> env.validateBasic(tx.msgs[i]) == PASSED)
            && (forall i :: 0 <= i < |tx.msgs| ==> env.routed(tx.msgs[i]) == Returned(true))
  {
    NoneInvalid(env, tx.msgs);
    NoneUnrouted(env, tx.msgs);
  }

  lemma AnteStageIs(env: TxEnv, store: Store, raw: Bytes)
    requires env.decode(raw).Some? && Precheck(env, env.decode(raw).value) == PASSED
    ensures
      var ante, tx := AnteStage(env, Finalize, store, raw), env.decode(raw).value;
      AfterAnteHandler(env, store, tx) ==
      if ante.None? then None else Some(MsgState(View(store, ante.value), AnteMeter(env, Finalize, store, raw), []))
  {
    hide View, Precheck;
    ViewNothing(store);
  }

  /** Messages that each do their work make a run to the end. */
  lemma {:induction false} RunGives(
    env: TxEnv, store: Store, out: Writes, meter: Meter, msgs: seq<Msg>, done: seq<string>, states: seq<MsgState>)
    requires |states| == |msgs| + 1 && states[0] == MsgState(View(store, out), meter, done)
    requires forall i :: 0 <= i < |msgs| ==> Does(env, msgs[i], states[i], states[i + 1])
    ensures
      var o, last := MsgsFrom(env, store, out, meter, msgs, done), states[|msgs|];
      && View(store, o.writes) == last.store && o.meter == last.meter
      && o.exit == CheckedExit(env.marshalData(last.replies), Responses(last.replies))
    decreases |msgs|
  {
    hide View, Merge;
    if msgs == [] {
    } else {
      OneMsgDoes(env, store, out, meter, msgs[0], done);
      var o := OneMsg(env, store, out, meter, msgs[0], done);
      assert Does(env, msgs[0], states[0], states[1]);
      forall i | 0 <= i < |msgs| - 1
        ensures Does(env, msgs[1..][i], states[1..][i], states[1..][i + 1])
      {
        assert Does(env, msgs[i + 1], states[i + 1], states[i + 2]);
      }
      RunGives(env, store, o.writes, o.meter, msgs[1..], o.exit.responses, states[1..]);
    }
  }

  /** The stages after the ante handler, from the states they go through. */
  lemma StagesSucceed(env: TxEnv, store: Store, tx: Tx, ante: Writes, meter: Meter, wanted: U64, o: MsgsOut, last: MsgState)
    requires MessagesMayRun(env, tx) && o == Msgs(env, Finalize, View(store, ante), meter, tx.msgs)
    requires o.exit == Responses(last.replies) && View(View(store, ante), o.writes) == last.store && o.meter == last.meter
    requires env.post.Some? ==> env.post.value(last.store, last.meter, tx, Finalize, true).PostDone?
    ensures
      var f := AfterAnte(env, Finalize, store, Noop, tx, ante, meter, wanted);
      f.exit == Return(Some(TxResult(last.replies)), None)
  {
    hide View, Merge, Msgs;
  }

  /** A transaction that passes every stage succeeds: its error is nil. */
  lemma SuccessIsReported(env: TxEnv, store: Store, raw: Bytes, states: seq<MsgState>)
    requires Succeeds(env, store, raw, states)
    ensures Run(env, Finalize, store, Noop, raw).error.None?
  {
    var tx := env.decode(raw).value;
    PrecheckPasses(env, tx);
    AnteStageIs(env, store, raw);
    hide View, Merge, Precheck, AfterAnte, Does;
    var ante, meter := AnteStage(env, Finalize, store, raw).value, AnteMeter(env, Finalize, store, raw);
    ViewNothing(View(store, ante));
    RunGives(env, View(store, ante), NO_WRITES, meter, tx.msgs, [], states);
    var o := Msgs(env, Finalize, View(store, ante), meter, tx.msgs);
    hide MsgsFrom;
    StagesSucceed(env, store, tx, ante, meter, if env.ante.None? then 0 else Limit(meter), o, states[|tx.msgs|]);
  }

  lemma MsgsEffect(env: TxEnv, store: Store, block: Meter, tx: Tx, ante: Writes, meter: Meter, wanted: U64)
    returns (states: seq<MsgState>)
    requires
      var o := Msgs(env, Finalize, View(store, ante), meter, tx.msgs);
      var f := AfterMsgs(env, Finalize, store, block, tx, ante, wanted, o);
      f.exit.Return? && f.exit.error.None?
    ensures
      var o := Msgs(env, Finalize, View(store, ante), meter, tx.msgs);
      var f := AfterMsgs(env, Finalize, store, block, tx, ante, wanted, o);
      && |states| == |tx.msgs| + 1 && states[0] == MsgState(View(store, ante), meter, [])
      && (forall i :: 0 <= i < |tx.msgs| ==> Does(env, tx.msgs[i], states[i], states[i + 1]))
      && env.marshalData(states[|tx.msgs|].replies) == PASSED
      && f.exit.result == Some(TxResult(states[|tx.msgs|].replies))
      && EndsWith(env, tx, states[|tx.msgs|], View(store, f.writes), f.meter)
  {
    var o := Msgs(env, Finalize, View(store, ante), meter, tx.msgs);
    AfterMsgsEffect(env, store, block, tx, ante, wanted, o);
    ViewNothing(View(store, ante));
    states := MsgsRun(env, View(store, ante), NO_WRITES, meter, tx.msgs, []);
    ViewMerged(store, ante, o.writes);
    if env.post.Some? {
      var p := env.post.value(View(View(store, ante), o.writes), o.meter, tx, Finalize, true);
      ViewMerged(store, ante, Merge(o.writes, p.writes));
      ViewMerged(View(store, ante), o.writes, p.writes);
    }
    hide View, Merge, AfterMsgs, MsgsFrom, Does, Stops;
  }

  /**
   A transaction whose error is nil went through every stage: the ante writes, then every message on
   the state its predecessor left, then the post handler on the last of these states. The branch
   shows exactly that, and the responses are the messages' replies in order.
   */
  lemma TxEffect(env: TxEnv, store: Store, block: Meter, raw: Bytes) returns (states: seq<MsgState>)
    requires Run(env, Finalize, store, block, raw).error.None?
    ensures Succeeds(env, store, raw, states)
    ensures
      var o, tx := Run(env, Finalize, store, block, raw), env.decode(raw).value;
      && o.result == Some(TxResult(states[|tx.msgs|].replies))
      && EndsWith(env, tx, states[|tx.msgs|], View(store, o.writes), o.meter)
  {
    NoErrorNoPanic(env, store, block, raw);
    BodyEffect(env, store, block, raw);
    hide Run, Body, RunTxChain;
    var f, tx := Body(env, Finalize, store, block, raw), env.decode(raw).value;
    PrecheckPasses(env, tx);
    AnteStageIs(env, store, raw);
    var ante, meter := AnteStage(env, Finalize, store, raw).value, AnteMeter(env, Finalize, store, raw);
    hide View, Merge, AfterMsgs, MsgsFrom, Does, Stops, AnteStage, AnteMeter, Precheck, AfterAnteHandler, MessagesMayRun;
    states := MsgsEffect(env, store, block, tx, ante, meter, if env.ante.None? then 0 else Limit(meter));
  }

  // ---------------------------------------------------------------- the block gas meter

  function RecoveredFrom(env: TxEnv, p: PanicValue): (e: Option<Error>) {
    FirstError([OutOfGasHandler] + Reversed(env.recovery) + [DefaultHandler], p)
  }

  /** The same body with a block meter and without one. */
  predicate SameBut(f: Frame, free: Frame, block: Meter, ante: Writes) {
    var g := ConsumedToLimit(free.meter);
    && f.meter == free.meter && f.wanted == free.wanted && f.charged == free.charged && free.block == Noop
    && (!f.charged ==> f == free.(block := block))
    && (f.charged ==> free.exit.Return? && f.block == Charge(block, g))
    && (f.charged && ChargePanic(block, g).None? ==> f == free.(block := f.block))
    && (f.charged && ChargePanic(block, g).Some? ==> f.exit == Panic(ChargePanic(block, g).value) && f.writes == ante)
  }

  lemma AfterMsgsFree(env: TxEnv, store: Store, block: Meter, tx: Tx, ante: Writes, wanted: U64, o: MsgsOut)
    ensures SameBut(AfterMsgs(env, Finalize, store, block, tx, ante, wanted, o),
                    AfterMsgs(env, Finalize, store, Noop, tx, ante, wanted, o), block, ante)
  {
    hide View, Merge, ConsumedToLimit, JoinErrors;
  }

  lemma AfterAnteFree(env: TxEnv, store: Store, block: Meter, tx: Tx, ante: Writes, meter: Meter, wanted: U64)
    ensures SameBut(AfterAnte(env, Finalize, store, block, tx, ante, meter, wanted),
                    AfterAnte(env, Finalize, store, Noop, tx, ante, meter, wanted), block, ante)
  {
    hide View, Merge, ConsumedToLimit, AfterMsgs, MsgStage;
    AfterMsgsFree(env, store, block, tx, ante, wanted, MsgStage(env, Finalize, View(store, ante), meter, tx));
  }

  lemma NoAnteSame(env: TxEnv, store: Store, block: Meter, raw: Bytes)
    requires AnteStage(env, Finalize, store, raw).None?
    ensures SameBut(Body(env, Finalize, store, block, raw), Body(env, Finalize, store, Noop, raw), block,
                    FirstStage(env, Finalize, store, raw))
  {
    hide View, Merge, ConsumedToLimit, AfterAnte, Precheck;
  }

  lemma BodyFree(env: TxEnv, store: Store, block: Meter, raw: Bytes)
    ensures SameBut(Body(env, Finalize, store, block, raw), Body(env, Finalize, store, Noop, raw), block,
                    FirstStage(env, Finalize, store, raw))
  {
    hide View, Merge, ConsumedToLimit, AfterAnte, Precheck, SameBut;
    var ante := AnteStage(env, Finalize, store, raw);
    if ante.Some? {
      var meter := AnteMeter(env, Finalize, store, raw);
      AfterAnteFree(env, store, block, env.decode(raw).value, ante.value, meter, if env.ante.None? then 0 else Limit(meter));
    } else {
      NoAnteSame(env, store, block, raw);
    }
  }

  /**
   How the block gas meter enters. A transaction that starts uses the gas it would use without a
   block meter, and the meter is charged with that. If the charge fits, nothing else differs from
   having no block meter; if not, the transaction fails and only its first stage lands.
   */
  lemma RunWithMeter(env: TxEnv, store: Store, block: Meter, raw: Bytes)
    requires !IsOutOfGas(block)
    ensures
      var o, free := Run(env, Finalize, store, block, raw), Run(env, Finalize, store, Noop, raw);
      var g := ConsumedToLimit(free.meter);
      && o.meter == free.meter && o.wanted == free.wanted && o.block == Charge(block, g)
      && (ChargePanic(block, g).None? ==> o == free.(block := o.block))
      && (ChargePanic(block, g).Some? ==>
            && o.error == RecoveredFrom(env, ChargePanic(block, g).value) && o.error.Some?
            && o.writes == FirstStage(env, Finalize, store, raw))
  {
    BodyFree(env, store, block, raw);
    TwoStageAtomicity(env, Finalize, store, block, raw);
    hide Body, View, Merge, ConsumedToLimit, RunTxChain, FirstStage, MsgAndPostWrites, AnteStage;
    var f, free := Body(env, Finalize, store, block, raw), Body(env, Finalize, store, Noop, raw);
    var g := ConsumedToLimit(free.meter);
    assert ChargeDeferred(Finalize, f).block == Charge(block, g);
    if ChargePanic(block, g).Some? {
      RecoveryOrder(env.recovery, ChargePanic(block, g).value);
      assert ChargeDeferred(Finalize, f).exit == Panic(ChargePanic(block, g).value);
    } else {
      assert ChargeDeferred(Finalize, f) == ChargeDeferred(Finalize, free).(block := Charge(block, g));
    }
  }

  // ---------------------------------------------------------------- what is reported

  function CheckError(env: TxEnv, c: Checked): (e: Option<Error>) {
    match c
    case Crashed(p) => RecoveredFrom(env, p)
    case Returned(error) => error
  }

  lemma AfterAnteKeepsWanted(env: TxEnv, mode: Mode, store: Store, raw: Bytes)
    ensures AnteStage(env, mode, store, raw).Some? ==>
              Body(env, mode, store, Noop, raw).wanted ==
              if env.ante.None? then 0 else Limit(AnteMeter(env, mode, store, raw))
  {
    hide View, Merge, Precheck, Msgs, PostStep;
  }

  /**
   Before the messages, the first thing that goes wrong decides the error, and the gas wanted is the
   limit of the meter the ante handler sets, once it has returned.
   */
  lemma EarlyFailures(env: TxEnv, mode: Mode, store: Store, raw: Bytes)
    ensures
      var o, tx := Run(env, mode, store, Noop, raw), env.decode(raw);
      if tx.None? then o.error == Some(ErrTxDecode) && o.wanted == 0
      else if Precheck(env, tx.value) != PASSED then
        o.error == CheckError(env, Precheck(env, tx.value)) && o.wanted == 0
      else if env.ante.None? then o.wanted == 0
      else
        match env.ante.value(store, tx.value, mode)
        case AnteCrashed(m, p) => o.error == RecoveredFrom(env, p) && o.wanted == 0 && o.meter == m
        case AnteReturned(newMeter, oldMeter, error, _) =>
          && o.wanted == Limit(if newMeter.Some? then newMeter.value else oldMeter)
          && (error.Some? && (!mode.ReCheck? || env.remove(tx.value).Removed?) ==> o.error == error)
  {
    hide View, Merge, AfterAnte, Precheck, RunTxChain, FirstError, ProcessRecovery;
    var f := Body(env, mode, store, Noop, raw);
    if f.exit.Panic? {
      RecoveryOrder(env.recovery, f.exit.value);
    }
    AfterAnteKeepsWanted(env, mode, store, raw);
  }

  /** How the error of the messages and the post handler's end become the error of the transaction. */
  function LateError(env: TxEnv, mode: Mode, base: Store, tx: Tx, o: MsgsOut): (e: Option<Error>) {
    if o.exit.MsgsPanic? then RecoveredFrom(env, o.exit.panic)
    else
      var failed := if o.exit.MsgsError? then Some(o.exit.error) else None;
      if env.post.None? then failed
      else
        match env.post.value(View(base, o.writes), o.meter, tx, mode, failed.None?)
        case PostDone(_, _) => failed
        case PostFailed(_, e) => Some(if failed.Some? then Joined(failed.value, e) else e)
        case PostCrashed(_, p) => RecoveredFrom(env, p)
  }

  function FrameError(env: TxEnv, f: Frame): (e: Option<Error>) {
    match f.exit
    case Panic(p) => RecoveredFrom(env, p)
    case Return(_, error) => error
  }

  lemma FreeError(env: TxEnv, mode: Mode, store: Store, raw: Bytes)
    ensures Run(env, mode, store, Noop, raw).error == FrameError(env, Body(env, mode, store, Noop, raw))
  {
    if mode.Finalize? {
      BodyFree(env, store, Noop, raw);
    }
    hide Body, RunTxChain, FirstError, ProcessRecovery, View, Merge;
    var f := Body(env, mode, store, Noop, raw);
    if f.exit.Panic? {
      RecoveryOrder(env.recovery, f.exit.value);
    }
  }

  lemma AfterMsgsError(env: TxEnv, mode: Mode, store: Store, tx: Tx, ante: Writes, wanted: U64, o: MsgsOut)
    ensures FrameError(env, AfterMsgs(env, mode, store, Noop, tx, ante, wanted, o)) ==
            LateError(env, mode, View(store, ante), tx, o)
  {
    hide View, Merge, FirstError;
  }

  /** The mempool takes the transaction in when it is checked, and lets it go when its block is finalized. */
  function PoolCall(env: TxEnv, mode: Mode, base: Store, meter: Meter, tx: Tx): (r: InsertResult) {
    if mode.Check? then env.insert(base, meter, tx)
    else if !mode.Finalize? || env.remove(tx).Removed? || env.remove(tx).NotFound? then InsertResult(NO_WRITES, meter, PASSED)
    else
      InsertResult(
        NO_WRITES, meter, if env.remove(tx).RemoveFailed? then Returned(Some(env.remove(tx).error)) else Crashed(env.remove(tx).panic))
  }

  function LateCause(env: TxEnv, mode: Mode, base: Store, meter: Meter, tx: Tx): (e: Option<Error>) {
    var pool := PoolCall(env, mode, base, meter, tx);
    if pool.exit != PASSED then CheckError(env, pool.exit)
    else
      var s := View(base, pool.writes);
      match env.msgsV2(tx)
      case Crashed(p) => RecoveredFrom(env, p)
      case Returned(Some(e)) => LateError(env, mode, s, tx, MsgsOut(NO_WRITES, pool.meter, MsgsError(e)))
      case Returned(None) => LateError(env, mode, s, tx, Msgs(env, mode, s, pool.meter, tx.msgs))
  }

  lemma MsgStageIs(env: TxEnv, mode: Mode, s: Store, meter: Meter, tx: Tx)
    ensures LateError(env, mode, s, tx, MsgStage(env, mode, s, meter, tx)) ==
            match env.msgsV2(tx)
            case Crashed(p) => RecoveredFrom(env, p)
            case Returned(Some(e)) => LateError(env, mode, s, tx, MsgsOut(NO_WRITES, meter, MsgsError(e)))
            case Returned(None) => LateError(env, mode, s, tx, Msgs(env, mode, s, meter, tx.msgs))
  {
    hide View, Merge, FirstError, Msgs;
  }

  lemma AfterAnteError(env: TxEnv, mode: Mode, store: Store, tx: Tx, ante: Writes, meter: Meter, wanted: U64)
    ensures FrameError(env, AfterAnte(env, mode, store, Noop, tx, ante, meter, wanted)) ==
            LateCause(env, mode, View(store, ante), meter, tx)
  {
    hide FirstError, Msgs, AfterMsgs, MsgStage, LateError;
    var base := View(store, ante);
    var pool := MempoolStep(env, mode, base, meter, tx);
    ViewMerged(store, ante, pool.writes);
    ViewNothing(base);
    var landed := if mode.Check? then Merge(ante, pool.writes) else ante;
    var s := View(store, landed);
    assert s == View(base, pool.writes);
    hide View, Merge;
    AfterMsgsError(env, mode, store, tx, landed, wanted, MsgStage(env, mode, s, pool.meter, tx));
    MsgStageIs(env, mode, s, pool.meter, tx);
  }

  /**
   After the ante handler, in every mode: the mempool call of the mode, messages that cannot be
   extracted, the first message that fails and the post handler decide the error, in this order; a
   post handler that fails after a failed message adds its error to the message's.
   */
  lemma LateFailures(env: TxEnv, mode: Mode, store: Store, raw: Bytes)
    requires AnteStage(env, mode, store, raw).Some?
    ensures Run(env, mode, store, Noop, raw).error ==
            LateCause(env, mode, View(store, AnteStage(env, mode, store, raw).value), AnteMeter(env, mode, store, raw),
                      env.decode(raw).value)
  {
    FreeError(env, mode, store, raw);
    var ante, meter := AnteStage(env, mode, store, raw).value, AnteMeter(env, mode, store, raw);
    AfterAnteError(env, mode, store, env.decode(raw).value, ante, meter, if env.ante.None? then 0 else Limit(meter));
    hide Run, View, Merge, Precheck, AfterAnte, LateCause, FrameError;
  }
}
