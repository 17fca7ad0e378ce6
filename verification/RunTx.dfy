/**
 `runTx`: one transaction in one of eight execution modes, with its nested store branches, its
 two deferred closures (charge the block meter, then recover from panics) and every error exit.
 Decoder, ante, message and post handlers, the mempool and the router are parameters.
 */
module RunTx {
  import opened Prelude
  import opened Stores
  import opened Gas
  import opened Recovery

  datatype Mode =
    | Check
    | ReCheck
    | Simulate
    | PrepareProposal
    | ProcessProposal
    | VoteExtension
    | VerifyVoteExtension
    | Finalize

  type Msg = string

  datatype Tx = Tx(msgs: seq<Msg>, body: string)

  /**
   What an ante handler does: the context it returns (with its gas meter, or the zero context),
   the state of the meter it was given, its error, and what it wrote to its branch; or a panic.
   */
  datatype AnteResult =
    | AnteReturned(newMeter: Option<Meter>, oldMeter: Meter, error: Option<Error>, writes: Writes)
    | AnteCrashed(oldMeter: Meter, panic: PanicValue)

  /** What a message handler returns besides its writes: nothing, a nil response, or a response. */
  datatype Reply = NoReply | NilReply | Reply(text: string)

  datatype MsgResult =
    | MsgDone(writes: Writes, meter: Meter, reply: Reply)
    | MsgFailed(writes: Writes, meter: Meter, error: Error)
    | MsgCrashed(meter: Meter, panic: PanicValue)

  datatype PostResult =
    | PostDone(writes: Writes, meter: Meter)
    | PostFailed(meter: Meter, error: Error)
    | PostCrashed(meter: Meter, panic: PanicValue)

  /** A call into code that is not shown: it returns, or it panics. */
  datatype Attempt<+T> = Returned(value: T) | Crashed(panic: PanicValue)

  /** An error check that may panic. */
  type Checked = Attempt<Option<Error>>

  const PASSED: Checked := Returned(None)

  /** `mempool.Insert` is given the context itself, so what it writes is protected by no branch. */
  datatype InsertResult = InsertResult(writes: Writes, meter: Meter, exit: Checked)

  datatype RemoveResult = Removed | NotFound | RemoveFailed(error: Error) | RemoveCrashed(panic: PanicValue)

  datatype TxEnv = TxEnv(
    decode: Bytes -> Option<Tx>,
    validateBasic: Msg -> Checked,
    routed: Msg -> Attempt<bool>,
    ante: Option<(Store, Tx, Mode) -> AnteResult>,
    insert: (Store, Meter, Tx) -> InsertResult,
    remove: Tx -> RemoveResult,
    msgsV2: Tx -> Checked,
    handle: (Store, Meter, Msg) -> MsgResult,
    events: Msg -> Checked,
    marshalData: seq<string> -> Checked,
    post: Option<(Store, Meter, Tx, Mode, bool) -> PostResult>,
    recovery: seq<RecoveryHandler>)

  datatype TxResult = TxResult(responses: seq<string>)

  datatype TxOutcome = TxOutcome(
    writes: Writes,           // what the transaction left in its mode's branch
    block: Meter,             // the block gas meter afterwards
    meter: Meter,             // the transaction's own gas meter
    wanted: U64,
    result: Option<TxResult>,
    error: Option<Error>)

  /** How the body of `runTx` ends, before the deferred closures. */
  datatype Exit = Return(result: Option<TxResult>, error: Option<Error>) | Panic(value: PanicValue)

  datatype Frame = Frame(exit: Exit, writes: Writes, meter: Meter, wanted: U64, block: Meter, charged: bool)

  const FRESH_METER: Meter := Infinite(0)

  // ---------------------------------------------------------------- messages

  function FirstInvalid(env: TxEnv, msgs: seq<Msg>): (c: Checked) {
    if msgs == [] then PASSED
    else
      var c := env.validateBasic(msgs[0]);
      if c != PASSED then c else FirstInvalid(env, msgs[1..])
  }

  function ValidateBasic(env: TxEnv, msgs: seq<Msg>): (c: Checked) {
    if msgs == [] then Returned(Some(ErrNoMessages)) else FirstInvalid(env, msgs)
  }

  function RouteCheck(env: TxEnv, msg: Msg): (c: Checked) {
    match env.routed(msg)
    case Crashed(p) => Crashed(p)
    case Returned(found) => Returned(if found then None else Some(ErrUnknownRequest))
  }

  function FirstUnrouted(env: TxEnv, msgs: seq<Msg>): (c: Checked) {
    if msgs == [] then PASSED
    else
      var c := RouteCheck(env, msgs[0]);
      if c != PASSED then c else FirstUnrouted(env, msgs[1..])
  }

  datatype MsgsExit = Responses(responses: seq<string>) | MsgsError(error: Error) | MsgsPanic(panic: PanicValue)

  datatype MsgsOut = MsgsOut(writes: Writes, meter: Meter, exit: MsgsExit)

  predicate Executes(mode: Mode) {
    mode.Finalize? || mode.Simulate?
  }

  function CheckedExit(c: Checked, passed: MsgsExit): (e: MsgsExit) {
    match c
    case Crashed(p) => MsgsPanic(p)
    case Returned(error) => if error.Some? then MsgsError(error.value) else passed
  }

  /** After the handler: its events, then its response. */
  function ReplyExit(env: TxEnv, msg: Msg, reply: Reply, done: seq<string>): (e: MsgsExit) {
    CheckedExit(env.events(msg),
                match reply
                case NoReply => Responses(done)
                case NilReply => MsgsError(ErrLogic)
                case Reply(text) => Responses(done + [text]))
  }

  /** One message on the state `out` leaves; `done` are the responses so far. */
  function OneMsg(env: TxEnv, store: Store, out: Writes, meter: Meter, msg: Msg, done: seq<string>): (o: MsgsOut) {
    var c := RouteCheck(env, msg);
    if c != PASSED then MsgsOut(out, meter, CheckedExit(c, Responses(done)))
    else
      match env.handle(View(store, out), meter, msg)
      case MsgDone(w, m, reply) => MsgsOut(Merge(out, w), m, ReplyExit(env, msg, reply, done))
      case MsgFailed(w, m, e) => MsgsOut(Merge(out, w), m, MsgsError(e))
      case MsgCrashed(m, p) => MsgsOut(out, m, MsgsPanic(p))
  }

  /** The messages in order, each on the state its predecessors left. */
  function MsgsFrom(env: TxEnv, store: Store, out: Writes, meter: Meter, msgs: seq<Msg>, done: seq<string>): (o: MsgsOut)
    decreases |msgs|
  {
    if msgs == [] then MsgsOut(out, meter, CheckedExit(env.marshalData(done), Responses(done)))
    else
      var o := OneMsg(env, store, out, meter, msgs[0], done);
      if !o.exit.Responses? then o else MsgsFrom(env, store, o.writes, o.meter, msgs[1..], o.exit.responses)
  }

  function Msgs(env: TxEnv, mode: Mode, store: Store, meter: Meter, msgs: seq<Msg>): (o: MsgsOut) {
    MsgsFrom(env, store, NO_WRITES, meter, if Executes(mode) then msgs else [], [])
  }

  /** A message has been handled: the state it was given and the state it leaves. */
  datatype MsgState = MsgState(store: Store, meter: Meter, replies: seq<string>)

  /** `msg`, run on `a`, succeeds and leaves `b`. */
  predicate Does(env: TxEnv, msg: Msg, a: MsgState, b: MsgState) {
    var r := env.handle(a.store, a.meter, msg);
    && env.routed(msg) == Returned(true) && r.MsgDone? && env.events(msg) == PASSED && !r.reply.NilReply?
    && b == MsgState(View(a.store, r.writes), r.meter, a.replies + if r.reply.Reply? then [r.reply.text] else [])
  }

  /** `msg`, run on `a`, ends the transaction's messages with `exit`. */
  predicate Stops(env: TxEnv, msg: Msg, a: MsgState, exit: MsgsExit) {
    match env.routed(msg)
    case Crashed(p) => exit == MsgsPanic(p)
    case Returned(false) => exit == MsgsError(ErrUnknownRequest)
    case Returned(true) =>
      match env.handle(a.store, a.meter, msg)
      case MsgFailed(_, _, e) => exit == MsgsError(e)
      case MsgCrashed(_, p) => exit == MsgsPanic(p)
      case MsgDone(_, _, reply) =>
        match env.events(msg)
        case Crashed(p) => exit == MsgsPanic(p)
        case Returned(Some(e)) => exit == MsgsError(e)
        case Returned(None) => reply.NilReply? && exit == MsgsError(ErrLogic)
  }

  /**
   The messages ran one after the other, each on the state its predecessor left, up to the first
   that stops, or to the end, where the replies in order are the responses.
   */
  predicate RanInOrder(env: TxEnv, start: MsgState, msgs: seq<Msg>, states: seq<MsgState>, store: Store, o: MsgsOut) {
    && 0 < |states| <= |msgs| + 1 && states[0] == start
    && (forall i :: 0 <= i < |states| - 1 ==> Does(env, msgs[i], states[i], states[i + 1]))
    && var k := |states| - 1;
       if k < |msgs| then Stops(env, msgs[k], states[k], o.exit)
       else
         && View(store, o.writes) == states[k].store && o.meter == states[k].meter
         && match env.marshalData(states[k].replies)
            case Crashed(p) => o.exit == MsgsPanic(p)
            case Returned(Some(e)) => o.exit == MsgsError(e)
            case Returned(None) => o.exit == Responses(states[k].replies)
  }

  lemma OneMsgDoes(env: TxEnv, store: Store, out: Writes, meter: Meter, msg: Msg, done: seq<string>)
    ensures
      var a := MsgState(View(store, out), meter, done);
      var o := OneMsg(env, store, out, meter, msg, done);
      if o.exit.Responses? then Does(env, msg, a, MsgState(View(store, o.writes), o.meter, o.exit.responses))
      else Stops(env, msg, a, o.exit)
  {
    var r := env.handle(View(store, out), meter, msg);
    if r.MsgDone? {
      ViewMerged(store, out, r.writes);
    }
    hide View, Merge;
  }

  /** The overlay of writes that `runMsgs` works with is a run in order. */
  lemma {:induction false} MsgsRun(env: TxEnv, store: Store, out: Writes, meter: Meter, msgs: seq<Msg>, done: seq<string>)
    returns (states: seq<MsgState>)
    ensures RanInOrder(env, MsgState(View(store, out), meter, done), msgs, states, store,
                       MsgsFrom(env, store, out, meter, msgs, done))
    decreases |msgs|
  {
    hide View, Merge, OneMsg, Does, Stops;
    var start := MsgState(View(store, out), meter, done);
    if msgs == [] {
      states := [start];
    } else {
      OneMsgDoes(env, store, out, meter, msgs[0], done);
      var o := OneMsg(env, store, out, meter, msgs[0], done);
      if o.exit.Responses? {
        var rest := MsgsRun(env, store, o.writes, o.meter, msgs[1..], o.exit.responses);
        states := [start] + rest;
        forall i | 0 <= i < |states| - 1
          ensures Does(env, msgs[i], states[i], states[i + 1])
        {
          if i > 0 {
            assert Does(env, msgs[1..][i - 1], rest[i - 1], rest[i]);
          }
        }
      } else {
        states := [start];
      }
    }
  }

  /** A run in order is unique: it is what the messages do. */
  lemma {:induction false} RunIsUnique(
    env: TxEnv, start: MsgState, msgs: seq<Msg>, a: seq<MsgState>, b: seq<MsgState>, store: Store, o: MsgsOut, o': MsgsOut, i: nat)
    requires RanInOrder(env, start, msgs, a, store, o) && RanInOrder(env, start, msgs, b, store, o')
    requires i < |a| && i < |b|
    ensures a[i] == b[i]
  {
    hide View, Stops;
    if i == 0 {
    } else {
      RunIsUnique(env, start, msgs, a, b, store, o, o', i - 1);
      assert Does(env, msgs[i - 1], a[i - 1], a[i]) && Does(env, msgs[i - 1], b[i - 1], b[i]);
    }
  }

  method RunMsgs(env: TxEnv, mode: Mode, store: Store, meter: Meter, msgs: seq<Msg>) returns (o: MsgsOut)
    ensures o == Msgs(env, mode, store, meter, msgs)
    ensures
      var run := if mode.Finalize? || mode.Simulate? then msgs else [];
      exists states: seq<MsgState> :: RanInOrder(env, MsgState(store, meter, []), run, states, store, o)
  {
    hide View, Merge;
    ViewNothing(store);
    ghost var states := MsgsRun(env, store, NO_WRITES, meter, if mode.Finalize? || mode.Simulate? then msgs else [], []);
    var out, m, done := NO_WRITES, meter, [];
    if Executes(mode) {
      for i := 0 to |msgs|
        invariant MsgsFrom(env, store, out, m, msgs[i..], done) == Msgs(env, mode, store, meter, msgs)
      {
        assert msgs[i..][1..] == msgs[i + 1..];
        match env.routed(msgs[i]) {
          case Crashed(p) => return MsgsOut(out, m, MsgsPanic(p));
          case Returned(found) =>
            if !found {
              return MsgsOut(out, m, MsgsError(ErrUnknownRequest));
            }
        }
        var reply;
        match env.handle(View(store, out), m, msgs[i]) {
          case MsgDone(w, m', r) => out, m, reply := Merge(out, w), m', r;
          case MsgFailed(w, m', e) => return MsgsOut(Merge(out, w), m', MsgsError(e));
          case MsgCrashed(m', p) => return MsgsOut(out, m', MsgsPanic(p));
        }
        match env.events(msgs[i]) {
          case Crashed(p) => return MsgsOut(out, m, MsgsPanic(p));
          case Returned(error) =>
            if error.Some? {
              return MsgsOut(out, m, MsgsError(error.value));
            }
        }
        if reply.NilReply? {
          return MsgsOut(out, m, MsgsError(ErrLogic));
        } else if reply.Reply? {
          done := done + [reply.text];
        }
      }
    }
    o := MsgsOut(out, m, CheckedExit(env.marshalData(done), Responses(done)));
  }

  // ---------------------------------------------------------------- the body of runTx

  function JoinErrors(first: Option<Error>, second: Error): (e: Error) {
    if first.Some? then Joined(first.value, second) else second
  }

  /** Charge the block meter while the message branch is still unwritten, then write it. */
  function Conclude(
    mode: Mode, block: Meter, ante: Writes, msgs: Writes, meter: Meter, wanted: U64,
    result: Option<TxResult>, error: Option<Error>): (f: Frame)
  {
    if error.Some? || !mode.Finalize? then
      Frame(Return(result, error), ante, meter, wanted, block, false)
    else
      var amount := ConsumedToLimit(meter);
      var panic := ChargePanic(block, amount);
      if panic.Some? then
        Frame(Panic(panic.value), ante, meter, wanted, Charge(block, amount), true)
      else
        Frame(Return(result, None), Merge(ante, msgs), meter, wanted, Charge(block, amount), true)
  }

  /** The post handler runs on the message branch, told whether the messages succeeded. */
  function PostStep(env: TxEnv, mode: Mode, store: Store, ante: Writes, o: MsgsOut, tx: Tx): (r: PostResult) {
    if env.post.None? then PostDone(NO_WRITES, o.meter)
    else env.post.value(View(View(store, ante), o.writes), o.meter, tx, mode, o.exit.Responses?)
  }

  function AfterMsgs(
    env: TxEnv, mode: Mode, store: Store, block: Meter, tx: Tx, ante: Writes, wanted: U64, o: MsgsOut): (f: Frame)
  {
    if o.exit.MsgsPanic? then
      Frame(Panic(o.exit.panic), ante, o.meter, wanted, block, false)
    else
      var error := if o.exit.MsgsError? then Some(o.exit.error) else None;
      var result := if o.exit.Responses? then Some(TxResult(o.exit.responses)) else None;
      match PostStep(env, mode, store, ante, o, tx)
      case PostCrashed(m, p) => Frame(Panic(p), ante, m, wanted, block, false)
      case PostFailed(m, e) => Frame(Return(None, Some(JoinErrors(error, e))), ante, m, wanted, block, false)
      case PostDone(w, m) =>
        if env.post.None? then Conclude(mode, block, ante, o.writes, m, wanted, result, error)
        else
          var result' := if result.None? then Some(TxResult([])) else result;
          Conclude(mode, block, ante, Merge(o.writes, w), m, wanted, result', error)
  }

  /** The mempool call of the mode: what it wrote, the meter, and how it ended. */
  function MempoolStep(env: TxEnv, mode: Mode, store: Store, meter: Meter, tx: Tx): (r: InsertResult) {
    if mode.Check? then env.insert(store, meter, tx)
    else if mode.Finalize? then
      match env.remove(tx)
      case RemoveFailed(e) => InsertResult(NO_WRITES, meter, Returned(Some(e)))
      case RemoveCrashed(p) => InsertResult(NO_WRITES, meter, Crashed(p))
      case _ => InsertResult(NO_WRITES, meter, PASSED)
    else InsertResult(NO_WRITES, meter, PASSED)
  }

  function MsgStage(env: TxEnv, mode: Mode, store: Store, meter: Meter, tx: Tx): (o: MsgsOut) {
    var v2 := env.msgsV2(tx);
    if v2 != PASSED then MsgsOut(NO_WRITES, meter, CheckedExit(v2, Responses([])))
    else Msgs(env, mode, store, meter, tx.msgs)
  }

  function CheckedReturn(c: Checked): (e: Exit) {
    match c
    case Crashed(p) => Panic(p)
    case Returned(error) => Return(None, error)
  }

  function AfterAnte(
    env: TxEnv, mode: Mode, store: Store, block: Meter, tx: Tx, ante: Writes, meter: Meter, wanted: U64): (f: Frame)
  {
    var pool := MempoolStep(env, mode, View(store, ante), meter, tx);
    var landed := if mode.Check? then Merge(ante, pool.writes) else ante;
    if pool.exit != PASSED then
      Frame(CheckedReturn(pool.exit), landed, pool.meter, wanted, block, false)
    else
      AfterMsgs(env, mode, store, block, tx, landed, wanted, MsgStage(env, mode, View(store, landed), pool.meter, tx))
  }

  function Precheck(env: TxEnv, tx: Tx): (c: Checked) {
    var c := ValidateBasic(env, tx.msgs);
    if c != PASSED then c else FirstUnrouted(env, tx.msgs)
  }

  /** A failed ante handler; on recheck the transaction is also removed from the mempool. */
  function AnteFailure(env: TxEnv, mode: Mode, tx: Tx, error: Error): (e: Exit) {
    if !mode.ReCheck? then Return(None, Some(error))
    else
      match env.remove(tx)
      case Removed => Return(None, Some(error))
      case NotFound => Return(None, Some(Joined(error, AppError("tx not found in mempool"))))
      case RemoveFailed(e) => Return(None, Some(Joined(error, e)))
      case RemoveCrashed(p) => Panic(p)
  }

  function Body(env: TxEnv, mode: Mode, store: Store, block: Meter, raw: Bytes): (f: Frame) {
    var tx := env.decode(raw);
    if tx.None? then
      Frame(Return(None, Some(ErrTxDecode)), NO_WRITES, FRESH_METER, 0, block, false)
    else
      var c := Precheck(env, tx.value);
      if c != PASSED then
        Frame(CheckedReturn(c), NO_WRITES, FRESH_METER, 0, block, false)
      else if env.ante.None? then
        AfterAnte(env, mode, store, block, tx.value, NO_WRITES, FRESH_METER, 0)
      else
        match env.ante.value(store, tx.value, mode)
        case AnteCrashed(m, p) => Frame(Panic(p), NO_WRITES, m, 0, block, false)
        case AnteReturned(newMeter, oldMeter, error, w) =>
          var meter := if newMeter.Some? then newMeter.value else oldMeter;
          if error.Some? then
            Frame(AnteFailure(env, mode, tx.value, error.value), NO_WRITES, meter, Limit(meter), block, false)
          else
            AfterAnte(env, mode, store, block, tx.value, w, meter, Limit(meter))
  }

  /** First deferred closure: charge the block meter unless the body already did. */
  function ChargeDeferred(mode: Mode, f: Frame): (r: Frame) {
    if !mode.Finalize? || f.charged then f
    else
      var amount := ConsumedToLimit(f.meter);
      var panic := ChargePanic(f.block, amount);
      f.(block := Charge(f.block, amount), charged := true,
         exit := if panic.Some? then Panic(panic.value) else f.exit)
  }

  /** Second deferred closure: recover. */
  function Recovered(env: TxEnv, f: Frame): (o: TxOutcome) {
    match f.exit
    case Panic(p) =>
      TxOutcome(f.writes, f.block, f.meter, f.wanted, None, ProcessRecovery(p, RunTxChain(env.recovery)))
    case Return(result, error) =>
      TxOutcome(f.writes, f.block, f.meter, f.wanted, result, error)
  }

  predicate Starts(mode: Mode, block: Meter) {
    !(mode.Finalize? && IsOutOfGas(block))
  }

  function Run(env: TxEnv, mode: Mode, store: Store, block: Meter, raw: Bytes): (o: TxOutcome) {
    if !Starts(mode, block) then
      TxOutcome(NO_WRITES, block, FRESH_METER, 0, None, Some(ErrOutOfGas))
    else
      Recovered(env, ChargeDeferred(mode, Body(env, mode, store, block, raw)))
  }

  /** The checks before the ante handler: basic validation, then a handler for every message. */
  method PrecheckTx(env: TxEnv, tx: Tx) returns (c: Checked)
    ensures c == Precheck(env, tx)
  {
    if |tx.msgs| == 0 {
      return Returned(Some(ErrNoMessages));
    }
    for i := 0 to |tx.msgs|
      invariant FirstInvalid(env, tx.msgs[i..]) == FirstInvalid(env, tx.msgs)
    {
      c := env.validateBasic(tx.msgs[i]);
      if c != PASSED {
        return;
      }
    }
    for i := 0 to |tx.msgs|
      invariant FirstUnrouted(env, tx.msgs[i..]) == FirstUnrouted(env, tx.msgs)
    {
      match env.routed(tx.msgs[i]) {
        case Crashed(p) => return Crashed(p);
        case Returned(found) =>
          if !found {
            return Returned(Some(ErrUnknownRequest));
          }
      }
    }
    c := PASSED;
  }

  method RunTxCommit(
    mode: Mode, block: Meter, ante: Writes, branch: Writes, meter: Meter, wanted: U64,
    result: Option<TxResult>, error: Option<Error>) returns (f: Frame)
    ensures f == Conclude(mode, block, ante, branch, meter, wanted, result, error)
  {
    var landed, blockMeter, charged := ante, block, false;
    if error.None? && mode.Finalize? {
      var amount := ConsumedToLimit(meter);
      var panic := ChargePanic(blockMeter, amount);
      blockMeter, charged := Charge(blockMeter, amount), true;
      if panic.Some? {
        return Frame(Panic(panic.value), landed, meter, wanted, blockMeter, charged);
      }
      landed := Merge(landed, branch);
    }
    f := Frame(Return(result, error), landed, meter, wanted, blockMeter, charged);
  }

  method RunTxTail(
    env: TxEnv, mode: Mode, store: Store, block: Meter, tx: Tx, ante: Writes, wanted: U64, msgsOut: MsgsOut)
    returns (f: Frame)
    ensures f == AfterMsgs(env, mode, store, block, tx, ante, wanted, msgsOut)
  {
    hide View, Merge, Conclude, JoinErrors;
    var branch, meter := msgsOut.writes, msgsOut.meter;
    var error: Option<Error>, result: Option<TxResult> := None, None;
    match msgsOut.exit {
      case MsgsPanic(p) => return Frame(Panic(p), ante, meter, wanted, block, false);
      case MsgsError(e) => error := Some(e);
      case Responses(rs) => result := Some(TxResult(rs));
    }
    if env.post.Some? {
      match PostStep(env, mode, store, ante, msgsOut, tx) {
        case PostCrashed(m, p) => return Frame(Panic(p), ante, m, wanted, block, false);
        case PostFailed(m, e) =>
          return Frame(Return(None, Some(JoinErrors(error, e))), ante, m, wanted, block, false);
        case PostDone(w, m) => branch, meter := Merge(branch, w), m;
      }
      if result.None? {
        result := Some(TxResult([]));
      }
    }
    f := RunTxCommit(mode, block, ante, branch, meter, wanted, result, error);
  }

  method RunTxMiddle(
    env: TxEnv, mode: Mode, store: Store, block: Meter, tx: Tx, ante: Writes, meter: Meter, wanted: U64)
    returns (f: Frame)
    ensures f == AfterAnte(env, mode, store, block, tx, ante, meter, wanted)
  {
    hide View, Merge, AfterMsgs, Msgs, RanInOrder;
    var landed, m := ante, meter;
    if mode.Check? {
      var pool := env.insert(View(store, ante), meter, tx);
      landed, m := Merge(ante, pool.writes), pool.meter;
      if pool.exit != PASSED {
        return Frame(CheckedReturn(pool.exit), landed, m, wanted, block, false);
      }
    } else if mode.Finalize? {
      match env.remove(tx) {
        case RemoveFailed(e) => return Frame(Return(None, Some(e)), landed, m, wanted, block, false);
        case RemoveCrashed(p) => return Frame(Panic(p), landed, m, wanted, block, false);
        case _ =>
      }
    }
    var msgsOut: MsgsOut;
    var v2 := env.msgsV2(tx);
    if v2 == PASSED {
      msgsOut := RunMsgs(env, mode, View(store, landed), m, tx.msgs);
    } else {
      msgsOut := MsgsOut(NO_WRITES, m, CheckedExit(v2, Responses([])));
    }
    f := RunTxTail(env, mode, store, block, tx, landed, wanted, msgsOut);
  }

  method RunTxBody(env: TxEnv, mode: Mode, store: Store, block: Meter, raw: Bytes) returns (f: Frame)
    ensures f == Body(env, mode, store, block, raw)
  {
    hide View, Merge, AfterAnte, Precheck;
    var meter, wanted, landed := FRESH_METER, 0, NO_WRITES;
    var decoded := env.decode(raw);
    if decoded.None? {
      return Frame(Return(None, Some(ErrTxDecode)), landed, meter, wanted, block, false);
    }
    var tx := decoded.value;
    var c := PrecheckTx(env, tx);
    if c != PASSED {
      return Frame(CheckedReturn(c), landed, meter, wanted, block, false);
    }
    if env.ante.Some? {
      match env.ante.value(store, tx, mode) {
        case AnteCrashed(m, p) =>
          return Frame(Panic(p), landed, m, wanted, block, false);
        case AnteReturned(newMeter, oldMeter, error, w) =>
          meter := if newMeter.Some? then newMeter.value else oldMeter;
          wanted := Limit(meter);
          if error.Some? {
            var exit := AnteFailure(env, mode, tx, error.value);
            return Frame(exit, landed, meter, wanted, block, false);
          }
          landed := w;
      }
    }
    f := RunTxMiddle(env, mode, store, block, tx, landed, meter, wanted);
  }

  // ---------------------------------------------------------------- what runTx guarantees

  /** The writes of the ante stage, if that stage passes. Defined without `Run` or `Body`. */
  function AnteStage(env: TxEnv, mode: Mode, store: Store, raw: Bytes): (w: Option<Writes>) {
    var tx := env.decode(raw);
    if tx.None? || Precheck(env, tx.value) != PASSED then None
    else if env.ante.None? then Some(NO_WRITES)
    else
      var a := env.ante.value(store, tx.value, mode);
      if a.AnteReturned? && a.error.None? then Some(a.writes) else None
  }

  /** The gas meter the ante stage hands on. */
  function AnteMeter(env: TxEnv, mode: Mode, store: Store, raw: Bytes): (m: Meter)
    requires AnteStage(env, mode, store, raw).Some?
  {
    if env.ante.None? then FRESH_METER
    else
      var a := env.ante.value(store, env.decode(raw).value, mode);
      if a.newMeter.Some? then a.newMeter.value else a.oldMeter
  }

  /** What stays in the branch when the messages do not land: the ante writes, and in check mode the mempool's. */
  function FirstStage(env: TxEnv, mode: Mode, store: Store, raw: Bytes): (w: Writes) {
    var ante := AnteStage(env, mode, store, raw);
    if ante.None? then NO_WRITES
    else if mode.Check? then
      Merge(ante.value, env.insert(View(store, ante.value), AnteMeter(env, mode, store, raw), env.decode(raw).value).writes)
    else ante.value
  }

  /** What the messages and the post handler together write in finalize mode, on top of the ante writes. */
  function MsgAndPostWrites(env: TxEnv, store: Store, raw: Bytes): (w: Writes)
    requires AnteStage(env, Finalize, store, raw).Some?
  {
    var tx := env.decode(raw).value;
    var base := View(store, AnteStage(env, Finalize, store, raw).value);
    var o := Msgs(env, Finalize, base, AnteMeter(env, Finalize, store, raw), tx.msgs);
    if env.post.None? then o.writes
    else
      var p := env.post.value(View(base, o.writes), o.meter, tx, Finalize, true);
      if p.PostDone? then Merge(o.writes, p.writes) else o.writes
  }

  /**
   All or nothing, in two stages. In finalize mode the branch ends with the ante, message and
   post writes exactly when the returned error is nil; otherwise it ends with the ante writes
   if the ante stage passed and with nothing if it did not, wherever the error or the panic came
   from. In every other mode no message or post write lands. A nil error always has a result.
   */
  predicate TwoStages(env: TxEnv, mode: Mode, store: Store, block: Meter, raw: Bytes, o: TxOutcome) {
    && (o.error.None? ==> o.result.Some? && AnteStage(env, mode, store, raw).Some?)
    && (mode.Finalize? && o.error.None? ==>
          o.writes == Merge(FirstStage(env, mode, store, raw), MsgAndPostWrites(env, store, raw)))
    && (!mode.Finalize? || o.error.Some? ==>
          o.writes == if Starts(mode, block) then FirstStage(env, mode, store, raw) else NO_WRITES)
  }

  /**
   A transaction that starts in finalize mode charges the block meter once, with the gas its own
   meter shows, on every exit; its message writes land only if that charge fits. A transaction
   that does not start, or runs in another mode, charges nothing.
   */
  predicate OneCharge(mode: Mode, block: Meter, o: TxOutcome) {
    && (mode.Finalize? && Starts(mode, block) ==> o.block == Charge(block, ConsumedToLimit(o.meter)))
    && (mode.Finalize? && o.error.None? ==> Starts(mode, block) && ChargePanic(block, ConsumedToLimit(o.meter)).None?)
    && (!mode.Finalize? || !Starts(mode, block) ==> o.block == block)
  }

  /** What the rest of `runTx` guarantees about its frame once the writes `ante` have landed. */
  predicate FrameOk(f: Frame, mode: Mode, block: Meter, ante: Writes, full: Writes) {
    && (f.exit.Return? && f.exit.error.None? ==> f.exit.result.Some?)
    && (f.charged ==> mode.Finalize? && f.block == Charge(block, ConsumedToLimit(f.meter)))
    && (f.charged ==> (f.exit.Panic? <==> ChargePanic(block, ConsumedToLimit(f.meter)).Some?))
    && (f.charged && f.exit.Return? <==> mode.Finalize? && f.exit.Return? && f.exit.error.None?)
    && (f.charged && f.exit.Return? ==> f.writes == full)
    && (!(f.charged && f.exit.Return?) ==> f.writes == ante)
    && (!f.charged ==> f.block == block)
  }

  lemma AfterMsgsOk(
    env: TxEnv, mode: Mode, store: Store, block: Meter, tx: Tx, ante: Writes, wanted: U64, o: MsgsOut)
    ensures
      var p := PostStep(env, mode, store, ante, o, tx);
      var full := Merge(ante, if env.post.Some? && p.PostDone? then Merge(o.writes, p.writes) else o.writes);
      FrameOk(AfterMsgs(env, mode, store, block, tx, ante, wanted, o), mode, block, ante, full)
  {
    hide View, Merge;
  }

  lemma AfterAnteOk(
    env: TxEnv, mode: Mode, store: Store, block: Meter, tx: Tx, ante: Writes, meter: Meter, wanted: U64)
    ensures
      var landed := if mode.Check? then Merge(ante, env.insert(View(store, ante), meter, tx).writes) else ante;
      var o := Msgs(env, mode, View(store, landed), meter, tx.msgs);
      var p := PostStep(env, mode, store, landed, o.(exit := Responses([])), tx);
      var full := Merge(landed, if env.post.Some? && p.PostDone? then Merge(o.writes, p.writes) else o.writes);
      var f := AfterAnte(env, mode, store, block, tx, ante, meter, wanted);
      FrameOk(f, mode, block, landed, if mode.Finalize? then full else f.writes)
  {
    hide View, Merge, Msgs;
    var pool := MempoolStep(env, mode, View(store, ante), meter, tx);
    var landed := if mode.Check? then Merge(ante, pool.writes) else ante;
    AfterMsgsOk(env, mode, store, block, tx, landed, wanted, MsgStage(env, mode, View(store, landed), pool.meter, tx));
  }

  lemma BodyOk(env: TxEnv, mode: Mode, store: Store, block: Meter, raw: Bytes)
    ensures
      var f := Body(env, mode, store, block, raw);
      var ante := AnteStage(env, mode, store, raw);
      && (ante.Some? ==>
            FrameOk(f, mode, block, FirstStage(env, mode, store, raw),
                    if mode.Finalize? then Merge(ante.value, MsgAndPostWrites(env, store, raw)) else f.writes))
      && (ante.None? ==>
            f.writes == NO_WRITES && f.block == block && !f.charged && (f.exit.Return? ==> f.exit.error.Some?))
  {
    hide View, Merge, AfterMsgs, FrameOk, Msgs, AfterAnte, Precheck;
    if AnteStage(env, mode, store, raw).Some? {
      var tx := env.decode(raw).value;
      var ante := AnteStage(env, mode, store, raw).value;
      var meter := AnteMeter(env, mode, store, raw);
      var wanted := if env.ante.None? then 0 else Limit(meter);
      assert Body(env, mode, store, block, raw) == AfterAnte(env, mode, store, block, tx, ante, meter, wanted);
      AfterAnteOk(env, mode, store, block, tx, ante, meter, wanted);
    }
  }

  /** Over every error and panic point of `runTx`, in every mode. */
  lemma TwoStageAtomicity(env: TxEnv, mode: Mode, store: Store, block: Meter, raw: Bytes)
    ensures TwoStages(env, mode, store, block, raw, Run(env, mode, store, block, raw))
  {
    assert AnteStage(env, mode, store, raw).None? ==> FirstStage(env, mode, store, raw) == NO_WRITES;
    assert mode.Finalize? && AnteStage(env, mode, store, raw).Some? ==>
        FirstStage(env, mode, store, raw) == AnteStage(env, mode, store, raw).value;
    hide View, Merge, Body, AnteStage, FirstStage, MsgAndPostWrites;
    BodyOk(env, mode, store, block, raw);
    var f := ChargeDeferred(mode, Body(env, mode, store, block, raw));
    if f.exit.Panic? {
      RecoveryOrder(env.recovery, f.exit.value);
    }
  }

  /** The charge, over the same points. */
  lemma ChargedOnce(env: TxEnv, mode: Mode, store: Store, block: Meter, raw: Bytes)
    ensures OneCharge(mode, block, Run(env, mode, store, block, raw))
  {
    hide View, Merge, Body, AnteStage, FirstStage, MsgAndPostWrites;
    BodyOk(env, mode, store, block, raw);
    var f := ChargeDeferred(mode, Body(env, mode, store, block, raw));
    if f.exit.Panic? {
      RecoveryOrder(env.recovery, f.exit.value);
    }
  }

  /** `runTx` as written: the guard on block gas, the body, then the deferred closures in stack order. */
  method RunTx(env: TxEnv, mode: Mode, store: Store, block: Meter, raw: Bytes) returns (o: TxOutcome)
    ensures o == Run(env, mode, store, block, raw)
    ensures TwoStages(env, mode, store, block, raw, o) && OneCharge(mode, block, o)
  {
    hide TwoStages, OneCharge, Body;
    TwoStageAtomicity(env, mode, store, block, raw);
    ChargedOnce(env, mode, store, block, raw);
    if mode.Finalize? && IsOutOfGas(block) {
      return TxOutcome(NO_WRITES, block, FRESH_METER, 0, None, Some(ErrOutOfGas));
    }
    var f := RunTxBody(env, mode, store, block, raw);
    var blockMeter, exit := f.block, f.exit;
    if mode.Finalize? && !f.charged {
      var amount := ConsumedToLimit(f.meter);
      var panic := ChargePanic(blockMeter, amount);
      blockMeter := Charge(blockMeter, amount);
      if panic.Some? {
        exit := Panic(panic.value);
      }
    }
    match exit {
      case Panic(p) =>
        o := TxOutcome(f.writes, blockMeter, f.meter, f.wanted, None, ProcessRecovery(p, RunTxChain(env.recovery)));
      case Return(result, error) =>
        o := TxOutcome(f.writes, blockMeter, f.meter, f.wanted, result, error);
    }
  }
}
