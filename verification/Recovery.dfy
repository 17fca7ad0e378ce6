/** Panic recovery for `runTx`: a chain of middlewares, each of which may turn a panic into an error. */
module Recovery {
  import opened Prelude
  import opened Gas

  datatype Error =
    | ErrOutOfGas
    | ErrPanic
    | ErrTxDecode
    | ErrNoMessages
    | ErrUnknownRequest
    | ErrHalt
    | ErrInvalidHeight
    | ErrCancelled
    | ErrLogic
    | AppError(text: string)
    | Joined(first: Error, second: Error)

  type RecoveryHandler = PanicValue -> Option<Error>

  datatype Middleware = NoMiddleware | Middleware(handler: RecoveryHandler, next: Middleware)

  function ProcessRecovery(r: PanicValue, mw: Middleware): (e: Option<Error>) {
    match mw
    case NoMiddleware => None
    case Middleware(handler, next) =>
      var err := handler(r);
      if err.Some? then err else ProcessRecovery(r, next)
  }

  function OutOfGasHandler(r: PanicValue): (e: Option<Error>) {
    if r.OutOfGasPanic? then Some(ErrOutOfGas) else None
  }

  function DefaultHandler(r: PanicValue): (e: Option<Error>) {
    Some(ErrPanic)
  }

  function DefaultMiddleware(): (mw: Middleware) {
    Middleware(DefaultHandler, NoMiddleware)
  }

  function OutOfGasMiddleware(next: Middleware): (mw: Middleware) {
    Middleware(OutOfGasHandler, next)
  }

  /** `AddRunTxRecoveryHandler`: every handler is put in front of the chain built so far. */
  function Installed(handlers: seq<RecoveryHandler>, mw: Middleware): (r: Middleware) {
    if handlers == [] then mw
    else Installed(handlers[1..], Middleware(handlers[0], mw))
  }

  method AddRunTxRecoveryHandler(handlers: seq<RecoveryHandler>, mw: Middleware) returns (r: Middleware)
    ensures r == Installed(handlers, mw)
  {
    r := mw;
    for i := 0 to |handlers|
      invariant Installed(handlers[i..], r) == Installed(handlers, mw)
    {
      r := Middleware(handlers[i], r);
    }
  }

  /** The error of the first handler in the list that accepts the panic. */
  function FirstError(handlers: seq<RecoveryHandler>, r: PanicValue): (e: Option<Error>) {
    if handlers == [] then None
    else
      var err := handlers[0](r);
      if err.Some? then err else FirstError(handlers[1..], r)
  }

  function Reversed(handlers: seq<RecoveryHandler>): (r: seq<RecoveryHandler>)
    ensures |r| == |handlers|
  {
    if handlers == [] then [] else Reversed(handlers[1..]) + [handlers[0]]
  }

  lemma {:induction false} FirstErrorConcat(a: seq<RecoveryHandler>, b: seq<RecoveryHandler>, r: PanicValue)
    ensures FirstError(a + b, r) == (var e := FirstError(a, r); if e.Some? then e else FirstError(b, r))
  {
    if a == [] {
      assert a + b == b;
    } else {
      assert (a + b)[0] == a[0] && (a + b)[1..] == a[1..] + b;
      FirstErrorConcat(a[1..], b, r);
    }
  }

  lemma {:induction false} InstalledOrder(handlers: seq<RecoveryHandler>, mw: Middleware, r: PanicValue)
    ensures ProcessRecovery(r, Installed(handlers, mw)) ==
            (var e := FirstError(Reversed(handlers), r); if e.Some? then e else ProcessRecovery(r, mw))
  {
    if handlers == [] {
    } else {
      var mw' := Middleware(handlers[0], mw);
      InstalledOrder(handlers[1..], mw', r);
      FirstErrorConcat(Reversed(handlers[1..]), [handlers[0]], r);
      assert FirstError([handlers[0]], r) == handlers[0](r);
    }
  }

  /** The chain `runTx` uses when it recovers. */
  function RunTxChain(handlers: seq<RecoveryHandler>): (mw: Middleware) {
    OutOfGasMiddleware(Installed(handlers, DefaultMiddleware()))
  }

  /**
   Out of gas first, then the custom handlers from the last added to the first added, then the
   default; and since the default accepts everything, no panic is ever turned into a nil error.
   */
  lemma RecoveryOrder(handlers: seq<RecoveryHandler>, r: PanicValue)
    ensures ProcessRecovery(r, RunTxChain(handlers)) ==
            FirstError([OutOfGasHandler] + Reversed(handlers) + [DefaultHandler], r)
    ensures ProcessRecovery(r, RunTxChain(handlers)).Some?
  {
    InstalledOrder(handlers, DefaultMiddleware(), r);
    FirstErrorConcat([OutOfGasHandler] + Reversed(handlers), [DefaultHandler], r);
    FirstErrorConcat([OutOfGasHandler], Reversed(handlers), r);
    assert FirstError([OutOfGasHandler], r) == OutOfGasHandler(r);
    assert FirstError([DefaultHandler], r) == DefaultHandler(r);
  }
}
