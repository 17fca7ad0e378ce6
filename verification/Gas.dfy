/** Gas meters: the limited and infinite meters of the store library and the no-op block meter. */
module Gas {
  import opened Prelude

  datatype Meter =
    | Limited(limit: U64, consumed: U64)
    | Infinite(consumed: U64)
    | Noop

  /** The value a panicking goroutine carries. */
  datatype PanicValue =
    | OutOfGasPanic(descriptor: string)
    | GasOverflowPanic(descriptor: string)
    | OtherPanic(what: string)

  function Consumed(m: Meter): (r: U64) {
    if m.Noop? then 0 else m.consumed
  }

  function Limit(m: Meter): (r: U64) {
    match m
    case Limited(limit, _) => limit
    case Infinite(_) => MAX_U64
    case Noop => 0
  }

  predicate IsPastLimit(m: Meter) {
    m.Limited? && m.consumed > m.limit
  }

  predicate IsOutOfGas(m: Meter) {
    m.Limited? && m.consumed >= m.limit
  }

  function ConsumedToLimit(m: Meter): (r: U64) {
    if IsPastLimit(m) then m.limit else Consumed(m)
  }

  /** The amount saturates at the largest `uint64`; the panic, if any, comes after the update. */
  function Charge(m: Meter, amount: U64): (r: Meter) {
    var total: U64 := if Consumed(m) + amount > MAX_U64 then MAX_U64 else Consumed(m) + amount;
    if m.Noop? then m else m.(consumed := total)
  }

  function ChargePanic(m: Meter, amount: U64): (r: Option<PanicValue>) {
    if m.Noop? then None
    else if m.consumed + amount > MAX_U64 then Some(GasOverflowPanic("block gas meter"))
    else if m.Limited? && m.consumed + amount > m.limit then Some(OutOfGasPanic("block gas meter"))
    else None
  }

  /** What is charged is what was used, up to the limit, for every kind of meter. */
  lemma ChargedToLimit(m: Meter)
    ensures ConsumedToLimit(m) == Min(Consumed(m), Limit(m))
  {
  }
}
