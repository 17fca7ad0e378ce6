/** Base-128 varints of up to 64 bits: the encoding, its size, and the reader. */
module Varints {
  import opened Prelude

  /** A varint has at most ten bytes: the readers give up when the shift reaches 64. */
  const MAX_BYTES: nat := 10

  function Varint(v: nat): (b: Bytes)
    ensures |b| >= 1
  {
    if v < 128 then [v] else [v % 128 + 128] + Varint(v / 128)
  }

  /** The value, before it is cut to 64 bits, and the length of the varint that `data` starts with. */
  function ReadVarint(data: Bytes, budget: nat): (r: Option<(nat, nat)>)
    ensures r.Some? ==> 1 <= r.value.1 <= |data| && r.value.1 <= budget
    decreases budget
  {
    if budget == 0 || data == [] then None
    else if data[0] < 128 then Some((data[0], 1))
    else
      var rest := ReadVarint(data[1..], budget - 1);
      if rest.None? then None else Some((data[0] - 128 + 128 * rest.value.0, rest.value.1 + 1))
  }

  /** What the readers have put together when they stop: the value, or what came before the error. */
  function VarintSoFar(data: Bytes, budget: nat): (v: nat)
    ensures ReadVarint(data, budget).Some? ==> v == ReadVarint(data, budget).value.0
    decreases budget
  {
    if budget == 0 || data == [] then 0
    else if data[0] < 128 then data[0]
    else data[0] - 128 + 128 * VarintSoFar(data[1..], budget - 1)
  }

  /** 128 to the power `n`. */
  function Pow128(n: nat): (p: nat)
    ensures p > 0
  {
    if n == 0 then 1 else 128 * Pow128(n - 1)
  }

  /** Reading gives back what was written, whatever follows. */
  lemma {:induction false} VarintRoundTrip(v: nat, rest: Bytes, budget: nat)
    requires budget > 0 && v < Pow128(budget)
    ensures ReadVarint(Varint(v) + rest, budget) == Some((v, |Varint(v)|))
    decreases budget
  {
    var data := Varint(v) + rest;
    if v < 128 {
    } else {
      assert data[1..] == Varint(v / 128) + rest;
      VarintRoundTrip(v / 128, rest, budget - 1);
    }
  }

  lemma U64Fits(v: nat)
    requires v < TWO_64
    ensures v < Pow128(MAX_BYTES)
  {
    assert Pow128(5) == 34359738368;
    assert Pow128(MAX_BYTES) >= TWO_64;
  }

  /** A varint is complete in itself: what follows does not change what is read. */
  lemma {:induction false} ReadVarintMore(data: Bytes, more: Bytes, budget: nat)
    requires ReadVarint(data, budget).Some?
    ensures ReadVarint(data + more, budget) == ReadVarint(data, budget)
    decreases budget
  {
    if data[0] < 128 {
    } else {
      assert (data + more)[1..] == data[1..] + more;
      ReadVarintMore(data[1..], more, budget - 1);
    }
  }

  /** The seven-bit digits of the first `n` bytes, least significant first. */
  function Positional(data: Bytes, n: nat): (v: nat)
    requires n <= |data|
  {
    if n == 0 then 0 else Positional(data, n - 1) + data[n - 1] % 128 * Pow128(n - 1)
  }

  lemma {:induction false} PositionalHead(data: Bytes, n: nat)
    requires 1 <= n <= |data|
    ensures Positional(data, n) == data[0] % 128 + 128 * Positional(data[1..], n - 1)
  {
    if n == 1 {
      assert Pow128(0) == 1;
    } else {
      PositionalHead(data, n - 1);
      var digit := data[n - 1] % 128;
      assert data[1..][n - 2] == data[n - 1];
      assert digit * Pow128(n - 1) == 128 * (digit * Pow128(n - 2));
    }
  }

  /**
   What a varint is: bytes of 128 and more up to the first smaller one, and their digits. Reading fails
   exactly when there is no smaller byte within reach.
   */
  lemma {:induction false} ReadVarintExactly(data: Bytes, budget: nat)
    ensures
      var r := ReadVarint(data, budget);
      if r.Some? then
        var (v, n) := r.value;
        v == Positional(data, n) && data[n - 1] < 128 && forall i :: 0 <= i < n - 1 ==> data[i] >= 128
      else forall i :: 0 <= i < |data| && i < budget ==> data[i] >= 128
    decreases budget
  {
    if budget == 0 || data == [] {
    } else if data[0] < 128 {
      assert Pow128(0) == 1 && Positional(data, 0) == 0;
    } else {
      ReadVarintExactly(data[1..], budget - 1);
      assert data == [data[0]] + data[1..];
      var r := ReadVarint(data, budget);
      if r.Some? {
        PositionalHead(data, r.value.1);
      }
    }
  }

  // ---------------------------------------------------------------- the size

  /** `bits.Len64`. */
  function BitLen(x: nat): (n: nat) {
    if x == 0 then 0 else 1 + BitLen(x / 2)
  }

  /** `x | 1`. */
  function OrOne(x: nat): (r: nat) {
    if x % 2 == 0 then x + 1 else x
  }

  /** `sov`: the size computed from the bit length. */
  function Sov(x: nat): (n: nat) {
    (BitLen(OrOne(x)) + 6) / 7
  }

  /** Three halvings at a time. */
  lemma BitLenThree(x: nat)
    ensures x >= 4 ==> BitLen(x) == 3 + BitLen(x / 8)
    ensures BitLen(x) <= 3 + BitLen(x / 8)
  {
    var y := x / 2;
    var z := y / 2;
    assert z / 2 == x / 8;
    assert y != 0 ==> BitLen(y) == 1 + BitLen(z);
    assert z != 0 ==> BitLen(z) == 1 + BitLen(x / 8);
  }

  lemma BitLenSeven(x: nat)
    requires x >= 64
    ensures BitLen(x) == 7 + BitLen(x / 128)
  {
    BitLenThree(x);
    BitLenThree(x / 8);
    assert x / 8 / 8 / 2 == x / 128;
    assert BitLen(x / 8 / 8) == 1 + BitLen(x / 8 / 8 / 2);
  }

  lemma BitLenSmall(x: nat)
    requires 1 <= x < 128
    ensures 1 <= BitLen(x) <= 7
  {
    BitLenThree(x);
    BitLenThree(x / 8);
    assert BitLen(x / 8 / 8) <= 1;
  }

  lemma BitLenOrOne(x: nat)
    requires x >= 1
    ensures BitLen(OrOne(x)) == BitLen(x)
  {
    assert OrOne(x) / 2 == x / 2;
  }

  /** `sov` is the length of the encoding. */
  lemma {:induction false} SovIsLength(x: nat)
    ensures Sov(x) == |Varint(x)|
  {
    if x < 128 {
      BitLenSmall(OrOne(x));
    } else {
      SovIsLength(x / 128);
      BitLenSeven(OrOne(x));
      BitLenOrOne(x / 128);
      assert OrOne(x) / 128 == x / 128;
    }
  }
}
