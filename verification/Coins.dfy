/**
 `Coins`: finite maps from denomination to amount, kept as strictly sorted, zero-free lists.
 `Amt` is the amount function a list stands for; `Combine` is the pointwise combination of two
 lists, and is what addition, subtraction, maximum and minimum are all proved to compute.
 */
module Coins {
  import opened Prelude
  import opened Denoms

  datatype Coin = Coin(denom: string, amount: int)

  type Coins = seq<Coin>

  /** The amount of a denomination: the sum of its entries. */
  function Amt(c: Coins, d: string): (r: int)
    decreases |c|
  {
    if c == [] then 0 else (if c[0].denom == d then c[0].amount else 0) + Amt(c[1..], d)
  }

  predicate StrictlySorted(c: Coins) {
    forall i, j :: 0 <= i < j < |c| ==> Less(c[i].denom, c[j].denom)
  }

  predicate ZeroFree(c: Coins) {
    forall i :: 0 <= i < |c| ==> c[i].amount != 0
  }

  /** Canonical form: what every operation returns. */
  predicate Normal(c: Coins) {
    StrictlySorted(c) && ZeroFree(c)
  }

  /** What `Validate` accepts. */
  predicate Valid(c: Coins) {
    StrictlySorted(c) && forall i :: 0 <= i < |c| ==> ValidDenom(c[i].denom) && c[i].amount > 0
  }

  /** All denominations of the list come after `d`. */
  predicate Above(d: string, c: Coins) {
    forall i :: 0 <= i < |c| ==> Less(d, c[i].denom)
  }

  // ---------------------------------------------------------------- the amount function determines the list

  lemma {:induction false} AmtAbsent(c: Coins, d: string)
    requires forall i :: 0 <= i < |c| ==> c[i].denom != d
    ensures Amt(c, d) == 0
    decreases |c|
  {
    if c == [] {
    } else {
      AmtAbsent(c[1..], d);
    }
  }

  lemma AmtAbove(c: Coins, d: string)
    requires Above(d, c)
    ensures Amt(c, d) == 0
  {
    forall i | 0 <= i < |c|
      ensures c[i].denom != d
    {
      LessAsymmetric(d, c[i].denom);
    }
    AmtAbsent(c, d);
  }

  lemma SortedTail(c: Coins)
    requires StrictlySorted(c) && c != []
    ensures StrictlySorted(c[1..]) && Above(c[0].denom, c[1..]) && Amt(c[1..], c[0].denom) == 0
  {
    hide Less, Amt;
    AmtAbove(c[1..], c[0].denom);
  }

  lemma {:induction false} AmtAt(c: Coins, i: nat)
    requires StrictlySorted(c) && i < |c|
    ensures Amt(c, c[i].denom) == c[i].amount
    decreases |c|
  {
    hide Less;
    SortedTail(c);
    if i == 0 {
    } else {
      AmtAt(c[1..], i - 1);
      LessAsymmetric(c[0].denom, c[i].denom);
    }
  }

  lemma {:induction false} AmtConcat(a: Coins, b: Coins, d: string)
    ensures Amt(a + b, d) == Amt(a, d) + Amt(b, d)
    decreases |a|
  {
    if a == [] {
      assert a + b == b;
    } else {
      assert (a + b)[1..] == a[1..] + b;
      AmtConcat(a[1..], b, d);
    }
  }

  /** A list above the first denomination of another has nothing there, so the amounts differ. */
  lemma HeadsAgree(a: Coins, b: Coins)
    requires Normal(a) && Normal(b) && a != [] && (forall d: string :: Amt(a, d) == Amt(b, d))
    ensures b != [] && !Less(a[0].denom, b[0].denom)
  {
    hide Less;
    AmtAt(a, 0);
    if b != [] && Less(a[0].denom, b[0].denom) {
      forall i | 0 <= i < |b|
        ensures Less(a[0].denom, b[i].denom)
      {
        if i > 0 {
          LessTransitive(a[0].denom, b[0].denom, b[i].denom);
        }
      }
      AmtAbove(b, a[0].denom);
    }
  }

  lemma AmtHead(c: Coins, d: string)
    requires c != []
    ensures Amt(c, d) == (if c[0].denom == d then c[0].amount else 0) + Amt(c[1..], d)
  {
  }

  /** Canonical form: lists with the same amount for every denomination are the same list. */
  lemma {:induction false} Canonical(a: Coins, b: Coins)
    requires Normal(a) && Normal(b)
    requires forall d: string :: Amt(a, d) == Amt(b, d)
    ensures a == b
    decreases |a|
  {
    hide Less, Amt;
    if a != [] && b != [] {
      HeadsAgree(a, b);
      HeadsAgree(b, a);
      LessTotal(a[0].denom, b[0].denom);
      AmtAt(a, 0);
      AmtAt(b, 0);
      forall d: string
        ensures Amt(a[1..], d) == Amt(b[1..], d)
      {
        AmtHead(a, d);
        AmtHead(b, d);
      }
      Canonical(a[1..], b[1..]);
      assert a == [a[0]] + a[1..] && b == [b[0]] + b[1..];
    } else if a != [] {
      HeadsAgree(a, b);
    } else if b != [] {
      HeadsAgree(b, a);
    }
  }

  // ---------------------------------------------------------------- pointwise combination

  type Op = (int, int) -> int

  function Plus(x: int, y: int): (r: int) { x + y }

  function Minus(x: int, y: int): (r: int) { x - y }

  function Larger(x: int, y: int): (r: int) { Max(x, y) }

  function Smaller(x: int, y: int): (r: int) { Min(x, y) }

  function Prepend(d: string, amount: int, rest: Coins): (c: Coins) {
    if amount == 0 then rest else [Coin(d, amount)] + rest
  }

  /** The zero-free list whose amounts are `op` of the amounts of `a` and `b`. */
  function Combine(op: Op, a: Coins, b: Coins): (c: Coins)
    decreases |a| + |b|
  {
    if a == [] && b == [] then []
    else if b == [] || (a != [] && Less(a[0].denom, b[0].denom)) then
      Prepend(a[0].denom, op(a[0].amount, 0), Combine(op, a[1..], b))
    else if a == [] || Less(b[0].denom, a[0].denom) then
      Prepend(b[0].denom, op(0, b[0].amount), Combine(op, a, b[1..]))
    else
      Prepend(a[0].denom, op(a[0].amount, b[0].amount), Combine(op, a[1..], b[1..]))
  }

  lemma {:induction false} CombineAbove(op: Op, a: Coins, b: Coins, d: string)
    requires Above(d, a) && Above(d, b)
    ensures Above(d, Combine(op, a, b))
    decreases |a| + |b|
  {
    if a == [] && b == [] {
    } else if b == [] || (a != [] && Less(a[0].denom, b[0].denom)) {
      hide Less;
      CombineAbove(op, a[1..], b, d);
    } else if a == [] || Less(b[0].denom, a[0].denom) {
      hide Less;
      CombineAbove(op, a, b[1..], d);
    } else {
      hide Less;
      CombineAbove(op, a[1..], b[1..], d);
    }
  }

  lemma AboveChain(d: string, c: Coins)
    requires StrictlySorted(c) && (c != [] ==> Less(d, c[0].denom))
    ensures Above(d, c)
  {
    hide Less;
    forall i | 0 < i < |c|
      ensures Less(d, c[i].denom)
    {
      LessTransitive(d, c[0].denom, c[i].denom);
    }
  }

  lemma PrependNormal(d: string, amount: int, rest: Coins)
    requires Normal(rest) && Above(d, rest)
    ensures Normal(Prepend(d, amount, rest))
  {
    hide Less;
  }

  lemma {:induction false} CombineNormal(op: Op, a: Coins, b: Coins)
    requires StrictlySorted(a) && StrictlySorted(b)
    ensures Normal(Combine(op, a, b))
    decreases |a| + |b|
  {
    hide Less, Amt;
    if a == [] && b == [] {
    } else if b == [] || (a != [] && Less(a[0].denom, b[0].denom)) {
      SortedTail(a);
      AboveChain(a[0].denom, b);
      CombineNormal(op, a[1..], b);
      CombineAbove(op, a[1..], b, a[0].denom);
      PrependNormal(a[0].denom, op(a[0].amount, 0), Combine(op, a[1..], b));
    } else if a == [] || Less(b[0].denom, a[0].denom) {
      SortedTail(b);
      AboveChain(b[0].denom, a);
      CombineNormal(op, a, b[1..]);
      CombineAbove(op, a, b[1..], b[0].denom);
      PrependNormal(b[0].denom, op(0, b[0].amount), Combine(op, a, b[1..]));
    } else {
      LessTotal(a[0].denom, b[0].denom);
      SortedTail(a);
      SortedTail(b);
      CombineNormal(op, a[1..], b[1..]);
      CombineAbove(op, a[1..], b[1..], a[0].denom);
      PrependNormal(a[0].denom, op(a[0].amount, b[0].amount), Combine(op, a[1..], b[1..]));
    }
  }

  lemma AmtPrepend(d: string, amount: int, rest: Coins, e: string)
    ensures Amt(Prepend(d, amount, rest), e) == (if d == e then amount else 0) + Amt(rest, e)
  {
    if amount != 0 {
      assert ([Coin(d, amount)] + rest)[1..] == rest;
    }
  }

  /** The amounts of the combination are the combination of the amounts. */
  lemma {:induction false} CombineAmt(op: Op, a: Coins, b: Coins, d: string)
    requires StrictlySorted(a) && StrictlySorted(b) && op(0, 0) == 0
    ensures Amt(Combine(op, a, b), d) == op(Amt(a, d), Amt(b, d))
    decreases |a| + |b|
  {
    hide Less, Amt;
    if a == [] && b == [] {
      AmtAbsent(a, d);
      AmtAbsent(b, d);
    } else if b == [] || (a != [] && Less(a[0].denom, b[0].denom)) {
      SortedTail(a);
      CombineAmt(op, a[1..], b, d);
      AmtPrepend(a[0].denom, op(a[0].amount, 0), Combine(op, a[1..], b), d);
      AmtHead(a, d);
      AboveChain(a[0].denom, b);
      AmtAbove(b, a[0].denom);
    } else if a == [] || Less(b[0].denom, a[0].denom) {
      SortedTail(b);
      CombineAmt(op, a, b[1..], d);
      AmtPrepend(b[0].denom, op(0, b[0].amount), Combine(op, a, b[1..]), d);
      AmtHead(b, d);
      AboveChain(b[0].denom, a);
      AmtAbove(a, b[0].denom);
    } else {
      LessTotal(a[0].denom, b[0].denom);
      SortedTail(a);
      SortedTail(b);
      CombineAmt(op, a[1..], b[1..], d);
      AmtPrepend(a[0].denom, op(a[0].amount, b[0].amount), Combine(op, a[1..], b[1..]), d);
      AmtHead(a, d);
      AmtHead(b, d);
    }
  }

  // ---------------------------------------------------------------- validity

  lemma {:induction false} AmtPresent(c: Coins, d: string)
    requires Amt(c, d) != 0
    ensures exists i :: 0 <= i < |c| && c[i].denom == d
  {
    if forall i :: 0 <= i < |c| ==> c[i].denom != d {
      AmtAbsent(c, d);
    }
  }

  lemma ValidAmt(c: Coins, d: string)
    requires Valid(c)
    ensures Amt(c, d) >= 0
    ensures Amt(c, d) != 0 ==> ValidDenom(d)
  {
    hide Less, Amt;
    if Amt(c, d) != 0 {
      AmtPresent(c, d);
      var i :| 0 <= i < |c| && c[i].denom == d;
      AmtAt(c, i);
    }
  }

  /** Combining valid sets with an operation that keeps amounts non-negative gives a valid set. */
  lemma CombineValid(op: Op, a: Coins, b: Coins)
    requires Valid(a) && Valid(b)
    requires op(0, 0) == 0 && forall x, y :: x >= 0 && y >= 0 ==> op(x, y) >= 0
    ensures Valid(Combine(op, a, b))
  {
    hide Less, Amt, Combine, ValidDenom;
    var c := Combine(op, a, b);
    CombineNormal(op, a, b);
    forall i | 0 <= i < |c|
      ensures ValidDenom(c[i].denom) && c[i].amount > 0
    {
      var d := c[i].denom;
      AmtAt(c, i);
      CombineAmt(op, a, b, d);
      ValidAmt(a, d);
      ValidAmt(b, d);
    }
  }
}
