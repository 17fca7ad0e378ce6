/** The algebra the documentation of `Coins` promises, for every valid coin set. */
module CoinLaws {
  import opened Prelude
  import opened Denoms
  import opened Coins

  function Add(a: Coins, b: Coins): (c: Coins) { Combine(Plus, a, b) }

  function Sub(a: Coins, b: Coins): (c: Coins) { Combine(Minus, a, b) }

  function MaxOf(a: Coins, b: Coins): (c: Coins) { Combine(Larger, a, b) }

  function MinOf(a: Coins, b: Coins): (c: Coins) { Combine(Smaller, a, b) }

  /** `a.IsAllGTE(b)`: at least as much of every denomination. */
  ghost predicate AllGTE(a: Coins, b: Coins) {
    forall d: string :: Amt(a, d) >= Amt(b, d)
  }

  ghost predicate AllLTE(a: Coins, b: Coins) {
    AllGTE(b, a)
  }

  lemma DifferenceValid(a: Coins, b: Coins)
    requires Valid(a) && Valid(b) && AllGTE(a, b)
    ensures Valid(Sub(a, b))
  {
    hide Combine, Less, Amt, ValidDenom;
    var c := Sub(a, b);
    CombineNormal(Minus, a, b);
    forall i | 0 <= i < |c|
      ensures ValidDenom(c[i].denom) && c[i].amount > 0
    {
      AmtAt(c, i);
      CombineAmt(Minus, a, b, c[i].denom);
      ValidAmt(a, c[i].denom);
      ValidAmt(b, c[i].denom);
    }
  }

  /** The operations lead from valid sets to valid sets: every amount they return is positive. */
  lemma ResultsValid(a: Coins, b: Coins)
    requires Valid(a) && Valid(b)
    ensures Valid(Add(a, b)) && Valid(MaxOf(a, b)) && Valid(MinOf(a, b))
    ensures AllGTE(a, b) ==> Valid(Sub(a, b))
  {
    hide Combine, Less, Amt;
    CombineValid(Plus, a, b);
    CombineValid(Larger, a, b);
    CombineValid(Smaller, a, b);
    if AllGTE(a, b) {
      DifferenceValid(a, b);
    }
  }

  lemma AddCommutes(a: Coins, b: Coins)
    requires StrictlySorted(a) && StrictlySorted(b)
    ensures Add(a, b) == Add(b, a)
  {
    hide Combine, Less, Amt;
    CombineNormal(Plus, a, b);
    CombineNormal(Plus, b, a);
    forall d: string
      ensures Amt(Add(a, b), d) == Amt(Add(b, a), d)
    {
      CombineAmt(Plus, a, b, d);
      CombineAmt(Plus, b, a, d);
    }
    Canonical(Add(a, b), Add(b, a));
  }

  lemma AddAssociates(a: Coins, b: Coins, c: Coins)
    requires StrictlySorted(a) && StrictlySorted(b) && StrictlySorted(c)
    ensures Add(Add(a, b), c) == Add(a, Add(b, c))
  {
    hide Combine, Less, Amt;
    CombineNormal(Plus, a, b);
    CombineNormal(Plus, b, c);
    CombineNormal(Plus, Add(a, b), c);
    CombineNormal(Plus, a, Add(b, c));
    forall d: string
      ensures Amt(Add(Add(a, b), c), d) == Amt(Add(a, Add(b, c)), d)
    {
      CombineAmt(Plus, a, b, d);
      CombineAmt(Plus, b, c, d);
      CombineAmt(Plus, Add(a, b), c, d);
      CombineAmt(Plus, a, Add(b, c), d);
    }
    Canonical(Add(Add(a, b), c), Add(a, Add(b, c)));
  }

  /** Subtraction undoes addition. */
  lemma AddThenSub(a: Coins, b: Coins)
    requires Normal(a) && StrictlySorted(b)
    ensures Sub(Add(a, b), b) == a
  {
    hide Combine, Less, Amt;
    CombineNormal(Plus, a, b);
    CombineNormal(Minus, Add(a, b), b);
    forall d: string
      ensures Amt(Sub(Add(a, b), b), d) == Amt(a, d)
    {
      CombineAmt(Plus, a, b, d);
      CombineAmt(Minus, Add(a, b), b, d);
    }
    Canonical(Sub(Add(a, b), b), a);
  }

  /** A difference has a negative coin exactly when some denomination was short. */
  lemma NegativeIffNotAllGTE(a: Coins, b: Coins)
    requires StrictlySorted(a) && StrictlySorted(b)
    ensures (exists i :: 0 <= i < |Sub(a, b)| && Sub(a, b)[i].amount < 0) <==> !AllGTE(a, b)
  {
    hide Combine, Less, Amt;
    var c := Sub(a, b);
    CombineNormal(Minus, a, b);
    if i :| 0 <= i < |c| && c[i].amount < 0 {
      AmtAt(c, i);
      CombineAmt(Minus, a, b, c[i].denom);
    }
    if !AllGTE(a, b) {
      var d: string :| Amt(a, d) < Amt(b, d);
      CombineAmt(Minus, a, b, d);
      AmtPresent(c, d);
      var i :| 0 <= i < |c| && c[i].denom == d;
      AmtAt(c, i);
    }
  }

  /** Max is the least upper bound: the three laws in its documentation. */
  lemma MaxIsLeastUpperBound(a: Coins, b: Coins, c: Coins)
    requires Valid(a) && Valid(b) && Valid(c)
    ensures AllLTE(a, MaxOf(a, b)) && AllLTE(b, MaxOf(a, b))
    ensures AllLTE(a, c) && AllLTE(b, c) <==> AllLTE(MaxOf(a, b), c)
  {
    hide Combine, Less, Amt;
    forall d: string
      ensures Amt(MaxOf(a, b), d) == Max(Amt(a, d), Amt(b, d))
    {
      CombineAmt(Larger, a, b, d);
    }
    if AllLTE(MaxOf(a, b), c) {
      forall d: string
        ensures Amt(a, d) <= Amt(c, d) && Amt(b, d) <= Amt(c, d)
      {
        assert Amt(MaxOf(a, b), d) <= Amt(c, d);
      }
    }
  }

  /** Min is the greatest lower bound. */
  lemma MinIsGreatestLowerBound(a: Coins, b: Coins, c: Coins)
    requires Valid(a) && Valid(b) && Valid(c)
    ensures AllLTE(MinOf(a, b), a) && AllLTE(MinOf(a, b), b)
    ensures AllLTE(c, a) && AllLTE(c, b) <==> AllLTE(c, MinOf(a, b))
  {
    hide Combine, Less, Amt;
    forall d: string
      ensures Amt(MinOf(a, b), d) == Min(Amt(a, d), Amt(b, d))
    {
      CombineAmt(Smaller, a, b, d);
    }
    if AllLTE(c, MinOf(a, b)) {
      forall d: string
        ensures Amt(c, d) <= Amt(a, d) && Amt(c, d) <= Amt(b, d)
      {
        assert Amt(c, d) <= Amt(MinOf(a, b), d);
      }
    }
  }

  /** `a.Add(b...).Equal(a.Min(b).Add(a.Max(b)...))` */
  lemma MinPlusMaxIsSum(a: Coins, b: Coins)
    requires Valid(a) && Valid(b)
    ensures Add(a, b) == Add(MinOf(a, b), MaxOf(a, b))
  {
    hide Combine, Less, Amt;
    CombineNormal(Smaller, a, b);
    CombineNormal(Larger, a, b);
    CombineNormal(Plus, a, b);
    CombineNormal(Plus, MinOf(a, b), MaxOf(a, b));
    forall d: string
      ensures Amt(Add(a, b), d) == Amt(Add(MinOf(a, b), MaxOf(a, b)), d)
    {
      CombineAmt(Plus, a, b, d);
      CombineAmt(Smaller, a, b, d);
      CombineAmt(Larger, a, b, d);
      CombineAmt(Plus, MinOf(a, b), MaxOf(a, b), d);
    }
    Canonical(Add(a, b), Add(MinOf(a, b), MaxOf(a, b)));
  }
}
