/**
 `DecCoins`: coin sets with decimal amounts. A decimal is an integer number of 10^-18 units, so
 a `DecCoin` is a `Coin` in those units, and the algebra of `Coins` applies to it.
 */
module DecCoins {
  import opened Prelude
  import opened Denoms
  import opened Coins
  import opened CoinLaws
  import opened CoinOps

  /** One, in units of 10^-18. */
  const PRECISION: int := 1_000_000_000_000_000_000

  // ---------------------------------------------------------------- the two-pointer adder

  lemma {:induction false} RestOfLeft(a: Coins, b: Coins, i: nat, acc: Coins)
    requires Merging(Plus, a, b, i, |b|, acc)
    ensures acc + NonZero(a[i..]) == Combine(Plus, a, b)
    decreases |a| - i
  {
    hide Less, Combine;
    if i == |a| {
      MergingEnd(Plus, a, b, acc);
    } else {
      MergeLeft(Plus, a, b, i, |b|, acc);
      assert a[i..][1..] == a[i + 1..];
      RestOfLeft(a, b, i + 1, if a[i].amount == 0 then acc else acc + [a[i]]);
      assert acc + ([a[i]] + NonZero(a[i + 1..])) == acc + [a[i]] + NonZero(a[i + 1..]);
    }
  }

  lemma {:induction false} RestOfRight(a: Coins, b: Coins, j: nat, acc: Coins)
    requires Merging(Plus, a, b, |a|, j, acc)
    ensures acc + NonZero(b[j..]) == Combine(Plus, a, b)
    decreases |b| - j
  {
    hide Less, Combine;
    if j == |b| {
      MergingEnd(Plus, a, b, acc);
    } else {
      MergeRight(Plus, a, b, |a|, j, acc);
      assert b[j..][1..] == b[j + 1..];
      RestOfRight(a, b, j + 1, if b[j].amount == 0 then acc else acc + [b[j]]);
      assert acc + ([b[j]] + NonZero(b[j + 1..])) == acc + [b[j]] + NonZero(b[j + 1..]);
    }
  }

  /** `safeAdd` as written: one loop that returns from inside. It computes `Add` on every pair of lists. */
  method SafeAddDec(a: Coins, b: Coins) returns (sum: Coins)
    ensures sum == Add(a, b)
  {
    hide Less, Combine, Merging;
    sum := [];
    var i, j := 0, 0;
    MergingStart(Plus, a, b);
    while true
      invariant i <= |a| && j <= |b| && Merging(Plus, a, b, i, j, sum)
      decreases |a| - i + |b| - j
    {
      if i == |a| {
        if j == |b| {
          MergingEnd(Plus, a, b, sum);
          return;
        }
        RestOfRight(a, b, j, sum);
        var rest := RemoveZeroCoins(b[j..]);
        return sum + rest;
      } else if j == |b| {
        RestOfLeft(a, b, i, sum);
        var rest := RemoveZeroCoins(a[i..]);
        return sum + rest;
      }
      var coinA, coinB := a[i], b[j];
      if Less(coinA.denom, coinB.denom) {
        MergeLeft(Plus, a, b, i, j, sum);
        if coinA.amount != 0 {
          sum := sum + [coinA];
        }
        i := i + 1;
      } else if coinA.denom == coinB.denom {
        MergeBoth(Plus, a, b, i, j, sum);
        var res := Coin(coinA.denom, coinA.amount + coinB.amount);
        if res.amount != 0 {
          sum := sum + [res];
        }
        i, j := i + 1, j + 1;
      } else {
        LessTotal(coinA.denom, coinB.denom);
        MergeRight(Plus, a, b, i, j, sum);
        if coinB.amount != 0 {
          sum := sum + [coinB];
        }
        j := j + 1;
      }
    }
  }

  method SafeSubDec(a: Coins, b: Coins) returns (diff: Coins, hasNeg: bool)
    ensures StrictlySorted(a) && StrictlySorted(b) ==> diff == Sub(a, b) && (hasNeg <==> !AllGTE(a, b))
  {
    hide Less, Amt, Combine;
    var negative := Negated(b);
    diff := SafeAddDec(a, negative);
    hasNeg := IsAnyNegative(diff);
    if StrictlySorted(a) && StrictlySorted(b) {
      CombineNormal(Minus, a, b);
      CombineNormal(Plus, a, negative);
      forall d: string
        ensures Amt(Sub(a, b), d) == Amt(diff, d)
      {
        CombineAmt(Minus, a, b, d);
        CombineAmt(Plus, a, negative, d);
        NegatedAmt(b, d);
      }
      Canonical(Sub(a, b), diff);
      NegativeIffNotAllGTE(a, b);
    }
  }

  // ---------------------------------------------------------------- coin-by-coin operations

  /** The zero-free list in which every amount `x` has become `f(denom, x)`. */
  function MapAmounts(f: (string, int) -> int, c: Coins): (r: Coins)
    decreases |c|
  {
    if c == [] then []
    else
      var n := |c| - 1;
      var x := f(c[n].denom, c[n].amount);
      MapAmounts(f, c[..n]) + if x == 0 then [] else [Coin(c[n].denom, x)]
  }

  /** The same list, its amounts, and that it only uses denominations of `c`. */
  lemma {:induction false} MapAmountsOk(f: (string, int) -> int, c: Coins)
    requires StrictlySorted(c)
    ensures Normal(MapAmounts(f, c))
    ensures forall k :: 0 <= k < |MapAmounts(f, c)| ==>
              exists i :: 0 <= i < |c| && c[i].denom == MapAmounts(f, c)[k].denom
    decreases |c|
  {
    hide Less;
    if c == [] {
    } else {
      var n := |c| - 1;
      MapAmountsOk(f, c[..n]);
      var r := MapAmounts(f, c[..n]);
      forall k | 0 <= k < |r|
        ensures Less(r[k].denom, c[n].denom)
        ensures exists i :: 0 <= i < |c| && c[i].denom == r[k].denom
      {
        var i :| 0 <= i < n && c[..n][i].denom == r[k].denom;
        assert c[i].denom == r[k].denom;
      }
    }
  }

  lemma {:induction false} MapAmountsAmt(f: (string, int) -> int, c: Coins, d: string)
    requires StrictlySorted(c) && f(d, 0) == 0
    ensures Amt(MapAmounts(f, c), d) == f(d, Amt(c, d))
    decreases |c|
  {
    hide Less;
    if c == [] {
    } else {
      hide Amt;
      var n := |c| - 1;
      var x := f(c[n].denom, c[n].amount);
      MapAmountsAmt(f, c[..n], d);
      assert c == c[..n] + [c[n]];
      AmtConcat(c[..n], [c[n]], d);
      AmtConcat(MapAmounts(f, c[..n]), if x == 0 then [] else [Coin(c[n].denom, x)], d);
      AmtSingle(c[n], d);
      AmtSingle(Coin(c[n].denom, x), d);
      AmtAbsent([], d);
      if c[n].denom == d {
        forall i | 0 <= i < n
          ensures c[..n][i].denom != d
        {
          LessAsymmetric(c[i].denom, c[n].denom);
        }
        AmtAbsent(c[..n], d);
      }
    }
  }

  /** Adding one coin above all others appends it. */
  lemma AddLast(c: Coins, coin: Coin)
    requires Normal(c) && coin.amount != 0 && forall i :: 0 <= i < |c| ==> Less(c[i].denom, coin.denom)
    ensures Add(c, [coin]) == c + [coin]
  {
    hide Less, Amt, Combine;
    CombineNormal(Plus, c, [coin]);
    forall d: string
      ensures Amt(Add(c, [coin]), d) == Amt(c + [coin], d)
    {
      CombineAmt(Plus, c, [coin], d);
      AmtConcat(c, [coin], d);
    }
    Canonical(Add(c, [coin]), c + [coin]);
  }

  // ---------------------------------------------------------------- AmountOf and Intersect

  /** The recursive `AmountOf`, which validates the denomination on every call. */
  function AmountOfDec(c: Coins, d: string): (r: Option<int>)
    decreases |c|
  {
    if !ValidDenom(d) then None
    else if |c| == 0 then Some(0)
    else if |c| == 1 then Some(if c[0].denom == d then c[0].amount else 0)
    else
      var mid := |c| / 2;
      if Less(d, c[mid].denom) then AmountOfDec(c[..mid], d)
      else if d == c[mid].denom then Some(c[mid].amount)
      else AmountOfDec(c[mid + 1..], d)
  }

  /** It is the search of `Coins` on every list, and so the linear scan on every sorted one. */
  lemma {:induction false} AmountOfDecIsScan(c: Coins, d: string)
    ensures AmountOfDec(c, d) == AmountOf(c, d)
    ensures StrictlySorted(c) && ValidDenom(d) ==> AmountOfDec(c, d) == Some(Amt(c, d))
    decreases |c|
  {
    hide Less, ValidDenom, Amt;
    if |c| <= 1 {
    } else {
      AmountOfDecIsScan(c[..|c| / 2], d);
      AmountOfDecIsScan(c[|c| / 2 + 1..], d);
    }
    if StrictlySorted(c) {
      FindIsScan(c, d);
    }
  }

  lemma {:induction false} NonZeroSorted(c: Coins)
    requires StrictlySorted(c)
    ensures StrictlySorted(NonZero(c))
    ensures forall d: string :: Above(d, c) ==> Above(d, NonZero(c))
    decreases |c|
  {
    hide Less, Amt;
    if c == [] {
    } else {
      SortedTail(c);
      NonZeroSorted(c[1..]);
      forall d: string | Above(d, c)
        ensures Above(d, NonZero(c))
      {
        assert Above(d, c[1..]);
      }
    }
  }

  lemma IntersectIsMin(a: Coins, b: Coins, res: Coins)
    requires Valid(a) && Valid(b) && |res| == |a|
    requires forall k :: 0 <= k < |a| ==> res[k] == Coin(a[k].denom, Min(a[k].amount, Amt(b, a[k].denom)))
    ensures NonZero(res) == MinOf(a, b)
  {
    hide Less, Amt, Combine, ValidDenom;
    var r := NonZero(res);
    assert StrictlySorted(res);
    NonZeroOk(res);
    NonZeroSorted(res);
    CombineNormal(Smaller, a, b);
    forall d: string
      ensures Amt(r, d) == Amt(MinOf(a, b), d)
    {
      CombineAmt(Smaller, a, b, d);
      ValidAmt(b, d);
      if i :| 0 <= i < |a| && a[i].denom == d {
        AmtAt(a, i);
        AmtAt(res, i);
      } else {
        AmtAbsent(a, d);
        AmtAbsent(res, d);
      }
    }
    Canonical(r, MinOf(a, b));
  }

  /** `Intersect` on valid sets is the pointwise minimum; looking up an invalid denomination panics. */
  method Intersect(a: Coins, b: Coins) returns (r: Option<Coins>)
    ensures r.Some? <==> forall i :: 0 <= i < |a| ==> ValidDenom(a[i].denom)
    ensures Valid(a) && Valid(b) ==> r == Some(MinOf(a, b))
  {
    hide Less, Amt, Combine, ValidDenom, Find, AmountOfDec;
    var res: Coins := [];
    for i := 0 to |a|
      invariant |res| == i && forall k :: 0 <= k < i ==> ValidDenom(a[k].denom) && res[k].denom == a[k].denom
      invariant Valid(a) && Valid(b) ==>
                  forall k :: 0 <= k < i ==> res[k].amount == Min(a[k].amount, Amt(b, a[k].denom))
    {
      var amount := AmountOfDec(b, a[i].denom);
      AmountOfDecIsScan(b, a[i].denom);
      if amount.None? {
        return None;
      }
      res := res + [Coin(a[i].denom, Min(a[i].amount, amount.value))];
    }
    var kept := RemoveZeroCoins(res);
    if Valid(a) && Valid(b) {
      IntersectIsMin(a, b, res);
    }
    r := Some(kept);
  }

  // ---------------------------------------------------------------- TruncateDecimal

  function Whole(d: string, x: int): (r: int) { x / PRECISION }

  function Fraction(d: string, x: int): (r: int) { x % PRECISION }

  /** Adding the `i`-th result to the previous ones gives the first `i + 1` results. */
  lemma AppendedCoin(f: (string, int) -> int, c: Coins, i: nat)
    requires StrictlySorted(c) && i < |c|
    ensures
      var res, x := MapAmounts(f, c[..i]), f(c[i].denom, c[i].amount);
      && StrictlySorted(res)
      && MapAmounts(f, c[..i + 1]) == (if x == 0 then res else Add(res, [Coin(c[i].denom, x)]))
  {
    hide Less, Combine;
    assert c[..i + 1][..i] == c[..i];
    MapAmountsOk(f, c[..i]);
    var res, x := MapAmounts(f, c[..i]), f(c[i].denom, c[i].amount);
    if x != 0 {
      forall k | 0 <= k < |res|
        ensures Less(res[k].denom, c[i].denom)
      {
        var l :| 0 <= l < i && c[..i][l].denom == res[k].denom;
        assert c[l].denom == res[k].denom;
      }
      AddLast(res, Coin(c[i].denom, x));
    }
  }

  lemma MapAmountsNothing(f: (string, int) -> int, c: Coins)
    ensures MapAmounts(f, c[..0]) == []
  {
  }

  /** The integer coins and the change; `None` is the panic of `NewCoin` on a negative amount or a bad denomination. */
  method TruncateDecimal(c: Coins) returns (r: Option<(Coins, Coins)>)
    ensures r.Some? <==> forall i :: 0 <= i < |c| ==> c[i].amount >= 0 && ValidDenom(c[i].denom)
    ensures Valid(c) ==> r == Some((MapAmounts(Whole, c), MapAmounts(Fraction, c)))
  {
    hide Less, ValidDenom, Add, Amt, MapAmounts, WeaklySorted;
    var truncatedCoins: Coins, changeCoins: Coins := [], [];
    ghost var valid := Valid(c);
    MapAmountsNothing(Whole, c);
    MapAmountsNothing(Fraction, c);
    for i := 0 to |c|
      invariant Normal(truncatedCoins)
      invariant forall k :: 0 <= k < i ==> c[k].amount >= 0 && ValidDenom(c[k].denom)
      invariant valid ==> truncatedCoins == MapAmounts(Whole, c[..i])
      invariant valid ==> changeCoins == MapAmounts(Fraction, c[..i])
    {
      var coin := c[i];
      if coin.amount < 0 || !ValidDenom(coin.denom) {
        return None;
      }
      var truncated := coin.amount / PRECISION;
      var change := coin.amount - truncated * PRECISION;
      if valid {
        AppendedCoin(Whole, c, i);
        AppendedCoin(Fraction, c, i);
      }
      if truncated != 0 {
        StrictIsWeak(truncatedCoins);
        StrictIsWeak([Coin(coin.denom, truncated)]);
        var sum := SafeAdd(truncatedCoins, [Coin(coin.denom, truncated)]);
        truncatedCoins := sum.value;
      }
      if change != 0 {
        changeCoins := SafeAddDec(changeCoins, [Coin(coin.denom, change)]);
      }
    }
    assert c[..|c|] == c;
    r := Some((truncatedCoins, changeCoins));
  }

  lemma MapAmountsValid(f: (string, int) -> int, c: Coins)
    requires Valid(c) && forall d: string, x: int :: f(d, 0) == 0 && (x >= 0 ==> f(d, x) >= 0)
    ensures Valid(MapAmounts(f, c))
  {
    hide Less, Amt, ValidDenom;
    MapAmountsOk(f, c);
    var r := MapAmounts(f, c);
    forall k | 0 <= k < |r|
      ensures ValidDenom(r[k].denom) && r[k].amount > 0
    {
      AmtAt(r, k);
      MapAmountsAmt(f, c, r[k].denom);
      ValidAmt(c, r[k].denom);
    }
  }

  /** Splitting off the decimals conserves value: whole coins and change below one add up to the input. */
  lemma TruncationConserves(c: Coins, d: string)
    requires Valid(c)
    ensures
      var whole, change := MapAmounts(Whole, c), MapAmounts(Fraction, c);
      && Valid(whole) && Valid(change)
      && Amt(whole, d) * PRECISION + Amt(change, d) == Amt(c, d)
      && 0 <= Amt(change, d) < PRECISION
  {
    hide Less, Amt, ValidDenom;
    MapAmountsAmt(Whole, c, d);
    MapAmountsAmt(Fraction, c, d);
    MapAmountsValid(Whole, c);
    MapAmountsValid(Fraction, c);
  }

  // ---------------------------------------------------------------- MulDecTruncate

  function Scaled(ratio: int): (f: (string, int) -> int) {
    (d: string, x: int) => Quo(x * ratio, PRECISION)
  }

  /** A share of a coin set. */
  function Share(c: Coins, ratio: int): (r: Coins) {
    if ratio == 0 then [] else MapAmounts(Scaled(ratio), c)
  }

  /** `y` is the decimal product of `x` and `ratio`, cut off after the last decimal place. */
  predicate TruncatedProduct(x: int, ratio: int, y: int) {
    if x * ratio >= 0 then 0 <= y * PRECISION <= x * ratio < (y + 1) * PRECISION
    else (y - 1) * PRECISION < x * ratio <= y * PRECISION <= 0
  }

  lemma QuoTruncates(p: int)
    ensures
      var y := Quo(p, PRECISION);
      if p >= 0 then 0 <= y * PRECISION <= p < (y + 1) * PRECISION
      else (y - 1) * PRECISION < p <= y * PRECISION <= 0
  {
  }

  lemma ShareExactly(c: Coins, ratio: int, d: string)
    requires StrictlySorted(c)
    ensures TruncatedProduct(Amt(c, d), ratio, Amt(Share(c, ratio), d))
  {
    hide Less, Amt, MapAmounts;
    if ratio == 0 {
      AmtAbsent([], d);
    } else {
      MapAmountsAmt(Scaled(ratio), c, d);
      QuoTruncates(Amt(c, d) * ratio);
    }
  }

  /** The share of a coin set is a coin set without zeros, and the whole set is its own share of one. */
  lemma ShareIsNormal(c: Coins, ratio: int)
    requires StrictlySorted(c)
    ensures Normal(Share(c, ratio))
    ensures Normal(c) && ratio == PRECISION ==> Share(c, ratio) == c
  {
    hide Less, Amt;
    MapAmountsOk(Scaled(ratio), c);
    if Normal(c) && ratio == PRECISION {
      forall d: string
        ensures Amt(Share(c, ratio), d) == Amt(c, d)
      {
        ShareExactly(c, ratio, d);
      }
      Canonical(Share(c, ratio), c);
    }
  }

  lemma ShareLaws(c: Coins, ratio: int)
    requires StrictlySorted(c)
    ensures Normal(Share(c, ratio)) && (Normal(c) && ratio == PRECISION ==> Share(c, ratio) == c)
    ensures forall d: string :: TruncatedProduct(Amt(c, d), ratio, Amt(Share(c, ratio), d))
  {
    hide Less, Amt, Share, TruncatedProduct;
    ShareIsNormal(c, ratio);
    forall d: string
      ensures TruncatedProduct(Amt(c, d), ratio, Amt(Share(c, ratio), d))
    {
      ShareExactly(c, ratio, d);
    }
  }

  /** Every amount is the truncated product; no zero coin is left; and multiplying by one changes nothing. */
  method MulDecTruncate(c: Coins, ratio: int) returns (r: Coins)
    ensures StrictlySorted(c) ==> r == Share(c, ratio)
    ensures StrictlySorted(c) ==> Normal(r) && forall d: string :: TruncatedProduct(Amt(c, d), ratio, Amt(r, d))
    ensures Normal(c) && ratio == PRECISION ==> r == c
  {
    ghost var sorted := StrictlySorted(c);
    if sorted {
      ShareLaws(c, ratio);
    }
    hide Less, Add, Amt, TruncatedProduct, ZeroFree;
    if ratio == 0 {
      return [];
    }
    r := [];
    for i := 0 to |c|
      invariant sorted ==> r == MapAmounts(Scaled(ratio), c[..i])
    {
      var product := Coin(c[i].denom, Quo(c[i].amount * ratio, PRECISION));
      if sorted {
        AppendedCoin(Scaled(ratio), c, i);
      }
      if product.amount != 0 {
        r := SafeAddDec(r, [product]);
      }
    }
    assert c[..|c|] == c;
  }

  function TotalRatio(ratios: seq<int>): (r: int) {
    if ratios == [] then 0 else TotalRatio(ratios[..|ratios| - 1]) + ratios[|ratios| - 1]
  }

  /** What is left of `c` after the shares have been subtracted one after the other. */
  function Remaining(c: Coins, ratios: seq<int>): (r: Coins) {
    if ratios == [] then c
    else Sub(Remaining(c, ratios[..|ratios| - 1]), Share(c, ratios[|ratios| - 1]))
  }

  lemma ProductNonNegative(x: int, y: int)
    requires y >= 0
    ensures x >= 0 ==> x * y >= 0
  {
  }

  lemma ShareOk(c: Coins, ratio: int, d: string)
    requires Valid(c) && ratio >= 0
    ensures Valid(Share(c, ratio))
    ensures 0 <= Amt(Share(c, ratio), d) * PRECISION <= Amt(c, d) * ratio
  {
    hide Less, Amt, ValidDenom;
    ValidAmt(c, d);
    if ratio == 0 {
      AmtAbsent([], d);
    } else {
      forall e: string, x: int
        ensures Scaled(ratio)(e, 0) == 0
        ensures x >= 0 ==> Scaled(ratio)(e, x) >= 0
      {
        ProductNonNegative(x, ratio);
      }
      MapAmountsValid(Scaled(ratio), c);
      MapAmountsAmt(Scaled(ratio), c, d);
      ProductNonNegative(Amt(c, d), ratio);
    }
  }

  lemma ShareFits(x: int, used: int, ratio: int, before: int, share: int)
    requires x >= 0 && ratio >= 0 && used + ratio <= PRECISION
    requires before * PRECISION >= x * (PRECISION - used) && share * PRECISION <= x * ratio
    ensures before >= share
    ensures (before - share) * PRECISION >= x * (PRECISION - (used + ratio))
  {
    assert x * (PRECISION - used) - x * ratio == x * (PRECISION - (used + ratio));
    ProductNonNegative(x, PRECISION - (used + ratio));
    assert (before - share) * PRECISION >= 0;
  }

  /**
   For any non-negative ratios that sum to at most one, the truncated shares never exceed the
   coin set: after any number of them, what remains is a valid set that still covers the next,
   so subtracting them in turn never goes negative.
   */
  lemma {:induction false} SharesNeverExceed(c: Coins, ratios: seq<int>)
    requires Valid(c) && (forall i :: 0 <= i < |ratios| ==> ratios[i] >= 0) && TotalRatio(ratios) <= PRECISION
    ensures Valid(Remaining(c, ratios))
    ensures forall d: string :: Amt(Remaining(c, ratios), d) * PRECISION >= Amt(c, d) * (PRECISION - TotalRatio(ratios))
    ensures ratios != [] ==>
              AllGTE(Remaining(c, ratios[..|ratios| - 1]), Share(c, ratios[|ratios| - 1]))
    decreases |ratios|
  {
    hide Less, Amt, ValidDenom, Combine;
    if ratios == [] {
    } else {
      var n := |ratios| - 1;
      var before, share := Remaining(c, ratios[..n]), Share(c, ratios[n]);
      SharesNeverExceed(c, ratios[..n]);
      forall d: string
        ensures Amt(before, d) >= Amt(share, d)
      {
        ShareOk(c, ratios[n], d);
        ValidAmt(c, d);
        ShareFits(Amt(c, d), TotalRatio(ratios[..n]), ratios[n], Amt(before, d), Amt(share, d));
      }
      ShareOk(c, ratios[n], "");
      DifferenceValid(before, share);
      forall d: string
        ensures Amt(Remaining(c, ratios), d) * PRECISION >= Amt(c, d) * (PRECISION - TotalRatio(ratios))
      {
        CombineAmt(Minus, before, share, d);
        ShareOk(c, ratios[n], d);
        ValidAmt(c, d);
        ShareFits(Amt(c, d), TotalRatio(ratios[..n]), ratios[n], Amt(before, d), Amt(share, d));
      }
    }
  }
}
