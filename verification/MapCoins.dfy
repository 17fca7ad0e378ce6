/**
 `MapCoins`, the map form of a coin set for bulk additions, and the theorem that all three adders
 of the repository compute the same sums.
 */
module MapCoins {
  import opened Prelude
  import opened Denoms
  import opened Coins
  import opened CoinLaws
  import opened CoinOps
  import opened DecCoins

  /** `coins` lists what the keys outside `rest` hold. */
  ghost predicate ReadOff(m: map<string, int>, rest: set<string>, coins: Coins) {
    && rest <= m.Keys
    && (forall d :: d in m && d !in rest && m[d] != 0 ==> ValidDenom(d) && m[d] > 0)
    && (forall i :: 0 <= i < |coins| ==> coins[i].denom in m && coins[i].denom !in rest)
    && (forall i :: 0 <= i < |coins| ==> ValidDenom(coins[i].denom) && coins[i].amount > 0)
    && DistinctDenoms(coins)
    && forall d: string :: Amt(coins, d) == (if d in m && d !in rest then m[d] else 0)
  }

  lemma ReadOffOneMore(m: map<string, int>, rest: set<string>, coins: Coins, denom: string)
    requires ReadOff(m, rest, coins) && denom in rest && m[denom] > 0 && ValidDenom(denom)
    ensures ReadOff(m, rest - {denom}, coins + [Coin(denom, m[denom])])
  {
    hide Amt, Less, ValidDenom;
    var coin := Coin(denom, m[denom]);
    forall d: string
      ensures Amt(coins + [coin], d) == (if d in m && d !in rest - {denom} then m[d] else 0)
    {
      AmtConcat(coins, [coin], d);
      AmtSingle(coin, d);
    }
  }

  /** The denominations that occur in a list. */
  function Denominations(c: Coins): (s: set<string>) {
    set i | 0 <= i < |c| :: c[i].denom
  }

  lemma AmtNothing()
    ensures forall d: string :: Amt([], d) == 0
  {
  }

  class MapCoins {
    var m: map<string, int>

    constructor (coins: Coins)
      ensures forall d: string :: Get(d) == Amt(coins, d)
      ensures m.Keys == Denominations(coins)
    {
      m := map[];
      new;
      hide Amt;
      Add(coins);
    }

    ghost function Get(d: string): (amount: int)
      reads this
    {
      if d in m then m[d] else 0
    }

    method Add(coins: Coins)
      modifies this
      ensures forall d: string :: Get(d) == old(Get(d)) + Amt(coins, d)
      ensures m.Keys == old(m.Keys) + Denominations(coins)
    {
      hide Amt;
      AmtNothing();
      for i := 0 to |coins|
        invariant forall d: string :: Get(d) == old(Get(d)) + Amt(coins[..i], d)
        invariant m.Keys == old(m.Keys) + Denominations(coins[..i])
      {
        var coin := coins[i];
        ghost var before := m;
        if coin.denom in m {
          m := m[coin.denom := m[coin.denom] + coin.amount];
        } else {
          m := m[coin.denom := coin.amount];
        }
        assert coins[..i + 1] == coins[..i] + [coin];
        forall d: string
          ensures Get(d) == old(Get(d)) + Amt(coins[..i + 1], d)
        {
          AmtConcat(coins[..i], [coin], d);
          AmtSingle(coin, d);
        }
      }
      assert coins[..|coins|] == coins;
    }

    /**
     The coin set, read off the map in any order and sorted. `None` is the panic of `NewCoin`: some
     denomination with a non-zero amount is invalid or its amount is negative.
     */
    method ToCoins() returns (r: Option<Coins>)
      ensures r.Some? <==> forall d :: d in m && m[d] != 0 ==> ValidDenom(d) && m[d] > 0
      ensures r.Some? ==> Valid(r.value) && forall d: string :: Amt(r.value, d) == Get(d)
    {
      hide Amt, Less, ValidDenom;
      if |m| == 0 {
        AmtNothing();
        return Some([]);
      }
      var coins: Coins := [];
      var rest := m.Keys;
      AmtNothing();
      while rest != {}
        invariant ReadOff(m, rest, coins)
        decreases |rest|
      {
        var denom :| denom in rest;
        if m[denom] != 0 {
          if !ValidDenom(denom) || m[denom] < 0 {
            return None;
          }
          ReadOffOneMore(m, rest, coins, denom);
          coins := coins + [Coin(denom, m[denom])];
        }
        rest := rest - {denom};
      }
      if |coins| == 0 {
        return Some([]);
      }
      var sorted := Sort(coins);
      PermutationValid(sorted, coins);
      r := Some(sorted);
    }
  }

  // ---------------------------------------------------------------- three adders, one sum

  /** The sum of a list of coin sets, by the algebra of `CoinLaws`. */
  function SumOf(sets: seq<Coins>): (r: Coins) {
    if sets == [] then [] else Add(SumOf(sets[..|sets| - 1]), sets[|sets| - 1])
  }

  lemma {:induction false} SumOfValid(sets: seq<Coins>)
    requires forall i :: 0 <= i < |sets| ==> Valid(sets[i])
    ensures Valid(SumOf(sets))
    decreases |sets|
  {
    hide Less, ValidDenom, Amt, Combine;
    if sets == [] {
    } else {
      SumOfValid(sets[..|sets| - 1]);
      ResultsValid(SumOf(sets[..|sets| - 1]), sets[|sets| - 1]);
    }
  }

  /** Folding `Coins.Add`. */
  method SumByCoins(sets: seq<Coins>) returns (r: Option<Coins>)
    ensures (forall i :: 0 <= i < |sets| ==> Valid(sets[i])) ==> r == Some(SumOf(sets))
  {
    hide Less, ValidDenom, Add;
    var sum: Coins := [];
    ghost var valid := forall i :: 0 <= i < |sets| ==> Valid(sets[i]);
    for i := 0 to |sets|
      invariant valid ==> sum == SumOf(sets[..i])
    {
      if valid {
        SumOfValid(sets[..i]);
        assert sets[..i + 1][..i] == sets[..i];
      }
      var next := SafeAdd(sum, sets[i]);
      if next.None? {
        return None;
      }
      sum := next.value;
    }
    assert sets[..|sets|] == sets;
    r := Some(sum);
  }

  /** Folding the two-pointer adder of `DecCoins`, on any lists at all. */
  method SumByDecCoins(sets: seq<Coins>) returns (r: Coins)
    ensures r == SumOf(sets)
  {
    hide Less, Add;
    r := [];
    for i := 0 to |sets|
      invariant r == SumOf(sets[..i])
    {
      assert sets[..i + 1][..i] == sets[..i];
      r := SafeAddDec(r, sets[i]);
    }
    assert sets[..|sets|] == sets;
  }

  /** Folding `MapCoins.Add` and converting once at the end gives the same coin set. */
  method SumByMap(sets: seq<Coins>) returns (r: Option<Coins>)
    ensures (forall i :: 0 <= i < |sets| ==> Valid(sets[i])) ==> r == Some(SumOf(sets))
  {
    hide Less, ValidDenom, Amt, Combine;
    ghost var valid := forall i :: 0 <= i < |sets| ==> Valid(sets[i]);
    AmtNothing();
    var total := new MapCoins([]);
    for i := 0 to |sets|
      invariant fresh(total)
      invariant valid ==> forall d: string :: total.Get(d) == Amt(SumOf(sets[..i]), d)
      invariant valid ==> forall d :: d in total.m ==> ValidDenom(d)
    {
      total.Add(sets[i]);
      if valid {
        SumOfValid(sets[..i]);
        assert sets[..i + 1][..i] == sets[..i];
        forall d: string
          ensures total.Get(d) == Amt(SumOf(sets[..i + 1]), d)
        {
          CombineAmt(Plus, SumOf(sets[..i]), sets[i], d);
        }
      }
    }
    assert sets[..|sets|] == sets;
    r := total.ToCoins();
    if valid {
      SumOfValid(sets);
      forall d: string
        ensures total.Get(d) >= 0
      {
        ValidAmt(SumOf(sets), d);
      }
      assert forall d :: d in total.m ==> total.m[d] == total.Get(d);
      Canonical(r.value, SumOf(sets));
    }
  }
}
