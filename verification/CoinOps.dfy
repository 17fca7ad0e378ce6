/**
 The operations on `Coins` as the code performs them: binary search, a hash-map coalescing
 adder, two-pointer maximum and minimum, validation loops. `None` stands for a panic.
 */
module CoinOps {
  import opened Prelude
  import opened Denoms
  import opened Coins
  import opened CoinLaws

  // ---------------------------------------------------------------- lookup

  /** Binary search, as written. */
  function Find(c: Coins, d: string): (r: Option<Coin>)
    decreases |c|
  {
    if |c| == 0 then None
    else if |c| == 1 then (if c[0].denom == d then Some(c[0]) else None)
    else
      var mid := |c| / 2;
      if Less(d, c[mid].denom) then Find(c[..mid], d)
      else if d == c[mid].denom then Some(c[mid])
      else Find(c[mid + 1..], d)
  }

  /** The reference: scan from the left. */
  function Scan(c: Coins, d: string): (r: Option<Coin>)
    decreases |c|
  {
    if c == [] then None else if c[0].denom == d then Some(c[0]) else Scan(c[1..], d)
  }

  lemma {:induction false} FindHit(c: Coins, d: string, i: nat)
    requires StrictlySorted(c) && i < |c| && c[i].denom == d
    ensures Find(c, d) == Some(c[i])
    decreases |c|
  {
    hide Less;
    if |c| <= 1 {
    } else {
      var mid := |c| / 2;
      LessIrreflexive(d);
      if i < mid {
        assert c[..mid][i] == c[i];
        FindHit(c[..mid], d, i);
      } else if i > mid {
        LessAsymmetric(c[mid].denom, d);
        assert c[mid + 1..][i - mid - 1] == c[i];
        FindHit(c[mid + 1..], d, i - mid - 1);
      }
    }
  }

  lemma {:induction false} FindMiss(c: Coins, d: string)
    requires forall i :: 0 <= i < |c| ==> c[i].denom != d
    ensures Find(c, d).None? && Scan(c, d).None?
    decreases |c|
  {
    hide Less;
    if |c| <= 1 {
    } else {
      FindMiss(c[..|c| / 2], d);
      FindMiss(c[|c| / 2 + 1..], d);
    }
    if |c| == 0 {
    } else {
      FindMiss(c[1..], d);
    }
  }

  lemma {:induction false} ScanHit(c: Coins, d: string, i: nat)
    requires StrictlySorted(c) && i < |c| && c[i].denom == d
    ensures Scan(c, d) == Some(c[i])
    decreases |c|
  {
    hide Less;
    if i == 0 {
    } else {
      LessAsymmetric(c[0].denom, d);
      ScanHit(c[1..], d, i - 1);
    }
  }

  /** The binary search agrees with the linear scan, and both give the amount function. */
  lemma FindIsScan(c: Coins, d: string)
    requires StrictlySorted(c)
    ensures Find(c, d) == Scan(c, d)
    ensures Amt(c, d) == if Find(c, d).Some? then Find(c, d).value.amount else 0
  {
    hide Less, Amt, Find, Scan;
    if i :| 0 <= i < |c| && c[i].denom == d {
      FindHit(c, d, i);
      ScanHit(c, d, i);
      AmtAt(c, i);
    } else {
      FindMiss(c, d);
      AmtAbsent(c, d);
    }
  }

  /** `AmountOf` panics on an invalid denomination. */
  function AmountOf(c: Coins, d: string): (r: Option<int>) {
    if !ValidDenom(d) then None
    else
      var coin := Find(c, d);
      Some(if coin.Some? then coin.value.amount else 0)
  }

  // ---------------------------------------------------------------- validation and sorting

  lemma ValidOneMore(c: Coins, i: nat)
    requires 0 < i < |c| && Valid(c[..i]) && Less(c[i - 1].denom, c[i].denom)
    requires ValidDenom(c[i].denom) && c[i].amount > 0
    ensures Valid(c[..i + 1])
  {
    hide ValidDenom, Less;
    var longer := c[..i + 1];
    forall k | 0 <= k < i
      ensures longer[k] == c[..i][k] && Less(longer[k].denom, c[i].denom)
    {
      if k < i - 1 {
        assert c[..i][i - 1] == c[i - 1];
        LessTransitive(c[k].denom, c[i - 1].denom, c[i].denom);
      }
    }
  }

  method Validate(c: Coins) returns (ok: bool)
    ensures ok <==> Valid(c)
  {
    hide ValidDenom, Less;
    if |c| == 0 {
      return true;
    }
    if !ValidDenom(c[0].denom) || c[0].amount <= 0 {
      return false;
    }
    var lowDenom := c[0].denom;
    for i := 1 to |c|
      invariant lowDenom == c[i - 1].denom
      invariant Valid(c[..i])
    {
      var coin := c[i];
      if !ValidDenom(coin.denom) {
        return false;
      }
      if Less(coin.denom, lowDenom) {
        if Valid(c) {
          LessAsymmetric(c[i - 1].denom, c[i].denom);
        }
        return false;
      }
      if coin.denom == lowDenom {
        LessIrreflexive(lowDenom);
        return false;
      }
      if coin.amount <= 0 {
        return false;
      }
      LessTotal(coin.denom, lowDenom);
      ValidOneMore(c, i);
      lowDenom := coin.denom;
    }
    assert c[..|c|] == c;
    ok := true;
  }

  /** Neighbours in order; equal denominations are allowed. */
  predicate WeaklySorted(c: Coins) {
    forall i :: 0 < i < |c| ==> !Less(c[i].denom, c[i - 1].denom)
  }

  method IsSorted(c: Coins) returns (r: bool)
    ensures r <==> WeaklySorted(c)
  {
    hide Less;
    var i := 1;
    while i < |c|
      invariant forall k :: 0 < k < i && k < |c| ==> !Less(c[k].denom, c[k - 1].denom)
    {
      if Less(c[i].denom, c[i - 1].denom) {
        return false;
      }
      i := i + 1;
    }
    r := true;
  }

  predicate DistinctDenoms(c: Coins) {
    forall i, j :: 0 <= i < j < |c| ==> c[i].denom != c[j].denom
  }

  function Insert(coin: Coin, c: Coins): (r: Coins)
    decreases |c|
  {
    if c == [] then [coin]
    else if Less(c[0].denom, coin.denom) then [c[0]] + Insert(coin, c[1..])
    else [coin] + c
  }

  lemma {:induction false} InsertAmt(coin: Coin, c: Coins, d: string)
    ensures Amt(Insert(coin, c), d) == Amt(c, d) + if coin.denom == d then coin.amount else 0
    ensures multiset(Insert(coin, c)) == multiset(c) + multiset{coin}
    decreases |c|
  {
    if c != [] && Less(c[0].denom, coin.denom) {
      InsertAmt(coin, c[1..], d);
      assert Insert(coin, c)[1..] == Insert(coin, c[1..]);
      assert c == [c[0]] + c[1..];
    } else {
      assert ([coin] + c)[1..] == c;
    }
  }

  lemma {:induction false} InsertAbove(coin: Coin, c: Coins, d: string)
    requires Above(d, c) && Less(d, coin.denom)
    ensures Above(d, Insert(coin, c))
    decreases |c|
  {
    hide Less;
    if c == [] || !Less(c[0].denom, coin.denom) {
    } else {
      InsertAbove(coin, c[1..], d);
    }
  }

  /** Inserting a new denomination keeps a strictly sorted list strictly sorted. */
  lemma {:induction false} InsertSorted(coin: Coin, c: Coins)
    requires StrictlySorted(c) && forall i :: 0 <= i < |c| ==> c[i].denom != coin.denom
    ensures StrictlySorted(Insert(coin, c))
    decreases |c|
  {
    hide Less, Amt;
    if c == [] {
    } else {
      SortedTail(c);
      if Less(c[0].denom, coin.denom) {
        InsertSorted(coin, c[1..]);
        InsertAbove(coin, c[1..], c[0].denom);
      } else {
        LessTotal(c[0].denom, coin.denom);
        AboveChain(coin.denom, c);
      }
    }
  }

  lemma WeaklySortedCons(coin: Coin, c: Coins)
    requires WeaklySorted(c) && (c != [] ==> !Less(c[0].denom, coin.denom))
    ensures WeaklySorted([coin] + c)
  {
    hide Less;
    var r := [coin] + c;
    forall i | 0 < i < |r|
      ensures !Less(r[i].denom, r[i - 1].denom)
    {
      assert r[i] == c[i - 1];
    }
  }

  /** Inserting keeps a list with repeated denominations in order, too. */
  lemma {:induction false} InsertWeaklySorted(coin: Coin, c: Coins)
    requires WeaklySorted(c)
    ensures WeaklySorted(Insert(coin, c))
    ensures c != [] ==> Insert(coin, c)[0] == coin || Insert(coin, c)[0] == c[0]
    decreases |c|
  {
    hide Less;
    if c == [] {
    } else if Less(c[0].denom, coin.denom) {
      assert WeaklySorted(c[1..]) by {
        forall i | 0 < i < |c[1..]|
          ensures !Less(c[1..][i].denom, c[1..][i - 1].denom)
        {
          assert c[1..][i] == c[i + 1];
        }
      }
      InsertWeaklySorted(coin, c[1..]);
      LessAsymmetric(c[0].denom, coin.denom);
      WeaklySortedCons(c[0], Insert(coin, c[1..]));
    } else {
      WeaklySortedCons(coin, c);
    }
  }

  lemma AmtSingle(coin: Coin, d: string)
    ensures Amt([coin], d) == if coin.denom == d then coin.amount else 0
  {
    assert [coin][1..] == [];
  }

  /** Inserting the next coin of `c` into a permutation of those before it. */
  lemma InsertNext(c: Coins, i: nat, r: Coins)
    requires i < |c| && multiset(r) == multiset(c[..i]) && forall d: string :: Amt(r, d) == Amt(c[..i], d)
    ensures multiset(Insert(c[i], r)) == multiset(c[..i + 1])
    ensures forall d: string :: Amt(Insert(c[i], r), d) == Amt(c[..i + 1], d)
  {
    hide Less, Amt, Insert;
    assert c[..i + 1] == c[..i] + [c[i]];
    InsertAmt(c[i], r, "");
    forall d: string
      ensures Amt(Insert(c[i], r), d) == Amt(c[..i + 1], d)
    {
      InsertAmt(c[i], r, d);
      AmtConcat(c[..i], [c[i]], d);
      AmtSingle(c[i], d);
    }
  }

  /** `Sort`: a permutation in order; strictly sorted when the denominations are distinct. */
  method Sort(c: Coins) returns (r: Coins)
    ensures multiset(r) == multiset(c) && WeaklySorted(r)
    ensures forall d: string :: Amt(r, d) == Amt(c, d)
    ensures DistinctDenoms(c) ==> StrictlySorted(r)
  {
    hide Less, Amt;
    r := [];
    assert forall d: string :: Amt(c[..0], d) == Amt(r, d);
    for i := 0 to |c|
      invariant multiset(r) == multiset(c[..i]) && WeaklySorted(r)
      invariant forall d: string :: Amt(r, d) == Amt(c[..i], d)
      invariant DistinctDenoms(c) ==> StrictlySorted(r)
    {
      InsertWeaklySorted(c[i], r);
      if DistinctDenoms(c) {
        forall k | 0 <= k < |r|
          ensures r[k].denom != c[i].denom
        {
          assert r[k] in multiset(c[..i]);
        }
        InsertSorted(c[i], r);
      }
      InsertNext(c, i, r);
      r := Insert(c[i], r);
    }
    assert c[..|c|] == c;
  }

  // ---------------------------------------------------------------- addition and subtraction

  type Groups = map<string, Coins>

  /** Every group holds coins of its own denomination only. */
  predicate GroupsOk(g: Groups) {
    forall d :: d in g ==> forall i :: 0 <= i < |g[d]| ==> g[d][i].denom == d
  }

  function GroupTotal(g: Groups, d: string): (r: int) {
    if d in g then Amt(g[d], d) else 0
  }

  /** First phase of `safeAdd`: append every coin to the list of its denomination. */
  method Collect(g: Groups, c: Coins) returns (r: Groups)
    requires GroupsOk(g)
    ensures GroupsOk(r)
    ensures forall d: string :: GroupTotal(r, d) == GroupTotal(g, d) + Amt(c, d)
  {
    hide Amt;
    r := g;
    forall d: string
      ensures Amt(c[..0], d) == 0
    {
      AmtAbsent(c[..0], d);
    }
    for i := 0 to |c|
      invariant GroupsOk(r)
      invariant forall d: string :: GroupTotal(r, d) == GroupTotal(g, d) + Amt(c[..i], d)
    {
      var coin := c[i];
      assert c[..i + 1] == c[..i] + [coin];
      var group := if coin.denom in r then r[coin.denom] else [];
      assert GroupTotal(r, coin.denom) == Amt(group, coin.denom) by {
        AmtAbsent([], coin.denom);
      }
      forall d: string
        ensures Amt(group + [coin], d) == Amt(group, d) + (if coin.denom == d then coin.amount else 0)
        ensures Amt(c[..i + 1], d) == Amt(c[..i], d) + (if coin.denom == d then coin.amount else 0)
      {
        AmtConcat(group, [coin], d);
        AmtConcat(c[..i], [coin], d);
        AmtSingle(coin, d);
      }
      r := r[coin.denom := group + [coin]];
    }
    assert c[..|c|] == c;
  }

  /** The total of one group, coin by coin. */
  method Total(c: Coins, d: string) returns (total: int)
    requires forall i :: 0 <= i < |c| ==> c[i].denom == d
    ensures total == Amt(c, d)
  {
    total := 0;
    for i := 0 to |c|
      invariant total == Amt(c[..i], d)
    {
      assert c[..i + 1] == c[..i] + [c[i]];
      AmtConcat(c[..i], [c[i]], d);
      total := total + c[i].amount;
    }
    assert c[..|c|] == c;
  }

  /** Second phase: one coin per non-zero group, in whatever order the map is iterated. */
  method Coalesce(g: Groups) returns (r: Coins)
    requires GroupsOk(g)
    ensures DistinctDenoms(r) && ZeroFree(r)
    ensures forall d: string :: Amt(r, d) == GroupTotal(g, d)
  {
    hide Amt;
    r := [];
    var todo := g.Keys;
    forall d: string
      ensures Amt([], d) == 0
    {
      AmtAbsent([], d);
    }
    while todo != {}
      invariant todo <= g.Keys
      invariant DistinctDenoms(r) && ZeroFree(r)
      invariant forall i :: 0 <= i < |r| ==> r[i].denom in g.Keys - todo
      invariant forall d: string :: Amt(r, d) == if d in todo then 0 else GroupTotal(g, d)
      decreases |todo|
    {
      var denom :| denom in todo;
      todo := todo - {denom};
      var total := Total(g[denom], denom);
      forall d: string
        ensures Amt(r + [Coin(denom, total)], d) == Amt(r, d) + if d == denom then total else 0
      {
        AmtConcat(r, [Coin(denom, total)], d);
        AmtSingle(Coin(denom, total), d);
      }
      if total != 0 {
        r := r + [Coin(denom, total)];
      }
    }
  }

  lemma NormalIfSorted(r: Coins, c: Coins)
    requires multiset(r) == multiset(c) && ZeroFree(c) && StrictlySorted(r)
    ensures Normal(r)
  {
    hide Less;
    forall i | 0 <= i < |r|
      ensures r[i].amount != 0
    {
      assert r[i] in multiset(c);
    }
  }

  lemma StrictIsWeak(c: Coins)
    ensures StrictlySorted(c) ==> WeaklySorted(c)
  {
    hide Less;
    if StrictlySorted(c) {
      forall i | 0 < i < |c|
        ensures !Less(c[i].denom, c[i - 1].denom)
      {
        LessAsymmetric(c[i - 1].denom, c[i].denom);
      }
    }
  }

  /**
   `safeAdd`: panics unless both lists are sorted; otherwise the canonical list of the pointwise
   sums, even when a list repeats a denomination.
   */
  method SafeAdd(a: Coins, b: Coins) returns (r: Option<Coins>)
    ensures r.Some? <==> WeaklySorted(a) && WeaklySorted(b)
    ensures r.Some? ==> Normal(r.value) && forall d: string :: Amt(r.value, d) == Amt(a, d) + Amt(b, d)
    ensures StrictlySorted(a) && StrictlySorted(b) ==> r == Some(Add(a, b))
  {
    hide Less, Amt, Combine;
    StrictIsWeak(a);
    StrictIsWeak(b);
    var sortedA := IsSorted(a);
    if !sortedA {
      return None;
    }
    var sortedB := IsSorted(b);
    if !sortedB {
      return None;
    }
    var groups := Collect(map[], a);
    groups := Collect(groups, b);
    var coalesced := Coalesce(groups);
    var sorted := Sort(coalesced);
    NormalIfSorted(sorted, coalesced);
    if StrictlySorted(a) && StrictlySorted(b) {
      CombineNormal(Plus, a, b);
      forall d: string
        ensures Amt(Add(a, b), d) == Amt(sorted, d)
      {
        CombineAmt(Plus, a, b, d);
      }
      Canonical(Add(a, b), sorted);
    }
    r := Some(sorted);
  }

  /** The non-zero coins of a list. */
  function NonZero(c: Coins): (r: Coins)
    decreases |c|
  {
    if c == [] then [] else if c[0].amount == 0 then NonZero(c[1..]) else [c[0]] + NonZero(c[1..])
  }

  lemma {:induction false} NonZeroOk(c: Coins)
    ensures ZeroFree(NonZero(c))
    ensures forall d: string :: Amt(NonZero(c), d) == Amt(c, d)
    ensures ZeroFree(c) ==> NonZero(c) == c
    decreases |c|
  {
    if c == [] {
    } else {
      NonZeroOk(c[1..]);
      assert ([c[0]] + NonZero(c[1..]))[1..] == NonZero(c[1..]);
      assert [c[0]] + c[1..] == c;
    }
  }

  method RemoveZeroCoins(c: Coins) returns (r: Coins)
    ensures r == NonZero(c)
  {
    r := [];
    for i := 0 to |c|
      invariant r + NonZero(c[i..]) == NonZero(c)
    {
      assert c[i..][1..] == c[i + 1..];
      if c[i].amount != 0 {
        assert r + ([c[i]] + NonZero(c[i + 1..])) == r + [c[i]] + NonZero(c[i + 1..]);
        r := r + [c[i]];
      }
    }
  }

  /** The lists `NewCoins` accepts: apart from zero coins, valid and without repetition, in any order. */
  predicate Sanitizable(c: Coins) {
    && DistinctDenoms(NonZero(c))
    && forall i :: 0 <= i < |NonZero(c)| ==> ValidDenom(NonZero(c)[i].denom) && NonZero(c)[i].amount > 0
  }

  lemma OccursTwice(c: Coins, i: nat, j: nat)
    requires i < j < |c| && c[i] == c[j]
    ensures multiset(c)[c[i]] >= 2
  {
    assert c == c[..j] + [c[j]] + c[j + 1..];
    assert c[i] == c[..j][i] && c[i] in multiset(c[..j]);
  }

  lemma OccursOnce(c: Coins, k: nat)
    requires StrictlySorted(c) && k < |c|
    ensures multiset(c)[c[k]] == 1
  {
    hide Less;
    var before, after := c[..k], c[k + 1..];
    assert c == before + [c[k]] + after;
    forall i | 0 <= i < |c| && i != k
      ensures c[i] != c[k]
    {
      if i < k {
        LessAsymmetric(c[i].denom, c[k].denom);
      } else {
        LessAsymmetric(c[k].denom, c[i].denom);
      }
    }
    assert c[k] !in before && c[k] !in after;
  }

  lemma SortedMeansDistinct(sorted: Coins, c: Coins)
    requires multiset(sorted) == multiset(c) && StrictlySorted(sorted)
    ensures DistinctDenoms(c)
  {
    hide Less;
    forall i, j | 0 <= i < j < |c|
      ensures c[i].denom != c[j].denom
    {
      if c[i].denom == c[j].denom {
        assert c[i] in multiset(sorted) && c[j] in multiset(sorted);
        var k :| 0 <= k < |sorted| && sorted[k] == c[i];
        var l :| 0 <= l < |sorted| && sorted[l] == c[j];
        if k < l {
          LessAsymmetric(sorted[k].denom, sorted[l].denom);
        } else if l < k {
          LessAsymmetric(sorted[l].denom, sorted[k].denom);
        } else {
          OccursTwice(c, i, j);
          OccursOnce(sorted, k);
        }
      }
    }
  }

  lemma PermutationValid(sorted: Coins, c: Coins)
    requires multiset(sorted) == multiset(c)
    requires DistinctDenoms(c) ==> StrictlySorted(sorted)
    ensures Valid(sorted) <==>
            DistinctDenoms(c) && forall i :: 0 <= i < |c| ==> ValidDenom(c[i].denom) && c[i].amount > 0
  {
    hide Less, ValidDenom;
    forall i | 0 <= i < |c|
      ensures exists k :: 0 <= k < |sorted| && sorted[k] == c[i]
    {
      assert c[i] in multiset(sorted);
    }
    forall k | 0 <= k < |sorted|
      ensures exists i :: 0 <= i < |c| && c[i] == sorted[k]
    {
      assert sorted[k] in multiset(c);
    }
    if StrictlySorted(sorted) {
      SortedMeansDistinct(sorted, c);
    }
  }

  /** `NewCoins`: drop zeros, sort, and panic unless the result is valid. On a valid set it is the identity. */
  method NewCoins(c: Coins) returns (r: Option<Coins>)
    ensures r.Some? <==> Sanitizable(c)
    ensures r.Some? ==> Valid(r.value) && forall d: string :: Amt(r.value, d) == Amt(c, d)
    ensures Valid(c) ==> r == Some(c)
  {
    hide Less, Amt, ValidDenom;
    var nonZero := RemoveZeroCoins(c);
    NonZeroOk(c);
    var sorted := Sort(nonZero);
    if Valid(c) {
      forall i, j | 0 <= i < j < |c|
        ensures c[i].denom != c[j].denom
      {
        LessAsymmetric(c[i].denom, c[j].denom);
      }
      NormalIfSorted(sorted, c);
      Canonical(sorted, c);
    }
    PermutationValid(sorted, nonZero);
    var ok := Validate(sorted);
    r := if ok then Some(sorted) else None;
  }

  function Negated(c: Coins): (r: Coins)
    ensures |r| == |c| && forall i :: 0 <= i < |c| ==> r[i] == Coin(c[i].denom, -c[i].amount)
  {
    seq(|c|, i requires 0 <= i < |c| => Coin(c[i].denom, -c[i].amount))
  }

  lemma {:induction false} NegatedAmt(c: Coins, d: string)
    ensures Amt(Negated(c), d) == -Amt(c, d)
    decreases |c|
  {
    if c == [] {
    } else {
      assert Negated(c)[1..] == Negated(c[1..]);
      NegatedAmt(c[1..], d);
    }
  }

  method IsAnyNegative(c: Coins) returns (r: bool)
    ensures r <==> exists i :: 0 <= i < |c| && c[i].amount < 0
  {
    for i := 0 to |c|
      invariant forall k :: 0 <= k < i ==> c[k].amount >= 0
    {
      if c[i].amount < 0 {
        return true;
      }
    }
    r := false;
  }

  /** `SafeSub` on valid sets: the pointwise difference, and whether some denomination was short. */
  method SafeSub(a: Coins, b: Coins) returns (r: Option<(Coins, bool)>)
    ensures Valid(a) && Valid(b) ==> r.Some? && r.value.0 == Sub(a, b) && (r.value.1 <==> !AllGTE(a, b))
    ensures r.Some? <==> WeaklySorted(a) && Sanitizable(b)
  {
    hide Less, Amt, Combine, ValidDenom;
    var newB := NewCoins(b);
    if newB.None? {
      return None;
    }
    var negative := Negated(newB.value);
    assert StrictlySorted(negative);
    StrictIsWeak(negative);
    var diff := SafeAdd(a, negative);
    if diff.None? {
      return None;
    }
    var hasNeg := IsAnyNegative(diff.value);
    r := Some((diff.value, hasNeg));
    if Valid(a) && Valid(b) {
      CombineNormal(Minus, a, b);
      forall d: string
        ensures Amt(Sub(a, b), d) == Amt(diff.value, d)
      {
        CombineAmt(Minus, a, b, d);
        NegatedAmt(b, d);
      }
      Canonical(Sub(a, b), diff.value);
      NegativeIffNotAllGTE(a, b);
    }
  }

  // ---------------------------------------------------------------- comparison

  /** `IsAllGTE` on valid sets decides the pointwise order; it panics if it looks up an invalid denomination. */
  method IsAllGTE(a: Coins, b: Coins) returns (r: Option<bool>)
    ensures Valid(a) && Valid(b) ==> r.Some? && (r.value <==> AllGTE(a, b))
  {
    hide Less, Amt, ValidDenom, Find;
    if |b| == 0 {
      if Valid(a) {
        forall d: string
          ensures Amt(a, d) >= Amt(b, d)
        {
          AmtAbsent(b, d);
          ValidAmt(a, d);
        }
      }
      return Some(true);
    }
    if |a| == 0 {
      if Valid(b) {
        AmtAt(b, 0);
        AmtAbsent(a, b[0].denom);
      }
      return Some(false);
    }
    for i := 0 to |b|
      invariant Valid(a) ==> forall k :: 0 <= k < i ==> b[k].amount <= Amt(a, b[k].denom)
    {
      var amount := AmountOf(a, b[i].denom);
      if amount.None? {
        return None;
      }
      if Valid(a) {
        FindIsScan(a, b[i].denom);
      }
      if b[i].amount > amount.value {
        if Valid(b) {
          AmtAt(b, i);
        }
        return Some(false);
      }
    }
    if Valid(a) && Valid(b) {
      forall d: string
        ensures Amt(a, d) >= Amt(b, d)
      {
        ValidAmt(a, d);
        if Amt(b, d) != 0 {
          AmtPresent(b, d);
          var i :| 0 <= i < |b| && b[i].denom == d;
          AmtAt(b, i);
        }
      }
    }
    r := Some(true);
  }

  ghost predicate SameAmounts(a: Coins, b: Coins) {
    forall d: string :: Amt(a, d) == Amt(b, d)
  }

  lemma SameAmountsSameCoins(a: Coins, b: Coins)
    requires Normal(a) && Normal(b)
    ensures SameAmounts(a, b) <==> a == b
  {
    hide Less, Amt;
    if SameAmounts(a, b) {
      Canonical(a, b);
    }
  }

  lemma SameFirst(a: Coins, b: Coins)
    requires StrictlySorted(a) && StrictlySorted(b) && multiset(a) == multiset(b) && a != [] && b != []
    ensures a[0] == b[0]
  {
    hide Less;
    assert a[0] in multiset(b) && b[0] in multiset(a);
    var i :| 0 <= i < |b| && b[i] == a[0];
    var j :| 0 <= j < |a| && a[j] == b[0];
    if i > 0 && j > 0 {
      LessAsymmetric(a[0].denom, b[0].denom);
    }
  }

  /** A strictly sorted list is determined by its elements. */
  lemma {:induction false} SortedSameElements(a: Coins, b: Coins)
    requires StrictlySorted(a) && StrictlySorted(b) && multiset(a) == multiset(b)
    ensures a == b
    decreases |a|
  {
    hide Less, Amt, StrictlySorted;
    assert |a| == |multiset(a)| == |multiset(b)| == |b|;
    if a == [] {
    } else {
      SameFirst(a, b);
      assert a == [a[0]] + a[1..] && b == [b[0]] + b[1..];
      assert multiset(a[1..]) == multiset(a) - multiset{a[0]} == multiset(b[1..]);
      SortedTail(a);
      SortedTail(b);
      SortedSameElements(a[1..], b[1..]);
    }
  }

  lemma SortedIsItself(c: Coins, sorted: Coins)
    requires Valid(c) && multiset(sorted) == multiset(c)
    requires DistinctDenoms(c) ==> StrictlySorted(sorted)
    requires forall d: string :: Amt(sorted, d) == Amt(c, d)
    ensures sorted == c
  {
    hide Less, Amt, ValidDenom;
    forall i, j | 0 <= i < j < |c|
      ensures c[i].denom != c[j].denom
    {
      LessAsymmetric(c[i].denom, c[j].denom);
    }
    NormalIfSorted(sorted, c);
    Canonical(sorted, c);
  }

  /**
   `Equal`, which sorts first. What it calls equal has the same coins; with distinct denominations
   it finds that out in whatever order they come; on valid sets it is equality of amounts. (With
   repeated denominations its answer depends on how the sort orders them.)
   */
  method Equal(a: Coins, b: Coins) returns (r: bool)
    ensures r ==> multiset(a) == multiset(b)
    ensures DistinctDenoms(a) && DistinctDenoms(b) ==> (r <==> multiset(a) == multiset(b))
    ensures Valid(a) && Valid(b) ==> (r <==> a == b) && (r <==> SameAmounts(a, b))
  {
    hide Less, Amt, ValidDenom, SameAmounts;
    if Valid(a) && Valid(b) {
      SameAmountsSameCoins(a, b);
    }
    assert |a| == |multiset(a)| && |b| == |multiset(b)|;
    if |a| != |b| {
      return false;
    }
    var sortedA := Sort(a);
    var sortedB := Sort(b);
    if Valid(a) {
      SortedIsItself(a, sortedA);
    }
    if Valid(b) {
      SortedIsItself(b, sortedB);
    }
    assert |sortedA| == |multiset(sortedA)| == |a| && |sortedB| == |multiset(sortedB)| == |b|;
    if DistinctDenoms(a) && DistinctDenoms(b) && multiset(a) == multiset(b) {
      SortedSameElements(sortedA, sortedB);
    }
    for i := 0 to |sortedA|
      invariant forall k :: 0 <= k < i ==> sortedA[k] == sortedB[k]
    {
      if sortedA[i] != sortedB[i] {
        return false;
      }
    }
    assert sortedA == sortedB;
    r := true;
  }

  // ---------------------------------------------------------------- maximum and minimum

  /** The step of a two-pointer merge that takes a coin from `a` only. */
  lemma TakeLeft(op: Op, a: Coins, b: Coins, i: nat, j: nat)
    requires i < |a| && j <= |b| && (j < |b| ==> Less(a[i].denom, b[j].denom))
    ensures Combine(op, a[i..], b[j..]) == Prepend(a[i].denom, op(a[i].amount, 0), Combine(op, a[i + 1..], b[j..]))
  {
    hide Less;
    assert a[i..][1..] == a[i + 1..];
  }

  lemma TakeRight(op: Op, a: Coins, b: Coins, i: nat, j: nat)
    requires i <= |a| && j < |b| && (i < |a| ==> Less(b[j].denom, a[i].denom))
    ensures Combine(op, a[i..], b[j..]) == Prepend(b[j].denom, op(0, b[j].amount), Combine(op, a[i..], b[j + 1..]))
  {
    if i < |a| {
      LessAsymmetric(b[j].denom, a[i].denom);
    }
    hide Less;
    assert b[j..][1..] == b[j + 1..];
  }

  lemma TakeBoth(op: Op, a: Coins, b: Coins, i: nat, j: nat)
    requires i < |a| && j < |b| && a[i].denom == b[j].denom
    ensures Combine(op, a[i..], b[j..]) ==
            Prepend(a[i].denom, op(a[i].amount, b[j].amount), Combine(op, a[i + 1..], b[j + 1..]))
  {
    LessIrreflexive(a[i].denom);
    hide Less;
    assert a[i..][1..] == a[i + 1..] && b[j..][1..] == b[j + 1..];
  }

  /** The part of a merge that is done, followed by what is left, is the whole. */
  ghost predicate Merging(op: Op, a: Coins, b: Coins, i: nat, j: nat, acc: Coins) {
    i <= |a| && j <= |b| && acc + Combine(op, a[i..], b[j..]) == Combine(op, a, b)
  }

  lemma MergingStart(op: Op, a: Coins, b: Coins)
    ensures Merging(op, a, b, 0, 0, [])
  {
    hide Combine;
    assert a[0..] == a && b[0..] == b;
  }

  lemma MergingEnd(op: Op, a: Coins, b: Coins, acc: Coins)
    requires Merging(op, a, b, |a|, |b|, acc)
    ensures acc == Combine(op, a, b)
  {
    assert a[|a|..] == [] && b[|b|..] == [];
    assert Combine(op, a[|a|..], b[|b|..]) == [];
  }

  /** What a step appends: nothing for a zero amount. */
  lemma MergingStep(op: Op, a: Coins, b: Coins, i: nat, j: nat, acc: Coins, d: string, amount: int, i': nat, j': nat)
    requires Merging(op, a, b, i, j, acc) && i' <= |a| && j' <= |b|
    requires Combine(op, a[i..], b[j..]) == Prepend(d, amount, Combine(op, a[i'..], b[j'..]))
    ensures Merging(op, a, b, i', j', if amount == 0 then acc else acc + [Coin(d, amount)])
  {
    hide Combine;
    var rest := Combine(op, a[i'..], b[j'..]);
    assert acc + ([Coin(d, amount)] + rest) == acc + [Coin(d, amount)] + rest;
  }

  lemma MergeLeft(op: Op, a: Coins, b: Coins, i: nat, j: nat, acc: Coins)
    requires Merging(op, a, b, i, j, acc)
    requires i < |a| && (j < |b| ==> Less(a[i].denom, b[j].denom))
    ensures
      var amount := op(a[i].amount, 0);
      Merging(op, a, b, i + 1, j, if amount == 0 then acc else acc + [Coin(a[i].denom, amount)])
  {
    hide Combine, Less;
    TakeLeft(op, a, b, i, j);
    MergingStep(op, a, b, i, j, acc, a[i].denom, op(a[i].amount, 0), i + 1, j);
  }

  lemma MergeRight(op: Op, a: Coins, b: Coins, i: nat, j: nat, acc: Coins)
    requires Merging(op, a, b, i, j, acc)
    requires j < |b| && (i < |a| ==> Less(b[j].denom, a[i].denom))
    ensures
      var amount := op(0, b[j].amount);
      Merging(op, a, b, i, j + 1, if amount == 0 then acc else acc + [Coin(b[j].denom, amount)])
  {
    hide Combine, Less;
    TakeRight(op, a, b, i, j);
    MergingStep(op, a, b, i, j, acc, b[j].denom, op(0, b[j].amount), i, j + 1);
  }

  lemma MergeBoth(op: Op, a: Coins, b: Coins, i: nat, j: nat, acc: Coins)
    requires Merging(op, a, b, i, j, acc)
    requires i < |a| && j < |b| && a[i].denom == b[j].denom
    ensures
      var amount := op(a[i].amount, b[j].amount);
      Merging(op, a, b, i + 1, j + 1, if amount == 0 then acc else acc + [Coin(a[i].denom, amount)])
  {
    hide Combine, Less;
    TakeBoth(op, a, b, i, j);
    MergingStep(op, a, b, i, j, acc, a[i].denom, op(a[i].amount, b[j].amount), i + 1, j + 1);
  }

  /** `Max`: two pointers, then `NewCoins`. */
  method MaxCoins(a: Coins, b: Coins) returns (r: Option<Coins>)
    ensures Valid(a) && Valid(b) ==> r == Some(MaxOf(a, b))
  {
    hide Less, Amt, ValidDenom, Combine, Merging;
    var maximum: Coins := [];
    var i, j := 0, 0;
    ghost var valid := Valid(a) && Valid(b);
    MergingStart(Larger, a, b);
    while i < |a| && j < |b|
      invariant i <= |a| && j <= |b|
      invariant valid ==> Merging(Larger, a, b, i, j, maximum)
      decreases |a| - i + |b| - j
    {
      var coinA, coinB := a[i], b[j];
      if Less(coinA.denom, coinB.denom) {
        if valid { MergeLeft(Larger, a, b, i, j, maximum); }
        maximum := maximum + [coinA];
        i := i + 1;
      } else if coinA.denom == coinB.denom {
        if valid { MergeBoth(Larger, a, b, i, j, maximum); }
        var maxCoin := coinA;
        if coinB.amount > maxCoin.amount {
          maxCoin := coinB;
        }
        maximum := maximum + [maxCoin];
        i, j := i + 1, j + 1;
      } else {
        LessTotal(coinA.denom, coinB.denom);
        if valid { MergeRight(Larger, a, b, i, j, maximum); }
        maximum := maximum + [coinB];
        j := j + 1;
      }
    }
    while i < |a|
      invariant i <= |a| && j <= |b| && (i == |a| || j == |b|)
      invariant valid ==> Merging(Larger, a, b, i, j, maximum)
    {
      if valid { MergeLeft(Larger, a, b, i, j, maximum); }
      maximum := maximum + [a[i]];
      i := i + 1;
    }
    while j < |b|
      invariant j <= |b|
      invariant valid ==> Merging(Larger, a, b, i, j, maximum)
    {
      if valid { MergeRight(Larger, a, b, i, j, maximum); }
      maximum := maximum + [b[j]];
      j := j + 1;
    }
    if valid {
      MergingEnd(Larger, a, b, maximum);
      ResultsValid(a, b);
    }
    r := NewCoins(maximum);
  }

  /** Once one list is used up, the minimum has nothing more. */
  lemma {:induction false} MinRest(a: Coins, b: Coins, i: nat, j: nat, acc: Coins)
    requires Valid(a) && Valid(b) && (i == |a| || j == |b|) && Merging(Smaller, a, b, i, j, acc)
    ensures Merging(Smaller, a, b, |a|, |b|, acc)
    decreases |a| - i + |b| - j
  {
    hide Less, Combine, ValidDenom;
    if i < |a| {
      MergeLeft(Smaller, a, b, i, j, acc);
      MinRest(a, b, i + 1, j, acc);
    } else if j < |b| {
      MergeRight(Smaller, a, b, i, j, acc);
      MinRest(a, b, i, j + 1, acc);
    }
  }

  /** `Min`: two pointers, then `NewCoins`. */
  method MinCoins(a: Coins, b: Coins) returns (r: Option<Coins>)
    ensures Valid(a) && Valid(b) ==> r == Some(MinOf(a, b))
  {
    hide Less, Amt, ValidDenom, Combine, Merging;
    var minimum: Coins := [];
    var i, j := 0, 0;
    ghost var valid := Valid(a) && Valid(b);
    MergingStart(Smaller, a, b);
    while i < |a| && j < |b|
      invariant i <= |a| && j <= |b|
      invariant valid ==> Merging(Smaller, a, b, i, j, minimum)
      decreases |a| - i + |b| - j
    {
      var coinA, coinB := a[i], b[j];
      if Less(coinA.denom, coinB.denom) {
        if valid { MergeLeft(Smaller, a, b, i, j, minimum); }
        i := i + 1;
      } else if coinA.denom == coinB.denom {
        if valid { MergeBoth(Smaller, a, b, i, j, minimum); }
        var minCoin := coinA;
        if coinB.amount < minCoin.amount {
          minCoin := coinB;
        }
        if minCoin.amount != 0 {
          minimum := minimum + [minCoin];
        }
        i, j := i + 1, j + 1;
      } else {
        LessTotal(coinA.denom, coinB.denom);
        if valid { MergeRight(Smaller, a, b, i, j, minimum); }
        j := j + 1;
      }
    }
    if valid {
      MinRest(a, b, i, j, minimum);
      MergingEnd(Smaller, a, b, minimum);
      ResultsValid(a, b);
    }
    r := NewCoins(minimum);
  }
}
