/**
 The text form of decimal coin sets: `DecCoins.String` and `ParseDecCoins`. The decimal format is
 the one of the `LegacyDec` library type: 18 decimals, always written out.
 */
module DecText {
  import opened Prelude
  import opened Denoms
  import opened Texts
  import opened Coins
  import opened CoinOps

  const DECIMALS: nat := 18

  /** Decimals have at most 315 bits. */
  const DECIMAL_LIMIT: int := TWO_63 * TWO_63 * TWO_63 * TWO_63 * TWO_63

  // ---------------------------------------------------------------- decimals

  function Unsigned(n: nat): (s: string) {
    var digits := Digits(n);
    if |digits| <= DECIMALS then "0." + Zeros(DECIMALS - |digits|) + digits
    else digits[..|digits| - DECIMALS] + "." + digits[|digits| - DECIMALS..]
  }

  /** `LegacyDec.String`: the digits with a point before the last 18, after at least one digit. */
  function DecString(x: int): (s: string) {
    if x < 0 then "-" + Unsigned(-x) else Unsigned(x)
  }

  /** `LegacyNewDecFromStr`. */
  function DecFromString(text: string): (r: Option<int>) {
    var neg := text != [] && text[0] == '-';
    var s := if neg then text[1..] else text;
    if s == [] then None
    else
      var strs := Split(s, '.');
      if |strs| > 2 || (|strs| == 2 && (strs[1] == [] || strs[0] == [])) then None
      else
        var decimals := if |strs| == 2 then strs[1] else [];
        if |decimals| > DECIMALS then None
        else
          var combined := BigFromString(strs[0] + decimals + Zeros(DECIMALS - |decimals|));
          if combined.None? || !(-DECIMAL_LIMIT < combined.value < DECIMAL_LIMIT) then None
          else Some(if neg then -combined.value else combined.value)
  }

  /** The two sides of the point, with the integer they spell. */
  lemma UnsignedShape(n: nat) returns (whole: string, decimals: string)
    ensures Unsigned(n) == whole + "." + decimals
    ensures whole != [] && AllDigits(whole) && |decimals| == DECIMALS && AllDigits(decimals)
    ensures Value(whole + decimals) == n
  {
    hide Digits, Value, Zeros;
    var digits := Digits(n);
    ValueOfDigits(n);
    if |digits| <= DECIMALS {
      ZerosAre(DECIMALS - |digits|);
      ZerosAre(1 + DECIMALS - |digits|);
      whole, decimals := "0", Zeros(DECIMALS - |digits|) + digits;
      assert Unsigned(n) == whole + "." + decimals;
      assert whole + decimals == Zeros(1 + DECIMALS - |digits|) + digits;
      LeadingZeros(1 + DECIMALS - |digits|, digits);
    } else {
      whole, decimals := digits[..|digits| - DECIMALS], digits[|digits| - DECIMALS..];
      assert whole + decimals == digits;
    }
  }

  lemma DecRoundTrip(x: int)
    requires -DECIMAL_LIMIT < x < DECIMAL_LIMIT
    ensures DecFromString(DecString(x)) == Some(x)
  {
    hide Unsigned, Value, Zeros, Digits;
    var n: nat := if x < 0 then -x else x;
    var whole, decimals := UnsignedShape(n);
    var s := Unsigned(n);
    assert s[0] == whole[0];
    assert DecString(x)[if x < 0 then 1 else 0..] == s;
    SplitFirst(whole, '.', decimals);
    SplitWhole(decimals, '.');
    assert Split(s, '.') == [whole, decimals];
    assert whole + decimals + Zeros(0) == whole + decimals;
    assert BigFromString(whole + decimals) == Some(n);
  }

  /**
   `s` spells `n` with a point before its last 18 digits, at least one digit before the point, and no
   superfluous leading zero.
   */
  predicate IsDec(s: string, n: nat) {
    && |s| > DECIMALS + 1
    && var p := |s| - DECIMALS - 1;
       && s[p] == '.' && AllDigits(s[..p] + s[p + 1..]) && Value(s[..p] + s[p + 1..]) == n
       && (p > 1 ==> s[0] != '0')
  }

  lemma {:induction false} DigitsNoLonger(s: string)
    requires s != [] && AllDigits(s)
    ensures |Digits(Value(s))| <= |s|
    decreases |s|
  {
    var k := |s| - 1;
    if k == 0 {
      assert s[..0] == [];
    } else {
      DigitsNoLonger(s[..k]);
      var a := Value(s[..k]);
      assert Value(s) / 10 == a;
    }
  }

  /** Digits of the same length that spell the same number are the same. */
  lemma {:induction false} ValueInjective(s: string, t: string)
    requires AllDigits(s) && AllDigits(t) && |s| == |t| && Value(s) == Value(t)
    ensures s == t
    decreases |s|
  {
    if s == [] {
    } else {
      var k := |s| - 1;
      assert DigitChar(DigitValue(s[k])) == s[k] && DigitChar(DigitValue(t[k])) == t[k];
      ValueInjective(s[..k], t[..k]);
      assert s == s[..k] + [s[k]] && t == t[..k] + [t[k]];
    }
  }

  /** With more than one digit before the point, the first is that of the number itself. */
  lemma LongWhole(n: nat)
    requires |Unsigned(n)| > DECIMALS + 2
    ensures Unsigned(n)[0] != '0'
  {
    hide Value;
    assert |Digits(n)| > DECIMALS + 1;
    assert n > 0;
    DigitsLead(n);
    assert Unsigned(n)[0] == Digits(n)[0];
  }

  lemma UnsignedIsDec(n: nat)
    ensures IsDec(Unsigned(n), n)
  {
    hide Digits, Value, Zeros;
    var whole, decimals := UnsignedShape(n);
    var s, p := Unsigned(n), |whole|;
    assert s[..p] == whole && s[p + 1..] == decimals && s[p] == '.';
    if p > 1 {
      LongWhole(n);
    }
  }

  lemma PointAt(s: string, n: nat)
    requires IsDec(s, n)
    ensures
      var p := |s| - DECIMALS - 1;
      s == s[..p] + "." + s[p + 1..]
  {
    hide Value, AllDigits;
  }

  /** Two texts of the same length with the same digits around their points are the same. */
  lemma SameDecs(s: string, u: string, n: nat)
    requires IsDec(s, n) && IsDec(u, n) && |s| == |u|
    ensures s == u
  {
    var p := |s| - DECIMALS - 1;
    var t, v := s[..p] + s[p + 1..], u[..p] + u[p + 1..];
    assert t == v by {
      ValueInjective(t, v);
    }
    hide Value, IsDec, AllDigits;
    assert s[..p] == t[..p] && u[..p] == v[..p];
    assert s[p + 1..] == t[p..] && u[p + 1..] == v[p..];
    assert s == s[..p] + "." + s[p + 1..] && u == u[..p] + "." + u[p + 1..] by {
      PointAt(s, n);
      PointAt(u, n);
    }
  }

  lemma SameLength(s: string, n: nat)
    requires IsDec(s, n)
    ensures |s| == |Unsigned(n)|
  {
    hide Value, Zeros;
    var p := |s| - DECIMALS - 1;
    var t := s[..p] + s[p + 1..];
    assert |Unsigned(n)| == if |Digits(n)| <= DECIMALS then DECIMALS + 2 else |Digits(n)| + 1;
    DigitsNoLonger(t);
    if p > 1 {
      assert t[0] == s[0];
      DigitsExactly(n, t);
    }
  }

  lemma DecIsUnsigned(s: string, n: nat)
    requires IsDec(s, n)
    ensures s == Unsigned(n)
  {
    hide IsDec, Unsigned;
    UnsignedIsDec(n);
    SameLength(s, n);
    SameDecs(s, Unsigned(n), n);
  }

  /** The text of a decimal: a minus sign exactly for negative ones, and all 18 decimals. */
  lemma DecStringExactly(x: int, s: string)
    ensures s == DecString(x) <==>
            if x < 0 then s != [] && s[0] == '-' && IsDec(s[1..], -x) else IsDec(s, x)
  {
    hide IsDec, Unsigned;
    if x < 0 {
      UnsignedIsDec(-x);
      if s != [] && IsDec(s[1..], -x) {
        DecIsUnsigned(s[1..], -x);
      }
      assert s != [] ==> s == [s[0]] + s[1..];
    } else {
      UnsignedIsDec(x);
      if IsDec(s, x) {
        DecIsUnsigned(s, x);
      }
    }
  }

  // ---------------------------------------------------------------- the coin grammar

  /** The length of the leading run of digits. */
  function DigitRun(s: string): (n: nat)
    ensures n <= |s| && AllDigits(s[..n]) && (n < |s| ==> !IsDigit(s[n]))
  {
    if s == [] || !IsDigit(s[0]) then 0 else 1 + DigitRun(s[1..])
  }

  /** The amount part of a coin: digits, digits with a point and decimals, or a point and decimals. */
  predicate IsAmount(s: string) {
    var n := DigitRun(s);
    if n == |s| then n > 0 else s[n] == '.' && n + 1 < |s| && AllDigits(s[n + 1..])
  }

  /** The class `[[:space:]]`. */
  predicate IsSpace(c: char) {
    9 <= c as int <= 13 || c == ' '
  }

  predicate AllSpaces(s: string) {
    forall i :: 0 <= i < |s| ==> IsSpace(s[i])
  }

  /** What the coin expression accepts: an amount, any white space, a denomination. */
  ghost predicate Matches(s: string, amount: string, denom: string) {
    && IsAmount(amount) && ValidDenom(denom)
    && exists space: string :: AllSpaces(space) && s == amount + space + denom
  }

  function FirstLetter(s: string): (n: nat)
    ensures n <= |s| && (forall i :: 0 <= i < n ==> !IsLetter(s[i])) && (n < |s| ==> IsLetter(s[n]))
  {
    if s == [] || IsLetter(s[0]) then 0 else 1 + FirstLetter(s[1..])
  }

  /** The groups of the match: the denomination starts at the first letter. */
  function MatchCoin(s: string): (r: Option<(string, string)>) {
    var n := FirstLetter(s);
    var amount, denom := TrimRight(s[..n], IsSpace), s[n..];
    if IsAmount(amount) && ValidDenom(denom) then Some((amount, denom)) else None
  }

  lemma AmountChars(s: string)
    requires IsAmount(s)
    ensures s != [] && (forall i :: 0 <= i < |s| ==> IsDigit(s[i]) || s[i] == '.') && IsDigit(s[|s| - 1])
  {
    var n := DigitRun(s);
    assert forall i :: 0 <= i < n ==> s[i] == s[..n][i];
    if n < |s| {
      assert forall i :: n < i < |s| ==> s[i] == s[n + 1..][i - (n + 1)];
    }
  }

  lemma MatchFound(amount: string, space: string, denom: string)
    requires IsAmount(amount) && AllSpaces(space) && ValidDenom(denom)
    ensures MatchCoin(amount + space + denom) == Some((amount, denom))
  {
    var s, n := amount + space + denom, |amount| + |space|;
    AmountChars(amount);
    hide IsAmount, DigitRun;
    assert forall i :: 0 <= i < |amount| ==> s[i] == amount[i];
    assert forall i :: |amount| <= i < n ==> s[i] == space[i - |amount|];
    assert s[n] == denom[0];
    assert FirstLetter(s) == n;
    assert s[..n] == amount + space && s[n..] == denom;
    TrimRightPadded(amount, space, IsSpace);
  }

  /** The split into amount and denomination is unambiguous, and the scan finds it. */
  lemma MatchIsUnique(s: string, amount: string, denom: string)
    ensures Matches(s, amount, denom) <==> MatchCoin(s) == Some((amount, denom))
  {
    hide IsAmount, ValidDenom, IsSpace, IsLetter;
    if Matches(s, amount, denom) {
      var space: string :| AllSpaces(space) && s == amount + space + denom;
      MatchFound(amount, space, denom);
    }
    if MatchCoin(s) == Some((amount, denom)) {
      var n := FirstLetter(s);
      TrimRightOk(s[..n], IsSpace);
      var space := s[|amount|..n];
      assert AllSpaces(space) && s == amount + space + denom;
    }
  }

  // ---------------------------------------------------------------- coins

  function CoinString(coin: Coin): (s: string) {
    DecString(coin.amount) + coin.denom
  }

  /** `ParseDecCoin`; its amounts carry no sign, so `NewDecCoinFromDec` never panics. */
  function ParseDecCoin(text: string): (r: Option<Coin>) {
    var m := MatchCoin(TrimSpace(text));
    if m.None? then None
    else
      var amount := DecFromString(m.value.0);
      if amount.None? then None else Some(Coin(m.value.1, amount.value))
  }

  predicate Printable(coin: Coin) {
    ValidDenom(coin.denom) && 0 <= coin.amount < DECIMAL_LIMIT
  }

  /** A coin is written as its amount with all decimals, directly followed by its denomination. */
  lemma CoinStringExactly(coin: Coin, s: string)
    requires coin.amount >= 0
    ensures s == CoinString(coin) <==>
            && |s| >= |coin.denom| && s[|s| - |coin.denom|..] == coin.denom
            && IsDec(s[..|s| - |coin.denom|], coin.amount)
  {
    hide IsDec, DecString;
    if |s| >= |coin.denom| {
      var amount, denom := s[..|s| - |coin.denom|], s[|s| - |coin.denom|..];
      DecStringExactly(coin.amount, amount);
      assert s == amount + denom;
    }
  }

  lemma CoinStringChars(coin: Coin)
    requires Printable(coin)
    ensures
      var s := CoinString(coin);
      s != [] && IsDigit(s[0]) && IsDenomChar(s[|s| - 1]) && ',' !in s
  {
    var whole, decimals := UnsignedShape(coin.amount);
    var s := CoinString(coin);
    assert s == whole + "." + decimals + coin.denom;
    assert s[0] == whole[0] && s[|s| - 1] == coin.denom[|coin.denom| - 1];
    assert ',' !in whole && ',' !in decimals && ',' !in coin.denom;
  }

  lemma DecIsAmount(whole: string, decimals: string)
    requires whole != [] && AllDigits(whole) && decimals != [] && AllDigits(decimals)
    ensures IsAmount(whole + "." + decimals)
  {
    var s := whole + "." + decimals;
    var n := DigitRun(s);
    assert forall i :: 0 <= i < |whole| ==> s[i] == whole[i];
    assert forall i :: 0 <= i < n ==> s[i] == s[..n][i];
    assert s[|whole|] == '.';
    assert n == |whole|;
    assert s[|whole| + 1..] == decimals;
  }

  lemma NothingToTrim(s: string)
    requires s != [] ==> IsDigit(s[0]) && IsDenomChar(s[|s| - 1])
    ensures TrimSpace(s) == s
  {
    hide TrimSpace;
    if s != [] {
      assert !IsUnicodeSpace(s[0]);
      assert !IsUnicodeSpace(s[|s| - 1]);
    }
  }

  lemma CoinRoundTrip(coin: Coin)
    requires Printable(coin)
    ensures ParseDecCoin(CoinString(coin)) == Some(coin)
  {
    var s := CoinString(coin);
    CoinStringChars(coin);
    NothingToTrim(s);
    var whole, decimals := UnsignedShape(coin.amount);
    var amount := Unsigned(coin.amount);
    DecIsAmount(whole, decimals);
    assert AllSpaces("") && s == amount + "" + coin.denom;
    MatchIsUnique(s, amount, coin.denom);
    DecRoundTrip(coin.amount);
  }

  // ---------------------------------------------------------------- coin sets

  /** The coins, separated by commas. */
  function CoinsString(c: Coins): (s: string) {
    if c == [] then ""
    else if |c| == 1 then CoinString(c[0])
    else CoinString(c[0]) + "," + CoinsString(c[1..])
  }

  /** `DecCoins.String`: a comma after every coin, and the last one cut off. */
  method String(c: Coins) returns (s: string)
    ensures s == CoinsString(c)
  {
    hide CoinString;
    if |c| == 0 {
      return "";
    }
    var out := "";
    for i := 0 to |c|
      invariant if i < |c| then out + CoinsString(c[i..]) == CoinsString(c) else out == CoinsString(c) + ","
    {
      assert c[i..][1..] == c[i + 1..];
      var before := out;
      out := out + (CoinString(c[i]) + ",");
      if i + 1 < |c| {
        assert out + CoinsString(c[i + 1..]) == before + CoinsString(c[i..]);
      } else {
        assert out == before + CoinsString(c[i..]) + ",";
      }
    }
    s := out[..|out| - 1];
  }

  /** The coins that a list of texts spells, if all of them parse. */
  function ParseAll(texts: seq<string>): (r: Option<Coins>) {
    if texts == [] then Some([])
    else
      var n := |texts| - 1;
      var before, last := ParseAll(texts[..n]), ParseDecCoin(texts[n]);
      if before.None? || last.None? then None else Some(before.value + [last.value])
  }

  /** The coins listed in a text, before they are sanitized. */
  function Listed(text: string): (r: Option<Coins>) {
    var s := TrimSpace(text);
    if s == [] then Some([]) else ParseAll(Split(s, ','))
  }

  /** The printed coins of a set. */
  function CoinStrings(c: Coins): (r: seq<string>)
    ensures |r| == |c| && forall i :: 0 <= i < |c| ==> r[i] == CoinString(c[i])
  {
    seq(|c|, i requires 0 <= i < |c| => CoinString(c[i]))
  }

  /** Commas separate: a printed set splits into its printed coins. */
  lemma {:induction false} SplitCoins(c: Coins)
    requires c != [] && forall i :: 0 <= i < |c| ==> Printable(c[i])
    ensures Split(CoinsString(c), ',') == CoinStrings(c)
    ensures var s := CoinsString(c); s != [] && IsDigit(s[0]) && IsDenomChar(s[|s| - 1])
    decreases |c|
  {
    hide CoinString, CoinStrings, Printable, Split;
    CoinStringChars(c[0]);
    if |c| == 1 {
      SplitWhole(CoinsString(c), ',');
    } else {
      SplitCoins(c[1..]);
      SplitFirst(CoinString(c[0]), ',', CoinsString(c[1..]));
    }
  }

  lemma {:induction false} ParseAllCoins(c: Coins)
    requires forall i :: 0 <= i < |c| ==> Printable(c[i])
    ensures ParseAll(CoinStrings(c)) == Some(c)
    decreases |c|
  {
    hide CoinString, CoinStrings, ParseDecCoin, Printable;
    if c == [] {
    } else {
      var n := |c| - 1;
      ParseAllCoins(c[..n]);
      assert CoinStrings(c)[..n] == CoinStrings(c[..n]);
      CoinRoundTrip(c[n]);
      assert c[..n] + [c[n]] == c;
    }
  }

  lemma ListedParts(s: string)
    requires s != [] ==> IsDigit(s[0]) && IsDenomChar(s[|s| - 1])
    ensures Listed(s) == if s == [] then Some([]) else ParseAll(Split(s, ','))
  {
    hide TrimSpace, ParseAll, Split, IsDigit, IsDenomChar;
    NothingToTrim(s);
  }

  /** Parsing finds exactly the printed coins. */
  lemma ListedIsInverse(c: Coins)
    requires forall i :: 0 <= i < |c| ==> Printable(c[i])
    ensures Listed(CoinsString(c)) == Some(c)
  {
    if c == [] {
      ListedParts("");
    } else {
      hide Listed, CoinsString, CoinString, CoinStrings, ParseDecCoin, Printable, ParseAll, Split, IsDigit, IsDenomChar;
      SplitCoins(c);
      ListedParts(CoinsString(c));
      ParseAllCoins(c);
    }
  }

  /** One bad part spoils the list. */
  lemma {:induction false} ParseAllPrefix(texts: seq<string>, k: nat)
    requires k <= |texts| && ParseAll(texts[..k]).None?
    ensures ParseAll(texts).None?
    decreases |texts|
  {
    hide ParseDecCoin;
    if k < |texts| {
      var n := |texts| - 1;
      assert texts[..n][..k] == texts[..k];
      ParseAllPrefix(texts[..n], k);
    } else {
      assert texts[..k] == texts;
    }
  }

  /**
   `ParseDecCoins`. It succeeds exactly when every part parses and the non-zero coins are distinct;
   its result is the valid set with the listed amounts, so it undoes `String` on every valid set in range.
   */
  method ParseDecCoins(text: string) returns (r: Option<Coins>)
    ensures r.Some? <==> Listed(text).Some? && Sanitizable(Listed(text).value)
    ensures r.Some? ==> Valid(r.value) && forall d: string :: Amt(r.value, d) == Amt(Listed(text).value, d)
    ensures forall c: Coins :: text == CoinsString(c) && Valid(c) && (forall i :: 0 <= i < |c| ==> c[i].amount < DECIMAL_LIMIT)
              ==> r == Some(c)
  {
    hide ParseDecCoin, Amt, Less, ValidDenom, CoinsString, Split, TrimSpace;
    forall c: Coins | text == CoinsString(c) && Valid(c) && forall i :: 0 <= i < |c| ==> c[i].amount < DECIMAL_LIMIT
      ensures Listed(text) == Some(c)
    {
      ListedIsInverse(c);
    }
    var s := TrimSpace(text);
    if |s| == 0 {
      return Some([]);
    }
    var texts := Split(s, ',');
    var coins: Coins := [];
    for i := 0 to |texts|
      invariant ParseAll(texts[..i]) == Some(coins)
    {
      assert texts[..i + 1][..i] == texts[..i];
      var coin := ParseDecCoin(texts[i]);
      if coin.None? {
        ParseAllPrefix(texts, i + 1);
        return None;
      }
      coins := coins + [coin.value];
    }
    assert texts[..|texts|] == texts;
    r := NewCoins(coins);
  }
}
