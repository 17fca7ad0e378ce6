/** Decimal digits, and the string operations the parsers use. */
module Texts {
  import opened Prelude
  import opened Denoms

  // ---------------------------------------------------------------- decimal digits

  predicate AllDigits(s: string) {
    forall i :: 0 <= i < |s| ==> IsDigit(s[i])
  }

  function DigitValue(c: char): (d: nat)
    requires IsDigit(c)
    ensures d < 10
  {
    c as int - 48
  }

  function DigitChar(d: nat): (c: char)
    requires d < 10
    ensures IsDigit(c) && DigitValue(c) == d
  {
    (48 + d) as char
  }

  /** The shortest decimal text of `n`. */
  function Digits(n: nat): (s: string)
    ensures |s| >= 1 && AllDigits(s)
  {
    if n < 10 then [DigitChar(n)] else Digits(n / 10) + [DigitChar(n % 10)]
  }

  function Value(s: string): (n: nat)
    requires AllDigits(s)
  {
    if s == [] then 0 else Value(s[..|s| - 1]) * 10 + DigitValue(s[|s| - 1])
  }

  function Zeros(n: nat): (s: string)
    ensures |s| == n && AllDigits(s)
  {
    seq(n, _ => '0')
  }

  lemma ZerosAre(n: nat)
    ensures forall i :: 0 <= i < n ==> Zeros(n)[i] == '0'
  {
  }

  lemma {:induction false} ValueOfDigits(n: nat)
    ensures Value(Digits(n)) == n
  {
    if n >= 10 {
      ValueOfDigits(n / 10);
      var s := Digits(n);
      assert s[..|s| - 1] == Digits(n / 10);
    } else {
      assert Digits(n)[..0] == [];
    }
  }

  lemma {:induction false} LeadingZeros(k: nat, s: string)
    requires AllDigits(s)
    ensures Value(Zeros(k) + s) == Value(s)
    decreases k + |s|
  {
    var t := Zeros(k) + s;
    if s != [] {
      assert t[..|t| - 1] == Zeros(k) + s[..|s| - 1];
      LeadingZeros(k, s[..|s| - 1]);
    } else if k > 0 {
      assert t[..|t| - 1] == Zeros(k - 1) + s;
      LeadingZeros(k - 1, s);
    }
  }

  /** Decimal text: digits that spell `n`, without a superfluous leading zero. */
  predicate IsDecimal(s: string, n: nat) {
    s != [] && AllDigits(s) && Value(s) == n && (|s| > 1 ==> s[0] != '0')
  }

  lemma {:induction false} ValuePositive(s: string)
    requires s != [] && AllDigits(s) && s[0] != '0'
    ensures Value(s) >= 1
    decreases |s|
  {
    if |s| == 1 {
      assert s[..0] == [];
    } else {
      ValuePositive(s[..|s| - 1]);
    }
  }

  lemma {:induction false} DigitsLead(n: nat)
    requires n > 0
    ensures Digits(n)[0] != '0'
  {
    if n < 10 {
      assert DigitValue(DigitChar(n)) == n;
    } else {
      DigitsLead(n / 10);
    }
  }

  /** The decimal text of a number is unique. */
  lemma {:induction false} DigitsExactly(n: nat, s: string)
    ensures IsDecimal(s, n) <==> s == Digits(n)
    decreases |s|
  {
    if s == Digits(n) {
      ValueOfDigits(n);
      if n > 0 {
        DigitsLead(n);
      }
    }
    if IsDecimal(s, n) {
      var k := |s| - 1;
      assert DigitChar(DigitValue(s[k])) == s[k];
      if k > 0 {
        ValuePositive(s[..k]);
        DigitsExactly(n / 10, s[..k]);
      } else {
        assert s[..0] == [];
      }
      assert s == s[..k] + [s[k]];
    }
  }

  /** `big.Int.SetString` in base 10: an optional sign and at least one digit. */
  function BigFromString(s: string): (r: Option<int>) {
    var signed := s != [] && (s[0] == '-' || s[0] == '+');
    var digits := if signed then s[1..] else s;
    if digits == [] || !AllDigits(digits) then None
    else
      var n: int := Value(digits);
      Some(if signed && s[0] == '-' then -n else n)
  }

  /** `big.Int.String`. */
  function BigString(x: int): (s: string) {
    if x < 0 then "-" + Digits(-x) else Digits(x)
  }

  lemma BigRoundTrip(x: int)
    ensures BigFromString(BigString(x)) == Some(x)
  {
    hide Digits, Value;
    var n: nat := if x < 0 then -x else x;
    ValueOfDigits(n);
    assert IsDigit(Digits(n)[0]);
    assert x < 0 ==> BigString(x)[1..] == Digits(n);
  }

  /** The text of an integer: a minus sign exactly for negative numbers, then its decimal text. */
  lemma BigStringExactly(x: int, s: string)
    ensures s == BigString(x) <==>
            if x < 0 then s != [] && s[0] == '-' && IsDecimal(s[1..], -x) else IsDecimal(s, x)
  {
    hide Digits, IsDecimal;
    if x < 0 {
      if s != [] {
        DigitsExactly(-x, s[1..]);
        assert s == [s[0]] + s[1..];
      }
    } else {
      DigitsExactly(x, s);
    }
  }

  // ---------------------------------------------------------------- trimming and splitting

  function TrimLeft(s: string, space: char -> bool): (r: string) {
    if s != [] && space(s[0]) then TrimLeft(s[1..], space) else s
  }

  function TrimRight(s: string, space: char -> bool): (r: string) {
    if s != [] && space(s[|s| - 1]) then TrimRight(s[..|s| - 1], space) else s
  }

  lemma {:induction false} TrimRightOk(s: string, space: char -> bool)
    ensures var r := TrimRight(s, space);
      r <= s && (forall i :: |r| <= i < |s| ==> space(s[i])) && (r != [] ==> !space(r[|r| - 1]))
    decreases |s|
  {
    if s == [] || !space(s[|s| - 1]) {
    } else {
      TrimRightOk(s[..|s| - 1], space);
    }
  }

  lemma {:induction false} TrimRightPadded(s: string, pad: string, space: char -> bool)
    requires s != [] ==> !space(s[|s| - 1])
    requires forall i :: 0 <= i < |pad| ==> space(pad[i])
    ensures TrimRight(s + pad, space) == s
    decreases |pad|
  {
    if pad != [] {
      assert (s + pad)[..|s + pad| - 1] == s + pad[..|pad| - 1];
      TrimRightPadded(s, pad[..|pad| - 1], space);
    } else {
      assert s + pad == s;
    }
  }

  /** The white space of `strings.TrimSpace`. */
  predicate IsUnicodeSpace(c: char) {
    var n := c as int;
    || 9 <= n <= 13 || n == 0x20 || n == 0x85 || n == 0xA0 || n == 0x1680 || 0x2000 <= n <= 0x200A
    || n == 0x2028 || n == 0x2029 || n == 0x202F || n == 0x205F || n == 0x3000
  }

  function TrimSpace(s: string): (r: string)
    ensures s == [] || (!IsUnicodeSpace(s[0]) && !IsUnicodeSpace(s[|s| - 1])) ==> r == s
  {
    TrimRight(TrimLeft(s, IsUnicodeSpace), IsUnicodeSpace)
  }

  function Split(s: string, sep: char): (parts: seq<string>)
    ensures |parts| >= 1
  {
    if s == [] then [""]
    else
      var rest := Split(s[1..], sep);
      if s[0] == sep then [""] + rest else [[s[0]] + rest[0]] + rest[1..]
  }

  lemma {:induction false} SplitWhole(s: string, sep: char)
    requires sep !in s
    ensures Split(s, sep) == [s]
    decreases |s|
  {
    if s == [] {
    } else {
      SplitWhole(s[1..], sep);
      assert [s[0]] + s[1..] == s;
    }
  }

  /** Splitting cuts at the first separator and goes on behind it. */
  lemma {:induction false} SplitFirst(a: string, sep: char, b: string)
    requires sep !in a
    ensures Split(a + [sep] + b, sep) == [a] + Split(b, sep)
    decreases |a|
  {
    var s := a + [sep] + b;
    if a != [] {
      assert s[1..] == a[1..] + [sep] + b;
      SplitFirst(a[1..], sep, b);
      assert [a[0]] + a[1..] == a;
    } else {
      assert s[1..] == b;
    }
  }
}
