/**
 * Decimal text of integers: Number.prototype.toString for integral values,
 * zero padding (the two- and four-digit fields of an ISO date) and the
 * matching parsers, with the round trips that tie them together.
 */
module Decimal {
  import opened Options

  predicate IsDigit(c: char) {
    '0' <= c <= '9'
  }

  predicate AllDigits(s: string) {
    forall i :: 0 <= i < |s| ==> IsDigit(s[i])
  }

  function DigitChar(d: nat): (c: char)
    requires d < 10
    ensures IsDigit(c) && c as int - '0' as int == d
  {
    ('0' as int + d) as char
  }

  function DigitValue(c: char): nat
    requires IsDigit(c)
  {
    c as int - '0' as int
  }

  function Pow10(k: nat): (p: nat)
    ensures p >= 1
  {
    if k == 0 then 1 else 10 * Pow10(k - 1)
  }

  /** The shortest decimal numeral of n, most significant digit first. */
  function Digits(n: nat): (s: string)
    ensures 1 <= |s| && AllDigits(s)
    ensures n >= 10 ==> s[0] != '0'
  {
    if n < 10 then [DigitChar(n)] else Digits(n / 10) + [DigitChar(n % 10)]
  }

  /** The number a string of decimal digits denotes. */
  function NatValue(s: string): nat
    requires AllDigits(s)
  {
    if s == [] then 0 else NatValue(s[..|s| - 1]) * 10 + DigitValue(s[|s| - 1])
  }

  lemma {:induction false} NatValueOfDigits(n: nat)
    ensures NatValue(Digits(n)) == n
  {
    if n >= 10 {
      var s := Digits(n / 10) + [DigitChar(n % 10)];
      assert s[..|s| - 1] == Digits(n / 10);
      NatValueOfDigits(n / 10);
    }
  }

  lemma {:induction false} DigitsLength(n: nat, k: nat)
    requires 1 <= k && n < Pow10(k)
    ensures |Digits(n)| <= k
  {
    if n >= 10 {
      DigitsLength(n / 10, k - 1);
    }
  }

  function Zeros(k: nat): (s: string)
    ensures |s| == k && AllDigits(s)
    ensures forall i :: 0 <= i < k ==> s[i] == '0'
  {
    if k == 0 then [] else ['0'] + Zeros(k - 1)
  }

  /** n in decimal, left-padded with '0' to at least w characters. */
  function Pad(n: nat, w: nat): (s: string)
    ensures AllDigits(s)
    ensures |s| == if |Digits(n)| < w then w else |Digits(n)|
  {
    var d := Digits(n);
    if |d| < w then Zeros(w - |d|) + d else d
  }

  lemma {:induction false} NatValueLeadingZero(s: string)
    requires AllDigits(s)
    ensures NatValue(['0'] + s) == NatValue(s)
  {
    var t := ['0'] + s;
    if s != [] {
      assert t[..|t| - 1] == ['0'] + s[..|s| - 1];
      NatValueLeadingZero(s[..|s| - 1]);
    }
  }

  lemma {:induction false} NatValueLeadingZeros(k: nat, s: string)
    requires AllDigits(s)
    ensures NatValue(Zeros(k) + s) == NatValue(s)
  {
    if k > 0 {
      var rest := Zeros(k - 1) + s;
      assert Zeros(k) + s == ['0'] + rest;
      assert AllDigits(rest);
      NatValueLeadingZeros(k - 1, s);
      NatValueLeadingZero(rest);
    } else {
      assert Zeros(k) + s == s;
    }
  }

  /** Padding never changes the value: parsing a padded numeral gives n back. */
  lemma NatValueOfPad(n: nat, w: nat)
    ensures NatValue(Pad(n, w)) == n
  {
    var d := Digits(n);
    NatValueOfDigits(n);
    if |d| < w {
      var z := Zeros(w - |d|);
      assert Pad(n, w) == z + d;
      NatValueLeadingZeros(w - |d|, d);
    } else {
      assert Pad(n, w) == d;
    }
  }

  /** A value below 10^w pads to exactly w characters. */
  lemma PadWidth(n: nat, w: nat)
    requires 1 <= w && n < Pow10(w)
    ensures |Pad(n, w)| == w
  {
    DigitsLength(n, w);
  }

  /** The decimal text of an integer as JavaScript's String(i) gives it. */
  function IntToString(i: int): (s: string)
    ensures 1 <= |s|
    ensures s[0] == '-' <==> i < 0
    ensures i >= 0 ==> s == Digits(i)
    ensures i < 0 ==> s[1..] == Digits(-i)
  {
    if i < 0 then "-" + Digits(-i) else Digits(i)
  }

  /** Reads an optional minus sign followed by at least one digit. */
  function IntValue(s: string): (r: Option<int>)
    ensures r.Some? ==> s != [] && (r.value < 0 ==> s[0] == '-')
  {
    if |s| >= 2 && s[0] == '-' && AllDigits(s[1..]) then Some(0 - NatValue(s[1..]) as int)
    else if |s| >= 1 && AllDigits(s) then Some(NatValue(s))
    else None
  }

  lemma IntValueOfIntToString(i: int)
    ensures IntValue(IntToString(i)) == Some(i)
  {
    if i < 0 {
      var s := IntToString(i);
      assert s[1..] == Digits(-i);
      NatValueOfDigits(-i);
    } else {
      NatValueOfDigits(i);
    }
  }
}
