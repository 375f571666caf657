/**
 * PHP integers (64-bit), their decimal spelling, the "integerish" check that
 * `Assertion::allIntegerish` applies to each manufacturer id, and `intval`.
 * Ids arrive either as PHP ints or as strings; floats are not modelled.
 */
module Integerish {

  const PHP_INT_MAX: int := 0x7FFF_FFFF_FFFF_FFFF
  const PHP_INT_MIN: int := -0x8000_0000_0000_0000

  /** A PHP `int` on a 64-bit platform. */
  type PhpInt = x: int | PHP_INT_MIN <= x <= PHP_INT_MAX

  /** One element of the id list handed to the condition: an int or a string. */
  datatype RawId = IntId(i: PhpInt) | StrId(s: string)

  predicate IsDigit(c: char) {
    '0' <= c <= '9'
  }

  predicate AllDigits(s: string) {
    forall k :: 0 <= k < |s| ==> IsDigit(s[k])
  }

  function DigitValue(c: char): (d: nat)
    requires IsDigit(c)
    ensures d < 10
  {
    (c as int) - ('0' as int)
  }

  function DigitChar(d: nat): (c: char)
    requires d < 10
    ensures IsDigit(c) && DigitValue(c) == d
  {
    (('0' as int) + d) as char
  }

  /** The number a run of decimal digits denotes (leading zeros contribute nothing). */
  function DigitsValue(s: string): nat
    requires AllDigits(s)
    decreases |s|
  {
    if s == [] then 0 else 10 * DigitsValue(s[..|s| - 1]) + DigitValue(s[|s| - 1])
  }

  /**
   * The strings the integerish check accepts: an unsigned run of digits
   * (leading zeros allowed) whose value fits a PHP int, or a minus sign
   * followed by a run of digits without leading zero, of a nonzero value that
   * fits a PHP int. So "5", "007" and "-12" pass; "", "abc", " 5", "+5",
   * "-0", "-05", "5.0" and out-of-range numerals do not.
   */
  predicate IsIntegerishString(s: string) {
    || (|s| > 0 && AllDigits(s) && DigitsValue(s) <= PHP_INT_MAX)
    || (|s| > 1 && s[0] == '-' && s[1] != '0' && AllDigits(s[1..]) && DigitsValue(s[1..]) <= -PHP_INT_MIN)
  }

  /** The check applied to one element. */
  predicate IsIntegerish(x: RawId) {
    match x
    case IntId(_) => true
    case StrId(s) => IsIntegerishString(s)
  }

  /** `Assertion::allIntegerish`: every element passes. */
  predicate AllIntegerish(xs: seq<RawId>) {
    forall k :: 0 <= k < |xs| ==> IsIntegerish(xs[k])
  }

  /** PHP `intval` on an element that passed the check. */
  function Intval(x: RawId): PhpInt
    requires IsIntegerish(x)
  {
    match x
    case IntId(i) => i
    case StrId(s) => if s[0] == '-' then -(DigitsValue(s[1..]) as int) else DigitsValue(s)
  }

  /** `array_map('\intval', xs)`. */
  function IntvalAll(xs: seq<RawId>): (r: seq<int>)
    requires AllIntegerish(xs)
    ensures |r| == |xs|
    ensures forall k :: 0 <= k < |xs| ==> r[k] == Intval(xs[k])
  {
    seq(|xs|, k requires 0 <= k < |xs| && IsIntegerish(xs[k]) => Intval(xs[k]))
  }

  /** The digits of `n` without leading zeros (PHP `strval` of a non-negative int). */
  function NatDigits(n: nat): (s: string)
    decreases n
  {
    if n < 10 then [DigitChar(n)] else NatDigits(n / 10) + [DigitChar(n % 10)]
  }

  /** PHP `strval` of an int: its canonical decimal spelling. */
  function DecimalString(n: int): string {
    if n < 0 then "-" + NatDigits(-n) else NatDigits(n)
  }

  lemma {:induction false} NatDigitsWellFormed(n: nat)
    ensures |NatDigits(n)| > 0 && AllDigits(NatDigits(n))
    ensures n > 0 ==> NatDigits(n)[0] != '0'
    ensures DigitsValue(NatDigits(n)) == n
    decreases n
  {
    if n >= 10 {
      NatDigitsWellFormed(n / 10);
      var s := NatDigits(n);
      var prefix := NatDigits(n / 10);
      assert s == prefix + [DigitChar(n % 10)];
      assert s[..|s| - 1] == prefix;
      assert forall k :: 0 <= k < |s| ==> IsDigit(s[k]) by {
        forall k | 0 <= k < |s| ensures IsDigit(s[k]) {
          if k < |prefix| { assert s[k] == prefix[k]; }
        }
      }
      assert s[0] == prefix[0];
    }
  }

  /**
   * A decimal string and the int it spells normalise to the same id: the
   * canonical spelling of every PHP int passes the check and `intval` maps it
   * back to that int, as it maps the int itself.
   */
  lemma DecimalStringIsIntegerish(n: PhpInt)
    ensures IsIntegerish(StrId(DecimalString(n)))
    ensures Intval(StrId(DecimalString(n))) == n == Intval(IntId(n))
  {
    var m: int := n;
    if m < 0 {
      NatDigitsWellFormed(-m);
      var s := DecimalString(m);
      assert s[1..] == NatDigits(-m);
    } else {
      NatDigitsWellFormed(n);
    }
  }

  /** Leading zeros on an unsigned numeral change neither acceptance nor value. */
  lemma LeadingZeroIgnored(s: string)
    requires |s| > 0 && AllDigits(s)
    ensures AllDigits("0" + s) && DigitsValue("0" + s) == DigitsValue(s)
    ensures IsIntegerish(StrId("0" + s)) == IsIntegerish(StrId(s))
    ensures IsIntegerish(StrId(s)) ==> Intval(StrId("0" + s)) == Intval(StrId(s))
  {
    LeadingZeroValue(s);
  }

  lemma {:induction false} LeadingZeroValue(s: string)
    requires AllDigits(s)
    ensures AllDigits("0" + s) && DigitsValue("0" + s) == DigitsValue(s)
    decreases |s|
  {
    var z := "0" + s;
    assert forall k :: 0 <= k < |z| ==> IsDigit(z[k]) by {
      forall k | 0 <= k < |z| ensures IsDigit(z[k]) {
        if k > 0 { assert z[k] == s[k - 1]; }
      }
    }
    if s != [] {
      var init := s[..|s| - 1];
      LeadingZeroValue(init);
      assert z[..|z| - 1] == "0" + init;
      assert z[|z| - 1] == s[|s| - 1];
    }
  }

  /** PHP `ltrim($s, '0')`: the string without its leading zeros. */
  function TrimLeadingZeros(s: string): string
    decreases |s|
  {
    if s != [] && s[0] == '0' then TrimLeadingZeros(s[1..]) else s
  }

  lemma {:induction false} TrimLeadingZerosValue(s: string)
    requires AllDigits(s)
    ensures AllDigits(TrimLeadingZeros(s)) && DigitsValue(TrimLeadingZeros(s)) == DigitsValue(s)
    ensures TrimLeadingZeros(s) == [] || TrimLeadingZeros(s)[0] != '0'
    decreases |s|
  {
    if s != [] && s[0] == '0' {
      var rest := s[1..];
      assert AllDigits(rest) by {
        forall k | 0 <= k < |rest| ensures IsDigit(rest[k]) { assert rest[k] == s[k + 1]; }
      }
      TrimLeadingZerosValue(rest);
      LeadingZeroValue(rest);
      assert s == "0" + rest;
    }
  }

  /** A numeral whose first digit is not zero denotes a positive number. */
  lemma {:induction false} PositiveLeadingDigit(t: string)
    requires |t| > 0 && AllDigits(t) && t[0] != '0'
    ensures DigitsValue(t) > 0
    decreases |t|
  {
    var init := t[..|t| - 1];
    if |t| == 1 {
      assert init == [];
    } else {
      assert init[0] == t[0];
      PositiveLeadingDigit(init);
    }
  }

  /** A numeral without leading zeros is the decimal spelling of its value. */
  lemma {:induction false} NatDigitsOfValue(t: string)
    requires |t| > 0 && AllDigits(t) && (t[0] != '0' || t == "0")
    ensures NatDigits(DigitsValue(t)) == t
    decreases |t|
  {
    var init, d := t[..|t| - 1], t[|t| - 1];
    assert DigitChar(DigitValue(d)) == d;
    if |t| == 1 {
      assert init == [];
    } else {
      assert init[0] == t[0];
      PositiveLeadingDigit(init);
      NatDigitsOfValue(init);
      var v := DigitsValue(t);
      assert v / 10 == DigitsValue(init) && v % 10 == DigitValue(d);
      assert t == init + [d];
    }
  }

  /**
   * The converse of DecimalStringIsIntegerish, in the terms of the library's
   * own test (`strval(intval($s))` equals `$s`, or equals `ltrim($s, '0')`,
   * or that trim is empty): an accepted negative numeral is exactly the
   * spelling of its `intval`; an accepted unsigned numeral is that spelling
   * once its leading zeros are trimmed, or consists of zeros only.
   */
  lemma IntegerishStringSpellsItsValue(s: string)
    requires IsIntegerishString(s)
    ensures s[0] == '-' ==> Intval(StrId(s)) < 0 && DecimalString(Intval(StrId(s))) == s
    ensures s[0] != '-' ==> Intval(StrId(s)) >= 0
    ensures s[0] != '-' ==>
              || DecimalString(Intval(StrId(s))) == TrimLeadingZeros(s)
              || (TrimLeadingZeros(s) == "" && Intval(StrId(s)) == 0)
    ensures (s[0] != '0' || s == "0") ==> DecimalString(Intval(StrId(s))) == s
  {
    if s[0] == '-' {
      NegativeSpellsItsValue(s);
    } else {
      UnsignedSpellsItsValue(s);
    }
  }

  lemma NegativeSpellsItsValue(s: string)
    requires IsIntegerishString(s) && s[0] == '-'
    ensures Intval(StrId(s)) < 0 && DecimalString(Intval(StrId(s))) == s
  {
    var t := s[1..];
    PositiveLeadingDigit(t);
    NatDigitsOfValue(t);
    assert s == "-" + t;
  }

  lemma UnsignedSpellsItsValue(s: string)
    requires IsIntegerishString(s) && s[0] != '-'
    ensures AllDigits(s) && Intval(StrId(s)) == DigitsValue(s)
    ensures TrimLeadingZeros(s) == "" ==> Intval(StrId(s)) == 0
    ensures TrimLeadingZeros(s) != "" ==> DecimalString(Intval(StrId(s))) == TrimLeadingZeros(s)
    ensures (s[0] != '0' || s == "0") ==> DecimalString(Intval(StrId(s))) == s
  {
    TrimLeadingZerosValue(s);
    var u := TrimLeadingZeros(s);
    if u != "" {
      NatDigitsOfValue(u);
    }
    if s[0] != '0' {
      assert u == s;
    }
  }

  /** Strings the check refuses, among them a non-numeric one and a negative zero. */
  lemma RejectedExamples()
    ensures !IsIntegerish(StrId(""))
    ensures !IsIntegerish(StrId("abc"))
    ensures !IsIntegerish(StrId("-0"))
    ensures !IsIntegerish(StrId("+5"))
    ensures !IsIntegerish(StrId("5.0"))
  {
  }
}
