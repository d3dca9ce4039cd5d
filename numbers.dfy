/**
 * The numeric fields of the account file: `%d` and `Integer.parseInt` for the
 * account ID, `%.2f` and `Double.parseDouble` for the balance and the rate
 * (src/BankSystem.java). Money is an exact count of cents, so `%.2f` writes
 * it without rounding.
 */
module Numbers {
  import opened Wrappers
  import opened Text

  predicate IsDigit(c: char)
  {
    '0' <= c <= '9'
  }

  predicate AllDigits(s: string)
  {
    forall i :: 0 <= i < |s| ==> IsDigit(s[i])
  }

  function DigitChar(d: int): (c: char)
    requires 0 <= d < 10
    ensures IsDigit(c) && c as int - '0' as int == d
  {
    ('0' as int + d) as char
  }

  /** Decimal digits of a natural number, most significant first, without leading zeros. */
  function Digits(n: nat): (s: string)
    ensures |s| >= 1 && AllDigits(s)
    ensures |s| > 1 ==> s[0] != '0'
  {
    if n < 10 then [DigitChar(n)] else Digits(n / 10) + [DigitChar(n % 10)]
  }

  /** The number a run of decimal digits stands for. */
  function DigitsValue(s: string): nat
    requires AllDigits(s)
  {
    if s == [] then 0 else DigitsValue(s[..|s| - 1]) * 10 + (s[|s| - 1] as int - '0' as int)
  }

  lemma {:induction false} DigitsValueOfDigits(n: nat)
    ensures DigitsValue(Digits(n)) == n
  {
    if n >= 10 {
      var s := Digits(n);
      assert s[..|s| - 1] == Digits(n / 10);
      DigitsValueOfDigits(n / 10);
    }
  }

  /** `%d`: an optional minus sign and the digits of the magnitude. */
  function FormatInt(x: int): (s: string)
    ensures |s| >= 1 && !IsTrimmed(s[0]) && IsDigit(s[|s| - 1]) && ',' !in s
  {
    if x < 0 then "-" + Digits(-x) else Digits(x)
  }

  /**
   * `Integer.parseInt`: an optional `-` or `+`, then at least one digit, and the
   * value must fit in an `int`; anything else (surrounding blanks included)
   * is a `NumberFormatException`, here `None`.
   */
  function ParseInt(s: string): (r: Option<int>)
    ensures r.Some? ==> -0x8000_0000 <= r.value < 0x8000_0000
    ensures r.Some? ==> s != [] && (IsDigit(s[0]) || s[0] == '-' || s[0] == '+')
  {
    if s == [] then None
    else
      var body := if s[0] == '-' || s[0] == '+' then s[1..] else s;
      if body == [] || !AllDigits(body) then None
      else
        var v: int := if s[0] == '-' then -(DigitsValue(body) as int) else DigitsValue(body);
        if -0x8000_0000 <= v < 0x8000_0000 then Some(v) else None
  }

  /** An ID written with `%d` reads back as itself. */
  lemma ParseFormatInt(x: int)
    requires -0x8000_0000 <= x < 0x8000_0000
    ensures ParseInt(FormatInt(x)) == Some(x)
  {
    var s := FormatInt(x);
    if x < 0 {
      assert s[1..] == Digits(-x);
      DigitsValueOfDigits(-x);
    } else {
      DigitsValueOfDigits(x);
    }
  }

  /** `%.2f` of an amount of cents: sign, whole units, a point and exactly two digits. */
  function FormatCents(c: int): (s: string)
    ensures |s| >= 4 && s[|s| - 3] == '.'
    ensures !IsTrimmed(s[0]) && IsDigit(s[|s| - 1]) && ',' !in s
  {
    var m := if c < 0 then -c else c;
    var units := Digits(m / 100) + "." + [DigitChar(m % 100 / 10), DigitChar(m % 10)];
    if c < 0 then "-" + units else units
  }

  /** Cents given by up to two fraction digits: "5" is 50, "05" is 5. */
  function FractionCents(frac: string): (v: nat)
    requires |frac| <= 2 && AllDigits(frac)
    ensures v < 100
  {
    if |frac| == 0 then 0
    else if |frac| == 1 then (frac[0] as int - '0' as int) * 10
    else (frac[0] as int - '0' as int) * 10 + (frac[1] as int - '0' as int)
  }

  /**
   * Digits with an optional point followed by at most two digits, at least
   * one digit overall, read as a number of cents: "12.5" is 1250.
   */
  function ParseUnsignedCents(body: string): Option<nat>
  {
    var dot := IndexOf(body, '.');
    CentsOf(body[..dot], if dot < |body| then body[dot + 1..] else [])
  }

  /** The amount spelled by the digits before and after the point, if both are well formed. */
  function CentsOf(whole: string, frac: string): Option<nat>
  {
    if |whole| + |frac| == 0 || !AllDigits(whole) || !AllDigits(frac) || |frac| > 2 then None
    else Some(DigitsValue(whole) * 100 + FractionCents(frac))
  }

  /**
   * `Double.parseDouble`, restricted to plain decimals: surrounding blanks are
   * ignored, then an optional sign and an unsigned amount of cents.
   */
  function ParseDecimal(s: string): (r: Option<int>)
    ensures r.Some? ==> Trim(s) != []
    ensures r.Some? && r.value < 0 ==> Trim(s)[0] == '-'
  {
    var t := Trim(s);
    if t == [] then None
    else
      var body := if t[0] == '-' || t[0] == '+' then t[1..] else t;
      match ParseUnsignedCents(body)
      case None => None
      case Some(m) => Some(if t[0] == '-' then -(m as int) else m)
  }

  /** A run of digits, a point and two digits splits at the point. */
  lemma ParseUnsignedPointTwo(whole: string, frac: string)
    requires AllDigits(whole) && |frac| == 2
    ensures ParseUnsignedCents(whole + "." + frac) == CentsOf(whole, frac)
  {
    var units := whole + "." + frac;
    assert IndexOf(units, '.') == |whole| by {
      assert units[|whole|] == '.';
      assert units[..|whole|] == whole;
      assert '.' !in whole;
    }
    assert units[..|whole|] == whole;
    assert units[|whole| + 1..] == frac;
  }

  lemma ParseUnsignedOfFormat(m: nat)
    ensures ParseUnsignedCents(Digits(m / 100) + "." + [DigitChar(m % 100 / 10), DigitChar(m % 10)]).Some?
    ensures ParseUnsignedCents(Digits(m / 100) + "." + [DigitChar(m % 100 / 10), DigitChar(m % 10)]).value == m
  {
    var q, d1, d0 := m / 100, m % 100 / 10, m % 10;
    ParseUnitsAndCents(q, d1, d0);
    CentsDigits(m);
  }

  /** Whole units, a point and two fraction digits read as units times 100 plus the fraction. */
  lemma ParseUnitsAndCents(q: nat, d1: nat, d0: nat)
    requires d1 < 10 && d0 < 10
    ensures ParseUnsignedCents(Digits(q) + "." + [DigitChar(d1), DigitChar(d0)]).Some?
    ensures ParseUnsignedCents(Digits(q) + "." + [DigitChar(d1), DigitChar(d0)]).value == q * 100 + d1 * 10 + d0
  {
    var tail := [DigitChar(d1), DigitChar(d0)];
    ParseUnsignedPointTwo(Digits(q), tail);
    DigitsValueOfDigits(q);
    assert FractionCents(tail) == d1 * 10 + d0;
  }

  lemma CentsDigits(m: nat)
    ensures (m / 100) * 100 + (m % 100 / 10) * 10 + m % 10 == m
  {
    var q, r := m / 100, m % 100;
    assert m == q * 100 + r;
    assert m % 10 == r % 10 by {
      assert m == (q * 10 + r / 10) * 10 + r % 10;
    }
    assert r == (r / 10) * 10 + r % 10;
  }

  /** `%.2f` writes no blank at either end, so trimming leaves it as it is. */
  lemma FormatCentsTrimmed(c: int)
    ensures Trim(FormatCents(c)) == FormatCents(c)
  {
    var s := FormatCents(c);
    assert !IsTrimmed(s[|s| - 1]) by {
      assert IsDigit(s[|s| - 1]);
    }
    assert s != [] && !IsTrimmed(s[0]);
  }

  /** An amount written with `%.2f` reads back as the same number of cents. */
  lemma ParseFormatCents(c: int)
    ensures ParseDecimal(FormatCents(c)) == Some(c)
  {
    var m := if c < 0 then -c else c;
    var s := FormatCents(c);
    FormatCentsTrimmed(c);
    ParseUnsignedOfFormat(m);
    if c < 0 {
      assert s[1..] == Digits(m / 100) + "." + [DigitChar(m % 100 / 10), DigitChar(m % 10)];
    }
  }
}
