/** Decimal integer text: the `-?\d+` octave field read with `parseInt(_, 10)`
    and an integer written back into a template string. */
module Decimal {
  import opened Types

  predicate IsDigit(c: char) { '0' <= c <= '9' }

  /** A run of ASCII digits, possibly empty, checked from the last one back. */
  predicate AllDigits(t: string)
  {
    t == [] || (IsDigit(t[|t| - 1]) && AllDigits(t[..|t| - 1]))
  }

  /** A non-empty run of ASCII digits: the regular expression `\d+`. */
  predicate IsDigits(t: string)
  {
    |t| > 0 && AllDigits(t)
  }

  /** Every character of a run of digits is a digit. */
  lemma {:induction false} AllDigitsIndex(t: string, i: int)
    requires AllDigits(t) && 0 <= i < |t|
    ensures IsDigit(t[i])
  {
    if i < |t| - 1 {
      AllDigitsIndex(t[..|t| - 1], i);
    }
  }

  function DigitValue(c: char): (d: nat)
    requires IsDigit(c)
    ensures d < 10
  {
    c as int - '0' as int
  }

  function DigitChar(d: nat): (c: char)
    requires d < 10
    ensures IsDigit(c) && DigitValue(c) == d
  {
    ('0' as int + d) as char
  }

  /** The value of a digit string, most significant digit first (leading zeros allowed). */
  function DigitsValue(t: string): nat
    requires AllDigits(t)
  {
    if |t| == 0 then 0 else DigitsValue(t[..|t| - 1]) * 10 + DigitValue(t[|t| - 1])
  }

  /** How a template literal writes an integer: a minus sign for negatives,
      then the shortest run of decimal digits. */
  function IntText(n: int): string
    decreases if n < 0 then 1 - n else n
  {
    if n < 0 then "-" + IntText(-n)
    else if n < 10 then [DigitChar(n)]
    else IntText(n / 10) + [DigitChar(n % 10)]
  }

  /** A natural number is written as a run of digits worth `n`, with no
      leading zero. */
  lemma {:induction false} IntTextDigits(n: nat)
    ensures IsDigits(IntText(n))
    ensures DigitsValue(IntText(n)) == n
    ensures |IntText(n)| > 1 ==> IntText(n)[0] != '0'
  {
    if n >= 10 {
      IntTextDigits(n / 10);
      var t := IntText(n);
      assert t[..|t| - 1] == IntText(n / 10);
    }
  }

  /** Every integer is written as a minus sign exactly when it is negative,
      followed by the digits of its magnitude with no leading zero. */
  lemma IntTextSigned(n: int)
    ensures var m := if n < 0 then -n else n;
      && IntText(n) == (if n < 0 then "-" else "") + IntText(m)
      && IsDigits(IntText(m)) && DigitsValue(IntText(m)) == m
      && (|IntText(m)| > 1 ==> IntText(m)[0] != '0')
  {
    IntTextDigits(if n < 0 then -n else n);
  }

  /** Reads the text matched by `-?\d+` as `parseInt(_, 10)` does; `None` when
      the text is not of that form. A negative zero reads as 0, which is how
      JavaScript's -0 behaves in every later sum and template. */
  function ParseSignedDigits(t: string): Option<int>
  {
    if |t| > 0 && t[0] == '-' then
      if IsDigits(t[1..]) then Some(-(DigitsValue(t[1..]) as int)) else None
    else if IsDigits(t) then Some(DigitsValue(t))
    else None
  }

  /** Exactly the texts of the form `-?\d+` are read. */
  lemma ParseSignedDigitsMatches(t: string)
    ensures ParseSignedDigits(t).Some? <==> IsDigits(t) || (|t| > 1 && t[0] == '-' && IsDigits(t[1..]))
  {
    if IsDigits(t) {
      AllDigitsIndex(t, 0);
    }
  }

  /** Writing an integer and reading it back gives the integer. */
  lemma ParseIntText(n: int)
    ensures ParseSignedDigits(IntText(n)) == Some(n)
  {
    if n < 0 {
      IntTextDigits(-n);
      assert ("-" + IntText(-n))[1..] == IntText(-n);
    } else {
      IntTextDigits(n);
      AllDigitsIndex(IntText(n), 0);
    }
  }

  /** Integer text never starts with a letter, `#` or `b`: it can follow a note
      letter without being read as part of it. */
  lemma IntTextStart(n: int)
    ensures |IntText(n)| > 0
    ensures IntText(n)[0] == '-' || IsDigit(IntText(n)[0])
  {
    IntTextDigits(if n < 0 then -n else n);
    AllDigitsIndex(IntText(if n < 0 then -n else n), 0);
  }
}
