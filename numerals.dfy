/** Positional numerals in the three bases the test helpers use, written
    with lower-case digits: the formatting done by Python's '%08x' and '%d',
    and the parsing done by int(s) and int(s, 8). */
module Numerals {

  /** Octal (file modes), decimal ('%d', int(s)) and hexadecimal ('%08x'). */
  type Base = b: nat | b == 8 || b == 10 || b == 16 witness 10

  /** The digit character for d, lower case as '%x' writes it. */
  function DigitChar(d: nat): (c: char)
    requires d < 16
    ensures IsHex(c) && DigitValue(c) == d
  {
    if d < 10 then (48 + d) as char else (87 + d) as char
  }

  predicate IsHex(c: char) {
    '0' <= c <= '9' || 'a' <= c <= 'f'
  }

  /** The value of a digit character, as int() reads it. */
  function DigitValue(c: char): (d: nat)
    requires IsHex(c)
    ensures d < 16
  {
    if c <= '9' then c as int - 48 else c as int - 87
  }

  predicate IsDigit(c: char, base: nat) {
    IsHex(c) && DigitValue(c) < base
  }

  predicate AllDigits(s: string, base: nat) {
    forall i :: 0 <= i < |s| ==> IsDigit(s[i], base)
  }

  function Pow(b: nat, e: nat): (p: nat)
    ensures b > 0 ==> p > 0
  {
    if e == 0 then 1 else b * Pow(b, e - 1)
  }

  /** The value of a string of digits, most significant first: int(s, base)
      for non-empty s. The empty string reads as 0 here, where int('', base)
      raises; no caller passes it (modes have 3 digits, suffixes 8). */
  function Parse(s: string, base: Base): (n: nat)
    requires AllDigits(s, base)
    ensures n < Pow(base, |s|)
  {
    if s == [] then 0
    else
      var q := Parse(s[..|s| - 1], base);
      var d := DigitValue(s[|s| - 1]);
      MulAddBound(q, d, base, Pow(base, |s| - 1));
      q * base + d
  }

  /** Exactly `width` digits of n, zero-padded on the left: '%0<width>x'
      for base 16. Digits above the width are dropped, which the formatting
      this models never needs (see ParseFormatPadded). */
  function FormatPadded(n: nat, base: Base, width: nat): (s: string)
    ensures |s| == width && AllDigits(s, base)
  {
    if width == 0 then [] else FormatPadded(n / base, base, width - 1) + [DigitChar(n % base)]
  }

  /** The shortest digit string of n: '%d' for base 10. */
  function Format(n: nat, base: Base): (s: string)
    ensures 1 <= |s| && AllDigits(s, base)
    ensures n == 0 ==> s == "0"
    ensures n > 0 ==> s[0] != '0'
    decreases n
  {
    if n < base then [DigitChar(n)] else Format(n / base, base) + [DigitChar(n % base)]
  }

  lemma MulAddBound(q: nat, d: nat, b: nat, p: nat)
    requires q < p && d < b
    ensures q * b + d < p * b
  {
    assert (p - q) * b >= b by {
      assert p - q >= 1;
    }
  }

  lemma DivBound(n: nat, b: Base, p: nat)
    requires n < b * p
    ensures n / b < p
  {
  }

  lemma DivModUnique(q: nat, d: nat, b: Base)
    requires d < b
    ensures (q * b + d) / b == q && (q * b + d) % b == d
  {
  }

  /** '%0<width>x' followed by int(_, 16) gives back any value that fits. */
  lemma {:induction false} ParseFormatPadded(n: nat, base: Base, width: nat)
    requires n < Pow(base, width)
    ensures Parse(FormatPadded(n, base, width), base) == n
  {
    if width > 0 {
      var s := FormatPadded(n, base, width);
      DivBound(n, base, Pow(base, width - 1));
      ParseFormatPadded(n / base, base, width - 1);
      assert s[..|s| - 1] == FormatPadded(n / base, base, width - 1);
    }
  }

  /** Every digit string is the padded formatting of its own value. */
  lemma {:induction false} FormatPaddedParse(s: string, base: Base)
    requires AllDigits(s, base)
    ensures FormatPadded(Parse(s, base), base, |s|) == s
  {
    if s != [] {
      var init := s[..|s| - 1];
      var last := s[|s| - 1];
      DivModUnique(Parse(init, base), DigitValue(last), base);
      FormatPaddedParse(init, base);
      assert s == init + [last];
    }
  }

  /** '%d' followed by int() gives back the value. */
  lemma {:induction false} ParseFormat(n: nat, base: Base)
    ensures Parse(Format(n, base), base) == n
    decreases n
  {
    if n >= base {
      var s := Format(n, base);
      ParseFormat(n / base, base);
      assert s[..|s| - 1] == Format(n / base, base);
    }
  }

  /** Different values never share a shortest numeral. */
  lemma FormatInjective(m: nat, n: nat, base: Base)
    requires Format(m, base) == Format(n, base)
    ensures m == n
  {
    ParseFormat(m, base);
    ParseFormat(n, base);
  }
}
