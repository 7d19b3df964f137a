/** Text to bytes: str.encode('ascii') for the generated file contents and
    the UTF-8 encoding that six.ensure_binary applies to text contents. */
module Encoding {

  type byte = b: int | 0 <= b < 256

  predicate IsAscii(s: string) {
    forall i :: 0 <= i < |s| ==> s[i] as int < 128
  }

  /** str.encode('ascii'), defined on the strings it accepts. */
  function Ascii(s: string): (b: seq<byte>)
    requires IsAscii(s)
    ensures |b| == |s|
  {
    seq(|s|, i requires 0 <= i < |s| => s[i] as int)
  }

  predicate IsAsciiBytes(b: seq<byte>) {
    forall i :: 0 <= i < |b| ==> b[i] < 128
  }

  /** bytes.decode('ascii'), defined on the bytes it accepts. */
  function AsciiDecode(b: seq<byte>): (s: string)
    requires IsAsciiBytes(b)
    ensures |s| == |b|
  {
    seq(|b|, i requires 0 <= i < |b| => b[i] as char)
  }

  lemma AsciiRoundTrip(s: string)
    requires IsAscii(s)
    ensures IsAsciiBytes(Ascii(s)) && AsciiDecode(Ascii(s)) == s
  {
  }

  /** Two ASCII strings encode to the same bytes only if they are equal. */
  lemma AsciiInjective(s: string, t: string)
    requires IsAscii(s) && IsAscii(t) && Ascii(s) == Ascii(t)
    ensures s == t
  {
    AsciiRoundTrip(s);
    AsciiRoundTrip(t);
  }

  /** The UTF-8 encoding of one Unicode scalar value. */
  function Utf8Char(c: char): seq<byte> {
    var n := c as int;
    if n < 0x80 then [n]
    else if n < 0x800 then [0xC0 + n / 0x40, 0x80 + n % 0x40]
    else if n < 0x1_0000 then [0xE0 + n / 0x1000, 0x80 + (n / 0x40) % 0x40, 0x80 + n % 0x40]
    else [0xF0 + n / 0x4_0000, 0x80 + (n / 0x1000) % 0x40, 0x80 + (n / 0x40) % 0x40, 0x80 + n % 0x40]
  }

  /** One to four bytes per character, and a single byte, the character
      itself, exactly for ASCII. */
  lemma Utf8CharShape(c: char)
    ensures var b := Utf8Char(c);
      && 1 <= |b| <= 4
      && (c as int < 128 <==> |b| == 1)
      && (c as int < 128 ==> b == [c as int])
  {
  }

  /** str.encode('utf-8'). */
  function Utf8(s: string): seq<byte> {
    if s == [] then [] else Utf8Char(s[0]) + Utf8(s[1..])
  }

  /** The encoding takes between one and four bytes per character. */
  lemma {:induction false} Utf8Length(s: string)
    ensures |s| <= |Utf8(s)| <= 4 * |s|
  {
    if s != [] {
      Utf8CharShape(s[0]);
      Utf8Length(s[1..]);
    }
  }

  /** On ASCII text UTF-8 and ASCII agree byte for byte. */
  lemma {:induction false} Utf8OfAscii(s: string)
    requires IsAscii(s)
    ensures Utf8(s) == Ascii(s)
  {
    if s != [] {
      Utf8CharShape(s[0]);
      Utf8OfAscii(s[1..]);
      assert Ascii(s) == [s[0] as int] + Ascii(s[1..]);
    }
  }

  /** Encoding distributes over concatenation. */
  lemma {:induction false} Utf8Append(s: string, t: string)
    ensures Utf8(s + t) == Utf8(s) + Utf8(t)
  {
    if s != [] {
      Utf8Append(s[1..], t);
      assert (s + t)[1..] == s[1..] + t;
    } else {
      assert s + t == t;
    }
  }
}
