/** Percent-encoding of names inside IRIs: `urllib.parse.quote(name, safe="")` and `unquote`,
    that is, UTF-8 (RFC 3629) followed by section 2.1 of RFC 3986. */
module PercentEncoding {

  type Byte = x: int | 0 <= x < 256

  // --- UTF-8 ---------------------------------------------------------------

  function Utf8Char(c: char): (bytes: seq<Byte>)
    ensures 1 <= |bytes| <= 4
  {
    var n := c as int;
    if n < 0x80 then [n]
    else if n < 0x800 then [0xC0 + n / 0x40, 0x80 + n % 0x40]
    else if n < 0x10000 then [0xE0 + n / 0x1000, 0x80 + n / 0x40 % 0x40, 0x80 + n % 0x40]
    else [0xF0 + n / 0x40000, 0x80 + n / 0x1000 % 0x40, 0x80 + n / 0x40 % 0x40, 0x80 + n % 0x40]
  }

  function Utf8Encode(s: string): seq<Byte> {
    if s == [] then [] else Utf8Char(s[0]) + Utf8Encode(s[1..])
  }

  predicate IsTail(b: Byte) {
    0x80 <= b < 0xC0
  }

  /** What a byte carries once its UTF-8 marker bits are taken off. */
  function Bits(b: int, marker: nat): nat
    requires b >= marker
  {
    b - marker
  }

  const REPLACEMENT: char := '\U{FFFD}'

  function CodePoint(n: nat, shortest: nat): char {
    if shortest <= n && (n < 0xD800 || 0xE000 <= n < 0x11_0000) then n as char else REPLACEMENT
  }

  /** The first character of a non-empty byte sequence and the number of bytes it takes;
      a malformed lead byte is replaced on its own. */
  function FirstChar(b: seq<Byte>): (r: (char, nat))
    requires |b| > 0
    ensures 1 <= r.1 <= |b|
  {
    if b[0] < 0x80 then (b[0] as char, 1)
    else if 0xC0 <= b[0] < 0xE0 && |b| >= 2 && IsTail(b[1]) then
      (CodePoint(Bits(b[0], 0xC0) * 0x40 + Bits(b[1], 0x80), 0x80), 2)
    else if 0xE0 <= b[0] < 0xF0 && |b| >= 3 && IsTail(b[1]) && IsTail(b[2]) then
      (CodePoint(Bits(b[0], 0xE0) * 0x1000 + Bits(b[1], 0x80) * 0x40 + Bits(b[2], 0x80), 0x800), 3)
    else if 0xF0 <= b[0] < 0xF8 && |b| >= 4 && IsTail(b[1]) && IsTail(b[2]) && IsTail(b[3]) then
      (CodePoint(Bits(b[0], 0xF0) * 0x40000 + Bits(b[1], 0x80) * 0x1000 + Bits(b[2], 0x80) * 0x40
                 + Bits(b[3], 0x80), 0x10000), 4)
    else (REPLACEMENT, 1)
  }

  function Utf8Decode(b: seq<Byte>): string {
    if b == [] then [] else
      var (c, n) := FirstChar(b);
      [c] + Utf8Decode(b[n..])
  }

  lemma FirstCharOfEncoded(c: char, rest: seq<Byte>)
    ensures FirstChar(Utf8Char(c) + rest) == (c, |Utf8Char(c)|)
  {
    var n := c as int;
    if 0x800 <= n < 0x10000 {
      assert n == (n / 0x1000) * 0x1000 + (n / 0x40 % 0x40) * 0x40 + n % 0x40;
    } else if 0x10000 <= n {
      assert n / 0x40 == (n / 0x1000) * 0x40 + n / 0x40 % 0x40;
      assert n == (n / 0x40000) * 0x40000 + (n / 0x1000 % 0x40) * 0x1000 + (n / 0x40 % 0x40) * 0x40 + n % 0x40;
    }
  }

  lemma {:induction false} Utf8RoundTrip(s: string)
    ensures Utf8Decode(Utf8Encode(s)) == s
  {
    if s != [] {
      var head, tail := Utf8Char(s[0]), Utf8Encode(s[1..]);
      FirstCharOfEncoded(s[0], tail);
      assert (head + tail)[|head|..] == tail;
      Utf8RoundTrip(s[1..]);
    }
  }

  // --- Percent-encoding ----------------------------------------------------

  predicate Unreserved(c: char) {
    'A' <= c <= 'Z' || 'a' <= c <= 'z' || '0' <= c <= '9' || c == '_' || c == '.' || c == '-' || c == '~'
  }

  function HexDigit(d: nat): (c: char)
    requires d < 16
    ensures IsHex(c) && HexValue(c) == d && Unreserved(c)
  {
    if d < 10 then ('0' as int + d) as char else ('A' as int + d - 10) as char
  }

  predicate IsHex(c: char) {
    '0' <= c <= '9' || 'A' <= c <= 'F' || 'a' <= c <= 'f'
  }

  function HexValue(c: char): (d: nat)
    requires IsHex(c)
    ensures d < 16
  {
    if c <= '9' then c as int - '0' as int
    else if c <= 'F' then c as int - 'A' as int + 10
    else c as int - 'a' as int + 10
  }

  function EscapeByte(b: Byte): (s: string)
    ensures forall i | 0 <= i < |s| :: Unreserved(s[i]) || s[i] == '%'
  {
    if b < 0x80 && Unreserved(b as char) then [b as char]
    else ['%', HexDigit(b / 16), HexDigit(b % 16)]
  }

  function EscapeBytes(bytes: seq<Byte>): (s: string)
    ensures forall i | 0 <= i < |s| :: Unreserved(s[i]) || s[i] == '%'
  {
    if bytes == [] then [] else EscapeByte(bytes[0]) + EscapeBytes(bytes[1..])
  }

  function UnescapeBytes(s: string): seq<Byte> {
    if s == [] then []
    else if s[0] == '%' && |s| >= 3 && IsHex(s[1]) && IsHex(s[2]) then
      [16 * HexValue(s[1]) + HexValue(s[2])] + UnescapeBytes(s[3..])
    else Utf8Char(s[0]) + UnescapeBytes(s[1..])
  }

  lemma {:induction false} BytesRoundTrip(bytes: seq<Byte>)
    ensures UnescapeBytes(EscapeBytes(bytes)) == bytes
  {
    if bytes != [] {
      var head, tail := EscapeByte(bytes[0]), EscapeBytes(bytes[1..]);
      assert (head + tail)[|head|..] == tail;
      BytesRoundTrip(bytes[1..]);
      assert bytes == [bytes[0]] + bytes[1..];
    }
  }

  /** `quote(name, safe="")`: the result holds unreserved characters and `%` only. */
  function Quote(name: string): (s: string)
    ensures forall i | 0 <= i < |s| :: Unreserved(s[i]) || s[i] == '%'
  {
    EscapeBytes(Utf8Encode(name))
  }

  function Unquote(s: string): string {
    Utf8Decode(UnescapeBytes(s))
  }

  lemma QuoteRoundTrip(name: string)
    ensures Unquote(Quote(name)) == name
  {
    BytesRoundTrip(Utf8Encode(name));
    Utf8RoundTrip(name);
  }
}
