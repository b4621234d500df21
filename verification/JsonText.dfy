/** Strings in JSON text: how they are escaped when written, and what an escaped string stands for. */
module JsonText {
  import opened Wrappers

  /* ---- writing ---- */

  /** to_hex */
  function HexDigit(n: nat): char
    requires n < 16
  {
    if n < 10 then '0' + n as char else 'a' + (n - 10) as char
  }

  function EscapeChar(c: char): string {
    if c == '"' then "\\\""
    else if c == '\\' then "\\\\"
    else if c == '\n' then "\\n"
    else if c == 8 as char then "\\b"
    else if c == 12 as char then "\\f"
    else if c == '\r' then "\\r"
    else if c == '\t' then "\\t"
    else if c < 32 as char then "\\u00" + [HexDigit(c as nat / 16), HexDigit(c as nat % 16)]
    else [c]
  }

  function Escape(s: string): string {
    if s == "" then "" else EscapeChar(s[0]) + Escape(s[1..])
  }

  /* ---- reading ---- */

  predicate IsHex(c: char) {
    '0' <= c <= '9' || 'a' <= c <= 'f' || 'A' <= c <= 'F'
  }

  /** from_hex */
  function FromHex(c: char): (n: nat)
    requires IsHex(c)
    ensures n < 16
  {
    if c >= 'a' then c as nat - 'a' as nat + 10 else if c >= 'A' then c as nat - 'A' as nat + 10
        else c as nat - '0' as nat
  }

  function Hex4(a: char, b: char, c: char, d: char): (code: nat)
    requires IsHex(a) && IsHex(b) && IsHex(c) && IsHex(d)
    ensures code < 0x10000
  {
    FromHex(a) * 4096 + FromHex(b) * 256 + FromHex(c) * 16 + FromHex(d)
  }

  /** The bytes written for a character code: one, two or three. */
  function CodeBytes(code: nat): (r: string)
    requires code < 0x10000
    ensures 1 <= |r| <= 3
  {
    if code >= 0x800 then
      [(0xE0 + code / 4096) as char, (0x80 + code / 64 % 64) as char, (0x80 + code % 64) as char]
    else if code >= 0x80 then
      [(0xC0 + code / 64) as char, (0x80 + code % 64) as char]
    else
      [code as char]
  }

  /** Reading UTF-8: the code at the beginning of the bytes, and how many bytes it takes (table 3-6
      of the Unicode standard, section 3 of RFC 3629). */
  function FirstCode(bytes: string): (nat, nat)
    requires bytes != ""
  {
    var b := bytes[0] as nat;
    if 0xE0 <= b < 0xF0 && |bytes| >= 3 then
      ((b - 0xE0) * 4096 + (bytes[1] as nat % 64) * 64 + bytes[2] as nat % 64, 3)
    else if 0xC0 <= b < 0xE0 && |bytes| >= 2 then ((b - 0xC0) * 64 + bytes[1] as nat % 64, 2)
    else (b, 1)
  }

  lemma SixBits(code: nat)
    ensures code == code / 4096 * 4096 + code / 64 % 64 * 64 + code % 64
  {
  }

  /** The bytes written for a code are its UTF-8: reading them gives the code back. */
  lemma CodeBytesAreUtf8(code: nat, rest: string)
    requires code < 0x10000
    ensures FirstCode(CodeBytes(code) + rest) == (code, |CodeBytes(code)|)
  {
    SixBits(code);
    var bytes := CodeBytes(code) + rest;
    assert forall k | 0 <= k < |CodeBytes(code)| :: bytes[k] == CodeBytes(code)[k];
    if code >= 0x800 {
      assert bytes[1] as nat % 64 == code / 64 % 64 && bytes[2] as nat % 64 == code % 64;
    } else if code >= 0x80 {
      assert bytes[1] as nat % 64 == code % 64;
    }
  }

  predicate IsSimpleEscape(c: char) {
    c in "\"\\/bfnrt"
  }

  function SimpleEscape(c: char): char
    requires IsSimpleEscape(c)
  {
    if c == 'b' then 8 as char else if c == 'f' then 12 as char else if c == 'n' then '\n'
    else if c == 'r' then '\r' else if c == 't' then '\t' else c
  }

  /** How long the first character of an escaped string is: 1, 2 or 6; 0 if it is malformed. */
  function FirstLength(raw: string): (n: nat)
    requires raw != ""
    ensures n <= |raw|
  {
    if raw[0] != '\\' then 1
    else if |raw| < 2 then 0
    else if raw[1] == 'u' then
      if |raw| >= 6 && IsHex(raw[2]) && IsHex(raw[3]) && IsHex(raw[4]) && IsHex(raw[5]) then 6 else 0
    else if IsSimpleEscape(raw[1]) then 2
    else 0
  }

  function FirstBytes(raw: string): (r: string)
    requires raw != "" && FirstLength(raw) > 0
    ensures 1 <= |r| <= FirstLength(raw)
  {
    if FirstLength(raw) == 1 then [raw[0]]
    else if FirstLength(raw) == 2 then [SimpleEscape(raw[1])]
    else CodeBytes(Hex4(raw[2], raw[3], raw[4], raw[5]))
  }

  predicate WellEscaped(raw: string)
    decreases |raw|
  {
    raw == "" || (FirstLength(raw) > 0 && WellEscaped(raw[FirstLength(raw)..]))
  }

  function Unescape(raw: string): string
    requires WellEscaped(raw)
    decreases |raw|
  {
    if raw == "" then "" else FirstBytes(raw) + Unescape(raw[FirstLength(raw)..])
  }

  /* ---- one undoes the other ---- */

  lemma HexRoundTrip(n: nat)
    requires n < 16
    ensures IsHex(HexDigit(n)) && FromHex(HexDigit(n)) == n
  {
  }

  lemma EscapedChar(c: char)
    ensures EscapeChar(c) != "" && FirstLength(EscapeChar(c)) == |EscapeChar(c)| && FirstBytes(EscapeChar(c)) == [c]
  {
    if c < 32 as char {
      HexRoundTrip(c as nat / 16);
      HexRoundTrip(c as nat % 16);
    }
  }

  lemma EscapedCharThen(c: char, rest: string)
    ensures var raw := EscapeChar(c) + rest;
      && raw != "" && FirstLength(raw) == |EscapeChar(c)| && FirstBytes(raw) == [c] && raw[|EscapeChar(c)|..] == rest
  {
    EscapedChar(c);
    var e, raw := EscapeChar(c), EscapeChar(c) + rest;
    assert forall k | 0 <= k < |e| :: raw[k] == e[k];
  }

  /** Whatever bytes a string has, reading what was written gives them back. */
  lemma {:induction false} UnescapeEscape(s: string)
    ensures WellEscaped(Escape(s)) && Unescape(Escape(s)) == s
  {
    if s != "" {
      hide EscapeChar, FirstLength, FirstBytes;
      UnescapeEscape(s[1..]);
      EscapedCharThen(s[0], Escape(s[1..]));
      assert s == [s[0]] + s[1..];
    }
  }
}
