/** Character classes of the HTTP parser (strict mode), and the one-byte URL automaton.

    Bytes are modelled as `char`. A character above 255, which no byte stream holds,
    behaves like the bytes above 127. */
module HttpChars {
  const CR: char := '\r'
  const LF: char := '\n'

  predicate IsEol(c: char) { c == CR || c == LF }

  predicate IsBlank(c: char) { c == ' ' || c == '\t' }

  /** `c | 0x20` on a byte: adds 32 exactly when bit 5 is clear. */
  function Lower(c: char): char {
    var n := c as int;
    if n < 32 || 64 <= n < 96 || 128 <= n < 160 || 192 <= n < 224 then (n + 32) as char else c
  }

  predicate IsAlpha(c: char) { 'a' <= Lower(c) <= 'z' }

  predicate IsNum(c: char) { '0' <= c <= '9' }

  function Digit(c: char): nat
    requires IsNum(c)
  {
    c as int - '0' as int
  }

  predicate IsAlphaNum(c: char) { IsAlpha(c) || IsNum(c) }

  predicate IsHex(c: char) { IsNum(c) || 'a' <= Lower(c) <= 'f' }

  predicate IsUserinfoChar(c: char) {
    IsAlphaNum(c) || c in "-_.!~*'()" || c in "%;:&=+$,"
  }

  predicate IsHostChar(c: char) { IsAlphaNum(c) || c == '.' || c == '-' }

  /** The bit table of URL characters: visible ASCII without '#' and '?'. */
  predicate IsUrlChar(c: char) { '!' <= c <= '~' && c != '#' && c != '?' }

  /** The header token table: the lower-cased character, or NUL outside the token set. */
  function Token(c: char): char {
    if 'A' <= c <= 'Z' then (c as int + 32) as char
    else if 'a' <= c <= 'z' || IsNum(c) || c in "!#$%&'*+-.^_`|~" then c
    else '\0'
  }

  /** The hexadecimal table. It lists 128 entries of 256, so higher bytes read as digit 0. */
  function Unhex(c: char): (v: int)
    ensures -1 <= v <= 15
  {
    if IsNum(c) then Digit(c)
    else if 'a' <= c <= 'f' then c as int - 'a' as int + 10
    else if 'A' <= c <= 'F' then c as int - 'A' as int + 10
    else if c as int < 128 then -1
    else 0
  }
}
