/** Query strings as text: where the pairs are, and what their keys and values decode to. A text ends
    with its first NUL. */
module QueryText {
  import opened Wrappers

  predicate Terminated(s: string) {
    |s| > 0 && s[|s| - 1] == '\0'
  }

  /** CROW_QS_ISQSCHR */
  predicate IsQsChar(c: char) {
    c != '=' && c != '#' && c != '&' && c != '\0'
  }

  predicate IsHex(c: char) {
    '0' <= c <= '9' || 'A' <= c <= 'F' || 'a' <= c <= 'f'
  }

  /** CROW_QS_HEX2DEC */
  function HexToDec(c: char): (n: nat)
    requires IsHex(c)
    ensures n < 16
  {
    if '0' <= c <= '9' then c as nat - 48 else if 'A' <= c <= 'F' then c as nat - 55 else c as nat - 87
  }

  function Byte(a: char, b: char): char
    requires IsHex(a) && IsHex(b)
  {
    (HexToDec(a) * 16 + HexToDec(b)) as char
  }

  /** strcspn: the first place from `p` on with one of the characters, or the end of the text. */
  function Span(s: string, p: nat, stops: string): (q: nat)
    requires Terminated(s) && p < |s|
    ensures p <= q < |s| && (s[q] in stops || s[q] == '\0') && forall k | p <= k < q :: s[k] !in stops && s[k] != '\0'
    decreases |s| - p
  {
    if s[p] in stops || s[p] == '\0' then p else Span(s, p + 1, stops)
  }

  /** A percent sign without two hexadecimal digits after it. */
  predicate Malformed(s: string, p: nat)
    requires Terminated(s) && p < |s|
  {
    s[p] == '%' && !(IsHex(s[p + 1]) && IsHex(s[p + 2]))
  }

  /** The character at `p`, and where the next one is. */
  function DecodeChar(s: string, p: nat): (r: (char, nat))
    requires Terminated(s) && p < |s| && IsQsChar(s[p]) && !Malformed(s, p)
    ensures p < r.1 < |s|
  {
    if s[p] == '+' then (' ', p + 1) else if s[p] == '%' then (Byte(s[p + 1], s[p + 2]), p + 3) else (s[p], p + 1)
  }

  /** The value at `p`: decoded up to where it ends, or up to a malformed escape. */
  function DecodeValue(s: string, p: nat): string
    requires Terminated(s) && p < |s|
    decreases |s| - p
  {
    if !IsQsChar(s[p]) || Malformed(s, p) then "" else [DecodeChar(s, p).0] + DecodeValue(s, DecodeChar(s, p).1)
  }

  /** The key at `p`, unless it has a malformed escape. */
  function DecodeKey(s: string, p: nat): Option<string>
    requires Terminated(s) && p < |s|
    decreases |s| - p
  {
    if !IsQsChar(s[p]) then Some("")
    else if Malformed(s, p) then None
    else
      var rest := DecodeKey(s, DecodeChar(s, p).1);
      if rest.None? then None else Some([DecodeChar(s, p).0] + rest.value)
  }

  function PairEnd(s: string, p: nat): nat
    requires Terminated(s) && p < |s|
  {
    Span(s, p, "&")
  }

  /** Where the key of the pair at `p` ends. */
  function KeyEnd(s: string, p: nat): nat
    requires Terminated(s) && p < |s|
  {
    Span(s, p, "=&#")
  }

  lemma {:induction false} SpanOfMore(s: string, p: nat, stops: string, more: string)
    requires Terminated(s) && p < |s| && forall c | c in stops :: c in more
    ensures Span(s, p, more) <= Span(s, p, stops)
    decreases |s| - p
  {
    if s[p] !in more && s[p] != '\0' { SpanOfMore(s, p + 1, stops, more); }
  }

  /** Where the pairs begin, from `p` on. */
  function Starts(s: string, p: nat): (r: seq<nat>)
    requires Terminated(s) && p < |s|
    ensures r != [] && r[0] == p && forall k | 0 <= k < |r| :: p <= r[k] < |s|
    decreases |s| - p
  {
    var e := PairEnd(s, p);
    [p] + if s[e] == '\0' then [] else Starts(s, e + 1)
  }

  lemma StartsIs(s: string, p: nat)
    requires Terminated(s) && p < |s|
    ensures var e := Span(s, p, "&");
      Starts(s, p) == if s[e] == '\0' then [p] else [p] + Starts(s, e + 1)
  {
  }

  /** The pairs of a URL: from behind the first question mark or hash. */
  function Pairs(s: string): (r: seq<nat>)
    requires Terminated(s)
    ensures forall k | 0 <= k < |r| :: r[k] < |s|
  {
    var q := Span(s, 0, "?#");
    if s[q] == '\0' then [] else Starts(s, q + 1)
  }

  /** A C string ends with its first NUL. */
  function CString(t: string): string {
    if t == "" || t[0] == '\0' then "" else [t[0]] + CString(t[1..])
  }

  function AfterEquals(t: string): string {
    if t == "" then "" else if t[0] == '=' then t[1..] else AfterEquals(t[1..])
  }

  /** The value of the pair at `p`, as it can be read. A pair without a value has an empty one; behind
      a hash, what follows a decoded equals sign counts as the value. */
  function ValueAt(s: string, p: nat): string
    requires Terminated(s) && p < |s|
  {
    var e := KeyEnd(s, p);
    if s[e] == '=' then CString(DecodeValue(s, e + 1))
    else if s[e] == '#' then AfterEquals(CString(DecodeValue(s, e + 1)))
    else ""
  }

  /* ---- names ---- */

  /** A name as it is handed to the comparison: a C string with its NUL. */
  function NameText(name: string): (t: string)
    ensures Terminated(t)
  {
    CString(name) + "\0"
  }

  /** What the comparison reads of a name: it resolves escapes, and stops at the characters that end a
      key and at a malformed escape. */
  function NameRead(name: string): string { DecodeValue(NameText(name), 0) }

  /** A name of which every character is compared as one: nothing ends it early, and it has no escape. */
  predicate IsLiteral(name: string) {
    forall c | c in CString(name) :: IsQsChar(c) && c != '%'
  }

  /** The rest of the name, from `i` on, fits the rest of the key, from `q` on. A literal name has to be
      all of a key without malformed escapes; for other names, both count up to a NUL, and the key up
      to a malformed escape. */
  predicate FitsFrom(text: string, literal: bool, i: nat, s: string, q: nat)
    requires Terminated(text) && i < |text| && Terminated(s) && q < |s|
  {
    if literal then DecodeKey(s, q) == Some(DecodeValue(text, i))
    else CString(DecodeValue(s, q)) == CString(DecodeValue(text, i))
  }

  /** The name fits the key at `p`. */
  predicate Fits(name: string, s: string, p: nat)
    requires Terminated(s) && p < |s|
  {
    FitsFrom(NameText(name), IsLiteral(name), 0, s, p)
  }

  /** The same for a key that is known. */
  predicate KeyFits(name: string, key: string) {
    if IsLiteral(name) then key == NameRead(name) else CString(key) == CString(NameRead(name))
  }

  lemma {:induction false} KeyIsValue(s: string, p: nat)
    requires Terminated(s) && p < |s| && DecodeKey(s, p).Some?
    ensures DecodeValue(s, p) == DecodeKey(s, p).value
    decreases |s| - p
  {
    if IsQsChar(s[p]) { KeyIsValue(s, DecodeChar(s, p).1); }
  }

  /** A key without malformed escapes decides by what it decodes to. */
  lemma FitsKey(name: string, s: string, p: nat)
    requires Terminated(s) && p < |s| && DecodeKey(s, p).Some?
    ensures Fits(name, s, p) <==> KeyFits(name, DecodeKey(s, p).value)
  {
    hide DecodeKey, DecodeValue, NameText, CString, IsLiteral;
    KeyIsValue(s, p);
  }

  /** A name that stands for itself: it has none of the characters that mean something in a query. */
  predicate IsPlain(name: string) {
    forall c | c in name :: c !in "%+=&#" && c != '\0'
  }

  /** A plain name fits exactly the keys that decode to it. */
  lemma PlainFits(name: string, s: string, p: nat)
    requires Terminated(s) && p < |s| && IsPlain(name)
    ensures Fits(name, s, p) <==> DecodeKey(s, p) == Some(name)
  {
    hide DecodeKey, DecodeValue, CString;
    PlainText(name);
    PlainRead(name, 0);
  }

  lemma PlainKeyFits(name: string, key: string)
    requires IsPlain(name)
    ensures KeyFits(name, key) <==> key == name
  {
    hide DecodeValue, CString;
    PlainText(name);
    PlainRead(name, 0);
  }

  lemma {:induction false} PlainText(name: string)
    requires forall c | c in name :: c != '\0'
    ensures CString(name) == name
    decreases |name|
  {
    if name != "" {
      assert name[0] in name && forall c | c in name[1..] :: c in name;
      PlainText(name[1..]);
      assert name == [name[0]] + name[1..];
    }
  }

  lemma {:induction false} PlainRead(name: string, i: nat)
    requires IsPlain(name) && i <= |name|
    ensures DecodeValue(name + "\0", i) == name[i..]
    decreases |name| - i
  {
    if i < |name| {
      assert name[i] in name;
      PlainRead(name, i + 1);
      assert name[i..] == [name[i]] + name[i + 1..];
    }
  }

  /** The pairs whose key the name fits. */
  function Matching(s: string, starts: seq<nat>, name: string): (r: seq<nat>)
    requires Terminated(s) && forall k | 0 <= k < |starts| :: starts[k] < |s|
    ensures forall k | 0 <= k < |r| :: r[k] in starts && r[k] < |s| && Fits(name, s, r[k])
  {
    if starts == [] then []
    else (if Fits(name, s, starts[0]) then [starts[0]] else []) + Matching(s, starts[1..], name)
  }

  /** A decoded value is no longer than its text. */
  lemma {:induction false} DecodeShrinks(s: string, p: nat)
    requires Terminated(s) && p < |s|
    ensures p + |DecodeValue(s, p)| <= Span(s, p, "=#&")
    decreases |s| - p
  {
    if IsQsChar(s[p]) && !Malformed(s, p) {
      var q := DecodeChar(s, p).1;
      DecodeShrinks(s, q);
      if s[p] == '%' { assert Span(s, p, "=#&") == Span(s, p + 3, "=#&"); }
    }
  }
}
