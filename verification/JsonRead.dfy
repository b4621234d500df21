/** JSON documents, how they are written, and how a text is read, without any writing into it. A text
    ends at its first NUL. */
module JsonRead {
  import opened Wrappers
  import opened JsonText

  /** A document as it stands in a text: the entries of an object have an order. */
  datatype Doc =
    | Nothing
    | No
    | Yes
    | Num(text: string)
    | Text(s: string)
    | Arr(items: seq<Doc>)
    | Obj(entries: seq<(string, Doc)>)

  predicate Terminated(s: string) {
    |s| > 0 && s[|s| - 1] == '\0'
  }

  predicate IsSpace(c: char) {
    c == ' ' || c == '\t' || c == '\r' || c == '\n'
  }

  function SkipSpaces(s: string, p: nat): (q: nat)
    requires Terminated(s) && p < |s|
    ensures p <= q < |s| && !IsSpace(s[q]) && forall k | p <= k < q :: IsSpace(s[k])
    decreases |s| - p
  {
    if IsSpace(s[p]) then SkipSpaces(s, p + 1) else p
  }

  /** The closing quote of a string whose inside begins at `p`. */
  function StringEnd(s: string, p: nat): (r: Option<nat>)
    requires Terminated(s) && p < |s|
    ensures r.Some? ==> p <= r.value < |s| - 1 && s[r.value] == '"'
    decreases |s| - p
  {
    if s[p] == '"' then Some(p)
    else if s[p] == '\0' then None
    else if s[p] != '\\' then StringEnd(s, p + 1)
    else if s[p + 1] == 'u' then
      if IsHex(s[p + 2]) && IsHex(s[p + 3]) && IsHex(s[p + 4]) && IsHex(s[p + 5]) then StringEnd(s, p + 6) else None
    else if IsSimpleEscape(s[p + 1]) then StringEnd(s, p + 2)
    else None
  }

  datatype NumberState = Minus | AfterMinus | ZeroFirst | Digits | DigitsAfterPoints | E | DigitsAfterE | Invalid

  predicate IsDigit(c: char) { '0' <= c <= '9' }

  predicate IsNumberChar(c: char) { IsDigit(c) || c in ".-+eE" }

  /** The state tables of decode_number. */
  function NextState(st: NumberState, c: char): NumberState
    requires IsNumberChar(c)
  {
    if c == '0' then
      match st
      case Minus => ZeroFirst case AfterMinus => ZeroFirst case Digits => Digits
      case DigitsAfterPoints => DigitsAfterPoints
      case E => DigitsAfterE case DigitsAfterE => DigitsAfterE case _ => Invalid
    else if IsDigit(c) then
      match st
      case Minus => Digits case AfterMinus => Digits case Digits => Digits
      case DigitsAfterPoints => DigitsAfterPoints
      case E => DigitsAfterE case DigitsAfterE => DigitsAfterE case _ => Invalid
    else if c == '.' then (if st == ZeroFirst || st == Digits then DigitsAfterPoints else Invalid)
    else if c == '-' then (if st == Minus then AfterMinus else if st == E then DigitsAfterE else Invalid)
    else if c == '+' then (if st == E then DigitsAfterE else Invalid)
    else if st == Digits || st == DigitsAfterPoints then E
    else Invalid
  }

  /** Where a number ends, if it is one. */
  function NumberEnd(s: string, p: nat, st: NumberState): (r: Option<nat>)
    requires Terminated(s) && p < |s|
    ensures r.Some? ==> p <= r.value < |s| && (st == Minus ==> p < r.value)
    decreases |s| - p
  {
    if st == Invalid then None
    else if !IsNumberChar(s[p]) then
      if st in {ZeroFirst, Digits, DigitsAfterPoints, DigitsAfterE} then Some(p) else None
    else NumberEnd(s, p + 1, NextState(st, s[p]))
  }

  predicate WordAt(s: string, p: nat, w: string) {
    p + |w| <= |s| && s[p..p + |w|] == w
  }

  /** The value at `p`, and where it ends. */
  function ReadValue(s: string, p: nat): (r: Option<(Doc, nat)>)
    requires Terminated(s) && p < |s|
    ensures r.Some? ==> p < r.value.1 < |s|
    decreases |s| - p, 1
  {
    match s[p]
    case '[' =>
      var q := SkipSpaces(s, p + 1);
      if s[q] == ']' then Some((Arr([]), q + 1))
      else
        var r := ReadItems(s, q);
        if r.None? then None else Some((Arr(r.value.0), r.value.1))
    case '{' =>
      var q := SkipSpaces(s, p + 1);
      if s[q] == '}' then Some((Obj([]), q + 1))
      else
        var r := ReadEntries(s, q);
        if r.None? then None else Some((Obj(r.value.0), r.value.1))
    case '"' =>
      var e := StringEnd(s, p + 1);
      if e.None? then None else Some((Text(StringText(s, p + 1)), e.value + 1))
    case 't' => if WordAt(s, p, "true") then WordInside(s, p, "true"); Some((Yes, p + 4)) else None
    case 'f' => if WordAt(s, p, "false") then WordInside(s, p, "false"); Some((No, p + 5)) else None
    case 'n' => if WordAt(s, p, "null") then WordInside(s, p, "null"); Some((Nothing, p + 4)) else None
    case _ =>
      var e := NumberEnd(s, p, Minus);
      if e.None? then None else Some((Num(s[p..e.value]), e.value))
  }

  lemma WordInside(s: string, p: nat, w: string)
    requires Terminated(s) && WordAt(s, p, w) && w != "" && w[|w| - 1] != '\0'
    ensures p + |w| < |s|
  {
  }

  /** What the string whose inside begins at `p` stands for. */
  function StringText(s: string, p: nat): string
    requires Terminated(s) && p < |s| && StringEnd(s, p).Some?
  {
    StringIsEscaped(s, p);
    Unescape(s[p..StringEnd(s, p).value])
  }

  /** What is accepted as a string can be unescaped. */
  lemma {:induction false} StringIsEscaped(s: string, p: nat)
    requires Terminated(s) && p < |s| && StringEnd(s, p).Some?
    ensures WellEscaped(s[p..StringEnd(s, p).value])
    decreases |s| - p
  {
    var e := StringEnd(s, p).value;
    if p < e {
      var raw := s[p..e];
      var n := if s[p] != '\\' then 1 else if s[p + 1] == 'u' then 6 else 2;
      StringIsEscaped(s, p + n);
      assert raw[n..] == s[p + n..e];
      assert FirstLength(raw) == n;
    }
  }

  /** The items of a list from `p` on, to its closing bracket. */
  function ReadItems(s: string, p: nat): (r: Option<(seq<Doc>, nat)>)
    requires Terminated(s) && p < |s|
    ensures r.Some? ==> p < r.value.1 < |s|
    decreases |s| - p, 2
  {
    var v := ReadValue(s, p);
    if v.None? then None
    else
      var q := SkipSpaces(s, v.value.1);
      if s[q] == ']' then Some(([v.value.0], q + 1))
      else if s[q] != ',' then None
      else
        var rest := ReadItems(s, SkipSpaces(s, q + 1));
        if rest.None? then None else Some(([v.value.0] + rest.value.0, rest.value.1))
  }

  /** One entry of an object: its key, its value and where the value ends. */
  function ReadEntry(s: string, p: nat): (r: Option<(string, Doc, nat)>)
    requires Terminated(s) && p < |s|
    ensures r.Some? ==> p < r.value.2 < |s|
    decreases |s| - p, 2
  {
    if s[p] != '"' || StringEnd(s, p + 1).None? then None
    else
      var c := SkipSpaces(s, StringEnd(s, p + 1).value + 1);
      if s[c] != ':' then None
      else
        var v := ReadValue(s, SkipSpaces(s, c + 1));
        if v.None? then None else Some((StringText(s, p + 1), v.value.0, v.value.1))
  }

  /** The entries of an object from `p` on, to its closing brace. */
  function ReadEntries(s: string, p: nat): (r: Option<(seq<(string, Doc)>, nat)>)
    requires Terminated(s) && p < |s|
    ensures r.Some? ==> p < r.value.1 < |s|
    decreases |s| - p, 3
  {
    var e := ReadEntry(s, p);
    if e.None? then None
    else
      var q := SkipSpaces(s, e.value.2);
      if s[q] == '}' then Some(([(e.value.0, e.value.1)], q + 1))
      else if s[q] != ',' then None
      else
        var rest := ReadEntries(s, SkipSpaces(s, q + 1));
        if rest.None? then None else Some(([(e.value.0, e.value.1)] + rest.value.0, rest.value.1))
  }

  /** The document of a whole text. */
  function ReadText(s: string): Option<Doc>
    requires Terminated(s)
  {
    var v := ReadValue(s, SkipSpaces(s, 0));
    if v.None? || s[SkipSpaces(s, v.value.1)] != '\0' then None else Some(v.value.0)
  }
}
