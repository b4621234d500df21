/** Reading one tag of a template: where it is, what it says, and the delimiters from there on. */
module MustacheTags {
  import opened Wrappers
  import opened MustacheTree

  datatype Delims = Delims(open: string, close: string)

  const MUSTACHES := Delims("{{", "}}")

  /** Delimiters are never empty and have no spaces in them. */
  predicate DelimsOK(d: Delims) {
    d.open != "" && d.close != "" && ' ' !in d.open && ' ' !in d.close
  }

  predicate StandsAt(body: string, w: string, p: nat) {
    p + |w| <= |body| && body[p..p + |w|] == w
  }

  /** std::string::find: the first place from `p` on where `w` stands. */
  function FindFrom(body: string, w: string, p: nat): (r: Option<nat>)
    requires p <= |body|
    ensures match r
      case Some(q) => p <= q && StandsAt(body, w, q) && forall k | p <= k < q :: !StandsAt(body, w, k)
      case None => forall k | p <= k :: !StandsAt(body, w, k)
    decreases |body| - p
  {
    if StandsAt(body, w, p) then Some(p)
    else if p == |body| then None
    else FindFrom(body, w, p + 1)
  }

  /** The first place from `i` to `e` that is not a space. */
  function SkipUp(body: string, i: nat, e: nat): (r: nat)
    requires i <= e <= |body|
    ensures i <= r <= e && (forall k | i <= k < r :: body[k] == ' ') && (r < e ==> body[r] != ' ')
    decreases e - i
  {
    if i == e || body[i] != ' ' then i else SkipUp(body, i + 1, e)
  }

  /** The end of the last character from `i` to `e` that is not a space. */
  function SkipDown(body: string, i: nat, e: nat): (r: nat)
    requires i <= e <= |body|
    ensures i <= r <= e && (forall k | r <= k < e :: body[k] == ' ') && (r > i ==> body[r - 1] != ' ')
    decreases e
  {
    if i == e || body[e - 1] != ' ' then e else SkipDown(body, i, e - 1)
  }

  /** "open close" between the two equal signs; the new delimiters. */
  function SplitDelims(t: string): (r: Option<Delims>)
    ensures r.Some? ==> |t| > 0 && r.value.open <= t
    ensures r.Some? && t[0] != ' ' && t[|t| - 1] != ' ' ==> DelimsOK(r.value)
  {
    match FindFrom(t, " ", 0)
    case None => None
    case Some(i) =>
      var j := SkipUp(t, i, |t|);
      SpaceStands(t);
      if ' ' in t[j..] then None else Some(Delims(t[..i], t[j..]))
  }

  lemma SpaceStands(t: string)
    ensures forall k | 0 <= k < |t| :: StandsAt(t, " ", k) <==> t[k] == ' '
  {
  }

  /** The delimiters that the tag "=open close=", from `idx` to `e`, asks for. */
  function NewDelims(body: string, idx: nat, e: nat): (r: Option<Delims>)
    requires idx < e <= |body|
    ensures r.Some? ==> DelimsOK(r.value)
  {
    var i := SkipUp(body, idx + 1, e);
    var k := if e - 1 <= idx + 1 then idx + 1 else SkipDown(body, idx + 1, e - 1);
    SplitDelims(if i < k then body[i..k] else "")
  }

  datatype Fault =
    | EmptyTag | NoClosingDelimiter | TripleWithOtherDelimiters | TripleNotClosed
    | NoEqualsSign | BadDelimiters | WrongClose

  /** What a tag says: its action (with no block position yet), where the text goes on, and the
      delimiters from there on. `Blank` is a tag whose name is made of spaces. */
  datatype Reading =
    | Good(a: Action, next: nat, d: Delims)
    | Bad(why: Fault)
    | Blank

  /** A name between `i` and `e`, without the spaces around it. */
  function ReadName(body: string, t: ActionType, i: nat, e: nat, next: nat, d: Delims): Reading
    requires i <= e <= |body|
  {
    if SkipUp(body, i, e) > SkipDown(body, i, e) then Blank
    else Good(Action(t, SkipUp(body, i, e), SkipDown(body, i, e), 0), next, d)
  }

  /** The tag whose inside is from `idx` to `e`. */
  function ReadTag(body: string, d: Delims, idx: nat, e: nat): Reading
    requires idx < e && e + |d.close| <= |body|
  {
    var next := e + |d.close|;
    match body[idx]
    case '#' => ReadName(body, OpenBlock, idx + 1, e, next, d)
    case '/' => ReadName(body, CloseBlock, idx + 1, e, next, d)
    case '^' => ReadName(body, ElseBlock, idx + 1, e, next, d)
    case '!' => Good(Action(Ignore, idx + 1, e, 0), next, d)
    case '>' => ReadName(body, Partial, idx + 1, e, next, d)
    case '{' =>
      if d != MUSTACHES then Bad(TripleWithOtherDelimiters)
      else if e + 2 == |body| || body[e + 2] != '}' then Bad(TripleNotClosed)
      else ReadName(body, UnescapeTag, idx + 1, e, next + 1, d)
    case '&' => ReadName(body, UnescapeTag, idx + 1, e, next, d)
    case '=' =>
      if body[e - 1] != '=' then Bad(NoEqualsSign)
      else
        var d' := NewDelims(body, idx, e);
        if d'.None? then Bad(BadDelimiters) else Good(Action(Ignore, idx + 1, e, 0), next, d'.value)
    case _ => ReadName(body, Tag, idx, e, next, d)
  }

  lemma ReadNameFits(body: string, t: ActionType, i: nat, e: nat, next: nat, d: Delims)
    requires i <= e <= |body|
    ensures var r := ReadName(body, t, i, e, next, d);
      r.Blank? || (r.Good? && i <= r.a.start <= r.a.end <= e && r.a.t == t && r.a.pos == 0
          && r.next == next && r.d == d)
  {
  }

  lemma ReadTagFits(body: string, d: Delims, idx: nat, e: nat)
    requires idx < e && e + |d.close| <= |body| && DelimsOK(d)
    ensures var r := ReadTag(body, d, idx, e);
      r.Good? ==> idx <= r.a.start <= r.a.end <= e && e < r.next <= |body| && DelimsOK(r.d) && r.a.pos == 0
  {
    hide ReadName, NewDelims, DelimsOK;
    forall i: nat, t, next | idx <= i <= e ensures var r := ReadName(body, t, i, e, next, d);
      r.Blank? || (r.Good? && i <= r.a.start <= r.a.end <= e && r.a.t == t && r.a.pos == 0
          && r.next == next && r.d == d)
    {
      ReadNameFits(body, t, i, e, next, d);
    }
    CloseNotEmpty(d);
  }

  lemma CloseNotEmpty(d: Delims)
    requires DelimsOK(d)
    ensures |d.close| > 0 && |d.open| > 0
  {
  }
}
