/** Splitting a URL into its fields: one pass finds the fields, a second one splits the authority into
    user information, host and port. */
module HttpUrl {
  import opened Wrappers
  import opened HttpChars
  import opened HttpMachine

  /** The fields, in the order of section 3 of RFC 3986. */
  datatype Uf = SCHEMA | USERINFO | HOST | PORT | PATH | QUERY | FRAGMENT

  function Order(f: Uf): nat {
    match f
    case SCHEMA => 0 case USERINFO => 1 case HOST => 2 case PORT => 3 case PATH => 4 case QUERY => 5 case FRAGMENT => 6
  }

  datatype Span = Span(off: nat, len: nat) {
    function End(): nat { off + len }
    predicate Covers(k: int) { off <= k < off + len }
  }

  /** field_data: one span for each field. */
  type Table = t: seq<Span> | |t| == 7 witness seq(7, _ => Span(0, 0))

  const ZEROED: Table := seq(7, _ => Span(0, 0))

  function At(data: Table, f: Uf): Span { data[Order(f)] }

  function Put(data: Table, f: Uf, span: Span): (r: Table)
    ensures At(r, f) == span && forall g: Uf | g != f :: At(r, g) == At(data, g)
  {
    data[Order(f) := span]
  }

  /** The fields are within the text up to `p`, not empty, and follow each other in order. */
  ghost predicate InOrder(fields: set<Uf>, data: Table, p: nat) {
    && (forall f | f in fields :: At(data, f).len > 0 && At(data, f).End() <= p)
    && (forall f, g | f in fields && g in fields && Order(f) < Order(g) :: At(data, f).End() <= At(data, g).off)
  }

  /** Outside the fields, from `a` to `p`, there is nothing but delimiters. */
  ghost predicate Delimited(buf: string, fields: set<Uf>, data: Table, a: nat, p: nat, delims: string)
    requires p <= |buf|
  {
    forall k | a <= k < p && (forall f | f in fields :: !At(data, f).Covers(k)) :: buf[k] in delims
  }

  /* ---- the first pass ---- */

  /** The field that a byte belongs to after which the automaton is in state `s`. */
  function FieldOf(s: State): set<Uf> {
    match s
    case ReqSchema => {SCHEMA}
    case ReqServerWithAt => {HOST}
    case ReqServer => {HOST}
    case ReqPath => {PATH}
    case ReqQueryString => {QUERY}
    case ReqFragment => {FRAGMENT}
    case _ => {}
  }

  predicate IsDelimiterState(s: State) {
    s == ReqSchemaSlash || s == ReqSchemaSlashSlash || s == ReqServerStart || s == ReqQueryStringStart
        || s == ReqFragmentStart
  }

  /** All the fields found before state `s` come before the one of this order. */
  function Bound(s: State): nat {
    match s
    case ReqSpacesBeforeUrl => 0
    case ReqSchema => 1
    case ReqSchemaSlash => 1
    case ReqSchemaSlashSlash => 1
    case ReqServerStart => 1
    case ReqServer => 3
    case ReqServerWithAt => 3
    case ReqPath => 5
    case ReqQueryStringStart => 5
    case ReqQueryString => 6
    case ReqFragmentStart => 6
    case _ => 7
  }

  /** Where a character leads that is not in a field. */
  lemma MovesOut(s: State, ch: char)
    requires IsDelimiterState(s) || FieldOf(s) != {} || s == ReqSpacesBeforeUrl
    ensures var s' := ParseUrlChar(s, ch);
      IsDelimiterState(s') ==>
        FieldOf(s') == {} && Bound(s) <= Bound(s') && ch in ":/?#" && (FieldOf(s) == {HOST} ==> ch == '?')
  {
    hide IsAlpha, IsUserinfoChar, IsUrlChar;
  }

  lemma MovesWhere(s: State, ch: char)
    requires IsDelimiterState(s) || FieldOf(s) != {} || s == ReqSpacesBeforeUrl
    ensures var s' := ParseUrlChar(s, ch);
      s' == Dead || IsDelimiterState(s') || FieldOf(s') != {}
  {
    hide IsAlpha, IsUserinfoChar, IsUrlChar;
  }

  /** Where a character leads that is in a field. */
  lemma MovesIn(s: State, ch: char)
    requires IsDelimiterState(s) || FieldOf(s) != {} || s == ReqSpacesBeforeUrl
    requires FieldOf(ParseUrlChar(s, ch)) != {}
    ensures var s' := ParseUrlChar(s, ch);
      var f := Belongs(s');
      && f != USERINFO && f != PORT && Bound(s') == Order(f) + 1 && (FieldOf(s) == {f} || Bound(s) <= Order(f))
      && (f == PATH && FieldOf(s) != {PATH} ==> ch in "/*") && (FieldOf(s) == {HOST} && f != HOST ==> ch in "/?")
      && (f == HOST ==> (ch == '@' <==> s' == ReqServerWithAt))
  {
    NotAUserinfoChar();
    hide IsAlpha, IsUserinfoChar, IsUrlChar;
  }

  /** What a step of the automaton means for the fields. */
  lemma Moves(s: State, ch: char)
    requires IsDelimiterState(s) || FieldOf(s) != {} || s == ReqSpacesBeforeUrl
    ensures var s' := ParseUrlChar(s, ch);
      && (s' == Dead || IsDelimiterState(s') || exists f :: FieldOf(s') == {f})
      && (IsDelimiterState(s') ==>
            FieldOf(s') == {} && Bound(s) <= Bound(s') && ch in ":/?#" && (FieldOf(s) == {HOST} ==> ch == '?'))
    ensures var s' := ParseUrlChar(s, ch);
      forall f | FieldOf(s') == {f} ::
        && f != USERINFO && f != PORT && Bound(s') == Order(f) + 1 && (FieldOf(s) == {f} || Bound(s) <= Order(f))
        && (f == PATH && FieldOf(s) != {PATH} ==> ch in "/*") && (FieldOf(s) == {HOST} && f != HOST ==> ch in "/?")
        && (f == HOST ==> (ch == '@' <==> s' == ReqServerWithAt))
  {
    hide ParseUrlChar, Bound, IsDelimiterState, FieldOf;
    var s' := ParseUrlChar(s, ch);
    MovesOut(s, ch);
    MovesWhere(s, ch);
    if FieldOf(s') != {} {
      MovesIn(s, ch);
      var f := Belongs(s');
      assert FieldOf(s') == {f};
      assert forall g | FieldOf(s') == {g} :: g in {f};
    }
  }

  lemma NotAUserinfoChar()
    ensures !IsUserinfoChar('@')
  {
  }

  function Belongs(s: State): Uf
    requires FieldOf(s) != {}
    ensures FieldOf(s) == {Belongs(s)}
  {
    match s
    case ReqSchema => SCHEMA
    case ReqServerWithAt => HOST
    case ReqServer => HOST
    case ReqPath => PATH
    case ReqQueryString => QUERY
    case ReqFragment => FRAGMENT
  }

  /** The first pass up to `p`, in state `s`; `last` is the field found last. */
  ghost predicate Found(buf: string, s: State, last: Option<Uf>, fields: set<Uf>, data: Table, p: nat) {
    && p <= |buf| && USERINFO !in fields && PORT !in fields
    && (forall f | f in fields :: Order(f) < Bound(s))
    && (forall f | FieldOf(s) == {f} :: last == Some(f) && At(data, f).End() == p)
    && (last.None? ==> fields == {})
      && (last.Some? ==> last.value in fields && forall f | f in fields :: Order(f) <= Order(last.value))
    && InOrder(fields, data, p) && Delimited(buf, fields, data, 0, p, ":/?#")
    && (HOST in fields ==> FieldOf(s) == {HOST} || (At(data, HOST).End() < p && buf[At(data, HOST).End()] in "/?"))
    && (PATH in fields ==> buf[At(data, PATH).off] in "/*")
  }

  lemma FoundNothing(buf: string, s: State, data: Table)
    requires s == ReqSpacesBeforeUrl || s == ReqServerStart
    ensures Found(buf, s, None, {}, data, 0)
  {
  }

  lemma DelimiterStep(buf: string, s: State, s': State, last: Option<Uf>, fields: set<Uf>, data: Table, p: nat)
    requires Found(buf, s, last, fields, data, p) && p < |buf| && IsDelimiterState(s') && FieldOf(s') == {}
    requires Bound(s) <= Bound(s') && buf[p] in ":/?#" && (FieldOf(s) == {HOST} ==> buf[p] == '?')
    ensures Found(buf, s', last, fields, data, p + 1)
  {
    hide FieldOf, Bound;
  }

  lemma SameFieldStep(buf: string, s: State, s': State, f: Uf, fields: set<Uf>, data: Table, p: nat)
    requires Found(buf, s, Some(f), fields, data, p) && p < |buf| && FieldOf(s') == {f} && Bound(s') == Order(f) + 1
    requires FieldOf(s) == {f} || Bound(s) <= Order(f)
    ensures f in fields && At(data, f).End() == p
    ensures Found(buf, s', Some(f), fields, Put(data, f, Span(At(data, f).off, At(data, f).len + 1)), p + 1)
  {
    hide FieldOf, Bound, Put, At, Delimited;
    assert FieldOf(s) == {f};
    var data' := Put(data, f, Span(At(data, f).off, At(data, f).len + 1));
    assert At(data, f).End() == p && At(data', f).End() == p + 1;
    forall g, h | g in fields && h in fields && Order(g) < Order(h) ensures At(data', g).End() <= At(data', h).off {
      assert g != f;
    }
    StillDelimited(buf, fields, data, data', f, p, ":/?#");
  }

  /** The last field takes in the next character. */
  lemma StillDelimited(buf: string, fields: set<Uf>, data: Table, data': Table, f: Uf, p: nat, delims: string)
    requires p < |buf| && f in fields && Delimited(buf, fields, data, 0, p, delims)
    requires At(data, f).End() == p && At(data', f) == Span(At(data, f).off, At(data, f).len + 1)
    requires forall g | g in fields && g != f :: At(data', g) == At(data, g)
    ensures Delimited(buf, fields, data', 0, p + 1, delims)
  {
    hide At;
    forall k | 0 <= k < p + 1 && (forall g | g in fields :: !At(data', g).Covers(k)) ensures buf[k] in delims {
      assert !At(data', f).Covers(k);
      assert forall g | g in fields :: !At(data, g).Covers(k);
    }
  }

  lemma NewFieldStep(buf: string, s: State, s': State, last: Option<Uf>, f: Uf, fields: set<Uf>, data: Table, p: nat)
    requires Found(buf, s, last, fields, data, p) && p < |buf| && FieldOf(s') == {f} && Bound(s') == Order(f) + 1
      && last != Some(f)
    requires f != USERINFO && f != PORT && (FieldOf(s) == {f} || Bound(s) <= Order(f))
    requires (f == PATH && FieldOf(s) != {PATH} ==> buf[p] in "/*")
      && (FieldOf(s) == {HOST} && f != HOST ==> buf[p] in "/?")
    ensures f !in fields && Found(buf, s', Some(f), fields + {f}, Put(data, f, Span(p, 1)), p + 1)
  {
    hide FieldOf, Bound, Put, At, InOrder, Delimited;
    assert FieldOf(s) != {f} && f !in fields;
    BeginField(buf, fields, data, 0, p, f, ":/?#");
  }

  /** A field that begins at `p`, after all the others. */
  lemma BeginField(buf: string, fields: set<Uf>, data: Table, a: nat, p: nat, f: Uf, delims: string)
    requires InOrder(fields, data, p) && p < |buf| && Delimited(buf, fields, data, a, p, delims)
    requires f !in fields && forall g | g in fields :: Order(g) < Order(f)
    ensures InOrder(fields + {f}, Put(data, f, Span(p, 1)), p + 1)
    ensures Delimited(buf, fields + {f}, Put(data, f, Span(p, 1)), a, p + 1, delims)
  {
    hide Put, At;
    var data' := Put(data, f, Span(p, 1));
    forall k | a <= k < p + 1 && (forall g | g in fields + {f} :: !At(data', g).Covers(k)) ensures buf[k] in delims {
      assert !At(data', f).Covers(k);
      forall g | g in fields ensures !At(data, g).Covers(k) {
        assert At(data', g) == At(data, g) && !At(data', g).Covers(k);
      }
    }
  }

  /** Whether the host field has an at sign in it. */
  ghost predicate AtSeen(buf: string, foundAt: bool, fields: set<Uf>, data: Table) {
    if HOST in fields then At(data, HOST).End() <= |buf|
        && (foundAt <==> exists k :: At(data, HOST).off <= k < At(data, HOST).End() && buf[k] == '@')
    else !foundAt
  }

  lemma AtSeenStep(buf: string, foundAt: bool, fields: set<Uf>, data: Table, f: Uf, fields': set<Uf>, data': Table,
      p: nat)
    requires AtSeen(buf, foundAt, fields, data) && p < |buf| && fields' == fields + {f}
    requires (f in fields && At(data, f).End() == p
      && data' == Put(data, f, Span(At(data, f).off, At(data, f).len + 1)))
      || (f !in fields && data' == Put(data, f, Span(p, 1)))
    ensures AtSeen(buf, foundAt || (f == HOST && buf[p] == '@'), fields', data')
  {
  }
}
