/** http_parser_parse_url: the two passes together, on the structure that they fill. */
module HttpSplit {
  import opened Wrappers
  import opened HttpChars
  import opened HttpMachine
  import opened HttpUrl
  import opened HttpHost

  const MAX_LENGTH := 65535
  const ULONG_MAX: nat := 0xFFFF_FFFF_FFFF_FFFF

  function Decimal(t: string): nat
    requires forall k | 0 <= k < |t| :: IsNum(t[k])
  {
    if t == "" then 0 else Decimal(t[..|t| - 1]) * 10 + Digit(t[|t| - 1])
  }

  /** The state of the URL automaton after the characters from `p` on. */
  function RunUrl(buf: string, s: State, p: nat): State
    requires p <= |buf|
    decreases |buf| - p
  {
    if p == |buf| || s == Dead then s else RunUrl(buf, ParseUrlChar(s, buf[p]), p + 1)
  }

  lemma RunOn(buf: string, s: State, p: nat)
    requires p < |buf| && s != Dead
    ensures RunUrl(buf, s, p) == RunUrl(buf, ParseUrlChar(s, buf[p]), p + 1)
    ensures ParseUrlChar(s, buf[p]) == Dead ==> RunUrl(buf, s, p) == Dead
  {
  }

  lemma RunOver(buf: string, s: State)
    ensures RunUrl(buf, s, |buf|) == s
  {
  }

  /** The whole URL in order: the authority's parts stand where the host field stood. */
  lemma WholeInOrder(buf: string, s: State, last: Option<Uf>, fields0: set<Uf>, data0: Table, foundAt: bool,
      fields: set<Uf>, data: Table)
    requires Found(buf, s, last, fields0, data0, |buf|) && HOST in fields0
    requires fields - {USERINFO, PORT} == fields0
      && forall f | f !in {USERINFO, HOST, PORT} :: At(data, f) == At(data0, f)
    requires At(data0, HOST).End() <= |buf|
      && Authority(buf, foundAt, fields, data, At(data0, HOST).off, At(data0, HOST).End())
    ensures InOrder(fields, data, |buf|) && Delimited(buf, fields, data, 0, |buf|, ":/?#@[]")
  {
    hide Authority, At, FieldOf, Bound;
    var a, b := At(data0, HOST).off, At(data0, HOST).End();
    var parts := fields * {USERINFO, PORT} + {HOST};
    AuthorityInOrder(buf, foundAt, fields, data, a, b);
    OrderJoins(fields0, data0, parts, fields, data, a, b, |buf|);
    DelimitersJoin(buf, fields0, data0, parts, fields, data, a, b);
  }

  lemma OrderJoins(fields0: set<Uf>, data0: Table, parts: set<Uf>, fields: set<Uf>, data: Table, a: nat, b: nat, n: nat)
    requires InOrder(fields0, data0, n) && HOST in fields0 && a == At(data0, HOST).off
      && b == At(data0, HOST).End() <= n
    requires fields - {USERINFO, PORT} == fields0
      && forall f | f !in {USERINFO, HOST, PORT} :: At(data, f) == At(data0, f)
    requires parts == fields * {USERINFO, PORT} + {HOST} && InOrder(parts, data, b)
      && forall f | f in parts :: a <= At(data, f).off
    ensures InOrder(fields, data, n)
  {
  }

  lemma DelimitersJoin(buf: string, fields0: set<Uf>, data0: Table, parts: set<Uf>, fields: set<Uf>, data: Table,
      a: nat, b: nat)
    requires Delimited(buf, fields0, data0, 0, |buf|, ":/?#") && HOST in fields0 && a == At(data0, HOST).off
      && b == At(data0, HOST).End() <= |buf|
    requires fields - {USERINFO, PORT} == fields0
      && forall f | f !in {USERINFO, HOST, PORT} :: At(data, f) == At(data0, f)
    requires parts == fields * {USERINFO, PORT} + {HOST} && Delimited(buf, parts, data, a, b, ":/?#@[]")
    ensures Delimited(buf, fields, data, 0, |buf|, ":/?#@[]")
  {
    hide At;
    forall k | 0 <= k < |buf| && (forall f | f in fields :: !At(data, f).Covers(k)) ensures buf[k] in ":/?#@[]" {
      if a <= k < b {
        assert forall f | f in parts :: f in fields;
      } else {
        forall f | f in fields0 ensures !At(data0, f).Covers(k) {
          if f != HOST { assert f in fields; }
        }
      }
    }
  }

  class ParserUrl {
    var fieldSet: set<Uf>
    var port: nat
    var data: Table

    constructor ()
      ensures fieldSet == {} && port == 0 && data == ZEROED
    {
      fieldSet, port, data := {}, 0, ZEROED;
    }

    /** The port or the user information grows by the character at `p`, or begins with it. */
    method GrowPart(f: Uf, begins: bool, p: nat)
      requires !begins ==> f in fieldSet
      modifies this`fieldSet, this`data
      ensures data == Grown(old(data), f, begins, p) && fieldSet == old(fieldSet) + {f}
    {
      hide At, Put;
      ghost var was := data;
      if begins {
        data := Put(data, f, Span(p, 0));
        fieldSet := fieldSet + {f};
      }
      data := Put(data, f, Span(At(data, f).off, At(data, f).len + 1));
      PutTwice(was, f, Span(p, 0), Span(p, 1));
    }

    /** One character of the authority: the part it belongs to grows, or it begins. */
    method HostStep(buf: string, s: HostState, newS: HostState, ghost foundAt: bool, ghost a: nat, ghost h: nat,
        ghost q: nat, p: nat)
      returns (ghost h': nat, ghost q': nat)
      requires p < |buf| && newS == ParseHostChar(s, buf[p]) != HostDead
        && Reading(buf, s, foundAt, fieldSet, data, a, h, q, p)
      modifies this`fieldSet, this`data
      ensures Reading(buf, newS, foundAt, fieldSet, data, a, h', q', p + 1)
      ensures fieldSet - {USERINFO, PORT} == old(fieldSet) - {USERINFO, PORT}
      ensures forall f | f !in {USERINFO, HOST, PORT} :: At(data, f) == old(At(data, f))
    {
      hide At, Reading, ParseHostChar, Authority, Put;
      h', q' := h, q;
      ghost var was, fields := data, fieldSet;
      if newS == PlainHost || newS == V6Host {
        data := Put(data, HOST, Span(if s == newS then At(data, HOST).off else p, At(data, HOST).len + 1));
        ToHost(buf, s, foundAt, fields, was, a, h, q, p, data);
      } else if newS == PortDigits {
        SetAlready(buf, s, foundAt, fields, was, a, h, q, p);
        GrowPart(PORT, s != PortDigits, p);
        ToPort(buf, s, foundAt, fields, was, a, h, q, p, data);
      } else if newS == Userinfo {
        SetAlready(buf, s, foundAt, fields, was, a, h, q, p);
        GrowPart(USERINFO, s != Userinfo, p);
        ToUserinfo(buf, s, foundAt, fields, was, a, h, q, p, data);
      } else {
        h', q' := ToDelimiter(buf, s, foundAt, fields, was, a, h, q, p);
      }
    }

    /** http_parse_host */
    method ParseHost(buf: string, foundAt: bool) returns (ok: bool)
      requires At(data, HOST).End() <= |buf| && fieldSet !! {USERINFO, PORT}
      modifies this`fieldSet, this`data
      ensures var start := if foundAt then UserinfoStart else HostStart;
        ok <==> Accepts(RunHost(buf, start, old(At(data, HOST).off), old(At(data, HOST).End())))
      ensures ok ==> Authority(buf, foundAt, fieldSet, data, old(At(data, HOST).off), old(At(data, HOST).End()))
      ensures fieldSet - {USERINFO, PORT} == old(fieldSet)
        && forall f | f !in {USERINFO, HOST, PORT} :: At(data, f) == old(At(data, f))
    {
      hide At, Reading, ParseHostChar, Authority, Put;
      var a, b := At(data, HOST).off, At(data, HOST).End();
      data := Put(data, HOST, Span(a, 0));
      var s := if foundAt then UserinfoStart else HostStart;
      ghost var start := s;
      ghost var h, q := a, a;
      var p := a;
      ReadingStarts(buf, s, foundAt, fieldSet, data, a);
      while p < b
        invariant a <= p <= b && s != HostDead && Reading(buf, s, foundAt, fieldSet, data, a, h, q, p)
        invariant RunHost(buf, s, p, b) == RunHost(buf, start, a, b)
        invariant fieldSet - {USERINFO, PORT} == old(fieldSet)
          && forall f | f !in {USERINFO, HOST, PORT} :: At(data, f) == old(At(data, f))
      {
        var newS := ParseHostChar(s, buf[p]);
        if newS == HostDead {
          return false;
        }
        h, q := HostStep(buf, s, newS, foundAt, a, h, q, p);
        s := newS;
        p := p + 1;
      }
      ok := !(s == HostStart || s == V6Start || s == V6Host || s == PortStart || s == Userinfo || s == UserinfoStart);
      if ok { ReadingEnds(buf, s, foundAt, fieldSet, data, a, h, q, p); }
    }

    /** One byte of a field: the field grows, or it begins. */
    method AddToField(buf: string, ghost from: State, state: State, last: Option<Uf>, ghost foundAt: bool, p: nat)
        returns (last': Option<Uf>)
      requires p < |buf| && FieldOf(state) != {} && state == ParseUrlChar(from, buf[p])
      requires IsDelimiterState(from) || FieldOf(from) != {} || from == ReqSpacesBeforeUrl
      requires Found(buf, from, last, fieldSet, data, p) && AtSeen(buf, foundAt, fieldSet, data)
        && Untouched(fieldSet, data)
      modifies this`fieldSet, this`data
      ensures Found(buf, state, last', fieldSet, data, p + 1)
        && AtSeen(buf, foundAt || state == ReqServerWithAt, fieldSet, data)
      ensures Untouched(fieldSet, data)
    {
      hide ParseUrlChar, Found, AtSeen, Put, At, FieldOf, Bound, Untouched;
      var uf := Belongs(state);
      MovesTo(from, buf[p], uf);
      WithAtIsHost(state);
      ghost var fields0, data0 := fieldSet, data;
      if last == Some(uf) {
        data := Put(data, uf, Span(At(data, uf).off, At(data, uf).len + 1));
        StillUntouched(fields0, data0, uf, Span(At(data0, uf).off, At(data0, uf).len + 1));
        SameFieldStep(buf, from, state, uf, fields0, data0, p);
        assert fields0 == fields0 + {uf};
        last' := last;
      } else {
        data := Put(data, uf, Span(p, 1));
        fieldSet := fieldSet + {uf};
        StillUntouched(fields0, data0, uf, Span(p, 1));
        NewFieldStep(buf, from, state, last, uf, fields0, data0, p);
        last' := Some(uf);
      }
      AtSeenStep(buf, foundAt, fields0, data0, uf, fieldSet, data, p);
    }

    /** One character of the first pass. */
    method OneStep(buf: string, from: State, last: Option<Uf>, foundAt: bool, p: nat)
      returns (state: State, last': Option<Uf>, foundAt': bool)
      requires p < |buf| && Live(from) && Untouched(fieldSet, data)
      requires Found(buf, from, last, fieldSet, data, p) && AtSeen(buf, foundAt, fieldSet, data)
      modifies this`fieldSet, this`data
      ensures state == ParseUrlChar(from, buf[p])
      ensures state != Dead ==>
        Live(state) && Found(buf, state, last', fieldSet, data, p + 1) && AtSeen(buf, foundAt', fieldSet, data)
      ensures Untouched(fieldSet, data)
    {
      hide ParseUrlChar, Found, AtSeen, Put, At, FieldOf, Bound, Untouched;
      Moves(from, buf[p]);
      state, last', foundAt' := ParseUrlChar(from, buf[p]), last, foundAt;
      if state == Dead {
        return;
      }
      if IsDelimiterState(state) {
        DelimiterStep(buf, from, state, last, fieldSet, data, p);
      } else {
        last' := AddToField(buf, from, state, last, foundAt, p);
        foundAt' := foundAt || state == ReqServerWithAt;
      }
    }

    /** The first pass: the fields, with the authority in one piece. */
    method FindFields(buf: string, start: State)
        returns (ok: bool, foundAt: bool, ghost s: State, ghost last: Option<Uf>)
      requires (start == ReqSpacesBeforeUrl || start == ReqServerStart) && data == ZEROED
      modifies this`fieldSet, this`data
      ensures ok <==> RunUrl(buf, start, 0) != Dead
      ensures ok ==> Found(buf, s, last, fieldSet, data, |buf|) && AtSeen(buf, foundAt, fieldSet, data)
      ensures Untouched(fieldSet, data)
    {
      hide ParseUrlChar, Found, AtSeen, Put, At, FieldOf, Bound, Untouched, RunUrl, Live;
      NoneTouched();
      fieldSet := {};
      foundAt := false;
      var state := start;
      var lastField: Option<Uf> := None;
      var p := 0;
      FoundNothing(buf, state, data);
      NothingSeen(buf, data);
      StartStates();
      while p < |buf|
        invariant 0 <= p <= |buf| && Found(buf, state, lastField, fieldSet, data, p)
          && AtSeen(buf, foundAt, fieldSet, data)
        invariant RunUrl(buf, state, p) == RunUrl(buf, start, 0) && state != Dead
        invariant Live(state) && Untouched(fieldSet, data)
      {
        RunOn(buf, state, p);
        state, lastField, foundAt := OneStep(buf, state, lastField, foundAt, p);
        if state == Dead {
          s, last := state, lastField;
          return false, foundAt, s, last;
        }
        p := p + 1;
      }
      RunOver(buf, state);
      s, last := state, lastField;
      ok := true;
    }

    /** strtoul on the text from `off` on. */
    method StrToUl(buf: string, off: nat) returns (v: nat)
      requires off <= |buf|
      ensures v == if Decimal(DigitRun(buf, off)) > ULONG_MAX then ULONG_MAX else Decimal(DigitRun(buf, off))
    {
      v := 0;
      var p := off;
      assert buf[off..off] == "";
      while p < |buf| && IsNum(buf[p])
        invariant off <= p <= |buf| && (forall k | off <= k < p :: IsNum(buf[k])) && v == Decimal(buf[off..p])
      {
        assert buf[off..p + 1][..p - off] == buf[off..p];
        v := v * 10 + Digit(buf[p]);
        p := p + 1;
      }
      RunIs(buf, off, p);
      if v > ULONG_MAX { v := ULONG_MAX; }
    }

    /** http_parser_parse_url on zeroed fields: an accepted URL is split exactly. `fields0` and `data0`
        are the fields with the authority in one piece. */
    method ParseUrl(buf: string, isConnect: bool)
        returns (ok: bool, ghost foundAt: bool, ghost fields0: set<Uf>, ghost data0: Table)
      requires |buf| <= MAX_LENGTH && data == ZEROED
      modifies this
      ensures if RunUrl(buf, StartState(isConnect), 0) == Dead then !ok
        else
          && Pieces(buf, foundAt, fields0, data0)
          && (ok <==>
                && (fields0 * {SCHEMA, HOST} == {} || HostAccepted(buf, foundAt, data0))
                && (isConnect ==> fieldSet == {HOST, PORT})
                && PortFits(buf, fieldSet, data))
      ensures ok ==> InOrder(fieldSet, data, |buf|) && Delimited(buf, fieldSet, data, 0, |buf|, ":/?#@[]")
      ensures ok ==> (fieldSet * {SCHEMA, USERINFO, PORT} != {} ==> HOST in fieldSet)
      ensures ok && HOST in fieldSet ==> AuthorityOf(buf, foundAt, fieldSet, data, data0)
      ensures ok ==> port == if PORT in fieldSet then PortValue(buf, data) else 0
    {
      hide Found, AtSeen, At, FieldOf, Bound, RunUrl, HostAccepted, InOrder, Delimited, AuthorityOf, PortReady,
          PortFits, PortValue, Untouched;
      port := 0;
      var at;
      ghost var s, last;
      ok, at, s, last := FindFields(buf, StartState(isConnect));
      foundAt, fields0, data0 := at, fieldSet, data;
      if !ok { return; }
      ok := SplitAuthority(buf, at, s, last);
      if !ok { return; }
      if isConnect && fieldSet != {HOST, PORT} {
        ok := false;
        return;
      }
      ok := SetPort(buf);
    }

    /** The second pass, if there is a schema or a host. */
    method SplitAuthority(buf: string, at: bool, ghost s: State, ghost last: Option<Uf>) returns (ok: bool)
      requires Found(buf, s, last, fieldSet, data, |buf|) && AtSeen(buf, at, fieldSet, data)
        && Untouched(fieldSet, data)
      modifies this`fieldSet, this`data
      ensures ok <==> old(fieldSet) * {SCHEMA, HOST} == {} || HostAccepted(buf, at, old(data))
      ensures ok ==> InOrder(fieldSet, data, |buf|) && Delimited(buf, fieldSet, data, 0, |buf|, ":/?#@[]")
      ensures ok ==> (fieldSet * {SCHEMA, USERINFO, PORT} != {} ==> HOST in fieldSet)
      ensures ok && HOST in fieldSet ==> AuthorityOf(buf, at, fieldSet, data, old(data))
      ensures ok && PORT in fieldSet ==> PortReady(buf, data)
    {
      hide Found, AtSeen, At, Authority, FieldOf, Bound, RunHost, InOrder, Delimited, DigitRun;
      ghost var fields0, data0 := fieldSet, data;
      FoundFacts(buf, s, last, fieldSet, data, at);
      if fieldSet * {SCHEMA, HOST} != {} {
        NoHostNoField(buf, data);
        ok := ParseHost(buf, at);
        if !ok { return; }
        WholeInOrder(buf, s, last, fields0, data0, at, fieldSet, data);
        PortIsRun(buf, at, fieldSet, data, At(data0, HOST).off, At(data0, HOST).End());
      } else {
        assert HOST !in fieldSet * {SCHEMA, HOST} && SCHEMA !in fieldSet * {SCHEMA, HOST};
        MoreDelimiters(buf, fieldSet, data);
        ok := true;
      }
    }

    method SetPort(buf: string) returns (ok: bool)
      requires port == 0 && (PORT in fieldSet ==> PortReady(buf, data))
      modifies this`port
      ensures ok <==> PortFits(buf, fieldSet, data)
      ensures ok ==> port == if PORT in fieldSet then PortValue(buf, data) else 0
    {
      hide DigitRun, Decimal;
      ok := true;
      if PORT in fieldSet {
        var v := StrToUl(buf, At(data, PORT).off);
        if v > 0xffff {
          return false;
        }
        port := v;
      }
    }
  }

  /** The port field is what strtoul reads. */
  ghost predicate PortReady(buf: string, data: Table) {
    PortText(buf, data) && DigitRun(buf, At(data, PORT).off) == buf[At(data, PORT).off..At(data, PORT).End()]
  }

  /** The fields that are not set have their zeroed spans. */
  ghost predicate Untouched(fields: set<Uf>, data: Table) {
    forall f | f !in fields :: At(data, f) == Span(0, 0)
  }

  lemma StillUntouched(fields: set<Uf>, data: Table, f: Uf, span: Span)
    requires Untouched(fields, data)
    ensures Untouched(fields + {f}, Put(data, f, span))
  {
  }

  /** The part of Moves about the field `f` that the automaton gets to. */
  lemma MovesTo(s: State, ch: char, f: Uf)
    requires (IsDelimiterState(s) || FieldOf(s) != {} || s == ReqSpacesBeforeUrl) && FieldOf(ParseUrlChar(s, ch)) == {f}
    ensures f != USERINFO && f != PORT && Bound(ParseUrlChar(s, ch)) == Order(f) + 1
      && (FieldOf(s) == {f} || Bound(s) <= Order(f))
    ensures (f == PATH && FieldOf(s) != {PATH} ==> ch in "/*") && (FieldOf(s) == {HOST} && f != HOST ==> ch in "/?")
    ensures f == HOST ==> (ch == '@' <==> ParseUrlChar(s, ch) == ReqServerWithAt)
  {
    hide ParseUrlChar, FieldOf, Bound;
    Moves(s, ch);
  }

  lemma NoneTouched()
    ensures Untouched({}, ZEROED)
  {
  }

  /** The first pass found these fields, and whether there is an at sign in the authority. */
  ghost predicate Pieces(buf: string, foundAt: bool, fields: set<Uf>, data: Table) {
    AtSeen(buf, foundAt, fields, data) && exists s, last :: Found(buf, s, last, fields, data, |buf|)
  }

  ghost predicate HostAccepted(buf: string, foundAt: bool, data0: Table) {
    At(data0, HOST).End() <= |buf|
    && Accepts(RunHost(buf, if foundAt then UserinfoStart else HostStart, At(data0, HOST).off, At(data0, HOST).End()))
  }

  /** The parts of the authority stand where the first pass found it. */
  ghost predicate AuthorityOf(buf: string, foundAt: bool, fields: set<Uf>, data: Table, data0: Table) {
    At(data0, HOST).End() <= |buf| && Authority(buf, foundAt, fields, data, At(data0, HOST).off, At(data0, HOST).End())
  }

  predicate PortText(buf: string, data: Table) {
    At(data, PORT).End() <= |buf| && forall k | At(data, PORT).off <= k < At(data, PORT).End() :: IsNum(buf[k])
  }

  /** The decimal value of the port field. */
  function PortValue(buf: string, data: Table): nat {
    if PortText(buf, data) then Decimal(buf[At(data, PORT).off..At(data, PORT).End()]) else 0
  }

  ghost predicate PortFits(buf: string, fields: set<Uf>, data: Table) {
    PORT in fields ==> PortText(buf, data) && PortValue(buf, data) <= 65535
  }

  lemma FoundFacts(buf: string, s: State, last: Option<Uf>, fields: set<Uf>, data: Table, foundAt: bool)
    requires Found(buf, s, last, fields, data, |buf|) && AtSeen(buf, foundAt, fields, data)
    ensures USERINFO !in fields && PORT !in fields && InOrder(fields, data, |buf|)
      && Delimited(buf, fields, data, 0, |buf|, ":/?#")
    ensures HOST in fields ==>
      At(data, HOST).End() <= |buf| && (At(data, HOST).End() < |buf| ==> buf[At(data, HOST).End()] in "/?")
    ensures HOST !in fields ==> !foundAt
  {
  }

  /** A URL with a schema but no host is not accepted. */
  lemma NoHostNoField(buf: string, data: Table)
    ensures At(data, HOST) == Span(0, 0) ==> !HostAccepted(buf, false, data)
  {
  }

  lemma MoreDelimiters(buf: string, fields: set<Uf>, data: Table)
    requires Delimited(buf, fields, data, 0, |buf|, ":/?#")
    ensures Delimited(buf, fields, data, 0, |buf|, ":/?#@[]")
  {
  }

  /** The port is all of the digits that strtoul reads. */
  lemma PortIsRun(buf: string, foundAt: bool, fields: set<Uf>, data: Table, a: nat, b: nat)
    requires b <= |buf| && Authority(buf, foundAt, fields, data, a, b) && (b < |buf| ==> buf[b] in "/?")
    ensures PORT in fields ==> PortReady(buf, data)
  {
    hide UserPart, HostPart;
    if PORT in fields {
      var h, q :| a <= h <= q <= b && UserPart(buf, foundAt, fields, data, a, h) && HostPart(buf, data, h, q)
        && PortPart(buf, fields, data, q, b);
      RunIs(buf, q + 1, b);
    }
  }

  function StartState(isConnect: bool): State { if isConnect then ReqServerStart else ReqSpacesBeforeUrl }

  /** The digits from `p` on. */
  function DigitRun(buf: string, p: nat): (r: string)
    requires p <= |buf|
    ensures forall k | 0 <= k < |r| :: IsNum(r[k])
    decreases |buf| - p
  {
    if p == |buf| || !IsNum(buf[p]) then "" else [buf[p]] + DigitRun(buf, p + 1)
  }

  lemma {:induction false} RunIs(buf: string, off: nat, p: nat)
    requires off <= p <= |buf| && (forall k | off <= k < p :: IsNum(buf[k])) && (p < |buf| ==> !IsNum(buf[p]))
    ensures DigitRun(buf, off) == buf[off..p]
    decreases p - off
  {
    if off < p { RunIs(buf, off + 1, p); }
  }

  lemma ReadingStarts(buf: string, s: HostState, foundAt: bool, fields: set<Uf>, data: Table, a: nat)
    requires a <= |buf| && s == (if foundAt then UserinfoStart else HostStart) && At(data, HOST).len == 0
      && fields !! {USERINFO, PORT}
    ensures Reading(buf, s, foundAt, fields, data, a, a, a, a)
  {
  }

  lemma SetAlready(buf: string, s: HostState, foundAt: bool, fields: set<Uf>, data: Table, a: nat, h: nat, q: nat,
      p: nat)
    requires p <= |buf| && Reading(buf, s, foundAt, fields, data, a, h, q, p)
    ensures (s == PortDigits ==> PORT in fields) && (s == Userinfo ==> USERINFO in fields)
  {
  }

  /** A character of the authority that is in none of its parts. */
  lemma ToDelimiter(buf: string, s: HostState, foundAt: bool, fields: set<Uf>, data: Table, a: nat, h: nat, q: nat,
      p: nat)
    returns (h': nat, q': nat)
    requires p < |buf| && Reading(buf, s, foundAt, fields, data, a, h, q, p)
    requires ParseHostChar(s, buf[p]) !in {HostDead, PlainHost, V6Host, PortDigits, Userinfo}
    ensures Reading(buf, ParseHostChar(s, buf[p]), foundAt, fields, data, a, h', q', p + 1)
  {
    hide Reading, ParseHostChar;
    h', q' := h, q;
    NeverBack(s, buf[p]);
    match ParseHostChar(s, buf[p])
    case HostStart => ToHostStart(buf, s, foundAt, fields, data, a, h, q, p); h' := p + 1;
    case V6Start => ToV6Start(buf, s, foundAt, fields, data, a, h, q, p);
    case V6End => ToV6End(buf, s, foundAt, fields, data, a, h, q, p);
    case PortStart => ToPortStart(buf, s, foundAt, fields, data, a, h, q, p); q' := p;
    case _ =>
  }

  /** The table once the part `f` has grown by the character at `p`, or begun with it. */
  ghost function Grown(data: Table, f: Uf, begins: bool, p: nat): Table {
    Put(data, f, if begins then Span(p, 1) else Span(At(data, f).off, At(data, f).len + 1))
  }

  lemma PutTwice(data: Table, f: Uf, x: Span, y: Span)
    ensures Put(Put(data, f, x), f, y) == Put(data, f, y)
  {
  }

  lemma NeverBack(s: HostState, ch: char)
    ensures ParseHostChar(s, ch) != UserinfoStart
  {
  }

  lemma WithAtIsHost(s: State)
    ensures s == ReqServerWithAt ==> FieldOf(s) == {HOST}
  {
  }

  lemma NothingSeen(buf: string, data: Table)
    ensures AtSeen(buf, false, {}, data)
  {
  }

  /** A state in which the automaton can be between two characters. */
  predicate Live(s: State) {
    IsDelimiterState(s) || FieldOf(s) != {} || s == ReqSpacesBeforeUrl
  }

  lemma StartStates()
    ensures Live(ReqServerStart) && Live(ReqSpacesBeforeUrl)
  {
  }
}
