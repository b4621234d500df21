/** Splitting the authority of a URL into user information, host and port. */
module HttpHost {
  import opened HttpChars
  import opened HttpUrl

  datatype HostState =
    | HostDead | UserinfoStart | Userinfo | HostStart | V6Start | PlainHost | V6Host | V6End | PortStart | PortDigits

  /** http_parse_host_char */
  function ParseHostChar(s: HostState, ch: char): HostState {
    match s
    case UserinfoStart => if ch == '@' then HostStart else if IsUserinfoChar(ch) then Userinfo else HostDead
    case Userinfo => if ch == '@' then HostStart else if IsUserinfoChar(ch) then Userinfo else HostDead
    case HostStart => if ch == '[' then V6Start else if IsHostChar(ch) then PlainHost else HostDead
    case PlainHost => if IsHostChar(ch) then PlainHost else if ch == ':' then PortStart else HostDead
    case V6End => if ch == ':' then PortStart else HostDead
    case V6Host => if ch == ']' then V6End else if IsHex(ch) || ch == ':' || ch == '.' then V6Host else HostDead
    case V6Start => if IsHex(ch) || ch == ':' || ch == '.' then V6Host else HostDead
    case PortDigits => if IsNum(ch) then PortDigits else HostDead
    case PortStart => if IsNum(ch) then PortDigits else HostDead
    case HostDead => HostDead
  }

  /** The user information, if any, and the at sign, if there is one, stand from `a` to `h`. */
  ghost predicate UserPart(buf: string, foundAt: bool, fields: set<Uf>, data: Table, a: nat, h: nat)
    requires h <= |buf|
  {
    if !foundAt then h == a && USERINFO !in fields
    else
      a < h && buf[h - 1] == '@'
      && if USERINFO in fields then At(data, USERINFO) == Span(a, h - 1 - a) && a < h - 1
        && AllUserinfo(buf, a, h - 1) else a == h - 1
  }

  predicate AllUserinfo(buf: string, a: nat, b: nat)
    requires b <= |buf|
  {
    forall k | a <= k < b :: IsUserinfoChar(buf[k])
  }

  /** The host, plain or in brackets, stands from `h` to `q`. */
  ghost predicate HostPart(buf: string, data: Table, h: nat, q: nat)
    requires q <= |buf|
  {
    var host := At(data, HOST);
    && host.len > 0
    && if h < |buf| && buf[h] == '[' then
         host.off == h + 1 && host.End() + 1 == q && buf[q - 1] == ']'
         && forall k | host.off <= k < host.End() :: IsHex(buf[k]) || buf[k] == ':' || buf[k] == '.'
       else
         host.off == h && host.End() == q && forall k | h <= k < q :: IsHostChar(buf[k])
  }

  /** A colon and the port, if there is one, stand from `q` to `p`. */
  ghost predicate PortPart(buf: string, fields: set<Uf>, data: Table, q: nat, p: nat)
    requires p <= |buf|
  {
    if PORT !in fields then q == p
    else
      q + 1 < p && buf[q] == ':' && At(data, PORT) == Span(q + 1, p - q - 1)
          && forall k | q + 1 <= k < p :: IsNum(buf[k])
  }

  /** The authority from `a` to `b`, in its parts. */
  ghost predicate Authority(buf: string, foundAt: bool, fields: set<Uf>, data: Table, a: nat, b: nat)
    requires b <= |buf|
  {
    exists h, q :: a <= h <= q <= b && UserPart(buf, foundAt, fields, data, a, h) && HostPart(buf, data, h, q)
        && PortPart(buf, fields, data, q, b)
  }

  /** The authority read up to `p`, in state `s`: the host begins at `h`, and ends before `q`. */
  ghost predicate Reading(buf: string, s: HostState, foundAt: bool, fields: set<Uf>, data: Table, a: nat, h: nat,
      q: nat, p: nat)
    requires p <= |buf|
  {
    var host := At(data, HOST);
    && a <= p && (s != PortDigits ==> PORT !in fields)
    && (s in {UserinfoStart, Userinfo, HostStart, V6Start} ==> host.len == 0)
    && (s !in {UserinfoStart, Userinfo} ==> a <= h <= p && UserPart(buf, foundAt, fields, data, a, h))
    && match s
       case HostDead => false
       case UserinfoStart => foundAt && p == a && USERINFO !in fields
       case Userinfo => foundAt && a < p && USERINFO in fields && At(data, USERINFO) == Span(a, p - a)
           && AllUserinfo(buf, a, p)
       case HostStart => p == h
       case V6Start => p == h + 1 && buf[h] == '['
       case PlainHost => h < p && buf[h] != '[' && HostPart(buf, data, h, p)
       case V6Host =>
         (h + 1 < p && buf[h] == '[' && host == Span(h + 1, p - h - 1)
          && forall k | h < k < p :: IsHex(buf[k]) || buf[k] == ':' || buf[k] == '.')
       case V6End => h < p && buf[h] == '[' && HostPart(buf, data, h, p)
       case PortStart => h <= q && p == q + 1 && buf[q] == ':' && HostPart(buf, data, h, q)
       case PortDigits =>
         h <= q && q + 1 < p && PORT in fields && HostPart(buf, data, h, q) && PortPart(buf, fields, data, q, p)
  }

  /* ---- one character ---- */

  lemma ToUserinfo(buf: string, s: HostState, foundAt: bool, fields: set<Uf>, data: Table, a: nat, h: nat, q: nat,
      p: nat, data': Table)
    requires p < |buf| && Reading(buf, s, foundAt, fields, data, a, h, q, p) && ParseHostChar(s, buf[p]) == Userinfo
    requires data' == Put(data, USERINFO, if s == Userinfo then Span(At(data, USERINFO).off, At(data, USERINFO).len + 1)
      else Span(p, 1))
    ensures Reading(buf, Userinfo, foundAt, fields + {USERINFO}, data', a, h, q, p + 1)
  {
  }

  lemma ToHostStart(buf: string, s: HostState, foundAt: bool, fields: set<Uf>, data: Table, a: nat, h: nat, q: nat,
      p: nat)
    requires p < |buf| && Reading(buf, s, foundAt, fields, data, a, h, q, p) && ParseHostChar(s, buf[p]) == HostStart
    ensures Reading(buf, HostStart, foundAt, fields, data, a, p + 1, q, p + 1)
  {
  }

  lemma ToV6Start(buf: string, s: HostState, foundAt: bool, fields: set<Uf>, data: Table, a: nat, h: nat, q: nat,
      p: nat)
    requires p < |buf| && Reading(buf, s, foundAt, fields, data, a, h, q, p) && ParseHostChar(s, buf[p]) == V6Start
    ensures Reading(buf, V6Start, foundAt, fields, data, a, h, q, p + 1)
  {
  }

  lemma ToHost(buf: string, s: HostState, foundAt: bool, fields: set<Uf>, data: Table, a: nat, h: nat, q: nat, p: nat,
      data': Table)
    requires p < |buf| && Reading(buf, s, foundAt, fields, data, a, h, q, p)
    requires var s' := ParseHostChar(s, buf[p]);
      && (s' == PlainHost || s' == V6Host)
      && data' == Put(data, HOST, Span(if s == s' then At(data, HOST).off else p, At(data, HOST).len + 1))
    ensures Reading(buf, ParseHostChar(s, buf[p]), foundAt, fields, data', a, h, q, p + 1)
  {
  }

  lemma ToV6End(buf: string, s: HostState, foundAt: bool, fields: set<Uf>, data: Table, a: nat, h: nat, q: nat, p: nat)
    requires p < |buf| && Reading(buf, s, foundAt, fields, data, a, h, q, p) && ParseHostChar(s, buf[p]) == V6End
    ensures Reading(buf, V6End, foundAt, fields, data, a, h, q, p + 1)
  {
  }

  lemma ToPortStart(buf: string, s: HostState, foundAt: bool, fields: set<Uf>, data: Table, a: nat, h: nat, q: nat,
      p: nat)
    requires p < |buf| && Reading(buf, s, foundAt, fields, data, a, h, q, p) && ParseHostChar(s, buf[p]) == PortStart
    ensures Reading(buf, PortStart, foundAt, fields, data, a, h, p, p + 1)
  {
  }

  lemma ToPort(buf: string, s: HostState, foundAt: bool, fields: set<Uf>, data: Table, a: nat, h: nat, q: nat, p: nat,
      data': Table)
    requires p < |buf| && Reading(buf, s, foundAt, fields, data, a, h, q, p) && ParseHostChar(s, buf[p]) == PortDigits
    requires data' == Put(data, PORT, if s == PortDigits then Span(At(data, PORT).off, At(data, PORT).len + 1)
      else Span(p, 1))
    ensures Reading(buf, PortDigits, foundAt, fields + {PORT}, data', a, h, q, p + 1)
  {
  }

  lemma ReadingEnds(buf: string, s: HostState, foundAt: bool, fields: set<Uf>, data: Table, a: nat, h: nat, q: nat,
      p: nat)
    requires p <= |buf| && Reading(buf, s, foundAt, fields, data, a, h, q, p) && s in {PlainHost, V6End, PortDigits}
    ensures Authority(buf, foundAt, fields, data, a, p)
  {
  }

  /** The state after the characters from `p` to `b`. */
  function RunHost(buf: string, s: HostState, p: nat, b: nat): HostState
    requires p <= b <= |buf|
    decreases b - p
  {
    if p == b || s == HostDead then s else RunHost(buf, ParseHostChar(s, buf[p]), p + 1, b)
  }

  predicate Accepts(s: HostState) { s == PlainHost || s == V6End || s == PortDigits }

  /** The authority's parts follow each other, and only delimiters stand between them. */
  lemma AuthorityInOrder(buf: string, foundAt: bool, fields: set<Uf>, data: Table, a: nat, b: nat)
    requires b <= |buf| && Authority(buf, foundAt, fields, data, a, b)
    ensures var parts := fields * {USERINFO, PORT} + {HOST};
      && InOrder(parts, data, b) && Delimited(buf, parts, data, a, b, ":/?#@[]")
      && forall f | f in parts :: a <= At(data, f).off
  {
    hide UserPart, HostPart, PortPart, At, InOrder, Delimited;
    var h, q :| a <= h <= q <= b && UserPart(buf, foundAt, fields, data, a, h) && HostPart(buf, data, h, q)
      && PortPart(buf, fields, data, q, b);
    UserBounds(buf, foundAt, fields, data, a, h);
    HostBounds(buf, data, h, q);
    PortBounds(buf, fields, data, q, b);
    PartsInOrder(buf, fields, data, a, h, q, b);
  }

  lemma UserBounds(buf: string, foundAt: bool, fields: set<Uf>, data: Table, a: nat, h: nat)
    requires a <= h <= |buf| && UserPart(buf, foundAt, fields, data, a, h)
    ensures USERINFO in fields ==>
      At(data, USERINFO).off == a && At(data, USERINFO).len > 0 && At(data, USERINFO).End() <= h
    ensures forall k | a <= k < h && (USERINFO in fields ==> !At(data, USERINFO).Covers(k)) :: buf[k] == '@'
  {
  }

  lemma HostBounds(buf: string, data: Table, h: nat, q: nat)
    requires h <= q <= |buf| && HostPart(buf, data, h, q)
    ensures h <= At(data, HOST).off && At(data, HOST).len > 0 && At(data, HOST).End() <= q
    ensures forall k | h <= k < q && !At(data, HOST).Covers(k) :: buf[k] == '[' || buf[k] == ']'
  {
  }

  lemma PortBounds(buf: string, fields: set<Uf>, data: Table, q: nat, b: nat)
    requires q <= b <= |buf| && PortPart(buf, fields, data, q, b)
    ensures PORT in fields ==> q <= At(data, PORT).off && At(data, PORT).len > 0 && At(data, PORT).End() <= b
    ensures forall k | q <= k < b && (PORT in fields ==> !At(data, PORT).Covers(k)) :: buf[k] == ':'
  {
  }

  lemma PartsInOrder(buf: string, fields: set<Uf>, data: Table, a: nat, h: nat, q: nat, b: nat)
    requires a <= h <= q <= b <= |buf|
    requires USERINFO in fields ==>
      At(data, USERINFO).off == a && At(data, USERINFO).len > 0 && At(data, USERINFO).End() <= h
    requires forall k | a <= k < h && (USERINFO in fields ==> !At(data, USERINFO).Covers(k)) :: buf[k] == '@'
    requires h <= At(data, HOST).off && At(data, HOST).len > 0 && At(data, HOST).End() <= q
    requires forall k | h <= k < q && !At(data, HOST).Covers(k) :: buf[k] == '[' || buf[k] == ']'
    requires PORT in fields ==> q <= At(data, PORT).off && At(data, PORT).len > 0 && At(data, PORT).End() <= b
    requires forall k | q <= k < b && (PORT in fields ==> !At(data, PORT).Covers(k)) :: buf[k] == ':'
    ensures var parts := fields * {USERINFO, PORT} + {HOST};
      && InOrder(parts, data, b) && Delimited(buf, parts, data, a, b, ":/?#@[]")
      && forall f | f in parts :: a <= At(data, f).off
  {
  }
}
