/** Crow's HTTPParser: the callbacks that put messages together, and what the handler is given. */
module HttpMessage {
  import opened Wrappers
  import opened HttpChars
  import opened HttpMachine
  import opened HttpStream
  import opened HttpHeaders
  import opened HttpNumbers
  import opened HttpInvariant
  import opened HttpParser
  import opened HttpSlices
  import opened HttpWire
  import opened HttpPrinter

  /** A complete message, as the handler finds it. */
  datatype Message = Message(verb: Method, rawUrl: string, url: string, headers: seq<Header>, body: string)

  /** The members of HTTPParser. `headers` lists the multimap in the order of insertion, and
      `done` the messages handed over so far. */
  datatype Assembly = Assembly(
    rawUrl: string, building: nat, field: string, value: string, headers: seq<Header>, body: string,
    done: seq<Message>)

  const FRESH := Assembly("", 0, "", "", [], "", [])

  /** raw_url.substr(0, raw_url.find("?")) */
  function BeforeQuery(url: string): string {
    if url == "" || url[0] == '?' then "" else [url[0]] + BeforeQuery(url[1..])
  }

  /** What a callback does. A string that has been moved from is taken to be empty. */
  function Apply(s: Assembly, c: Callback): Assembly {
    match c
    case Event(MessageBegin) => FRESH.(done := s.done)
    case Event(HeadersComplete) =>
      if s.field != "" then s.(headers := s.headers + [Header(s.field, s.value)], field := "", value := "") else s
    case Event(MessageComplete(verb)) =>
      s.(done := s.done + [Message(verb, s.rawUrl, BeforeQuery(s.rawUrl), s.headers, s.body)])
    case Data(Url, bytes) => s.(rawUrl := s.rawUrl + bytes)
    case Data(Body, bytes) => s.(body := s.body + bytes)
    case Data(Field, bytes) =>
      if s.building == 0 then
        var t := if s.value != "" then s.(headers := s.headers + [Header(s.field, s.value)], value := "") else s;
        t.(field := bytes, building := 1)
      else if s.building == 1 then s.(field := s.field + bytes)
      else s
    case Data(Value, bytes) =>
      if s.building == 0 then s.(value := s.value + bytes)
      else if s.building == 1 then s.(value := bytes, building := 0)
      else s
  }

  function Assemble(s: Assembly, calls: seq<Callback>): Assembly {
    if calls == [] then s else Apply(Assemble(s, calls[..|calls| - 1]), calls[|calls| - 1])
  }

  lemma AssembleNone(s: Assembly)
    ensures Assemble(s, []) == s
  {
  }

  lemma AssembleSnoc(s: Assembly, calls: seq<Callback>, c: Callback)
    ensures Assemble(s, calls + [c]) == Apply(Assemble(s, calls), c)
  {
  }

  /** Data handed over in two pieces counts as one. */
  lemma ApplyTwice(s: Assembly, k: Kind, a: string, b: string)
    ensures Apply(Apply(s, Data(k, a)), Data(k, b)) == Apply(s, Data(k, a + b))
  {
  }

  /** Gluing callbacks together does not change what they assemble. */
  lemma {:induction false} AssembleGlue(s: Assembly, calls: seq<Callback>)
    ensures Assemble(s, calls) == Assemble(s, Glue(calls))
    decreases |calls|
  {
    hide Apply;
    if calls != [] {
      var front, c := calls[..|calls| - 1], calls[|calls| - 1];
      AssembleGlue(s, front);
      assert calls == front + [c];
      GlueSnoc(front, c);
      var tr := Glue(front);
      if c.Data? && EndsWith(tr, c.kind) {
        var start, last := tr[..|tr| - 1], tr[|tr| - 1];
        assert Append(tr, c.kind, c.bytes) == start + [Data(c.kind, last.bytes + c.bytes)];
        AssembleSnoc(s, start, Data(c.kind, last.bytes + c.bytes));
        ApplyTwice(Assemble(s, start), c.kind, last.bytes, c.bytes);
      } else {
        AssembleSnoc(s, tr, c);
      }
    }
  }

  /** HTTPParser. */
  class MessageParser {
    const core: Parser
    var rawUrl: string
    var building: nat
    var field: string
    var value: string
    var headers: seq<Header>
    var body: string
    var done: seq<Message>

    function State(): Assembly
      reads this
    {
      Assembly(rawUrl, building, field, value, headers, body, done)
    }

    /** The members are what the callbacks so far put together. */
    ghost predicate Valid()
      reads this, core
    {
      core.Valid() && State() == Assemble(FRESH, core.calls)
    }

    constructor ()
      ensures Valid() && fresh(core) && core.f == INITIAL && core.calls == []
    {
      core := new Parser();
      rawUrl, building, field, value, headers, body, done := "", 0, "", "", [], "", [];
    }

    method Clear()
      modifies this
      ensures State() == FRESH.(done := old(done))
    {
      rawUrl, building, field, value, headers, body := "", 0, "", "", [], "";
    }

    method OnHeaderField(bytes: string)
      modifies this
      ensures State() == Apply(old(State()), Data(Field, bytes))
    {
      match building
      case 0 =>
        if value != "" {
          headers, value := headers + [Header(field, value)], "";
        }
        field := bytes;
        building := 1;
      case 1 => field := field + bytes;
      case _ =>
    }

    method OnHeaderValue(bytes: string)
      modifies this
      ensures State() == Apply(old(State()), Data(Value, bytes))
    {
      match building
      case 0 => value := value + bytes;
      case 1 =>
        building := 0;
        value := bytes;
      case _ =>
    }

    method OnHeadersComplete()
      modifies this
      ensures State() == Apply(old(State()), Event(HeadersComplete))
    {
      if field != "" {
        headers := headers + [Header(field, value)];
        field, value := "", "";
      }
    }

    method OnMessageComplete(verb: Method)
      modifies this
      ensures State() == Apply(old(State()), Event(MessageComplete(verb)))
    {
      done := done + [Message(verb, rawUrl, BeforeQuery(rawUrl), headers, body)];
    }

    method Call(c: Callback)
      modifies this
      ensures State() == Apply(old(State()), c)
    {
      match c
      case Event(MessageBegin) => Clear();
      case Event(HeadersComplete) => OnHeadersComplete();
      case Event(MessageComplete(verb)) => OnMessageComplete(verb);
      case Data(Url, bytes) => rawUrl := rawUrl + bytes;
      case Data(Field, bytes) => OnHeaderField(bytes);
      case Data(Value, bytes) => OnHeaderValue(bytes);
      case Data(Body, bytes) => body := body + bytes;
    }

    /** feed: runs the parser, and the callbacks it makes. An empty buffer is the end of the stream. */
    method Feed(buffer: string) returns (ok: bool, n: nat)
      requires Valid()
      modifies this, core
      ensures Valid() && ok == (n == |buffer|)
      ensures !old(core.f.errno).OK? ==> n == 0 && core.f == old(core.f) && core.calls == old(core.calls)
      ensures old(core.f.errno).OK? && buffer == "" ==>
        core.calls == old(core.calls) && ok == (old(core.f.state).Dead? || old(core.f.state).StartReq?)
        && core.f == if ok then old(core.f) else old(core.f).(errno := InvalidEofState)
      ensures old(core.f.errno).OK? && buffer != "" ==>
        Delivers(Stream(old(core.f), Glue(old(core.calls)), buffer, 0), n, |buffer|, core.f, Glue(core.calls))
    {
      hide Stream, Glue, Apply, Inv, Coherent;
      var before := core.calls;
      n := core.Execute(buffer);
      ok := n == |buffer|;
      var made := core.calls;
      ghost var f1 := core.f;
      assert made[..|before|] == before;
      for i := |before| to |made|
        invariant core.f == f1 && core.calls == made
        invariant State() == Assemble(FRESH, made[..i])
      {
        Call(made[i]);
        AssembleSnoc(FRESH, made[..i], made[i]);
        assert made[..i] + [made[i]] == made[..i + 1];
      }
      assert made[..|made|] == made;
    }
  }

  /** The members `s` lack at most some data at the end of what the members `t` hold. */
  ghost predicate Lacks(s: Assembly, t: Assembly) {
    s == t || exists k, bytes :: t == Apply(s, Data(k, bytes))
  }

  lemma AssembleAppend(s: Assembly, tr: Trace, k: Kind, bytes: string)
    ensures Assemble(s, Append(tr, k, bytes)) == Apply(Assemble(s, tr), Data(k, bytes))
  {
    hide Apply;
    if EndsWith(tr, k) {
      var start, last := tr[..|tr| - 1], tr[|tr| - 1].bytes;
      assert tr == start + [Data(k, last)];
      AssembleSnoc(s, start, Data(k, last));
      AssembleSnoc(s, start, Data(k, last + bytes));
      ApplyTwice(Assemble(s, start), k, last, bytes);
    } else {
      AssembleSnoc(s, tr, Data(k, bytes));
    }
  }

  /** Withheld data is missing from the members, but not from any finished message. */
  lemma WithheldLacks(s: Assembly, delivered: Trace, tr: Trace)
    requires Withheld(delivered, tr)
    ensures Lacks(Assemble(s, delivered), Assemble(s, tr))
    ensures Assemble(s, delivered).done == Assemble(s, tr).done
  {
    hide Assemble, Append;
    if delivered != tr {
      var k, bytes :| tr == Append(delivered, k, bytes);
      AssembleAppend(s, delivered, k, bytes);
    }
  }

  /** Feeds a whole stream, cut into the given pieces, to a fresh parser. If it is read to its end, or
      to an upgrade, the members and the finished messages are those of the uncut stream. If it fails,
      the finished messages are, and the members lack at most the data still marked. An empty piece
      within a message ends the stream there. */
  method FeedAll(pieces: seq<string>) returns (p: MessageParser, n: nat)
    ensures fresh(p) && fresh(p.core) && p.Valid()
    ensures match EndedAt(INITIAL, [], pieces)
      case None =>
        var o := Stream(INITIAL, [], Concat(pieces), 0);
        && Delivers(o, n, |Concat(pieces)|, p.core.f, Glue(p.core.calls))
        && (o.Running? || o.Upgraded? ==> p.State() == Assemble(FRESH, o.tr))
        && (o.Failed? ==> p.done == Assemble(FRESH, o.tr).done && Lacks(p.State(), Assemble(FRESH, o.tr)))
      case Some(j) =>
        var o := Stream(INITIAL, [], Concat(pieces[..j]), 0);
        && Ended(o, n, |Concat(pieces[..j])|, p.core.f, Glue(p.core.calls))
        && p.State() == Assemble(FRESH, o.tr)
  {
    hide Stream, Glue, Apply, Inv, Coherent, Assemble, ReadTo, EndedAt, Concat;
    p := new MessageParser();
    n := 0;
    assert Glue([]) == [] by { GlueNothing(); }
    NothingRead(INITIAL, [], pieces);
    for i := 0 to |pieces|
      invariant fresh(p) && fresh(p.core) && p.Valid() && p.core.f.errno.OK? && !p.core.f.upgrade
      invariant ReadTo(INITIAL, [], pieces, i, p.core.f, Glue(p.core.calls), n)
    {
      ghost var f, tr, was := p.core.f, Glue(p.core.calls), n;
      StreamKeeps(f, tr, pieces[i], 0);
      UpgradeFlag(f, tr, pieces[i], 0);
      StopsInside(f, tr, pieces[i], 0);
      var ok, k := p.Feed(pieces[i]);
      if pieces[i] == "" {
        StreamEnd(f, tr, 0);
        if !ok {
          EndsHere(INITIAL, [], pieces, i, f, tr, n);
          ReadThere(INITIAL, [], pieces, i, f, tr, n);
          AssembleGlue(FRESH, p.core.calls);
          return;
        }
      } else {
        n := n + k;
        if !ok || p.core.f.upgrade {
          PieceStops(INITIAL, [], pieces, i, f, tr, was);
          AssembledSoFar(p, Stream(INITIAL, [], Concat(pieces), 0), n, |Concat(pieces)|);
          return;
        }
      }
      OnePieceMore(INITIAL, [], pieces, i, f, tr, was, p.core.f, Glue(p.core.calls));
      InvOK(p.core.f);
    }
    AllRead(INITIAL, [], pieces, p.core.f, Glue(p.core.calls), n);
    AssembledSoFar(p, Stream(INITIAL, [], Concat(pieces), 0), n, |Concat(pieces)|);
  }

  lemma AssembledSoFar(p: MessageParser, o: Outcome, n: nat, len: nat)
    requires p.Valid() && Delivers(o, n, len, p.core.f, Glue(p.core.calls))
    ensures o.Running? || o.Upgraded? ==> p.State() == Assemble(FRESH, o.tr)
    ensures o.Failed? ==> p.done == Assemble(FRESH, o.tr).done && Lacks(p.State(), Assemble(FRESH, o.tr))
  {
    hide Assemble, Glue, Apply, Lacks, Inv, Coherent;
    AssembleGlue(FRESH, p.core.calls);
    if o.Failed? { WithheldLacks(FRESH, Glue(p.core.calls), o.tr); }
  }

  lemma GlueNothing()
    ensures Glue([]) == []
  {
  }

  /* ---- printed requests come back as messages ---- */

  function MessageOf(r: Request): Message {
    Message(r.verb, r.url, BeforeQuery(r.url), AllHeaders(r), Content(r.payload))
  }

  function MessagesOf(rs: seq<Request>): seq<Message> {
    if rs == [] then [] else [MessageOf(rs[0])] + MessagesOf(rs[1..])
  }

  lemma {:induction false} AssembleConcat(s: Assembly, a: seq<Callback>, b: seq<Callback>)
    ensures Assemble(s, a + b) == Assemble(Assemble(s, a), b)
    decreases |b|
  {
    hide Apply;
    if b == [] {
      assert a + b == a;
    } else {
      var front, c := b[..|b| - 1], b[|b| - 1];
      assert a + b == a + front + [c] && b == front + [c];
      AssembleConcat(s, a, front);
      AssembleSnoc(s, a + front, c);
      AssembleSnoc(Assemble(s, a), front, c);
    }
  }

  /** All headers, the last of which is still in the making. */
  function Flushed(s: Assembly): seq<Header> {
    if s.field != "" then s.headers + [Header(s.field, s.value)] else s.headers
  }

  predicate NonEmpty(h: Header) { h.name != "" && h.value != "" }

  /** Between header lines. */
  predicate BetweenLines(s: Assembly) { s.building == 0 && (s.field == "" <==> s.value == "") }

  lemma AssembleLine(s: Assembly, h: Header)
    requires BetweenLines(s) && NonEmpty(h)
    ensures var t := Assemble(s, [Data(Field, h.name), Data(Value, h.value)]);
      && BetweenLines(t) && Flushed(t) == Flushed(s) + [h]
      && t == s.(headers := t.headers, field := t.field, value := t.value)
  {
    var c, d := Data(Field, h.name), Data(Value, h.value);
    assert [c, d][..1] == [] + [c];
    AssembleSnoc(s, [], c);
    AssembleSnoc(s, [c], d);
    assert [c, d] == [c] + [d];
  }

  lemma {:induction false} AssembleLines(s: Assembly, headers: seq<Header>)
    requires BetweenLines(s) && forall i | 0 <= i < |headers| :: NonEmpty(headers[i])
    ensures var t := Assemble(s, HeaderTrace(headers));
      && BetweenLines(t) && Flushed(t) == Flushed(s) + headers
      && t == s.(headers := t.headers, field := t.field, value := t.value)
    decreases |headers|
  {
    hide Apply, Flushed;
    if headers == [] {
      assert Flushed(s) + headers == Flushed(s);
    } else {
      var line := [Data(Field, headers[0].name), Data(Value, headers[0].value)];
      AssembleLine(s, headers[0]);
      var t := Assemble(s, line);
      AssembleLines(t, headers[1..]);
      AssembleConcat(s, line, HeaderTrace(headers[1..]));
      assert Flushed(s) + [headers[0]] + headers[1..] == Flushed(s) + headers;
    }
    hide Assemble;
  }

  lemma AssembleTail(s: Assembly, r: Request)
    requires s.body == "" && s.rawUrl == r.url && Flushed(s) == AllHeaders(r)
    ensures Assemble(s, BodyReported(r.verb, r.payload)).done == s.done + [MessageOf(r)]
  {
    var e := [Event(HeadersComplete)];
    var b := if Content(r.payload) == "" then [] else [Data(Body, Content(r.payload))];
    var m := [Event(MessageComplete(r.verb))];
    AssembleConcat(s, e + b, m);
    AssembleConcat(s, e, b);
    AssembleSnoc(s, [], e[0]);
    assert [] + e == e && [] + m == m && [] + b == b;
    var s1 := Assemble(s, e);
    if b != [] { AssembleSnoc(s1, [], b[0]); }
    var s2 := Assemble(s1, b);
    AssembleSnoc(s2, [], m[0]);
    hide Assemble, AllHeaders, Content;
    assert "" + Content(r.payload) == Content(r.payload);
  }

  /** One printed request gives one message with its method, URL, headers and body. */
  lemma AssembleRequest(s: Assembly, r: Request)
    requires forall i | 0 <= i < |AllHeaders(r)| :: NonEmpty(AllHeaders(r)[i])
    ensures Assemble(s, Reported(r)).done == s.done + [MessageOf(r)]
  {
    var start := [Event(MessageBegin), Data(Url, r.url)];
    var lines := HeaderTrace(AllHeaders(r));
    assert Reported(r) == start + lines + BodyReported(r.verb, r.payload);
    AssembleConcat(s, start + lines, BodyReported(r.verb, r.payload));
    AssembleConcat(s, start, lines);
    assert start == [Event(MessageBegin)] + [Data(Url, r.url)] && [] + [start[0]] == [start[0]];
    AssembleSnoc(s, [], start[0]);
    AssembleSnoc(s, [start[0]], start[1]);
    var s1 := Assemble(s, start);
    assert s1 == FRESH.(done := s.done, rawUrl := r.url) by { assert "" + r.url == r.url; }
    AssembleLines(s1, AllHeaders(r));
    assert [] + AllHeaders(r) == AllHeaders(r);
    hide Assemble, Reported, BodyReported, AllHeaders;
    AssembleTail(Assemble(s1, lines), r);
  }

  lemma PrintableHeaders(r: Request)
    requires Printable(r)
    ensures forall i | 0 <= i < |AllHeaders(r)| :: NonEmpty(AllHeaders(r)[i])
  {
  }

  lemma AssembleFirst(s: Assembly, rs: seq<Request>)
    requires rs != [] && Printable(rs[0])
    ensures var t := Assemble(s, Reported(rs[0]));
      && Assemble(s, AllReported(rs)) == Assemble(t, AllReported(rs[1..]))
      && t.done == s.done + [MessageOf(rs[0])]
  {
    hide Printable, Reported, Assemble, MessageOf, AllHeaders, NonEmpty;
    PrintableHeaders(rs[0]);
    AssembleConcat(s, Reported(rs[0]), AllReported(rs[1..]));
    AssembleRequest(s, rs[0]);
  }

  lemma {:induction false} AssembleRequests(s: Assembly, rs: seq<Request>)
    requires forall i | 0 <= i < |rs| :: Printable(rs[i])
    ensures Assemble(s, AllReported(rs)).done == s.done + MessagesOf(rs)
    decreases |rs|
  {
    hide Printable, Reported, MessageOf, Assemble;
    if rs == [] {
      AssembleNone(s);
      assert s.done + MessagesOf(rs) == s.done;
    } else {
      AssembleFirst(s, rs);
      AssembleRequests(Assemble(s, Reported(rs[0])), rs[1..]);
      assert s.done + [MessageOf(rs[0])] + MessagesOf(rs[1..]) == s.done + MessagesOf(rs);
    }
  }

  /** The whole way round: requests printed one after another, cut anywhere and fed to the parser: the
      handler gets their methods, URLs, headers and bodies, in order, up to the first request that
      closes the connection. If that is the last one, or none, all bytes are taken. */
  method RoundTrip(rs: seq<Request>, pieces: seq<string>) returns (p: MessageParser, n: nat)
    requires HeadsFit(rs, 0) && forall i | 0 <= i < |rs| :: Printable(rs[i])
    requires Concat(pieces) == Wires(rs) && forall i | 0 <= i < |pieces| :: pieces[i] != ""
    ensures p.done == MessagesOf(Served(rs)) && n == |Wires(Served(rs))|
    ensures (forall i | 0 <= i < |rs| - 1 :: KeepsAlive(rs[i])) ==>
      Served(rs) == rs && p.core.f.errno.OK? && p.core.f.state == StateAfter(rs)
  {
    hide Stream, Printable, HeadsFit, Wires, AllReported, MessagesOf, Assemble, Glue, Inv, Coherent, Served, StateAfter,
      KeepsAlive;
    ParserUndoesPrinter(rs);
    ServedExact(rs);
    ServedPrintable(rs);
    AssembleRequests(FRESH, Served(rs));
    assert [] + MessagesOf(Served(rs)) == MessagesOf(Served(rs));
    NotEnded(INITIAL, [], pieces);
    p, n := FeedAll(pieces);
    NoAssertionFails(Wires(rs));
    ghost var o := Stream(INITIAL, [], Wires(rs), 0);
    if o.Running? { InvOK(o.f); }
  }

  lemma {:induction false} ServedPrintable(rs: seq<Request>)
    requires forall i | 0 <= i < |rs| :: Printable(rs[i])
    ensures forall i | 0 <= i < |Served(rs)| :: Printable(Served(rs)[i])
    decreases |rs|
  {
    hide Printable, KeepsAlive;
    if rs != [] { ServedPrintable(rs[1..]); }
  }
}
