/** A serialiser of keep-alive HTTP/1.1 requests, and the proof that the parser undoes it. */
module HttpPrinter {
  import opened Wrappers
  import opened HttpChars
  import opened HttpMachine
  import opened HttpStream
  import opened HttpMethods
  import opened HttpHeaders
  import opened HttpValues
  import opened HttpNumbers
  import opened HttpShape
  import opened HttpInvariant
  import opened HttpParser
  import opened HttpWire
  import opened HttpChunks

  datatype Header = Header(name: string, value: string)

  datatype Payload = NoBody | Sized(bytes: string) | Chunks(pieces: seq<string>)

  datatype Request = Request(verb: Method, url: string, headers: seq<Header>, payload: Payload)

  const LENGTH_NAME := "Content-Length"
  const CODING_NAME := "Transfer-Encoding"

  /** The header that announces the body. */
  function Announced(p: Payload): seq<Header> {
    match p
    case NoBody => []
    case Sized(bytes) => [Header(LENGTH_NAME, Print(10, |bytes|))]
    case Chunks(_) => [Header(CODING_NAME, CHUNKED)]
  }

  function AllHeaders(r: Request): seq<Header> { r.headers + Announced(r.payload) }

  function Lines(headers: seq<Header>): string {
    if headers == [] then "" else Line(headers[0].name, headers[0].value) + Lines(headers[1..])
  }

  function RequestLine(r: Request): string { MethodName(r.verb) + " " + r.url + " HTTP/1.1\r\n" }

  function Head(r: Request): string {
    RequestLine(r) + Lines(AllHeaders(r)) + "\r\n"
  }

  function BodyText(p: Payload): string {
    match p
    case NoBody => ""
    case Sized(bytes) => bytes
    case Chunks(pieces) => ChunkText(pieces)
  }

  function Wire(r: Request): string { Head(r) + BodyText(r.payload) }

  /** The body a request carries. */
  function Content(p: Payload): string {
    match p
    case NoBody => ""
    case Sized(bytes) => bytes
    case Chunks(pieces) => Concat(pieces)
  }

  function HeaderTrace(headers: seq<Header>): Trace {
    if headers == [] then []
    else [Data(Field, headers[0].name), Data(Value, headers[0].value)] + HeaderTrace(headers[1..])
  }

  /** What the callbacks must report about a request. */
  function Reported(r: Request): Trace {
    [Event(MessageBegin), Data(Url, r.url)] + HeaderTrace(AllHeaders(r)) + [Event(HeadersComplete)]
    + (if Content(r.payload) == "" then [] else [Data(Body, Content(r.payload))]) + [Event(MessageComplete(r.verb))]
  }

  /** Headers the serialiser is for: all but those that frame the body, which it writes itself, and
      Upgrade. A Transfer-Encoding may have any value but "chunked". */
  predicate Plain(h: Header) {
    && IsName(h.name) && IsValue(h.value) && LowerCase(h.name) != CONTENT_LENGTH && LowerCase(h.name) != UPGRADE
    && (IsCoding(h.name) ==> !Means(h.value, CHUNKED))
  }

  /** The header asks for the connection to be closed. */
  predicate Closes(h: Header) { IsConnection(h.name) && Means(h.value, CLOSE) }

  predicate KeepsAlive(r: Request) { forall i | 0 <= i < |r.headers| :: !Closes(r.headers[i]) }

  /** Requests the serialiser is for. CONNECT is not one of them. */
  predicate Printable(r: Request) {
    && r.verb != CONNECT
    && r.url != "" && UrlFrom(ReqSpacesBeforeUrl, r.url)
    && (forall i | 0 <= i < |r.headers| :: Plain(r.headers[i]))
    && (match r.payload
        case NoBody => true
        case Sized(bytes) => |bytes| <= MaxLength(10)
        case Chunks(pieces) => forall i | 0 <= i < |pieces| :: 0 < |pieces[i]| <= MaxLength(16))
  }

  lemma AppendOther(tr: Trace, k: Kind, bytes: string)
    requires !EndsWith(tr, k)
    ensures Append(tr, k, bytes) == tr + [Data(k, bytes)]
  {
  }

  /** The trace does not end inside a header name, so the next one is a new piece of data. */
  lemma LineIsNew(tr: Trace, h: Header)
    requires !EndsWith(tr, Field)
    ensures LineTrace(tr, h.name, h.value) == tr + HeaderTrace([h])
    ensures !EndsWith(LineTrace(tr, h.name, h.value), Field)
  {
  }

  lemma LinesCons(h: Header, more: seq<Header>, tr: Trace, rest: string)
    ensures Lines([h] + more) + rest == Line(h.name, h.value) + (Lines(more) + rest)
    ensures |Lines([h] + more)| == |Line(h.name, h.value)| + |Lines(more)|
    ensures tr + HeaderTrace([h]) + HeaderTrace(more) == tr + HeaderTrace([h] + more)
  {
  }

  /** The flags after the header lines. */
  function FlagsAfter(fl: Flags, headers: seq<Header>): Flags
    decreases |headers|
  {
    if headers == [] then fl else FlagsAfter(Noted(fl, headers[0].name, headers[0].value), headers[1..])
  }

  /** Among all headers a serialiser writes, only those that close or keep the connection set a flag. */
  lemma {:induction false} FlagsAfterIs(fl: Flags, headers: seq<Header>)
    requires forall i | 0 <= i < |headers| :: Plain(headers[i])
    ensures var g := FlagsAfter(fl, headers);
      && g == fl.(keepAlive := g.keepAlive, close := g.close)
      && (g.close <==> fl.close || exists i :: 0 <= i < |headers| && Closes(headers[i]))
    decreases |headers|
  {
    if headers != [] {
      FlagsAfterIs(Noted(fl, headers[0].name, headers[0].value), headers[1..]);
      assert forall i | 0 < i < |headers| :: headers[i] == headers[1..][i - 1];
      hide Means, LowerCase, IsName, IsValue, FlagsAfter;
    }
  }

  lemma ReadHeaderLine(f: Fields, tr: Trace, h: Header, rest: string, at: nat)
    returns (g: Fields)
    requires f.state.HeaderFieldStart? && Plain(h)
    requires Room(f, |Line(h.name, h.value)| + 1) && rest != "" && !IsBlank(rest[0])
    ensures g == Read(f, |Line(h.name, h.value)|).(headerState := g.headerState, index := g.index,
                                                   flags := Noted(f.flags, h.name, h.value))
    ensures Stream(f, tr, Line(h.name, h.value) + rest, at) ==
      Stream(g, LineTrace(tr, h.name, h.value), rest, at + |Line(h.name, h.value)|)
  {
    hide Stream, IsName, IsValue, LowerCase, Means, LineTrace, Line;
    if IsConnection(h.name) || IsCoding(h.name) {
      g := ReadFlagLine(f, tr, h.name, h.value, rest, at);
    } else {
      g := ReadPlainLine(f, tr, h.name, h.value, rest, at);
    }
  }

  lemma {:induction false} ReadLines(f: Fields, tr: Trace, headers: seq<Header>, rest: string, at: nat)
    returns (g: Fields)
    requires f.state.HeaderFieldStart? && !EndsWith(tr, Field)
    requires forall i | 0 <= i < |headers| :: Plain(headers[i])
    requires rest != "" && !IsBlank(rest[0]) && Room(f, |Lines(headers)| + 1)
    ensures g == Read(f, |Lines(headers)|).(headerState := g.headerState, index := g.index,
                                            flags := FlagsAfter(f.flags, headers))
    ensures Stream(f, tr, Lines(headers) + rest, at) ==
      Stream(g, tr + HeaderTrace(headers), rest, at + |Lines(headers)|)
    ensures !EndsWith(tr + HeaderTrace(headers), Field)
    decreases |headers|
  {
    hide Stream, Plain, Noted, EndsWith, Lines, HeaderTrace, Line, LineTrace, IsBlank;
    if headers == [] {
      g := f;
      assert Lines([]) == "" && HeaderTrace([]) == [] by { NoLines(); }
      assert Lines(headers) + rest == rest && tr + HeaderTrace(headers) == tr;
    } else {
      var h, others := headers[0], headers[1..];
      assert headers == [h] + others;
      MoreLines(others, rest);
      LinesCons(h, others, tr, rest);
      var f1 := ReadHeaderLine(f, tr, h, Lines(others) + rest, at);
      LineIsNew(tr, h);
      g := ReadLines(f1, LineTrace(tr, h.name, h.value), others, rest, at + |Line(h.name, h.value)|);
    }
  }

  lemma NoLines()
    ensures Lines([]) == "" && HeaderTrace([]) == []
  {
  }

  /** Lines are followed by something that is not a blank. */
  lemma {:induction false} MoreLines(headers: seq<Header>, rest: string)
    requires forall i | 0 <= i < |headers| :: Plain(headers[i])
    requires rest != "" && !IsBlank(rest[0])
    ensures var w := Lines(headers) + rest; w != "" && !IsBlank(w[0])
  {
  }

  lemma LengthIsName()
    ensures IsName(LENGTH_NAME) && LowerCase(LENGTH_NAME) == CONTENT_LENGTH
  {
    assert LowerCase(LENGTH_NAME) == CONTENT_LENGTH;
  }

  lemma CodingIsName()
    ensures IsName(CODING_NAME) && LowerCase(CODING_NAME) == TRANSFER_ENCODING
  {
    assert LowerCase(CODING_NAME) == TRANSFER_ENCODING;
  }

  lemma AnnouncedNames()
    ensures IsName(LENGTH_NAME) && LowerCase(LENGTH_NAME) == CONTENT_LENGTH
    ensures IsName(CODING_NAME) && LowerCase(CODING_NAME) == TRANSFER_ENCODING
  {
    hide IsName, LowerCase;
    LengthIsName();
    CodingIsName();
  }

  lemma ChunkedIsMeant()
    ensures IsValue(CHUNKED) && Means(CHUNKED, CHUNKED) && !IsConnection(CODING_NAME)
  {
    AnnouncedNames();
    hide LowerCase;
  }

  /** The fields once the body has been announced. */
  predicate Announces(f: Fields, g: Fields, p: Payload) {
    match p
    case NoBody => g == f
    case Sized(bytes) =>
      |bytes| < ULLONG_MAX && g ==
          f.(nread := g.nread, headerState := g.headerState, index := g.index, contentLength := |bytes|)
    case Chunks(_) =>
      g == f.(nread := g.nread, headerState := g.headerState, index := g.index, flags := f.flags.(chunked := true))
  }

  lemma ReadAnnounced(f: Fields, tr: Trace, p: Payload, rest: string, at: nat)
    returns (g: Fields)
    requires f.state.HeaderFieldStart? && !EndsWith(tr, Field)
    requires p.Sized? ==> |p.bytes| <= MaxLength(10)
    requires rest != "" && !IsBlank(rest[0]) && Room(f, |Lines(Announced(p))| + 1)
    ensures Announces(f, g, p) && g.nread == f.nread + |Lines(Announced(p))|
    ensures Stream(f, tr, Lines(Announced(p)) + rest, at) ==
      Stream(g, tr + HeaderTrace(Announced(p)), rest, at + |Lines(Announced(p))|)
  {
    hide Stream, IsName, LowerCase, Print, AllDigits, Number, MaxLength, IsValue, Means;
    AnnouncedNames();
    if p.NoBody? {
      g := f;
      assert Lines([]) + rest == rest && tr + HeaderTrace([]) == tr;
    } else {
      var h := Announced(p)[0];
      LineIsNew(tr, h);
      assert Announced(p)[1..] == [] && Lines(Announced(p)) == Line(h.name, h.value) + "" == Line(h.name, h.value);
      assert HeaderTrace(Announced(p)) == HeaderTrace([h]);
      if p.Sized? {
        PrintNumber(10, |p.bytes|);
        g := ReadLengthLine(f, tr, h.name, h.value, rest, at);
      } else {
        ChunkedIsMeant();
        g := ReadFlagLine(f, tr, h.name, h.value, rest, at);
      }
    }
  }

  /** The fields at the start of the first header line. */
  function RequestLineRead(f: Fields, r: Request): Fields {
    var n := |MethodName(r.verb)| + 1;
    Read(f, n + |r.url| + 11).(state := HeaderFieldStart, verb := r.verb, index := n, flags := NO_FLAGS,
                               contentLength := ULLONG_MAX, httpMajor := 1, httpMinor := 1)
  }

  lemma RequestLineText(r: Request, rest: string)
    requires r.url != ""
    ensures var line := " HTTP/1.1\r\n" + rest;
      && RequestLine(r) + rest == MethodName(r.verb) + " " + (r.url + line)
      && r.url + line == [r.url[0]] + (r.url[1..] + line)
    ensures |RequestLine(r)| == |MethodName(r.verb)| + 1 + |r.url| + 11
  {
  }

  /** The URL of a request. */
  lemma ReadWholeUrl(f: Fields, tr: Trace, url: string, rest: string, at: nat)
    returns (g: Fields)
    requires f.state.ReqSpacesBeforeUrl? && f.verb != CONNECT && !EndsWith(tr, Url)
    requires url != "" && UrlFrom(ReqSpacesBeforeUrl, url) && Room(f, |url|)
    ensures UrlEnd(g.state) && g == Read(f, |url|).(state := g.state)
    ensures Stream(f, tr, [url[0]] + (url[1..] + rest), at) == Stream(g, tr + [Data(Url, url)], rest, at + |url|)
  {
    hide Stream, Step, ParseUrlChar, Append, Collects;
    StreamStep(f, tr, url[0], url[1..] + rest, at);
    UrlStep(f, tr, url[0], at);
    UrlStates(ReqSpacesBeforeUrl, url[0]);
    var f2 := Read(f, 1).(state := ParseUrlChar(ReqSpacesBeforeUrl, url[0]));
    AppendEnds(tr, Url, [url[0]]);
    ReadUrl(f2, Append(tr, Url, [url[0]]), url[1..], rest, at + 1);
    AppendTwice(tr, Url, [url[0]], url[1..]);
    assert [url[0]] + url[1..] == url;
    AppendOther(tr, Url, url);
    g := Read(f2, |url| - 1).(state := UrlState(f2.state, url[1..]));
  }

  lemma ReadRequestLine(f: Fields, tr: Trace, r: Request, rest: string, at: nat)
    requires f.state.StartReq? && r.verb != CONNECT && r.url != "" && UrlFrom(ReqSpacesBeforeUrl, r.url)
    requires Room(f, |MethodName(r.verb)| + 1 + |r.url| + 11)
    ensures Stream(f, tr, RequestLine(r) + rest, at) ==
        Stream(RequestLineRead(f, r), tr + [Event(MessageBegin), Data(Url, r.url)], rest, at + |RequestLine(r)|)
  {
    hide Stream, MethodName, UrlFrom, RequestLine;
    RequestLineText(r, rest);
    var n, t := |MethodName(r.verb)| + 1, tr + [Event(MessageBegin)];
    var line := " HTTP/1.1\r\n" + rest;
    ReadVerb(f, r.verb, tr, r.url + line, at);
    var g := ReadWholeUrl(Verbed(f, r.verb), t, r.url, line, at + n);
    ReadVersion(g, t + [Data(Url, r.url)], rest, at + n + |r.url|);
    assert t + [Data(Url, r.url)] == tr + [Event(MessageBegin), Data(Url, r.url)];
  }

  /** The trace of the head without the event that ends it. */
  function HeadTrace(r: Request): Trace {
    [Event(MessageBegin), Data(Url, r.url)] + HeaderTrace(AllHeaders(r))
  }

  lemma {:induction false} LinesConcat(a: seq<Header>, b: seq<Header>)
    ensures Lines(a + b) == Lines(a) + Lines(b)
    ensures HeaderTrace(a + b) == HeaderTrace(a) + HeaderTrace(b)
  {
    if a == [] {
      assert a + b == b;
    } else {
      assert (a + b)[1..] == a[1..] + b;
      LinesConcat(a[1..], b);
    }
  }

  /** What the parser knows at the blank line that ends the head of `r`. */
  predicate HeadDone(g: Fields, r: Request) {
    && g.state.HeaderFieldStart? && g.verb == r.verb && g.httpMajor == 1 && g.httpMinor == 1
    && g.flags == NO_FLAGS.(chunked := r.payload.Chunks?, keepAlive := g.flags.keepAlive, close := !KeepsAlive(r))
    && g.contentLength == (if r.payload.Sized? then |r.payload.bytes| else ULLONG_MAX)
    && (r.payload.Sized? ==> |r.payload.bytes| < ULLONG_MAX)
  }

  lemma {:induction false} AnnouncedFirst(p: Payload, tail: string)
    requires tail != "" && !IsBlank(tail[0])
    ensures var w := Lines(Announced(p)) + tail; w != "" && !IsBlank(w[0])
  {
  }

  lemma HeadParts(r: Request, rest: string)
    ensures Head(r) + rest ==
      RequestLine(r) + (Lines(r.headers) + (Lines(Announced(r.payload)) + ("\r\n" + rest)))
    ensures |Head(r)| == |RequestLine(r)| + |Lines(r.headers)| + |Lines(Announced(r.payload))| + 2
    ensures |RequestLine(r)| == |MethodName(r.verb)| + 1 + |r.url| + 11
    ensures HeaderTrace(AllHeaders(r)) == HeaderTrace(r.headers) + HeaderTrace(Announced(r.payload))
  {
    hide MethodName;
    LinesConcat(r.headers, Announced(r.payload));
    hide Lines;
  }

  lemma AnnouncedHead(r: Request, f: Fields, g: Fields, h: Fields)
    requires forall i | 0 <= i < |r.headers| :: Plain(r.headers[i])
    requires g == RequestLineRead(f, r).(nread := g.nread, headerState := g.headerState, index := g.index,
                                         flags := FlagsAfter(NO_FLAGS, r.headers))
    requires Announces(g, h, r.payload)
    ensures HeadDone(h, r)
  {
    FlagsAfterIs(NO_FLAGS, r.headers);
    hide Plain, Closes, FlagsAfter, MethodName;
  }

  lemma ReadHead(f: Fields, tr: Trace, r: Request, rest: string, at: nat)
    returns (g: Fields)
    requires f.state.StartReq? && Printable(r) && Room(f, |Head(r)|)
    ensures HeadDone(g, r) && g.nread + 2 == f.nread + |Head(r)|
    ensures Stream(f, tr, Head(r) + rest, at) == Stream(g, tr + HeadTrace(r), "\r\n" + rest, at + |Head(r)| - 2)
  {
    hide Stream, MethodName, UrlFrom, Plain, MaxLength, Lines, Head, RequestLine, HeadDone, Announces, EndsWith;
    HeadParts(r, rest);
    var n, l1, l2 := |RequestLine(r)|, Lines(r.headers), Lines(Announced(r.payload));
    var tail := "\r\n" + rest;
    AnnouncedFirst(r.payload, tail);
    RequestLineIs(f, tr, r, l1 + (l2 + tail), at);
    var f1, t1 := RequestLineRead(f, r), tr + [Event(MessageBegin), Data(Url, r.url)];
    assert f1.flags == NO_FLAGS;
    hide RequestLineRead;
    var f2 := ReadLines(f1, t1, r.headers, l2 + tail, at + n);
    var t2 := t1 + HeaderTrace(r.headers);
    g := ReadAnnounced(f2, t2, r.payload, tail, at + n + |l1|);
    assert t2 + HeaderTrace(Announced(r.payload)) == tr + HeadTrace(r);
    AnnouncedHead(r, f, f2, g);
  }

  lemma RequestLineIs(f: Fields, tr: Trace, r: Request, rest: string, at: nat)
    requires f.state.StartReq? && Printable(r) && Room(f, |RequestLine(r)|)
    ensures var g, t := RequestLineRead(f, r), tr + [Event(MessageBegin), Data(Url, r.url)];
      && Stream(f, tr, RequestLine(r) + rest, at) == Stream(g, t, rest, at + |RequestLine(r)|)
      && g.state.HeaderFieldStart? && g.nread == f.nread + |RequestLine(r)| && !EndsWith(t, Field)
  {
    hide Stream, MethodName, UrlFrom;
    ReadRequestLine(f, tr, r, rest, at);
  }

  /** The trace from the end of the head on. */
  function BodyReported(verb: Method, p: Payload): Trace {
    [Event(HeadersComplete)] + (if Content(p) == "" then [] else [Data(Body, Content(p))])
        + [Event(MessageComplete(verb))]
  }

  /** After a message; `left` is what it still counts against the header budget of the next one, if the
      connection stays open. */
  predicate NextMessage(f: Fields, alive: bool, left: nat) {
    f.state == (if alive then StartReq else Dead) && f.nread == left
  }

  function Left(p: Payload): nat { if p.Chunks? then 2 else 0 }

  /** What the blank line decides, by payload. */
  lemma HeadReadIs(f: Fields, r: Request)
    requires HeadDone(f, r) && r.verb != CONNECT
    ensures var (h, events) := HeadRead(f);
      && f.state.HeaderFieldStart? && !f.flags.trailing && !f.flags.upgrade && f.verb != CONNECT
      && h.nread == 0 && h.verb == r.verb && NewMessage(h) == (if KeepsAlive(r) then StartReq else Dead)
      && match r.payload
         case NoBody => h.state == NewMessage(h) && events == [Event(HeadersComplete), Event(MessageComplete(r.verb))]
         case Sized(bytes) =>
           if bytes == "" then
             h.state == NewMessage(h) && events == [Event(HeadersComplete), Event(MessageComplete(r.verb))]
           else
             && BodyReady(h) && h.state == BodyIdentity && h.contentLength == |bytes|
             && events == [Event(HeadersComplete)]
         case Chunks(_) => h.state == ChunkSizeStart && h.flags.chunked && events == [Event(HeadersComplete)]
  {
  }

  lemma ReadSizedPayload(h: Fields, tr: Trace, bytes: string, alive: bool, rest: string, at: nat)
    returns (g: Fields)
    requires BodyReady(h) && h.state.BodyIdentity? && h.contentLength == |bytes| && bytes != ""
    requires h.nread == 0 && NewMessage(h) == (if alive then StartReq else Dead)
    ensures NextMessage(g, alive, 0)
    ensures Stream(h, tr + [Event(HeadersComplete)], bytes + rest, at) ==
      Stream(g, tr + BodyReported(h.verb, Sized(bytes)), rest, at + |bytes|)
  {
    hide Stream, BodyReady, NewMessage;
    var t := tr + [Event(HeadersComplete)];
    g := h.(contentLength := 0, state := NewMessage(h));
    ReadSized(h, t, bytes, rest, at);
    AppendOther(t, Body, bytes);
    assert t + [Data(Body, bytes)] + [Event(MessageComplete(h.verb))] == tr + BodyReported(h.verb, Sized(bytes));
  }

  lemma ReadChunkedPayload(h: Fields, tr: Trace, pieces: seq<string>, alive: bool, rest: string, at: nat)
    returns (g: Fields)
    requires h.state.ChunkSizeStart? && h.flags.chunked && h.nread == 0
    requires NewMessage(h) == (if alive then StartReq else Dead)
    requires forall i | 0 <= i < |pieces| :: 0 < |pieces[i]| <= MaxLength(16)
    ensures NextMessage(g, alive, 2)
    ensures Stream(h, tr + [Event(HeadersComplete)], ChunkText(pieces) + rest, at) ==
      Stream(g, tr + BodyReported(h.verb, Chunks(pieces)), rest, at + |ChunkText(pieces)|)
  {
    hide Stream, NewMessage, MaxLength, ChunkText, Concat;
    var t := tr + [Event(HeadersComplete)];
    g := h.(contentLength := 0, nread := 2, flags := h.flags.(trailing := true), state := NewMessage(h));
    ReadChunks(h, t, pieces, rest, at);
    AppendOther(t, Body, Concat(pieces));
    assert WithBody(t, Concat(pieces)) + [Event(MessageComplete(h.verb))] == tr + BodyReported(h.verb, Chunks(pieces));
  }

  lemma NoContent(verb: Method, p: Payload)
    requires Content(p) == ""
    ensures BodyReported(verb, p) == [Event(HeadersComplete), Event(MessageComplete(verb))]
  {
  }

  /** The blank line and the body. */
  lemma ReadPayload(f: Fields, tr: Trace, r: Request, rest: string, at: nat)
    returns (g: Fields)
    requires HeadDone(f, r) && Printable(r) && Room(f, 2)
    ensures NextMessage(g, KeepsAlive(r), Left(r.payload))
    ensures Stream(f, tr, "\r\n" + (BodyText(r.payload) + rest), at) ==
      Stream(g, tr + BodyReported(r.verb, r.payload), rest, at + 2 + |BodyText(r.payload)|)
  {
    hide Stream, MaxLength, UrlFrom, Plain, HeadDone, HeadRead, BodyReady, NewMessage, ChunkText, Concat,
        BodyReported, KeepsAlive;
    HeadReadIs(f, r);
    ReadBlankLine(f, tr, BodyText(r.payload) + rest, at);
    var h := HeadRead(f).0;
    if Content(r.payload) == "" && !r.payload.Chunks? {
      g := h;
      NoContent(r.verb, r.payload);
      assert BodyText(r.payload) + rest == rest;
    } else if r.payload.Sized? {
      g := ReadSizedPayload(h, tr, r.payload.bytes, KeepsAlive(r), rest, at + 2);
    } else {
      g := ReadChunkedPayload(h, tr, r.payload.pieces, KeepsAlive(r), rest, at + 2);
    }
  }

  lemma WireParts(tr: Trace, r: Request, rest: string)
    ensures Wire(r) + rest == Head(r) + (BodyText(r.payload) + rest) && |Wire(r)| == |Head(r)| + |BodyText(r.payload)|
    ensures tr + HeadTrace(r) + BodyReported(r.verb, r.payload) == tr + Reported(r)
  {
    hide Head, BodyText, HeaderTrace, AllHeaders, Content;
  }

  /** Parsing undoes printing: one request. */
  lemma ReadRequest(f: Fields, tr: Trace, r: Request, rest: string, at: nat)
    returns (g: Fields)
    requires f.state.StartReq? && Printable(r) && Room(f, |Head(r)|)
    ensures NextMessage(g, KeepsAlive(r), Left(r.payload))
    ensures Stream(f, tr, Wire(r) + rest, at) == Stream(g, tr + Reported(r), rest, at + |Wire(r)|)
  {
    HeadParts(r, "");
    WireParts(tr, r, rest);
    hide Stream, Printable, Wire, Head, BodyText, HeadDone, HeadTrace, BodyReported, Reported, NextMessage, KeepsAlive;
    var h := ReadHead(f, tr, r, BodyText(r.payload) + rest, at);
    g := ReadPayload(h, tr + HeadTrace(r), r, rest, at + |Head(r)| - 2);
  }

  function Wires(rs: seq<Request>): string { if rs == [] then "" else Wire(rs[0]) + Wires(rs[1..]) }

  function AllReported(rs: seq<Request>): Trace { if rs == [] then [] else Reported(rs[0]) + AllReported(rs[1..]) }

  /** Each head fits the budget that the message before it leaves. */
  predicate HeadsFit(rs: seq<Request>, left: nat) {
    rs == [] ||
    (left + |Head(rs[0])| <= MAX_HEADER_SIZE && HeadsFit(rs[1..], Left(rs[0].payload)))
  }

  /** The requests up to the first that closes the connection. */
  function Served(rs: seq<Request>): seq<Request> {
    if rs == [] then [] else if KeepsAlive(rs[0]) then [rs[0]] + Served(rs[1..]) else [rs[0]]
  }

  function StateAfter(rs: seq<Request>): State {
    if rs == [] || KeepsAlive(rs[|rs| - 1]) then StartReq else Dead
  }

  /** All requests are served if and only if all but the last keep the connection open. */
  lemma {:induction false} ServedExact(rs: seq<Request>)
    ensures Served(rs) == rs <==> forall i | 0 <= i < |rs| - 1 :: KeepsAlive(rs[i])
    decreases |rs|
  {
    hide KeepsAlive;
    if rs != [] {
      ServedExact(rs[1..]);
      assert [rs[0]] + rs[1..] == rs && forall i | 0 < i < |rs| :: rs[i] == rs[1..][i - 1];
      if KeepsAlive(rs[0]) && Served(rs) == rs { assert Served(rs)[1..] == Served(rs[1..]); }
    }
  }

  lemma WireFirst(r: Request, rest: string)
    ensures Wire(r) + rest != "" && !IsEol((Wire(r) + rest)[0])
  {
    assert (Wire(r) + rest)[0] == Head(r)[0] == RequestLine(r)[0] == MethodName(r.verb)[0];
    NameChars(r.verb);
    hide MethodName;
  }

  /** On a closed connection a further request is refused at its first byte. */
  lemma ClosedRefuses(f: Fields, tr: Trace, r: Request, rest: string, at: nat)
    requires f.state.Dead? && f.nread <= 2
    ensures var o := Stream(f, tr, Wire(r) + rest, at);
      o.Failed? && o.f.errno == ClosedConnection && o.at == at && o.tr == tr
  {
    hide Wire, Stream, Step, IsEol;
    var w := Wire(r) + rest;
    WireFirst(r, rest);
    assert w == [w[0]] + w[1..];
    StreamStep(f, tr, w[0], w[1..], at);
    ClosedStep(f, tr, w[0], at);
  }

  lemma AfterClosing(f: Fields, tr: Trace, more: seq<Request>, at: nat, left: nat)
    requires NextMessage(f, false, left) && left <= 2
    ensures var o := Stream(f, tr, Wires(more), at);
      if more == [] then o == Running(f, tr)
      else o.Failed? && o.f.errno == ClosedConnection && o.at == at && o.tr == tr
  {
    hide Stream, Wire;
    if more == [] {
      StreamNil(f, tr, at);
    } else {
      ClosedRefuses(f, tr, more[0], Wires(more[1..]), at);
    }
  }

  lemma ClosedStep(f: Fields, tr: Trace, ch: char, at: nat)
    requires f.state.Dead? && f.nread <= 2 && !IsEol(ch)
    ensures var o := Step(f, tr, ch, at); o.Failed? && o.f.errno == ClosedConnection && o.at == at && o.tr == tr
  {
    assert Transition(Read(f, 1), ch, 1) == Error(Read(f, 1), ClosedConnection);
    hide Transition;
  }

  /** All requests are read up to the first that closes the connection; what follows it is refused. */
  predicate ReadAs(o: Outcome, tr: Trace, rs: seq<Request>, at: nat) {
    if Served(rs) == rs then o.Running? && o.tr == tr + AllReported(rs) && o.f.state == StateAfter(rs)
    else
      && o.Failed? && o.tr == tr + AllReported(Served(rs))
      && o.f.errno == ClosedConnection && o.at == at + |Wires(Served(rs))|
  }

  lemma {:induction false} ReadRequests(f: Fields, tr: Trace, rs: seq<Request>, left: nat, at: nat)
    requires NextMessage(f, true, left) && HeadsFit(rs, left) && forall i | 0 <= i < |rs| :: Printable(rs[i])
    ensures ReadAs(Stream(f, tr, Wires(rs), at), tr, rs, at)
    decreases |rs|
  {
    hide Stream, Printable, Head, Wire, Reported, KeepsAlive, ReadAs;
    if rs == [] {
      StreamNil(f, tr, at);
      ReadNone(f, tr, at);
    } else {
      var r, more, t := rs[0], rs[1..], tr + Reported(rs[0]);
      assert [r] + more == rs && Wires(rs) == Wire(r) + Wires(more);
      var h := ReadRequest(f, tr, r, Wires(more), at);
      if KeepsAlive(r) {
        ReadRequests(h, t, more, Left(r.payload), at + |Wire(r)|);
        ReadMore(Stream(h, t, Wires(more), at + |Wire(r)|), tr, r, more, at);
      } else {
        ReadClosing(h, tr, r, more, at, Left(r.payload));
      }
    }
  }

  lemma ReadNone(f: Fields, tr: Trace, at: nat)
    requires f.state.StartReq?
    ensures ReadAs(Running(f, tr), tr, [], at)
  {
    assert tr + [] == tr;
  }

  lemma ReadMore(o: Outcome, tr: Trace, r: Request, more: seq<Request>, at: nat)
    requires KeepsAlive(r) && ReadAs(o, tr + Reported(r), more, at + |Wire(r)|)
    ensures ReadAs(o, tr, [r] + more, at)
  {
    hide KeepsAlive, Served, StateAfter, Wires, Wire, AllReported, Reported;
    ServedMore(r, more);
    assert tr + Reported(r) + AllReported(Served(more)) == tr + (Reported(r) + AllReported(Served(more)));
  }

  lemma ReadClosing(f: Fields, tr: Trace, r: Request, more: seq<Request>, at: nat, left: nat)
    requires !KeepsAlive(r) && NextMessage(f, false, left) && left <= 2
    ensures ReadAs(Stream(f, tr + Reported(r), Wires(more), at + |Wire(r)|), tr, [r] + more, at)
  {
    hide Stream, KeepsAlive, Served, Wires, Wire, AllReported, Reported;
    ServedOne(r, more);
    AfterClosing(f, tr + Reported(r), more, at + |Wire(r)|, left);
  }

  lemma ServedMore(r: Request, more: seq<Request>)
    requires KeepsAlive(r)
    ensures Served([r] + more) == [r] + Served(more)
    ensures Served([r] + more) == [r] + more <==> Served(more) == more
    ensures StateAfter([r] + more) == StateAfter(more)
    ensures Wires(Served([r] + more)) == Wire(r) + Wires(Served(more))
    ensures AllReported(Served([r] + more)) == Reported(r) + AllReported(Served(more))
  {
    hide KeepsAlive, Wire, Reported;
    var rs := [r] + more;
    assert rs[1..] == more && ([r] + Served(more))[1..] == Served(more);
  }

  lemma ServedOne(r: Request, more: seq<Request>)
    requires !KeepsAlive(r)
    ensures Served([r] + more) == [r] && (Served([r] + more) == [r] + more <==> more == [])
    ensures StateAfter([r]) == Dead && Wires([r]) == Wire(r) && AllReported([r]) == Reported(r)
  {
    hide KeepsAlive, Wire, Reported;
    assert [r] + more == [r] ==> |more| == 0;
    assert Wire(r) + "" == Wire(r) && Reported(r) + [] == Reported(r);
  }

  /** Parsing undoes printing: any number of requests on one connection give back exactly what was
      printed, up to the first that asks for the connection to be closed. If all but the last keep it
      open the parser takes all of them, and is ready for another unless the last one closed;
      otherwise it refuses the first byte of the request behind the one that closed. */
  lemma ParserUndoesPrinter(rs: seq<Request>)
    requires HeadsFit(rs, 0) && forall i | 0 <= i < |rs| :: Printable(rs[i])
    ensures var o, open := Stream(INITIAL, [], Wires(rs), 0), forall i | 0 <= i < |rs| - 1 :: KeepsAlive(rs[i]);
      && (open ==> o.Running? && o.tr == AllReported(rs) && o.f.state == StateAfter(rs))
      && (!open ==>
            && o.Failed? && o.tr == AllReported(Served(rs))
            && o.f.errno == ClosedConnection && o.at == |Wires(Served(rs))|)
  {
    hide Stream, Printable, HeadsFit, Wires, AllReported, StateAfter, KeepsAlive, Served;
    ReadRequests(INITIAL, [], rs, 0, 0);
    ServedExact(rs);
    assert [] + AllReported(rs) == AllReported(rs) && [] + AllReported(Served(rs)) == AllReported(Served(rs));
  }
}
