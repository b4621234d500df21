/** The request side of http_parser: the fields of the parser, one pass through its
    big switch, and the chain of re-executions a single byte can cause. */
module HttpMachine {
  import opened Wrappers
  import opened HttpChars

  const ULLONG_MAX: nat := 0xFFFF_FFFF_FFFF_FFFF
  const MAX_HEADER_SIZE: nat := 80 * 1024

  datatype State =
    | Dead | StartReq | ReqMethod | ReqSpacesBeforeUrl
    | ReqSchema | ReqSchemaSlash | ReqSchemaSlashSlash | ReqServerStart | ReqServer | ReqServerWithAt
    | ReqPath | ReqQueryStringStart | ReqQueryString | ReqFragmentStart | ReqFragment
    | ReqHttpStart | ReqHttpH | ReqHttpHT | ReqHttpHTT | ReqHttpHTTP
    | ReqFirstHttpMajor | ReqHttpMajor | ReqFirstHttpMinor | ReqHttpMinor | ReqLineAlmostDone
    | HeaderFieldStart | HeaderField
    | HeaderValueDiscardWs | HeaderValueDiscardWsAlmostDone | HeaderValueDiscardLws
    | HeaderValueStart | HeaderValue | HeaderValueLws | HeaderAlmostDone
    | ChunkSizeStart | ChunkSize | ChunkParameters | ChunkSizeAlmostDone
    | HeadersAlmostDone | HeadersDone
    | ChunkData | ChunkDataAlmostDone | ChunkDataDone | BodyIdentity | MessageDone

  datatype HeaderState =
    | General | C | CO | CON
    | MatchingConnection | MatchingProxyConnection | MatchingContentLength
    | MatchingTransferEncoding | MatchingUpgrade
    | Connection | ContentLength | TransferEncoding | Upgrade
    | MatchingChunked | MatchingKeepAlive | MatchingClose
    | Chunked | KeepAlive | Close

  datatype Method =
    | DELETE | GET | HEAD | POST | PUT | CONNECT | OPTIONS | TRACE
    | COPY | LOCK | MKCOL | MOVE | PROPFIND | PROPPATCH | SEARCH | UNLOCK
    | REPORT | MKACTIVITY | CHECKOUT | MERGE
    | MSEARCH | NOTIFY | SUBSCRIBE | UNSUBSCRIBE
    | PATCH | PURGE | MKCALENDAR

  datatype Errno =
    | OK | InvalidEofState | HeaderOverflow | ClosedConnection | InvalidVersion | InvalidMethod
    | InvalidUrl | LfExpected | InvalidHeaderToken | InvalidContentLength | InvalidChunkSize
    | InvalidConstant | Strict

  /** The flag bits. F_SKIPBODY is missing: only a non-zero on_headers_complete sets it. */
  datatype Flags = Flags(chunked: bool, keepAlive: bool, close: bool, trailing: bool, upgrade: bool)

  const NO_FLAGS := Flags(false, false, false, false, false)

  /** struct http_parser, for type HTTP_REQUEST. */
  datatype Fields = Fields(
    state: State, headerState: HeaderState, index: nat, nread: nat, contentLength: nat,
    httpMajor: nat, httpMinor: nat, verb: Method, flags: Flags, errno: Errno, upgrade: bool)

  /** http_parser_init: everything zero, ready for a request. */
  const INITIAL := Fields(StartReq, General, 0, 0, 0, 0, 0, DELETE, NO_FLAGS, OK, false)

  function MethodName(m: Method): (name: string)
    ensures 3 <= |name| <= 11
  {
    match m
    case DELETE => "DELETE" case GET => "GET" case HEAD => "HEAD" case POST => "POST" case PUT => "PUT"
    case CONNECT => "CONNECT" case OPTIONS => "OPTIONS" case TRACE => "TRACE"
    case COPY => "COPY" case LOCK => "LOCK" case MKCOL => "MKCOL" case MOVE => "MOVE"
    case PROPFIND => "PROPFIND" case PROPPATCH => "PROPPATCH" case SEARCH => "SEARCH" case UNLOCK => "UNLOCK"
    case REPORT => "REPORT" case MKACTIVITY => "MKACTIVITY" case CHECKOUT => "CHECKOUT" case MERGE => "MERGE"
    case MSEARCH => "M-SEARCH" case NOTIFY => "NOTIFY" case SUBSCRIBE => "SUBSCRIBE"
    case UNSUBSCRIBE => "UNSUBSCRIBE"
    case PATCH => "PATCH" case PURGE => "PURGE" case MKCALENDAR => "MKCALENDAR"
  }

  /** The states whose bytes count against the header size limit. */
  predicate ParsingHeader(s: State) {
    !(s.ChunkData? || s.ChunkDataAlmostDone? || s.ChunkDataDone? || s.BodyIdentity? || s.MessageDone?)
  }

  predicate ShouldKeepAlive(f: Fields) {
    if f.httpMajor > 0 && f.httpMinor > 0 then !f.flags.close else f.flags.keepAlive
  }

  function NewMessage(f: Fields): State {
    if ShouldKeepAlive(f) then StartReq else Dead
  }

  /* ---- callbacks ---- */

  datatype Kind = Url | Field | Value | Body

  /** The notifications; the one at the end of a message can read the method off the parser. */
  datatype Note = MessageBegin | HeadersComplete | MessageComplete(verb: Method)

  /** What one pass does to the marks and callbacks. `Deliver` runs the data callback, if its
      mark is set, on the bytes from the mark up to `extra` past the current one. */
  datatype Op = Mark(kind: Kind) | Deliver(kind: Kind, extra: nat) | Notify(note: Note)

  /** How a pass ends: take the next byte, run the switch again on this one, report an error,
      return early after an upgrade, or (Abort) break one of the parser's assertions. */
  datatype Control = Break | Again | Fail | Exit | Abort

  /** One pass: the new fields, the operations in order, and how far the cursor is moved
      on top of the usual single byte. */
  datatype Effect = Effect(next: Fields, ops: seq<Op>, advance: nat, control: Control)

  function To(f: Fields, s: State): Effect { Effect(f.(state := s), [], 0, Break) }

  function Stay(f: Fields): Effect { Effect(f, [], 0, Break) }

  function Error(f: Fields, e: Errno): Effect { Effect(f.(errno := e), [], 0, Fail) }

  function Assertion(f: Fields): Effect { Effect(f, [], 0, Abort) }

  /** STRICT_CHECK(ch != wanted), then move to `s`. */
  function Expect(f: Fields, ch: char, wanted: char, s: State): Effect {
    if ch != wanted then Error(f, Strict) else To(f, s)
  }

  /** The 8-bit `index` field. */
  function Inc8(i: nat): nat { (i + 1) % 256 }

  /* ---- URL bytes ---- */

  /** parse_url_char; Dead stands for a rejected byte. */
  function ParseUrlChar(s: State, ch: char): State {
    if ch == ' ' || IsEol(ch) || ch == '\t' || ch == '\U{0C}' then Dead
    else
      match s
      case ReqSpacesBeforeUrl =>
        if ch == '/' || ch == '*' then ReqPath else if IsAlpha(ch) then ReqSchema else Dead
      case ReqSchema =>
        if IsAlpha(ch) then s else if ch == ':' then ReqSchemaSlash else Dead
      case ReqSchemaSlash => if ch == '/' then ReqSchemaSlashSlash else Dead
      case ReqSchemaSlashSlash => if ch == '/' then ReqServerStart else Dead
      case ReqServerWithAt => if ch == '@' then Dead else ParseServerChar(ch)
      case ReqServerStart => ParseServerChar(ch)
      case ReqServer => ParseServerChar(ch)
      case ReqPath =>
        if IsUrlChar(ch) then s
        else if ch == '?' then ReqQueryStringStart else if ch == '#' then ReqFragmentStart else Dead
      case ReqQueryStringStart => ParseQueryChar(ch)
      case ReqQueryString => ParseQueryChar(ch)
      case ReqFragmentStart =>
        if IsUrlChar(ch) || ch == '?' then ReqFragment else if ch == '#' then s else Dead
      case ReqFragment => if IsUrlChar(ch) || ch == '?' || ch == '#' then s else Dead
      case _ => Dead
  }

  function ParseServerChar(ch: char): State {
    if ch == '/' then ReqPath
    else if ch == '?' then ReqQueryStringStart
    else if ch == '@' then ReqServerWithAt
    else if IsUserinfoChar(ch) || ch == '[' || ch == ']' then ReqServer
    else Dead
  }

  function ParseQueryChar(ch: char): State {
    if IsUrlChar(ch) || ch == '?' then ReqQueryString else if ch == '#' then ReqFragmentStart else Dead
  }

  function UrlByte(f: Fields, from: State, ch: char, ops: seq<Op>): Effect {
    var s := ParseUrlChar(from, ch);
    if s.Dead? then Effect(f.(state := Dead, errno := InvalidUrl), ops, 0, Fail)
    else Effect(f.(state := s), ops, 0, Break)
  }

  /* ---- the method name ---- */

  function FirstMethod(ch: char): Option<Method> {
    match ch
    case 'C' => Some(CONNECT) case 'D' => Some(DELETE) case 'G' => Some(GET) case 'H' => Some(HEAD)
    case 'L' => Some(LOCK) case 'M' => Some(MKCOL) case 'N' => Some(NOTIFY) case 'O' => Some(OPTIONS)
    case 'P' => Some(POST) case 'R' => Some(REPORT) case 'S' => Some(SUBSCRIBE) case 'T' => Some(TRACE)
    case 'U' => Some(UNLOCK)
    case _ => None
  }

  /** The method switched to when `ch` is not the next character of the current guess. */
  function OtherMethod(m: Method, index: nat, ch: char): Option<Method> {
    if m == CONNECT then
      if index == 1 && ch == 'H' then Some(CHECKOUT)
      else if index == 2 && ch == 'P' then Some(COPY) else None
    else if m == MKCOL then
      if index == 1 && ch == 'O' then Some(MOVE)
      else if index == 1 && ch == 'E' then Some(MERGE)
      else if index == 1 && ch == '-' then Some(MSEARCH)
      else if index == 2 && ch == 'A' then Some(MKACTIVITY)
      else if index == 3 && ch == 'A' then Some(MKCALENDAR) else None
    else if m == SUBSCRIBE then
      if index == 1 && ch == 'E' then Some(SEARCH) else None
    else if index == 1 && m == POST then
      if ch == 'R' then Some(PROPFIND)
      else if ch == 'U' then Some(PUT)
      else if ch == 'A' then Some(PATCH) else None
    else if index == 2 then
      if m == PUT && ch == 'R' then Some(PURGE)
      else if m == UNLOCK && ch == 'S' then Some(UNSUBSCRIBE) else None
    else if index == 4 && m == PROPFIND && ch == 'P' then Some(PROPPATCH)
    else None
  }

  function MethodByte(f: Fields, ch: char): Effect {
    var name := MethodName(f.verb);
    var g := f.(index := Inc8(f.index));
    if ch == '\0' then Error(f, InvalidMethod)
    else if f.index > |name| then Assertion(f)
    else if ch == ' ' && f.index == |name| then To(g, ReqSpacesBeforeUrl)
    else if f.index < |name| && ch == name[f.index] then Stay(g)
    else
      match OtherMethod(f.verb, f.index, ch)
      case None => Error(f, InvalidMethod)
      case Some(m) => Stay(g.(verb := m))
  }

  /* ---- header names and values ---- */

  const CONNECTION := "connection"
  const PROXY_CONNECTION := "proxy-connection"
  const CONTENT_LENGTH := "content-length"
  const TRANSFER_ENCODING := "transfer-encoding"
  const UPGRADE := "upgrade"
  const CHUNKED := "chunked"
  const KEEP_ALIVE := "keep-alive"
  const CLOSE := "close"

  /** One more character against `name`: give up, go on, or reach its last character. */
  function MatchByte(f: Fields, name: string, c: char, found: HeaderState): (g: Fields)
    ensures g == f.(index := g.index, headerState := g.headerState)
  {
    var i := Inc8(f.index);
    var g := f.(index := i);
    if i >= |name| || c != name[i] then g.(headerState := General)
    else if i == |name| - 1 then g.(headerState := found)
    else g
  }

  function FirstHeaderState(c: char): HeaderState {
    match c
    case 'c' => C
    case 'p' => MatchingProxyConnection
    case 't' => MatchingTransferEncoding
    case 'u' => MatchingUpgrade
    case _ => General
  }

  /** A further token character `c` of a header name (the byte itself is `ch`). */
  function FieldByte(f: Fields, c: char, ch: char): Effect {
    var g := f.(index := Inc8(f.index));
    match f.headerState
    case General => Stay(f)
    case C => Stay(g.(headerState := if c == 'o' then CO else General))
    case CO => Stay(g.(headerState := if c == 'n' then CON else General))
    case CON => Stay(g.(headerState := if c == 'n' then MatchingConnection
                                       else if c == 't' then MatchingContentLength else General))
    case MatchingConnection => Stay(MatchByte(f, CONNECTION, c, Connection))
    case MatchingProxyConnection => Stay(MatchByte(f, PROXY_CONNECTION, c, Connection))
    case MatchingContentLength => Stay(MatchByte(f, CONTENT_LENGTH, c, ContentLength))
    case MatchingTransferEncoding => Stay(MatchByte(f, TRANSFER_ENCODING, c, TransferEncoding))
    case MatchingUpgrade => Stay(MatchByte(f, UPGRADE, c, Upgrade))
    case Connection => Stay(if ch != ' ' then f.(headerState := General) else f)
    case ContentLength => Stay(if ch != ' ' then f.(headerState := General) else f)
    case TransferEncoding => Stay(if ch != ' ' then f.(headerState := General) else f)
    case Upgrade => Stay(if ch != ' ' then f.(headerState := General) else f)
    case _ => Assertion(f)
  }

  /** The first byte of a header value, by what the name was recognised as. */
  function ValueStart(f: Fields, ch: char): Effect {
    var g := f.(state := HeaderValue, index := 0);
    var c := Lower(ch);
    var ops := [Mark(Value)];
    match f.headerState
    case Upgrade => Effect(g.(flags := f.flags.(upgrade := true), headerState := General), ops, 0, Break)
    case TransferEncoding =>
      Effect(g.(headerState := if c == 'c' then MatchingChunked else General), ops, 0, Break)
    case ContentLength =>
      if !IsNum(ch) then Effect(g.(errno := InvalidContentLength), ops, 0, Fail)
      else Effect(g.(contentLength := Digit(ch)), ops, 0, Break)
    case Connection =>
      Effect(g.(headerState := if c == 'k' then MatchingKeepAlive
                               else if c == 'c' then MatchingClose else General), ops, 0, Break)
    case _ => Effect(g.(headerState := General), ops, 0, Break)
  }

  /** A further byte of a header value; not CR, not LF. */
  function ValueByte(f: Fields, ch: char): Effect {
    var c := Lower(ch);
    match f.headerState
    case General => Stay(f)
    case Connection => Assertion(f)
    case TransferEncoding => Assertion(f)
    case ContentLength =>
      if ch == ' ' then Stay(f)
      else if !IsNum(ch) || (ULLONG_MAX - 10) / 10 < f.contentLength then Error(f, InvalidContentLength)
      else Stay(f.(contentLength := (f.contentLength * 10 + Digit(ch)) % (ULLONG_MAX + 1)))
    case MatchingChunked => Stay(MatchByte(f, CHUNKED, c, Chunked))
    case MatchingKeepAlive => Stay(MatchByte(f, KEEP_ALIVE, c, KeepAlive))
    case MatchingClose => Stay(MatchByte(f, CLOSE, c, Close))
    case Chunked => Stay(if ch != ' ' then f.(headerState := General) else f)
    case KeepAlive => Stay(if ch != ' ' then f.(headerState := General) else f)
    case Close => Stay(if ch != ' ' then f.(headerState := General) else f)
    case _ => Stay(f.(headerState := General))
  }

  /** The flag a finished header line sets. */
  function HeaderFlags(f: Fields): Flags {
    match f.headerState
    case KeepAlive => f.flags.(keepAlive := true)
    case Close => f.flags.(close := true)
    case Chunked => f.flags.(chunked := true)
    case _ => f.flags
  }

  /* ---- the end of the head ---- */

  function Complete(f: Fields, control: Control): Effect {
    Effect(f.(state := NewMessage(f)), [Notify(MessageComplete(f.verb))], 0, control)
  }

  function HeadEnd(f: Fields, ch: char): Effect {
    if ch != LF then Error(f, Strict)
    else if f.flags.trailing then Complete(f, Break)
    else
      Effect(f.(state := HeadersDone, upgrade := f.flags.upgrade || f.verb == CONNECT),
             [Notify(HeadersComplete)], 0, Again)
  }

  /** Decides how the body is framed. */
  function BodyStart(f: Fields, ch: char): Effect {
    var g := f.(nread := 0);
    if ch != LF then Error(f, Strict)
    else if f.upgrade then Complete(g, Exit)
    else if f.flags.chunked then To(g, ChunkSizeStart)
    else if f.contentLength == 0 then Complete(g, Break)
    else if f.contentLength != ULLONG_MAX then To(g, BodyIdentity)
    else Complete(g, Break)
  }

  function Min(a: nat, b: nat): nat { if a < b then a else b }

  /** Takes as much of an identity body or of a chunk as the `avail` bytes at hand hold. */
  function TakeBody(f: Fields, avail: nat): Effect
    requires avail > 0
  {
    if f.contentLength == 0 || f.contentLength == ULLONG_MAX then Assertion(f)
    else
      var n := Min(f.contentLength, avail);
      var g := f.(contentLength := f.contentLength - n);
      if g.contentLength > 0 then Effect(g, [Mark(Body)], n - 1, Break)
      else if f.state.ChunkData? then Effect(g.(state := ChunkDataAlmostDone), [Mark(Body)], n - 1, Break)
      else Effect(g.(state := MessageDone), [Mark(Body), Deliver(Body, n)], n - 1, Again)
  }

  function ChunkSizeByte(f: Fields, ch: char): Effect {
    if ch == CR then To(f, ChunkSizeAlmostDone)
    else if Unhex(ch) == -1 then
      if ch == ';' || ch == ' ' then To(f, ChunkParameters) else Error(f, InvalidChunkSize)
    else if (ULLONG_MAX - 16) / 16 < f.contentLength then Error(f, InvalidContentLength)
    else Stay(f.(contentLength := (f.contentLength * 16 + Unhex(ch)) % (ULLONG_MAX + 1)))
  }

  /* ---- the switch ---- */

  /** A version number state: `sep` ends it, a digit extends it. */
  function VersionDigits(n: nat, ch: char): nat
    requires IsNum(ch)
  {
    n * 10 + Digit(ch)
  }

  function UrlOrEnd(f: Fields, ch: char): Effect {
    var g := f.(httpMajor := 0, httpMinor := 9);
    if ch == ' ' then To(f, ReqHttpStart).(ops := [Deliver(Url, 0)])
    else if ch == CR then To(g, ReqLineAlmostDone).(ops := [Deliver(Url, 0)])
    else if ch == LF then To(g, HeaderFieldStart).(ops := [Deliver(Url, 0)])
    else UrlByte(f, f.state, ch, [])
  }

  datatype Stage = RequestStage | HeaderStage | BodyStage

  function StageOf(s: State): Stage {
    match s
    case HeaderFieldStart => HeaderStage case HeaderField => HeaderStage
    case HeaderValueDiscardWs => HeaderStage case HeaderValueDiscardWsAlmostDone => HeaderStage
    case HeaderValueDiscardLws => HeaderStage case HeaderValueStart => HeaderStage
    case HeaderValue => HeaderStage case HeaderValueLws => HeaderStage case HeaderAlmostDone => HeaderStage
    case HeadersAlmostDone => HeaderStage case HeadersDone => HeaderStage
    case ChunkSizeStart => BodyStage case ChunkSize => BodyStage case ChunkParameters => BodyStage
    case ChunkSizeAlmostDone => BodyStage case ChunkData => BodyStage
    case ChunkDataAlmostDone => BodyStage case ChunkDataDone => BodyStage
    case BodyIdentity => BodyStage case MessageDone => BodyStage
    case _ => RequestStage
  }

  /** The switch, for the states up to the end of the request line. */
  function RequestByte(f: Fields, ch: char): Effect {
    match f.state
    case Dead => if IsEol(ch) then Stay(f) else Error(f, ClosedConnection)
    case StartReq =>
      var g := f.(flags := NO_FLAGS, contentLength := ULLONG_MAX);
      if IsEol(ch) then Stay(f)
      else if !IsAlpha(ch) then Error(g, InvalidMethod)
      else (
        match FirstMethod(ch)
        case None => Error(g.(verb := DELETE, index := 1), InvalidMethod)
        case Some(m) => Effect(g.(verb := m, index := 1, state := ReqMethod), [Notify(MessageBegin)], 0, Break))
    case ReqMethod => MethodByte(f, ch)
    case ReqSpacesBeforeUrl =>
      if ch == ' ' then Stay(f)
      else UrlByte(f, if f.verb == CONNECT then ReqServerStart else f.state, ch, [Mark(Url)])
    case ReqSchema => if ch == ' ' || IsEol(ch) then Error(f, InvalidUrl) else UrlByte(f, f.state, ch, [])
    case ReqSchemaSlash => if ch == ' ' || IsEol(ch) then Error(f, InvalidUrl) else UrlByte(f, f.state, ch, [])
    case ReqSchemaSlashSlash => if ch == ' ' || IsEol(ch) then Error(f, InvalidUrl) else UrlByte(f, f.state, ch, [])
    case ReqServerStart => if ch == ' ' || IsEol(ch) then Error(f, InvalidUrl) else UrlByte(f, f.state, ch, [])
    case ReqServer => UrlOrEnd(f, ch)
    case ReqServerWithAt => UrlOrEnd(f, ch)
    case ReqPath => UrlOrEnd(f, ch)
    case ReqQueryStringStart => UrlOrEnd(f, ch)
    case ReqQueryString => UrlOrEnd(f, ch)
    case ReqFragmentStart => UrlOrEnd(f, ch)
    case ReqFragment => UrlOrEnd(f, ch)
    case ReqHttpStart =>
      if ch == 'H' then To(f, ReqHttpH) else if ch == ' ' then Stay(f) else Error(f, InvalidConstant)
    case ReqHttpH => Expect(f, ch, 'T', ReqHttpHT)
    case ReqHttpHT => Expect(f, ch, 'T', ReqHttpHTT)
    case ReqHttpHTT => Expect(f, ch, 'P', ReqHttpHTTP)
    case ReqHttpHTTP => Expect(f, ch, '/', ReqFirstHttpMajor)
    case ReqFirstHttpMajor =>
      if ch < '1' || ch > '9' then Error(f, InvalidVersion) else To(f.(httpMajor := Digit(ch)), ReqHttpMajor)
    case ReqHttpMajor =>
      if ch == '.' then To(f, ReqFirstHttpMinor)
      else if !IsNum(ch) then Error(f, InvalidVersion)
      else
        var g := f.(httpMajor := VersionDigits(f.httpMajor, ch));
        if g.httpMajor > 999 then Error(g, InvalidVersion) else Stay(g)
    case ReqFirstHttpMinor =>
      if !IsNum(ch) then Error(f, InvalidVersion) else To(f.(httpMinor := Digit(ch)), ReqHttpMinor)
    case ReqHttpMinor =>
      if ch == CR then To(f, ReqLineAlmostDone)
      else if ch == LF then To(f, HeaderFieldStart)
      else if !IsNum(ch) then Error(f, InvalidVersion)
      else
        var g := f.(httpMinor := VersionDigits(f.httpMinor, ch));
        if g.httpMinor > 999 then Error(g, InvalidVersion) else Stay(g)
    case ReqLineAlmostDone => if ch != LF then Error(f, LfExpected) else To(f, HeaderFieldStart)
    case _ => Assertion(f)
  }

  /** The switch, for the states of a header line and of the end of the head. */
  function HeaderByte(f: Fields, ch: char): Effect {
    match f.state
    case HeaderFieldStart =>
      if ch == CR then To(f, HeadersAlmostDone)
      else if ch == LF then To(f, HeadersAlmostDone).(control := Again)
      else if Token(ch) == '\0' then Error(f, InvalidHeaderToken)
      else Effect(f.(index := 0, state := HeaderField, headerState := FirstHeaderState(Token(ch))),
                  [Mark(Field)], 0, Break)
    case HeaderField =>
      if Token(ch) != '\0' then FieldByte(f, Token(ch), ch)
      else if ch == ':' then To(f, HeaderValueDiscardWs).(ops := [Deliver(Field, 0)])
      else if ch == CR then To(f, HeaderAlmostDone).(ops := [Deliver(Field, 0)])
      else if ch == LF then To(f, HeaderFieldStart).(ops := [Deliver(Field, 0)])
      else Error(f, InvalidHeaderToken)
    case HeaderValueDiscardWs =>
      if IsBlank(ch) then Stay(f)
      else if ch == CR then To(f, HeaderValueDiscardWsAlmostDone)
      else if ch == LF then To(f, HeaderValueDiscardLws)
      else ValueStart(f, ch)
    case HeaderValueStart => ValueStart(f, ch)
    case HeaderValue =>
      if ch == CR then To(f, HeaderAlmostDone).(ops := [Deliver(Value, 0)])
      else if ch == LF then Effect(f.(state := HeaderAlmostDone), [Deliver(Value, 0)], 0, Again)
      else ValueByte(f, ch)
    case HeaderAlmostDone => Expect(f, ch, LF, HeaderValueLws)
    case HeaderValueLws =>
      if IsBlank(ch) then To(f, HeaderValueStart).(control := Again)
      else To(f.(flags := HeaderFlags(f)), HeaderFieldStart).(control := Again)
    case HeaderValueDiscardWsAlmostDone => Expect(f, ch, LF, HeaderValueDiscardLws)
    case HeaderValueDiscardLws =>
      if IsBlank(ch) then To(f, HeaderValueDiscardWs)
      else Effect(f.(state := HeaderFieldStart), [Mark(Value), Deliver(Value, 0)], 0, Again)
    case HeadersAlmostDone => HeadEnd(f, ch)
    case HeadersDone => BodyStart(f, ch)
    case _ => Assertion(f)
  }

  /** The switch, for the states of the body, when `avail` bytes are left from this one on. */
  function BodyByte(f: Fields, ch: char, avail: nat): Effect
    requires avail > 0
  {
    match f.state
    case BodyIdentity => TakeBody(f, avail)
    case MessageDone => Complete(f, Break)
    case ChunkSizeStart =>
      if f.nread != 1 || !f.flags.chunked then Assertion(f)
      else if Unhex(ch) == -1 then Error(f, InvalidChunkSize)
      else To(f.(contentLength := Unhex(ch)), ChunkSize)
    case ChunkSize => if !f.flags.chunked then Assertion(f) else ChunkSizeByte(f, ch)
    case ChunkParameters =>
      if !f.flags.chunked then Assertion(f) else if ch == CR then To(f, ChunkSizeAlmostDone) else Stay(f)
    case ChunkSizeAlmostDone =>
      if !f.flags.chunked then Assertion(f)
      else if ch != LF then Error(f, Strict)
      else if f.contentLength == 0 then
        To(f.(nread := 0, flags := f.flags.(trailing := true)), HeaderFieldStart)
      else To(f.(nread := 0), ChunkData)
    case ChunkData => if !f.flags.chunked then Assertion(f) else TakeBody(f, avail)
    case ChunkDataAlmostDone =>
      if !f.flags.chunked || f.contentLength != 0 then Assertion(f)
      else Expect(f, ch, CR, ChunkDataDone).(ops := if ch == CR then [Deliver(Body, 0)] else [])
    case ChunkDataDone =>
      if !f.flags.chunked then Assertion(f)
          else Expect(f.(nread := if ch == LF then 0 else f.nread), ch, LF, ChunkSizeStart)
    case _ => Assertion(f)
  }

  /** One pass through the switch of http_parser_execute on byte `ch`, when `avail` bytes
      are left in the buffer from this one on. */
  function Transition(f: Fields, ch: char, avail: nat): Effect
    requires avail > 0
  {
    match StageOf(f.state)
    case RequestStage => RequestByte(f, ch)
    case HeaderStage => HeaderByte(f, ch)
    case BodyStage => BodyByte(f, ch, avail)
  }

  /** Bounds the re-executions of one byte. */
  function Rank(s: State): nat {
    match s
    case HeaderValueLws => 4
    case HeaderValueDiscardLws => 4
    case HeaderFieldStart => 3
    case HeadersAlmostDone => 2
    case BodyIdentity => 1
    case HeaderValue => 1
    case _ => 0
  }

  lemma RequestNeverAgain(f: Fields, ch: char)
    ensures !RequestByte(f, ch).control.Again?
  {
  }

  lemma HeaderAgain(f: Fields, ch: char)
    ensures var e := HeaderByte(f, ch); e.control.Again? ==> Rank(e.next.state) < Rank(f.state)
  {
    hide MatchByte, FirstHeaderState, Token, Lower;
  }

  lemma AgainLowersRank(f: Fields, ch: char, avail: nat)
    requires avail > 0
    ensures var e := Transition(f, ch, avail); e.control.Again? ==> Rank(e.next.state) < Rank(f.state)
  {
    RequestNeverAgain(f, ch);
    HeaderAgain(f, ch);
    hide RequestByte, HeaderByte;
  }

  /** All passes a byte goes through: the switch, and `goto reexecute_byte` while it asks for it. */
  function Dispatch(f: Fields, ch: char, avail: nat): Effect
    requires avail > 0
    decreases Rank(f.state)
  {
    AgainLowersRank(f, ch, avail);
    hide RequestByte, HeaderByte, BodyByte;
    var e := Transition(f, ch, avail);
    if e.control.Again? then
      var r := Dispatch(e.next, ch, 1);
      Effect(r.next, e.ops + r.ops, e.advance + r.advance, r.control)
    else e
  }
}
