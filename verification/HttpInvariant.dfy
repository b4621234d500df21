/** What holds of the parser between bytes, whatever the input: none of the assertions in
    http_parser_execute can fail, and every matcher index stays inside its name. */
module HttpInvariant {
  import opened Wrappers
  import opened HttpChars
  import opened HttpMachine
  import opened HttpStream
  import opened HttpShape

  /** The length of the name or value that a matching state works on. */
  function Length(h: HeaderState): nat {
    match h
    case MatchingConnection => 10
    case MatchingProxyConnection => 16
    case MatchingContentLength => 14
    case MatchingTransferEncoding => 17
    case MatchingUpgrade => 7
    case MatchingChunked => 7
    case MatchingKeepAlive => 10
    case MatchingClose => 5
    case _ => 0
  }

  lemma Lengths()
    ensures |CONNECTION| == 10 && |PROXY_CONNECTION| == 16 && |CONTENT_LENGTH| == 14
    ensures |TRANSFER_ENCODING| == 17 && |UPGRADE| == 7
    ensures |CHUNKED| == 7 && |KEEP_ALIVE| == 10 && |CLOSE| == 5
  {
  }

  /** The header states of a name being read; `index` is at its last character. */
  predicate NameState(f: Fields) {
    match f.headerState
    case General => true
    case C => f.index == 0
    case CO => f.index == 1
    case CON => f.index == 2
    case Connection => true
    case ContentLength => true
    case TransferEncoding => true
    case Upgrade => true
    case MatchingChunked => false
    case MatchingKeepAlive => false
    case MatchingClose => false
    case _ => f.index < Length(f.headerState) - 1
  }

  /** The header states of a value being read. */
  predicate ValueState(f: Fields) {
    match f.headerState
    case General => true
    case ContentLength => f.contentLength < ULLONG_MAX
    case Chunked => true
    case KeepAlive => true
    case Close => true
    case MatchingChunked => f.index < Length(f.headerState) - 1
    case MatchingKeepAlive => f.index < Length(f.headerState) - 1
    case MatchingClose => f.index < Length(f.headerState) - 1
    case _ => false
  }

  /** Holds whenever the switch is entered; `counted` tells whether the byte has been counted. */
  predicate Good(f: Fields, counted: bool) {
    && f.errno.OK?
    && f.nread <= MAX_HEADER_SIZE
    && f.httpMajor <= 999 && f.httpMinor <= 999
    && f.contentLength <= ULLONG_MAX
    && match f.state
       case ReqMethod => 1 <= f.index <= |MethodName(f.verb)|
       case HeaderField => NameState(f)
       case HeaderValue => ValueState(f)
       case ChunkSizeStart => f.flags.chunked && f.nread == (if counted then 1 else 0)
       case ChunkSize => f.flags.chunked && f.contentLength < ULLONG_MAX
       case ChunkParameters => f.flags.chunked && f.contentLength < ULLONG_MAX
       case ChunkSizeAlmostDone => f.flags.chunked && f.contentLength < ULLONG_MAX
       case ChunkData => f.flags.chunked && 0 < f.contentLength < ULLONG_MAX
       case ChunkDataAlmostDone => f.flags.chunked && f.contentLength == 0
       case ChunkDataDone => f.flags.chunked
       case BodyIdentity => 0 < f.contentLength < ULLONG_MAX
       case _ => true
  }

  /** The states a byte never leaves the parser in. */
  predicate Transient(s: State) { s.HeaderValueStart? || s.HeadersDone? || s.MessageDone? }

  predicate Inv(f: Fields) { Good(f, false) && !Transient(f.state) }

  predicate GoodPass(e: Effect) {
    match e.control
    case Break => Inv(e.next)
    case Again => Good(e.next, true) && !e.next.state.ChunkSizeStart?
    case Exit => Inv(e.next)
    case Fail => !e.next.errno.OK?
    case Abort => false
  }

  /** A method is only switched to at a position inside its name. */
  lemma OtherMethodFits(m: Method, index: nat, ch: char)
    ensures OtherMethod(m, index, ch).Some? ==> index < |MethodName(OtherMethod(m, index, ch).value)|
  {
  }

  lemma MethodKeeps(f: Fields, ch: char)
    requires Good(f, true) && f.state.ReqMethod?
    ensures GoodPass(MethodByte(f, ch))
  {
    OtherMethodFits(f.verb, f.index, ch);
    hide MethodName, OtherMethod;
  }

  lemma UrlKeeps(f: Fields, from: State, ch: char, ops: seq<Op>)
    requires Good(f, true)
    ensures GoodPass(UrlByte(f, from, ch, ops))
  {
    hide MethodName, NameState, ValueState, ParseUrlChar;
    UrlStates(from, ch);
  }

  lemma UrlOrEndKeeps(f: Fields, ch: char)
    requires Good(f, true)
    ensures GoodPass(UrlOrEnd(f, ch))
  {
    hide MethodName, NameState, ValueState, ParseUrlChar;
    UrlStates(f.state, ch);
  }

  /** The request line after the URL. */
  predicate InVersion(s: State) {
    s.ReqHttpStart? || s.ReqHttpH? || s.ReqHttpHT? || s.ReqHttpHTT? || s.ReqHttpHTTP?
    || s.ReqFirstHttpMajor? || s.ReqHttpMajor? || s.ReqFirstHttpMinor? || s.ReqHttpMinor? || s.ReqLineAlmostDone?
  }

  lemma VersionKeeps(f: Fields, ch: char)
    requires Good(f, true) && InVersion(f.state)
    ensures GoodPass(RequestByte(f, ch))
  {
    hide MethodName, NameState, ValueState;
  }

  lemma StartKeeps(f: Fields, ch: char)
    requires Good(f, true) && (f.state.Dead? || f.state.StartReq?)
    ensures GoodPass(RequestByte(f, ch))
  {
    hide NameState, ValueState, MethodName;
    hide FirstMethod, IsAlpha;
  }

  lemma UrlByteKeeps(f: Fields, ch: char)
    requires Good(f, true) && (f.state.ReqSpacesBeforeUrl? || Collects(f.state) == Some(Url))
    ensures GoodPass(RequestByte(f, ch))
  {
    hide MethodName, NameState, ValueState;
    UrlKeeps(f, f.state, ch, []);
    UrlOrEndKeeps(f, ch);
    UrlKeeps(f, f.state, ch, [Mark(Url)]);
    UrlKeeps(f, ReqServerStart, ch, [Mark(Url)]);
    hide UrlByte, UrlOrEnd;
  }

  lemma RequestKeeps(f: Fields, ch: char)
    requires Good(f, true) && StageOf(f.state).RequestStage?
    ensures GoodPass(RequestByte(f, ch))
  {
    hide Good, GoodPass;
    if f.state.ReqMethod? {
      MethodKeeps(f, ch);
    } else if InVersion(f.state) {
      VersionKeeps(f, ch);
    } else if f.state.Dead? || f.state.StartReq? {
      StartKeeps(f, ch);
    } else {
      UrlByteKeeps(f, ch);
    }
    hide UrlByte, UrlOrEnd, MethodByte, FirstMethod;
  }

  /** What one character against a name does to the matcher. */
  lemma MatchKeeps(f: Fields, name: string, c: char, found: HeaderState)
    requires f.index < |name| - 1 < 200
    ensures var g := MatchByte(f, name, c, found);
      g.headerState == General || g.headerState == found
      || (g.headerState == f.headerState && g.index == f.index + 1 < |name| - 1)
  {
  }

  lemma FieldKeeps(f: Fields, c: char, ch: char)
    requires NameState(f)
    ensures var e := FieldByte(f, c, ch); e.control.Break? && NameState(e.next)
    ensures var g := FieldByte(f, c, ch).next; g == f.(index := g.index, headerState := g.headerState)
  {
    Lengths();
    match f.headerState
    case MatchingConnection => MatchKeeps(f, CONNECTION, c, Connection);
    case MatchingProxyConnection => MatchKeeps(f, PROXY_CONNECTION, c, Connection);
    case MatchingContentLength => MatchKeeps(f, CONTENT_LENGTH, c, ContentLength);
    case MatchingTransferEncoding => MatchKeeps(f, TRANSFER_ENCODING, c, TransferEncoding);
    case MatchingUpgrade => MatchKeeps(f, UPGRADE, c, Upgrade);
    case _ =>
    hide MatchByte;
  }

  lemma ValueKeeps(f: Fields, ch: char)
    requires ValueState(f)
    ensures var e := ValueByte(f, ch);
      if e.control.Break? then ValueState(e.next) else e.control.Fail? && !e.next.errno.OK?
    ensures var g := ValueByte(f, ch).next;
      g == f.(index := g.index, headerState := g.headerState, contentLength := g.contentLength, errno := g.errno)
    ensures var g := ValueByte(f, ch).next; g.contentLength <= ULLONG_MAX || g.contentLength == f.contentLength
    ensures ValueByte(f, ch).control.Break? ==> ValueByte(f, ch).next.errno == f.errno
  {
    Lengths();
    match f.headerState
    case MatchingChunked => MatchKeeps(f, CHUNKED, Lower(ch), Chunked);
    case MatchingKeepAlive => MatchKeeps(f, KEEP_ALIVE, Lower(ch), KeepAlive);
    case MatchingClose => MatchKeeps(f, CLOSE, Lower(ch), Close);
    case _ =>
    hide MatchByte, Lower;
  }

  lemma ValueStartKeeps(f: Fields, ch: char)
    requires Good(f, true)
    ensures GoodPass(ValueStart(f, ch))
  {
    hide MethodName, NameState;
    hide Lower;
  }

  lemma HeadEndKeeps(f: Fields, ch: char)
    requires Good(f, true)
    ensures f.state.HeadersAlmostDone? ==> GoodPass(HeadEnd(f, ch))
    ensures f.state.HeadersDone? ==> GoodPass(BodyStart(f, ch))
  {
    hide MethodName, NameState, ValueState;
  }

  /** The header states between names and values. */
  predicate InBetween(s: State) {
    StageOf(s).HeaderStage? && !(s.HeaderField? || s.HeaderValue? || s.HeadersAlmostDone? || s.HeadersDone?)
  }

  lemma FirstNameState(f: Fields, c: char)
    ensures NameState(f.(index := 0, state := HeaderField, headerState := FirstHeaderState(c)))
  {
  }

  lemma FieldStartKeeps(f: Fields, ch: char)
    requires Good(f, true) && f.state.HeaderFieldStart?
    ensures GoodPass(HeaderByte(f, ch))
  {
    hide MethodName, NameState, ValueState;
    FirstNameState(f, Token(ch));
    hide FirstHeaderState, Token;
  }

  lemma BetweenKeeps(f: Fields, ch: char)
    requires Good(f, true) && InBetween(f.state) && !f.state.HeaderFieldStart?
    ensures GoodPass(HeaderByte(f, ch))
  {
    hide MethodName, NameState, ValueState;
    ValueStartKeeps(f, ch);
    hide ValueStart, HeaderFlags;
  }

  lemma InnerKeeps(f: Fields, ch: char)
    requires Good(f, true) && (f.state.HeaderField? || f.state.HeaderValue?)
    ensures GoodPass(HeaderByte(f, ch))
  {
    hide FieldByte, ValueByte, Token, NameState, ValueState, MethodName;
    if f.state.HeaderField? { FieldKeeps(f, Token(ch), ch); } else { ValueKeeps(f, ch); }
  }

  lemma HeaderKeeps(f: Fields, ch: char)
    requires Good(f, true) && StageOf(f.state).HeaderStage?
    ensures GoodPass(HeaderByte(f, ch))
  {
    hide Good, GoodPass;
    if f.state.HeaderFieldStart? {
      FieldStartKeeps(f, ch);
    } else if InBetween(f.state) {
      BetweenKeeps(f, ch);
    } else if f.state.HeaderField? || f.state.HeaderValue? {
      InnerKeeps(f, ch);
    } else {
      HeadEndKeeps(f, ch);
    }
    hide HeadEnd, BodyStart, FieldByte, ValueByte;
  }

  /** Of an accepted length, ten (sixteen) times itself and a digit does not wrap. */
  lemma NoWrap(n: nat, d: nat)
    ensures n <= (ULLONG_MAX - 10) / 10 && d <= 9 ==> n * 10 + d < ULLONG_MAX
    ensures n <= (ULLONG_MAX - 16) / 16 && d <= 15 ==> n * 16 + d < ULLONG_MAX
  {
  }

  lemma ChunkSizeKeeps(f: Fields, ch: char)
    requires Good(f, true) && f.state.ChunkSize?
    ensures GoodPass(ChunkSizeByte(f, ch))
  {
    hide MethodName, NameState, ValueState;
    if Unhex(ch) >= 0 { NoWrap(f.contentLength, Unhex(ch)); }
    hide Unhex;
  }

  lemma TakeBodyKeeps(f: Fields, avail: nat)
    requires avail > 0 && Good(f, true) && InBody(f.state)
    ensures GoodPass(TakeBody(f, avail))
  {
    hide MethodName, NameState, ValueState;
  }

  lemma BodyKeeps(f: Fields, ch: char, avail: nat)
    requires avail > 0 && Good(f, true) && StageOf(f.state).BodyStage?
    ensures GoodPass(BodyByte(f, ch, avail))
  {
    hide MethodName, NameState, ValueState;
    if f.state.ChunkSize? {
      ChunkSizeKeeps(f, ch);
    } else if InBody(f.state) {
      TakeBodyKeeps(f, avail);
    }
    hide Unhex, ChunkSizeByte, TakeBody;
  }

  lemma {:induction false} DispatchKeeps(f: Fields, ch: char, avail: nat)
    requires avail > 0 && Good(f, true)
    ensures var e := Dispatch(f, ch, avail); !e.control.Again? && GoodPass(e)
    decreases Rank(f.state)
  {
    hide RequestByte, HeaderByte, BodyByte, Good, Inv;
    assert GoodPass(Transition(f, ch, avail)) by {
      match StageOf(f.state)
      case RequestStage => RequestKeeps(f, ch);
      case HeaderStage => HeaderKeeps(f, ch);
      case BodyStage => BodyKeeps(f, ch, avail);
    }
    AgainLowersRank(f, ch, avail);
    var e := Transition(f, ch, avail);
    hide Transition;
    if e.control.Again? {
      DispatchKeeps(e.next, ch, 1);
    }
  }

  /* ---- whole streams ---- */

  /** While a state collects data, the trace ends with data of that kind. */
  predicate Coherent(f: Fields, tr: Trace) {
    Collects(f.state).Some? ==> EndsWith(tr, Collects(f.state).value)
  }

  predicate Sound(o: Outcome) {
    match o
    case Running(g, t) => Inv(g) && Coherent(g, t)
    case Upgraded(g, _, t) => Inv(g) && Coherent(g, t)
    case Failed(g, _, _) => !g.errno.OK?
    case Aborted => false
  }

  lemma CountedGood(f: Fields)
    requires Inv(f) && !Overflows(f)
    ensures Good(Counted(f), true)
  {
    hide MethodName;
  }

  /** One byte, on any input: no assertion fails and the invariant is kept. */
  lemma StepKeeps(f: Fields, tr: Trace, ch: char, at: nat)
    requires Inv(f) && Coherent(f, tr)
    ensures Sound(Step(f, tr, ch, at))
  {
    hide Dispatch, Collects;
    if Overflows(f) {
      assert Step(f, tr, ch, at) == Failed(Counted(f).(errno := HeaderOverflow), at, tr);
      hide Inv, Coherent, Step;
    } else {
      CountedGood(f);
      hide Good;
      DispatchKeeps(Counted(f), ch, 1);
      var e := Dispatch(Counted(f), ch, 1);
      if InBody(f.state) {
        BodyCollectsNothing(Counted(f), ch);
      } else {
        DispatchShape(Counted(f), ch, 1);
        if (e.control.Break? || e.control.Exit?) && Collects(e.next.state).Some? {
          assert e.ops == Framing(f.state, e.next.state, ch);
          FramingIsSilent(f.state, e.next.state, ch);
          AppendEnds(Opened(tr, f.state, ch), Collects(e.next.state).value, [ch]);
        }
      }
      hide Framed, FailOps;
    }
  }

  lemma BodyCollectsNothing(f: Fields, ch: char)
    requires InBody(f.state)
    ensures var e := Dispatch(f, ch, 1); e.control.Break? || e.control.Exit? ==> Collects(e.next.state).None?
  {
    hide RequestByte, HeaderByte;
  }

  lemma FramingIsSilent(before: State, after: State, ch: char)
    ensures Events(Framing(before, after, ch)) == []
  {
    hide Collects;
    var m := Marking(before, after);
    assert Events(m) == [];
    if EndsEmptyValue(before, ch) {
      var ops := Framing(before, after, ch);
      assert ops[1..] == [Deliver(Value, 0)] + m && ops[1..][1..] == m;
    }
  }

  lemma {:induction false} StreamKeeps(f: Fields, tr: Trace, data: string, at: nat)
    requires Inv(f) && Coherent(f, tr)
    ensures Sound(Stream(f, tr, data, at))
    decreases |data|
  {
    hide Step, Inv, Coherent;
    if data != [] {
      StepKeeps(f, tr, data[0], at);
      match Step(f, tr, data[0], at)
      case Running(g, t) => StreamKeeps(g, t, data[1..], at + 1);
      case _ =>
    }
  }

  /** On every input, from a fresh parser, no assertion of the parser fails, and the invariant
      holds wherever the input ends. */
  lemma NoAssertionFails(data: string)
    ensures Sound(Stream(INITIAL, [], data, 0))
  {
    StreamKeeps(INITIAL, [], data, 0);
    hide Stream;
  }
}
