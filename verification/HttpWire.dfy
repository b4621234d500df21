/** How the parser reads the parts of a well-formed request. Every lemma says: this text, at the
    front of a stream, takes the parser from these fields and this trace to those. */
module HttpWire {
  import opened Wrappers
  import opened HttpChars
  import opened HttpMachine
  import opened HttpStream
  import opened HttpMethods
  import opened HttpHeaders
  import opened HttpValues
  import opened HttpNumbers
  import opened HttpShape
  import opened HttpInvariant
  import opened HttpParser

  /** A head byte that takes a single pass. */
  lemma OnePass(f: Fields, tr: Trace, ch: char, at: nat)
    requires ParsingHeader(f.state) && Room(f, 1) && Transition(Read(f, 1), ch, 1).control.Break?
    ensures var e := Transition(Read(f, 1), ch, 1);
      Step(f, tr, ch, at) == Running(e.next, Extended(tr, f.state, e.next.state, ch, Events(e.ops)))
  {
    hide Transition, Extended;
  }

  /** A head byte that neither is data nor calls back. */
  lemma Quiet(f: Fields, tr: Trace, ch: char, at: nat, g: Fields)
    requires ParsingHeader(f.state) && Room(f, 1) && !EndsEmptyValue(f.state, ch)
    requires var e := Transition(Read(f, 1), ch, 1); e.control.Break? && e.next == g && Events(e.ops) == []
    requires Collects(g.state).None?
    ensures Step(f, tr, ch, at) == Running(g, tr)
  {
    OnePass(f, tr, ch, at);
    assert tr + [] == tr;
    hide Step, Transition, Collects;
  }

  /** A head byte that is data. */
  lemma Gathered(f: Fields, tr: Trace, ch: char, at: nat, g: Fields, k: Kind)
    requires ParsingHeader(f.state) && Room(f, 1) && !EndsEmptyValue(f.state, ch)
    requires var e := Transition(Read(f, 1), ch, 1); e.control.Break? && e.next == g && Events(e.ops) == []
    requires Collects(g.state) == Some(k)
    ensures Step(f, tr, ch, at) == Running(g, Append(tr, k, [ch]))
  {
    assert !InBody(f.state);
    OnePass(f, tr, ch, at);
    AppendEnds(tr, k, [ch]);
    hide Step, Transition, Collects, Append;
  }

  /* ---- the URL ---- */

  predicate UrlEnd(s: State) {
    s.ReqServer? || s.ReqServerWithAt? || s.ReqPath? || s.ReqQueryStringStart? || s.ReqQueryString?
    || s.ReqFragmentStart? || s.ReqFragment?
  }

  /** The URL automaton accepts `url` from state `s`. */
  predicate UrlFrom(s: State, url: string)
    decreases |url|
  {
    if url == "" then UrlEnd(s)
    else ParseUrlChar(s, url[0]) != Dead && UrlFrom(ParseUrlChar(s, url[0]), url[1..])
  }

  function UrlState(s: State, url: string): State
    decreases |url|
  {
    if url == "" then s else UrlState(ParseUrlChar(s, url[0]), url[1..])
  }

  lemma UrlCharIsPlain(s: State, ch: char)
    requires ParseUrlChar(s, ch) != Dead
    ensures ch != ' ' && !IsEol(ch)
  {
  }

  lemma UrlStep(f: Fields, tr: Trace, ch: char, at: nat)
    requires Room(f, 1) && (Collects(f.state) == Some(Url) || (f.state.ReqSpacesBeforeUrl? && f.verb != CONNECT))
    requires ParseUrlChar(f.state, ch) != Dead
    ensures Step(f, tr, ch, at) == Running(Read(f, 1).(state := ParseUrlChar(f.state, ch)), Append(tr, Url, [ch]))
  {
    hide ParseUrlChar, Step, Append;
    UrlStates(f.state, ch);
    UrlCharIsPlain(f.state, ch);
    var g := Read(f, 1);
    var e := RequestByte(g, ch);
    assert Events(e.ops) == [] && e.control.Break? && e.next == g.(state := ParseUrlChar(f.state, ch));
    hide RequestByte, HeaderByte, BodyByte;
    Gathered(f, tr, ch, at, g.(state := ParseUrlChar(f.state, ch)), Url);
  }

  lemma {:induction false} ReadUrl(f: Fields, tr: Trace, url: string, rest: string, at: nat)
    requires Collects(f.state) == Some(Url) && EndsWith(tr, Url)
    requires UrlFrom(f.state, url) && Room(f, |url|)
    ensures UrlEnd(UrlState(f.state, url))
    ensures Stream(f, tr, url + rest, at) ==
      Stream(Read(f, |url|).(state := UrlState(f.state, url)), Append(tr, Url, url), rest, at + |url|)
    decreases |url|
  {
    hide Step, Stream, ParseUrlChar, Append, Collects;
    if url == "" {
      assert url + rest == rest;
      AppendNothing(tr, Url);
    } else {
      assert url + rest == [url[0]] + (url[1..] + rest);
      StreamStep(f, tr, url[0], url[1..] + rest, at);
      UrlStep(f, tr, url[0], at);
      UrlStates(f.state, url[0]);
      AppendEnds(tr, Url, [url[0]]);
      ReadUrl(Read(f, 1).(state := ParseUrlChar(f.state, url[0])), Append(tr, Url, [url[0]]), url[1..], rest, at + 1);
      AppendTwice(tr, Url, [url[0]], url[1..]);
      assert [url[0]] + url[1..] == url;
    }
  }

  /* ---- " HTTP/1.1" and the end of the line ---- */

  lemma ReadSpace(f: Fields, tr: Trace, rest: string, at: nat)
    requires UrlEnd(f.state) && Room(f, 1)
    ensures Stream(f, tr, " " + rest, at) == Stream(Read(f, 1).(state := ReqHttpStart), tr, rest, at + 1)
  {
    hide Stream, Step;
    StreamStep(f, tr, ' ', rest, at);
    Quiet(f, tr, ' ', at, Read(f, 1).(state := ReqHttpStart));
  }

  /** The only byte that continues a fixed text, and the state it leads to. */
  function Fixed(s: State): (char, State) {
    match s
    case ReqHttpStart => ('H', ReqHttpH)
    case ReqHttpH => ('T', ReqHttpHT)
    case ReqHttpHT => ('T', ReqHttpHTT)
    case ReqHttpHTT => ('P', ReqHttpHTTP)
    case ReqHttpHTTP => ('/', ReqFirstHttpMajor)
    case ReqHttpMajor => ('.', ReqFirstHttpMinor)
    case ReqHttpMinor => (CR, ReqLineAlmostDone)
    case ReqLineAlmostDone => (LF, HeaderFieldStart)
    case _ => ('\0', Dead)
  }

  lemma FixedByte(f: Fields)
    requires Fixed(f.state).0 != '\0'
    ensures RequestByte(f, Fixed(f.state).0) == To(f, Fixed(f.state).1)
  {
  }

  lemma ReadFixed(f: Fields, tr: Trace, rest: string, at: nat)
    requires Fixed(f.state).0 != '\0' && Room(f, 1)
    ensures Stream(f, tr, [Fixed(f.state).0] + rest, at) ==
      Stream(Read(f, 1).(state := Fixed(f.state).1), tr, rest, at + 1)
  {
    hide RequestByte, HeaderByte, BodyByte, Stream, Step;
    var (ch, s) := Fixed(f.state);
    FixedByte(Read(f, 1));
    StreamStep(f, tr, ch, rest, at);
    Quiet(f, tr, ch, at, Read(f, 1).(state := s));
  }

  lemma ReadVersionDigit(f: Fields, tr: Trace, rest: string, at: nat)
    requires (f.state.ReqFirstHttpMajor? || f.state.ReqFirstHttpMinor?) && Room(f, 1)
    ensures Stream(f, tr, ['1'] + rest, at) ==
      Stream(if f.state.ReqFirstHttpMajor? then Read(f, 1).(state := ReqHttpMajor, httpMajor := 1)
             else Read(f, 1).(state := ReqHttpMinor, httpMinor := 1), tr, rest, at + 1)
  {
    hide Stream, Step;
    StreamStep(f, tr, '1', rest, at);
    Quiet(f, tr, '1', at,
          if f.state.ReqFirstHttpMajor? then Read(f, 1).(state := ReqHttpMajor, httpMajor := 1)
          else Read(f, 1).(state := ReqHttpMinor, httpMinor := 1));
  }

  lemma ReadHttp(f: Fields, tr: Trace, rest: string, at: nat)
    requires f.state.ReqHttpStart? && Room(f, 5)
    ensures Stream(f, tr, "HTTP/" + rest, at) == Stream(Read(f, 5).(state := ReqFirstHttpMajor), tr, rest, at + 5)
  {
    hide Stream;
    assert "HTTP/" + rest == ['H'] + (['T'] + (['T'] + (['P'] + (['/'] + rest))));
    ReadFixed(f, tr, ['T'] + (['T'] + (['P'] + (['/'] + rest))), at);
    ReadFixed(Read(f, 1).(state := ReqHttpH), tr, ['T'] + (['P'] + (['/'] + rest)), at + 1);
    ReadFixed(Read(f, 2).(state := ReqHttpHT), tr, ['P'] + (['/'] + rest), at + 2);
    ReadFixed(Read(f, 3).(state := ReqHttpHTT), tr, ['/'] + rest, at + 3);
    ReadFixed(Read(f, 4).(state := ReqHttpHTTP), tr, rest, at + 4);
  }

  lemma ReadOneOne(f: Fields, tr: Trace, rest: string, at: nat)
    requires f.state.ReqFirstHttpMajor? && Room(f, 5)
    ensures Stream(f, tr, "1.1\r\n" + rest, at) ==
      Stream(Read(f, 5).(state := HeaderFieldStart, httpMajor := 1, httpMinor := 1), tr, rest, at + 5)
  {
    hide Stream;
    assert "1.1\r\n" + rest == ['1'] + (['.'] + (['1'] + ([CR] + ([LF] + rest))));
    ReadVersionDigit(f, tr, ['.'] + (['1'] + ([CR] + ([LF] + rest))), at);
    ReadFixed(Read(f, 1).(state := ReqHttpMajor, httpMajor := 1), tr, ['1'] + ([CR] + ([LF] + rest)), at + 1);
    ReadVersionDigit(Read(f, 2).(state := ReqFirstHttpMinor, httpMajor := 1), tr, [CR] + ([LF] + rest), at + 2);
    var g := Read(f, 3).(state := ReqHttpMinor, httpMajor := 1, httpMinor := 1);
    ReadFixed(g, tr, [LF] + rest, at + 3);
    ReadFixed(Read(g, 1).(state := ReqLineAlmostDone), tr, rest, at + 4);
  }

  /** The rest of a request line, from the end of the URL. */
  lemma ReadVersion(f: Fields, tr: Trace, rest: string, at: nat)
    requires UrlEnd(f.state) && Room(f, 11)
    ensures Stream(f, tr, " HTTP/1.1\r\n" + rest, at) ==
      Stream(Read(f, 11).(state := HeaderFieldStart, httpMajor := 1, httpMinor := 1), tr, rest, at + 11)
  {
    hide Stream;
    assert " HTTP/1.1\r\n" + rest == " " + ("HTTP/" + ("1.1\r\n" + rest));
    ReadSpace(f, tr, "HTTP/" + ("1.1\r\n" + rest), at);
    ReadHttp(Read(f, 1).(state := ReqHttpStart), tr, "1.1\r\n" + rest, at + 1);
    ReadOneOne(Read(f, 6).(state := ReqFirstHttpMajor), tr, rest, at + 6);
  }

  /* ---- header lines ---- */

  lemma NameFirst(f: Fields, tr: Trace, ch: char, at: nat)
    requires f.state.HeaderFieldStart? && Room(f, 1) && Token(ch) != '\0'
    ensures Step(f, tr, ch, at) ==
      Running(Read(f, 1).(state := HeaderField, index := 0, headerState := FirstHeaderState(Token(ch))),
              Append(tr, Field, [ch]))
  {
    assert ch != CR && ch != LF;
    hide Step, Append, Token, FirstHeaderState, RequestByte, BodyByte;
    Gathered(f, tr, ch, at,
             Read(f, 1).(state := HeaderField, index := 0, headerState := FirstHeaderState(Token(ch))), Field);
  }

  lemma NameNext(f: Fields, tr: Trace, w: string, ch: char, at: nat)
    requires f.state.HeaderField? && Room(f, 1) && Token(ch) != '\0' && Track(f.headerState, f.index, w)
    ensures var g := FieldByte(Read(f, 1), Token(ch), ch).next;
      && g == Read(f, 1).(headerState := g.headerState, index := g.index)
      && Track(g.headerState, g.index, w + [Token(ch)])
      && Step(f, tr, ch, at) == Running(g, Append(tr, Field, [ch]))
  {
    assert ch != ' ' && Token(ch) != ' ';
    TrackByte(Read(f, 1), w, Token(ch), ch);
    assert HeaderByte(Read(f, 1), ch) == FieldByte(Read(f, 1), Token(ch), ch) by { hide FieldByte, Token; }
    hide Step, Append, Token, FieldByte, HeaderByte, RequestByte, BodyByte, Track;
    Gathered(f, tr, ch, at, FieldByte(Read(f, 1), Token(ch), ch).next, Field);
  }

  lemma LowerSnoc(w: string, ch: char)
    ensures LowerCase(w + [ch]) == LowerCase(w) + [Token(ch)]
  {
    hide Token;
  }

  lemma {:induction false} ReadNameTail(f: Fields, tr: Trace, w: string, more: string, rest: string, at: nat)
    returns (g: Fields)
    requires f.state.HeaderField? && EndsWith(tr, Field) && Track(f.headerState, f.index, LowerCase(w))
    requires Room(f, |more|) && forall i | 0 <= i < |more| :: Token(more[i]) != '\0'
    ensures g == Read(f, |more|).(headerState := g.headerState, index := g.index)
    ensures Track(g.headerState, g.index, LowerCase(w + more))
    ensures Stream(f, tr, more + rest, at) == Stream(g, Append(tr, Field, more), rest, at + |more|)
    decreases |more|
  {
    hide Step, Stream, Token, Append, Track, FieldByte, LowerCase;
    if more == "" {
      g := f;
      assert more + rest == rest && w + more == w;
      AppendNothing(tr, Field);
    } else {
      var ch := more[0];
      assert more + rest == [ch] + (more[1..] + rest);
      StreamStep(f, tr, ch, more[1..] + rest, at);
      NameNext(f, tr, LowerCase(w), ch, at);
      LowerSnoc(w, ch);
      var f1 := FieldByte(Read(f, 1), Token(ch), ch).next;
      AppendEnds(tr, Field, [ch]);
      g := ReadNameTail(f1, Append(tr, Field, [ch]), w + [ch], more[1..], rest, at + 1);
      AppendTwice(tr, Field, [ch], more[1..]);
      assert [ch] + more[1..] == more && w + [ch] + more[1..] == w + more;
    }
  }

  /** A header name and its colon: the matcher ends in the state that tells which name it was. */
  lemma ReadName(f: Fields, tr: Trace, name: string, rest: string, at: nat)
    returns (g: Fields)
    requires f.state.HeaderFieldStart? && IsName(name) && Room(f, |name| + 1)
    ensures g == Read(f, |name| + 1).(state := HeaderValueDiscardWs, headerState := g.headerState, index := g.index)
    ensures Track(g.headerState, g.index, LowerCase(name))
    ensures Stream(f, tr, name + ":" + rest, at) == Stream(g, Append(tr, Field, name), rest, at + |name| + 1)
  {
    hide Step, Stream, Append, Track;
    var ch := name[0];
    assert name + ":" + rest == [ch] + (name[1..] + ([':'] + rest));
    StreamStep(f, tr, ch, name[1..] + ([':'] + rest), at);
    NameFirst(f, tr, ch, at);
    var f1 := Read(f, 1).(state := HeaderField, index := 0, headerState := FirstHeaderState(Token(ch)));
    TrackFirst(Token(ch));
    assert LowerCase([ch]) == [Token(ch)];
    AppendEnds(tr, Field, [ch]);
    hide FirstHeaderState;
    var f2 := ReadNameTail(f1, Append(tr, Field, [ch]), [ch], name[1..], [':'] + rest, at + 1);
    AppendTwice(tr, Field, [ch], name[1..]);
    assert [ch] + name[1..] == name;
    StreamStep(f2, Append(tr, Field, name), ':', rest, at + |name|);
    g := Read(f2, 1).(state := HeaderValueDiscardWs);
    ReadColon(f2, Append(tr, Field, name), at + |name|);
  }

  lemma ReadColon(f: Fields, tr: Trace, at: nat)
    requires f.state.HeaderField? && Room(f, 1)
    ensures Step(f, tr, ':', at) == Running(Read(f, 1).(state := HeaderValueDiscardWs), tr)
  {
    hide Step, Transition;
    assert Token(':') == '\0';
    HeaderStageByte(Read(f, 1), ':');
    Quiet(f, tr, ':', at, Read(f, 1).(state := HeaderValueDiscardWs));
  }

  /** Between the colon and the value. */
  lemma ReadBlank(f: Fields, tr: Trace, rest: string, at: nat)
    requires f.state.HeaderValueDiscardWs? && Room(f, 1)
    ensures Stream(f, tr, " " + rest, at) == Stream(Read(f, 1), tr, rest, at + 1)
  {
    hide Stream, Step;
    StreamStep(f, tr, ' ', rest, at);
    Quiet(f, tr, ' ', at, Read(f, 1));
  }

  lemma ValueFirst(f: Fields, tr: Trace, ch: char, at: nat)
    requires f.state.HeaderValueDiscardWs? && Room(f, 1) && !IsBlank(ch) && !IsEol(ch)
    requires f.headerState.ContentLength? ==> IsNum(ch)
    ensures var g := ValueStart(Read(f, 1), ch).next;
      Step(f, tr, ch, at) == Running(g, Append(tr, Value, [ch])) && g.state == HeaderValue
  {
    hide Step, Append, Transition, ValueStart, IsBlank, IsEol, IsNum;
    ValueStartByte(Read(f, 1), ch);
    var e := ValueStart(Read(f, 1), ch);
    Gathered(f, tr, ch, at, e.next, Value);
  }

  lemma ValueStartByte(f: Fields, ch: char)
    requires f.state.HeaderValueDiscardWs? && !IsBlank(ch) && !IsEol(ch) && (f.headerState.ContentLength? ==> IsNum(ch))
    ensures var e := ValueStart(f, ch);
      && Transition(f, ch, 1) == e && e.control.Break? && Events(e.ops) == [] && e.next.state == HeaderValue
  {
    assert Transition(f, ch, 1) == ValueStart(f, ch) by {
      HeaderStageByte(f, ch);
      hide Transition, ValueStart;
    }
    hide Transition, Lower;
  }

  lemma HeaderStageByte(f: Fields, ch: char)
    requires StageOf(f.state).HeaderStage?
    ensures Transition(f, ch, 1) == HeaderByte(f, ch)
  {
    hide HeaderByte, RequestByte, BodyByte;
  }

  lemma ValueNext(f: Fields, tr: Trace, ch: char, at: nat)
    requires f.state.HeaderValue? && Room(f, 1) && !IsEol(ch)
    requires ValueByte(Read(f, 1), ch) == Stay(ValueByte(Read(f, 1), ch).next)
    requires ValueByte(Read(f, 1), ch).next.state == HeaderValue
    ensures Step(f, tr, ch, at) == Running(ValueByte(Read(f, 1), ch).next, Append(tr, Value, [ch]))
  {
    hide Step, Append, Transition, ValueByte;
    HeaderStageByte(Read(f, 1), ch);
    Gathered(f, tr, ch, at, ValueByte(Read(f, 1), ch).next, Value);
  }

  /** A header value that no special meaning is attached to. */
  lemma {:induction false} ReadPlainTail(f: Fields, tr: Trace, more: string, rest: string, at: nat)
    requires f.state.HeaderValue? && f.headerState.General? && EndsWith(tr, Value)
    requires Room(f, |more|) && forall i | 0 <= i < |more| :: !IsEol(more[i])
    ensures Stream(f, tr, more + rest, at) == Stream(Read(f, |more|), Append(tr, Value, more), rest, at + |more|)
    decreases |more|
  {
    hide Step, Stream, Append;
    if more == "" {
      assert more + rest == rest;
      AppendNothing(tr, Value);
    } else {
      var ch := more[0];
      assert more + rest == [ch] + (more[1..] + rest);
      StreamStep(f, tr, ch, more[1..] + rest, at);
      ValueNext(f, tr, ch, at);
      AppendEnds(tr, Value, [ch]);
      ReadPlainTail(Read(f, 1), Append(tr, Value, [ch]), more[1..], rest, at + 1);
      AppendTwice(tr, Value, [ch], more[1..]);
      assert [ch] + more[1..] == more;
    }
  }

  lemma LwsDispatch(f: Fields, ch: char)
    requires f.state.HeaderValueLws? && !IsBlank(ch)
    ensures Dispatch(f, ch, 1) == Dispatch(f.(state := HeaderFieldStart, flags := HeaderFlags(f)), ch, 1)
  {
    hide Transition, HeaderFlags;
    var g := f.(state := HeaderFieldStart, flags := HeaderFlags(f));
    HeaderStageByte(f, ch);
    var r := Dispatch(g, ch, 1);
    DispatchAgain(f, ch, Effect(g, [], 0, Again));
    assert [] + r.ops == r.ops;
  }

  lemma DispatchAgain(f: Fields, ch: char, e: Effect)
    requires Transition(f, ch, 1) == e && e.control.Again?
    ensures var r := Dispatch(e.next, ch, 1);
      Dispatch(f, ch, 1) == Effect(r.next, e.ops + r.ops, e.advance + r.advance, r.control)
  {
    hide Transition;
  }

  lemma DispatchOnce(f: Fields, ch: char)
    requires !Transition(f, ch, 1).control.Again?
    ensures Dispatch(f, ch, 1) == Transition(f, ch, 1)
  {
    hide Transition;
  }

  /** After the line break, the first byte of the next line finishes the header. */
  lemma LwsStep(f: Fields, tr: Trace, ch: char, at: nat)
    requires f.state.HeaderValueLws? && !IsBlank(ch) && Room(f, 1)
    ensures Step(f, tr, ch, at) == Step(f.(state := HeaderFieldStart, flags := HeaderFlags(f)), tr, ch, at)
  {
    hide Dispatch, Collects, HeaderFlags, IsBlank, EndsEmptyValue;
    LwsDispatch(Counted(f), ch);
    NoEmptyValue(f.state, HeaderFieldStart, ch);
    var f' := f.(state := HeaderFieldStart, flags := HeaderFlags(f));
    assert HeaderFlags(Counted(f)) == HeaderFlags(f) by { SameFlags(f, Counted(f)); }
    var e := Dispatch(Counted(f), ch, 1);
    assert Counted(f').(flags := f.flags) == Counted(f).(state := HeaderFieldStart);
    assert Extended(tr, f.state, e.next.state, ch, Events(e.ops)) ==
        Extended(tr, f'.state, e.next.state, ch, Events(e.ops));
  }

  lemma NoEmptyValue(s: State, s': State, ch: char)
    requires s.HeaderValueLws? && s'.HeaderFieldStart?
    ensures !EndsEmptyValue(s, ch) && !EndsEmptyValue(s', ch)
  {
  }

  lemma SameFlags(f: Fields, g: Fields)
    requires g.flags == f.flags && g.headerState == f.headerState
    ensures HeaderFlags(g) == HeaderFlags(f)
  {
  }

  lemma CrStep(f: Fields, tr: Trace, at: nat)
    requires f.state.HeaderValue? && Room(f, 1)
    ensures Step(f, tr, CR, at) == Running(Read(f, 1).(state := HeaderAlmostDone), tr)
  {
    hide Step, RequestByte, BodyByte, ValueByte;
    Quiet(f, tr, CR, at, Read(f, 1).(state := HeaderAlmostDone));
  }

  lemma LfStep(f: Fields, tr: Trace, at: nat)
    requires f.state.HeaderAlmostDone? && Room(f, 1)
    ensures Step(f, tr, LF, at) == Running(Read(f, 1).(state := HeaderValueLws), tr)
  {
    hide Step, RequestByte, BodyByte;
    Quiet(f, tr, LF, at, Read(f, 1).(state := HeaderValueLws));
  }

  lemma ReadCrLf(f: Fields, tr: Trace, rest: string, at: nat)
    requires f.state.HeaderValue? && Room(f, 2)
    ensures Stream(f, tr, [CR] + ([LF] + rest), at) == Stream(Read(f, 2).(state := HeaderValueLws), tr, rest, at + 2)
  {
    hide Stream, Step;
    StreamStep(f, tr, CR, [LF] + rest, at);
    CrStep(f, tr, at);
    var g1 := Read(f, 1).(state := HeaderAlmostDone);
    StreamStep(g1, tr, LF, rest, at + 1);
    LfStep(g1, tr, at + 1);
  }

  lemma ReadEol(f: Fields, tr: Trace, rest: string, at: nat)
    requires f.state.HeaderValue? && Room(f, 3) && rest != "" && !IsBlank(rest[0])
    ensures Stream(f, tr, "\r\n" + rest, at) ==
      Stream(Read(f, 2).(state := HeaderFieldStart, flags := HeaderFlags(f)), tr, rest, at + 2)
  {
    hide Stream, Step;
    assert "\r\n" + rest == [CR] + ([LF] + rest);
    ReadCrLf(f, tr, rest, at);
    var g2 := Read(f, 2).(state := HeaderValueLws);
    var g3 := g2.(state := HeaderFieldStart, flags := HeaderFlags(g2));
    LwsStep(g2, tr, rest[0], at + 2);
    assert rest == [rest[0]] + rest[1..];
    StreamStep(g2, tr, rest[0], rest[1..], at + 2);
    StreamStep(g3, tr, rest[0], rest[1..], at + 2);
  }

  function Line(name: string, value: string): string { name + ": " + value + "\r\n" }

  /** The two pieces of data a header line gives. */
  function LineTrace(tr: Trace, name: string, value: string): Trace {
    Append(Append(tr, Field, name), Value, value)
  }

  predicate IsValue(value: string) {
    value != "" && !IsBlank(value[0]) && forall i | 0 <= i < |value| :: !IsEol(value[i])
  }

  /** The name and colon, the blank, and the first byte of the value. */
  lemma ReadValueStart(f: Fields, tr: Trace, name: string, v: char, tail: string, at: nat)
    returns (h: Fields, g: Fields)
    requires f.state.HeaderFieldStart? && IsName(name) && !IsBlank(v) && !IsEol(v) && Room(f, |name| + 3)
    requires LowerCase(name) == CONTENT_LENGTH ==> IsNum(v)
    ensures h == Read(f, |name| + 3).(state := HeaderValueDiscardWs, headerState := h.headerState, index := h.index)
    ensures Track(h.headerState, h.index, LowerCase(name))
    ensures g == ValueStart(h, v).next && g.state == HeaderValue
    ensures Stream(f, tr, name + ":" + (" " + ([v] + tail)), at) ==
      Stream(g, Append(Append(tr, Field, name), Value, [v]), tail, at + |name| + 3)
  {
    hide Stream, Append, Step, Track, LowerCase, ValueStart;
    var f1 := ReadName(f, tr, name, " " + ([v] + tail), at);
    var t := Append(tr, Field, name);
    ReadBlank(f1, t, [v] + tail, at + |name| + 1);
    var f2 := Read(f1, 1);
    TrackExact(f2.headerState, f2.index, LowerCase(name));
    StreamStep(f2, t, v, tail, at + |name| + 2);
    ValueFirst(f2, t, v, at + |name| + 2);
    h := Read(f2, 1);
    g := ValueStart(h, v).next;
  }

  lemma ReadLineStart(f: Fields, tr: Trace, name: string, value: string, rest: string, at: nat)
    returns (h: Fields, g: Fields)
    requires f.state.HeaderFieldStart? && IsName(name) && IsValue(value) && Room(f, |name| + 3)
    requires LowerCase(name) == CONTENT_LENGTH ==> IsNum(value[0])
    ensures h == Read(f, |name| + 3).(state := HeaderValueDiscardWs, headerState := h.headerState, index := h.index)
    ensures Track(h.headerState, h.index, LowerCase(name))
    ensures g == ValueStart(h, value[0]).next && g.state == HeaderValue
    ensures Stream(f, tr, Line(name, value) + rest, at) ==
      Stream(g, Append(Append(tr, Field, name), Value, [value[0]]), value[1..] + ("\r\n" + rest), at + |name| + 3)
  {
    hide Stream, Append, Track, LowerCase, ValueStart;
    var tail := value[1..] + ("\r\n" + rest);
    assert Line(name, value) + rest == name + ":" + (" " + ([value[0]] + tail));
    h, g := ReadValueStart(f, tr, name, value[0], tail, at);
  }

  /** A header with no meaning to the parser. */
  predicate IsPlain(name: string) {
    LowerCase(name) !in {CONNECTION, PROXY_CONNECTION, CONTENT_LENGTH, TRANSFER_ENCODING, UPGRADE}
  }

  lemma ReadPlainLine(f: Fields, tr: Trace, name: string, value: string, rest: string, at: nat)
    returns (g: Fields)
    requires f.state.HeaderFieldStart? && IsName(name) && IsPlain(name) && IsValue(value)
    requires Room(f, |Line(name, value)| + 1) && rest != "" && !IsBlank(rest[0])
    ensures g == Read(f, |Line(name, value)|).(headerState := g.headerState, index := g.index)
    ensures Stream(f, tr, Line(name, value) + rest, at) ==
      Stream(g, LineTrace(tr, name, value), rest, at + |Line(name, value)|)
  {
    hide Stream, Append, Track, LowerCase;
    var h, f1 := ReadLineStart(f, tr, name, value, rest, at);
    TrackExact(h.headerState, h.index, LowerCase(name));
    assert f1 == h.(state := HeaderValue, index := 0, headerState := General);
    var t := Append(tr, Field, name);
    AppendEnds(t, Value, [value[0]]);
    ReadPlainTail(f1, Append(t, Value, [value[0]]), value[1..], "\r\n" + rest, at + |name| + 3);
    AppendTwice(t, Value, [value[0]], value[1..]);
    assert [value[0]] + value[1..] == value;
    var f2 := Read(f1, |value| - 1);
    ReadEol(f2, Append(t, Value, value), rest, at + |name| + 2 + |value|);
    g := Read(f2, 2).(state := HeaderFieldStart);
  }

  lemma ReadLengthLine(f: Fields, tr: Trace, name: string, value: string, rest: string, at: nat)
    returns (g: Fields)
    requires f.state.HeaderFieldStart? && IsName(name) && LowerCase(name) == CONTENT_LENGTH
    requires value != "" && AllDigits(10, value) && Number(10, 0, value) <= MaxLength(10)
    requires Room(f, |Line(name, value)| + 1) && rest != "" && !IsBlank(rest[0])
    ensures g == Read(f, |Line(name, value)|).(headerState := g.headerState, index := g.index,
                                               contentLength := Number(10, 0, value))
    ensures Number(10, 0, value) < ULLONG_MAX
    ensures Stream(f, tr, Line(name, value) + rest, at) ==
      Stream(g, LineTrace(tr, name, value), rest, at + |Line(name, value)|)
  {
    hide Stream, Append, Track, LowerCase, Unhex, Limit, MaxLength;
    DigitIsHex(value[0]);
    assert IsValue(value);
    var h, f1 := ReadLineStart(f, tr, name, value, rest, at);
    TrackExact(h.headerState, h.index, LowerCase(name));
    assert f1 == h.(state := HeaderValue, index := 0, contentLength := Digit(value[0]));
    var t := Append(tr, Field, name);
    AppendEnds(t, Value, [value[0]]);
    FitsExactly(10, 0, value);
    ReadLength(f1, Append(t, Value, [value[0]]), value[1..], "\r\n" + rest, at + |name| + 3);
    AppendTwice(t, Value, [value[0]], value[1..]);
    assert [value[0]] + value[1..] == value;
    var f2 := Read(f1, |value| - 1).(contentLength := Number(10, 0, value));
    ReadEol(f2, Append(t, Value, value), rest, at + |name| + 2 + |value|);
    g := Read(f2, 2).(state := HeaderFieldStart);
  }

  /** A value of Connection or Transfer-Encoding, from its second byte on. */
  lemma {:induction false} ReadFlagTail(f: Fields, tr: Trace, coding: bool, w: string, more: string, rest: string,
      at: nat)
    returns (g: Fields)
    requires f.state.HeaderValue? && EndsWith(tr, Value) && w != "" && TrackValue(coding, f.headerState, f.index, w)
    requires Room(f, |more|) && forall i | 0 <= i < |more| :: !IsEol(more[i])
    ensures g == Read(f, |more|).(headerState := g.headerState, index := g.index)
    ensures TrackValue(coding, g.headerState, g.index, w + more)
    ensures Stream(f, tr, more + rest, at) == Stream(g, Append(tr, Value, more), rest, at + |more|)
    decreases |more|
  {
    hide Stream, Step, Append, ValueByte, IsEol, TrackValue;
    if more == "" {
      assert more + rest == rest && w + more == w;
      AppendNothing(tr, Value);
      g := f;
    } else {
      var ch := more[0];
      TrackNextByte(coding, Read(f, 1), w, ch);
      assert more + rest == [ch] + (more[1..] + rest);
      StreamStep(f, tr, ch, more[1..] + rest, at);
      ValueNext(f, tr, ch, at);
      AppendEnds(tr, Value, [ch]);
      var f1 := ValueByte(Read(f, 1), ch).next;
      g := ReadFlagTail(f1, Append(tr, Value, [ch]), coding, w + [ch], more[1..], rest, at + 1);
      AppendTwice(tr, Value, [ch], more[1..]);
      assert [ch] + more[1..] == more && w + [ch] + more[1..] == w + more;
    }
  }

  /** A line of Connection, Proxy-Connection or Transfer-Encoding: the flags after it are those its
      value asks for. */
  lemma ReadFlagLine(f: Fields, tr: Trace, name: string, value: string, rest: string, at: nat)
    returns (g: Fields)
    requires f.state.HeaderFieldStart? && IsName(name) && (IsConnection(name) || IsCoding(name)) && IsValue(value)
    requires Room(f, |Line(name, value)| + 1) && rest != "" && !IsBlank(rest[0])
    ensures g == Read(f, |Line(name, value)|).(headerState := g.headerState, index := g.index,
                                               flags := Noted(f.flags, name, value))
    ensures Stream(f, tr, Line(name, value) + rest, at) ==
      Stream(g, LineTrace(tr, name, value), rest, at + |Line(name, value)|)
  {
    hide Stream, Append, Track, LowerCase, TrackValue, HeaderFlags, Noted;
    var h, f1 := ReadLineStart(f, tr, name, value, rest, at);
    TrackExact(h.headerState, h.index, LowerCase(name));
    TrackFirstByte(h, value[0]);
    var t := Append(tr, Field, name);
    AppendEnds(t, Value, [value[0]]);
    var f2 := ReadFlagTail(f1, Append(t, Value, [value[0]]), IsCoding(name), [value[0]], value[1..], "\r\n" + rest,
                           at + |name| + 3);
    AppendTwice(t, Value, [value[0]], value[1..]);
    assert [value[0]] + value[1..] == value;
    TrackedFlags(name, f2, value);
    ReadEol(f2, Append(t, Value, value), rest, at + |name| + 2 + |value|);
    g := Read(f2, 2).(state := HeaderFieldStart, flags := HeaderFlags(f2));
  }

  /** A Connection or Proxy-Connection line sets the flag for closing exactly if its value is "close",
      and the flag for keeping the connection exactly if it is "keep-alive", in any letter case and
      with nothing but spaces after it. It changes no other flag. */
  lemma ConnectionValueExact(f: Fields, tr: Trace, name: string, value: string, rest: string, at: nat)
    returns (g: Fields)
    requires f.state.HeaderFieldStart? && IsName(name) && LowerCase(name) in {CONNECTION, PROXY_CONNECTION}
    requires IsValue(value)
    requires Room(f, |Line(name, value)| + 1) && rest != "" && !IsBlank(rest[0])
    ensures Stream(f, tr, Line(name, value) + rest, at) ==
      Stream(g, LineTrace(tr, name, value), rest, at + |Line(name, value)|)
    ensures g.flags.close <==> f.flags.close || Means(value, CLOSE)
    ensures g.flags.keepAlive <==> f.flags.keepAlive || Means(value, KEEP_ALIVE)
    ensures g.flags == f.flags.(close := g.flags.close, keepAlive := g.flags.keepAlive)
    ensures g.state.HeaderFieldStart? && g.contentLength == f.contentLength
  {
    hide Stream, LineTrace, LowerCase, Means, Line;
    g := ReadFlagLine(f, tr, name, value, rest, at);
  }

  /* ---- the end of the head ---- */

  /** The fields after the blank line, and the events it gives. */
  function HeadRead(f: Fields): (Fields, Trace) {
    var g := f.(nread := 0, upgrade := f.flags.upgrade || f.verb == CONNECT);
    if f.flags.chunked then (g.(state := ChunkSizeStart), [Event(HeadersComplete)])
    else if f.contentLength == 0 || f.contentLength == ULLONG_MAX then
      (g.(state := NewMessage(f)), [Event(HeadersComplete), Event(MessageComplete(f.verb))])
    else (g.(state := BodyIdentity), [Event(HeadersComplete)])
  }

  lemma HeadEndDispatch(f: Fields)
    requires f.state.HeadersAlmostDone? && !f.flags.trailing && !f.flags.upgrade && f.verb != CONNECT
    ensures var e := Dispatch(f, LF, 1);
      && e.control.Break? && e.next == HeadRead(f).0 && Events(e.ops) == HeadRead(f).1
  {
    hide Transition, Dispatch, BodyStart, HeadRead, Events;
    var g := f.(state := HeadersDone, upgrade := false);
    var r := BodyStart(g, LF);
    HeadEndByte(f);
    BodyStartByte(f, g);
    DispatchAgain(f, LF, Effect(g, [Notify(HeadersComplete)], 0, Again));
    DispatchOnce(g, LF);
    EventsConcat([Notify(HeadersComplete)], r.ops);
  }

  lemma HeadEndByte(f: Fields)
    requires f.state.HeadersAlmostDone? && !f.flags.trailing && !f.flags.upgrade && f.verb != CONNECT
    ensures Transition(f, LF, 1) ==
      Effect(f.(state := HeadersDone, upgrade := false), [Notify(HeadersComplete)], 0, Again)
  {
    hide Transition;
    HeaderStageByte(f, LF);
  }

  lemma BodyStartByte(f: Fields, g: Fields)
    requires g == f.(state := HeadersDone, upgrade := false) && !f.flags.upgrade && f.verb != CONNECT
    ensures var r := BodyStart(g, LF);
      && Transition(g, LF, 1) == r && r.control.Break? && r.next == HeadRead(f).0
      && Events([Notify(HeadersComplete)]) + Events(r.ops) == HeadRead(f).1
  {
    hide Transition;
    HeaderStageByte(g, LF);
    hide HeaderByte;
    assert Events([Notify(HeadersComplete)]) == [Event(HeadersComplete)];
  }

  lemma BlankCr(f: Fields, tr: Trace, at: nat)
    requires f.state.HeaderFieldStart? && Room(f, 1)
    ensures Step(f, tr, CR, at) == Running(Read(f, 1).(state := HeadersAlmostDone), tr)
  {
    hide Step, RequestByte, BodyByte;
    Quiet(f, tr, CR, at, Read(f, 1).(state := HeadersAlmostDone));
  }

  lemma HeadReadSame(f: Fields, g: Fields)
    requires g == f.(state := g.state, nread := g.nread)
    ensures HeadRead(g) == HeadRead(f)
  {
  }

  lemma BlankLf(f: Fields, tr: Trace, at: nat)
    requires f.state.HeadersAlmostDone? && !f.flags.trailing && !f.flags.upgrade && f.verb != CONNECT && Room(f, 1)
    ensures Step(f, tr, LF, at) == Running(HeadRead(f).0, tr + HeadRead(f).1)
  {
    hide Dispatch, HeadRead, Collects, Carries;
    HeadEndDispatch(Read(f, 1));
    HeadReadSame(f, Read(f, 1));
    HeadReadCollects(f);
  }

  lemma HeadReadCollects(f: Fields)
    ensures Collects(HeadRead(f).0.state).None? && Carries(HeadersAlmostDone, HeadRead(f).0.state).None?
  {
  }

  lemma ReadBlankLine(f: Fields, tr: Trace, rest: string, at: nat)
    requires f.state.HeaderFieldStart? && Room(f, 2)
    requires !f.flags.trailing && !f.flags.upgrade && f.verb != CONNECT
    ensures Stream(f, tr, "\r\n" + rest, at) == Stream(HeadRead(f).0, tr + HeadRead(f).1, rest, at + 2)
  {
    hide Stream, HeadRead, Step;
    assert "\r\n" + rest == [CR] + ([LF] + rest);
    StreamStep(f, tr, CR, [LF] + rest, at);
    BlankCr(f, tr, at);
    var g := Read(f, 1).(state := HeadersAlmostDone);
    StreamStep(g, tr, LF, rest, at + 1);
    BlankLf(g, tr, at + 1);
    HeadReadSame(f, g);
  }

  /* ---- what the matchers recognise ---- */

  /** A header name, in any case, puts the parser on the watch for its value exactly when it is
      one of the five names with a meaning. */
  lemma HeaderNameExact(f: Fields, tr: Trace, name: string, at: nat)
    requires f.state.HeaderFieldStart? && IsName(name) && Room(f, |name| + 1)
    ensures var o, w := Stream(f, tr, name + ":", at), LowerCase(name);
      && o.Running? && o.f.state == HeaderValueDiscardWs
      && (o.f.headerState.Connection? <==> w == CONNECTION || w == PROXY_CONNECTION)
      && (o.f.headerState.ContentLength? <==> w == CONTENT_LENGTH)
      && (o.f.headerState.TransferEncoding? <==> w == TRANSFER_ENCODING)
      && (o.f.headerState.Upgrade? <==> w == UPGRADE)
  {
    hide Stream, Append, Track, LowerCase, IsName;
    var g := ReadName(f, tr, name, "", at);
    assert name + ":" + "" == name + ":";
    StreamNil(g, Append(tr, Field, name), at + |name| + 1);
    TrackExact(g.headerState, g.index, LowerCase(name));
  }

  lemma FirstDigit(h: Fields, v: char)
    requires h.headerState.ContentLength? && IsNum(v)
    ensures ValueStart(h, v).next == h.(state := HeaderValue, index := 0, contentLength := Digit(v))
  {
    hide Lower;
  }

  /** A Content-Length of decimal digits is stored as the number it spells if that is at most
      MaxLength(10), which is 18446744073709551609, and refused otherwise; a stored length has
      not wrapped and is not the sentinel for "no length". */
  lemma ContentLengthExact(f: Fields, tr: Trace, name: string, value: string, at: nat)
    requires f.state.HeaderFieldStart? && IsName(name) && LowerCase(name) == CONTENT_LENGTH
    requires value != "" && AllDigits(10, value) && Room(f, |name| + 2 + |value|)
    ensures var o, n := Stream(f, tr, name + ": " + value, at), Number(10, 0, value);
      if n <= MaxLength(10) then o.Running? && o.f.contentLength == n < ULLONG_MAX
      else o.Failed? && o.f.errno == InvalidContentLength
  {
    hide Stream, Append, Track, LowerCase, Unhex, Limit, MaxLength, ValueStart, IsName, Lower;
    var v, tail := value[0], value[1..] + "";
    DigitIsHex(v);
    FitsExactly(10, 0, value);
    assert name + ": " + value == name + ":" + (" " + ([v] + tail));
    var h, g := ReadValueStart(f, tr, name, v, tail, at);
    TrackExact(h.headerState, h.index, LowerCase(name));
    FirstDigit(h, v);
    var t := Append(Append(tr, Field, name), Value, [v]);
    AppendEnds(Append(tr, Field, name), Value, [v]);
    ReadLength(g, t, value[1..], "", at + |name| + 3);
    if Fits(10, 0, value) {
      StreamNil(Read(g, |value| - 1).(contentLength := Number(10, 0, value)), Append(t, Value, value[1..]),
                at + |name| + 2 + |value|);
    }
  }
}
