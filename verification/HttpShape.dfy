/** What the operations of one byte look like, from the states around it. */
module HttpShape {
  import opened Wrappers
  import opened HttpChars
  import opened HttpMachine
  import opened HttpStream

  /** The mark operations expected around a byte outside the body. */
  function Framing(before: State, after: State, ch: char): (ops: seq<Op>)
    ensures forall i | 0 <= i < |ops| :: ops[i].Deliver? ==> ops[i].extra == 0
  {
    if EndsEmptyValue(before, ch) then [Mark(Value), Deliver(Value, 0)] + Marking(before, after)
    else Marking(before, after)
  }

  function Marking(before: State, after: State): (ops: seq<Op>)
    ensures forall i | 0 <= i < |ops| :: ops[i].Deliver? ==> ops[i].extra == 0
  {
    if before.ChunkDataAlmostDone? then [Deliver(Body, 0)]
    else if Collects(before) == Collects(after) then []
    else if Collects(before).Some? then [Deliver(Collects(before).value, 0)]
    else [Mark(Collects(after).value)]
  }

  /** The operations `ops` frame a step from `before` to `after`, and then only notify. */
  predicate Framed(before: State, after: State, ch: char, ops: seq<Op>) {
    var n := |Framing(before, after, ch)|;
    Framing(before, after, ch) <= ops && (forall i | n <= i < |ops| :: ops[i].Notify?)
    && (Collects(before).Some? && Collects(after).Some? ==> Collects(before) == Collects(after))
    && (Collects(after).Some? ==> n == |ops|)
  }

  lemma UrlStates(s: State, ch: char)
    ensures var t := ParseUrlChar(s, ch); t.Dead? || Collects(t) == Some(Url)
  {
  }

  lemma UrlShape(f: Fields, ch: char)
    requires Collects(f.state) == Some(Url)
    ensures forall e | e == UrlByte(f, f.state, ch, []) || e == UrlOrEnd(f, ch) ::
      !e.control.Exit? && (!e.control.Fail? ==> e.advance == 0 && Framed(f.state, e.next.state, ch, e.ops))
  {
    UrlStates(f.state, ch);
    hide ParseUrlChar;
  }

  /** What is shown of one pass in a request line state. */
  predicate GoodRequest(f: Fields, ch: char) {
    var e := RequestByte(f, ch);
    !e.control.Exit? && (!e.control.Fail? ==> e.advance == 0 && Framed(f.state, e.next.state, ch, e.ops))
  }

  lemma MethodShape(f: Fields, ch: char)
    requires f.state.ReqMethod?
    ensures GoodRequest(f, ch)
  {
  }

  lemma SpacesShape(f: Fields, ch: char)
    requires f.state.ReqSpacesBeforeUrl?
    ensures GoodRequest(f, ch)
  {
    UrlStates(f.state, ch);
    UrlStates(ReqServerStart, ch);
    hide ParseUrlChar;
  }

  lemma StartShape(f: Fields, ch: char)
    requires f.state.Dead? || f.state.StartReq?
    ensures GoodRequest(f, ch)
  {
    hide UrlByte, UrlOrEnd, MethodByte, FirstMethod, IsAlpha, Digit, VersionDigits;
  }

  /** The states of the letters "HTTP/" and of the end of the request line. */
  predicate InLetters(s: State) {
    s.ReqHttpStart? || s.ReqHttpH? || s.ReqHttpHT? || s.ReqHttpHTT? || s.ReqHttpHTTP? || s.ReqLineAlmostDone?
  }

  lemma LettersShape(f: Fields, ch: char)
    requires InLetters(f.state)
    ensures GoodRequest(f, ch)
  {
    hide UrlByte, UrlOrEnd, MethodByte, FirstMethod, IsAlpha, Digit, VersionDigits;
  }

  lemma DigitsShape(f: Fields, ch: char)
    requires f.state.ReqFirstHttpMajor? || f.state.ReqHttpMajor? || f.state.ReqFirstHttpMinor? || f.state.ReqHttpMinor?
    ensures GoodRequest(f, ch)
  {
    hide UrlByte, UrlOrEnd, MethodByte, FirstMethod, IsAlpha, Digit, VersionDigits;
  }

  lemma RequestShape(f: Fields, ch: char)
    requires StageOf(f.state).RequestStage?
    ensures GoodRequest(f, ch)
  {
    if Collects(f.state).Some? {
      UrlShape(f, ch);
      hide UrlByte, UrlOrEnd;
    } else if f.state.ReqMethod? {
      MethodShape(f, ch);
      hide GoodRequest;
    } else if f.state.ReqSpacesBeforeUrl? {
      SpacesShape(f, ch);
      hide GoodRequest;
    } else if f.state.Dead? || f.state.StartReq? {
      StartShape(f, ch);
      hide GoodRequest;
    } else if InLetters(f.state) {
      LettersShape(f, ch);
      hide GoodRequest;
    } else {
      DigitsShape(f, ch);
      hide GoodRequest;
    }
  }

  /** The bytes inside a header name or value touch no mark and leave the state alone. */
  lemma InnerBytes(f: Fields, c: char, ch: char)
    ensures FieldByte(f, c, ch).ops == [] == ValueByte(f, ch).ops
    ensures FieldByte(f, c, ch).next.state == f.state == ValueByte(f, ch).next.state
    ensures FieldByte(f, c, ch).advance == 0 == ValueByte(f, ch).advance
    ensures forall e | e == FieldByte(f, c, ch) || e == ValueByte(f, ch) :: !e.control.Again? && !e.control.Exit?
  {
    hide Lower;
  }

  lemma FirstValueByte(f: Fields, ch: char)
    ensures var e := ValueStart(f, ch); 
      e.ops == [Mark(Value)] && e.next.state == HeaderValue && e.advance == 0
      && !e.control.Again? && !e.control.Exit?
  {
  }

  /** What is shown of one pass in a header state. */
  predicate GoodHeader(f: Fields, ch: char) {
    var e := HeaderByte(f, ch);
    && e.advance == 0
    && (e.control.Break? || e.control.Exit? ==> Framed(f.state, e.next.state, ch, e.ops))
    && (e.control.Exit? ==> Collects(e.next.state).None?)
  }

  lemma HeadEndShape(f: Fields, ch: char)
    requires f.state.HeadersAlmostDone? || f.state.HeadersDone?
    ensures GoodHeader(f, ch)
  {
  }

  lemma InnerShape(f: Fields, ch: char)
    requires f.state.HeaderField? || f.state.HeaderValue?
    ensures GoodHeader(f, ch)
  {
    InnerBytes(f, Token(ch), ch);
    hide FieldByte, ValueByte, Token;
  }

  lemma BetweenShape(f: Fields, ch: char)
    requires StageOf(f.state).HeaderStage?
    requires !(f.state.HeadersAlmostDone? || f.state.HeadersDone? || f.state.HeaderField? || f.state.HeaderValue?)
    ensures GoodHeader(f, ch)
  {
    hide ValueStart, FirstHeaderState, Token, HeaderFlags;
    FirstValueByte(f, ch);
  }

  lemma HeaderShape(f: Fields, ch: char)
    requires StageOf(f.state).HeaderStage?
    ensures GoodHeader(f, ch)
  {
    hide GoodHeader;
    if f.state.HeadersAlmostDone? || f.state.HeadersDone? {
      HeadEndShape(f, ch);
    } else if f.state.HeaderField? || f.state.HeaderValue? {
      InnerShape(f, ch);
    } else {
      BetweenShape(f, ch);
    }
  }

  lemma BodyShape(f: Fields, ch: char, avail: nat)
    requires avail > 0 && StageOf(f.state).BodyStage? && !InBody(f.state)
    ensures var e := BodyByte(f, ch, avail);
      && e == BodyByte(f, ch, 1) && !e.control.Again? && e.advance == 0
      && (e.control.Break? || e.control.Exit? ==> Framed(f.state, e.next.state, ch, e.ops))
      && (e.control.Fail? ==> e.ops == [])
      && !e.control.Exit? && Collects(e.next.state).None?
  {
    hide Unhex, TakeBody;
  }

  /** Every way a header state asks for its byte to be looked at again. */
  lemma AgainShape(f: Fields, ch: char)
    requires StageOf(f.state).HeaderStage? && HeaderByte(f, ch).control.Again?
    ensures Passed(f.state, ch, HeaderByte(f, ch))
  {
    InnerBytes(f, Token(ch), ch);
    FirstValueByte(f, ch);
    hide ValueStart, FieldByte, ValueByte, Token, FirstHeaderState;
  }

  /** What a failed byte may have done to marks and callbacks. */
  predicate FailOps(s: State, ch: char, ops: seq<Op>) {
    if EndsEmptyValue(s, ch) then ops == [Mark(Value), Deliver(Value, 0)]
    else ops == [] || (|ops| == 1 && ops[0].Mark? && !s.HeaderFieldStart? && !s.HeadersAlmostDone?)
  }

  lemma RequestFail(f: Fields, ch: char)
    requires RequestByte(f, ch).control.Fail? && StageOf(f.state).RequestStage?
    ensures FailOps(f.state, ch, RequestByte(f, ch).ops)
  {
    hide ParseUrlChar, OtherMethod, MethodName, FirstMethod, IsAlpha;
  }

  lemma HeaderFail(f: Fields, ch: char)
    requires HeaderByte(f, ch).control.Fail? && StageOf(f.state).HeaderStage?
    ensures FailOps(f.state, ch, HeaderByte(f, ch).ops)
  {
    InnerBytes(f, Token(ch), ch);
    FirstValueByte(f, ch);
    hide ValueStart, FieldByte, ValueByte, Token;
  }

  predicate Shaped(f: Fields, ch: char, e: Effect) {
    && e.advance == 0
    && (e.control.Break? || e.control.Exit? ==> Framed(f.state, e.next.state, ch, e.ops))
    && (e.control.Fail? ==> FailOps(f.state, ch, e.ops))
    && (f.state.HeadersDone? || f.state.ChunkDataAlmostDone? || e.control.Exit? ==> Collects(e.next.state).None?)
  }

  /** How a byte that is looked at again in state `next` was left by its first pass. */
  predicate Passed(before: State, ch: char, e: Effect) {
    match before
    case HeaderFieldStart => e.next.state == HeadersAlmostDone && e.ops == []
    case HeaderValue => e.next.state == HeaderAlmostDone && e.ops == [Deliver(Value, 0)] && ch == LF
    case HeaderValueLws => e.ops == [] && (e.next.state.HeaderValueStart? || e.next.state.HeaderFieldStart?)
    case HeaderValueDiscardLws =>
      e.next.state.HeaderFieldStart? && e.ops == [Mark(Value), Deliver(Value, 0)] && !IsBlank(ch)
    case HeadersAlmostDone => e.next.state.HeadersDone? && e.ops == [Notify(HeadersComplete)] && ch == LF
    case _ => false
  }

  /** A first pass that asks for another, followed by all the others. */
  lemma Compose(f: Fields, ch: char, e: Effect, r: Effect)
    requires Passed(f.state, ch, e) && Shaped(e.next, ch, r)
    requires f.state.HeaderValue? ==> r == To(e.next, HeaderValueLws)
    requires e.advance == 0
    requires e.next.state.HeadersDone? ==> !r.control.Fail?
    ensures Shaped(f, ch, Effect(r.next, e.ops + r.ops, e.advance + r.advance, r.control))
  {
  }

  lemma HeaderEnds(f: Fields)
    ensures f.state.HeaderAlmostDone? ==> Dispatch(f, LF, 1) == To(f, HeaderValueLws)
    ensures f.state.HeadersDone? ==> !Dispatch(f, LF, 1).control.Fail? && Collects(Dispatch(f, LF, 1).next.state).None?
  {
    if f.state.HeaderAlmostDone? {
      assert HeaderByte(f, LF) == To(f, HeaderValueLws);
    } else if f.state.HeadersDone? {
      assert HeaderByte(f, LF) == BodyStart(f, LF);
    }
    hide HeaderByte;
  }

  lemma HeadersDoneShape(f: Fields, ch: char)
    requires f.state.HeadersDone?
    ensures var e := HeaderByte(f, ch); !e.control.Again? && Collects(e.next.state).None?
  {
    assert HeaderByte(f, ch) == BodyStart(f, ch);
    hide HeaderByte;
  }

  /** Outside the body, the operations of a byte are fixed by the states around it, and the
      rest of the buffer does not matter. */
  lemma {:induction false} DispatchShape(f: Fields, ch: char, avail: nat)
    requires avail > 0 && !InBody(f.state)
    ensures Dispatch(f, ch, avail) == Dispatch(f, ch, 1)
    ensures Shaped(f, ch, Dispatch(f, ch, avail))
    decreases Rank(f.state)
  {
    match StageOf(f.state)
    case RequestStage =>
      RequestNeverAgain(f, ch);
      RequestShape(f, ch);
      if RequestByte(f, ch).control.Fail? { RequestFail(f, ch); }
      hide RequestByte;
    case BodyStage =>
      BodyShape(f, ch, avail);
      hide BodyByte;
    case HeaderStage => HeaderDispatchShape(f, ch, avail);
  }

  lemma {:induction false} HeaderDispatchShape(f: Fields, ch: char, avail: nat)
    requires avail > 0 && StageOf(f.state).HeaderStage?
    ensures Dispatch(f, ch, avail) == Dispatch(f, ch, 1)
    ensures Shaped(f, ch, Dispatch(f, ch, avail))
    decreases Rank(f.state), 0
  {
    HeaderShape(f, ch);
    var e := HeaderByte(f, ch);
    if e.control.Again? {
      AgainShape(f, ch);
      AgainLowersRank(f, ch, avail);
      DispatchShape(e.next, ch, 1);
      HeaderEnds(e.next);
      Compose(f, ch, e, Dispatch(e.next, ch, 1));
    } else {
      if e.control.Fail? { HeaderFail(f, ch); }
      if f.state.HeadersDone? { HeadersDoneShape(f, ch); }
    }
    hide HeaderByte, Shaped, Framed;
  }
}
