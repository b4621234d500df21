/** The method name matcher: it accepts exactly the 27 method names. */
module HttpMethods {
  import opened Wrappers
  import opened HttpChars
  import opened HttpMachine
  import opened HttpStream

  /** Enough of the header budget is left for `n` more bytes. */
  predicate Room(f: Fields, n: nat) { f.nread + n <= MAX_HEADER_SIZE }

  /** The fields after `n` more counted bytes. */
  function Read(f: Fields, n: nat): Fields { f.(nread := f.nread + n) }

  /** The first byte of a stream, and the rest. */
  lemma StreamStep(f: Fields, tr: Trace, ch: char, rest: string, at: nat)
    ensures Stream(f, tr, [ch] + rest, at) ==
      match Step(f, tr, ch, at)
      case Running(g, t) => Stream(g, t, rest, at + 1)
      case stopped => stopped
  {
    assert ([ch] + rest)[1..] == rest;
    hide Step;
  }

  /* ---- how the guesses depend on each other ---- */

  /** The guess from which `m` is reached. */
  function Parent(m: Method): Method {
    match m
    case CHECKOUT => CONNECT case COPY => CONNECT
    case MOVE => MKCOL case MERGE => MKCOL case MSEARCH => MKCOL case MKACTIVITY => MKCOL case MKCALENDAR => MKCOL
    case SEARCH => SUBSCRIBE
    case PROPFIND => POST case PUT => POST case PATCH => POST
    case PURGE => PUT case UNSUBSCRIBE => UNLOCK case PROPPATCH => PROPFIND
    case _ => m
  }

  /** The number of characters after which `m` is the guess. */
  function Since(m: Method): nat {
    match m
    case CHECKOUT => 2 case COPY => 3
    case MOVE => 2 case MERGE => 2 case MSEARCH => 2 case MKACTIVITY => 3 case MKCALENDAR => 4
    case SEARCH => 2
    case PROPFIND => 2 case PUT => 2 case PATCH => 2
    case PURGE => 3 case UNSUBSCRIBE => 3 case PROPPATCH => 5
    case _ => 1
  }

  /** The guess after `i` characters of the name of `m`. */
  function GuessAt(m: Method, i: nat): Method
    decreases Since(m)
  {
    if i >= Since(m) || Since(m) == 1 then m else GuessAt(Parent(m), i)
  }

  predicate Initial(m: Method) {
    1 <= Since(m) <= |MethodName(m)|
    && (Since(m) == 1 ==> FirstMethod(MethodName(m)[0]) == Some(m) && IsAlpha(MethodName(m)[0]))
  }

  /** A method and its parent part ways where the matcher switches. */
  predicate Switched(m: Method) {
    var i := Since(m) - 1;
    i > 0 ==>
      && i < |MethodName(m)| && i < |MethodName(Parent(m))| && Since(Parent(m)) <= i
      && (forall j | 0 <= j < i :: MethodName(m)[j] == MethodName(Parent(m))[j])
      && MethodName(m)[i] != MethodName(Parent(m))[i]
      && OtherMethod(Parent(m), i, MethodName(m)[i]) == Some(m)
  }

  lemma InitialGuess(m: Method)
    ensures Initial(m)
  {
  }

  lemma SwitchConnect(m: Method)
    requires Parent(m) == CONNECT
    ensures Switched(m)
  {
  }

  lemma SwitchOthers(m: Method)
    requires Parent(m) == SUBSCRIBE || Parent(m) == UNLOCK
    ensures Switched(m)
  {
  }

  lemma SwitchMkcol(m: Method)
    requires Parent(m) == MKCOL
    ensures Switched(m)
  {
  }

  lemma SwitchPost(m: Method)
    requires Parent(m) == POST
    ensures Switched(m)
  {
  }

  lemma SwitchPutPropfind(m: Method)
    requires Parent(m) == PUT || Parent(m) == PROPFIND
    ensures Switched(m)
  {
  }

  lemma Switch(m: Method)
    ensures Initial(m) && Switched(m)
  {
    hide Initial, MethodName, OtherMethod;
    InitialGuess(m);
    if Since(m) > 1 {
      hide Switched;
      match Parent(m)
      case MKCOL => SwitchMkcol(m);
      case POST => SwitchPost(m);
      case PUT => SwitchPutPropfind(m);
      case PROPFIND => SwitchPutPropfind(m);
      case CONNECT => SwitchConnect(m);
      case _ => SwitchOthers(m);
    }
  }

  lemma NameChars(m: Method)
    ensures forall j | 0 <= j < |MethodName(m)| :: MethodName(m)[j] >= '-'
  {
  }

  /** A switch leads from a parent to its child, on the child's character. */
  lemma OtherParent(m: Method, i: nat, ch: char)
    requires OtherMethod(m, i, ch).Some?
    ensures Parent(OtherMethod(m, i, ch).value) == m
  {
    hide Since, MethodName;
  }

  lemma OtherSince(m: Method, i: nat, ch: char)
    requires OtherMethod(m, i, ch).Some?
    ensures Since(OtherMethod(m, i, ch).value) == i + 1 && i >= 1
  {
    hide Parent, MethodName;
  }

  lemma OtherOnce(m: Method, i: nat, ch: char)
    requires OtherMethod(m, i, ch).Some?
    ensures forall b | OtherMethod(m, i, ch) == OtherMethod(m, i, b) :: ch == b
  {
  }

  lemma OtherIsChild(m: Method, i: nat, ch: char)
    requires OtherMethod(m, i, ch).Some?
    ensures var c := OtherMethod(m, i, ch).value;
      Parent(c) == m && Since(c) == i + 1 && i >= 1 && i < |MethodName(c)| && MethodName(c)[i] == ch
  {
    hide MethodName, OtherMethod;
    OtherParent(m, i, ch);
    OtherSince(m, i, ch);
    OtherOnce(m, i, ch);
    Switch(OtherMethod(m, i, ch).value);
  }

  /** The guess after the next character is the same one, or the one switched to. */
  lemma {:induction false} GuessStep(m: Method, i: nat)
    requires 1 <= i < |MethodName(m)|
    ensures var v, ch := GuessAt(m, i), MethodName(m)[i];
      if i < |MethodName(v)| && ch == MethodName(v)[i] then GuessAt(m, i + 1) == v
      else i <= |MethodName(v)| && OtherMethod(v, i, ch) == Some(GuessAt(m, i + 1))
    decreases Since(m)
  {
    hide MethodName, OtherMethod;
    if i < Since(m) && Since(m) > 1 {
      Switch(m);
      if i + 1 < Since(m) {
        GuessStep(Parent(m), i);
      }
    }
  }

  /** One character of the method name. */
  lemma MethodStep(f: Fields, tr: Trace, ch: char, at: nat)
    requires f.state.ReqMethod? && Room(f, 1)
    ensures var e := MethodByte(Read(f, 1), ch);
      Step(f, tr, ch, at) ==
        match e.control case Break => Running(e.next, tr) case Fail => Failed(e.next, at, tr) case _ => Aborted
  {
    hide MethodName, OtherMethod;
    assert RequestByte(Read(f, 1), ch) == MethodByte(Read(f, 1), ch) by { hide MethodByte; }
    hide RequestByte;
  }

  lemma GuessByte(f: Fields, m: Method, i: nat)
    requires f.verb == GuessAt(m, i) && f.index == i && 1 <= i < |MethodName(m)|
    ensures MethodByte(f, MethodName(m)[i]) == Stay(f.(verb := GuessAt(m, i + 1), index := i + 1))
  {
    hide MethodName, OtherMethod, GuessAt;
    NameChars(m);
    GuessStep(m, i);
  }

  lemma {:induction false} ReadMethod(f: Fields, m: Method, i: nat, tr: Trace, rest: string, at: nat)
    requires f.state.ReqMethod? && f.verb == GuessAt(m, i) && f.index == i
    requires 1 <= i <= |MethodName(m)| && Room(f, |MethodName(m)| - i)
    ensures var n := |MethodName(m)| - i;
      Stream(f, tr, MethodName(m)[i..] + rest, at) ==
        Stream(Read(f, n).(verb := m, index := |MethodName(m)|), tr, rest, at + n)
    decreases |MethodName(m)| - i
  {
    hide MethodName, OtherMethod, Stream, Step, MethodByte, GuessAt;
    var name := MethodName(m);
    if i == |name| {
      FullGuess(m);
      assert name[i..] + rest == rest;
    } else {
      assert name[i..] + rest == [name[i]] + (name[i + 1..] + rest);
      StreamStep(f, tr, name[i], name[i + 1..] + rest, at);
      MethodStep(f, tr, name[i], at);
      GuessByte(Read(f, 1), m, i);
      ReadMethod(Read(f, 1).(verb := GuessAt(m, i + 1), index := i + 1), m, i + 1, tr, rest, at + 1);
    }
  }

  lemma FullGuess(m: Method)
    ensures GuessAt(m, |MethodName(m)|) == m
  {
  }

  /** The fields after a method name and the space behind it. */
  function Verbed(f: Fields, m: Method): Fields {
    var n := |MethodName(m)| + 1;
    Read(f, n).(state := ReqSpacesBeforeUrl, verb := m, index := n, flags := NO_FLAGS, contentLength := ULLONG_MAX)
  }

  lemma FirstStep(f: Fields, tr: Trace, ch: char, at: nat)
    requires f.state.StartReq? && Room(f, 1) && !IsEol(ch)
    ensures var g := Read(f, 1).(flags := NO_FLAGS, contentLength := ULLONG_MAX, index := 1, state := ReqMethod);
      match Step(f, tr, ch, at)
      case Running(h, t) => FirstMethod(ch).Some? && h == g.(verb := FirstMethod(ch).value)
          && t == tr + [Event(MessageBegin)]
      case Failed(_, _, _) => true
      case _ => false
    ensures IsAlpha(ch) && FirstMethod(ch).Some? ==> Step(f, tr, ch, at).Running?
  {
    hide FirstMethod, IsAlpha, HeaderByte, BodyByte;
  }

  lemma SpaceStep(f: Fields, tr: Trace, at: nat)
    requires f.state.ReqMethod? && Room(f, 1) && f.index == |MethodName(f.verb)|
    ensures Step(f, tr, ' ', at) == Running(Read(f, 1).(state := ReqSpacesBeforeUrl, index := f.index + 1), tr)
  {
    hide MethodName, OtherMethod;
    MethodStep(f, tr, ' ', at);
    hide Step;
  }

  /** Each of the 27 names is read as the method it names. */
  lemma ReadVerb(f: Fields, m: Method, tr: Trace, rest: string, at: nat)
    requires f.state.StartReq? && Room(f, |MethodName(m)| + 1)
    ensures Stream(f, tr, MethodName(m) + " " + rest, at) ==
      Stream(Verbed(f, m), tr + [Event(MessageBegin)], rest, at + |MethodName(m)| + 1)
  {
    hide MethodName, OtherMethod, Stream, Step, FirstMethod, IsAlpha, GuessAt;
    var name := MethodName(m);
    Switch(m);
    NameChars(m);
    FirstGuess(m);
    var t := tr + [Event(MessageBegin)];
    assert name + " " + rest == [name[0]] + (name[1..] + ([' '] + rest));
    StreamStep(f, tr, name[0], name[1..] + ([' '] + rest), at);
    FirstStep(f, tr, name[0], at);
    var g := Read(f, 1).(flags := NO_FLAGS, contentLength := ULLONG_MAX, index := 1, state := ReqMethod,
                         verb := GuessAt(m, 1));
    ReadMethod(g, m, 1, t, [' '] + rest, at + 1);
    var h := Read(g, |name| - 1).(verb := m, index := |name|);
    StreamStep(h, t, ' ', rest, at + |name|);
    SpaceStep(h, t, at + |name|);
  }

  lemma {:induction false} FirstGuess(m: Method)
    ensures FirstMethod(MethodName(m)[0]) == Some(GuessAt(m, 1)) && IsAlpha(MethodName(m)[0])
    decreases Since(m)
  {
    hide MethodName, FirstMethod, IsAlpha;
    Switch(m);
    if Since(m) > 1 { FirstGuess(Parent(m)); }
  }

  /* ---- and nothing else is ---- */

  /** `w` is what the matcher has read. */
  predicate Spelt(f: Fields, w: string) {
    f.state.ReqMethod? && f.index == |w| <= |MethodName(f.verb)|
    && forall j | 0 <= j < |w| :: w[j] == MethodName(f.verb)[j]
  }

  lemma SpellSwitch(m: Method, w: string, ch: char)
    requires OtherMethod(m, |w|, ch).Some? && |w| <= |MethodName(m)|
    requires forall j | 0 <= j < |w| :: w[j] == MethodName(m)[j]
    ensures var c := OtherMethod(m, |w|, ch).value;
      |w| < |MethodName(c)| && forall j | 0 <= j <= |w| :: (w + [ch])[j] == MethodName(c)[j]
  {
    hide MethodName, OtherMethod;
    OtherIsChild(m, |w|, ch);
    Switch(OtherMethod(m, |w|, ch).value);
  }

  lemma SpellByte(f: Fields, w: string, ch: char)
    requires Spelt(f, w) && 1 <= |w| && ch != ' '
    ensures var e := MethodByte(f, ch); e.control.Break? ==> Spelt(e.next, w + [ch])
  {
    hide MethodName, OtherMethod;
    if OtherMethod(f.verb, |w|, ch).Some? {
      SpellSwitch(f.verb, w, ch);
    }
  }

  lemma NoRoom(f: Fields, tr: Trace, ch: char, at: nat)
    requires ParsingHeader(f.state) && !Room(f, 1)
    ensures Step(f, tr, ch, at).Failed?
  {
    hide Dispatch;
  }

  lemma SpellStep(f: Fields, w: string, tr: Trace, ch: char, at: nat)
    requires Spelt(f, w) && 1 <= |w| && ch != ' '
    ensures match Step(f, tr, ch, at) case Running(g, _) => Spelt(g, w + [ch]) case _ => true
  {
    hide Step, MethodByte, MethodName;
    if Room(f, 1) {
      MethodStep(f, tr, ch, at);
      SpellByte(Read(f, 1), w, ch);
    } else {
      NoRoom(f, tr, ch, at);
    }
  }

  lemma {:induction false} Spelling(f: Fields, w: string, tr: Trace, more: string, at: nat)
    requires Spelt(f, w) && 1 <= |w| && ' ' !in more
    ensures match Stream(f, tr, more, at) case Running(g, _) => Spelt(g, w + more) case _ => true
    decreases |more|
  {
    hide Step, Spelt, MethodByte;
    if more == "" {
      assert w + more == w;
    } else {
      SpellStep(f, w, tr, more[0], at);
      match Step(f, tr, more[0], at)
      case Running(g, t) =>
        Spelling(g, w + [more[0]], t, more[1..], at + 1);
        assert w + [more[0]] + more[1..] == w + more;
      case _ =>
    }
  }

  /** The outcome is a request whose method name has just been accepted. */
  predicate Accepted(o: Outcome) { o.Running? && o.f.state.ReqSpacesBeforeUrl? }

  /** The method of a request is recognised exactly when the bytes before the first space are
      the name of one of the 27 methods, and it is then that method. */
  lemma MethodExact(f: Fields, tr: Trace, w: string, at: nat)
    requires f.state.StartReq? && Room(f, |w| + 1)
    requires w != "" && ' ' !in w && !IsEol(w[0])
    ensures Accepted(Stream(f, tr, w + " ", at)) <==> exists m :: w == MethodName(m)
    ensures var o := Stream(f, tr, w + " ", at); Accepted(o) ==> w == MethodName(o.f.verb)
  {
    hide MethodName, OtherMethod, Stream, Step, FirstMethod, IsAlpha;
    if m :| w == MethodName(m) {
      ReadVerb(f, m, tr, "", at);
      assert w + " " + "" == w + " ";
      StreamNil(Verbed(f, m), tr + [Event(MessageBegin)], at + |w| + 1);
    }
    if Accepted(Stream(f, tr, w + " ", at)) {
      assert w + " " == [w[0]] + (w[1..] + " ");
      StreamStep(f, tr, w[0], w[1..] + " ", at);
      FirstStep(f, tr, w[0], at);
      var o := Step(f, tr, w[0], at);
      FirstSpelt(w[0]);
      StreamSplit(o.f, o.tr, w[1..], " ", at + 1);
      Spelling(o.f, [w[0]], o.tr, w[1..], at + 1);
      assert [w[0]] + w[1..] == w;
      var p := Stream(o.f, o.tr, w[1..], at + 1);
      assert " " == [' '] + "";
      StreamStep(p.f, p.tr, ' ', "", at + |w|);
      SpaceNeedsName(p.f, p.tr, at + |w|);
    }
  }

  lemma StreamNil(f: Fields, tr: Trace, at: nat)
    ensures Stream(f, tr, "", at) == Running(f, tr)
  {
  }

  lemma {:induction false} FirstSpelt(ch: char)
    requires FirstMethod(ch).Some?
    ensures MethodName(FirstMethod(ch).value)[0] == ch
  {
  }

  /** A space ends the method name only where a name ends. */
  lemma SpaceNeedsName(f: Fields, tr: Trace, at: nat)
    requires f.state.ReqMethod? && f.index <= |MethodName(f.verb)|
    ensures match Step(f, tr, ' ', at)
      case Running(g, _) => f.index == |MethodName(f.verb)| && g.verb == f.verb
      case _ => true
  {
    hide MethodName, Step;
    if Room(f, 1) {
      MethodStep(f, tr, ' ', at);
      NameChars(f.verb);
    } else {
      NoRoom(f, tr, ' ', at);
    }
  }
}
