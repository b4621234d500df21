/** The header name matcher: it recognises exactly the names it looks for, in any case. */
module HttpHeaders {
  import opened Wrappers
  import opened HttpChars
  import opened HttpMachine
  import opened HttpStream
  import opened HttpMethods

  /** A header name, and its lower-case form. */
  predicate IsName(w: string) { w != "" && forall i | 0 <= i < |w| :: Token(w[i]) != '\0' }

  function LowerCase(w: string): string {
    seq(|w|, i requires 0 <= i < |w| => Token(w[i]))
  }

  /** `w` begins none of the names the matcher looks for. */
  predicate BeginsNone(w: string) {
    !(w <= CONNECTION) && !(w <= PROXY_CONNECTION) && !(w <= CONTENT_LENGTH)
    && !(w <= TRANSFER_ENCODING) && !(w <= UPGRADE)
  }

  /** What the matcher knows after the lower-case characters `w`. */
  predicate Track(h: HeaderState, index: nat, w: string) {
    match h
    case General => BeginsNone(w)
    case C => index == 0 && w == "c"
    case CO => index == 1 && w == "co"
    case CON => index == 2 && w == "con"
    case MatchingConnection => index + 1 == |w| && 4 <= |w| < |CONNECTION| && w <= CONNECTION
    case MatchingProxyConnection => index + 1 == |w| && 1 <= |w| < |PROXY_CONNECTION| && w <= PROXY_CONNECTION
    case MatchingContentLength => index + 1 == |w| && 4 <= |w| < |CONTENT_LENGTH| && w <= CONTENT_LENGTH
    case MatchingTransferEncoding => index + 1 == |w| && 1 <= |w| < |TRANSFER_ENCODING| && w <= TRANSFER_ENCODING
    case MatchingUpgrade => index + 1 == |w| && 1 <= |w| < |UPGRADE| && w <= UPGRADE
    case Connection => w == CONNECTION || w == PROXY_CONNECTION
    case ContentLength => w == CONTENT_LENGTH
    case TransferEncoding => w == TRANSFER_ENCODING
    case Upgrade => w == UPGRADE
    case _ => false
  }

  /** Where the names differ. */
  lemma Letters()
    ensures |CONNECTION| == 10 && |PROXY_CONNECTION| == 16 && |CONTENT_LENGTH| == 14
    ensures |TRANSFER_ENCODING| == 17 && |UPGRADE| == 7
    ensures forall n | n == CONNECTION || n == CONTENT_LENGTH :: n[0] == 'c' && n[1] == 'o' && n[2] == 'n'
    ensures CONNECTION[3] == 'n' && CONTENT_LENGTH[3] == 't'
    ensures PROXY_CONNECTION[0] == 'p' && TRANSFER_ENCODING[0] == 't' && UPGRADE[0] == 'u'
  {
  }

  lemma Longer(w: string, name: string, c: char)
    ensures w + [c] <= name <==> w <= name && |w| < |name| && name[|w|] == c
  {
  }

  lemma LongerNone(w: string, c: char)
    requires BeginsNone(w)
    ensures BeginsNone(w + [c])
  {
  }

  /** A prefix of one name, long enough, begins no other. */
  lemma Apart(w: string)
    requires w != ""
    ensures w[0] != 'c' ==> !(w <= CONNECTION) && !(w <= CONTENT_LENGTH)
    ensures w[0] != 'p' ==> !(w <= PROXY_CONNECTION)
    ensures w[0] != 't' ==> !(w <= TRANSFER_ENCODING)
    ensures w[0] != 'u' ==> !(w <= UPGRADE)
    ensures w <= CONNECTION || w <= CONTENT_LENGTH ==> w[0] == 'c'
    ensures w <= PROXY_CONNECTION ==> w[0] == 'p'
    ensures w <= TRANSFER_ENCODING ==> w[0] == 't'
    ensures w <= UPGRADE ==> w[0] == 'u'
    ensures |w| >= 4 ==> !(w <= CONNECTION && w <= CONTENT_LENGTH)
  {
    Letters();
  }

  /** One more character, in the states that follow a single name. */
  lemma MatchTrack(f: Fields, w: string, name: string, c: char, found: HeaderState)
    requires f.index + 1 == |w| && w <= name && |w| < |name| < 200
    ensures var g := MatchByte(f, name, c, found);
      if !(w + [c] <= name) then g.headerState == General
      else if |w| + 1 == |name| then g.headerState == found && w + [c] == name
      else g.headerState == f.headerState && g.index + 1 == |w| + 1
  {
  }

  /** Leaving the only name begun leaves all names. */
  lemma LeftName(w: string, name: string, c: char)
    requires w != "" && w <= name && !(w + [c] <= name)
    requires name == CONNECTION || name == CONTENT_LENGTH ==> 4 <= |w|
    requires name in {CONNECTION, PROXY_CONNECTION, CONTENT_LENGTH, TRANSFER_ENCODING, UPGRADE}
    ensures BeginsNone(w + [c])
  {
    Apart(w);
    Letters();
    Longer(w, CONNECTION, c);
    Longer(w, PROXY_CONNECTION, c);
    Longer(w, CONTENT_LENGTH, c);
    Longer(w, TRANSFER_ENCODING, c);
    Longer(w, UPGRADE, c);
  }

  /** The name that a matching state follows, and the state that ends it. */
  function Goal(h: HeaderState): (string, HeaderState) {
    match h
    case MatchingConnection => (CONNECTION, Connection)
    case MatchingProxyConnection => (PROXY_CONNECTION, Connection)
    case MatchingContentLength => (CONTENT_LENGTH, ContentLength)
    case MatchingTransferEncoding => (TRANSFER_ENCODING, TransferEncoding)
    case MatchingUpgrade => (UPGRADE, Upgrade)
    case _ => ("", h)
  }

  lemma TrackGoal(h: HeaderState, index: nat, w: string)
    requires Goal(h).0 != ""
    ensures Track(h, index, w) <==>
      var name := Goal(h).0;
      && index + 1 == |w| && w <= name && 1 <= |w| < |name|
      && (h.MatchingConnection? || h.MatchingContentLength? ==> 4 <= |w|)
    ensures Track(Goal(h).1, index, Goal(h).0)
    ensures |Goal(h).0| < 200
    ensures Goal(h).0 in {CONNECTION, PROXY_CONNECTION, CONTENT_LENGTH, TRANSFER_ENCODING, UPGRADE}
    ensures Goal(h).0 == CONNECTION || Goal(h).0 == CONTENT_LENGTH ==> h.MatchingConnection? || h.MatchingContentLength?
  {
  }

  lemma TrackMatching(f: Fields, w: string, c: char)
    requires Goal(f.headerState).0 != "" && Track(f.headerState, f.index, w)
    ensures var g := FieldByte(f, c, c).next; Track(g.headerState, g.index, w + [c])
  {
    var (name, found) := Goal(f.headerState);
    assert FieldByte(f, c, c) == Stay(MatchByte(f, name, c, found)) by { hide MatchByte, Track; }
    var g := MatchByte(f, name, c, found);
    TrackGoal(f.headerState, f.index, w);
    MatchTrack(f, w, name, c, found);
    TrackGoal(f.headerState, g.index, w + [c]);
    if !(w + [c] <= name) {
      LeftName(w, name, c);
      assert Track(General, g.index, w + [c]) by { hide BeginsNone; }
    }
    hide Goal, Track, FieldByte, MatchByte, BeginsNone;
  }

  lemma TrackStart(f: Fields, w: string, c: char)
    requires Track(f.headerState, f.index, w) && (f.headerState.C? || f.headerState.CO? || f.headerState.CON?)
    ensures var g := FieldByte(f, c, c).next; Track(g.headerState, g.index, w + [c])
  {
    Letters();
    Apart(w + [c]);
    Longer(w, CONNECTION, c);
    Longer(w, CONTENT_LENGTH, c);
  }

  lemma TrackFound(f: Fields, w: string, c: char)
    requires Track(f.headerState, f.index, w) && c != ' '
    requires f.headerState.General? || f.headerState.Connection? || f.headerState.ContentLength?
      || f.headerState.TransferEncoding? || f.headerState.Upgrade?
    ensures var g := FieldByte(f, c, c).next; Track(g.headerState, g.index, w + [c])
  {
    if f.headerState.General? {
      LongerNone(w, c);
    } else {
      assert w in {CONNECTION, PROXY_CONNECTION, CONTENT_LENGTH, TRANSFER_ENCODING, UPGRADE};
      Letters();
      Longer(w, w, c);
      LeftName(w, w, c);
    }
    hide BeginsNone;
  }

  lemma TrackByte(f: Fields, w: string, c: char, ch: char)
    requires Track(f.headerState, f.index, w) && c !in {'\0', ' '} && ch != ' '
    ensures var e := FieldByte(f, c, ch);
      && e == Stay(f.(headerState := e.next.headerState, index := e.next.index))
      && Track(e.next.headerState, e.next.index, w + [c])
  {
    if Goal(f.headerState).0 != "" {
      TrackMatching(f, w, c);
    } else if f.headerState.C? || f.headerState.CO? || f.headerState.CON? {
      TrackStart(f, w, c);
    } else {
      TrackFound(f, w, c);
    }
    assert FieldByte(f, c, ch) == FieldByte(f, c, c) by { hide MatchByte; }
    FieldByteStays(f, w, c);
    hide FieldByte;
  }

  lemma FieldByteStays(f: Fields, w: string, c: char)
    requires Track(f.headerState, f.index, w)
    ensures var e := FieldByte(f, c, c); e == Stay(f.(headerState := e.next.headerState, index := e.next.index))
  {
  }

  lemma TrackFirst(c: char)
    ensures Track(FirstHeaderState(c), 0, [c])
  {
    Letters();
    Apart([c]);
  }

  /** At the end of a name, the state tells which name it was. */
  lemma TrackExact(h: HeaderState, index: nat, w: string)
    requires Track(h, index, w)
    ensures h.Connection? <==> w == CONNECTION || w == PROXY_CONNECTION
    ensures h.ContentLength? <==> w == CONTENT_LENGTH
    ensures h.TransferEncoding? <==> w == TRANSFER_ENCODING
    ensures h.Upgrade? <==> w == UPGRADE
  {
    Letters();
    if w != "" { Apart(w); }
  }
}
