/** The values of Connection and Transfer-Encoding: while one is read, the header state and the index
    say which word it spells so far. */
module HttpValues {
  import opened Wrappers
  import opened HttpChars
  import opened HttpMachine
  import opened HttpHeaders

  /** In any letter case the text spells the word, with nothing but spaces after it, as far as it goes. */
  predicate Begins(w: string, word: string) {
    forall i | 0 <= i < |w| :: if i < |word| then Lower(w[i]) == word[i] else w[i] == ' '
  }

  /** In any letter case the value is the word, followed by spaces only. */
  predicate Means(value: string, word: string) { |value| >= |word| && Begins(value, word) }

  predicate IsConnection(name: string) { LowerCase(name) == CONNECTION || LowerCase(name) == PROXY_CONNECTION }

  predicate IsCoding(name: string) { LowerCase(name) == TRANSFER_ENCODING }

  /** The flags after a header line. */
  function Noted(fl: Flags, name: string, value: string): Flags {
    if IsConnection(name) then
      fl.(keepAlive := fl.keepAlive || Means(value, KEEP_ALIVE), close := fl.close || Means(value, CLOSE))
    else if IsCoding(name) then fl.(chunked := fl.chunked || Means(value, CHUNKED))
    else fl
  }

  /* ---- following a value ---- */

  /** The word that the state `found` stands for, and the state on the way to it. */
  function Target(found: HeaderState): (string, HeaderState) {
    match found
    case Close => (CLOSE, MatchingClose)
    case KeepAlive => (KEEP_ALIVE, MatchingKeepAlive)
    case _ => (CHUNKED, MatchingChunked)
  }

  /** The matcher is where the text `w` takes it, as far as one word is concerned. */
  predicate Tracks(h: HeaderState, index: nat, w: string, found: HeaderState) {
    var (word, matching) := Target(found);
    if h == matching then index + 1 == |w| < |word| && Begins(w, word)
    else if h == found then Means(w, word)
    else !Begins(w, word)
  }

  /** The same for all words that are looked for in a coding, or in a connection header. */
  predicate TrackValue(coding: bool, h: HeaderState, index: nat, w: string) {
    if coding then h in {General, MatchingChunked, Chunked} && Tracks(h, index, w, Chunked)
    else
      && h in {General, MatchingKeepAlive, KeepAlive, MatchingClose, Close}
      && Tracks(h, index, w, KeepAlive) && Tracks(h, index, w, Close)
  }

  lemma BeginsMore(w: string, c: char, word: string)
    ensures Begins(w + [c], word) <==> Begins(w, word) && if |w| < |word| then Lower(c) == word[|w|] else c == ' '
  {
    var v := w + [c];
    assert v[|w|] == c && forall i | 0 <= i < |w| :: v[i] == w[i];
  }

  lemma TrackFirstByte(f: Fields, v: char)
    requires f.headerState.Connection? || f.headerState.TransferEncoding?
    ensures var g := ValueStart(f, v).next;
      && TrackValue(f.headerState.TransferEncoding?, g.headerState, 0, [v])
      && g == f.(state := HeaderValue, index := 0, headerState := g.headerState)
  {
    assert CLOSE[0] == CHUNKED[0] == 'c' && KEEP_ALIVE[0] == 'k';
    hide Lower;
  }

  /** The header states that a value of Connection or Transfer-Encoding is read in. */
  predicate InValue(h: HeaderState) {
    h in {General, MatchingKeepAlive, KeepAlive, MatchingClose, Close, MatchingChunked, Chunked}
  }

  /** On the way to a word, or behind it, the matcher looks at the next byte for that word only. */
  lemma OwnByte(f: Fields, ch: char, found: HeaderState)
    requires found in {Close, KeepAlive, Chunked}
    ensures var (word, matching) := Target(found);
      && 0 < |word| < 200 && matching != found && InValue(found) && InValue(matching)
      && (f.headerState == matching ==> ValueByte(f, ch) == Stay(MatchByte(f, word, Lower(ch), found)))
      && (f.headerState == found ==> ValueByte(f, ch) == Stay(if ch != ' ' then f.(headerState := General) else f))
  {
    hide MatchByte, Lower;
  }

  lemma GeneralIsNone(found: HeaderState)
    requires found in {Close, KeepAlive, Chunked}
    ensures General != found && General != Target(found).1
  {
  }

  lemma OtherByte(f: Fields, ch: char, found: HeaderState)
    requires InValue(f.headerState) && found in {Close, KeepAlive, Chunked}
    requires f.headerState != found && f.headerState != Target(found).1
    ensures var g := ValueByte(f, ch).next; g.headerState != found && g.headerState != Target(found).1
  {
    hide Lower;
  }

  lemma StaysInValue(f: Fields, ch: char)
    requires InValue(f.headerState)
    ensures var g := ValueByte(f, ch).next;
      && InValue(g.headerState) && ValueByte(f, ch) == Stay(f.(headerState := g.headerState, index := g.index))
    ensures var h, i := f.headerState, ValueByte(f, ch).next.headerState;
      && (h in {General, MatchingChunked, Chunked} ==> i in {General, MatchingChunked, Chunked})
      && (h !in {MatchingChunked, Chunked} ==> i !in {MatchingChunked, Chunked})
  {
    hide Lower;
  }

  lemma MatchOne(f: Fields, n: nat, c: char, word: string, found: HeaderState)
    requires f.index + 1 == n < |word| < 200
    ensures var g := MatchByte(f, word, c, found);
      if c != word[n] then g.headerState == General
      else if n + 1 == |word| then g.headerState == found
      else g.headerState == f.headerState && g.index == n
  {
  }

  lemma TracksNext(f: Fields, w: string, ch: char, found: HeaderState)
    requires found in {Close, KeepAlive, Chunked} && w != ""
    requires InValue(f.headerState) && Tracks(f.headerState, f.index, w, found)
    ensures var g := ValueByte(f, ch).next; Tracks(g.headerState, g.index, w + [ch], found)
  {
    BeginsMore(w, ch, Target(found).0);
    OwnByte(f, ch, found);
    hide Begins, Lower, ValueByte, Target, MatchByte;
    var (word, matching) := Target(found);
    assert General != found && General != matching by { GeneralIsNone(found); }
    hide InValue;
    if f.headerState == matching {
      MatchOne(f, |w|, Lower(ch), word, found);
    } else if f.headerState != found {
      OtherByte(f, ch, found);
    }
  }

  lemma TrackNextByte(coding: bool, f: Fields, w: string, ch: char)
    requires w != "" && TrackValue(coding, f.headerState, f.index, w)
    ensures var g := ValueByte(f, ch).next;
      && TrackValue(coding, g.headerState, g.index, w + [ch])
      && ValueByte(f, ch) == Stay(f.(headerState := g.headerState, index := g.index))
  {
    hide Tracks, Lower, ValueByte;
    StaysInValue(f, ch);
    if coding {
      TracksNext(f, w, ch, Chunked);
    } else {
      TracksNext(f, w, ch, KeepAlive);
      TracksNext(f, w, ch, Close);
    }
  }

  /** At the end of the value the flag is set exactly if the value is the word. */
  lemma TrackedFlags(name: string, f: Fields, value: string)
    requires IsConnection(name) || IsCoding(name)
    requires TrackValue(IsCoding(name), f.headerState, f.index, value)
    ensures HeaderFlags(f) == Noted(f.flags, name, value)
  {
    assert CONNECTION != TRANSFER_ENCODING && TRANSFER_ENCODING != PROXY_CONNECTION;
    hide Begins, LowerCase;
  }
}
