/** How the parser reads bodies: a counted one, and a chunked one. */
module HttpChunks {
  import opened Wrappers
  import opened HttpChars
  import opened HttpMachine
  import opened HttpStream
  import opened HttpMethods
  import opened HttpNumbers
  import opened HttpInvariant
  import opened HttpParser
  import opened HttpWire

  /** A body byte that neither is data nor calls back. */
  lemma QuietBody(f: Fields, tr: Trace, ch: char, at: nat, g: Fields)
    requires f.state.ChunkDataAlmostDone? || f.state.ChunkDataDone?
    requires var e := BodyByte(f, ch, 1); e.control.Break? && e.next == g && Events(e.ops) == []
    requires Collects(g.state).None?
    ensures Step(f, tr, ch, at) == Running(g, tr)
  {
    hide RequestByte, HeaderByte, BodyByte, Collects;
    assert Counted(f) == f;
    assert tr + [] == tr;
  }

  /** A counted body. */
  lemma ReadSized(f: Fields, tr: Trace, bytes: string, rest: string, at: nat)
    requires BodyReady(f) && f.state.BodyIdentity? && |bytes| == f.contentLength
    ensures Stream(f, tr, bytes + rest, at) ==
      Stream(f.(contentLength := 0, state := NewMessage(f)), Append(tr, Body, bytes) + [Event(MessageComplete(f.verb))],
             rest, at + |bytes|)
  {
    hide Stream, Append;
    BodyRun(f, tr, bytes, at);
    StreamSplit(f, tr, bytes, rest, at);
  }

  const CRLF := "\r\n"

  /** A chunk of RFC 7230, section 4.1. */
  function Chunk(bytes: string): string { Print(16, |bytes|) + CRLF + bytes + CRLF }

  lemma SizeFirst(f: Fields, tr: Trace, ch: char, at: nat)
    requires f.state.ChunkSizeStart? && f.flags.chunked && f.nread == 0 && Unhex(ch) >= 0
    ensures Step(f, tr, ch, at) == Running(f.(state := ChunkSize, nread := 1, contentLength := Unhex(ch)), tr)
  {
    var g := Read(f, 1);
    assert BodyByte(g, ch, 1) == To(g.(contentLength := Unhex(ch)), ChunkSize) by { hide Unhex; }
    hide Step, BodyByte, RequestByte, HeaderByte, Unhex;
    Quiet(f, tr, ch, at, g.(state := ChunkSize, contentLength := Unhex(ch)));
  }

  lemma SizeCr(f: Fields, tr: Trace, at: nat)
    requires f.state.ChunkSize? && f.flags.chunked && Room(f, 1)
    ensures Step(f, tr, CR, at) == Running(Read(f, 1).(state := ChunkSizeAlmostDone), tr)
  {
    var g := Read(f, 1);
    assert BodyByte(g, CR, 1) == To(g, ChunkSizeAlmostDone);
    hide Step, BodyByte, RequestByte, HeaderByte;
    Quiet(f, tr, CR, at, g.(state := ChunkSizeAlmostDone));
  }

  lemma SizeLf(f: Fields, tr: Trace, at: nat)
    requires f.state.ChunkSizeAlmostDone? && f.flags.chunked && Room(f, 1)
    ensures Step(f, tr, LF, at) == Running(
      if f.contentLength == 0 then f.(nread := 0, flags := f.flags.(trailing := true), state := HeaderFieldStart)
      else f.(nread := 0, state := ChunkData), tr)
  {
    var g := Read(f, 1);
    var h := if f.contentLength == 0 then f.(nread := 0, flags := f.flags.(trailing := true), state := HeaderFieldStart)
      else f.(nread := 0, state := ChunkData);
    assert BodyByte(g, LF, 1) == Stay(h);
    hide Step, BodyByte, RequestByte, HeaderByte;
    Quiet(f, tr, LF, at, h);
  }

  /** The size line of a chunk, up to its line break. */
  lemma ReadSize(f: Fields, tr: Trace, digits: string, rest: string, at: nat)
    requires f.state.ChunkSizeStart? && f.flags.chunked && f.nread == 0
    requires digits != "" && AllDigits(16, digits) && Number(16, 0, digits) <= MaxLength(16) && |digits| < 100
    ensures var g := f.(contentLength := Number(16, 0, digits), nread := 0);
      Stream(f, tr, digits + CRLF + rest, at) ==
        Stream(if g.contentLength == 0 then g.(flags := f.flags.(trailing := true), state := HeaderFieldStart)
               else g.(state := ChunkData), tr, rest, at + |digits| + 2)
  {
    hide Stream, Step, Unhex, MaxLength, Limit;
    var tail := [CR] + ([LF] + rest);
    assert digits + CRLF + rest == [digits[0]] + (digits[1..] + tail);
    StreamStep(f, tr, digits[0], digits[1..] + tail, at);
    SizeFirst(f, tr, digits[0], at);
    var f1 := f.(state := ChunkSize, nread := 1, contentLength := Unhex(digits[0]));
    FitsExactly(16, 0, digits);
    ReadChunkSize(f1, tr, digits[1..], tail, at + 1);
    var f2 := Read(f1, |digits| - 1).(contentLength := Number(16, 0, digits));
    StreamStep(f2, tr, CR, [LF] + rest, at + |digits|);
    SizeCr(f2, tr, at + |digits|);
    var f3 := Read(f2, 1).(state := ChunkSizeAlmostDone);
    StreamStep(f3, tr, LF, rest, at + |digits| + 1);
    SizeLf(f3, tr, at + |digits| + 1);
  }

  lemma ChunkEndBytes(f: Fields, g: Fields)
    requires f.state.ChunkDataAlmostDone? && f.flags.chunked && f.contentLength == 0 && g == f.(state := ChunkDataDone)
    ensures BodyByte(f, CR, 1) == Effect(g, [Deliver(Body, 0)], 0, Break)
    ensures BodyByte(g, LF, 1) == Effect(f.(state := ChunkSizeStart, nread := 0), [], 0, Break)
    ensures Events([Deliver(Body, 0)]) == [] == Events([]) && Collects(ChunkDataDone).None?
      && Collects(ChunkSizeStart).None?
  {
  }

  lemma ReadChunkEnd(f: Fields, tr: Trace, rest: string, at: nat)
    requires f.state.ChunkDataAlmostDone? && f.flags.chunked && f.contentLength == 0
    ensures Stream(f, tr, CRLF + rest, at) == Stream(f.(state := ChunkSizeStart, nread := 0), tr, rest, at + 2)
  {
    hide Stream, Step, BodyByte;
    assert CRLF + rest == [CR] + ([LF] + rest);
    StreamStep(f, tr, CR, [LF] + rest, at);
    var g := f.(state := ChunkDataDone);
    ChunkEndBytes(f, g);
    QuietBody(f, tr, CR, at, g);
    StreamStep(g, tr, LF, rest, at + 1);
    QuietBody(g, tr, LF, at + 1, f.(state := ChunkSizeStart, nread := 0));
  }

  lemma {:induction false} PrintShort(n: nat, k: nat)
    requires n < Power(k) && k >= 1
    ensures |Print(16, n)| <= k
  {
    if n >= 16 {
      assert Power(k) == 16 * Power(k - 1);
      assert n / 16 < Power(k - 1) && k - 1 >= 1;
      PrintShort(n / 16, k - 1);
    }
  }

  function Power(k: nat): nat { if k == 0 then 1 else 16 * Power(k - 1) }

  lemma ChunkSizes(n: nat)
    requires n <= MaxLength(16)
    ensures |Print(16, n)| <= 16
  {
    assert Power(16) == 0x1_0000_0000_0000_0000 by {
      assert Power(4) == 0x1_0000;
      assert Power(8) == 0x1_0000_0000;
      assert Power(12) == 0x1_0000_0000_0000;
    }
    PrintShort(n, 16);
  }

  lemma ReadChunk(f: Fields, tr: Trace, bytes: string, rest: string, at: nat)
    requires f.state.ChunkSizeStart? && f.flags.chunked && f.nread == 0
    requires 0 < |bytes| <= MaxLength(16)
    ensures Stream(f, tr, Chunk(bytes) + rest, at) ==
      Stream(f.(contentLength := 0), Append(tr, Body, bytes), rest, at + |Chunk(bytes)|)
  {
    hide Stream, Append, Print, AllDigits, Number;
    var digits := Print(16, |bytes|);
    PrintNumber(16, |bytes|);
    ChunkSizes(|bytes|);
    assert MaxLength(16) < ULLONG_MAX;
    hide MaxLength;
    assert Chunk(bytes) + rest == digits + CRLF + (bytes + (CRLF + rest));
    ReadSize(f, tr, digits, bytes + (CRLF + rest), at);
    var g := f.(contentLength := |bytes|, state := ChunkData);
    BodyRun(g, tr, bytes, at + |digits| + 2);
    StreamSplit(g, tr, bytes, CRLF + rest, at + |digits| + 2);
    var h := f.(contentLength := 0, state := ChunkDataAlmostDone);
    assert Append(tr, Body, bytes) + [] == Append(tr, Body, bytes);
    ReadChunkEnd(h, Append(tr, Body, bytes), rest, at + |digits| + 2 + |bytes|);
  }

  const LAST_CHUNK := "0\r\n\r\n"

  lemma TrailerEnd(f: Fields, tr: Trace, at: nat)
    requires f.state.HeadersAlmostDone? && f.flags.trailing && Room(f, 1)
    ensures Step(f, tr, LF, at) == Running(Read(f, 1).(state := NewMessage(f)), tr + [Event(MessageComplete(f.verb))])
  {
    assert HeaderByte(Read(f, 1), LF) == Complete(Read(f, 1), Break);
    assert Events([Notify(MessageComplete(f.verb))]) == [Event(MessageComplete(f.verb))];
    hide RequestByte, HeaderByte, BodyByte, Events;
  }

  /** The last chunk, without trailers. */
  lemma ReadLastChunk(f: Fields, tr: Trace, rest: string, at: nat)
    requires f.state.ChunkSizeStart? && f.flags.chunked && f.nread == 0
    ensures Stream(f, tr, LAST_CHUNK + rest, at) ==
      Stream(f.(contentLength := 0, nread := 2, flags := f.flags.(trailing := true), state := NewMessage(f)),
             tr + [Event(MessageComplete(f.verb))], rest, at + 5)
  {
    hide Stream, Step;
    assert LAST_CHUNK + rest == "0" + CRLF + ([CR] + ([LF] + rest));
    assert AllDigits(16, "0") && Number(16, 0, "0") == 0;
    ReadSize(f, tr, "0", [CR] + ([LF] + rest), at);
    var g := f.(contentLength := 0, flags := f.flags.(trailing := true), state := HeaderFieldStart);
    StreamStep(g, tr, CR, [LF] + rest, at + 3);
    BlankCr(g, tr, at + 3);
    var h := Read(g, 1).(state := HeadersAlmostDone);
    StreamStep(h, tr, LF, rest, at + 4);
    TrailerEnd(h, tr, at + 4);
    assert NewMessage(h) == NewMessage(f);
  }

  function ChunkText(pieces: seq<string>): string {
    if pieces == [] then LAST_CHUNK else Chunk(pieces[0]) + ChunkText(pieces[1..])
  }

  /** Appending a body, if there is one. */
  function WithBody(tr: Trace, bytes: string): Trace {
    if bytes == "" then tr else Append(tr, Body, bytes)
  }

  /** A chunked body. */
  lemma {:induction false} ReadChunks(f: Fields, tr: Trace, pieces: seq<string>, rest: string, at: nat)
    requires f.state.ChunkSizeStart? && f.flags.chunked && f.nread == 0
    requires forall i | 0 <= i < |pieces| :: 0 < |pieces[i]| <= MaxLength(16)
    ensures Stream(f, tr, ChunkText(pieces) + rest, at) ==
      Stream(f.(contentLength := 0, nread := 2, flags := f.flags.(trailing := true), state := NewMessage(f)),
             WithBody(tr, Concat(pieces)) + [Event(MessageComplete(f.verb))], rest, at + |ChunkText(pieces)|)
    decreases |pieces|
  {
    hide Stream, Append, MaxLength, Chunk, NewMessage;
    if pieces == [] {
      ReadLastChunk(f, tr, rest, at);
    } else {
      var c, more := pieces[0], ChunkText(pieces[1..]);
      assert ChunkText(pieces) + rest == Chunk(c) + (more + rest);
      ReadChunk(f, tr, c, more + rest, at);
      var g := f.(contentLength := 0);
      SameNewMessage(f, g);
      ReadChunks(g, Append(tr, Body, c), pieces[1..], rest, at + |Chunk(c)|);
      AppendTwice(tr, Body, c, Concat(pieces[1..]));
      assert c + "" == c;
    }
  }

  lemma SameNewMessage(f: Fields, g: Fields)
    requires g == f.(contentLength := g.contentLength)
    ensures NewMessage(f) == NewMessage(g)
  {
  }
}
