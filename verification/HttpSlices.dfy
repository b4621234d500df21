/** Feeding a stream in pieces: how it is cut makes no difference. */
module HttpSlices {
  import opened Wrappers
  import opened HttpChars
  import opened HttpMachine
  import opened HttpStream
  import opened HttpShape
  import opened HttpInvariant
  import opened HttpParser

  /** The pieces one after the other, up to the first that fails or upgrades. */
  function Pieces(f: Fields, tr: Trace, pieces: seq<string>, at: nat): Outcome
    decreases |pieces|
  {
    if pieces == [] then Running(f, tr)
    else
      match Stream(f, tr, pieces[0], at)
      case Running(g, t) => Pieces(g, t, pieces[1..], at + |pieces[0]|)
      case stopped => stopped
  }

  /** Cutting a stream into pieces leaves fields, glued callbacks, error and position as they are. */
  lemma {:induction false} SliceIndependence(f: Fields, tr: Trace, pieces: seq<string>, at: nat)
    ensures Pieces(f, tr, pieces, at) == Stream(f, tr, Concat(pieces), at)
    decreases |pieces|
  {
    hide Stream;
    if pieces == [] {
      StreamEnd(f, tr, at);
    } else {
      StreamSplit(f, tr, pieces[0], Concat(pieces[1..]), at);
      match Stream(f, tr, pieces[0], at)
      case Running(g, t) => SliceIndependence(g, t, pieces[1..], at + |pieces[0]|);
      case _ =>
    }
  }

  function Shifted(o: Outcome, d: nat): Outcome {
    match o
    case Failed(g, at, t) => Failed(g, at + d, t)
    case Upgraded(g, at, t) => Upgraded(g, at + d, t)
    case _ => o
  }

  lemma StepShift(f: Fields, tr: Trace, ch: char, at: nat, d: nat)
    ensures Step(f, tr, ch, at + d) == Shifted(Step(f, tr, ch, at), d)
  {
    hide Dispatch, Extended, Opened, Overflows;
  }

  /** Positions are relative. */
  lemma {:induction false} StreamShift(f: Fields, tr: Trace, data: string, at: nat, d: nat)
    ensures Stream(f, tr, data, at + d) == Shifted(Stream(f, tr, data, at), d)
    decreases |data|
  {
    hide Step;
    if data != [] {
      StepShift(f, tr, data[0], at, d);
      match Step(f, tr, data[0], at)
      case Running(g, t) => StreamShift(g, t, data[1..], at + 1, d);
      case _ =>
    }
  }

  /** A stream stops at one of its bytes. */
  lemma {:induction false} StopsInside(f: Fields, tr: Trace, data: string, at: nat)
    ensures match Stream(f, tr, data, at)
      case Failed(_, i, _) => at <= i < at + |data|
      case Upgraded(_, i, _) => at <= i < at + |data|
      case _ => true
    decreases |data|
  {
    hide Dispatch;
    if data != [] {
      match Step(f, tr, data[0], at)
      case Running(g, t) => StopsInside(g, t, data[1..], at + 1);
      case _ =>
    }
  }

  lemma InvOK(f: Fields)
    requires Inv(f)
    ensures f.errno.OK?
  {
  }

  /* ---- the upgrade flag tells an early return apart ---- */

  predicate FlagPass(f: Fields, e: Effect) {
    match e.control
    case Break => e.next.upgrade ==> f.upgrade
    case Again => e.next.upgrade ==> f.upgrade || e.next.state.HeadersDone?
    case Exit => e.next.upgrade
    case _ => true
  }

  lemma RequestFlag(f: Fields, ch: char)
    ensures FlagPass(f, RequestByte(f, ch))
  {
    hide ParseUrlChar, OtherMethod, MethodName, FirstMethod, IsAlpha;
  }

  lemma HeaderFlag(f: Fields, ch: char)
    ensures FlagPass(f, HeaderByte(f, ch))
    ensures f.state.HeadersDone? && f.upgrade ==> !HeaderByte(f, ch).control.Break? && !HeaderByte(f, ch).control.Again?
  {
    hide MatchByte, FirstHeaderState, Token, Lower;
  }

  lemma BodyFlag(f: Fields, ch: char, avail: nat)
    requires avail > 0
    ensures FlagPass(f, BodyByte(f, ch, avail))
  {
  }

  lemma {:induction false} DispatchFlag(f: Fields, ch: char, avail: nat)
    requires avail > 0 && (f.upgrade ==> f.state.HeadersDone?)
    ensures var e := Dispatch(f, ch, avail);
      (e.control.Break? ==> !e.next.upgrade) && (e.control.Exit? ==> e.next.upgrade)
    decreases Rank(f.state)
  {
    RequestFlag(f, ch);
    HeaderFlag(f, ch);
    BodyFlag(f, ch, avail);
    AgainLowersRank(f, ch, avail);
    hide RequestByte, HeaderByte, BodyByte;
    var e := Transition(f, ch, avail);
    if e.control.Again? {
      DispatchFlag(e.next, ch, 1);
    }
  }

  /** A parser that has not upgraded has its flag clear; one that just did has it set. */
  lemma {:induction false} UpgradeFlag(f: Fields, tr: Trace, data: string, at: nat)
    requires !f.upgrade
    ensures match Stream(f, tr, data, at)
      case Running(g, _) => !g.upgrade
      case Upgraded(g, _, _) => g.upgrade
      case _ => true
    decreases |data|
  {
    hide Dispatch;
    if data != [] {
      DispatchFlag(Counted(f), data[0], 1);
      match Step(f, tr, data[0], at)
      case Running(g, t) => UpgradeFlag(g, t, data[1..], at + 1);
      case _ =>
    }
  }

  /** An empty buffer is the end of the stream: this is the first piece, if any, that is empty although
      a message has begun. */
  function EndedAt(f: Fields, tr: Trace, pieces: seq<string>): (r: Option<nat>)
    ensures r.Some? ==> r.value < |pieces|
    decreases |pieces|
  {
    if pieces == [] then None
    else if pieces[0] == "" && !f.state.Dead? && !f.state.StartReq? then Some(0)
    else
      match Stream(f, tr, pieces[0], 0)
      case Running(g, t) =>
        var r := EndedAt(g, t, pieces[1..]);
        if r.Some? then Some(r.value + 1) else None
      case _ => None
  }

  /** Without an empty piece the stream does not end early. */
  lemma {:induction false} NotEnded(f: Fields, tr: Trace, pieces: seq<string>)
    requires forall i | 0 <= i < |pieces| :: pieces[i] != ""
    ensures EndedAt(f, tr, pieces).None?
    decreases |pieces|
  {
    hide Stream;
    if pieces != [] {
      match Stream(f, tr, pieces[0], 0)
      case Running(g, t) => NotEnded(g, t, pieces[1..]);
      case _ =>
    }
  }

  /** The text up to an early end of the stream was all read, and that end is an error. */
  ghost predicate Ended(o: Outcome, n: nat, len: nat, f: Fields, delivered: Trace) {
    match o
    case Running(g, t) => n == len && f == g.(errno := InvalidEofState) && delivered == t
    case _ => false
  }

  /** All pieces before the `i`-th have been read. */
  ghost predicate ReadTo(f0: Fields, tr0: Trace, pieces: seq<string>, i: nat, f: Fields, tr: Trace, n: nat)
    requires i <= |pieces|
  {
    && Stream(f0, tr0, Concat(pieces[..i]), 0) == Running(f, tr) && n == |Concat(pieces[..i])|
    && Stream(f0, tr0, Concat(pieces), 0) == Pieces(f, tr, pieces[i..], n)
    && EndedAt(f0, tr0, pieces) ==
         var r := EndedAt(f, tr, pieces[i..]);
         if r.Some? then Some(i + r.value) else None
  }

  lemma NothingRead(f: Fields, tr: Trace, pieces: seq<string>)
    ensures ReadTo(f, tr, pieces, 0, f, tr, 0)
  {
    hide Stream;
    SliceIndependence(f, tr, pieces, 0);
    StreamEnd(f, tr, 0);
  }

  lemma ConcatSnoc(pieces: seq<string>, i: nat)
    requires i < |pieces|
    ensures Concat(pieces[..i + 1]) == Concat(pieces[..i]) + pieces[i]
    decreases i
  {
    if i == 0 {
      assert pieces[..1] == [pieces[0]] && pieces[..0] == [];
    } else {
      ConcatSnoc(pieces[1..], i - 1);
      assert pieces[..i + 1][1..] == pieces[1..][..i] && pieces[..i][1..] == pieces[1..][..i - 1];
    }
  }

  /** One more piece is read to its end. */
  lemma OnePieceMore(f0: Fields, tr0: Trace, pieces: seq<string>, i: nat, f: Fields, tr: Trace, n: nat, g: Fields,
      t: Trace)
    requires i < |pieces| && ReadTo(f0, tr0, pieces, i, f, tr, n) && Stream(f, tr, pieces[i], 0) == Running(g, t)
    requires pieces[i] == "" ==> f.state.Dead? || f.state.StartReq?
    ensures ReadTo(f0, tr0, pieces, i + 1, g, t, n + |pieces[i]|)
  {
    hide Stream, Concat;
    assert pieces[i..][0] == pieces[i] && pieces[i..][1..] == pieces[i + 1..];
    StreamShift(f, tr, pieces[i], 0, n);
    ConcatSnoc(pieces, i);
    StreamSplit(f0, tr0, Concat(pieces[..i]), pieces[i], 0);
  }

  /** The piece stops the stream: all pieces stop as it does. */
  lemma PieceStops(f0: Fields, tr0: Trace, pieces: seq<string>, i: nat, f: Fields, tr: Trace, n: nat)
    requires i < |pieces| && ReadTo(f0, tr0, pieces, i, f, tr, n) && pieces[i] != ""
    requires !Stream(f, tr, pieces[i], 0).Running?
    ensures EndedAt(f0, tr0, pieces).None?
    ensures Stream(f0, tr0, Concat(pieces), 0) == Shifted(Stream(f, tr, pieces[i], 0), n)
    ensures n <= |Concat(pieces)| - |pieces[i]|
  {
    hide Stream;
    assert pieces[i..][0] == pieces[i] && pieces[i..][1..] == pieces[i + 1..];
    StreamShift(f, tr, pieces[i], 0, n);
    ConcatSnoc(pieces, i);
    ConcatUpTo(pieces, i + 1);
  }

  lemma {:induction false} ConcatUpTo(pieces: seq<string>, i: nat)
    requires i <= |pieces|
    ensures |Concat(pieces[..i])| <= |Concat(pieces)|
    decreases i
  {
    if i > 0 {
      ConcatUpTo(pieces[1..], i - 1);
      assert pieces[..i][1..] == pieces[1..][..i - 1];
    }
  }

  lemma AllRead(f0: Fields, tr0: Trace, pieces: seq<string>, f: Fields, tr: Trace, n: nat)
    requires ReadTo(f0, tr0, pieces, |pieces|, f, tr, n)
    ensures EndedAt(f0, tr0, pieces).None? && n == |Concat(pieces)|
    ensures Stream(f0, tr0, Concat(pieces), 0) == Running(f, tr)
  {
    hide Stream;
    assert pieces[..|pieces|] == pieces && pieces[|pieces|..] == [];
  }

  lemma EndsHere(f0: Fields, tr0: Trace, pieces: seq<string>, i: nat, f: Fields, tr: Trace, n: nat)
    requires i < |pieces| && ReadTo(f0, tr0, pieces, i, f, tr, n)
    requires pieces[i] == "" && !f.state.Dead? && !f.state.StartReq?
    ensures EndedAt(f0, tr0, pieces) == Some(i)
  {
    hide Stream;
    assert pieces[i..][0] == pieces[i];
  }

  /** Calls Execute on the pieces in turn, until one is not taken whole or upgrades the connection. An
      empty piece between messages changes nothing, and within a message is an error. */
  method ExecuteAll(parser: Parser, pieces: seq<string>) returns (n: nat)
    requires parser.Valid() && parser.f.errno.OK? && !parser.f.upgrade
    modifies parser
    ensures parser.Valid()
    ensures match EndedAt(old(parser.f), Glue(old(parser.calls)), pieces)
      case None =>
        Delivers(Stream(old(parser.f), Glue(old(parser.calls)), Concat(pieces), 0),
                 n, |Concat(pieces)|, parser.f, Glue(parser.calls))
      case Some(j) =>
        Ended(Stream(old(parser.f), Glue(old(parser.calls)), Concat(pieces[..j]), 0),
              n, |Concat(pieces[..j])|, parser.f, Glue(parser.calls))
  {
    hide Stream, Inv, Coherent, Glue, ReadTo, EndedAt, Concat;
    n := 0;
    ghost var f0, tr0 := parser.f, Glue(parser.calls);
    NothingRead(f0, tr0, pieces);
    for i := 0 to |pieces|
      invariant parser.Valid() && parser.f.errno.OK? && !parser.f.upgrade
      invariant ReadTo(f0, tr0, pieces, i, parser.f, Glue(parser.calls), n)
    {
      ghost var f, tr, was := parser.f, Glue(parser.calls), n;
      StreamKeeps(f, tr, pieces[i], 0);
      UpgradeFlag(f, tr, pieces[i], 0);
      StopsInside(f, tr, pieces[i], 0);
      var k := parser.Execute(pieces[i]);
      if pieces[i] == "" {
        StreamEnd(f, tr, 0);
        if k != 0 {
          EndsHere(f0, tr0, pieces, i, f, tr, n);
          ReadThere(f0, tr0, pieces, i, f, tr, n);
          return;
        }
      } else {
        n := n + k;
        if k < |pieces[i]| || parser.f.upgrade {
          PieceStops(f0, tr0, pieces, i, f, tr, was);
          return;
        }
      }
      OnePieceMore(f0, tr0, pieces, i, f, tr, was, parser.f, Glue(parser.calls));
      InvOK(parser.f);
    }
    AllRead(f0, tr0, pieces, parser.f, Glue(parser.calls), n);
  }

  lemma ReadThere(f0: Fields, tr0: Trace, pieces: seq<string>, i: nat, f: Fields, tr: Trace, n: nat)
    requires i < |pieces| && ReadTo(f0, tr0, pieces, i, f, tr, n)
    ensures Stream(f0, tr0, Concat(pieces[..i]), 0) == Running(f, tr) && n == |Concat(pieces[..i])|
  {
  }
}
