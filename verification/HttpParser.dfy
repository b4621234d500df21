/** http_parser_execute: the loop over a buffer, with its marks, its bulk treatment of bodies
    and its data callbacks, against the byte-by-byte meaning of the stream. */
module HttpParser {
  import opened Wrappers
  import opened HttpChars
  import opened HttpMachine
  import opened HttpStream
  import opened HttpShape
  import opened HttpInvariant

  const NULL := -1

  /** The mark pointers, as positions in the buffer. */
  datatype Marks = Marks(url: int, field: int, value: int, body: int) {
    function At(k: Kind): int {
      match k case Url => url case Field => field case Value => value case Body => body
    }
    function Put(k: Kind, p: int): Marks {
      match k
      case Url => this.(url := p) case Field => this.(field := p)
      case Value => this.(value := p) case Body => this.(body := p)
    }
  }

  const NO_MARKS := Marks(NULL, NULL, NULL, NULL)

  /** The marks set before the loop, from the state the last buffer ended in. */
  function Resumed(s: State): Marks {
    if Collects(s).Some? then NO_MARKS.Put(Collects(s).value, 0) else NO_MARKS
  }

  /** All marks lie in the buffer read so far, and every delivery ends inside the buffer. */
  predicate InBuffer(ops: seq<Op>, m: Marks, data: string, p: nat) {
    && p <= |data|
    && m.url <= p && m.field <= p && m.value <= p && m.body <= p
    && forall i | 0 <= i < |ops| :: ops[i].Deliver? ==> p + ops[i].extra <= |data|
  }

  /** MARK, CALLBACK_DATA and CALLBACK_NOTIFY, with callbacks that return 0. */
  function Act(op: Op, m: Marks, calls: seq<Callback>, data: string, p: nat): (r: (Marks, seq<Callback>))
    requires InBuffer([op], m, data, p)
    ensures InBuffer([], r.0, data, p)
  {
    assert [op][0] == op;
    match op
    case Mark(k) => (if m.At(k) < 0 then m.Put(k, p) else m, calls)
    case Deliver(k, extra) =>
      if m.At(k) < 0 then (m, calls)
      else (m.Put(k, NULL), calls + [Data(k, data[m.At(k)..p + extra])])
    case Notify(n) => (m, calls + [Event(n)])
  }

  function Perform(ops: seq<Op>, m: Marks, calls: seq<Callback>, data: string, p: nat): (Marks, seq<Callback>)
    requires InBuffer(ops, m, data, p)
  {
    if ops == [] then (m, calls)
    else
      var r := Act(ops[0], m, calls, data, p);
      Perform(ops[1..], r.0, r.1, data, p)
  }

  /** At most one mark is set, and which one is known from the state. */
  predicate Sane(m: Marks, s: State, p: nat, len: nat) {
    && m.url <= p && m.field <= p && m.value <= p && m.body <= p
    && (m.url >= 0 <==> Collects(s) == Some(Url))
    && (m.field >= 0 <==> Collects(s) == Some(Field))
    && (m.value >= 0 <==> Collects(s) == Some(Value))
    && (m.body >= 0 ==> s.ChunkDataAlmostDone? || (InBody(s) && p == len))
  }

  function Held(m: Marks): Option<Kind> {
    if m.url >= 0 then Some(Url) else if m.field >= 0 then Some(Field)
    else if m.value >= 0 then Some(Value) else if m.body >= 0 then Some(Body) else None
  }

  /** The trace once the marked data, up to position `p`, is delivered. */
  function Pending(calls: seq<Callback>, m: Marks, data: string, p: nat): Trace
    requires InBuffer([], m, data, p)
  {
    match Held(m)
    case None => Glue(calls)
    case Some(k) => Append(Glue(calls), k, data[m.At(k)..p])
  }

  /** The delivered trace misses at most some data at the end. */
  ghost predicate Withheld(delivered: Trace, tr: Trace) {
    delivered == tr || exists k, bytes :: tr == Append(delivered, k, bytes)
  }

  /** What Execute promises, from what the stream means. */
  ghost predicate Delivers(o: Outcome, n: nat, len: nat, f: Fields, delivered: Trace) {
    match o
    case Running(g, t) => n == len && f == g && delivered == t
    case Upgraded(g, at, t) => n == at + 1 && f == g && delivered == t
    case Failed(g, at, t) => n == at && f == g && Withheld(delivered, t)
    case Aborted => false
  }

  /** Callbacks are only ever added. */
  lemma {:induction false} PerformExtends(ops: seq<Op>, m: Marks, calls: seq<Callback>, data: string, p: nat)
    requires InBuffer(ops, m, data, p)
    ensures calls <= Perform(ops, m, calls, data, p).1
  {
    if ops != [] {
      var r := Act(ops[0], m, calls, data, p);
      assert calls <= r.1;
      PerformExtends(ops[1..], r.0, r.1, data, p);
    }
  }

  /* ---- the operations of a byte ---- */

  lemma {:induction false} PerformEvents(ops: seq<Op>, m: Marks, calls: seq<Callback>, data: string, p: nat)
    requires InBuffer(ops, m, data, p)
    requires forall i | 0 <= i < |ops| :: ops[i].Notify?
    ensures var r := Perform(ops, m, calls, data, p); r.0 == m && Glue(r.1) == Glue(calls) + Events(ops)
  {
    hide Glue, Append;
    if ops != [] {
      var e := Event(ops[0].note);
      PerformEvents(ops[1..], m, calls + [e], data, p);
      GlueSnoc(calls, e);
      assert Glue(calls) + [e] + Events(ops[1..]) == Glue(calls) + ([e] + Events(ops[1..]));
    }
  }

  lemma {:induction false} PerformConcat(a: seq<Op>, b: seq<Op>, m: Marks, calls: seq<Callback>, data: string, p: nat)
    requires InBuffer(a, m, data, p) && InBuffer(b, m, data, p)
    ensures InBuffer(a + b, m, data, p)
    ensures InBuffer(b, Perform(a, m, calls, data, p).0, data, p)
    ensures Perform(a + b, m, calls, data, p) ==
      var r := Perform(a, m, calls, data, p); Perform(b, r.0, r.1, data, p)
  {
    if a == [] {
      assert a + b == b;
    } else {
      assert (a + b)[0] == a[0] && (a + b)[1..] == a[1..] + b;
      var r := Act(a[0], m, calls, data, p);
      hide Act;
      PerformConcat(a[1..], b, r.0, r.1, data, p);
    }
  }

  lemma {:induction false} EventsConcat(a: seq<Op>, b: seq<Op>)
    ensures Events(a + b) == Events(a) + Events(b)
  {
    if a == [] {
      assert a + b == b;
    } else {
      assert (a + b)[0] == a[0] && (a + b)[1..] == a[1..] + b;
      EventsConcat(a[1..], b);
    }
  }

  /* ---- one byte outside the body ---- */

  /** After the operations `ops` at position `p`, and `n` bytes further on, marks and callbacks
      stand for the trace `tr`. */
  predicate Stands(ops: seq<Op>, m: Marks, calls: seq<Callback>, data: string, p: nat, n: nat, after: State, tr: Trace)
    requires InBuffer(ops, m, data, p) && p + n <= |data|
  {
    var r := Perform(ops, m, calls, data, p);
    Sane(r.0, after, p + n, |data|) && Pending(r.1, r.0, data, p + n) == tr
  }

  /** The same, with no body data marked. */
  predicate StandsBare(ops: seq<Op>, m: Marks, calls: seq<Callback>, data: string, p: nat, after: State, tr: Trace)
    requires InBuffer(ops, m, data, p) && p < |data|
  {
    Stands(ops, m, calls, data, p, 1, after, tr) && Perform(ops, m, calls, data, p).0.body < 0
  }

  lemma OnlyMark(k: Kind, m: Marks, s: State, p: nat, len: nat)
    requires Sane(m, s, p, len) && m.At(k) >= 0
    ensures Held(m) == Some(k) && forall q | q < 0 :: Held(m.Put(k, q)).None?
  {
  }

  lemma PerformDeliver(k: Kind, m: Marks, calls: seq<Callback>, data: string, p: nat)
    requires InBuffer([Deliver(k, 0)], m, data, p) && m.At(k) >= 0
    ensures Perform([Deliver(k, 0)], m, calls, data, p) == (m.Put(k, NULL), calls + [Data(k, data[m.At(k)..p])])
  {
  }

  lemma DeliverStands(k: Kind, m: Marks, calls: seq<Callback>, data: string, p: nat, before: State, after: State)
    requires p < |data| && Sane(m, before, p, |data|) && m.At(k) >= 0
    requires Collects(after).None?
    ensures StandsBare([Deliver(k, 0)], m, calls, data, p, after, Pending(calls, m, data, p))
  {
    hide Collects, Glue, Append, Perform;
    OnlyMark(k, m, before, p, |data|);
    PerformDeliver(k, m, calls, data, p);
    GlueSnoc(calls, Data(k, data[m.At(k)..p]));
  }

  /** CALLBACK_DATA without a mark does nothing. */
  lemma NoMarkStands(m: Marks, calls: seq<Callback>, data: string, p: nat, before: State, after: State)
    requires p < |data| && Sane(m, before, p, |data|) && before.ChunkDataAlmostDone? && m.body < 0
    requires Collects(after).None?
    ensures StandsBare([Deliver(Body, 0)], m, calls, data, p, after, Pending(calls, m, data, p))
  {
    assert Collects(before).None?;
    hide Collects, Glue, Append;
    assert Perform([Deliver(Body, 0)], m, calls, data, p) == (m, calls);
  }

  lemma MarkStands(k: Kind, m: Marks, calls: seq<Callback>, data: string, p: nat, before: State, after: State)
    requires p < |data| && Sane(m, before, p, |data|) && Held(m).None?
    requires Collects(after) == Some(k)
    ensures StandsBare([Mark(k)], m, calls, data, p, after, Append(Pending(calls, m, data, p), k, [data[p]]))
  {
    hide Collects, Glue, Append;
    assert data[p..p + 1] == [data[p]];
    assert Perform([Mark(k)], m, calls, data, p) == (m.Put(k, p), calls);
  }

  lemma NothingStands(m: Marks, calls: seq<Callback>, data: string, p: nat, before: State, after: State)
    requires p < |data| && Sane(m, before, p, |data|)
    requires !before.ChunkDataAlmostDone? && !InBody(before) && Collects(before) == Collects(after)
    ensures var tr := Pending(calls, m, data, p);
      StandsBare([], m, calls, data, p, after,
             if Collects(after).Some? then Append(tr, Collects(after).value, [data[p]]) else tr)
  {
    hide Collects, Glue, Append;
    if Collects(after).Some? {
      var k := Collects(after).value;
      AppendTwice(Glue(calls), k, data[m.At(k)..p], [data[p]]);
      assert data[m.At(k)..p] + [data[p]] == data[m.At(k)..p + 1];
    }
  }

  lemma MarkingStands(m: Marks, calls: seq<Callback>, data: string, p: nat, before: State, after: State)
    requires p < |data| && Sane(m, before, p, |data|) && !InBody(before)
    requires Collects(before).Some? && Collects(after).Some? ==> Collects(before) == Collects(after)
    requires before.ChunkDataAlmostDone? ==> Collects(after).None?
    ensures var tr := Pending(calls, m, data, p);
      StandsBare(Marking(before, after), m, calls, data, p, after,
             if Collects(after).Some? then Append(tr, Collects(after).value, [data[p]]) else tr)
  {
    hide StandsBare, Append, Pending, Glue;
    if before.ChunkDataAlmostDone? {
      if m.body >= 0 {
        DeliverStands(Body, m, calls, data, p, before, after);
      } else {
        NoMarkStands(m, calls, data, p, before, after);
      }
    } else if Collects(before) == Collects(after) {
      NothingStands(m, calls, data, p, before, after);
    } else if Collects(before).Some? {
      DeliverStands(Collects(before).value, m, calls, data, p, before, after);
    } else {
      MarkStands(Collects(after).value, m, calls, data, p, before, after);
    }
    hide Collects;
  }

  /** The two operations of an empty header value. */
  lemma EmptyValue(m: Marks, calls: seq<Callback>, data: string, p: nat, before: State)
    requires p < |data| && Sane(m, before, p, |data|) && before.HeaderValueDiscardLws?
    ensures var r := Perform([Mark(Value), Deliver(Value, 0)], m, calls, data, p);
      && Sane(r.0, before, p, |data|)
      && Pending(r.1, r.0, data, p) == Append(Pending(calls, m, data, p), Value, "")
  {
    hide Glue, Append;
    var ops := [Mark(Value), Deliver(Value, 0)];
    assert ops[1..] == [Deliver(Value, 0)];
    PerformDeliver(Value, m.Put(Value, p), calls, data, p);
    assert data[p..p] == "";
    GlueSnoc(calls, Data(Value, ""));
  }

  lemma FramingStands(m: Marks, calls: seq<Callback>, data: string, p: nat, before: State, after: State)
    requires p < |data| && Sane(m, before, p, |data|) && !InBody(before)
    requires Collects(before).Some? && Collects(after).Some? ==> Collects(before) == Collects(after)
    requires before.ChunkDataAlmostDone? ==> Collects(after).None?
    ensures var tr := Opened(Pending(calls, m, data, p), before, data[p]);
      StandsBare(Framing(before, after, data[p]), m, calls, data, p, after,
             if Collects(after).Some? then Append(tr, Collects(after).value, [data[p]]) else tr)
  {
    if EndsEmptyValue(before, data[p]) {
      var ops := [Mark(Value), Deliver(Value, 0)];
      EmptyValue(m, calls, data, p, before);
      PerformConcat(ops, Marking(before, after), m, calls, data, p);
      var r := Perform(ops, m, calls, data, p);
      MarkingStands(r.0, r.1, data, p, before, after);
    } else {
      MarkingStands(m, calls, data, p, before, after);
    }
    hide Perform, Collects, Append, Glue, Marking, Pending;
  }

  lemma NotesStand(fr: seq<Op>, notes: seq<Op>, m: Marks, calls: seq<Callback>, data: string, p: nat, after: State,
      tr: Trace)
    requires InBuffer(fr, m, data, p) && p < |data| && StandsBare(fr, m, calls, data, p, after, tr)
    requires forall i | 0 <= i < |notes| :: notes[i].Notify?
    requires Collects(after).Some? ==> notes == []
    ensures InBuffer(fr + notes, m, data, p)
    ensures StandsBare(fr + notes, m, calls, data, p, after, tr + Events(notes))
  {
    hide Glue, Collects, Append;
    PerformConcat(fr, notes, m, calls, data, p);
    var r := Perform(fr, m, calls, data, p);
    PerformEvents(notes, r.0, r.1, data, p);
    hide Perform;
    if notes == [] {
      assert tr + Events(notes) == tr;
    }
  }

  /** A byte outside the body: marks and callbacks follow the trace. */
  lemma ByteStands(m: Marks, calls: seq<Callback>, data: string, p: nat, before: State, after: State, ops: seq<Op>)
    requires p < |data| && Sane(m, before, p, |data|) && !InBody(before)
    requires Framed(before, after, data[p], ops)
    requires before.ChunkDataAlmostDone? ==> Collects(after).None?
    ensures InBuffer(ops, m, data, p)
    ensures StandsBare(ops, m, calls, data, p, after,
                   Extended(Pending(calls, m, data, p), before, after, data[p], Events(ops)))
  {
    hide Perform, Collects, Append, Glue, Framing, Events, Marking;
    var fr := Framing(before, after, data[p]);
    var notes := ops[|fr|..];
    assert ops == fr + notes;
    FramingStands(m, calls, data, p, before, after);
    var tr := Opened(Pending(calls, m, data, p), before, data[p]);
    NotesStand(fr, notes, m, calls, data, p, after,
               if Collects(after).Some? then Append(tr, Collects(after).value, [data[p]]) else tr);
    EventsConcat(fr, notes);
    FramingIsSilent(before, after, data[p]);
    assert Events(ops) == Events(notes);
  }

  /* ---- body bytes, many at a time ---- */

  /** The parser can take body bytes. */
  predicate BodyReady(f: Fields) {
    InBody(f.state) && 0 < f.contentLength < ULLONG_MAX && (f.state.ChunkData? ==> f.flags.chunked)
  }

  /** The fields after `n` bytes of the body, which may be its last ones. */
  function BodyAfter(f: Fields, n: nat): Fields
    requires n <= f.contentLength
  {
    var g := f.(contentLength := f.contentLength - n);
    if g.contentLength > 0 then g
    else if f.state.ChunkData? then g.(state := ChunkDataAlmostDone)
    else g.(state := NewMessage(f))
  }

  predicate EndsMessage(f: Fields, n: nat) { f.state.BodyIdentity? && n == f.contentLength }

  function BodyTrace(f: Fields, tr: Trace, bytes: string): Trace {
    Append(tr, Body, bytes) + if EndsMessage(f, |bytes|) then [Event(MessageComplete(f.verb))] else []
  }

  function BodyOps(f: Fields, n: nat): seq<Op> {
    if EndsMessage(f, n) then [Mark(Body), Deliver(Body, n), Notify(MessageComplete(f.verb))] else [Mark(Body)]
  }

  lemma BodyDispatch(f: Fields, ch: char, avail: nat)
    requires BodyReady(f) && avail > 0
    ensures var n := Min(f.contentLength, avail);
      Dispatch(f, ch, avail) == Effect(BodyAfter(f, n), BodyOps(f, n), n - 1, Break)
  {
    hide RequestByte, HeaderByte;
    var n := Min(f.contentLength, avail);
    var e := Transition(f, ch, avail);
    assert e == TakeBody(f, avail);
    if EndsMessage(f, n) {
      assert Dispatch(e.next, ch, 1) == Complete(e.next, Break);
      assert e.ops + [Notify(MessageComplete(f.verb))] == BodyOps(f, n);
    }
  }

  lemma BodyStep(f: Fields, tr: Trace, ch: char, at: nat)
    requires BodyReady(f)
    ensures Step(f, tr, ch, at) == Running(BodyAfter(f, 1), BodyTrace(f, tr, [ch]))
  {
    BodyDispatch(f, ch, 1);
    assert !ParsingHeader(f.state) && Counted(f) == f;
    hide Dispatch, Append;
    if EndsMessage(f, 1) {
      assert BodyOps(f, 1)[1..] == [Deliver(Body, 1), Notify(MessageComplete(f.verb))];
      assert Events(BodyOps(f, 1)[1..][1..]) == [Event(MessageComplete(f.verb))];
    } else {
      assert Events(BodyOps(f, 1)) == [];
    }
  }

  /** Taking a stretch of the body at once is taking its bytes one by one. */
  lemma {:induction false} BodyRun(f: Fields, tr: Trace, bytes: string, at: nat)
    requires BodyReady(f) && 0 < |bytes| <= f.contentLength
    ensures Stream(f, tr, bytes, at) == Running(BodyAfter(f, |bytes|), BodyTrace(f, tr, bytes))
    decreases |bytes|
  {
    BodyStep(f, tr, bytes[0], at);
    var g, t := BodyAfter(f, 1), BodyTrace(f, tr, [bytes[0]]);
    hide Step, Append;
    if |bytes| == 1 {
      assert bytes == [bytes[0]];
      assert bytes[1..] == [];
    } else {
      assert t == Append(tr, Body, [bytes[0]]);
      BodyRun(g, t, bytes[1..], at + 1);
      AppendTwice(tr, Body, [bytes[0]], bytes[1..]);
      assert [bytes[0]] + bytes[1..] == bytes;
    }
  }

  lemma PerformBody(n: nat, note: Note, m: Marks, calls: seq<Callback>, data: string, p: nat)
    requires p + n <= |data| && Held(m).None? && InBuffer([], m, data, p)
    ensures Perform([Mark(Body)], m, calls, data, p) == (m.Put(Body, p), calls)
    ensures Perform([Mark(Body), Deliver(Body, n), Notify(note)], m, calls, data, p)
      == (m.Put(Body, NULL), calls + [Data(Body, data[p..p + n])] + [Event(note)])
  {
    var ops := [Mark(Body), Deliver(Body, n), Notify(note)];
    var d := Data(Body, data[p..p + n]);
    var m1 := m.Put(Body, p);
    assert ops[1..] == [Deliver(Body, n), Notify(note)];
    assert ops[1..][1..] == [Notify(note)];
    assert Act(ops[0], m, calls, data, p) == (m1, calls);
    assert Act(ops[1], m1, calls, data, p) == (m.Put(Body, NULL), calls + [d]);
    assert Perform([Notify(note)], m.Put(Body, NULL), calls + [d], data, p)
      == (m.Put(Body, NULL), calls + [d] + [Event(note)]);
    assert Perform(ops[1..], m1, calls, data, p) == Perform(ops[1..][1..], m.Put(Body, NULL), calls + [d], data, p);
  }

  lemma MarkedBody(m: Marks, calls: seq<Callback>, data: string, p: nat, n: nat, after: State)
    requires p + n <= |data| && InBuffer([], m, data, p) && Held(m).None?
    requires after.ChunkDataAlmostDone? || (InBody(after) && p + n == |data|)
    ensures Stands([Mark(Body)], m, calls, data, p, n, after, Append(Glue(calls), Body, data[p..p + n]))
  {
    assert Collects(after).None?;
    hide Collects, Append, Glue;
    PerformBody(n, MessageBegin, m, calls, data, p);
    hide Perform;
  }

  lemma DeliveredBody(note: Note, m: Marks, calls: seq<Callback>, data: string, p: nat, n: nat, after: State)
    requires p + n <= |data| && InBuffer([], m, data, p) && Held(m).None?
    requires Collects(after).None?
    ensures InBuffer([Mark(Body), Deliver(Body, n), Notify(note)], m, data, p)
    ensures Stands([Mark(Body), Deliver(Body, n), Notify(note)], m, calls, data, p, n, after,
                   Append(Glue(calls), Body, data[p..p + n]) + [Event(note)])
  {
    hide Collects, Append, Glue;
    PerformBody(n, note, m, calls, data, p);
    hide Perform;
    var d := Data(Body, data[p..p + n]);
    GlueSnoc(calls, d);
    GlueSnoc(calls + [d], Event(note));
  }

  /** A stretch of body that ends the message is delivered with its last byte; any other stays marked. */
  lemma BodyOpsStand(f: Fields, m: Marks, calls: seq<Callback>, data: string, p: nat)
    requires BodyReady(f) && p < |data| && Sane(m, f.state, p, |data|)
    ensures var n := Min(f.contentLength, |data| - p);
      && InBuffer(BodyOps(f, n), m, data, p)
      && Stands(BodyOps(f, n), m, calls, data, p, n, BodyAfter(f, n).state,
                BodyTrace(f, Pending(calls, m, data, p), data[p..p + n]))
  {
    hide Stands, Append, Glue, Perform;
    var n := Min(f.contentLength, |data| - p);
    var after := BodyAfter(f, n).state;
    assert Collects(f.state).None? && Collects(after).None?;
    assert Held(m).None? by { hide Collects; }
    hide Collects, Held;
    assert Pending(calls, m, data, p) == Glue(calls);
    if EndsMessage(f, n) {
      DeliveredBody(MessageComplete(f.verb), m, calls, data, p, n, after);
    } else {
      MarkedBody(m, calls, data, p, n, after);
      assert Append(Glue(calls), Body, data[p..p + n]) + [] == Append(Glue(calls), Body, data[p..p + n]);
    }
  }

  /* ---- one turn of the loop ---- */

  /** What one turn of the loop, with effect `e` at position `p`, must come to. */
  ghost predicate Turn(o: Outcome, e: Effect, m: Marks, calls: seq<Callback>, data: string, p: nat, tr: Trace)
    requires p < |data|
  {
    InBuffer(e.ops, m, data, p)
    && match e.control
       case Break =>
         var next := p + 1 + e.advance;
         && next <= |data| && o == Stream(e.next, tr, data[next..], next)
         && Stands(e.ops, m, calls, data, p, 1 + e.advance, e.next.state, tr)
         && Inv(e.next) && Coherent(e.next, tr)
       case Exit =>
         && o == Upgraded(e.next, p, tr)
         && Stands(e.ops, m, calls, data, p, 1, e.next.state, tr)
         && Glue(Perform(e.ops, m, calls, data, p).1) == tr
         && Inv(e.next) && Coherent(e.next, tr)
       case Fail =>
         && o == Failed(e.next, p, tr) && !e.next.errno.OK?
         && Withheld(Glue(Perform(e.ops, m, calls, data, p).1), tr)
       case _ => false
  }

  lemma StreamCons(f: Fields, tr: Trace, data: string, p: nat)
    requires p < |data|
    ensures Stream(f, tr, data[p..], p) ==
      match Step(f, tr, data[p], p)
      case Running(g, t) => Stream(g, t, data[p + 1..], p + 1)
      case stopped => stopped
  {
    assert data[p..][0] == data[p] && data[p..][1..] == data[p + 1..];
    hide Step;
  }

  lemma ReadyBody(f: Fields)
    requires InBody(f.state) && Inv(f)
    ensures BodyReady(f)
  {
  }

  lemma BodyStream(f: Fields, tr: Trace, data: string, p: nat, n: nat)
    requires BodyReady(f) && Inv(f) && Coherent(f, tr) && 0 < n <= f.contentLength && p + n <= |data|
    ensures var g, t := BodyAfter(f, n), BodyTrace(f, tr, data[p..p + n]);
      Stream(f, tr, data[p..], p) == Stream(g, t, data[p + n..], p + n) && Inv(g) && Coherent(g, t)
  {
    hide Inv, Coherent, Step, BodyAfter, BodyTrace;
    var bytes := data[p..p + n];
    BodyRun(f, tr, bytes, p);
    StreamSplit(f, tr, bytes, data[p + n..], p);
    assert bytes + data[p + n..] == data[p..];
    StreamKeeps(f, tr, bytes, p);
    hide Stream;
  }

  lemma BodyTurn(f: Fields, m: Marks, calls: seq<Callback>, data: string, p: nat)
    returns (tr: Trace)
    requires p < |data| && InBody(f.state) && Inv(f)
    requires Sane(m, f.state, p, |data|) && Coherent(f, Pending(calls, m, data, p))
    ensures Turn(Stream(f, Pending(calls, m, data, p), data[p..], p), Dispatch(f, data[p], |data| - p), m,
      calls, data, p, tr)
  {
    hide Inv, Coherent, Stream, Dispatch, Stands, BodyAfter, BodyTrace, BodyOps, Pending;
    ReadyBody(f);
    var n := Min(f.contentLength, |data| - p);
    tr := BodyTrace(f, Pending(calls, m, data, p), data[p..p + n]);
    BodyDispatch(f, data[p], |data| - p);
    BodyOpsStand(f, m, calls, data, p);
    BodyStream(f, Pending(calls, m, data, p), data, p, n);
  }

  lemma OtherTurn(f: Fields, m: Marks, calls: seq<Callback>, data: string, p: nat)
    returns (tr: Trace)
    requires p < |data| && !InBody(f.state) && Inv(f) && !Overflows(f)
    requires Sane(m, f.state, p, |data|) && Coherent(f, Pending(calls, m, data, p))
    ensures Turn(Stream(f, Pending(calls, m, data, p), data[p..], p),
                 Dispatch(Counted(f), data[p], |data| - p), m, calls, data, p, tr)
  {
    hide Dispatch, Stands, Inv, Coherent, Stream, Framed, FailOps, Pending, Append, Glue;
    var tr0 := Pending(calls, m, data, p);
    var ch := data[p];
    var e := Dispatch(Counted(f), ch, |data| - p);
    DispatchShape(Counted(f), ch, |data| - p);
    StreamCons(f, tr0, data, p);
    StepKeeps(f, tr0, ch, p);
    if e.control.Fail? {
      tr := Opened(tr0, f.state, ch);
      FailStands(m, calls, data, p, f.state, e.ops);
    } else {
      tr := Extended(tr0, f.state, e.next.state, ch, Events(e.ops));
      ByteStands(m, calls, data, p, f.state, e.next.state, e.ops);
      if e.control.Exit? {
        BareIsDelivered(e.ops, m, calls, data, p, e.next.state, tr);
      }
    }
  }

  lemma BareIsDelivered(ops: seq<Op>, m: Marks, calls: seq<Callback>, data: string, p: nat, after: State, tr: Trace)
    requires InBuffer(ops, m, data, p) && p < |data| && StandsBare(ops, m, calls, data, p, after, tr)
    requires Collects(after).None?
    ensures Glue(Perform(ops, m, calls, data, p).1) == tr
  {
  }

  lemma FailStands(m: Marks, calls: seq<Callback>, data: string, p: nat, before: State, ops: seq<Op>)
    requires p < |data| && Sane(m, before, p, |data|) && FailOps(before, data[p], ops)
    ensures InBuffer(ops, m, data, p)
    ensures Withheld(Glue(Perform(ops, m, calls, data, p).1), Opened(Pending(calls, m, data, p), before, data[p]))
  {
    hide Append, Glue;
    if EndsEmptyValue(before, data[p]) {
      EmptyValue(m, calls, data, p, before);
      assert Collects(before).None?;
    }
  }

  /* ---- the parser object ---- */

  /** CALLBACK_DATA_NOADVANCE for every mark, after the loop. */
  const FLUSH := [Deliver(Field, 0), Deliver(Value, 0), Deliver(Url, 0), Deliver(Body, 0)]

  function Count(mark: int): nat { if mark >= 0 then 1 else 0 }

  predicate OneMark(m: Marks) { Count(m.url) + Count(m.field) + Count(m.value) + Count(m.body) <= 1 }

  lemma FlushOne(k: Kind, m: Marks, calls: seq<Callback>, data: string)
    requires InBuffer([], m, data, |data|) && OneMark(m)
    ensures InBuffer([Deliver(k, 0)], m, data, |data|)
    ensures var r := Act(Deliver(k, 0), m, calls, data, |data|);
      && OneMark(r.0) && r.0.At(k) < 0 && (r.0 == m || r.0 == m.Put(k, NULL))
      && Pending(r.1, r.0, data, |data|) == Pending(calls, m, data, |data|)
  {
    hide Append, Glue;
    if m.At(k) >= 0 {
      GlueSnoc(calls, Data(k, data[m.At(k)..|data| + 0]));
      assert Held(m) == Some(k);
    }
  }

  /** At the end of the buffer, delivering what is marked completes the trace. */
  lemma FlushStands(m: Marks, calls: seq<Callback>, data: string)
    requires InBuffer([], m, data, |data|) && OneMark(m)
    ensures InBuffer(FLUSH, m, data, |data|)
    ensures Glue(Perform(FLUSH, m, calls, data, |data|).1) == Pending(calls, m, data, |data|)
  {
    FlushOne(Field, m, calls, data);
    var r1 := Act(Deliver(Field, 0), m, calls, data, |data|);
    FlushOne(Value, r1.0, r1.1, data);
    var r2 := Act(Deliver(Value, 0), r1.0, r1.1, data, |data|);
    FlushOne(Url, r2.0, r2.1, data);
    var r3 := Act(Deliver(Url, 0), r2.0, r2.1, data, |data|);
    FlushOne(Body, r3.0, r3.1, data);
    var r4 := Act(Deliver(Body, 0), r3.0, r3.1, data, |data|);
    assert Held(r4.0).None?;
    hide Act, Append, Glue, Held;
    assert FLUSH[1..] == [Deliver(Value, 0), Deliver(Url, 0), Deliver(Body, 0)];
    assert FLUSH[1..][1..] == [Deliver(Url, 0), Deliver(Body, 0)];
    assert FLUSH[1..][1..][1..] == [Deliver(Body, 0)];
    assert Perform([Deliver(Body, 0)], r3.0, r3.1, data, |data|) == r4;
    assert Perform(FLUSH[1..][1..], r2.0, r2.1, data, |data|) == r4;
    assert Perform(FLUSH[1..], r1.0, r1.1, data, |data|) == r4;
  }

  /** The parser's assertion after the loop. */
  lemma SaneOneMark(m: Marks, s: State, p: nat, len: nat)
    requires Sane(m, s, p, len)
    ensures OneMark(m)
  {
  }

  lemma StreamEnd(f: Fields, tr: Trace, at: nat)
    ensures Stream(f, tr, "", at) == Running(f, tr)
  {
  }

  lemma PendingWithheld(m: Marks, calls: seq<Callback>, data: string, p: nat)
    requires InBuffer([], m, data, p)
    ensures Withheld(Glue(calls), Pending(calls, m, data, p))
  {
    hide Glue, Append;
    match Held(m)
    case None =>
    case Some(k) => assert Pending(calls, m, data, p) == Append(Glue(calls), k, data[m.At(k)..p]);
  }

  /** One turn of the loop: what the parser does with the next byte, or stretch of body. */
  lemma LoopTurn(f: Fields, m: Marks, calls: seq<Callback>, data: string, p: nat)
    returns (tr: Trace)
    requires p < |data| && Inv(f) && !Overflows(f)
    requires Sane(m, f.state, p, |data|) && Coherent(f, Pending(calls, m, data, p))
    ensures Turn(Stream(f, Pending(calls, m, data, p), data[p..], p),
                 Dispatch(Counted(f), data[p], |data| - p), m, calls, data, p, tr)
  {
    hide Turn, Inv, Coherent, Stream, Dispatch, Pending;
    if InBody(f.state) {
      assert Counted(f) == f;
      tr := BodyTurn(f, m, calls, data, p);
    } else {
      tr := OtherTurn(f, m, calls, data, p);
    }
  }

  lemma ResumedSane(f: Fields, calls: seq<Callback>, data: string)
    requires Coherent(f, Glue(calls))
    ensures Sane(Resumed(f.state), f.state, 0, |data|)
    ensures Pending(calls, Resumed(f.state), data, 0) == Glue(calls)
  {
    hide Collects, Append, Glue;
    if Collects(f.state).Some? {
      AppendNothing(Glue(calls), Collects(f.state).value);
      assert data[0..0] == "";
    }
  }

  /** A parser with the record of its callbacks, all of which return 0. */
  class Parser {
    var f: Fields
    var calls: seq<Callback>

    ghost predicate Valid()
      reads this
    {
      f.errno.OK? ==> Inv(f) && Coherent(f, Glue(calls))
    }

    constructor ()
      ensures Valid() && f == INITIAL && calls == []
    {
      f, calls := INITIAL, [];
    }

    /** http_parser_execute */
    method Execute(data: string) returns (n: nat)
      requires Valid()
      modifies this
      ensures Valid() && old(calls) <= calls
      ensures !old(f.errno).OK? ==> n == 0 && f == old(f) && calls == old(calls)
      ensures old(f.errno).OK? && data == "" ==>
        && calls == old(calls)
        && if old(f.state).Dead? || old(f.state).StartReq? then n == 0 && f == old(f)
           else n == 1 && f == old(f).(errno := InvalidEofState)
      ensures old(f.errno).OK? && data != "" ==>
        Delivers(Stream(old(f), Glue(old(calls)), data, 0), n, |data|, f, Glue(calls))
    {
      hide Stream, Inv, Coherent, Glue, Dispatch, Perform, Collects, Pending;
      if !f.errno.OK? { return 0; }
      if |data| == 0 {
        if f.state.Dead? || f.state.StartReq? { return 0; }
        f := f.(errno := InvalidEofState);
        return 1;
      }
      var marks := Resumed(f.state);
      var p := 0;
      ghost var f0, tr := f, Glue(calls);
      ghost var tr0 := tr;
      ResumedSane(f, calls, data);
      while p < |data|
        invariant p <= |data| && old(calls) <= calls
        invariant Inv(f) && Coherent(f, tr)
        invariant Sane(marks, f.state, p, |data|)
        invariant InBuffer([], marks, data, p) && tr == Pending(calls, marks, data, p)
        invariant Stream(f0, tr0, data, 0) == Stream(f, tr, data[p..], p)
      {
        StreamCons(f, tr, data, p);
        PendingWithheld(marks, calls, data, p);
        ghost var f1 := f;
        if ParsingHeader(f.state) {
          if f.nread + 1 > MAX_HEADER_SIZE {
            f := f.(nread := f.nread + 1, errno := HeaderOverflow);
            return p;
          }
          f := f.(nread := f.nread + 1);
        }
        tr := LoopTurn(f1, marks, calls, data, p);
        var e := Dispatch(f, data[p], |data| - p);
        var r := Perform(e.ops, marks, calls, data, p);
        PerformExtends(e.ops, marks, calls, data, p);
        f, marks, calls := e.next, r.0, r.1;
        match e.control
        case Break => p := p + 1 + e.advance;
        case Exit => return p + 1;
        case Fail => return p;
        case _ => assert false;
      }
      assert data[p..] == "";
      StreamEnd(f, tr, p);
      SaneOneMark(marks, f.state, p, |data|);
      assert OneMark(marks);
      FlushStands(marks, calls, data);
      var r := Perform(FLUSH, marks, calls, data, p);
      PerformExtends(FLUSH, marks, calls, data, p);
      calls := r.1;
      return |data|;
    }
  }
}
