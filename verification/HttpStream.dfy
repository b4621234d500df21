/** The reference meaning of a request stream: one byte after the other, no buffers, no marks.

    A trace lists what the callbacks see, with adjacent data of one kind glued together. */
module HttpStream {
  import opened Wrappers
  import opened HttpChars
  import opened HttpMachine

  datatype Callback = Data(kind: Kind, bytes: string) | Event(note: Note)

  type Trace = seq<Callback>

  /** Adds data to a trace, gluing it to data of the same kind at the end. */
  function Append(tr: Trace, k: Kind, bytes: string): Trace {
    if EndsWith(tr, k) then tr[..|tr| - 1] + [Data(k, tr[|tr| - 1].bytes + bytes)] else tr + [Data(k, bytes)]
  }

  predicate EndsWith(tr: Trace, k: Kind) {
    tr != [] && tr[|tr| - 1].Data? && tr[|tr| - 1].kind == k
  }

  /** The trace of a list of callbacks. */
  function Glue(calls: seq<Callback>): Trace {
    if calls == [] then []
    else
      var tr := Glue(calls[..|calls| - 1]);
      match calls[|calls| - 1]
      case Data(k, bytes) => Append(tr, k, bytes)
      case Event(n) => tr + [Event(n)]
  }

  /** The kind of data that a state collects. */
  function Collects(s: State): (k: Option<Kind>)
    ensures k != Some(Body)
  {
    match s
    case ReqSchema => Some(Url) case ReqSchemaSlash => Some(Url) case ReqSchemaSlashSlash => Some(Url)
    case ReqServerStart => Some(Url) case ReqServer => Some(Url) case ReqServerWithAt => Some(Url)
    case ReqPath => Some(Url) case ReqQueryStringStart => Some(Url) case ReqQueryString => Some(Url)
    case ReqFragmentStart => Some(Url) case ReqFragment => Some(Url)
    case HeaderField => Some(Field)
    case HeaderValue => Some(Value)
    case _ => None
  }

  predicate InBody(s: State) { s.BodyIdentity? || s.ChunkData? }

  /** The kind of data that a byte is, from the states around it. */
  function Carries(before: State, after: State): Option<Kind> {
    if InBody(before) then Some(Body) else Collects(after)
  }

  /** The byte shows that the header value before it was empty. */
  predicate EndsEmptyValue(s: State, ch: char) { s.HeaderValueDiscardLws? && !IsBlank(ch) }

  function Opened(tr: Trace, s: State, ch: char): Trace {
    if EndsEmptyValue(s, ch) then Append(tr, Value, "") else tr
  }

  function Events(ops: seq<Op>): Trace {
    if ops == [] then []
    else if ops[0].Notify? then [Event(ops[0].note)] + Events(ops[1..])
    else Events(ops[1..])
  }

  /** The trace after a byte that took the parser from `before` to `after`. */
  function Extended(tr: Trace, before: State, after: State, ch: char, events: Trace): Trace {
    var tr1 := Opened(tr, before, ch);
    match Carries(before, after)
    case Some(k) => Append(tr1, k, [ch]) + events
    case None => tr1 + events
  }

  /** Where a stream leaves the parser; `at` is the position of the byte that stopped it. */
  datatype Outcome =
    | Running(f: Fields, tr: Trace)
    | Failed(f: Fields, at: nat, tr: Trace)
    | Upgraded(f: Fields, at: nat, tr: Trace)
    | Aborted

  /** The size check made before the switch. */
  function Counted(f: Fields): Fields {
    if ParsingHeader(f.state) then f.(nread := f.nread + 1) else f
  }

  predicate Overflows(f: Fields) { ParsingHeader(f.state) && f.nread + 1 > MAX_HEADER_SIZE }

  function Step(f: Fields, tr: Trace, ch: char, at: nat): Outcome {
    hide Dispatch;
    var e := Dispatch(Counted(f), ch, 1);
    if Overflows(f) then Failed(Counted(f).(errno := HeaderOverflow), at, tr)
    else
      match e.control
      case Break => Running(e.next, Extended(tr, f.state, e.next.state, ch, Events(e.ops)))
      case Fail => Failed(e.next, at, Opened(tr, f.state, ch))
      case Exit => Upgraded(e.next, at, Extended(tr, f.state, e.next.state, ch, Events(e.ops)))
      case _ => Aborted
  }

  function Stream(f: Fields, tr: Trace, data: string, at: nat): Outcome
    decreases |data|
  {
    hide Step;
    if data == [] then Running(f, tr)
    else
      match Step(f, tr, data[0], at)
      case Running(g, t) => Stream(g, t, data[1..], at + 1)
      case stopped => stopped
  }

  function Concat(pieces: seq<string>): string {
    if pieces == [] then "" else pieces[0] + Concat(pieces[1..])
  }

  /** A stream may be cut anywhere. */
  lemma {:induction false} StreamSplit(f: Fields, tr: Trace, a: string, b: string, at: nat)
    ensures Stream(f, tr, a + b, at) ==
      match Stream(f, tr, a, at)
      case Running(g, t) => Stream(g, t, b, at + |a|)
      case stopped => stopped
    decreases |a|
  {
    hide Step;
    if a == [] {
      assert a + b == b;
    } else {
      assert (a + b)[0] == a[0] && (a + b)[1..] == a[1..] + b;
      match Step(f, tr, a[0], at)
      case Running(g, t) => StreamSplit(g, t, a[1..], b, at + 1);
      case _ =>
    }
  }

  lemma AppendTwice(tr: Trace, k: Kind, a: string, b: string)
    ensures Append(Append(tr, k, a), k, b) == Append(tr, k, a + b)
  {
    var t := Append(tr, k, a);
    assert EndsWith(t, k) && t[|t| - 1].bytes + b == (if EndsWith(tr, k) then tr[|tr| - 1].bytes else "") + (a + b);
  }

  lemma AppendEnds(tr: Trace, k: Kind, bytes: string)
    ensures EndsWith(Append(tr, k, bytes), k)
    ensures Append(tr, k, bytes) + [] == Append(tr, k, bytes)
  {
  }

  lemma AppendNothing(tr: Trace, k: Kind)
    requires EndsWith(tr, k)
    ensures Append(tr, k, "") == tr
  {
    assert tr[|tr| - 1].bytes + "" == tr[|tr| - 1].bytes;
  }

  lemma GlueSnoc(calls: seq<Callback>, c: Callback)
    ensures Glue(calls + [c]) == if c.Data? then Append(Glue(calls), c.kind, c.bytes) else Glue(calls) + [c]
  {
    assert (calls + [c])[..|calls + [c]| - 1] == calls;
  }
}
