/** Writing JSON: from values to text, and why reading the text gives the value back. */
module JsonDump {
  import opened Wrappers
  import opened JsonText
  import opened JsonRead
  import V = JsonValue

  function Quoted(s: string): string { "\"" + Escape(s) + "\"" }

  function Dump(d: Doc): string {
    match d
    case Nothing => "null"
    case No => "false"
    case Yes => "true"
    case Num(text) => text
    case Text(s) => Quoted(s)
    case Arr(items) => "[" + DumpItems(items) + "]"
    case Obj(entries) => "{" + DumpEntries(entries) + "}"
  }

  function DumpItems(items: seq<Doc>): string {
    if items == [] then ""
    else if |items| == 1 then Dump(items[0])
    else Dump(items[0]) + "," + DumpItems(items[1..])
  }

  function DumpEntry(e: (string, Doc)): string {
    Quoted(e.0) + ":" + Dump(e.1)
  }

  function DumpEntries(entries: seq<(string, Doc)>): string {
    if entries == [] then ""
    else if |entries| == 1 then DumpEntry(entries[0])
    else DumpEntry(entries[0]) + "," + DumpEntries(entries[1..])
  }

  ghost predicate NoNumbers(d: Doc) {
    match d
    case Num(_) => false
    case Arr(items) => forall x | x in items :: NoNumbers(x)
    case Obj(entries) => forall e | e in entries :: NoNumbers(e.1)
    case _ => true
  }

  /* ---- texts inside a text ---- */

  lemma WordSplit(s: string, p: nat, a: string, b: string)
    requires WordAt(s, p, a + b)
    ensures WordAt(s, p, a) && WordAt(s, p + |a|, b)
  {
    var w := s[p..p + |a + b|];
    assert w[..|a|] == a && w[|a|..] == b;
    assert s[p..p + |a|] == w[..|a|] && s[p + |a|..p + |a| + |b|] == w[|a|..];
  }

  lemma CharAt(s: string, p: nat, c: char)
    requires WordAt(s, p, [c])
    ensures p < |s| && s[p] == c
  {
  }

  lemma WordStart(s: string, p: nat, w: string)
    requires WordAt(s, p, w) && w != ""
    ensures p < |s| && s[p] == w[0]
  {
  }

  lemma DumpStarts(d: Doc)
    requires NoNumbers(d)
    ensures Dump(d) != "" && Dump(d)[0] in "ntf\"[{"
  {
  }

  /** A written string is read back, escapes and all. */
  lemma {:induction false} QuotedRoundTrip(s: string, p: nat, t: string)
    requires Terminated(s) && WordAt(s, p, Escape(t) + "\"")
    ensures p < |s| && StringEnd(s, p) == Some(p + |Escape(t)|)
    decreases |t|
  {
    hide StringEnd, EscapeChar, WordAt;
    if t == "" {
      assert Escape(t) + "\"" == "\"";
      CharAt(s, p, '"');
      QuoteEnds(s, p);
    } else {
      var e, rest := EscapeChar(t[0]), Escape(t[1..]) + "\"";
      assert Escape(t) + "\"" == e + rest;
      hide Escape;
      WordSplit(s, p, e, rest);
      QuotedRoundTrip(s, p + |e|, t[1..]);
      EscapedCharAt(s, p, t[0]);
    }
  }

  lemma QuoteEnds(s: string, p: nat)
    requires Terminated(s) && p < |s| && s[p] == '"'
    ensures StringEnd(s, p) == Some(p)
  {
  }

  /** The reader steps over one escaped character. */
  lemma EscapedCharAt(s: string, p: nat, c: char)
    requires Terminated(s) && WordAt(s, p, EscapeChar(c)) && p + |EscapeChar(c)| < |s|
    ensures p < |s| && StringEnd(s, p) == StringEnd(s, p + |EscapeChar(c)|)
  {
    var e := EscapeChar(c);
    EscapedChar(c);
    assert forall k | 0 <= k < |e| :: s[p + k] == s[p..p + |e|][k] == e[k];
  }

  lemma QuotedText(s: string, p: nat, t: string)
    requires Terminated(s) && WordAt(s, p, Quoted(t))
    ensures p + |Quoted(t)| <= |s| && s[p] == '"' && p + 1 < |s|
    ensures StringEnd(s, p + 1) == Some(p + |Quoted(t)| - 1) && StringText(s, p + 1) == t
  {
    hide StringEnd, Escape, WellEscaped, Unescape, EscapeChar, WordAt, Quoted;
    QuotedParts(s, p, t);
    QuotedRoundTrip(s, p + 1, t);
    WordIs(s, p + 1, Escape(t));
    UnescapeEscape(t);
  }

  lemma QuotedParts(s: string, p: nat, t: string)
    requires WordAt(s, p, Quoted(t))
    ensures p + |Quoted(t)| <= |s| && |Quoted(t)| == |Escape(t)| + 2 && s[p] == '"'
    ensures WordAt(s, p + 1, Escape(t) + "\"") && WordAt(s, p + 1, Escape(t))
  {
    hide Escape;
    assert Quoted(t) == "\"" + (Escape(t) + "\"");
    WordSplit(s, p, "\"", Escape(t) + "\"");
    CharAt(s, p, '"');
    WordSplit(s, p + 1, Escape(t), "\"");
  }

  lemma WordIs(s: string, p: nat, w: string)
    requires WordAt(s, p, w)
    ensures p + |w| <= |s| && s[p..p + |w|] == w
  {
  }

  /* ---- how a reading is put together ---- */

  lemma NoSpaceHere(s: string, p: nat)
    requires Terminated(s) && p < |s| && !IsSpace(s[p])
    ensures SkipSpaces(s, p) == p
  {
  }

  lemma ReadList(s: string, p: nat, items: seq<Doc>, q: nat)
    requires Terminated(s) && p + 1 < |s| && s[p] == '[' && s[p + 1] in "]ntf\"[{"
    requires if s[p + 1] == ']' then items == [] && q == p + 2 else ReadItems(s, p + 1) == Some((items, q))
    ensures ReadValue(s, p) == Some((Arr(items), q))
  {
  }

  lemma ReadObject(s: string, p: nat, entries: seq<(string, Doc)>, q: nat)
    requires Terminated(s) && p + 1 < |s| && s[p] == '{' && s[p + 1] in "}\""
    requires if s[p + 1] == '}' then entries == [] && q == p + 2 else ReadEntries(s, p + 1) == Some((entries, q))
    ensures ReadValue(s, p) == Some((Obj(entries), q))
  {
  }

  lemma ReadWord(s: string, p: nat, d: Doc)
    requires Terminated(s) && WordAt(s, p, Dump(d)) && (d == Nothing || d == No || d == Yes)
    ensures p < |s| && ReadValue(s, p) == Some((d, p + |Dump(d)|))
  {
    hide ReadItems, ReadEntries, StringEnd, NumberEnd;
    WordInside(s, p, Dump(d));
    WordStart(s, p, Dump(d));
  }

  lemma ReadQuoted(s: string, p: nat, t: string)
    requires Terminated(s) && WordAt(s, p, Quoted(t))
    ensures p < |s| && ReadValue(s, p) == Some((Text(t), p + |Quoted(t)|))
  {
    hide ReadItems, ReadEntries, StringEnd, NumberEnd, StringText, WordAt, Quoted;
    QuotedText(s, p, t);
  }

  lemma ReadItemsOf(s: string, p: nat, d: Doc, q: nat, rest: seq<Doc>, r: nat)
    requires Terminated(s) && p < |s| && ReadValue(s, p) == Some((d, q)) && q < |s|
    requires if rest == [] then s[q] == ']' && r == q + 1 && r < |s|
             else s[q] == ',' && q + 1 < |s| && !IsSpace(s[q + 1]) && ReadItems(s, q + 1) == Some((rest, r))
    ensures ReadItems(s, p) == Some(([d] + rest, r))
  {
    hide ReadValue;
    NoSpaceHere(s, q);
    assert rest == [] ==> [d] + rest == [d];
    if rest != [] { NoSpaceHere(s, q + 1); }
  }

  lemma ReadEntryOf(s: string, p: nat, key: string, c: nat, d: Doc, r: nat)
    requires Terminated(s) && p + 1 < |s| && s[p] == '"' && StringEnd(s, p + 1) == Some(c - 1)
      && StringText(s, p + 1) == key
    requires c + 1 < |s| && s[c] == ':' && !IsSpace(s[c + 1]) && ReadValue(s, c + 1) == Some((d, r))
    ensures ReadEntry(s, p) == Some((key, d, r))
  {
    hide ReadValue, StringEnd, StringText;
    NoSpaceHere(s, c);
    NoSpaceHere(s, c + 1);
  }

  lemma ReadEntriesOf(s: string, p: nat, e: (string, Doc), q: nat, rest: seq<(string, Doc)>, r: nat)
    requires Terminated(s) && p < |s| && ReadEntry(s, p) == Some((e.0, e.1, q)) && q < |s|
    requires if rest == [] then s[q] == '}' && r == q + 1 && r < |s|
             else s[q] == ',' && q + 1 < |s| && !IsSpace(s[q + 1]) && ReadEntries(s, q + 1) == Some((rest, r))
    ensures ReadEntries(s, p) == Some(([e] + rest, r))
  {
    hide ReadEntry;
    NoSpaceHere(s, q);
    assert rest == [] ==> [e] + rest == [e];
    if rest != [] { NoSpaceHere(s, q + 1); }
  }

  /* ---- how a written text is put together ---- */

  lemma DumpList(s: string, p: nat, items: seq<Doc>)
    requires WordAt(s, p, Dump(Arr(items)))
    ensures p < |s| && s[p] == '[' && WordAt(s, p + 1, DumpItems(items) + "]")
      && |Dump(Arr(items))| == |DumpItems(items)| + 2
  {
    hide WordAt, DumpItems;
    assert Dump(Arr(items)) == "[" + (DumpItems(items) + "]");
    WordSplit(s, p, "[", DumpItems(items) + "]");
    CharAt(s, p, '[');
  }

  lemma DumpObject(s: string, p: nat, entries: seq<(string, Doc)>)
    requires WordAt(s, p, Dump(Obj(entries)))
    ensures p < |s| && s[p] == '{' && WordAt(s, p + 1, DumpEntries(entries) + "}")
    ensures |Dump(Obj(entries))| == |DumpEntries(entries)| + 2
  {
    hide WordAt, DumpEntries;
    assert Dump(Obj(entries)) == "{" + (DumpEntries(entries) + "}");
    WordSplit(s, p, "{", DumpEntries(entries) + "}");
    CharAt(s, p, '{');
  }

  lemma DumpFirst(s: string, p: nat, items: seq<Doc>)
    requires items != [] && WordAt(s, p, DumpItems(items) + "]")
    ensures var d := Dump(items[0]);
      && WordAt(s, p, d) && p + |d| < |s|
      && if |items| == 1 then s[p + |d|] == ']' && |DumpItems(items)| == |d|
         else s[p + |d|] == ',' && WordAt(s, p + |d| + 1, DumpItems(items[1..]) + "]")
              && |DumpItems(items)| == |d| + 1 + |DumpItems(items[1..])|
  {
    hide WordAt, Dump;
    var d := Dump(items[0]);
    var rest := if |items| == 1 then "]" else "," + (DumpItems(items[1..]) + "]");
    assert DumpItems(items) + "]" == d + rest;
    WordSplit(s, p, d, rest);
    WordStart(s, p + |d|, rest);
    if |items| > 1 { WordSplit(s, p + |d|, ",", DumpItems(items[1..]) + "]"); }
  }

  lemma DumpFirstEntry(s: string, p: nat, entries: seq<(string, Doc)>)
    requires entries != [] && WordAt(s, p, DumpEntries(entries) + "}")
    ensures var d := DumpEntry(entries[0]);
      && WordAt(s, p, d) && p + |d| < |s|
      && if |entries| == 1 then s[p + |d|] == '}' && |DumpEntries(entries)| == |d|
         else s[p + |d|] == ',' && WordAt(s, p + |d| + 1, DumpEntries(entries[1..]) + "}")
              && |DumpEntries(entries)| == |d| + 1 + |DumpEntries(entries[1..])|
  {
    hide WordAt, DumpEntry;
    var d := DumpEntry(entries[0]);
    var rest := if |entries| == 1 then "}" else "," + (DumpEntries(entries[1..]) + "}");
    assert DumpEntries(entries) + "}" == d + rest;
    WordSplit(s, p, d, rest);
    WordStart(s, p + |d|, rest);
    if |entries| > 1 { WordSplit(s, p + |d|, ",", DumpEntries(entries[1..]) + "}"); }
  }

  /* ---- the round trip ---- */

  /** Reading a written document gives the document, and ends where it ends. */
  lemma {:induction false} RoundTrip(s: string, p: nat, d: Doc)
    requires Terminated(s) && WordAt(s, p, Dump(d)) && NoNumbers(d)
    ensures p < |s| && ReadValue(s, p) == Some((d, p + |Dump(d)|)) && s[p] in "ntf\"[{"
    decreases d, 0
  {
    hide ReadValue, ReadItems, ReadEntries, WordAt, DumpItems, DumpEntries;
    DumpStarts(d);
    WordStart(s, p, Dump(d));
    match d
    case Nothing => ReadWord(s, p, d);
    case No => ReadWord(s, p, d);
    case Yes => ReadWord(s, p, d);
    case Text(t) => ReadQuoted(s, p, t);
    case Arr(items) =>
      DumpList(s, p, items);
      if items == [] {
        NoItems();
        CharAt(s, p + 1, ']');
      } else {
        RoundTripItems(s, p + 1, items);
      }
      ReadList(s, p, items, p + |Dump(d)|);
    case Obj(entries) =>
      DumpObject(s, p, entries);
      if entries == [] {
        NoItems();
        CharAt(s, p + 1, '}');
      } else {
        RoundTripEntries(s, p + 1, entries);
      }
      ReadObject(s, p, entries, p + |Dump(d)|);
  }

  lemma NoItems()
    ensures DumpItems([]) == "" && DumpItems([]) + "]" == "]" && DumpEntries([]) == "" && DumpEntries([]) + "}" == "}"
  {
  }

  lemma {:induction false} RoundTripItems(s: string, p: nat, items: seq<Doc>)
    requires Terminated(s) && items != [] && WordAt(s, p, DumpItems(items) + "]")
      && forall x | x in items :: NoNumbers(x)
    ensures p < |s| && ReadItems(s, p) == Some((items, p + |DumpItems(items)| + 1)) && s[p] in "ntf\"[{"
    decreases items, 1
  {
    hide ReadValue, ReadItems, WordAt, Dump, DumpItems;
    var q := p + |Dump(items[0])|;
    DumpFirst(s, p, items);
    RoundTrip(s, p, items[0]);
    assert items == [items[0]] + items[1..];
    if |items| > 1 { RoundTripItems(s, q + 1, items[1..]); }
    ReadItemsOf(s, p, items[0], q, items[1..], p + |DumpItems(items)| + 1);
  }

  lemma {:induction false} RoundTripEntry(s: string, p: nat, e: (string, Doc))
    requires Terminated(s) && WordAt(s, p, DumpEntry(e)) && NoNumbers(e.1)
    ensures p < |s| && ReadEntry(s, p) == Some((e.0, e.1, p + |DumpEntry(e)|)) && s[p] == '"'
    decreases e, 0
  {
    hide ReadValue, ReadEntry, WordAt, Dump, Quoted, StringEnd, StringText;
    var c := p + |Quoted(e.0)|;
    assert DumpEntry(e) == Quoted(e.0) + (":" + Dump(e.1));
    WordSplit(s, p, Quoted(e.0), ":" + Dump(e.1));
    WordSplit(s, c, ":", Dump(e.1));
    QuotedText(s, p, e.0);
    CharAt(s, c, ':');
    RoundTrip(s, c + 1, e.1);
    ReadEntryOf(s, p, e.0, c, e.1, c + 1 + |Dump(e.1)|);
  }

  lemma {:induction false} RoundTripEntries(s: string, p: nat, entries: seq<(string, Doc)>)
    requires Terminated(s) && entries != [] && WordAt(s, p, DumpEntries(entries) + "}")
    requires forall e | e in entries :: NoNumbers(e.1)
    ensures p < |s| && ReadEntries(s, p) == Some((entries, p + |DumpEntries(entries)| + 1)) && s[p] == '"'
    decreases entries, 1
  {
    hide ReadEntry, ReadEntries, WordAt, DumpEntry, DumpEntries;
    var q := p + |DumpEntry(entries[0])|;
    DumpFirstEntry(s, p, entries);
    RoundTripEntry(s, p, entries[0]);
    assert entries == [entries[0]] + entries[1..];
    if |entries| > 1 { RoundTripEntries(s, q + 1, entries[1..]); }
    ReadEntriesOf(s, p, entries[0], q, entries[1..], p + |DumpEntries(entries)| + 1);
  }

  /** A text that was written is read as the document it was written from. */
  lemma ReadDump(d: Doc)
    requires NoNumbers(d)
    ensures ReadText(Dump(d) + "\0") == Some(d)
  {
    var s := Dump(d) + "\0";
    assert s[0..|Dump(d)|] == Dump(d);
    RoundTrip(s, 0, d);
    DumpStarts(d);
  }

  /* ---- documents and values ---- */

  /** The value of a document: of two entries with one key, the first counts. */
  function ValueOf(d: Doc): V.Value
    decreases d, 0
  {
    match d
    case Nothing => V.Null
    case No => V.False
    case Yes => V.True
    case Num(text) => V.Number(text)
    case Text(s) => V.Str(s)
    case Arr(items) => V.List(seq(|items|, i requires 0 <= i < |items| => ValueOf(items[i])))
    case Obj(entries) => V.Object(Fields(entries))
  }

  function Fields(entries: seq<(string, Doc)>): map<string, V.Value>
    decreases entries, 1
  {
    if entries == [] then map[]
    else
      var rest, last := Fields(entries[..|entries| - 1]), entries[|entries| - 1];
      if last.0 in rest then rest else rest[last.0 := EntryValue(last)]
  }

  function EntryValue(e: (string, Doc)): V.Value
    decreases e, 0
  {
    ValueOf(e.1)
  }

  ghost predicate HasNumbers(v: V.Value) {
    match v
    case Number(_) => true
    case List(items) => exists i :: 0 <= i < |items| && HasNumbers(items[i])
    case Object(fields) => exists k :: k in fields && HasNumbers(fields[k])
    case _ => false
  }

  /** dump_internal: the text is appended to `out`. An object's entries come in the order in which its
      table is walked; `d` tells which. */
  method DumpInternal(v: V.Value, out: string) returns (out': string, ghost d: Doc)
    ensures out' == out + Dump(d) && ValueOf(d) == v
    ensures !HasNumbers(v) ==> NoNumbers(d)
    decreases v, 1
  {
    hide Dump, Escape;
    match v {
      case Null => out', d := out + "null", Nothing; DumpWords();
      case False => out', d := out + "false", No; DumpWords();
      case True => out', d := out + "true", Yes; DumpWords();
      case Number(text) => out', d := out + text, Num(text); DumpNumber(text);
      case Str(s) => out', d := out + "\"" + Escape(s) + "\"", Text(s); DumpText(out, s);
      case List(items) =>
        ghost var ds;
        out', ds := DumpAll(items, out + "[");
        out' := out' + "]";
        d := Arr(ds);
        DumpBrackets(out, ds);
      case Object(fields) =>
        ghost var ds;
        out', ds := DumpFields(v, out + "{");
        out' := out' + "}";
        d := Obj(ds);
        DumpBraces(out, ds);
    }
  }

  lemma DumpWords()
    ensures Dump(Nothing) == "null" && Dump(No) == "false" && Dump(Yes) == "true"
  {
  }

  lemma DumpNumber(text: string)
    ensures Dump(Num(text)) == text
  {
  }

  lemma DumpText(out: string, s: string)
    ensures out + "\"" + Escape(s) + "\"" == out + Dump(Text(s))
  {
  }

  lemma DumpBrackets(out: string, ds: seq<Doc>)
    ensures out + "[" + DumpItems(ds) + "]" == out + Dump(Arr(ds))
  {
  }

  lemma DumpBraces(out: string, ds: seq<(string, Doc)>)
    ensures out + "{" + DumpEntries(ds) + "}" == out + Dump(Obj(ds))
  {
  }

  method DumpAll(items: seq<V.Value>, out: string) returns (out': string, ghost ds: seq<Doc>)
    ensures out' == out + DumpItems(ds) && |ds| == |items| && forall i | 0 <= i < |items| :: ValueOf(ds[i]) == items[i]
    ensures forall i | 0 <= i < |items| :: !HasNumbers(items[i]) ==> NoNumbers(ds[i])
    decreases items, 1
  {
    hide Dump, DumpItems, ValueOf, HasNumbers, NoNumbers;
    out', ds := out, [];
    DumpNone(out);
    var first := true;
    for i := 0 to |items|
      invariant |ds| == i && first == (i == 0) && out' == out + DumpItems(ds)
      invariant forall k | 0 <= k < i :: ValueOf(ds[k]) == items[k] && (!HasNumbers(items[k]) ==> NoNumbers(ds[k]))
    {
      ghost var before := out';
      if !first {
        out' := out' + ",";
      }
      first := false;
      ghost var d;
      out', d := DumpInternal(items[i], out');
      DumpItemsMore(out, ds, d);
      ds := ds + [d];
    }
  }

  lemma DumpNone(out: string)
    ensures out == out + DumpItems([]) == out + DumpEntries([])
  {
  }

  lemma DumpItemsMore(out: string, ds: seq<Doc>, d: Doc)
    ensures out + DumpItems(ds + [d]) == out + DumpItems(ds) + (if ds == [] then "" else ",") + Dump(d)
  {
    hide Dump;
    DumpItemsLast(ds, d);
  }

  lemma DumpItemsCons(d: Doc, more: seq<Doc>)
    ensures DumpItems([d] + more) == Dump(d) + (if more == [] then "" else ",") + DumpItems(more)
  {
    hide Dump;
    assert ([d] + more)[1..] == more;
  }

  lemma {:induction false} DumpItemsLast(ds: seq<Doc>, d: Doc)
    ensures DumpItems(ds + [d]) == DumpItems(ds) + (if ds == [] then "" else ",") + Dump(d)
  {
    hide Dump;
    if ds == [] {
      assert ds + [d] == [d];
    } else {
      DumpItemsLast(ds[1..], d);
      DumpItemsCons(ds[0], ds[1..]);
      DumpItemsCons(ds[0], ds[1..] + [d]);
      assert [ds[0]] + ds[1..] == ds && [ds[0]] + (ds[1..] + [d]) == ds + [d];
    }
    hide DumpItems;
  }

  lemma DumpFieldMore(out: string, ds: seq<(string, Doc)>, key: string, d: Doc)
    ensures (out + DumpEntries(ds) + if ds == [] then "" else ",") + "\"" + Escape(key) + "\"" + ":" + Dump(d)
      == out + DumpEntries(ds + [(key, d)])
  {
    hide Dump, Escape, DumpEntries;
    DumpEntriesLast(ds, (key, d));
    assert DumpEntry((key, d)) == "\"" + Escape(key) + "\"" + ":" + Dump(d);
  }

  lemma {:induction false} DumpEntriesLast(ds: seq<(string, Doc)>, e: (string, Doc))
    ensures DumpEntries(ds + [e]) == DumpEntries(ds) + (if ds == [] then "" else ",") + DumpEntry(e)
  {
    hide DumpEntry;
    if ds == [] {
      assert ds + [e] == [e];
    } else {
      DumpEntriesLast(ds[1..], e);
      assert (ds + [e])[1..] == ds[1..] + [e] && (ds + [e])[0] == ds[0];
    }
  }

  method DumpFields(v: V.Value, out: string) returns (out': string, ghost ds: seq<(string, Doc)>)
    requires v.Object?
    ensures out' == out + DumpEntries(ds) && Fields(ds) == v.fields
    ensures (forall k | k in v.fields :: !HasNumbers(v.fields[k])) ==> forall e | e in ds :: NoNumbers(e.1)
    decreases v, 0
  {
    var fields := v.fields;
    hide Dump, DumpEntries, DumpEntry, ValueOf, Fields, HasNumbers, NoNumbers, Escape;
    out', ds := out, [];
    DumpNone(out);
    FieldsNone();
    var first := true;
    var keys := fields.Keys;
    while keys != {}
      invariant keys <= fields.Keys && first == (ds == []) && out' == out + DumpEntries(ds)
      invariant Fields(ds) == map k | k in fields && k !in keys :: fields[k]
      invariant (forall k | k in fields :: !HasNumbers(fields[k])) ==> forall e | e in ds :: NoNumbers(e.1)
      decreases |keys|
    {
      var key :| key in keys;
      keys := keys - {key};
      ghost var sep := if first then "" else ",";
      if !first {
        out' := out' + ",";
      } else {
        assert out' + "" == out';
      }
      assert out' == out + DumpEntries(ds) + sep;
      first := false;
      out' := out' + "\"" + Escape(key) + "\"" + ":";
      ghost var d;
      out', d := DumpInternal(fields[key], out');
      DumpFieldMore(out, ds, key, d);
      FieldsMore(ds, key, d);
      ds := ds + [(key, d)];
      assert Fields(ds) == map k | k in fields && k !in keys :: fields[k];
    }
    assert (map k | k in fields && k !in keys :: fields[k]) == fields;
  }

  lemma FieldsNone()
    ensures Fields([]) == map[]
  {
  }

  lemma FieldsMore(ds: seq<(string, Doc)>, key: string, d: Doc)
    ensures Fields(ds + [(key, d)]) == if key in Fields(ds) then Fields(ds) else Fields(ds)[key := ValueOf(d)]
  {
  }
}
