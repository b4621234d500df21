/** The query string of a URL: the pairs are found once, their values decoded in place, and looked up
    by name. */
module QueryString {
  import opened Wrappers
  import opened QueryText

  const MAX_KEY_VALUE_PAIRS_COUNT := 256

  /** How the pair at `p` of the text `s` stands in the buffer once its value is decoded. */
  ghost predicate PairIs(buf: string, s: string, p: nat)
    requires Terminated(s) && p < |s|
  {
    var e := KeyEnd(s, p);
    && |buf| == |s| && buf[p..e] == s[p..e]
    && if s[e] == '=' || s[e] == '#' then
         var v := DecodeValue(s, e + 1);
         buf[e] == s[e] && e + 1 + |v| <= PairEnd(s, p) && buf[e + 1..e + 1 + |v|] == v && buf[e + 1 + |v|] == '\0'
       else buf[e] == '\0'
  }

  lemma PairStays(buf: string, buf': string, s: string, p: nat)
    requires Terminated(s) && p < |s| && PairIs(buf, s, p)
    requires |buf'| == |s| && forall k | p <= k <= PairEnd(s, p) :: buf'[k] == buf[k]
    ensures PairIs(buf', s, p)
  {
  }

  lemma ValueInPair(s: string, p: nat)
    requires Terminated(s) && p < |s|
    ensures var e := KeyEnd(s, p);
      e <= PairEnd(s, p) && (s[e] == '=' || s[e] == '#' ==> e + 1 + |DecodeValue(s, e + 1)| <= PairEnd(s, p))
  {
    hide Span, DecodeValue;
    SpanOfMore(s, p, "&", "=&#");
    var e := KeyEnd(s, p);
    if s[e] == '=' || s[e] == '#' {
      DecodeShrinks(s, e + 1);
      SpanOfMore(s, e + 1, "&", "=#&");
      SpanSkips(s, p, e + 1);
    }
  }

  lemma {:induction false} SpanSkips(s: string, p: nat, q: nat)
    requires Terminated(s) && p <= q < |s| && forall k | p <= k < q :: s[k] != '&' && s[k] != '\0'
    ensures Span(s, p, "&") == Span(s, q, "&")
    decreases q - p
  {
    if p < q { SpanSkips(s, p + 1, q); }
  }

  /** The next pair begins behind the end of this one. */
  lemma {:induction false} StartsApart(s: string, p: nat, j: nat)
    requires Terminated(s) && p < |s| && j + 1 < |Starts(s, p)|
    ensures PairEnd(s, Starts(s, p)[j]) + 1 == Starts(s, p)[j + 1] && s[PairEnd(s, Starts(s, p)[j])] == '&'
    decreases j
  {
    hide Starts, Span;
    StartsIs(s, p);
    var e := PairEnd(s, p);
    if j > 0 {
      StartsApart(s, e + 1, j - 1);
    } else {
      StartsIs(s, e + 1);
    }
  }

  /* ---- decoding a value ---- */

  /** In the middle of decoding: the write cursor is not past the read cursor, what is written and
      what is still to read make up the value, and nothing else has changed. */
  ghost predicate Decoding(buf0: string, buf: string, s: string, p: nat, i: nat, j: nat)
    requires Terminated(s)
  {
    && p <= i <= j < |s| == |buf| == |buf0| && buf[j..] == s[j..]
    && buf[p..i] + DecodeValue(s, j) == DecodeValue(s, p)
    && forall k | 0 <= k < |s| && !(p <= k < i) :: buf[k] == buf0[k]
  }

  lemma DecodingStarts(buf: string, s: string, p: nat)
    requires Terminated(s) && p < |s| == |buf| && buf[p..] == s[p..]
    ensures Decoding(buf, buf, s, p, p, p)
  {
  }

  lemma SameText(buf: string, s: string, j: nat)
    requires j < |s| == |buf| && buf[j..] == s[j..]
    ensures forall k | j <= k < |s| :: buf[k] == s[k]
  {
  }

  lemma PercentInside(s: string, j: nat)
    requires Terminated(s) && j < |s|
    ensures s[j] == '%' ==> j + 1 < |s| && (IsHex(s[j + 1]) ==> j + 2 < |s|)
    ensures Malformed(s, j) <==> s[j] == '%' && !(IsHex(s[j + 1]) && IsHex(s[j + 2]))
    ensures s[j] == '%' && !Malformed(s, j) ==> j + 3 < |s|
  {
  }

  lemma MalformedEnds(buf0: string, buf: string, s: string, p: nat, i: nat, j: nat)
    requires Terminated(s) && Decoding(buf0, buf, s, p, i, j) && Malformed(s, j)
    ensures buf[p..i] == DecodeValue(s, p)
  {
  }

  lemma DecodingEnds(buf0: string, buf: string, s: string, p: nat, i: nat, j: nat)
    requires Terminated(s) && Decoding(buf0, buf, s, p, i, j) && !IsQsChar(s[j])
    ensures buf[p..i] == DecodeValue(s, p)
  {
  }

  lemma DecodingGoesOn(buf0: string, buf: string, s: string, p: nat, i: nat, j: nat)
    requires Terminated(s) && Decoding(buf0, buf, s, p, i, j) && IsQsChar(s[j]) && !Malformed(s, j)
    ensures var (c, q) := DecodeChar(s, j);
      i < |buf| && q < |s| && Decoding(buf0, buf[i := c], s, p, i + 1, q)
      && s[j..][..q - j] == s[j..q] && (c, q) == if s[j] == '+' then (' ', j + 1)
        else if s[j] == '%' then (Byte(s[j + 1], s[j + 2]), j + 3) else (s[j], j + 1)
  {
  }

  /* ---- looking up a name ---- */

  lemma KeyCharIs(buf: string, s: string, p: nat, q: nat)
    requires Terminated(s) && p < |s| && PairIs(buf, s, p) && p <= q <= KeyEnd(s, p)
    ensures KeyEnd(s, p) < |s| == |buf|
    ensures if q < KeyEnd(s, p) then buf[q] == s[q] && IsQsChar(s[q]) else !IsQsChar(buf[q]) && !IsQsChar(s[q])
    ensures q == KeyEnd(s, p) ==> !IsHex(buf[q]) && !IsHex(s[q])
  {
  }

  /** The next character that is compared, of a name or a key; a NUL where it ends. */
  function Shown(s: string, p: nat): char
    requires Terminated(s) && p < |s|
  {
    if !IsQsChar(s[p]) || Malformed(s, p) then '\0' else DecodeChar(s, p).0
  }

  lemma ShownFirst(s: string, p: nat)
    requires Terminated(s) && p < |s|
    ensures var c := Shown(s, p);
      if c == '\0' then CString(DecodeValue(s, p)) == ""
      else
        && IsQsChar(s[p]) && !Malformed(s, p)
        && DecodeValue(s, p) == [c] + DecodeValue(s, DecodeChar(s, p).1)
        && CString(DecodeValue(s, p)) == [c] + CString(DecodeValue(s, DecodeChar(s, p).1))
  {
    hide DecodeChar, Malformed;
    if IsQsChar(s[p]) && !Malformed(s, p) {
      var c, rest := DecodeChar(s, p).0, DecodeValue(s, DecodeChar(s, p).1);
      assert ([c] + rest)[0] == c && ([c] + rest)[1..] == rest;
    }
  }

  /** A key that begins with a given character. */
  lemma KeyBegins(s: string, q: nat, c: char, rest: string)
    requires Terminated(s) && q < |s|
    ensures DecodeKey(s, q) == Some([c] + rest) <==>
      && IsQsChar(s[q]) && !Malformed(s, q) && DecodeChar(s, q).0 == c
      && DecodeKey(s, DecodeChar(s, q).1) == Some(rest)
  {
    hide DecodeChar, Malformed;
    assert ([c] + rest)[0] == c && ([c] + rest)[1..] == rest;
    if IsQsChar(s[q]) && !Malformed(s, q) && DecodeKey(s, DecodeChar(s, q).1).Some? {
      var d, more := DecodeChar(s, q).0, DecodeKey(s, DecodeChar(s, q).1).value;
      assert ([d] + more)[0] == d && ([d] + more)[1..] == more;
    }
  }

  /** One more character of name and key. */
  lemma FitsStep(text: string, literal: bool, i: nat, s: string, q: nat)
    requires Terminated(text) && i < |text| && Terminated(s) && q < |s|
    requires literal ==> IsQsChar(text[i]) && text[i] != '%'
    ensures var a, b := Shown(text, i), Shown(s, q);
      if a != b then !FitsFrom(text, literal, i, s, q)
      else if a == '\0' then !literal && FitsFrom(text, literal, i, s, q)
      else
        && IsQsChar(text[i]) && !Malformed(text, i) && IsQsChar(s[q]) && !Malformed(s, q)
        && (FitsFrom(text, literal, i, s, q) <==>
              FitsFrom(text, literal, DecodeChar(text, i).1, s, DecodeChar(s, q).1))
  {
    assert literal ==> Shown(text, i) != '\0';
    hide DecodeValue, DecodeKey, CString, DecodeChar, Malformed;
    ShownFirst(text, i);
    ShownFirst(s, q);
    if Shown(text, i) != '\0' {
      var c, rest := Shown(text, i), DecodeValue(text, DecodeChar(text, i).1);
      KeyBegins(s, q, c, rest);
      if !literal { SameFirst(c, CString(rest), s, q); }
    }
  }

  /** Something between `i` and `j` is not compared as one character. */
  predicate Special(text: string, i: nat, j: nat)
    requires j <= |text|
  {
    exists k :: i <= k < j && (!IsQsChar(text[k]) || text[k] == '%')
  }

  lemma LiteralText(name: string)
    ensures IsLiteral(name) <==> !Special(NameText(name), 0, |NameText(name)| - 1)
    ensures forall k | 0 <= k < |CString(name)| :: NameText(name)[k] == CString(name)[k]
  {
    hide CString;
    var t, text := CString(name), NameText(name);
    if IsLiteral(name) {
      assert forall k | 0 <= k < |t| :: text[k] in t;
    } else {
      var c :| c in t && (!IsQsChar(c) || c == '%');
      var k :| 0 <= k < |t| && t[k] == c;
      assert text[k] == c;
    }
  }

  /** What one character of a name counts for in the comparison. */
  lemma NameStep(text: string, i: nat)
    requires Terminated(text) && i < |text| && Shown(text, i) != '\0'
    ensures var next := DecodeChar(text, i).1;
      i + 1 < |text| && (if text[i] == '%' then next == i + 3 else next == i + 1) && next < |text|
  {
  }

  lemma NameIsOver(text: string, s: string, q: nat)
    requires Terminated(text) && Terminated(s) && q < |s|
    ensures FitsFrom(text, true, |text| - 1, s, q) <==> !IsQsChar(s[q])
  {
    KeyIsOver(s, q);
  }

  lemma SameFirst(c: char, rest: string, s: string, q: nat)
    requires Terminated(s) && q < |s| && c != '\0'
    ensures CString(DecodeValue(s, q)) == [c] + rest <==>
      Shown(s, q) == c && CString(DecodeValue(s, DecodeChar(s, q).1)) == rest
  {
    hide DecodeValue, CString, DecodeChar, Malformed;
    ShownFirst(s, q);
    assert ([c] + rest)[0] == c && ([c] + rest)[1..] == rest;
    if Shown(s, q) != '\0' {
      var more := CString(DecodeValue(s, DecodeChar(s, q).1));
      assert ([Shown(s, q)] + more)[0] == Shown(s, q) && ([Shown(s, q)] + more)[1..] == more;
    }
  }

  /** Scanning for the equals sign finds what follows it, up to the end of the C string. */
  lemma ScanOn(t: string)
    requires t != "" && t[0] != '=' && t[0] != '\0'
    ensures AfterEquals(CString(t)) == AfterEquals(CString(t[1..]))
  {
  }

  lemma {:induction false} CStringOver(a: string, b: string)
    requires '\0' !in a
    ensures CString(a + b) == a + CString(b)
  {
    if a == "" {
      assert a + b == b;
    } else {
      CStringOver(a[1..], b);
      assert (a + b)[1..] == a[1..] + b && (a + b)[0] == a[0];
    }
  }

  lemma {:induction false} CStringEnds(v: string, b: string)
    ensures CString(v + "\0" + b) == CString(v)
  {
    if v == "" {
      assert v + "\0" + b == "\0" + b;
    } else {
      CStringEnds(v[1..], b);
      assert (v + "\0" + b)[1..] == v[1..] + "\0" + b && (v + "\0" + b)[0] == v[0];
    }
  }

  lemma {:induction false} NoEqualsOver(a: string, b: string)
    requires '=' !in a
    ensures AfterEquals(a + b) == AfterEquals(b)
  {
    if a == "" {
      assert a + b == b;
    } else {
      NoEqualsOver(a[1..], b);
      assert (a + b)[1..] == a[1..] + b && (a + b)[0] == a[0];
    }
  }

  /** What follows the first equals sign of a pair in the buffer is the pair's value. */
  lemma ValueFollows(buf: string, s: string, p: nat)
    requires Terminated(s) && p < |s| && PairIs(buf, s, p)
    ensures AfterEquals(CString(buf[p..])) == ValueAt(s, p)
  {
    hide PairIs, DecodeValue, Span, CString, AfterEquals;
    var e := KeyEnd(s, p);
    var key := s[p..e];
    KeyCharIs(buf, s, p, e);
    KeyInBuffer(buf, s, p);
    assert buf[p..] == key + buf[e..];
    CStringOver(key, buf[e..]);
    NoEqualsOver(key, CString(buf[e..]));
    TailOfPair(buf, s, p);
  }

  lemma KeyInBuffer(buf: string, s: string, p: nat)
    requires Terminated(s) && p < |s| && PairIs(buf, s, p)
    ensures var e := KeyEnd(s, p); e <= |buf| && buf[p..e] == s[p..e] && '=' !in s[p..e] && '\0' !in s[p..e]
  {
  }

  lemma TailOfPair(buf: string, s: string, p: nat)
    requires Terminated(s) && p < |s| && PairIs(buf, s, p)
    ensures AfterEquals(CString(buf[KeyEnd(s, p)..])) == ValueAt(s, p)
  {
    hide DecodeValue, Span;
    var e := KeyEnd(s, p);
    if s[e] == '=' || s[e] == '#' {
      var v := DecodeValue(s, e + 1);
      var rest := buf[e + 2 + |v|..];
      assert buf[e..] == [s[e]] + (v + "\0" + rest);
      ClosedValue(s[e], v, rest);
    }
  }

  lemma ClosedValue(c: char, v: string, rest: string)
    requires c == '=' || c == '#'
    ensures var t := [c] + (v + "\0" + rest);
      AfterEquals(CString(t)) == if c == '=' then CString(v) else AfterEquals(CString(v))
  {
    var t := [c] + (v + "\0" + rest);
    CStringEnds(v, rest);
    assert t[1..] == v + "\0" + rest;
    assert CString(t) == [c] + CString(v);
    assert ([c] + CString(v))[1..] == CString(v);
  }

  /** There is a NUL in the rest of the buffer. */
  lemma PairCloses(buf: string, s: string, p: nat)
    requires Terminated(s) && p < |s| && PairIs(buf, s, p)
    ensures exists k :: p <= k < |buf| && buf[k] == '\0'
  {
  }

  lemma KeyIsOver(s: string, q: nat)
    requires Terminated(s) && q < |s|
    ensures DecodeKey(s, q) == Some("") <==> !IsQsChar(s[q])
  {
  }

  lemma EqualsFound(buf: string, r: nat)
    requires r < |buf| && buf[r] == '=' && exists k :: r <= k < |buf| && buf[k] == '\0'
    ensures r + 1 < |buf| && AfterEquals(CString(buf[r..])) == CString(buf[r + 1..])
  {
  }

  ghost predicate MatchingSoFar(s: string, starts: seq<nat>, name: string, i: nat, done: seq<nat>)
    requires Terminated(s) && i <= |starts| && forall k | 0 <= k < |starts| :: starts[k] < |s|
  {
    done + Matching(s, starts[i..], name) == Matching(s, starts, name)
  }

  lemma MatchingStarts(s: string, starts: seq<nat>, name: string)
    requires Terminated(s) && forall k | 0 <= k < |starts| :: starts[k] < |s|
    ensures MatchingSoFar(s, starts, name, 0, [])
  {
  }

  lemma MatchingNext(s: string, starts: seq<nat>, name: string, i: nat, done: seq<nat>)
    requires Terminated(s) && i < |starts| && forall k | 0 <= k < |starts| :: starts[k] < |s|
    requires MatchingSoFar(s, starts, name, i, done)
    ensures if Fits(name, s, starts[i]) then
              MatchingSoFar(s, starts, name, i + 1, done + [starts[i]])
              && |done| < |Matching(s, starts, name)| && Matching(s, starts, name)[|done|] == starts[i]
            else MatchingSoFar(s, starts, name, i + 1, done)
  {
    hide Fits, Matching, Terminated;
    var rest := Matching(s, starts[i + 1..], name);
    MatchingFirst(s, starts, name, i);
    if Fits(name, s, starts[i]) {
      assert done + ([starts[i]] + rest) == done + [starts[i]] + rest;
    }
  }

  lemma MatchingFirst(s: string, starts: seq<nat>, name: string, i: nat)
    requires Terminated(s) && i < |starts| && forall k | 0 <= k < |starts| :: starts[k] < |s|
    ensures var rest := Matching(s, starts[i + 1..], name);
      Matching(s, starts[i..], name) == if Fits(name, s, starts[i]) then [starts[i]] + rest else rest
  {
  }

  lemma MatchingEnds(s: string, starts: seq<nat>, name: string, done: seq<nat>)
    requires Terminated(s) && (forall k | 0 <= k < |starts| :: starts[k] < |s|)
      && MatchingSoFar(s, starts, name, |starts|, done)
    ensures Matching(s, starts, name) == done
  {
  }

  class QueryString {
    const url: array<char>
    var pairs: seq<nat>
    ghost var source: string

    /** The pairs of the text this was made from are decoded in place. */
    ghost predicate Valid()
      reads this, url
    {
      && Terminated(source) && url.Length == |source| && pairs == Pairs(source)
      && forall k | 0 <= k < |pairs| :: PairIs(url[..], source, pairs[k])
    }

    constructor (text: string)
      requires |Pairs(text + "\0")| <= MAX_KEY_VALUE_PAIRS_COUNT
      ensures Valid() && source == text + "\0"
    {
      var buffer := new char[|text| + 1](k requires 0 <= k <= |text| => if k < |text| then text[k] else '\0');
      url, pairs, source := buffer, [], text + "\0";
      new;
      assert url[..] == source;
      if |text| != 0 {
        Parse(source);
      }
    }

    /** qs_strncmp over the whole name: 0 if the name fits the key of the pair at `p`. */
    method Compare(name: string, p: nat) returns (r: int)
      requires Valid() && p < |source| && PairIs(url[..], source, p)
      ensures r == 0 <==> Fits(name, source, p)
    {
      hide DecodeKey, PairIs, Pairs, Span, FitsFrom, CString, Shown, DecodeChar;
      var text := NameText(name);
      var n, i, q := |text| - 1, 0, p;
      ghost var literal := IsLiteral(name);
      LiteralText(name);
      KeyCharIs(url[..], source, p, q);
      while n > 0
        invariant 0 <= n && 0 <= i <= |text| - 1 <= i + n && p <= q <= KeyEnd(source, p) < |source|
        invariant literal ==> i + n == |text| - 1
        invariant i + n == |text| - 1 ==> (literal <==> !Special(text, i, |text| - 1))
        invariant Fits(name, source, p) <==> FitsFrom(text, literal, i, source, q)
      {
        FitsStep(text, literal, i, source, q);
        if Shown(text, i) != '\0' { NameStep(text, i); }
        var u1, i' := NextOfName(text, i);
        var u2, q' := NextOfKey(p, q);
        n := n - 1;
        if u1 != u2 {
          return u1 as int - u2 as int;
        }
        if u1 == '\0' {
          return 0;
        }
        i, q := i', q';
      }
      KeyCharIs(url[..], source, p, q);
      NameIsOver(text, source, q);
      return if IsQsChar(url[q]) then -1 else 0;
    }

    /** The next character of a name, and where the one behind it is. */
    static method NextOfName(text: string, i: nat) returns (u: char, next: nat)
      requires Terminated(text) && i < |text|
      ensures u == Shown(text, i) && (u != '\0' ==> next == DecodeChar(text, i).1)
    {
      u, next := text[i], i + 1;
      if !IsQsChar(u) { u := '\0'; }
      if u == '+' { u := ' '; }
      if u == '%' {
        u := if IsHex(text[i + 1]) && IsHex(text[i + 2]) then Byte(text[i + 1], text[i + 2]) else '\0';
        next := i + 3;
      }
    }

    /** The same for the key of the pair at `p`, in the buffer. */
    method NextOfKey(p: nat, q: nat) returns (u: char, next: nat)
      requires Valid() && p < |source| && PairIs(url[..], source, p) && p <= q <= KeyEnd(source, p) < |source|
      ensures u == Shown(source, q)
      ensures u != '\0' ==> next == DecodeChar(source, q).1 && next <= KeyEnd(source, p)
    {
      hide PairIs, Pairs, Span;
      KeyCharIs(url[..], source, p, q);
      u, next := url[q], q + 1;
      if !IsQsChar(u) { u := '\0'; }
      if u == '+' { u := ' '; }
      if u == '%' {
        KeyCharIs(url[..], source, p, q + 1);
        if IsHex(url[q + 1]) {
          KeyCharIs(url[..], source, p, q + 2);
        }
        u := if IsHex(url[q + 1]) && IsHex(url[q + 2]) then Byte(url[q + 1], url[q + 2]) else '\0';
        next := q + 3;
      }
    }

    /** The place in the buffer right behind the first equals sign of the pair at `p`, or its end. */
    method ValuePlace(p: nat) returns (r: nat)
      requires Valid() && p < |source| && PairIs(url[..], source, p)
      ensures r < url.Length && CString(url[..][r..]) == ValueAt(source, p)
    {
      hide PairIs, Pairs, ValueAt;
      ValueFollows(url[..], source, p);
      PairCloses(url[..], source, p);
      ghost var end :| p <= end < url.Length && url[..][end] == '\0';
      r := p;
      while url[r] != '=' && url[r] != '\0'
        invariant p <= r <= end && AfterEquals(CString(url[..][r..])) == ValueAt(source, p)
        decreases end - r
      {
        ScanOn(url[..][r..]);
        assert url[..][r..][1..] == url[..][r + 1..];
        r := r + 1;
      }
      if url[r] == '=' {
        EqualsFound(url[..], r);
        r := r + 1;
      }
    }

    /** qs_k2v: the value of the pair that is the `nth` to have the name for its key. */
    method Lookup(name: string, nth: nat) returns (r: Option<nat>)
      requires Valid()
      ensures var m := Matching(source, pairs, name);
        if nth >= |m| then r.None?
        else r.Some? && r.value < url.Length && CString(url[..][r.value..]) == ValueAt(source, m[nth])
    {
      hide PairIs, Pairs, ValueAt, CString, Matching;
      var left := nth;
      ghost var m, done: seq<nat> := Matching(source, pairs, name), [];
      MatchingStarts(source, pairs, name);
      var i := 0;
      while i < |pairs|
        invariant 0 <= i <= |pairs| && |done| + left == nth && MatchingSoFar(source, pairs, name, i, done)
      {
        MatchingNext(source, pairs, name, i, done);
        var order := Compare(name, pairs[i]);
        if order == 0 {
          var place := ValuePlace(pairs[i]);
          if left == 0 {
            return Some(place);
          }
          left := left - 1;
          done := done + [pairs[i]];
        }
        i := i + 1;
      }
      MatchingEnds(source, pairs, name, done);
      return None;
    }

    /** get: the value of the first pair with the name for its key. */
    method Get(name: string) returns (r: Option<nat>)
      requires Valid()
      ensures var m := Matching(source, pairs, name);
        if m == [] then r.None?
        else r.Some? && r.value < url.Length && CString(url[..][r.value..]) == ValueAt(source, m[0])
    {
      r := Lookup(name, 0);
    }

    /** get_list: in order, the values of all pairs whose key is the name with brackets after it. */
    method GetList(name: string) returns (r: seq<nat>)
      requires Valid()
      ensures var m := Matching(source, pairs, name + "[]");
        |r| == |m| && forall k | 0 <= k < |r| :: r[k] < url.Length && CString(url[..][r[k]..]) == ValueAt(source, m[k])
    {
      hide PairIs, Pairs, ValueAt, CString, Matching;
      var plus := name + "[]";
      ghost var m := Matching(source, pairs, plus);
      r := [];
      var count := 0;
      while true
        invariant |r| == count <= |m|
        invariant forall k | 0 <= k < |r| :: r[k] < url.Length && CString(url[..][r[k]..]) == ValueAt(source, m[k])
        decreases |m| - count
      {
        var element := Lookup(plus, count);
        if element.None? {
          return;
        }
        count := count + 1;
        r := r + [element.value];
      }
    }

    /** qs_decode: decodes the value at `p` in place, and gives its length. */
    method Decode(p: nat, ghost s: string) returns (n: nat)
      requires Terminated(s) && url.Length == |s| && p < |s| && url[p..] == s[p..]
      modifies url
      ensures n == |DecodeValue(s, p)| && p + n < |s|
      ensures url[p..p + n] == DecodeValue(s, p) && url[p + n] == '\0'
      ensures forall k | 0 <= k < |s| && !(p <= k <= p + n) :: url[k] == old(url[k])
    {
      hide DecodeValue, DecodeChar, Malformed, Terminated;
      var i, j := p, p;
      DecodingStarts(url[..], s, p);
      SameText(url[..], s, j);
      while IsQsChar(url[j])
        invariant p <= i <= j < |s| && url[j] == s[j] && Decoding(old(url[..]), url[..], s, p, i, j)
        decreases |s| - j
      {
        ghost var buf := url[..];
        SameText(buf, s, j);
        PercentInside(s, j);
        if url[j] == '%' {
          if !IsHex(url[j + 1]) || !IsHex(url[j + 2]) {
            MalformedEnds(old(url[..]), buf, s, p, i, j);
            url[i] := '\0';
            assert url[p..i] == buf[p..i];
            return i - p;
          }
        }
        DecodingGoesOn(old(url[..]), buf, s, p, i, j);
        if url[j] == '+' {
          url[i] := ' ';
        } else if url[j] == '%' {
          url[i] := Byte(url[j + 1], url[j + 2]);
          j := j + 2;
        } else {
          url[i] := url[j];
        }
        i, j := i + 1, j + 1;
        SameText(url[..], s, j);
      }
      DecodingEnds(old(url[..]), url[..], s, p, i, j);
      ghost var buf := url[..];
      url[i] := '\0';
      assert url[p..i] == buf[p..i];
      n := i - p;
    }

    /** qs_parse: finds the pairs, then decodes the value of each in place. There must be room for all
        the pairs in the table. */
    method Parse(ghost s: string)
      requires Terminated(s) && url[..] == s && |Pairs(s)| <= MAX_KEY_VALUE_PAIRS_COUNT
      modifies this`pairs, url
      ensures pairs == Pairs(s) && url.Length == |s|
      ensures forall k | 0 <= k < |pairs| :: PairIs(url[..], s, pairs[k])
    {
      FindPairs(s);
      var j := 0;
      while j < |pairs|
        invariant j <= |pairs| && pairs == Pairs(s) && url.Length == |s|
        invariant forall k | 0 <= k < j :: PairIs(url[..], s, pairs[k])
        invariant j < |pairs| ==> url[pairs[j]..] == s[pairs[j]..]
      {
        ghost var buf := url[..];
        DecodePair(pairs[j], s);
        OthersStay(buf, url[..], s, j);
        j := j + 1;
      }
    }

    method FindPairs(ghost s: string)
      requires Terminated(s) && url[..] == s && |Pairs(s)| <= MAX_KEY_VALUE_PAIRS_COUNT
      modifies this`pairs
      ensures pairs == Pairs(s)
    {
      hide Starts, Span, Pairs;
      pairs := [];
      SameText(url[..], s, 0);
      LaterText(url[..], s, 0, 0);
      PairsBegin(s);
      var substr := FirstOf(s, 0, "?#");
      if url[substr] == '\0' {
        return;
      }
      substr := substr + 1;
      MorePairs(s, substr, pairs);
      while |pairs| < MAX_KEY_VALUE_PAIRS_COUNT
        invariant substr < |s| && PairsSoFar(s, pairs, substr) && |pairs| < |Pairs(s)|
        decreases MAX_KEY_VALUE_PAIRS_COUNT - |pairs|
      {
        NextPair(s, substr, pairs);
        LaterText(url[..], s, 0, substr);
        pairs := pairs + [substr];
        var j := FirstOf(s, substr, "&");
        if url[j] == '\0' {
          return;
        }
        substr := j + 1;
        MorePairs(s, substr, pairs);
      }
    }

    /** strcspn on the buffer. */
    method FirstOf(ghost s: string, p: nat, stops: string) returns (q: nat)
      requires Terminated(s) && url.Length == |s| && p < |s| && url[p..] == s[p..]
      ensures q == Span(s, p, stops)
    {
      SameText(url[..], s, p);
      q := p;
      while url[q] !in stops && url[q] != '\0'
        invariant p <= q < |s| && Span(s, q, stops) == Span(s, p, stops)
        decreases |s| - q
      {
        q := q + 1;
      }
    }

    method DecodePair(p: nat, ghost s: string)
      requires Terminated(s) && p < |s| && url.Length == |s| && url[p..] == s[p..]
      modifies url
      ensures PairIs(url[..], s, p)
      ensures forall k | 0 <= k < |s| && !(p <= k <= PairEnd(s, p)) :: url[k] == old(url[k])
    {
      hide DecodeValue, Span;
      ValueInPair(s, p);
      SameText(url[..], s, p);
      var substr := FirstOf(s, p, "=&#");
      if url[substr] == '&' || url[substr] == '\0' {
        url[substr] := '\0';
      } else {
        LaterText(url[..], s, p, substr + 1);
        var n := Decode(substr + 1, s);
      }
      assert url[p..substr] == s[p..substr];
    }
  }

  lemma LaterText(buf: string, s: string, p: nat, q: nat)
    requires p <= q <= |s| == |buf| && buf[p..] == s[p..]
    ensures buf[q..] == s[q..]
  {
  }

  ghost predicate PairsSoFar(s: string, front: seq<nat>, p: nat)
    requires Terminated(s) && p < |s|
  {
    front + Starts(s, p) == Pairs(s)
  }

  lemma PairsBegin(s: string)
    requires Terminated(s)
    ensures var q := Span(s, 0, "?#"); if s[q] == '\0' then Pairs(s) == [] else PairsSoFar(s, [], q + 1)
  {
  }

  lemma NextPair(s: string, p: nat, front: seq<nat>)
    requires Terminated(s) && p < |s| && PairsSoFar(s, front, p)
    ensures var e := Span(s, p, "&");
      if s[e] == '\0' then front + [p] == Pairs(s) else PairsSoFar(s, front + [p], e + 1)
  {
    hide Span, Starts, Pairs;
    StartsIs(s, p);
    var e := Span(s, p, "&");
    if s[e] != '\0' {
      assert front + ([p] + Starts(s, e + 1)) == front + [p] + Starts(s, e + 1);
    }
  }

  lemma MorePairs(s: string, p: nat, front: seq<nat>)
    requires Terminated(s) && p < |s| && PairsSoFar(s, front, p)
    ensures |Pairs(s)| > |front|
  {
  }

  lemma OthersStay(buf: string, buf': string, s: string, j: nat)
    requires Terminated(s) && |buf| == |buf'| == |s| && j < |Pairs(s)| && PairIs(buf', s, Pairs(s)[j])
    requires forall k | 0 <= k < j :: PairIs(buf, s, Pairs(s)[k])
    requires buf[Pairs(s)[j]..] == s[Pairs(s)[j]..]
    requires forall k | 0 <= k < |s| && !(Pairs(s)[j] <= k <= PairEnd(s, Pairs(s)[j])) :: buf'[k] == buf[k]
    ensures forall k | 0 <= k <= j :: PairIs(buf', s, Pairs(s)[k])
    ensures j + 1 < |Pairs(s)| ==> buf'[Pairs(s)[j + 1]..] == s[Pairs(s)[j + 1]..]
  {
    hide PairIs, Starts, Span;
    var starts := Pairs(s);
    var first := Span(s, 0, "?#") + 1;
    forall k | 0 <= k < j ensures PairIs(buf', s, starts[k]) {
      StartsOrdered(s, first, k, j);
      PairStays(buf, buf', s, starts[k]);
    }
    if j + 1 < |starts| {
      StartsApart(s, first, j);
      LaterText(buf, s, starts[j], starts[j + 1]);
      assert buf'[starts[j + 1]..] == buf[starts[j + 1]..];
    }
  }

  lemma {:induction false} StartsOrdered(s: string, p: nat, k: nat, j: nat)
    requires Terminated(s) && p < |s| && k < j < |Starts(s, p)|
    ensures PairEnd(s, Starts(s, p)[k]) < Starts(s, p)[j]
    decreases j
  {
    hide Starts, PairEnd;
    StartsApart(s, p, j - 1);
    if k < j - 1 {
      StartsOrdered(s, p, k, j - 1);
      StartBeforeEnd(s, p, j - 1);
    }
  }

  lemma StartBeforeEnd(s: string, p: nat, j: nat)
    requires Terminated(s) && p < |s| && j < |Starts(s, p)|
    ensures Starts(s, p)[j] <= PairEnd(s, Starts(s, p)[j])
  {
  }
}
