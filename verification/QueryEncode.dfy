/** Writing a query with percent signs, and why reading it gives the keys and values back. */
module QueryEncode {
  import opened Wrappers
  import opened QueryText

  function HexUp(n: nat): char
    requires n < 16
  {
    if n < 10 then '0' + n as char else 'A' + (n - 10) as char
  }

  /** Unreserved characters stand for themselves (section 2.3 of RFC 3986); any other byte is encoded. */
  predicate IsUnreserved(c: char) {
    '0' <= c <= '9' || 'A' <= c <= 'Z' || 'a' <= c <= 'z' || c == '-' || c == '.' || c == '_' || c == '~'
  }

  predicate IsBytes(t: string) {
    forall i | 0 <= i < |t| :: t[i] < 256 as char
  }

  function EncodeChar(c: char): string
    requires c < 256 as char
  {
    if IsUnreserved(c) then [c] else ['%', HexUp(c as nat / 16), HexUp(c as nat % 16)]
  }

  function Encode(t: string): string
    requires IsBytes(t)
  {
    if t == "" then "" else EncodeChar(t[0]) + Encode(t[1..])
  }

  function EncodePair(kv: (string, string)): string
    requires IsBytes(kv.0) && IsBytes(kv.1)
  {
    Encode(kv.0) + "=" + Encode(kv.1)
  }

  function Query(kvs: seq<(string, string)>): string
    requires forall i | 0 <= i < |kvs| :: IsBytes(kvs[i].0) && IsBytes(kvs[i].1)
  {
    if kvs == [] then "" else if |kvs| == 1 then EncodePair(kvs[0]) else EncodePair(kvs[0]) + "&" + Query(kvs[1..])
  }

  predicate WordAt(s: string, p: nat, w: string) {
    p + |w| <= |s| && s[p..p + |w|] == w
  }

  lemma WordSplit(s: string, p: nat, a: string, b: string)
    requires WordAt(s, p, a + b)
    ensures WordAt(s, p, a) && WordAt(s, p + |a|, b)
  {
    var w := s[p..p + |a + b|];
    assert w[..|a|] == a && w[|a|..] == b;
    assert s[p..p + |a|] == w[..|a|] && s[p + |a|..p + |a| + |b|] == w[|a|..];
  }

  lemma WordChars(s: string, p: nat, w: string)
    requires WordAt(s, p, w)
    ensures p + |w| <= |s| && forall k | p <= k < p + |w| :: s[k] == w[k - p]
  {
  }

  lemma HexRoundTrip(n: nat)
    requires n < 16
    ensures IsHex(HexUp(n)) && HexToDec(HexUp(n)) == n
  {
  }

  /** One encoded character is read back. */
  lemma EncodedCharAt(s: string, p: nat, c: char)
    requires Terminated(s) && c < 256 as char && WordAt(s, p, EncodeChar(c)) && p + |EncodeChar(c)| < |s|
    ensures IsQsChar(s[p]) && !Malformed(s, p) && DecodeChar(s, p) == (c, p + |EncodeChar(c)|)
    ensures forall k | p <= k < p + |EncodeChar(c)| :: IsQsChar(s[k])
  {
    WordChars(s, p, EncodeChar(c));
    HexRoundTrip(c as nat / 16);
    HexRoundTrip(c as nat % 16);
  }

  /** An encoded text that ends before a delimiter is read back, as a key and as a value. */
  lemma {:induction false} EncodedAt(s: string, p: nat, t: string)
    requires Terminated(s) && IsBytes(t) && WordAt(s, p, Encode(t)) && p + |Encode(t)| < |s|
      && !IsQsChar(s[p + |Encode(t)|])
    ensures DecodeKey(s, p) == Some(t) && DecodeValue(s, p) == t
    ensures forall k | p <= k < p + |Encode(t)| :: IsQsChar(s[k])
    decreases |t|
  {
    hide EncodeChar, DecodeChar, Malformed, DecodeKey, DecodeValue, Encode;
    DecodeStep(s, p);
    if t == "" {
      EncodeNothing();
    } else {
      var e := EncodeChar(t[0]);
      EncodeStep(t);
      WordSplit(s, p, e, Encode(t[1..]));
      EncodedCharAt(s, p, t[0]);
      EncodedAt(s, p + |e|, t[1..]);
      assert t == [t[0]] + t[1..];
    }
  }

  lemma EncodeNothing()
    ensures Encode("") == ""
  {
  }

  lemma EncodeStep(t: string)
    requires IsBytes(t) && t != ""
    ensures Encode(t) == EncodeChar(t[0]) + Encode(t[1..])
  {
  }

  lemma DecodeStep(s: string, p: nat)
    requires Terminated(s) && p < |s|
    ensures !IsQsChar(s[p]) ==> DecodeKey(s, p) == Some("") && DecodeValue(s, p) == ""
    ensures IsQsChar(s[p]) && !Malformed(s, p) ==>
      var (c, q) := DecodeChar(s, p);
      && DecodeValue(s, p) == [c] + DecodeValue(s, q)
      && (DecodeKey(s, q).Some? ==> DecodeKey(s, p) == Some([c] + DecodeKey(s, q).value))
  {
  }

  lemma {:induction false} SpanIs(s: string, p: nat, q: nat, stops: string)
    requires Terminated(s) && p <= q < |s| && (s[q] in stops || s[q] == '\0')
    requires forall k | p <= k < q :: s[k] !in stops && s[k] != '\0'
    ensures Span(s, p, stops) == q
    decreases q - p
  {
    if p < q { SpanIs(s, p + 1, q, stops); }
  }

  lemma PairSpans(s: string, p: nat, a: nat, b: nat)
    requires Terminated(s) && p <= a < b < |s| && s[a] == '=' && (s[b] == '&' || s[b] == '\0')
    requires forall k | p <= k < b && k != a :: IsQsChar(s[k])
    ensures KeyEnd(s, p) == a && PairEnd(s, p) == b
  {
    SpanIs(s, p, a, "=&#");
    SpanIs(s, p, b, "&");
  }

  lemma PairParts(s: string, p: nat, kv: (string, string))
    requires IsBytes(kv.0) && IsBytes(kv.1) && WordAt(s, p, EncodePair(kv)) && p + |EncodePair(kv)| < |s|
    ensures var k, v := Encode(kv.0), Encode(kv.1);
      && |EncodePair(kv)| == |k| + 1 + |v|
      && WordAt(s, p, k) && s[p + |k|] == '=' && WordAt(s, p + |k| + 1, v)
  {
    hide Encode;
    var k, v := Encode(kv.0), Encode(kv.1);
    assert EncodePair(kv) == k + ("=" + v);
    WordSplit(s, p, k, "=" + v);
    WordSplit(s, p + |k|, "=", v);
    WordChars(s, p + |k|, "=");
  }

  lemma PairPlaces(s: string, p: nat, kv: (string, string))
    requires Terminated(s) && IsBytes(kv.0) && IsBytes(kv.1)
    requires WordAt(s, p, EncodePair(kv)) && p + |EncodePair(kv)| < |s|
    requires s[p + |EncodePair(kv)|] == '&' || s[p + |EncodePair(kv)|] == '\0'
    ensures var e := p + |Encode(kv.0)|;
      && e + 1 < |s| && s[e] == '=' && KeyEnd(s, p) == e && PairEnd(s, p) == p + |EncodePair(kv)|
      && DecodeKey(s, p) == Some(kv.0) && DecodeValue(s, e + 1) == kv.1
  {
    hide Encode, EncodePair, WordAt, DecodeKey, DecodeValue, KeyEnd, PairEnd, IsBytes;
    PairParts(s, p, kv);
    var e, last := p + |Encode(kv.0)|, p + |EncodePair(kv)|;
    EncodedAt(s, p, kv.0);
    EncodedAt(s, e + 1, kv.1);
    PairSpans(s, p, e, last);
  }

  /** One pair, up to the ampersand or the end of the text. */
  lemma PairAt(s: string, p: nat, kv: (string, string))
    requires Terminated(s) && IsBytes(kv.0) && IsBytes(kv.1) && WordAt(s, p, EncodePair(kv))
      && p + |EncodePair(kv)| < |s|
    requires s[p + |EncodePair(kv)|] == '&' || s[p + |EncodePair(kv)|] == '\0'
    ensures p < |s| && PairEnd(s, p) == p + |EncodePair(kv)|
    ensures DecodeKey(s, p) == Some(kv.0) && ValueAt(s, p) == CString(kv.1)
  {
    hide Encode, EncodePair, WordAt, DecodeKey, DecodeValue, KeyEnd, PairEnd, CString, AfterEquals, IsBytes;
    PairPlaces(s, p, kv);
  }

  lemma QueryParts(s: string, p: nat, kvs: seq<(string, string)>)
    requires |kvs| > 1 && forall i | 0 <= i < |kvs| :: IsBytes(kvs[i].0) && IsBytes(kvs[i].1)
    requires WordAt(s, p, Query(kvs))
    ensures var w, rest := EncodePair(kvs[0]), Query(kvs[1..]);
      && |Query(kvs)| == |w| + 1 + |rest| && p + |w| < |s|
      && WordAt(s, p, w) && s[p + |w|] == '&' && WordAt(s, p + |w| + 1, rest)
  {
    hide EncodePair, WordAt, IsBytes;
    var w, rest := EncodePair(kvs[0]), Query(kvs[1..]);
    assert Query(kvs) == w + ("&" + rest);
    WordSplit(s, p, w, "&" + rest);
    WordSplit(s, p + |w|, "&", rest);
    AmpersandAt(s, p + |w|);
  }

  /** All the pairs of a query, up to the end of the text. */
  lemma {:induction false} QueryAt(s: string, p: nat, kvs: seq<(string, string)>)
    requires Terminated(s) && kvs != [] && forall i | 0 <= i < |kvs| :: IsBytes(kvs[i].0) && IsBytes(kvs[i].1)
    requires WordAt(s, p, Query(kvs)) && p + |Query(kvs)| == |s| - 1
    ensures p < |s| && |Starts(s, p)| == |kvs|
    ensures forall i | 0 <= i < |kvs| ::
      DecodeKey(s, Starts(s, p)[i]) == Some(kvs[i].0) && ValueAt(s, Starts(s, p)[i]) == CString(kvs[i].1)
    decreases |kvs|
  {
    hide EncodePair, DecodeKey, ValueAt, Span, WordAt, Starts, CString, IsBytes;
    var w := EncodePair(kvs[0]);
    StartsIs(s, p);
    if |kvs| == 1 {
      PairAt(s, p, kvs[0]);
    } else {
      QueryParts(s, p, kvs);
      hide Query;
      PairAt(s, p, kvs[0]);
      var tail := Starts(s, p + |w| + 1);
      QueryAt(s, p + |w| + 1, kvs[1..]);
      assert Starts(s, p) == [p] + tail;
      forall i | 0 < i < |kvs|
        ensures DecodeKey(s, Starts(s, p)[i]) == Some(kvs[i].0) && ValueAt(s, Starts(s, p)[i]) == CString(kvs[i].1)
      {
        assert Starts(s, p)[i] == tail[i - 1] && kvs[1..][i - 1] == kvs[i];
      }
    }
  }

  lemma AmpersandAt(s: string, p: nat)
    requires WordAt(s, p, "&")
    ensures p < |s| && s[p] == '&'
  {
  }

  /** A URL with an encoded query has exactly the pairs that were encoded, in their order. */
  lemma QueryRoundTrip(path: string, kvs: seq<(string, string)>)
    requires kvs != [] && forall i | 0 <= i < |kvs| :: IsBytes(kvs[i].0) && IsBytes(kvs[i].1)
    requires forall c | c in path :: c != '?' && c != '#' && c != '\0'
    ensures var s := path + "?" + Query(kvs) + "\0";
      && |Pairs(s)| == |kvs|
      && forall i | 0 <= i < |kvs| ::
           DecodeKey(s, Pairs(s)[i]) == Some(kvs[i].0) && ValueAt(s, Pairs(s)[i]) == CString(kvs[i].1)
  {
    hide Query, DecodeKey, ValueAt, Starts, Span;
    var s := path + "?" + Query(kvs) + "\0";
    assert forall k | 0 <= k < |path| :: s[k] == path[k] && path[k] in path;
    SpanIs(s, 0, |path|, "?#");
    assert s[|path| + 1..|path| + 1 + |Query(kvs)|] == Query(kvs);
    QueryAt(s, |path| + 1, kvs);
  }
}
