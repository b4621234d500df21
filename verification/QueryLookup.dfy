/** Looking up what was written into a query. */
module QueryLookup {
  import opened Wrappers
  import opened QueryText
  import opened QueryString
  import opened QueryEncode

  /** The values written under the keys that a name fits, in their order, as C strings. */
  function ValuesOf(kvs: seq<(string, string)>, name: string): seq<string> {
    if kvs == [] then []
    else (if KeyFits(name, kvs[0].0) then [CString(kvs[0].1)] else []) + ValuesOf(kvs[1..], name)
  }

  /** The pairs at the given places have the given values. */
  predicate HaveValues(s: string, m: seq<nat>, vs: seq<string>)
    requires Terminated(s)
  {
    |m| == |vs| && forall i | 0 <= i < |m| :: m[i] < |s| && ValueAt(s, m[i]) == vs[i]
  }

  /** The pairs at the given places were written. */
  predicate Written(s: string, starts: seq<nat>, kvs: seq<(string, string)>)
    requires Terminated(s)
  {
    && |starts| == |kvs| && (forall k | 0 <= k < |starts| :: starts[k] < |s|)
    && forall i | 0 <= i < |kvs| ::
         DecodeKey(s, starts[i]) == Some(kvs[i].0) && ValueAt(s, starts[i]) == CString(kvs[i].1)
  }

  lemma WrittenParts(s: string, starts: seq<nat>, kvs: seq<(string, string)>)
    requires Terminated(s) && Written(s, starts, kvs) && kvs != []
    ensures starts != [] && starts[0] < |s| && Written(s, starts[1..], kvs[1..])
    ensures DecodeKey(s, starts[0]) == Some(kvs[0].0) && ValueAt(s, starts[0]) == CString(kvs[0].1)
  {
    hide DecodeKey, ValueAt, CString;
  }

  lemma OneValueMore(s: string, p: nat, m: seq<nat>, v: string, vs: seq<string>)
    requires Terminated(s) && HaveValues(s, m, vs) && p < |s| && ValueAt(s, p) == v
    ensures HaveValues(s, [p] + m, [v] + vs)
  {
    hide ValueAt;
  }

  /** The pairs found for a name have the values written under it. */
  lemma {:induction false} MatchingValues(s: string, starts: seq<nat>, kvs: seq<(string, string)>, name: string)
    requires Terminated(s) && |starts| == |kvs| && forall k | 0 <= k < |starts| :: starts[k] < |s|
    requires Written(s, starts, kvs)
    ensures HaveValues(s, Matching(s, starts, name), ValuesOf(kvs, name))
    decreases |kvs|
  {
    hide DecodeKey, ValueAt, CString, Fits, KeyFits, Written, Matching, Terminated;
    if kvs == [] {
      MatchingEnds(s, starts, name, []);
    } else {
      hide HaveValues;
      WrittenParts(s, starts, kvs);
      FitsKey(name, s, starts[0]);
      MatchingAll(s, starts, name);
      MatchingValues(s, starts[1..], kvs[1..], name);
      if KeyFits(name, kvs[0].0) {
        OneValueMore(s, starts[0], Matching(s, starts[1..], name), CString(kvs[0].1), ValuesOf(kvs[1..], name));
      }
    }
  }

  lemma MatchingAll(s: string, starts: seq<nat>, name: string)
    requires Terminated(s) && starts != [] && forall k | 0 <= k < |starts| :: starts[k] < |s|
    ensures var rest := Matching(s, starts[1..], name);
      Matching(s, starts, name) == if Fits(name, s, starts[0]) then [starts[0]] + rest else rest
  {
    hide Matching, Fits;
    assert starts[0..] == starts;
    MatchingFirst(s, starts, name, 0);
  }

  /** For a plain name, the values are those written under the name itself. */
  lemma {:induction false} PlainValues(kvs: seq<(string, string)>, name: string)
    requires IsPlain(name)
    ensures ValuesOf(kvs, name) == ValuesUnder(kvs, name)
    decreases |kvs|
  {
    hide KeyFits, CString;
    if kvs != [] {
      PlainKeyFits(name, kvs[0].0);
      PlainValues(kvs[1..], name);
    }
  }

  function ValuesUnder(kvs: seq<(string, string)>, key: string): seq<string> {
    if kvs == [] then [] else (if kvs[0].0 == key then [CString(kvs[0].1)] else []) + ValuesUnder(kvs[1..], key)
  }

  /** Any key without a NUL can be looked up: by its encoded form. */
  lemma EncodedKeyFits(key: string, other: string)
    requires IsBytes(key) && '\0' !in key && '\0' !in other
    ensures KeyFits(Encode(key), other) <==> other == key
  {
    hide Encode, DecodeValue, DecodeKey, CString, IsLiteral;
    EncodedText(key);
    PlainText(key);
    PlainText(other);
  }

  lemma EncodedText(key: string)
    requires IsBytes(key)
    ensures NameRead(Encode(key)) == key
  {
    hide Encode, DecodeValue, DecodeKey, CString;
    var t := Encode(key);
    EncodedIsClean(key);
    PlainText(t);
    assert (t + "\0")[0..0 + |t|] == t;
    EncodedAt(t + "\0", 0, key);
  }

  lemma {:induction false} EncodedIsClean(t: string)
    requires IsBytes(t)
    ensures '\0' !in Encode(t)
    decreases |t|
  {
    if t != "" { EncodedIsClean(t[1..]); }
  }

  /** Of a URL with an encoded query, `get` finds the first value written under a key that the name fits,
      and `get_list` all those written under one that the name with brackets fits, in their order. */
  method LookUp(path: string, kvs: seq<(string, string)>, name: string)
    returns (q: QueryString, one: Option<nat>, list: seq<nat>)
    requires 0 < |kvs| <= MAX_KEY_VALUE_PAIRS_COUNT
    requires forall i | 0 <= i < |kvs| :: IsBytes(kvs[i].0) && IsBytes(kvs[i].1)
    requires forall c | c in path :: c != '?' && c != '#' && c != '\0'
    ensures var vs := ValuesOf(kvs, name);
      if vs == [] then one.None?
      else one.Some? && one.value < q.url.Length && CString(q.url[..][one.value..]) == vs[0]
    ensures var vs := ValuesOf(kvs, name + "[]");
      |list| == |vs| && forall k | 0 <= k < |list| :: list[k] < q.url.Length && CString(q.url[..][list[k]..]) == vs[k]
  {
    hide Query, DecodeKey, ValueAt, CString, Matching, ValuesOf, Pairs;
    var text := path + "?" + Query(kvs);
    ghost var s := path + "?" + Query(kvs) + "\0";
    assert text + "\0" == s;
    QueryRoundTrip(path, kvs);
    MatchingValues(s, Pairs(s), kvs, name);
    MatchingValues(s, Pairs(s), kvs, name + "[]");
    q := new QueryString(text);
    one := q.Get(name);
    list := q.GetList(name);
  }
}
