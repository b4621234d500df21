/** From the placeholders of a rule to the arguments of its handler: the types are packed into a
    base-6 number and unpacked again, and each argument is read from the stack of its type. */
module RouteArgs {
  import opened Wrappers
  import opened Routes
  import opened TrieShape
  import opened TrieGrow
  import opened Captures

  const TWO_64: nat := 0x1_0000_0000_0000_0000

  datatype ArgType = INT64 | UINT64 | REAL | STR

  function ArgOf(t: ParamType): ArgType {
    match t
    case INT => INT64 case UINT => UINT64 case DOUBLE => REAL case STRING => STR case PATH => STR
  }

  function ArgsOf(ts: seq<ParamType>): seq<ArgType> {
    if ts == [] then [] else [ArgOf(ts[0])] + ArgsOf(ts[1..])
  }

  function Code(t: ParamType): nat {
    match t
    case INT => 1 case UINT => 2 case DOUBLE => 3 case STRING => 4 case PATH => 5
  }

  /* ---- packing: get_parameter_tag on the text of the rule ---- */

  /** find_closing_tag */
  function ClosingTag(s: string, p: nat): (q: nat)
    requires exists q :: p <= q < |s| && s[q] == '>'
    ensures p <= q < |s| && s[q] == '>' && forall m | p <= m < q :: s[m] != '>'
    decreases |s| - p
  {
    if s[p] == '>' then p else ClosingTag(s, p + 1)
  }

  function TagCode(s: string, p: nat): nat {
    if StandsAt(s, p, "<int>") then 1
    else if StandsAt(s, p, "<uint>") then 2
    else if StandsAt(s, p, "<float>") || StandsAt(s, p, "<double>") then 3
    else if StandsAt(s, p, "<str>") || StandsAt(s, p, "<string>") then 4
    else if StandsAt(s, p, "<path>") then 5
    else 0
  }

  /** Which tag stands at `p`, and where it closes. */
  lemma TagCodeIs(s: string, p: nat)
    requires p < |s| && s[p] == '<'
    ensures var k := TagAt(s, p, 0);
      if k == |TAGS| then TagCode(s, p) == 0
      else
        && TagCode(s, p) == Code(TAGS[k].1) > 0
        && (exists q :: p <= q < |s| && s[q] == '>')
        && ClosingTag(s, p) + 1 == p + |TAGS[k].0|
  {
    hide ClosingTag;
    var k := TagAt(s, p, 0);
    if k != |TAGS| {
      TagCloses(s, p, k);
    }
  }

  lemma TagCloses(s: string, p: nat, k: nat)
    requires k < |TAGS| && StandsAt(s, p, TAGS[k].0)
    ensures (exists q :: p <= q < |s| && s[q] == '>') && ClosingTag(s, p) + 1 == p + |TAGS[k].0|
  {
    var name := TAGS[k].0;
    forall m | 0 <= m < |name| ensures s[p + m] == name[m] {
      assert s[p..p + |name|][m] == s[p + m];
    }
    assert s[p + |name| - 1] == '>';
    assert forall m | 0 <= m < |name| - 1 :: name[m] != '>';
    assert forall m | p <= m < p + |name| - 1 :: s[m] == name[m - p];
  }

  /** The tag of the text from `p` on, as a 64-bit number; none if it does not compile. */
  function Tag(s: string, p: nat): Option<nat>
    requires p <= |s|
    decreases |s| - p, 1
  {
    if p == |s| then Some(0)
    else if s[p] == '<' then
      if TagCode(s, p) == 0 then None
      else
        TagCodeIs(s, p);
        match Tag(s, ClosingTag(s, p))
        case None => None
        case Some(sub) => Some((sub * 6 + TagCode(s, p)) % TWO_64)
    else Tag(s, p + 1)
  }

  function Placeholders(toks: Tokens): seq<ParamType> {
    if toks == [] then []
    else if toks[0].Param? then [toks[0].t] + Placeholders(toks[1..])
    else Placeholders(toks[1..])
  }

  /** The first placeholder is the lowest digit. */
  function Encode(ts: seq<ParamType>): nat {
    if ts == [] then 0 else Encode(ts[1..]) * 6 + Code(ts[0])
  }

  /** A rule that is well formed for the trie has the tag of its placeholders, cut to 64 bits. */
  lemma OneMorePlaceholder(t: ParamType, rest: Tokens)
    ensures Encode(Placeholders([Param(t)] + rest)) == Encode(Placeholders(rest)) * 6 + Code(t)
  {
    hide Placeholders;
    OnePlaceholder(Param(t), rest);
  }

  lemma {:induction false} TagIsEncoding(s: string, p: nat)
    requires p <= |s|
    ensures Tag(s, p) == match Tokenize(s, p)
      case None => None
      case Some(toks) => Some(Encode(Placeholders(toks)) % TWO_64)
    decreases |s| - p
  {
    hide TagCode, TagAt, StandsAt, ClosingTag, Code;
    if p < |s| {
      if s[p] == '<' {
        TagCodeIs(s, p);
        var k := TagAt(s, p, 0);
        if k != |TAGS| {
          var q := p + |TAGS[k].0|;
          assert Tag(s, ClosingTag(s, p)) == Tag(s, q);
          TagIsEncoding(s, q);
          if Tokenize(s, q).Some? {
            var rest := Tokenize(s, q).value;
            assert Tokenize(s, p).value == [Param(TAGS[k].1)] + rest;
            OneMorePlaceholder(TAGS[k].1, rest);
            WrapStep(Encode(Placeholders(rest)), Code(TAGS[k].1));
          }
        }
      } else {
        TagIsEncoding(s, p + 1);
      }
    }
  }

  lemma WrapStep(x: nat, d: nat)
    ensures ((x % TWO_64) * 6 + d) % TWO_64 == (x * 6 + d) % TWO_64
  {
    var y := (x % TWO_64) * 6 + d;
    assert x == x / TWO_64 * TWO_64 + x % TWO_64 && y == y / TWO_64 * TWO_64 + y % TWO_64;
    Remainder(x * 6 + d, x / TWO_64 * 6 + y / TWO_64, y % TWO_64);
  }

  lemma Remainder(n: nat, q: nat, r: nat)
    requires r < TWO_64 && n == q * TWO_64 + r
    ensures n % TWO_64 == r
  {
  }

  /* ---- unpacking: arguments<Tag> ---- */

  /** single_tag_to_type */
  function SingleType(d: nat): Option<ArgType> {
    if d == 1 then Some(INT64) else if d == 2 then Some(UINT64) else if d == 3 then Some(REAL)
    else if d == 4 || d == 5 then Some(STR) else None
  }

  function Decode(tag: nat): Option<seq<ArgType>> {
    if tag == 0 then Some([])
    else
      match (Decode(tag / 6), SingleType(tag % 6))
      case (Some(rest), Some(t)) => Some([t] + rest)
      case _ => None
  }

  function Pow6(n: nat): (p: nat)
    ensures p > 0
  {
    if n == 0 then 1 else 6 * Pow6(n - 1)
  }

  lemma {:induction false} Pow6Sum(a: nat, b: nat)
    ensures Pow6(a + b) == Pow6(a) * Pow6(b)
  {
    if a > 0 { Pow6Sum(a - 1, b); }
  }

  lemma {:induction false} Pow6Grows(a: nat, b: nat)
    requires a <= b
    ensures Pow6(a) <= Pow6(b)
    decreases b
  {
    if a < b { Pow6Grows(a, b - 1); }
  }

  /** 24 digits to base 6 fit 64 bits, 25 need not. */
  lemma Pow6Values()
    ensures Pow6(24) < TWO_64 && 5 * TWO_64 <= 4 * (Pow6(25) - 1) && Pow6(25) < 5 * TWO_64
  {
    assert Pow6(4) == 1296;
    assert Pow6(8) == 1679616 by { Pow6Sum(4, 4); }
    assert Pow6(16) == 2821109907456 by { Pow6Sum(8, 8); }
    assert Pow6(24) == 4738381338321616896 by { Pow6Sum(16, 8); }
    assert Pow6(25) == 28430288029929701376;
  }

  /** If a tag unpacks to the types of `ts`, it is near the packed value: only the two kinds of
      string can be mistaken for each other. */
  lemma {:induction false} DecodeNear(x: nat, ts: seq<ParamType>)
    requires Decode(x) == Some(ArgsOf(ts))
    ensures 5 * (Encode(ts) - x) < Pow6(|ts|) && (ts != [] ==> x >= Pow6(|ts| - 1))
  {
    if ts != [] {
      assert x != 0;
      assert ArgsOf(ts)[1..] == ArgsOf(ts[1..]) && ArgsOf(ts)[0] == ArgOf(ts[0]);
      assert Decode(x / 6).value == Decode(x).value[1..];
      DecodeNear(x / 6, ts[1..]);
    }
  }

  lemma {:induction false} DecodeOfEncode(ts: seq<ParamType>)
    ensures Decode(Encode(ts)) == Some(ArgsOf(ts)) && Encode(ts) < Pow6(|ts|)
  {
    if ts != [] {
      DecodeOfEncode(ts[1..]);
      assert Encode(ts) / 6 == Encode(ts[1..]) && Encode(ts) % 6 == Code(ts[0]);
    }
  }

  /** Two tags a multiple of 2^64 apart do not unpack to the same types. */
  lemma NoAlias(x: nat, ts: seq<ParamType>)
    requires x < TWO_64 && Decode(x) == Some(ArgsOf(ts))
    ensures Encode(ts) < x + TWO_64
  {
    hide Decode, Encode, Pow6, ArgsOf;
    DecodeNear(x, ts);
    Pow6Values();
    if |ts| <= 25 { Pow6Grows(|ts|, 25); } else { Pow6Grows(25, |ts| - 1); }
  }

  /** The packed types are recovered exactly if the packed value fits 64 bits. */
  lemma DecodeExact(ts: seq<ParamType>)
    ensures Decode(Encode(ts) % TWO_64) == Some(ArgsOf(ts)) <==> Encode(ts) < TWO_64
  {
    hide Decode, Encode, ArgsOf;
    var x := Encode(ts) % TWO_64;
    DecodeOfEncode(ts);
    if Decode(x) == Some(ArgsOf(ts)) { NoAlias(x, ts); }
  }

  /** Up to 24 placeholders always fit. */
  lemma TwentyFourFit(ts: seq<ParamType>)
    requires |ts| <= 24
    ensures Encode(ts) < TWO_64
  {
    DecodeOfEncode(ts);
    Pow6Values();
    Pow6Grows(|ts|, 24);
  }

  /** A rule of `n` path segments, each a string. */
  function StringRule(n: nat): string { if n == 0 then "" else "/<str>" + StringRule(n - 1) }

  function Strings(n: nat): seq<ParamType> { if n == 0 then [] else [STRING] + Strings(n - 1) }

  lemma {:induction false} StringRuleTokens(n: nat, s: string, i: nat)
    requires i <= |s| && s[i..] == StringRule(n)
    ensures Tokenize(s, i).Some? && Placeholders(Tokenize(s, i).value) == Strings(n)
    decreases n
  {
    hide Tokenize;
    if n > 0 {
      assert |s| - i >= 6 && s[i..][..6] == "/<str>";
      assert s[i + 6..] == s[i..][6..] == StringRule(n - 1);
      StringRuleTokens(n - 1, s, i + 6);
      StringSegment(s, i);
    } else {
      TokenizeEnd(s);
    }
  }

  lemma StringSegment(s: string, i: nat)
    requires i + 6 <= |s| && s[i..][..6] == "/<str>" && Tokenize(s, i + 6).Some?
    ensures Tokenize(s, i).Some?
      && Placeholders(Tokenize(s, i).value) == [STRING] + Placeholders(Tokenize(s, i + 6).value)
  {
    hide TagAt, StandsAt, Tokenize, Placeholders;
    assert s[i] == s[i..][..6][0] == '/' && s[i + 1] == s[i..][..6][1] == '<';
    assert s[i + 1..i + 6] == s[i..][..6][1..] == "<str>";
    var rest := Tokenize(s, i + 6).value;
    TokenizeIs(s, i);
    TokenizeIs(s, i + 1);
    StrStands(s, i + 1);
    OnePlaceholder(Lit('/'), [Param(STRING)] + rest);
    OnePlaceholder(Param(STRING), rest);
  }

  lemma OnePlaceholder(tok: Token, rest: Tokens)
    ensures Placeholders([tok] + rest) == (if tok.Param? then [tok.t] else []) + Placeholders(rest)
  {
    assert ([tok] + rest)[1..] == rest;
  }

  lemma StrStands(s: string, i: nat)
    requires i + 5 <= |s| && s[i..i + 5] == "<str>"
    ensures TagAt(s, i, 0) == 4
  {
    assert s[i + 1] == s[i..i + 5][1] == 's' && s[i + 4] == s[i..i + 5][4] == '>';
  }

  lemma {:induction false} EncodeStrings(n: nat)
    ensures 5 * Encode(Strings(n)) == 4 * (Pow6(n) - 1)
  {
    if n > 0 {
      EncodeStrings(n - 1);
      assert Strings(n)[1..] == Strings(n - 1);
    }
  }

  /** Of the rules of string segments exactly those of up to 24 have a tag that unpacks to their
      types: with 25 the tag has wrapped around. */
  lemma StringRuleExact(n: nat)
    ensures var text := StringRule(n);
      && Tokenize(text, 0).Some? && Placeholders(Tokenize(text, 0).value) == Strings(n) && Tag(text, 0).Some?
      && (Decode(Tag(text, 0).value) == Some(ArgsOf(Strings(n))) <==> n <= 24)
  {
    hide Tag, Decode, Encode, Tokenize, Strings, StringRule, ArgsOf, Pow6;
    var text := StringRule(n);
    assert text[0..] == text;
    StringRuleTokens(n, text, 0);
    TagIsEncoding(text, 0);
    DecodeExact(Strings(n));
    EncodeStrings(n);
    Pow6Values();
    if n <= 24 { Pow6Grows(n, 24); } else { Pow6Grows(25, n); }
  }

  /* ---- calling the handler ---- */

  function KindOf(v: Capture): ArgType {
    match v
    case IntValue(_) => INT64 case UintValue(_) => UINT64 case DoubleValue(_) => REAL case Text(_) => STR
  }

  function KindsOf(vs: seq<Capture>): seq<ArgType> {
    if vs == [] then [] else [KindOf(vs[0])] + KindsOf(vs[1..])
  }

  /** routing_params::get */
  function Get(params: RoutingParams, t: ArgType, pos: nat): Option<Capture> {
    match t
    case INT64 => if pos < |params.ints| then Some(IntValue(params.ints[pos])) else None
    case UINT64 => if pos < |params.uints| then Some(UintValue(params.uints[pos])) else None
    case REAL => if pos < |params.doubles| then Some(DoubleValue(params.doubles[pos])) else None
    case STR => if pos < |params.strings| then Some(Text(params.strings[pos])) else None
  }

  /** NInt, NUint, NDouble and NString: where the next argument of each type is. */
  datatype Counters = Counters(ints: nat, uints: nat, doubles: nat, strings: nat) {
    function At(t: ArgType): nat {
      match t case INT64 => ints case UINT64 => uints case REAL => doubles case STR => strings
    }

    function Bump(t: ArgType): Counters {
      match t
      case INT64 => this.(ints := ints + 1) case UINT64 => this.(uints := uints + 1)
      case REAL => this.(doubles := doubles + 1) case STR => this.(strings := strings + 1)
    }
  }

  /** The `call` templates. */
  function Call(params: RoutingParams, args: seq<ArgType>, c: Counters): Option<seq<Capture>>
    decreases |args|
  {
    if args == [] then Some([])
    else
      match (Get(params, args[0], c.At(args[0])), Call(params, args[1..], c.Bump(args[0])))
      case (Some(v), Some(vs)) => Some([v] + vs)
      case _ => None
  }

  ghost predicate Extends(a: RoutingParams, b: RoutingParams) {
    a.ints <= b.ints && a.uints <= b.uints && a.doubles <= b.doubles && a.strings <= b.strings
  }

  lemma {:induction false} PushAllExtends(ps: RoutingParams, caps: seq<Capture>)
    ensures Extends(ps, PushAll(ps, caps))
    decreases |caps|
  {
    if caps != [] { PushAllExtends(Push(ps, caps[0]), caps[1..]); }
  }

  function Heights(ps: RoutingParams): Counters {
    Counters(|ps.ints|, |ps.uints|, |ps.doubles|, |ps.strings|)
  }

  lemma HeightsOfPush(ps: RoutingParams, v: Capture)
    ensures Heights(Push(ps, v)) == Heights(ps).Bump(KindOf(v))
  {
  }

  lemma GetPushed(ps: RoutingParams, v: Capture, rest: seq<Capture>)
    ensures Get(PushAll(Push(ps, v), rest), KindOf(v), Heights(ps).At(KindOf(v))) == Some(v)
  {
    hide PushAll;
    PushAllExtends(Push(ps, v), rest);
  }

  lemma KindsOfCons(v: Capture, rest: seq<Capture>)
    ensures KindsOf([v] + rest) == [KindOf(v)] + KindsOf(rest)
  {
    assert ([v] + rest)[1..] == rest;
  }

  lemma CallCons(params: RoutingParams, v: Capture, args: seq<ArgType>, vs: seq<Capture>, c: Counters)
    requires Get(params, KindOf(v), c.At(KindOf(v))) == Some(v) && Call(params, args, c.Bump(KindOf(v))) == Some(vs)
    ensures Call(params, [KindOf(v)] + args, c) == Some([v] + vs)
  {
    hide Get;
    assert ([KindOf(v)] + args)[1..] == args;
  }

  /** Captures that were pushed are read back in their order, whatever was on the stacks before. */
  lemma {:induction false} CallReadsBack(ps: RoutingParams, caps: seq<Capture>)
    ensures Call(PushAll(ps, caps), KindsOf(caps), Heights(ps)) == Some(caps)
    decreases |caps|
  {
    if caps != [] {
      hide Push, Get, Heights, Call, KindsOf;
      var v, rest := caps[0], caps[1..];
      assert caps == [v] + rest;
      CallReadsBack(Push(ps, v), rest);
      GetPushed(ps, v, rest);
      HeightsOfPush(ps, v);
      KindsOfCons(v, rest);
      CallCons(PushAll(ps, caps), v, KindsOf(rest), rest, Heights(ps));
    }
  }

  /** Each placeholder captures a value of its type. */
  lemma {:induction false} MatchKinds(sc: Scanners, toks: Tokens, url: string, p: nat)
    requires ScannersOK(sc) && p <= |url| && Match(sc, toks, url, p).Some?
    ensures KindsOf(Match(sc, toks, url, p).value) == ArgsOf(Placeholders(toks))
    decreases |toks|
  {
    if toks != [] {
      match toks[0]
      case Lit(_) => MatchKinds(sc, toks[1..], url, p + 1);
      case Param(t) =>
        ScanAdvances(sc, t, url, p);
        var r := Scan(sc, t, url, p).value;
        MatchKinds(sc, toks[1..], url, r.1);
        var caps := Match(sc, toks[1..], url, r.1).value;
        assert ([r.0] + caps)[1..] == caps;
        assert ([t] + Placeholders(toks[1..]))[1..] == Placeholders(toks[1..]);
    }
  }

  /** If the tag of the rule fits 64 bits, argument `i` of the handler is the capture of
      placeholder `i`. */
  lemma ArgumentsArrive(sc: Scanners, text: string, url: string)
    requires ScannersOK(sc) && Tokenize(text, 0).Some? && Match(sc, Tokenize(text, 0).value, url, 0).Some?
    requires Encode(Placeholders(Tokenize(text, 0).value)) < TWO_64
    ensures Tag(text, 0).Some? && Decode(Tag(text, 0).value).Some?
    ensures var caps := Match(sc, Tokenize(text, 0).value, url, 0).value;
      Call(PushAll(NO_PARAMS, caps), Decode(Tag(text, 0).value).value, Counters(0, 0, 0, 0)) == Some(caps)
  {
    hide Tag, Decode, Encode, Match, Call, Tokenize;
    var toks := Tokenize(text, 0).value;
    var caps := Match(sc, toks, url, 0).value;
    TagIsEncoding(text, 0);
    DecodeExact(Placeholders(toks));
    MatchKinds(sc, toks, url, 0);
    CallReadsBack(NO_PARAMS, caps);
  }
}
