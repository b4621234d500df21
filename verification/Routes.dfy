/** Routing rules as token sequences: what it means for a URL to match one, and the plain scan
    over all rules that the routing trie has to agree with. */
module Routes {
  import opened Wrappers

  datatype ParamType = INT | UINT | DOUBLE | STRING | PATH

  datatype Token = Lit(c: char) | Param(t: ParamType)

  type Tokens = seq<Token>

  /** The value captured by a placeholder. */
  datatype Capture = IntValue(i: int) | UintValue(u: nat) | DoubleValue(d: real) | Text(s: string)

  /** strtoll, strtoull and strtod from a position: no number (or one out of range), or the value
      and the position after it. */
  datatype Scanners = Scanners(
    signed: (string, nat) -> Option<(int, nat)>,
    unsigned: (string, nat) -> Option<(nat, nat)>,
    floating: (string, nat) -> Option<(real, nat)>)

  /** A number that is read ends after its start, and inside the text. */
  ghost predicate ScannersOK(sc: Scanners) {
    && (forall url, p: nat :: sc.signed(url, p).Some? ==> p < sc.signed(url, p).value.1 <= |url|)
    && (forall url, p: nat :: sc.unsigned(url, p).Some? ==> p < sc.unsigned(url, p).value.1 <= |url|)
    && (forall url, p: nat :: sc.floating(url, p).Some? ==> p < sc.floating(url, p).value.1 <= |url|)
  }

  predicate IsDigit(c: char) { '0' <= c <= '9' }

  /** The end of the path segment that starts at `p`. */
  function SegmentEnd(url: string, p: nat): (e: nat)
    requires p <= |url|
    ensures p <= e <= |url|
    ensures forall q | p <= q < e :: url[q] != '/'
    ensures e < |url| ==> url[e] == '/'
    decreases |url| - p
  {
    if p == |url| || url[p] == '/' then p else SegmentEnd(url, p + 1)
  }

  /** What a placeholder of type `t` takes from the URL at position `p`: its value and its end. */
  function Scan(sc: Scanners, t: ParamType, url: string, p: nat): Option<(Capture, nat)>
    requires p < |url|
  {
    var c := url[p];
    match t
    case INT =>
      if IsDigit(c) || c == '+' || c == '-' then
        var r := sc.signed(url, p); if r.Some? then Some((IntValue(r.value.0), r.value.1)) else None
      else None
    case UINT =>
      if IsDigit(c) || c == '+' then
        var r := sc.unsigned(url, p); if r.Some? then Some((UintValue(r.value.0), r.value.1)) else None
      else None
    case DOUBLE =>
      if IsDigit(c) || c == '+' || c == '-' || c == '.' then
        var r := sc.floating(url, p); if r.Some? then Some((DoubleValue(r.value.0), r.value.1)) else None
      else None
    case STRING =>
      var e := SegmentEnd(url, p); if e != p then Some((Text(url[p..e]), e)) else None
    case PATH => Some((Text(url[p..]), |url|))
  }

  lemma ScanAdvances(sc: Scanners, t: ParamType, url: string, p: nat)
    requires ScannersOK(sc) && p < |url|
    ensures Scan(sc, t, url, p).Some? ==> p < Scan(sc, t, url, p).value.1 <= |url|
  {
  }

  /** The captures, in order, if the tokens take up all of the URL from `p` on. */
  ghost function Match(sc: Scanners, toks: Tokens, url: string, p: nat): Option<seq<Capture>>
    requires ScannersOK(sc) && p <= |url|
    decreases |toks|
  {
    if toks == [] then if p == |url| then Some([]) else None
    else if p == |url| then None
    else
      match toks[0]
      case Lit(c) => if url[p] == c then Match(sc, toks[1..], url, p + 1) else None
      case Param(t) =>
        ScanAdvances(sc, t, url, p);
        var r := Scan(sc, t, url, p);
        if r.None? then None
        else
          var caps := Match(sc, toks[1..], url, r.value.1);
          if caps.None? then None else Some([r.value.0] + caps.value)
  }

  /* ---- which of several matches is taken ---- */

  function Rank(t: Token): nat {
    match t
    case Param(INT) => 0 case Param(UINT) => 1 case Param(DOUBLE) => 2 case Param(STRING) => 3 case Param(PATH) => 4
    case Lit(_) => 5
  }

  /** `a` comes first where the two part. */
  ghost predicate Before(a: Tokens, b: Tokens) {
    exists k :: 0 <= k < |a| && k < |b| && a[..k] == b[..k] && Rank(a[k]) < Rank(b[k])
  }

  datatype Rule = Rule(toks: Tokens, index: nat)

  /** The rule `best` is the one a scan over `rules` for the URL ends with: the smallest index,
      and among equal indices (only stripped rules share one) the first in token order. */
  ghost predicate IsBest(sc: Scanners, rules: seq<Rule>, url: string, best: Rule)
    requires ScannersOK(sc)
  {
    && best in rules && Match(sc, best.toks, url, 0).Some?
    && forall r | r in rules && Match(sc, r.toks, url, 0).Some? ::
         best == r || best.index < r.index || (best.index == r.index && Before(best.toks, r.toks))
  }

  /** There is at most one best rule. */
  lemma BestIsUnique(sc: Scanners, rules: seq<Rule>, url: string, a: Rule, b: Rule)
    requires ScannersOK(sc) && IsBest(sc, rules, url, a) && IsBest(sc, rules, url, b)
    ensures a == b
  {
  }

  /** Of two token sequences that match the same URL, one comes first, or they are the same. */
  lemma {:induction false} MatchedAreOrdered(sc: Scanners, a: Tokens, b: Tokens, url: string, p: nat)
    requires ScannersOK(sc) && p <= |url|
    requires Match(sc, a, url, p).Some? && Match(sc, b, url, p).Some?
    ensures a == b || Before(a, b) || Before(b, a)
    decreases |a|
  {
    if a != [] && b != [] {
      if a[0] != b[0] {
        assert a[..0] == b[..0];
        assert Rank(a[0]) != Rank(b[0]);
      } else {
        if a[0].Param? { ScanAdvances(sc, a[0].t, url, p); }
        var q := if a[0].Param? then Scan(sc, a[0].t, url, p).value.1 else p + 1;
        MatchedAreOrdered(sc, a[1..], b[1..], url, q);
        BeforeCons(a[0], a[1..], b[1..]);
        BeforeCons(a[0], b[1..], a[1..]);
        assert a == [a[0]] + a[1..] && b == [b[0]] + b[1..];
      }
    }
  }

  lemma BeforeCons(t: Token, a: Tokens, b: Tokens)
    ensures Before(a, b) ==> Before([t] + a, [t] + b)
  {
    if Before(a, b) {
      var k :| 0 <= k < |a| && k < |b| && a[..k] == b[..k] && Rank(a[k]) < Rank(b[k]);
      assert ([t] + a)[..k + 1] == [t] + a[..k] && ([t] + b)[..k + 1] == [t] + b[..k];
      assert ([t] + a)[k + 1] == a[k] && ([t] + b)[k + 1] == b[k];
    }
  }

  ghost predicate Wins(a: Rule, b: Rule) {
    a.index < b.index || (a.index == b.index && Before(a.toks, b.toks))
  }

  /** Looks at the rules one after the other, keeping the better of two. */
  ghost function LinearScan(sc: Scanners, rules: seq<Rule>, url: string): Option<Rule>
    requires ScannersOK(sc)
  {
    if rules == [] then None
    else
      var kept := LinearScan(sc, rules[..|rules| - 1], url);
      var r := rules[|rules| - 1];
      if Match(sc, r.toks, url, 0).Some? && (kept.None? || Wins(r, kept.value)) then Some(r) else kept
  }

  lemma {:induction false} LinearScanIsBest(sc: Scanners, rules: seq<Rule>, url: string)
    requires ScannersOK(sc)
    ensures match LinearScan(sc, rules, url)
      case Some(r) => IsBest(sc, rules, url, r)
      case None => forall r | r in rules :: Match(sc, r.toks, url, 0).None?
  {
    if rules != [] {
      var front, last := rules[..|rules| - 1], rules[|rules| - 1];
      LinearScanIsBest(sc, front, url);
      assert rules == front + [last];
      var kept := LinearScan(sc, front, url);
      if Match(sc, last.toks, url, 0).Some? && kept.Some? {
        MatchedAreOrdered(sc, last.toks, kept.value.toks, url, 0);
        forall r | r in front && Match(sc, r.toks, url, 0).Some? && Wins(last, kept.value)
          ensures last == r || Wins(last, r)
        {
          if kept.value != r && !(kept.value.index < r.index) && last.index == r.index {
            MatchedAreOrdered(sc, last.toks, r.toks, url, 0);
            BeforeTransitive(last.toks, kept.value.toks, r.toks);
          }
        }
      }
    }
  }

  lemma BeforeTransitive(a: Tokens, b: Tokens, c: Tokens)
    requires Before(a, b) && Before(b, c)
    ensures Before(a, c)
  {
    var j :| 0 <= j < |a| && j < |b| && a[..j] == b[..j] && Rank(a[j]) < Rank(b[j]);
    var k :| 0 <= k < |b| && k < |c| && b[..k] == c[..k] && Rank(b[k]) < Rank(c[k]);
    var m := if j < k then j else k;
    assert a[..m] == b[..m] by { assert a[..m] == a[..j][..m]; assert b[..m] == b[..j][..m]; }
    assert b[..m] == c[..m] by { assert b[..m] == b[..k][..m]; assert c[..m] == c[..k][..m]; }
    if j < k { assert b[j] == b[..k][j] == c[..k][j] == c[j]; }
    if k < j { assert a[k] == a[..j][k] == b[..j][k] == b[k]; }
    assert Rank(a[m]) < Rank(c[m]);
  }
}
