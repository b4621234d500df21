/** Rules that end in a slash are added a second time without it, to answer with a redirect to
    the URL with a slash. When does the redirect lead back to the rule? */
module Redirects {
  import opened Wrappers
  import opened Routes
  import opened TrieShape
  import opened TrieGrow

  /** Numbers are read the same when a slash follows the text. */
  ghost predicate SlashStops(sc: Scanners, url: string)
  {
    && (forall p: nat | p < |url| :: sc.signed(url + "/", p) == sc.signed(url, p))
    && (forall p: nat | p < |url| :: sc.unsigned(url + "/", p) == sc.unsigned(url, p))
    && (forall p: nat | p < |url| :: sc.floating(url + "/", p) == sc.floating(url, p))
  }

  lemma TagsEnd(k: nat)
    requires k < |TAGS|
    ensures |TAGS[k].0| > 0 && TAGS[k].0[|TAGS[k].0| - 1] == '>'
  {
  }

  lemma StandsBeforeSlash(s: string, i: nat, name: string)
    requires |name| > 0 && name[|name| - 1] == '>'
    ensures StandsAt(s + "/", i, name) == StandsAt(s, i, name)
  {
  }

  lemma TagBeforeSlash(s: string, i: nat, k: nat)
    requires i < |s| && k <= |TAGS|
    ensures TagAt(s + "/", i, k) == TagAt(s, i, k)
    decreases |TAGS| - k
  {
    hide StandsAt, TAGS;
    if k < |TAGS| {
      TagsEnd(k);
      StandsBeforeSlash(s, i, TAGS[k].0);
      TagBeforeSlash(s, i, k + 1);
    }
  }

  /** The tokens of a rule with a slash at its end: those without it, and the slash. */
  lemma {:induction false} TokenizeSlash(s: string, i: nat)
    requires i <= |s|
    ensures Tokenize(s + "/", i).Some? <==> Tokenize(s, i).Some?
    ensures Tokenize(s, i).Some? ==> Tokenize(s + "/", i).value == Tokenize(s, i).value + [Lit('/')]
    decreases |s| - i
  {
    hide StandsAt, TagAt, Tokenize;
    TokenizeIs(s + "/", i);
    if i == |s| {
      TokenizeEnd(s);
      TokenizeEnd(s + "/");
    } else {
      TokenizeIs(s, i);
      if s[i] == '<' { TagBeforeSlash(s, i, 0); }
      var k := if s[i] == '<' then TagAt(s, i, 0) else 0;
      if k != |TAGS| {
        var next := if s[i] == '<' then NextAt(s, i, k) else i + 1;
        TokenizeSlash(s, next);
        if Tokenize(s, next).Some? {
          var rest := Tokenize(s, next).value;
          assert forall tok :: [tok] + (rest + [Lit('/')]) == ([tok] + rest) + [Lit('/')];
        }
      }
    }
  }

  lemma SegmentBeforeSlash(url: string, p: nat)
    requires p <= |url|
    ensures SegmentEnd(url + "/", p) == SegmentEnd(url, p)
    decreases |url| - p
  {
    if p < |url| && url[p] != '/' {
      SegmentBeforeSlash(url, p + 1);
    }
  }

  lemma ScanBeforeSlash(sc: Scanners, t: ParamType, url: string, p: nat)
    requires ScannersOK(sc) && SlashStops(sc, url) && p < |url| && t != PATH
    ensures Scan(sc, t, url + "/", p) == Scan(sc, t, url, p)
  {
    SegmentBeforeSlash(url, p);
    assert (url + "/")[p..SegmentEnd(url, p)] == url[p..SegmentEnd(url, p)];
  }

  /** If the stripped rule matches the URL, then the rule itself matches the URL with a slash,
      with the same captures, exactly if it has no `<path>`. */
  lemma {:induction false} RedirectLands(sc: Scanners, toks: Tokens, url: string, p: nat)
    requires ScannersOK(sc) && SlashStops(sc, url) && p <= |url| && Match(sc, toks, url, p).Some?
    ensures Match(sc, toks + [Lit('/')], url + "/", p) == if Param(PATH) in toks then None else Match(sc, toks, url, p)
    decreases |toks|
  {
    var url', toks' := url + "/", toks + [Lit('/')];
    if toks == [] {
      assert toks'[1..] == [];
    } else {
      assert toks'[1..] == toks[1..] + [Lit('/')];
      match toks[0]
      case Lit(_) => RedirectLands(sc, toks[1..], url, p + 1);
      case Param(t) =>
        if t == PATH {
          NothingAfterPath(sc, toks, Lit('/'), url', p);
        } else {
          ScanAdvances(sc, t, url, p);
          ScanBeforeSlash(sc, t, url, p);
          RedirectLands(sc, toks[1..], url, Scan(sc, t, url, p).value.1);
        }
    }
  }

  /** A stripped rule with a `<path>` matches the URL it redirects to again. */
  lemma {:induction false} RedirectLoops(sc: Scanners, toks: Tokens, url: string, p: nat)
    requires ScannersOK(sc) && SlashStops(sc, url) && p <= |url| && Match(sc, toks, url, p).Some? && Param(PATH) in toks
    ensures Match(sc, toks, url + "/", p).Some?
    decreases |toks|
  {
    match toks[0]
    case Lit(_) => RedirectLoops(sc, toks[1..], url, p + 1);
    case Param(t) =>
      if t != PATH {
        ScanAdvances(sc, t, url, p);
        ScanBeforeSlash(sc, t, url, p);
        RedirectLoops(sc, toks[1..], url, Scan(sc, t, url, p).value.1);
      } else {
        assert Match(sc, toks[1..], url, |url|).Some?;
      }
  }

  /** A `<path>` takes all of the URL: no rule with anything after it ever matches. */
  lemma {:induction false} NothingAfterPath(sc: Scanners, toks: Tokens, last: Token, url: string, p: nat)
    requires ScannersOK(sc) && p <= |url| && Param(PATH) in toks
    ensures Match(sc, toks + [last], url, p).None?
    decreases |toks|
  {
    var toks' := toks + [last];
    assert toks'[0] == toks[0] && toks'[1..] == toks[1..] + [last];
    if p < |url| {
      if toks[0] == Param(PATH) {
        assert Match(sc, toks'[1..], url, |url|).None?;
      } else {
        if toks[0].Param? { ScanAdvances(sc, toks[0].t, url, p); }
        var q := if toks[0].Lit? then p + 1
          else if Scan(sc, toks[0].t, url, p).Some? then Scan(sc, toks[0].t, url, p).value.1 else p;
        NothingAfterPath(sc, toks[1..], last, url, q);
      }
    }
  }
}
