/** The router: the list of rules beside the trie, and what a request is answered. */
module Router {
  import opened Wrappers
  import opened Routes
  import opened TrieShape
  import opened TrieGrow
  import opened Captures
  import opened Redirects
  import T = Trie

  const RULE_SPECIAL_REDIRECT_SLASH := 1

  datatype RuleObject = RuleObject(text: string, methods: set<nat>)

  datatype Answer =
    | NotFound
    | Redirect(location: string)
    | Dispatch(index: nat, params: RoutingParams)

  /** A rule that is also added without its slash. */
  predicate IsDirectory(text: string) {
    |text| > 1 && text[|text| - 1] == '/'
  }

  function Stripped(text: string): string
    requires IsDirectory(text)
  {
    text[..|text| - 1]
  }

  /** The rule at `k` is there, and its text is well formed. */
  ghost predicate Present(rules: seq<Option<RuleObject>>, k: nat) {
    k < |rules| && rules[k].Some? && Tokenize(rules[k].value.text, 0).Some?
  }

  /** What an entry of the trie stands for. */
  ghost predicate Explained(rules: seq<Option<RuleObject>>, r: Rule) {
    if r.index == RULE_SPECIAL_REDIRECT_SLASH then
      exists k :: 2 <= k && Present(rules, k) && IsDirectory(rules[k].value.text)
        && Tokenize(Stripped(rules[k].value.text), 0) == Some(r.toks)
    else
      2 <= r.index && Present(rules, r.index) && Tokenize(rules[r.index].value.text, 0) == Some(r.toks)
  }

  /** What the trie gets for the rule of index `k`. */
  ghost function Entries(text: string, k: nat): seq<Rule>
    requires Tokenize(text, 0).Some?
  {
    StrippedTokens(text);
    [Rule(Tokenize(text, 0).value, k)]
    + if IsDirectory(text) then [Rule(Tokenize(Stripped(text), 0).value, RULE_SPECIAL_REDIRECT_SLASH)] else []
  }

  class Router {
    var rules: seq<Option<RuleObject>>
    const trie: T.Trie

    /** Every entry of the trie stands for a rule of the list. */
    ghost predicate Valid()
      reads this, trie
    {
      |rules| >= 2 && trie.HoldsRules() && forall r | r in trie.rules :: Explained(rules, r)
    }

    constructor ()
      ensures Valid() && fresh(trie) && Raw(trie.nodes, trie.paths) && trie.rules == []
      ensures rules == [None, None]
    {
      rules := [None, None];
      trie := new T.Trie();
    }

    method AddRule(rule: RuleObject) returns (ok: bool)
      requires Valid() && Raw(trie.nodes, trie.paths) && Tokenize(rule.text, 0).Some?
      modifies this, trie
      ensures Valid() && Raw(trie.nodes, trie.paths) && rules == old(rules) + [Some(rule)]
      ensures ok ==> trie.rules == old(trie.rules) + Entries(rule.text, |rules| - 1)
      ensures ok <==>
        && (forall r | r in old(trie.rules) :: Tokenize(rule.text, 0) != Some(r.toks))
        && (IsDirectory(rule.text) ==> forall r | r in old(trie.rules) ::
          Tokenize(Stripped(rule.text), 0) != Some(r.toks))
    {
      hide Tokenize, Raw, T.Trie.HoldsRules;
      StrippedTokens(rule.text);
      ghost var rules0 := trie.rules;
      rules := rules + [Some(rule)];
      forall r | r in rules0 ensures Explained(rules, r) {
        StillExplained(old(rules), rules, r);
      }
      ok := trie.Add(rule.text, |rules| - 1);
      if !ok { return; }
      if IsDirectory(rule.text) {
        ok := trie.Add(Stripped(rule.text), RULE_SPECIAL_REDIRECT_SLASH);
        assert Present(rules, |rules| - 1);
      }
    }

    method Validate() returns (ok: bool)
      requires Valid()
      modifies trie
      ensures Valid() && rules == old(rules) && trie.rules == old(trie.rules)
    {
      ok := trie.Validate();
    }

    method Handle(sc: Scanners, url: string, host: string, verb: nat) returns (a: Answer)
      requires Valid() && ScannersOK(sc)
      ensures match LinearScan(sc, trie.rules, url)
        case None => a == NotFound
        case Some(r) =>
          if r.index == RULE_SPECIAL_REDIRECT_SLASH then
            a == Redirect((if host == "" then "" else "http://" + host) + url + "/")
          else
            2 <= r.index < |rules| && rules[r.index].Some? && Match(sc, r.toks, url, 0).Some?
            && a == if verb in rules[r.index].value.methods
                    then Dispatch(r.index, PushAll(NO_PARAMS, Match(sc, r.toks, url, 0).value)) else NotFound
    {
      hide Match, Tokenize, LinearScan, T.Trie.HoldsRules;
      LinearScanIsBest(sc, trie.rules, url);
      var index, params := trie.Route(sc, url);
      if index == 0 {
        return NotFound;
      }
      ghost var r := LinearScan(sc, trie.rules, url).value;
      assert Explained(rules, r);
      if index == RULE_SPECIAL_REDIRECT_SLASH {
        var location := if host == "" then url + "/" else "http://" + host + url + "/";
        assert host == "" ==> "" + url == url;
        return Redirect(location);
      }
      if verb !in rules[index].value.methods {
        return NotFound;
      }
      return Dispatch(index, params);
    }
  }

  lemma StrippedTokens(text: string)
    ensures IsDirectory(text) ==> (Tokenize(text, 0).Some? <==> Tokenize(Stripped(text), 0).Some?)
    ensures IsDirectory(text) && Tokenize(text, 0).Some? ==>
      Tokenize(text, 0).value == Tokenize(Stripped(text), 0).value + [Lit('/')]
  {
    if IsDirectory(text) {
      assert text == Stripped(text) + "/";
      TokenizeSlash(Stripped(text), 0);
    }
  }

  lemma StillExplained(rules: seq<Option<RuleObject>>, rules': seq<Option<RuleObject>>, r: Rule)
    requires rules <= rules' && Explained(rules, r)
    ensures Explained(rules', r)
  {
  }

  /** A redirect is for the sake of a rule `k` of the list. The URL it leads to matches that rule,
      unless the rule has a `<path>`: then it is redirected once more. */
  lemma RedirectAnswers(router: Router, sc: Scanners, url: string) returns (k: nat)
    requires router.Valid() && ScannersOK(sc) && SlashStops(sc, url)
    requires LinearScan(sc, router.trie.rules, url).Some?
    requires LinearScan(sc, router.trie.rules, url).value.index == RULE_SPECIAL_REDIRECT_SLASH
    ensures 2 <= k && Present(router.rules, k) && IsDirectory(router.rules[k].value.text)
    ensures var toks := Tokenize(router.rules[k].value.text, 0).value;
      if Param(PATH) !in toks then Match(sc, toks, url + "/", 0).Some?
      else
        && (forall u | ScannersOK(sc) :: Match(sc, toks, u, 0).None?)
        && LinearScan(sc, router.trie.rules, url + "/").Some?
        && LinearScan(sc, router.trie.rules, url + "/").value.index == RULE_SPECIAL_REDIRECT_SLASH
  {
    LinearScanIsBest(sc, router.trie.rules, url);
    var r := LinearScan(sc, router.trie.rules, url).value;
    assert Explained(router.rules, r);
    k :| 2 <= k && Present(router.rules, k) && IsDirectory(router.rules[k].value.text)
        && Tokenize(Stripped(router.rules[k].value.text), 0) == Some(r.toks);
    StrippedTokens(router.rules[k].value.text);
    RedirectLands(sc, r.toks, url, 0);
    if Param(PATH) in r.toks {
      RedirectLoops(sc, r.toks, url, 0);
      LinearScanIsBest(sc, router.trie.rules, url + "/");
      forall u ensures Match(sc, r.toks + [Lit('/')], u, 0).None? {
        NothingAfterPath(sc, r.toks, Lit('/'), u, 0);
      }
    }
  }

  /** For example: with the rule "/<path>/", the URL "/a" is redirected to "/a/", and that again. */
  method RedirectExample(sc: Scanners) returns (first: Answer, second: Answer)
    requires ScannersOK(sc)
    ensures first == Redirect("/a/") && second == Redirect("/a//")
  {
    hide LinearScan, Router.Valid, Match;
    var router := PathRouter();
    PathRuleScan(sc, "/a");
    PathRuleScan(sc, "/a/");
    first := router.Handle(sc, "/a", "", 1);
    second := router.Handle(sc, "/a/", "", 1);
    assert "" + "/a" + "/" == "/a/" && "" + "/a/" + "/" == "/a//";
  }

  method PathRouter() returns (router: Router)
    ensures fresh(router) && fresh(router.trie) && router.Valid()
    ensures var a := [Lit('/'), Param(PATH)];
      router.trie.rules == [Rule(a + [Lit('/')], 2), Rule(a, RULE_SPECIAL_REDIRECT_SLASH)]
  {
    hide Tokenize, Raw;
    router := new Router();
    PathRuleTokens();
    StrippedTokens(PATH_RULE);
    var ok := router.AddRule(RuleObject(PATH_RULE, {1}));
    assert [] + Entries(PATH_RULE, 2) == Entries(PATH_RULE, 2);
    assert [Lit('/'), Param(PATH)] + [Lit('/')] == [Lit('/'), Param(PATH), Lit('/')];
    ok := router.Validate();
  }

  const PATH_RULE := "/<path>/"

  lemma PathRuleTokens()
    ensures Tokenize(PATH_RULE, 0) == Some([Lit('/'), Param(PATH), Lit('/')])
    ensures Tokenize(Stripped(PATH_RULE), 0) == Some([Lit('/'), Param(PATH)])
  {
    hide TagAt, StandsAt;
    var s := "/<path>";
    assert Stripped(PATH_RULE) == s && PATH_RULE == s + "/";
    PathStands();
    TokenizeEnd(s);
    assert s[0] == '/' && s[1] == '<';
    assert Tokenize(s, 1) == Some([Param(PATH)] + []);
    assert Tokenize(s, 0) == Some([Lit(s[0])] + Tokenize(s, 1).value);
    assert [Lit('/')] + ([Param(PATH)] + []) == [Lit('/'), Param(PATH)];
    hide Tokenize;
    TokenizeSlash(s, 0);
    assert [Lit('/'), Param(PATH)] + [Lit('/')] == [Lit('/'), Param(PATH), Lit('/')];
  }

  lemma PathStands()
    ensures TagAt("/<path>", 1, 0) == 6 && StandsAt("/<path>", 1, "<path>")
  {
    var s := "/<path>";
    assert s[1..7] == "<path>" && s[2] == 'p';
  }

  lemma PathRuleScan(sc: Scanners, url: string)
    requires ScannersOK(sc) && |url| > 1 && url[0] == '/'
    ensures var a := [Lit('/'), Param(PATH)];
      var r := LinearScan(sc, [Rule(a + [Lit('/')], 2), Rule(a, RULE_SPECIAL_REDIRECT_SLASH)], url);
      r.Some? && r.value.index == RULE_SPECIAL_REDIRECT_SLASH
  {
    var a := [Lit('/'), Param(PATH)];
    assert a[1..] == [Param(PATH)] && [Param(PATH)][1..] == [];
    assert Match(sc, [], url, |url|) == Some([]);
    assert Match(sc, a[1..], url, 1).Some?;
    assert Match(sc, a, url, 0).Some?;
    hide Match;
    NothingAfterPath(sc, a, Lit('/'), url, 0);
    var rules := [Rule(a + [Lit('/')], 2), Rule(a, RULE_SPECIAL_REDIRECT_SLASH)];
    assert rules[..1] == [rules[0]] && [rules[0]][..0] == [];
    assert LinearScan(sc, [], url).None? && LinearScan(sc, [rules[0]], url).None?;
  }
}
