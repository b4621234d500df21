/** What a search finds below a node of the trie, and how the edges of the node share it out. */
module TrieSearch {
  import opened Wrappers
  import opened Routes
  import opened TrieShape

  /* ---- the candidates below a node ---- */

  ghost predicate Cand(nodes: seq<Node>, paths: seq<Tokens>, sc: Scanners, url: string, i: nat, p: nat, j: nat)
    requires |nodes| == |paths| && i < |nodes| && p <= |url| && ScannersOK(sc)
  {
    j < |nodes| && nodes[j].ruleIndex != 0 && paths[i] <= paths[j]
    && Match(sc, paths[j][|paths[i]|..], url, p).Some?
  }

  ghost predicate Beats(nodes: seq<Node>, paths: seq<Tokens>, a: nat, b: nat)
    requires |nodes| == |paths| && a < |nodes| && b < |nodes|
  {
    a == b || nodes[a].ruleIndex < nodes[b].ruleIndex
    || (nodes[a].ruleIndex == nodes[b].ruleIndex && Before(paths[a], paths[b]))
  }

  /** `best`, with rule `found`, is the best of the nodes in `s`; `found` is 0 if there are none. */
  ghost predicate BestIn(nodes: seq<Node>, paths: seq<Tokens>, s: set<nat>, found: nat, best: nat)
    requires |nodes| == |paths| && forall j | j in s :: j < |nodes|
  {
    if found == 0 then s == {}
    else best in s && nodes[best].ruleIndex == found && forall j | j in s :: Beats(nodes, paths, best, j)
  }

  /** update_found on the best of two sets, the first of which comes first in token order. */
  lemma BestOfTwo(nodes: seq<Node>, paths: seq<Tokens>, s: set<nat>, found: nat, best: nat, t: set<nat>, found': nat,
      best': nat)
    requires |nodes| == |paths| && (forall j | j in s :: j < |nodes|) && (forall j | j in t :: j < |nodes|)
    requires BestIn(nodes, paths, s, found, best) && BestIn(nodes, paths, t, found', best')
    requires forall j, k | j in s && k in t :: Before(paths[j], paths[k])
    ensures if found' != 0 && (found == 0 || found > found') then BestIn(nodes, paths, s + t, found', best')
            else BestIn(nodes, paths, s + t, found, best)
  {
  }

  /** The candidates below node `i` at position `p`. */
  ghost function Below(nodes: seq<Node>, paths: seq<Tokens>, sc: Scanners, url: string, i: nat, p: nat): set<nat>
    requires |nodes| == |paths| && i < |nodes| && p <= |url| && ScannersOK(sc)
  {
    set j | 0 <= j < |nodes| && Cand(nodes, paths, sc, url, i, p, j)
  }

  /** Those whose path goes on through node `c`. */
  ghost function Through(nodes: seq<Node>, paths: seq<Tokens>, sc: Scanners, url: string, i: nat, p: nat,
      next: Tokens): set<nat>
    requires |nodes| == |paths| && i < |nodes| && p <= |url| && ScannersOK(sc)
  {
    set j | j in Below(nodes, paths, sc, url, i, p) && paths[i] + next <= paths[j]
  }

  /** The fragment `w` stands in the URL at `p`. */
  predicate Follows(url: string, p: nat, w: string)
    requires p <= |url|
  {
    p + |w| <= |url| && url[p..p + |w|] == w
  }

  /** Matching literals is comparing text. */
  lemma {:induction false} MatchLits(sc: Scanners, w: string, toks: Tokens, url: string, p: nat)
    requires ScannersOK(sc) && p <= |url|
    ensures Match(sc, Lits(w) + toks, url, p) ==
      if p + |w| <= |url| && url[p..p + |w|] == w then Match(sc, toks, url, p + |w|) else None
    decreases |w|
  {
    if w == "" {
      assert Lits(w) + toks == toks;
    } else {
      assert Lits(w) + toks == [Lit(w[0])] + (Lits(w[1..]) + toks);
      if p < |url| {
        MatchLits(sc, w[1..], toks, url, p + 1);
        if p + |w| <= |url| {
          assert url[p..p + |w|] == [url[p]] + url[p + 1..p + |w|];
          assert w == [w[0]] + w[1..];
        }
      }
    }
  }

  /** Through a literal edge that the URL does not follow there are no candidates; through one
      it follows, they are those of the child. */
  lemma ThroughLits(nodes: seq<Node>, paths: seq<Tokens>, sc: Scanners, url: string, i: nat, p: nat, w: string)
    requires Inv(nodes, paths) && i < |nodes| && p <= |url| && ScannersOK(sc) && w in nodes[i].children
    ensures Edges(nodes, paths, i)
    ensures var c := nodes[i].children[w];
      Through(nodes, paths, sc, url, i, p, Lits(w)) ==
        if Follows(url, p, w) then Below(nodes, paths, sc, url, c, p + |w|) else {}
  {
    assert Edges(nodes, paths, i);
    var c := nodes[i].children[w];
    forall j | 0 <= j < |nodes| && paths[c] <= paths[j]
      ensures Cand(nodes, paths, sc, url, i, p, j) <==>
        Follows(url, p, w) && Cand(nodes, paths, sc, url, c, p + |w|, j)
    {
      PathSplit(paths[i], Lits(w), paths[j]);
      MatchLits(sc, w, paths[j][|paths[c]|..], url, p);
    }
  }

  /** The same for the edge of a placeholder. */
  lemma ThroughParam(nodes: seq<Node>, paths: seq<Tokens>, sc: Scanners, url: string, i: nat, p: nat, t: nat)
    requires Inv(nodes, paths) && i < |nodes| && p < |url| && ScannersOK(sc)
    requires t < 5 && Edges(nodes, paths, i) && nodes[i].params[t] != 0
    ensures var r := Scan(sc, TYPES[t], url, p);
      && (r.Some? ==> p < r.value.1 <= |url|)
      && Through(nodes, paths, sc, url, i, p, [Param(TYPES[t])]) ==
          if r.Some? then Below(nodes, paths, sc, url, nodes[i].params[t], r.value.1) else {}
  {
  }

  /** The candidates that go on with a token of rank less than `t`. */
  ghost function Upto(nodes: seq<Node>, paths: seq<Tokens>, sc: Scanners, url: string, i: nat, p: nat, t: nat): set<nat>
    requires |nodes| == |paths| && i < |nodes| && p <= |url| && ScannersOK(sc)
  {
    set j | j in Below(nodes, paths, sc, url, i, p) && |paths[i]| < |paths[j]| && Rank(paths[j][|paths[i]|]) < t
  }

  /** The candidates that go on along a literal edge in `keys`. */
  ghost function Along(nodes: seq<Node>, paths: seq<Tokens>, sc: Scanners, url: string, i: nat, p: nat,
      keys: set<string>): set<nat>
    requires |nodes| == |paths| && i < |nodes| && p <= |url| && ScannersOK(sc)
  {
    set j | j in Below(nodes, paths, sc, url, i, p) && exists w :: w in keys && paths[i] + Lits(w) <= paths[j]
  }

  /** Those with a placeholder, and those along the edges in `keys`. */
  ghost function UptoAlong(nodes: seq<Node>, paths: seq<Tokens>, sc: Scanners, url: string, i: nat, p: nat,
      keys: set<string>): set<nat>
    requires |nodes| == |paths| && i < |nodes| && p <= |url| && ScannersOK(sc)
  {
    Upto(nodes, paths, sc, url, i, p, 5) + Along(nodes, paths, sc, url, i, p, keys)
  }

  /** The captures of a candidate: those it makes from node `i` and position `p` on. */
  ghost function Caps(nodes: seq<Node>, paths: seq<Tokens>, sc: Scanners, url: string, i: nat, p: nat,
      j: nat): seq<Capture>
    requires |nodes| == |paths| && i < |nodes| && p <= |url| && ScannersOK(sc) && Cand(nodes, paths, sc, url, i, p, j)
  {
    Match(sc, paths[j][|paths[i]|..], url, p).value
  }

  lemma CapsThroughLits(nodes: seq<Node>, paths: seq<Tokens>, sc: Scanners, url: string, i: nat, p: nat, w: string,
      j: nat)
    requires Inv(nodes, paths) && i < |nodes| && p <= |url| && ScannersOK(sc) && w in nodes[i].children
      && Edges(nodes, paths, i)
    requires Follows(url, p, w) && j in Below(nodes, paths, sc, url, nodes[i].children[w], p + |w|)
    ensures j in Below(nodes, paths, sc, url, i, p)
    ensures Caps(nodes, paths, sc, url, i, p, j) == Caps(nodes, paths, sc, url, nodes[i].children[w], p + |w|, j)
  {
    hide Match;
    PathSplit(paths[i], Lits(w), paths[j]);
    MatchLits(sc, w, paths[j][|paths[i]| + |w|..], url, p);
  }

  lemma CapsThroughParam(nodes: seq<Node>, paths: seq<Tokens>, sc: Scanners, url: string, i: nat, p: nat, t: nat,
      j: nat)
    requires Inv(nodes, paths) && i < |nodes| && p < |url| && ScannersOK(sc)
    requires t < 5 && Edges(nodes, paths, i) && nodes[i].params[t] != 0
    requires var r := Scan(sc, TYPES[t], url, p);
      r.Some? && p < r.value.1 <= |url| && j in Below(nodes, paths, sc, url, nodes[i].params[t], r.value.1)
    ensures j in Below(nodes, paths, sc, url, i, p)
    ensures var r := Scan(sc, TYPES[t], url, p);
      Caps(nodes, paths, sc, url, i, p, j) ==
          [r.value.0] + Caps(nodes, paths, sc, url, nodes[i].params[t], r.value.1, j)
  {
  }

  /** The candidates of the next placeholder type join those of the earlier ones, and come after
      them in token order. */
  lemma UptoStep(nodes: seq<Node>, paths: seq<Tokens>, sc: Scanners, url: string, i: nat, p: nat, t: nat)
    requires Inv(nodes, paths) && i < |nodes| && p < |url| && ScannersOK(sc) && t < 5
    ensures Upto(nodes, paths, sc, url, i, p, t + 1) ==
      Upto(nodes, paths, sc, url, i, p, t) + Through(nodes, paths, sc, url, i, p, [Param(TYPES[t])])
    ensures forall j, k | j in Upto(nodes, paths, sc, url, i, p, t)
      && k in Through(nodes, paths, sc, url, i, p, [Param(TYPES[t])]) ::
      Before(paths[j], paths[k])
  {
    var n := |paths[i]|;
    forall j | j in Below(nodes, paths, sc, url, i, p)
      ensures paths[i] + [Param(TYPES[t])] <= paths[j] <==> n < |paths[j]| && Rank(paths[j][n]) == t
    {
      if n < |paths[j]| { assert paths[j] == paths[i] + [paths[j][n]] + paths[j][n + 1..]; }
    }
    forall j, k | j in Upto(nodes, paths, sc, url, i, p, t)
        && k in Through(nodes, paths, sc, url, i, p, [Param(TYPES[t])])
      ensures Before(paths[j], paths[k])
    {
      assert paths[j][..n] == paths[k][..n];
    }
  }

  lemma InRange(nodes: seq<Node>, paths: seq<Tokens>, sc: Scanners, url: string, i: nat, p: nat)
    requires |nodes| == |paths| && i < |nodes| && p <= |url| && ScannersOK(sc)
    ensures forall j | j in Below(nodes, paths, sc, url, i, p) :: j < |nodes| && Cand(nodes, paths, sc, url, i, p, j)
    ensures forall t | 0 <= t :: Upto(nodes, paths, sc, url, i, p, t) <= Below(nodes, paths, sc, url, i, p)
    ensures forall next :: Through(nodes, paths, sc, url, i, p, next) <= Below(nodes, paths, sc, url, i, p)
    ensures forall keys :: UptoAlong(nodes, paths, sc, url, i, p, keys) <= Below(nodes, paths, sc, url, i, p)
  {
  }

  lemma AlongNone(nodes: seq<Node>, paths: seq<Tokens>, sc: Scanners, url: string, i: nat, p: nat)
    requires |nodes| == |paths| && i < |nodes| && p <= |url| && ScannersOK(sc)
    ensures UptoAlong(nodes, paths, sc, url, i, p, {}) == Upto(nodes, paths, sc, url, i, p, 5)
  {
  }

  /** Without an edge for a placeholder, no candidate goes on with it. */
  lemma NoParam(nodes: seq<Node>, paths: seq<Tokens>, sc: Scanners, url: string, i: nat, p: nat, t: nat)
    requires Inv(nodes, paths) && i < |nodes| && p < |url| && ScannersOK(sc) && t < 5
    requires Edges(nodes, paths, i) && nodes[i].params[t] == 0
    ensures Through(nodes, paths, sc, url, i, p, [Param(TYPES[t])]) == {}
  {
    forall j | j in Below(nodes, paths, sc, url, i, p) ensures !(paths[i] + [Param(TYPES[t])] <= paths[j]) {
      if paths[i] < paths[j] {
        NextEdge(nodes, paths, i, j);
      }
    }
  }

  /** Before the end of the URL every candidate goes on with a placeholder or along a literal edge. */
  lemma AllBelow(nodes: seq<Node>, paths: seq<Tokens>, sc: Scanners, url: string, i: nat, p: nat)
    requires Inv(nodes, paths) && i < |nodes| && p < |url| && ScannersOK(sc)
    ensures Below(nodes, paths, sc, url, i, p) ==
      UptoAlong(nodes, paths, sc, url, i, p, nodes[i].children.Keys)
  {
    forall j | j in Below(nodes, paths, sc, url, i, p)
      ensures j in Upto(nodes, paths, sc, url, i, p, 5)
        || j in Along(nodes, paths, sc, url, i, p, nodes[i].children.Keys)
    {
      assert paths[j][|paths[i]|..] != [];
      NextEdge(nodes, paths, i, j);
    }
  }

  /** One more literal edge. Its candidates come after those with a placeholder. */
  lemma AlongStep(nodes: seq<Node>, paths: seq<Tokens>, sc: Scanners, url: string, i: nat, p: nat, done: set<string>,
      w: string)
    requires Inv(nodes, paths) && i < |nodes| && p < |url| && ScannersOK(sc) && w in nodes[i].children
    ensures Along(nodes, paths, sc, url, i, p, done + {w}) ==
      Along(nodes, paths, sc, url, i, p, done) + Through(nodes, paths, sc, url, i, p, Lits(w))
    ensures forall j, k | j in Upto(nodes, paths, sc, url, i, p, 5)
      && k in Through(nodes, paths, sc, url, i, p, Lits(w)) ::
      Before(paths[j], paths[k])
  {
    var n := |paths[i]|;
    assert Edges(nodes, paths, i);
    forall j, k | j in Upto(nodes, paths, sc, url, i, p, 5) && k in Through(nodes, paths, sc, url, i, p, Lits(w))
      ensures Before(paths[j], paths[k])
    {
      assert paths[j][..n] == paths[k][..n];
      assert paths[k][n] == (paths[i] + Lits(w))[n] == Lit(w[0]);
    }
  }

  lemma BothFollow(url: string, p: nat, v: string, w: string)
    requires p <= |url|
    ensures Follows(url, p, v) && Follows(url, p, w) ==> v <= w || w <= v
  {
  }

  /** The URL follows at most one literal edge, so the order in which they are tried is of no matter. */
  lemma OnlyOneFollows(nodes: seq<Node>, paths: seq<Tokens>, sc: Scanners, url: string, i: nat, p: nat,
      done: set<string>, w: string)
    requires Inv(nodes, paths) && i < |nodes| && p < |url| && ScannersOK(sc)
    requires done <= nodes[i].children.Keys && w in nodes[i].children && w !in done && Follows(url, p, w)
    ensures Along(nodes, paths, sc, url, i, p, done) == {}
  {
    forall v | v in done ensures Through(nodes, paths, sc, url, i, p, Lits(v)) == {} {
      ThroughLits(nodes, paths, sc, url, i, p, v);
      BothFollow(url, p, v, w);
    }
    forall j, v | j in Below(nodes, paths, sc, url, i, p) && v in done ensures !(paths[i] + Lits(v) <= paths[j]) {
      assert j !in Through(nodes, paths, sc, url, i, p, Lits(v));
    }
  }

  /** The best candidate of the whole trie is what a scan over the rules it holds ends with. */
  lemma BestIsScanned(nodes: seq<Node>, paths: seq<Tokens>, rules: seq<Rule>, sc: Scanners, url: string, found: nat,
      best: nat)
    requires Inv(nodes, paths) && ScannersOK(sc) && forall r :: r in rules <==> Holds(nodes, paths, r)
    requires BestIn(nodes, paths, Below(nodes, paths, sc, url, 0, 0), found, best)
    ensures match LinearScan(sc, rules, url)
      case None => found == 0
      case Some(r) =>
        (best in Below(nodes, paths, sc, url, 0, 0) && found == r.index != 0
         && Match(sc, r.toks, url, 0) == Some(Caps(nodes, paths, sc, url, 0, 0, best)))
  {
    hide LinearScan, Match, Inv, Before;
    SameLength(nodes, paths);
    LinearScanIsBest(sc, rules, url);
    HeadIsRoot(nodes, paths);
    forall j | 0 <= j < |nodes| ensures paths[0] <= paths[j] && paths[j][|paths[0]|..] == paths[j] {
    }
    if found == 0 {
      forall r | r in rules ensures Match(sc, r.toks, url, 0).None? {
        var j :| 0 <= j < |nodes| && nodes[j].ruleIndex != 0 && r == Rule(paths[j], nodes[j].ruleIndex);
        assert j !in Below(nodes, paths, sc, url, 0, 0);
      }
    } else {
      var b := Rule(paths[best], found);
      assert Holds(nodes, paths, b);
      assert IsBest(sc, rules, url, b) by {
        forall r | r in rules && Match(sc, r.toks, url, 0).Some?
          ensures b == r || b.index < r.index || (b.index == r.index && Before(b.toks, r.toks))
        {
          var j :| 0 <= j < |nodes| && nodes[j].ruleIndex != 0 && r == Rule(paths[j], nodes[j].ruleIndex);
          assert j in Below(nodes, paths, sc, url, 0, 0);
          assert Beats(nodes, paths, best, j);
        }
      }
      if LinearScan(sc, rules, url).Some? {
        BestIsUnique(sc, rules, url, b, LinearScan(sc, rules, url).value);
      }
    }
  }
}
