/** The routing trie as a class: filled by `Add`, compressed in place by `Optimize`, searched by
    `Find`. */
module Trie {
  import opened Wrappers
  import opened Routes
  import opened TrieShape
  import opened TrieSearch
  import opened TrieCompress
  import opened TrieGrow
  import opened Captures

  class Trie {
    var nodes: seq<Node>
    ghost var paths: seq<Tokens>
    ghost var rules: seq<Rule>

    ghost predicate Valid()
      reads this
    {
      Inv(nodes, paths)
    }

    /** The rules added so far are those at the nodes. */
    ghost predicate HoldsRules()
      reads this
    {
      Valid() && forall r :: r in rules <==> Holds(nodes, paths, r)
    }

    constructor ()
      ensures Raw(nodes, paths) && HoldsRules() && rules == []
    {
      nodes, paths, rules := [EMPTY_NODE], [[]], [];
    }

    /* ---- adding rules ---- */

    /** The child of `i` for a token, made if it is not there. */
    method ChildFor(i: nat, tok: Token) returns (next: nat)
      requires Raw(nodes, paths) && i < |nodes| && HoldsRules()
      modifies this`nodes, this`paths
      ensures Raw(nodes, paths) && HoldsRules() && next < |nodes| && paths[next] == old(paths[i]) + [tok]
    {
      hide Raw, Inv, Holds, WithEdge;
      RawIs(nodes, paths);
      EdgesOf(nodes, paths, i);
      if !HasEdge(nodes[i], tok) {
        next := |nodes|;
        GrowKeeps(nodes, paths, i, tok);
        forall r ensures Holds(Grown(nodes, i, tok), paths + [paths[i] + [tok]], r) <==> Holds(nodes, paths, r) {
          GrowHolds(nodes, paths, i, tok, r);
        }
        nodes, paths := nodes[i := WithEdge(nodes[i], tok, next)] + [EMPTY_NODE], paths + [paths[i] + [tok]];
        RawIs(nodes, paths);
      } else {
        next := EdgeTo(nodes[i], tok);
        EdgeSpells(nodes, paths, i, tok);
      }
    }

    /** The node at the end of a rule's text. */
    method Descend(url: string) returns (idx: nat)
      requires Raw(nodes, paths) && HoldsRules() && Tokenize(url, 0).Some?
      modifies this`nodes, this`paths
      ensures Raw(nodes, paths) && HoldsRules()
      ensures idx < |nodes| == |paths| && paths[idx] == Tokenize(url, 0).value
    {
      hide Raw, Inv, Holds, Tokenize;
      RawIs(nodes, paths);
      TokenizeEnd(url);
      var i: nat := 0;
      idx := 0;
      ghost var toks := Tokenize(url, 0).value;
      assert paths[idx] + toks == toks;
      while i < |url|
        invariant i <= |url| && Raw(nodes, paths) && HoldsRules()
        invariant idx < |nodes| == |paths|
        invariant Tokenize(url, i).Some? && paths[idx] + Tokenize(url, i).value == toks
        decreases |url| - i
      {
        TokenizeStep(paths[idx], url, i);
        var tok, next := Lit(url[i]), i + 1;
        if url[i] == '<' {
          var k := TagAt(url, i, 0);
          tok, next := Param(TAGS[k].1), i + |TAGS[k].0|;
        }
        idx := ChildFor(idx, tok);
        i := next;
        RawIs(nodes, paths);
      }
    }

    /** Adds a rule; fails if there is one with the same tokens. */
    method Add(url: string, ruleIndex: nat) returns (ok: bool)
      requires Raw(nodes, paths) && HoldsRules() && Tokenize(url, 0).Some? && ruleIndex != 0
      modifies this
      ensures Raw(nodes, paths) && HoldsRules()
      ensures ok <==> forall r | r in old(rules) :: r.toks != Tokenize(url, 0).value
      ensures rules == old(rules) + if ok then [Rule(Tokenize(url, 0).value, ruleIndex)] else []
    {
      hide Raw, Inv, Holds, Tokenize;
      var idx := Descend(url);
      RawIs(nodes, paths);
      if nodes[idx].ruleIndex != 0 {
        HoldsAt(nodes, paths, idx);
        return false;
      }
      forall r | r in rules ensures r.toks != paths[idx] {
        NoRuleThere(nodes, paths, idx, r);
      }
      SetRule(nodes, paths, idx, ruleIndex);
      forall r
        ensures Holds(nodes[idx := nodes[idx].(ruleIndex := ruleIndex)], paths, r) <==>
          r in rules + [Rule(paths[idx], ruleIndex)]
      {
        SetRuleHolds(nodes, paths, idx, ruleIndex, r);
      }
      nodes := nodes[idx := nodes[idx].(ruleIndex := ruleIndex)];
      rules := rules + [Rule(paths[idx], ruleIndex)];
      RawIs(nodes, paths);
      return true;
    }

    /* ---- searching ---- */

    /** What a search from node `i` at position `pos` has to answer. */
    ghost predicate Answers(sc: Scanners, url: string, i: nat, pos: nat, s: set<nat>, base: RoutingParams, found: nat,
        matched: RoutingParams, best: nat)
      requires Valid() && ScannersOK(sc) && i < |nodes| && pos <= |url|
      reads this
    {
      && s <= Below(nodes, paths, sc, url, i, pos)
      && BestIn(nodes, paths, s, found, best)
      && (found != 0 ==> matched == PushAll(base, Caps(nodes, paths, sc, url, i, pos, best)))
    }

    /** update_found: a smaller non-zero index replaces the one found so far. */
    method UpdateFound(found: nat, matched: RoutingParams, ghost best: nat, f: nat, m: RoutingParams, ghost b: nat,
        ghost s: set<nat>, ghost t: set<nat>)
      returns (found': nat, matched': RoutingParams, ghost best': nat)
      requires |nodes| == |paths| && (forall j | j in s :: j < |nodes|) && (forall j | j in t :: j < |nodes|)
      requires BestIn(nodes, paths, s, found, best) && BestIn(nodes, paths, t, f, b)
      requires forall j, k | j in s && k in t :: Before(paths[j], paths[k])
      ensures BestIn(nodes, paths, s + t, found', best')
      ensures (found' == found && matched' == matched && best' == best)
        || (found' == f != 0 && matched' == m && best' == b)
    {
      BestOfTwo(nodes, paths, s, found, best, t, f, b);
      if f != 0 && (found == 0 || found > f) {
        return f, m, b;
      } else {
        return found, matched, best;
      }
    }

    method FindParam(sc: Scanners, url: string, i: nat, pos: nat, t: nat, params: ParamStacks, found: nat,
        matched: RoutingParams, ghost best: nat)
      returns (found': nat, matched': RoutingParams, ghost best': nat)
      requires Valid() && ScannersOK(sc) && i < |nodes| && pos < |url| && t < 5
      requires Answers(sc, url, i, pos, Upto(nodes, paths, sc, url, i, pos, t), params.View(), found, matched, best)
      modifies params
      ensures params.View() == old(params.View())
      ensures Answers(sc, url, i, pos, Upto(nodes, paths, sc, url, i, pos, t + 1), params.View(), found',
        matched', best')
      decreases |nodes| - i, 0
    {
      hide Match, Scan, Inv, Push, Before, Upto, Below, Through, Cand, Caps;
      EdgesOf(nodes, paths, i);
      InRange(nodes, paths, sc, url, i, pos);
      found', matched', best' := found, matched, best;
      ghost var s := Upto(nodes, paths, sc, url, i, pos, t);
      ghost var u := Through(nodes, paths, sc, url, i, pos, [Param(TYPES[t])]);
      UptoStep(nodes, paths, sc, url, i, pos, t);
      var child := nodes[i].params[t];
      if child == 0 {
        NoParam(nodes, paths, sc, url, i, pos, t);
        assert s + u == s;
        return;
      }
      ThroughParam(nodes, paths, sc, url, i, pos, t);
      var r := Scan(sc, TYPES[t], url, pos);
      if r.Some? {
        ghost var base := params.View();
        params.PushOne(r.value.0);
        var f, m, b := Find(sc, url, child, r.value.1, params);
        InRange(nodes, paths, sc, url, child, r.value.1);
        if f != 0 {
          CapsThroughParam(nodes, paths, sc, url, i, pos, t, b);
          PushAllCons(base, r.value.0, Caps(nodes, paths, sc, url, child, r.value.1, b));
        }
        found', matched', best' := UpdateFound(found, matched, best, f, m, b, s, u);
        params.PopOne(r.value.0, base);
      } else {
        assert s + u == s;
      }
    }

    method FindLiteral(sc: Scanners, url: string, i: nat, pos: nat, w: string, ghost done: set<string>,
        params: ParamStacks, found: nat, matched: RoutingParams, ghost best: nat)
      returns (found': nat, matched': RoutingParams, ghost best': nat)
      requires Valid() && ScannersOK(sc) && i < |nodes| && pos < |url| && w in nodes[i].children
      requires done <= nodes[i].children.Keys && w !in done
      requires Answers(sc, url, i, pos, UptoAlong(nodes, paths, sc, url, i, pos, done), params.View(), found,
        matched, best)
      modifies params
      ensures params.View() == old(params.View())
      ensures Answers(sc, url, i, pos, UptoAlong(nodes, paths, sc, url, i, pos, done + {w}), params.View(), found',
        matched', best')
      decreases |nodes| - i, 0
    {
      hide Match, Scan, Inv, Push, Before, Upto, Below, Through, Cand, Caps, Along;
      found', matched', best' := found, matched, best;
      EdgesOf(nodes, paths, i);
      InRange(nodes, paths, sc, url, i, pos);
      ghost var s := UptoAlong(nodes, paths, sc, url, i, pos, done);
      ghost var u := Through(nodes, paths, sc, url, i, pos, Lits(w));
      AlongStep(nodes, paths, sc, url, i, pos, done, w);
      ThroughLits(nodes, paths, sc, url, i, pos, w);
      assert s + u == UptoAlong(nodes, paths, sc, url, i, pos, done + {w});
      if Follows(url, pos, w) {
        OnlyOneFollows(nodes, paths, sc, url, i, pos, done, w);
        assert s == Upto(nodes, paths, sc, url, i, pos, 5);
        var child := nodes[i].children[w];
        var f, m, b := Find(sc, url, child, pos + |w|, params);
        InRange(nodes, paths, sc, url, child, pos + |w|);
        if f != 0 {
          CapsThroughLits(nodes, paths, sc, url, i, pos, w, b);
        }
        found', matched', best' := UpdateFound(found, matched, best, f, m, b, s, u);
      } else {
        assert s + u == s;
      }
    }

    lemma AnswersAtTheEnd(sc: Scanners, url: string, i: nat, base: RoutingParams)
      requires Valid() && ScannersOK(sc) && i < |nodes|
      ensures Answers(sc, url, i, |url|, Below(nodes, paths, sc, url, i, |url|), base, nodes[i].ruleIndex, base, i)
    {
    }

    lemma AnswersAtTheStart(sc: Scanners, url: string, i: nat, pos: nat, base: RoutingParams)
      requires Valid() && ScannersOK(sc) && i < |nodes| && pos <= |url|
      ensures Answers(sc, url, i, pos, Upto(nodes, paths, sc, url, i, pos, 0), base, 0, NO_PARAMS, 0)
    {
    }

    method FindParams(sc: Scanners, url: string, i: nat, pos: nat, params: ParamStacks)
      returns (found: nat, matched: RoutingParams, ghost best: nat)
      requires Valid() && ScannersOK(sc) && i < |nodes| && pos < |url|
      modifies params
      ensures params.View() == old(params.View())
      ensures Answers(sc, url, i, pos, Upto(nodes, paths, sc, url, i, pos, 5), params.View(), found, matched, best)
      decreases |nodes| - i, 1
    {
      hide ScannersOK, PushAll, Match, Scan, Inv, Push, Before, Upto, Below, Through, Cand, Caps, Edges, Answers;
      found, matched, best := 0, NO_PARAMS, 0;
      AnswersAtTheStart(sc, url, i, pos, params.View());
      found, matched, best := FindParam(sc, url, i, pos, 0, params, found, matched, best);
      found, matched, best := FindParam(sc, url, i, pos, 1, params, found, matched, best);
      found, matched, best := FindParam(sc, url, i, pos, 2, params, found, matched, best);
      found, matched, best := FindParam(sc, url, i, pos, 3, params, found, matched, best);
      found, matched, best := FindParam(sc, url, i, pos, 4, params, found, matched, best);
    }

    method FindLiterals(sc: Scanners, url: string, i: nat, pos: nat, params: ParamStacks, found0: nat,
        matched0: RoutingParams, ghost best0: nat)
      returns (found: nat, matched: RoutingParams, ghost best: nat)
      requires Valid() && ScannersOK(sc) && i < |nodes| && pos < |url|
      requires Answers(sc, url, i, pos, UptoAlong(nodes, paths, sc, url, i, pos, {}), params.View(), found0,
        matched0, best0)
      modifies params
      ensures params.View() == old(params.View())
      ensures Answers(sc, url, i, pos, UptoAlong(nodes, paths, sc, url, i, pos, nodes[i].children.Keys), params.View(),
        found, matched, best)
      decreases |nodes| - i, 1
    {
      hide ScannersOK, PushAll, Match, Scan, Inv, Push, Before, Upto, Below, Through, Cand, Caps, Along, UptoAlong,
          Edges, Answers;
      found, matched, best := found0, matched0, best0;
      SameLength(nodes, paths);
      var keys := nodes[i].children.Keys;
      ghost var done: set<string> := {};
      while keys != {}
        invariant done + keys == nodes[i].children.Keys && done !! keys
        invariant params.View() == old(params.View())
        invariant Answers(sc, url, i, pos, UptoAlong(nodes, paths, sc, url, i, pos, done), params.View(), found,
          matched, best)
        decreases |keys|
      {
        var w :| w in keys;
        keys := keys - {w};
        found, matched, best := FindLiteral(sc, url, i, pos, w, done, params, found, matched, best);
        done := done + {w};
      }
      assert done == nodes[i].children.Keys;
    }

    method Find(sc: Scanners, url: string, i: nat, pos: nat, params: ParamStacks)
      returns (found: nat, matched: RoutingParams, ghost best: nat)
      requires Valid() && ScannersOK(sc) && i < |nodes| && pos <= |url|
      modifies params
      ensures params.View() == old(params.View())
      ensures Answers(sc, url, i, pos, Below(nodes, paths, sc, url, i, pos), params.View(), found, matched, best)
      decreases |nodes| - i, 2
    {
      hide ScannersOK, PushAll, Match, Scan, Inv, Push, Before, Upto, Below, Through, Cand, Caps, Along, UptoAlong,
          Edges, Answers;
      EdgesOf(nodes, paths, i);
      if pos == |url| {
        found, matched, best := nodes[i].ruleIndex, params.View(), i;
        AnswersAtTheEnd(sc, url, i, params.View());
        return;
      }
      found, matched, best := FindParams(sc, url, i, pos, params);
      AlongNone(nodes, paths, sc, url, i, pos);
      found, matched, best := FindLiterals(sc, url, i, pos, params, found, matched, best);
      AllBelow(nodes, paths, sc, url, i, pos);
    }

    /* ---- compressing ---- */

    method MergedChildren(i: nat) returns (merged: map<string, nat>)
      requires Valid() && i < |nodes| && Edges(nodes, paths, i)
      ensures Merges(nodes, i, merged)
    {
      hide Inv, MergesSome, Merges;
      merged := map[];
      var keys := nodes[i].children.Keys;
      ghost var pairs: set<(string, string)> := {};
      MergesNone(nodes, i);
      while keys != {}
        invariant keys <= nodes[i].children.Keys && MergesSome(nodes, i, pairs, merged)
        invariant forall v, w | v in nodes[i].children && v !in keys
          && w in nodes[nodes[i].children[v]].children :: (v, w) in pairs
        decreases |keys|
      {
        var v :| v in keys;
        keys := keys - {v};
        var child := nodes[nodes[i].children[v]];
        var childKeys := child.children.Keys;
        while childKeys != {}
          invariant childKeys <= child.children.Keys && MergesSome(nodes, i, pairs, merged)
          invariant forall v', w | v' in nodes[i].children && v' !in keys && w in nodes[nodes[i].children[v']].children
              && (v' == v ==> w !in childKeys) :: (v', w) in pairs
          decreases |childKeys|
        {
          var w :| w in childKeys;
          childKeys := childKeys - {w};
          MergeOne(nodes, paths, i, pairs, merged, v, w, child.children[w]);
          merged := merged[v + w := child.children[w]];
          pairs := pairs + {(v, w)};
        }
      }
      MergesAll(nodes, i, pairs, merged);
    }

    /** Compresses the part below node `i`; the indices of its literal children are at least `low`. */
    method OptimizeNode(i: nat, ghost low: nat)
      requires Valid() && i < |nodes| && low <= |nodes|
      requires forall w | w in nodes[i].children :: low <= nodes[i].children[w]
      modifies this`nodes
      ensures Valid() && Frame(old(nodes), nodes, paths, i)
      ensures Compressed(nodes, paths, i)
      ensures old(Compressed(nodes, paths, i)) ==> nodes == old(nodes)
      decreases |nodes| - i, 2, |nodes| - low
    {
      hide Inv, Compressed, Frame, Merges, Going;
      ghost var done := OptimizeParams(i);
      GoingFacts(old(nodes), nodes, paths, i, done);
      if nodes[i].children == map[] {
        GoingEnd(old(nodes), nodes, paths, i, done);
        return;
      }
      var mergeWithChild := ChildrenAreSimple(i);
      if mergeWithChild {
        NotCompressed(old(nodes), nodes, paths, i, done);
        var merged := MergedChildren(i);
        MergeStep(old(nodes), nodes, paths, i, done, merged, low);
        nodes := nodes[i := nodes[i].(children := merged)];
        ghost var between := nodes;
        OptimizeNode(i, low + 1);
        FrameTransitive(old(nodes), between, nodes, paths, i);
      } else {
        done := OptimizeLiterals(old(nodes), i, done);
        GoingEnd(old(nodes), nodes, paths, i, done);
      }
    }

    method ChildrenAreSimple(i: nat) returns (simple: bool)
      requires Valid() && i < |nodes| && nodes[i].children != map[]
      ensures simple == !NeedsNoMerge(nodes, i)
    {
      simple := true;
      KidsBelow(nodes, paths, i);
      var keys := nodes[i].children.Keys;
      while keys != {} && simple
        invariant keys <= nodes[i].children.Keys
        invariant simple ==> forall w | w in nodes[i].children && w !in keys :: nodes[nodes[i].children[w]].IsSimple()
        invariant !simple ==> NeedsNoMerge(nodes, i)
        decreases |keys|
      {
        var w :| w in keys;
        keys := keys - {w};
        simple := nodes[nodes[i].children[w]].IsSimple();
      }
    }

    method OptimizeParams(i: nat) returns (ghost done: set<nat>)
      requires Valid() && i < |nodes|
      modifies this`nodes
      ensures Valid() && |nodes| == old(|nodes|) && nodes[i] == old(nodes[i])
      ensures Going(old(nodes), nodes, paths, i, done) && |nodes[i].params| == 5
      ensures forall u | 0 <= u < 5 && nodes[i].params[u] != 0 :: nodes[i].params[u] in done
      decreases |nodes| - i, 1
    {
      hide Inv, Compressed, Frame, Going;
      done := {};
      GoingStart(nodes, paths, i);
      EdgesOf(nodes, paths, i);
      for t := 0 to 5
        invariant Valid() && i < |nodes| == |old(nodes)| && nodes[i] == old(nodes[i])
        invariant Going(old(nodes), nodes, paths, i, done) && |nodes[i].params| == 5
        invariant forall u | 0 <= u < t && nodes[i].params[u] != 0 :: nodes[i].params[u] in done
      {
        var child := nodes[i].params[t];
        if child != 0 {
          done := OptimizeChild(old(nodes), i, done, child);
        }
      }
    }

    method OptimizeLiterals(ghost nodes0: seq<Node>, i: nat, ghost done0: set<nat>) returns (ghost done: set<nat>)
      requires Valid() && i < |nodes| && Going(nodes0, nodes, paths, i, done0) && NeedsNoMerge(nodes, i)
      modifies this`nodes
      ensures Valid() && |nodes| == old(|nodes|) && nodes[i] == old(nodes[i])
      ensures done0 <= done && Going(nodes0, nodes, paths, i, done) && NeedsNoMerge(nodes, i)
      ensures forall w | w in nodes[i].children :: nodes[i].children[w] in done
      decreases |nodes| - i, 1
    {
      hide Inv, Compressed, Frame, NeedsNoMerge, Going;
      done := done0;
      GoingFacts(nodes0, nodes, paths, i, done);
      var keys := nodes[i].children.Keys;
      while keys != {}
        invariant Valid() && i < |nodes| == |old(nodes)| && nodes[i] == old(nodes[i])
        invariant keys <= nodes[i].children.Keys && done0 <= done
        invariant Going(nodes0, nodes, paths, i, done) && NeedsNoMerge(nodes, i)
        invariant forall w | w in nodes[i].children && w !in keys :: nodes[i].children[w] in done
        decreases |keys|
      {
        var w :| w in keys;
        keys := keys - {w};
        done := OptimizeChild(nodes0, i, done, nodes[i].children[w]);
      }
    }

    /** The recursive call for one of the children of `i`. */
    method OptimizeChild(ghost nodes0: seq<Node>, i: nat, ghost done: set<nat>, child: nat)
        returns (ghost done': set<nat>)
      requires Valid() && i < |nodes| && Going(nodes0, nodes, paths, i, done) && child in Kids(nodes, i)
      modifies this`nodes
      ensures Valid() && |nodes| == old(|nodes|) && nodes[i] == old(nodes[i])
      ensures done' == done + {child} && Going(nodes0, nodes, paths, i, done')
      ensures old(NeedsNoMerge(nodes, i)) ==> NeedsNoMerge(nodes, i)
      decreases |nodes| - i, 0
    {
      ghost var before := nodes;
      KidsBelow(nodes, paths, i);
      EdgesOf(nodes, paths, child);
      OptimizeNode(child, child + 1);
      GoingStep(nodes0, before, nodes, paths, i, done, child);
      FrameKeepsSimple(before, nodes, paths, i, child);
      done' := done + {child};
    }

    /** Compresses the trie, unless the head is not simple. */
    method Validate() returns (ok: bool)
      requires HoldsRules()
      modifies this`nodes
      ensures HoldsRules() && ok == old(nodes)[0].IsSimple()
      ensures if ok then Compressed(nodes, paths, 0) else nodes == old(nodes)
      ensures old(Compressed(nodes, paths, 0)) ==> nodes == old(nodes)
    {
      hide Holds;
      if !nodes[0].IsSimple() {
        return false;
      }
      EdgesOf(nodes, paths, 0);
      OptimizeNode(0, 0);
      forall r ensures Holds(nodes, paths, r) <==> old(Holds(nodes, paths, r)) {
        FrameHolds(old(nodes), nodes, paths, 0, r);
      }
      return true;
    }

    /** The rule for a URL, and its captures: those of a scan over all the rules added. */
    method Route(sc: Scanners, url: string) returns (found: nat, matched: RoutingParams)
      requires HoldsRules() && ScannersOK(sc)
      ensures match LinearScan(sc, rules, url)
        case None => found == 0
        case Some(r) => (found == r.index != 0 && Match(sc, r.toks, url, 0).Some?
                         && matched == PushAll(NO_PARAMS, Match(sc, r.toks, url, 0).value))
    {
      hide Match, Inv, LinearScan, Cand, Below, BestIn, PushAll;
      var params := new ParamStacks();
      SameLength(nodes, paths);
      HeadIsRoot(nodes, paths);
      ghost var best;
      found, matched, best := Find(sc, url, 0, 0, params);
      BestIsScanned(nodes, paths, rules, sc, url, found, best);
    }
  }

  /** Compression does not change where a URL is routed, nor what it captures. */
  method CompressionKeepsRouting(t: Trie, sc: Scanners, url: string)
    returns (before: (nat, RoutingParams), after: (nat, RoutingParams))
    requires t.HoldsRules() && ScannersOK(sc)
    modifies t`nodes
    ensures t.HoldsRules() && before.0 == after.0 && (before.0 != 0 ==> before.1 == after.1)
  {
    var i, m := t.Route(sc, url);
    var ok := t.Validate();
    var j, n := t.Route(sc, url);
    before, after := (i, m), (j, n);
  }

  /** A second compression changes nothing at all. */
  method CompressTwice(t: Trie) returns (once: seq<Node>, twice: seq<Node>)
    requires t.HoldsRules()
    modifies t`nodes
    ensures t.HoldsRules() && once == twice == t.nodes
  {
    var ok := t.Validate();
    once := t.nodes;
    ok := t.Validate();
    twice := t.nodes;
  }
}
