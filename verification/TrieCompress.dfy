/** Compression: a node whose literal children are all simple takes over their children under
    joined labels. */
module TrieCompress {
  import opened Routes
  import opened TrieShape

  predicate AllSimple(nodes: seq<Node>, i: nat)
    requires i < |nodes| && forall w | w in nodes[i].children :: nodes[i].children[w] < |nodes|
  {
    forall w | w in nodes[i].children :: nodes[nodes[i].children[w]].IsSimple()
  }

  /** An edge `u` of two steps, along `v` and then `w`, to node `c`. */
  ghost predicate TwoSteps(nodes: seq<Node>, i: nat, v: string, w: string, u: string, c: nat)
    requires i < |nodes| && forall k | k in nodes[i].children :: nodes[i].children[k] < |nodes|
  {
    v in nodes[i].children && w in nodes[nodes[i].children[v]].children
    && u == v + w && c == nodes[nodes[i].children[v]].children[w]
  }

  /** `m` has the two-step edges of node `i` whose steps are in `pairs`. */
  ghost predicate MergesSome(nodes: seq<Node>, i: nat, pairs: set<(string, string)>, m: map<string, nat>)
    requires i < |nodes| && forall k | k in nodes[i].children :: nodes[i].children[k] < |nodes|
  {
    && (forall u | u in m :: exists v, w :: (v, w) in pairs && TwoSteps(nodes, i, v, w, u, m[u]))
    && (forall v, w, u, c | (v, w) in pairs && TwoSteps(nodes, i, v, w, u, c) :: u in m && m[u] == c)
  }

  /** `m` has exactly the two-step edges of node `i`. */
  ghost predicate Merges(nodes: seq<Node>, i: nat, m: map<string, nat>)
    requires i < |nodes| && forall k | k in nodes[i].children :: nodes[i].children[k] < |nodes|
  {
    && (forall u | u in m :: exists v, w :: TwoSteps(nodes, i, v, w, u, m[u]))
    && (forall v, w, u, c | TwoSteps(nodes, i, v, w, u, c) :: u in m && m[u] == c)
  }

  lemma PrefixesOfOne(v: string, w: string, u: string)
    requires v <= u && w <= u
    ensures v <= w || w <= v
  {
  }

  /** Two labels that begin alike are the same label, also when each is made of two steps. */
  lemma JoinedPrefix(nodes: seq<Node>, paths: seq<Tokens>, i: nat, v: string, w: string, u: string, c: nat, v': string,
      w': string, u': string, c': nat)
    requires Inv(nodes, paths) && i < |nodes| && Edges(nodes, paths, i)
    requires TwoSteps(nodes, i, v, w, u, c) && TwoSteps(nodes, i, v', w', u', c') && u <= u'
    ensures v == v' && w == w' && u == u' && c == c'
  {
    assert Edges(nodes, paths, nodes[i].children[v]);
    PrefixesOfOne(v, v', u');
    assert w == u[|v|..] && w' == u'[|v|..];
    assert w <= w';
  }

  lemma LitsJoin(v: string, w: string)
    ensures Lits(v + w) == Lits(v) + Lits(w)
  {
  }

  /** Every two-step edge is a proper edge: it leads onwards, and its label spells the path. */
  lemma TwoStepsEdge(nodes: seq<Node>, paths: seq<Tokens>, i: nat, v: string, w: string, u: string, c: nat)
    requires Inv(nodes, paths) && i < |nodes| && Edges(nodes, paths, i) && TwoSteps(nodes, i, v, w, u, c)
    ensures u != "" && i < nodes[i].children[v] < c < |nodes| && paths[c] == paths[i] + Lits(u)
  {
    assert Edges(nodes, paths, nodes[i].children[v]);
    LitsJoin(v, w);
    assert paths[i] + Lits(v) + Lits(w) == paths[i] + (Lits(v) + Lits(w));
  }

  /** One more joined label: it can only be there already for the very same edge. */
  lemma MergeOne(nodes: seq<Node>, paths: seq<Tokens>, i: nat, pairs: set<(string, string)>, m: map<string, nat>,
      v: string, w: string, c: nat)
    requires Inv(nodes, paths) && i < |nodes| && Edges(nodes, paths, i)
    requires MergesSome(nodes, i, pairs, m) && TwoSteps(nodes, i, v, w, v + w, c)
    ensures MergesSome(nodes, i, pairs + {(v, w)}, m[v + w := c])
  {
    var m', pairs' := m[v + w := c], pairs + {(v, w)};
    forall u | u in m' ensures exists v', w' :: (v', w') in pairs' && TwoSteps(nodes, i, v', w', u, m'[u]) {
      if u == v + w {
        assert (v, w) in pairs' && TwoSteps(nodes, i, v, w, u, m'[u]);
      } else {
        var v', w' :| (v', w') in pairs && TwoSteps(nodes, i, v', w', u, m[u]);
        assert (v', w') in pairs';
      }
    }
    forall v', w', u, d | (v', w') in pairs' && TwoSteps(nodes, i, v', w', u, d) ensures u in m' && m'[u] == d {
      if u == v + w { JoinedPrefix(nodes, paths, i, v, w, v + w, c, v', w', u, d); }
    }
  }

  lemma MergesNone(nodes: seq<Node>, i: nat)
    requires i < |nodes| && forall k | k in nodes[i].children :: nodes[i].children[k] < |nodes|
    ensures MergesSome(nodes, i, {}, map[])
  {
  }

  lemma MergesAll(nodes: seq<Node>, i: nat, pairs: set<(string, string)>, m: map<string, nat>)
    requires i < |nodes| && forall k | k in nodes[i].children :: nodes[i].children[k] < |nodes|
    requires MergesSome(nodes, i, pairs, m)
    requires forall v, w | v in nodes[i].children && w in nodes[nodes[i].children[v]].children :: (v, w) in pairs
    ensures Merges(nodes, i, m)
  {
  }

  /** The joined labels are distinct, none begins another, and each spells the path it leads to. */
  lemma MergedEdges(nodes: seq<Node>, paths: seq<Tokens>, i: nat, m: map<string, nat>)
    requires Inv(nodes, paths) && i < |nodes| && Edges(nodes, paths, i) && Merges(nodes, i, m)
    ensures Edges(nodes[i := nodes[i].(children := m)], paths, i)
  {
    hide Inv;
    SameLength(nodes, paths);
    var nodes' := nodes[i := nodes[i].(children := m)];
    forall u | u in m ensures u != "" && i < m[u] < |nodes| && paths[m[u]] == paths[i] + Lits(u) {
      var v, w :| TwoSteps(nodes, i, v, w, u, m[u]);
      TwoStepsEdge(nodes, paths, i, v, w, u, m[u]);
    }
    forall u, u' | u in m && u' in m && u <= u' ensures u == u' {
      var v, w :| TwoSteps(nodes, i, v, w, u, m[u]);
      var v', w' :| TwoSteps(nodes, i, v', w', u', m[u']);
      JoinedPrefix(nodes, paths, i, v, w, u, m[u], v', w', u', m[u']);
    }
  }

  lemma SameNode(nodes: seq<Node>, nodes': seq<Node>, paths: seq<Tokens>, k: nat)
    requires k < |nodes| == |nodes'| == |paths| && nodes[k] == nodes'[k] && Edges(nodes, paths, k)
    ensures Edges(nodes', paths, k)
  {
  }

  /** The edge of a node that leads towards a path leads there as long as the node stays. */
  lemma SameWay(nodes: seq<Node>, nodes': seq<Node>, paths: seq<Tokens>, k: nat, j: nat)
    requires k < |nodes| == |nodes'| == |paths| && j < |nodes| && nodes[k] == nodes'[k]
    requires Edges(nodes, paths, k) && Edges(nodes', paths, k) && Towards(nodes, paths, k, j)
    ensures Towards(nodes', paths, k, j)
  {
    if t :| 0 <= t < 5 && nodes[k].params[t] != 0 && paths[nodes[k].params[t]] <= paths[j] {
      assert nodes'[k].params[t] != 0 && paths[nodes'[k].params[t]] <= paths[j];
    } else {
      var w :| w in nodes[k].children && paths[nodes[k].children[w]] <= paths[j];
      assert w in nodes'[k].children && paths[nodes'[k].children[w]] <= paths[j];
    }
  }

  /** Merging keeps the trie in order. */
  lemma MergeKeeps(nodes: seq<Node>, paths: seq<Tokens>, i: nat, m: map<string, nat>)
    requires Inv(nodes, paths) && i < |nodes| && Edges(nodes, paths, i)
    requires AllSimple(nodes, i) && Merges(nodes, i, m)
    ensures Inv(nodes[i := nodes[i].(children := m)], paths)
  {
    hide Merges, AllSimple, Edges, Towards;
    var nodes' := nodes[i := nodes[i].(children := m)];
    MergedEdges(nodes, paths, i, m);
    forall k | 0 <= k < |nodes| ensures Edges(nodes', paths, k) {
      if k != i { SameNode(nodes, nodes', paths, k); }
    }
    forall k, j | 0 <= k < |nodes| && 0 <= j < |nodes| && nodes'[j].ruleIndex != 0 && paths[k] < paths[j]
      ensures Towards(nodes', paths, k, j)
    {
      if k == i { MergedTowards(nodes, paths, i, m, j); } else { SameWay(nodes, nodes', paths, k, j); }
    }
  }

  /** From a simple node, a rule further down is reached along a literal edge. */
  lemma ThroughSimple(nodes: seq<Node>, paths: seq<Tokens>, c: nat, j: nat) returns (w: string)
    requires Inv(nodes, paths) && c < |nodes| && j < |nodes|
    requires nodes[c].IsSimple() && nodes[j].ruleIndex != 0 && paths[c] <= paths[j]
    ensures Edges(nodes, paths, c) && w in nodes[c].children && paths[nodes[c].children[w]] <= paths[j]
  {
    assert paths[c] != paths[j];
    assert Edges(nodes, paths, c);
    assert Towards(nodes, paths, c, j);
    w :| w in nodes[c].children && paths[nodes[c].children[w]] <= paths[j];
  }

  lemma MergedTowards(nodes: seq<Node>, paths: seq<Tokens>, i: nat, m: map<string, nat>, j: nat)
    requires Inv(nodes, paths) && i < |nodes| && Edges(nodes, paths, i)
    requires AllSimple(nodes, i) && Merges(nodes, i, m)
    requires j < |nodes| && nodes[j].ruleIndex != 0 && paths[i] < paths[j]
    requires Edges(nodes[i := nodes[i].(children := m)], paths, i)
    ensures Towards(nodes[i := nodes[i].(children := m)], paths, i, j)
  {
    var nodes' := nodes[i := nodes[i].(children := m)];
    assert Towards(nodes, paths, i, j);
    if t :| 0 <= t < 5 && nodes[i].params[t] != 0 && paths[nodes[i].params[t]] <= paths[j] {
      assert nodes'[i].params[t] != 0 && paths[nodes'[i].params[t]] <= paths[j];
    } else {
      var v :| v in nodes[i].children && paths[nodes[i].children[v]] <= paths[j];
      var c := nodes[i].children[v];
      assert nodes[c].IsSimple();
      var w := ThroughSimple(nodes, paths, c, j);
      assert TwoSteps(nodes, i, v, w, v + w, nodes[c].children[w]);
      assert v + w in nodes'[i].children;
    }
  }

  /* ---- compressed tries ---- */

  /** The nodes that the edges of `i` lead to. */
  ghost function Kids(nodes: seq<Node>, i: nat): set<nat>
    requires i < |nodes| && |nodes[i].params| == 5
  {
    (set t | 0 <= t < 5 && nodes[i].params[t] != 0 :: nodes[i].params[t]) + nodes[i].children.Values
  }

  lemma KidsBelow(nodes: seq<Node>, paths: seq<Tokens>, i: nat)
    requires Inv(nodes, paths) && i < |nodes|
    ensures |nodes[i].params| == 5 && forall c | c in Kids(nodes, i) :: i < c < |nodes| && paths[i] < paths[c]
    ensures forall w | w in nodes[i].children :: nodes[i].children[w] < |nodes|
  {
    assert Edges(nodes, paths, i);
  }

  ghost predicate NeedsNoMerge(nodes: seq<Node>, i: nat)
    requires i < |nodes|
  {
    nodes[i].children == map[]
    || exists w :: w in nodes[i].children && nodes[i].children[w] < |nodes| && !nodes[nodes[i].children[w]].IsSimple()
  }

  /** Nothing is left to merge at node `i` or below it. */
  ghost predicate Compressed(nodes: seq<Node>, paths: seq<Tokens>, i: nat)
    requires Inv(nodes, paths) && i < |nodes|
    decreases |nodes| - i
  {
    KidsBelow(nodes, paths, i);
    && NeedsNoMerge(nodes, i)
    && forall c | c in Kids(nodes, i) :: Compressed(nodes, paths, c)
  }

  /** What compressing the part below node `i` may change: labels of edges below `i`, no more. */
  ghost predicate Frame(nodes: seq<Node>, nodes': seq<Node>, paths: seq<Tokens>, i: nat) {
    && |nodes| == |nodes'| == |paths| && i < |paths|
    && (forall j | 0 <= j < |nodes| :: nodes[j].ruleIndex == nodes'[j].ruleIndex && nodes[j].params == nodes'[j].params)
    && (forall j | 0 <= j < |nodes| && !(paths[i] <= paths[j]) :: nodes[j] == nodes'[j])
  }

  /** Whether the part below `i` is compressed depends on that part only. */
  lemma {:induction false} CompressedThere(nodes: seq<Node>, nodes': seq<Node>, paths: seq<Tokens>, i: nat)
    requires Inv(nodes, paths) && Inv(nodes', paths) && i < |nodes|
    requires forall j | 0 <= j < |nodes| && paths[i] <= paths[j] :: nodes[j] == nodes'[j]
    requires Compressed(nodes, paths, i)
    ensures Compressed(nodes', paths, i)
    decreases |nodes| - i
  {
    KidsBelow(nodes, paths, i);
    KidsBelow(nodes', paths, i);
    assert Kids(nodes, i) == Kids(nodes', i);
    forall w | w in nodes[i].children ensures nodes[i].children[w] in Kids(nodes, i) {
    }
    assert AllSimple(nodes, i) <==> AllSimple(nodes', i);
    forall c | c in Kids(nodes, i) ensures Compressed(nodes', paths, c) {
      CompressedThere(nodes, nodes', paths, c);
    }
  }

  lemma LitsApart(p: Tokens, v: string, w: string)
    requires !(v <= w)
    ensures !(p + Lits(v) <= p + Lits(w))
  {
    if |v| <= |w| {
      var k :| 0 <= k < |v| && v[k] != w[k];
      assert (p + Lits(v))[|p| + k] != (p + Lits(w))[|p| + k];
    }
  }

  /** The token with which an edge of `i` begins. */
  lemma KidToken(nodes: seq<Node>, paths: seq<Tokens>, i: nat, a: nat)
    requires |nodes| == |paths| && i < |nodes| && Edges(nodes, paths, i) && a in Kids(nodes, i)
    ensures a < |nodes| && |paths[i]| < |paths[a]| && paths[i] <= paths[a]
    ensures match paths[a][|paths[i]|]
      case Param(t) => a == nodes[i].params[Rank(Param(t))] && paths[a] == paths[i] + [Param(t)]
      case Lit(_) => exists w :: w in nodes[i].children && a == nodes[i].children[w]
  {
  }

  /** Different edges of a node lead to separate parts of the trie. */
  lemma KidsApart(nodes: seq<Node>, paths: seq<Tokens>, i: nat, a: nat, b: nat)
    requires Inv(nodes, paths) && i < |nodes| && Edges(nodes, paths, i)
    requires a in Kids(nodes, i) && b in Kids(nodes, i) && a != b
    ensures a < |nodes| && b < |nodes| && !(paths[a] <= paths[b])
  {
    hide Inv, Kids;
    SameLength(nodes, paths);
    KidToken(nodes, paths, i, a);
    KidToken(nodes, paths, i, b);
    var n := |paths[i]|;
    if paths[a][n] == paths[b][n] && paths[a][n].Lit? {
      var v :| v in nodes[i].children && a == nodes[i].children[v];
      var w :| w in nodes[i].children && b == nodes[i].children[w];
      LitsApart(paths[i], v, w);
    }
  }

  /** Part of the way through the edges of node `i`: those in `done` are compressed. */
  ghost predicate Going(nodes0: seq<Node>, nodes: seq<Node>, paths: seq<Tokens>, i: nat, done: set<nat>) {
    && Inv(nodes0, paths) && Inv(nodes, paths) && i < |paths| && Frame(nodes0, nodes, paths, i)
    && nodes[i] == nodes0[i] && |nodes[i].params| == 5
    && (forall c | c in done :: c in Kids(nodes, i) && c < |nodes| && Compressed(nodes, paths, c))
    && (Compressed(nodes0, paths, i) ==> nodes == nodes0)
  }

  lemma GoingStart(nodes: seq<Node>, paths: seq<Tokens>, i: nat)
    requires Inv(nodes, paths) && i < |nodes|
    ensures Going(nodes, nodes, paths, i, {})
  {
    assert Edges(nodes, paths, i);
  }

  lemma GoingFacts(nodes0: seq<Node>, nodes: seq<Node>, paths: seq<Tokens>, i: nat, done: set<nat>)
    requires Going(nodes0, nodes, paths, i, done)
    ensures Inv(nodes, paths) && |nodes0| == |nodes| == |paths| && nodes[i] == nodes0[i] && Edges(nodes, paths, i)
  {
  }

  /** Compressing the part below one child does not touch the part below another. */
  lemma SiblingStays(nodes: seq<Node>, nodes': seq<Node>, paths: seq<Tokens>, i: nat, c: nat, d: nat)
    requires Inv(nodes, paths) && Inv(nodes', paths) && i < |nodes| && Edges(nodes, paths, i)
    requires c in Kids(nodes, i) && d in Kids(nodes, i) && c != d && c < |nodes| && d < |nodes|
    requires Frame(nodes, nodes', paths, c) && Compressed(nodes, paths, d)
    ensures Compressed(nodes', paths, d)
  {
    hide Inv, Edges, Kids, Compressed;
    KidsApart(nodes, paths, i, d, c);
    KidsApart(nodes, paths, i, c, d);
    forall j | 0 <= j < |nodes| && paths[d] <= paths[j] ensures nodes[j] == nodes'[j] {
      PrefixesCompare(paths[c], paths[d], paths[j]);
    }
    CompressedThere(nodes, nodes', paths, d);
  }

  lemma GoingStep(nodes0: seq<Node>, nodes: seq<Node>, nodes': seq<Node>, paths: seq<Tokens>, i: nat, done: set<nat>,
      c: nat)
    requires Going(nodes0, nodes, paths, i, done) && c in Kids(nodes, i) && c < |nodes|
    requires Inv(nodes', paths) && Frame(nodes, nodes', paths, c) && Compressed(nodes', paths, c)
    requires Compressed(nodes, paths, c) ==> nodes' == nodes
    ensures Going(nodes0, nodes', paths, i, done + {c})
  {
    hide Inv, Edges, Kids, Compressed;
    GoingFacts(nodes0, nodes, paths, i, done);
    KidsBelow(nodes, paths, i);
    forall d | d in done && d != c ensures Compressed(nodes', paths, d) {
      SiblingStays(nodes, nodes', paths, i, c, d);
    }
    FrameWidens(nodes0, nodes, nodes', paths, i, c);
    assert Kids(nodes', i) == Kids(nodes, i) by { KidsOfSame(nodes, nodes', i); }
    if Compressed(nodes0, paths, i) {
      CompressedKid(nodes, paths, i, c);
    }
  }

  lemma KidsOfSame(nodes: seq<Node>, nodes': seq<Node>, i: nat)
    requires i < |nodes| && i < |nodes'| && nodes[i] == nodes'[i] && |nodes[i].params| == 5
    ensures Kids(nodes, i) == Kids(nodes', i)
  {
  }

  lemma CompressedKid(nodes: seq<Node>, paths: seq<Tokens>, i: nat, c: nat)
    requires Inv(nodes, paths) && i < |nodes| && Compressed(nodes, paths, i)
    requires |nodes[i].params| == 5 && c in Kids(nodes, i) && c < |nodes|
    ensures Compressed(nodes, paths, c)
  {
  }

  lemma FrameWidens(nodes0: seq<Node>, nodes: seq<Node>, nodes': seq<Node>, paths: seq<Tokens>, i: nat, c: nat)
    requires Frame(nodes0, nodes, paths, i) && Frame(nodes, nodes', paths, c) && paths[i] < paths[c]
    ensures Frame(nodes0, nodes', paths, i) && nodes[i] == nodes'[i]
  {
  }

  lemma PrefixesCompare(a: Tokens, b: Tokens, c: Tokens)
    requires !(a <= b) && !(b <= a) && b <= c
    ensures !(a <= c)
  {
  }

  lemma GoingEnd(nodes0: seq<Node>, nodes: seq<Node>, paths: seq<Tokens>, i: nat, done: set<nat>)
    requires Going(nodes0, nodes, paths, i, done) && NeedsNoMerge(nodes, i)
    requires forall t | 0 <= t < 5 && nodes[i].params[t] != 0 :: nodes[i].params[t] in done
    requires forall w | w in nodes[i].children :: nodes[i].children[w] in done
    ensures Frame(nodes0, nodes, paths, i) && Compressed(nodes, paths, i)
    ensures Compressed(nodes0, paths, i) ==> nodes == nodes0
  {
  }

  /** A node that was compressed is not merged again. */
  lemma NotCompressed(nodes0: seq<Node>, nodes: seq<Node>, paths: seq<Tokens>, i: nat, done: set<nat>)
    requires Going(nodes0, nodes, paths, i, done) && !NeedsNoMerge(nodes, i)
    ensures !Compressed(nodes0, paths, i)
  {
  }

  lemma MergeStep(nodes0: seq<Node>, nodes: seq<Node>, paths: seq<Tokens>, i: nat, done: set<nat>, m: map<string, nat>,
      low: nat)
    requires Going(nodes0, nodes, paths, i, done) && Edges(nodes, paths, i) && !NeedsNoMerge(nodes, i)
      && Merges(nodes, i, m)
    requires forall w | w in nodes[i].children :: low <= nodes[i].children[w]
    ensures var nodes' := nodes[i := nodes[i].(children := m)];
      Inv(nodes', paths) && Frame(nodes0, nodes', paths, i)
    ensures low < |nodes| && forall u | u in m :: low + 1 <= m[u]
  {
    MergeKeeps(nodes, paths, i, m);
    var w :| w in nodes[i].children;
    forall u | u in m ensures low + 1 <= m[u] {
      var v, w :| TwoSteps(nodes, i, v, w, u, m[u]);
      TwoStepsEdge(nodes, paths, i, v, w, u, m[u]);
    }
  }

  lemma FrameTransitive(nodes0: seq<Node>, nodes1: seq<Node>, nodes2: seq<Node>, paths: seq<Tokens>, i: nat)
    requires Frame(nodes0, nodes1, paths, i) && Frame(nodes1, nodes2, paths, i)
    ensures Frame(nodes0, nodes2, paths, i)
  {
  }

  lemma FrameKeepsSimple(nodes: seq<Node>, nodes': seq<Node>, paths: seq<Tokens>, i: nat, c: nat)
    requires Inv(nodes, paths) && i < |nodes| && |nodes[i].params| == 5 && c in Kids(nodes, i)
      && Frame(nodes, nodes', paths, c)
    ensures nodes[i] == nodes'[i]
    ensures NeedsNoMerge(nodes, i) ==> NeedsNoMerge(nodes', i)
  {
    KidsBelow(nodes, paths, i);
    assert forall j | 0 <= j < |nodes| :: nodes[j].IsSimple() == nodes'[j].IsSimple();
  }

  /** Compression keeps the rules. */
  lemma FrameHolds(nodes: seq<Node>, nodes': seq<Node>, paths: seq<Tokens>, i: nat, r: Rule)
    requires Frame(nodes, nodes', paths, i)
    ensures Holds(nodes, paths, r) <==> Holds(nodes', paths, r)
  {
  }
}
