/** Adding a rule: its text is read token by token, and each token leads one node further down,
    along an edge that is there or a new one. */
module TrieGrow {
  import opened Wrappers
  import opened Routes
  import opened TrieShape

  const TAGS: seq<(string, ParamType)> := [
    ("<int>", INT), ("<uint>", UINT), ("<float>", DOUBLE), ("<double>", DOUBLE), ("<str>", STRING),
        ("<string>", STRING),
    ("<path>", PATH)]

  predicate StandsAt(url: string, i: nat, name: string) {
    i + |name| <= |url| && url[i..i + |name|] == name
  }

  /** The first of the tags from the `k`-th on that stands at `i`; |TAGS| if there is none. */
  function TagAt(url: string, i: nat, k: nat): (r: nat)
    requires k <= |TAGS|
    ensures k <= r <= |TAGS|
    ensures r < |TAGS| ==> StandsAt(url, i, TAGS[r].0)
    ensures forall m | k <= m < r :: !StandsAt(url, i, TAGS[m].0)
    decreases |TAGS| - k
  {
    if k == |TAGS| || StandsAt(url, i, TAGS[k].0) then k else TagAt(url, i, k + 1)
  }

  /** Where the text goes on after the `k`-th tag at `i`. */
  function NextAt(url: string, i: nat, k: nat): (next: nat)
    requires k < |TAGS| && StandsAt(url, i, TAGS[k].0)
    ensures i < next <= |url|
  {
    i + |TAGS[k].0|
  }

  /** The tokens of a rule's text from `i` on; none if a '<' does not begin a known tag. */
  function Tokenize(url: string, i: nat): Option<Tokens>
    requires i <= |url|
    decreases |url| - i
  {
    if i == |url| then Some([])
    else
      var k := if url[i] == '<' then TagAt(url, i, 0) else 0;
      if k == |TAGS| then None
      else
        var (tok, next) := if url[i] == '<' then (Param(TAGS[k].1), NextAt(url, i, k)) else (Lit(url[i]), i + 1);
        match Tokenize(url, next)
        case None => None
        case Some(rest) => Some([tok] + rest)
  }

  /** One token, and the rest. */
  lemma TokenizeIs(url: string, i: nat)
    requires i < |url|
    ensures var k := if url[i] == '<' then TagAt(url, i, 0) else 0;
      if k == |TAGS| then Tokenize(url, i).None?
      else
        var (tok, next) := if url[i] == '<' then (Param(TAGS[k].1), NextAt(url, i, k)) else (Lit(url[i]), i + 1);
        Tokenize(url, i) == if Tokenize(url, next).None? then None else Some([tok] + Tokenize(url, next).value)
  {
    hide TagAt, StandsAt;
  }

  lemma TokenizeStep(front: Tokens, url: string, i: nat)
    requires i < |url| && Tokenize(url, i).Some?
    ensures url[i] != '<' ==>
      && Tokenize(url, i + 1).Some?
      && front + Tokenize(url, i).value == (front + [Lit(url[i])]) + Tokenize(url, i + 1).value
    ensures url[i] == '<' ==> var k := TagAt(url, i, 0);
      && k < |TAGS| && i < i + |TAGS[k].0| <= |url| && Tokenize(url, i + |TAGS[k].0|).Some?
      && front + Tokenize(url, i).value == (front + [Param(TAGS[k].1)]) + Tokenize(url, i + |TAGS[k].0|).value
  {
    hide TagAt, StandsAt;
    var k := if url[i] == '<' then TagAt(url, i, 0) else 0;
    var (tok, next) := if url[i] == '<' then (Param(TAGS[k].1), NextAt(url, i, k)) else (Lit(url[i]), i + 1);
    var rest := Tokenize(url, next).value;
    assert Tokenize(url, i).value == [tok] + rest && front + ([tok] + rest) == (front + [tok]) + rest;
  }

  lemma TokenizeEnd(url: string)
    ensures Tokenize(url, |url|) == Some([])
  {
  }

  /* ---- growing by one node ---- */

  predicate HasEdge(n: Node, tok: Token)
    requires |n.params| == 5
  {
    match tok
    case Param(t) => n.params[Rank(tok)] != 0
    case Lit(c) => [c] in n.children
  }

  function EdgeTo(n: Node, tok: Token): nat
    requires |n.params| == 5 && HasEdge(n, tok)
  {
    match tok
    case Param(t) => n.params[Rank(tok)]
    case Lit(c) => n.children[[c]]
  }

  function WithEdge(n: Node, tok: Token, c: nat): Node
    requires |n.params| == 5
  {
    match tok
    case Param(t) => n.(params := n.params[Rank(tok) := c])
    case Lit(ch) => n.(children := n.children[[ch] := c])
  }

  function Grown(nodes: seq<Node>, i: nat, tok: Token): seq<Node>
    requires i < |nodes| && |nodes[i].params| == 5
  {
    nodes[i := WithEdge(nodes[i], tok, |nodes|)] + [EMPTY_NODE]
  }

  lemma RawLabel(nodes: seq<Node>, paths: seq<Tokens>, i: nat, w: string)
    requires Raw(nodes, paths) && i < |nodes| && w in nodes[i].children
    ensures |w| == 1 && w == [w[0]]
  {
    hide Inv, Edges, Towards;
  }

  /** Before compression, an edge of one token leads to any path that goes on. */
  lemma RawEdge(nodes: seq<Node>, paths: seq<Tokens>, i: nat, j: nat)
    requires Raw(nodes, paths) && i < |nodes| && j < |nodes| && paths[i] < paths[j]
    ensures |nodes[i].params| == 5 && HasEdge(nodes[i], paths[j][|paths[i]|])
  {
    hide Raw, Inv;
    RawIs(nodes, paths);
    RawTowards(nodes, paths, i, j);
    var n := |paths[i]|;
    if u :| 0 <= u < 5 && nodes[i].params[u] != 0 && paths[nodes[i].params[u]] <= paths[j] {
      assert paths[j][n] == (paths[i] + [Param(TYPES[u])])[n];
    } else {
      var w :| w in nodes[i].children && paths[nodes[i].children[w]] <= paths[j];
      RawLabel(nodes, paths, i, w);
      assert paths[j][n] == (paths[i] + Lits(w))[n];
    }
  }

  /** Where the edges of a raw node lead. */
  lemma EdgeSpells(nodes: seq<Node>, paths: seq<Tokens>, i: nat, tok: Token)
    requires Raw(nodes, paths) && i < |nodes| && |nodes[i].params| == 5 && HasEdge(nodes[i], tok)
    ensures i < EdgeTo(nodes[i], tok) < |nodes| && paths[EdgeTo(nodes[i], tok)] == paths[i] + [tok]
  {
    assert Edges(nodes, paths, i);
    if tok.Lit? { assert Lits([tok.c]) == [tok]; }
  }

  lemma NoPathThere(nodes: seq<Node>, paths: seq<Tokens>, i: nat, tok: Token, j: nat)
    requires Raw(nodes, paths) && i < |nodes| && |nodes[i].params| == 5 && !HasEdge(nodes[i], tok) && j < |nodes|
    ensures !(paths[i] + [tok] <= paths[j])
  {
    if paths[i] < paths[j] { RawEdge(nodes, paths, i, j); }
  }

  /** The edges of the grown trie. */
  lemma GrownEdges(nodes: seq<Node>, paths: seq<Tokens>, i: nat, tok: Token, k: nat)
    requires Raw(nodes, paths) && i < |nodes| && |nodes[i].params| == 5 && !HasEdge(nodes[i], tok) && k <= |nodes|
    ensures Edges(Grown(nodes, i, tok), paths + [paths[i] + [tok]], k)
    ensures forall w | w in Grown(nodes, i, tok)[k].children :: |w| == 1
  {
    hide Raw, Inv, Edges, HasEdge, WithEdge;
    RawIs(nodes, paths);
    if k < |nodes| {
      EdgesOf(nodes, paths, k);
      forall w | w in nodes[k].children ensures |w| == 1 { RawLabel(nodes, paths, k, w); }
      if k == i {
        if tok.Lit? { GrownLit(nodes, paths, i, tok); } else { GrownParam(nodes, paths, i, tok); }
      } else {
        GrownElsewhere(nodes, paths, i, tok, k);
      }
    } else {
      NewNodeEdges(nodes, paths, i, tok);
    }
  }

  lemma GrownElsewhere(nodes: seq<Node>, paths: seq<Tokens>, i: nat, tok: Token, k: nat)
    requires |nodes| == |paths| && i < |nodes| && |nodes[i].params| == 5
    requires k < |nodes| && k != i && Edges(nodes, paths, k)
    ensures Edges(Grown(nodes, i, tok), paths + [paths[i] + [tok]], k) && Grown(nodes, i, tok)[k] == nodes[k]
  {
    hide WithEdge;
  }

  lemma NewNodeEdges(nodes: seq<Node>, paths: seq<Tokens>, i: nat, tok: Token)
    requires |nodes| == |paths| && i < |nodes| && |nodes[i].params| == 5
    ensures var nodes' := Grown(nodes, i, tok);
      Edges(nodes', paths + [paths[i] + [tok]], |nodes|) && nodes'[|nodes|].children == map[]
  {
    hide WithEdge;
  }

  lemma GrownLit(nodes: seq<Node>, paths: seq<Tokens>, i: nat, tok: Token)
    requires |nodes| == |paths| && i < |nodes| && Edges(nodes, paths, i) && tok.Lit? && !HasEdge(nodes[i], tok)
    requires forall w | w in nodes[i].children :: |w| == 1
    ensures Edges(Grown(nodes, i, tok), paths + [paths[i] + [tok]], i)
    ensures forall w | w in Grown(nodes, i, tok)[i].children :: |w| == 1
  {
  }

  lemma GrownParam(nodes: seq<Node>, paths: seq<Tokens>, i: nat, tok: Token)
    requires |nodes| == |paths| && i < |nodes| && Edges(nodes, paths, i) && tok.Param? && !HasEdge(nodes[i], tok)
    requires forall w | w in nodes[i].children :: |w| == 1
    ensures Edges(Grown(nodes, i, tok), paths + [paths[i] + [tok]], i)
    ensures forall w | w in Grown(nodes, i, tok)[i].children :: |w| == 1
  {
    assert TYPES[Rank(tok)] == tok.t;
  }

  /** Growing keeps the order of the trie, and every node reachable. */
  lemma GrowKeeps(nodes: seq<Node>, paths: seq<Tokens>, i: nat, tok: Token)
    requires Raw(nodes, paths) && i < |nodes| && |nodes[i].params| == 5 && !HasEdge(nodes[i], tok)
    ensures Raw(Grown(nodes, i, tok), paths + [paths[i] + [tok]])
  {
    var nodes', paths' := Grown(nodes, i, tok), paths + [paths[i] + [tok]];
    var last := |nodes|;
    forall j | 0 <= j < last ensures !(paths'[last] <= paths[j]) {
      NoPathThere(nodes, paths, i, tok, j);
    }
    forall k | 0 <= k <= last
      ensures Edges(nodes', paths', k) && forall w | w in nodes'[k].children :: |w| == 1
    {
      GrownEdges(nodes, paths, i, tok, k);
    }
    forall k, j | 0 <= k <= last && 0 <= j <= last && paths'[k] < paths'[j] ensures Towards(nodes', paths', k, j) {
      GrownTowards(nodes, paths, i, tok, k, j);
    }
  }

  lemma GrownTowards(nodes: seq<Node>, paths: seq<Tokens>, i: nat, tok: Token, k: nat, j: nat)
    requires Raw(nodes, paths) && i < |nodes| && |nodes[i].params| == 5 && !HasEdge(nodes[i], tok) && k <= |nodes|
      && j <= |nodes|
    requires var paths' := paths + [paths[i] + [tok]]; paths'[k] < paths'[j]
    ensures Edges(Grown(nodes, i, tok), paths + [paths[i] + [tok]], k)
    ensures Towards(Grown(nodes, i, tok), paths + [paths[i] + [tok]], k, j)
  {
    hide Raw, Inv, Towards, HasEdge, WithEdge, Edges;
    RawIs(nodes, paths);
    var nodes', paths' := Grown(nodes, i, tok), paths + [paths[i] + [tok]];
    GrownEdges(nodes, paths, i, tok, k);
    var last := |nodes|;
    assert k < last by { NoPathThere(nodes, paths, i, tok, if j < last then j else 0); }
    EdgesOf(nodes, paths, k);
    if j == last && k == i {
      GrownLeads(nodes, paths, i, tok);
    } else {
      var j' := if j == last then i else j;
      assert paths[k] < paths[j'];
      RawTowards(nodes, paths, k, j');
      StillTowards(nodes, paths, i, tok, k, j');
      assert paths'[j'] <= paths'[j];
      FurtherTowards(nodes', paths', k, j', j);
    }
  }

  lemma RawTowards(nodes: seq<Node>, paths: seq<Tokens>, k: nat, j: nat)
    requires Raw(nodes, paths) && k < |nodes| && j < |nodes| && paths[k] < paths[j]
    ensures Edges(nodes, paths, k) && Towards(nodes, paths, k, j)
  {
    hide Edges, Towards;
  }

  /** The new edge leads to the new node. */
  lemma GrownLeads(nodes: seq<Node>, paths: seq<Tokens>, i: nat, tok: Token)
    requires |nodes| == |paths| && i < |nodes| && |nodes[i].params| == 5
    requires Edges(Grown(nodes, i, tok), paths + [paths[i] + [tok]], i)
    ensures Towards(Grown(nodes, i, tok), paths + [paths[i] + [tok]], i, |nodes|)
  {
    var nodes', last := Grown(nodes, i, tok), |nodes|;
    if tok.Lit? {
      assert [tok.c] in nodes'[i].children && nodes'[i].children[[tok.c]] == last;
    } else {
      assert nodes'[i].params[Rank(tok)] == last;
    }
  }

  lemma StillTowards(nodes: seq<Node>, paths: seq<Tokens>, i: nat, tok: Token, k: nat, j: nat)
    requires |nodes| == |paths| && i < |nodes| && |nodes[i].params| == 5 && !HasEdge(nodes[i], tok) && k < |nodes|
      && j < |nodes|
    requires Edges(nodes, paths, k) && Towards(nodes, paths, k, j)
    requires Edges(Grown(nodes, i, tok), paths + [paths[i] + [tok]], k)
    ensures Towards(Grown(nodes, i, tok), paths + [paths[i] + [tok]], k, j)
  {
  }

  lemma FurtherTowards(nodes: seq<Node>, paths: seq<Tokens>, k: nat, j: nat, j': nat)
    requires k < |nodes| == |paths| && j < |nodes| && j' < |nodes| && Edges(nodes, paths, k)
      && Towards(nodes, paths, k, j)
    requires paths[j] <= paths[j']
    ensures Towards(nodes, paths, k, j')
  {
  }

  /** A node without a rule changes nothing in what the trie holds. */
  lemma GrowHolds(nodes: seq<Node>, paths: seq<Tokens>, i: nat, tok: Token, r: Rule)
    requires |nodes| == |paths| && i < |nodes| && |nodes[i].params| == 5
    ensures Holds(Grown(nodes, i, tok), paths + [paths[i] + [tok]], r) <==> Holds(nodes, paths, r)
  {
    var nodes', paths' := Grown(nodes, i, tok), paths + [paths[i] + [tok]];
    if j :| 0 <= j < |nodes| && nodes[j].ruleIndex != 0 && r == Rule(paths[j], nodes[j].ruleIndex) {
      assert nodes'[j].ruleIndex != 0 && r == Rule(paths'[j], nodes'[j].ruleIndex);
    }
    if j :| 0 <= j < |nodes'| && nodes'[j].ruleIndex != 0 && r == Rule(paths'[j], nodes'[j].ruleIndex) {
      assert j < |nodes| && nodes[j].ruleIndex != 0;
    }
  }

  /** Giving a node a rule keeps the trie raw. */
  lemma SameLinks(nodes: seq<Node>, nodes': seq<Node>, paths: seq<Tokens>, k: nat)
    requires k < |nodes| == |nodes'| == |paths| && Edges(nodes, paths, k)
    requires nodes'[k].params == nodes[k].params && nodes'[k].children == nodes[k].children
    ensures Edges(nodes', paths, k)
    ensures forall j | 0 <= j < |nodes| && Towards(nodes, paths, k, j) :: Towards(nodes', paths, k, j)
  {
  }

  lemma SetRule(nodes: seq<Node>, paths: seq<Tokens>, i: nat, index: nat)
    requires Raw(nodes, paths) && i < |nodes| && nodes[i].ruleIndex == 0 && index != 0
    ensures Raw(nodes[i := nodes[i].(ruleIndex := index)], paths)
  {
    hide Edges, Towards;
    var nodes' := nodes[i := nodes[i].(ruleIndex := index)];
    forall k | 0 <= k < |nodes| ensures Edges(nodes', paths, k) {
      SameLinks(nodes, nodes', paths, k);
    }
    forall k, j | 0 <= k < |nodes| && 0 <= j < |nodes| && paths[k] < paths[j] ensures Towards(nodes', paths, k, j) {
      SameLinks(nodes, nodes', paths, k);
    }
  }

  lemma SetRuleHolds(nodes: seq<Node>, paths: seq<Tokens>, i: nat, index: nat, r: Rule)
    requires |nodes| == |paths| && i < |nodes| && nodes[i].ruleIndex == 0 && index != 0
    ensures Holds(nodes[i := nodes[i].(ruleIndex := index)], paths, r) <==>
      Holds(nodes, paths, r) || r == Rule(paths[i], index)
  {
  }

  lemma RawIs(nodes: seq<Node>, paths: seq<Tokens>)
    requires Raw(nodes, paths)
    ensures Inv(nodes, paths) && |nodes| == |paths| > 0 && paths[0] == []
  {
  }

  lemma HoldsAt(nodes: seq<Node>, paths: seq<Tokens>, i: nat)
    requires i < |nodes| == |paths| && nodes[i].ruleIndex != 0
    ensures Holds(nodes, paths, Rule(paths[i], nodes[i].ruleIndex))
  {
  }

  lemma NoRuleThere(nodes: seq<Node>, paths: seq<Tokens>, i: nat, r: Rule)
    requires Inv(nodes, paths) && i < |nodes| && nodes[i].ruleIndex == 0 && Holds(nodes, paths, r)
    ensures r.toks != paths[i]
  {
  }
}
