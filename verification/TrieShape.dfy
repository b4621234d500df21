/** The shape of the routing trie: a vector of nodes, and the token path that leads to each of
    them. The paths are a ghost: the program only keeps the nodes. */
module TrieShape {
  import opened Routes

  datatype Node = Node(ruleIndex: nat, params: seq<nat>, children: map<string, nat>) {
    predicate IsSimple() { ruleIndex == 0 && forall t | 0 <= t < |params| :: params[t] == 0 }
  }

  const EMPTY_NODE := Node(0, [0, 0, 0, 0, 0], map[])

  const TYPES: seq<ParamType> := [INT, UINT, DOUBLE, STRING, PATH]

  function Lits(w: string): Tokens {
    seq(|w|, i requires 0 <= i < |w| => Lit(w[i]))
  }

  /* ---- the shape of the trie ---- */

  /** Every edge leads to a later node, and extends the path by its label. */
  ghost predicate Edges(nodes: seq<Node>, paths: seq<Tokens>, i: nat)
    requires i < |nodes| == |paths|
  {
    && |nodes[i].params| == 5
    && (forall t | 0 <= t < 5 && nodes[i].params[t] != 0 ::
          i < nodes[i].params[t] < |nodes| && paths[nodes[i].params[t]] == paths[i] + [Param(TYPES[t])])
    && (forall w | w in nodes[i].children ::
          w != "" && i < nodes[i].children[w] < |nodes| && paths[nodes[i].children[w]] == paths[i] + Lits(w))
    && (forall v, w | v in nodes[i].children && w in nodes[i].children && v <= w :: v == w)
  }

  /** An edge of `i` leads towards the path of `j`. */
  ghost predicate Towards(nodes: seq<Node>, paths: seq<Tokens>, i: nat, j: nat)
    requires i < |nodes| == |paths| && j < |nodes| && Edges(nodes, paths, i)
  {
    || (exists t :: 0 <= t < 5 && nodes[i].params[t] != 0 && paths[nodes[i].params[t]] <= paths[j])
    || (exists w :: w in nodes[i].children && paths[nodes[i].children[w]] <= paths[j])
  }

  /** Paths are distinct, and below every node all rules can be reached from it. */
  ghost predicate Inv(nodes: seq<Node>, paths: seq<Tokens>) {
    && |nodes| == |paths| > 0 && paths[0] == []
    && (forall i, j | 0 <= i < |paths| && 0 <= j < |paths| && paths[i] == paths[j] :: i == j)
    && (forall i | 0 <= i < |nodes| :: Edges(nodes, paths, i))
    && (forall i, j | 0 <= i < |nodes| && 0 <= j < |nodes| && nodes[j].ruleIndex != 0 && paths[i] < paths[j] ::
          Towards(nodes, paths, i, j))
  }

  /** Before compression: single characters on the edges, and every node can be reached. */
  ghost predicate Raw(nodes: seq<Node>, paths: seq<Tokens>) {
    && Inv(nodes, paths)
    && (forall i, w | 0 <= i < |nodes| && w in nodes[i].children :: |w| == 1)
    && (forall i, j | 0 <= i < |nodes| && 0 <= j < |nodes| && paths[i] < paths[j] :: Towards(nodes, paths, i, j))
  }

  /** The rules the trie holds. */
  ghost predicate Holds(nodes: seq<Node>, paths: seq<Tokens>, r: Rule) {
    && |nodes| == |paths|
    && exists j :: 0 <= j < |nodes| && nodes[j].ruleIndex != 0 && r == Rule(paths[j], nodes[j].ruleIndex)
  }

  lemma PathSplit(a: Tokens, next: Tokens, b: Tokens)
    requires a + next <= b
    ensures a <= b && b[|a|..] == next + b[|a| + |next|..]
  {
  }

  /** Where a path that goes on below a node goes on: along an edge for the next token. */
  lemma NextEdge(nodes: seq<Node>, paths: seq<Tokens>, i: nat, j: nat)
    requires Inv(nodes, paths) && i < |nodes| && j < |nodes| && paths[i] < paths[j] && nodes[j].ruleIndex != 0
    ensures Edges(nodes, paths, i)
    ensures match paths[j][|paths[i]|]
      case Param(t) => nodes[i].params[Rank(Param(t))] != 0
      case Lit(_) => exists w :: w in nodes[i].children && paths[i] + Lits(w) <= paths[j]
  {
    var n := |paths[i]|;
    assert Edges(nodes, paths, i);
    assert Towards(nodes, paths, i, j);
    if u :| 0 <= u < 5 && nodes[i].params[u] != 0 && paths[nodes[i].params[u]] <= paths[j] {
      assert paths[j][n] == paths[nodes[i].params[u]][n] == Param(TYPES[u]);
    } else {
      var w :| w in nodes[i].children && paths[nodes[i].children[w]] <= paths[j];
      assert paths[j][n] == paths[nodes[i].children[w]][n] == Lit(w[0]);
    }
  }

  lemma SameLength(nodes: seq<Node>, paths: seq<Tokens>)
    requires Inv(nodes, paths)
    ensures |nodes| == |paths|
  {
  }

  lemma HeadIsRoot(nodes: seq<Node>, paths: seq<Tokens>)
    requires Inv(nodes, paths)
    ensures |paths| > 0 && paths[0] == []
  {
  }

  lemma EdgesOf(nodes: seq<Node>, paths: seq<Tokens>, i: nat)
    requires Inv(nodes, paths) && i < |nodes|
    ensures |nodes| == |paths| && Edges(nodes, paths, i)
  {
  }
}
