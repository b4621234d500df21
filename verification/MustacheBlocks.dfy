/** Facts about the arrays that parsing builds: the chain of tags through the template, and the
    blocks opened and closed so far. */
module MustacheBlocks {
  import opened Wrappers
  import opened MustacheTree
  import opened MustacheTags

  /** The fragment `f` and the tag after it, from the place where the fragment begins. */
  ghost predicate TagRead(body: string, d: Delims, f: Fragment, a: Action, next: nat, d': Delims) {
    && f.first <= f.second <= |body|
    && FindFrom(body, d.open, f.first) == Some(f.second)
    && var idx := f.second + |d.open|;
    && idx <= |body|
    && FindFrom(body, d.close, idx).Some?
    && var e := FindFrom(body, d.close, idx).value;
    && idx < e && ReadTag(body, d, idx, e) == Good(a.(pos := 0), next, d')
  }

  function NextStart(fragments: seq<Fragment>, k: nat, current: nat): nat {
    if k + 1 < |fragments| then fragments[k + 1].first else current
  }

  /** Fragments and tags follow each other without a gap from the beginning to `current`; `delims`
      are the delimiters before each tag, and after the last. */
  ghost predicate Chain(body: string, fragments: seq<Fragment>, actions: seq<Action>, delims: seq<Delims>,
      current: nat) {
    && |fragments| == |actions| && |delims| == |actions| + 1 && delims[0] == MUSTACHES && current <= |body|
    && (if fragments == [] then current == 0 else fragments[0].first == 0)
    && (forall k | 0 <= k <= |actions| :: DelimsOK(delims[k]))
    && (forall k | 0 <= k < |actions| ::
          TagRead(body, delims[k], fragments[k], actions[k], NextStart(fragments, k, current), delims[k + 1]))
  }

  lemma ChainGrows(body: string, fragments: seq<Fragment>, actions: seq<Action>, delims: seq<Delims>, current: nat,
      f: Fragment, a: Action, next: nat, d: Delims)
    requires Chain(body, fragments, actions, delims, current) && f.first == current
    requires TagRead(body, delims[|actions|], f, a, next, d)
    ensures Chain(body, fragments + [f], actions + [a], delims + [d], next)
  {
    hide TagRead, DelimsOK;
    TagFits(body, delims[|actions|], f, a, next, d);
    var fragments', actions', delims' := fragments + [f], actions + [a], delims + [d];
    forall k | 0 <= k < |actions'|
      ensures TagRead(body, delims'[k], fragments'[k], actions'[k], NextStart(fragments', k, next), delims'[k + 1])
    {
      if k < |actions| {
        assert NextStart(fragments', k, next) == NextStart(fragments, k, current);
      }
    }
  }

  /** Where the parts of a tag are. */
  lemma TagFits(body: string, d: Delims, f: Fragment, a: Action, next: nat, d': Delims)
    requires TagRead(body, d, f, a, next, d') && DelimsOK(d)
    ensures f.first <= f.second < a.start <= a.end < next <= |body| && DelimsOK(d')
    ensures forall k | f.first <= k < f.second :: !StandsAt(body, d.open, k)
    ensures StandsAt(body, d.open, f.second)
  {
    hide ReadTag, DelimsOK;
    var idx := f.second + |d.open|;
    var e := FindFrom(body, d.close, idx).value;
    ReadTagFits(body, d, idx, e);
    CloseNotEmpty(d);
  }

  /** Positions of blocks do not matter to the chain. */
  lemma ChainIgnoresPos(body: string, fragments: seq<Fragment>, actions: seq<Action>, delims: seq<Delims>,
      current: nat, b: nat, p: nat)
    requires Chain(body, fragments, actions, delims, current) && b < |actions|
    ensures Chain(body, fragments, actions[b := actions[b].(pos := p)], delims, current)
  {
  }

  /** Joined, fragments and tags are the whole text up to `current`. */
  lemma {:induction false} Tiles(body: string, fragments: seq<Fragment>, actions: seq<Action>, delims: seq<Delims>,
      current: nat, k: nat)
    requires Chain(body, fragments, actions, delims, current) && k <= |fragments|
    ensures (if k < |fragments| then fragments[k].first else current) <= |body|
    ensures Joined(body, fragments, current, k) == body[..if k < |fragments| then fragments[k].first else current]
  {
    hide TagRead, DelimsOK;
    if k > 0 {
      Tiles(body, fragments, actions, delims, current, k - 1);
      TagFits(body, delims[k - 1], fragments[k - 1], actions[k - 1], NextStart(fragments, k - 1, current), delims[k]);
      var f, next := fragments[k - 1], NextStart(fragments, k - 1, current);
      assert body[..next] == body[..f.first] + body[f.first..f.second] + body[f.second..next];
    } else {
      assert body[..0] == "";
    }
  }

  /** The first `k` fragments, each with the text of the tag after it. */
  ghost function Joined(body: string, fragments: seq<Fragment>, current: nat, k: nat): string
    requires k <= |fragments|
  {
    if k == 0 then ""
    else
      var f, next := fragments[k - 1], NextStart(fragments, k - 1, current);
      Joined(body, fragments, current, k - 1)
      + if f.first <= f.second <= next <= |body| then body[f.first..f.second] + body[f.second..next] else ""
  }

  /* ---- blocks ---- */

  /** The blocks still open at the `n`-th action, the innermost last; between them all is balanced. */
  ghost predicate OpenBlocks(actions: seq<Action>, opens: seq<nat>, n: nat)
    requires n <= |actions|
    decreases |opens|
  {
    if opens == [] then Balanced(actions, 0, n)
    else
      var b := opens[|opens| - 1];
      b < n && IsBlock(actions[b].t) && Balanced(actions, b + 1, n) && OpenBlocks(actions, opens[..|opens| - 1], b)
  }

  lemma {:induction false} BalancedSame(actions: seq<Action>, actions': seq<Action>, b: nat, e: nat)
    requires b <= e <= |actions| && e <= |actions'| && forall k | b <= k < e :: actions[k] == actions'[k]
    ensures Balanced(actions, b, e) == Balanced(actions', b, e)
    decreases e - b
  {
    if b < e {
      var p := actions[b].pos;
      if IsBlock(actions[b].t) {
        if b < p < e {
          BalancedSame(actions, actions', b + 1, p);
          BalancedSame(actions, actions', p + 1, e);
        }
      } else {
        BalancedSame(actions, actions', b + 1, e);
      }
    }
  }

  lemma {:induction false} BalancedJoin(actions: seq<Action>, a: nat, b: nat, e: nat)
    requires a <= b <= e <= |actions| && Balanced(actions, a, b) && Balanced(actions, b, e)
    ensures Balanced(actions, a, e)
    decreases b - a
  {
    if a < b {
      BalancedJoin(actions, if IsBlock(actions[a].t) then actions[a].pos + 1 else a + 1, b, e);
    }
  }

  lemma {:induction false} OpenSame(actions: seq<Action>, actions': seq<Action>, opens: seq<nat>, n: nat)
    requires n <= |actions| && n <= |actions'| && forall k | 0 <= k < n :: actions[k] == actions'[k]
    requires OpenBlocks(actions, opens, n)
    ensures OpenBlocks(actions', opens, n)
    decreases |opens|
  {
    if opens == [] {
      BalancedSame(actions, actions', 0, n);
    } else {
      var b := opens[|opens| - 1];
      BalancedSame(actions, actions', b + 1, n);
      OpenSame(actions, actions', opens[..|opens| - 1], b);
    }
  }

  lemma OpenSimple(actions: seq<Action>, opens: seq<nat>, a: Action)
    requires OpenBlocks(actions, opens, |actions|) && !IsBlock(a.t) && a.t != CloseBlock
    ensures OpenBlocks(actions + [a], opens, |actions| + 1)
  {
    var n, actions' := |actions|, actions + [a];
    OpenSame(actions, actions', opens, n);
    BalancedJoin(actions', if opens == [] then 0 else opens[|opens| - 1] + 1, n, n + 1);
  }

  lemma OpenBlockAdded(actions: seq<Action>, opens: seq<nat>, a: Action)
    requires OpenBlocks(actions, opens, |actions|) && IsBlock(a.t)
    ensures OpenBlocks(actions + [a], opens + [|actions|], |actions| + 1)
  {
    OpenSame(actions, actions + [a], opens, |actions|);
    assert (opens + [|actions|])[..|opens|] == opens;
  }

  lemma BlockBalanced(actions: seq<Action>, b: nat, n: nat)
    requires b < n < |actions| && IsBlock(actions[b].t) && actions[b].pos == n && Balanced(actions, b + 1, n)
    requires actions[n].t == CloseBlock && actions[n].pos == b
    ensures Balanced(actions, b, n + 1)
  {
  }

  lemma OpenJoin(actions: seq<Action>, opens: seq<nat>, b: nat, n: nat)
    requires b <= n <= |actions| && OpenBlocks(actions, opens, b) && Balanced(actions, b, n)
    ensures OpenBlocks(actions, opens, n)
  {
    hide Balanced;
    BalancedJoin(actions, if opens == [] then 0 else opens[|opens| - 1] + 1, b, n);
  }

  lemma InnermostBlock(actions: seq<Action>, opens: seq<nat>, n: nat)
    requires n <= |actions| && OpenBlocks(actions, opens, n) && opens != []
    ensures var b := opens[|opens| - 1];
      b < n && IsBlock(actions[b].t) && Balanced(actions, b + 1, n) && OpenBlocks(actions, opens[..|opens| - 1], b)
  {
  }

  /** Closing the innermost block. */
  lemma OpenClosed(actions: seq<Action>, actions': seq<Action>, outer: seq<nat>, b: nat)
    requires b < |actions| && IsBlock(actions[b].t) && Balanced(actions, b + 1, |actions|)
      && OpenBlocks(actions, outer, b)
    requires |actions'| == |actions| + 1 && forall k | 0 <= k < |actions| && k != b :: actions'[k] == actions[k]
    requires actions'[b] == actions[b].(pos := |actions|) && actions'[|actions|].t == CloseBlock
      && actions'[|actions|].pos == b
    ensures OpenBlocks(actions', outer, |actions'|)
  {
    hide Balanced, OpenBlocks;
    var n := |actions|;
    BalancedSame(actions, actions', b + 1, n);
    OpenSame(actions, actions', outer, b);
    BlockBalanced(actions', b, n);
    OpenJoin(actions', outer, b, n + 1);
  }

  /** What a balanced stretch closes, it opens. */
  lemma {:induction false} ClosesInside(actions: seq<Action>, b: nat, e: nat, k: nat)
    requires b <= k < e <= |actions| && Balanced(actions, b, e) && actions[k].t == CloseBlock
    ensures actions[k].pos >= b
    decreases e - b
  {
    if IsBlock(actions[b].t) {
      var p := actions[b].pos;
      if k < p { ClosesInside(actions, b + 1, p, k); } else if k > p { ClosesInside(actions, p + 1, e, k); }
    } else {
      ClosesInside(actions, b + 1, e, k);
    }
  }

  /** Every close has the name of the block it closes. */
  ghost predicate NamesMatch(body: string, actions: seq<Action>) {
    forall k | 0 <= k < |actions| && actions[k].t == CloseBlock :: NameMatches(body, actions, k)
  }

  /** The close at `k` and the block it closes name each other, and have the same name. */
  ghost predicate NameMatches(body: string, actions: seq<Action>, k: nat)
    requires k < |actions|
  {
    var a := actions[k];
    && a.pos < k && IsBlock(actions[a.pos].t) && actions[a.pos].pos == k
    && a.start <= a.end <= |body| && actions[a.pos].start <= actions[a.pos].end <= |body|
    && body[a.start..a.end] == body[actions[a.pos].start..actions[a.pos].end]
  }
}
