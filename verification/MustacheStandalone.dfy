/** The pass that removes tags standing alone on a line: what it takes away, stated on the fragments
    as they were before. */
module MustacheStandalone {
  import opened Wrappers
  import opened MustacheTree
  import opened MustacheTags

  ghost predicate FragmentsFit(body: string, fragments: seq<Fragment>) {
    forall k | 0 <= k < |fragments| :: fragments[k].first <= fragments[k].second <= |body|
  }

  /** Up to the `i`-th tag its line holds nothing but spaces. */
  predicate BlankBefore(body: string, fragments: seq<Fragment>, i: nat)
    requires FragmentsFit(body, fragments) && i < |fragments|
  {
    var f := fragments[i];
    var j := SkipDown(body, f.first, f.second);
    if j == f.first then i == 0 else body[j - 1] == '\n'
  }

  predicate LineBreakAt(body: string, k: nat) {
    k < |body| && (body[k] == '\n' || (body[k] == '\r' && k + 1 < |body| && body[k + 1] == '\n'))
  }

  /** After the `i`-th tag its line holds nothing but spaces. */
  predicate BlankAfter(body: string, fragments: seq<Fragment>, i: nat)
    requires FragmentsFit(body, fragments) && i + 1 < |fragments|
  {
    var f := fragments[i + 1];
    var k := SkipUp(body, f.first, f.second);
    if k == f.second then i + 2 == |fragments| else LineBreakAt(body, k)
  }

  predicate Standalone(body: string, fragments: seq<Fragment>, actions: seq<Action>, i: nat)
    requires FragmentsFit(body, fragments) && i + 1 < |fragments| == |actions|
  {
    actions[i].t != Tag && actions[i].t != UnescapeTag && BlankBefore(body, fragments, i)
        && BlankAfter(body, fragments, i)
  }

  /** Where the next line begins, if the fragment has more than spaces. */
  function AfterLine(body: string, f: Fragment): nat
    requires f.first <= f.second <= |body|
  {
    var s := SkipUp(body, f.first, f.second);
    if s == f.second then f.first else if body[s] == '\n' then s + 1 else s + 2
  }

  /** Where the `k`-th fragment begins after the pass. */
  function TrimmedFirst(body: string, fragments: seq<Fragment>, actions: seq<Action>, k: nat): nat
    requires FragmentsFit(body, fragments) && k < |fragments| == |actions|
  {
    if k > 0 && Standalone(body, fragments, actions, k - 1) then AfterLine(body, fragments[k]) else fragments[k].first
  }

  lemma TrimmedFirstIs(body: string, fragments: seq<Fragment>, actions: seq<Action>, k: nat)
    requires FragmentsFit(body, fragments) && 0 < k < |fragments| == |actions|
      && Standalone(body, fragments, actions, k - 1)
    ensures TrimmedFirst(body, fragments, actions, k) == AfterLine(body, fragments[k])
  {
  }

  /** Where the `k`-th fragment ends after the pass. */
  function TrimmedSecond(body: string, fragments: seq<Fragment>, actions: seq<Action>, k: nat): nat
    requires FragmentsFit(body, fragments) && k < |fragments| == |actions|
  {
    var f := fragments[k];
    if k + 1 < |fragments| && Standalone(body, fragments, actions, k) then SkipDown(body, f.first, f.second)
        else f.second
  }

  /** Only spaces are taken from the end of a fragment, only spaces and one line break from its
      beginning. */
  lemma OnlyBlanksRemoved(body: string, fragments: seq<Fragment>, actions: seq<Action>, k: nat)
    requires FragmentsFit(body, fragments) && k < |fragments| == |actions|
    ensures var f, first, second :=
      fragments[k], TrimmedFirst(body, fragments, actions, k), TrimmedSecond(body, fragments, actions, k);
      && f.first <= second <= f.second && (forall m | second <= m < f.second :: body[m] == ' ')
      && f.first <= first <= |body|
      && (first == f.first
          || (exists m :: f.first <= m < f.second && (forall n | f.first <= n < m :: body[n] == ' ')
                && (body[m..first] == "\n" || body[m..first] == "\r\n")))
  {
    var f := fragments[k];
    var first := TrimmedFirst(body, fragments, actions, k);
    if first != f.first {
      var m := SkipUp(body, f.first, f.second);
      assert LineBreakAt(body, m);
      if body[m] == '\n' {
        assert body[m..first] == "\n";
      } else {
        assert body[m..first] == "\r\n";
      }
    }
  }

  /** A fragment keeps its bounds in order, except in one case: it begins with a carriage return
      that is its last character, and the line feed after it belongs to the next tag. */
  lemma BoundsExact(body: string, fragments: seq<Fragment>, actions: seq<Action>, k: nat)
    requires FragmentsFit(body, fragments) && k < |fragments| == |actions|
    ensures TrimmedFirst(body, fragments, actions, k) <= TrimmedSecond(body, fragments, actions, k) <==>
      !SplitsBreak(body, fragments, actions, k)
  {
  }

  predicate SplitsBreak(body: string, fragments: seq<Fragment>, actions: seq<Action>, k: nat)
    requires FragmentsFit(body, fragments) && k < |fragments| == |actions|
  {
    var f := fragments[k];
    && k > 0 && Standalone(body, fragments, actions, k - 1)
    && SkipUp(body, f.first, f.second) + 1 == f.second && body[f.second - 1] == '\r'
  }

  /** It takes an opening delimiter that begins with a line feed. */
  lemma SplitNeedsLineFeed(body: string, fragments: seq<Fragment>, actions: seq<Action>, k: nat, open: string)
    requires FragmentsFit(body, fragments) && k < |fragments| == |actions| && open != ""
    requires SplitsBreak(body, fragments, actions, k)
    requires k + 1 < |fragments| ==> StandsAt(body, open, fragments[k].second)
    requires k + 1 == |fragments| ==> fragments[k].second == |body|
    ensures k + 1 < |fragments| && open[0] == '\n'
  {
  }

  /** A standalone partial remembers the spaces before it. */
  function IndentedAction(body: string, fragments: seq<Fragment>, actions: seq<Action>, k: nat): Action
    requires FragmentsFit(body, fragments) && k < |fragments| == |actions|
  {
    if k + 1 < |fragments| && actions[k].t == Partial && Standalone(body, fragments, actions, k) then
      actions[k].(pos := fragments[k].second - SkipDown(body, fragments[k].first, fragments[k].second))
    else actions[k]
  }

  /** The compiled template: what the pass makes of the fragments and actions that were read. */
  ghost function Trimmed(body: string, fragments: seq<Fragment>, actions: seq<Action>): Code
    requires FragmentsFit(body, fragments) && |fragments| == |actions|
  {
    Code(body,
         seq(|fragments|, k requires 0 <= k < |fragments| =>
           Fragment(TrimmedFirst(body, fragments, actions, k), TrimmedSecond(body, fragments, actions, k))),
         seq(|actions|, k requires 0 <= k < |actions| => IndentedAction(body, fragments, actions, k)))
  }

  /** The pass goes from the last tag to the first; when the tags after the `i`-th are done: */
  function PartlyTrimmed(body: string, fragments: seq<Fragment>, actions: seq<Action>, k: nat, i: int): Fragment
    requires FragmentsFit(body, fragments) && k < |fragments| == |actions|
  {
    Fragment(if k > i + 1 then TrimmedFirst(body, fragments, actions, k) else fragments[k].first,
             if k > i then TrimmedSecond(body, fragments, actions, k) else fragments[k].second)
  }

  /** A fragment that has lost its end still shows whether the line before it is blank. */
  lemma StillBlankAfter(body: string, fragments: seq<Fragment>, actions: seq<Action>, k: nat)
    requires FragmentsFit(body, fragments) && 0 < k < |fragments| == |actions|
    ensures var f, j := fragments[k], TrimmedSecond(body, fragments, actions, k);
      && f.first <= j <= f.second
      && (SkipUp(body, f.first, j) == j <==> SkipUp(body, f.first, f.second) == f.second)
      && (SkipUp(body, f.first, j) < j ==> SkipUp(body, f.first, j) == SkipUp(body, f.first, f.second))
  {
  }

  /** What the step for the `i`-th tag changes. */
  lemma TrimmedIs(body: string, fragments: seq<Fragment>, actions: seq<Action>, i: nat)
    requires FragmentsFit(body, fragments) && i + 1 < |fragments| == |actions|
    ensures var alone, f := Standalone(body, fragments, actions, i), fragments[i];
      && SkipDown(body, f.first, f.second) <= f.second
      && TrimmedSecond(body, fragments, actions, i) == (if alone then SkipDown(body, f.first, f.second) else f.second)
      && (!alone ==> TrimmedFirst(body, fragments, actions, i + 1) == fragments[i + 1].first)
      && IndentedAction(body, fragments, actions, i) ==
           if alone && actions[i].t == Partial then actions[i].(pos := f.second - SkipDown(body, f.first, f.second))
               else actions[i]
  {
  }
}
