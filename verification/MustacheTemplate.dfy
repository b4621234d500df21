/** A template: compiled from its text when it is made, rendered with a context. */
module MustacheTemplate {
  import opened Wrappers
  import opened JsonValue
  import opened MustacheTree
  import opened MustacheTags
  import opened MustacheBlocks
  import opened MustacheStandalone
  import opened MustacheRun

  /** `Unchecked` is a text the program does not look out for: a close without an open block, a
      block that is never closed, a name made of spaces. */
  datatype Outcome = Compiled | Invalid(why: Fault) | Unchecked

  /** Why reading stops at `current`, with the delimiters `d` and the blocks `opens` still open. */
  ghost predicate StopsFor(body: string, d: Delims, current: nat, actions: seq<Action>, opens: seq<nat>, o: Outcome)
    requires current <= |body| && forall k | 0 <= k < |opens| :: opens[k] < |actions|
    requires forall k | 0 <= k < |actions| :: actions[k].start <= actions[k].end <= |body|
  {
    var s := FindFrom(body, d.open, current);
    if s.None? then o == if opens == [] then Compiled else Unchecked
    else
      var idx := s.value + |d.open|;
      var e := FindFrom(body, d.close, idx);
      if e.None? then o == Invalid(NoClosingDelimiter)
      else if e.value == idx then o == Invalid(EmptyTag)
      else
        match ReadTag(body, d, idx, e.value)
        case Bad(why) => o == Invalid(why)
        case Blank => o == Unchecked
        case Good(a, _, _) =>
          && a.t == CloseBlock
          && if opens == [] then o == Unchecked
             else
               var m := actions[opens[|opens| - 1]];
               o == Invalid(WrongClose) && a.start <= a.end <= |body| && body[a.start..a.end] != body[m.start..m.end]
  }

  /** What has been read: the first tags of the text, with the blocks `opens` still open. */
  ghost predicate HasRead(body: string, fragments: seq<Fragment>, actions: seq<Action>, delims: seq<Delims>,
      opens: seq<nat>, current: nat)
  {
    && Chain(body, fragments, actions, delims, current)
    && OpenBlocks(actions, opens, |actions|) && (forall k | 0 <= k < |opens| :: opens[k] < |actions|)
    && (forall k | 0 <= k < |actions| :: actions[k].start <= actions[k].end <= |body|)
    && NamesMatch(body, actions)
  }

  ghost predicate ReadSoFar(body: string, fragments: seq<Fragment>, actions: seq<Action>, delims: seq<Delims>,
      opens: seq<nat>, current: nat, d: Delims)
  {
    && |fragments| == |actions| == |delims| - 1 && d == delims[|actions|] && DelimsOK(d) && current <= |body|
    && (forall k | 0 <= k < |opens| :: opens[k] < |actions|)
    && (forall k | 0 <= k < |actions| :: actions[k].start <= actions[k].end <= |body|)
  }

  lemma ReadFacts(body: string, fragments: seq<Fragment>, actions: seq<Action>, delims: seq<Delims>, opens: seq<nat>,
      current: nat)
    requires HasRead(body, fragments, actions, delims, opens, current)
    ensures |delims| > 0 && ReadSoFar(body, fragments, actions, delims, opens, current, delims[|delims| - 1])
  {
  }

  lemma ReadNothing(body: string)
    ensures HasRead(body, [], [], [MUSTACHES], [], 0) && ReadSoFar(body, [], [], [MUSTACHES], [], 0, MUSTACHES)
  {
  }

  lemma AfterOpen(body: string, d: Delims, s: nat)
    requires DelimsOK(d) && StandsAt(body, d.open, s)
    ensures 0 < s + |d.open| <= |body| && body[s + |d.open| - 1] != ' '
  {
  }

  lemma StandsWithin(body: string, w: string, p: nat)
    requires StandsAt(body, w, p)
    ensures p + |w| <= |body|
  {
  }

  lemma TagIsRead(body: string, d: Delims, f: Fragment, a: Action, next: nat, d': Delims)
    requires f.first <= |body| && FindFrom(body, d.open, f.first) == Some(f.second)
    requires var idx := f.second + |d.open|;
      && idx <= |body| && FindFrom(body, d.close, idx).Some?
      && var e := FindFrom(body, d.close, idx).value;
      && idx < e && ReadTag(body, d, idx, e) == Good(a.(pos := 0), next, d')
    ensures TagRead(body, d, f, a, next, d')
  {
  }

  lemma ReadOther(body: string, fragments: seq<Fragment>, actions: seq<Action>, delims: seq<Delims>, opens: seq<nat>,
      current: nat, f: Fragment, a: Action, next: nat, d: Delims)
    requires HasRead(body, fragments, actions, delims, opens, current) && f.first == current && a.t != CloseBlock
    requires |delims| == |actions| + 1 && DelimsOK(delims[|actions|]) && TagRead(body, delims[|actions|], f, a, next, d)
    ensures HasRead(body, fragments + [f], actions + [a], delims + [d],
      if IsBlock(a.t) then opens + [|actions|] else opens, next)
  {
    hide Chain, OpenBlocks, TagRead, DelimsOK;
    ChainGrows(body, fragments, actions, delims, current, f, a, next, d);
    TagFits(body, delims[|actions|], f, a, next, d);
    if IsBlock(a.t) { OpenBlockAdded(actions, opens, a); } else { OpenSimple(actions, opens, a); }
    NamesGrow(body, actions, a);
  }

  lemma NamesGrow(body: string, actions: seq<Action>, a: Action)
    requires NamesMatch(body, actions) && a.t != CloseBlock
    ensures NamesMatch(body, actions + [a])
  {
  }

  lemma ReadClose(body: string, fragments: seq<Fragment>, actions: seq<Action>, delims: seq<Delims>, opens: seq<nat>,
      current: nat, f: Fragment, a: Action, next: nat, d: Delims)
    requires HasRead(body, fragments, actions, delims, opens, current) && f.first == current
    requires a.t == CloseBlock && opens != [] && a.pos == opens[|opens| - 1] < |actions|
    requires a.start <= a.end <= |body| && actions[a.pos].start <= actions[a.pos].end <= |body|
    requires body[a.start..a.end] == body[actions[a.pos].start..actions[a.pos].end]
    requires |delims| == |actions| + 1 && DelimsOK(delims[|actions|]) && TagRead(body, delims[|actions|], f, a, next, d)
    ensures HasRead(body, fragments + [f], actions[a.pos := actions[a.pos].(pos := |actions|)] + [a], delims + [d],
                    opens[..|opens| - 1], next)
  {
    hide Chain, OpenBlocks, TagRead, DelimsOK, NamesMatch;
    var actions1 := actions[a.pos := actions[a.pos].(pos := |actions|)];
    ChainIgnoresPos(body, fragments, actions, delims, current, a.pos, |actions|);
    ChainGrows(body, fragments, actions1, delims, current, f, a, next, d);
    TagFits(body, delims[|actions|], f, a, next, d);
    InnermostBlock(actions, opens, |actions|);
    OpenClosed(actions, actions1 + [a], opens[..|opens| - 1], a.pos);
    NamesClose(body, actions, opens, a);
  }

  lemma NamesClose(body: string, actions: seq<Action>, opens: seq<nat>, a: Action)
    requires NamesMatch(body, actions) && OpenBlocks(actions, opens, |actions|)
    requires a.t == CloseBlock && opens != [] && a.pos == opens[|opens| - 1] < |actions|
    requires a.start <= a.end <= |body| && actions[a.pos].start <= actions[a.pos].end <= |body|
    requires body[a.start..a.end] == body[actions[a.pos].start..actions[a.pos].end]
    ensures NamesMatch(body, actions[a.pos := actions[a.pos].(pos := |actions|)] + [a])
  {
    hide Balanced, OpenBlocks, NameMatches;
    var b, n := a.pos, |actions|;
    var actions' := actions[b := actions[b].(pos := n)] + [a];
    InnermostBlock(actions, opens, n);
    forall k | 0 <= k < |actions'| && actions'[k].t == CloseBlock ensures NameMatches(body, actions', k) {
      if k < n { NameStays(body, actions, actions', b, k); } else { NewNameMatches(body, actions', b); }
    }
  }

  lemma NewNameMatches(body: string, actions: seq<Action>, b: nat)
    requires b < |actions| - 1 && var a := actions[|actions| - 1];
      && a.pos == b && IsBlock(actions[b].t) && actions[b].pos == |actions| - 1
      && a.start <= a.end <= |body| && actions[b].start <= actions[b].end <= |body|
      && body[a.start..a.end] == body[actions[b].start..actions[b].end]
    ensures NameMatches(body, actions, |actions| - 1)
  {
  }

  lemma NameStays(body: string, actions: seq<Action>, actions': seq<Action>, b: nat, k: nat)
    requires b < |actions| && k < |actions| < |actions'| && actions[k].t == CloseBlock && IsBlock(actions[b].t)
    requires NameMatches(body, actions, k) && Balanced(actions, b + 1, |actions|)
    requires forall j | 0 <= j < |actions| && j != b :: actions'[j] == actions[j]
    ensures NameMatches(body, actions', k)
  {
    hide Balanced;
    if k > b { ClosesInside(actions, b + 1, |actions|, k); }
  }

  const LAST := Action(Ignore, 0, 0, 0)

  class Template {
    const body: string
    var fragments: seq<Fragment>
    var actions: seq<Action>

    constructor (text: string)
      ensures body == text && fragments == [] && actions == []
    {
      body, fragments, actions := text, [], [];
    }

    /* ---- reading one tag ---- */

    /** Drops the spaces around a name. The character at `e` and the one before `i` are not spaces. */
    method Trim(i: nat, e: nat) returns (start: nat, end: nat)
      requires 0 < i <= e < |body| && body[e] != ' ' && body[i - 1] != ' '
      ensures start == SkipUp(body, i, e) && end == SkipDown(body, i, e)
    {
      start, end := i, e;
      while body[start] == ' '
        invariant i <= start <= e && SkipUp(body, start, e) == SkipUp(body, i, e)
        decreases e - start
      {
        start := start + 1;
      }
      while body[end - 1] == ' '
        invariant i <= end <= e && SkipDown(body, i, end) == SkipDown(body, i, e)
        decreases end
      {
        end := end - 1;
      }
    }

    method ReadNameOf(t: ActionType, i: nat, e: nat, next: nat, d: Delims) returns (r: Reading)
      requires 0 < i <= e < |body| && body[e] != ' ' && body[i - 1] != ' '
      ensures r == ReadName(body, t, i, e, next, d)
    {
      var start, end := Trim(i, e);
      r := if start > end then Blank else Good(Action(t, start, end, 0), next, d);
    }

    method ReadDelims(idx: nat, e: nat) returns (r: Option<Delims>)
      requires 0 < idx < e < |body| && body[e] != ' ' && body[idx] == '=' && body[e - 1] == '=' && body[idx - 1] != ' '
      ensures r == NewDelims(body, idx, e)
    {
      var i: nat, k: nat := idx + 1, e - 1;
      if e == idx + 1 {
        assert SkipUp(body, idx + 1, e) == idx + 1;
        return None;
      }
      i, k := Trim(idx + 1, e - 1);
      SkipUpStops(body, idx + 1, e - 1, e);
      r := SplitAtSpaces(if i < k then body[i..k] else "");
    }

    method SplitAtSpaces(t: string) returns (r: Option<Delims>)
      ensures r == SplitDelims(t)
    {
      var j: nat := 0;
      SpaceStands(t);
      while j < |t| && t[j] != ' '
        invariant j <= |t| && FindFrom(t, " ", 0) == FindFrom(t, " ", j)
      {
        j := j + 1;
      }
      if j == |t| {
        return None;
      }
      var m := j;
      while m < |t| && t[m] == ' '
        invariant j <= m <= |t| && SkipUp(t, j, |t|) == SkipUp(t, m, |t|)
      {
        m := m + 1;
      }
      return if ' ' in t[m..] then None else Some(Delims(t[..j], t[m..]));
    }

    method ReadTagAt(d: Delims, idx: nat, e: nat) returns (r: Reading)
      requires DelimsOK(d) && 0 < idx < e && StandsAt(body, d.close, e) && body[idx - 1] != ' '
      ensures r == ReadTag(body, d, idx, e)
    {
      assert body[e] == d.close[0] != ' ' by { assert body[e..e + |d.close|][0] == body[e]; }
      var next := e + |d.close|;
      match body[idx] {
        case '#' => r := ReadNameOf(OpenBlock, idx + 1, e, next, d);
        case '/' => r := ReadNameOf(CloseBlock, idx + 1, e, next, d);
        case '^' => r := ReadNameOf(ElseBlock, idx + 1, e, next, d);
        case '!' => r := Good(Action(Ignore, idx + 1, e, 0), next, d);
        case '>' => r := ReadNameOf(Partial, idx + 1, e, next, d);
        case '{' =>
          if d != MUSTACHES {
            r := Bad(TripleWithOtherDelimiters);
          } else if e + 2 == |body| || body[e + 2] != '}' {
            r := Bad(TripleNotClosed);
          } else {
            r := ReadNameOf(UnescapeTag, idx + 1, e, next + 1, d);
          }
        case '&' => r := ReadNameOf(UnescapeTag, idx + 1, e, next, d);
        case '=' =>
          if body[e - 1] != '=' {
            r := Bad(NoEqualsSign);
          } else {
            var d' := ReadDelims(idx, e);
            r := if d'.None? then Bad(BadDelimiters) else Good(Action(Ignore, idx + 1, e, 0), next, d'.value);
          }
        case _ => r := ReadNameOf(Tag, idx, e, next, d);
      }
    }

    /* ---- reading all of them ---- */

    /** Reads the tags of the text, one after the other. `texts` and `tags` are what was read. */
    method Scan()
      returns (o: Outcome, ghost texts: seq<Fragment>, ghost tags: seq<Action>, ghost delims: seq<Delims>,
          ghost opens: seq<nat>,
               ghost current: nat)
      requires fragments == [] && actions == []
      modifies this
      ensures HasRead(body, texts, tags, delims, opens, current)
      ensures StopsFor(body, delims[|tags|], current, tags, opens, o)
      ensures o.Compiled? ==>
        opens == [] && fragments == texts + [Fragment(current, |body|)] && actions == tags + [Action(Ignore, 0, 0, 0)]
    {
      hide Chain, OpenBlocks, NamesMatch, ReadTag, TagRead, DelimsOK, HasRead, FindFrom, StandsAt;
      var d := MUSTACHES;
      var blockPositions: seq<nat> := [];
      var position: nat := 0;
      delims := [MUSTACHES];
      ReadNothing(body);
      while true
        invariant HasRead(body, fragments, actions, delims, blockPositions, position)
        invariant ReadSoFar(body, fragments, actions, delims, blockPositions, position, d)
        decreases |body| - position
      {
        texts, tags, opens, current := fragments, actions, blockPositions, position;
        var open := FindFrom(body, d.open, position);
        if open.None? {
          fragments := fragments + [Fragment(position, |body|)];
          actions := actions + [Action(Ignore, 0, 0, 0)];
          o := if blockPositions == [] then Compiled else Unchecked;
          return;
        }
        AfterOpen(body, d, open.value);
        var idx := open.value + |d.open|;
        var endIdx := FindFrom(body, d.close, idx);
        if endIdx.None? { o := Invalid(NoClosingDelimiter); return; }
        if endIdx.value == idx { o := Invalid(EmptyTag); return; }
        StandsWithin(body, d.close, endIdx.value);
        var r := ReadTagAt(d, idx, endIdx.value);
        if r.Bad? { o := Invalid(r.why); return; }
        if r.Blank? { o := Unchecked; return; }
        var f := Fragment(position, open.value);
        ReadTagFits(body, d, idx, endIdx.value);
        if r.a.t == CloseBlock {
          if blockPositions == [] { o := Unchecked; return; }
          var b := blockPositions[|blockPositions| - 1];
          var matched := actions[b];
          if body[r.a.start..r.a.end] != body[matched.start..matched.end] { o := Invalid(WrongClose); return; }
          var a := r.a.(pos := b);
          TagIsRead(body, d, f, a, r.next, r.d);
          ReadClose(body, fragments, actions, delims, blockPositions, position, f, a, r.next, r.d);
          fragments := fragments + [f];
          actions := actions[b := matched.(pos := |actions|)] + [a];
          blockPositions := blockPositions[..|blockPositions| - 1];
        } else {
          TagIsRead(body, d, f, r.a, r.next, r.d);
          ReadOther(body, fragments, actions, delims, blockPositions, position, f, r.a, r.next, r.d);
          fragments := fragments + [f];
          if IsBlock(r.a.t) {
            blockPositions := blockPositions + [|actions|];
          }
          actions := actions + [r.a];
        }
        position, d := r.next, r.d;
        delims := delims + [d];
        ReadFacts(body, fragments, actions, delims, blockPositions, position);
      }
    }

    /* ---- removing standalones ---- */

    /** Tags that stand alone on a line take the line with them. */
    method RemoveStandalones()
      requires |fragments| == |actions| > 0 && FragmentsFit(body, fragments)
      modifies this
      ensures Compilation() == Trimmed(body, old(fragments), old(actions))
    {
      var i: int := |actions| - 2;
      while i >= 0
        invariant -1 <= i <= |actions| - 2
        invariant |fragments| == |actions| == |old(fragments)|
        invariant forall k | 0 <= k < |fragments| ::
          fragments[k] == PartlyTrimmed(body, old(fragments), old(actions), k, i)
        invariant forall k | 0 <= k < |actions| ::
          actions[k] == if k <= i then old(actions[k]) else IndentedAction(body, old(fragments), old(actions), k)
        decreases i
      {
        RemoveStandalone(old(fragments), old(actions), i);
        i := i - 1;
      }
      hide TrimmedFirst, TrimmedSecond, IndentedAction;
      assert fragments == Trimmed(body, old(fragments), old(actions)).fragments;
      assert actions == Trimmed(body, old(fragments), old(actions)).actions;
    }

    method RemoveStandalone(ghost fragments0: seq<Fragment>, ghost actions0: seq<Action>, i: nat)
      requires |fragments| == |actions| == |fragments0| == |actions0| && FragmentsFit(body, fragments0)
        && i + 1 < |fragments|
      requires forall k | 0 <= k < |fragments| :: fragments[k] == PartlyTrimmed(body, fragments0, actions0, k, i)
      requires forall k | 0 <= k < |actions| :: actions[k] == if k <= i then actions0[k]
        else IndentedAction(body, fragments0, actions0, k)
      modifies this
      ensures |fragments| == |actions| == |fragments0|
      ensures forall k | 0 <= k < |fragments| :: fragments[k] == PartlyTrimmed(body, fragments0, actions0, k, i - 1)
      ensures forall k | 0 <= k < |actions| :: actions[k] == if k < i then actions0[k]
        else IndentedAction(body, fragments0, actions0, k)
    {
      hide Standalone, TrimmedFirst, TrimmedSecond, IndentedAction, SkipDown;
      var alone, j, k := AloneOnLine(fragments0, actions0, i);
      TrimmedIs(body, fragments0, actions0, i);
      if alone {
        if actions[i].t == Partial {
          actions := actions[i := actions[i].(pos := fragments[i].second - j)];
        }
        fragments := fragments[i := fragments[i].(second := j)][i + 1 := fragments[i + 1].(first := k)];
      }
    }

    /** Whether the `i`-th tag stands alone; if so, where the fragments around it end and begin. */
    method AloneOnLine(ghost fragments0: seq<Fragment>, ghost actions0: seq<Action>, i: nat)
        returns (alone: bool, j: nat, k: nat)
      requires |fragments| == |actions| == |fragments0| == |actions0| && FragmentsFit(body, fragments0)
        && i + 1 < |fragments|
      requires fragments[i] == fragments0[i] && actions[i] == actions0[i]
      requires fragments[i + 1] == Fragment(fragments0[i + 1].first, TrimmedSecond(body, fragments0, actions0, i + 1))
      ensures alone == Standalone(body, fragments0, actions0, i)
      ensures alone ==> j == SkipDown(body, fragments0[i].first, fragments0[i].second)
      ensures alone ==> k == TrimmedFirst(body, fragments0, actions0, i + 1)
    {
      hide TrimmedSecond, BlankBefore, BlankAfter;
      j, k := 0, 0;
      if actions[i].t == Tag || actions[i].t == UnescapeTag {
        return false, j, k;
      }
      StillBlankAfter(body, fragments0, actions0, i + 1);
      alone, j := LineBefore(fragments0, i);
      if alone {
        alone, k := LineAfter(fragments0, i);
      }
      if alone { TrimmedFirstIs(body, fragments0, actions0, i + 1); }
    }

    method LineBefore(ghost fragments0: seq<Fragment>, i: nat) returns (blank: bool, j: nat)
      requires FragmentsFit(body, fragments0) && i < |fragments| == |fragments0| && fragments[i] == fragments0[i]
      ensures blank == BlankBefore(body, fragments0, i) && j == SkipDown(body, fragments[i].first, fragments[i].second)
    {
      var before := fragments[i];
      j := before.second;
      while j > before.first && body[j - 1] == ' '
        invariant before.first <= j <= before.second
          && SkipDown(body, before.first, j) == SkipDown(body, before.first, before.second)
      {
        j := j - 1;
      }
      blank := if j == before.first then i == 0 else body[j - 1] == '\n';
    }

    method LineAfter(ghost fragments0: seq<Fragment>, i: nat) returns (blank: bool, k: nat)
      requires FragmentsFit(body, fragments0) && i + 1 < |fragments| == |fragments0|
      requires var f, g := fragments[i + 1], fragments0[i + 1];
        && f.first == g.first <= f.second <= g.second
        && (SkipUp(body, f.first, f.second) == f.second <==> SkipUp(body, f.first, g.second) == g.second)
        && (SkipUp(body, f.first, f.second) < f.second ==>
          SkipUp(body, f.first, f.second) == SkipUp(body, f.first, g.second))
      ensures blank == BlankAfter(body, fragments0, i)
      ensures blank ==> k == AfterLine(body, fragments0[i + 1])
    {
      var after := fragments[i + 1];
      var isLastAction := i == |fragments| - 2;
      k := after.first;
      while k < |body| && k < after.second && body[k] == ' '
        invariant after.first <= k <= after.second
          && SkipUp(body, k, after.second) == SkipUp(body, after.first, after.second)
      {
        k := k + 1;
      }
      var allSpaceAfter := k == after.second;
      if allSpaceAfter && !isLastAction {
        return false, k;
      }
      if !allSpaceAfter && !(body[k] == '\n' || (body[k] == '\r' && k + 1 < |body| && body[k + 1] == '\n')) {
        return false, k;
      }
      if allSpaceAfter {
        k := after.first;
      } else {
        k := if body[k] == '\n' then k + 1 else k + 2;
      }
      blank := true;
    }

    /* ---- a whole template ---- */

    function Compilation(): Code
      reads this
    {
      Code(body, fragments, actions)
    }

    /** Compiles the text. What was read is told apart from what the pass over standalone tags made
        of it: `read` are the fragments and `tags` the actions before that pass. */
    method Compile() returns (o: Outcome, ghost read: seq<Fragment>, ghost tags: seq<Action>,
        ghost delims: seq<Delims>, ghost opens: seq<nat>)
      requires fragments == [] && actions == []
      modifies this
      ensures |read| > 0 && |delims| > 0
      ensures HasRead(body, read[..|read| - 1], tags, delims, opens, read[|read| - 1].first)
      ensures StopsFor(body, delims[|delims| - 1], read[|read| - 1].first, tags, opens, o)
      ensures read[|read| - 1].first <= |body|
      ensures Joined(body, read[..|read| - 1], read[|read| - 1].first, |read| - 1)
        + body[read[|read| - 1].first..] == body
      ensures o.Compiled? ==>
        && FragmentsFit(body, read) && read[|read| - 1].second == |body| && |read| == |tags| + 1
        && Compilation() == Trimmed(body, read, tags + [LAST])
        && |actions| == |tags| + 1 && Balanced(actions, 0, |tags|) && NamesMatch(body, actions)
        && (Compilation().InBounds() <==> forall k | 0 <= k < |read| :: !SplitsBreak(body, read, tags + [LAST], k))
    {
      hide Chain, OpenBlocks, NamesMatch, TagRead, DelimsOK, FindFrom, StandsAt, TrimmedFirst, TrimmedSecond,
          IndentedAction, SplitsBreak,
        StopsFor, Balanced, HasRead;
      ghost var texts, current;
      o, texts, tags, delims, opens, current := Scan();
      read := texts + [Fragment(current, |body|)];
      assert read[..|read| - 1] == texts;
      ReadFacts(body, texts, tags, delims, opens, current);
      ReadTiles(body, texts, tags, delims, opens, current);
      if !o.Compiled? { return; }
      ReadFits(body, texts, tags, delims, opens, current);
      RemoveStandalones();
      TrimmedFacts(body, texts, tags, delims, current, read);
    }

    /** Renders the template with a context. */
    method Render(root: Value) returns (ok: bool, text: string)
      requires Runnable(Compilation()) && |actions| > 0 && Balanced(actions, 0, |actions| - 1)
      ensures ok <==> Part(Compilation(), 0, |actions| - 1, [root], 0).Some?
      ensures ok ==> text == Part(Compilation(), 0, |actions| - 1, [root], 0).value
    {
      hide Part;
      var rendering := new Rendering(root);
      ok := rendering.RenderInternal(Compilation(), 0, |actions| - 1, 0);
      text := rendering.out;
    }
  }

  lemma {:induction false} SkipUpStops(body: string, i: nat, e: nat, e': nat)
    requires i <= e < e' <= |body| && body[e] != ' '
    ensures SkipUp(body, i, e) == SkipUp(body, i, e')
    decreases e - i
  {
    if i < e && body[i] == ' ' { SkipUpStops(body, i + 1, e, e'); }
  }

  lemma ReadFits(body: string, texts: seq<Fragment>, tags: seq<Action>, delims: seq<Delims>, opens: seq<nat>,
      current: nat)
    requires HasRead(body, texts, tags, delims, opens, current)
    ensures |texts| == |tags| && current <= |body| && FragmentsFit(body, texts + [Fragment(current, |body|)])
  {
    forall k | 0 <= k < |texts| ensures texts[k].first <= texts[k].second <= |body| {
      TagFits(body, delims[k], texts[k], tags[k], NextStart(texts, k, current), delims[k + 1]);
    }
  }

  /** The pass changes no action but the indentation of partials. */
  lemma StillBalanced(body: string, read: seq<Fragment>, texts: seq<Fragment>, tags: seq<Action>, delims: seq<Delims>,
      current: nat, actions: seq<Action>)
    requires HasRead(body, texts, tags, delims, [], current) && FragmentsFit(body, read)
    requires |read| == |tags| + 1 == |actions|
    requires forall k | 0 <= k < |actions| :: actions[k] == IndentedAction(body, read, tags + [LAST], k)
    ensures Balanced(actions, 0, |tags|) && NamesMatch(body, actions)
    ensures forall k | 0 <= k < |actions| :: actions[k].start <= actions[k].end <= |body|
  {
    hide Chain, Standalone;
    BalancedBut(tags, actions, 0, |tags|);
    assert forall k | 0 <= k < |tags| :: actions[k] == tags[k] || (actions[k].t == tags[k].t == Partial);
  }

  lemma {:induction false} BalancedBut(actions: seq<Action>, actions': seq<Action>, b: nat, e: nat)
    requires b <= e <= |actions| && e <= |actions'|
    requires forall k | b <= k < e :: actions'[k] == actions[k] || (actions'[k].t == actions[k].t == Partial)
    requires Balanced(actions, b, e)
    ensures Balanced(actions', b, e)
    decreases e - b
  {
    if b < e {
      if IsBlock(actions[b].t) {
        BalancedBut(actions, actions', b + 1, actions[b].pos);
        BalancedBut(actions, actions', actions[b].pos + 1, e);
      } else {
        BalancedBut(actions, actions', b + 1, e);
      }
    }
  }

  /** The text read is covered by its fragments and tags, without a gap or an overlap. */
  lemma ReadTiles(body: string, texts: seq<Fragment>, tags: seq<Action>, delims: seq<Delims>, opens: seq<nat>,
      current: nat)
    requires HasRead(body, texts, tags, delims, opens, current)
    ensures current <= |body| && Joined(body, texts, current, |texts|) + body[current..] == body
  {
    hide Joined, TagRead, DelimsOK, OpenBlocks, NamesMatch;
    Tiles(body, texts, tags, delims, current, |texts|);
    assert body[..current] + body[current..] == body;
  }

  lemma TrimmedFacts(body: string, texts: seq<Fragment>, tags: seq<Action>, delims: seq<Delims>, current: nat,
      read: seq<Fragment>)
    requires HasRead(body, texts, tags, delims, [], current) && FragmentsFit(body, read) && |read| == |tags| + 1
    ensures var code := Trimmed(body, read, tags + [LAST]);
      && |code.actions| == |tags| + 1 && Balanced(code.actions, 0, |tags|) && NamesMatch(body, code.actions)
      && (code.InBounds() <==> forall k | 0 <= k < |read| :: !SplitsBreak(body, read, tags + [LAST], k))
  {
    hide HasRead, Balanced, NamesMatch, TrimmedFirst, TrimmedSecond, IndentedAction, SplitsBreak;
    var code := Trimmed(body, read, tags + [LAST]);
    StillBalanced(body, read, texts, tags, delims, current, code.actions);
    BoundsOfAll(body, read, tags);
  }

  lemma BoundsOfAll(body: string, read: seq<Fragment>, tags: seq<Action>)
    requires FragmentsFit(body, read) && |read| == |tags| + 1
    requires var actions := Trimmed(body, read, tags + [LAST]).actions;
      forall k | 0 <= k < |actions| :: actions[k].start <= actions[k].end <= |body|
    ensures Trimmed(body, read, tags + [LAST]).InBounds()
      <==> forall k | 0 <= k < |read| :: !SplitsBreak(body, read, tags + [LAST], k)
  {
    hide TrimmedFirst, TrimmedSecond, SplitsBreak, IndentedAction;
    var code := Trimmed(body, read, tags + [LAST]);
    forall k | 0 <= k < |read|
      ensures code.fragments[k].first <= code.fragments[k].second <= |body|
        <==> !SplitsBreak(body, read, tags + [LAST], k)
    {
      BoundsExact(body, read, tags + [LAST], k);
      OnlyBlanksRemoved(body, read, tags + [LAST], k);
    }
  }

  /** As long as no opening delimiter begins with a line feed, every fragment keeps its bounds in
      order, and the template can be rendered. */
  lemma PlainDelimitersFit(body: string, texts: seq<Fragment>, tags: seq<Action>, delims: seq<Delims>, opens: seq<nat>,
      current: nat, k: nat)
    requires HasRead(body, texts, tags, delims, opens, current) && k <= |texts|
    requires forall d | d in delims && d.open != "" :: d.open[0] != '\n'
    ensures |texts| == |tags| && FragmentsFit(body, texts + [Fragment(current, |body|)])
    ensures !SplitsBreak(body, texts + [Fragment(current, |body|)], tags + [LAST], k)
  {
    hide Standalone, SplitsBreak, OpenBlocks, NamesMatch, TagRead, FindFrom;
    var read := texts + [Fragment(current, |body|)];
    ReadFits(body, texts, tags, delims, opens, current);
    var open := if k < |texts| then delims[k].open else "x";
    if k < |texts| {
      TagFits(body, delims[k], texts[k], tags[k], NextStart(texts, k, current), delims[k + 1]);
      CloseNotEmpty(delims[k]);
    }
    if SplitsBreak(body, read, tags + [LAST], k) {
      SplitNeedsLineFeed(body, read, tags + [LAST], k, open);
    }
  }

  /** It can go wrong: here the line feed after the first tag belongs to the second. The text is
      compiled, but the fragment between the two tags is then to reach from 12 to 11. */
  lemma SplitBreakExample()
    ensures var d := Delims("\n[", "]");
      var texts, tags := [Fragment(0, 0), Fragment(10, 11)], [Action(Ignore, 3, 8, 0), Action(Tag, 13, 14, 0)];
      var read := texts + [Fragment(15, 15)];
      && HasRead(EXAMPLE, texts, tags, [MUSTACHES, d, d], [], 15)
      && StopsFor(EXAMPLE, d, 15, tags, [], Compiled) && FragmentsFit(EXAMPLE, read)
      && SplitsBreak(EXAMPLE, read, tags + [LAST], 1)
      && var code := Trimmed(EXAMPLE, read, tags + [LAST]);
         code.fragments[1] == Fragment(12, 11) && !code.InBounds()
  {
    hide TagRead;
    var texts, tags := [Fragment(0, 0), Fragment(10, 11)], [Action(Ignore, 3, 8, 0), Action(Tag, 13, 14, 0)];
    FirstTagOfExample();
    SecondTagOfExample();
    assert Balanced(tags, 2, 2) && Balanced(tags, 1, 2);
    BreakOfExample();
    EndOfExample();
    assert texts + [Fragment(15, 15)] == [Fragment(0, 0), Fragment(10, 11), Fragment(15, 15)];
    assert tags + [LAST] == [tags[0], tags[1], LAST];
    hide SplitsBreak, TrimmedFirst, TrimmedSecond, StandsAt, Chain;
  }

  lemma EndOfExample()
    ensures FindFrom(EXAMPLE, "\n[", 15).None?
  {
  }

  lemma BreakOfExample()
    ensures SplitsBreak(EXAMPLE, [Fragment(0, 0), Fragment(10, 11), Fragment(15, 15)],
                        [Action(Ignore, 3, 8, 0), Action(Tag, 13, 14, 0), LAST], 1)
    ensures var read, actions := [Fragment(0, 0), Fragment(10, 11), Fragment(15, 15)],
                                 [Action(Ignore, 3, 8, 0), Action(Tag, 13, 14, 0), LAST];
      TrimmedFirst(EXAMPLE, read, actions, 1) == 12 && TrimmedSecond(EXAMPLE, read, actions, 1) == 11
  {
  }

  lemma FindIs(body: string, w: string, p: nat, q: nat)
    requires p <= q && StandsAt(body, w, q) && p <= |body| && forall k | p <= k < q :: !StandsAt(body, w, k)
    ensures FindFrom(body, w, p) == Some(q)
  {
  }

  const EXAMPLE := "{{=\n[ ]=}}\r\n[x]"

  lemma DelimsOfExample()
    ensures SplitDelims("\n[ ]") == Some(Delims("\n[", "]"))
  {
    hide FindFrom;
    var t := "\n[ ]";
    SpaceStands(t);
    FindIs(t, " ", 0, 2);
    assert SkipUp(t, 2, 4) == 3 && t[3..] == "]" && t[..2] == "\n[";
  }

  lemma NewDelimsOfExample()
    ensures NewDelims(EXAMPLE, 2, 8) == Some(Delims("\n[", "]"))
  {
    hide FindFrom, SplitDelims;
    DelimsOfExample();
    assert EXAMPLE[3..7] == "\n[ ]";
    assert SkipUp(EXAMPLE, 3, 8) == 3 && SkipDown(EXAMPLE, 3, 7) == 7;
  }

  lemma FirstTagOfExample()
    ensures TagRead(EXAMPLE, MUSTACHES, Fragment(0, 0), Action(Ignore, 3, 8, 0), 10, Delims("\n[", "]"))
  {
    hide FindFrom, NewDelims, ReadName;
    FindIs(EXAMPLE, "{{", 0, 0);
    forall k | 2 <= k < 8 ensures !StandsAt(EXAMPLE, "}}", k) {
      assert EXAMPLE[k..k + 2][0] != '}';
    }
    FindIs(EXAMPLE, "}}", 2, 8);
    NewDelimsOfExample();
  }

  lemma SecondTagOfExample()
    ensures TagRead(EXAMPLE, Delims("\n[", "]"), Fragment(10, 11), Action(Tag, 13, 14, 0), 15, Delims("\n[", "]"))
  {
    hide FindFrom, NewDelims;
    assert EXAMPLE[10..12][0] == '\r';
    FindIs(EXAMPLE, "\n[", 10, 11);
    assert EXAMPLE[13..14] == "x";
    FindIs(EXAMPLE, "]", 13, 14);
    assert SkipUp(EXAMPLE, 13, 14) == 13 && SkipDown(EXAMPLE, 13, 14) == 14;
  }
}
