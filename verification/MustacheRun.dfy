/** The interpreter of the action array. What is still to come, in the middle of a run with some
    blocks open, is stated as a text; every step moves a part of it to the output. */
module MustacheRun {
  import opened Wrappers
  import opened JsonValue
  import opened MustacheTree
  import opened MustacheRender

  /** In the middle of a run: `closes` are the ends of the blocks entered, the innermost last. */
  ghost predicate Inside(actions: seq<Action>, cur: nat, closes: seq<nat>, end: nat)
    decreases |closes|
  {
    if closes == [] then cur <= end < |actions| && Balanced(actions, cur, end)
    else
      var p := closes[|closes| - 1];
      cur <= p < |actions| && actions[p].t == CloseBlock && Balanced(actions, cur, p)
      && Inside(actions, p + 1, closes[..|closes| - 1], end)
  }

  lemma {:induction false} InsideEnd(actions: seq<Action>, cur: nat, closes: seq<nat>, end: nat)
    requires Inside(actions, cur, closes, end)
    ensures cur <= end < |actions| && (closes != [] ==> closes[|closes| - 1] < end)
    decreases |closes|
  {
    if closes != [] { InsideEnd(actions, closes[|closes| - 1] + 1, closes[..|closes| - 1], end); }
  }

  ghost function Part(c: Code, b: nat, e: nat, stack: seq<Value>, indent: nat): Option<string>
    requires Runnable(c) && b <= e < |c.actions| && Balanced(c.actions, b, e) && |stack| > 0
  {
    NestFits(c, b, e);
    Meaning(c.body, Nest(c, b, e), stack, indent)
  }

  /** The text still to come. */
  ghost function Rest(c: Code, cur: nat, closes: seq<nat>, end: nat, stack: seq<Value>, indent: nat): Option<string>
    requires Runnable(c) && Inside(c.actions, cur, closes, end) && |stack| > |closes|
    decreases |closes|
  {
    if closes == [] then Part(c, cur, end, stack, indent)
    else
      var p := closes[|closes| - 1];
      Cat(Part(c, cur, p, stack, indent), Rest(c, p + 1, closes[..|closes| - 1], end, stack[..|stack| - 1], indent))
  }

  ghost function Text(c: Code, k: nat, indent: nat): Option<string>
    requires Runnable(c) && k < |c.fragments|
  {
    Some(FragmentText(c.body, c.fragments[k], indent))
  }

  /** What a block at `k` shows. */
  ghost function BlockText(c: Code, k: nat, stack: seq<Value>, indent: nat): Option<string>
    requires Runnable(c) && k < |c.actions| && IsBlock(c.actions[k].t) && |stack| > 0
    requires k < c.actions[k].pos < |c.actions| && Balanced(c.actions, k + 1, c.actions[k].pos)
  {
    var inverted := c.actions[k].t == ElseBlock;
    NestFits(c, k + 1, c.actions[k].pos);
    Repeat(c.body, Nest(c, k + 1, c.actions[k].pos), stack, Contexts(stack, c.Name(k), inverted), indent,
        ShowsList(c, k, stack))
  }

  ghost predicate ShowsList(c: Code, k: nat, stack: seq<Value>)
    requires Runnable(c) && k < |c.actions| && |stack| > 0
  {
    c.actions[k].t != ElseBlock && Find(stack, c.Name(k)).Some? && Find(stack, c.Name(k)).value.List?
  }

  /* ---- the parts of a balanced stretch ---- */

  lemma PartSimple(c: Code, b: nat, e: nat, stack: seq<Value>, indent: nat)
    requires Runnable(c) && b < e < |c.actions| && Balanced(c.actions, b, e) && |stack| > 0 && !IsBlock(c.actions[b].t)
    ensures c.actions[b].t in {Ignore, Tag, UnescapeTag} && Balanced(c.actions, b + 1, e)
    ensures Part(c, b, e, stack, indent) ==
      Cat(if c.actions[b].t == Ignore then Text(c, b, indent)
          else Cat(Text(c, b, indent), VariableText(stack, c.Name(b), c.actions[b].t == Tag)),
          Part(c, b + 1, e, stack, indent))
  {
  }

  lemma PartBlock(c: Code, b: nat, e: nat, stack: seq<Value>, indent: nat)
    requires Runnable(c) && b < e < |c.actions| && Balanced(c.actions, b, e) && |stack| > 0 && IsBlock(c.actions[b].t)
    ensures var p := c.actions[b].pos;
      b < p < e && c.actions[p].t == CloseBlock && Balanced(c.actions, b + 1, p) && Balanced(c.actions, p + 1, e)
    ensures Part(c, b, e, stack, indent) ==
      Cat(Cat(Text(c, b, indent), BlockText(c, b, stack, indent)), Part(c, c.actions[b].pos + 1, e, stack, indent))
  {
  }

  lemma PartNone(c: Code, e: nat, stack: seq<Value>, indent: nat)
    requires Runnable(c) && e < |c.actions| && |stack| > 0
    ensures Part(c, e, e, stack, indent) == Text(c, e, indent)
  {
  }

  /* ---- what one action does to the text still to come ---- */

  lemma NextAction(c: Code, cur: nat, closes: seq<nat>, end: nat)
    requires Inside(c.actions, cur, closes, end) && cur < end
    ensures cur < |c.actions|
    ensures c.actions[cur].t == CloseBlock <==> closes != [] && cur == closes[|closes| - 1]
  {
  }

  lemma RestSimple(c: Code, cur: nat, closes: seq<nat>, end: nat, stack: seq<Value>, indent: nat)
    requires Runnable(c) && Inside(c.actions, cur, closes, end) && |stack| > |closes| && cur < end && cur < |c.actions|
    requires c.actions[cur].t != CloseBlock && !IsBlock(c.actions[cur].t)
    ensures c.actions[cur].t in {Ignore, Tag, UnescapeTag} && Inside(c.actions, cur + 1, closes, end)
    ensures Rest(c, cur, closes, end, stack, indent) ==
      Cat(Text(c, cur, indent),
          Cat(if c.actions[cur].t == Ignore then Some("")
              else VariableText(stack, c.Name(cur), c.actions[cur].t == Tag),
              Rest(c, cur + 1, closes, end, stack, indent)))
  {
    hide Part, Text, VariableText;
    var q := if closes == [] then end else closes[|closes| - 1];
    PartSimple(c, cur, q, stack, indent);
    var v := if c.actions[cur].t == Ignore then Some("") else VariableText(stack, c.Name(cur), c.actions[cur].t == Tag);
    CatNothing(Text(c, cur, indent));
    CatAssociative(Text(c, cur, indent), v, Part(c, cur + 1, q, stack, indent));
    if closes != [] {
      var tail := Rest(c, q + 1, closes[..|closes| - 1], end, stack[..|stack| - 1], indent);
      CatAssociative(Cat(Text(c, cur, indent), v), Part(c, cur + 1, q, stack, indent), tail);
    }
    CatAssociative(Text(c, cur, indent), v, Rest(c, cur + 1, closes, end, stack, indent));
  }

  lemma CatNothing(a: Option<string>)
    ensures Cat(a, Some("")) == a && Cat(Some(""), a) == a
  {
    if a.Some? { assert a.value + "" == a.value && "" + a.value == a.value; }
  }

  /** A block inside a stretch closes inside it. */
  lemma BlockAt(c: Code, cur: nat, closes: seq<nat>, end: nat)
    requires Runnable(c) && Inside(c.actions, cur, closes, end) && cur < end && cur < |c.actions|
      && IsBlock(c.actions[cur].t)
    ensures BlockFits(c, cur, closes, end) && c.actions[cur].pos < end
  {
    InsideEnd(c.actions, cur, closes, end);
  }

  ghost predicate BlockFits(c: Code, cur: nat, closes: seq<nat>, end: nat)
    requires cur < |c.actions|
  {
    var p := c.actions[cur].pos;
    cur < p < |c.actions| && c.actions[p].t == CloseBlock && Balanced(c.actions, cur + 1, p)
        && Inside(c.actions, p + 1, closes, end)
  }

  lemma RestBlock(c: Code, cur: nat, closes: seq<nat>, end: nat, stack: seq<Value>, indent: nat)
    requires Runnable(c) && Inside(c.actions, cur, closes, end) && |stack| > |closes| && cur < end && cur < |c.actions|
    requires IsBlock(c.actions[cur].t) && BlockFits(c, cur, closes, end)
    ensures Rest(c, cur, closes, end, stack, indent) ==
      Cat(Text(c, cur, indent),
          Cat(BlockText(c, cur, stack, indent), Rest(c, c.actions[cur].pos + 1, closes, end, stack, indent)))
  {
    hide Part, Text, BlockText;
    var q := if closes == [] then end else closes[|closes| - 1];
    InsideEnd(c.actions, cur, closes, end);
    PartBlock(c, cur, q, stack, indent);
    var p := c.actions[cur].pos;
    var v := BlockText(c, cur, stack, indent);
    CatAssociative(Text(c, cur, indent), v, Part(c, p + 1, q, stack, indent));
    if closes != [] {
      var tail := Rest(c, q + 1, closes[..|closes| - 1], end, stack[..|stack| - 1], indent);
      CatAssociative(Cat(Text(c, cur, indent), v), Part(c, p + 1, q, stack, indent), tail);
    }
    CatAssociative(Text(c, cur, indent), v, Rest(c, p + 1, closes, end, stack, indent));
  }

  /** Entering a block once, by pushing its context and going on. */
  lemma RestEnter(c: Code, cur: nat, closes: seq<nat>, end: nat, stack: seq<Value>, indent: nat, v: Value)
    requires Runnable(c) && |stack| > |closes| && cur < |c.actions| && IsBlock(c.actions[cur].t)
      && BlockFits(c, cur, closes, end)
    requires Contexts(stack, c.Name(cur), c.actions[cur].t == ElseBlock) == [v] && !ShowsList(c, cur, stack)
    ensures Inside(c.actions, cur + 1, closes + [c.actions[cur].pos], end)
    ensures Rest(c, cur + 1, closes + [c.actions[cur].pos], end, stack + [v], indent) ==
      Cat(BlockText(c, cur, stack, indent), Rest(c, c.actions[cur].pos + 1, closes, end, stack, indent))
  {
    var p := c.actions[cur].pos;
    assert (closes + [p])[..|closes|] == closes && (stack + [v])[..|stack|] == stack;
    RepeatOnce(c, cur, stack, indent, v);
  }

  lemma RepeatOnce(c: Code, cur: nat, stack: seq<Value>, indent: nat, v: Value)
    requires Runnable(c) && |stack| > 0 && cur < |c.actions| && IsBlock(c.actions[cur].t)
    requires var p := c.actions[cur].pos; cur < p < |c.actions| && Balanced(c.actions, cur + 1, p)
    requires Contexts(stack, c.Name(cur), c.actions[cur].t == ElseBlock) == [v] && !ShowsList(c, cur, stack)
    ensures BlockText(c, cur, stack, indent) == Part(c, cur + 1, c.actions[cur].pos, stack + [v], indent)
  {
    var p := c.actions[cur].pos;
    NestFits(c, cur + 1, p);
    assert [v][1..] == [];
    assert Repeat(c.body, Nest(c, cur + 1, p), stack, [], indent, false) == Some("");
    CatNothing(Part(c, cur + 1, p, stack + [v], indent));
    CatNothing(Cat(Some(""), Part(c, cur + 1, p, stack + [v], indent)));
  }

  lemma RestClose(c: Code, cur: nat, closes: seq<nat>, end: nat, stack: seq<Value>, indent: nat)
    requires Runnable(c) && Inside(c.actions, cur, closes, end) && |stack| > |closes| && closes != []
      && cur == closes[|closes| - 1]
    ensures Inside(c.actions, cur + 1, closes[..|closes| - 1], end)
    ensures Rest(c, cur, closes, end, stack, indent) ==
      Cat(Text(c, cur, indent), Rest(c, cur + 1, closes[..|closes| - 1], end, stack[..|stack| - 1], indent))
  {
  }

  lemma RestEnd(c: Code, cur: nat, closes: seq<nat>, end: nat, stack: seq<Value>, indent: nat)
    requires Runnable(c) && Inside(c.actions, cur, closes, end) && |stack| > |closes| && cur >= end
    ensures cur == end && closes == [] && Rest(c, cur, closes, end, stack, indent) == Text(c, end, indent)
  {
    InsideEnd(c.actions, cur, closes, end);
    PartNone(c, end, stack, indent);
  }

  /** The rounds of a list block for some of its items. */
  ghost function Rounds(c: Code, k: nat, stack: seq<Value>, items: seq<Value>, indent: nat): Option<string>
    requires Runnable(c) && k < |c.actions| && |stack| > 0
    requires k < c.actions[k].pos < |c.actions| && Balanced(c.actions, k + 1, c.actions[k].pos)
  {
    NestFits(c, k + 1, c.actions[k].pos);
    Repeat(c.body, Nest(c, k + 1, c.actions[k].pos), stack, items, indent, true)
  }

  lemma ListBlock(c: Code, k: nat, stack: seq<Value>, items: seq<Value>, indent: nat)
    requires Runnable(c) && k < |c.actions| && |stack| > 0 && c.actions[k].t == OpenBlock
    requires k < c.actions[k].pos < |c.actions| && Balanced(c.actions, k + 1, c.actions[k].pos)
    requires Find(stack, c.Name(k)) == Some(List(items))
    ensures BlockText(c, k, stack, indent) == Rounds(c, k, stack, items, indent)
  {
  }

  lemma RoundsNext(c: Code, k: nat, stack: seq<Value>, items: seq<Value>, indent: nat)
    requires Runnable(c) && k < |c.actions| && |stack| > 0
    requires k < c.actions[k].pos < |c.actions| && Balanced(c.actions, k + 1, c.actions[k].pos)
    ensures Rounds(c, k, stack, items, indent) ==
      if items == [] then Some("")
      else Cat(Cat(Some(Spaces(indent)), Part(c, k + 1, c.actions[k].pos, stack + [items[0]], indent)),
               Rounds(c, k, stack, items[1..], indent))
  {
  }

  lemma SkipBlock(c: Code, k: nat, stack: seq<Value>, indent: nat)
    requires Runnable(c) && k < |c.actions| && IsBlock(c.actions[k].t) && |stack| > 0
    requires k < c.actions[k].pos < |c.actions| && Balanced(c.actions, k + 1, c.actions[k].pos)
    requires Contexts(stack, c.Name(k), c.actions[k].t == ElseBlock) == []
    ensures BlockText(c, k, stack, indent) == Some("")
  {
  }

  /** Text moves from what is to come to the output. */
  lemma Emit(out: string, text: string, rest: Option<string>)
    ensures Cat(Some(out), Cat(Some(text), rest)) == Cat(Some(out + text), rest)
  {
    CatAssociative(Some(out), Some(text), rest);
  }

  lemma EmitTwo(out: string, a: string, b: string, rest: Option<string>)
    ensures Cat(Some(out), Cat(Cat(Some(a), Some(b)), rest)) == Cat(Some(out + a + b), rest)
  {
    Emit(out, a + b, rest);
    assert out + (a + b) == out + a + b;
  }

  /* ---- the interpreter ---- */

  lemma {:induction false} PlainFragment(body: string, f: Fragment)
    requires f.first <= f.second <= |body|
    ensures FragmentText(body, f, 0) == body[f.first..f.second]
    decreases f.second - f.first
  {
    if f.first < f.second {
      PlainFragment(body, Fragment(f.first + 1, f.second));
      assert body[f.first..f.second] == [body[f.first]] + body[f.first + 1..f.second];
    }
  }

  lemma {:induction false} FragmentSplit(body: string, f: Fragment, k: nat, indent: nat)
    requires f.first <= k < f.second <= |body|
    ensures FragmentText(body, Fragment(f.first, k + 1), indent) ==
      FragmentText(body, Fragment(f.first, k), indent) + [body[k]]
      + if body[k] == '\n' && k + 1 != |body| then Spaces(indent) else ""
    decreases k - f.first
  {
    if k > f.first {
      FragmentSplit(body, Fragment(f.first + 1, f.second), k, indent);
    }
  }

  lemma NoFragment(body: string, p: nat, indent: nat)
    requires p <= |body|
    ensures FragmentText(body, Fragment(p, p), indent) == ""
  {
  }

  lemma Joins(a: string, b: string, c: string, d: string)
    ensures a + (b + c + d) == a + b + c + d && a + b + c + "" == a + b + c
  {
  }


  /** The shared stack of contexts, and the output. */
  class Rendering {
    var stack: seq<Value>
    var out: string

    constructor (root: Value)
      ensures stack == [root] && out == ""
    {
      stack, out := [root], "";
    }

    method RenderFragment(body: string, f: Fragment, indent: nat)
      requires f.first <= f.second <= |body|
      modifies this`out
      ensures out == old(out) + FragmentText(body, f, indent)
    {
      hide FragmentText, Spaces;
      if indent != 0 {
        NoFragment(body, f.first, indent);
        var i := f.first;
        while i < f.second
          invariant f.first <= i <= f.second && out == old(out) + FragmentText(body, Fragment(f.first, i), indent)
        {
          ghost var done := FragmentText(body, Fragment(f.first, i), indent);
          ghost var margin := if body[i] == '\n' && i + 1 != |body| then Spaces(indent) else "";
          FragmentSplit(body, f, i, indent);
          Joins(old(out), done, [body[i]], margin);
          out := out + [body[i]];
          if body[i] == '\n' && i + 1 != |body| {
            out := out + Spaces(indent);
          }
          i := i + 1;
        }
      } else {
        PlainFragment(body, f);
        out := out + body[f.first..f.second];
      }
    }

    /** The output so far and the text still to come make up `whole`. */
    ghost predicate Going(c: Code, cur: nat, closes: seq<nat>, end: nat, indent: nat, stack0: seq<Value>,
        whole: Option<string>)
      reads this
    {
      && Runnable(c) && Inside(c.actions, cur, closes, end)
      && 0 < |stack0| && |stack| == |stack0| + |closes| && stack[..|stack0|] == stack0
      && Cat(Some(out), Rest(c, cur, closes, end, stack, indent)) == whole
    }

    lemma StartGoing(c: Code, begin: nat, end: nat, indent: nat, stack0: seq<Value>, whole: Option<string>)
      requires Runnable(c) && begin <= end < |c.actions| && Balanced(c.actions, begin, end) && |stack| > 0
      requires stack == stack0 && whole == Cat(Some(out), Part(c, begin, end, stack, indent))
      ensures Going(c, begin, [], end, indent, stack0, whole)
    {
    }

    /** A tag or a comment. */
    method RunSimple(c: Code, current: nat, ghost closes: seq<nat>, end: nat, indent: nat, ghost stack0: seq<Value>,
        ghost whole: Option<string>) returns (ok: bool)
      requires Going(c, current, closes, end, indent, stack0, whole) && current < end && current < |c.actions|
      requires c.actions[current].t != CloseBlock && !IsBlock(c.actions[current].t)
      modifies this`out
      ensures ok ==> Going(c, current + 1, closes, end, indent, stack0, whole)
      ensures !ok ==> whole.None?
    {
      hide Rest, Inside;
      RestSimple(c, current, closes, end, stack, indent);
      ghost var rest := Rest(c, current + 1, closes, end, stack, indent);
      var action := c.actions[current];
      ghost var v := if action.t == Ignore then Some("") else VariableText(stack, c.Name(current), action.t == Tag);
      Emit(out, FragmentText(c.body, c.fragments[current], indent), Cat(v, rest));
      RenderFragment(c.body, c.fragments[current], indent);
      if action.t == Ignore {
        CatNothing(rest);
        return true;
      }
      var found, ctx := FindContext(c.Name(current), stack);
      if v.Some? { Emit(out, v.value, rest); }
      match ctx {
        case Number(text) => out := out + text;
        case Str(text) =>
          var shown := text;
          if action.t == Tag { shown := EscapeText(text); }
          out := out + shown;
        case _ => return false;
      }
      return true;
    }

    /** The end of a block that was entered by pushing its context. */
    method RunClose(c: Code, current: nat, ghost closes: seq<nat>, end: nat, indent: nat, ghost stack0: seq<Value>,
        ghost whole: Option<string>)
      requires Going(c, current, closes, end, indent, stack0, whole) && closes != [] && current == closes[|closes| - 1]
      modifies this
      ensures Going(c, current + 1, closes[..|closes| - 1], end, indent, stack0, whole)
    {
      hide Rest, Inside;
      RestClose(c, current, closes, end, stack, indent);
      ghost var rest := Rest(c, current + 1, closes[..|closes| - 1], end, stack[..|stack| - 1], indent);
      Emit(out, FragmentText(c.body, c.fragments[current], indent), rest);
      RenderFragment(c.body, c.fragments[current], indent);
      stack := stack[..|stack| - 1];
    }

    /** Where a block begins: its inside is skipped, entered once, or run once per list item. */
    method RunBlock(c: Code, begin: nat, current: nat, ghost closes: seq<nat>, end: nat, indent: nat,
        ghost stack0: seq<Value>, ghost whole: Option<string>) returns (next: nat, ghost closes': seq<nat>, ok: bool)
      requires Going(c, current, closes, end, indent, stack0, whole) && begin <= current < end && current < |c.actions|
      requires IsBlock(c.actions[current].t)
      modifies this
      ensures ok ==> current < next && Going(c, next, closes', end, indent, stack0, whole)
      ensures !ok ==> whole.None?
      decreases end - begin, 0
    {
      hide Rest, Inside, BlockText;
      BlockAt(c, current, closes, end);
      RestBlock(c, current, closes, end, stack, indent);
      var pos := c.actions[current].pos;
      ghost var rest := Rest(c, pos + 1, closes, end, stack, indent);
      Emit(out, FragmentText(c.body, c.fragments[current], indent), Cat(BlockText(c, current, stack, indent), rest));
      RenderFragment(c.body, c.fragments[current], indent);
      var found, ctx := FindContext(c.Name(current), stack);
      ok := true;
      if c.actions[current].t == OpenBlock && found && ctx.List? {
        ghost var out1 := out;
        ok := RunList(c, current, ctx.items, indent);
        if ok { Emit(out1, BlockText(c, current, stack, indent).value, rest); }
        next, closes' := pos + 1, closes;
        return;
      }
      var entered, v := false, Null;
      if c.actions[current].t == ElseBlock {
        entered := !found || (ctx.List? && ctx.items == []) || ctx == False || ctx == Null;
      } else {
        entered, v := found && ctx != False && ctx != Null, ctx;
      }
      if entered {
        RestEnter(c, current, closes, end, stack, indent, v);
        stack := stack + [v];
        next, closes' := current + 1, closes + [pos];
      } else {
        SkipBlock(c, current, stack, indent);
        CatNothing(rest);
        next, closes' := pos + 1, closes;
      }
    }

    /** Runs the inside of a block once for every item of a list. */
    method RunList(c: Code, current: nat, items: seq<Value>, indent: nat) returns (ok: bool)
      requires Runnable(c) && |stack| > 0 && current < |c.actions| && c.actions[current].t == OpenBlock
      requires current < c.actions[current].pos < |c.actions|
        && Balanced(c.actions, current + 1, c.actions[current].pos)
      requires Find(stack, c.Name(current)) == Some(List(items))
      modifies this
      ensures ok <==> BlockText(c, current, old(stack), indent).Some?
      ensures ok ==> stack == old(stack) && out == old(out) + BlockText(c, current, stack, indent).value
      decreases c.actions[current].pos - current, 0
    {
      hide Balanced, Runnable, Part, Repeat, Find, Rounds, BlockText;
      var pos := c.actions[current].pos;
      ghost var whole := Cat(Some(out), Rounds(c, current, stack, items, indent));
      ListBlock(c, current, stack, items, indent);
      var it: nat := 0;
      assert items[0..] == items;
      while it < |items|
        invariant it <= |items| && stack == old(stack)
        invariant Cat(Some(out), Rounds(c, current, stack, items[it..], indent)) == whole
      {
        RoundsNext(c, current, stack, items[it..], indent);
        assert items[it..][1..] == items[it + 1..];
        ghost var out1 := out;
        ghost var rest := Rounds(c, current, stack, items[it + 1..], indent);
        stack := stack + [items[it]];
        ok := RenderInternal(c, current + 1, pos, indent);
        if !ok { return; }
        EmitTwo(out1, Spaces(indent), Part(c, current + 1, pos, stack, indent).value, rest);
        stack := stack[..|stack| - 1];
        it := it + 1;
      }
      RoundsNext(c, current, stack, items[it..], indent);
      CatNothing(Some(out));
      ok := true;
    }

    method RenderInternal(c: Code, begin: nat, end: nat, indent: nat) returns (ok: bool)
      requires Runnable(c) && begin <= end < |c.actions| && Balanced(c.actions, begin, end) && |stack| > 0
      modifies this
      ensures ok <==> Part(c, begin, end, old(stack), indent).Some?
      ensures ok ==> stack == old(stack) && out == old(out) + Spaces(indent) + Part(c, begin, end, stack, indent).value
      decreases end - begin, 1
    {
      hide Part, Rest, Inside;
      var current := begin;
      ghost var closes: seq<nat> := [];
      if indent != 0 {
        out := out + Spaces(indent);
      } else {
        assert old(out) == old(out) + Spaces(indent);
      }
      ghost var stack0, whole := stack, Cat(Some(out), Part(c, begin, end, stack, indent));
      StartGoing(c, begin, end, indent, stack0, whole);
      while current < end
        invariant begin <= current && Going(c, current, closes, end, indent, stack0, whole)
        decreases end - current
      {
        NextAction(c, current, closes, end);
        var action := c.actions[current];
        if IsBlock(action.t) {
          current, closes, ok := RunBlock(c, begin, current, closes, end, indent, stack0, whole);
          if !ok { return; }
        } else if action.t == CloseBlock {
          RunClose(c, current, closes, end, indent, stack0, whole);
          current, closes := current + 1, closes[..|closes| - 1];
        } else {
          ok := RunSimple(c, current, closes, end, indent, stack0, whole);
          if !ok { return; }
          current := current + 1;
        }
      }
      RestEnd(c, current, closes, end, stack, indent);
      RenderFragment(c.body, c.fragments[end], indent);
      ok := true;
    }
  }
}
