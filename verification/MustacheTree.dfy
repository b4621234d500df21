/** Compiled templates: the flat array of actions with jump targets, the tree of nested blocks it
    stands for, and what that tree renders to. */
module MustacheTree {
  import opened Wrappers
  import opened JsonValue

  datatype ActionType = Ignore | Tag | UnescapeTag | OpenBlock | CloseBlock | ElseBlock | Partial

  /** The text from `start` to `end` is the name; `pos` is where the block closes. */
  datatype Action = Action(t: ActionType, start: nat, end: nat, pos: nat)

  datatype Fragment = Fragment(first: nat, second: nat)

  datatype Code = Code(body: string, fragments: seq<Fragment>, actions: seq<Action>) {
    predicate InBounds() {
      && |fragments| == |actions|
      && (forall k | 0 <= k < |fragments| :: fragments[k].first <= fragments[k].second <= |body|)
      && (forall k | 0 <= k < |actions| :: actions[k].start <= actions[k].end <= |body|)
    }

    function Name(k: nat): string
      requires InBounds() && k < |actions|
    {
      body[actions[k].start..actions[k].end]
    }
  }

  predicate IsBlock(t: ActionType) { t == OpenBlock || t == ElseBlock }

  /** From `b` to `e` every block closes before `e`, where its `pos` says, and blocks nest. */
  predicate Balanced(actions: seq<Action>, b: nat, e: nat)
    requires b <= e <= |actions|
    decreases e - b
  {
    b == e
    || if IsBlock(actions[b].t) then
         var p := actions[b].pos;
         b < p < e && actions[p].t == CloseBlock && actions[p].pos == b
         && Balanced(actions, b + 1, p) && Balanced(actions, p + 1, e)
       else actions[b].t != CloseBlock && Balanced(actions, b + 1, e)
  }

  /* ---- templates as trees ---- */

  datatype Item =
    | Nothing
    | Variable(name: string, escaped: bool)
    | Section(name: string, inverted: bool, inner: Template)

  datatype Template =
    | End(f: Fragment)
    | Piece(f: Fragment, item: Item, rest: Template)

  predicate Runnable(c: Code) {
    c.InBounds() && forall k | 0 <= k < |c.actions| :: c.actions[k].t != Partial
  }

  /** The tree of the actions from `b` to `e`, with the fragment at `e` last. */
  function Nest(c: Code, b: nat, e: nat): Template
    requires Runnable(c) && b <= e < |c.actions| && Balanced(c.actions, b, e)
    decreases e - b
  {
    if b == e then End(c.fragments[e])
    else
      var a := c.actions[b];
      if IsBlock(a.t) then
        Piece(c.fragments[b], Section(c.Name(b), a.t == ElseBlock, Nest(c, b + 1, a.pos)), Nest(c, a.pos + 1, e))
      else
        Piece(c.fragments[b], if a.t == Ignore then Nothing else Variable(c.Name(b), a.t == Tag), Nest(c, b + 1, e))
  }

  /* ---- looking up names ---- */

  /** The parts of a name between its dots. */
  function Split(name: string): (parts: seq<string>)
    ensures |parts| > 0
  {
    if name == "" then [""]
    else
      var rest := Split(name[1..]);
      if name[0] == '.' then [""] + rest else [[name[0]] + rest[0]] + rest[1..]
  }

  /** Follows a path of keys into a value. */
  function Walk(v: Value, path: seq<string>): Option<Value>
    decreases |path|
  {
    if path == [] then Some(v)
    else if v.Object? && path[0] in v.fields then Walk(v.fields[path[0]], path[1..])
    else None
  }

  /** The topmost context in which the whole path is there. */
  function Lookup(stack: seq<Value>, path: seq<string>): Option<Value>
    decreases |stack|
  {
    if stack == [] then None
    else
      var top := stack[|stack| - 1];
      if Walk(top, path).Some? then Walk(top, path) else Lookup(stack[..|stack| - 1], path)
  }

  function Find(stack: seq<Value>, name: string): Option<Value>
    requires |stack| > 0
  {
    if name == "." then Some(stack[|stack| - 1]) else Lookup(stack, Split(name))
  }

  /* ---- what a tree renders to ---- */

  function Cat(a: Option<string>, b: Option<string>): Option<string> {
    if a.Some? && b.Some? then Some(a.value + b.value) else None
  }

  function Spaces(n: nat): string {
    seq(n, _ => ' ')
  }

  function EscapeChar(c: char): string {
    match c
    case '&' => "&amp;" case '<' => "&lt;" case '>' => "&gt;" case '"' => "&quot;" case '\'' => "&#39;"
    case '/' => "&#x2F;" case _ => [c]
  }

  function Escape(s: string): string {
    if s == "" then "" else EscapeChar(s[0]) + Escape(s[1..])
  }

  /** A fragment, with each of its lines indented (but nothing after the end of the template). */
  function FragmentText(body: string, f: Fragment, indent: nat): string
    requires f.first <= f.second <= |body|
    decreases f.second - f.first
  {
    if f.first == f.second then ""
    else
      [body[f.first]] + (if body[f.first] == '\n' && f.first + 1 != |body| then Spaces(indent) else "")
      + FragmentText(body, Fragment(f.first + 1, f.second), indent)
  }

  /** A tag shows numbers and strings only; a name that is not found shows as nothing. */
  function VariableText(stack: seq<Value>, name: string, escaped: bool): Option<string>
    requires |stack| > 0
  {
    match Find(stack, name)
    case None => Some("")
    case Some(Number(text)) => Some(text)
    case Some(Str(s)) => Some(if escaped then Escape(s) else s)
    case Some(_) => None
  }

  /** How often, and with which contexts, the inside of a block is shown. */
  function Contexts(stack: seq<Value>, name: string, inverted: bool): seq<Value>
    requires |stack| > 0
  {
    match Find(stack, name)
    case None => if inverted then [Null] else []
    case Some(List(items)) => if !inverted then items else if items == [] then [Null] else []
    case Some(False) => if inverted then [Null] else []
    case Some(Null) => if inverted then [Null] else []
    case Some(v) => if inverted then [] else [v]
  }

  ghost predicate FitsTemplate(body: string, t: Template) {
    t.f.first <= t.f.second <= |body|
    && (t.Piece? ==> FitsTemplate(body, t.rest) && (t.item.Section? ==> FitsTemplate(body, t.item.inner)))
  }

  /** The text of a template, or a failure. */
  ghost function Meaning(body: string, t: Template, stack: seq<Value>, indent: nat): Option<string>
    requires |stack| > 0 && FitsTemplate(body, t)
    decreases t, 0
  {
    var text := Some(FragmentText(body, t.f, indent));
    match t
    case End(_) => text
    case Piece(_, Nothing, rest) => Cat(text, Meaning(body, rest, stack, indent))
    case Piece(_, Variable(name, escaped), rest) =>
      Cat(Cat(text, VariableText(stack, name, escaped)), Meaning(body, rest, stack, indent))
    case Piece(_, Section(name, inverted, inner), rest) =>
      // only the rounds of a list begin with the indentation
      var isList := !inverted && Find(stack, name).Some? && Find(stack, name).value.List?;
      Cat(Cat(text, Repeat(body, inner, stack, Contexts(stack, name, inverted), indent, isList)),
          Meaning(body, rest, stack, indent))
  }

  ghost function Repeat(body: string, inner: Template, stack: seq<Value>, contexts: seq<Value>, indent: nat,
      isList: bool): Option<string>
    requires |stack| > 0 && FitsTemplate(body, inner)
    decreases inner, 1, |contexts|
  {
    if contexts == [] then Some("")
    else
      Cat(Cat(Some(if isList then Spaces(indent) else ""), Meaning(body, inner, stack + [contexts[0]], indent)),
          Repeat(body, inner, stack, contexts[1..], indent, isList))
  }

  /* ---- facts ---- */

  lemma {:induction false} NestFits(c: Code, b: nat, e: nat)
    requires Runnable(c) && b <= e < |c.actions| && Balanced(c.actions, b, e)
    ensures FitsTemplate(c.body, Nest(c, b, e))
    decreases e - b
  {
    if b < e {
      if IsBlock(c.actions[b].t) {
        NestFits(c, b + 1, c.actions[b].pos);
        NestFits(c, c.actions[b].pos + 1, e);
      } else {
        NestFits(c, b + 1, e);
      }
    }
  }

  lemma CatAssociative(a: Option<string>, b: Option<string>, c: Option<string>)
    ensures Cat(Cat(a, b), c) == Cat(a, Cat(b, c))
  {
    if a.Some? && b.Some? && c.Some? {
      assert a.value + b.value + c.value == a.value + (b.value + c.value);
    }
  }
}
