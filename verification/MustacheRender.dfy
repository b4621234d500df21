/** Rendering: the action array is run with jumps, one shared stack of contexts and one output,
    and gives what the tree of nested blocks means. */
module MustacheRender {
  import opened Wrappers
  import opened JsonValue
  import opened MustacheTree

  /* ---- find_context ---- */

  /** The position of the first dot from `from` on. */
  function DotAt(name: string, from: nat): (d: nat)
    requires from <= |name|
    ensures from <= d <= |name| && (d < |name| ==> name[d] == '.') && forall k | from <= k < d :: name[k] != '.'
    decreases |name| - from
  {
    if from == |name| || name[from] == '.' then from else DotAt(name, from + 1)
  }

  lemma {:induction false} SplitFirst(name: string, d: nat)
    requires d <= |name| && (d < |name| ==> name[d] == '.') && forall k | 0 <= k < d :: name[k] != '.'
    ensures Split(name) == [name[..d]] + if d < |name| then Split(name[d + 1..]) else []
    decreases d
  {
    if d > 0 {
      SplitFirst(name[1..], d - 1);
      if d < |name| { assert name[1..][d..] == name[d + 1..]; }
      assert [name[0]] + name[1..][..d - 1] == name[..d];
    }
  }

  lemma SplitNext(name: string, front: seq<string>, start: nat)
    requires start <= |name|
    ensures var d := DotAt(name, start);
      front + Split(name[start..]) == front + [name[start..d]] + if d < |name| then Split(name[d + 1..]) else []
  {
    hide Split;
    var d := DotAt(name, start);
    var s := name[start..];
    SplitFirst(s, d - start);
    assert s[..d - start] == name[start..d];
    if d < |name| { assert s[d - start + 1..] == name[d + 1..]; }
  }

  method SplitName(name: string) returns (names: seq<string>)
    ensures names == Split(name)
  {
    hide Split, DotAt;
    names := [];
    var start: nat, dot := 0, DotAt(name, 0);
    assert name[0..] == name;
    while dot != |name|
      invariant start <= dot <= |name| && dot == DotAt(name, start)
      invariant names + Split(name[start..]) == Split(name)
      decreases |name| - dot
    {
      SplitNext(name, names, start);
      names := names + [name[start..dot]];
      start := dot + 1;
      dot := DotAt(name, start);
    }
    SplitNext(name, names, start);
    names := names + [name[start..dot]];
  }

  lemma SplitWithoutDot(name: string)
    requires DotAt(name, 0) == |name|
    ensures Split(name) == [name]
  {
    SplitFirst(name, |name|);
    assert name[..|name|] == name;
  }

  method WalkDown(view: Value, names: seq<string>) returns (found: bool, v: Value)
    ensures found == Walk(view, names).Some? && (found ==> v == Walk(view, names).value)
  {
    found, v := true, view;
    var k: nat := 0;
    assert names[0..] == names;
    while k < |names|
      invariant k <= |names| && found && Walk(view, names) == Walk(v, names[k..])
    {
      if v.Object? && names[k] in v.fields {
        v := v.fields[names[k]];
      } else {
        return false, v;
      }
      assert names[k..][1..] == names[k + 1..];
      k := k + 1;
    }
  }

  /** Looks a name up in the stack of contexts; an empty string stands in for what is not found. */
  method FindContext(name: string, stack: seq<Value>) returns (found: bool, v: Value)
    requires |stack| > 0
    ensures match Find(stack, name)
      case None => !found && v == Str("")
      case Some(x) => found && v == x
  {
    if name == "." {
      return true, stack[|stack| - 1];
    }
    var it: nat := |stack|;
    assert stack[..it] == stack;
    if DotAt(name, 0) == |name| {
      SplitWithoutDot(name);
      while it > 0
        invariant it <= |stack| && Lookup(stack, [name]) == Lookup(stack[..it], [name])
      {
        it := it - 1;
        assert stack[..it + 1][..it] == stack[..it];
        WalkOne(stack[it], name);
        if stack[it].Object? && name in stack[it].fields {
          return true, stack[it].fields[name];
        }
      }
    } else {
      var names := SplitName(name);
      while it > 0
        invariant it <= |stack| && Lookup(stack, names) == Lookup(stack[..it], names)
      {
        it := it - 1;
        assert stack[..it + 1][..it] == stack[..it];
        found, v := WalkDown(stack[it], names);
        if found { return; }
      }
    }
    return false, Str("");
  }

  lemma WalkOne(v: Value, key: string)
    ensures Walk(v, [key]) == if v.Object? && key in v.fields then Some(v.fields[key]) else None
  {
  }

  /* ---- escape ---- */

  lemma {:induction false} EscapeSplit(s: string, k: nat)
    requires k < |s|
    ensures Escape(s[..k + 1]) == Escape(s[..k]) + EscapeChar(s[k])
  {
    if k == 0 {
      assert s[..1] == [s[0]] && s[..1][1..] == "";
      assert Escape("") == "";
    } else {
      assert s[..k + 1][1..] == s[1..][..k] && s[..k][1..] == s[1..][..k - 1];
      EscapeSplit(s[1..], k - 1);
    }
  }

  method EscapeText(text: string) returns (out: string)
    ensures out == Escape(text)
  {
    out := "";
    for k := 0 to |text|
      invariant out == Escape(text[..k])
    {
      EscapeSplit(text, k);
      match text[k]
      case '&' => out := out + "&amp;";
      case '<' => out := out + "&lt;";
      case '>' => out := out + "&gt;";
      case '"' => out := out + "&quot;";
      case '\'' => out := out + "&#39;";
      case '/' => out := out + "&#x2F;";
      case _ => out := out + [text[k]];
    }
    assert text[..|text|] == text;
  }

  /** The character that an entity at the beginning of the text stands for, and its length. */
  function EntityAt(t: string): (char, nat)
    requires t != ""
    ensures 0 < EntityAt(t).1 <= |t|
  {
    if "&amp;" <= t then ('&', 5)
    else if "&lt;" <= t then ('<', 4)
    else if "&gt;" <= t then ('>', 4)
    else if "&quot;" <= t then ('"', 6)
    else if "&#39;" <= t then ('\'', 5)
    else if "&#x2F;" <= t then ('/', 6)
    else (t[0], 1)
  }

  /** Reads an escaped text back. */
  function Unescape(t: string): string
    decreases |t|
  {
    if t == "" then "" else [EntityAt(t).0] + Unescape(t[EntityAt(t).1..])
  }

  lemma EntityOf(c: char, t: string)
    requires EscapeChar(c) <= t
    ensures t != "" && EntityAt(t) == (c, |EscapeChar(c)|)
  {
    assert t[0] == EscapeChar(c)[0];
    if |EscapeChar(c)| > 2 {
      assert t[1] == EscapeChar(c)[1] && t[2] == EscapeChar(c)[2];
    }
  }

  lemma EscapedChar(c: char)
    ensures EscapeChar(c) != "" && forall x | x in EscapeChar(c) :: x !in "<>\"'/"
  {
  }

  /** Escaping loses nothing, and leaves none of the characters that HTML gives a meaning. */
  lemma {:induction false} EscapeExact(s: string)
    ensures Unescape(Escape(s)) == s
    ensures forall c | c in Escape(s) :: c !in "<>\"'/"
  {
    if s != "" {
      hide EscapeChar, EntityAt;
      var e, rest := EscapeChar(s[0]), Escape(s[1..]);
      EscapedChar(s[0]);
      EntityOf(s[0], e + rest);
      assert (e + rest)[|e|..] == rest;
      EscapeExact(s[1..]);
      assert s == [s[0]] + s[1..];
    }
  }
}
