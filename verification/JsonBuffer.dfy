/** The buffer that holds a JSON text and everything read from it. */
module JsonBuffer {
  import opened Wrappers
  import opened JsonText
  import opened JsonRead
  import opened JsonLoad
  import opened JsonDump
  import opened JsonItems
  import V = JsonValue

  lemma {:induction false} NothingToResolve(raw: string)
    requires '\\' !in raw
    ensures WellEscaped(raw) && Unescape(raw) == raw
  {
    if raw != "" {
      NothingToResolve(raw[1..]);
      assert raw == [raw[0]] + raw[1..];
    }
  }

  /** In the middle of resolving a string: the write cursor is not past the read cursor, and what is
      written, with what is still to read, makes up the string. */
  ghost predicate Resolving(buf0: string, buf: string, start: nat, end: nat, tail: nat, head: nat) {
    && start <= tail <= head <= end < |buf0| == |buf|
    && (forall k | 0 <= k < |buf| && !(start <= k < tail) :: buf[k] == buf0[k])
    && WellEscaped(buf0[start..end]) && WellEscaped(buf0[head..end])
    && buf[start..tail] + Unescape(buf0[head..end]) == Unescape(buf0[start..end])
  }

  lemma StartResolving(buf: string, start: nat, end: nat)
    requires start <= end < |buf| && WellEscaped(buf[start..end])
    ensures Resolving(buf, buf, start, end, start, start)
  {
  }

  lemma FirstInBounds(buf0: string, buf: string, start: nat, end: nat, tail: nat, head: nat)
    requires Resolving(buf0, buf, start, end, tail, head) && head < end
    ensures start <= tail <= head < end < |buf0| == |buf|
    ensures buf0[head..end] == buf[head..end] && FirstLength(buf0[head..end]) > 0
  {
  }

  lemma AllResolved(buf0: string, buf: string, start: nat, end: nat, tail: nat)
    requires Resolving(buf0, buf, start, end, tail, end)
    ensures start <= tail <= end < |buf| == |buf0| && buf[start..tail] == Unescape(buf0[start..end])
    ensures forall k | 0 <= k < |buf| && !(start <= k < tail) :: buf[k] == buf0[k]
  {
  }

  lemma ResolvedOne(buf0: string, buf: string, buf': string, start: nat, end: nat, tail: nat, head: nat)
    requires Resolving(buf0, buf, start, end, tail, head) && head < end && FirstLength(buf0[head..end]) > 0
    requires var bytes := FirstBytes(buf0[head..end]);
      buf' == buf[..tail] + bytes + buf[tail + |bytes|..]
    ensures var raw := buf0[head..end];
      Resolving(buf0, buf', start, end, tail + |FirstBytes(raw)|, head + FirstLength(raw))
  {
    hide FirstLength, FirstBytes;
    var raw := buf0[head..end];
    var bytes, n := FirstBytes(raw), FirstLength(raw);
    assert raw[n..] == buf0[head + n..end];
    assert buf'[start..tail + |bytes|] == buf[start..tail] + bytes;
    assert buf[start..tail] + (bytes + Unescape(raw[n..])) == buf[start..tail] + bytes + Unescape(raw[n..]);
  }

  lemma StringEndAt(s: string, p: nat)
    requires Terminated(s) && p < |s|
    ensures s[p] == '"' ==> StringEnd(s, p) == Some(p)
    ensures s[p] == '\0' ==> StringEnd(s, p).None?
    ensures s[p] != '"' && s[p] != '\\' && s[p] != '\0' ==> p + 1 < |s| && StringEnd(s, p) == StringEnd(s, p + 1)
    ensures s[p] == '\\' ==>
      && p + 1 < |s|
      && if s[p + 1] == 'u' then
           && p + 2 < |s| && (IsHex(s[p + 2]) ==> p + 3 < |s|)
           && (IsHex(s[p + 2]) && IsHex(s[p + 3]) ==> p + 4 < |s|)
           && (IsHex(s[p + 2]) && IsHex(s[p + 3]) && IsHex(s[p + 4]) ==> p + 5 < |s|)
           && if IsHex(s[p + 2]) && IsHex(s[p + 3]) && IsHex(s[p + 4]) && IsHex(s[p + 5])
              then p + 6 < |s| && StringEnd(s, p) == StringEnd(s, p + 6) else StringEnd(s, p).None?
         else if IsSimpleEscape(s[p + 1]) then p + 2 < |s| && StringEnd(s, p) == StringEnd(s, p + 2)
         else StringEnd(s, p).None?
  {
  }

  lemma NumberEndAt(s: string, p: nat, state: NumberState)
    requires Terminated(s) && p < |s| && state != Invalid
    ensures !IsNumberChar(s[p]) ==>
      NumberEnd(s, p, state) == if state in {ZeroFirst, Digits, DigitsAfterPoints, DigitsAfterE} then Some(p) else None
    ensures IsNumberChar(s[p]) ==>
      p + 1 < |s| && NumberEnd(s, p, state) == NumberEnd(s, p + 1, NextState(state, s[p]))
  {
    hide NextState;
  }

  lemma DigitStates(state: NumberState, c: char)
    requires '1' <= c <= '9'
    ensures IsNumberChar(c) && NextState(state, c) in {Digits, DigitsAfterPoints, DigitsAfterE, Invalid}
  {
  }

  lemma NoNumber(s: string, p: nat)
    requires Terminated(s) && p < |s|
    ensures NumberEnd(s, p, Invalid).None?
  {
  }

  /** A digit leaves a state of digits as it is. */
  lemma MoreDigits(s: string, p: nat, state: NumberState)
    requires Terminated(s) && p < |s| && IsDigit(s[p])
    requires state in {Digits, DigitsAfterPoints, DigitsAfterE, Invalid}
    ensures p + 1 < |s| && NumberEnd(s, p, state) == NumberEnd(s, p + 1, state)
  {
  }

  class Buffer {
    const text: array<char>
    var data: nat

    constructor (src: string)
      ensures fresh(text) && data == 0 && text[..] == src + "\0"
    {
      var t := new char[|src| + 1](k requires 0 <= k <= |src| => if k < |src| then src[k] else '\0');
      text, data := t, 0;
      new;
      assert text[..] == src + "\0";
    }

    /* ---- unescape ---- */

    /** Resolves the escapes of a string in place, once; gives its new end. */
    method UnescapeAt(start: nat, end: nat, ghost t: string) returns (end': nat)
      requires StringIs(text[..], start, end, t)
      modifies text
      ensures start <= end' <= end && text[start..end'] == t && end' == start + |t|
      ensures text[start - 1] == '\0' && StringIs(text[..], start, end', t)
      ensures SameThere(old(text[..]), text[..], 0, start - 1)
        && SameThere(old(text[..]), text[..], end + 1, text.Length)
      ensures old(text[start - 1]) == '\0' ==> text[..] == old(text[..]) && end' == end
    {
      hide WellEscaped, Unescape;
      end' := end;
      if text[start - 1] != '\0' {
        ghost var buf0 := text[..];
        end' := ResolveAll(start, end);
        ghost var buf := text[..];
        AllResolved(buf0, buf, start, end, end');
        text[end'] := '\0';
        text[start - 1] := '\0';
        assert text[start..end'] == buf[start..end'];
      }
    }

    method ResolveAll(start: nat, end: nat) returns (tail: nat)
      requires 0 < start <= end < text.Length && WellEscaped(text[start..end])
      modifies text
      ensures Resolving(old(text[..]), text[..], start, end, tail, end)
    {
      hide Resolving, WellEscaped, Unescape, FirstLength, FirstBytes;
      ghost var buf0 := text[..];
      tail := start;
      var head := start;
      StartResolving(buf0, start, end);
      while head != end
        invariant start <= tail <= head <= end && Resolving(buf0, text[..], start, end, tail, head)
        decreases end - head
      {
        ghost var buf, head0, tail0 := text[..], head, tail;
        FirstInBounds(buf0, buf, start, end, tail, head);
        tail, head := ResolveOne(buf0[head..end], tail, head);
        ResolvedOne(buf0, buf, text[..], start, end, tail0, head0);
      }
    }

    /** Resolves the character at `head`, writing its bytes from `tail` on. */
    method ResolveOne(ghost raw: string, tail: nat, head: nat) returns (tail': nat, head': nat)
      requires tail <= head && head + |raw| <= text.Length && raw == text[head..head + |raw|] && raw != ""
        && FirstLength(raw) > 0
      modifies text
      ensures head' == head + FirstLength(raw) && tail' == tail + |FirstBytes(raw)|
      ensures text[..] == old(text[..tail]) + FirstBytes(raw) + old(text[tail'..])
    {
      assert forall k | 0 <= k < |raw| :: raw[k] == text[head + k];
      ghost var buf := text[..];
      tail', head' := tail, head;
      if text[head] == '\\' {
        head' := head + 1;
        if text[head'] == 'u' {
          var code := Hex4(text[head' + 1], text[head' + 2], text[head' + 3], text[head' + 4]);
          tail' := WriteCode(tail, code);
          head' := head' + 4;
        } else {
          text[tail'] := SimpleEscape(text[head']);
          tail' := tail' + 1;
          assert FirstBytes(raw) == [SimpleEscape(raw[1])];
          assert text[..] == buf[..tail] + [SimpleEscape(raw[1])] + buf[tail'..];
        }
      } else {
        text[tail'] := text[head];
        tail' := tail' + 1;
        assert FirstBytes(raw) == [raw[0]];
        assert text[..] == buf[..tail] + [raw[0]] + buf[tail'..];
      }
      head' := head' + 1;
    }

    method WriteCode(tail: nat, code: nat) returns (tail': nat)
      requires code < 0x10000 && tail + 3 <= text.Length
      modifies text
      ensures tail' == tail + |CodeBytes(code)|
      ensures text[..] == old(text[..tail]) + CodeBytes(code) + old(text[tail'..])
    {
      tail' := tail;
      if code >= 0x800 {
        text[tail'] := (0xE0 + code / 4096) as char;
        tail' := tail' + 1;
        text[tail'] := (0x80 + code / 64 % 64) as char;
        tail' := tail' + 1;
        text[tail'] := (0x80 + code % 64) as char;
        tail' := tail' + 1;
      } else if code >= 0x80 {
        text[tail'] := (0xC0 + code / 64) as char;
        tail' := tail' + 1;
        text[tail'] := (0x80 + code % 64) as char;
        tail' := tail' + 1;
      } else {
        text[tail'] := code as char;
        tail' := tail' + 1;
      }
    }

    /* ---- the parser ---- */

    /** From the cursor on, the buffer is still the text that was given. */
    ghost predicate Reading(s: string)
      reads this, text
    {
      text.Length == |s| && Terminated(s) && data < |s| && text[data..] == s[data..]
    }

    method WsSkip(ghost s: string)
      requires Reading(s)
      modifies this`data
      ensures Reading(s) && data == SkipSpaces(s, old(data))
    {
      while text[data] == ' ' || text[data] == '\t' || text[data] == '\r' || text[data] == '\n'
        invariant Reading(s) && old(data) <= data && SkipSpaces(s, data) == SkipSpaces(s, old(data))
        decreases |s| - data
      {
        assert text[data..][0] == s[data];
        data := data + 1;
        assert text[data..] == s[data..];
      }
      assert text[data..][0] == s[data];
    }

    method Consume(c: char, ghost s: string) returns (ok: bool)
      requires Reading(s) && c != '\0'
      modifies this`data
      ensures Reading(s) && ok == (s[old(data)] == c) && data == if ok then old(data) + 1 else old(data)
    {
      assert text[data..][0] == s[data];
      ok := text[data] == c;
      if ok {
        data := data + 1;
        assert text[data..] == s[data..];
      }
    }

    /** The loop over the inside of a string, to its closing quote. */
    method StringLoop(ghost s: string) returns (ok: bool, hasEscaping: bool)
      requires Reading(s)
      modifies this`data
      ensures ok == StringEnd(s, old(data)).Some?
      ensures ok ==> Reading(s) && data == StringEnd(s, old(data)).value
      ensures ok && !hasEscaping ==> '\\' !in s[old(data)..data]
    {
      hide Reading, StringEnd, IsSimpleEscape;
      hasEscaping := false;
      AtCursor(s);
      while true
        invariant Reading(s) && Terminated(s) && old(data) <= data < |s|
        invariant StringEnd(s, data) == StringEnd(s, old(data))
        invariant !hasEscaping ==> '\\' !in s[old(data)..data]
        decreases |s| - data
      {
        Ahead(s);
        StringEndAt(s, data);
        if text[data] != '"' && text[data] != '\\' && text[data] != '\0' {
          Skip(1, s);
        } else if text[data] == '"' {
          return true, hasEscaping;
        } else if text[data] == '\\' {
          hasEscaping := true;
          if text[data + 1] == 'u' {
            if !(IsHex(text[data + 2]) && IsHex(text[data + 3]) && IsHex(text[data + 4]) && IsHex(text[data + 5])) {
              return false, hasEscaping;
            }
            Skip(6, s);
          } else if IsSimpleEscape(text[data + 1]) {
            Skip(2, s);
          } else {
            return false, hasEscaping;
          }
        } else {
          return false, hasEscaping;
        }
      }
    }

    /** What decoding a string leaves behind. */
    ghost predicate StringDecoded(s: string, p: nat, before: string, r: Option<(nat, nat)>)
      requires Terminated(s) && p < |s|
      reads this, text
    {
      if s[p] != '"' || StringEnd(s, p + 1).None? then r.None?
      else
        && r == Some((p + 1, StringEnd(s, p + 1).value)) && Reading(s) && data == r.value.1 + 1
        && StringIs(text[..], p + 1, r.value.1, StringText(s, p + 1)) && SameThere(before, text[..], 0, p)
    }

    method DecodeString(ghost s: string) returns (r: Option<(nat, nat)>)
      requires Reading(s)
      modifies this`data, text
      ensures StringDecoded(s, old(data), old(text[..]), r)
    {
      hide StringEnd, WellEscaped, Unescape, FirstLength;
      ghost var p := data;
      var quoted := Consume('"', s);
      if !quoted {
        return None;
      }
      var start := data;
      var ok, hasEscaping := StringLoop(s);
      if !ok {
        return None;
      }
      assert text[start..data] == s[start..data];
      StringIsEscaped(s, start);
      if !hasEscaping { NothingToResolve(s[start..data]); }
      ghost var buf := text[..];
      text[data] := '\0';
      text[start - 1] := if hasEscaping then 1 as char else '\0';
      data := data + 1;
      assert text[start..data - 1] == s[start..data - 1];
      assert buf[data..] == s[data..] by { assert buf[data - 1..][1..] == s[data - 1..][1..]; }
      assert text[data..] == buf[data..];
      r := Some((start, data - 1));
    }

    method DecodeNumber(ghost s: string) returns (r: Option<(nat, nat)>)
      requires Reading(s)
      modifies this`data
      ensures match NumberEnd(s, old(data), Minus)
        case None => r.None?
        case Some(e) => r == Some((old(data), e)) && data == e && Reading(s)
    {
      hide Reading, NumberEnd, NextState, IsNumberChar;
      var start := data;
      var state := Minus;
      AtCursor(s);
      while state != Invalid
        invariant Reading(s) && Terminated(s) && start <= data < |s|
        invariant NumberEnd(s, data, state) == NumberEnd(s, start, Minus)
        decreases |s| - data
      {
        AtCursor(s);
        NumberEndAt(s, data, state);
        if !IsNumberChar(text[data]) {
          if state == ZeroFirst || state == Digits || state == DigitsAfterPoints || state == DigitsAfterE {
            return Some((start, data));
          } else {
            return None;
          }
        }
        ghost var before := state;
        state := NextState(state, text[data]);
        if '1' <= text[data] <= '9' {
          DigitStates(before, text[data]);
          SkipDigits(s, state);
        }
        Skip(1, s);
      }
      NoNumber(s, data);
      return None;
    }

    /** Goes to the last of a row of digits. */
    method SkipDigits(ghost s: string, ghost state: NumberState)
      requires Reading(s) && data + 1 < |s| && state in {Digits, DigitsAfterPoints, DigitsAfterE, Invalid}
      modifies this`data
      ensures Reading(s) && old(data) <= data && data + 1 < |s|
        && NumberEnd(s, data + 1, state) == NumberEnd(s, old(data) + 1, state)
    {
      hide Reading, NumberEnd, NextState, IsNumberChar;
      Ahead(s);
      while '0' <= text[data + 1] <= '9'
        invariant Reading(s) && Terminated(s) && old(data) <= data && data + 1 < |s| == text.Length
        invariant text[data + 1] == s[data + 1] && NumberEnd(s, data + 1, state) == NumberEnd(s, old(data) + 1, state)
        decreases |s| - data
      {
        MoreDigits(s, data + 1, state);
        Skip(1, s);
        Ahead(s);
      }
    }

    /** What decoding a value leaves behind: the handle stands for the document read, within the part
        of the buffer it was read from; nothing before that part is touched. */
    ghost predicate Decoded(s: string, p: nat, before: string, expected: Option<(Doc, nat)>, r: Option<RValue>)
      reads this, text
    {
      match expected
      case None => r.None?
      case Some(v) =>
        r.Some? && Reading(s) && data == v.1 && p < data && Holds(text[..], r.value, v.0, p, data)
            && SameThere(before, text[..], 0, p)
    }

    method DecodeValue(ghost s: string) returns (r: Option<RValue>)
      requires Reading(s)
      modifies this`data, text
      ensures Decoded(s, old(data), old(text[..]), ReadValue(s, old(data)), r)
      decreases |s| - data, 1
    {
      hide Holds, StringIs, StringEnd, StringText, NumberEnd, ReadItems, ReadEntries;
      ghost var p := data;
      Ahead(s);
      match text[data] {
        case '[' => r := DecodeList(s);
        case '{' => r := DecodeObject(s);
        case '"' =>
          var q := DecodeString(s);
          r := if q.Some? then Some(RString(q.value.0, q.value.1)) else None;
          if r.Some? { StringHolds(text[..], r.value, StringText(s, p + 1), p, data); }
        case 't' => r := DecodeTrue(s);
        case 'f' => r := DecodeFalse(s);
        case 'n' => r := DecodeNull(s);
        case _ =>
          var q := DecodeNumber(s);
          r := if q.Some? then Some(RNumber(q.value.0, q.value.1)) else None;
          if r.Some? {
            assert text[p..data] == s[p..data];
            NumberHolds(text[..], r.value, p, data);
          }
      }
      assert r.Some? ==> text[data..] == s[data..];
    }

    method DecodeTrue(ghost s: string) returns (r: Option<RValue>)
      requires Reading(s) && s[data] == 't'
      modifies this`data
      ensures Decoded(s, old(data), old(text[..]), ReadValue(s, old(data)), r)
    {
      hide Holds;
      ghost var p := data;
      Ahead(s);
      SpellTrue(s, p);
      if text[data + 1] == 'r' && text[data + 2] == 'u' && text[data + 3] == 'e' {
        Skip(4, s);
        AtCursor(s);
        WordHolds(text[..], RTrue, Yes, p, data);
        return Some(RTrue);
      }
      return None;
    }

    method DecodeFalse(ghost s: string) returns (r: Option<RValue>)
      requires Reading(s) && s[data] == 'f'
      modifies this`data
      ensures Decoded(s, old(data), old(text[..]), ReadValue(s, old(data)), r)
    {
      hide Holds;
      ghost var p := data;
      Ahead(s);
      SpellFalse(s, p);
      if text[data + 1] == 'a' && text[data + 2] == 'l' && text[data + 3] == 's' && text[data + 4] == 'e' {
        Skip(5, s);
        AtCursor(s);
        WordHolds(text[..], RFalse, No, p, data);
        return Some(RFalse);
      }
      return None;
    }

    method DecodeNull(ghost s: string) returns (r: Option<RValue>)
      requires Reading(s) && s[data] == 'n'
      modifies this`data
      ensures Decoded(s, old(data), old(text[..]), ReadValue(s, old(data)), r)
    {
      hide Holds;
      ghost var p := data;
      Ahead(s);
      SpellNull(s, p);
      if text[data + 1] == 'u' && text[data + 2] == 'l' && text[data + 3] == 'l' {
        Skip(4, s);
        AtCursor(s);
        WordHolds(text[..], RNull, Nothing, p, data);
        return Some(RNull);
      }
      return None;
    }

    lemma AtCursor(s: string)
      requires Reading(s)
      ensures data < |s| == text.Length && Terminated(s) && text[data] == s[data]
    {
    }

    lemma Ahead(s: string)
      requires Reading(s)
      ensures data < |s| == text.Length && Terminated(s) && forall k | data <= k < |s| :: text[k] == s[k]
    {
      assert forall k | data <= k < |s| :: text[k] == text[data..][k - data] == s[k];
    }

    /** Moves the cursor on, inside the text. */
    method Skip(n: nat, ghost s: string)
      requires Reading(s) && data + n < |s|
      modifies this`data
      ensures Reading(s) && data == old(data) + n
    {
      StillText(text[..], s, data, n);
      data := data + n;
      assert text[data..] == text[..][data..];
    }

    method DecodeList(ghost s: string) returns (r: Option<RValue>)
      requires Reading(s)
      modifies this`data, text
      ensures if s[old(data)] != '[' then r.None? else Decoded(s, old(data), old(text[..]), ReadValue(s, old(data)), r)
      decreases |s| - data, 0
    {
      hide Holds, HoldsItems, ReadItems, ReadEntries, StringEnd, NumberEnd, SkipSpaces;
      ghost var p := data;
      var ok := Consume('[', s);
      if !ok { return None; }
      WsSkip(s);
      AtCursor(s);
      if text[data] == ']' {
        Skip(1, s);
        ListHolds(text[..], [], [], [p], p, data);
        return Some(RList([]));
      }
      ghost var start := data;
      var items;
      ghost var cuts;
      ok, items, cuts := DecodeItems(s);
      if !ok { return None; }
      ghost var ds := ReadItems(s, start).value.0;
      ItemsSame(text[..], text[..], items, ds, cuts, start, data, p, data);
      ListHolds(text[..], items, ds, cuts, p, data);
      return Some(RList(items));
    }

    /** What has been read since `start` is in the container; the rest of the items is still to come. */
    ghost predicate ItemsGoing(s: string, start: nat, before: string, l: Items<RValue>, ds: seq<Doc>, cuts: seq<nat>)
      reads this, text, l, l.l
    {
      && l.Valid() && Reading(s) && Terminated(s) && start <= data < |s| && SameThere(before, text[..], 0, start)
      && ReadItems(s, start) == WithItems(ds, ReadItems(s, data))
      && HoldsItems(text[..], l.Contents(), ds, cuts, start, data)
    }

    /** The last item and the closing bracket have been read. */
    ghost predicate ItemsGoingOver(s: string, start: nat, before: string, l: Items<RValue>, ds: seq<Doc>,
        cuts: seq<nat>)
      reads this, text, l, l.l
    {
      && l.Valid() && Reading(s) && Terminated(s) && start < data < |s| && SameThere(before, text[..], 0, start)
      && ReadItems(s, start) == Some((ds, data))
      && HoldsItems(text[..], l.Contents(), ds, cuts, start, data)
    }

    /** One round of the loop: an item, and the comma or bracket behind it. */
    method DecodeItem(l: Items<RValue>, ghost s: string, ghost start: nat, ghost before: string, ghost ds: seq<Doc>,
        ghost cuts: seq<nat>)
      returns (ok: bool, last: bool, ghost ds': seq<Doc>, ghost cuts': seq<nat>)
      requires ItemsGoing(s, start, before, l, ds, cuts)
      modifies this`data, text, l, l.l
      ensures l.l == old(l.l) || fresh(l.l)
      ensures !ok ==> ReadItems(s, start).None?
      ensures ok && !last ==> ItemsGoing(s, start, before, l, ds', cuts') && old(data) < data
      ensures ok && last ==> ItemsGoingOver(s, start, before, l, ds', cuts')
      decreases |s| - data, 2
    {
      hide Holds, HoldsItems, ReadValue, ReadItems, ReadEntries, SkipSpaces, Reading, SameThere;
      ghost var cur, buf := data, text[..];
      ItemsAfter(s, start, cur, ds);
      ok, last, ds', cuts' := false, false, ds, cuts;
      var v := DecodeValue(s);
      if v.None? { return; }
      AtCursor(s);
      ghost var d, q := ReadValue(s, cur).value.0, data;
      StillSame(before, buf, text[..], start, cur);
      ItemStays(buf, text[..], l.Contents(), ds, cuts, start, cur, v.value, d, q);
      l.EmplaceBack(v.value);
      ds', cuts' := ds + [d], cuts + [q];
      WsSkip(s);
      AtCursor(s);
      if text[data] == ']' {
        Skip(1, s);
        AtCursor(s);
        ok, last := true, true;
      } else {
        ok := Consume(',', s);
        if !ok { return; }
        WsSkip(s);
        AtCursor(s);
      }
      MoreRoomForItems(text[..], l.Contents(), ds', cuts', start, q, data);
    }

    /** The loop over the items of a list. */
    method DecodeItems(ghost s: string) returns (ok: bool, items: seq<RValue>, ghost cuts: seq<nat>)
      requires Reading(s)
      modifies this`data, text
      ensures ok == ReadItems(s, old(data)).Some?
      ensures ok ==>
        && Reading(s) && data == ReadItems(s, old(data)).value.1 && old(data) < data
        && SameThere(old(text[..]), text[..], 0, old(data))
        && HoldsItems(text[..], items, ReadItems(s, old(data)).value.0, cuts, old(data), data)
      decreases |s| - data, 3
    {
      hide Holds, HoldsItems, ReadValue, ReadItems, ReadEntries, SkipSpaces, Reading, SameThere;
      ghost var start, before := data, text[..];
      AtCursor(s);
      var l := new Items<RValue>();
      ghost var ds: seq<Doc> := [];
      cuts := [start];
      ItemsStart(text[..], s, start, start);
      SameAsBefore(before, start);
      while true
        invariant fresh(l) && fresh(l.l) && ItemsGoing(s, start, before, l, ds, cuts)
        decreases |s| - data
      {
        var last;
        ok, last, ds, cuts := DecodeItem(l, s, start, before, ds, cuts);
        if !ok { return false, [], cuts; }
        if last { return true, l.Contents(), cuts; }
      }
    }

    method DecodeObject(ghost s: string) returns (r: Option<RValue>)
      requires Reading(s)
      modifies this`data, text
      ensures if s[old(data)] != '{' then r.None? else Decoded(s, old(data), old(text[..]), ReadValue(s, old(data)), r)
      decreases |s| - data, 0
    {
      hide Holds, HoldsEntries, ReadItems, ReadEntries, StringEnd, NumberEnd, SkipSpaces;
      ghost var p := data;
      var ok := Consume('{', s);
      if !ok { return None; }
      WsSkip(s);
      AtCursor(s);
      if text[data] == '}' {
        Skip(1, s);
        ObjectHolds(text[..], [], [], [p], p, data);
        return Some(RObject([]));
      }
      ghost var start := data;
      var entries;
      ghost var cuts;
      ok, entries, cuts := DecodeEntries(s);
      if !ok { return None; }
      ghost var ds := ReadEntries(s, start).value.0;
      EntriesSame(text[..], text[..], entries, ds, cuts, start, data, p, data);
      ObjectHolds(text[..], entries, ds, cuts, p, data);
      return Some(RObject(entries));
    }

    /** What has been read since `start` is in the container; the rest of the entries is still to come. */
    ghost predicate EntriesGoing(s: string, start: nat, before: string, l: Items<REntry>, ds: seq<(string, Doc)>,
        cuts: seq<nat>)
      reads this, text, l, l.l
    {
      && l.Valid() && Reading(s) && Terminated(s) && start <= data < |s| && SameThere(before, text[..], 0, start)
      && ReadEntries(s, start) == WithEntries(ds, ReadEntries(s, data))
      && HoldsEntries(text[..], l.Contents(), ds, cuts, start, data)
    }

    /** The last entry and the closing bracket have been read. */
    ghost predicate EntriesGoingOver(s: string, start: nat, before: string, l: Items<REntry>, ds: seq<(string, Doc)>,
        cuts: seq<nat>)
      reads this, text, l, l.l
    {
      && l.Valid() && Reading(s) && Terminated(s) && start < data < |s| && SameThere(before, text[..], 0, start)
      && ReadEntries(s, start) == Some((ds, data))
      && HoldsEntries(text[..], l.Contents(), ds, cuts, start, data)
    }

    /** One round of the loop: an entry, and the comma or bracket behind it. */
    method DecodeOneEntry(l: Items<REntry>, ghost s: string, ghost start: nat, ghost before: string,
        ghost ds: seq<(string, Doc)>, ghost cuts: seq<nat>)
      returns (ok: bool, last: bool, ghost ds': seq<(string, Doc)>, ghost cuts': seq<nat>)
      requires EntriesGoing(s, start, before, l, ds, cuts)
      modifies this`data, text, l, l.l
      ensures l.l == old(l.l) || fresh(l.l)
      ensures !ok ==> ReadEntries(s, start).None?
      ensures ok && !last ==> EntriesGoing(s, start, before, l, ds', cuts') && old(data) < data
      ensures ok && last ==> EntriesGoingOver(s, start, before, l, ds', cuts')
      decreases |s| - data, 3
    {
      hide Holds, HoldsEntry, HoldsEntries, ReadValue, ReadEntry, ReadEntries, SkipSpaces, Reading, SameThere;
      ghost var cur, buf := data, text[..];
      EntriesAfter(s, start, cur, ds);
      ok, last, ds', cuts' := false, false, ds, cuts;
      var v := DecodeEntry(s);
      if v.None? { return; }
      AtCursor(s);
      ghost var d, q := (ReadEntry(s, cur).value.0, ReadEntry(s, cur).value.1), data;
      StillSame(before, buf, text[..], start, cur);
      EntryStays(buf, text[..], l.Contents(), ds, cuts, start, cur, v.value, d, q);
      l.EmplaceBack(v.value);
      ds', cuts' := ds + [d], cuts + [q];
      WsSkip(s);
      AtCursor(s);
      if text[data] == '}' {
        Skip(1, s);
        AtCursor(s);
        ok, last := true, true;
      } else {
        ok := Consume(',', s);
        if !ok { return; }
        WsSkip(s);
        AtCursor(s);
      }
      MoreRoomForEntries(text[..], l.Contents(), ds', cuts', start, q, data);
    }

    /** The loop over the entries of an object. */
    method DecodeEntries(ghost s: string) returns (ok: bool, entries: seq<REntry>, ghost cuts: seq<nat>)
      requires Reading(s)
      modifies this`data, text
      ensures ok == ReadEntries(s, old(data)).Some?
      ensures ok ==>
        && Reading(s) && data == ReadEntries(s, old(data)).value.1 && old(data) < data
        && SameThere(old(text[..]), text[..], 0, old(data))
        && HoldsEntries(text[..], entries, ReadEntries(s, old(data)).value.0, cuts, old(data), data)
      decreases |s| - data, 4
    {
      hide Holds, HoldsEntry, HoldsEntries, ReadValue, ReadEntry, ReadEntries, SkipSpaces, Reading, SameThere;
      ghost var start, before := data, text[..];
      AtCursor(s);
      var l := new Items<REntry>();
      ghost var ds: seq<(string, Doc)> := [];
      cuts := [start];
      EntriesStart(text[..], s, start, start);
      SameAsBefore(before, start);
      while true
        invariant fresh(l) && fresh(l.l) && EntriesGoing(s, start, before, l, ds, cuts)
        decreases |s| - data
      {
        var last;
        ok, last, ds, cuts := DecodeOneEntry(l, s, start, before, ds, cuts);
        if !ok { return false, [], cuts; }
        if last { return true, l.Contents(), cuts; }
      }
    }

    /** What decoding an entry leaves behind. */
    ghost predicate EntryDecoded(s: string, p: nat, before: string, expected: Option<(string, Doc, nat)>,
        r: Option<REntry>)
      reads this, text
    {
      match expected
      case None => r.None?
      case Some(e) =>
        (r.Some? && Reading(s) && data == e.2 && p < data && SameThere(before, text[..], 0, p)
         && HoldsEntry(text[..], r.value, (e.0, e.1), p, data))
    }

    /** What decoding a key and its colon leaves behind. */
    ghost predicate KeyDecoded(s: string, p: nat, before: string, r: Option<(nat, nat)>)
      requires Terminated(s) && p < |s|
      reads this, text
    {
      if s[p] != '"' || StringEnd(s, p + 1).None? then r.None?
      else
        var c := SkipSpaces(s, StringEnd(s, p + 1).value + 1);
        if s[c] != ':' then r.None?
        else
          && Reading(s) && data == SkipSpaces(s, c + 1) && SameThere(before, text[..], 0, p)
          && r.Some? && r.value.0 == p + 1 && r.value.0 <= r.value.1 < data
          && text[r.value.0..r.value.1] == StringText(s, p + 1)
    }

    method DecodeKey(ghost s: string) returns (r: Option<(nat, nat)>)
      requires Reading(s)
      modifies this`data, text
      ensures KeyDecoded(s, old(data), old(text[..]), r)
      ensures r.Some? ==> old(data) < data
    {
      hide StringEnd, StringText, SkipSpaces;
      ghost var p := data;
      var t := DecodeString(s);
      if t.None? { return None; }
      ghost var key := StringText(s, p + 1);
      WsSkip(s);
      var colon := Consume(':', s);
      if !colon { return None; }
      ghost var buf := text[..];
      var keyEnd := UnescapeAt(t.value.0, t.value.1, key);
      ResolvedBehind(buf, text[..], s, t.value.0, t.value.1, p, data);
      assert text[data..] == text[..][data..];
      WsSkip(s);
      r := Some((t.value.0, keyEnd));
    }

    /** A key, which is resolved at once, and its value. */
    method DecodeEntry(ghost s: string) returns (r: Option<REntry>)
      requires Reading(s)
      modifies this`data, text
      ensures EntryDecoded(s, old(data), old(text[..]), ReadEntry(s, old(data)), r)
      decreases |s| - data, 2
    {
      hide Holds, HoldsEntry, ReadValue, StringEnd, StringText, SkipSpaces, SameThere;
      ghost var p, before := data, text[..];
      var key := DecodeKey(s);
      if key.None? { return None; }
      ghost var mid, buf := data, text[..];
      var v := DecodeValue(s);
      if v.None? { return None; }
      r := Some(REntry(key.value.0, key.value.1, v.value));
      StillSame(before, buf, text[..], p, mid);
      SliceSame(buf, text[..], 0, mid, key.value.0, key.value.1);
      EntryHolds(text[..], r.value, StringText(s, p + 1), ReadValue(s, mid).value.0, p, mid, data);
    }

    /** The whole text: one value, with nothing but spaces around it. */
    method Parse(ghost s: string) returns (r: Option<RValue>)
      requires Reading(s) && data == 0
      modifies this`data, text
      ensures match ReadText(s)
        case None => r.None?
        case Some(d) => r.Some? && Holds(text[..], r.value, d, 0, text.Length)
    {
      hide Holds, ReadValue, SkipSpaces;
      WsSkip(s);
      ghost var p := data;
      r := DecodeValue(s);
      if r.None? { return; }
      ghost var q := data;
      WsSkip(s);
      AtCursor(s);
      if text[data] != '\0' { return None; }
      HoldsSame(text[..], text[..], r.value, ReadValue(s, p).value.0, p, q, 0, text.Length);
    }

    /* ---- conversion to values ---- */

    /** wvalue(const rvalue&): makes the value a handle stands for, resolving its strings on the way. */
    method Convert(r: RValue, ghost d: Doc, ghost lo: nat, ghost hi: nat) returns (v: V.Value)
      requires Holds(text[..], r, d, lo, hi)
      modifies text
      ensures v == ValueOf(d)
      ensures SameThere(old(text[..]), text[..], 0, lo) && SameThere(old(text[..]), text[..], hi, text.Length)
      decreases r, 0
    {
      hide HoldsItems, HoldsEntries, StringIs;
      match r {
        case RNull => v := V.Null;
        case RFalse => v := V.False;
        case RTrue => v := V.True;
        case RNumber(start, end) => v := V.Number(text[start..end]);
        case RString(start, end) =>
          var end' := UnescapeAt(start, end, d.s);
          v := V.Str(text[start..end']);
        case RList(items) =>
          ghost var cuts: seq<nat> :| HoldsItems(text[..], items, d.items, cuts, lo, hi);
          var l := ConvertItems(items, d.items, cuts, lo, hi);
          v := V.List(l);
          assert l == seq(|d.items|, i requires 0 <= i < |d.items| => ValueOf(d.items[i]));
        case RObject(entries) =>
          ghost var cuts: seq<nat> :| HoldsEntries(text[..], entries, d.entries, cuts, lo, hi);
          var o := ConvertEntries(entries, d.entries, cuts, lo, hi);
          v := V.Object(o);
      }
    }

    method ConvertItems(items: seq<RValue>, ghost ds: seq<Doc>, ghost cuts: seq<nat>, ghost lo: nat, ghost hi: nat)
      returns (l: seq<V.Value>)
      requires HoldsItems(text[..], items, ds, cuts, lo, hi) && lo <= hi <= text.Length
      modifies text
      ensures |l| == |ds| && forall i | 0 <= i < |l| :: l[i] == ValueOf(ds[i])
      ensures SameThere(old(text[..]), text[..], 0, lo) && SameThere(old(text[..]), text[..], hi, text.Length)
      decreases items, 1
    {
      hide Holds, Cuts, ValueOf, SameThere, HoldsItems, ItemsFrom;
      l := [];
      ghost var before := text[..];
      FirstItem(before, items, ds, cuts, lo, hi);
      SameEverywhere(before);
      for i := 0 to |items|
        invariant |l| == i && forall k | 0 <= k < i :: l[k] == ValueOf(ds[k])
        invariant ItemsFrom(text[..], items, ds, cuts, lo, hi, i)
        invariant SameThere(before, text[..], 0, lo) && SameThere(before, text[..], hi, text.Length)
      {
        ghost var buf := text[..];
        NextItem(buf, items, ds, cuts, lo, hi, i);
        var v := Convert(items[i], ds[i], cuts[i], cuts[i + 1]);
        ItemConverted(before, buf, text[..], items, ds, cuts, lo, hi, i);
        l := l + [v];
      }
    }

    method ConvertEntry(e: REntry, ghost d: Doc, ghost lo: nat, ghost hi: nat) returns (v: V.Value)
      requires Holds(text[..], e.value, d, lo, hi)
      modifies text
      ensures v == ValueOf(d)
      ensures SameThere(old(text[..]), text[..], 0, lo) && SameThere(old(text[..]), text[..], hi, text.Length)
      decreases e, 1
    {
      v := Convert(e.value, d, lo, hi);
    }

    method ConvertEntries(entries: seq<REntry>, ghost ds: seq<(string, Doc)>, ghost cuts: seq<nat>, ghost lo: nat,
        ghost hi: nat)
      returns (o: map<string, V.Value>)
      requires HoldsEntries(text[..], entries, ds, cuts, lo, hi) && lo <= hi <= text.Length
      modifies text
      ensures o == Fields(ds)
      ensures SameThere(old(text[..]), text[..], 0, lo) && SameThere(old(text[..]), text[..], hi, text.Length)
      decreases entries, 2
    {
      hide Holds, HoldsEntry, Cuts, ValueOf, Fields, SameThere, HoldsEntries, EntriesFrom;
      o := map[];
      ghost var before := text[..];
      FirstEntry(before, entries, ds, cuts, lo, hi);
      SameEverywhere(before);
      NoFields(ds);
      for i := 0 to |entries|
        invariant i <= |ds| && o == Fields(ds[..i])
        invariant EntriesFrom(text[..], entries, ds, cuts, lo, hi, i)
        invariant SameThere(before, text[..], 0, lo) && SameThere(before, text[..], hi, text.Length)
      {
        ghost var buf := text[..];
        ghost var mid := NextEntry(buf, entries, ds, cuts, lo, hi, i);
        var key := text[entries[i].keyStart..entries[i].keyEnd];
        var v := ConvertEntry(entries[i], ds[i].1, mid, cuts[i + 1]);
        EntryConverted(before, buf, text[..], entries, ds, cuts, lo, hi, i, mid);
        FieldsMore(ds[..i], key, ds[i].1);
        assert ds[..i + 1] == ds[..i] + [(key, ds[i].1)];
        if key !in o {
          o := o[key := v];
        }
      }
      assert ds[..|ds|] == ds;
    }
  }

  lemma StillText(a: string, b: string, p: nat, n: nat)
    requires p + n <= |a| == |b| && a[p..] == b[p..]
    ensures a[p + n..] == b[p + n..]
  {
  }

  /** Resolving a string behind the cursor leaves the text to come as it is. */
  lemma ResolvedBehind(buf: string, buf': string, s: string, start: nat, end: nat, p: nat, cur: nat)
    requires |buf| == |buf'| == |s| && p < start <= end < cur <= |s| && start == p + 1 && buf[cur..] == s[cur..]
    requires SameThere(buf, buf', 0, start - 1) && SameThere(buf, buf', end + 1, |buf|)
    ensures buf'[cur..] == s[cur..] && SameThere(buf, buf', 0, p)
  {
  }

  lemma SameAsBefore(buf: string, n: nat)
    ensures SameThere(buf, buf, 0, n)
  {
  }

  lemma StillSame(buf0: string, buf1: string, buf2: string, start: nat, cur: nat)
    requires SameThere(buf0, buf1, 0, start) && SameThere(buf1, buf2, 0, cur) && start <= cur
    ensures SameThere(buf0, buf2, 0, start)
  {
  }

  lemma MoreRoomForItems(buf: string, items: seq<RValue>, ds: seq<Doc>, cuts: seq<nat>, lo: nat, hi: nat, hi': nat)
    requires HoldsItems(buf, items, ds, cuts, lo, hi) && hi <= hi' <= |buf|
    ensures HoldsItems(buf, items, ds, cuts, lo, hi')
  {
  }

  lemma MoreRoomForEntries(buf: string, entries: seq<REntry>, ds: seq<(string, Doc)>, cuts: seq<nat>, lo: nat, hi: nat,
      hi': nat)
    requires HoldsEntries(buf, entries, ds, cuts, lo, hi) && hi <= hi' <= |buf|
    ensures HoldsEntries(buf, entries, ds, cuts, lo, hi')
  {
  }

  lemma EntryHolds(buf: string, e: REntry, key: string, d: Doc, lo: nat, mid: nat, hi: nat)
    requires lo < e.keyStart <= e.keyEnd < mid <= hi <= |buf| && buf[e.keyStart..e.keyEnd] == key
      && Holds(buf, e.value, d, mid, hi)
    ensures HoldsEntry(buf, e, (key, d), lo, hi)
  {
  }

  function WithItems(ds: seq<Doc>, r: Option<(seq<Doc>, nat)>): Option<(seq<Doc>, nat)> {
    if r.None? then None else Some((ds + r.value.0, r.value.1))
  }

  function WithEntries(ds: seq<(string, Doc)>,
      r: Option<(seq<(string, Doc)>, nat)>): Option<(seq<(string, Doc)>, nat)> {
    if r.None? then None else Some((ds + r.value.0, r.value.1))
  }

  lemma ItemsStart(buf: string, s: string, p: nat, start: nat)
    requires Terminated(s) && start < |s| && p <= start <= |buf|
    ensures ReadItems(s, start) == WithItems([], ReadItems(s, start)) && HoldsItems(buf, [], [], [p], p, start)
  {
    if ReadItems(s, start).Some? { assert [] + ReadItems(s, start).value.0 == ReadItems(s, start).value.0; }
  }

  lemma WithItemsTwice(ds: seq<Doc>, es: seq<Doc>, r: Option<(seq<Doc>, nat)>)
    ensures WithItems(ds, WithItems(es, r)) == WithItems(ds + es, r)
  {
    if r.Some? { assert ds + (es + r.value.0) == ds + es + r.value.0; }
  }

  lemma ItemsStep(s: string, cur: nat)
    requires Terminated(s) && cur < |s|
    ensures ReadItems(s, cur) == match ReadValue(s, cur)
      case None => None
      case Some(v) =>
        var q := SkipSpaces(s, v.1);
        if s[q] == ']' then Some(([v.0], q + 1))
        else if s[q] != ',' then None
        else WithItems([v.0], ReadItems(s, SkipSpaces(s, q + 1)))
  {
    hide ReadValue, SkipSpaces;
  }

  /** One round of the loop over the items. */
  lemma ItemsAfter(s: string, start: nat, cur: nat, ds: seq<Doc>)
    requires Terminated(s) && start < |s| && cur < |s| && ReadItems(s, start) == WithItems(ds, ReadItems(s, cur))
    ensures match ReadValue(s, cur)
      case None => ReadItems(s, start).None?
      case Some(v) =>
        var q := SkipSpaces(s, v.1);
        if s[q] == ']' then ReadItems(s, start) == Some((ds + [v.0], q + 1))
        else if s[q] != ',' then ReadItems(s, start).None?
        else ReadItems(s, start) == WithItems(ds + [v.0], ReadItems(s, SkipSpaces(s, q + 1)))
  {
    hide ReadValue, ReadItems, SkipSpaces;
    ItemsStep(s, cur);
    if ReadValue(s, cur).Some? {
      var v := ReadValue(s, cur).value;
      var q := SkipSpaces(s, v.1);
      if s[q] == ',' { WithItemsTwice(ds, [v.0], ReadItems(s, SkipSpaces(s, q + 1))); }
    }
  }

  lemma ItemStays(buf: string, buf': string, items: seq<RValue>, ds: seq<Doc>, cuts: seq<nat>, p: nat, cur: nat,
      v: RValue, d: Doc, q: nat)
    requires HoldsItems(buf, items, ds, cuts, p, cur) && SameThere(buf, buf', 0, cur) && cur <= q <= |buf|
    requires Holds(buf', v, d, cur, q)
    ensures HoldsItems(buf', items + [v], ds + [d], cuts + [q], p, q)
  {
    hide Holds, HoldsItems;
    ItemsSame(buf, buf', items, ds, cuts, p, cur, p, cur);
    ItemAdded(buf', items, ds, cuts, p, cur, v, d, q);
  }

  lemma ListHolds(buf: string, items: seq<RValue>, ds: seq<Doc>, cuts: seq<nat>, p: nat, q: nat)
    requires p <= q <= |buf| && (HoldsItems(buf, items, ds, cuts, p, q) || (items == [] && ds == []))
    ensures Holds(buf, RList(items), Arr(ds), p, q)
  {
    if items == [] && ds == [] { assert HoldsItems(buf, items, ds, [p], p, q); }
  }

  lemma EntriesStart(buf: string, s: string, p: nat, start: nat)
    requires Terminated(s) && start < |s| && p <= start <= |buf|
    ensures ReadEntries(s, start) == WithEntries([], ReadEntries(s, start)) && HoldsEntries(buf, [], [], [p], p, start)
  {
    if ReadEntries(s, start).Some? { assert [] + ReadEntries(s, start).value.0 == ReadEntries(s, start).value.0; }
  }

  lemma WithEntriesTwice(ds: seq<(string, Doc)>, es: seq<(string, Doc)>, r: Option<(seq<(string, Doc)>, nat)>)
    ensures WithEntries(ds, WithEntries(es, r)) == WithEntries(ds + es, r)
  {
    if r.Some? { assert ds + (es + r.value.0) == ds + es + r.value.0; }
  }

  lemma EntriesStep(s: string, cur: nat)
    requires Terminated(s) && cur < |s|
    ensures ReadEntries(s, cur) == match ReadEntry(s, cur)
      case None => None
      case Some(e) =>
        var q := SkipSpaces(s, e.2);
        if s[q] == '}' then Some(([(e.0, e.1)], q + 1))
        else if s[q] != ',' then None
        else WithEntries([(e.0, e.1)], ReadEntries(s, SkipSpaces(s, q + 1)))
  {
    hide ReadEntry, SkipSpaces;
  }

  /** One round of the loop over the entries. */
  lemma EntriesAfter(s: string, start: nat, cur: nat, ds: seq<(string, Doc)>)
    requires Terminated(s) && start < |s| && cur < |s| && ReadEntries(s, start) == WithEntries(ds, ReadEntries(s, cur))
    ensures match ReadEntry(s, cur)
      case None => ReadEntries(s, start).None?
      case Some(e) =>
        var q := SkipSpaces(s, e.2);
        if s[q] == '}' then ReadEntries(s, start) == Some((ds + [(e.0, e.1)], q + 1))
        else if s[q] != ',' then ReadEntries(s, start).None?
        else ReadEntries(s, start) == WithEntries(ds + [(e.0, e.1)], ReadEntries(s, SkipSpaces(s, q + 1)))
  {
    hide ReadEntry, ReadEntries, SkipSpaces;
    EntriesStep(s, cur);
    if ReadEntry(s, cur).Some? {
      var e := ReadEntry(s, cur).value;
      var q := SkipSpaces(s, e.2);
      if s[q] == ',' { WithEntriesTwice(ds, [(e.0, e.1)], ReadEntries(s, SkipSpaces(s, q + 1))); }
    }
  }

  lemma EntryStays(buf: string, buf': string, entries: seq<REntry>, ds: seq<(string, Doc)>, cuts: seq<nat>, p: nat,
      cur: nat, e: REntry, d: (string, Doc), q: nat)
    requires HoldsEntries(buf, entries, ds, cuts, p, cur) && SameThere(buf, buf', 0, cur) && cur <= q <= |buf|
    requires HoldsEntry(buf', e, d, cur, q)
    ensures HoldsEntries(buf', entries + [e], ds + [d], cuts + [q], p, q)
  {
    hide HoldsEntry, HoldsEntries;
    EntriesSame(buf, buf', entries, ds, cuts, p, cur, p, cur);
    EntryAdded(buf', entries, ds, cuts, p, cur, e, d, q);
  }

  lemma ObjectHolds(buf: string, entries: seq<REntry>, ds: seq<(string, Doc)>, cuts: seq<nat>, p: nat, q: nat)
    requires p <= q <= |buf| && (HoldsEntries(buf, entries, ds, cuts, p, q) || (entries == [] && ds == []))
    ensures Holds(buf, RObject(entries), Obj(ds), p, q)
  {
    if entries == [] && ds == [] { assert HoldsEntries(buf, entries, ds, [p], p, q); }
  }

  lemma StringHolds(buf: string, r: RValue, t: string, p: nat, q: nat)
    requires r.RString? && p < r.start <= r.end < q <= |buf| && StringIs(buf, r.start, r.end, t)
    ensures Holds(buf, r, Text(t), p, q)
  {
  }

  lemma NumberHolds(buf: string, r: RValue, p: nat, q: nat)
    requires r == RNumber(p, q) && p <= q <= |buf|
    ensures Holds(buf, r, Num(buf[p..q]), p, q)
  {
  }

  lemma WordHolds(buf: string, r: RValue, d: Doc, p: nat, q: nat)
    requires (r == RNull && d == Nothing) || (r == RFalse && d == No) || (r == RTrue && d == Yes)
    requires p <= q <= |buf|
    ensures Holds(buf, r, d, p, q)
  {
  }

  /** The letters of a word are compared one by one, and a NUL stops the comparison in time. */
  lemma SpellTrue(s: string, p: nat)
    requires Terminated(s) && p < |s| && s[p] == 't'
    ensures p + 1 < |s| && (s[p + 1] == 'r' ==> p + 2 < |s| && (s[p + 2] == 'u' ==> p + 3 < |s|))
    ensures WordAt(s, p, "true") <==> s[p + 1] == 'r' && s[p + 2] == 'u' && s[p + 3] == 'e'
    ensures WordAt(s, p, "true") ==> p + 4 < |s|
  {
  }

  lemma SpellNull(s: string, p: nat)
    requires Terminated(s) && p < |s| && s[p] == 'n'
    ensures p + 1 < |s| && (s[p + 1] == 'u' ==> p + 2 < |s| && (s[p + 2] == 'l' ==> p + 3 < |s|))
    ensures WordAt(s, p, "null") <==> s[p + 1] == 'u' && s[p + 2] == 'l' && s[p + 3] == 'l'
    ensures WordAt(s, p, "null") ==> p + 4 < |s|
  {
  }

  lemma SpellFalse(s: string, p: nat)
    requires Terminated(s) && p < |s| && s[p] == 'f'
    ensures p + 1 < |s|
    ensures s[p + 1] == 'a' ==> p + 2 < |s| && (s[p + 2] == 'l' ==> p + 3 < |s| && (s[p + 3] == 's' ==> p + 4 < |s|))
    ensures WordAt(s, p, "false") <==> s[p + 1] == 'a' && s[p + 2] == 'l' && s[p + 3] == 's' && s[p + 4] == 'e'
    ensures WordAt(s, p, "false") ==> p + 5 < |s|
  {
  }

  /* ---- converting side by side ---- */

  lemma SameEverywhere(buf: string)
    ensures forall lo, hi | 0 <= lo <= hi :: SameThere(buf, buf, lo, hi)
  {
  }

  lemma NoFields(ds: seq<(string, Doc)>)
    ensures Fields(ds[..0]) == map[]
  {
  }

  /** The items from the `i`-th on still stand in the buffer. */
  ghost predicate ItemsFrom(buf: string, items: seq<RValue>, ds: seq<Doc>, cuts: seq<nat>, lo: nat, hi: nat, i: nat) {
    && |items| == |ds| && i <= |items| && |cuts| == |items| + 1 && Cuts(cuts, |items|, lo, hi) && lo <= hi <= |buf|
    && forall j | i <= j < |items| :: Holds(buf, items[j], ds[j], cuts[j], cuts[j + 1])
  }

  lemma FirstItem(buf: string, items: seq<RValue>, ds: seq<Doc>, cuts: seq<nat>, lo: nat, hi: nat)
    requires HoldsItems(buf, items, ds, cuts, lo, hi) && lo <= hi <= |buf|
    ensures |items| == |ds| && ItemsFrom(buf, items, ds, cuts, lo, hi, 0)
  {
  }

  lemma NextItem(buf: string, items: seq<RValue>, ds: seq<Doc>, cuts: seq<nat>, lo: nat, hi: nat, i: nat)
    requires ItemsFrom(buf, items, ds, cuts, lo, hi, i) && i < |items|
    ensures |cuts| == |items| + 1 && |ds| == |items| && lo <= cuts[i] <= cuts[i + 1] <= hi
      && Holds(buf, items[i], ds[i], cuts[i], cuts[i + 1])
  {
  }

  lemma ItemConverted(before: string, buf: string, buf': string, items: seq<RValue>, ds: seq<Doc>, cuts: seq<nat>,
      lo: nat, hi: nat, i: nat)
    requires ItemsFrom(buf, items, ds, cuts, lo, hi, i) && i < |items| && |cuts| == |items| + 1
    requires SameThere(buf, buf', 0, cuts[i]) && SameThere(buf, buf', cuts[i + 1], |buf|)
    requires SameThere(before, buf, 0, lo) && SameThere(before, buf, hi, |buf|)
    ensures ItemsFrom(buf', items, ds, cuts, lo, hi, i + 1)
    ensures SameThere(before, buf', 0, lo) && SameThere(before, buf', hi, |buf|)
  {
    hide Holds;
    forall j | i + 1 <= j < |items| ensures Holds(buf', items[j], ds[j], cuts[j], cuts[j + 1]) {
      HoldsSame(buf, buf', items[j], ds[j], cuts[j], cuts[j + 1], cuts[j], cuts[j + 1]);
    }
  }

  ghost predicate EntriesFrom(buf: string, entries: seq<REntry>, ds: seq<(string, Doc)>, cuts: seq<nat>, lo: nat,
      hi: nat, i: nat) {
    && |entries| == |ds| && i <= |entries| && |cuts| == |entries| + 1 && Cuts(cuts, |entries|, lo, hi)
      && lo <= hi <= |buf|
    && forall j | i <= j < |entries| :: HoldsEntry(buf, entries[j], ds[j], cuts[j], cuts[j + 1])
  }

  lemma FirstEntry(buf: string, entries: seq<REntry>, ds: seq<(string, Doc)>, cuts: seq<nat>, lo: nat, hi: nat)
    requires HoldsEntries(buf, entries, ds, cuts, lo, hi) && lo <= hi <= |buf|
    ensures |entries| == |ds| && EntriesFrom(buf, entries, ds, cuts, lo, hi, 0)
  {
  }

  lemma NextEntry(buf: string, entries: seq<REntry>, ds: seq<(string, Doc)>, cuts: seq<nat>, lo: nat, hi: nat, i: nat)
      returns (mid: nat)
    requires EntriesFrom(buf, entries, ds, cuts, lo, hi, i) && i < |entries|
    ensures |cuts| == |entries| + 1 && lo <= cuts[i] <= mid <= cuts[i + 1] <= hi
    ensures entries[i].keyStart <= entries[i].keyEnd <= |buf| && buf[entries[i].keyStart..entries[i].keyEnd] == ds[i].0
    ensures Holds(buf, entries[i].value, ds[i].1, mid, cuts[i + 1])
  {
    hide Holds;
    assert HoldsEntry(buf, entries[i], ds[i], cuts[i], cuts[i + 1]);
    mid :| entries[i].keyEnd < mid <= cuts[i + 1] && Holds(buf, entries[i].value, ds[i].1, mid, cuts[i + 1]);
  }

  lemma EntryConverted(before: string, buf: string, buf': string, entries: seq<REntry>, ds: seq<(string, Doc)>,
      cuts: seq<nat>, lo: nat, hi: nat, i: nat, mid: nat)
    requires EntriesFrom(buf, entries, ds, cuts, lo, hi, i) && i < |entries| && |cuts| == |entries| + 1
      && cuts[i] <= mid
    requires SameThere(buf, buf', 0, mid) && SameThere(buf, buf', cuts[i + 1], |buf|)
    requires SameThere(before, buf, 0, lo) && SameThere(before, buf, hi, |buf|)
    ensures EntriesFrom(buf', entries, ds, cuts, lo, hi, i + 1)
    ensures SameThere(before, buf', 0, lo) && SameThere(before, buf', hi, |buf|)
  {
    hide HoldsEntry;
    forall j | i + 1 <= j < |entries| ensures HoldsEntry(buf', entries[j], ds[j], cuts[j], cuts[j + 1]) {
      EntrySame(buf, buf', entries[j], ds[j], cuts[j], cuts[j + 1]);
    }
  }

  /* ---- loading a text ---- */

  /** Copies the text into a buffer, parses it there, and converts what was read. */
  method Load(src: string) returns (v: Option<V.Value>)
    ensures v == match ReadText(src + "\0")
      case None => None
      case Some(d) => Some(ValueOf(d))
  {
    hide Holds, ReadText, ValueOf;
    var buffer := new Buffer(src);
    ghost var s := src + "\0";
    assert buffer.text[0..] == s[0..];
    var r := buffer.Parse(s);
    if r.None? { return None; }
    ghost var d := ReadText(s).value;
    var w := buffer.Convert(r.value, d, 0, buffer.text.Length);
    v := Some(w);
  }

  /** Dumping a value and loading the text gives the value back. */
  method DumpAndLoad(value: V.Value) returns (v: Option<V.Value>)
    requires !HasNumbers(value)
    ensures v == Some(value)
  {
    hide Dump, ReadText, ValueOf, NoNumbers, HasNumbers;
    var text;
    ghost var d;
    text, d := DumpInternal(value, "");
    assert text == Dump(d);
    ReadDump(d);
    v := Load(text);
  }
}
