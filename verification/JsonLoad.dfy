/** Loading JSON in place: the parser writes into the text it reads, behind its own cursor. A string
    gets a NUL for its closing quote and, for its opening quote, a flag that says whether it still has
    escapes; its handle unescapes it in place when it is first asked for. */
module JsonLoad {
  import opened Wrappers
  import opened JsonText
  import opened JsonRead

  /* ---- handles, and what they stand for in a buffer ---- */

  datatype RValue =
    | RNull
    | RFalse
    | RTrue
    | RNumber(start: nat, end: nat)
    | RString(start: nat, end: nat)
    | RList(items: seq<RValue>)
    | RObject(entries: seq<REntry>)

  datatype REntry = REntry(keyStart: nat, keyEnd: nat, value: RValue)

  /** The flag before a string says whether it has escapes that are not yet resolved. */
  ghost predicate StringIs(buf: string, start: nat, end: nat, t: string) {
    && 0 < start <= end < |buf|
    && if buf[start - 1] == '\0' then buf[start..end] == t
       else WellEscaped(buf[start..end]) && Unescape(buf[start..end]) == t
  }

  /** In the buffer, between `lo` and `hi`, the handle stands for the document. */
  ghost predicate Holds(buf: string, r: RValue, d: Doc, lo: nat, hi: nat)
    decreases r, 0
  {
    && lo <= hi <= |buf|
    && match r
       case RNull => d == Nothing
       case RFalse => d == No
       case RTrue => d == Yes
       case RNumber(a, b) => lo <= a <= b <= hi && d == Num(buf[a..b])
       case RString(a, b) => lo < a <= b < hi && d.Text? && StringIs(buf, a, b, d.s)
       case RList(items) => d.Arr? && exists cuts: seq<nat> :: HoldsItems(buf, items, d.items, cuts, lo, hi)
       case RObject(entries) => d.Obj? && exists cuts: seq<nat> :: HoldsEntries(buf, entries, d.entries, cuts, lo, hi)
  }

  ghost predicate Cuts(cuts: seq<nat>, n: nat, lo: nat, hi: nat) {
    |cuts| == n + 1 && lo <= cuts[0] && cuts[n] <= hi && forall i, j | 0 <= i <= j <= n :: cuts[i] <= cuts[j]
  }

  /** The items stand side by side: each has a part of the buffer to itself. */
  ghost predicate HoldsItems(buf: string, items: seq<RValue>, ds: seq<Doc>, cuts: seq<nat>, lo: nat, hi: nat)
    decreases items, 1
  {
    |items| == |ds| && Cuts(cuts, |items|, lo, hi)
        && forall i | 0 <= i < |items| :: Holds(buf, items[i], ds[i], cuts[i], cuts[i + 1])
  }

  /** A key is resolved; its value comes after it. */
  ghost predicate HoldsEntry(buf: string, e: REntry, d: (string, Doc), lo: nat, hi: nat)
    decreases e, 1
  {
    lo < e.keyStart <= e.keyEnd < hi <= |buf| && buf[e.keyStart..e.keyEnd] == d.0
    && exists mid :: e.keyEnd < mid <= hi && Holds(buf, e.value, d.1, mid, hi)
  }

  ghost predicate HoldsEntries(buf: string, entries: seq<REntry>, ds: seq<(string, Doc)>, cuts: seq<nat>, lo: nat,
      hi: nat)
    decreases entries, 2
  {
    |entries| == |ds| && Cuts(cuts, |entries|, lo, hi)
    && forall i | 0 <= i < |entries| :: HoldsEntry(buf, entries[i], ds[i], cuts[i], cuts[i + 1])
  }

  ghost predicate SameThere(buf: string, buf': string, lo: nat, hi: nat) {
    |buf| == |buf'| && forall k | lo <= k < hi && k < |buf| :: buf[k] == buf'[k]
  }

  lemma SliceSame(buf: string, buf': string, lo: nat, hi: nat, a: nat, b: nat)
    requires SameThere(buf, buf', lo, hi) && lo <= a <= b <= hi && b <= |buf|
    ensures buf[a..b] == buf'[a..b]
  {
  }

  /** What a handle stands for depends on its part of the buffer only; more room does not hurt. */
  lemma {:induction false} HoldsSame(buf: string, buf': string, r: RValue, d: Doc, lo: nat, hi: nat, lo': nat, hi': nat)
    requires Holds(buf, r, d, lo, hi) && SameThere(buf, buf', lo, hi) && lo' <= lo && hi <= hi' <= |buf|
    ensures Holds(buf', r, d, lo', hi')
    decreases r, 0
  {
    match r
    case RNumber(a, b) => SliceSame(buf, buf', lo, hi, a, b);
    case RString(a, b) => SliceSame(buf, buf', lo, hi, a, b); assert buf[a - 1] == buf'[a - 1];
    case RList(items) =>
      var cuts: seq<nat> :| HoldsItems(buf, items, d.items, cuts, lo, hi);
      ItemsSame(buf, buf', items, d.items, cuts, lo, hi, lo', hi');
    case RObject(entries) =>
      var cuts: seq<nat> :| HoldsEntries(buf, entries, d.entries, cuts, lo, hi);
      EntriesSame(buf, buf', entries, d.entries, cuts, lo, hi, lo', hi');
    case _ =>
  }

  lemma {:induction false} ItemsSame(buf: string, buf': string, items: seq<RValue>, ds: seq<Doc>, cuts: seq<nat>,
      lo: nat, hi: nat, lo': nat, hi': nat)
    requires HoldsItems(buf, items, ds, cuts, lo, hi) && SameThere(buf, buf', lo, hi) && lo' <= lo && hi <= hi' <= |buf|
    ensures HoldsItems(buf', items, ds, cuts, lo', hi')
    decreases items, 1
  {
    forall i | 0 <= i < |items| ensures Holds(buf', items[i], ds[i], cuts[i], cuts[i + 1]) {
      HoldsSame(buf, buf', items[i], ds[i], cuts[i], cuts[i + 1], cuts[i], cuts[i + 1]);
    }
  }

  lemma {:induction false} EntrySame(buf: string, buf': string, e: REntry, d: (string, Doc), lo: nat, hi: nat)
    requires HoldsEntry(buf, e, d, lo, hi) && SameThere(buf, buf', lo, hi)
    ensures HoldsEntry(buf', e, d, lo, hi)
    decreases e, 1
  {
    SliceSame(buf, buf', lo, hi, e.keyStart, e.keyEnd);
    var mid :| e.keyEnd < mid <= hi && Holds(buf, e.value, d.1, mid, hi);
    HoldsSame(buf, buf', e.value, d.1, mid, hi, mid, hi);
  }

  lemma {:induction false} EntriesSame(buf: string, buf': string, entries: seq<REntry>, ds: seq<(string, Doc)>,
      cuts: seq<nat>, lo: nat, hi: nat, lo': nat, hi': nat)
    requires HoldsEntries(buf, entries, ds, cuts, lo, hi) && SameThere(buf, buf', lo, hi) && lo' <= lo
      && hi <= hi' <= |buf|
    ensures HoldsEntries(buf', entries, ds, cuts, lo', hi')
    decreases entries, 2
  {
    forall i | 0 <= i < |entries| ensures HoldsEntry(buf', entries[i], ds[i], cuts[i], cuts[i + 1]) {
      EntrySame(buf, buf', entries[i], ds[i], cuts[i], cuts[i + 1]);
    }
  }

  /** One more item, in the part of the buffer after the others. */
  lemma ItemAdded(buf: string, items: seq<RValue>, ds: seq<Doc>, cuts: seq<nat>, lo: nat, mid: nat, v: RValue, d: Doc,
      hi: nat)
    requires HoldsItems(buf, items, ds, cuts, lo, mid) && Holds(buf, v, d, mid, hi)
    ensures HoldsItems(buf, items + [v], ds + [d], cuts + [hi], lo, hi)
  {
    HoldsSame(buf, buf, v, d, mid, hi, cuts[|items|], hi);
  }

  lemma EntryAdded(buf: string, entries: seq<REntry>, ds: seq<(string, Doc)>, cuts: seq<nat>, lo: nat, mid: nat,
      e: REntry, d: (string, Doc), hi: nat)
    requires HoldsEntries(buf, entries, ds, cuts, lo, mid) && HoldsEntry(buf, e, d, mid, hi)
    ensures HoldsEntries(buf, entries + [e], ds + [d], cuts + [hi], lo, hi)
  {
    var m :| e.keyEnd < m <= hi && Holds(buf, e.value, d.1, m, hi);
    assert HoldsEntry(buf, e, d, cuts[|entries|], hi);
  }
}
