/** Decimal and hexadecimal lengths: printed, read back, and never wrapped. */
module HttpNumbers {
  import opened HttpChars
  import opened HttpMachine
  import opened HttpStream
  import opened HttpMethods

  /** The number that digit characters extend `v` to. */
  function Number(radix: nat, v: nat, digits: string): nat
    requires forall i | 0 <= i < |digits| :: Unhex(digits[i]) >= 0
    decreases |digits|
  {
    if digits == "" then v else Number(radix, v * radix + Unhex(digits[0]), digits[1..])
  }

  const DIGITS := "0123456789abcdef"

  function Print(radix: nat, n: nat): (w: string)
    requires 2 <= radix <= 16
    ensures w != ""
  {
    if n < radix then [DIGITS[n]] else Print(radix, n / radix) + [DIGITS[n % radix]]
  }

  lemma DigitValue(d: nat)
    requires d < 16
    ensures Unhex(DIGITS[d]) == d && (d < 10 ==> IsNum(DIGITS[d]) && Digit(DIGITS[d]) == d)
    ensures DIGITS[d] !in {' ', '\t', '\r', '\n', ';', ':'}
  {
  }

  lemma {:induction false} NumberSnoc(radix: nat, v: nat, digits: string, c: char)
    requires forall i | 0 <= i < |digits| :: Unhex(digits[i]) >= 0
    requires Unhex(c) >= 0
    ensures Number(radix, v, digits + [c]) == Number(radix, v, digits) * radix + Unhex(c)
    decreases |digits|
  {
    hide Unhex;
    if digits == "" {
      assert digits + [c] == [c];
    } else {
      assert (digits + [c])[1..] == digits[1..] + [c];
      NumberSnoc(radix, v * radix + Unhex(digits[0]), digits[1..], c);
    }
  }

  predicate AllDigits(radix: nat, w: string) {
    forall i | 0 <= i < |w| :: 0 <= Unhex(w[i]) < radix && (radix <= 10 ==> IsNum(w[i]))
  }

  lemma DivMod(n: nat, radix: nat)
    requires radix >= 2
    ensures n / radix * radix + n % radix == n && n % radix < radix
    ensures n / radix < n || n == 0
  {
  }

  lemma PrintStep(radix: nat, q: nat, w: string, d: nat)
    requires 2 <= radix <= 16 && d < radix
    requires AllDigits(radix, w) && Number(radix, 0, w) == q
    ensures AllDigits(radix, w + [DIGITS[d]]) && Number(radix, 0, w + [DIGITS[d]]) == q * radix + d
  {
    DigitValue(d);
    NumberSnoc(radix, 0, w, DIGITS[d]);
    hide Unhex, IsNum;
  }

  /** Reading back what was printed. */
  lemma {:induction false} PrintNumber(radix: nat, n: nat)
    requires 2 <= radix <= 16
    ensures AllDigits(radix, Print(radix, n))
    ensures Number(radix, 0, Print(radix, n)) == n
  {
    hide AllDigits, Number;
    if n < radix {
      PrintOne(radix, n);
    } else {
      var q, d := n / radix, n % radix;
      DivMod(n, radix);
      PrintNumber(radix, q);
      PrintStep(radix, q, Print(radix, q), d);
    }
  }

  lemma PrintOne(radix: nat, n: nat)
    requires n < radix && 2 <= radix <= 16
    ensures AllDigits(radix, [DIGITS[n]]) && Number(radix, 0, [DIGITS[n]]) == n
  {
    DigitValue(n);
    hide Unhex, IsNum;
    assert [DIGITS[n]][1..] == "";
  }

  /* ---- the lengths a message may announce ---- */

  /** The conservative limit on a length that gets another digit, and the largest length it lets through. */
  function Limit(radix: nat): nat
    requires 2 <= radix <= 16
  {
    (ULLONG_MAX - radix) / radix
  }

  function MaxLength(radix: nat): nat
    requires 2 <= radix <= 16
  {
    Limit(radix) * radix + radix - 1
  }

  /** No digit meets a length above the limit. */
  predicate Fits(radix: nat, v: nat, digits: string)
    requires 2 <= radix <= 16
    requires forall i | 0 <= i < |digits| :: Unhex(digits[i]) >= 0
    decreases |digits|
  {
    digits == "" || (v <= Limit(radix) && Fits(radix, v * radix + Unhex(digits[0]), digits[1..]))
  }

  lemma {:induction false} NumberGrows(radix: nat, v: nat, digits: string)
    requires radix >= 2 && forall i | 0 <= i < |digits| :: Unhex(digits[i]) >= 0
    ensures Number(radix, v, digits) >= v
    decreases |digits|
  {
    hide Unhex;
    if digits != "" {
      NumberGrows(radix, v * radix + Unhex(digits[0]), digits[1..]);
      assert v * radix >= v;
    }
  }

  lemma OverLimit(radix: nat, v: nat, d: nat)
    requires radix == 10 || radix == 16
    requires d < radix
    ensures v <= Limit(radix) <==> v * radix + d <= MaxLength(radix)
    ensures v <= Limit(radix) ==> v * radix + d < ULLONG_MAX
  {
  }

  /** The check before every digit lets a number through exactly when it is at most MaxLength. */
  lemma {:induction false} FitsExactly(radix: nat, v: nat, digits: string)
    requires (radix == 10 || radix == 16) && AllDigits(radix, digits) && digits != ""
    ensures Fits(radix, v, digits) <==> Number(radix, v, digits) <= MaxLength(radix)
    ensures Fits(radix, v, digits) ==> Number(radix, v, digits) < ULLONG_MAX
    decreases |digits|
  {
    hide Unhex, Limit, MaxLength;
    var w := v * radix + Unhex(digits[0]);
    OverLimit(radix, v, Unhex(digits[0]));
    if |digits| == 1 {
      assert digits[1..] == "";
    } else {
      FitsExactly(radix, w, digits[1..]);
      NumberGrows(radix, w, digits[1..]);
    }
  }

  /* ---- reading them ---- */

  lemma LengthStep(f: Fields, tr: Trace, ch: char, at: nat)
    requires f.state.HeaderValue? && f.headerState.ContentLength? && IsNum(ch) && Room(f, 1)
    ensures Step(f, tr, ch, at) ==
      if f.contentLength <= Limit(10) then
        Running(Read(f, 1).(contentLength := f.contentLength * 10 + Digit(ch)), Append(tr, Value, [ch]))
      else Failed(Read(f, 1).(errno := InvalidContentLength), at, tr)
  {
    hide RequestByte, BodyByte, Append;
    var g := Read(f, 1);
    assert Limit(10) == (ULLONG_MAX - 10) / 10;
    OverLimit(10, f.contentLength, Digit(ch));
    assert HeaderByte(g, ch) == ValueByte(g, ch) by { hide ValueByte; }
    hide HeaderByte;
    assert Append(tr, Value, [ch]) + [] == Append(tr, Value, [ch]);
  }

  lemma ChunkSizeStep(f: Fields, tr: Trace, ch: char, at: nat)
    requires f.state.ChunkSize? && f.flags.chunked && Unhex(ch) >= 0 && Room(f, 1)
    ensures Step(f, tr, ch, at) ==
      if f.contentLength <= Limit(16) then
        Running(Read(f, 1).(contentLength := f.contentLength * 16 + Unhex(ch)), tr)
      else Failed(Read(f, 1).(errno := InvalidContentLength), at, tr)
  {
    hide RequestByte, HeaderByte;
    var g := Read(f, 1);
    assert ch != CR;
    assert Limit(16) == (ULLONG_MAX - 16) / 16;
    OverLimit(16, f.contentLength, Unhex(ch));
    assert BodyByte(g, ch, 1) == ChunkSizeByte(g, ch) by { hide ChunkSizeByte, TakeBody; }
    hide BodyByte, Unhex;
  }

  /** Reading digits of a Content-Length: the number they stand for is stored, exactly when it
      is at most MaxLength(10); otherwise the parser fails. It never wraps, and never is the
      sentinel for "no length". */
  lemma {:induction false} ReadLength(f: Fields, tr: Trace, digits: string, rest: string, at: nat)
    requires f.state.HeaderValue? && f.headerState.ContentLength? && EndsWith(tr, Value)
    requires AllDigits(10, digits) && Room(f, |digits|)
    ensures var o := Stream(f, tr, digits + rest, at);
      if Fits(10, f.contentLength, digits) then
        o == Stream(Read(f, |digits|).(contentLength := Number(10, f.contentLength, digits)),
                    Append(tr, Value, digits), rest, at + |digits|)
      else o.Failed? && o.f.errno == InvalidContentLength
    decreases |digits|
  {
    hide Step, Stream, Unhex, Append, Limit;
    if digits == "" {
      assert digits + rest == rest;
      AppendNothing(tr, Value);
    } else {
      DigitIsHex(digits[0]);
      assert digits + rest == [digits[0]] + (digits[1..] + rest);
      StreamStep(f, tr, digits[0], digits[1..] + rest, at);
      LengthStep(f, tr, digits[0], at);
      if f.contentLength <= Limit(10) {
        var v := f.contentLength * 10 + Unhex(digits[0]);
        var t := Append(tr, Value, [digits[0]]);
        AppendEnds(tr, Value, [digits[0]]);
        ReadLength(Read(f, 1).(contentLength := v), t, digits[1..], rest, at + 1);
        AppendTwice(tr, Value, [digits[0]], digits[1..]);
        assert [digits[0]] + digits[1..] == digits;
      }
    }
  }

  lemma DigitIsHex(ch: char)
    requires IsNum(ch)
    ensures Unhex(ch) == Digit(ch)
  {
  }

  /** The same for the hexadecimal size of a chunk. */
  lemma {:induction false} ReadChunkSize(f: Fields, tr: Trace, digits: string, rest: string, at: nat)
    requires f.state.ChunkSize? && f.flags.chunked && AllDigits(16, digits) && Room(f, |digits|)
    ensures var o := Stream(f, tr, digits + rest, at);
      if Fits(16, f.contentLength, digits) then
        o == Stream(Read(f, |digits|).(contentLength := Number(16, f.contentLength, digits)), tr, rest, at + |digits|)
      else o.Failed? && o.f.errno == InvalidContentLength
    decreases |digits|
  {
    hide Step, Stream, Unhex, Limit;
    if digits == "" {
      assert digits + rest == rest;
    } else {
      assert digits + rest == [digits[0]] + (digits[1..] + rest);
      StreamStep(f, tr, digits[0], digits[1..] + rest, at);
      ChunkSizeStep(f, tr, digits[0], at);
      if f.contentLength <= Limit(16) {
        var v := f.contentLength * 16 + Unhex(digits[0]);
        ReadChunkSize(Read(f, 1).(contentLength := v), tr, digits[1..], rest, at + 1);
      }
    }
  }
}
