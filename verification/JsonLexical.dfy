/** Numbers and the space between tokens of JSON text, written down as a grammar of
  their own (RFC 8259, sections 2 and 6, and the two kinds of comment), against
  what the parser takes.
 */
module JsonLexical {
  import opened Chars
  import opened Common
  import opened JsonText
  import opened JsonRoundTrip

  // ------------------------------------------------------------------ numbers

  datatype Exponent = Exponent(e: char, sign: string, digits: string)

  datatype Numeral = Numeral(minus: bool, whole: string, fraction: Option<string>, exponent: Option<Exponent>)

  predicate Digits(t: string) {
    t != "" && forall i | 0 <= i < |t| :: t[i] in "0123456789"
  }

  predicate Grammatical(n: Numeral) {
    && (n.whole == "0" || (Digits(n.whole) && n.whole[0] != '0'))
    && (n.fraction.Some? ==> Digits(n.fraction.value))
    && (n.exponent.Some? ==>
          var x := n.exponent.value; x.e in "eE" && x.sign in {"", "+", "-"} && Digits(x.digits))
  }

  function FractionText(f: Option<string>): string {
    if f.Some? then "." + f.value else ""
  }

  function ExponentText(x: Option<Exponent>): string {
    if x.Some? then [x.value.e] + (x.value.sign + x.value.digits) else ""
  }

  function TextOf(n: Numeral): string {
    (if n.minus then "-" else "") + (n.whole + (FractionText(n.fraction) + ExponentText(n.exponent)))
  }

  /** The character behind does not carry the number on. */
  predicate Ends(n: Numeral, next: char) {
    if n.exponent.Some? then next !in "0123456789"
    else if n.fraction.Some? then next !in "0123456789eE"
    else if n.whole == "0" then next !in ".eE"
    else next !in "0123456789.eE"
  }

  /** Its event: by size for a whole number of at most 64 bits, otherwise a double. */
  function EventOf(n: Numeral, o: Options): Option<Event>
    requires Grammatical(n)
  {
    WholeIsDigits(n);
    var v: int := Valued(n.whole);
    if n.fraction.None? && n.exponent.None? && n.minus && v <= 9223372036854775808 then
      Some(if v <= 2147483648 then Int(-v) else Int64(-v))
    else if n.fraction.None? && n.exponent.None? && !n.minus && v <= 18446744073709551615 then
      Some(if v <= 4294967295 then Uint(v) else Uint64(v))
    else
      var d := o.toDouble(TextOf(n));
      if d.None? then None else Some(Double(d.value))
  }

  lemma WholeIsDigits(n: Numeral)
    requires Grammatical(n)
    ensures Digits(n.whole)
  {
    assert n.whole == "0" ==> n.whole[0] in "0123456789";
  }

  function Valued(t: string): nat
    requires Digits(t)
  {
    DigitsAre(t);
    Decimal(t)
  }

  lemma DigitIff(c: char)
    ensures IsDigit(c) <==> c in "0123456789"
  {
    if IsDigit(c) {
      assert "0123456789"[c as int - '0' as int] == c;
    }
  }

  lemma DigitsAre(t: string)
    ensures Digits(t) <==> t != "" && AllDigits(t)
  {
    forall i | 0 <= i < |t| ensures IsDigit(t[i]) <==> t[i] in "0123456789" {
      DigitIff(t[i]);
    }
  }

  /** Digits stand in s from pos to end, and no other behind them. */
  lemma DigitsTaken(s: string, pos: nat, t: string)
    requires Digits(t) && Ahead(s, pos, t)
    ensures pos < |s| && IsDigit(Peek(s, pos)) && Peek(s, pos) == t[0]
    ensures !IsDigit(Peek(s, pos + |t|)) ==> DigitsEnd(s, pos) == pos + |t|
    ensures !IsDigit(Peek(s, pos + |t|)) ==> DigitsEnd(s, pos + 1) == pos + |t|
  {
    hide DigitsEnd;
    DigitsAre(t);
    forall i | pos <= i < pos + |t| ensures IsDigit(s[i]) {
      AheadAt(s, pos, t, i - pos);
    }
    AheadAt(s, pos, t, 0);
    if !IsDigit(Peek(s, pos + |t|)) {
      DigitsEndAt(s, pos, pos + |t|);
      DigitsEndAt(s, pos + 1, pos + |t|);
    }
  }

  lemma EndsExponent(n: Numeral, next: char)
    requires Ends(n, next)
    ensures if n.exponent.Some? then !IsDigit(next) else next != 'e' && next != 'E'
  {
    DigitIff(next);
  }

  lemma GrammaticalExponent(n: Numeral)
    requires Grammatical(n) && n.exponent.Some?
    ensures var x := n.exponent.value; x.e in "eE" && x.sign in {"", "+", "-"} && Digits(x.digits)
  {
  }

  lemma {:induction false} ExponentReads(s: string, pos: nat, n: Numeral)
    requires pos <= |s| && Grammatical(n) && Ahead(s, pos, ExponentText(n.exponent))
    requires Ends(n, Peek(s, pos + |ExponentText(n.exponent)|))
    ensures ExponentEnd(s, pos) == Some(pos + |ExponentText(n.exponent)|)
  {
    hide DigitsEnd, Digits, Ahead, Ends, Grammatical;
    EndsExponent(n, Peek(s, pos + |ExponentText(n.exponent)|));
    if n.exponent.Some? {
      GrammaticalExponent(n);
      SomeExponentReads(s, pos, n.exponent.value);
    }
  }

  lemma {:induction false} SomeExponentReads(s: string, pos: nat, x: Exponent)
    requires pos <= |s| && x.e in "eE" && x.sign in {"", "+", "-"} && Digits(x.digits)
    requires Ahead(s, pos, [x.e] + (x.sign + x.digits)) && !IsDigit(Peek(s, pos + 1 + |x.sign| + |x.digits|))
    ensures ExponentEnd(s, pos) == Some(pos + 1 + |x.sign| + |x.digits|)
  {
    hide DigitsEnd, Digits, Ahead;
    AheadTwo(s, pos, [x.e], x.sign + x.digits);
    AheadAt(s, pos, [x.e], 0);
    AheadTwo(s, pos + 1, x.sign, x.digits);
    DigitsTaken(s, pos + 1 + |x.sign|, x.digits);
    if x.sign != "" {
      AheadAt(s, pos + 1, x.sign, 0);
    }
  }

  /** What stands behind a fraction, or behind the digits, is no digit. */
  lemma {:induction false} NoDigitNext(s: string, pos: nat, n: Numeral)
    requires Grammatical(n) && Ahead(s, pos, ExponentText(n.exponent))
    requires Ends(n, Peek(s, pos + |ExponentText(n.exponent)|))
    ensures n.fraction.Some? || n.whole != "0" ==> !IsDigit(Peek(s, pos))
    ensures n.fraction.None? ==> Peek(s, pos) != '.'
  {
    hide Digits, Ahead;
    DigitIff(Peek(s, pos));
    if n.exponent.Some? {
      var x := n.exponent.value;
      AheadTwo(s, pos, [x.e], x.sign + x.digits);
      AheadAt(s, pos, [x.e], 0);
    }
  }

  lemma {:induction false} FractionReads(s: string, pos: nat, n: Numeral)
    requires Grammatical(n) && Ahead(s, pos, FractionText(n.fraction) + ExponentText(n.exponent))
    requires Ends(n, Peek(s, pos + |FractionText(n.fraction)| + |ExponentText(n.exponent)|))
    ensures var end := pos + |FractionText(n.fraction)|;
            && end + |ExponentText(n.exponent)| <= |s| && FractionEnd(s, pos) == Some(end)
            && ExponentEnd(s, end) == Some(end + |ExponentText(n.exponent)|)
    ensures n.whole != "0" ==> !IsDigit(Peek(s, pos))
  {
    hide DigitsEnd, Digits, Ahead, ExponentEnd, Ends;
    AheadIsIn(s, pos, FractionText(n.fraction) + ExponentText(n.exponent));
    AheadTwo(s, pos, FractionText(n.fraction), ExponentText(n.exponent));
    var end := pos + |FractionText(n.fraction)|;
    AheadIsIn(s, end, ExponentText(n.exponent));
    NoDigitNext(s, end, n);
    ExponentReads(s, end, n);
    if n.fraction.Some? {
      AheadTwo(s, pos, ".", n.fraction.value);
      AheadAt(s, pos, ".", 0);
      DigitsTaken(s, pos + 1, n.fraction.value);
    }
  }

  lemma AheadIsIn(s: string, pos: nat, t: string)
    requires Ahead(s, pos, t)
    ensures pos + |t| <= |s| && s[pos..pos + |t|] == t
  {
  }

  lemma {:induction false} WholeReads(s: string, pos: nat, n: Numeral)
    requires Grammatical(n) && Ahead(s, pos, n.whole)
    requires n.whole != "0" ==> !IsDigit(Peek(s, pos + |n.whole|))
    ensures pos < |s| && IsDigit(Peek(s, pos)) && IntegerEnd(s, pos) == pos + |n.whole|
    ensures Digits(n.whole) && pos + |n.whole| <= |s|
  {
    hide DigitsEnd, Ahead;
    WholeIsDigits(n);
    AheadIsIn(s, pos, n.whole);
    DigitsTaken(s, pos, n.whole);
  }

  /** A number stands at pos when its parts do. */
  lemma TextAhead(s: string, pos: nat, n: Numeral, sign: string)
    requires sign == if n.minus then "-" else ""
    ensures var start, tail := pos + |sign|, FractionText(n.fraction) + ExponentText(n.exponent);
            Ahead(s, pos, TextOf(n))
            <==> Ahead(s, pos, sign) && Ahead(s, start, n.whole) && Ahead(s, start + |n.whole|, tail)
    ensures |TextOf(n)| == |sign| + |n.whole| + |FractionText(n.fraction)| + |ExponentText(n.exponent)|
  {
    hide Ahead, FractionText, ExponentText;
    var tail := FractionText(n.fraction) + ExponentText(n.exponent);
    AheadTwo(s, pos, sign, n.whole + tail);
    AheadTwo(s, pos + |sign|, n.whole, tail);
  }

  lemma SignReads(s: string, pos: nat, minus: bool)
    requires Ahead(s, pos, if minus then "-" else "") && IsDigit(Peek(s, if minus then pos + 1 else pos))
    ensures Peek(s, pos) == '-' <==> minus
  {
    if minus {
      AheadAt(s, pos, "-", 0);
    }
  }

  /** Where the parts of a number of the grammar are found to end. */
  lemma {:induction false} PartsRead(s: string, start: nat, n: Numeral, end: nat)
    requires Grammatical(n) && Ahead(s, start, n.whole)
    requires Ahead(s, start + |n.whole|, FractionText(n.fraction) + ExponentText(n.exponent))
    requires end == start + |n.whole| + |FractionText(n.fraction)| + |ExponentText(n.exponent)| && Ends(n, Peek(s, end))
    ensures var intEnd := start + |n.whole|;
            && start < intEnd <= end <= |s|
            && IsDigit(Peek(s, start)) && IntegerEnd(s, start) == intEnd && Digits(n.whole)
            && FractionEnd(s, intEnd).Some? && ExponentEnd(s, FractionEnd(s, intEnd).value) == Some(end)
            && (intEnd == end <==> n.fraction.None? && n.exponent.None?)
  {
    hide DigitsEnd, Ahead, Ends, FractionEnd, ExponentEnd, IntegerEnd, FractionText, ExponentText, Grammatical, Digits,
         Peek, IsDigit;
    FractionReads(s, start + |n.whole|, n);
    WholeReads(s, start, n);
    TailIsEmpty(n);
  }

  /** A number of the grammar is read to its end, and as what it says. */
  lemma {:induction false} NumeralReads(s: string, pos: nat, n: Numeral, o: Options)
    requires pos <= |s| && Grammatical(n) && Ahead(s, pos, TextOf(n)) && Ends(n, Peek(s, pos + |TextOf(n)|))
    ensures var event := EventOf(n, o);
            ParseNumber(s, pos, o) == if event.None? then Failed([]) else Done(pos + |TextOf(n)|, [event.value])
  {
    hide DigitsEnd, Ahead, Ends, FractionEnd, ExponentEnd, IntegerEnd, Grammatical, TextOf, Digits, Decimal, Whole,
         ParseNumber, EventOf, Peek, IsDigit, AllDigits;
    var end := pos + |TextOf(n)|;
    var start := if n.minus then pos + 1 else pos;
    var intEnd := start + |n.whole|;
    TextAhead(s, pos, n, if n.minus then "-" else "");
    PartsRead(s, start, n, end);
    SignReads(s, pos, n.minus);
    AheadIsIn(s, pos, TextOf(n));
    AheadIsIn(s, start, n.whole);
    ParsedParts(s, pos, o, n.minus, start, intEnd, end);
    EventIs(n, o);
  }

  /** The event by the parts. */
  function EventBy(minus: bool, whole: string, text: string, isWhole: bool, o: Options): Option<Event>
    requires AllDigits(whole)
  {
    var event := if isWhole then Whole(minus, Decimal(whole)) else None;
    if event.Some? then event
    else
      var d := o.toDouble(text);
      if d.None? then None else Some(Double(d.value))
  }

  lemma ParsedParts(s: string, pos: nat, o: Options, minus: bool, start: nat, intEnd: nat, end: nat)
    requires pos <= start <= intEnd <= end <= |s| && IsDigit(Peek(s, start))
    requires (Peek(s, pos) == '-' <==> minus) && start == if minus then pos + 1 else pos
    requires IntegerEnd(s, start) == intEnd && FractionEnd(s, intEnd).Some?
    requires ExponentEnd(s, FractionEnd(s, intEnd).value) == Some(end)
    ensures AllDigits(s[start..intEnd])
    ensures var event := EventBy(minus, s[start..intEnd], s[pos..end], end == intEnd, o);
            ParseNumber(s, pos, o) == if event.None? then Failed([]) else Done(end, [event.value])
  {
    hide FractionEnd, ExponentEnd, IntegerEnd, Decimal, Whole;
  }

  lemma EventIs(n: Numeral, o: Options)
    requires Grammatical(n) && Digits(n.whole)
    ensures AllDigits(n.whole)
    ensures EventOf(n, o)
         == EventBy(n.minus, n.whole, TextOf(n), n.fraction.None? && n.exponent.None?, o)
  {
    hide Decimal, TextOf, Grammatical, Digits;
    DigitsAre(n.whole);
  }

  lemma TailIsEmpty(n: Numeral)
    ensures |FractionText(n.fraction)| + |ExponentText(n.exponent)| == 0 <==> n.fraction.None? && n.exponent.None?
  {
  }

  lemma SliceAhead(s: string, pos: nat, end: nat)
    requires pos <= end <= |s|
    ensures Ahead(s, pos, s[pos..end])
  {
  }

  lemma DigitsFound(s: string, pos: nat)
    requires pos <= |s| && IsDigit(Peek(s, pos))
    ensures var end := DigitsEnd(s, pos);
            && pos < end <= |s| && Digits(s[pos..end]) && Ahead(s, pos, s[pos..end])
            && !IsDigit(Peek(s, end)) && Peek(s, end) !in "0123456789"
  {
    var end := DigitsEnd(s, pos);
    DigitIff(Peek(s, end));
    SliceAhead(s, pos, end);
    DigitsAre(s[pos..end]);
  }

  lemma WholeFound(s: string, pos: nat)
    requires pos <= |s| && IsDigit(Peek(s, pos))
    ensures var end := IntegerEnd(s, pos);
            var t := s[pos..end];
            && Ahead(s, pos, t) && (t == "0" || (Digits(t) && t[0] != '0'))
            && (t == "0" || Peek(s, end) !in "0123456789")
  {
    var end := IntegerEnd(s, pos);
    SliceAhead(s, pos, end);
    if Peek(s, pos) != '0' {
      DigitsFound(s, pos);
    }
  }

  lemma {:induction false} FractionFound(s: string, pos: nat) returns (f: Option<string>)
    requires pos <= |s| && FractionEnd(s, pos).Some?
    ensures f.Some? ==> Digits(f.value)
    ensures Ahead(s, pos, FractionText(f)) && FractionEnd(s, pos) == Some(pos + |FractionText(f)|)
    ensures if f.Some? then Peek(s, pos + |FractionText(f)|) !in "0123456789" else Peek(s, pos) != '.'
  {
    hide DigitsEnd, Digits, Ahead;
    f := None;
    if Peek(s, pos) == '.' {
      DigitsFound(s, pos + 1);
      var end := DigitsEnd(s, pos + 1);
      f := Some(s[pos + 1..end]);
      AheadTwo(s, pos, ".", f.value);
      SliceAhead(s, pos, pos + 1);
      assert s[pos..pos + 1] == ".";
    } else {
      SliceAhead(s, pos, pos);
    }
  }

  lemma {:induction false} ExponentFound(s: string, pos: nat) returns (x: Option<Exponent>)
    requires pos <= |s| && ExponentEnd(s, pos).Some?
    ensures x.Some? ==> x.value.e in "eE" && x.value.sign in {"", "+", "-"} && Digits(x.value.digits)
    ensures Ahead(s, pos, ExponentText(x)) && ExponentEnd(s, pos) == Some(pos + |ExponentText(x)|)
    ensures if x.Some? then Peek(s, pos + |ExponentText(x)|) !in "0123456789" else Peek(s, pos) !in "eE"
  {
    hide DigitsEnd, Digits, Ahead;
    x := None;
    if Peek(s, pos) == 'e' || Peek(s, pos) == 'E' {
      var signed := Peek(s, pos + 1) == '+' || Peek(s, pos + 1) == '-';
      var p := if signed then pos + 2 else pos + 1;
      DigitsFound(s, p);
      var end := DigitsEnd(s, p);
      SignSlice(s, pos + 1, p);
      x := Some(Exponent(s[pos], s[pos + 1..p], s[p..end]));
      ExponentSlices(s, pos, p, end);
    } else {
      SliceAhead(s, pos, pos);
    }
  }

  lemma SignSlice(s: string, pos: nat, p: nat)
    requires pos <= p <= |s| && p <= pos + 1
    ensures s[pos..p] == if p == pos then "" else [s[pos]]
  {
  }

  lemma ExponentSlices(s: string, pos: nat, p: nat, end: nat)
    requires pos < p <= end <= |s|
    ensures Ahead(s, pos, [s[pos]] + (s[pos + 1..p] + s[p..end]))
  {
    assert [s[pos]] + (s[pos + 1..p] + s[p..end]) == s[pos..end];
  }

  /** Whatever the parser takes for a number is one of the grammar. */
  lemma {:induction false} NumeralFound(s: string, pos: nat, o: Options) returns (n: Numeral)
    requires pos <= |s| && ParseNumber(s, pos, o).Done?
    ensures Grammatical(n) && Ahead(s, pos, TextOf(n)) && Ends(n, Peek(s, pos + |TextOf(n)|))
  {
    hide Digits, Ahead, IntegerEnd, FractionEnd, ExponentEnd, Ends, FractionText, ExponentText, TextOf, IsDigit;
    var minus := Peek(s, pos) == '-';
    var sign := if minus then "-" else "";
    var start := pos + |sign|;
    var intEnd := IntegerEnd(s, start);
    WholeFound(s, start);
    var whole := s[start..intEnd];
    var f := FractionFound(s, intEnd);
    var fracEnd := FractionEnd(s, intEnd).value;
    var x := ExponentFound(s, fracEnd);
    n := Numeral(minus, whole, f, x);
    NoneIsEmpty(f, x);
    SliceAhead(s, pos, start);
    SignSlice(s, pos, start);
    AheadTwo(s, intEnd, FractionText(f), ExponentText(x));
    TextAhead(s, pos, n, sign);
    EndsThere(n, Peek(s, intEnd), Peek(s, fracEnd), Peek(s, pos + |TextOf(n)|));
  }

  lemma NoneIsEmpty(f: Option<string>, x: Option<Exponent>)
    ensures (f.None? ==> FractionText(f) == "") && (x.None? ==> ExponentText(x) == "")
  {
  }

  lemma EndsThere(n: Numeral, afterWhole: char, afterFraction: char, next: char)
    requires n.whole == "0" || afterWhole !in "0123456789"
    requires if n.fraction.Some? then afterFraction !in "0123456789" else afterFraction == afterWhole != '.'
    requires if n.exponent.Some? then next !in "0123456789" else next == afterFraction && next !in "eE"
    ensures Ends(n, next)
  {
  }

  /** The parser takes a number exactly when one of the grammar stands there, as long as
      it goes: a minus, digits without a leading zero, a fraction and an exponent,
      each with a digit at least; and the event is the one of that number. */
  lemma NumberIff(s: string, pos: nat, o: Options, r: Result)
    requires pos <= |s| && r.Done?
    ensures ParseNumber(s, pos, o) == r
            <==> exists n :: && Grammatical(n) && Ahead(s, pos, TextOf(n)) && Ends(n, Peek(s, pos + |TextOf(n)|))
                             && EventOf(n, o).Some? && r == Done(pos + |TextOf(n)|, [EventOf(n, o).value])
  {
    hide ParseNumber, TextOf, EventOf, Ends, Grammatical, Ahead;
    if ParseNumber(s, pos, o) == r {
      var n := NumeralFound(s, pos, o);
      NumeralReads(s, pos, n, o);
    }
    if n :| && Grammatical(n) && Ahead(s, pos, TextOf(n)) && Ends(n, Peek(s, pos + |TextOf(n)|))
            && EventOf(n, o).Some? && r == Done(pos + |TextOf(n)|, [EventOf(n, o).value]) {
      NumeralReads(s, pos, n, o);
    }
  }

  // ------------------------------------------------------- spaces and comments

  /** One piece of what may stand between tokens, from i to k: a space, or, if they are
      allowed, a comment of either kind. A NUL ends the text. */
  predicate Gap(s: string, i: nat, k: nat, comments: bool) {
    && i < k <= |s|
    && ((k == i + 1 && s[i] as int in {32, 10, 13, 9})
        || (comments && (BlockComment(s, i, k) || LineComment(s, i, k))))
  }

  predicate BlockComment(s: string, i: nat, k: nat)
    requires k <= |s|
  {
    && i + 4 <= k && s[i..i + 2] == "/*" && s[k - 2..k] == "*/"
    && (forall m | i + 2 <= m < k :: s[m] != '\0')
    && forall m | i + 2 <= m < k - 2 :: !(s[m] == '*' && s[m + 1] == '/')
  }

  /** Up to and with the newline, or to the end of the text. */
  predicate LineComment(s: string, i: nat, k: nat)
    requires k <= |s|
  {
    && i + 2 <= k && s[i..i + 2] == "//"
    && (forall m | i + 2 <= m < k - 1 :: s[m] != '\0' && s[m] as int != 10)
    && if k > i + 2 && s[k - 1] as int == 10 then true
       else (k > i + 2 ==> s[k - 1] != '\0') && (k == |s| || s[k] == '\0')
  }

  ghost predicate Gaps(s: string, i: nat, k: nat, comments: bool)
    decreases k - i
  {
    i == k || exists m :: i < m <= k && Gap(s, i, m, comments) && Gaps(s, m, k, comments)
  }

  lemma {:induction false} BlockReads(s: string, i: nat, pos: nat, k: nat)
    requires k <= |s| && BlockComment(s, i, k) && i + 2 <= pos <= k - 2
    ensures BlockEnd(s, pos) == Some(k)
    decreases k - pos
  {
    if pos < k - 2 {
      BlockReads(s, i, pos + 1, k);
    } else {
      assert s[k - 2..k][0] == s[k - 2] && s[k - 2..k][1] == s[k - 1];
    }
  }

  lemma {:induction false} BlockFound(s: string, pos: nat)
    requires pos <= |s| && BlockEnd(s, pos).Some?
    ensures var k := BlockEnd(s, pos).value;
            && pos + 2 <= k <= |s| && s[k - 2..k] == "*/"
            && (forall m | pos <= m < k :: s[m] != '\0')
            && forall m | pos <= m < k - 2 :: !(s[m] == '*' && s[m + 1] == '/')
    decreases |s| - pos
  {
    var k := BlockEnd(s, pos).value;
    if Peek(s, pos) == '*' && Peek(s, pos + 1) == '/' {
      assert s[pos..pos + 2] == "*/";
    } else {
      BlockFound(s, pos + 1);
    }
  }

  lemma {:induction false} LineReads(s: string, i: nat, pos: nat, k: nat)
    requires k <= |s| && LineComment(s, i, k) && i + 2 <= pos <= k
    requires pos == k ==> k == i + 2 || s[k - 1] as int != 10
    ensures LineEnd(s, pos) == k
    decreases k - pos
  {
    if pos < k && s[pos] as int != 10 {
      LineReads(s, i, pos + 1, k);
    }
  }

  lemma {:induction false} LineFound(s: string, pos: nat)
    requires pos <= |s|
    ensures var k := LineEnd(s, pos);
            && pos <= k <= |s| && (forall m | pos <= m < k - 1 :: s[m] != '\0' && s[m] as int != 10)
            && if k > pos && s[k - 1] as int == 10 then true
               else (k > pos ==> s[k - 1] != '\0') && (k == |s| || s[k] == '\0')
    decreases |s| - pos
  {
    if Peek(s, pos) != '\0' && s[pos] != '\n' {
      LineFound(s, pos + 1);
    }
  }

  /** One piece at pos is passed over. */
  lemma {:induction false} GapReads(s: string, pos: nat, k: nat, comments: bool)
    requires k <= |s| && Gap(s, pos, k, comments)
    ensures Skip(s, pos, comments) == Skip(s, k, comments)
  {
    if BlockComment(s, pos, k) && !IsSpace(Peek(s, pos)) {
      assert s[pos..pos + 2][0] == s[pos] && s[pos..pos + 2][1] == s[pos + 1];
      BlockReads(s, pos, pos + 2, k);
    } else if LineComment(s, pos, k) && !IsSpace(Peek(s, pos)) {
      assert s[pos..pos + 2][0] == s[pos] && s[pos..pos + 2][1] == s[pos + 1];
      LineReads(s, pos, pos + 2, k);
    }
  }

  lemma {:induction false} GapsRead(s: string, pos: nat, k: nat, comments: bool)
    requires pos <= k <= |s| && Gaps(s, pos, k, comments)
    ensures Skip(s, pos, comments) == Skip(s, k, comments)
    decreases k - pos
  {
    hide Skip, Gap;
    if pos < k {
      var m :| pos < m <= k && Gap(s, pos, m, comments) && Gaps(s, m, k, comments);
      GapReads(s, pos, m, comments);
      GapsRead(s, m, k, comments);
    }
  }

  /** What stands at the end of the gaps: no space, and no slash where comments are
      allowed. */
  predicate NoGap(c: char, comments: bool) {
    c as int !in {32, 10, 13, 9} && (comments ==> c != '/')
  }

  lemma {:induction false} GapsFound(s: string, pos: nat, comments: bool)
    requires pos <= |s| && Skip(s, pos, comments).Some?
    ensures var k := Skip(s, pos, comments).value;
            pos <= k <= |s| && Gaps(s, pos, k, comments) && NoGap(Peek(s, k), comments)
    decreases |s| - pos
  {
    hide Skip, Gap;
    if !NoGap(Peek(s, pos), comments) {
      var m := NextGap(s, pos, comments);
      GapReads(s, pos, m, comments);
      GapsFound(s, m, comments);
      assert Gap(s, pos, m, comments) && Gaps(s, m, Skip(s, pos, comments).value, comments);
    } else {
      NothingSkipped(s, pos, comments);
    }
  }

  lemma {:induction false} NextGap(s: string, pos: nat, comments: bool) returns (m: nat)
    requires pos <= |s| && Skip(s, pos, comments).Some? && !NoGap(Peek(s, pos), comments)
    ensures pos < m <= |s| && Gap(s, pos, m, comments)
  {
    if IsSpace(Peek(s, pos)) {
      m := pos + 1;
    } else {
      assert s[pos..pos + 2] == [s[pos], s[pos + 1]];
      if Peek(s, pos + 1) == '*' {
        m := BlockEnd(s, pos + 2).value;
        BlockFound(s, pos + 2);
        assert BlockComment(s, pos, m);
      } else {
        m := LineEnd(s, pos + 2);
        LineFound(s, pos + 2);
        assert LineComment(s, pos, m);
      }
    }
  }

  lemma NothingSkipped(s: string, pos: nat, comments: bool)
    requires pos <= |s| && NoGap(Peek(s, pos), comments)
    ensures Skip(s, pos, comments) == Some(pos)
  {
  }

  /** Space and, where they are allowed, comments are passed over as far as they go:
      the four spaces, comments up to the first star and slash, and comments up to the
      newline or the end of the text. */
  lemma SkipIff(s: string, pos: nat, end: nat, comments: bool)
    requires pos <= |s|
    ensures Skip(s, pos, comments) == Some(end)
            <==> pos <= end <= |s| && Gaps(s, pos, end, comments) && NoGap(Peek(s, end), comments)
  {
    hide Skip, Gaps;
    if Skip(s, pos, comments) == Some(end) {
      GapsFound(s, pos, comments);
    }
    if pos <= end <= |s| && Gaps(s, pos, end, comments) && NoGap(Peek(s, end), comments) {
      GapsRead(s, pos, end, comments);
      NothingSkipped(s, end, comments);
    }
  }
}
