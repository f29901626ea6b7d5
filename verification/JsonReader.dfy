/** The reader as the object that moves a cursor over the text and sends events,
  loop by loop, proved against the functions of JsonText and JsonIterative.
 */
module JsonReader {
  import opened Chars
  import opened Common
  import opened Utf8
  import opened JsonText
  import opened JsonIterative
  import JsonStrings

  lemma AfterTwice(r: Result, a: seq<Event>, b: seq<Event>)
    ensures r.After(a).After(b) == r.After(b + a)
  {
    assert b + (a + r.events) == b + a + r.events;
  }

  lemma AfterNothing(r: Result)
    ensures r.After([]) == r
  {
    assert [] + r.events == r.events;
  }

  class Reader {
    const s: string
    const o: Options
    var pos: nat
    /** What has been sent to the handler. */
    var events: seq<Event>
    /** A parse error has been set. */
    var failed: bool
    /** The stack of the iterative parser. */
    var stack: seq<Frame>

    ghost predicate Ready()
      reads this
    {
      pos <= |s| && !failed
    }

    /** The reader has done r since the state before. */
    twostate predicate Has(r: Result)
      reads this
    {
      failed == r.Failed? && events == old(events) + r.events && pos <= |s| && (r.Done? ==> pos == r.pos)
    }

    constructor (text: string, options: Options)
      ensures Ready() && s == text && o == options && pos == 0 && events == []
    {
      s, o := text, options;
      pos, events, failed, stack := 0, [], false, [];
    }

    method Consume(wanted: char) returns (taken: bool)
      requires pos <= |s| && wanted != '\0'
      modifies this`pos
      ensures taken == (Peek(s, old(pos)) == wanted)
      ensures pos == if taken then old(pos) + 1 else old(pos)
      ensures pos <= |s|
    {
      taken := Peek(s, pos) == wanted;
      if taken {
        pos := pos + 1;
      }
    }

    // ----------------------------------------------------- spaces and comments

    method SkipSpaces()
      requires pos <= |s|
      modifies this`pos
      ensures pos == SkipWhitespace(s, old(pos))
    {
      while IsSpace(Peek(s, pos))
        invariant pos <= |s| && SkipWhitespace(s, pos) == SkipWhitespace(s, old(pos))
        decreases |s| - pos
      {
        pos := pos + 1;
      }
    }

    method SkipWhitespaceAndComments()
      requires Ready()
      modifies this`pos, this`failed
      ensures var r := Skip(s, old(pos), o.comments); failed == r.None? && pos <= |s| && (r.Some? ==> pos == r.value)
    {
      hide Skip;
      SkipFromSpaces(pos);
      SkipSpaces();
      if o.comments {
        while Peek(s, pos) == '/'
          invariant Ready() && !IsSpace(Peek(s, pos)) && Skip(s, pos, o.comments) == Skip(s, old(pos), o.comments)
          decreases |s| - pos
        {
          SkipComment();
          if failed {
            return;
          }
          SkipFromSpaces(pos);
          SkipSpaces();
        }
      }
      NothingToSkip(pos);
    }

    method SkipComment()
      requires Ready() && Peek(s, pos) == '/'
      modifies this`pos, this`failed
      ensures pos <= |s| && (!failed ==> pos > old(pos))
      ensures Skip(s, old(pos), true) == if failed then None else Skip(s, pos, true)
    {
      hide BlockEnd, LineEnd;
      NoSpaceToSkip(pos);
      pos := pos + 1;
      var star := Consume('*');
      if star {
        EndBlock();
      } else {
        var slash := Consume('/');
        if slash {
          EndLine();
        } else {
          failed := true;
        }
      }
    }

    lemma NothingToSkip(p: nat)
      requires p <= |s| && !IsSpace(Peek(s, p)) && (o.comments ==> Peek(s, p) != '/')
      ensures Skip(s, p, o.comments) == Some(p)
    {
      NoSpaceToSkip(p);
    }

    lemma NoSpaceToSkip(p: nat)
      requires p <= |s| && !IsSpace(Peek(s, p))
      ensures SkipWhitespace(s, p) == p
    {
    }

    lemma SkipFromSpaces(p: nat)
      requires p <= |s|
      ensures Skip(s, p, o.comments) == Skip(s, SkipWhitespace(s, p), o.comments)
    {
      NoSpaceToSkip(SkipWhitespace(s, p));
    }

    method EndBlock()
      requires Ready()
      modifies this`pos, this`failed
      ensures var r := BlockEnd(s, old(pos)); failed == r.None? && pos <= |s| && (r.Some? ==> pos == r.value)
    {
      while true
        invariant Ready() && BlockEnd(s, pos) == BlockEnd(s, old(pos))
        decreases |s| - pos
      {
        if Peek(s, pos) == '\0' {
          failed := true;
          return;
        }
        var star := Consume('*');
        if star {
          var slash := Consume('/');
          if slash {
            return;
          }
        } else {
          pos := pos + 1;
        }
      }
    }

    method EndLine()
      requires pos <= |s|
      modifies this`pos
      ensures pos == LineEnd(s, old(pos))
    {
      while Peek(s, pos) != '\0'
        invariant pos <= |s| && LineEnd(s, pos) == LineEnd(s, old(pos))
        decreases |s| - pos
      {
        pos := pos + 1;
        if s[pos - 1] == '\n' {
          return;
        }
      }
    }

    // ----------------------------------------------------- literals and strings

    /** `ParseNull`, `ParseTrue` and `ParseFalse`: the first letter is known. */
    method ParseLiteral(word: string, event: Event)
      requires Ready() && |word| >= 1 && '\0' !in word && Peek(s, pos) == word[0]
      modifies this`pos, this`events, this`failed
      ensures Has(Literal(s, old(pos), word, event))
    {
      var start := pos;
      pos := pos + 1;
      var n := 1;
      while n < |word|
        invariant Ready() && 1 <= n <= |word| && pos == start + n && events == old(events)
        invariant s[start..pos] == word[..n]
      {
        var taken := Consume(word[n]);
        if !taken {
          NotAhead(s, start, word, n);
          failed := true;
          return;
        }
        n := n + 1;
      }
      assert word[..n] == word;
      events := events + [event];
    }

    /** `ParseHex4`: the accumulator is unsigned and takes the digit in two steps. */
    method ParseHex4() returns (codepoint: nat)
      requires Ready()
      modifies this`pos, this`failed
      ensures var r := Hex4(s, old(pos));
              failed == r.None? && pos <= |s| && (r.Some? ==> pos == old(pos) + 4 && codepoint == r.value)
    {
      codepoint := 0;
      var n := 0;
      while n < 4
        invariant 0 <= n <= 4 && Ready() && pos == old(pos) + n
        invariant HexPrefix(s, old(pos), n) == Some(codepoint) && codepoint < 0x1000_0000
        invariant n <= 3 ==> codepoint < 0x1000
        invariant n <= 2 ==> codepoint < 0x100
        invariant n <= 1 ==> codepoint < 0x10
        invariant n == 0 ==> codepoint == 0
      {
        var c := Peek(s, pos);
        var wide := codepoint * 16 + (c as int);
        if '0' <= c <= '9' {
          codepoint := wide - ('0' as int);
        } else if 'A' <= c <= 'F' {
          codepoint := wide - (('A' as int) - 10);
        } else if 'a' <= c <= 'f' {
          codepoint := wide - (('a' as int) - 10);
        } else {
          Hex4Fails(s, old(pos), n);
          failed := true;
          return;
        }
        pos := pos + 1;
        n := n + 1;
      }
      FourHexDigits(s, old(pos));
    }

    /** `ParseStringToStream`, from behind the opening quote. */
    method ParseStringToStream() returns (os: string)
      requires Ready()
      modifies this`pos, this`failed
      ensures var r := StringRest(s, old(pos));
              failed == r.None? && pos <= |s| && (r.Some? ==> pos == r.value.0 && os == r.value.1)
    {
      hide Hex4, Encode;
      os := "";
      PutNothing(StringRest(s, pos));
      while true
        invariant Ready() && StringRest(s, old(pos)) == Put(os, StringRest(s, pos))
        decreases |s| - pos
      {
        var c := Peek(s, pos);
        if c == '\\' {
          pos := pos + 1;
          var e := Unescaped(Peek(s, pos));
          if e.Some? {
            PutTwice(os, [e.value], StringRest(s, pos + 1));
            pos := pos + 1;
            os := os + [e.value];
          } else if Peek(s, pos) == 'u' {
            pos := pos + 1;
            var codepoint := ParseUnicode();
            if failed {
              return;
            }
            PutTwice(os, Encode(codepoint), StringRest(s, pos));
            os := os + Encode(codepoint);
          } else {
            failed := true;
            return;
          }
        } else if c == '\"' {
          pos := pos + 1;
          assert os + "" == os;
          return;
        } else if c as int < 0x20 {
          failed := true;
          return;
        } else {
          PutTwice(os, [c], StringRest(s, pos + 1));
          pos := pos + 1;
          os := os + [c];
        }
      }
    }

    /** A code point after `\u`, two escapes long when it is a surrogate pair. */
    method ParseUnicode() returns (codepoint: nat)
      requires Ready()
      modifies this`pos, this`failed
      ensures var r := UnicodeEscape(s, old(pos));
              failed == r.None? && pos <= |s| && (r.Some? ==> (pos, codepoint) == r.value)
      ensures if failed then forall end: nat, n: nat :: !JsonStrings.Denotes(s, old(pos), end, n)
              else JsonStrings.Denotes(s, old(pos), pos, codepoint)
    {
      hide Hex4, JsonStrings.Denotes;
      forall end: nat, n: nat
        ensures UnicodeEscape(s, pos) == Some((end, n)) <==> JsonStrings.Denotes(s, pos, end, n)
      {
        JsonStrings.UnicodeEscapeIff(s, pos, end, n);
      }
      codepoint := ParseHex4();
      if failed {
        return;
      }
      if 0xD800 <= codepoint <= 0xDBFF {
        var backslash := Consume('\\');
        if !backslash {
          failed := true;
          return;
        }
        var u := Consume('u');
        if !u {
          failed := true;
          return;
        }
        var codepoint2 := ParseHex4();
        if failed {
          return;
        }
        if codepoint2 < 0xDC00 || codepoint2 > 0xDFFF {
          failed := true;
          return;
        }
        codepoint := (codepoint - 0xD800) * 0x400 + (codepoint2 - 0xDC00) + 0x10000;
      }
    }

    method ParseString(isKey: bool)
      requires Ready() && Peek(s, pos) == '\"'
      modifies this`pos, this`events, this`failed
      ensures Has(JsonText.ParseString(s, old(pos), isKey))
    {
      hide StringRest;
      pos := pos + 1;
      var str := ParseStringToStream();
      if !failed {
        events := events + [if isKey then Key(str) else String(str)];
      }
    }

    // ------------------------------------------------------------------ numbers

    /** Takes digits while one more still fits below ten times `tenth` plus `last`,
        so that the accumulator never wraps at the width this is the maximum of. */
    method TakeDigits(ghost start: nat, i0: nat, tenth: nat, last: char) returns (i: nat, more: bool)
      requires Ready() && start <= pos && DigitsFrom(s, start, pos) && i0 == Decimal(s[start..pos]) && IsDigit(last)
      requires i0 <= tenth * 10 + Digit(last)
      modifies this`pos
      ensures Ready() && old(pos) <= pos && DigitsFrom(s, start, pos)
      ensures i == Decimal(s[start..pos]) <= tenth * 10 + Digit(last)
      ensures more <==> IsDigit(Peek(s, pos))
      ensures more ==> i * 10 + Digit(Peek(s, pos)) > tenth * 10 + Digit(last)
    {
      hide Decimal;
      i := i0;
      while IsDigit(Peek(s, pos))
        invariant Ready() && old(pos) <= pos && DigitsFrom(s, start, pos)
        invariant i == Decimal(s[start..pos]) <= tenth * 10 + Digit(last)
        decreases |s| - pos
      {
        if i >= tenth {
          if i != tenth || Peek(s, pos) > last {
            return i, true;
          }
        }
        DecimalSnoc(s, start, pos);
        i := i * 10 + Digit(Peek(s, pos));
        pos := pos + 1;
      }
      more := false;
    }

    method SkipDigits()
      requires Ready()
      modifies this`pos
      ensures Ready() && pos == DigitsEnd(s, old(pos))
    {
      while IsDigit(Peek(s, pos))
        invariant Ready() && DigitsEnd(s, pos) == DigitsEnd(s, old(pos))
        decreases |s| - pos
      {
        pos := pos + 1;
      }
    }

    /** The digits before a fraction: a 32-bit accumulator first, then a 64-bit one,
        then, for a number too big for both, no accumulator. */
    method ParseInteger(minus: bool) returns (use64bit: bool, useDouble: bool, i: nat, i64: nat)
      requires Ready() && IsDigit(Peek(s, pos))
      modifies this`pos
      ensures Ready() && pos == IntegerEnd(s, old(pos))
      ensures var n := Decimal(s[old(pos)..pos]);
              && (use64bit <==> n > Max32(minus)) && (useDouble <==> n > Max64(minus))
              && (!use64bit ==> i == n) && (use64bit && !useDouble ==> i64 == n)
    {
      hide Decimal, DigitsEnd;
      ghost var start := pos;
      use64bit, useDouble, i, i64 := false, false, 0, 0;
      var zero := Peek(s, pos) == '0';
      i := Digit(Peek(s, pos));
      DecimalOne(s, pos);
      pos := pos + 1;
      if zero {
        return;
      }
      var last := if minus then '8' else '5';
      var more: bool;
      i, more := TakeDigits(start, i, if minus then 214748364 else 429496729, last);
      if more {
        use64bit := true;
        DecimalTooBig(s, start, pos, Max32(minus));
        i64, more := TakeDigits(start, i, if minus then 0x0CCC_CCCC_CCCC_CCCC else 0x1999_9999_9999_9999, last);
        if more {
          useDouble := true;
          DecimalTooBig(s, start, pos, Max64(minus));
        }
      }
      ghost var reached := pos;
      SkipDigits();
      DigitsEndFrom(s, start + 1, reached);
      DecimalGrows(s, start, reached, pos);
    }

    /** A fraction, if it is there. */
    method SkipFraction() returns (there: bool)
      requires Ready()
      modifies this`pos, this`failed
      ensures pos <= |s|
      ensures var f := FractionEnd(s, old(pos));
              failed == f.None? && (f.Some? ==> pos == f.value && (there <==> pos != old(pos)))
    {
      hide DigitsEnd;
      there := Consume('.');
      if there {
        if !IsDigit(Peek(s, pos)) {
          failed := true;
          return;
        }
        SkipDigits();
      }
    }

    /** An exponent, if it is there. */
    method SkipExponent() returns (there: bool)
      requires Ready()
      modifies this`pos, this`failed
      ensures pos <= |s|
      ensures var e := ExponentEnd(s, old(pos));
              failed == e.None? && (e.Some? ==> pos == e.value && (there <==> pos != old(pos)))
    {
      hide DigitsEnd;
      there := Consume('e');
      if !there {
        there := Consume('E');
      }
      if there {
        var sign := Consume('+');
        if !sign {
          sign := Consume('-');
        }
        if !IsDigit(Peek(s, pos)) {
          failed := true;
          return;
        }
        SkipDigits();
      }
    }

    method ParseNumber()
      requires Ready()
      modifies this`pos, this`events, this`failed
      ensures Has(JsonText.ParseNumber(s, old(pos), o))
    {
      hide Decimal, IntegerEnd, FractionEnd, ExponentEnd;
      var startOffset := pos;
      var minus := Consume('-');
      if !IsDigit(Peek(s, pos)) {
        failed := true;
        return;
      }
      ghost var start := pos;
      var use64bit, useDouble, i, i64 := ParseInteger(minus);
      ghost var n := Decimal(s[start..pos]);
      var fraction := SkipFraction();
      if failed {
        return;
      }
      var exponent := SkipExponent();
      if failed {
        return;
      }
      if useDouble || fraction || exponent {
        var d := o.toDouble(s[startOffset..pos]);
        if d.None? {
          failed := true;
        } else {
          events := events + [Double(d.value)];
        }
      } else if use64bit {
        events := events + [if minus then Int64(Signed(Negate(i64, 64), 64)) else Uint64(i64)];
      } else {
        events := events + [if minus then Int(Signed(Negate(i, 32), 32)) else Uint(i)];
      }
    }

    // --------------------------------------------------------- arrays, objects

    /** What an array or object under way promises, `whole` being all of it: the
        events so far, and that it has come to an end, unless there is more. */
    ghost predicate Ends(before: seq<Event>, whole: Result)
      reads this
    {
      failed == whole.Failed? && events == before + whole.events && (whole.Done? ==> pos == whole.pos)
    }

    method ParseObject()
      requires Ready() && Peek(s, pos) == '{'
      modifies this`pos, this`events, this`failed
      ensures Has(JsonText.ParseObject(s, old(pos), o).After([StartObject]))
      decreases |s| - pos, 0
    {
      hide Skip, JsonText.ParseObject, ParseMembers;
      ObjectUnfolds(s, pos, o);
      ghost var whole := JsonText.ParseObject(s, pos, o);
      ghost var before := events + [StartObject];
      pos := pos + 1;
      events := events + [StartObject];
      SkipWhitespaceAndComments();
      if failed {
        return;
      }
      var empty := Consume('}');
      if empty {
        events := events + [EndObject(0)];
        return;
      }
      var memberCount, more := 0, true;
      AfterNothing(ParseMembers(s, pos, 0, o));
      while more && !failed
        invariant pos <= |s| && before <= events
        invariant more && !failed ==>
                    pos > old(pos) && whole == ParseMembers(s, pos, memberCount, o).After(events[|before|..])
        invariant !more || failed ==> Ends(before, whole)
        decreases more && !failed, |s| - pos
      {
        more := ParseMember(memberCount, before, whole);
        memberCount := Increment(memberCount);
      }
      assert before + whole.events == old(events) + ([StartObject] + whole.events);
    }

    /** One member and what follows it. */
    method ParseMember(count: nat, ghost before: seq<Event>, ghost whole: Result) returns (more: bool)
      requires Ready() && before <= events && whole == ParseMembers(s, pos, count, o).After(events[|before|..])
      modifies this`pos, this`events, this`failed
      ensures pos <= |s| && before <= events
      ensures !failed && more ==>
                pos > old(pos) && whole == ParseMembers(s, pos, Increment(count), o).After(events[|before|..])
      ensures failed || !more ==> Ends(before, whole)
      decreases |s| - pos, 3
    {
      hide Skip, JsonText.ParseString, KeyTail;
      more := false;
      ghost var sofar := events[|before|..];
      if Peek(s, pos) != '\"' {
        failed := true;
        return;
      }
      ghost var key := JsonText.ParseString(s, pos, true);
      ParseString(true);
      if failed {
        return;
      }
      assert events[|before|..] == sofar + key.events;
      SkipWhitespaceAndComments();
      if failed {
        return;
      }
      AfterTwice(KeyTail(s, pos, count, o), key.events, sofar);
      more := ParseMemberValue(count, before, whole);
    }

    /** The rest of one member from its colon on, and what follows it. */
    method ParseMemberValue(count: nat, ghost before: seq<Event>, ghost whole: Result) returns (more: bool)
      requires Ready() && before <= events && whole == KeyTail(s, pos, count, o).After(events[|before|..])
      modifies this`pos, this`events, this`failed
      ensures pos <= |s| && before <= events
      ensures !failed && more ==>
                pos > old(pos) && whole == ParseMembers(s, pos, Increment(count), o).After(events[|before|..])
      ensures failed || !more ==> Ends(before, whole)
      decreases |s| - pos, 2
    {
      hide Skip, JsonText.ParseValue, ParseMembers;
      more := false;
      ghost var sofar := events[|before|..];
      var colon := Consume(':');
      if !colon {
        failed := true;
        return;
      }
      SkipWhitespaceAndComments();
      if failed {
        return;
      }
      ghost var value := JsonText.ParseValue(s, pos, o);
      ParseValue();
      if failed {
        return;
      }
      SkipWhitespaceAndComments();
      if failed {
        return;
      }
      assert events[|before|..] == sofar + value.events;
      AfterTwice(MemberTail(s, pos, count, o), value.events, sofar);
      more := Consume(',');
      if more {
        SkipWhitespaceAndComments();
      } else {
        var end := Consume('}');
        if end {
          events := events + [EndObject(Increment(count))];
        } else {
          failed := true;
        }
      }
    }

    method ParseArray()
      requires Ready() && Peek(s, pos) == '['
      modifies this`pos, this`events, this`failed
      ensures Has(JsonText.ParseArray(s, old(pos), o).After([StartArray]))
      decreases |s| - pos, 0
    {
      hide Skip, JsonText.ParseArray, ParseElements;
      ArrayUnfolds(s, pos, o);
      ghost var whole := JsonText.ParseArray(s, pos, o);
      ghost var before := events + [StartArray];
      pos := pos + 1;
      events := events + [StartArray];
      SkipWhitespaceAndComments();
      if failed {
        return;
      }
      var empty := Consume(']');
      if empty {
        events := events + [EndArray(0)];
        return;
      }
      var elementCount, more := 0, true;
      AfterNothing(ParseElements(s, pos, 0, o));
      while more && !failed
        invariant pos <= |s| && before <= events
        invariant more && !failed ==>
                    pos > old(pos) && whole == ParseElements(s, pos, elementCount, o).After(events[|before|..])
        invariant !more || failed ==> Ends(before, whole)
        decreases more && !failed, |s| - pos
      {
        more := ParseElement(elementCount, before, whole);
        elementCount := Increment(elementCount);
      }
      assert before + whole.events == old(events) + ([StartArray] + whole.events);
    }

    /** One element and what follows it. */
    method ParseElement(count: nat, ghost before: seq<Event>, ghost whole: Result) returns (more: bool)
      requires Ready() && before <= events && whole == ParseElements(s, pos, count, o).After(events[|before|..])
      modifies this`pos, this`events, this`failed
      ensures pos <= |s| && before <= events
      ensures !failed && more ==>
                pos > old(pos) && whole == ParseElements(s, pos, Increment(count), o).After(events[|before|..])
      ensures failed || !more ==> Ends(before, whole)
      decreases |s| - pos, 2
    {
      hide Skip, JsonText.ParseValue, ElementTail;
      more := false;
      ghost var sofar := events[|before|..];
      ghost var value := JsonText.ParseValue(s, pos, o);
      ParseValue();
      if failed {
        return;
      }
      SkipWhitespaceAndComments();
      if failed {
        return;
      }
      assert events[|before|..] == sofar + value.events;
      AfterTwice(ElementTail(s, pos, count, o), value.events, sofar);
      TailUnfolds(s, pos, count, o);
      more := Consume(',');
      if more {
        SkipWhitespaceAndComments();
      } else {
        var end := Consume(']');
        if end {
          events := events + [EndArray(Increment(count))];
        } else {
          failed := true;
        }
      }
    }

    method ParseValue()
      requires Ready()
      modifies this`pos, this`events, this`failed
      ensures Has(JsonText.ParseValue(s, old(pos), o))
      decreases |s| - pos, 1
    {
      hide JsonText.ParseObject, JsonText.ParseArray, JsonText.ParseNumber, JsonText.ParseString, Literal;
      match Peek(s, pos)
      case 'n' => ParseLiteral("null", Null);
      case 't' => ParseLiteral("true", Bool(true));
      case 'f' => ParseLiteral("false", Bool(false));
      case '\"' => ParseString(false);
      case '{' => ParseObject();
      case '[' => ParseArray();
      case _ => ParseNumber();
    }

    method Parse()
      requires Ready() && pos == 0 && events == []
      modifies this`pos, this`events, this`failed
      ensures Has(JsonText.Parse(s, o))
    {
      hide Skip, JsonText.ParseValue;
      SkipWhitespaceAndComments();
      if failed {
        return;
      }
      if Peek(s, pos) == '\0' {
        failed := true;
        return;
      }
      ParseValue();
      if failed || o.stopWhenDone {
        return;
      }
      SkipWhitespaceAndComments();
      if failed {
        return;
      }
      if Peek(s, pos) != '\0' {
        failed := true;
      }
    }

    // --------------------------------------------------------- iterative parsing

    method Transit(src: State, dst: State) returns (d: State)
      requires Ready() && pos < |s| && Peek(s, pos) != '\0' && Proper(Config(src, stack, pos, events))
      requires dst == Predict(src, Tokenize(Peek(s, pos)))
      modifies this
      ensures var c := JsonIterative.Transit(s, Config(src, old(stack), old(pos), old(events)), dst, o);
              d == c.state && events == c.events && pos <= |s|
              && (d != Error ==> !failed && pos == c.pos && stack == c.stack)
    {
      hide Frames, JsonText.ParseValue, JsonText.ParseString;
      d := dst;
      if dst == ObjectInitial || dst == ArrayInitial {
        stack := stack + [Frame(Back(src), 0)];
        events := events + [if dst == ObjectInitial then StartObject else StartArray];
        pos := pos + 1;
      } else if dst == MemberKey {
        ParseString(true);
        d := if failed then Error else dst;
      } else if dst == KeyValueDelimiter {
        pos := pos + 1;
      } else if dst == MemberDelimiter || dst == ElementDelimiter {
        TakeComma();
      } else if dst == ObjectFinish {
        d := CloseTop(src == MemberValue, false);
      } else if dst == ArrayFinish {
        d := CloseTop(src == Element, true);
      } else if dst != Error {
        ParseValue();
        d := if failed then Error else if dst == SingleValue then Finish else dst;
      }
    }

    method TakeComma()
      requires pos < |s| && stack != []
      modifies this`pos, this`stack
      ensures pos == old(pos) + 1
      ensures var n := |old(stack)| - 1;
              stack == old(stack)[..n] + [old(stack)[n].(count := Increment(old(stack)[n].count))]
    {
      pos := pos + 1;
      var n := |stack| - 1;
      stack := stack[..n] + [stack[n].(count := Increment(stack[n].count))];
    }

    /** The count on top of the stack, and the state below it to go back to. */
    method CloseTop(more: bool, inArray: bool) returns (d: State)
      requires pos < |s| && stack != []
      modifies this`pos, this`stack, this`events
      ensures var top := old(stack)[|old(stack)| - 1];
              var count := if more then Increment(top.count) else top.count;
              && d == Resume(top.back) && pos == old(pos) + 1 && stack == old(stack)[..|old(stack)| - 1]
              && events == old(events) + [if inArray then EndArray(count) else EndObject(count)]
    {
      var top := stack[|stack| - 1];
      var c := top.count;
      if more {
        c := Increment(c);
      }
      stack := stack[..|stack| - 1];
      d := top.back;
      if d == Start {
        d := Finish;
      }
      events := events + [if inArray then EndArray(c) else EndObject(c)];
      pos := pos + 1;
    }

    method IterativeParse()
      requires Ready() && pos == 0 && events == [] && stack == []
      modifies this
      ensures Has(JsonIterative.IterativeParse(s, o))
      ensures Has(JsonText.Parse(s, o))
    {
      hide Skip, JsonIterative.Transit, Proper, JsonText.Parse;
      ParsersAgree(s, o);
      ghost var whole := JsonIterative.IterativeParse(s, o);
      var state := Start;
      SkipWhitespaceAndComments();
      if failed {
        return;
      }
      assert Proper(Config(Start, [], pos, [])) by {
        StartIsProper(pos);
      }
      while Peek(s, pos) != '\0'
        invariant Ready() && state != Error && Proper(Config(state, stack, pos, events))
        invariant whole == Loop(s, Config(state, stack, pos, events), o)
        decreases |s| - pos
      {
        TransitIsProper(s, Config(state, stack, pos, events), o);
        var d := Transit(state, Predict(state, Tokenize(Peek(s, pos))));
        if d == Error {
          failed := true;
          return;
        }
        state := d;
        ghost var arrived := pos;
        if o.stopWhenDone && state == Finish {
          return;
        }
        SkipWhitespaceAndComments();
        if failed {
          return;
        }
        PositionIsFree(Config(state, stack, arrived, events), pos);
      }
      if state != Finish {
        failed := true;
      }
    }
  }

  lemma NotAhead(s: string, pos: nat, word: string, n: nat)
    requires n < |word| && word[n] != '\0' && Peek(s, pos + n) != word[n]
    ensures !Ahead(s, pos, word)
  {
    if pos + |word| <= |s| {
      assert s[pos..pos + |word|][n] == s[pos + n];
    }
  }

  lemma StartIsProper(pos: nat)
    ensures Proper(Config(Start, [], pos, []))
  {
  }

  lemma ObjectUnfolds(s: string, pos: nat, o: Options)
    requires pos < |s|
    ensures var first := Skip(s, pos + 1, o.comments);
            JsonText.ParseObject(s, pos, o)
            == if first.None? then Failed([])
               else if Peek(s, first.value) == '}' then Done(first.value + 1, [EndObject(0)])
               else ParseMembers(s, first.value, 0, o)
  {
  }

  lemma ArrayUnfolds(s: string, pos: nat, o: Options)
    requires pos < |s|
    ensures var first := Skip(s, pos + 1, o.comments);
            JsonText.ParseArray(s, pos, o)
            == if first.None? then Failed([])
               else if Peek(s, first.value) == ']' then Done(first.value + 1, [EndArray(0)])
               else ParseElements(s, first.value, 0, o)
  {
  }

  lemma TailUnfolds(s: string, pos: nat, count: nat, o: Options)
    requires pos <= |s|
    ensures ElementTail(s, pos, count, o)
            == if Peek(s, pos) == ',' then
                 var more := Skip(s, pos + 1, o.comments);
                 if more.None? then Failed([]) else ParseElements(s, more.value, Increment(count), o)
               else if Peek(s, pos) == ']' then Done(pos + 1, [EndArray(Increment(count))])
               else Failed([])
  {
  }

  lemma PutNothing(rest: Option<(nat, string)>)
    ensures Put("", rest) == rest
  {
    if rest.Some? {
      assert "" + rest.value.1 == rest.value.1;
    }
  }

  lemma PutTwice(a: string, b: string, rest: Option<(nat, string)>)
    ensures Put(a, Put(b, rest)) == Put(a + b, rest)
  {
    if rest.Some? {
      assert a + (b + rest.value.1) == a + b + rest.value.1;
    }
  }

  /** The first n hex digits. */
  function HexPrefix(s: string, pos: nat, n: nat): Option<nat>
    requires n <= 4
  {
    if n == 0 then Some(0)
    else
      var front, last := HexPrefix(s, pos, n - 1), HexDigit(Peek(s, pos + n - 1));
      if front.Some? && last.Some? then Some(front.value * 16 + last.value) else None
  }

  lemma FourHexDigits(s: string, pos: nat)
    ensures HexPrefix(s, pos, 4) == Hex4(s, pos)
  {
    assert HexPrefix(s, pos, 1) == HexDigit(Peek(s, pos));
    assert HexPrefix(s, pos, 2).Some? ==> HexPrefix(s, pos, 1).Some?;
    assert HexPrefix(s, pos, 3).Some? ==> HexPrefix(s, pos, 2).Some?;
  }

  lemma Hex4Fails(s: string, pos: nat, n: nat)
    requires n < 4 && HexDigit(Peek(s, pos + n)).None?
    ensures Hex4(s, pos) == None
  {
  }

  // --------------------------------------------------------- decimals, widths

  predicate DigitsFrom(s: string, from: nat, to: nat)
    requires from <= to <= |s|
  {
    forall i | from <= i < to :: IsDigit(s[i])
  }

  function Max32(minus: bool): nat {
    if minus then 0x8000_0000 else 0xFFFF_FFFF
  }

  function Max64(minus: bool): nat {
    if minus then 0x8000_0000_0000_0000 else 0xFFFF_FFFF_FFFF_FFFF
  }

  function Range(width: nat): nat
    requires width == 32 || width == 64
  {
    if width == 32 then 0x1_0000_0000 else 0x1_0000_0000_0000_0000
  }

  /** `~x + 1` on an unsigned number. */
  function Negate(x: nat, width: nat): (r: nat)
    requires (width == 32 || width == 64) && x < Range(width)
    ensures r < Range(width)
  {
    (Range(width) - 1 - x + 1) % Range(width)
  }

  /** The signed number of the same bits. */
  function Signed(x: nat, width: nat): (r: int)
    requires (width == 32 || width == 64) && x < Range(width)
    ensures forall n: nat | n <= Range(width) / 2 && x == Negate(n, width) :: r == -(n as int)
  {
    if x < Range(width) / 2 then x else x - Range(width)
  }

  lemma DecimalOne(s: string, pos: nat)
    requires pos < |s| && IsDigit(s[pos])
    ensures DigitsFrom(s, pos, pos + 1) && Decimal(s[pos..pos + 1]) == Digit(s[pos])
  {
    var one := s[pos..pos + 1];
    assert one == [s[pos]] && one[..0] == "";
    assert Decimal(one[..0]) == 0;
  }

  lemma DecimalSnoc(s: string, from: nat, to: nat)
    requires from <= to < |s| && DigitsFrom(s, from, to) && IsDigit(s[to])
    ensures DigitsFrom(s, from, to + 1) && Decimal(s[from..to + 1]) == Decimal(s[from..to]) * 10 + Digit(s[to])
  {
    var longer := s[from..to + 1];
    assert longer[..|longer| - 1] == s[from..to] && longer[|longer| - 1] == s[to];
  }

  lemma {:induction false} DecimalGrows(s: string, from: nat, middle: nat, to: nat)
    requires from <= middle <= to <= |s| && DigitsFrom(s, from, to)
    ensures DigitsFrom(s, from, middle) && Decimal(s[from..middle]) <= Decimal(s[from..to])
    decreases |s| - middle
  {
    hide Decimal;
    if middle < to {
      DecimalSnoc(s, from, middle);
      DecimalGrows(s, from, middle + 1, to);
    }
  }

  /** One more digit is too many. */
  lemma DecimalTooBig(s: string, from: nat, pos: nat, max: nat)
    requires from <= pos < |s| && DigitsFrom(s, from, pos) && IsDigit(s[pos])
    requires Decimal(s[from..pos]) * 10 + Digit(s[pos]) > max
    ensures Decimal(s[from..pos + 1]) > max && DigitsFrom(s, from, pos + 1)
    ensures forall to | pos < to <= |s| && DigitsFrom(s, from, to) :: Decimal(s[from..to]) > max
  {
    hide Decimal;
    DecimalSnoc(s, from, pos);
    forall to | pos < to <= |s| && DigitsFrom(s, from, to) ensures Decimal(s[from..to]) > max {
      DecimalGrows(s, from, pos + 1, to);
    }
  }

  lemma {:induction false} DigitsEndFrom(s: string, from: nat, pos: nat)
    requires from <= pos <= |s| && DigitsFrom(s, from, pos)
    ensures DigitsEnd(s, from) == DigitsEnd(s, pos)
    decreases pos - from
  {
    if from < pos {
      DigitsEndFrom(s, from + 1, pos);
    }
  }
}
