/** Printing a value and parsing the text gives the value back. */
module JsonRoundTrip {
  import opened Chars
  import opened Common
  import opened JsonText
  import opened JsonIterative
  import opened JsonDocument
  import opened JsonWriter

  /** The event the parser sends for a number without fraction or exponent. */
  function ReadEvent(n: int): Event {
    if n < 0 then
      if n >= -0x8000_0000 then Int(n) else Int64(n)
    else
      if n <= 0xFFFF_FFFF then Uint(n) else Uint64(n)
  }

  // ------------------------------------------------------------------- strings

  /** One printed character is read back. */
  lemma ReadsChar(s: string, pos: nat, c: char)
    requires Ahead(s, pos, EscapeChar(c)) && pos + |EscapeChar(c)| <= |s|
    ensures StringRest(s, pos) == JsonText.Put([c], StringRest(s, pos + |EscapeChar(c)|))
  {
    hide Hex4, Utf8.Encode;
    var e := EscapeChar(c);
    AheadAt(s, pos, e, 0);
    if EscapeLetter(c) == '\0' {
    } else if EscapeLetter(c) == 'u' {
      AheadAt(s, pos, e, 1);
      ReadsControl(s, pos, c);
    } else {
      AheadAt(s, pos, e, 1);
    }
  }

  lemma ReadsControl(s: string, pos: nat, c: char)
    requires EscapeLetter(c) == 'u' && Ahead(s, pos, EscapeChar(c))
    ensures UnicodeEscape(s, pos + 2) == Some((pos + 6, c as int)) && Utf8.Encode(c as int) == [c]
  {
    var e := EscapeChar(c);
    AheadAt(s, pos, e, 2);
    AheadAt(s, pos, e, 3);
    AheadAt(s, pos, e, 4);
    AheadAt(s, pos, e, 5);
    HexRoundTrip(c as int / 16);
    HexRoundTrip(c as int % 16);
  }

  lemma {:induction false} ReadsString(s: string, pos: nat, text: string)
    requires pos <= |s| && Ahead(s, pos, Escape(text) + "\"")
    ensures StringRest(s, pos) == Some((pos + |Escape(text)| + 1, text))
    decreases |text|
  {
    hide EscapeChar, UnicodeEscape;
    AheadTwo(s, pos, Escape(text), "\"");
    if text == "" {
      AheadAt(s, pos, "\"", 0);
    } else {
      var head, rest := EscapeChar(text[0]), Escape(text[1..]);
      assert Escape(text) + "\"" == head + (rest + "\"");
      AheadTwo(s, pos, head, rest + "\"");
      ReadsString(s, pos + |head|, text[1..]);
      ReadsChar(s, pos, text[0]);
      assert [text[0]] + text[1..] == text;
    }
  }

  lemma ReadsQuoted(s: string, pos: nat, text: string, isKey: bool)
    requires Ahead(s, pos, Quoted(text))
    ensures pos < |s| && Peek(s, pos) == '\"'
    ensures ParseString(s, pos, isKey) == Done(pos + |Quoted(text)|, [if isKey then Key(text) else String(text)])
  {
    hide Escape;
    assert Quoted(text) == "\"" + (Escape(text) + "\"");
    AheadTwo(s, pos, "\"", Escape(text) + "\"");
    AheadAt(s, pos, "\"", 0);
    ReadsString(s, pos + 1, text);
  }

  // ------------------------------------------------------------------- numbers

  lemma {:induction false} DecimalOfText(n: nat)
    ensures Decimal(DecimalText(n)) == n
    ensures DecimalText(n)[0] == '0' <==> n == 0
    decreases n
  {
    var s := DecimalText(n);
    if n < 10 {
      assert s[..|s| - 1] == "";
    } else {
      DecimalOfText(n / 10);
      assert s[..|s| - 1] == DecimalText(n / 10);
    }
  }

  lemma {:induction false} DigitsEndAt(s: string, pos: nat, end: nat)
    requires pos <= end <= |s| && (forall i | pos <= i < end :: IsDigit(s[i])) && !IsDigit(Peek(s, end))
    ensures DigitsEnd(s, pos) == end
    decreases end - pos
  {
    if pos < end {
      DigitsEndAt(s, pos + 1, end);
    }
  }

  /** What may stand behind a value: the text goes on as an array or object, or
      ends. */
  predicate Stops(c: char) {
    c == ',' || c == ']' || c == '}' || c == '\0'
  }

  lemma ReadsDigits(s: string, pos: nat, n: nat)
    requires Ahead(s, pos, DecimalText(n)) && Stops(Peek(s, pos + |DecimalText(n)|))
    ensures pos <= |s| && IsDigit(Peek(s, pos))
    ensures var end := pos + |DecimalText(n)|;
            IntegerEnd(s, pos) == end && Decimal(s[pos..end]) == n && FractionEnd(s, end) == Some(end)
            && ExponentEnd(s, end) == Some(end)
  {
    hide Decimal, DecimalText;
    var digits := DecimalText(n);
    var end := pos + |digits|;
    DecimalOfText(n);
    AheadAt(s, pos, digits, 0);
    forall i | pos <= i < end ensures IsDigit(s[i]) {
      AheadAt(s, pos, digits, i - pos);
    }
    if n == 0 {
      ZeroText();
    } else {
      DigitsEndAt(s, pos + 1, end);
    }
  }

  lemma ZeroText()
    ensures DecimalText(0) == "0"
  {
  }

  lemma WholeOf(n: int)
    requires InRange(n)
    ensures Whole(n < 0, if n < 0 then -n else n) == Some(ReadEvent(n))
  {
  }

  lemma ReadsWhole(s: string, pos: nat, start: nat, end: nat, e: Event, o: Options)
    requires pos <= start <= end <= |s| && start == (if Peek(s, pos) == '-' then pos + 1 else pos)
    requires IsDigit(Peek(s, start)) && IntegerEnd(s, start) == end
    requires FractionEnd(s, end) == ExponentEnd(s, end) == Some(end)
    requires Whole(Peek(s, pos) == '-', Decimal(s[start..end])) == Some(e)
    ensures ParseNumber(s, pos, o) == Done(end, [e])
  {
    hide Decimal, IntegerEnd, FractionEnd, ExponentEnd, Whole;
  }

  /** Integers are read back over the whole 64-bit range. */
  lemma {:induction false} ReadsNumber(s: string, pos: nat, n: int, o: Options)
    requires InRange(n) && Ahead(s, pos, NumberText(n)) && Stops(Peek(s, pos + |NumberText(n)|))
    ensures pos <= |s| && ParseNumber(s, pos, o) == Done(pos + |NumberText(n)|, [ReadEvent(n)])
    ensures Peek(s, pos) == '-' || IsDigit(Peek(s, pos))
  {
    hide Decimal, DecimalText, IntegerEnd, FractionEnd, ExponentEnd, Whole, ReadEvent, ParseNumber, Ahead, InRange,
         Stops;
    WholeOf(n);
    var end := pos + |NumberText(n)|;
    if n < 0 {
      AheadTwo(s, pos, "-", DecimalText(-n));
      AheadAt(s, pos, "-", 0);
      ReadsDigits(s, pos + 1, -n);
      ReadsWhole(s, pos, pos + 1, end, ReadEvent(n), o);
    } else {
      ReadsDigits(s, pos, n);
      ReadsWhole(s, pos, pos, end, ReadEvent(n), o);
    }
  }

  // -------------------------------------------------------------------- values

  /** What a printed value begins with: no space, and no comment. */
  predicate Begins(c: char) {
    !IsSpace(c) && c != '/' && c != ']' && c != '}' && c != '\0'
  }

  lemma PrintBegins(v: Value, doubles: int -> string)
    requires Plain(v)
    ensures |Print(v, doubles)| >= 1 && Begins(Print(v, doubles)[0])
  {
    hide Escape, DecimalText, PrintElements, PrintMembers;
    if v.VNumber? {
      var n := if v.n < 0 then -v.n else v.n;
      assert IsDigit(DecimalText(n)[0]);
    }
  }

  lemma NothingToSkip(s: string, pos: nat, comments: bool)
    requires pos <= |s| && !IsSpace(Peek(s, pos)) && Peek(s, pos) != '/'
    ensures Skip(s, pos, comments) == Some(pos)
  {
  }

  /** A printed value is read as that value. */
  lemma {:induction false} ReadsValue(s: string, pos: nat, v: Value, doubles: int -> string, o: Options)
    requires Plain(v) && Ahead(s, pos, Print(v, doubles)) && Stops(Peek(s, pos + |Print(v, doubles)|))
    ensures pos < |s| && Begins(Peek(s, pos))
    ensures ParseValue(s, pos, o) == Done(pos + |Print(v, doubles)|, Events(v, ReadEvent))
    decreases v, 0
  {
    hide Skip, ParseString, Quoted, NumberText, Escape, ParseNumber, ParseArray, ParseObject, PrintElements,
         PrintMembers;
    PrintBegins(v, doubles);
    AheadAt(s, pos, Print(v, doubles), 0);
    match v {
      case VArray(elements) => ReadsArray(s, pos, elements, doubles, o);
      case VObject(members) => ReadsObject(s, pos, members, doubles, o);
      case VNumber(n) =>
        ReadsNumber(s, pos, n, o);
      case VString(text) => ReadsQuoted(s, pos, text, false);
      case VNull =>
      case VBool(b) =>
    }
  }

  lemma {:induction false} ArrayIs(elements: seq<Value>, doubles: int -> string)
    ensures Print(VArray(elements), doubles) == "[" + (PrintElements(elements, doubles) + "]")
    ensures Events(VArray(elements), ReadEvent)
         == [StartArray] + (ElementEvents(elements, ReadEvent) + [EndArray(|elements|)])
  {
    hide PrintElements, ElementEvents;
  }

  lemma ArrayThen(s: string, pos: nat, o: Options)
    requires pos + 1 < |s| && Skip(s, pos + 1, o.comments) == Some(pos + 1)
    ensures ParseArray(s, pos, o)
         == if Peek(s, pos + 1) == ']' then Done(pos + 2, [EndArray(0)]) else ParseElements(s, pos + 1, 0, o)
  {
    hide Skip, ParseElements;
  }

  lemma {:induction false} ReadsArray(s: string, pos: nat, elements: seq<Value>, doubles: int -> string, o: Options)
    requires Plain(VArray(elements)) && Ahead(s, pos, Print(VArray(elements), doubles))
    ensures pos < |s| && Peek(s, pos) == '['
    ensures ParseArray(s, pos, o).After([StartArray])
         == Done(pos + |Print(VArray(elements), doubles)|, Events(VArray(elements), ReadEvent))
    decreases elements, 1
  {
    hide Skip, Print, PrintElements, ParseElements, ParseArray, Events, ElementEvents;
    var text := PrintElements(elements, doubles);
    ArrayIs(elements, doubles);
    AheadTwo(s, pos, "[", text + "]");
    AheadTwo(s, pos + 1, text, "]");
    AheadAt(s, pos, "[", 0);
    AheadAt(s, pos + 1 + |text|, "]", 0);
    if elements == [] {
      NoElementsText(doubles);
    } else {
      ReadsElements(s, pos + 1, elements, 0, doubles, o);
    }
    NothingToSkip(s, pos + 1, o.comments);
    ArrayThen(s, pos, o);
  }

  lemma NoElementsText(doubles: int -> string)
    ensures PrintElements([], doubles) == "" && PrintMembers([], doubles) == ""
    ensures ElementEvents([], ReadEvent) == [] && MemberEvents([], ReadEvent) == []
  {
  }

  lemma NoMoreText(doubles: int -> string)
    ensures MoreElements([], doubles) == "" && MoreMembers([], doubles) == ""
  {
  }

  lemma PrintElementsIs(elements: seq<Value>, doubles: int -> string)
    requires elements != []
    ensures PrintElements(elements, doubles) == Print(elements[0], doubles) + MoreElements(elements[1..], doubles)
  {
  }

  /** The value is there, no space behind it. */
  predicate Reads(s: string, pos: nat, next: nat, events: seq<Event>, o: Options)
    requires pos <= |s|
  {
    next <= |s| && ParseValue(s, pos, o) == Done(next, events) && Skip(s, next, o.comments) == Some(next)
  }

  lemma ElementThen(s: string, pos: nat, next: nat, count: nat, events: seq<Event>, o: Options)
    requires pos <= |s| && Reads(s, pos, next, events, o) && count + 1 < SIZE_LIMIT
    ensures Peek(s, next) == ']' ==>
              ParseElements(s, pos, count, o) == Done(next + 1, events + [EndArray(count + 1)])
    ensures Peek(s, next) == ',' && next < |s| && Skip(s, next + 1, o.comments) == Some(next + 1) ==>
              ParseElements(s, pos, count, o) == ParseElements(s, next + 1, count + 1, o).After(events)
  {
    hide Skip, ParseValue;
  }

  lemma MemberThen(s: string, pos: nat, next: nat, count: nat, events: seq<Event>, o: Options)
    requires pos <= |s| && Reads(s, pos, next, events, o) && count + 1 < SIZE_LIMIT
    ensures Peek(s, next) == '}' ==>
              ValueTail(s, pos, count, o) == Done(next + 1, events + [EndObject(count + 1)])
    ensures Peek(s, next) == ',' && next < |s| && Skip(s, next + 1, o.comments) == Some(next + 1) ==>
              ValueTail(s, pos, count, o) == ParseMembers(s, next + 1, count + 1, o).After(events)
  {
    hide Skip, ParseValue, ParseMembers;
  }

  lemma {:induction false} ReadsElements(s: string, pos: nat, elements: seq<Value>, count: nat, doubles: int -> string,
                                         o: Options)
    requires elements != [] && (forall i | 0 <= i < |elements| :: Plain(elements[i]))
    requires count + |elements| < SIZE_LIMIT
    requires Ahead(s, pos, PrintElements(elements, doubles)) && Peek(s, pos + |PrintElements(elements, doubles)|) == ']'
    ensures pos < |s| && Begins(Peek(s, pos))
    ensures ParseElements(s, pos, count, o)
         == Done(pos + |PrintElements(elements, doubles)| + 1,
                 ElementEvents(elements, ReadEvent) + [EndArray(count + |elements|)])
    decreases elements, 0
  {
    hide Skip, ParseValue, ParseElements, Print, PrintElements, MoreElements, Events, ElementEvents;
    var v, rest := elements[0], elements[1..];
    var text, more := Print(v, doubles), MoreElements(rest, doubles);
    PrintElementsIs(elements, doubles);
    ElementEventsAre(elements, ReadEvent);
    AheadTwo(s, pos, text, more);
    var next := pos + |text|;
    if rest == [] {
      NoMoreText(doubles);
      ReadsValue(s, pos, v, doubles, o);
      NothingToSkip(s, next, o.comments);
      EndOfElements(elements, count);
      ElementThen(s, pos, next, count, Events(v, ReadEvent), o);
    } else {
      var others := PrintElements(rest, doubles);
      MoreElementsIs(rest, doubles);
      AheadTwo(s, next, ",", others);
      AheadAt(s, next, ",", 0);
      ReadsValue(s, pos, v, doubles, o);
      NothingToSkip(s, next, o.comments);
      ReadsElements(s, next + 1, rest, count + 1, doubles, o);
      NothingToSkip(s, next + 1, o.comments);
      ElementThen(s, pos, next, count, Events(v, ReadEvent), o);
      var a, b := Events(v, ReadEvent), ElementEvents(rest, ReadEvent);
      assert a + (b + [EndArray(count + |elements|)]) == a + b + [EndArray(count + |elements|)];
    }
  }

  lemma EndOfElements(elements: seq<Value>, count: nat)
    requires |elements| == 1
    ensures ElementEvents(elements, ReadEvent) == Events(elements[0], ReadEvent)
  {
    assert elements[1..] == [];
  }

  lemma {:induction false} ObjectIs(members: seq<Member>, doubles: int -> string)
    ensures Print(VObject(members), doubles) == "{" + (PrintMembers(members, doubles) + "}")
    ensures Events(VObject(members), ReadEvent)
         == [StartObject] + (MemberEvents(members, ReadEvent) + [EndObject(|members|)])
  {
    hide PrintMembers, MemberEvents;
  }

  lemma ObjectThen(s: string, pos: nat, o: Options)
    requires pos + 1 < |s| && Skip(s, pos + 1, o.comments) == Some(pos + 1)
    ensures ParseObject(s, pos, o)
         == if Peek(s, pos + 1) == '}' then Done(pos + 2, [EndObject(0)]) else ParseMembers(s, pos + 1, 0, o)
  {
    hide Skip, ParseMembers;
  }

  lemma {:induction false} ReadsObject(s: string, pos: nat, members: seq<Member>, doubles: int -> string, o: Options)
    requires Plain(VObject(members)) && Ahead(s, pos, Print(VObject(members), doubles))
    ensures pos < |s| && Peek(s, pos) == '{'
    ensures ParseObject(s, pos, o).After([StartObject])
         == Done(pos + |Print(VObject(members), doubles)|, Events(VObject(members), ReadEvent))
    decreases members, 2
  {
    hide Skip, Print, PrintMembers, ParseMembers, ParseObject, Events, MemberEvents;
    var text := PrintMembers(members, doubles);
    ObjectIs(members, doubles);
    AheadTwo(s, pos, "{", text + "}");
    AheadTwo(s, pos + 1, text, "}");
    AheadAt(s, pos, "{", 0);
    AheadAt(s, pos + 1 + |text|, "}", 0);
    if members == [] {
      NoElementsText(doubles);
    } else {
      ReadsMembers(s, pos + 1, members, 0, doubles, o);
    }
    NothingToSkip(s, pos + 1, o.comments);
    ObjectThen(s, pos, o);
  }

  lemma PrintMembersIs(members: seq<Member>, doubles: int -> string)
    requires members != []
    ensures PrintMembers(members, doubles)
         == Quoted(members[0].name) + (":" + ValueText(members, doubles))
  {
  }

  lemma NameThen(s: string, pos: nat, colon: nat, count: nat, name: string, o: Options)
    requires pos < |s| && Peek(s, pos) == '\"' && ParseString(s, pos, true) == Done(colon, [Key(name)])
    requires colon < |s| && Peek(s, colon) == ':' && Skip(s, colon, o.comments) == Some(colon)
    requires Skip(s, colon + 1, o.comments) == Some(colon + 1)
    ensures ParseMembers(s, pos, count, o) == ValueTail(s, colon + 1, count, o).After([Key(name)])
  {
    hide Skip, ParseString, ValueTail;
  }

  lemma {:induction false} ReadsMembers(s: string, pos: nat, members: seq<Member>, count: nat, doubles: int -> string,
                                        o: Options)
    requires members != [] && (forall i | 0 <= i < |members| :: Plain(members[i].value))
    requires count + |members| < SIZE_LIMIT
    requires Ahead(s, pos, PrintMembers(members, doubles)) && Peek(s, pos + |PrintMembers(members, doubles)|) == '}'
    ensures pos < |s| && Peek(s, pos) == '\"'
    ensures ParseMembers(s, pos, count, o)
         == Done(pos + |PrintMembers(members, doubles)| + 1,
                 MemberEvents(members, ReadEvent) + [EndObject(count + |members|)])
    decreases members, 1
  {
    hide Skip, ParseString, ParseMembers, ValueTail, ValueText, PrintMembers, Quoted, Events, MemberEvents;
    var name, tail := Quoted(members[0].name), ValueText(members, doubles);
    PrintMembersIs(members, doubles);
    AheadTwo(s, pos, name, ":" + tail);
    AheadTwo(s, pos + |name|, ":", tail);
    AheadAt(s, pos + |name|, ":", 0);
    ReadsQuoted(s, pos, members[0].name, true);
    NothingToSkip(s, pos + |name|, o.comments);
    ReadsMemberValue(s, pos + |name| + 1, members, count, doubles, o);
    NameThen(s, pos, pos + |name|, count, members[0].name, o);
    MemberEventsAre(members, ReadEvent);
    Regroup4(Key(members[0].name), Events(members[0].value, ReadEvent), MemberEvents(members[1..], ReadEvent),
             EndObject(count + |members|));
  }

  lemma Regroup4(a: Event, b: seq<Event>, c: seq<Event>, d: Event)
    ensures [a] + (b + c + [d]) == [a] + b + c + [d]
  {
  }

  /** The text of a member's value and of the members behind it. */
  function ValueText(members: seq<Member>, doubles: int -> string): string
    requires members != []
  {
    Print(members[0].value, doubles) + MoreMembers(members[1..], doubles)
  }

  lemma {:induction false} ReadsMemberValue(s: string, pos: nat, members: seq<Member>, count: nat,
                                            doubles: int -> string, o: Options)
    requires members != [] && (forall i | 0 <= i < |members| :: Plain(members[i].value))
    requires count + |members| < SIZE_LIMIT
    requires Ahead(s, pos, ValueText(members, doubles)) && Peek(s, pos + |ValueText(members, doubles)|) == '}'
    ensures pos < |s| && Skip(s, pos, o.comments) == Some(pos)
    ensures ValueTail(s, pos, count, o)
         == Done(pos + |ValueText(members, doubles)| + 1,
                 Events(members[0].value, ReadEvent) + MemberEvents(members[1..], ReadEvent)
                 + [EndObject(count + |members|)])
    decreases members, 0
  {
    hide Skip, ParseValue, ValueTail, ParseMembers, Print, PrintMembers, MoreMembers, Events, MemberEvents,
         Ahead, Plain;
    var v, rest := members[0].value, members[1..];
    var text, more := Print(v, doubles), MoreMembers(rest, doubles);
    AheadTwo(s, pos, text, more);
    var next := pos + |text|;
    if rest == [] {
      NoMoreText(doubles);
      ReadsValue(s, pos, v, doubles, o);
      NothingToSkip(s, next, o.comments);
      NoMemberEvents();
      MemberThen(s, pos, next, count, Events(v, ReadEvent), o);
    } else {
      var others := PrintMembers(rest, doubles);
      MoreMembersIs(rest, doubles);
      AheadTwo(s, next, ",", others);
      AheadAt(s, next, ",", 0);
      ReadsValue(s, pos, v, doubles, o);
      NothingToSkip(s, next, o.comments);
      ReadsMembers(s, next + 1, rest, count + 1, doubles, o);
      NothingToSkip(s, next + 1, o.comments);
      MemberThen(s, pos, next, count, Events(v, ReadEvent), o);
      var a, b := Events(v, ReadEvent), MemberEvents(rest, ReadEvent);
      assert a + (b + [EndObject(count + |members|)]) == a + b + [EndObject(count + |members|)];
    }
    NothingToSkip(s, pos, o.comments);
  }

  lemma NoMemberEvents()
    ensures MemberEvents([], ReadEvent) == []
  {
  }

  // ------------------------------------------------------------- the round trip

  lemma ReadIsFaithful()
    ensures Faithful(ReadEvent)
  {
  }

  /** Any value without doubles, with arbitrary characters in its strings, integers
      of the whole 64-bit range and any nesting, printed by its events and parsed
      by either parser with any flags, is built again by the document. */
  lemma {:induction false} RoundTrip(v: Value, doubles: int -> string, o: Options)
    requires Plain(v)
    ensures Writes(BLANK, Accept(v), Output(Print(v, doubles), [], true), doubles)
    ensures var text, read := Print(v, doubles), Events(v, ReadEvent);
            && Parse(text, o) == IterativeParse(text, o) == Done(|text|, read)
            && Builds([], read) && Build([], read) == [v]
  {
    hide Skip, ParseValue, Print, Events, IterativeParse;
    var text := Print(v, doubles);
    WriterPrints(v, doubles);
    ParsersAgree(text, o);
    assert Ahead(text, 0, text);
    ReadsValue(text, 0, v, doubles, o);
    NothingToSkip(text, 0, o.comments);
    NothingToSkip(text, |text|, o.comments);
    ReadIsFaithful();
    BuildsValue(v, [], ReadEvent);
  }
}
