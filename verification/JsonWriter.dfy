/** The printer: text written event by event, with a stack of levels that says
  where commas and colons go, and the text that a whole value comes to.
 */
module JsonWriter {
  import opened Chars
  import opened JsonText
  import opened JsonDocument

  // ------------------------------------------------------------ the printed text

  /** The letter behind the backslash: u for one written as four hex digits, and
      none for a character that stands for itself. */
  function EscapeLetter(c: char): char {
    match c
    case '\"' => '\"'
    case '\\' => '\\'
    case '\n' => 'n'
    case '\r' => 'r'
    case '\t' => 't'
    case _ => if c as int == 8 then 'b' else if c as int == 12 then 'f' else if c as int < 0x20 then 'u' else '\0'
  }

  function EscapeChar(c: char): string {
    var letter := EscapeLetter(c);
    if letter == '\0' then [c]
    else if letter == 'u' then
      assert c as int < 0x20;
      ['\\', 'u', '0', '0', HexChar(c as int / 16), HexChar(c as int % 16)]
    else ['\\', letter]
  }

  function Escape(text: string): string {
    if text == "" then "" else EscapeChar(text[0]) + Escape(text[1..])
  }

  function Quoted(text: string): string {
    "\"" + Escape(text) + "\""
  }

  function DecimalText(n: nat): (s: string)
    ensures |s| >= 1
    ensures AllDigits(s)
  {
    var digit := (('0' as int) + n % 10) as char;
    if n < 10 then [digit] else DecimalText(n / 10) + [digit]
  }

  function NumberText(n: int): string {
    if n < 0 then "-" + DecimalText(-n) else DecimalText(n)
  }

  /** The text of a value; `doubles` prints a double. */
  function Print(v: Value, doubles: int -> string): string
    decreases v
  {
    match v
    case VNull => "null"
    case VBool(b) => if b then "true" else "false"
    case VNumber(n) => NumberText(n)
    case VDouble(bits) => doubles(bits)
    case VString(text) => Quoted(text)
    case VArray(elements) => "[" + (PrintElements(elements, doubles) + "]")
    case VObject(members) => "{" + (PrintMembers(members, doubles) + "}")
  }

  function PrintElements(elements: seq<Value>, doubles: int -> string): string
    decreases elements, 0
  {
    if elements == [] then "" else Print(elements[0], doubles) + MoreElements(elements[1..], doubles)
  }

  /** Elements behind others. */
  function MoreElements(elements: seq<Value>, doubles: int -> string): string
    decreases elements, 1
  {
    if elements == [] then "" else "," + PrintElements(elements, doubles)
  }

  function PrintMembers(members: seq<Member>, doubles: int -> string): string
    decreases members, 0
  {
    if members == [] then ""
    else
      Quoted(members[0].name) + (":" + (Print(members[0].value, doubles) + MoreMembers(members[1..], doubles)))
  }

  /** Members behind others. */
  function MoreMembers(members: seq<Member>, doubles: int -> string): string
    decreases members, 1
  {
    if members == [] then "" else "," + PrintMembers(members, doubles)
  }

  // ------------------------------------------------------------ event by event

  datatype Level = Level(inArray: bool, valueCount: nat)

  datatype Output = Output(out: string, levels: seq<Level>, hasRoot: bool)

  /** What `Prefix` asserts: one root only, and a name where a name must be. */
  predicate MayPrefix(w: Output, isString: bool) {
    if w.levels == [] then !w.hasRoot
    else
      var top := w.levels[|w.levels| - 1];
      !top.inArray && top.valueCount % 2 == 0 ==> isString
  }

  /** The comma or colon before a value or name. */
  function Separator(top: Level): string {
    if top.valueCount == 0 then "" else if top.inArray || top.valueCount % 2 == 0 then "," else ":"
  }

  function Prefix(w: Output): Output {
    if w.levels == [] then w.(hasRoot := true)
    else
      var n := |w.levels| - 1;
      w.(out := w.out + Separator(w.levels[n]),
         levels := w.levels[..n] + [w.levels[n].(valueCount := w.levels[n].valueCount + 1)])
  }

  predicate IsText(e: Event) {
    e.String? || e.Key?
  }

  predicate MayWrite(w: Output, e: Event) {
    if e.EndObject? || e.EndArray? then w.levels != [] && w.levels[|w.levels| - 1].inArray == e.EndArray?
    else MayPrefix(w, IsText(e))
  }

  function Put(w: Output, text: string): Output {
    w.(out := w.out + text)
  }

  /** What an event writes behind its prefix. */
  function TextOf(e: Event, doubles: int -> string): string {
    match e
    case Null => "null"
    case Bool(b) => if b then "true" else "false"
    case Int(i) => NumberText(i)
    case Uint(u) => NumberText(u)
    case Int64(i) => NumberText(i)
    case Uint64(u) => NumberText(u)
    case Double(bits) => doubles(bits)
    case String(text) => Quoted(text)
    case Key(name) => Quoted(name)
    case StartObject => "{"
    case StartArray => "["
    case EndObject(_) => "}"
    case EndArray(_) => "]"
  }

  function Write(w: Output, e: Event, doubles: int -> string): Output
    requires MayWrite(w, e)
  {
    if e.EndObject? || e.EndArray? then Put(w.(levels := w.levels[..|w.levels| - 1]), TextOf(e, doubles))
    else
      var p := Put(Prefix(w), TextOf(e, doubles));
      if e.StartObject? || e.StartArray? then p.(levels := p.levels + [Level(e.StartArray?, 0)]) else p
  }

  predicate MayWriteAll(w: Output, events: seq<Event>, doubles: int -> string)
    decreases |events|
  {
    events == [] || (MayWrite(w, events[0]) && MayWriteAll(Write(w, events[0], doubles), events[1..], doubles))
  }

  function WriteAll(w: Output, events: seq<Event>, doubles: int -> string): Output
    requires MayWriteAll(w, events, doubles)
    decreases |events|
  {
    if events == [] then w else WriteAll(Write(w, events[0], doubles), events[1..], doubles)
  }

  /** w2 is what the events make of w. */
  ghost predicate Writes(w: Output, events: seq<Event>, w2: Output, doubles: int -> string) {
    MayWriteAll(w, events, doubles) && WriteAll(w, events, doubles) == w2
  }

  lemma {:induction false} WritesTwo(w: Output, a: seq<Event>, w1: Output, b: seq<Event>, w2: Output,
                                     doubles: int -> string)
    requires Writes(w, a, w1, doubles) && Writes(w1, b, w2, doubles)
    ensures Writes(w, a + b, w2, doubles)
    decreases |a|
  {
    if a == [] {
      assert a + b == b;
    } else {
      assert (a + b)[0] == a[0] && (a + b)[1..] == a[1..] + b;
      WritesTwo(Write(w, a[0], doubles), a[1..], w1, b, w2, doubles);
    }
  }

  lemma WritesOne(w: Output, e: Event, doubles: int -> string)
    requires MayWrite(w, e)
    ensures Writes(w, [e], Write(w, e, doubles), doubles)
  {
    assert [e][1..] == [];
    assert MayWriteAll(Write(w, e, doubles), [], doubles);
  }

  /** A scalar or bracket, as long as it may come next. */
  lemma WritesScalar(w: Output, e: Event, doubles: int -> string)
    requires MayWrite(w, e) && !e.EndObject? && !e.EndArray? && !e.StartObject? && !e.StartArray?
    ensures Writes(w, [e], Put(Prefix(w), TextOf(e, doubles)), doubles)
  {
    WritesOne(w, e, doubles);
  }

  /** A value's events write the separator before it and then its text. */
  lemma {:induction false} WritesValue(w: Output, v: Value, doubles: int -> string)
    requires MayPrefix(w, false)
    ensures Writes(w, Accept(v), Put(Prefix(w), Print(v, doubles)), doubles)
    decreases v, 0
  {
    hide Prefix, Writes;
    match v {
      case VArray(elements) => WritesArray(w, elements, doubles);
      case VObject(members) => WritesObject(w, members, doubles);
      case VNumber(n) => WritesScalar(w, NumberEvent(n), doubles);
      case VNull => WritesScalar(w, Null, doubles);
      case VBool(b) => WritesScalar(w, Bool(b), doubles);
      case VDouble(bits) => WritesScalar(w, Double(bits), doubles);
      case VString(text) => WritesScalar(w, String(text), doubles);
    }
  }

  function Inside(w: Output, inArray: bool, count: nat): Output {
    w.(levels := w.levels + [Level(inArray, count)])
  }

  lemma Opens(w: Output, inArray: bool, doubles: int -> string)
    requires MayPrefix(w, false)
    ensures var e := if inArray then StartArray else StartObject;
            Writes(w, [e], Inside(Put(Prefix(w), TextOf(e, doubles)), inArray, 0), doubles)
  {
    WritesOne(w, if inArray then StartArray else StartObject, doubles);
  }

  lemma Closes(w: Output, inArray: bool, count: nat, n: nat, doubles: int -> string)
    ensures var e := if inArray then EndArray(n) else EndObject(n);
            Writes(Inside(w, inArray, count), [e], Put(w, TextOf(e, doubles)), doubles)
  {
    var e := if inArray then EndArray(n) else EndObject(n);
    assert Inside(w, inArray, count).levels[..|w.levels|] == w.levels;
    WritesOne(Inside(w, inArray, count), e, doubles);
  }

  lemma PrefixInside(w: Output, inArray: bool, count: nat)
    ensures Prefix(Inside(w, inArray, count)) == Inside(Put(w, Separator(Level(inArray, count))), inArray, count + 1)
  {
    assert Inside(w, inArray, count).levels[..|w.levels|] == w.levels;
  }

  lemma PutTwo(w: Output, a: string, b: string)
    ensures Put(Put(w, a), b) == Put(w, a + b)
  {
    assert w.out + a + b == w.out + (a + b);
  }

  lemma PutNone(w: Output)
    ensures Put(w, "") == w
  {
    assert w.out + "" == w.out;
  }

  lemma {:induction false} WritesArray(w: Output, elements: seq<Value>, doubles: int -> string)
    requires MayPrefix(w, false)
    ensures Writes(w, Accept(VArray(elements)), Put(Prefix(w), Print(VArray(elements), doubles)), doubles)
    decreases elements, 1
  {
    hide Prefix, Writes, Put, Inside, PrintElements, ElementEvents;
    var p, text := Prefix(w), PrintElements(elements, doubles);
    var open := Put(p, "[");
    var full := Put(open, text);
    Opens(w, true, doubles);
    WritesElements(open, elements, 0, doubles);
    Closes(full, true, |elements|, |elements|, doubles);
    WritesTwo(Inside(open, true, 0), ElementEvents(elements, NumberEvent), Inside(full, true, |elements|),
              [EndArray(|elements|)], Put(full, "]"), doubles);
    WritesTwo(w, [StartArray], Inside(open, true, 0), ElementEvents(elements, NumberEvent) + [EndArray(|elements|)],
              Put(full, "]"), doubles);
    PutTwo(open, text, "]");
    PutTwo(p, "[", text + "]");
  }

  /** The elements behind `count` others. */
  function Listed(elements: seq<Value>, count: nat, doubles: int -> string): string {
    if count == 0 then PrintElements(elements, doubles) else MoreElements(elements, doubles)
  }

  lemma ListedIs(elements: seq<Value>, count: nat, doubles: int -> string)
    requires elements != []
    ensures Listed(elements, count, doubles)
         == Separator(Level(true, count)) + Print(elements[0], doubles) + Listed(elements[1..], count + 1, doubles)
  {
    hide Print, MoreElements;
    var text, rest := Print(elements[0], doubles), MoreElements(elements[1..], doubles);
    assert PrintElements(elements, doubles) == text + rest;
    assert MoreElements(elements, doubles) == "," + (text + rest) by {
      MoreElementsIs(elements, doubles);
    }
    assert "" + text == text && "," + (text + rest) == "," + text + rest;
  }

  lemma MoreElementsIs(elements: seq<Value>, doubles: int -> string)
    requires elements != []
    ensures MoreElements(elements, doubles) == "," + PrintElements(elements, doubles)
  {
  }

  /** An element with what stands before it. */
  lemma {:induction false} WritesElement(w: Output, v: Value, count: nat, doubles: int -> string)
    ensures Writes(Inside(w, true, count), Accept(v),
                   Inside(Put(w, Separator(Level(true, count)) + Print(v, doubles)), true, count + 1), doubles)
    decreases v, 1
  {
    hide Prefix, Writes, Put;
    var start, text, sep := Inside(w, true, count), Print(v, doubles), Separator(Level(true, count));
    WritesValue(start, v, doubles);
    PrefixInside(w, true, count);
    PutInside(Put(w, sep), true, count + 1, text);
    PutTwo(w, sep, text);
  }

  lemma NoElements(w: Output, inArray: bool, count: nat, doubles: int -> string)
    ensures Writes(Inside(w, inArray, count), [], Inside(Put(w, ""), inArray, count), doubles)
  {
    PutNone(w);
  }

  lemma {:induction false} WritesElements(w: Output, elements: seq<Value>, count: nat, doubles: int -> string)
    ensures Writes(Inside(w, true, count), ElementEvents(elements, NumberEvent),
                   Inside(Put(w, Listed(elements, count, doubles)), true, count + |elements|), doubles)
    decreases elements, 0
  {
    hide Prefix, Writes, Put, Separator, Inside, Print, Events;
    if elements == [] {
      NoElements(w, true, count, doubles);
    } else {
      hide Listed, ElementEvents;
      var one := Separator(Level(true, count)) + Print(elements[0], doubles);
      var rest := Listed(elements[1..], count + 1, doubles);
      ElementEventsAre(elements, NumberEvent);
      WritesElement(w, elements[0], count, doubles);
      WritesElements(Put(w, one), elements[1..], count + 1, doubles);
      WritesTwo(Inside(w, true, count), Accept(elements[0]), Inside(Put(w, one), true, count + 1),
                ElementEvents(elements[1..], NumberEvent),
                Inside(Put(Put(w, one), rest), true, count + |elements|), doubles);
      PutTwo(w, one, rest);
      ListedIs(elements, count, doubles);
    }
  }

  lemma PutInside(w: Output, inArray: bool, count: nat, text: string)
    ensures Put(Inside(w, inArray, count), text) == Inside(Put(w, text), inArray, count)
  {
  }

  lemma {:induction false} WritesObject(w: Output, members: seq<Member>, doubles: int -> string)
    requires MayPrefix(w, false)
    ensures Writes(w, Accept(VObject(members)), Put(Prefix(w), Print(VObject(members), doubles)), doubles)
    decreases members, 1
  {
    hide Prefix, Writes, Put, Inside, PrintMembers, MemberEvents;
    var p, text := Prefix(w), PrintMembers(members, doubles);
    var open := Put(p, "{");
    var full := Put(open, text);
    Opens(w, false, doubles);
    WritesMembers(open, members, 0, doubles);
    Closes(full, false, 2 * |members|, |members|, doubles);
    WritesTwo(Inside(open, false, 0), MemberEvents(members, NumberEvent), Inside(full, false, 2 * |members|),
              [EndObject(|members|)], Put(full, "}"), doubles);
    WritesTwo(w, [StartObject], Inside(open, false, 0), MemberEvents(members, NumberEvent) + [EndObject(|members|)],
              Put(full, "}"), doubles);
    PutTwo(open, text, "}");
    PutTwo(p, "{", text + "}");
  }

  /** A member with what stands before its name, and the colon. */
  function MemberText(m: Member, count: nat, doubles: int -> string): string {
    Separator(Level(false, 2 * count)) + Quoted(m.name) + (":" + Print(m.value, doubles))
  }

  lemma {:induction false} WritesMember(w: Output, m: Member, count: nat, doubles: int -> string)
    ensures Writes(Inside(w, false, 2 * count), [Key(m.name)] + Accept(m.value),
                   Inside(Put(w, MemberText(m, count, doubles)), false, 2 * count + 2), doubles)
    decreases m, 0
  {
    hide Prefix, Writes, Put, Quoted;
    var start, name := Inside(w, false, 2 * count), Quoted(m.name);
    var sep, text := Separator(Level(false, 2 * count)), Print(m.value, doubles);
    WritesScalar(start, Key(m.name), doubles);
    PrefixInside(w, false, 2 * count);
    PutInside(Put(w, sep), false, 2 * count + 1, name);
    PutTwo(w, sep, name);
    var w1 := Put(w, sep + name);
    WritesValue(Inside(w1, false, 2 * count + 1), m.value, doubles);
    PrefixInside(w1, false, 2 * count + 1);
    PutInside(Put(w1, ":"), false, 2 * count + 2, text);
    PutTwo(w1, ":", text);
    PutTwo(w, sep + name, ":" + text);
    WritesTwo(start, [Key(m.name)], Inside(w1, false, 2 * count + 1), Accept(m.value),
              Inside(Put(w1, ":" + text), false, 2 * count + 2), doubles);
  }

  /** The members behind `count` others. */
  function ListedMembers(members: seq<Member>, count: nat, doubles: int -> string): string {
    if count == 0 then PrintMembers(members, doubles) else MoreMembers(members, doubles)
  }

  lemma Regroup(sep: string, name: string, text: string, rest: string)
    ensures sep + (name + (":" + (text + rest))) == sep + name + (":" + text) + rest
  {
    assert ":" + (text + rest) == ":" + text + rest;
    assert name + (":" + text + rest) == name + (":" + text) + rest;
    assert sep + (name + (":" + text) + rest) == sep + name + (":" + text) + rest;
  }

  lemma ListedMembersIs(members: seq<Member>, count: nat, doubles: int -> string)
    requires members != []
    ensures ListedMembers(members, count, doubles)
         == MemberText(members[0], count, doubles) + ListedMembers(members[1..], count + 1, doubles)
  {
    hide Print, MoreMembers, Quoted;
    var sep, name := Separator(Level(false, 2 * count)), Quoted(members[0].name);
    var text, rest := Print(members[0].value, doubles), MoreMembers(members[1..], doubles);
    MoreMembersIs(members, doubles);
    Regroup(sep, name, text, rest);
    if count == 0 {
      Nothing(name + (":" + (text + rest)));
    }
  }

  lemma Nothing(text: string)
    ensures "" + text == text
  {
  }

  lemma MoreMembersIs(members: seq<Member>, doubles: int -> string)
    requires members != []
    ensures MoreMembers(members, doubles) == "," + PrintMembers(members, doubles)
  {
  }

  lemma {:induction false} WritesMembers(w: Output, members: seq<Member>, count: nat, doubles: int -> string)
    ensures Writes(Inside(w, false, 2 * count), MemberEvents(members, NumberEvent),
                   Inside(Put(w, ListedMembers(members, count, doubles)), false, 2 * (count + |members|)), doubles)
    decreases members, 0
  {
    hide Prefix, Writes, Put, MemberText, Inside, Events, Print;
    if members == [] {
      NoElements(w, false, 2 * count, doubles);
    } else {
      hide ListedMembers, MemberEvents;
      var start, m := Inside(w, false, 2 * count), members[0];
      var one, rest := MemberText(m, count, doubles), ListedMembers(members[1..], count + 1, doubles);
      MemberEventsAre(members, NumberEvent);
      WritesMember(w, m, count, doubles);
      WritesMembers(Put(w, one), members[1..], count + 1, doubles);
      WritesTwo(start, [Key(m.name)] + Accept(m.value), Inside(Put(w, one), false, 2 * count + 2),
                MemberEvents(members[1..], NumberEvent),
                Inside(Put(Put(w, one), rest), false, 2 * (count + |members|)), doubles);
      PutTwo(w, one, rest);
      ListedMembersIs(members, count, doubles);
    }
  }

  const BLANK := Output("", [], false)

  /** Writing a whole value gives its text, and a complete document. */
  lemma WriterPrints(v: Value, doubles: int -> string)
    ensures Writes(BLANK, Accept(v), Output(Print(v, doubles), [], true), doubles)
  {
    WritesValue(BLANK, v, doubles);
    assert "" + Print(v, doubles) == Print(v, doubles);
  }

  /** The printer as the object that writes to a stream and keeps the level stack. */
  class Writer {
    var os: string
    var levelStack: seq<Level>
    var hasRoot: bool
    const doubles: int -> string

    function State(): Output
      reads this
    {
      Output(os, levelStack, hasRoot)
    }

    constructor (printDouble: int -> string)
      ensures State() == BLANK && doubles == printDouble
    {
      os, levelStack, hasRoot, doubles := "", [], false, printDouble;
    }

    method AddPrefix(ghost isString: bool)
      requires MayPrefix(State(), isString)
      modifies this
      ensures State() == Prefix(old(State()))
    {
      if levelStack != [] {
        var n := |levelStack| - 1;
        var level := levelStack[n];
        if level.valueCount > 0 {
          if level.inArray {
            os := os + ",";
          } else {
            os := os + [if level.valueCount % 2 == 0 then ',' else ':'];
          }
        } else {
          assert os + "" == os;
        }
        levelStack := levelStack[..n] + [level.(valueCount := level.valueCount + 1)];
      } else {
        hasRoot := true;
      }
    }

    method WriteString(str: string)
      modifies this`os
      ensures os == old(os) + Quoted(str)
    {
      hide EscapeChar;
      os := os + "\"";
      var i := 0;
      while i < |str|
        invariant 0 <= i <= |str|
        invariant os + Escape(str[i..]) == old(os) + "\"" + Escape(str)
      {
        assert str[i..][0] == str[i] && str[i..][1..] == str[i + 1..];
        WriteEscaped(str[i]);
        i := i + 1;
      }
      assert os + "" == os;
      os := os + "\"";
    }

    method WriteEscaped(c: char)
      modifies this`os
      ensures os == old(os) + EscapeChar(c)
    {
      var letter := EscapeLetter(c);
      if letter != '\0' {
        os := os + "\\";
        os := os + [letter];
        if letter == 'u' {
          os := os + "00";
          os := os + [HexChar(c as int / 16)];
          os := os + [HexChar(c as int % 16)];
        }
      } else {
        os := os + [c];
      }
    }

    method Receive(e: Event)
      requires MayWrite(State(), e)
      modifies this
      ensures State() == Write(old(State()), e, doubles)
    {
      hide Prefix, Quoted;
      if e.EndObject? || e.EndArray? {
        levelStack := levelStack[..|levelStack| - 1];
        os := os + TextOf(e, doubles);
      } else {
        AddPrefix(IsText(e));
        if e.String? {
          WriteString(e.text);
        } else if e.Key? {
          WriteString(e.name);
        } else {
          os := os + TextOf(e, doubles);
        }
        if e.StartObject? || e.StartArray? {
          levelStack := levelStack + [Level(e.StartArray?, 0)];
        }
      }
    }

    /** Writes a value by its events; the whole text is that of `Print`. */
    method WriteValue(v: Value)
      requires State() == BLANK
      modifies this
      ensures State() == Output(Print(v, doubles), [], true)
    {
      hide Print, Accept, Write, MayWrite;
      WriterPrints(v, doubles);
      var events := Accept(v);
      var i := 0;
      assert events[0..] == events;
      while i < |events|
        invariant 0 <= i <= |events|
        invariant Writes(State(), events[i..], Output(Print(v, doubles), [], true), doubles)
      {
        assert events[i..][0] == events[i] && events[i..][1..] == events[i + 1..];
        Receive(events[i]);
        i := i + 1;
      }
    }
  }
}
