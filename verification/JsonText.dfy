/** JSON text as the recursive parser reads it: what each of its functions takes
  from the stream and which events it sends to a handler that never stops it.

  A stream gives the character NUL at its end, and a NUL inside the text is
  taken for the end in the same way.
 */
module JsonText {
  import opened Chars
  import opened Common
  import opened Utf8

  datatype Event =
    | Null
    | Bool(b: bool)
    | Int(i: int)
    | Uint(u: int)
    | Int64(i: int)
    | Uint64(u: int)
    | Double(bits: int)
    | String(text: string)
    | StartObject
    | Key(name: string)
    | EndObject(memberCount: nat)
    | StartArray
    | EndArray(elementCount: nat)

  /** The flags that change what is accepted, and the conversion of a number with
      a fraction or an exponent, or beyond 64 bits, which is not modelled: it gives
      the double, or fails for one that is too big. */
  datatype Options = Options(comments: bool, stopWhenDone: bool, toDouble: string -> Option<int>)

  /** The counts in events are 32-bit. */
  const SIZE_LIMIT := 0x1_0000_0000

  function Increment(n: nat): (r: nat)
    ensures r < SIZE_LIMIT
    ensures n + 1 < SIZE_LIMIT ==> r == n + 1
  {
    (n + 1) % SIZE_LIMIT
  }

  function Peek(s: string, pos: nat): char {
    if pos < |s| then s[pos] else '\0'
  }

  // ------------------------------------------------------- spaces and comments

  predicate IsSpace(c: char) {
    c == ' ' || c == '\n' || c == '\r' || c == '\t'
  }

  function SkipWhitespace(s: string, pos: nat): (r: nat)
    requires pos <= |s|
    ensures pos <= r <= |s| && !IsSpace(Peek(s, r))
    decreases |s| - pos
  {
    if IsSpace(Peek(s, pos)) then SkipWhitespace(s, pos + 1) else pos
  }

  /** The end of a block comment, None when the text ends before it. A star that
      is not followed by a slash is taken alone. */
  function BlockEnd(s: string, pos: nat): (r: Option<nat>)
    requires pos <= |s|
    ensures r.Some? ==> pos < r.value <= |s|
    decreases |s| - pos
  {
    if Peek(s, pos) == '\0' then None
    else if Peek(s, pos) == '*' && Peek(s, pos + 1) == '/' then Some(pos + 2)
    else BlockEnd(s, pos + 1)
  }

  /** The end of a line comment, past its newline. */
  function LineEnd(s: string, pos: nat): (r: nat)
    requires pos <= |s|
    ensures pos <= r <= |s|
    decreases |s| - pos
  {
    if Peek(s, pos) == '\0' then pos else if Peek(s, pos) == '\n' then pos + 1 else LineEnd(s, pos + 1)
  }

  /** `SkipWhitespaceAndComments`; None is an error. */
  function Skip(s: string, pos: nat, comments: bool): (r: Option<nat>)
    requires pos <= |s|
    ensures r.Some? ==> pos <= r.value <= |s|
    decreases |s| - pos
  {
    var p := SkipWhitespace(s, pos);
    if !comments || Peek(s, p) != '/' then Some(p)
    else if Peek(s, p + 1) == '*' then
      var end := BlockEnd(s, p + 2);
      if end.None? then None else Skip(s, end.value, comments)
    else if Peek(s, p + 1) == '/' then Skip(s, LineEnd(s, p + 2), comments)
    else None
  }

  // ------------------------------------------------------------------ results

  /** The events sent, and where the stream is when all went well. */
  datatype Result = Done(pos: nat, events: seq<Event>) | Failed(events: seq<Event>)
  {
    /** This result after other events. */
    function After(earlier: seq<Event>): Result {
      if Done? then Done(pos, earlier + events) else Failed(earlier + events)
    }
  }

  // ----------------------------------------------------------------- literals

  function Literal(s: string, pos: nat, word: string, event: Event): Result {
    if Ahead(s, pos, word) then Done(pos + |word|, [event]) else Failed([])
  }

  // ------------------------------------------------------------------ strings

  function Hex4(s: string, pos: nat): (r: Option<nat>)
    ensures r.Some? ==> r.value < 0x10000 && pos + 4 <= |s|
  {
    var a, b, c, d := HexDigit(Peek(s, pos)), HexDigit(Peek(s, pos + 1)), HexDigit(Peek(s, pos + 2)),
                      HexDigit(Peek(s, pos + 3));
    if a.Some? && b.Some? && c.Some? && d.Some?
    then Some(((a.value * 16 + b.value) * 16 + c.value) * 16 + d.value)
    else None
  }

  /** The characters that a backslash stands before, but for u. */
  function Unescaped(c: char): Option<char> {
    match c
    case '\"' => Some('\"')
    case '/' => Some('/')
    case '\\' => Some('\\')
    case 'b' => Some(8 as char)
    case 'f' => Some(12 as char)
    case 'n' => Some('\n')
    case 'r' => Some('\r')
    case 't' => Some('\t')
    case _ => None
  }

  /** What stands behind `\u`: the position after it and the code point. */
  function UnicodeEscape(s: string, pos: nat): (r: Option<(nat, nat)>)
    ensures r.Some? ==> pos < r.value.0 <= |s| && r.value.1 <= 0x10FFFF
  {
    var first := Hex4(s, pos);
    if first.None? then None
    else if !(0xD800 <= first.value <= 0xDBFF) then Some((pos + 4, first.value))
    else if Peek(s, pos + 4) != '\\' || Peek(s, pos + 5) != 'u' then None
    else
      var second := Hex4(s, pos + 6);
      if second.None? || !(0xDC00 <= second.value <= 0xDFFF) then None
      else Some((pos + 10, (first.value - 0xD800) * 0x400 + (second.value - 0xDC00) + 0x10000))
  }

  /** The rest of a string from inside it: the position past the closing quote and
      the decoded characters. */
  function StringRest(s: string, pos: nat): (r: Option<(nat, string)>)
    requires pos <= |s|
    ensures r.Some? ==> pos < r.value.0 <= |s|
    decreases |s| - pos
  {
    var c := Peek(s, pos);
    if c == '\"' then Some((pos + 1, ""))
    else if c as int < 0x20 then None
    else if c != '\\' then Put([c], StringRest(s, pos + 1))
    else
      var e := Unescaped(Peek(s, pos + 1));
      if e.Some? then Put([e.value], StringRest(s, pos + 2))
      else if Peek(s, pos + 1) == 'u' then
        var u := UnicodeEscape(s, pos + 2);
        if u.None? then None else Put(Encode(u.value.1), StringRest(s, u.value.0))
      else None
  }

  function Put(front: string, rest: Option<(nat, string)>): (r: Option<(nat, string)>)
    ensures r.Some? <==> rest.Some?
    ensures r.Some? ==> r.value.0 == rest.value.0
  {
    if rest.None? then None else Some((rest.value.0, front + rest.value.1))
  }

  /** `ParseString` at the opening quote. */
  function ParseString(s: string, pos: nat, isKey: bool): (r: Result)
    requires pos < |s|
    ensures r.Done? ==> pos < r.pos <= |s|
  {
    var r := StringRest(s, pos + 1);
    if r.None? then Failed([]) else Done(r.value.0, [if isKey then Key(r.value.1) else String(r.value.1)])
  }

  // ------------------------------------------------------------------ numbers

  function DigitsEnd(s: string, pos: nat): (r: nat)
    requires pos <= |s|
    ensures pos <= r <= |s| && !IsDigit(Peek(s, r)) && forall i | pos <= i < r :: IsDigit(s[i])
    decreases |s| - pos
  {
    if IsDigit(Peek(s, pos)) then DigitsEnd(s, pos + 1) else pos
  }

  /** The end of a fraction, if there is one at pos. */
  function FractionEnd(s: string, pos: nat): (r: Option<nat>)
    requires pos <= |s|
    ensures r.Some? ==> pos <= r.value <= |s|
  {
    if Peek(s, pos) != '.' then Some(pos)
    else if !IsDigit(Peek(s, pos + 1)) then None
    else Some(DigitsEnd(s, pos + 1))
  }

  /** The end of an exponent, if there is one at pos. */
  function ExponentEnd(s: string, pos: nat): (r: Option<nat>)
    requires pos <= |s|
    ensures r.Some? ==> pos <= r.value <= |s|
  {
    if Peek(s, pos) != 'e' && Peek(s, pos) != 'E' then Some(pos)
    else
      var p := if Peek(s, pos + 1) == '+' || Peek(s, pos + 1) == '-' then pos + 2 else pos + 1;
      if !IsDigit(Peek(s, p)) then None else Some(DigitsEnd(s, p))
  }

  /** The event of a whole number, None beyond 64 bits. */
  function Whole(minus: bool, n: nat): Option<Event> {
    if minus then
      if n <= 0x8000_0000 then Some(Int(-(n as int)))
      else if n <= 0x8000_0000_0000_0000 then Some(Int64(-(n as int)))
      else None
    else
      if n <= 0xFFFF_FFFF then Some(Uint(n))
      else if n <= 0xFFFF_FFFF_FFFF_FFFF then Some(Uint64(n))
      else None
  }

  /** The end of the digits before a fraction: a zero stands alone. */
  function IntegerEnd(s: string, pos: nat): (r: nat)
    requires pos <= |s| && IsDigit(Peek(s, pos))
    ensures pos < r <= |s| && forall i | pos <= i < r :: IsDigit(s[i])
  {
    if Peek(s, pos) == '0' then pos + 1 else DigitsEnd(s, pos + 1)
  }

  function ParseNumber(s: string, pos: nat, o: Options): (r: Result)
    requires pos <= |s|
    ensures r.Done? ==> pos < r.pos <= |s|
  {
    var minus := Peek(s, pos) == '-';
    var start := if minus then pos + 1 else pos;
    if !IsDigit(Peek(s, start)) then Failed([])
    else
      var intEnd := IntegerEnd(s, start);
      var fracEnd := FractionEnd(s, intEnd);
      if fracEnd.None? then Failed([])
      else
        var end := ExponentEnd(s, fracEnd.value);
        if end.None? then Failed([])
        else
          var whole := if end.value == intEnd then Whole(minus, Decimal(s[start..intEnd])) else None;
          if whole.Some? then Done(end.value, [whole.value])
          else
            var d := o.toDouble(s[pos..end.value]);
            if d.None? then Failed([]) else Done(end.value, [Double(d.value)])
  }

  // ------------------------------------------------------------------- values

  function ParseValue(s: string, pos: nat, o: Options): (r: Result)
    requires pos <= |s|
    ensures r.Done? ==> pos < r.pos <= |s|
    decreases |s| - pos, 0
  {
    match Peek(s, pos)
    case 'n' => Literal(s, pos, "null", Null)
    case 't' => Literal(s, pos, "true", Bool(true))
    case 'f' => Literal(s, pos, "false", Bool(false))
    case '\"' => ParseString(s, pos, false)
    case '{' => ParseObject(s, pos, o).After([StartObject])
    case '[' => ParseArray(s, pos, o).After([StartArray])
    case _ => ParseNumber(s, pos, o)
  }

  /** An object from its bracket on, without the event for that. */
  function ParseObject(s: string, pos: nat, o: Options): (r: Result)
    requires pos < |s|
    ensures r.Done? ==> pos < r.pos <= |s|
    decreases |s| - pos - 1, 2
  {
    var first := Skip(s, pos + 1, o.comments);
    if first.None? then Failed([])
    else if Peek(s, first.value) == '}' then Done(first.value + 1, [EndObject(0)])
    else ParseMembers(s, first.value, 0, o)
  }

  /** Members from the next name on, after `count` of them. */
  function ParseMembers(s: string, pos: nat, count: nat, o: Options): (r: Result)
    requires pos <= |s|
    ensures r.Done? ==> pos < r.pos <= |s|
    decreases |s| - pos, 1
  {
    if Peek(s, pos) != '\"' then Failed([])
    else
      var key := ParseString(s, pos, true);
      if key.Failed? then key
      else
        var colon := Skip(s, key.pos, o.comments);
        if colon.None? then Failed(key.events) else KeyTail(s, colon.value, count, o).After(key.events)
  }

  /** What comes after a member's name, the space behind it skipped. */
  function KeyTail(s: string, pos: nat, count: nat, o: Options): (r: Result)
    requires pos <= |s|
    ensures r.Done? ==> pos < r.pos <= |s|
    decreases |s| - pos, 2
  {
    if Peek(s, pos) != ':' then Failed([])
    else
      var start := Skip(s, pos + 1, o.comments);
      if start.None? then Failed([]) else ValueTail(s, start.value, count, o)
  }

  /** What comes after a member's colon. */
  function ValueTail(s: string, pos: nat, count: nat, o: Options): (r: Result)
    requires pos <= |s|
    ensures r.Done? ==> pos < r.pos <= |s|
    decreases |s| - pos, 1
  {
    var value := ParseValue(s, pos, o);
    if value.Failed? then value
    else
      var next := Skip(s, value.pos, o.comments);
      if next.None? then Failed(value.events) else MemberTail(s, next.value, count, o).After(value.events)
  }

  /** What comes after a member's value, the space behind it skipped. */
  function MemberTail(s: string, pos: nat, count: nat, o: Options): (r: Result)
    requires pos <= |s|
    ensures r.Done? ==> pos < r.pos <= |s|
    decreases |s| - pos, 1
  {
    if Peek(s, pos) == ',' then
      var more := Skip(s, pos + 1, o.comments);
      if more.None? then Failed([]) else ParseMembers(s, more.value, Increment(count), o)
    else if Peek(s, pos) == '}' then Done(pos + 1, [EndObject(Increment(count))])
    else Failed([])
  }

  function ParseArray(s: string, pos: nat, o: Options): (r: Result)
    requires pos < |s|
    ensures r.Done? ==> pos < r.pos <= |s|
    decreases |s| - pos - 1, 2
  {
    var first := Skip(s, pos + 1, o.comments);
    if first.None? then Failed([])
    else if Peek(s, first.value) == ']' then Done(first.value + 1, [EndArray(0)])
    else ParseElements(s, first.value, 0, o)
  }

  /** Elements from the next one on, after `count` of them. */
  function ParseElements(s: string, pos: nat, count: nat, o: Options): (r: Result)
    requires pos <= |s|
    ensures r.Done? ==> pos < r.pos <= |s|
    decreases |s| - pos, 1
  {
    var value := ParseValue(s, pos, o);
    if value.Failed? then value
    else
      var next := Skip(s, value.pos, o.comments);
      if next.None? then Failed(value.events) else ElementTail(s, next.value, count, o).After(value.events)
  }

  /** What comes after an element, the space behind it skipped. */
  function ElementTail(s: string, pos: nat, count: nat, o: Options): (r: Result)
    requires pos <= |s|
    ensures r.Done? ==> pos < r.pos <= |s|
    decreases |s| - pos, 1
  {
    if Peek(s, pos) == ',' then
      var more := Skip(s, pos + 1, o.comments);
      if more.None? then Failed([]) else ParseElements(s, more.value, Increment(count), o)
    else if Peek(s, pos) == ']' then Done(pos + 1, [EndArray(Increment(count))])
    else Failed([])
  }

  /** `Parse`: one value and, unless asked to stop there, nothing but space and
      comments after it. */
  function Parse(s: string, o: Options): Result {
    var first := Skip(s, 0, o.comments);
    if first.None? || Peek(s, first.value) == '\0' then Failed([])
    else
      var value := ParseValue(s, first.value, o);
      if value.Failed? || o.stopWhenDone then value
      else
        var last := Skip(s, value.pos, o.comments);
        if last.None? || Peek(s, last.value) != '\0' then Failed(value.events) else Done(last.value, value.events)
  }
}
