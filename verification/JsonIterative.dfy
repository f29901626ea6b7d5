/** The iterative parser, a table of states and tokens with a stack of its own, and
  the proof that it reads exactly what the recursive parser reads and sends the
  same events, also up to the point of an error.
 */
module JsonIterative {
  import opened Common
  import opened JsonText

  datatype State =
    | Start
    | Finish
    | Error
    | ObjectInitial
    | MemberKey
    | KeyValueDelimiter
    | MemberValue
    | MemberDelimiter
    | ObjectFinish
    | ArrayInitial
    | Element
    | ElementDelimiter
    | ArrayFinish
    | SingleValue

  datatype Token =
    | LeftBracket
    | RightBracket
    | LeftCurlyBracket
    | RightCurlyBracket
    | Comma
    | Colon
    | StringToken
    | FalseToken
    | TrueToken
    | NullToken
    | NumberToken

  function Tokenize(c: char): Token {
    match c
    case '[' => LeftBracket
    case ']' => RightBracket
    case '{' => LeftCurlyBracket
    case '}' => RightCurlyBracket
    case ',' => Comma
    case ':' => Colon
    case '\"' => StringToken
    case 'f' => FalseToken
    case 't' => TrueToken
    case 'n' => NullToken
    case _ => NumberToken
  }

  /** A value that is neither an array nor an object. */
  predicate IsScalar(t: Token) {
    t.StringToken? || t.FalseToken? || t.TrueToken? || t.NullToken? || t.NumberToken?
  }

  /** The table, row by row. */
  function Predict(state: State, t: Token): State {
    match state
    case Start =>
      if t.LeftBracket? then ArrayInitial else if t.LeftCurlyBracket? then ObjectInitial
      else if IsScalar(t) then SingleValue else Error
    case ObjectInitial =>
      if t.RightCurlyBracket? then ObjectFinish else if t.StringToken? then MemberKey else Error
    case MemberKey =>
      if t.Colon? then KeyValueDelimiter else Error
    case KeyValueDelimiter =>
      if t.LeftBracket? then ArrayInitial else if t.LeftCurlyBracket? then ObjectInitial
      else if IsScalar(t) then MemberValue else Error
    case MemberValue =>
      if t.RightCurlyBracket? then ObjectFinish else if t.Comma? then MemberDelimiter else Error
    case MemberDelimiter =>
      if t.StringToken? then MemberKey else Error
    case ArrayInitial =>
      if t.LeftBracket? then ArrayInitial else if t.RightBracket? then ArrayFinish
      else if t.LeftCurlyBracket? then ObjectInitial else if IsScalar(t) then Element else Error
    case Element =>
      if t.RightBracket? then ArrayFinish else if t.Comma? then ElementDelimiter else Error
    case ElementDelimiter =>
      if t.LeftBracket? then ArrayInitial else if t.LeftCurlyBracket? then ObjectInitial
      else if IsScalar(t) then Element else Error
    case _ => Error
  }

  /** What is pushed for an open array or object: the state to go back to, and how
      many elements or members have been followed by a comma. */
  datatype Frame = Frame(back: State, count: nat)

  datatype Config = Config(state: State, stack: seq<Frame>, pos: nat, events: seq<Event>)

  function Fail(c: Config, events: seq<Event>): Config {
    c.(state := Error, events := c.events + events)
  }

  function Arrive(c: Config, to: State, r: Result): Config {
    if r.Failed? then Fail(c, r.events) else c.(state := to, pos := r.pos, events := c.events + r.events)
  }

  /** The state to go back to from an array or object begun in `src`. */
  function Back(src: State): State {
    match src
    case ArrayInitial => Element
    case ElementDelimiter => Element
    case KeyValueDelimiter => MemberValue
    case _ => src
  }

  function Resume(back: State): State {
    if back == Start then Finish else back
  }

  /** Within an array or object there is a frame for it on the stack. */
  predicate Nested(c: Config) {
    c.state !in {Start, Finish, Error, ObjectFinish, ArrayFinish, SingleValue} ==> c.stack != []
  }

  function Transit(s: string, c: Config, dst: State, o: Options): (d: Config)
    requires c.pos < |s| && Peek(s, c.pos) != '\0' && Nested(c) && dst == Predict(c.state, Tokenize(Peek(s, c.pos)))
    ensures d.state != Error ==> c.pos < d.pos <= |s|
  {
    match dst
    case Error => Fail(c, [])
    case ObjectInitial =>
      Config(dst, c.stack + [Frame(Back(c.state), 0)], c.pos + 1, c.events + [StartObject])
    case ArrayInitial =>
      Config(dst, c.stack + [Frame(Back(c.state), 0)], c.pos + 1, c.events + [StartArray])
    case MemberKey => Arrive(c, dst, ParseString(s, c.pos, true))
    case KeyValueDelimiter => c.(state := dst, pos := c.pos + 1)
    case MemberValue => Arrive(c, dst, ParseValue(s, c.pos, o))
    case Element => Arrive(c, dst, ParseValue(s, c.pos, o))
    case MemberDelimiter => Delimit(c, dst)
    case ElementDelimiter => Delimit(c, dst)
    case ObjectFinish => Close(c, c.state == MemberValue)
    case ArrayFinish => Close(c, c.state == Element)
    case _ => Arrive(c, Finish, ParseValue(s, c.pos, o))
  }

  function Top(c: Config): Frame
    requires c.stack != []
  {
    c.stack[|c.stack| - 1]
  }

  function Delimit(c: Config, dst: State): Config
    requires c.stack != []
  {
    c.(state := dst, pos := c.pos + 1,
       stack := c.stack[..|c.stack| - 1] + [Top(c).(count := Increment(Top(c).count))])
  }

  /** The end of an object or array; the last member or element has no comma. */
  function Close(c: Config, more: bool): Config
    requires c.stack != []
  {
    var count := if more then Increment(Top(c).count) else Top(c).count;
    var end := if c.state == ObjectInitial || c.state == MemberValue then EndObject(count) else EndArray(count);
    Config(Resume(Top(c).back), c.stack[..|c.stack| - 1], c.pos + 1, c.events + [end])
  }

  /** Every frame has a state to go back to that its own surroundings allow. */
  predicate Frames(stack: seq<Frame>) {
    stack == [] || (var n := |stack| - 1;
                    && Frames(stack[..n])
                    && if n == 0 then stack[n].back == Start else stack[n].back in {Element, MemberValue})
  }

  predicate Proper(c: Config) {
    && Frames(c.stack) && Nested(c)
    && (c.state in {Start, Finish} <==> c.stack == [] && c.state != Error)
    && c.state !in {ObjectFinish, ArrayFinish, SingleValue}
  }

  lemma {:induction false} TransitIsProper(s: string, c: Config, o: Options)
    requires c.pos < |s| && Peek(s, c.pos) != '\0' && Proper(c)
    ensures var d := Transit(s, c, Predict(c.state, Tokenize(Peek(s, c.pos))), o); d.state != Error ==> Proper(d)
  {
  }

  /** The loop from its head on. */
  function Loop(s: string, c: Config, o: Options): (r: Result)
    requires c.pos <= |s| && Proper(c) && c.state != Error
    decreases |s| - c.pos, 0
  {
    if Peek(s, c.pos) == '\0' then
      if c.state == Finish then Done(c.pos, c.events) else Failed(c.events)
    else
      var d := Transit(s, c, Predict(c.state, Tokenize(Peek(s, c.pos))), o);
      TransitIsProper(s, c, o);
      if d.state == Error then Failed(d.events) else Next(s, d, o)
  }

  /** What follows in the loop after a transition. */
  function Next(s: string, d: Config, o: Options): (r: Result)
    requires d.pos <= |s| && Proper(d) && d.state != Error
    decreases |s| - d.pos, 1
  {
    if o.stopWhenDone && d.state == Finish then Done(d.pos, d.events)
    else
      var p := Skip(s, d.pos, o.comments);
      if p.None? then Failed(d.events) else Loop(s, d.(pos := p.value), o)
  }

  function IterativeParse(s: string, o: Options): Result {
    var first := Skip(s, 0, o.comments);
    if first.None? then Failed([]) else Loop(s, Config(Start, [], first.value, []), o)
  }

  // ------------------------------------------------------- the same as recursion

  /** A state in which a value comes next. */
  predicate WantsValue(s: string, c: Config) {
    c.state in {Start, KeyValueDelimiter, ElementDelimiter} || (c.state == ArrayInitial && Peek(s, c.pos) != ']')
  }

  /** The state after a value. */
  function Landing(src: State): State {
    Resume(Back(src))
  }

  function Landed(c: Config, r: Result): Config
    requires r.Done?
  {
    Config(Landing(c.state), c.stack, r.pos, c.events + r.events)
  }

  /** The configuration after the object or array on top of the stack is read. */
  function Popped(c: Config, r: Result): Config
    requires r.Done? && c.stack != []
  {
    Config(Resume(Top(c).back), c.stack[..|c.stack| - 1], r.pos, c.events + r.events)
  }

  lemma LandedIsProper(s: string, c: Config, r: Result)
    requires Proper(c) && WantsValue(s, c) && r.Done?
    ensures Proper(Landed(c, r)) && Landed(c, r).state != Error
  {
  }

  lemma PoppedIsProper(c: Config, r: Result)
    requires Proper(c) && c.stack != [] && r.Done?
    ensures Proper(Popped(c, r)) && Popped(c, r).state != Error
  {
  }

  /** What the loop comes to when the value ahead has been read as r. */
  function Onward(s: string, c: Config, r: Result, o: Options): Result
    requires Proper(c) && WantsValue(s, c) && (r.Done? ==> r.pos <= |s|)
  {
    if r.Failed? then Failed(c.events + r.events)
    else
      LandedIsProper(s, c, r);
      Next(s, Landed(c, r), o)
  }

  /** The same when the rest of the array or object around has been read as r. */
  function Outward(s: string, c: Config, r: Result, o: Options): Result
    requires Proper(c) && c.stack != [] && (r.Done? ==> r.pos <= |s|)
  {
    if r.Failed? then Failed(c.events + r.events)
    else
      PoppedIsProper(c, r);
      Next(s, Popped(c, r), o)
  }

  /** c and e are within the same array or object; e has come further. */
  lemma OutwardShift(s: string, c: Config, e: Config, earlier: seq<Event>, r: Result, o: Options)
    requires Proper(c) && c.stack != [] && Proper(e) && e.stack != [] && (r.Done? ==> r.pos <= |s|)
    requires Top(e).back == Top(c).back && e.stack[..|e.stack| - 1] == c.stack[..|c.stack| - 1]
    requires e.events == c.events + earlier
    ensures Outward(s, e, r, o) == Outward(s, c, r.After(earlier), o)
  {
    hide Next, Proper;
    assert e.events + r.events == c.events + (earlier + r.events);
  }

  /** The same when e is inside the array or object that c has opened. */
  lemma OpenedOnward(s: string, c: Config, e: Config, event: Event, r: Result, o: Options)
    requires Proper(c) && WantsValue(s, c) && Proper(e) && e.stack == c.stack + [Frame(Back(c.state), 0)]
    requires e.events == c.events + [event] && (r.Done? ==> r.pos <= |s|)
    ensures Outward(s, e, r, o) == Onward(s, c, r.After([event]), o)
  {
    hide Next, Proper;
    assert e.stack[..|e.stack| - 1] == c.stack;
    assert e.events + r.events == c.events + ([event] + r.events);
  }

  // ------------------------------------------------------------- single steps

  lemma SkipStep(s: string, d: Config, o: Options)
    requires d.pos <= |s| && Proper(d) && d.state !in {Error, Finish}
    ensures var p := Skip(s, d.pos, o.comments);
            Next(s, d, o) == if p.None? then Failed(d.events) else Loop(s, d.(pos := p.value), o)
  {
    hide Skip, Frames, Loop;
  }

  /** The configuration once a bracket has been taken. */
  function Opened(c: Config, to: State, pos: nat, event: Event): Config {
    Config(to, c.stack + [Frame(Back(c.state), 0)], pos, c.events + [event])
  }

  lemma {:induction false} FramesGrow(stack: seq<Frame>, f: Frame)
    requires Frames(stack) && if stack == [] then f.back == Start else f.back in {Element, MemberValue}
    ensures Frames(stack + [f])
  {
    assert (stack + [f])[..|stack|] == stack;
  }

  lemma {:induction false} OpenedIsProper(s: string, c: Config, to: State, pos: nat, event: Event)
    requires Proper(c) && WantsValue(s, c) && to in {ObjectInitial, ArrayInitial}
    ensures var d := Opened(c, to, pos, event); Proper(d) && Top(d).count == 0
  {
    hide Frames;
    FramesGrow(c.stack, Frame(Back(c.state), 0));
  }

  lemma OpenStep(s: string, c: Config, o: Options)
    requires c.pos < |s| && Proper(c) && WantsValue(s, c) && Peek(s, c.pos) in {'[', '{'}
    ensures var (to, event) :=
              if Peek(s, c.pos) == '[' then (ArrayInitial, StartArray) else (ObjectInitial, StartObject);
            var d := Opened(c, to, c.pos + 1, event);
            Proper(d) && Loop(s, c, o) == Next(s, d, o)
  {
    hide Frames, Next;
    OpenedIsProper(s, c, ArrayInitial, c.pos + 1, StartArray);
    OpenedIsProper(s, c, ObjectInitial, c.pos + 1, StartObject);
  }

  lemma DelimitStep(s: string, c: Config, o: Options)
    requires c.pos < |s| && Proper(c) && c.state in {Element, MemberValue} && Peek(s, c.pos) == ','
    ensures var d := Delimit(c, if c.state == Element then ElementDelimiter else MemberDelimiter);
            && Proper(d) && Loop(s, c, o) == Next(s, d, o)
            && Top(d) == Top(c).(count := Increment(Top(c).count))
            && d.stack[..|d.stack| - 1] == c.stack[..|c.stack| - 1]
  {
    hide Next;
    var d := Delimit(c, if c.state == Element then ElementDelimiter else MemberDelimiter);
    assert d.stack[..|d.stack| - 1] == c.stack[..|c.stack| - 1];
  }

  /** The closing bracket that fits the state. */
  lemma CloseStep(s: string, c: Config, o: Options)
    requires c.pos < |s| && Proper(c)
    requires if Peek(s, c.pos) == ']' then c.state in {ArrayInitial, Element}
             else Peek(s, c.pos) == '}' && c.state in {ObjectInitial, MemberValue}
    ensures var n := if c.state in {Element, MemberValue} then Increment(Top(c).count) else Top(c).count;
            var end := if Peek(s, c.pos) == ']' then EndArray(n) else EndObject(n);
            Loop(s, c, o) == Outward(s, c, Done(c.pos + 1, [end]), o)
  {
    hide Next, Frames;
    var n := if c.state in {Element, MemberValue} then Increment(Top(c).count) else Top(c).count;
    var end := if Peek(s, c.pos) == ']' then EndArray(n) else EndObject(n);
    PoppedIsProper(c, Done(c.pos + 1, [end]));
  }

  /** A character that does not fit the state ends the loop there. */
  lemma ErrorStep(s: string, c: Config, o: Options)
    requires c.pos <= |s| && Proper(c) && c.state !in {Error, Finish}
    requires Peek(s, c.pos) == '\0' || Predict(c.state, Tokenize(Peek(s, c.pos))) == Error
    ensures Loop(s, c, o) == Failed(c.events)
  {
    hide Next, Frames, Predict;
    assert c.events + [] == c.events;
  }

  lemma ScalarStep(s: string, c: Config, o: Options)
    requires c.pos < |s| && Proper(c) && WantsValue(s, c)
    requires Peek(s, c.pos) != '\0' && IsScalar(Tokenize(Peek(s, c.pos)))
    ensures Loop(s, c, o) == Onward(s, c, ParseValue(s, c.pos, o), o)
  {
    hide Next, Frames, ParseValue;
    var r := ParseValue(s, c.pos, o);
    if r.Done? {
      LandedIsProper(s, c, r);
    }
  }

  lemma NotANumber(s: string, pos: nat, o: Options)
    requires pos <= |s| && Peek(s, pos) in {']', '}', ',', ':', '\0'}
    ensures ParseValue(s, pos, o) == Failed([])
  {
  }

  // ----------------------------------------------------------- values, arrays

  /** The loop reads a value as the recursive parser does. */
  lemma {:induction false} ValueRuns(s: string, c: Config, o: Options)
    requires c.pos <= |s| && Proper(c) && WantsValue(s, c)
    ensures Loop(s, c, o) == Onward(s, c, ParseValue(s, c.pos, o), o)
    decreases |s| - c.pos, 0
  {
    hide Loop, Next, Proper, Frames, ParseValue, Transit;
    if Peek(s, c.pos) == '[' {
      ArrayRuns(s, c, o);
    } else if Peek(s, c.pos) == '{' {
      ObjectRuns(s, c, o);
    } else if Peek(s, c.pos) in {']', '}', ',', ':', '\0'} {
      NotANumber(s, c.pos, o);
      ErrorStep(s, c, o);
      assert c.events + [] == c.events;
    } else {
      ScalarStep(s, c, o);
    }
  }

  lemma {:induction false} ArrayRuns(s: string, c: Config, o: Options)
    requires c.pos < |s| && Proper(c) && WantsValue(s, c) && Peek(s, c.pos) == '['
    ensures Loop(s, c, o) == Onward(s, c, ParseValue(s, c.pos, o), o)
    decreases |s| - c.pos - 1, 2
  {
    hide Loop, Next, Proper, Frames, Transit, Skip, ParseElements, Onward, Outward;
    var first := Skip(s, c.pos + 1, o.comments);
    var d := Opened(c, ArrayInitial, c.pos + 1, StartArray);
    OpenStep(s, c, o);
    SkipStep(s, d, o);
    if first.None? {
      FailedOnward(s, c, [StartArray], o);
      assert [StartArray] + [] == [StartArray];
    } else {
      var e := d.(pos := first.value);
      OpenedIsProper(s, c, ArrayInitial, first.value, StartArray);
      var r := if Peek(s, first.value) == ']' then Done(first.value + 1, [EndArray(0)])
               else ParseElements(s, first.value, 0, o);
      if Peek(s, first.value) == ']' {
        CloseStep(s, e, o);
      } else {
        ElementsRun(s, e, o);
      }
      OpenedOnward(s, c, e, StartArray, r, o);
    }
  }

  lemma FailedOnward(s: string, c: Config, events: seq<Event>, o: Options)
    requires Proper(c) && WantsValue(s, c)
    ensures Onward(s, c, Failed(events), o) == Failed(c.events + events)
  {
  }

  lemma FailedOutward(s: string, c: Config, events: seq<Event>, o: Options)
    requires Proper(c) && c.stack != []
    ensures Outward(s, c, Failed(events), o) == Failed(c.events + events)
  {
  }

  /** Elements are read alike, and their commas counted alike. */
  lemma {:induction false} ElementsRun(s: string, c: Config, o: Options)
    requires c.pos <= |s| && Proper(c) && WantsValue(s, c) && c.state in {ArrayInitial, ElementDelimiter}
    ensures c.stack != []
    ensures Loop(s, c, o) == Outward(s, c, ParseElements(s, c.pos, Top(c).count, o), o)
    decreases |s| - c.pos, 1
  {
    assert c.stack != [];
    hide Loop, Next, Proper, Frames, Transit, Skip, ParseValue, ElementTail, Onward, Outward;
    ValueRuns(s, c, o);
    var value := ParseValue(s, c.pos, o);
    FailedOutward(s, c, value.events, o);
    if value.Failed? {
      FailedOnward(s, c, value.events, o);
    } else {
      var d := Landed(c, value);
      DoneOnward(s, c, value, o);
      LandedIsProper(s, c, value);
      SkipStep(s, d, o);
      var next := Skip(s, value.pos, o.comments);
      if next.Some? {
        PositionIsFree(d, next.value);
        AfterElement(s, c, d.(pos := next.value), value.events, o);
      }
    }
  }

  lemma DoneOnward(s: string, c: Config, r: Result, o: Options)
    requires Proper(c) && WantsValue(s, c) && r.Done? && r.pos <= |s|
    ensures Proper(Landed(c, r)) && Onward(s, c, r, o) == Next(s, Landed(c, r), o)
  {
    LandedIsProper(s, c, r);
  }

  lemma {:induction false} AfterElement(s: string, c: Config, e: Config, earlier: seq<Event>, o: Options)
    requires c.pos < e.pos <= |s| && Proper(c) && c.stack != [] && Proper(e) && e.state == Element
    requires e.stack == c.stack && e.events == c.events + earlier
    ensures Loop(s, e, o) == Outward(s, c, ElementTail(s, e.pos, Top(c).count, o).After(earlier), o)
    decreases |s| - c.pos - 1, 2
  {
    hide Loop, Next, Proper, Frames, Transit, Skip, ParseElements, Outward;
    if Peek(s, e.pos) == ',' {
      DelimitStep(s, e, o);
      var d := Delimit(e, ElementDelimiter);
      SkipStep(s, d, o);
      var more := Skip(s, e.pos + 1, o.comments);
      if more.None? {
        assert earlier + [] == earlier;
        FailedOutward(s, c, earlier, o);
      } else {
        var f := d.(pos := more.value);
        assert Proper(f) by {
          PositionIsFree(d, more.value);
        }
        ElementsRun(s, f, o);
        OutwardShift(s, c, f, earlier, ParseElements(s, more.value, Increment(Top(c).count), o), o);
      }
    } else if Peek(s, e.pos) == ']' {
      CloseStep(s, e, o);
      OutwardShift(s, c, e, earlier, Done(e.pos + 1, [EndArray(Increment(Top(c).count))]), o);
    } else {
      ErrorStep(s, e, o);
      assert earlier + [] == earlier;
      FailedOutward(s, c, earlier, o);
    }
  }

  lemma PositionIsFree(c: Config, pos: nat)
    requires Proper(c)
    ensures Proper(c.(pos := pos))
  {
  }

  // ------------------------------------------------------------------ objects

  lemma {:induction false} ObjectRuns(s: string, c: Config, o: Options)
    requires c.pos < |s| && Proper(c) && WantsValue(s, c) && Peek(s, c.pos) == '{'
    ensures Loop(s, c, o) == Onward(s, c, ParseValue(s, c.pos, o), o)
    decreases |s| - c.pos - 1, 2
  {
    hide Loop, Next, Proper, Frames, Transit, Skip, ParseMembers, Onward, Outward;
    var first := Skip(s, c.pos + 1, o.comments);
    var d := Opened(c, ObjectInitial, c.pos + 1, StartObject);
    OpenStep(s, c, o);
    SkipStep(s, d, o);
    if first.None? {
      FailedOnward(s, c, [StartObject], o);
      assert [StartObject] + [] == [StartObject];
    } else {
      var e := d.(pos := first.value);
      OpenedIsProper(s, c, ObjectInitial, first.value, StartObject);
      var r := if Peek(s, first.value) == '}' then Done(first.value + 1, [EndObject(0)])
               else ParseMembers(s, first.value, 0, o);
      if Peek(s, first.value) == '}' {
        CloseStep(s, e, o);
      } else {
        MembersRun(s, e, o);
      }
      OpenedOnward(s, c, e, StartObject, r, o);
    }
  }

  lemma KeyStep(s: string, c: Config, o: Options)
    requires c.pos < |s| && Proper(c) && c.state in {ObjectInitial, MemberDelimiter} && Peek(s, c.pos) == '\"'
    ensures var key := ParseString(s, c.pos, true);
            if key.Failed? then Loop(s, c, o) == Failed(c.events + key.events)
            else
              var d := c.(state := MemberKey, pos := key.pos, events := c.events + key.events);
              Proper(d) && key.pos <= |s| && Loop(s, c, o) == Next(s, d, o)
  {
    hide Next, Frames;
  }

  lemma ColonStep(s: string, c: Config, o: Options)
    requires c.pos < |s| && Proper(c) && c.state == MemberKey && Peek(s, c.pos) == ':'
    ensures var d := c.(state := KeyValueDelimiter, pos := c.pos + 1); Proper(d) && Loop(s, c, o) == Next(s, d, o)
  {
    hide Next, Frames;
  }

  /** Members are read alike, and their commas counted alike. */
  lemma {:induction false} MembersRun(s: string, c: Config, o: Options)
    requires c.pos <= |s| && Proper(c)
    requires c.state == MemberDelimiter || (c.state == ObjectInitial && Peek(s, c.pos) != '}')
    ensures c.stack != []
    ensures Loop(s, c, o) == Outward(s, c, ParseMembers(s, c.pos, Top(c).count, o), o)
    decreases |s| - c.pos, 1
  {
    assert c.stack != [];
    hide Loop, Next, Proper, Frames, Transit, Skip, ParseString, KeyTail, Onward, Outward;
    if Peek(s, c.pos) != '\"' {
      ErrorStep(s, c, o);
      FailedOutward(s, c, [], o);
      assert c.events + [] == c.events;
    } else {
      var key := ParseString(s, c.pos, true);
      KeyStep(s, c, o);
      FailedOutward(s, c, key.events, o);
      if key.Done? {
        var d := c.(state := MemberKey, pos := key.pos, events := c.events + key.events);
        SkipStep(s, d, o);
        var colon := Skip(s, key.pos, o.comments);
        if colon.Some? {
          PositionIsFree(d, colon.value);
          AfterKey(s, c, d.(pos := colon.value), key.events, o);
        }
      }
    }
  }

  lemma {:induction false} AfterKey(s: string, c: Config, e: Config, earlier: seq<Event>, o: Options)
    requires c.pos < e.pos <= |s| && Proper(c) && c.stack != [] && Proper(e) && e.state == MemberKey
    requires e.stack == c.stack && e.events == c.events + earlier
    ensures Loop(s, e, o) == Outward(s, c, KeyTail(s, e.pos, Top(c).count, o).After(earlier), o)
    decreases |s| - c.pos - 1, 4
  {
    hide Loop, Next, Proper, Frames, Transit, Skip, ValueTail, Onward, Outward;
    assert earlier + [] == earlier;
    FailedOutward(s, c, earlier, o);
    if Peek(s, e.pos) != ':' {
      ErrorStep(s, e, o);
    } else {
      ColonStep(s, e, o);
      var d := e.(state := KeyValueDelimiter, pos := e.pos + 1);
      SkipStep(s, d, o);
      var start := Skip(s, d.pos, o.comments);
      if start.Some? {
        PositionIsFree(d, start.value);
        MemberValueRuns(s, c, d.(pos := start.value), earlier, o);
      }
    }
  }

  lemma {:induction false} MemberValueRuns(s: string, c: Config, e: Config, earlier: seq<Event>, o: Options)
    requires c.pos < e.pos <= |s| && Proper(c) && c.stack != [] && Proper(e) && e.state == KeyValueDelimiter
    requires e.stack == c.stack && e.events == c.events + earlier
    ensures Loop(s, e, o) == Outward(s, c, ValueTail(s, e.pos, Top(c).count, o).After(earlier), o)
    decreases |s| - c.pos - 1, 3
  {
    hide Loop, Next, Proper, Frames, Transit, Skip, ParseValue, MemberTail, Onward, Outward;
    ValueRuns(s, e, o);
    var value := ParseValue(s, e.pos, o);
    assert c.events + (earlier + value.events) == e.events + value.events;
    FailedOutward(s, c, earlier + value.events, o);
    if value.Failed? {
      FailedOnward(s, e, value.events, o);
    } else {
      var d := Landed(e, value);
      DoneOnward(s, e, value, o);
      LandedIsProper(s, e, value);
      SkipStep(s, d, o);
      var next := Skip(s, value.pos, o.comments);
      if next.Some? {
        PositionIsFree(d, next.value);
        AfterMember(s, c, d.(pos := next.value), earlier + value.events, o);
        var tail := MemberTail(s, next.value, Top(c).count, o);
        assert earlier + (value.events + tail.events) == earlier + value.events + tail.events;
      }
    }
  }

  lemma {:induction false} AfterMember(s: string, c: Config, e: Config, earlier: seq<Event>, o: Options)
    requires c.pos < e.pos <= |s| && Proper(c) && c.stack != [] && Proper(e) && e.state == MemberValue
    requires e.stack == c.stack && e.events == c.events + earlier
    ensures Loop(s, e, o) == Outward(s, c, MemberTail(s, e.pos, Top(c).count, o).After(earlier), o)
    decreases |s| - c.pos - 1, 2
  {
    hide Loop, Next, Proper, Frames, Transit, Skip, ParseMembers, Outward;
    assert earlier + [] == earlier;
    FailedOutward(s, c, earlier, o);
    if Peek(s, e.pos) == ',' {
      DelimitStep(s, e, o);
      var d := Delimit(e, MemberDelimiter);
      SkipStep(s, d, o);
      var more := Skip(s, e.pos + 1, o.comments);
      if more.Some? {
        var f := d.(pos := more.value);
        PositionIsFree(d, more.value);
        MembersRun(s, f, o);
        OutwardShift(s, c, f, earlier, ParseMembers(s, more.value, Increment(Top(c).count), o), o);
      }
    } else if Peek(s, e.pos) == '}' {
      CloseStep(s, e, o);
      OutwardShift(s, c, e, earlier, Done(e.pos + 1, [EndObject(Increment(Top(c).count))]), o);
    } else {
      ErrorStep(s, e, o);
    }
  }

  /** For every text and every nesting depth, with or without comments, stopping
      after the first value or not: the two parsers accept the same texts up to the
      same position, and send the same events with the same element counts, also
      those before an error. */
  lemma ParsersAgree(s: string, o: Options)
    ensures IterativeParse(s, o) == Parse(s, o)
  {
    hide Skip, ParseValue, Loop, Transit;
    var first := Skip(s, 0, o.comments);
    if first.Some? {
      var c := Config(Start, [], first.value, []);
      if Peek(s, first.value) == '\0' {
        ErrorStep(s, c, o);
      } else {
        ValueRuns(s, c, o);
        var value := ParseValue(s, first.value, o);
        assert [] + value.events == value.events;
        if value.Done? && !o.stopWhenDone {
          var last := Skip(s, value.pos, o.comments);
          if last.Some? {
            FinishStep(s, Landed(c, value).(pos := last.value), o);
          }
        }
      }
    }
  }

  lemma FinishStep(s: string, c: Config, o: Options)
    requires c.pos <= |s| && Proper(c) && c.state == Finish
    ensures Loop(s, c, o) == if Peek(s, c.pos) == '\0' then Done(c.pos, c.events) else Failed(c.events)
  {
    assert c.events + [] == c.events;
  }
}
