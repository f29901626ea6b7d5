/** JSON values: the events they send, the handler that builds them from events
  on a stack, and their equality.
 */
module JsonDocument {
  import opened JsonText

  /** A number that is not a double is one integer, whichever of the four integer
      kinds it was given as. Doubles are opaque. */
  datatype Value =
    | VNull
    | VBool(b: bool)
    | VNumber(n: int)
    | VDouble(bits: int)
    | VString(text: string)
    | VArray(elements: seq<Value>)
    | VObject(members: seq<Member>)

  datatype Member = Member(name: string, value: Value)

  predicate InRange(n: int) {
    -0x8000_0000_0000_0000 <= n <= 0xFFFF_FFFF_FFFF_FFFF
  }

  /** No doubles, integers of at most 64 bits, and sizes that a 32-bit count holds. */
  predicate Plain(v: Value) {
    match v
    case VNumber(n) => InRange(n)
    case VDouble(_) => false
    case VString(text) => |text| < SIZE_LIMIT
    case VArray(elements) => |elements| < SIZE_LIMIT && forall i | 0 <= i < |elements| :: Plain(elements[i])
    case VObject(members) =>
      && |members| < SIZE_LIMIT
      && forall i | 0 <= i < |members| :: |members[i].name| < SIZE_LIMIT && Plain(members[i].value)
    case _ => true
  }

  // ------------------------------------------------------------------- events

  /** The event `Accept` sends for a number: the first kind it fits. */
  function NumberEvent(n: int): Event {
    if -0x8000_0000 <= n < 0x8000_0000 then Int(n)
    else if 0 <= n <= 0xFFFF_FFFF then Uint(n)
    else if -0x8000_0000_0000_0000 <= n < 0x8000_0000_0000_0000 then Int64(n)
    else Uint64(n)
  }

  /** The events of a value, numbers sent by `number`. */
  function Events(v: Value, number: int -> Event): seq<Event>
    decreases v
  {
    match v
    case VNull => [Null]
    case VBool(b) => [Bool(b)]
    case VNumber(n) => [number(n)]
    case VDouble(bits) => [Double(bits)]
    case VString(text) => [String(text)]
    case VArray(elements) => [StartArray] + (ElementEvents(elements, number) + [EndArray(|elements|)])
    case VObject(members) => [StartObject] + (MemberEvents(members, number) + [EndObject(|members|)])
  }

  function ElementEvents(elements: seq<Value>, number: int -> Event): seq<Event>
    decreases elements
  {
    if elements == [] then [] else Events(elements[0], number) + ElementEvents(elements[1..], number)
  }

  function MemberEvents(members: seq<Member>, number: int -> Event): seq<Event>
    decreases members
  {
    if members == [] then []
    else [Key(members[0].name)] + Events(members[0].value, number) + MemberEvents(members[1..], number)
  }

  lemma ElementEventsAre(elements: seq<Value>, number: int -> Event)
    requires elements != []
    ensures ElementEvents(elements, number) == Events(elements[0], number) + ElementEvents(elements[1..], number)
  {
  }

  lemma MemberEventsAre(members: seq<Member>, number: int -> Event)
    requires members != []
    ensures MemberEvents(members, number)
         == [Key(members[0].name)] + Events(members[0].value, number) + MemberEvents(members[1..], number)
  {
  }

  /** `GenericValue::Accept`. */
  function Accept(v: Value): seq<Event> {
    Events(v, NumberEvent)
  }

  // ------------------------------------------------------------ back to values

  predicate IsNumber(e: Event) {
    e.Int? || e.Uint? || e.Int64? || e.Uint64?
  }

  function NumberOf(e: Event): int
    requires IsNumber(e)
  {
    match e
    case Int(i) => i
    case Uint(u) => u
    case Int64(i) => i
    case Uint64(u) => u
  }

  /** Names and values by turns, as members lie on the stack. */
  function Pairs(values: seq<Value>): seq<Member>
    requires |values| % 2 == 0
  {
    if values == [] then []
    else
      [Member(if values[0].VString? then values[0].text else "", values[1])] + Pairs(values[2..])
  }

  /** There is enough on the stack for the event. */
  predicate Accepts(stack: seq<Value>, e: Event) {
    match e
    case EndObject(n) => |stack| > 2 * n
    case EndArray(n) => |stack| > n
    case _ => true
  }

  function Handle(stack: seq<Value>, e: Event): seq<Value>
    requires Accepts(stack, e)
  {
    match e
    case Null => stack + [VNull]
    case Bool(b) => stack + [VBool(b)]
    case Int(i) => stack + [VNumber(i)]
    case Uint(u) => stack + [VNumber(u)]
    case Int64(i) => stack + [VNumber(i)]
    case Uint64(u) => stack + [VNumber(u)]
    case Double(bits) => stack + [VDouble(bits)]
    case String(text) => stack + [VString(text)]
    case Key(name) => stack + [VString(name)]
    case StartObject => stack + [VObject([])]
    case StartArray => stack + [VArray([])]
    case EndObject(n) => stack[..|stack| - 2 * n - 1] + [VObject(Pairs(stack[|stack| - 2 * n..]))]
    case EndArray(n) => stack[..|stack| - n - 1] + [VArray(stack[|stack| - n..])]
  }

  /** All events in turn; None when one finds too little on the stack. */
  function Build(stack: seq<Value>, events: seq<Event>): (r: seq<Value>)
    requires Builds(stack, events)
    decreases |events|
  {
    if events == [] then stack else Build(Handle(stack, events[0]), events[1..])
  }

  predicate Builds(stack: seq<Value>, events: seq<Event>)
    decreases |events|
  {
    events == [] || (Accepts(stack, events[0]) && Builds(Handle(stack, events[0]), events[1..]))
  }

  lemma {:induction false} BuildTwo(stack: seq<Value>, a: seq<Event>, b: seq<Event>)
    requires Builds(stack, a) && Builds(Build(stack, a), b)
    ensures Builds(stack, a + b) && Build(stack, a + b) == Build(Build(stack, a), b)
    decreases |a|
  {
    if a == [] {
      assert a + b == b;
    } else {
      assert (a + b)[0] == a[0] && (a + b)[1..] == a[1..] + b;
      BuildTwo(Handle(stack, a[0]), a[1..], b);
    }
  }

  lemma BuildOne(stack: seq<Value>, e: Event)
    requires Accepts(stack, e)
    ensures Builds(stack, [e]) && Build(stack, [e]) == Handle(stack, e)
  {
    assert [e][1..] == [];
    assert Builds(Handle(stack, e), []);
    assert Build(Handle(stack, e), []) == Handle(stack, e);
  }

  /** Sends each number as one of the four integer kinds. */
  ghost predicate Faithful(number: int -> Event) {
    forall n :: IsNumber(number(n)) && NumberOf(number(n)) == n
  }

  /** The members of an object as they lie on the stack. */
  function Flat(members: seq<Member>): seq<Value> {
    if members == [] then [] else [VString(members[0].name), members[0].value] + Flat(members[1..])
  }

  lemma {:induction false} PairsOfFlat(members: seq<Member>)
    ensures |Flat(members)| == 2 * |members| && Pairs(Flat(members)) == members
  {
    if members != [] {
      PairsOfFlat(members[1..]);
      var flat := Flat(members);
      assert flat[2..] == Flat(members[1..]);
      assert members == [members[0]] + members[1..];
    }
  }

  /** Building from a value's events puts that value on the stack. */
  lemma {:induction false} BuildsValue(v: Value, stack: seq<Value>, number: int -> Event)
    requires Faithful(number)
    ensures Builds(stack, Events(v, number)) && Build(stack, Events(v, number)) == stack + [v]
    decreases v
  {
    hide Handle;
    match v {
      case VArray(elements) =>
        var open := stack + [VArray([])];
        HandleIs(stack);
        BuildOne(stack, StartArray);
        BuildsElements(elements, open, number);
        ArrayEnds(stack, elements);
        BuildOne(open + elements, EndArray(|elements|));
        BuildTwo(open, ElementEvents(elements, number), [EndArray(|elements|)]);
        BuildTwo(stack, [StartArray], ElementEvents(elements, number) + [EndArray(|elements|)]);
      case VObject(members) =>
        var open := stack + [VObject([])];
        HandleIs(stack);
        BuildOne(stack, StartObject);
        BuildsMembers(members, open, number);
        ObjectEnds(stack, members);
        BuildOne(open + Flat(members), EndObject(|members|));
        BuildTwo(open, MemberEvents(members, number), [EndObject(|members|)]);
        BuildTwo(stack, [StartObject], MemberEvents(members, number) + [EndObject(|members|)]);
      case VNumber(n) =>
        NumberIs(stack, number(n));
        BuildOne(stack, number(n));
      case _ =>
        ScalarIs(stack, v, number);
    }
  }

  lemma HandleIs(stack: seq<Value>)
    ensures Handle(stack, StartArray) == stack + [VArray([])] && Handle(stack, StartObject) == stack + [VObject([])]
  {
  }

  lemma NumberIs(stack: seq<Value>, e: Event)
    requires IsNumber(e)
    ensures Handle(stack, e) == stack + [VNumber(NumberOf(e))]
  {
  }

  lemma ScalarIs(stack: seq<Value>, v: Value, number: int -> Event)
    requires v.VNull? || v.VBool? || v.VDouble? || v.VString?
    ensures Builds(stack, Events(v, number)) && Build(stack, Events(v, number)) == stack + [v]
  {
    BuildOne(stack, Events(v, number)[0]);
  }

  lemma KeyIs(stack: seq<Value>, name: string)
    ensures Builds(stack, [Key(name)]) && Build(stack, [Key(name)]) == stack + [VString(name)]
  {
    BuildOne(stack, Key(name));
  }

  lemma ArrayEnds(stack: seq<Value>, elements: seq<Value>)
    ensures var full := stack + [VArray([])] + elements;
            Accepts(full, EndArray(|elements|)) && Handle(full, EndArray(|elements|)) == stack + [VArray(elements)]
  {
    var full := stack + [VArray([])] + elements;
    assert full[..|stack|] == stack && full[|full| - |elements|..] == elements;
  }

  lemma ObjectEnds(stack: seq<Value>, members: seq<Member>)
    ensures var full := stack + [VObject([])] + Flat(members);
            Accepts(full, EndObject(|members|)) && Handle(full, EndObject(|members|)) == stack + [VObject(members)]
  {
    PairsOfFlat(members);
    var full := stack + [VObject([])] + Flat(members);
    assert full[..|stack|] == stack && full[|full| - 2 * |members|..] == Flat(members);
  }

  lemma {:induction false} BuildsElements(elements: seq<Value>, stack: seq<Value>, number: int -> Event)
    requires Faithful(number)
    ensures Builds(stack, ElementEvents(elements, number))
    ensures Build(stack, ElementEvents(elements, number)) == stack + elements
    decreases elements
  {
    if elements == [] {
      assert stack + elements == stack;
    } else {
      BuildsValue(elements[0], stack, number);
      BuildsElements(elements[1..], stack + [elements[0]], number);
      BuildTwo(stack, Events(elements[0], number), ElementEvents(elements[1..], number));
      assert stack + [elements[0]] + elements[1..] == stack + elements;
    }
  }

  lemma {:induction false} BuildsMember(m: Member, stack: seq<Value>, number: int -> Event)
    requires Faithful(number)
    ensures var events := [Key(m.name)] + Events(m.value, number);
            Builds(stack, events) && Build(stack, events) == stack + [VString(m.name), m.value]
    decreases m, 0
  {
    hide Handle, Events, Builds, Build;
    var name := VString(m.name);
    KeyIs(stack, m.name);
    BuildsValue(m.value, stack + [name], number);
    BuildTwo(stack, [Key(m.name)], Events(m.value, number));
    assert stack + [name] + [m.value] == stack + [name, m.value];
  }

  lemma FlatIs(members: seq<Member>)
    requires members != []
    ensures Flat(members) == [VString(members[0].name), members[0].value] + Flat(members[1..])
  {
  }

  lemma {:induction false} BuildsMembers(members: seq<Member>, stack: seq<Value>, number: int -> Event)
    requires Faithful(number)
    ensures Builds(stack, MemberEvents(members, number))
    ensures Build(stack, MemberEvents(members, number)) == stack + Flat(members)
    decreases members
  {
    if members == [] {
      assert stack + Flat(members) == stack;
    } else {
      hide Handle, Events, MemberEvents, Builds, Build, Flat;
      var m, rest := members[0], members[1..];
      var two := [VString(m.name), m.value];
      BuildsMember(m, stack, number);
      BuildsMembers(rest, stack + two, number);
      BuildTwo(stack, [Key(m.name)] + Events(m.value, number), MemberEvents(rest, number));
      MemberEventsAre(members, number);
      FlatIs(members);
      assert stack + two + Flat(rest) == stack + (two + Flat(rest));
    }
  }

  lemma AcceptIsFaithful()
    ensures Faithful(NumberEvent)
  {
  }

  /** Copying a value by its events gives the same value. */
  lemma CopyIsSame(v: Value)
    ensures Builds([], Accept(v)) && Build([], Accept(v)) == [v]
  {
    AcceptIsFaithful();
    BuildsValue(v, [], NumberEvent);
  }

  /** The document as a handler: values wait on the stack until the array or object
      around them ends. */
  class Document {
    var stack: seq<Value>

    constructor ()
      ensures stack == []
    {
      stack := [];
    }

    method Push(v: Value)
      modifies this
      ensures stack == old(stack) + [v]
    {
      stack := stack + [v];
    }

    method Receive(e: Event)
      requires Accepts(stack, e)
      modifies this
      ensures stack == Handle(old(stack), e)
    {
      match e
      case Null => Push(VNull);
      case Bool(b) => Push(VBool(b));
      case Int(i) => Push(VNumber(i));
      case Uint(u) => Push(VNumber(u));
      case Int64(i) => Push(VNumber(i));
      case Uint64(u) => Push(VNumber(u));
      case Double(bits) => Push(VDouble(bits));
      case String(text) => Push(VString(text));
      case Key(name) => Push(VString(name));
      case StartObject => Push(VObject([]));
      case StartArray => Push(VArray([]));
      case EndObject(n) => CloseObject(n);
      case EndArray(n) => CloseArray(n);
    }

    method CloseObject(memberCount: nat)
      requires |stack| > 2 * memberCount
      modifies this
      ensures stack == Handle(old(stack), EndObject(memberCount))
    {
      var members := stack[|stack| - 2 * memberCount..];
      stack := stack[..|stack| - 2 * memberCount];
      assert stack[..|stack| - 1] == old(stack)[..|old(stack)| - 2 * memberCount - 1];
      stack := stack[..|stack| - 1] + [VObject(Pairs(members))];
    }

    method CloseArray(elementCount: nat)
      requires |stack| > elementCount
      modifies this
      ensures stack == Handle(old(stack), EndArray(elementCount))
    {
      var elements := stack[|stack| - elementCount..];
      stack := stack[..|stack| - elementCount];
      assert stack[..|stack| - 1] == old(stack)[..|old(stack)| - elementCount - 1];
      stack := stack[..|stack| - 1] + [VArray(elements)];
    }

    method ReceiveAll(events: seq<Event>)
      requires Builds(stack, events)
      modifies this
      ensures stack == Build(old(stack), events)
    {
      var i := 0;
      while i < |events|
        invariant 0 <= i <= |events| && Builds(stack, events[i..])
        invariant Build(stack, events[i..]) == Build(old(stack), events)
      {
        assert events[i..][0] == events[i] && events[i..][1..] == events[i + 1..];
        Receive(events[i]);
        i := i + 1;
      }
    }
  }
}
