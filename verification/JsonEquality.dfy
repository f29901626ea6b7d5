/** Equality of JSON values without doubles, as `operator ==` decides it. */
module JsonEquality {
  import opened Common
  import opened JsonText
  import opened JsonDocument

  predicate NoDoubles(v: Value) {
    match v
    case VDouble(_) => false
    case VArray(elements) => forall i | 0 <= i < |elements| :: NoDoubles(elements[i])
    case VObject(members) => forall i | 0 <= i < |members| :: NoDoubles(members[i].value)
    case _ => true
  }

  /** `FindMember`: the first member of that name. */
  function Find(members: seq<Member>, name: string): (r: Option<nat>)
    ensures r.Some? ==> r.value < |members| && members[r.value].name == name
    ensures r.Some? ==> forall i | 0 <= i < r.value :: members[i].name != name
    ensures r.None? ==> forall i | 0 <= i < |members| :: members[i].name != name
  {
    if members == [] then None
    else if members[0].name == name then Some(0)
    else
      var r := Find(members[1..], name);
      if r.None? then None else Some(r.value + 1)
  }

  const BITS_64 := 0x1_0000_0000_0000_0000

  /** Numbers are compared by their 64 bits. The results below are about values
      without doubles, of which nothing is said here. */
  predicate Equals(a: Value, b: Value)
    decreases a
  {
    match a
    case VNull => b.VNull?
    case VBool(x) => b == a
    case VNumber(n) => b.VNumber? && n % BITS_64 == b.n % BITS_64
    case VDouble(_) => false
    case VString(text) => b == a
    case VArray(elements) =>
      && b.VArray? && |elements| == |b.elements|
      && forall i | 0 <= i < |elements| :: Equals(elements[i], b.elements[i])
    case VObject(members) =>
      && b.VObject? && |members| == |b.members|
      && forall i | 0 <= i < |members| ::
           var j := Find(b.members, members[i].name);
           j.Some? && Equals(members[i].value, b.members[j.value].value)
  }

  // -------------------------------------------------------------- reflexivity

  /** No object inside has two members of the same name. */
  predicate Distinct(v: Value) {
    match v
    case VArray(elements) => forall i | 0 <= i < |elements| :: Distinct(elements[i])
    case VObject(members) =>
      && (forall i, j | 0 <= i < j < |members| :: members[i].name != members[j].name)
      && forall i | 0 <= i < |members| :: Distinct(members[i].value)
    case _ => true
  }

  /** Wherever an object has several members of one name, the later ones equal the
      first, which `Find` gives. */
  predicate Repeats(v: Value) {
    match v
    case VArray(elements) => forall i | 0 <= i < |elements| :: Repeats(elements[i])
    case VObject(members) =>
      forall i | 0 <= i < |members| ::
        var first := Find(members, members[i].name).value;
        if first == i then Repeats(members[i].value) else Equals(members[i].value, members[first].value)
    case _ => true
  }

  /** A value equals itself exactly when repeated names repeat equal values. */
  lemma {:induction false} ReflexiveIff(v: Value)
    requires NoDoubles(v)
    ensures Equals(v, v) <==> Repeats(v)
    decreases v
  {
    match v {
      case VArray(elements) =>
        forall i | 0 <= i < |elements| ensures Equals(elements[i], elements[i]) <==> Repeats(elements[i]) {
          ReflexiveIff(elements[i]);
        }
      case VObject(members) =>
        forall i | 0 <= i < |members|
          ensures Equals(members[i].value, members[i].value) <==> Repeats(members[i].value)
        {
          ReflexiveIff(members[i].value);
        }
      case _ =>
    }
  }

  /** In particular values with distinct names do. */
  lemma {:induction false} DistinctIsReflexive(v: Value)
    requires Distinct(v) && NoDoubles(v)
    ensures Equals(v, v)
    decreases v
  {
    match v {
      case VArray(elements) =>
        forall i | 0 <= i < |elements| ensures Equals(elements[i], elements[i]) {
          DistinctIsReflexive(elements[i]);
        }
      case VObject(members) =>
        forall i | 0 <= i < |members|
          ensures Find(members, members[i].name) == Some(i) && Equals(members[i].value, members[i].value)
        {
          DistinctIsReflexive(members[i].value);
        }
      case _ =>
    }
  }

  /** An object with a repeated name that equals itself, one that does not, and a
      pair that is equal one way round only. */
  lemma RepeatedNames()
    ensures var one := Member("a", VNumber(1));
            var twice, mixed := VObject([one, one]), VObject([one, Member("a", VNumber(2))]);
            var other := VObject([one, Member("b", VNumber(2))]);
            Equals(twice, twice) && !Equals(mixed, mixed) && Equals(twice, other) && !Equals(other, twice)
  {
    var one := Member("a", VNumber(1));
    var two := Member("b", VNumber(2));
    var repeated := Member("a", VNumber(2));
    assert Find([one, two], "a") == Find([one, one], "a") == Find([one, repeated], "a") == Some(0);
    var twice, mixed, other := VObject([one, one]), VObject([one, repeated]), VObject([one, two]);
    assert mixed.members[1].name == "a" && !Equals(mixed.members[1].value, mixed.members[0].value);
    assert other.members[1].name == "b" && Find([one, one], "b") == None;
  }

  /** Integers of different sign are equal when their 64 bits are. */
  lemma NumbersEqualIff(n: int, m: int)
    requires InRange(n) && InRange(m)
    ensures Equals(VNumber(n), VNumber(m)) <==> n == m || n == m + BITS_64 || m == n + BITS_64
  {
  }

  // ------------------------------------------------------------------ symmetry

  function Names(members: seq<Member>): set<string> {
    set i | 0 <= i < |members| :: members[i].name
  }

  lemma {:induction false} NamesCount(members: seq<Member>)
    requires forall i, j | 0 <= i < j < |members| :: members[i].name != members[j].name
    ensures |Names(members)| == |members|
    decreases |members|
  {
    if members == [] {
      assert Names(members) == {};
    } else {
      var front := members[..|members| - 1];
      var last := members[|members| - 1].name;
      NamesCount(front);
      forall name ensures name in Names(members) <==> name in Names(front) + {last} {
        if name in Names(members) && name != last {
          var i :| 0 <= i < |members| && members[i].name == name;
          assert front[i].name == name;
        }
        if name in Names(front) {
          var i :| 0 <= i < |front| && front[i].name == name;
          assert members[i].name == name;
        }
      }
      assert Names(members) == Names(front) + {last};
      assert last !in Names(front);
    }
  }

  lemma SubsetOfSameSize(a: set<string>, b: set<string>)
    requires a <= b && |a| == |b|
    ensures a == b
  {
    assert b == a + (b - a);
    assert |a + (b - a)| == |a| + |b - a|;
  }

  lemma SameNames(a: seq<Member>, b: seq<Member>)
    requires |a| == |b| && (forall i | 0 <= i < |a| :: Find(b, a[i].name).Some?)
    requires forall i, j | 0 <= i < j < |a| :: a[i].name != a[j].name
    requires forall i, j | 0 <= i < j < |b| :: b[i].name != b[j].name
    ensures Names(a) == Names(b)
  {
    NamesCount(a);
    NamesCount(b);
    forall name | name in Names(a) ensures name in Names(b) {
      var i :| 0 <= i < |a| && a[i].name == name;
      assert b[Find(b, a[i].name).value].name == name;
    }
    SubsetOfSameSize(Names(a), Names(b));
  }

  /** Each member of b has its match in a. */
  lemma MatchesBack(a: seq<Member>, b: seq<Member>, j: nat)
    requires Names(a) == Names(b) && j < |b|
    requires forall i, k | 0 <= i < k < |b| :: b[i].name != b[k].name
    ensures var i := Find(a, b[j].name); i.Some? && Find(b, a[i.value].name) == Some(j)
  {
    assert b[j].name in Names(a);
    var i :| 0 <= i < |a| && a[i].name == b[j].name;
    assert Find(b, b[j].name) == Some(j);
  }

  lemma {:induction false} NamesAtMost(members: seq<Member>)
    ensures |Names(members)| <= |members|
    decreases |members|
  {
    if members == [] {
      assert Names(members) == {};
    } else {
      var front := members[..|members| - 1];
      NamesAtMost(front);
      NamesOfMore(front, members[|members| - 1]);
      assert members == front + [members[|members| - 1]];
    }
  }

  lemma NamesOfMore(members: seq<Member>, m: Member)
    ensures Names(members + [m]) == Names(members) + {m.name}
  {
    var more := members + [m];
    forall name | name in Names(members) ensures name in Names(more) {
      var i :| 0 <= i < |members| && members[i].name == name;
      assert more[i].name == name;
    }
    assert more[|members|].name == m.name;
    forall name | name in Names(more) && name != m.name ensures name in Names(members) {
      var i :| 0 <= i < |more| && more[i].name == name;
      assert members[i].name == name;
    }
  }

  /** As many names as members: then none is repeated. */
  lemma {:induction false} AllNamesDistinct(members: seq<Member>)
    requires |Names(members)| == |members|
    ensures forall i, j | 0 <= i < j < |members| :: members[i].name != members[j].name
    decreases |members|
  {
    if members != [] {
      var front, last := members[..|members| - 1], members[|members| - 1];
      assert members == front + [last];
      NamesOfMore(front, last);
      NamesAtMost(front);
      assert last.name !in Names(front);
      AllNamesDistinct(front);
      forall i, j | 0 <= i < j < |members| ensures members[i].name != members[j].name {
        assert front[i].name in Names(front);
      }
    }
  }

  /** When distinct names are all found among as many members, those are distinct
      too. */
  lemma NamesAreNoMore(a: seq<Member>, b: seq<Member>)
    requires |a| == |b| && (forall i | 0 <= i < |a| :: Find(b, a[i].name).Some?)
    requires forall i, j | 0 <= i < j < |a| :: a[i].name != a[j].name
    ensures forall i, j | 0 <= i < j < |b| :: b[i].name != b[j].name
  {
    NamesCount(a);
    NamesAtMost(b);
    forall name | name in Names(a) ensures name in Names(b) {
      var i :| 0 <= i < |a| && a[i].name == name;
      assert b[Find(b, a[i].name).value].name == name;
    }
    SubsetIsSmaller(Names(a), Names(b));
    AllNamesDistinct(b);
  }

  lemma SubsetIsSmaller(a: set<string>, b: set<string>)
    requires a <= b
    ensures |a| <= |b|
  {
    assert b == a + (b - a);
    assert |a + (b - a)| == |a| + |b - a|;
  }

  /** What a value without repeated names is equal to has none either: compared with
      such a value on the left, an object with a repeated name is never equal, as
      the source's comment says. */
  lemma {:induction false} DistinctSpreads(a: Value, b: Value)
    requires Distinct(a) && Equals(a, b)
    ensures Distinct(b)
    decreases a
  {
    match a {
      case VArray(elements) =>
        forall i | 0 <= i < |elements| ensures Distinct(b.elements[i]) {
          DistinctSpreads(elements[i], b.elements[i]);
        }
      case VObject(members) =>
        NamesAreNoMore(members, b.members);
        SameNames(members, b.members);
        forall j | 0 <= j < |b.members| ensures Distinct(b.members[j].value) {
          MatchesBack(members, b.members, j);
          var i := Find(members, b.members[j].name).value;
          DistinctSpreads(members[i].value, b.members[j].value);
        }
      case _ =>
    }
  }

  /** Equality with a value without repeated names on the left holds the other way
      round too. */
  lemma {:induction false} DistinctIsSymmetric(a: Value, b: Value)
    requires Distinct(a) && Equals(a, b)
    ensures Equals(b, a)
    decreases a
  {
    DistinctSpreads(a, b);
    match a {
      case VArray(elements) =>
        forall i | 0 <= i < |elements| ensures Equals(b.elements[i], elements[i]) {
          DistinctIsSymmetric(elements[i], b.elements[i]);
        }
      case VObject(members) =>
        SameNames(members, b.members);
        forall j | 0 <= j < |b.members|
          ensures var i := Find(members, b.members[j].name);
                  i.Some? && Equals(b.members[j].value, members[i.value].value)
        {
          MatchesBack(members, b.members, j);
          var i := Find(members, b.members[j].name).value;
          DistinctIsSymmetric(members[i].value, b.members[j].value);
        }
      case _ =>
    }
  }

  /** When the right side has no repeated names, equality holds the other way round
      exactly when the left side has none either. */
  lemma SymmetricIff(a: Value, b: Value)
    requires Distinct(b) && Equals(a, b)
    ensures Equals(b, a) <==> Distinct(a)
  {
    if Equals(b, a) {
      DistinctSpreads(b, a);
    }
    if Distinct(a) {
      DistinctIsSymmetric(a, b);
    }
  }

  lemma {:induction false} Transitive(a: Value, b: Value, c: Value)
    requires Equals(a, b) && Equals(b, c)
    ensures Equals(a, c)
    decreases a
  {
    match a {
      case VArray(elements) =>
        forall i | 0 <= i < |elements| ensures Equals(elements[i], c.elements[i]) {
          Transitive(elements[i], b.elements[i], c.elements[i]);
        }
      case VObject(members) =>
        forall i | 0 <= i < |members|
          ensures var k := Find(c.members, members[i].name);
                  k.Some? && Equals(members[i].value, c.members[k.value].value)
        {
          var j := Find(b.members, members[i].name).value;
          var k := Find(c.members, b.members[j].name).value;
          Transitive(members[i].value, b.members[j].value, c.members[k].value);
        }
      case _ =>
    }
  }

  // ----------------------------------------------- what equals anything at all

  function Depth(v: Value): nat
    decreases v
  {
    match v
    case VArray(elements) => 1 + DepthOfElements(elements)
    case VObject(members) => 1 + DepthOfMembers(members)
    case _ => 0
  }

  function DepthOfElements(elements: seq<Value>): nat
    decreases elements
  {
    if elements == [] then 0 else Max(Depth(elements[0]), DepthOfElements(elements[1..]))
  }

  function DepthOfMembers(members: seq<Member>): nat
    decreases members
  {
    if members == [] then 0 else Max(Depth(members[0].value), DepthOfMembers(members[1..]))
  }

  lemma {:induction false} ElementIsLower(elements: seq<Value>, i: nat)
    requires i < |elements|
    ensures Depth(elements[i]) <= DepthOfElements(elements)
    decreases |elements|
  {
    if i > 0 {
      ElementIsLower(elements[1..], i - 1);
    }
  }

  lemma {:induction false} MemberIsLower(members: seq<Member>, i: nat)
    requires i < |members|
    ensures Depth(members[i].value) <= DepthOfMembers(members)
    decreases |members|
  {
    if i > 0 {
      MemberIsLower(members[1..], i - 1);
    }
  }

  ghost predicate Within(s: set<Value>, d: nat) {
    forall v | v in s :: Depth(v) <= d
  }

  /** The elements at i of the arrays in s. */
  ghost function Items(s: set<Value>, i: nat): set<Value> {
    set v | v in s && v.VArray? && i < |v.elements| :: v.elements[i]
  }

  ghost function NamesIn(s: set<Value>): set<string> {
    set v, i | v in s && v.VObject? && 0 <= i < |v.members| :: v.members[i].name
  }

  /** The values of all members of that name of the objects in s. */
  ghost function Named(s: set<Value>, name: string): set<Value> {
    set v, i | v in s && v.VObject? && 0 <= i < |v.members| && v.members[i].name == name :: v.members[i].value
  }

  /** Two values of one kind and size. */
  predicate Alike(a: Value, b: Value) {
    match a
    case VNumber(n) => b.VNumber? && n % BITS_64 == b.n % BITS_64
    case VDouble(_) => false
    case VArray(elements) => b.VArray? && |elements| == |b.elements|
    case VObject(members) => b.VObject? && |members| == |b.members|
    case _ => b == a
  }

  /** The values in s, none deeper than d, can all be equal to one and the same
      value: they are of one kind and size, what stands at the same place in them
      is, and the objects' names together are no more than each has members. */
  ghost predicate Joint(s: set<Value>, d: nat)
    requires Within(s, d)
    decreases d
  {
    && (forall v, w | v in s && w in s :: Alike(v, w))
    && (forall v | v in s && v.VObject? :: |NamesIn(s)| <= |v.members|)
    && (d > 0 ==>
          && (forall i: nat :: InnerIsWithin(s, d, i, ""); Joint(Items(s, i), d - 1))
          && (forall name :: InnerIsWithin(s, d, 0, name); Joint(Named(s, name), d - 1)))
  }

  lemma InnerIsWithin(s: set<Value>, d: nat, i: nat, name: string)
    requires Within(s, d) && d > 0
    ensures Within(Items(s, i), d - 1) && Within(Named(s, name), d - 1)
  {
    forall v | v in s && v.VArray? && i < |v.elements| ensures Depth(v.elements[i]) <= d - 1 {
      ElementIsLower(v.elements, i);
    }
    forall v, k | v in s && v.VObject? && 0 <= k < |v.members| ensures Depth(v.members[k].value) <= d - 1 {
      MemberIsLower(v.members, k);
    }
  }

  lemma NamesAreFound(s: set<Value>, w: Value, v: Value)
    requires (forall u | u in s :: Equals(u, w)) && v in s && v.VObject?
    ensures |NamesIn(s)| <= |v.members|
  {
    assert Equals(v, w);
    forall name | name in NamesIn(s) ensures name in Names(w.members) {
      var u, i :| u in s && u.VObject? && 0 <= i < |u.members| && u.members[i].name == name;
      assert Equals(u, w) && w.members[Find(w.members, name).value].name == name;
    }
    SubsetIsSmaller(NamesIn(s), Names(w.members));
    NamesAtMost(w.members);
  }

  /** What stands inside the values in s is equal to what stands inside w. */
  lemma InnerAreEqual(s: set<Value>, w: Value, i: nat, name: string)
    requires forall v | v in s :: Equals(v, w)
    ensures if w.VArray? && i < |w.elements| then forall v | v in Items(s, i) :: Equals(v, w.elements[i])
            else Items(s, i) == {}
    ensures if w.VObject? && Find(w.members, name).Some?
            then forall v | v in Named(s, name) :: Equals(v, w.members[Find(w.members, name).value].value)
            else Named(s, name) == {}
  {
  }

  lemma {:induction false} EqualIsJoint(s: set<Value>, d: nat, w: Value)
    requires Within(s, d) && forall v | v in s :: Equals(v, w)
    ensures Joint(s, d)
    decreases d
  {
    forall v, u | v in s && u in s ensures Alike(v, u) {
      assert Equals(v, w) && Equals(u, w);
    }
    forall v | v in s && v.VObject? ensures |NamesIn(s)| <= |v.members| {
      NamesAreFound(s, w, v);
    }
    hide Items, Named, NamesIn, Within, Equals;
    if d > 0 {
      forall i: nat ensures Within(Items(s, i), d - 1) && Joint(Items(s, i), d - 1) {
        InnerIsWithin(s, d, i, "");
        InnerAreEqual(s, w, i, "");
        EqualIsJoint(Items(s, i), d - 1, if w.VArray? && i < |w.elements| then w.elements[i] else w);
      }
      forall name ensures Within(Named(s, name), d - 1) && Joint(Named(s, name), d - 1) {
        InnerIsWithin(s, d, 0, name);
        InnerAreEqual(s, w, 0, name);
        var found := w.VObject? && Find(w.members, name).Some?;
        var met := if found then w.members[Find(w.members, name).value].value else w;
        EqualIsJoint(Named(s, name), d - 1, met);
      }
    }
  }

  /** The elements of a set in some order. */
  ghost function Listed(names: set<string>): (list: seq<string>)
    ensures |list| == |names| && forall name :: name in list <==> name in names
  {
    if names == {} then []
    else
      var name :| name in names;
      [name] + Listed(names - {name})
  }

  lemma {:induction false} FindListed(members: seq<Member>, name: string)
    requires exists i :: 0 <= i < |members| && members[i].name == name
    ensures Find(members, name).Some?
  {
  }

  ghost function Pick(s: set<Value>): (v: Value)
    requires s != {}
    ensures v in s
  {
    var v :| v in s;
    v
  }

  /** A value that all values in s are equal to. */
  ghost function Meeting(s: set<Value>, d: nat): (w: Value)
    requires Within(s, d) && Joint(s, d)
    decreases d
  {
    if s == {} then VNull
    else
      var v := Pick(s);
      match v
      case VArray(elements) => VArray(MetElements(s, d, |elements|))
      case VObject(members) => VObject(MetMembers(s, d, Listed(NamesIn(s)), |members|))
      case _ => v
  }

  ghost function MetElements(s: set<Value>, d: nat, n: nat): (r: seq<Value>)
    requires Within(s, d) && Joint(s, d) && d > 0
    ensures |r| == n
    ensures forall i | 0 <= i < n :: Within(Items(s, i), d - 1) && Joint(Items(s, i), d - 1)
    ensures forall i | 0 <= i < n :: r[i] == Meeting(Items(s, i), d - 1)
    decreases d, 0
  {
    assert forall i: nat {:trigger Items(s, i)} :: Within(Items(s, i), d - 1) && Joint(Items(s, i), d - 1) by {
      forall i: nat ensures Within(Items(s, i), d - 1) && Joint(Items(s, i), d - 1) {
        InnerIsWithin(s, d, i, "");
      }
    }
    seq(n, i requires 0 <= i < n => Meeting(Items(s, i), d - 1))
  }

  /** A member for each of the names, and as many more as it takes. */
  ghost function MetMembers(s: set<Value>, d: nat, names: seq<string>, n: nat): (r: seq<Member>)
    requires Within(s, d) && Joint(s, d) && d > 0 && |names| <= n
    ensures |r| == n
    ensures forall name :: Within(Named(s, name), d - 1) && Joint(Named(s, name), d - 1)
    ensures forall i | 0 <= i < |names| :: r[i] == Member(names[i], Meeting(Named(s, names[i]), d - 1))
    ensures forall i | |names| <= i < n :: r[i] == Member("", VNull)
    decreases d, 0
  {
    assert forall name :: Within(Named(s, name), d - 1) && Joint(Named(s, name), d - 1) by {
      forall name ensures Within(Named(s, name), d - 1) && Joint(Named(s, name), d - 1) {
        InnerIsWithin(s, d, 0, name);
      }
    }
    seq(n, i requires 0 <= i < n =>
      if i < |names| then Member(names[i], Meeting(Named(s, names[i]), d - 1)) else Member("", VNull))
  }

  /** What the meeting value has at i. */
  lemma MetElement(s: set<Value>, d: nat, i: nat)
    requires Within(s, d) && Joint(s, d) && s != {} && Pick(s).VArray? && i < |Pick(s).elements|
    ensures var w := Meeting(s, d);
            && d > 0 && Within(Items(s, i), d - 1) && Joint(Items(s, i), d - 1)
            && w.VArray? && |w.elements| == |Pick(s).elements| && w.elements[i] == Meeting(Items(s, i), d - 1)
  {
    hide Joint, Items;
    var n := |Pick(s).elements|;
    assert MetElements(s, d, n)[i] == Meeting(Items(s, i), d - 1);
  }

  lemma MetSize(s: set<Value>, d: nat)
    requires Within(s, d) && Joint(s, d) && s != {} && Pick(s).VObject?
    ensures var w, names := Meeting(s, d), Listed(NamesIn(s));
            && d > 0 && w.VObject? && |w.members| == |Pick(s).members| && |names| <= |w.members|
            && w.members == MetMembers(s, d, names, |w.members|)
  {
    JointAlike(s, d, Pick(s), Pick(s));
    hide Joint, NamesIn, Named;
  }

  /** What the meeting value has under a name. */
  lemma MetMember(s: set<Value>, d: nat, name: string)
    requires Within(s, d) && Joint(s, d) && s != {} && Pick(s).VObject? && name in NamesIn(s)
    ensures var w := Meeting(s, d);
            && d > 0 && Within(Named(s, name), d - 1) && Joint(Named(s, name), d - 1)
            && w.VObject? && Find(w.members, name).Some?
            && w.members[Find(w.members, name).value].value == Meeting(Named(s, name), d - 1)
  {
    MetSize(s, d);
    hide Joint, Within, Named, Meeting, NamesIn;
    var names, members := Listed(NamesIn(s)), Meeting(s, d).members;
    var p :| 0 <= p < |names| && names[p] == name;
    assert members[p] == Member(names[p], Meeting(Named(s, names[p]), d - 1));
    FindListed(members, name);
    var j := Find(members, name).value;
    assert members[j] == Member(names[j], Meeting(Named(s, names[j]), d - 1));
  }

  lemma IsInside(s: set<Value>, v: Value, i: nat)
    requires v in s
    ensures v.VArray? && i < |v.elements| ==> v.elements[i] in Items(s, i)
    ensures v.VObject? && i < |v.members| ==>
              v.members[i].name in NamesIn(s) && v.members[i].value in Named(s, v.members[i].name)
  {
  }

  lemma {:induction false} JointIsMet(s: set<Value>, d: nat, v: Value)
    requires Within(s, d) && Joint(s, d) && v in s
    ensures Equals(v, Meeting(s, d))
    decreases d
  {
    var w, u := Meeting(s, d), Pick(s);
    JointAlike(s, d, v, u);
    if v.VArray? {
      assert w.VArray? && |w.elements| == |v.elements|;
      hide Joint, Within, Items, Meeting;
      forall i | 0 <= i < |v.elements| ensures Equals(v.elements[i], w.elements[i]) {
        MetElement(s, d, i);
        IsInside(s, v, i);
        JointIsMet(Items(s, i), d - 1, v.elements[i]);
      }
    } else if v.VObject? {
      MetSize(s, d);
      hide Joint, Within, Named, Meeting, NamesIn;
      forall k | 0 <= k < |v.members|
        ensures var j := Find(w.members, v.members[k].name);
                j.Some? && Equals(v.members[k].value, w.members[j.value].value)
      {
        IsInside(s, v, k);
        MetMember(s, d, v.members[k].name);
        JointIsMet(Named(s, v.members[k].name), d - 1, v.members[k].value);
      }
    } else {
      assert w == u;
    }
  }

  lemma JointAlike(s: set<Value>, d: nat, v: Value, u: Value)
    requires Within(s, d) && Joint(s, d) && v in s && u in s
    ensures Alike(v, u) && Alike(u, v) && (v.VObject? ==> |NamesIn(s)| <= |v.members|)
  {
  }

  lemma InnerArePlain(s: set<Value>, i: nat, name: string)
    requires forall v | v in s :: Plain(v)
    ensures (forall v | v in Items(s, i) :: Plain(v)) && forall v | v in Named(s, name) :: Plain(v)
    ensures name in NamesIn(s) ==> |name| < SIZE_LIMIT
  {
  }

  lemma {:induction false} ElementIsPlain(s: set<Value>, d: nat, i: nat)
    requires Within(s, d) && Joint(s, d) && (forall v | v in s :: Plain(v))
    requires s != {} && Pick(s).VArray? && i < |Pick(s).elements|
    ensures var w := Meeting(s, d); w.VArray? && |w.elements| == |Pick(s).elements| && Plain(w.elements[i])
    decreases d, 0
  {
    hide Joint, Within, Items, Meeting, Plain;
    MetElement(s, d, i);
    InnerArePlain(s, i, "");
    MeetingIsPlain(Items(s, i), d - 1);
  }

  lemma {:induction false} MemberIsPlain(s: set<Value>, d: nat, k: nat)
    requires Within(s, d) && Joint(s, d) && (forall v | v in s :: Plain(v))
    requires s != {} && Pick(s).VObject? && k < |Pick(s).members|
    ensures var w := Meeting(s, d);
            && w.VObject? && |w.members| == |Pick(s).members|
            && |w.members[k].name| < SIZE_LIMIT && Plain(w.members[k].value)
    decreases d, 0
  {
    MetSize(s, d);
    hide Joint, Within, Named, Meeting, NamesIn;
    var names, members := Listed(NamesIn(s)), Meeting(s, d).members;
    if k < |names| {
      hide Plain;
      assert members[k] == Member(names[k], Meeting(Named(s, names[k]), d - 1));
      assert names[k] in names;
      InnerArePlain(s, 0, names[k]);
      MeetingIsPlain(Named(s, names[k]), d - 1);
    } else {
      assert members[k] == Member("", VNull);
    }
  }

  lemma {:induction false} MeetingIsPlain(s: set<Value>, d: nat)
    requires Within(s, d) && Joint(s, d) && forall v | v in s :: Plain(v)
    ensures Plain(Meeting(s, d))
    decreases d, 1
  {
    hide Joint, Within, Items, Named, NamesIn;
    var w := Meeting(s, d);
    if s != {} && Pick(s).VArray? {
      forall i | 0 <= i < |Pick(s).elements| ensures |w.elements| == |Pick(s).elements| && Plain(w.elements[i]) {
        ElementIsPlain(s, d, i);
      }
    } else if s != {} && Pick(s).VObject? {
      MetSize(s, d);
      forall k | 0 <= k < |w.members| ensures |w.members[k].name| < SIZE_LIMIT && Plain(w.members[k].value) {
        MemberIsPlain(s, d, k);
      }
    }
  }

  /** v does not contradict itself: wherever an object in it has several members of
      one name, their values can be equal to one and the same value. */
  ghost predicate Reconcilable(v: Value) {
    Joint({v}, Depth(v))
  }

  /** Exactly when there is a value that v is equal to, v on the left. The source's
      comment says that there is none for an object with a repeated name. */
  lemma EqualsSomethingIff(v: Value)
    requires Plain(v)
    ensures (exists w :: Plain(w) && Equals(v, w)) <==> Reconcilable(v)
  {
    if Reconcilable(v) {
      JointIsMet({v}, Depth(v), v);
      MeetingIsPlain({v}, Depth(v));
    }
    if w :| Plain(w) && Equals(v, w) {
      EqualIsJoint({v}, Depth(v), w);
    }
  }

  predicate EqualsOneOf(m: Member, c: Member, d: Member) {
    if m.name == c.name then Equals(m.value, c.value) else m.name == d.name && Equals(m.value, d.value)
  }

  lemma TwoMembers(a: Member, b: Member, c: Member, d: Member)
    ensures Find([a, b], a.name) == Some(0) && (a.name != b.name ==> Find([a, b], b.name) == Some(1))
    ensures Equals(VObject([a, b]), VObject([c, d]))
            <==> EqualsOneOf(a, c, d) && EqualsOneOf(b, c, d)
  {
    var v, w := VObject([a, b]), VObject([c, d]);
    assert v.members[0] == a && v.members[1] == b && w.members[0] == c && w.members[1] == d;
    assert Find([c, d], c.name) == Some(0) && (c.name != d.name ==> Find([c, d], d.name) == Some(1));
    forall name | name != c.name && name != d.name ensures Find([c, d], name) == None {
    }
  }

  /** An object that is equal to something, but not to itself, as the values of its
      repeated name are not equal to each other, only both to a third. */
  lemma ReconcilableAlone()
    ensures var one, two := Member("a", VNumber(1)), Member("b", VNumber(2));
            var x, y := VObject([one, one]), VObject([one, two]);
            var v, w := VObject([Member("k", x), Member("k", y)]), VObject([Member("k", y), Member("m", VNull)]);
            Equals(v, w) && !Equals(v, v)
  {
    hide Equals;
    var one, two := Member("a", VNumber(1)), Member("b", VNumber(2));
    var x, y := VObject([one, one]), VObject([one, two]);
    var kx, ky, m := Member("k", x), Member("k", y), Member("m", VNull);
    NumbersEqualIff(1, 1);
    NumbersEqualIff(2, 2);
    TwoMembers(one, one, one, two);
    TwoMembers(one, two, one, two);
    TwoMembers(one, two, one, one);
    TwoMembers(kx, ky, ky, m);
    TwoMembers(kx, ky, kx, ky);
  }

  /** The value with every member replaced by the first of its name. */
  function Firsts(v: Value): Value
    decreases v
  {
    match v
    case VArray(elements) => VArray(seq(|elements|, i requires 0 <= i < |elements| => Firsts(elements[i])))
    case VObject(members) =>
      VObject(seq(|members|, i requires 0 <= i < |members| => FirstOf(members, members[i].name)))
    case _ => v
  }

  function FirstOf(members: seq<Member>, name: string): Member
    decreases members
  {
    var j := Find(members, name);
    if j.None? then Member(name, VNull) else Member(name, Firsts(members[j.value].value))
  }

  /** On the right every value has its equal, repeated names or not. */
  lemma {:induction false} SomethingEquals(v: Value)
    requires Plain(v)
    ensures Plain(Firsts(v)) && Equals(Firsts(v), v)
    decreases v
  {
    match v {
      case VArray(elements) =>
        forall i | 0 <= i < |elements| ensures Plain(Firsts(elements[i])) && Equals(Firsts(elements[i]), elements[i]) {
          SomethingEquals(elements[i]);
        }
      case VObject(members) =>
        forall i | 0 <= i < |members|
          ensures var m := FirstOf(members, members[i].name);
                  m.name == members[i].name && Plain(m.value)
                  && Equals(m.value, members[Find(members, m.name).value].value)
        {
          SomethingEquals(members[Find(members, members[i].name).value].value);
        }
      case _ =>
    }
  }

  /** When no member's value has repeated names inside, v is equal to something just
      when it is equal to itself: when repeated names repeat equal values. */
  lemma ReconcilableIff(v: Value)
    requires Plain(v) && v.VObject? && forall i | 0 <= i < |v.members| :: Distinct(v.members[i].value)
    ensures Reconcilable(v) <==> Repeats(v)
  {
    EqualsSomethingIff(v);
    PlainHasNoDoubles(v);
    ReflexiveIff(v);
    if w :| Plain(w) && Equals(v, w) {
      forall i | 0 <= i < |v.members|
        ensures var f := Find(v.members, v.members[i].name);
                f.Some? && Equals(v.members[i].value, v.members[f.value].value)
      {
        var name := v.members[i].name;
        FindListed(v.members, name);
        var f := Find(v.members, name).value;
        var met := w.members[Find(w.members, name).value].value;
        assert v.members[f].name == name;
        assert Equals(v.members[i].value, met) && Equals(v.members[f].value, met);
        DistinctIsSymmetric(v.members[f].value, met);
        Transitive(v.members[i].value, met, v.members[f].value);
      }
    }
  }

  lemma {:induction false} PlainHasNoDoubles(v: Value)
    requires Plain(v)
    ensures NoDoubles(v)
    decreases v
  {
    match v {
      case VArray(elements) =>
        forall i | 0 <= i < |elements| ensures NoDoubles(elements[i]) {
          PlainHasNoDoubles(elements[i]);
        }
      case VObject(members) =>
        forall i | 0 <= i < |members| ensures NoDoubles(members[i].value) {
          PlainHasNoDoubles(members[i].value);
        }
      case _ =>
    }
  }
}
