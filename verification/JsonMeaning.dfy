/** What JSON values without doubles and without repeated names stand for, members in
  no order, and that equality is just the equality of that.
 */
module JsonMeaning {
  import opened Common
  import opened JsonDocument
  import opened JsonEquality

  datatype Meaning =
    | NullMeaning
    | BoolMeaning(b: bool)
    | NumberMeaning(bits: nat)
    | TextMeaning(text: string)
    | ListMeaning(elements: seq<Meaning>)
    | ObjectMeaning(members: map<string, Meaning>)

  ghost function MeaningOf(v: Value): Meaning
    requires NoDoubles(v)
    decreases v
  {
    match v
    case VNull => NullMeaning
    case VBool(b) => BoolMeaning(b)
    case VNumber(n) => NumberMeaning(n % 0x1_0000_0000_0000_0000)
    case VString(text) => TextMeaning(text)
    case VArray(elements) => ListMeaning(seq(|elements|, i requires 0 <= i < |elements| => MeaningOf(elements[i])))
    case VObject(members) =>
      ObjectMeaning(map name | name in Names(members) :: UnderName(members, name))
  }

  /** What the first member of that name stands for. */
  ghost function UnderName(members: seq<Member>, name: string): Meaning
    requires name in Names(members) && forall i | 0 <= i < |members| :: NoDoubles(members[i].value)
    decreases members
  {
    MeaningOf(members[Find(members, name).value].value)
  }

  lemma NamesEqual(a: seq<Member>, b: seq<Member>)
    requires forall i, j | 0 <= i < j < |a| :: a[i].name != a[j].name
    requires forall i, j | 0 <= i < j < |b| :: b[i].name != b[j].name
    requires Names(a) == Names(b)
    ensures |a| == |b|
  {
    NamesCount(a);
    NamesCount(b);
  }

  lemma NameIsFound(members: seq<Member>, i: nat)
    requires i < |members|
    ensures members[i].name in Names(members) && Find(members, members[i].name).Some?
  {
  }

  lemma FoundIsIt(members: seq<Member>, i: nat)
    requires i < |members| && forall i, j | 0 <= i < j < |members| :: members[i].name != members[j].name
    ensures Find(members, members[i].name) == Some(i)
  {
  }

  lemma ArrayMeans(elements: seq<Value>, i: nat)
    requires i < |elements| && NoDoubles(VArray(elements))
    ensures var m := MeaningOf(VArray(elements));
            m.ListMeaning? && |m.elements| == |elements| && m.elements[i] == MeaningOf(elements[i])
  {
  }

  lemma ObjectMeans(members: seq<Member>)
    requires NoDoubles(VObject(members))
    ensures var m := MeaningOf(VObject(members));
            && m.ObjectMeaning? && m.members.Keys == Names(members)
            && forall name | name in Names(members) :: m.members[name] == UnderName(members, name)
  {
  }

  /** The value of the first member of that name. */
  function ValueUnder(members: seq<Member>, name: string): Value
    requires name in Names(members)
  {
    members[Find(members, name).value].value
  }

  ghost predicate DistinctNames(members: seq<Member>) {
    forall i, j | 0 <= i < j < |members| :: members[i].name != members[j].name
  }

  lemma EqualByName(a: seq<Member>, b: seq<Member>)
    requires |a| == |b| && Names(a) == Names(b) && DistinctNames(a)
    ensures Equals(VObject(a), VObject(b))
            <==> forall name | name in Names(a) :: Equals(ValueUnder(a, name), ValueUnder(b, name))
  {
    hide Find;
    forall i | 0 <= i < |a|
      ensures a[i].name in Names(a) && Find(b, a[i].name).Some? && ValueUnder(a, a[i].name) == a[i].value
      ensures ValueUnder(b, a[i].name) == b[Find(b, a[i].name).value].value
    {
      NameIsFound(a, i);
      var j :| 0 <= j < |b| && b[j].name == a[i].name;
      NameIsFound(b, j);
      FoundIsIt(a, i);
    }
    if Equals(VObject(a), VObject(b)) {
      forall name | name in Names(a) ensures Equals(ValueUnder(a, name), ValueUnder(b, name)) {
        var i :| 0 <= i < |a| && a[i].name == name;
        assert Equals(a[i].value, b[Find(b, a[i].name).value].value);
      }
    }
  }

  lemma MeaningByName(a: seq<Member>, b: seq<Member>)
    requires NoDoubles(VObject(a)) && NoDoubles(VObject(b)) && Names(a) == Names(b)
    ensures MeaningOf(VObject(a)) == MeaningOf(VObject(b))
            <==> forall name | name in Names(a) :: UnderName(a, name) == UnderName(b, name)
  {
    hide Find, Names, UnderName, MeaningOf;
    ObjectMeans(a);
    ObjectMeans(b);
    var m, n := MeaningOf(VObject(a)).members, MeaningOf(VObject(b)).members;
    assert (forall name | name in Names(a) :: m[name] == n[name]) ==> m == n;
  }

  /** Between values without repeated names equality is sameness of meaning. */
  lemma {:induction false} EqualsIff(a: Value, b: Value)
    requires Distinct(a) && Distinct(b) && NoDoubles(a) && NoDoubles(b)
    ensures Equals(a, b) <==> MeaningOf(a) == MeaningOf(b)
    decreases a
  {
    Kinds(a);
    Kinds(b);
    if a.VArray? && b.VArray? {
      ListIsAsLong(a.elements);
      ListIsAsLong(b.elements);
      if |a.elements| == |b.elements| {
        ElementsEqualIff(a.elements, b.elements);
      }
    } else if a.VObject? && b.VObject? {
      MembersEqualIff(a.members, b.members);
    }
  }

  lemma ListIsAsLong(elements: seq<Value>)
    requires NoDoubles(VArray(elements))
    ensures MeaningOf(VArray(elements)).ListMeaning? && |MeaningOf(VArray(elements)).elements| == |elements|
  {
  }

  lemma Kinds(v: Value)
    requires NoDoubles(v)
    ensures var m := MeaningOf(v);
            && (v.VNull? <==> m.NullMeaning?) && (v.VBool? <==> m.BoolMeaning?) && (v.VNumber? <==> m.NumberMeaning?)
            && (v.VString? <==> m.TextMeaning?) && (v.VArray? <==> m.ListMeaning?)
            && (v.VObject? <==> m.ObjectMeaning?)
  {
  }

  lemma {:induction false} ElementsEqualIff(a: seq<Value>, b: seq<Value>)
    requires |a| == |b| && Distinct(VArray(a)) && Distinct(VArray(b)) && NoDoubles(VArray(a)) && NoDoubles(VArray(b))
    ensures Equals(VArray(a), VArray(b)) <==> MeaningOf(VArray(a)) == MeaningOf(VArray(b))
    decreases a
  {
    forall i | 0 <= i < |a| ensures Equals(a[i], b[i]) <==> MeaningOf(a[i]) == MeaningOf(b[i]) {
      EqualsIff(a[i], b[i]);
    }
    if MeaningOf(VArray(a)) == MeaningOf(VArray(b)) {
      forall i | 0 <= i < |a| ensures Equals(a[i], b[i]) {
        ArrayMeans(a, i);
        ArrayMeans(b, i);
      }
    }
  }

  lemma {:induction false} MembersEqualIff(a: seq<Member>, b: seq<Member>)
    requires Distinct(VObject(a)) && Distinct(VObject(b)) && NoDoubles(VObject(a)) && NoDoubles(VObject(b))
    ensures Equals(VObject(a), VObject(b)) <==> MeaningOf(VObject(a)) == MeaningOf(VObject(b))
    decreases a
  {
    if Equals(VObject(a), VObject(b)) {
      EqualHaveSameNames(a, b);
    }
    ObjectMeans(a);
    ObjectMeans(b);
    hide Equals, MeaningOf, Names, Distinct, NoDoubles, UnderName;
    if Names(a) == Names(b) {
      NamesAreDistinct(a);
      NamesAreDistinct(b);
      NamesEqual(a, b);
      EqualByName(a, b);
      MeaningByName(a, b);
      forall name | name in Names(a)
        ensures Equals(ValueUnder(a, name), ValueUnder(b, name)) <==> UnderName(a, name) == UnderName(b, name)
      {
        IsMember(a, name);
        IsMember(b, name);
        EqualsIff(ValueUnder(a, name), ValueUnder(b, name));
      }
    }
  }

  lemma EqualHaveSameNames(a: seq<Member>, b: seq<Member>)
    requires Distinct(VObject(a)) && Distinct(VObject(b)) && Equals(VObject(a), VObject(b))
    ensures Names(a) == Names(b)
  {
    SameNames(a, b);
  }

  lemma NamesAreDistinct(members: seq<Member>)
    requires Distinct(VObject(members))
    ensures DistinctNames(members)
  {
  }

  lemma IsMember(members: seq<Member>, name: string)
    requires Distinct(VObject(members)) && NoDoubles(VObject(members)) && name in Names(members)
    ensures var v := ValueUnder(members, name);
            && Distinct(v) && NoDoubles(v) && UnderName(members, name) == MeaningOf(v)
            && exists i :: 0 <= i < |members| && members[i].value == v
  {
  }
}
