/** The concrete form of a pool: amounts sorted by currency code, one for each
  code, updated in place by linear searches, push_back and sort. Every method
  is proved against the pool function of the same meaning in Currency.
 */
module CurrencyPoolList {
  import opened Common
  import opened Currency

  ghost predicate Sorted(s: seq<Amount>) {
    forall i, j | 0 <= i < j < |s| :: s[i].code < s[j].code
  }

  /** The pool a list stands for. */
  ghost function View(s: seq<Amount>): Pool {
    if s == [] then map[] else View(s[..|s| - 1])[s[|s| - 1].code := s[|s| - 1].value]
  }

  lemma {:induction false} ViewHit(s: seq<Amount>, i: nat)
    requires Sorted(s) && i < |s|
    ensures s[i].code in View(s) && View(s)[s[i].code] == s[i].value
  {
    if i < |s| - 1 {
      ViewHit(s[..|s| - 1], i);
      assert s[i].code < s[|s| - 1].code;
    }
  }

  lemma {:induction false} ViewMiss(s: seq<Amount>, c: Code)
    requires forall i | 0 <= i < |s| :: s[i].code != c
    ensures c !in View(s)
  {
    if s != [] {
      ViewMiss(s[..|s| - 1], c);
    }
  }

  lemma {:induction false} ViewWitness(s: seq<Amount>, c: Code) returns (i: nat)
    requires c in View(s)
    ensures i < |s| && s[i].code == c
  {
    if s[|s| - 1].code == c {
      i := |s| - 1;
    } else {
      i := ViewWitness(s[..|s| - 1], c);
    }
  }

  lemma {:induction false} ViewUpdate(s: seq<Amount>, i: nat, v: int)
    requires Sorted(s) && i < |s|
    ensures Sorted(s[i := Amount(s[i].code, v)])
    ensures View(s[i := Amount(s[i].code, v)]) == View(s)[s[i].code := v]
  {
    var t := s[i := Amount(s[i].code, v)];
    if i < |s| - 1 {
      ViewUpdate(s[..|s| - 1], i, v);
      assert t[..|s| - 1] == s[..|s| - 1][i := Amount(s[i].code, v)];
      assert s[i].code < s[|s| - 1].code;
    } else {
      assert t[..|s| - 1] == s[..|s| - 1];
    }
  }

  lemma ViewSnoc(s: seq<Amount>, a: Amount)
    ensures View(s + [a]) == View(s)[a.code := a.value]
  {
    assert (s + [a])[..|s|] == s;
  }

  function Swap(s: seq<Amount>, i: nat): (t: seq<Amount>)
    requires 0 < i < |s|
    ensures |t| == |s| && t[i] == s[i - 1] && t[i - 1] == s[i]
    ensures forall j | 0 <= j < |s| && j != i && j != i - 1 :: t[j] == s[j]
  {
    s[i - 1 := s[i]][i := s[i - 1]]
  }

  lemma {:induction false} ViewSwap(s: seq<Amount>, i: nat)
    requires 0 < i < |s| && s[i - 1].code != s[i].code
    ensures View(Swap(s, i)) == View(s)
  {
    var t, n := Swap(s, i), |s| - 1;
    if i < n {
      ViewSwap(s[..n], i);
      assert t[..n] == Swap(s[..n], i);
    } else {
      var r := s[..n - 1];
      assert s[..n] == r + [s[n - 1]] && t[..n] == r + [s[n]];
      ViewSnoc(r, s[n - 1]);
      ViewSnoc(r, s[n]);
    }
  }

  /** One more entry of a sorted list is one more entry of its pool. */
  lemma ViewPrefix(s: seq<Amount>, i: nat)
    requires Sorted(s) && i < |s|
    ensures s[i].code !in View(s[..i])
    ensures View(s[..i + 1]) == View(s[..i])[s[i].code := s[i].value]
  {
    assert s[..i + 1][..i] == s[..i];
    ViewMiss(s[..i], s[i].code);
  }

  lemma SameMaps(l: Pool, r: Pool)
    requires Same(l, r) && l.Keys == r.Keys
    ensures l == r
  {
    forall c | c in l ensures l[c] == r[c] {
      assert At(l, c) == At(r, c);
    }
  }

  lemma AddSnoc(p: Pool, q: Pool, a: Amount)
    requires a.code !in q
    ensures Add(p, q[a.code := a.value]) == AddAmount(Add(p, q), a)
  {
    SameMaps(Add(p, q[a.code := a.value]), AddAmount(Add(p, q), a));
  }

  lemma SubSnoc(p: Pool, q: Pool, a: Amount)
    requires a.code !in q
    ensures Sub(p, q[a.code := a.value]) == Currency.SubAmount(Sub(p, q), a)
  {
    SameMaps(Sub(p, q[a.code := a.value]), Currency.SubAmount(Sub(p, q), a));
  }

  lemma LimitSnoc(p: Pool, q: Pool, a: Amount)
    requires a.code !in q
    ensures var v := Min(At(p, a.code), a.value);
            Currency.Limit(p, q[a.code := a.value])
            == if v == 0 then Currency.Limit(p, q) else Currency.Limit(p, q)[a.code := v]
  {
  }

  lemma NonNegativeSnoc(q: Pool, a: Amount)
    requires a.code !in q
    ensures Currency.NonNegative(q[a.code := a.value])
            == if a.value < 0 then Currency.NonNegative(q) else Currency.NonNegative(q)[a.code := a.value]
  {
  }

  class CurrencyPool {
    var currencyAmounts: seq<Amount>

    ghost predicate Valid()
      reads this
    {
      Sorted(currencyAmounts)
    }

    ghost function Contents(): Pool
      reads this
    {
      View(currencyAmounts)
    }

    constructor ()
      ensures Valid() && Contents() == map[]
    {
      currencyAmounts := [];
    }

    constructor FromAmount(a: Amount)
      ensures Valid() && Contents() == Single(a)
    {
      currencyAmounts := if a.value == 0 then [] else [a];
      new;
      if a.value != 0 {
        assert [a][..0] == [];
        assert View([a]) == View([a][..0])[a.code := a.value];
      }
    }

    /** Moves the last entry down to its place, which sorts a list whose other
        entries are sorted already. */
    method SortLast()
      requires currencyAmounts != []
      requires forall j, k | 0 <= j < k < |currencyAmounts| - 1 :: currencyAmounts[j].code < currencyAmounts[k].code
      requires forall j | 0 <= j < |currencyAmounts| - 1 ::
                 currencyAmounts[j].code != currencyAmounts[|currencyAmounts| - 1].code
      modifies this
      ensures Valid() && Contents() == old(Contents())
    {
      var s, i := currencyAmounts, |currencyAmounts| - 1;
      while i > 0 && s[i].code < s[i - 1].code
        invariant 0 <= i < |s|
        invariant View(s) == old(Contents())
        invariant forall j, k | 0 <= j < k < |s| && j != i && k != i :: s[j].code < s[k].code
        invariant forall j | 0 <= j < i :: s[j].code != s[i].code
        invariant forall j | i < j < |s| :: s[i].code < s[j].code
      {
        ViewSwap(s, i);
        s := Swap(s, i);
        i := i - 1;
      }
      currencyAmounts := s;
    }

    /** `operator += (const Amount &)`. */
    method AddAmount(a: Amount)
      requires Valid()
      modifies this
      ensures Valid() && Contents() == Currency.AddAmount(old(Contents()), a)
    {
      if a.value == 0 {
        return;
      }
      ghost var s := currencyAmounts;
      var i := 0;
      while i < |currencyAmounts|
        invariant 0 <= i <= |s| && currencyAmounts == s
        invariant forall j | 0 <= j < i :: s[j].code != a.code
      {
        if currencyAmounts[i].code == a.code {
          ViewHit(s, i);
          ViewUpdate(s, i, s[i].value + a.value);
          currencyAmounts := currencyAmounts[i := Amount(currencyAmounts[i].code, currencyAmounts[i].value + a.value)];
          return;
        }
        i := i + 1;
      }
      ViewMiss(s, a.code);
      ViewSnoc(s, a);
      currencyAmounts := currencyAmounts + [a];
      SortLast();
    }

    /** `operator -= (const Amount &)`. */
    method SubAmount(a: Amount)
      requires Valid()
      modifies this
      ensures Valid() && Contents() == Currency.SubAmount(old(Contents()), a)
    {
      AddAmount(Amount(a.code, -a.value));
    }

    /** `operator += (const CurrencyPool &)`. */
    method AddPool(other: seq<Amount>)
      requires Valid() && Sorted(other)
      modifies this
      ensures Valid() && Contents() == Add(old(Contents()), View(other))
    {
      var i := 0;
      while i < |other|
        invariant 0 <= i <= |other|
        invariant Valid() && Contents() == Add(old(Contents()), View(other[..i]))
      {
        ViewPrefix(other, i);
        AddSnoc(old(Contents()), View(other[..i]), other[i]);
        AddAmount(other[i]);
        i := i + 1;
      }
      assert other[..|other|] == other;
    }

    /** `operator -= (const CurrencyPool &)`. */
    method SubPool(other: seq<Amount>)
      requires Valid() && Sorted(other)
      modifies this
      ensures Valid() && Contents() == Sub(old(Contents()), View(other))
    {
      var i := 0;
      while i < |other|
        invariant 0 <= i <= |other|
        invariant Valid() && Contents() == Sub(old(Contents()), View(other[..i]))
      {
        ViewPrefix(other, i);
        SubSnoc(old(Contents()), View(other[..i]), other[i]);
        SubAmount(other[i]);
        i := i + 1;
      }
      assert other[..|other|] == other;
    }
  }

  /** `getAvailable`, its value. */
  method GetAvailable(mine: seq<Amount>, c: Code) returns (r: int)
    requires Sorted(mine)
    ensures r == At(View(mine), c)
  {
    for i := 0 to |mine|
      invariant forall j | 0 <= j < i :: mine[j].code != c
    {
      if mine[i].code == c {
        ViewHit(mine, i);
        return mine[i].value;
      }
    }
    ViewMiss(mine, c);
    return 0;
  }

  /** `limit`: built by push_back alone, and still sorted. */
  method Limit(mine: seq<Amount>, other: seq<Amount>) returns (r: seq<Amount>)
    requires Sorted(mine) && Sorted(other)
    ensures Sorted(r) && View(r) == Currency.Limit(View(mine), View(other))
  {
    r := [];
    for i := 0 to |other|
      invariant Sorted(r)
      invariant forall m, j | 0 <= m < |r| && i <= j < |other| :: r[m].code < other[j].code
      invariant View(r) == Currency.Limit(View(mine), View(other[..i]))
    {
      ViewPrefix(other, i);
      LimitSnoc(View(mine), View(other[..i]), other[i]);
      var a := GetAvailable(mine, other[i].code);
      var v := Min(a, other[i].value);
      if v != 0 {
        ViewSnoc(r, Amount(other[i].code, v));
        r := r + [Amount(other[i].code, v)];
      }
    }
    assert other[..|other|] == other;
  }

  /** `nonNegative`: keeps the zero entries. */
  method NonNegative(mine: seq<Amount>) returns (r: seq<Amount>)
    requires Sorted(mine)
    ensures Sorted(r) && View(r) == Currency.NonNegative(View(mine))
  {
    r := [];
    assert View(mine[..0]) == map[] == Currency.NonNegative(map[]);
    hide Currency.NonNegative;
    for i := 0 to |mine|
      invariant Sorted(r)
      invariant forall m, j | 0 <= m < |r| && i <= j < |mine| :: r[m].code < mine[j].code
      invariant View(r) == Currency.NonNegative(View(mine[..i]))
    {
      ViewPrefix(mine, i);
      NonNegativeSnoc(View(mine[..i]), mine[i]);
      if mine[i].value >= 0 {
        ViewSnoc(r, mine[i]);
        r := r + [mine[i]];
      }
    }
    assert mine[..|mine|] == mine;
  }

  /** `isNonNegative`. */
  method AllNonNegative(mine: seq<Amount>) returns (b: bool)
    requires Sorted(mine)
    ensures b <==> forall c :: At(View(mine), c) >= 0
  {
    for i := 0 to |mine|
      invariant forall j | 0 <= j < i :: mine[j].value >= 0
    {
      if mine[i].value < 0 {
        ViewHit(mine, i);
        assert At(View(mine), mine[i].code) < 0;
        return false;
      }
    }
    forall c ensures At(View(mine), c) >= 0 {
      if c in View(mine) {
        var i := ViewWitness(mine, c);
        ViewHit(mine, i);
      }
    }
    return true;
  }

  /** One direction of `operator ==`. */
  method CheckContains(mine: seq<Amount>, other: seq<Amount>) returns (b: bool)
    requires Sorted(mine) && Sorted(other)
    ensures b <==> forall c | c in View(mine) :: At(View(other), c) == View(mine)[c]
  {
    for i := 0 to |mine|
      invariant forall j | 0 <= j < i :: At(View(other), mine[j].code) == mine[j].value
    {
      var v := GetAvailable(other, mine[i].code);
      if v != mine[i].value {
        ViewHit(mine, i);
        return false;
      }
    }
    forall c | c in View(mine) ensures At(View(other), c) == View(mine)[c] {
      var i := ViewWitness(mine, c);
      ViewHit(mine, i);
    }
    return true;
  }

  /** `operator ==` ignores which zero entries either side holds. */
  method Equals(mine: seq<Amount>, other: seq<Amount>) returns (b: bool)
    requires Sorted(mine) && Sorted(other)
    ensures b <==> Same(View(mine), View(other))
  {
    var b1 := CheckContains(mine, other);
    var b2 := CheckContains(other, mine);
    b := b1 && b2;
    assert b == Equal(View(mine), View(other));
  }

  /** `isSameOrPastVersion`. */
  method IsSameOrPastVersion(mine: seq<Amount>, other: seq<Amount>) returns (b: bool)
    requires Sorted(mine) && Sorted(other)
    ensures b <==> Covers(View(mine), View(other))
  {
    for i := 0 to |mine|
      invariant forall j | 0 <= j < i :: mine[j].value >= At(View(other), mine[j].code)
    {
      var v := GetAvailable(other, mine[i].code);
      if mine[i].value < v {
        ViewHit(mine, i);
        return false;
      }
    }
    forall c | c in View(mine) ensures View(mine)[c] >= At(View(other), c) {
      var i := ViewWitness(mine, c);
      ViewHit(mine, i);
    }
    return true;
  }
}
