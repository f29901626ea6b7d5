/** Accounts read back from storage, one after the other in any order. */
module Restore {
  import opened Common
  import opened Currency
  import opened AccountSpec
  import opened AccountLaws
  import opened Sums
  import opened Ledger
  import opened LedgerTheorems
  import opened Banker
  import opened Wire

  /** What `restoreAccount` writes over an ensured account. */
  function Overwritten(a: Acct, stored: Acct): Acct {
    Placed(WireAccount(stored), a.children)
  }

  function Placed(a: Acct, children: set<Key>): Acct {
    a.(children := children, status := ACTIVE)
  }

  /** `restoreAccount` reads the stored value and finds or makes a place for it. */
  predicate MayRestore(b: Book, k: Key, stored: Acct) {
    CheckInvariants(WireAccount(stored)) && Fits(b, k, stored.kind)
  }

  function Restored(b: Book, k: Key, stored: Acct): Book
    requires Fits(b, k, stored.kind)
  {
    var r := Ensured(b, k, stored.kind);
    r[k := Overwritten(r[k], stored)]
  }

  // ------------------------------------------------- part of a book restored

  /** The keys of b that are in d or above a key of d. */
  ghost function Closure(b: Book, d: set<Key>): set<Key> {
    set j | j in b && exists k :: k in d && j <= k
  }

  /** The banker's map once the accounts of b with keys in d have been restored. */
  ghost function Partial(b: Book, d: set<Key>): Book {
    map j | j in Closure(b, d) ::
      Placed(if j in d then WireAccount(b[j]) else NewAcct(AT_BUDGET), b[j].children * Closure(b, d))
  }

  /** The whole book restored. */
  ghost function Rebuilt(b: Book): Book {
    map j | j in b :: Placed(WireAccount(b[j]), b[j].children)
  }

  lemma PartialOfNothing(b: Book)
    ensures Partial(b, {}) == map[]
  {
    assert Closure(b, {}) == {};
  }

  lemma ClosureIsIn(b: Book, d: set<Key>)
    ensures Closure(b, d) <= b.Keys
  {
  }

  lemma ClosureOfAll(b: Book)
    ensures Closure(b, b.Keys) == b.Keys
  {
    forall j | j in b ensures j in Closure(b, b.Keys) {
      assert j <= j;
    }
  }

  lemma PartialOfAll(b: Book)
    requires Tree(b)
    ensures Partial(b, b.Keys) == Rebuilt(b)
  {
    hide WireAccount, NewAcct, Tree, Placed, Closure;
    ClosureOfAll(b);
    forall j | j in b ensures b[j].children * b.Keys == b[j].children {
      AreChildren(b, j);
    }
  }

  lemma AreChildren(b: Book, j: Key)
    requires Tree(b) && j in b
    ensures b[j].children <= b.Keys
  {
    assert NodeOk(b, j);
  }

  /** In a tree the children are the keys one level down. */
  lemma ChildrenAre(b: Book, j: Key)
    requires Tree(b) && j in b
    ensures b[j].children == set k | k in b && |k| == |j| + 1 && j <= k
  {
    assert NodeOk(b, j);
    forall k | k in b && |k| == |j| + 1 && j <= k ensures k in b[j].children {
      assert NodeOk(b, k);
      assert Parent(k) == j;
    }
    forall k | k in b[j].children ensures j <= k {
      assert Parent(k) == j;
    }
  }

  lemma PartialIsTree(b: Book, d: set<Key>)
    requires Tree(b) && d <= b.Keys
    ensures Tree(Partial(b, d))
  {
    hide WireAccount, NewAcct;
    var r := Partial(b, d);
    forall j | j in r ensures NodeOk(r, j) {
      assert NodeOk(b, j);
      PartialKind(b, d, j);
      if |j| > 1 {
        var k :| k in d && j <= k;
        assert Parent(j) <= k;
      }
    }
  }

  lemma AboveIsBudget(b: Book, j: Key, k: Key)
    requires Tree(b) && j in b && k in b && j <= k && j != k
    ensures b[j].kind == AT_BUDGET
  {
    assert NodeOk(b, j);
    assert k[..|j|] == j;
    Ancestor(b, k, |j|);
  }

  lemma AboveIsBudgetIn(b: Book, d: set<Key>, j: Key)
    requires Tree(b) && d <= b.Keys && j in Closure(b, d) && j !in d
    ensures j in b && b[j].kind == AT_BUDGET
  {
    hide Tree;
    var k :| k in d && j <= k;
    AboveIsBudget(b, j, k);
  }

  lemma PlacedKind(a: Acct, s: set<Key>)
    ensures Placed(a, s).kind == a.kind && Placed(a, s).children == s
  {
  }

  lemma PartialKind(b: Book, d: set<Key>, j: Key)
    requires Tree(b) && d <= b.Keys && j in Closure(b, d)
    ensures j in b && Partial(b, d)[j].kind == b[j].kind
    ensures Partial(b, d)[j].children == b[j].children * Closure(b, d)
  {
    hide WireAccount, NewAcct, Tree, Closure, Placed;
    ClosureIsIn(b, d);
    NewKind(AT_BUDGET);
    WireKind(b[j]);
    PlacedKind(if j in d then WireAccount(b[j]) else NewAcct(AT_BUDGET), b[j].children * Closure(b, d));
    if j !in d {
      AboveIsBudgetIn(b, d, j);
    }
  }

  lemma WireKind(a: Acct)
    ensures WireAccount(a).kind == a.kind
  {
  }

  /** Any account of b fits in next. */
  lemma NextFits(b: Book, d: set<Key>, k: Key)
    requires Tree(b) && d <= b.Keys && k in b
    ensures Fits(Partial(b, d), k, b[k].kind)
  {
    hide Partial;
    var r := Partial(b, d);
    PartialIsTree(b, d);
    PartialKeys(b, d);
    FitsIff(r, k, b[k].kind);
    assert NodeOk(b, k);
    if k in r {
      PartialKind(b, d, k);
    }
    forall n | 1 <= n < |k| && k[..n] in r ensures r[k[..n]].kind == AT_BUDGET {
      Ancestor(b, k, n);
      assert NodeOk(b, k[..n]);
      PartialKind(b, d, k[..n]);
    }
  }

  lemma PartialKeys(b: Book, d: set<Key>)
    ensures Partial(b, d).Keys == Closure(b, d)
  {
  }

  lemma ClosureOneMore(b: Book, d: set<Key>, k: Key, j: Key)
    requires Tree(b) && k in b && d <= b.Keys
    ensures j in Closure(b, d + {k}) <==> j in Closure(b, d) || (j <= k && j != [])
  {
    if j in Closure(b, d) {
      var i :| i in d && j <= i;
      assert i in d + {k};
    }
    if j <= k && j != [] {
      PrefixesArePresent(b, k, j);
      assert k in d + {k};
    }
    if j in Closure(b, d + {k}) {
      assert NodeOk(b, j);
    }
  }

  /** Restoring one more account, wherever it is in the tree. */
  lemma RestoreOneMore(b: Book, d: set<Key>, k: Key)
    requires Tree(b) && d <= b.Keys && k in b && k !in d
    ensures Fits(Partial(b, d), k, b[k].kind)
    ensures Restored(Partial(b, d), k, b[k]) == Partial(b, d + {k})
  {
    hide Partial, Ensured, Fits, WireAccount, NewAcct, Closure, Tree;
    NextFits(b, d, k);
    PartialIsTree(b, d);
    PartialIsTree(b, d + {k});
    PartialKeys(b, d);
    PartialKeys(b, d + {k});
    var l, r := Restored(Partial(b, d), k, b[k]), Partial(b, d + {k});
    EnsuredKeepsTree(Partial(b, d), k, b[k].kind);
    assert Tree(l) by {
      OverwritingKeepsTree(Ensured(Partial(b, d), k, b[k].kind), k, b[k]);
    }
    forall j ensures j in l <==> j in r {
      EnsuredIs(Partial(b, d), k, b[k].kind, j);
      ClosureOneMore(b, d, k, j);
    }
    assert l.Keys == r.Keys;
    forall j | j in l ensures l[j] == r[j] {
      ChildrenAre(l, j);
      ChildrenAre(r, j);
      assert l[j].children == r[j].children;
      ClosureIsIn(b, d + {k});
      SameButChildren(b, d, k, j);
    }
  }

  lemma OverwritingKeepsTree(b: Book, k: Key, stored: Acct)
    requires Tree(b) && k in b && b[k].kind == stored.kind
    ensures Tree(b[k := Overwritten(b[k], stored)])
  {
    WireKind(stored);
    SameShapeKeepsTree(b, b[k := Overwritten(b[k], stored)]);
  }

  lemma PlacedElsewhere(a: Acct, s: set<Key>, t: set<Key>)
    ensures Placed(a, s).(children := t) == Placed(a, t)
    ensures Placed(a, s).children == s
  {
  }

  lemma NewPlaced(kind: Kind, s: set<Key>)
    ensures NewAcct(kind).(children := s) == Placed(NewAcct(kind), s)
  {
  }

  lemma SameButChildren(b: Book, d: set<Key>, k: Key, j: Key)
    requires Tree(b) && d <= b.Keys && k in b && k !in d && Fits(Partial(b, d), k, b[k].kind) && j in b
    requires j in Restored(Partial(b, d), k, b[k]) && j in Partial(b, d + {k})
    ensures var l, r := Restored(Partial(b, d), k, b[k])[j], Partial(b, d + {k})[j];
            l == r.(children := l.children)
  {
    hide Ensured, Fits, WireAccount, NewAcct, Tree, Placed, Closure;
    var p := Partial(b, d);
    PartialIsTree(b, d);
    EnsuredIs(p, k, b[k].kind, j);
    ClosureOneMore(b, d, k, j);
    var l := Restored(p, k, b[k])[j].children;
    var base := if j in d + {k} then WireAccount(b[j]) else NewAcct(AT_BUDGET);
    PlacedElsewhere(base, b[j].children * Closure(b, d + {k}), l);
    if j == k {
      PlacedElsewhere(base, Ensured(p, k, b[k].kind)[k].children, l);
    } else if j in p {
      assert j in d + {k} <==> j in d;
      PlacedElsewhere(base, b[j].children * Closure(b, d), l);
    } else {
      assert j !in d by {
        InClosure(b, d, j);
      }
      NewPlaced(AT_BUDGET, l);
    }
  }

  lemma InClosure(b: Book, d: set<Key>, j: Key)
    ensures j in d && j in b ==> j in Closure(b, d)
  {
    assert j <= j;
  }

  /** Restoring what is stored under each key in turn; None when one throws. */
  function RestoreAll(b: Book, stored: map<Key, Acct>, order: seq<Key>): Option<Book>
    requires forall k | k in order :: k in stored
    decreases |order|
  {
    if order == [] then Some(b)
    else if MayRestore(b, order[0], stored[order[0]])
    then RestoreAll(Restored(b, order[0], stored[order[0]]), stored, order[1..])
    else None
  }

  ghost predicate Distinct(order: seq<Key>) {
    forall m, n | 0 <= m < n < |order| :: order[m] != order[n]
  }

  lemma {:induction false} RestoringGoesOn(b: Book, d: set<Key>, order: seq<Key>)
    requires Tree(b) && (forall k | k in b :: NonNegativeCounters(b[k])) && d <= b.Keys
    requires Distinct(order) && forall k | k in order :: k in b && k !in d
    ensures RestoreAll(Partial(b, d), b, order) == Some(Partial(b, d + set k | k in order))
    decreases |order|
  {
    hide Partial, WireAccount, CheckInvariants, Restored, Fits, NonNegativeCounters, Tree;
    if order == [] {
      assert d + (set k | k in order) == d;
    } else {
      var k, rest := order[0], order[1..];
      RestoreOneMore(b, d, k);
      WireAccountIsSame(b[k]);
      assert Distinct(rest) && k !in rest;
      RestoringGoesOn(b, d + {k}, rest);
      assert d + {k} + (set j | j in rest) == d + set j | j in order by {
        assert order == [k] + rest;
      }
    }
  }

  /** a is b again, active, pools compared amount by amount. */
  ghost predicate SameAccount(a: Acct, b: Acct) {
    && SameCounters(a, b) && SameItems(a.lineItems, b.lineItems) && a.kind == b.kind && a.children == b.children
    && a.status == ACTIVE && CheckInvariants(a) && (Balanced(b) ==> Same(a.balance, b.balance))
  }

  /** Restoring the accounts of a tree one by one, in any order, never fails and
      rebuilds the book: the same keys, kinds, counters, line items and children,
      all active, and the balances worked out anew. */
  lemma RestoringRebuilds(b: Book, order: seq<Key>)
    requires Tree(b) && (forall k | k in b :: NonNegativeCounters(b[k]))
    requires Distinct(order) && (set k | k in order) == b.Keys
    ensures RestoreAll(map[], b, order) == Some(Rebuilt(b))
    ensures forall k | k in b :: SameAccount(Rebuilt(b)[k], b[k])
  {
    hide Partial, WireAccount, CheckInvariants, RestoreAll, NonNegativeCounters, Tree, SameAccount;
    assert forall k :: k in order <==> k in set j | j in order;
    RestoringGoesOn(b, {}, order);
    PartialOfNothing(b);
    PartialOfAll(b);
    assert {} + (set k | k in order) == b.Keys;
    forall k | k in b ensures SameAccount(Rebuilt(b)[k], b[k]) {
      RebuiltAt(b, k);
    }
  }

  lemma RebuiltAt(b: Book, k: Key)
    requires k in b && NonNegativeCounters(b[k])
    ensures SameAccount(Rebuilt(b)[k], b[k])
  {
    hide WireAccount, CheckInvariants, NonNegativeCounters, Balanced, SameItems;
    WireAccountIsSame(b[k]);
    CheckIgnoresPlace(WireAccount(b[k]), b[k].children);
  }

  lemma CheckIgnoresPlace(a: Acct, s: set<Key>)
    requires CheckInvariants(a)
    ensures CheckInvariants(Placed(a, s))
  {
    hide CheckInvariants;
    CheckInvariantsIsSound(a);
    CheckInvariantsIsSound(Placed(a, s));
    forall c ensures BalancedAt(Placed(a, s), c) {
      assert BalancedAt(a, c);
    }
  }

  // --------------------------------------------------- a banker that starts again

  ghost predicate SameForLedger(a: Acct, b: Acct) {
    && SameCounters(a, b) && a.kind == b.kind && a.children == b.children
    && a.crossedDown == b.crossedDown && a.crossedUp == b.crossedUp
  }

  lemma LedgerCarriesOver(b: Book, r: Book, k: Key, c: Code)
    requires Tree(b) && r.Keys == b.Keys && k in b && LedgerAt(b, k, c) && BalancedAt(r[k], c)
    requires forall j | j in b :: SameForLedger(r[j], b[j])
    ensures LedgerAt(r, k, c)
  {
    hide BalancedAt, Sum, SameCounters;
    assert NodeOk(b, k);
    forall ch | ch in b[k].children ensures SameForParent(b[ch], r[ch], c) {
      CountersAt(r[ch], b[ch], c);
    }
    SumsAgree(b, r, b[k].children, c);
    CountersAt(r[k], b[k], c);
  }

  lemma CountersAt(a: Acct, b: Acct, c: Code)
    requires SameCounters(a, b)
    ensures At(a.budgetIncreases, c) == At(b.budgetIncreases, c) && At(a.budgetDecreases, c) == At(b.budgetDecreases, c)
    ensures At(a.recycledIn, c) == At(b.recycledIn, c) && At(a.recycledOut, c) == At(b.recycledOut, c)
    ensures At(a.allocatedIn, c) == At(b.allocatedIn, c) && At(a.allocatedOut, c) == At(b.allocatedOut, c)
  {
  }

  lemma RebuiltIsSame(b: Book, k: Key)
    requires k in b
    ensures k in Rebuilt(b) && SameForLedger(Rebuilt(b)[k], b[k])
    ensures forall c :: BalancedAt(Rebuilt(b)[k], c)
  {
    hide WireAccount;
    var a := WireAccount(b[k]);
    WireAccountIsSame(b[k]);
    WireHistory(b[k]);
    forall c ensures BalancedAt(Placed(a, b[k].children), c) {
      WireAccountAt(b[k], c);
    }
  }

  lemma WireHistory(a: Acct)
    ensures WireAccount(a).crossedDown == a.crossedDown && WireAccount(a).crossedUp == a.crossedUp
  {
  }

  /** All the invariants of the ledger hold again in the rebuilt map, so that they
      hold on every run that goes on from there. */
  lemma RebuiltKeepsInv(b: Book, ms: seq<Move>)
    requires Inv(b)
    ensures Inv(Rebuilt(b)) && Inv(Run(Rebuilt(b), ms))
  {
    hide LedgerAt, SameForLedger, Run, NodeOk, Rebuilt, BalancedAt;
    var r := Rebuilt(b);
    RebuiltKeys(b);
    forall k | k in b ensures SameForLedger(r[k], b[k]) && forall c :: BalancedAt(r[k], c) {
      RebuiltIsSame(b, k);
    }
    assert Tree(r) by {
      forall j | j in b ensures r[j].kind == b[j].kind && r[j].children == b[j].children {
        SameShape(r[j], b[j]);
      }
      SameShapeKeepsTree(b, r);
    }
    forall k, c | k in r ensures LedgerAt(r, k, c) {
      LedgerCarriesOver(b, r, k, c);
    }
    RunKeepsInv(r, ms);
  }

  lemma SameShape(a: Acct, b: Acct)
    requires SameForLedger(a, b)
    ensures a.kind == b.kind && a.children == b.children
  {
  }

  // ------------------------------------------------------------------- loading

  /** Two accounts written as the same JSON value. The balance, the children and the
      history are not written. */
  predicate SameJson(a: Acct, b: Acct) {
    a.(balance := map[], children := {}, crossedDown := map[], crossedUp := map[])
    == b.(balance := map[], children := {}, crossedDown := map[], crossedUp := map[])
  }

  /** b with the history of the stored accounts. */
  ghost function Relabelled(b: Book, stored: map<Key, Acct>): Book {
    map k | k in b && k in stored ::
      b[k].(crossedDown := stored[k].crossedDown, crossedUp := stored[k].crossedUp)
  }

  lemma SameWire(a: Acct, b: Acct)
    requires SameJson(a, b) && a.crossedDown == b.crossedDown && a.crossedUp == b.crossedUp
    ensures WireAccount(a) == WireAccount(b) && a.kind == b.kind
  {
    assert ReadCounters(a) == ReadCounters(b);
  }

  lemma {:induction false} RestoreAllSame(c: Book, s: map<Key, Acct>, t: map<Key, Acct>, order: seq<Key>)
    requires forall k | k in order ::
               k in s && k in t && WireAccount(s[k]) == WireAccount(t[k]) && s[k].kind == t[k].kind
    ensures RestoreAll(c, s, order) == RestoreAll(c, t, order)
    decreases |order|
  {
    hide WireAccount, CheckInvariants, Fits, Ensured, Placed;
    if order != [] && MayRestore(c, order[0], s[order[0]]) {
      assert forall k | k in order[1..] :: k in order;
      RestoreAllSame(Restored(c, order[0], s[order[0]]), s, t, order[1..]);
    }
  }

  /** The store holds the whole tree b: a value for each of its accounts. */
  ghost predicate Holds(b: Book, keys: seq<Key>, stored: map<Key, Acct>) {
    && Tree(b) && (forall k | k in b :: NonNegativeCounters(b[k]))
    && Distinct(keys) && (set k | k in keys) == b.Keys
    && forall k | k in b :: k in stored && SameJson(stored[k], b[k])
  }

  lemma RelabelledIsTree(b: Book, stored: map<Key, Acct>)
    requires Tree(b) && forall k | k in b :: k in stored
    ensures Tree(Relabelled(b, stored))
  {
    SameShapeKeepsTree(b, Relabelled(b, stored));
  }

  lemma RelabelledSame(b: Book, stored: map<Key, Acct>, k: Key)
    requires k in b && k in stored
    ensures var a := Relabelled(b, stored)[k];
            && (NonNegativeCounters(b[k]) ==> NonNegativeCounters(a))
            && (SameJson(stored[k], b[k]) ==> WireAccount(stored[k]) == WireAccount(a) && stored[k].kind == a.kind)
  {
    hide WireAccount;
    if SameJson(stored[k], b[k]) {
      SameWire(stored[k], Relabelled(b, stored)[k]);
    }
  }

  lemma RelabelledAgain(a: Acct, b: Acct, down: Pool, up: Pool)
    requires SameAccount(a, b.(crossedDown := down, crossedUp := up))
    ensures SameAccount(a, b)
  {
    hide CheckInvariants, SameItems;
    var t := b.(crossedDown := down, crossedUp := up);
    if Balanced(b) {
      forall c ensures BalancedAt(t, c) {
        assert BalancedAt(b, c);
      }
    }
  }

  /** r is the whole book b again. */
  ghost predicate SameTree(r: Book, b: Book) {
    r.Keys == b.Keys && forall k | k in b :: SameAccount(r[k], b[k])
  }

  lemma LoadingRebuilds(b: Book, keys: seq<Key>, stored: map<Key, Acct>)
    requires Holds(b, keys, stored)
    ensures forall k | k in keys :: k in stored
    ensures var r := RestoreAll(map[], stored, keys); r.Some? && SameTree(r.value, b)
  {
    hide WireAccount, RestoreAll, NonNegativeCounters, Tree, Rebuilt, SameJson, SameAccount;
    var t := Relabelled(b, stored);
    assert forall k :: k in keys <==> k in set j | j in keys;
    RelabelledKeys(b, stored);
    forall k | k in b
      ensures NonNegativeCounters(t[k]) && WireAccount(stored[k]) == WireAccount(t[k]) && stored[k].kind == t[k].kind
    {
      RelabelledSame(b, stored, k);
    }
    RelabelledIsTree(b, stored);
    RestoringRebuilds(t, keys);
    RestoreAllSame(map[], stored, t, keys);
    RebuiltKeys(t);
    forall k | k in b ensures SameAccount(Rebuilt(t)[k], b[k]) {
      RelabelledAgain(Rebuilt(t)[k], b[k], stored[k].crossedDown, stored[k].crossedUp);
    }
  }

  /** A banker that is b again satisfies all the invariants of the ledger, with b's
      history in place of its own, and so does every run from there. */
  lemma SameTreeKeepsInv(r: Book, b: Book, ms: seq<Move>)
    requires SameTree(r, b) && Inv(b)
    ensures Inv(Relabelled(r, b)) && Inv(Run(Relabelled(r, b), ms))
  {
    hide LedgerAt, SameForLedger, SameAccount, Run, NodeOk;
    var t := Relabelled(r, b);
    RelabelledKeys(r, b);
    forall k | k in b
      ensures SameForLedger(t[k], b[k]) && (forall c :: BalancedAt(t[k], c))
      ensures t[k].kind == b[k].kind && t[k].children == b[k].children
    {
      SameAccountForLedger(r[k], b[k]);
    }
    SameShapeKeepsTree(b, t);
    forall k, c | k in t ensures LedgerAt(t, k, c) {
      LedgerCarriesOver(b, t, k, c);
    }
    RunKeepsInv(t, ms);
  }

  lemma SameAccountForLedger(a: Acct, b: Acct)
    requires SameAccount(a, b)
    ensures var t := a.(crossedDown := b.crossedDown, crossedUp := b.crossedUp);
            && SameForLedger(t, b) && t.kind == b.kind && t.children == b.children
            && forall c :: BalancedAt(t, c)
  {
    hide CheckInvariants, SameItems;
    CheckInvariantsIsSound(a);
    forall c ensures BalancedAt(a.(crossedDown := b.crossedDown, crossedUp := b.crossedUp), c) {
      assert BalancedAt(a, c);
    }
  }

  lemma RelabelledKeys(b: Book, stored: map<Key, Acct>)
    requires forall k | k in b :: k in stored
    ensures Relabelled(b, stored).Keys == b.Keys
  {
  }

  lemma RebuiltKeys(b: Book)
    ensures Rebuilt(b).Keys == b.Keys
  {
  }

  /** `load_redis`, given the keys of the active set in the order they were listed
      and the stored values: a missing value or one that cannot be restored ends
      it. When the store holds a whole tree of accounts the tree is rebuilt. */
  method LoadRedis(keys: seq<Key>, stored: map<Key, Acct>, ghost b: Book) returns (r: Option<Book>)
    ensures (exists k :: k in keys && k !in stored) ==> r == None
    ensures (forall k | k in keys :: k in stored) ==> r == RestoreAll(map[], stored, keys)
    ensures Holds(b, keys, stored) ==> r.Some? && SameTree(r.value, b) && (Inv(b) ==> Inv(Relabelled(r.value, b)))
  {
    hide WireAccount, CheckInvariants, Restored, MayRestore, Holds, SameTree, Inv, Relabelled;
    if Holds(b, keys, stored) {
      LoadingRebuilds(b, keys, stored);
      if Inv(b) {
        SameTreeKeepsInv(RestoreAll(map[], stored, keys).value, b, []);
      }
    }
    var newAccounts: Book := map[];
    var i := 0;
    while i < |keys|
      invariant 0 <= i <= |keys|
      invariant forall k | k in keys[..i] :: k in stored
      invariant (forall k | k in keys :: k in stored) ==>
                  RestoreAll(newAccounts, stored, keys[i..]) == RestoreAll(map[], stored, keys)
    {
      if keys[i] !in stored {
        return None;
      }
      var value := stored[keys[i]];
      RestKeys(keys, i);
      if !MayRestore(newAccounts, keys[i], value) {
        return None;
      }
      MayRestoreFits(newAccounts, keys[i], value);
      newAccounts := Restored(newAccounts, keys[i], value);
      i := i + 1;
    }
    assert forall k | k in keys :: k in keys[..i];
    r := Some(newAccounts);
  }

  lemma RestKeys(keys: seq<Key>, i: nat)
    requires i < |keys|
    ensures keys[i..] == [keys[i]] + keys[i + 1..] && keys[i..][1..] == keys[i + 1..]
    ensures keys[..i + 1] == keys[..i] + [keys[i]]
  {
  }

  lemma MayRestoreFits(b: Book, k: Key, stored: Acct)
    requires MayRestore(b, k, stored)
    ensures Fits(b, k, stored.kind)
  {
  }
}
