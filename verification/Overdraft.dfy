/** When counters go down, and what the next save makes of it. */
module Overdraft {
  import opened Common
  import opened Currency
  import opened AccountSpec
  import opened AccountLaws
  import opened ShadowSpec
  import opened Ledger
  import opened LedgerTheorems
  import opened Wire
  import Banker
  import Persistence

  // ----------------------------------------------------- no move drops an entry

  lemma EntriesStay(p: Pool, q: Pool)
    ensures HasEntries(p, p) && HasEntries(Add(p, q), p) && HasEntries(Sub(p, q), p)
  {
  }

  lemma KeepsItself(a: Acct)
    ensures HasCounterparts(a, a)
  {
  }

  lemma TransferKeepsEntries(a: Acct, t: Transfer)
    ensures HasCounterparts(MoveChild(a, t), a) && HasCounterparts(MoveParent(a, t), a)
  {
    hide Add, Sub, HasEntries;
    AllStay();
  }

  lemma AllStay()
    ensures forall p: Pool :: HasEntries(p, p)
    ensures forall p: Pool, q: Pool :: HasEntries(Add(p, q), p)
    ensures forall p: Pool, q: Pool :: HasEntries(Sub(p, q), p)
  {
    hide Add, Sub, HasEntries;
    forall p: Pool ensures HasEntries(p, p) {
      EntriesStay(p, p);
    }
    forall p: Pool, q: Pool ensures HasEntries(Add(p, q), p) {
      EntriesStay(p, q);
    }
    forall p: Pool, q: Pool ensures HasEntries(Sub(p, q), p) {
      EntriesStay(p, q);
    }
  }

  lemma WritesKeepEntries(a: Acct, p: Pool, st: Status)
    ensures HasCounterparts(SetBudget(a, p), a) && HasCounterparts(AddAdjustment(a, p), a)
    ensures HasCounterparts(ImportSpend(a, p), a) && HasCounterparts(a.(status := st), a)
  {
    hide HasCounterparts, ExtraBudget, ChangeBudget, AddAdjustment, ImportSpend;
    BudgetKeepsEntries(a, ExtraBudget(a, p));
    AdjustmentKeepsEntries(a, p);
    SpendKeepsEntries(a, p);
    MarkKeepsEntries(a, st);
  }

  lemma BudgetKeepsEntries(a: Acct, extra: Pool)
    ensures HasCounterparts(ChangeBudget(a, extra), a)
  {
    hide Add, Sub, HasEntries, IsNonNegative;
    AllStay();
    if IsNonNegative(extra) {
    } else {
    }
  }

  lemma SpendKeepsEntries(a: Acct, p: Pool)
    ensures HasCounterparts(ImportSpend(a, p), a)
  {
    hide Add, Sub, HasEntries;
    AllStay();
  }

  lemma MarkKeepsEntries(a: Acct, st: Status)
    ensures HasCounterparts(a.(status := st), a)
  {
    hide HasEntries;
    AllStay();
  }

  lemma AdjustmentKeepsEntries(a: Acct, p: Pool)
    ensures HasCounterparts(AddAdjustment(a, p), a)
  {
    hide Add, Sub, HasEntries, IsNonNegative;
    AllStay();
    if IsNonNegative(p) {
    } else {
    }
  }

  lemma EdgeKeepsEntries(b: Book, k: Key, t: Transfer, j: Key)
    requires HasParent(b, k) && j in b
    ensures j in Edge(b, k, t) && HasCounterparts(Edge(b, k, t)[j], b[j])
  {
    hide Edge, MoveChild, MoveParent, HasCounterparts;
    EdgeIs(b, k, t);
    TransferKeepsEntries(b[j], t);
    KeepsItself(b[j]);
  }

  lemma InsertKeepsEntries(b: Book, k: Key, kind: Kind, j: Key)
    requires CanInsert(b, k, kind) && j in b
    ensures j in Inserted(b, k, kind) && HasCounterparts(Inserted(b, k, kind)[j], b[j])
  {
    hide HasCounterparts, NewAcct;
    KeepsItself(b[j]);
    if |k| > 1 {
      ListingKeepsEntries(b[j], b[j].children + {k});
    }
  }

  lemma ListingKeepsEntries(a: Acct, children: set<Key>)
    ensures HasCounterparts(a.(children := children), a)
  {
    hide HasEntries;
    AllStay();
  }

  /** No write of the banker drops an entry above zero from any counter. */
  lemma MovesKeepEntries(b: Book, m: Move, j: Key)
    requires j in b
    ensures j in Apply(b, m) && HasCounterparts(Apply(b, m)[j], b[j])
  {
    hide PlanTransfer, RecuperateTransfer, CheckInvariants, Edge, Inserted, SetBudget, AddAdjustment, ImportSpend,
         CanInsert, HasCounterparts, SyncToMaster, MaySync, MayImport;
    KeepsItself(b[j]);
    match m {
      case Insert(k, kind) =>
        if CanInsert(b, k, kind) {
          InsertKeepsEntries(b, k, kind, j);
        }
      case PutBudget(k, p) => WritesKeepEntries(b[j], p, ACTIVE);
      case PutBalance(k, p) =>
        if HasParent(b, k) && CheckInvariants(b[k]) {
          EdgeKeepsEntries(b, k, PlanTransfer(b[k], b[Parent(k)], p), j);
        }
      case Recuperate(k) =>
        if HasParent(b, k) {
          EdgeKeepsEntries(b, k, RecuperateTransfer(b[k]), j);
        }
      case Adjust(k, p) => WritesKeepEntries(b[j], p, ACTIVE);
      case Import(k, p) => WritesKeepEntries(b[j], p, ACTIVE);
      case Sync(k, s) =>
        if MaySync(s, b[j]) {
          SyncCompletes(s, b[j]);
          GrownIffAtLeast(SyncToMaster(s, b[j]), b[j]);
        }
      case Mark(k, st) => WritesKeepEntries(b[j], map[], st);
    }
  }

  lemma AtLeastSame(a: Acct, b: Acct, w: Acct)
    requires SameCounters(w, b) && AtLeast(a, b)
    ensures AtLeast(a, w)
  {
    hide Covers, Same;
    CoversSame(a.budgetIncreases, b.budgetIncreases, w.budgetIncreases);
    CoversSame(a.budgetDecreases, b.budgetDecreases, w.budgetDecreases);
    CoversSame(a.recycledIn, b.recycledIn, w.recycledIn);
    CoversSame(a.allocatedIn, b.allocatedIn, w.allocatedIn);
    CoversSame(a.commitmentsRetired, b.commitmentsRetired, w.commitmentsRetired);
    CoversSame(a.adjustmentsIn, b.adjustmentsIn, w.adjustmentsIn);
    CoversSame(a.recycledOut, b.recycledOut, w.recycledOut);
    CoversSame(a.allocatedOut, b.allocatedOut, w.allocatedOut);
    CoversSame(a.commitmentsMade, b.commitmentsMade, w.commitmentsMade);
    CoversSame(a.adjustmentsOut, b.adjustmentsOut, w.adjustmentsOut);
    CoversSame(a.spent, b.spent, w.spent);
  }

  lemma WireIsAsBad(a: Acct, b: Acct)
    ensures AtLeast(a, WireAccount(b)) <==> AtLeast(a, b)
  {
    hide WireAccount, AtLeast;
    WireAccountIsSame(b);
    if AtLeast(a, b) {
      AtLeastSame(a, b, WireAccount(b));
    }
    if AtLeast(a, WireAccount(b)) {
      assert SameCounters(b, WireAccount(b));
      AtLeastSame(a, WireAccount(b), b);
    }
  }

  lemma CoversSame(p: Pool, q: Pool, r: Pool)
    requires Same(r, q)
    ensures Covers(p, r) <==> Covers(p, q)
  {
    assert forall c :: At(r, c) == At(q, c);
  }

  /** When the store holds the accounts as they were before a move, the next save
      finds an account bad exactly when the move was not steady. */
  lemma NextSaveRefusesIff(r: Persistence.Redis, b: Book, m: Move)
    requires r.values == b
    ensures (exists k :: Persistence.Bad(r, Apply(b, m), k)) <==> !Steady(b, m)
  {
    hide Apply, Steady, AtLeast, CountersGrow, HasCounterparts, WireAccount;
    var b' := Apply(b, m);
    MoveGrowsIff(b, m);
    forall k | k in b ensures k in b' && (Persistence.Bad(r, b', k) <==> !CountersGrow(b[k], b'[k])) {
      MovesKeepEntries(b, m, k);
      GrownIffAtLeast(b'[k], b[k]);
      WireIsAsBad(b'[k], b[k]);
    }
    if !BooksGrow(b, b') {
      var k :| k in b && !CountersGrow(b[k], b'[k]);
      assert Persistence.Bad(r, b', k);
    }
  }

  // ------------------------------------------------------ how it comes to that

  const TOP: Key := ["a"]
  const SUB: Key := ["a", "b"]

  function Dollars(n: int): Pool {
    Single(Amount(CC_USD, n))
  }

  function InDollars(c: Code, n: int): int {
    if c == CC_USD then n else 0
  }

  ghost predicate StandsAt(a: Acct, balance: int, recycledIn: int, recycledOut: int, c: Code) {
    && At(a.balance, c) == InDollars(c, balance)
    && At(a.recycledIn, c) == InDollars(c, recycledIn)
    && At(a.recycledOut, c) == InDollars(c, recycledOut)
  }

  ghost predicate Stands(a: Acct, balance: int, recycledIn: int, recycledOut: int) {
    Sound(a) && forall c :: StandsAt(a, balance, recycledIn, recycledOut, c)
  }

  /** a has the first three amounts, a:b the next three. */
  ghost predicate Standing(b: Book, top: int, topIn: int, topOut: int, sub: int, subIn: int, subOut: int) {
    TOP in b && SUB in b && Stands(b[TOP], top, topIn, topOut) && Stands(b[SUB], sub, subIn, subOut)
  }

  lemma SubHasParent(b: Book)
    requires TOP in b && SUB in b
    ensures HasParent(b, SUB) && Parent(SUB) == TOP
  {
    assert Parent(SUB) == TOP;
  }

  lemma EdgeStands(b: Book, t: Transfer, top: int, topIn: int, topOut: int, sub: int, subIn: int, subOut: int)
    requires TOP in b && SUB in b && HasParent(b, SUB) && Parent(SUB) == TOP
    requires Stands(MoveParent(b[TOP], t), top, topIn, topOut) && Stands(MoveChild(b[SUB], t), sub, subIn, subOut)
    ensures Standing(Edge(b, SUB, t), top, topIn, topOut, sub, subIn, subOut)
  {
    hide Stands, Edge, MoveParent, MoveChild;
    EdgeIs(b, SUB, t);
  }

  lemma MovedStands(child: Acct, parent: Acct, t: Transfer, top: int, topIn: int, topOut: int, sub: int, subIn: int,
                    subOut: int, recycled: int, budget: int, back: int)
    requires Stands(parent, top, topIn, topOut) && Stands(child, sub, subIn, subOut)
    requires Sound(MoveChild(child, t)) && Sound(MoveParent(parent, t))
    requires forall c :: At(t.fromRecycled, c) == InDollars(c, recycled) && At(t.fromBudget, c) == InDollars(c, budget)
                         && At(t.toRecycled, c) == InDollars(c, back)
    ensures Stands(MoveParent(parent, t), top - recycled - budget + back, topIn + back, topOut + recycled)
    ensures Stands(MoveChild(child, t), sub + recycled + budget - back, subIn + recycled, subOut + back)
  {
    hide Sound, MoveChild, MoveParent;
    var top', topIn', topOut' := top - recycled - budget + back, topIn + back, topOut + recycled;
    var sub', subIn', subOut' := sub + recycled + budget - back, subIn + recycled, subOut + back;
    forall c
      ensures StandsAt(MoveParent(parent, t), top', topIn', topOut', c)
      ensures StandsAt(MoveChild(child, t), sub', subIn', subOut', c)
    {
      assert StandsAt(parent, top, topIn, topOut, c) && StandsAt(child, sub, subIn, subOut, c);
      MoveAt(child, parent, t, c);
    }
  }

  /** What a balance of n dollars asked for a:b moves. */
  lemma BalanceStands(b: Book, n: int, top: int, topIn: int, topOut: int, sub: int, subIn: int, subOut: int)
    requires Standing(b, top, topIn, topOut, sub, subIn, subOut) && sub <= n && n != 0
    requires top >= 0 || (topOut + top >= 0 && subIn + top >= 0)
    ensures var down := Min(top, n - sub);
            var recycled := Min(Max(topIn - topOut, 0), down);
            Standing(Apply(b, PutBalance(SUB, Dollars(n))), top - down, topIn, topOut + recycled, sub + down,
                     subIn + recycled, subOut)
  {
    hide Sound, CheckInvariants, MoveChild, MoveParent, Edge, PlanTransfer, RequiredIn, Stands, Single, Sub,
         NonNegative;
    SubHasParent(b);
    var child, parent, p := b[SUB], b[TOP], Dollars(n);
    var t := PlanTransfer(child, parent, p);
    var down := Min(top, n - sub);
    var recycled := Min(Max(topIn - topOut, 0), down);
    StandsIs(child, sub, subIn, subOut);
    StandsIs(parent, top, topIn, topOut);
    CheckInvariantsIsSound(child);
    forall c
      ensures At(t.fromRecycled, c) == InDollars(c, recycled) && At(t.toRecycled, c) == 0
      ensures At(t.fromBudget, c) == InDollars(c, down - recycled)
    {
      assert StandsAt(child, sub, subIn, subOut, c) && StandsAt(parent, top, topIn, topOut, c);
      PlanAt(child, parent, p, c);
      if c == CC_USD {
        AskedFor(child, n);
      }
    }
    assert OverdraftCovered(child, parent, p) by {
      forall c | At(parent.balance, c) < 0
        ensures At(parent.recycledOut, c) + At(parent.balance, c) >= 0
        ensures At(child.recycledIn, c) + At(parent.balance, c) >= 0
      {
        assert StandsAt(child, sub, subIn, subOut, c) && StandsAt(parent, top, topIn, topOut, c);
      }
    }
    SetBalanceCompletesIff(child, parent, p);
    CheckInvariantsIsSound(MoveChild(child, t));
    CheckInvariantsIsSound(MoveParent(parent, t));
    MovedStands(child, parent, t, top, topIn, topOut, sub, subIn, subOut, recycled, down - recycled, 0);
    EdgeStands(b, t, top - down, topIn, topOut + recycled, sub + down, subIn + recycled, subOut);
  }

  lemma StandsIs(a: Acct, balance: int, recycledIn: int, recycledOut: int)
    requires Stands(a, balance, recycledIn, recycledOut)
    ensures Sound(a) && forall c :: StandsAt(a, balance, recycledIn, recycledOut, c)
  {
  }

  /** A request for dollars has an entry for them, even when nothing is missing. */
  lemma AskedFor(child: Acct, n: int)
    requires n != 0 && n >= At(child.balance, CC_USD)
    ensures CC_USD in RequiredIn(child, Dollars(n))
  {
  }

  lemma RecuperateStands(b: Book, top: int, topIn: int, topOut: int, sub: int, subIn: int, subOut: int)
    requires Standing(b, top, topIn, topOut, sub, subIn, subOut) && sub >= 0
    ensures Standing(Apply(b, Move.Recuperate(SUB)), top + sub, topIn + sub, topOut, 0, subIn, subOut + sub)
  {
    hide Sound, MoveChild, MoveParent, Edge, NonNegative, Stands;
    SubHasParent(b);
    var child, parent := b[SUB], b[TOP];
    var t := RecuperateTransfer(child);
    StandsIs(child, sub, subIn, subOut);
    StandsIs(parent, top, topIn, topOut);
    RecuperateCompletes(child, parent);
    forall c
      ensures At(t.fromRecycled, c) == At(t.fromBudget, c) == 0 && At(t.toRecycled, c) == InDollars(c, sub)
    {
      assert StandsAt(child, sub, subIn, subOut, c);
    }
    MovedStands(child, parent, t, top, topIn, topOut, sub, subIn, subOut, 0, 0, sub);
    EdgeStands(b, t, top + sub, topIn + sub, topOut, 0, subIn, subOut + sub);
  }

  lemma AdjustedStands(a: Acct, n: int, balance: int, recycledIn: int, recycledOut: int)
    requires Stands(a, balance, recycledIn, recycledOut)
    ensures Stands(AddAdjustment(a, Dollars(n)), balance + n, recycledIn, recycledOut)
  {
    hide Sound, AddAdjustment, CheckInvariants, Single;
    var p, balance' := Dollars(n), balance + n;
    AdjustmentKeepsFlows(a, p);
    assert OneSign(p);
    AddAdjustmentCompletes(a, p);
    forall c ensures StandsAt(AddAdjustment(a, p), balance', recycledIn, recycledOut, c) {
      assert StandsAt(a, balance, recycledIn, recycledOut, c);
      AddAdjustmentAt(a, p, c);
    }
  }

  lemma AdjustStands(b: Book, n: int, top: int, topIn: int, topOut: int, sub: int, subIn: int, subOut: int)
    requires Standing(b, top, topIn, topOut, sub, subIn, subOut)
    ensures Standing(Apply(b, Adjust(TOP, Dollars(n))), top + n, topIn, topOut, sub, subIn, subOut)
  {
    hide AddAdjustment, Stands, Dollars;
    AdjustedStands(b[TOP], n, top, topIn, topOut);
    assert TOP != SUB;
  }

  lemma StandsIf(a: Acct, balance: int, recycledIn: int, recycledOut: int)
    requires Sound(a) && forall c :: StandsAt(a, balance, recycledIn, recycledOut, c)
    ensures Stands(a, balance, recycledIn, recycledOut)
  {
  }

  lemma AdjustmentKeepsFlows(a: Acct, p: Pool)
    ensures var r := AddAdjustment(a, p); r.recycledIn == a.recycledIn && r.recycledOut == a.recycledOut
  {
    hide Add, Sub, IsNonNegative;
    if IsNonNegative(p) {
    } else {
    }
  }

  lemma BudgetKeepsFlows(a: Acct, p: Pool)
    ensures var r := SetBudget(a, p); r.recycledIn == a.recycledIn && r.recycledOut == a.recycledOut
  {
    hide Add, Sub, IsNonNegative, ExtraBudget;
    if IsNonNegative(ExtraBudget(a, p)) {
    } else {
    }
  }

  /** a and a:b are new, and a gets n dollars. */
  lemma BudgetStands(b: Book, n: nat)
    requires TOP in b && SUB in b && b[SUB] == NewAcct(AT_BUDGET)
    requires b[TOP] == NewAcct(AT_BUDGET).(children := b[TOP].children)
    ensures Standing(Apply(b, PutBudget(TOP, Dollars(n))), n, 0, 0, 0, 0, 0)
  {
    hide Sound, SetBudget, Stands, Single, ExtraBudget, Add, Sub;
    var a, p := b[TOP], Dollars(n);
    NewStands(a.children);
    NewStands({});
    StandsIs(a, 0, 0, 0);
    BudgetKeepsFlows(a, p);
    var wanted := Add(a.balance, Sub(p, Sub(a.budgetIncreases, a.budgetDecreases)));
    forall c ensures At(wanted, c) == InDollars(c, n) {
    }
    assert Reachable(a, p);
    forall c ensures At(ExtraBudget(a, p), c) >= 0 {
      ExtraBudgetAt(a, p, c);
    }
    SetBudgetCompletes(a, p);
    forall c ensures StandsAt(SetBudget(a, p), n, 0, 0, c) {
      assert StandsAt(a, 0, 0, 0, c);
      SetBudgetAt(a, p, c);
    }
    StandsIf(SetBudget(a, p), n, 0, 0);
    assert TOP != SUB && NewAcct(AT_BUDGET).(children := {}) == NewAcct(AT_BUDGET);
  }

  lemma NewStands(children: set<Key>)
    ensures Stands(NewAcct(AT_BUDGET).(children := children), 0, 0, 0)
  {
  }

  /** Ten dollars go down to a:b, come back recycled and go down again; then five are
      taken from a by an adjustment. */
  function Overdrawing(): seq<Move> {
    Banker.TwoCreated() + [PutBudget(TOP, Dollars(10))] + [PutBalance(SUB, Dollars(10))]
    + [Move.Recuperate(SUB)] + [PutBalance(SUB, Dollars(10))] + [Adjust(TOP, Dollars(-5))]
  }

  lemma OverdrawingStands()
    ensures Standing(Execute(Overdrawing()), -5, 10, 10, 10, 10, 10)
  {
    hide Standing, Apply, Dollars;
    var m0 := Banker.TwoCreated();
    Banker.TwoCreatedIs();
    var m1 := m0 + [PutBudget(TOP, Dollars(10))];
    var m2 := m1 + [PutBalance(SUB, Dollars(10))];
    var m3 := m2 + [Move.Recuperate(SUB)];
    var m4 := m3 + [PutBalance(SUB, Dollars(10))];
    RunSnoc(map[], m0, PutBudget(TOP, Dollars(10)));
    BudgetStands(Execute(m0), 10);
    RunSnoc(map[], m1, PutBalance(SUB, Dollars(10)));
    BalanceStands(Execute(m1), 10, 10, 0, 0, 0, 0, 0);
    RunSnoc(map[], m2, Move.Recuperate(SUB));
    RecuperateStands(Execute(m2), 0, 0, 0, 10, 0, 0);
    RunSnoc(map[], m3, PutBalance(SUB, Dollars(10)));
    BalanceStands(Execute(m3), 10, 10, 10, 0, 0, 0, 10);
    RunSnoc(map[], m4, Adjust(TOP, Dollars(-5)));
    AdjustStands(Execute(m4), -5, 0, 10, 10, 10, 10, 10);
  }

  /** A run of USD requests after which asking for the balance that a:b already has
      moves five dollars up, out of a counter: both sides pass their checks, a's
      recycledOut falls from 10 to 5, and a save over the accounts as they were
      before finds a bad. */
  lemma AskingAgainShrinks()
    ensures var b := Execute(Overdrawing());
            var m := PutBalance(SUB, Dollars(10));
            var b' := Apply(b, m);
            && Inv(b) && {TOP, SUB} <= b.Keys && {TOP, SUB} <= b'.Keys
            && At(b[SUB].balance, CC_USD) == 10 && At(b[TOP].balance, CC_USD) == -5
            && CheckInvariants(b'[TOP]) && CheckInvariants(b'[SUB])
            && At(b[TOP].recycledOut, CC_USD) == 10 && At(b'[TOP].recycledOut, CC_USD) == 5
            && !Steady(b, m)
            && forall r: Persistence.Redis | TOP in r.values && r.values[TOP] == b[TOP] :: Persistence.Bad(r, b', TOP)
  {
    hide Overdrawing, Inv, Apply, CheckInvariants, Execute, Sound, Stands, AtLeast, CountersGrow, HasCounterparts,
         WireAccount, Steady;
    var b, m := Execute(Overdrawing()), PutBalance(SUB, Dollars(10));
    var b' := Apply(b, m);
    RunsKeepInv(Overdrawing());
    OverdrawingStands();
    BalanceStands(b, 10, -5, 10, 10, 10, 10, 10);
    StandsIs(b[TOP], -5, 10, 10);
    StandsIs(b[SUB], 10, 10, 10);
    StandsIs(b'[TOP], 0, 10, 5);
    StandsIs(b'[SUB], 5, 5, 10);
    CheckInvariantsIsSound(b'[TOP]);
    CheckInvariantsIsSound(b'[SUB]);
    assert StandsAt(b[TOP], -5, 10, 10, CC_USD) && StandsAt(b'[TOP], 0, 10, 5, CC_USD);
    assert StandsAt(b[SUB], 10, 10, 10, CC_USD);
    assert !CountersGrow(b[TOP], b'[TOP]) by {
      FellIsNotGrown(b[TOP], b'[TOP]);
    }
    MoveGrowsIff(b, m);
    MovesKeepEntries(b, m, TOP);
    GrownIffAtLeast(b'[TOP], b[TOP]);
    WireIsAsBad(b'[TOP], b[TOP]);
  }

  /** Ten dollars go down to a:b and five are taken from a by an adjustment. */
  function Uncovered(): seq<Move> {
    Banker.TwoCreated() + [PutBudget(TOP, Dollars(10))] + [PutBalance(SUB, Dollars(10))] + [Adjust(TOP, Dollars(-5))]
  }

  lemma UncoveredStands()
    ensures Standing(Execute(Uncovered()), -5, 0, 0, 10, 0, 0)
  {
    hide Standing, Apply, Dollars;
    var m0 := Banker.TwoCreated();
    Banker.TwoCreatedIs();
    var m1 := m0 + [PutBudget(TOP, Dollars(10))];
    var m2 := m1 + [PutBalance(SUB, Dollars(10))];
    RunSnoc(map[], m0, PutBudget(TOP, Dollars(10)));
    BudgetStands(Execute(m0), 10);
    RunSnoc(map[], m1, PutBalance(SUB, Dollars(10)));
    BalanceStands(Execute(m1), 10, 10, 0, 0, 0, 0, 0);
    RunSnoc(map[], m2, Adjust(TOP, Dollars(-5)));
    AdjustStands(Execute(m2), -5, 0, 0, 0, 10, 0, 0);
  }

  /** The same request for the balance a:b already has, when no recycled money was
      handed down before: the closing checks throw, but a:b is left with recycledIn
      at -5, and from then on refuses every snapshot of its shadow. */
  lemma AskingAgainBreaks()
    ensures var b := Execute(Uncovered());
            var b' := Apply(b, PutBalance(SUB, Dollars(10)));
            && {TOP, SUB} <= b.Keys && {TOP, SUB} <= b'.Keys
            && Sound(b[TOP]) && Sound(b[SUB]) && At(b[SUB].balance, CC_USD) == 10
            && At(b'[SUB].recycledIn, CC_USD) == -5 && !CheckInvariants(b'[SUB])
            && forall s :: !MaySync(s, b'[SUB])
  {
    hide Uncovered, CheckInvariants, Execute, Sound, Stands, PlanTransfer, MoveChild, MoveParent, RequiredIn, Edge,
         Single, MaySync;
    var b := Execute(Uncovered());
    UncoveredStands();
    SubHasParent(b);
    StandsIs(b[TOP], -5, 0, 0);
    StandsIs(b[SUB], 10, 0, 0);
    assert StandsAt(b[TOP], -5, 0, 0, CC_USD) && StandsAt(b[SUB], 10, 0, 0, CC_USD);
    CheckInvariantsIsSound(b[SUB]);
    var t := PlanTransfer(b[SUB], b[TOP], Dollars(10));
    AskedFor(b[SUB], 10);
    PlanAt(b[SUB], b[TOP], Dollars(10), CC_USD);
    MoveAt(b[SUB], b[TOP], t, CC_USD);
    EdgeIs(b, SUB, t);
    var a := MoveChild(b[SUB], t);
    assert !Sound(a) by {
      NegativeIsNotSound(a);
    }
    CheckInvariantsIsSound(a);
    forall s ensures !MaySync(s, a) {
      MaySyncIff(s, a);
    }
  }

  lemma NegativeIsNotSound(a: Acct)
    requires At(a.recycledIn, CC_USD) < 0
    ensures !Sound(a)
  {
  }

  lemma FellIsNotGrown(a: Acct, b: Acct)
    requires At(b.recycledOut, CC_USD) < At(a.recycledOut, CC_USD)
    ensures !CountersGrow(a, b)
  {
  }
}
