/** What the invariants of the ledger mean for whole subtrees and whole runs. */
module LedgerTheorems {
  import opened Currency
  import opened AccountSpec
  import opened AccountLaws
  import opened ShadowSpec
  import opened Sums
  import opened Ledger

  // ---------------------------------------------------------------- subtrees

  ghost function Subtree(b: Book, k: Key): set<Key> {
    set j | j in b && k <= j
  }

  /** All accounts at or below one of the keys in s. */
  ghost function Under(b: Book, s: set<Key>): set<Key> {
    set j, ch | j in b && ch in s && ch <= j :: j
  }

  /** A bound on the depth of the tree, for recursion down it. */
  ghost function Longest(keys: set<Key>): (n: nat)
    ensures forall k | k in keys :: |k| <= n
  {
    if keys == {} then 0
    else
      var k :| k in keys;
      var n := Longest(keys - {k});
      assert forall j | j in keys :: j == k || j in keys - {k};
      if |k| > n then |k| else n
  }

  lemma {:induction false} Ancestor(b: Book, j: Key, n: nat)
    requires Tree(b) && j in b && 1 <= n < |j|
    ensures j[..n] in b && j[..n + 1] in b && j[..n + 1] in b[j[..n]].children
    decreases |j| - n
  {
    if n + 1 == |j| {
      assert NodeOk(b, j) && j[..n + 1] == j;
    } else {
      Ancestor(b, j, n + 1);
      assert NodeOk(b, j[..n + 1]);
      assert Parent(j[..n + 1]) == j[..n];
    }
  }

  lemma SubtreeSplits(b: Book, k: Key)
    requires Tree(b) && k in b
    ensures Subtree(b, k) == {k} + Under(b, b[k].children)
    ensures k !in Under(b, b[k].children)
  {
    assert NodeOk(b, k);
    forall j | j in Subtree(b, k) && j != k ensures j in Under(b, b[k].children) {
      Ancestor(b, j, |k|);
      assert j[..|k|] == k;
      assert j[..|k| + 1] <= j;
    }
  }

  /** The total of f over the subtree below each key. */
  ghost function TotalBelow(b: Book, f: Key -> int): Key -> int {
    j => Sum(Subtree(b, j), f)
  }

  lemma UnderSplits(b: Book, n: nat, s: set<Key>, x: Key)
    requires x in s && forall ch | ch in s :: |ch| == n
    ensures Under(b, s) == Under(b, s - {x}) + Subtree(b, x)
    ensures Under(b, s - {x}) !! Subtree(b, x)
  {
    forall j | j in Under(b, s) ensures j in Under(b, s - {x}) + Subtree(b, x) {
      var ch :| ch in s && ch <= j;
      assert ch != x ==> ch in s - {x};
    }
    forall j | j in Under(b, s - {x}) ensures !(x <= j) {
      var ch :| ch in s - {x} && ch <= j;
      assert j[..n] == ch != x;
    }
  }

  lemma {:induction false} SumUnder(b: Book, n: nat, s: set<Key>, f: Key -> int)
    requires forall ch | ch in s :: |ch| == n
    ensures Sum(Under(b, s), f) == Sum(s, TotalBelow(b, f))
  {
    if s == {} {
      assert Under(b, s) == {};
    } else {
      var x :| x in s;
      UnderSplits(b, n, s, x);
      SumUnder(b, n, s - {x}, f);
      SumUnion(Under(b, s - {x}), Subtree(b, x), f);
      SumRemove(s, TotalBelow(b, f), x);
    }
  }

  /** A total over a subtree is the root's part plus the children's totals. */
  lemma SubtreeSum(b: Book, k: Key, f: Key -> int)
    requires Tree(b) && k in b
    ensures Sum(Subtree(b, k), f) == f(k) + Sum(b[k].children, TotalBelow(b, f))
  {
    SubtreeSplits(b, k);
    assert NodeOk(b, k);
    SumUnder(b, |k| + 1, b[k].children, f);
    var u := Under(b, b[k].children);
    assert {k} + u == u + {k};
    SumInsert(u, f, k);
  }

  // ----------------------------------------------------------- conservation

  /** All that was handed out within a subtree cancels: the subtree as a whole
      holds its root's own budget plus the recycled money that crossed the edge
      above the root. */
  lemma {:induction false} SubtreeEffective(b: Book, k: Key, c: Code)
    requires Inv(b) && k in b
    ensures Sum(Subtree(b, k), Col(b, EffectiveColumn, c))
         == At(b[k].budgetIncreases, c) - At(b[k].budgetDecreases, c) + At(b[k].crossedDown, c) - At(b[k].crossedUp, c)
    decreases Longest(b.Keys) - |k|
  {
    hide Sum, Subtree, Col;
    var f, children := Col(b, EffectiveColumn, c), b[k].children;
    assert NodeOk(b, k) && LedgerAt(b, k, c);
    SubtreeSum(b, k, f);
    forall ch | ch in children
      ensures TotalBelow(b, f)(ch)
           == At(b[ch].budgetIncreases, c) + At(b[ch].crossedDown, c) - At(b[ch].crossedUp, c)
    {
      SubtreeEffective(b, ch, c);
      assert NodeOk(b, ch) && LedgerAt(b, ch, c);
    }
    ChildTotals(b, children, TotalBelow(b, f), c);
    assert f(k) == Value(b[k], EffectiveColumn, c) by {
      ColumnAt(b, EffectiveColumn, c, k);
    }
  }

  lemma ColumnAt(b: Book, col: Column, c: Code, k: Key)
    requires k in b
    ensures Col(b, col, c)(k) == Value(b[k], col, c)
  {
  }

  lemma ChildTotals(b: Book, children: set<Key>, g: Key -> int, c: Code)
    requires forall ch | ch in children :: ch in b
    requires forall ch | ch in children ::
               g(ch) == At(b[ch].budgetIncreases, c) + At(b[ch].crossedDown, c) - At(b[ch].crossedUp, c)
    ensures Sum(children, g) == Sum(children, Col(b, BudgetColumn, c)) + Sum(children, Col(b, DownColumn, c))
                                - Sum(children, Col(b, UpColumn, c))
  {
    var budgets, downs, ups := Col(b, BudgetColumn, c), Col(b, DownColumn, c), Col(b, UpColumn, c);
    var minusUps := (j: Key) => -ups(j);
    var net := (j: Key) => downs(j) - ups(j);
    SumPlus(children, budgets, net, g);
    SumPlus(children, downs, minusUps, net);
    SumNegated(children, ups, minusUps);
  }

  lemma {:induction false} SumNegated(s: set<Key>, f: Key -> int, g: Key -> int)
    requires forall x | x in s :: g(x) == -f(x)
    ensures Sum(s, g) == -Sum(s, f)
  {
    if s != {} {
      var x :| x in s;
      SumRemove(s, f, x);
      SumRemove(s, g, x);
      SumNegated(s - {x}, f, g);
    }
  }

  /** Credit equals debit in every account, so over any set of accounts what is
      effective and adjusted is what is left, spent or in flight. */
  lemma {:induction false} BalancesAddUp(b: Book, s: set<Key>, c: Code)
    requires forall j | j in s :: j in b && BalancedAt(b[j], c)
    ensures Sum(s, Col(b, EffectiveColumn, c)) + Sum(s, Col(b, AdjustmentColumn, c))
         == Sum(s, Col(b, BalanceColumn, c)) + Sum(s, Col(b, SpentColumn, c)) + Sum(s, Col(b, InFlightColumn, c))
  {
    if s != {} {
      hide Sum, Col;
      var j :| j in s;
      SumRemove(s, Col(b, EffectiveColumn, c), j);
      SumRemove(s, Col(b, AdjustmentColumn, c), j);
      SumRemove(s, Col(b, BalanceColumn, c), j);
      SumRemove(s, Col(b, SpentColumn, c), j);
      SumRemove(s, Col(b, InFlightColumn, c), j);
      ColumnsBalance(b, j, c);
      BalancesAddUp(b, s - {j}, c);
    }
  }

  lemma ColumnsBalance(b: Book, j: Key, c: Code)
    requires j in b && BalancedAt(b[j], c)
    ensures Col(b, EffectiveColumn, c)(j) + Col(b, AdjustmentColumn, c)(j)
         == Col(b, BalanceColumn, c)(j) + Col(b, SpentColumn, c)(j) + Col(b, InFlightColumn, c)(j)
  {
  }

  /** For each top-level account and currency: what is left, spent and in flight
      in its whole tree is the budget put into it plus the adjustments made in
      the tree. */
  lemma TreeConserves(b: Book, k: Key, c: Code)
    requires Inv(b) && k in b && |k| == 1
    ensures var tree := Subtree(b, k);
            var budget := At(b[k].budgetIncreases, c) - At(b[k].budgetDecreases, c);
            && Sum(tree, Col(b, EffectiveColumn, c)) == budget
            && Sum(tree, Col(b, BalanceColumn, c)) + Sum(tree, Col(b, SpentColumn, c))
               + Sum(tree, Col(b, InFlightColumn, c))
               == budget + Sum(tree, Col(b, AdjustmentColumn, c))
  {
    assert LedgerAt(b, k, c);
    SubtreeEffective(b, k, c);
    forall j | j in Subtree(b, k) ensures BalancedAt(b[j], c) {
      InvBalanced(b, j, c);
    }
    BalancesAddUp(b, Subtree(b, k), c);
  }

  /** Conservation over whole runs: it holds after any sequence of moves from the
      empty map, cut short anywhere. */
  lemma Conservation(ms: seq<Move>, k: Key, c: Code)
    requires k in Execute(ms) && |k| == 1
    ensures var b := Execute(ms);
            var tree := Subtree(b, k);
            Sum(tree, Col(b, BalanceColumn, c)) + Sum(tree, Col(b, SpentColumn, c))
            + Sum(tree, Col(b, InFlightColumn, c))
            == At(b[k].budgetIncreases, c) - At(b[k].budgetDecreases, c) + Sum(tree, Col(b, AdjustmentColumn, c))
  {
    hide Execute, Inv;
    RunsKeepInv(ms);
    TreeConserves(Execute(ms), k, c);
  }

  // ------------------------------------------------------- growing counters

  /** When a move lets no counter go down, as its caller can tell beforehand. */
  ghost predicate Steady(b: Book, m: Move) {
    match m
    case PutBudget(k, p) => k in b && |k| == 1 ==> OneSign(ExtraBudget(b[k], p))
    case PutBalance(k, p) => HasParent(b, k) && CheckInvariants(b[k]) ==> ParentCovers(b[k], b[Parent(k)], p)
    case Adjust(k, p) => k in b ==> OneSign(p)
    case _ => true
  }

  ghost predicate BooksGrow(b: Book, b': Book) {
    b.Keys <= b'.Keys && forall k | k in b :: CountersGrow(b[k], b'[k])
  }

  lemma SelfGrows(a: Acct)
    ensures CountersGrow(a, a)
  {
  }

  lemma OneChangeGrowsIff(b: Book, k: Key, a': Acct)
    requires k in b
    ensures BooksGrow(b, b[k := a']) <==> CountersGrow(b[k], a')
  {
    hide CountersGrow;
    forall j ensures j in b ==> CountersGrow(b[j], b[j]) {
      if j in b {
        SelfGrows(b[j]);
      }
    }
  }

  lemma EdgeGrowsIff(b: Book, k: Key, t: Transfer)
    requires HasParent(b, k)
    ensures BooksGrow(b, Edge(b, k, t))
            <==> CountersGrow(b[k], MoveChild(b[k], t)) && CountersGrow(b[Parent(k)], MoveParent(b[Parent(k)], t))
  {
    hide CountersGrow, Edge, MoveChild, MoveParent;
    EdgeIs(b, k, t);
    forall j ensures j in b ==> CountersGrow(b[j], b[j]) {
      if j in b {
        SelfGrows(b[j]);
      }
    }
  }

  lemma InsertGrows(b: Book, k: Key, kind: Kind)
    requires CanInsert(b, k, kind)
    ensures BooksGrow(b, Inserted(b, k, kind))
  {
    var b' := Inserted(b, k, kind);
    forall j | j in b ensures CountersGrow(b[j], b'[j]) {
      SelfGrows(b[j]);
    }
  }

  /** No counter of any account goes down in a move, exactly when the move is
      steady: one sign per change of budget or adjustment, and no transfer asked
      of a parent that is overdrawn in a requested currency. */
  lemma MoveGrowsIff(b: Book, m: Move)
    ensures BooksGrow(b, Apply(b, m)) <==> Steady(b, m)
  {
    hide Add, Sub, Limit, NonNegative, CheckInvariants, CountersGrow, Edge, Inserted, OneSign, ParentCovers,
         MoveChild, MoveParent, PlanTransfer, RecuperateTransfer, SetBudget, AddAdjustment, ImportSpend, SyncToMaster,
         MaySync, MayImport, BooksGrow, ExtraBudget;
    match m {
      case Insert(k, kind) =>
        if CanInsert(b, k, kind) {
          InsertGrows(b, k, kind);
        } else {
          BookGrowsItself(b);
        }
      case PutBudget(k, p) =>
        if k in b && |k| == 1 {
          OneChangeGrowsIff(b, k, SetBudget(b[k], p));
          SetBudgetGrowsCountersIff(b[k], p);
        } else {
          BookGrowsItself(b);
        }
      case PutBalance(k, p) =>
        if HasParent(b, k) && CheckInvariants(b[k]) {
          EdgeGrowsIff(b, k, PlanTransfer(b[k], b[Parent(k)], p));
          SetBalanceGrowsCountersIff(b[k], b[Parent(k)], p);
        } else {
          BookGrowsItself(b);
        }
      case Recuperate(k) =>
        if HasParent(b, k) {
          EdgeGrowsIff(b, k, RecuperateTransfer(b[k]));
          RecuperateGrows(b[k], b[Parent(k)]);
        } else {
          BookGrowsItself(b);
        }
      case Adjust(k, p) =>
        if k in b {
          OneChangeGrowsIff(b, k, AddAdjustment(b[k], p));
          AddAdjustmentGrowsCountersIff(b[k], p);
        } else {
          BookGrowsItself(b);
        }
      case Import(k, p) =>
        if k in b && MayImport(b[k], p) {
          OneChangeGrowsIff(b, k, ImportSpend(b[k], p));
          ImportSpendCompletes(b[k], p);
        } else {
          BookGrowsItself(b);
        }
      case Sync(k, s) =>
        if k in b && MaySync(s, b[k]) {
          OneChangeGrowsIff(b, k, SyncToMaster(s, b[k]));
          SyncCompletes(s, b[k]);
        } else {
          BookGrowsItself(b);
        }
      case Mark(k, st) =>
        if k in b {
          OneChangeGrowsIff(b, k, b[k].(status := st));
          MarkGrows(b[k], st);
        } else {
          BookGrowsItself(b);
        }
    }
  }

  lemma RecuperateGrows(child: Acct, parent: Acct)
    ensures CountersGrow(child, MoveChild(child, RecuperateTransfer(child)))
    ensures CountersGrow(parent, MoveParent(parent, RecuperateTransfer(child)))
  {
    hide Add, Sub, Limit, NonNegative;
    NonNegativeMoveGrows(child, parent, RecuperateTransfer(child));
  }

  lemma MarkGrows(a: Acct, st: Status)
    ensures CountersGrow(a, a.(status := st))
  {
  }

  lemma BookGrowsItself(b: Book)
    ensures BooksGrow(b, b)
  {
    hide CountersGrow;
    forall k | k in b ensures CountersGrow(b[k], b[k]) {
      SelfGrows(b[k]);
    }
  }

  lemma GrowthIsTransitive(a: Acct, b: Acct, d: Acct)
    requires CountersGrow(a, b) && CountersGrow(b, d)
    ensures CountersGrow(a, d)
  {
    BelowTrans(a.budgetIncreases, b.budgetIncreases, d.budgetIncreases);
    BelowTrans(a.budgetDecreases, b.budgetDecreases, d.budgetDecreases);
    BelowTrans(a.recycledIn, b.recycledIn, d.recycledIn);
    BelowTrans(a.allocatedIn, b.allocatedIn, d.allocatedIn);
    BelowTrans(a.commitmentsRetired, b.commitmentsRetired, d.commitmentsRetired);
    BelowTrans(a.adjustmentsIn, b.adjustmentsIn, d.adjustmentsIn);
    BelowTrans(a.recycledOut, b.recycledOut, d.recycledOut);
    BelowTrans(a.allocatedOut, b.allocatedOut, d.allocatedOut);
    BelowTrans(a.commitmentsMade, b.commitmentsMade, d.commitmentsMade);
    BelowTrans(a.adjustmentsOut, b.adjustmentsOut, d.adjustmentsOut);
    BelowTrans(a.spent, b.spent, d.spent);
  }

  lemma BelowTrans(p: Pool, q: Pool, r: Pool)
    requires Below(p, q) && Below(q, r)
    ensures Below(p, r)
  {
    forall c ensures At(p, c) <= At(r, c) {
      assert At(p, c) <= At(q, c) && At(q, c) <= At(r, c);
    }
  }

  /** Every move of the sequence is steady in the map it meets. */
  ghost predicate SteadyRun(b: Book, ms: seq<Move>) {
    ms != [] ==>
      var front := ms[..|ms| - 1];
      SteadyRun(b, front) && Steady(Run(b, front), ms[|ms| - 1])
  }

  /** Along a steady run no counter of any account ever goes down, so a later
      account always passes `isSameOrPastVersion` against an earlier one. */
  lemma {:induction false} SteadyRunsGrow(b: Book, ms: seq<Move>)
    requires SteadyRun(b, ms)
    ensures BooksGrow(b, Run(b, ms))
    ensures forall k | k in b :: AtLeast(Run(b, ms)[k], b[k])
  {
    hide CountersGrow, Apply, Steady, AtLeast;
    if ms == [] {
      BookGrowsItself(b);
    } else {
      var front := ms[..|ms| - 1];
      SteadyRunsGrow(b, front);
      MoveGrowsIff(Run(b, front), ms[|ms| - 1]);
      forall k | k in b ensures CountersGrow(b[k], Run(b, ms)[k]) {
        GrowthIsTransitive(b[k], Run(b, front)[k], Run(b, ms)[k]);
      }
    }
    forall k | k in b ensures AtLeast(Run(b, ms)[k], b[k]) {
      GrownIsAtLeast(Run(b, ms)[k], b[k]);
    }
  }
}
