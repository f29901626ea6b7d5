/** What the banker reports about its accounts: summaries of whole subtrees, the
  consistency check, and the recycled money that crossed an edge. All of them
  recurse over the children, in no particular order.
 */
module Reports {
  import opened Common
  import opened Currency
  import opened AccountSpec
  import opened AccountLaws
  import opened Sums
  import opened Ledger
  import opened LedgerTheorems

  // ---------------------------------------------------------------- summaries

  datatype Summary = Summary(
    budget: Pool,
    inFlight: Pool,
    spent: Pool,
    adjustments: Pool,
    adjustedSpent: Pool,
    effectiveBudget: Pool,
    available: Pool,
    account: Acct,
    subAccounts: map<string, Summary>)

  function Last(k: Key): string
    requires k != []
  {
    k[|k| - 1]
  }

  /** Each of the columns a summary adds up: over the accounts of `tree`. */
  ghost predicate TotalsAt(s: Summary, b: Book, tree: set<Key>, c: Code) {
    && At(s.effectiveBudget, c) == Sum(tree, Col(b, EffectiveColumn, c))
    && At(s.inFlight, c) == Sum(tree, Col(b, InFlightColumn, c))
    && At(s.spent, c) == Sum(tree, Col(b, SpentColumn, c))
    && At(s.adjustments, c) == Sum(tree, Col(b, AdjustmentColumn, c))
  }

  /** A finished summary of k. */
  ghost predicate SummaryAt(s: Summary, b: Book, k: Key, c: Code)
    requires k in b
  {
    && TotalsAt(s, b, Subtree(b, k), c)
    && At(s.budget, c) == At(b[k].budgetIncreases, c) - At(b[k].budgetDecreases, c)
    && At(s.adjustedSpent, c) == At(s.spent, c) - At(s.adjustments, c)
    && At(s.available, c) == At(s.effectiveBudget, c) - At(s.adjustedSpent, c) - At(s.inFlight, c)
  }

  predicate Deeper(depth: int, maxDepth: int) {
    maxDepth == -1 || depth < maxDepth
  }

  /** s is the summary of k: the totals are those of the whole subtree whatever
      maxDepth is; only the listing of sub-accounts ends at that depth. */
  ghost predicate Describes(s: Summary, b: Book, k: Key, depth: int, maxDepth: int)
    requires Tree(b) && k in b
    decreases Longest(b.Keys) - |k|
  {
    assert NodeOk(b, k);
    && s.account == b[k]
    && (forall c :: SummaryAt(s, b, k, c))
    && s.subAccounts.Keys == (if Deeper(depth, maxDepth) then set ch | ch in b[k].children :: Last(ch) else {})
    && forall ch | ch in b[k].children && Deeper(depth, maxDepth) ::
         Describes(s.subAccounts[Last(ch)], b, ch, depth + 1, maxDepth)
  }

  /** The summary before any child was added. */
  function OwnSummary(a: Acct): (s: Summary)
    ensures s.account == a && s.subAccounts == map[]
    ensures forall c {:trigger At(s.budget, c)} ::
              At(s.budget, c) == At(a.budgetIncreases, c) - At(a.budgetDecreases, c)
  {
    Summary(Sub(a.budgetIncreases, a.budgetDecreases),
            Sub(a.commitmentsMade, a.commitmentsRetired),
            a.spent,
            Sub(a.adjustmentsIn, a.adjustmentsOut),
            map[],
            Sub(Add(Sub(Add(Sub(a.budgetIncreases, a.budgetDecreases), a.recycledIn), a.recycledOut), a.allocatedIn),
                a.allocatedOut),
            map[], a, map[])
  }

  lemma OwnIs(a: Acct, c: Code)
    ensures OwnAt(OwnSummary(a), a, c)
  {
    hide Add, Sub;
  }

  ghost predicate OwnAt(s: Summary, a: Acct, c: Code) {
    && At(s.effectiveBudget, c) == Value(a, EffectiveColumn, c)
    && At(s.inFlight, c) == Value(a, InFlightColumn, c)
    && At(s.spent, c) == Value(a, SpentColumn, c)
    && At(s.adjustments, c) == Value(a, AdjustmentColumn, c)
  }

  /** `addChild`. */
  function AddChild(s: Summary, name: string, child: Summary, addInSubaccounts: bool): Summary {
    s.(subAccounts := if addInSubaccounts then s.subAccounts[name := child] else s.subAccounts,
       effectiveBudget := Add(s.effectiveBudget, child.effectiveBudget),
       inFlight := Add(s.inFlight, child.inFlight),
       spent := Add(s.spent, child.spent),
       adjustments := Add(s.adjustments, child.adjustments))
  }

  lemma AddChildAt(s: Summary, name: string, child: Summary, listed: bool, b: Book, t: set<Key>, u: set<Key>, c: Code)
    requires TotalsAt(s, b, t, c) && TotalsAt(child, b, u, c) && t !! u
    ensures TotalsAt(AddChild(s, name, child, listed), b, t + u, c)
  {
    hide Add, Sum, Col;
    SumUnion(t, u, Col(b, EffectiveColumn, c));
    SumUnion(t, u, Col(b, InFlightColumn, c));
    SumUnion(t, u, Col(b, SpentColumn, c));
    SumUnion(t, u, Col(b, AdjustmentColumn, c));
  }

  lemma OwnTotals(b: Book, k: Key, c: Code)
    requires k in b
    ensures TotalsAt(OwnSummary(b[k]), b, {k}, c)
  {
    hide OwnSummary, Sum;
    OwnIs(b[k], c);
    SumSingle(k, Col(b, EffectiveColumn, c));
    SumSingle(k, Col(b, InFlightColumn, c));
    SumSingle(k, Col(b, SpentColumn, c));
    SumSingle(k, Col(b, AdjustmentColumn, c));
  }

  /** The children added so far with all that is below them, and the rest. */
  lemma NextSubtree(b: Book, k: Key, done: set<Key>, ch: Key)
    requires Tree(b) && k in b && done <= b[k].children && ch in b[k].children && ch !in done
    ensures {k} + Under(b, done) + Subtree(b, ch) == {k} + Under(b, done + {ch})
    ensures {k} + Under(b, done) !! Subtree(b, ch)
  {
    assert NodeOk(b, k);
    UnderSplits(b, |k| + 1, done + {ch}, ch);
    assert done + {ch} - {ch} == done;
  }

  lemma NamesDiffer(b: Book, k: Key, x: Key, y: Key)
    requires Tree(b) && k in b && x in b[k].children && y in b[k].children && x != y
    ensures x != [] && y != [] && Last(x) != Last(y)
  {
    assert NodeOk(b, k);
    assert x == Parent(x) + [Last(x)] && y == Parent(y) + [Last(y)];
  }

  /** What holds of the summary under way once the children in `done` are in. */
  ghost predicate Partly(s: Summary, b: Book, k: Key, done: set<Key>, depth: int, maxDepth: int)
    requires Tree(b) && k in b && done <= b[k].children
  {
    assert NodeOk(b, k);
    && s.account == b[k]
    && (forall c {:trigger At(s.budget, c)} ::
          At(s.budget, c) == At(b[k].budgetIncreases, c) - At(b[k].budgetDecreases, c))
    && (forall c :: TotalsAt(s, b, {k} + Under(b, done), c))
    && s.subAccounts.Keys == (if Deeper(depth, maxDepth) then set ch | ch in done :: Last(ch) else {})
    && forall ch | ch in done && Deeper(depth, maxDepth) ::
         Describes(s.subAccounts[Last(ch)], b, ch, depth + 1, maxDepth)
  }

  lemma OneMoreTotal(s: Summary, b: Book, k: Key, done: set<Key>, ch: Key, child: Summary, depth: int, maxDepth: int)
    requires Tree(b) && k in b && done <= b[k].children && ch in b[k].children && ch !in done && ch != []
    requires Partly(s, b, k, done, depth, maxDepth) && ch in b && Describes(child, b, ch, depth + 1, maxDepth)
    ensures forall c :: TotalsAt(AddChild(s, Last(ch), child, Deeper(depth, maxDepth)), b,
                                 {k} + Under(b, done + {ch}), c)
  {
    hide Sum, Add, Under, Subtree, TotalsAt, Tree, AddChild;
    NextSubtree(b, k, done, ch);
    forall c ensures TotalsAt(AddChild(s, Last(ch), child, Deeper(depth, maxDepth)), b,
                              {k} + Under(b, done + {ch}), c) {
      assert SummaryAt(child, b, ch, c);
      AddChildAt(s, Last(ch), child, Deeper(depth, maxDepth), b, {k} + Under(b, done), Subtree(b, ch), c);
    }
  }

  lemma OneMoreChild(s: Summary, b: Book, k: Key, done: set<Key>, ch: Key, child: Summary, depth: int, maxDepth: int)
    requires Tree(b) && k in b && done <= b[k].children && ch in b[k].children && ch !in done
    requires Partly(s, b, k, done, depth, maxDepth) && ch in b && Describes(child, b, ch, depth + 1, maxDepth)
    ensures ch != []
    ensures Partly(AddChild(s, Last(ch), child, Deeper(depth, maxDepth)), b, k, done + {ch}, depth, maxDepth)
  {
    hide Sum, Add, Under, Subtree, TotalsAt, Tree, Describes;
    assert ch != [] by {
      AreNodes(b, k);
    }
    OneMoreTotal(s, b, k, done, ch, child, depth, maxDepth);
    forall x | x in done ensures x != [] && Last(x) != Last(ch) {
      NamesDiffer(b, k, x, ch);
    }
  }

  lemma AreNodes(b: Book, k: Key)
    requires Tree(b) && k in b
    ensures NodeOk(b, k)
  {
  }

  /** `getAccountSummaryImpl`; None is the exception for an unknown account. */
  method GetAccountSummaryImpl(accounts: Book, account: Key, depth: int, maxDepth: int) returns (r: Option<Summary>)
    requires Tree(accounts)
    ensures r.Some? <==> account in accounts
    ensures r.Some? ==> Describes(r.value, accounts, account, depth, maxDepth)
    decreases Longest(accounts.Keys) - |account|
  {
    hide Sum, Add, Sub, Col, Subtree, Under, TotalsAt, Describes;
    if account !in accounts {
      return None;
    }
    var a := accounts[account];
    assert NodeOk(accounts, account);
    var result := OwnSummary(a);
    forall c ensures TotalsAt(result, accounts, {account} + Under(accounts, {}), c) {
      OwnTotals(accounts, account, c);
      NothingUnder(accounts, account);
    }
    var todo := a.children;
    ghost var done := {};
    while todo != {}
      invariant done !! todo && done + todo == a.children
      invariant Partly(result, accounts, account, done, depth, maxDepth)
    {
      var child :| child in todo;
      var childSummary := GetAccountSummaryImpl(accounts, child, depth + 1, maxDepth);
      OneMoreChild(result, accounts, account, done, child, childSummary.value, depth, maxDepth);
      result := AddChild(result, Last(child), childSummary.value, maxDepth == -1 || depth < maxDepth);
      todo, done := todo - {child}, done + {child};
    }
    assert done == a.children;
    var adjustedSpent := Sub(result.spent, result.adjustments);
    var available := Sub(Sub(result.effectiveBudget, adjustedSpent), result.inFlight);
    Finished(result, accounts, account, depth, maxDepth, adjustedSpent, available);
    r := Some(result.(adjustedSpent := adjustedSpent, available := available));
  }

  lemma NothingUnder(b: Book, k: Key)
    ensures {k} + Under(b, {}) == {k}
  {
  }

  lemma {:induction false} Finished(s: Summary, b: Book, k: Key, depth: int, maxDepth: int, adjustedSpent: Pool,
                                    available: Pool)
    requires Tree(b) && k in b && Partly(s, b, k, b[k].children, depth, maxDepth)
    requires adjustedSpent == Sub(s.spent, s.adjustments)
    requires available == Sub(Sub(s.effectiveBudget, adjustedSpent), s.inFlight)
    ensures Describes(s.(adjustedSpent := adjustedSpent, available := available), b, k, depth, maxDepth)
  {
    hide Sum, Col, Sub, Under, Subtree, Tree;
    SubtreeSplits(b, k);
    var s' := s.(adjustedSpent := adjustedSpent, available := available);
    forall c ensures SummaryAt(s', b, k, c) {
      assert TotalsAt(s, b, {k} + Under(b, b[k].children), c);
    }
  }

  /** In a banker's map what a summary calls available is what is left: the sum of
      the balances of all accounts of the subtree, at any depth limit; and the
      effective budget of a top-level account is its own budget. */
  lemma AvailableIsWhatIsLeft(s: Summary, b: Book, k: Key, depth: int, maxDepth: int, c: Code)
    requires Inv(b) && k in b && Describes(s, b, k, depth, maxDepth)
    ensures At(s.available, c) == Sum(Subtree(b, k), Col(b, BalanceColumn, c))
    ensures |k| == 1 ==> At(s.effectiveBudget, c) == At(s.budget, c)
  {
    hide Sum, Col;
    assert SummaryAt(s, b, k, c);
    forall j | j in Subtree(b, k) ensures BalancedAt(b[j], c) {
      InvBalanced(b, j, c);
    }
    BalancesAddUp(b, Subtree(b, k), c);
    if |k| == 1 {
      TreeConserves(b, k, c);
    }
  }

  // -------------------------------------------------------- consistency check

  ghost predicate AllocationMatches(b: Book, k: Key)
    requires k in b
  {
    forall c :: At(b[k].allocatedOut, c) == Sum(b[k].children, Col(b, BudgetColumn, c))
  }

  /** Whether a check of k that starts at `level` looks at j. */
  predicate Visited(k: Key, j: Key, level: int, maxRecursion: int) {
    k <= j && (j == k || maxRecursion == -1 || level + |j| - |k| <= maxRecursion)
  }

  ghost predicate Consistent(b: Book, k: Key, level: int, maxRecursion: int) {
    forall j | j in b && Visited(k, j, level, maxRecursion) :: AllocationMatches(b, j)
  }

  lemma ConsistentIff(b: Book, k: Key, level: int, maxRecursion: int)
    requires Tree(b) && k in b
    ensures Consistent(b, k, level, maxRecursion)
            <==> AllocationMatches(b, k)
                 && (Deeper(level, maxRecursion) ==>
                       forall ch | ch in b[k].children :: Consistent(b, ch, level + 1, maxRecursion))
  {
    hide AllocationMatches;
    assert NodeOk(b, k) && Visited(k, k, level, maxRecursion);
    forall j | j in b && Visited(k, j, level, maxRecursion) && j != k
      ensures Deeper(level, maxRecursion)
              && exists ch :: ch in b[k].children && Visited(ch, j, level + 1, maxRecursion)
    {
      Ancestor(b, j, |k|);
      assert j[..|k|] == k;
      assert Visited(j[..|k| + 1], j, level + 1, maxRecursion);
    }
  }

  /** `checkBudgetConsistencyImpl` finds whether every account it visits has
      allocated what its children have got as budget, in every currency. */
  method CheckBudgetConsistencyImpl(accounts: Book, k: Key, maxRecursion: int, level: int) returns (ok: bool)
    requires Tree(accounts) && k in accounts
    ensures ok <==> Consistent(accounts, k, level, maxRecursion)
    decreases Longest(accounts.Keys) - |k|
  {
    hide Sum, Add, Col, AllocationMatches, Consistent;
    var account := accounts[k];
    assert NodeOk(accounts, k);
    ConsistentIff(accounts, k, level, maxRecursion);
    var sumBudgetInc := SumBudgets(accounts, account.children);
    SameSums(accounts, k, sumBudgetInc);
    if !Equal(account.allocatedOut, sumBudgetInc) {
      return false;
    }
    if maxRecursion == -1 || level < maxRecursion {
      var todo := account.children;
      while todo != {}
        invariant todo <= account.children
        invariant forall ch | ch in account.children :: ch in todo || Consistent(accounts, ch, level + 1, maxRecursion)
      {
        var child :| child in todo;
        var consistent := CheckBudgetConsistencyImpl(accounts, child, maxRecursion, level + 1);
        if !consistent {
          return false;
        }
        todo := todo - {child};
      }
    }
    ok := true;
  }

  method SumBudgets(accounts: Book, children: set<Key>) returns (sum: Pool)
    requires children <= accounts.Keys
    ensures forall c :: At(sum, c) == Sum(children, Col(accounts, BudgetColumn, c))
  {
    hide Sum, Add;
    sum := map[];
    forall c ensures Sum({}, Col(accounts, BudgetColumn, c)) == 0 {
      SumZero({}, Col(accounts, BudgetColumn, c));
    }
    var todo := children;
    ghost var done := {};
    while todo != {}
      invariant done !! todo && done + todo == children
      invariant forall c :: At(sum, c) == Sum(done, Col(accounts, BudgetColumn, c))
    {
      var child :| child in todo;
      ghost var before := sum;
      sum := Add(sum, accounts[child].budgetIncreases);
      forall c ensures At(sum, c) == Sum(done + {child}, Col(accounts, BudgetColumn, c)) {
        SumInsert(done, Col(accounts, BudgetColumn, c), child);
      }
      todo, done := todo - {child}, done + {child};
    }
    assert done == children;
  }

  lemma SameSums(b: Book, k: Key, sum: Pool)
    requires k in b && forall c :: At(sum, c) == Sum(b[k].children, Col(b, BudgetColumn, c))
    ensures Equal(b[k].allocatedOut, sum) <==> AllocationMatches(b, k)
  {
    hide Sum, Col;
    assert Equal(b[k].allocatedOut, sum) <==> Same(b[k].allocatedOut, sum);
    if AllocationMatches(b, k) {
      forall c ensures At(b[k].allocatedOut, c) == At(sum, c) {
      }
    }
  }

  /** In every banker's map the check succeeds, at every depth limit. */
  lemma BudgetsAreConsistent(b: Book, k: Key, level: int, maxRecursion: int)
    requires Inv(b) && k in b
    ensures Consistent(b, k, level, maxRecursion)
    ensures forall j | j in b :: AllocationMatches(b, j)
  {
    forall j, c | j in b ensures At(b[j].allocatedOut, c) == Sum(b[j].children, Col(b, BudgetColumn, c)) {
      assert LedgerAt(b, j, c);
    }
  }

  // ------------------------------------------------------ recycled up the tree

  /** `getRecycledUp` works out, from the counters alone, the recycled money that
      has crossed the edge above k so far, in each direction. */
  method GetRecycledUp(accounts: Book, k: Key) returns (recycledInUp: Pool, recycledOutUp: Pool)
    requires Inv(accounts) && k in accounts
    ensures Same(recycledInUp, accounts[k].crossedDown) && Same(recycledOutUp, accounts[k].crossedUp)
    ensures |k| == 1 ==> forall c :: At(recycledInUp, c) == At(recycledOutUp, c) == 0
    decreases Longest(accounts.Keys) - |k|
  {
    hide Sum, Add, Sub, Col;
    var account := accounts[k];
    assert NodeOk(accounts, k);
    var sumSubRecycledIn, sumSubRecycledOut := map[], map[];
    var todo := account.children;
    ghost var done := {};
    assert SumsAt(accounts, {}, map[], map[]) by {
      NothingSummed(accounts);
    }
    while todo != {}
      invariant done !! todo && done + todo == account.children
      invariant SumsAt(accounts, done, sumSubRecycledIn, sumSubRecycledOut)
    {
      var child :| child in todo;
      var subRecycledIn, subRecycledOut := GetRecycledUp(accounts, child);
      OneMoreSummed(accounts, done, child, sumSubRecycledIn, sumSubRecycledOut, subRecycledIn, subRecycledOut);
      sumSubRecycledIn := Add(sumSubRecycledIn, subRecycledIn);
      sumSubRecycledOut := Add(sumSubRecycledOut, subRecycledOut);
      todo, done := todo - {child}, done + {child};
    }
    assert done == account.children;
    recycledInUp := Sub(account.recycledIn, sumSubRecycledOut);
    recycledOutUp := Sub(account.recycledOut, sumSubRecycledIn);
    forall c
      ensures At(recycledInUp, c) == At(account.crossedDown, c) && At(recycledOutUp, c) == At(account.crossedUp, c)
      ensures |k| == 1 ==> At(recycledInUp, c) == At(recycledOutUp, c) == 0
    {
      assert LedgerAt(accounts, k, c);
      assert SumsAtOne(accounts, done, sumSubRecycledIn, sumSubRecycledOut, c);
    }
  }

  ghost predicate SumsAtOne(b: Book, s: set<Key>, sumIn: Pool, sumOut: Pool, c: Code) {
    At(sumIn, c) == Sum(s, Col(b, DownColumn, c)) && At(sumOut, c) == Sum(s, Col(b, UpColumn, c))
  }

  ghost predicate SumsAt(b: Book, s: set<Key>, sumIn: Pool, sumOut: Pool) {
    forall c :: SumsAtOne(b, s, sumIn, sumOut, c)
  }

  lemma NothingSummed(b: Book)
    ensures SumsAt(b, {}, map[], map[])
  {
    forall c ensures SumsAtOne(b, {}, map[], map[], c) {
      SumZero({}, Col(b, DownColumn, c));
      SumZero({}, Col(b, UpColumn, c));
    }
  }

  lemma OneMoreSummed(b: Book, s: set<Key>, k: Key, sumIn: Pool, sumOut: Pool, moreIn: Pool, moreOut: Pool)
    requires SumsAt(b, s, sumIn, sumOut) && k !in s && k in b
    requires Same(moreIn, b[k].crossedDown) && Same(moreOut, b[k].crossedUp)
    ensures SumsAt(b, s + {k}, Add(sumIn, moreIn), Add(sumOut, moreOut))
  {
    hide Add, Sum;
    forall c ensures SumsAtOne(b, s + {k}, Add(sumIn, moreIn), Add(sumOut, moreOut), c) {
      assert SumsAtOne(b, s, sumIn, sumOut, c);
      assert At(moreIn, c) == At(b[k].crossedDown, c) && At(moreOut, c) == At(b[k].crossedUp, c);
      SumInsert(s, Col(b, DownColumn, c), k);
      SumInsert(s, Col(b, UpColumn, c), k);
    }
  }
}
