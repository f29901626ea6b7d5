/** One account of the ledger: eleven counters, the balance they imply, and the
  operations that move money in it or between it and its parent.

  The functions give the new account together with whether the operation came
  to its end; an operation whose closing check fails throws in the source and
  leaves what it has already written behind, so both are given here.
 */
module AccountSpec {
  import opened Currency

  type Key = seq<string>

  datatype Kind = AT_NONE | AT_BUDGET | AT_SPEND

  datatype Status = CLOSED | ACTIVE

  type LineItems = map<string, Pool>

  ghost predicate SameItems(x: LineItems, y: LineItems) {
    x.Keys == y.Keys && forall name | name in x :: Same(x[name], y[name])
  }

  /** `children` belongs to the account's entry in the banker's map. The last two
      fields are history: the recycled money that crossed the edge to the parent
      so far, down from the parent and up to it. No operation reads them. */
  datatype Acct = Acct(
    kind: Kind,
    status: Status,
    budgetIncreases: Pool,
    budgetDecreases: Pool,
    recycledIn: Pool,
    allocatedIn: Pool,
    commitmentsRetired: Pool,
    adjustmentsIn: Pool,
    recycledOut: Pool,
    allocatedOut: Pool,
    commitmentsMade: Pool,
    adjustmentsOut: Pool,
    spent: Pool,
    balance: Pool,
    lineItems: LineItems,
    children: set<Key>,
    crossedDown: Pool,
    crossedUp: Pool)

  function NewAcct(kind: Kind): Acct {
    Acct(kind, ACTIVE, map[], map[], map[], map[], map[], map[], map[], map[], map[], map[], map[], map[],
         map[], {}, map[], map[])
  }

  ghost function Credit(a: Acct, c: Code): int {
    At(a.budgetIncreases, c) + At(a.recycledIn, c) + At(a.commitmentsRetired, c) + At(a.adjustmentsIn, c)
    + At(a.allocatedIn, c)
  }

  /** The debit side without the balance. */
  ghost function Debit(a: Acct, c: Code): int {
    At(a.budgetDecreases, c) + At(a.recycledOut, c) + At(a.commitmentsMade, c) + At(a.spent, c)
    + At(a.adjustmentsOut, c) + At(a.allocatedOut, c)
  }

  ghost predicate BalancedAt(a: Acct, c: Code) {
    Credit(a, c) == Debit(a, c) + At(a.balance, c)
  }

  ghost predicate Balanced(a: Acct) {
    forall c :: BalancedAt(a, c)
  }

  ghost predicate NeverNegative(p: Pool) {
    forall c :: At(p, c) >= 0
  }

  /** All eleven counters are non-negative in every currency. */
  ghost predicate NonNegativeCounters(a: Acct) {
    && NeverNegative(a.budgetIncreases)
    && NeverNegative(a.budgetDecreases)
    && NeverNegative(a.recycledIn)
    && NeverNegative(a.allocatedIn)
    && NeverNegative(a.commitmentsRetired)
    && NeverNegative(a.adjustmentsIn)
    && NeverNegative(a.recycledOut)
    && NeverNegative(a.allocatedOut)
    && NeverNegative(a.commitmentsMade)
    && NeverNegative(a.adjustmentsOut)
    && NeverNegative(a.spent)
  }

  ghost predicate Sound(a: Acct) {
    Balanced(a) && NonNegativeCounters(a)
  }

  function CreditPool(a: Acct): Pool {
    Add(Add(Add(Add(a.budgetIncreases, a.recycledIn), a.commitmentsRetired), a.adjustmentsIn), a.allocatedIn)
  }

  function DebitPool(a: Acct): Pool {
    Add(Add(Add(Add(Add(Add(a.budgetDecreases, a.recycledOut), a.commitmentsMade), a.spent), a.adjustmentsOut),
            a.balance), a.allocatedOut)
  }

  predicate CountersAreNonNegative(a: Acct) {
    && IsNonNegative(a.budgetIncreases)
    && IsNonNegative(a.budgetDecreases)
    && IsNonNegative(a.recycledIn)
    && IsNonNegative(a.allocatedIn)
    && IsNonNegative(a.commitmentsRetired)
    && IsNonNegative(a.adjustmentsIn)
    && IsNonNegative(a.recycledOut)
    && IsNonNegative(a.allocatedOut)
    && IsNonNegative(a.commitmentsMade)
    && IsNonNegative(a.adjustmentsOut)
    && IsNonNegative(a.spent)
  }

  /** `checkInvariants`: no counter is negative, and the two sides agree. */
  predicate CheckInvariants(a: Acct) {
    CountersAreNonNegative(a) && Equal(CreditPool(a), DebitPool(a))
  }

  lemma SidesAt(a: Acct, c: Code)
    ensures At(CreditPool(a), c) == Credit(a, c)
    ensures At(DebitPool(a), c) == Debit(a, c) + At(a.balance, c)
  {
  }

  lemma SidesAgree(a: Acct)
    ensures Equal(CreditPool(a), DebitPool(a)) <==> Balanced(a)
  {
    var l, r := CreditPool(a), DebitPool(a);
    forall c ensures At(l, c) == At(r, c) <==> BalancedAt(a, c) {
      SidesAt(a, c);
    }
    assert Equal(l, r) <==> Same(l, r);
  }

  lemma CountersAreNonNegativeAt(a: Acct)
    ensures CountersAreNonNegative(a) <==> NonNegativeCounters(a)
  {
    NonNegativeAt(a.budgetIncreases);
    NonNegativeAt(a.budgetDecreases);
    NonNegativeAt(a.recycledIn);
    NonNegativeAt(a.allocatedIn);
    NonNegativeAt(a.commitmentsRetired);
    NonNegativeAt(a.adjustmentsIn);
    NonNegativeAt(a.recycledOut);
    NonNegativeAt(a.allocatedOut);
    NonNegativeAt(a.commitmentsMade);
    NonNegativeAt(a.adjustmentsOut);
    NonNegativeAt(a.spent);
  }

  /** The check passes exactly for accounts that are sound in every currency. */
  lemma CheckInvariantsIsSound(a: Acct)
    ensures CheckInvariants(a) <==> Sound(a)
  {
    SidesAgree(a);
    CountersAreNonNegativeAt(a);
  }

  ghost predicate Below(p: Pool, q: Pool) {
    forall c :: At(p, c) <= At(q, c)
  }

  /** No counter of a is above the same counter of b, in any currency. */
  ghost predicate CountersGrow(a: Acct, b: Acct) {
    && Below(a.budgetIncreases, b.budgetIncreases)
    && Below(a.budgetDecreases, b.budgetDecreases)
    && Below(a.recycledIn, b.recycledIn)
    && Below(a.allocatedIn, b.allocatedIn)
    && Below(a.commitmentsRetired, b.commitmentsRetired)
    && Below(a.adjustmentsIn, b.adjustmentsIn)
    && Below(a.recycledOut, b.recycledOut)
    && Below(a.allocatedOut, b.allocatedOut)
    && Below(a.commitmentsMade, b.commitmentsMade)
    && Below(a.adjustmentsOut, b.adjustmentsOut)
    && Below(a.spent, b.spent)
  }

  /** `isSameOrPastVersion`: a against the stored account b. */
  predicate AtLeast(a: Acct, b: Acct) {
    && Covers(a.budgetIncreases, b.budgetIncreases)
    && Covers(a.budgetDecreases, b.budgetDecreases)
    && Covers(a.recycledIn, b.recycledIn)
    && Covers(a.allocatedIn, b.allocatedIn)
    && Covers(a.commitmentsRetired, b.commitmentsRetired)
    && Covers(a.adjustmentsIn, b.adjustmentsIn)
    && Covers(a.recycledOut, b.recycledOut)
    && Covers(a.allocatedOut, b.allocatedOut)
    && Covers(a.commitmentsMade, b.commitmentsMade)
    && Covers(a.adjustmentsOut, b.adjustmentsOut)
    && Covers(a.spent, b.spent)
  }

  lemma BelowIsCovered(p: Pool, q: Pool)
    requires Below(p, q)
    ensures Covers(q, p)
  {
    forall c | c in q ensures q[c] >= At(p, c) {
      assert At(p, c) <= At(q, c);
    }
  }

  /** Every amount above zero in p has an entry in q. */
  ghost predicate HasEntries(q: Pool, p: Pool) {
    forall c :: At(p, c) > 0 ==> c in q
  }

  lemma BelowIffCovered(p: Pool, q: Pool)
    ensures Below(p, q) <==> Covers(q, p) && HasEntries(q, p)
  {
    if Below(p, q) {
      BelowIsCovered(p, q);
      forall c | At(p, c) > 0 ensures c in q {
        assert At(p, c) <= At(q, c);
      }
    }
    if Covers(q, p) && HasEntries(q, p) {
      forall c ensures At(p, c) <= At(q, c) {
      }
    }
  }

  /** Every amount above zero in a stored account b has a counterpart in a. */
  ghost predicate HasCounterparts(a: Acct, b: Acct) {
    && HasEntries(a.budgetIncreases, b.budgetIncreases)
    && HasEntries(a.budgetDecreases, b.budgetDecreases)
    && HasEntries(a.recycledIn, b.recycledIn)
    && HasEntries(a.allocatedIn, b.allocatedIn)
    && HasEntries(a.commitmentsRetired, b.commitmentsRetired)
    && HasEntries(a.adjustmentsIn, b.adjustmentsIn)
    && HasEntries(a.recycledOut, b.recycledOut)
    && HasEntries(a.allocatedOut, b.allocatedOut)
    && HasEntries(a.commitmentsMade, b.commitmentsMade)
    && HasEntries(a.adjustmentsOut, b.adjustmentsOut)
    && HasEntries(a.spent, b.spent)
  }

  lemma GrownIsCovered(a: Acct, b: Acct)
    requires CountersGrow(b, a)
    ensures AtLeast(a, b) && HasCounterparts(a, b)
  {
    hide Below, Covers, HasEntries;
    BelowIffCovered(b.budgetIncreases, a.budgetIncreases);
    BelowIffCovered(b.budgetDecreases, a.budgetDecreases);
    BelowIffCovered(b.recycledIn, a.recycledIn);
    BelowIffCovered(b.allocatedIn, a.allocatedIn);
    BelowIffCovered(b.commitmentsRetired, a.commitmentsRetired);
    BelowIffCovered(b.adjustmentsIn, a.adjustmentsIn);
    BelowIffCovered(b.recycledOut, a.recycledOut);
    BelowIffCovered(b.allocatedOut, a.allocatedOut);
    BelowIffCovered(b.commitmentsMade, a.commitmentsMade);
    BelowIffCovered(b.adjustmentsOut, a.adjustmentsOut);
    BelowIffCovered(b.spent, a.spent);
  }

  lemma CoveredIsGrown(a: Acct, b: Acct)
    requires AtLeast(a, b) && HasCounterparts(a, b)
    ensures CountersGrow(b, a)
  {
    hide Below, Covers, HasEntries;
    BelowIffCovered(b.budgetIncreases, a.budgetIncreases);
    BelowIffCovered(b.budgetDecreases, a.budgetDecreases);
    BelowIffCovered(b.recycledIn, a.recycledIn);
    BelowIffCovered(b.allocatedIn, a.allocatedIn);
    BelowIffCovered(b.commitmentsRetired, a.commitmentsRetired);
    BelowIffCovered(b.adjustmentsIn, a.adjustmentsIn);
    BelowIffCovered(b.recycledOut, a.recycledOut);
    BelowIffCovered(b.allocatedOut, a.allocatedOut);
    BelowIffCovered(b.commitmentsMade, a.commitmentsMade);
    BelowIffCovered(b.adjustmentsOut, a.adjustmentsOut);
    BelowIffCovered(b.spent, a.spent);
  }

  lemma GrownIsAtLeast(a: Acct, b: Acct)
    requires CountersGrow(b, a)
    ensures AtLeast(a, b)
  {
    hide AtLeast, HasCounterparts, CountersGrow;
    GrownIsCovered(a, b);
  }

  /** The version test is growth of all counters only together with what its comment
      asks for, and what it does not look at: that no stored amount has gone. */
  lemma GrownIffAtLeast(a: Acct, b: Acct)
    ensures CountersGrow(b, a) <==> AtLeast(a, b) && HasCounterparts(a, b)
  {
    hide CountersGrow, AtLeast, HasCounterparts;
    if CountersGrow(b, a) {
      GrownIsCovered(a, b);
    }
    if AtLeast(a, b) && HasCounterparts(a, b) {
      CoveredIsGrown(a, b);
    }
  }

  /** An account that has lost an amount altogether passes the test. */
  lemma LostAmountPasses(c: Code)
    ensures var stored := NewAcct(AT_SPEND).(spent := map[c := 1]);
            AtLeast(NewAcct(AT_SPEND), stored) && !CountersGrow(stored, NewAcct(AT_SPEND))
  {
    var stored := NewAcct(AT_SPEND).(spent := map[c := 1]);
    assert At(stored.spent, c) > At(NewAcct(AT_SPEND).spent, c);
  }

  // ---------------------------------------------------------------- one account

  /** What `setBudget` adds to the budget. */
  function ExtraBudget(a: Acct, newBudget: Pool): Pool {
    var extra := Sub(newBudget, Sub(a.budgetIncreases, a.budgetDecreases));
    if IsNonNegative(Add(a.balance, extra)) then extra else Sub(map[], a.balance)
  }

  function ChangeBudget(a: Acct, extra: Pool): Acct {
    if IsNonNegative(extra) then
      a.(budgetIncreases := Add(a.budgetIncreases, extra), balance := Add(a.balance, extra), status := ACTIVE)
    else
      a.(budgetDecreases := Sub(a.budgetDecreases, extra), balance := Add(a.balance, extra), status := ACTIVE)
  }

  /** `setBudget`; it completes when the result passes CheckInvariants. */
  function SetBudget(a: Acct, newBudget: Pool): Acct {
    ChangeBudget(a, ExtraBudget(a, newBudget))
  }

  /** `addAdjustment`; it completes when the result passes CheckInvariants. */
  function AddAdjustment(a: Acct, adjustment: Pool): Acct {
    if IsNonNegative(adjustment) then
      a.(adjustmentsIn := Add(a.adjustmentsIn, adjustment), balance := Add(a.balance, adjustment))
    else
      a.(adjustmentsOut := Sub(a.adjustmentsOut, adjustment), balance := Add(a.balance, adjustment))
  }

  /** What `importSpend` asserts before it writes anything. */
  predicate MayImport(a: Acct, spend: Pool) {
    a.kind == AT_SPEND && IsNonNegative(spend) && CheckInvariants(a) && IsNonNegative(Sub(a.balance, spend))
  }

  function ImportSpend(a: Acct, spend: Pool): Acct {
    a.(balance := Sub(a.balance, spend), spent := Add(a.spent, spend))
  }

  /** `getNetBudget`: what was not transferred from or to other accounts. */
  function NetBudget(a: Acct): Pool {
    Sub(Add(Sub(Add(Sub(Add(Sub(a.budgetIncreases, a.budgetDecreases), a.allocatedIn), a.allocatedOut), a.recycledIn),
                a.recycledOut), a.adjustmentsIn), a.adjustmentsOut)
  }

  lemma NetBudgetAt(a: Acct, c: Code)
    ensures At(NetBudget(a), c)
         == At(a.budgetIncreases, c) - At(a.budgetDecreases, c) + At(a.allocatedIn, c) - At(a.allocatedOut, c)
            + At(a.recycledIn, c) - At(a.recycledOut, c) + At(a.adjustmentsIn, c) - At(a.adjustmentsOut, c)
  {
  }

  // ------------------------------------------------------- parent and child

  datatype Transfer = Transfer(fromRecycled: Pool, fromBudget: Pool, toRecycled: Pool)

  function RecycledAvail(a: Acct): Pool {
    NonNegative(Sub(a.recycledIn, a.recycledOut))
  }

  /** What the child asks the parent for, zero entries kept. */
  function RequiredIn(child: Acct, newBalance: Pool): Pool {
    NonNegative(Sub(newBalance, child.balance))
  }

  /** The three amounts `setBalance` works out before it writes anything. */
  function PlanTransfer(child: Acct, parent: Acct, newBalance: Pool): Transfer {
    var requiredTotal := Sub(newBalance, child.balance);
    var requiredIn := NonNegative(requiredTotal);
    var requiredOut := Sub(requiredIn, requiredTotal);
    var toTransfer := Limit(parent.balance, requiredIn);
    var fromRecycled := Limit(RecycledAvail(parent), toTransfer);
    Transfer(fromRecycled, Sub(toTransfer, fromRecycled), requiredOut)
  }

  function MoveChild(child: Acct, t: Transfer): Acct {
    child.(recycledIn := Add(child.recycledIn, t.fromRecycled),
           budgetIncreases := Add(child.budgetIncreases, t.fromBudget),
           recycledOut := Add(child.recycledOut, t.toRecycled),
           balance := Sub(Add(Add(child.balance, t.fromRecycled), t.fromBudget), t.toRecycled),
           crossedDown := Add(child.crossedDown, t.fromRecycled),
           crossedUp := Add(child.crossedUp, t.toRecycled))
  }

  function MoveParent(parent: Acct, t: Transfer): Acct {
    parent.(recycledOut := Add(parent.recycledOut, t.fromRecycled),
            allocatedOut := Add(parent.allocatedOut, t.fromBudget),
            recycledIn := Add(parent.recycledIn, t.toRecycled),
            balance := Add(Sub(Sub(parent.balance, t.fromRecycled), t.fromBudget), t.toRecycled))
  }

  function RecuperateTransfer(child: Acct): Transfer {
    Transfer(map[], map[], NonNegative(child.balance))
  }
}
