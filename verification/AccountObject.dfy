/** The account as the object the source updates in place, statement by
  statement, proved against the functions of AccountSpec.

  An `ok` of false is a thrown exception: what was written before stays written.
 */
module AccountObject {
  import opened Currency
  import opened AccountSpec
  import opened AccountLaws
  import opened ShadowSpec

  class Account {
    var kind: Kind
    var status: Status
    var budgetIncreases: Pool
    var budgetDecreases: Pool
    var recycledIn: Pool
    var allocatedIn: Pool
    var commitmentsRetired: Pool
    var adjustmentsIn: Pool
    var recycledOut: Pool
    var allocatedOut: Pool
    var commitmentsMade: Pool
    var adjustmentsOut: Pool
    var spent: Pool
    var balance: Pool
    var lineItems: LineItems
    var children: set<Key>
    var crossedDown: Pool
    var crossedUp: Pool

    function State(): Acct
      reads this
    {
      Acct(kind, status, budgetIncreases, budgetDecreases, recycledIn, allocatedIn, commitmentsRetired, adjustmentsIn,
           recycledOut, allocatedOut, commitmentsMade, adjustmentsOut, spent, balance, lineItems, children, crossedDown,
           crossedUp)
    }

    constructor Of(a: Acct)
      ensures State() == a
    {
      kind, status := a.kind, a.status;
      budgetIncreases, budgetDecreases := a.budgetIncreases, a.budgetDecreases;
      recycledIn, recycledOut := a.recycledIn, a.recycledOut;
      allocatedIn, allocatedOut := a.allocatedIn, a.allocatedOut;
      commitmentsRetired, commitmentsMade := a.commitmentsRetired, a.commitmentsMade;
      adjustmentsIn, adjustmentsOut := a.adjustmentsIn, a.adjustmentsOut;
      spent, balance, lineItems, children := a.spent, a.balance, a.lineItems, a.children;
      crossedDown, crossedUp := a.crossedDown, a.crossedUp;
    }

    /** The second assertion of the source's `setBudget` always holds. */
    method SetBudget(newBudget: Pool) returns (ok: bool)
      modifies this
      ensures State() == AccountSpec.SetBudget(old(State()), newBudget)
      ensures ok == CheckInvariants(State())
      ensures status == ACTIVE && SameButBudget(old(State()), State())
    {
      hide Add, Sub, Limit, NonNegative, IsNonNegative, CheckInvariants;
      ghost var before := State();
      SetBudgetWrites(before, newBudget);
      var totalBudget := Sub(budgetIncreases, budgetDecreases);
      var extraBudget := Sub(newBudget, totalBudget);
      var preview := Add(balance, extraBudget);
      if !IsNonNegative(preview) {
        extraBudget := Sub(map[], balance);
      }
      assert extraBudget == ExtraBudget(before, newBudget);
      assert IsNonNegative(Add(balance, extraBudget)) by {
        ExtraBudgetKeepsBalance(before, newBudget);
      }
      Extend(extraBudget);
      ok := CheckInvariants(State());
    }

    method Extend(extraBudget: Pool)
      modifies this
      ensures State() == ChangeBudget(old(State()), extraBudget)
    {
      hide Add, Sub, IsNonNegative;
      if IsNonNegative(extraBudget) {
        budgetIncreases := Add(budgetIncreases, extraBudget);
      } else {
        budgetDecreases := Sub(budgetDecreases, extraBudget);
      }
      balance := Add(balance, extraBudget);
      status := ACTIVE;
    }

    method AddAdjustment(newAdjustment: Pool) returns (ok: bool)
      modifies this
      ensures State() == AccountSpec.AddAdjustment(old(State()), newAdjustment)
      ensures ok == CheckInvariants(State())
    {
      hide Add, Sub, IsNonNegative, CheckInvariants;
      if IsNonNegative(newAdjustment) {
        adjustmentsIn := Add(adjustmentsIn, newAdjustment);
      } else {
        adjustmentsOut := Sub(adjustmentsOut, newAdjustment);
      }
      balance := Add(balance, newAdjustment);
      ok := CheckInvariants(State());
    }

    method ImportSpend(spend: Pool) returns (ok: bool)
      modifies this
      ensures ok == MayImport(old(State()), spend)
      ensures State() == if ok then AccountSpec.ImportSpend(old(State()), spend) else old(State())
    {
      hide Add, Sub, Limit, NonNegative, IsNonNegative, CheckInvariants;
      if kind != AT_SPEND || !IsNonNegative(spend) || !CheckInvariants(State()) {
        return false;
      }
      var newBalance := Sub(balance, spend);
      if !IsNonNegative(newBalance) {
        return false;
      }
      ghost var before := State();
      balance := newBalance;
      spent := Add(spent, spend);
      ImportSpendCompletes(before, spend);
      ok := CheckInvariants(State());
    }

    /** Take from the parent's recycled money. */
    method TakeRecycled(parentAccount: Account, amount: Pool)
      requires parentAccount != this
      modifies this, parentAccount
      ensures var a, p := old(State()), old(parentAccount.State());
              && State() == a.(recycledIn := Add(a.recycledIn, amount), balance := Add(a.balance, amount),
                               crossedDown := Add(a.crossedDown, amount))
              && parentAccount.State() == p.(recycledOut := Add(p.recycledOut, amount),
                                             balance := Sub(p.balance, amount))
    {
      hide Add, Sub;
      parentAccount.recycledOut := Add(parentAccount.recycledOut, amount);
      parentAccount.balance := Sub(parentAccount.balance, amount);
      recycledIn := Add(recycledIn, amount);
      balance := Add(balance, amount);
      crossedDown := Add(crossedDown, amount);
    }

    /** Take from the parent's budget. */
    method TakeBudget(parentAccount: Account, amount: Pool)
      requires parentAccount != this
      modifies this, parentAccount
      ensures var a, p := old(State()), old(parentAccount.State());
              && State() == a.(budgetIncreases := Add(a.budgetIncreases, amount), balance := Add(a.balance, amount))
              && parentAccount.State() == p.(allocatedOut := Add(p.allocatedOut, amount),
                                             balance := Sub(p.balance, amount))
    {
      hide Add, Sub;
      parentAccount.allocatedOut := Add(parentAccount.allocatedOut, amount);
      parentAccount.balance := Sub(parentAccount.balance, amount);
      budgetIncreases := Add(budgetIncreases, amount);
      balance := Add(balance, amount);
    }

    /** Give back to the parent as recycled money. */
    method GiveRecycled(parentAccount: Account, amount: Pool)
      requires parentAccount != this
      modifies this, parentAccount
      ensures var a, p := old(State()), old(parentAccount.State());
              && State() == a.(recycledOut := Add(a.recycledOut, amount), balance := Sub(a.balance, amount),
                               crossedUp := Add(a.crossedUp, amount))
              && parentAccount.State() == p.(recycledIn := Add(p.recycledIn, amount),
                                             balance := Add(p.balance, amount))
    {
      hide Add, Sub;
      parentAccount.recycledIn := Add(parentAccount.recycledIn, amount);
      parentAccount.balance := Add(parentAccount.balance, amount);
      recycledOut := Add(recycledOut, amount);
      balance := Sub(balance, amount);
      crossedUp := Add(crossedUp, amount);
    }

    /** Either side may fail its closing check, after the money has moved. */
    method SetBalance(parentAccount: Account, newBalance: Pool) returns (ok: bool)
      requires parentAccount != this
      modifies this, parentAccount
      ensures var child, parent := old(State()), old(parentAccount.State());
              var t := PlanTransfer(child, parent, newBalance);
              if CheckInvariants(child) then
                && State() == MoveChild(child, t) && parentAccount.State() == MoveParent(parent, t)
                && ok == (CheckInvariants(State()) && CheckInvariants(parentAccount.State()))
              else
                State() == child && parentAccount.State() == parent && !ok
    {
      hide Add, Sub, Limit, NonNegative, IsNonNegative, CheckInvariants;
      if !CheckInvariants(State()) {
        return false;
      }
      var requiredTotal := Sub(newBalance, balance);
      var requiredIn := NonNegative(requiredTotal);
      var requiredOut := Sub(requiredIn, requiredTotal);
      var toTransfer := Limit(parentAccount.balance, requiredIn);
      var parentRecycledAvail := NonNegative(Sub(parentAccount.recycledIn, parentAccount.recycledOut));
      var fromRecycled := Limit(parentRecycledAvail, toTransfer);
      var toRecycled := requiredOut;
      var fromBudget := Sub(toTransfer, fromRecycled);

      ghost var t := Transfer(fromRecycled, fromBudget, toRecycled);
      ghost var child, parent := State(), parentAccount.State();
      assert t == PlanTransfer(child, parent, newBalance);
      TakeRecycled(parentAccount, fromRecycled);
      TakeBudget(parentAccount, fromBudget);
      GiveRecycled(parentAccount, toRecycled);
      assert State() == MoveChild(child, t);
      assert parentAccount.State() == MoveParent(parent, t);
      ok := CheckInvariants(State()) && CheckInvariants(parentAccount.State());
    }

    /** Only the child's side is checked afterwards. */
    method RecuperateTo(parentAccount: Account) returns (ok: bool)
      requires parentAccount != this
      modifies this, parentAccount
      ensures var child, parent := old(State()), old(parentAccount.State());
              && State() == MoveChild(child, RecuperateTransfer(child))
              && parentAccount.State() == MoveParent(parent, RecuperateTransfer(child))
              && ok == CheckInvariants(State())
    {
      hide Add, Sub, Limit, NonNegative, IsNonNegative, CheckInvariants;
      var amount := NonNegative(balance);
      GiveRecycled(parentAccount, amount);
      NothingElseMoves();
      ok := CheckInvariants(State());
    }

    /** The master's side of a sync; refused snapshots change nothing. */
    method SyncFrom(shadow: Shadow) returns (ok: bool)
      modifies this
      ensures ok == MaySync(shadow, old(State()))
      ensures State() == if ok then SyncToMaster(shadow, old(State())) else old(State())
      ensures ok ==> SameItems(lineItems, shadow.lineItems) && Same(spent, shadow.spent) && status == old(status)
    {
      hide Add, Sub, Limit, NonNegative, IsNonNegative, CheckInvariants, CheckShadow, CountersGrow, Sound;
      if !CheckShadow(shadow) || !CheckInvariants(State()) {
        return false;
      }
      var newCommitmentsMade := Sub(shadow.commitmentsMade, commitmentsMade);
      var newCommitmentsRetired := Sub(shadow.commitmentsRetired, commitmentsRetired);
      var newSpend := Sub(shadow.spent, spent);
      if !IsNonNegative(newCommitmentsMade) || !IsNonNegative(newCommitmentsRetired) || !IsNonNegative(newSpend) {
        return false;
      }
      assert MaySync(shadow, State());
      SyncCompletes(shadow, State());
      SyncWrites(shadow, State());
      WriteCounters(shadow);
      AddToBalance(Sub(Sub(newCommitmentsRetired, newCommitmentsMade), newSpend), shadow.lineItems);
      ok := CheckInvariants(State());
    }

    method WriteCounters(shadow: Shadow)
      modifies this
      ensures State() == old(State()).(commitmentsRetired := shadow.commitmentsRetired,
                                       commitmentsMade := shadow.commitmentsMade,
                                       spent := shadow.spent)
    {
      commitmentsRetired := shadow.commitmentsRetired;
      commitmentsMade := shadow.commitmentsMade;
      spent := shadow.spent;
    }

    method AddToBalance(change: Pool, items: LineItems)
      modifies this
      ensures State() == old(State()).(balance := Add(old(balance), change), lineItems := items)
    {
      hide Add;
      balance := Add(balance, change);
      lineItems := items;
    }
  }
}
