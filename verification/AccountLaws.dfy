/** What the operations on accounts achieve, for all accounts and amounts. Most
  laws are stated in one currency, for every currency.
 */
module AccountLaws {
  import opened Common
  import opened Currency
  import opened AccountSpec

  // ------------------------------------------------------------- transfers

  /** What moves down in currency c: nothing where the child holds no request
      entry, else the request capped by the parent's balance, negative or not. */
  ghost function Down(child: Acct, parent: Acct, newBalance: Pool, c: Code): int {
    if c in RequiredIn(child, newBalance) then
      Min(At(parent.balance, c), Max(At(newBalance, c) - At(child.balance, c), 0))
    else 0
  }

  lemma PlanAt(child: Acct, parent: Acct, newBalance: Pool, c: Code)
    ensures var t := PlanTransfer(child, parent, newBalance);
            var avail := Max(At(parent.recycledIn, c) - At(parent.recycledOut, c), 0);
            var down := Down(child, parent, newBalance, c);
            && At(t.fromRecycled, c) == Min(avail, down)
            && At(t.fromBudget, c) == down - Min(avail, down) >= 0
            && At(t.toRecycled, c) == Max(At(child.balance, c) - At(newBalance, c), 0)
  {
    hide Add, Sub, Limit, NonNegative;
    var requiredIn := RequiredIn(child, newBalance);
    assert At(requiredIn, c) == Max(At(newBalance, c) - At(child.balance, c), 0);
    var toTransfer := Limit(parent.balance, requiredIn);
    assert At(toTransfer, c) == Down(child, parent, newBalance, c);
    var avail := RecycledAvail(parent);
    assert At(avail, c) >= 0;
    assert At(Limit(avail, toTransfer), c) == Min(At(avail, c), At(toTransfer, c));
  }

  /** Every field of both sides after a transfer, in currency c. */
  lemma MoveAt(child: Acct, parent: Acct, t: Transfer, c: Code)
    ensures var ch := MoveChild(child, t);
            && At(ch.recycledIn, c) == At(child.recycledIn, c) + At(t.fromRecycled, c)
            && At(ch.budgetIncreases, c) == At(child.budgetIncreases, c) + At(t.fromBudget, c)
            && At(ch.recycledOut, c) == At(child.recycledOut, c) + At(t.toRecycled, c)
            && At(ch.balance, c)
               == At(child.balance, c) + At(t.fromRecycled, c) + At(t.fromBudget, c) - At(t.toRecycled, c)
            && (BalancedAt(child, c) ==> BalancedAt(ch, c))
    ensures var pa := MoveParent(parent, t);
            && At(pa.recycledOut, c) == At(parent.recycledOut, c) + At(t.fromRecycled, c)
            && At(pa.allocatedOut, c) == At(parent.allocatedOut, c) + At(t.fromBudget, c)
            && At(pa.recycledIn, c) == At(parent.recycledIn, c) + At(t.toRecycled, c)
            && At(pa.balance, c)
               == At(parent.balance, c) - At(t.fromRecycled, c) - At(t.fromBudget, c) + At(t.toRecycled, c)
            && (BalancedAt(parent, c) ==> BalancedAt(pa, c))
  {
    hide Add, Sub, Limit, NonNegative;
  }

  /** Whatever the amounts, the two balances together are unchanged and both
      sides stay balanced, even when a closing check then throws. */
  lemma MoveConserves(child: Acct, parent: Acct, t: Transfer)
    requires Balanced(child) && Balanced(parent)
    ensures Balanced(MoveChild(child, t)) && Balanced(MoveParent(parent, t))
    ensures forall c :: At(MoveChild(child, t).balance, c) + At(MoveParent(parent, t).balance, c)
                        == At(child.balance, c) + At(parent.balance, c)
  {
    hide Add, Sub, Limit, NonNegative;
    forall c
      ensures BalancedAt(MoveChild(child, t), c) && BalancedAt(MoveParent(parent, t), c)
      ensures At(MoveChild(child, t).balance, c) + At(MoveParent(parent, t).balance, c)
              == At(child.balance, c) + At(parent.balance, c)
    {
      MoveAt(child, parent, t, c);
      assert BalancedAt(child, c) && BalancedAt(parent, c);
    }
  }

  ghost predicate NonNegativeTransfer(t: Transfer) {
    NeverNegative(t.fromRecycled) && NeverNegative(t.fromBudget) && NeverNegative(t.toRecycled)
  }

  lemma BelowSum(p: Pool, q: Pool)
    requires NeverNegative(q)
    ensures Below(p, Add(p, q))
  {
    hide Add, Sub, Limit, NonNegative;
  }

  lemma BelowDifferenceIff(p: Pool, q: Pool)
    ensures Below(p, Sub(p, q)) <==> forall c :: At(q, c) <= 0
  {
    hide Add, Sub, Limit, NonNegative;
    var d := Sub(p, q);
    forall c ensures At(p, c) <= At(d, c) <==> At(q, c) <= 0 {
    }
    if Below(p, d) {
      forall c ensures At(q, c) <= 0 {
        assert At(p, c) <= At(d, c);
      }
    }
  }

  lemma NonNegativeMoveGrows(child: Acct, parent: Acct, t: Transfer)
    requires NonNegativeTransfer(t)
    ensures CountersGrow(child, MoveChild(child, t)) && CountersGrow(parent, MoveParent(parent, t))
  {
    hide Add, Sub, Limit, NonNegative;
    BelowSum(child.recycledIn, t.fromRecycled);
    BelowSum(child.budgetIncreases, t.fromBudget);
    BelowSum(child.recycledOut, t.toRecycled);
    BelowSum(parent.recycledOut, t.fromRecycled);
    BelowSum(parent.allocatedOut, t.fromBudget);
    BelowSum(parent.recycledIn, t.toRecycled);
  }

  lemma GrownStaysNonNegative(a: Acct, b: Acct)
    requires NonNegativeCounters(a) && CountersGrow(a, b)
    ensures NonNegativeCounters(b)
  {
    hide Add, Sub, Limit, NonNegative;
    BelowStaysNonNegative(a.budgetIncreases, b.budgetIncreases);
    BelowStaysNonNegative(a.budgetDecreases, b.budgetDecreases);
    BelowStaysNonNegative(a.recycledIn, b.recycledIn);
    BelowStaysNonNegative(a.allocatedIn, b.allocatedIn);
    BelowStaysNonNegative(a.commitmentsRetired, b.commitmentsRetired);
    BelowStaysNonNegative(a.adjustmentsIn, b.adjustmentsIn);
    BelowStaysNonNegative(a.recycledOut, b.recycledOut);
    BelowStaysNonNegative(a.allocatedOut, b.allocatedOut);
    BelowStaysNonNegative(a.commitmentsMade, b.commitmentsMade);
    BelowStaysNonNegative(a.adjustmentsOut, b.adjustmentsOut);
    BelowStaysNonNegative(a.spent, b.spent);
  }

  lemma BelowStaysNonNegative(p: Pool, q: Pool)
    requires NeverNegative(p) && Below(p, q)
    ensures NeverNegative(q)
  {
    hide Add, Sub, Limit, NonNegative;
    forall c ensures At(q, c) >= 0 {
      assert At(p, c) <= At(q, c);
    }
  }

  /** Transfers of non-negative amounts pass every check. */
  lemma NonNegativeMoveIsSound(child: Acct, parent: Acct, t: Transfer)
    requires Sound(child) && Sound(parent) && NonNegativeTransfer(t)
    ensures Sound(MoveChild(child, t)) && Sound(MoveParent(parent, t))
    ensures CheckInvariants(MoveChild(child, t)) && CheckInvariants(MoveParent(parent, t))
  {
    hide Add, Sub, Limit, NonNegative;
    MoveConserves(child, parent, t);
    NonNegativeMoveGrows(child, parent, t);
    GrownStaysNonNegative(child, MoveChild(child, t));
    GrownStaysNonNegative(parent, MoveParent(parent, t));
    CheckInvariantsIsSound(MoveChild(child, t));
    CheckInvariantsIsSound(MoveParent(parent, t));
  }

  ghost predicate ParentCovers(child: Acct, parent: Acct, newBalance: Pool) {
    forall c | c in RequiredIn(child, newBalance) :: At(parent.balance, c) >= 0
  }

  lemma PlanIsNonNegativeIff(child: Acct, parent: Acct, newBalance: Pool)
    ensures NonNegativeTransfer(PlanTransfer(child, parent, newBalance)) <==> ParentCovers(child, parent, newBalance)
  {
    hide Add, Sub, Limit, NonNegative;
    var t := PlanTransfer(child, parent, newBalance);
    forall c
      ensures At(t.fromBudget, c) >= 0 && At(t.toRecycled, c) >= 0
      ensures At(t.fromRecycled, c) >= 0 <==> c !in RequiredIn(child, newBalance) || At(parent.balance, c) >= 0
    {
      PlanAt(child, parent, newBalance, c);
    }
    if NonNegativeTransfer(t) {
      forall c | c in RequiredIn(child, newBalance) ensures At(parent.balance, c) >= 0 {
        assert At(t.fromRecycled, c) >= 0;
      }
    }
  }

  /** From a parent that is not overdrawn `setBalance` passes all its checks. */
  lemma SetBalanceCompletes(child: Acct, parent: Acct, newBalance: Pool)
    requires Sound(child) && Sound(parent) && NeverNegative(parent.balance)
    ensures CheckInvariants(child)
    ensures var t := PlanTransfer(child, parent, newBalance);
            CheckInvariants(MoveChild(child, t)) && CheckInvariants(MoveParent(parent, t))
  {
    hide Add, Sub, Limit, NonNegative;
    CheckInvariantsIsSound(child);
    PlanIsNonNegativeIff(child, parent, newBalance);
    NonNegativeMoveIsSound(child, parent, PlanTransfer(child, parent, newBalance));
  }

  /** From a parent that is not overdrawn in c: the child ends at the target or
      short of it by exactly what the parent lacks, the parent is not overdrawn
      by it, and the parent's recycled money goes before its budget. */
  lemma SetBalanceReachesTarget(child: Acct, parent: Acct, newBalance: Pool, c: Code)
    requires At(parent.balance, c) >= 0
    ensures var t := PlanTransfer(child, parent, newBalance);
            var want := At(newBalance, c);
            var lacks := Max(want - At(child.balance, c) - At(parent.balance, c), 0);
            var down := Max(want - lacks - At(child.balance, c), 0);
            var avail := Max(At(parent.recycledIn, c) - At(parent.recycledOut, c), 0);
            && At(MoveChild(child, t).balance, c) == want - lacks
            && At(MoveParent(parent, t).balance, c) == At(parent.balance, c) + At(child.balance, c) - (want - lacks)
            && At(MoveParent(parent, t).balance, c) >= 0
            && At(MoveParent(parent, t).recycledOut, c) == At(parent.recycledOut, c) + Min(avail, down)
            && At(MoveParent(parent, t).allocatedOut, c) == At(parent.allocatedOut, c) + down - Min(avail, down)
            && At(MoveChild(child, t).recycledIn, c) == At(child.recycledIn, c) + Min(avail, down)
            && At(MoveChild(child, t).budgetIncreases, c) == At(child.budgetIncreases, c) + down - Min(avail, down)
  {
    hide Add, Sub, Limit, NonNegative, PlanTransfer, MoveChild, MoveParent, Down;
    var t := PlanTransfer(child, parent, newBalance);
    SolventDown(child, parent, newBalance, c);
    PlanAt(child, parent, newBalance, c);
    MoveAt(child, parent, t, c);
  }

  lemma SolventDown(child: Acct, parent: Acct, newBalance: Pool, c: Code)
    requires At(parent.balance, c) >= 0
    ensures Down(child, parent, newBalance, c)
            == Min(At(parent.balance, c), Max(At(newBalance, c) - At(child.balance, c), 0))
  {
    hide Add, Sub, Limit, NonNegative;
    assert At(RequiredIn(child, newBalance), c) == Max(At(newBalance, c) - At(child.balance, c), 0);
  }

  /** With an overdrawn parent counters can go down. They stay or grow exactly
      when the parent has a non-negative balance in every currency the child
      holds a request entry for. */
  lemma SetBalanceGrowsCountersIff(child: Acct, parent: Acct, newBalance: Pool)
    ensures var t := PlanTransfer(child, parent, newBalance);
            CountersGrow(child, MoveChild(child, t)) && CountersGrow(parent, MoveParent(parent, t))
            <==> ParentCovers(child, parent, newBalance)
  {
    hide Add, Sub, Limit, NonNegative;
    var t := PlanTransfer(child, parent, newBalance);
    PlanIsNonNegativeIff(child, parent, newBalance);
    if ParentCovers(child, parent, newBalance) {
      NonNegativeMoveGrows(child, parent, t);
    } else {
      var c :| c in RequiredIn(child, newBalance) && At(parent.balance, c) < 0;
      PlanAt(child, parent, newBalance, c);
      assert At(t.fromRecycled, c) < 0;
      assert At(MoveParent(parent, t).recycledOut, c) < At(parent.recycledOut, c);
    }
  }

  /** The currencies in which an overdrawn parent takes back recycled money that it
      had given out before, and the child had received. */
  ghost predicate OverdraftCovered(child: Acct, parent: Acct, newBalance: Pool) {
    forall c | c in RequiredIn(child, newBalance) && At(parent.balance, c) < 0 ::
      At(parent.recycledOut, c) + At(parent.balance, c) >= 0 && At(child.recycledIn, c) + At(parent.balance, c) >= 0
  }

  lemma MovedCountersAt(child: Acct, parent: Acct, newBalance: Pool, c: Code)
    requires Sound(child) && Sound(parent)
    ensures var t := PlanTransfer(child, parent, newBalance);
            var back := c in RequiredIn(child, newBalance) && At(parent.balance, c) < 0;
            && At(t.fromBudget, c) >= 0 && At(t.toRecycled, c) >= 0
            && (At(child.recycledIn, c) + At(t.fromRecycled, c) >= 0
                <==> (back ==> At(child.recycledIn, c) + At(parent.balance, c) >= 0))
            && (At(parent.recycledOut, c) + At(t.fromRecycled, c) >= 0
                <==> (back ==> At(parent.recycledOut, c) + At(parent.balance, c) >= 0))
  {
    hide Add, Sub, Limit, NonNegative, PlanTransfer;
    PlanAt(child, parent, newBalance, c);
    assert At(RequiredIn(child, newBalance), c) >= 0;
    assert At(child.recycledIn, c) >= 0 && At(parent.recycledOut, c) >= 0;
  }

  lemma CountersAfterMove(child: Acct, parent: Acct, t: Transfer)
    requires NonNegativeCounters(child) && NonNegativeCounters(parent)
    requires NeverNegative(t.fromBudget) && NeverNegative(t.toRecycled)
    ensures NonNegativeCounters(MoveChild(child, t)) <==> NeverNegative(Add(child.recycledIn, t.fromRecycled))
    ensures NonNegativeCounters(MoveParent(parent, t)) <==> NeverNegative(Add(parent.recycledOut, t.fromRecycled))
  {
    hide Add, Sub, Limit, NonNegative;
    BelowSum(child.budgetIncreases, t.fromBudget);
    BelowStaysNonNegative(child.budgetIncreases, Add(child.budgetIncreases, t.fromBudget));
    BelowSum(child.recycledOut, t.toRecycled);
    BelowStaysNonNegative(child.recycledOut, Add(child.recycledOut, t.toRecycled));
    BelowSum(parent.allocatedOut, t.fromBudget);
    BelowStaysNonNegative(parent.allocatedOut, Add(parent.allocatedOut, t.fromBudget));
    BelowSum(parent.recycledIn, t.toRecycled);
    BelowStaysNonNegative(parent.recycledIn, Add(parent.recycledIn, t.toRecycled));
  }

  /** Exactly when a transfer between sound accounts passes its closing checks,
      whatever the parent's balance is. An overdraft that is covered passes, and
      then recycled counters go down (SetBalanceGrowsCountersIff). */
  lemma SetBalanceCompletesIff(child: Acct, parent: Acct, newBalance: Pool)
    requires Sound(child) && Sound(parent)
    ensures var t := PlanTransfer(child, parent, newBalance);
            CheckInvariants(MoveChild(child, t)) && CheckInvariants(MoveParent(parent, t))
            <==> OverdraftCovered(child, parent, newBalance)
  {
    hide Add, Sub, Limit, NonNegative, PlanTransfer, MoveChild, MoveParent, CheckInvariants, NonNegativeCounters,
         RequiredIn;
    var t := PlanTransfer(child, parent, newBalance);
    var down, out := Add(child.recycledIn, t.fromRecycled), Add(parent.recycledOut, t.fromRecycled);
    MoveConserves(child, parent, t);
    CheckInvariantsIsSound(MoveChild(child, t));
    CheckInvariantsIsSound(MoveParent(parent, t));
    forall c
      ensures At(t.fromBudget, c) >= 0 && At(t.toRecycled, c) >= 0
      ensures At(down, c) >= 0 && At(out, c) >= 0
              <==> (c in RequiredIn(child, newBalance) && At(parent.balance, c) < 0 ==>
                      At(parent.recycledOut, c) + At(parent.balance, c) >= 0
                      && At(child.recycledIn, c) + At(parent.balance, c) >= 0)
    {
      MovedCountersAt(child, parent, newBalance, c);
    }
    CountersAfterMove(child, parent, t);
    assert (forall c :: At(down, c) >= 0 && At(out, c) >= 0) <==> NeverNegative(down) && NeverNegative(out);
  }

  /** An empty transfer in a direction leaves that side's pools as they are. */
  lemma NothingElseMoves()
    ensures forall p: Pool :: Add(p, map[]) == p && Sub(p, map[]) == p
  {
    forall p: Pool ensures Add(p, map[]) == p && Sub(p, map[]) == p {
      assert Add(p, map[]).Keys == p.Keys;
      assert Sub(p, map[]).Keys == p.Keys;
    }
  }

  /** Recuperating takes the child down to its overdraft. */
  lemma RecuperateAt(child: Acct, parent: Acct, c: Code)
    ensures var t := RecuperateTransfer(child);
            && At(MoveChild(child, t).balance, c) == Min(At(child.balance, c), 0)
            && At(MoveParent(parent, t).balance, c) == At(parent.balance, c) + Max(At(child.balance, c), 0)
  {
    hide Add, Sub, Limit, NonNegative;
    MoveAt(child, parent, RecuperateTransfer(child), c);
  }

  lemma RecuperateCompletes(child: Acct, parent: Acct)
    requires Sound(child) && Sound(parent)
    ensures Sound(MoveChild(child, RecuperateTransfer(child))) && Sound(MoveParent(parent, RecuperateTransfer(child)))
    ensures CheckInvariants(MoveChild(child, RecuperateTransfer(child)))
    ensures CountersGrow(child, MoveChild(child, RecuperateTransfer(child)))
    ensures CountersGrow(parent, MoveParent(parent, RecuperateTransfer(child)))
  {
    hide Add, Sub, Limit, NonNegative;
    var t := RecuperateTransfer(child);
    assert NonNegativeTransfer(t);
    NonNegativeMoveIsSound(child, parent, t);
    NonNegativeMoveGrows(child, parent, t);
  }

  // ------------------------------------------------------------- one account

  ghost predicate OneSign(p: Pool) {
    NeverNegative(p) || forall c :: At(p, c) <= 0
  }

  ghost predicate Reachable(a: Acct, newBudget: Pool) {
    NeverNegative(Add(a.balance, Sub(newBudget, Sub(a.budgetIncreases, a.budgetDecreases))))
  }

  lemma ExtraBudgetAt(a: Acct, newBudget: Pool, c: Code)
    ensures At(ExtraBudget(a, newBudget), c)
            == if Reachable(a, newBudget) then At(newBudget, c) - At(a.budgetIncreases, c) + At(a.budgetDecreases, c)
               else -At(a.balance, c)
    ensures At(a.balance, c) + At(ExtraBudget(a, newBudget), c) >= 0
  {
    hide Add, Sub, Limit, NonNegative;
    var preview := Add(a.balance, Sub(newBudget, Sub(a.budgetIncreases, a.budgetDecreases)));
    NonNegativeAt(preview);
    assert Reachable(a, newBudget) ==> At(preview, c) >= 0;
  }

  lemma ExtraBudgetKeepsBalance(a: Acct, newBudget: Pool)
    ensures IsNonNegative(Add(a.balance, ExtraBudget(a, newBudget)))
  {
    hide Add, Sub, Limit, NonNegative;
    var rest := Add(a.balance, ExtraBudget(a, newBudget));
    forall c ensures At(rest, c) >= 0 {
      ExtraBudgetAt(a, newBudget, c);
    }
    NonNegativeAt(rest);
  }

  lemma ChangeBudgetAt(a: Acct, extra: Pool, c: Code)
    ensures var b := ChangeBudget(a, extra);
            && At(b.budgetIncreases, c) - At(b.budgetDecreases, c)
               == At(a.budgetIncreases, c) - At(a.budgetDecreases, c) + At(extra, c)
            && At(b.balance, c) == At(a.balance, c) + At(extra, c)
            && (BalancedAt(a, c) ==> BalancedAt(b, c))
  {
    hide Add, Sub, Limit, NonNegative, IsNonNegative;
    if IsNonNegative(extra) {
    } else {
    }
  }

  /** `setBudget` reaches the new budget when that overdraws no currency.
      Otherwise it gives the target up in every currency and takes the whole
      balance out. The account is never overdrawn afterwards. */
  lemma SetBudgetAt(a: Acct, newBudget: Pool, c: Code)
    ensures var b := SetBudget(a, newBudget);
            var total := At(a.budgetIncreases, c) - At(a.budgetDecreases, c);
            var total' := At(b.budgetIncreases, c) - At(b.budgetDecreases, c);
            && total' == (if Reachable(a, newBudget) then At(newBudget, c) else total - At(a.balance, c))
            && At(b.balance, c) == At(a.balance, c) + total' - total
            && At(b.balance, c) >= 0
            && (BalancedAt(a, c) ==> BalancedAt(b, c))
  {
    hide Add, Sub, Limit, NonNegative, ExtraBudget, ChangeBudget, Reachable;
    ExtraBudgetAt(a, newBudget, c);
    ChangeBudgetAt(a, ExtraBudget(a, newBudget), c);
  }

  /** `setBudget` lets no counter go down exactly when its change has one sign. */
  lemma SetBudgetGrowsCountersIff(a: Acct, newBudget: Pool)
    ensures CountersGrow(a, SetBudget(a, newBudget)) <==> OneSign(ExtraBudget(a, newBudget))
  {
    hide Add, Sub, Limit, NonNegative, ExtraBudget, IsNonNegative;
    var extra := ExtraBudget(a, newBudget);
    NonNegativeAt(extra);
    if IsNonNegative(extra) {
      BelowSum(a.budgetIncreases, extra);
    } else {
      BelowDifferenceIff(a.budgetDecreases, extra);
    }
  }

  lemma SetBudgetCompletes(a: Acct, newBudget: Pool)
    requires Sound(a) && OneSign(ExtraBudget(a, newBudget))
    ensures Sound(SetBudget(a, newBudget)) && CheckInvariants(SetBudget(a, newBudget))
  {
    hide Add, Sub, Limit, NonNegative;
    var b := SetBudget(a, newBudget);
    forall c ensures BalancedAt(b, c) {
      assert BalancedAt(a, c);
      SetBudgetAt(a, newBudget, c);
    }
    SetBudgetGrowsCountersIff(a, newBudget);
    GrownStaysNonNegative(a, b);
    CheckInvariantsIsSound(b);
  }

  lemma DifferenceIsNonNegativeIff(p: Pool, q: Pool)
    ensures NeverNegative(Sub(p, q)) <==> Below(q, p)
  {
    hide Add, Sub, Limit, NonNegative;
    var d := Sub(p, q);
    forall c ensures At(d, c) >= 0 <==> At(q, c) <= At(p, c) {
    }
    if NeverNegative(d) {
      forall c ensures At(q, c) <= At(p, c) {
        assert At(d, c) >= 0;
      }
    }
  }

  /** Exactly when `setBudget` passes its closing check: its change takes nothing
      out in any currency, or puts in no more in any than was ever taken out of the
      budget. */
  lemma SetBudgetCompletesIff(a: Acct, newBudget: Pool)
    requires Sound(a)
    ensures var extra := ExtraBudget(a, newBudget);
            CheckInvariants(SetBudget(a, newBudget)) <==> NeverNegative(extra) || Below(extra, a.budgetDecreases)
  {
    hide Add, Sub, Limit, NonNegative, ExtraBudget, IsNonNegative, CheckInvariants;
    var b, extra := SetBudget(a, newBudget), ExtraBudget(a, newBudget);
    forall c ensures BalancedAt(b, c) {
      assert BalancedAt(a, c);
      SetBudgetAt(a, newBudget, c);
    }
    CheckInvariantsIsSound(b);
    NonNegativeAt(extra);
    if IsNonNegative(extra) {
      SetBudgetCompletes(a, newBudget);
    } else {
      DifferenceIsNonNegativeIff(a.budgetDecreases, extra);
    }
  }

  lemma AddAdjustmentAt(a: Acct, adjustment: Pool, c: Code)
    ensures var b := AddAdjustment(a, adjustment);
            && At(b.balance, c) == At(a.balance, c) + At(adjustment, c)
            && At(b.adjustmentsIn, c) - At(b.adjustmentsOut, c)
               == At(a.adjustmentsIn, c) - At(a.adjustmentsOut, c) + At(adjustment, c)
            && (BalancedAt(a, c) ==> BalancedAt(b, c))
  {
    hide Add, Sub, Limit, NonNegative;
    if IsNonNegative(adjustment) {
    } else {
    }
  }

  /** The same for adjustments: one sign, or some counter goes down. */
  lemma AddAdjustmentGrowsCountersIff(a: Acct, adjustment: Pool)
    ensures CountersGrow(a, AddAdjustment(a, adjustment)) <==> OneSign(adjustment)
  {
    hide Add, Sub, Limit, NonNegative, IsNonNegative;
    NonNegativeAt(adjustment);
    if IsNonNegative(adjustment) {
      BelowSum(a.adjustmentsIn, adjustment);
    } else {
      BelowDifferenceIff(a.adjustmentsOut, adjustment);
    }
  }

  lemma AddAdjustmentCompletes(a: Acct, adjustment: Pool)
    requires Sound(a) && OneSign(adjustment)
    ensures Sound(AddAdjustment(a, adjustment)) && CheckInvariants(AddAdjustment(a, adjustment))
  {
    hide Add, Sub, Limit, NonNegative;
    var b := AddAdjustment(a, adjustment);
    forall c ensures BalancedAt(b, c) {
      assert BalancedAt(a, c);
      AddAdjustmentAt(a, adjustment, c);
    }
    AddAdjustmentGrowsCountersIff(a, adjustment);
    GrownStaysNonNegative(a, b);
    CheckInvariantsIsSound(b);
  }

  /** The same for adjustments. */
  lemma AddAdjustmentCompletesIff(a: Acct, adjustment: Pool)
    requires Sound(a)
    ensures CheckInvariants(AddAdjustment(a, adjustment))
            <==> NeverNegative(adjustment) || Below(adjustment, a.adjustmentsOut)
  {
    hide Add, Sub, Limit, NonNegative, IsNonNegative, CheckInvariants;
    var b := AddAdjustment(a, adjustment);
    forall c ensures BalancedAt(b, c) {
      assert BalancedAt(a, c);
      AddAdjustmentAt(a, adjustment, c);
    }
    CheckInvariantsIsSound(b);
    NonNegativeAt(adjustment);
    if IsNonNegative(adjustment) {
      AddAdjustmentCompletes(a, adjustment);
    } else {
      DifferenceIsNonNegativeIff(a.adjustmentsOut, adjustment);
    }
  }

  lemma ImportSpendAt(a: Acct, spend: Pool, c: Code)
    ensures var b := ImportSpend(a, spend);
            && At(b.spent, c) == At(a.spent, c) + At(spend, c)
            && At(b.balance, c) == At(a.balance, c) - At(spend, c)
            && (BalancedAt(a, c) ==> BalancedAt(b, c))
  {
    hide Add, Sub, Limit, NonNegative;
  }

  /** Importing spend is admitted exactly for a sound spend account that can pay,
      and then completes without overdrawing it. */
  lemma ImportSpendCompletes(a: Acct, spend: Pool)
    ensures MayImport(a, spend)
            <==> a.kind == AT_SPEND && NeverNegative(spend) && Sound(a) && Below(spend, a.balance)
    ensures MayImport(a, spend) ==>
              && CheckInvariants(ImportSpend(a, spend)) && Sound(ImportSpend(a, spend))
              && CountersGrow(a, ImportSpend(a, spend)) && NeverNegative(ImportSpend(a, spend).balance)
  {
    hide Add, Sub, Limit, NonNegative;
    var rest := Sub(a.balance, spend);
    CheckInvariantsIsSound(a);
    NonNegativeAt(spend);
    NonNegativeAt(rest);
    assert NeverNegative(rest) <==> Below(spend, a.balance) by {
      forall c ensures At(rest, c) >= 0 <==> At(spend, c) <= At(a.balance, c) {
      }
    }
    if MayImport(a, spend) {
      var b := ImportSpend(a, spend);
      BelowSum(a.spent, spend);
      GrownStaysNonNegative(a, b);
      forall c ensures BalancedAt(b, c) {
        assert BalancedAt(a, c);
        ImportSpendAt(a, spend, c);
      }
      CheckInvariantsIsSound(b);
    }
  }

  // ------------------------------------------------- what each operation writes

  /** All of b but what a budget change may write is as in a. */
  ghost predicate SameButBudget(a: Acct, b: Acct) {
    b == a.(budgetIncreases := b.budgetIncreases, budgetDecreases := b.budgetDecreases, balance := b.balance,
            status := b.status)
  }

  /** `setBudget` leaves the account active, and one counter in which the change
      shows: what is added to the budget when nothing is taken out in any currency,
      else what is taken out. Nothing else is written. */
  lemma SetBudgetWrites(a: Acct, newBudget: Pool)
    ensures var b := SetBudget(a, newBudget);
            && b.status == ACTIVE && SameButBudget(a, b)
            && (if forall c :: At(b.balance, c) >= At(a.balance, c)
                then b.budgetDecreases == a.budgetDecreases
                     && forall c :: At(b.budgetIncreases, c) - At(a.budgetIncreases, c)
                                    == At(b.balance, c) - At(a.balance, c)
                else b.budgetIncreases == a.budgetIncreases
                     && forall c :: At(b.budgetDecreases, c) - At(a.budgetDecreases, c)
                                    == At(a.balance, c) - At(b.balance, c))
  {
    hide Add, Sub, Limit, NonNegative, ExtraBudget, IsNonNegative;
    var extra, b := ExtraBudget(a, newBudget), SetBudget(a, newBudget);
    NonNegativeAt(extra);
    ChangeBudgetSides(a, extra);
    forall c ensures At(b.balance, c) - At(a.balance, c) == At(extra, c) {
    }
    if forall c :: At(b.balance, c) >= At(a.balance, c) {
      forall c ensures At(extra, c) >= 0 {
        assert At(b.balance, c) >= At(a.balance, c);
      }
    }
  }

  lemma ChangeBudgetSides(a: Acct, extra: Pool)
    ensures var b := ChangeBudget(a, extra);
            && b.balance == Add(a.balance, extra) && b.status == ACTIVE && SameButBudget(a, b)
            && (if IsNonNegative(extra)
                then b.budgetDecreases == a.budgetDecreases && b.budgetIncreases == Add(a.budgetIncreases, extra)
                else b.budgetIncreases == a.budgetIncreases && b.budgetDecreases == Sub(a.budgetDecreases, extra))
  {
    hide Add, Sub, IsNonNegative;
    if IsNonNegative(extra) {
    } else {
    }
  }

  /** An adjustment shows in one counter, the one for money coming in when it takes
      nothing out in any currency. Nothing but that and the balance is written. */
  lemma AddAdjustmentWrites(a: Acct, adjustment: Pool)
    ensures var b := AddAdjustment(a, adjustment);
            && b == a.(adjustmentsIn := b.adjustmentsIn, adjustmentsOut := b.adjustmentsOut, balance := b.balance)
            && (if NeverNegative(adjustment)
                then b.adjustmentsOut == a.adjustmentsOut
                     && forall c :: At(b.adjustmentsIn, c) == At(a.adjustmentsIn, c) + At(adjustment, c)
                else b.adjustmentsIn == a.adjustmentsIn
                     && forall c :: At(b.adjustmentsOut, c) == At(a.adjustmentsOut, c) - At(adjustment, c))
  {
    hide Add, Sub, IsNonNegative;
    NonNegativeAt(adjustment);
    if IsNonNegative(adjustment) {
    } else {
    }
  }

  /** Imported spend goes from the balance to what was spent, and nowhere else. */
  lemma ImportSpendWrites(a: Acct, spend: Pool)
    ensures var b := ImportSpend(a, spend);
            && b == a.(balance := b.balance, spent := b.spent)
            && forall c :: At(b.spent, c) - At(a.spent, c) == At(a.balance, c) - At(b.balance, c) == At(spend, c)
  {
    hide Add, Sub;
  }

  /** A transfer writes four fields on either side, besides the history. */
  lemma TransferWrites(child: Acct, parent: Acct, t: Transfer)
    ensures var b := MoveChild(child, t);
            b == child.(recycledIn := b.recycledIn, budgetIncreases := b.budgetIncreases, recycledOut := b.recycledOut,
                        balance := b.balance, crossedDown := b.crossedDown, crossedUp := b.crossedUp)
    ensures var p := MoveParent(parent, t);
            p == parent.(recycledOut := p.recycledOut, allocatedOut := p.allocatedOut, recycledIn := p.recycledIn,
                         balance := p.balance)
  {
    hide Add, Sub;
  }
}
