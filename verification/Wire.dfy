/** What becomes of accounts and shadows when they are written as JSON values and
  read back. The balance of an account is not written; reading works it out.
 */
module Wire {
  import opened Currency
  import opened AccountSpec
  import opened ShadowSpec

  function NormalItems(items: LineItems): LineItems {
    map name | name in items :: Normal(items[name])
  }

  /** A shadow account as the other side reads it. */
  function WireShadow(s: Shadow): Shadow {
    Shadow(ACTIVE, Normal(s.netBudget), Normal(s.commitmentsRetired), Normal(s.commitmentsMade), Normal(s.spent),
           Normal(s.balance), NormalItems(s.lineItems), map[])
  }

  /** The counters of an account as they are read back. */
  function ReadCounters(a: Acct): Acct {
    Acct(a.kind, a.status, Normal(a.budgetIncreases), Normal(a.budgetDecreases), Normal(a.recycledIn),
         Normal(a.allocatedIn), Normal(a.commitmentsRetired), Normal(a.adjustmentsIn), Normal(a.recycledOut),
         Normal(a.allocatedOut), Normal(a.commitmentsMade), Normal(a.adjustmentsOut), Normal(a.spent), map[],
         NormalItems(a.lineItems), {}, a.crossedDown, a.crossedUp)
  }

  /** `Account::toJson` read by `Account::fromJson`, which checks the result. */
  function WireAccount(a: Acct): Acct {
    var r := ReadCounters(a);
    r.(balance := Sub(CreditPool(r), DebitPool(r)))
  }

  ghost predicate SameCounters(a: Acct, b: Acct) {
    && Same(a.budgetIncreases, b.budgetIncreases) && Same(a.budgetDecreases, b.budgetDecreases)
    && Same(a.recycledIn, b.recycledIn) && Same(a.recycledOut, b.recycledOut)
    && Same(a.allocatedIn, b.allocatedIn) && Same(a.allocatedOut, b.allocatedOut)
    && Same(a.commitmentsRetired, b.commitmentsRetired) && Same(a.commitmentsMade, b.commitmentsMade)
    && Same(a.adjustmentsIn, b.adjustmentsIn) && Same(a.adjustmentsOut, b.adjustmentsOut)
    && Same(a.spent, b.spent)
  }

  lemma ReadCountersSame(a: Acct)
    ensures SameCounters(ReadCounters(a), a) && SameItems(ReadCounters(a).lineItems, a.lineItems)
  {
    hide Normal;
  }

  lemma SumsOfSame(a: Acct, b: Acct, c: Code)
    requires SameCounters(a, b)
    ensures Credit(a, c) == Credit(b, c) && Debit(a, c) == Debit(b, c)
  {
    assert At(a.budgetIncreases, c) == At(b.budgetIncreases, c) && At(a.budgetDecreases, c) == At(b.budgetDecreases, c);
    assert At(a.recycledIn, c) == At(b.recycledIn, c) && At(a.recycledOut, c) == At(b.recycledOut, c);
    assert At(a.allocatedIn, c) == At(b.allocatedIn, c) && At(a.allocatedOut, c) == At(b.allocatedOut, c);
    assert At(a.commitmentsRetired, c) == At(b.commitmentsRetired, c);
    assert At(a.commitmentsMade, c) == At(b.commitmentsMade, c) && At(a.spent, c) == At(b.spent, c);
    assert At(a.adjustmentsIn, c) == At(b.adjustmentsIn, c) && At(a.adjustmentsOut, c) == At(b.adjustmentsOut, c);
  }

  lemma NormalKeepsSign(p: Pool)
    ensures NeverNegative(Normal(p)) <==> NeverNegative(p)
  {
    hide Normal;
    forall c ensures At(Normal(p), c) >= 0 <==> At(p, c) >= 0 {
    }
    if NeverNegative(Normal(p)) {
      forall c ensures At(p, c) >= 0 {
        assert At(Normal(p), c) >= 0;
      }
    }
  }

  lemma ReadCountersKeepSign(a: Acct)
    ensures NonNegativeCounters(WireAccount(a)) <==> NonNegativeCounters(a)
  {
    hide Normal, Sub, CreditPool, DebitPool, NeverNegative;
    NormalKeepsSign(a.budgetIncreases);
    NormalKeepsSign(a.budgetDecreases);
    NormalKeepsSign(a.recycledIn);
    NormalKeepsSign(a.recycledOut);
    NormalKeepsSign(a.allocatedIn);
    NormalKeepsSign(a.allocatedOut);
    NormalKeepsSign(a.commitmentsRetired);
    NormalKeepsSign(a.commitmentsMade);
    NormalKeepsSign(a.adjustmentsIn);
    NormalKeepsSign(a.adjustmentsOut);
    NormalKeepsSign(a.spent);
  }

  lemma WireAccountAt(a: Acct, c: Code)
    ensures At(WireAccount(a).balance, c) == Credit(a, c) - Debit(a, c) && BalancedAt(WireAccount(a), c)
  {
    hide Normal, Sub, CreditPool, DebitPool;
    var r := ReadCounters(a);
    ReadCountersSame(a);
    SidesAt(r, c);
    SumsOfSame(r, a, c);
  }

  /** Reading back what was written succeeds exactly for accounts whose counters
      are not negative. For a balanced account it gives the same account: kind,
      status, all counters, line items and, though it was not written, balance. */
  lemma WireAccountIsSame(a: Acct)
    ensures CheckInvariants(WireAccount(a)) <==> NonNegativeCounters(a)
    ensures SameCounters(WireAccount(a), a) && SameItems(WireAccount(a).lineItems, a.lineItems)
    ensures WireAccount(a).kind == a.kind && WireAccount(a).status == a.status
    ensures Balanced(a) ==> Same(WireAccount(a).balance, a.balance)
  {
    hide Normal, Sub, CreditPool, DebitPool, NonNegativeCounters;
    var w := WireAccount(a);
    ReadCountersSame(a);
    ReadCountersKeepSign(a);
    forall c ensures BalancedAt(w, c) && (BalancedAt(a, c) ==> At(w.balance, c) == At(a.balance, c)) {
      WireAccountAt(a, c);
    }
    CheckInvariantsIsSound(w);
    assert SameCounters(w, a) by {
      WireKeepsCounters(a);
    }
    if Balanced(a) {
      forall c ensures At(w.balance, c) == At(a.balance, c) {
        assert BalancedAt(a, c);
      }
    }
  }

  lemma WireKeepsCounters(a: Acct)
    ensures SameCounters(WireAccount(a), a)
  {
    hide Normal, Sub, CreditPool, DebitPool;
  }

  /** A shadow read back has the amounts and line items it was written with. */
  lemma WireShadowIsSame(s: Shadow)
    ensures CheckShadow(WireShadow(s)) <==> CheckShadow(s)
    ensures var w := WireShadow(s);
            && Same(w.commitmentsMade, s.commitmentsMade) && Same(w.commitmentsRetired, s.commitmentsRetired)
            && Same(w.spent, s.spent) && Same(w.netBudget, s.netBudget) && Same(w.balance, s.balance)
            && SameItems(w.lineItems, s.lineItems)
  {
    hide Normal, CheckShadow;
    CheckShadowIsSound(s);
    CheckShadowIsSound(WireShadow(s));
    NormalKeepsSign(s.commitmentsMade);
    NormalKeepsSign(s.commitmentsRetired);
    NormalKeepsSign(s.spent);
    forall c ensures ShadowBalancedAt(WireShadow(s), c) <==> ShadowBalancedAt(s, c) {
    }
    if SoundShadow(WireShadow(s)) {
      forall c ensures ShadowBalancedAt(s, c) {
        assert ShadowBalancedAt(WireShadow(s), c);
      }
    }
  }
}
