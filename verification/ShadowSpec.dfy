/** The shadow account a bidder keeps, and how it meets its master account. */
module ShadowSpec {
  import opened Currency
  import opened AccountSpec

  datatype Shadow = Shadow(
    status: Status,
    netBudget: Pool,
    commitmentsRetired: Pool,
    commitmentsMade: Pool,
    spent: Pool,
    balance: Pool,
    lineItems: LineItems,
    commitments: map<string, Amount>)

  const FRESH := Shadow(ACTIVE, map[], map[], map[], map[], map[], map[], map[])

  /** `ShadowAccount::checkInvariants`. */
  predicate CheckShadow(s: Shadow) {
    && IsNonNegative(s.commitmentsRetired)
    && IsNonNegative(s.commitmentsMade)
    && IsNonNegative(s.spent)
    && Equal(Add(s.netBudget, s.commitmentsRetired), Add(Add(s.commitmentsMade, s.spent), s.balance))
  }

  ghost predicate ShadowBalancedAt(s: Shadow, c: Code) {
    At(s.netBudget, c) + At(s.commitmentsRetired, c)
    == At(s.commitmentsMade, c) + At(s.spent, c) + At(s.balance, c)
  }

  ghost predicate SoundShadow(s: Shadow) {
    && NeverNegative(s.commitmentsRetired)
    && NeverNegative(s.commitmentsMade)
    && NeverNegative(s.spent)
    && forall c :: ShadowBalancedAt(s, c)
  }

  lemma CheckShadowIsSound(s: Shadow)
    ensures CheckShadow(s) <==> SoundShadow(s)
  {
    hide Add, Sub, Limit, NonNegative;
    NonNegativeAt(s.commitmentsRetired);
    NonNegativeAt(s.commitmentsMade);
    NonNegativeAt(s.spent);
    var l, r := Add(s.netBudget, s.commitmentsRetired), Add(Add(s.commitmentsMade, s.spent), s.balance);
    forall c ensures At(l, c) == At(r, c) <==> ShadowBalancedAt(s, c) {
    }
    assert Equal(l, r) <==> Same(l, r);
  }

  // ------------------------------------------------------------ to the master

  /** What `syncToMaster` asserts before it writes anything: both sides are sound
      and no counter of the snapshot is behind the master's. */
  predicate MaySync(s: Shadow, m: Acct) {
    && CheckShadow(s)
    && CheckInvariants(m)
    && IsNonNegative(Sub(s.commitmentsMade, m.commitmentsMade))
    && IsNonNegative(Sub(s.commitmentsRetired, m.commitmentsRetired))
    && IsNonNegative(Sub(s.spent, m.spent))
  }

  function SyncToMaster(s: Shadow, m: Acct): Acct {
    var newMade := Sub(s.commitmentsMade, m.commitmentsMade);
    var newRetired := Sub(s.commitmentsRetired, m.commitmentsRetired);
    var newSpend := Sub(s.spent, m.spent);
    m.(commitmentsRetired := s.commitmentsRetired,
       commitmentsMade := s.commitmentsMade,
       spent := s.spent,
       balance := Add(m.balance, Sub(Sub(newRetired, newMade), newSpend)),
       lineItems := s.lineItems)
  }

  lemma SubIsNonNegative(p: Pool, q: Pool)
    ensures IsNonNegative(Sub(p, q)) <==> Below(q, p)
  {
    hide Add, Sub, Limit, NonNegative;
    var d := Sub(p, q);
    NonNegativeAt(d);
    forall c ensures At(d, c) >= 0 <==> At(q, c) <= At(p, c) {
    }
  }

  /** A snapshot is accepted exactly when it is sound, the master is sound, and
      none of the three counters is behind the master's in any currency. */
  lemma MaySyncIff(s: Shadow, m: Acct)
    ensures MaySync(s, m)
            <==> SoundShadow(s) && Sound(m) && Below(m.commitmentsMade, s.commitmentsMade)
                 && Below(m.commitmentsRetired, s.commitmentsRetired) && Below(m.spent, s.spent)
  {
    CheckShadowIsSound(s);
    CheckInvariantsIsSound(m);
    SubIsNonNegative(s.commitmentsMade, m.commitmentsMade);
    SubIsNonNegative(s.commitmentsRetired, m.commitmentsRetired);
    SubIsNonNegative(s.spent, m.spent);
  }

  lemma SyncAt(s: Shadow, m: Acct, c: Code)
    ensures var m' := SyncToMaster(s, m);
            && At(m'.balance, c)
               == At(m.balance, c) + At(s.commitmentsRetired, c) - At(m.commitmentsRetired, c)
                  - At(s.commitmentsMade, c) + At(m.commitmentsMade, c) - At(s.spent, c) + At(m.spent, c)
            && (BalancedAt(m, c) ==> BalancedAt(m', c))
  {
    hide Add, Sub, Limit, NonNegative;
  }

  /** An accepted snapshot completes: the closing check passes. */
  lemma SyncCompletes(s: Shadow, m: Acct)
    requires MaySync(s, m)
    ensures Sound(SyncToMaster(s, m)) && CheckInvariants(SyncToMaster(s, m)) && CountersGrow(m, SyncToMaster(s, m))
  {
    hide Add, Sub, Limit, NonNegative;
    MaySyncIff(s, m);
    var m' := SyncToMaster(s, m);
    forall c ensures BalancedAt(m', c) {
      assert BalancedAt(m, c);
      SyncAt(s, m, c);
    }
    CheckInvariantsIsSound(m');
  }

  /** An accepted snapshot leaves its counters and its line items with the master,
      the balance that goes with them, and all else of the master as it was. */
  lemma SyncWrites(s: Shadow, m: Acct)
    requires MaySync(s, m)
    ensures var m' := SyncToMaster(s, m);
            && Same(m'.commitmentsRetired, s.commitmentsRetired) && Same(m'.commitmentsMade, s.commitmentsMade)
            && Same(m'.spent, s.spent) && SameItems(m'.lineItems, s.lineItems) && Balanced(m')
            && m' == m.(commitmentsRetired := m'.commitmentsRetired, commitmentsMade := m'.commitmentsMade,
                        spent := m'.spent, balance := m'.balance, lineItems := m'.lineItems)
  {
    hide Add, Sub, MaySync;
    SyncCompletes(s, m);
  }

  // ---------------------------------------------------------- from the master

  /** `syncFromMaster`, once both sides have passed their checks. */
  function SyncFromMaster(s: Shadow, m: Acct): Shadow {
    var netBudget := NetBudget(m);
    s.(netBudget := netBudget,
       balance := Sub(Sub(Add(netBudget, s.commitmentsRetired), s.commitmentsMade), s.spent),
       status := m.status)
  }

  /** The closing check of `syncFromMaster` cannot fail. */
  lemma SyncFromMasterIsSound(s: Shadow, m: Acct)
    requires SoundShadow(s)
    ensures SoundShadow(SyncFromMaster(s, m)) && CheckShadow(SyncFromMaster(s, m))
  {
    hide Add, Sub, NetBudget, CheckShadow;
    CheckShadowIsSound(SyncFromMaster(s, m));
  }

  /** When the master holds this shadow's own counters, a sync gives the shadow
      the master's balance. */
  lemma SyncFromMasterAgrees(s: Shadow, m: Acct)
    requires Balanced(m)
    requires Same(m.commitmentsMade, s.commitmentsMade) && Same(m.commitmentsRetired, s.commitmentsRetired)
             && Same(m.spent, s.spent)
    ensures Same(SyncFromMaster(s, m).balance, m.balance)
  {
    hide Add, Sub, NetBudget;
    var s' := SyncFromMaster(s, m);
    forall c ensures At(s'.balance, c) == At(m.balance, c) {
      NetBudgetAt(m, c);
      assert BalancedAt(m, c);
      assert At(m.commitmentsMade, c) == At(s.commitmentsMade, c);
      assert At(m.commitmentsRetired, c) == At(s.commitmentsRetired, c);
      assert At(m.spent, c) == At(s.spent, c);
    }
  }

  /** A shadow takes over the master's status and net budget; its own counters, line
      items and open commitments stay. */
  lemma SyncFromMasterWrites(s: Shadow, m: Acct)
    ensures var s' := SyncFromMaster(s, m);
            && s'.status == m.status && Same(s'.netBudget, NetBudget(m))
            && s' == s.(netBudget := s'.netBudget, balance := s'.balance, status := s'.status)
  {
    hide Add, Sub, NetBudget;
  }
}
