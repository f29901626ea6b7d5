/** A shadow account may start bidding before it hears from its master. Merging
  the master's state in afterwards comes to the same as having had it from the
  start.
 */
module LateInit {
  import opened Currency
  import opened AccountSpec
  import opened ShadowSpec
  import opened ShadowRuns

  /** `initializeAndMergeState`. */
  function InitializeAndMerge(s: Shadow, m: Acct): Shadow {
    var netBudget := NetBudget(m);
    var made := Add(s.commitmentsMade, m.commitmentsMade);
    var retired := Add(s.commitmentsRetired, m.commitmentsRetired);
    var spent := Add(s.spent, m.spent);
    s.(netBudget := netBudget,
       commitmentsMade := made,
       commitmentsRetired := retired,
       spent := spent,
       lineItems := AddItems(s.lineItems, m.lineItems),
       balance := Sub(Sub(Add(netBudget, retired), made), spent))
  }

  // ---------------------------------------------------------- before and after

  /** t is what s would be, had s known m from the start: in currency c. */
  ghost predicate MergedAt(s: Shadow, t: Shadow, m: Acct, c: Code) {
    && At(s.netBudget, c) == 0
    && At(t.netBudget, c) == At(NetBudget(m), c)
    && At(t.commitmentsMade, c) == At(s.commitmentsMade, c) + At(m.commitmentsMade, c)
    && At(t.commitmentsRetired, c) == At(s.commitmentsRetired, c) + At(m.commitmentsRetired, c)
    && At(t.spent, c) == At(s.spent, c) + At(m.spent, c)
    && At(t.balance, c) == At(s.balance, c) + At(m.balance, c)
  }

  ghost predicate Merged(s: Shadow, t: Shadow, m: Acct) {
    && t.commitments == s.commitments && t.status == s.status
    && SameItems(t.lineItems, AddItems(s.lineItems, m.lineItems))
    && forall c :: MergedAt(s, t, m, c)
  }

  /** Two shadows that agree on everything, pools compared amount by amount. */
  ghost predicate SameShadow(t: Shadow, u: Shadow) {
    && t.commitments == u.commitments && t.status == u.status && SameItems(t.lineItems, u.lineItems)
    && Same(t.netBudget, u.netBudget) && Same(t.commitmentsMade, u.commitmentsMade)
    && Same(t.commitmentsRetired, u.commitmentsRetired) && Same(t.spent, u.spent) && Same(t.balance, u.balance)
  }

  lemma SoundBalance(m: Acct, c: Code)
    requires Sound(m)
    ensures At(NetBudget(m), c) + At(m.commitmentsRetired, c)
         == At(m.commitmentsMade, c) + At(m.spent, c) + At(m.balance, c)
  {
    hide NetBudget;
    NetBudgetAt(m, c);
    assert BalancedAt(m, c);
  }

  lemma MergedIsSound(s: Shadow, t: Shadow, m: Acct)
    requires Merged(s, t, m) && SoundShadow(s) && Sound(m)
    ensures SoundShadow(t) && CheckShadow(t)
  {
    hide NetBudget, CheckShadow, Sound;
    forall c
      ensures At(t.commitmentsMade, c) >= 0 && At(t.commitmentsRetired, c) >= 0 && At(t.spent, c) >= 0
      ensures ShadowBalancedAt(t, c)
    {
      assert MergedAt(s, t, m, c) && ShadowBalancedAt(s, c);
      assert At(s.commitmentsMade, c) >= 0 && At(s.commitmentsRetired, c) >= 0 && At(s.spent, c) >= 0;
      SoundBalance(m, c);
      SoundCounters(m, c);
    }
    CheckShadowIsSound(t);
  }

  lemma SoundCounters(m: Acct, c: Code)
    requires Sound(m)
    ensures At(m.commitmentsMade, c) >= 0 && At(m.commitmentsRetired, c) >= 0 && At(m.spent, c) >= 0
  {
  }

  lemma InitializeIsMerged(s: Shadow, m: Acct)
    requires SoundShadow(s) && Sound(m) && forall c :: At(s.netBudget, c) == 0
    ensures Merged(s, InitializeAndMerge(s, m), m)
  {
    hide NetBudget, Sound, Add, Sub, AddItems;
    var t := InitializeAndMerge(s, m);
    forall c ensures MergedAt(s, t, m, c) {
      assert ShadowBalancedAt(s, c);
      SoundBalance(m, c);
    }
  }

  // ------------------------------------------------------------ step by step

  lemma SettleMerged(s: Shadow, t: Shadow, m: Acct, authorized: Amount, paid: Amount, unspent: Amount)
    requires Merged(s, t, m)
    ensures Merged(Settle(s, authorized, paid, unspent), Settle(t, authorized, paid, unspent), m)
  {
    hide NetBudget, AddAmount, AddItems, Share, SameItems;
    var s', t' := Settle(s, authorized, paid, unspent), Settle(t, authorized, paid, unspent);
    forall c ensures MergedAt(s', t', m, c) {
      assert MergedAt(s, t, m, c);
    }
  }

  lemma CountMerged(s: Shadow, t: Shadow, m: Acct, amount: Amount)
    requires Merged(s, t, m)
    ensures Merged(Count(s, amount), Count(t, amount), m)
  {
    hide NetBudget, AddAmount, AddItems, Share, SameItems;
    forall c ensures MergedAt(Count(s, amount), Count(t, amount), m, c) {
      assert MergedAt(s, t, m, c);
    }
  }

  lemma AddItemsAt(x: LineItems, more: LineItems, name: string, c: Code)
    requires name in AddItems(x, more)
    ensures At(AddItems(x, more)[name], c) == At(ItemOf(x, name), c) + At(ItemOf(more, name), c)
  {
    hide Add;
  }

  /** The order in which line items are added does not matter. */
  lemma ItemsCommute(x: LineItems, y: LineItems, more: LineItems, m: LineItems)
    requires SameItems(y, AddItems(x, m))
    ensures SameItems(AddItems(y, more), AddItems(AddItems(x, more), m))
  {
    hide Add, At;
    var l, r := AddItems(y, more), AddItems(AddItems(x, more), m);
    forall name | name in l ensures Same(l[name], r[name]) {
      forall c ensures At(l[name], c) == At(r[name], c) {
        AddItemsAt(y, more, name, c);
        AddItemsAt(AddItems(x, more), m, name, c);
        ItemOfSum(x, more, name, c);
        ItemOfSum(x, m, name, c);
        if name in y {
          assert At(y[name], c) == At(AddItems(x, m)[name], c);
        }
      }
    }
  }

  lemma ItemOfSum(x: LineItems, more: LineItems, name: string, c: Code)
    ensures At(ItemOf(AddItems(x, more), name), c) == At(ItemOf(x, name), c) + At(ItemOf(more, name), c)
  {
    hide Add;
  }

  lemma ItemsMerged(s: Shadow, t: Shadow, m: Acct, more: LineItems)
    requires Merged(s, t, m)
    ensures Merged(s.(lineItems := AddItems(s.lineItems, more)), t.(lineItems := AddItems(t.lineItems, more)), m)
  {
    hide NetBudget, AddItems, SameItems;
    var s', t' := s.(lineItems := AddItems(s.lineItems, more)), t.(lineItems := AddItems(t.lineItems, more));
    ItemsCommute(s.lineItems, t.lineItems, more, m.lineItems);
    forall c ensures MergedAt(s', t', m, c) {
      assert MergedAt(s, t, m, c);
    }
  }

  lemma DetachMerged(s: Shadow, t: Shadow, m: Acct, item: string)
    requires Merged(s, t, m)
    ensures Merged(Detached(s, item), Detached(t, item), m)
  {
    hide NetBudget, AddItems, SameItems;
    forall c ensures MergedAt(Detached(s, item), Detached(t, item), m, c) {
      assert MergedAt(s, t, m, c);
    }
  }

  lemma AuthorizeMerged(s: Shadow, t: Shadow, m: Acct, item: string, amount: Amount)
    requires Merged(s, t, m) && SoundShadow(s) && Sound(m) && NeverNegative(m.balance)
    requires AuthorizeBid(s, item, amount).1
    ensures AuthorizeBid(t, item, amount).1
    ensures Merged(AuthorizeBid(s, item, amount).0.shadow, AuthorizeBid(t, item, amount).0.shadow, m)
  {
    hide NetBudget, AddAmount, SubAmount, AddItems, Share, SameItems, CheckShadow, Sound, SoundShadow;
    MergedIsSound(s, t, m);
    assert MergedAt(s, t, m, amount.code) && At(m.balance, amount.code) >= 0;
    var s' := AuthorizeBid(s, item, amount).0.shadow;
    var t' := t.(commitments := t.commitments[item := amount],
                 balance := SubAmount(t.balance, amount),
                 commitmentsMade := AddAmount(t.commitmentsMade, amount));
    forall c ensures MergedAt(s', t', m, c) {
      assert MergedAt(s, t, m, c);
    }
    CheckShadowIsSound(s');
    MergedIsSound(s', t', m);
  }

  lemma BidMerged(s: Shadow, t: Shadow, m: Acct, authorized: Amount, paid: Amount, items: LineItems)
    requires Merged(s, t, m) && Sound(m) && CommitDetachedBid(s, authorized, paid, items).ok
    ensures var o, o' := CommitDetachedBid(s, authorized, paid, items), CommitDetachedBid(t, authorized, paid, items);
            o'.ok && Merged(o.shadow, o'.shadow, m)
  {
    hide Merged, AddItems, CheckShadow, Sound, SoundShadow, Minus, Settle, Count;
    CheckShadowIsSound(s);
    MergedIsSound(s, t, m);
    var unspent := Minus(authorized, paid).value;
    var s1, t1 := Settle(s, authorized, paid, unspent), Settle(t, authorized, paid, unspent);
    SettleMerged(s, t, m, authorized, paid, unspent);
    if paid.value == 0 {
      LastCheck(s1, t1, m, items);
    } else {
      CheckShadowIsSound(s1);
      MergedIsSound(s1, t1, m);
      CountMerged(s1, t1, m, IMPRESSION);
      var s2, t2 := Count(s1, IMPRESSION), Count(t1, IMPRESSION);
      CheckShadowIsSound(s2);
      MergedIsSound(s2, t2, m);
      LastCheck(s2, t2, m, items);
    }
  }

  lemma LastCheck(s: Shadow, t: Shadow, m: Acct, items: LineItems)
    requires Merged(s, t, m) && Sound(m) && CheckShadow(s.(lineItems := AddItems(s.lineItems, items)))
    ensures CheckShadow(t.(lineItems := AddItems(t.lineItems, items)))
    ensures Merged(s.(lineItems := AddItems(s.lineItems, items)), t.(lineItems := AddItems(t.lineItems, items)), m)
  {
    hide Merged, AddItems, CheckShadow, Sound, SoundShadow;
    ItemsMerged(s, t, m, items);
    CheckShadowIsSound(s.(lineItems := AddItems(s.lineItems, items)));
    MergedIsSound(s.(lineItems := AddItems(s.lineItems, items)), t.(lineItems := AddItems(t.lineItems, items)), m);
  }

  /** The step neither throws nor is denied the bid it asks for. */
  predicate Effective(s: Shadow, step: Step) {
    Take(s, step).ok && (step.Authorize? ==> AuthorizeBid(s, step.item, step.amount).1)
  }

  /** A step that is effective on s is effective on t, and keeps them merged. */
  lemma StepMerged(s: Shadow, t: Shadow, m: Acct, step: Step)
    requires Merged(s, t, m) && SoundShadow(s) && Sound(m) && NeverNegative(m.balance) && Effective(s, step)
    ensures Effective(t, step) && Merged(Take(s, step).shadow, Take(t, step).shadow, m)
    ensures SoundShadow(Take(s, step).shadow)
  {
    hide AddItems, CheckShadow, Sound, SoundShadow, Settle, Count, CommitDetachedBid, AuthorizeBid, MergedAt, SameItems,
         Detached, NeverNegative;
    CheckShadowIsSound(s);
    MergedIsSound(s, t, m);
    EffectiveIsSound(s, step);
    match step {
      case Authorize(item, amount) =>
        AuthorizeMerged(s, t, m, item, amount);
        GrantedIsOk(t, item, amount);
      case Commit(item, paid, items) =>
        DetachMerged(s, t, m, item);
        BidMerged(Detached(s, item), Detached(t, item), m, s.commitments[item], paid, items);
      case Cancel(item) =>
        DetachMerged(s, t, m, item);
        BidMerged(Detached(s, item), Detached(t, item), m, s.commitments[item], NOTHING, map[]);
      case ForceWin(paid, items) =>
        BidMerged(s, t, m, NOTHING, paid, items);
      case Event(amount) =>
        CountMerged(s, t, m, amount);
        CheckShadowIsSound(Count(s, amount));
        MergedIsSound(Count(s, amount), Count(t, amount), m);
    }
  }

  lemma GrantedIsOk(s: Shadow, item: string, amount: Amount)
    requires AuthorizeBid(s, item, amount).1
    ensures AuthorizeBid(s, item, amount).0.ok
  {
  }

  lemma EffectiveIsSound(s: Shadow, step: Step)
    requires Effective(s, step)
    ensures SoundShadow(Take(s, step).shadow)
  {
    hide AddItems, SoundShadow, Settle, Count, Detached, CheckShadow;
    CheckShadowIsSound(Take(s, step).shadow);
  }

  ghost predicate EffectiveRun(s: Shadow, steps: seq<Step>) {
    steps != [] ==>
      var front := steps[..|steps| - 1];
      EffectiveRun(s, front) && Effective(AfterFrom(s, front), steps[|steps| - 1])
  }

  lemma {:induction false} RunMerged(s: Shadow, t: Shadow, m: Acct, steps: seq<Step>)
    requires Merged(s, t, m) && SoundShadow(s) && Sound(m) && NeverNegative(m.balance) && EffectiveRun(s, steps)
    ensures EffectiveRun(t, steps) && Merged(AfterFrom(s, steps), AfterFrom(t, steps), m)
    ensures SoundShadow(AfterFrom(s, steps))
  {
    hide Take, Effective, Merged, Sound, SoundShadow, NeverNegative;
    if steps != [] {
      var front := steps[..|steps| - 1];
      RunMerged(s, t, m, front);
      StepMerged(AfterFrom(s, front), AfterFrom(t, front), m, steps[|steps| - 1]);
    }
  }

  /** A fresh shadow that runs any effective steps and then merges the master's
      state in is in the same state as one that merges first and then runs the
      same steps, all of which are effective there too, whenever the master is
      not overdrawn. */
  lemma LateIsSameAsReplay(m: Acct, steps: seq<Step>)
    requires Sound(m) && NeverNegative(m.balance) && EffectiveRun(FRESH, steps)
    ensures EffectiveRun(InitializeAndMerge(FRESH, m), steps)
    ensures SameShadow(AfterFrom(InitializeAndMerge(FRESH, m), steps), InitializeAndMerge(AfterFrom(FRESH, steps), m))
  {
    hide Take, Effective, Sound, SoundShadow, NeverNegative, InitializeAndMerge, NetBudget, AddItems, SameItems;
    FreshIsSound();
    var early := InitializeAndMerge(FRESH, m);
    InitializeIsMerged(FRESH, m);
    RunMerged(FRESH, early, m, steps);
    var s := AfterFrom(FRESH, steps);
    forall c ensures At(s.netBudget, c) == 0 {
      assert MergedAt(s, AfterFrom(early, steps), m, c);
    }
    InitializeIsMerged(s, m);
    var t, u := AfterFrom(early, steps), InitializeAndMerge(s, m);
    MergedIsUnique(s, t, u, m);
  }

  /** What the source promises: merging late gives the state that merging first and
      replaying gives. */
  ghost predicate MergesAsReplayed(m: Acct, steps: seq<Step>) {
    SameShadow(AfterFrom(InitializeAndMerge(FRESH, m), steps), InitializeAndMerge(AfterFrom(FRESH, steps), m))
  }

  /** The promise is kept for every effective run, and every such run is effective in
      the replay too, exactly when the master is not overdrawn: a fresh shadow
      grants a bid of nothing, one that knows an overdrawn master does not, and the
      bid is then open on one side only. */
  lemma LateIsReplayIff(m: Acct)
    requires Sound(m)
    ensures NeverNegative(m.balance) <==> forall steps | EffectiveRun(FRESH, steps) :: MergesAsReplayed(m, steps)
    ensures NeverNegative(m.balance)
            <==> forall steps | EffectiveRun(FRESH, steps) :: EffectiveRun(InitializeAndMerge(FRESH, m), steps)
  {
    hide Take, Sound, InitializeAndMerge, EffectiveRun, SameShadow;
    if NeverNegative(m.balance) {
      forall steps | EffectiveRun(FRESH, steps)
        ensures EffectiveRun(InitializeAndMerge(FRESH, m), steps) && MergesAsReplayed(m, steps)
      {
        LateIsSameAsReplay(m, steps);
      }
    } else {
      var c :| At(m.balance, c) < 0;
      BidOfNothing(m, c);
    }
  }

  lemma BidOfNothing(m: Acct, c: Code)
    requires Sound(m) && At(m.balance, c) < 0
    ensures var steps := [Authorize("bid", Amount(c, 0))];
            && EffectiveRun(FRESH, steps) && !EffectiveRun(InitializeAndMerge(FRESH, m), steps)
            && !MergesAsReplayed(m, steps)
  {
    hide Sound, InitializeAndMerge, CheckShadow, NetBudget, Add, Sub, AddAmount, SubAmount, SameItems, AddItems;
    var steps := [Authorize("bid", Amount(c, 0))];
    var early := InitializeAndMerge(FRESH, m);
    assert steps[..0] == [];
    FreshIsSound();
    InitializeIsMerged(FRESH, m);
    assert MergedAt(FRESH, early, m, c);
    AuthorizeNothing(c);
    assert AfterFrom(FRESH, steps[..0]) == FRESH && AfterFrom(early, steps[..0]) == early;
    assert !AuthorizeBid(early, "bid", Amount(c, 0)).1;
    assert AfterFrom(early, steps) == early;
    MergeKeepsCommitments(FRESH, m);
    MergeKeepsCommitments(AfterFrom(FRESH, steps), m);
  }

  lemma MergeKeepsCommitments(s: Shadow, m: Acct)
    ensures InitializeAndMerge(s, m).commitments == s.commitments
  {
  }

  lemma AuthorizeNothing(c: Code)
    ensures var (outcome, granted) := AuthorizeBid(FRESH, "bid", Amount(c, 0));
            granted && outcome.ok && "bid" in outcome.shadow.commitments
  {
  }

  lemma MergedIsUnique(s: Shadow, t: Shadow, u: Shadow, m: Acct)
    requires Merged(s, t, m) && Merged(s, u, m)
    ensures SameShadow(t, u)
  {
    hide NetBudget, AddItems;
    forall c
      ensures At(t.netBudget, c) == At(u.netBudget, c) && At(t.commitmentsMade, c) == At(u.commitmentsMade, c)
      ensures At(t.commitmentsRetired, c) == At(u.commitmentsRetired, c) && At(t.spent, c) == At(u.spent, c)
      ensures At(t.balance, c) == At(u.balance, c)
    {
      assert MergedAt(s, t, m, c) && MergedAt(s, u, m, c);
    }
    var items := AddItems(s.lineItems, m.lineItems);
    forall name | name in t.lineItems ensures Same(t.lineItems[name], u.lineItems[name]) {
      assert Same(t.lineItems[name], items[name]) && Same(u.lineItems[name], items[name]);
      forall c ensures At(t.lineItems[name], c) == At(u.lineItems[name], c) {
        assert At(t.lineItems[name], c) == At(items[name], c) == At(u.lineItems[name], c);
      }
    }
  }

  lemma FreshIsSound()
    ensures SoundShadow(FRESH)
  {
  }
}
