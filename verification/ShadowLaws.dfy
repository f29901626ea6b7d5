/** What a bid comes to: the amounts and line items that authorising, paying and
  cancelling leave in the shadow, per currency, for all bids and over all runs.
 */
module ShadowLaws {
  import opened Common
  import opened Currency
  import opened AccountSpec
  import opened ShadowSpec
  import opened ShadowRuns
  import opened LateInit

  /** What of n goes to currency c when it is an amount of currency `code`. */
  function For(c: Code, code: Code, n: int): int {
    if c == code then n else 0
  }

  // ------------------------------------------------------------- authorising

  /** A sound shadow grants a bid exactly when it has the budget, the item is not open,
      and the counter stays non-negative; it answers no exactly when it has not the
      budget. Unless it grants, nothing is written when the bid is not for a negative
      amount. */
  lemma AuthorizeBidIff(s: Shadow, item: string, amount: Amount)
    requires SoundShadow(s)
    ensures var (o, granted) := AuthorizeBid(s, item, amount);
            var has := At(s.balance, amount.code) >= amount.value;
            && (granted <==> has && item !in s.commitments && At(s.commitmentsMade, amount.code) + amount.value >= 0)
            && (o.ok && !granted <==> !has)
            && (!granted && amount.value >= 0 ==> o.shadow == s)
  {
    hide AddAmount, SubAmount, CheckShadow, SoundShadow;
    CheckShadowIsSound(s);
    if At(s.balance, amount.code) >= amount.value && item !in s.commitments {
      var s' := Committed(s, item, amount);
      CheckShadowIsSound(s');
      CommittedIsSoundIff(s, item, amount);
      assert amount.value >= 0 ==> At(s.commitmentsMade, amount.code) >= 0 by {
        SoundMade(s, amount.code);
      }
    }
  }

  lemma SoundMade(s: Shadow, c: Code)
    requires SoundShadow(s)
    ensures At(s.commitmentsMade, c) >= 0
  {
  }

  /** What a granted bid leaves. */
  function Committed(s: Shadow, item: string, amount: Amount): Shadow {
    s.(commitments := s.commitments[item := amount],
       balance := SubAmount(s.balance, amount),
       commitmentsMade := AddAmount(s.commitmentsMade, amount))
  }

  lemma CommittedIsSoundIff(s: Shadow, item: string, amount: Amount)
    requires SoundShadow(s)
    ensures SoundShadow(Committed(s, item, amount)) <==> At(s.commitmentsMade, amount.code) + amount.value >= 0
  {
    hide AddAmount, SubAmount;
    var s' := Committed(s, item, amount);
    assert At(s'.commitmentsMade, amount.code) == At(s.commitmentsMade, amount.code) + amount.value;
    forall c
      ensures ShadowBalancedAt(s', c)
      ensures c != amount.code ==> At(s'.commitmentsMade, c) == At(s.commitmentsMade, c) >= 0
    {
      assert ShadowBalancedAt(s, c);
    }
    if At(s.commitmentsMade, amount.code) + amount.value >= 0 {
      forall c ensures At(s'.commitmentsMade, c) >= 0 {
        if c != amount.code {
          assert At(s'.commitmentsMade, c) == At(s.commitmentsMade, c);
        }
      }
    }
  }

  /** A granted bid moves its amount from the balance to the commitments made, and
      opens the item for it. */
  lemma AuthorizeBidWrites(s: Shadow, item: string, amount: Amount)
    requires AuthorizeBid(s, item, amount).1
    ensures var s' := AuthorizeBid(s, item, amount).0.shadow;
            && s' == s.(commitments := s'.commitments, balance := s'.balance, commitmentsMade := s'.commitmentsMade)
            && item !in s.commitments && s'.commitments == s.commitments[item := amount]
            && forall c :: At(s.balance, c) - At(s'.balance, c)
                           == At(s'.commitmentsMade, c) - At(s.commitmentsMade, c) == For(c, amount.code, amount.value)
  {
    hide AddAmount, SubAmount, CheckShadow;
  }

  // ------------------------------------------------------------------ paying

  /** From s to s' a bid authorised for the first amount was paid with the second:
      the commitment is retired, the payment spent, and the difference back in the
      balance; when anything was paid at all, one impression is spent and retired. */
  ghost predicate PaidAt(s: Shadow, s': Shadow, authorized: Amount, paid: Amount, c: Code) {
    var impressions := if paid.value != 0 then For(c, CC_IMP, 1) else 0;
    && At(s'.commitmentsRetired, c)
       == At(s.commitmentsRetired, c) + For(c, authorized.code, authorized.value) + impressions
    && At(s'.spent, c) == At(s.spent, c) + For(c, paid.code, paid.value) + impressions
    && At(s'.balance, c)
       == At(s.balance, c) + For(c, authorized.code, authorized.value) - For(c, paid.code, paid.value)
  }

  /** The line items are those before and the new ones together, by name and
      currency. */
  ghost predicate ItemsAdded(x: LineItems, more: LineItems, y: LineItems) {
    && y.Keys == x.Keys + more.Keys
    && forall name, c :: At(ItemOf(y, name), c) == At(ItemOf(x, name), c) + At(ItemOf(more, name), c)
  }

  lemma AddedItems(x: LineItems, more: LineItems)
    ensures ItemsAdded(x, more, AddItems(x, more))
  {
    hide Add, At, ItemOf;
    forall name, c
      ensures At(ItemOf(AddItems(x, more), name), c) == At(ItemOf(x, name), c) + At(ItemOf(more, name), c)
    {
      ItemOfSum(x, more, name, c);
    }
  }

  lemma MinusAt(a: Amount, b: Amount, c: Code)
    requires Minus(a, b).Some?
    ensures Share(Minus(a, b).value, c) == For(c, a.code, a.value) - For(c, b.code, b.value)
  {
  }

  /** A bid that is paid through to the end, force-wins included, whose authorised
      amount is then nothing. */
  lemma BidIsPaid(s: Shadow, authorized: Amount, paid: Amount, items: LineItems)
    requires CommitDetachedBid(s, authorized, paid, items).ok
    ensures var s' := CommitDetachedBid(s, authorized, paid, items).shadow;
            && s' == s.(commitmentsRetired := s'.commitmentsRetired, spent := s'.spent, balance := s'.balance,
                        lineItems := s'.lineItems)
            && (forall c :: PaidAt(s, s', authorized, paid, c)) && ItemsAdded(s.lineItems, items, s'.lineItems)
  {
    hide CheckShadow, AddItems, ItemsAdded, Minus, AddAmount, PaidAt;
    var unspent := Minus(authorized, paid).value;
    var s' := CommitDetachedBid(s, authorized, paid, items).shadow;
    AddedItems(s.lineItems, items);
    forall c ensures PaidAt(s, s', authorized, paid, c) {
      PaidIs(s, authorized, paid, unspent, c);
    }
  }

  lemma PaidIs(s: Shadow, authorized: Amount, paid: Amount, unspent: Amount, c: Code)
    requires Minus(authorized, paid) == Some(unspent)
    ensures var settled := Settle(s, authorized, paid, unspent);
            var counted := if paid.value != 0 then Count(settled, IMPRESSION) else settled;
            forall items :: PaidAt(s, counted.(lineItems := items), authorized, paid, c)
  {
    hide AddAmount, Minus;
    MinusAt(authorized, paid, c);
  }

  /** Paying an open bid: it is paid as authorised, and its item is no longer open. */
  lemma CommitBidWrites(s: Shadow, item: string, paid: Amount, items: LineItems)
    requires Take(s, Commit(item, paid, items)).ok
    ensures var s' := Take(s, Commit(item, paid, items)).shadow;
            && item in s.commitments && s'.commitments == s.commitments - {item}
            && s'.commitmentsMade == s.commitmentsMade && s'.netBudget == s.netBudget && s'.status == s.status
            && (forall c :: PaidAt(s, s', s.commitments[item], paid, c))
            && ItemsAdded(s.lineItems, items, s'.lineItems)
  {
    hide CheckShadow, ItemsAdded, CommitDetachedBid;
    BidIsPaid(Detached(s, item), s.commitments[item], paid, items);
    forall c ensures PaidAt(s, Take(s, Commit(item, paid, items)).shadow, s.commitments[item], paid, c) {
      assert PaidAt(Detached(s, item), Take(s, Commit(item, paid, items)).shadow, s.commitments[item], paid, c);
    }
  }

  /** A force-win spends what is paid out of the balance. */
  lemma ForceWinWrites(s: Shadow, paid: Amount, items: LineItems)
    requires Take(s, ForceWin(paid, items)).ok
    ensures var s' := Take(s, ForceWin(paid, items)).shadow;
            && s'.commitments == s.commitments && s'.commitmentsMade == s.commitmentsMade
            && (forall c :: At(s'.balance, c) == At(s.balance, c) - For(c, paid.code, paid.value))
            && (forall c :: PaidAt(s, s', NOTHING, paid, c)) && ItemsAdded(s.lineItems, items, s'.lineItems)
  {
    hide CheckShadow, ItemsAdded, CommitDetachedBid;
    BidIsPaid(s, NOTHING, paid, items);
    var s' := Take(s, ForceWin(paid, items)).shadow;
    forall c ensures At(s'.balance, c) == At(s.balance, c) - For(c, paid.code, paid.value) {
      assert PaidAt(s, s', NOTHING, paid, c);
    }
  }

  /** An event is spent and retired, and leaves the balance alone. */
  lemma CommitEventWrites(s: Shadow, amount: Amount)
    requires Take(s, Event(amount)).ok
    ensures var s' := Take(s, Event(amount)).shadow;
            && s' == s.(commitmentsRetired := s'.commitmentsRetired, spent := s'.spent)
            && forall c :: At(s'.spent, c) - At(s.spent, c)
                           == At(s'.commitmentsRetired, c) - At(s.commitmentsRetired, c)
                           == For(c, amount.code, amount.value)
  {
    hide CheckShadow, AddAmount;
  }

  // --------------------------------------------------------------- cancelling

  /** A bid that is granted and then cancelled leaves budget, spend, line items and open
      bids as they were; it only shows in the commitments made and retired. */
  lemma CancelUndoes(s: Shadow, item: string, amount: Amount)
    requires AuthorizeBid(s, item, amount).1
    requires Take(AuthorizeBid(s, item, amount).0.shadow, Cancel(item)).ok
    ensures var s' := Take(AuthorizeBid(s, item, amount).0.shadow, Cancel(item)).shadow;
            && s'.commitments == s.commitments && s'.netBudget == s.netBudget && s'.status == s.status
            && Same(s'.balance, s.balance) && Same(s'.spent, s.spent) && SameItems(s'.lineItems, s.lineItems)
            && forall c :: At(s'.commitmentsMade, c) - At(s.commitmentsMade, c)
                           == At(s'.commitmentsRetired, c) - At(s.commitmentsRetired, c)
                           == For(c, amount.code, amount.value)
  {
    hide CheckShadow, CommitDetachedBid, AuthorizeBid, AddItems, SameItems, ItemsAdded;
    var s1 := AuthorizeBid(s, item, amount).0.shadow;
    AuthorizeBidWrites(s, item, amount);
    BidIsPaid(Detached(s1, item), amount, NOTHING, map[]);
    var s' := Take(s1, Cancel(item)).shadow;
    assert s'.commitments == s.commitments[item := amount] - {item} == s.commitments;
    forall c
      ensures At(s'.balance, c) == At(s.balance, c) && At(s'.spent, c) == At(s.spent, c)
      ensures At(s'.commitmentsMade, c) - At(s.commitmentsMade, c) == For(c, amount.code, amount.value)
      ensures At(s'.commitmentsRetired, c) - At(s.commitmentsRetired, c) == For(c, amount.code, amount.value)
    {
      assert PaidAt(Detached(s1, item), s', amount, NOTHING, c);
      assert At(s.balance, c) - At(s1.balance, c) == For(c, amount.code, amount.value);
    }
    NothingAdded(s.lineItems, s'.lineItems);
  }

  lemma NothingAdded(x: LineItems, y: LineItems)
    requires ItemsAdded(x, map[], y)
    ensures SameItems(y, x)
  {
    forall name | name in y ensures Same(y[name], x[name]) {
      forall c ensures At(y[name], c) == At(x[name], c) {
        assert At(ItemOf(y, name), c) == At(ItemOf(x, name), c) + At(ItemOf(map[], name), c);
      }
    }
  }

  // ------------------------------------------------- line items over whole runs

  /** The line items a step brings with it. */
  function Brought(step: Step): LineItems {
    match step
    case Commit(_, _, items) => items
    case ForceWin(_, items) => items
    case _ => map[]
  }

  /** The amount that the completed steps of a run have brought under a name. */
  ghost function TotalBrought(steps: seq<Step>, name: string, c: Code): int {
    if steps == [] then 0
    else
      var front, last := steps[..|steps| - 1], steps[|steps| - 1];
      TotalBrought(front, name, c)
      + if Take(After(front), last).ok then At(ItemOf(Brought(last), name), c) else 0
  }

  /** A step that does not complete leaves the line items alone when its amounts are
      not negative. */
  lemma StepItems(s: Shadow, step: Step)
    requires SoundShadow(s) && OpenUpward(s) && Upward(step)
    ensures var o := Take(s, step);
            if o.ok then ItemsAdded(s.lineItems, Brought(step), o.shadow.lineItems)
            else o.shadow.lineItems == s.lineItems
  {
    hide CheckShadow, SoundShadow, ItemsAdded, CommitDetachedBid, AddAmount, SubAmount;
    UpwardStep(s, step);
    CheckShadowIsSound(s);
    AddedNothing(s.lineItems);
    match step {
      case Authorize(item, amount) =>
      case Commit(item, paid, items) =>
        if item in s.commitments {
          DetachedCheck(s, item);
          if Minus(s.commitments[item], paid).None? {
            RefusedUnchanged(Detached(s, item), s.commitments[item], paid, items);
          } else {
            BidIsPaid(Detached(s, item), s.commitments[item], paid, items);
          }
        }
      case Cancel(item) =>
        if item in s.commitments {
          BidIsPaid(Detached(s, item), s.commitments[item], NOTHING, map[]);
        }
      case ForceWin(paid, items) =>
        BidIsPaid(s, NOTHING, paid, items);
      case Event(amount) =>
    }
  }

  lemma AddedNothing(x: LineItems)
    ensures ItemsAdded(x, map[], x)
  {
  }

  lemma RefusedUnchanged(s: Shadow, authorized: Amount, paid: Amount, items: LineItems)
    requires Minus(authorized, paid).None?
    ensures CommitDetachedBid(s, authorized, paid, items) == Outcome(false, s)
  {
  }

  /** On every run of non-negative amounts from a fresh shadow, the line items are, by
      name and currency, those of all bids paid to the end, and nothing else. */
  lemma {:induction false} ItemsAddUp(steps: seq<Step>, name: string, c: Code)
    requires forall step | step in steps :: Upward(step)
    ensures At(ItemOf(After(steps).lineItems, name), c) == TotalBrought(steps, name, c)
    ensures SoundShadow(After(steps)) && OpenUpward(After(steps))
    decreases |steps|
  {
    hide Take, SoundShadow, Upward, ItemOf;
    if steps == [] {
      FreshHasNothing(name, c);
    } else {
      var front, last := steps[..|steps| - 1], steps[|steps| - 1];
      ItemsAddUp(front, name, c);
      UpwardStep(After(front), last);
      StepItems(After(front), last);
    }
  }

  /** A new shadow is active, and has neither money nor open bids nor line items. */
  lemma FreshIsEmpty(c: Code)
    ensures FRESH.status == ACTIVE && FRESH.commitments == map[] && FRESH.lineItems == map[]
    ensures At(FRESH.netBudget, c) == At(FRESH.balance, c) == At(FRESH.spent, c) == 0
    ensures At(FRESH.commitmentsMade, c) == At(FRESH.commitmentsRetired, c) == 0
  {
  }

  lemma FreshHasNothing(name: string, c: Code)
    ensures At(ItemOf(FRESH.lineItems, name), c) == 0 && SoundShadow(FRESH) && OpenUpward(FRESH)
  {
    FreshIsSound();
  }
}
