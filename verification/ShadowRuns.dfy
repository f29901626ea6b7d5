/** The bids a shadow account goes through: what each step writes, thrown
  exceptions included, and what holds after every sequence of steps.
 */
module ShadowRuns {
  import opened Common
  import opened Currency
  import opened AccountSpec
  import opened ShadowSpec
  import opened Sums

  const IMPRESSION := Amount(CC_IMP, 1)

  function ItemOf(items: LineItems, name: string): Pool {
    if name in items then items[name] else map[]
  }

  /** `LineItems::operator +=`. */
  function AddItems(items: LineItems, more: LineItems): LineItems {
    map name | name in items.Keys + more.Keys ::
      if name in more then Add(ItemOf(items, name), more[name]) else items[name]
  }

  // --------------------------------------------------------------- the steps

  /** How a call leaves the shadow; ok is false when it threw. */
  datatype Outcome = Outcome(ok: bool, shadow: Shadow)

  function Settle(s: Shadow, authorized: Amount, paid: Amount, unspent: Amount): Shadow {
    s.(balance := AddAmount(s.balance, unspent),
       commitmentsRetired := AddAmount(s.commitmentsRetired, authorized),
       spent := AddAmount(s.spent, paid))
  }

  function Count(s: Shadow, amount: Amount): Shadow {
    s.(spent := AddAmount(s.spent, amount), commitmentsRetired := AddAmount(s.commitmentsRetired, amount))
  }

  function CommitEvent(s: Shadow, amount: Amount): Outcome {
    if !CheckShadow(s) then Outcome(false, s) else Outcome(CheckShadow(Count(s, amount)), Count(s, amount))
  }

  /** `commitDetachedBid`: an impression is counted whenever something was paid. */
  function CommitDetachedBid(s: Shadow, authorized: Amount, paid: Amount, items: LineItems): Outcome {
    if !CheckShadow(s) then Outcome(false, s)
    else match Minus(authorized, paid)
      case None => Outcome(false, s)
      case Some(unspent) =>
        var settled := Settle(s, authorized, paid, unspent);
        var counted := if paid.value != 0 then CommitEvent(settled, IMPRESSION) else Outcome(true, settled);
        if !counted.ok then counted
        else
          var s' := counted.shadow.(lineItems := AddItems(counted.shadow.lineItems, items));
          Outcome(CheckShadow(s'), s')
  }

  /** `authorizeBid`; `granted` is what it returns when it does not throw. */
  function AuthorizeBid(s: Shadow, item: string, amount: Amount): (r: (Outcome, bool)) {
    if !CheckShadow(s) then (Outcome(false, s), false)
    else if !HasAvailable(s.balance, amount) then (Outcome(true, s), false)
    else if item in s.commitments then (Outcome(false, s), false)
    else
      var s' := s.(commitments := s.commitments[item := amount],
                   balance := SubAmount(s.balance, amount),
                   commitmentsMade := AddAmount(s.commitmentsMade, amount));
      (Outcome(CheckShadow(s'), s'), CheckShadow(s'))
  }

  /** `detachBid` erases the commitment; the caller goes on with its amount. */
  predicate MayDetach(s: Shadow, item: string) {
    CheckShadow(s) && item in s.commitments
  }

  function Detached(s: Shadow, item: string): Shadow {
    s.(commitments := s.commitments - {item})
  }

  datatype Step =
    | Authorize(item: string, amount: Amount)
    | Commit(item: string, paid: Amount, items: LineItems)
    | Cancel(item: string)
    | ForceWin(paid: Amount, items: LineItems)
    | Event(amount: Amount)

  function Take(s: Shadow, step: Step): Outcome {
    match step
    case Authorize(item, amount) => AuthorizeBid(s, item, amount).0
    case Commit(item, paid, items) =>
      if MayDetach(s, item) then CommitDetachedBid(Detached(s, item), s.commitments[item], paid, items)
      else Outcome(false, s)
    case Cancel(item) =>
      if MayDetach(s, item) then CommitDetachedBid(Detached(s, item), s.commitments[item], NOTHING, map[])
      else Outcome(false, s)
    case ForceWin(paid, items) => CommitDetachedBid(s, NOTHING, paid, items)
    case Event(amount) => CommitEvent(s, amount)
  }

  ghost function After(steps: seq<Step>): Shadow {
    if steps == [] then FRESH else Take(After(steps[..|steps| - 1]), steps[|steps| - 1]).shadow
  }

  // -------------------------------------------- commitments add up over all runs

  /** The commitments still open, in currency c. */
  ghost function OpenShare(commitments: map<string, Amount>, c: Code): string -> int {
    item => if item in commitments then Share(commitments[item], c) else 0
  }

  ghost function OpenSum(commitments: map<string, Amount>, c: Code): int {
    Sum(commitments.Keys, OpenShare(commitments, c))
  }

  /** What a step counts as events in c: an impression per paid bid, and events. */
  ghost function Counted(s: Shadow, step: Step, c: Code): int {
    match step
    case Authorize(_, _) => 0
    case Commit(item, paid, _) =>
      if MayDetach(s, item) then CountedBid(Detached(s, item), s.commitments[item], paid, c) else 0
    case Cancel(_) => 0
    case ForceWin(paid, _) => CountedBid(s, NOTHING, paid, c)
    case Event(amount) => if CheckShadow(s) then Share(amount, c) else 0
  }

  ghost function CountedBid(s: Shadow, authorized: Amount, paid: Amount, c: Code): int {
    var unspent := Minus(authorized, paid);
    if CheckShadow(s) && unspent.Some? && paid.value != 0 && CheckShadow(Settle(s, authorized, paid, unspent.value))
    then Share(IMPRESSION, c)
    else 0
  }

  /** What a step loses track of in c: the commitment of a bid that was paid in
      another currency. It is detached before the difference is refused. */
  ghost function Lost(s: Shadow, step: Step, c: Code): int {
    if step.Commit? && MayDetach(s, step.item) && Minus(s.commitments[step.item], step.paid).None?
    then Share(s.commitments[step.item], c)
    else 0
  }

  ghost function TotalCounted(steps: seq<Step>, c: Code): int {
    if steps == [] then 0
    else
      var front := steps[..|steps| - 1];
      TotalCounted(front, c) + Counted(After(front), steps[|steps| - 1], c)
  }

  ghost function TotalLost(steps: seq<Step>, c: Code): int {
    if steps == [] then 0
    else
      var front := steps[..|steps| - 1];
      TotalLost(front, c) + Lost(After(front), steps[|steps| - 1], c)
  }

  lemma OpenOneMore(commitments: map<string, Amount>, item: string, amount: Amount, c: Code)
    requires item !in commitments
    ensures OpenSum(commitments[item := amount], c) == OpenSum(commitments, c) + Share(amount, c)
  {
    var more := commitments[item := amount];
    assert more.Keys == commitments.Keys + {item};
    SumInsert(commitments.Keys, OpenShare(more, c), item);
    SumSame(commitments.Keys, OpenShare(commitments, c), OpenShare(more, c));
  }

  lemma OpenOneLess(commitments: map<string, Amount>, item: string, c: Code)
    requires item in commitments
    ensures OpenSum(commitments - {item}, c) == OpenSum(commitments, c) - Share(commitments[item], c)
  {
    var less := commitments - {item};
    assert less[item := commitments[item]] == commitments;
    OpenOneMore(less, item, commitments[item], c);
  }

  ghost function Pending(s: Shadow, c: Code): int {
    At(s.commitmentsMade, c) - At(s.commitmentsRetired, c)
  }

  lemma DetachedCheck(s: Shadow, item: string)
    ensures CheckShadow(Detached(s, item)) == CheckShadow(s)
  {
  }

  /** The amounts of s' on top of those of s. */
  ghost predicate Moved(s: Shadow, s': Shadow, retired: int, spent: int, balance: int, c: Code) {
    && s'.commitments == s.commitments && s'.netBudget == s.netBudget
    && s'.commitmentsMade == s.commitmentsMade && s'.status == s.status
    && At(s'.commitmentsRetired, c) == At(s.commitmentsRetired, c) + retired
    && At(s'.spent, c) == At(s.spent, c) + spent
    && At(s'.balance, c) == At(s.balance, c) + balance
  }

  lemma SettleAt(s: Shadow, authorized: Amount, paid: Amount, unspent: Amount, c: Code)
    ensures Moved(s, Settle(s, authorized, paid, unspent), Share(authorized, c), Share(paid, c), Share(unspent, c), c)
  {
    hide AddAmount, Share;
  }

  lemma CountAt(s: Shadow, amount: Amount, c: Code)
    ensures Moved(s, Count(s, amount), Share(amount, c), Share(amount, c), 0, c)
  {
    hide AddAmount, Share;
  }

  lemma CommitDetachedBidAt(s: Shadow, authorized: Amount, paid: Amount, items: LineItems, c: Code)
    requires CheckShadow(s)
    ensures var s', counted := CommitDetachedBid(s, authorized, paid, items).shadow, CountedBid(s, authorized, paid, c);
            match Minus(authorized, paid)
            case None => s' == s && counted == 0
            case Some(unspent) =>
              Moved(s, s', Share(authorized, c) + counted, Share(paid, c) + counted, Share(unspent, c), c)
  {
    hide CheckShadow, AddItems, Minus, Share, Settle, Count;
    match Minus(authorized, paid) {
      case None =>
      case Some(unspent) =>
        SettleAt(s, authorized, paid, unspent, c);
        CountAt(Settle(s, authorized, paid, unspent), IMPRESSION, c);
    }
  }

  /** What a step does to the account of its commitments, in currency c. */
  ghost predicate Accounts(s: Shadow, s': Shadow, counted: int, lost: int, c: Code) {
    Pending(s', c) - OpenSum(s'.commitments, c) == Pending(s, c) - OpenSum(s.commitments, c) - counted + lost
  }

  lemma AuthorizeAccounts(s: Shadow, item: string, amount: Amount, c: Code)
    ensures Accounts(s, AuthorizeBid(s, item, amount).0.shadow, 0, 0, c)
  {
    hide AddAmount, SubAmount, CheckShadow, OpenSum;
    if item !in s.commitments {
      OpenOneMore(s.commitments, item, amount, c);
    }
  }

  lemma CommitAccounts(s: Shadow, item: string, paid: Amount, items: LineItems, c: Code)
    ensures var step := Commit(item, paid, items);
            Accounts(s, Take(s, step).shadow, Counted(s, step, c), Lost(s, step, c), c)
  {
    hide Add, AddAmount, SubAmount, CheckShadow, AddItems, OpenSum, CommitDetachedBid, CountedBid;
    DetachedCheck(s, item);
    if MayDetach(s, item) {
      OpenOneLess(s.commitments, item, c);
      CommitDetachedBidAt(Detached(s, item), s.commitments[item], paid, items, c);
    }
  }

  lemma CancelAccounts(s: Shadow, item: string, c: Code)
    ensures var step := Cancel(item);
            Accounts(s, Take(s, step).shadow, Counted(s, step, c), Lost(s, step, c), c)
  {
    hide Add, AddAmount, SubAmount, CheckShadow, AddItems, OpenSum, CommitDetachedBid, CountedBid;
    DetachedCheck(s, item);
    if MayDetach(s, item) {
      OpenOneLess(s.commitments, item, c);
      CommitDetachedBidAt(Detached(s, item), s.commitments[item], NOTHING, map[], c);
      NothingCounted(Detached(s, item), s.commitments[item], c);
    }
  }

  /** One step, whatever comes of it. */
  lemma StepAccounts(s: Shadow, step: Step, c: Code)
    ensures Accounts(s, Take(s, step).shadow, Counted(s, step, c), Lost(s, step, c), c)
  {
    hide Add, AddAmount, SubAmount, CheckShadow, AddItems, OpenSum, CommitDetachedBid, CountedBid;
    match step {
      case Authorize(item, amount) =>
        hide AuthorizeBid;
        AuthorizeAccounts(s, item, amount, c);
      case Commit(item, paid, items) => CommitAccounts(s, item, paid, items, c);
      case Cancel(item) => CancelAccounts(s, item, c);
      case ForceWin(paid, items) =>
        if CheckShadow(s) {
          CommitDetachedBidAt(s, NOTHING, paid, items, c);
        } else {
          UnsoundStays(s, paid, items, c);
        }
      case Event(amount) =>
    }
  }

  lemma NothingCounted(s: Shadow, authorized: Amount, c: Code)
    ensures CountedBid(s, authorized, NOTHING, c) == 0
  {
  }

  lemma UnsoundStays(s: Shadow, paid: Amount, items: LineItems, c: Code)
    requires !CheckShadow(s)
    ensures CommitDetachedBid(s, NOTHING, paid, items).shadow == s && CountedBid(s, NOTHING, paid, c) == 0
  {
  }

  /** On every run from a fresh shadow, in every currency: commitments made minus
      retired are those still open, less the events counted, plus the commitments
      lost to a payment in another currency. Steps that throw are included. */
  lemma {:induction false} CommitmentsAddUp(steps: seq<Step>, c: Code)
    ensures Pending(After(steps), c)
         == OpenSum(After(steps).commitments, c) - TotalCounted(steps, c) + TotalLost(steps, c)
  {
    hide Take, Counted, Lost, Pending;
    if steps == [] {
      NothingPending(c);
    } else {
      var front := steps[..|steps| - 1];
      CommitmentsAddUp(front, c);
      StepAccounts(After(front), steps[|steps| - 1], c);
    }
  }

  lemma NothingPending(c: Code)
    ensures Pending(FRESH, c) == 0 && OpenSum(FRESH.commitments, c) == 0
  {
    assert FRESH.commitments.Keys == {};
    SumZero({}, OpenShare(FRESH.commitments, c));
  }

  /** A bid paid in another currency than it was authorised in is gone without a
      trace in the counters. */
  lemma MismatchLoses(s: Shadow, item: string, paid: Amount, items: LineItems)
    requires SoundShadow(s) && item in s.commitments
    requires paid.value != 0 && s.commitments[item].value != 0 && s.commitments[item].code != paid.code
    ensures var o := Take(s, Commit(item, paid, items));
            !o.ok && o.shadow == s.(commitments := s.commitments - {item})
  {
    hide CheckShadow;
    CheckShadowIsSound(s);
    DetachedCheck(s, item);
  }

  // ----------------------------------------------------- never overdrawn by bids

  /** A step that spends no more than was authorised. */
  predicate Thrifty(s: Shadow, step: Step) {
    match step
    case Commit(item, paid, _) =>
      item in s.commitments ==>
        var unspent := Minus(s.commitments[item], paid); unspent.Some? ==> unspent.value.value >= 0
    case Cancel(item) => item in s.commitments ==> s.commitments[item].value >= 0
    case ForceWin(paid, _) => false
    case _ => true
  }

  lemma BalanceAfterBid(s: Shadow, authorized: Amount, paid: Amount, items: LineItems)
    requires NeverNegative(s.balance)
    requires Minus(authorized, paid).Some? ==> Minus(authorized, paid).value.value >= 0
    ensures NeverNegative(CommitDetachedBid(s, authorized, paid, items).shadow.balance)
  {
    hide Add, AddAmount, SubAmount, CheckShadow, AddItems, CommitDetachedBid;
    forall c ensures At(CommitDetachedBid(s, authorized, paid, items).shadow.balance, c) >= 0 {
      assert At(s.balance, c) >= 0;
      if CheckShadow(s) {
        CommitDetachedBidAt(s, authorized, paid, items, c);
      } else {
        BidStays(s, authorized, paid, items);
      }
    }
  }

  lemma BidStays(s: Shadow, authorized: Amount, paid: Amount, items: LineItems)
    requires !CheckShadow(s)
    ensures CommitDetachedBid(s, authorized, paid, items) == Outcome(false, s)
  {
  }

  /** A shadow that is not overdrawn stays so under thrifty steps. */
  lemma ThriftyStep(s: Shadow, step: Step)
    requires NeverNegative(s.balance) && Thrifty(s, step)
    ensures NeverNegative(Take(s, step).shadow.balance)
  {
    hide Add, AddAmount, SubAmount, CheckShadow, AddItems, CommitDetachedBid;
    match step {
      case Authorize(item, amount) =>
        var s' := Take(s, step).shadow;
        forall c ensures At(s'.balance, c) >= 0 {
          assert At(s.balance, c) >= 0;
        }
      case Commit(item, paid, items) =>
        if MayDetach(s, item) {
          BalanceAfterBid(Detached(s, item), s.commitments[item], paid, items);
        }
      case Cancel(item) =>
        if MayDetach(s, item) {
          BalanceAfterBid(Detached(s, item), s.commitments[item], NOTHING, map[]);
        }
      case ForceWin(paid, items) =>
      case Event(amount) =>
    }
  }

  ghost function AfterFrom(s: Shadow, steps: seq<Step>): Shadow {
    if steps == [] then s else Take(AfterFrom(s, steps[..|steps| - 1]), steps[|steps| - 1]).shadow
  }

  ghost predicate ThriftyRun(s: Shadow, steps: seq<Step>) {
    steps != [] ==>
      var front := steps[..|steps| - 1];
      ThriftyRun(s, front) && Thrifty(AfterFrom(s, front), steps[|steps| - 1])
  }

  lemma {:induction false} ThriftyRuns(s: Shadow, steps: seq<Step>)
    requires NeverNegative(s.balance) && ThriftyRun(s, steps)
    ensures NeverNegative(AfterFrom(s, steps).balance)
  {
    hide Take, Thrifty, NeverNegative;
    if steps != [] {
      var front := steps[..|steps| - 1];
      ThriftyRuns(s, front);
      ThriftyStep(AfterFrom(s, front), steps[|steps| - 1]);
    }
  }

  // -------------------------------------------------- steps of growing counters

  /** The amounts of a step are not negative. */
  predicate Upward(step: Step) {
    match step
    case Authorize(_, amount) => amount.value >= 0
    case Commit(_, paid, _) => paid.value >= 0
    case Cancel(_) => true
    case ForceWin(paid, _) => paid.value >= 0
    case Event(amount) => amount.value >= 0
  }

  /** Every open commitment is for a non-negative amount. */
  predicate OpenUpward(s: Shadow) {
    forall item | item in s.commitments :: s.commitments[item].value >= 0
  }

  ghost predicate ShadowGrows(s: Shadow, t: Shadow) {
    && Below(s.commitmentsMade, t.commitmentsMade)
    && Below(s.commitmentsRetired, t.commitmentsRetired)
    && Below(s.spent, t.spent)
  }

  lemma GrowsOneMore(p: Pool, a: Amount)
    requires a.value >= 0
    ensures Below(p, AddAmount(p, a))
  {
  }

  lemma SoundStaysUpward(s: Shadow, t: Shadow)
    requires SoundShadow(s) && ShadowGrows(s, t) && forall c :: ShadowBalancedAt(t, c)
    ensures SoundShadow(t) && CheckShadow(t)
  {
    hide CheckShadow;
    forall c ensures At(t.commitmentsMade, c) >= 0 && At(t.commitmentsRetired, c) >= 0 && At(t.spent, c) >= 0 {
      assert At(s.commitmentsMade, c) >= 0 && At(s.commitmentsRetired, c) >= 0 && At(s.spent, c) >= 0;
      assert At(s.commitmentsMade, c) <= At(t.commitmentsMade, c);
      assert At(s.commitmentsRetired, c) <= At(t.commitmentsRetired, c);
      assert At(s.spent, c) <= At(t.spent, c);
    }
    CheckShadowIsSound(t);
  }

  lemma SettleUpward(s: Shadow, authorized: Amount, paid: Amount, unspent: Amount)
    requires SoundShadow(s) && authorized.value >= 0 && paid.value >= 0 && Minus(authorized, paid) == Some(unspent)
    ensures var s' := Settle(s, authorized, paid, unspent);
            SoundShadow(s') && CheckShadow(s') && ShadowGrows(s, s') && s'.commitments == s.commitments
  {
    hide CheckShadow, Settle, SoundShadow;
    var s' := Settle(s, authorized, paid, unspent);
    forall c
      ensures Moved(s, s', Share(authorized, c), Share(paid, c), Share(unspent, c), c) && ShadowBalancedAt(s', c)
    {
      SettleAt(s, authorized, paid, unspent, c);
      SoundIsBalanced(s, c);
    }
    assert ShadowGrows(s, s') && s'.commitments == s.commitments by {
      GrowsByMoves(s, s', (c: Code) => Share(authorized, c), (c: Code) => Share(paid, c),
                   (c: Code) => Share(unspent, c));
    }
    SoundStaysUpward(s, s');
  }

  lemma SoundIsBalanced(s: Shadow, c: Code)
    requires SoundShadow(s)
    ensures ShadowBalancedAt(s, c)
  {
  }

  lemma GrowsByMoves(s: Shadow, s': Shadow, retired: Code -> int, spent: Code -> int, balance: Code -> int)
    requires forall c :: Moved(s, s', retired(c), spent(c), balance(c), c) && retired(c) >= 0 && spent(c) >= 0
    ensures ShadowGrows(s, s') && s'.commitments == s.commitments
  {
    forall c
      ensures At(s.commitmentsRetired, c) <= At(s'.commitmentsRetired, c) && At(s.spent, c) <= At(s'.spent, c)
      ensures At(s.commitmentsMade, c) <= At(s'.commitmentsMade, c)
    {
      assert Moved(s, s', retired(c), spent(c), balance(c), c);
    }
    assert Moved(s, s', retired(0), spent(0), balance(0), 0);
  }

  lemma CountUpward(s: Shadow, amount: Amount)
    requires SoundShadow(s) && amount.value >= 0
    ensures var s' := Count(s, amount);
            SoundShadow(s') && CheckShadow(s') && ShadowGrows(s, s') && s'.commitments == s.commitments
  {
    hide CheckShadow, Count, SoundShadow;
    var s' := Count(s, amount);
    forall c ensures Moved(s, s', Share(amount, c), Share(amount, c), 0, c) && ShadowBalancedAt(s', c) {
      CountAt(s, amount, c);
      SoundIsBalanced(s, c);
    }
    assert ShadowGrows(s, s') && s'.commitments == s.commitments by {
      GrowsByMoves(s, s', (c: Code) => Share(amount, c), (c: Code) => Share(amount, c), (c: Code) => 0);
    }
    SoundStaysUpward(s, s');
  }

  lemma GrowthComposes(s: Shadow, t: Shadow, u: Shadow)
    requires ShadowGrows(s, t) && ShadowGrows(t, u)
    ensures ShadowGrows(s, u)
  {
    forall c
      ensures At(s.commitmentsRetired, c) <= At(u.commitmentsRetired, c) && At(s.spent, c) <= At(u.spent, c)
      ensures At(s.commitmentsMade, c) <= At(u.commitmentsMade, c)
    {
      assert At(s.commitmentsRetired, c) <= At(t.commitmentsRetired, c) <= At(u.commitmentsRetired, c);
      assert At(s.spent, c) <= At(t.spent, c) <= At(u.spent, c);
      assert At(s.commitmentsMade, c) <= At(t.commitmentsMade, c) <= At(u.commitmentsMade, c);
    }
  }

  lemma ItemsDoNotMatter(s: Shadow, items: LineItems)
    ensures CheckShadow(s.(lineItems := items)) == CheckShadow(s)
    ensures SoundShadow(s.(lineItems := items)) <==> SoundShadow(s)
  {
    CheckShadowIsSound(s);
    CheckShadowIsSound(s.(lineItems := items));
    if SoundShadow(s) {
      forall c ensures ShadowBalancedAt(s.(lineItems := items), c) {
        SoundIsBalanced(s, c);
      }
    }
    if SoundShadow(s.(lineItems := items)) {
      forall c ensures ShadowBalancedAt(s, c) {
        SoundIsBalanced(s.(lineItems := items), c);
      }
    }
  }

  /** A bid of non-negative amounts. */
  lemma BidUpward(s: Shadow, authorized: Amount, paid: Amount, items: LineItems)
    requires SoundShadow(s) && authorized.value >= 0 && paid.value >= 0
    ensures var o := CommitDetachedBid(s, authorized, paid, items);
            && SoundShadow(o.shadow) && ShadowGrows(s, o.shadow) && o.shadow.commitments == s.commitments
            && (o.ok <==> Minus(authorized, paid).Some?)
            && (!o.ok ==> o.shadow == s)
  {
    hide CheckShadow, Settle, Count, SoundShadow, ShadowGrows, Minus, AddItems;
    CheckShadowIsSound(s);
    match Minus(authorized, paid) {
      case None => GrowsItself(s);
      case Some(unspent) =>
        SettleUpward(s, authorized, paid, unspent);
        var settled := Settle(s, authorized, paid, unspent);
        ItemsDoNotMatter(settled, AddItems(settled.lineItems, items));
        ItemsGrow(s, settled, AddItems(settled.lineItems, items));
        if paid.value != 0 {
          CountUpward(settled, IMPRESSION);
          var counted := Count(settled, IMPRESSION);
          GrowthComposes(s, settled, counted);
          ItemsDoNotMatter(counted, AddItems(counted.lineItems, items));
          ItemsGrow(s, counted, AddItems(counted.lineItems, items));
        }
    }
  }

  lemma ItemsGrow(s: Shadow, t: Shadow, items: LineItems)
    requires ShadowGrows(s, t)
    ensures ShadowGrows(s, t.(lineItems := items))
  {
  }

  lemma GrowsItself(s: Shadow)
    ensures ShadowGrows(s, s)
  {
  }

  /** When a step on a sound shadow completes, as its caller can tell beforehand. */
  predicate WillComplete(s: Shadow, step: Step) {
    match step
    case Authorize(item, amount) => HasAvailable(s.balance, amount) ==> item !in s.commitments
    case Commit(item, paid, _) => item in s.commitments && Minus(s.commitments[item], paid).Some?
    case Cancel(item) => item in s.commitments
    case ForceWin(_, _) => true
    case Event(_) => true
  }

  /** Steps of non-negative amounts: no counter goes down, the shadow stays sound,
      and nothing but the named misuse is refused. */
  lemma UpwardStep(s: Shadow, step: Step)
    requires SoundShadow(s) && OpenUpward(s) && Upward(step)
    ensures var o := Take(s, step);
            && SoundShadow(o.shadow) && OpenUpward(o.shadow) && ShadowGrows(s, o.shadow)
            && (o.ok <==> WillComplete(s, step))
  {
    hide CheckShadow, Settle, Count, SoundShadow, ShadowGrows, AddItems, CommitDetachedBid;
    CheckShadowIsSound(s);
    GrowsItself(s);
    match step {
      case Authorize(item, amount) =>
        AuthorizeUpward(s, item, amount);
      case Commit(item, paid, items) =>
        if item in s.commitments {
          DetachedUpward(s, item);
          BidUpward(Detached(s, item), s.commitments[item], paid, items);
          GrowthComposes(s, Detached(s, item), Take(s, step).shadow);
        }
      case Cancel(item) =>
        if item in s.commitments {
          DetachedUpward(s, item);
          BidUpward(Detached(s, item), s.commitments[item], NOTHING, map[]);
          GrowthComposes(s, Detached(s, item), Take(s, step).shadow);
        }
      case ForceWin(paid, items) =>
        BidUpward(s, NOTHING, paid, items);
      case Event(amount) =>
        CountUpward(s, amount);
    }
  }

  lemma DetachedUpward(s: Shadow, item: string)
    requires SoundShadow(s) && OpenUpward(s)
    ensures SoundShadow(Detached(s, item)) && OpenUpward(Detached(s, item)) && ShadowGrows(s, Detached(s, item))
  {
    forall c ensures ShadowBalancedAt(Detached(s, item), c) {
      SoundIsBalanced(s, c);
    }
  }

  lemma AuthorizeUpward(s: Shadow, item: string, amount: Amount)
    requires SoundShadow(s) && OpenUpward(s) && amount.value >= 0
    ensures var o := AuthorizeBid(s, item, amount).0;
            && SoundShadow(o.shadow) && OpenUpward(o.shadow) && ShadowGrows(s, o.shadow)
            && (o.ok <==> WillComplete(s, Authorize(item, amount)))
  {
    hide CheckShadow, SoundShadow, AddAmount, SubAmount, HasAvailable;
    CheckShadowIsSound(s);
    GrowsItself(s);
    var s' := s.(commitments := s.commitments[item := amount],
                 balance := SubAmount(s.balance, amount),
                 commitmentsMade := AddAmount(s.commitmentsMade, amount));
    GrowsOneMore(s.commitmentsMade, amount);
    assert ShadowGrows(s, s');
    forall c ensures ShadowBalancedAt(s', c) {
      SoundIsBalanced(s, c);
    }
    SoundStaysUpward(s, s');
  }
}
