/** The shadow account as the object the source updates in place, statement by
  statement, proved against the functions of ShadowRuns and LateInit.

  An `ok` of false is a thrown exception: what was written before stays written.
 */
module ShadowObject {
  import opened Common
  import opened Currency
  import opened AccountSpec
  import opened ShadowSpec
  import opened ShadowRuns
  import opened LateInit
  import opened ShadowLaws

  class ShadowAccount {
    var status: Status
    var netBudget: Pool
    var commitmentsRetired: Pool
    var commitmentsMade: Pool
    var spent: Pool
    var balance: Pool
    var lineItems: LineItems
    var commitments: map<string, Amount>

    function State(): Shadow
      reads this
    {
      Shadow(status, netBudget, commitmentsRetired, commitmentsMade, spent, balance, lineItems, commitments)
    }

    constructor ()
      ensures State() == FRESH
    {
      status := ACTIVE;
      netBudget, commitmentsRetired, commitmentsMade, spent, balance := map[], map[], map[], map[], map[];
      lineItems, commitments := map[], map[];
    }

    method ForceWinBid(paid: Amount, items: LineItems) returns (ok: bool)
      modifies this
      ensures Outcome(ok, State()) == Take(old(State()), ForceWin(paid, items))
    {
      ok := CommitDetachedBid(NOTHING, paid, items);
    }

    method CommitDetachedBid(authorized: Amount, paid: Amount, items: LineItems) returns (ok: bool)
      modifies this
      ensures Outcome(ok, State()) == ShadowRuns.CommitDetachedBid(old(State()), authorized, paid, items)
      ensures ok ==> ItemsAdded(old(lineItems), items, lineItems)
                     && forall c :: PaidAt(old(State()), State(), authorized, paid, c)
    {
      if ShadowRuns.CommitDetachedBid(State(), authorized, paid, items).ok {
        BidIsPaid(State(), authorized, paid, items);
      }
      hide CheckShadow, AddAmount, Add, AddItems, Minus, Settle, Count, ShadowRuns.CommitEvent, PaidAt, ItemsAdded;
      if !CheckShadow(State()) {
        return false;
      }
      var unspent := Minus(authorized, paid);
      if unspent.None? {
        return false;
      }
      PayBid(authorized, paid, unspent.value);
      if paid.value != 0 {
        ok := CommitEvent(IMPRESSION);
        if !ok {
          return;
        }
      }
      AddToLineItems(items);
      ok := CheckShadow(State());
    }

    method PayBid(authorized: Amount, paid: Amount, unspent: Amount)
      modifies this
      ensures State() == Settle(old(State()), authorized, paid, unspent)
    {
      hide AddAmount;
      balance := AddAmount(balance, unspent);
      commitmentsRetired := AddAmount(commitmentsRetired, authorized);
      spent := AddAmount(spent, paid);
    }

    method AddToLineItems(items: LineItems)
      modifies this
      ensures State() == old(State()).(lineItems := AddItems(old(State()).lineItems, items))
    {
      lineItems := AddLineItems(lineItems, items);
    }

    method CommitEvent(amountToCommit: Amount) returns (ok: bool)
      modifies this
      ensures Outcome(ok, State()) == ShadowRuns.CommitEvent(old(State()), amountToCommit)
    {
      hide CheckShadow, AddAmount;
      if !CheckShadow(State()) {
        return false;
      }
      spent := AddAmount(spent, amountToCommit);
      commitmentsRetired := AddAmount(commitmentsRetired, amountToCommit);
      ok := CheckShadow(State());
    }

    /** A re-opened item is refused before anything is written. */
    method AuthorizeBid(item: string, amount: Amount) returns (ok: bool, granted: bool)
      modifies this
      ensures (Outcome(ok, State()), ok && granted) == ShadowRuns.AuthorizeBid(old(State()), item, amount)
    {
      hide CheckShadow, AddAmount, SubAmount, HasAvailable;
      if !CheckShadow(State()) {
        return false, false;
      }
      if !HasAvailable(balance, amount) {
        return true, false;
      }
      ok := AttachBid(item, amount);
      if !ok {
        return false, false;
      }
      balance := SubAmount(balance, amount);
      commitmentsMade := AddAmount(commitmentsMade, amount);
      ok := CheckShadow(State());
      granted := true;
    }

    method AttachBid(item: string, amount: Amount) returns (ok: bool)
      modifies this`commitments
      ensures ok <==> item !in old(commitments)
      ensures commitments == if ok then old(commitments)[item := amount] else old(commitments)
    {
      ok := item !in commitments;
      if ok {
        commitments := commitments[item := amount];
      }
    }

    method CommitBid(item: string, paid: Amount, items: LineItems) returns (ok: bool)
      modifies this
      ensures Outcome(ok, State()) == Take(old(State()), Commit(item, paid, items))
    {
      hide CheckShadow, ShadowRuns.CommitDetachedBid;
      var authorized := DetachBid(item);
      if authorized.None? {
        return false;
      }
      ok := CommitDetachedBid(authorized.value, paid, items);
    }

    method CancelBid(item: string) returns (ok: bool)
      modifies this
      ensures Outcome(ok, State()) == Take(old(State()), Cancel(item))
    {
      hide CheckShadow, ShadowRuns.CommitDetachedBid;
      var authorized := DetachBid(item);
      if authorized.None? {
        return false;
      }
      ok := CommitDetachedBid(authorized.value, NOTHING, map[]);
    }

    /** The check after the erasure cannot fail: no check looks at commitments. */
    method DetachBid(item: string) returns (authorized: Option<Amount>)
      modifies this`commitments
      ensures authorized == if MayDetach(old(State()), item) then Some(old(commitments)[item]) else None
      ensures State() == if authorized.Some? then Detached(old(State()), item) else old(State())
    {
      hide CheckShadow;
      if !CheckShadow(State()) || item !in commitments {
        return None;
      }
      authorized := Some(commitments[item]);
      DetachedCheck(State(), item);
      commitments := commitments - {item};
      assert CheckShadow(State());
    }

    method SyncFromMaster(master: Acct) returns (ok: bool)
      modifies this
      ensures ok == (CheckShadow(old(State())) && CheckInvariants(master))
      ensures State() == if ok then ShadowSpec.SyncFromMaster(old(State()), master) else old(State())
    {
      hide CheckShadow, CheckInvariants, Add, Sub, NetBudget;
      if !CheckShadow(State()) || !CheckInvariants(master) {
        return false;
      }
      CheckShadowIsSound(State());
      SyncFromMasterIsSound(State(), master);
      netBudget := NetBudget(master);
      balance := Sub(Sub(Add(netBudget, commitmentsRetired), commitmentsMade), spent);
      status := master.status;
      ok := CheckShadow(State());
    }

    /** `initializeAndMergeState`; the status is not taken over. */
    method InitializeAndMergeState(master: Acct) returns (ok: bool)
      modifies this
      ensures !CheckShadow(old(State())) || !CheckInvariants(master) ==> !ok && State() == old(State())
      ensures CheckShadow(old(State())) && CheckInvariants(master) ==>
                ok && State() == InitializeAndMerge(old(State()), master)
    {
      hide CheckShadow, CheckInvariants, Add, Sub, NetBudget, AddItems;
      if !CheckShadow(State()) || !CheckInvariants(master) {
        return false;
      }
      MergePassesCheck(State(), master);
      netBudget := NetBudget(master);
      commitmentsMade := Add(commitmentsMade, master.commitmentsMade);
      commitmentsRetired := Add(commitmentsRetired, master.commitmentsRetired);
      spent := Add(spent, master.spent);
      lineItems := AddLineItems(lineItems, master.lineItems);
      balance := Sub(Sub(Add(netBudget, commitmentsRetired), commitmentsMade), spent);
      ok := CheckShadow(State());
    }
  }

  lemma MergePassesCheck(s: Shadow, m: Acct)
    requires CheckShadow(s) && CheckInvariants(m)
    ensures CheckShadow(InitializeAndMerge(s, m))
  {
    hide CheckShadow, CheckInvariants, Add, Sub, NetBudget, AddItems;
    CheckShadowIsSound(s);
    CheckInvariantsIsSound(m);
    var t := InitializeAndMerge(s, m);
    forall c
      ensures At(t.commitmentsMade, c) >= 0 && At(t.commitmentsRetired, c) >= 0 && At(t.spent, c) >= 0
      ensures ShadowBalancedAt(t, c)
    {
      assert At(s.commitmentsMade, c) >= 0 && At(s.commitmentsRetired, c) >= 0 && At(s.spent, c) >= 0;
      SoundCounters(m, c);
    }
    CheckShadowIsSound(t);
  }

  /** `LineItems::operator +=`: one entry of `other` after the other. */
  method AddLineItems(items: LineItems, other: LineItems) returns (r: LineItems)
    ensures r == AddItems(items, other)
  {
    hide Add;
    r := items;
    var todo := other.Keys;
    while todo != {}
      invariant todo <= other.Keys
      invariant r.Keys == items.Keys + (other.Keys - todo)
      invariant forall name | name in r ::
                  r[name] == if name in other && name !in todo then Add(ItemOf(items, name), other[name])
                             else items[name]
    {
      var name :| name in todo;
      r := r[name := Add(ItemOf(r, name), other[name])];
      todo := todo - {name};
    }
  }
}
