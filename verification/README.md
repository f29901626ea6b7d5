# A verified model of the banker ledger, the JSON text layer and the relay's placement

The banker is a double-entry ledger over a tree of accounts. Every account has
eleven counters that are meant only to grow, and a balance, one signed amount per
currency. Money enters at the top, moves along the edges between parent and child,
and leaves through shadow accounts that bid elsewhere and report back. Around the
ledger stand the store it is saved to, the JSON text everything is exchanged in,
and the relay that places accounts on shards. This project models these parts in
Dafny and proves what they keep over all inputs and all runs.

## How it is laid out

* `Common`, `Currency`, `CurrencyPoolList`: amounts and pools as maps from currency to integer,
  and the sorted list the source keeps, whose loops are proved to compute them.
* `AccountSpec`, `AccountLaws`, `AccountObject`: one account as a value, what its
  operations achieve, and the object whose fields the source updates.
* `Ledger`, `LedgerTheorems`, `Sums`: the map of all accounts, its single writes
  (`Move`), the invariants every sequence of writes keeps, and the theorems on whole
  subtrees and runs that follow. An operation that throws half way has still made
  some of these writes, so the theorems hold of it too.
* `Banker`, `Closing`, `Reports`: the banker's operations on the map, each noting its writes in a ghost log; closing a subtree; summaries,
  consistency check and recycled flows.
* `ShadowSpec`, `ShadowRuns`, `ShadowLaws`, `ShadowObject`, `LateInit`, `Wire`,
  `Protocol`: shadow accounts, their bids, late initialisation, and the exchange with
  the master over a network that loses, repeats and reorders messages.
* `Restore`, `Persistence`, `Overdraft`: loading and saving, and when a save is
  refused.
* `Chars`, `Utf8`, `JsonText`, `JsonReader`, `JsonIterative`, `JsonWriter`,
  `JsonDocument`, `JsonRoundTrip`: the JSON text layer. `JsonStrings` and `JsonLexical`
  write its strings, numbers and spaces down as grammars of their own, and show that
  the parser takes just these.
* `JsonEquality`, `JsonMeaning`, `JsonPointer`, `PointerGrammar`: equality of JSON values
  and what it means, and JSON Pointer with its grammar.
* `Shard`, `ConnectionPool`: placement and upstream connections.

Where the source updates in place, a class does so here and its methods are proved
against functions on values; the lemmas are about those functions. An `ok` of false
stands for a thrown exception, and what was written before it stays written.

The fields `crossedDown` and `crossedUp` of an account are history: the recycled
money that has crossed the edge to its parent. No operation reads them; `GetRecycledUp`
is proved to compute them from the counters alone.

## Where code and documentation disagree

The model follows the code.

* The comment at `src/banker/account.h:918-921` says that closing a top-level account
  throws. It does not; the account keeps its balance and is marked closed.
* Closing stops at accounts that are closed already, so an active account that was
  created below a closed one is left active (`Banker.CloseStrands`). It happens
  exactly when there is one (`Closing.ClosesAllIff`).
* The eleven counters are meant only to grow. They do exactly when budget changes and
  adjustments have one sign over all currencies and no balance is asked of a parent
  that is overdrawn in a requested currency (`LedgerTheorems.MoveGrowsIff`). After any
  other write a save over the accounts as they were before it finds one bad
  (`Overdraft.NextSaveRefusesIff`). A
  parent can be overdrawn through a negative adjustment; the transfer may then still
  pass its checks (`AccountLaws.SetBalanceCompletesIff`). It takes no more than asking
  for the balance an account already has (`Overdraft.AskingAgainShrinks`).
* The comment at `src/banker/account.h:109-111` says that all stored amounts must have
  a counterpart in the banker's account. `isSameOrPastVersion` does not look at stored
  amounts the banker has no entry for (`AccountSpec.LostAmountPasses`); that is all
  that separates it from growth of all counters (`AccountSpec.GrownIffAtLeast`). No
  write of the banker drops such an entry (`Overdraft.MovesKeepEntries`).
* A thrown check does not take back what was written. An overdraft that is not covered
  leaves the account unsound, and its shadow is refused from then on
  (`Overdraft.AskingAgainBreaks`, `Protocol.UnsoundStandsStill`).
* `commitBid` erases the commitment before it finds that the payment is in another
  currency, and throws: the commitment is lost (`ShadowRuns.MismatchLoses`).
* Late initialisation promises the same state as replay
  (`src/banker/account.h:687-695`). That holds for a master that is not overdrawn; for
  an overdrawn one a bid granted before may be denied in the replay, and is then open
  on one side only (`LateInit.LateIsReplayIff`). The status is not taken over.
* The comment at `src/rapidjson/document.h:841` says that an object with a repeated
  name equals nothing. On the left of `==` it equals something exactly when the values
  under each repeated name can all be equal to one and the same value
  (`JsonEquality.EqualsSomethingIff`); on the right it always has its equal
  (`JsonEquality.SomethingEquals`), though never one without repeated names
  (`JsonEquality.DistinctSpreads`). So it may or may not equal itself, and be equal to
  another object that is not equal to it (`JsonEquality.RepeatedNames`); against an
  object without repeated names on the right equality is never symmetric
  (`JsonEquality.SymmetricIff`). Integers 2^64 apart compare equal.
* The comment at `src/rapidjson/pointer.h:86-88` promises that a number beyond 32 bits
  is treated as a name only. The overflow test misses some, such as 9999999999
  (`JsonPointer.TenNinesAreAnIndex`). A number is a name
  only exactly when its remainder of 32 bits drops at some digit or comes to the
  index that stands for none (`JsonPointer.NameOnlyIff`).
* The relay's hash depends on whether `char` is signed; with signed `char` it differs
  from the script's on names beyond ASCII, unless the weights of their bytes cancel in
  31 bits (`Shard.AgreeIff`).

## Model

| member | source | states |
|---|---|---|
| `Currency.NonNegativeAt` | src/banker/currency.h:519-525 | `isNonNegative` holds exactly when no currency has a negative amount, absent ones counting as zero |
| `Currency.Equal` | src/banker/currency.cc:284-300 | pools compare equal exactly when they agree in every currency, so that a zero entry and no entry are the same |
| `CurrencyPoolList.CurrencyPool.AddAmount` | src/banker/currency.h:388-405 | the sorted list after adding an amount is still sorted and free of repeats and shows the sum; a zero amount changes nothing |
| `CurrencyPoolList.CurrencyPool.SortLast` | src/banker/currency.h:399-402 | an appended entry of a new currency is put in its place: the list is sorted again and holds the same entries |
| `CurrencyPoolList.CurrencyPool.AddPool` | src/banker/currency.h:426-431 | adding entry by entry comes to the pointwise sum, zero entries of the left side kept |
| `CurrencyPoolList.CurrencyPool.SubPool` | src/banker/currency.h:433-438 | the same for the difference |
| `CurrencyPoolList.Limit` | src/banker/currency.h:470-481 | the loop gives the plain minimum over the entries of the other pool, negative balances included |
| `CurrencyPoolList.NonNegative` | src/banker/currency.h:484-494 | the loop keeps exactly the entries that are not negative |
| `CurrencyPoolList.Equals` | src/banker/currency.cc:284-300 | searching each list in the other decides pointwise equality |
| `CurrencyPoolList.GetAvailable` | src/banker/currency.cc:302-313 | the search finds the amount of a currency, zero when it is absent |
| `CurrencyPoolList.IsSameOrPastVersion` | src/banker/currency.cc:387-400 | the search decides whether each entry is at least the other pool's amount |
| `AccountSpec.CheckInvariantsIsSound` | src/banker/account.h:241-271 | the check passes exactly for accounts with no negative counter whose credit equals debit plus balance in every currency |
| `AccountSpec.GrownIsAtLeast` | src/banker/account.h:107-124 | an account none of whose eleven counters went down passes `isSameOrPastVersion` against its earlier self |
| `AccountSpec.GrownIffAtLeast` | src/banker/account.h:107-124 | for any two accounts: no counter went down exactly when the later one passes `isSameOrPastVersion` and no stored amount has gone from it, which the code does not look at |
| `AccountSpec.LostAmountPasses` | src/banker/currency.cc:387-400 | an account that has lost a stored amount altogether passes the test |
| `AccountSpec.NetBudgetAt` | src/banker/account.cpp:123-132 | the net budget is what was not spent or committed: budget, allocations, recycled money and adjustments, in minus out |
| `AccountLaws.PlanAt` | src/banker/account.h:329-368 | the three amounts of a transfer per currency: recycled money first, then budget, and what goes back up |
| `AccountLaws.MoveConserves` | src/banker/account.h:370-381 | whatever the amounts, child plus parent balance stays the same and both stay balanced, also when a check then throws |
| `AccountLaws.SetBalanceCompletes` | src/banker/account.h:319-407 | from a parent that is not overdrawn `setBalance` passes all its checks |
| `AccountLaws.SetBalanceCompletesIff` | src/banker/account.h:319-407 | for sound accounts and any parent balance: the checks pass exactly when each requested overdraft is covered by recycled money given out and received before |
| `AccountLaws.SetBalanceReachesTarget` | src/banker/account.h:319-407 | per currency the child ends at the target or short by exactly what the parent lacks, the parent is not overdrawn, recycled money goes before budget |
| `AccountLaws.SetBalanceGrowsCountersIff` | src/banker/account.h:370-381 | no counter of either side goes down exactly when the parent has no negative balance in a currency the child holds a request entry for |
| `AccountLaws.RecuperateAt` | src/banker/account.h:417-428 | recuperating takes the child down to its overdraft and gives the rest to the parent |
| `AccountLaws.RecuperateCompletes` | src/banker/account.h:417-428 | between sound accounts it passes its check, keeps both sound and lets no counter go down |
| `AccountLaws.SetBudgetAt` | src/banker/account.cpp:50-83 | the new budget is reached when that overdraws no currency, otherwise the whole balance is taken out in every currency; the account is never overdrawn after it |
| `AccountLaws.SetBudgetGrowsCountersIff` | src/banker/account.cpp:72-77 | no counter goes down exactly when the change has one sign over all currencies |
| `AccountLaws.SetBudgetCompletesIff` | src/banker/account.cpp:50-83 | on a sound account the closing check passes exactly when the change takes nothing out in any currency, or in none puts in more than was ever taken out of the budget |
| `AccountLaws.SetBudgetWrites` | src/banker/account.cpp:69-83 | `setBudget` leaves the account active and shows its change in one counter, what was added to the budget unless something is taken out in a currency; kind, children, line items and the other nine counters stay |
| `AccountLaws.AddAdjustmentAt` | src/banker/account.cpp:85-99 | balance and net adjustments move by the adjustment, in and out |
| `AccountLaws.AddAdjustmentGrowsCountersIff` | src/banker/account.cpp:89-94 | no counter goes down exactly when the adjustment has one sign |
| `AccountLaws.AddAdjustmentCompletesIff` | src/banker/account.cpp:85-99 | on a sound account the closing check passes exactly when the adjustment takes nothing out in any currency, or in none puts in more than adjustments ever took out |
| `AccountLaws.AddAdjustmentWrites` | src/banker/account.cpp:85-99 | an adjustment shows in one of its two counters and in the balance, and nothing else is written |
| `AccountLaws.ImportSpendWrites` | src/banker/account.cpp:101-121 | imported spend moves from the balance to what was spent, and nothing else is written |
| `AccountLaws.TransferWrites` | src/banker/account.h:370-381 | a transfer writes four fields of either side and nothing else |
| `AccountLaws.ImportSpendCompletes` | src/banker/account.cpp:101-121 | spend is admitted exactly for a sound spend account that can pay it, and then completes without overdrawing it |
| `AccountObject.Account.SetBudget` | src/banker/account.cpp:50-83 | the object ends as the specified account, active and with nothing but budget counters and balance changed, and reports its closing check; the assertion in the middle cannot fail |
| `AccountObject.Account.AddAdjustment` | src/banker/account.cpp:85-99 | the object ends as the specified account, and reports its closing check |
| `AccountObject.Account.ImportSpend` | src/banker/account.cpp:101-121 | refused calls leave the object as it was; an admitted one never fails its closing check |
| `AccountObject.Account.SetBalance` | src/banker/account.h:319-407 | both objects end as the planned transfer leaves them, also when a closing check fails; a failed entry check changes nothing |
| `AccountObject.Account.RecuperateTo` | src/banker/account.h:417-428 | both objects end as the transfer leaves them; only the child is checked |
| `AccountObject.Account.SyncFrom` | src/banker/account.h:641-671 | a refused snapshot changes nothing; an accepted one is written, line items included, leaves the status, and never fails the closing check |
| `Ledger.ApplyKeepsInv` | src/banker/account.h:319-428 | each single write of the banker keeps, in every account and currency: credit equals debit, allocatedOut is the children's budget, recycled counters are what crossed the edges above and below, and the map is a tree |
| `Ledger.RunsKeepInv` | src/banker/account.h:846-1080 | these invariants hold after every sequence of writes from the empty map, completed operations or not |
| `LedgerTheorems.SubtreeEffective` | src/banker/account.h:1305-1309 | in a whole subtree everything handed out inside cancels: what is left is the root's own budget and what crossed the edge above it |
| `LedgerTheorems.TreeConserves` | src/banker/account.h:1295-1324 | for each top-level account: effective budget over the tree is its own budget, and balances, spend and in-flight together are that budget plus adjustments |
| `LedgerTheorems.Conservation` | src/banker/account.h:846-1080 | the same after every run from an empty banker |
| `LedgerTheorems.MoveGrowsIff` | src/banker/account.h:107-124 | a write lets no counter of any account go down exactly when budget changes and adjustments have one sign and no transfer asks an overdrawn parent |
| `LedgerTheorems.SteadyRunsGrow` | src/banker/account.h:107-124 | along runs of such writes all eleven counters only grow, so a later account passes `isSameOrPastVersion` against any earlier one |
| `Banker.FitsIff` | src/banker/account.h:1192-1216 | `ensureAccount` succeeds exactly when the account, if present, has the kind asked for, all above it are budget accounts, and a top-level one is asked for as budget account |
| `Banker.EnsuredIs` | src/banker/account.h:1192-1216 | it creates just the missing accounts on the way, empty and of the right kind, and changes nothing else but the listing of children |
| `Banker.EnsuredNew` | src/banker/account.h:1192-1216 | what it creates is active and empty: a budget account above, the kind asked for at the key itself |
| `Banker.EnsuredKeepsTree` | src/banker/account.h:1192-1216 | the map stays a tree |
| `Banker.EnsuredStaysSound` | src/banker/account.h:1192-1216 | if all accounts were sound, all are afterwards |
| `Banker.CheckedStaysSound` | src/banker/account.h:953-1080 | after an operation that passed its check all accounts of a sound map are sound again |
| `Banker.Accounts.EnsureAccount` | src/banker/account.h:1192-1216 | the map ends as specified, and unchanged on failure |
| `Banker.Accounts.SetBudget` | src/banker/account.h:953-964 | only top-level accounts; the account is created when missing and stays created when the check fails; it ends active, with nothing but budget counters and balance changed |
| `Banker.Accounts.SetBalance` | src/banker/account.h:972-995 | creates a missing account when a kind is given, moves money from the parent, and completes on a sound map with a solvent parent; a top-level account created this way stays although the call fails |
| `Banker.Accounts.Transfer` | src/banker/account.h:319-407 | the edge above the account carries the planned transfer; sound maps stay sound when the parent is solvent |
| `Banker.Accounts.AddAdjustment` | src/banker/account.h:1005-1012 | an unknown account is refused; otherwise just that account changes |
| `Banker.Accounts.Recuperate` | src/banker/account.h:1024-1027 | top-level or unknown accounts are refused unchanged; otherwise just the two sides of the edge change |
| `Banker.Accounts.ImportSpend` | src/banker/account.h:1050-1056 | just the account changes, and only when it may import |
| `Banker.Accounts.SyncFromShadow` | src/banker/account.h:1069-1080 | an unknown account is created first and stays even when the snapshot is refused |
| `Banker.Accounts.CloseAccountImpl` | src/banker/account.h:1238-1254 | closing in any order of children ends in the state `ClosedAt` describes, uses nothing but recuperations and marks, conserves the total of all balances however far it comes, and cannot fail on a sound map; a top-level account is closed without an error, unlike the comment at account.h:918-921 |
| `Banker.Accounts.ReactivateAccount` | src/banker/account.h:884-892 | exactly the account, all above and all below it become active; an unknown one changes nothing |
| `Banker.Accounts.ReactivateAccountChildren` | src/banker/account.h:1256-1264 | exactly the subtree becomes active |
| `Banker.Accounts.ReactivatePresentAccounts` | src/banker/banker.cc:735-744 | opens a closed account with all above and below it; anything else is left alone |
| `Banker.Accounts.CloseRoute` | src/banker/banker.cc:135-153 | the route closes what the reopened map holds, succeeds for every account of a sound map, keeps it sound, and conserves the total of all balances |
| `Banker.Accounts.ShadowRoute` | src/banker/banker.cc:81-98 | an unsound snapshot is refused before anything is looked at or created; a closed account answers unchanged, any other is synced |
| `Closing.RisesIsTotal` | src/banker/account.h:1238-1254 | with every account of a subtree active and none overdrawn in a currency, closing sends up exactly the sum of all its balances |
| `Closing.AddSibling` | src/banker/account.h:1243-1245 | closing one more sibling composes with those closed before, in any order |
| `Closing.FinishCloses` | src/banker/account.h:1247-1250 | recuperating and marking after the children gives every account of the map the state a close describes |
| `Closing.CloseCollects` | src/banker/account.h:1238-1254 | with active and solvent accounts: all of the subtree are closed and empty, exactly their total is with the parent or on the top-level root, nothing else is touched |
| `Closing.ClosesAllIff` | src/banker/account.h:1238-1245 | the whole subtree is closed in the end exactly when no active account in it was below a closed one |
| `Closing.InternalRunConserves` | src/banker/account.h:1238-1264 | no sequence of creations, transfers, recuperations and marks changes the total balance of the map, cut short anywhere |
| `Banker.CloseStrands` | src/banker/account.h:1238-1245 | a reachable map in which closing leaves an active account below a closed one |
| `Banker.ReopenedHasNoStranded` | src/banker/banker.cc:135-153 | after the route has reopened a closed account nothing in its subtree can be stranded |
| `Reports.GetAccountSummaryImpl` | src/banker/account.h:1295-1324 | the summary's totals are those of the whole subtree, the listing of sub-accounts ends at the depth asked for |
| `Reports.AvailableIsWhatIsLeft` | src/banker/account.h:1295-1324 | in a reachable map `available` is the sum of all balances of the subtree at any depth limit, and a top-level effective budget is the account's own budget |
| `Reports.CheckBudgetConsistencyImpl` | src/banker/account.cpp:397-431 | true exactly when every account within the depth limit has allocated what its children have as budget |
| `Reports.BudgetsAreConsistent` | src/banker/account.cpp:397-431 | in a reachable map the check succeeds for every account, starting level and depth limit |
| `Reports.GetRecycledUp` | src/banker/account.cpp:433-453 | the result is exactly the recycled money that crossed the edge above the account, in each direction, and zero at top level |
| `ShadowSpec.CheckShadowIsSound` | src/banker/account.h:472-490 | the shadow's check passes exactly for non-negative counters and balanced sides |
| `ShadowSpec.MaySyncIff` | src/banker/account.h:641-659 | a snapshot is accepted exactly when both sides are sound and none of its three counters is behind the master's in any currency |
| `ShadowSpec.SyncCompletes` | src/banker/account.h:641-671 | an accepted snapshot passes the closing check and lets no counter go down |
| `ShadowSpec.SyncWrites` | src/banker/account.h:661-671 | an accepted snapshot leaves its three counters and its line items with the master, and a balance to match; kind, status, children and the other counters stay |
| `ShadowSpec.SyncFromMasterWrites` | src/banker/account.h:673-685 | the shadow takes over net budget and status; its counters, line items and open bids stay |
| `ShadowSpec.SyncFromMasterIsSound` | src/banker/account.h:673-685 | the closing check of `syncFromMaster` cannot fail |
| `ShadowSpec.SyncFromMasterAgrees` | src/banker/account.h:673-685 | when the master holds the shadow's own counters the shadow gets the master's balance |
| `ShadowRuns.CommitmentsAddUp` | src/banker/account.h:539-635 | on every run from a fresh shadow: made minus retired is the open commitments, less the events counted, plus commitments lost to a payment in another currency |
| `ShadowLaws.AuthorizeBidIff` | src/banker/account.h:579-595 | a sound shadow grants a bid exactly when the balance covers it and the item is not open (and the counter stays non-negative), answers no exactly when the balance does not, and writes nothing unless it grants |
| `ShadowLaws.AuthorizeBidWrites` | src/banker/account.h:589-592 | a granted bid moves its amount from the balance to the commitments made and opens its item |
| `ShadowLaws.BidIsPaid` | src/banker/account.h:546-564 | a bid paid to the end retires what was authorised, spends what was paid, gives the difference back, counts one impression in both counters when anything was paid, and adds its line items by name and currency |
| `ShadowLaws.CommitBidWrites` | src/banker/account.h:597-602 | paying an open bid does that with the amount it was opened for, and closes its item |
| `ShadowLaws.ForceWinWrites` | src/banker/account.h:539-543 | a force-win takes what is paid from the balance |
| `ShadowLaws.CommitEventWrites` | src/banker/account.h:567-573 | an event is spent and retired and leaves the balance |
| `ShadowLaws.CancelUndoes` | src/banker/account.h:579-607 | granting a bid and cancelling it leaves balance, spend, line items and open bids as they were |
| `ShadowLaws.ItemsAddUp` | src/banker/account.h:546-607 | on every run of non-negative amounts the line items are, by name and currency, those of all bids paid to the end |
| `ShadowRuns.MismatchLoses` | src/banker/account.h:597-602 | a bid paid in another currency than authorised is refused after its commitment was erased, so it is lost |
| `ShadowRuns.ThriftyRuns` | src/banker/account.h:539-607 | without force-wins and overpaid bids a shadow that is not overdrawn never becomes so |
| `ShadowRuns.UpwardStep` | src/banker/account.h:539-635 | with non-negative amounts no counter goes down, the shadow stays sound, and only re-opened, unknown or mismatched items are refused |
| `ShadowObject.ShadowAccount.CommitDetachedBid` | src/banker/account.h:546-564 | what is left when a check throws in the middle is as specified too; a bid paid to the end counts one impression and adds its line items |
| `ShadowObject.ShadowAccount.CommitEvent` | src/banker/account.h:567-573 | spent and retired grow by the event |
| `ShadowObject.ShadowAccount.ForceWinBid` | src/banker/account.h:539-543 | the step of a bid that was never authorised |
| `ShadowObject.ShadowAccount.AuthorizeBid` | src/banker/account.h:579-595 | no budget is an answer, a re-opened item an error before anything is written |
| `ShadowObject.ShadowAccount.CommitBid` | src/banker/account.h:597-602 | the commitment is erased before the payment is checked |
| `ShadowObject.ShadowAccount.CancelBid` | src/banker/account.h:604-607 | the authorised amount comes back |
| `ShadowObject.ShadowAccount.DetachBid` | src/banker/account.h:609-625 | erases and returns the commitment of a known item; the second check cannot fail |
| `ShadowObject.ShadowAccount.AttachBid` | src/banker/account.h:627-635 | refuses an item that is open |
| `ShadowObject.ShadowAccount.SyncFromMaster` | src/banker/account.h:673-685 | takes net budget and status from the master and works out the balance |
| `ShadowObject.ShadowAccount.InitializeAndMergeState` | src/banker/account.h:696-714 | merges counters and line items, works out the balance, keeps the status; it cannot fail after the entry checks |
| `ShadowObject.AddLineItems` | src/banker/currency.cc:446-453 | adding line items entry by entry |
| `LateInit.StepMerged` | src/banker/account.h:539-635 | a step that is effective before the master is known is effective after, and keeps the two shadows apart by just the master's state |
| `LateInit.LateIsSameAsReplay` | src/banker/account.h:687-714 | merging late gives the same state as merging first and replaying the same effective steps, for a master that is not overdrawn |
| `LateInit.LateIsReplayIff` | src/banker/account.h:687-714 | for every sound master: merging late and replaying give the same state for all effective runs exactly when the master is not overdrawn, and exactly then all of them are effective in the replay |
| `Wire.WireAccountIsSame` | src/banker/account.h:126-219 | reading back succeeds exactly for non-negative counters; kind, status, counters and line items are the same, and so is the recomputed balance of a balanced account |
| `Wire.WireShadowIsSame` | src/banker/account.h:492-533 | a shadow read back has the same amounts and line items, and passes its check exactly when it did |
| `Protocol.OtherMovesKeepBids` | src/banker/account.h:319-428 | no write but importing spend and syncing touches the three bid counters of any account |
| `Protocol.BeginningIsGood` | src/banker/account.h:641-685 | a shadow and a master that agree on the counters satisfy the protocol's invariant |
| `Protocol.RunsStayGood` | src/banker/account.h:641-685 | with snapshots and replies lost, repeated, late and reordered, and whatever else the banker writes to the master, operations that throw included: the master's bid counters are at all times those of a sent snapshot, the newest accepted, and never go back |
| `Protocol.AcceptedIff` | src/banker/account.h:641-659 | an active master accepts a snapshot exactly when it is itself sound and the snapshot is not older than the newest accepted one or no counter moved between them; a refused one changes nothing |
| `Protocol.RedeliveryIsNoOp` | src/banker/account.h:661-665 | delivering again what the master holds moves no counter and no balance |
| `Protocol.ClosedForgets` | src/banker/banker.cc:92-97 | on every run that does not open a closed master again its bid counters stand still; if nothing else writes to it, it does not change at all and every answer tells of the account as it was closed |
| `Protocol.UnsoundStandsStill` | src/banker/account.h:641-647 | a master that a thrown operation has left unsound refuses every snapshot and answers none, on every run, until the banker writes to it again |
| `Protocol.OneExchangeAgrees` | src/banker/account.h:641-685 | after any history one undisturbed exchange with a sound and active master leaves both sides with the same counters, line items, status and balance |
| `Restore.RestoreOneMore` | src/banker/account.h:855-882 | restoring one more account anywhere in the tree fits, and gives the next partial tree |
| `Restore.RestoringRebuilds` | src/banker/account.h:855-882 | restoring a tree in any order of keys never fails and rebuilds the same accounts and children, all active, balances recomputed |
| `Restore.LoadingRebuilds` | src/banker/banker.cc:671-690 | the same from the stored values alone |
| `Restore.LoadRedis` | src/banker/banker.cc:648-692 | the loop ends with the rebuilt tree, which satisfies the ledger's invariants with the history of the saved one, or with nothing when a value is missing or unreadable |
| `Restore.SameTreeKeepsInv` | src/banker/account.h:855-882 | any map that holds the accounts of a reachable map again, as loading gives it, satisfies the ledger's invariants, and so does every run from there |
| `Restore.RebuiltKeepsInv` | src/banker/account.h:855-882 | the ledger's invariants hold in the rebuilt map and on every run from there |
| `Persistence.SaveToRedis` | src/banker/banker.cc:481-614 | which stored values are unreadable, which accounts are bad, and what each key's value and sets are after a save; nothing is written when one account is bad |
| `Persistence.SavingKeepsFiled` | src/banker/banker.cc:534-575 | each stored key stays in exactly one of the two sets, and accounts stored active in the active one |
| `Persistence.ClosedIsFiledActive` | src/banker/banker.cc:562-566 | an account closed before its first save is filed as active |
| `Persistence.SaveLoads` | src/banker/banker.cc:530-690 | after saving a whole banker over a store with nothing archived, its accounts are all filed as active exactly when no account stored active was closed; then loading them in any order gives the same tree, all active |
| `Persistence.FirstSaveLoads` | src/banker/banker.cc:562-690 | in particular a first save: accounts that were closed come back active |
| `Persistence.MasterBanker.Operate` | src/banker/banker.cc:423-443 | writes go on while a save is under way and keep the store behind the accounts |
| `Persistence.MasterBanker.PersistRedis` | src/banker/banker.cc:423-443 | a snapshot is taken unless a save is under way |
| `Persistence.MasterBanker.SavingThread` | src/banker/banker.cc:428-439 | along steady runs every save succeeds, finds no bad account, and leaves each value as it was in the snapshot |
| `Overdraft.MovesKeepEntries` | src/banker/account.h:319-428 | no write of the banker drops an amount above zero from a counter, so that the version test then sees every decrease |
| `Overdraft.NextSaveRefusesIff` | src/banker/banker.cc:530-558 | with the accounts as they were before a write in the store, the next save finds a bad one exactly when the write was not steady |
| `Overdraft.AskingAgainShrinks` | src/banker/account.h:319-407 | a run of USD requests after which asking for the balance an account already has passes both checks, takes its parent's recycledOut from 10 to 5, and makes the parent bad for the next save |
| `Overdraft.AskingAgainBreaks` | src/banker/account.h:383-407 | the same request when no recycled money was handed down: the closing check throws, the account stays with recycledIn at -5, and refuses every snapshot from then on |
| `JsonIterative.ParsersAgree` | src/rapidjson/reader.h:1716-1748 | for every text, nesting depth and setting of the comment and stop flags the iterative and the recursive parser accept alike, stop at the same position and send the same events with the same counts, also before an error |
| `JsonIterative.ValueRuns` | src/rapidjson/reader.h:1716-1740 | from any state that wants a value the loop does what the recursive parser does with it |
| `JsonIterative.ElementsRun` | src/rapidjson/reader.h:1602-1607 | elements are read alike and counted alike, the last one without a comma |
| `JsonIterative.MembersRun` | src/rapidjson/reader.h:1570-1607 | names, colons, values and commas of members are read alike and counted alike |
| `JsonIterative.TransitIsProper` | src/rapidjson/reader.h:1555-1694 | the stack always holds a frame for each open array or object, with a state to go back to that fits |
| `JsonReader.Reader.SkipWhitespaceAndComments` | src/rapidjson/reader.h:549-575 | ends behind spaces and, when allowed, comments; an unclosed comment is an error |
| `JsonReader.Reader.ParseLiteral` | src/rapidjson/reader.h:677-714 | null, true and false letter by letter |
| `JsonReader.Reader.ParseHex4` | src/rapidjson/reader.h:726-747 | four hex digits, the unsigned accumulator taking each in two steps |
| `JsonReader.Reader.ParseUnicode` | src/rapidjson/reader.h:838-852 | exactly four hex digits that are no high surrogate, or the UTF-16 halves of a code point beyond 0xFFFF, and then that code point; anything else is refused |
| `JsonReader.Reader.ParseStringToStream` | src/rapidjson/reader.h:812-878 | the decoded characters up to the closing quote |
| `JsonReader.Reader.TakeDigits` | src/rapidjson/reader.h:1114-1133 | digits are taken while one more fits, so that the accumulator never wraps at its width |
| `JsonReader.Reader.ParseInteger` | src/rapidjson/reader.h:1106-1174 | the 32-bit value, or the 64-bit one, or neither, exactly as the number's size says |
| `JsonReader.Reader.ParseNumber` | src/rapidjson/reader.h:1089-1294 | the event of the narrowest kind, negated in two's complement, or a double by the given conversion |
| `JsonReader.Reader.ParseObject` | src/rapidjson/reader.h:577-635 | the loop over members does what the specification says, events sent before an error included |
| `JsonReader.Reader.ParseArray` | src/rapidjson/reader.h:637-675 | the loop over elements does what the specification says, events sent before an error included |
| `JsonReader.Reader.ParseValue` | src/rapidjson/reader.h:1297-1311 | dispatch on the first character |
| `JsonReader.Reader.Parse` | src/rapidjson/reader.h:474-506 | one value and nothing behind it, unless asked to stop there |
| `JsonReader.Reader.Transit` | src/rapidjson/reader.h:1554-1694 | one transition on the explicit stack |
| `JsonReader.Reader.IterativeParse` | src/rapidjson/reader.h:1715-1748 | the loop does what the specified one and, equally, the recursive parser does |
| `JsonStrings.StringIff` | src/rapidjson/reader.h:812-878 | a string is read exactly when it is written by the grammar of section 7 of RFC 8259 and closed, and then as what that says: raw characters, eight short escapes, four hex digits in either case, surrogate pairs |
| `JsonStrings.ScalarEscapes` | src/rapidjson/reader.h:838-852 | every scalar value written by four hex digits, or beyond 0xFFFF by its UTF-16 pair, is read as its UTF-8 encoding |
| `JsonStrings.LoneHighIsRefused` | src/rapidjson/reader.h:842-851 | a high surrogate without a low one behind it is refused |
| `JsonStrings.UnicodeEscapeIff` | src/rapidjson/reader.h:726-747 | the code point of an escape, both directions |
| `JsonStrings.PrintedForm` | src/rapidjson/writer.h:317-389 | how each character is printed: quote, backslash and five controls by short escapes, other controls by upper-case hex digits, all else as it is |
| `JsonLexical.NumberIff` | src/rapidjson/reader.h:1089-1294 | a number is taken exactly when one of the grammar of section 6 of RFC 8259 stands there, as far as it goes, and its event is the one of its size or its double |
| `JsonLexical.SkipIff` | src/rapidjson/reader.h:549-575 | exactly the four spaces and, where allowed, block comments to the first star and slash and line comments to the newline or the end are passed over |
| `JsonWriter.WritesValue` | src/rapidjson/writer.h:160-220 | the events of a value, wherever one may stand, write the comma or colon due and then the value's text |
| `JsonWriter.WriterPrints` | src/rapidjson/writer.h:409-427 | a whole value's events from a blank printer give its text and a complete document |
| `JsonWriter.Writer.AddPrefix` | src/rapidjson/writer.h:409-427 | comma or colon by the level's count |
| `JsonWriter.Writer.WriteString` | src/rapidjson/writer.h:317-389 | quotes and escapes around arbitrary characters |
| `JsonWriter.Writer.Receive` | src/rapidjson/writer.h:160-220 | one event on stream and level stack |
| `JsonWriter.Writer.WriteValue` | src/rapidjson/writer.h:160-220 | printing a value gives exactly its text |
| `JsonDocument.BuildsValue` | src/rapidjson/document.h:2320-2352 | building from a value's events puts that value on the stack, whichever integer kind numbers were sent as |
| `JsonDocument.CopyIsSame` | src/rapidjson/document.h:1754-1792 | a value copied by its own events is the same value |
| `JsonDocument.Document.Receive` | src/rapidjson/document.h:2320-2352 | each handler method on the stack |
| `JsonDocument.Document.ReceiveAll` | src/rapidjson/document.h:2141-2152 | the events of a parse in turn |
| `JsonRoundTrip.ReadsString` | src/rapidjson/reader.h:812-878 | a printed string is read back, control characters, quotes and NUL included |
| `JsonRoundTrip.ReadsNumber` | src/rapidjson/reader.h:1089-1294 | integers are read back over the whole signed and unsigned 64-bit range |
| `JsonRoundTrip.ReadsValue` | src/rapidjson/reader.h:1297-1311 | a printed value inside any text is read as that value's events |
| `JsonRoundTrip.RoundTrip` | src/rapidjson/document.h:1754-1792 | any value without doubles printed by its events, parsed by either parser with any flags and built from the events is that value again |
| `JsonEquality.EqualsSomethingIff` | src/rapidjson/document.h:844-884 | for any value of 64-bit integers without doubles: there is a value it is equal to, as the left side, exactly when the values under each repeated name can all be equal to one and the same; the comment at document.h:841 says that there is never one when an object repeats a name |
| `JsonEquality.SomethingEquals` | src/rapidjson/document.h:844-884 | on the right side every such value, repeated names or not, has a value that is equal to it |
| `JsonEquality.DistinctSpreads` | src/rapidjson/document.h:850-860 | what a value without repeated names is equal to has none either: with such a value on the left the comment at document.h:841 holds |
| `JsonEquality.Transitive` | src/rapidjson/document.h:844-884 | equality is transitive, repeated names or not |
| `JsonEquality.SymmetricIff` | src/rapidjson/document.h:844-884 | equality with a right side without repeated names holds the other way round exactly when the left side has none |
| `JsonEquality.ReconcilableIff` | src/rapidjson/document.h:850-860 | when repeated names are in the outermost object only, it is equal to something exactly when repeated names repeat equal values |
| `JsonEquality.ReconcilableAlone` | src/rapidjson/document.h:850-860 | with repeats further inside that is not so: an object that is equal to another one and not to itself |
| `JsonEquality.ReflexiveIff` | src/rapidjson/document.h:844-884 | a value without doubles equals itself exactly when repeated names repeat equal values |
| `JsonMeaning.EqualsIff` | src/rapidjson/document.h:844-884 | between values without doubles and repeated names equality is sameness of meaning: members in no order, integers by their 64 bits |
| `JsonEquality.RepeatedNames` | src/rapidjson/document.h:850-860 | an object with a repeated name that equals itself, one that does not, and a pair equal one way round only |
| `JsonEquality.NumbersEqualIff` | src/rapidjson/document.h:873-880 | integers are equal exactly when they are the same or 2^64 apart |
| `JsonEquality.DistinctIsReflexive` | src/rapidjson/document.h:844-884 | values without repeated names equal themselves |
| `JsonEquality.DistinctIsSymmetric` | src/rapidjson/document.h:844-884 | equality with a left side without repeated names holds the other way round too |
| `Utf8.EncodedIsSequence` | src/rapidjson/encodings.h:101-169 | every scalar value is encoded as a sequence that validates, and decoded again |
| `Utf8.SequenceIsEncoded` | src/rapidjson/encodings.h:145-198 | every sequence that validates is the encoding of the scalar value it decodes to |
| `Utf8.Validate` | src/rapidjson/encodings.h:174-198 | unit by unit: right exactly when the stream has such a sequence ahead, and then just that is taken |
| `JsonPointer.PlainRoundTrip` | src/rapidjson/pointer.h:793-963 | every list of names is printed in plain form and parsed back with the same names and indices |
| `JsonPointer.FragmentRoundTrip` | src/rapidjson/pointer.h:793-1028 | as a URI fragment a list is printed exactly when all names are UTF-8, and then parsed back with the same names and indices |
| `JsonPointer.FragmentPrintsIff` | src/rapidjson/pointer.h:931-963 | percent encoding succeeds exactly for well-formed names |
| `JsonPointer.IndexIsNumber` | src/rapidjson/pointer.h:894-907 | a number that fits 32 bits is its own index |
| `JsonPointer.WordHasNoIndex` | src/rapidjson/pointer.h:880-908 | a name that is empty, holds a character that is no digit, or has a zero in front of others gets no index |
| `JsonPointer.IndexIs` | src/rapidjson/pointer.h:888-910 | the index of a number of any length is its remainder of 32 bits, unless that remainder gets smaller at some digit; then it is the invalid one |
| `JsonPointer.NameOnlyIff` | src/rapidjson/pointer.h:888-910 | a number of any length is a name only exactly when its remainder of 32 bits gets smaller at some digit or comes to the invalid index; the comment at pointer.h:86-88 promises it for every number beyond 32 bits |
| `JsonPointer.TenDigitsIff` | src/rapidjson/pointer.h:898-903 | for ten digits beyond 32 bits that is seen from the last one: the remainder is less than all digits but the last |
| `JsonPointer.TenNinesAreAnIndex` | src/rapidjson/pointer.h:898-903 | the name 9999999999 gets the index 1410065407 |
| `JsonPointer.Pointer.ParseSource` | src/rapidjson/pointer.h:793-928 | tokens of the source, or none after an error |
| `JsonPointer.Pointer.TakeName` | src/rapidjson/pointer.h:836-886 | one name, percent signs and tildes decoded |
| `JsonPointer.Pointer.ToIndex` | src/rapidjson/pointer.h:888-910 | no index for a name that is no number; else the remainder of 32 bits, unless that drops at some digit |
| `JsonPointer.Pointer.StringifyTo` | src/rapidjson/pointer.h:931-963 | the text of all tokens, or failure on a name that is not UTF-8 |
| `PointerGrammar.PointerIff` | src/rapidjson/pointer.h:793-928 | a source is parsed exactly when it is written by a grammar after sections 3 and 6 of RFC 6901, plain or as a fragment (where an encoded solidus belongs to the name), and its tokens are then those of the names |
| `PointerGrammar.NameIff` | src/rapidjson/pointer.h:832-874 | a name is read exactly when it is written by that grammar up to the next solidus: characters, tilde escapes, and in a fragment whole UTF-8 sequences by percent signs |
| `PointerGrammar.PrintedForm` | src/rapidjson/pointer.h:937-959 | how each character of a name is printed: tilde escapes, percent signs for what is not unreserved in a fragment, all else as it is |
| `PointerGrammar.NeedsNoneIff` | src/rapidjson/pointer.h:781-783 | the characters that need no percent sign, by their codes |
| `Shard.RelayIs` | src/relay/relay.cpp:427-436 | the relay's wrapping hash is the script's unbounded one in 32 bits, less 256 times the weight of the bytes that are negative as char |
| `Shard.AgreeIff` | scripts/shard.py:13-17 | the two hashes agree exactly when char is unsigned or that weight vanishes in 31 bits |
| `Shard.AsciiAgrees` | scripts/shard.py:44-47 | for every ASCII name and number of shards script and relay choose the same shard |
| `Shard.OneForeignByteDiffers` | src/relay/relay.cpp:427-436 | one trailing byte beyond ASCII always makes the hashes differ when char is signed |
| `Shard.OneTreeOneShard` | src/relay/relay.cpp:419-443 | all accounts of one tree are on the shard of its top account, for relay and script |
| `Shard.RelaySDBMHash` | src/relay/relay.cpp:427-436 | the relay's loop |
| `Shard.ScriptSDBMHash` | scripts/shard.py:13-17 | the script's loop |
| `ConnectionPool.HttpConnectionPool.GetConnection` | src/utils/http_connection_pool.cpp:40-54 | never gives out a connection that is out; opens one when none is free or too few are tracked, else reuses the one returned first; keeps the pool's invariants, its size bound included |
| `ConnectionPool.HttpConnectionPool.ReturnConnection` | src/utils/http_connection_pool.cpp:57-66 | closes the connection exactly after the last request allowed on it, else queues it; keeps the invariants |
| `ConnectionPool.HttpConnectionPool.LastUse` | src/utils/http_connection_pool.cpp:68-71 | among the connections of the pool it holds with the last request allowed on one, and no other: exactly then the return closes it |

## Left out

* Amounts are unbounded integers: the 64-bit width of counters, and of the amounts
  that are read from JSON, is not modelled.
* Floating point: `CurrencyPool *= double`, the fraction and exponent of JSON numbers,
  the printing of doubles and the comparison of JSON values that hold them. The parser
  takes the conversion to a double, which may fail, as a parameter, and the printer the
  text of one.
* `adjustmentLineItems`, logging counters, and the legacy `budget` member of stored
  accounts; line items are opaque pools by name.
* Splitting account names at colons, except for choosing a shard; a key is a sequence
  of names.
* The text of stored accounts: the store keeps the accounts' fields as they would be
  written, and reading drops zero entries and works out the balance.
* The map of accounts holds values: an operation copies an account out, updates the
  object and puts it back, where the source updates through a reference. Aliasing of
  two references to one account is not modelled; parent and child are never the same.
* Restart after closed accounts were archived: they are not loaded back, and nothing is
  claimed about the tree across that restart.
* Threads: a save is one step that runs while the `persisting` flag is set; the
  commands of a save are executed together.
* `ShadowAccounts`, `attachBid` on its own, the one-sided `recuperate` and `recycle`,
  the interaccount repair in `ensureInterAccountConsistency`, the binary serialisation.
* HTTP, libevent, Redis transport, metrics, logging and configuration.
* In-situ parsing, the SIMD paths, encoding validation while parsing, transcoding, the
  parse error codes and offsets, handlers that stop the parser, and strings of 2^32
  characters or more.
* `allocators.h`, `schema.h`, the pretty writer and the remaining members of
  `GenericValue` and `GenericPointer`.
- LateInit.LateIsSameAsReplay: pools are compared amount by amount, because zero entries may differ.
- Protocol.RunsStayGood: one shadow per master is the only writer of the bid counters, as the design has it.
