/** Saving the banker's accounts to the store, and why a banker whose counters
  only grow never finds its own store inconsistent.
 */
module Persistence {
  import opened Currency
  import opened AccountSpec
  import opened AccountLaws
  import opened ShadowSpec
  import opened Ledger
  import opened LedgerTheorems
  import opened Wire
  import opened Restore

  /** The stored values and the two sets of keys of the store. */
  datatype Redis = Redis(values: map<Key, Acct>, active: set<Key>, archive: set<Key>)

  const EMPTY := Redis(map[], {}, {})

  datatype Command = SAdd(key: Key) | ToArchive(key: Key) | FromArchive(key: Key) | Set(key: Key, value: Acct)

  function Execute(r: Redis, c: Command): Redis {
    match c
    case SAdd(k) => r.(active := r.active + {k})
    case ToArchive(k) => if k in r.active then r.(active := r.active - {k}, archive := r.archive + {k}) else r
    case FromArchive(k) => if k in r.archive then r.(active := r.active + {k}, archive := r.archive - {k}) else r
    case Set(k, a) => r.(values := r.values[k := a])
  }

  function ExecuteAll(r: Redis, cs: seq<Command>): Redis {
    if cs == [] then r else Execute(ExecuteAll(r, cs[..|cs| - 1]), cs[|cs| - 1])
  }

  /** The commands for one account, when nothing is wrong with it. */
  function SaveOne(values: map<Key, Acct>, k: Key, a: Acct): seq<Command> {
    if k !in values then [SAdd(k), Set(k, a)]
    else if SameJson(a, values[k]) then []
    else if a.status == CLOSED && values[k].status == ACTIVE then [ToArchive(k), Set(k, a)]
    else if a.status == ACTIVE && values[k].status == CLOSED then [FromArchive(k), Set(k, a)]
    else [Set(k, a)]
  }

  /** A stored value that cannot be read back: reading it throws. */
  predicate Unreadable(r: Redis, k: Key) {
    k in r.values && !CheckInvariants(WireAccount(r.values[k]))
  }

  /** An account some of whose counters are below the stored ones. */
  predicate Bad(r: Redis, b: Book, k: Key) {
    k in r.values && k in b && !AtLeast(b[k], WireAccount(r.values[k]))
  }

  /** What becomes of key k when its account a is saved. */
  ghost predicate SavedAt(r: Redis, r': Redis, k: Key, a: Acct) {
    && k in r'.values && SameJson(r'.values[k], a)
    && (r'.values[k] == a || (k in r.values && r'.values[k] == r.values[k]))
    && if k !in r.values then k in r'.active && (k in r'.archive <==> k in r.archive)
       else if a.status == CLOSED && r.values[k].status == ACTIVE && k in r.active then
         k !in r'.active && k in r'.archive
       else if a.status == ACTIVE && r.values[k].status == CLOSED && k in r.archive then
         k in r'.active && k !in r'.archive
       else
         (k in r'.active <==> k in r.active) && (k in r'.archive <==> k in r.archive)
  }

  ghost predicate UntouchedAt(r: Redis, r': Redis, k: Key) {
    && (k in r'.values <==> k in r.values) && (k in r.values ==> r'.values[k] == r.values[k])
    && (k in r'.active <==> k in r.active) && (k in r'.archive <==> k in r.archive)
  }

  lemma ExecuteTwo(r: Redis, cs: seq<Command>, x: Command, y: Command)
    ensures ExecuteAll(r, cs + [x, y]) == Execute(Execute(ExecuteAll(r, cs), x), y)
    ensures ExecuteAll(r, cs + [x]) == Execute(ExecuteAll(r, cs), x)
  {
    hide Execute;
    assert (cs + [x, y])[..|cs| + 1] == cs + [x];
    assert (cs + [x])[..|cs|] == cs;
  }

  lemma SaveOneIs(r: Redis, r1: Redis, cs: seq<Command>, k: Key, a: Acct)
    requires r1 == ExecuteAll(r, cs) && UntouchedAt(r, r1, k)
    ensures var r2 := ExecuteAll(r, cs + SaveOne(r.values, k, a));
            SavedAt(r, r2, k, a) && forall j | j != k :: UntouchedAt(r1, r2, j)
  {
    hide SameJson, ExecuteAll;
    assert SameJson(a, a) by {
      SameJsonIsReflexive(a);
    }
    if k !in r.values {
      ExecuteTwo(r, cs, SAdd(k), Set(k, a));
    } else if SameJson(a, r.values[k]) {
      assert cs + [] == cs;
      SameJsonIsSymmetric(a, r.values[k]);
    } else if a.status == CLOSED && r.values[k].status == ACTIVE {
      ExecuteTwo(r, cs, ToArchive(k), Set(k, a));
    } else if a.status == ACTIVE && r.values[k].status == CLOSED {
      ExecuteTwo(r, cs, FromArchive(k), Set(k, a));
    } else {
      ExecuteTwo(r, cs, Set(k, a), Set(k, a));
    }
  }

  lemma SameJsonIsReflexive(a: Acct)
    ensures SameJson(a, a)
  {
  }

  lemma SameJsonIsSymmetric(a: Acct, b: Acct)
    requires SameJson(a, b)
    ensures SameJson(b, a) && a.status == b.status
  {
  }

  datatype Report = Threw | Refused(bad: set<Key>) | Saved

  /** `save_to_redis`, the accounts in any order: nothing at all is written when a
      stored value cannot be read, or when one account is bad. */
  method SaveToRedis(r: Redis, toSave: Book, outOfSync: set<Key>) returns (report: Report, r': Redis)
    ensures report.Threw? <==> exists k :: k in toSave && k !in outOfSync && Unreadable(r, k)
    ensures report.Refused? ==>
              report.bad != {} && report.bad == set k | k in toSave && k !in outOfSync && Bad(r, toSave, k)
    ensures report.Saved? ==>
              forall k | k in toSave && k !in outOfSync :: !Bad(r, toSave, k) && SavedAt(r, r', k, toSave[k])
    ensures report.Saved? ==> forall k | k !in toSave || k in outOfSync :: UntouchedAt(r, r', k)
    ensures !report.Saved? ==> r' == r
  {
    hide CheckInvariants, WireAccount, AtLeast, SaveOne, SavedAt, ExecuteAll, Unreadable, Bad;
    var storeCommands: seq<Command> := [];
    var badAccounts: set<Key> := {};
    var todo := toSave.Keys;
    assert ExecuteAll(r, []) == r by {
      NothingToExecute(r);
    }
    while todo != {}
      invariant todo <= toSave.Keys
      invariant forall k | k in toSave && k !in todo && k !in outOfSync :: !Unreadable(r, k)
      invariant badAccounts == set k | k in toSave && k !in todo && k !in outOfSync && Bad(r, toSave, k)
      invariant forall k | k in toSave && k !in todo && k !in outOfSync && k !in badAccounts ::
                  SavedAt(r, ExecuteAll(r, storeCommands), k, toSave[k])
      invariant forall k | k !in toSave || k in todo || k in outOfSync || k in badAccounts ::
                  UntouchedAt(r, ExecuteAll(r, storeCommands), k)
    {
      var k :| k in todo;
      ghost var before, todoBefore := storeCommands, todo;
      todo := todo - {k};
      if k !in outOfSync {
        if Unreadable(r, k) {
          return Threw, r;
        }
        if Bad(r, toSave, k) {
          badAccounts := badAccounts + {k};
        } else {
          SaveOneIs(r, ExecuteAll(r, before), before, k, toSave[k]);
          storeCommands := storeCommands + SaveOne(r.values, k, toSave[k]);
          forall j | j in toSave && j !in todoBefore && j !in outOfSync && j !in badAccounts
            ensures SavedAt(r, ExecuteAll(r, storeCommands), j, toSave[j])
          {
            SavedStays(r, ExecuteAll(r, before), ExecuteAll(r, storeCommands), j, toSave[j]);
          }
          forall j | j !in toSave || j in todo || j in outOfSync || j in badAccounts
            ensures UntouchedAt(r, ExecuteAll(r, storeCommands), j)
          {
            UntouchedTwice(r, ExecuteAll(r, before), ExecuteAll(r, storeCommands), j);
          }
        }
      }
    }
    if badAccounts != {} {
      return Refused(badAccounts), r;
    }
    report, r' := Saved, ExecuteAll(r, storeCommands);
  }

  lemma NothingToExecute(r: Redis)
    ensures ExecuteAll(r, []) == r
  {
  }

  lemma UntouchedTwice(r: Redis, r1: Redis, r2: Redis, k: Key)
    requires UntouchedAt(r, r1, k) && UntouchedAt(r1, r2, k)
    ensures UntouchedAt(r, r2, k)
  {
  }

  lemma SavedStays(r: Redis, r1: Redis, r2: Redis, k: Key, a: Acct)
    requires SavedAt(r, r1, k, a) && UntouchedAt(r1, r2, k)
    ensures SavedAt(r, r2, k, a)
  {
    hide SameJson;
  }

  // -------------------------------------------------------- saves along a run

  /** Every stored counter is at most the same counter of the account in b. */
  ghost predicate StoreBelow(r: Redis, b: Book) {
    forall k | k in r.values :: k in b && NonNegativeCounters(r.values[k]) && CountersGrow(r.values[k], b[k])
  }

  ghost predicate AllNonNegative(b: Book) {
    forall k | k in b :: NonNegativeCounters(b[k])
  }

  lemma GrownBooksStayNonNegative(b: Book, b': Book)
    requires AllNonNegative(b) && BooksGrow(b, b') && forall k | k in b' && k !in b :: NonNegativeCounters(b'[k])
    ensures AllNonNegative(b')
  {
    hide NonNegativeCounters, CountersGrow;
    forall k | k in b' ensures NonNegativeCounters(b'[k]) {
      if k in b {
        GrownStaysNonNegative(b[k], b'[k]);
      }
    }
  }

  /** Accounts that a move adds are empty. */
  lemma NewAccountsAreEmpty(b: Book, m: Move, k: Key)
    requires k !in b && k in Apply(b, m)
    ensures NonNegativeCounters(Apply(b, m)[k])
  {
    hide CheckInvariants, PlanTransfer, RecuperateTransfer, SetBudget, AddAdjustment, ImportSpend, SyncToMaster,
         MaySync, MayImport;
  }

  lemma StoreStaysBelow(r: Redis, b: Book, b': Book)
    requires StoreBelow(r, b) && BooksGrow(b, b')
    ensures StoreBelow(r, b')
  {
    hide NonNegativeCounters, CountersGrow;
    forall k | k in r.values ensures k in b' && CountersGrow(r.values[k], b'[k]) {
      GrowthIsTransitive(r.values[k], b[k], b'[k]);
    }
  }

  /** No account of a book above the store is bad, nor is a stored value
      unreadable. */
  lemma NothingBad(r: Redis, b: Book, k: Key)
    requires StoreBelow(r, b) && k in b
    ensures !Bad(r, b, k) && !Unreadable(r, k)
  {
    hide NonNegativeCounters, CountersGrow, AtLeast, WireAccount, CheckInvariants, SameCounters;
    if k in r.values {
      var stored := r.values[k];
      WireAccountIsSame(stored);
      SameGrows(WireAccount(stored), stored, b[k]);
      GrownIsAtLeast(b[k], WireAccount(stored));
    }
  }

  lemma SameGrows(a: Acct, b: Acct, d: Acct)
    requires SameCounters(a, b) && CountersGrow(b, d)
    ensures CountersGrow(a, d)
  {
    SameIsBelow(a.budgetIncreases, b.budgetIncreases, d.budgetIncreases);
    SameIsBelow(a.budgetDecreases, b.budgetDecreases, d.budgetDecreases);
    SameIsBelow(a.recycledIn, b.recycledIn, d.recycledIn);
    SameIsBelow(a.recycledOut, b.recycledOut, d.recycledOut);
    SameIsBelow(a.allocatedIn, b.allocatedIn, d.allocatedIn);
    SameIsBelow(a.allocatedOut, b.allocatedOut, d.allocatedOut);
    SameIsBelow(a.commitmentsRetired, b.commitmentsRetired, d.commitmentsRetired);
    SameIsBelow(a.commitmentsMade, b.commitmentsMade, d.commitmentsMade);
    SameIsBelow(a.adjustmentsIn, b.adjustmentsIn, d.adjustmentsIn);
    SameIsBelow(a.adjustmentsOut, b.adjustmentsOut, d.adjustmentsOut);
    SameIsBelow(a.spent, b.spent, d.spent);
  }

  lemma SameIsBelow(p: Pool, q: Pool, r: Pool)
    requires Same(p, q) && Below(q, r)
    ensures Below(p, r)
  {
    forall c ensures At(p, c) <= At(r, c) {
      assert At(p, c) == At(q, c) <= At(r, c);
    }
  }

  /** After a save the store is level with what was saved. */
  lemma SavedIsBelow(r: Redis, r': Redis, b: Book)
    requires StoreBelow(r, b) && AllNonNegative(b)
    requires forall k | k in b :: SavedAt(r, r', k, b[k])
    requires forall k | k !in b :: UntouchedAt(r, r', k)
    ensures StoreBelow(r', b)
  {
    hide NonNegativeCounters, CountersGrow, SameJson;
    forall k | k !in b ensures k !in r'.values {
      assert UntouchedAt(r, r', k);
    }
    forall k | k in r'.values ensures k in b && NonNegativeCounters(r'.values[k]) && CountersGrow(r'.values[k], b[k]) {
      assert SavedAt(r, r', k, b[k]);
      SelfGrows(b[k]);
    }
  }

  /** Where the keys are: every stored key is in one of the two sets and not in
      both, and those of accounts stored as active are in the active one. */
  ghost predicate Filed(r: Redis) {
    && r.values.Keys == r.active + r.archive && r.active !! r.archive
    && forall k | k in r.values && r.values[k].status == ACTIVE :: k in r.active
  }

  lemma SavingKeepsFiled(r: Redis, r': Redis, b: Book)
    requires Filed(r) && (forall k | k in b :: SavedAt(r, r', k, b[k])) && forall k | k !in b :: UntouchedAt(r, r', k)
    ensures Filed(r')
  {
    hide SameJson;
    forall k
      ensures k in r'.values <==> k in r'.active || k in r'.archive
      ensures !(k in r'.active && k in r'.archive)
      ensures k in r'.values && r'.values[k].status == ACTIVE ==> k in r'.active
    {
      if k in b {
        assert SavedAt(r, r', k, b[k]);
        SameJsonIsSymmetric(r'.values[k], b[k]);
      } else {
        assert UntouchedAt(r, r', k);
      }
    }
  }

  /** The banker with its store. The saving thread is one step of its own: nothing
      but the `persisting` flag keeps two of them apart. */
  class MasterBanker {
    var accounts: Book
    var accountsToSave: Book
    var persisting: bool
    var redis: Redis

    /** What saves rely on: the store is never ahead of what will be saved next. */
    ghost predicate Valid()
      reads this
    {
      && AllNonNegative(accounts)
      && Filed(redis)
      && if persisting then
           AllNonNegative(accountsToSave) && BooksGrow(accountsToSave, accounts) && StoreBelow(redis, accountsToSave)
         else
           StoreBelow(redis, accounts)
    }

    constructor ()
      ensures Valid() && accounts == map[] && !persisting
    {
      accounts, accountsToSave, persisting, redis := map[], map[], false, Redis(map[], {}, {});
    }

    /** Any write of the banker, while a save may be under way. */
    method Operate(m: Move)
      requires Valid() && Steady(accounts, m)
      modifies this`accounts
      ensures Valid() && accounts == Apply(old(accounts), m)
    {
      hide Apply, Steady, NonNegativeCounters, CountersGrow, Filed;
      ghost var before := accounts;
      MoveGrowsIff(before, m);
      forall k | k in Apply(before, m) && k !in before ensures NonNegativeCounters(Apply(before, m)[k]) {
        NewAccountsAreEmpty(before, m, k);
      }
      GrownBooksStayNonNegative(before, Apply(before, m));
      if persisting {
        BooksGrowOn(accountsToSave, before, Apply(before, m));
      } else {
        StoreStaysBelow(redis, before, Apply(before, m));
      }
      accounts := Apply(accounts, m);
    }

    /** `persist_redis`; with a save under way it does nothing. */
    method PersistRedis()
      requires Valid()
      modifies this`persisting, this`accountsToSave
      ensures Valid() && persisting
      ensures accountsToSave == if old(persisting) then old(accountsToSave) else accounts
    {
      hide NonNegativeCounters, CountersGrow, Filed;
      if !persisting {
        BookGrowsItself(accounts);
        persisting := true;
        accountsToSave := accounts;
      }
    }

    /** The thread that `persist_redis` has started: it always saves all of the
        snapshot, and never finds a bad account. */
    method SavingThread() returns (report: Report)
      requires Valid() && persisting
      modifies this`redis, this`persisting
      ensures Valid() && !persisting
      ensures report == Saved
      ensures forall k | k in accountsToSave :: k in redis.values && SameJson(redis.values[k], accountsToSave[k])
    {
      hide NonNegativeCounters, CountersGrow, SameJson, Filed, Unreadable, Bad;
      ghost var before := redis;
      forall k | k in accountsToSave ensures !Bad(before, accountsToSave, k) && !Unreadable(before, k) {
        NothingBad(before, accountsToSave, k);
      }
      report, redis := SaveToRedis(redis, accountsToSave, {});
      SavedIsBelow(before, redis, accountsToSave);
      SavingKeepsFiled(before, redis, accountsToSave);
      StoreStaysBelow(redis, accountsToSave, accounts);
      persisting := false;
    }
  }

  lemma BooksGrowOn(a: Book, b: Book, d: Book)
    requires BooksGrow(a, b) && BooksGrow(b, d)
    ensures BooksGrow(a, d)
  {
    hide CountersGrow;
    forall k | k in a ensures CountersGrow(a[k], d[k]) {
      GrowthIsTransitive(a[k], b[k], d[k]);
    }
  }

  /** An account that is closed before it was ever saved is filed as active: the
      key of a new account goes into the active set whatever its status is. */
  lemma ClosedIsFiledActive(r: Redis, r': Redis, k: Key, a: Acct)
    requires k !in r.values && a.status == CLOSED && SavedAt(r, r', k, a)
    ensures k in r'.active && r'.values[k].status == CLOSED
  {
    SameJsonIsSymmetric(r'.values[k], a);
  }

  /** An account whose stored value is active and that is closed now. */
  ghost predicate Retired(r: Redis, b: Book, k: Key) {
    k in b && b[k].status == CLOSED && k in r.values && r.values[k].status == ACTIVE
  }

  lemma RetiredIsKnown(r: Redis, b: Book, k: Key)
    requires Retired(r, b, k)
    ensures k in b
  {
  }

  /** How key k is filed after the save. */
  lemma FiledAfter(b: Book, r0: Redis, r: Redis, k: Key)
    requires Filed(r0) && r0.archive == {} && r0.values.Keys <= b.Keys
    requires if k in b then SavedAt(r0, r, k, b[k]) else UntouchedAt(r0, r, k)
    ensures (k in r.active <==> k in b && !Retired(r0, b, k)) && (k in r.values <==> k in b)
    ensures k in r.archive <==> Retired(r0, b, k)
    ensures k in b ==> k in r.values && SameJson(r.values[k], b[k])
  {
    hide SameJson;
  }

  /** After a save of a whole banker, over a store that has archived nothing and holds
      nothing else, all its accounts are filed as active exactly when the save
      retired none; and then loading brings the whole tree back, all of it active. */
  lemma SaveLoads(b: Book, r0: Redis, r: Redis, keys: seq<Key>)
    requires Inv(b) && (forall k | k in b :: NonNegativeCounters(b[k]))
    requires Filed(r0) && r0.archive == {} && r0.values.Keys <= b.Keys
    requires forall k | k in b :: SavedAt(r0, r, k, b[k])
    requires forall k | k !in b :: UntouchedAt(r0, r, k)
    requires Distinct(keys) && (set k | k in keys) == r.active
    ensures r.values.Keys == b.Keys && forall k | k in keys :: k in r.values
    ensures r.active == b.Keys <==> forall k :: !Retired(r0, b, k)
    ensures (forall k :: !Retired(r0, b, k)) ==>
              var loaded := RestoreAll(map[], r.values, keys);
              && r.archive == {} && loaded.Some? && SameTree(loaded.value, b)
              && forall k | k in b :: loaded.value[k].status == ACTIVE
  {
    hide SameJson, Inv, RestoreAll, SameTree, NonNegativeCounters, SavedAt, UntouchedAt, Filed, Retired, Tree;
    InvIsTree(b);
    forall k
      ensures (k in r.active <==> k in b && !Retired(r0, b, k)) && (k in r.values <==> k in b)
      ensures k in r.archive <==> Retired(r0, b, k)
      ensures k in b ==> k in r.values && SameJson(r.values[k], b[k])
    {
      FiledAfter(b, r0, r, k);
    }
    assert r.values.Keys == b.Keys;
    assert forall k | k in keys :: k in r.active;
    if r.active == b.Keys {
      forall k ensures !Retired(r0, b, k) {
        if Retired(r0, b, k) {
          RetiredIsKnown(r0, b, k);
        }
      }
    }
    if forall k :: !Retired(r0, b, k) {
      assert r.active == b.Keys;
      LoadingRebuilds(b, keys, r.values);
      SameTreeIsActive(RestoreAll(map[], r.values, keys).value, b);
    }
  }

  /** A first save files every account as active, whatever its status is; the accounts
      that were closed come back active. */
  lemma FirstSaveLoads(b: Book, r: Redis, keys: seq<Key>)
    requires Inv(b) && (forall k | k in b :: NonNegativeCounters(b[k]))
    requires forall k | k in b :: SavedAt(EMPTY, r, k, b[k])
    requires forall k | k !in b :: UntouchedAt(EMPTY, r, k)
    requires Distinct(keys) && (set k | k in keys) == r.active
    ensures r.active == b.Keys && r.archive == {} && r.values.Keys == b.Keys
    ensures forall k | k in keys :: k in r.values
    ensures var loaded := RestoreAll(map[], r.values, keys);
            loaded.Some? && SameTree(loaded.value, b) && forall k | k in b :: loaded.value[k].status == ACTIVE
  {
    hide SavedAt, UntouchedAt, Inv, RestoreAll, SameTree, NonNegativeCounters;
    SaveLoads(b, EMPTY, r, keys);
  }

  lemma InvIsTree(b: Book)
    requires Inv(b)
    ensures Tree(b)
  {
  }

  lemma SameTreeIsActive(r: Book, b: Book)
    requires SameTree(r, b)
    ensures forall k | k in b :: k in r && r[k].status == ACTIVE
  {
    hide CheckInvariants;
  }
}
