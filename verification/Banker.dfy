/** The banker's accounts, as the object whose map the operations update.

  Each write is also noted in `log`, so that the map is at all times what the
  sequence of moves makes of the map the banker began with; every theorem about
  sequences of moves is thereby one about the runs of this class. An `ok` of
  false is a thrown exception: what was written before stays written.
 */
module Banker {
  import opened Currency
  import opened AccountSpec
  import opened AccountLaws
  import opened ShadowSpec
  import opened Sums
  import opened Ledger
  import opened LedgerTheorems
  import opened Closing
  import opened AccountObject

  // ------------------------------------------------------------ ensureAccount

  /** `ensureAccount` finds or creates k with that kind, and budget accounts above. */
  predicate Fits(b: Book, k: Key, kind: Kind)
    decreases |k|
  {
    && |k| >= 1
    && if k in b then b[k].kind == kind
       else if |k| == 1 then kind == AT_BUDGET
       else Fits(b, Parent(k), AT_BUDGET)
  }

  function Ensured(b: Book, k: Key, kind: Kind): (r: Book)
    requires Fits(b, k, kind)
    ensures k in r && r[k].kind == kind
    ensures forall j | j !in b && |j| > |k| :: j !in r
    decreases |k|
  {
    if k in b then b
    else if |k| == 1 then Inserted(b, k, kind)
    else Inserted(Ensured(b, Parent(k), AT_BUDGET), k, kind)
  }

  /** In a tree it works out exactly when k, if present, has the kind asked for,
      nothing but budget accounts are above it, and no other kind is asked for at
      top level. */
  lemma {:induction false} FitsIff(b: Book, k: Key, kind: Kind)
    requires Tree(b)
    ensures Fits(b, k, kind)
            <==> && |k| >= 1
                 && (if k in b then b[k].kind == kind else |k| == 1 ==> kind == AT_BUDGET)
                 && forall n | 1 <= n < |k| && k[..n] in b :: b[k[..n]].kind == AT_BUDGET
    decreases |k|
  {
    if k in b {
      forall n | 1 <= n < |k| && k[..n] in b ensures b[k[..n]].kind == AT_BUDGET {
        Ancestor(b, k, n);
        assert NodeOk(b, k[..n]);
      }
    } else if |k| > 1 {
      var p := Parent(k);
      FitsIff(b, p, AT_BUDGET);
      assert k[..|k| - 1] == p;
      assert forall n | 1 <= n < |p| :: p[..n] == k[..n];
    }
  }

  /** What `ensureAccount` does at j: the missing accounts on the way to k appear,
      empty, and each may become listed by the account above it. */
  ghost predicate EnsuredAt(b: Book, r: Book, k: Key, kind: Kind, j: Key) {
    && (j in r <==> j in b || (j <= k && j != []))
    && (j in b ==> r[j] == b[j].(children := r[j].children))
    && (j in b && !(j < k) ==> r[j] == b[j])
    && (j in r && j !in b ==> r[j] == NewAcct(if j == k then kind else AT_BUDGET).(children := r[j].children))
  }

  lemma PrefixOfParent(k: Key, j: Key)
    requires k != []
    ensures j < k <==> j <= Parent(k)
    ensures j <= k <==> j == k || j <= Parent(k)
  {
    if j <= k && j != k {
      assert j == k[..|j|] == Parent(k)[..|j|];
    }
  }

  lemma PrefixesArePresent(b: Book, k: Key, j: Key)
    requires Tree(b) && k in b && j <= k && j != []
    ensures j in b
  {
    if j != k {
      Ancestor(b, k, |j|);
    }
    assert k[..|j|] == j;
  }

  lemma {:induction false} EnsuredKeepsTree(b: Book, k: Key, kind: Kind)
    requires Tree(b) && Fits(b, k, kind)
    ensures Tree(Ensured(b, k, kind))
    decreases |k|
  {
    hide Tree, Inserted;
    if k !in b {
      if |k| > 1 {
        EnsuredKeepsTree(b, Parent(k), AT_BUDGET);
        InsertKeepsTree(Ensured(b, Parent(k), AT_BUDGET), k, kind);
      } else {
        InsertKeepsTree(b, k, kind);
      }
    }
  }

  lemma InsertedAt(b: Book, k: Key, kind: Kind, j: Key)
    requires CanInsert(b, k, kind)
    ensures var r := Inserted(b, k, kind);
            && (j in r <==> j in b || j == k)
            && (j == k ==> r[j] == NewAcct(kind))
            && (j in b ==> r[j] == b[j].(children := r[j].children))
            && (j in b && j != Parent(k) ==> r[j] == b[j])
  {
    hide NewAcct;
    assert |Parent(k)| != |k|;
  }

  lemma EnsuredStep(b: Book, r1: Book, k: Key, kind: Kind, j: Key)
    requires k !in b && |k| > 1 && CanInsert(r1, k, kind) && EnsuredAt(b, r1, Parent(k), AT_BUDGET, j)
    ensures EnsuredAt(b, Inserted(r1, k, kind), k, kind, j)
  {
    hide NewAcct, Inserted, CanInsert;
    PrefixOfParent(k, j);
    InsertedAt(r1, k, kind, j);
    NewKind(AT_BUDGET);
  }

  lemma NewKind(kind: Kind)
    ensures NewAcct(kind).kind == kind && NewAcct(kind).children == {}
  {
  }

  lemma {:induction false} EnsuredIs(b: Book, k: Key, kind: Kind, j: Key)
    requires Tree(b) && Fits(b, k, kind)
    ensures EnsuredAt(b, Ensured(b, k, kind), k, kind, j)
    decreases |k|
  {
    hide Tree, NewAcct, EnsuredAt, Inserted;
    if k in b {
      EnsuredAlready(b, k, kind, j);
    } else if |k| > 1 {
      EnsuredIs(b, Parent(k), AT_BUDGET, j);
      EnsuredStep(b, Ensured(b, Parent(k), AT_BUDGET), k, kind, j);
    } else {
      EnsuredTop(b, k, kind, j);
    }
  }

  /** An account that `ensureAccount` creates is active and empty. */
  lemma EnsuredNew(b: Book, k: Key, kind: Kind, j: Key)
    requires Tree(b) && Fits(b, k, kind) && j !in b && j <= k && j != []
    ensures j in Ensured(b, k, kind)
    ensures var a := Ensured(b, k, kind)[j];
            && a.status == ACTIVE && a.kind == (if j == k then kind else AT_BUDGET) && a.lineItems == map[]
            && Sound(a) && forall c :: At(a.balance, c) == Credit(a, c) == Debit(a, c) == 0
  {
    hide Tree, Fits, Ensured;
    EnsuredIs(b, k, kind, j);
    EnsuredKind(j, k, kind);
    NewIsEmpty(if j == k then kind else AT_BUDGET, Ensured(b, k, kind)[j].children);
  }

  lemma EnsuredKind(j: Key, k: Key, kind: Kind)
    ensures NewAcct(if j == k then kind else AT_BUDGET).kind == if j == k then kind else AT_BUDGET
  {
  }

  lemma NewIsEmpty(kind: Kind, children: set<Key>)
    ensures var a := NewAcct(kind).(children := children);
            && a.status == ACTIVE && a.lineItems == map[] && Sound(a)
            && forall c :: At(a.balance, c) == Credit(a, c) == Debit(a, c) == 0
  {
  }

  lemma EnsuredAlready(b: Book, k: Key, kind: Kind, j: Key)
    requires Tree(b) && k in b
    ensures EnsuredAt(b, b, k, kind, j)
  {
    if j <= k && j != [] {
      PrefixesArePresent(b, k, j);
    }
  }

  lemma EnsuredTop(b: Book, k: Key, kind: Kind, j: Key)
    requires k !in b && |k| == 1 && CanInsert(b, k, kind)
    ensures EnsuredAt(b, Inserted(b, k, kind), k, kind, j)
  {
    PrefixOfParent(k, j);
  }

  ghost predicate AllSound(b: Book) {
    forall k | k in b :: Sound(b[k])
  }

  lemma EnsuredStaysSound(b: Book, k: Key, kind: Kind)
    requires Tree(b) && Fits(b, k, kind) && AllSound(b)
    ensures AllSound(Ensured(b, k, kind))
  {
    hide Ensured, Sound, Tree;
    var r := Ensured(b, k, kind);
    forall j | j in r ensures Sound(r[j]) {
      EnsuredIs(b, k, kind, j);
      if j in b {
        ListingStaysSound(b[j], r[j].children);
      } else {
        NewIsSound(r[j].kind);
        ListingStaysSound(NewAcct(r[j].kind), r[j].children);
      }
    }
  }

  lemma NewIsSound(kind: Kind)
    ensures Sound(NewAcct(kind))
  {
  }

  lemma ListingStaysSound(a: Acct, s: set<Key>)
    requires Sound(a)
    ensures Sound(a.(children := s))
  {
    forall c ensures BalancedAt(a.(children := s), c) {
      assert BalancedAt(a, c);
    }
  }

  // --------------------------------------------- what the operations come to

  /** `getParentAccount` finds a budget account above k. */
  predicate ParentFound(b: Book, k: Key) {
    |k| >= 2 && Parent(k) in b && b[Parent(k)].kind == AT_BUDGET
  }

  lemma ParentFoundIff(b: Book, k: Key)
    requires Tree(b) && k in b
    ensures ParentFound(b, k) <==> |k| >= 2
    ensures HasParent(b, k) <==> |k| >= 2
  {
    assert NodeOk(b, k);
    if |k| >= 2 {
      assert NodeOk(b, Parent(k));
    }
  }

  lemma OneChangeStaysSound(b: Book, k: Key, a: Acct)
    requires AllSound(b) && Sound(a)
    ensures AllSound(b[k := a])
  {
    hide Sound;
  }

  /** After `setBudget`, `addAdjustment`, `importSpend` or `syncFromShadow` have
      completed, one account has passed its check; all were sound before, so all
      are sound again. */
  lemma CheckedStaysSound(b0: Book, k: Key, kind: Kind, a: Acct)
    requires Tree(b0) && Fits(b0, k, kind) && AllSound(b0) && CheckInvariants(a)
    ensures AllSound(Ensured(b0, k, kind)[k := a])
  {
    hide Tree, Ensured, Fits, AllSound;
    CheckInvariantsIsSound(a);
    EnsuredStaysSound(b0, k, kind);
    OneChangeStaysSound(Ensured(b0, k, kind), k, a);
  }

  lemma EdgeStaysSound(b: Book, k: Key, t: Transfer)
    requires AllSound(b) && HasParent(b, k)
    requires Sound(MoveChild(b[k], t)) && Sound(MoveParent(b[Parent(k)], t))
    ensures AllSound(Edge(b, k, t))
  {
    hide Sound, MoveChild, MoveParent, Edge;
    EdgeIs(b, k, t);
  }

  /** The two objects put back into the map make the move. */
  lemma EdgeWritten(b: Book, k: Key, newBalance: Pool, a: Acct, p: Acct)
    requires HasParent(b, k)
    requires var t := PlanTransfer(b[k], b[Parent(k)], newBalance);
             if CheckInvariants(b[k]) then a == MoveChild(b[k], t) && p == MoveParent(b[Parent(k)], t)
             else a == b[k] && p == b[Parent(k)]
    ensures var b' := b[k := a][Parent(k) := p];
            && Apply(b, PutBalance(k, newBalance)) == b' && b'.Keys == b.Keys && b'[k] == a && b'[Parent(k)] == p
            && (CheckInvariants(b[k]) ==> b' == Edge(b, k, PlanTransfer(b[k], b[Parent(k)], newBalance)))
  {
    hide CheckInvariants, PlanTransfer, MoveChild, MoveParent;
    assert |Parent(k)| != |k|;
  }

  lemma TransferStaysSound(b: Book, k: Key, newBalance: Pool)
    requires AllSound(b) && HasParent(b, k) && NeverNegative(b[Parent(k)].balance)
    ensures var t := PlanTransfer(b[k], b[Parent(k)], newBalance);
            && CheckInvariants(b[k]) && CheckInvariants(MoveChild(b[k], t))
            && CheckInvariants(MoveParent(b[Parent(k)], t)) && AllSound(Edge(b, k, t))
  {
    hide CheckInvariants, Edge, MoveChild, MoveParent, PlanTransfer, Sound;
    var child, parent := b[k], b[Parent(k)];
    SetBalanceCompletes(child, parent, newBalance);
    PlanIsNonNegativeIff(child, parent, newBalance);
    NonNegativeMoveIsSound(child, parent, PlanTransfer(child, parent, newBalance));
    EdgeStaysSound(b, k, PlanTransfer(child, parent, newBalance));
  }

  lemma RecuperateStaysSound(b: Book, k: Key)
    requires AllSound(b) && HasParent(b, k)
    ensures AllSound(Edge(b, k, RecuperateTransfer(b[k])))
    ensures CheckInvariants(MoveChild(b[k], RecuperateTransfer(b[k])))
  {
    hide CheckInvariants, Edge, MoveChild, MoveParent, RecuperateTransfer;
    RecuperateCompletes(b[k], b[Parent(k)]);
    EdgeStaysSound(b, k, RecuperateTransfer(b[k]));
  }

  lemma MarkStaysSound(b: Book, k: Key, st: Status)
    requires AllSound(b) && k in b
    ensures AllSound(b[k := b[k].(status := st)])
  {
    var a := b[k];
    assert Sound(a.(status := st)) by {
      forall c ensures BalancedAt(a.(status := st), c) {
        assert BalancedAt(a, c);
      }
    }
    OneChangeStaysSound(b, k, a.(status := st));
  }

  // ---------------------------------------------------------------- the class

  class Accounts {
    var accounts: Book
    ghost var start: Book
    ghost var log: seq<Move>

    ghost predicate Valid()
      reads this
    {
      Inv(start) && Inv(accounts) && accounts == Run(start, log)
    }

    /** Nothing but more moves has happened. */
    twostate predicate Continues()
      reads this
    {
      start == old(start) && old(log) <= log && old(Valid()) && Valid()
    }

    constructor ()
      ensures Valid() && accounts == map[] && start == map[] && log == []
    {
      accounts, start, log := map[], map[], [];
    }

    /** The banker as it begins again from accounts read back from storage. */
    constructor From(b: Book)
      requires Inv(b)
      ensures Valid() && accounts == b && start == b && log == []
    {
      accounts, start, log := b, b, [];
    }

    method Write(ghost m: Move, after: Book)
      requires Valid() && after == Apply(accounts, m)
      modifies this
      ensures Valid() && accounts == after && start == old(start) && log == old(log) + [m]
    {
      hide Apply, Inv, Run;
      RunSnoc(start, log, m);
      ApplyKeepsInv(accounts, m);
      accounts, log := after, log + [m];
    }

    method EnsureAccount(k: Key, kind: Kind) returns (ok: bool)
      requires Valid()
      modifies this
      ensures Continues()
      ensures ok == Fits(old(accounts), k, kind)
      ensures accounts == if ok then Ensured(old(accounts), k, kind) else old(accounts)
      ensures forall i | |old(log)| <= i < |log| :: log[i].Insert?
      decreases |k|
    {
      hide Inv;
      if |k| < 1 {
        return false;
      }
      if k in accounts {
        return accounts[k].kind == kind;
      }
      if |k| == 1 {
        if kind != AT_BUDGET {
          return false;
        }
      } else {
        var parent := EnsureAccount(Parent(k), AT_BUDGET);
        if !parent {
          return false;
        }
      }
      Write(Insert(k, kind), Inserted(accounts, k, kind));
      ok := true;
    }

    /** `setBudget` on a top-level account, which it creates when missing. */
    method SetBudget(k: Key, newBudget: Pool) returns (ok: bool)
      requires Valid()
      modifies this
      ensures Continues()
      ensures var fits := |k| == 1 && Fits(old(accounts), k, AT_BUDGET);
              && (!fits ==> !ok && accounts == old(accounts))
              && (fits ==>
                    var b := Ensured(old(accounts), k, AT_BUDGET);
                    && accounts == b[k := AccountSpec.SetBudget(b[k], newBudget)] && ok == CheckInvariants(accounts[k])
                    && accounts[k].status == ACTIVE && SameButBudget(b[k], accounts[k]))
    {
      hide Inv, Ensured, CheckInvariants, AccountSpec.SetBudget;
      if |k| != 1 {
        return false;
      }
      ok := EnsureAccount(k, AT_BUDGET);
      if !ok {
        return;
      }
      SetBudgetWrites(accounts[k], newBudget);
      var a := new Account.Of(accounts[k]);
      ok := a.SetBudget(newBudget);
      Write(PutBudget(k, newBudget), accounts[k := a.State()]);
    }

    method AddAdjustment(k: Key, amount: Pool) returns (ok: bool)
      requires Valid()
      modifies this
      ensures Continues()
      ensures k !in old(accounts) ==> !ok && accounts == old(accounts)
      ensures k in old(accounts) ==>
                && accounts == old(accounts)[k := AccountSpec.AddAdjustment(old(accounts)[k], amount)]
                && ok == CheckInvariants(accounts[k])
    {
      hide Inv, CheckInvariants, AccountSpec.AddAdjustment;
      if k !in accounts {
        return false;
      }
      var a := new Account.Of(accounts[k]);
      ok := a.AddAdjustment(amount);
      Write(Adjust(k, amount), accounts[k := a.State()]);
    }

    method ImportSpend(k: Key, amount: Pool) returns (ok: bool)
      requires Valid()
      modifies this
      ensures Continues()
      ensures ok == (k in old(accounts) && MayImport(old(accounts)[k], amount))
      ensures accounts == if ok then old(accounts)[k := AccountSpec.ImportSpend(old(accounts)[k], amount)]
                          else old(accounts)
    {
      hide Inv, CheckInvariants, MayImport, AccountSpec.ImportSpend;
      if k !in accounts {
        return false;
      }
      var a := new Account.Of(accounts[k]);
      ok := a.ImportSpend(amount);
      if ok {
        Write(Import(k, amount), accounts[k := a.State()]);
      }
    }

    /** Moves money along the edge above k. The checks come after the money has
        moved, so a failing one leaves the transfer in place. */
    method Transfer(k: Key, newBalance: Pool) returns (ok: bool)
      requires Valid() && k in accounts && ParentFound(accounts, k)
      modifies this
      ensures Continues()
      ensures accounts == Apply(old(accounts), PutBalance(k, newBalance)) && accounts.Keys == old(accounts).Keys
      ensures ok ==> CheckInvariants(old(accounts)[k]) && CheckInvariants(accounts[k])
                     && CheckInvariants(accounts[Parent(k)])
      ensures AllSound(old(accounts)) && NeverNegative(old(accounts)[Parent(k)].balance) ==> ok && AllSound(accounts)
    {
      hide Inv, CheckInvariants, PlanTransfer, MoveChild, MoveParent, Edge, AllSound, NeverNegative, Account.State,
           Apply;
      ghost var before := accounts;
      var a := new Account.Of(accounts[k]);
      var parent := new Account.Of(accounts[Parent(k)]);
      ok := a.SetBalance(parent, newBalance);
      var after := accounts[k := a.State()][Parent(k) := parent.State()];
      EdgeWritten(before, k, newBalance, a.State(), parent.State());
      if AllSound(before) && NeverNegative(before[Parent(k)].balance) {
        TransferStaysSound(before, k, newBalance);
      }
      Write(PutBalance(k, newBalance), after);
    }

    /** `setBalance`, creating k first when it is missing and a kind is given; a
        top-level account created that way stays, although the call fails. */
    method SetBalance(k: Key, amount: Pool, kindToCreate: Kind) returns (ok: bool)
      requires Valid()
      modifies this
      ensures Continues()
      ensures var b0 := old(accounts);
              var create := kindToCreate != AT_NONE && k !in b0;
              var b := if create && Fits(b0, k, kindToCreate) then Ensured(b0, k, kindToCreate) else b0;
              && (k !in b || |k| < 2 ==> !ok && accounts == b)
              && (k in b && |k| >= 2 ==>
                    && accounts == Apply(b, PutBalance(k, amount))
                    && HasParent(b, k) && accounts.Keys == b.Keys
                    && (ok ==> CheckInvariants(accounts[k]) && CheckInvariants(accounts[Parent(k)]))
                    && (AllSound(b) && NeverNegative(b[Parent(k)].balance) ==> ok && AllSound(accounts)))
    {
      hide Ensured, CheckInvariants, Edge, Sound, PlanTransfer;
      if kindToCreate != AT_NONE && k !in accounts {
        ok := EnsureAccount(k, kindToCreate);
        if !ok {
          return;
        }
      } else if k !in accounts {
        return false;
      }
      ParentFoundIff(accounts, k);
      if !ParentFound(accounts, k) {
        return false;
      }
      ok := Transfer(k, amount);
    }

    method Recuperate(k: Key) returns (ok: bool)
      requires Valid()
      modifies this
      ensures Continues()
      ensures accounts == Apply(old(accounts), Move.Recuperate(k)) && accounts.Keys == old(accounts).Keys
      ensures k in old(accounts) && |k| >= 2 ==> log == old(log) + [Move.Recuperate(k)]
      ensures k !in old(accounts) || |k| < 2 ==> log == old(log)
      ensures ok == (k in old(accounts) && |k| >= 2 && k in accounts && CheckInvariants(accounts[k]))
      ensures k in old(accounts) && |k| >= 2 && AllSound(old(accounts)) ==> ok && AllSound(accounts)
    {
      hide CheckInvariants, RecuperateTransfer, MoveChild, MoveParent, Edge, AllSound, LedgerAt, NodeOk, Account.State,
           Run;
      if k !in accounts {
        return false;
      }
      ParentFoundIff(accounts, k);
      if !ParentFound(accounts, k) {
        return false;
      }
      var p := Parent(k);
      assert p != k by {
        assert |p| != |k|;
      }
      ghost var before := accounts;
      var a := new Account.Of(accounts[k]);
      var parent := new Account.Of(accounts[p]);
      ok := a.RecuperateTo(parent);
      var after := accounts[k := a.State()][p := parent.State()];
      EdgeIs(before, k, RecuperateTransfer(before[k]));
      assert after == Apply(before, Move.Recuperate(k));
      if AllSound(before) {
        RecuperateStaysSound(before, k);
      }
      Write(Move.Recuperate(k), after);
    }

    /** `syncFromShadow`: an unknown account is created first, and stays even when
        the snapshot is then refused. */
    method SyncFromShadow(k: Key, shadow: Shadow) returns (ok: bool)
      requires Valid()
      modifies this
      ensures Continues()
      ensures var b0 := old(accounts);
              var b := if k !in b0 && Fits(b0, k, AT_SPEND) then Ensured(b0, k, AT_SPEND) else b0;
              && ok == (k in b && MaySync(shadow, b[k]))
              && accounts == if ok then b[k := SyncToMaster(shadow, b[k])] else b
    {
      hide Inv, Ensured, MaySync, SyncToMaster;
      if k !in accounts {
        ok := EnsureAccount(k, AT_SPEND);
        if !ok {
          return;
        }
      }
      var a := new Account.Of(accounts[k]);
      ok := a.SyncFrom(shadow);
      if ok {
        Write(Sync(k, shadow), accounts[k := a.State()]);
      }
    }

    /** The moves of this call so far, on top of those before it. */
    twostate predicate OnlyCloses()
      reads this
    {
      && Continues() && accounts.Keys == old(accounts).Keys
      && JustCloses(old(log), log)
    }

    /** `closeAccountImpl`: the children first, in any order. */
    method CloseAccountImpl(k: Key) returns (ok: bool)
      requires Valid()
      modifies this
      ensures OnlyCloses()
      ensures k !in old(accounts) ==> !ok && accounts == old(accounts)
      ensures ok ==> k in old(accounts) && k != [] && ClosedAt(old(accounts), accounts, k)
      ensures k in old(accounts) && AllSound(old(accounts)) ==> ok && AllSound(accounts)
      ensures forall c :: Total(accounts, c) == Total(old(accounts), c)
      decreases Longest(accounts.Keys) - |k|, 1
    {
      hide CheckInvariants, NodeClosed, Finish, Edge, LedgerAt, AllSound, RecuperateTransfer, Closed, NodeOk,
           JustCloses, Total, Run;
      JustClosesNothing(log);
      if k !in accounts {
        return false;
      }
      KeysAreNotEmpty(accounts, k);
      if accounts[k].status == CLOSED {
        ClosedNothing(accounts, {k}, Parent(k));
        return true;
      }
      ghost var before := accounts;
      ok := CloseChildren(k);
      if ok {
        ghost var soFar := log;
        ok := FinishClosing(k, before);
        JustClosesMore(old(log), soFar, log);
      }
      forall c ensures Total(accounts, c) == Total(before, c) {
        CloseConserves(start, old(log), log, c);
      }
    }

    method CloseChildren(k: Key) returns (ok: bool)
      requires Valid() && k in accounts && k != []
      modifies this
      ensures OnlyCloses()
      ensures ok ==> Closed(old(accounts), accounts, old(accounts)[k].children, k)
      ensures AllSound(old(accounts)) ==> ok && AllSound(accounts)
      decreases Longest(accounts.Keys) - |k|, 0
    {
      hide CheckInvariants, NodeClosed, Finish, Edge, LedgerAt, AllSound, RecuperateTransfer, Closed, JustCloses, Run;
      ghost var before := accounts;
      assert NodeOk(before, k);
      JustClosesNothing(log);
      var todo := accounts[k].children;
      ghost var done := {};
      ClosedNothing(before, done, k);
      while todo != {}
        invariant done !! todo && done + todo == before[k].children
        invariant OnlyCloses()
        invariant Closed(before, accounts, done, k)
        invariant AllSound(before) ==> AllSound(accounts)
        decreases todo
      {
        var child :| child in todo;
        ghost var middle, soFar := accounts, log;
        ok := CloseAccountImpl(child);
        JustClosesMore(old(log), soFar, log);
        if !ok {
          return;
        }
        assert Siblings(done + {child}, k);
        AddSibling(before, middle, accounts, done, child, k);
        todo, done := todo - {child}, done + {child};
      }
      assert done == before[k].children;
      ok := true;
    }

    /** `reactivatePresentAccounts`: an account that is not there stays away. */
    method ReactivatePresentAccounts(k: Key)
      requires Valid()
      modifies this
      ensures Continues() && accounts == Reopened(old(accounts), k)
    {
      hide Inv, Awake;
      if k in accounts && accounts[k].status == CLOSED {
        var ok := ReactivateAccount(k);
      }
    }

    /** The `close` route: a closed account is opened again first, with all that is
        above and below it. */
    method CloseRoute(k: Key) returns (ok: bool)
      requires Valid()
      modifies this
      ensures Continues()
      ensures ok ==> k in old(accounts) && k != [] && Tree(Reopened(old(accounts), k))
                     && ClosedAt(Reopened(old(accounts), k), accounts, k)
      ensures k !in old(accounts) ==> !ok
      ensures k in old(accounts) && AllSound(old(accounts)) ==> ok && AllSound(accounts)
      ensures forall c :: Total(accounts, c) == Total(old(accounts), c)
    {
      ghost var before := accounts;
      ReactivatePresentAccounts(k);
      assert Tree(accounts);
      hide Inv, Awake, ClosedAt, Tree, AllSound, Total;
      ReopenedIsSame(before, k);
      ok := CloseAccountImpl(k);
    }

    /** The `shadow` route, given the snapshot read: reading checks it before anything
        else is looked at, and a closed account takes no snapshot. */
    method ShadowRoute(k: Key, shadow: Shadow) returns (ok: bool)
      requires Valid()
      modifies this
      ensures Continues()
      ensures var b0 := old(accounts);
              var b := if k !in b0 && Fits(b0, k, AT_SPEND) then Ensured(b0, k, AT_SPEND) else b0;
              if !CheckShadow(shadow) then !ok && accounts == b0
              else if k in b0 && b0[k].status == CLOSED then ok && accounts == b0
              else ok == (k in b && MaySync(shadow, b[k]))
                   && accounts == if ok then b[k := SyncToMaster(shadow, b[k])] else b
    {
      hide Inv, Ensured, MaySync, SyncToMaster, CheckShadow;
      if !CheckShadow(shadow) {
        return false;
      }
      if k in accounts && accounts[k].status == CLOSED {
        return true;
      }
      ok := SyncFromShadow(k, shadow);
    }

    method MarkAs(k: Key, st: Status)
      requires Valid() && k in accounts
      modifies this
      ensures Valid() && start == old(start) && log == old(log) + [Mark(k, st)]
      ensures accounts == old(accounts)[k := old(accounts)[k].(status := st)] && accounts.Keys == old(accounts).Keys
    {
      hide Inv;
      Write(Mark(k, st), accounts[k := accounts[k].(status := st)]);
    }

    /** The last steps, once the children of k are closed. */
    method FinishClosing(k: Key, ghost before: Book) returns (ok: bool)
      requires Valid() && Tree(before) && k in before && k != [] && before[k].status == ACTIVE
      requires Closed(before, accounts, before[k].children, k)
      modifies this
      ensures OnlyCloses()
      ensures ok ==> ClosedAt(before, accounts, k)
      ensures AllSound(old(accounts)) ==> ok && AllSound(accounts)
    {
      hide Inv, Apply, Tree, Finish, AllSound, Closed, ClosedAt, JustCloses, Run, CheckInvariants;
      ghost var closed := accounts;
      assert k in closed by {
        ClosedKeepsKeys(before, closed, k);
      }
      JustClosesNothing(log);
      if |k| > 1 {
        ok := Recuperate(k);
        JustClosesOne(old(log), old(log), Move.Recuperate(k));
        if !ok {
          return;
        }
      }
      LastStep(before, closed, accounts, k);
      JustClosesOne(old(log), log, Mark(k, CLOSED));
      MarkAs(k, CLOSED);
      ok := true;
    }

    /** `reactivateAccount`: k, what is above it and what is below it. */
    method ReactivateAccount(k: Key) returns (ok: bool)
      requires Valid()
      modifies this
      ensures Continues()
      ensures ok <==> k in old(accounts) || k == []
      ensures accounts == if k in old(accounts)
                          then Awake(old(accounts), Ancestors(old(accounts), k) + Subtree(old(accounts), k))
                          else old(accounts)
    {
      assert Tree(accounts);
      hide Inv, Apply, Awake;
      ghost var before := accounts;
      AwakeNothing(before);
      var parents := k;
      ghost var done := {};
      while parents != []
        invariant Continues() && accounts == Awake(before, done) && accounts.Keys == before.Keys
        invariant parents <= k && done == Above(before, k, parents)
        invariant k !in before ==> parents == k && accounts == before
      {
        if parents !in accounts {
          assert k !in before by {
            if k in before {
              PrefixesArePresent(before, k, parents);
            }
          }
          return false;
        }
        MarkAs(parents, ACTIVE);
        AwakeOneMore(before, done, parents);
        OneHigher(before, k, parents);
        done := done + {parents};
        parents := parents[..|parents| - 1];
      }
      if k !in accounts {
        return true;
      }
      assert [] !in before by {
        if [] in before {
          KeysAreNotEmpty(before, []);
        }
      }
      assert done == Ancestors(before, k);
      AwakeSameShape(before, done, k);
      ReactivateAccountChildren(k);
      AwakeTwice(before, done, Subtree(before, k));
      ok := true;
    }

    /** `reactivateAccountChildren` of a present account. */
    method ReactivateAccountChildren(k: Key)
      requires Valid() && k in accounts
      modifies this
      ensures Continues() && accounts.Keys == old(accounts).Keys
      ensures accounts == Awake(old(accounts), Subtree(old(accounts), k))
      decreases Longest(accounts.Keys) - |k|
    {
      hide LedgerAt, Apply, Awake;
      ghost var before := accounts;
      assert NodeOk(before, k);
      AwakeNothing(before);
      var todo := accounts[k].children;
      ghost var done := {};
      assert Under(before, done) == {};
      while todo != {}
        invariant done !! todo && done + todo == before[k].children
        invariant Continues() && accounts.Keys == before.Keys
        invariant accounts == Awake(before, Under(before, done))
        decreases todo
      {
        var child :| child in todo;
        AwakeSameShape(before, Under(before, done), child);
        ReactivateAccountChildren(child);
        AwakeTwice(before, Under(before, done), Subtree(before, child));
        UnderSplits(before, |k| + 1, done + {child}, child);
        assert done + {child} - {child} == done;
        todo, done := todo - {child}, done + {child};
      }
      assert done == before[k].children;
      MarkAs(k, ACTIVE);
      AwakeOneMore(before, Under(before, before[k].children), k);
      SubtreeSplits(before, k);
      assert Under(before, before[k].children) + {k} == Subtree(before, k);
    }
  }

  /** k and the ancestors of k that are longer than p. */
  ghost function Above(b: Book, k: Key, p: Key): set<Key> {
    set j | j in b && j <= k && |j| > |p|
  }

  lemma OneHigher(b: Book, k: Key, p: Key)
    requires p <= k && p != [] && p in b
    ensures Above(b, k, p) + {p} == Above(b, k, Parent(p))
  {
    forall j | j in Above(b, k, Parent(p)) && |j| <= |p| ensures j == p {
      assert j == k[..|j|] && p == k[..|p|];
    }
  }

  /** What `after` has on top of `before` are the moves a close is made of. */
  ghost predicate JustCloses(before: seq<Move>, after: seq<Move>) {
    |before| <= |after| && forall m | m in after[|before|..] :: m.Recuperate? || m.Mark?
  }

  lemma JustClosesNothing(ms: seq<Move>)
    ensures JustCloses(ms, ms)
  {
  }

  lemma JustClosesOne(before: seq<Move>, after: seq<Move>, m: Move)
    requires JustCloses(before, after) && (m.Recuperate? || m.Mark?)
    ensures JustCloses(before, after + [m])
  {
    assert (after + [m])[|before|..] == after[|before|..] + [m];
  }

  lemma JustClosesMore(before: seq<Move>, middle: seq<Move>, after: seq<Move>)
    requires JustCloses(before, middle) && JustCloses(middle, after) && middle <= after
    ensures JustCloses(before, after)
  {
    assert after[|before|..] == middle[|before|..] + after[|middle|..];
  }

  /** However far a close comes, all balances together stay as they are. */
  lemma CloseConserves(b: Book, before: seq<Move>, after: seq<Move>, c: Code)
    requires JustCloses(before, after) && before <= after
    ensures Total(Run(b, after), c) == Total(Run(b, before), c)
  {
    hide Run, Total;
    var more := after[|before|..];
    assert after == before + more;
    RunInTwo(b, before, more);
    InternalRunConserves(Run(b, before), more, c);
  }

  lemma KeysAreNotEmpty(b: Book, k: Key)
    requires Tree(b) && k in b
    ensures k != []
  {
    assert NodeOk(b, k);
  }

  lemma ClosedKeepsKeys(b: Book, b1: Book, k: Key)
    requires Tree(b) && k in b && Closed(b, b1, b[k].children, k)
    ensures k in b1
  {
  }

  lemma LastStep(b: Book, b1: Book, b2: Book, k: Key)
    requires Tree(b) && k in b && k != [] && b[k].status == ACTIVE && Closed(b, b1, b[k].children, k)
    requires b2 == if |k| > 1 then Apply(b1, Move.Recuperate(k)) else b1
    ensures k in b2 && ClosedAt(b, b2[k := b2[k].(status := CLOSED)], k)
    ensures AllSound(b2) ==> AllSound(b2[k := b2[k].(status := CLOSED)])
  {
    hide Apply, Finish, AllSound, Closed, ClosedAt, Tree;
    FinishCloses(b, b1, k);
    FinishIsTwoSteps(b1, b2, k);
    if AllSound(b2) {
      MarkStaysSound(b2, k, CLOSED);
    }
  }

  // ------------------------------------------------------------- reactivation

  /** The accounts at or below k, and k's ancestors, made active. */
  function Awake(b: Book, s: set<Key>): Book {
    map j | j in b :: if j in s then b[j].(status := ACTIVE) else b[j]
  }

  ghost function Ancestors(b: Book, k: Key): set<Key> {
    set j | j in b && j <= k
  }

  /** What `reactivatePresentAccounts` makes of the map. */
  ghost function Reopened(b: Book, k: Key): Book {
    if k in b && b[k].status == CLOSED then Awake(b, Ancestors(b, k) + Subtree(b, k)) else b
  }

  /** A closed account that is closed through the route leaves nothing stranded, so
      that its whole subtree is closed in the end (ClosesAllIff). */
  lemma ReopenedHasNoStranded(b: Book, k: Key, j: Key)
    requires k in b && b[k].status == CLOSED
    ensures !Stranded(Reopened(b, k), k, j)
  {
    var r := Reopened(b, k);
    forall n | |k| <= n < |j| && k <= j && j[..n] in r ensures r[j[..n]].status == ACTIVE {
      assert k <= j[..n];
    }
  }

  /** Reopening moves no money. */
  lemma ReopenedIsSame(b: Book, k: Key)
    ensures Reopened(b, k).Keys == b.Keys && (AllSound(b) ==> AllSound(Reopened(b, k)))
    ensures forall c :: Total(Reopened(b, k), c) == Total(b, c)
  {
    hide Sound, Sum;
    var r := Reopened(b, k);
    forall j | j in r && AllSound(b) ensures Sound(r[j]) {
      ActiveIsSound(b[j]);
    }
    forall c ensures Total(r, c) == Total(b, c) {
      assert r.Keys == b.Keys;
      SumSame(b.Keys, Col(b, BalanceColumn, c), Col(r, BalanceColumn, c));
    }
  }

  lemma ActiveIsSound(a: Acct)
    requires Sound(a)
    ensures Sound(a.(status := ACTIVE))
  {
    forall c ensures BalancedAt(a.(status := ACTIVE), c) {
      assert BalancedAt(a, c);
    }
  }

  lemma AwakeOneMore(b: Book, s: set<Key>, k: Key)
    requires k in b
    ensures var b1 := Awake(b, s); k in b1 && b1[k := b1[k].(status := ACTIVE)] == Awake(b, s + {k})
  {
  }

  lemma AwakeTwice(b: Book, s: set<Key>, t: set<Key>)
    ensures Awake(Awake(b, s), t) == Awake(b, s + t)
  {
  }

  lemma AwakeNothing(b: Book)
    ensures Awake(b, {}) == b
  {
  }

  lemma AwakeSameShape(b: Book, s: set<Key>, k: Key)
    requires k in b
    ensures k in Awake(b, s) && Awake(b, s)[k].children == b[k].children
    ensures Subtree(Awake(b, s), k) == Subtree(b, k)
  {
  }

  lemma FinishIsTwoSteps(b1: Book, b2: Book, k: Key)
    requires k in b1 && (|k| > 1 ==> HasParent(b1, k))
    requires b2 == if |k| > 1 then Apply(b1, Move.Recuperate(k)) else b1
    ensures k in b2 && Finish(b1, k) == b2[k := b2[k].(status := CLOSED)]
  {
  }

  // ------------------------------------------------- an account left stranded

  /** a and a:b have been created. */
  function TwoCreated(): seq<Move> {
    [Insert(["a"], AT_BUDGET), Insert(["a", "b"], AT_BUDGET)]
  }

  lemma TwoCreatedIs()
    ensures var a, ab, empty := ["a"], ["a", "b"], NewAcct(AT_BUDGET);
            Execute(TwoCreated()) == map[a := empty.(children := {ab}), ab := empty]
  {
    hide NewAcct, Run;
    var a, ab := ["a"], ["a", "b"];
    assert Parent(ab) == a;
    NewKind(AT_BUDGET);
    assert Execute([]) == map[] by {
      NothingRun();
    }
    RunSnoc(map[], [], Insert(a, AT_BUDGET));
    assert [] + [Insert(a, AT_BUDGET)] == [Insert(a, AT_BUDGET)];
    var b1 := Execute([Insert(a, AT_BUDGET)]);
    assert b1 == map[a := NewAcct(AT_BUDGET)];
    RunSnoc(map[], [Insert(a, AT_BUDGET)], Insert(ab, AT_BUDGET));
    assert [Insert(a, AT_BUDGET)] + [Insert(ab, AT_BUDGET)] == TwoCreated();
    assert b1[a].children + {ab} == {ab} && CanInsert(b1, ab, AT_BUDGET);
    assert Execute(TwoCreated()) == Inserted(b1, ab, AT_BUDGET);
  }

  lemma NothingRun()
    ensures Execute([]) == map[]
  {
  }

  /** a:b is closed, with what it sends up, and a:b:c is created below it. */
  lemma ThenOneMore(b: Book)
    requires ["a"] in b && ["a", "b"] in b && ["a", "b", "c"] !in b && b[["a", "b"]].kind == AT_BUDGET
    ensures var r := Apply(Apply(Apply(b, Move.Recuperate(["a", "b"])), Mark(["a", "b"], CLOSED)),
                           Insert(["a", "b", "c"], AT_SPEND));
            ["a"] in r && Stranded(r, ["a"], ["a", "b", "c"])
  {
    hide Edge, Stranded, RecuperateTransfer, MoveChild, MoveParent;
    var ab, abc := ["a", "b"], ["a", "b", "c"];
    assert Parent(ab) == ["a"] && Parent(abc) == ab;
    EdgeIs(b, ab, RecuperateTransfer(b[ab]));
    SameNode(b[ab], RecuperateTransfer(b[ab]));
    var b2 := Apply(Apply(b, Move.Recuperate(ab)), Mark(ab, CLOSED));
    assert CanInsert(b2, abc, AT_SPEND);
    StrandedBelow(Inserted(b2, abc, AT_SPEND), ["a"], ab, abc);
  }

  /** Create a:b and close it, create a:b:c below it, then close a: the account
      a:b:c is still active. */
  lemma CloseStrands()
    ensures var before := Execute(TwoCreated() + [Move.Recuperate(["a", "b"])] + [Mark(["a", "b"], CLOSED)]
                                  + [Insert(["a", "b", "c"], AT_SPEND)]);
            Inv(before) && ["a"] in before && Stranded(before, ["a"], ["a", "b", "c"])
  {
    hide Stranded, Inv, TwoCreated, Apply;
    var ms, ab := TwoCreated(), ["a", "b"];
    RunSnoc(map[], ms, Move.Recuperate(ab));
    RunSnoc(map[], ms + [Move.Recuperate(ab)], Mark(ab, CLOSED));
    RunSnoc(map[], ms + [Move.Recuperate(ab)] + [Mark(ab, CLOSED)], Insert(["a", "b", "c"], AT_SPEND));
    RunsKeepInv(ms + [Move.Recuperate(ab)] + [Mark(ab, CLOSED)] + [Insert(["a", "b", "c"], AT_SPEND)]);
    TwoCreatedIs();
    NewKind(AT_BUDGET);
    assert Parent(ab) == ["a"];
    ThenOneMore(Execute(ms));
  }

  lemma StrandedBelow(b: Book, k: Key, mid: Key, j: Key)
    requires j in b && b[j].status == ACTIVE && mid in b && b[mid].status == CLOSED && k <= mid < j
    ensures Stranded(b, k, j)
  {
    assert j[..|mid|] == mid;
  }
}
