/** The banker's map of accounts as a value, the writes it can undergo, and the
  invariants of every map that any sequence of writes can build.

  A `Move` is one indivisible write. The operations of the banker, completed or
  cut short by a thrown check, are sequences of moves (Banker.dfy), so what
  holds after every sequence of moves holds after every run of the banker.
 */
module Ledger {
  import opened Currency
  import opened AccountSpec
  import opened AccountLaws
  import opened ShadowSpec
  import opened Sums

  type Book = map<Key, Acct>

  function Parent(k: Key): Key
    requires k != []
  {
    k[..|k| - 1]
  }

  // -------------------------------------------------------------- the tree

  ghost predicate NodeOk(b: Book, k: Key)
    requires k in b
  {
    && |k| >= 1
    && (|k| == 1 ==> b[k].kind == AT_BUDGET)
    && (|k| > 1 ==> Parent(k) in b && k in b[Parent(k)].children)
    && (b[k].children != {} ==> b[k].kind == AT_BUDGET)
    && forall ch | ch in b[k].children :: ch in b && |ch| == |k| + 1 && Parent(ch) == k
  }

  /** Every key has its ancestors, and the children sets are exactly the keys one
      level down; only budget accounts have children. */
  ghost predicate Tree(b: Book) {
    forall k {:trigger NodeOk(b, k)} | k in b :: NodeOk(b, k)
  }

  predicate HasParent(b: Book, k: Key) {
    |k| >= 2 && k in b && Parent(k) in b
  }

  // --------------------------------------------------------------- the moves

  datatype Move =
    | Insert(key: Key, kind: Kind)
    | PutBudget(key: Key, amount: Pool)
    | PutBalance(key: Key, amount: Pool)
    | Recuperate(key: Key)
    | Adjust(key: Key, amount: Pool)
    | Import(key: Key, amount: Pool)
    | Sync(key: Key, shadow: Shadow)
    | Mark(key: Key, status: Status)

  /** A new node fits under an existing budget account, or is a top-level one. */
  predicate CanInsert(b: Book, k: Key, kind: Kind) {
    && |k| >= 1
    && k !in b
    && if |k| == 1 then kind == AT_BUDGET else Parent(k) in b && b[Parent(k)].kind == AT_BUDGET
  }

  function Inserted(b: Book, k: Key, kind: Kind): Book
    requires CanInsert(b, k, kind)
  {
    if |k| == 1 then b[k := NewAcct(kind)]
    else
      var p := Parent(k);
      b[p := b[p].(children := b[p].children + {k})][k := NewAcct(kind)]
  }

  /** A transfer along the edge between k and its parent. */
  function Edge(b: Book, k: Key, t: Transfer): Book
    requires HasParent(b, k)
  {
    b[k := MoveChild(b[k], t)][Parent(k) := MoveParent(b[Parent(k)], t)]
  }

  function Apply(b: Book, m: Move): Book {
    match m
    case Insert(k, kind) => if CanInsert(b, k, kind) then Inserted(b, k, kind) else b
    case PutBudget(k, p) => if k in b && |k| == 1 then b[k := SetBudget(b[k], p)] else b
    case PutBalance(k, p) =>
      if HasParent(b, k) && CheckInvariants(b[k]) then Edge(b, k, PlanTransfer(b[k], b[Parent(k)], p)) else b
    case Recuperate(k) => if HasParent(b, k) then Edge(b, k, RecuperateTransfer(b[k])) else b
    case Adjust(k, p) => if k in b then b[k := AddAdjustment(b[k], p)] else b
    case Import(k, p) => if k in b && MayImport(b[k], p) then b[k := ImportSpend(b[k], p)] else b
    case Sync(k, s) => if k in b && MaySync(s, b[k]) then b[k := SyncToMaster(s, b[k])] else b
    case Mark(k, st) => if k in b then b[k := b[k].(status := st)] else b
  }

  /** The map that a sequence of moves leads to. */
  ghost function Run(b: Book, ms: seq<Move>): Book {
    if ms == [] then b else Apply(Run(b, ms[..|ms| - 1]), ms[|ms| - 1])
  }

  /** The map that a sequence of moves builds from the empty one. */
  ghost function Execute(ms: seq<Move>): Book {
    Run(map[], ms)
  }

  lemma RunSnoc(b: Book, ms: seq<Move>, m: Move)
    ensures Run(b, ms + [m]) == Apply(Run(b, ms), m)
  {
    hide Apply;
    assert (ms + [m])[..|ms|] == ms;
  }

  lemma {:induction false} RunInTwo(b: Book, ms: seq<Move>, ns: seq<Move>)
    ensures Run(b, ms + ns) == Run(Run(b, ms), ns)
    decreases |ns|
  {
    hide Apply;
    if ns == [] {
      assert ms + ns == ms;
    } else {
      var front, last := ns[..|ns| - 1], ns[|ns| - 1];
      RunInTwo(b, ms, front);
      assert ms + ns == (ms + front) + [last];
      RunSnoc(b, ms + front, last);
    }
  }

  // ---------------------------------------------------------- the invariants

  datatype Column = BudgetColumn | DownColumn | UpColumn | BalanceColumn | SpentColumn | InFlightColumn
                  | AdjustmentColumn | EffectiveColumn

  ghost function Value(a: Acct, col: Column, c: Code): int {
    match col
    case BudgetColumn => At(a.budgetIncreases, c)
    case DownColumn => At(a.crossedDown, c)
    case UpColumn => At(a.crossedUp, c)
    case BalanceColumn => At(a.balance, c)
    case SpentColumn => At(a.spent, c)
    case InFlightColumn => At(a.commitmentsMade, c) - At(a.commitmentsRetired, c)
    case AdjustmentColumn => At(a.adjustmentsIn, c) - At(a.adjustmentsOut, c)
    case EffectiveColumn =>
      At(a.budgetIncreases, c) - At(a.budgetDecreases, c) + At(a.recycledIn, c) - At(a.recycledOut, c)
      + At(a.allocatedIn, c) - At(a.allocatedOut, c)
  }

  /** One column of the map in one currency, zero outside the map. */
  ghost function Col(b: Book, col: Column, c: Code): Key -> int {
    k => if k in b then Value(b[k], col, c) else 0
  }

  /** What an account satisfies in every currency, given the sums over its
      children: both sides agree, nothing but a top-level account has its budget
      cut or exchanges recycled money upwards, allocatedOut is what the children
      got as budget, and the recycled flows are those that crossed the edge above
      and the edges below. */
  ghost predicate Matches(a: Acct, top: bool, budgets: int, ups: int, downs: int, c: Code) {
    && BalancedAt(a, c)
    && At(a.allocatedIn, c) == 0
    && (if top then At(a.crossedDown, c) == At(a.crossedUp, c) == 0 else At(a.budgetDecreases, c) == 0)
    && At(a.allocatedOut, c) == budgets
    && At(a.recycledIn, c) == At(a.crossedDown, c) + ups
    && At(a.recycledOut, c) == At(a.crossedUp, c) + downs
  }

  ghost predicate LedgerAt(b: Book, k: Key, c: Code)
    requires k in b
  {
    Matches(b[k], |k| <= 1, Sum(b[k].children, Col(b, BudgetColumn, c)), Sum(b[k].children, Col(b, UpColumn, c)),
            Sum(b[k].children, Col(b, DownColumn, c)), c)
  }

  ghost predicate Inv(b: Book) {
    Tree(b) && forall k, c | k in b :: LedgerAt(b, k, c)
  }

  // --------------------------------------------------- moves keep the invariants

  lemma ParentMatches(a: Acct, ch: Acct, t: Transfer, top: bool, budgets: int, ups: int, downs: int, c: Code)
    requires Matches(a, top, budgets, ups, downs, c)
    ensures Matches(MoveParent(a, t), top, budgets + At(t.fromBudget, c), ups + At(t.toRecycled, c),
                    downs + At(t.fromRecycled, c), c)
  {
    hide Add, Sub, Limit, NonNegative;
    MoveAt(ch, a, t, c);
  }

  lemma ChildMatches(a: Acct, parent: Acct, t: Transfer, budgets: int, ups: int, downs: int, c: Code)
    requires Matches(a, false, budgets, ups, downs, c)
    ensures Matches(MoveChild(a, t), false, budgets, ups, downs, c)
  {
    hide Add, Sub, Limit, NonNegative;
    MoveAt(a, parent, t, c);
    var a' := MoveChild(a, t);
    assert At(a'.crossedDown, c) == At(a.crossedDown, c) + At(t.fromRecycled, c);
    assert At(a'.crossedUp, c) == At(a.crossedUp, c) + At(t.toRecycled, c);
  }

  /** What a parent's books take from a child. */
  ghost predicate SameForParent(a: Acct, a': Acct, c: Code) {
    && At(a'.budgetIncreases, c) == At(a.budgetIncreases, c)
    && At(a'.crossedUp, c) == At(a.crossedUp, c)
    && At(a'.crossedDown, c) == At(a.crossedDown, c)
  }

  /** Sums over children that are the same for the parent are the same. */
  lemma SumsAgree(b: Book, b': Book, children: set<Key>, c: Code)
    requires forall ch | ch in children :: ch in b && ch in b' && SameForParent(b[ch], b'[ch], c)
    ensures Sum(children, Col(b', BudgetColumn, c)) == Sum(children, Col(b, BudgetColumn, c))
    ensures Sum(children, Col(b', UpColumn, c)) == Sum(children, Col(b, UpColumn, c))
    ensures Sum(children, Col(b', DownColumn, c)) == Sum(children, Col(b, DownColumn, c))
  {
    SumSame(children, Col(b, BudgetColumn, c), Col(b', BudgetColumn, c));
    SumSame(children, Col(b, UpColumn, c), Col(b', UpColumn, c));
    SumSame(children, Col(b, DownColumn, c), Col(b', DownColumn, c));
  }

  /** The sums when just one child changes for its parent. */
  lemma SumsShift(b: Book, b': Book, children: set<Key>, k: Key, c: Code)
    requires k in children
    requires forall ch | ch in children :: ch in b && ch in b' && (ch != k ==> SameForParent(b[ch], b'[ch], c))
    ensures Sum(children, Col(b', BudgetColumn, c))
         == Sum(children, Col(b, BudgetColumn, c)) + At(b'[k].budgetIncreases, c) - At(b[k].budgetIncreases, c)
    ensures Sum(children, Col(b', UpColumn, c))
         == Sum(children, Col(b, UpColumn, c)) + At(b'[k].crossedUp, c) - At(b[k].crossedUp, c)
    ensures Sum(children, Col(b', DownColumn, c))
         == Sum(children, Col(b, DownColumn, c)) + At(b'[k].crossedDown, c) - At(b[k].crossedDown, c)
  {
    SumShift(children, Col(b, BudgetColumn, c), Col(b', BudgetColumn, c), k);
    SumShift(children, Col(b, UpColumn, c), Col(b', UpColumn, c), k);
    SumShift(children, Col(b, DownColumn, c), Col(b', DownColumn, c), k);
  }

  /** A write to one account that leaves its place in the tree and everything its
      parent and its children account for alone. */
  ghost predicate LocalChange(k: Key, a: Acct, a': Acct) {
    && a'.kind == a.kind && a'.children == a.children
    && a'.allocatedIn == a.allocatedIn && a'.allocatedOut == a.allocatedOut
    && a'.recycledIn == a.recycledIn && a'.recycledOut == a.recycledOut
    && a'.crossedDown == a.crossedDown && a'.crossedUp == a.crossedUp
    && (|k| > 1 ==> a'.budgetIncreases == a.budgetIncreases && a'.budgetDecreases == a.budgetDecreases)
  }

  lemma LocalMatches(k: Key, a: Acct, a': Acct, budgets: int, ups: int, downs: int, c: Code)
    requires LocalChange(k, a, a') && BalancedAt(a', c)
    requires Matches(a, |k| <= 1, budgets, ups, downs, c)
    ensures Matches(a', |k| <= 1, budgets, ups, downs, c)
  {
    hide BalancedAt;
  }

  lemma LocalLedger(b: Book, k: Key, a': Acct, j: Key, c: Code)
    requires Inv(b) && k in b && LocalChange(k, b[k], a') && BalancedAt(a', c) && j in b
    ensures LedgerAt(b[k := a'], j, c)
  {
    hide Matches, BalancedAt;
    var b' := b[k := a'];
    assert NodeOk(b, j) && LedgerAt(b, j, c);
    forall ch | ch in b[j].children ensures ch in b && SameForParent(b[ch], b'[ch], c) {
      assert |ch| > 1;
    }
    SumsAgree(b, b', b[j].children, c);
    if j == k {
      LocalMatches(k, b[k], a', Sum(b[k].children, Col(b, BudgetColumn, c)), Sum(b[k].children, Col(b, UpColumn, c)),
                   Sum(b[k].children, Col(b, DownColumn, c)), c);
    }
  }

  lemma LocalKeepsInv(b: Book, k: Key, a': Acct)
    requires Inv(b) && k in b && LocalChange(k, b[k], a')
    requires forall c :: BalancedAt(a', c)
    ensures Inv(b[k := a'])
  {
    var b' := b[k := a'];
    SameShapeKeepsTree(b, b');
    forall j, c | j in b' ensures LedgerAt(b', j, c) {
      LocalLedger(b, k, a', j, c);
    }
  }

  /** A change of accounts that leaves every key its kind and children. */
  lemma SameShapeKeepsTree(b: Book, b': Book)
    requires Tree(b) && b'.Keys == b.Keys
    requires forall j | j in b :: b'[j].kind == b[j].kind && b'[j].children == b[j].children
    ensures Tree(b')
  {
    forall j | j in b' ensures NodeOk(b', j) {
      assert NodeOk(b, j);
    }
  }

  lemma EdgeIs(b: Book, k: Key, t: Transfer)
    requires HasParent(b, k)
    ensures var b', p := Edge(b, k, t), Parent(k);
            && k != p && b'.Keys == b.Keys && b'[k] == MoveChild(b[k], t) && b'[p] == MoveParent(b[p], t)
            && forall j | j in b && j != k && j != p :: b'[j] == b[j]
  {
    assert |Parent(k)| != |k|;
  }

  lemma EdgeKeepsTree(b: Book, k: Key, t: Transfer)
    requires Tree(b) && HasParent(b, k)
    ensures Tree(Edge(b, k, t))
  {
    hide Edge;
    EdgeIs(b, k, t);
    var b' := Edge(b, k, t);
    forall j | j in b ensures b'[j].kind == b[j].kind && b'[j].children == b[j].children {
    }
    SameShapeKeepsTree(b, b');
  }

  lemma MovedForParent(a: Acct, t: Transfer, c: Code)
    ensures SameForParent(a, MoveParent(a, t), c)
    ensures var a' := MoveChild(a, t);
            && At(a'.budgetIncreases, c) == At(a.budgetIncreases, c) + At(t.fromBudget, c)
            && At(a'.crossedDown, c) == At(a.crossedDown, c) + At(t.fromRecycled, c)
            && At(a'.crossedUp, c) == At(a.crossedUp, c) + At(t.toRecycled, c)
  {
  }

  lemma {:induction false} EdgeAtParent(b: Book, k: Key, t: Transfer, c: Code)
    requires Inv(b) && HasParent(b, k)
    ensures LedgerAt(Edge(b, k, t), Parent(k), c)
  {
    hide Add, Sub, Limit, NonNegative, Matches, Edge, MoveParent, MoveChild, Col, Value, Sum, At, BalancedAt;
    var b', p := Edge(b, k, t), Parent(k);
    EdgeIs(b, k, t);
    assert NodeOk(b, k) && NodeOk(b, p) && LedgerAt(b, p, c);
    var children := b[p].children;
    forall ch | ch in children ensures ch in b && ch in b' && (ch != k ==> SameForParent(b[ch], b'[ch], c)) {
      assert ch != p;
    }
    SumsShift(b, b', children, k, c);
    MovedForParent(b[k], t, c);
    ParentMatches(b[p], b[k], t, |p| <= 1, Sum(children, Col(b, BudgetColumn, c)), Sum(children, Col(b, UpColumn, c)),
                  Sum(children, Col(b, DownColumn, c)), c);
    assert b'[p].children == children by {
      SameNode(b[p], t);
    }
  }

  lemma SameNode(a: Acct, t: Transfer)
    ensures MoveParent(a, t).children == MoveChild(a, t).children == a.children
    ensures MoveParent(a, t).kind == MoveChild(a, t).kind == a.kind
    ensures MoveParent(a, t).status == MoveChild(a, t).status == a.status
  {
  }

  lemma EdgeElsewhere(b: Book, k: Key, t: Transfer, j: Key, c: Code)
    requires Inv(b) && HasParent(b, k) && j in b && j != Parent(k)
    ensures LedgerAt(Edge(b, k, t), j, c)
  {
    hide Add, Sub, Limit, NonNegative, Matches, Edge, MoveParent, MoveChild, Col, Value, Sum;
    var b', p := Edge(b, k, t), Parent(k);
    EdgeIs(b, k, t);
    assert NodeOk(b, j) && LedgerAt(b, j, c);
    forall ch | ch in b[j].children ensures ch in b && ch in b' && SameForParent(b[ch], b'[ch], c) {
      assert ch != k;
      MovedForParent(b[p], t, c);
    }
    SumsAgree(b, b', b[j].children, c);
    if j == k {
      SameNode(b[k], t);
      ChildMatches(b[k], b[p], t, Sum(b[k].children, Col(b, BudgetColumn, c)), Sum(b[k].children, Col(b, UpColumn, c)),
                   Sum(b[k].children, Col(b, DownColumn, c)), c);
    }
  }

  lemma EdgeKeepsInv(b: Book, k: Key, t: Transfer)
    requires Inv(b) && HasParent(b, k)
    ensures Inv(Edge(b, k, t))
  {
    hide LedgerAt;
    var b' := Edge(b, k, t);
    EdgeKeepsTree(b, k, t);
    forall j, c | j in b' ensures LedgerAt(b', j, c) {
      if j == Parent(k) {
        EdgeAtParent(b, k, t, c);
      } else {
        EdgeElsewhere(b, k, t, j, c);
      }
    }
  }

  lemma InsertKeepsTree(b: Book, k: Key, kind: Kind)
    requires Tree(b) && CanInsert(b, k, kind)
    ensures Tree(Inserted(b, k, kind))
  {
    var b' := Inserted(b, k, kind);
    forall j | j in b' ensures NodeOk(b', j) {
      if j in b {
        assert NodeOk(b, j);
      }
    }
  }

  lemma ChildrenMatch(a: Acct, s: set<Key>, top: bool, budgets: int, ups: int, downs: int, c: Code)
    requires Matches(a, top, budgets, ups, downs, c)
    ensures Matches(a.(children := s), top, budgets, ups, downs, c)
  {
  }

  lemma NewChildIsZero(b: Book, k: Key, kind: Kind, c: Code)
    requires k in b && b[k] == NewAcct(kind)
    ensures Col(b, BudgetColumn, c)(k) == 0 && Col(b, UpColumn, c)(k) == 0 && Col(b, DownColumn, c)(k) == 0
  {
  }

  lemma InsertAtParent(b: Book, k: Key, kind: Kind, c: Code)
    requires Inv(b) && CanInsert(b, k, kind) && |k| > 1
    ensures LedgerAt(Inserted(b, k, kind), Parent(k), c)
  {
    hide Matches, Sum, At, NewAcct;
    var b', p := Inserted(b, k, kind), Parent(k);
    assert |p| != |k|;
    assert NodeOk(b, p) && LedgerAt(b, p, c);
    var children := b[p].children;
    forall ch | ch in children ensures ch in b && ch in b' && SameForParent(b[ch], b'[ch], c) {
      assert ch != p;
    }
    SumsAgree(b, b', children, c);
    NewChildIsZero(b', k, kind, c);
    SumInsert(children, Col(b', BudgetColumn, c), k);
    SumInsert(children, Col(b', UpColumn, c), k);
    SumInsert(children, Col(b', DownColumn, c), k);
    assert b'[p] == b[p].(children := children + {k});
    ChildrenMatch(b[p], children + {k}, |p| <= 1, Sum(children, Col(b, BudgetColumn, c)),
                  Sum(children, Col(b, UpColumn, c)), Sum(children, Col(b, DownColumn, c)), c);
  }

  lemma InsertElsewhere(b: Book, k: Key, kind: Kind, j: Key, c: Code)
    requires Inv(b) && CanInsert(b, k, kind) && j in b && (|k| > 1 ==> j != Parent(k))
    ensures LedgerAt(Inserted(b, k, kind), j, c)
  {
    hide Matches;
    var b' := Inserted(b, k, kind);
    assert NodeOk(b, j) && LedgerAt(b, j, c);
    assert b'[j] == b[j];
    forall ch | ch in b[j].children ensures ch in b && ch in b' && SameForParent(b[ch], b'[ch], c) {
    }
    SumsAgree(b, b', b[j].children, c);
  }

  lemma InsertKeepsInv(b: Book, k: Key, kind: Kind)
    requires Inv(b) && CanInsert(b, k, kind)
    ensures Inv(Inserted(b, k, kind))
  {
    var b' := Inserted(b, k, kind);
    InsertKeepsTree(b, k, kind);
    forall j, c | j in b' ensures LedgerAt(b', j, c) {
      if j in b {
        if |k| > 1 && j == Parent(k) {
          InsertAtParent(b, k, kind, c);
        } else {
          InsertElsewhere(b, k, kind, j, c);
        }
      }
    }
  }

  lemma ApplyKeepsInv(b: Book, m: Move)
    requires Inv(b)
    ensures Inv(Apply(b, m))
  {
    hide Add, Sub, Limit, NonNegative, CheckInvariants, MaySync, MayImport, IsNonNegative, LedgerAt, Edge, Inserted;
    match m {
      case Insert(k, kind) =>
        if CanInsert(b, k, kind) {
          InsertKeepsInv(b, k, kind);
        }
      case PutBudget(k, p) =>
        if k in b && |k| == 1 {
          forall c ensures BalancedAt(SetBudget(b[k], p), c) {
            InvBalanced(b, k, c);
            SetBudgetAt(b[k], p, c);
          }
          LocalKeepsInv(b, k, SetBudget(b[k], p));
        }
      case PutBalance(k, p) =>
        if HasParent(b, k) {
          EdgeKeepsInv(b, k, PlanTransfer(b[k], b[Parent(k)], p));
        }
      case Recuperate(k) =>
        if HasParent(b, k) {
          EdgeKeepsInv(b, k, RecuperateTransfer(b[k]));
        }
      case Adjust(k, p) =>
        if k in b {
          forall c ensures BalancedAt(AddAdjustment(b[k], p), c) {
            InvBalanced(b, k, c);
            AddAdjustmentAt(b[k], p, c);
          }
          LocalKeepsInv(b, k, AddAdjustment(b[k], p));
        }
      case Import(k, p) =>
        if k in b {
          forall c ensures BalancedAt(ImportSpend(b[k], p), c) {
            InvBalanced(b, k, c);
            ImportSpendAt(b[k], p, c);
          }
          LocalKeepsInv(b, k, ImportSpend(b[k], p));
        }
      case Sync(k, s) =>
        if k in b {
          forall c ensures BalancedAt(SyncToMaster(s, b[k]), c) {
            InvBalanced(b, k, c);
            SyncAt(s, b[k], c);
          }
          LocalKeepsInv(b, k, SyncToMaster(s, b[k]));
        }
      case Mark(k, st) =>
        if k in b {
          forall c ensures BalancedAt(b[k].(status := st), c) {
            InvBalanced(b, k, c);
          }
          LocalKeepsInv(b, k, b[k].(status := st));
        }
    }
  }

  lemma InvBalanced(b: Book, k: Key, c: Code)
    requires Inv(b) && k in b
    ensures BalancedAt(b[k], c)
  {
    assert LedgerAt(b, k, c);
  }

  lemma {:induction false} RunKeepsInv(b: Book, ms: seq<Move>)
    requires Inv(b)
    ensures Inv(Run(b, ms))
  {
    hide Apply, Inv;
    if ms != [] {
      RunKeepsInv(b, ms[..|ms| - 1]);
      ApplyKeepsInv(Run(b, ms[..|ms| - 1]), ms[|ms| - 1]);
    }
  }

  /** The invariants hold after every sequence of moves whatever. */
  lemma RunsKeepInv(ms: seq<Move>)
    ensures Inv(Execute(ms))
  {
    RunKeepsInv(map[], ms);
  }
}
