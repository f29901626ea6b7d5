/** What closing an account does to its whole subtree, in any order of its
  children.
 */
module Closing {
  import opened Common
  import opened Currency
  import opened AccountSpec
  import opened AccountLaws
  import opened Sums
  import opened Ledger
  import opened LedgerTheorems

  /** j is reached from k through active accounts only, both ends included. */
  ghost predicate Open(b: Book, k: Key, j: Key) {
    k <= j && forall n | |k| <= n <= |j| :: j[..n] in b && b[j[..n]].status == ACTIVE
  }

  /** What closing j sends up in currency c, once its children are closed. */
  ghost function Rises(b: Book, j: Key, c: Code): (r: int)
    requires Tree(b) && j in b
    ensures r >= 0
    decreases Longest(b.Keys) - |j|
  {
    if b[j].status == CLOSED then 0
    else
      assert NodeOk(b, j);
      var rises := (ch: Key) => if ch in b[j].children then Rises(b, ch, c) else 0;
      Max(At(b[j].balance, c) + Sum(b[j].children, rises), 0)
  }

  ghost function RiseColumn(b: Book, c: Code): Key -> int
    requires Tree(b)
  {
    j => if j in b then Rises(b, j, c) else 0
  }

  lemma RisesIs(b: Book, j: Key, c: Code)
    requires Tree(b) && j in b
    ensures Rises(b, j, c)
         == if b[j].status == CLOSED then 0
            else Max(At(b[j].balance, c) + Sum(b[j].children, RiseColumn(b, c)), 0)
  {
    assert NodeOk(b, j);
    var rises := (ch: Key) => if ch in b[j].children then Rises(b, ch, c) else 0;
    SumSame(b[j].children, rises, RiseColumn(b, c));
  }

  ghost predicate SameInside(a: Acct, a': Acct, c: Code) {
    a'.status == a.status && a'.children == a.children && At(a'.balance, c) == At(a.balance, c)
  }

  lemma {:induction false} RisesFrame(b: Book, b': Book, j: Key, c: Code)
    requires Tree(b) && Tree(b') && j in b
    requires forall i | i in b && j <= i :: i in b' && SameInside(b[i], b'[i], c)
    ensures Rises(b', j, c) == Rises(b, j, c)
    ensures Sum(b'[j].children, RiseColumn(b', c)) == Sum(b[j].children, RiseColumn(b, c))
    decreases Longest(b.Keys) - |j|
  {
    assert j in b' && SameInside(b[j], b'[j], c);
    RisesIs(b, j, c);
    RisesIs(b', j, c);
    assert NodeOk(b, j);
    forall ch | ch in b[j].children ensures RiseColumn(b, c)(ch) == RiseColumn(b', c)(ch) {
      assert ch in b && Parent(ch) == j && j <= ch;
      RisesFrame(b, b', ch, c);
    }
    SumSame(b[j].children, RiseColumn(b, c), RiseColumn(b', c));
  }

  // --------------------------------------------------- closing sibling accounts

  ghost predicate Siblings(s: set<Key>, parent: Key) {
    forall ch | ch in s :: |ch| == |parent| + 1 && parent <= ch
  }

  ghost predicate OpenIn(b: Book, s: set<Key>, j: Key) {
    exists ch :: ch in s && Open(b, ch, j)
  }

  ghost predicate Inside(s: set<Key>, j: Key) {
    exists ch :: ch in s && ch <= j
  }

  ghost function Inflow(b: Book, s: set<Key>, parent: Key, j: Key, c: Code): int
    requires Tree(b) && j in b
  {
    if OpenIn(b, s, j) then Sum(b[j].children, RiseColumn(b, c))
    else if j == parent then Sum(s, RiseColumn(b, c))
    else 0
  }

  ghost function Outflow(b: Book, s: set<Key>, j: Key, c: Code): int
    requires Tree(b) && j in b
  {
    if OpenIn(b, s, j) && |j| > 1 then Rises(b, j, c) else 0
  }

  ghost predicate Flows(a: Acct, a': Acct, inflow: int, outflow: int, c: Code) {
    && At(a'.recycledIn, c) == At(a.recycledIn, c) + inflow
    && At(a'.recycledOut, c) == At(a.recycledOut, c) + outflow
    && At(a'.crossedUp, c) == At(a.crossedUp, c) + outflow
    && At(a'.balance, c) == At(a.balance, c) + inflow - outflow
  }

  ghost predicate SameButFlows(a: Acct, a': Acct) {
    a' == a.(status := a'.status, recycledIn := a'.recycledIn, recycledOut := a'.recycledOut, balance := a'.balance,
             crossedUp := a'.crossedUp)
  }

  ghost predicate NodeFlows(b: Book, b': Book, s: set<Key>, parent: Key, j: Key, c: Code)
    requires Tree(b) && j in b && j in b'
  {
    Flows(b[j], b'[j], Inflow(b, s, parent, j, c), Outflow(b, s, j, c), c)
  }

  /** j after the accounts of s, children of `parent`, have been closed in turn. */
  ghost predicate NodeClosed(b: Book, b': Book, s: set<Key>, parent: Key, j: Key)
    requires Tree(b) && j in b && j in b'
  {
    && SameButFlows(b[j], b'[j])
    && b'[j].status == (if OpenIn(b, s, j) then CLOSED else b[j].status)
    && (!Inside(s, j) && j != parent ==> b'[j] == b[j])
    && forall c :: NodeFlows(b, b', s, parent, j, c)
  }

  ghost predicate Closed(b: Book, b': Book, s: set<Key>, parent: Key)
    requires Tree(b)
  {
    && b'.Keys == b.Keys
    && forall j {:trigger NodeClosed(b, b', s, parent, j)} | j in b :: NodeClosed(b, b', s, parent, j)
  }

  /** b' is b after k has been closed. */
  ghost predicate ClosedAt(b: Book, b': Book, k: Key)
    requires Tree(b) && k != []
  {
    Closed(b, b', {k}, Parent(k))
  }

  lemma PrefixesOfOneLength(p: Key, q: Key, j: Key)
    requires p <= j && q <= j && |p| == |q|
    ensures p == q
  {
    assert p == j[..|p|] && q == j[..|q|];
  }

  /** An untouched subtree looks the same from inside. */
  lemma UntouchedSubtree(b: Book, b1: Book, x: Key, j: Key, c: Code)
    requires Tree(b) && Tree(b1) && b1.Keys == b.Keys && j in b && x <= j
    requires forall i | i in b && x <= i :: b1[i] == b[i]
    ensures Open(b1, x, j) == Open(b, x, j)
    ensures Rises(b1, j, c) == Rises(b, j, c)
    ensures Sum(b1[j].children, RiseColumn(b1, c)) == Sum(b[j].children, RiseColumn(b, c))
  {
    hide Rises, RiseColumn, Sum, Tree;
    forall n | |x| <= n <= |j| ensures x <= j[..n] {
    }
    forall i | i in b && j <= i ensures i in b1 && SameInside(b[i], b1[i], c) {
      assert x <= i;
    }
    RisesFrame(b, b1, j, c);
  }

  lemma OutsideIsUntouched(b: Book, b1: Book, s: set<Key>, x: Key, parent: Key)
    requires Tree(b) && Siblings(s + {x}, parent) && x !in s && Closed(b, b1, s, parent)
    ensures forall i | i in b && x <= i :: b1[i] == b[i]
  {
    forall i | i in b && x <= i ensures b1[i] == b[i] {
      assert NodeClosed(b, b1, s, parent, i);
      assert x in s + {x};
      forall ch | ch in s && ch <= i ensures false {
        assert ch in s + {x};
        PrefixesOfOneLength(ch, x, i);
      }
    }
  }

  lemma AddSiblingInside(b: Book, b1: Book, b2: Book, s: set<Key>, x: Key, parent: Key, j: Key)
    requires Tree(b) && Siblings(s + {x}, parent) && x !in s && j in b && x <= j
    requires Closed(b, b1, s, parent) && Tree(b1) && Closed(b1, b2, {x}, parent)
    ensures NodeClosed(b, b2, s + {x}, parent, j)
  {
    hide Flows, SameButFlows, Open, Rises, RiseColumn, Sum;
    OutsideIsUntouched(b, b1, s, x, parent);
    assert NodeClosed(b1, b2, {x}, parent, j);
    assert x in s + {x} && x in {x};
    UntouchedSubtree(b, b1, x, j, 0);
    assert OpenIn(b1, {x}, j) == Open(b1, x, j);
    assert OpenIn(b, s + {x}, j) == Open(b, x, j) by {
      forall ch | ch in s + {x} && Open(b, ch, j) ensures ch == x {
        OpenIsBelow(b, ch, j);
        PrefixesOfOneLength(ch, x, j);
      }
    }
    forall c ensures NodeFlows(b, b2, s + {x}, parent, j, c) {
      UntouchedSubtree(b, b1, x, j, c);
      assert NodeFlows(b1, b2, {x}, parent, j, c);
    }
  }

  lemma OpenAtRoot(b: Book, k: Key)
    requires k in b && b[k].status == ACTIVE
    ensures Open(b, k, k)
  {
    assert k[..|k|] == k;
  }

  lemma OpenIsBelow(b: Book, k: Key, j: Key)
    requires Open(b, k, j)
    ensures k <= j
  {
  }

  lemma AddSiblingOutside(b: Book, b1: Book, b2: Book, s: set<Key>, x: Key, parent: Key, j: Key)
    requires Tree(b) && Siblings(s + {x}, parent) && x !in s && j in b && !(x <= j) && j != parent
    requires Closed(b, b1, s, parent) && Tree(b1) && Closed(b1, b2, {x}, parent)
    ensures NodeClosed(b, b2, s + {x}, parent, j)
  {
    hide Flows, SameButFlows, Open, Rises, RiseColumn, Sum;
    assert NodeClosed(b, b1, s, parent, j);
    assert NodeClosed(b1, b2, {x}, parent, j);
    assert b2[j] == b1[j];
    assert OpenIn(b, s + {x}, j) == OpenIn(b, s, j) by {
      forall ch | ch in s + {x} && Open(b, ch, j) ensures ch in s {
        OpenIsBelow(b, ch, j);
      }
    }
    assert Inside(s, j) ==> Inside(s + {x}, j) by {
      if Inside(s, j) {
        var ch :| ch in s && ch <= j;
        assert ch in s + {x};
      }
    }
    forall c ensures NodeFlows(b, b2, s + {x}, parent, j, c) {
      assert NodeFlows(b, b1, s, parent, j, c);
    }
  }

  lemma FlowsCompose(a: Acct, a1: Acct, a2: Acct, in1: int, in2: int, c: Code)
    requires Flows(a, a1, in1, 0, c) && Flows(a1, a2, in2, 0, c)
    ensures Flows(a, a2, in1 + in2, 0, c)
  {
  }

  /** What comes up to the parent from the siblings closed so far and one more. */
  lemma OneMoreRise(b: Book, b1: Book, s: set<Key>, x: Key, c: Code)
    requires Tree(b) && Tree(b1) && b1.Keys == b.Keys && x !in s && x in b
    requires forall i | i in b && x <= i :: b1[i] == b[i]
    ensures Sum(s + {x}, RiseColumn(b, c)) == Sum(s, RiseColumn(b, c)) + Sum({x}, RiseColumn(b1, c))
  {
    hide Open, Rises, RiseColumn, Tree;
    SumInsert(s, RiseColumn(b, c), x);
    UntouchedSubtree(b, b1, x, x, c);
    SumSingle(x, RiseColumn(b1, c));
    RiseColumnAt(b, x, c);
    RiseColumnAt(b1, x, c);
  }

  lemma ParentIsNotInside(b: Book, s: set<Key>, parent: Key)
    requires Siblings(s, parent)
    ensures !OpenIn(b, s, parent) && !Inside(s, parent)
  {
    hide Open;
    forall ch | ch in s && Open(b, ch, parent) ensures false {
      OpenIsBelow(b, ch, parent);
    }
  }

  lemma AddSiblingAtParent(b: Book, b1: Book, b2: Book, s: set<Key>, x: Key, parent: Key)
    requires Tree(b) && Siblings(s + {x}, parent) && x !in s && x in b && parent in b
    requires Closed(b, b1, s, parent) && Tree(b1) && Closed(b1, b2, {x}, parent)
    ensures NodeClosed(b, b2, s + {x}, parent, parent)
  {
    hide Flows, Open, OpenIn, Inside, Rises, RiseColumn, Sum, Tree;
    assert NodeClosed(b, b1, s, parent, parent);
    assert NodeClosed(b1, b2, {x}, parent, parent);
    OutsideIsUntouched(b, b1, s, x, parent);
    assert x in s + {x};
    ParentIsNotInside(b, s, parent);
    ParentIsNotInside(b, s + {x}, parent);
    ParentIsNotInside(b1, {x}, parent);
    forall c ensures NodeFlows(b, b2, s + {x}, parent, parent, c) {
      assert NodeFlows(b, b1, s, parent, parent, c) && NodeFlows(b1, b2, {x}, parent, parent, c);
      FlowsCompose(b[parent], b1[parent], b2[parent], Sum(s, RiseColumn(b, c)), Sum({x}, RiseColumn(b1, c)), c);
      OneMoreRise(b, b1, s, x, c);
    }
  }

  /** Closing one more sibling. */
  lemma AddSibling(b: Book, b1: Book, b2: Book, s: set<Key>, x: Key, parent: Key)
    requires Tree(b) && Siblings(s + {x}, parent) && x !in s && x in b
    requires Closed(b, b1, s, parent) && Tree(b1) && Closed(b1, b2, {x}, parent)
    ensures Closed(b, b2, s + {x}, parent)
  {
    hide NodeClosed;
    forall j | j in b ensures NodeClosed(b, b2, s + {x}, parent, j) {
      if x <= j {
        AddSiblingInside(b, b1, b2, s, x, parent, j);
      } else if j == parent {
        AddSiblingAtParent(b, b1, b2, s, x, parent);
      } else {
        AddSiblingOutside(b, b1, b2, s, x, parent, j);
      }
    }
  }

  /** Nothing has been closed yet, or the account was closed already. */
  lemma ClosedNothing(b: Book, s: set<Key>, parent: Key)
    requires Tree(b) && forall ch | ch in s :: ch in b ==> b[ch].status == CLOSED
    ensures Closed(b, b, s, parent)
  {
    forall j | j in b ensures NodeClosed(b, b, s, parent, j) {
      forall ch | ch in s ensures !Open(b, ch, j) {
        assert ch <= j ==> j[..|ch|] == ch;
      }
      forall c ensures NodeFlows(b, b, s, parent, j, c) {
        forall ch | ch in s ensures RiseColumn(b, c)(ch) == 0 {
        }
        SumZero(s, RiseColumn(b, c));
      }
    }
  }

  // ------------------------------------------------------- closing the account

  /** The last steps of a close: k gives up what it has, then it is marked. */
  function Finish(b1: Book, k: Key): Book
    requires k in b1 && (|k| > 1 ==> HasParent(b1, k))
  {
    var b2 := if |k| > 1 then Edge(b1, k, RecuperateTransfer(b1[k])) else b1;
    b2[k := b2[k].(status := CLOSED)]
  }

  lemma FinishIs(b1: Book, k: Key)
    requires k in b1 && (|k| > 1 ==> HasParent(b1, k)) && k != []
    ensures var b3, t := Finish(b1, k), RecuperateTransfer(b1[k]);
            && b3.Keys == b1.Keys
            && b3[k] == (if |k| > 1 then MoveChild(b1[k], t) else b1[k]).(status := CLOSED)
            && (|k| > 1 ==> Parent(k) != k && b3[Parent(k)] == MoveParent(b1[Parent(k)], t))
            && forall j | j in b1 && j != k && j != Parent(k) :: b3[j] == b1[j]
  {
    hide MoveChild, MoveParent, RecuperateTransfer;
    assert |Parent(k)| != |k|;
    if |k| > 1 {
      hide Edge;
      EdgeIs(b1, k, RecuperateTransfer(b1[k]));
    }
  }

  /** Only the recycled columns and the balance of either side move. */
  lemma RecuperateFlows(child: Acct, parent: Acct)
    ensures var t := RecuperateTransfer(child);
            && SameButFlows(child, MoveChild(child, t)) && MoveChild(child, t).status == child.status
            && SameButFlows(parent, MoveParent(parent, t)) && MoveParent(parent, t).status == parent.status
            && MoveParent(parent, t).crossedUp == parent.crossedUp
            && forall c :: && Flows(child, MoveChild(child, t), 0, Max(At(child.balance, c), 0), c)
                           && Flows(parent, MoveParent(parent, t), Max(At(child.balance, c), 0), 0, c)
  {
    hide Add, Sub, Limit, NonNegative;
    NothingElseMoves();
  }

  /** Below k the children's closing has done everything. */
  lemma OpenThroughRoot(b: Book, k: Key, j: Key)
    requires Tree(b) && k in b && b[k].status == ACTIVE && j in b && j != k
    ensures OpenIn(b, {k}, j) == OpenIn(b, b[k].children, j)
    ensures Inside(b[k].children, j) ==> Inside({k}, j)
  {
    assert NodeOk(b, k);
    assert k in {k};
    if OpenIn(b, {k}, j) {
      Ancestor(b, j, |k|);
      var ch := j[..|k| + 1];
      assert j[..|k|] == k;
      assert ch in b[k].children && Open(b, ch, j);
    }
    if OpenIn(b, b[k].children, j) {
      var ch :| ch in b[k].children && Open(b, ch, j);
      assert j[..|k|] == k by {
        assert ch == j[..|ch|];
      }
      assert Open(b, k, j);
    }
  }

  lemma FinishElsewhere(b: Book, b1: Book, k: Key, j: Key)
    requires Tree(b) && k in b && k != [] && b[k].status == ACTIVE && j in b && j != k && j != Parent(k)
    requires Closed(b, b1, b[k].children, k) && (|k| > 1 ==> HasParent(b1, k))
    ensures j in Finish(b1, k) && NodeClosed(b, Finish(b1, k), {k}, Parent(k), j)
  {
    hide Finish, Flows, SameButFlows, Open, Rises, RiseColumn, Sum, OpenIn;
    FinishIs(b1, k);
    assert NodeClosed(b, b1, b[k].children, k, j);
    OpenThroughRoot(b, k, j);
    forall c ensures NodeFlows(b, Finish(b1, k), {k}, Parent(k), j, c) {
      assert NodeFlows(b, b1, b[k].children, k, j, c);
    }
  }

  lemma OpenAtRootOnly(b: Book, k: Key)
    requires Tree(b) && k in b && b[k].status == ACTIVE
    ensures OpenIn(b, {k}, k) && Inside({k}, k) && !OpenIn(b, b[k].children, k)
  {
    hide Open;
    assert NodeOk(b, k);
    OpenAtRoot(b, k);
    assert k in {k};
    forall ch | ch in b[k].children && Open(b, ch, k) ensures false {
      OpenIsBelow(b, ch, k);
    }
  }

  /** The root after its children were closed (a1) and after the last steps. */
  lemma RootFlows(a: Acct, a1: Acct, parent: Acct, top: bool, c: Code, inflow: int)
    requires Flows(a, a1, inflow, 0, c)
    ensures var a3 := (if top then a1 else MoveChild(a1, RecuperateTransfer(a1))).(status := CLOSED);
            Flows(a, a3, inflow, if top then 0 else Max(At(a.balance, c) + inflow, 0), c)
  {
    hide MoveChild, MoveParent, RecuperateTransfer;
    if !top {
      RecuperateFlows(a1, parent);
    }
  }

  lemma FinishAtRoot(b: Book, b1: Book, k: Key)
    requires Tree(b) && k in b && k != [] && b[k].status == ACTIVE
    requires Closed(b, b1, b[k].children, k) && (|k| > 1 ==> HasParent(b1, k))
    ensures k in Finish(b1, k) && NodeClosed(b, Finish(b1, k), {k}, Parent(k), k)
  {
    hide Finish, MoveChild, MoveParent, RecuperateTransfer, Open, OpenIn, Inside, Rises, RiseColumn, Sum, Flows, Tree;
    FinishIs(b1, k);
    assert NodeClosed(b, b1, b[k].children, k, k);
    var parent := if |k| > 1 then b1[Parent(k)] else b1[k];
    RecuperateFlows(b1[k], parent);
    OpenAtRootOnly(b, k);
    forall c ensures NodeFlows(b, Finish(b1, k), {k}, Parent(k), k, c) {
      assert NodeFlows(b, b1, b[k].children, k, k, c);
      RisesIs(b, k, c);
      RootFlows(b[k], b1[k], parent, |k| <= 1, c, Sum(b[k].children, RiseColumn(b, c)));
    }
  }

  lemma FinishAtParent(b: Book, b1: Book, k: Key)
    requires Tree(b) && k in b && b[k].status == ACTIVE && |k| > 1 && Parent(k) in b
    requires Closed(b, b1, b[k].children, k)
    ensures HasParent(b1, k) && Parent(k) in Finish(b1, k)
    ensures NodeClosed(b, Finish(b1, k), {k}, Parent(k), Parent(k))
  {
    hide Finish, MoveChild, MoveParent, RecuperateTransfer, Open, Rises, RiseColumn;
    var p := Parent(k);
    assert p in b1;
    FinishIs(b1, k);
    assert NodeOk(b, k);
    assert NodeClosed(b, b1, b[k].children, k, k) && NodeClosed(b, b1, b[k].children, k, p);
    RecuperateFlows(b1[k], b1[p]);
    forall ch | ch in b[k].children + {k} && (Open(b, ch, p) || ch <= p) ensures false {
      if Open(b, ch, p) {
        OpenIsBelow(b, ch, p);
      }
    }
    forall ch | ch in b[k].children && Open(b, ch, k) ensures false {
      OpenIsBelow(b, ch, k);
    }
    assert b1[p] == b[p];
    forall c ensures NodeFlows(b, Finish(b1, k), {k}, p, p, c) {
      assert NodeFlows(b, b1, b[k].children, k, k, c);
      RisesIs(b, k, c);
      SumSingle(k, RiseColumn(b, c));
      assert RiseColumn(b, c)(k) == Rises(b, k, c) by {
        RiseColumnAt(b, k, c);
      }
    }
  }

  lemma RiseColumnAt(b: Book, k: Key, c: Code)
    requires Tree(b) && k in b
    ensures RiseColumn(b, c)(k) == Rises(b, k, c)
  {
  }

  /** Closing the children and then finishing closes the account. */
  lemma FinishCloses(b: Book, b1: Book, k: Key)
    requires Tree(b) && k in b && k != [] && b[k].status == ACTIVE && Closed(b, b1, b[k].children, k)
    ensures k in b1 && (|k| > 1 ==> HasParent(b1, k)) && ClosedAt(b, Finish(b1, k), k)
  {
    hide NodeClosed, Finish;
    assert NodeOk(b, k);
    FinishIs(b1, k);
    forall j | j in b ensures NodeClosed(b, Finish(b1, k), {k}, Parent(k), j) {
      if j == k {
        FinishAtRoot(b, b1, k);
      } else if j == Parent(k) {
        assert |k| > 1 by {
          assert NodeOk(b, j);
        }
        FinishAtParent(b, b1, k);
      } else {
        FinishElsewhere(b, b1, k, j);
      }
    }
  }

  // ------------------------------------------------------- what a close achieves

  /** With every account of the subtree active and none overdrawn in c, closing
      sends up all there is in the subtree. */
  lemma {:induction false} RisesIsTotal(b: Book, k: Key, c: Code)
    requires Tree(b) && k in b
    requires forall j | j in Subtree(b, k) :: b[j].status == ACTIVE && At(b[j].balance, c) >= 0
    ensures Rises(b, k, c) == Sum(Subtree(b, k), Col(b, BalanceColumn, c))
    ensures At(b[k].balance, c) + Sum(b[k].children, RiseColumn(b, c))
         == Sum(Subtree(b, k), Col(b, BalanceColumn, c)) >= 0
    decreases Longest(b.Keys) - |k|
  {
    hide Rises, RiseColumn, Sum, Col;
    var f := Col(b, BalanceColumn, c);
    assert k in Subtree(b, k);
    assert NodeOk(b, k);
    forall j | j in Subtree(b, k) ensures f(j) == At(b[j].balance, c) {
      ColumnAt(b, BalanceColumn, c, j);
    }
    forall ch | ch in b[k].children ensures RiseColumn(b, c)(ch) == TotalBelow(b, f)(ch) {
      forall j | j in Subtree(b, ch) ensures j in Subtree(b, k) {
        assert k <= ch <= j;
      }
      RisesIsTotal(b, ch, c);
      RiseColumnAt(b, ch, c);
    }
    SumSame(b[k].children, RiseColumn(b, c), TotalBelow(b, f));
    SubtreeSum(b, k, f);
    RisesIs(b, k, c);
    SumNonNegative(Subtree(b, k), f);
  }

  lemma AllOpen(b: Book, k: Key, j: Key)
    requires Tree(b) && k in b && k != [] && j in Subtree(b, k)
    requires forall i | i in Subtree(b, k) :: b[i].status == ACTIVE
    ensures Open(b, k, j)
  {
    forall n | |k| <= n <= |j| ensures j[..n] in Subtree(b, k) {
      assert k <= j[..n];
      if n < |j| {
        Ancestor(b, j, n);
      } else {
        assert j[..n] == j;
      }
    }
  }

  /** Closing a subtree of active, solvent accounts closes all of them, empties
      those that have a parent, moves exactly their total to the parent (or
      leaves it on a top-level root), and touches nothing else. */
  lemma CloseCollects(b: Book, b': Book, k: Key, c: Code)
    requires Tree(b) && k in b && k != [] && ClosedAt(b, b', k)
    requires forall j | j in Subtree(b, k) :: b[j].status == ACTIVE && At(b[j].balance, c) >= 0
    ensures forall j | j in Subtree(b, k) :: b'[j].status == CLOSED
    ensures forall j | j in Subtree(b, k) && |j| > 1 :: At(b'[j].balance, c) == 0
    ensures var total := Sum(Subtree(b, k), Col(b, BalanceColumn, c));
            if |k| == 1 then At(b'[k].balance, c) == total
            else Parent(k) in b && At(b'[Parent(k)].balance, c) == At(b[Parent(k)].balance, c) + total
    ensures forall j | j in b && j !in Subtree(b, k) && j != Parent(k) :: b'[j] == b[j]
  {
    hide Rises, RiseColumn, Sum, Col, Open;
    var p := Parent(k);
    assert k in {k};
    forall j | j in Subtree(b, k)
      ensures b'[j].status == CLOSED
      ensures |j| > 1 ==> At(b'[j].balance, c) == 0
      ensures |j| == 1 ==> At(b'[j].balance, c) == Sum(Subtree(b, j), Col(b, BalanceColumn, c))
    {
      AllOpen(b, k, j);
      assert OpenIn(b, {k}, j);
      assert NodeClosed(b, b', {k}, p, j);
      assert NodeFlows(b, b', {k}, p, j, c);
      RisesIsTotal(b, j, c);
    }
    if |k| == 1 {
      assert k in Subtree(b, k);
    } else {
      assert NodeOk(b, k);
      assert NodeClosed(b, b', {k}, p, p);
      assert NodeFlows(b, b', {k}, p, p, c);
      ParentIsNotInside(b, {k}, p);
      SumSingle(k, RiseColumn(b, c));
      RiseColumnAt(b, k, c);
      RisesIsTotal(b, k, c);
    }
    forall j | j in b && j !in Subtree(b, k) && j != p ensures b'[j] == b[j] {
      assert NodeClosed(b, b', {k}, p, j);
    }
  }

  /** An active account of the subtree below an account that was closed before. */
  ghost predicate Stranded(b: Book, k: Key, j: Key) {
    && j in Subtree(b, k) && b[j].status == ACTIVE
    && exists n :: |k| <= n < |j| && j[..n] in b && b[j[..n]].status == CLOSED
  }

  /** Closing stops at accounts that are closed already, so it leaves the whole
      subtree closed exactly when nothing active lies below one of them. */
  lemma ClosesAllIff(b: Book, b': Book, k: Key)
    requires Tree(b) && k in b && k != [] && ClosedAt(b, b', k)
    ensures (forall j | j in Subtree(b, k) :: b'[j].status == CLOSED) <==> !exists j :: Stranded(b, k, j)
  {
    assert k in {k};
    forall j | j in Subtree(b, k) ensures b'[j].status == CLOSED <==> !Stranded(b, k, j) {
      assert NodeClosed(b, b', {k}, Parent(k), j);
      assert OpenIn(b, {k}, j) == Open(b, k, j);
      assert j[..|j|] == j;
      if Open(b, k, j) {
        assert !Stranded(b, k, j);
      } else {
        var n :| |k| <= n <= |j| && !(j[..n] in b && b[j[..n]].status == ACTIVE);
        if n < |j| {
          Ancestor(b, j, n);
        }
      }
    }
  }

  // --------------------------------------------------- the total is conserved

  /** Moves that only shift money between accounts, or mark them. */
  predicate Internal(m: Move) {
    m.PutBalance? || m.Recuperate? || m.Mark? || m.Insert?
  }

  ghost function Total(b: Book, c: Code): int {
    Sum(b.Keys, Col(b, BalanceColumn, c))
  }

  lemma EdgeConservesTotal(b: Book, k: Key, t: Transfer, c: Code)
    requires HasParent(b, k)
    ensures Total(Edge(b, k, t), c) == Total(b, c)
  {
    hide Edge, MoveChild, MoveParent, Sum;
    EdgeIs(b, k, t);
    MoveAt(b[k], b[Parent(k)], t, c);
    var mid := b[k := MoveChild(b[k], t)];
    assert mid.Keys == b.Keys;
    SumShift(b.Keys, Col(b, BalanceColumn, c), Col(mid, BalanceColumn, c), k);
    SumShift(b.Keys, Col(mid, BalanceColumn, c), Col(Edge(b, k, t), BalanceColumn, c), Parent(k));
  }

  lemma InternalMoveConserves(b: Book, m: Move, c: Code)
    requires Internal(m)
    ensures Total(Apply(b, m), c) == Total(b, c)
  {
    hide Edge, CheckInvariants, Sum, PlanTransfer, RecuperateTransfer;
    match m {
      case PutBalance(k, p) =>
        if HasParent(b, k) && CheckInvariants(b[k]) {
          EdgeConservesTotal(b, k, PlanTransfer(b[k], b[Parent(k)], p), c);
        }
      case Recuperate(k) =>
        if HasParent(b, k) {
          EdgeConservesTotal(b, k, RecuperateTransfer(b[k]), c);
        }
      case Insert(k, kind) =>
        if CanInsert(b, k, kind) {
          var b' := Inserted(b, k, kind);
          assert b'.Keys == b.Keys + {k};
          SumInsert(b.Keys, Col(b', BalanceColumn, c), k);
          SumSame(b.Keys, Col(b, BalanceColumn, c), Col(b', BalanceColumn, c));
        }
      case Mark(k, st) =>
        if k in b {
          var b' := b[k := b[k].(status := st)];
          assert b'.Keys == b.Keys;
          SumSame(b.Keys, Col(b, BalanceColumn, c), Col(b', BalanceColumn, c));
        }
    }
  }

  /** No sequence of creations, transfers, recuperations and marks changes the
      total balance of the map, wherever it is cut short. */
  lemma {:induction false} InternalRunConserves(b: Book, ms: seq<Move>, c: Code)
    requires forall m | m in ms :: Internal(m)
    ensures Total(Run(b, ms), c) == Total(b, c)
  {
    hide Apply, Total;
    if ms != [] {
      InternalRunConserves(b, ms[..|ms| - 1], c);
      InternalMoveConserves(Run(b, ms[..|ms| - 1]), ms[|ms| - 1], c);
    }
  }
}
