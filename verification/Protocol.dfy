/** One shadow account and its master, with snapshots and replies that travel
  over the network: any of them may be delivered late, again, out of order, or
  never. The shadow is the only writer of the master's three bid counters.
 */
module Protocol {
  import opened Common
  import opened Currency
  import opened AccountSpec
  import opened AccountLaws
  import opened ShadowSpec
  import opened ShadowRuns
  import opened Ledger
  import opened Wire

  /** `sent` holds every snapshot sent so far, the first one standing for the
      state both sides began with; `latest` is the newest one accepted. */
  datatype World = World(master: Acct, shadow: Shadow, sent: seq<Shadow>, replies: seq<Acct>, latest: nat)

  datatype Happening =
    | Bid(step: Step)
    | Send
    | Deliver(snapshot: nat)
    | Receive(reply: nat)
    | Elsewhere(master: Acct)

  /** The bid counters of a master are those of a snapshot. */
  ghost predicate Holds(m: Acct, s: Shadow) {
    && Same(m.commitmentsMade, s.commitmentsMade)
    && Same(m.commitmentsRetired, s.commitmentsRetired)
    && Same(m.spent, s.spent)
  }

  ghost predicate SameBids(m: Acct, m': Acct) {
    m'.commitmentsMade == m.commitmentsMade && m'.commitmentsRetired == m.commitmentsRetired && m'.spent == m.spent
  }

  /** What the world is after it. A closed master answers as it is, and a refused
      snapshot gets no answer. */
  ghost function Next(w: World, h: Happening): World {
    match h
    case Bid(step) => w.(shadow := Take(w.shadow, step).shadow)
    case Send => if CheckShadow(w.shadow) then w.(sent := w.sent + [WireShadow(w.shadow)]) else w
    case Deliver(i) =>
      if i >= |w.sent| then w
      else if w.master.status == CLOSED then w.(replies := w.replies + [WireAccount(w.master)])
      else if MaySync(w.sent[i], w.master) then
        var m := SyncToMaster(w.sent[i], w.master);
        w.(master := m, replies := w.replies + [WireAccount(m)], latest := Max(w.latest, i))
      else w
    case Receive(j) =>
      if j < |w.replies| && CheckShadow(w.shadow) && CheckInvariants(w.replies[j])
      then w.(shadow := SyncFromMaster(w.shadow, w.replies[j]))
      else w
    case Elsewhere(m) => if SameBids(w.master, m) then w.(master := m) else w
  }

  lemma TransfersKeepBids(a: Acct, t: Transfer)
    ensures SameBids(a, MoveChild(a, t)) && SameBids(a, MoveParent(a, t))
  {
  }

  lemma ChangeBudgetKeepsBids(a: Acct, extra: Pool)
    ensures SameBids(a, ChangeBudget(a, extra))
  {
    hide Add, Sub, IsNonNegative;
    if IsNonNegative(extra) {
    } else {
    }
  }

  lemma AdjustmentKeepsBids(a: Acct, p: Pool)
    ensures SameBids(a, AddAdjustment(a, p))
  {
    hide Add, Sub, IsNonNegative;
    if IsNonNegative(p) {
    } else {
    }
  }

  lemma WritesKeepBids(a: Acct, p: Pool, st: Status)
    ensures SameBids(a, SetBudget(a, p)) && SameBids(a, AddAdjustment(a, p)) && SameBids(a, a.(status := st))
  {
    hide ExtraBudget, ChangeBudget, AddAdjustment;
    ChangeBudgetKeepsBids(a, ExtraBudget(a, p));
    AdjustmentKeepsBids(a, p);
  }

  lemma EdgeKeepsBids(b: Book, k: Key, t: Transfer, j: Key)
    requires HasParent(b, k) && j in b
    ensures j in Edge(b, k, t) && SameBids(b[j], Edge(b, k, t)[j])
  {
    hide Edge, MoveChild, MoveParent;
    EdgeIs(b, k, t);
    TransfersKeepBids(b[j], t);
  }

  lemma InsertKeepsBids(b: Book, k: Key, kind: Kind, j: Key)
    requires CanInsert(b, k, kind) && j in b
    ensures j in Inserted(b, k, kind) && SameBids(b[j], Inserted(b, k, kind)[j])
  {
  }

  /** What `Elsewhere` stands for: no write of the banker to any account touches
      the three counters, but for importing spend and syncing. It includes the
      writes of operations that then throw, which can leave the master unsound. */
  lemma OtherMovesKeepBids(b: Book, m: Move, k: Key)
    requires k in b && !m.Import? && !m.Sync?
    ensures k in Apply(b, m) && SameBids(b[k], Apply(b, m)[k])
  {
    hide PlanTransfer, RecuperateTransfer, CheckInvariants, Edge, Inserted, SetBudget, AddAdjustment, CanInsert;
    match m {
      case Insert(j, kind) =>
        if CanInsert(b, j, kind) {
          InsertKeepsBids(b, j, kind, k);
        }
      case PutBudget(j, p) => WritesKeepBids(b[k], p, ACTIVE);
      case PutBalance(j, p) =>
        if HasParent(b, j) && CheckInvariants(b[j]) {
          EdgeKeepsBids(b, j, PlanTransfer(b[j], b[Parent(j)], p), k);
        }
      case Recuperate(j) =>
        if HasParent(b, j) {
          EdgeKeepsBids(b, j, RecuperateTransfer(b[j]), k);
        }
      case Adjust(j, p) => WritesKeepBids(b[k], p, ACTIVE);
      case Mark(j, st) => WritesKeepBids(b[k], map[], st);
    }
  }

  // ------------------------------------------------------------- the invariant

  ghost predicate Ordered(w: World) {
    && (forall i, j | 0 <= i <= j < |w.sent| :: ShadowGrows(w.sent[i], w.sent[j]))
    && (forall i | 0 <= i < |w.sent| :: ShadowGrows(w.sent[i], w.shadow) && SoundShadow(w.sent[i]))
  }

  /** Snapshots only grow from one to the next, the shadow is past all of them,
      and the master holds exactly the newest one it has accepted. */
  ghost predicate Good(w: World) {
    && SoundShadow(w.shadow) && OpenUpward(w.shadow)
    && Ordered(w)
    && w.latest < |w.sent| && Holds(w.master, w.sent[w.latest])
  }

  /** Both sides begin with the same counters. */
  ghost predicate Begins(w: World) {
    && SoundShadow(w.shadow) && OpenUpward(w.shadow) && Holds(w.master, w.shadow)
    && w.sent == [WireShadow(w.shadow)] && w.latest == 0
  }

  lemma WireIsLevel(s: Shadow)
    requires SoundShadow(s)
    ensures SoundShadow(WireShadow(s)) && ShadowGrows(WireShadow(s), s) && ShadowGrows(s, WireShadow(s))
  {
    hide WireShadow, CheckShadow;
    WireShadowIsSame(s);
    CheckShadowIsSound(s);
    CheckShadowIsSound(WireShadow(s));
    var w := WireShadow(s);
    forall c
      ensures At(w.commitmentsMade, c) == At(s.commitmentsMade, c) && At(w.spent, c) == At(s.spent, c)
      ensures At(w.commitmentsRetired, c) == At(s.commitmentsRetired, c)
    {
    }
  }

  lemma LevelHolds(m: Acct, s: Shadow, t: Shadow)
    requires Holds(m, s) && ShadowGrows(s, t) && ShadowGrows(t, s)
    ensures Holds(m, t)
  {
    forall c
      ensures At(m.commitmentsMade, c) == At(t.commitmentsMade, c) && At(m.spent, c) == At(t.spent, c)
      ensures At(m.commitmentsRetired, c) == At(t.commitmentsRetired, c)
    {
      assert At(m.commitmentsMade, c) == At(s.commitmentsMade, c) && At(m.spent, c) == At(s.spent, c);
      assert At(m.commitmentsRetired, c) == At(s.commitmentsRetired, c);
      assert At(s.commitmentsMade, c) <= At(t.commitmentsMade, c) <= At(s.commitmentsMade, c);
      assert At(s.commitmentsRetired, c) <= At(t.commitmentsRetired, c) <= At(s.commitmentsRetired, c);
      assert At(s.spent, c) <= At(t.spent, c) <= At(s.spent, c);
    }
  }

  lemma BeginningIsGood(w: World)
    requires Begins(w)
    ensures Good(w)
  {
    hide WireShadow, Sound, SoundShadow, ShadowGrows, Holds;
    WireIsLevel(w.shadow);
    GrowsItself(WireShadow(w.shadow));
    LevelHolds(w.master, w.shadow, WireShadow(w.shadow));
  }

  /** The amounts of bids are not negative. */
  predicate Proper(h: Happening) {
    h.Bid? ==> Upward(h.step)
  }

  lemma LaterShadow(w: World, s: Shadow)
    requires Good(w) && SoundShadow(s) && OpenUpward(s) && ShadowGrows(w.shadow, s)
    ensures Good(w.(shadow := s))
  {
    hide Sound, SoundShadow, ShadowGrows, Holds, OpenUpward;
    forall i | 0 <= i < |w.sent| ensures ShadowGrows(w.sent[i], s) {
      GrowthComposes(w.sent[i], w.shadow, s);
    }
  }

  lemma SendIsGood(w: World)
    requires Good(w)
    ensures Good(Next(w, Send))
  {
    hide Sound, SoundShadow, ShadowGrows, Holds, OpenUpward, WireShadow, CheckShadow;
    CheckShadowIsSound(w.shadow);
    WireIsLevel(w.shadow);
    var last := WireShadow(w.shadow);
    GrowsItself(last);
    forall i | 0 <= i < |w.sent| ensures ShadowGrows(w.sent[i], last) {
      GrowthComposes(w.sent[i], w.shadow, last);
    }
  }

  lemma AcceptedHolds(s: Shadow, m: Acct)
    requires MaySync(s, m)
    ensures Holds(SyncToMaster(s, m), s) && Sound(SyncToMaster(s, m))
  {
    hide MaySync, Sound;
    SyncCompletes(s, m);
  }

  lemma LevelIfNotBehind(m: Acct, s: Shadow, t: Shadow)
    requires Holds(m, s) && MaySync(t, m)
    ensures ShadowGrows(s, t)
  {
    hide MaySync, Sound, SoundShadow;
    MaySyncIff(t, m);
    forall c
      ensures At(s.commitmentsMade, c) <= At(t.commitmentsMade, c) && At(s.spent, c) <= At(t.spent, c)
      ensures At(s.commitmentsRetired, c) <= At(t.commitmentsRetired, c)
    {
      assert At(m.commitmentsMade, c) == At(s.commitmentsMade, c) && At(m.spent, c) == At(s.spent, c);
      assert At(m.commitmentsRetired, c) == At(s.commitmentsRetired, c);
      assert At(m.commitmentsMade, c) <= At(t.commitmentsMade, c) && At(m.spent, c) <= At(t.spent, c);
      assert At(m.commitmentsRetired, c) <= At(t.commitmentsRetired, c);
    }
  }

  lemma DeliverIsGood(w: World, i: nat)
    requires Good(w)
    ensures Good(Next(w, Deliver(i)))
  {
    hide Sound, SoundShadow, ShadowGrows, Holds, OpenUpward, WireAccount, MaySync, SyncToMaster;
    if i < |w.sent| && w.master.status == ACTIVE && MaySync(w.sent[i], w.master) {
      var m := SyncToMaster(w.sent[i], w.master);
      AcceptedHolds(w.sent[i], w.master);
      if i < w.latest {
        LevelIfNotBehind(w.master, w.sent[w.latest], w.sent[i]);
        assert ShadowGrows(w.sent[i], w.sent[w.latest]);
        LevelHolds(m, w.sent[i], w.sent[w.latest]);
      }
    }
  }

  lemma ReceiveIsGood(w: World, j: nat)
    requires Good(w)
    ensures Good(Next(w, Receive(j)))
  {
    hide Sound, SoundShadow, ShadowGrows, Holds, CheckShadow, CheckInvariants;
    if j < |w.replies| && CheckShadow(w.shadow) && CheckInvariants(w.replies[j]) {
      var s := SyncFromMaster(w.shadow, w.replies[j]);
      SyncFromMasterIsSound(w.shadow, w.replies[j]);
      assert ShadowGrows(w.shadow, s) by {
        SameCountersGrow(w.shadow, s);
      }
      LaterShadow(w, s);
    }
  }

  lemma SameCountersGrow(s: Shadow, t: Shadow)
    requires t.commitmentsMade == s.commitmentsMade && t.commitmentsRetired == s.commitmentsRetired
             && t.spent == s.spent
    ensures ShadowGrows(s, t)
  {
  }

  lemma SameBidsHold(m: Acct, m': Acct, s: Shadow)
    requires Holds(m, s) && SameBids(m, m')
    ensures Holds(m', s)
  {
  }

  /** Whatever happens next, the invariant stays, and the newest accepted snapshot
      never goes back. */
  lemma StaysGood(w: World, h: Happening)
    requires Good(w) && Proper(h)
    ensures Good(Next(w, h)) && Next(w, h).latest >= w.latest && w.sent <= Next(w, h).sent
  {
    hide Good, Sound, SoundShadow, ShadowGrows, Holds, CheckShadow, CheckInvariants, MaySync, Take, Upward;
    match h {
      case Bid(step) =>
        assert SoundShadow(w.shadow) && OpenUpward(w.shadow) by {
          GoodShadow(w);
        }
        UpwardStep(w.shadow, step);
        LaterShadow(w, Take(w.shadow, step).shadow);
      case Send => SendIsGood(w);
      case Deliver(i) => DeliverIsGood(w, i);
      case Receive(j) => ReceiveIsGood(w, j);
      case Elsewhere(m) =>
        if SameBids(w.master, m) {
          OtherMaster(w, m);
        }
    }
  }

  lemma GoodShadow(w: World)
    requires Good(w)
    ensures SoundShadow(w.shadow) && OpenUpward(w.shadow)
  {
  }

  lemma OtherMaster(w: World, m: Acct)
    requires Good(w) && SameBids(w.master, m)
    ensures Good(w.(master := m))
  {
    hide Sound, SoundShadow, ShadowGrows, Holds, OpenUpward;
    SameBidsHold(w.master, m, w.sent[w.latest]);
  }

  ghost function Later(w: World, hs: seq<Happening>): World {
    if hs == [] then w else Next(Later(w, hs[..|hs| - 1]), hs[|hs| - 1])
  }

  /** On every run: the master's bid counters are at all times those of a snapshot
      that was sent, the newest accepted one, and that one never goes back. */
  lemma {:induction false} RunsStayGood(w: World, hs: seq<Happening>)
    requires Good(w) && forall h | h in hs :: Proper(h)
    ensures var w' := Later(w, hs);
            && Good(w') && w'.latest >= w.latest && w.sent <= w'.sent
            && Holds(w'.master, w'.sent[w'.latest])
            && Below(w.master.commitmentsMade, w'.master.commitmentsMade)
            && Below(w.master.commitmentsRetired, w'.master.commitmentsRetired)
            && Below(w.master.spent, w'.master.spent)
  {
    hide Next, Proper, Good, Holds;
    if hs == [] {
      assert Holds(w.master, w.sent[w.latest]) by {
        GoodMaster(w);
      }
    } else {
      var front := hs[..|hs| - 1];
      RunsStayGood(w, front);
      StaysGood(Later(w, front), hs[|hs| - 1]);
      GoodMaster(Later(w, hs));
      GoodMaster(w);
      NeverBack(w, Later(w, hs));
    }
  }

  lemma GoodMaster(w: World)
    requires Good(w)
    ensures w.latest < |w.sent| && Holds(w.master, w.sent[w.latest])
  {
  }

  lemma NeverBack(w: World, w': World)
    requires Good(w) && Good(w') && w.latest <= w'.latest && w.sent <= w'.sent
    ensures Below(w.master.commitmentsMade, w'.master.commitmentsMade)
    ensures Below(w.master.commitmentsRetired, w'.master.commitmentsRetired)
    ensures Below(w.master.spent, w'.master.spent)
  {
    hide Sound, SoundShadow, OpenUpward;
    var s, s' := w.sent[w.latest], w'.sent[w'.latest];
    assert w'.sent[w.latest] == s && ShadowGrows(w'.sent[w.latest], s');
    forall c
      ensures At(w.master.commitmentsMade, c) <= At(w'.master.commitmentsMade, c)
      ensures At(w.master.commitmentsRetired, c) <= At(w'.master.commitmentsRetired, c)
      ensures At(w.master.spent, c) <= At(w'.master.spent, c)
    {
      assert At(w.master.commitmentsMade, c) == At(s.commitmentsMade, c) && At(w.master.spent, c) == At(s.spent, c);
      assert At(w.master.commitmentsRetired, c) == At(s.commitmentsRetired, c);
      assert At(w'.master.commitmentsMade, c) == At(s'.commitmentsMade, c);
      assert At(w'.master.commitmentsRetired, c) == At(s'.commitmentsRetired, c);
      assert At(w'.master.spent, c) == At(s'.spent, c);
      assert At(s.commitmentsMade, c) <= At(s'.commitmentsMade, c) && At(s.spent, c) <= At(s'.spent, c);
      assert At(s.commitmentsRetired, c) <= At(s'.commitmentsRetired, c);
    }
  }

  // --------------------------------------------------------- single deliveries

  /** A snapshot reaching an active master is accepted exactly when the master is
      sound and the snapshot is not older than the newest accepted one, or no counter
      has moved between the two. A refused one changes nothing at all. */
  lemma AcceptedIff(w: World, i: nat)
    requires Good(w) && i < |w.sent| && w.master.status == ACTIVE
    ensures MaySync(w.sent[i], w.master)
            <==> Sound(w.master) && (i >= w.latest || ShadowGrows(w.sent[w.latest], w.sent[i]))
    ensures !MaySync(w.sent[i], w.master) ==> Next(w, Deliver(i)) == w
  {
    hide MaySync, Sound, SoundShadow, WireAccount, SyncToMaster;
    MaySyncIff(w.sent[i], w.master);
    if Sound(w.master) && ShadowGrows(w.sent[w.latest], w.sent[i]) {
      MayAccept(w.master, w.sent[w.latest], w.sent[i]);
    }
    if MaySync(w.sent[i], w.master) {
      LevelIfNotBehind(w.master, w.sent[w.latest], w.sent[i]);
    }
  }

  lemma MayAccept(m: Acct, s: Shadow, t: Shadow)
    requires Holds(m, s) && ShadowGrows(s, t) && SoundShadow(t) && Sound(m)
    ensures MaySync(t, m)
  {
    hide MaySync, Sound, SoundShadow;
    MaySyncIff(t, m);
    forall c
      ensures At(m.commitmentsMade, c) <= At(t.commitmentsMade, c) && At(m.spent, c) <= At(t.spent, c)
      ensures At(m.commitmentsRetired, c) <= At(t.commitmentsRetired, c)
    {
      assert At(m.commitmentsMade, c) == At(s.commitmentsMade, c) && At(m.spent, c) == At(s.spent, c);
      assert At(m.commitmentsRetired, c) == At(s.commitmentsRetired, c);
      assert At(s.commitmentsMade, c) <= At(t.commitmentsMade, c) && At(s.spent, c) <= At(t.spent, c);
      assert At(s.commitmentsRetired, c) <= At(t.commitmentsRetired, c);
    }
  }

  /** Delivering a snapshot that the master holds already moves no money. */
  lemma RedeliveryIsNoOp(w: World, i: nat)
    requires Good(w) && i < |w.sent| && Holds(w.master, w.sent[i])
    ensures var m := Next(w, Deliver(i)).master;
            SameCounters(m, w.master) && Same(m.balance, w.master.balance) && m.status == w.master.status
  {
    hide MaySync, Sound, SoundShadow, WireAccount, Good, SyncToMaster;
    if w.master.status == ACTIVE && MaySync(w.sent[i], w.master) {
      SyncAgain(w.master, w.sent[i]);
    }
  }

  lemma SyncAgain(m: Acct, s: Shadow)
    requires Holds(m, s)
    ensures var m' := SyncToMaster(s, m); SameCounters(m', m) && Same(m'.balance, m.balance) && m'.status == m.status
  {
    hide Add, Sub;
    var m' := SyncToMaster(s, m);
    forall c ensures At(m'.balance, c) == At(m.balance, c) {
      SyncAt(s, m, c);
      assert At(m.commitmentsMade, c) == At(s.commitmentsMade, c) && At(m.spent, c) == At(s.spent, c);
      assert At(m.commitmentsRetired, c) == At(s.commitmentsRetired, c);
    }
  }

  /** An active master that is not sound refuses every snapshot and gives no answer,
      on every run, until the banker writes to it again. */
  lemma {:induction false} UnsoundStandsStill(w: World, hs: seq<Happening>)
    requires w.master.status == ACTIVE && !Sound(w.master) && forall h | h in hs :: !h.Elsewhere?
    ensures var w' := Later(w, hs);
            w'.master == w.master && w'.replies == w.replies && w'.latest == w.latest
  {
    hide Take, CheckShadow, CheckInvariants, Sound, MaySync, WireAccount, WireShadow, SyncFromMaster, SyncToMaster;
    if hs != [] {
      var front, last := hs[..|hs| - 1], hs[|hs| - 1];
      UnsoundStandsStill(w, front);
      var v := Later(w, front);
      if last.Deliver? && last.snapshot < |v.sent| {
        MaySyncIff(v.sent[last.snapshot], v.master);
      }
    }
  }

  /** Nothing of this opens a closed master again. */
  predicate StaysClosed(h: Happening) {
    h.Elsewhere? ==> h.master.status == CLOSED
  }

  /** Answers from w on, all of which tell of the same master. */
  ghost predicate AnswersSay(w: World, w': World, m: Acct) {
    w.replies <= w'.replies && forall j | |w.replies| <= j < |w'.replies| :: w'.replies[j] == WireAccount(m)
  }

  lemma ClosedStep(w: World, h: Happening)
    requires w.master.status == CLOSED && StaysClosed(h)
    ensures var w' := Next(w, h);
            && w'.master.status == CLOSED && SameBids(w.master, w'.master) && w'.latest == w.latest
            && (!h.Elsewhere? ==> w'.master == w.master && AnswersSay(w, w', w.master))
  {
    hide Take, CheckShadow, CheckInvariants, Sound, MaySync, WireAccount, WireShadow, SyncFromMaster;
  }

  /** Once the master is closed, whatever was still under way or is sent later never
      reaches it: on every run its bid counters stand still until it is opened
      again. If nothing else writes to it either, neither does anything of it
      change, and all answers given tell of the account as it was closed. */
  lemma {:induction false} ClosedForgets(w: World, hs: seq<Happening>)
    requires w.master.status == CLOSED && forall h | h in hs :: StaysClosed(h)
    ensures var w' := Later(w, hs);
            && w'.master.status == CLOSED && SameBids(w.master, w'.master) && w'.latest == w.latest
            && ((forall h | h in hs :: !h.Elsewhere?) ==> w'.master == w.master && AnswersSay(w, w', w.master))
  {
    hide Next, WireAccount;
    if hs != [] {
      var front, last := hs[..|hs| - 1], hs[|hs| - 1];
      ClosedForgets(w, front);
      ClosedStep(Later(w, front), last);
    }
  }

  /** Whatever was lost, repeated or reordered before: one exchange with nothing in
      between, snapshot sent, delivered and its answer received, leaves both sides
      with the same counters, line items, status and balance. */
  lemma OneExchangeAgrees(w: World)
    requires Good(w) && w.master.status == ACTIVE && Sound(w.master)
    ensures var w' := Later(w, [Send, Deliver(|w.sent|), Receive(|w.replies|)]);
            && Good(w') && Holds(w'.master, w'.shadow) && Same(w'.shadow.balance, w'.master.balance)
            && SameItems(w'.master.lineItems, w'.shadow.lineItems) && w'.shadow.lineItems == w.shadow.lineItems
            && w'.shadow.commitments == w.shadow.commitments && w'.shadow.status == w'.master.status == ACTIVE
  {
    hide SameItems, Good, MaySync, Sound, SoundShadow, CheckShadow, CheckInvariants, WireShadow, WireAccount,
         SyncToMaster, SyncFromMaster, Holds, ShadowGrows;
    var hs := [Send, Deliver(|w.sent|), Receive(|w.replies|)];
    assert hs[..2] == [hs[0], hs[1]] && hs[..2][..1] == [hs[0]] && hs[..2][..1][..0] == [];
    var w1 := Next(w, Send);
    var w2 := Next(w1, Deliver(|w.sent|));
    var w3 := Next(w2, Receive(|w.replies|));
    assert Later(w, hs) == w3 by {
      assert Later(w, hs[..2][..1]) == w1;
      assert Later(w, hs[..2]) == w2;
    }
    SentIsLast(w);
    StaysGood(w, Send);
    AcceptedIff(w1, |w.sent|);
    StaysGood(w1, Deliver(|w.sent|));
    AcceptedHolds(w1.sent[|w.sent|], w1.master);
    SyncWrites(w1.sent[|w.sent|], w1.master);
    WireShadowIsSame(w.shadow);
    SameItemsAgain(w2.master.lineItems, WireShadow(w.shadow).lineItems, w.shadow.lineItems);
    SyncFromMasterWrites(w2.shadow, WireAccount(w2.master));
    WireAccountIsSame(w2.master);
    ThenReceived(w2, w.replies, w.shadow);
    StaysGood(w2, Receive(|w.replies|));
  }

  lemma SameItemsAgain(x: LineItems, y: LineItems, z: LineItems)
    requires SameItems(x, y) && SameItems(y, z)
    ensures SameItems(x, z)
  {
    forall name | name in x ensures Same(x[name], z[name]) {
      assert Same(x[name], y[name]) && Same(y[name], z[name]);
      forall c ensures At(x[name], c) == At(z[name], c) {
        assert At(x[name], c) == At(y[name], c) == At(z[name], c);
      }
    }
  }

  lemma SentIsLast(w: World)
    requires Good(w)
    ensures var w1 := Next(w, Send);
            w1 == w.(sent := w.sent + [WireShadow(w.shadow)]) && w1.latest <= |w.sent|
  {
    hide CheckShadow;
    CheckShadowIsSound(w.shadow);
  }

  lemma ThenReceived(w: World, replies: seq<Acct>, s: Shadow)
    requires Good(w) && Sound(w.master) && w.replies == replies + [WireAccount(w.master)] && w.shadow == s
    requires w.latest == |w.sent| - 1 && w.sent[w.latest] == WireShadow(s)
    ensures var w' := Next(w, Receive(|replies|));
            && w'.master == w.master && Holds(w.master, w'.shadow) && Same(w'.shadow.balance, w.master.balance)
            && w'.shadow == SyncFromMaster(s, WireAccount(w.master))
  {
    hide CheckShadow, CheckInvariants, WireShadow, WireAccount, SyncFromMaster, Ordered;
    var m, r := w.master, WireAccount(w.master);
    CheckShadowIsSound(s);
    WireAccountIsSame(m);
    CheckInvariantsIsSound(r);
    WireIsLevel(s);
    LevelHolds(m, WireShadow(s), s);
    HoldsToo(m, r, s);
    SyncFromMasterAgrees(s, r);
    var s' := SyncFromMaster(s, r);
    assert Same(s'.balance, m.balance) by {
      forall c ensures At(s'.balance, c) == At(m.balance, c) {
        assert At(s'.balance, c) == At(r.balance, c) && At(r.balance, c) == At(m.balance, c);
      }
    }
    assert Holds(m, s') by {
      SyncKeepsBids(s, r);
    }
  }

  lemma SyncKeepsBids(s: Shadow, m: Acct)
    ensures var s' := SyncFromMaster(s, m);
            s'.commitmentsMade == s.commitmentsMade && s'.commitmentsRetired == s.commitmentsRetired
            && s'.spent == s.spent
  {
  }

  lemma HoldsToo(m: Acct, r: Acct, s: Shadow)
    requires Holds(m, s) && SameCounters(r, m)
    ensures Holds(r, s)
  {
    forall c
      ensures At(r.commitmentsMade, c) == At(s.commitmentsMade, c) && At(r.spent, c) == At(s.spent, c)
      ensures At(r.commitmentsRetired, c) == At(s.commitmentsRetired, c)
    {
      assert At(r.commitmentsMade, c) == At(m.commitmentsMade, c) == At(s.commitmentsMade, c);
      assert At(r.commitmentsRetired, c) == At(m.commitmentsRetired, c) == At(s.commitmentsRetired, c);
      assert At(r.spent, c) == At(m.spent, c) == At(s.spent, c);
    }
  }
}
