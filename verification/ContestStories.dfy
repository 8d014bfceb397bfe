/** Runs from an empty database that show where the contest money does not do what one would expect. */
module ContestStories {
  import opened Int64
  import opened Rows
  import opened Books
  import opened LedgerLaws
  import opened Moves
  import opened Economics
  import opened Admissions
  import opened Contests
  import opened Cutoff
  import opened ClosedRuns
  import opened CutoffCompleteness
  import opened CustodyTheorems
  import opened CutoffRecovery

  /** An entry fee of 100, late joins allowed until 360, a quorum of two. */
  function TermsFor(bps: int): Terms {
    Terms(100, bps, true, 0, 3_600, 2)
  }

  function ContestRow(bps: int, endsAt: int, status: ContestStatus, startedAt: Option<int>, pausedAt: Option<int>): Contest {
    Contest(100, bps, true, 0, endsAt, 2, status, startedAt, pausedAt)
  }

  function Adm(user: UserId): Admission {
    Admission("c", user)
  }

  predicate Known(user: UserId) {
    user == "u" || user == "v" || user == "x"
  }

  /** Reached by a run: one contest, these participants, and 200 in the wallet of everyone who has not joined. */
  ghost predicate Scene(ops: seq<WorldOp>, w: World, contest: Contest, rows: seq<Participant>) {
    && Reached(ops) == w && Inv(w) && Quorate(w) && External(w.books) == 600
    && w.contests == map["c" := contest] && w.participants == rows && w.books.frozen == {}
    && forall u :: Known(u) ==> u in w.books.wallets && (NotIn(rows, u) ==> w.books.wallets[u] == 200)
  }

  predicate NotIn(rows: seq<Participant>, user: UserId) {
    forall i :: 0 <= i < |rows| ==> rows[i].adm.user != user
  }

  // ----- The opening -----

  /** Wallets with these balances, an open contest, nobody in it. */
  ghost predicate Opened(w: World, bps: int, wallets: map<UserId, int>, external: int) {
    && Inv(w) && Quorate(w) && External(w.books) == external && w.participants == [] && w.snapshots == map[]
    && w.contests == map["c" := ContestRow(bps, 3_600, RegistrationOpen, None, None)]
    && w.books.wallets == wallets && w.books.frozen == {}
  }

  lemma OpeningWorks(bps: int) returns (ops: seq<WorldOp>, w: World)
    requires 0 < bps <= 10_000
    ensures Reached(ops) == w && Opened(w, bps, map["u" := 0, "v" := 0, "x" := 0], 0) && w.books.treasuryLedger == []
  {
    hide Inv, External, Quorate;
    w := EMPTY_WORLD;
    ops := [];
    StartOk();
    ops, w := Do(ops, w, NewWallet("u"));
    ops, w := Do(ops, w, NewWallet("v"));
    ops, w := Do(ops, w, NewWallet("x"));
    ops, w := Do(ops, w, NewContest("c", TermsFor(bps)));
    NothingDeposited(w.books);
  }

  lemma StartOk()
    ensures Reached([]) == EMPTY_WORLD && Inv(EMPTY_WORLD) && Quorate(EMPTY_WORLD)
  {
    hide Inv, HasQuorum, Perform;
    EmptyInv();
  }

  lemma NothingDeposited(b: Books)
    requires b.treasuryLedger == []
    ensures External(b) == 0
  {
  }

  /** One more transaction at the end of a run. */
  lemma Do(ops: seq<WorldOp>, w: World, op: WorldOp) returns (longer: seq<WorldOp>, w': World)
    requires Reached(ops) == w && Inv(w) && Quorate(w)
    ensures longer == ops + [op] && w' == Perform(w, op).world && Reached(longer) == w' && Inv(w') && Quorate(w')
  {
    hide Inv, Quorate, Perform, RunWorld;
    RunWorldAppend(EMPTY_WORLD, ops, op);
    PerformKeeps(w, op);
    QuorateStep(w, op);
    longer, w' := ops + [op], Perform(w, op).world;
  }

  lemma DepositWorks(ops: seq<WorldOp>, w: World, bps: int, wallets: map<UserId, int>, external: int, user: UserId, intent: IntentId)
    returns (longer: seq<WorldOp>, w': World)
    requires Reached(ops) == w && Opened(w, bps, wallets, external) && 0 <= external <= 400 && user != "" && intent != ""
    requires user in wallets && wallets[user] == 0 && Find(w.books.treasuryLedger, DepositOf(intent)).None?
    ensures Reached(longer) == w' && Opened(w', bps, wallets[user := 200], external + 200)
    ensures forall i :: i != intent ==> Find(w'.books.treasuryLedger, DepositOf(i)) == Find(w.books.treasuryLedger, DepositOf(i))
  {
    hide Inv, Quorate, External, PostConfirmedDeposit, Find, Good, Shaped, Matched, Conserved;
    longer, w' := Do(ops, w, ConfirmedDeposit(user, 200, intent));
    BooksOf(w);
    DepositDecided(w.books, user, 200, intent);
    DepositBooks(w.books, user, 200, intent);
    DepositEffect(w.books, user, 200, intent);
    DepositPosted(w.books, user, 200, intent);
    assert w'.books.wallets == wallets[user := 200];
  }

  lemma BooksOf(w: World)
    requires Inv(w)
    ensures Good(w.books) && Shaped(w.books) && Conserved(w.books) && Matched(w.books)
  {
  }

  lemma Funded(bps: int) returns (ops: seq<WorldOp>, w: World)
    requires 0 < bps <= 10_000
    ensures Scene(ops, w, ContestRow(bps, 3_600, RegistrationOpen, None, None), []) && w.snapshots == map[]
  {
    hide Inv, Quorate, External, Known, Find;
    ops, w := OpeningWorks(bps);
    NoDeposits(w.books);
    var m := map["u" := 0, "v" := 0, "x" := 0];
    ops, w := DepositWorks(ops, w, bps, m, 0, "u", "i");
    ops, w := DepositWorks(ops, w, bps, m["u" := 200], 200, "v", "j");
    ops, w := DepositWorks(ops, w, bps, m["u" := 200]["v" := 200], 400, "x", "k");
    EveryoneHas200(w, bps, m);
  }

  lemma NoDeposits(b: Books)
    requires b.treasuryLedger == []
    ensures forall i :: Find(b.treasuryLedger, DepositOf(i)).None?
  {
  }

  lemma EveryoneHas200(w: World, bps: int, m: map<UserId, int>)
    requires m.Keys == {"u", "v", "x"} && Opened(w, bps, m["u" := 200]["v" := 200]["x" := 200], 600)
    ensures forall u :: Known(u) ==> u in w.books.wallets && w.books.wallets[u] == 200
  {
    hide Inv, Quorate, External;
  }

  // ----- Joining and moving the status -----

  function Row(user: UserId, joinedAt: int, bps: int, late: bool): Participant {
    Participant(Adm(user), joinedAt, ComputeJoinCharge(100, bps, late), Active, false)
  }

  lemma ChargeOfHundred(bps: int, late: bool)
    requires 0 < bps <= 10_000
    ensures var c := ComputeJoinCharge(100, bps, late);
      && c.surcharge == (if late then 10 else 0) && c.total == 100 + c.surcharge && Balanced(c) && c.late == late
      && (c.prize == 0 <==> bps == 10_000)
  {
    ChargeBalances(100, bps, late);
    PrizeIff(100, bps, late);
    hide SplitEntryFee;
  }

  lemma JoinScene(ops: seq<WorldOp>, w: World, contest: Contest, rows: seq<Participant>, user: UserId, joinedAt: int, now: int)
    returns (longer: seq<WorldOp>, w': World)
    requires Scene(ops, w, contest, rows) && Known(user) && NotIn(rows, user)
    requires contest == ContestRow(contest.bps, contest.endsAt, contest.status, contest.startedAt, contest.pausedAt)
    requires 0 < contest.bps <= 10_000
    requires contest.status == RegistrationOpen || (contest.status == Running && now < contest.CutoffAt())
    ensures longer == ops + [JoinContest(Adm(user), joinedAt, now)] && Perform(w, JoinContest(Adm(user), joinedAt, now)) == Change(w', Ok)
    ensures ChargeNow(w, Adm(user), now) == ComputeJoinCharge(100, contest.bps, contest.status.Running?)
    ensures Scene(longer, w', contest, rows + [Row(user, joinedAt, contest.bps, contest.status.Running?)])
    ensures w'.snapshots == w.snapshots
  {
    hide Inv, Quorate, External, Join, ComputeJoinCharge, Moved, Find;
    var adm, late := Adm(user), contest.status.Running?;
    var charge := ComputeJoinCharge(100, contest.bps, late);
    longer, w' := Do(ops, w, JoinContest(adm, joinedAt, now));
    ChargeOfHundred(contest.bps, late);
    NobodyYet(rows, user);
    assert ChargeNow(w, adm, now) == charge;
    RoomFor600(w, adm, charge);
    JoinKeeps(w, adm, joinedAt, now);
    MovedBalances(w.books, w'.books, adm, AdmissionMove(charge));
    KeptFrozen(w.books, w'.books, adm, AdmissionMove(charge));
    var row := Row(user, joinedAt, contest.bps, late);
    forall u | Known(u)
      ensures u in w'.books.wallets && (NotIn(rows + [row], u) ==> w'.books.wallets[u] == 200)
    {
      if NotIn(rows + [row], u) { FewerRows(rows, row, u); }
    }
  }

  lemma FewerRows(rows: seq<Participant>, row: Participant, u: UserId)
    requires NotIn(rows + [row], u)
    ensures NotIn(rows, u) && row.adm.user != u
  {
    assert forall i :: 0 <= i < |rows| ==> (rows + [row])[i] == rows[i];
    assert (rows + [row])[|rows|] == row;
  }

  lemma NobodyYet(rows: seq<Participant>, user: UserId)
    requires NotIn(rows, user)
    ensures Find(rows, IsParticipant(Adm(user))).None?
  {
    FindMeaning(rows, IsParticipant(Adm(user)));
  }

  lemma RoomFor600(w: World, adm: Admission, charge: JoinCharge)
    requires Inv(w) && External(w.books) == 600 && adm.user in w.books.wallets && adm.contest in w.contests
    requires Balanced(charge) && charge.total <= w.books.wallets[adm.user]
    ensures adm.contest in w.books.pools && RoomFor(w.books, adm, charge)
  {
    hide External, FilesOk, HeldOk, ParticipantsOk;
    RoomWhenCustodyFits(w.books, adm, charge);
  }

  lemma KeptFrozen(b: Books, b': Books, adm: Admission, m: Move)
    requires Moved(b, b', adm, m)
    ensures b'.frozen == b.frozen
  {
    hide Ready, OthersKept, CreditsShifted, External, Shifted;
  }

  lemma TwoIn(rows: seq<Participant>)
    requires |rows| >= 2 && rows[0].adm.contest == "c" && rows[1].adm.contest == "c"
    ensures Count(rows, InContest("c")) >= 2
  {
    CountAdvances(rows[..2], rows, "c");
    assert rows[..2][..1][..0] == [] && rows[..2][..1] == [rows[0]];
  }

  lemma StatusScene(ops: seq<WorldOp>, w: World, contest: Contest, rows: seq<Participant>, op: WorldOp, contest': Contest)
    returns (longer: seq<WorldOp>, w': World)
    requires Scene(ops, w, contest, rows) && MovesStatus(op) && op.contest == "c"
    requires Perform(w, op).world == w.(contests := w.contests["c" := contest'])
    ensures longer == ops + [op] && Scene(longer, w', contest', rows) && w'.snapshots == w.snapshots
    ensures w' == Perform(w, op).world
  {
    hide Inv, Quorate, External, Perform;
    longer, w' := Do(ops, w, op);
    assert w'.contests == map["c" := contest'];
  }

  /** Two on-time participants, and the contest under way. */
  function Underway(bps: int): Contest {
    ContestRow(bps, 3_600, Running, Some(5), None)
  }

  function TwoRows(bps: int): seq<Participant> {
    [Row("v", 1, bps, false)] + [Row("x", 2, bps, false)]
  }

  lemma Started(bps: int) returns (ops: seq<WorldOp>, w: World)
    requires 0 < bps <= 10_000
    ensures Scene(ops, w, Underway(bps), TwoRows(bps)) && w.snapshots == map[]
  {
    hide Inv, Quorate, External, ComputeJoinCharge, Count;
    ops, w := Funded(bps);
    var open := ContestRow(bps, 3_600, RegistrationOpen, None, None);
    ops, w := JoinScene(ops, w, open, [], "v", 1, 1);
    assert [] + [Row("v", 1, bps, false)] == [Row("v", 1, bps, false)];
    ops, w := JoinScene(ops, w, open, [Row("v", 1, bps, false)], "x", 2, 2);
    ops, w := StatusScene(ops, w, open, TwoRows(bps), Close("c"), open.(status := RegistrationClosed));
    TwoIn(TwoRows(bps));
    ops, w := StatusScene(ops, w, open.(status := RegistrationClosed), TwoRows(bps), Start("c", 5), Underway(bps));
  }

  // ----- The straddling join -----

  /** The row is from before the start, the charge from after it. */
  function StraddlingRows(): seq<Participant> {
    TwoRows(2_000) + [Row("u", 4, 2_000, true)]
  }

  /**
    A run, every step of which succeeds, whose due cutoff is refused for want of evidence. The cutoff can still be taken;
    once the straddling participant is disqualified instead of refunded, it never can.
   */
  lemma StraddleBlocks() returns (ops: seq<WorldOp>)
    ensures
      var w := Reached(ops);
      && w.participants == StraddlingRows()
      && EnsureEconomicsCutoff(w, "c", 360) == Raised(AdmissionEvidence)
      && (exists more :: "c" in RunWorld(w, more).snapshots)
      && forall more :: "c" !in RunWorld(Perform(w, Remove(Adm("u"), false)).world, more).snapshots
  {
    hide Inv, Quorate, External, ComputeJoinCharge, EnsureEconomicsCutoff, RunWorld, Perform;
    var w;
    ops, w := Started(2_000);
    NewcomerU(2_000);
    ops, w := JoinScene(ops, w, Underway(2_000), TwoRows(2_000), "u", 4, 6);
    StraddleAudited(ops, w);
  }

  lemma NewcomerU(bps: int)
    ensures NotIn(TwoRows(bps), "u")
  {
    hide ComputeJoinCharge, SplitEntryFee, LateJoinSurchargeCents, Wrap, Quo;
  }

  lemma StraddleAudited(ops: seq<WorldOp>, w: World)
    requires Scene(ops, w, Underway(2_000), StraddlingRows()) && w.snapshots == map[]
    ensures EnsureEconomicsCutoff(w, "c", 360) == Raised(AdmissionEvidence)
    ensures exists more :: "c" in RunWorld(w, more).snapshots
    ensures forall more :: "c" !in RunWorld(Perform(w, Remove(Adm("u"), false)).world, more).snapshots
  {
    hide Inv, Quorate, External, RunWorld, ComputeJoinCharge, EnsureEconomicsCutoff;
    SplitBalances(100, 2_000);
    HundredPrize(2_000);
    StraddleIsLate(Underway(2_000), 2_000);
    var rows := StraddlingRows();
    assert rows[2] == Row("u", 4, 2_000, true);
    CutoffIffTimed(w, "c", 360);
    SnapshotReachableIff(w, "c");
    OwnRow(w, 2);
    var w' := Perform(w, Remove(Adm("u"), false)).world;
    PerformKeeps(w, Remove(Adm("u"), false));
    assert w' == w.(participants := rows[2 := rows[2].(status := Disqualified)]);
    assert StuckAt(w', "c", 2);
    forall more ensures "c" !in RunWorld(w', more).snapshots {
      StuckForever(w', "c", 2, more);
    }
  }

  lemma HundredPrize(bps: int)
    requires 0 < bps < 10_000
    ensures SplitEntryFee(100, bps).1 > 0
  {
    PrizeIff(100, bps, false);
  }

  /** Charged late, timed before the start: no deadline helps. The on-time rows are timed. */
  lemma StraddleIsLate(c: Contest, bps: int)
    requires c == Underway(bps) && 0 < bps <= 10_000
    ensures !TimedAsCharged(TermsIn(c), Row("u", 4, bps, true)) && !TimedAsCharged(BestTerms(c), Row("u", 4, bps, true))
    ensures forall i :: 0 <= i < 2 ==> TimedAsCharged(TermsIn(c), TwoRows(bps)[i]) && TimedAsCharged(BestTerms(c), TwoRows(bps)[i])
  {
    hide ComputeJoinCharge, SplitEntryFee, LateJoinSurchargeCents, Wrap, Quo;
    ChargeOfHundred(bps, true);
    ChargeOfHundred(bps, false);
  }

  // ----- The join after the snapshot -----

  lemma SnapshotScene(ops: seq<WorldOp>, w: World, contest: Contest, rows: seq<Participant>, now: int)
    returns (longer: seq<WorldOp>, w': World)
    requires Scene(ops, w, contest, rows) && w.snapshots == map[] && contest.startedAt.Some? && contest.CutoffAt() <= now
    requires contest.fee > 0 && SplitEntryFee(contest.fee, contest.bps).1 > 0 && AllTimed(w, "c", TermsIn(contest))
    ensures longer == ops + [TakeSnapshot("c", now)] && Scene(longer, w', contest, rows) && Frozen(w', "c")
  {
    hide Inv, Quorate, External, EnsureEconomicsCutoff, SplitEntryFee, AllTimed, Balance, GrossFitsIn;
    longer, w' := Do(ops, w, TakeSnapshot("c", now));
    GrossWithinCustody(w, "c", TermsIn(contest));
    CutoffIffTimed(w, "c", now);
    SnapshotFreezes(w, "c", now);
  }

  lemma TwoTimed(w: World, c: Contest)
    requires c.startedAt == Some(5) && c == ContestRow(2_000, 3_600, c.status, Some(5), c.pausedAt) && w.participants == TwoRows(2_000)
    ensures AllTimed(w, "c", TermsIn(c))
  {
    hide ComputeJoinCharge, SplitEntryFee, LateJoinSurchargeCents, Wrap, Quo, TimedAsCharged;
    StraddleIsLate(Underway(2_000), 2_000);
    assert TermsIn(c) == TermsIn(Underway(2_000));
  }

  /**
    A contest is paused, its cutoff taken while it is paused, and then resumed: the pause moves the deadline past the
    snapshot, and a join that the clock of the first deadline would have refused pays into the frozen pool.
   */
  lemma ResumeThaws() returns (before: seq<WorldOp>, after: seq<WorldOp>)
    ensures Frozen(Reached(before), "c") && Reached(before).contests["c"].CutoffAt() == 360
    ensures after == [Resume("c", 378), JoinContest(Adm("u"), 384, 384)]
    ensures PaysInDuring(Reached(before), after, "c") && !Frozen(RunWorld(Reached(before), after), "c")
  {
    hide Inv, Quorate, External, ComputeJoinCharge, RunWorld, Perform, SplitEntryFee, HasQuorum, Frozen, PaysIn;
    var w;
    before, w := Started(2_000);
    HundredPrize(2_000);
    var paused := ContestRow(2_000, 3_600, Paused, Some(5), Some(60));
    PauseMoves(w);
    before, w := StatusScene(before, w, Underway(2_000), TwoRows(2_000), Pause("c", 60), paused);
    TwoTimed(w, paused);
    before, w := SnapshotScene(before, w, paused, TwoRows(2_000), 360);
    after := [Resume("c", 378), JoinContest(Adm("u"), 384, 384)];
    Thaws(before, w);
  }

  lemma PauseMoves(w: World)
    requires w.contests == map["c" := Underway(2_000)]
    ensures Perform(w, Pause("c", 60)).world == w.(contests := w.contests["c" := ContestRow(2_000, 3_600, Paused, Some(5), Some(60))])
  {
  }

  lemma Thaws(ops: seq<WorldOp>, w: World)
    requires Scene(ops, w, ContestRow(2_000, 3_600, Paused, Some(5), Some(60)), TwoRows(2_000)) && Frozen(w, "c")
    ensures var after := [Resume("c", 378), JoinContest(Adm("u"), 384, 384)];
      PaysInDuring(w, after, "c") && !Frozen(RunWorld(w, after), "c")
  {
    hide Inv, Quorate, External, ComputeJoinCharge, RunWorld, Count;
    var after := [Resume("c", 378), JoinContest(Adm("u"), 384, 384)];
    var running := ContestRow(2_000, 3_918, Running, Some(5), None);
    TwoIn(TwoRows(2_000));
    var longer, w1 := StatusScene(ops, w, ContestRow(2_000, 3_600, Paused, Some(5), Some(60)), TwoRows(2_000), after[0], running);
    NewcomerU(2_000);
    var longest, w2 := JoinScene(longer, w1, running, TwoRows(2_000), "u", 384, 384);
    ChargeOfHundred(2_000, true);
    assert PaysIn(w1, after[1], "c");
    assert after[1..][0] == after[1];
    assert PaysInDuring(w1, after[1..], "c");
    assert Perform(w, after[0]).world == w1;
    FrozenIff(w, after, "c");
  }

  // ----- The paid join without a prize part -----

  /** In a contest that leaves nothing to the pool a paid join can neither be refunded nor cancelled. */
  lemma PoolFreeJoinIsStuck() returns (ops: seq<WorldOp>)
    ensures
      var w := Reached(ops);
      && w.participants == [Row("u", 1, 10_000, false)]
      && Perform(w, Remove(Adm("u"), true)).result == Rejected(Money(PoolUnmoved))
      && Perform(w, Cancel("c")).result == Rejected(Money(PoolUnmoved))
  {
    hide *;
    var w;
    ops, w := PoolFreeJoin(10_000);
  }

  lemma PoolFreeJoin(bps: int) returns (ops: seq<WorldOp>, w: World)
    requires bps == 10_000
    ensures Reached(ops) == w && w.participants == [Row("u", 1, bps, false)]
    ensures Perform(w, Remove(Adm("u"), true)).result == Rejected(Money(PoolUnmoved))
    ensures Perform(w, Cancel("c")).result == Rejected(Money(PoolUnmoved))
  {
    hide Inv, Quorate, External, ComputeJoinCharge, RunWorld, Perform, ChargeNow, Row;
    var w0;
    ops, w0 := Funded(bps);
    var open := ContestRow(bps, 3_600, RegistrationOpen, None, None);
    ops, w := JoinScene(ops, w0, open, [], "u", 1, 1);
    assert [] + [Row("u", 1, bps, false)] == [Row("u", 1, bps, false)];
    PoolFreeRefund(w0, w, bps);
    HundredIsPoolFree(bps);
    PoolFreeCancel(w, Row("u", 1, bps, false));
  }

  lemma PoolFreeRefund(w0: World, w: World, bps: int)
    requires Inv(w0) && "c" in w0.contests && w0.contests["c"].fee == 100 && w0.contests["c"].bps == bps == 10_000
    requires w0.snapshots == map[] && Perform(w0, JoinContest(Adm("u"), 1, 1)) == Change(w, Ok)
    ensures Perform(w, Remove(Adm("u"), true)).result == Rejected(Money(PoolUnmoved))
  {
    hide Inv, Join, RemoveParticipant;
    JoinThenRefundRestores(w0, Adm("u"), 1, 1);
  }

  lemma HundredWithoutPrize(bps: int)
    requires bps == 10_000
    ensures var c := ComputeJoinCharge(100, bps, false); c.total > 0 && c.prize == 0
  {
    hide *;
    ChargeOfHundred(bps, false);
  }

  lemma WithoutPrizeIsPoolFree(bps: int, charge: JoinCharge)
    requires charge == ComputeJoinCharge(100, bps, false) && charge.total > 0 && charge.prize == 0
    ensures PoolFreeRow(Row("u", 1, bps, false), "c")
  {
    hide ComputeJoinCharge;
  }

  lemma HundredIsPoolFree(bps: int)
    requires bps == 10_000
    ensures PoolFreeRow(Row("u", 1, bps, false), "c")
  {
    hide ComputeJoinCharge, PoolFreeRow, Row;
    HundredWithoutPrize(bps);
    WithoutPrizeIsPoolFree(bps, ComputeJoinCharge(100, bps, false));
  }

  lemma PoolFreeCancel(w: World, p: Participant)
    requires Inv(w) && External(w.books) == 600 && w.snapshots == map[]
    requires w.participants == [p] && PoolFreeRow(p, "c")
    requires "c" in w.contests && w.contests["c"].status == RegistrationOpen
    ensures Perform(w, Cancel("c")).result == Rejected(Money(PoolUnmoved))
  {
    hide Inv, External, CancelContest, PoolFreeRow;
    assert PoolFreeRow(w.participants[0], "c");
    CancelDecides(w, "c");
  }
}
