/**
  What each contest transaction does to the tables, said outright: its exact condition, the exact refusal otherwise,
  the rows and balances it changes, and that nothing else changes.
 */
module ContestEffects {
  import opened Int64
  import opened Rows
  import opened Books
  import opened LedgerLaws
  import opened Moves
  import opened Economics
  import opened Admissions
  import opened Contests
  import opened Cutoff
  import opened ClosedRuns
  import opened CustodyTheorems

  // ----- Joining -----

  ghost predicate OnTheList(w: World, adm: Admission) {
    exists i :: 0 <= i < |w.participants| && w.participants[i].adm == adm
  }

  lemma ListedIsFound(w: World, adm: Admission)
    ensures OnTheList(w, adm) <==> Find(w.participants, IsParticipant(adm)).Some?
  {
    FindMeaning(w.participants, IsParticipant(adm));
    if OnTheList(w, adm) {
      var i :| 0 <= i < |w.participants| && w.participants[i].adm == adm;
      assert IsParticipant(adm)(w.participants[i]);
    }
  }

  /** Open for registration, or running, paid, open to late joins and early enough. */
  predicate TakesJoins(c: Contest, now: int) {
    || c.status == RegistrationOpen
    || (c.status == Running && c.fee > 0 && c.lateJoin && InLateWindow(now, c.startsAt, c.endsAt))
  }

  /** In every world, reachable or not. */
  lemma JoinRefusedIff(w: World, adm: Admission, joinedAt: int, now: int)
    ensures var r := Join(w, adm, joinedAt, now);
      if adm.contest !in w.contests then r == Change(w, Rejected(NoContest))
      else if !TakesJoins(w.contests[adm.contest], now) then r == Change(w, Rejected(NotOpen))
      else if OnTheList(w, adm) then r == Change(w, AlreadyJoined)
      else r.result == Ok || (r.world == w && r.result.Rejected? && r.result.problem.Money?)
  {
    hide OnTheList, Find, Admit, ComputeJoinCharge, InLateWindow, LateJoinCutoff;
    if adm.contest in w.contests {
      var c := w.contests[adm.contest];
      LateWindowIff(now, c.startsAt, c.endsAt);
      ListedIsFound(w, adm);
    }
  }

  /** What a paid join did: the whole charge left the wallet and the Treasury for the Fee Wallet and the pool. */
  ghost predicate PaidIn(b: Books, b': Books, adm: Admission, c: JoinCharge) {
    && adm.user in b.wallets && adm.user in b'.wallets && adm.contest in b.pools && adm.contest in b'.pools
    && b'.wallets == b.wallets[adm.user := b'.wallets[adm.user]] && b'.wallets[adm.user] == b.wallets[adm.user] - c.total
    && b'.treasury == b.treasury - c.total
    && b'.feeWallet == b.feeWallet + c.platform + c.surcharge
    && b'.pools == b.pools[adm.contest := b'.pools[adm.contest]] && b'.pools[adm.contest] == b.pools[adm.contest] + c.prize
    && b'.frozen == b.frozen && b'.legacy == b.legacy
  }

  lemma MovedPaysIn(b: Books, b': Books, adm: Admission, c: JoinCharge)
    requires Moved(b, b', adm, AdmissionMove(c)) && adm.user in b.wallets && adm.contest in b.pools && Balanced(c)
    ensures PaidIn(b, b', adm, c)
  {
    hide Ready, External, OthersKept, CreditsShifted;
    assert b'.wallets == b.wallets[adm.user := b'.wallets[adm.user]];
    assert b'.pools == b.pools[adm.contest := b'.pools[adm.contest]];
  }

  /** What stops a join that the contest takes: the user's wallet, then room in the system accounts. */
  function PaymentProblem(b: Books, adm: Admission, c: JoinCharge): Option<Error>
    requires adm.contest in b.pools
  {
    if c.baseEntry == 0 then None
    else if adm.user !in b.wallets then Some(WalletNotFound)
    else if adm.user in b.frozen then Some(WalletFrozen)
    else if b.wallets[adm.user] < c.total then Some(InsufficientBalance)
    else if b.feeWallet + c.platform + c.surcharge > MAX_INT64 || b.pools[adm.contest] + c.prize > MAX_INT64 then
      Some(BalanceOverflow)
    else None
  }

  /** A join that the contest takes, of someone new, with the charge in figures: late exactly while the contest runs. */
  lemma JoinEffect(w: World, adm: Admission, joinedAt: int, now: int, charge: JoinCharge)
    requires Inv(w) && adm.contest in w.contests && TakesJoins(w.contests[adm.contest], now) && !OnTheList(w, adm)
    requires var c := w.contests[adm.contest]; ChargeIs(charge, c.fee, c.bps, c.status == Running)
    ensures adm.contest in w.books.pools
    ensures
      var r, problem := Join(w, adm, joinedAt, now), PaymentProblem(w.books, adm, charge);
      if problem.Some? then r == Change(w, Rejected(Money(problem.value)))
      else
        && r.result == Ok
        && r.world == w.(books := r.world.books,
                         participants := w.participants + [Participant(adm, joinedAt, charge, Active, false)])
        && (if w.contests[adm.contest].fee > 0 then PaidIn(w.books, r.world.books, adm, charge) else r.world.books == w.books)
  {
    hide Inv, Join, ComputeJoinCharge, ChargeIs, InLateWindow, LateJoinCutoff, Find, OnTheList, Moved, PaidIn;
    var c := w.contests[adm.contest];
    PoolOf(w, adm.contest);
    LateWindowIff(now, c.startsAt, c.endsAt);
    ListedIsFound(w, adm);
    JoinKeeps(w, adm, joinedAt, now);
    ChargeExact(c.fee, c.bps, c.status == Running, charge);
    ChargeBalances(c.fee, c.bps, c.status == Running);
    if c.fee > 0 && PaymentProblem(w.books, adm, charge).None? {
      MovedPaysIn(w.books, Join(w, adm, joinedAt, now).world.books, adm, charge);
    }
  }

  lemma PoolOf(w: World, contest: ContestId)
    requires Inv(w) && contest in w.contests
    ensures contest in w.books.pools && 0 <= w.contests[contest].fee <= 0x7FFF_FFFF && 0 < w.contests[contest].bps <= 10_000
  {
  }

  // ----- Removing -----

  /** What a refund did: the whole charge went back to the wallet and the Treasury. */
  ghost predicate PaidBack(b: Books, b': Books, adm: Admission, c: JoinCharge) {
    && adm.user in b.wallets && adm.user in b'.wallets && adm.contest in b.pools && adm.contest in b'.pools
    && b'.wallets == b.wallets[adm.user := b'.wallets[adm.user]] && b'.wallets[adm.user] == b.wallets[adm.user] + c.total
    && b'.treasury == b.treasury + c.total
    && b'.feeWallet == b.feeWallet - c.platform - c.surcharge
    && b'.pools == b.pools[adm.contest := b'.pools[adm.contest]] && b'.pools[adm.contest] == b.pools[adm.contest] - c.prize
    && b'.frozen == b.frozen && b'.legacy == b.legacy
  }

  lemma MovedPaysBack(b: Books, b': Books, adm: Admission, c: JoinCharge)
    requires Moved(b, b', adm, Opposite(AdmissionMove(c))) && adm.user in b.wallets && adm.contest in b.pools && Balanced(c)
    ensures PaidBack(b, b', adm, c)
  {
    hide Ready, External, OthersKept, CreditsShifted;
    assert b'.wallets == b.wallets[adm.user := b'.wallets[adm.user]];
    assert b'.pools == b.pools[adm.contest := b'.pools[adm.contest]];
  }

  lemma RowFacts(w: World, i: nat)
    requires Inv(w) && i < |w.participants|
    ensures var p := w.participants[i];
      && p.adm.contest in w.contests && p.adm.contest in w.books.pools && Balanced(p.charge)
      && (p.charge.total > 0 ==> p.adm.user in w.books.wallets)
  {
    assert ParticipantOk(w.books.wallets.Keys, w.contests, w.participants[i]);
    ChargeOk(w, w.participants[i]);
  }

  /** What stops the refund of a charge: room past 64 bits, or a pool account that would not move. */
  function RefundProblem(b: Books, p: Participant): Option<Error>
    requires p.charge.total > 0 ==> p.adm.user in b.wallets
  {
    if p.charge.total <= 0 then None
    else if b.wallets[p.adm.user] + p.charge.total > MAX_INT64 then Some(BalanceOverflow)
    else if b.treasury + p.charge.total > MAX_INT64 then Some(CheckViolation)
    else if p.charge.prize == 0 then Some(PoolUnmoved)
    else None
  }

  ghost predicate RefundPaidOut(b: Books, b': Books, p: Participant) {
    if p.charge.total > 0 then PaidBack(b, b', p.adm, p.charge) else b' == b
  }

  /** Removing the participant of one row. */
  lemma RemoveEffect(w: World, i: nat, refund: bool)
    requires Inv(w) && i < |w.participants|
    ensures var p := w.participants[i];
      && p.adm.contest in w.contests && (p.charge.total > 0 ==> p.adm.user in w.books.wallets)
      && var r := RemoveParticipant(w, p.adm, refund);
         if p.adm.contest in w.snapshots && refund then r == Change(w, Rejected(CutoffTaken))
         else if p.status != Active then r == Change(w, Rejected(Inactive))
         else if !refund then
           r == Change(w.(participants := w.participants[i := p.(status := Disqualified)]), Ok)
         else if RefundProblem(w.books, p).Some? then r == Change(w, Rejected(Money(RefundProblem(w.books, p).value)))
         else
           && r.result == Ok
           && r.world == w.(books := r.world.books, participants := w.participants[i := p.(status := Refunded)])
           && RefundPaidOut(w.books, r.world.books, p)
  {
    hide Inv, RemoveParticipant, Moved, PaidBack, Find;
    var p := w.participants[i];
    RowFacts(w, i);
    OwnRow(w, i);
    RemoveKeeps(w, p.adm, refund);
    var r := RemoveParticipant(w, p.adm, refund);
    if r.result == Ok {
      var k :| 0 <= k < |w.participants| && w.participants[k].adm == p.adm && w.participants[k].status == Active
        && r.world == w.(books := r.world.books,
             participants := w.participants[k := w.participants[k].(status := if refund then Refunded else Disqualified)])
        && (!refund ==> r.world.books == w.books);
      OnlyRow(w, i, k);
      if refund && p.charge.total > 0 { MovedPaysBack(w.books, r.world.books, p.adm, p.charge); }
    }
  }

  lemma OnlyRow(w: World, i: nat, k: nat)
    requires Inv(w) && i < |w.participants| && k < |w.participants| && w.participants[i].adm == w.participants[k].adm
    ensures i == k
  {
  }

  /** Removing someone without a row, or from a contest that does not exist. */
  lemma RemoveUnknown(w: World, adm: Admission, refund: bool)
    requires !OnTheList(w, adm)
    ensures RemoveParticipant(w, adm, refund) == Change(w, Rejected(
      if adm.contest !in w.contests then NoContest
      else if adm.contest in w.snapshots && refund then CutoffTaken
      else NoParticipant))
  {
    hide Find, OnTheList, ReverseContestAdmission;
    ListedIsFound(w, adm);
  }

  // ----- Cancelling -----

  /** What a cancellation owes: to a user, and from the fee wallet and the pool. */
  function Owed(contest: ContestId, user: UserId): Participant -> int {
    (p: Participant) => if p.adm.contest == contest && p.status == Active && p.adm.user == user then p.charge.total else 0
  }

  function FeesOwed(contest: ContestId): Participant -> int {
    (p: Participant) => if p.adm.contest == contest && p.status == Active then p.charge.platform + p.charge.surcharge else 0
  }

  function PrizesOwed(contest: ContestId): Participant -> int {
    (p: Participant) => if p.adm.contest == contest && p.status == Active then p.charge.prize else 0
  }

  /** Every active participant among the first `k` rows has been paid back in full, out of the accounts that took it. */
  ghost predicate AllPaidBack(b: Books, b': Books, contest: ContestId, rows: seq<Participant>) {
    && b'.wallets.Keys == b.wallets.Keys
    && (forall u :: u in b.wallets ==> b'.wallets[u] == b.wallets[u] + Sum(rows, Owed(contest, u)))
    && b'.feeWallet == b.feeWallet - Sum(rows, FeesOwed(contest))
    && b'.pools.Keys == b.pools.Keys
    && (forall c :: c in b.pools ==> b'.pools[c] == b.pools[c] - (if c == contest then Sum(rows, PrizesOwed(contest)) else 0))
  }

  lemma PaidBackOne(b: Books, b1: Books, b2: Books, contest: ContestId, rows: seq<Participant>, p: Participant)
    requires AllPaidBack(b, b1, contest, rows) && Balanced(p.charge)
    requires if p.adm.contest == contest && p.status == Active then RefundPaidOut(b1, b2, p) else b2 == b1
    ensures AllPaidBack(b, b2, contest, rows + [p])
  {
    SumAppend(rows, p, FeesOwed(contest));
    SumAppend(rows, p, PrizesOwed(contest));
    forall u ensures Sum(rows + [p], Owed(contest, u)) == Sum(rows, Owed(contest, u)) + Owed(contest, u)(p) {
      SumAppend(rows, p, Owed(contest, u));
    }
    hide Sum;
  }

  lemma {:induction false} RowsPaidBack(w: World, contest: ContestId, k: nat)
    requires Inv(w) && k <= |w.participants|
    ensures var r := CancelRows(w, contest, k);
      r.result == Ok ==> AllPaidBack(w.books, r.world.books, contest, w.participants[..k])
  {
    hide Inv, ReverseContestAdmission, RefundVerdict, Moved, AllPaidBack, PaidBack, CancelledRows, OtherPoolsKept;
    if k == 0 {
      NothingOwed(w.books, contest);
    } else {
      RowsPaidBack(w, contest, k - 1);
      CancelRowsKeep(w, contest, k - 1);
      var before := CancelRows(w, contest, k - 1);
      var r := CancelRows(w, contest, k);
      if r.result == Ok {
        var w1 := before.world;
        CancelledOne(w.participants, w1.participants, contest, k - 1);
        var p := w1.participants[k - 1];
        RowFacts(w1, k - 1);
        if p.adm.contest == contest && p.status == Active {
          CancelRowKeeps(w1, contest, k - 1);
          if p.charge.total > 0 { MovedPaysBack(w1.books, r.world.books, p.adm, p.charge); }
        }
        PaidBackOne(w.books, w1.books, r.world.books, contest, w.participants[..k - 1], p);
        assert w.participants[..k] == w.participants[..k - 1] + [p];
      }
    }
  }

  lemma NothingOwed(b: Books, contest: ContestId)
    ensures AllPaidBack(b, b, contest, [])
  {
  }

  function CalledOffRow(contest: ContestId, p: Participant): Participant {
    if p.adm.contest == contest && p.status == Active then p.(status := Cancelled) else p
  }

  /** A cancellation calls off this contest alone and pays everyone active in it back, to the cent, from the accounts that took it. */
  lemma CancelEffect(w: World, contest: ContestId)
    requires Inv(w) && CancelContest(w, contest).result == Ok
    ensures contest in w.contests && contest !in w.snapshots
    ensures var c, w' := w.contests[contest], CancelContest(w, contest).world;
      && (c.status == RegistrationOpen || c.status == RegistrationClosed)
      && w'.contests == w.contests[contest := c.(status := CalledOff)] && w'.snapshots == w.snapshots
      && |w'.participants| == |w.participants|
      && (forall i :: 0 <= i < |w.participants| ==> w'.participants[i] == CalledOffRow(contest, w.participants[i]))
      && AllPaidBack(w.books, w'.books, contest, w.participants)
  {
    hide Inv, CancelRows, AllPaidBack;
    CancelKeeps(w, contest);
    CancelRowsKeep(w, contest, |w.participants|);
    RowsPaidBack(w, contest, |w.participants|);
    assert w.participants[..|w.participants|] == w.participants;
  }

  /** Trading marks the participant's row, once there is one. */
  lemma TradeEffect(w: World, adm: Admission)
    requires Inv(w)
    ensures var r := BeginTrading(w, adm);
      && (!OnTheList(w, adm) ==> r == Change(w, Rejected(NoParticipant)))
      && forall i :: 0 <= i < |w.participants| && w.participants[i].adm == adm ==>
           r == Change(w.(participants := w.participants[i := w.participants[i].(trading := true)]), Ok)
  {
    hide Inv, Find;
    ListedIsFound(w, adm);
    forall i | 0 <= i < |w.participants| && w.participants[i].adm == adm
      ensures Find(w.participants, IsParticipant(adm)) == Some(Found(i, w.participants[i]))
    {
      OwnRow(w, i);
    }
  }

  // ----- Creating a contest and moving its status -----

  lemma CreateEffect(w: World, contest: ContestId, terms: Terms)
    requires Inv(w)
    ensures var r := CreateContest(w, contest, terms);
      if contest in w.contests then r == Change(w, Rejected(ContestExists))
      else
        && r.result == Ok
        && r.world == w.(contests := w.contests[contest := r.world.contests[contest]],
                         books := w.books.(pools := w.books.pools[contest := 0]))
        && var c := r.world.contests[contest];
           && c == Contest(terms.fee, c.bps, terms.lateJoin, terms.startsAt, terms.endsAt, terms.minParticipants,
                           RegistrationOpen, None, None)
           && c.bps == if 0 < terms.bps <= 10_000 then terms.bps else 2_000
  {
    hide Good, Shaped, Matched, Conserved, HeldOk, FilesOk, ParticipantsOk;
  }

  /** The transitions a contest may make. */
  const MOVES: set<(ContestStatus, ContestStatus)> :=
    {(RegistrationOpen, RegistrationClosed), (RegistrationClosed, Running), (Running, Paused), (Paused, Running),
     (Running, Ended), (Paused, Ended)}

  function Target(op: WorldOp): ContestStatus
    requires MovesStatus(op)
  {
    if op.Close? then RegistrationClosed
    else if op.Pause? then Paused
    else if op.End? then Ended
    else Running
  }

  /** A start or a resume needs the first one, or two or more for a paid contest. */
  ghost predicate EnoughRows(w: World, contest: ContestId)
    requires contest in w.contests
  {
    var n := Count(w.participants, InContest(contest));
    n >= 1 && (w.contests[contest].fee > 0 ==> n >= 2 && n >= w.contests[contest].minParticipants)
  }

  lemma MoveEffect(w: World, op: WorldOp)
    requires Inv(w) && MovesStatus(op) && op.contest in w.contests
    ensures
      var c, r := w.contests[op.contest], Perform(w, op);
      var allowed := (c.status, Target(op)) in MOVES && (op.Start? ==> c.status == RegistrationClosed)
        && (op.Resume? ==> c.status == Paused) && (Target(op) == Running ==> EnoughRows(w, op.contest));
      && (!allowed ==> r == Change(w, Rejected(NotOpen)))
      && (allowed ==>
            && r.result == Ok && op.contest in r.world.contests
            && r.world == w.(contests := w.contests[op.contest := r.world.contests[op.contest]])
            && MovedTo(c, r.world.contests[op.contest], op))
  {
    hide Inv, Count;
    StatusOf(w, op.contest);
  }

  /** Fee, share, late joins, start time and quorum stay; only a resume moves the end, by as long as the pause lasted. */
  predicate MovedTo(c: Contest, c': Contest, op: WorldOp)
    requires MovesStatus(op)
  {
    && c'.status == Target(op)
    && c'.fee == c.fee && c'.bps == c.bps && c'.lateJoin == c.lateJoin && c'.startsAt == c.startsAt
    && c'.minParticipants == c.minParticipants
    && c'.startedAt == (if op.Start? then Some(op.now) else c.startedAt)
    && c'.pausedAt == (if op.Pause? then Some(op.now) else None)
    && (op.Resume? ==> c.pausedAt.Some? && c'.endsAt - c.endsAt == op.now - c.pausedAt.value)
    && (!op.Resume? ==> c'.endsAt == c.endsAt)
  }
}
