/**
  Safety of the contest money over every run made of whole transactions: deposits, joins, removals and the contest
  lifecycle, in any order, with any retries, failures and clocks.
 */
module ClosedRuns {
  import opened Int64
  import opened Rows
  import opened Books
  import opened LedgerLaws
  import opened Dossiers
  import opened Moves
  import opened Economics
  import opened Admissions
  import opened Contests
  import opened Cutoff

  datatype WorldOp =
    | NewWallet(user: UserId)
    | FreezeWallet(user: UserId, on: bool)
    | NewContest(contest: ContestId, terms: Terms)
    | Close(contest: ContestId)
    | Start(contest: ContestId, now: int)
    | Pause(contest: ContestId, now: int)
    | Resume(contest: ContestId, now: int)
    | End(contest: ContestId)
    | ConfirmedDeposit(user: UserId, amount: int64, intent: IntentId)
    | JoinContest(adm: Admission, joinedAt: int, now: int)
    | Remove(adm: Admission, refund: bool)
    | Cancel(contest: ContestId)
    | Trade(adm: Admission)
    | TakeSnapshot(contest: ContestId, now: int)

  ghost function TakeCutoff(w: World, contest: ContestId, now: int): Change {
    match EnsureEconomicsCutoff(w, contest, now)
    case Accepted(s) => Change(w.(snapshots := w.snapshots[contest := s]), Ok)
    case Raised(_) => Reject(w, NotOpen)
  }

  ghost function Perform(w: World, op: WorldOp): Change {
    match op
    case NewWallet(u) => Commit(w, CreateWallet(w.books, u))
    case FreezeWallet(u, on) => Commit(w, SetFrozen(w.books, u, on))
    case NewContest(c, terms) => CreateContest(w, c, terms)
    case Close(c) => CloseContest(w, c)
    case Start(c, now) => StartContest(w, c, now)
    case Pause(c, now) => PauseContest(w, c, now)
    case Resume(c, now) => ResumeContest(w, c, now)
    case End(c) => EndContest(w, c)
    case ConfirmedDeposit(u, a, intent) => Commit(w, PostConfirmedDeposit(w.books, u, a, intent))
    case JoinContest(adm, joinedAt, now) => Join(w, adm, joinedAt, now)
    case Remove(adm, refund) => RemoveParticipant(w, adm, refund)
    case Cancel(c) => CancelContest(w, c)
    case Trade(adm) => BeginTrading(w, adm)
    case TakeSnapshot(c, now) => TakeCutoff(w, c, now)
  }

  ghost function RunWorld(w: World, ops: seq<WorldOp>): World
    decreases |ops|
  {
    if ops == [] then w else RunWorld(Perform(w, ops[0]).world, ops[1..])
  }

  // ----- The invariant -----

  predicate Live(s: Lifecycle) {
    s == Active || s == Disqualified
  }

  function FeeHeld(): Participant -> int {
    (p: Participant) => if Live(p.status) then Fees(p.charge) else 0
  }

  function PrizeHeld(c: ContestId): Participant -> int {
    (p: Participant) => if Live(p.status) && p.adm.contest == c then p.charge.prize else 0
  }

  function CreditHeld(c: ContestId): Participant -> int {
    (p: Participant) => if Live(p.status) && p.adm.contest == c && p.charge.prize > 0 then 1 else 0
  }

  predicate HasStarted(s: ContestStatus) {
    s == Running || s == Paused || s == Ended
  }

  predicate StatusOk(c: Contest) {
    (c.startedAt.Some? <==> HasStarted(c.status)) && (c.pausedAt.Some? <==> c.status == Paused)
  }

  ghost predicate ContestsOk(b: Books, contests: map<ContestId, Contest>) {
    && contests.Keys == b.pools.Keys && b.legacy == {}
    && forall c :: c in contests ==>
         0 <= contests[c].fee <= 0x7FFF_FFFF && 0 < contests[c].bps <= MAX_BPS
         && StatusOk(contests[c])
  }

  ghost predicate ParticipantOk(wallets: set<UserId>, contests: map<ContestId, Contest>, p: Participant) {
    && p.adm.contest in contests
    && p.charge == ComputeJoinCharge(contests[p.adm.contest].fee, contests[p.adm.contest].bps, p.charge.late)
    && (p.charge.total > 0 ==> p.adm.user in wallets)
  }

  ghost predicate ParticipantsOk(wallets: set<UserId>, contests: map<ContestId, Contest>, rows: seq<Participant>) {
    && (forall i :: 0 <= i < |rows| ==> ParticipantOk(wallets, contests, rows[i]))
    && (forall i, j :: 0 <= i < j < |rows| ==> rows[i].adm != rows[j].adm)
  }

  /** What the ledgers say about `adm` is what its participant row says, and nothing if there is none. */
  ghost predicate FileOk(b: Books, contests: map<ContestId, Contest>, rows: seq<Participant>, adm: Admission) {
    match Find(rows, IsParticipant(adm))
    case None => DossierOf(b, adm) == BLANK
    case Some(p) =>
      if p.row.charge.total <= 0 then DossierOf(b, adm) == BLANK
      else if Live(p.row.status) then
        adm.contest in contests && Charged(DossierOf(b, adm), adm, p.row.charge, contests[adm.contest].bps)
      else Returned(DossierOf(b, adm), adm, p.row.charge)
  }

  ghost predicate FilesOk(b: Books, contests: map<ContestId, Contest>, rows: seq<Participant>) {
    forall adm :: FileOk(b, contests, rows, adm)
  }

  /** The system accounts hold exactly the parts of the live admissions. */
  ghost predicate HeldOk(b: Books, rows: seq<Participant>) {
    && b.feeWallet == Sum(rows, FeeHeld())
    && (forall c :: c in b.pools ==> b.pools[c] == Sum(rows, PrizeHeld(c)))
    && (forall c :: |OpenCredits(b.poolLedger, c)| == Sum(rows, CreditHeld(c)))
  }

  /** Custody equals entitlements, and all custody came from outside. */
  ghost predicate Conserved(b: Books) {
    && b.treasury == Total(b.wallets)
    && b.treasury + b.feeWallet + Total(b.pools) == External(b)
  }

  /** The two halves of every deposit agree. */
  ghost predicate Matched(b: Books) {
    DepositsMatched(b.treasuryLedger, b.walletLedger)
  }

  ghost predicate Inv(w: World) {
    && Good(w.books) && Shaped(w.books) && Matched(w.books)
    && ContestsOk(w.books, w.contests)
    && ParticipantsOk(w.books.wallets.Keys, w.contests, w.participants)
    && FilesOk(w.books, w.contests, w.participants)
    && HeldOk(w.books, w.participants)
    && Conserved(w.books)
  }

  lemma EmptyInv()
    ensures Inv(EMPTY_WORLD)
  {
    EmptyGood();
    forall adm ensures FileOk(EMPTY, map[], [], adm) {
    }
  }

  lemma StatusOf(w: World, contest: ContestId)
    requires Inv(w) && contest in w.contests
    ensures StatusOk(w.contests[contest])
  {
  }

  lemma MatchedKept(b: Books, b': Books)
    requires Matched(b) && DepositsKept(b, b')
    ensures Matched(b')
  {
    KeptIsMatched(b, b');
  }

  lemma MatchedDeposit(b: Books, user: UserId, amount: int64, intent: IntentId)
    requires Matched(b)
    ensures Matched(PostConfirmedDeposit(b, user, amount, intent).books)
  {
    DepositWhole(b, user, amount, intent);
  }

  // ----- Consequences of the invariant -----

  lemma ChargeOk(w: World, p: Participant)
    requires ContestsOk(w.books, w.contests) && ParticipantOk(w.books.wallets.Keys, w.contests, p)
    ensures Balanced(p.charge) && (p.charge.total > 0 <==> w.contests[p.adm.contest].fee > 0)
  {
    var c := w.contests[p.adm.contest];
    ChargeBalances(c.fee, c.bps, p.charge.late);
  }

  /** Every balance lies between zero and total custody. */
  lemma Bounded(b: Books, user: UserId, contest: ContestId)
    requires Good(b) && Conserved(b)
    ensures 0 <= b.treasury && 0 <= b.feeWallet && b.treasury + b.feeWallet <= External(b)
    ensures user in b.wallets ==> 0 <= b.wallets[user] <= b.treasury
    ensures contest in b.pools ==>
      0 <= b.pools[contest] && b.treasury + b.feeWallet + b.pools[contest] <= External(b)
  {
    hide DepositsPositive, External, Chained, Balance;
    assert forall u :: u in b.wallets ==> b.wallets[u] >= 0;
    assert forall c :: c in b.pools ==> b.pools[c] >= 0;
    TotalNonNegative(b.pools);
    if user in b.wallets { TotalCovers(b.wallets, user); }
    if contest in b.pools { TotalCovers(b.pools, contest); }
  }

  /** The fee wallet and the pool cover each live admission's parts. */
  lemma Covered(w: World, i: nat)
    requires ContestsOk(w.books, w.contests) && HeldOk(w.books, w.participants) && i < |w.participants|
    requires ParticipantsOk(w.books.wallets.Keys, w.contests, w.participants)
    ensures var p := w.participants[i]; Live(p.status) ==>
      Fees(p.charge) <= w.books.feeWallet && p.charge.prize <= w.books.pools[p.adm.contest]
  {
    var p := w.participants[i];
    assert ParticipantOk(w.books.wallets.Keys, w.contests, p);
    forall k | 0 <= k < |w.participants|
      ensures FeeHeld()(w.participants[k]) >= 0 && PrizeHeld(p.adm.contest)(w.participants[k]) >= 0
    {
      assert ParticipantOk(w.books.wallets.Keys, w.contests, w.participants[k]);
      ChargeOk(w, w.participants[k]);
    }
    SumCovers(w.participants, i, FeeHeld());
    SumCovers(w.participants, i, PrizeHeld(p.adm.contest));
  }

  // ----- One admission moves: the invariant follows -----

  lemma MoveConserves(b: Books, b': Books, adm: Admission, c: JoinCharge, m: Move)
    requires Moved(b, b', adm, m) && Balanced(c) && (m == AdmissionMove(c) || m == Opposite(AdmissionMove(c)))
    requires adm.user in b.wallets && adm.contest in b.pools && Conserved(b)
    ensures Conserved(b')
  {
    hide Ready, External, OthersKept, CreditsShifted;
    TotalShift(b.wallets, b'.wallets, adm.user, m.wallet);
    TotalShift(b.pools, b'.pools, adm.contest, m.pool);
  }

  // ----- Joining -----

  lemma AdmitDecided(b: Books, adm: Admission, c: JoinCharge, bps: int)
    requires Good(b) && Shaped(b) && Conserved(b)
    requires DossierOf(b, adm) == BLANK && Balanced(c) && c.total > 0 && 0 < bps <= MAX_BPS
    requires adm.contest in b.pools && adm.contest !in b.legacy
    ensures var s := Admit(b, adm, ChargeOf(c, bps));
      && s.outcome == OutcomeOf(AdmissionVerdict(b, adm, c))
      && (s.outcome != Posted ==> s.books == b)
      && (s.outcome == Posted ==>
            && Moved(b, s.books, adm, AdmissionMove(c))
            && Charged(DossierOf(s.books, adm), adm, c, bps)
            && Conserved(s.books))
  {
    hide Good, Shaped, Matched, DepositsKept, Conserved, External, Moved, Charged;
    if adm.user in b.wallets {
      Bounded(b, adm.user, adm.contest);
      AdmitMoves(b, adm, c, bps);
      if Admit(b, adm, ChargeOf(c, bps)).outcome == Posted {
        MoveConserves(b, Admit(b, adm, ChargeOf(c, bps)).books, adm, c, AdmissionMove(c));
      }
    } else {
      hide PostContestFee, PostContestPrizeContribution;
    }
  }

  /** While all deposits together fit, no admission a wallet can pay lacks room. */
  lemma RoomWhenCustodyFits(b: Books, adm: Admission, c: JoinCharge)
    requires Good(b) && Conserved(b) && External(b) <= MAX_INT64 && Balanced(c)
    requires adm.user in b.wallets && adm.contest in b.pools && c.total <= b.wallets[adm.user]
    ensures RoomFor(b, adm, c)
  {
    hide Good, Conserved, External;
    Bounded(b, adm.user, adm.contest);
  }

  lemma AdmitFree(b: Books, adm: Admission, c: JoinCharge, bps: int)
    requires Balanced(c) && c.total == 0
    ensures Admit(b, adm, ChargeOf(c, bps)) == Step(b, Nothing)
  {
  }

  /** A new participant row, with the record its join left. */
  lemma JoinFiles(b: Books, b': Books, contests: map<ContestId, Contest>, rows: seq<Participant>, p: Participant)
    requires FilesOk(b, contests, rows) && Find(rows, IsParticipant(p.adm)).None?
    requires OthersKept(b, b', p.adm) && p.status == Active && p.adm.contest in contests
    requires if p.charge.total <= 0 then DossierOf(b', p.adm) == BLANK
             else Charged(DossierOf(b', p.adm), p.adm, p.charge, contests[p.adm.contest].bps)
    ensures FilesOk(b', contests, rows + [p])
  {
    hide DossierOf, Charged, Returned;
    forall a ensures FileOk(b', contests, rows + [p], a) {
      assert FileOk(b, contests, rows, a);
      FindAppend(rows, p, IsParticipant(a));
    }
  }

  lemma JoinParticipants(wallets: set<UserId>, contests: map<ContestId, Contest>, rows: seq<Participant>, p: Participant)
    requires ParticipantsOk(wallets, contests, rows) && Find(rows, IsParticipant(p.adm)).None?
    requires ParticipantOk(wallets, contests, p)
    ensures ParticipantsOk(wallets, contests, rows + [p])
  {
    hide ParticipantOk;
    FindMeaning(rows, IsParticipant(p.adm));
    assert forall i :: 0 <= i < |rows| ==> !IsParticipant(p.adm)(rows[i]);
  }

  lemma JoinHeld(b: Books, b': Books, rows: seq<Participant>, p: Participant)
    requires HeldOk(b, rows) && p.status == Active
    requires Shifted(b.pools, b'.pools, p.adm.contest, p.charge.prize)
    requires b'.feeWallet == b.feeWallet + Fees(p.charge)
    requires CreditsShifted(b.poolLedger, b'.poolLedger, p.adm.contest, if p.charge.prize > 0 then 1 else 0)
    ensures HeldOk(b', rows + [p])
  {
    hide OpenCredits;
    SumAppend(rows, p, FeeHeld());
    forall c ensures Sum(rows + [p], PrizeHeld(c)) == Sum(rows, PrizeHeld(c)) + PrizeHeld(c)(p)
      && Sum(rows + [p], CreditHeld(c)) == Sum(rows, CreditHeld(c)) + CreditHeld(c)(p)
    {
      SumAppend(rows, p, PrizeHeld(c));
      SumAppend(rows, p, CreditHeld(c));
    }
  }

  /** The charge a join would compute now. */
  function ChargeNow(w: World, adm: Admission, now: int): JoinCharge
    requires adm.contest in w.contests
  {
    var c := w.contests[adm.contest];
    ComputeJoinCharge(c.fee, c.bps, JoinAllowed(c.status, c.fee <= 0, c.lateJoin, c.CutoffAt(), now).Late?)
  }

  /** The conditions of a join, as a caller could check them beforehand. */
  function JoinVerdict(w: World, adm: Admission, now: int): Result {
    if adm.contest !in w.contests then Rejected(NoContest)
    else
      var c := w.contests[adm.contest];
      var decision := JoinAllowed(c.status, c.fee <= 0, c.lateJoin, c.CutoffAt(), now);
      if decision.Refused? then Rejected(NotOpen)
      else if Find(w.participants, IsParticipant(adm)).Some? then AlreadyJoined
      else
        var charge := ChargeNow(w, adm, now);
        if charge.total == 0 then Ok
        else if adm.contest !in w.books.pools then Rejected(NoContest)
        else match AdmissionVerdict(w.books, adm, charge)
             case Some(e) => Rejected(Money(e))
             case None => Ok
  }

  /** A new active row and, if anything was charged, exactly that admission's movement. */
  ghost predicate JoinedAs(w: World, w': World, adm: Admission, joinedAt: int, charge: JoinCharge) {
    && w' == w.(books := w'.books, participants := w.participants + [Participant(adm, joinedAt, charge, Active, false)])
    && (charge.total > 0 ==> Moved(w.books, w'.books, adm, AdmissionMove(charge)))
    && (charge.total == 0 ==> w'.books == w.books)
  }

  lemma JoinPaid(w: World, adm: Admission, joinedAt: int, charge: JoinCharge)
    requires Inv(w) && adm.contest in w.contests && Find(w.participants, IsParticipant(adm)).None?
    requires charge == ComputeJoinCharge(w.contests[adm.contest].fee, w.contests[adm.contest].bps, charge.late)
    requires charge.total > 0
    ensures var s := Admit(w.books, adm, ChargeOf(charge, w.contests[adm.contest].bps));
      && adm.contest in w.books.pools && s.outcome == OutcomeOf(AdmissionVerdict(w.books, adm, charge))
      && (s.outcome == Posted ==>
            && Moved(w.books, s.books, adm, AdmissionMove(charge))
            && Inv(w.(books := s.books, participants := w.participants + [Participant(adm, joinedAt, charge, Active, false)])))
  {
    hide Good, Shaped, Matched, DepositsKept, Conserved, DossierOf, OthersKept, CreditsShifted, HeldOk, FilesOk, ParticipantsOk, External, Charged,
      ComputeJoinCharge;
    var c := w.contests[adm.contest];
    var p := Participant(adm, joinedAt, charge, Active, false);
    ChargeBalances(c.fee, c.bps, charge.late);
    assert FileOk(w.books, w.contests, w.participants, adm) by { FilesGive(w.books, w.contests, w.participants, adm); }
    AdmitDecided(w.books, adm, charge, c.bps);
    var s := Admit(w.books, adm, ChargeOf(charge, c.bps));
    if s.outcome == Posted {
      GoodAdmit(w.books, adm, ChargeOf(charge, c.bps));
      MatchedKept(w.books, s.books);
      JoinFiles(w.books, s.books, w.contests, w.participants, p);
      JoinParticipants(w.books.wallets.Keys, w.contests, w.participants, p);
      JoinHeld(w.books, s.books, w.participants, p);
    }
  }

  lemma FilesGive(b: Books, contests: map<ContestId, Contest>, rows: seq<Participant>, adm: Admission)
    requires FilesOk(b, contests, rows)
    ensures FileOk(b, contests, rows, adm)
  {
  }

  lemma JoinFree(w: World, adm: Admission, joinedAt: int, charge: JoinCharge)
    requires Inv(w) && adm.contest in w.contests && Find(w.participants, IsParticipant(adm)).None?
    requires charge == ComputeJoinCharge(w.contests[adm.contest].fee, w.contests[adm.contest].bps, charge.late)
    requires charge.total == 0
    ensures Admit(w.books, adm, ChargeOf(charge, w.contests[adm.contest].bps)) == Step(w.books, Nothing)
    ensures Inv(w.(participants := w.participants + [Participant(adm, joinedAt, charge, Active, false)]))
  {
    hide Good, Shaped, Matched, DepositsKept, Conserved, DossierOf, HeldOk, FilesOk, ParticipantsOk, OpenCredits, ComputeJoinCharge, External, Admit;
    var c := w.contests[adm.contest];
    var p := Participant(adm, joinedAt, charge, Active, false);
    ChargeBalances(c.fee, c.bps, charge.late);
    AdmitFree(w.books, adm, charge, c.bps);
    FilesGive(w.books, w.contests, w.participants, adm);
    JoinFiles(w.books, w.books, w.contests, w.participants, p);
    JoinParticipants(w.books.wallets.Keys, w.contests, w.participants, p);
    JoinHeld(w.books, w.books, w.participants, p);
  }

  /** A join does what its caller-checkable conditions say, and moves exactly its own money. */
  lemma JoinKeeps(w: World, adm: Admission, joinedAt: int, now: int)
    requires Inv(w)
    ensures var r := Join(w, adm, joinedAt, now);
      && r.result == JoinVerdict(w, adm, now)
      && Inv(r.world)
      && (r.result == Ok ==> adm.contest in w.contests && JoinedAs(w, r.world, adm, joinedAt, ChargeNow(w, adm, now)))
      && (r.result != Ok ==> r.world == w)
  {
    hide Good, Shaped, Matched, DepositsKept, Conserved, HeldOk, FilesOk, ParticipantsOk, Admit, Moved, External, ComputeJoinCharge, DossierOf;
    if adm.contest in w.contests && Find(w.participants, IsParticipant(adm)).None? {
      var c := w.contests[adm.contest];
      var decision := JoinAllowed(c.status, c.fee <= 0, c.lateJoin, c.CutoffAt(), now);
      var charge := ComputeJoinCharge(c.fee, c.bps, decision.Late?);
      ChargeBalances(c.fee, c.bps, decision.Late?);
      if charge.total == 0 {
        JoinFree(w, adm, joinedAt, charge);
      } else {
        JoinPaid(w, adm, joinedAt, charge);
      }
    }
  }

  // ----- Removing -----

  /** A status change of one row, with the record it left. */
  lemma RemoveFiles(b: Books, b': Books, contests: map<ContestId, Contest>, rows: seq<Participant>, p: Found<Participant>,
                    row: Participant)
    requires FilesOk(b, contests, rows) && Find(rows, IsParticipant(row.adm)) == Some(p)
    requires row.adm == p.row.adm && OthersKept(b, b', row.adm)
    requires FileOk(b', contests, [row], row.adm)
    ensures FilesOk(b', contests, rows[p.id := row])
  {
    FindMeaning(rows, IsParticipant(row.adm));
    hide DossierOf, Charged, Returned;
    var rows' := rows[p.id := row];
    forall a ensures FileOk(b', contests, rows', a) {
      assert FileOk(b, contests, rows, a);
      FindUpdate(rows, p.id, row, IsParticipant(a));
    }
    assert Find([row], IsParticipant(row.adm)) == Some(Found(0, row));
  }

  lemma RemoveParticipants(wallets: set<UserId>, contests: map<ContestId, Contest>, rows: seq<Participant>, i: nat,
                           row: Participant)
    requires ParticipantsOk(wallets, contests, rows) && i < |rows| && ParticipantOk(wallets, contests, row)
    requires row.adm == rows[i].adm
    ensures ParticipantsOk(wallets, contests, rows[i := row])
  {
    hide ParticipantOk;
  }

  lemma RemoveHeld(b: Books, b': Books, rows: seq<Participant>, i: nat, row: Participant)
    requires HeldOk(b, rows) && i < |rows| && row.adm == rows[i].adm && row.charge == rows[i].charge
    requires Live(rows[i].status)
    requires var back := !Live(row.status); var p := rows[i];
      && Shifted(b.pools, b'.pools, p.adm.contest, if back then 0 - p.charge.prize else 0)
      && b'.feeWallet == b.feeWallet - (if back then Fees(p.charge) else 0)
      && CreditsShifted(b.poolLedger, b'.poolLedger, p.adm.contest, if back && p.charge.prize > 0 then -1 else 0)
    ensures HeldOk(b', rows[i := row])
  {
    hide OpenCredits;
    SumUpdate(rows, i, row, FeeHeld());
    forall c
      ensures Sum(rows[i := row], PrizeHeld(c)) == Sum(rows, PrizeHeld(c)) - PrizeHeld(c)(rows[i]) + PrizeHeld(c)(row)
      ensures Sum(rows[i := row], CreditHeld(c)) == Sum(rows, CreditHeld(c)) - CreditHeld(c)(rows[i]) + CreditHeld(c)(row)
    {
      SumUpdate(rows, i, row, PrizeHeld(c));
      SumUpdate(rows, i, row, CreditHeld(c));
    }
  }

  /** The refund of a live admission is decided by its charge and by room, and is the exact opposite of its join. */
  lemma RefundPaid(w: World, p: Found<Participant>, status: Lifecycle)
    requires Inv(w) && !Live(status)
    requires Find(w.participants, IsParticipant(p.row.adm)) == Some(p) && Live(p.row.status) && p.row.charge.total > 0
    ensures var s := ReverseContestAdmission(w.books, p.row.adm);
      && p.row.adm.user in w.books.wallets
      && s.outcome == OutcomeOf(ReversalVerdict(w.books, p.row.adm, p.row.charge))
      && (s.outcome == Posted ==>
            && Moved(w.books, s.books, p.row.adm, Opposite(AdmissionMove(p.row.charge)))
            && Inv(w.(books := s.books, participants := w.participants[p.id := p.row.(status := status)])))
  {
    hide Good, Shaped, Matched, DepositsKept, Conserved, DossierOf, OthersKept, CreditsShifted, HeldOk, FilesOk, External, Charged, Returned,
      ComputeJoinCharge, ReverseContestAdmission;
    var adm, c := p.row.adm, p.row.charge;
    FindMeaning(w.participants, IsParticipant(adm));
    assert ParticipantOk(w.books.wallets.Keys, w.contests, p.row);
    hide ParticipantsOk;
    ChargeOk(w, p.row);
    Covered(w, p.id);
    FilesGive(w.books, w.contests, w.participants, adm);
    ReverseMoves(w.books, adm, c, w.contests[adm.contest].bps);
    if ReverseContestAdmission(w.books, adm).outcome == Posted {
      GoodReverse(w.books, adm);
      RefundKeeps(w, p, ReverseContestAdmission(w.books, adm).books, status);
    }
  }

  lemma RefundKeeps(w: World, p: Found<Participant>, b': Books, status: Lifecycle)
    requires Inv(w) && Find(w.participants, IsParticipant(p.row.adm)) == Some(p)
    requires Live(p.row.status) && !Live(status) && p.row.charge.total > 0
    requires Moved(w.books, b', p.row.adm, Opposite(AdmissionMove(p.row.charge)))
    requires Returned(DossierOf(b', p.row.adm), p.row.adm, p.row.charge) && DepositsKept(w.books, b')
    ensures Inv(w.(books := b', participants := w.participants[p.id := p.row.(status := status)]))
  {
    hide Good, Shaped, Matched, DepositsKept, Conserved, DossierOf, OthersKept, CreditsShifted, HeldOk, FilesOk, External, Charged, Returned,
      ComputeJoinCharge;
    var adm, c, row := p.row.adm, p.row.charge, p.row.(status := status);
    FindMeaning(w.participants, IsParticipant(adm));
    assert ParticipantOk(w.books.wallets.Keys, w.contests, p.row);
    hide ParticipantsOk;
    ChargeOk(w, p.row);
    MatchedKept(w.books, b');
    MoveConserves(w.books, b', adm, c, Opposite(AdmissionMove(c)));
    assert Find([row], IsParticipant(adm)) == Some(Found(0, row));
    RemoveFiles(w.books, b', w.contests, w.participants, p, row);
    RemoveParticipants(w.books.wallets.Keys, w.contests, w.participants, p.id, row);
    RemoveHeld(w.books, b', w.participants, p.id, row);
  }

  /** A status change that moves no money. */
  lemma RelabelKeeps(w: World, p: Found<Participant>, row: Participant)
    requires Inv(w) && Find(w.participants, IsParticipant(row.adm)) == Some(p)
    requires row == p.row.(status := row.status, trading := row.trading)
    requires (Live(row.status) <==> Live(p.row.status)) || row.charge.total <= 0
    ensures Inv(w.(participants := w.participants[p.id := row]))
  {
    hide Good, Shaped, Matched, DepositsKept, Conserved, DossierOf, HeldOk, FilesOk, Charged, Returned, ComputeJoinCharge, OpenCredits, External;
    FindMeaning(w.participants, IsParticipant(row.adm));
    assert ParticipantOk(w.books.wallets.Keys, w.contests, p.row);
    hide ParticipantsOk;
    FilesGive(w.books, w.contests, w.participants, row.adm);
    assert Find([row], IsParticipant(row.adm)) == Some(Found(0, row));
    RemoveFiles(w.books, w.books, w.contests, w.participants, p, row);
    RemoveParticipants(w.books.wallets.Keys, w.contests, w.participants, p.id, row);
    ChargeOk(w, p.row);
    RelabelHeld(w.books, w.participants, p.id, row);
  }

  lemma RelabelHeld(b: Books, rows: seq<Participant>, i: nat, row: Participant)
    requires HeldOk(b, rows) && i < |rows| && row.adm == rows[i].adm && row.charge == rows[i].charge
    requires (Live(row.status) <==> Live(rows[i].status)) || (Fees(row.charge) == 0 && row.charge.prize == 0)
    ensures HeldOk(b, rows[i := row])
  {
    hide OpenCredits;
    SumUpdate(rows, i, row, FeeHeld());
    forall c
      ensures Sum(rows[i := row], PrizeHeld(c)) == Sum(rows, PrizeHeld(c))
      ensures Sum(rows[i := row], CreditHeld(c)) == Sum(rows, CreditHeld(c))
    {
      SumUpdate(rows, i, row, PrizeHeld(c));
      SumUpdate(rows, i, row, CreditHeld(c));
    }
  }

  /** What decides a refund: nothing for a free admission; for a paid one its prize part, and room past 64 bits. */
  function RefundVerdict(b: Books, p: Participant): Result {
    if p.charge.total <= 0 then Ok
    else if p.adm.user !in b.wallets then Rejected(Money(WalletNotFound))
    else match ReversalVerdict(b, p.adm, p.charge)
         case Some(e) => Rejected(Money(e))
         case None => Ok
  }

  /** What decides a removal, as a caller could check it beforehand. */
  function RemoveVerdict(w: World, adm: Admission, refund: bool): Result {
    if adm.contest !in w.contests then Rejected(NoContest)
    else if adm.contest in w.snapshots && refund then Rejected(CutoffTaken)
    else
      match Find(w.participants, IsParticipant(adm))
      case None => Rejected(NoParticipant)
      case Some(p) =>
        if p.row.status != Active then Rejected(Inactive)
        else if !refund then Ok
        else RefundVerdict(w.books, p.row)
  }

  /** A removal does what its caller-checkable conditions say, and a refund is the exact opposite of the join. */
  lemma RemoveKeeps(w: World, adm: Admission, refund: bool)
    requires Inv(w)
    ensures var r := RemoveParticipant(w, adm, refund);
      && r.result == RemoveVerdict(w, adm, refund)
      && Inv(r.world)
      && (r.result != Ok ==> r.world == w)
      && (r.result == Ok && refund ==> RefundedAs(w, r.world, Find(w.participants, IsParticipant(adm)).value.row))
      && (r.result == Ok ==> RemovedAs(w, r.world, adm, refund))
  {
    hide Inv, ReverseContestAdmission, Moved, ReversalVerdict;
    var found := Find(w.participants, IsParticipant(adm));
    if adm.contest in w.contests && !(adm.contest in w.snapshots && refund) && found.Some? && found.value.row.status == Active {
      var p := found.value;
      FindIs(w, adm, p);
      FindMeaning(w.participants, IsParticipant(adm));
      if !refund {
        RelabelKeeps(w, p, p.row.(status := Disqualified));
      } else if p.row.charge.total > 0 {
        RefundPaid(w, p, Refunded);
      } else {
        RelabelKeeps(w, p, p.row.(status := Refunded));
        NothingToReverse(w, p);
      }
    }
  }

  lemma FindIs(w: World, adm: Admission, p: Found<Participant>)
    requires Find(w.participants, IsParticipant(adm)) == Some(p)
    ensures p.row.adm == adm
  {
    FindMeaning(w.participants, IsParticipant(adm));
  }

  /** One row of the table was the participant's active row; it alone has a new status, and without a refund no money moved. */
  ghost predicate RemovedAs(w: World, w': World, adm: Admission, refund: bool) {
    exists i :: 0 <= i < |w.participants| && w.participants[i].adm == adm && w.participants[i].status == Active
      && w' == w.(books := w'.books,
                  participants := w.participants[i := w.participants[i].(status := if refund then Refunded else Disqualified)])
      && (!refund ==> w'.books == w.books)
  }

  /** What a refund of `p` did to the money. */
  ghost predicate RefundedAs(w: World, w': World, p: Participant) {
    if p.charge.total > 0 then Moved(w.books, w'.books, p.adm, Opposite(AdmissionMove(p.charge))) else w'.books == w.books
  }

  lemma NothingToReverse(w: World, p: Found<Participant>)
    requires Inv(w) && Find(w.participants, IsParticipant(p.row.adm)) == Some(p) && p.row.charge.total <= 0
    ensures ReverseContestAdmission(w.books, p.row.adm) == Step(w.books, Nothing)
  {
    hide Good, Shaped, Matched, DepositsKept, Conserved, HeldOk, ParticipantsOk, FilesOk, ContestsOk, Evidence;
    FilesGive(w.books, w.contests, w.participants, p.row.adm);
  }

  // ----- Cancelling -----

  /** One more participant row of a cancelled contest. */
  lemma CancelRowKeeps(w: World, contest: ContestId, i: nat)
    requires Inv(w) && i < |w.participants| && w.participants[i].adm.contest == contest && w.participants[i].status == Active
    ensures var p := w.participants[i];
      var s := ReverseContestAdmission(w.books, p.adm);
      && RefundVerdict(w.books, p) == (if s.outcome.Failed? then Rejected(Money(s.outcome.error)) else Ok)
      && (!s.outcome.Failed? ==>
            var w' := w.(books := s.books, participants := w.participants[i := p.(status := Cancelled)]);
            Inv(w') && RefundedAs(w, w', p))
  {
    hide Inv, ReverseContestAdmission, Moved, ReversalVerdict;
    var p := w.participants[i];
    OwnRow(w, i);
    if p.charge.total > 0 {
      RefundPaid(w, Found(i, p), Cancelled);
    } else {
      RelabelKeeps(w, Found(i, p), p.(status := Cancelled));
      NothingToReverse(w, Found(i, p));
    }
  }

  lemma OwnRow(w: World, i: nat)
    requires Inv(w) && i < |w.participants|
    ensures Find(w.participants, IsParticipant(w.participants[i].adm)) == Some(Found(i, w.participants[i]))
  {
    hide Good, Shaped, Matched, DepositsKept, Conserved, HeldOk, FilesOk, ContestsOk, ParticipantOk;
    var own := IsParticipant(w.participants[i].adm);
    FindMeaning(w.participants, own);
    assert own(w.participants[i]);
  }

  /** The rows before `k` as a cancellation leaves them. */
  ghost predicate CancelledRows(rows: seq<Participant>, rows': seq<Participant>, contest: ContestId, k: nat) {
    && |rows'| == |rows| >= k
    && forall i :: 0 <= i < |rows| ==>
         rows'[i] == if i < k && rows[i].adm.contest == contest && rows[i].status == Active
                     then rows[i].(status := Cancelled) else rows[i]
  }

  lemma CancelledOne(rows: seq<Participant>, rows': seq<Participant>, contest: ContestId, k: nat)
    requires CancelledRows(rows, rows', contest, k) && k < |rows|
    ensures rows'[k] == rows[k]
    ensures
      var stays := rows[k].adm.contest != contest || rows[k].status != Active;
      CancelledRows(rows, if stays then rows' else rows'[k := rows[k].(status := Cancelled)], contest, k + 1)
  {
  }

  /** Only this contest's pool may differ. */
  ghost predicate OtherPoolsKept(b: Books, b': Books, contest: ContestId) {
    b'.pools.Keys == b.pools.Keys && forall c :: c in b.pools && c != contest ==> b'.pools[c] == b.pools[c]
  }

  lemma SamePools(b: Books, contest: ContestId)
    ensures OtherPoolsKept(b, b, contest)
  {
  }

  lemma RefundKeepsPools(w: World, w': World, p: Participant)
    requires RefundedAs(w, w', p)
    ensures OtherPoolsKept(w.books, w'.books, p.adm.contest)
  {
    hide Ready, OthersKept, CreditsShifted, External;
  }

  lemma {:induction false} CancelRowsKeep(w: World, contest: ContestId, k: nat)
    requires Inv(w) && k <= |w.participants|
    ensures var r := CancelRows(w, contest, k);
      && Inv(r.world)
      && r.world == w.(books := r.world.books, participants := r.world.participants)
      && OtherPoolsKept(w.books, r.world.books, contest)
      && (r.result == Ok || r.result.Rejected?)
      && (r.result == Ok ==> CancelledRows(w.participants, r.world.participants, contest, k))
  {
    hide Inv, ReverseContestAdmission, RefundVerdict, RefundedAs, Find;
    if k > 0 {
      CancelRowsKeep(w, contest, k - 1);
      var before := CancelRows(w, contest, k - 1);
      hide CancelledRows;
      if before.result == Ok {
        var w1, p := before.world, before.world.participants[k - 1];
        CancelledOne(w.participants, w1.participants, contest, k - 1);
        if p.adm.contest == contest && p.status == Active {
          CancelRowKeeps(w1, contest, k - 1);
          var r := CancelRows(w, contest, k);
          if r.result == Ok { RefundKeepsPools(w1, r.world, p); }
        }
      }
    }
  }

  /** A cancellation keeps the invariant, touches no other contest's pool, and leaves no active participant behind. */
  lemma CancelKeeps(w: World, contest: ContestId)
    requires Inv(w)
    ensures var r := CancelContest(w, contest);
      && Inv(r.world)
      && (r.result != Ok ==> r.world == w)
      && r.world.snapshots == w.snapshots && OtherPoolsKept(w.books, r.world.books, contest)
      && (forall c :: c in w.contests && c != contest ==> c in r.world.contests && r.world.contests[c] == w.contests[c])
      && (r.result == Ok ==>
            && contest in w.contests && contest !in w.snapshots
            && (w.contests[contest].status == RegistrationOpen || w.contests[contest].status == RegistrationClosed)
            && r.world.contests == w.contests[contest := w.contests[contest].(status := CalledOff)]
            && CancelledRows(w.participants, r.world.participants, contest, |w.participants|))
  {
    hide Inv, CancelRows, CancelledRows, OtherPoolsKept;
    assert OtherPoolsKept(w.books, w.books, contest) by { SamePools(w.books, contest); }
    CancelRowsKeep(w, contest, |w.participants|);
    var r := CancelRows(w, contest, |w.participants|);
    if CancelContest(w, contest).result == Ok {
      StatusOf(w, contest);
      ContestKeeps(r.world, contest, w.contests[contest].(status := CalledOff));
    }
  }

  // ----- Depositing -----

  /** What decides a deposit, as long as total custody still fits. */
  function DepositVerdict(b: Books, user: UserId, amount: int64, intent: IntentId): Outcome {
    if amount <= 0 then Failed(NotPositive)
    else if user == "" || intent == "" then Failed(MissingIdentifier)
    else
      match Find(b.treasuryLedger, DepositOf(intent))
      case Some(t) =>
        if t.row.detail.beneficiary == user && t.row.amount == amount then AlreadyPosted else Failed(ReplayMismatch)
      case None =>
        if user !in b.wallets then Failed(WalletNotFound)
        else if user in b.frozen then Failed(WalletFrozen)
        else Posted
  }

  function DepositDetail(intent: IntentId): WalletDetail {
    WalletDetail(Deposit, IntentReference(intent), NoReason, Some(DepositKey(intent)), None)
  }

  lemma DepositDecided(b: Books, user: UserId, amount: int64, intent: IntentId)
    requires Good(b) && Conserved(b) && Matched(b)
    ensures var s := PostConfirmedDeposit(b, user, amount, intent);
      && (External(b) + amount <= MAX_INT64 ==> s.outcome == DepositVerdict(b, user, amount, intent))
      && (s.outcome != Posted ==> s.books == b)
  {
    Bounded(b, user, "");
    assert DepositMatched(b.treasuryLedger, b.walletLedger, intent);
    hide Good, Conserved, External;
  }

  lemma DepositDossiers(b: Books, w: WalletRow, t: TreasuryRow, intent: IntentId)
    requires w.detail.kind == Deposit && w.detail.key == Some(DepositKey(intent)) && t.detail.ExternalDeposit?
    ensures var b' := b.(walletLedger := b.walletLedger + [w], treasuryLedger := b.treasuryLedger + [t]);
      forall a :: DossierOf(b', a) == DossierOf(b, a)
  {
    hide FeeFileOf, PoolFileOf;
    forall a
      ensures WalletFileOf(b.walletLedger + [w], a) == WalletFileOf(b.walletLedger, a)
      ensures TreasuryFileOf(b.treasuryLedger + [t], a) == TreasuryFileOf(b.treasuryLedger, a)
    {
      WalletFileAppend(b.walletLedger, w, a);
      OtherTreasuryFile(b.treasuryLedger, t, a);
    }
  }

  /** A posted deposit adds its amount to custody and to its user, and touches no admission's record. */
  lemma DepositEffect(b: Books, user: UserId, amount: int64, intent: IntentId)
    requires Good(b) && Shaped(b) && Conserved(b)
    requires PostConfirmedDeposit(b, user, amount, intent).outcome == Posted
    ensures var b' := PostConfirmedDeposit(b, user, amount, intent).books;
      && Good(b') && Shaped(b') && Conserved(b')
      && b' == b.(wallets := b'.wallets, walletLedger := b'.walletLedger, treasury := b'.treasury,
                  treasuryLedger := b'.treasuryLedger)
      && b'.wallets.Keys == b.wallets.Keys
      && External(b') == External(b) + amount
      && forall a :: DossierOf(b', a) == DossierOf(b, a)
  {
    GoodDeposit(b, user, amount, intent);
    DepositBooks(b, user, amount, intent);
    var b' := PostConfirmedDeposit(b, user, amount, intent).books;
    var w, t := b'.walletLedger[|b.walletLedger|], b'.treasuryLedger[|b.treasuryLedger|];
    hide Good, DossierOf, PoolShape, WalletShape, PostConfirmedDeposit;
    WalletShapeAppend(b.walletLedger, w, Admission("", ""));
    SumAppend(b.treasuryLedger, t, ExternalAmount());
    TotalShift(b.wallets, b'.wallets, user, amount);
    DepositDossiers(b, w, t, intent);
    DossiersByLedgers(b', b.(walletLedger := b.walletLedger + [w], treasuryLedger := b.treasuryLedger + [t]));
  }

  lemma DossiersByLedgers(b: Books, b': Books)
    requires b.walletLedger == b'.walletLedger && b.treasuryLedger == b'.treasuryLedger
    requires b.feeLedger == b'.feeLedger && b.poolLedger == b'.poolLedger
    ensures forall a :: DossierOf(b, a) == DossierOf(b', a)
  {
    hide WalletFileOf, FeeFileOf, TreasuryFileOf, PoolFileOf;
  }

  lemma DepositBooks(b: Books, user: UserId, amount: int64, intent: IntentId)
    requires Good(b) && PostConfirmedDeposit(b, user, amount, intent).outcome == Posted
    ensures var b' := PostConfirmedDeposit(b, user, amount, intent).books;
      && amount > 0 && user in b.wallets && user !in b.frozen
      && Find(b.walletLedger, Keyed(DepositKey(intent))).None?
      && b' == b.(wallets := b'.wallets, walletLedger := b'.walletLedger, treasury := b'.treasury,
                  treasuryLedger := b'.treasuryLedger)
      && Shifted(b.wallets, b'.wallets, user, amount)
      && b'.treasury == b.treasury + amount
      && b'.walletLedger
         == b.walletLedger + [Row(UserWallet(user), amount, b'.wallets[user], DepositDetail(intent))]
      && b'.treasuryLedger == b.treasuryLedger + [Row(Treasury, amount, b'.treasury, ExternalDeposit(intent, user))]
  {
    GoodIsSound(b);
    assert 0 <= b.treasury && (user in b.wallets ==> 0 <= b.wallets[user]);
    hide Good, Sound, Find;
  }

  lemma DepositKeeps(w: World, user: UserId, amount: int64, intent: IntentId)
    requires Inv(w)
    ensures Inv(Commit(w, PostConfirmedDeposit(w.books, user, amount, intent)).world)
  {
    hide Good, Shaped, Matched, DepositsKept, Conserved, DossierOf, PostConfirmedDeposit, OpenCredits, ParticipantsOk, Charged, Returned, External;
    DepositDecided(w.books, user, amount, intent);
    MatchedDeposit(w.books, user, amount, intent);
    if PostConfirmedDeposit(w.books, user, amount, intent).outcome == Posted {
      DepositEffect(w.books, user, amount, intent);
      var b' := PostConfirmedDeposit(w.books, user, amount, intent).books;
      forall a ensures FileOk(b', w.contests, w.participants, a) {
        assert FileOk(w.books, w.contests, w.participants, a);
      }
    }
  }

  // ----- Accounts and lifecycle -----

  lemma {:induction false} SumZero<T>(rows: seq<T>, f: T -> int)
    requires forall k :: 0 <= k < |rows| ==> f(rows[k]) == 0
    ensures Sum(rows, f) == 0
  {
    if |rows| > 0 {
      SumZero(rows[..|rows| - 1], f);
    }
  }

  lemma NewWalletKeeps(w: World, user: UserId)
    requires Inv(w)
    ensures Inv(Commit(w, CreateWallet(w.books, user)).world)
  {
    hide Good, Shaped, Matched, DepositsKept, DossierOf, OpenCredits, Charged, Returned, External, ComputeJoinCharge;
    GoodCreateWallet(w.books, user);
    MatchedKept(w.books, CreateWallet(w.books, user).books);
    TotalUpdate(w.books.wallets, user, 0);
    var b' := CreateWallet(w.books, user).books;
    DossiersByLedgers(b', w.books);
    ShapedByLedgers(w.books, b');
    forall a ensures FileOk(b', w.contests, w.participants, a) {
      assert FileOk(w.books, w.contests, w.participants, a);
    }
  }

  lemma ShapedByLedgers(b: Books, b': Books)
    requires b.walletLedger == b'.walletLedger && b.poolLedger == b'.poolLedger && b.treasuryLedger == b'.treasuryLedger
    ensures Shaped(b) ==> Shaped(b')
    ensures External(b) == External(b')
  {
    hide WalletShape, PoolShape;
  }

  lemma FreezeKeeps(w: World, user: UserId, on: bool)
    requires Inv(w)
    ensures Inv(Commit(w, SetFrozen(w.books, user, on)).world)
  {
    hide Good, Shaped, Matched, DepositsKept, DossierOf, OpenCredits, Charged, Returned, External, ParticipantsOk;
    GoodSetFrozen(w.books, user, on);
    MatchedKept(w.books, SetFrozen(w.books, user, on).books);
    var b' := SetFrozen(w.books, user, on).books;
    DossiersByLedgers(b', w.books);
    ShapedByLedgers(w.books, b');
    forall a ensures FileOk(b', w.contests, w.participants, a) {
      assert FileOk(w.books, w.contests, w.participants, a);
    }
  }

  ghost predicate SameTerms(contests: map<ContestId, Contest>, contests': map<ContestId, Contest>) {
    forall c :: c in contests ==>
      c in contests' && contests'[c].fee == contests[c].fee && contests'[c].bps == contests[c].bps
  }

  /** Participants and their records depend on a contest's fee and basis points only. */
  lemma TermsKeep(b: Books, b': Books, contests: map<ContestId, Contest>, contests': map<ContestId, Contest>,
                  rows: seq<Participant>)
    requires SameTerms(contests, contests') && b.wallets == b'.wallets
    requires forall a :: DossierOf(b', a) == DossierOf(b, a)
    requires ParticipantsOk(b.wallets.Keys, contests, rows) && FilesOk(b, contests, rows)
    ensures ParticipantsOk(b'.wallets.Keys, contests', rows) && FilesOk(b', contests', rows)
  {
    hide DossierOf, Charged, Returned, ComputeJoinCharge;
    forall a ensures FileOk(b', contests', rows, a) {
      assert FileOk(b, contests, rows, a);
    }
    forall k | 0 <= k < |rows| ensures ParticipantOk(b'.wallets.Keys, contests', rows[k]) {
      assert ParticipantOk(b.wallets.Keys, contests, rows[k]);
    }
  }

  lemma NewPoolHeld(b: Books, b': Books, contests: map<ContestId, Contest>, rows: seq<Participant>, c: ContestId)
    requires HeldOk(b, rows) && ParticipantsOk(b.wallets.Keys, contests, rows) && c !in contests
    requires b'.pools == b.pools[c := 0] && b'.poolLedger == b.poolLedger && b'.feeWallet == b.feeWallet
    ensures HeldOk(b', rows)
  {
    hide OpenCredits, ComputeJoinCharge;
    forall k | 0 <= k < |rows| ensures PrizeHeld(c)(rows[k]) == 0 {
      assert ParticipantOk(b.wallets.Keys, contests, rows[k]);
    }
    SumZero(rows, PrizeHeld(c));
  }

  lemma NewContestKeeps(w: World, c: ContestId, terms: Terms)
    requires Inv(w)
    ensures Inv(CreateContest(w, c, terms).world)
  {
    hide Good, Shaped, Matched, DepositsKept, DossierOf, External, HeldOk, FilesOk, ParticipantsOk;
    if c !in w.contests {
      GoodProvisionPool(w.books, c, true);
      MatchedKept(w.books, ProvisionPool(w.books, c, true).books);
      var w' := CreateContest(w, c, terms).world;
      TotalUpdate(w.books.pools, c, 0);
      DossiersByLedgers(w'.books, w.books);
      ShapedByLedgers(w.books, w'.books);
      TermsKeep(w.books, w'.books, w.contests, w'.contests, w.participants);
      NewPoolHeld(w.books, w'.books, w.contests, w.participants, c);
    }
  }

  /** Contest changes that leave fee and basis points alone. */
  lemma ContestKeeps(w: World, c: ContestId, contest: Contest)
    requires Inv(w) && c in w.contests && contest.fee == w.contests[c].fee && contest.bps == w.contests[c].bps
    requires StatusOk(contest)
    ensures Inv(w.(contests := w.contests[c := contest]))
  {
    hide Good, Shaped, Matched, DepositsKept, DossierOf, HeldOk, FilesOk, ParticipantsOk, Conserved;
    TermsKeep(w.books, w.books, w.contests, w.contests[c := contest], w.participants);
  }

  predicate MovesStatus(op: WorldOp) {
    op.Close? || op.Start? || op.Pause? || op.Resume? || op.End?
  }

  /** The status moves of a contest, which leave money and participants alone. */
  lemma StatusKeeps(w: World, op: WorldOp)
    requires Inv(w) && MovesStatus(op)
    ensures Inv(Perform(w, op).world)
  {
    hide Inv, HasQuorum;
    StatusMoves(w, op);
    if Perform(w, op).world != w {
      ContestKeeps(w, op.contest, Perform(w, op).world.contests[op.contest]);
    }
  }

  /** A status move touches one contest's status, times and end, and nothing else. */
  lemma StatusMoves(w: World, op: WorldOp)
    requires Inv(w) && MovesStatus(op)
    ensures
      var w' := Perform(w, op).world;
      w' != w ==>
        && op.contest in w.contests && op.contest in w'.contests
        && w' == w.(contests := w.contests[op.contest := w'.contests[op.contest]])
        && StatusOk(w'.contests[op.contest])
        && var c, c' := w.contests[op.contest], w'.contests[op.contest];
           c' == c.(status := c'.status, startedAt := c'.startedAt, pausedAt := c'.pausedAt, endsAt := c'.endsAt)
           && (c.startedAt.Some? ==> c'.startedAt == c.startedAt && HasStarted(c'.status))
           && (c'.endsAt != c.endsAt ==> op.Resume?)
           && (c.status == Ended ==> c' == c)
  {
    hide Good, Shaped, Matched, Conserved, HeldOk, FilesOk, ParticipantsOk, HasQuorum;
  }

  lemma TradeKeeps(w: World, adm: Admission)
    requires Inv(w)
    ensures Inv(BeginTrading(w, adm).world)
  {
    var p := Find(w.participants, IsParticipant(adm));
    if p.Some? {
      FindMeaning(w.participants, IsParticipant(adm));
      assert ParticipantOk(w.books.wallets.Keys, w.contests, p.value.row);
      hide Inv;
      RelabelKeeps(w, p.value, p.value.row.(trading := true));
    }
  }

  // ----- Every step, every run -----

  /** Every transaction keeps the invariant: what would overflow is refused. */
  lemma PerformKeeps(w: World, op: WorldOp)
    requires Inv(w)
    ensures Inv(Perform(w, op).world)
  {
    hide Inv, Join, RemoveParticipant, CancelContest, BeginTrading, CreateContest, PostConfirmedDeposit, CreateWallet, SetFrozen,
      EnsureEconomicsCutoff, External;
    match op
    case NewWallet(u) => NewWalletKeeps(w, u);
    case FreezeWallet(u, on) => FreezeKeeps(w, u, on);
    case NewContest(c, terms) => NewContestKeeps(w, c, terms);
    case Close(c) => StatusKeeps(w, op);
    case Start(c, now) => StatusKeeps(w, op);
    case Pause(c, now) => StatusKeeps(w, op);
    case Resume(c, now) => StatusKeeps(w, op);
    case End(c) => StatusKeeps(w, op);
    case ConfirmedDeposit(u, a, intent) => DepositKeeps(w, u, a, intent);
    case JoinContest(adm, joinedAt, now) => JoinKeeps(w, adm, joinedAt, now);
    case Remove(adm, refund) => RemoveKeeps(w, adm, refund);
    case Cancel(c) => CancelKeeps(w, c);
    case Trade(adm) => TradeKeeps(w, adm);
    case TakeSnapshot(c, now) => SnapshotsKeep(w, TakeCutoff(w, c, now).world.snapshots);
  }

  lemma SnapshotsKeep(w: World, snapshots: map<ContestId, Snapshot>)
    requires Inv(w)
    ensures Inv(w.(snapshots := snapshots))
  {
    hide Good, Shaped, Matched, DepositsKept, DossierOf, HeldOk, FilesOk, ParticipantsOk, Conserved, ContestsOk;
  }

  /** So every run does. */
  lemma {:induction false} RunKeeps(w: World, ops: seq<WorldOp>)
    requires Inv(w)
    ensures Inv(RunWorld(w, ops))
    decreases |ops|
  {
    hide Inv, Perform;
    if ops != [] {
      PerformKeeps(w, ops[0]);
      RunKeeps(Perform(w, ops[0]).world, ops[1..]);
    }
  }
}
