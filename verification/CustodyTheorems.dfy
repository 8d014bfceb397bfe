/**
  The promises of the contest money, over every run from an empty database.
 */
module CustodyTheorems {
  import opened Int64
  import opened Rows
  import opened Books
  import opened LedgerLaws
  import opened Moves
  import opened Economics
  import opened Admissions
  import opened Contests
  import opened Cutoff
  import opened ClosedRuns
  import opened CutoffCompleteness

  /** The world after a run from scratch. */
  ghost function Reached(ops: seq<WorldOp>): World {
    RunWorld(EMPTY_WORLD, ops)
  }

  /** All confirmed deposits together fit in 64 bits. */
  ghost predicate CustodyFits(ops: seq<WorldOp>) {
    External(Reached(ops).books) <= MAX_INT64
  }

  lemma ReachedInv(ops: seq<WorldOp>)
    ensures Inv(Reached(ops))
  {
    hide Inv, RunWorld;
    EmptyInv();
    RunKeeps(EMPTY_WORLD, ops);
  }

  /**
    Conservation: the Treasury holds exactly what users are entitled to, and Treasury, Fee Wallet and Prize Pools
    together hold exactly what was deposited from outside, in every run.
   */
  lemma Conservation(ops: seq<WorldOp>)
    ensures var b := Reached(ops).books;
      && b.treasury == Total(b.wallets)
      && b.treasury + b.feeWallet + Total(b.pools) == External(b)
  {
    ReachedInv(ops);
    hide Reached, External;
  }

  /** No balance is ever negative or larger than total custody; so while custody fits, no addition of balances wraps. */
  lemma BalancesWithinCustody(ops: seq<WorldOp>, user: UserId, contest: ContestId)
    ensures var b := Reached(ops).books;
      && 0 <= b.treasury <= External(b) && 0 <= b.feeWallet <= External(b)
      && (user in b.wallets ==> 0 <= b.wallets[user] <= External(b))
      && (contest in b.pools ==> 0 <= b.pools[contest] <= External(b))
  {
    ReachedInv(ops);
    Bounded(Reached(ops).books, user, contest);
    hide Reached, External, Good;
  }

  /** The errors that blame the caller or the user; every other money error accuses the books. */
  predicate BlamesCaller(e: Error) {
    e in {NotPositive, MissingIdentifier, ReplayMismatch, WalletNotFound, WalletFrozen, InsufficientBalance}
  }

  /** An active paid participant of the contest, among the first `k` rows, that contributed nothing to the pool. */
  ghost predicate PoolFree(w: World, contest: ContestId, k: nat) {
    exists i :: 0 <= i < k <= |w.participants| && PoolFreeRow(w.participants[i], contest)
  }

  predicate PoolFreeRow(p: Participant, contest: ContestId) {
    p.adm.contest == contest && p.status == Active && p.charge.total > 0 && p.charge.prize == 0
  }

  /** Refunds that the trigger on the pool account refuses: of a paid admission without a prize part. */
  ghost predicate RefundsPoolFree(w: World, op: WorldOp) {
    match op
    case Remove(adm, refund) =>
      refund && exists i :: 0 <= i < |w.participants| && PoolFreeRow(w.participants[i], adm.contest) && w.participants[i].adm == adm
    case Cancel(contest) => PoolFree(w, contest, |w.participants|)
    case _ => false
  }

  /**
    In every reachable world whose deposits fit, the accounting error branches are dead: no step fails for want of
    Treasury funds, for a half-posted movement, an overflow, a negative reversal or a reversal that does not reconcile.
    What is left blames the caller, or is the refund of an admission without a prize part.
   */
  lemma AccountingErrorsUnreachable(ops: seq<WorldOp>, op: WorldOp)
    requires CustodyFits(ops)
    requires op.ConfirmedDeposit? ==> External(Reached(ops).books) + op.amount <= MAX_INT64
    ensures var r := Perform(Reached(ops), op).result;
      r.Rejected? && r.problem.Money? ==>
        BlamesCaller(r.problem.error) || (r.problem.error == PoolUnmoved && RefundsPoolFree(Reached(ops), op))
  {
    hide Inv, Perform, External, RunWorld, BlamesCaller, RefundsPoolFree;
    ReachedInv(ops);
    StepErrors(Reached(ops), op);
  }

  lemma StepErrors(w: World, op: WorldOp)
    requires Inv(w) && External(w.books) <= MAX_INT64
    requires op.ConfirmedDeposit? ==> External(w.books) + op.amount <= MAX_INT64
    ensures var r := Perform(w, op).result;
      r.Rejected? && r.problem.Money? ==>
        BlamesCaller(r.problem.error) || (r.problem.error == PoolUnmoved && RefundsPoolFree(w, op))
  {
    hide Inv, Join, RemoveParticipant, CancelContest, PostConfirmedDeposit, EnsureEconomicsCutoff, External, CreateContest,
      BlamesCaller, PoolFree;
    match op
    case ConfirmedDeposit(u, a, intent) => DepositErrors(w, u, a, intent);
    case JoinContest(adm, joinedAt, now) => JoinErrors(w, adm, joinedAt, now);
    case Remove(adm, refund) => RemoveErrors(w, adm, refund);
    case Cancel(contest) => CancelErrors(w, contest);
    case NewContest(c, terms) => NewContestErrors(w, c, terms);
    case _ =>
  }

  lemma NewContestErrors(w: World, c: ContestId, terms: Terms)
    ensures var r := CreateContest(w, c, terms).result; r.Rejected? ==> !r.problem.Money?
  {
  }

  lemma DepositErrors(w: World, user: UserId, amount: int64, intent: IntentId)
    requires Inv(w) && External(w.books) + amount <= MAX_INT64
    ensures var r := Commit(w, PostConfirmedDeposit(w.books, user, amount, intent)).result;
      r.Rejected? && r.problem.Money? ==> BlamesCaller(r.problem.error)
  {
    InvGives(w);
    hide Inv, PostConfirmedDeposit, External, Good, Matched, Conserved;
    DepositDecided(w.books, user, amount, intent);
  }

  lemma JoinErrors(w: World, adm: Admission, joinedAt: int, now: int)
    requires Inv(w) && External(w.books) <= MAX_INT64
    ensures var r := Join(w, adm, joinedAt, now).result;
      r.Rejected? && r.problem.Money? ==> BlamesCaller(r.problem.error)
  {
    hide Inv, Join, External, JoinedAs, ChargeNow, RoomFor, BlamesCaller;
    JoinKeeps(w, adm, joinedAt, now);
    BlamedErrors();
    if adm.contest in w.contests && adm.contest in w.books.pools && adm.user in w.books.wallets {
      var charge := ChargeNow(w, adm, now);
      ChargeNowBalanced(w, adm, now);
      InvGives(w);
      if charge.total <= w.books.wallets[adm.user] { RoomWhenCustodyFits(w.books, adm, charge); }
    }
  }

  lemma BlamedErrors()
    ensures BlamesCaller(WalletNotFound) && BlamesCaller(WalletFrozen) && BlamesCaller(InsufficientBalance)
  {
  }

  lemma ChargeNowBalanced(w: World, adm: Admission, now: int)
    requires Inv(w) && adm.contest in w.contests
    ensures Balanced(ChargeNow(w, adm, now))
  {
    var c := w.contests[adm.contest];
    ChargeBalances(c.fee, c.bps, ChargeNow(w, adm, now).late);
  }

  /** While custody fits, a refund is refused only for want of a prize part. */
  lemma RefundWhenCustodyFits(w: World, i: nat)
    requires Inv(w) && External(w.books) <= MAX_INT64 && i < |w.participants| && Live(w.participants[i].status)
    ensures
      var p := w.participants[i];
      RefundVerdict(w.books, p) == if p.charge.total > 0 && p.charge.prize == 0 then Rejected(Money(PoolUnmoved)) else Ok
  {
    var p := w.participants[i];
    assert ParticipantOk(w.books.wallets.Keys, w.contests, p);
    ChargeOk(w, p);
    Covered(w, i);
    hide Good, Conserved, External, HeldOk, FilesOk, ParticipantsOk;
    Bounded(w.books, p.adm.user, p.adm.contest);
  }

  lemma RemoveErrors(w: World, adm: Admission, refund: bool)
    requires Inv(w) && External(w.books) <= MAX_INT64
    ensures var r := RemoveParticipant(w, adm, refund).result;
      r.Rejected? && r.problem.Money? ==> r.problem.error == PoolUnmoved && RefundsPoolFree(w, Remove(adm, refund))
  {
    hide Inv, RemoveParticipant, External, Moved, RefundVerdict, RefundedAs;
    RemoveKeeps(w, adm, refund);
    var p := Find(w.participants, IsParticipant(adm));
    if p.Some? && p.value.row.status == Active {
      FindMeaning(w.participants, IsParticipant(adm));
      RefundWhenCustodyFits(w, p.value.id);
    }
  }

  /** What decides a cancellation while custody fits: the contest's status, the cutoff, and its participants' prize parts. */
  ghost function CancelVerdict(w: World, contest: ContestId): Result {
    if contest !in w.contests then Rejected(NoContest)
    else if w.contests[contest].status == CalledOff then AlreadyCancelled
    else if contest in w.snapshots then Rejected(CutoffTaken)
    else if w.contests[contest].status != RegistrationOpen && w.contests[contest].status != RegistrationClosed then
      Rejected(NotOpen)
    else if PoolFree(w, contest, |w.participants|) then Rejected(Money(PoolUnmoved))
    else Ok
  }

  lemma CancelDecides(w: World, contest: ContestId)
    requires Inv(w) && External(w.books) <= MAX_INT64
    ensures CancelContest(w, contest).result == CancelVerdict(w, contest)
  {
    hide Inv, CancelRows, External, PoolFree;
    CancelDecided(w, contest, |w.participants|);
  }

  lemma CancelErrors(w: World, contest: ContestId)
    requires Inv(w) && External(w.books) <= MAX_INT64
    ensures var r := CancelContest(w, contest).result;
      r.Rejected? && r.problem.Money? ==> r.problem.error == PoolUnmoved && PoolFree(w, contest, |w.participants|)
  {
    hide Inv, CancelContest, External, PoolFree;
    CancelDecides(w, contest);
  }

  lemma PoolFreeStep(w: World, contest: ContestId, k: nat)
    requires k < |w.participants|
    ensures PoolFree(w, contest, k + 1) <==> PoolFree(w, contest, k) || PoolFreeRow(w.participants[k], contest)
  {
    if PoolFreeRow(w.participants[k], contest) { assert PoolFree(w, contest, k + 1); }
  }

  /** A cancellation goes through unless some active paid participant contributed nothing to the pool. */
  lemma {:induction false} CancelDecided(w: World, contest: ContestId, k: nat)
    requires Inv(w) && External(w.books) <= MAX_INT64 && k <= |w.participants|
    ensures var r := CancelRows(w, contest, k);
      && External(r.world.books) == External(w.books)
      && r.result == if PoolFree(w, contest, k) then Rejected(Money(PoolUnmoved)) else Ok
  {
    hide Inv, External, ReverseContestAdmission, RefundVerdict, CancelledRows, OtherPoolsKept, RefundedAs, PoolFree;
    if k > 0 {
      CancelDecided(w, contest, k - 1);
      CancelRowsKeep(w, contest, k - 1);
      PoolFreeStep(w, contest, k - 1);
      var before := CancelRows(w, contest, k - 1);
      if before.result == Ok {
        var w1 := before.world;
        CancelledOne(w.participants, w1.participants, contest, k - 1);
        var p := w1.participants[k - 1];
        if p.adm.contest == contest && p.status == Active {
          CancelRowKeeps(w1, contest, k - 1);
          RefundWhenCustodyFits(w1, k - 1);
          if RefundVerdict(w1.books, p) == Ok { RefundKeepsExternal(w1, CancelRows(w, contest, k).world, p); }
        }
      }
    } else {
      NoRows(w, contest);
    }
  }

  lemma NoRows(w: World, contest: ContestId)
    ensures !PoolFree(w, contest, 0)
  {
  }

  lemma RefundKeepsExternal(w: World, w': World, p: Participant)
    requires RefundedAs(w, w', p)
    ensures External(w'.books) == External(w.books)
  {
    hide Ready, OthersKept, CreditsShifted, External, Shifted;
  }

  lemma InvGives(w: World)
    requires Inv(w)
    ensures Good(w.books) && Conserved(w.books) && Matched(w.books)
  {
  }

  /**
    Completeness of the audit after any run: a due cutoff of a paid contest with a prize part is accepted exactly when
    its live admissions are timed as charged (and their entry fees fit in 64 bits, which they do while all deposits
    fit); it then counts them and finds the pool in custody and ledger alike.
   */
  lemma CutoffAfterRun(ops: seq<WorldOp>, contest: ContestId, now: int)
    requires var w := Reached(ops);
      && contest in w.contests && contest !in w.snapshots && w.contests[contest].startedAt.Some?
      && w.contests[contest].CutoffAt() <= now && w.contests[contest].fee > 0
      && SplitEntryFee(w.contests[contest].fee, w.contests[contest].bps).1 > 0
    ensures var w := Reached(ops);
      var r := EnsureEconomicsCutoff(w, contest, now);
      && (r.Accepted? <==> AllTimed(w, contest, TermsIn(w.contests[contest])) && GrossFitsIn(w, contest))
      && (CustodyFits(ops) ==> GrossFitsIn(w, contest))
      && (r.Accepted? ==>
            && r.value.joined == Count(w.participants, InContest(contest))
            && r.value.economic == Sum(w.participants, LiveIn(contest))
            && r.value.eligible == Count(w.participants, TradingIn(contest))
            && r.value.gross == r.value.economic * w.contests[contest].fee == r.value.platformFee + r.value.prizePool
            && r.value.prizePool == w.books.pools[contest] == Balance(w.books.poolLedger, PrizePool(contest)))
  {
    hide RunWorld, Inv, External, EnsureEconomicsCutoff, AllTimed, SplitEntryFee, Balance, GrossFitsIn;
    ReachedInv(ops);
    CutoffIffTimed(Reached(ops), contest, now);
    if CustodyFits(ops) { GrossWithinCustody(Reached(ops), contest, TermsIn(Reached(ops).contests[contest])); }
  }

  // ----- Join, then refund -----

  ghost predicate SameBalances(b: Books, b': Books) {
    b'.wallets == b.wallets && b'.pools == b.pools && b'.treasury == b.treasury && b'.feeWallet == b.feeWallet
  }

  /**
    Joining and being refunded before the cutoff leaves every balance of every account as it was. The refund succeeds
    exactly when the contest is free or leaves something to the pool; otherwise the pool account's trigger refuses it.
   */
  lemma JoinThenRefundRestores(w: World, adm: Admission, joinedAt: int, now: int)
    requires Inv(w) && Join(w, adm, joinedAt, now).result == Ok && adm.contest !in w.snapshots
    ensures var w1 := Join(w, adm, joinedAt, now).world;
      var r := RemoveParticipant(w1, adm, true);
      && adm.contest in w.contests
      && r.result == (if w.contests[adm.contest].fee > 0 && w.contests[adm.contest].bps == 10_000
                      then Rejected(Money(PoolUnmoved)) else Ok)
      && (r.result == Ok ==> SameBalances(w.books, r.world.books))
  {
    hide Inv, Join, RemoveParticipant, ComputeJoinCharge, Moved, External, RefundVerdict;
    JoinKeeps(w, adm, joinedAt, now);
    var w1 := Join(w, adm, joinedAt, now).world;
    var charge := ChargeNow(w, adm, now);
    var p := Participant(adm, joinedAt, charge, Active, false);
    FindAppend(w.participants, p, IsParticipant(adm));
    ChargeNowTerms(w, adm, now);
    RemoveKeeps(w1, adm, true);
    BackFromJoin(w, w1, p);
    if charge.total > 0 && charge.prize > 0 {
      MovedBalances(w.books, w1.books, adm, AdmissionMove(charge));
      var b2 := RemoveParticipant(w1, adm, true).world.books;
      MovedBalances(w1.books, b2, adm, Opposite(AdmissionMove(charge)));
      ShiftedBack(w.books.wallets, w1.books.wallets, b2.wallets, adm.user, AdmissionMove(charge).wallet);
      ShiftedBack(w.books.pools, w1.books.pools, b2.pools, adm.contest, AdmissionMove(charge).pool);
    }
  }

  /** Whoever just paid has room to be paid back. */
  lemma BackFromJoin(w: World, w1: World, p: Participant)
    requires Inv(w) && JoinedAs(w, w1, p.adm, p.joinedAt, p.charge) && Balanced(p.charge)
    requires p.charge.total > 0 ==> p.adm.user in w.books.wallets
    ensures RefundVerdict(w1.books, p) == if p.charge.total > 0 && p.charge.prize == 0 then Rejected(Money(PoolUnmoved)) else Ok
  {
    hide Inv, Ready, OthersKept, CreditsShifted, External;
  }

  lemma ChargeNowTerms(w: World, adm: Admission, now: int)
    requires Inv(w) && adm.contest in w.contests
    ensures var c := ChargeNow(w, adm, now);
      && Balanced(c) && (c.total > 0 <==> w.contests[adm.contest].fee > 0)
      && (c.total > 0 ==> (c.prize == 0 <==> w.contests[adm.contest].bps == 10_000))
  {
    var row := w.contests[adm.contest];
    ChargeBalances(row.fee, row.bps, ChargeNow(w, adm, now).late);
    if row.fee > 0 { PrizeIff(row.fee, row.bps, ChargeNow(w, adm, now).late); }
  }

  lemma MovedBalances(b: Books, b': Books, adm: Admission, m: Move)
    requires Moved(b, b', adm, m)
    ensures Shifted(b.wallets, b'.wallets, adm.user, m.wallet) && Shifted(b.pools, b'.pools, adm.contest, m.pool)
    ensures b'.treasury == b.treasury + m.treasury && b'.feeWallet == b.feeWallet + m.fee
    ensures External(b') == External(b)
  {
    hide Ready, OthersKept, CreditsShifted, Shifted;
  }

  lemma ShiftedBack<K(!new)>(m: map<K, int>, m1: map<K, int>, m2: map<K, int>, k: K, d: int)
    requires Shifted(m, m1, k, d) && Shifted(m1, m2, k, -d)
    ensures m2 == m
  {
  }

  // ----- The frozen figures -----

  /** The snapshot was taken of a started contest, and its pool is what custody holds. */
  ghost predicate Frozen(w: World, contest: ContestId) {
    && contest in w.snapshots && contest in w.contests && contest in w.books.pools
    && w.contests[contest].startedAt.Some?
    && w.snapshots[contest].prizePool == w.books.pools[contest]
  }

  lemma SnapshotFreezes(w: World, contest: ContestId, now: int)
    requires TakeCutoff(w, contest, now).result == Ok && contest !in w.snapshots
    ensures Frozen(TakeCutoff(w, contest, now).world, contest)
  {
    var c := w.contests[contest];
    var terms := CutoffContest(c.fee, c.bps, c.lateJoin, c.CutoffAt(), c.startedAt.value);
    var rows := Population(w.books, c.fee, contest, w.participants);
    hide Figures, Population;
    CutoffSound(w.books, contest, terms, rows);
  }

  /** A step that admits a participant to the contest and pays a prize part into its pool. */
  ghost predicate PaysIn(w: World, op: WorldOp, contest: ContestId) {
    && op.JoinContest? && op.adm.contest == contest && contest in w.contests
    && Perform(w, op).result == Ok && ChargeNow(w, op.adm, op.now).prize > 0
  }

  /** The same at some step of a run. */
  ghost predicate PaysInDuring(w: World, ops: seq<WorldOp>, contest: ContestId)
    decreases |ops|
  {
    ops != [] && (PaysIn(w, ops[0], contest) || PaysInDuring(Perform(w, ops[0]).world, ops[1..], contest))
  }

  /** What the snapshot keeps for good, whatever happens to the pool. */
  ghost predicate Taken(w: World, contest: ContestId) {
    && contest in w.snapshots && contest in w.contests && contest in w.books.pools
    && w.contests[contest].startedAt.Some?
  }

  /** After the snapshot a step leaves the pool alone or pays into it; refunds are refused. */
  lemma StepAfterSnapshot(w: World, op: WorldOp, contest: ContestId)
    requires Inv(w) && Taken(w, contest)
    ensures var w' := Perform(w, op).world;
      && Taken(w', contest) && w'.snapshots[contest] == w.snapshots[contest]
      && (PaysIn(w, op, contest) ==> w'.books.pools[contest] > w.books.pools[contest])
      && (!PaysIn(w, op, contest) ==> w'.books.pools[contest] == w.books.pools[contest])
  {
    hide Inv, EnsureEconomicsCutoff, PostConfirmedDeposit, External, Join, RemoveParticipant, CancelContest, ChargeNow;
    match op
    case ConfirmedDeposit(u, a, intent) => DepositLeavesPools(w, u, a, intent);
    case JoinContest(adm, joinedAt, now) => JoinAfterSnapshot(w, adm, joinedAt, now, contest);
    case Remove(adm, refund) => RemoveStaysFrozen(w, adm, refund, contest);
    case Cancel(c) => CancelStaysFrozen(w, c, contest);
    case TakeSnapshot(c, now) => SnapshotKept(w, c, now);
    case Close(c) => StatusMoves(w, op);
    case Start(c, now) => StatusMoves(w, op);
    case Pause(c, now) => StatusMoves(w, op);
    case Resume(c, now) => StatusMoves(w, op);
    case End(c) => StatusMoves(w, op);
    case _ =>
  }

  lemma JoinAfterSnapshot(w: World, adm: Admission, joinedAt: int, now: int, contest: ContestId)
    requires Inv(w) && Taken(w, contest)
    ensures var r := Join(w, adm, joinedAt, now);
      var w' := r.world;
      && w' == w.(books := w'.books, participants := w'.participants) && contest in w'.books.pools
      && w'.books.pools[contest] == w.books.pools[contest] +
           (if r.result == Ok && adm.contest == contest then ChargeNow(w, adm, now).prize else 0)
      && (r.result == Ok && adm.contest == contest ==> ChargeNow(w, adm, now).prize >= 0)
  {
    hide Inv, Join, Moved, External, ChargeNow, AdmissionVerdict, Find;
    JoinKeeps(w, adm, joinedAt, now);
    var r := Join(w, adm, joinedAt, now);
    if r.result == Ok {
      ChargeNowTerms(w, adm, now);
      if ChargeNow(w, adm, now).total > 0 {
        MovedBalances(w.books, r.world.books, adm, AdmissionMove(ChargeNow(w, adm, now)));
      }
    }
  }

  lemma RemoveStaysFrozen(w: World, adm: Admission, refund: bool, contest: ContestId)
    requires Inv(w) && Taken(w, contest)
    ensures var w' := RemoveParticipant(w, adm, refund).world;
      && w' == w.(books := w'.books, participants := w'.participants)
      && contest in w'.books.pools && w'.books.pools[contest] == w.books.pools[contest]
  {
    hide Inv, RemoveParticipant, External, RefundedAs;
    RemoveKeeps(w, adm, refund);
    RemoveShape(w, adm, refund);
    var r := RemoveParticipant(w, adm, refund);
    if r.result == Ok && refund {
      FindIs(w, adm, Find(w.participants, IsParticipant(adm)).value);
      RefundKeepsPools(w, r.world, Find(w.participants, IsParticipant(adm)).value.row);
    }
  }

  lemma CancelStaysFrozen(w: World, c: ContestId, contest: ContestId)
    requires Inv(w) && Taken(w, contest)
    ensures var w' := CancelContest(w, c).world;
      && w'.snapshots == w.snapshots && contest in w'.contests && w'.contests[contest] == w.contests[contest]
      && contest in w'.books.pools && w'.books.pools[contest] == w.books.pools[contest]
  {
    hide Inv, CancelContest, CancelledRows;
    CancelKeeps(w, c);
  }

  lemma SnapshotKept(w: World, contest: ContestId, now: int)
    ensures var w' := TakeCutoff(w, contest, now).world;
      w' == w.(snapshots := w'.snapshots) && forall c :: c in w.snapshots ==> c in w'.snapshots && w'.snapshots[c] == w.snapshots[c]
  {
    hide Figures;
  }

  lemma DepositLeavesPools(w: World, user: UserId, amount: int64, intent: IntentId)
    ensures var w' := Commit(w, PostConfirmedDeposit(w.books, user, amount, intent)).world;
      w' == w.(books := w'.books) && w'.books.pools == w.books.pools
  {
    hide Find;
  }

  lemma RemoveShape(w: World, adm: Admission, refund: bool)
    ensures var w' := RemoveParticipant(w, adm, refund).world;
      && w' == w.(books := w'.books, participants := w'.participants)
      && (!refund ==> w'.books == w.books)
    ensures BeginTrading(w, adm).world == w.(participants := BeginTrading(w, adm).world.participants)
  {
    hide ReverseContestAdmission;
  }

  lemma {:induction false} RunAfterSnapshot(w: World, ops: seq<WorldOp>, contest: ContestId)
    requires Inv(w) && Taken(w, contest)
    ensures var w' := RunWorld(w, ops);
      && Taken(w', contest) && w'.snapshots[contest] == w.snapshots[contest]
      && w'.books.pools[contest] >= w.books.pools[contest]
      && (PaysInDuring(w, ops, contest) <==> w'.books.pools[contest] != w.books.pools[contest])
    decreases |ops|
  {
    hide Inv, Perform, PaysIn, Taken;
    TakenPool(w, contest);
    if ops != [] {
      PerformKeeps(w, ops[0]);
      StepAfterSnapshot(w, ops[0], contest);
      RunAfterSnapshot(Perform(w, ops[0]).world, ops[1..], contest);
      TakenPool(Perform(w, ops[0]).world, contest);
      TakenPool(RunWorld(w, ops), contest);
    }
  }

  lemma TakenPool(w: World, contest: ContestId)
    requires Taken(w, contest)
    ensures contest in w.books.pools && contest in w.snapshots
  {
  }

  /**
    The snapshot never changes. The pool in custody stays what it says exactly as long as no join pays into it; refunds,
    deposits, cancellations and every other step leave it alone.
   */
  lemma FrozenIff(w: World, ops: seq<WorldOp>, contest: ContestId)
    requires Inv(w) && Frozen(w, contest)
    ensures var w' := RunWorld(w, ops);
      && contest in w'.snapshots && w'.snapshots[contest] == w.snapshots[contest]
      && (Frozen(w', contest) <==> !PaysInDuring(w, ops, contest))
  {
    hide Inv, RunWorld, PaysInDuring;
    RunAfterSnapshot(w, ops, contest);
  }

  lemma StartedIsClosed(w: World, contest: ContestId)
    requires Inv(w) && contest in w.contests && w.contests[contest].startedAt.Some?
    ensures w.contests[contest].status != RegistrationOpen
  {
  }

  /** A join pays in only before the deadline then in force. */
  lemma PaysInBeforeDeadline(w: World, op: WorldOp, contest: ContestId)
    requires Inv(w) && Taken(w, contest) && PaysIn(w, op, contest)
    ensures w.contests[contest].status == Running && op.now < w.contests[contest].CutoffAt()
  {
    hide Inv, Admit, ChargeNow, Find;
    StartedIsClosed(w, contest);
  }

  /** No join of the contest reads a clock before `deadline`, and the contest is not resumed. */
  predicate Undisturbed(op: WorldOp, contest: ContestId, deadline: int) {
    && (op.JoinContest? && op.adm.contest == contest ==> deadline <= op.now)
    && !(op.Resume? && op.contest == contest)
  }

  /** So while the contest is not resumed, and clocks have passed its deadline, the pool stays frozen for ever. */
  lemma {:induction false} FrozenForever(w: World, ops: seq<WorldOp>, contest: ContestId)
    requires Inv(w) && Frozen(w, contest)
    requires forall i :: 0 <= i < |ops| ==> Undisturbed(ops[i], contest, w.contests[contest].CutoffAt())
    ensures Frozen(RunWorld(w, ops), contest)
    ensures RunWorld(w, ops).snapshots[contest] == w.snapshots[contest]
    decreases |ops|
  {
    hide Inv, Perform, PaysIn;
    if ops != [] {
      PerformKeeps(w, ops[0]);
      StepAfterSnapshot(w, ops[0], contest);
      if PaysIn(w, ops[0], contest) { PaysInBeforeDeadline(w, ops[0], contest); JoinOf(w, ops[0], contest); }
      DeadlineKept(w, ops[0], contest);
      FrozenForever(Perform(w, ops[0]).world, ops[1..], contest);
    }
  }

  lemma JoinOf(w: World, op: WorldOp, contest: ContestId)
    requires PaysIn(w, op, contest)
    ensures op.JoinContest? && op.adm.contest == contest
  {
  }

  /** Only a resume moves the deadline of a started contest. */
  lemma DeadlineKept(w: World, op: WorldOp, contest: ContestId)
    requires Inv(w) && contest in w.contests && w.contests[contest].startedAt.Some?
    requires !(op.Resume? && op.contest == contest)
    ensures var w' := Perform(w, op).world;
      && contest in w'.contests && w'.contests[contest].startedAt == w.contests[contest].startedAt
      && w'.contests[contest].CutoffAt() == w.contests[contest].CutoffAt()
  {
    ContestTermsKept(w, op, contest);
  }

  /** A started contest keeps its terms, its start and, unless it is resumed, its end. */
  lemma ContestTermsKept(w: World, op: WorldOp, contest: ContestId)
    requires Inv(w) && contest in w.contests && w.contests[contest].startedAt.Some?
    ensures var w' := Perform(w, op).world;
      && contest in w'.contests
      && var c, c' := w.contests[contest], w'.contests[contest];
         && c' == c.(status := c'.status, pausedAt := c'.pausedAt, endsAt := c'.endsAt)
         && (c'.endsAt != c.endsAt ==> op.Resume? && op.contest == contest)
         && (c.status == Ended ==> c' == c) && HasStarted(c'.status)
  {
    hide Inv, EnsureEconomicsCutoff, PostConfirmedDeposit, Join, RemoveParticipant, CancelContest, BeginTrading;
    StatusOf(w, contest);
    match op
    case JoinContest(adm, joinedAt, now) => JoinShape(w, adm, joinedAt, now);
    case Remove(adm, refund) => RemoveShape(w, adm, refund);
    case Trade(adm) => RemoveShape(w, adm, false);
    case Cancel(c) =>
      CancelKeeps(w, c);
      if c == contest { StartedIsNotCancelled(w, c); }
    case Close(c) => StatusMoves(w, op);
    case Start(c, now) => StatusMoves(w, op);
    case Pause(c, now) => StatusMoves(w, op);
    case Resume(c, now) => StatusMoves(w, op);
    case End(c) => StatusMoves(w, op);
    case _ =>
  }

  lemma StartedIsNotCancelled(w: World, contest: ContestId)
    requires Inv(w) && contest in w.contests && w.contests[contest].startedAt.Some?
    ensures CancelContest(w, contest).world == w
  {
  }

  lemma JoinShape(w: World, adm: Admission, joinedAt: int, now: int)
    ensures var w' := Join(w, adm, joinedAt, now).world; w' == w.(books := w'.books, participants := w'.participants)
  {
    hide Admit, ComputeJoinCharge;
  }
}
