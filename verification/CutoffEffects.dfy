/**
  The cutoff decision said outright: when it is refused and why, what counts as evidence row by row, and what happens
  to a contest that leaves nothing to a pool.
 */
module CutoffEffects {
  import opened Int64
  import opened Rows
  import opened Books
  import opened LedgerLaws
  import opened Dossiers
  import opened Economics
  import opened Admissions
  import opened Contests
  import opened Cutoff
  import opened ClosedRuns
  import opened CutoffCompleteness

  // ----- Before the audit -----

  /** In every world: nothing but an existing snapshot comes before the start and the deadline. */
  lemma RefusedBeforeAudit(w: World, contest: ContestId, now: int)
    ensures var r := EnsureEconomicsCutoff(w, contest, now);
      if contest !in w.contests then r == Raised(ContestMissing)
      else if contest in w.snapshots then r == Accepted(w.snapshots[contest])
      else if w.contests[contest].startedAt.None? then r == Raised(StartMissing)
      else if InLateWindow(now, w.contests[contest].startsAt, w.contests[contest].endsAt) then r == Raised(NotReady)
      else r.Accepted? || r.error == AdmissionEvidence || r.error == SnapshotIntegrity
  {
    hide Accumulate, Population, LateJoinCutoff, InLateWindow, Balance, OpenCredits;
    if contest in w.contests {
      var c := w.contests[contest];
      LateWindowIff(now, c.startsAt, c.endsAt);
      if c.startedAt.Some? { AccumulateErrors(w.books, TermsIn(c), Population(w.books, c.fee, contest, w.participants)); }
    }
  }

  // ----- Evidence, row by row -----

  /** A fee row of this admission, by its admission key or by its contest and participant. */
  predicate NamesAdmission(r: FeeRow, adm: Admission) {
    r.detail.adm == adm || (r.detail.contest == adm.contest && r.detail.user == adm.user)
  }

  predicate ProvesPart(r: FeeRow, adm: Admission, fee: FeeKind, amount: int, bps: int) {
    && amount > 0 && r.amount == amount
    && r.detail == FeeDetail(Inflow(fee), adm, adm.contest, adm.user, "2026-09-06.1", bps, None)
  }

  /** A part has exactly one row that proves it, or is zero. */
  ghost predicate ProvedOnce(l: seq<FeeRow>, adm: Admission, fee: FeeKind, amount: int, bps: int) {
    amount > 0 ==>
      exists i :: 0 <= i < |l| && ProvesPart(l[i], adm, fee, amount, bps)
        && forall j :: 0 <= j < |l| && j != i ==> !ProvesPart(l[j], adm, fee, amount, bps)
  }

  ghost predicate EntryDebited(l: seq<WalletRow>, adm: Admission, total: int) {
    exists i :: 0 <= i < |l| && l[i].account == UserWallet(adm.user) && l[i].amount == 0 - total
      && l[i].detail.kind == ContestEntry && l[i].detail.reference == ContestReference(adm.contest)
      && l[i].detail.reason == ContestEntryReason && l[i].detail.key == Some(EntryKey(adm))
      && forall j :: 0 <= j < |l| && j != i ==> l[j].detail.key != Some(EntryKey(adm))
  }

  lemma {:induction false} EvidenceCounts(l: seq<FeeRow>, adm: Admission, q: FeeRow -> bool)
    requires forall r :: q(r) ==> Concerns(r, adm)
    ensures Count(Evidence(l, adm), q) == Count(l, q)
  {
    if l != [] {
      var before, last := l[..|l| - 1], l[|l| - 1];
      EvidenceCounts(before, adm, q);
      var rest := Evidence(before, adm);
      if Concerns(last, adm) {
        assert (rest + [last])[..|rest|] == rest;
      } else {
        assert rest + [] == rest;
      }
    }
  }

  lemma {:induction false} EvidenceHas(l: seq<FeeRow>, adm: Admission)
    ensures forall i :: 0 <= i < |l| && Concerns(l[i], adm) ==> l[i] in Evidence(l, adm)
    ensures forall r :: r in Evidence(l, adm) ==> r in l && Concerns(r, adm)
  {
    hide Concerns;
    if l != [] {
      EvidenceHas(l[..|l| - 1], adm);
    }
  }

  lemma {:induction false} CountZero<T>(l: seq<T>, p: T -> bool)
    ensures Count(l, p) == 0 <==> forall i :: 0 <= i < |l| ==> !p(l[i])
  {
    if |l| > 0 {
      CountZero(l[..|l| - 1], p);
    }
  }

  ghost predicate OnlyAt<T>(l: seq<T>, i: int, p: T -> bool) {
    0 <= i < |l| && p(l[i]) && forall j :: 0 <= j < |l| && j != i ==> !p(l[j])
  }

  lemma CountIsOne<T>(l: seq<T>, p: T -> bool)
    ensures Count(l, p) == 1 <==> exists i :: OnlyAt(l, i, p)
  {
    if i :| OnlyAt(l, i, p) {
      CountOne(l, i, p);
    }
    if Count(l, p) == 1 {
      var i := TheOne(l, p);
    }
  }

  lemma {:induction false} TheOne<T>(l: seq<T>, p: T -> bool) returns (i: int)
    requires Count(l, p) == 1
    ensures OnlyAt(l, i, p)
  {
    var last := |l| - 1;
    if p(l[last]) {
      CountZero(l[..last], p);
      i := last;
      assert forall j :: 0 <= j < last ==> l[..last][j] == l[j];
    } else {
      i := TheOne(l[..last], p);
      assert forall j :: 0 <= j < last ==> l[..last][j] == l[j];
    }
  }

  lemma DebitedIff(b: Books, adm: Admission, total: int64)
    requires 0 <= total
    ensures WalletEvidence(b, adm, total) <==> EntryDebited(b.walletLedger, adm, total)
  {
    var l, keyed := b.walletLedger, Keyed(EntryKey(adm));
    CountIsOne(l, keyed);
    FindMeaning(l, keyed);
    hide Count, Find;
    if WalletEvidence(b, adm, total) {
      var i :| OnlyAt(l, i, keyed);
      assert forall j :: 0 <= j < |l| && j != i ==> !keyed(l[j]);
      assert Find(l, keyed).value.id == i;
    }
    if EntryDebited(l, adm, total) {
      var i :| 0 <= i < |l| && l[i].account == UserWallet(adm.user) && l[i].amount == 0 - total
        && l[i].detail.kind == ContestEntry && l[i].detail.reference == ContestReference(adm.contest)
        && l[i].detail.reason == ContestEntryReason && l[i].detail.key == Some(EntryKey(adm))
        && forall j :: 0 <= j < |l| && j != i ==> l[j].detail.key != Some(EntryKey(adm));
      assert OnlyAt(l, i, keyed);
      assert Find(l, keyed).value.id == i;
    }
  }

  lemma ProvedIff(l: seq<FeeRow>, adm: Admission, fee: FeeKind, amount: int64, bps: int)
    requires 0 <= amount
    ensures Cardinality(Count(Evidence(l, adm), PartRow(adm, bps, fee, amount)), amount) <==> ProvedOnce(l, adm, fee, amount, bps)
  {
    var part := PartRow(adm, bps, fee, amount);
    EvidenceCounts(l, adm, part);
    CountZero(l, part);
    CountIsOne(l, part);
    hide Count, Evidence;
    assert forall r :: part(r) <==> ProvesPart(r, adm, fee, amount, bps);
    if ProvedOnce(l, adm, fee, amount, bps) && amount > 0 {
      var i :| 0 <= i < |l| && ProvesPart(l[i], adm, fee, amount, bps)
        && forall j :: 0 <= j < |l| && j != i ==> !ProvesPart(l[j], adm, fee, amount, bps);
      assert OnlyAt(l, i, part);
    }
    if amount > 0 && Count(l, part) == 1 {
      var i :| OnlyAt(l, i, part);
      assert ProvesPart(l[i], adm, fee, amount, bps);
    }
  }

  /** Every fee row of the admission is one of its parts. */
  ghost predicate NothingElse(l: seq<FeeRow>, adm: Admission, charge: JoinCharge, bps: int) {
    forall i :: 0 <= i < |l| && NamesAdmission(l[i], adm) ==>
      ProvesPart(l[i], adm, BaseFee, charge.platform, bps) || ProvesPart(l[i], adm, LateSurcharge, charge.surcharge, bps)
  }

  ghost predicate AllParts(rows: seq<FeeRow>, adm: Admission, charge: JoinCharge, bps: int) {
    forall i :: 0 <= i < |rows| ==>
      RowMatches(rows[i], adm, bps, BaseFee, charge.platform) || RowMatches(rows[i], adm, bps, LateSurcharge, charge.surcharge)
  }

  lemma NothingElseIff(l: seq<FeeRow>, adm: Admission, charge: JoinCharge, bps: int)
    ensures NothingElse(l, adm, charge, bps) <==> AllParts(Evidence(l, adm), adm, charge, bps)
  {
    EvidenceHas(l, adm);
    var rows := Evidence(l, adm);
    hide Evidence;
    if NothingElse(l, adm, charge, bps) {
      forall i | 0 <= i < |rows|
        ensures RowMatches(rows[i], adm, bps, BaseFee, charge.platform) || RowMatches(rows[i], adm, bps, LateSurcharge, charge.surcharge)
      {
        assert rows[i] in rows;
        var k :| 0 <= k < |l| && l[k] == rows[i];
        assert NamesAdmission(l[k], adm);
      }
    } else {
      var i :| 0 <= i < |l| && NamesAdmission(l[i], adm)
        && !ProvesPart(l[i], adm, BaseFee, charge.platform, bps) && !ProvesPart(l[i], adm, LateSurcharge, charge.surcharge, bps);
      assert l[i] in rows;
      var k :| 0 <= k < |rows| && rows[k] == l[i];
      assert !RowMatches(rows[k], adm, bps, BaseFee, charge.platform) && !RowMatches(rows[k], adm, bps, LateSurcharge, charge.surcharge);
    }
  }

  /**
    What counts as evidence for a participant, in terms of the rows themselves: the row was timely, one debit of the
    whole charge, one fee row for each part of it that is not zero, and no other fee row of the admission.
   */
  lemma EvidenceRowByRow(b: Books, c: CutoffContest, p: CutoffParticipant, charge: JoinCharge)
    requires 0 <= c.fee <= 0x7FFF_FFFF && 0 <= c.bps <= 10_000 && ChargeIs(charge, c.fee, c.bps, p.joinedAt >= c.startedAt)
    ensures AdmissionEvidenceOf(b, c, p).Accepted? <==>
      && (p.joinedAt >= c.startedAt ==> c.lateJoin && p.joinedAt < c.cutoffAt)
      && (c.fee > 0 ==> EntryDebited(b.walletLedger, p.adm, charge.total))
      && NothingElse(b.feeLedger, p.adm, charge, c.bps)
      && ProvedOnce(b.feeLedger, p.adm, BaseFee, charge.platform, c.bps)
      && ProvedOnce(b.feeLedger, p.adm, LateSurcharge, charge.surcharge, c.bps)
    ensures AdmissionEvidenceOf(b, c, p).Accepted? ==> AdmissionEvidenceOf(b, c, p).value == (charge.platform, charge.surcharge)
  {
    hide AdmissionEvidenceOf, SplitEntryFee, LateJoinSurchargeCents, WalletEvidence, Evidence, RowMatches, Cardinality, Count,
      ProvedOnce, NothingElse, EntryDebited;
    ChargeExact(c.fee, c.bps, p.joinedAt >= c.startedAt, charge);
    EvidenceGivesParts(b, c, p);
    EvidenceMeaning(b, c, p);
    DebitedIff(b, p.adm, charge.total);
    NothingElseIff(b.feeLedger, p.adm, charge, c.bps);
    ProvedIff(b.feeLedger, p.adm, BaseFee, charge.platform, c.bps);
    ProvedIff(b.feeLedger, p.adm, LateSurcharge, charge.surcharge, c.bps);
  }

  // ----- Who counts -----

  /** A debit of this entry that no row reverses. */
  ghost predicate EntryStands(l: seq<WalletRow>, adm: Admission) {
    exists i :: 0 <= i < |l| && l[i].detail.key == Some(EntryKey(adm)) && l[i].detail.kind == ContestEntry && l[i].amount < 0
      && forall j :: 0 <= j < |l| ==> l[j].detail.original != Some(i)
  }

  /** In a free contest whoever was not refunded or cancelled counts; in a paid one whoever's entry stands unreversed. */
  lemma EconomicIff(b: Books, fee: int64, p: Participant)
    requires WalletShape(b.walletLedger)
    ensures IsEconomic(b, fee, p) <==>
      if fee == 0 then p.status == Active || p.status == Disqualified else EntryStands(b.walletLedger, p.adm)
  {
    var l, keyed := b.walletLedger, Keyed(EntryKey(p.adm));
    FindMeaning(l, keyed);
    var e := Find(l, keyed);
    if e.Some? { FindMeaning(l, Reverses(e.value.id)); }
    hide Find;
    if EntryStands(l, p.adm) {
      var i :| 0 <= i < |l| && l[i].detail.key == Some(EntryKey(p.adm)) && l[i].detail.kind == ContestEntry && l[i].amount < 0
        && forall j :: 0 <= j < |l| ==> l[j].detail.original != Some(i);
      assert keyed(l[i]);
      assert e.value.id == i;
      assert forall j :: 0 <= j < |l| ==> !Reverses(i)(l[j]);
    }
    if fee != 0 && IsEconomic(b, fee, p) {
      assert forall j :: 0 <= j < |l| ==> !Reverses(e.value.id)(l[j]);
    }
  }

  /** A row is timed as charged iff it was charged late exactly if its timestamp is past the start, and then it was in time. */
  lemma TimedMeaning(contest: Contest, p: Participant)
    requires contest.startedAt.Some? && 0 <= contest.fee <= 0x7FFF_FFFF && 0 < contest.bps <= 10_000
    requires p.charge == ComputeJoinCharge(contest.fee, contest.bps, p.charge.late)
    ensures TimedAsCharged(TermsIn(contest), p) <==>
      var afterStart := p.joinedAt >= contest.startedAt.value;
      && (afterStart ==> contest.lateJoin && InLateWindow(p.joinedAt, contest.startsAt, contest.endsAt))
      && (contest.fee >= 10 ==> (p.charge.late <==> afterStart))
  {
    LateWindowIff(p.joinedAt, contest.startsAt, contest.endsAt);
    ChargeExact(contest.fee, contest.bps, p.charge.late, p.charge);
    ChargeFits(contest.fee, contest.bps, true);
    assert LateJoinSurchargeCents(contest.fee) == ComputeJoinCharge(contest.fee, contest.bps, true).surcharge;
    hide ComputeJoinCharge, LateJoinSurchargeCents, LateJoinCutoff, InLateWindow;
  }

  // ----- Contests that leave nothing to a pool -----

  /** The contest is free, or its platform takes the whole fee. */
  predicate LeavesNothing(c: Contest) {
    c.fee == 0 || c.bps == 10_000
  }

  ghost predicate NobodyLive(w: World, contest: ContestId) {
    forall i :: 0 <= i < |w.participants| && w.participants[i].adm.contest == contest ==> !Live(w.participants[i].status)
  }

  lemma {:induction false} PopulationFrom(b: Books, fee: int64, contest: ContestId, rows: seq<Participant>, k: nat)
    returns (j: nat)
    requires k < |Population(b, fee, contest, rows)|
    ensures j < |rows| && rows[j].adm.contest == contest && Population(b, fee, contest, rows)[k] == ViewOf(b, fee, rows[j])
  {
    hide IsEconomic;
    var before := rows[..|rows| - 1];
    if k < |Population(b, fee, contest, before)| {
      j := PopulationFrom(b, fee, contest, before, k);
    } else {
      j := |rows| - 1;
    }
  }

  lemma EconomicOf(w: World, i: nat)
    requires Inv(w) && i < |w.participants|
    ensures var p := w.participants[i];
      && p.adm.contest in w.contests && 0 <= w.contests[p.adm.contest].fee
      && (IsEconomic(w.books, w.contests[p.adm.contest].fee, p) <==> Live(p.status))
      && (LeavesNothing(w.contests[p.adm.contest]) ==> p.charge.prize == 0)
  {
    var p := w.participants[i];
    assert ParticipantOk(w.books.wallets.Keys, w.contests, p);
    var c := w.contests[p.adm.contest];
    assert 0 <= c.fee <= 0x7FFF_FFFF && 0 < c.bps <= 10_000;
    ChargeExact(c.fee, c.bps, p.charge.late, p.charge);
    hide Inv, ComputeJoinCharge, ChargeIs;
    if LeavesNothing(c) { NothingLeft(p.charge, c); }
    if c.fee > 0 { EconomicIsLive(w, p, i); }
  }

  lemma NothingLeft(charge: JoinCharge, c: Contest)
    requires ChargeIs(charge, c.fee, c.bps, charge.late) && LeavesNothing(c) && 0 <= c.fee
    ensures charge.prize == 0
  {
  }

  lemma NobodyCounts(w: World, contest: ContestId)
    requires Inv(w) && contest in w.contests
    ensures var rows := Population(w.books, w.contests[contest].fee, contest, w.participants);
      NobodyLive(w, contest) <==> forall k :: 0 <= k < |rows| ==> !rows[k].economic
  {
    hide Inv, IsEconomic, Population, Live;
    var fee := w.contests[contest].fee;
    var rows := Population(w.books, fee, contest, w.participants);
    if NobodyLive(w, contest) {
      forall k | 0 <= k < |rows| ensures !rows[k].economic {
        var j := PopulationFrom(w.books, fee, contest, w.participants, k);
        EconomicOf(w, j);
      }
    } else {
      var i :| 0 <= i < |w.participants| && w.participants[i].adm.contest == contest && Live(w.participants[i].status);
      EconomicOf(w, i);
      PopulationHas(w.books, fee, contest, w.participants, i);
      var k :| 0 <= k < |rows| && rows[k] == ViewOf(w.books, fee, w.participants[i]);
    }
  }

  lemma {:induction false} NothingToAudit(b: Books, c: CutoffContest, rows: seq<CutoffParticipant>)
    requires forall k :: 0 <= k < |rows| ==> !rows[k].economic
    ensures Accumulate(b, c, rows) == Accepted(Totals(0, 0))
  {
    if rows != [] {
      NothingToAudit(b, c, rows[..|rows| - 1]);
    }
  }

  lemma NothingHeld(w: World, contest: ContestId)
    requires Inv(w) && contest in w.contests && LeavesNothing(w.contests[contest])
    ensures contest in w.books.pools && w.books.pools[contest] == 0
    ensures Balance(w.books.poolLedger, PrizePool(contest)) == 0 && |OpenCredits(w.books.poolLedger, contest)| == 0
  {
    forall i | 0 <= i < |w.participants|
      ensures PrizeHeld(contest)(w.participants[i]) == 0 && CreditHeld(contest)(w.participants[i]) == 0
    {
      EconomicOf(w, i);
    }
    SumZero(w.participants, PrizeHeld(contest));
    SumZero(w.participants, CreditHeld(contest));
    hide ParticipantsOk, FilesOk, Conserved, OpenCredits, Balance, Chained, DepositsPositive;
  }

  lemma NobodyTrades(w: World, contest: ContestId)
    requires NobodyLive(w, contest)
    ensures Count(w.participants, TradingIn(contest)) == 0
  {
    CountZero(w.participants, TradingIn(contest));
  }

  /**
    A due cutoff of a contest that leaves nothing to its pool is accepted iff nobody in it is live: the audit expects as
    many open pool entries as participants, and such a contest has none.
   */
  lemma CutoffWithoutPrize(w: World, contest: ContestId, now: int)
    requires Inv(w) && contest in w.contests && contest !in w.snapshots && LeavesNothing(w.contests[contest])
    requires var c := w.contests[contest]; c.startedAt.Some? && !InLateWindow(now, c.startsAt, c.endsAt)
    ensures var r := EnsureEconomicsCutoff(w, contest, now);
      && (r.Accepted? <==> NobodyLive(w, contest))
      && (r.Accepted? ==> r.value == Snapshot(Count(w.participants, InContest(contest)), 0, 0, 0, 0, 0, 0))
  {
    hide Inv, Accumulate, Population, LateJoinCutoff, InLateWindow, Balance, OpenCredits, Count, NobodyLive;
    var c := w.contests[contest];
    var rows := Population(w.books, c.fee, contest, w.participants);
    LateWindowIff(now, c.startsAt, c.endsAt);
    NobodyCounts(w, contest);
    NothingHeld(w, contest);
    CountZero(rows, Economic());
    PopulationSizes(w.books, c.fee, contest, w.participants);
    FeeOf(w, contest);
    if NobodyLive(w, contest) {
      NobodyTrades(w, contest);
      NothingToAudit(w.books, TermsIn(c), rows);
    } else if EnsureEconomicsCutoff(w, contest, now).Accepted? {
      FiguresGive(w.books, contest, TermsIn(c), rows);
    }
  }

  lemma FeeOf(w: World, contest: ContestId)
    requires Inv(w) && contest in w.contests
    ensures 0 <= w.contests[contest].fee
  {
  }
}
