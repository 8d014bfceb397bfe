/**
  The economics cutoff: the audit that must find complete evidence in the ledgers for every participant that
  counts, before the contest's figures are frozen in a snapshot.
 */
module Cutoff {
  import opened Int64
  import opened Rows
  import opened Books
  import opened LedgerLaws
  import opened Dossiers
  import opened Economics
  import opened Contests

  datatype AuditError = ContestMissing | StartMissing | NotReady | AdmissionEvidence | SnapshotIntegrity

  datatype Audit<+T> = Accepted(value: T) | Raised(error: AuditError)

  /** One participant as the cutoff query returns it. */
  datatype CutoffParticipant = CutoffParticipant(adm: Admission, joinedAt: int, economic: bool, eligible: bool)

  /** The contest row as the cutoff reads it, once it is known to have started. */
  datatype CutoffContest = CutoffContest(fee: int64, bps: int, lateJoin: bool, cutoffAt: int, startedAt: int)

  // ----- The participant query -----

  function Reverses(id: nat): WalletRow -> bool {
    (r: WalletRow) => r.detail.original == Some(id)
  }

  /** Counts toward the economics: an unreversed paid entry or, in a free contest, a standing participant. */
  predicate IsEconomic(b: Books, fee: int64, p: Participant) {
    if fee == 0 then p.status != Refunded && p.status != Cancelled
    else
      match Find(b.walletLedger, Keyed(EntryKey(p.adm)))
      case None => false
      case Some(e) =>
        e.row.detail.kind == ContestEntry && e.row.amount < 0 && Find(b.walletLedger, Reverses(e.id)).None?
  }

  function Population(b: Books, fee: int64, contest: ContestId, rows: seq<Participant>): seq<CutoffParticipant> {
    if rows == [] then []
    else
      var p := rows[|rows| - 1];
      Population(b, fee, contest, rows[..|rows| - 1])
      + (if p.adm.contest == contest
         then [CutoffParticipant(p.adm, p.joinedAt, IsEconomic(b, fee, p), p.status == Active && p.trading)]
         else [])
  }

  function Economic(): CutoffParticipant -> bool {
    (p: CutoffParticipant) => p.economic
  }

  function Eligible(): CutoffParticipant -> bool {
    (p: CutoffParticipant) => p.eligible
  }

  method CutoffPopulation(participants: seq<CutoffParticipant>) returns (economic: nat, leaderboard: nat)
    ensures economic == Count(participants, Economic())
    ensures leaderboard == Count(participants, Eligible())
  {
    economic, leaderboard := 0, 0;
    for i := 0 to |participants|
      invariant economic == Count(participants[..i], Economic())
      invariant leaderboard == Count(participants[..i], Eligible())
    {
      assert participants[..i + 1][..i] == participants[..i];
      if participants[i].economic {
        economic := economic + 1;
      }
      if participants[i].eligible {
        leaderboard := leaderboard + 1;
      }
    }
    assert participants[..|participants|] == participants;
  }

  // ----- Evidence for one participant -----

  predicate LateByClock(c: CutoffContest, joinedAt: int) {
    joinedAt >= c.startedAt
  }

  function ExpectedBase(c: CutoffContest): int64 {
    SplitEntryFee(c.fee, c.bps).0
  }

  function ExpectedSurcharge(c: CutoffContest, joinedAt: int): int64 {
    if LateByClock(c, joinedAt) then LateJoinSurchargeCents(c.fee) else 0
  }

  /** A fee row that is exactly the one expected part of this admission. */
  predicate RowMatches(r: FeeRow, adm: Admission, bps: int, fee: FeeKind, expected: int64) {
    r.detail == InflowDetail(adm, fee, bps) && r.amount == expected && expected > 0
  }

  datatype Matches = Matches(base: nat, surcharge: nat)

  /** Every row must be an expected part; the numbers of each are returned. */
  function ScanEvidence(rows: seq<FeeRow>, adm: Admission, bps: int, base: int64, surcharge: int64): Option<Matches> {
    if rows == [] then Some(Matches(0, 0))
    else
      var r := rows[|rows| - 1];
      match ScanEvidence(rows[..|rows| - 1], adm, bps, base, surcharge)
      case None => None
      case Some(m) =>
        if RowMatches(r, adm, bps, BaseFee, base) then Some(m.(base := m.base + 1))
        else if RowMatches(r, adm, bps, LateSurcharge, surcharge) then Some(m.(surcharge := m.surcharge + 1))
        else None
  }

  predicate Cardinality(matches: nat, expected: int64) {
    (expected > 0 ==> matches == 1) && (expected == 0 ==> matches == 0)
  }

  predicate WalletEvidence(b: Books, adm: Admission, amount: int64) {
    Count(b.walletLedger, Keyed(EntryKey(adm))) == 1
    && match Find(b.walletLedger, Keyed(EntryKey(adm)))
       case None => false
       case Some(e) =>
         && e.row.amount == Wrap(0 - amount)
         && e.row.account == UserWallet(adm.user)
         && e.row.detail.kind == ContestEntry
         && e.row.detail.reference == ContestReference(adm.contest)
         && e.row.detail.reason == ContestEntryReason
  }

  predicate Timely(c: CutoffContest, joinedAt: int) {
    LateByClock(c, joinedAt) ==> c.lateJoin && joinedAt < c.cutoffAt
  }

  /** The fee parts of one admission, if and only if the ledgers prove them. */
  function AdmissionEvidenceOf(b: Books, c: CutoffContest, p: CutoffParticipant): Audit<(int64, int64)> {
    var base, surcharge := ExpectedBase(c), ExpectedSurcharge(c, p.joinedAt);
    if !Timely(c, p.joinedAt) then Raised(AdmissionEvidence)
    else if c.fee > 0 && !WalletEvidence(b, p.adm, Wrap(c.fee + surcharge)) then Raised(AdmissionEvidence)
    else
      match ScanEvidence(Evidence(b.feeLedger, p.adm), p.adm, c.bps, base, surcharge)
      case None => Raised(AdmissionEvidence)
      case Some(m) =>
        if Cardinality(m.base, base) && Cardinality(m.surcharge, surcharge) then Accepted((base, surcharge))
        else Raised(AdmissionEvidence)
  }

  method ValidateAdmissionEvidence(b: Books, c: CutoffContest, p: CutoffParticipant) returns (r: Audit<(int64, int64)>)
    ensures r == AdmissionEvidenceOf(b, c, p)
  {
    hide WalletEvidence, Evidence, ExpectedBase, ExpectedSurcharge, RowMatches;
    var base, surcharge := ExpectedBase(c), ExpectedSurcharge(c, p.joinedAt);
    if LateByClock(c, p.joinedAt) && (!c.lateJoin || p.joinedAt >= c.cutoffAt) {
      return Raised(AdmissionEvidence);
    }
    if c.fee > 0 && !WalletEvidence(b, p.adm, Wrap(c.fee + surcharge)) {
      return Raised(AdmissionEvidence);
    }
    var evidence := Evidence(b.feeLedger, p.adm);
    var baseMatches, surchargeMatches := 0, 0;
    for i := 0 to |evidence|
      invariant baseMatches >= 0 && surchargeMatches >= 0
      invariant ScanEvidence(evidence[..i], p.adm, c.bps, base, surcharge)
        == Some(Matches(baseMatches, surchargeMatches))
    {
      assert evidence[..i + 1][..i] == evidence[..i];
      if RowMatches(evidence[i], p.adm, c.bps, BaseFee, base) {
        baseMatches := baseMatches + 1;
      } else if RowMatches(evidence[i], p.adm, c.bps, LateSurcharge, surcharge) {
        surchargeMatches := surchargeMatches + 1;
      } else {
        ScanFails(evidence, i + 1, p.adm, c.bps, base, surcharge);
        return Raised(AdmissionEvidence);
      }
    }
    assert evidence[..|evidence|] == evidence;
    if Cardinality(baseMatches, base) && Cardinality(surchargeMatches, surcharge) {
      return Accepted((base, surcharge));
    }
    return Raised(AdmissionEvidence);
  }

  lemma {:induction false} ScanFails(rows: seq<FeeRow>, n: nat, adm: Admission, bps: int, base: int64, surcharge: int64)
    requires n <= |rows| && ScanEvidence(rows[..n], adm, bps, base, surcharge).None?
    ensures ScanEvidence(rows, adm, bps, base, surcharge).None?
    decreases |rows| - n
  {
    if n == |rows| {
      assert rows[..n] == rows;
    } else {
      assert rows[..n + 1][..n] == rows[..n];
      ScanFails(rows, n + 1, adm, bps, base, surcharge);
    }
  }

  // ----- Totals over the population -----

  datatype Totals = Totals(base: int64, surcharge: int64)

  function AddEvidence(t: Totals, base: int64, surcharge: int64): Audit<Totals> {
    if base > Wrap(MAX_INT64 - t.base) || surcharge > Wrap(MAX_INT64 - t.surcharge) then Raised(AdmissionEvidence)
    else Accepted(Totals(Wrap(t.base + base), Wrap(t.surcharge + surcharge)))
  }

  function Accumulate(b: Books, c: CutoffContest, rows: seq<CutoffParticipant>): Audit<Totals> {
    if rows == [] then Accepted(Totals(0, 0))
    else
      var p := rows[|rows| - 1];
      match Accumulate(b, c, rows[..|rows| - 1])
      case Raised(e) => Raised(e)
      case Accepted(t) =>
        if !p.economic then Accepted(t)
        else
          match AdmissionEvidenceOf(b, c, p)
          case Raised(e) => Raised(e)
          case Accepted(x) => AddEvidence(t, x.0, x.1)
  }

  function ValidatePrizePoolReconciliation(custody: int64, ledger: int, entries: nat, pool: int64, admissions: nat): (ok: bool)
    ensures ok <==> custody == pool && ledger == pool && entries == admissions
  {
    !(custody != pool || ledger != pool || entries != admissions)
  }

  /** The figures of the snapshot, or why they cannot be frozen. */
  function Figures(b: Books, contest: ContestId, c: CutoffContest, rows: seq<CutoffParticipant>): Audit<Snapshot> {
    match Accumulate(b, c, rows)
    case Raised(e) => Raised(e)
    case Accepted(t) =>
      var n := Count(rows, Economic());
      if c.fee < 0 || (n > 0 && c.fee > MAX_INT64 / n) then Raised(AdmissionEvidence)
      else
        var gross := Wrap(n * c.fee);
        var pool := Wrap(gross - t.base);
        if gross < 0 || t.base < 0 || t.surcharge < 0 || pool < 0 || gross != Wrap(t.base + pool)
        then Raised(AdmissionEvidence)
        else if contest !in b.pools then Raised(SnapshotIntegrity)
        else if !ValidatePrizePoolReconciliation(b.pools[contest], Balance(b.poolLedger, PrizePool(contest)),
                                                 |OpenCredits(b.poolLedger, contest)|, pool, n)
        then Raised(SnapshotIntegrity)
        else Accepted(Snapshot(|rows|, n, Count(rows, Eligible()), gross, t.base, t.surcharge, pool))
  }

  /** `EnsureEconomicsCutoff`: an existing snapshot is returned as it is. */
  function EnsureEconomicsCutoff(w: World, contest: ContestId, now: int): Audit<Snapshot> {
    if contest !in w.contests then Raised(ContestMissing)
    else if contest in w.snapshots then Accepted(w.snapshots[contest])
    else
      var c := w.contests[contest];
      if c.startedAt.None? then Raised(StartMissing)
      else if now < c.CutoffAt() then Raised(NotReady)
      else Figures(w.books, contest, CutoffContest(c.fee, c.bps, c.lateJoin, c.CutoffAt(), c.startedAt.value),
                   Population(w.books, c.fee, contest, w.participants))
  }

  method AccumulateEvidence(b: Books, c: CutoffContest, rows: seq<CutoffParticipant>) returns (r: Audit<Totals>)
    ensures r == Accumulate(b, c, rows)
  {
    var totals := Totals(0, 0);
    for i := 0 to |rows|
      invariant Accumulate(b, c, rows[..i]) == Accepted(totals)
    {
      assert rows[..i + 1][..i] == rows[..i];
      if rows[i].economic {
        var evidence := ValidateAdmissionEvidence(b, c, rows[i]);
        if evidence.Raised? {
          AccumulateFails(b, c, rows, i + 1);
          return Raised(evidence.error);
        }
        var next := AddEvidence(totals, evidence.value.0, evidence.value.1);
        if next.Raised? {
          AccumulateFails(b, c, rows, i + 1);
          return Raised(next.error);
        }
        totals := next.value;
      }
    }
    assert rows[..|rows|] == rows;
    return Accepted(totals);
  }

  /** The cutoff decision as it runs: one pass for the population, one for the evidence, then the guards. */
  method DecideCutoff(w: World, contest: ContestId, now: int) returns (r: Audit<Snapshot>)
    ensures r == EnsureEconomicsCutoff(w, contest, now)
  {
    hide Accumulate, Population, Balance, OpenCredits;
    if contest !in w.contests { return Raised(ContestMissing); }
    if contest in w.snapshots { return Accepted(w.snapshots[contest]); }
    var row := w.contests[contest];
    if row.startedAt.None? { return Raised(StartMissing); }
    if now < row.CutoffAt() { return Raised(NotReady); }
    var c := CutoffContest(row.fee, row.bps, row.lateJoin, row.CutoffAt(), row.startedAt.value);
    var participants := Population(w.books, c.fee, contest, w.participants);
    var economic, leaderboard := CutoffPopulation(participants);
    var totals := AccumulateEvidence(w.books, c, participants);
    if totals.Raised? { return Raised(totals.error); }
    var base, surcharge := totals.value.base, totals.value.surcharge;
    if c.fee < 0 || (economic > 0 && c.fee > MAX_INT64 / economic) { return Raised(AdmissionEvidence); }
    var gross: int := Wrap(economic * c.fee);
    var pool: int := Wrap(gross - base);
    if gross < 0 || base < 0 || surcharge < 0 || pool < 0 || gross != Wrap(base + pool) {
      return Raised(AdmissionEvidence);
    }
    if contest !in w.books.pools { return Raised(SnapshotIntegrity); }
    var reconciled := ValidatePrizePoolReconciliation(w.books.pools[contest],
      Balance(w.books.poolLedger, PrizePool(contest)), |OpenCredits(w.books.poolLedger, contest)|, pool, economic);
    if !reconciled { return Raised(SnapshotIntegrity); }
    return Accepted(Snapshot(|participants|, economic, leaderboard, gross, base, surcharge, pool));
  }

  lemma {:induction false} AccumulateFails(b: Books, c: CutoffContest, rows: seq<CutoffParticipant>, n: nat)
    requires n <= |rows| && Accumulate(b, c, rows[..n]).Raised?
    ensures Accumulate(b, c, rows) == Accumulate(b, c, rows[..n])
    decreases |rows| - n
  {
    if n == |rows| {
      assert rows[..n] == rows;
    } else {
      assert rows[..n + 1][..n] == rows[..n];
      AccumulateFails(b, c, rows, n + 1);
    }
  }

  // ----- Soundness, for whatever the ledgers contain -----

  function BaseOf(c: CutoffContest): CutoffParticipant -> int {
    (p: CutoffParticipant) => if p.economic then ExpectedBase(c) else 0
  }

  function SurchargeOf(c: CutoffContest): CutoffParticipant -> int {
    (p: CutoffParticipant) => if p.economic then ExpectedSurcharge(c, p.joinedAt) else 0
  }

  /** No single part exceeds a ten-thousandth of the int64 range. */
  const PART_BOUND := 922_337_203_685_478

  lemma PartsBounded(c: CutoffContest, joinedAt: int)
    ensures -PART_BOUND <= ExpectedBase(c) <= PART_BOUND
    ensures -PART_BOUND <= ExpectedSurcharge(c, joinedAt) <= PART_BOUND
  {
  }

  /** Whatever the overflow guard lets through is the mathematical sum; a negative total admits nothing more. */
  lemma {:induction false} AccumulateExact(b: Books, c: CutoffContest, rows: seq<CutoffParticipant>)
    requires Accumulate(b, c, rows).Accepted?
    ensures var t := Accumulate(b, c, rows).value;
      && t.base == Sum(rows, BaseOf(c)) && -PART_BOUND <= t.base
      && t.surcharge == Sum(rows, SurchargeOf(c)) && -PART_BOUND <= t.surcharge
    ensures forall i :: 0 <= i < |rows| && rows[i].economic ==> AdmissionEvidenceOf(b, c, rows[i]).Accepted?
  {
    hide AdmissionEvidenceOf, ExpectedBase, ExpectedSurcharge;
    if rows != [] {
      var rest, p := rows[..|rows| - 1], rows[|rows| - 1];
      AccumulateExact(b, c, rest);
      PartsBounded(c, p.joinedAt);
      EvidenceGivesParts(b, c, p);
    }
  }

  lemma EvidenceGivesParts(b: Books, c: CutoffContest, p: CutoffParticipant)
    ensures AdmissionEvidenceOf(b, c, p).Accepted? ==>
      AdmissionEvidenceOf(b, c, p).value == (ExpectedBase(c), ExpectedSurcharge(c, p.joinedAt))
  {
    hide WalletEvidence, Evidence, ScanEvidence, ExpectedBase, ExpectedSurcharge;
  }

  function PartRow(adm: Admission, bps: int, fee: FeeKind, expected: int64): FeeRow -> bool {
    (r: FeeRow) => RowMatches(r, adm, bps, fee, expected)
  }

  /** The rows are exactly the expected parts: one per positive part and nothing else. */
  ghost predicate ExactParts(rows: seq<FeeRow>, adm: Admission, bps: int, base: int64, surcharge: int64) {
    && (forall i :: 0 <= i < |rows| ==>
          RowMatches(rows[i], adm, bps, BaseFee, base) || RowMatches(rows[i], adm, bps, LateSurcharge, surcharge))
    && Cardinality(Count(rows, PartRow(adm, bps, BaseFee, base)), base)
    && Cardinality(Count(rows, PartRow(adm, bps, LateSurcharge, surcharge)), surcharge)
  }

  lemma {:induction false} ScanMeaning(rows: seq<FeeRow>, adm: Admission, bps: int, base: int64, surcharge: int64)
    ensures ScanEvidence(rows, adm, bps, base, surcharge).Some? <==>
      forall i :: 0 <= i < |rows| ==>
        RowMatches(rows[i], adm, bps, BaseFee, base) || RowMatches(rows[i], adm, bps, LateSurcharge, surcharge)
    ensures ScanEvidence(rows, adm, bps, base, surcharge).Some? ==>
      ScanEvidence(rows, adm, bps, base, surcharge).value
      == Matches(Count(rows, PartRow(adm, bps, BaseFee, base)), Count(rows, PartRow(adm, bps, LateSurcharge, surcharge)))
  {
    if rows != [] {
      hide RowMatches, ScanEvidence;
      var rest, r := rows[..|rows| - 1], rows[|rows| - 1];
      ScanMeaning(rest, adm, bps, base, surcharge);
      ScanStep(rows, adm, bps, base, surcharge);
      OneKind(r, adm, bps, base, surcharge);
      assert forall i :: 0 <= i < |rest| ==> rows[i] == rest[i];
    }
  }

  lemma ScanStep(rows: seq<FeeRow>, adm: Admission, bps: int, base: int64, surcharge: int64)
    requires rows != []
    ensures
      var r, before := rows[|rows| - 1], ScanEvidence(rows[..|rows| - 1], adm, bps, base, surcharge);
      ScanEvidence(rows, adm, bps, base, surcharge) ==
        if before.None? then None
        else if RowMatches(r, adm, bps, BaseFee, base) then Some(before.value.(base := before.value.base + 1))
        else if RowMatches(r, adm, bps, LateSurcharge, surcharge) then
          Some(before.value.(surcharge := before.value.surcharge + 1))
        else None
  {
    hide RowMatches;
  }

  lemma OneKind(r: FeeRow, adm: Admission, bps: int, base: int64, surcharge: int64)
    ensures !(RowMatches(r, adm, bps, BaseFee, base) && RowMatches(r, adm, bps, LateSurcharge, surcharge))
  {
  }

  /** Accepting evidence for a participant means exactly this, in both directions. */
  lemma EvidenceMeaning(b: Books, c: CutoffContest, p: CutoffParticipant)
    ensures var base, surcharge := ExpectedBase(c), ExpectedSurcharge(c, p.joinedAt);
      AdmissionEvidenceOf(b, c, p).Accepted? <==>
        && Timely(c, p.joinedAt)
        && (c.fee > 0 ==> WalletEvidence(b, p.adm, Wrap(c.fee + surcharge)))
        && ExactParts(Evidence(b.feeLedger, p.adm), p.adm, c.bps, base, surcharge)
  {
    hide WalletEvidence, Evidence, ExpectedBase, ExpectedSurcharge, RowMatches, ScanEvidence;
    ScanMeaning(Evidence(b.feeLedger, p.adm), p.adm, c.bps, ExpectedBase(c), ExpectedSurcharge(c, p.joinedAt));
  }

  /**
    Soundness of the cutoff for arbitrary books, contest and population: every stored total is its mathematical
    value, the parts are non-negative and add up, and custody, ledger and open entries agree with them.
   */
  lemma CutoffSound(b: Books, contest: ContestId, c: CutoffContest, rows: seq<CutoffParticipant>)
    requires Figures(b, contest, c, rows).Accepted?
    ensures var s := Figures(b, contest, c, rows).value;
      && s.joined == |rows| && s.economic == Count(rows, Economic()) && s.eligible == Count(rows, Eligible())
      && s.gross == s.economic * c.fee
      && s.platformFee == Sum(rows, BaseOf(c)) && s.surcharge == Sum(rows, SurchargeOf(c))
      && s.gross == s.platformFee + s.prizePool
      && 0 <= s.platformFee && 0 <= s.surcharge && 0 <= s.prizePool
      && contest in b.pools && s.prizePool == b.pools[contest] == Balance(b.poolLedger, PrizePool(contest))
      && s.economic == |OpenCredits(b.poolLedger, contest)|
    ensures forall i :: 0 <= i < |rows| && rows[i].economic ==>
      && AdmissionEvidenceOf(b, c, rows[i]).Accepted?
      && ExactParts(Evidence(b.feeLedger, rows[i].adm), rows[i].adm, c.bps, ExpectedBase(c),
                    ExpectedSurcharge(c, rows[i].joinedAt))
  {
    hide AdmissionEvidenceOf, ExactParts, Evidence, OpenCredits, Balance, ExpectedBase, ExpectedSurcharge, Accumulate, Count,
      Figures, Sum;
    FiguresGive(b, contest, c, rows);
    AccumulateExact(b, c, rows);
    forall i | 0 <= i < |rows| && rows[i].economic
      ensures ExactParts(Evidence(b.feeLedger, rows[i].adm), rows[i].adm, c.bps, ExpectedBase(c),
                         ExpectedSurcharge(c, rows[i].joinedAt))
    {
      EvidenceMeaning(b, c, rows[i]);
    }
  }

  /** What the guards after the totals leave. */
  lemma FiguresGive(b: Books, contest: ContestId, c: CutoffContest, rows: seq<CutoffParticipant>)
    requires Figures(b, contest, c, rows).Accepted?
    ensures Accumulate(b, c, rows).Accepted?
    ensures var s, t, n := Figures(b, contest, c, rows).value, Accumulate(b, c, rows).value, Count(rows, Economic());
      && s.joined == |rows| && s.economic == n && s.eligible == Count(rows, Eligible())
      && s.gross == n * c.fee && s.platformFee == t.base && s.surcharge == t.surcharge
      && s.gross == s.platformFee + s.prizePool
      && 0 <= s.platformFee && 0 <= s.surcharge && 0 <= s.prizePool
      && contest in b.pools && s.prizePool == b.pools[contest] == Balance(b.poolLedger, PrizePool(contest))
      && n == |OpenCredits(b.poolLedger, contest)|
  {
    hide Accumulate, Count, OpenCredits, Balance;
    var n := Count(rows, Economic());
    GrossFits(n, c.fee);
    if c.fee >= 0 { assert n * c.fee >= 0; }
  }

  /** The division guard is exactly the no-overflow condition of the product. */
  lemma GrossFits(n: nat, fee: int64)
    ensures fee >= 0 ==> ((n > 0 && fee > MAX_INT64 / n) <==> n * fee > MAX_INT64)
  {
    if n > 0 && fee >= 0 {
      var q := MAX_INT64 / n;
      assert q * n <= MAX_INT64 < (q + 1) * n;
      if fee > q {
        assert fee * n >= (q + 1) * n;
      } else {
        assert fee * n <= q * n;
      }
    }
  }
}
