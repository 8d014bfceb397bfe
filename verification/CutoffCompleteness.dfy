/**
  Completeness of the cutoff audit: over every run, the audit accepts exactly when the admissions were timed as they
  were charged, and then its figures are those of the live admissions.
 */
module CutoffCompleteness {
  import opened Int64
  import opened Rows
  import opened Books
  import opened LedgerLaws
  import opened Dossiers
  import opened Moves
  import opened Economics
  import opened Admissions
  import opened Contests
  import opened Cutoff
  import opened ClosedRuns

  function LiveIn(c: ContestId): Participant -> int {
    (p: Participant) => if Live(p.status) && p.adm.contest == c then 1 else 0
  }

  /** Trading participants: the ones a leaderboard ranks. */
  function TradingIn(c: ContestId): Participant -> bool {
    (p: Participant) => p.adm.contest == c && p.status == Active && p.trading
  }

  function BaseHeld(c: ContestId): Participant -> int {
    (p: Participant) => if Live(p.status) && p.adm.contest == c then p.charge.platform else 0
  }

  function SurchargeHeld(c: ContestId): Participant -> int {
    (p: Participant) => if Live(p.status) && p.adm.contest == c then p.charge.surcharge else 0
  }

  function ViewOf(b: Books, fee: int64, p: Participant): CutoffParticipant {
    CutoffParticipant(p.adm, p.joinedAt, IsEconomic(b, fee, p), p.status == Active && p.trading)
  }

  /** The row's timestamp lies on the side of the start it was charged for, within the late window. */
  predicate TimedAsCharged(c: CutoffContest, p: Participant) {
    Timely(c, p.joinedAt) && ExpectedSurcharge(c, p.joinedAt) == p.charge.surcharge
  }

  function TermsIn(contest: Contest): CutoffContest
    requires contest.startedAt.Some?
  {
    CutoffContest(contest.fee, contest.bps, contest.lateJoin, contest.CutoffAt(), contest.startedAt.value)
  }

  predicate TermsOf(c: CutoffContest, contest: Contest) {
    contest.startedAt.Some?
    && c == TermsIn(contest)
  }

  // ----- One participant -----

  lemma ReversalPointsBack(l: seq<WalletRow>, adm: Admission, e: Found<WalletRow>)
    requires WalletShape(l) && Find(l, Keyed(EntryKey(adm))) == Some(e)
    ensures Find(l, Reverses(e.id)).Some? ==> Find(l, Keyed(ReversalKey(adm))).Some?
    ensures var r := Find(l, Keyed(ReversalKey(adm)));
      r.Some? && r.value.row.detail.original == Some(e.id) ==> Find(l, Reverses(e.id)).Some?
    ensures Count(l, Keyed(EntryKey(adm))) == 1
  {
    FindMeaning(l, Keyed(EntryKey(adm)));
    FindMeaning(l, Reverses(e.id));
    FindMeaning(l, Keyed(ReversalKey(adm)));
    var back := Find(l, Reverses(e.id));
    if back.Some? {
      assert l[back.value.id].detail.key == Some(ReversalKey(adm));
      assert Keyed(ReversalKey(adm))(l[back.value.id]);
    }
    var r := Find(l, Keyed(ReversalKey(adm)));
    if r.Some? && r.value.row.detail.original == Some(e.id) {
      assert Reverses(e.id)(l[r.value.id]);
    }
    forall i | 0 <= i < |l| && i != e.id ensures !Keyed(EntryKey(adm))(l[i]) {
      var first, second := if i < e.id then i else e.id, if i < e.id then e.id else i;
      assert l[first].detail.key.Some? ==> l[first].detail.key != l[second].detail.key;
    }
    CountOne(l, e.id, Keyed(EntryKey(adm)));
  }

  /** The audit's population is the live admissions. */
  lemma EconomicIsLive(w: World, p: Participant, i: nat)
    requires Inv(w) && i < |w.participants| && w.participants[i] == p && w.contests[p.adm.contest].fee > 0
    requires p.adm.contest in w.contests
    ensures IsEconomic(w.books, w.contests[p.adm.contest].fee, p) <==> Live(p.status)
    ensures p.charge.total > 0
    ensures Live(p.status) ==> Charged(DossierOf(w.books, p.adm), p.adm, p.charge, w.contests[p.adm.contest].bps)
    ensures Live(p.status) ==> Count(w.books.walletLedger, Keyed(EntryKey(p.adm))) == 1
  {
    hide Good, HeldOk, Conserved, ComputeJoinCharge, PoolShape, WalletShape, FilesOk, FeeFileOf, TreasuryFileOf, PoolFileOf;
    assert ParticipantOk(w.books.wallets.Keys, w.contests, p);
    ChargeOk(w, p);
    FilesGive(w.books, w.contests, w.participants, p.adm);
    FindMeaning(w.participants, IsParticipant(p.adm));
    assert IsParticipant(p.adm)(w.participants[i]);
    assert Find(w.participants, IsParticipant(p.adm)) == Some(Found(i, p));
    hide ParticipantsOk;
    ReversalPointsBack(w.books.walletLedger, p.adm, DossierOf(w.books, p.adm).wallet.entry.value);
  }

  lemma PartsExact(d: Dossier, adm: Admission, c: JoinCharge, bps: int)
    requires Charged(d, adm, c, bps) && Balanced(c)
    ensures ExactParts(d.fees.evidence, adm, bps, c.platform, c.surcharge)
  {
    var rows := d.fees.evidence;
    var isBase, isSurcharge := PartRow(adm, bps, BaseFee, c.platform), PartRow(adm, bps, LateSurcharge, c.surcharge);
    if c.platform > 0 && c.surcharge > 0 {
      assert rows == [d.fees.base.value.row, d.fees.surcharge.value.row];
      CountOne(rows, 0, isBase);
      CountOne(rows, 1, isSurcharge);
    } else if c.platform > 0 {
      assert rows == [d.fees.base.value.row];
      CountOne(rows, 0, isBase);
      CountNone(rows, isSurcharge);
    } else if c.surcharge > 0 {
      assert rows == [d.fees.surcharge.value.row];
      CountNone(rows, isBase);
      CountOne(rows, 0, isSurcharge);
    } else {
      assert rows == [];
    }
  }

  /** For a live admission the audit finds its evidence exactly when it was timed as charged. */
  lemma EvidenceIffTimed(b: Books, c: CutoffContest, p: Participant, view: CutoffParticipant)
    requires Charged(DossierOf(b, p.adm), p.adm, p.charge, c.bps) && 0 < c.fee <= 0x7FFF_FFFF
    requires p.charge == ComputeJoinCharge(c.fee, c.bps, p.charge.late)
    requires Count(b.walletLedger, Keyed(EntryKey(p.adm))) == 1
    requires view.adm == p.adm && view.joinedAt == p.joinedAt
    ensures AdmissionEvidenceOf(b, c, view).Accepted? <==> TimedAsCharged(c, p)
    ensures ExpectedBase(c) == p.charge.platform
  {
    hide AdmissionEvidenceOf, SplitEntryFee, LateJoinSurchargeCents, TreasuryFileOf, PoolFileOf, Evidence, Wrap, Count,
      RowMatches;
    ChargeBalances(c.fee, c.bps, p.charge.late);
    ChargeBalances(c.fee, c.bps, true);
    PartsExact(DossierOf(b, p.adm), p.adm, p.charge, c.bps);
    EvidenceMeaning(b, c, view);
  }

  // ----- The whole population -----

  /** The state an audit starts from: a reachable world and a started, paid contest with a prize part. */
  ghost predicate Auditable(w: World, contest: ContestId, c: CutoffContest) {
    && Inv(w) && contest in w.contests && TermsOf(c, w.contests[contest]) && c.fee > 0
    && SplitEntryFee(c.fee, c.bps).1 > 0
  }

  ghost predicate AllTimed(w: World, contest: ContestId, c: CutoffContest) {
    forall i :: 0 <= i < |w.participants| && w.participants[i].adm.contest == contest && Live(w.participants[i].status) ==>
      TimedAsCharged(c, w.participants[i])
  }

  lemma Member(w: World, contest: ContestId, c: CutoffContest, i: nat)
    requires Auditable(w, contest, c) && i < |w.participants| && w.participants[i].adm.contest == contest
    ensures var p := w.participants[i];
      && (IsEconomic(w.books, c.fee, p) <==> Live(p.status))
      && Balanced(p.charge) && p.charge.platform + p.charge.prize == c.fee && p.charge.prize > 0
      && (Live(p.status) ==>
            && (AdmissionEvidenceOf(w.books, c, ViewOf(w.books, c.fee, p)).Accepted? <==> TimedAsCharged(c, p))
            && ExpectedBase(c) == p.charge.platform)
  {
    var p := w.participants[i];
    assert ParticipantOk(w.books.wallets.Keys, w.contests, p);
    assert 0 < c.fee <= 0x7FFF_FFFF;
    EconomicIsLive(w, p, i);
    ChargeBalances(c.fee, c.bps, p.charge.late);
    hide Inv, IsEconomic, Charged, AdmissionEvidenceOf, SplitEntryFee;
    if Live(p.status) {
      EvidenceIffTimed(w.books, c, p, ViewOf(w.books, c.fee, p));
    }
  }

  lemma {:induction false} PopulationCount(w: World, contest: ContestId, c: CutoffContest, k: nat)
    requires Auditable(w, contest, c) && k <= |w.participants|
    ensures Count(Population(w.books, c.fee, contest, w.participants[..k]), Economic())
      == Sum(w.participants[..k], LiveIn(contest))
  {
    hide Auditable, IsEconomic, AdmissionEvidenceOf, TimedAsCharged;
    if k > 0 {
      assert w.participants[..k][..k - 1] == w.participants[..k - 1];
      PopulationCount(w, contest, c, k - 1);
      var p, rest := w.participants[k - 1], Population(w.books, c.fee, contest, w.participants[..k - 1]);
      if p.adm.contest == contest {
        Member(w, contest, c, k - 1);
        assert (rest + [ViewOf(w.books, c.fee, p)])[..|rest|] == rest;
      } else {
        assert rest + [] == rest;
      }
    }
  }

  /** Every row of the contest is in the audit's population, whatever the books say. */
  lemma {:induction false} PopulationSizes(b: Books, fee: int64, contest: ContestId, rows: seq<Participant>)
    ensures |Population(b, fee, contest, rows)| == Count(rows, InContest(contest))
    ensures Count(Population(b, fee, contest, rows), Eligible()) == Count(rows, TradingIn(contest))
  {
    hide IsEconomic;
    if rows != [] {
      var before, p := rows[..|rows| - 1], rows[|rows| - 1];
      PopulationSizes(b, fee, contest, before);
      var rest := Population(b, fee, contest, before);
      if p.adm.contest == contest {
        assert (rest + [ViewOf(b, fee, p)])[..|rest|] == rest;
      } else {
        assert rest + [] == rest;
      }
    }
  }

  lemma {:induction false} PopulationHas(b: Books, fee: int64, contest: ContestId, rows: seq<Participant>, j: nat)
    requires j < |rows| && rows[j].adm.contest == contest
    ensures ViewOf(b, fee, rows[j]) in Population(b, fee, contest, rows)
  {
    hide IsEconomic;
    if j < |rows| - 1 {
      PopulationHas(b, fee, contest, rows[..|rows| - 1], j);
    }
  }

  lemma ChargesBalance(w: World, contest: ContestId, c: CutoffContest, i: nat)
    requires Auditable(w, contest, c) && i < |w.participants|
    ensures Balanced(w.participants[i].charge)
  {
    assert ParticipantOk(w.books.wallets.Keys, w.contests, w.participants[i]);
    ChargeOk(w, w.participants[i]);
  }

  /** What the invariant says about the accounts an audit compares. */
  lemma AuditFacts(w: World, contest: ContestId, c: CutoffContest)
    requires Auditable(w, contest, c)
    ensures var b := w.books;
      && 0 < c.fee && contest in b.pools
      && b.feeWallet == Sum(w.participants, FeeHeld())
      && b.pools[contest] == Sum(w.participants, PrizeHeld(contest)) == Balance(b.poolLedger, PrizePool(contest))
      && |OpenCredits(b.poolLedger, contest)| == Sum(w.participants, CreditHeld(contest))
      && 0 <= b.pools[contest] && 0 <= b.feeWallet && b.feeWallet + b.pools[contest] <= External(b)
  {
    hide OpenCredits, Balance, Chained, DepositsPositive, FilesOk, ParticipantsOk, External, Conserved;
    Bounded(w.books, "", contest);
  }

  lemma HeldParts(w: World, contest: ContestId, c: CutoffContest, k: nat)
    requires Auditable(w, contest, c) && k <= |w.participants|
    ensures 0 <= Sum(w.participants[..k], BaseHeld(contest)) <= w.books.feeWallet
    ensures 0 <= Sum(w.participants[..k], SurchargeHeld(contest)) <= w.books.feeWallet
  {
    hide Inv, Auditable;
    var rows := w.participants;
    forall i | 0 <= i < |rows|
      ensures 0 <= BaseHeld(contest)(rows[i]) <= FeeHeld()(rows[i])
      ensures 0 <= SurchargeHeld(contest)(rows[i]) <= FeeHeld()(rows[i])
    {
      ChargesBalance(w, contest, c, i);
    }
    AuditFacts(w, contest, c);
    SumNonNegative(rows[..k], BaseHeld(contest));
    SumNonNegative(rows[..k], SurchargeHeld(contest));
    SumPrefix(rows, k, BaseHeld(contest));
    SumPrefix(rows, k, SurchargeHeld(contest));
    SumMonotone(rows, BaseHeld(contest), FeeHeld());
    SumMonotone(rows, SurchargeHeld(contest), FeeHeld());
  }

  lemma AccumulateOne(b: Books, c: CutoffContest, rest: seq<CutoffParticipant>, view: CutoffParticipant, t: Totals)
    requires Accumulate(b, c, rest) == Accepted(t) && 0 <= t.base && 0 <= t.surcharge
    ensures !view.economic ==> Accumulate(b, c, rest + [view]) == Accepted(t)
    ensures
      var x, y := ExpectedBase(c), ExpectedSurcharge(c, view.joinedAt);
      view.economic && AdmissionEvidenceOf(b, c, view).Accepted?
      && 0 <= x && 0 <= y && t.base + x <= MAX_INT64 && t.surcharge + y <= MAX_INT64 ==>
        Accumulate(b, c, rest + [view]) == Accepted(Totals(t.base + x, t.surcharge + y))
  {
    hide AdmissionEvidenceOf, ExpectedBase, ExpectedSurcharge;
    assert (rest + [view])[..|rest|] == rest;
    EvidenceGivesParts(b, c, view);
  }

  function HeldTotals(rows: seq<Participant>, contest: ContestId): Totals {
    Totals(Wrap(Sum(rows, BaseHeld(contest))), Wrap(Sum(rows, SurchargeHeld(contest))))
  }

  lemma HeldTotalsStep(w: World, contest: ContestId, c: CutoffContest, k: nat)
    requires Auditable(w, contest, c) && k < |w.participants|
    ensures var t, t' := HeldTotals(w.participants[..k], contest), HeldTotals(w.participants[..k + 1], contest);
      && 0 <= t.base && 0 <= t.surcharge
      && t'.base == t.base + BaseHeld(contest)(w.participants[k])
      && t'.surcharge == t.surcharge + SurchargeHeld(contest)(w.participants[k])
  {
    hide Auditable, Inv, Wrap;
    assert w.participants[..k + 1][..k] == w.participants[..k];
    HeldParts(w, contest, c, k);
    HeldParts(w, contest, c, k + 1);
  }

  lemma AccumulateMember(w: World, contest: ContestId, c: CutoffContest, k: nat, rest: seq<CutoffParticipant>)
    requires Auditable(w, contest, c) && AllTimed(w, contest, c) && k < |w.participants|
    requires w.participants[k].adm.contest == contest
    requires Accumulate(w.books, c, rest) == Accepted(HeldTotals(w.participants[..k], contest))
    ensures Accumulate(w.books, c, rest + [ViewOf(w.books, c.fee, w.participants[k])])
      == Accepted(HeldTotals(w.participants[..k + 1], contest))
  {
    hide Auditable, IsEconomic, AdmissionEvidenceOf, ExpectedBase, ExpectedSurcharge, HeldTotals, Accumulate;
    var p := w.participants[k];
    HeldTotalsStep(w, contest, c, k);
    Member(w, contest, c, k);
    AccumulateOne(w.books, c, rest, ViewOf(w.books, c.fee, p), HeldTotals(w.participants[..k], contest));
  }

  lemma {:induction false} AccumulateComplete(w: World, contest: ContestId, c: CutoffContest, k: nat)
    requires Auditable(w, contest, c) && AllTimed(w, contest, c) && k <= |w.participants|
    ensures Accumulate(w.books, c, Population(w.books, c.fee, contest, w.participants[..k]))
      == Accepted(HeldTotals(w.participants[..k], contest))
  {
    hide Auditable, AllTimed, IsEconomic, AdmissionEvidenceOf;
    if k > 0 {
      hide HeldTotals, Accumulate;
      var p, before := w.participants[k - 1], w.participants[..k - 1];
      assert w.participants[..k][..k - 1] == before;
      AccumulateComplete(w, contest, c, k - 1);
      var rest := Population(w.books, c.fee, contest, before);
      if p.adm.contest == contest {
        AccumulateMember(w, contest, c, k - 1, rest);
      } else {
        assert rest + [] == rest;
        HeldTotalsStep(w, contest, c, k - 1);
      }
    }
  }

  /** Accepted evidence for the whole population means every live admission was timed as charged. */
  lemma AccumulateTimed(w: World, contest: ContestId, c: CutoffContest)
    requires Auditable(w, contest, c)
    requires Accumulate(w.books, c, Population(w.books, c.fee, contest, w.participants)).Accepted?
    ensures AllTimed(w, contest, c)
  {
    hide Auditable, IsEconomic, AdmissionEvidenceOf, TimedAsCharged, Accumulate;
    var rows := Population(w.books, c.fee, contest, w.participants);
    AccumulateExact(w.books, c, rows);
    forall j | 0 <= j < |w.participants| && w.participants[j].adm.contest == contest && Live(w.participants[j].status)
      ensures TimedAsCharged(c, w.participants[j])
    {
      Member(w, contest, c, j);
      PopulationHas(w.books, c.fee, contest, w.participants, j);
      var i :| 0 <= i < |rows| && rows[i] == ViewOf(w.books, c.fee, w.participants[j]);
    }
  }

  /** Per contest: fee shares and prize shares of the live admissions make up their entry fees. */
  lemma GrossSplits(w: World, contest: ContestId, c: CutoffContest)
    requires Auditable(w, contest, c)
    ensures var rows := w.participants;
      && Sum(rows, LiveIn(contest)) * c.fee == Sum(rows, BaseHeld(contest)) + Sum(rows, PrizeHeld(contest))
      && Sum(rows, CreditHeld(contest)) == Sum(rows, LiveIn(contest)) >= 0
  {
    GrossSplitsTo(w, contest, c, |w.participants|);
    assert w.participants[..|w.participants|] == w.participants;
  }

  lemma {:induction false} GrossSplitsTo(w: World, contest: ContestId, c: CutoffContest, k: nat)
    requires Auditable(w, contest, c) && k <= |w.participants|
    ensures var rows := w.participants[..k];
      && Sum(rows, LiveIn(contest)) * c.fee == Sum(rows, BaseHeld(contest)) + Sum(rows, PrizeHeld(contest))
      && Sum(rows, CreditHeld(contest)) == Sum(rows, LiveIn(contest)) >= 0
  {
    hide Auditable, IsEconomic, AdmissionEvidenceOf, TimedAsCharged, ExpectedBase;
    if k > 0 {
      assert w.participants[..k][..k - 1] == w.participants[..k - 1];
      GrossSplitsTo(w, contest, c, k - 1);
      if w.participants[k - 1].adm.contest == contest {
        Member(w, contest, c, k - 1);
        assert (Sum(w.participants[..k - 1], LiveIn(contest)) + 1) * c.fee
          == Sum(w.participants[..k - 1], LiveIn(contest)) * c.fee + c.fee;
      }
    }
  }

  /** The entry fees of the live admissions fit in 64 bits. */
  predicate GrossFitsIn(w: World, contest: ContestId)
    requires contest in w.contests
  {
    Sum(w.participants, LiveIn(contest)) * w.contests[contest].fee <= MAX_INT64
  }

  /**
    In every reachable world the cutoff of a paid contest is accepted if and only if every live admission's row is
    timed as it was charged (and their entry fees fit in 64 bits); the snapshot then counts the rows, the live admissions
    and the trading participants, and its pool is the pool in custody.
   */
  lemma CutoffIffTimed(w: World, contest: ContestId, now: int)
    requires Inv(w) && contest in w.contests && contest !in w.snapshots && w.contests[contest].startedAt.Some?
    requires var c := w.contests[contest]; c.CutoffAt() <= now && c.fee > 0 && SplitEntryFee(c.fee, c.bps).1 > 0
    ensures var c := TermsIn(w.contests[contest]);
      var r := EnsureEconomicsCutoff(w, contest, now);
      && (r.Accepted? <==> AllTimed(w, contest, c) && GrossFitsIn(w, contest))
      && (r.Raised? ==> r.error == AdmissionEvidence)
      && (r.Accepted? ==>
            && r.value.joined == Count(w.participants, InContest(contest))
            && r.value.economic == Sum(w.participants, LiveIn(contest))
            && r.value.eligible == Count(w.participants, TradingIn(contest))
            && r.value.gross == r.value.economic * w.contests[contest].fee == r.value.platformFee + r.value.prizePool
            && r.value.prizePool == w.books.pools[contest] == Balance(w.books.poolLedger, PrizePool(contest))
            && r.value.platformFee == Sum(w.participants, BaseHeld(contest))
            && r.value.surcharge == Sum(w.participants, SurchargeHeld(contest)))
  {
    hide Inv, Accumulate, Balance, Population, SplitEntryFee, AllTimed, Figures, Count;
    var c := TermsIn(w.contests[contest]);
    assert Auditable(w, contest, c);
    var rows := Population(w.books, c.fee, contest, w.participants);
    PopulationSizes(w.books, c.fee, contest, w.participants);
    if AllTimed(w, contest, c) {
      FiguresDecided(w, contest, c);
      if Figures(w.books, contest, c, rows).Accepted? { FiguresGive(w.books, contest, c, rows); }
    } else {
      FiguresUntimed(w, contest, c);
    }
  }

  /** While all deposits together fit, so do the entry fees of one contest. */
  lemma GrossWithinCustody(w: World, contest: ContestId, c: CutoffContest)
    requires Auditable(w, contest, c) && External(w.books) <= MAX_INT64
    ensures GrossFitsIn(w, contest)
  {
    hide Inv, Auditable, External, Balance, OpenCredits;
    assert w.participants[..|w.participants|] == w.participants;
    SameTermsIn(w, contest, c);
    AuditFacts(w, contest, c);
    HeldParts(w, contest, c, |w.participants|);
    GrossSplits(w, contest, c);
  }

  lemma SameTermsIn(w: World, contest: ContestId, c: CutoffContest)
    requires Auditable(w, contest, c)
    ensures contest in w.contests && w.contests[contest].fee == c.fee
  {
  }

  lemma FiguresUntimed(w: World, contest: ContestId, c: CutoffContest)
    requires Auditable(w, contest, c) && !AllTimed(w, contest, c)
    ensures var f := Figures(w.books, contest, c, Population(w.books, c.fee, contest, w.participants));
      f == Raised(AdmissionEvidence)
  {
    hide Inv, Auditable, AllTimed, Accumulate, Balance, OpenCredits, Population;
    var rows := Population(w.books, c.fee, contest, w.participants);
    if Accumulate(w.books, c, rows).Accepted? {
      AccumulateTimed(w, contest, c);
    } else {
      AccumulateErrors(w.books, c, rows);
    }
  }

  lemma {:induction false} AccumulateErrors(b: Books, c: CutoffContest, rows: seq<CutoffParticipant>)
    ensures Accumulate(b, c, rows).Raised? ==> Accumulate(b, c, rows).error == AdmissionEvidence
  {
    hide WalletEvidence, Evidence, ScanEvidence, ExpectedBase, ExpectedSurcharge;
    if rows != [] {
      AccumulateErrors(b, c, rows[..|rows| - 1]);
    }
  }

  lemma FiguresDecided(w: World, contest: ContestId, c: CutoffContest)
    requires Auditable(w, contest, c) && AllTimed(w, contest, c)
    ensures var rows := Population(w.books, c.fee, contest, w.participants);
      var n, base := Sum(w.participants, LiveIn(contest)), Sum(w.participants, BaseHeld(contest));
      var f := Figures(w.books, contest, c, rows);
      && contest in w.contests && (f.Accepted? <==> GrossFitsIn(w, contest))
      && (f.Raised? ==> f.error == AdmissionEvidence)
      && (f.Accepted? ==>
            && f.value.economic == n && f.value.platformFee == base
            && f.value.surcharge == Sum(w.participants, SurchargeHeld(contest))
            && contest in w.books.pools && f.value.prizePool == w.books.pools[contest]
            && f.value.prizePool == Balance(w.books.poolLedger, PrizePool(contest)))
  {
    hide Inv, Auditable, AllTimed, Accumulate, Balance, OpenCredits, Population, External;
    assert w.participants[..|w.participants|] == w.participants;
    SameTermsIn(w, contest, c);
    AuditFacts(w, contest, c);
    HeldParts(w, contest, c, |w.participants|);
    PopulationCount(w, contest, c, |w.participants|);
    AccumulateComplete(w, contest, c, |w.participants|);
    GrossSplits(w, contest, c);
    GrossFits(Sum(w.participants, LiveIn(contest)), c.fee);
  }
}
