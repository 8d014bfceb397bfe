/**
  What the four ledgers say about one admission, and how each posting changes exactly one admission's record.
 */
module Dossiers {
  import opened Int64
  import opened Rows
  import opened Books
  import opened LedgerLaws
  import opened Economics

  datatype WalletFile = WalletFile(
    entry: Option<Found<WalletRow>>, latest: Option<Found<WalletRow>>, reversal: Option<Found<WalletRow>>)

  datatype FeeFile = FeeFile(
    base: Option<Found<FeeRow>>, surcharge: Option<Found<FeeRow>>, evidence: seq<FeeRow>)

  datatype TreasuryFile = TreasuryFile(
    base: Option<Found<TreasuryRow>>, surcharge: Option<Found<TreasuryRow>>, pool: Option<Found<TreasuryRow>>)

  datatype PoolFile = PoolFile(
    contribution: Option<Found<PoolRow>>, credit: Option<Found<PoolRow>>, reversal: Option<Found<PoolRow>>)

  datatype Dossier = Dossier(wallet: WalletFile, fees: FeeFile, treasury: TreasuryFile, pool: PoolFile)

  /** A fee row an auditor must account for: by admission, or by contest and participant. */
  predicate Concerns(r: FeeRow, adm: Admission) {
    r.detail.adm == adm || (r.detail.contest == adm.contest && r.detail.user == adm.user)
  }

  function Evidence(ledger: seq<FeeRow>, adm: Admission): seq<FeeRow> {
    if ledger == [] then []
    else
      var last := ledger[|ledger| - 1];
      Evidence(ledger[..|ledger| - 1], adm) + (if Concerns(last, adm) then [last] else [])
  }

  function WalletFileOf(l: seq<WalletRow>, adm: Admission): WalletFile {
    WalletFile(Find(l, Keyed(EntryKey(adm))), Find(l, EntryOf(adm)), Find(l, Keyed(ReversalKey(adm))))
  }

  function FeeFileOf(l: seq<FeeRow>, adm: Admission): FeeFile {
    FeeFile(Find(l, InflowOf(adm, BaseFee)), Find(l, InflowOf(adm, LateSurcharge)), Evidence(l, adm))
  }

  function TreasuryFileOf(l: seq<TreasuryRow>, adm: Admission): TreasuryFile {
    TreasuryFile(Find(l, FeeAllocationOf(adm, BaseFee)), Find(l, FeeAllocationOf(adm, LateSurcharge)),
                 Find(l, PoolAllocationOf(adm)))
  }

  function PoolFileOf(l: seq<PoolRow>, adm: Admission): PoolFile {
    PoolFile(Find(l, PoolKeyed(ContributionKey(adm))), Find(l, CreditOf(adm)), Find(l, PoolKeyed(PoolReversalKey(adm))))
  }

  function DossierOf(b: Books, adm: Admission): Dossier {
    Dossier(WalletFileOf(b.walletLedger, adm), FeeFileOf(b.feeLedger, adm),
            TreasuryFileOf(b.treasuryLedger, adm), PoolFileOf(b.poolLedger, adm))
  }

  const BLANK := Dossier(WalletFile(None, None, None), FeeFile(None, None, []),
                         TreasuryFile(None, None, None), PoolFile(None, None, None))

  // ----- Appending a row -----

  lemma WalletFileAppend(l: seq<WalletRow>, r: WalletRow, adm: Admission)
    ensures WalletFileOf(l + [r], adm) ==
      var f, found := WalletFileOf(l, adm), Some(Found(|l|, r));
      WalletFile(if Keyed(EntryKey(adm))(r) then found else f.entry,
                 if EntryOf(adm)(r) then found else f.latest,
                 if Keyed(ReversalKey(adm))(r) then found else f.reversal)
  {
    FindAppend(l, r, Keyed(EntryKey(adm)));
    FindAppend(l, r, EntryOf(adm));
    FindAppend(l, r, Keyed(ReversalKey(adm)));
  }

  lemma FeeFileAppend(l: seq<FeeRow>, r: FeeRow, adm: Admission)
    ensures FeeFileOf(l + [r], adm) ==
      var f, found := FeeFileOf(l, adm), Some(Found(|l|, r));
      FeeFile(if InflowOf(adm, BaseFee)(r) then found else f.base,
              if InflowOf(adm, LateSurcharge)(r) then found else f.surcharge,
              f.evidence + (if Concerns(r, adm) then [r] else []))
  {
    FindAppend(l, r, InflowOf(adm, BaseFee));
    FindAppend(l, r, InflowOf(adm, LateSurcharge));
    assert (l + [r])[..|l|] == l;
  }

  lemma TreasuryFileAppend(l: seq<TreasuryRow>, r: TreasuryRow, adm: Admission)
    ensures TreasuryFileOf(l + [r], adm) ==
      var f, found := TreasuryFileOf(l, adm), Some(Found(|l|, r));
      TreasuryFile(if FeeAllocationOf(adm, BaseFee)(r) then found else f.base,
                   if FeeAllocationOf(adm, LateSurcharge)(r) then found else f.surcharge,
                   if PoolAllocationOf(adm)(r) then found else f.pool)
  {
    FindAppend(l, r, FeeAllocationOf(adm, BaseFee));
    FindAppend(l, r, FeeAllocationOf(adm, LateSurcharge));
    FindAppend(l, r, PoolAllocationOf(adm));
  }

  lemma PoolFileAppend(l: seq<PoolRow>, r: PoolRow, adm: Admission)
    ensures PoolFileOf(l + [r], adm) ==
      var f, found := PoolFileOf(l, adm), Some(Found(|l|, r));
      PoolFile(if PoolKeyed(ContributionKey(adm))(r) then found else f.contribution,
               if CreditOf(adm)(r) then found else f.credit,
               if PoolKeyed(PoolReversalKey(adm))(r) then found else f.reversal)
  {
    FindAppend(l, r, PoolKeyed(ContributionKey(adm)));
    FindAppend(l, r, CreditOf(adm));
    FindAppend(l, r, PoolKeyed(PoolReversalKey(adm)));
  }

  // ----- The record of an admission in each stage of its life -----

  ghost predicate FeePartOk(f: Option<Found<FeeRow>>, t: Option<Found<TreasuryRow>>, adm: Admission,
                            fee: FeeKind, amount: int64, bps: int)
  {
    if amount > 0 then
      && f.Some? && f.value.row.amount == amount && f.value.row.detail == InflowDetail(adm, fee, bps)
      && t.Some? && t.value.row.amount == -amount
    else f.None? && t.None?
  }

  function Inflows(f: FeeFile): seq<FeeRow> {
    (if f.base.Some? then [f.base.value.row] else []) + (if f.surcharge.Some? then [f.surcharge.value.row] else [])
  }

  ghost predicate EntryOk(w: WalletFile, adm: Admission, total: int64) {
    && w.entry.Some?
    && w.entry.value.row.account == UserWallet(adm.user)
    && total > 0 && w.entry.value.row.amount == -total
    && w.entry.value.row.detail == EntryDetail(adm)
  }

  ghost predicate PrizeOk(d: Dossier, adm: Admission, prize: int64) {
    if prize > 0 then
      && d.pool.contribution.Some? && d.pool.credit == d.pool.contribution && d.pool.reversal.None?
      && d.pool.contribution.value.row.amount == prize
      && d.pool.contribution.value.row.account == PrizePool(adm.contest)
      && d.pool.contribution.value.row.detail == ContributionDetail(adm)
      && d.treasury.pool.Some? && d.treasury.pool.value.row.amount == -prize
    else d.pool == PoolFile(None, None, None) && d.treasury.pool.None?
  }

  /** Paid and not reversed: every part is on record exactly once, with its figures. */
  ghost predicate Charged(d: Dossier, adm: Admission, c: JoinCharge, bps: int) {
    && EntryOk(d.wallet, adm, c.total)
    && d.wallet.latest == d.wallet.entry
    && d.wallet.reversal.None?
    && FeePartOk(d.fees.base, d.treasury.base, adm, BaseFee, c.platform, bps)
    && FeePartOk(d.fees.surcharge, d.treasury.surcharge, adm, LateSurcharge, c.surcharge, bps)
    && d.fees.evidence == Inflows(d.fees)
    && PrizeOk(d, adm, c.prize)
  }

  /** Reversed: the wallet row that returned the money points at the entry it reverses. */
  ghost predicate Returned(d: Dossier, adm: Admission, c: JoinCharge) {
    && EntryOk(d.wallet, adm, c.total)
    && d.wallet.reversal.Some?
    && d.wallet.reversal.value.row.detail.original == Some(d.wallet.entry.value.id)
  }

  // ----- Shape of reversal rows -----

  /** Keys are unique; only reversal rows point back, each at the entry of its own admission. */
  ghost predicate WalletShape(l: seq<WalletRow>) {
    && (forall i, j :: 0 <= i < j < |l| && l[i].detail.key.Some? ==> l[i].detail.key != l[j].detail.key)
    && forall i :: 0 <= i < |l| && l[i].detail.original.Some? ==>
      && l[i].detail.key.Some? && l[i].detail.key.value.ReversalKey?
      && l[i].detail.original.value < i
      && l[l[i].detail.original.value].detail.key == Some(EntryKey(l[i].detail.key.value.adm))
  }

  ghost predicate PoolShape(l: seq<PoolRow>) {
    forall i :: 0 <= i < |l| && l[i].detail.original.Some? ==>
      && !l[i].detail.credit && l[i].detail.key.PoolReversalKey?
      && l[i].detail.original.value < i
      && l[l[i].detail.original.value].detail.key == ContributionKey(l[i].detail.key.adm)
  }

  /** Pool credits of a contest that no later row reverses. */
  function ReversedIds(l: seq<PoolRow>): set<nat> {
    set i | 0 <= i < |l| && l[i].detail.original.Some? :: l[i].detail.original.value
  }

  function OpenCredits(l: seq<PoolRow>, contest: ContestId): set<nat> {
    set i: nat | 0 <= i < |l| && l[i].account == PrizePool(contest) && l[i].detail.credit && i !in ReversedIds(l)
  }

  lemma ReversedIdsAppend(l: seq<PoolRow>, r: PoolRow)
    ensures ReversedIds(l + [r])
      == ReversedIds(l) + (if r.detail.original.Some? then {r.detail.original.value} else {})
  {
    var l' := l + [r];
    var grown := ReversedIds(l) + (if r.detail.original.Some? then {r.detail.original.value} else {});
    forall x | x in grown ensures x in ReversedIds(l') {
      if x in ReversedIds(l) {
        var i :| 0 <= i < |l| && l[i].detail.original.Some? && l[i].detail.original.value == x;
        assert l'[i].detail.original.Some?;
      } else {
        assert l'[|l|].detail.original.Some?;
      }
    }
    forall x | x in ReversedIds(l') ensures x in grown {
      var i :| 0 <= i < |l'| && l'[i].detail.original.Some? && l'[i].detail.original.value == x;
      if i < |l| {
        assert l[i].detail.original.Some?;
      }
    }
  }

  lemma OpenCreditsCredit(l: seq<PoolRow>, r: PoolRow, contest: ContestId)
    requires PoolShape(l) && r.detail.credit && r.detail.original.None?
    ensures PoolShape(l + [r])
    ensures |OpenCredits(l + [r], contest)| == |OpenCredits(l, contest)| + (if r.account == PrizePool(contest) then 1 else 0)
  {
    var l' := l + [r];
    ReversedIdsAppend(l, r);
    assert |l| !in ReversedIds(l);
    hide ReversedIds;
    assert OpenCredits(l', contest) == OpenCredits(l, contest) + (if r.account == PrizePool(contest) then {|l|} else {});
  }

  lemma PoolShapeDebit(l: seq<PoolRow>, r: PoolRow, adm: Admission)
    requires PoolShape(l) && !r.detail.credit && r.detail.key == PoolReversalKey(adm)
    requires r.detail.original.Some? && r.detail.original.value < |l|
    requires l[r.detail.original.value].detail.key == ContributionKey(adm)
    ensures PoolShape(l + [r])
    ensures Find(l, PoolKeyed(PoolReversalKey(adm))).None? ==> r.detail.original.value !in ReversedIds(l)
  {
    var l' := l + [r];
    assert forall i :: 0 <= i < |l| ==> l'[i] == l[i];
    var o := r.detail.original.value;
    FindMeaning(l, PoolKeyed(PoolReversalKey(adm)));
    if o in ReversedIds(l) {
      var i :| 0 <= i < |l| && l[i].detail.original.Some? && l[i].detail.original.value == o;
      assert l[i].detail.key == PoolReversalKey(adm);
      assert PoolKeyed(PoolReversalKey(adm))(l[i]);
    }
  }

  lemma OpenCreditsDebit(l: seq<PoolRow>, r: PoolRow, adm: Admission, contest: ContestId)
    requires PoolShape(l) && !r.detail.credit && r.detail.key == PoolReversalKey(adm)
    requires Find(l, PoolKeyed(PoolReversalKey(adm))).None?
    requires r.detail.original.Some? && r.detail.original.value < |l|
    requires var o := l[r.detail.original.value];
      o.detail.key == ContributionKey(adm) && o.detail.credit && o.account == PrizePool(adm.contest)
    ensures PoolShape(l + [r])
    ensures |OpenCredits(l + [r], contest)| == |OpenCredits(l, contest)| - (if adm.contest == contest then 1 else 0)
  {
    hide ReversedIds, PoolShape, Find;
    PoolShapeDebit(l, r, adm);
    ReversedIdsAppend(l, r);
    var o := r.detail.original.value;
    assert OpenCredits(l + [r], contest) == OpenCredits(l, contest) - {o};
    assert o in OpenCredits(l, contest) <==> adm.contest == contest;
  }
}
