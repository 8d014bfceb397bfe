/**
  The exact effect of each money movement of an admission: which balances change and by how much,
  what goes on record for that admission, and that nothing else about the books changes.
 */
module Moves {
  import opened Int64
  import opened Rows
  import opened Books
  import opened LedgerLaws
  import opened Dossiers
  import opened Economics

  function ExternalAmount(): TreasuryRow -> int {
    (r: TreasuryRow) => if r.detail.ExternalDeposit? then r.amount else 0
  }

  /** The sum of external deposits ever posted to custody. */
  function External(b: Books): int {
    Sum(b.treasuryLedger, ExternalAmount())
  }

  /** Balance changes on the accounts of one admission; `credits` counts open pool credits. */
  datatype Move = Move(wallet: int, treasury: int, fee: int, pool: int, credits: int)

  function Then(m: Move, n: Move): Move {
    Move(m.wallet + n.wallet, m.treasury + n.treasury, m.fee + n.fee, m.pool + n.pool, m.credits + n.credits)
  }

  ghost predicate Shaped(b: Books) {
    WalletShape(b.walletLedger) && PoolShape(b.poolLedger)
  }

  ghost predicate Shifted<K(!new)>(m: map<K, int>, m': map<K, int>, k: K, d: int) {
    m'.Keys == m.Keys && forall j :: j in m ==> m'[j] == m[j] + (if j == k then d else 0)
  }

  lemma TotalShift<K(!new)>(m: map<K, int>, m': map<K, int>, k: K, d: int)
    requires k in m && Shifted(m, m', k, d)
    ensures Total(m') == Total(m) + d
  {
    assert m' == m[k := m[k] + d];
    TotalUpdate(m, k, m[k] + d);
  }

  ghost predicate OthersKept(b: Books, b': Books, adm: Admission) {
    forall a :: a != adm ==> DossierOf(b', a) == DossierOf(b, a)
  }

  ghost predicate CreditsShifted(l: seq<PoolRow>, l': seq<PoolRow>, contest: ContestId, d: int) {
    forall c :: |OpenCredits(l', c)| == |OpenCredits(l, c)| + (if c == contest then d else 0)
  }

  ghost predicate Ready(b: Books, adm: Admission) {
    Good(b) && Shaped(b) && adm.user in b.wallets && adm.contest in b.pools
  }

  /** From `b` to `b'` exactly `m` happened, all of it for `adm`. */
  ghost predicate Moved(b: Books, b': Books, adm: Admission, m: Move) {
    && Ready(b', adm)
    && Shifted(b.wallets, b'.wallets, adm.user, m.wallet)
    && Shifted(b.pools, b'.pools, adm.contest, m.pool)
    && b'.treasury == b.treasury + m.treasury
    && b'.feeWallet == b.feeWallet + m.fee
    && b'.frozen == b.frozen && b'.legacy == b.legacy
    && External(b') == External(b)
    && OthersKept(b, b', adm)
    && CreditsShifted(b.poolLedger, b'.poolLedger, adm.contest, m.credits)
  }

  lemma MovedThen(b: Books, b1: Books, b2: Books, adm: Admission, m: Move, n: Move)
    requires Moved(b, b1, adm, m) && Moved(b1, b2, adm, n)
    ensures Moved(b, b2, adm, Then(m, n))
  {
    hide Ready, External, DossierOf, OpenCredits;
  }

  lemma MovedNothing(b: Books, adm: Admission)
    requires Ready(b, adm)
    ensures Moved(b, b, adm, Move(0, 0, 0, 0, 0))
  {
    hide Ready;
  }

  // ----- Single postings for one admission -----

  /** A wallet row for `adm`: its entry, or the reversal of the entry it points at. */
  ghost predicate WalletRowFits(l: seq<WalletRow>, adm: Admission, d: WalletDetail) {
    && (d.key == Some(EntryKey(adm)) || d.key == Some(ReversalKey(adm)))
    && d.reference == ContestReference(adm.contest)
    && (d.original.Some? ==>
          && d.key == Some(ReversalKey(adm)) && d.original.value < |l|
          && l[d.original.value].detail.key == Some(EntryKey(adm)))
  }

  lemma WalletShapeAppend(l: seq<WalletRow>, r: WalletRow, adm: Admission)
    requires WalletShape(l) && (r.detail.original.None? || WalletRowFits(l, adm, r.detail))
    requires r.detail.key.Some? ==> Find(l, Keyed(r.detail.key.value)).None?
    ensures WalletShape(l + [r])
  {
    if r.detail.key.Some? {
      FindMeaning(l, Keyed(r.detail.key.value));
      assert forall i :: 0 <= i < |l| ==> !Keyed(r.detail.key.value)(l[i]);
    }
    assert forall i :: 0 <= i < |l| ==> (l + [r])[i] == l[i];
  }

  lemma OtherWalletFile(l: seq<WalletRow>, r: WalletRow, adm: Admission, a: Admission)
    requires r.account == UserWallet(adm.user) && WalletRowFits(l, adm, r.detail) && a != adm
    ensures WalletFileOf(l + [r], a) == WalletFileOf(l, a)
  {
    WalletFileAppend(l, r, a);
  }

  lemma WalletPostMoves(b: Books, adm: Admission, amount: int64, d: WalletDetail)
    requires Ready(b, adm) && WalletRowFits(b.walletLedger, adm, d)
    ensures var p := PostWallet(b, adm.user, amount, d);
      p.Done? ==>
        var row := Row(UserWallet(adm.user), amount, p.books.wallets[adm.user], d);
        && Moved(b, p.books, adm, Move(amount, 0, 0, 0, 0))
        && DossierOf(p.books, adm)
           == DossierOf(b, adm).(wallet := WalletFileOf(b.walletLedger + [row], adm))
  {
    hide Good, Sound, Grows, FeeFileOf, TreasuryFileOf, PoolFileOf, WalletFileOf, OpenCredits, PoolShape, WalletShape;
    var p := PostWallet(b, adm.user, amount, d);
    if p.Done? {
      GoodWallet(b, adm.user, amount, d);
      GoodIsSound(b);
      PostWalletSound(b, adm.user, amount, d);
      var row := Row(UserWallet(adm.user), amount, p.books.wallets[adm.user], d);
      WalletShapeAppend(b.walletLedger, row, adm);
      forall a | a != adm ensures DossierOf(p.books, a) == DossierOf(b, a) {
        OtherWalletFile(b.walletLedger, row, adm, a);
      }
    }
  }

  lemma OtherTreasuryFile(l: seq<TreasuryRow>, r: TreasuryRow, a: Admission)
    requires !r.detail.ExternalDeposit? ==> a != r.detail.adm
    ensures TreasuryFileOf(l + [r], a) == TreasuryFileOf(l, a)
  {
    TreasuryFileAppend(l, r, a);
  }

  lemma TreasuryPostMoves(b: Books, adm: Admission, amount: int64, d: TreasuryDetail)
    requires Ready(b, adm) && TreasuryFresh(b, d) && !d.ExternalDeposit? && d.adm == adm
    ensures var p := PostTreasury(b, amount, d);
      p.Done? ==>
        var row := Row(Treasury, amount, p.books.treasury, d);
        && Moved(b, p.books, adm, Move(0, amount, 0, 0, 0))
        && DossierOf(p.books, adm)
           == DossierOf(b, adm).(treasury := TreasuryFileOf(b.treasuryLedger + [row], adm))
  {
    hide Good, Sound, Grows, FeeFileOf, WalletFileOf, PoolFileOf, TreasuryFileOf, OpenCredits, PoolShape, WalletShape,
      TreasuryFresh;
    var p := PostTreasury(b, amount, d);
    if p.Done? {
      GoodTreasury(b, amount, d);
      GoodIsSound(b);
      PostTreasurySound(b, amount, d);
      var row := Row(Treasury, amount, p.books.treasury, d);
      SumAppend(b.treasuryLedger, row, ExternalAmount());
      forall a | a != adm ensures DossierOf(p.books, a) == DossierOf(b, a) {
        OtherTreasuryFile(b.treasuryLedger, row, a);
      }
    }
  }

  lemma OtherFeeFile(l: seq<FeeRow>, r: FeeRow, adm: Admission, a: Admission)
    requires r.detail.adm == adm && r.detail.contest == adm.contest && r.detail.user == adm.user && a != adm
    ensures FeeFileOf(l + [r], a) == FeeFileOf(l, a)
  {
    FeeFileAppend(l, r, a);
  }

  lemma FeePostMoves(b: Books, adm: Admission, amount: int64, d: FeeDetail)
    requires Ready(b, adm) && d.adm == adm && d.contest == adm.contest && d.user == adm.user
    requires d.kind.Inflow? ==> Find(b.feeLedger, InflowOf(adm, d.kind.fee)).None?
    ensures var p := PostFeeWallet(b, amount, d);
      p.Done? ==>
        var row := Row(FeeWallet, amount, p.books.feeWallet, d);
        && Moved(b, p.books, adm, Move(0, 0, amount, 0, 0))
        && DossierOf(p.books, adm)
           == DossierOf(b, adm).(fees := FeeFileOf(b.feeLedger + [row], adm))
  {
    hide Good, Sound, Grows, TreasuryFileOf, WalletFileOf, PoolFileOf, FeeFileOf, OpenCredits, PoolShape, WalletShape;
    var p := PostFeeWallet(b, amount, d);
    if p.Done? {
      GoodFeeWallet(b, amount, d);
      GoodIsSound(b);
      PostFeeWalletSound(b, amount, d);
      var row := Row(FeeWallet, amount, p.books.feeWallet, d);
      forall a | a != adm ensures DossierOf(p.books, a) == DossierOf(b, a) {
        OtherFeeFile(b.feeLedger, row, adm, a);
      }
    }
  }

  /** A contribution, or the reversal of the contribution it points at. */
  ghost predicate PoolRowFits(l: seq<PoolRow>, adm: Admission, d: PoolDetail) {
    || d == ContributionDetail(adm)
    || (&& !d.credit && d.user == adm.user && d.key == PoolReversalKey(adm)
        && d.original.Some? && d.original.value < |l|
        && l[d.original.value].detail == ContributionDetail(adm)
        && l[d.original.value].account == PrizePool(adm.contest))
  }

  lemma PoolRowCredits(l: seq<PoolRow>, adm: Admission, r: PoolRow)
    requires PoolShape(l) && PoolRowFits(l, adm, r.detail) && r.account == PrizePool(adm.contest)
    requires Find(l, PoolKeyed(r.detail.key)).None?
    ensures PoolShape(l + [r])
    ensures CreditsShifted(l, l + [r], adm.contest, if r.detail.credit then 1 else -1)
  {
    hide OpenCredits, PoolShape;
    if r.detail.credit {
      OpenCreditsCredit(l, r, "");
      forall c ensures |OpenCredits(l + [r], c)| == |OpenCredits(l, c)| + (if c == adm.contest then 1 else 0) {
        OpenCreditsCredit(l, r, c);
      }
    } else {
      OpenCreditsDebit(l, r, adm, "");
      forall c ensures |OpenCredits(l + [r], c)| == |OpenCredits(l, c)| + (if c == adm.contest then -1 else 0) {
        OpenCreditsDebit(l, r, adm, c);
      }
    }
  }

  lemma OtherPoolFile(l: seq<PoolRow>, r: PoolRow, adm: Admission, a: Admission)
    requires r.account == PrizePool(adm.contest) && r.detail.user == adm.user && a != adm
    requires r.detail.key == ContributionKey(adm) || r.detail.key == PoolReversalKey(adm)
    ensures PoolFileOf(l + [r], a) == PoolFileOf(l, a)
  {
    PoolFileAppend(l, r, a);
  }

  /** A pool posting opens a credit, or closes the one it reverses. */
  lemma PoolPostMoves(b: Books, adm: Admission, amount: int64, d: PoolDetail)
    requires Ready(b, adm) && PoolRowFits(b.poolLedger, adm, d)
    ensures var p := PostPool(b, adm.contest, amount, d);
      p.Done? ==>
        var row := Row(PrizePool(adm.contest), amount, p.books.pools[adm.contest], d);
        && Moved(b, p.books, adm, Move(0, 0, 0, amount, if d.credit then 1 else -1))
        && DossierOf(p.books, adm)
           == DossierOf(b, adm).(pool := PoolFileOf(b.poolLedger + [row], adm))
  {
    hide Good, Sound, Grows, TreasuryFileOf, WalletFileOf, FeeFileOf, PoolFileOf, PoolShape, WalletShape, CreditsShifted;
    var p := PostPool(b, adm.contest, amount, d);
    if p.Done? {
      GoodPool(b, adm.contest, amount, d);
      GoodIsSound(b);
      PostPoolSound(b, adm.contest, amount, d);
      var row := Row(PrizePool(adm.contest), amount, p.books.pools[adm.contest], d);
      PoolRowCredits(b.poolLedger, adm, row);
      forall a | a != adm ensures DossierOf(p.books, a) == DossierOf(b, a) {
        OtherPoolFile(b.poolLedger, row, adm, a);
      }
    }
  }

  lemma MovedReady(b: Books, b': Books, adm: Admission, m: Move)
    requires Moved(b, b', adm, m)
    ensures Ready(b', adm)
  {
  }

  // ----- The service's movements -----

  lemma NonNegative(b: Books, adm: Admission)
    requires Ready(b, adm)
    ensures 0 <= b.wallets[adm.user] && 0 <= b.pools[adm.contest] && 0 <= b.treasury && 0 <= b.feeWallet
  {
    GoodIsSound(b);
  }

  /** The entry debit in terms of the balance it reads. */
  lemma DeductCases(b: Books, adm: Admission, amount: int64)
    requires amount > 0 && adm.user in b.wallets && 0 <= b.wallets[adm.user]
    requires Find(b.walletLedger, Keyed(EntryKey(adm))).None?
    ensures var s := DeductContestEntryFee(b, adm, amount);
      if adm.user in b.frozen then s == Fail(b, WalletFrozen)
      else if b.wallets[adm.user] < amount then s == Fail(b, InsufficientBalance)
      else
        var p := PostWallet(b, adm.user, -amount, EntryDetail(adm));
        p.Done? && s == Step(p.books, Posted) && p.books.wallets[adm.user] == b.wallets[adm.user] - amount
  {
    hide Find;
  }

  lemma DeductMoves(b: Books, adm: Admission, amount: int64) returns (e: Found<WalletRow>)
    requires Ready(b, adm) && amount > 0
    requires DossierOf(b, adm).wallet == WalletFile(None, None, None)
    ensures var s := DeductContestEntryFee(b, adm, amount);
      && (s.outcome == Posted <==> adm.user !in b.frozen && b.wallets[adm.user] >= amount)
      && (s.outcome != Posted ==> s.outcome == Failed(if adm.user in b.frozen then WalletFrozen else InsufficientBalance))
      && (s.outcome == Posted ==>
            && Moved(b, s.books, adm, Move(-amount, 0, 0, 0, 0))
            && DossierOf(s.books, adm) == DossierOf(b, adm).(wallet := WalletFile(Some(e), Some(e), None))
            && e.row.account == UserWallet(adm.user) && e.row.amount == -amount && e.row.detail == EntryDetail(adm))
  {
    hide Good, Shaped, Moved, FeeFileOf, TreasuryFileOf, PoolFileOf, Find, PostWallet, DeductContestEntryFee;
    NonNegative(b, adm);
    DeductCases(b, adm, amount);
    var row := Row(UserWallet(adm.user), -amount, b.wallets[adm.user] - amount, EntryDetail(adm));
    WalletPostMoves(b, adm, -amount, EntryDetail(adm));
    WalletFileAppend(b.walletLedger, row, adm);
    e := Found(|b.walletLedger|, row);
  }

  function PutFee(d: Dossier, fee: FeeKind, f: Found<FeeRow>, t: Found<TreasuryRow>): Dossier {
    match fee
    case BaseFee =>
      d.(fees := d.fees.(base := Some(f), evidence := d.fees.evidence + [f.row]), treasury := d.treasury.(base := Some(t)))
    case LateSurcharge =>
      d.(fees := d.fees.(surcharge := Some(f), evidence := d.fees.evidence + [f.row]),
         treasury := d.treasury.(surcharge := Some(t)))
  }

  /** One fee part: it is posted exactly when the Treasury covers it and the Fee Wallet has room. */
  lemma FeeMoves(b: Books, adm: Admission, fee: FeeKind, amount: int64, bps: int)
    returns (f: Found<FeeRow>, t: Found<TreasuryRow>)
    requires Ready(b, adm) && amount > 0 && 0 < bps <= MAX_BPS
    requires Find(b.feeLedger, InflowOf(adm, fee)).None? && Find(b.treasuryLedger, FeeAllocationOf(adm, fee)).None?
    ensures var s := PostContestFee(b, adm, fee, amount, bps);
      && (s.outcome == Posted <==> amount <= b.treasury && b.feeWallet + amount <= MAX_INT64)
      && (s.outcome != Posted ==> s.outcome == Failed(if amount > b.treasury then TreasuryShort else BalanceOverflow))
      && (s.outcome == Posted ==>
            && Moved(b, s.books, adm, Move(0, -amount, amount, 0, 0))
            && DossierOf(s.books, adm) == PutFee(DossierOf(b, adm), fee, f, t)
            && f.row.amount == amount && f.row.detail == InflowDetail(adm, fee, bps) && t.row.amount == -amount)
  {
    hide Ready, Moved, Find, WalletFileOf, PoolFileOf;
    NonNegative(b, adm);
    var s := PostContestFee(b, adm, fee, amount, bps);
    if s.outcome == Posted {
      var td, fd := FeeAllocation(adm, fee), InflowDetail(adm, fee, bps);
      TreasuryPostMoves(b, adm, -amount, td);
      var b1 := PostTreasury(b, -amount, td).books;
      MovedReady(b, b1, adm, Move(0, -amount, 0, 0, 0));
      FeePostMoves(b1, adm, amount, fd);
      var b2 := PostFeeWallet(b1, amount, fd).books;
      MovedThen(b, b1, b2, adm, Move(0, -amount, 0, 0, 0), Move(0, 0, amount, 0, 0));
      t := Found(|b.treasuryLedger|, Row(Treasury, -amount, b1.treasury, td));
      f := Found(|b.feeLedger|, Row(FeeWallet, amount, b2.feeWallet, fd));
      TreasuryFileAppend(b.treasuryLedger, t.row, adm);
      FeeFileAppend(b.feeLedger, f.row, adm);
    } else {
      f, t := Found(0, Row(FeeWallet, 0, 0, InflowDetail(adm, fee, bps))), Found(0, Row(Treasury, 0, 0, FeeAllocation(adm, fee)));
    }
  }

  /** The pool contribution: posted exactly when the Treasury covers it and the pool has room. */
  lemma PrizeMoves(b: Books, adm: Admission, amount: int64) returns (p: Found<PoolRow>, t: Found<TreasuryRow>)
    requires Ready(b, adm) && amount > 0 && adm.contest !in b.legacy
    requires DossierOf(b, adm).pool == PoolFile(None, None, None) && DossierOf(b, adm).treasury.pool.None?
    ensures var s := PostContestPrizeContribution(b, adm, amount);
      && (s.outcome == Posted <==> amount <= b.treasury && b.pools[adm.contest] + amount <= MAX_INT64)
      && (s.outcome != Posted ==> s.outcome == Failed(if amount > b.treasury then TreasuryShort else BalanceOverflow))
      && (s.outcome == Posted ==>
            && Moved(b, s.books, adm, Move(0, -amount, 0, amount, 1))
            && DossierOf(s.books, adm) == DossierOf(b, adm).(
                 pool := PoolFile(Some(p), Some(p), None), treasury := DossierOf(b, adm).treasury.(pool := Some(t)))
            && p.row.amount == amount && p.row.account == PrizePool(adm.contest)
            && p.row.detail == ContributionDetail(adm) && t.row.amount == -amount)
  {
    hide Moved, Find, Good, Shaped;
    NonNegative(b, adm);
    var s := PostContestPrizeContribution(b, adm, amount);
    if s.outcome == Posted {
      var td, pd := PoolAllocation(adm), ContributionDetail(adm);
      TreasuryPostMoves(b, adm, -amount, td);
      var b1 := PostTreasury(b, -amount, td).books;
      MovedReady(b, b1, adm, Move(0, -amount, 0, 0, 0));
      PoolPostMoves(b1, adm, amount, pd);
      var b2 := PostPool(b1, adm.contest, amount, pd).books;
      MovedThen(b, b1, b2, adm, Move(0, -amount, 0, 0, 0), Move(0, 0, 0, amount, 1));
      t := Found(|b.treasuryLedger|, Row(Treasury, -amount, b1.treasury, td));
      p := Found(|b.poolLedger|, Row(PrizePool(adm.contest), amount, b2.pools[adm.contest], pd));
      TreasuryFileAppend(b.treasuryLedger, t.row, adm);
      PoolFileAppend(b.poolLedger, p.row, adm);
    } else {
      p, t := Found(0, Row(Treasury, 0, 0, ContributionDetail(adm))), Found(0, Row(Treasury, 0, 0, PoolAllocation(adm)));
    }
  }

  // ----- The reversal's movements -----

  lemma RefundMoves(b: Books, adm: Admission, e: Found<WalletRow>, refund: int64) returns (r: Found<WalletRow>)
    requires Ready(b, adm) && refund > 0
    requires DossierOf(b, adm).wallet.entry == Some(e) && DossierOf(b, adm).wallet.reversal.None?
    ensures var p := PostWallet(b, adm.user, refund, ReversalDetail(adm, e.id));
      && (p.Done? <==> b.wallets[adm.user] + refund <= MAX_INT64)
      && (p.Done? ==>
            && Moved(b, p.books, adm, Move(refund, 0, 0, 0, 0))
            && DossierOf(p.books, adm) == DossierOf(b, adm).(wallet := DossierOf(b, adm).wallet.(reversal := Some(r)))
            && r.row.detail == ReversalDetail(adm, e.id))
  {
    hide Good, Shaped, Moved, FeeFileOf, TreasuryFileOf, PoolFileOf;
    NonNegative(b, adm);
    r := e;
    if b.wallets[adm.user] + refund <= MAX_INT64 {
      FindMeaning(b.walletLedger, Keyed(EntryKey(adm)));
      var d := ReversalDetail(adm, e.id);
      WalletPostMoves(b, adm, refund, d);
      r := Found(|b.walletLedger|, Row(UserWallet(adm.user), refund, b.wallets[adm.user] + refund, d));
      WalletFileAppend(b.walletLedger, r.row, adm);
    }
  }

  /** What reversing leaves alone: everything but the fee evidence. */
  ghost predicate SameButEvidence(d: Dossier, d': Dossier) {
    d' == d.(fees := d.fees.(evidence := d'.fees.evidence))
  }

  lemma FeeReversalFile(l: seq<FeeRow>, r: FeeRow, adm: Admission)
    requires r.detail.kind.FeeRefundReversal?
    ensures FeeFileOf(l + [r], adm) == FeeFileOf(l, adm).(evidence := FeeFileOf(l + [r], adm).evidence)
  {
    FeeFileAppend(l, r, adm);
  }

  lemma TreasuryReversalFile(l: seq<TreasuryRow>, r: TreasuryRow, adm: Admission)
    requires r.detail.TreasuryReversal?
    ensures TreasuryFileOf(l + [r], adm) == TreasuryFileOf(l, adm)
  {
    TreasuryFileAppend(l, r, adm);
  }

  /** One fee reversal: posted exactly when the Fee Wallet covers it and the Treasury has room. */
  lemma ReverseFeeMoves(b: Books, adm: Admission, o: FeeOriginal)
    requires Ready(b, adm) && 0 < o.fee.row.amount
    ensures var p := ReverseFee(b, adm, o);
      && (p.Done? <==> o.fee.row.amount <= b.feeWallet && b.treasury + o.fee.row.amount <= MAX_INT64)
      && (p.Refused? && o.fee.row.amount <= b.feeWallet ==> p.error == CheckViolation)
      && (p.Done? ==>
            && Moved(b, p.books, adm, Move(0, o.fee.row.amount, -o.fee.row.amount, 0, 0))
            && SameButEvidence(DossierOf(b, adm), DossierOf(p.books, adm)))
  {
    hide Ready, Moved, WalletFileOf, PoolFileOf, FeeFileOf, TreasuryFileOf;
    NonNegative(b, adm);
    var amount := o.fee.row.amount;
    if ReverseFee(b, adm, o).Done? {
      var fd, td := FeeReversalDetail(adm, o.fee), TreasuryReversal(adm, FeeKindOf(o.fee.row), o.custody.id);
      FeePostMoves(b, adm, -amount, fd);
      var b1 := PostFeeWallet(b, -amount, fd).books;
      MovedReady(b, b1, adm, Move(0, 0, -amount, 0, 0));
      TreasuryPostMoves(b1, adm, amount, td);
      var b2 := PostTreasury(b1, amount, td).books;
      MovedThen(b, b1, b2, adm, Move(0, 0, -amount, 0, 0), Move(0, amount, 0, 0, 0));
      FeeReversalFile(b.feeLedger, Row(FeeWallet, -amount, b1.feeWallet, fd), adm);
      TreasuryReversalFile(b1.treasuryLedger, Row(Treasury, amount, b2.treasury, td), adm);
    }
  }

  function FeeSum(fees: seq<FeeOriginal>): int {
    if fees == [] then 0 else FeeSum(fees[..|fees| - 1]) + fees[|fees| - 1].fee.row.amount
  }

  lemma {:induction false} FeeSumPositive(fees: seq<FeeOriginal>)
    requires forall i :: 0 <= i < |fees| ==> fees[i].fee.row.amount > 0
    ensures FeeSum(fees) >= 0
  {
    if fees != [] { FeeSumPositive(fees[..|fees| - 1]); }
  }

  /** All fee reversals of an admission, chained: posted exactly when the Fee Wallet covers them and the Treasury has room. */
  lemma {:induction false} ReverseFeesMove(b: Books, adm: Admission, fees: seq<FeeOriginal>)
    requires Ready(b, adm) && forall i :: 0 <= i < |fees| ==> fees[i].fee.row.amount > 0
    ensures var p := ReverseFees(b, adm, fees);
      && (p.Done? <==> FeeSum(fees) <= b.feeWallet && b.treasury + FeeSum(fees) <= MAX_INT64)
      && (p.Refused? && FeeSum(fees) <= b.feeWallet ==> p.error == CheckViolation)
      && (p.Done? ==>
            && Moved(b, p.books, adm, Move(0, FeeSum(fees), -FeeSum(fees), 0, 0))
            && SameButEvidence(DossierOf(b, adm), DossierOf(p.books, adm))
            && 0 <= FeeSum(fees) == FeeTotal(fees))
  {
    hide Ready, DossierOf, ReverseFee, Good, External, OthersKept, CreditsShifted, Shifted;
    NonNegative(b, adm);
    FeeSumPositive(fees);
    if fees == [] {
      MovedNothing(b, adm);
    } else {
      var rest := fees[..|fees| - 1];
      var o := fees[|fees| - 1];
      FeeSumPositive(rest);
      ReverseFeesMove(b, adm, rest);
      if ReverseFees(b, adm, rest).Done? {
        var b1 := ReverseFees(b, adm, rest).books;
        ReverseFeeMoves(b1, adm, o);
        if ReverseFee(b1, adm, o).Done? {
          MovedThen(b, b1, ReverseFee(b1, adm, o).books, adm, Move(0, FeeSum(rest), -FeeSum(rest), 0, 0),
                    Move(0, o.fee.row.amount, -o.fee.row.amount, 0, 0));
        }
      }
    }
  }

  /** The pool reversal: posted exactly when the pool covers it and the Treasury has room. */
  lemma ReversePoolMoves(b: Books, adm: Admission, p: Found<PoolRow>, t: Found<TreasuryRow>, prize: int64)
    requires Ready(b, adm) && PrizeOk(DossierOf(b, adm), adm, prize) && 0 < prize
    requires DossierOf(b, adm).pool.credit == Some(p)
    ensures var r := ReversePool(b, adm, p, t);
      && (r.Done? <==> prize <= b.pools[adm.contest] && b.treasury + prize <= MAX_INT64)
      && (r.Refused? && prize <= b.pools[adm.contest] ==> r.error == CheckViolation)
      && (r.Done? ==>
            && Moved(b, r.books, adm, Move(0, prize, 0, -prize, -1))
            && DossierOf(r.books, adm).wallet == DossierOf(b, adm).wallet)
  {
    hide Good, Shaped, Moved, WalletFileOf, FeeFileOf, TreasuryFileOf;
    NonNegative(b, adm);
    if ReversePool(b, adm, p, t).Done? {
      ReversedCredit(b, adm, p, prize);
      var pd := PoolDetail(false, adm.user, PoolReversalKey(adm), Some(p.id));
      PoolPostMoves(b, adm, -prize, pd);
      var b1 := PostPool(b, adm.contest, -prize, pd).books;
      MovedReady(b, b1, adm, Move(0, 0, 0, -prize, -1));
      TreasuryPostMoves(b1, adm, prize, TreasuryReversal(adm, None, t.id));
      MovedThen(b, b1, PostTreasury(b1, prize, TreasuryReversal(adm, None, t.id)).books, adm,
                Move(0, 0, 0, -prize, -1), Move(0, prize, 0, 0, 0));
    }
  }

  lemma ReversedCredit(b: Books, adm: Admission, p: Found<PoolRow>, prize: int64)
    requires PrizeOk(DossierOf(b, adm), adm, prize) && 0 < prize && DossierOf(b, adm).pool.credit == Some(p)
    ensures PoolRowFits(b.poolLedger, adm, PoolDetail(false, adm.user, PoolReversalKey(adm), Some(p.id)))
  {
    FindMeaning(b.poolLedger, CreditOf(adm));
  }
}
