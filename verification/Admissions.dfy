/**
  A whole paid admission and its whole reversal, as exact opposite movements of money.
 */
module Admissions {
  import opened Int64
  import opened Rows
  import opened Books
  import opened LedgerLaws
  import opened Dossiers
  import opened Moves
  import opened Economics

  function ChargeOf(c: JoinCharge, bps: int): Charge {
    Charge(c.total, c.platform, c.surcharge, c.prize, bps)
  }

  function Fees(c: JoinCharge): int {
    c.platform + c.surcharge
  }

  /** What admitting does to the accounts; reversing does `Opposite` of it. */
  function AdmissionMove(c: JoinCharge): Move {
    Move(0 - c.total, 0 - c.total, Fees(c), c.prize, if c.prize > 0 then 1 else 0)
  }

  function Opposite(m: Move): Move {
    Move(-m.wallet, -m.treasury, -m.fee, -m.pool, -m.credits)
  }

  lemma FeePartMoves(b: Books, adm: Admission, fee: FeeKind, amount: int64, bps: int)
    requires Ready(b, adm) && 0 <= amount && 0 < bps <= MAX_BPS
    requires var d := DossierOf(b, adm); match fee
      case BaseFee => d.fees.base.None? && d.treasury.base.None?
      case LateSurcharge => d.fees.surcharge.None? && d.treasury.surcharge.None?
    ensures var s := PostFeePart(b, adm, fee, amount, bps);
      && (Succeeded(s) <==> amount <= b.treasury && b.feeWallet + amount <= MAX_INT64)
      && (!Succeeded(s) && amount <= b.treasury ==> s.outcome.error == BalanceOverflow)
      && (Succeeded(s) ==>
            && Moved(b, s.books, adm, Move(0, -amount, amount, 0, 0))
            && FeePartFiled(DossierOf(b, adm), DossierOf(s.books, adm), adm, fee, amount, bps))
  {
    hide Ready, Moved, PostContestFee, WalletFileOf, PoolFileOf, Evidence;
    if amount > 0 {
      var f, t := FeeMoves(b, adm, fee, amount, bps);
    } else {
      NonNegative(b, adm);
      MovedNothing(b, adm);
    }
  }

  /** One more fee part on record, and nothing else. */
  ghost predicate FeePartFiled(d: Dossier, d': Dossier, adm: Admission, fee: FeeKind, amount: int64, bps: int) {
    && d'.wallet == d.wallet && d'.pool == d.pool && d'.treasury.pool == d.treasury.pool
    && (d.fees.evidence == Inflows(d.fees) && d.fees.surcharge.None? ==> d'.fees.evidence == Inflows(d'.fees))
    && match fee
       case BaseFee =>
         && FeePartOk(d'.fees.base, d'.treasury.base, adm, fee, amount, bps)
         && d'.fees.surcharge == d.fees.surcharge && d'.treasury.surcharge == d.treasury.surcharge
       case LateSurcharge =>
         && FeePartOk(d'.fees.surcharge, d'.treasury.surcharge, adm, fee, amount, bps)
         && d'.fees.base == d.fees.base && d'.treasury.base == d.treasury.base
  }

  lemma PrizePartMoves(b: Books, adm: Admission, amount: int64)
    requires Ready(b, adm) && 0 <= amount && adm.contest !in b.legacy
    requires DossierOf(b, adm).pool == PoolFile(None, None, None) && DossierOf(b, adm).treasury.pool.None?
    ensures var s := PostPrizePart(b, adm, amount);
      && (Succeeded(s) <==> amount <= b.treasury && b.pools[adm.contest] + amount <= MAX_INT64)
      && (!Succeeded(s) && amount <= b.treasury ==> s.outcome.error == BalanceOverflow)
      && (Succeeded(s) ==>
            && Moved(b, s.books, adm, Move(0, -amount, 0, amount, if amount > 0 then 1 else 0))
            && var d, d' := DossierOf(b, adm), DossierOf(s.books, adm);
               && d'.wallet == d.wallet && d'.fees == d.fees
               && d'.treasury.base == d.treasury.base && d'.treasury.surcharge == d.treasury.surcharge
               && PrizeOk(d', adm, amount))
  {
    hide Good, Shaped, Moved, PostContestPrizeContribution, DossierOf;
    if amount > 0 {
      var p, t := PrizeMoves(b, adm, amount);
    } else {
      NonNegative(b, adm);
      MovedNothing(b, adm);
    }
  }

  /** Room in the Fee Wallet and in the pool: the only thing besides the user's wallet that an admission depends on. */
  predicate RoomFor(b: Books, adm: Admission, c: JoinCharge)
    requires adm.contest in b.pools
  {
    b.feeWallet + Fees(c) <= MAX_INT64 && b.pools[adm.contest] + c.prize <= MAX_INT64
  }

  /** What decides a paid admission with nothing on record for it: the user's own wallet, and room. */
  function AdmissionVerdict(b: Books, adm: Admission, c: JoinCharge): Option<Error>
    requires adm.contest in b.pools
  {
    if adm.user !in b.wallets then Some(WalletNotFound)
    else if adm.user in b.frozen then Some(WalletFrozen)
    else if b.wallets[adm.user] < c.total then Some(InsufficientBalance)
    else if !RoomFor(b, adm, c) then Some(BalanceOverflow)
    else None
  }

  function OutcomeOf(verdict: Option<Error>): Outcome {
    if verdict.Some? then Failed(verdict.value) else Posted
  }

  /** An admission with nothing on record is posted in full or not at all, and moves exactly its charge. */
  lemma AdmitMoves(b: Books, adm: Admission, c: JoinCharge, bps: int)
    requires Ready(b, adm) && DossierOf(b, adm) == BLANK && Balanced(c) && c.total > 0 && 0 < bps <= MAX_BPS
    requires adm.contest !in b.legacy && b.wallets[adm.user] <= b.treasury
    ensures var s := Admit(b, adm, ChargeOf(c, bps));
      && s.outcome == OutcomeOf(AdmissionVerdict(b, adm, c))
      && (s.outcome != Posted ==> s.books == b)
      && (s.outcome == Posted ==>
            && Moved(b, s.books, adm, AdmissionMove(c))
            && Charged(DossierOf(s.books, adm), adm, c, bps))
  {
    hide Good, Shaped, External, OthersKept, CreditsShifted, DossierOf, DeductContestEntryFee, PostFeePart, PostPrizePart;
    NonNegative(b, adm);
    var e := DeductMoves(b, adm, c.total);
    if DeductContestEntryFee(b, adm, c.total).outcome == Posted {
      var b1 := DeductContestEntryFee(b, adm, c.total).books;
      FeePartMoves(b1, adm, BaseFee, c.platform, bps);
      if Succeeded(PostFeePart(b1, adm, BaseFee, c.platform, bps)) {
        var b2 := PostFeePart(b1, adm, BaseFee, c.platform, bps).books;
        FeePartMoves(b2, adm, LateSurcharge, c.surcharge, bps);
        if Succeeded(PostFeePart(b2, adm, LateSurcharge, c.surcharge, bps)) {
          var b3 := PostFeePart(b2, adm, LateSurcharge, c.surcharge, bps).books;
          PrizePartMoves(b3, adm, c.prize);
          if Succeeded(PostPrizePart(b3, adm, c.prize)) {
            AdmissionAddsUp(b, b1, b2, b3, PostPrizePart(b3, adm, c.prize).books, adm, c);
          }
        }
      }
    }
  }

  lemma AdmissionAddsUp(b: Books, b1: Books, b2: Books, b3: Books, b4: Books, adm: Admission, c: JoinCharge)
    requires Balanced(c) && Moved(b, b1, adm, Move(0 - c.total, 0, 0, 0, 0))
    requires Moved(b1, b2, adm, Move(0, 0 - c.platform, c.platform, 0, 0))
    requires Moved(b2, b3, adm, Move(0, 0 - c.surcharge, c.surcharge, 0, 0))
    requires Moved(b3, b4, adm, Move(0, 0 - c.prize, 0, c.prize, if c.prize > 0 then 1 else 0))
    ensures Moved(b, b4, adm, AdmissionMove(c))
  {
    hide Moved, Then, AdmissionMove, Balanced;
    var m1, m2 := Move(0 - c.total, 0, 0, 0, 0), Move(0, 0 - c.platform, c.platform, 0, 0);
    var m3, m4 := Move(0, 0 - c.surcharge, c.surcharge, 0, 0), Move(0, 0 - c.prize, 0, c.prize, if c.prize > 0 then 1 else 0);
    MovedThen(b, b1, b2, adm, m1, m2);
    MovedThen(b, b2, b3, adm, Then(m1, m2), m3);
    MovedThen(b, b3, b4, adm, Then(Then(m1, m2), m3), m4);
    PartsAddUp(c);
  }

  lemma PartsAddUp(c: JoinCharge)
    requires Balanced(c)
    ensures
      var m1, m2 := Move(0 - c.total, 0, 0, 0, 0), Move(0, 0 - c.platform, c.platform, 0, 0);
      var m3, m4 := Move(0, 0 - c.surcharge, c.surcharge, 0, 0), Move(0, 0 - c.prize, 0, c.prize, if c.prize > 0 then 1 else 0);
      Then(Then(Then(m1, m2), m3), m4) == AdmissionMove(c)
  {
  }

  /** The fee rows joined with their Treasury rows: one per positive part. */
  lemma FeeOriginal1Of(b: Books, adm: Admission, fee: FeeKind, amount: int64, bps: int)
    requires 0 <= amount
    requires FeePartOk(Find(b.feeLedger, InflowOf(adm, fee)), Find(b.treasuryLedger, FeeAllocationOf(adm, fee)), adm, fee, amount, bps)
    ensures var x := FeeOriginal1(b, adm, fee);
      |x| == (if amount > 0 then 1 else 0) && forall i :: 0 <= i < |x| ==> x[i].fee.row.amount == amount
  {
    hide Find;
  }

  lemma FeeSumOfTwo(x: seq<FeeOriginal>, y: seq<FeeOriginal>)
    requires |x| <= 1 && |y| <= 1
    ensures FeeSum(x + y) == (if x == [] then 0 else x[0].fee.row.amount) + (if y == [] then 0 else y[0].fee.row.amount)
  {
    assert FeeSum([]) == 0;
    if y != [] { assert (x + y)[..|x + y| - 1] == x; } else { assert x + y == x; }
    if x != [] { assert x[..0] == []; }
  }

  lemma FeeOriginalsOf(b: Books, adm: Admission, c: JoinCharge, bps: int)
    requires Balanced(c)
    requires var d := DossierOf(b, adm);
      && FeePartOk(d.fees.base, d.treasury.base, adm, BaseFee, c.platform, bps)
      && FeePartOk(d.fees.surcharge, d.treasury.surcharge, adm, LateSurcharge, c.surcharge, bps)
    ensures var fees := FeeOriginals(b, adm);
      FeeSum(fees) == Fees(c) && forall i :: 0 <= i < |fees| ==> fees[i].fee.row.amount > 0
  {
    hide Evidence, Find, FeeOriginal1, FeeSum, WalletFileOf, PoolFileOf, FeePartOk;
    FeeOriginal1Of(b, adm, BaseFee, c.platform, bps);
    FeeOriginal1Of(b, adm, LateSurcharge, c.surcharge, bps);
    FeeSumOfTwo(FeeOriginal1(b, adm, BaseFee), FeeOriginal1(b, adm, LateSurcharge));
  }

  /** The reversal after its guards: refund, then fees, then pool, then the reconciliation check. */
  lemma ReverseSplits(b: Books, adm: Admission, e: Found<WalletRow>, refund: int64)
    requires Find(b.walletLedger, EntryOf(adm)) == Some(e) && refund > 0 && e.row.amount == -refund
    requires adm.user in b.wallets && adm.contest in b.pools && 0 <= b.wallets[adm.user]
    ensures var s, p := ReverseContestAdmission(b, adm), PostWallet(b, adm.user, refund, ReversalDetail(adm, e.id));
      && (b.wallets[adm.user] + refund > MAX_INT64 ==> s == Fail(b, BalanceOverflow))
      && (p.Done? && b.wallets[adm.user] + refund <= MAX_INT64 ==>
            var fees := FeeOriginals(p.books, adm);
            var q := ReverseFees(p.books, adm, fees);
            && p.books.pools == b.pools
            && (q.Refused? ==> s == Fail(b, q.error))
            && (q.Done? ==> s == ReversePrize(b, q.books, adm, FeeTotal(fees), refund)))
  {
    hide ReverseFees, FeeOriginals, FeeTotal, ReversePrize, Find;
  }

  /** Which rows the pool half of the reversal works on, and when its closing update is refused. */
  lemma ReversePrizeCases(b: Books, b2: Books, adm: Admission, c: JoinCharge)
    requires Balanced(c) && adm.contest in b.pools && adm.contest in b2.pools && b2.pools[adm.contest] == b.pools[adm.contest]
    ensures var d, s := DossierOf(b2, adm), ReversePrize(b, b2, adm, Fees(c), c.total);
      && (d.pool.credit.Some? && d.treasury.pool.Some? && d.pool.credit.value.row.amount == c.prize > 0 ==>
            var p := ReversePool(b2, adm, d.pool.credit.value, d.treasury.pool.value);
            && (p.Refused? ==> s == Fail(b, p.error))
            && (p.Done? && p.books.pools[adm.contest] != b.pools[adm.contest] ==> s == Step(p.books, Posted)))
      && (d.pool.credit.None? && c.prize == 0 ==> s == Fail(b, PoolUnmoved))
  {
    hide ReversePool, WalletFileOf, FeeFileOf;
  }

  /** The pool half, on top of what was already reversed. */
  lemma ReversePrizeMoves(b: Books, b2: Books, adm: Admission, c: JoinCharge, m: Move)
    requires Moved(b, b2, adm, m) && m.pool == 0 && adm.contest in b.pools && Balanced(c)
    requires PrizeOk(DossierOf(b2, adm), adm, c.prize) && c.prize <= b2.pools[adm.contest]
    ensures var s := ReversePrize(b, b2, adm, Fees(c), c.total);
      && (c.prize == 0 ==> s == Fail(b, PoolUnmoved))
      && (c.prize > 0 && b2.treasury + c.prize > MAX_INT64 ==> s == Fail(b, CheckViolation))
      && (c.prize > 0 && b2.treasury + c.prize <= MAX_INT64 ==> s.outcome == Posted)
      && (s.outcome == Posted ==>
            && Moved(b, s.books, adm, Then(m, Move(0, c.prize, 0, -c.prize, -1)))
            && DossierOf(s.books, adm).wallet == DossierOf(b2, adm).wallet)
  {
    hide Good, Shaped, ReversePool, ReversePrize, DossierOf, External, OthersKept, CreditsShifted;
    ReversePrizeCases(b, b2, adm, c);
    if c.prize > 0 {
      var p, t := DossierOf(b2, adm).pool.credit.value, DossierOf(b2, adm).treasury.pool.value;
      ReversePoolMoves(b2, adm, p, t, c.prize);
      if ReversePool(b2, adm, p, t).Done? {
        MovedThen(b, b2, ReversePool(b2, adm, p, t).books, adm, m, Move(0, c.prize, 0, -c.prize, -1));
      }
    }
  }

  /**
    What decides the reversal of a charged admission. The balances decide only past 64 bits; without a prize part the
    trigger on the pool account refuses it.
   */
  function ReversalVerdict(b: Books, adm: Admission, c: JoinCharge): Option<Error>
    requires adm.user in b.wallets
  {
    if b.wallets[adm.user] + c.total > MAX_INT64 then Some(BalanceOverflow)
    else if b.treasury + c.total > MAX_INT64 then Some(CheckViolation)
    else if c.prize == 0 then Some(PoolUnmoved)
    else None
  }

  /** A charged admission is reversed in full or not at all, and every account gets back exactly what it took. */
  lemma ReverseMoves(b: Books, adm: Admission, c: JoinCharge, bps: int)
    requires Ready(b, adm) && Balanced(c) && Charged(DossierOf(b, adm), adm, c, bps)
    requires Fees(c) <= b.feeWallet && c.prize <= b.pools[adm.contest]
    ensures var s := ReverseContestAdmission(b, adm);
      && s.outcome == OutcomeOf(ReversalVerdict(b, adm, c))
      && (s.outcome != Posted ==> s.books == b)
      && (s.outcome == Posted ==>
            && Moved(b, s.books, adm, Opposite(AdmissionMove(c)))
            && Returned(DossierOf(s.books, adm), adm, c))
  {
    hide Good, Shaped, External, OthersKept, CreditsShifted, PostWallet, ReverseFees, FeeOriginals,
      ReverseContestAdmission, ReversePrize, FeeFileOf, TreasuryFileOf, PoolFileOf;
    NonNegative(b, adm);
    var e := DossierOf(b, adm).wallet.entry.value;
    var r := RefundMoves(b, adm, e, c.total);
    ReverseSplits(b, adm, e, c.total);
    if PostWallet(b, adm.user, c.total, ReversalDetail(adm, e.id)).Done? {
      var b1 := PostWallet(b, adm.user, c.total, ReversalDetail(adm, e.id)).books;
      var fees := FeeOriginals(b1, adm);
      FeeOriginalsOf(b1, adm, c, bps);
      ReverseFeesMove(b1, adm, fees);
      if ReverseFees(b1, adm, fees).Done? {
        var b2 := ReverseFees(b1, adm, fees).books;
        var m1, m2 := Move(c.total, 0, 0, 0, 0), Move(0, Fees(c), -Fees(c), 0, 0);
        MovedThen(b, b1, b2, adm, m1, m2);
        ReversePrizeMoves(b, b2, adm, c, Then(m1, m2));
      }
    }
  }
}
