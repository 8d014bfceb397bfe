/**
  What reversing one admission does to the tables, said outright: which guard stops it and, if none does, every row it
  appends, each pointing at the row it reverses.
 */
module ReversalEffects {
  import opened Int64
  import opened Rows
  import opened Books
  import opened LedgerLaws
  import opened Moves
  import opened Economics
  import opened WalletEffects

  /** Where the rows of an admission stand in their ledgers; the place of a part that was not paid means nothing. */
  datatype Places = Places(
    entry: nat, base: nat, baseCustody: nat, surcharge: nat, surchargeCustody: nat, credit: nat, creditCustody: nat)

  ghost predicate EntryAt(b: Books, adm: Admission, total: int, i: nat) {
    && i < |b.walletLedger| && b.walletLedger[i].amount == 0 - total && IsEntry(b.walletLedger[i], adm)
    && forall k :: i < k < |b.walletLedger| ==> !IsEntry(b.walletLedger[k], adm)
  }

  predicate IsEntry(r: WalletRow, adm: Admission) {
    r.account == UserWallet(adm.user) && r.detail.kind == ContestEntry && r.detail.reference == ContestReference(adm.contest)
  }

  predicate IsInflow(r: FeeRow, adm: Admission, fee: FeeKind) {
    r.detail.adm == adm && r.detail.kind == Inflow(fee)
  }

  /** The latest fee row of the part and the latest Treasury row that funded it or, for an amount of zero, neither. */
  ghost predicate FeeAt(b: Books, adm: Admission, fee: FeeKind, amount: int, bps: int, i: nat, j: nat) {
    if amount > 0 then
      && i < |b.feeLedger| && b.feeLedger[i].amount == amount
      && b.feeLedger[i].detail == FeeDetail(Inflow(fee), adm, adm.contest, adm.user, "2026-09-06.1", bps, None)
      && (forall k :: i < k < |b.feeLedger| ==> !IsInflow(b.feeLedger[k], adm, fee))
      && j < |b.treasuryLedger| && b.treasuryLedger[j].detail == FeeAllocation(adm, fee)
      && (forall k :: j < k < |b.treasuryLedger| ==> b.treasuryLedger[k].detail != FeeAllocation(adm, fee))
    else !FeeOnRecord(b, adm, fee)
  }

  predicate IsCredit(r: PoolRow, adm: Admission) {
    r.account == PrizePool(adm.contest) && r.detail.user == adm.user && r.detail.credit
  }

  ghost predicate CreditAt(b: Books, adm: Admission, prize: int, i: nat, j: nat) {
    if prize > 0 then
      && i < |b.poolLedger| && b.poolLedger[i].amount == prize && IsCredit(b.poolLedger[i], adm)
      && (forall k :: i < k < |b.poolLedger| ==> !IsCredit(b.poolLedger[k], adm))
      && j < |b.treasuryLedger| && b.treasuryLedger[j].detail == PoolAllocation(adm)
      && (forall k :: j < k < |b.treasuryLedger| ==> b.treasuryLedger[k].detail != PoolAllocation(adm))
    else !AllocationOnRecord(b, PoolAllocation(adm))
  }

  /** The admission's charge is on record, with its rows at these places. */
  ghost predicate OnRecord(b: Books, adm: Admission, c: JoinCharge, bps: int, at: Places) {
    && EntryAt(b, adm, c.total, at.entry)
    && FeeAt(b, adm, BaseFee, c.platform, bps, at.base, at.baseCustody)
    && FeeAt(b, adm, LateSurcharge, c.surcharge, bps, at.surcharge, at.surchargeCustody)
    && CreditAt(b, adm, c.prize, at.credit, at.creditCustody)
  }

  ghost predicate PoolReversed(b: Books, adm: Admission) {
    exists i :: 0 <= i < |b.poolLedger| && b.poolLedger[i].detail.key == PoolReversalKey(adm)
  }

  // ----- The rows a reversal appends -----

  /** One fee part goes back: a row of the Fee Wallet and a row of the Treasury, each naming its original. */
  ghost predicate FeeBack(b: Books, b': Books, adm: Admission, fee: FeeKind, amount: int, bps: int, i: nat, j: nat) {
    if amount > 0 then
      && b' == b.(feeWallet := b'.feeWallet, feeLedger := b'.feeLedger, treasury := b'.treasury, treasuryLedger := b'.treasuryLedger)
      && b'.feeWallet == b.feeWallet - amount && b'.treasury == b.treasury + amount
      && Adds(b.feeLedger, b'.feeLedger, FeeWallet, 0 - amount, b.feeWallet - amount,
              FeeDetail(FeeRefundReversal, adm, adm.contest, adm.user, "2026-09-06.1", bps, Some(i)))
      && Adds(b.treasuryLedger, b'.treasuryLedger, Treasury, amount, b.treasury + amount,
              TreasuryReversal(adm, Some(fee), j))
    else b' == b
  }

  ghost predicate EntryBack(b: Books, b': Books, adm: Admission, total: int, i: nat) {
    WalletMoved(b, Step(b', Posted), adm.user, total,
      WalletDetail(ContestRefund, ContestReference(adm.contest), RefundReason("CONTEST_REFUND_ADMIN"), Some(ReversalKey(adm)),
                   Some(i)))
  }

  ghost predicate PrizeBack(b: Books, b': Books, adm: Admission, prize: int, i: nat, j: nat) {
    && adm.contest in b.pools && adm.contest in b'.pools
    && b' == b.(pools := b'.pools, poolLedger := b'.poolLedger, treasury := b'.treasury, treasuryLedger := b'.treasuryLedger)
    && b'.pools == b.pools[adm.contest := b'.pools[adm.contest]] && b'.pools[adm.contest] == b.pools[adm.contest] - prize
    && b'.treasury == b.treasury + prize
    && Adds(b.poolLedger, b'.poolLedger, PrizePool(adm.contest), 0 - prize, b.pools[adm.contest] - prize,
            PoolDetail(false, adm.user, PoolReversalKey(adm), Some(i)))
    && Adds(b.treasuryLedger, b'.treasuryLedger, Treasury, prize, b.treasury + prize, TreasuryReversal(adm, None, j))
  }

  /** The refund, the base fee, the surcharge and the prize part, in this order. */
  ghost predicate Reversed(b: Books, b': Books, adm: Admission, c: JoinCharge, bps: int, at: Places) {
    exists b1, b2, b3 ::
      && EntryBack(b, b1, adm, c.total, at.entry)
      && FeeBack(b1, b2, adm, BaseFee, c.platform, bps, at.base, at.baseCustody)
      && FeeBack(b2, b3, adm, LateSurcharge, c.surcharge, bps, at.surcharge, at.surchargeCustody)
      && PrizeBack(b3, b', adm, c.prize, at.credit, at.creditCustody)
  }

  // ----- Finding the originals -----

  lemma EntryFound(b: Books, adm: Admission, total: int, i: nat)
    requires EntryAt(b, adm, total, i)
    ensures Find(b.walletLedger, EntryOf(adm)) == Some(Found(i, b.walletLedger[i]))
  {
    FindMeaning(b.walletLedger, EntryOf(adm));
    assert EntryOf(adm)(b.walletLedger[i]);
    assert forall k :: 0 <= k < |b.walletLedger| ==> (EntryOf(adm)(b.walletLedger[k]) <==> IsEntry(b.walletLedger[k], adm));
  }

  lemma FeeFound(b: Books, adm: Admission, fee: FeeKind, amount: int, bps: int, i: nat, j: nat)
    requires FeeAt(b, adm, fee, amount, bps, i, j)
    ensures FeeOriginal1(b, adm, fee) ==
      if amount > 0 then [FeeOriginal(Found(i, b.feeLedger[i]), Found(j, b.treasuryLedger[j]))] else []
  {
    FeeIsFound(b, adm, fee);
    FindMeaning(b.feeLedger, InflowOf(adm, fee));
    FindMeaning(b.treasuryLedger, FeeAllocationOf(adm, fee));
    if amount > 0 {
      assert InflowOf(adm, fee)(b.feeLedger[i]) && FeeAllocationOf(adm, fee)(b.treasuryLedger[j]);
      assert forall k :: 0 <= k < |b.feeLedger| ==> (InflowOf(adm, fee)(b.feeLedger[k]) <==> IsInflow(b.feeLedger[k], adm, fee));
    }
    hide Find, FeeOnRecord;
  }

  lemma CreditFound(b: Books, adm: Admission, prize: int, i: nat, j: nat)
    requires CreditAt(b, adm, prize, i, j)
    ensures prize > 0 ==> Find(b.poolLedger, CreditOf(adm)) == Some(Found(i, b.poolLedger[i]))
    ensures Find(b.treasuryLedger, PoolAllocationOf(adm)) == if prize > 0 then Some(Found(j, b.treasuryLedger[j])) else None
  {
    ContributionIsFound(b, adm);
    FindMeaning(b.poolLedger, CreditOf(adm));
    FindMeaning(b.treasuryLedger, PoolAllocationOf(adm));
    if prize > 0 {
      assert CreditOf(adm)(b.poolLedger[i]) && PoolAllocationOf(adm)(b.treasuryLedger[j]);
      assert forall k :: 0 <= k < |b.poolLedger| ==> (CreditOf(adm)(b.poolLedger[k]) <==> IsCredit(b.poolLedger[k], adm));
    }
  }

  // ----- One part at a time -----

  lemma EntryPosts(b: Books, adm: Admission, total: int64, i: nat)
    requires Good(b) && adm.user in b.wallets && 0 < total && b.wallets[adm.user] + total <= MAX_INT64
    ensures var p := PostWallet(b, adm.user, total, ReversalDetail(adm, i));
      if KeyUsed(b, ReversalKey(adm)) then p == Posting.Refused(DuplicateKey)
      else p.Done? && EntryBack(b, p.books, adm, total, i)
  {
    WalletsNonNegative(b);
    UsedIsFound(b, ReversalKey(adm));
    hide Good, Find, KeyUsed;
  }

  /** No part, or one part, of the fees. */
  function BackOne(b: Books, adm: Admission, fees: seq<FeeOriginal>): Posting
    requires |fees| <= 1
  {
    if fees == [] then Done(b) else ReverseFee(b, adm, fees[0])
  }

  lemma BackBoth(b: Books, adm: Admission, x: seq<FeeOriginal>, y: seq<FeeOriginal>)
    requires |x| <= 1 && |y| <= 1
    ensures ReverseFees(b, adm, x + y) ==
      if BackOne(b, adm, x).Done? then BackOne(BackOne(b, adm, x).books, adm, y) else BackOne(b, adm, x)
  {
    hide ReverseFee;
    assert ReverseFees(b, adm, []) == Done(b);
    if x != [] { assert x[..0] == []; }
    if y == [] { assert x + y == x; } else { assert (x + y)[..|x + y| - 1] == x; }
  }

  lemma FeePosts(b: Books, b0: Books, adm: Admission, fee: FeeKind, amount: int, bps: int, i: nat, j: nat)
    requires FeeAt(b0, adm, fee, amount, bps, i, j) && 0 <= b.feeWallet && 0 <= b.treasury && 0 <= amount
    ensures var p := BackOne(b, adm, FeeOriginal1(b0, adm, fee));
      if b.feeWallet < amount then p == Posting.Refused(ReversalWouldBeNegative)
      else if b.treasury + amount > MAX_INT64 then p == Posting.Refused(CheckViolation)
      else p.Done? && FeeBack(b, p.books, adm, fee, amount, bps, i, j)
  {
    FeeFound(b0, adm, fee, amount, bps, i, j);
    hide FeeOriginal1, FeeOnRecord;
  }

  lemma PrizePosts(b: Books, adm: Admission, prize: int64, p: Found<PoolRow>, t: Found<TreasuryRow>)
    requires 0 < prize == p.row.amount && adm.contest in b.pools && 0 <= b.treasury
    ensures var r := ReversePool(b, adm, p, t);
      if b.pools[adm.contest] < prize then r == Posting.Refused(ReversalWouldBeNegative)
      else if PoolReversed(b, adm) then r == Posting.Refused(DuplicateKey)
      else if b.treasury + prize > MAX_INT64 then r == Posting.Refused(CheckViolation)
      else
        && r.Done? && PrizeBack(b, r.books, adm, prize, p.id, t.id)
        && adm.contest in r.books.pools && r.books.pools[adm.contest] == b.pools[adm.contest] - prize
  {
    FindMeaning(b.poolLedger, PoolKeyed(PoolReversalKey(adm)));
    if PoolReversed(b, adm) {
      var i :| 0 <= i < |b.poolLedger| && b.poolLedger[i].detail.key == PoolReversalKey(adm);
      assert PoolKeyed(PoolReversalKey(adm))(b.poolLedger[i]);
    }
    hide Find, PoolReversed;
  }

  /** The pool half after the refund and the fees: it reconciles by itself, and fails without a prize part. */
  lemma PrizeSettles(b: Books, b3: Books, adm: Admission, c: JoinCharge, at: Places)
    requires Balanced(c) && CreditAt(b3, adm, c.prize, at.credit, at.creditCustody) && 0 <= b3.treasury
    requires adm.contest in b.pools && b3.pools == b.pools && c.platform + c.surcharge <= MAX_INT64
    ensures var s := ReversePrize(b, b3, adm, c.platform + c.surcharge, c.total);
      if c.prize == 0 then Left(b, s, Failed(PoolUnmoved))
      else if b.pools[adm.contest] < c.prize then Left(b, s, Failed(ReversalWouldBeNegative))
      else if PoolReversed(b3, adm) then Left(b, s, Failed(DuplicateKey))
      else if b3.treasury + c.prize > MAX_INT64 then Left(b, s, Failed(CheckViolation))
      else s.outcome == Posted && PrizeBack(b3, s.books, adm, c.prize, at.credit, at.creditCustody)
  {
    CreditFound(b3, adm, c.prize, at.credit, at.creditCustody);
    if c.prize > 0 {
      PrizePosts(b3, adm, c.prize, Found(at.credit, b3.poolLedger[at.credit]), Found(at.creditCustody, b3.treasuryLedger[at.creditCustody]));
    }
    hide Find, ReversePool, PoolReversed, AllocationOnRecord, PrizeBack, CreditAt;
  }

  lemma TwoFees(b: Books, adm: Admission, c: JoinCharge, bps: int, at: Places)
    requires OnRecord(b, adm, c, bps, at) && Balanced(c)
    ensures FeeTotal(FeeOriginals(b, adm)) == c.platform + c.surcharge
    ensures |FeeOriginal1(b, adm, BaseFee)| <= 1 && |FeeOriginal1(b, adm, LateSurcharge)| <= 1
  {
    FeeFound(b, adm, BaseFee, c.platform, bps, at.base, at.baseCustody);
    FeeFound(b, adm, LateSurcharge, c.surcharge, bps, at.surcharge, at.surchargeCustody);
    var x, y := FeeOriginal1(b, adm, BaseFee), FeeOriginal1(b, adm, LateSurcharge);
    hide FeeOriginal1, FeeOnRecord, EntryAt, CreditAt;
    TotalOfTwo(x, y);
  }

  lemma TotalOfTwo(x: seq<FeeOriginal>, y: seq<FeeOriginal>)
    requires |x| <= 1 && |y| <= 1
    ensures FeeTotal(x + y) == Wrap((if x == [] then 0 else x[0].fee.row.amount) + (if y == [] then 0 else y[0].fee.row.amount))
  {
    assert FeeTotal([]) == 0;
    if y != [] { assert (x + y)[..|x + y| - 1] == x; } else { assert x + y == x; }
    if x != [] { assert x[..0] == []; }
  }

  lemma CreditStays(b: Books, b': Books, adm: Admission, fee: FeeKind, amount: int, bps: int, i: nat, j: nat, prize: int, k: nat, l: nat)
    requires CreditAt(b, adm, prize, k, l) && FeeBack(b, b', adm, fee, amount, bps, i, j)
    ensures CreditAt(b', adm, prize, k, l) && b'.pools == b.pools && b'.poolLedger == b.poolLedger && b'.wallets == b.wallets
  {
    if amount > 0 {
      var l, l' := b.treasuryLedger, b'.treasuryLedger;
      assert l'[..|l|] == l;
      assert forall n :: 0 <= n < |l'| ==> l'[n] == if n < |l| then l[n] else l'[|l|];
    }
  }

  /** The fees of a reversal, once the refund has changed the wallets alone: both parts, or the guard that stops them. */
  lemma FeesPost(b: Books, b1: Books, adm: Admission, c: JoinCharge, bps: int, at: Places) returns (b2: Books)
    requires OnRecord(b, adm, c, bps, at) && Balanced(c) && 0 <= b.feeWallet && 0 <= b.treasury
    requires b1 == b.(wallets := b1.wallets, walletLedger := b1.walletLedger)
    ensures var p := ReverseFees(b1, adm, FeeOriginals(b1, adm));
      if b.feeWallet < c.platform then p == Posting.Refused(ReversalWouldBeNegative)
      else if b.treasury + c.platform > MAX_INT64 then p == Posting.Refused(CheckViolation)
      else if b.feeWallet < c.platform + c.surcharge then p == Posting.Refused(ReversalWouldBeNegative)
      else if b.treasury + c.platform + c.surcharge > MAX_INT64 then p == Posting.Refused(CheckViolation)
      else
        && p.Done? && p.books.pools == b.pools && p.books.poolLedger == b.poolLedger
        && p.books.treasury == b.treasury + c.platform + c.surcharge
        && CreditAt(p.books, adm, c.prize, at.credit, at.creditCustody)
        && FeeBack(b1, b2, adm, BaseFee, c.platform, bps, at.base, at.baseCustody)
        && FeeBack(b2, p.books, adm, LateSurcharge, c.surcharge, bps, at.surcharge, at.surchargeCustody)
    ensures FeeTotal(FeeOriginals(b1, adm)) == c.platform + c.surcharge
  {
    hide Find, EntryAt, FeeAt, CreditAt, FeeTotal, BackOne, ReverseFees, FeeBack;
    SameFees(b, b1, adm, c.prize, at);
    var x, y := FeeOriginal1(b, adm, BaseFee), FeeOriginal1(b, adm, LateSurcharge);
    TwoFees(b, adm, c, bps, at);
    BackBoth(b1, adm, x, y);
    FeePosts(b1, b, adm, BaseFee, c.platform, bps, at.base, at.baseCustody);
    b2 := b1;
    hide FeeOriginal1;
    if BackOne(b1, adm, x).Done? {
      b2 := BackOne(b1, adm, x).books;
      BackBalances(b1, b2, adm, BaseFee, c.platform, bps, at.base, at.baseCustody);
      FeePosts(b2, b, adm, LateSurcharge, c.surcharge, bps, at.surcharge, at.surchargeCustody);
      CreditStays(b1, b2, adm, BaseFee, c.platform, bps, at.base, at.baseCustody, c.prize, at.credit, at.creditCustody);
      if BackOne(b2, adm, y).Done? {
        var b3 := BackOne(b2, adm, y).books;
        BackBalances(b2, b3, adm, LateSurcharge, c.surcharge, bps, at.surcharge, at.surchargeCustody);
        CreditStays(b2, b3, adm, LateSurcharge, c.surcharge, bps, at.surcharge, at.surchargeCustody, c.prize, at.credit, at.creditCustody);
      }
    }
  }

  lemma BackBalances(b: Books, b': Books, adm: Admission, fee: FeeKind, amount: int, bps: int, i: nat, j: nat)
    requires FeeBack(b, b', adm, fee, amount, bps, i, j) && 0 <= amount
    ensures b'.feeWallet == b.feeWallet - amount && b'.treasury == b.treasury + amount
  {
  }

  lemma SameFees(b: Books, b1: Books, adm: Admission, prize: int, at: Places)
    requires b1 == b.(wallets := b1.wallets, walletLedger := b1.walletLedger)
    ensures FeeOriginals(b1, adm) == FeeOriginal1(b, adm, BaseFee) + FeeOriginal1(b, adm, LateSurcharge) == FeeOriginals(b, adm)
    ensures CreditAt(b, adm, prize, at.credit, at.creditCustody) ==> CreditAt(b1, adm, prize, at.credit, at.creditCustody)
  {
    hide Find;
    assert AllocationOnRecord(b1, PoolAllocation(adm)) == AllocationOnRecord(b, PoolAllocation(adm));
  }

  /** The reversal of an admission on record, for any books: the first guard that fails, or exactly these rows. */
  lemma ReversalEffect(b: Books, adm: Admission, c: JoinCharge, bps: int, at: Places)
    requires Good(b) && adm.user in b.wallets && adm.contest in b.pools
    requires Balanced(c) && c.total > 0 && OnRecord(b, adm, c, bps, at)
    ensures var s := ReverseContestAdmission(b, adm);
      if b.wallets[adm.user] + c.total > MAX_INT64 then Left(b, s, Failed(BalanceOverflow))
      else if KeyUsed(b, ReversalKey(adm)) then Left(b, s, Failed(DuplicateKey))
      else if b.feeWallet < c.platform then Left(b, s, Failed(ReversalWouldBeNegative))
      else if b.treasury + c.platform > MAX_INT64 then Left(b, s, Failed(CheckViolation))
      else if b.feeWallet < c.platform + c.surcharge then Left(b, s, Failed(ReversalWouldBeNegative))
      else if b.treasury + c.platform + c.surcharge > MAX_INT64 then Left(b, s, Failed(CheckViolation))
      else if c.prize == 0 then Left(b, s, Failed(PoolUnmoved))
      else if b.pools[adm.contest] < c.prize then Left(b, s, Failed(ReversalWouldBeNegative))
      else if PoolReversed(b, adm) then Left(b, s, Failed(DuplicateKey))
      else if b.treasury + c.total > MAX_INT64 then Left(b, s, Failed(CheckViolation))
      else s.outcome == Posted && Reversed(b, s.books, adm, c, bps, at)
  {
    hide KeyUsed, Good, Find, FeeAt, CreditAt, FeeOriginals, ReverseFees, ReversePrize, PostWallet, FeeTotal, PoolReversed, FeeBack,
      PrizeBack, EntryBack;
    WalletsNonNegative(b);
    EntryFound(b, adm, c.total, at.entry);
    if b.wallets[adm.user] + c.total <= MAX_INT64 {
      EntryPosts(b, adm, c.total, at.entry);
      var p := PostWallet(b, adm.user, c.total, ReversalDetail(adm, at.entry));
      if p.Done? {
        EntryBackKeeps(b, p.books, adm, c.total, at.entry);
        var b2 := FeesPost(b, p.books, adm, c, bps, at);
        var q := ReverseFees(p.books, adm, FeeOriginals(p.books, adm));
        if q.Done? {
          PrizeSettles(b, q.books, adm, c, at);
          SamePoolRows(b, q.books, adm);
        }
      }
    }
  }

  /** Without an entry on record there is nothing to reverse. */
  lemma NothingOnRecord(b: Books, adm: Admission)
    requires forall i :: 0 <= i < |b.walletLedger| ==> !IsEntry(b.walletLedger[i], adm)
    ensures Left(b, ReverseContestAdmission(b, adm), Nothing)
  {
    FindMeaning(b.walletLedger, EntryOf(adm));
    assert forall i :: 0 <= i < |b.walletLedger| ==> (EntryOf(adm)(b.walletLedger[i]) <==> IsEntry(b.walletLedger[i], adm));
    hide Find;
  }

  lemma EntryBackKeeps(b: Books, b1: Books, adm: Admission, total: int, i: nat)
    requires EntryBack(b, b1, adm, total, i)
    ensures b1 == b.(wallets := b1.wallets, walletLedger := b1.walletLedger)
  {
  }

  lemma SamePoolRows(b: Books, b': Books, adm: Admission)
    requires b'.poolLedger == b.poolLedger
    ensures PoolReversed(b', adm) == PoolReversed(b, adm)
  {
  }
}
