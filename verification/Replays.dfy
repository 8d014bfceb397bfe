/**
  What replaying an admission with other figures does: the debit is recognised by key alone, so a part that the
  original did not have is posted without a matching charge.
 */
module Replays {
  import opened Int64
  import opened Rows
  import opened Books
  import opened LedgerLaws
  import opened Retries

  /** Entitlements minus custody; zero in every closed run. */
  ghost function Drift(b: Books): int {
    Total(b.wallets) - b.treasury
  }

  /** Every part the replay asks for was posted by the original. A caller can look this up beforehand. */
  ghost predicate NothingNew(b: Books, adm: Admission, c: Charge) {
    && (c.base > 0 ==> Find(b.feeLedger, InflowOf(adm, BaseFee)).Some?)
    && (c.surcharge > 0 ==> Find(b.feeLedger, InflowOf(adm, LateSurcharge)).Some?)
    && (c.prize > 0 ==> Find(b.poolLedger, PoolKeyed(ContributionKey(adm))).Some?)
  }

  lemma FeePartEffect(b: Books, adm: Admission, fee: FeeKind, amount: int64, bps: int)
    requires Good(b) && Succeeded(PostFeePart(b, adm, fee, amount, bps))
    ensures var b' := PostFeePart(b, adm, fee, amount, bps).books;
      && b'.wallets == b.wallets && b'.poolLedger == b.poolLedger
      && (amount > 0 && Find(b.feeLedger, InflowOf(adm, fee)).None? ==> b'.treasury == b.treasury - amount)
      && (!(amount > 0 && Find(b.feeLedger, InflowOf(adm, fee)).None?) ==> b' == b)
      && forall f :: f != fee ==> Find(b'.feeLedger, InflowOf(adm, f)) == Find(b.feeLedger, InflowOf(adm, f))
  {
    hide Good, Sound, Grows, Find;
    GoodIsSound(b);
    if amount > 0 && Find(b.feeLedger, InflowOf(adm, fee)).None? {
      var t := FeeAllocation(adm, fee);
      PostTreasurySound(b, -amount, t);
      PostFeeWalletGrows(PostTreasury(b, -amount, t).books, amount, InflowDetail(adm, fee, bps));
    }
  }

  lemma PrizePartEffect(b: Books, adm: Admission, amount: int64)
    requires Good(b) && Succeeded(PostPrizePart(b, adm, amount))
    ensures var b' := PostPrizePart(b, adm, amount).books;
      && b'.wallets == b.wallets
      && (amount > 0 && Find(b.poolLedger, PoolKeyed(ContributionKey(adm))).None? ==> b'.treasury == b.treasury - amount)
      && (!(amount > 0 && Find(b.poolLedger, PoolKeyed(ContributionKey(adm))).None?) ==> b' == b)
  {
    hide Good, Sound, Grows, Find;
    GoodIsSound(b);
    if amount > 0 && Find(b.poolLedger, PoolKeyed(ContributionKey(adm))).None? {
      PostTreasurySound(b, -amount, PoolAllocation(adm));
    }
  }

  /** A replay of a recorded admission keeps custody equal to entitlements if and only if it fails or asks for nothing new. */
  lemma ReplayConservesIff(b: Books, adm: Admission, c: Charge)
    requires Good(b) && HasKey(b, EntryKey(adm))
    ensures Drift(Admit(b, adm, c).books) == Drift(b) <==> NothingNew(b, adm, c) || !Succeeded(Admit(b, adm, c))
    ensures NothingNew(b, adm, c) || !Succeeded(Admit(b, adm, c)) ==> Admit(b, adm, c).books == b
  {
    hide Good, Grows, PostFeePart, PostPrizePart;
    if Succeeded(Admit(b, adm, c)) { SuccessConservesIff(b, adm, c); }
  }

  lemma SuccessConservesIff(b: Books, adm: Admission, c: Charge)
    requires Good(b) && HasKey(b, EntryKey(adm)) && Succeeded(Admit(b, adm, c))
    ensures Drift(Admit(b, adm, c).books) == Drift(b) <==> NothingNew(b, adm, c)
    ensures NothingNew(b, adm, c) ==> Admit(b, adm, c).books == b
  {
    hide Good, Grows, PostFeePart, PostPrizePart;
    FeePartEffect(b, adm, BaseFee, c.base, c.bps);
    var b1 := PostFeePart(b, adm, BaseFee, c.base, c.bps).books;
    GoodFeePart(b, adm, BaseFee, c.base, c.bps);
    FeePartEffect(b1, adm, LateSurcharge, c.surcharge, c.bps);
    var b2 := PostFeePart(b1, adm, LateSurcharge, c.surcharge, c.bps).books;
    GoodFeePart(b1, adm, LateSurcharge, c.surcharge, c.bps);
    PrizePartEffect(b2, adm, c.prize);
  }

  lemma GoodFeePart(b: Books, adm: Admission, fee: FeeKind, amount: int64, bps: int)
    requires Good(b)
    ensures Good(PostFeePart(b, adm, fee, amount, bps).books)
  {
    GoodContestFee(b, adm, fee, amount, bps);
    hide Good, Grows, PostContestFee;
  }

  /** A reachable failure: replaying an on-time admission as a late one drains Treasury without charging anyone. */
  lemma LateReplayDrains(b: Books, adm: Admission, c: Charge, x: int64)
    requires Good(b) && Settled(b, AdmitPaid(adm, c)) && c.total > 0 && c.surcharge == 0 && c.total + x <= MAX_INT64
    requires 0 < x <= b.treasury && 0 < c.bps <= MAX_BPS && b.feeWallet + x <= MAX_INT64
    requires Find(b.feeLedger, InflowOf(adm, LateSurcharge)).None?
      && Find(b.treasuryLedger, FeeAllocationOf(adm, LateSurcharge)).None?
    ensures var s := Admit(b, adm, c.(surcharge := x, total := c.total + x));
      Succeeded(s) && s.books.wallets == b.wallets && s.books.treasury == b.treasury - x
  {
    hide Good, PostContestFee, PostContestPrizeContribution, FeeSettled, PrizeSettled;
    NonNegativeCustody(b);
    var c' := c.(surcharge := x, total := c.total + x);
    PartsNoEffect(b, adm, BaseFee, c.base, c.bps);
    SurchargePosts(b, adm, x, c.bps);
    var b1 := PostContestFee(b, adm, LateSurcharge, x, c.bps).books;
    if c.prize > 0 {
      PrizeStillSettled(b, b1, adm, c.prize);
      PartsNoEffect(b1, adm, BaseFee, c.prize, c.bps);
    }
  }

  lemma NonNegativeCustody(b: Books)
    requires Good(b)
    ensures 0 <= b.feeWallet && 0 <= b.treasury
  {
    GoodIsSound(b);
  }

  lemma SurchargePosts(b: Books, adm: Admission, x: int64, bps: int)
    requires 0 < x <= b.treasury && 0 < bps <= MAX_BPS && 0 <= b.feeWallet && b.feeWallet + x <= MAX_INT64
    requires Find(b.feeLedger, InflowOf(adm, LateSurcharge)).None?
      && Find(b.treasuryLedger, FeeAllocationOf(adm, LateSurcharge)).None?
    ensures var s := PostContestFee(b, adm, LateSurcharge, x, bps);
      && s.outcome == Posted && s.books.treasury == b.treasury - x
      && s.books == b.(treasury := s.books.treasury, treasuryLedger := s.books.treasuryLedger,
                       feeWallet := s.books.feeWallet, feeLedger := s.books.feeLedger)
      && s.books.treasuryLedger == b.treasuryLedger + [Row(Treasury, -x, b.treasury - x, FeeAllocation(adm, LateSurcharge))]
  {
    hide Find;
  }

  lemma PrizeStillSettled(b: Books, b1: Books, adm: Admission, prize: int64)
    requires PrizeSettled(b, adm, prize)
    requires b1.pools == b.pools && b1.legacy == b.legacy && b1.poolLedger == b.poolLedger
    requires |b1.treasuryLedger| == |b.treasuryLedger| + 1 && b.treasuryLedger <= b1.treasuryLedger
    requires b1.treasuryLedger[|b.treasuryLedger|].detail == FeeAllocation(adm, LateSurcharge)
    ensures PrizeSettled(b1, adm, prize)
  {
    var row := b1.treasuryLedger[|b.treasuryLedger|];
    assert b1.treasuryLedger == b.treasuryLedger + [row];
    FindAppend(b.treasuryLedger, row, PoolAllocationOf(adm));
  }

  // ----- The failure on a concrete run: one deposit, one admission, and its replay with a surcharge -----

  const ADM := Admission("c", "u")
  const PAID := Charge(100, 20, 0, 80, 2000)
  const CUSTODY := Row(Treasury, 200, 200, ExternalDeposit("i", "u"))
  const ENTITLEMENT := Row(UserWallet("u"), 200, 200,
                           WalletDetail(Deposit, IntentReference("i"), NoReason, Some(DepositKey("i")), None))
  const ENTRY := Row(UserWallet("u"), -100, 100, EntryDetail(ADM))
  const TO_FEES := Row(Treasury, -20, 180, FeeAllocation(ADM, BaseFee))
  const FEE := Row(FeeWallet, 20, 20, InflowDetail(ADM, BaseFee, 2000))
  const TO_POOL := Row(Treasury, -80, 100, PoolAllocation(ADM))
  const PRIZE := Row(PrizePool("c"), 80, 80, ContributionDetail(ADM))

  const OPENED := EMPTY.(wallets := map["u" := 0], pools := map["c" := 0])
  const DEPOSITED := OPENED.(wallets := map["u" := 200], walletLedger := [ENTITLEMENT], treasury := 200,
                             treasuryLedger := [CUSTODY])
  const DEBITED := DEPOSITED.(wallets := map["u" := 100], walletLedger := [ENTITLEMENT, ENTRY])
  const FEE_PAID := DEBITED.(treasury := 180, treasuryLedger := [CUSTODY, TO_FEES], feeWallet := 20, feeLedger := [FEE])
  const ADMITTED := FEE_PAID.(treasury := 100, treasuryLedger := [CUSTODY, TO_FEES, TO_POOL],
                              pools := map["c" := 80], poolLedger := [PRIZE])

  const STORY := [OpenWallet("u"), OpenPool("c", true), ConfirmDeposit("u", 200, "i"), AdmitPaid(ADM, PAID)]

  lemma StoryDeposit()
    ensures PostConfirmedDeposit(OPENED, "u", 200, "i") == Step(DEPOSITED, Posted)
  {
  }

  lemma StoryDebit()
    ensures DeductContestEntryFee(DEPOSITED, ADM, 100) == Step(DEBITED, Posted)
  {
    assert [ENTITLEMENT] + [ENTRY] == [ENTITLEMENT, ENTRY];
    FindMeaning([ENTITLEMENT], Keyed(EntryKey(ADM)));
  }

  lemma StoryFee()
    ensures PostContestFee(DEBITED, ADM, BaseFee, 20, 2000) == Step(FEE_PAID, Posted)
  {
    assert [CUSTODY] + [TO_FEES] == [CUSTODY, TO_FEES];
    FindMeaning([CUSTODY], FeeAllocationOf(ADM, BaseFee));
  }

  lemma StoryPrize()
    ensures PostContestPrizeContribution(FEE_PAID, ADM, 80) == Step(ADMITTED, Posted)
  {
    assert [CUSTODY, TO_FEES] + [TO_POOL] == [CUSTODY, TO_FEES, TO_POOL];
    FindMeaning([CUSTODY, TO_FEES], PoolAllocationOf(ADM));
  }

  lemma StoryRun()
    ensures Run(EMPTY, STORY) == ADMITTED && Good(ADMITTED) && Settled(ADMITTED, AdmitPaid(ADM, PAID))
  {
    StoryDeposit();
    StoryDebit();
    StoryFee();
    StoryPrize();
    hide Good, Grows, Settled, PostConfirmedDeposit, DeductContestEntryFee, PostContestFee, PostContestPrizeContribution;
    assert Apply(DEPOSITED, AdmitPaid(ADM, PAID)) == Step(ADMITTED, Posted);
    var opened1 := EMPTY.(wallets := map["u" := 0]);
    assert Apply(EMPTY, STORY[0]).books == opened1 && Apply(opened1, STORY[1]).books == OPENED;
    EmptyGood();
    ApplyGood(EMPTY, STORY[0]);
    ApplyGood(opened1, STORY[1]);
    ApplyGood(OPENED, STORY[2]);
    ApplyGood(DEPOSITED, STORY[3]);
    SuccessSettles(DEPOSITED, AdmitPaid(ADM, PAID));
    assert Apply(OPENED, STORY[2]).books == DEPOSITED;
    hide Apply;
    assert Run(ADMITTED, STORY[3..][1..]) == ADMITTED;
    assert Run(DEPOSITED, STORY[3..]) == ADMITTED;
    assert STORY[2..][1..] == STORY[3..] && STORY[1..][1..] == STORY[2..];
    assert Run(OPENED, STORY[2..]) == ADMITTED;
    assert Run(opened1, STORY[1..]) == ADMITTED;
  }

  lemma DrainExample()
    ensures var b := Run(EMPTY, STORY);
      var s := Admit(b, ADM, Charge(110, 20, 10, 80, 2000));
      Succeeded(s) && Drift(s.books) == Drift(b) + 10
  {
    StoryRun();
    hide Good, Run, Settled, Admit;
    FindMeaning(ADMITTED.feeLedger, InflowOf(ADM, LateSurcharge));
    FindMeaning(ADMITTED.treasuryLedger, FeeAllocationOf(ADM, LateSurcharge));
    LateReplayDrains(ADMITTED, ADM, PAID, 10);
  }

  // ----- The summary for every run of the wallet service -----

  /** In every state the service can reach, each ledger explains its balances. */
  lemma EveryRunIsSound(ops: seq<Op>)
    ensures Sound(Run(EMPTY, ops))
  {
    hide Run, Sound;
    EmptyGood();
    RunGood(EMPTY, ops);
  }

  /**
    Custody and entitlement of every intent are both absent or both present with equal user and amount exactly in the
    runs in which no credit was posted under a deposit's key; and then the half-posted branches are dead.
   */
  lemma DepositsAreWhole(ops: seq<Op>)
    ensures (forall intent :: DepositMatched(Run(EMPTY, ops).treasuryLedger, Run(EMPTY, ops).walletLedger, intent))
      <==> NoKeyTaken(EMPTY, ops)
    ensures NoKeyTaken(EMPTY, ops) ==> forall user, amount, intent ::
      PostConfirmedDeposit(Run(EMPTY, ops), user, amount, intent).outcome != Failed(HalfPosted)
  {
    hide Run, PostConfirmedDeposit, DepositMatched, NoKeyTaken;
    EmptyGood();
    MatchedIff(EMPTY, ops);
    if NoKeyTaken(EMPTY, ops) {
      forall user, amount: int64, intent
        ensures PostConfirmedDeposit(Run(EMPTY, ops), user, amount, intent).outcome != Failed(HalfPosted)
      {
        DepositWhole(Run(EMPTY, ops), user, amount, intent);
      }
    }
  }

  const TAKEN := KeyedCredit("u", 5, OtherType("bonus"), NoReference, NoReason, DepositKey("i"))

  /** The condition is needed: one credit under a deposit's key blocks that deposit as half-posted. */
  lemma DepositKeyTaken()
    ensures
      var b := Run(EMPTY, [OpenWallet("u"), TAKEN]);
      PostConfirmedDeposit(b, "u", 200, "i") == Step(b, Failed(HalfPosted))
  {
    var ops := [OpenWallet("u"), TAKEN];
    var withWallet := EMPTY.(wallets := map["u" := 0]);
    var row := Row(UserWallet("u"), 5, 5, WalletDetail(OtherType("bonus"), NoReference, NoReason, Some(DepositKey("i")), None));
    var credited := withWallet.(wallets := map["u" := 5], walletLedger := [row]);
    assert Apply(EMPTY, ops[0]).books == withWallet;
    assert Apply(withWallet, ops[1]).books == credited;
    assert ops[1..][1..] == [] && ops[1..][0] == TAKEN;
    assert Run(withWallet, ops[1..]) == credited;
    assert Run(EMPTY, ops) == credited;
    assert Find(credited.walletLedger, Keyed(DepositKey("i"))).Some?;
  }
}
