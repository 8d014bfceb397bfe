/**
  Idempotency over whole runs: an operation that has succeeded once has no further effect, however many other
  operations come in between, so repeats can be erased from any run without changing where it ends.
 */
module Retries {
  import opened Int64
  import opened Rows
  import opened Books
  import opened LedgerLaws

  ghost predicate FeeSettled(b: Books, adm: Admission, fee: FeeKind, amount: int64, bps: int) {
    0 < bps <= MAX_BPS && amount > 0
    && match (Find(b.feeLedger, InflowOf(adm, fee)), Find(b.treasuryLedger, FeeAllocationOf(adm, fee)))
       case (Some(f), Some(t)) =>
         f.row.amount == amount && f.row.detail == InflowDetail(adm, fee, bps) && t.row.amount == -amount
       case _ => false
  }

  ghost predicate PrizeSettled(b: Books, adm: Admission, amount: int64) {
    amount > 0 && adm.contest in b.pools && adm.contest !in b.legacy
    && match (Find(b.poolLedger, PoolKeyed(ContributionKey(adm))), Find(b.treasuryLedger, PoolAllocationOf(adm)))
       case (Some(p), Some(t)) =>
         p.row.amount == amount && p.row.account == PrizePool(adm.contest) && p.row.detail.user == adm.user
         && t.row.amount == -amount
       case _ => false
  }

  ghost predicate HasKey(b: Books, k: WalletKey) {
    Find(b.walletLedger, Keyed(k)).Some?
  }

  /** Both halves of the deposit are there, with these figures. */
  ghost predicate DepositRows(b: Books, user: UserId, amount: int64, intent: IntentId) {
    match (Find(b.treasuryLedger, DepositOf(intent)), Find(b.walletLedger, Keyed(DepositKey(intent))))
    case (Some(t), Some(w)) =>
      t.row.detail.beneficiary == user && t.row.amount == amount && IsEntitlement(w.row, user, amount, intent)
    case _ => false
  }

  /** The durable evidence that `op` has already taken effect. */
  ghost predicate Settled(b: Books, op: Op) {
    match op
    case ConfirmDeposit(u, a, intent) =>
      a > 0 && u != "" && intent != "" && DepositRows(b, u, a, intent)
    case ChargeEntry(adm, a) => HasKey(b, EntryKey(adm))
    case AllocateFee(adm, fee, a, bps) => FeeSettled(b, adm, fee, a, bps)
    case AllocatePrize(adm, a) => PrizeSettled(b, adm, a)
    case AdmitPaid(adm, c) =>
      && HasKey(b, EntryKey(adm))
      && (c.base > 0 ==> FeeSettled(b, adm, BaseFee, c.base, c.bps))
      && (c.surcharge > 0 ==> FeeSettled(b, adm, LateSurcharge, c.surcharge, c.bps))
      && (c.prize > 0 ==> PrizeSettled(b, adm, c.prize))
    case Reverse(adm) => HasKey(b, ReversalKey(adm))
    case Refund(adm, a, _) => HasKey(b, RefundKey(adm))
    case AwardPrize(adm, rank, a) => HasKey(b, PrizeKey(adm, rank))
    case KeyedCredit(u, a, kind, ref, reason, key) => HasKey(b, key)
    case _ => false
  }

  predicate Repeatable(op: Op) {
    op.ConfirmDeposit? || op.ChargeEntry? || op.AllocateFee? || op.AllocatePrize? || op.AdmitPaid?
    || op.Reverse? || op.Refund? || op.AwardPrize? || op.KeyedCredit?
  }

  predicate TookEffect(o: Outcome) {
    o.Posted? || o.AlreadyPosted?
  }

  /** Evidence is never lost. */
  lemma SettledForever(b: Books, b': Books, op: Op)
    requires Grows(b, b') && Settled(b, op)
    ensures Settled(b', op)
  {
  }

  lemma ReversalNoEffect(b: Books, adm: Admission)
    requires HasKey(b, ReversalKey(adm))
    ensures ReverseContestAdmission(b, adm).books == b && !TookEffect(ReverseContestAdmission(b, adm).outcome)
  {
    hide FeeOriginals, ReverseFees, ReversePool;
  }

  lemma DepositNoEffect(b: Books, user: UserId, amount: int64, intent: IntentId)
    requires Settled(b, ConfirmDeposit(user, amount, intent))
    ensures PostConfirmedDeposit(b, user, amount, intent) == Step(b, AlreadyPosted)
  {
  }

  lemma PartsNoEffect(b: Books, adm: Admission, fee: FeeKind, amount: int64, bps: int)
    ensures FeeSettled(b, adm, fee, amount, bps) ==> PostContestFee(b, adm, fee, amount, bps) == Step(b, AlreadyPosted)
    ensures PrizeSettled(b, adm, amount) ==> PostContestPrizeContribution(b, adm, amount) == Step(b, AlreadyPosted)
  {
  }

  lemma AdmitNoEffect(b: Books, adm: Admission, c: Charge)
    requires Settled(b, AdmitPaid(adm, c))
    ensures Admit(b, adm, c).books == b && Succeeded(Admit(b, adm, c))
  {
    hide PostContestFee, PostContestPrizeContribution, FeeSettled, PrizeSettled;
    PartsNoEffect(b, adm, BaseFee, c.base, c.bps);
    PartsNoEffect(b, adm, LateSurcharge, c.surcharge, c.bps);
    PartsNoEffect(b, adm, BaseFee, c.prize, c.bps);
  }

  /** Once the evidence is there, the operation changes nothing; only a second reversal is refused outright. */
  lemma SettledNoEffect(b: Books, op: Op)
    requires Good(b) && Settled(b, op)
    ensures Apply(b, op).books == b
    ensures Apply(b, op).outcome.Failed? ==> op.Reverse? || (op.KeyedCredit? && op.amount <= 0)
  {
    hide Good, PostConfirmedDeposit, Admit, ReverseContestAdmission;
    match op
    case ConfirmDeposit(u, a, intent) => DepositNoEffect(b, u, a, intent);
    case Reverse(adm) => ReversalNoEffect(b, adm);
    case AdmitPaid(adm, c) => AdmitNoEffect(b, adm, c);
    case _ =>
  }

  lemma KeyForever(b: Books, b': Books, k: WalletKey)
    requires HasKey(b, k) && (b' == b || Grows(b, b'))
    ensures HasKey(b', k)
  {
  }

  lemma ReversePrizeKeepsKey(b: Books, b2: Books, adm: Admission, fees: int64, refund: int64)
    requires Good(b2) && adm.contest in b.pools && adm.contest in b2.pools && HasKey(b2, ReversalKey(adm))
    ensures var s := ReversePrize(b, b2, adm, fees, refund); s.outcome.Posted? ==> HasKey(s.books, ReversalKey(adm))
    ensures var s := ReversePrize(b, b2, adm, fees, refund); !s.outcome.AlreadyPosted? && !s.outcome.Nothing?
  {
    hide Good, Grows, ReversePool, HasKey;
    var pool, custody := Find(b2.poolLedger, CreditOf(adm)), Find(b2.treasuryLedger, PoolAllocationOf(adm));
    if pool.Some? && custody.Some? && ReversePool(b2, adm, pool.value, custody.value).Done? {
      GoodReversePool(b2, adm, pool.value, custody.value);
      KeyForever(b2, ReversePool(b2, adm, pool.value, custody.value).books, ReversalKey(adm));
    }
  }

  lemma ReversalLeavesKey(b: Books, adm: Admission)
    requires Good(b) && TookEffect(ReverseContestAdmission(b, adm).outcome)
    ensures HasKey(ReverseContestAdmission(b, adm).books, ReversalKey(adm))
  {
    hide Good, ReversePrize, ReverseFees, FeeOriginals, Grows, HasKey, FeeTotal;
    var entry := Find(b.walletLedger, EntryOf(adm)).value;
    var d := ReversalDetail(adm, entry.id);
    var refund := Wrap(0 - entry.row.amount);
    PostWalletGrows(b, adm.user, refund, d);
    GoodWallet(b, adm.user, refund, d);
    var b1 := PostWallet(b, adm.user, refund, d).books;
    var fees := FeeOriginals(b1, adm);
    KeyForever(b1, b1, ReversalKey(adm));
    GoodReverseFees(b1, adm, fees);
    var b2 := ReverseFees(b1, adm, fees).books;
    KeyForever(b1, b2, ReversalKey(adm));
    ReversePrizeKeepsKey(b, b2, adm, FeeTotal(fees), refund);
  }

  lemma FeeSettles(b: Books, adm: Admission, fee: FeeKind, amount: int64, bps: int)
    requires Succeeded(PostContestFee(b, adm, fee, amount, bps))
    ensures FeeSettled(PostContestFee(b, adm, fee, amount, bps).books, adm, fee, amount, bps)
  {
    hide Grows;
    var t := FeeAllocation(adm, fee);
    if Find(b.treasuryLedger, FeeAllocationOf(adm, fee)).None? {
      PostTreasuryGrows(b, -amount, t);
      PostFeeWalletGrows(PostTreasury(b, -amount, t).books, amount, InflowDetail(adm, fee, bps));
    }
  }

  lemma PrizeSettles(b: Books, adm: Admission, amount: int64)
    requires Succeeded(PostContestPrizeContribution(b, adm, amount))
    ensures PrizeSettled(PostContestPrizeContribution(b, adm, amount).books, adm, amount)
  {
    hide Grows;
    var t := PoolAllocation(adm);
    if Find(b.treasuryLedger, PoolAllocationOf(adm)).None? {
      PostTreasuryGrows(b, -amount, t);
      PostPoolGrows(PostTreasury(b, -amount, t).books, adm.contest, amount, ContributionDetail(adm));
    }
  }

  lemma CreditLeavesKey(b: Books, user: UserId, amount: int64, d: WalletDetail)
    requires d.key.Some?
    ensures Credit(b, user, amount, d).outcome.Posted? ==> HasKey(Credit(b, user, amount, d).books, d.key.value)
    ensures Debit(b, user, amount, d).outcome.Posted? ==> HasKey(Debit(b, user, amount, d).books, d.key.value)
  {
    hide Grows;
    if user in b.wallets {
      PostWalletGrows(b, user, amount, d);
      if amount > 0 {
        PostWalletGrows(b, user, -amount, d);
      }
    }
  }

  lemma DeductLeavesKey(b: Books, adm: Admission, amount: int64)
    requires TookEffect(DeductContestEntryFee(b, adm, amount).outcome)
    ensures HasKey(DeductContestEntryFee(b, adm, amount).books, EntryKey(adm))
  {
    hide Find;
    CreditLeavesKey(b, adm.user, amount, EntryDetail(adm));
  }

  /** Evidence of each part of an admission survives the parts posted after it. */
  lemma EvidenceForever(b: Books, b': Books, adm: Admission, fee: FeeKind, amount: int64, bps: int)
    requires Grows(b, b')
    ensures HasKey(b, EntryKey(adm)) ==> HasKey(b', EntryKey(adm))
    ensures FeeSettled(b, adm, fee, amount, bps) ==> FeeSettled(b', adm, fee, amount, bps)
  {
  }

  lemma AdmitSettles(b: Books, adm: Admission, c: Charge)
    requires Good(b) && TookEffect(Admit(b, adm, c).outcome)
    ensures Settled(Admit(b, adm, c).books, AdmitPaid(adm, c))
  {
    hide DeductContestEntryFee, PostContestFee, PostContestPrizeContribution, Grows, Good, FeeSettled, PrizeSettled, HasKey;
    var s1 := DeductContestEntryFee(b, adm, c.total);
    DeductLeavesKey(b, adm, c.total);
    GoodDeduct(b, adm, c.total);
    var s2 := PostFeePart(s1.books, adm, BaseFee, c.base, c.bps);
    GoodContestFee(s1.books, adm, BaseFee, c.base, c.bps);
    var s3 := PostFeePart(s2.books, adm, LateSurcharge, c.surcharge, c.bps);
    GoodContestFee(s2.books, adm, LateSurcharge, c.surcharge, c.bps);
    var s4 := PostPrizePart(s3.books, adm, c.prize);
    GoodPrizeContribution(s3.books, adm, c.prize);
    GrowsReflexive(s1.books);
    GrowsReflexive(s2.books);
    GrowsReflexive(s3.books);
    GrowsTransitive(s2.books, s3.books, s4.books);
    GrowsTransitive(s1.books, s2.books, s4.books);
    EvidenceForever(s1.books, s4.books, adm, BaseFee, c.base, c.bps);
    EvidenceForever(s2.books, s4.books, adm, BaseFee, c.base, c.bps);
    EvidenceForever(s3.books, s4.books, adm, LateSurcharge, c.surcharge, c.bps);
    if c.base > 0 { FeeSettles(s1.books, adm, BaseFee, c.base, c.bps); }
    if c.surcharge > 0 { FeeSettles(s2.books, adm, LateSurcharge, c.surcharge, c.bps); }
    if c.prize > 0 { PrizeSettles(s3.books, adm, c.prize); }
  }

  lemma SuccessSettles(b: Books, op: Op)
    requires Good(b) && Repeatable(op) && TookEffect(Apply(b, op).outcome)
    ensures Settled(Apply(b, op).books, op)
  {
    hide Good, PostContestFee, PostContestPrizeContribution, Admit, ReverseContestAdmission, FeeSettled, PrizeSettled;
    match op
    case ConfirmDeposit(u, a, intent) => DepositSettles(b, u, a, intent);
    case ChargeEntry(adm, a) => DeductLeavesKey(b, adm, a);
    case AllocateFee(adm, fee, a, bps) => FeeSettles(b, adm, fee, a, bps);
    case AllocatePrize(adm, a) => PrizeSettles(b, adm, a);
    case AdmitPaid(adm, c) => AdmitSettles(b, adm, c);
    case Reverse(adm) => ReversalLeavesKey(b, adm);
    case Refund(adm, a, code) =>
      CreditLeavesKey(b, adm.user, a,
        WalletDetail(ContestRefund, ContestReference(adm.contest), RefundReason(code), Some(RefundKey(adm)), None));
    case AwardPrize(adm, rank, a) =>
      CreditLeavesKey(b, adm.user, a,
        WalletDetail(PrizeCredit, ContestReference(adm.contest), ContestPrizeReason, Some(PrizeKey(adm, rank)), None));
    case KeyedCredit(u, a, kind, ref, reason, key) =>
      CreditLeavesKey(b, u, a, WalletDetail(kind, ref, reason, Some(key), None));
  }

  lemma DepositSettles(b: Books, user: UserId, amount: int64, intent: IntentId)
    requires TookEffect(PostConfirmedDeposit(b, user, amount, intent).outcome)
    ensures Settled(PostConfirmedDeposit(b, user, amount, intent).books, ConfirmDeposit(user, amount, intent))
  {
    hide Grows, Find;
    if Find(b.treasuryLedger, DepositOf(intent)).None? {
      var d := WalletDetail(Deposit, IntentReference(intent), NoReason, Some(DepositKey(intent)), None);
      PostTreasuryGrows(b, amount, ExternalDeposit(intent, user));
      PostWalletGrows(PostTreasury(b, amount, ExternalDeposit(intent, user)).books, user, amount, d);
    }
  }

  /** The run without the operations that repeat an earlier successful one. `done` holds those already seen. */
  function Erase(b: Books, done: set<Op>, ops: seq<Op>): seq<Op>
    decreases |ops|
  {
    if ops == [] then []
    else if ops[0] in done then Erase(b, done, ops[1..])
    else
      var s := Apply(b, ops[0]);
      var done' := if Repeatable(ops[0]) && TookEffect(s.outcome) then done + {ops[0]} else done;
      [ops[0]] + Erase(s.books, done', ops[1..])
  }

  /** Retry erasure: every run ends in the same books as the run with its repeats removed. */
  lemma {:induction false} RetryErasure(b: Books, done: set<Op>, ops: seq<Op>)
    requires Good(b) && forall op :: op in done ==> Settled(b, op)
    ensures Run(b, Erase(b, done, ops)) == Run(b, ops)
    decreases |ops|
  {
    hide Good, Grows, Settled, Apply;
    if ops != [] {
      var op := ops[0];
      if op in done {
        SettledNoEffect(b, op);
        RetryErasure(b, done, ops[1..]);
      } else {
        var s := Apply(b, op);
        ApplyGood(b, op);
        var done' := if Repeatable(op) && TookEffect(s.outcome) then done + {op} else done;
        forall o | o in done' ensures Settled(s.books, o) {
          if o in done {
            SettledForever(b, s.books, o);
          } else {
            SuccessSettles(b, op);
          }
        }
        RetryErasure(s.books, done', ops[1..]);
        assert ([op] + Erase(s.books, done', ops[1..]))[1..] == Erase(s.books, done', ops[1..]);
      }
    }
  }

  // ----- Repeats with other figures -----

  /** The same deposit intent, fee part or pool contribution, whatever the figures. */
  predicate SameMovement(op: Op, again: Op) {
    match (op, again)
    case (ConfirmDeposit(_, _, i), ConfirmDeposit(_, _, j)) => i == j
    case (AllocateFee(x, k, _, _), AllocateFee(y, l, _, _)) => x == y && k == l
    case (AllocatePrize(x, _), AllocatePrize(y, _)) => x == y
    case _ => false
  }

  lemma SettledRefusesOthers(b: Books, op: Op, again: Op)
    requires Settled(b, op) && SameMovement(op, again) && again != op
    ensures Apply(b, again).outcome.Failed? && Apply(b, again).books == b
  {
    hide Find, PostTreasury, PostFeeWallet, PostPool, CreditIdempotent;
  }

  /** Once a movement took effect, asking for it with other figures fails and changes nothing, whatever ran in between. */
  lemma ChangedReplayRefused(b: Books, op: Op, between: seq<Op>, again: Op)
    requires Good(b) && TookEffect(Apply(b, op).outcome) && SameMovement(op, again) && again != op
    ensures
      var later := Run(Apply(b, op).books, between);
      Apply(later, again).outcome.Failed? && Apply(later, again).books == later
  {
    hide Good, Grows, Settled, Apply, Run;
    ApplyGood(b, op);
    SuccessSettles(b, op);
    RunGood(Apply(b, op).books, between);
    SettledForever(Apply(b, op).books, Run(Apply(b, op).books, between), op);
    SettledRefusesOthers(Run(Apply(b, op).books, between), op, again);
  }
}
