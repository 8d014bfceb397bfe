/**
  What each wallet operation does to the tables, said outright: the exact condition of success, the exact error
  otherwise, the one balance and the rows that change, and that nothing else does.
 */
module WalletEffects {
  import opened Int64
  import opened Rows
  import opened Books
  import opened LedgerLaws

  /** Some wallet row carries the key. */
  ghost predicate KeyUsed(b: Books, key: WalletKey) {
    exists i :: 0 <= i < |b.walletLedger| && b.walletLedger[i].detail.key == Some(key)
  }

  ghost predicate Adds<D(!new)>(ledger: seq<Row<D>>, ledger': seq<Row<D>>, account: Account, amount: int, after: int, detail: D) {
    && |ledger'| == |ledger| + 1 && ledger'[..|ledger|] == ledger
    && ledger'[|ledger|].account == account && ledger'[|ledger|].amount == amount
    && ledger'[|ledger|].after == after && ledger'[|ledger|].detail == detail
  }

  /** The user's balance moves by `amount`, one row says so, and every other table is as it was. */
  ghost predicate WalletMoved(b: Books, s: Step, user: UserId, amount: int, detail: WalletDetail) {
    && s.outcome == Posted && user in b.wallets && user in s.books.wallets
    && s.books == b.(wallets := s.books.wallets, walletLedger := s.books.walletLedger)
    && s.books.wallets == b.wallets[user := s.books.wallets[user]] && s.books.wallets[user] == b.wallets[user] + amount
    && Adds(b.walletLedger, s.books.walletLedger, UserWallet(user), amount, b.wallets[user] + amount, detail)
  }

  /** The call failed with this error, or did nothing, and left the tables alone. */
  predicate Left(b: Books, s: Step, outcome: Outcome) {
    s.outcome == outcome && s.books == b
  }

  lemma UsedIsFound(b: Books, key: WalletKey)
    ensures KeyUsed(b, key) <==> Find(b.walletLedger, Keyed(key)).Some?
  {
    FindMeaning(b.walletLedger, Keyed(key));
    if KeyUsed(b, key) {
      var i :| 0 <= i < |b.walletLedger| && b.walletLedger[i].detail.key == Some(key);
      assert Keyed(key)(b.walletLedger[i]);
    }
  }

  lemma WalletsNonNegative(b: Books)
    requires Good(b)
    ensures forall u :: u in b.wallets ==> b.wallets[u] >= 0
    ensures 0 <= b.treasury && 0 <= b.feeWallet && forall c :: c in b.pools ==> b.pools[c] >= 0
  {
    GoodIsSound(b);
  }

  // ----- Accounts -----

  /** New accounts are empty, existing ones keep their balance, and freezing concerns one user. */
  lemma AccountEffects(b: Books, user: UserId, on: bool, contest: ContestId, modern: bool)
    ensures var w := CreateWallet(b, user).books;
      w == b.(wallets := w.wallets) && w.wallets.Keys == b.wallets.Keys + {user}
      && forall u :: u in w.wallets ==> w.wallets[u] == if u in b.wallets then b.wallets[u] else 0
    ensures var f := SetFrozen(b, user, on).books;
      f == b.(frozen := f.frozen) && forall u :: u in f.frozen <==> if u == user && u in b.wallets then on else u in b.frozen
    ensures var p := ProvisionPool(b, contest, modern).books;
      var unknown := contest !in b.pools && contest !in b.legacy;
      && p == b.(pools := p.pools, legacy := p.legacy)
      && p.pools == (if unknown && modern then b.pools[contest := 0] else b.pools)
      && (forall c :: c in p.legacy <==> c in b.legacy || (c == contest && unknown && !modern))
  {
  }

  // ----- User wallets -----

  lemma DebitEffect(b: Books, user: UserId, amount: int64, d: WalletDetail)
    requires user in b.wallets ==> 0 <= b.wallets[user]
    ensures var s := Debit(b, user, amount, d);
      if amount <= 0 then Left(b, s, Failed(NotPositive))
      else if user !in b.wallets then Left(b, s, Failed(WalletNotFound))
      else if user in b.frozen then Left(b, s, Failed(WalletFrozen))
      else if b.wallets[user] < amount then Left(b, s, Failed(InsufficientBalance))
      else if d.key.Some? && KeyUsed(b, d.key.value) then Left(b, s, Failed(DuplicateKey))
      else WalletMoved(b, s, user, 0 - amount, d)
  {
    if d.key.Some? { UsedIsFound(b, d.key.value); }
    hide Find, KeyUsed;
  }

  /** Only prize and refund credits reach a frozen wallet. */
  lemma CreditEffect(b: Books, user: UserId, amount: int64, d: WalletDetail)
    requires user in b.wallets ==> 0 <= b.wallets[user]
    ensures var s := Credit(b, user, amount, d);
      if amount <= 0 then Left(b, s, Failed(NotPositive))
      else if user !in b.wallets then Left(b, s, Failed(WalletNotFound))
      else if user in b.frozen && d.kind != PrizeCredit && d.kind != ContestRefund then Left(b, s, Failed(WalletFrozen))
      else if b.wallets[user] + amount > MAX_INT64 then Left(b, s, Failed(CheckViolation))
      else if d.key.Some? && KeyUsed(b, d.key.value) then Left(b, s, Failed(DuplicateKey))
      else WalletMoved(b, s, user, amount, d)
  {
    if d.key.Some? { UsedIsFound(b, d.key.value); }
    hide Find, KeyUsed;
  }

  lemma CreditIdempotentEffect(b: Books, user: UserId, amount: int64, kind: LedgerType, reference: Reference, reason: ReasonCode,
                          key: WalletKey)
    requires user in b.wallets ==> 0 <= b.wallets[user]
    ensures var s := CreditIdempotent(b, user, amount, kind, reference, reason, key);
      if amount <= 0 then Left(b, s, Failed(NotPositive))
      else if KeyUsed(b, key) then Left(b, s, AlreadyPosted)
      else if user !in b.wallets then Left(b, s, Failed(WalletNotFound))
      else if user in b.frozen && kind != PrizeCredit && kind != ContestRefund then Left(b, s, Failed(WalletFrozen))
      else if b.wallets[user] + amount > MAX_INT64 then Left(b, s, Failed(CheckViolation))
      else WalletMoved(b, s, user, amount, WalletDetail(kind, reference, reason, Some(key), None))
  {
    hide Find, KeyUsed, WalletMoved, Credit;
    UsedIsFound(b, key);
    CreditEffect(b, user, amount, WalletDetail(kind, reference, reason, Some(key), None));
  }

  /** A refund is keyed by its admission and paid in full, to a frozen wallet too; nothing is asked for, nothing is done. */
  lemma RefundEffect(b: Books, adm: Admission, amount: int64, code: string)
    requires adm.user in b.wallets ==> 0 <= b.wallets[adm.user]
    ensures var s := RefundContestEntryFee(b, adm, amount, code);
      if amount <= 0 then Left(b, s, Nothing)
      else if KeyUsed(b, RefundKey(adm)) then Left(b, s, AlreadyPosted)
      else if adm.user !in b.wallets then Left(b, s, Failed(WalletNotFound))
      else if b.wallets[adm.user] + amount > MAX_INT64 then Left(b, s, Failed(CheckViolation))
      else WalletMoved(b, s, adm.user, amount,
        WalletDetail(ContestRefund, ContestReference(adm.contest), RefundReason(code), Some(RefundKey(adm)), None))
  {
    hide KeyUsed, WalletMoved, CreditIdempotent;
    CreditIdempotentEffect(b, adm.user, amount, ContestRefund, ContestReference(adm.contest), RefundReason(code), RefundKey(adm));
  }

  /** A prize is keyed by admission and rank and paid in full, to a frozen wallet too. */
  lemma PrizeCreditEffect(b: Books, adm: Admission, rank: int, amount: int64)
    requires adm.user in b.wallets ==> 0 <= b.wallets[adm.user]
    ensures var s := CreditPrize(b, adm, rank, amount);
      if amount <= 0 then Left(b, s, Nothing)
      else if KeyUsed(b, PrizeKey(adm, rank)) then Left(b, s, AlreadyPosted)
      else if adm.user !in b.wallets then Left(b, s, Failed(WalletNotFound))
      else if b.wallets[adm.user] + amount > MAX_INT64 then Left(b, s, Failed(CheckViolation))
      else WalletMoved(b, s, adm.user, amount,
        WalletDetail(PrizeCredit, ContestReference(adm.contest), ContestPrizeReason, Some(PrizeKey(adm, rank)), None))
  {
    hide KeyUsed, WalletMoved, CreditIdempotent;
    CreditIdempotentEffect(b, adm.user, amount, PrizeCredit, ContestReference(adm.contest), ContestPrizeReason, PrizeKey(adm, rank));
  }

  /** An entry is charged once per admission, in full, whatever amount a replay names. */
  lemma EntryChargeEffect(b: Books, adm: Admission, amount: int64)
    requires adm.user in b.wallets ==> 0 <= b.wallets[adm.user]
    ensures var s := DeductContestEntryFee(b, adm, amount);
      if amount <= 0 then Left(b, s, Nothing)
      else if KeyUsed(b, EntryKey(adm)) then Left(b, s, AlreadyPosted)
      else if adm.user !in b.wallets then Left(b, s, Failed(WalletNotFound))
      else if adm.user in b.frozen then Left(b, s, Failed(WalletFrozen))
      else if b.wallets[adm.user] < amount then Left(b, s, Failed(InsufficientBalance))
      else WalletMoved(b, s, adm.user, 0 - amount,
        WalletDetail(ContestEntry, ContestReference(adm.contest), ContestEntryReason, Some(EntryKey(adm)), None))
  {
    hide Find, KeyUsed, WalletMoved, Debit;
    UsedIsFound(b, EntryKey(adm));
    DebitEffect(b, adm.user, amount, EntryDetail(adm));
  }

  // ----- Custody -----

  ghost predicate DepositOnRecord(b: Books, intent: IntentId) {
    exists i :: 0 <= i < |b.treasuryLedger| && b.treasuryLedger[i].detail.ExternalDeposit?
      && b.treasuryLedger[i].detail.intent == intent
  }

  /** Custody and the user's entitlement rise together, with one row each. */
  ghost predicate Deposited(b: Books, s: Step, user: UserId, amount: int, intent: IntentId) {
    && s.outcome == Posted && user in b.wallets && user in s.books.wallets
    && s.books == b.(wallets := s.books.wallets, walletLedger := s.books.walletLedger,
                     treasury := s.books.treasury, treasuryLedger := s.books.treasuryLedger)
    && s.books.wallets == b.wallets[user := s.books.wallets[user]] && s.books.wallets[user] == b.wallets[user] + amount
    && s.books.treasury == b.treasury + amount
    && Adds(b.walletLedger, s.books.walletLedger, UserWallet(user), amount, b.wallets[user] + amount,
            WalletDetail(Deposit, IntentReference(intent), NoReason, Some(DepositKey(intent)), None))
    && Adds(b.treasuryLedger, s.books.treasuryLedger, Treasury, amount, b.treasury + amount, ExternalDeposit(intent, user))
  }

  lemma RecordIsFound(b: Books, intent: IntentId)
    ensures DepositOnRecord(b, intent) <==> Find(b.treasuryLedger, DepositOf(intent)).Some?
  {
    FindMeaning(b.treasuryLedger, DepositOf(intent));
    if DepositOnRecord(b, intent) {
      var i :| 0 <= i < |b.treasuryLedger| && b.treasuryLedger[i].detail.ExternalDeposit?
        && b.treasuryLedger[i].detail.intent == intent;
      assert DepositOf(intent)(b.treasuryLedger[i]);
    }
  }

  lemma SameKeys(b: Books, b': Books, key: WalletKey)
    requires b'.walletLedger == b.walletLedger
    ensures KeyUsed(b', key) == KeyUsed(b, key)
  {
  }

  /** A deposit of an intent seen for the first time. */
  lemma DepositPostsIff(b: Books, user: UserId, amount: int64, intent: IntentId)
    requires Good(b) && amount > 0 && user != "" && intent != ""
    requires !DepositOnRecord(b, intent) && !KeyUsed(b, DepositKey(intent))
    ensures var s := PostConfirmedDeposit(b, user, amount, intent);
      if b.treasury + amount > MAX_INT64 then Left(b, s, Failed(BalanceOverflow))
      else if user !in b.wallets then Left(b, s, Failed(WalletNotFound))
      else if user in b.frozen then Left(b, s, Failed(WalletFrozen))
      else if b.wallets[user] + amount > MAX_INT64 then Left(b, s, Failed(CheckViolation))
      else Deposited(b, s, user, amount, intent)
  {
    hide Good, Find, KeyUsed, DepositOnRecord, CreditIdempotent;
    WalletsNonNegative(b);
    RecordIsFound(b, intent);
    if b.treasury + amount <= MAX_INT64 {
      var b1 := PostTreasury(b, amount, ExternalDeposit(intent, user)).books;
      CreditIdempotentEffect(b1, user, amount, Deposit, IntentReference(intent), NoReason, DepositKey(intent));
      SameKeys(b, b1, DepositKey(intent));
    }
  }

  lemma DepositRefused(b: Books, user: UserId, amount: int64, intent: IntentId)
    ensures var s := PostConfirmedDeposit(b, user, amount, intent);
      && (amount <= 0 ==> Left(b, s, Failed(NotPositive)))
      && (amount > 0 && (user == "" || intent == "") ==> Left(b, s, Failed(MissingIdentifier)))
  {
    hide Find;
  }

  /** The key of an intent that was never deposited, already taken. */
  lemma DepositKeyAlreadyUsed(b: Books, user: UserId, amount: int64, intent: IntentId)
    requires Good(b) && amount > 0 && user != "" && intent != ""
    requires !DepositOnRecord(b, intent) && KeyUsed(b, DepositKey(intent))
    ensures var s := PostConfirmedDeposit(b, user, amount, intent);
      Left(b, s, Failed(if b.treasury + amount > MAX_INT64 then BalanceOverflow else HalfPosted))
  {
    hide Good, Find, KeyUsed, DepositOnRecord, CreditIdempotent;
    WalletsNonNegative(b);
    RecordIsFound(b, intent);
    if b.treasury + amount <= MAX_INT64 {
      var b1 := PostTreasury(b, amount, ExternalDeposit(intent, user)).books;
      SameKeys(b, b1, DepositKey(intent));
      CreditIdempotentEffect(b1, user, amount, Deposit, IntentReference(intent), NoReason, DepositKey(intent));
    }
  }

  /** A replay of a recorded deposit is accepted exactly when user, amount and the row of the entitlement agree with it. */
  lemma DepositReplayIff(b: Books, user: UserId, amount: int64, intent: IntentId, i: nat)
    requires amount > 0 && user != "" && intent != ""
    requires i < |b.treasuryLedger| && b.treasuryLedger[i].detail.ExternalDeposit? && b.treasuryLedger[i].detail.intent == intent
    requires forall k :: 0 <= k < |b.treasuryLedger| && k != i ==>
      !(b.treasuryLedger[k].detail.ExternalDeposit? && b.treasuryLedger[k].detail.intent == intent)
    requires forall j, k :: 0 <= j < k < |b.walletLedger| && b.walletLedger[j].detail.key == Some(DepositKey(intent)) ==>
      b.walletLedger[k].detail.key != Some(DepositKey(intent))
    ensures var s, t := PostConfirmedDeposit(b, user, amount, intent), b.treasuryLedger[i];
      if t.detail.beneficiary != user || t.amount != amount then Left(b, s, Failed(ReplayMismatch))
      else Left(b, s, if EntitlementOnRecord(b, user, amount, intent) then AlreadyPosted else Failed(HalfPosted))
  {
    FindMeaning(b.treasuryLedger, DepositOf(intent));
    FindMeaning(b.walletLedger, Keyed(DepositKey(intent)));
    assert DepositOf(intent)(b.treasuryLedger[i]);
    if EntitlementOnRecord(b, user, amount, intent) {
      var j :| 0 <= j < |b.walletLedger| && b.walletLedger[j].detail.key == Some(DepositKey(intent))
        && b.walletLedger[j].account == UserWallet(user) && b.walletLedger[j].amount == amount
        && b.walletLedger[j].detail.kind == Deposit && b.walletLedger[j].detail.reference == IntentReference(intent);
      assert Keyed(DepositKey(intent))(b.walletLedger[j]);
    }
    hide Find;
  }

  /** The wallet row that a deposit of this intent leaves. */
  ghost predicate EntitlementOnRecord(b: Books, user: UserId, amount: int, intent: IntentId) {
    exists j :: 0 <= j < |b.walletLedger| && b.walletLedger[j].detail.key == Some(DepositKey(intent))
      && b.walletLedger[j].account == UserWallet(user) && b.walletLedger[j].amount == amount
      && b.walletLedger[j].detail.kind == Deposit && b.walletLedger[j].detail.reference == IntentReference(intent)
  }

  ghost predicate FeeOnRecord(b: Books, adm: Admission, fee: FeeKind) {
    exists i :: 0 <= i < |b.feeLedger| && b.feeLedger[i].detail.adm == adm && b.feeLedger[i].detail.kind == Inflow(fee)
  }

  ghost predicate AllocationOnRecord(b: Books, d: TreasuryDetail) {
    exists i :: 0 <= i < |b.treasuryLedger| && b.treasuryLedger[i].detail == d
  }

  lemma FeeIsFound(b: Books, adm: Admission, fee: FeeKind)
    ensures FeeOnRecord(b, adm, fee) <==> Find(b.feeLedger, InflowOf(adm, fee)).Some?
    ensures AllocationOnRecord(b, FeeAllocation(adm, fee)) <==> Find(b.treasuryLedger, FeeAllocationOf(adm, fee)).Some?
  {
    FindMeaning(b.feeLedger, InflowOf(adm, fee));
    FindMeaning(b.treasuryLedger, FeeAllocationOf(adm, fee));
    if FeeOnRecord(b, adm, fee) {
      var i :| 0 <= i < |b.feeLedger| && b.feeLedger[i].detail.adm == adm && b.feeLedger[i].detail.kind == Inflow(fee);
      assert InflowOf(adm, fee)(b.feeLedger[i]);
    }
    if AllocationOnRecord(b, FeeAllocation(adm, fee)) {
      var i :| 0 <= i < |b.treasuryLedger| && b.treasuryLedger[i].detail == FeeAllocation(adm, fee);
      assert FeeAllocationOf(adm, fee)(b.treasuryLedger[i]);
    }
  }

  /** Treasury down and Fee Wallet up by the part, with one row each. */
  ghost predicate FeeMoved(b: Books, s: Step, adm: Admission, fee: FeeKind, amount: int, bps: int) {
    && s.outcome == Posted
    && s.books == b.(treasury := s.books.treasury, treasuryLedger := s.books.treasuryLedger,
                     feeWallet := s.books.feeWallet, feeLedger := s.books.feeLedger)
    && s.books.treasury == b.treasury - amount && s.books.feeWallet == b.feeWallet + amount
    && Adds(b.treasuryLedger, s.books.treasuryLedger, Treasury, 0 - amount, b.treasury - amount, FeeAllocation(adm, fee))
    && Adds(b.feeLedger, s.books.feeLedger, FeeWallet, amount, b.feeWallet + amount,
            FeeDetail(Inflow(fee), adm, adm.contest, adm.user, "2026-09-06.1", bps, None))
  }

  lemma FeeFresh(b: Books, adm: Admission, fee: FeeKind, amount: int64, bps: int)
    requires amount > 0 && 0 < bps <= 10_000 && 0 <= b.treasury && 0 <= b.feeWallet
    requires Find(b.feeLedger, InflowOf(adm, fee)).None? && Find(b.treasuryLedger, FeeAllocationOf(adm, fee)).None?
    ensures var s := PostContestFee(b, adm, fee, amount, bps);
      if b.treasury < amount then Left(b, s, Failed(TreasuryShort))
      else if b.feeWallet + amount > MAX_INT64 then Left(b, s, Failed(BalanceOverflow))
      else FeeMoved(b, s, adm, fee, amount, bps)
  {
    hide Find;
  }

  lemma FeePostsIff(b: Books, adm: Admission, fee: FeeKind, amount: int64, bps: int)
    requires Good(b)
    ensures var s := PostContestFee(b, adm, fee, amount, bps);
      if amount <= 0 then Left(b, s, Failed(NotPositive))
      else if bps <= 0 || bps > 10_000 then Left(b, s, Failed(BpsOutOfRange))
      else if FeeOnRecord(b, adm, fee) != AllocationOnRecord(b, FeeAllocation(adm, fee)) then Left(b, s, Failed(HalfPosted))
      else if FeeOnRecord(b, adm, fee) then Left(b, s, AlreadyPosted) || Left(b, s, Failed(IdempotencyConflict))
      else if b.treasury < amount then Left(b, s, Failed(TreasuryShort))
      else if b.feeWallet + amount > MAX_INT64 then Left(b, s, Failed(BalanceOverflow))
      else FeeMoved(b, s, adm, fee, amount, bps)
  {
    hide Good, Find, FeeOnRecord, AllocationOnRecord, FeeMoved;
    WalletsNonNegative(b);
    FeeIsFound(b, adm, fee);
    if amount > 0 && 0 < bps <= 10_000 && !FeeOnRecord(b, adm, fee) && !AllocationOnRecord(b, FeeAllocation(adm, fee)) {
      FeeFresh(b, adm, fee, amount, bps);
    }
  }

  /** A replay of a recorded fee part is accepted exactly when every figure on record agrees. */
  lemma FeeReplayIff(b: Books, adm: Admission, fee: FeeKind, amount: int64, bps: int, i: nat, j: nat)
    requires amount > 0 && 0 < bps <= 10_000
    requires i < |b.feeLedger| && b.feeLedger[i].detail.adm == adm && b.feeLedger[i].detail.kind == Inflow(fee)
    requires j < |b.treasuryLedger| && b.treasuryLedger[j].detail == FeeAllocation(adm, fee)
    requires forall k :: 0 <= k < |b.feeLedger| && k != i ==>
      !(b.feeLedger[k].detail.adm == adm && b.feeLedger[k].detail.kind == Inflow(fee))
    requires forall k :: 0 <= k < |b.treasuryLedger| && k != j ==> b.treasuryLedger[k].detail != FeeAllocation(adm, fee)
    ensures var s := PostContestFee(b, adm, fee, amount, bps);
      Left(b, s,
        if b.feeLedger[i].amount == amount && b.treasuryLedger[j].amount == 0 - amount
           && b.feeLedger[i].detail == FeeDetail(Inflow(fee), adm, adm.contest, adm.user, "2026-09-06.1", bps, None)
        then AlreadyPosted else Failed(IdempotencyConflict))
  {
    FindMeaning(b.feeLedger, InflowOf(adm, fee));
    FindMeaning(b.treasuryLedger, FeeAllocationOf(adm, fee));
    assert InflowOf(adm, fee)(b.feeLedger[i]) && FeeAllocationOf(adm, fee)(b.treasuryLedger[j]);
    hide Find;
  }

  ghost predicate ContributionOnRecord(b: Books, adm: Admission) {
    exists i :: 0 <= i < |b.poolLedger| && b.poolLedger[i].detail.key == ContributionKey(adm)
  }

  lemma ContributionIsFound(b: Books, adm: Admission)
    ensures ContributionOnRecord(b, adm) <==> Find(b.poolLedger, PoolKeyed(ContributionKey(adm))).Some?
    ensures AllocationOnRecord(b, PoolAllocation(adm)) <==> Find(b.treasuryLedger, PoolAllocationOf(adm)).Some?
  {
    FindMeaning(b.poolLedger, PoolKeyed(ContributionKey(adm)));
    FindMeaning(b.treasuryLedger, PoolAllocationOf(adm));
    if ContributionOnRecord(b, adm) {
      var i :| 0 <= i < |b.poolLedger| && b.poolLedger[i].detail.key == ContributionKey(adm);
      assert PoolKeyed(ContributionKey(adm))(b.poolLedger[i]);
    }
    if AllocationOnRecord(b, PoolAllocation(adm)) {
      var i :| 0 <= i < |b.treasuryLedger| && b.treasuryLedger[i].detail == PoolAllocation(adm);
      assert PoolAllocationOf(adm)(b.treasuryLedger[i]);
    }
  }

  /** Treasury down and the contest's pool up by the prize part, with one row each. */
  ghost predicate Contributed(b: Books, s: Step, adm: Admission, amount: int) {
    && s.outcome == Posted && adm.contest in b.pools && adm.contest in s.books.pools
    && s.books == b.(treasury := s.books.treasury, treasuryLedger := s.books.treasuryLedger,
                     pools := s.books.pools, poolLedger := s.books.poolLedger)
    && s.books.treasury == b.treasury - amount
    && s.books.pools == b.pools[adm.contest := s.books.pools[adm.contest]]
    && s.books.pools[adm.contest] == b.pools[adm.contest] + amount
    && Adds(b.treasuryLedger, s.books.treasuryLedger, Treasury, 0 - amount, b.treasury - amount, PoolAllocation(adm))
    && Adds(b.poolLedger, s.books.poolLedger, PrizePool(adm.contest), amount, b.pools[adm.contest] + amount,
            PoolDetail(true, adm.user, ContributionKey(adm), None))
  }

  lemma ContributionFresh(b: Books, adm: Admission, amount: int64)
    requires amount > 0 && 0 <= b.treasury && adm.contest in b.pools && 0 <= b.pools[adm.contest] && adm.contest !in b.legacy
    requires Find(b.poolLedger, PoolKeyed(ContributionKey(adm))).None? && Find(b.treasuryLedger, PoolAllocationOf(adm)).None?
    ensures var s := PostContestPrizeContribution(b, adm, amount);
      if b.treasury < amount then Left(b, s, Failed(TreasuryShort))
      else if b.pools[adm.contest] + amount > MAX_INT64 then Left(b, s, Failed(BalanceOverflow))
      else Contributed(b, s, adm, amount)
  {
    hide Find;
  }

  lemma ContributionPostsIff(b: Books, adm: Admission, amount: int64)
    requires Good(b)
    ensures var s := PostContestPrizeContribution(b, adm, amount);
      if amount <= 0 then Left(b, s, Failed(NotPositive))
      else if adm.contest !in b.pools then Left(b, s, Failed(PoolMissing))
      else if adm.contest in b.legacy then Left(b, s, Failed(WrongPolicy))
      else if ContributionOnRecord(b, adm) != AllocationOnRecord(b, PoolAllocation(adm)) then Left(b, s, Failed(HalfPosted))
      else if ContributionOnRecord(b, adm) then Left(b, s, AlreadyPosted) || Left(b, s, Failed(IdempotencyConflict))
      else if b.treasury < amount then Left(b, s, Failed(TreasuryShort))
      else if b.pools[adm.contest] + amount > MAX_INT64 then Left(b, s, Failed(BalanceOverflow))
      else Contributed(b, s, adm, amount)
  {
    hide Good, Find, ContributionOnRecord, AllocationOnRecord, Contributed;
    WalletsNonNegative(b);
    ContributionIsFound(b, adm);
    if amount > 0 && adm.contest in b.pools && adm.contest !in b.legacy && !ContributionOnRecord(b, adm)
       && !AllocationOnRecord(b, PoolAllocation(adm)) {
      ContributionFresh(b, adm, amount);
    }
  }

  /** A replay of a recorded contribution is accepted exactly when every figure on record agrees. */
  lemma ContributionReplayIff(b: Books, adm: Admission, amount: int64, i: nat, j: nat)
    requires amount > 0 && adm.contest in b.pools && adm.contest !in b.legacy
    requires i < |b.poolLedger| && b.poolLedger[i].detail.key == ContributionKey(adm)
    requires j < |b.treasuryLedger| && b.treasuryLedger[j].detail == PoolAllocation(adm)
    requires forall k :: 0 <= k < |b.poolLedger| && k != i ==> b.poolLedger[k].detail.key != ContributionKey(adm)
    requires forall k :: 0 <= k < |b.treasuryLedger| && k != j ==> b.treasuryLedger[k].detail != PoolAllocation(adm)
    ensures var s := PostContestPrizeContribution(b, adm, amount);
      Left(b, s,
        if b.poolLedger[i].amount == amount && b.treasuryLedger[j].amount == 0 - amount
           && b.poolLedger[i].account == PrizePool(adm.contest) && b.poolLedger[i].detail.user == adm.user
        then AlreadyPosted else Failed(IdempotencyConflict))
  {
    FindMeaning(b.poolLedger, PoolKeyed(ContributionKey(adm)));
    FindMeaning(b.treasuryLedger, PoolAllocationOf(adm));
    assert PoolKeyed(ContributionKey(adm))(b.poolLedger[i]) && PoolAllocationOf(adm)(b.treasuryLedger[j]);
    hide Find;
  }
}
