/**
  The wallet service as it runs: statements that read, update and append to the tables one after another, inside a
  transaction that is rolled back when an operation fails.
 */
module WalletService {
  import opened Int64
  import opened Rows
  import opened Books
  import Spec = Books

  class Service {
    var wallets: map<UserId, int64>
    var frozen: set<UserId>
    var walletLedger: seq<WalletRow>
    var treasury: int64
    var treasuryLedger: seq<TreasuryRow>
    var feeWallet: int64
    var feeLedger: seq<FeeRow>
    var pools: map<ContestId, int64>
    var legacy: set<ContestId>
    var poolLedger: seq<PoolRow>

    function Tables(): Books
      reads this
    {
      Spec.Books(wallets, frozen, walletLedger, treasury, treasuryLedger, feeWallet, feeLedger, pools, legacy, poolLedger)
    }

    constructor ()
      ensures Tables() == EMPTY
    {
      wallets, frozen, walletLedger := map[], {}, [];
      treasury, treasuryLedger := 0, [];
      feeWallet, feeLedger := 0, [];
      pools, legacy, poolLedger := map[], {}, [];
    }

    method Rollback(b: Books)
      modifies this
      ensures Tables() == b
    {
      wallets, frozen, walletLedger := b.wallets, b.frozen, b.walletLedger;
      treasury, treasuryLedger := b.treasury, b.treasuryLedger;
      feeWallet, feeLedger := b.feeWallet, b.feeLedger;
      pools, legacy, poolLedger := b.pools, b.legacy, b.poolLedger;
    }

    /** Updates a wallet's balance and inserts its ledger row; the check and unique constraints apply. */
    method WriteWallet(user: UserId, amount: int64, after: int64, d: WalletDetail) returns (error: Option<Error>)
      requires user in wallets && after == Wrap(wallets[user] + amount)
      modifies this`wallets, this`walletLedger
      ensures match PostWallet(old(Tables()), user, amount, d)
        case Done(b) => error == None && Tables() == b
        case Refused(e) => error == Some(e) && Tables() == old(Tables())
    {
      if amount == 0 || after < 0 {
        return Some(CheckViolation);
      }
      if d.key.Some? && Find(walletLedger, Keyed(d.key.value)).Some? {
        return Some(DuplicateKey);
      }
      wallets := wallets[user := after];
      walletLedger := walletLedger + [Row(UserWallet(user), amount, after, d)];
      return None;
    }

    method DebitWithReason(user: UserId, amount: int64, d: WalletDetail) returns (r: Outcome)
      modifies this`wallets, this`walletLedger
      ensures Step(Tables(), r) == Debit(old(Tables()), user, amount, d)
    {
      if amount <= 0 { return Failed(NotPositive); }
      if user !in wallets { return Failed(WalletNotFound); }
      if user in frozen { return Failed(WalletFrozen); }
      if wallets[user] < amount { return Failed(InsufficientBalance); }
      var newBalance := Wrap(wallets[user] - amount);
      var error := WriteWallet(user, -amount, newBalance, d);
      match error
      case Some(e) => return Failed(e);
      case None => return Posted;
    }

    method CreditWithReason(user: UserId, amount: int64, d: WalletDetail) returns (r: Outcome)
      modifies this`wallets, this`walletLedger
      ensures Step(Tables(), r) == Credit(old(Tables()), user, amount, d)
    {
      if amount <= 0 { return Failed(NotPositive); }
      if user !in wallets { return Failed(WalletNotFound); }
      if user in frozen && !CreditsFrozen(d.kind) { return Failed(WalletFrozen); }
      var newBalance := Wrap(wallets[user] + amount);
      var error := WriteWallet(user, amount, newBalance, d);
      match error
      case Some(e) => return Failed(e);
      case None => return Posted;
    }

    method CreditIdempotentWithReason(user: UserId, amount: int64, kind: LedgerType, reference: Reference,
                                      reason: ReasonCode, key: WalletKey) returns (r: Outcome)
      modifies this`wallets, this`walletLedger
      ensures Step(Tables(), r) == CreditIdempotent(old(Tables()), user, amount, kind, reference, reason, key)
    {
      if amount <= 0 { return Failed(NotPositive); }
      if Find(walletLedger, Keyed(key)).Some? { return AlreadyPosted; }
      r := CreditWithReason(user, amount, WalletDetail(kind, reference, reason, Some(key), None));
    }

    method RefundContestEntryFeeIdempotent(adm: Admission, amount: int64, code: string) returns (r: Outcome)
      modifies this`wallets, this`walletLedger
      ensures Step(Tables(), r) == RefundContestEntryFee(old(Tables()), adm, amount, code)
    {
      if amount <= 0 { return Nothing; }
      r := CreditIdempotentWithReason(adm.user, amount, ContestRefund, ContestReference(adm.contest),
                                      RefundReason(code), RefundKey(adm));
    }

    method CreditPrizeIdempotent(adm: Admission, rank: int, amount: int64) returns (r: Outcome)
      modifies this`wallets, this`walletLedger
      ensures Step(Tables(), r) == CreditPrize(old(Tables()), adm, rank, amount)
    {
      if amount <= 0 { return Nothing; }
      var key := PrizeKey(adm, rank);
      if Find(walletLedger, Keyed(key)).Some? { return AlreadyPosted; }
      if adm.user !in wallets { return Failed(WalletNotFound); }
      var newBalance := Wrap(wallets[adm.user] + amount);
      var error := WriteWallet(adm.user, amount, newBalance,
        WalletDetail(PrizeCredit, ContestReference(adm.contest), ContestPrizeReason, Some(key), None));
      match error
      case Some(e) => return Failed(e);
      case None => return Posted;
    }

    method DeductContestEntryFeeWithName(adm: Admission, amount: int64) returns (r: Outcome)
      modifies this`wallets, this`walletLedger
      ensures Step(Tables(), r) == DeductContestEntryFee(old(Tables()), adm, amount)
    {
      if amount <= 0 { return Nothing; }
      if Find(walletLedger, Keyed(EntryKey(adm))).Some? { return AlreadyPosted; }
      if adm.user !in wallets { return Failed(WalletNotFound); }
      if adm.user in frozen { return Failed(WalletFrozen); }
      if wallets[adm.user] < amount { return Failed(InsufficientBalance); }
      var newBalance := Wrap(wallets[adm.user] - amount);
      var error := WriteWallet(adm.user, -amount, newBalance, EntryDetail(adm));
      match error
      case Some(e) => return Failed(e);
      case None => return Posted;
    }

    method PostConfirmedDeposit(user: UserId, amount: int64, intent: IntentId) returns (r: Outcome)
      modifies this
      ensures Step(Tables(), r) == Spec.PostConfirmedDeposit(old(Tables()), user, amount, intent)
    {
      hide Find;
      if amount <= 0 { return Failed(NotPositive); }
      if user == "" { return Failed(MissingIdentifier); }
      if intent == "" { return Failed(MissingIdentifier); }
      var before := Tables();
      var custody := Find(treasuryLedger, DepositOf(intent));
      if custody.Some? {
        if custody.value.row.detail.beneficiary != user || custody.value.row.amount != amount {
          return Failed(ReplayMismatch);
        }
        var entitlement := Find(walletLedger, Keyed(DepositKey(intent)));
        if entitlement.None? || !IsEntitlement(entitlement.value.row, user, amount, intent) {
          return Failed(HalfPosted);
        }
        return AlreadyPosted;
      }
      var newTreasury := Wrap(treasury + amount);
      if newTreasury < treasury { return Failed(BalanceOverflow); }
      if newTreasury < 0 { return Failed(CheckViolation); }
      treasury := newTreasury;
      treasuryLedger := treasuryLedger + [Row(Treasury, amount, newTreasury, ExternalDeposit(intent, user))];
      var credited := CreditIdempotentWithReason(user, amount, Deposit, IntentReference(intent), NoReason,
                                                 DepositKey(intent));
      if credited.AlreadyPosted? {
        Rollback(before);
        return Failed(HalfPosted);
      }
      if credited.Failed? {
        Rollback(before);
        return credited;
      }
      return Posted;
    }

    method PostContestFee(adm: Admission, fee: FeeKind, amount: int64, bps: int) returns (r: Outcome)
      modifies this
      ensures Step(Tables(), r) == Spec.PostContestFee(old(Tables()), adm, fee, amount, bps)
    {
      hide Find;
      if amount <= 0 { return Failed(NotPositive); }
      if bps <= 0 || bps > MAX_BPS { return Failed(BpsOutOfRange); }
      var feeRow := Find(feeLedger, InflowOf(adm, fee));
      var treasuryRow := Find(treasuryLedger, FeeAllocationOf(adm, fee));
      if feeRow.Some? && treasuryRow.Some? {
        if feeRow.value.row.amount != amount || feeRow.value.row.detail != InflowDetail(adm, fee, bps)
           || treasuryRow.value.row.amount != -amount {
          return Failed(IdempotencyConflict);
        }
        return AlreadyPosted;
      }
      if feeRow.Some? || treasuryRow.Some? { return Failed(HalfPosted); }
      if treasury < amount { return Failed(TreasuryShort); }
      var newBalance := Wrap(feeWallet + amount);
      if newBalance < feeWallet { return Failed(BalanceOverflow); }
      var newTreasury := Wrap(treasury - amount);
      if newTreasury < 0 || newBalance < 0 { return Failed(CheckViolation); }
      treasury := newTreasury;
      feeWallet := newBalance;
      treasuryLedger := treasuryLedger + [Row(Treasury, -amount, newTreasury, FeeAllocation(adm, fee))];
      feeLedger := feeLedger + [Row(FeeWallet, amount, newBalance, InflowDetail(adm, fee, bps))];
      return Posted;
    }

    method PostContestPrizeContribution(adm: Admission, amount: int64) returns (r: Outcome)
      modifies this
      ensures Step(Tables(), r) == Spec.PostContestPrizeContribution(old(Tables()), adm, amount)
    {
      ContributionCases(Tables(), adm, amount);
      hide Find, Wrap, Spec.PostContestPrizeContribution;
      if amount <= 0 { return Failed(NotPositive); }
      if adm.contest !in pools { return Failed(PoolMissing); }
      if adm.contest in legacy { return Failed(WrongPolicy); }
      var poolRow := Find(poolLedger, PoolKeyed(ContributionKey(adm)));
      var treasuryRow := Find(treasuryLedger, PoolAllocationOf(adm));
      if poolRow.Some? && treasuryRow.Some? {
        if poolRow.value.row.amount != amount || poolRow.value.row.account != PrizePool(adm.contest)
           || poolRow.value.row.detail.user != adm.user || treasuryRow.value.row.amount != -amount {
          return Failed(IdempotencyConflict);
        }
        return AlreadyPosted;
      }
      if poolRow.Some? || treasuryRow.Some? { return Failed(HalfPosted); }
      if treasury < amount { return Failed(TreasuryShort); }
      if amount > MAX_INT64 - pools[adm.contest] { return Failed(BalanceOverflow); }
      var newPool := Wrap(pools[adm.contest] + amount);
      var newTreasury := Wrap(treasury - amount);
      if newTreasury < 0 || newPool < 0 { return Failed(CheckViolation); }
      treasury := newTreasury;
      treasuryLedger := treasuryLedger + [Row(Treasury, -amount, newTreasury, PoolAllocation(adm))];
      poolLedger := poolLedger + [Row(PrizePool(adm.contest), amount, newPool, ContributionDetail(adm))];
      pools := pools[adm.contest := newPool];
      return Posted;
    }

    /** Appends the fee reversals, chaining running balances through the rows; accounts are not yet updated. */
    method AppendFeeReversals(adm: Admission, fees: seq<FeeOriginal>)
      returns (error: Option<Error>, feeBalance: int64, treasuryBalance: int64, feeCents: int64)
      modifies this`feeLedger, this`treasuryLedger
      ensures Tables() == old(Tables()).(feeLedger := feeLedger, treasuryLedger := treasuryLedger)
      ensures feeCents == FeeTotal(fees) || error.Some?
      ensures match ReverseFees(old(Tables()), adm, fees)
        case Done(b) => error == None
          && b == Tables().(feeWallet := feeBalance, treasury := treasuryBalance)
        case Refused(e) => error == Some(e)
    {
      hide ReverseFee, Wrap;
      ghost var b1 := Tables();
      feeBalance, treasuryBalance, feeCents := feeWallet, treasury, 0;
      for i := 0 to |fees|
        invariant Tables() == b1.(feeLedger := feeLedger, treasuryLedger := treasuryLedger)
        invariant ReverseFees(b1, adm, fees[..i]) == Done(Tables().(feeWallet := feeBalance, treasury := treasuryBalance))
        invariant feeCents == FeeTotal(fees[..i])
      {
        assert fees[..i + 1][..i] == fees[..i];
        var f := fees[i];
        ReverseFeeCases(Tables().(feeWallet := feeBalance, treasury := treasuryBalance), adm, f);
        if feeBalance < f.fee.row.amount {
          FeesFail(b1, adm, fees, i + 1);
          return Some(ReversalWouldBeNegative), feeBalance, treasuryBalance, feeCents;
        }
        var newFee, newTreasury := Wrap(feeBalance - f.fee.row.amount), Wrap(treasuryBalance + f.fee.row.amount);
        if newFee < 0 || newTreasury < 0 {
          FeesFail(b1, adm, fees, i + 1);
          return Some(CheckViolation), feeBalance, treasuryBalance, feeCents;
        }
        feeBalance, treasuryBalance := newFee, newTreasury;
        feeLedger := feeLedger + [Row(FeeWallet, Wrap(0 - f.fee.row.amount), feeBalance, FeeReversalDetail(adm, f.fee))];
        treasuryLedger := treasuryLedger
          + [Row(Treasury, f.fee.row.amount, treasuryBalance, TreasuryReversal(adm, FeeKindOf(f.fee.row), f.custody.id))];
        feeCents := Wrap(feeCents + f.fee.row.amount);
      }
      assert fees[..|fees|] == fees;
      error := None;
    }

    /** Appends the pool reversal on top of the running balances, if the admission has a pool credit. */
    method AppendPoolReversal(adm: Admission, ghost b2: Books, treasury0: int64)
      returns (error: Option<Error>, treasuryBalance: int64, poolBalance: int64, prizeCents: int64)
      requires adm.contest in pools
      requires b2.pools == pools && b2.poolLedger == poolLedger && b2.treasuryLedger == treasuryLedger
      requires b2.treasury == treasury0
      modifies this`poolLedger, this`treasuryLedger
      ensures Tables() == old(Tables()).(poolLedger := poolLedger, treasuryLedger := treasuryLedger)
      ensures match (Find(b2.poolLedger, CreditOf(adm)), Find(b2.treasuryLedger, PoolAllocationOf(adm)))
        case (Some(p), Some(t)) =>
          (match ReversePool(b2, adm, p, t)
           case Done(b3) =>
             && error == None && prizeCents == p.row.amount
             && b3 == b2.(pools := pools[adm.contest := poolBalance], poolLedger := poolLedger,
                          treasury := treasuryBalance, treasuryLedger := treasuryLedger)
           case Refused(e) => error == Some(e))
        case _ =>
          && error == None && prizeCents == 0 && poolBalance == pools[adm.contest] && treasuryBalance == treasury0
          && poolLedger == b2.poolLedger && treasuryLedger == b2.treasuryLedger
    {
      hide Find, ReversePool, Wrap;
      error, treasuryBalance, poolBalance, prizeCents := None, treasury0, pools[adm.contest], 0;
      var pool, custody := Find(poolLedger, CreditOf(adm)), Find(treasuryLedger, PoolAllocationOf(adm));
      if pool.Some? && custody.Some? {
        ReversePoolCases(b2, adm, pool.value, custody.value);
        prizeCents := pool.value.row.amount;
        if poolBalance < prizeCents {
          error := Some(ReversalWouldBeNegative);
          return;
        }
        var newPool, newTreasury := Wrap(poolBalance - prizeCents), Wrap(treasuryBalance + prizeCents);
        if newPool < 0 {
          error := Some(CheckViolation);
          return;
        }
        if Find(poolLedger, PoolKeyed(PoolReversalKey(adm))).Some? {
          error := Some(DuplicateKey);
          return;
        }
        if newTreasury < 0 {
          error := Some(CheckViolation);
          return;
        }
        poolBalance, treasuryBalance := newPool, newTreasury;
        poolLedger := poolLedger + [Row(PrizePool(adm.contest), Wrap(0 - prizeCents), poolBalance,
                                        PoolDetail(false, adm.user, PoolReversalKey(adm), Some(pool.value.id)))];
        treasuryLedger := treasuryLedger
          + [Row(Treasury, prizeCents, treasuryBalance, TreasuryReversal(adm, None, custody.value.id))];
      }
    }

    /** The movements of a reversal; the running balances are stored only once everything reconciles. */
    method AppendReversal(adm: Admission, entry: nat, refund: int64) returns (r: Outcome)
      requires adm.user in wallets && adm.contest in pools
      modifies this
      ensures Step(Tables(), r) == ReverseEntry(old(Tables()), adm, entry, refund)
    {
      hide Find, PostWallet, ReverseFees, ReversePool, FeeOriginals, FeeTotal, Wrap;
      var before := Tables();
      var error := WriteWallet(adm.user, refund, Wrap(wallets[adm.user] + refund), ReversalDetail(adm, entry));
      if error.Some? { return Failed(error.value); }
      var fees := FeeOriginals(Tables(), adm);
      var feeBalance: int64, treasuryBalance: int64, poolBalance: int64;
      var feeCents: int, prizeCents: int;
      error, feeBalance, treasuryBalance, feeCents := AppendFeeReversals(adm, fees);
      if error.Some? {
        Rollback(before);
        return Failed(error.value);
      }
      ghost var b2 := Tables().(feeWallet := feeBalance, treasury := treasuryBalance);
      error, treasuryBalance, poolBalance, prizeCents := AppendPoolReversal(adm, b2, treasuryBalance);
      if error.Some? {
        Rollback(before);
        return Failed(error.value);
      }
      var released: int := feeCents + prizeCents;
      if Wrap(released) != refund {
        Rollback(before);
        return Failed(DoesNotReconcile);
      }
      if poolBalance == pools[adm.contest] {
        Rollback(before);
        return Failed(PoolUnmoved);
      }
      feeWallet := feeBalance;
      pools := pools[adm.contest := poolBalance];
      treasury := treasuryBalance;
      return Posted;
    }

    method ReverseContestAdmission(adm: Admission) returns (r: Outcome)
      modifies this
      ensures Step(Tables(), r) == Spec.ReverseContestAdmission(old(Tables()), adm)
    {
      hide Find, ReverseEntry, Wrap;
      var entry := Find(walletLedger, EntryOf(adm));
      if entry.None? { return Nothing; }
      if entry.value.row.amount >= 0 { return Failed(InvalidSign); }
      if adm.user !in wallets { return Failed(WalletNotFound); }
      if adm.contest !in pools { return Failed(PoolMissing); }
      var refund: int := Wrap(0 - entry.value.row.amount);
      if Wrap(wallets[adm.user] + refund) < wallets[adm.user] { return Failed(BalanceOverflow); }
      r := AppendReversal(adm, entry.value.id, refund);
    }
  }

  /** Once reversing a prefix of the fees fails, reversing all of them fails the same way. */
  lemma {:induction false} FeesFail(b: Books, adm: Admission, fees: seq<FeeOriginal>, n: nat)
    requires n <= |fees| && ReverseFees(b, adm, fees[..n]).Refused?
    ensures ReverseFees(b, adm, fees) == ReverseFees(b, adm, fees[..n])
    decreases |fees| - n
  {
    if n == |fees| {
      assert fees[..n] == fees;
    } else {
      assert fees[..n + 1][..n] == fees[..n];
      FeesFail(b, adm, fees, n + 1);
    }
  }

  lemma WrapNegate(x: int64, a: int64)
    ensures Wrap(x + Wrap(0 - a)) == Wrap(x - a)
  {
  }

  /** One fee reversal in terms of the running balances. */
  lemma ReverseFeeCases(b: Books, adm: Admission, f: FeeOriginal)
    ensures
      var amount := f.fee.row.amount;
      var fee, custody := Wrap(b.feeWallet - amount), Wrap(b.treasury + amount);
      ReverseFee(b, adm, f) ==
        if b.feeWallet < amount then Refused(ReversalWouldBeNegative)
        else if fee < 0 || custody < 0 then Refused(CheckViolation)
        else Done(b.(feeWallet := fee, treasury := custody,
                     feeLedger := b.feeLedger + [Row(FeeWallet, Wrap(0 - amount), fee, FeeReversalDetail(adm, f.fee))],
                     treasuryLedger := b.treasuryLedger
                       + [Row(Treasury, amount, custody, TreasuryReversal(adm, FeeKindOf(f.fee.row), f.custody.id))]))
  {
    WrapNegate(b.feeWallet, f.fee.row.amount);
  }

  lemma ReversePoolCases(b: Books, adm: Admission, p: Found<PoolRow>, t: Found<TreasuryRow>)
    requires adm.contest in b.pools
    ensures
      var amount := p.row.amount;
      var pool, custody := Wrap(b.pools[adm.contest] - amount), Wrap(b.treasury + amount);
      ReversePool(b, adm, p, t) ==
        if b.pools[adm.contest] < amount then Refused(ReversalWouldBeNegative)
        else if pool < 0 then Refused(CheckViolation)
        else if Find(b.poolLedger, PoolKeyed(PoolReversalKey(adm))).Some? then Refused(DuplicateKey)
        else if custody < 0 then Refused(CheckViolation)
        else Done(b.(pools := b.pools[adm.contest := pool], treasury := custody,
                     poolLedger := b.poolLedger + [Row(PrizePool(adm.contest), Wrap(0 - amount), pool,
                                                       PoolDetail(false, adm.user, PoolReversalKey(adm), Some(p.id)))],
                     treasuryLedger := b.treasuryLedger + [Row(Treasury, amount, custody, TreasuryReversal(adm, None, t.id))]))
  {
    hide Find;
    WrapNegate(b.pools[adm.contest], p.row.amount);
  }

  /** The contribution in terms of the balances it reads. */
  lemma ContributionCases(b: Books, adm: Admission, amount: int64)
    ensures var p, t := Find(b.poolLedger, PoolKeyed(ContributionKey(adm))), Find(b.treasuryLedger, PoolAllocationOf(adm));
      Spec.PostContestPrizeContribution(b, adm, amount) ==
        if amount <= 0 then Fail(b, NotPositive)
        else if adm.contest !in b.pools then Fail(b, PoolMissing)
        else if adm.contest in b.legacy then Fail(b, WrongPolicy)
        else if p.Some? && t.Some? then
          (if p.value.row.amount != amount || p.value.row.account != PrizePool(adm.contest)
              || p.value.row.detail.user != adm.user || t.value.row.amount != -amount
           then Fail(b, IdempotencyConflict) else Step(b, AlreadyPosted))
        else if p.Some? || t.Some? then Fail(b, HalfPosted)
        else if b.treasury < amount then Fail(b, TreasuryShort)
        else if amount > MAX_INT64 - b.pools[adm.contest] then Fail(b, BalanceOverflow)
        else
          var custody, pool := Wrap(b.treasury - amount), Wrap(b.pools[adm.contest] + amount);
          if custody < 0 || pool < 0 then Fail(b, CheckViolation)
          else Step(b.(treasury := custody, pools := b.pools[adm.contest := pool],
                       treasuryLedger := b.treasuryLedger + [Row(Treasury, -amount, custody, PoolAllocation(adm))],
                       poolLedger := b.poolLedger + [Row(PrizePool(adm.contest), amount, pool, ContributionDetail(adm))]),
                    Posted)
  {
    hide Find;
  }
}
