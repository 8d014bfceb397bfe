/**
  The money tables and the wallet service's operations on them, one function per operation.
  A failed operation leaves the books as they were: its caller rolls the transaction back.
 */
module Books {
  import opened Int64
  import opened Rows

  type UserId = string
  type ContestId = string
  type IntentId = string

  const CONTEST_FUNDS_POLICY_VERSION := "2026-09-06.1"
  const MAX_BPS := 10_000

  /** `contest_id:user_id`, the shared identity of one admission's money movements. */
  datatype Admission = Admission(contest: ContestId, user: UserId)

  datatype Account = UserWallet(user: UserId) | Treasury | FeeWallet | PrizePool(contest: ContestId)

  datatype FeeKind = BaseFee | LateSurcharge

  /** The unique `wallet_ledger.idempotency_key`, by family. */
  datatype WalletKey =
    | DepositKey(intent: IntentId)
    | EntryKey(adm: Admission)
    | ReversalKey(adm: Admission)
    | RefundKey(adm: Admission)
    | PrizeKey(adm: Admission, rank: int)
    | OtherKey(text: string)

  datatype LedgerType = Deposit | Withdrawal | ContestEntry | ContestRefund | PrizeCredit | OtherType(name: string)

  datatype Reference = NoReference | IntentReference(intent: IntentId) | ContestReference(contest: ContestId)

  datatype ReasonCode = NoReason | ContestEntryReason | ContestPrizeReason | RefundReason(code: string)

  /** One ledger row: the account it belongs to, the signed amount and the balance it leaves. */
  datatype Row<+D> = Row(account: Account, amount: int64, after: int64, detail: D)

  datatype WalletDetail = WalletDetail(
    kind: LedgerType, reference: Reference, reason: ReasonCode, key: Option<WalletKey>, original: Option<nat>)

  datatype TreasuryDetail =
    | ExternalDeposit(intent: IntentId, beneficiary: UserId)
    | FeeAllocation(adm: Admission, fee: FeeKind)
    | PoolAllocation(adm: Admission)
    | TreasuryReversal(adm: Admission, reversed: Option<FeeKind>, original: nat)

  datatype FeeRowKind = Inflow(fee: FeeKind) | FeeRefundReversal

  datatype FeeDetail = FeeDetail(
    kind: FeeRowKind, adm: Admission, contest: ContestId, user: UserId, policy: string, bps: int,
    original: Option<nat>)

  datatype PoolKey = ContributionKey(adm: Admission) | PoolReversalKey(adm: Admission)

  datatype PoolDetail = PoolDetail(credit: bool, user: UserId, key: PoolKey, original: Option<nat>)

  type WalletRow = Row<WalletDetail>
  type TreasuryRow = Row<TreasuryDetail>
  type FeeRow = Row<FeeDetail>
  type PoolRow = Row<PoolDetail>

  datatype Books = Books(
    wallets: map<UserId, int64>,
    frozen: set<UserId>,
    walletLedger: seq<WalletRow>,
    treasury: int64,
    treasuryLedger: seq<TreasuryRow>,
    feeWallet: int64,
    feeLedger: seq<FeeRow>,
    pools: map<ContestId, int64>,
    legacy: set<ContestId>,
    poolLedger: seq<PoolRow>)

  datatype Error =
    | NotPositive
    | MissingIdentifier
    | WalletNotFound
    | WalletFrozen
    | InsufficientBalance
    | TreasuryShort
    | BalanceOverflow
    | CheckViolation
    | DuplicateKey
    | BpsOutOfRange
    | ReplayMismatch
    | IdempotencyConflict
    | HalfPosted
    | PoolMissing
    | WrongPolicy
    | InvalidSign
    | ReversalWouldBeNegative
    | DoesNotReconcile
    | PoolUnmoved

  datatype Outcome = Posted | AlreadyPosted | Nothing | Failed(error: Error)

  datatype Step = Step(books: Books, outcome: Outcome)

  const EMPTY := Books(map[], {}, [], 0, [], 0, [], map[], {}, [])

  // ----- Row queries -----

  function Keyed(k: WalletKey): WalletRow -> bool {
    (r: WalletRow) => r.detail.key == Some(k)
  }

  function EntryOf(adm: Admission): WalletRow -> bool {
    (r: WalletRow) =>
      r.account == UserWallet(adm.user) && r.detail.kind == ContestEntry
      && r.detail.reference == ContestReference(adm.contest)
  }

  function DepositOf(intent: IntentId): TreasuryRow -> bool {
    (r: TreasuryRow) => r.detail.ExternalDeposit? && r.detail.intent == intent
  }

  function FeeAllocationOf(adm: Admission, fee: FeeKind): TreasuryRow -> bool {
    (r: TreasuryRow) => r.detail == FeeAllocation(adm, fee)
  }

  function PoolAllocationOf(adm: Admission): TreasuryRow -> bool {
    (r: TreasuryRow) => r.detail == PoolAllocation(adm)
  }

  function InflowOf(adm: Admission, fee: FeeKind): FeeRow -> bool {
    (r: FeeRow) => r.detail.adm == adm && r.detail.kind == Inflow(fee)
  }

  function PoolKeyed(k: PoolKey): PoolRow -> bool {
    (r: PoolRow) => r.detail.key == k
  }

  function CreditOf(adm: Admission): PoolRow -> bool {
    (r: PoolRow) => r.account == PrizePool(adm.contest) && r.detail.user == adm.user && r.detail.credit
  }

  // ----- Postings: one balance update with its ledger row, under the table constraints -----

  datatype Posting = Done(books: Books) | Refused(error: Error)

  /** Credits or debits a wallet; the balance check and the unique key index refuse the row. */
  function PostWallet(b: Books, user: UserId, amount: int64, d: WalletDetail): Posting
    requires user in b.wallets
  {
    var after := Wrap(b.wallets[user] + amount);
    if amount == 0 || after < 0 then Refused(CheckViolation)
    else if d.key.Some? && Find(b.walletLedger, Keyed(d.key.value)).Some? then Refused(DuplicateKey)
    else Done(b.(wallets := b.wallets[user := after],
                 walletLedger := b.walletLedger + [Row(UserWallet(user), amount, after, d)]))
  }

  function PostTreasury(b: Books, amount: int64, d: TreasuryDetail): Posting {
    var after := Wrap(b.treasury + amount);
    if after < 0 then Refused(CheckViolation)
    else Done(b.(treasury := after,
                 treasuryLedger := b.treasuryLedger + [Row(Treasury, amount, after, d)]))
  }

  function PostFeeWallet(b: Books, amount: int64, d: FeeDetail): Posting {
    var after := Wrap(b.feeWallet + amount);
    if after < 0 then Refused(CheckViolation)
    else Done(b.(feeWallet := after,
                 feeLedger := b.feeLedger + [Row(FeeWallet, amount, after, d)]))
  }

  function PostPool(b: Books, contest: ContestId, amount: int64, d: PoolDetail): Posting
    requires contest in b.pools
  {
    var after := Wrap(b.pools[contest] + amount);
    if after < 0 then Refused(CheckViolation)
    else if Find(b.poolLedger, PoolKeyed(d.key)).Some? then Refused(DuplicateKey)
    else Done(b.(pools := b.pools[contest := after],
                 poolLedger := b.poolLedger + [Row(PrizePool(contest), amount, after, d)]))
  }

  function Finish(b: Books, p: Posting): Step {
    match p
    case Done(b') => Step(b', Posted)
    case Refused(e) => Step(b, Failed(e))
  }

  function Fail(b: Books, e: Error): Step {
    Step(b, Failed(e))
  }

  // ----- Accounts -----

  function CreateWallet(b: Books, user: UserId): Step {
    if user in b.wallets then Step(b, Nothing)
    else Step(b.(wallets := b.wallets[user := 0]), Posted)
  }

  function SetFrozen(b: Books, user: UserId, frozen: bool): Step {
    if user !in b.wallets then Step(b, Nothing)
    else Step(b.(frozen := if frozen then b.frozen + {user} else b.frozen - {user}), Posted)
  }

  /** The trigger on new contests: a Prize Pool account for a modern one, none for a legacy one. */
  function ProvisionPool(b: Books, contest: ContestId, modern: bool): Step {
    if contest in b.pools || contest in b.legacy then Step(b, Nothing)
    else if modern then Step(b.(pools := b.pools[contest := 0]), Posted)
    else Step(b.(legacy := b.legacy + {contest}), Posted)
  }

  // ----- User wallet operations -----

  function Debit(b: Books, user: UserId, amount: int64, d: WalletDetail): Step {
    if amount <= 0 then Fail(b, NotPositive)
    else if user !in b.wallets then Fail(b, WalletNotFound)
    else if user in b.frozen then Fail(b, WalletFrozen)
    else if b.wallets[user] < amount then Fail(b, InsufficientBalance)
    else Finish(b, PostWallet(b, user, -amount, d))
  }

  predicate CreditsFrozen(kind: LedgerType) {
    kind == PrizeCredit || kind == ContestRefund
  }

  function Credit(b: Books, user: UserId, amount: int64, d: WalletDetail): Step {
    if amount <= 0 then Fail(b, NotPositive)
    else if user !in b.wallets then Fail(b, WalletNotFound)
    else if user in b.frozen && !CreditsFrozen(d.kind) then Fail(b, WalletFrozen)
    else Finish(b, PostWallet(b, user, amount, d))
  }

  /** A credit under an idempotency key: an existing row with the key is success without effect. */
  function CreditIdempotent(b: Books, user: UserId, amount: int64, kind: LedgerType, reference: Reference,
                            reason: ReasonCode, key: WalletKey): Step
  {
    if amount <= 0 then Fail(b, NotPositive)
    else if Find(b.walletLedger, Keyed(key)).Some? then Step(b, AlreadyPosted)
    else Credit(b, user, amount, WalletDetail(kind, reference, reason, Some(key), None))
  }

  function RefundContestEntryFee(b: Books, adm: Admission, amount: int64, code: string): Step {
    if amount <= 0 then Step(b, Nothing)
    else CreditIdempotent(b, adm.user, amount, ContestRefund, ContestReference(adm.contest),
                          RefundReason(code), RefundKey(adm))
  }

  function CreditPrize(b: Books, adm: Admission, rank: int, amount: int64): Step {
    if amount <= 0 then Step(b, Nothing)
    else CreditIdempotent(b, adm.user, amount, PrizeCredit, ContestReference(adm.contest),
                          ContestPrizeReason, PrizeKey(adm, rank))
  }

  function EntryDetail(adm: Admission): WalletDetail {
    WalletDetail(ContestEntry, ContestReference(adm.contest), ContestEntryReason, Some(EntryKey(adm)), None)
  }

  /** Charges an entry. A replay is recognised by key alone; its amount is not compared. */
  function DeductContestEntryFee(b: Books, adm: Admission, amount: int64): Step {
    if amount <= 0 then Step(b, Nothing)
    else if Find(b.walletLedger, Keyed(EntryKey(adm))).Some? then Step(b, AlreadyPosted)
    else Debit(b, adm.user, amount, EntryDetail(adm))
  }

  // ----- Custody operations -----

  predicate IsEntitlement(r: WalletRow, user: UserId, amount: int64, intent: IntentId) {
    r.account == UserWallet(user) && r.amount == amount
    && r.detail.kind == Deposit && r.detail.reference == IntentReference(intent)
  }

  /** Records an external deposit in Treasury custody and as the user's entitlement, or neither. */
  function PostConfirmedDeposit(b: Books, user: UserId, amount: int64, intent: IntentId): Step {
    if amount <= 0 then Fail(b, NotPositive)
    else if user == "" || intent == "" then Fail(b, MissingIdentifier)
    else
      match Find(b.treasuryLedger, DepositOf(intent))
      case Some(custody) =>
        if custody.row.detail.beneficiary != user || custody.row.amount != amount then Fail(b, ReplayMismatch)
        else (match Find(b.walletLedger, Keyed(DepositKey(intent)))
              case Some(w) =>
                if IsEntitlement(w.row, user, amount, intent) then Step(b, AlreadyPosted) else Fail(b, HalfPosted)
              case None => Fail(b, HalfPosted))
      case None =>
        if Wrap(b.treasury + amount) < b.treasury then Fail(b, BalanceOverflow)
        else
          match PostTreasury(b, amount, ExternalDeposit(intent, user))
          case Refused(e) => Fail(b, e)
          case Done(b1) =>
            var credited := CreditIdempotent(b1, user, amount, Deposit, IntentReference(intent), NoReason,
                                             DepositKey(intent));
            match credited.outcome
            case AlreadyPosted => Fail(b, HalfPosted)
            case Failed(e) => Fail(b, e)
            case _ => Step(credited.books, Posted)
  }

  function InflowDetail(adm: Admission, fee: FeeKind, bps: int): FeeDetail {
    FeeDetail(Inflow(fee), adm, adm.contest, adm.user, CONTEST_FUNDS_POLICY_VERSION, bps, None)
  }

  /** Moves one fee part of an admission from Treasury to the Contest Fee Wallet, exactly once. */
  function PostContestFee(b: Books, adm: Admission, fee: FeeKind, amount: int64, bps: int): Step {
    if amount <= 0 then Fail(b, NotPositive)
    else if bps <= 0 || bps > MAX_BPS then Fail(b, BpsOutOfRange)
    else
      match (Find(b.feeLedger, InflowOf(adm, fee)), Find(b.treasuryLedger, FeeAllocationOf(adm, fee)))
      case (Some(f), Some(t)) =>
        if f.row.amount != amount || f.row.detail != InflowDetail(adm, fee, bps) || t.row.amount != -amount
        then Fail(b, IdempotencyConflict)
        else Step(b, AlreadyPosted)
      case (None, None) =>
        if b.treasury < amount then Fail(b, TreasuryShort)
        else if Wrap(b.feeWallet + amount) < b.feeWallet then Fail(b, BalanceOverflow)
        else
          (match PostTreasury(b, -amount, FeeAllocation(adm, fee))
           case Refused(e) => Fail(b, e)
           case Done(b1) =>
             match PostFeeWallet(b1, amount, InflowDetail(adm, fee, bps))
             case Refused(e) => Fail(b, e)
             case Done(b2) => Step(b2, Posted))
      case _ => Fail(b, HalfPosted)
  }

  function ContributionDetail(adm: Admission): PoolDetail {
    PoolDetail(true, adm.user, ContributionKey(adm), None)
  }

  /** Moves an admission's prize part from Treasury to its contest's Prize Pool, exactly once. */
  function PostContestPrizeContribution(b: Books, adm: Admission, amount: int64): Step {
    if amount <= 0 then Fail(b, NotPositive)
    else if adm.contest !in b.pools then Fail(b, PoolMissing)
    else if adm.contest in b.legacy then Fail(b, WrongPolicy)
    else
      match (Find(b.poolLedger, PoolKeyed(ContributionKey(adm))), Find(b.treasuryLedger, PoolAllocationOf(adm)))
      case (Some(p), Some(t)) =>
        if p.row.amount != amount || p.row.account != PrizePool(adm.contest) || p.row.detail.user != adm.user
           || t.row.amount != -amount
        then Fail(b, IdempotencyConflict)
        else Step(b, AlreadyPosted)
      case (None, None) =>
        if b.treasury < amount then Fail(b, TreasuryShort)
        else if amount > MAX_INT64 - b.pools[adm.contest] then Fail(b, BalanceOverflow)
        else
          (match PostTreasury(b, -amount, PoolAllocation(adm))
           case Refused(e) => Fail(b, e)
           case Done(b1) =>
             match PostPool(b1, adm.contest, amount, ContributionDetail(adm))
             case Refused(e) => Fail(b, e)
             case Done(b2) => Step(b2, Posted))
      case _ => Fail(b, HalfPosted)
  }

  // ----- Admission as one transaction -----

  /** The figures of one paid admission. */
  datatype Charge = Charge(total: int64, base: int64, surcharge: int64, prize: int64, bps: int)

  predicate Succeeded(s: Step) {
    !s.outcome.Failed?
  }

  /** Runs `amount > 0` parts only, as the join handler does. */
  function PostFeePart(b: Books, adm: Admission, fee: FeeKind, amount: int64, bps: int): Step {
    if amount > 0 then PostContestFee(b, adm, fee, amount, bps) else Step(b, Nothing)
  }

  function PostPrizePart(b: Books, adm: Admission, amount: int64): Step {
    if amount > 0 then PostContestPrizeContribution(b, adm, amount) else Step(b, Nothing)
  }

  /** Debit, base fee, late surcharge, prize contribution: all of them or none. */
  function Admit(b: Books, adm: Admission, c: Charge): Step {
    var s1 := DeductContestEntryFee(b, adm, c.total);
    if !Succeeded(s1) then Fail(b, s1.outcome.error) else
    var s2 := PostFeePart(s1.books, adm, BaseFee, c.base, c.bps);
    if !Succeeded(s2) then Fail(b, s2.outcome.error) else
    var s3 := PostFeePart(s2.books, adm, LateSurcharge, c.surcharge, c.bps);
    if !Succeeded(s3) then Fail(b, s3.outcome.error) else
    var s4 := PostPrizePart(s3.books, adm, c.prize);
    if !Succeeded(s4) then Fail(b, s4.outcome.error) else
    Step(s4.books, s1.outcome)
  }

  // ----- Exact reversal -----

  /** A fee row joined with the Treasury row that funded it. */
  datatype FeeOriginal = FeeOriginal(fee: Found<FeeRow>, custody: Found<TreasuryRow>)

  function FeeOriginal1(b: Books, adm: Admission, fee: FeeKind): seq<FeeOriginal> {
    match (Find(b.feeLedger, InflowOf(adm, fee)), Find(b.treasuryLedger, FeeAllocationOf(adm, fee)))
    case (Some(f), Some(t)) => [FeeOriginal(f, t)]
    case _ => []
  }

  /** The admission's fee movements, base fee before surcharge. */
  function FeeOriginals(b: Books, adm: Admission): seq<FeeOriginal> {
    FeeOriginal1(b, adm, BaseFee) + FeeOriginal1(b, adm, LateSurcharge)
  }

  function ReversalDetail(adm: Admission, original: nat): WalletDetail {
    WalletDetail(ContestRefund, ContestReference(adm.contest), RefundReason("CONTEST_REFUND_ADMIN"),
                 Some(ReversalKey(adm)), Some(original))
  }

  function FeeReversalDetail(adm: Admission, f: Found<FeeRow>): FeeDetail {
    FeeDetail(FeeRefundReversal, adm, adm.contest, adm.user, f.row.detail.policy, f.row.detail.bps, Some(f.id))
  }

  function FeeKindOf(f: FeeRow): Option<FeeKind> {
    if f.detail.kind.Inflow? then Some(f.detail.kind.fee) else None
  }

  function ReverseFee(b: Books, adm: Admission, o: FeeOriginal): Posting {
    if b.feeWallet < o.fee.row.amount then Refused(ReversalWouldBeNegative)
    else
      match PostFeeWallet(b, Wrap(0 - o.fee.row.amount), FeeReversalDetail(adm, o.fee))
      case Refused(e) => Refused(e)
      case Done(b1) =>
        PostTreasury(b1, o.fee.row.amount, TreasuryReversal(adm, FeeKindOf(o.fee.row), o.custody.id))
  }

  function ReverseFees(b: Books, adm: Admission, fees: seq<FeeOriginal>): (r: Posting)
    ensures r.Done? ==> r.books.pools == b.pools
  {
    if fees == [] then Done(b)
    else
      match ReverseFees(b, adm, fees[..|fees| - 1])
      case Refused(e) => Refused(e)
      case Done(b1) => ReverseFee(b1, adm, fees[|fees| - 1])
  }

  function FeeTotal(fees: seq<FeeOriginal>): int64 {
    if fees == [] then 0 else Wrap(FeeTotal(fees[..|fees| - 1]) + fees[|fees| - 1].fee.row.amount)
  }

  function ReversePool(b: Books, adm: Admission, p: Found<PoolRow>, t: Found<TreasuryRow>): Posting
    requires adm.contest in b.pools
  {
    if b.pools[adm.contest] < p.row.amount then Refused(ReversalWouldBeNegative)
    else
      match PostPool(b, adm.contest, Wrap(0 - p.row.amount), PoolDetail(false, adm.user, PoolReversalKey(adm), Some(p.id)))
      case Refused(e) => Refused(e)
      case Done(b1) => PostTreasury(b1, p.row.amount, TreasuryReversal(adm, None, t.id))
  }

  /** Appends the exact reversal of every movement of one admission, or nothing if there was no entry. */
  function ReverseContestAdmission(b: Books, adm: Admission): Step {
    match Find(b.walletLedger, EntryOf(adm))
    case None => Step(b, Nothing)
    case Some(entry) =>
      if entry.row.amount >= 0 then Fail(b, InvalidSign)
      else if adm.user !in b.wallets then Fail(b, WalletNotFound)
      else if adm.contest !in b.pools then Fail(b, PoolMissing)
      else
        var refund := Wrap(0 - entry.row.amount);
        if Wrap(b.wallets[adm.user] + refund) < b.wallets[adm.user] then Fail(b, BalanceOverflow)
        else ReverseEntry(b, adm, entry.id, refund)
  }

  /** Refund, fee reversals, pool reversal: all of them or none. */
  function ReverseEntry(b: Books, adm: Admission, entry: nat, refund: int64): Step
    requires adm.user in b.wallets && adm.contest in b.pools
  {
    match PostWallet(b, adm.user, refund, ReversalDetail(adm, entry))
    case Refused(e) => Fail(b, e)
    case Done(b1) =>
      var fees := FeeOriginals(b1, adm);
      match ReverseFees(b1, adm, fees)
      case Refused(e) => Fail(b, e)
      case Done(b2) => ReversePrize(b, b2, adm, FeeTotal(fees), refund)
  }

  /** The pool half of a reversal, if the admission has one, and the reconciliation of the whole. */
  function ReversePrize(b: Books, b2: Books, adm: Admission, fees: int64, refund: int64): Step
    requires adm.contest in b.pools && adm.contest in b2.pools
  {
    match (Find(b2.poolLedger, CreditOf(adm)), Find(b2.treasuryLedger, PoolAllocationOf(adm)))
    case (Some(p), Some(t)) =>
      (match ReversePool(b2, adm, p, t)
       case Refused(e) => Fail(b, e)
       case Done(b3) => Settle(b, b3, adm.contest, Wrap(fees + p.row.amount), refund))
    case _ => Settle(b, b2, adm.contest, fees, refund)
  }

  /**
    The last guards: what the system accounts released must be what the wallet got back, and the closing update of the
    pool account, which is made in any case, is refused by its trigger when the balance has not moved.
   */
  function Settle(b: Books, b': Books, contest: ContestId, released: int64, refund: int64): Step
    requires contest in b.pools && contest in b'.pools
  {
    if released != refund then Fail(b, DoesNotReconcile)
    else if b'.pools[contest] == b.pools[contest] then Fail(b, PoolUnmoved)
    else Step(b', Posted)
  }
}
