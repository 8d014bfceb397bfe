/**
  Laws of the books that hold in every run of the wallet service, whatever the order of its operations:
  every ledger explains its balances, the two halves of a deposit always agree, and repeats change nothing.
 */
module LedgerLaws {
  import opened Int64
  import opened Rows
  import opened Books

  // ----- Runs -----

  /** Every operation a caller can make, each in its own transaction. */
  datatype Op =
    | OpenWallet(user: UserId)
    | Freeze(user: UserId, on: bool)
    | OpenPool(contest: ContestId, modern: bool)
    | PlainDebit(user: UserId, amount: int64, kind: LedgerType, reference: Reference, reason: ReasonCode)
    | PlainCredit(user: UserId, amount: int64, kind: LedgerType, reference: Reference, reason: ReasonCode)
    | KeyedCredit(user: UserId, amount: int64, kind: LedgerType, reference: Reference, reason: ReasonCode, key: WalletKey)
    | ConfirmDeposit(user: UserId, amount: int64, intent: IntentId)
    | ChargeEntry(adm: Admission, amount: int64)
    | AllocateFee(adm: Admission, fee: FeeKind, amount: int64, bps: int)
    | AllocatePrize(adm: Admission, amount: int64)
    | AdmitPaid(adm: Admission, charge: Charge)
    | Reverse(adm: Admission)
    | Refund(adm: Admission, amount: int64, code: string)
    | AwardPrize(adm: Admission, rank: int, amount: int64)

  function Apply(b: Books, op: Op): Step {
    match op
    case OpenWallet(u) => CreateWallet(b, u)
    case Freeze(u, on) => SetFrozen(b, u, on)
    case OpenPool(c, modern) => ProvisionPool(b, c, modern)
    case PlainDebit(u, a, kind, ref, reason) => Debit(b, u, a, WalletDetail(kind, ref, reason, None, None))
    case PlainCredit(u, a, kind, ref, reason) => Credit(b, u, a, WalletDetail(kind, ref, reason, None, None))
    case KeyedCredit(u, a, kind, ref, reason, key) => CreditIdempotent(b, u, a, kind, ref, reason, key)
    case ConfirmDeposit(u, a, intent) => PostConfirmedDeposit(b, u, a, intent)
    case ChargeEntry(adm, a) => DeductContestEntryFee(b, adm, a)
    case AllocateFee(adm, fee, a, bps) => PostContestFee(b, adm, fee, a, bps)
    case AllocatePrize(adm, a) => PostContestPrizeContribution(b, adm, a)
    case AdmitPaid(adm, c) => Admit(b, adm, c)
    case Reverse(adm) => ReverseContestAdmission(b, adm)
    case Refund(adm, a, code) => RefundContestEntryFee(b, adm, a, code)
    case AwardPrize(adm, rank, a) => CreditPrize(b, adm, rank, a)
  }

  function Run(b: Books, ops: seq<Op>): Books
    decreases |ops|
  {
    if ops == [] then b else Run(Apply(b, ops[0]).books, ops[1..])
  }

  // ----- Every ledger explains its balances -----

  function AmountIn<D(!new)>(a: Account): Row<D> -> int {
    (r: Row<D>) => if r.account == a then r.amount else 0
  }

  /** The sum of an account's rows. */
  function Balance<D(!new)>(ledger: seq<Row<D>>, a: Account): int {
    Sum(ledger, AmountIn(a))
  }

  /** Each row's balance-after is the running sum of its own account, and is never negative. */
  ghost predicate Chained<D(!new)>(ledger: seq<Row<D>>) {
    forall i :: 0 <= i < |ledger| ==>
      0 <= ledger[i].after == Balance(ledger[..i + 1], ledger[i].account)
  }

  lemma ChainedAppend<D(!new)>(ledger: seq<Row<D>>, row: Row<D>)
    requires Chained(ledger) && 0 <= row.after == Balance(ledger, row.account) + row.amount
    ensures Chained(ledger + [row])
    ensures forall a :: Balance(ledger + [row], a) == Balance(ledger, a) + (if a == row.account then row.amount else 0)
  {
    var longer := ledger + [row];
    forall a ensures Balance(longer, a) == Balance(ledger, a) + (if a == row.account then row.amount else 0) {
      SumAppend(ledger, row, AmountIn(a));
    }
    forall i | 0 <= i < |longer| ensures 0 <= longer[i].after == Balance(longer[..i + 1], longer[i].account) {
      if i < |ledger| {
        assert longer[..i + 1] == ledger[..i + 1];
      } else {
        assert longer[..i + 1] == longer;
      }
    }
  }

  lemma {:induction false} AbsentAccount<D(!new)>(ledger: seq<Row<D>>, a: Account)
    requires forall i :: 0 <= i < |ledger| ==> ledger[i].account != a
    ensures Balance(ledger, a) == 0
  {
    if |ledger| > 0 {
      AbsentAccount(ledger[..|ledger| - 1], a);
    }
  }

  ghost predicate WalletsSound(ledger: seq<WalletRow>, wallets: map<UserId, int64>) {
    && Chained(ledger)
    && (forall u :: u in wallets ==> 0 <= wallets[u] == Balance(ledger, UserWallet(u)))
    && (forall i :: 0 <= i < |ledger| ==> ledger[i].account.UserWallet? && ledger[i].account.user in wallets)
  }

  ghost predicate SystemSound<D(!new)>(ledger: seq<Row<D>>, balance: int64, account: Account) {
    && Chained(ledger)
    && 0 <= balance == Balance(ledger, account)
    && (forall i :: 0 <= i < |ledger| ==> ledger[i].account == account)
  }

  ghost predicate PoolsSound(ledger: seq<PoolRow>, pools: map<ContestId, int64>) {
    && Chained(ledger)
    && (forall c :: c in pools ==> 0 <= pools[c] == Balance(ledger, PrizePool(c)))
    && (forall i :: 0 <= i < |ledger| ==> ledger[i].account.PrizePool? && ledger[i].account.contest in pools)
  }

  /** The stored balance of every account is the sum of its ledger, at every row along the way. */
  ghost predicate Sound(b: Books) {
    && WalletsSound(b.walletLedger, b.wallets)
    && SystemSound(b.treasuryLedger, b.treasury, Treasury)
    && SystemSound(b.feeLedger, b.feeWallet, FeeWallet)
    && PoolsSound(b.poolLedger, b.pools)
  }

  lemma WalletsSoundAppend(ledger: seq<WalletRow>, wallets: map<UserId, int64>, row: WalletRow)
    requires WalletsSound(ledger, wallets) && row.account.UserWallet? && row.account.user in wallets
    requires 0 <= row.after == wallets[row.account.user] + row.amount
    ensures WalletsSound(ledger + [row], wallets[row.account.user := row.after])
  {
    hide Chained, Balance;
    ChainedAppend(ledger, row);
  }

  lemma SystemSoundAppend<D(!new)>(ledger: seq<Row<D>>, balance: int64, account: Account, row: Row<D>)
    requires SystemSound(ledger, balance, account) && row.account == account && 0 <= row.after == balance + row.amount
    ensures SystemSound(ledger + [row], row.after, account)
  {
    hide Chained, Balance;
    ChainedAppend(ledger, row);
  }

  lemma PoolsSoundAppend(ledger: seq<PoolRow>, pools: map<ContestId, int64>, row: PoolRow)
    requires PoolsSound(ledger, pools) && row.account.PrizePool? && row.account.contest in pools
    requires 0 <= row.after == pools[row.account.contest] + row.amount
    ensures PoolsSound(ledger + [row], pools[row.account.contest := row.after])
  {
    hide Chained, Balance;
    ChainedAppend(ledger, row);
  }

  /** A balance plus an amount that stays non-negative did not wrap. */
  lemma PostWalletSound(b: Books, user: UserId, amount: int64, d: WalletDetail)
    requires Sound(b) && user in b.wallets
    ensures var p := PostWallet(b, user, amount, d);
      p.Done? ==> Sound(p.books) && p.books.wallets[user] == b.wallets[user] + amount
  {
    assert b.wallets[user] >= 0;
    hide WalletsSound, SystemSound, PoolsSound, Find;
    var p := PostWallet(b, user, amount, d);
    if p.Done? {
      WalletsSoundAppend(b.walletLedger, b.wallets, Row(UserWallet(user), amount, p.books.wallets[user], d));
    }
  }

  lemma PostTreasurySound(b: Books, amount: int64, d: TreasuryDetail)
    requires Sound(b)
    ensures var p := PostTreasury(b, amount, d);
      p.Done? ==> Sound(p.books) && p.books.treasury == b.treasury + amount
  {
    assert b.treasury >= 0;
    hide WalletsSound, SystemSound, PoolsSound;
    var p := PostTreasury(b, amount, d);
    if p.Done? {
      SystemSoundAppend(b.treasuryLedger, b.treasury, Treasury, Row(Treasury, amount, p.books.treasury, d));
    }
  }

  lemma PostFeeWalletSound(b: Books, amount: int64, d: FeeDetail)
    requires Sound(b)
    ensures var p := PostFeeWallet(b, amount, d);
      p.Done? ==> Sound(p.books) && p.books.feeWallet == b.feeWallet + amount
  {
    assert b.feeWallet >= 0;
    hide WalletsSound, SystemSound, PoolsSound;
    var p := PostFeeWallet(b, amount, d);
    if p.Done? {
      SystemSoundAppend(b.feeLedger, b.feeWallet, FeeWallet, Row(FeeWallet, amount, p.books.feeWallet, d));
    }
  }

  lemma PostPoolSound(b: Books, contest: ContestId, amount: int64, d: PoolDetail)
    requires Sound(b) && contest in b.pools
    ensures var p := PostPool(b, contest, amount, d);
      p.Done? ==> Sound(p.books) && p.books.pools[contest] == b.pools[contest] + amount
  {
    assert b.pools[contest] >= 0;
    hide WalletsSound, SystemSound, PoolsSound, Find;
    var p := PostPool(b, contest, amount, d);
    if p.Done? {
      PoolsSoundAppend(b.poolLedger, b.pools, Row(PrizePool(contest), amount, p.books.pools[contest], d));
    }
  }

  // ----- The two halves of a deposit -----

  /** Custody and entitlement of one intent are both absent, or both present with equal user and amount. */
  ghost predicate DepositMatched(treasury: seq<TreasuryRow>, wallet: seq<WalletRow>, intent: IntentId) {
    match (Find(treasury, DepositOf(intent)), Find(wallet, Keyed(DepositKey(intent))))
    case (None, None) => true
    case (Some(t), Some(w)) => IsEntitlement(w.row, t.row.detail.beneficiary, t.row.amount, intent)
    case _ => false
  }

  ghost predicate DepositsMatched(treasury: seq<TreasuryRow>, wallet: seq<WalletRow>) {
    forall intent :: DepositMatched(treasury, wallet, intent)
  }

  // ----- Rows are only added, and a keyed row is found again for ever -----

  ghost predicate WalletGrows(l: seq<WalletRow>, l': seq<WalletRow>) {
    && l <= l'
    && (forall k :: Find(l, Keyed(k)).Some? ==> Find(l', Keyed(k)) == Find(l, Keyed(k)))
  }

  ghost predicate TreasuryGrows(l: seq<TreasuryRow>, l': seq<TreasuryRow>) {
    && l <= l'
    && (forall i :: Find(l, DepositOf(i)).Some? ==> Find(l', DepositOf(i)) == Find(l, DepositOf(i)))
    && (forall adm, f :: Find(l, FeeAllocationOf(adm, f)).Some? ==>
          Find(l', FeeAllocationOf(adm, f)) == Find(l, FeeAllocationOf(adm, f)))
    && (forall adm :: Find(l, PoolAllocationOf(adm)).Some? ==>
          Find(l', PoolAllocationOf(adm)) == Find(l, PoolAllocationOf(adm)))
  }

  ghost predicate FeesGrow(l: seq<FeeRow>, l': seq<FeeRow>) {
    && l <= l'
    && (forall adm, f :: Find(l, InflowOf(adm, f)).Some? ==> Find(l', InflowOf(adm, f)) == Find(l, InflowOf(adm, f)))
  }

  ghost predicate PoolsGrow(l: seq<PoolRow>, l': seq<PoolRow>) {
    && l <= l'
    && (forall k :: Find(l, PoolKeyed(k)).Some? ==> Find(l', PoolKeyed(k)) == Find(l, PoolKeyed(k)))
  }

  /** `b'` is a later state of `b`. */
  ghost predicate Grows(b: Books, b': Books) {
    && WalletGrows(b.walletLedger, b'.walletLedger)
    && TreasuryGrows(b.treasuryLedger, b'.treasuryLedger)
    && FeesGrow(b.feeLedger, b'.feeLedger)
    && PoolsGrow(b.poolLedger, b'.poolLedger)
    && b.wallets.Keys <= b'.wallets.Keys
    && b.pools.Keys <= b'.pools.Keys
    && (forall c :: c in b.pools ==> (c in b.legacy <==> c in b'.legacy))
  }

  /** No row that a deposit could be confused with has come or gone. */
  ghost predicate DepositsKept(b: Books, b': Books) {
    forall i :: Find(b'.treasuryLedger, DepositOf(i)) == Find(b.treasuryLedger, DepositOf(i))
      && Find(b'.walletLedger, Keyed(DepositKey(i))) == Find(b.walletLedger, Keyed(DepositKey(i)))
  }

  lemma GrowsReflexive(b: Books)
    ensures Grows(b, b) && DepositsKept(b, b)
  {
  }

  lemma GrowsTransitive(b0: Books, b1: Books, b2: Books)
    requires Grows(b0, b1) && Grows(b1, b2)
    ensures Grows(b0, b2)
    ensures DepositsKept(b0, b1) && DepositsKept(b1, b2) ==> DepositsKept(b0, b2)
  {
  }

  lemma PostWalletGrows(b: Books, user: UserId, amount: int64, d: WalletDetail)
    requires user in b.wallets
    ensures var p := PostWallet(b, user, amount, d);
      p.Done? ==>
        && Grows(b, p.books)
        && (forall k :: d.key != Some(k) ==> Find(p.books.walletLedger, Keyed(k)) == Find(b.walletLedger, Keyed(k)))
        && (d.key.Some? ==>
              Find(p.books.walletLedger, Keyed(d.key.value))
              == Some(Found(|b.walletLedger|, Row(UserWallet(user), amount, p.books.wallets[user], d))))
  {
    hide TreasuryGrows, FeesGrow, PoolsGrow;
    GrowsReflexive(b);
    var p := PostWallet(b, user, amount, d);
    if p.Done? {
      var row := Row(UserWallet(user), amount, p.books.wallets[user], d);
      forall k ensures Find(p.books.walletLedger, Keyed(k))
        == if d.key == Some(k) then Some(Found(|b.walletLedger|, row)) else Find(b.walletLedger, Keyed(k))
      {
        FindAppend(b.walletLedger, row, Keyed(k));
      }
    }
  }

  /** The Treasury row is not already there: what the unique indexes and the preceding lookups guarantee. */
  ghost predicate TreasuryFresh(b: Books, d: TreasuryDetail) {
    match d
    case ExternalDeposit(i, _) => Find(b.treasuryLedger, DepositOf(i)).None?
    case FeeAllocation(adm, f) => Find(b.treasuryLedger, FeeAllocationOf(adm, f)).None?
    case PoolAllocation(adm) => Find(b.treasuryLedger, PoolAllocationOf(adm)).None?
    case TreasuryReversal(_, _, _) => true
  }

  lemma PostTreasuryGrows(b: Books, amount: int64, d: TreasuryDetail)
    requires TreasuryFresh(b, d)
    ensures var p := PostTreasury(b, amount, d);
      p.Done? ==>
        var row := Row(Treasury, amount, p.books.treasury, d);
        var found := Some(Found(|b.treasuryLedger|, row));
        && Grows(b, p.books)
        && (forall i :: Find(p.books.treasuryLedger, DepositOf(i))
              == if d.ExternalDeposit? && d.intent == i then found else Find(b.treasuryLedger, DepositOf(i)))
        && (forall adm, f :: Find(p.books.treasuryLedger, FeeAllocationOf(adm, f))
              == if d == FeeAllocation(adm, f) then found else Find(b.treasuryLedger, FeeAllocationOf(adm, f)))
        && (forall adm :: Find(p.books.treasuryLedger, PoolAllocationOf(adm))
              == if d == PoolAllocation(adm) then found else Find(b.treasuryLedger, PoolAllocationOf(adm)))
  {
    hide WalletGrows, FeesGrow, PoolsGrow;
    GrowsReflexive(b);
    var p := PostTreasury(b, amount, d);
    if p.Done? {
      var row := Row(Treasury, amount, p.books.treasury, d);
      forall i { FindAppend(b.treasuryLedger, row, DepositOf(i)); }
      forall adm, f { FindAppend(b.treasuryLedger, row, FeeAllocationOf(adm, f)); }
      forall adm { FindAppend(b.treasuryLedger, row, PoolAllocationOf(adm)); }
    }
  }

  lemma PostFeeWalletGrows(b: Books, amount: int64, d: FeeDetail)
    requires d.kind.Inflow? ==> Find(b.feeLedger, InflowOf(d.adm, d.kind.fee)).None?
    ensures var p := PostFeeWallet(b, amount, d);
      p.Done? ==>
        && Grows(b, p.books)
        && (forall adm, f :: Find(p.books.feeLedger, InflowOf(adm, f))
              == if d.adm == adm && d.kind == Inflow(f)
                 then Some(Found(|b.feeLedger|, Row(FeeWallet, amount, p.books.feeWallet, d)))
                 else Find(b.feeLedger, InflowOf(adm, f)))
  {
    hide WalletGrows, TreasuryGrows, PoolsGrow;
    GrowsReflexive(b);
    var p := PostFeeWallet(b, amount, d);
    if p.Done? {
      var row := Row(FeeWallet, amount, p.books.feeWallet, d);
      forall adm, f { FindAppend(b.feeLedger, row, InflowOf(adm, f)); }
    }
  }

  lemma PostPoolGrows(b: Books, contest: ContestId, amount: int64, d: PoolDetail)
    requires contest in b.pools
    ensures var p := PostPool(b, contest, amount, d);
      p.Done? ==>
        && Grows(b, p.books)
        && (forall k :: Find(p.books.poolLedger, PoolKeyed(k))
              == if d.key == k then Some(Found(|b.poolLedger|, Row(PrizePool(contest), amount, p.books.pools[contest], d)))
                 else Find(b.poolLedger, PoolKeyed(k)))
  {
    hide WalletGrows, TreasuryGrows, FeesGrow;
    GrowsReflexive(b);
    var p := PostPool(b, contest, amount, d);
    if p.Done? {
      var row := Row(PrizePool(contest), amount, p.books.pools[contest], d);
      forall k { FindAppend(b.poolLedger, row, PoolKeyed(k)); }
    }
  }

  // ----- Each posting keeps the laws -----

  ghost predicate DepositsPositive(treasury: seq<TreasuryRow>) {
    forall i :: 0 <= i < |treasury| && treasury[i].detail.ExternalDeposit? ==> treasury[i].amount > 0
  }

  ghost predicate Good(b: Books) {
    Sound(b) && DepositsPositive(b.treasuryLedger)
  }

  lemma GoodIsSound(b: Books)
    requires Good(b)
    ensures Sound(b)
  {
  }

  /** A step that keeps the laws, only adds rows, and concerns no deposit. */
  ghost predicate GoodStep(b: Books, b': Books) {
    Good(b') && Grows(b, b') && DepositsKept(b, b')
  }

  lemma GoodWallet(b: Books, user: UserId, amount: int64, d: WalletDetail)
    requires Good(b) && user in b.wallets
    ensures var p := PostWallet(b, user, amount, d);
      p.Done? ==> Good(p.books) && Grows(b, p.books) && (!(d.key.Some? && d.key.value.DepositKey?) ==> DepositsKept(b, p.books))
  {
    hide Sound, Grows;
    PostWalletSound(b, user, amount, d);
    PostWalletGrows(b, user, amount, d);
  }

  lemma GoodTreasury(b: Books, amount: int64, d: TreasuryDetail)
    requires Good(b) && TreasuryFresh(b, d) && !d.ExternalDeposit?
    ensures var p := PostTreasury(b, amount, d); p.Done? ==> GoodStep(b, p.books)
  {
    hide Sound, Grows;
    PostTreasurySound(b, amount, d);
    PostTreasuryGrows(b, amount, d);
  }

  lemma GoodFeeWallet(b: Books, amount: int64, d: FeeDetail)
    requires Good(b) && (d.kind.Inflow? ==> Find(b.feeLedger, InflowOf(d.adm, d.kind.fee)).None?)
    ensures var p := PostFeeWallet(b, amount, d); p.Done? ==> GoodStep(b, p.books)
  {
    hide Sound, Grows, DepositsPositive;
    PostFeeWalletSound(b, amount, d);
    PostFeeWalletGrows(b, amount, d);
  }

  lemma GoodPool(b: Books, contest: ContestId, amount: int64, d: PoolDetail)
    requires Good(b) && contest in b.pools
    ensures var p := PostPool(b, contest, amount, d); p.Done? ==> GoodStep(b, p.books)
  {
    hide Sound, Grows, DepositsPositive;
    PostPoolSound(b, contest, amount, d);
    PostPoolGrows(b, contest, amount, d);
  }

  // ----- Each operation keeps the laws -----

  lemma GoodDeposit(b: Books, user: UserId, amount: int64, intent: IntentId)
    requires Good(b)
    ensures var s := PostConfirmedDeposit(b, user, amount, intent);
      Good(s.books) && Grows(b, s.books)
  {
    hide Sound, WalletGrows, TreasuryGrows, FeesGrow, PoolsGrow;
    GrowsReflexive(b);
    var s := PostConfirmedDeposit(b, user, amount, intent);
    var d := ExternalDeposit(intent, user);
    if amount > 0 && Find(b.treasuryLedger, DepositOf(intent)).None? && PostTreasury(b, amount, d).Done? {
      var b1 := PostTreasury(b, amount, d).books;
      PostTreasurySound(b, amount, d);
      PostTreasuryGrows(b, amount, d);
      if user in b1.wallets {
        var w := WalletDetail(Deposit, IntentReference(intent), NoReason, Some(DepositKey(intent)), None);
        PostWalletSound(b1, user, amount, w);
        PostWalletGrows(b1, user, amount, w);
        if s.outcome == Posted { GrowsTransitive(b, b1, s.books); }
      }
    }
  }

  /** A posted deposit adds the two rows of its intent. */
  lemma DepositPosted(b: Books, user: UserId, amount: int64, intent: IntentId)
    requires PostConfirmedDeposit(b, user, amount, intent).outcome == Posted
    ensures
      var b' := PostConfirmedDeposit(b, user, amount, intent).books;
      && (forall i :: i != intent ==>
            && Find(b'.treasuryLedger, DepositOf(i)) == Find(b.treasuryLedger, DepositOf(i))
            && Find(b'.walletLedger, Keyed(DepositKey(i))) == Find(b.walletLedger, Keyed(DepositKey(i))))
      && DepositMatched(b'.treasuryLedger, b'.walletLedger, intent)
  {
    hide Grows, Find;
    var b1 := PostTreasury(b, amount, ExternalDeposit(intent, user)).books;
    PostTreasuryGrows(b, amount, ExternalDeposit(intent, user));
    PostWalletGrows(b1, user, amount,
      WalletDetail(Deposit, IntentReference(intent), NoReason, Some(DepositKey(intent)), None));
  }

  lemma NotHalfPosted(b: Books, user: UserId, amount: int64, intent: IntentId)
    requires DepositMatched(b.treasuryLedger, b.walletLedger, intent)
    ensures var s := PostConfirmedDeposit(b, user, amount, intent);
      s.outcome != Failed(HalfPosted) && (s.outcome != Posted ==> s.books == b)
  {
    hide Find;
  }

  /** A deposit posts both halves or none, and never meets one half of itself. */
  lemma DepositWhole(b: Books, user: UserId, amount: int64, intent: IntentId)
    requires DepositsMatched(b.treasuryLedger, b.walletLedger)
    ensures var s := PostConfirmedDeposit(b, user, amount, intent);
      DepositsMatched(s.books.treasuryLedger, s.books.walletLedger) && s.outcome != Failed(HalfPosted)
  {
    hide PostConfirmedDeposit, Find;
    var s := PostConfirmedDeposit(b, user, amount, intent);
    assert DepositMatched(b.treasuryLedger, b.walletLedger, intent);
    NotHalfPosted(b, user, amount, intent);
    if s.outcome == Posted {
      DepositPosted(b, user, amount, intent);
      forall i ensures DepositMatched(s.books.treasuryLedger, s.books.walletLedger, i) {
        assert DepositMatched(b.treasuryLedger, b.walletLedger, i);
      }
    }
  }

  lemma KeptIsMatched(b: Books, b': Books)
    requires DepositsMatched(b.treasuryLedger, b.walletLedger) && DepositsKept(b, b')
    ensures DepositsMatched(b'.treasuryLedger, b'.walletLedger)
  {
    forall i ensures DepositMatched(b'.treasuryLedger, b'.walletLedger, i) {
      assert DepositMatched(b.treasuryLedger, b.walletLedger, i);
    }
  }

  lemma GoodContestFee(b: Books, adm: Admission, fee: FeeKind, amount: int64, bps: int)
    requires Good(b)
    ensures GoodStep(b, PostContestFee(b, adm, fee, amount, bps).books)
  {
    hide Good, Grows, DepositsKept;
    GrowsReflexive(b);
    var t := FeeAllocation(adm, fee);
    if amount > 0 && TreasuryFresh(b, t) && Find(b.feeLedger, InflowOf(adm, fee)).None? {
      var p := PostTreasury(b, -amount, t);
      GoodTreasury(b, -amount, t);
      if p.Done? {
        var d := InflowDetail(adm, fee, bps);
        GoodFeeWallet(p.books, amount, d);
        if PostFeeWallet(p.books, amount, d).Done? {
          GrowsTransitive(b, p.books, PostFeeWallet(p.books, amount, d).books);
        }
      }
    }
  }

  lemma GoodPrizeContribution(b: Books, adm: Admission, amount: int64)
    requires Good(b)
    ensures GoodStep(b, PostContestPrizeContribution(b, adm, amount).books)
  {
    hide Good, Grows, DepositsKept;
    GrowsReflexive(b);
    var t := PoolAllocation(adm);
    if amount > 0 && adm.contest in b.pools && TreasuryFresh(b, t) {
      var p := PostTreasury(b, -amount, t);
      GoodTreasury(b, -amount, t);
      if p.Done? {
        var d := ContributionDetail(adm);
        GoodPool(p.books, adm.contest, amount, d);
        if PostPool(p.books, adm.contest, amount, d).Done? {
          GrowsTransitive(b, p.books, PostPool(p.books, adm.contest, amount, d).books);
        }
      }
    }
  }

  lemma GoodDeduct(b: Books, adm: Admission, amount: int64)
    requires Good(b)
    ensures GoodStep(b, DeductContestEntryFee(b, adm, amount).books)
  {
    hide Good, Grows, DepositsKept;
    GrowsReflexive(b);
    if amount > 0 && adm.user in b.wallets {
      GoodWallet(b, adm.user, -amount, EntryDetail(adm));
    }
  }

  lemma GoodAdmit(b: Books, adm: Admission, c: Charge)
    requires Good(b)
    ensures GoodStep(b, Admit(b, adm, c).books)
  {
    hide Good, Grows, DepositsKept, DeductContestEntryFee, PostContestFee, PostContestPrizeContribution;
    GrowsReflexive(b);
    var s1 := DeductContestEntryFee(b, adm, c.total);
    GoodDeduct(b, adm, c.total);
    var s2 := PostFeePart(s1.books, adm, BaseFee, c.base, c.bps);
    GoodContestFee(s1.books, adm, BaseFee, c.base, c.bps);
    var s3 := PostFeePart(s2.books, adm, LateSurcharge, c.surcharge, c.bps);
    GoodContestFee(s2.books, adm, LateSurcharge, c.surcharge, c.bps);
    var s4 := PostPrizePart(s3.books, adm, c.prize);
    GoodPrizeContribution(s3.books, adm, c.prize);
    GrowsTransitive(b, s1.books, s2.books);
    GrowsTransitive(b, s2.books, s3.books);
    GrowsTransitive(b, s3.books, s4.books);
  }

  lemma GoodReverseFee(b: Books, adm: Admission, o: FeeOriginal)
    requires Good(b)
    ensures var p := ReverseFee(b, adm, o); p.Done? ==> GoodStep(b, p.books)
  {
    hide Good, Grows, DepositsKept;
    if ReverseFee(b, adm, o).Done? {
      var d := FeeReversalDetail(adm, o.fee);
      GoodFeeWallet(b, Wrap(0 - o.fee.row.amount), d);
      var b1 := PostFeeWallet(b, Wrap(0 - o.fee.row.amount), d).books;
      GoodTreasury(b1, o.fee.row.amount, TreasuryReversal(adm, FeeKindOf(o.fee.row), o.custody.id));
      GrowsTransitive(b, b1, ReverseFee(b, adm, o).books);
    }
  }

  lemma {:induction false} GoodReverseFees(b: Books, adm: Admission, fees: seq<FeeOriginal>)
    requires Good(b)
    ensures var p := ReverseFees(b, adm, fees); p.Done? ==> GoodStep(b, p.books)
  {
    hide Good, Grows, DepositsKept, ReverseFee;
    GrowsReflexive(b);
    if fees != [] && ReverseFees(b, adm, fees).Done? {
      GoodReverseFees(b, adm, fees[..|fees| - 1]);
      var b1 := ReverseFees(b, adm, fees[..|fees| - 1]).books;
      GoodReverseFee(b1, adm, fees[|fees| - 1]);
      GrowsTransitive(b, b1, ReverseFees(b, adm, fees).books);
    }
  }

  lemma GoodReversePool(b: Books, adm: Admission, p: Found<PoolRow>, t: Found<TreasuryRow>)
    requires Good(b) && adm.contest in b.pools
    ensures var r := ReversePool(b, adm, p, t); r.Done? ==> GoodStep(b, r.books)
  {
    hide Good, Grows, DepositsKept;
    if ReversePool(b, adm, p, t).Done? {
      var d := PoolDetail(false, adm.user, PoolReversalKey(adm), Some(p.id));
      GoodPool(b, adm.contest, Wrap(0 - p.row.amount), d);
      var b1 := PostPool(b, adm.contest, Wrap(0 - p.row.amount), d).books;
      GoodTreasury(b1, p.row.amount, TreasuryReversal(adm, None, t.id));
      GrowsTransitive(b, b1, ReversePool(b, adm, p, t).books);
    }
  }

  lemma GoodReverse(b: Books, adm: Admission)
    requires Good(b)
    ensures GoodStep(b, ReverseContestAdmission(b, adm).books)
  {
    hide Good, Grows, DepositsKept, ReversePool, ReverseFees, FeeOriginals, FeeTotal;
    GrowsReflexive(b);
    var s := ReverseContestAdmission(b, adm);
    if s.outcome.Posted? {
      var entry := Find(b.walletLedger, EntryOf(adm)).value;
      var refund := Wrap(0 - entry.row.amount);
      GoodWallet(b, adm.user, refund, ReversalDetail(adm, entry.id));
      var b1 := PostWallet(b, adm.user, refund, ReversalDetail(adm, entry.id)).books;
      var fees := FeeOriginals(b1, adm);
      GoodReverseFees(b1, adm, fees);
      var b2 := ReverseFees(b1, adm, fees).books;
      GrowsTransitive(b, b1, b2);
      var pool, custody := Find(b2.poolLedger, CreditOf(adm)), Find(b2.treasuryLedger, PoolAllocationOf(adm));
      if pool.Some? && custody.Some? {
        GoodReversePool(b2, adm, pool.value, custody.value);
        GrowsTransitive(b, b2, s.books);
      }
    }
  }

  lemma GoodCreateWallet(b: Books, user: UserId)
    requires Good(b)
    ensures GoodStep(b, CreateWallet(b, user).books)
  {
    hide DepositsPositive, SystemSound, PoolsSound, Chained, Balance, TreasuryGrows, FeesGrow, PoolsGrow, WalletGrows;
    GrowsReflexive(b);
    if user !in b.wallets {
      AbsentAccount(b.walletLedger, UserWallet(user));
    }
  }

  lemma GoodSetFrozen(b: Books, user: UserId, on: bool)
    requires Good(b)
    ensures GoodStep(b, SetFrozen(b, user, on).books)
  {
    hide DepositsPositive, WalletsSound, SystemSound, PoolsSound, TreasuryGrows, FeesGrow, PoolsGrow, WalletGrows;
    GrowsReflexive(b);
  }

  lemma GoodProvisionPool(b: Books, contest: ContestId, modern: bool)
    requires Good(b)
    ensures GoodStep(b, ProvisionPool(b, contest, modern).books)
  {
    hide DepositsPositive, SystemSound, WalletsSound, Chained, Balance, TreasuryGrows, FeesGrow, PoolsGrow, WalletGrows;
    GrowsReflexive(b);
    if contest !in b.pools {
      AbsentAccount(b.poolLedger, PrizePool(contest));
    }
  }

  lemma GoodCredit(b: Books, user: UserId, amount: int64, d: WalletDetail)
    requires Good(b)
    ensures var b' := Credit(b, user, amount, d).books;
      Good(b') && Grows(b, b') && (!(d.key.Some? && d.key.value.DepositKey?) ==> DepositsKept(b, b'))
    ensures var b' := Debit(b, user, amount, d).books;
      amount > 0 ==> Good(b') && Grows(b, b') && (!(d.key.Some? && d.key.value.DepositKey?) ==> DepositsKept(b, b'))
  {
    hide Good, Grows, DepositsKept;
    GrowsReflexive(b);
    if user in b.wallets {
      GoodWallet(b, user, amount, d);
      if amount > 0 {
        GoodWallet(b, user, -amount, d);
      }
    }
  }

  /** Operations that write under no deposit key; a free-form credit may be given one by its caller. */
  predicate Quiet(op: Op) {
    !op.ConfirmDeposit? && (op.KeyedCredit? ==> !op.key.DepositKey?)
  }

  /** Every operation, successful or not and under whatever key, keeps the ledger laws and only adds to the books. */
  lemma ApplyGood(b: Books, op: Op)
    requires Good(b)
    ensures var b' := Apply(b, op).books; Good(b') && Grows(b, b') && (Quiet(op) ==> DepositsKept(b, b'))
  {
    hide Good, Grows, DepositsKept, PostConfirmedDeposit, DeductContestEntryFee, PostContestFee, PostContestPrizeContribution,
      Admit, ReverseContestAdmission, Credit;
    GrowsReflexive(b);
    match op
    case OpenWallet(u) => GoodCreateWallet(b, u);
    case Freeze(u, on) => GoodSetFrozen(b, u, on);
    case OpenPool(c, modern) => GoodProvisionPool(b, c, modern);
    case PlainDebit(u, a, kind, ref, reason) => GoodCredit(b, u, a, WalletDetail(kind, ref, reason, None, None));
    case PlainCredit(u, a, kind, ref, reason) => GoodCredit(b, u, a, WalletDetail(kind, ref, reason, None, None));
    case KeyedCredit(u, a, kind, ref, reason, key) => GoodCredit(b, u, a, WalletDetail(kind, ref, reason, Some(key), None));
    case ConfirmDeposit(u, a, intent) => GoodDeposit(b, u, a, intent);
    case ChargeEntry(adm, a) => GoodDeduct(b, adm, a);
    case AllocateFee(adm, fee, a, bps) => GoodContestFee(b, adm, fee, a, bps);
    case AllocatePrize(adm, a) => GoodPrizeContribution(b, adm, a);
    case AdmitPaid(adm, c) => GoodAdmit(b, adm, c);
    case Reverse(adm) => GoodReverse(b, adm);
    case Refund(adm, a, code) =>
      GoodCredit(b, adm.user, a,
                 WalletDetail(ContestRefund, ContestReference(adm.contest), RefundReason(code), Some(RefundKey(adm)), None));
    case AwardPrize(adm, rank, a) =>
      GoodCredit(b, adm.user, a,
                 WalletDetail(PrizeCredit, ContestReference(adm.contest), ContestPrizeReason, Some(PrizeKey(adm, rank)), None));
  }

  lemma EmptyGood()
    ensures Good(EMPTY) && DepositsMatched([], [])
  {
  }

  lemma {:induction false} RunGood(b: Books, ops: seq<Op>)
    requires Good(b)
    ensures Good(Run(b, ops)) && Grows(b, Run(b, ops))
    decreases |ops|
  {
    hide Good, Grows, Apply, DepositsKept;
    GrowsReflexive(b);
    if ops != [] {
      ApplyGood(b, ops[0]);
      RunGood(Apply(b, ops[0]).books, ops[1..]);
      GrowsTransitive(b, Apply(b, ops[0]).books, Run(b, ops));
    }
  }

  /** A free-form credit is posted under the key of a deposit. */
  ghost predicate TakesKey(b: Books, op: Op) {
    op.KeyedCredit? && op.key.DepositKey? && Apply(b, op).outcome == Posted
  }

  /** At no step of the run. */
  ghost predicate NoKeyTaken(b: Books, ops: seq<Op>)
    decreases |ops|
  {
    ops == [] || (!TakesKey(b, ops[0]) && NoKeyTaken(Apply(b, ops[0]).books, ops[1..]))
  }

  /** A wallet row under the key of a deposit that was never posted. */
  ghost predicate Orphan(b: Books, intent: IntentId) {
    Find(b.walletLedger, Keyed(DepositKey(intent))).Some? && Find(b.treasuryLedger, DepositOf(intent)).None?
  }

  lemma OrphanIsUnmatched(b: Books, intent: IntentId)
    requires Orphan(b, intent)
    ensures !DepositsMatched(b.treasuryLedger, b.walletLedger)
  {
    assert !DepositMatched(b.treasuryLedger, b.walletLedger, intent);
  }

  /** A credit changes no Treasury row, and nothing at all unless it is posted. */
  lemma KeyedCreditEffect(b: Books, op: Op)
    requires op.KeyedCredit?
    ensures var s := Apply(b, op);
      && s.books.treasuryLedger == b.treasuryLedger
      && (s.outcome != Posted ==> s.books == b)
      && (s.outcome == Posted ==>
            Find(b.walletLedger, Keyed(op.key)).None? && Find(s.books.walletLedger, Keyed(op.key)).Some?)
  {
    hide Grows, Find;
    if op.user in b.wallets {
      PostWalletGrows(b, op.user, op.amount, WalletDetail(op.kind, op.reference, op.reason, Some(op.key), None));
    }
  }

  /** An orphan can never be adopted: its deposit fails as half-posted. */
  lemma OrphanStep(b: Books, op: Op, intent: IntentId)
    requires Good(b) && Orphan(b, intent)
    ensures Orphan(Apply(b, op).books, intent)
  {
    hide Good, Find;
    ApplyGood(b, op);
    var s := Apply(b, op);
    if op.KeyedCredit? {
      KeyedCreditEffect(b, op);
      StillKeyed(b, s.books, intent);
    } else if op.ConfirmDeposit? {
      hide PostConfirmedDeposit;
      DepositOutcome(b, op.user, op.amount, op.intent);
      if s.outcome == Posted { DepositPosted(b, op.user, op.amount, op.intent); }
    }
  }

  lemma StillKeyed(b: Books, b': Books, intent: IntentId)
    requires Grows(b, b') && Find(b.walletLedger, Keyed(DepositKey(intent))).Some?
    ensures Find(b'.walletLedger, Keyed(DepositKey(intent))).Some?
  {
  }

  lemma DepositOutcome(b: Books, user: UserId, amount: int64, intent: IntentId)
    ensures var s := PostConfirmedDeposit(b, user, amount, intent);
      (s.outcome != Posted ==> s.books == b) && (Orphan(b, intent) ==> s.outcome != Posted)
  {
    hide Find;
  }

  lemma {:induction false} OrphanRun(b: Books, ops: seq<Op>, intent: IntentId)
    requires Good(b) && Orphan(b, intent)
    ensures Orphan(Run(b, ops), intent)
    decreases |ops|
  {
    hide Good, Grows, Apply, Orphan, DepositsKept;
    if ops != [] {
      ApplyGood(b, ops[0]);
      OrphanStep(b, ops[0], intent);
      OrphanRun(Apply(b, ops[0]).books, ops[1..], intent);
    }
  }

  lemma MatchedStep(b: Books, op: Op)
    requires Good(b) && DepositsMatched(b.treasuryLedger, b.walletLedger) && !TakesKey(b, op)
    ensures DepositsMatched(Apply(b, op).books.treasuryLedger, Apply(b, op).books.walletLedger)
  {
    hide Good, Grows, DepositsKept, DepositsMatched, PostConfirmedDeposit;
    ApplyGood(b, op);
    if op.ConfirmDeposit? {
      DepositWhole(b, op.user, op.amount, op.intent);
    } else if Quiet(op) {
      KeptIsMatched(b, Apply(b, op).books);
    } else {
      KeyedCreditEffect(b, op);
    }
  }

  /** A key taken from a matched state leaves an orphan. */
  lemma TakenIsOrphan(b: Books, op: Op)
    requires DepositsMatched(b.treasuryLedger, b.walletLedger) && TakesKey(b, op)
    ensures Orphan(Apply(b, op).books, op.key.intent)
  {
    hide Apply, Find;
    KeyedCreditEffect(b, op);
    assert DepositMatched(b.treasuryLedger, b.walletLedger, op.key.intent);
  }

  /**
    The exact condition: the two halves of every deposit agree at the end of a run if and only if at no step of it a
    credit was posted under a deposit's key.
   */
  lemma {:induction false} MatchedIff(b: Books, ops: seq<Op>)
    requires Good(b) && DepositsMatched(b.treasuryLedger, b.walletLedger)
    ensures DepositsMatched(Run(b, ops).treasuryLedger, Run(b, ops).walletLedger) <==> NoKeyTaken(b, ops)
    decreases |ops|
  {
    hide Good, Grows, DepositsKept, DepositsMatched, Apply, TakesKey, Orphan;
    if ops != [] {
      ApplyGood(b, ops[0]);
      var b1 := Apply(b, ops[0]).books;
      if TakesKey(b, ops[0]) {
        KeyOf(b, ops[0]);
        TakenIsOrphan(b, ops[0]);
        OrphanRun(b1, ops[1..], ops[0].key.intent);
        OrphanIsUnmatched(Run(b, ops), ops[0].key.intent);
      } else {
        MatchedStep(b, ops[0]);
        MatchedIff(b1, ops[1..]);
      }
    }
  }

  lemma KeyOf(b: Books, op: Op)
    requires TakesKey(b, op)
    ensures op.KeyedCredit? && op.key.DepositKey?
  {
  }
}
