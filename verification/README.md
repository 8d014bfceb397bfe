# Contest money, one-time codes and fixed-point arithmetic: a Dafny model

This project models the parts of the trading-contest platform whose correctness spans several operations, and proves
what those parts promise. It verifies with `dafny verify dfyconfig.toml`.

**Contest money.** `Books` is the state of the money tables: user wallets, the Treasury, the Contest Fee Wallet and one
Prize Pool per contest, each with an append-only ledger; `WalletService` is the service as a class that changes those
tables row by row, with every method equal to its function in `Books`. `LedgerLaws`, `Retries` and `Replays` hold over
*all* sequences of wallet operations. `Contests` adds contests and participants, so that a join, a removal or a
cancellation is one transaction; `ClosedRuns` and `CustodyTheorems` hold over all sequences of those transactions (closed
runs: whole deposits, whole admissions, whole reversals, with contests being created, closed, started, paused, resumed,
ended, cancelled and frozen as their state machine allows). `Cutoff` is the economics-cutoff audit; `CutoffCompleteness`
decides exactly when it accepts and `CutoffRecovery` when a refused one can still be taken; `ContestStories` holds runs
from an empty database. `Economics` is the fee policy and `KeyText` the text of the idempotency keys. `WalletEffects`,
`ReversalEffects`, `ContestEffects` and `CutoffEffects` say outright, in terms of rows and balances, what each operation
does: the exact condition of success, the exact error otherwise, and all that changes; `ContestHistories` reads off a row
or a snapshot which step of a run wrote it. Amounts are Go `int64`: every addition the code does not guard is modelled
with wrap-around (`Int64.Wrap`), and that none of them wraps is a theorem.

**Protocols.** `Otp` is one phone's one-time code: four expiring keys, five atomic scripts, any number of senders and
verifiers interleaved between the scripts; `OtpAnswers` gives the answer of each of their steps in terms of the history.
`Reauth` is the grant store and its service checks; `ReauthRuns` interleaves issuers, consumers and revokers command by
command and `ReauthAnswers` says what they are answered. Clocks are integers in milliseconds and a key no longer exists from
its expiry on. Reservation tokens and grant tokens are unique; digests are compared as values.

**Fixed point.** `Arith`, `FixedPoint` and `Decimals` are checked 64-bit arithmetic, rounding division, rescaling, and
decimal printing and parsing; `DecimalText` pins the printed text.

**Two structures.** `RateLimiter` is the keyed token bucket with its cleanup, `RateLimits` what an active client gets from
it, `ShardCache` the shard router's bounded
recency cache.

## What the code does not do

Nine properties one would expect are false of the code. Each has an input that shows it and the exact condition under
which it holds.

- Replaying an admission with other figures: the debit is recognised by its key and its amount is not compared, so a
  part the original did not have is taken from the Treasury without a charge. `Replays.ReplayConservesIff` says exactly
  when a replay conserves; `Replays.DrainExample` is a run that does not.
- A paid admission without a prize part (a platform fee of 10000 basis points) can be neither refunded nor cancelled: the
  reversal updates the pool account in any case, and that account's trigger refuses an update that moves nothing.
  `CustodyTheorems.JoinThenRefundRestores` and `CustodyTheorems.CancelDecides` are the conditions,
  `ContestStories.PoolFreeJoinIsStuck` a run.
- A free contest, like a paid one whose platform takes everything, cannot be frozen once anybody is in it: the cutoff
  expects as many open entries in the pool as participants, and such a contest has none
  (`CutoffEffects.CutoffWithoutPrize`).
- A snapshot does not freeze the pool. Resuming a paused contest extends its end and with it the late-join deadline, and
  the join does not look for a snapshot; a cutoff taken during the pause can so be followed by a join that pays into the
  frozen pool (`ContestStories.ResumeThaws`). The pool stays what the snapshot says exactly as long as no join pays in
  (`CustodyTheorems.FrozenIff`), which it cannot after the deadline unless the contest is resumed
  (`CustodyTheorems.FrozenForever`).
- The audit recomputes lateness from `joined_at` (the start of the join transaction) while the charge was decided on the
  contest's status under its lock. A join that straddles the start is charged one way and audited the other, and the
  cutoff is refused (`CutoffCompleteness.CutoffIffTimed`, `ContestStories.StraddleBlocks`). Refunding the mistimed rows
  unblocks it while they are active; once one that no later deadline helps is disqualified instead, the cutoff can never
  be taken (`CutoffRecovery.SnapshotReachableIff`).
- A deposit can meet half of itself: a credit that a caller puts under the key of a deposit makes that deposit fail as
  half-posted (`Replays.DepositKeyTaken`). The halves of all deposits agree exactly in the runs in which no such credit
  was posted (`Replays.DepositsAreWhole`).
- `TTL` is rounded to seconds, so in the last half second of a cooldown the reserve script replies zero, which means "go
  ahead", to a sender that reserved nothing (`Otp.GoAheadIff`). A delivered code is stored exactly when its sender holds
  the reservation at that moment (`Otp.DeliveryStoresIff`); otherwise it is lost for good (`Otp.LostForever`,
  `Otp.UnreservedSendIsLost`). Spacing of *activations* is not affected.
- A grant survives a revocation exactly when the actor's index does not list it at the moment the revocation reads it
  (`ReauthRuns.RevokeKillsIff`). That happens when a revocation overlaps its issue, and also, with no overlap at all,
  when the index lapses between the commands that add to it and extend it (`EXPIRE` does not restore a missing key):
  `ReauthRuns.OverlapEscapes`, `ReauthRuns.LapseEscapes`. Without both, nothing survives.
- The smallest 64-bit value breaks printing, rounding, rescaling and subtraction, and large remainders break the
  doubling in the rounding test: `Arith.RoundsIff`, `FixedPoint.RescaleDownIff`, `FixedPoint.SubIff`,
  `Decimals.RoundTripIff`, `DecimalText.FormatIff`.

## Model

| member | source | states |
|---|---|---|
| CustodyTheorems.Conservation | packages/wallet/wallet.go:433-910 | After every closed run, whatever its amounts, Treasury equals the sum of all user wallets, and Treasury + Fee Wallet + all Prize Pools equals the external deposits posted. |
| CustodyTheorems.BalancesWithinCustody | packages/wallet/wallet.go:433-910 | After every closed run no balance is negative or larger than total custody, so while all deposits together fit in int64 no balance addition wraps, guarded or not. |
| CustodyTheorems.AccountingErrorsUnreachable | packages/wallet/wallet.go:627-905 | While all deposits together fit, no deposit, join, removal or cancellation fails with Treasury-short, half-posted, overflow, would-be-negative or does-not-reconcile: what is left blames the caller or the user's funds, or is the refund of a paid admission without a prize part. |
| CustodyTheorems.JoinThenRefundRestores | apps/admin-bff/server/lifecycle004_financial.go:22-103 | Removing with refund right after a successful join, before the cutoff, succeeds iff the contest is free or its platform fee is below 10000 basis points, and then restores every balance of every account; otherwise the pool account's trigger refuses it. |
| CustodyTheorems.CancelDecides | apps/admin-bff/server/lifecycle004_financial.go:112-194 | While custody fits a cancellation succeeds iff the contest exists, is not cancelled, has no cutoff snapshot, has not started, and no active paid participant is without a prize part; otherwise the exact refusal. |
| CustodyTheorems.CancelDecided | apps/admin-bff/server/lifecycle004_financial.go:138-173 | The refunds of its participants, row by row. |
| CustodyTheorems.RefundWhenCustodyFits | packages/db/migrations/0118_contest_prize_pool.up.sql:80-105 | While custody fits, the refund of a live admission is refused only for want of a prize part. |
| CustodyTheorems.CutoffAfterRun | packages/db/contest_snapshots.go:156-290 | After every closed run a due cutoff is accepted iff the contest's live admissions are timed as charged and their entry fees fit in int64 (which they do while all deposits fit); it then counts the rows, those admissions and the trading participants, its gross is the fees of the counted ones, and its pool is the pool balance and the pool-ledger sum. |
| CustodyTheorems.SnapshotFreezes | packages/db/contest_snapshots.go:252-290 | A taken snapshot's prize pool is what custody holds at that moment. |
| CustodyTheorems.FrozenIff | packages/domain/statemachine/statemachine.go:480-540 | In every run after a snapshot it never changes, and the pool in custody stays what it says iff no join of the contest with a prize part is accepted; refunds, deposits, cancellations and everything else leave it alone. |
| CustodyTheorems.PaysInBeforeDeadline | apps/user-bff/server/contest_handlers.go:700-731 | Such a join is accepted only while the contest is running and before the deadline then in force. |
| CustodyTheorems.FrozenForever | packages/db/contest_snapshots.go:156-290 | So if the contest is not resumed and the clocks of its joins are past the deadline, the pool stays frozen for ever. |
| CustodyTheorems.ContestTermsKept | packages/domain/statemachine/statemachine.go:86-119 | A started contest keeps its terms and its start, keeps its end unless it is resumed, and once ended does not change. |
| ContestStories.ResumeThaws | packages/domain/statemachine/statemachine.go:480-540 | A run from an empty database: pause, cutoff taken while paused, resume, and a join that pays into the frozen pool. |
| ClosedRuns.JoinKeeps | apps/user-bff/server/contest_handlers.go:690-880 | In every world with the invariant a join succeeds or fails exactly as conditions checkable beforehand say (contest, participant, wallet, and room in 64 bits), keeps the invariant, and moves exactly its charge or nothing. |
| ContestEffects.JoinRefusedIff | packages/scoring/economics/join_policy.go:17-38 | In every world a join passes the status check iff registration is open, or the contest runs, costs money, allows late joins and its late window is not over; otherwise it is refused as not open and changes nothing. |
| ContestEffects.JoinEffect | apps/user-bff/server/contest_handlers.go:690-880 | Such a join of a new participant is refused with the wallet's or the books' exact error, or writes the row with the charge in figures, late exactly while the contest runs, and moves exactly that charge from wallet and Treasury to Fee Wallet and pool. |
| ContestHistories.RowJoined | apps/user-bff/server/contest_handlers.go:690-880 | Every participant row of every run was written by one join, of someone not listed yet, when the contest took joins, with the charge its status then asked for. |
| ContestHistories.LateIsPaid | packages/scoring/economics/join_policy.go:17-38 | After every run a row charged the surcharge belongs to a started contest that costs money and allows late joins. |
| ClosedRuns.RemoveKeeps | apps/admin-bff/server/lifecycle004_financial.go:22-103 | A removal does exactly what conditions checkable beforehand say, keeps the invariant, changes exactly the status of that row, and a refund moves exactly the opposite of the admission or nothing. |
| ContestEffects.RemoveEffect | apps/admin-bff/server/lifecycle004_financial.go:22-103 | Removing the participant of a row: the exact refusal, or the row disqualified without moving money, or refunded with exactly its charge paid back from the accounts that took it. |
| ContestEffects.RemoveUnknown | apps/admin-bff/server/lifecycle004_financial.go:22-48 | The refusals where there is no row, in their order. |
| ClosedRuns.CancelKeeps | apps/admin-bff/server/lifecycle004_financial.go:112-194 | A cancellation is all or nothing, keeps the invariant, calls off that contest, touches no other contest's pool or terms, and turns exactly the active participants into cancelled ones. |
| ContestEffects.CancelEffect | apps/admin-bff/server/lifecycle004_financial.go:112-194 | A cancellation calls off that contest alone, cancels exactly its active rows, and pays every user exactly what their active admissions in it cost, out of the Fee Wallet and that contest's pool. |
| ContestEffects.MoveEffect | packages/domain/statemachine/statemachine.go:86-119 | A contest moves along the allowed transitions only, to run only with its quorum; the move writes the start, the pause and nothing else, and a resume moves the end by exactly the length of the pause. |
| ContestEffects.CreateEffect | packages/scoring/economics/economics.go:70-88 | A new contest keeps its terms, with the default platform fee if its own is out of range, and an empty pool. |
| ContestEffects.TradeEffect | apps/leaderboard-worker/server/ranking_authority.go:25-54 | Starting to trade marks that participant's row and nothing else. |
| ClosedRuns.RunKeeps | packages/wallet/wallet.go:424-910 | Every closed run keeps the invariant: conservation, ledger soundness, matched deposits, one dossier of rows per admission, holdings equal to the sum over live admissions. |
| Admissions.AdmitMoves | packages/wallet/wallet.go:555-754 | An admission with nothing on record is posted iff the wallet exists, is not frozen and can pay and the system accounts have room, with the exact error otherwise; posted, wallet and Treasury lose the total, the Fee Wallet gains fee and surcharge, the pool the prize part, all else stays. |
| Admissions.ReverseMoves | packages/wallet/wallet.go:759-910 | Reversing a charged admission succeeds iff it has a prize part and the amounts fit, with the exact error otherwise; it is the exact negation of the admission in every account and leaves the row that blocks a second one. |
| Economics.PrizeIff | packages/scoring/economics/economics.go:139-152 | A paid admission has a prize part iff the platform fee is below 10000 basis points. |
| Economics.ChargeExact | packages/scoring/economics/economics.go:139-200 | A charge is exactly: the floor of fee times basis points, the rest to the pool, and a tenth of the fee on top iff late. |
| Economics.LateWindowIff | packages/scoring/economics/economics.go:164-177 | A time is before the late-join deadline iff less than half an hour and less than a tenth of the duration have passed since the start, for contests of any length. |
| Moves.ReverseFeesMove | packages/wallet/wallet.go:819-866 | The chained fee reversals are posted iff the Fee Wallet covers their sum and the Treasury has room, and move exactly that sum back. |
| Replays.ReplayConservesIff | packages/wallet/wallet.go:1083-1115 | A replay of a recorded admission, with any figures, keeps entitlements equal to custody iff it fails or asks for no part the original did not post; then it changes nothing. |
| Replays.LateReplayDrains | packages/wallet/wallet.go:1096-1114 | Replaying any on-time admission as a late one succeeds, charges nobody and takes the surcharge from the Treasury. |
| Replays.DrainExample | packages/wallet/wallet.go:1096-1114 | A concrete run from empty tables in which that happens. |
| Replays.EveryRunIsSound | packages/wallet/wallet.go:163-1420 | After any sequence of wallet operations, under any keys, every row's balance_after is the running sum of its account and every stored balance is that sum and not negative. |
| Replays.DepositsAreWhole | packages/wallet/wallet.go:463-524 | External deposits and wallet deposit entries correspond one to one with equal user and amount after a run iff at no step of it a credit was posted under a deposit's key; and then both half-posted branches are dead. |
| Replays.DepositKeyTaken | packages/wallet/wallet.go:300-312 | That condition is needed: after one credit under `deposit:i` the deposit of intent i fails as half-posted. |
| LedgerLaws.RunGood | packages/wallet/wallet.go:163-1420 | Over any run of all operations each balance_after is the running sum of its account, stored balances are those sums and never negative, and rows are only added. |
| LedgerLaws.ApplyGood | packages/wallet/wallet.go:163-1420 | Each single operation, failing or not and under whatever key, keeps those laws. |
| LedgerLaws.GoodReverse | packages/wallet/wallet.go:759-910 | So does a reversal with its several chained entries per ledger. |
| LedgerLaws.DepositWhole | packages/wallet/wallet.go:433-527 | A deposit posts both halves or none and never finds one half of itself, given that halves matched before. |
| LedgerLaws.MatchedIff | packages/wallet/wallet.go:300-527 | From any matched state the halves match after a run iff no credit was posted under a deposit's key; one that was leaves an entry no deposit can ever match. |
| Retries.RetryErasure | packages/wallet/wallet.go:332-1364 | Any run ends in the same balances and ledgers as the run with all repeats of already successful deposits, charges, allocations, admissions, reversals, refunds and keyed credits removed. |
| Retries.SettledForever | packages/wallet/wallet.go:1059-1062 | The evidence that an operation took effect is never lost, whatever runs in between. |
| Retries.SuccessSettles | packages/wallet/wallet.go:332-1364 | An operation that takes effect leaves that evidence. |
| Retries.SettledNoEffect | packages/wallet/wallet.go:332-1364 | With that evidence a repeat changes no row and no balance. |
| Retries.ChangedReplayRefused | packages/wallet/wallet.go:463-721 | Once a deposit, fee part or pool contribution took effect, asking for it with any other figures fails and changes nothing, after any run in between. |
| KeyText.KeyTextInjective | packages/wallet/wallet.go:467-1268 | Idempotency keys of different movements never have the same text, within and across the five key families and made-up keys that begin with none of them, for contest ids (and ranked user ids) without colons. |
| KeyText.KeyTexts | packages/wallet/wallet.go:467-1268 | The key texts of deposits, entries, admission reversals, refunds and prizes, letter by letter. |
| KeyText.MadeUpKeyCollides | packages/wallet/wallet.go:300-312 | The condition on made-up keys is needed. |
| WalletService.Service.DebitWithReason | packages/wallet/wallet.go:178-222 | Tables and outcome after the call are those of the specified debit; an error leaves the tables as they were. |
| WalletService.Service.CreditWithReason | packages/wallet/wallet.go:242-293 | Likewise for a credit. |
| WalletService.Service.CreditIdempotentWithReason | packages/wallet/wallet.go:316-418 | Likewise for a keyed credit with its replay branch. |
| WalletService.Service.PostConfirmedDeposit | packages/wallet/wallet.go:433-527 | Likewise for a confirmed deposit: Treasury row first, replay comparison, wallet credit. |
| WalletService.Service.PostContestFee | packages/wallet/wallet.go:555-666 | Likewise for one fee part, with its replay and conflict branches. |
| WalletService.Service.PostContestPrizeContribution | packages/wallet/wallet.go:673-754 | Likewise for the pool contribution. |
| WalletService.Service.DeductContestEntryFeeWithName | packages/wallet/wallet.go:1063-1140 | Likewise for the entry debit, which does not compare amounts on replay. |
| WalletService.Service.RefundContestEntryFeeIdempotent | packages/wallet/wallet.go:1211-1242 | Likewise for the keyed refund. |
| WalletService.Service.CreditPrizeIdempotent | packages/wallet/wallet.go:1301-1416 | Likewise for the keyed prize credit. |
| WalletService.Service.AppendFeeReversals | packages/wallet/wallet.go:845-866 | The loop over the fee rows, with running balances, does what reversing them one transaction at a time does. |
| WalletService.Service.ReverseContestAdmission | packages/wallet/wallet.go:759-910 | The whole reversal equals its specification, including every early return. |
| WalletEffects.DebitEffect | packages/wallet/wallet.go:178-222 | A debit moves exactly its amount and appends exactly its row iff the amount is positive, the wallet exists, is not frozen, covers it and the key is free; otherwise the exact error and nothing changes. |
| WalletEffects.CreditEffect | packages/wallet/wallet.go:242-293 | A credit likewise, in full, iff the wallet exists, the balance still fits, and it is not frozen or the credit is a prize or a refund. |
| WalletEffects.CreditIdempotentEffect | packages/wallet/wallet.go:316-418 | A keyed credit is skipped iff a row has its key, and is the whole credit otherwise. |
| WalletEffects.PrizeCreditEffect | packages/wallet/wallet.go:1301-1416 | A prize pays exactly its amount, to a frozen wallet too, under the key of admission and rank, once. |
| WalletEffects.RefundEffect | packages/wallet/wallet.go:1211-1242 | A refund pays exactly its amount, to a frozen wallet too, under the key of the admission, once. |
| WalletEffects.EntryChargeEffect | packages/wallet/wallet.go:1063-1140 | An entry takes exactly its amount from a wallet that is not frozen and covers it, under the key of the admission, once. |
| WalletEffects.DepositPostsIff | packages/wallet/wallet.go:433-527 | A deposit seen for the first time raises custody and the wallet by exactly its amount, with one row each, iff both sums fit and the wallet exists and is not frozen; otherwise the exact error and nothing changes. |
| WalletEffects.DepositReplayIff | packages/wallet/wallet.go:455-490 | A recorded deposit is accepted again iff user, amount and the row of the entitlement agree, with mismatch and half-posted kept apart. |
| WalletEffects.DepositKeyAlreadyUsed | packages/wallet/wallet.go:491-527 | A first deposit under a key that is taken fails as half-posted and changes nothing. |
| WalletEffects.DepositRefused | packages/wallet/wallet.go:433-462 | A deposit without a positive amount, a user or an intent is refused. |
| WalletEffects.FeePostsIff | packages/wallet/wallet.go:555-666 | A fee part moves exactly its amount from Treasury to Fee Wallet, with one row each, iff it is not on record, the Treasury covers it and the Fee Wallet has room; otherwise the exact error. |
| WalletEffects.FeeReplayIff | packages/wallet/wallet.go:589-622 | A recorded fee part is accepted again iff every recorded figure agrees, and is a conflict otherwise. |
| WalletEffects.ContributionPostsIff | packages/wallet/wallet.go:673-754 | The same for the prize part and its contest's pool. |
| WalletEffects.ContributionReplayIff | packages/wallet/wallet.go:700-724 | A recorded contribution is accepted again iff every recorded figure agrees. |
| WalletEffects.AccountEffects | packages/wallet/wallet.go:139-1604 | A new wallet or pool is empty and leaves the others alone; freezing and unfreezing concern one user. |
| ReversalEffects.ReversalEffect | packages/wallet/wallet.go:759-910 | For any books in which an admission is on record, the first guard that stops its reversal or, if none does, every row appended to the four ledgers with amount, balance, text and the identifier of the row it reverses. |
| ReversalEffects.NothingOnRecord | packages/wallet/wallet.go:759-777 | Without an entry on record there is nothing to reverse. |
| Economics.ChargeBalances | packages/scoring/economics/economics.go:139-200 | For every fee whose basis-point product fits, the parts of a charge are non-negative and add up to the debit, and the platform share is the floor of its exact share. |
| Economics.SplitBalances | packages/scoring/economics/economics.go:139-152 | The split of one fee loses nothing. |
| Cutoff.CutoffSound | packages/db/contest_snapshots.go:191-298 | For arbitrary ledgers and any number of participants, acceptance means every int64 total is its mathematical value, gross = base fees + pool with all parts non-negative, custody = ledger sum = pool, entries = economic participants, and each of these has exactly the expected fee rows. |
| Cutoff.EvidenceMeaning | packages/db/contest_snapshots.go:300-385 | One participant's evidence is accepted iff it is timely, its wallet entry is the one expected debit, and its fee rows are exactly the expected parts, one each. |
| Cutoff.AccumulateExact | packages/db/contest_snapshots.go:223-238 | An accepted accumulation is the exact sum of the expected parts over economic participants, each of whose evidence was accepted. |
| Cutoff.ScanMeaning | packages/db/contest_snapshots.go:359-384 | The evidence scan succeeds iff every row is one of the two expected parts, and returns how many there are of each. |
| Cutoff.GrossFits | packages/db/contest_snapshots.go:239-242 | The division guard holds iff count times fee exceeds int64. |
| Cutoff.CutoffPopulation | packages/db/contest_snapshots.go:140-154 | Counts economic and leaderboard participants. |
| Cutoff.ValidateAdmissionEvidence | packages/db/contest_snapshots.go:300-385 | The scanning loop decides as the evidence specification does. |
| Cutoff.AccumulateEvidence | packages/db/contest_snapshots.go:223-238 | The accumulation loop with its overflow guards equals its specification. |
| Cutoff.DecideCutoff | packages/db/contest_snapshots.go:156-290 | The whole decision, guard by guard, equals the specified audit. |
| CutoffEffects.RefusedBeforeAudit | packages/db/contest_snapshots.go:156-190 | In every world: missing contest, existing snapshot, missing start, and then refused as not ready iff the clock is before start plus a tenth of the duration, at most half an hour; no other outcome names these. |
| CutoffEffects.EvidenceRowByRow | packages/db/contest_snapshots.go:300-385 | For arbitrary ledgers one participant's evidence is accepted iff its row is timely, one wallet row debits the whole charge, one fee row proves each part that is not zero, and no other fee row names the admission. |
| CutoffEffects.EconomicIff | packages/db/contest_snapshots.go:191-204 | Who counts: in a free contest whoever was not refunded or cancelled, in a paid one whoever has an entry debit that no row reverses. |
| CutoffEffects.CutoffWithoutPrize | packages/db/contest_snapshots.go:249-298 | In every state with the invariant a due cutoff of a free contest, or of one at 10000 basis points, is accepted iff nobody in it is live. |
| ContestHistories.SnapshotTakenDue | packages/db/contest_snapshots.go:156-290 | Every snapshot of every run appeared at a step that took the cutoff of a started contest with a clock at or past the deadline in force in that state, and has not changed since. |
| CutoffCompleteness.CutoffIffTimed | packages/db/contest_snapshots.go:156-385 | In every state with the invariant a due cutoff of a paid contest with a prize part is accepted iff all live admissions are timed as charged and their entry fees fit in int64, otherwise with the evidence error only; all seven figures are those of the contest's rows and live admissions. |
| CutoffEffects.TimedMeaning | packages/db/contest_snapshots.go:300-385 | A row is timed as charged iff it was charged late exactly if its timestamp is not before the start, and then the contest allows late joins and the timestamp lies in the late window; fees below ten cents have no surcharge to tell. |
| CutoffRecovery.SnapshotReachableIff | packages/db/contest_snapshots.go:156-290 | For a started contest the cutoff is taken in some continuation iff every live admission that would not be timed as charged even under the latest deadline a resume can still bring is active. |
| CutoffRecovery.ReachedQuorate | packages/domain/statemachine/statemachine.go:690-719 | After every run each started contest has its quorum of participant rows, so that it can be resumed. |
| CutoffRecovery.StretchWorks | packages/domain/statemachine/statemachine.go:480-540 | Pausing and resuming long enough lifts the deadline to its cap and changes nothing else. |
| CutoffRecovery.RefundsUnblock | apps/admin-bff/server/lifecycle004_financial.go:22-103 | If every live admission that is not timed as charged is active, refunding exactly those makes a due cutoff go through. |
| CutoffRecovery.StuckForever | packages/db/contest_snapshots.go:300-385 | If a disqualified participant would not be timed as charged even under the latest deadline a resume can still bring, no continuation ever takes the cutoff. |
| ContestStories.StraddleBlocks | apps/user-bff/server/contest_handlers.go:690-880 | A run from an empty database, with two on-time participants, registration closed and then started, in which a third join straddles the start: its due cutoff is refused for want of evidence, can still be taken, and after disqualifying the participant never can. |
| ContestStories.PoolFreeJoinIsStuck | packages/db/migrations/0118_contest_prize_pool.up.sql:80-105 | A run from an empty database in which a paid join at 10000 basis points can be neither refunded nor cancelled. |
| CutoffCompleteness.EvidenceIffTimed | packages/db/contest_snapshots.go:300-385 | For one live admission the audit finds its evidence iff its row is timed as it was charged. |
| Otp.RedisOtpStore.Reserve | packages/sms/otp.go:189-200 | Keys and reply after the command sequence are those of the atomic script. |
| Otp.RedisOtpStore.Activate | packages/sms/otp.go:202-211 | Likewise. |
| Otp.RedisOtpStore.Cancel | packages/sms/otp.go:213-221 | Likewise. |
| Otp.RedisOtpStore.RecordFailure | packages/sms/otp.go:223-236 | Likewise, the counter being incremented before it is compared. |
| Otp.RedisOtpStore.Consume | packages/sms/otp.go:238-245 | Likewise. |
| Otp.RunKeeps | packages/sms/otp.go:114-245 | Every interleaving of senders, verifiers and the clock keeps the invariant that ties the keys to the history. |
| Otp.ActivationsSpaced | packages/sms/otp.go:114-148 | In every interleaving two activations are at least 60 seconds apart unless a consume or an exhaustion lies between them. |
| Otp.LapsedSenderNeverOverwrites | packages/sms/otp.go:189-221 | Every activation is by the sender that reserved less than 30 seconds before, with no other sender's reservation, activation or cancellation since. |
| Otp.AttemptCounter | packages/sms/otp.go:202-236 | While a code is live its counter equals the failures recorded since its activation, is below five, and does not expire before the code. |
| Otp.AttemptBound | packages/sms/otp.go:223-236 | One activation absorbs at most five recorded failures, and nothing is consumed after the fifth without a new activation. |
| Otp.SingleUse | packages/sms/otp.go:238-245 | Between two successful verifications there is an activation, of the digest the later one consumed. |
| Otp.SuccessPresentedLiveDigest | packages/sms/otp.go:150-187 | A verification that reports success presented the digest in force at its consume step: activated under ten minutes before, not replaced, used or exhausted since, although load, compare and consume are separate steps. |
| Otp.CooldownIff | packages/sms/otp.go:189-245 | In every interleaving the cooldown is on iff a code was activated or a delivery cancelled within the last minute and no code was consumed or exhausted since. |
| Otp.ConsumableIff | packages/sms/otp.go:202-245 | A digest can be consumed iff it was activated less than ten minutes ago and has been neither replaced, used nor exhausted. |
| OtpAnswers.RightCodeWorks | packages/sms/otp.go:150-187 | After every interleaving an undisturbed verification succeeds iff the presented code is live: activated less than ten minutes ago, not replaced, used or exhausted. |
| OtpAnswers.CompareAnswers | packages/sms/otp.go:163-187 | In every interleaving the second step of a verification succeeds iff the loaded code is the presented one and still live, and then logs exactly its consume; a wrong code logs exactly one failure, or the exhaustion if it is the fifth, iff the loaded code is still live. |
| OtpAnswers.LoadAnswers | packages/sms/otp.go:150-162 | The first step yields the live digest, or ends the verification iff there is none. |
| OtpAnswers.FailureReply | packages/sms/otp.go:223-236 | A failure answers the attempts left, counted from the history, or minus one iff the code is no longer live. |
| OtpAnswers.StartAnswers | packages/sms/otp.go:114-133 | A send goes ahead iff the phone is neither cooling down nor reserved, and then reserves it, or in the last half second of the cooldown without reserving. |
| OtpAnswers.RefusalAnswers | packages/sms/otp.go:134-140 | A refused delivery starts a cooldown iff its sender still holds the reservation. |
| Otp.GoAheadIff | packages/sms/otp.go:189-200 | The reserve script replies zero iff it reserved or a cooldown has less than half a second left. |
| Otp.DeliveryStoresIff | packages/sms/otp.go:114-148 | In every interleaving a sender whose delivery is accepted stores its code iff it reserved less than 30 seconds before and no sender reserved, activated or cancelled since. |
| Otp.LostForever | packages/sms/otp.go:114-148 | Otherwise it never stores one, whatever happens afterwards. |
| Otp.UnreservedSendIsLost | packages/sms/otp.go:189-200 | A run in which a sender goes ahead in the last half second of a cooldown and its accepted delivery stores nothing. |
| Reauth.RedisReauthenticationGrantStore.Issue | packages/auth/reauthentication.go:204-246 | The retry loop over drawn tokens leaves the grant under the first token that is free, listed in the actor's index with a renewed expiry. |
| Reauth.RedisReauthenticationGrantStore.Consume | packages/auth/reauthentication.go:248-290 | The script and the removal from the index, with replayed and missing kept apart. |
| Reauth.RedisReauthenticationGrantStore.RevokeActor | packages/auth/reauthentication.go:292-310 | The deletion loop removes exactly the listed grants and the index, and nothing else. |
| Reauth.IssuedGrant | packages/auth/reauthentication.go:204-246 | Which keys an undisturbed issue leaves. |
| Reauth.IssueThenConsume | packages/auth/reauthentication.go:79-144 | Consuming an issued grant is accepted iff the expectation equals the issued one in all six bindings and the grant has not expired; accepted or not, the token is spent and every further attempt within six minutes is a replay. |
| ReauthAnswers.RefusalNames | packages/auth/reauthentication.go:104-144 | Which error an issued grant is refused with: expiry, then the first of the bindings that differs, in order. |
| ReauthAnswers.IssueThenRevoke | packages/auth/reauthentication.go:292-310 | A revoke within six minutes of an issue kills the new grant and exactly the grants the index lists, and leaves other actors' indexes alone. |
| ReauthAnswers.ConsumeAnswers | packages/auth/reauthentication.go:248-290 | In every interleaving a consume hands out the grant its issuer asked for iff it is live, and changes nothing otherwise. |
| ReauthAnswers.LiveIff | packages/auth/reauthentication.go:204-310 | A live grant is still live, unchanged, after any further interleaving iff its time is not up and no step consumed it or deleted it for a revoke. |
| ReauthAnswers.KeyOutlivesGrant | packages/auth/reauthentication.go:204-228 | In every interleaving a stored grant stays consumable for at least a minute past its own expiry. |
| ReauthRuns.HandedOutAtMostOnce | packages/auth/reauthentication.go:204-310 | In every interleaving of issuers, consumers and revokers no grant is handed out twice. |
| ReauthRuns.IndexContainsAndOutlives | packages/auth/reauthentication.go:229-243 | If issues and revokes of an actor do not overlap and its index does not lapse during an issue, the index lists and outlives every live issued grant. |
| ReauthRuns.ListedDies | packages/auth/reauthentication.go:292-310 | In every history and interleaving, a digest that a revoke found listed is gone when it ends. |
| ReauthRuns.RevokeKillsIff | packages/auth/reauthentication.go:292-310 | In every history and interleaving, a grant stored when a revoke began and taken by nobody else is still consumable when it has ended iff the index did not list it at that moment and it has not expired. |
| ReauthRuns.OrderlyRevokeKills | packages/auth/reauthentication.go:204-310 | So after a history without overlap or lapse, a revoke kills every live issued grant of its actor, whatever interleaves with it. |
| ReauthRuns.NothingSurvivesRevoke | packages/auth/reauthentication.go:204-310 | In a whole run without overlap or lapse no grant issued before a revoke ended is live or handed out after it. |
| ReauthRuns.OverlapEscapes | packages/auth/reauthentication.go:229-310 | A run without lapse in which an overlapped grant outlives a whole later revoke and is consumed. |
| ReauthRuns.LapseEscapes | packages/auth/reauthentication.go:229-310 | A run without overlap in which the same happens because the index lapsed. |
| ReauthRuns.RevokeMisses | packages/auth/reauthentication.go:292-310 | For any actor: when its index lists nothing and no issue is unfinished, a live grant outlives a whole revoke and is then consumed. |
| Arith.MulExact | packages/money/arith.go:9-24 | The checked product is returned iff it fits, for all pairs, under wrap-around. |
| Arith.AddExact | packages/money/arith.go:176-181 | The checked sum is returned iff it fits. |
| Arith.RoundsIff | packages/money/arith.go:27-49 | Over all pairs: an error iff the denominator is zero, and otherwise the nearest integer with ties away from zero iff no operand is the smallest value and the remainder is below 2^62 (with the two exceptions spelled out). |
| Arith.NearestUnique | packages/money/arith.go:26-42 | There is only one such integer. |
| Arith.Pow10Checked | packages/money/arith.go:51-64 | The checked loop yields the exact power for exponents 0 to 18 and an error otherwise. |
| FixedPoint.RescaleUp | packages/money/fixed.go:106-123 | Refining gives the exact value, or an error iff it does not fit. |
| FixedPoint.RescaleDownIff | packages/money/fixed.go:124-133 | Coarsening never fails, and is the nearest value with ties away from zero iff the units are not the smallest value. |
| FixedPoint.RescaleIff | packages/money/fixed.go:106-133 | Rescaling fails iff the target scale is invalid or a refinement does not fit, and at the same scale changes nothing. |
| FixedPoint.UpThenDown | packages/money/fixed.go:106-133 | Refining then coarsening is the identity, without exception. |
| FixedPoint.DownMonotone | packages/money/fixed.go:124-133 | Coarsening keeps the order. |
| FixedPoint.DownOdd | packages/money/fixed.go:124-133 | Coarsening commutes with negation. |
| FixedPoint.SubIff | packages/money/money.go:25-36 | Subtraction is exact-or-overflow-error iff the subtrahend is not the smallest value. |
| FixedPoint.ApplyBpsIff | packages/money/money.go:49-62 | An error iff the rate is negative or the product does not fit; the nearest amount iff the product is not the smallest value. |
| FixedPoint.ApplyBpsShare | packages/money/money.go:49-62 | A share of at most 10000 basis points lies between zero and the amount. |
| FixedPoint.ApplyToMoneyIff | packages/money/rational.go:13-31 | The same two conditions for a constructed rational weight. |
| Decimals.ParseInt64 | packages/money/arith.go:160-174 | The digit loop yields the value of the digits iff it fits. |
| Decimals.ParseToUnits | packages/money/arith.go:88-158 | The parser with its checked arithmetic equals reading a decimal and scaling it mathematically. |
| Decimals.ReadIff | packages/money/arith.go:92-132 | The grammar: after trimming, a sign, digits and at most one point with digits, not empty; exactly those texts are read, as those digits. |
| Decimals.ParseIff | packages/money/arith.go:88-158 | A parse yields u iff the scale is 0 to 18, the text denotes exactly u / 10^scale with no excess digits, and u is not the smallest value. |
| Decimals.RoundTripIff | packages/money/arith.go:66-158 | Parsing the printed units at the same scale gives them back iff the scale is 0 to 18 and the units are not the smallest value. |
| Decimals.ParseThenPrint | packages/money/arith.go:66-158 | Whatever a parse accepts can be printed and parsed to the same units. |
| DecimalText.FormatIff | packages/money/arith.go:66-86 | The printed text is the one canonical decimal: a minus iff negative, no leading zeros, exactly scale fraction digits, the right value; exactly when the scale is zero or the units are not the smallest. |
| Text.TrimMeaning | packages/money/arith.go:92-95 | Trimming takes off white space at both ends and leaves none there. |
| RateLimiter.Limiter.Allow | packages/validation/middleware.go:108-142 | Answer and buckets of the call, refill included, are those of `AllowCall`, whose answers the rows of `RateLimits` and the bounds below pin. |
| RateLimiter.Limiter.CleanupStale | packages/validation/middleware.go:168-183 | The two loops delete exactly the stale buckets. |
| RateLimiter.Together | packages/validation/middleware.go:125-142 | Of any number of calls at one moment exactly the first `tokens` are allowed, and that many tokens are gone. |
| RateLimits.KnownClient | packages/validation/middleware.go:124-142 | For every bucket and time, of any number of calls at once exactly the first min(burst, tokens + whole intervals times rate) are allowed if an interval has passed and the rate is positive, and exactly the first tokens otherwise. |
| RateLimits.NewClient | packages/validation/middleware.go:108-118 | Of a new client exactly the first burst calls. |
| RateLimiter.WindowBound | packages/validation/middleware.go:108-142 | In any window [a, b], among any calls of any clients, one client is allowed at most burst + rate * ((b-a)/interval + 1) requests. |
| RateLimiter.WindowBoundWithCleanup | packages/validation/middleware.go:108-183 | The same with cleanups at arbitrary times, whenever cleanup is unobservable. |
| RateLimiter.CleanupUnobservableIff | packages/validation/middleware.go:108-183 | All runs with cleanups at arbitrary times answer as without them iff the burst allows nothing or the tokens added in ten minutes and one tick reach the burst. |
| RateLimits.NeverRefusedIff | packages/validation/middleware.go:108-183 | A client making at most n calls in any window shorter than an interval is never refused, in any run with any other clients and cleanups, iff n is at most the rate and at most the burst. |
| RateLimits.SteadyClientIsServed | packages/validation/middleware.go:108-183 | The same for any client and starting time, without a positive rate. |
| ShardCache.ShardInfoCache.GetAssignment | apps/shard-router/circuits.go:93-110 | Answers from the recency list. |
| ShardCache.ShardInfoCache.SetAssignment | apps/shard-router/circuits.go:113-142 | Keeps map and list in bijection; the new list is the specified one, the entry object being rewritten in place when the key is cached. |
| ShardCache.ShardInfoCache.EvictOldest | apps/shard-router/circuits.go:145-153 | Removes the back of the list and its key. |
| ShardCache.ShardInfoCache.InvalidateAssignment | apps/shard-router/circuits.go:207-214 | Removes the key from list and map. |
| ShardCache.ShardInfoCache.InvalidateAll | apps/shard-router/circuits.go:217-223 | Empties both. |
| ShardCache.CacheOk | apps/shard-router/circuits.go:113-153 | After every run at most max(1, capacity) entries are kept, each is what its last set wrote, and they are in the order of their last sets, so the victim is the least recently set key. |
| ShardCache.Retention | apps/shard-router/circuits.go:93-153 | A key not invalidated since its last set, with fewer than max(1, capacity) distinct other keys set since, answers its latest value until that expires. |
| ShardCache.AnsweredIff | apps/shard-router/circuits.go:93-223 | In every run of sets and invalidations a key is answered iff it was set and not invalidated since, at no moment since were as many newer keys standing as the cache holds, and it has not expired; the answer is its latest value. |
| ShardCache.AnsweredBySets | apps/shard-router/circuits.go:93-153 | In runs of sets that means: fewer than max(1, capacity) distinct other keys were set since. |

## Left out

- SQL text, drivers, locks, HTTP handlers, JSON, metrics, logging and listings: each service call is one atomic step on the rows it reads and writes, and an error leaves the rows as they were.
- Affiliate commissions, prize payouts, withdrawals and the plain keyed refunds (of the scheduler's cancellation and of settlement) credit or debit wallets without the Treasury, so they are in the runs of `LedgerLaws` and `Retries` but not in closed runs.
- Legacy contests have no pool account and the wallet operations refuse them; closed runs create only contests of the current policy. Draft and scheduled contests, which take no joins and whose terms can still be edited: a contest appears when its registration opens.
- The order in which a cancellation refunds its participants (by user in the original, by insertion here).
- System participants, which the cutoff query skips.
- ContestEffects.CreateEffect: a free contest stores zero basis points in the original and the default here, because nothing reads them where the fee is zero.
- The planned number of winners and the prize distribution compute with floating point. So does the late-join window, which is exact here: a tenth of the duration rounded down, at most thirty minutes.
- The syntax checks of identifiers; only emptiness is checked, where the code checks it.
- Of the database constraints these are modelled: non-negative balances, non-zero wallet amounts, unique wallet and pool keys, and the pool account's refusal of an update that moves nothing. Not modelled: the triggers that compare a reversal with its original and a pool balance with its ledger, the unique indexes on reversal originals and the append-only triggers; the rows written here satisfy them.
- The participant row carries the charge its join computed, which the original recomputes from the contest terms.
- Reauth.RedisReauthenticationGrantStore.Issue: storage errors in the middle of an issue, with their compensating deletes, are not modelled; in interleaved runs tokens are unique, so the first draw succeeds.
- HMAC, SHA-256, random generation and constant-time comparison: digests are values, and the binding digest is any injective function.
- `ReauthenticationSecurityFingerprint`, session refresh and the permission checks around re-authentication.
- The two clock readings inside one `Allow` call are one, calls are atomic, and token counts do not overflow.
- The shard list of the cache (`GetShards`, `SetShards`, `GetShard`) and its statistics.
