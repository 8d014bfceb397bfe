/**
  Contest fee policy: how one join is charged, split and classified as late.
 */
module Economics {
  import opened Int64

  const BPS_SCALE := 10_000
  const LATE_JOIN_SURCHARGE_BPS := 1_000
  const DEFAULT_PLATFORM_FEE_BPS := 2_000

  /** `contests.entry_fee_cents`: a non-negative 32-bit column. */
  type FeeColumn = x: int | 0 <= x <= 0x7FFF_FFFF

  datatype JoinCharge = JoinCharge(
    baseEntry: int64, surcharge: int64, total: int64, late: bool, platform: int64, prize: int64)

  /** Draft and scheduled contests, which take no joins and can still be edited, do not appear. */
  datatype ContestStatus = RegistrationOpen | RegistrationClosed | Running | Paused | Ended | CalledOff

  datatype JoinDecision = Refused | OnTime | Late

  function ResolvePlatformFeeBps(bps: int): (r: int)
    ensures 0 < r <= BPS_SCALE
  {
    if 0 < bps <= BPS_SCALE then bps else DEFAULT_PLATFORM_FEE_BPS
  }

  /** The platform's and the prize pool's share of one entry fee. */
  function SplitEntryFee(fee: int64, bps: int): (int64, int64) {
    if fee <= 0 then (0, 0)
    else
      var clamped := if bps < 0 then 0 else if bps > BPS_SCALE then BPS_SCALE else bps;
      var platform := Wrap(Quo(Wrap(fee * clamped), BPS_SCALE));
      (platform, Wrap(fee - platform))
  }

  function LateJoinSurchargeCents(fee: int64): int64 {
    if fee <= 0 then 0 else Wrap(Quo(Wrap(fee * LATE_JOIN_SURCHARGE_BPS), BPS_SCALE))
  }

  function ComputeJoinCharge(fee: int64, bps: int, late: bool): JoinCharge {
    var (platform, prize) := SplitEntryFee(fee, bps);
    var surcharge := if late then LateJoinSurchargeCents(fee) else 0;
    JoinCharge(fee, surcharge, Wrap(fee + surcharge), late, platform, prize)
  }

  const MAX_LATE_JOIN_WINDOW := 1_800_000_000_000

  /** The exclusive deadline of late joins: a tenth of the duration after the start, at most half an hour. Nanoseconds. */
  function LateJoinCutoff(startsAt: int, endsAt: int): (cutoff: int)
    ensures startsAt <= cutoff <= startsAt + MAX_LATE_JOIN_WINDOW
    ensures endsAt - startsAt >= 10 * MAX_LATE_JOIN_WINDOW ==> cutoff == startsAt + MAX_LATE_JOIN_WINDOW
  {
    if startsAt >= endsAt then startsAt
    else
      var window := (endsAt - startsAt) / 10;
      startsAt + (if window > MAX_LATE_JOIN_WINDOW then MAX_LATE_JOIN_WINDOW else window)
  }

  /** Less than half an hour and less than a tenth of the duration, in whole nanoseconds, has passed since the start. */
  predicate InLateWindow(now: int, startsAt: int, endsAt: int) {
    now < startsAt || (now - startsAt < 1_800_000_000_000 && 10 * (now - startsAt + 1) <= endsAt - startsAt)
  }

  lemma LateWindowIff(now: int, startsAt: int, endsAt: int)
    ensures now < LateJoinCutoff(startsAt, endsAt) <==> InLateWindow(now, startsAt, endsAt)
  {
  }

  /** Whether a join is admitted now, and if so whether it pays the late surcharge. */
  function JoinAllowed(status: ContestStatus, isFree: bool, lateJoin: bool, cutoff: int, now: int): JoinDecision {
    match status
    case RegistrationOpen => OnTime
    case Running => if isFree || !lateJoin || now >= cutoff then Refused else Late
    case _ => Refused
  }

  /** What every later money movement relies on: the parts are non-negative and add up to the debit. */
  ghost predicate Balanced(c: JoinCharge) {
    && 0 <= c.platform && 0 <= c.prize && 0 <= c.surcharge && 0 <= c.baseEntry
    && c.platform + c.prize == c.baseEntry
    && c.total == c.baseEntry + c.surcharge
  }

  lemma ProductBounds(fee: nat, bps: nat)
    requires bps <= BPS_SCALE
    ensures 0 <= fee * bps <= fee * BPS_SCALE
  {
  }

  lemma SplitBalances(fee: int64, bps: int)
    requires 0 < fee && fee * BPS_SCALE <= MAX_INT64
    ensures var (platform, prize) := SplitEntryFee(fee, bps);
      && 0 <= platform && 0 <= prize && platform + prize == fee
      && (0 <= bps <= BPS_SCALE ==> platform * BPS_SCALE <= fee * bps < (platform + 1) * BPS_SCALE)
  {
    var clamped := if bps < 0 then 0 else if bps > BPS_SCALE then BPS_SCALE else bps;
    ProductBounds(fee, clamped);
    var product := fee * clamped;
    assert SplitEntryFee(fee, bps).0 == product / BPS_SCALE;
  }

  /** Splitting by basis points loses nothing, and the fee is the floor of its exact share. */
  lemma ChargeBalances(fee: int64, bps: int, late: bool)
    requires 0 <= fee && fee * BPS_SCALE <= MAX_INT64
    ensures var c := ComputeJoinCharge(fee, bps, late);
      && Balanced(c)
      && c.baseEntry == fee && c.late == late
      && (0 <= bps <= BPS_SCALE ==> c.platform * BPS_SCALE <= fee * bps < (c.platform + 1) * BPS_SCALE)
      && (c.surcharge > 0 ==> late && fee > 0)
      && (c.total > 0 <==> fee > 0)
  {
    if fee > 0 {
      SplitBalances(fee, bps);
    }
    hide SplitEntryFee;
  }

  /** One charge in figures: the platform's floored share, the rest, and a tenth on top of a late join. */
  predicate ChargeIs(c: JoinCharge, fee: int, bps: int, late: bool) {
    && c.baseEntry == fee && c.late == late
    && c.platform * 10_000 <= fee * bps < (c.platform + 1) * 10_000
    && c.prize == fee - c.platform
    && (if late then c.surcharge * 10 <= fee < (c.surcharge + 1) * 10 else c.surcharge == 0)
    && c.total == fee + c.surcharge
  }

  lemma ChargeExact(fee: int64, bps: int, late: bool, c: JoinCharge)
    requires 0 <= fee && fee * BPS_SCALE <= MAX_INT64 && 0 <= bps <= BPS_SCALE
    ensures ComputeJoinCharge(fee, bps, late) == c <==> ChargeIs(c, fee, bps, late)
  {
    hide ComputeJoinCharge;
    ChargeFits(fee, bps, late);
    if ChargeIs(c, fee, bps, late) { OnlyOneCharge(c, ComputeJoinCharge(fee, bps, late), fee, bps, late); }
  }

  lemma ChargeFits(fee: int64, bps: int, late: bool)
    requires 0 <= fee && fee * BPS_SCALE <= MAX_INT64 && 0 <= bps <= BPS_SCALE
    ensures ChargeIs(ComputeJoinCharge(fee, bps, late), fee, bps, late)
  {
    if fee > 0 {
      SplitBalances(fee, bps);
      hide SplitEntryFee;
    }
  }

  lemma OnlyOneCharge(c: JoinCharge, c': JoinCharge, fee: int, bps: int, late: bool)
    requires ChargeIs(c, fee, bps, late) && ChargeIs(c', fee, bps, late)
    ensures c == c'
  {
  }

  /** A paid admission has a prize part unless the platform takes everything. */
  lemma PrizeIff(fee: int64, bps: int, late: bool)
    requires 0 < fee && fee * BPS_SCALE <= MAX_INT64 && 0 < bps <= BPS_SCALE
    ensures ComputeJoinCharge(fee, bps, late).prize > 0 <==> bps < BPS_SCALE
  {
    hide SplitEntryFee;
    SplitBalances(fee, bps);
    LessThanAll(fee, bps);
  }

  lemma Gap(fee: nat, bps: nat, gap: nat, all: nat)
    requires bps + gap == all
    ensures fee * all == fee * bps + fee * gap
    ensures gap > 0 ==> fee * gap >= fee
  {
    assert gap > 0 ==> fee * (gap - 1) >= 0;
  }

  lemma LessThanAll(fee: nat, bps: nat)
    requires 0 < fee && bps <= BPS_SCALE
    ensures bps < BPS_SCALE ==> fee * bps <= fee * BPS_SCALE - fee
  {
    Gap(fee, bps, BPS_SCALE - bps, BPS_SCALE);
  }
}
