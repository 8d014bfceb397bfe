/**
  Contests, their participants and the transactions that change them together with the books.
 */
module Contests {
  import opened Int64
  import opened Rows
  import opened Books
  import opened Economics
  import opened Admissions

  /** A `contest_funds_v1` contest. Times are nanoseconds. */
  datatype Contest = Contest(
    fee: int64, bps: int, lateJoin: bool, startsAt: int, endsAt: int, minParticipants: int,
    status: ContestStatus, startedAt: Option<int>, pausedAt: Option<int>)
  {
    /** The deadline of late joins in force. */
    function CutoffAt(): int {
      LateJoinCutoff(startsAt, endsAt)
    }

    /** How many participant rows a start needs. */
    function Quorum(): int {
      if fee <= 0 then 1 else if minParticipants < 2 then 2 else minParticipants
    }
  }

  /** What a contest is created with. */
  datatype Terms = Terms(
    fee: FeeColumn, bps: int, lateJoin: bool, startsAt: int, endsAt: int, minParticipants: int)

  datatype Lifecycle = Active | Disqualified | Refunded | Cancelled

  /** A participant row, with the charge its join computed. */
  datatype Participant = Participant(
    adm: Admission, joinedAt: int, charge: JoinCharge, status: Lifecycle, trading: bool)

  /** The immutable economics-cutoff snapshot. */
  datatype Snapshot = Snapshot(
    joined: nat, economic: nat, eligible: nat, gross: int64, platformFee: int64, surcharge: int64, prizePool: int64)

  datatype World = World(
    books: Books, contests: map<ContestId, Contest>, participants: seq<Participant>,
    snapshots: map<ContestId, Snapshot>)

  datatype Problem =
    | NoContest
    | ContestExists
    | NotOpen
    | NoParticipant
    | Inactive
    | CutoffTaken
    | Money(error: Error)

  datatype Result = Ok | AlreadyJoined | AlreadyCancelled | Rejected(problem: Problem)

  datatype Change = Change(world: World, result: Result)

  const EMPTY_WORLD := World(EMPTY, map[], [], map[])

  function IsParticipant(adm: Admission): Participant -> bool {
    (p: Participant) => p.adm == adm
  }

  function Reject(w: World, p: Problem): Change {
    Change(w, Rejected(p))
  }

  function Commit(w: World, s: Step): Change {
    match s.outcome
    case Failed(e) => Reject(w, Money(e))
    case _ => Change(w.(books := s.books), Ok)
  }

  /** Inserting a contest fires the trigger that provisions its Prize Pool. */
  function CreateContest(w: World, c: ContestId, terms: Terms): Change {
    if c in w.contests then Reject(w, ContestExists)
    else
      var contest := Contest(terms.fee, ResolvePlatformFeeBps(terms.bps), terms.lateJoin, terms.startsAt, terms.endsAt,
                             terms.minParticipants, RegistrationOpen, None, None);
      Change(w.(contests := w.contests[c := contest], books := ProvisionPool(w.books, c, true).books), Ok)
  }

  function CloseContest(w: World, c: ContestId): Change {
    if c !in w.contests then Reject(w, NoContest)
    else if w.contests[c].status != RegistrationOpen then Reject(w, NotOpen)
    else Change(w.(contests := w.contests[c := w.contests[c].(status := RegistrationClosed)]), Ok)
  }

  function InContest(c: ContestId): Participant -> bool {
    (p: Participant) => p.adm.contest == c
  }

  predicate HasQuorum(w: World, c: ContestId)
    requires c in w.contests
  {
    Count(w.participants, InContest(c)) >= w.contests[c].Quorum()
  }

  /** The first start, from closed registration only and with a quorum. */
  function StartContest(w: World, c: ContestId, now: int): Change {
    if c !in w.contests then Reject(w, NoContest)
    else if w.contests[c].status != RegistrationClosed || !HasQuorum(w, c) then Reject(w, NotOpen)
    else Change(w.(contests := w.contests[c := w.contests[c].(status := Running, startedAt := Some(now))]), Ok)
  }

  function PauseContest(w: World, c: ContestId, now: int): Change {
    if c !in w.contests then Reject(w, NoContest)
    else if w.contests[c].status != Running then Reject(w, NotOpen)
    else Change(w.(contests := w.contests[c := w.contests[c].(status := Paused, pausedAt := Some(now))]), Ok)
  }

  /** The pause is added to the end of the contest, and with it the late-join deadline moves. */
  function Resumed(c: Contest, now: int): Contest {
    var pause := if c.pausedAt.Some? then now - c.pausedAt.value else 0;
    c.(status := Running, endsAt := c.endsAt + pause, pausedAt := None)
  }

  function ResumeContest(w: World, c: ContestId, now: int): Change {
    if c !in w.contests then Reject(w, NoContest)
    else if w.contests[c].status != Paused || !HasQuorum(w, c) then Reject(w, NotOpen)
    else Change(w.(contests := w.contests[c := Resumed(w.contests[c], now)]), Ok)
  }

  function EndContest(w: World, c: ContestId): Change {
    if c !in w.contests then Reject(w, NoContest)
    else if w.contests[c].status != Running && w.contests[c].status != Paused then Reject(w, NotOpen)
    else Change(w.(contests := w.contests[c := w.contests[c].(status := Ended, pausedAt := None)]), Ok)
  }

  /**
    The join transaction. `joinedAt` is the row's timestamp (the start of the transaction) and `now` the clock
    the handler reads once it holds the contest lock.
   */
  function Join(w: World, adm: Admission, joinedAt: int, now: int): Change {
    if adm.contest !in w.contests then Reject(w, NoContest)
    else
      var c := w.contests[adm.contest];
      var decision := JoinAllowed(c.status, c.fee <= 0, c.lateJoin, c.CutoffAt(), now);
      if decision.Refused? then Reject(w, NotOpen)
      else if Find(w.participants, IsParticipant(adm)).Some? then Change(w, AlreadyJoined)
      else
        var charge := ComputeJoinCharge(c.fee, c.bps, decision.Late?);
        var s := Admit(w.books, adm, ChargeOf(charge, c.bps));
        if s.outcome.Failed? then Reject(w, Money(s.outcome.error))
        else Change(w.(books := s.books,
                       participants := w.participants + [Participant(adm, joinedAt, charge, Active, false)]), Ok)
  }

  /** Removes an active participant, with or without a refund; refunds stop at the cutoff snapshot. */
  function RemoveParticipant(w: World, adm: Admission, refund: bool): Change {
    if adm.contest !in w.contests then Reject(w, NoContest)
    else if adm.contest in w.snapshots && refund then Reject(w, CutoffTaken)
    else
      match Find(w.participants, IsParticipant(adm))
      case None => Reject(w, NoParticipant)
      case Some(p) =>
        if p.row.status != Active then Reject(w, Inactive)
        else if !refund then
          Change(w.(participants := w.participants[p.id := p.row.(status := Disqualified)]), Ok)
        else
          var s := ReverseContestAdmission(w.books, adm);
          if s.outcome.Failed? then Reject(w, Money(s.outcome.error))
          else Change(w.(books := s.books,
                         participants := w.participants[p.id := p.row.(status := Refunded)]), Ok)
  }

  /** Reverses the active admissions of a contest among the first `k` participant rows, or stops at the first failure. */
  function CancelRows(w: World, contest: ContestId, k: nat): (r: Change)
    requires k <= |w.participants|
    ensures r.result.Rejected? ==> r.world == w
    ensures |r.world.participants| == |w.participants|
  {
    if k == 0 then Change(w, Ok)
    else
      var before := CancelRows(w, contest, k - 1);
      if before.result.Rejected? then before
      else
        var w1, p := before.world, before.world.participants[k - 1];
        if p.adm.contest != contest || p.status != Active then before
        else
          var s := ReverseContestAdmission(w1.books, p.adm);
          if s.outcome.Failed? then Reject(w, Money(s.outcome.error))
          else Change(w1.(books := s.books, participants := w1.participants[k - 1 := p.(status := Cancelled)]), Ok)
  }

  /** Cancels a contest that has not started and refunds every active participant, all of them or none. */
  function CancelContest(w: World, contest: ContestId): Change {
    if contest !in w.contests then Reject(w, NoContest)
    else if w.contests[contest].status == CalledOff then Change(w, AlreadyCancelled)
    else if contest in w.snapshots then Reject(w, CutoffTaken)
    else if w.contests[contest].status != RegistrationOpen && w.contests[contest].status != RegistrationClosed then
      Reject(w, NotOpen)
    else
      var r := CancelRows(w, contest, |w.participants|);
      if r.result.Rejected? then r
      else
        var row := w.contests[contest].(status := CalledOff);
        Change(r.world.(contests := r.world.contests[contest := row]), Ok)
  }

  function BeginTrading(w: World, adm: Admission): Change {
    match Find(w.participants, IsParticipant(adm))
    case None => Reject(w, NoParticipant)
    case Some(p) => Change(w.(participants := w.participants[p.id := p.row.(trading := true)]), Ok)
  }
}
