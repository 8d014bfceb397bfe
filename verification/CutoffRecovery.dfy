/**
  The join that straddles a contest's start: how it blocks the economics cutoff, when refunds unblock it, and when
  nothing does.
 */
module CutoffRecovery {
  import opened Int64
  import opened Rows
  import opened Books
  import opened LedgerLaws
  import opened Moves
  import opened Economics
  import opened Admissions
  import opened Contests
  import opened Cutoff
  import opened ClosedRuns
  import opened CutoffCompleteness
  import opened CustodyTheorems

  /** A live admission whose row lies on the other side of the start than its charge. */
  predicate Mistimed(c: CutoffContest, contest: ContestId, p: Participant) {
    p.adm.contest == contest && Live(p.status) && !TimedAsCharged(c, p)
  }

  lemma {:induction false} RunWorldAppend(w: World, ops: seq<WorldOp>, op: WorldOp)
    ensures RunWorld(w, ops + [op]) == Perform(RunWorld(w, ops), op).world
    decreases |ops|
  {
    hide Perform;
    if ops == [] {
      assert ([] + [op])[1..] == [] && RunWorld(Perform(w, op).world, []) == Perform(w, op).world;
    } else {
      assert (ops + [op])[1..] == ops[1..] + [op];
      RunWorldAppend(Perform(w, ops[0]).world, ops[1..], op);
    }
  }

  // ----- Refunding exactly the mistimed rows -----

  function RefundOps(rows: seq<Participant>, c: CutoffContest, contest: ContestId): seq<WorldOp> {
    if rows == [] then []
    else
      var p := rows[|rows| - 1];
      RefundOps(rows[..|rows| - 1], c, contest) + (if Mistimed(c, contest, p) then [Remove(p.adm, true)] else [])
  }

  ghost predicate RefundedRows(rows: seq<Participant>, rows': seq<Participant>, c: CutoffContest, contest: ContestId, k: nat) {
    && |rows'| == |rows| >= k
    && forall i :: 0 <= i < |rows| ==>
         rows'[i] == if i < k && Mistimed(c, contest, rows[i]) then rows[i].(status := Refunded) else rows[i]
  }

  lemma RefundedOne(rows: seq<Participant>, rows': seq<Participant>, c: CutoffContest, contest: ContestId, k: nat)
    requires RefundedRows(rows, rows', c, contest, k) && k < |rows|
    ensures rows'[k] == rows[k]
    ensures RefundedRows(rows, if Mistimed(c, contest, rows[k]) then rows'[k := rows[k].(status := Refunded)] else rows', c,
                         contest, k + 1)
  {
    hide TimedAsCharged;
  }

  /** Refunding one active row of an auditable contest always works while custody fits. */
  lemma RefundRow(w: World, contest: ContestId, c: CutoffContest, i: nat)
    requires Auditable(w, contest, c) && External(w.books) <= MAX_INT64 && contest !in w.snapshots
    requires i < |w.participants| && w.participants[i].adm.contest == contest && w.participants[i].status == Active
    ensures
      var p := w.participants[i];
      var r := Perform(w, Remove(p.adm, true));
      && r.result == Ok && Inv(r.world) && External(r.world.books) == External(w.books)
      && r.world == w.(books := r.world.books, participants := w.participants[i := p.(status := Refunded)])
  {
    hide Inv, External, RefundVerdict, RefundedAs, ReverseContestAdmission, AdmissionEvidenceOf, TimedAsCharged;
    var p := w.participants[i];
    OwnRow(w, i);
    Member(w, contest, c, i);
    RefundWhenCustodyFits(w, i);
    RemoveKeeps(w, p.adm, true);
    RefundKeepsExternal(w, RemoveParticipant(w, p.adm, true).world, p);
  }

  lemma {:induction false} RefundMistimed(w: World, contest: ContestId, c: CutoffContest, k: nat)
    requires Auditable(w, contest, c) && External(w.books) <= MAX_INT64 && contest !in w.snapshots && k <= |w.participants|
    requires forall i :: 0 <= i < |w.participants| && Mistimed(c, contest, w.participants[i]) ==> w.participants[i].status == Active
    ensures
      var w' := RunWorld(w, RefundOps(w.participants[..k], c, contest));
      && Auditable(w', contest, c) && External(w'.books) == External(w.books)
      && w' == w.(books := w'.books, participants := w'.participants)
      && RefundedRows(w.participants, w'.participants, c, contest, k)
  {
    hide Inv, External, Perform, TimedAsCharged, TermsOf, SplitEntryFee;
    if k > 0 {
      RefundMistimed(w, contest, c, k - 1);
      hide RefundedRows;
      var p, before := w.participants[k - 1], w.participants[..k - 1];
      var ops := RefundOps(before, c, contest);
      var w1 := RunWorld(w, ops);
      assert w.participants[..k][..k - 1] == before;
      RefundedOne(w.participants, w1.participants, c, contest, k - 1);
      if Mistimed(c, contest, p) {
        RunWorldAppend(w, ops, Remove(p.adm, true));
        RefundRow(w1, contest, c, k - 1);
      } else {
        assert ops + [] == ops;
      }
    }
  }

  /** If every mistimed row is active, refunding exactly those makes a due cutoff go through. */
  lemma RefundsUnblock(w: World, contest: ContestId, now: int)
    requires Inv(w) && External(w.books) <= MAX_INT64 && contest in w.contests && contest !in w.snapshots
    requires w.contests[contest].startedAt.Some? && w.contests[contest].CutoffAt() <= now
    requires w.contests[contest].fee > 0 && SplitEntryFee(w.contests[contest].fee, w.contests[contest].bps).1 > 0
    requires forall i :: 0 <= i < |w.participants| && Mistimed(TermsIn(w.contests[contest]), contest, w.participants[i]) ==>
      w.participants[i].status == Active
    ensures
      var w' := RunWorld(w, RefundOps(w.participants, TermsIn(w.contests[contest]), contest));
      EnsureEconomicsCutoff(w', contest, now).Accepted?
  {
    hide Inv, External, RunWorld, TimedAsCharged, SplitEntryFee, EnsureEconomicsCutoff, Balance;
    var c := TermsIn(w.contests[contest]);
    assert w.participants[..|w.participants|] == w.participants;
    RefundMistimed(w, contest, c, |w.participants|);
    var w' := RunWorld(w, RefundOps(w.participants, c, contest));
    assert AllTimed(w', contest, c);
    GrossWithinCustody(w', contest, c);
    CutoffIffTimed(w', contest, now);
  }

  // ----- How far the deadline can still move -----

  /** The latest deadline a started contest can still reach: resuming moves it, up to the cap, until the contest ends. */
  function BestCutoff(c: Contest): (t: int)
    ensures c.CutoffAt() <= t
  {
    if c.status == Running || c.status == Paused then c.startsAt + MAX_LATE_JOIN_WINDOW else c.CutoffAt()
  }

  function BestTerms(c: Contest): CutoffContest
    requires c.startedAt.Some?
  {
    TermsIn(c).(cutoffAt := BestCutoff(c))
  }

  /** A later deadline only helps. */
  lemma LaterIsTimelier(c: CutoffContest, c': CutoffContest, p: Participant)
    requires c == c'.(cutoffAt := c.cutoffAt) && c.cutoffAt <= c'.cutoffAt
    ensures TimedAsCharged(c, p) ==> TimedAsCharged(c', p)
  {
    hide LateJoinSurchargeCents;
  }

  // ----- A mistimed row that can no longer be helped -----

  /** Rows are never removed and terminal states are final. */
  predicate Advanced(p: Participant, p': Participant) {
    p' == p.(status := p'.status, trading := p'.trading) && (p.status != Active ==> p'.status == p.status)
  }

  ghost predicate RowsAdvance(w: World, w': World) {
    |w.participants| <= |w'.participants|
    && forall i :: 0 <= i < |w.participants| ==> Advanced(w.participants[i], w'.participants[i])
  }

  lemma PerformAdvances(w: World, op: WorldOp)
    requires Inv(w)
    ensures RowsAdvance(w, Perform(w, op).world)
  {
    hide Inv, Join, RemoveParticipant, EnsureEconomicsCutoff, PostConfirmedDeposit, CancelContest, BeginTrading;
    match op
    case JoinContest(adm, joinedAt, now) => JoinAdvances(w, adm, joinedAt, now);
    case Remove(adm, refund) => RemoveAdvances(w, adm, refund);
    case Trade(adm) => RemoveAdvances(w, adm, false);
    case Cancel(c) => CancelAdvances(w, c);
    case _ =>
  }

  lemma JoinAdvances(w: World, adm: Admission, joinedAt: int, now: int)
    ensures RowsAdvance(w, Join(w, adm, joinedAt, now).world)
  {
    hide Admit, ComputeJoinCharge, Find;
  }

  lemma RemoveAdvances(w: World, adm: Admission, refund: bool)
    ensures RowsAdvance(w, RemoveParticipant(w, adm, refund).world) && RowsAdvance(w, BeginTrading(w, adm).world)
  {
    hide ReverseContestAdmission, Find;
    FindMeaning(w.participants, IsParticipant(adm));
  }

  lemma CancelAdvances(w: World, c: ContestId)
    requires Inv(w)
    ensures RowsAdvance(w, CancelContest(w, c).world)
  {
    hide Inv, CancelRows;
    CancelKeeps(w, c);
    CancelRowsKeep(w, c, |w.participants|);
  }

  /** A disqualified participant whose row no deadline still possible makes timely: it stays live and is never refunded. */
  ghost predicate StuckAt(w: World, contest: ContestId, i: nat) {
    && contest in w.contests && w.contests[contest].startedAt.Some?
    && w.contests[contest].fee > 0 && SplitEntryFee(w.contests[contest].fee, w.contests[contest].bps).1 > 0
    && i < |w.participants| && w.participants[i].status == Disqualified
    && Mistimed(BestTerms(w.contests[contest]), contest, w.participants[i])
  }

  lemma StuckRefused(w: World, contest: ContestId, i: nat, now: int)
    requires Inv(w) && StuckAt(w, contest, i) && contest !in w.snapshots
    ensures EnsureEconomicsCutoff(w, contest, now).Raised?
  {
    hide Inv, Figures, Population, SplitEntryFee, TimedAsCharged;
    if w.contests[contest].CutoffAt() <= now {
      LaterIsTimelier(TermsIn(w.contests[contest]), BestTerms(w.contests[contest]), w.participants[i]);
      CutoffIffTimed(w, contest, now);
    }
  }

  lemma StuckStep(w: World, contest: ContestId, i: nat, op: WorldOp)
    requires Inv(w) && StuckAt(w, contest, i) && contest !in w.snapshots
    ensures StuckAt(Perform(w, op).world, contest, i) && contest !in Perform(w, op).world.snapshots
  {
    hide Inv, SplitEntryFee, Perform, EnsureEconomicsCutoff, TimedAsCharged;
    PerformAdvances(w, op);
    ContestTermsKept(w, op, contest);
    StatusOf(w, contest);
    StillLate(w.contests[contest], Perform(w, op).world.contests[contest], contest, w.participants[i],
              Perform(w, op).world.participants[i]);
    if op.TakeSnapshot? && op.contest == contest { StuckRefused(w, contest, i, op.now); }
    SnapshotsBy(w, op, contest);
  }

  lemma StillLate(c: Contest, c': Contest, contest: ContestId, p: Participant, p': Participant)
    requires c.startedAt.Some? && c' == c.(status := c'.status, pausedAt := c'.pausedAt, endsAt := c'.endsAt)
    requires HasStarted(c.status) && (c.status == Ended ==> c' == c)
    requires Advanced(p, p') && p.status == Disqualified && Mistimed(BestTerms(c), contest, p)
    ensures Mistimed(BestTerms(c'), contest, p')
  {
    assert TimedAsCharged(BestTerms(c'), p') <==> TimedAsCharged(BestTerms(c'), p);
    LaterIsTimelier(BestTerms(c'), BestTerms(c), p);
  }

  /** Only a taken cutoff adds a snapshot, and only its own. */
  lemma SnapshotsBy(w: World, op: WorldOp, contest: ContestId)
    requires Inv(w) && contest !in w.snapshots
    requires op.TakeSnapshot? && op.contest == contest ==> EnsureEconomicsCutoff(w, contest, op.now).Raised?
    ensures contest !in Perform(w, op).world.snapshots
  {
    hide Inv, Admit, ReverseContestAdmission, EnsureEconomicsCutoff, PostConfirmedDeposit, CancelContest;
    if op.Cancel? { CancelKeeps(w, op.contest); }
  }

  /** In every later state the cutoff is refused: the snapshot is never taken. */
  lemma {:induction false} StuckForever(w: World, contest: ContestId, i: nat, ops: seq<WorldOp>)
    requires Inv(w) && StuckAt(w, contest, i) && contest !in w.snapshots
    ensures contest !in RunWorld(w, ops).snapshots
    decreases |ops|
  {
    hide Inv, StuckAt, Perform;
    if ops != [] {
      StuckStep(w, contest, i, ops[0]);
      PerformKeeps(w, ops[0]);
      StuckForever(Perform(w, ops[0]).world, contest, i, ops[1..]);
    }
  }

  // ----- A contest that has started has its quorum -----

  lemma {:induction false} CountAdvances(rows: seq<Participant>, rows': seq<Participant>, c: ContestId)
    requires |rows| <= |rows'| && forall i :: 0 <= i < |rows| ==> rows'[i].adm == rows[i].adm
    ensures Count(rows, InContest(c)) <= Count(rows', InContest(c))
    decreases |rows'|
  {
    if |rows'| > 0 {
      var n := |rows'| - 1;
      CountAdvances(if |rows| <= n then rows else rows[..n], rows'[..n], c);
    }
  }

  ghost predicate Quorate(w: World) {
    forall c :: c in w.contests && w.contests[c].startedAt.Some? ==> HasQuorum(w, c)
  }

  lemma QuorateStep(w: World, op: WorldOp)
    requires Inv(w) && Quorate(w)
    ensures Quorate(Perform(w, op).world)
  {
    hide Inv, Perform, Count;
    var w' := Perform(w, op).world;
    PerformAdvances(w, op);
    forall c | c in w'.contests && w'.contests[c].startedAt.Some?
      ensures HasQuorum(w', c)
    {
      CountAdvances(w.participants, w'.participants, c);
      if c in w.contests && w.contests[c].startedAt.Some? {
        ContestTermsKept(w, op, c);
      } else {
        JustStarted(w, op, c);
      }
    }
  }

  lemma JustStarted(w: World, op: WorldOp, c: ContestId)
    requires Inv(w) && c in Perform(w, op).world.contests && Perform(w, op).world.contests[c].startedAt.Some?
    requires c in w.contests ==> w.contests[c].startedAt.None?
    ensures HasQuorum(Perform(w, op).world, c)
  {
    hide Inv, Join, RemoveParticipant, EnsureEconomicsCutoff, PostConfirmedDeposit, CancelContest, BeginTrading, Count;
    match op
    case JoinContest(adm, joinedAt, now) => JoinShape(w, adm, joinedAt, now);
    case Remove(adm, refund) => RemoveShape(w, adm, refund);
    case Trade(adm) => RemoveShape(w, adm, false);
    case Cancel(x) => CancelNotStarted(w, x, c);
    case Resume(x, _) => if x in w.contests { StatusOf(w, x); }
    case Pause(x, _) => if x in w.contests { StatusOf(w, x); }
    case End(x) => if x in w.contests { StatusOf(w, x); }
    case _ =>
  }

  lemma CancelNotStarted(w: World, x: ContestId, c: ContestId)
    requires Inv(w)
    ensures var w' := CancelContest(w, x).world;
      w'.contests.Keys == w.contests.Keys && (c in w.contests ==> w'.contests[c].startedAt == w.contests[c].startedAt)
  {
    hide Inv, CancelRows;
    CancelRowsKeep(w, x, |w.participants|);
  }

  lemma {:induction false} RunQuorate(w: World, ops: seq<WorldOp>)
    requires Inv(w) && Quorate(w)
    ensures Quorate(RunWorld(w, ops))
    decreases |ops|
  {
    hide Inv, Perform, Quorate;
    if ops != [] {
      QuorateStep(w, ops[0]);
      PerformKeeps(w, ops[0]);
      RunQuorate(Perform(w, ops[0]).world, ops[1..]);
    }
  }

  lemma ReachedQuorate(ops: seq<WorldOp>)
    ensures Quorate(Reached(ops))
  {
    hide Inv, RunWorld, HasQuorum;
    EmptyInv();
    RunQuorate(EMPTY_WORLD, ops);
  }

  // ----- Moving the deadline as far as it goes -----

  lemma {:induction false} RunWorldConcat(w: World, ops: seq<WorldOp>, more: seq<WorldOp>)
    ensures RunWorld(w, ops + more) == RunWorld(RunWorld(w, ops), more)
    decreases |ops|
  {
    hide Perform;
    if ops == [] {
      assert ops + more == more;
    } else {
      assert (ops + more)[1..] == ops[1..] + more;
      RunWorldConcat(Perform(w, ops[0]).world, ops[1..], more);
    }
  }

  /** A pause long enough to lift the deadline to its cap. */
  function LongPause(c: Contest): int {
    (if c.startsAt > c.endsAt then c.startsAt - c.endsAt else 0) + 10 * MAX_LATE_JOIN_WINDOW
  }

  function StretchOps(c: Contest, contest: ContestId): seq<WorldOp> {
    if c.status == Running then [Pause(contest, 0), Resume(contest, LongPause(c))]
    else if c.status == Paused && c.pausedAt.Some? then [Resume(contest, c.pausedAt.value + LongPause(c))]
    else []
  }

  /** After it the contest's terms are the best ones still possible, and nothing else has changed. */
  lemma StretchWorks(w: World, contest: ContestId)
    requires Inv(w) && contest in w.contests && w.contests[contest].startedAt.Some? && HasQuorum(w, contest)
    ensures
      var c := w.contests[contest];
      var w' := RunWorld(w, StretchOps(c, contest));
      && contest in w'.contests && w' == w.(contests := w.contests[contest := w'.contests[contest]])
      && w'.contests[contest].startedAt.Some? && TermsIn(w'.contests[contest]) == BestTerms(c) && Inv(w')
  {
    hide Inv, HasQuorum;
    var c := w.contests[contest];
    StatusOf(w, contest);
    var ops := StretchOps(c, contest);
    RunKeeps(w, ops);
    if c.status == Running {
      var w1 := Perform(w, ops[0]).world;
      SameQuorum(w, w1, contest);
      assert ops[1..] == [ops[1]] && ops[1..][1..] == [];
      assert RunWorld(w1, ops[1..]) == Perform(w1, ops[1]).world;
      assert w1.contests[contest := Perform(w1, ops[1]).world.contests[contest]]
        == w.contests[contest := Perform(w1, ops[1]).world.contests[contest]];
    } else if c.status == Paused {
      assert ops[1..] == [];
    } else {
      assert w.contests[contest := w.contests[contest]] == w.contests;
    }
  }

  lemma SameQuorum(w: World, w': World, contest: ContestId)
    requires contest in w.contests && contest in w'.contests && w'.participants == w.participants
    requires w'.contests[contest].fee == w.contests[contest].fee
    requires w'.contests[contest].minParticipants == w.contests[contest].minParticipants
    ensures HasQuorum(w', contest) == HasQuorum(w, contest)
  {
  }

  /**
    Whether a started contest can still be frozen: in some continuation the snapshot is taken if and only if every live
    admission that would not be timed as charged even under the latest deadline still possible is active, so that it can
    be refunded.
   */
  lemma SnapshotReachableIff(w: World, contest: ContestId)
    requires Inv(w) && Quorate(w) && External(w.books) <= MAX_INT64 && contest in w.contests && contest !in w.snapshots
    requires w.contests[contest].startedAt.Some?
    requires w.contests[contest].fee > 0 && SplitEntryFee(w.contests[contest].fee, w.contests[contest].bps).1 > 0
    ensures (exists ops :: contest in RunWorld(w, ops).snapshots) <==>
      forall i :: 0 <= i < |w.participants| && Mistimed(BestTerms(w.contests[contest]), contest, w.participants[i]) ==>
        w.participants[i].status == Active
  {
    hide Inv, External, RunWorld, SplitEntryFee, TimedAsCharged, HasQuorum;
    var c := w.contests[contest];
    if i :| 0 <= i < |w.participants| && Mistimed(BestTerms(c), contest, w.participants[i]) && w.participants[i].status != Active {
      assert StuckAt(w, contest, i);
      forall ops ensures contest !in RunWorld(w, ops).snapshots {
        StuckForever(w, contest, i, ops);
      }
    } else {
      StretchWorks(w, contest);
      var stretch := StretchOps(c, contest);
      var w1 := RunWorld(w, stretch);
      var ops := RefundThenTake(w1, contest);
      RunWorldConcat(w, stretch, ops);
      assert contest in RunWorld(w, stretch + ops).snapshots;
    }
  }

  lemma RefundThenTake(w: World, contest: ContestId) returns (ops: seq<WorldOp>)
    requires Inv(w) && External(w.books) <= MAX_INT64 && contest in w.contests && contest !in w.snapshots
    requires w.contests[contest].startedAt.Some?
    requires w.contests[contest].fee > 0 && SplitEntryFee(w.contests[contest].fee, w.contests[contest].bps).1 > 0
    requires forall i :: 0 <= i < |w.participants| && Mistimed(TermsIn(w.contests[contest]), contest, w.participants[i]) ==>
      w.participants[i].status == Active
    ensures contest in RunWorld(w, ops).snapshots
  {
    hide Inv, External, RunWorld, SplitEntryFee, EnsureEconomicsCutoff, TimedAsCharged;
    var now := w.contests[contest].CutoffAt();
    var refunds, take := RefundOps(w.participants, TermsIn(w.contests[contest]), contest), TakeSnapshot(contest, now);
    RefundsUnblock(w, contest, now);
    RunWorldAppend(w, refunds, take);
    ops := refunds + [take];
  }
}
