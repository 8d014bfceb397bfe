/**
  What a row or a snapshot tells about the step that wrote it, in every run from an empty database.
 */
module ContestHistories {
  import opened Int64
  import opened Rows
  import opened Books
  import opened Economics
  import opened Contests
  import opened Cutoff
  import opened ClosedRuns
  import opened CustodyTheorems
  import opened CutoffRecovery
  import opened ContestEffects
  import opened CutoffEffects

  // ----- Snapshots -----

  /** This step took the cutoff of a started contest whose deadline then in force its clock had reached. */
  ghost predicate TookDue(w: World, op: WorldOp, contest: ContestId) {
    && op.TakeSnapshot? && op.contest == contest && contest in w.contests && contest !in w.snapshots
    && w.contests[contest].startedAt.Some?
    && !InLateWindow(op.now, w.contests[contest].startsAt, w.contests[contest].endsAt)
  }

  /** A snapshot appears only when a due cutoff is taken, and is never changed. */
  lemma SnapshotStep(w: World, op: WorldOp, contest: ContestId)
    requires Inv(w)
    ensures contest in w.snapshots ==>
      contest in Perform(w, op).world.snapshots && Perform(w, op).world.snapshots[contest] == w.snapshots[contest]
    ensures contest !in w.snapshots && contest in Perform(w, op).world.snapshots ==> TookDue(w, op, contest)
  {
    hide Inv, Join, RemoveParticipant, CancelContest, EnsureEconomicsCutoff, PostConfirmedDeposit, BeginTrading, HasQuorum,
      InLateWindow;
    match op
    case JoinContest(adm, joinedAt, now) => JoinShape(w, adm, joinedAt, now);
    case Remove(adm, refund) => RemoveShape(w, adm, refund);
    case Trade(adm) => RemoveShape(w, adm, false);
    case Cancel(c) => CancelKeeps(w, c);
    case TakeSnapshot(c, now) => RefusedBeforeAudit(w, c, now);
    case _ =>
  }

  ghost predicate TakenAt(ops: seq<WorldOp>, i: nat, contest: ContestId, snapshot: Snapshot) {
    && i < |ops| && TookDue(Reached(ops[..i]), ops[i], contest)
    && var later := Reached(ops[..i + 1]).snapshots; contest in later && later[contest] == snapshot
  }

  lemma ReachedStep(ops: seq<WorldOp>)
    requires ops != []
    ensures Reached(ops) == Perform(Reached(ops[..|ops| - 1]), ops[|ops| - 1]).world
  {
    hide Perform, RunWorld;
    assert ops == ops[..|ops| - 1] + [ops[|ops| - 1]];
    RunWorldAppend(EMPTY_WORLD, ops[..|ops| - 1], ops[|ops| - 1]);
  }

  /** Every snapshot of every run was taken at some step, when it was due, and has not changed since. */
  lemma {:induction false} SnapshotTakenDue(ops: seq<WorldOp>, contest: ContestId) returns (i: nat)
    requires contest in Reached(ops).snapshots
    ensures TakenAt(ops, i, contest, Reached(ops).snapshots[contest])
  {
    hide Perform, Reached, Inv, TookDue;
    if ops == [] {
      NoSnapshots(contest);
    }
    var n := |ops| - 1;
    var before := ops[..n];
    ReachedStep(ops);
    ReachedInv(before);
    SnapshotStep(Reached(before), ops[n], contest);
    if contest in Reached(before).snapshots {
      i := SnapshotTakenDue(before, contest);
      assert before[..i] == ops[..i] && before[..i + 1] == ops[..i + 1] && before[i] == ops[i];
    } else {
      i := n;
      assert ops[..n + 1] == ops;
    }
  }

  lemma NoSnapshots(contest: ContestId)
    ensures contest !in Reached([]).snapshots
  {
  }

  // ----- Participants -----

  /** This step joined the participant while the contest took joins, and charged what its status then asked for. */
  ghost predicate JoinedBy(w: World, op: WorldOp, p: Participant) {
    && op.JoinContest? && op.adm == p.adm && op.joinedAt == p.joinedAt && p.adm.contest in w.contests
    && TakesJoins(w.contests[p.adm.contest], op.now) && !OnTheList(w, p.adm)
    && var c := w.contests[p.adm.contest]; ChargeIs(p.charge, c.fee, c.bps, c.status == Running)
  }

  /** Only a join adds a row, and only one. */
  lemma NewRow(w: World, op: WorldOp)
    requires Inv(w)
    ensures var rows, rows' := w.participants, Perform(w, op).world.participants;
      && |rows| <= |rows'| <= |rows| + 1
      && (|rows'| > |rows| ==> JoinedBy(w, op, rows'[|rows|]))
  {
    hide Inv, Join, RemoveParticipant, CancelContest, EnsureEconomicsCutoff, PostConfirmedDeposit, BeginTrading, HasQuorum, JoinedBy;
    match op
    case JoinContest(adm, joinedAt, now) => NewRowOfJoin(w, adm, joinedAt, now);
    case Remove(adm, refund) => SameRows(w, adm, refund);
    case Trade(adm) => SameRows(w, adm, false);
    case Cancel(c) => if CancelContest(w, c).result == Ok { CancelEffect(w, c); } else { CancelKeeps(w, c); }
    case _ =>
  }

  lemma SameRows(w: World, adm: Admission, refund: bool)
    ensures |RemoveParticipant(w, adm, refund).world.participants| == |w.participants|
    ensures |BeginTrading(w, adm).world.participants| == |w.participants|
  {
    hide ReverseContestAdmission;
  }

  lemma NewRowOfJoin(w: World, adm: Admission, joinedAt: int, now: int)
    requires Inv(w)
    ensures var rows, r := w.participants, Join(w, adm, joinedAt, now);
      && |rows| <= |r.world.participants| <= |rows| + 1
      && (|r.world.participants| > |rows| ==> JoinedBy(w, JoinContest(adm, joinedAt, now), r.world.participants[|rows|]))
  {
    hide Inv, Join, ComputeJoinCharge, ChargeIs, TakesJoins, OnTheList, PaidIn;
    JoinRefusedIff(w, adm, joinedAt, now);
    if adm.contest in w.contests && TakesJoins(w.contests[adm.contest], now) && !OnTheList(w, adm) {
      var c := w.contests[adm.contest];
      PoolOf(w, adm.contest);
      ChargeFits(c.fee, c.bps, c.status == Running);
      JoinEffect(w, adm, joinedAt, now, ComputeJoinCharge(c.fee, c.bps, c.status == Running));
    }
  }

  ghost predicate JoinedAt(ops: seq<WorldOp>, i: nat, p: Participant) {
    i < |ops| && JoinedBy(Reached(ops[..i]), ops[i], p)
  }

  /** Every row of every run was written by one successful join, when the contest took joins, with the charge of its status. */
  lemma {:induction false} RowJoined(ops: seq<WorldOp>, k: nat) returns (i: nat)
    requires k < |Reached(ops).participants|
    ensures JoinedAt(ops, i, Reached(ops).participants[k])
  {
    hide Perform, Reached, Inv, JoinedBy;
    if ops == [] {
      NoRowsYet();
    }
    var n := |ops| - 1;
    var before := ops[..n];
    var w := Reached(before);
    ReachedStep(ops);
    ReachedInv(before);
    NewRow(w, ops[n]);
    if k < |w.participants| {
      i := RowJoined(before, k);
      PerformAdvances(w, ops[n]);
      SameJoin(Reached(before[..i]), before[i], w.participants[k], Reached(ops).participants[k]);
      assert before[..i] == ops[..i] && before[i] == ops[i];
    } else {
      i := n;
    }
  }

  lemma NoRowsYet()
    ensures Reached([]).participants == []
  {
  }

  lemma SameJoin(w: World, op: WorldOp, p: Participant, p': Participant)
    requires JoinedBy(w, op, p) && Advanced(p, p')
    ensures JoinedBy(w, op, p')
  {
  }

  // ----- Late charges -----

  ghost predicate LateRowOk(w: World, p: Participant) {
    p.charge.late ==>
      && p.adm.contest in w.contests && w.contests[p.adm.contest].startedAt.Some?
      && w.contests[p.adm.contest].fee > 0 && w.contests[p.adm.contest].lateJoin
  }

  ghost predicate LateRowsOk(w: World) {
    forall i :: 0 <= i < |w.participants| ==> LateRowOk(w, w.participants[i])
  }

  lemma LateRowsStep(w: World, op: WorldOp)
    requires Inv(w) && LateRowsOk(w)
    ensures LateRowsOk(Perform(w, op).world)
  {
    hide Inv, Perform, ChargeIs, InLateWindow, OnTheList;
    var w' := Perform(w, op).world;
    PerformAdvances(w, op);
    NewRow(w, op);
    forall i | 0 <= i < |w'.participants| && w'.participants[i].charge.late ensures LateRowOk(w', w'.participants[i]) {
      var contest := w'.participants[i].adm.contest;
      if i < |w.participants| {
        assert LateRowOk(w, w.participants[i]);
      } else {
        LateWhileRunning(w, op, w'.participants[i]);
      }
      ContestTermsKept(w, op, contest);
    }
  }

  lemma LateWhileRunning(w: World, op: WorldOp, p: Participant)
    requires Inv(w) && JoinedBy(w, op, p) && p.charge.late
    ensures p.adm.contest in w.contests
    ensures var c := w.contests[p.adm.contest]; c.status == Running && c.startedAt.Some? && c.fee > 0 && c.lateJoin
  {
    hide InLateWindow, OnTheList;
    StatusOf(w, p.adm.contest);
    hide Inv;
  }

  lemma {:induction false} RunLateRows(w: World, ops: seq<WorldOp>)
    requires Inv(w) && LateRowsOk(w)
    ensures LateRowsOk(RunWorld(w, ops))
    decreases |ops|
  {
    hide Inv, Perform, LateRowsOk;
    if ops != [] {
      LateRowsStep(w, ops[0]);
      PerformKeeps(w, ops[0]);
      RunLateRows(Perform(w, ops[0]).world, ops[1..]);
    }
  }

  /** In every run a participant charged the surcharge is in a contest that has started, costs money and allows late joins. */
  lemma LateIsPaid(ops: seq<WorldOp>, i: nat)
    requires i < |Reached(ops).participants| && Reached(ops).participants[i].charge.late
    ensures var w := Reached(ops); var contest := w.participants[i].adm.contest;
      && contest in w.contests && w.contests[contest].startedAt.Some?
      && w.contests[contest].fee > 0 && w.contests[contest].lateJoin
  {
    hide Inv, RunWorld;
    EmptyInv();
    RunLateRows(EMPTY_WORLD, ops);
    assert LateRowOk(Reached(ops), Reached(ops).participants[i]);
  }
}
