/**
  One-time codes for one phone: four expiring keys, five atomic scripts, and any number of senders and verifiers
  that interleave between the scripts. Times are milliseconds.
 */
module Otp {
  import opened Rows
  import opened RedisKeys

  type Sender = nat
  type Verifier = nat
  type Digest = string

  const OTP_TTL := 600_000
  const COOLDOWN := 60_000
  const MAX_ATTEMPTS := 5
  const RESERVATION_TTL := 30_000

  /** The keys of one phone. A reservation is identified with the sender that drew it: tokens are unique. */
  datatype Keys = Keys(pending: Key<Sender>, code: Key<Digest>, attempts: Key<nat>, cooldown: Key<bool>)

  // ----- The scripts -----

  /** Redis reports a remaining lifetime rounded to the nearest second. */
  function TtlSeconds(k: Key<bool>, now: int): int
    requires k.Present?
  {
    (k.expiresAt - now + 500) / 1000
  }

  datatype Reply = Reply(keys: Keys, result: int)

  function ReserveScript(k: Keys, reservation: Sender, now: int): Reply {
    if Exists(k.cooldown, now) then Reply(k, TtlSeconds(k.cooldown, now))
    else if Exists(k.pending, now) then Reply(k, -1)
    else Reply(k.(pending := Present(reservation, now + RESERVATION_TTL)), 0)
  }

  function ActivateScript(k: Keys, reservation: Sender, digest: Digest, now: int): Reply {
    if !(Exists(k.pending, now) && k.pending.value == reservation) then Reply(k, 0)
    else Reply(Keys(Absent, Present(digest, now + OTP_TTL), Absent, Present(true, now + COOLDOWN)), 1)
  }

  function CancelScript(k: Keys, reservation: Sender, now: int): Reply {
    if !(Exists(k.pending, now) && k.pending.value == reservation) then Reply(k, 0)
    else Reply(k.(cooldown := Present(true, now + COOLDOWN), pending := Absent), 1)
  }

  function RecordFailureScript(k: Keys, expected: Digest, now: int): Reply {
    if !(Exists(k.code, now) && k.code.value == expected) then Reply(k, -1)
    else
      var attempts := (if Exists(k.attempts, now) then k.attempts.value else 0) + 1;
      if attempts >= MAX_ATTEMPTS then Reply(k.(code := Absent, attempts := Absent, cooldown := Absent), 0)
      else Reply(k.(attempts := Present(attempts, now + OTP_TTL)), MAX_ATTEMPTS - attempts)
  }

  function ConsumeScript(k: Keys, expected: Digest, now: int): Reply {
    if !(Exists(k.code, now) && k.code.value == expected) then Reply(k, 0)
    else Reply(k.(code := Absent, attempts := Absent, cooldown := Absent), 1)
  }

  /** The store: each script runs atomically and changes its keys one command at a time. */
  class RedisOtpStore {
    var pending: Key<Sender>
    var code: Key<Digest>
    var attempts: Key<nat>
    var cooldown: Key<bool>

    function Contents(): Keys
      reads this
    {
      Keys(pending, code, attempts, cooldown)
    }

    constructor ()
      ensures Contents() == Keys(Absent, Absent, Absent, Absent)
    {
      pending, code, attempts, cooldown := Absent, Absent, Absent, Absent;
    }

    method Reserve(reservation: Sender, now: int) returns (result: int)
      modifies this`pending
      ensures Reply(Contents(), result) == ReserveScript(old(Contents()), reservation, now)
    {
      if Exists(cooldown, now) { return TtlSeconds(cooldown, now); }
      if Exists(pending, now) { return -1; }
      pending := Present(reservation, now + RESERVATION_TTL);
      return 0;
    }

    method Activate(reservation: Sender, digest: Digest, now: int) returns (result: int)
      modifies this
      ensures Reply(Contents(), result) == ActivateScript(old(Contents()), reservation, digest, now)
    {
      if !Exists(pending, now) || pending.value != reservation { return 0; }
      code := Present(digest, now + OTP_TTL);
      cooldown := Present(true, now + COOLDOWN);
      attempts, pending := Absent, Absent;
      return 1;
    }

    method Cancel(reservation: Sender, now: int) returns (result: int)
      modifies this`cooldown, this`pending
      ensures Reply(Contents(), result) == CancelScript(old(Contents()), reservation, now)
    {
      if Exists(pending, now) && pending.value == reservation {
        cooldown := Present(true, now + COOLDOWN);
        pending := Absent;
        return 1;
      }
      return 0;
    }

    method RecordFailure(expected: Digest, now: int) returns (result: int)
      modifies this`code, this`attempts, this`cooldown
      ensures Reply(Contents(), result) == RecordFailureScript(old(Contents()), expected, now)
    {
      if !Exists(code, now) || code.value != expected { return -1; }
      var count := (if Exists(attempts, now) then attempts.value else 0) + 1;
      attempts := Present(count, now + OTP_TTL);
      if count >= MAX_ATTEMPTS {
        code, attempts, cooldown := Absent, Absent, Absent;
        return 0;
      }
      return MAX_ATTEMPTS - count;
    }

    method Consume(expected: Digest, now: int) returns (result: int)
      modifies this`code, this`attempts, this`cooldown
      ensures Reply(Contents(), result) == ConsumeScript(old(Contents()), expected, now)
    {
      if !Exists(code, now) || code.value != expected { return 0; }
      code, attempts, cooldown := Absent, Absent, Absent;
      return 1;
    }
  }

  // ----- Interleaved senders and verifiers -----

  datatype Event =
    | Reserved(sender: Sender, t: int)
    | Activated(sender: Sender, digest: Digest, t: int)
    | Cancelled(sender: Sender, t: int)
    | Failure(t: int)
    | Exhausted(t: int)
    | Consumed(verifier: Verifier, digest: Digest, t: int)

  datatype Sending = Delivering | SendFinished

  datatype Verifying = Loaded(stored: Digest, candidate: Digest) | Verified(candidate: Digest) | NotVerified

  datatype State = State(
    keys: Keys, now: int, senders: map<Sender, Sending>, verifiers: map<Verifier, Verifying>, log: seq<Event>)

  /** One atomic step of one participant, or the passing of time. */
  datatype Action =
    | Tick(dt: nat)
    | StartSend(sender: Sender)
    | DeliveryAccepted(sender: Sender, digest: Digest)
    | DeliveryRefused(sender: Sender)
    | LoadCode(verifier: Verifier, candidate: Digest)
    | Compare(verifier: Verifier)

  function Note(log: seq<Event>, happened: bool, e: Event): seq<Event> {
    if happened then log + [e] else log
  }

  /** `SendOTP` up to delivery: a reply of zero means go ahead. */
  function DoStartSend(s: State, p: Sender): State {
    if p in s.senders then s
    else
      var r := ReserveScript(s.keys, p, s.now);
      s.(keys := r.keys,
         senders := s.senders[p := if r.result == 0 then Delivering else SendFinished],
         log := Note(s.log, r.keys != s.keys, Reserved(p, s.now)))
  }

  function DoActivate(s: State, p: Sender, digest: Digest): State {
    if !(p in s.senders && s.senders[p] == Delivering) then s
    else
      var r := ActivateScript(s.keys, p, digest, s.now);
      s.(keys := r.keys, senders := s.senders[p := SendFinished],
         log := Note(s.log, r.result == 1, Activated(p, digest, s.now)))
  }

  function DoCancel(s: State, p: Sender): State {
    if !(p in s.senders && s.senders[p] == Delivering) then s
    else
      var r := CancelScript(s.keys, p, s.now);
      s.(keys := r.keys, senders := s.senders[p := SendFinished],
         log := Note(s.log, r.result == 1, Cancelled(p, s.now)))
  }

  function DoLoad(s: State, v: Verifier, candidate: Digest): State {
    if v in s.verifiers then s
    else
      s.(verifiers := s.verifiers[v :=
        if Exists(s.keys.code, s.now) then Loaded(s.keys.code.value, candidate) else NotVerified])
  }

  /** Compare the loaded digest; then record a failure or consume, as a separate step from the load. */
  function DoCompare(s: State, v: Verifier): State {
    if !(v in s.verifiers && s.verifiers[v].Loaded?) then s
    else
      var Loaded(stored, candidate) := s.verifiers[v];
      if stored != candidate then
        var r := RecordFailureScript(s.keys, stored, s.now);
        s.(keys := r.keys, verifiers := s.verifiers[v := NotVerified],
           log := Note(Note(s.log, r.result > 0, Failure(s.now)), r.result == 0, Exhausted(s.now)))
      else
        var r := ConsumeScript(s.keys, stored, s.now);
        s.(keys := r.keys,
           verifiers := s.verifiers[v := if r.result == 1 then Verified(candidate) else NotVerified],
           log := Note(s.log, r.result == 1, Consumed(v, stored, s.now)))
  }

  function Next(s: State, a: Action): State {
    match a
    case Tick(dt) => s.(now := s.now + dt)
    case StartSend(p) => DoStartSend(s, p)
    case DeliveryAccepted(p, digest) => DoActivate(s, p, digest)
    case DeliveryRefused(p) => DoCancel(s, p)
    case LoadCode(v, candidate) => DoLoad(s, v, candidate)
    case Compare(v) => DoCompare(s, v)
  }

  const INITIAL := State(Keys(Absent, Absent, Absent, Absent), 0, map[], map[], [])

  function Run(s: State, actions: seq<Action>): State
    decreases |actions|
  {
    if actions == [] then s else Run(Next(s, actions[0]), actions[1..])
  }

  // ----- Reading the log backwards -----

  predicate Clears(e: Event) {
    e.Consumed? || e.Exhausted?
  }

  /** The activation still in force: the last one, unless a consume or an exhaustion came after it. */
  function InForce(log: seq<Event>): Option<Found<Event>>
    ensures InForce(log).Some? ==> InForce(log).value.id < |log| && InForce(log).value.row.Activated?
  {
    if log == [] then None
    else
      var last := |log| - 1;
      if log[last].Activated? then Some(Found(last, log[last]))
      else if Clears(log[last]) then None
      else InForce(log[..last])
  }

  /** Failures recorded since the activation in force. */
  function Failures(log: seq<Event>): nat {
    if log == [] then 0
    else
      var last := |log| - 1;
      if log[last].Activated? || Clears(log[last]) then 0
      else Failures(log[..last]) + (if log[last].Failure? then 1 else 0)
  }

  /** The last thing a sender did to the reservation. */
  function LastSend(log: seq<Event>): Option<Found<Event>>
    ensures LastSend(log).Some? ==> LastSend(log).value.id < |log|
  {
    if log == [] then None
    else
      var last := |log| - 1;
      if log[last].Reserved? || log[last].Activated? || log[last].Cancelled? then Some(Found(last, log[last]))
      else LastSend(log[..last])
  }

  /** What the cooldown still stands for: the last activation or cancellation, unless a code was cleared after it. */
  function Pacing(log: seq<Event>): Option<Found<Event>>
    ensures Pacing(log).Some? ==>
      Pacing(log).value.id < |log| && (Pacing(log).value.row.Activated? || Pacing(log).value.row.Cancelled?)
  {
    if log == [] then None
    else
      var last := |log| - 1;
      if log[last].Activated? || log[last].Cancelled? then Some(Found(last, log[last]))
      else if Clears(log[last]) then None
      else Pacing(log[..last])
  }

  lemma LogAppend(log: seq<Event>, e: Event)
    ensures (log + [e])[..|log|] == log
    ensures InForce(log + [e]) == if e.Activated? then Some(Found(|log|, e)) else if Clears(e) then None else InForce(log)
    ensures Failures(log + [e])
      == if e.Activated? || Clears(e) then 0 else Failures(log) + (if e.Failure? then 1 else 0)
    ensures LastSend(log + [e])
      == if e.Reserved? || e.Activated? || e.Cancelled? then Some(Found(|log|, e)) else LastSend(log)
    ensures Pacing(log + [e])
      == if e.Activated? || e.Cancelled? then Some(Found(|log|, e)) else if Clears(e) then None else Pacing(log)
  {
    assert (log + [e])[..|log|] == log;
  }

  // ----- What the history promises -----

  /** Between `i` and `j` a code was consumed or exhausted. */
  ghost predicate ClearedBetween(log: seq<Event>, i: int, j: int) {
    exists k :: 0 <= i < k < j <= |log| && Clears(log[k])
  }

  /** Two activations with no consume or exhaustion between them are a cooldown apart. */
  ghost predicate Spaced(log: seq<Event>) {
    forall i, j :: 0 <= i < j < |log| && log[i].Activated? && log[j].Activated? && !ClearedBetween(log, i, j) ==>
      log[j].t - log[i].t >= COOLDOWN
  }

  /** A sender activates within the lifetime of its own reservation, with no other sender's step in between. */
  ghost predicate OwnReservation(before: seq<Event>, e: Event)
    requires e.Activated?
  {
    match LastSend(before)
    case None => false
    case Some(f) => f.row.Reserved? && f.row.sender == e.sender && f.row.t <= e.t < f.row.t + RESERVATION_TTL
  }

  /** A consumed code is the one in force, within its lifetime. */
  ghost predicate ConsumesLive(before: seq<Event>, e: Event)
    requires e.Consumed?
  {
    match InForce(before)
    case None => false
    case Some(f) => f.row.digest == e.digest && f.row.t <= e.t < f.row.t + OTP_TTL
  }

  /** When an event may follow the events before it; a code is exhausted by exactly its fifth recorded failure. */
  ghost predicate Follows(before: seq<Event>, e: Event) {
    && (e.Activated? ==> OwnReservation(before, e))
    && (e.Consumed? ==> ConsumesLive(before, e))
    && (e.Failure? ==> InForce(before).Some? && Failures(before) < MAX_ATTEMPTS - 1)
    && (e.Exhausted? ==> InForce(before).Some? && Failures(before) == MAX_ATTEMPTS - 1)
  }

  ghost predicate History(log: seq<Event>) {
    && (forall i, j :: 0 <= i < j < |log| ==> log[i].t <= log[j].t)
    && Spaced(log)
    && (forall j :: 0 <= j < |log| ==> Follows(log[..j], log[j]))
  }

  // ----- The invariant -----

  /** The code and its attempt counter are exactly what the log says, expiry included. */
  ghost predicate CodeOk(k: Keys, log: seq<Event>) {
    match InForce(log)
    case None => k.code.Absent? && k.attempts.Absent?
    case Some(a) =>
      && k.code == Present(a.row.digest, a.row.t + OTP_TTL)
      && (Failures(log) == 0 ==> k.attempts.Absent?)
      && (Failures(log) > 0 ==>
            k.attempts.Present? && k.attempts.value == Failures(log) && k.attempts.expiresAt >= k.code.expiresAt)
  }

  /** The reservation key is exactly what the last sender step left. */
  ghost predicate PendingOk(pending: Key<Sender>, now: int, log: seq<Event>) {
    match LastSend(log)
    case None => pending.Absent?
    case Some(f) =>
      if f.row.Reserved? then pending == Present(f.row.sender, f.row.t + RESERVATION_TTL) && f.row.t <= now
      else pending.Absent?
  }

  /** The cooldown is a minute from the event it stands for, and no reservation precedes its end. */
  ghost predicate PacingOk(k: Keys, now: int, log: seq<Event>) {
    && PendingOk(k.pending, now, log)
    && match Pacing(log)
       case None => k.cooldown.Absent?
       case Some(a) =>
         && k.cooldown == Present(true, a.row.t + COOLDOWN)
         && (k.pending.Present? ==> k.pending.expiresAt - RESERVATION_TTL >= a.row.t + COOLDOWN)
  }

  /** A verifier that reported success left its consume in the log, with the digest the user presented. */
  ghost predicate SuccessLogged(log: seq<Event>, v: Verifier, digest: Digest) {
    exists j :: 0 <= j < |log| && log[j].Consumed? && log[j].verifier == v && log[j].digest == digest
  }

  ghost predicate VerifiersOk(verifiers: map<Verifier, Verifying>, log: seq<Event>) {
    forall v :: v in verifiers && verifiers[v].Verified? ==> SuccessLogged(log, v, verifiers[v].candidate)
  }

  ghost predicate Inv(s: State) {
    && History(s.log)
    && (forall i :: 0 <= i < |s.log| ==> s.log[i].t <= s.now)
    && CodeOk(s.keys, s.log) && PacingOk(s.keys, s.now, s.log) && VerifiersOk(s.verifiers, s.log)
  }

  // ----- Extending the history by one event -----

  /** What an event must satisfy against the log it is appended to. */
  ghost predicate Lawful(log: seq<Event>, e: Event) {
    && (forall i :: 0 <= i < |log| ==> log[i].t <= e.t)
    && (e.Activated? && InForce(log).Some? ==> e.t - InForce(log).value.row.t >= COOLDOWN)
    && Follows(log, e)
  }

  /** Only recorded failures move the count, so it stays below the limit. */
  lemma {:induction false} FailuresBelowLimit(log: seq<Event>, j: nat)
    requires j <= |log| && forall k :: 0 <= k < |log| ==> Follows(log[..k], log[k])
    ensures Failures(log[..j]) < MAX_ATTEMPTS
  {
    hide OwnReservation, ConsumesLive;
    if j > 0 {
      FailuresBelowLimit(log, j - 1);
      assert log[..j] == log[..j - 1] + [log[j - 1]];
      LogAppend(log[..j - 1], log[j - 1]);
    }
  }

  lemma PacingRow(log: seq<Event>)
    ensures Pacing(log).Some? ==> log[Pacing(log).value.id] == Pacing(log).value.row
    ensures Pacing(log).Some? ==>
      forall k :: Pacing(log).value.id < k < |log| ==> !Clears(log[k]) && !log[k].Activated? && !log[k].Cancelled?
  {
  }

  /** The activation in force is not later than the event the cooldown stands for. */
  lemma {:induction false} InForceIsPaced(log: seq<Event>)
    ensures InForce(log).Some? ==> Pacing(log).Some? && InForce(log).value.id <= Pacing(log).value.id
  {
    if log != [] { InForceIsPaced(log[..|log| - 1]); }
  }

  lemma InForceRow(log: seq<Event>)
    ensures InForce(log).Some? ==> log[InForce(log).value.id] == InForce(log).value.row
    ensures InForce(log).Some? ==>
      forall k :: InForce(log).value.id < k < |log| ==> !Clears(log[k]) && !log[k].Activated?
  {
  }

  /** An activation that nothing cleared is at or before the one in force. */
  lemma {:induction false} UnclearedIsInForce(log: seq<Event>, i: nat)
    requires i < |log| && log[i].Activated? && !ClearedBetween(log, i, |log|)
    ensures InForce(log).Some? && i <= InForce(log).value.id
  {
    var last := |log| - 1;
    if i < last {
      assert !Clears(log[last]);
      if !log[last].Activated? {
        var front := log[..last];
        assert forall k :: i < k < |front| ==> !Clears(log[k]) && front[k] == log[k];
        UnclearedIsInForce(front, i);
      }
    }
  }

  lemma SpacedAppend(log: seq<Event>, e: Event)
    requires History(log) && Lawful(log, e)
    ensures Spaced(log + [e])
  {
    hide Follows, InForce;
    var longer := log + [e];
    forall i, j |
      0 <= i < j < |longer| && longer[i].Activated? && longer[j].Activated? && !ClearedBetween(longer, i, j)
      ensures longer[j].t - longer[i].t >= COOLDOWN
    {
      assert forall k :: i < k < j ==> !Clears(longer[k]) && longer[k] == log[k];
      assert !ClearedBetween(log, i, j);
      if j == |log| {
        UnclearedIsInForce(log, i);
        InForceRow(log);
      }
    }
  }

  lemma HistoryAppend(log: seq<Event>, e: Event)
    requires History(log) && Lawful(log, e)
    ensures History(log + [e])
  {
    hide Spaced, Follows, InForce;
    var longer := log + [e];
    SpacedAppend(log, e);
    forall j | 0 <= j < |longer|
      ensures Follows(longer[..j], longer[j])
    {
      assert longer[..j] == if j < |log| then log[..j] else log;
    }
  }

  // ----- Every step keeps the invariant -----

  lemma LoggedStaysLogged(log: seq<Event>, e: Event, v: Verifier, digest: Digest)
    requires SuccessLogged(log, v, digest)
    ensures SuccessLogged(log + [e], v, digest)
  {
    var j :| 0 <= j < |log| && log[j].Consumed? && log[j].verifier == v && log[j].digest == digest;
    assert (log + [e])[j] == log[j];
  }

  lemma VerifiersKeep(s: State, e: Event)
    requires VerifiersOk(s.verifiers, s.log)
    ensures VerifiersOk(s.verifiers, s.log + [e])
  {
    forall v | v in s.verifiers && s.verifiers[v].Verified?
      ensures SuccessLogged(s.log + [e], v, s.verifiers[v].candidate)
    {
      LoggedStaysLogged(s.log, e, v, s.verifiers[v].candidate);
    }
  }

  /** Appending a lawful event keeps everything about the log itself. */
  lemma Logged(s: State, e: Event)
    requires Inv(s) && Lawful(s.log, e) && e.t == s.now
    ensures History(s.log + [e]) && (forall i :: 0 <= i < |s.log + [e]| ==> (s.log + [e])[i].t <= s.now)
    ensures VerifiersOk(s.verifiers, s.log + [e])
  {
    HistoryAppend(s.log, e);
    VerifiersKeep(s, e);
  }

  lemma StartSendKeeps(s: State, p: Sender)
    requires Inv(s)
    ensures Inv(DoStartSend(s, p))
  {
    hide History, VerifiersOk, InForce, Failures, LastSend, Pacing;
    if p !in s.senders && ReserveScript(s.keys, p, s.now).keys != s.keys {
      var e := Reserved(p, s.now);
      assert Lawful(s.log, e);
      LogAppend(s.log, e);
      Logged(s, e);
    }
  }

  lemma PacedActivation(s: State)
    requires Inv(s) && s.keys.pending.Present? && InForce(s.log).Some?
    ensures s.now - InForce(s.log).value.row.t >= COOLDOWN
  {
    hide InForce, Failures, LastSend, Pacing, Spaced, Follows, CodeOk, VerifiersOk;
    InForceIsPaced(s.log);
    InForceRow(s.log);
    PacingRow(s.log);
  }

  lemma ActivateKeeps(s: State, p: Sender, digest: Digest)
    requires Inv(s)
    ensures Inv(DoActivate(s, p, digest))
  {
    hide History, VerifiersOk, InForce, Failures, LastSend, Pacing;
    if p in s.senders && s.senders[p] == Delivering && ActivateScript(s.keys, p, digest, s.now).result == 1 {
      var e := Activated(p, digest, s.now);
      if InForce(s.log).Some? { PacedActivation(s); }
      assert Lawful(s.log, e);
      LogAppend(s.log, e);
      Logged(s, e);
    }
  }

  lemma CancelKeeps(s: State, p: Sender)
    requires Inv(s)
    ensures Inv(DoCancel(s, p))
  {
    hide History, VerifiersOk, InForce, Failures, LastSend, Pacing;
    if p in s.senders && s.senders[p] == Delivering && CancelScript(s.keys, p, s.now).result == 1 {
      var e := Cancelled(p, s.now);
      assert Lawful(s.log, e);
      LogAppend(s.log, e);
      Logged(s, e);
    }
  }

  /** The facts about the code in force that a verifier's second step relies on. */
  lemma LiveCode(s: State, expected: Digest)
    requires Inv(s) && Exists(s.keys.code, s.now) && s.keys.code.value == expected
    ensures InForce(s.log).Some? && InForce(s.log).value.row.digest == expected
    ensures InForce(s.log).value.row.t <= s.now < InForce(s.log).value.row.t + OTP_TTL
    ensures Failures(s.log) < MAX_ATTEMPTS
    ensures Failures(s.log) == if Exists(s.keys.attempts, s.now) then s.keys.attempts.value else 0
  {
    hide Follows, InForce, Failures, Spaced, PacingOk, VerifiersOk;
    InForceRow(s.log);
    FailuresBelowLimit(s.log, |s.log|);
    assert s.log[..|s.log|] == s.log;
  }

  lemma FailureKeeps(s: State, expected: Digest)
    requires Inv(s)
    ensures
      var r := RecordFailureScript(s.keys, expected, s.now);
      Inv(s.(keys := r.keys, log := Note(Note(s.log, r.result > 0, Failure(s.now)), r.result == 0, Exhausted(s.now))))
  {
    hide History, VerifiersOk, InForce, Failures, LastSend, Pacing;
    var r := RecordFailureScript(s.keys, expected, s.now);
    if r.result >= 0 {
      var e := if r.result > 0 then Failure(s.now) else Exhausted(s.now);
      LiveCode(s, expected);
      assert Lawful(s.log, e);
      LogAppend(s.log, e);
      Logged(s, e);
    }
  }

  lemma ConsumeKeeps(s: State, v: Verifier, expected: Digest)
    requires Inv(s)
    ensures
      var r := ConsumeScript(s.keys, expected, s.now);
      Inv(s.(keys := r.keys, log := Note(s.log, r.result == 1, Consumed(v, expected, s.now))))
  {
    hide History, VerifiersOk, InForce, Failures, LastSend, Pacing;
    if ConsumeScript(s.keys, expected, s.now).result == 1 {
      var e := Consumed(v, expected, s.now);
      LiveCode(s, expected);
      assert Lawful(s.log, e);
      LogAppend(s.log, e);
      Logged(s, e);
    }
  }

  lemma CompareKeeps(s: State, v: Verifier)
    requires Inv(s)
    ensures Inv(DoCompare(s, v))
  {
    hide History, InForce, Failures, LastSend, Pacing, Lawful, CodeOk, PacingOk;
    if v in s.verifiers && s.verifiers[v].Loaded? {
      var Loaded(stored, candidate) := s.verifiers[v];
      if stored != candidate {
        FailureKeeps(s, stored);
      } else {
        ConsumeKeeps(s, v, stored);
        var r := ConsumeScript(s.keys, stored, s.now);
        if r.result == 1 {
          var log := s.log + [Consumed(v, stored, s.now)];
          assert log[|s.log|] == Consumed(v, stored, s.now);
          assert SuccessLogged(log, v, candidate);
        }
      }
    }
  }

  lemma NextKeeps(s: State, a: Action)
    requires Inv(s)
    ensures Inv(Next(s, a))
  {
    hide History, InForce, Failures, LastSend, Pacing;
    match a
    case Tick(_) =>
    case StartSend(p) => StartSendKeeps(s, p);
    case DeliveryAccepted(p, digest) => ActivateKeeps(s, p, digest);
    case DeliveryRefused(p) => CancelKeeps(s, p);
    case LoadCode(_, _) =>
    case Compare(v) => CompareKeeps(s, v);
  }

  lemma {:induction false} RunKeeps(s: State, actions: seq<Action>)
    requires Inv(s)
    ensures Inv(Run(s, actions))
    decreases |actions|
  {
    hide Inv, Next;
    if actions != [] {
      NextKeeps(s, actions[0]);
      RunKeeps(Next(s, actions[0]), actions[1..]);
    }
  }

  // ----- The promises, over every interleaving -----

  /** The log after any interleaving of senders, verifiers and the clock. */
  function LogOf(actions: seq<Action>): seq<Event> {
    Run(INITIAL, actions).log
  }

  lemma Reachable(actions: seq<Action>)
    ensures Inv(Run(INITIAL, actions)) && History(LogOf(actions))
  {
    assert Inv(INITIAL);
    RunKeeps(INITIAL, actions);
  }

  /** Two activations are a minute apart unless a consume or an exhaustion lies between them. */
  lemma ActivationsSpaced(actions: seq<Action>, i: nat, j: nat)
    requires i < j < |LogOf(actions)| && LogOf(actions)[i].Activated? && LogOf(actions)[j].Activated?
    ensures LogOf(actions)[j].t - LogOf(actions)[i].t >= 60_000 || exists k :: i < k < j && Clears(LogOf(actions)[k])
  {
    hide Run, InForce, Failures, LastSend, Pacing, CodeOk, PacingOk, VerifiersOk;
    Reachable(actions);
  }

  predicate SenderStep(e: Event) {
    e.Reserved? || e.Activated? || e.Cancelled?
  }

  lemma LastSendRow(log: seq<Event>)
    ensures LastSend(log).Some? ==>
      && log[LastSend(log).value.id] == LastSend(log).value.row
      && forall k :: LastSend(log).value.id < k < |log| ==> !SenderStep(log[k])
  {
  }

  /**
    A code is written only by the sender that holds the reservation: it reserved less than thirty seconds ago and
    no sender reserved, activated or cancelled since. A sender whose reservation lapsed overwrites nothing.
   */
  lemma LapsedSenderNeverOverwrites(actions: seq<Action>, j: nat)
    requires j < |LogOf(actions)| && LogOf(actions)[j].Activated?
    ensures exists i: nat ::
      && i < j && LogOf(actions)[i] == Reserved(LogOf(actions)[j].sender, LogOf(actions)[i].t)
      && LogOf(actions)[i].t <= LogOf(actions)[j].t < LogOf(actions)[i].t + 30_000
      && forall k :: i < k < j ==> !SenderStep(LogOf(actions)[k])
  {
    hide Run, InForce, Failures, LastSend, Pacing, CodeOk, PacingOk, VerifiersOk, Spaced;
    Reachable(actions);
    var log := LogOf(actions);
    LastSendRow(log[..j]);
    assert Follows(log[..j], log[j]);
    var i := LastSend(log[..j]).value.id;
    assert forall k :: 0 <= k < j ==> log[..j][k] == log[k];
    assert log[i].Reserved?;
  }

  /** Failures recorded in `log[i..j]`, the exhausting one included. */
  function Recorded(log: seq<Event>, i: nat, j: nat): nat
    requires i <= j <= |log|
    decreases j
  {
    if i == j then 0 else Recorded(log, i, j - 1) + (if log[j - 1].Failure? || log[j - 1].Exhausted? then 1 else 0)
  }

  /** From an activation to any later moment before the next one. */
  lemma {:induction false} AttemptsSince(log: seq<Event>, i: nat, j: nat)
    requires History(log) && i < j <= |log| && log[i].Activated?
    requires forall k :: i < k < j ==> !log[k].Activated?
    ensures Recorded(log, i, j) <= MAX_ATTEMPTS
    ensures InForce(log[..j]).Some? ==> Recorded(log, i, j) == Failures(log[..j])
    ensures (exists k :: i < k < j && Clears(log[k])) ==> InForce(log[..j]).None?
  {
    hide Spaced, OwnReservation, ConsumesLive, LastSend;
    var before, e := log[..j - 1], log[j - 1];
    assert log[..j] == before + [e];
    LogAppend(before, e);
    if i < j - 1 {
      AttemptsSince(log, i, j - 1);
      assert Follows(before, e);
    }
  }

  /**
    The live attempt counter: it equals the failures recorded since the activation in force, stays below the limit,
    and never disappears before the code does.
   */
  lemma AttemptCounter(actions: seq<Action>)
    ensures
      var s := Run(INITIAL, actions);
      Exists(s.keys.code, s.now) ==>
        exists i: nat ::
          && i < |s.log| && s.log[i].Activated? && s.log[i].digest == s.keys.code.value
          && s.keys.code.expiresAt == s.log[i].t + 600_000
          && (forall k :: i < k < |s.log| ==> !s.log[k].Activated? && !Clears(s.log[k]))
          && Recorded(s.log, i, |s.log|) == (if Exists(s.keys.attempts, s.now) then s.keys.attempts.value else 0)
          && Recorded(s.log, i, |s.log|) < 5
          && (s.keys.attempts.Present? ==> s.keys.attempts.expiresAt >= s.keys.code.expiresAt)
  {
    hide Run, InForce, Failures, LastSend, Pacing, PacingOk, VerifiersOk, Spaced;
    Reachable(actions);
    var s := Run(INITIAL, actions);
    if Exists(s.keys.code, s.now) {
      LiveCode(s, s.keys.code.value);
      InForceRow(s.log);
      assert s.log[..|s.log|] == s.log;
      var i := InForce(s.log).value.id;
      AttemptsSince(s.log, i, |s.log|);
      assert s.log[i].Activated?;
    }
  }

  /** The activation at `i` was neither replaced, nor used, nor exhausted before `j`. */
  ghost predicate StillInForce(log: seq<Event>, i: nat, j: nat)
    requires j <= |log|
  {
    && i < j && log[i].Activated?
    && forall k :: i < k < j ==> !log[k].Activated? && !Clears(log[k])
  }

  /** What a consume in the log says about the activation it consumed. */
  lemma ConsumedInForce(log: seq<Event>, j: nat) returns (i: nat)
    requires History(log) && j < |log| && log[j].Consumed?
    ensures StillInForce(log, i, j) && log[i].digest == log[j].digest && log[i].t <= log[j].t < log[i].t + OTP_TTL
  {
    hide Spaced, InForce, Failures, LastSend, Pacing;
    InForceRow(log[..j]);
    assert Follows(log[..j], log[j]);
    i := InForce(log[..j]).value.id;
    assert forall m :: 0 <= m < j ==> log[..j][m] == log[m];
  }

  /** After five recorded failures the activation is not in force any more. */
  lemma FifthClears(log: seq<Event>, i: nat, j: nat, k: nat, a: nat)
    requires History(log) && i < j <= k <= |log| && log[i].Activated?
    requires forall m :: i < m < j ==> !log[m].Activated?
    requires Recorded(log, i, j) == MAX_ATTEMPTS && StillInForce(log, a, k)
    ensures j <= a
  {
    hide Spaced, LastSend, InForce, Failures, Follows, Recorded;
    AttemptsSince(log, i, j);
    FailuresBelowLimit(log, j);
    if a < j {
      assert log[..j][a] == log[a];
      UnclearedIsInForce(log[..j], a);
    }
  }

  /** One activation absorbs at most five recorded failures, and nothing is consumed after the fifth. */
  lemma AttemptBound(actions: seq<Action>, i: nat, j: nat)
    requires i < j <= |LogOf(actions)| && LogOf(actions)[i].Activated?
    requires forall k :: i < k < j ==> !LogOf(actions)[k].Activated?
    ensures Recorded(LogOf(actions), i, j) <= 5
    ensures Recorded(LogOf(actions), i, j) == 5 ==>
      forall k :: j <= k < |LogOf(actions)| && LogOf(actions)[k].Consumed? ==>
        exists a :: j <= a < k && LogOf(actions)[a].Activated?
  {
    hide Inv, Run, History, Recorded;
    Reachable(actions);
    var log := LogOf(actions);
    AttemptsSince(log, i, j);
    if Recorded(log, i, j) == 5 {
      forall k | j <= k < |log| && log[k].Consumed?
        ensures exists a :: j <= a < k && log[a].Activated?
      {
        var a := ConsumedInForce(log, k);
        FifthClears(log, i, j, k, a);
      }
    }
  }

  /** Between two successful verifications there is an activation, of the code the later one consumed. */
  lemma SingleUse(actions: seq<Action>, i: nat, j: nat)
    requires i < j < |LogOf(actions)| && LogOf(actions)[i].Consumed? && LogOf(actions)[j].Consumed?
    ensures exists k :: i < k < j && LogOf(actions)[k].Activated? && LogOf(actions)[k].digest == LogOf(actions)[j].digest
  {
    hide Inv, Run, History;
    Reachable(actions);
    var k := ConsumedInForce(LogOf(actions), j);
    assert LogOf(actions)[k].Activated?;
  }

  /**
    A verification that reports success presented the digest that was live at its consume step: activated less than
    ten minutes before, not replaced, not used and not exhausted since.
   */
  lemma SuccessPresentedLiveDigest(actions: seq<Action>, v: Verifier)
    requires v in Run(INITIAL, actions).verifiers && Run(INITIAL, actions).verifiers[v].Verified?
    ensures exists i: nat, j: nat ::
      && j < |LogOf(actions)| && StillInForce(LogOf(actions), i, j)
      && LogOf(actions)[j] == Consumed(v, LogOf(actions)[i].digest, LogOf(actions)[j].t)
      && LogOf(actions)[i].digest == Run(INITIAL, actions).verifiers[v].candidate
      && LogOf(actions)[i].t <= LogOf(actions)[j].t < LogOf(actions)[i].t + 600_000
  {
    hide Run, History, CodeOk, PacingOk;
    Reachable(actions);
    var log, candidate := LogOf(actions), Run(INITIAL, actions).verifiers[v].candidate;
    assert SuccessLogged(log, v, candidate);
    var j: nat :| j < |log| && log[j].Consumed? && log[j].verifier == v && log[j].digest == candidate;
    var i := ConsumedInForce(log, j);
  }

  // ----- When the keys exist, read off the history -----

  /** An activation or cancellation less than a minute old, with no code used up since. */
  ghost predicate CoolingFrom(log: seq<Event>, i: nat, now: int) {
    && i < |log| && (log[i].Activated? || log[i].Cancelled?) && now < log[i].t + 60_000
    && forall k :: i < k < |log| ==> !Clears(log[k])
  }

  lemma {:induction false} UnclearedIsPaced(log: seq<Event>, i: nat)
    requires i < |log| && (log[i].Activated? || log[i].Cancelled?) && forall k :: i < k < |log| ==> !Clears(log[k])
    ensures Pacing(log).Some? && i <= Pacing(log).value.id
  {
    var last := |log| - 1;
    if i < last && !log[last].Activated? && !log[last].Cancelled? {
      var front := log[..last];
      assert forall k :: i < k < |front| ==> front[k] == log[k];
      UnclearedIsPaced(front, i);
    }
  }

  /**
    The cooldown is exact: it is on iff a code was activated or a delivery cancelled within the last minute and no code
    was consumed or exhausted since. So success and exhaustion free the phone at once, and nothing else does.
   */
  lemma CooldownIff(actions: seq<Action>)
    ensures
      var s := Run(INITIAL, actions);
      Exists(s.keys.cooldown, s.now) <==> exists i: nat :: CoolingFrom(s.log, i, s.now)
  {
    hide Run, InForce, Failures, LastSend, Pacing, CodeOk, VerifiersOk, Spaced, Follows;
    Reachable(actions);
    var s := Run(INITIAL, actions);
    PacingRow(s.log);
    if Exists(s.keys.cooldown, s.now) {
      assert CoolingFrom(s.log, Pacing(s.log).value.id, s.now);
    }
    if i: nat :| CoolingFrom(s.log, i, s.now) {
      UnclearedIsPaced(s.log, i);
    }
  }

  /**
    A digest can be consumed iff it was activated less than ten minutes ago and has been neither replaced, nor used, nor
    exhausted: the right code always works, and only the right code does.
   */
  lemma ConsumableIff(actions: seq<Action>, digest: Digest)
    ensures
      var s := Run(INITIAL, actions);
      ConsumeScript(s.keys, digest, s.now).result == 1 <==>
        exists i: nat :: StillInForce(s.log, i, |s.log|) && s.log[i].digest == digest && s.now < s.log[i].t + 600_000
  {
    hide Run, InForce, Failures, LastSend, Pacing, PacingOk, VerifiersOk, Spaced, Follows;
    Reachable(actions);
    var s := Run(INITIAL, actions);
    InForceRow(s.log);
    if ConsumeScript(s.keys, digest, s.now).result == 1 {
      assert StillInForce(s.log, InForce(s.log).value.id, |s.log|);
    }
    if i: nat :| StillInForce(s.log, i, |s.log|) && s.log[i].digest == digest && s.now < s.log[i].t + 600_000 {
      UnclearedIsInForce(s.log, i);
    }
  }

  // ----- Which deliveries store their code -----

  /** The sender reserved less than thirty seconds ago, and no sender did anything since. */
  ghost predicate HoldsReservation(log: seq<Event>, p: Sender, now: int) {
    exists i: nat :: HeldSince(log, i, p, now)
  }

  ghost predicate HeldSince(log: seq<Event>, i: nat, p: Sender, now: int) {
    && i < |log| && log[i] == Reserved(p, log[i].t) && now < log[i].t + 30_000
    && forall k :: i < k < |log| ==> !SenderStep(log[k])
  }

  lemma {:induction false} LastSendIs(log: seq<Event>, i: nat)
    requires i < |log| && SenderStep(log[i]) && forall k :: i < k < |log| ==> !SenderStep(log[k])
    ensures LastSend(log) == Some(Found(i, log[i]))
  {
    if i < |log| - 1 {
      var front := log[..|log| - 1];
      assert forall k :: i < k < |front| ==> front[k] == log[k];
      LastSendIs(front, i);
    }
  }

  lemma HoldsIff(log: seq<Event>, p: Sender, now: int)
    ensures HoldsReservation(log, p, now) <==>
      LastSend(log).Some? && LastSend(log).value.row.Reserved? && LastSend(log).value.row.sender == p
      && now < LastSend(log).value.row.t + RESERVATION_TTL
  {
    hide LastSend;
    LastSendRow(log);
    if i: nat :| HeldSince(log, i, p, now) { LastSendIs(log, i); }
    var f := LastSend(log);
    if f.Some? && f.value.row == Reserved(p, f.value.row.t) && now < f.value.row.t + RESERVATION_TTL {
      assert HeldSince(log, f.value.id, p, now);
    }
  }

  /**
    Over every interleaving: a sender whose delivery is accepted stores its code if and only if it holds the reservation
    at that moment.
   */
  lemma DeliveryStoresIff(actions: seq<Action>, p: Sender, digest: Digest)
    requires var s := Run(INITIAL, actions); p in s.senders && s.senders[p] == Delivering
    ensures
      var s := Run(INITIAL, actions);
      var t := Next(s, DeliveryAccepted(p, digest));
      && (t.log == s.log + [Activated(p, digest, s.now)] <==> HoldsReservation(s.log, p, s.now))
      && (t.log == s.log || t.log == s.log + [Activated(p, digest, s.now)])
  {
    hide Run, InForce, Failures, LastSend, Pacing, CodeOk, VerifiersOk, History, HoldsReservation;
    Reachable(actions);
    HoldsIff(Run(INITIAL, actions).log, p, Run(INITIAL, actions).now);
  }

  /** Only a sender that has finished left an activation. */
  ghost predicate SendersOk(s: State) {
    forall j :: 0 <= j < |s.log| && s.log[j].Activated? ==>
      s.log[j].sender in s.senders && s.senders[s.log[j].sender] == SendFinished
  }

  /** The sender is through and never stored a code. */
  ghost predicate SentInVain(s: State, p: Sender) {
    && p in s.senders && s.senders[p] == SendFinished
    && forall j :: 0 <= j < |s.log| && s.log[j].Activated? ==> s.log[j].sender != p
  }

  lemma SendersStep(s: State, a: Action)
    ensures SendersOk(s) ==> SendersOk(Next(s, a))
    ensures forall p :: SentInVain(s, p) ==> SentInVain(Next(s, a), p)
  {
  }

  lemma {:induction false} SendersRun(s: State, actions: seq<Action>)
    ensures SendersOk(s) ==> SendersOk(Run(s, actions))
    ensures forall p :: SentInVain(s, p) ==> SentInVain(Run(s, actions), p)
    decreases |actions|
  {
    hide Next, SendersOk, SentInVain;
    if actions != [] {
      SendersStep(s, actions[0]);
      SendersRun(Next(s, actions[0]), actions[1..]);
    }
  }

  /** A code delivered without holding the reservation is never stored, whatever happens afterwards. */
  lemma LostForever(actions: seq<Action>, p: Sender, digest: Digest, more: seq<Action>, j: nat)
    requires var s := Run(INITIAL, actions);
      p in s.senders && s.senders[p] == Delivering && !HoldsReservation(s.log, p, s.now)
    requires j < |Run(Next(Run(INITIAL, actions), DeliveryAccepted(p, digest)), more).log|
    ensures
      var e := Run(Next(Run(INITIAL, actions), DeliveryAccepted(p, digest)), more).log[j];
      e.Activated? ==> e.sender != p
  {
    hide Run, HoldsReservation, ActivateScript;
    var s := Run(INITIAL, actions);
    assert SendersOk(INITIAL);
    SendersRun(INITIAL, actions);
    DeliveryStoresIff(actions, p, digest);
    var t := Next(s, DeliveryAccepted(p, digest));
    assert SentInVain(t, p);
    SendersRun(t, more);
  }

  // ----- What a zero reply to a reservation means -----

  /**
    Zero is read as "reserved", but it is also the rounded lifetime of a cooldown in its last half second: the sender
    then delivers a code without holding a reservation.
   */
  lemma GoAheadIff(k: Keys, p: Sender, now: int)
    ensures ReserveScript(k, p, now).result == 0 <==>
      || (Exists(k.cooldown, now) && k.cooldown.expiresAt - now < 500)
      || (!Exists(k.cooldown, now) && !Exists(k.pending, now))
    ensures ReserveScript(k, p, now).result == 0 && Exists(k.cooldown, now) ==> ReserveScript(k, p, now).keys == k
  {
  }

  /** A run in which a second code is sent to the phone, without a reservation, and can never be verified. */
  lemma UnreservedSendIsLost()
    ensures
      var first := [StartSend(1), DeliveryAccepted(1, "a"), Tick(59_900), StartSend(2)];
      var s := Run(INITIAL, first);
      && s.log == [Reserved(1, 0), Activated(1, "a", 0)] && 2 in s.senders && s.senders[2] == Delivering
      && Next(s, DeliveryAccepted(2, "b")).log == s.log
  {
    var s1 := Next(INITIAL, StartSend(1));
    var s2 := Next(s1, DeliveryAccepted(1, "a"));
    var s3 := Next(s2, Tick(59_900));
    var s4 := Next(s3, StartSend(2));
    var w := [StartSend(1), DeliveryAccepted(1, "a"), Tick(59_900), StartSend(2)];
    assert w[1..][1..] == w[2..] && w[2..][1..] == w[3..] && w[3..][1..] == [];
    assert Run(s3, w[3..]) == s4;
    assert Run(s2, w[2..]) == Run(s3, w[3..]);
    assert Run(s1, w[1..]) == Run(s2, w[2..]);
  }
}
