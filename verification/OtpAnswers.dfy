/**
  The answer of every step of a sender or a verifier, over every interleaving, read off the history alone.
 */
module OtpAnswers {
  import opened Rows
  import opened RedisKeys
  import opened Otp

  /** The activation at `i` is in force, for this digest, and less than ten minutes old. */
  ghost predicate LiveAt(log: seq<Event>, i: nat, digest: Digest, now: int) {
    i < |log| && StillInForce(log, i, |log|) && log[i].Activated? && log[i].digest == digest && now < log[i].t + 600_000
  }

  ghost predicate LiveDigest(log: seq<Event>, digest: Digest, now: int) {
    exists i: nat :: LiveAt(log, i, digest, now)
  }

  lemma OneInForce(log: seq<Event>, i: nat, j: nat)
    requires StillInForce(log, i, |log|) && StillInForce(log, j, |log|)
    ensures i == j
  {
  }

  /** The code key holds exactly the live digest. */
  lemma CodeIff(actions: seq<Action>, digest: Digest)
    ensures var s := Run(INITIAL, actions);
      LiveDigest(s.log, digest, s.now) <==> Exists(s.keys.code, s.now) && s.keys.code.value == digest
  {
    hide Run;
    var s := Run(INITIAL, actions);
    ConsumableIff(actions, digest);
    if i: nat :| StillInForce(s.log, i, |s.log|) && s.log[i].digest == digest && s.now < s.log[i].t + 600_000 {
      assert LiveAt(s.log, i, digest, s.now);
    }
    if LiveDigest(s.log, digest, s.now) {
      var i: nat :| LiveAt(s.log, i, digest, s.now);
    }
  }

  // ----- Verifiers -----

  /** A first load yields the live digest, or ends the verification iff there is none. */
  lemma LoadAnswers(actions: seq<Action>, v: Verifier, candidate: Digest)
    requires v !in Run(INITIAL, actions).verifiers
    ensures
      var s := Run(INITIAL, actions);
      var t := Next(s, LoadCode(v, candidate));
      && v in t.verifiers && t == s.(verifiers := s.verifiers[v := t.verifiers[v]])
      && (forall d :: t.verifiers[v] == Loaded(d, candidate) <==> LiveDigest(s.log, d, s.now))
      && (t.verifiers[v] == NotVerified <==> forall d :: !LiveDigest(s.log, d, s.now))
      && (t.verifiers[v] == NotVerified || t.verifiers[v].Loaded?)
  {
    hide Run, LiveDigest;
    var s := Run(INITIAL, actions);
    forall d ensures LiveDigest(s.log, d, s.now) <==> Exists(s.keys.code, s.now) && s.keys.code.value == d {
      CodeIff(actions, d);
    }
    if Exists(s.keys.code, s.now) { assert LiveDigest(s.log, s.keys.code.value, s.now); }
  }

  /** The failures recorded against a live digest are what its counter says. */
  lemma CounterOf(actions: seq<Action>, i: nat, digest: Digest)
    requires var s := Run(INITIAL, actions); LiveAt(s.log, i, digest, s.now)
    ensures var s := Run(INITIAL, actions);
      && Recorded(s.log, i, |s.log|) == (if Exists(s.keys.attempts, s.now) then s.keys.attempts.value else 0)
      && Recorded(s.log, i, |s.log|) < 5
  {
    hide Run, Recorded;
    var s := Run(INITIAL, actions);
    assert LiveDigest(s.log, digest, s.now);
    CodeIff(actions, digest);
    AttemptCounter(actions);
    var k: nat :| k < |s.log| && s.log[k].Activated? && s.log[k].digest == s.keys.code.value
      && (forall m :: k < m < |s.log| ==> !s.log[m].Activated? && !Clears(s.log[m]))
      && Recorded(s.log, k, |s.log|) == (if Exists(s.keys.attempts, s.now) then s.keys.attempts.value else 0)
      && Recorded(s.log, k, |s.log|) < 5;
    OneInForce(s.log, i, k);
  }

  /**
    The second step of a verification. The right code succeeds iff it is still live, and then leaves exactly its consume
    in the log; a wrong one records exactly one failure iff the loaded code is still live, the fifth one exhausting it.
   */
  lemma CompareAnswers(actions: seq<Action>, v: Verifier)
    requires v in Run(INITIAL, actions).verifiers && Run(INITIAL, actions).verifiers[v].Loaded?
    ensures
      var s := Run(INITIAL, actions);
      var t := Next(s, Compare(v));
      var Loaded(stored, candidate) := s.verifiers[v];
      && v in t.verifiers && t == s.(keys := t.keys, verifiers := s.verifiers[v := t.verifiers[v]], log := t.log)
      && (t.verifiers[v] == Verified(candidate) <==> stored == candidate && LiveDigest(s.log, stored, s.now))
      && (t.verifiers[v] != Verified(candidate) ==> t.verifiers[v] == NotVerified)
      && (!LiveDigest(s.log, stored, s.now) ==> t.log == s.log && t.keys == s.keys)
      && (stored == candidate && LiveDigest(s.log, stored, s.now) ==> t.log == s.log + [Consumed(v, stored, s.now)])
      && (stored != candidate ==>
            forall i: nat :: LiveAt(s.log, i, stored, s.now) ==>
              t.log == s.log + [if Recorded(s.log, i, |s.log|) == 4 then Exhausted(s.now) else Failure(s.now)])
  {
    hide Run, LiveDigest, StillInForce, Recorded;
    var s := Run(INITIAL, actions);
    var Loaded(stored, candidate) := s.verifiers[v];
    CodeIff(actions, stored);
    if stored != candidate {
      forall i: nat | LiveAt(s.log, i, stored, s.now)
        ensures LiveDigest(s.log, stored, s.now)
        ensures Recorded(s.log, i, |s.log|) == (if Exists(s.keys.attempts, s.now) then s.keys.attempts.value else 0)
        ensures Recorded(s.log, i, |s.log|) < 5
      {
        CounterOf(actions, i, stored);
        LiveAtIsLive(s.log, i, stored, s.now);
      }
    }
  }

  lemma LiveAtIsLive(log: seq<Event>, i: nat, digest: Digest, now: int)
    requires LiveAt(log, i, digest, now)
    ensures LiveDigest(log, digest, now)
  {
  }

  /** What a failure answers: the attempts left, none at the fifth, or minus one iff the code is no longer live. */
  lemma FailureReply(actions: seq<Action>, stored: Digest)
    ensures
      var s := Run(INITIAL, actions);
      var left := RecordFailureScript(s.keys, stored, s.now).result;
      && (left == -1 <==> !LiveDigest(s.log, stored, s.now))
      && forall i: nat :: LiveAt(s.log, i, stored, s.now) ==> left == 4 - Recorded(s.log, i, |s.log|)
  {
    hide Run, LiveDigest, StillInForce, Recorded;
    var s := Run(INITIAL, actions);
    CodeIff(actions, stored);
    forall i: nat | LiveAt(s.log, i, stored, s.now)
      ensures LiveDigest(s.log, stored, s.now)
      ensures Recorded(s.log, i, |s.log|) == (if Exists(s.keys.attempts, s.now) then s.keys.attempts.value else 0)
    {
      CounterOf(actions, i, stored);
      LiveAtIsLive(s.log, i, stored, s.now);
    }
    if Exists(s.keys.code, s.now) && s.keys.code.value == stored { StillBelow(actions, stored); }
  }

  lemma StillBelow(actions: seq<Action>, stored: Digest)
    requires LiveDigest(Run(INITIAL, actions).log, stored, Run(INITIAL, actions).now)
    ensures var s := Run(INITIAL, actions); Exists(s.keys.attempts, s.now) ==> s.keys.attempts.value < 5
  {
    hide Run;
    var s := Run(INITIAL, actions);
    var i: nat :| LiveAt(s.log, i, stored, s.now);
    CounterOf(actions, i, stored);
  }

  lemma RunAppend(s: State, actions: seq<Action>, a: Action)
    ensures Run(s, actions + [a]) == Next(Run(s, actions), a)
    decreases |actions|
  {
    hide Next;
    if actions == [] {
      assert ([] + [a])[1..] == [] && Run(Next(s, a), []) == Next(s, a);
    } else {
      assert (actions + [a])[1..] == actions[1..] + [a];
      RunAppend(Next(s, actions[0]), actions[1..], a);
    }
  }

  /** An undisturbed verification of a code succeeds iff that code is live: the right code always works. */
  lemma RightCodeWorks(actions: seq<Action>, v: Verifier, candidate: Digest)
    requires v !in Run(INITIAL, actions).verifiers
    ensures
      var s := Run(INITIAL, actions);
      var t := Next(Next(s, LoadCode(v, candidate)), Compare(v));
      && v in t.verifiers
      && (t.verifiers[v] == Verified(candidate) <==> LiveDigest(s.log, candidate, s.now))
      && (t.verifiers[v] == Verified(candidate) ==> t.log == s.log + [Consumed(v, candidate, s.now)])
  {
    hide Run, Next, LiveDigest;
    var s := Run(INITIAL, actions);
    var loaded := Next(s, LoadCode(v, candidate));
    LoadAnswers(actions, v, candidate);
    RunAppend(INITIAL, actions, LoadCode(v, candidate));
    if loaded.verifiers[v].Loaded? {
      CompareAnswers(actions + [LoadCode(v, candidate)], v);
    } else {
      NothingLoaded(loaded, v);
    }
  }

  lemma NothingLoaded(s: State, v: Verifier)
    requires v in s.verifiers && !s.verifiers[v].Loaded?
    ensures Next(s, Compare(v)) == s
  {
  }

  // ----- Senders -----

  ghost predicate Cooling(log: seq<Event>, now: int) {
    exists i: nat :: CoolingFrom(log, i, now)
  }

  ghost predicate AlmostCool(log: seq<Event>, now: int) {
    forall i: nat :: CoolingFrom(log, i, now) ==> log[i].t + 59_500 < now
  }

  ghost predicate Held(log: seq<Event>, now: int) {
    exists p: Sender :: HoldsReservation(log, p, now)
  }

  /**
    A new send goes ahead iff the phone is neither cooling down nor reserved, and then reserves it; or, by the rounded
    lifetime, in the last half second of the cooldown, and then without reserving anything.
   */
  lemma StartAnswers(actions: seq<Action>, p: Sender)
    requires p !in Run(INITIAL, actions).senders
    ensures
      var s := Run(INITIAL, actions);
      var t := Next(s, StartSend(p));
      && p in t.senders && t == s.(keys := t.keys, senders := s.senders[p := t.senders[p]], log := t.log)
      && (t.senders[p] == Delivering <==>
            if Cooling(s.log, s.now) then AlmostCool(s.log, s.now) else !Held(s.log, s.now))
      && t.log == if Cooling(s.log, s.now) || Held(s.log, s.now) then s.log else s.log + [Reserved(p, s.now)]
  {
    hide Run, CoolingFrom, HoldsReservation;
    var s := Run(INITIAL, actions);
    CooldownIff(actions);
    CooldownEnds(actions);
    HeldIff(actions);
    assert Cooling(s.log, s.now) <==> Exists(s.keys.cooldown, s.now);
    hide Cooling, AlmostCool, Held;
  }

  /** The cooldown ends a minute after the latest event it stands for. */
  lemma CooldownEnds(actions: seq<Action>)
    ensures var s := Run(INITIAL, actions);
      Exists(s.keys.cooldown, s.now) ==> (AlmostCool(s.log, s.now) <==> s.keys.cooldown.expiresAt - s.now < 500)
  {
    hide Run, InForce, Failures, LastSend, Pacing, CodeOk, VerifiersOk, Spaced, Follows;
    Reachable(actions);
    var s := Run(INITIAL, actions);
    PacingRow(s.log);
    if Exists(s.keys.cooldown, s.now) {
      var last := Pacing(s.log).value.id;
      assert CoolingFrom(s.log, last, s.now);
      forall i: nat | CoolingFrom(s.log, i, s.now) ensures s.log[i].t <= s.log[last].t {
        UnclearedIsPaced(s.log, i);
      }
    }
  }

  lemma HeldIff(actions: seq<Action>)
    ensures var s := Run(INITIAL, actions);
      Held(s.log, s.now) <==> Exists(s.keys.pending, s.now)
  {
    hide Run, InForce, Failures, LastSend, Pacing, CodeOk, VerifiersOk, History, HoldsReservation;
    Reachable(actions);
    var s := Run(INITIAL, actions);
    forall p ensures HoldsReservation(s.log, p, s.now) <==> Exists(s.keys.pending, s.now) && s.keys.pending.value == p {
      HoldsIff(s.log, p, s.now);
    }
    if Exists(s.keys.pending, s.now) { assert HoldsReservation(s.log, s.keys.pending.value, s.now); }
  }

  /** A refused delivery starts a cooldown iff its sender still holds the reservation. */
  lemma RefusalAnswers(actions: seq<Action>, p: Sender)
    requires var s := Run(INITIAL, actions); p in s.senders && s.senders[p] == Delivering
    ensures
      var s := Run(INITIAL, actions);
      var t := Next(s, DeliveryRefused(p));
      && t == s.(keys := t.keys, senders := s.senders[p := SendFinished], log := t.log)
      && t.log == if HoldsReservation(s.log, p, s.now) then s.log + [Cancelled(p, s.now)] else s.log
  {
    hide Run, InForce, Failures, LastSend, Pacing, CodeOk, VerifiersOk, History, HoldsReservation;
    Reachable(actions);
    HoldsIff(Run(INITIAL, actions).log, p, Run(INITIAL, actions).now);
  }
}
