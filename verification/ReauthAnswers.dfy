/**
  The answer of a consume over every interleaving, how long a grant stays consumable, and what whole calls leave.
 */
module ReauthAnswers {
  import opened Rows
  import opened RedisKeys
  import opened Text
  import opened Reauth
  import opened ReauthRuns

  // ----- How long a grant lives -----

  /** This step stores the grant of an issuer that has drawn its token. */
  predicate Stores(s: State, action: Action, d: Digest) {
    action == Create(d) && d in s.issuers && s.issuers[d].Drawn? && s.issuers[d].ttl > 0
  }

  /** This step takes the grant: its consume, or a revoke that had listed it. */
  predicate Takes(s: State, action: Action, d: Digest) {
    || action == ReauthRuns.Action.Consume(d)
    || (action.DeleteOne? && action.digest == d && action.revoker in s.revokers && s.revokers[action.revoker].Deleting?
        && d in s.revokers[action.revoker].remaining)
  }

  /** A grant is live after a step iff it just was stored, or was live, has not expired and was not taken; it never changes. */
  lemma LiveStep(s: State, action: Action, d: Digest)
    requires Inv(s)
    ensures var t := Next(s, action);
      && (Live(t.store, d, t.now) <==>
            if Live(s.store, d, s.now) then t.now < s.store.grants[d].expiresAt && !Takes(s, action, d) else Stores(s, action, d))
      && (Live(s.store, d, s.now) && Live(t.store, d, t.now) ==> t.store.grants[d] == s.store.grants[d])
      && (!Live(s.store, d, s.now) && Live(t.store, d, t.now) ==>
            t.store.grants[d] == Present(s.issuers[d].grant, s.now + s.issuers[d].ttl))
  {
    hide HandoutsOk, ForgetOk, DoneOk, Members, HasIndex;
    if action.Create? || action.Consume? || action.DeleteOne? {
      hide SAdd, ExpireIndex, SRem, DelIndex;
    } else {
      GrantsStay(s, action);
      hide Next;
    }
  }

  lemma GrantsStay(s: State, action: Action)
    requires !action.Create? && !action.Consume? && !action.DeleteOne?
    ensures Next(s, action).store.grants == s.store.grants && s.now <= Next(s, action).now
  {
    hide Members, HasIndex;
  }

  /** No step of the run takes the grant. */
  predicate Untouched(s: State, actions: seq<Action>, d: Digest)
    decreases |actions|
  {
    actions == [] || (!Takes(s, actions[0], d) && Untouched(Next(s, actions[0]), actions[1..], d))
  }

  lemma {:induction false} ClockRuns(s: State, actions: seq<Action>)
    ensures s.now <= Run(s, actions).now
    decreases |actions|
  {
    if actions != [] {
      IssuersMove(s, actions[0]);
      hide Next;
      ClockRuns(Next(s, actions[0]), actions[1..]);
    }
  }

  /** A live grant is still live after a run exactly if its time is not up and no step of the run took it; a taken one never returns. */
  lemma {:induction false} LiveIff(s: State, actions: seq<Action>, d: Digest)
    requires Inv(s) && Live(s.store, d, s.now)
    ensures var t := Run(s, actions);
      && (Live(t.store, d, t.now) <==> t.now < s.store.grants[d].expiresAt && Untouched(s, actions, d))
      && (Live(t.store, d, t.now) ==> t.store.grants[d] == s.store.grants[d])
    decreases |actions|
  {
    hide Next, Inv, Takes, Stores;
    if actions != [] {
      var s1 := Next(s, actions[0]);
      NextKeeps(s, actions[0]);
      LiveStep(s, actions[0], d);
      IssuersMove(s, actions[0]);
      ClockRuns(s1, actions[1..]);
      if Live(s1.store, d, s1.now) {
        LiveIff(s1, actions[1..], d);
      } else {
        CreatedBefore(s, d);
        DeadForever(s1, actions[1..], d);
      }
    }
  }

  lemma CreatedBefore(s: State, d: Digest)
    requires Inv(s) && Live(s.store, d, s.now)
    ensures d in s.issuers && PastCreation(s.issuers[d])
  {
  }

  /** A grant that was stored once and is gone is gone for good. */
  lemma {:induction false} DeadForever(s: State, actions: seq<Action>, d: Digest)
    requires Inv(s) && !Live(s.store, d, s.now) && d in s.issuers && PastCreation(s.issuers[d])
    ensures !Live(Run(s, actions).store, d, Run(s, actions).now)
    decreases |actions|
  {
    hide Next, Inv, Takes;
    if actions != [] {
      NextKeeps(s, actions[0]);
      LiveStep(s, actions[0], d);
      IssuersMove(s, actions[0]);
      DeadForever(Next(s, actions[0]), actions[1..], d);
    }
  }

  /** The lifetime an issuer drew, and the key it stored, reach a minute past the end of the grant. */
  ghost predicate Reaches(s: State) {
    && (forall d :: d in s.issuers && s.issuers[d].Drawn? ==>
          s.now + s.issuers[d].ttl >= s.issuers[d].grant.expiresAt + 60_000)
    && (forall d :: d in s.store.grants && d in s.issuers && s.store.grants[d].Present? ==>
          s.store.grants[d].expiresAt >= s.issuers[d].grant.expiresAt + 60_000)
  }

  lemma DrawnStep(s: State, action: Action, d: Digest)
    requires Reaches(s) && d in Next(s, action).issuers && Next(s, action).issuers[d].Drawn?
    ensures var t := Next(s, action); t.now + t.issuers[d].ttl >= t.issuers[d].grant.expiresAt + 60_000
  {
    hide SetGrant, SAdd, ExpireIndex, SRem, DelGrant, DelIndex, ConsumeScript, Members;
  }

  lemma ReachesStep(s: State, action: Action)
    requires Inv(s) && Reaches(s)
    ensures Reaches(Next(s, action))
  {
    hide Next, HandoutsOk, ForgetOk, DoneOk;
    var t := Next(s, action);
    IssuersMove(s, action);
    GrantsMove(s, action);
    forall d | d in t.issuers && t.issuers[d].Drawn?
      ensures t.now + t.issuers[d].ttl >= t.issuers[d].grant.expiresAt + 60_000
    {
      DrawnStep(s, action, d);
    }
  }

  lemma {:induction false} ReachesRun(s: State, actions: seq<Action>)
    requires Inv(s) && Reaches(s)
    ensures Reaches(Run(s, actions)) && Inv(Run(s, actions))
    decreases |actions|
  {
    hide Inv, Next, Reaches;
    if actions != [] {
      NextKeeps(s, actions[0]);
      ReachesStep(s, actions[0]);
      ReachesRun(Next(s, actions[0]), actions[1..]);
    }
  }

  /** Over every interleaving a stored grant stays consumable for at least a minute after it has expired. */
  lemma KeyOutlivesGrant(actions: seq<Action>, d: Digest)
    requires d in Run(INITIAL, actions).store.grants
    ensures
      var s := Run(INITIAL, actions);
      d in s.issuers && (s.now < s.issuers[d].grant.expiresAt + 60_000 ==> Live(s.store, d, s.now))
  {
    hide Run;
    assert Inv(INITIAL) && Reaches(INITIAL);
    ReachesRun(INITIAL, actions);
    hide HandoutsOk, ForgetOk, DoneOk;
  }

  // ----- What a consume answers -----

  /** Over every interleaving a consume hands the grant out iff it is live, and then exactly the grant its issuer asked for. */
  lemma ConsumeAnswers(actions: seq<Action>, d: Digest)
    ensures
      var s := Run(INITIAL, actions);
      var t := Next(s, ReauthRuns.Action.Consume(d));
      if Live(s.store, d, s.now) then
        && d in s.issuers && s.store.grants[d].value == s.issuers[d].grant
        && t == s.(store := t.store, toForget := s.toForget[d := s.issuers[d].grant.actor], log := s.log + [HandedOut(d)])
        && t.store.grants == s.store.grants - {d} && t.store.index == s.store.index
      else t == s
  {
    hide Run;
    assert Inv(INITIAL);
    RunKeeps(INITIAL, actions);
    hide HandoutsOk, ForgetOk, DoneOk;
  }

  // ----- Whole calls -----

  /** An undisturbed revoke right after an issue: the new grant is dead, and grants that the actor's index does not list are as before. */
  lemma IssueThenRevoke(st: Store, g: Grant, tokens: seq<Digest>, t: int, now: int)
    requires IssueCall(st, g, tokens, t).1.Some? && t <= now < t + 360_000
    ensures
      var (issued, token) := IssueCall(st, g, tokens, t);
      var after := RevokeCall(issued, g.actor, now);
      && !Live(after, token.value, now)
      && (forall d :: Live(after, d, now) <==> Live(issued, d, now) && d !in Members(issued, g.actor, now))
      && (forall d :: Live(after, d, now) ==> after.grants[d] == issued.grants[d])
      && after.spent == issued.spent && (forall a :: a != g.actor ==> Members(after, a, now) == Members(issued, a, now))
  {
    IssuedIndex(st, g, tokens, t, now);
  }

  /** The index an issue leaves lists the new grant for six minutes. */
  lemma {:induction false} IssuedIndex(st: Store, g: Grant, tokens: seq<Digest>, t: int, now: int)
    requires IssueCall(st, g, tokens, t).1.Some? && t <= now < t + 360_000
    ensures var (issued, token) := IssueCall(st, g, tokens, t); token.value in Members(issued, g.actor, now)
    decreases |tokens|
  {
    if Live(st, tokens[0], t) {
      IssuedIndex(st, g, tokens[1..], t, now);
    }
  }

  /** Which error a presented grant is refused with: expiry first, then the first binding that differs. */
  lemma RefusalNames(e: Expectation, f: Expectation, ttl: int, digestOf: string -> Digest, t: int, now: int)
    requires Injective(digestOf) && ExpectationValid(e) && ExpectationValid(f)
    ensures var verdict := CheckGrant(GrantFor(e, ttl, digestOf, t), f, digestOf, now);
      && verdict != ContextBinding
      && (verdict == Expired <==> now - t >= ttl)
      && (verdict == ActorBinding <==> now - t < ttl && e.actor != f.actor)
      && (verdict == SessionBinding <==> now - t < ttl && e.actor == f.actor && e.sessionId != f.sessionId)
      && (verdict == ActionBinding <==>
            now - t < ttl && e.actor == f.actor && e.sessionId == f.sessionId && e.action != f.action)
      && (verdict == ResourceBinding <==>
            now - t < ttl && e.actor == f.actor && e.sessionId == f.sessionId && e.action == f.action && e.resource != f.resource)
      && (verdict == StateBinding <==>
            now - t < ttl && f == e.(fingerprint := f.fingerprint) && e.fingerprint != f.fingerprint)
      && (verdict == Accepted <==> now - t < ttl && e == f)
  {
  }
}
