/** Issuers, consumers and revokers of re-authentication grants, interleaved between single commands. */
module ReauthRuns {
  import opened Rows
  import opened RedisKeys
  import opened Reauth

  type Revoker = nat

  /** How far an `Issue` call has come. Tokens are unique, so a call is named by the digest it drew. */
  datatype Issuing =
    | Requested(grant: Grant)
    | Drawn(grant: Grant, ttl: int)
    | Created(grant: Grant)
    | Added(grant: Grant)
    | Issued(grant: Grant)
    | IssueFailed(grant: Grant)

  datatype Revoking = Deleting(actor: Actor, remaining: set<Digest>) | Revoked(actor: Actor)

  datatype Event = IssueDone(digest: Digest, actor: Actor) | HandedOut(digest: Digest) | RevokeEnded(actor: Actor)

  /** `toForget` holds the digests whose consumers have yet to remove them from the actor's index. */
  datatype State = State(
    store: Store, now: int, issuers: map<Digest, Issuing>, toForget: map<Digest, Actor>,
    revokers: map<Revoker, Revoking>, log: seq<Event>)

  datatype Action =
    | Tick(dt: nat)
    | Request(digest: Digest, grant: Grant, ttl: int)
    | Draw(digest: Digest)
    | Create(digest: Digest)
    | Add(digest: Digest)
    | Refresh(digest: Digest)
    | Consume(digest: Digest)
    | Forget(digest: Digest)
    | BeginRevoke(revoker: Revoker, actor: Actor)
    | DeleteOne(revoker: Revoker, digest: Digest)
    | EndRevoke(revoker: Revoker)

  // ----- Steps -----

  /** The service reads its clock; the lifetime is at most `MAX_TTL`. */
  function DoRequest(s: State, d: Digest, g: Grant, ttl: int): State {
    if d in s.issuers || !(0 < ttl <= MAX_TTL) then s
    else s.(issuers := s.issuers[d := Requested(g.(issuedAt := s.now, expiresAt := s.now + ttl))])
  }

  /** The store computes the lifetime of the grant key. */
  function DoDraw(s: State, d: Digest): State {
    if !(d in s.issuers && s.issuers[d].Requested?) then s
    else
      var g := s.issuers[d].grant;
      var ttl := g.expiresAt - s.now + GRACE;
      s.(issuers := s.issuers[d := if ttl <= 0 then IssueFailed(g) else Drawn(g, ttl)])
  }

  function DoCreate(s: State, d: Digest): State {
    if !(d in s.issuers && s.issuers[d].Drawn?) then s
    else
      var Drawn(g, ttl) := s.issuers[d];
      s.(store := SetGrant(s.store, d, g, ttl, s.now), issuers := s.issuers[d := Created(g)])
  }

  function DoAdd(s: State, d: Digest): State {
    if !(d in s.issuers && s.issuers[d].Created?) then s
    else
      var g := s.issuers[d].grant;
      s.(store := SAdd(s.store, g.actor, d, s.now), issuers := s.issuers[d := Added(g)])
  }

  function DoRefresh(s: State, d: Digest): State {
    if !(d in s.issuers && s.issuers[d].Added?) then s
    else
      var g := s.issuers[d].grant;
      s.(store := ExpireIndex(s.store, g.actor, s.now), issuers := s.issuers[d := Issued(g)],
         log := s.log + [IssueDone(d, g.actor)])
  }

  function DoConsume(s: State, d: Digest): State {
    var (after, taken) := ConsumeScript(s.store, d, s.now);
    if taken.Payload? then
      s.(store := after, toForget := s.toForget[d := taken.grant.actor], log := s.log + [HandedOut(d)])
    else s
  }

  function DoForget(s: State, d: Digest): State {
    if d in s.toForget then s.(store := SRem(s.store, s.toForget[d], d, s.now), toForget := s.toForget - {d}) else s
  }

  function DoBeginRevoke(s: State, r: Revoker, a: Actor): State {
    if r in s.revokers then s else s.(revokers := s.revokers[r := Deleting(a, Members(s.store, a, s.now))])
  }

  predicate Deletes(s: State, r: Revoker) {
    r in s.revokers && s.revokers[r].Deleting?
  }

  function DoDeleteOne(s: State, r: Revoker, d: Digest): State {
    if !(Deletes(s, r) && d in s.revokers[r].remaining) then s
    else
      var Deleting(a, remaining) := s.revokers[r];
      s.(store := DelGrant(s.store, d), revokers := s.revokers[r := Deleting(a, remaining - {d})])
  }

  function DoEndRevoke(s: State, r: Revoker): State {
    if !(Deletes(s, r) && s.revokers[r].remaining == {}) then s
    else
      var a := s.revokers[r].actor;
      s.(store := DelIndex(s.store, a), revokers := s.revokers[r := Revoked(a)], log := s.log + [RevokeEnded(a)])
  }

  function Next(s: State, action: Action): State {
    match action
    case Tick(dt) => s.(now := s.now + dt)
    case Request(d, g, ttl) => DoRequest(s, d, g, ttl)
    case Draw(d) => DoDraw(s, d)
    case Create(d) => DoCreate(s, d)
    case Add(d) => DoAdd(s, d)
    case Refresh(d) => DoRefresh(s, d)
    case Consume(d) => DoConsume(s, d)
    case Forget(d) => DoForget(s, d)
    case BeginRevoke(r, a) => DoBeginRevoke(s, r, a)
    case DeleteOne(r, d) => DoDeleteOne(s, r, d)
    case EndRevoke(r) => DoEndRevoke(s, r)
  }

  const INITIAL := State(EMPTY, 0, map[], map[], map[], [])

  function Run(s: State, actions: seq<Action>): State
    decreases |actions|
  {
    if actions == [] then s else Run(Next(s, actions[0]), actions[1..])
  }

  // ----- What every interleaving keeps -----

  predicate PastCreation(i: Issuing) {
    i.Created? || i.Added? || i.Issued?
  }

  /** A stored grant is its issuer's, and its key lives at most six minutes from now. */
  ghost predicate GrantsOk(grants: map<Digest, Key<Grant>>, issuers: map<Digest, Issuing>, now: int) {
    && (forall d :: d in grants ==>
          && d in issuers && PastCreation(issuers[d])
          && grants[d].Present? && grants[d].value == issuers[d].grant && grants[d].expiresAt <= now + MAX_TTL + GRACE)
    && (forall d :: d in issuers ==>
          && (issuers[d].Requested? ==> issuers[d].grant.expiresAt <= now + MAX_TTL)
          && (issuers[d].Drawn? ==> issuers[d].ttl <= MAX_TTL + GRACE))
  }

  /** A grant that was handed out was created, is gone, and was handed out once. */
  ghost predicate HandoutsOk(log: seq<Event>, grants: map<Digest, Key<Grant>>, issuers: map<Digest, Issuing>) {
    && (forall k :: 0 <= k < |log| && log[k].HandedOut? ==>
          && log[k].digest in issuers && PastCreation(issuers[log[k].digest]) && log[k].digest !in grants)
    && (forall j, k :: 0 <= j < k < |log| && log[j].HandedOut? && log[k].HandedOut? ==> log[j].digest != log[k].digest)
  }

  /** A grant waiting to be forgotten is no longer stored. */
  ghost predicate ForgetOk(toForget: map<Digest, Actor>, grants: map<Digest, Key<Grant>>, issuers: map<Digest, Issuing>) {
    forall d :: d in toForget ==> d in issuers && PastCreation(issuers[d]) && d !in grants
  }

  ghost predicate DoneOk(log: seq<Event>, issuers: map<Digest, Issuing>) {
    forall k :: 0 <= k < |log| && log[k].IssueDone? ==>
      log[k].digest in issuers && issuers[log[k].digest].Issued? && issuers[log[k].digest].grant.actor == log[k].actor
  }

  ghost predicate Inv(s: State) {
    && GrantsOk(s.store.grants, s.issuers, s.now) && HandoutsOk(s.log, s.store.grants, s.issuers)
    && ForgetOk(s.toForget, s.store.grants, s.issuers) && DoneOk(s.log, s.issuers)
  }

  /** An issuer never goes back, and only its own step takes it forward. */
  ghost predicate Forward(before: map<Digest, Issuing>, after: map<Digest, Issuing>) {
    forall d :: d in before ==>
      && d in after && after[d].grant == before[d].grant
      && (PastCreation(before[d]) ==> PastCreation(after[d])) && (before[d].Issued? ==> after[d].Issued?)
  }

  lemma IssuersMove(s: State, action: Action)
    ensures Forward(s.issuers, Next(s, action).issuers) && s.now <= Next(s, action).now
  {
    hide SetGrant, SAdd, ExpireIndex, SRem, DelGrant, DelIndex, ConsumeScript, Members;
  }

  /** A stored grant was stored before, or was created just now by an issuer that had drawn its token. */
  ghost predicate Inherited(s: State, t: State) {
    forall d :: d in t.store.grants ==>
      || (d in s.store.grants && t.store.grants[d] == s.store.grants[d])
      || (&& d in s.issuers && s.issuers[d].Drawn? && d in t.issuers && t.issuers[d].Created?
          && t.store.grants[d] == Present(s.issuers[d].grant, s.now + s.issuers[d].ttl))
  }

  lemma GrantsMove(s: State, action: Action)
    ensures Inherited(s, Next(s, action))
  {
    hide Members, HasIndex;
  }

  lemma TtlNext(s: State, action: Action)
    requires GrantsOk(s.store.grants, s.issuers, s.now)
    ensures forall d :: d in Next(s, action).issuers ==>
      var i := Next(s, action).issuers[d];
      && (i.Requested? ==> i.grant.expiresAt <= Next(s, action).now + MAX_TTL)
      && (i.Drawn? ==> i.ttl <= MAX_TTL + GRACE)
  {
    hide SetGrant, SAdd, ExpireIndex, SRem, DelGrant, DelIndex, ConsumeScript, Members;
  }

  lemma GrantsNext(s: State, action: Action)
    requires GrantsOk(s.store.grants, s.issuers, s.now)
    ensures GrantsOk(Next(s, action).store.grants, Next(s, action).issuers, Next(s, action).now)
  {
    hide Next;
    IssuersMove(s, action);
    GrantsMove(s, action);
    TtlNext(s, action);
  }

  /** The log grows by what the step did; a handout takes its grant out of the store. */
  lemma LogMoves(s: State, action: Action)
    ensures
      var t := Next(s, action);
      || t.log == s.log
      || (exists a :: t.log == s.log + [RevokeEnded(a)])
      || (exists d :: t.log == s.log + [HandedOut(d)] && d in s.store.grants && d !in t.store.grants)
      || (exists d :: d in t.issuers && t.log == s.log + [IssueDone(d, t.issuers[d].grant.actor)] && t.issuers[d].Issued?)
  {
    hide SetGrant, SAdd, ExpireIndex, SRem, DelGrant, DelIndex, Members;
    var t := Next(s, action);
    if t.log != s.log {
      match action
      case Refresh(d) => assert d in t.issuers && t.log == s.log + [IssueDone(d, t.issuers[d].grant.actor)];
      case Consume(d) => assert t.log == s.log + [HandedOut(d)];
      case EndRevoke(r) => assert t.log == s.log + [RevokeEnded(s.revokers[r].actor)];
      case _ =>
    }
  }

  lemma HandoutsNext(s: State, action: Action)
    requires HandoutsOk(s.log, s.store.grants, s.issuers) && GrantsOk(s.store.grants, s.issuers, s.now)
    ensures HandoutsOk(Next(s, action).log, Next(s, action).store.grants, Next(s, action).issuers)
  {
    hide Next;
    IssuersMove(s, action);
    GrantsMove(s, action);
    LogMoves(s, action);
  }

  lemma ForgetMoves(s: State, action: Action)
    ensures forall d :: d in Next(s, action).toForget ==>
      d in s.toForget || (d in s.store.grants && d !in Next(s, action).store.grants)
  {
    hide SetGrant, SAdd, ExpireIndex, SRem, DelGrant, DelIndex, Members;
  }

  lemma ForgetNext(s: State, action: Action)
    requires ForgetOk(s.toForget, s.store.grants, s.issuers) && GrantsOk(s.store.grants, s.issuers, s.now)
    ensures ForgetOk(Next(s, action).toForget, Next(s, action).store.grants, Next(s, action).issuers)
  {
    hide Next;
    IssuersMove(s, action);
    GrantsMove(s, action);
    ForgetMoves(s, action);
  }

  lemma DoneNext(s: State, action: Action)
    requires DoneOk(s.log, s.issuers)
    ensures DoneOk(Next(s, action).log, Next(s, action).issuers)
  {
    hide Next;
    IssuersMove(s, action);
    LogMoves(s, action);
  }

  lemma NextKeeps(s: State, action: Action)
    requires Inv(s)
    ensures Inv(Next(s, action))
  {
    hide Next, GrantsOk, HandoutsOk, ForgetOk, DoneOk;
    GrantsNext(s, action);
    HandoutsNext(s, action);
    ForgetNext(s, action);
    DoneNext(s, action);
  }

  lemma {:induction false} RunKeeps(s: State, actions: seq<Action>)
    requires Inv(s)
    ensures Inv(Run(s, actions))
    decreases |actions|
  {
    hide Inv, Next;
    if actions != [] {
      NextKeeps(s, actions[0]);
      RunKeeps(Next(s, actions[0]), actions[1..]);
    }
  }

  /** No grant is handed out twice, whatever the interleaving. */
  lemma HandedOutAtMostOnce(actions: seq<Action>, j: nat, k: nat)
    requires j < k < |Run(INITIAL, actions).log|
    requires Run(INITIAL, actions).log[j].HandedOut? && Run(INITIAL, actions).log[k].HandedOut?
    ensures Run(INITIAL, actions).log[j].digest != Run(INITIAL, actions).log[k].digest
  {
    hide Run;
    RunKeeps(INITIAL, actions);
  }

  // ----- Revocation -----

  predicate InFlight(i: Issuing) {
    i.Created? || i.Added?
  }

  /** No revoke of the actor runs while one of its issues is between creating its grant and returning. */
  ghost predicate NoOverlap(s: State, a: Actor) {
    forall r, d :: Deletes(s, r) && s.revokers[r].actor == a && d in s.issuers && InFlight(s.issuers[d]) ==>
      s.issuers[d].grant.actor != a
  }

  /** The actor's index has not lapsed while an issue is between adding to it and extending it. */
  ghost predicate NoLapse(s: State, a: Actor) {
    forall d :: d in s.issuers && s.issuers[d].Added? && s.issuers[d].grant.actor == a && Live(s.store, d, s.now) ==>
      HasIndex(s.store, a, s.now)
  }

  /** In every state the run goes through. */
  ghost predicate NeverOverlaps(s: State, actions: seq<Action>, a: Actor)
    decreases |actions|
  {
    NoOverlap(s, a) && (actions == [] || NeverOverlaps(Next(s, actions[0]), actions[1..], a))
  }

  ghost predicate NeverLapses(s: State, actions: seq<Action>, a: Actor)
    decreases |actions|
  {
    NoLapse(s, a) && (actions == [] || NeverLapses(Next(s, actions[0]), actions[1..], a))
  }

  ghost predicate Orderly(s: State, actions: seq<Action>, a: Actor) {
    NeverOverlaps(s, actions, a) && NeverLapses(s, actions, a)
  }

  predicate LiveOf(s: State, d: Digest, a: Actor) {
    d in s.issuers && s.issuers[d].grant.actor == a && Live(s.store, d, s.now)
  }

  /** The index lists every live grant of the actor that was added to it, and outlives those that were issued. */
  ghost predicate Indexed(s: State, a: Actor) {
    forall d :: LiveOf(s, d, a) ==>
      && (s.issuers[d].Added? || s.issuers[d].Issued? ==> d in Members(s.store, a, s.now))
      && (s.issuers[d].Issued? && s.store.index[a].expiresAt.Some? ==>
            s.store.grants[d].expiresAt <= s.store.index[a].expiresAt.value)
  }

  /** A running revoke still has every live grant of the actor before it. */
  ghost predicate Covered(s: State, a: Actor) {
    forall r, d :: Deletes(s, r) && s.revokers[r].actor == a && LiveOf(s, d, a) ==> d in s.revokers[r].remaining
  }

  /** The grant at `i` was issued before the revoke that ended at `k`. */
  predicate IssuedBeforeRevoke(log: seq<Event>, a: Actor, i: int, k: int) {
    0 <= i < k < |log| && log[k] == RevokeEnded(a) && log[i].IssueDone? && log[i].actor == a
  }

  /** Grants issued before a revoke ended are dead, and were not handed out since. */
  ghost predicate RevokedDead(log: seq<Event>, store: Store, now: int, a: Actor) {
    && (forall i, k :: IssuedBeforeRevoke(log, a, i, k) ==> !Live(store, log[i].digest, now))
    && (forall i, k, m :: IssuedBeforeRevoke(log, a, i, k) && k < m < |log| && log[m].HandedOut? ==>
          log[m].digest != log[i].digest)
  }

  ghost predicate RevokeInv(s: State, a: Actor) {
    Indexed(s, a) && Covered(s, a) && RevokedDead(s.log, s.store, s.now, a)
  }

  predicate IssuerStep(action: Action) {
    action.Request? || action.Draw? || action.Create? || action.Add? || action.Refresh?
  }

  /** Only creating a grant makes one live. */
  lemma LiveBefore(s: State, action: Action, d: Digest, a: Actor)
    requires GrantsOk(s.store.grants, s.issuers, s.now) && LiveOf(Next(s, action), d, a)
    ensures LiveOf(s, d, a) || (action == Create(d) && d in s.issuers && s.issuers[d].Drawn? && s.issuers[d].grant.actor == a)
  {
    hide Members, HasIndex;
  }

  lemma IndexedByIssuers(s: State, action: Action, a: Actor)
    requires Inv(s) && Indexed(s, a) && NoLapse(s, a) && IssuerStep(action)
    ensures Indexed(Next(s, action), a)
  {
    hide HandoutsOk, ForgetOk, DoneOk;
  }

  lemma IndexedByForget(s: State, d: Digest, a: Actor)
    requires Inv(s) && Indexed(s, a)
    ensures Indexed(DoForget(s, d), a)
  {
    hide HandoutsOk, DoneOk;
    forall e | LiveOf(DoForget(s, d), e, a)
      ensures LiveOf(s, e, a)
    {
    }
  }

  lemma IndexedByEnd(s: State, r: Revoker, a: Actor)
    requires Inv(s) && Indexed(s, a) && Covered(s, a)
    ensures Indexed(DoEndRevoke(s, r), a)
  {
    hide HandoutsOk, DoneOk, ForgetOk;
    forall e | LiveOf(DoEndRevoke(s, r), e, a)
      ensures LiveOf(s, e, a)
    {
    }
  }

  lemma IndexedByOthers(s: State, action: Action, a: Actor)
    requires Inv(s) && Indexed(s, a) && Covered(s, a) && !IssuerStep(action) && NoLapse(Next(s, action), a)
    ensures Indexed(Next(s, action), a)
  {
    hide HandoutsOk, DoneOk, ForgetOk, SRem, DelIndex;
    match action
    case Forget(d) => IndexedByForget(s, d, a);
    case EndRevoke(r) => IndexedByEnd(s, r, a);
    case _ =>
  }

  lemma CoveredByBegin(s: State, r: Revoker, b: Actor, a: Actor)
    requires Inv(s) && Indexed(s, a) && Covered(s, a) && NoOverlap(DoBeginRevoke(s, r, b), a)
    ensures Covered(DoBeginRevoke(s, r, b), a)
  {
    hide HandoutsOk, DoneOk, ForgetOk;
    var t := DoBeginRevoke(s, r, b);
    forall q, d | Deletes(t, q) && t.revokers[q].actor == a && LiveOf(t, d, a)
      ensures d in t.revokers[q].remaining
    {
      assert LiveOf(s, d, a);
    }
  }

  lemma CoveredNext(s: State, action: Action, a: Actor)
    requires Inv(s) && Indexed(s, a) && Covered(s, a) && NoOverlap(Next(s, action), a)
    ensures Covered(Next(s, action), a)
  {
    hide HandoutsOk, DoneOk, ForgetOk, Indexed, SAdd, ExpireIndex, SRem;
    if action.BeginRevoke? {
      CoveredByBegin(s, action.revoker, action.actor, a);
    } else {
      hide Next;
      var t := Next(s, action);
      forall r, d | Deletes(t, r) && t.revokers[r].actor == a && LiveOf(t, d, a)
        ensures d in t.revokers[r].remaining
      {
        LiveBefore(s, action, d, a);
        RevokerBefore(s, action, r);
        if !LiveOf(s, d, a) { CreatedNow(s, d); }
      }
    }
  }

  lemma CreatedNow(s: State, d: Digest)
    requires d in s.issuers && s.issuers[d].Drawn?
    ensures var t := Next(s, Create(d)); d in t.issuers && InFlight(t.issuers[d]) && t.issuers[d].grant == s.issuers[d].grant
  {
  }

  /** A revoke that is running was running before this step, unless this step began it; only its own step shrinks it. */
  lemma RevokerBefore(s: State, action: Action, r: Revoker)
    requires Deletes(Next(s, action), r) && !action.BeginRevoke?
    ensures var t := Next(s, action);
      && Deletes(s, r) && s.revokers[r].actor == t.revokers[r].actor
      && (t.revokers[r] == s.revokers[r]
          || (&& action.DeleteOne? && action.digest !in t.store.grants
              && t.revokers[r].remaining == s.revokers[r].remaining - {action.digest}))
  {
    hide SetGrant, SAdd, ExpireIndex, SRem, DelIndex, ConsumeScript, Members;
  }

  lemma RevokedDeadNext(s: State, action: Action, a: Actor)
    requires Inv(s) && Covered(s, a) && RevokedDead(s.log, s.store, s.now, a)
    ensures RevokedDead(Next(s, action).log, Next(s, action).store, Next(s, action).now, a)
  {
    hide HandoutsOk, ForgetOk;
    var t := Next(s, action);
    forall i, k | IssuedBeforeRevoke(t.log, a, i, k)
      ensures !Live(t.store, t.log[i].digest, t.now)
      ensures forall m :: k < m < |t.log| && t.log[m].HandedOut? ==> t.log[m].digest != t.log[i].digest
    {
      if k < |s.log| { assert IssuedBeforeRevoke(s.log, a, i, k); }
      if Live(t.store, t.log[i].digest, t.now) { LiveBefore(s, action, t.log[i].digest, a); }
    }
  }

  lemma RevokeInvNext(s: State, action: Action, a: Actor)
    requires Inv(s) && RevokeInv(s, a)
    requires NoLapse(s, a) && NoLapse(Next(s, action), a) && NoOverlap(Next(s, action), a)
    ensures RevokeInv(Next(s, action), a)
  {
    hide Inv, Indexed, Covered, RevokedDead, Next, NoLapse, NoOverlap;
    if IssuerStep(action) { IndexedByIssuers(s, action, a); } else { IndexedByOthers(s, action, a); }
    CoveredNext(s, action, a);
    RevokedDeadNext(s, action, a);
  }

  lemma {:induction false} OrderlyKeeps(s: State, actions: seq<Action>, a: Actor)
    requires Inv(s) && RevokeInv(s, a) && Orderly(s, actions, a)
    ensures RevokeInv(Run(s, actions), a)
    decreases |actions|
  {
    hide Inv, RevokeInv, Next, NoLapse, NoOverlap;
    if actions != [] {
      assert NeverLapses(Next(s, actions[0]), actions[1..], a) && NeverOverlaps(Next(s, actions[0]), actions[1..], a);
      NextKeeps(s, actions[0]);
      RevokeInvNext(s, actions[0], a);
      OrderlyKeeps(Next(s, actions[0]), actions[1..], a);
    }
  }

  lemma OrderlyInv(actions: seq<Action>, a: Actor)
    requires Orderly(INITIAL, actions, a)
    ensures RevokeInv(Run(INITIAL, actions), a)
  {
    hide Run, Orderly;
    OrderlyKeeps(INITIAL, actions, a);
  }

  /** In an orderly run the index lists every live issued grant of the actor and outlives it. */
  lemma IndexContainsAndOutlives(actions: seq<Action>, a: Actor, d: Digest)
    requires Orderly(INITIAL, actions, a)
    ensures
      var s := Run(INITIAL, actions);
      LiveOf(s, d, a) && s.issuers[d].Issued? ==>
        && HasIndex(s.store, a, s.now) && d in s.store.index[a].members
        && (s.store.index[a].expiresAt.Some? ==> s.store.grants[d].expiresAt <= s.store.index[a].expiresAt.value)
  {
    hide Run, Orderly, Covered, RevokedDead;
    OrderlyInv(actions, a);
  }

  /** In an orderly run no grant issued before a revoke ended is live, or handed out, after it. */
  lemma NothingSurvivesRevoke(actions: seq<Action>, a: Actor, i: nat, k: nat)
    requires Orderly(INITIAL, actions, a) && IssuedBeforeRevoke(Run(INITIAL, actions).log, a, i, k)
    ensures
      var s := Run(INITIAL, actions);
      && !Live(s.store, s.log[i].digest, s.now)
      && forall m :: k < m < |s.log| ==> s.log[m] != HandedOut(s.log[i].digest)
  {
    hide Run, Orderly, Covered, Indexed;
    OrderlyInv(actions, a);
  }

  // ----- One revoke, exactly -----

  /** A listed digest belongs to an issue that has created its grant, so it is never created again. */
  ghost predicate IndexOk(index: map<Actor, Index>, issuers: map<Digest, Issuing>) {
    forall a, d :: a in index && d in index[a].members ==> d in issuers && PastCreation(issuers[d])
  }

  lemma IndexOkNext(s: State, action: Action)
    requires IndexOk(s.store.index, s.issuers)
    ensures IndexOk(Next(s, action).store.index, Next(s, action).issuers)
  {
    IssuersMove(s, action);
    MembersMove(s, action);
    hide Next;
  }

  /** Only an issue's own command lists its digest. */
  lemma MembersMove(s: State, action: Action)
    ensures
      var t := Next(s, action);
      forall a, d :: a in t.store.index && d in t.store.index[a].members ==>
        || (a in s.store.index && d in s.store.index[a].members)
        || (d in s.issuers && s.issuers[d].Created?)
  {
    var t := Next(s, action);
    forall a, d | a in t.store.index && d in t.store.index[a].members
      ensures (a in s.store.index && d in s.store.index[a].members) || (d in s.issuers && s.issuers[d].Created?)
    {
      match action
      case Add(e) =>
        if e in s.issuers && s.issuers[e].Created? && a == s.issuers[e].grant.actor {
          assert d in Members(s.store, a, s.now) + {e};
        }
      case _ =>
    }
  }

  lemma {:induction false} IndexOkRun(s: State, actions: seq<Action>)
    requires IndexOk(s.store.index, s.issuers)
    ensures IndexOk(Run(s, actions).store.index, Run(s, actions).issuers)
    decreases |actions|
  {
    hide IndexOk, Next;
    if actions != [] {
      IndexOkNext(s, actions[0]);
      IndexOkRun(Next(s, actions[0]), actions[1..]);
    }
  }

  /** The grant is created for good, and if it is still stored then this revoke is still going to delete it. */
  ghost predicate Doomed(s: State, r: Revoker, d: Digest) {
    && d in s.issuers && PastCreation(s.issuers[d]) && r in s.revokers
    && (d in s.store.grants ==> s.revokers[r].Deleting? && d in s.revokers[r].remaining)
  }

  lemma RevokersMove(s: State, action: Action, r: Revoker)
    requires r in s.revokers
    ensures var t := Next(s, action);
      && r in t.revokers
      && (s.revokers[r].Revoked? ==> t.revokers[r] == s.revokers[r])
      && (s.revokers[r].Deleting? ==>
            || t.revokers[r] == s.revokers[r]
            || (t.revokers[r].Revoked? && s.revokers[r].remaining == {})
            || (&& action.DeleteOne? && action.revoker == r && action.digest !in t.store.grants
                && t.revokers[r] == s.revokers[r].(remaining := s.revokers[r].remaining - {action.digest})))
  {
    hide SetGrant, SAdd, ExpireIndex, SRem, DelIndex, ConsumeScript, Members;
  }

  lemma {:induction false} DoomedRun(s: State, r: Revoker, d: Digest, actions: seq<Action>)
    requires Doomed(s, r, d)
    ensures Doomed(Run(s, actions), r, d)
    decreases |actions|
  {
    hide Next;
    if actions != [] {
      IssuersMove(s, actions[0]);
      GrantsMove(s, actions[0]);
      RevokersMove(s, actions[0], r);
      DoomedRun(Next(s, actions[0]), r, d, actions[1..]);
    }
  }

  /** Someone else takes the grant: a consumer, or another revoke. */
  predicate TakenBy(action: Action, r: Revoker, d: Digest) {
    action == Consume(d) || (action.DeleteOne? && action.digest == d && action.revoker != r)
  }

  predicate LeftAlone(actions: seq<Action>, r: Revoker, d: Digest) {
    forall i :: 0 <= i < |actions| ==> !TakenBy(actions[i], r, d)
  }

  /** The grant is stored and this revoke will not delete it. */
  ghost predicate Spared(s: State, r: Revoker, d: Digest, k: Key<Grant>) {
    && d in s.store.grants && s.store.grants[d] == k && d in s.issuers && PastCreation(s.issuers[d])
    && r in s.revokers && (s.revokers[r].Deleting? ==> d !in s.revokers[r].remaining)
  }

  lemma SparedStep(s: State, r: Revoker, d: Digest, k: Key<Grant>, action: Action)
    requires Spared(s, r, d, k) && !TakenBy(action, r, d)
    ensures Spared(Next(s, action), r, d, k)
  {
    RevokersMove(s, action, r);
    IssuersMove(s, action);
    hide SAdd, ExpireIndex, SRem, DelIndex, Members, HasIndex;
  }

  lemma {:induction false} SparedRun(s: State, r: Revoker, d: Digest, k: Key<Grant>, actions: seq<Action>)
    requires Spared(s, r, d, k) && LeftAlone(actions, r, d)
    ensures Spared(Run(s, actions), r, d, k)
    decreases |actions|
  {
    hide Next, Spared;
    if actions != [] {
      SparedStep(s, r, d, k, actions[0]);
      SparedRun(Next(s, actions[0]), r, d, k, actions[1..]);
    }
  }

  /** The state after some run, one revoke's reading of the index, and any interleaving after that. */
  function AfterRevoke(before: seq<Action>, r: Revoker, a: Actor, after: seq<Action>): State {
    Run(Next(Run(INITIAL, before), BeginRevoke(r, a)), after)
  }

  /** Whatever happened before and whatever interleaves: a digest the revoke found listed is gone when it ends. */
  lemma ListedDies(before: seq<Action>, r: Revoker, a: Actor, after: seq<Action>, d: Digest)
    requires var s := Run(INITIAL, before); r !in s.revokers && d in Members(s.store, a, s.now)
    ensures var t := AfterRevoke(before, r, a, after); r in t.revokers && (t.revokers[r].Revoked? ==> d !in t.store.grants)
  {
    hide Run;
    IndexOkRun(INITIAL, before);
    var s := Run(INITIAL, before);
    assert Doomed(Next(s, BeginRevoke(r, a)), r, d);
    DoomedRun(Next(s, BeginRevoke(r, a)), r, d, after);
  }

  /**
    The exact condition, for every history and every interleaving: when a revoke has ended, a grant that was stored when
    it began, and that nobody else took, can still be consumed if and only if the actor's index did not list it at that
    moment (and it has not expired).
   */
  lemma RevokeKillsIff(before: seq<Action>, r: Revoker, a: Actor, after: seq<Action>, d: Digest)
    requires var s := Run(INITIAL, before); r !in s.revokers && d in s.store.grants
    requires LeftAlone(after, r, d)
    requires var t := AfterRevoke(before, r, a, after); r in t.revokers && t.revokers[r].Revoked?
    ensures
      var s, t := Run(INITIAL, before), AfterRevoke(before, r, a, after);
      && (d in t.store.grants <==> d !in Members(s.store, a, s.now))
      && (ConsumeScript(t.store, d, t.now).1.Payload? <==>
            d !in Members(s.store, a, s.now) && Exists(s.store.grants[d], t.now))
  {
    hide Run;
    RunKeeps(INITIAL, before);
    var s := Run(INITIAL, before);
    if d in Members(s.store, a, s.now) {
      ListedDies(before, r, a, after, d);
    } else {
      assert Spared(Next(s, BeginRevoke(r, a)), r, d, s.store.grants[d]);
      SparedRun(Next(s, BeginRevoke(r, a)), r, d, s.store.grants[d], after);
    }
  }

  /** So after an orderly run a revoke kills every live issued grant of the actor, whatever interleaves with it. */
  lemma OrderlyRevokeKills(before: seq<Action>, r: Revoker, a: Actor, after: seq<Action>, d: Digest)
    requires Orderly(INITIAL, before, a)
    requires var s := Run(INITIAL, before); r !in s.revokers && LiveOf(s, d, a) && s.issuers[d].Issued?
    ensures var t := AfterRevoke(before, r, a, after); r in t.revokers && (t.revokers[r].Revoked? ==> d !in t.store.grants)
  {
    hide Run, Orderly;
    IndexContainsAndOutlives(before, a, d);
    ListedDies(before, r, a, after, d);
  }

  // ----- Both conditions are needed -----

  const SAMPLE := Grant("admin", "a", "session", "act", "resource", "state", 0, 0)

  /** One more action at the end of a run. */
  lemma {:induction false} Extend(s: State, actions: seq<Action>, x: Action, a: Actor)
    ensures Run(s, actions + [x]) == Next(Run(s, actions), x)
    ensures NeverOverlaps(s, actions, a) && NoOverlap(Next(Run(s, actions), x), a) ==> NeverOverlaps(s, actions + [x], a)
    ensures NeverLapses(s, actions, a) && NoLapse(Next(Run(s, actions), x), a) ==> NeverLapses(s, actions + [x], a)
    decreases |actions|
  {
    hide Next, NoOverlap, NoLapse;
    if actions == [] {
      assert ([] + [x])[1..] == [] && Run(Next(s, x), []) == Next(s, x);
    } else {
      assert (actions + [x])[1..] == actions[1..] + [x];
      Extend(Next(s, actions[0]), actions[1..], x, a);
    }
  }

  /** A run from the start that reaches `s`; `calm` says whether it never overlapped, or else never lapsed. */
  ghost predicate Reaches(actions: seq<Action>, s: State, calm: bool, a: Actor) {
    && Run(INITIAL, actions) == s
    && (calm ==> NeverOverlaps(INITIAL, actions, a)) && (!calm ==> NeverLapses(INITIAL, actions, a))
  }

  lemma Start(calm: bool)
    ensures Reaches([], INITIAL, calm, "a")
  {
  }

  lemma Do(actions: seq<Action>, s: State, x: Action, calm: bool, a: Actor) returns (longer: seq<Action>, t: State)
    requires Reaches(actions, s, calm, a)
    requires calm ==> NoOverlap(Next(s, x), a)
    requires !calm ==> NoLapse(Next(s, x), a)
    ensures t == Next(s, x) && Reaches(longer, t, calm, a)
  {
    hide Next, NoOverlap, NoLapse, Run, NeverOverlaps, NeverLapses;
    Extend(INITIAL, actions, x, a);
    longer, t := actions + [x], Next(s, x);
  }

  function SampleAt(now: int): Grant {
    SAMPLE.(issuedAt := now, expiresAt := now + MAX_TTL)
  }

  /** An issue up to drawing its token. */
  lemma Prepare(actions: seq<Action>, s: State, d: Digest, calm: bool) returns (longer: seq<Action>, t: State)
    requires Reaches(actions, s, calm, "a") && d !in s.issuers && NoOverlap(s, "a") && NoLapse(s, "a")
    ensures Reaches(longer, t, calm, "a")
    ensures t == s.(issuers := s.issuers[d := Drawn(SampleAt(s.now), MAX_TTL + GRACE)])
  {
    hide Reaches;
    longer, t := Do(actions, s, Request(d, SAMPLE, MAX_TTL), calm, "a");
    longer, t := Do(longer, t, Draw(d), calm, "a");
  }

  /** Its commands up to adding the digest to the index. */
  lemma Write(actions: seq<Action>, s: State, d: Digest, calm: bool) returns (longer: seq<Action>, t: State)
    requires Reaches(actions, s, calm, "a") && d in s.issuers && s.issuers[d] == Drawn(SampleAt(s.now), MAX_TTL + GRACE)
    requires NoLapse(s, "a") && (calm ==> s.revokers == map[]) && !Live(s.store, d, s.now)
    ensures Reaches(longer, t, calm, "a")
    ensures t.store.grants == s.store.grants[d := Present(SampleAt(s.now), s.now + MAX_TTL + GRACE)]
    ensures t.store.index == SAdd(s.store, "a", d, s.now).index
    ensures t.issuers == s.issuers[d := Added(SampleAt(s.now))]
    ensures t.now == s.now && t.revokers == s.revokers && t.log == s.log
  {
    hide Reaches;
    longer, t := Do(actions, s, Create(d), calm, "a");
    longer, t := Do(longer, t, Add(d), calm, "a");
  }

  /** A whole revoke of an actor whose index lists nothing, and then a consume: the grant was not touched. */
  lemma RevokeMisses(actions: seq<Action>, s: State, d: Digest, a: Actor, r: Revoker, calm: bool)
    returns (longer: seq<Action>, t: State)
    requires Reaches(actions, s, calm, a) && Live(s.store, d, s.now) && Members(s.store, a, s.now) == {}
    requires r !in s.revokers && forall e :: e in s.issuers ==> s.issuers[e].Issued?
    ensures Reaches(longer, t, calm, a) && t.log == s.log + [RevokeEnded(a), HandedOut(d)]
  {
    hide Reaches;
    longer, t := Do(actions, s, BeginRevoke(r, a), calm, a);
    longer, t := Do(longer, t, EndRevoke(r), calm, a);
    assert t.store.grants == s.store.grants;
    longer, t := Do(longer, t, Consume(d), calm, a);
  }

  /**
    A revoke that overlaps an issue drops the index although it never lapsed: the grant outlives a whole later revoke
    and is then consumed.
   */
  lemma OverlapEscapes() returns (actions: seq<Action>)
    ensures NeverLapses(INITIAL, actions, "a")
    ensures Run(INITIAL, actions).log == [IssueDone("d", "a"), RevokeEnded("a"), RevokeEnded("a"), HandedOut("d")]
  {
    hide Run, NeverLapses, NeverOverlaps;
    var s;
    Start(false);
    actions, s := Prepare([], INITIAL, "d", false);
    actions, s := Do(actions, s, BeginRevoke(1, "a"), false, "a");
    actions, s := Write(actions, s, "d", false);
    actions, s := Do(actions, s, Refresh("d"), false, "a");
    actions, s := Do(actions, s, EndRevoke(1), false, "a");
    assert s.log == [IssueDone("d", "a"), RevokeEnded("a")];
    actions, s := RevokeMisses(actions, s, "d", "a", 2, false);
  }

  /** An issued grant whose index is in its last millisecond. */
  lemma StaleIndex() returns (actions: seq<Action>, s: State)
    ensures Reaches(actions, s, true, "a") && s.revokers == map[] && s.log == [IssueDone("e", "a")]
    ensures s.issuers.Keys == {"e"} && s.issuers["e"].Issued? && s.store.grants.Keys == {"e"}
    ensures s.store.index == map["a" := Index({"e"}, Some(s.now + 1))]
  {
    Start(true);
    actions, s := Prepare([], INITIAL, "e", true);
    hide Reaches;
    actions, s := Write(actions, s, "e", true);
    assert {} + {"e"} == {"e"};
    assert s.store.index == map["a" := Index({"e"}, None)];
    actions, s := Do(actions, s, Refresh("e"), true, "a");
    actions, s := Do(actions, s, Tick(MAX_TTL + GRACE - 1), true, "a");
  }

  /**
    An index that lapses between the add and the refresh is not restored although no revoke overlapped: the grant
    outlives a whole later revoke and is then consumed.
   */
  lemma LapseEscapes() returns (actions: seq<Action>)
    ensures NeverOverlaps(INITIAL, actions, "a")
    ensures Run(INITIAL, actions).log == [IssueDone("e", "a"), IssueDone("d", "a"), RevokeEnded("a"), HandedOut("d")]
  {
    hide Run, NeverLapses, NeverOverlaps;
    var s;
    actions, s := StaleIndex();
    actions, s := Prepare(actions, s, "d", true);
    actions, s := Write(actions, s, "d", true);
    actions, s := Do(actions, s, Tick(1), true, "a");
    actions, s := Do(actions, s, Refresh("d"), true, "a");
    assert s.log == [IssueDone("e", "a"), IssueDone("d", "a")];
    actions, s := RevokeMisses(actions, s, "d", "a", 1, true);
  }
}
