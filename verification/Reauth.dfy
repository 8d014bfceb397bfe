/**
  Single-use re-authentication grants: the store's expiring keys and commands, the service's checks, and the
  interleaving of issuers, consumers and revokers command by command. Times are milliseconds; a token is identified
  with its digest.
 */
module Reauth {
  import opened Rows
  import opened RedisKeys
  import opened Text

  type Digest = string
  type Actor = string

  const MAX_TTL := 300_000
  const GRACE := 60_000

  datatype Grant = Grant(
    context: string, actor: Actor, sessionDigest: Digest, action: string, resource: string, fingerprint: string,
    issuedAt: int, expiresAt: int)

  /** The set of an actor's digests; without an expiry it stays until it is deleted or emptied. */
  datatype Index = Index(members: set<Digest>, expiresAt: Option<int>)

  datatype Store = Store(grants: map<Digest, Key<Grant>>, spent: map<Digest, Key<bool>>, index: map<Actor, Index>)

  const EMPTY := Store(map[], map[], map[])

  // ----- The commands -----

  predicate Live(st: Store, d: Digest, now: int) {
    d in st.grants && Exists(st.grants[d], now)
  }

  predicate HasIndex(st: Store, a: Actor, now: int) {
    a in st.index && (st.index[a].expiresAt.Some? ==> now < st.index[a].expiresAt.value)
  }

  function Members(st: Store, a: Actor, now: int): set<Digest> {
    if HasIndex(st, a, now) then st.index[a].members else {}
  }

  /** SETNX, on a digest that has no live grant. */
  function SetGrant(st: Store, d: Digest, g: Grant, ttl: int, now: int): Store {
    st.(grants := st.grants[d := Present(g, now + ttl)])
  }

  function SAdd(st: Store, a: Actor, d: Digest, now: int): Store {
    st.(index := st.index[a := Index(Members(st, a, now) + {d}, if HasIndex(st, a, now) then st.index[a].expiresAt else None)])
  }

  /** EXPIRE leaves a missing key missing. */
  function ExpireIndex(st: Store, a: Actor, now: int): Store {
    if HasIndex(st, a, now) then st.(index := st.index[a := st.index[a].(expiresAt := Some(now + MAX_TTL + GRACE))]) else st
  }

  /** SREM deletes a set that it empties. */
  function SRem(st: Store, a: Actor, d: Digest, now: int): Store {
    var rest := Members(st, a, now) - {d};
    if !HasIndex(st, a, now) then st
    else if rest == {} then DelIndex(st, a)
    else st.(index := st.index[a := st.index[a].(members := rest)])
  }

  function DelGrant(st: Store, d: Digest): Store {
    st.(grants := st.grants - {d})
  }

  function DelIndex(st: Store, a: Actor): Store {
    st.(index := st.index - {a})
  }

  datatype Taken = Payload(grant: Grant) | Replayed | Missing

  function ConsumeScript(st: Store, d: Digest, now: int): (Store, Taken) {
    if Live(st, d, now) then
      (Store(st.grants - {d}, st.spent[d := Present(true, now + MAX_TTL + GRACE)], st.index), Payload(st.grants[d].value))
    else if d in st.spent && Exists(st.spent[d], now) then (st, Replayed)
    else (st, Missing)
  }

  // ----- Whole calls, with nothing in between -----

  /** What one undisturbed `Issue` leaves when it is given these tokens to draw from. */
  function IssueCall(st: Store, g: Grant, tokens: seq<Digest>, now: int): (Store, Option<Digest>) {
    if tokens == [] || g.expiresAt - now + GRACE <= 0 then (st, None)
    else if Live(st, tokens[0], now) then IssueCall(st, g, tokens[1..], now)
    else
      var d := tokens[0];
      var created := SetGrant(st, d, g, g.expiresAt - now + GRACE, now);
      (ExpireIndex(SAdd(created, g.actor, d, now), g.actor, now), Some(d))
  }

  /** What one undisturbed `RevokeActor` leaves: the listed grants are gone, and nothing else. */
  function RevokeCall(st: Store, a: Actor, now: int): Store {
    st.(grants := map d | d in st.grants && d !in Members(st, a, now) :: st.grants[d], index := st.index - {a})
  }

  function ConsumeCall(st: Store, d: Digest, now: int): (Store, Taken) {
    var (after, taken) := ConsumeScript(st, d, now);
    (if taken.Payload? then SRem(after, taken.grant.actor, d, now) else after, taken)
  }

  class RedisReauthenticationGrantStore {
    var grants: map<Digest, Key<Grant>>
    var spent: map<Digest, Key<bool>>
    var index: map<Actor, Index>

    function Contents(): Store
      reads this
    {
      Store(grants, spent, index)
    }

    constructor ()
      ensures Contents() == EMPTY
    {
      grants, spent, index := map[], map[], map[];
    }

    /** `tokens` are the three random draws the call may use. */
    method Issue(g: Grant, tokens: seq<Digest>, now: int) returns (token: Option<Digest>)
      requires |tokens| == 3
      modifies this
      ensures (Contents(), token) == IssueCall(old(Contents()), g, tokens, now)
    {
      var attempt := 0;
      while attempt < 3
        invariant 0 <= attempt <= 3 && Contents() == old(Contents())
        invariant IssueCall(Contents(), g, tokens, now) == IssueCall(Contents(), g, tokens[attempt..], now)
      {
        var digest := tokens[attempt];
        var ttl := g.expiresAt - now + GRACE;
        if ttl <= 0 { return None; }
        if !(digest in grants && Exists(grants[digest], now)) {
          grants := grants[digest := Present(g, now + ttl)];
          index := SAdd(Contents(), g.actor, digest, now).index;
          index := ExpireIndex(Contents(), g.actor, now).index;
          return Some(digest);
        }
        assert tokens[attempt..][1..] == tokens[attempt + 1..];
        attempt := attempt + 1;
      }
      return None;
    }

    method Consume(d: Digest, now: int) returns (taken: Taken)
      modifies this
      ensures (Contents(), taken) == ConsumeCall(old(Contents()), d, now)
    {
      if !Live(Contents(), d, now) {
        return if d in spent && Exists(spent[d], now) then Replayed else Missing;
      }
      taken := Payload(grants[d].value);
      grants := grants - {d};
      spent := spent[d := Present(true, now + MAX_TTL + GRACE)];
      index := SRem(Contents(), taken.grant.actor, d, now).index;
    }

    method RevokeActor(a: Actor, now: int)
      modifies this`grants, this`index
      ensures Contents() == RevokeCall(old(Contents()), a, now)
    {
      var digests := Members(Contents(), a, now);
      ghost var listed := digests;
      while digests != {}
        invariant digests <= listed && spent == old(spent) && index == old(index)
        invariant grants == map d | d in old(grants) && d !in listed - digests :: old(grants)[d]
        decreases digests
      {
        var d :| d in digests;
        grants := grants - {d};
        digests := digests - {d};
      }
      index := index - {a};
    }
  }

  // ----- The service's checks -----

  datatype Expectation = Expectation(
    context: string, actor: Actor, sessionId: string, action: string, resource: string, fingerprint: string)

  datatype Verdict =
    | Accepted | Invalid | Expired | GrantReplayed
    | ContextBinding | ActorBinding | SessionBinding | ActionBinding | ResourceBinding | StateBinding

  predicate ExpectationValid(e: Expectation) {
    && e.context == "admin" && !Blank(e.actor) && !Blank(e.sessionId) && !Blank(e.action) && !Blank(e.resource)
    && !Blank(e.fingerprint)
  }

  /** `digestOf` stands for the binding digest. */
  function CheckGrant(g: Grant, e: Expectation, digestOf: string -> Digest, now: int): Verdict {
    if now >= g.expiresAt then Expired
    else if g.context != e.context then ContextBinding
    else if g.actor != e.actor then ActorBinding
    else if g.sessionDigest != digestOf(e.sessionId) then SessionBinding
    else if g.action != e.action then ActionBinding
    else if g.resource != e.resource then ResourceBinding
    else if g.fingerprint != e.fingerprint then StateBinding
    else Accepted
  }

  function ServiceConsume(st: Store, token: Digest, e: Expectation, digestOf: string -> Digest, now: int): (Store, Verdict) {
    if Blank(token) || !ExpectationValid(e) then (st, Invalid)
    else
      var (after, taken) := ConsumeCall(st, token, now);
      match taken
      case Replayed => (after, GrantReplayed)
      case Missing => (after, Invalid)
      case Payload(g) => (after, CheckGrant(g, e, digestOf, now))
  }

  /** The grant `Issue` writes for an expectation. */
  function GrantFor(e: Expectation, ttl: int, digestOf: string -> Digest, now: int): Grant {
    Grant(e.context, e.actor, digestOf(e.sessionId), e.action, e.resource, e.fingerprint, now, now + ttl)
  }

  ghost predicate Injective(f: string -> Digest) {
    forall x, y :: f(x) == f(y) ==> x == y
  }

  /**
    Issue for one expectation, then consume with another: accepted exactly when the two agree in all six bindings and
    the grant has not expired. Either way the token is spent: every further attempt within six minutes is a replay.
   */
  lemma IssueThenConsume(
    st: Store, e: Expectation, f: Expectation, ttl: int, tokens: seq<Digest>, digestOf: string -> Digest, t: int, now: int)
    requires Injective(digestOf) && 0 < ttl <= 300_000 && t <= now && ExpectationValid(e) && ExpectationValid(f)
    requires IssueCall(st, GrantFor(e, ttl, digestOf, t), tokens, t).1.Some?
    ensures
      var (issued, token) := IssueCall(st, GrantFor(e, ttl, digestOf, t), tokens, t);
      var d := token.value;
      !Blank(d) ==>
        var (after, verdict) := ServiceConsume(issued, d, f, digestOf, now);
        && (verdict == Accepted <==> e == f && now < t + ttl)
        && !Live(after, d, now)
        && forall g, later :: ExpectationValid(g) && now <= later < now + 360_000 && now < t + ttl + 60_000 ==>
             ServiceConsume(after, d, g, digestOf, later) == (after, GrantReplayed)
  {
    IssuedGrant(st, GrantFor(e, ttl, digestOf, t), tokens, t);
  }

  lemma {:induction false} IssuedGrant(st: Store, g: Grant, tokens: seq<Digest>, now: int)
    requires IssueCall(st, g, tokens, now).1.Some?
    ensures
      var (issued, token) := IssueCall(st, g, tokens, now);
      && token.value in tokens && !Live(st, token.value, now)
      && issued.grants == st.grants[token.value := Present(g, g.expiresAt + GRACE)]
      && token.value in Members(issued, g.actor, now)
      && issued.spent == st.spent
    decreases |tokens|
  {
    if Live(st, tokens[0], now) {
      IssuedGrant(st, g, tokens[1..], now);
    }
  }
}
