/** The shard router's fallback cache of assignments: a map into a recency list of bounded length. */
module ShardCache {
  import opened Rows

  type ContestId = string
  type Time = int

  datatype Entry<V> = Entry(key: ContestId, value: V, cachedAt: Time, expiresAt: Time)

  // ----- The list, most recently set first -----

  /** The position of a key, or the length. */
  function FindKey<V>(order: seq<Entry<V>>, key: ContestId): (i: nat)
    ensures i <= |order| && (i < |order| ==> order[i].key == key) && forall j :: 0 <= j < i ==> order[j].key != key
  {
    if order == [] || order[0].key == key then 0 else 1 + FindKey(order[1..], key)
  }

  function Without<V>(order: seq<Entry<V>>, i: nat): seq<Entry<V>>
    requires i < |order|
  {
    order[..i] + order[i + 1..]
  }

  function Evicted<V>(order: seq<Entry<V>>): seq<Entry<V>> {
    if order == [] then [] else order[..|order| - 1]
  }

  function SetCall<V>(order: seq<Entry<V>>, capacity: int, e: Entry<V>): seq<Entry<V>> {
    var i := FindKey(order, e.key);
    if i < |order| then [e] + Without(order, i)
    else if |order| >= capacity then [e] + Evicted(order)
    else [e] + order
  }

  function InvalidateCall<V>(order: seq<Entry<V>>, key: ContestId): seq<Entry<V>> {
    var i := FindKey(order, key);
    if i < |order| then Without(order, i) else order
  }

  function GetCall<V>(order: seq<Entry<V>>, key: ContestId, now: Time): Option<V> {
    var i := FindKey(order, key);
    if i < |order| && now <= order[i].expiresAt then Some(order[i].value) else None
  }

  predicate DistinctKeys<V>(order: seq<Entry<V>>) {
    forall i, j :: 0 <= i < j < |order| ==> order[i].key != order[j].key
  }

  // ----- The cache -----

  /** A list element; `Set` rewrites it in place. */
  class LruEntry<V> {
    const contestId: ContestId
    var assignment: V
    var cachedAt: Time
    var expiresAt: Time

    constructor (contestId: ContestId, assignment: V, cachedAt: Time, expiresAt: Time)
      ensures Contents() == Entry(contestId, assignment, cachedAt, expiresAt)
    {
      this.contestId, this.assignment, this.cachedAt, this.expiresAt := contestId, assignment, cachedAt, expiresAt;
    }

    function Contents(): Entry<V>
      reads this
    {
      Entry(contestId, assignment, cachedAt, expiresAt)
    }
  }

  ghost function Values<V>(order: seq<LruEntry<V>>): (r: seq<Entry<V>>)
    reads order
    ensures |r| == |order| && forall i :: 0 <= i < |order| ==> r[i] == order[i].Contents()
  {
    if order == [] then [] else [order[0].Contents()] + Values(order[1..])
  }

  /** `list.Remove`. */
  function RemoveElement<V>(order: seq<LruEntry<V>>, e: LruEntry<V>): seq<LruEntry<V>> {
    if order == [] then [] else if order[0] == e then order[1..] else [order[0]] + RemoveElement(order[1..], e)
  }

  lemma {:induction false} RemoveAt<V>(order: seq<LruEntry<V>>, i: nat)
    requires i < |order| && forall j :: 0 <= j < i ==> order[j] != order[i]
    ensures RemoveElement(order, order[i]) == order[..i] + order[i + 1..]
  {
    if i > 0 {
      RemoveAt(order[1..], i - 1);
      assert order[1..][..i - 1] == order[1..i] && order[1..][i..] == order[i + 1..];
      assert order[..i] == [order[0]] + order[1..i];
    }
  }

  /** The map and the list are in bijection. */
  ghost predicate Bijective<V>(m: map<ContestId, LruEntry<V>>, order: seq<LruEntry<V>>) {
    && (forall i :: 0 <= i < |order| ==> order[i].contestId in m && m[order[i].contestId] == order[i])
    && (forall key :: key in m ==> m[key].contestId == key && m[key] in order)
    && (forall i, j :: 0 <= i < j < |order| ==> order[i] != order[j])
  }

  lemma BijectiveRemove<V>(m: map<ContestId, LruEntry<V>>, order: seq<LruEntry<V>>, i: nat)
    requires Bijective(m, order) && i < |order|
    ensures Bijective(m - {order[i].contestId}, order[..i] + order[i + 1..])
  {
    var rest := order[..i] + order[i + 1..];
    assert forall j :: 0 <= j < |rest| ==> rest[j] == order[if j < i then j else j + 1];
    forall key | key in m && key != order[i].contestId
      ensures m[key] in rest
    {
      var j :| 0 <= j < |order| && order[j] == m[key];
      assert rest[if j < i then j else j - 1] == m[key];
    }
  }

  lemma BijectivePush<V>(m: map<ContestId, LruEntry<V>>, order: seq<LruEntry<V>>, e: LruEntry<V>)
    requires Bijective(m, order) && e.contestId !in m
    ensures Bijective(m[e.contestId := e], [e] + order)
  {
    var longer := [e] + order;
    assert longer[0] == e && forall j :: 0 < j < |longer| ==> longer[j] == order[j - 1];
  }

  class ShardInfoCache<V> {
    var assignments: map<ContestId, LruEntry<V>>
    var lruOrder: seq<LruEntry<V>>
    const maxAssignments: int
    const assignmentTTL: int

    ghost predicate Valid()
      reads this
    {
      Bijective(assignments, lruOrder)
    }

    ghost function Contents(): seq<Entry<V>>
      reads this, lruOrder
    {
      Values(lruOrder)
    }

    /** Where the map says an entry is, the list has it. */
    lemma Located(key: ContestId)
      requires Valid()
      ensures var i := FindKey(Contents(), key);
        && (key in assignments <==> i < |lruOrder|)
        && (i < |lruOrder| ==>
              && lruOrder[i] == assignments[key] && assignments[key].contestId == key
              && forall j :: 0 <= j < |lruOrder| && j != i ==> lruOrder[j] != lruOrder[i])
    {
      if key in assignments {
        var j :| 0 <= j < |lruOrder| && lruOrder[j] == assignments[key];
        assert Contents()[j].key == key;
      }
    }

    constructor (maxAssignments: int, assignmentTTL: int)
      ensures Valid() && Contents() == []
      ensures this.maxAssignments == maxAssignments && this.assignmentTTL == assignmentTTL
    {
      this.maxAssignments, this.assignmentTTL := maxAssignments, assignmentTTL;
      assignments, lruOrder := map[], [];
    }

    method GetAssignment(key: ContestId, now: Time) returns (r: Option<V>)
      requires Valid()
      ensures r == GetCall(Contents(), key, now)
    {
      Located(key);
      if key !in assignments { return None; }
      var entry := assignments[key];
      assert Contents()[FindKey(Contents(), key)] == entry.Contents();
      if now > entry.expiresAt { return None; }
      return Some(entry.assignment);
    }

    method EvictOldest()
      requires Valid()
      modifies this
      ensures Valid() && Contents() == Evicted(old(Contents()))
      ensures assignments.Keys <= old(assignments.Keys)
    {
      hide Bijective, Values;
      if lruOrder == [] { return; }
      var last := |lruOrder| - 1;
      var back := lruOrder[last];
      BijectiveRemove(assignments, lruOrder, last);
      assert lruOrder[..last] + lruOrder[last + 1..] == lruOrder[..last];
      assignments := assignments - {back.contestId};
      lruOrder := lruOrder[..last];
      assert Values(lruOrder) == Evicted(old(Contents()));
    }

    method InvalidateAssignment(key: ContestId)
      requires Valid()
      modifies this
      ensures Valid() && Contents() == InvalidateCall(old(Contents()), key)
    {
      hide Bijective, FindKey, RemoveElement, Values;
      Located(key);
      if key in assignments {
        ghost var i := FindKey(Contents(), key);
        RemoveAt(lruOrder, i);
        BijectiveRemove(assignments, lruOrder, i);
        lruOrder := RemoveElement(lruOrder, assignments[key]);
        assignments := assignments - {key};
        assert Values(lruOrder) == Without(old(Contents()), i);
      }
    }

    method InvalidateAll()
      requires Valid()
      modifies this
      ensures Valid() && Contents() == []
    {
      assignments, lruOrder := map[], [];
    }

    method SetAssignment(key: ContestId, assignment: V, now: Time)
      requires Valid()
      modifies this, lruOrder
      ensures Valid()
      ensures Contents() == SetCall(old(Contents()), maxAssignments, Entry(key, assignment, now, now + assignmentTTL))
    {
      hide Bijective, FindKey, Values;
      Located(key);
      if key in assignments {
        Refresh(key, assignment, now);
        return;
      }
      if |lruOrder| >= maxAssignments { EvictOldest(); }
      var entry := new LruEntry(key, assignment, now, now + assignmentTTL);
      BijectivePush(assignments, lruOrder, entry);
      ghost var before := Contents();
      lruOrder := [entry] + lruOrder;
      assignments := assignments[key := entry];
      assert Contents() == [entry.Contents()] + before;
    }

    /** The branch of `SetAssignment` for a key that is cached: rewrite the entry and move it to the front. */
    method Refresh(key: ContestId, assignment: V, now: Time)
      requires Valid() && key in assignments
      modifies this`lruOrder, assignments[key]
      ensures Valid()
      ensures Contents() ==
        [Entry(key, assignment, now, now + assignmentTTL)] + Without(old(Contents()), FindKey(old(Contents()), key))
    {
      hide Bijective, FindKey, RemoveElement, Values;
      Located(key);
      ghost var i := FindKey(Contents(), key);
      var entry := assignments[key];
      RemoveAt(lruOrder, i);
      BijectiveRemove(assignments, lruOrder, i);
      BijectivePush(assignments - {key}, RemoveElement(lruOrder, entry), entry);
      assert (assignments - {key})[key := entry] == assignments;
      entry.assignment, entry.cachedAt, entry.expiresAt := assignment, now, now + assignmentTTL;
      lruOrder := [entry] + RemoveElement(lruOrder, entry);
      assert Contents() == [entry.Contents()] + Without(old(Contents()), i);
    }
  }

  // ----- Runs -----

  datatype Op<V> = Set(key: ContestId, value: V, now: Time) | Invalidate(key: ContestId) | InvalidateEverything

  function Apply<V>(order: seq<Entry<V>>, capacity: int, ttl: int, op: Op<V>): seq<Entry<V>> {
    match op
    case Set(key, value, now) => SetCall(order, capacity, Entry(key, value, now, now + ttl))
    case Invalidate(key) => InvalidateCall(order, key)
    case InvalidateEverything => []
  }

  /** The cache after a run from empty. */
  function After<V>(capacity: int, ttl: int, ops: seq<Op<V>>): seq<Entry<V>> {
    if ops == [] then [] else Apply(After(capacity, ttl, ops[..|ops| - 1]), capacity, ttl, ops[|ops| - 1])
  }

  function Limit(capacity: int): nat {
    if capacity < 1 then 1 else capacity
  }

  /** When a key was last set. */
  function LastSet<V>(ops: seq<Op<V>>, key: ContestId): (i: int)
    ensures -1 <= i < |ops| && (i >= 0 ==> ops[i].Set? && ops[i].key == key)
    ensures forall j :: i < j < |ops| ==> !(ops[j].Set? && ops[j].key == key)
  {
    if ops == [] then -1
    else
      var last := |ops| - 1;
      if ops[last].Set? && ops[last].key == key then last else LastSet(ops[..last], key)
  }

  /** The entry is what its last set wrote. */
  ghost predicate FromLastSet<V>(e: Entry<V>, ttl: int, ops: seq<Op<V>>) {
    var i := LastSet(ops, e.key);
    i >= 0 && e == Entry(e.key, ops[i].value, ops[i].now, ops[i].now + ttl)
  }

  /** Most recently set first; so the entry at the back, the next victim, is the least recently set one. */
  predicate ByRecency<V>(order: seq<Entry<V>>, ops: seq<Op<V>>) {
    forall i, j :: 0 <= i < j < |order| ==> LastSet(ops, order[i].key) > LastSet(ops, order[j].key)
  }

  ghost predicate Recent<V>(order: seq<Entry<V>>, ttl: int, ops: seq<Op<V>>) {
    ByRecency(order, ops) && forall i :: 0 <= i < |order| ==> FromLastSet(order[i], ttl, ops)
  }

  lemma LastSetAppend<V>(ops: seq<Op<V>>, op: Op<V>, key: ContestId)
    ensures LastSet(ops + [op], key) == if op.Set? && op.key == key then |ops| else LastSet(ops, key)
  {
    assert (ops + [op])[..|ops|] == ops;
  }

  lemma WithoutKeeps<V>(order: seq<Entry<V>>, i: nat, ttl: int, ops: seq<Op<V>>)
    requires Recent(order, ttl, ops) && i < |order|
    ensures Recent(Without(order, i), ttl, ops)
  {
    hide LastSet, FromLastSet;
    assert forall j :: 0 <= j < |order| - 1 ==> Without(order, i)[j] == order[if j < i then j else j + 1];
  }

  lemma OpKeeps<V>(order: seq<Entry<V>>, ttl: int, ops: seq<Op<V>>, op: Op<V>)
    requires Recent(order, ttl, ops) && (op.Set? ==> forall i :: 0 <= i < |order| ==> order[i].key != op.key)
    ensures Recent(order, ttl, ops + [op])
  {
    hide LastSet;
    forall i | 0 <= i < |order|
      ensures LastSet(ops + [op], order[i].key) == LastSet(ops, order[i].key)
    {
      LastSetAppend(ops, op, order[i].key);
    }
  }

  lemma PushKeeps<V>(order: seq<Entry<V>>, ttl: int, ops: seq<Op<V>>, op: Op<V>)
    requires op.Set? && Recent(order, ttl, ops) && forall i :: 0 <= i < |order| ==> order[i].key != op.key
    ensures Recent([Entry(op.key, op.value, op.now, op.now + ttl)] + order, ttl, ops + [op])
  {
    hide LastSet;
    OpKeeps(order, ttl, ops, op);
    LastSetAppend(ops, op, op.key);
    forall i | 0 <= i < |order|
      ensures LastSet(ops + [op], order[i].key) < |ops|
    {
      LastSetAppend(ops, op, order[i].key);
    }
  }

  lemma SetKeeps<V>(order: seq<Entry<V>>, capacity: int, ttl: int, ops: seq<Op<V>>, op: Op<V>)
    requires op.Set? && Recent(order, ttl, ops) && |order| <= Limit(capacity)
    ensures Recent(Apply(order, capacity, ttl, op), ttl, ops + [op]) && |Apply(order, capacity, ttl, op)| <= Limit(capacity)
  {
    hide FindKey, Recent, Without;
    var i := FindKey(order, op.key);
    if i < |order| {
      WithoutKeeps(order, i, ttl, ops);
      OthersDiffer(order, i, ttl, ops);
      PushKeeps(Without(order, i), ttl, ops, op);
    } else if |order| >= capacity && order != [] {
      WithoutKeeps(order, |order| - 1, ttl, ops);
      BackIsLast(order);
      PushKeeps(Evicted(order), ttl, ops, op);
    } else {
      PushKeeps(order, ttl, ops, op);
    }
  }

  lemma BackIsLast<V>(order: seq<Entry<V>>)
    requires order != []
    ensures Without(order, |order| - 1) == Evicted(order)
  {
  }

  lemma OthersDiffer<V>(order: seq<Entry<V>>, i: nat, ttl: int, ops: seq<Op<V>>)
    requires Recent(order, ttl, ops) && i < |order|
    ensures |Without(order, i)| == |order| - 1
    ensures forall j :: 0 <= j < |Without(order, i)| ==> Without(order, i)[j].key != order[i].key
  {
    hide LastSet, FromLastSet;
    assert forall j :: 0 <= j < |order| - 1 ==> Without(order, i)[j] == order[if j < i then j else j + 1];
  }

  /**
    In every run: at most the capacity (or one) is kept, each entry is what its last set wrote, and the list is in the
    order of the last sets, so that the victim at the back is the least recently set key.
   */
  lemma {:induction false} CacheOk<V>(capacity: int, ttl: int, ops: seq<Op<V>>)
    ensures |After(capacity, ttl, ops)| <= Limit(capacity) && Recent(After(capacity, ttl, ops), ttl, ops)
  {
    if ops != [] {
      var before, op := ops[..|ops| - 1], ops[|ops| - 1];
      CacheOk(capacity, ttl, before);
      assert ops == before + [op];
      hide Recent, FindKey, Without;
      var order := After(capacity, ttl, before);
      match op
      case Set(_, _, _) => SetKeeps(order, capacity, ttl, before, op);
      case Invalidate(key) =>
        OpKeeps(order, ttl, before, op);
        if FindKey(order, key) < |order| {
          WithoutKeeps(order, FindKey(order, key), ttl, ops);
          OthersDiffer(order, FindKey(order, key), ttl, ops);
        }
      case InvalidateEverything => EmptyRecent<V>(ttl, ops);
    }
  }

  lemma EmptyRecent<V>(ttl: int, ops: seq<Op<V>>)
    ensures Recent([], ttl, ops)
  {
  }

  // ----- What is retained -----

  /** The key was set and has not been invalidated since. */
  predicate Standing<V>(ops: seq<Op<V>>, key: ContestId) {
    if ops == [] then false
    else
      var last := ops[|ops| - 1];
      if last.Set? && last.key == key then true
      else !(last.Invalidate? && last.key == key) && !last.InvalidateEverything? && Standing(ops[..|ops| - 1], key)
  }

  /** The other keys set since the key's last set. */
  function OthersSince<V>(ops: seq<Op<V>>, key: ContestId): set<ContestId> {
    if ops == [] then {}
    else
      var last := ops[|ops| - 1];
      if last.Set? && last.key == key then {}
      else OthersSince(ops[..|ops| - 1], key) + (if last.Set? then {last.key} else {})
  }

  function KeysOf<V>(order: seq<Entry<V>>): set<ContestId> {
    set i | 0 <= i < |order| :: order[i].key
  }

  lemma KeysConcat<V>(a: seq<Entry<V>>, b: seq<Entry<V>>)
    ensures KeysOf(a + b) == KeysOf(a) + KeysOf(b)
  {
    forall key | key in KeysOf(a) + KeysOf(b)
      ensures key in KeysOf(a + b)
    {
      if key in KeysOf(a) {
        var i :| 0 <= i < |a| && a[i].key == key;
        assert (a + b)[i].key == key;
      } else {
        var i :| 0 <= i < |b| && b[i].key == key;
        assert (a + b)[|a| + i].key == key;
      }
    }
  }

  lemma KeysOne<V>(e: Entry<V>)
    ensures KeysOf([e]) == {e.key}
  {
    assert [e][0].key in KeysOf([e]);
  }

  lemma {:induction false} KeysCount<V>(order: seq<Entry<V>>)
    requires DistinctKeys(order)
    ensures |KeysOf(order)| == |order|
  {
    if order != [] {
      var front, back := order[..|order| - 1], order[|order| - 1];
      assert order == front + [back] && back.key !in KeysOf(front);
      KeysConcat(front, [back]);
      KeysOne(back);
      hide KeysOf;
      KeysCount(front);
    }
  }

  /** The key is listed, with only keys set since in front of it. */
  ghost predicate Kept<V>(order: seq<Entry<V>>, key: ContestId, others: set<ContestId>) {
    exists p :: 0 <= p < |order| && order[p].key == key && KeysOf(order[..p]) <= others
  }

  /** To push the key off the back takes as many other keys as the cache holds. */
  lemma VictimCount<V>(order: seq<Entry<V>>, p: nat, x: ContestId, others: set<ContestId>)
    requires DistinctKeys(order) && p == |order| - 1 && KeysOf(order[..p]) <= others
    requires x !in KeysOf(order[..p]) && x in others
    ensures |others| >= |order|
  {
    KeysCount(order[..p]);
    Subset(KeysOf(order[..p]) + {x}, others);
  }

  lemma Subset<T>(a: set<T>, b: set<T>)
    requires a <= b
    ensures |a| <= |b|
  {
    assert b == a + (b - a);
  }

  lemma KeptPush<V>(order: seq<Entry<V>>, e: Entry<V>, key: ContestId, others: set<ContestId>)
    requires Kept(order, key, others)
    ensures Kept([e] + order, key, others + {e.key})
  {
    var p :| 0 <= p < |order| && order[p].key == key && KeysOf(order[..p]) <= others;
    assert ([e] + order)[p + 1] == order[p] && ([e] + order)[..p + 1] == [e] + order[..p];
    KeysConcat([e], order[..p]);
    KeysOne(e);
  }

  lemma KeptWithout<V>(order: seq<Entry<V>>, i: nat, key: ContestId, others: set<ContestId>)
    requires Kept(order, key, others) && i < |order| && order[i].key != key
    ensures Kept(Without(order, i), key, others)
  {
    var p :| 0 <= p < |order| && order[p].key == key && KeysOf(order[..p]) <= others;
    var rest := Without(order, i);
    var q := if p < i then p else p - 1;
    assert rest[q] == order[p];
    if p < i {
      assert rest[..q] == order[..p];
    } else {
      assert rest[..q] == order[..i] + order[i + 1..p] && order[..p] == order[..i] + ([order[i]] + order[i + 1..p]);
      KeysConcat(order[..i], order[i + 1..p]);
      KeysConcat([order[i]], order[i + 1..p]);
      KeysConcat(order[..i], [order[i]] + order[i + 1..p]);
    }
  }

  lemma KeptSet<V>(order: seq<Entry<V>>, capacity: int, e: Entry<V>, key: ContestId, others: set<ContestId>)
    requires Kept(order, key, others) && DistinctKeys(order) && e.key != key && |others + {e.key}| < Limit(capacity)
    ensures Kept(SetCall(order, capacity, e), key, others + {e.key})
  {
    hide FindKey, Without, Kept;
    var i := FindKey(order, e.key);
    if i < |order| {
      KeptWithout(order, i, key, others);
      KeptPush(Without(order, i), e, key, others);
    } else if |order| >= capacity {
      NotTheVictim(order, capacity, e.key, key, others);
      KeptWithout(order, |order| - 1, key, others);
      BackIsLast(order);
      KeptPush(Evicted(order), e, key, others);
    } else {
      KeptPush(order, e, key, others);
    }
  }

  lemma NotTheVictim<V>(order: seq<Entry<V>>, capacity: int, x: ContestId, key: ContestId, others: set<ContestId>)
    requires Kept(order, key, others) && DistinctKeys(order) && (forall i :: 0 <= i < |order| ==> order[i].key != x)
    requires |others + {x}| < Limit(capacity) && |order| >= capacity
    ensures order != [] && order[|order| - 1].key != key
  {
    var p :| 0 <= p < |order| && order[p].key == key && KeysOf(order[..p]) <= others;
    if p == |order| - 1 { VictimCount(order, p, x, others + {x}); }
  }

  /** A standing key with fewer than the limit of other keys set since is still listed. */
  lemma {:induction false} StandingKept<V>(capacity: int, ttl: int, ops: seq<Op<V>>, key: ContestId)
    requires Standing(ops, key) && |OthersSince(ops, key)| < Limit(capacity)
    ensures Kept(After(capacity, ttl, ops), key, OthersSince(ops, key))
  {
    hide FindKey, Kept, Without, Recent;
    var before, op := ops[..|ops| - 1], ops[|ops| - 1];
    var order := After(capacity, ttl, before);
    if op.Set? && op.key == key {
      AtFront(order, capacity, Entry(key, op.value, op.now, op.now + ttl));
    } else {
      Subset(OthersSince(before, key), OthersSince(ops, key));
      StandingKept(capacity, ttl, before, key);
      CacheOk(capacity, ttl, before);
      RecentDistinct(order, ttl, before);
      match op
      case Set(x, value, now) => KeptSet(order, capacity, Entry(x, value, now, now + ttl), key, OthersSince(before, key));
      case Invalidate(x) =>
        if FindKey(order, x) < |order| { KeptWithout(order, FindKey(order, x), key, OthersSince(before, key)); }
    }
  }

  lemma AtFront<V>(order: seq<Entry<V>>, capacity: int, e: Entry<V>)
    ensures Kept(SetCall(order, capacity, e), e.key, {})
  {
    hide FindKey;
    var set' := SetCall(order, capacity, e);
    assert set'[0] == e && set'[..0] == [];
    assert KeysOf(set'[..0]) <= {};
  }

  lemma RecentDistinct<V>(order: seq<Entry<V>>, ttl: int, ops: seq<Op<V>>)
    requires Recent(order, ttl, ops)
    ensures DistinctKeys(order)
  {
    hide LastSet, FromLastSet;
  }

  /**
    Retention: a key that was not invalidated since its last set, with fewer than the limit of distinct other keys set
    since, returns its latest value until that expires.
   */
  lemma Retention<V>(capacity: int, ttl: int, ops: seq<Op<V>>, key: ContestId, now: Time)
    requires Standing(ops, key) && |OthersSince(ops, key)| < Limit(capacity)
    ensures LastSet(ops, key) >= 0
    ensures
      var latest := ops[LastSet(ops, key)];
      GetCall(After(capacity, ttl, ops), key, now) == if now <= latest.now + ttl then Some(latest.value) else None
  {
    hide After, LastSet, Standing, OthersSince;
    StandingKept(capacity, ttl, ops, key);
    CacheOk(capacity, ttl, ops);
    var order := After(capacity, ttl, ops);
    var i := FindKey(order, key);
    assert i < |order|;
    assert FromLastSet(order[i], ttl, ops);
  }

  // ----- The exact condition -----

  /** The other keys set since the key's last set and not invalidated since their own: each holds a place before it. */
  function StandingSince<V>(ops: seq<Op<V>>, key: ContestId): set<ContestId> {
    if ops == [] then {}
    else
      var last, before := ops[|ops| - 1], ops[..|ops| - 1];
      match last
      case Set(x, _, _) => if x == key then {} else StandingSince(before, key) + {x}
      case Invalidate(x) => StandingSince(before, key) - {x}
      case InvalidateEverything => {}
  }

  /** At no moment since the key's last set were there as many standing newer keys as the cache holds. */
  predicate RoomThroughout<V>(ops: seq<Op<V>>, key: ContestId, limit: nat) {
    if ops == [] then true
    else
      var last := ops[|ops| - 1];
      (last.Set? && last.key == key)
      || (|StandingSince(ops, key)| < limit && RoomThroughout(ops[..|ops| - 1], key, limit))
  }

  /** The keys in front of an entry are exactly the standing newer ones. */
  ghost predicate Exact<V>(order: seq<Entry<V>>, ops: seq<Op<V>>) {
    forall p :: 0 <= p < |order| ==> KeysOf(order[..p]) == StandingSince(ops, order[p].key)
  }

  /** What is left behind a pushed key: entries in their old order, without that key. */
  ghost predicate LeftBehind<V>(order: seq<Entry<V>>, rest: seq<Entry<V>>, x: ContestId) {
    forall q :: 0 <= q < |rest| ==> rest[q].key != x && HadPlace(order, rest, x, q)
  }

  ghost predicate HadPlace<V>(order: seq<Entry<V>>, rest: seq<Entry<V>>, x: ContestId, q: nat)
    requires q < |rest|
  {
    exists p :: 0 <= p < |order| && rest[q] == order[p] && KeysOf(order[..p]) + {x} == KeysOf(rest[..q]) + {x}
  }

  lemma ExactPush<V>(order: seq<Entry<V>>, rest: seq<Entry<V>>, e: Entry<V>, ops: seq<Op<V>>, op: Op<V>)
    requires Exact(order, ops) && op.Set? && op.key == e.key && LeftBehind(order, rest, e.key)
    ensures Exact([e] + rest, ops + [op])
  {
    hide KeysOf;
    var longer := [e] + rest;
    assert (ops + [op])[..|ops|] == ops;
    forall q | 0 <= q < |longer|
      ensures KeysOf(longer[..q]) == StandingSince(ops + [op], longer[q].key)
    {
      if q > 0 {
        assert HadPlace(order, rest, e.key, q - 1);
        var p :| 0 <= p < |order| && rest[q - 1] == order[p] && KeysOf(order[..p]) + {e.key} == KeysOf(rest[..q - 1]) + {e.key};
        assert longer[..q] == [e] + rest[..q - 1];
        KeysConcat([e], rest[..q - 1]);
        KeysOne(e);
      } else {
        NoKeys(longer);
      }
    }
  }

  lemma NoKeys<V>(order: seq<Entry<V>>)
    ensures KeysOf(order[..0]) == {}
  {
  }

  lemma LeftByPrefix<V>(order: seq<Entry<V>>, n: nat, x: ContestId)
    requires n <= |order| && forall i :: 0 <= i < n ==> order[i].key != x
    ensures LeftBehind(order, order[..n], x)
  {
    forall q | 0 <= q < n
      ensures HadPlace(order, order[..n], x, q)
    {
      assert order[..n][q] == order[q] && order[..n][..q] == order[..q];
    }
  }

  lemma LeftByWithout<V>(order: seq<Entry<V>>, i: nat)
    requires i < |order| && DistinctKeys(order)
    ensures LeftBehind(order, Without(order, i), order[i].key)
  {
    hide KeysOf;
    var rest, x := Without(order, i), order[i].key;
    forall q | 0 <= q < |rest|
      ensures rest[q].key != x && HadPlace(order, rest, x, q)
    {
      if q < i {
        assert rest[q] == order[q] && rest[..q] == order[..q];
      } else {
        var p := q + 1;
        assert rest[q] == order[p];
        assert rest[..q] == order[..i] + order[i + 1..p] && order[..p] == order[..i] + ([order[i]] + order[i + 1..p]);
        KeysConcat(order[..i], order[i + 1..p]);
        KeysConcat([order[i]], order[i + 1..p]);
        KeysConcat(order[..i], [order[i]] + order[i + 1..p]);
        KeysOne(order[i]);
      }
    }
  }

  lemma ExactSet<V>(order: seq<Entry<V>>, capacity: int, e: Entry<V>, ops: seq<Op<V>>, op: Op<V>)
    requires Exact(order, ops) && DistinctKeys(order) && op.Set? && op.key == e.key
    ensures Exact(SetCall(order, capacity, e), ops + [op])
  {
    hide FindKey, Without, LeftBehind, Exact, DistinctKeys;
    var i := FindKey(order, op.key);
    if i < |order| {
      LeftByWithout(order, i);
      ExactPush(order, Without(order, i), e, ops, op);
    } else {
      var n := if |order| >= capacity && order != [] then |order| - 1 else |order|;
      LeftByPrefix(order, n, op.key);
      ExactPush(order, order[..n], e, ops, op);
      assert SetCall(order, capacity, e) == [e] + order[..n];
    }
  }

  lemma NotInPrefix<V>(order: seq<Entry<V>>, q: nat, x: ContestId)
    requires q <= |order| && forall i :: 0 <= i < |order| ==> order[i].key != x
    ensures x !in KeysOf(order[..q])
  {
  }

  lemma ExactInvalidate<V>(order: seq<Entry<V>>, ops: seq<Op<V>>, x: ContestId)
    requires Exact(order, ops) && DistinctKeys(order)
    ensures Exact(InvalidateCall(order, x), ops + [Invalidate(x)])
  {
    var i, rest := FindKey(order, x), InvalidateCall(order, x);
    assert (ops + [Invalidate(x)])[..|ops|] == ops;
    hide KeysOf, FindKey;
    if i < |order| {
      LeftByWithout(order, i);
      forall q | 0 <= q < |rest|
        ensures KeysOf(rest[..q]) == StandingSince(ops + [Invalidate(x)], rest[q].key)
      {
        assert HadPlace(order, rest, x, q);
        var p :| 0 <= p < |order| && rest[q] == order[p] && KeysOf(order[..p]) + {x} == KeysOf(rest[..q]) + {x};
        NotInPrefix(rest, q, x);
      }
    } else {
      forall q | 0 <= q < |rest|
        ensures KeysOf(rest[..q]) == StandingSince(ops + [Invalidate(x)], rest[q].key)
      {
        NotInPrefix(order, q, x);
      }
    }
  }

  lemma {:induction false} AlwaysExact<V>(capacity: int, ttl: int, ops: seq<Op<V>>)
    ensures Exact(After(capacity, ttl, ops), ops)
  {
    hide Recent, SetCall, StandingSince, KeysOf, InvalidateCall;
    if ops != [] {
      var before, op := ops[..|ops| - 1], ops[|ops| - 1];
      assert ops == before + [op];
      AlwaysExact(capacity, ttl, before);
      CacheOk(capacity, ttl, before);
      var order := After(capacity, ttl, before);
      RecentDistinct(order, ttl, before);
      match op
      case Set(x, value, now) => ExactSet(order, capacity, Entry(x, value, now, now + ttl), before, op);
      case Invalidate(x) => ExactInvalidate(order, before, x);
      case InvalidateEverything =>
    }
  }

  // ----- Which keys are listed -----

  lemma FoundIff<V>(order: seq<Entry<V>>, key: ContestId)
    ensures FindKey(order, key) < |order| <==> key in KeysOf(order)
  {
    var i := FindKey(order, key);
    if i < |order| { assert order[i].key in KeysOf(order); }
  }

  lemma KeysWithout<V>(order: seq<Entry<V>>, i: nat)
    requires i < |order| && DistinctKeys(order)
    ensures KeysOf(Without(order, i)) == KeysOf(order) - {order[i].key}
  {
    hide KeysOf;
    assert order == order[..i] + ([order[i]] + order[i + 1..]);
    KeysConcat(order[..i], order[i + 1..]);
    KeysConcat([order[i]], order[i + 1..]);
    KeysConcat(order[..i], [order[i]] + order[i + 1..]);
    KeysOne(order[i]);
    NotInPrefix(Without(order, i), |order| - 1, order[i].key);
    assert Without(order, i)[..|order| - 1] == Without(order, i);
  }

  /** A set evicts the back entry exactly when its key is not listed and the cache is full. */
  predicate Evicts<V>(order: seq<Entry<V>>, capacity: int, x: ContestId) {
    order != [] && |order| >= capacity && FindKey(order, x) == |order|
  }

  lemma KeysSet<V>(order: seq<Entry<V>>, capacity: int, e: Entry<V>)
    requires DistinctKeys(order)
    ensures KeysOf(SetCall(order, capacity, e)) ==
      (if Evicts(order, capacity, e.key) then KeysOf(order) - {order[|order| - 1].key} else KeysOf(order)) + {e.key}
  {
    hide KeysOf, FindKey, Without;
    var i := FindKey(order, e.key);
    KeysOne(e);
    if i < |order| {
      KeysWithout(order, i);
      KeysConcat([e], Without(order, i));
      FoundIff(order, e.key);
    } else if |order| >= capacity {
      if order != [] {
        KeysWithout(order, |order| - 1);
        BackIsLast(order);
      }
      KeysConcat([e], Evicted(order));
    } else {
      KeysConcat([e], order);
    }
  }

  lemma KeysInvalidate<V>(order: seq<Entry<V>>, x: ContestId)
    requires DistinctKeys(order)
    ensures KeysOf(InvalidateCall(order, x)) == KeysOf(order) - {x}
  {
    hide KeysOf, Without;
    FoundIff(order, x);
    if FindKey(order, x) < |order| { KeysWithout(order, FindKey(order, x)); }
  }

  /** A listed key's place is the number of standing newer keys. */
  lemma PlaceOf<V>(order: seq<Entry<V>>, ops: seq<Op<V>>, key: ContestId)
    requires Exact(order, ops) && DistinctKeys(order) && key in KeysOf(order)
    ensures FindKey(order, key) < |order| && |StandingSince(ops, key)| == FindKey(order, key)
  {
    hide KeysOf, StandingSince;
    FoundIff(order, key);
    KeysCount(order[..FindKey(order, key)]);
  }

  lemma LastPlace<V>(order: seq<Entry<V>>)
    requires DistinctKeys(order) && order != []
    ensures FindKey(order, order[|order| - 1].key) == |order| - 1
  {
  }

  /** Setting another key: the key stays listed exactly while there is room. */
  lemma SetListed<V>(order: seq<Entry<V>>, capacity: int, e: Entry<V>, ops: seq<Op<V>>, op: Op<V>, key: ContestId)
    requires Exact(order, ops) && DistinctKeys(order) && |order| <= Limit(capacity) && op.Set? && op.key == e.key != key
    requires
      var after := SetCall(order, capacity, e);
      Exact(after, ops + [op]) && DistinctKeys(after) && |after| <= Limit(capacity)
    ensures key in KeysOf(SetCall(order, capacity, e)) <==>
      key in KeysOf(order) && |StandingSince(ops + [op], key)| < Limit(capacity)
  {
    hide KeysOf, Exact, DistinctKeys, SetCall;
    KeysSet(order, capacity, e);
    var after := SetCall(order, capacity, e);
    if key in KeysOf(after) {
      PlaceOf(after, ops + [op], key);
    } else if key in KeysOf(order) {
      PlaceOf(order, ops, key);
      LastPlace(order);
      Newcomer(order, ops, op, key);
    }
  }

  /** A key that is not listed is not among the newer standing keys either, so setting it takes one more place. */
  lemma Newcomer<V>(order: seq<Entry<V>>, ops: seq<Op<V>>, op: Op<V>, key: ContestId)
    requires Exact(order, ops) && DistinctKeys(order) && key in KeysOf(order) && op.Set? && op.key != key
    requires FindKey(order, op.key) == |order|
    ensures |StandingSince(ops + [op], key)| == |StandingSince(ops, key)| + 1
  {
    assert (ops + [op])[..|ops|] == ops;
    PlaceOf(order, ops, key);
    NotInPrefix(order, FindKey(order, key), op.key);
  }

  ghost predicate OrderOk<V>(order: seq<Entry<V>>, capacity: int, ops: seq<Op<V>>) {
    Exact(order, ops) && DistinctKeys(order) && |order| <= Limit(capacity)
  }

  lemma AfterOk<V>(capacity: int, ttl: int, ops: seq<Op<V>>)
    ensures OrderOk(After(capacity, ttl, ops), capacity, ops)
  {
    hide After, Recent, Exact, DistinctKeys;
    AlwaysExact(capacity, ttl, ops);
    CacheOk(capacity, ttl, ops);
    RecentDistinct(After(capacity, ttl, ops), ttl, ops);
  }

  lemma OneMore<V>(capacity: int, ttl: int, ops: seq<Op<V>>, op: Op<V>, key: ContestId)
    ensures After(capacity, ttl, ops + [op]) == Apply(After(capacity, ttl, ops), capacity, ttl, op)
    ensures Standing(ops + [op], key) <==>
      || (op.Set? && op.key == key)
      || (!(op.Invalidate? && op.key == key) && !op.InvalidateEverything? && Standing(ops, key))
    ensures forall limit: nat :: RoomThroughout(ops + [op], key, limit) <==>
      (op.Set? && op.key == key) || (|StandingSince(ops + [op], key)| < limit && RoomThroughout(ops, key, limit))
  {
    assert (ops + [op])[..|ops|] == ops;
  }

  lemma ListedStep<V>(capacity: int, order: seq<Entry<V>>, ttl: int, ops: seq<Op<V>>, op: Op<V>, key: ContestId)
    requires OrderOk(order, capacity, ops) && OrderOk(Apply(order, capacity, ttl, op), capacity, ops + [op])
    ensures key in KeysOf(Apply(order, capacity, ttl, op)) <==>
      || (op.Set? && op.key == key)
      || (&& !(op.Invalidate? && op.key == key) && !op.InvalidateEverything?
          && key in KeysOf(order) && |StandingSince(ops + [op], key)| < Limit(capacity))
  {
    hide SetCall, KeysOf, InvalidateCall, Exact, DistinctKeys, StandingSince;
    match op
    case Set(x, value, now) =>
      var e := Entry(x, value, now, now + ttl);
      if x == key { KeysSet(order, capacity, e); } else { SetListed(order, capacity, e, ops, op, key); }
    case Invalidate(x) =>
      KeysInvalidate(order, x);
      if key in KeysOf(InvalidateCall(order, x)) { PlaceOf(InvalidateCall(order, x), ops + [op], key); }
    case InvalidateEverything => EmptyKeys<V>();
  }

  lemma {:induction false} ListedIff<V>(capacity: int, ttl: int, ops: seq<Op<V>>, key: ContestId)
    ensures key in KeysOf(After(capacity, ttl, ops)) <==> Standing(ops, key) && RoomThroughout(ops, key, Limit(capacity))
  {
    if ops == [] {
      EmptyKeys<V>();
    } else {
      hide After, Apply, KeysOf, OrderOk, Standing, RoomThroughout, StandingSince;
      var before, op := ops[..|ops| - 1], ops[|ops| - 1];
      assert ops == before + [op];
      ListedIff(capacity, ttl, before, key);
      AfterOk(capacity, ttl, before);
      AfterOk(capacity, ttl, ops);
      OneMore(capacity, ttl, before, op, key);
      ListedStep(capacity, After(capacity, ttl, before), ttl, before, op, key);
    }
  }

  lemma EmptyKeys<V>()
    ensures KeysOf<V>([]) == {}
  {
  }

  /**
    Exactly when a key is answered, in every run: it was set and not invalidated since, at no moment since were as many
    newer keys standing as the cache holds (invalidations free their places), and it has not expired; the answer is then
    its latest value.
   */
  lemma AnsweredIff<V>(capacity: int, ttl: int, ops: seq<Op<V>>, key: ContestId, now: Time)
    ensures
      var i := LastSet(ops, key);
      GetCall(After(capacity, ttl, ops), key, now) ==
        if Standing(ops, key) && RoomThroughout(ops, key, Limit(capacity)) && i >= 0 && now <= ops[i].now + ttl
        then Some(ops[i].value) else None
    ensures Standing(ops, key) ==> LastSet(ops, key) >= 0
  {
    hide After, LastSet, StandingSince, RoomThroughout, KeysOf;
    StandingWasSet(ops, key);
    ListedIff(capacity, ttl, ops, key);
    var order := After(capacity, ttl, ops);
    FoundIff(order, key);
    CacheOk(capacity, ttl, ops);
    var p := FindKey(order, key);
    if p < |order| { assert FromLastSet(order[p], ttl, ops); }
  }

  lemma {:induction false} StandingWasSet<V>(ops: seq<Op<V>>, key: ContestId)
    ensures Standing(ops, key) ==> LastSet(ops, key) >= 0
  {
    if ops != [] { StandingWasSet(ops[..|ops| - 1], key); }
  }

  predicate SetsOnly<V>(ops: seq<Op<V>>) {
    forall i :: 0 <= i < |ops| ==> ops[i].Set?
  }

  lemma {:induction false} SetsAccumulate<V>(ops: seq<Op<V>>, key: ContestId, limit: nat)
    requires SetsOnly(ops) && limit > 0
    ensures StandingSince(ops, key) == OthersSince(ops, key)
    ensures RoomThroughout(ops, key, limit) <==> |OthersSince(ops, key)| < limit
    ensures Standing(ops, key) <==> LastSet(ops, key) >= 0
  {
    if ops != [] {
      var before := ops[..|ops| - 1];
      SetsAccumulate(before, key, limit);
      if ops[|ops| - 1].key != key { Subset(OthersSince(before, key), OthersSince(ops, key)); }
    }
  }

  /** In a run of sets: a key is answered exactly while fewer than the limit of distinct other keys were set since. */
  lemma AnsweredBySets<V>(capacity: int, ttl: int, ops: seq<Op<V>>, key: ContestId, now: Time)
    requires SetsOnly(ops)
    ensures
      var i := LastSet(ops, key);
      GetCall(After(capacity, ttl, ops), key, now) ==
        if i >= 0 && |OthersSince(ops, key)| < Limit(capacity) && now <= ops[i].now + ttl then Some(ops[i].value) else None
  {
    hide After, LastSet, Standing, OthersSince, StandingSince, RoomThroughout, GetCall;
    SetsAccumulate(ops, key, Limit(capacity));
    AnsweredIff(capacity, ttl, ops, key, now);
  }
}
