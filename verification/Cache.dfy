/** The exact cache with expiring entries: python/urp/cache.py. */
module Cache {
  import opened Common

  datatype CacheEntry<V> = CacheEntry(
    tenant: string,
    namespace: string,
    value: V,
    sources: set<string>,
    verifierPassed: bool,
    expiresAt: Option<real>)
  {
    predicate ExpiredAt(now: real) { expiresAt.Some? && expiresAt.value <= now }
  }

  /** What a caller of `get` presents; no sources means they are not compared. */
  datatype Scope = Scope(tenant: string, namespace: string, sources: Option<set<string>>)

  /** The entry may be shown to the caller, leaving its age aside. */
  predicate InScope<V(!new)>(e: CacheEntry<V>, s: Scope) {
    && e.tenant == s.tenant && e.namespace == s.namespace
    && (s.sources.Some? ==> e.sources == s.sources.value)
    && e.verifierPassed
  }

  predicate Storable<V(!new)>(e: CacheEntry<V>, now: real) {
    e.verifierPassed && e.tenant != "" && e.namespace != "" && !e.ExpiredAt(now)
  }

  function Put<K, V(!new)>(m: map<K, CacheEntry<V>>, key: K, e: CacheEntry<V>, now: real): map<K, CacheEntry<V>> {
    if Storable(e, now) then m[key := e] else m
  }

  /** The value found, and the store after an expired entry has been dropped. */
  function Get<K, V(!new)>(m: map<K, CacheEntry<V>>, key: K, s: Scope, now: real): (map<K, CacheEntry<V>>, Option<V>) {
    if key !in m || !InScope(m[key], s) then (m, None)
    else if m[key].ExpiredAt(now) then (m - {key}, None)
    else (m, Some(m[key].value))
  }

  function Purge<K, V>(m: map<K, CacheEntry<V>>, now: real): map<K, CacheEntry<V>> {
    map k | k in m && !m[k].ExpiredAt(now) :: m[k]
  }

  class URPCache<K(==), V(!new)> {
    var entries: map<K, CacheEntry<V>>

    constructor ()
      ensures entries == map[]
    {
      entries := map[];
    }

    method PutEntry(key: K, e: CacheEntry<V>, now: real) returns (r: Result<()>)
      modifies this
      ensures entries == Put(old(entries), key, e, now)
      ensures r == if Storable(e, now) then Ok(()) else Raise(ValueError)
    {
      if !e.verifierPassed {
        return Raise(ValueError);
      }
      if e.tenant == "" || e.namespace == "" {
        return Raise(ValueError);
      }
      if e.expiresAt.Some? && e.expiresAt.value <= now {
        return Raise(ValueError);
      }
      entries := entries[key := e];
      r := Ok(());
    }

    method GetValue(key: K, s: Scope, now: real) returns (r: Option<V>)
      modifies this
      ensures (entries, r) == Get(old(entries), key, s, now)
    {
      if key !in entries {
        return None;
      }
      var e := entries[key];
      if e.tenant != s.tenant || e.namespace != s.namespace {
        return None;
      }
      if s.sources.Some? && e.sources != s.sources.value {
        return None;
      }
      if !e.verifierPassed {
        return None;
      }
      if e.expiresAt.Some? && e.expiresAt.value <= now {
        entries := entries - {key};
        return None;
      }
      r := Some(e.value);
    }

    method Delete(key: K)
      modifies this
      ensures entries == old(entries) - {key}
    {
      entries := entries - {key};
    }

    method PurgeExpired(now: real) returns (n: nat)
      modifies this
      ensures entries == Purge(old(entries), now)
      ensures n == |old(entries)| - |entries|
    {
      var expired := set k | k in entries && entries[k].ExpiredAt(now);
      ghost var before := entries;
      entries := map k | k in entries && k !in expired :: entries[k];
      n := |expired|;
      assert before.Keys == entries.Keys + expired;
    }
  }

  /** What a get answers: the value, if the entry is the tenant's and the namespace's, of the same sources, verified, and alive. */
  lemma GetAnswersIff<K, V(!new)>(m: map<K, CacheEntry<V>>, key: K, s: Scope, now: real)
    ensures Get(m, key, s, now).1.Some? <==>
              && key in m && m[key].tenant == s.tenant && m[key].namespace == s.namespace
              && (s.sources == None || s.sources == Some(m[key].sources)) && m[key].verifierPassed
              && (m[key].expiresAt == None || now < m[key].expiresAt.value)
    ensures Get(m, key, s, now).1.Some? ==> Get(m, key, s, now).1.value == m[key].value
    ensures forall k :: k in Get(m, key, s, now).0 ==> k in m && Get(m, key, s, now).0[k] == m[k]
    ensures forall k :: k in m && k !in Get(m, key, s, now).0 ==>
              k == key && m[k].expiresAt.Some? && m[k].expiresAt.value <= now
  {}

  /** What a put refuses, and that it takes anything else under its key and touches no other. */
  lemma PutTakesIff<K, V(!new)>(m: map<K, CacheEntry<V>>, key: K, e: CacheEntry<V>, now: real)
    ensures Storable(e, now) <==>
              && e.verifierPassed && e.tenant != "" && e.namespace != ""
              && (e.expiresAt == None || now < e.expiresAt.value)
    ensures Put(m, key, e, now) == if Storable(e, now) then m[key := e] else m
    ensures forall k :: k in Purge(m, now) <==> k in m && (m[k].expiresAt == None || now < m[k].expiresAt.value)
  {}

  // ----- Expiry cannot be observed -----

  datatype Op<K, V> =
    | PutOp(key: K, entry: CacheEntry<V>, at: real)
    | GetOp(key: K, scope: Scope, at: real)
    | DeleteOp(key: K, at: real)
    | PurgeOp(at: real)

  /** The store as the code keeps it, and what the call answers. */
  function Step<K, V(!new)>(m: map<K, CacheEntry<V>>, op: Op<K, V>): (map<K, CacheEntry<V>>, Option<V>) {
    match op
    case PutOp(key, e, at) => (Put(m, key, e, at), None)
    case GetOp(key, s, at) => Get(m, key, s, at)
    case DeleteOp(key, _) => (m - {key}, None)
    case PurgeOp(at) => (Purge(m, at), None)
  }

  /** A store that never drops an entry for its age. */
  function IdealStep<K, V(!new)>(m: map<K, CacheEntry<V>>, op: Op<K, V>): (map<K, CacheEntry<V>>, Option<V>) {
    match op
    case PutOp(key, e, at) => (Put(m, key, e, at), None)
    case GetOp(key, s, at) =>
      (m, if key in m && InScope(m[key], s) && !m[key].ExpiredAt(at) then Some(m[key].value) else None)
    case DeleteOp(key, _) => (m - {key}, None)
    case PurgeOp(_) => (m, None)
  }

  function Answers<K, V(!new)>(m: map<K, CacheEntry<V>>, ops: seq<Op<K, V>>): seq<Option<V>>
    decreases |ops|
  {
    if ops == [] then [] else [Step(m, ops[0]).1] + Answers(Step(m, ops[0]).0, ops[1..])
  }

  function IdealAnswers<K, V(!new)>(m: map<K, CacheEntry<V>>, ops: seq<Op<K, V>>): seq<Option<V>>
    decreases |ops|
  {
    if ops == [] then [] else [IdealStep(m, ops[0]).1] + IdealAnswers(IdealStep(m, ops[0]).0, ops[1..])
  }

  /** The clock never goes back, starting from `now`. */
  ghost predicate Forward<K, V>(ops: seq<Op<K, V>>, now: real)
    decreases |ops|
  {
    ops == [] || (now <= ops[0].at && Forward(ops[1..], ops[0].at))
  }

  /** `m` is `ideal` but for entries that had expired by `now`. */
  ghost predicate Thinned<K, V>(m: map<K, CacheEntry<V>>, ideal: map<K, CacheEntry<V>>, now: real) {
    && (forall k :: k in m ==> k in ideal && ideal[k] == m[k])
    && (forall k :: k in ideal && k !in m ==> ideal[k].ExpiredAt(now))
  }

  lemma StepThins<K, V(!new)>(m: map<K, CacheEntry<V>>, ideal: map<K, CacheEntry<V>>, op: Op<K, V>, now: real)
    requires Thinned(m, ideal, now) && now <= op.at
    ensures Step(m, op).1 == IdealStep(ideal, op).1
    ensures Thinned(Step(m, op).0, IdealStep(ideal, op).0, op.at)
  {}

  /** With a forward clock, dropping expired entries never changes any later answer. */
  lemma {:induction false} ExpiryUnobservable<K, V(!new)>(
      m: map<K, CacheEntry<V>>, ideal: map<K, CacheEntry<V>>, ops: seq<Op<K, V>>, now: real)
    requires Thinned(m, ideal, now) && Forward(ops, now)
    ensures Answers(m, ops) == IdealAnswers(ideal, ops)
    decreases |ops|
  {
    if ops != [] {
      hide Thinned, Step, IdealStep;
      StepThins(m, ideal, ops[0], now);
      ExpiryUnobservable(Step(m, ops[0]).0, IdealStep(ideal, ops[0]).0, ops[1..], ops[0].at);
    }
  }

  function Readings<K, V>(ops: seq<Op<K, V>>): seq<real> {
    if ops == [] then [] else [ops[0].at] + Readings(ops[1..])
  }

  ghost predicate NeverBack(ts: seq<real>) {
    |ts| <= 1 || (ts[0] <= ts[1] && NeverBack(ts[1..]))
  }

  /** No store and no calls with these clock readings show whether expired entries are dropped. */
  ghost predicate Unobservable<K(!new), V(!new)>(ts: seq<real>) {
    forall m: map<K, CacheEntry<V>>, ops: seq<Op<K, V>> :: Readings(ops) == ts ==> Answers(m, ops) == IdealAnswers(m, ops)
  }

  lemma {:induction false} NeverBackIsForward<K, V>(ops: seq<Op<K, V>>, now: real)
    requires NeverBack([now] + Readings(ops))
    ensures Forward(ops, now)
    decreases |ops|
  {
    if ops != [] {
      var ts := [now] + Readings(ops);
      assert ts[1..] == Readings(ops) == [ops[0].at] + Readings(ops[1..]);
      NeverBackIsForward(ops[1..], ops[0].at);
    }
  }

  lemma OneStep<K, V(!new)>(m: map<K, CacheEntry<V>>, op: Op<K, V>, rest: seq<Op<K, V>>)
    ensures Answers(m, [op] + rest) == [Step(m, op).1] + Answers(Step(m, op).0, rest)
    ensures IdealAnswers(m, [op] + rest) == [IdealStep(m, op).1] + IdealAnswers(IdealStep(m, op).0, rest)
    ensures Readings([op] + rest) == [op.at] + Readings(rest)
  {
    assert ([op] + rest)[1..] == rest;
  }

  /** A get at `t1` drops an entry that a get at an earlier `t2` would have found. */
  lemma BackwardStepObservable<K, V(!new)>(key: K, v: V, t1: real, t2: real, rest: seq<Op<K, V>>)
    requires t2 < t1
    ensures var m := map[key := CacheEntry("t", "n", v, {}, true, Some(t1))];
            var s := Scope("t", "n", None);
            var ops := [GetOp(key, s, t1), GetOp(key, s, t2)] + rest;
            Answers(m, ops) != IdealAnswers(m, ops)
  {
    var e := CacheEntry("t", "n", v, {}, true, Some(t1));
    var m: map<K, CacheEntry<V>>, none: map<K, CacheEntry<V>> := map[key := e], map[];
    var s := Scope("t", "n", None);
    var g1: Op<K, V>, g2: Op<K, V> := GetOp(key, s, t1), GetOp(key, s, t2);
    assert [g1, g2] + rest == [g1] + ([g2] + rest);
    assert m - {key} == none;
    assert Step(m, g1) == (none, None) && Step(none, g2) == (none, None);
    assert IdealStep(m, g1) == (m, None) && IdealStep(m, g2) == (m, Some(v));
    hide Step, IdealStep, Answers, IdealAnswers;
    OneStep(m, g1, [g2] + rest);
    OneStep(none, g2, rest);
    OneStep(m, g2, rest);
    assert Answers(m, [g1, g2] + rest)[1] == None && IdealAnswers(m, [g1, g2] + rest)[1] == Some(v);
  }

  lemma {:induction false} OpsAt<K, V>(key: K, ts: seq<real>) returns (ops: seq<Op<K, V>>)
    ensures Readings(ops) == ts
  {
    if ts == [] {
      ops := [];
    } else {
      var rest := OpsAt(key, ts[1..]);
      ops := [PurgeOp(ts[0])] + rest;
      assert ops[1..] == rest;
    }
  }

  /** Readings that go back somewhere have a store and calls that show it. */
  lemma {:induction false} BackwardClockObservable<K, V(!new)>(key: K, v: V, ts: seq<real>)
    returns (m: map<K, CacheEntry<V>>, ops: seq<Op<K, V>>)
    requires !NeverBack(ts)
    ensures Readings(ops) == ts && Answers(m, ops) != IdealAnswers(m, ops)
    ensures forall k :: k in m ==> m[k].tenant == "t"
  {
    hide Answers, IdealAnswers;
    if ts[1] < ts[0] {
      var rest := OpsAt(key, ts[2..]);
      BackwardStepObservable(key, v, ts[0], ts[1], rest);
      m := map[key := CacheEntry("t", "n", v, {}, true, Some(ts[0]))];
      var s := Scope("t", "n", None);
      var g1: Op<K, V>, g2: Op<K, V> := GetOp(key, s, ts[0]), GetOp(key, s, ts[1]);
      ops := [g1, g2] + rest;
      OneStep(m, g1, [g2] + rest);
      OneStep(m, g2, rest);
      assert ops == [g1] + ([g2] + rest) && ts == [ts[0]] + ([ts[1]] + ts[2..]);
    } else {
      var rest;
      m, rest := BackwardClockObservable(key, v, ts[1..]);
      var idle: Op<K, V> := GetOp(key, Scope("", "", None), ts[0]);
      ops := [idle] + rest;
      OneStep(m, idle, rest);
      assert Step(m, idle) == IdealStep(m, idle) == (m, None);
      assert ts == [ts[0]] + ts[1..];
      assert Answers(m, ops)[1..] == Answers(m, rest) && IdealAnswers(m, ops)[1..] == IdealAnswers(m, rest);
    }
  }

  /** Expiry is unobservable at given clock readings if and only if they never go back. */
  lemma UnobservableIffNeverBack<K(!new), V(!new)>(key: K, v: V, ts: seq<real>)
    ensures Unobservable<K, V>(ts) <==> NeverBack(ts)
  {
    hide Answers, IdealAnswers;
    if NeverBack(ts) {
      forall m: map<K, CacheEntry<V>>, ops: seq<Op<K, V>> | Readings(ops) == ts
        ensures Answers(m, ops) == IdealAnswers(m, ops)
      {
        var now := if ts == [] then 0.0 else ts[0];
        assert ([now] + ts)[1..] == ts;
        NeverBackIsForward(ops, now);
        ExpiryUnobservable(m, m, ops, now);
      }
    } else {
      var m, ops := BackwardClockObservable(key, v, ts);
    }
  }
}
