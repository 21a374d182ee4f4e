/** Reuse of answers to similar questions: python/urp/semantic_cache.py. */
module SemanticCache {
  import opened Common
  import Similarity

  datatype Entry<K, V> = Entry(
    key: K,
    tenant: string,
    namespace: string,
    text: string,
    value: V,
    sources: set<string>,
    accepted: bool,
    taskType: string,
    createdAt: real,
    expiresAt: Option<real>)
  {
    predicate ExpiredAt(now: real) { expiresAt.Some? && expiresAt.value <= now }
  }

  /** What `store` hashes into the key of an entry. */
  datatype QuestionKey = QuestionKey(
    tenant: string, namespace: string, text: string, sources: set<string>, taskType: string)

  /** A lookup; `text` is already normalised. */
  datatype Query = Query(
    tenant: string, namespace: string, text: string, sources: set<string>, taskType: string, threshold: real)
  {
    predicate InRange() { 0.0 <= threshold <= 1.0 }
  }

  datatype Hit<K, V> = Hit(entry: Entry<K, V>, score: real)

  predicate InScope<K, V>(e: Entry<K, V>, q: Query) {
    e.tenant == q.tenant && e.namespace == q.namespace && e.taskType == q.taskType
  }

  predicate Eligible<K, V>(e: Entry<K, V>, q: Query, now: real) {
    && InScope(e, q) && !e.ExpiredAt(now) && e.sources == q.sources && e.accepted
    && Similarity.Score(q.text, e.text) >= q.threshold
  }

  /** The loop's `best` after the listed entries, in the order the store keeps them. */
  function Best<K, V>(es: seq<Entry<K, V>>, q: Query, now: real): Option<Hit<K, V>> {
    if es == [] then None
    else
      var e := es[|es| - 1];
      var before := Best(es[..|es| - 1], q, now);
      var score := Similarity.Score(q.text, e.text);
      if Eligible(e, q, now) && (before == None || score > before.value.score) then Some(Hit(e, score)) else before
  }

  function DropKey<K(==), V>(es: seq<Entry<K, V>>, key: K): seq<Entry<K, V>> {
    if es == [] then []
    else
      var e := es[|es| - 1];
      DropKey(es[..|es| - 1], key) + if e.key == key then [] else [e]
  }

  /** The entries a lookup leaves: expired ones in its scope are dropped. */
  function DropExpired<K, V>(es: seq<Entry<K, V>>, q: Query, now: real): seq<Entry<K, V>> {
    if es == [] then []
    else
      var e := es[|es| - 1];
      DropExpired(es[..|es| - 1], q, now) + if InScope(e, q) && e.ExpiredAt(now) then [] else [e]
  }

  ghost predicate NoKey<K, V>(es: seq<Entry<K, V>>, key: K) { forall e :: e in es ==> e.key != key }

  predicate HasKey<K(==), V>(es: seq<Entry<K, V>>, key: K) {
    es != [] && (es[|es| - 1].key == key || HasKey(es[..|es| - 1], key))
  }

  function Replace<K(==), V>(es: seq<Entry<K, V>>, e: Entry<K, V>): seq<Entry<K, V>> {
    if es == [] then []
    else
      var last := es[|es| - 1];
      Replace(es[..|es| - 1], e) + [if last.key == e.key then e else last]
  }

  /** A dictionary assignment: an old key keeps its place, a new one goes last. */
  function Assign<K(==), V>(es: seq<Entry<K, V>>, e: Entry<K, V>): seq<Entry<K, V>> {
    if HasKey(es, e.key) then Replace(es, e) else es + [e]
  }

  ghost predicate DistinctKeys<K, V>(es: seq<Entry<K, V>>) {
    es == [] || (DistinctKeys(es[..|es| - 1]) && NoKey(es[..|es| - 1], es[|es| - 1].key))
  }

  /** The store afterwards and the hit; `verify` is the caller's output check. */
  function Lookup<K(==), V>(es: seq<Entry<K, V>>, q: Query, now: real, verify: V -> bool)
    : (seq<Entry<K, V>>, Option<Hit<K, V>>)
  {
    var left := DropExpired(es, q, now);
    match Best(es, q, now)
    case None => (left, None)
    case Some(hit) => if verify(hit.entry.value) then (left, Some(hit)) else (DropKey(left, hit.entry.key), None)
  }

  predicate Storable<K, V>(e: Entry<K, V>, now: real) { e.accepted && !e.ExpiredAt(now) }

  class SemanticCache<K(==), V> {
    var entries: seq<Entry<K, V>>

    constructor ()
      ensures entries == []
    {
      entries := [];
    }

    method PutEntry(e: Entry<K, V>, now: real) returns (r: Result<()>)
      modifies this
      ensures r == if Storable(e, now) then Ok(()) else Raise(ValueError)
      ensures entries == if Storable(e, now) then Assign(old(entries), e) else old(entries)
    {
      if !e.accepted || e.ExpiredAt(now) {
        return Raise(ValueError);
      }
      entries := Assign(entries, e);
      r := Ok(());
    }

    method Delete(key: K)
      modifies this
      ensures entries == DropKey(old(entries), key)
    {
      entries := DropKey(entries, key);
    }

    method LookupHit(q: Query, now: real, verify: V -> bool) returns (r: Result<Option<Hit<K, V>>>)
      requires DistinctKeys(entries)
      modifies this
      ensures !q.InRange() ==> r == Raise(ValueError) && entries == old(entries)
      ensures q.InRange() ==>
                r.Ok? && (entries, r.value) == Lookup(old(entries), q, now, verify)
    {
      if !(0.0 <= q.threshold <= 1.0) {
        return Raise(ValueError);
      }
      hide Best, DropExpired, DropKey;
      var listed := entries;
      var best: Option<Hit<K, V>> := None;
      ScanStarts(listed, q, now);
      for i := 0 to |listed|
        invariant best == Best(listed[..i], q, now)
        invariant entries == DropExpired(listed[..i], q, now) + listed[i..]
      {
        ScanStep(listed, i, q, now);
        var e := listed[i];
        if !InScope(e, q) {
          continue;
        }
        if e.ExpiredAt(now) {
          DropOne(listed, i, q, now);
          Delete(e.key);
          continue;
        }
        if e.sources != q.sources || !e.accepted {
          continue;
        }
        var score := Similarity.Score(q.text, e.text);
        if score >= q.threshold && (best == None || score > best.value.score) {
          best := Some(Hit(e, score));
        }
      }
      assert listed[..|listed|] == listed && listed[|listed|..] == [];
      assert entries == DropExpired(listed, q, now);
      if best == None {
        return Ok(None);
      }
      if !verify(best.value.entry.value) {
        Delete(best.value.entry.key);
        return Ok(None);
      }
      r := Ok(best);
    }
  }

  lemma ScanStarts<K, V>(listed: seq<Entry<K, V>>, q: Query, now: real)
    ensures Best(listed[..0], q, now) == None && DropExpired(listed[..0], q, now) + listed[0..] == listed
  {}

  /** What one more entry does to the loop's variables, unless it is dropped. */
  lemma ScanStep<K, V>(listed: seq<Entry<K, V>>, i: nat, q: Query, now: real)
    requires i < |listed|
    ensures var e := listed[i];
            var before := Best(listed[..i], q, now);
            var score := Similarity.Score(q.text, e.text);
            Best(listed[..i + 1], q, now) ==
              if Eligible(e, q, now) && (before == None || score > before.value.score) then Some(Hit(e, score)) else before
    ensures !(InScope(listed[i], q) && listed[i].ExpiredAt(now)) ==>
              DropExpired(listed[..i], q, now) + listed[i..] == DropExpired(listed[..i + 1], q, now) + listed[i + 1..]
  {
    assert listed[..i + 1][..i] == listed[..i];
    assert listed[i..] == [listed[i]] + listed[i + 1..];
  }

  lemma {:induction false} DropKeyAppend<K, V>(xs: seq<Entry<K, V>>, ys: seq<Entry<K, V>>, key: K)
    ensures DropKey(xs + ys, key) == DropKey(xs, key) + DropKey(ys, key)
  {
    if ys == [] {
      assert xs + ys == xs;
    } else {
      var n := |ys| - 1;
      assert (xs + ys)[..|xs + ys| - 1] == xs + ys[..n];
      DropKeyAppend(xs, ys[..n], key);
    }
  }

  lemma {:induction false} DropKeyAbsent<K, V>(es: seq<Entry<K, V>>, key: K)
    requires NoKey(es, key)
    ensures DropKey(es, key) == es
  {
    if es != [] {
      var n := |es| - 1;
      assert es == es[..n] + [es[n]] && es[n] in es && es[n].key != key;
      assert NoKey(es[..n], key) by {
        assert forall e :: e in es[..n] ==> e in es;
      }
      hide NoKey;
      DropKeyAbsent(es[..n], key);
    }
  }

  lemma {:induction false} DropExpiredMembers<K, V>(es: seq<Entry<K, V>>, q: Query, now: real)
    ensures forall e :: e in DropExpired(es, q, now) <==> e in es && !(InScope(e, q) && e.ExpiredAt(now))
  {
    if es != [] {
      var n := |es| - 1;
      DropExpiredMembers(es[..n], q, now);
      assert es == es[..n] + [es[n]];
    }
  }

  /** Dropping entries brings no new key. */
  lemma {:induction false} DropsAddNoKey<K, V>(es: seq<Entry<K, V>>, q: Query, now: real, dropped: K, key: K)
    requires NoKey(es, key)
    ensures NoKey(DropExpired(es, q, now), key) && NoKey(DropKey(es, dropped), key)
  {
    if es != [] {
      var n := |es| - 1;
      assert es == es[..n] + [es[n]];
      assert es[n] in es;
      DropsAddNoKey(es[..n], q, now, dropped, key);
    }
  }

  lemma {:induction false} DistinctAround<K, V>(es: seq<Entry<K, V>>, i: nat)
    requires DistinctKeys(es) && i < |es|
    ensures NoKey(es[..i], es[i].key) && NoKey(es[i + 1..], es[i].key)
  {
    if i < |es| - 1 {
      var n := |es| - 1;
      DistinctAround(es[..n], i);
      assert es[..n][..i] == es[..i] && es[i + 1..] == es[..n][i + 1..] + [es[n]];
      assert es[..n][i] in es[..n];
    }
  }

  /** Deleting the expired entry at hand takes it out of what is still listed. */
  lemma DropOne<K, V>(listed: seq<Entry<K, V>>, i: nat, q: Query, now: real)
    requires DistinctKeys(listed) && i < |listed| && InScope(listed[i], q) && listed[i].ExpiredAt(now)
    ensures DropKey(DropExpired(listed[..i], q, now) + listed[i..], listed[i].key)
         == DropExpired(listed[..i + 1], q, now) + listed[i + 1..]
  {
    hide DropKey, DropExpired, DistinctKeys;
    var e := listed[i];
    var done, rest := DropExpired(listed[..i], q, now), listed[i + 1..];
    DistinctAround(listed, i);
    DropsAddNoKey(listed[..i], q, now, e.key, e.key);
    DropKeyAppend(done, listed[i..], e.key);
    DropKeyAppend([e], rest, e.key);
    DropKeyAbsent(done, e.key);
    DropKeyAbsent(rest, e.key);
    DropSingle(e);
    DropExpiredLast(listed, i, q, now);
    assert listed[i..] == [e] + rest;
    assert [] + rest == rest;
  }

  lemma DropSingle<K, V>(e: Entry<K, V>)
    ensures DropKey([e], e.key) == []
  {
    assert [e][..0] == [];
  }

  lemma DropExpiredLast<K, V>(listed: seq<Entry<K, V>>, i: nat, q: Query, now: real)
    requires i < |listed| && InScope(listed[i], q) && listed[i].ExpiredAt(now)
    ensures DropExpired(listed[..i + 1], q, now) == DropExpired(listed[..i], q, now)
  {
    assert listed[..i + 1][..i] == listed[..i];
  }

  // ----- The hit is the best there is -----

  /** The hit is eligible and no eligible entry scores higher; there is none only when nothing is eligible. */
  lemma {:induction false} BestIsOptimal<K, V>(es: seq<Entry<K, V>>, q: Query, now: real)
    ensures match Best(es, q, now)
            case None => forall e :: e in es ==> !Eligible(e, q, now)
            case Some(hit) =>
              && hit.entry in es && Eligible(hit.entry, q, now)
              && hit.score == Similarity.Score(q.text, hit.entry.text)
              && forall e :: e in es && Eligible(e, q, now) ==> Similarity.Score(q.text, e.text) <= hit.score
  {
    hide Eligible;
    if es != [] {
      BestIsOptimal(es[..|es| - 1], q, now);
      assert es == es[..|es| - 1] + [es[|es| - 1]];
      BestEligible(es, q, now);
    }
  }

  lemma BestEligible<K, V>(es: seq<Entry<K, V>>, q: Query, now: real)
    requires es != []
    ensures var e := es[|es| - 1];
            Best(es, q, now) ==
              (var before := Best(es[..|es| - 1], q, now);
               var score := Similarity.Score(q.text, e.text);
               if Eligible(e, q, now) && (before == None || score > before.value.score) then Some(Hit(e, score))
               else before)
  {}

  /** What may answer a question: an accepted, live entry of its tenant, namespace, task and sources that is similar enough. */
  lemma EligibleMeans<K, V>(e: Entry<K, V>, q: Query, now: real)
    ensures Eligible(e, q, now) <==>
              && e.tenant == q.tenant && e.namespace == q.namespace && e.taskType == q.taskType && e.sources == q.sources
              && e.accepted && (e.expiresAt == None || now < e.expiresAt.value)
              && Similarity.Score(q.text, e.text) >= q.threshold
    ensures Storable(e, now) <==> e.accepted && (e.expiresAt == None || now < e.expiresAt.value)
  {}

  /** A lookup drops the expired entries of its tenant, namespace and task, and the best one if it is refused; nothing else. */
  lemma LookupLeaves<K, V>(es: seq<Entry<K, V>>, q: Query, now: real, verify: V -> bool, e: Entry<K, V>)
    ensures var best := Best(es, q, now);
            e in Lookup(es, q, now, verify).0 <==>
              && e in es
              && !(e.tenant == q.tenant && e.namespace == q.namespace && e.taskType == q.taskType
                   && e.expiresAt.Some? && e.expiresAt.value <= now)
              && (best.Some? && !verify(best.value.entry.value) ==> e.key != best.value.entry.key)
  {
    hide Best, DropExpired, DropKey;
    DropExpiredMembers(es, q, now);
    var best := Best(es, q, now);
    if best.Some? {
      DropKeyMembers(DropExpired(es, q, now), best.value.entry.key);
    }
  }

  /** No two different eligible entries share the highest score. */
  ghost predicate NoTie<K(!new), V(!new)>(es: seq<Entry<K, V>>, q: Query, now: real) {
    forall x, y :: x in es && y in es && Highest(es, q, now, x) && Highest(es, q, now, y) ==> x == y
  }

  ghost predicate Highest<K, V>(es: seq<Entry<K, V>>, q: Query, now: real, x: Entry<K, V>) {
    && Eligible(x, q, now)
    && forall e :: e in es && Eligible(e, q, now) ==>
         Similarity.Score(q.text, e.text) <= Similarity.Score(q.text, x.text)
  }

  /** Stores that hold the same entries alive at `now`, in whatever order. */
  ghost predicate SameLive<K(!new), V(!new)>(es: seq<Entry<K, V>>, fs: seq<Entry<K, V>>, now: real) {
    forall e: Entry<K, V> :: !e.ExpiredAt(now) ==> (e in es <==> e in fs)
  }

  /** Without a tie the hit depends on the live entries alone. */
  lemma BestIgnoresOrder<K(!new), V(!new)>(es: seq<Entry<K, V>>, fs: seq<Entry<K, V>>, q: Query, now: real)
    requires SameLive(es, fs, now) && NoTie(es, q, now)
    ensures Best(es, q, now) == Best(fs, q, now)
  {
    BestIsOptimal(es, q, now);
    BestIsOptimal(fs, q, now);
    assert forall e :: Eligible(e, q, now) ==> (e in es <==> e in fs);
    hide Eligible, Best;
    var x, y := Best(es, q, now), Best(fs, q, now);
    if x.Some? && y.Some? {
      assert Highest(es, q, now, x.value.entry) && Highest(es, q, now, y.value.entry);
    }
  }

  lemma BestOfTwo<K, V>(x: Entry<K, V>, y: Entry<K, V>, q: Query, now: real)
    requires Eligible(x, q, now)
    requires Similarity.Score(q.text, y.text) <= Similarity.Score(q.text, x.text)
    ensures Best([x, y], q, now) == Some(Hit(x, Similarity.Score(q.text, x.text)))
  {
    hide Eligible, Similarity.Score, Best;
    assert [x, y][..1] == [x] && [x][..0] == [];
    NoBest<K, V>(q, now);
    BestEligible([x], q, now);
    BestEligible([x, y], q, now);
  }

  lemma NoBest<K, V>(q: Query, now: real)
    ensures forall es: seq<Entry<K, V>> :: es == [] ==> Best(es, q, now) == None
  {}

  /** With a tie at the top it does not: the entry that comes first wins. */
  lemma TieGoesToFirst<K, V>(x: Entry<K, V>, y: Entry<K, V>, q: Query, now: real)
    requires Eligible(x, q, now) && Eligible(y, q, now)
    requires Similarity.Score(q.text, x.text) == Similarity.Score(q.text, y.text)
    ensures Best([x, y], q, now) == Some(Hit(x, Similarity.Score(q.text, x.text)))
    ensures Best([y, x], q, now) == Some(Hit(y, Similarity.Score(q.text, y.text)))
  {
    hide Best, Eligible;
    BestOfTwo(x, y, q, now);
    BestOfTwo(y, x, q, now);
  }

  // ----- Runs -----

  datatype Op<K, V> =
    | PutOp(entry: Entry<K, V>, at: real)
    | LookupOp(query: Query, at: real)
    | DeleteOp(key: K, at: real)

  function Step<K(==), V>(es: seq<Entry<K, V>>, op: Op<K, V>, verify: V -> bool)
    : (seq<Entry<K, V>>, Option<Hit<K, V>>)
  {
    match op
    case PutOp(e, at) => (if Storable(e, at) then Assign(es, e) else es, None)
    case LookupOp(q, at) => if q.InRange() then Lookup(es, q, at, verify) else (es, None)
    case DeleteOp(key, _) => (DropKey(es, key), None)
  }

  /** A store that keeps expired entries, and only passes over them. */
  function IdealStep<K(==), V>(es: seq<Entry<K, V>>, op: Op<K, V>, verify: V -> bool)
    : (seq<Entry<K, V>>, Option<Hit<K, V>>)
  {
    match op
    case LookupOp(q, at) =>
      if !q.InRange() then (es, None)
      else
        (match Best(es, q, at)
         case None => (es, None)
         case Some(hit) => if verify(hit.entry.value) then (es, Some(hit)) else (DropKey(es, hit.entry.key), None))
    case _ => Step(es, op, verify)
  }

  function Hits<K(==), V>(es: seq<Entry<K, V>>, ops: seq<Op<K, V>>, verify: V -> bool): seq<Option<Hit<K, V>>>
    decreases |ops|
  {
    if ops == [] then [] else [Step(es, ops[0], verify).1] + Hits(Step(es, ops[0], verify).0, ops[1..], verify)
  }

  function IdealHits<K(==), V>(es: seq<Entry<K, V>>, ops: seq<Op<K, V>>, verify: V -> bool): seq<Option<Hit<K, V>>>
    decreases |ops|
  {
    if ops == [] then []
    else [IdealStep(es, ops[0], verify).1] + IdealHits(IdealStep(es, ops[0], verify).0, ops[1..], verify)
  }

  /** The clock goes forward and no lookup of the ideal run meets a tie. */
  ghost predicate Smooth<K(!new), V(!new)>(es: seq<Entry<K, V>>, ops: seq<Op<K, V>>, now: real, verify: V -> bool)
    decreases |ops|
  {
    ops == [] ||
    (&& now <= ops[0].at
     && (ops[0].LookupOp? && ops[0].query.InRange() ==> NoTie(es, ops[0].query, ops[0].at))
     && Smooth(IdealStep(es, ops[0], verify).0, ops[1..], ops[0].at, verify))
  }

  lemma {:induction false} DropKeyMembers<K, V>(es: seq<Entry<K, V>>, key: K)
    ensures forall e :: e in DropKey(es, key) <==> e in es && e.key != key
  {
    if es != [] {
      var n := |es| - 1;
      DropKeyMembers(es[..n], key);
      assert es == es[..n] + [es[n]];
    }
  }

  lemma {:induction false} HasKeyMeans<K, V>(es: seq<Entry<K, V>>, key: K)
    ensures HasKey(es, key) <==> !NoKey(es, key)
  {
    if es != [] {
      HasKeyMeans(es[..|es| - 1], key);
      assert es == es[..|es| - 1] + [es[|es| - 1]];
    }
  }

  lemma {:induction false} ReplaceMembers<K, V>(es: seq<Entry<K, V>>, e: Entry<K, V>)
    ensures forall x :: x in Replace(es, e) <==> (x in es && x.key != e.key) || (x == e && HasKey(es, e.key))
  {
    if es != [] {
      ReplaceMembers(es[..|es| - 1], e);
      assert es == es[..|es| - 1] + [es[|es| - 1]];
    }
  }

  lemma {:induction false} ReplaceKeys<K, V>(es: seq<Entry<K, V>>, e: Entry<K, V>, key: K)
    requires NoKey(es, key)
    ensures NoKey(Replace(es, e), key)
  {
    if es != [] {
      assert es == es[..|es| - 1] + [es[|es| - 1]];
      assert es[|es| - 1] in es;
      ReplaceKeys(es[..|es| - 1], e, key);
    }
  }

  lemma {:induction false} ReplaceDistinct<K, V>(es: seq<Entry<K, V>>, e: Entry<K, V>)
    requires DistinctKeys(es)
    ensures DistinctKeys(Replace(es, e))
  {
    if es != [] {
      hide NoKey;
      var n := |es| - 1;
      ReplaceDistinct(es[..n], e);
      ReplaceKeys(es[..n], e, es[n].key);
      DistinctSnoc(Replace(es[..n], e), if es[n].key == e.key then e else es[n]);
    }
  }

  lemma DistinctSnoc<K, V>(es: seq<Entry<K, V>>, e: Entry<K, V>)
    requires DistinctKeys(es) && NoKey(es, e.key)
    ensures DistinctKeys(es + [e])
  {
    assert (es + [e])[..|es|] == es;
  }

  lemma AssignMembers<K, V>(es: seq<Entry<K, V>>, e: Entry<K, V>)
    requires DistinctKeys(es)
    ensures forall x :: x in Assign(es, e) <==> x == e || (x in es && x.key != e.key)
    ensures DistinctKeys(Assign(es, e))
  {
    hide DistinctKeys, Replace, HasKey;
    HasKeyMeans(es, e.key);
    ReplaceMembers(es, e);
    ReplaceDistinct(es, e);
    if !HasKey(es, e.key) {
      DistinctSnoc(es, e);
    }
  }

  lemma {:induction false} DropKeyDistinct<K, V>(es: seq<Entry<K, V>>, key: K)
    requires DistinctKeys(es)
    ensures DistinctKeys(DropKey(es, key))
  {
    if es != [] {
      hide NoKey;
      var n := |es| - 1;
      DropKeyDistinct(es[..n], key);
      DropsAddNoKey(es[..n], Query("", "", "", {}, "", 0.0), 0.0, key, es[n].key);
      if es[n].key != key {
        DistinctSnoc(DropKey(es[..n], key), es[n]);
      }
      assert DropKey(es[..n], key) + [] == DropKey(es[..n], key);
    }
  }

  lemma {:induction false} DropExpiredDistinct<K, V>(es: seq<Entry<K, V>>, q: Query, now: real)
    requires DistinctKeys(es)
    ensures DistinctKeys(DropExpired(es, q, now))
  {
    if es != [] {
      hide NoKey, InScope;
      var n := |es| - 1;
      DropExpiredDistinct(es[..n], q, now);
      DropsAddNoKey(es[..n], q, now, es[n].key, es[n].key);
      DistinctSnoc(DropExpired(es[..n], q, now), es[n]);
      assert DropExpired(es[..n], q, now) + [] == DropExpired(es[..n], q, now);
    }
  }

  lemma LookupSame<K(!new), V(!new)>(
      es: seq<Entry<K, V>>, ideal: seq<Entry<K, V>>, q: Query, at: real, verify: V -> bool)
    requires SameLive(es, ideal, at) && DistinctKeys(es) && DistinctKeys(ideal) && (q.InRange() ==> NoTie(ideal, q, at))
    ensures var op: Op<K, V> := LookupOp(q, at);
            && Step(es, op, verify).1 == IdealStep(ideal, op, verify).1
            && SameLive(Step(es, op, verify).0, IdealStep(ideal, op, verify).0, at)
            && DistinctKeys(Step(es, op, verify).0) && DistinctKeys(IdealStep(ideal, op, verify).0)
  {
    hide Best, DropKey, DropExpired, NoTie, DistinctKeys, InScope;
    if !q.InRange() {
      return;
    }
    BestIgnoresOrder(ideal, es, q, at);
    var left := DropExpired(es, q, at);
    DropExpiredMembers(es, q, at);
    DropExpiredDistinct(es, q, at);
    var best := Best(es, q, at);
    if best.Some? {
      var key := best.value.entry.key;
      DropKeyMembers(left, key);
      DropKeyMembers(ideal, key);
      DropKeyDistinct(left, key);
      DropKeyDistinct(ideal, key);
    }
  }

  lemma PutSame<K(!new), V(!new)>(es: seq<Entry<K, V>>, ideal: seq<Entry<K, V>>, e: Entry<K, V>, at: real)
    requires SameLive(es, ideal, at) && DistinctKeys(es) && DistinctKeys(ideal)
    ensures SameLive(Assign(es, e), Assign(ideal, e), at)
    ensures DistinctKeys(Assign(es, e)) && DistinctKeys(Assign(ideal, e))
  {
    hide Assign, DistinctKeys;
    AssignMembers(es, e);
    AssignMembers(ideal, e);
  }

  lemma DropSame<K(!new), V(!new)>(es: seq<Entry<K, V>>, ideal: seq<Entry<K, V>>, key: K, at: real)
    requires SameLive(es, ideal, at)
    ensures SameLive(DropKey(es, key), DropKey(ideal, key), at)
  {
    hide DropKey;
    DropKeyMembers(es, key);
    DropKeyMembers(ideal, key);
  }

  lemma StepSame<K(!new), V(!new)>(
      es: seq<Entry<K, V>>, ideal: seq<Entry<K, V>>, op: Op<K, V>, now: real, verify: V -> bool)
    requires SameLive(es, ideal, now) && now <= op.at && DistinctKeys(es) && DistinctKeys(ideal)
    requires op.LookupOp? && op.query.InRange() ==> NoTie(ideal, op.query, op.at)
    ensures Step(es, op, verify).1 == IdealStep(ideal, op, verify).1
    ensures SameLive(Step(es, op, verify).0, IdealStep(ideal, op, verify).0, op.at)
    ensures DistinctKeys(Step(es, op, verify).0) && DistinctKeys(IdealStep(ideal, op, verify).0)
  {
    assert SameLive(es, ideal, op.at);
    hide Best, DropKey, Assign, NoTie, DistinctKeys, Lookup, SameLive, Storable;
    match op
    case PutOp(e, at) =>
      PutSame(es, ideal, e, at);
    case DeleteOp(key, at) =>
      DropSame(es, ideal, key, at);
      DropKeyDistinct(es, key);
      DropKeyDistinct(ideal, key);
    case LookupOp(q, at) =>
      LookupSame(es, ideal, q, at, verify);
  }

  /** With a forward clock and no ties, dropping expired entries never changes any later lookup. */
  lemma {:induction false} NoTiesUnobservable<K(!new), V(!new)>(
      es: seq<Entry<K, V>>, ideal: seq<Entry<K, V>>, ops: seq<Op<K, V>>, now: real, verify: V -> bool)
    requires SameLive(es, ideal, now) && DistinctKeys(es) && DistinctKeys(ideal) && Smooth(ideal, ops, now, verify)
    ensures Hits(es, ops, verify) == IdealHits(ideal, ops, verify)
    decreases |ops|
  {
    if ops != [] {
      hide SameLive, DistinctKeys, Step, IdealStep, NoTie;
      StepSame(es, ideal, ops[0], now, verify);
      NoTiesUnobservable(Step(es, ops[0], verify).0, IdealStep(ideal, ops[0], verify).0, ops[1..], ops[0].at, verify);
    }
  }
}
