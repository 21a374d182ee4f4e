/** When dropping expired entries shows in a semantic lookup: python/urp/semantic_cache.py. */
module SemanticExpiry {
  import opened Common
  import opened SemanticCache
  import Similarity

  // ----- One entry at a time -----

  lemma InDropKey<K, V>(es: seq<Entry<K, V>>, key: K, e: Entry<K, V>)
    ensures e in DropKey(es, key) <==> e in es && e.key != key
  {
    DropKeyMembers(es, key);
  }

  lemma InAssign<K, V>(es: seq<Entry<K, V>>, x: Entry<K, V>, e: Entry<K, V>)
    requires DistinctKeys(es)
    ensures e in Assign(es, x) <==> e == x || (e in es && e.key != x.key)
  {
    hide DistinctKeys, Assign;
    AssignMembers(es, x);
  }

  lemma InDropExpired<K, V>(es: seq<Entry<K, V>>, q: Query, now: real, e: Entry<K, V>)
    ensures e in DropExpired(es, q, now) <==> e in es && !(InScope(e, q) && e.ExpiredAt(now))
  {
    DropExpiredMembers(es, q, now);
  }

  lemma InLive<K, V>(es: seq<Entry<K, V>>, now: real, e: Entry<K, V>)
    ensures e in Live(es, now) <==> e in es && !e.ExpiredAt(now)
  {
    LiveMembers(es, now);
  }

  // ----- Live entries keep their order -----

  /** The entries alive at `now`, in the order of the store. */
  function Live<K, V>(es: seq<Entry<K, V>>, now: real): seq<Entry<K, V>> {
    if es == [] then []
    else
      var e := es[|es| - 1];
      Live(es[..|es| - 1], now) + if e.ExpiredAt(now) then [] else [e]
  }

  lemma {:induction false} LiveMembers<K, V>(es: seq<Entry<K, V>>, now: real)
    ensures forall e :: e in Live(es, now) <==> e in es && !e.ExpiredAt(now)
  {
    if es != [] {
      var n := |es| - 1;
      LiveMembers(es[..n], now);
      assert es == es[..n] + [es[n]];
    }
  }

  lemma LiveSnoc<K, V>(es: seq<Entry<K, V>>, e: Entry<K, V>, now: real)
    ensures Live(es + [e], now) == if e.ExpiredAt(now) then Live(es, now) else Live(es, now) + [e]
  {
    assert (es + [e])[..|es|] == es;
  }

  lemma BestSnoc<K, V>(es: seq<Entry<K, V>>, e: Entry<K, V>, q: Query, now: real)
    ensures Best(es + [e], q, now) ==
              (var before := Best(es, q, now);
               var score := Similarity.Score(q.text, e.text);
               if Eligible(e, q, now) && (before == None || score > before.value.score) then Some(Hit(e, score))
               else before)
  {
    assert (es + [e])[..|es|] == es;
  }

  lemma {:induction false} BestIsLive<K, V>(es: seq<Entry<K, V>>, q: Query, now: real)
    ensures Best(es, q, now) == Best(Live(es, now), q, now)
  {
    if es != [] {
      var before, e := es[..|es| - 1], es[|es| - 1];
      assert es == before + [e];
      BestIsLive(before, q, now);
      LiveSnoc(before, e, now);
      hide Best, Live;
      BestSnoc(before, e, q, now);
      BestSnoc(Live(before, now), e, q, now);
    }
  }

  lemma {:induction false} LiveLater<K, V>(es: seq<Entry<K, V>>, now: real, later: real)
    requires now <= later
    ensures Live(Live(es, now), later) == Live(es, later)
  {
    if es != [] {
      var before, e := es[..|es| - 1], es[|es| - 1];
      assert es == before + [e];
      LiveLater(before, now, later);
      LiveSnoc(before, e, now);
      LiveSnoc(before, e, later);
      LiveSnoc(Live(before, now), e, later);
    }
  }

  lemma DropKeySnoc<K, V>(es: seq<Entry<K, V>>, e: Entry<K, V>, key: K)
    ensures DropKey(es + [e], key) == if e.key == key then DropKey(es, key) else DropKey(es, key) + [e]
  {
    assert (es + [e])[..|es|] == es;
  }

  lemma {:induction false} LiveDropKey<K, V>(es: seq<Entry<K, V>>, key: K, now: real)
    ensures Live(DropKey(es, key), now) == DropKey(Live(es, now), key)
  {
    if es != [] {
      var before, e := es[..|es| - 1], es[|es| - 1];
      assert es == before + [e];
      LiveDropKey(before, key, now);
      DropKeySnoc(before, e, key);
      LiveSnoc(before, e, now);
      hide Live, DropKey;
      LiveSnoc(DropKey(before, key), e, now);
      DropKeySnoc(Live(before, now), e, key);
    }
  }

  lemma {:induction false} LiveDropExpired<K, V>(es: seq<Entry<K, V>>, q: Query, now: real)
    ensures Live(DropExpired(es, q, now), now) == Live(es, now)
  {
    if es != [] {
      hide InScope;
      var before, e := es[..|es| - 1], es[|es| - 1];
      LiveDropExpired(before, q, now);
      LiveSnoc(DropExpired(before, q, now), e, now);
      assert DropExpired(before, q, now) + [] == DropExpired(before, q, now);
    }
  }

  /** A put under this key would bring an expired entry back to its old place. */
  ghost predicate HoldsExpired<K, V>(es: seq<Entry<K, V>>, key: K, now: real) {
    exists x :: x in es && x.key == key && x.ExpiredAt(now)
  }

  lemma ReplaceSnoc<K, V>(es: seq<Entry<K, V>>, x: Entry<K, V>, e: Entry<K, V>)
    ensures Replace(es + [x], e) == Replace(es, e) + [if x.key == e.key then e else x]
  {
    assert (es + [x])[..|es|] == es;
  }

  lemma {:induction false} LiveReplace<K, V>(es: seq<Entry<K, V>>, e: Entry<K, V>, now: real)
    requires !e.ExpiredAt(now) && !HoldsExpired(es, e.key, now)
    ensures Live(Replace(es, e), now) == Replace(Live(es, now), e)
  {
    if es != [] {
      var before, x := es[..|es| - 1], es[|es| - 1];
      assert es == before + [x] && x in es;
      LiveReplace(before, e, now);
      ReplaceSnoc(before, x, e);
      LiveSnoc(before, x, now);
      hide Live, Replace;
      LiveSnoc(Replace(before, e), if x.key == e.key then e else x, now);
      ReplaceSnoc(Live(before, now), x, e);
    }
  }

  lemma {:induction false} LiveHasKey<K, V>(es: seq<Entry<K, V>>, key: K, now: real)
    requires !HoldsExpired(es, key, now)
    ensures HasKey(Live(es, now), key) <==> HasKey(es, key)
  {
    if es != [] {
      var before, e := es[..|es| - 1], es[|es| - 1];
      assert es == before + [e] && e in es;
      LiveHasKey(before, key, now);
      LiveSnoc(before, e, now);
      assert (Live(before, now) + [e])[..|Live(before, now)|] == Live(before, now);
    }
  }

  lemma LiveAssign<K, V>(es: seq<Entry<K, V>>, e: Entry<K, V>, now: real)
    requires !e.ExpiredAt(now) && !HoldsExpired(es, e.key, now)
    ensures Live(Assign(es, e), now) == Assign(Live(es, now), e)
  {
    hide Live, Replace, HasKey, NoKey;
    LiveHasKey(es, e.key, now);
    LiveReplace(es, e, now);
    LiveSnoc(es, e, now);
  }

  // ----- Runs with ties -----

  /** `es` is `ideal` without some entries that had expired, in the same order. */
  ghost predicate SameOrder<K, V>(es: seq<Entry<K, V>>, ideal: seq<Entry<K, V>>, now: real) {
    Live(es, now) == Live(ideal, now) && forall e :: e in es ==> e in ideal
  }

  lemma SameOrderLater<K, V>(es: seq<Entry<K, V>>, ideal: seq<Entry<K, V>>, now: real, later: real)
    requires SameOrder(es, ideal, now) && now <= later
    ensures SameOrder(es, ideal, later)
  {
    hide Live;
    LiveLater(es, now, later);
    LiveLater(ideal, now, later);
  }

  lemma SameOrderIsSameLive<K(!new), V(!new)>(es: seq<Entry<K, V>>, ideal: seq<Entry<K, V>>, now: real)
    requires SameOrder(es, ideal, now)
    ensures SameLive(es, ideal, now)
  {
    hide Live;
    forall e: Entry<K, V> | !e.ExpiredAt(now)
      ensures e in es <==> e in ideal
    {
      InLive(es, now, e);
      InLive(ideal, now, e);
    }
  }

  lemma PutKeepsOrder<K, V>(es: seq<Entry<K, V>>, ideal: seq<Entry<K, V>>, e: Entry<K, V>, at: real)
    requires SameOrder(es, ideal, at) && DistinctKeys(es) && DistinctKeys(ideal)
    requires !e.ExpiredAt(at) && !HoldsExpired(ideal, e.key, at)
    ensures SameOrder(Assign(es, e), Assign(ideal, e), at)
    ensures DistinctKeys(Assign(es, e)) && DistinctKeys(Assign(ideal, e))
  {
    hide Live, Assign, DistinctKeys;
    LiveAssign(es, e, at);
    LiveAssign(ideal, e, at);
    AssignMembers(es, e);
    AssignMembers(ideal, e);
    forall x | x in Assign(es, e)
      ensures x in Assign(ideal, e)
    {
      InAssign(es, e, x);
      InAssign(ideal, e, x);
    }
  }

  lemma DropKeepsOrder<K, V>(es: seq<Entry<K, V>>, ideal: seq<Entry<K, V>>, key: K, at: real)
    requires SameOrder(es, ideal, at) && DistinctKeys(es) && DistinctKeys(ideal)
    ensures SameOrder(DropKey(es, key), DropKey(ideal, key), at)
    ensures DistinctKeys(DropKey(es, key)) && DistinctKeys(DropKey(ideal, key))
  {
    hide Live, DropKey, DistinctKeys;
    LiveDropKey(es, key, at);
    LiveDropKey(ideal, key, at);
    DropKeyDistinct(es, key);
    DropKeyDistinct(ideal, key);
    forall x | x in DropKey(es, key)
      ensures x in DropKey(ideal, key)
    {
      InDropKey(es, key, x);
      InDropKey(ideal, key, x);
    }
  }

  lemma LookupKeepsOrder<K, V>(es: seq<Entry<K, V>>, ideal: seq<Entry<K, V>>, q: Query, at: real, verify: V -> bool)
    requires SameOrder(es, ideal, at) && DistinctKeys(es) && DistinctKeys(ideal)
    ensures var op: Op<K, V> := LookupOp(q, at);
            && Step(es, op, verify).1 == IdealStep(ideal, op, verify).1
            && SameOrder(Step(es, op, verify).0, IdealStep(ideal, op, verify).0, at)
            && DistinctKeys(Step(es, op, verify).0) && DistinctKeys(IdealStep(ideal, op, verify).0)
  {
    hide Live, DropKey, DistinctKeys, Best, DropExpired, InScope;
    if !q.InRange() {
      return;
    }
    BestIsLive(es, q, at);
    BestIsLive(ideal, q, at);
    LiveDropExpired(es, q, at);
    DropExpiredDistinct(es, q, at);
    var left := DropExpired(es, q, at);
    forall x | x in left
      ensures x in ideal
    {
      InDropExpired(es, q, at, x);
    }
    assert SameOrder(left, ideal, at);
    var best := Best(es, q, at);
    if best.Some? {
      DropKeepsOrder(left, ideal, best.value.entry.key, at);
    }
  }

  /** A put that stores a key again whose entry in the store has expired. */
  ghost predicate Revives<K, V>(es: seq<Entry<K, V>>, op: Op<K, V>) {
    op.PutOp? && Storable(op.entry, op.at) && HoldsExpired(es, op.entry.key, op.at)
  }

  lemma StepKeepsOrder<K, V>(
      es: seq<Entry<K, V>>, ideal: seq<Entry<K, V>>, op: Op<K, V>, now: real, verify: V -> bool)
    requires SameOrder(es, ideal, now) && now <= op.at && DistinctKeys(es) && DistinctKeys(ideal)
    requires !Revives(ideal, op)
    ensures Step(es, op, verify).1 == IdealStep(ideal, op, verify).1
    ensures SameOrder(Step(es, op, verify).0, IdealStep(ideal, op, verify).0, op.at)
    ensures DistinctKeys(Step(es, op, verify).0) && DistinctKeys(IdealStep(ideal, op, verify).0)
  {
    SameOrderLater(es, ideal, now, op.at);
    hide SameOrder, DistinctKeys, HoldsExpired, DropKey, Assign, Best, Lookup;
    match op
    case PutOp(e, at) =>
      if Storable(e, at) { PutKeepsOrder(es, ideal, e, at); }
    case DeleteOp(key, at) =>
      DropKeepsOrder(es, ideal, key, at);
    case LookupOp(q, at) =>
      LookupKeepsOrder(es, ideal, q, at, verify);
  }

  /** The clock goes forward, and once an expired entry's key has been stored again no lookup meets a tie. */
  ghost predicate Gentle<K(!new), V(!new)>(es: seq<Entry<K, V>>, ops: seq<Op<K, V>>, now: real, verify: V -> bool)
    decreases |ops|
  {
    ops == [] ||
    (&& now <= ops[0].at
     && var next := IdealStep(es, ops[0], verify).0;
        if Revives(es, ops[0]) then Smooth(next, ops[1..], ops[0].at, verify)
        else Gentle(next, ops[1..], ops[0].at, verify))
  }

  /**
   * With a forward clock, dropping expired entries never changes any later
   * lookup, ties or not, until a key whose entry has expired is stored again;
   * from then on it does not as long as no lookup meets a tie.
   */
  lemma {:induction false} ExpiryUnobservable<K(!new), V(!new)>(
      es: seq<Entry<K, V>>, ideal: seq<Entry<K, V>>, ops: seq<Op<K, V>>, now: real, verify: V -> bool)
    requires SameOrder(es, ideal, now) && DistinctKeys(es) && DistinctKeys(ideal) && Gentle(ideal, ops, now, verify)
    ensures Hits(es, ops, verify) == IdealHits(ideal, ops, verify)
    decreases |ops|
  {
    if ops != [] {
      hide SameOrder, SameLive, DistinctKeys, Step, IdealStep, NoTie, HoldsExpired, Storable;
      var op := ops[0];
      if Revives(ideal, op) {
        SameOrderIsSameLive(es, ideal, now);
        StepSame(es, ideal, op, now, verify);
        NoTiesUnobservable(Step(es, op, verify).0, IdealStep(ideal, op, verify).0, ops[1..], op.at, verify);
      } else {
        StepKeepsOrder(es, ideal, op, now, verify);
        ExpiryUnobservable(Step(es, op, verify).0, IdealStep(ideal, op, verify).0, ops[1..], op.at, verify);
      }
    }
  }

  // ----- Which texts can show it -----

  /** The key is the one that `store` gives the entry. */
  predicate Keyed<V>(e: Entry<QuestionKey, V>) {
    e.key == QuestionKey(e.tenant, e.namespace, e.text, e.sources, e.taskType)
  }

  datatype Question = Question(text: string, threshold: real)

  /** Puts store answers to these texts, lookups ask one of these questions; one out of range raises and has no effect. */
  ghost predicate About<V>(op: Op<QuestionKey, V>, texts: set<string>, questions: set<Question>) {
    match op
    case PutOp(e, _) => Keyed(e) && e.text in texts
    case LookupOp(q, _) => Question(q.text, q.threshold) in questions
    case DeleteOp(_, _) => true
  }

  ghost predicate Session<V>(ops: seq<Op<QuestionKey, V>>, now: real, texts: set<string>, questions: set<Question>)
    decreases |ops|
  {
    ops == [] ||
    (now <= ops[0].at && About(ops[0], texts, questions) && Session(ops[1..], ops[0].at, texts, questions))
  }

  /** Two different texts tie for the question, at a valid threshold or above it. */
  predicate TiedFor(texts: set<string>, question: Question) {
    && 0.0 <= question.threshold <= 1.0
    && exists a, b :: a in texts && b in texts && a != b
                      && Similarity.Score(question.text, a) == Similarity.Score(question.text, b)
                      && Similarity.Score(question.text, a) >= question.threshold
  }

  predicate Tied(texts: set<string>, questions: set<Question>) {
    exists question :: question in questions && TiedFor(texts, question)
  }

  ghost predicate AllKeyed<V>(es: seq<Entry<QuestionKey, V>>, texts: set<string>) {
    DistinctKeys(es) && forall e :: e in es ==> Keyed(e) && e.text in texts
  }

  lemma {:induction false} KeyDecides<K, V>(es: seq<Entry<K, V>>, x: Entry<K, V>, y: Entry<K, V>)
    requires DistinctKeys(es) && x in es && y in es && x.key == y.key
    ensures x == y
  {
    var n := |es| - 1;
    assert es == es[..n] + [es[n]];
    if x != es[n] && y != es[n] {
      KeyDecides(es[..n], x, y);
    }
  }

  lemma UntiedTextsNoTie<V(!new)>(
      es: seq<Entry<QuestionKey, V>>, q: Query, now: real, texts: set<string>)
    requires AllKeyed(es, texts) && q.InRange() && !TiedFor(texts, Question(q.text, q.threshold))
    ensures NoTie(es, q, now)
  {
    hide DistinctKeys;
    forall x, y | x in es && y in es && Highest(es, q, now, x) && Highest(es, q, now, y)
      ensures x == y
    {
      assert Similarity.Score(q.text, x.text) == Similarity.Score(q.text, y.text);
      assert x.text == y.text;
      KeyDecides(es, x, y);
    }
  }

  lemma StepKeepsKeyed<V>(
      es: seq<Entry<QuestionKey, V>>, op: Op<QuestionKey, V>, verify: V -> bool, texts: set<string>,
      questions: set<Question>)
    requires AllKeyed(es, texts) && About(op, texts, questions)
    ensures AllKeyed(IdealStep(es, op, verify).0, texts)
  {
    hide DistinctKeys, Assign, DropKey, Best, Storable, Keyed;
    match op
    case PutOp(e, _) =>
      AssignMembers(es, e);
      forall x | x in Assign(es, e)
        ensures Keyed(x) && x.text in texts
      {
        InAssign(es, e, x);
      }
    case DeleteOp(key, _) =>
      DropKeepsKeyed(es, key, texts);
    case LookupOp(q, at) =>
      var best := Best(es, q, at);
      if best.Some? {
        DropKeepsKeyed(es, best.value.entry.key, texts);
      }
  }

  lemma DropKeepsKeyed<V>(es: seq<Entry<QuestionKey, V>>, key: QuestionKey, texts: set<string>)
    requires AllKeyed(es, texts)
    ensures AllKeyed(DropKey(es, key), texts)
  {
    hide DistinctKeys, DropKey, Keyed;
    DropKeyDistinct(es, key);
    forall x | x in DropKey(es, key)
      ensures Keyed(x) && x.text in texts
    {
      InDropKey(es, key, x);
    }
  }

  lemma {:induction false} SessionIsSmooth<V(!new)>(
      es: seq<Entry<QuestionKey, V>>, ops: seq<Op<QuestionKey, V>>, now: real, verify: V -> bool, texts: set<string>,
      questions: set<Question>)
    requires AllKeyed(es, texts) && Session(ops, now, texts, questions) && !Tied(texts, questions)
    ensures Smooth(es, ops, now, verify)
    decreases |ops|
  {
    if ops != [] {
      hide AllKeyed, NoTie, IdealStep, TiedFor;
      StepKeepsKeyed(es, ops[0], verify, texts, questions);
      SessionIsSmooth(IdealStep(es, ops[0], verify).0, ops[1..], ops[0].at, verify, texts, questions);
      if ops[0].LookupOp? && ops[0].query.InRange() {
        assert !TiedFor(texts, Question(ops[0].query.text, ops[0].query.threshold));
        UntiedTextsNoTie(es, ops[0].query, ops[0].at, texts);
      }
    }
  }

  lemma OneHit<K, V>(es: seq<Entry<K, V>>, op: Op<K, V>, rest: seq<Op<K, V>>, verify: V -> bool)
    ensures Hits(es, [op] + rest, verify) == [Step(es, op, verify).1] + Hits(Step(es, op, verify).0, rest, verify)
    ensures IdealHits(es, [op] + rest, verify)
         == [IdealStep(es, op, verify).1] + IdealHits(IdealStep(es, op, verify).0, rest, verify)
  {
    assert ([op] + rest)[1..] == rest;
  }

  function Stored<V>(text: string, v: V, at: real, expiresAt: Option<real>): Entry<QuestionKey, V> {
    Entry(QuestionKey("t", "n", text, {}, "general"), "t", "n", text, v, {}, true, "general", at, expiresAt)
  }

  /** `a` with a lifetime and `b` without one, a lookup after it has ended, `a` again, and the lookup again. */
  function TieSession<V>(a: string, b: string, q: Query, v: V, now: real): seq<Op<QuestionKey, V>> {
    [PutOp(Stored(a, v, now, Some(now + 1.0)), now)] +
    ([PutOp(Stored(b, v, now, None), now)] +
     ([LookupOp(q, now + 1.0)] +
      ([PutOp(Stored(a, v, now, None), now + 2.0)] +
       ([LookupOp(q, now + 3.0)] + []))))
  }

  /** The entries of such a session, and what each store does with them. */
  lemma TieSteps<V>(first: Entry<QuestionKey, V>, second: Entry<QuestionKey, V>, again: Entry<QuestionKey, V>, q: Query, at: real)
    requires first.key == again.key != second.key && InScope(first, q)
    requires first.ExpiredAt(at) && !second.ExpiredAt(at)
    ensures Assign([], first) == [first] && Assign([first], second) == [first, second]
    ensures DropExpired([first, second], q, at) == [second]
    ensures Assign([second], again) == [second, again] && Assign([first, second], again) == [again, second]
    ensures Eligible(second, q, at) ==>
              Best([first, second], q, at) == Some(Hit(second, Similarity.Score(q.text, second.text)))
  {
    hide Similarity.Score;
    assert [first, second][..1] == [first] && [first][..0] == [] && [second][..0] == [];
    assert DropExpired([first], q, at) == [];
    assert DropExpired([first, second], q, at) == DropExpired([first, second][..1], q, at) + [second];
    assert !HasKey([second], again.key) && HasKey([first], again.key) && HasKey([first, second], again.key);
    assert !HasKey([first], second.key) && !HasKey([first][..0], first.key);
    assert Replace([first], again) == [again];
    assert Best([first], q, at) == None;
  }

  /** With a tie the two stores answer the last lookup of that session differently. */
  lemma ExpiryObservableOnTie<V>(a: string, b: string, q: Query, v: V, now: real, verify: V -> bool)
    requires a != b && verify(v) && q == Query("t", "n", q.text, {}, "general", q.threshold) && q.InRange()
    requires Similarity.Score(q.text, a) == Similarity.Score(q.text, b) >= q.threshold
    ensures var ops := TieSession(a, b, q, v, now);
            |Hits([], ops, verify)| == |IdealHits([], ops, verify)| == 5
            && Hits([], ops, verify)[4] == Some(Hit(Stored(b, v, now, None), Similarity.Score(q.text, b)))
            && IdealHits([], ops, verify)[4] == Some(Hit(Stored(a, v, now, None), Similarity.Score(q.text, a)))
  {
    hide Best, DropExpired, Assign, Similarity.Score, Hits, IdealHits;
    var first, second, again := Stored(a, v, now, Some(now + 1.0)), Stored(b, v, now, None), Stored(a, v, now, None);
    TieSteps(first, second, again, q, now + 1.0);
    TieGoesToFirst(again, second, q, now + 3.0);
    TieGoesToFirst(second, again, q, now + 3.0);
    FiveCalls(first, second, again, q, now, verify, Similarity.Score(q.text, b), Similarity.Score(q.text, a));
  }

  lemma PutStep<K, V>(es: seq<Entry<K, V>>, e: Entry<K, V>, at: real, verify: V -> bool)
    requires Storable(e, at)
    ensures Step(es, PutOp(e, at), verify) == IdealStep(es, PutOp(e, at), verify) == (Assign(es, e), None)
  {}

  lemma LookupStep<K, V>(es: seq<Entry<K, V>>, q: Query, at: real, hit: Hit<K, V>, verify: V -> bool)
    requires q.InRange() && Best(es, q, at) == Some(hit) && verify(hit.entry.value)
    ensures Step(es, LookupOp(q, at), verify) == (DropExpired(es, q, at), Some(hit))
    ensures IdealStep(es, LookupOp(q, at), verify) == (es, Some(hit))
  {}

  lemma FiveCalls<K, V>(
      first: Entry<K, V>, second: Entry<K, V>, again: Entry<K, V>, q: Query, now: real, verify: V -> bool, sb: real,
      sa: real)
    requires Storable(first, now) && Storable(second, now) && Storable(again, now + 2.0)
    requires q.InRange() && verify(second.value) && verify(again.value)
    requires var none: seq<Entry<K, V>> := []; Assign(none, first) == [first]
    requires Assign([first], second) == [first, second] && DropExpired([first, second], q, now + 1.0) == [second]
    requires Assign([second], again) == [second, again] && Assign([first, second], again) == [again, second]
    requires Best([first, second], q, now + 1.0) == Some(Hit(second, sb))
    requires Best([second, again], q, now + 3.0) == Some(Hit(second, sb))
    requires Best([again, second], q, now + 3.0) == Some(Hit(again, sa))
    ensures var ops: seq<Op<K, V>> :=
              [PutOp(first, now)] + ([PutOp(second, now)] + ([LookupOp(q, now + 1.0)] +
               ([PutOp(again, now + 2.0)] + ([LookupOp(q, now + 3.0)] + []))));
            && Hits([], ops, verify) == [None] + ([None] + ([Some(Hit(second, sb))] + ([None] + ([Some(Hit(second, sb))] + []))))
            && IdealHits([], ops, verify) == [None] + ([None] + ([Some(Hit(second, sb))] + ([None] + ([Some(Hit(again, sa))] + []))))
  {
    var none: seq<Entry<K, V>> := [];
    var l2: Op<K, V> := LookupOp(q, now + 3.0);
    var p3: Op<K, V> := PutOp(again, now + 2.0);
    var l1: Op<K, V> := LookupOp(q, now + 1.0);
    var p2: Op<K, V> := PutOp(second, now);
    var p1: Op<K, V> := PutOp(first, now);
    PutStep(none, first, now, verify);
    PutStep([first], second, now, verify);
    LookupStep([first, second], q, now + 1.0, Hit(second, sb), verify);
    PutStep([second], again, now + 2.0, verify);
    PutStep([first, second], again, now + 2.0, verify);
    LookupStep([second, again], q, now + 3.0, Hit(second, sb), verify);
    LookupStep([again, second], q, now + 3.0, Hit(again, sa), verify);
    NoHits<K, V>(verify);
    hide *;
    OneHit([second, again], l2, [], verify);
    OneHit([again, second], l2, [], verify);
    OneHit([second], p3, [l2] + [], verify);
    OneHit([first, second], p3, [l2] + [], verify);
    OneHit([first, second], l1, [p3] + ([l2] + []), verify);
    OneHit([first], p2, [l1] + ([p3] + ([l2] + [])), verify);
    OneHit(none, p1, [p2] + ([l1] + ([p3] + ([l2] + []))), verify);
  }

  lemma NoHits<K, V>(verify: V -> bool)
    ensures forall es: seq<Entry<K, V>> :: Hits(es, [], verify) == [] && IdealHits(es, [], verify) == []
  {}

  /**
   * For a set of questions with thresholds and a set of texts whose answers may
   * be stored: over all sessions with a forward clock, dropping expired entries
   * is unobservable if and only if no two of the texts tie for any question.
   */
  lemma UnobservableIffNoTies<V(!new)>(
      texts: set<string>, questions: set<Question>, now: real, v: V, verify: V -> bool)
    requires verify(v)
    ensures (forall ops: seq<Op<QuestionKey, V>> :: Session(ops, now, texts, questions) ==>
               Hits([], ops, verify) == IdealHits([], ops, verify))
       <==> !Tied(texts, questions)
  {
    hide Hits, IdealHits, Session, Similarity.Score, TieSession, Smooth;
    if Tied(texts, questions) {
      var question :| question in questions && TiedFor(texts, question);
      var text := question.text;
      var a, b :| a in texts && b in texts && a != b
                  && Similarity.Score(text, a) == Similarity.Score(text, b)
                  && Similarity.Score(text, a) >= question.threshold;
      var q := Query("t", "n", text, {}, "general", question.threshold);
      ExpiryObservableOnTie(a, b, q, v, now, verify);
      TieSessionIsOne(a, b, q, v, now, texts, questions);
    } else {
      forall ops: seq<Op<QuestionKey, V>> | Session(ops, now, texts, questions)
        ensures Hits([], ops, verify) == IdealHits([], ops, verify)
      {
        SessionIsSmooth([], ops, now, verify, texts, questions);
        NoTiesUnobservable([], [], ops, now, verify);
      }
    }
  }

  lemma TieSessionIsOne<V>(
      a: string, b: string, q: Query, v: V, now: real, texts: set<string>, questions: set<Question>)
    requires a in texts && b in texts && Question(q.text, q.threshold) in questions
    ensures Session(TieSession(a, b, q, v, now), now, texts, questions)
  {
    var p1: Op<QuestionKey, V>, p2: Op<QuestionKey, V> :=
      PutOp(Stored(a, v, now, Some(now + 1.0)), now), PutOp(Stored(b, v, now, None), now);
    var l1: Op<QuestionKey, V>, p3: Op<QuestionKey, V> :=
      LookupOp(q, now + 1.0), PutOp(Stored(a, v, now, None), now + 2.0);
    var l2: Op<QuestionKey, V> := LookupOp(q, now + 3.0);
    hide Session;
    SessionCons(l2, [], now + 3.0, texts, questions);
    SessionCons(p3, [l2] + [], now + 2.0, texts, questions);
    SessionCons(l1, [p3] + ([l2] + []), now + 1.0, texts, questions);
    SessionCons(p2, [l1] + ([p3] + ([l2] + [])), now, texts, questions);
    SessionCons(p1, [p2] + ([l1] + ([p3] + ([l2] + []))), now, texts, questions);
  }

  /** One call in front of a session that may start whenever that call is made. */
  lemma SessionCons<V>(
      op: Op<QuestionKey, V>, rest: seq<Op<QuestionKey, V>>, now: real, texts: set<string>, questions: set<Question>)
    requires now <= op.at && About(op, texts, questions)
    requires rest == [] || (op.at <= rest[0].at && Session(rest, rest[0].at, texts, questions))
    ensures Session([op] + rest, now, texts, questions)
  {
    assert ([op] + rest)[1..] == rest;
  }
}
