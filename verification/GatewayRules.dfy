/** What a chat call may and must do, told from the call alone: python/urp/ai_gateway.py. */
module GatewayRules {
  import opened Common
  import opened Contracts
  import Cache
  import Context
  import Encoding
  import opened Gateway
  import SemanticCache
  import Similarity
  import Text

  // ----- Refusals and lifetimes -----

  /** Streams, calls without messages and unapproved calls raise, with nothing asked and nothing changed. */
  lemma RefusedAtOnce(s: Caches, c: Call)
    requires c.request.stream || c.request.messages == [] || c.orders.approvalMissing
    ensures Handle(s, c) ==
              Outcome(s, [], None, Raise(if c.request.stream || c.request.messages == [] then ValueError else PolicyDenied))
  {}

  /** The lifetime is the option, else the freshness required, else an hour, and must be from 0 to 86400 seconds. */
  lemma LifetimeIs(o: Options, x: real)
    ensures o.cacheTtl == Some(Seconds(x))
            || (o.cacheTtl == None && o.freshness == Some(Seconds(x)))
            || (o.cacheTtl == None && o.freshness == None && x == 3600.0) ==>
              TtlSeconds(o) == if 0.0 <= x <= 86400.0 then Ok(x) else Raise(ValueError)
    ensures o.cacheTtl == Some(NotANumber) || (o.cacheTtl == None && o.freshness == Some(NotANumber)) ==>
              TtlSeconds(o) == Raise(ValueError)
  {}

  lemma BadLifetimeRefuses(s: Caches, c: Call)
    requires TtlSeconds(c.request.options).Raise?
    requires !c.request.stream && c.request.messages != [] && !c.orders.approvalMissing
    ensures Handle(s, c) == Outcome(s, [], None, Raise(ValueError))
  {}

  /** A call that was let in raises what the provider raised, or because a cache or a verifier refused. */
  lemma RaisesWith(s: Caches, c: Call)
    requires !c.request.stream && c.request.messages != [] && !c.orders.approvalMissing && Handle(s, c).reply.Raise?
    ensures var e := Handle(s, c).reply.error;
            || e == ValueError || e == VerifierFailed || c.first == Raise(e) || c.second == Raise(e)
  {
    var ttl := TtlSeconds(c.request.options);
    if ttl.Ok? {
      LookExactRaises(s, c, ttl.value);
      var s1 := LookExact(s, c, ttl.value).0;
      LookSemanticRaises(s1, c, ttl.value);
      AskRaises(LookSemantic(s1, c, ttl.value).0, c, ttl.value);
    }
    hide LookExact, LookSemantic, AskAndStore, MeetsRequired;
  }

  lemma LookExactRaises(s: Caches, c: Call, ttl: real)
    ensures LookExact(s, c, ttl).1.Raise? ==> LookExact(s, c, ttl).1.error == ValueError
  {
    if KeyOf(c) in s.exact {
      LoadRaises(s.exact[KeyOf(c)].value);
    }
    hide Load, Accepted, Cache.InScope;
  }

  lemma LookSemanticRaises(s: Caches, c: Call, ttl: real)
    ensures LookSemantic(s, c, ttl).1.Raise? ==> LookSemantic(s, c, ttl).1.error == ValueError
  {
    forall v: Saved | Load(v).Raise?
      ensures Load(v).error == ValueError
    {
      LoadRaises(v);
    }
    hide Load, Accepted, SemanticEnabled, Unreadable, QueryOf, SemanticCache.Best, SemanticCache.DropExpired, SemanticCache.DropKey;
  }

  lemma AskRaises(s: Caches, c: Call, ttl: real)
    ensures AskAndStore(s, c, ttl).reply.Raise? ==>
              var e := AskAndStore(s, c, ttl).reply.error;
              e == ValueError || e == VerifierFailed || c.first == Raise(e) || c.second == Raise(e)
  {
    hide MeetsRequired, Accepted, FirstQuestion, SecondQuestion, ExactEntryOf, SemanticEntryOf, SemanticEnabled, StoresExact;
    hide Cache.Put, Cache.Storable, SemanticCache.Assign, SemanticCache.Storable;
  }

  lemma LoadRaises(v: Saved)
    ensures Load(v).Raise? ==> Load(v).error == ValueError
  {
    Encoding.DecodeRaises(v);
  }

  // ----- When the caches take part -----

  /** An exact hit needs enforce mode, the planned lookup and a positive lifetime; a semantic hit also the opt-in and the contract. */
  lemma HitsNeed(s: Caches, c: Call)
    requires Handle(s, c).reply.Ok? && Handle(s, c).reply.value.origin != Miss
    ensures c.mode == Enforce && TtlSeconds(c.request.options).Ok? && TtlSeconds(c.request.options).value > 0.0
    ensures Handle(s, c).reply.value.origin == ExactHit ==> ExactCacheLookup in c.orders.actions
    ensures Handle(s, c).reply.value.origin == SemanticHitOrigin ==>
              && SemanticCacheLookup in c.orders.actions
              && c.request.options.allowSemanticCache && c.orders.contract == Semantic
  {
    hide AskAndStore, MeetsRequired, TtlSeconds, Cache.Get, SemanticCache.Lookup, Usable, Load, Unreadable, QueryOf, Loaded;
    var ttl := TtlSeconds(c.request.options);
    if ttl.Ok? {
      OtherRepliesAreNotExact(LookSemantic(LookExact(s, c, ttl.value).0, c, ttl.value).0, c, ttl.value);
    }
  }

  /** The exact cache takes a new answer only in enforce mode, where the store is planned and the lifetime positive. */
  lemma StoreNeeds(s: Caches, c: Call)
    requires Handle(s, c).stored.Some?
    ensures c.mode == Enforce && CacheStore in c.orders.actions
    ensures TtlSeconds(c.request.options).Ok? && TtlSeconds(c.request.options).value > 0.0
  {
    hide LookExact, LookSemantic, MeetsRequired, TtlSeconds, Ask, ExactEntryOf, SemanticEntryOf, SemanticEnabled;
  }

  /** And then it does take it, when the provider's answer is returned. */
  lemma AnswerIsStored(s: Caches, c: Call)
    requires Handle(s, c).reply.Ok? && Handle(s, c).reply.value.origin == Miss
    requires c.mode == Enforce && CacheStore in c.orders.actions
    requires TtlSeconds(c.request.options).Ok? && TtlSeconds(c.request.options).value > 0.0
    ensures Handle(s, c).stored == Some(Stored(c, Handle(s, c).reply.value.response, c.clock.expiry))
  {
    hide LookExact, LookSemantic, MeetsRequired, TtlSeconds, Ask, ExactEntryOf, SemanticEntryOf, SemanticEnabled;
    hide Cache.Put, Cache.Storable, SemanticCache.Assign, SemanticCache.Storable, KeyOf;
  }

  /** Two calls share an exact entry if and only if tenant, namespace, request and sources are the same. */
  lemma SharedExactIff(c: Call, d: Call)
    ensures KeyOf(c) == KeyOf(d) <==>
              c.tenant == d.tenant && c.namespace == d.namespace && c.request == d.request && c.sources == d.sources
  {}

  /** And a semantic one if and only if tenant, namespace, question and sources are. */
  lemma SharedSemanticIff(c: Call, r: Response, ttl: real, d: Call, q: Response, ttl': real)
    ensures SemanticEntryOf(c, ttl, r).key == SemanticEntryOf(d, ttl', q).key <==>
              c.tenant == d.tenant && c.namespace == d.namespace && c.routingText == d.routingText && c.sources == d.sources
  {}

  /** A provider's answer that is returned where semantic reuse is planned is in the semantic cache, under the question, for its lifetime. */
  lemma AnswerIsStoredSemantically(s: Caches, c: Call)
    requires SemanticCache.DistinctKeys(s.semantic)
    requires Handle(s, c).reply.Ok? && Handle(s, c).reply.value.origin == Miss
    requires c.mode == Enforce && c.request.options.allowSemanticCache && c.orders.contract == Semantic
    requires SemanticCacheLookup in c.orders.actions
    requires TtlSeconds(c.request.options).Ok? && TtlSeconds(c.request.options).value > 0.0
    ensures exists e :: e in Handle(s, c).caches.semantic && e.text == c.routingText
              && e.tenant == c.tenant && e.namespace == c.namespace && e.sources == c.sources && e.taskType == "general"
              && e.accepted && e.value == Save(Handle(s, c).reply.value.response)
              && e.expiresAt == Some(c.clock.stored + TtlSeconds(c.request.options).value)
  {
    hide Handle, LookExact, LookSemantic, AskAndStore, TtlSeconds, Save, SemanticCache.DistinctKeys;
    var ttl := TtlSeconds(c.request.options).value;
    var s2 := MissIsAsked(s, c);
    AskedIsAssigned(s2, c, ttl);
    var e := SemanticEntryOf(c, ttl, Handle(s, c).reply.value.response);
    AssignedIsHeld(s2.semantic, e);
    assert e in Handle(s, c).caches.semantic;
  }

  /** An answer that no cache gave is the provider's, asked in the caches the lookups left. */
  lemma MissIsAsked(s: Caches, c: Call) returns (s2: Caches)
    requires SemanticCache.DistinctKeys(s.semantic)
    requires Handle(s, c).reply.Ok? && Handle(s, c).reply.value.origin == Miss
    ensures TtlSeconds(c.request.options).Ok?
    ensures Handle(s, c) == AskAndStore(s2, c, TtlSeconds(c.request.options).value)
    ensures SemanticCache.DistinctKeys(s2.semantic)
  {
    hide LookSemantic, AskAndStore, TtlSeconds, Save, SemanticCache.DistinctKeys, MeetsRequired, Cache.Get, Usable, Load;
    var ttl := TtlSeconds(c.request.options).value;
    var s1 := LookExact(s, c, ttl).0;
    s2 := LookSemantic(s1, c, ttl).0;
    LookKeepsDistinct(s1, c, ttl);
  }

  lemma AskedIsAssigned(s: Caches, c: Call, ttl: real)
    requires AskAndStore(s, c, ttl).reply.Ok? && SemanticEnabled(c, ttl)
    ensures AskAndStore(s, c, ttl).caches.semantic ==
              SemanticCache.Assign(s.semantic, SemanticEntryOf(c, ttl, AskAndStore(s, c, ttl).reply.value.response))
  {
    hide MeetsRequired, Ask, ExactEntryOf, SemanticEntryOf, KeyOf, Cache.Put, Cache.Storable;
    hide SemanticCache.Assign, SemanticCache.Storable, SemanticEnabled, StoresExact;
  }

  lemma AssignedIsHeld(es: seq<SemanticEntry>, e: SemanticEntry)
    requires SemanticCache.DistinctKeys(es)
    ensures e in SemanticCache.Assign(es, e)
  {
    hide *;
    SemanticCache.AssignMembers(es, e);
  }

  // ----- What a semantic hit is -----

  /** The threshold a call asks for. */
  function Asked(c: Call): real {
    if c.request.options.threshold.Some? then c.request.options.threshold.value else 0.82
  }

  /** A live answer to the call's tenant, namespace and sources. */
  predicate Candidate(e: SemanticEntry, c: Call) {
    && e.tenant == c.tenant && e.namespace == c.namespace && e.taskType == "general" && e.sources == c.sources
    && e.accepted && (e.expiresAt.Some? ==> c.clock.lookup < e.expiresAt.value)
  }

  lemma EligibleIff(e: SemanticEntry, c: Call)
    ensures SemanticCache.Eligible(e, QueryOf(c), c.clock.lookup) <==>
              Candidate(e, c) && Similarity.Score(c.routingText, e.text) >= Asked(c)
  {
    hide Similarity.Score;
  }

  /** A semantic hit answers the most similar candidate, which is similar enough. */
  lemma SemanticHitIsNearest(s: Caches, c: Call) returns (e: SemanticEntry)
    requires Handle(s, c).reply.Ok? && Handle(s, c).reply.value.origin == SemanticHitOrigin
    ensures e in s.semantic && Load(e.value) == Ok(Handle(s, c).reply.value.response)
    ensures Candidate(e, c) && Similarity.Score(c.routingText, e.text) >= Asked(c)
    ensures forall f :: f in s.semantic && Candidate(f, c) ==>
              Similarity.Score(c.routingText, f.text) <= Similarity.Score(c.routingText, e.text)
  {
    hide Handle, Candidate, Similarity.Score, SemanticCache.Eligible;
    e := SemanticHitIsEligible(s, c);
    EligibleIff(e, c);
    forall f | f in s.semantic && Candidate(f, c)
      ensures Similarity.Score(c.routingText, f.text) <= Similarity.Score(c.routingText, e.text)
    {
      EligibleIff(f, c);
    }
  }

  /** The call gets as far as the semantic cache, and every row of its scope loads. */
  predicate Reaches(s: Caches, c: Call) {
    && !c.request.stream && c.request.messages != [] && !c.orders.approvalMissing
    && TtlSeconds(c.request.options).Ok? && TtlSeconds(c.request.options).value > 0.0
    && c.mode == Enforce && c.request.options.allowSemanticCache && c.orders.contract == Semantic
    && SemanticCacheLookup in c.orders.actions && KeyOf(c) !in s.exact && 0.0 <= Asked(c) <= 1.0
    && forall e :: e in s.semantic && e.tenant == c.tenant && e.namespace == c.namespace && e.taskType == "general" ==>
         Load(e.value).Ok?
  }

  /**
   * Such a call asks the provider when every candidate is less similar than the
   * threshold, and never when some candidate is similar enough and every one is usable.
   */
  lemma AsksIffAllDistant(s: Caches, c: Call)
    requires Reaches(s, c)
    ensures (forall e :: e in s.semantic && Candidate(e, c) ==> Similarity.Score(c.routingText, e.text) < Asked(c)) ==>
              Handle(s, c).asked != [] && (Handle(s, c).reply.Ok? ==> Handle(s, c).reply.value.origin == Miss)
    ensures (exists e :: e in s.semantic && Candidate(e, c) && Similarity.Score(c.routingText, e.text) >= Asked(c))
            && (forall e :: e in s.semantic && Candidate(e, c) ==> Usable(e.value)) ==>
              Handle(s, c).asked == []
  {
    hide Similarity.Score, TtlSeconds, Usable, AskAndStore, MeetsRequired, Candidate, Load;
    var ttl := TtlSeconds(c.request.options).value;
    NothingCached(s, c, ttl);
    ReachesLookup(s, c, ttl);
    hide LookExact, LookSemantic;
    AskAsks(s, c, ttl);
    var best := SemanticCache.Best(s.semantic, QueryOf(c), c.clock.lookup);
    BestIsCandidate(s, c);
    if best == None {
      AskAsks(LookSemantic(s, c, ttl).0, c, ttl);
      OtherRepliesAreNotExact(LookSemantic(s, c, ttl).0, c, ttl);
    }
  }

  lemma NothingCached(s: Caches, c: Call, ttl: real)
    requires KeyOf(c) !in s.exact
    ensures LookExact(s, c, ttl) == (s, Ok(None))
  {}

  /** With readable rows the lookup's result is that of the best entry. */
  lemma ReachesLookup(s: Caches, c: Call, ttl: real)
    requires Reaches(s, c) && ttl == TtlSeconds(c.request.options).value
    ensures var best := SemanticCache.Best(s.semantic, QueryOf(c), c.clock.lookup);
            && (best == None ==> LookSemantic(s, c, ttl).1 == Ok(None))
            && (best.Some? && Usable(best.value.entry.value) ==>
                  LookSemantic(s, c, ttl).1.Ok? && LookSemantic(s, c, ttl).1.value.Some?)
  {
    hide SemanticCache.Best, SemanticCache.DropExpired, SemanticCache.DropKey, TtlSeconds, Load, Accepted;
  }

  lemma AskAsks(s: Caches, c: Call, ttl: real)
    ensures AskAndStore(s, c, ttl).asked != []
  {
    hide Remember, MeetsRequired, Accepted, FirstQuestion, SecondQuestion;
  }

  lemma BestIsCandidate(s: Caches, c: Call)
    ensures match SemanticCache.Best(s.semantic, QueryOf(c), c.clock.lookup)
            case None => forall e :: e in s.semantic && Candidate(e, c) ==> Similarity.Score(c.routingText, e.text) < Asked(c)
            case Some(hit) =>
              && hit.entry in s.semantic && Candidate(hit.entry, c)
              && Similarity.Score(c.routingText, hit.entry.text) >= Asked(c)
  {
    hide Similarity.Score, SemanticCache.Best, SemanticCache.Eligible, Candidate;
    SemanticCache.BestIsOptimal(s.semantic, QueryOf(c), c.clock.lookup);
    forall e | e in s.semantic
      ensures SemanticCache.Eligible(e, QueryOf(c), c.clock.lookup) <==>
                Candidate(e, c) && Similarity.Score(c.routingText, e.text) >= Asked(c)
    {
      EligibleIff(e, c);
    }
  }

  // ----- What is asked -----

  /** The first question: compiled messages and the routed model only where enforced and planned. */
  lemma FirstAskedIs(s: Caches, c: Call)
    requires Handle(s, c).asked != []
    ensures Handle(s, c).asked[0].messages ==
              if c.mode == Enforce && ContextCompile in c.orders.actions
              then Context.CompiledMessages(c.request.messages, c.request.options.maxContextTokens)
              else c.request.messages
    ensures c.mode == Enforce && ModelRoute in c.orders.actions ==> Handle(s, c).asked[0].model == c.route
    ensures !(c.mode == Enforce && ModelRoute in c.orders.actions) ==>
              var model := Handle(s, c).asked[0].model;
              if c.request.model != "" && c.request.model != "auto" then model == c.request.model
              else if "frontier" in c.orders.models then model == "frontier"
              else c.orders.models != [] ==> model == c.orders.models[|c.orders.models| - 1]
  {
    hide LookExact, LookSemantic, MeetsRequired, TtlSeconds, Remember, Accepted, Context.CompiledMessages;
  }

  /** The second: the caller's own messages, for the frontier model or the last one allowed. */
  lemma SecondAskedIs(s: Caches, c: Call)
    requires |Handle(s, c).asked| > 1
    ensures |Handle(s, c).asked| == 2 && Handle(s, c).asked[1].messages == c.request.messages
    ensures "frontier" in c.orders.models ==> Handle(s, c).asked[1].model == "frontier"
    ensures "frontier" !in c.orders.models && c.orders.models != [] ==>
              Handle(s, c).asked[1].model == c.orders.models[|c.orders.models| - 1]
  {
    hide LookExact, LookSemantic, MeetsRequired, TtlSeconds, Remember, Accepted, FirstQuestion;
  }

  // ----- What may be returned -----

  /** Every character is a blank. */
  predicate AllBlank(s: string) {
    forall i :: 0 <= i < |s| ==> s[i] == ' ' || '\t' <= s[i] <= '\r' || 28 <= s[i] as int <= 31
  }

  function Answer(content: Encoding.Value): Response {
    OneKey("choices", Encoding.List([OneKey("message", OneKey("content", content))]))
  }

  /** An answer with that content passes the shape check if and only if the content is not blank text; None has a text that is not. */
  lemma AnswerAcceptedIff(content: Encoding.Value)
    ensures Accepted(Answer(content)) <==> !(content.Str? && AllBlank(content.s))
  {
    PrintedIsThere(content);
    hide Encoding.Printed;
    assert ContentOf(Answer(content)) == Some(content);
  }

  lemma PrintedIsThere(v: Encoding.Value)
    ensures AllBlank(Encoding.Printed(v)) <==> v.Str? && AllBlank(v.s)
  {
    if v.Num? {
      var s, d := Encoding.Printed(v), Decimal(if v.n < 0 then -v.n else v.n);
      DecimalSpells(if v.n < 0 then -v.n else v.n);
      assert s[|s| - 1] == d[|d| - 1];
    } else if !v.Str? {
      var s := Encoding.Printed(v);
      assert s[0] in {'N', 'T', 'F', '['};
    }
  }

  /** The choices may be a list or a tuple. */
  lemma TupleAccepted(items: seq<Encoding.Value>)
    ensures Accepted(OneKey("choices", Encoding.Tuple(items))) <==> Accepted(OneKey("choices", Encoding.List(items)))
  {
    assert ContentOf(OneKey("choices", Encoding.Tuple(items))) == ContentOf(OneKey("choices", Encoding.List(items)));
  }

  /** An answer that has no choices, message or content does not pass it. */
  lemma ShapelessRejected(r: Response)
    requires r.Dict? ==> Encoding.Lookup(r.entries, "choices") == None
    ensures !Accepted(r)
  {}

  lemma MessagelessRejected(v: Encoding.Value)
    requires v.Dict? ==> Encoding.Lookup(v.entries, "message") == None
    ensures !Accepted(OneKey("choices", Encoding.List([v]))) && !Accepted(OneKey("choices", Encoding.List([])))
  {}

  lemma ContentlessRejected(v: Encoding.Value)
    requires v.Dict? ==> Encoding.Lookup(v.entries, "content") == None
    ensures !Accepted(OneKey("choices", Encoding.List([OneKey("message", v)])))
  {}

  /** A blank first answer is never returned: the provider is asked again, and a blank second answer raises. */
  lemma BlankAnswersFallBack(s: Caches, c: Call, text: string)
    requires Handle(s, c).asked != [] && c.first == Ok(Answer(Encoding.Str(text))) && AllBlank(text)
    ensures |Handle(s, c).asked| == 2
    ensures Handle(s, c).reply.Ok? ==> c.second == Ok(Handle(s, c).reply.value.response)
    ensures forall other :: c.second == Ok(Answer(Encoding.Str(other))) && AllBlank(other) ==>
              Handle(s, c).reply == Raise(VerifierFailed)
  {
    AnswerAcceptedIff(Encoding.Str(text));
    forall other | c.second == Ok(Answer(Encoding.Str(other))) && AllBlank(other)
      ensures !Accepted(Answer(Encoding.Str(other)))
    {
      AnswerAcceptedIff(Encoding.Str(other));
    }
    hide *;
    RefusedAfterTwo(s, c);
  }

  /** After a refused first answer the provider is asked once more, and a second one refused as well raises. */
  lemma RefusedAfterTwo(s: Caches, c: Call)
    requires Handle(s, c).asked != [] && c.first.Ok? && !Accepted(c.first.value)
    ensures |Handle(s, c).asked| == 2
    ensures Handle(s, c).reply.Ok? ==> c.second == Ok(Handle(s, c).reply.value.response)
    ensures c.second.Ok? && !Accepted(c.second.value) ==> Handle(s, c).reply == Raise(VerifierFailed)
  {
    hide LookExact, LookSemantic, MeetsRequired, TtlSeconds, Remember, Accepted, FirstQuestion, SecondQuestion;
  }

  /** The name of a required verifier, with or without a version. */
  predicate Names(v: string, base: string) { v == base || base + "@" <= v }

  const IMPLEMENTED: seq<string> :=
    ["non_empty_text", "fallback_available", "source_fingerprint_match", "source_consistency", "freshness_check",
     "answer_citation_check"]

  lemma UnversionedNames(v: string, base: string)
    requires '@' !in base
    ensures Unversioned(v) == base <==> Names(v, base)
  {
    NamesPrefix(v, base);
    if Names(v, base) {
      FirstAt(v, base, Unversioned(v));
    }
  }

  lemma NamesPrefix(v: string, base: string)
    ensures Names(v, base) <==> base <= v && (base == v || v[|base|] == '@')
  {
    if base < v {
      assert v[..|base| + 1] == base + [v[|base|]];
    }
    if base + "@" <= v {
      assert v[|base|] == (base + "@")[|base|] && v[..|base|] == (base + "@")[..|base|] == base;
    }
  }

  /** What stands before the first `@` is unique. */
  lemma FirstAt(v: string, p: string, q: string)
    requires '@' !in p && p <= v && (p == v || v[|p|] == '@')
    requires '@' !in q && q <= v && (q == v || v[|q|] == '@')
    ensures p == q
  {}

  lemma NoVersions(base: string)
    requires base in IMPLEMENTED
    ensures '@' !in base
  {}

  /** When the required verifiers let a response through, and that the version in a verifier's name does not matter. */
  lemma MeetsRequiredIff(c: Call, r: Response)
    ensures MeetsRequired(c, r) <==>
              && (forall v :: v in c.orders.verifiers ==> exists base :: base in IMPLEMENTED && Names(v, base))
              && ((exists v :: v in c.orders.verifiers && Names(v, "non_empty_text")) ==> Accepted(r))
              && ((exists v :: v in c.orders.verifiers && Names(v, "answer_citation_check")) && c.sources != {} ==> c.cites(r))
  {
    var names := set v | v in c.orders.verifiers :: Unversioned(v);
    NamedIff(c.orders.verifiers, "non_empty_text");
    NamedIff(c.orders.verifiers, "answer_citation_check");
    AllImplementedIff(c.orders.verifiers);
    hide Accepted, Unversioned, Names;
  }

  lemma NamedIff(verifiers: set<string>, base: string)
    requires base in IMPLEMENTED
    ensures base in (set v | v in verifiers :: Unversioned(v)) <==> exists v :: v in verifiers && Names(v, base)
  {
    NoVersions(base);
    forall v | v in verifiers
      ensures Unversioned(v) == base <==> Names(v, base)
    {
      UnversionedNames(v, base);
    }
    hide Unversioned, Names;
  }

  lemma AllImplementedIff(verifiers: set<string>)
    ensures (set v | v in verifiers :: Unversioned(v)) <= SUPPORTED <==>
              forall v :: v in verifiers ==> exists base :: base in IMPLEMENTED && Names(v, base)
  {
    forall v | v in verifiers
      ensures Unversioned(v) in SUPPORTED <==> exists base :: base in IMPLEMENTED && Names(v, base)
    {
      forall base | base in IMPLEMENTED
        ensures Unversioned(v) == base <==> Names(v, base)
      {
        NoVersions(base);
        UnversionedNames(v, base);
      }
      SupportedAre(Unversioned(v));
    }
    hide Unversioned, Names;
  }

  lemma SupportedAre(name: string)
    ensures name in SUPPORTED <==> name in IMPLEMENTED
  {}

  /** A returned response satisfies each required verifier, all of which are implemented. */
  lemma VerifiersHold(s: Caches, c: Call)
    requires Handle(s, c).reply.Ok?
    ensures forall v :: v in c.orders.verifiers ==> exists base :: base in IMPLEMENTED && Names(v, base)
    ensures (exists v :: v in c.orders.verifiers && Names(v, "answer_citation_check")) && c.sources != {} ==>
              c.cites(Handle(s, c).reply.value.response)
  {
    ReplyMeetsRequired(s, c);
    MeetsRequiredIff(c, Handle(s, c).reply.value.response);
    hide Handle, Accepted, MeetsRequired;
  }

  /**
   * Outside enforce mode a call is answered by the provider's first answer if that
   * is accepted, else by its second if that is, and raises otherwise or where the
   * required verifiers do not hold of it.
   */
  lemma UncachedReturnsIff(s: Caches, c: Call)
    requires c.mode != Enforce && !c.request.stream && c.request.messages != [] && !c.orders.approvalMissing
    requires TtlSeconds(c.request.options).Ok?
    ensures var reply := Handle(s, c).reply;
            if c.first.Ok? && Accepted(c.first.value) then
              if MeetsRequired(c, c.first.value) then reply == Ok(Reply(c.first.value, Miss, false))
              else reply == Raise(VerifierFailed)
            else if c.first.Ok? && c.second.Ok? && Accepted(c.second.value) && MeetsRequired(c, c.second.value) then
              reply == Ok(Reply(c.second.value, Miss, true))
            else reply.Raise?
    ensures Handle(s, c).caches == s && Handle(s, c).stored == None
  {
    hide Accepted, MeetsRequired, TtlSeconds, FirstQuestion, SecondQuestion;
  }

  lemma ReplyMeetsRequired(s: Caches, c: Call)
    requires Handle(s, c).reply.Ok?
    ensures MeetsRequired(c, Handle(s, c).reply.value.response)
  {
    hide LookExact, LookSemantic, TtlSeconds, Remember, Accepted, Ask, MeetsRequired;
  }
}
