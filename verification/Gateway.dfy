/** The AI gateway: exact cache, semantic cache, provider, fallback, verify, store. python/urp/ai_gateway.py. */
module Gateway {
  import opened Common
  import opened Contracts
  import Cache
  import Context
  import Encoding
  import SemanticCache
  import Similarity
  import Text

  /** A provider's answer, and what the caches keep of it: its JSON envelope. */
  type Response = Encoding.Value
  type Saved = Encoding.Value

  datatype Ttl = Seconds(seconds: real) | NotANumber

  datatype Options = Options(
    cacheTtl: Option<Ttl>,
    freshness: Option<Ttl>,
    allowSemanticCache: bool,
    threshold: Option<real>,
    maxContextTokens: int)

  /** A normalised chat request; `rest` stands for its remaining fields. */
  datatype Request = Request(
    stream: bool, messages: seq<Context.Message>, model: string, options: Options, rest: string)

  /** What policy and plan decided. */
  datatype Orders = Orders(
    actions: set<Name>, contract: Contract, verifiers: set<string>, models: seq<string>, approvalMissing: bool)

  /** The readings of the clock one call takes. */
  datatype Clock = Clock(get: real, lookup: real, expiry: real, put: real, stored: real, storePut: real)

  /**
   * One call, with what the provider would answer to its first and second
   * question, and which answers hold a citation marker.
   */
  datatype Call = Call(
    tenant: string,
    namespace: string,
    request: Request,
    sources: set<string>,
    routingText: string,
    route: string,
    mode: Mode,
    orders: Orders,
    first: Result<Response>,
    second: Result<Response>,
    cites: Response -> bool,
    clock: Clock)

  datatype ExactKey = ExactKey(tenant: string, namespace: string, request: Request, sources: set<string>)

  type ExactEntries = map<ExactKey, Cache.CacheEntry<Saved>>
  type SemanticEntry = SemanticCache.Entry<SemanticCache.QuestionKey, Saved>

  datatype Caches = Caches(exact: ExactEntries, semantic: seq<SemanticEntry>)

  datatype Question = Question(messages: seq<Context.Message>, model: string)

  datatype Origin = ExactHit | SemanticHitOrigin | Miss

  datatype Reply = Reply(response: Response, origin: Origin, fallbackUsed: bool)

  /** An answer put into the exact cache, and when its lifetime began. */
  datatype Stored = Stored(call: Call, response: Response, at: real)

  datatype Outcome = Outcome(caches: Caches, asked: seq<Question>, stored: Option<Stored>, reply: Result<Reply>)

  const TASK := "general"
  const DEFAULT_THRESHOLD := 0.82
  const SUPPORTED: set<string> :=
    {"non_empty_text", "fallback_available", "source_fingerprint_match", "source_consistency", "freshness_check",
     "answer_citation_check"}

  function KeyOf(c: Call): ExactKey { ExactKey(c.tenant, c.namespace, c.request, c.sources) }

  function ScopeOf(c: Call): Cache.Scope { Cache.Scope(c.tenant, c.namespace, Some(c.sources)) }

  // ----- Checks -----

  predicate NonBlank(s: string) { exists i :: 0 <= i < |s| && !Text.IsSpace(s[i]) }

  /** The value under a string key, if this is a dictionary that has it. */
  function Member(v: Encoding.Value, key: string): Option<Encoding.Value> {
    if v.Dict? then Encoding.Lookup(v.entries, key) else None
  }

  /** `response["choices"][0]["message"]["content"]` */
  function ContentOf(r: Response): Option<Encoding.Value> {
    match Member(r, "choices")
    case None => None
    case Some(choices) =>
      if (choices.List? || choices.Tuple?) && choices.items != [] then
        match Member(choices.items[0], "message")
        case None => None
        case Some(message) => Member(message, "content")
      else None
  }

  /** `_verify_chat_response`: whatever the content is, its text must not be blank. */
  predicate Accepted(r: Response) {
    var content := ContentOf(r);
    content.Some? && NonBlank(Encoding.Printed(content.value))
  }

  function Save(r: Response): Saved { Encoding.Encode(r) }

  function Load(v: Saved): Result<Response> { Encoding.Decode(v) }

  /** A cached answer that loads and passes the shape check. */
  predicate Usable(v: Saved) {
    var r := Load(v);
    r.Ok? && Accepted(r.value)
  }

  /** `name.split("@", 1)[0]`: a verifier's name without its version. */
  function Unversioned(name: string): (r: string)
    ensures '@' !in r && r <= name && (r == name || name[|r|] == '@')
  {
    if name == [] || name[0] == '@' then [] else [name[0]] + Unversioned(name[1..])
  }

  /** `_verify_required_ai_verifiers` */
  predicate MeetsRequired(c: Call, r: Response) {
    var names := set v | v in c.orders.verifiers :: Unversioned(v);
    && names <= SUPPORTED
    && ("non_empty_text" in names ==> Accepted(r))
    && ("answer_citation_check" in names && c.sources != {} ==> c.cites(r))
  }

  function TtlSeconds(o: Options): Result<real> {
    var value := if o.cacheTtl.Some? then o.cacheTtl.value else if o.freshness.Some? then o.freshness.value
                 else Seconds(3600.0);
    if value.NotANumber? || value.seconds < 0.0 || value.seconds > 86400.0 then Raise(ValueError) else Ok(value.seconds)
  }

  predicate ExactEnabled(c: Call, ttl: real) { c.mode == Enforce && ttl > 0.0 && ExactCacheLookup in c.orders.actions }

  predicate SemanticEnabled(c: Call, ttl: real) {
    && c.mode == Enforce && c.request.options.allowSemanticCache && ttl > 0.0
    && c.orders.contract == Semantic && SemanticCacheLookup in c.orders.actions
  }

  // ----- Stages -----

  /** The row of the exact cache is read, and its answer loaded, before anything about it is checked. */
  function LookExact(s: Caches, c: Call, ttl: real): (Caches, Result<Option<Response>>) {
    if !ExactEnabled(c, ttl) then (s, Ok(None))
    else if KeyOf(c) in s.exact && Load(s.exact[KeyOf(c)].value).Raise? then
      (s, Raise(Load(s.exact[KeyOf(c)].value).error))
    else
      var (exact, found) := Cache.Get(s.exact, KeyOf(c), ScopeOf(c), c.clock.get);
      if found == None then (s.(exact := exact), Ok(None))
      else if !Usable(found.value) then (s.(exact := exact - {KeyOf(c)}), Ok(None))
      else (s.(exact := exact), Ok(Some(Load(found.value).value)))
  }

  function QueryOf(c: Call): SemanticCache.Query {
    SemanticCache.Query(c.tenant, c.namespace, c.routingText, c.sources, TASK,
                        if c.request.options.threshold.Some? then c.request.options.threshold.value else DEFAULT_THRESHOLD)
  }

  /** Some row of the lookup's scope does not load. */
  predicate Unreadable(es: seq<SemanticEntry>, q: SemanticCache.Query) {
    exists e :: e in es && SemanticCache.InScope(e, q) && Load(e.value).Raise?
  }

  function LookSemantic(s: Caches, c: Call, ttl: real): (Caches, Result<Option<Response>>) {
    if !SemanticEnabled(c, ttl) then (s, Ok(None))
    else
      var q := QueryOf(c);
      if !q.InRange() || Unreadable(s.semantic, q) then (s, Raise(ValueError))
      else
        var (semantic, hit) := SemanticCache.Lookup(s.semantic, q, c.clock.lookup, Usable);
        (s.(semantic := semantic), if hit == None then Ok(None) else Loaded(hit.value.entry.value))
  }

  function Loaded(v: Saved): Result<Option<Response>> {
    var r :- Load(v);
    Ok(Some(r))
  }

  function LastOrFrontier(models: seq<string>): string {
    if "frontier" in models || models == [] then "frontier" else models[|models| - 1]
  }

  /** What the first question asks: compiled context and the routed model only when enforced and planned. */
  function FirstQuestion(c: Call): Question {
    var messages := if c.mode == Enforce && ContextCompile in c.orders.actions
                    then Context.CompiledMessages(c.request.messages, c.request.options.maxContextTokens)
                    else c.request.messages;
    var model := if c.mode == Enforce && ModelRoute in c.orders.actions then c.route
                 else if c.request.model != "" && c.request.model != "auto" then c.request.model
                 else LastOrFrontier(c.orders.models);
    Question(messages, model)
  }

  function SecondQuestion(c: Call): Question { Question(c.request.messages, LastOrFrontier(c.orders.models)) }

  /** The questions put to the provider, and the verified answer with whether the fallback gave it. */
  function Ask(c: Call): (seq<Question>, Result<(Response, bool)>) {
    match c.first
    case Raise(e) => ([FirstQuestion(c)], Raise(e))
    case Ok(answer) =>
      if Accepted(answer) then ([FirstQuestion(c)], Ok((answer, false)))
      else
        ([FirstQuestion(c), SecondQuestion(c)],
         match c.second
         case Raise(e) => Raise(e)
         case Ok(other) => if Accepted(other) then Ok((other, true)) else Raise(VerifierFailed))
  }

  function ExactEntryOf(c: Call, ttl: real, r: Response): Cache.CacheEntry<Saved> {
    Cache.CacheEntry(c.tenant, c.namespace, Save(r), c.sources, true, Some(c.clock.expiry + ttl))
  }

  function SemanticEntryOf(c: Call, ttl: real, r: Response): SemanticEntry {
    SemanticCache.Entry(SemanticCache.QuestionKey(c.tenant, c.namespace, c.routingText, c.sources, TASK), c.tenant, c.namespace,
                        c.routingText, Save(r), c.sources, true, TASK, c.clock.stored, Some(c.clock.stored + ttl))
  }

  predicate StoresExact(c: Call, ttl: real) { c.mode == Enforce && ttl > 0.0 && CacheStore in c.orders.actions }

  /** Both stores after a verified answer, and what the exact one took; an entry already expired is refused. */
  function Remember(s: Caches, c: Call, ttl: real, r: Response): (Caches, Option<Stored>, Result<()>) {
    var entry := ExactEntryOf(c, ttl, r);
    if StoresExact(c, ttl) && !Cache.Storable(entry, c.clock.put) then (s, None, Raise(ValueError))
    else
      var s1 := if StoresExact(c, ttl) then s.(exact := Cache.Put(s.exact, KeyOf(c), entry, c.clock.put)) else s;
      var stored := if StoresExact(c, ttl) then Some(Stored(c, r, c.clock.expiry)) else None;
      var similar := SemanticEntryOf(c, ttl, r);
      if !SemanticEnabled(c, ttl) then (s1, stored, Ok(()))
      else if !SemanticCache.Storable(similar, c.clock.storePut) then (s1, stored, Raise(ValueError))
      else (s1.(semantic := SemanticCache.Assign(s1.semantic, similar)), stored, Ok(()))
  }

  function Finish(s: Caches, asked: seq<Question>, stored: Option<Stored>, c: Call, reply: Reply): Outcome {
    Outcome(s, asked, stored, if MeetsRequired(c, reply.response) then Ok(reply) else Raise(VerifierFailed))
  }

  /** The provider's part of a call that no cache answered. */
  function AskAndStore(s: Caches, c: Call, ttl: real): Outcome {
    var (asked, answer) := Ask(c);
    if answer.Raise? then Outcome(s, asked, None, Raise(answer.error))
    else
      var (r, fallback) := answer.value;
      if !MeetsRequired(c, r) then Outcome(s, asked, None, Raise(VerifierFailed))
      else
        var (s1, stored, done) := Remember(s, c, ttl, r);
        if done.Raise? then Outcome(s1, asked, stored, Raise(done.error))
        else Finish(s1, asked, stored, c, Reply(r, Miss, fallback))
  }

  function Refuse(s: Caches, e: Error): Outcome { Outcome(s, [], None, Raise(e)) }

  function Handle(s: Caches, c: Call): Outcome {
    if c.request.stream || c.request.messages == [] then Refuse(s, ValueError)
    else if c.orders.approvalMissing then Refuse(s, PolicyDenied)
    else
      var ttl := TtlSeconds(c.request.options);
      if ttl.Raise? then Refuse(s, ttl.error)
      else
        var (s1, cached) := LookExact(s, c, ttl.value);
        if cached.Raise? then Refuse(s1, cached.error)
        else if cached.value.Some? then Finish(s1, [], None, c, Reply(cached.value.value, ExactHit, false))
        else
          var (s2, similar) := LookSemantic(s1, c, ttl.value);
          if similar.Raise? then Refuse(s2, similar.error)
          else if similar.value.Some? then Finish(s2, [], None, c, Reply(similar.value.value, SemanticHitOrigin, false))
          else AskAndStore(s2, c, ttl.value)
  }

  /** The gateway with its two caches. */
  class ChatGateway {
    const exact: Cache.URPCache<ExactKey, Saved>
    const semantic: SemanticCache.SemanticCache<SemanticCache.QuestionKey, Saved>

    ghost function State(): Caches reads exact, semantic { Caches(exact.entries, semantic.entries) }

    constructor ()
      ensures fresh(exact) && fresh(semantic) && State() == Caches(map[], [])
    {
      exact := new Cache.URPCache();
      semantic := new SemanticCache.SemanticCache();
    }

    method HandleChatCompletion(c: Call) returns (r: Result<Reply>, ghost asked: seq<Question>, ghost stored: Option<Stored>)
      requires SemanticCache.DistinctKeys(semantic.entries)
      modifies exact, semantic
      ensures Outcome(State(), asked, stored, r) == Handle(old(State()), c)
      ensures SemanticCache.DistinctKeys(semantic.entries)
    {
      HandleKeepsDistinct(State(), c);
      hide Cache.Get, Cache.Put, SemanticCache.Lookup, SemanticCache.Assign, SemanticCache.DistinctKeys;
      hide MeetsRequired, Usable, Unreadable, FirstQuestion, SecondQuestion, QueryOf, Load;
      asked, stored := [], None;
      if c.request.stream || c.request.messages == [] {
        r := Raise(ValueError);
        return;
      }
      if c.orders.approvalMissing {
        r := Raise(PolicyDenied);
        return;
      }
      var ttl := TtlSeconds(c.request.options);
      if ttl.Raise? {
        r := Raise(ttl.error);
        return;
      }
      var cached := ReadExact(c, ttl.value);
      if cached.Raise? {
        r := Raise(cached.error);
        return;
      }
      if cached.value.Some? {
        var response := cached.value.value;
        r := if MeetsRequired(c, response) then Ok(Reply(response, ExactHit, false)) else Raise(VerifierFailed);
        return;
      }
      var similar := ReadSemantic(c, ttl.value);
      if similar.Raise? {
        r := Raise(similar.error);
        return;
      }
      if similar.value.Some? {
        var response := similar.value.value;
        r := if MeetsRequired(c, response) then Ok(Reply(response, SemanticHitOrigin, false)) else Raise(VerifierFailed);
        return;
      }
      r, asked, stored := AskProvider(c, ttl.value);
    }

    method ReadExact(c: Call, ttl: real) returns (r: Result<Option<Response>>)
      modifies exact
      ensures (State(), r) == LookExact(old(State()), c, ttl)
      ensures semantic.entries == old(semantic.entries)
    {
      hide Cache.Get, Usable, Load;
      if !ExactEnabled(c, ttl) {
        return Ok(None);
      }
      if KeyOf(c) in exact.entries && Load(exact.entries[KeyOf(c)].value).Raise? {
        return Raise(Load(exact.entries[KeyOf(c)].value).error);
      }
      ghost var before := exact.entries;
      var found := exact.GetValue(KeyOf(c), ScopeOf(c), c.clock.get);
      if found == None {
        return Ok(None);
      }
      FoundIsHeld(before, KeyOf(c), ScopeOf(c), c.clock.get);
      if !Usable(found.value) {
        exact.Delete(KeyOf(c));
        return Ok(None);
      }
      r := Ok(Some(Load(found.value).value));
    }

    method ReadSemantic(c: Call, ttl: real) returns (r: Result<Option<Response>>)
      requires SemanticCache.DistinctKeys(semantic.entries)
      modifies semantic
      ensures (State(), r) == LookSemantic(old(State()), c, ttl)
      ensures exact.entries == old(exact.entries)
    {
      hide SemanticCache.Lookup, SemanticCache.DistinctKeys, Usable, Load, QueryOf, Loaded;
      if !SemanticEnabled(c, ttl) {
        return Ok(None);
      }
      var q := QueryOf(c);
      if q.InRange() && Unreadable(semantic.entries, q) {
        return Raise(ValueError);
      }
      var hit := semantic.LookupHit(q, c.clock.lookup, Usable);
      if hit.Raise? {
        return Raise(hit.error);
      }
      r := if hit.value == None then Ok(None) else Loaded(hit.value.value.entry.value);
    }

    /** The miss branch: ask, fall back once, verify, store. */
    method AskProvider(c: Call, ttl: real)
      returns (r: Result<Reply>, ghost asked: seq<Question>, ghost stored: Option<Stored>)
      modifies exact, semantic
      ensures Outcome(State(), asked, stored, r) == AskAndStore(old(State()), c, ttl)
    {
      hide Cache.Storable, SemanticCache.Assign, MeetsRequired, Accepted, FirstQuestion, SecondQuestion, Save;
      asked, stored := [FirstQuestion(c)], None;
      if c.first.Raise? {
        r := Raise(c.first.error);
        return;
      }
      var response, fallbackUsed := c.first.value, false;
      if !Accepted(response) {
        fallbackUsed := true;
        asked := [FirstQuestion(c), SecondQuestion(c)];
        if c.second.Raise? {
          r := Raise(c.second.error);
          return;
        }
        response := c.second.value;
        if !Accepted(response) {
          r := Raise(VerifierFailed);
          return;
        }
      }
      assert Ask(c) == (asked, Ok((response, fallbackUsed)));
      if !MeetsRequired(c, response) {
        r := Raise(VerifierFailed);
        return;
      }
      if c.mode == Enforce && ttl > 0.0 && CacheStore in c.orders.actions {
        var put := exact.PutEntry(KeyOf(c), ExactEntryOf(c, ttl, response), c.clock.put);
        if put.Raise? {
          r := Raise(put.error);
          return;
        }
        stored := Some(Stored(c, response, c.clock.expiry));
      }
      if SemanticEnabled(c, ttl) {
        var put := semantic.PutEntry(SemanticEntryOf(c, ttl, response), c.clock.storePut);
        if put.Raise? {
          r := Raise(put.error);
          return;
        }
      }
      r := if MeetsRequired(c, response) then Ok(Reply(response, Miss, fallbackUsed)) else Raise(VerifierFailed);
    }
  }

  // ----- Single calls -----

  lemma FoundIsHeld(m: ExactEntries, key: ExactKey, scope: Cache.Scope, now: real)
    ensures Cache.Get(m, key, scope, now).1.Some? ==>
              key in m && Cache.Get(m, key, scope, now).1.value == m[key].value && !m[key].ExpiredAt(now)
  {}

  lemma LookKeepsDistinct(s: Caches, c: Call, ttl: real)
    requires SemanticCache.DistinctKeys(s.semantic)
    ensures SemanticCache.DistinctKeys(LookSemantic(s, c, ttl).0.semantic)
  {
    hide SemanticCache.DistinctKeys, Usable, SemanticCache.Best, Unreadable, QueryOf, Loaded;
    hide SemanticCache.DropExpired, SemanticCache.DropKey, SemanticEnabled;
    var q, now := QueryOf(c), c.clock.lookup;
    var left := SemanticCache.DropExpired(s.semantic, q, now);
    SemanticCache.DropExpiredDistinct(s.semantic, q, now);
    var best := SemanticCache.Best(s.semantic, q, now);
    if best.Some? {
      SemanticCache.DropKeyDistinct(left, best.value.entry.key);
    }
  }

  lemma AskKeepsDistinct(s: Caches, c: Call, ttl: real)
    requires SemanticCache.DistinctKeys(s.semantic)
    ensures SemanticCache.DistinctKeys(AskAndStore(s, c, ttl).caches.semantic)
  {
    hide SemanticCache.DistinctKeys, SemanticCache.Assign, MeetsRequired, Ask, SemanticEnabled, SemanticEntryOf, ExactEntryOf;
    var answer := Ask(c).1;
    if answer.Ok? {
      SemanticCache.AssignMembers(s.semantic, SemanticEntryOf(c, ttl, answer.value.0));
    }
  }

  /** The semantic cache stays a dictionary: no key is held twice. */
  lemma HandleKeepsDistinct(s: Caches, c: Call)
    requires SemanticCache.DistinctKeys(s.semantic)
    ensures SemanticCache.DistinctKeys(Handle(s, c).caches.semantic)
  {
    hide SemanticCache.DistinctKeys, AskAndStore, LookSemantic, TtlSeconds, MeetsRequired, Cache.Get;
    var ttl := TtlSeconds(c.request.options);
    if ttl.Ok? {
      var s1 := LookExact(s, c, ttl.value).0;
      LookKeepsDistinct(s1, c, ttl.value);
      AskKeepsDistinct(LookSemantic(s1, c, ttl.value).0, c, ttl.value);
    }
  }

  /** Every returned response passes the shape check, and the provider is asked at most twice and never on a hit. */
  lemma ReplyIsVerified(s: Caches, c: Call)
    ensures var o := Handle(s, c);
            && |o.asked| <= 2
            && (o.reply.Ok? ==> Accepted(o.reply.value.response))
            && (o.reply.Ok? && o.reply.value.origin != Miss ==> o.asked == [] && o.stored == None)
            && (o.reply.Ok? && o.reply.value.origin == Miss ==>
                  && c.first.Ok?
                  && if o.reply.value.fallbackUsed then
                       c.second == Ok(o.reply.value.response) && !Accepted(c.first.value) && |o.asked| == 2
                     else c.first == Ok(o.reply.value.response) && |o.asked| == 1)
  {
    hide Cache.Get, Accepted, MeetsRequired, Remember, SemanticCache.Best;
  }

  /** Calls that only observe or shadow leave both caches as they were. */
  lemma OnlyEnforceTouchesCaches(s: Caches, c: Call)
    requires c.mode != Enforce
    ensures Handle(s, c).caches == s && Handle(s, c).stored == None
    ensures Handle(s, c).reply.Ok? ==> Handle(s, c).reply.value.origin == Miss
  {}

  // ----- Runs -----

  /** The answer came from the provider in an enforce call that verified it. */
  ghost predicate Genuine(l: Stored) {
    && l.call.mode == Enforce
    && TtlSeconds(l.call.request.options).Ok?
    && (l.call.first == Ok(l.response) || l.call.second == Ok(l.response))
    && Accepted(l.response) && MeetsRequired(l.call, l.response)
    && l.at == l.call.clock.expiry
  }

  /** The entry is the one that this store made. */
  ghost predicate MadeBy(key: ExactKey, e: Cache.CacheEntry<Response>, l: Stored) {
    && Genuine(l) && key == KeyOf(l.call)
    && e == ExactEntryOf(l.call, TtlSeconds(l.call.request.options).value, l.response)
  }

  ghost predicate Backed(s: Caches, log: seq<Stored>) {
    forall key :: key in s.exact ==> exists l :: l in log && MadeBy(key, s.exact[key], l)
  }

  function Logged(log: seq<Stored>, o: Outcome): seq<Stored> {
    if o.stored.Some? then log + [o.stored.value] else log
  }

  lemma LookKeepsBacked(s: Caches, c: Call, ttl: real, log: seq<Stored>)
    requires Backed(s, log)
    ensures Backed(LookExact(s, c, ttl).0, log)
    ensures LookSemantic(s, c, ttl).0.exact == s.exact
  {
    hide MadeBy, Accepted;
  }

  /** What asking makes of the exact cache: nothing, or one entry that a genuine store made. */
  lemma StoreIsMade(s: Caches, c: Call, ttl: real)
    requires TtlSeconds(c.request.options) == Ok(ttl)
    ensures var o := AskAndStore(s, c, ttl);
            && (o.stored == None ==> o.caches.exact == s.exact)
            && (o.stored.Some? ==>
                  && Genuine(o.stored.value)
                  && var e := ExactEntryOf(c, ttl, o.stored.value.response);
                     MadeBy(KeyOf(c), e, o.stored.value) && o.caches.exact == s.exact[KeyOf(c) := e])
  {
    hide Accepted, MeetsRequired, FirstQuestion, SecondQuestion, SemanticCache.Assign, KeyOf, SemanticEntryOf, Save;
  }

  lemma StoreIsBacked(s: Caches, c: Call, ttl: real, log: seq<Stored>)
    requires Backed(s, log) && TtlSeconds(c.request.options) == Ok(ttl)
    ensures var o := AskAndStore(s, c, ttl); Backed(o.caches, Logged(log, o))
  {
    StoreIsMade(s, c, ttl);
    hide AskAndStore, MadeBy, Genuine, KeyOf, ExactEntryOf;
    var o := AskAndStore(s, c, ttl);
    forall key | key in o.caches.exact
      ensures exists l :: l in Logged(log, o) && MadeBy(key, o.caches.exact[key], l)
    {
      if o.stored.Some? && key == KeyOf(c) {
        var l := o.stored.value;
        assert l in Logged(log, o) && MadeBy(key, o.caches.exact[key], l);
      } else {
        assert key in s.exact && o.caches.exact[key] == s.exact[key];
        var l :| l in log && MadeBy(key, s.exact[key], l);
        assert l in Logged(log, o);
      }
    }
  }

  /** Every call keeps each cached answer backed by a genuine store of the log. */
  lemma HandleKeepsBacked(s: Caches, c: Call, log: seq<Stored>)
    requires Backed(s, log)
    ensures var o := Handle(s, c); Backed(o.caches, Logged(log, o))
  {
    hide LookExact, LookSemantic, AskAndStore, TtlSeconds, MeetsRequired, MadeBy;
    var ttl := TtlSeconds(c.request.options);
    if ttl.Ok? {
      LookKeepsBacked(s, c, ttl.value, log);
      var s1 := LookExact(s, c, ttl.value).0;
      LookKeepsBacked(s1, c, ttl.value, log);
      var s2 := LookSemantic(s1, c, ttl.value).0;
      assert Backed(s2, log);
      StoreIsBacked(s2, c, ttl.value, log);
    }
  }

  function RunCalls(s: Caches, log: seq<Stored>, calls: seq<Call>): (Caches, seq<Stored>)
    decreases |calls|
  {
    if calls == [] then (s, log)
    else
      var o := Handle(s, calls[0]);
      RunCalls(o.caches, Logged(log, o), calls[1..])
  }

  lemma {:induction false} RunKeepsBacked(s: Caches, log: seq<Stored>, calls: seq<Call>)
    requires Backed(s, log)
    ensures var (s', log') := RunCalls(s, log, calls); Backed(s', log') && log <= log'
    decreases |calls|
  {
    if calls != [] {
      hide Handle, Backed;
      HandleKeepsBacked(s, calls[0], log);
      var o := Handle(s, calls[0]);
      RunKeepsBacked(o.caches, Logged(log, o), calls[1..]);
    }
  }

  /**
   * From empty caches, after any calls: an exact hit replays, through the JSON
   * envelope, an answer that an earlier enforce call with the same tenant,
   * namespace, request and sources got from the provider and verified, less than
   * its time to live ago. It is that very answer if and only if the answer is clean.
   */
  lemma ExactHitReplays(calls: seq<Call>, c: Call) returns (l: Stored)
    requires var (s, _) := RunCalls(Caches(map[], []), [], calls);
             var o := Handle(s, c);
             o.reply.Ok? && o.reply.value.origin == ExactHit
    ensures var (s, log) := RunCalls(Caches(map[], []), [], calls);
            && l in log && l.call in calls && Genuine(l)
            && Load(Save(l.response)) == Ok(Handle(s, c).reply.value.response)
            && (Encoding.WellKeyed(l.response) ==>
                  (Handle(s, c).reply.value.response == l.response <==> Encoding.Clean(l.response)))
            && l.call.tenant == c.tenant && l.call.namespace == c.namespace
            && l.call.request == c.request && l.call.sources == c.sources
            && c.clock.get < l.at + TtlSeconds(l.call.request.options).value
  {
    hide RunCalls, Handle, Backed, Accepted, MeetsRequired, Encoding.WellKeyed, Encoding.Clean;
    hide Encoding.Encode, Encoding.Decode;
    RunKeepsBacked(Caches(map[], []), [], calls) by { EmptyIsBacked(); }
    var (s, log) := RunCalls(Caches(map[], []), [], calls);
    ExactHitIsCached(s, c);
    l := BackingOf(s, KeyOf(c), log);
    if Encoding.WellKeyed(l.response) {
      ReplaysIffClean(l.response);
    }
    LogIsFromCalls(Caches(map[], []), [], calls);
  }

  /** What a cache hands out of an answer is that answer if and only if it is clean. */
  lemma ReplaysIffClean(r: Response)
    requires Encoding.WellKeyed(r)
    ensures Load(Save(r)) == Ok(r) <==> Encoding.Clean(r)
  {
    Encoding.RoundTripIffClean(r);
  }

  lemma EmptyIsBacked()
    ensures Backed(Caches(map[], []), [])
  {}

  lemma BackingOf(s: Caches, key: ExactKey, log: seq<Stored>) returns (l: Stored)
    requires Backed(s, log) && key in s.exact
    ensures l in log && MadeBy(key, s.exact[key], l)
  {
    hide MadeBy;
    l :| l in log && MadeBy(key, s.exact[key], l);
  }

  lemma OtherRepliesAreNotExact(s: Caches, c: Call, ttl: real)
    ensures var o := AskAndStore(s, c, ttl); o.reply.Ok? ==> o.reply.value.origin == Miss
  {
    hide Remember, Ask, MeetsRequired;
  }

  /** An exact hit answers what the cache held under the call's own key, not yet expired. */
  lemma ExactHitIsCached(s: Caches, c: Call)
    requires Handle(s, c).reply.Ok? && Handle(s, c).reply.value.origin == ExactHit
    ensures KeyOf(c) in s.exact
    ensures Load(s.exact[KeyOf(c)].value) == Ok(Handle(s, c).reply.value.response)
    ensures !s.exact[KeyOf(c)].ExpiredAt(c.clock.get)
  {
    hide AskAndStore, LookSemantic, Accepted, MeetsRequired, TtlSeconds;
    var ttl := TtlSeconds(c.request.options);
    if ttl.Ok? {
      var s1 := LookExact(s, c, ttl.value).0;
      OtherRepliesAreNotExact(LookSemantic(s1, c, ttl.value).0, c, ttl.value);
    }
  }

  /** Each log entry was made by one of the calls, from empty caches. */
  lemma {:induction false} LogIsFromCalls(s: Caches, log: seq<Stored>, calls: seq<Call>)
    requires forall l :: l in log ==> Genuine(l)
    ensures forall l :: l in RunCalls(s, log, calls).1 ==> Genuine(l) && (l in log || l.call in calls)
    decreases |calls|
  {
    if calls != [] {
      hide Genuine, Handle;
      var o := Handle(s, calls[0]);
      StoredIsOwn(s, calls[0]);
      LogIsFromCalls(o.caches, Logged(log, o), calls[1..]);
      assert calls == [calls[0]] + calls[1..];
    }
  }

  lemma StoredIsOwn(s: Caches, c: Call)
    ensures Handle(s, c).stored.Some? ==> Handle(s, c).stored.value.call == c && Genuine(Handle(s, c).stored.value)
  {
    hide Accepted, MeetsRequired, FirstQuestion, SecondQuestion, LookExact, LookSemantic;
  }

  // ----- Semantic hits -----

  /** The entry is what call `l` stored of the answer the provider gave it and the checks let through. */
  ghost predicate StoredBy(e: SemanticEntry, l: Call) {
    && TtlSeconds(l.request.options).Ok? && SemanticEnabled(l, TtlSeconds(l.request.options).value)
    && Ask(l).1.Ok? && MeetsRequired(l, Ask(l).1.value.0)
    && e == SemanticEntryOf(l, TtlSeconds(l.request.options).value, Ask(l).1.value.0)
  }

  ghost predicate SemanticBacked(s: Caches, calls: seq<Call>) {
    && SemanticCache.DistinctKeys(s.semantic)
    && forall e :: e in s.semantic ==> exists l :: l in calls && StoredBy(e, l)
  }

  /** Dropping entries keeps the rest backed. */
  lemma FewerBacked(s: Caches, t: Caches, calls: seq<Call>)
    requires SemanticBacked(s, calls) && SemanticCache.DistinctKeys(t.semantic)
    requires forall e :: e in t.semantic ==> e in s.semantic
    ensures SemanticBacked(t, calls)
  {
    hide StoredBy, SemanticCache.DistinctKeys;
  }

  lemma LookupBacked(s: Caches, c: Call, ttl: real, calls: seq<Call>)
    requires SemanticBacked(s, calls)
    ensures SemanticBacked(LookSemantic(s, c, ttl).0, calls)
  {
    hide StoredBy, SemanticCache.DistinctKeys, SemanticEnabled, Accepted, SemanticCache.Best;
    hide SemanticCache.DropExpired, SemanticCache.DropKey;
    if SemanticEnabled(c, ttl) {
      var q, es := QueryOf(c), s.semantic;
      var left := SemanticCache.DropExpired(es, q, c.clock.lookup);
      forall e | e in left ensures e in es { KeptWasHeld(es, q, c.clock.lookup, e); }
      SemanticCache.DropExpiredDistinct(es, q, c.clock.lookup);
      FewerBacked(s, s.(semantic := left), calls);
      var best := SemanticCache.Best(es, q, c.clock.lookup);
      if best.Some? {
        var key := best.value.entry.key;
        var fewer := SemanticCache.DropKey(left, key);
        forall e | e in fewer ensures e in left { UndroppedWasHeld(left, key, e); }
        SemanticCache.DropKeyDistinct(left, key);
        FewerBacked(s.(semantic := left), s.(semantic := fewer), calls);
      }
    }
  }

  lemma AssignedOrHeld(es: seq<SemanticEntry>, e: SemanticEntry, x: SemanticEntry)
    requires SemanticCache.DistinctKeys(es) && x in SemanticCache.Assign(es, e)
    ensures x == e || x in es
  {
    hide *;
    SemanticCache.AssignMembers(es, e);
  }

  lemma KeptWasHeld(es: seq<SemanticEntry>, q: SemanticCache.Query, now: real, x: SemanticEntry)
    requires x in SemanticCache.DropExpired(es, q, now)
    ensures x in es
  {
    hide *;
    SemanticCache.DropExpiredMembers(es, q, now);
  }

  lemma UndroppedWasHeld(es: seq<SemanticEntry>, key: SemanticCache.QuestionKey, x: SemanticEntry)
    requires x in SemanticCache.DropKey(es, key)
    ensures x in es
  {
    hide *;
    SemanticCache.DropKeyMembers(es, key);
  }

  lemma AssignBacked(s: Caches, e: SemanticEntry, c: Call, calls: seq<Call>)
    requires SemanticBacked(s, calls) && StoredBy(e, c)
    ensures SemanticBacked(s.(semantic := SemanticCache.Assign(s.semantic, e)), calls + [c])
  {
    hide StoredBy, SemanticCache.DistinctKeys, SemanticCache.Assign;
    SemanticCache.AssignMembers(s.semantic, e);
    forall x | x in SemanticCache.Assign(s.semantic, e)
      ensures exists l :: l in calls + [c] && StoredBy(x, l)
    {
      if x == e {
        assert c in calls + [c];
      } else {
        AssignedOrHeld(s.semantic, e, x);
        var l :| l in calls && StoredBy(x, l);
        assert l in calls + [c];
      }
    }
  }

  lemma MoreCalls(s: Caches, calls: seq<Call>, c: Call)
    requires SemanticBacked(s, calls)
    ensures SemanticBacked(s, calls + [c])
  {
    hide StoredBy, SemanticCache.DistinctKeys;
    forall e | e in s.semantic
      ensures exists l :: l in calls + [c] && StoredBy(e, l)
    {
      var l :| l in calls && StoredBy(e, l);
      assert l in calls + [c];
    }
  }

  lemma AskBacked(s: Caches, c: Call, calls: seq<Call>)
    requires SemanticBacked(s, calls) && TtlSeconds(c.request.options).Ok?
    ensures SemanticBacked(AskAndStore(s, c, TtlSeconds(c.request.options).value).caches, calls + [c])
  {
    hide SemanticBacked, SemanticCache.Assign, Cache.Put, Cache.Storable, Accepted, MeetsRequired, TtlSeconds, SemanticEnabled;
    hide FirstQuestion, SecondQuestion;
    var ttl := TtlSeconds(c.request.options).value;
    var o := AskAndStore(s, c, ttl);
    MoreCalls(s, calls, c);
    var answer := Ask(c).1;
    if answer.Ok? && MeetsRequired(c, answer.value.0) {
      var r := answer.value.0;
      var s1, done := Remember(s, c, ttl, r).0, Remember(s, c, ttl, r).2;
      assert o.caches == s1;
      var kept := s.(exact := s1.exact);
      SameSemantic(s, kept, calls);
      SameSemantic(s, s1, calls + [c]);
      if SemanticEnabled(c, ttl) {
        AssignBacked(kept, SemanticEntryOf(c, ttl, r), c, calls);
      }
    }
  }

  lemma SameSemantic(s: Caches, t: Caches, calls: seq<Call>)
    ensures s.semantic == t.semantic ==> SemanticBacked(s, calls) == SemanticBacked(t, calls)
  {}

  lemma HandleKeepsSemantic(s: Caches, c: Call, calls: seq<Call>)
    requires SemanticBacked(s, calls)
    ensures SemanticBacked(Handle(s, c).caches, calls + [c])
  {
    hide SemanticBacked, LookSemantic, AskAndStore, TtlSeconds, MeetsRequired, Accepted, Cache.Get;
    var ttl := TtlSeconds(c.request.options);
    MoreCalls(s, calls, c);
    if ttl.Ok? {
      var s1 := LookExact(s, c, ttl.value).0;
      SameSemantic(s, s1, calls);
      var s2 := LookSemantic(s1, c, ttl.value).0;
      LookupBacked(s1, c, ttl.value, calls);
      MoreCalls(s1, calls, c);
      MoreCalls(s2, calls, c);
      AskBacked(s2, c, calls);
    }
  }

  lemma {:induction false} RunKeepsSemantic(s: Caches, log: seq<Stored>, before: seq<Call>, calls: seq<Call>)
    requires SemanticBacked(s, before)
    ensures SemanticBacked(RunCalls(s, log, calls).0, before + calls)
    decreases |calls|
  {
    if calls == [] {
      assert before + calls == before;
    } else {
      hide Handle, SemanticBacked;
      HandleKeepsSemantic(s, calls[0], before);
      var o := Handle(s, calls[0]);
      RunKeepsSemantic(o.caches, Logged(log, o), before + [calls[0]], calls[1..]);
      assert before + [calls[0]] + calls[1..] == before + calls;
    }
  }

  /** A semantic hit answers a live entry of the call's scope and sources whose question is similar enough. */
  lemma SemanticHitIsEligible(s: Caches, c: Call) returns (e: SemanticEntry)
    requires Handle(s, c).reply.Ok? && Handle(s, c).reply.value.origin == SemanticHitOrigin
    ensures e in s.semantic && Load(e.value) == Ok(Handle(s, c).reply.value.response)
    ensures SemanticCache.Eligible(e, QueryOf(c), c.clock.lookup)
    ensures c.mode == Enforce && c.request.options.allowSemanticCache && c.orders.contract == Semantic
    ensures forall f :: f in s.semantic && SemanticCache.Eligible(f, QueryOf(c), c.clock.lookup) ==>
              Similarity.Score(c.routingText, f.text) <= Similarity.Score(c.routingText, e.text)
  {
    hide AskAndStore, Accepted, MeetsRequired, TtlSeconds, Cache.Get, SemanticCache.Best, SemanticCache.Eligible;
    hide SemanticCache.DropExpired, SemanticCache.DropKey, Similarity.Score;
    var ttl := TtlSeconds(c.request.options);
    var s1 := LookExact(s, c, ttl.value).0;
    OtherRepliesAreNotExact(LookSemantic(s1, c, ttl.value).0, c, ttl.value);
    SemanticCache.BestIsOptimal(s.semantic, QueryOf(c), c.clock.lookup);
    e := SemanticCache.Best(s.semantic, QueryOf(c), c.clock.lookup).value.entry;
  }

  /**
   * From empty caches, after any calls: a semantic hit replays, through the JSON
   * envelope, an answer that an earlier enforce call of the same tenant and
   * namespace with the same sources got from the provider and verified, for a
   * question at least as similar as the threshold asks, less than that call's
   * time to live ago. It is that very answer if and only if the answer is clean.
   */
  lemma SemanticHitReplays(calls: seq<Call>, c: Call) returns (l: Call, answer: Response)
    requires var s := RunCalls(Caches(map[], []), [], calls).0;
             Handle(s, c).reply.Ok? && Handle(s, c).reply.value.origin == SemanticHitOrigin
    ensures var s := RunCalls(Caches(map[], []), [], calls).0;
            var response := Handle(s, c).reply.value.response;
            && l in calls && l.mode == Enforce
            && (l.first == Ok(answer) || l.second == Ok(answer)) && Accepted(answer) && MeetsRequired(l, answer)
            && Load(Save(answer)) == Ok(response)
            && (Encoding.WellKeyed(answer) ==> (response == answer <==> Encoding.Clean(answer)))
            && l.tenant == c.tenant && l.namespace == c.namespace && l.sources == c.sources
            && Similarity.Score(c.routingText, l.routingText)
               >= (if c.request.options.threshold.Some? then c.request.options.threshold.value else 0.82)
            && TtlSeconds(l.request.options).Ok?
            && c.clock.lookup < l.clock.stored + TtlSeconds(l.request.options).value
  {
    hide RunCalls, Handle, Accepted, MeetsRequired, TtlSeconds, SemanticCache.DistinctKeys, Similarity.Score, Ask;
    hide Encoding.WellKeyed, Encoding.Clean, Encoding.Encode, Encoding.Decode;
    assert SemanticBacked(Caches(map[], []), []) by { EmptySemanticIsBacked(); }
    RunKeepsSemantic(Caches(map[], []), [], [], calls);
    assert [] + calls == calls;
    var s := RunCalls(Caches(map[], []), [], calls).0;
    var e := SemanticHitIsEligible(s, c);
    l :| l in calls && StoredBy(e, l);
    answer := Ask(l).1.value.0;
    AskedIsAccepted(l);
    if Encoding.WellKeyed(answer) {
      ReplaysIffClean(answer);
    }
  }

  lemma AskedIsAccepted(l: Call)
    requires Ask(l).1.Ok?
    ensures var answer := Ask(l).1.value.0; Accepted(answer) && (l.first == Ok(answer) || l.second == Ok(answer))
  {
    hide Accepted, FirstQuestion, SecondQuestion;
  }

  // ----- Answers that do not load -----

  /** The exact cache holds an unloadable answer under the call's key: the call raises and leaves it there. */
  lemma UnloadableExactRaises(s: Caches, c: Call)
    requires TtlSeconds(c.request.options).Ok? && ExactEnabled(c, TtlSeconds(c.request.options).value)
    requires KeyOf(c) in s.exact && Load(s.exact[KeyOf(c)].value).Raise?
    ensures Handle(s, c).reply.Raise? && Handle(s, c).caches == s && Handle(s, c).asked == []
  {
    hide LookSemantic, AskAndStore, Load;
  }

  /**
   * A semantic lookup raises if and only if its threshold is out of range or some
   * row of its scope does not load, whichever row it would have found; the row stays.
   */
  lemma SemanticLookupRaisesIff(s: Caches, c: Call, ttl: real)
    requires SemanticEnabled(c, ttl)
    ensures var threshold := if c.request.options.threshold.Some? then c.request.options.threshold.value else 0.82;
            LookSemantic(s, c, ttl).1.Raise? <==>
              || threshold < 0.0 || threshold > 1.0
              || exists e :: e in s.semantic && e.tenant == c.tenant && e.namespace == c.namespace && e.taskType == "general"
                   && Load(e.value).Raise?
    ensures LookSemantic(s, c, ttl).1.Raise? ==> LookSemantic(s, c, ttl) == (s, Raise(ValueError))
  {
    hide SemanticCache.Best, SemanticCache.DropExpired, SemanticCache.DropKey, SemanticEnabled, Load;
    SemanticCache.BestIsOptimal(s.semantic, QueryOf(c), c.clock.lookup);
  }

  lemma EmptySemanticIsBacked()
    ensures SemanticBacked(Caches(map[], []), [])
  {}

  /** A provider answer whose content is shaped like the bytes envelope and holds no base 64. */
  const UNLOADABLE: Response :=
    OneKey("choices", Encoding.List([OneKey("message", OneKey("content", ENVELOPE_LIKE))]))

  const ENVELOPE_LIKE: Encoding.Value :=
    Encoding.Dict([
      Encoding.Entry(Encoding.Text("_urp_encoding"), Encoding.Str("base64")),
      Encoding.Entry(Encoding.Text("data"), Encoding.Str("!"))])

  function OneKey(key: string, v: Encoding.Value): Encoding.Value {
    Encoding.Dict([Encoding.Entry(Encoding.Text(key), v)])
  }

  lemma OneKeyRaises(key: string, v: Encoding.Value)
    requires Load(Save(v)).Raise?
    ensures Load(Save(OneKey(key, v))).Raise?
  {
    var e, saved := Encoding.Entry(Encoding.Text(key), v), Save(v);
    var pairs := [(key, saved)];
    assert [e][1..] == [] && Encoding.EncodeEntry(e) == (key, saved);
    assert Encoding.EncodeEntries([e]) == pairs;
    GatherOne(key, saved);
    assert Save(OneKey(key, v)) == OneKey(key, saved);
    DecodeOneRaises(key, saved);
  }

  lemma GatherOne(key: string, v: Encoding.Value)
    ensures Encoding.Gather([(key, v)]) == [Encoding.Entry(Encoding.Text(key), v)]
  {
    var pairs := [(key, v)];
    assert pairs[..|pairs| - 1] == [];
    assert Encoding.Gather(pairs) == Encoding.Assign(Encoding.Gather([]), key, v);
  }

  lemma DecodeOneRaises(key: string, v: Encoding.Value)
    requires Load(v).Raise?
    ensures Load(OneKey(key, v)).Raise?
  {
    var e := Encoding.Entry(Encoding.Text(key), v);
    assert Encoding.DecodeEntry(e).Raise?;
    assert Encoding.DecodeEntries([e]).Raise?;
  }

  lemma OneItemRaises(v: Encoding.Value)
    requires Load(Save(v)).Raise?
    ensures Load(Save(Encoding.List([v]))).Raise?
  {
    assert [v][1..] == [];
    assert Encoding.EncodeAll([v]) == [Save(v)] + Encoding.EncodeAll([]) == [Save(v)];
    assert Encoding.DecodeAll([Save(v)]).Raise?;
  }

  lemma EnvelopeLikeRaises()
    ensures Load(Save(ENVELOPE_LIKE)).Raise?
  {
    var a := Encoding.Entry(Encoding.Text("_urp_encoding"), Encoding.Str("base64"));
    var b := Encoding.Entry(Encoding.Text("data"), Encoding.Str("!"));
    assert Encoding.EncodeEntries([b]) == [("data", Encoding.Str("!"))];
    var pairs := Encoding.EncodeEntries([a, b]);
    assert pairs == [("_urp_encoding", Encoding.Str("base64")), ("data", Encoding.Str("!"))];
    GatherOne("_urp_encoding", Encoding.Str("base64"));
    assert pairs[..1] == [("_urp_encoding", Encoding.Str("base64"))];
    assert a.key != b.key by { assert "_urp_encoding"[0] != "data"[0]; }
    assert Encoding.Gather(pairs) == Encoding.Assign([a], "data", b.value);
    assert [a][1..] == [] && Encoding.Assign([], "data", b.value) == [b];
    assert Encoding.Assign([a], "data", b.value) == [a] + Encoding.Assign([], "data", b.value) == [a, b];
    assert Encoding.Lookup([a, b], "_urp_encoding") == Some(a.value);
    assert Encoding.Lookup([b], "data") == Some(b.value);
  }

  /** There is an answer that passes the shape check and does not load. */
  lemma UnloadableIsAccepted()
    ensures Accepted(UNLOADABLE) && Load(Save(UNLOADABLE)).Raise?
  {
    EnvelopeLikeRaises();
    var content := OneKey("content", ENVELOPE_LIKE);
    var message := OneKey("message", content);
    OneKeyRaises("content", ENVELOPE_LIKE);
    OneKeyRaises("message", content);
    OneItemRaises(message);
    OneKeyRaises("choices", Encoding.List([message]));
    hide Load, Save;
    assert ContentOf(UNLOADABLE) == Some(ENVELOPE_LIKE);
    assert !Text.IsSpace("[]"[0]);
  }

  /** Once such an answer is stored, every later call with its key that may use the cache raises. */
  lemma UnloadableAnswerSticks(s: Caches, c: Call, again: Call)
    requires Handle(s, c).stored.Some? && Load(Save(Handle(s, c).stored.value.response)).Raise?
    requires KeyOf(again) == KeyOf(c)
    requires TtlSeconds(again.request.options).Ok? && ExactEnabled(again, TtlSeconds(again.request.options).value)
    ensures var s' := Handle(s, c).caches;
            Handle(s', again).reply.Raise? && Handle(s', again).caches == s'
  {
    hide LookExact, LookSemantic, AskAndStore, Load, Save, KeyOf, MeetsRequired;
    StoredIsOwn(s, c);
    var ttl := TtlSeconds(c.request.options).value;
    var s2 := LookSemantic(LookExact(s, c, ttl).0, c, ttl).0;
    StoreIsMade(s2, c, ttl);
    assert Handle(s, c).caches.exact[KeyOf(c)].value == Save(Handle(s, c).stored.value.response);
    UnloadableExactRaises(Handle(s, c).caches, again);
  }

  /** And one that loads is replayed to every call with its key that may use the cache, until its time to live ends. */
  lemma RepeatIsHit(s: Caches, c: Call, again: Call, answer: Response)
    requires Handle(s, c).stored.Some? && Load(Save(Handle(s, c).stored.value.response)) == Ok(answer) && Accepted(answer)
    requires KeyOf(again) == KeyOf(c) && !again.orders.approvalMissing && MeetsRequired(again, answer)
    requires TtlSeconds(c.request.options).Ok? && again.mode == Enforce && ExactCacheLookup in again.orders.actions
    requires again.clock.get < c.clock.expiry + TtlSeconds(c.request.options).value
    ensures var s' := Handle(s, c).caches;
            && Handle(s', again).reply == Ok(Reply(answer, ExactHit, false))
            && Handle(s', again).caches == s' && Handle(s', again).asked == []
  {
    hide LookExact, LookSemantic, AskAndStore, Load, Save, MeetsRequired, Accepted;
    StoredIsOwn(s, c);
    var ttl := TtlSeconds(c.request.options).value;
    var s2 := LookSemantic(LookExact(s, c, ttl).0, c, ttl).0;
    StoreIsMade(s2, c, ttl);
    StoreIsEnabled(s2, c, ttl);
    var s' := Handle(s, c).caches;
    LiveIsFound(s', again, ttl, answer);
  }

  lemma StoreIsEnabled(s: Caches, c: Call, ttl: real)
    requires AskAndStore(s, c, ttl).stored.Some?
    ensures StoresExact(c, ttl)
  {
    hide StoresExact, SemanticEnabled, MeetsRequired, Ask, ExactEntryOf, SemanticEntryOf;
  }

  lemma LiveIsFound(s: Caches, c: Call, ttl: real, answer: Response)
    requires ExactEnabled(c, ttl) && KeyOf(c) in s.exact && Load(s.exact[KeyOf(c)].value) == Ok(answer) && Accepted(answer)
    requires Cache.InScope(s.exact[KeyOf(c)], ScopeOf(c)) && !s.exact[KeyOf(c)].ExpiredAt(c.clock.get)
    ensures LookExact(s, c, ttl) == (s, Ok(Some(answer)))
  {
    hide Load, Accepted;
  }
}
