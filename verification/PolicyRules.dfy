/** What rules and defaults can and cannot do, told field by field: python/urp/policy.py. */
module PolicyRules {
  import opened Common
  import opened Contracts
  import opened Policy

  // ----- Which work a rule is for -----

  /** A stated kind, namespace, tenant or tag is not the work's. */
  predicate Elsewhere(w: WorkUnit, m: Match) {
    || (m.kind.Some? && m.kind.value != w.kind)
    || (m.namespace.Some? && m.namespace.value != w.namespace)
    || (m.tenant.Some? && m.tenant.value != w.tenant)
    || (exists k :: k in m.tags && (k !in w.tags || w.tags[k] != m.tags[k]))
  }

  lemma ElsewhereIff(w: WorkUnit, m: Match)
    ensures Elsewhere(w, m) <==> !Matches(w, m)
  {}

  lemma {:induction false} MatchedWithout(w: WorkUnit, rules: seq<Rule>, i: nat, n: nat)
    requires i < n <= |rules| && !Matches(w, rules[i].conditions)
    ensures MatchedUpTo(w, rules, n) == MatchedUpTo(w, rules[..i] + rules[i + 1..], n - 1)
  {
    var rest := rules[..i] + rules[i + 1..];
    if n == i + 1 {
      MatchedPrefix(w, rules, rest, i);
    } else {
      assert rest[n - 2] == rules[n - 1];
      MatchedWithout(w, rules, i, n - 1);
    }
  }

  lemma {:induction false} MatchedPrefix(w: WorkUnit, xs: seq<Rule>, ys: seq<Rule>, n: nat)
    requires n <= |xs| && n <= |ys| && xs[..n] == ys[..n]
    ensures MatchedUpTo(w, xs, n) == MatchedUpTo(w, ys, n)
  {
    if n > 0 {
      assert xs[..n][n - 1] == ys[..n][n - 1];
      assert xs[..n - 1] == xs[..n][..n - 1] && ys[..n - 1] == ys[..n][..n - 1];
      MatchedPrefix(w, xs, ys, n - 1);
    }
  }

  /** A rule for other work can be taken out of the bundle without any effect. */
  lemma ForeignRuleIrrelevant(w: WorkUnit, requested: Contract, b: Bundle, i: nat)
    requires i < |b.rules| && Elsewhere(w, b.rules[i].conditions)
    ensures var c := b.(rules := b.rules[..i] + b.rules[i + 1..]);
            && (Decides(w, b) <==> Decides(w, c)) && (Misspelt(w, requested, b) <==> Misspelt(w, requested, c))
            && (forall d :: Faithful(w, requested, b, d) <==> Faithful(w, requested, c, d))
            && MatchedUpTo(w, b.rules, |b.rules|) == MatchedUpTo(w, c.rules, |c.rules|)
  {
    var c := b.(rules := b.rules[..i] + b.rules[i + 1..]);
    ElsewhereIff(w, b.rules[i].conditions);
    MatchedWithout(w, b.rules, i, |b.rules|);
    SameMatchedSame(w, requested, b, c);
  }

  lemma SameMatchedSame(w: WorkUnit, requested: Contract, b: Bundle, c: Bundle)
    requires b.defaults == c.defaults
    requires MatchedUpTo(w, b.rules, |b.rules|) == MatchedUpTo(w, c.rules, |c.rules|)
    ensures Decides(w, b) <==> Decides(w, c)
    ensures Misspelt(w, requested, b) <==> Misspelt(w, requested, c)
    ensures forall d :: Faithful(w, requested, b, d) <==> Faithful(w, requested, c, d)
  {
    hide Matches, Baseline, DefaultDenials, CanonicalAll;
    MatchedIsApplies(w, b);
    MatchedIsApplies(w, c);
    assert forall r :: Applies(w, b, r) <==> Applies(w, c, r);
    hide Applies;
    assert forall a :: Granted(w, b, a) <==> Granted(w, c, a);
    assert forall v :: Required(w, b, v) <==> Required(w, c, v);
    assert forall x :: NamesContract(w, b, x) <==> NamesContract(w, c, x);
    assert SomeContract(w, b) <==> SomeContract(w, c);
    assert forall x :: IsContract(w, requested, b, x) <==> IsContract(w, requested, c, x);
    assert forall x, a :: Forbidden(w, b, x, a) <==> Forbidden(w, c, x, a);
    assert (exists r :: Applies(w, b, r) && r.requiresApproval) <==> (exists r :: Applies(w, c, r) && r.requiresApproval);
    hide Granted, Required, IsContract, Forbidden;
  }

  /** A rule whose stated conditions are all the work's. */
  predicate InForce(w: WorkUnit, b: Bundle, r: Rule) {
    && r in b.rules
    && (r.conditions.kind.Some? ==> r.conditions.kind.value == w.kind)
    && (r.conditions.namespace.Some? ==> r.conditions.namespace.value == w.namespace)
    && (r.conditions.tenant.Some? ==> r.conditions.tenant.value == w.tenant)
    && (forall k :: k in r.conditions.tags ==> k in w.tags && w.tags[k] == r.conditions.tags[k])
  }

  /** A transform's actions: four of its names are short for others. */
  predicate Means(transform: Name, a: Name) {
    if transform == ExactCache then a == ExactCacheLookup || a == CacheStore
    else if transform == ContextDedupe then a == ContextCompile
    else if transform == SemanticCacheEnforce then a == SemanticCacheLookup
    else if transform == DistillationEnforce then a == Distillation
    else a == transform
  }

  lemma CanonicalOne(t: Name, a: Name)
    ensures a in Canonical(t) <==> Means(t, a)
  {
    if t != ExactCache && t != ContextDedupe && t != SemanticCacheEnforce && t != DistillationEnforce {
      assert Canonical(t) == {t};
    }
  }

  lemma {:induction false} CanonicalMeans(transforms: seq<Name>, a: Name)
    ensures a in CanonicalAll(transforms) <==> exists t :: t in transforms && Means(t, a)
  {
    hide Canonical, Means;
    if transforms != [] {
      var before, last := transforms[..|transforms| - 1], transforms[|transforms| - 1];
      CanonicalMeans(before, a);
      CanonicalOne(last, a);
      assert forall t :: t in transforms <==> t in before || t == last;
    }
  }

  /**
   * A rule in force makes the bundle decide; what it denies is denied, what it
   * allows is allowed unless denied, its verifiers and its approval are required.
   */
  lemma RuleInForce(w: WorkUnit, requested: Contract, b: Bundle, r: Rule, d: Decision, t: Name, a: Name)
    requires InForce(w, b, r) && Faithful(w, requested, b, d) && Means(t, a)
    ensures Decides(w, b)
    ensures t in r.deny ==> a in d.denied && a !in d.allowed
    ensures t in r.allow ==> a in d.allowed || a in d.denied
    ensures forall v :: v in r.verifiers ==> v in d.requiredVerifiers
    ensures r.requiresApproval ==> d.requireApproval
  {
    AppliesIff(w, b, r);
    hide Applies, Baseline, IsContract, DefaultDenials, Means, InForce, CanonicalAll;
    CanonicalMeans(r.deny, a);
    CanonicalMeans(r.allow, a);
    RuleCounts(w, b, r, d.contract, a);
    hide Forbidden, Granted, Required;
  }

  lemma RuleCounts(w: WorkUnit, b: Bundle, r: Rule, contract: Contract, a: Name)
    requires Applies(w, b, r)
    ensures Decides(w, b)
    ensures a in CanonicalAll(r.deny) ==> Forbidden(w, b, contract, a)
    ensures a in CanonicalAll(r.allow) ==> Granted(w, b, a)
    ensures forall v :: v in r.verifiers ==> Required(w, b, v)
  {
    hide Applies, Baseline, CanonicalAll, DefaultDenials;
  }

  // ----- Contracts -----

  const STRICTNESS: seq<Contract> := [ExactBytes, ExactLogical, BoundedApprox, Semantic, Derived, Tombstone]

  /** No contract is taken when a rule in force names a stricter one, nor one that none names when some rule does. */
  lemma StrictestWins(w: WorkUnit, requested: Contract, b: Bundle, r: Rule, d: Decision, i: nat, j: nat)
    requires InForce(w, b, r) && Faithful(w, requested, b, d) && i < j < 6 && r.contract == Some(Known(STRICTNESS[i]))
    ensures d.contract != STRICTNESS[j]
    ensures exists x :: InForce(w, b, x) && x.contract == Some(Known(d.contract))
  {
    hide Forbidden, Granted, Required, Baseline;
    assert Applies(w, b, r);
    assert NamesContract(w, b, STRICTNESS[i]) && SomeContract(w, b);
    var x :| Applies(w, b, x) && x.contract == Some(Known(d.contract));
    assert InForce(w, b, x);
  }

  /** Where no rule in force names a contract, the defaults' word counts, or else what was asked for. */
  lemma FallbackContract(w: WorkUnit, requested: Contract, b: Bundle, d: Decision)
    requires Faithful(w, requested, b, d) && forall r :: InForce(w, b, r) ==> r.contract == None
    ensures if b.defaults.Some? && b.defaults.value.contract.Some? then b.defaults.value.contract.value == Known(d.contract)
            else d.contract == requested
  {
    hide Forbidden, Granted, Required, Baseline;
    forall r | Applies(w, b, r)
      ensures r.contract == None
    {
      assert InForce(w, b, r);
    }
  }

  lemma RequestedIs(w: WorkUnit)
    ensures w.requested.Some? ==> RequestedContract(w) == w.requested.value
    ensures w.requested == None && (w.kind == PromptRequest || w.kind == CompletionResponse || w.kind == EmbeddingRequest) ==>
              RequestedContract(w) == Semantic
    ensures w.requested == None && w.kind.OtherKind? ==> RequestedContract(w) == ExactBytes
  {}

  // ----- What no bundle can grant, and what every decision keeps -----

  const NEVER: set<Name> := {CrossTenantCache, CrossTenantDedupe, SemanticSummary, LossyTranscode, Delete}

  /** Whatever its rules grant, a bundle never allows these five, nor semantic reuse outside prompts and completions. */
  lemma NoBundleGrants(w: WorkUnit, requested: Contract, b: Bundle, d: Decision)
    requires Faithful(w, requested, b, d)
    ensures NEVER <= d.denied && NEVER !! d.allowed
    ensures w.kind != PromptRequest && w.kind != CompletionResponse ==>
              SemanticCacheLookup in d.denied && SemanticCacheLookup !in d.allowed
    ensures (if w.kind == EmbeddingRequest then "embedding_shape"
             else if w.kind == PromptRequest || w.kind == CompletionResponse then "non_empty_text" else "sha256_restore")
            in d.requiredVerifiers
  {
    hide Granted, IsContract, Applies, CanonicalAll, DefaultDenials;
    assert forall a :: a in NEVER ==> Forbidden(w, b, d.contract, a);
    assert w.kind != PromptRequest && w.kind != CompletionResponse ==> Forbidden(w, b, d.contract, SemanticCacheLookup);
  }

  /** What is denied, and by what. */
  lemma DeniedIff(w: WorkUnit, requested: Contract, b: Bundle, d: Decision, a: Name)
    requires Faithful(w, requested, b, d)
    ensures a in d.denied <==>
              || a in NEVER
              || (a == SemanticCacheLookup && w.kind != PromptRequest && w.kind != CompletionResponse)
              || (exists r, t :: InForce(w, b, r) && t in r.deny && Means(t, a))
              || (b.defaults.Some? && DefaultDenies(w, b, b.defaults.value, d.contract, a))
  {
    hide Granted, IsContract, Required;
    ForbiddenIff(w, b, d.contract, a);
    hide Forbidden, InForce, Means, DefaultDenies;
  }

  predicate DefaultDenies(w: WorkUnit, b: Bundle, f: Defaults, contract: Contract, a: Name) {
    || (f.denySemantic && (a == SemanticCacheLookup || a == SemanticSummary)
        && (contract != Semantic
            || !exists r, t :: r in b.rules && InForce(w, b, r) && t in r.allow && Means(t, SemanticCacheLookup)))
    || (f.denyApproximate && a == ApproximateQuantization && contract != BoundedApprox)
    || (f.denyCrossTenantDedupe && a == CrossTenantDedupe)
    || (f.denyCrossTenantCache && a == CrossTenantCache)
  }

  lemma AppliesIff(w: WorkUnit, b: Bundle, r: Rule)
    ensures Applies(w, b, r) <==> InForce(w, b, r)
  {}

  lemma GrantedIff(w: WorkUnit, b: Bundle, a: Name)
    ensures Granted(w, b, a) <==> exists r, t :: r in b.rules && InForce(w, b, r) && t in r.allow && Means(t, a)
  {
    hide CanonicalAll, Means, Matches;
    forall r | r in b.rules
      ensures a in CanonicalAll(r.allow) <==> exists t :: t in r.allow && Means(t, a)
      ensures Applies(w, b, r) <==> InForce(w, b, r)
    {
      CanonicalMeans(r.allow, a);
      AppliesIff(w, b, r);
    }
    if r, t :| r in b.rules && InForce(w, b, r) && t in r.allow && Means(t, a) {
      assert Applies(w, b, r) && a in CanonicalAll(r.allow);
    }
  }

  lemma DeniedByRuleIff(w: WorkUnit, b: Bundle, a: Name)
    ensures (exists r :: Applies(w, b, r) && a in CanonicalAll(r.deny)) <==>
              exists r, t :: InForce(w, b, r) && t in r.deny && Means(t, a)
  {
    hide CanonicalAll, Means, Matches;
    forall r | r in b.rules
      ensures a in CanonicalAll(r.deny) <==> exists t :: t in r.deny && Means(t, a)
      ensures Applies(w, b, r) <==> InForce(w, b, r)
    {
      CanonicalMeans(r.deny, a);
      AppliesIff(w, b, r);
    }
    if r, t :| InForce(w, b, r) && t in r.deny && Means(t, a) {
      assert Applies(w, b, r) && a in CanonicalAll(r.deny);
    }
    if r :| Applies(w, b, r) && a in CanonicalAll(r.deny) {
      var t :| t in r.deny && Means(t, a);
      assert InForce(w, b, r);
    }
  }

  lemma ForbiddenIff(w: WorkUnit, b: Bundle, contract: Contract, a: Name)
    ensures Forbidden(w, b, contract, a) <==>
              || a in NEVER
              || (a == SemanticCacheLookup && w.kind != PromptRequest && w.kind != CompletionResponse)
              || (exists r, t :: InForce(w, b, r) && t in r.deny && Means(t, a))
              || (b.defaults.Some? && DefaultDenies(w, b, b.defaults.value, contract, a))
  {
    hide CanonicalAll, Means, InForce, Applies, Granted, Baseline, DefaultDenials, DefaultDenies;
    DeniedByRuleIff(w, b, a);
    BaselineDenies(w.kind, a);
    if b.defaults.Some? {
      DefaultDeniesIff(w, b, b.defaults.value, contract, a);
    }
  }

  lemma DefaultDeniesIff(w: WorkUnit, b: Bundle, f: Defaults, contract: Contract, a: Name)
    ensures a in DefaultDenials(f, contract, Granted(w, b, SemanticCacheLookup)) <==> DefaultDenies(w, b, f, contract, a)
  {
    hide Means, InForce, Granted, DefaultDenials;
    GrantedIff(w, b, SemanticCacheLookup);
    DefaultDenialsAre(f, contract, Granted(w, b, SemanticCacheLookup), a);
  }

  lemma BaselineDenies(kind: Kind, a: Name)
    ensures a in Baseline(kind).denied <==>
              a in NEVER || (a == SemanticCacheLookup && kind != PromptRequest && kind != CompletionResponse)
  {}

  lemma DefaultDenialsAre(f: Defaults, contract: Contract, granted: bool, a: Name)
    ensures a in DefaultDenials(f, contract, granted) <==>
              || (f.denySemantic && (a == SemanticCacheLookup || a == SemanticSummary) && (contract != Semantic || !granted))
              || (f.denyApproximate && a == ApproximateQuantization && contract != BoundedApprox)
              || (f.denyCrossTenantDedupe && a == CrossTenantDedupe)
              || (f.denyCrossTenantCache && a == CrossTenantCache)
  {}

  /** What is allowed: the kind's own actions and the grants of rules in force, but for what is denied. */
  lemma AllowedIff(w: WorkUnit, requested: Contract, b: Bundle, d: Decision, a: Name)
    requires Faithful(w, requested, b, d)
    ensures a in d.allowed <==>
              && a !in d.denied
              && ((if w.kind.OtherKind?
                   then a in {Hash, ContentDefinedChunk, FixedChunk, DedupeSameTenant, ZstdAction, ManifestAction, VerifyRestore}
                   else a in {NormalizePrompt, Verify, ComputeManifest})
                  || exists r, t :: r in b.rules && InForce(w, b, r) && t in r.allow && Means(t, a))
  {
    hide IsContract, Required, Forbidden, Granted, InForce, Means;
    GrantedIff(w, b, a);
  }

  // ----- Without a bundle -----

  /**
   * The default decision keeps the requested contract. Semantic reuse is allowed
   * exactly for prompts and completions under the semantic contract whose caller
   * opted in, and denied otherwise.
   */
  lemma SafeDefaultIs(w: WorkUnit)
    ensures var d := SafeDefault(w);
            && d.contract == RequestedContract(w) && !d.requireApproval
            && d.modelAllowlist == ["tiny", "small", "medium", "frontier"]
            && (SemanticCacheLookup in d.allowed <==>
                  RequestedContract(w) == Semantic && w.allowSemanticCache
                  && (w.kind == PromptRequest || w.kind == CompletionResponse))
            && (SemanticCacheLookup in d.denied <==> SemanticCacheLookup !in d.allowed)
  {
    hide RequestedContract;
  }

  /** It never allows the five actions above, and denies summaries, lossy transcoding and deletion. */
  lemma SafeDefaultDenies(w: WorkUnit)
    ensures NEVER !! SafeDefault(w).allowed && {SemanticSummary, LossyTranscode, Delete} <= SafeDefault(w).denied
  {
    hide RequestedContract;
  }

  /** Its other grants follow the contract and the kind. */
  lemma SafeDefaultAllows(w: WorkUnit)
    ensures var d := SafeDefault(w);
            var ai := RequestedContract(w) == Semantic && !w.kind.OtherKind?;
            && (ContextCompile in d.allowed <==> ai && w.kind != EmbeddingRequest)
            && (ExactCacheLookup in d.allowed <==> ai) && (CacheStore in d.allowed <==> ai) && (ModelRoute in d.allowed <==> ai)
            && (ContentDefinedChunk in d.allowed <==> !ai) && (FixedChunk in d.allowed <==> !ai)
            && (ZstdAction in d.allowed <==> !ai) && (Hash in d.allowed <==> !ai)
            && ("sha256_restore" in d.requiredVerifiers <==> !ai)
  {
    hide RequestedContract;
  }
}
