/** Policy evaluation: python/urp/policy.py. */
module Policy {
  import opened Common
  import opened Contracts

  datatype WorkUnit = WorkUnit(
    kind: Kind,
    tenant: string,
    namespace: string,
    tags: map<string, string>,
    requested: Option<Contract>,
    legalHold: bool,
    allowSemanticCache: bool)

  /** The conditions a rule states; absent ones hold of everything. */
  datatype Match = Match(
    kind: Option<Kind>, namespace: Option<string>, tenant: Option<string>, tags: map<string, string>)

  /** A contract as the bundle spells it, which may be a word the code does not know. */
  datatype Spelled = Known(contract: Contract) | Unknown(text: string)

  datatype Rule = Rule(
    name: string,
    conditions: Match,
    contract: Option<Spelled>,
    allow: seq<Name>,
    deny: seq<Name>,
    verifiers: seq<string>,
    requiresApproval: bool,
    modelAllowlist: seq<string>)

  datatype Defaults = Defaults(
    contract: Option<Spelled>,
    denySemantic: bool,
    denyApproximate: bool,
    denyCrossTenantDedupe: bool,
    denyCrossTenantCache: bool,
    modelAllowlist: seq<string>)

  datatype Bundle = Bundle(defaults: Option<Defaults>, rules: seq<Rule>)

  /** Lists that the code sorts and dedupes are sets here. */
  datatype Decision = Decision(
    contract: Contract,
    allowed: set<Name>,
    denied: set<Name>,
    requiredVerifiers: set<string>,
    matchedRules: seq<string>,
    modelAllowlist: seq<string>,
    requireApproval: bool)

  datatype Controls = Controls(allowed: set<Name>, denied: set<Name>, verifiers: set<string>)

  const ALL_MODELS := ["tiny", "small", "medium", "frontier"]

  function Rank(c: Contract): nat {
    match c
    case ExactBytes => 0
    case ExactLogical => 1
    case BoundedApprox => 2
    case Semantic => 3
    case Derived => 4
    case Tombstone => 5
  }

  function Stricter(left: Contract, right: Contract): Contract {
    if Rank(left) <= Rank(right) then left else right
  }

  function Canonical(name: Name): set<Name> {
    match name
    case ExactCache => {ExactCacheLookup, CacheStore}
    case ContextDedupe => {ContextCompile}
    case SemanticCacheEnforce => {SemanticCacheLookup}
    case DistillationEnforce => {Distillation}
    case other => {other}
  }

  function CanonicalAll(names: seq<Name>): set<Name> {
    if names == [] then {} else CanonicalAll(names[..|names| - 1]) + Canonical(names[|names| - 1])
  }

  predicate Matches(w: WorkUnit, m: Match) {
    && (m.kind.Some? ==> w.kind == m.kind.value)
    && (m.namespace.Some? ==> w.namespace == m.namespace.value)
    && (m.tenant.Some? ==> w.tenant == m.tenant.value)
    && (forall k :: k in m.tags ==> k in w.tags && w.tags[k] == m.tags[k])
  }

  function Baseline(kind: Kind): Controls {
    var denied := {CrossTenantCache, CrossTenantDedupe, SemanticSummary, LossyTranscode, Delete};
    match kind
    case EmbeddingRequest =>
      Controls({NormalizePrompt, Verify, ComputeManifest}, denied + {SemanticCacheLookup}, {"embedding_shape"})
    case PromptRequest | CompletionResponse =>
      Controls({NormalizePrompt, Verify, ComputeManifest}, denied, {"non_empty_text"})
    case OtherKind(_) =>
      Controls({Hash, ContentDefinedChunk, FixedChunk, DedupeSameTenant, ZstdAction, ManifestAction, VerifyRestore},
               denied + {SemanticCacheLookup}, {"sha256_restore"})
  }

  // ----- What a bundle means, rule by rule and without order -----

  predicate Applies(w: WorkUnit, b: Bundle, r: Rule) { r in b.rules && Matches(w, r.conditions) }

  /** The bundle takes the decision: some rule matches or it has defaults. */
  ghost predicate Decides(w: WorkUnit, b: Bundle) {
    b.defaults.Some? || exists r :: Applies(w, b, r)
  }

  ghost predicate NamesContract(w: WorkUnit, b: Bundle, c: Contract) {
    exists r :: Applies(w, b, r) && r.contract == Some(Known(c))
  }

  ghost predicate SomeContract(w: WorkUnit, b: Bundle) {
    exists r :: Applies(w, b, r) && r.contract.Some?
  }

  function DefaultContract(requested: Contract, b: Bundle): Spelled {
    if b.defaults.Some? && b.defaults.value.contract.Some? then b.defaults.value.contract.value else Known(requested)
  }

  /** A contract word that the evaluation reads is unknown. */
  ghost predicate Misspelt(w: WorkUnit, requested: Contract, b: Bundle) {
    || (exists r :: Applies(w, b, r) && r.contract.Some? && r.contract.value.Unknown?)
    || (!SomeContract(w, b) && DefaultContract(requested, b).Unknown?)
  }

  /** The strictest contract among the matching rules that name one, or the default. */
  ghost predicate IsContract(w: WorkUnit, requested: Contract, b: Bundle, c: Contract) {
    if SomeContract(w, b) then
      NamesContract(w, b, c) && forall d :: NamesContract(w, b, d) ==> Rank(c) <= Rank(d)
    else DefaultContract(requested, b) == Known(c)
  }

  ghost predicate Granted(w: WorkUnit, b: Bundle, a: Name) {
    exists r :: Applies(w, b, r) && a in CanonicalAll(r.allow)
  }

  ghost predicate Forbidden(w: WorkUnit, b: Bundle, contract: Contract, a: Name) {
    || a in Baseline(w.kind).denied
    || (exists r :: Applies(w, b, r) && a in CanonicalAll(r.deny))
    || (b.defaults.Some? && a in DefaultDenials(b.defaults.value, contract, Granted(w, b, SemanticCacheLookup)))
  }

  function DefaultDenials(d: Defaults, contract: Contract, semanticGranted: bool): set<Name> {
    (if d.denySemantic && (contract != Semantic || !semanticGranted) then {SemanticCacheLookup, SemanticSummary} else {})
    + (if d.denyApproximate && contract != BoundedApprox then {ApproximateQuantization} else {})
    + (if d.denyCrossTenantDedupe then {CrossTenantDedupe} else {})
    + (if d.denyCrossTenantCache then {CrossTenantCache} else {})
  }

  ghost predicate Required(w: WorkUnit, b: Bundle, v: string) {
    v in Baseline(w.kind).verifiers || exists r :: Applies(w, b, r) && v in r.verifiers
  }

  /** A decision that gives every rule its due, whatever their order. */
  ghost predicate Faithful(w: WorkUnit, requested: Contract, b: Bundle, d: Decision) {
    && IsContract(w, requested, b, d.contract)
    && (forall a :: a in d.denied <==> Forbidden(w, b, d.contract, a))
    && (forall a :: a in d.allowed <==>
          (a in Baseline(w.kind).allowed || Granted(w, b, a)) && !Forbidden(w, b, d.contract, a))
    && (forall v :: v in d.requiredVerifiers <==> Required(w, b, v))
    && (d.requireApproval <==> exists r :: Applies(w, b, r) && r.requiresApproval)
  }

  // ----- The evaluator -----

  function MatchedUpTo(w: WorkUnit, rules: seq<Rule>, n: nat): seq<Rule>
    requires n <= |rules|
  {
    if n == 0 then []
    else if Matches(w, rules[n - 1].conditions) then MatchedUpTo(w, rules, n - 1) + [rules[n - 1]]
    else MatchedUpTo(w, rules, n - 1)
  }

  lemma {:induction false} MatchedApplies(w: WorkUnit, rules: seq<Rule>, n: nat)
    requires n <= |rules|
    ensures forall r :: r in MatchedUpTo(w, rules, n) <==> r in rules[..n] && Matches(w, r.conditions)
  {
    if n > 0 {
      MatchedApplies(w, rules, n - 1);
      assert rules[..n] == rules[..n - 1] + [rules[n - 1]];
    }
  }

  /** The last matching rule that names models, or the defaults, or all. */
  function Models(defaults: Option<Defaults>, matched: seq<Rule>): (models: seq<string>)
    ensures models != []
  {
    if matched != [] && matched[|matched| - 1].modelAllowlist != [] then matched[|matched| - 1].modelAllowlist
    else if matched != [] then Models(defaults, matched[..|matched| - 1])
    else if defaults.Some? && defaults.value.modelAllowlist != [] then defaults.value.modelAllowlist
    else ALL_MODELS
  }

  predicate NamesNone(matched: seq<Rule>, from: nat) {
    forall i :: from <= i < |matched| ==> matched[i].modelAllowlist == []
  }

  /** The last matching rule with a non-empty list decides; with none, the defaults do, then all models. */
  lemma {:induction false} LastModelsWin(defaults: Option<Defaults>, matched: seq<Rule>, i: nat)
    ensures i < |matched| && matched[i].modelAllowlist != [] && NamesNone(matched, i + 1) ==>
              Models(defaults, matched) == matched[i].modelAllowlist
    ensures NamesNone(matched, 0) ==>
              Models(defaults, matched) == if defaults.Some? && defaults.value.modelAllowlist != []
                                           then defaults.value.modelAllowlist else ["tiny", "small", "medium", "frontier"]
  {
    if matched != [] {
      LastModelsWin(defaults, matched[..|matched| - 1], i);
    }
  }

  method SelectContract(requested: Contract, defaults: Option<Defaults>, matched: seq<Rule>)
    returns (r: Result<Contract>)
    ensures (exists x :: x in matched && x.contract.Some? && x.contract.value.Unknown?) ==> r == Raise(ValueError)
    ensures (forall x :: x in matched && x.contract.Some? ==> x.contract.value.Known?) ==>
              if exists x :: x in matched && x.contract.Some? then
                && r.Ok?
                && (exists x :: x in matched && x.contract == Some(Known(r.value)))
                && forall x :: x in matched && x.contract.Some? ==> Rank(r.value) <= Rank(x.contract.value.contract)
              else
                var fallback := DefaultContract(requested, Bundle(defaults, []));
                r == if fallback.Known? then Ok(fallback.contract) else Raise(ValueError)
  {
    var contracts: seq<Contract> := [];
    for i := 0 to |matched|
      invariant forall j :: 0 <= j < i && matched[j].contract.Some? ==>
                  matched[j].contract.value.Known? && matched[j].contract.value.contract in contracts
      invariant forall c :: c in contracts ==> exists j :: 0 <= j < i && matched[j].contract == Some(Known(c))
    {
      if matched[i].contract.Some? {
        if matched[i].contract.value.Unknown? {
          return Raise(ValueError);
        }
        contracts := contracts + [matched[i].contract.value.contract];
      }
    }
    if contracts == [] {
      var fallback := DefaultContract(requested, Bundle(defaults, []));
      return if fallback.Known? then Ok(fallback.contract) else Raise(ValueError);
    }
    var strict := contracts[0];
    for i := 1 to |contracts|
      invariant strict in contracts
      invariant forall j :: 0 <= j < i ==> Rank(strict) <= Rank(contracts[j])
    {
      strict := Stricter(strict, contracts[i]);
    }
    r := Ok(strict);
  }

  /** What the first `n` matching rules add up to. */
  datatype Sums = Sums(granted: set<Name>, denied: set<Name>, verifiers: set<string>, approval: bool)

  function SumUpTo(matched: seq<Rule>, n: nat): Sums
    requires n <= |matched|
  {
    if n == 0 then Sums({}, {}, {}, false)
    else
      var before, rule := SumUpTo(matched, n - 1), matched[n - 1];
      Sums(before.granted + CanonicalAll(rule.allow), before.denied + CanonicalAll(rule.deny),
           before.verifiers + (set v | v in rule.verifiers), before.approval || rule.requiresApproval)
  }

  lemma {:induction false} SumMeans(matched: seq<Rule>, n: nat)
    requires n <= |matched|
    ensures var s := SumUpTo(matched, n);
            && (forall a :: a in s.granted <==> exists r :: r in matched[..n] && a in CanonicalAll(r.allow))
            && (forall a :: a in s.denied <==> exists r :: r in matched[..n] && a in CanonicalAll(r.deny))
            && (forall v :: v in s.verifiers <==> exists r :: r in matched[..n] && v in r.verifiers)
            && (s.approval <==> exists r :: r in matched[..n] && r.requiresApproval)
  {
    hide CanonicalAll;
    if n > 0 {
      SumMeans(matched, n - 1);
      assert matched[..n] == matched[..n - 1] + [matched[n - 1]];
      assert forall r :: r in matched[..n] <==> r in matched[..n - 1] || r == matched[n - 1];
    }
  }

  method ExtendControls(matched: seq<Rule>, base: Controls)
    returns (allowed: set<Name>, denied: set<Name>, verifiers: set<string>, granted: set<Name>, approval: bool)
    ensures var s := SumUpTo(matched, |matched|);
            && granted == s.granted && allowed == base.allowed + s.granted && denied == base.denied + s.denied
            && verifiers == base.verifiers + s.verifiers && approval == s.approval
  {
    hide CanonicalAll;
    allowed, denied, verifiers, granted, approval := base.allowed, base.denied, base.verifiers, {}, false;
    for i := 0 to |matched|
      invariant var s := SumUpTo(matched, i);
                && granted == s.granted && allowed == base.allowed + s.granted && denied == base.denied + s.denied
                && verifiers == base.verifiers + s.verifiers && approval == s.approval
    {
      var rule := matched[i];
      granted := granted + CanonicalAll(rule.allow);
      allowed := allowed + CanonicalAll(rule.allow);
      denied := denied + CanonicalAll(rule.deny);
      verifiers := verifiers + (set v | v in rule.verifiers);
      approval := approval || rule.requiresApproval;
    }
  }

  /** The decision assembled from a contract and the sums is faithful to the rules. */
  lemma AssembledIsFaithful(w: WorkUnit, requested: Contract, b: Bundle, matched: seq<Rule>, d: Decision)
    requires forall r :: r in matched <==> Applies(w, b, r)
    requires IsContract(w, requested, b, d.contract)
    requires var s := SumUpTo(matched, |matched|);
             && d.denied == Baseline(w.kind).denied + s.denied
                + (if b.defaults.Some? then DefaultDenials(b.defaults.value, d.contract, SemanticCacheLookup in s.granted)
                   else {})
             && d.allowed == Baseline(w.kind).allowed + s.granted - d.denied
             && d.requiredVerifiers == Baseline(w.kind).verifiers + s.verifiers
             && d.requireApproval == s.approval
    ensures Faithful(w, requested, b, d)
  {
    hide SumUpTo, Applies, CanonicalAll, Baseline, DefaultDenials, IsContract;
    SumMeans(matched, |matched|);
    assert matched[..|matched|] == matched;
    var s := SumUpTo(matched, |matched|);
    forall a
      ensures a in s.granted <==> Granted(w, b, a)
    {
      if a in s.granted {
        var r :| r in matched && a in CanonicalAll(r.allow);
        assert Applies(w, b, r);
      }
    }
    assert forall a :: a in d.denied <==> Forbidden(w, b, d.contract, a);
    assert forall v :: v in d.requiredVerifiers <==> Required(w, b, v);
  }

  /** The contract selected from the matching rules is the bundle's contract. */
  lemma SelectedIsContract(w: WorkUnit, requested: Contract, b: Bundle, matched: seq<Rule>, c: Contract)
    requires forall r :: r in matched <==> Applies(w, b, r)
    requires forall x :: x in matched && x.contract.Some? ==> x.contract.value.Known?
    requires if exists x :: x in matched && x.contract.Some? then
               && (exists x :: x in matched && x.contract == Some(Known(c)))
               && forall x :: x in matched && x.contract.Some? ==> Rank(c) <= Rank(x.contract.value.contract)
             else DefaultContract(requested, b) == Known(c)
    ensures IsContract(w, requested, b, c) && !Misspelt(w, requested, b)
  {
    hide Applies, Rank;
  }

  method CollectMatched(w: WorkUnit, rules: seq<Rule>) returns (matched: seq<Rule>)
    ensures matched == MatchedUpTo(w, rules, |rules|)
  {
    matched := [];
    for i := 0 to |rules|
      invariant matched == MatchedUpTo(w, rules, i)
    {
      if Matches(w, rules[i].conditions) {
        matched := matched + [rules[i]];
      }
    }
  }

  lemma MatchedIsApplies(w: WorkUnit, b: Bundle)
    ensures forall r :: r in MatchedUpTo(w, b.rules, |b.rules|) <==> Applies(w, b, r)
    ensures MatchedUpTo(w, b.rules, |b.rules|) != [] || b.defaults.Some? <==> Decides(w, b)
  {
    hide Matches;
    var matched := MatchedUpTo(w, b.rules, |b.rules|);
    MatchedApplies(w, b.rules, |b.rules|);
    assert b.rules[..|b.rules|] == b.rules;
    if matched != [] {
      assert Applies(w, b, matched[0]);
    }
  }

  function RuleNames(matched: seq<Rule>): seq<string> {
    if matched == [] then [] else RuleNames(matched[..|matched| - 1]) + [matched[|matched| - 1].name]
  }

  /** `_evaluate_bundle`: no decision, an exception, or a decision that is faithful to the rules. */
  method EvaluateBundle(w: WorkUnit, requested: Contract, b: Bundle) returns (r: Result<Option<Decision>>)
    ensures !Decides(w, b) ==> r == Ok(None)
    ensures Decides(w, b) && Misspelt(w, requested, b) ==> r == Raise(ValueError)
    ensures Decides(w, b) && !Misspelt(w, requested, b) ==>
              && r.Ok? && r.value.Some? && Faithful(w, requested, b, r.value.value)
              && var matched := MatchedUpTo(w, b.rules, |b.rules|);
              && r.value.value.modelAllowlist == Models(b.defaults, matched)
              && r.value.value.matchedRules == (if b.defaults.Some? then ["defaults"] else []) + RuleNames(matched)
  {
    hide *;
    var matched := CollectMatched(w, b.rules);
    MatchedIsApplies(w, b);
    if matched == [] && b.defaults == None {
      return Ok(None);
    }
    var selected := SelectContract(requested, b.defaults, matched);
    ContractOutcome(w, requested, b, matched, selected);
    if selected.Raise? {
      return Raise(selected.error);
    }
    var strict := selected.value;
    var allowed, denied, verifiers, granted, approval := ExtendControls(matched, Baseline(w.kind));
    if b.defaults.Some? {
      denied := denied + DefaultDenials(b.defaults.value, strict, SemanticCacheLookup in granted);
    }
    var names := (if b.defaults.Some? then ["defaults"] else []) + RuleNames(matched);
    var d := Decision(strict, allowed - denied, denied, verifiers, names, Models(b.defaults, matched), approval);
    AssembledIsFaithful(w, requested, b, matched, d);
    r := Ok(Some(d));
  }

  lemma ContractOutcome(w: WorkUnit, requested: Contract, b: Bundle, matched: seq<Rule>, r: Result<Contract>)
    requires forall x :: x in matched <==> Applies(w, b, x)
    requires (exists x :: x in matched && x.contract.Some? && x.contract.value.Unknown?) ==> r == Raise(ValueError)
    requires (forall x :: x in matched && x.contract.Some? ==> x.contract.value.Known?) ==>
               if exists x :: x in matched && x.contract.Some? then
                 && r.Ok?
                 && (exists x :: x in matched && x.contract == Some(Known(r.value)))
                 && forall x :: x in matched && x.contract.Some? ==> Rank(r.value) <= Rank(x.contract.value.contract)
               else
                 var fallback := DefaultContract(requested, Bundle(b.defaults, []));
                 r == if fallback.Known? then Ok(fallback.contract) else Raise(ValueError)
    ensures Misspelt(w, requested, b) ==> r == Raise(ValueError)
    ensures !Misspelt(w, requested, b) ==> r.Ok? && IsContract(w, requested, b, r.value)
  {
    hide Applies, Rank;
    if exists x :: x in matched && x.contract.Some? && x.contract.value.Unknown? {
      assert Misspelt(w, requested, b);
    } else if r.Ok? {
      SelectedIsContract(w, requested, b, matched, r.value);
    }
  }

  // ----- Order and monotonicity -----

  ghost predicate SameRules(b: Bundle, c: Bundle) {
    b.defaults == c.defaults && forall r :: r in b.rules <==> r in c.rules
  }

  lemma SameRulesApply(w: WorkUnit, b: Bundle, c: Bundle)
    requires SameRules(b, c)
    ensures forall r :: Applies(w, b, r) <==> Applies(w, c, r)
  {}

  lemma ContractUnique(w: WorkUnit, requested: Contract, b: Bundle, c: Contract, d: Contract)
    requires IsContract(w, requested, b, c) && IsContract(w, requested, b, d)
    ensures c == d
  {
    hide Applies;
    assert Rank(c) == Rank(d) ==> c == d;
  }

  /** The rules determine contract, allowed and denied actions, verifiers and approval. */
  lemma FaithfulUnique(w: WorkUnit, requested: Contract, b: Bundle, d: Decision, e: Decision)
    requires Faithful(w, requested, b, d) && Faithful(w, requested, b, e)
    ensures d.contract == e.contract && d.allowed == e.allowed && d.denied == e.denied
    ensures d.requiredVerifiers == e.requiredVerifiers && d.requireApproval == e.requireApproval
  {
    hide Forbidden, Granted, Required, IsContract, Baseline, Applies;
    ContractUnique(w, requested, b, d.contract, e.contract);
  }

  /**
   * Two bundles with the same rules in any order (or repeated) decide alike: the
   * same work units, the same exceptions, and decisions equal in everything but
   * the model list and the names of the matched rules.
   */
  lemma RuleOrderIrrelevant(w: WorkUnit, requested: Contract, b: Bundle, c: Bundle, d: Decision, e: Decision)
    requires SameRules(b, c)
    ensures Decides(w, b) <==> Decides(w, c)
    ensures Misspelt(w, requested, b) <==> Misspelt(w, requested, c)
    ensures Faithful(w, requested, b, d) && Faithful(w, requested, c, e) ==>
              && d.contract == e.contract && d.allowed == e.allowed && d.denied == e.denied
              && d.requiredVerifiers == e.requiredVerifiers && d.requireApproval == e.requireApproval
  {
    hide Applies, Baseline, CanonicalAll, DefaultDenials;
    SameRulesApply(w, b, c);
    assert forall a :: Granted(w, b, a) <==> Granted(w, c, a);
    assert forall v :: Required(w, b, v) <==> Required(w, c, v);
    assert forall x :: NamesContract(w, b, x) <==> NamesContract(w, c, x);
    assert forall x, a :: Forbidden(w, b, x, a) <==> Forbidden(w, c, x, a);
    assert Faithful(w, requested, b, d) ==> Faithful(w, requested, c, d);
    if Faithful(w, requested, b, d) && Faithful(w, requested, c, e) {
      FaithfulUnique(w, requested, c, d, e);
    }
  }

  lemma PermutedRules(b: Bundle, rules: seq<Rule>)
    requires multiset(rules) == multiset(b.rules)
    ensures SameRules(b, b.(rules := rules))
  {
    forall r
      ensures r in b.rules <==> r in rules
    {
      assert r in b.rules <==> r in multiset(b.rules);
    }
  }

  /** A rule that only denies. */
  predicate DenyOnly(r: Rule) {
    r.contract == None && r.allow == [] && r.verifiers == [] && !r.requiresApproval
  }

  /** On a bundle that decides, adding a deny-only rule keeps the contract and can only shrink what is allowed. */
  lemma DenyOnlyShrinks(w: WorkUnit, requested: Contract, b: Bundle, c: Bundle, rule: Rule, d: Decision, e: Decision)
    requires Decides(w, b) && DenyOnly(rule) && b.defaults == c.defaults
    requires forall r :: r in c.rules <==> r in b.rules || r == rule
    requires Faithful(w, requested, b, d) && Faithful(w, requested, c, e)
    ensures d.contract == e.contract && e.allowed <= d.allowed && d.denied <= e.denied
    ensures d.requiredVerifiers == e.requiredVerifiers && d.requireApproval == e.requireApproval
    ensures Matches(w, rule.conditions) ==> e.allowed == d.allowed - CanonicalAll(rule.deny)
  {
    hide Baseline, DefaultDenials, Matches;
    assert CanonicalAll(rule.allow) == {};
    AddedRule(w, requested, b, c, rule);
    hide CanonicalAll, Applies;
    assert forall a :: Granted(w, b, a) <==> Granted(w, c, a);
    assert IsContract(w, requested, c, d.contract);
    ContractUnique(w, requested, c, d.contract, e.contract);
    forall a
      ensures Forbidden(w, c, d.contract, a) <==>
                Forbidden(w, b, d.contract, a) || (Matches(w, rule.conditions) && a in CanonicalAll(rule.deny))
    {
      ForbiddenGrows(w, b, c, rule, d.contract, a);
    }
    hide Forbidden, Granted;
    assert forall v :: Required(w, b, v) <==> Required(w, c, v);
  }

  lemma AddedRule(w: WorkUnit, requested: Contract, b: Bundle, c: Bundle, rule: Rule)
    requires DenyOnly(rule) && b.defaults == c.defaults
    requires forall r :: r in c.rules <==> r in b.rules || r == rule
    ensures forall r :: Applies(w, c, r) <==> Applies(w, b, r) || (r == rule && Matches(w, rule.conditions))
    ensures SomeContract(w, b) <==> SomeContract(w, c)
    ensures forall x :: NamesContract(w, b, x) <==> NamesContract(w, c, x)
  {
    hide Matches;
  }

  lemma ForbiddenGrows(w: WorkUnit, b: Bundle, c: Bundle, rule: Rule, contract: Contract, a: Name)
    requires b.defaults == c.defaults
    requires forall r :: Applies(w, c, r) <==> Applies(w, b, r) || (r == rule && Matches(w, rule.conditions))
    requires forall x :: Granted(w, b, x) <==> Granted(w, c, x)
    ensures Forbidden(w, c, contract, a) <==>
              Forbidden(w, b, contract, a) || (Matches(w, rule.conditions) && a in CanonicalAll(rule.deny))
  {
    hide Applies, Matches, CanonicalAll, Baseline, DefaultDenials, Granted;
  }

  // ----- The whole evaluator -----

  function RequestedContract(w: WorkUnit): Contract {
    if w.requested.Some? then w.requested.value
    else if w.kind in {PromptRequest, CompletionResponse, EmbeddingRequest} then Semantic
    else ExactBytes
  }

  const LEGAL_HOLD := Decision(
    ExactBytes,
    {Hash, ContentDefinedChunk, DedupeSameTenant, ZstdAction, ManifestAction, VerifyRestore},
    {SemanticCache, SemanticCacheLookup, SemanticSummary, LossyTranscode, Delete, TombstoneAction},
    {"sha256_restore"}, ["legal_hold"], ALL_MODELS, false)

  /** The decision without a bundle. */
  function SafeDefault(w: WorkUnit): Decision {
    var requested := RequestedContract(w);
    if requested == Semantic && !w.kind.OtherKind? then
      var semantic := w.allowSemanticCache && !w.kind.EmbeddingRequest?;
      Decision(
        Semantic,
        {NormalizePrompt, ExactCacheLookup, ModelRoute, Verify, CacheStore, ComputeManifest}
          + (if w.kind.EmbeddingRequest? then {} else {ContextCompile})
          + (if semantic then {SemanticCacheLookup} else {}),
        {CrossTenantCache, SemanticSummary, LossyTranscode, Delete}
          + (if semantic then {} else {SemanticCacheLookup}),
        {if w.kind.EmbeddingRequest? then "embedding_shape" else "non_empty_text"},
        ["ai_request_default"], ALL_MODELS, false)
    else
      Decision(
        requested,
        {Hash, ContentDefinedChunk, FixedChunk, DedupeSameTenant, ZstdAction, ManifestAction, VerifyRestore},
        {SemanticCache, SemanticCacheLookup, SemanticSummary, LossyTranscode, CrossTenantDedupe, Delete},
        {"sha256_restore"}, ["global_default"], ALL_MODELS, false)
  }

  /** The first rule to match, if it only denies, leaves the kind's baseline without what it denies. */
  lemma FirstDenyOnlyAllows(w: WorkUnit, b: Bundle, c: Bundle, rule: Rule, e: Decision)
    requires !Decides(w, b) && DenyOnly(rule) && Matches(w, rule.conditions) && c.defaults == b.defaults
    requires forall r :: r in c.rules <==> r in b.rules || r == rule
    requires Faithful(w, RequestedContract(w), c, e)
    ensures e.allowed == Baseline(w.kind).allowed - CanonicalAll(rule.deny)
  {
    hide Matches, IsContract, Required, RequestedContract, DefaultDenials, Baseline;
    assert CanonicalAll(rule.allow) == {};
    forall r
      ensures Applies(w, c, r) <==> r == rule
    {
      assert !Applies(w, b, r);
    }
    hide CanonicalAll, Applies;
    assert forall a :: !Granted(w, c, a);
    assert forall a :: Forbidden(w, c, e.contract, a) <==> a in Baseline(w.kind).denied || a in CanonicalAll(rule.deny);
    BaselineAllowsNoDenied(w.kind);
  }

  lemma BaselineAllowsNoDenied(kind: Kind)
    ensures Baseline(kind).allowed !! Baseline(kind).denied
  {}

  /**
   * On a bundle that does not decide, the first rule to match replaces the safe
   * default by the kind's baseline. If it only denies, it adds nothing to what
   * was allowed if and only if the work is not AI work, or asks for the semantic
   * contract, or all that the baseline allows is denied.
   */
  lemma FirstDenyOnlyShrinksIff(w: WorkUnit, b: Bundle, c: Bundle, rule: Rule, e: Decision)
    requires !Decides(w, b) && DenyOnly(rule) && Matches(w, rule.conditions) && c.defaults == b.defaults
    requires forall r :: r in c.rules <==> r in b.rules || r == rule
    requires Faithful(w, RequestedContract(w), c, e)
    ensures e.allowed <= SafeDefault(w).allowed <==>
              || w.kind.OtherKind? || RequestedContract(w) == Semantic
              || {NormalizePrompt, Verify, ComputeManifest} <= CanonicalAll(rule.deny)
  {
    FirstDenyOnlyAllows(w, b, c, rule, e);
    hide Faithful, Decides, CanonicalAll, RequestedContract;
    var basics: set<Name> := {NormalizePrompt, Verify, ComputeManifest};
    if !w.kind.OtherKind? {
      assert Baseline(w.kind).allowed == basics;
      if RequestedContract(w) == Semantic {
        assert basics <= SafeDefault(w).allowed;
      } else {
        assert SafeDefault(w).allowed !! basics;
      }
    }
  }

  method EvaluatePolicy(w: WorkUnit, bundle: Option<Bundle>) returns (r: Result<Decision>)
    ensures w.legalHold ==> r == Ok(LEGAL_HOLD)
    ensures !w.legalHold && (bundle == None || !Decides(w, bundle.value)) ==> r == Ok(SafeDefault(w))
    ensures !w.legalHold && bundle.Some? && Decides(w, bundle.value) ==>
              if Misspelt(w, RequestedContract(w), bundle.value) then r == Raise(ValueError)
              else r.Ok? && Faithful(w, RequestedContract(w), bundle.value, r.value)
  {
    hide Decides, Misspelt, Faithful;
    if w.legalHold {
      return Ok(LEGAL_HOLD);
    }
    var requested := RequestedContract(w);
    if bundle.Some? {
      var decided := EvaluateBundle(w, requested, bundle.value);
      if decided.Raise? {
        return Raise(decided.error);
      }
      if decided.value.Some? {
        return Ok(decided.value.value);
      }
    }
    r := Ok(SafeDefault(w));
  }
}
