/** Plan construction: python/urp/planner.py. */
module Planner {
  import opened Common
  import opened Contracts
  import opened Policy

  /** What the classifier says of a payload; floating-point entropy enters as one comparison. */
  datatype Classification = Classification(likelyEncrypted: bool, likelyCompressed: bool, lowEntropy: bool)

  /** The mandatory safety actions. */
  predicate Framework(a: Name) {
    a.Hash? || a.ManifestAction? || a.Verify? || a.VerifyRestore? || a.ComputeManifest?
  }

  /** The actions that decide how the bytes are laid out. */
  predicate Layout(a: Name) {
    a.ContentDefinedChunk? || a.FixedChunk? || a.StoreExactCiphertext? || a.StoreExactBytes?
  }

  /** The actions a kind of work asks for before policy has its say. */
  function Wanted(kind: Kind, c: Classification): seq<Name> {
    match kind
    case EmbeddingRequest => [NormalizePrompt, ExactCacheLookup, ModelRoute, Verify, CacheStore, ComputeManifest]
    case PromptRequest =>
      [NormalizePrompt, ExactCacheLookup, SemanticCacheLookup, ContextCompile, ToolFirstAttempt, ModelRoute, Verify,
       CacheStore, ComputeManifest]
    case _ =>
      [Hash,
       if c.likelyEncrypted then StoreExactCiphertext else ContentDefinedChunk,
       if c.lowEntropy && !c.likelyCompressed then ZstdAction else DedupeOnlyOrExactStore,
       ManifestAction,
       VerifyRestore]
  }

  predicate AiKind(kind: Kind) { kind.EmbeddingRequest? || kind.PromptRequest? }

  predicate Permitted(d: Decision, mode: Mode, a: Name) {
    a !in d.denied && (Framework(a) || a in d.allowed || (mode == Shadow && ShadowOf(a) in d.allowed))
  }

  /** A mandatory safety action that the policy denies. */
  predicate DeniedSafety(d: Decision, actions: seq<Name>) {
    exists a :: a in actions && a in d.denied && Framework(a)
  }

  function Keep(actions: seq<Name>, d: Decision, mode: Mode): seq<Name> {
    if actions == [] then []
    else
      var n := |actions| - 1;
      Keep(actions[..n], d, mode) + if Permitted(d, mode, actions[n]) then [actions[n]] else []
  }

  /** `_filter_actions` */
  method FilterActions(actions: seq<Name>, d: Decision, mode: Mode) returns (r: Result<seq<Name>>)
    ensures r == if DeniedSafety(d, actions) then Raise(ValueError) else Ok(Keep(actions, d, mode))
  {
    var filtered: seq<Name> := [];
    for i := 0 to |actions|
      invariant filtered == Keep(actions[..i], d, mode)
      invariant !DeniedSafety(d, actions[..i])
    {
      assert actions[..i + 1][..i] == actions[..i];
      assert actions[..i + 1] == actions[..i] + [actions[i]];
      var action := actions[i];
      if action in d.denied {
        if Framework(action) {
          return Raise(ValueError);
        }
        continue;
      }
      var shadowAllowed := mode == Shadow && ShadowOf(action) in d.allowed;
      if Framework(action) || action in d.allowed || shadowAllowed {
        filtered := filtered + [action];
      }
    }
    assert actions[..|actions|] == actions;
    r := Ok(filtered);
  }

  /** The actions once the exact fallback is inserted where an object plan lacks a layout. */
  function WithFallback(kept: seq<Name>): seq<Name> {
    if (exists a :: a in kept && Layout(a)) || kept == [] then kept else kept[..1] + [StoreExactBytes] + kept[1..]
  }

  function PlannedActions(kind: Kind, c: Classification, d: Decision, mode: Mode): seq<Name> {
    var kept := Keep(Wanted(kind, c), d, mode);
    if AiKind(kind) then kept else WithFallback(kept)
  }

  predicate PlanFails(kind: Kind, c: Classification, d: Decision, mode: Mode) {
    || DeniedSafety(d, Wanted(kind, c))
    || exists a :: a in PlannedActions(kind, c, d, mode) && !Supports(d.contract, a)
  }

  method PlanWorkUnit(kind: Kind, c: Classification, d: Decision, mode: Mode) returns (r: Result<seq<Name>>)
    ensures r == if PlanFails(kind, c, d, mode) then Raise(ValueError) else Ok(PlannedActions(kind, c, d, mode))
  {
    hide Supports, Keep, Permitted;
    KeepPermitted(Wanted(kind, c), d, mode);
    if kind.EmbeddingRequest? || kind.PromptRequest? {
      var wanted := Wanted(kind, c);
      var filtered := FilterActions(wanted, d, mode);
      if filtered.Raise? {
        return filtered;
      }
      var valid := ValidatePlanActions(d.contract, filtered.value, set a | a in d.denied && a in filtered.value);
      KeptIsUndenied(wanted, d, mode);
      return if valid.Raise? then Raise(valid.error) else filtered;
    }
    var actions := [Hash];
    actions := actions + [if c.likelyEncrypted then StoreExactCiphertext else ContentDefinedChunk];
    actions := actions + [if c.lowEntropy && !c.likelyCompressed then ZstdAction else DedupeOnlyOrExactStore];
    actions := actions + [ManifestAction];
    actions := actions + [VerifyRestore];
    assert actions == Wanted(kind, c);
    var filtered := FilterActions(actions, d, mode);
    if filtered.Raise? {
      return filtered;
    }
    actions := filtered.value;
    if !(exists a :: a in actions && Layout(a)) {
      HashIsKept(kind, c, d, mode);
      actions := actions[..1] + [StoreExactBytes] + actions[1..];
    }
    var valid := ValidatePlanActions(d.contract, actions, {});
    r := if valid.Raise? then Raise(valid.error) else Ok(actions);
  }

  lemma {:induction false} KeepPermitted(actions: seq<Name>, d: Decision, mode: Mode)
    ensures forall a :: a in Keep(actions, d, mode) <==> a in actions && Permitted(d, mode, a)
  {
    hide Permitted;
    if actions != [] {
      var n := |actions| - 1;
      KeepPermitted(actions[..n], d, mode);
      assert actions == actions[..n] + [actions[n]];
    }
  }

  lemma KeptIsUndenied(actions: seq<Name>, d: Decision, mode: Mode)
    ensures forall a :: a in Keep(actions, d, mode) ==> a !in d.denied
  {
    KeepPermitted(actions, d, mode);
  }

  lemma HashIsKept(kind: Kind, c: Classification, d: Decision, mode: Mode)
    requires !AiKind(kind) && !DeniedSafety(d, Wanted(kind, c))
    ensures Keep(Wanted(kind, c), d, mode) != []
  {
    KeepPermitted(Wanted(kind, c), d, mode);
    assert Wanted(kind, c)[0] == Hash;
  }

  // ----- What every plan satisfies -----

  /**
   * Planning raises, or every action supports the decided contract and, but for
   * the exact fallback, is undenied and allowed, shadow-allowed or framework.
   */
  lemma PlanIsSound(kind: Kind, c: Classification, d: Decision, mode: Mode, a: Name)
    requires !PlanFails(kind, c, d, mode) && a in PlannedActions(kind, c, d, mode)
    ensures Supports(d.contract, a)
    ensures Permitted(d, mode, a) || (a == StoreExactBytes && !AiKind(kind))
    ensures a in Wanted(kind, c) || a == StoreExactBytes
  {
    hide Supports, Keep, Permitted;
    KeepPermitted(Wanted(kind, c), d, mode);
  }

  /** A mandatory action by name. */
  predicate Mandatory(a: Name) { a in {Hash, ManifestAction, Verify, VerifyRestore, ComputeManifest} }

  /**
   * A plan holds an action if and only if the kind of work asks for it and it is
   * undenied and mandatory, allowed, or in shadow mode allowed as a shadow; the
   * exact fallback is there when no such action lays an object out.
   */
  lemma PlanHoldsIff(kind: Kind, c: Classification, d: Decision, mode: Mode, a: Name)
    requires !PlanFails(kind, c, d, mode) && a != StoreExactBytes
    ensures a in PlannedActions(kind, c, d, mode) <==>
              a in Wanted(kind, c) && a !in d.denied
              && (Mandatory(a) || a in d.allowed || (mode == Shadow && ShadowOf(a) in d.allowed))
  {
    hide Supports, Keep, Wanted;
    KeepPermitted(Wanted(kind, c), d, mode);
    if !AiKind(kind) {
      FallbackAdds(Keep(Wanted(kind, c), d, mode));
    }
  }

  /** What objects ask for follows the classifier: ciphertext is not chunked, and only compressible bytes are compressed. */
  lemma WantedFollowsClassifier(kind: Kind, c: Classification, a: Name)
    requires kind != PromptRequest && kind != EmbeddingRequest
    ensures a in Wanted(kind, c) <==>
              || a == Hash || a == ManifestAction || a == VerifyRestore
              || (a == ContentDefinedChunk && !c.likelyEncrypted) || (a == StoreExactCiphertext && c.likelyEncrypted)
              || (a == ZstdAction && c.lowEntropy && !c.likelyCompressed)
              || (a == DedupeOnlyOrExactStore && !(c.lowEntropy && !c.likelyCompressed))
  {}

  lemma WantedByAi(c: Classification, a: Name)
    ensures a in Wanted(PromptRequest, c) <==>
              a in {NormalizePrompt, ExactCacheLookup, SemanticCacheLookup, ContextCompile, ToolFirstAttempt, ModelRoute,
                    Verify, CacheStore, ComputeManifest}
    ensures a in Wanted(EmbeddingRequest, c) <==>
              a in {NormalizePrompt, ExactCacheLookup, ModelRoute, Verify, CacheStore, ComputeManifest}
  {}

  /** Outside shadow mode no action is planned that the policy allows as a shadow alone. */
  lemma ShadowStaysShadow(kind: Kind, c: Classification, d: Decision, mode: Mode, a: Name)
    requires mode != Shadow && a !in d.allowed && !Mandatory(a) && a != StoreExactBytes
    ensures a !in PlannedActions(kind, c, d, mode)
  {
    hide Keep, Wanted;
    KeepPermitted(Wanted(kind, c), d, mode);
    if !AiKind(kind) {
      FallbackAdds(Keep(Wanted(kind, c), d, mode));
    }
  }

  /** How many layout actions a plan holds. */
  function LayoutCount(actions: seq<Name>): nat {
    if actions == [] then 0
    else LayoutCount(actions[1..]) + if Layout(actions[0]) then 1 else 0
  }

  lemma {:induction false} LayoutCountAppend(xs: seq<Name>, ys: seq<Name>)
    ensures LayoutCount(xs + ys) == LayoutCount(xs) + LayoutCount(ys)
  {
    if xs == [] {
      assert xs + ys == ys;
    } else {
      assert (xs + ys)[1..] == xs[1..] + ys;
      LayoutCountAppend(xs[1..], ys);
    }
  }

  lemma {:induction false} NoLayoutCountsZero(xs: seq<Name>)
    ensures LayoutCount(xs) == 0 <==> forall a :: a in xs ==> !Layout(a)
  {
    if xs != [] {
      NoLayoutCountsZero(xs[1..]);
      assert xs == [xs[0]] + xs[1..];
    }
  }

  lemma {:induction false} KeepCountsLess(actions: seq<Name>, d: Decision, mode: Mode)
    ensures LayoutCount(Keep(actions, d, mode)) <= LayoutCount(actions)
  {
    hide Permitted;
    if actions != [] {
      var n := |actions| - 1;
      KeepCountsLess(actions[..n], d, mode);
      assert actions == actions[..n] + [actions[n]];
      LayoutCountAppend(actions[..n], [actions[n]]);
      LayoutCountAppend(Keep(actions[..n], d, mode), if Permitted(d, mode, actions[n]) then [actions[n]] else []);
    }
  }

  lemma FallbackLaysOut(kept: seq<Name>)
    requires kept != [] && LayoutCount(kept) <= 1
    ensures LayoutCount(WithFallback(kept)) == 1
    ensures forall a :: a in kept ==> a in WithFallback(kept)
  {
    NoLayoutCountsZero(kept);
    if LayoutCount(kept) == 0 {
      var head, tail := kept[..1], kept[1..];
      assert kept == head + tail;
      LayoutCountAppend(head, tail);
      LayoutCountAppend(head + [StoreExactBytes], tail);
      LayoutCountAppend(head, [StoreExactBytes]);
      assert LayoutCount([StoreExactBytes]) == 1 by { assert [StoreExactBytes][1..] == []; }
      assert forall a :: a in kept ==> a in head || a in tail;
    }
  }

  /** Object plans identify, record and verify, and lay the bytes out in exactly one way. */
  lemma ObjectPlanShape(kind: Kind, c: Classification, d: Decision, mode: Mode)
    requires !AiKind(kind) && !PlanFails(kind, c, d, mode)
    ensures var plan := PlannedActions(kind, c, d, mode);
            && plan != [] && plan[0] == Hash && ManifestAction in plan && VerifyRestore in plan
            && LayoutCount(plan) == 1
  {
    hide Supports, Keep, Wanted, WithFallback, LayoutCount;
    var wanted := Wanted(kind, c);
    WantedByObjects(kind, c);
    WantedHashFirst(kind, c);
    KeepPermitted(wanted, d, mode);
    assert Hash !in d.denied && ManifestAction !in d.denied && VerifyRestore !in d.denied;
    KeepStartsWithHash(wanted, d, mode);
    KeepCountsLess(wanted, d, mode);
    WantedHasOneLayout(kind, c);
    FallbackLaysOut(Keep(wanted, d, mode));
    FallbackAdds(Keep(wanted, d, mode));
  }

  lemma WantedHashFirst(kind: Kind, c: Classification)
    requires !AiKind(kind)
    ensures Wanted(kind, c) != [] && Wanted(kind, c)[0] == Hash
  {}

  lemma WantedHasOneLayout(kind: Kind, c: Classification)
    requires !AiKind(kind)
    ensures LayoutCount(Wanted(kind, c)) == 1
  {
    var w := Wanted(kind, c);
    assert w == [w[0]] + ([w[1]] + [w[2], w[3], w[4]]);
    LayoutCountAppend([w[0]], [w[1]] + [w[2], w[3], w[4]]);
    LayoutCountAppend([w[1]], [w[2], w[3], w[4]]);
    NoLayoutCountsZero([w[0]]);
    NoLayoutCountsZero([w[2], w[3], w[4]]);
    assert [w[1]][1..] == [];
  }

  lemma {:induction false} KeepStartsWithHash(actions: seq<Name>, d: Decision, mode: Mode)
    requires actions != [] && actions[0] == Hash && Hash !in d.denied
    ensures Keep(actions, d, mode) != [] && Keep(actions, d, mode)[0] == Hash
  {
    if |actions| > 1 {
      hide Permitted;
      KeepStartsWithHash(actions[..|actions| - 1], d, mode);
    } else {
      assert Keep(actions[..0], d, mode) == [];
    }
  }

  predicate ObjectAction(a: Name) {
    || a.Hash? || a.ContentDefinedChunk? || a.StoreExactCiphertext? || a.ZstdAction? || a.DedupeOnlyOrExactStore?
    || a.ManifestAction? || a.VerifyRestore?
  }

  predicate PromptAction(a: Name) {
    || a.NormalizePrompt? || a.ExactCacheLookup? || a.SemanticCacheLookup? || a.ContextCompile?
    || a.ToolFirstAttempt? || a.ModelRoute? || a.Verify? || a.CacheStore? || a.ComputeManifest?
  }

  lemma WantedByObjects(kind: Kind, c: Classification)
    requires !AiKind(kind)
    ensures forall a :: a in Wanted(kind, c) ==> ObjectAction(a)
    ensures Hash in Wanted(kind, c) && ManifestAction in Wanted(kind, c) && VerifyRestore in Wanted(kind, c)
  {
    var w := Wanted(kind, c);
    assert w[0] == Hash && w[3] == ManifestAction && w[4] == VerifyRestore;
  }

  lemma WantedByPrompts(c: Classification)
    ensures forall a :: a in Wanted(PromptRequest, c) <==> PromptAction(a)
  {
    var w := Wanted(PromptRequest, c);
    assert w[0] == NormalizePrompt && w[1] == ExactCacheLookup && w[2] == SemanticCacheLookup;
    assert w[3] == ContextCompile && w[4] == ToolFirstAttempt && w[5] == ModelRoute;
    assert w[6] == Verify && w[7] == CacheStore && w[8] == ComputeManifest;
  }

  lemma ObjectRegistered(a: Name, contract: Contract)
    requires ObjectAction(a) || a == StoreExactBytes
    ensures Supports(contract, a) <==> contract != Derived && contract != Tombstone
  {}

  lemma PromptRegistered(a: Name, contract: Contract)
    requires PromptAction(a)
    ensures Supports(contract, a) <==>
              contract == Semantic || (!a.SemanticCacheLookup? && (contract == ExactBytes || contract == ExactLogical))
  {}

  lemma FallbackAdds(kept: seq<Name>)
    ensures forall a :: a in WithFallback(kept) ==> a in kept || a == StoreExactBytes
    ensures kept != [] ==> WithFallback(kept) != [] && WithFallback(kept)[0] == kept[0]
  {}

  lemma ObjectPlanActions(kind: Kind, c: Classification, d: Decision, mode: Mode)
    requires !AiKind(kind) && !DeniedSafety(d, Wanted(kind, c))
    ensures var plan := PlannedActions(kind, c, d, mode);
            && plan != []
            && forall a :: a in plan ==> (ObjectAction(a) && Permitted(d, mode, a)) || a == StoreExactBytes
  {
    hide Keep, Permitted, Wanted, WithFallback, ObjectAction, Framework;
    WantedByObjects(kind, c);
    KeepPermitted(Wanted(kind, c), d, mode);
    HashIsKept(kind, c, d, mode);
    FallbackAdds(Keep(Wanted(kind, c), d, mode));
  }

  /** Object planning fails exactly for contracts that no storage action serves, or when a safety action is denied. */
  lemma ObjectPlanFailsIff(kind: Kind, c: Classification, d: Decision, mode: Mode)
    requires !AiKind(kind)
    ensures PlanFails(kind, c, d, mode) <==>
              || d.contract == Derived || d.contract == Tombstone
              || Hash in d.denied || ManifestAction in d.denied || VerifyRestore in d.denied
  {
    hide Permitted, Wanted, Supports, PlannedActions;
    WantedByObjects(kind, c);
    if !DeniedSafety(d, Wanted(kind, c)) {
      ObjectPlanActions(kind, c, d, mode);
      var plan := PlannedActions(kind, c, d, mode);
      assert plan[0] in plan;
      forall a | a in plan
        ensures Supports(d.contract, a) <==> d.contract != Derived && d.contract != Tombstone
      {
        ObjectRegistered(a, d.contract);
      }
    }
  }

  lemma PromptPlanActions(c: Classification, d: Decision, mode: Mode)
    ensures forall a :: a in PlannedActions(PromptRequest, c, d, mode) <==> PromptAction(a) && Permitted(d, mode, a)
  {
    hide Keep, Permitted, Wanted, PromptAction;
    WantedByPrompts(c);
    KeepPermitted(Wanted(PromptRequest, c), d, mode);
  }

  /** Prompt planning fails exactly for storage-only contracts, a denied safety action, or semantic reuse off contract. */
  lemma PromptPlanFailsIff(c: Classification, d: Decision, mode: Mode)
    ensures PlanFails(PromptRequest, c, d, mode) <==>
              || Verify in d.denied || ComputeManifest in d.denied
              || (d.contract != Semantic && d.contract != ExactBytes && d.contract != ExactLogical)
              || (d.contract != Semantic && Permitted(d, mode, SemanticCacheLookup))
  {
    hide Wanted, Supports, PlannedActions;
    WantedByPrompts(c);
    if !DeniedSafety(d, Wanted(PromptRequest, c)) {
      assert Verify !in d.denied by { assert Verify in Wanted(PromptRequest, c); }
      PromptPlanActions(c, d, mode);
      var plan := PlannedActions(PromptRequest, c, d, mode);
      assert Verify in plan;
      forall a | a in plan
        ensures Supports(d.contract, a) <==>
                  d.contract == Semantic
                  || (!a.SemanticCacheLookup? && (d.contract == ExactBytes || d.contract == ExactLogical))
      {
        PromptRegistered(a, d.contract);
      }
    }
  }

  lemma LegalHoldPermits(mode: Mode, a: Name)
    requires PromptAction(a)
    ensures Permitted(LEGAL_HOLD, mode, a) <==> a.Verify? || a.ComputeManifest?
  {}

  /** Under a legal hold prompt work only verifies and records. */
  lemma LegalHoldPrompts(c: Classification, mode: Mode)
    ensures !PlanFails(PromptRequest, c, LEGAL_HOLD, mode)
    ensures forall a :: a in PlannedActions(PromptRequest, c, LEGAL_HOLD, mode) <==> a.Verify? || a.ComputeManifest?
  {
    hide PlannedActions, Permitted, PlanFails;
    PromptPlanFailsIff(c, LEGAL_HOLD, mode);
    PromptPlanActions(c, LEGAL_HOLD, mode);
    LegalHoldPermits(mode, SemanticCacheLookup);
    forall a
      ensures a in PlannedActions(PromptRequest, c, LEGAL_HOLD, mode) <==> a.Verify? || a.ComputeManifest?
    {
      if PromptAction(a) { LegalHoldPermits(mode, a); }
    }
  }

  /** Under a legal hold objects are stored exactly: nothing is cached, summarised or deleted. */
  lemma LegalHoldObjects(kind: Kind, c: Classification, mode: Mode)
    requires !AiKind(kind)
    ensures !PlanFails(kind, c, LEGAL_HOLD, mode)
    ensures forall a :: a in PlannedActions(kind, c, LEGAL_HOLD, mode) ==>
              a in {Hash, ContentDefinedChunk, ZstdAction, StoreExactBytes, ManifestAction, VerifyRestore}
  {
    hide PlannedActions;
    ObjectPlanFailsIff(kind, c, LEGAL_HOLD, mode);
    ObjectPlanActions(kind, c, LEGAL_HOLD, mode);
  }

  // ----- The order of a plan -----

  /** The stage an action belongs to: look up, compile, ask, verify, store and record; or hash, lay out, compress, record and verify. */
  function Stage(a: Name): int {
    match a
    case Hash => 0 case NormalizePrompt => 0
    case ExactCacheLookup => 1 case SemanticCacheLookup => 2 case ContextCompile => 3 case ToolFirstAttempt => 4
    case ModelRoute => 5 case Verify => 6 case CacheStore => 7 case ComputeManifest => 8
    case ContentDefinedChunk => 1 case StoreExactCiphertext => 1 case StoreExactBytes => 1
    case ZstdAction => 2 case DedupeOnlyOrExactStore => 2 case ManifestAction => 3 case VerifyRestore => 4
    case _ => 9
  }

  ghost predicate Staged(plan: seq<Name>) { forall i, j :: 0 <= i < j < |plan| ==> Stage(plan[i]) < Stage(plan[j]) }

  /** Every plan goes through its stages in order: caches before the provider, verification before the store. */
  lemma PlansAreStaged(kind: Kind, c: Classification, d: Decision, mode: Mode)
    requires !PlanFails(kind, c, d, mode)
    ensures Staged(PlannedActions(kind, c, d, mode))
  {
    var wanted := Wanted(kind, c);
    var kept := Keep(wanted, d, mode);
    WantedIsStaged(kind, c);
    KeepIsStaged(wanted, d, mode);
    if !AiKind(kind) {
      WantedHashFirst(kind, c);
      assert Hash in wanted && Hash !in d.denied;
      hide PlanFails;
      KeepStartsWithHash(wanted, d, mode);
      KeepPermitted(wanted, d, mode);
      assert ExactCacheLookup !in wanted;
      hide Keep, Stage, Wanted;
      StageOfLayout(kept);
    }
  }

  lemma WantedIsStaged(kind: Kind, c: Classification)
    ensures Staged(Wanted(kind, c))
  {
    var w := Wanted(kind, c);
    if kind == PromptRequest {
      assert forall i :: 0 <= i < |w| ==> Stage(w[i]) == i;
    } else if kind != EmbeddingRequest {
      assert forall i :: 0 <= i < |w| ==> Stage(w[i]) == i;
    } else {
      assert Stage(w[0]) == 0 && Stage(w[1]) == 1;
      assert Stage(w[2]) == 5 && Stage(w[3]) == 6 && Stage(w[4]) == 7 && Stage(w[5]) == 8;
    }
    hide Stage;
  }

  lemma {:induction false} KeepIsStaged(actions: seq<Name>, d: Decision, mode: Mode)
    requires Staged(actions)
    ensures Staged(Keep(actions, d, mode))
  {
    if actions != [] {
      var n := |actions| - 1;
      KeepIsStaged(actions[..n], d, mode);
      KeepPermitted(actions[..n], d, mode);
      var kept := Keep(actions[..n], d, mode);
      forall i | 0 <= i < |kept|
        ensures Stage(kept[i]) < Stage(actions[n])
      {
        assert kept[i] in kept && kept[i] in actions[..n];
      }
    }
  }

  /** The fallback goes in between where nothing else lays the bytes out. */
  lemma StageOfLayout(kept: seq<Name>)
    requires Staged(kept) && kept != [] && kept[0] == Hash && ExactCacheLookup !in kept
    ensures Staged(WithFallback(kept))
  {
    if !exists a :: a in kept && Layout(a) {
      forall i | 1 <= i < |kept|
        ensures Stage(kept[i]) > 1
      {
        assert Stage(kept[0]) < Stage(kept[i]);
        OtherFirstStage(kept[i]);
        assert kept[i] in kept;
      }
      assert Stage(StoreExactBytes) == 1 && Stage(Hash) == 0;
      var plan := WithFallback(kept);
      hide Stage, Layout, WithFallback;
      forall i, j | 0 <= i < j < |plan|
        ensures Stage(plan[i]) < Stage(plan[j])
      {
        if i > 1 {
          assert plan[i] == kept[i - 1] && plan[j] == kept[j - 1];
        }
      }
    }
  }

  lemma OtherFirstStage(a: Name)
    ensures Stage(a) == 1 ==> Layout(a) || a == ExactCacheLookup
  {}
}
