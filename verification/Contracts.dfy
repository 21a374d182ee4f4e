/** Shared vocabulary of policies and plans: python/urp/contracts.py and python/urp/action_registry.py. */
module Contracts {
  import opened Common

  datatype Contract = ExactBytes | ExactLogical | BoundedApprox | Semantic | Derived | Tombstone

  datatype Mode = Observe | Shadow | Enforce

  /** Work-unit kinds; the ones the policy and the planner do not single out share one constructor. */
  datatype Kind = PromptRequest | CompletionResponse | EmbeddingRequest | OtherKind(name: string)

  /** Names of actions, and of the transforms a policy may write for them. */
  datatype Name =
    | Hash | ContentDefinedChunk | FixedChunk | DedupeSameTenant | ZstdAction | DedupeOnlyOrExactStore
    | StoreExactCiphertext | StoreExactBytes | ManifestAction | VerifyRestore | Rehydrate
    | NormalizePrompt | ExactCacheLookup | ContextCompile | ToolFirstAttempt | ModelRoute | Verify
    | CacheStore | ComputeManifest
    | SemanticCacheLookup | SemanticSummary | ApproximateQuantization | Delete
    | CrossTenantCache | CrossTenantDedupe | LossyTranscode | SemanticCache | TombstoneAction | Distillation
    | ExactCache | ContextDedupe | SemanticCacheEnforce | DistillationEnforce
    | ShadowOf(of: Name)
    | Custom(text: string)

  const EXACT: set<Contract> := {ExactBytes, ExactLogical, BoundedApprox, Semantic}

  /** The contracts an action may serve, None for an action that is not registered. */
  function Registered(name: Name): Option<set<Contract>> {
    match name
    case Hash | ContentDefinedChunk | FixedChunk | DedupeSameTenant | ZstdAction | DedupeOnlyOrExactStore
         | StoreExactCiphertext | StoreExactBytes | ManifestAction | VerifyRestore | Rehydrate => Some(EXACT)
    case NormalizePrompt | ExactCacheLookup | ContextCompile | ToolFirstAttempt | ModelRoute | Verify
         | CacheStore | ComputeManifest => Some({Semantic, ExactBytes, ExactLogical})
    case SemanticCacheLookup | SemanticSummary => Some({Semantic})
    case ApproximateQuantization => Some({BoundedApprox})
    case Delete => Some({Tombstone})
    case _ => None
  }

  predicate Supports(contract: Contract, name: Name) {
    Registered(name).Some? && contract in Registered(name).value
  }

  /** `validate_plan_actions` */
  method ValidatePlanActions(contract: Contract, actions: seq<Name>, denied: set<Name>) returns (r: Result<()>)
    ensures r == if forall a :: a in actions ==> a !in denied && Supports(contract, a) then Ok(()) else Raise(ValueError)
  {
    for i := 0 to |actions|
      invariant forall j :: 0 <= j < i ==> actions[j] !in denied && Supports(contract, actions[j])
    {
      if actions[i] in denied {
        return Raise(ValueError);
      }
      var spec := Registered(actions[i]);
      if spec == None {
        return Raise(ValueError);
      }
      if contract !in spec.value {
        return Raise(ValueError);
      }
    }
    r := Ok(());
  }

  /** Which actions each contract supports: derived none, tombstone deletion alone, both exact ones the same. */
  lemma RegistryByContract(a: Name)
    ensures !Supports(Derived, a)
    ensures Supports(Tombstone, a) <==> a == Delete
    ensures Supports(ExactBytes, a) <==> Supports(ExactLogical, a)
    ensures Supports(ExactBytes, a) <==>
              a in {Hash, ContentDefinedChunk, FixedChunk, DedupeSameTenant, ZstdAction, DedupeOnlyOrExactStore,
                    StoreExactCiphertext, StoreExactBytes, ManifestAction, VerifyRestore, Rehydrate,
                    NormalizePrompt, ExactCacheLookup, ContextCompile, ToolFirstAttempt, ModelRoute, Verify, CacheStore,
                    ComputeManifest}
    ensures Supports(Semantic, a) <==> Supports(ExactBytes, a) || a == SemanticCacheLookup || a == SemanticSummary
    ensures Supports(BoundedApprox, a) <==>
              a == ApproximateQuantization
              || a in {Hash, ContentDefinedChunk, FixedChunk, DedupeSameTenant, ZstdAction, DedupeOnlyOrExactStore,
                       StoreExactCiphertext, StoreExactBytes, ManifestAction, VerifyRestore, Rehydrate}
  {}
}
