// The association actions as the API routes run them: row by row checks,
// then assignments to the provider or provisioner row.
module RegistryStore {
  import opened Wrappers
  import opened Fleet
  import opened Lists
  import opened Ordering
  import opened Association
  import opened AssociationEffects

  // The outcome of one action, against the state it started from.
  ghost predicate Outcome(before: Registry, action: Action, after: Registry, refusal: Option<Refusal>)
    requires StoredMachines(before)
  {
    match Perform(before, action)
    case Ok(next) => refusal.None? && after == next
    case Err(error) => refusal == Some(error) && after == before
  }

  class Store {
    var registry: Registry

    ghost predicate Valid()
      reads this
    {
      Invariant(registry)
    }

    constructor ()
      ensures Valid() && registry == Registry({}, map[], map[], map[], 0)
    {
      registry := Registry({}, map[], map[], map[], 0);
    }

    // The first provider of the provisioner, in id order, with the scope.
    method FindScopeConflict(provisionerId: int, scope: Scope, except: Option<int>) returns (conflict: Option<int>)
      ensures conflict.Some? <==> HasScopeConflict(registry, provisionerId, scope, except)
      ensures conflict.Some? ==>
                && conflict.value in registry.providers
                && Attached(registry, conflict.value, provisionerId)
                && except != conflict
                && registry.providers[conflict.value].scope == scope
    {
      var ids := Ascending(registry.providers.Keys);
      for i := 0 to |ids|
        invariant forall k :: 0 <= k < i ==>
                    !(Attached(registry, ids[k], provisionerId) && except != Some(ids[k]) && registry.providers[ids[k]].scope == scope)
      {
        var p := ids[i];
        if Attached(registry, p, provisionerId) {
          if except == Some(p) {
            continue;
          }
          if registry.providers[p].scope == scope {
            return Some(p);
          }
        }
      }
      forall p | p in registry.providers
        ensures !(Attached(registry, p, provisionerId) && except != Some(p) && registry.providers[p].scope == scope)
      {
        assert p in ids;
        var k :| 0 <= k < |ids| && ids[k] == p;
      }
      return None;
    }

    method LoadProvisioners(ids: seq<int>, platformId: int, scope: Scope) returns (refusal: Option<Refusal>)
      ensures refusal == CheckProvisioners(registry, ids, platformId, scope)
    {
      for i := 0 to |ids|
        invariant CheckProvisioners(registry, ids, platformId, scope) == CheckProvisioners(registry, ids[i..], platformId, scope)
      {
        assert ids[i..][1..] == ids[i + 1..];
        if ids[i] !in registry.provisioners {
          return Some(Missing);
        }
        if registry.provisioners[ids[i]] != platformId {
          return Some(PlatformMismatch);
        }
        var conflict := FindScopeConflict(ids[i], scope, None);
        if conflict.Some? {
          return Some(ScopeConflict);
        }
      }
      return None;
    }

    method EnsureScopeMatches(id: int, scope: Scope) returns (ok: bool)
      requires id in registry.providers
      ensures ok <==> forall v :: v in registry.providers[id].provisioners ==> !HasScopeConflict(registry, v, scope, Some(id))
    {
      var ids := Ascending(registry.providers[id].provisioners);
      for i := 0 to |ids|
        invariant forall k :: 0 <= k < i ==> !HasScopeConflict(registry, ids[k], scope, Some(id))
      {
        var conflict := FindScopeConflict(ids[i], scope, Some(id));
        if conflict.Some? {
          return false;
        }
      }
      assert forall v :: v in registry.providers[id].provisioners ==> v in ids;
      return true;
    }

    method EnsurePlatformMatches(id: int, platformId: int) returns (ok: bool)
      requires id in registry.providers
      ensures ok <==> forall v :: v in registry.providers[id].provisioners ==>
                        LivesOn(registry, v, platformId)
    {
      var ids := Ascending(registry.providers[id].provisioners);
      for i := 0 to |ids|
        invariant forall k :: 0 <= k < i ==> LivesOn(registry, ids[k], platformId)
      {
        if ids[i] !in registry.provisioners || registry.provisioners[ids[i]] != platformId {
          return false;
        }
      }
      assert forall v :: v in registry.providers[id].provisioners ==> v in ids;
      return true;
    }

    method CreateProvider(id: int, platformId: int, scope: Scope,
                          provisionerIds: seq<int>) returns (refusal: Option<Refusal>)
      requires Valid()
      modifies this
      ensures Valid()
      ensures Outcome(old(registry), Action.CreateProvider(id, platformId, scope, provisionerIds), registry, refusal)
      ensures refusal.None? ==> CreateEffect(old(registry), registry, id, platformId, scope, provisionerIds)
    {
      CreateProviderExactly(registry, id, platformId, scope, provisionerIds);
      PerformKeeps(registry, Action.CreateProvider(id, platformId, scope, provisionerIds));
      if platformId !in registry.platforms || id in registry.providers {
        return Some(Missing);
      }
      refusal := LoadProvisioners(provisionerIds, platformId, scope);
      if refusal.None? {
        var provider := Provider(platformId, scope, false, Elements(provisionerIds));
        registry := registry.(providers := registry.providers[id := provider]);
      }
    }

    // A refusal after the scope was already assigned rolls it back.
    method UpdateProvider(id: int, newScope: Option<Scope>,
                          newPlatformId: Option<int>) returns (refusal: Option<Refusal>)
      requires Valid()
      modifies this
      ensures Valid()
      ensures Outcome(old(registry), Action.UpdateProvider(id, newScope, newPlatformId), registry, refusal)
      ensures refusal.None? <==> CanUpdate(old(registry), id, newScope, newPlatformId)
      ensures refusal.None? ==> UpdateEffect(old(registry), registry, id, newScope, newPlatformId)
    {
      UpdateExactly(registry, id, newScope, newPlatformId);
      PerformKeeps(registry, Action.UpdateProvider(id, newScope, newPlatformId));
      if id !in registry.providers {
        return Some(Missing);
      }
      var provider := registry.providers[id];
      if newScope.Some? {
        var ok := EnsureScopeMatches(id, newScope.value);
        if !ok {
          return Some(ScopeConflict);
        }
        provider := provider.(scope := newScope.value);
      }
      if newPlatformId.Some? {
        if newPlatformId.value !in registry.platforms {
          return Some(Missing);
        }
        var ok := EnsurePlatformMatches(id, newPlatformId.value);
        if !ok {
          return Some(PlatformMismatch);
        }
        provider := provider.(platformId := newPlatformId.value);
      }
      registry := registry.(providers := registry.providers[id := provider]);
      return None;
    }

    method Attach(id: int, provisionerId: int) returns (refusal: Option<Refusal>)
      requires Valid()
      modifies this
      ensures Valid()
      ensures Outcome(old(registry), Action.Attach(id, provisionerId), registry, refusal)
      ensures refusal.None? <==> CanAttach(old(registry), id, provisionerId)
      ensures refusal.None? ==> AttachEffect(old(registry), registry, id, provisionerId)
    {
      AttachExactly(registry, id, provisionerId);
      PerformKeeps(registry, Action.Attach(id, provisionerId));
      if id !in registry.providers || provisionerId !in registry.provisioners {
        return Some(Missing);
      }
      var provider := registry.providers[id];
      if registry.provisioners[provisionerId] != provider.platformId {
        return Some(PlatformMismatch);
      }
      if provisionerId !in provider.provisioners {
        var conflict := FindScopeConflict(provisionerId, provider.scope, Some(id));
        if conflict.Some? {
          return Some(ScopeConflict);
        }
        provider := provider.(provisioners := provider.provisioners + {provisionerId});
        registry := registry.(providers := registry.providers[id := provider]);
      }
      return None;
    }

    method Detach(id: int, provisionerId: int) returns (refusal: Option<Refusal>)
      requires Valid()
      modifies this
      ensures Valid()
      ensures Outcome(old(registry), Action.Detach(id, provisionerId), registry, refusal)
      ensures refusal.None? ==> DetachEffect(old(registry), registry, id, provisionerId)
    {
      DetachExactly(registry, id, provisionerId);
      PerformKeeps(registry, Action.Detach(id, provisionerId));
      if id !in registry.providers || provisionerId !in registry.provisioners {
        return Some(Missing);
      }
      var provider := registry.providers[id];
      if registry.provisioners[provisionerId] != provider.platformId {
        return Some(PlatformMismatch);
      }
      registry := registry.(providers := registry.providers[id := WithoutProvisioner(provider, provisionerId)]);
      return None;
    }

    method AttachedElsewhere(id: int, platformId: int) returns (found: bool)
      ensures found <==> exists p :: p in registry.providers && ElsewhereAttached(registry, p, id, platformId)
    {
      var ids := Ascending(registry.providers.Keys);
      for i := 0 to |ids|
        invariant forall k :: 0 <= k < i ==> !ElsewhereAttached(registry, ids[k], id, platformId)
      {
        if Attached(registry, ids[i], id) {
          if registry.providers[ids[i]].platformId != platformId {
            assert ElsewhereAttached(registry, ids[i], id, platformId);
            return true;
          }
        }
      }
      forall p | p in registry.providers ensures !ElsewhereAttached(registry, p, id, platformId) {
        assert p in ids;
        var k :| 0 <= k < |ids| && ids[k] == p;
      }
      return false;
    }

    method EnsurePlatformCanChange(id: int, platformId: int) returns (refusal: Option<Refusal>)
      requires id in registry.provisioners && platformId in registry.platforms
      ensures refusal == CheckMove(registry, id, platformId)
    {
      if platformId == registry.provisioners[id] {
        return None;
      }
      if exists m :: m in registry.machines && registry.machines[m].source == Some(id) {
        return Some(LinkedMachines);
      }
      var elsewhere := AttachedElsewhere(id, platformId);
      return if elsewhere then Some(PlatformMismatch) else None;
    }

    method MoveProvisioner(id: int, platformId: int) returns (refusal: Option<Refusal>)
      requires Valid()
      modifies this
      ensures Valid()
      ensures Outcome(old(registry), Action.MoveProvisioner(id, platformId), registry, refusal)
    {
      PerformKeeps(registry, Action.MoveProvisioner(id, platformId));
      if id !in registry.provisioners || platformId !in registry.platforms {
        return Some(Missing);
      }
      refusal := EnsurePlatformCanChange(id, platformId);
      if refusal.None? {
        registry := registry.(provisioners := registry.provisioners[id := platformId]);
      }
    }
  }
}
