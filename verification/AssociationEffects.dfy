// When each association action is accepted, and what an accepted one does to
// the attachments and the columns.
module AssociationEffects {
  import opened Wrappers
  import opened Extensionality
  import opened Fleet
  import opened Association
  import Inventory
  import InventoryColumns

  /* What an action may leave alone */

  predicate SameColumns(a: Provider, b: Provider) {
    a.platformId == b.platformId && a.scope == b.scope && a.enabled == b.enabled
  }

  predicate OnlyProviders(before: Registry, after: Registry) {
    && after.platforms == before.platforms && after.provisioners == before.provisioners
    && after.machines == before.machines && after.nextMachineId == before.nextMachineId
  }

  // The same provider rows, apart from the attachments.
  predicate SameProviders(before: Registry, after: Registry) {
    && after.providers.Keys == before.providers.Keys
    && forall p :: p in before.providers ==> SameColumns(before.providers[p], after.providers[p])
  }

  ghost predicate SameAttachments(before: Registry, after: Registry) {
    forall p, w :: Attached(after, p, w) <==> Attached(before, p, w)
  }

  // Another provider of the scope is attached to the provisioner.
  ghost predicate ScopeTaken(registry: Registry, provisionerId: int, scope: Scope, except: int) {
    exists q :: Attached(registry, q, provisionerId) && q != except && registry.providers[q].scope == scope
  }

  lemma ConflictMeaning(registry: Registry, provisionerId: int, scope: Scope, except: Option<int>)
    ensures HasScopeConflict(registry, provisionerId, scope, except) <==>
            exists q :: Attached(registry, q, provisionerId) && except != Some(q) && registry.providers[q].scope == scope
  {
  }

  /* Attaching and detaching */

  ghost predicate AttachEffect(before: Registry, after: Registry, id: int, provisionerId: int) {
    && OnlyProviders(before, after) && SameProviders(before, after)
    && forall p, w :: Attached(after, p, w) <==> Attached(before, p, w) || (p == id && w == provisionerId)
  }

  ghost predicate CanAttach(registry: Registry, id: int, provisionerId: int) {
    && id in registry.providers && provisionerId in registry.provisioners
    && registry.provisioners[provisionerId] == registry.providers[id].platformId
    && (Attached(registry, id, provisionerId) || !ScopeTaken(registry, provisionerId, registry.providers[id].scope, id))
  }

  // An attach succeeds exactly when both rows exist on one platform and the
  // pair is attached already or no other provider of the scope is; then it
  // adds that pair and nothing else.
  lemma AttachExactly(registry: Registry, id: int, provisionerId: int)
    requires StoredMachines(registry)
    ensures var result := Perform(registry, Attach(id, provisionerId));
            && (result.Ok? <==> CanAttach(registry, id, provisionerId))
            && (result.Ok? ==> AttachEffect(registry, result.value, id, provisionerId))
            && (result == Err(Missing) <==> id !in registry.providers || provisionerId !in registry.provisioners)
            && (result == Err(PlatformMismatch) <==>
                  && id in registry.providers && provisionerId in registry.provisioners
                  && registry.provisioners[provisionerId] != registry.providers[id].platformId)
  {
    if id in registry.providers {
      ConflictMeaning(registry, provisionerId, registry.providers[id].scope, Some(id));
    }
    var result := Perform(registry, Attach(id, provisionerId));
    if result.Ok? {
      forall p, w ensures Attached(result.value, p, w) <==> Attached(registry, p, w) || (p == id && w == provisionerId) {
      }
      SetsEqual(result.value.providers.Keys, registry.providers.Keys);
    }
  }

  ghost predicate DetachEffect(before: Registry, after: Registry, id: int, provisionerId: int) {
    && OnlyProviders(before, after) && SameProviders(before, after)
    && forall p, w :: Attached(after, p, w) <==> Attached(before, p, w) && !(p == id && w == provisionerId)
  }

  // A detach succeeds exactly when both rows exist on one platform; then that
  // pair goes, if it was there, and nothing else.
  lemma DetachExactly(registry: Registry, id: int, provisionerId: int)
    requires StoredMachines(registry)
    ensures var result := Perform(registry, Detach(id, provisionerId));
            && (result.Ok? <==> && id in registry.providers && provisionerId in registry.provisioners
                                && registry.provisioners[provisionerId] == registry.providers[id].platformId)
            && (result.Ok? ==> DetachEffect(registry, result.value, id, provisionerId))
            && (result == Err(Missing) <==> id !in registry.providers || provisionerId !in registry.provisioners)
  {
    var result := Perform(registry, Detach(id, provisionerId));
    if result.Ok? {
      forall p, w ensures Attached(result.value, p, w) <==> Attached(registry, p, w) && !(p == id && w == provisionerId) {
      }
      SetsEqual(result.value.providers.Keys, registry.providers.Keys);
    }
  }

  /* Creating, updating and deleting providers */

  ghost predicate CreateEffect(before: Registry, after: Registry, id: int, platformId: int, scope: Scope, ids: seq<int>) {
    && OnlyProviders(before, after)
    && after.providers.Keys == before.providers.Keys + {id}
    && after.providers[id].platformId == platformId && after.providers[id].scope == scope && !after.providers[id].enabled
    && (forall p :: p in before.providers ==> SameColumns(before.providers[p], after.providers[p]))
    && forall p, w :: Attached(after, p, w) <==> Attached(before, p, w) || (p == id && w in ids)
  }

  // What refuses one provisioner of a new provider.
  ghost function RefusalOf(registry: Registry, provisionerId: int, platformId: int, scope: Scope): Option<Refusal> {
    if provisionerId !in registry.provisioners then Some(Missing)
    else if registry.provisioners[provisionerId] != platformId then Some(PlatformMismatch)
    else if exists q :: Attached(registry, q, provisionerId) && registry.providers[q].scope == scope then Some(ScopeConflict)
    else None
  }

  // The first refused provisioner decides.
  lemma {:induction false} CheckMeaning(registry: Registry, ids: seq<int>, platformId: int, scope: Scope)
    ensures var refusal := CheckProvisioners(registry, ids, platformId, scope);
            && (refusal.None? <==> forall k :: 0 <= k < |ids| ==> RefusalOf(registry, ids[k], platformId, scope).None?)
            && (refusal.Some? ==> exists k :: 0 <= k < |ids| && RefusalOf(registry, ids[k], platformId, scope) == refusal
                                              && forall j :: 0 <= j < k ==> RefusalOf(registry, ids[j], platformId, scope).None?)
  {
    if ids != [] {
      var rest := ids[1..];
      CheckMeaning(registry, rest, platformId, scope);
      ConflictMeaning(registry, ids[0], scope, None);
      var first := RefusalOf(registry, ids[0], platformId, scope);
      assert forall k :: 0 <= k < |rest| ==> rest[k] == ids[k + 1];
      if first.None? {
        forall k | 0 <= k < |ids| && forall j :: 0 <= j < |rest| ==> RefusalOf(registry, rest[j], platformId, scope).None?
          ensures RefusalOf(registry, ids[k], platformId, scope).None?
        {
          if k > 0 { assert ids[k] == rest[k - 1]; }
        }
        var refusal := CheckProvisioners(registry, rest, platformId, scope);
        if refusal.Some? {
          var k :| 0 <= k < |rest| && RefusalOf(registry, rest[k], platformId, scope) == refusal
                   && forall j :: 0 <= j < k ==> RefusalOf(registry, rest[j], platformId, scope).None?;
          forall j | 0 <= j < k + 1 ensures RefusalOf(registry, ids[j], platformId, scope).None? {
            if j > 0 { assert ids[j] == rest[j - 1]; }
          }
          assert RefusalOf(registry, ids[k + 1], platformId, scope) == refusal;
        }
      } else {
        assert RefusalOf(registry, ids[0], platformId, scope) == CheckProvisioners(registry, ids, platformId, scope);
      }
    }
  }

  lemma CreateProviderExactly(registry: Registry, id: int, platformId: int, scope: Scope, ids: seq<int>)
    requires StoredMachines(registry)
    ensures var result := Perform(registry, CreateProvider(id, platformId, scope, ids));
            && (result.Ok? <==>
                  && platformId in registry.platforms && id !in registry.providers
                  && forall k :: 0 <= k < |ids| ==> RefusalOf(registry, ids[k], platformId, scope).None?)
            && (result.Ok? ==> CreateEffect(registry, result.value, id, platformId, scope, ids))
  {
    CheckMeaning(registry, ids, platformId, scope);
    var result := Perform(registry, CreateProvider(id, platformId, scope, ids));
    if result.Ok? {
      forall p, w ensures Attached(result.value, p, w) <==> Attached(registry, p, w) || (p == id && w in ids) {
      }
      SetsEqual(result.value.providers.Keys, registry.providers.Keys + {id});
    }
  }

  ghost predicate CanUpdate(registry: Registry, id: int, newScope: Option<Scope>, newPlatformId: Option<int>) {
    && id in registry.providers
    && (newScope.Some? ==> forall v :: Attached(registry, id, v) ==> !ScopeTaken(registry, v, newScope.value, id))
    && (newPlatformId.Some? ==>
          && newPlatformId.value in registry.platforms
          && forall v :: Attached(registry, id, v) ==>
               v in registry.provisioners && registry.provisioners[v] == newPlatformId.value)
  }

  ghost predicate UpdateEffect(before: Registry, after: Registry, id: int, newScope: Option<Scope>,
                               newPlatformId: Option<int>)
    requires id in before.providers
  {
    && OnlyProviders(before, after) && SameAttachments(before, after)
    && after.providers.Keys == before.providers.Keys
    && (forall p :: p in before.providers && p != id ==> SameColumns(before.providers[p], after.providers[p]))
    && after.providers[id].enabled == before.providers[id].enabled
    && after.providers[id].scope == (if newScope.Some? then newScope.value else before.providers[id].scope)
    && after.providers[id].platformId == (if newPlatformId.Some? then newPlatformId.value else before.providers[id].platformId)
  }

  lemma UpdateConditions(registry: Registry, id: int, newScope: Option<Scope>, newPlatformId: Option<int>)
    requires id in registry.providers
    ensures CheckUpdate(registry, id, newScope, newPlatformId).None? <==> CanUpdate(registry, id, newScope, newPlatformId)
  {
    var provider := registry.providers[id];
    forall v ensures v in provider.provisioners <==> Attached(registry, id, v) {
    }
    if newScope.Some? {
      forall v ensures HasScopeConflict(registry, v, newScope.value, Some(id)) <==>
                       ScopeTaken(registry, v, newScope.value, id) {
        ConflictMeaning(registry, v, newScope.value, Some(id));
      }
    }
  }

  lemma UpdateExactly(registry: Registry, id: int, newScope: Option<Scope>, newPlatformId: Option<int>)
    requires StoredMachines(registry)
    ensures var result := Perform(registry, UpdateProvider(id, newScope, newPlatformId));
            && (result.Ok? <==> CanUpdate(registry, id, newScope, newPlatformId))
            && (result.Ok? ==> UpdateEffect(registry, result.value, id, newScope, newPlatformId))
  {
    if id in registry.providers {
      UpdateConditions(registry, id, newScope, newPlatformId);
      var result := Perform(registry, UpdateProvider(id, newScope, newPlatformId));
      if result.Ok? {
        forall p, w ensures Attached(result.value, p, w) <==> Attached(registry, p, w) {
        }
        SetsEqual(result.value.providers.Keys, registry.providers.Keys);
      }
    }
  }

  lemma SetEnabledExactly(registry: Registry, id: int, enabled: bool)
    requires StoredMachines(registry)
    ensures var result := Perform(registry, SetProviderEnabled(id, enabled));
            && (result.Ok? <==> id in registry.providers)
            && (result.Ok? ==>
                  && OnlyProviders(registry, result.value) && SameAttachments(registry, result.value)
                  && result.value.providers.Keys == registry.providers.Keys
                  && (forall p :: p in registry.providers && p != id ==> result.value.providers[p] == registry.providers[p])
                  && result.value.providers[id].enabled == enabled
                  && result.value.providers[id].platformId == registry.providers[id].platformId
                  && result.value.providers[id].scope == registry.providers[id].scope)
  {
    var result := Perform(registry, SetProviderEnabled(id, enabled));
    if result.Ok? {
      forall p, w ensures Attached(result.value, p, w) <==> Attached(registry, p, w) {
      }
      SetsEqual(result.value.providers.Keys, registry.providers.Keys);
    }
  }

  lemma DeleteProviderExactly(registry: Registry, id: int)
    requires StoredMachines(registry)
    ensures var result := Perform(registry, DeleteProvider(id));
            && (result.Ok? <==> id in registry.providers)
            && (result.Ok? ==>
                  && OnlyProviders(registry, result.value)
                  && (forall p :: p in result.value.providers <==> p in registry.providers && p != id)
                  && (forall p :: p in result.value.providers ==> result.value.providers[p] == registry.providers[p]))
  {
  }

  /* Provisioners, platforms and machines */

  lemma CreateProvisionerExactly(registry: Registry, id: int, platformId: int)
    requires StoredMachines(registry)
    ensures var result := Perform(registry, CreateProvisioner(id, platformId));
            && (result.Ok? <==> platformId in registry.platforms && id !in registry.provisioners)
            && (result.Ok? ==> result.value == registry.(provisioners := registry.provisioners[id := platformId]))
  {
  }

  // A provisioner may change its platform only without machines, and without
  // providers on another platform than the new one.
  lemma MoveExactly(registry: Registry, id: int, platformId: int)
    requires StoredMachines(registry)
    ensures var result := Perform(registry, MoveProvisioner(id, platformId));
            && (result.Ok? <==>
                  && id in registry.provisioners && platformId in registry.platforms
                  && (registry.provisioners[id] == platformId ||
                      (&& (forall m :: m in registry.machines ==> registry.machines[m].source != Some(id))
                       && (forall p :: Attached(registry, p, id) ==> registry.providers[p].platformId == platformId))))
            && (result.Ok? ==> result.value == registry.(provisioners := registry.provisioners[id := platformId]))
  {
    if id in registry.provisioners && !Perform(registry, MoveProvisioner(id, platformId)).Ok? {
      var error := CheckMove(registry, id, platformId);
      if error == Some(PlatformMismatch) {
        var p :| p in registry.providers && ElsewhereAttached(registry, p, id, platformId);
        assert Attached(registry, p, id);
      }
    }
    forall p | Attached(registry, p, id) && registry.providers[p].platformId != platformId
      ensures ElsewhereAttached(registry, p, id, platformId)
    {
    }
  }

  // Deleting a provisioner ends its attachments and clears the source of the
  // machines it discovered.
  lemma DeleteProvisionerExactly(registry: Registry, id: int)
    requires StoredMachines(registry)
    ensures var result := Perform(registry, DeleteProvisioner(id));
            && (result.Ok? <==> id in registry.provisioners)
            && (result.Ok? ==>
                  var after := result.value;
                  && after.platforms == registry.platforms && after.nextMachineId == registry.nextMachineId
                  && (forall v :: v in after.provisioners <==> v in registry.provisioners && v != id)
                  && (forall v :: v in after.provisioners ==> after.provisioners[v] == registry.provisioners[v])
                  && SameProviders(registry, after)
                  && (forall p, w :: Attached(after, p, w) <==> Attached(registry, p, w) && w != id)
                  && after.machines.Keys == registry.machines.Keys
                  && (forall m :: m in registry.machines ==>
                        after.machines[m] == registry.machines[m].(source :=
                          if registry.machines[m].source == Some(id) then None else registry.machines[m].source)))
  {
    var result := Perform(registry, DeleteProvisioner(id));
    if result.Ok? {
      SetsEqual(result.value.providers.Keys, registry.providers.Keys);
      SetsEqual(result.value.machines.Keys, registry.machines.Keys);
      forall p, w ensures Attached(result.value, p, w) <==> Attached(registry, p, w) && w != id {
      }
    }
  }

  // Deleting a platform takes everything on it along, and nothing else.
  lemma DeletePlatformExactly(registry: Registry, id: int)
    requires StoredMachines(registry)
    ensures var result := Perform(registry, DeletePlatform(id));
            && (result.Ok? <==> id in registry.platforms)
            && (result.Ok? ==>
                  var after := result.value;
                  && after.platforms == registry.platforms - {id} && after.nextMachineId == registry.nextMachineId
                  && (forall v :: v in after.provisioners <==> v in registry.provisioners && registry.provisioners[v] != id)
                  && (forall p :: p in after.providers <==> p in registry.providers && registry.providers[p].platformId != id)
                  && (forall m :: m in after.machines <==> m in registry.machines && registry.machines[m].platformId != id)
                  && (forall v :: v in after.provisioners ==> after.provisioners[v] == registry.provisioners[v])
                  && (forall p :: p in after.providers ==> after.providers[p] == registry.providers[p])
                  && (forall m :: m in after.machines ==> after.machines[m] == registry.machines[m]))
  {
  }

  lemma TableActionsExactly(registry: Registry, id: int)
    requires StoredMachines(registry)
    ensures Perform(registry, CreatePlatform(id)) == Ok(registry.(platforms := registry.platforms + {id}))
    ensures Perform(registry, DeleteMachine(id)).Ok? <==> id in registry.machines
    ensures id in registry.machines ==>
              Perform(registry, DeleteMachine(id)) == Ok(registry.(machines := registry.machines - {id}))
  {
  }

  // The machines a successful run leaves; see WritesAll.
  ghost predicate WritesMachines(registry: Registry, rows: map<int, Machine>, origin: Inventory.Origin,
                                 records: seq<Inventory.Record>)
    requires StoredMachines(registry) && Inventoried(registry, origin, records).Some?
  {
    var begin := Inventory.Begin(registry.machines, [], registry.nextMachineId);
    InventoryColumns.WritesAll(registry.machines, rows, origin, records, Inventory.Hits(begin, origin, records, 0))
  }

  lemma RunWritesMachines(registry: Registry, origin: Inventory.Origin, records: seq<Inventory.Record>)
    requires StoredMachines(registry) && Inventoried(registry, origin, records).Some?
    ensures WritesMachines(registry, Inventoried(registry, origin, records).value.rows, origin, records)
  {
    InventoryColumns.RunWritesLastRecord(registry.machines, [], registry.nextMachineId, origin, records, 0);
  }

  lemma PerformsRun(registry: Registry, id: int, records: seq<Inventory.Record>)
    requires StoredMachines(registry) && id in registry.provisioners
    ensures var run := Inventoried(registry, Inventory.Origin(id, registry.provisioners[id]), records);
            var result := Perform(registry, RunInventory(id, records));
            && (result.Ok? <==> run.Some?)
            && (result.Ok? ==> result.value == registry.(machines := run.value.rows, nextMachineId := run.value.nextId))
  {
  }

  // An inventory run succeeds exactly when the provisioner exists and the run
  // does; then it writes the machines it hit, and nothing but machines.
  lemma RunInventoryExactly(registry: Registry, id: int, records: seq<Inventory.Record>)
    requires StoredMachines(registry)
    ensures id !in registry.provisioners ==> Perform(registry, RunInventory(id, records)) == Err(Missing)
    ensures id in registry.provisioners ==>
              var origin := Inventory.Origin(id, registry.provisioners[id]);
              var result := Perform(registry, RunInventory(id, records));
              var run := Inventoried(registry, origin, records);
              && (result.Ok? <==> run.Some?)
              && (run.Some? ==>
                    && result.value.machines == run.value.rows && WritesMachines(registry, run.value.rows, origin, records)
                    && result.value.platforms == registry.platforms && result.value.providers == registry.providers
                    && result.value.provisioners == registry.provisioners)
  {
    if id in registry.provisioners {
      var origin := Inventory.Origin(id, registry.provisioners[id]);
      PerformsRun(registry, id, records);
      if Inventoried(registry, origin, records).Some? {
        RunWritesMachines(registry, origin, records);
      }
    }
  }

  // Actions happen one after the other; a refused one changes nothing.
  lemma {:induction false} ActionsInTurn(registry: Registry, actions: seq<Action>, action: Action)
    requires Invariant(registry)
    ensures PerformAll(registry, []) == registry
    ensures var before := PerformAll(registry, actions);
            var result := Perform(before, action);
            PerformAll(registry, actions + [action]) == if result.Ok? then result.value else before
    decreases |actions|
  {
    var longer := actions + [action];
    if actions == [] {
      assert longer[0] == action && longer[1..] == [];
    } else {
      PerformKeeps(registry, actions[0]);
      assert longer[0] == actions[0] && longer[1..] == actions[1..] + [action];
      match Perform(registry, actions[0]) {
        case Ok(next) => ActionsInTurn(next, actions[1..], action);
        case Err(_) => ActionsInTurn(registry, actions[1..], action);
      }
    }
  }
}
