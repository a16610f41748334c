// Providers, provisioners and their attachments, as the API actions change
// them: attached pairs share a platform, and a provisioner has at most one
// provider per metric scope.
module Association {
  import opened Wrappers
  import opened Fleet
  import opened Lists
  import opened Ordering
  import opened Recommendation
  import opened Optimization
  import Inventory

  datatype Registry = Registry(
    platforms: set<int>,
    provisioners: map<int, int>,
    providers: map<int, Provider>,
    machines: map<int, Machine>,
    nextMachineId: int)

  predicate Attached(registry: Registry, providerId: int, provisionerId: int) {
    providerId in registry.providers && provisionerId in registry.providers[providerId].provisioners
  }

  ghost predicate Linked(machines: map<int, Machine>, provisioners: map<int, int>) {
    forall m :: m in machines && machines[m].source.Some? ==>
      machines[m].source.value in provisioners && machines[m].platformId == provisioners[machines[m].source.value]
  }

  // The unique constraints of the machines table, and ids yet to be given.
  ghost predicate StoredMachines(registry: Registry) {
    Inventory.Begin(registry.machines, [], registry.nextMachineId).Valid()
  }

  ghost predicate Invariant(registry: Registry) {
    // Rows refer to existing platforms.
    && (forall id :: id in registry.provisioners ==> registry.provisioners[id] in registry.platforms)
    && (forall id :: id in registry.providers ==> registry.providers[id].platformId in registry.platforms)
    // Attached pairs exist and share a platform.
    && (forall p, v {:trigger Attached(registry, p, v)} :: Attached(registry, p, v) ==>
          v in registry.provisioners && registry.provisioners[v] == registry.providers[p].platformId)
    // One provider per scope on each provisioner.
    && (forall p, q, v {:trigger Attached(registry, p, v), Attached(registry, q, v)} ::
          Attached(registry, p, v) && Attached(registry, q, v) && registry.providers[p].scope == registry.providers[q].scope
          ==> p == q)
    // A machine lives on the platform of its provisioner.
    && Linked(registry.machines, registry.provisioners)
    && StoredMachines(registry)
  }

  datatype Refusal = Missing | PlatformMismatch | ScopeConflict | LinkedMachines | Aborted

  /* The checks */

  // Another provider attached to the provisioner has the scope.
  predicate HasScopeConflict(registry: Registry, provisionerId: int, scope: Scope, except: Option<int>) {
    exists p :: p in registry.providers && Attached(registry, p, provisionerId) && except != Some(p)
                && registry.providers[p].scope == scope
  }

  datatype Action =
    | CreatePlatform(id: int)
    | DeletePlatform(id: int)
    | CreateProvisioner(id: int, platformId: int)
    | MoveProvisioner(id: int, platformId: int)
    | DeleteProvisioner(id: int)
    | CreateProvider(id: int, platformId: int, scope: Scope, provisionerIds: seq<int>)
    | UpdateProvider(id: int, newScope: Option<Scope>, newPlatformId: Option<int>)
    | SetProviderEnabled(id: int, enabled: bool)
    | DeleteProvider(id: int)
    | Attach(id: int, provisionerId: int)
    | Detach(id: int, provisionerId: int)
    | RunInventory(provisionerId: int, records: seq<Inventory.Record>)
    | DeleteMachine(id: int)

  // The provisioners of a new provider are checked one after another.
  function CheckProvisioners(registry: Registry, ids: seq<int>, platformId: int, scope: Scope): Option<Refusal> {
    if ids == [] then None
    else if ids[0] !in registry.provisioners then Some(Missing)
    else if registry.provisioners[ids[0]] != platformId then Some(PlatformMismatch)
    else if HasScopeConflict(registry, ids[0], scope, None) then Some(ScopeConflict)
    else CheckProvisioners(registry, ids[1..], platformId, scope)
  }

  predicate LivesOn(registry: Registry, provisionerId: int, platformId: int) {
    provisionerId in registry.provisioners && registry.provisioners[provisionerId] == platformId
  }

  function CheckUpdate(registry: Registry, id: int, newScope: Option<Scope>,
                       newPlatformId: Option<int>): Option<Refusal>
    requires id in registry.providers
  {
    var provider := registry.providers[id];
    if newScope.Some? && exists v :: v in provider.provisioners && HasScopeConflict(registry, v, newScope.value, Some(id))
    then Some(ScopeConflict)
    else if newPlatformId.Some? && newPlatformId.value !in registry.platforms then Some(Missing)
    else if newPlatformId.Some? && exists v :: v in provider.provisioners && !LivesOn(registry, v, newPlatformId.value)
    then Some(PlatformMismatch)
    else None
  }

  predicate ElsewhereAttached(registry: Registry, providerId: int, provisionerId: int, platformId: int) {
    Attached(registry, providerId, provisionerId) && registry.providers[providerId].platformId != platformId
  }

  function CheckMove(registry: Registry, id: int, platformId: int): Option<Refusal>
    requires id in registry.provisioners
  {
    if platformId !in registry.platforms then Some(Missing)
    else if platformId == registry.provisioners[id] then None
    else if exists m :: m in registry.machines && registry.machines[m].source == Some(id) then Some(LinkedMachines)
    else if exists p :: p in registry.providers && ElsewhereAttached(registry, p, id, platformId) then Some(PlatformMismatch)
    else None
  }

  function WithoutProvisioner(provider: Provider, id: int): Provider {
    provider.(provisioners := provider.provisioners - {id})
  }

  function Unlinked(machine: Machine, id: int): Machine {
    if machine.source == Some(id) then machine.(source := None) else machine
  }

  // The inventory run of a provisioner on the registry's machines.
  function Inventoried(registry: Registry, origin: Inventory.Origin,
                       records: seq<Inventory.Record>): Option<Inventory.Tx>
    requires StoredMachines(registry)
  {
    Inventory.RunInventory(registry.machines, [], registry.nextMachineId, origin, records, 0)
  }

  /* One action: the new state, or the error that leaves the old one */

  function Perform(registry: Registry, action: Action): Result<Registry, Refusal>
    requires StoredMachines(registry)
  {
    match action
    case CreatePlatform(id) => Ok(registry.(platforms := registry.platforms + {id}))
    case DeletePlatform(id) =>
      if id !in registry.platforms then Err(Missing)
      else Ok(Registry(registry.platforms - {id},
                       map v | v in registry.provisioners && registry.provisioners[v] != id :: registry.provisioners[v],
                       map p | p in registry.providers && registry.providers[p].platformId != id :: registry.providers[p],
                       map m | m in registry.machines && registry.machines[m].platformId != id :: registry.machines[m],
                       registry.nextMachineId))
    case CreateProvisioner(id, platformId) =>
      if platformId !in registry.platforms || id in registry.provisioners then Err(Missing)
      else Ok(registry.(provisioners := registry.provisioners[id := platformId]))
    case MoveProvisioner(id, platformId) =>
      if id !in registry.provisioners then Err(Missing)
      else
        var error := CheckMove(registry, id, platformId);
        if error.Some? then Err(error.value) else Ok(registry.(provisioners := registry.provisioners[id := platformId]))
    case DeleteProvisioner(id) =>
      if id !in registry.provisioners then Err(Missing)
      else Ok(registry.(provisioners := registry.provisioners - {id},
                        providers := map p | p in registry.providers :: WithoutProvisioner(registry.providers[p], id),
                        machines := map m | m in registry.machines :: Unlinked(registry.machines[m], id)))
    case CreateProvider(id, platformId, scope, provisionerIds) =>
      if platformId !in registry.platforms || id in registry.providers then Err(Missing)
      else
        var error := CheckProvisioners(registry, provisionerIds, platformId, scope);
        if error.Some? then Err(error.value)
        else Ok(registry.(providers := registry.providers[id := Provider(platformId, scope, false, Elements(provisionerIds))]))
    case UpdateProvider(id, newScope, newPlatformId) =>
      if id !in registry.providers then Err(Missing)
      else
        var error := CheckUpdate(registry, id, newScope, newPlatformId);
        var provider := registry.providers[id];
        if error.Some? then Err(error.value)
        else Ok(registry.(providers := registry.providers[id :=
                  provider.(scope := if newScope.Some? then newScope.value else provider.scope,
                            platformId := if newPlatformId.Some? then newPlatformId.value else provider.platformId)]))
    case SetProviderEnabled(id, enabled) =>
      if id !in registry.providers then Err(Missing)
      else Ok(registry.(providers := registry.providers[id := registry.providers[id].(enabled := enabled)]))
    case DeleteProvider(id) =>
      if id !in registry.providers then Err(Missing) else Ok(registry.(providers := registry.providers - {id}))
    case Attach(id, provisionerId) =>
      if id !in registry.providers || provisionerId !in registry.provisioners then Err(Missing)
      else if registry.provisioners[provisionerId] != registry.providers[id].platformId then Err(PlatformMismatch)
      else if provisionerId in registry.providers[id].provisioners then Ok(registry)
      else if HasScopeConflict(registry, provisionerId, registry.providers[id].scope, Some(id)) then Err(ScopeConflict)
      else Ok(registry.(providers := registry.providers[id :=
                registry.providers[id].(provisioners := registry.providers[id].provisioners + {provisionerId})]))
    case Detach(id, provisionerId) =>
      if id !in registry.providers || provisionerId !in registry.provisioners then Err(Missing)
      else if registry.provisioners[provisionerId] != registry.providers[id].platformId then Err(PlatformMismatch)
      else Ok(registry.(providers := registry.providers[id := WithoutProvisioner(registry.providers[id], provisionerId)]))
    case RunInventory(id, records) =>
      if id !in registry.provisioners then Err(Missing)
      else
        var run := Inventoried(registry, Inventory.Origin(id, registry.provisioners[id]), records);
        if run.None? then Err(Aborted)
        else Ok(registry.(machines := run.value.rows, nextMachineId := run.value.nextId))
    case DeleteMachine(id) =>
      if id !in registry.machines then Err(Missing) else Ok(registry.(machines := registry.machines - {id}))
  }

  /* The invariant is kept */

  lemma {:induction false} CheckedProvisioners(registry: Registry, ids: seq<int>, platformId: int, scope: Scope)
    requires CheckProvisioners(registry, ids, platformId, scope).None?
    ensures forall k :: 0 <= k < |ids| ==>
              && ids[k] in registry.provisioners
              && registry.provisioners[ids[k]] == platformId
              && !HasScopeConflict(registry, ids[k], scope, None)
  {
    if ids != [] {
      CheckedProvisioners(registry, ids[1..], platformId, scope);
    }
  }

  lemma CreateKeeps(registry: Registry, id: int, platformId: int, scope: Scope, ids: seq<int>)
    requires Invariant(registry)
    requires Perform(registry, CreateProvider(id, platformId, scope, ids)).Ok?
    ensures Invariant(Perform(registry, CreateProvider(id, platformId, scope, ids)).value)
  {
    var after := Perform(registry, CreateProvider(id, platformId, scope, ids)).value;
    CheckedProvisioners(registry, ids, platformId, scope);
    forall p, v | Attached(after, p, v)
      ensures v in after.provisioners && after.provisioners[v] == after.providers[p].platformId
      ensures p != id ==> Attached(registry, p, v)
      ensures p == id ==> !HasScopeConflict(registry, v, scope, None)
    {
      if p == id {
        var k :| 0 <= k < |ids| && ids[k] == v;
      } else {
        assert Attached(registry, p, v);
      }
    }
  }

  lemma UpdateKeeps(registry: Registry, id: int, newScope: Option<Scope>, newPlatformId: Option<int>)
    requires Invariant(registry)
    requires Perform(registry, UpdateProvider(id, newScope, newPlatformId)).Ok?
    ensures Invariant(Perform(registry, UpdateProvider(id, newScope, newPlatformId)).value)
  {
    var after := Perform(registry, UpdateProvider(id, newScope, newPlatformId)).value;
    forall p, v
      ensures Attached(after, p, v) <==> Attached(registry, p, v)
    {
    }
    forall p, q, v | Attached(after, p, v) && Attached(after, q, v) && after.providers[p].scope == after.providers[q].scope
      ensures p == q
    {
      assert Attached(registry, p, v) && Attached(registry, q, v);
      if p != q && (p == id || q == id) && newScope.Some? {
        var other := if p == id then q else p;
        assert HasScopeConflict(registry, v, newScope.value, Some(id));
      }
    }
  }

  lemma AttachKeeps(registry: Registry, id: int, provisionerId: int)
    requires Invariant(registry)
    requires Perform(registry, Attach(id, provisionerId)).Ok?
    ensures Invariant(Perform(registry, Attach(id, provisionerId)).value)
  {
    var after := Perform(registry, Attach(id, provisionerId)).value;
    forall p, v
      ensures Attached(after, p, v) <==> Attached(registry, p, v) || (p == id && v == provisionerId)
    {
    }
  }

  lemma MoveKeeps(registry: Registry, id: int, platformId: int)
    requires Invariant(registry)
    requires Perform(registry, MoveProvisioner(id, platformId)).Ok?
    ensures Invariant(Perform(registry, MoveProvisioner(id, platformId)).value)
  {
    var after := Perform(registry, MoveProvisioner(id, platformId)).value;
    if platformId == registry.provisioners[id] {
      assert after == registry;
    } else {
      forall p, v | Attached(after, p, v)
        ensures v in after.provisioners && after.provisioners[v] == after.providers[p].platformId
        ensures Attached(registry, p, v)
      {
        assert Attached(registry, p, v);
        assert v == id ==> !ElsewhereAttached(registry, p, id, platformId);
      }
      assert Linked(after.machines, after.provisioners);
    }
  }

  // Actions that only remove rows, attachments or links.
  lemma ShrinkKeeps(registry: Registry, after: Registry)
    requires Invariant(registry)
    requires forall v :: v in after.provisioners ==>
               && v in registry.provisioners
               && after.provisioners[v] == registry.provisioners[v]
               && after.provisioners[v] in after.platforms
    requires forall p :: p in after.providers ==>
               && p in registry.providers
               && after.providers[p].platformId == registry.providers[p].platformId
               && after.providers[p].scope == registry.providers[p].scope
               && after.providers[p].provisioners <= registry.providers[p].provisioners
               && after.providers[p].platformId in after.platforms
    requires forall p, v {:trigger Attached(after, p, v)} :: Attached(after, p, v) ==> v in after.provisioners
    requires Linked(after.machines, after.provisioners)
    requires after.nextMachineId == registry.nextMachineId
    requires forall m :: m in after.machines ==>
               && m in registry.machines
               && after.machines[m] in {registry.machines[m], registry.machines[m].(source := None)}
    ensures Invariant(after)
  {
    forall p, v | Attached(after, p, v)
      ensures Attached(registry, p, v)
    {
    }
    forall i, j | i in after.machines && j in after.machines && i != j
      ensures !Inventory.Clash(after.machines[i], after.machines[j])
    {
      assert !Inventory.Clash(registry.machines[i], registry.machines[j]);
    }
  }

  lemma DeleteProvisionerKeeps(registry: Registry, id: int)
    requires Invariant(registry)
    requires Perform(registry, DeleteProvisioner(id)).Ok?
    ensures Invariant(Perform(registry, DeleteProvisioner(id)).value)
  {
    var after := Perform(registry, DeleteProvisioner(id)).value;
    forall p, v | Attached(after, p, v)
      ensures v in after.provisioners
    {
      assert Attached(registry, p, v);
    }
    ShrinkKeeps(registry, after);
  }

  lemma DeletePlatformKeeps(registry: Registry, id: int)
    requires Invariant(registry)
    requires Perform(registry, DeletePlatform(id)).Ok?
    ensures Invariant(Perform(registry, DeletePlatform(id)).value)
  {
    var after := Perform(registry, DeletePlatform(id)).value;
    forall p, v | Attached(after, p, v)
      ensures v in after.provisioners
    {
      assert Attached(registry, p, v);
    }
    ShrinkKeeps(registry, after);
  }

  lemma DetachKeeps(registry: Registry, id: int, provisionerId: int)
    requires Invariant(registry)
    requires Perform(registry, Detach(id, provisionerId)).Ok?
    ensures Invariant(Perform(registry, Detach(id, provisionerId)).value)
  {
    var after := Perform(registry, Detach(id, provisionerId)).value;
    forall p, v | Attached(after, p, v)
      ensures v in after.provisioners
    {
      assert Attached(registry, p, v);
    }
    ShrinkKeeps(registry, after);
  }

  lemma DeleteRowKeeps(registry: Registry, id: int)
    requires Invariant(registry)
    ensures Invariant(registry.(providers := registry.providers - {id}))
    ensures Invariant(registry.(machines := registry.machines - {id}))
  {
    var after := registry.(providers := registry.providers - {id});
    forall p, v | Attached(after, p, v)
      ensures v in after.provisioners
    {
      assert Attached(registry, p, v);
    }
    ShrinkKeeps(registry, after);
    var without := registry.(machines := registry.machines - {id});
    forall p, v | Attached(without, p, v)
      ensures v in without.provisioners
    {
      assert Attached(registry, p, v);
    }
    ShrinkKeeps(registry, without);
  }

  lemma GrowKeeps(registry: Registry, id: int, platformId: int)
    requires Invariant(registry)
    ensures Invariant(registry.(platforms := registry.platforms + {id}))
    ensures platformId in registry.platforms && id !in registry.provisioners ==>
              Invariant(registry.(provisioners := registry.provisioners[id := platformId]))
  {
    var wider := registry.(platforms := registry.platforms + {id});
    assert forall p, v {:trigger Attached(wider, p, v)} :: Attached(wider, p, v) == Attached(registry, p, v);
    if platformId in registry.platforms && id !in registry.provisioners {
      var after := registry.(provisioners := registry.provisioners[id := platformId]);
      assert forall p, v {:trigger Attached(after, p, v)} :: Attached(after, p, v) == Attached(registry, p, v);
    }
  }

  lemma EnableKeeps(registry: Registry, id: int, enabled: bool)
    requires Invariant(registry) && id in registry.providers
    ensures Invariant(registry.(providers := registry.providers[id := registry.providers[id].(enabled := enabled)]))
  {
    var after := registry.(providers := registry.providers[id := registry.providers[id].(enabled := enabled)]);
    assert forall p, v {:trigger Attached(after, p, v)} :: Attached(after, p, v) == Attached(registry, p, v);
  }

  /* Inventory runs keep machines on the platform of their provisioner */

  ghost predicate LinkedTx(tx: Inventory.Tx, provisioners: map<int, int>) {
    tx.Valid() && Linked(tx.rows, provisioners) && Linked(tx.memory, provisioners) && Inventory.SamePlatform(tx)
  }

  lemma InsertKeepsLinks(tx: Inventory.Tx, origin: Inventory.Origin, machine: Machine, row: Inventory.HistoryRow,
                         provisioners: map<int, int>)
    requires LinkedTx(tx, provisioners)
    requires origin.id in provisioners && provisioners[origin.id] == origin.platformId
    requires machine.source == Some(origin.id) && machine.platformId == origin.platformId
    ensures var after := Inventory.InsertRow(tx, machine, row);
            after.Some? ==> LinkedTx(after.value, provisioners)
  {
    Inventory.InsertRowIsValid(tx, machine, row);
    assert Linked(tx.memory[tx.nextId := machine], provisioners);
  }

  lemma UpdateKeepsLinks(tx: Inventory.Tx, origin: Inventory.Origin, record: Inventory.Record, id: int,
                         provisioners: map<int, int>)
    requires LinkedTx(tx, provisioners)
    requires origin.id in provisioners && provisioners[origin.id] == origin.platformId
    requires id in tx.memory && tx.memory[id].platformId == origin.platformId
    ensures LinkedTx(Inventory.Update(tx, origin, record, id, 0), provisioners)
  {
  }

  // A machine found by external id comes from this provisioner, one found by
  // hostname is on its platform: either way the platform is the same.
  lemma StepKeepsLinks(tx: Inventory.Tx, origin: Inventory.Origin, raw: Inventory.Record, provisioners: map<int, int>)
    requires LinkedTx(tx, provisioners)
    requires origin.id in provisioners && provisioners[origin.id] == origin.platformId
    ensures var after := Inventory.Step(tx, origin, raw, 0);
            after.Some? ==> LinkedTx(after.value, provisioners)
  {
    var record := Inventory.NormalizeRecord(raw);
    Inventory.FindMachineMeaning(tx.rows, origin, record);
    match Inventory.FindMachine(tx.rows, origin, record) {
      case None =>
        InsertKeepsLinks(tx, origin, Inventory.NewMachine(origin, record),
                         Inventory.HistoryRow(tx.nextId, origin.id, record.flavor, 0), provisioners);
      case Some(id) =>
        assert tx.rows[id].platformId == origin.platformId;
        UpdateKeepsLinks(tx, origin, record, id, provisioners);
    }
  }

  lemma {:induction false} ProcessKeepsLinks(tx: Inventory.Tx, origin: Inventory.Origin,
                                             records: seq<Inventory.Record>, provisioners: map<int, int>)
    requires LinkedTx(tx, provisioners)
    requires origin.id in provisioners && provisioners[origin.id] == origin.platformId
    ensures var after := Inventory.ProcessAll(tx, origin, records, 0);
            after.Some? ==> LinkedTx(after.value, provisioners)
  {
    if records != [] {
      var before := Inventory.ProcessAll(tx, origin, records[..|records| - 1], 0);
      ProcessKeepsLinks(tx, origin, records[..|records| - 1], provisioners);
      if before.Some? {
        StepKeepsLinks(before.value, origin, records[|records| - 1], provisioners);
      }
    }
  }

  lemma RunKeeps(registry: Registry, id: int, records: seq<Inventory.Record>)
    requires Invariant(registry)
    ensures var run := Perform(registry, RunInventory(id, records)); run.Ok? ==> Invariant(run.value)
  {
    if Perform(registry, RunInventory(id, records)).Ok? {
      var after := Perform(registry, RunInventory(id, records)).value;
      var origin := Inventory.Origin(id, registry.provisioners[id]);
      Inventory.RunAccounts(registry.machines, [], registry.nextMachineId, origin, records, 0);
      ProcessKeepsLinks(Inventory.Begin(registry.machines, [], registry.nextMachineId), origin, records, registry.provisioners);
      assert forall p, v {:trigger Attached(after, p, v)} :: Attached(after, p, v) == Attached(registry, p, v);
      assert Linked(after.machines, after.provisioners);
      assert StoredMachines(after);
    }
  }

  lemma PerformKeeps(registry: Registry, action: Action)
    requires Invariant(registry)
    ensures Perform(registry, action).Ok? ==> Invariant(Perform(registry, action).value)
  {
    if Perform(registry, action).Ok? {
      match action {
        case CreatePlatform(id) => GrowKeeps(registry, id, id);
        case DeletePlatform(id) => DeletePlatformKeeps(registry, id);
        case CreateProvisioner(id, platformId) => GrowKeeps(registry, id, platformId);
        case MoveProvisioner(id, platformId) => MoveKeeps(registry, id, platformId);
        case DeleteProvisioner(id) => DeleteProvisionerKeeps(registry, id);
        case CreateProvider(id, platformId, scope, ids) => CreateKeeps(registry, id, platformId, scope, ids);
        case UpdateProvider(id, newScope, newPlatformId) => UpdateKeeps(registry, id, newScope, newPlatformId);
        case SetProviderEnabled(id, enabled) => EnableKeeps(registry, id, enabled);
        case DeleteProvider(id) => DeleteRowKeeps(registry, id);
        case Attach(id, provisionerId) => AttachKeeps(registry, id, provisionerId);
        case Detach(id, provisionerId) => DetachKeeps(registry, id, provisionerId);
        case RunInventory(id, records) => RunKeeps(registry, id, records);
        case DeleteMachine(id) => DeleteRowKeeps(registry, id);
      }
    }
  }

  // A refused action changes nothing.
  function PerformAll(registry: Registry, actions: seq<Action>): (after: Registry)
    requires Invariant(registry)
    ensures Invariant(after)
    decreases |actions|
  {
    if actions == [] then registry
    else
      PerformKeeps(registry, actions[0]);
      match Perform(registry, actions[0])
      case Ok(next) => PerformAll(next, actions[1..])
      case Err(_) => PerformAll(registry, actions[1..])
  }

  /* What it means for the optimization engine */

  // The attached providers of a scope that see a machine: at most one.
  lemma AttachedProviderIsUnique(registry: Registry, machine: Machine, p: int, q: int)
    requires Invariant(registry)
    requires p in registry.providers && registry.providers[p].provisioners != {} && registry.providers[p].Sees(machine)
    requires q in registry.providers && registry.providers[q].provisioners != {} && registry.providers[q].Sees(machine)
    requires registry.providers[p].scope == registry.providers[q].scope
    ensures p == q
  {
    assert Attached(registry, p, machine.source.value) && Attached(registry, q, machine.source.value);
  }

  lemma StatusIsAmbiguous(telemetry: Telemetry, machineId: int, machine: Machine, scope: Scope, settings: Settings)
    requires settings.Valid()
    ensures EvaluateScope(telemetry, machineId, machine, scope, settings).status.Ambiguous?
            <==> |VisibleProviders(telemetry.providers, machine, scope)| > 1
  {
  }

  lemma TwoMembers(s: set<int>, p: int)
    requires p in s && |s| > 1
    ensures exists q :: q in s && q != p
  {
    assert |s - {p}| == |s| - 1;
    assert (forall q :: q in s ==> q == p) ==> s - {p} == {};
  }

  lemma TwoInSet(s: set<int>, p: int, q: int)
    requires p in s && q in s && p != q
    ensures |s| > 1
  {
    assert |s - {p}| == |s| - 1;
    assert q in s - {p};
  }

  lemma AmbiguityIn(registry: Registry, telemetry: Telemetry, machineId: int, scope: Scope, settings: Settings)
    requires Invariant(registry) && settings.Valid()
    requires telemetry.providers == registry.providers && machineId in registry.machines
    ensures var machine := registry.machines[machineId];
            var visible := VisibleProviders(registry.providers, machine, scope);
            EvaluateScope(telemetry, machineId, machine, scope, settings).status.Ambiguous?
            <==> exists p, q :: p in visible && q in visible && p != q && registry.providers[p].provisioners == {}
  {
    var machine := registry.machines[machineId];
    var visible := VisibleProviders(registry.providers, machine, scope);
    StatusIsAmbiguous(telemetry, machineId, machine, scope, settings);
    if |visible| > 1 {
      var p := Least(visible);
      TwoMembers(visible, p);
      var q :| q in visible && q != p;
      if registry.providers[p].provisioners != {} && registry.providers[q].provisioners != {} {
        AttachedProviderIsUnique(registry, machine, p, q);
      }
    }
    if p, q :| p in visible && q in visible && p != q {
      assert {p, q} <= visible;
      TwoInSet(visible, p, q);
    }
  }

  // After any actions, a scope is ambiguous for a machine exactly when an
  // enabled provider of the scope without provisioners sees the machine and
  // another enabled provider of the scope does too.
  lemma AmbiguityNeedsAnUnattachedProvider(start: Registry, actions: seq<Action>, telemetry: Telemetry,
                                           machineId: int, scope: Scope, settings: Settings)
    requires Invariant(start) && settings.Valid()
    requires var registry := PerformAll(start, actions);
             telemetry.providers == registry.providers && machineId in registry.machines
    ensures var registry := PerformAll(start, actions);
            var machine := registry.machines[machineId];
            var visible := VisibleProviders(registry.providers, machine, scope);
            EvaluateScope(telemetry, machineId, machine, scope, settings).status.Ambiguous?
            <==> exists p, q :: p in visible && q in visible && p != q && registry.providers[p].provisioners == {}
  {
    AmbiguityIn(PerformAll(start, actions), telemetry, machineId, scope, settings);
  }
}
