// The rows several use cases share: machines, metric providers and the
// visibility of a machine to a provider.
module Fleet {
  import opened Wrappers

  datatype Scope = Cpu | Ram | Disk

  datatype Flavor = Flavor(cpu: Option<real>, ramMb: Option<real>, diskMb: Option<real>)

  datatype Machine = Machine(
    platformId: int,
    application: Option<string>,
    source: Option<int>,
    externalId: Option<string>,
    hostname: string,
    region: Option<string>,
    environment: Option<string>,
    flavor: Flavor,
    extra: string)
  {
    function Capacity(scope: Scope): Option<real> {
      match scope
      case Cpu => flavor.cpu
      case Ram => flavor.ramMb
      case Disk => flavor.diskMb
    }
  }

  datatype Provider = Provider(platformId: int, scope: Scope, enabled: bool, provisioners: set<int>)
  {
    // A provider without attached provisioners observes its whole platform.
    predicate Sees(machine: Machine) {
      && platformId == machine.platformId
      && (provisioners == {} || (machine.source.Some? && machine.source.value in provisioners))
    }
  }

  // The enabled providers able to observe a machine for one scope.
  function VisibleProviders(providers: map<int, Provider>, machine: Machine, scope: Scope): set<int> {
    set id | id in providers && providers[id].enabled && providers[id].scope == scope && providers[id].Sees(machine)
  }

  // An enabled provider sees the machines of its platform; attaching it to
  // provisioners narrows it to the machines they discovered.
  lemma VisibilityMeaning(providers: map<int, Provider>, machine: Machine, scope: Scope, id: int)
    ensures id !in providers || !providers[id].enabled || providers[id].scope != scope ==>
              id !in VisibleProviders(providers, machine, scope)
    ensures id in providers && providers[id].platformId != machine.platformId ==>
              id !in VisibleProviders(providers, machine, scope)
    ensures id in providers && providers[id].enabled && providers[id].scope == scope
            && providers[id].platformId == machine.platformId ==>
              && (providers[id].provisioners == {} ==> id in VisibleProviders(providers, machine, scope))
              && (providers[id].provisioners != {} ==>
                    (id in VisibleProviders(providers, machine, scope) <==>
                     machine.source.Some? && machine.source.value in providers[id].provisioners))
  {
  }

  lemma CapacityMeaning(machine: Machine)
    ensures machine.flavor == Flavor(machine.Capacity(Cpu), machine.Capacity(Ram), machine.Capacity(Disk))
  {
  }
}
