/** The service controller: a reconcile loop that skips the services whose state key has
    not changed, and cleans up after those that are gone. */
module ServiceController {
  import opened Sorting
  import opened NatTable
  import opened ServiceState
  import opened Text

  // ----- what holds between two passes -----

  /** The controller's two maps, with the addresses that each service was last given, the
      services whose last application a failed command cut short, and the short ids under
      which a removed service has left jumps of protocols that cleanup does not know. */
  datatype Memory = Memory(lastState: map<string, string>, lastPorts: map<string, seq<ServicePort>>,
                           lastAddrs: map<string, seq<string>>, cut: set<string>, leaked: set<string>)

  ghost predicate Held(t: Table, m: Memory, id: string)
    requires id in m.lastState && id in m.lastPorts && id in m.lastAddrs
  {
    && PlainAddresses(m.lastAddrs[id]) && IsSorted(m.lastAddrs[id])
    && m.lastState[id] == StateKey(m.lastPorts[id], m.lastAddrs[id])
    && Sound(t, id, m.lastPorts[id])
    && (id !in m.cut ==> Agrees(t, id, m.lastPorts[id], m.lastAddrs[id]))
  }

  /** No known service has these first eight characters, and none that leaked. */
  ghost predicate Idle(m: Memory, short: string) {
    (forall id | id in m.lastState :: Short(id) != short) && short !in m.leaked
  }

  ghost predicate Wellformed(m: Memory) {
    && m.lastState.Keys == m.lastPorts.Keys == m.lastAddrs.Keys
    && m.cut <= m.lastState.Keys
    && (forall a, b | a in m.lastState && b in m.lastState && Short(a) == Short(b) :: a == b)
    && (forall id | id in m.lastState :: Short(id) !in m.leaked)
  }

  ghost predicate Consistent(t: Table, m: Memory) {
    && Wellformed(m)
    && (forall id | id in m.lastState :: Held(t, m, id))
    && (forall s | Idle(m, s) :: Clean(t, s))
  }

  /** A service may be handed to the controller: its ports are those it came with the first
      time, no other known service shares its first eight characters, and what the table
      holds of a service that is new, perhaps from before a restart, is its own. */
  ghost predicate Acceptable(t: Table, m: Memory, svc: Service) {
    && (svc.id in m.lastPorts ==> m.lastPorts[svc.id] == svc.ports)
    && (forall id | id in m.lastState && Short(id) == Short(svc.id) :: id == svc.id)
    && (svc.id !in m.lastState ==> Sound(t, svc.id, svc.ports))
  }

  /** What the controller remembers of a service is what there is now. */
  ghost predicate UpToDate(m: Memory, svc: Service, now: seq<string>) {
    if svc.id in m.lastAddrs then svc.id in m.lastPorts && m.lastPorts[svc.id] == svc.ports &&
        m.lastAddrs[svc.id] == now
    else svc.ports == [] && now == []
  }

  /** The memory of any other service. */
  ghost predicate SameForOthers(m: Memory, m': Memory, id: string) {
    && (forall x | x != id :: (x in m.lastState <==> x in m'.lastState) && (x in m.cut <==> x in m'.cut))
    && (forall x | x != id && x in m.lastState && x in m'.lastState :: m.lastState[x] == m'.lastState[x])
    && (forall x | x != id ::
        (x in m.lastPorts <==> x in m'.lastPorts) && (x in m.lastPorts ==> m.lastPorts[x] == m'.lastPorts[x]))
    && (forall x | x != id ::
        (x in m.lastAddrs <==> x in m'.lastAddrs) && (x in m.lastAddrs ==> m.lastAddrs[x] == m'.lastAddrs[x]))
  }

  lemma HeldByOthers(t: Table, t': Table, m: Memory, m': Memory, id: string, other: string)
    requires id in m.lastState && id in m.lastPorts && id in m.lastAddrs && Held(t, m, id)
    requires id != other && SameForOthers(m, m', other) && SameElsewhere(t, t', Short(other)) &&
            Short(id) != Short(other)
    requires id in m'.lastState
    ensures id in m'.lastPorts && id in m'.lastAddrs && Held(t', m', id)
  {
    KeptByOthers(t, t', Short(other), id, m.lastPorts[id], m.lastAddrs[id]);
    hide Sound, Agrees, SameElsewhere, StateKey, PlainAddresses, IsSorted, Short;
  }

  lemma ConsistentForOthers(t: Table, t': Table, m: Memory, m': Memory, other: string)
    requires Consistent(t, m) && Wellformed(m')
    requires SameForOthers(m, m', other) && SameElsewhere(t, t', Short(other))
    requires forall id | id in m.lastState && Short(id) == Short(other) :: id == other
    requires if other in m'.lastState then Held(t', m', other) else Idle(m', Short(other)) ==> Clean(t', Short(other))
    requires forall s | Idle(m', s) && s != Short(other) :: Idle(m, s)
    ensures Consistent(t', m')
  {
    hide Held, Clean, SameElsewhere, Short, Idle;
    forall id | id in m'.lastState ensures Held(t', m', id) {
      if id != other {
        HeldByOthers(t, t', m, m', id, other);
      }
    }
    forall s | Idle(m', s) ensures Clean(t', s) {
      if s != Short(other) {
        CleanElsewhere(t, t', Short(other), s);
      } else if other in m'.lastState {
        KnownIsNotIdle(m', other);
      }
    }
  }

  lemma KnownIsNotIdle(m: Memory, id: string)
    requires id in m.lastState
    ensures !Idle(m, Short(id))
  {
  }

  function Recorded(m: Memory, svc: Service, addrs: seq<string>, ok: bool): Memory {
    Memory(m.lastState[svc.id := StateKey(svc.ports, addrs)], m.lastPorts[svc.id := svc.ports],
           m.lastAddrs[svc.id := addrs], if ok then m.cut - {svc.id} else m.cut + {svc.id},
           m.leaked - {Short(svc.id)})
  }

  lemma RecordedShape(t: Table, m: Memory, svc: Service, addrs: seq<string>, ok: bool)
    requires Wellformed(m) && Acceptable(t, m, svc)
    ensures Wellformed(Recorded(m, svc, addrs, ok))
  {
    hide StateKey, Short;
    var m' := Recorded(m, svc, addrs, ok);
    assert m'.lastState.Keys == m.lastState.Keys + {svc.id};
    assert m'.lastPorts.Keys == m.lastPorts.Keys + {svc.id};
    assert m'.lastAddrs.Keys == m.lastAddrs.Keys + {svc.id};
    forall a, b | a in m'.lastState && b in m'.lastState && Short(a) == Short(b) ensures a == b {
      assert a == svc.id || a in m.lastState;
      assert b == svc.id || b in m.lastState;
    }
  }

  lemma RecordedForOthers(m: Memory, svc: Service, addrs: seq<string>, ok: bool)
    ensures SameForOthers(m, Recorded(m, svc, addrs, ok), svc.id)
  {
    hide StateKey;
  }

  lemma RecordedIdle(m: Memory, svc: Service, addrs: seq<string>, ok: bool, s: string)
    requires Idle(Recorded(m, svc, addrs, ok), s) && s != Short(svc.id)
    ensures Idle(m, s)
  {
    hide StateKey, Short;
    var m' := Recorded(m, svc, addrs, ok);
    assert forall id :: id in m'.lastState <==> id in m.lastState || id == svc.id;
  }

  lemma RecordedHeld(t: Table, m: Memory, svc: Service, addrs: seq<string>, ok: bool)
    requires PlainAddresses(addrs) && IsSorted(addrs) && Sound(t, svc.id, svc.ports)
    requires ok ==> Agrees(t, svc.id, svc.ports, addrs)
    ensures Held(t, Recorded(m, svc, addrs, ok), svc.id)
  {
    hide Sound, Agrees, StateKey, PlainAddresses, IsSorted;
  }

  /** Recording and applying a service keeps the controller consistent, whether or not the
      application went through. */
  lemma ApplyingKeeps(t: Table, t': Table, m: Memory, svc: Service, addrs: seq<string>, ok: bool)
    requires Consistent(t, m) && Acceptable(t, m, svc) && PlainAddresses(addrs) && IsSorted(addrs)
    requires SameElsewhere(t, t', Short(svc.id)) && Sound(t', svc.id, svc.ports)
    requires ok ==> Agrees(t', svc.id, svc.ports, addrs)
    ensures Consistent(t', Recorded(m, svc, addrs, ok))
    ensures SameForOthers(m, Recorded(m, svc, addrs, ok), svc.id)
  {
    RecordedShape(t, m, svc, addrs, ok);
    RecordedForOthers(m, svc, addrs, ok);
    RecordedHeld(t', m, svc, addrs, ok);
    forall s | Idle(Recorded(m, svc, addrs, ok), s) && s != Short(svc.id) ensures Idle(m, s) {
      RecordedIdle(m, svc, addrs, ok, s);
    }
    hide Sound, Agrees, SameElsewhere, StateKey, PlainAddresses, IsSorted, Short, Clean, Held, Idle, Wellformed,
        SameForOthers;
    ConsistentForOthers(t, t', m, Recorded(m, svc, addrs, ok), svc.id);
  }

  lemma CleanElsewhere(t: Table, t': Table, short: string, s: string)
    requires SameElsewhere(t, t', short) && s != short && Clean(t, s)
    ensures Clean(t', s)
  {
  }

  function Forgotten(m: Memory, id: string, leaks: bool): Memory {
    Memory(m.lastState - {id}, m.lastPorts - {id}, m.lastAddrs - {id}, m.cut - {id},
           if leaks then m.leaked + {Short(id)} else m.leaked)
  }

  lemma ForgottenShape(m: Memory, id: string, leaks: bool)
    requires Wellformed(m) && id in m.lastState
    ensures Wellformed(Forgotten(m, id, leaks))
  {
    hide Short;
    var m' := Forgotten(m, id, leaks);
    assert m'.lastState.Keys == m.lastState.Keys - {id};
    assert m'.lastPorts.Keys == m.lastPorts.Keys - {id};
    assert m'.lastAddrs.Keys == m.lastAddrs.Keys - {id};
  }

  lemma ForgottenForOthers(m: Memory, id: string, leaks: bool)
    ensures SameForOthers(m, Forgotten(m, id, leaks), id)
  {
    hide Short;
  }

  lemma ForgottenIdle(m: Memory, id: string, leaks: bool, s: string)
    requires Idle(Forgotten(m, id, leaks), s) && s != Short(id)
    ensures Idle(m, s)
  {
    hide Short;
    var m' := Forgotten(m, id, leaks);
    assert forall x | x in m.lastState :: x == id || x in m'.lastState;
  }

  /** Cleaning up after a removed service keeps the controller consistent. */
  lemma ForgettingKeeps(t: Table, t': Table, m: Memory, id: string, leaks: bool)
    requires Consistent(t, m) && id in m.lastState && SameElsewhere(t, t', Short(id))
    requires leaks || Clean(t', Short(id))
    ensures Consistent(t', Forgotten(m, id, leaks))
    ensures SameForOthers(m, Forgotten(m, id, leaks), id)
  {
    var m' := Forgotten(m, id, leaks);
    ForgottenShape(m, id, leaks);
    ForgottenForOthers(m, id, leaks);
    assert id !in m'.lastState && (leaks ==> !Idle(m', Short(id)));
    forall s | Idle(m', s) && s != Short(id) ensures Idle(m, s) {
      ForgottenIdle(m, id, leaks, s);
    }
    hide Idle, SameElsewhere, Short, Clean, Held, SameForOthers;
    ConsistentForOthers(t, t', m, m', id);
  }

  /** Whatever there is of an acceptable service is sound. */
  lemma AcceptableIsSound(t: Table, m: Memory, svc: Service)
    requires Consistent(t, m) && Acceptable(t, m, svc)
    ensures Sound(t, svc.id, svc.ports)
  {
    hide Sound, Agrees, SameElsewhere, StateKey, PlainAddresses, IsSorted, Short, Clean;
    if svc.id in m.lastState {
      assert Held(t, m, svc.id);
    }
  }

  /** A new service whose first eight characters nobody has can be handed over at any time. */
  lemma NewIsAcceptable(t: Table, m: Memory, svc: Service)
    requires Consistent(t, m) && Idle(m, Short(svc.id))
    ensures Acceptable(t, m, svc)
  {
    hide Sound, Short, Held, Clean;
    assert Wellformed(m) && Clean(t, Short(svc.id));
    CleanIsSound(t, svc.id, svc.ports);
  }

  /** A service that is up to date, and whose last application was not cut short, has in
      the table exactly what a rebuild would give it. */
  lemma UpToDateAgrees(t: Table, m: Memory, svc: Service, now: seq<string>)
    requires Consistent(t, m) && Acceptable(t, m, svc) && UpToDate(m, svc, now) && svc.id !in m.cut
    ensures Agrees(t, svc.id, svc.ports, now)
  {
    if svc.id in m.lastState {
      hide Sound, StateKey, PlainAddresses, IsSorted, Short, EndpointRules, Agrees;
      assert Held(t, m, svc.id);
    } else {
      hide StateKey, PlainAddresses, IsSorted, Short, EndpointRules, Held, Idle;
      assert Sound(t, svc.id, svc.ports);
      NoPortsAgrees(t, svc.id);
    }
  }

  lemma NoPortsAgrees(t: Table, id: string)
    requires Sound(t, id, [])
    ensures Agrees(t, id, [], [])
  {
    hide Short, EndpointRules;
  }

  // ----- one pass -----

  predicate Live(services: seq<Service>, id: string) {
    exists svc | svc in services :: svc.id == id
  }

  /** The services of a pass: no two share their first eight characters. */
  ghost predicate Distinct(services: seq<Service>) {
    forall i, j | 0 <= i < j < |services| :: Short(services[i].id) != Short(services[j].id)
  }

  /** The reported commands that applying the ports runs. */
  function Commands(ports: seq<ServicePort>, n: nat): nat {
    if ports == [] then 0
    else Commands(ports[..|ports| - 1], n) + if Serves(ports[|ports| - 1]) then 3 + n else 0
  }

  lemma {:induction false} CommandsPrefix(ports: seq<ServicePort>, k: nat, n: nat)
    requires k <= |ports|
    ensures Commands(ports[..k], n) <= Commands(ports, n)
  {
    if k == |ports| {
      assert ports[..k] == ports;
    } else {
      assert ports[..|ports| - 1][..k] == ports[..k];
      CommandsPrefix(ports[..|ports| - 1], k, n);
    }
  }

  predicate Changed(m: Memory, svc: Service, now: seq<string>) {
    (if svc.id in m.lastState then m.lastState[svc.id] else "") != StateKey(svc.ports, now)
  }

  lemma UnchangedIsUpToDate(t: Table, m: Memory, svc: Service, pods: seq<Pod>, address: map<string, string>)
    requires Consistent(t, m) && Acceptable(t, m, svc)
    requires PlainAddresses(Endpoints(svc, pods, address)) && !Changed(m, svc, Endpoints(svc, pods, address))
    ensures UpToDate(m, svc, Endpoints(svc, pods, address))
  {
    if svc.id in m.lastState {
      assert Held(t, m, svc.id);
      hide StateKey, Endpoints, Sound, Agrees, PlainAddresses, IsSorted, Clean, Short;
      SameKeySameEndpoints(svc, pods, address, m.lastAddrs[svc.id]);
    } else {
      hide StateKey, Endpoints, Sound, Agrees, IsSorted, Clean, Short;
      EmptyKey(svc.ports, Endpoints(svc, pods, address));
    }
  }

  lemma AcceptableKept(t: Table, t': Table, m: Memory, m': Memory, svc: Service, other: string)
    requires Acceptable(t, m, svc) && SameForOthers(m, m', other) && Short(svc.id) != Short(other)
    requires SameElsewhere(t, t', Short(other))
    requires forall id | id in m'.lastState :: id in m.lastState || id == other
    ensures Acceptable(t', m', svc)
  {
    KeptByOthers(t, t', Short(other), svc.id, svc.ports, []);
    hide Short, Sound, Agrees, SameElsewhere;
  }

  lemma UpToDateKept(m: Memory, m': Memory, svc: Service, now: seq<string>, other: string)
    requires UpToDate(m, svc, now) && SameForOthers(m, m', other) && svc.id != other
    ensures UpToDate(m', svc, now)
  {
  }

  lemma SameForOthersReflexive(m: Memory, id: string)
    ensures SameForOthers(m, m, id)
  {
  }

  lemma EndpointsSorted(svc: Service, pods: seq<Pod>, address: map<string, string>)
    ensures IsSorted(Endpoints(svc, pods, address))
  {
    SortedIsSorted(Found(svc, pods, address));
  }

  lemma AcceptableRecorded(t: Table, t': Table, m: Memory, svc: Service, addrs: seq<string>, ok: bool)
    requires Acceptable(t, m, svc)
    ensures Acceptable(t', Recorded(m, svc, addrs, ok), svc) && UpToDate(Recorded(m, svc, addrs, ok), svc, addrs)
  {
    hide StateKey, Short;
  }

  /** The memory of one service. */
  predicate SameFor(m: Memory, m': Memory, id: string) {
    && (id in m.lastState <==> id in m'.lastState)
    && (id in m.lastState && id in m'.lastState ==> m.lastState[id] == m'.lastState[id])
    && (id in m.cut <==> id in m'.cut)
  }

  /** A failed command cuts an application short, and only a changed key starts another. */
  predicate CutAfter(m: Memory, svc: Service, now: seq<string>, limit: nat) {
    if Changed(m, svc, now) then limit < Commands(svc.ports, |now|) else svc.id in m.cut
  }

  lemma CutAfterSame(m: Memory, m': Memory, svc: Service, now: seq<string>, limit: nat)
    requires SameFor(m, m', svc.id)
    ensures Changed(m, svc, now) <==> Changed(m', svc, now)
    ensures CutAfter(m, svc, now, limit) <==> CutAfter(m', svc, now, limit)
  {
    hide StateKey, Commands;
  }

  ghost predicate AllAcceptable(t: Table, m: Memory, services: seq<Service>) {
    forall svc | svc in services :: Acceptable(t, m, svc)
  }

  ghost predicate Done(m0: Memory, m: Memory, done: seq<Service>, pods: seq<Pod>, address: map<string, string>,
                       limits: string -> nat) {
    forall svc | svc in done ::
      && UpToDate(m, svc, Endpoints(svc, pods, address))
      && (svc.id in m.cut <==> CutAfter(m0, svc, Endpoints(svc, pods, address), limits(svc.id)))
  }

  ghost predicate Pending(m0: Memory, m: Memory, pending: seq<Service>) {
    forall svc | svc in pending :: SameFor(m0, m, svc.id)
  }

  /** The first `k` services have had their turn. */
  ghost predicate Visited(t: Table, m0: Memory, m: Memory, services: seq<Service>, pods: seq<Pod>,
                          address: map<string, string>, limits: string -> nat, k: nat)
    requires k <= |services|
  {
    && AllAcceptable(t, m, services)
    && Done(m0, m, services[..k], pods, address, limits)
    && Pending(m0, m, services[k..])
    && OthersUntouched(m0, m, services)
    && m.leaked <= m0.leaked
  }

  /** The services that are not listed are remembered as they were. */
  ghost predicate OthersUntouched(m0: Memory, m: Memory, services: seq<Service>) {
    forall id | !Live(services, id) ::
      && (id in m.lastState <==> id in m0.lastState)
      && (id in m.lastPorts <==> id in m0.lastPorts)
      && (id in m.lastPorts ==> m.lastPorts[id] == m0.lastPorts[id])
  }

  lemma NextOthers(m0: Memory, m: Memory, m': Memory, services: seq<Service>, svc: Service)
    requires svc in services && OthersUntouched(m0, m, services) && SameForOthers(m, m', svc.id)
    ensures OthersUntouched(m0, m', services)
  {
    assert Live(services, svc.id);
    hide Live;
  }

  lemma VisitedStart(t: Table, m: Memory, services: seq<Service>, pods: seq<Pod>, address: map<string, string>,
                     limits: string -> nat)
    requires AllAcceptable(t, m, services)
    ensures Visited(t, m, m, services, pods, address, limits, 0)
  {
    hide Acceptable, Live;
  }

  lemma DistinctAt(services: seq<Service>, k: nat, svc: Service)
    requires Distinct(services) && k < |services| && svc in services
    ensures svc == services[k] || (Short(svc.id) != Short(services[k].id) && svc.id != services[k].id)
    ensures svc in services[..k] || svc in services[k + 1..] ==> svc.id != services[k].id
  {
    var i :| 0 <= i < |services| && services[i] == svc;
    hide Short;
    assert services == services[..k] + services[k..];
  }

  lemma OthersForgotten(m: Memory, m': Memory, id: string)
    requires SameForOthers(m, m', id)
    ensures forall x | x in m'.lastState :: x in m.lastState || x == id
  {
  }

  lemma NextAcceptable(t: Table, t': Table, m: Memory, m': Memory, services: seq<Service>, k: nat)
    requires k < |services| && Distinct(services) && AllAcceptable(t, m, services) && Acceptable(t', m', services[k])
    requires SameForOthers(m, m', services[k].id) && SameElsewhere(t, t', Short(services[k].id))
    ensures AllAcceptable(t', m', services)
  {
    OthersForgotten(m, m', services[k].id);
    hide Acceptable, Distinct, Short, SameForOthers, SameElsewhere;
    forall svc | svc in services ensures Acceptable(t', m', svc) {
      DistinctAt(services, k, svc);
      if svc != services[k] {
        AcceptableKept(t, t', m, m', svc, services[k].id);
      }
    }
  }

  lemma NextDone(m0: Memory, m: Memory, m': Memory, services: seq<Service>, pods: seq<Pod>, address: map<string,
      string>,
                 limits: string -> nat, k: nat)
    requires k < |services| && Distinct(services) && Done(m0, m, services[..k], pods, address, limits)
    requires UpToDate(m', services[k], Endpoints(services[k], pods, address))
    requires SameForOthers(m, m', services[k].id)
    requires services[k].id in m'.cut <==>
            CutAfter(m0, services[k], Endpoints(services[k], pods, address), limits(services[k].id))
    ensures Done(m0, m', services[..k + 1], pods, address, limits)
  {
    hide Endpoints, CutAfter, UpToDate, Distinct, Short;
    forall svc | svc in services[..k + 1]
      ensures UpToDate(m', svc, Endpoints(svc, pods, address))
      ensures svc.id in m'.cut <==> CutAfter(m0, svc, Endpoints(svc, pods, address), limits(svc.id))
    {
      if svc != services[k] {
        assert svc in services[..k];
        DistinctAt(services, k, svc);
        UpToDateKept(m, m', svc, Endpoints(svc, pods, address), services[k].id);
      }
    }
  }

  lemma NextPending(m0: Memory, m: Memory, m': Memory, services: seq<Service>, k: nat)
    requires k < |services| && Distinct(services) && Pending(m0, m, services[k..]) &&
            SameForOthers(m, m', services[k].id)
    ensures Pending(m0, m', services[k + 1..]) && SameFor(m0, m, services[k].id)
  {
    assert services[k] in services[k..];
    hide Distinct, Short;
    forall svc | svc in services[k + 1..] ensures SameFor(m0, m', svc.id) {
      assert svc in services[k..] && svc in services;
      DistinctAt(services, k, svc);
    }
  }

  lemma VisitedNext(t: Table, t': Table, m0: Memory, m: Memory, m': Memory, services: seq<Service>, pods: seq<Pod>,
                    address: map<string, string>, limits: string -> nat, k: nat)
    requires k < |services| && Distinct(services) && Visited(t, m0, m, services, pods, address, limits, k)
    requires UpToDate(m', services[k], Endpoints(services[k], pods, address)) && Acceptable(t', m', services[k])
    requires SameForOthers(m, m', services[k].id) && m'.leaked <= m.leaked &&
            SameElsewhere(t, t', Short(services[k].id))
    requires services[k].id in m'.cut <==>
            CutAfter(m, services[k], Endpoints(services[k], pods, address), limits(services[k].id))
    ensures Visited(t', m0, m', services, pods, address, limits, k + 1)
  {
    NextPending(m0, m, m', services, k);
    CutAfterSame(m0, m, services[k], Endpoints(services[k], pods, address), limits(services[k].id));
    hide Endpoints, CutAfter, Acceptable, UpToDate, Distinct, Short, AllAcceptable, Done, Pending, Changed, SameFor,
        SameForOthers, OthersUntouched, SameElsewhere;
    NextAcceptable(t, t', m, m', services, k);
    NextDone(m0, m, m', services, pods, address, limits, k);
    NextOthers(m0, m, m', services, services[k]);
  }

  predicate NothingChanged(m: Memory, services: seq<Service>, pods: seq<Pod>, address: map<string, string>) {
    forall svc | svc in services :: !Changed(m, svc, Endpoints(svc, pods, address))
  }

  lemma KeysUnchanged(m: Memory, services: seq<Service>, pods: seq<Pod>, address: map<string, string>)
    ensures NothingChanged(m, services, pods, address) <==>
            forall svc | svc in services ::
              (if svc.id in m.lastState then m.lastState[svc.id] else "") ==
              StateKey(svc.ports, Endpoints(svc, pods, address))
  {
    hide StateKey, Endpoints;
  }

  lemma NothingChangedAt(m: Memory, services: seq<Service>, pods: seq<Pod>, address: map<string, string>, k: nat)
    requires k < |services| && NothingChanged(m, services, pods, address)
    ensures !Changed(m, services[k], Endpoints(services[k], pods, address))
  {
  }

  lemma VisitedAcceptable(t: Table, m0: Memory, m: Memory, services: seq<Service>, pods: seq<Pod>,
                          address: map<string, string>, limits: string -> nat, k: nat)
    requires k < |services| && Visited(t, m0, m, services, pods, address, limits, k)
    ensures Acceptable(t, m, services[k])
  {
    hide Acceptable, UpToDate, Endpoints;
  }

  lemma CutAfterNow(m: Memory, m': Memory, svc: Service, now: seq<string>, limit: nat)
    requires if Changed(m, svc, now) then svc.id in m'.cut <==> limit < Commands(svc.ports, |now|) else m' == m
    ensures svc.id in m'.cut <==> CutAfter(m, svc, now, limit)
  {
    hide Changed, Commands;
  }

  /** A port of a protocol that cleanup does not know. */
  predicate LeaksAny(ports: seq<ServicePort>) {
    exists p | p in ports :: Serves(p) && !Known(Proto(p))
  }

  lemma NoLeakEnd(t: Table, id: string, ports: seq<ServicePort>)
    requires Cleaning(t, id, ports, |ports|) && !LeaksAny(ports)
    ensures Clean(t, Short(id))
  {
    hide Cleaning, Serves, Known, Proto;
    CleaningEnd(t, id, ports);
  }

  /** The short id of a removed service that had such a port. */
  ghost predicate LeftBehind(m: Memory, services: seq<Service>, short: string) {
    exists id | id in m.lastPorts :: !Live(services, id) && Short(id) == short && HasOtherProtocol(m.lastPorts[id])
  }

  /** A port with a number and a target has a protocol that is neither tcp nor udp. */
  ghost predicate HasOtherProtocol(ports: seq<ServicePort>) {
    exists p | p in ports ::
      && p.port != 0 && p.targetPort != 0
      && p.protocol != "" && !IsLowerOf("tcp", p.protocol) && !IsLowerOf("udp", p.protocol)
  }

  lemma LeaksAreOthers(ports: seq<ServicePort>)
    ensures LeaksAny(ports) <==> HasOtherProtocol(ports)
  {
    forall p | p in ports
      ensures Known(Proto(p)) <==> p.protocol == "" || IsLowerOf("tcp", p.protocol) || IsLowerOf("udp", p.protocol)
    {
      KnownProtocol(p);
    }
    hide IsLowerOf, Known, Proto;
  }

  lemma LiveIsOther(t: Table, m: Memory, services: seq<Service>, id: string)
    requires id in m.lastState && !Live(services, id) && AllAcceptable(t, m, services)
    ensures forall svc | svc in services :: svc.id != id && Short(svc.id) != Short(id)
  {
    hide Short;
  }

  lemma ForgottenKeepsLive(t: Table, t': Table, m0: Memory, m: Memory, m': Memory, services: seq<Service>,
      pods: seq<Pod>,
                           address: map<string, string>, limits: string -> nat, id: string)
    requires id in m.lastState && !Live(services, id) && AllAcceptable(t, m, services)
    requires Done(m0, m, services, pods, address, limits) && SameForOthers(m, m', id) && SameElsewhere(t, t', Short(id))
    ensures AllAcceptable(t', m', services) && Done(m0, m', services, pods, address, limits)
  {
    LiveIsOther(t, m, services, id);
    OthersForgotten(m, m', id);
    hide Live, Short, Acceptable, Endpoints, CutAfter, UpToDate, SameForOthers, SameElsewhere;
    forall svc | svc in services
      ensures Acceptable(t', m', svc) && UpToDate(m', svc, Endpoints(svc, pods, address))
    {
      AcceptableKept(t, t', m, m', svc, id);
      UpToDateKept(m, m', svc, Endpoints(svc, pods, address), id);
    }
    assert forall svc | svc in services :: svc.id in m.cut <==> svc.id in m'.cut by {
      OthersCut(m, m', id);
    }
  }

  lemma OthersCut(m: Memory, m': Memory, id: string)
    requires SameForOthers(m, m', id)
    ensures forall x | x != id :: x in m.cut <==> x in m'.cut
  {
  }

  /** Nothing is in the table under a short id that is neither live nor left behind. */
  lemma OnlyLiveLeft(t: Table, m: Memory, services: seq<Service>, short: string)
    requires Consistent(t, m) && (forall id | id in m.lastState :: Live(services, id))
    requires (forall svc | svc in services :: Short(svc.id) != short) && short !in m.leaked
    ensures Clean(t, short)
  {
    hide Clean, Held, Short, Wellformed;
    assert Idle(m, short);
  }

  lemma SamePorts(t: Table, m: Memory)
    requires Consistent(t, m)
    ensures m.lastState.Keys == m.lastPorts.Keys == m.lastAddrs.Keys
  {
    hide Held, Clean, Idle;
  }

  lemma AllEndpointsPlain(services: seq<Service>, pods: seq<Pod>, address: map<string, string>)
    requires forall p | p in address :: address[p] != "" && ',' !in address[p]
    ensures forall svc | svc in services :: PlainAddresses(Endpoints(svc, pods, address))
  {
    hide PlainAddresses, Endpoints;
    forall svc | svc in services ensures PlainAddresses(Endpoints(svc, pods, address)) {
      EndpointsPlain(svc, pods, address);
    }
  }

  lemma VisitedAll(t: Table, m0: Memory, m: Memory, services: seq<Service>, pods: seq<Pod>, address: map<string,
      string>,
                   limits: string -> nat)
    requires Visited(t, m0, m, services, pods, address, limits, |services|)
    ensures AllAcceptable(t, m, services) && Done(m0, m, services, pods, address, limits) && m.leaked <= m0.leaked
    ensures OthersUntouched(m0, m, services)
  {
    assert services[..|services|] == services;
    hide AllAcceptable, Done, Pending, OthersUntouched;
  }

  lemma LeftBehindBefore(m0: Memory, m: Memory, services: seq<Service>, short: string)
    requires OthersUntouched(m0, m, services) && LeftBehind(m, services, short)
    ensures LeftBehind(m0, services, short)
  {
    hide Live, HasOtherProtocol, Short;
  }

  /** What `m` still remembers it remembers as `m1` did. */
  ghost predicate SubMemory(m: Memory, m1: Memory) {
    forall id | id in m.lastPorts :: id in m1.lastPorts && m.lastPorts[id] == m1.lastPorts[id]
  }

  ghost predicate Explained(m1: Memory, m: Memory, services: seq<Service>) {
    SubMemory(m, m1) && forall s | s in m.leaked :: s in m1.leaked || LeftBehind(m1, services, s)
  }

  lemma ForgottenLeaks(m1: Memory, m: Memory, services: seq<Service>, id: string)
    requires id in m.lastPorts && !Live(services, id) && Explained(m1, m, services)
    ensures Explained(m1, Forgotten(m, id, LeaksAny(m.lastPorts[id])), services)
  {
    LeaksAreOthers(m.lastPorts[id]);
    hide Live, LeaksAny, HasOtherProtocol, Short;
  }

  lemma AllAgree(t: Table, m0: Memory, m: Memory, services: seq<Service>, pods: seq<Pod>, address: map<string, string>,
                 limits: string -> nat)
    requires Consistent(t, m) && AllAcceptable(t, m, services) && Done(m0, m, services, pods, address, limits)
    ensures forall svc | svc in services &&
            svc.id !in m.cut :: Agrees(t, svc.id, svc.ports, Endpoints(svc, pods, address))
    ensures forall svc | svc in services :: svc.id in m.cut <==>
            CutAfter(m0, svc, Endpoints(svc, pods, address), limits(svc.id))
  {
    hide Consistent, Acceptable, UpToDate, Agrees, Endpoints, CutAfter;
    forall svc | svc in services && svc.id !in m.cut ensures Agrees(t, svc.id, svc.ports,
        Endpoints(svc, pods, address)) {
      UpToDateAgrees(t, m, svc, Endpoints(svc, pods, address));
    }
  }

  lemma EverythingElseClean(t: Table, m: Memory, services: seq<Service>)
    requires Consistent(t, m) && (forall id | id in m.lastState :: Live(services, id))
    ensures forall short | (forall svc | svc in services :: Short(svc.id) != short) &&
            short !in m.leaked :: Clean(t, short)
  {
    hide Consistent, Live, Short, Clean;
    forall short | (forall svc | svc in services :: Short(svc.id) != short) &&
        short !in m.leaked ensures Clean(t, short) {
      OnlyLiveLeft(t, m, services, short);
    }
  }

  function Shorts(t: Table): set<string> {
    (set j | j in t.prerouting :: j.chain.short) + (set j | j in t.output :: j.chain.short) + (set c | c in t.chains ::
        c.short)
  }

  lemma ShortsExactly(t: Table)
    ensures forall s :: s in Shorts(t) <==> !Clean(t, s)
  {
    forall s ensures s in Shorts(t) <==> !Clean(t, s) {
      forall j: Jump ensures j in t.prerouting <==> multiset(t.prerouting)[j] != 0
                     ensures j in t.output <==> multiset(t.output)[j] != 0
      {
      }
    }
  }

  /** A restarted controller, which has forgotten everything, can go on where the last one
      stopped: the services it could accept, the new one can. */
  lemma RestartAccepts(t: Table, m: Memory, m': Memory, services: seq<Service>)
    requires Consistent(t, m) && AllAcceptable(t, m, services)
    requires m'.lastState == map[] && m'.lastPorts == map[]
    ensures AllAcceptable(t, m', services)
  {
    forall svc | svc in services ensures Acceptable(t, m', svc) {
      assert Acceptable(t, m, svc);
      AcceptableIsSound(t, m, svc);
      hide Sound, Short, Consistent;
    }
  }

  class Controller {
    var table: Table
    var lastState: map<string, string>
    var lastPorts: map<string, seq<ServicePort>>
    ghost var lastAddrs: map<string, seq<string>>
    ghost var cut: set<string>
    ghost var leaked: set<string>

    /** A new controller remembers nothing; what the table holds already counts as leaked. */
    constructor (t: Table)
      ensures Valid() && table == t
      ensures lastState == map[] && lastPorts == map[] && cut == {}
      ensures forall s :: s in leaked <==> !Clean(t, s)
    {
      table := t;
      lastState, lastPorts, lastAddrs := map[], map[], map[];
      cut := {};
      leaked := Shorts(t);
      new;
      ShortsExactly(t);
      hide Clean, Held, Shorts;
    }

    ghost function Mem(): Memory
      reads this
    {
      Memory(lastState, lastPorts, lastAddrs, cut, leaked)
    }

    ghost predicate Valid()
      reads this
    {
      Consistent(table, Mem())
    }

    /** `limit` reported commands work; the next one fails. */
    method ApplyOnePort(id: string, p: ServicePort, addrs: seq<string>, limit: nat) returns (ok: bool, left: nat)
      requires Serves(p)
      modifies this`table
      ensures Between(old(table), table, id, p)
      ensures ok <==> 3 + |addrs| <= limit
      ensures ok ==> table == PortApplied(old(table), id, p, addrs) && left == limit - (3 + |addrs|)
    {
      hide RemoveFirst, Short, Proto;
      var j := JumpOf(id, p);
      left := limit;
      table := EnsureChain(table, j.chain);
      if left == 0 {
        return false, 0;
      }
      left := left - 1;
      table := FlushChain(table, j.chain);
      table := DeleteJump(table, j);
      if left == 0 {
        return false, 0;
      }
      left := left - 1;
      table := table.(prerouting := table.prerouting + [j]);
      if left == 0 {
        return false, 0;
      }
      left := left - 1;
      table := table.(output := table.output + [j]);
      ghost var hooked := table;
      var i := 0;
      while i < |addrs|
        invariant 0 <= i <= |addrs| && left == limit - 3 - i
        invariant j.chain in table.chains
        invariant table == hooked.(chains := old(table).chains[j.chain := EndpointRules(addrs, p)[..i]])
      {
        if left == 0 {
          return false, 0;
        }
        left := left - 1;
        var probability := if i < |addrs| - 1 then 1.0 / (|addrs| as real) else 0.0;
        assert EndpointRules(addrs, p)[..i + 1] ==
            EndpointRules(addrs, p)[..i] + [DnatRule(Proto(p), probability, addrs[i], p.targetPort)];
        table := AppendRule(table, j.chain, DnatRule(Proto(p), probability, addrs[i], p.targetPort));
        i := i + 1;
      }
      assert EndpointRules(addrs, p)[..i] == EndpointRules(addrs, p);
      return true, left;
    }

    /** Applies all ports; whatever fails on the way, the service's share stays sound. */
    method ApplyRules(id: string, ports: seq<ServicePort>, addrs: seq<string>, limit: nat) returns (ok: bool)
      requires Sound(table, id, ports)
      modifies this`table
      ensures SameElsewhere(old(table), table, Short(id)) && Sound(table, id, ports)
      ensures ok <==> Commands(ports, |addrs|) <= limit
      ensures ok ==> Agrees(table, id, ports, addrs)
    {
      SoundIsStart(table, id, ports, addrs);
      var left := limit;
      var k := 0;
      hide Sound, Agrees, Short, SameElsewhere, Serves, Between, PortApplied;
      assert SameElsewhere(table, table, Short(id)) by {
        SameElsewhereReflexive(table, Short(id));
      }
      while k < |ports|
        invariant 0 <= k <= |ports|
        invariant Applied(table, id, ports, k, addrs) && Sound(table, id, ports)
        invariant SameElsewhere(old(table), table, Short(id))
        invariant Commands(ports[..k], |addrs|) <= limit && left == limit - Commands(ports[..k], |addrs|)
      {
        ghost var before := table;
        assert ports[..k + 1][..k] == ports[..k];
        CommandsPrefix(ports, k + 1, |addrs|);
        if Serves(ports[k]) {
          ok, left := ApplyOnePort(id, ports[k], addrs, left);
          BetweenIsSound(before, table, id, ports, ports[k]);
          BetweenElsewhere(before, table, id, ports[k]);
          SameElsewhereChain(old(table), before, table, Short(id));
          if !ok {
            return false;
          }
          ApplyPort(before, id, ports, k, addrs);
        } else {
          SkipPort(before, id, ports, k, addrs);
        }
        k := k + 1;
      }
      assert ports[..k] == ports;
      AppliedIsAgreed(table, id, ports, addrs);
      return true;
    }

    /** One service: its key is remembered before its rules are applied. */
    method ReconcileService(svc: Service, pods: seq<Pod>, address: map<string, string>, limit: nat)
      requires Valid() && Acceptable(table, Mem(), svc)
      requires PlainAddresses(Endpoints(svc, pods, address))
      modifies this
      ensures Valid() && UpToDate(Mem(), svc, Endpoints(svc, pods, address))
      ensures Acceptable(table, Mem(), svc) && SameForOthers(old(Mem()), Mem(), svc.id)
      ensures SameElsewhere(old(table), table, Short(svc.id)) && leaked <= old(leaked)
      ensures if Changed(old(Mem()), svc, Endpoints(svc, pods, address))
              then svc.id in cut <==> limit < Commands(svc.ports, |Endpoints(svc, pods, address)|)
              else table == old(table) && Mem() == old(Mem())
    {
      hide Consistent, StateKey, Endpoints, Sound, Agrees, SameElsewhere, PlainAddresses, SameForOthers, Acceptable,
          UpToDate, Commands, IsSorted, Short;
      ghost var m, t := Mem(), table;
      var endpoints := BuildEndpoints(svc, pods, address);
      var key := BuildStateKey(svc.ports, endpoints);
      var prev := if svc.id in lastState then lastState[svc.id] else "";
      if prev != key {
        AcceptableIsSound(table, m, svc);
        lastState := lastState[svc.id := key];
        lastPorts := lastPorts[svc.id := svc.ports];
        lastAddrs := lastAddrs[svc.id := endpoints];
        var ok := ApplyRules(svc.id, svc.ports, endpoints, limit);
        cut := if ok then cut - {svc.id} else cut + {svc.id};
        leaked := leaked - {Short(svc.id)};
        assert Mem() == Recorded(m, svc, endpoints, ok);
        EndpointsSorted(svc, pods, address);
        ApplyingKeeps(t, table, m, svc, endpoints, ok);
        AcceptableRecorded(t, table, m, svc, endpoints, ok);
      } else {
        UnchangedIsUpToDate(table, m, svc, pods, address);
        SameForOthersReflexive(m, svc.id);
        SameElsewhereReflexive(table, Short(svc.id));
      }
    }

    /** Takes the jumps and chains of a removed service back. */
    method CleanupService(id: string)
      requires Valid() && id in lastPorts
      modifies this`table
      ensures SameElsewhere(old(table), table, Short(id)) && KeepsOtherProtocols(old(table), table)
      ensures Cleaning(table, id, lastPorts[id], |lastPorts[id]|)
    {
      var ports := lastPorts[id];
      assert Held(table, Mem(), id);
      CleaningStart(table, id, ports);
      assert KeepsOtherProtocols(table, table);
      hide Consistent, Held, Cleaning, SameElsewhere, Short, KeepsOtherProtocols;
      SameElsewhereReflexive(table, Short(id));
      var k := 0;
      while k < |ports|
        invariant 0 <= k <= |ports|
        invariant Cleaning(table, id, ports, k)
        invariant SameElsewhere(old(table), table, Short(id)) && KeepsOtherProtocols(old(table), table)
      {
        ghost var before := table;
        if ports[k].port == 0 {
          SkipZeroPort(table, id, ports, k);
        } else {
          CleanPort(table, id, ports, k);
          CleanPortElsewhere(table, id, ports[k]);
          var c := ChainName(Short(id), ports[k].port);
          table := DeleteJump(table, Jump("tcp", ports[k].port, c));
          table := DeleteJump(table, Jump("udp", ports[k].port, c));
          table := FlushChain(table, c);
          table := DeleteChain(table, c);
          assert table == PortRemoved(before, id, ports[k]);
          SameElsewhereChain(old(table), before, table, Short(id));
          KeepsOtherProtocolsChain(old(table), before, table);
        }
        k := k + 1;
      }
    }

    method VisitServices(services: seq<Service>, pods: seq<Pod>, address: map<string, string>, limits: string -> nat)
      requires Valid() && Distinct(services) && AllAcceptable(table, Mem(), services)
      requires forall svc | svc in services :: PlainAddresses(Endpoints(svc, pods, address))
      modifies this
      ensures Valid() && Visited(table, old(Mem()), Mem(), services, pods, address, limits, |services|)
      ensures NothingChanged(old(Mem()), services, pods, address) ==> table == old(table) && Mem() == old(Mem())
    {
      ghost var m0, t0 := Mem(), table;
      ghost var same := NothingChanged(m0, services, pods, address);
      hide Distinct, Consistent, Visited, PlainAddresses, Endpoints, Acceptable, UpToDate, SameForOthers, Short,
          AllAcceptable,
        NothingChanged, Changed, Commands, CutAfter, SameFor, Live, OthersUntouched;
      VisitedStart(table, m0, services, pods, address, limits);
      var k := 0;
      while k < |services|
        invariant 0 <= k <= |services|
        invariant Valid() && Visited(table, m0, Mem(), services, pods, address, limits, k)
        invariant same ==> table == t0 && Mem() == m0
      {
        ghost var m, t := Mem(), table;
        if same {
          NothingChangedAt(m0, services, pods, address, k);
        }
        VisitedAcceptable(table, m0, m, services, pods, address, limits, k);
        ReconcileService(services[k], pods, address, limits(services[k].id));
        CutAfterNow(m, Mem(), services[k], Endpoints(services[k], pods, address), limits(services[k].id));
        VisitedNext(t, table, m0, m, Mem(), services, pods, address, limits, k);
        k := k + 1;
      }
    }

    method CheckLive(services: seq<Service>, id: string) returns (live: bool)
      ensures live <==> Live(services, id)
    {
      var i := 0;
      while i < |services|
        invariant 0 <= i <= |services|
        invariant forall j | 0 <= j < i :: services[j].id != id
      {
        if services[i].id == id {
          return true;
        }
        i := i + 1;
      }
      return false;
    }

    /** Cleans up after one service that is no longer listed, and forgets it. */
    method ForgetService(id: string)
      requires Valid() && id in lastState
      modifies this
      ensures Valid() && SameElsewhere(old(table), table, Short(id))
      ensures Mem() == Forgotten(old(Mem()), id, LeaksAny(old(lastPorts[id])))
    {
      ghost var m, t := Mem(), table;
      assert id in lastPorts;
      hide Consistent, Cleaning, SameElsewhere, Short, KeepsOtherProtocols, Clean, LeaksAny;
      CleanupService(id);
      ghost var leaks := LeaksAny(lastPorts[id]);
      if !leaks {
        NoLeakEnd(table, id, lastPorts[id]);
      }
      ForgettingKeeps(t, table, m, id, leaks);
      lastState := lastState - {id};
      lastPorts := lastPorts - {id};
      lastAddrs := lastAddrs - {id};
      cut := cut - {id};
      leaked := if leaks then leaked + {Short(id)} else leaked;
      assert Mem() == Forgotten(m, id, leaks);
    }

    /** Forgets every service that is no longer listed, and keeps the others as they are. */
    method ForgetRemoved(services: seq<Service>, pods: seq<Pod>, address: map<string, string>,
                         ghost m0: Memory, ghost limits: string -> nat)
      requires Valid() && AllAcceptable(table, Mem(), services) && Done(m0, Mem(), services, pods, address, limits)
      modifies this
      ensures Valid() && AllAcceptable(table, Mem(), services) && Done(m0, Mem(), services, pods, address, limits)
      ensures forall id | id in lastState :: Live(services, id)
      ensures Explained(old(Mem()), Mem(), services)
      ensures (forall id | id in old(lastState) :: Live(services, id)) ==> table == old(table) && Mem() == old(Mem())
    {
      ghost var m1 := Mem();
      hide Consistent, AllAcceptable, Done, Short, LeaksAny, Live, SameForOthers, OthersUntouched;
      assert Explained(m1, m1, services);
      hide SubMemory, LeftBehind, Explained;
      var todo := lastState.Keys;
      while todo != {}
        invariant todo <= lastState.Keys <= m1.lastState.Keys
        invariant Valid() && AllAcceptable(table, Mem(), services) && Done(m0, Mem(), services, pods, address, limits)
        invariant forall id | id in lastState :: id in todo || Live(services, id)
        invariant Explained(m1, Mem(), services)
        invariant (forall id | id in m1.lastState :: Live(services, id)) ==> table == old(table) && Mem() == m1
        decreases |todo|
      {
        var id :| id in todo;
        todo := todo - {id};
        var live := CheckLive(services, id);
        if !live {
          ghost var m, t := Mem(), table;
          SamePorts(table, m);
          ForgottenLeaks(m1, m, services, id);
          ForgetService(id);
          ForgottenForOthers(m, id, LeaksAny(m.lastPorts[id]));
          ForgottenKeepsLive(t, table, m0, m, Mem(), services, pods, address, limits, id);
        }
      }
    }

    /** One pass of the controller. Whatever reported commands fail and however often it has
        run before, afterwards every service whose application was not cut short has in the
        table exactly what a rebuild from the current pods would give it, and nothing else is
        there but what a removed service left of protocols that cleanup does not know. A cut
        application is not taken up again until the service's key changes. */
    method ReconcileOnce(services: seq<Service>, pods: seq<Pod>, address: map<string, string>, limits: string -> nat)
      requires Valid() && Distinct(services) && AllAcceptable(table, Mem(), services)
      requires forall p | p in address :: address[p] != "" && ',' !in address[p]
      modifies this
      ensures Valid() && AllAcceptable(table, Mem(), services)
      ensures forall svc | svc in services &&
              svc.id !in cut ::
                && Agrees(table, svc.id, svc.ports, Endpoints(svc, pods, address))
                && Served(table, svc.id, svc.ports, Endpoints(svc, pods, address))
      ensures forall svc | svc in services ::
                svc.id in cut <==> CutAfter(old(Mem()), svc, Endpoints(svc, pods, address), limits(svc.id))
      ensures forall short | (forall svc | svc in services :: Short(svc.id) != short) &&
              short !in leaked :: Clean(table, short)
      ensures forall s | s in leaked :: s in old(leaked) || LeftBehind(old(Mem()), services, s)
      ensures (forall svc | svc in services ::
                 (if svc.id in old(lastState) then old(lastState)[svc.id] else "") ==
                 StateKey(svc.ports, Endpoints(svc, pods, address))) &&
              (forall id | id in old(lastState) :: Live(services, id)) ==>
                table == old(table) && Mem() == old(Mem())
    {
      ghost var m0 := Mem();
      AllEndpointsPlain(services, pods, address);
      KeysUnchanged(m0, services, pods, address);
      hide StateKey;
      hide Consistent, AllAcceptable, Done, Short, Live, LeftBehind, Visited, NothingChanged, Distinct, CutAfter,
          Clean, Agrees, Endpoints;
      VisitServices(services, pods, address, limits);
      ghost var m1 := Mem();
      VisitedAll(table, m0, m1, services, pods, address, limits);
      hide OthersUntouched;
      ForgetRemoved(services, pods, address, m0, limits);
      forall s | s in leaked ensures s in m0.leaked || LeftBehind(m0, services, s) {
        if LeftBehind(m1, services, s) {
          LeftBehindBefore(m0, m1, services, s);
        }
      }
      AllAgree(table, m0, Mem(), services, pods, address, limits);
      hide Served;
      forall svc | svc in services &&
          svc.id !in cut ensures Served(table, svc.id, svc.ports, Endpoints(svc, pods, address)) {
        PortsAreServed(table, svc.id, svc.ports, Endpoints(svc, pods, address));
      }
      EverythingElseClean(table, Mem(), services);
    }
  }
}
