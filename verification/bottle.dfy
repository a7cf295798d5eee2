/** Creating, starting, stopping and deleting the containers of one bottle. */
module Bottles {
  import opened Wrappers
  import opened StartOrder

  datatype ContainerState = Creating | Created | Running | Stopped

  // ----- what a bottle must keep -----

  /** The services whose container runs. */
  function RunningServices(services: Services, containers: map<string, string>, csm: map<string,
      ContainerState>): set<string> {
    set s | s in services && s in containers && containers[s] in csm && csm[containers[s]].Running?
  }

  /** Each of these services has all its dependencies among them. */
  ghost predicate Closed(services: Services, running: set<string>) {
    forall s, d | s in running && s in services && d in services[s] :: d in running
  }

  ghost predicate OwnContainers(containers: map<string, string>) {
    forall s, t | s in containers && t in containers && s != t :: containers[s] != containers[t]
  }

  /** The service's container is there, created or stopped, and can be started. */
  predicate Startable(containers: map<string, string>, csm: map<string, ContainerState>, starts: string -> bool,
      s: string) {
    && s in containers && containers[s] in csm
    && (csm[containers[s]] == Created || csm[containers[s]] == Stopped)
    && starts(containers[s])
  }

  /** The service's container is there, and if it runs it can be stopped. */
  predicate Stoppable(containers: map<string, string>, csm: map<string, ContainerState>, stops: string -> bool,
      s: string) {
    s in containers && containers[s] in csm && (csm[containers[s]] == Running ==> stops(containers[s]))
  }

  /** The same, and it can be deleted. */
  predicate Deletable(containers: map<string, string>, csm: map<string, ContainerState>, stops: string -> bool,
      deletes: string -> bool, s: string)
  {
    Stoppable(containers, csm, stops, s) && deletes(containers[s])
  }

  predicate SameContainer(csm: map<string, ContainerState>, csm': map<string, ContainerState>, id: string) {
    (id in csm <==> id in csm') && (id in csm && id in csm' ==> csm[id] == csm'[id])
  }

  /** The containers of services `lo` to `hi` of the order are as they were. */
  ghost predicate SameBetween(order: seq<string>, lo: int, hi: int, containers: map<string, string>,
      csm: map<string, ContainerState>, csm': map<string, ContainerState>)
    requires 0 <= lo && hi <= |order|
  {
    forall k | lo <= k < hi && order[k] in containers :: SameContainer(csm, csm', containers[order[k]])
  }

  /** The bottle's record, the container store, and the set of running services after every
      change of a container. Which runtime calls work is told by `starts`, `stops`, `deletes`
      and `makes`. */
  class Bottle {
    const services: Services
    const order: seq<string>
    var containers: map<string, string>
    var csm: map<string, ContainerState>
    ghost var history: seq<set<string>>

    constructor (services: Services, order: seq<string>, csm: map<string, ContainerState>)
      requires IsStartOrder(services, order)
      ensures this.services == services && this.order == order
      ensures containers == map[] && this.csm == csm && history == [] && Valid()
    {
      this.services, this.order := services, order;
      this.containers, this.csm := map[], csm;
      history := [];
    }

    ghost predicate Valid()
      reads this
    {
      IsStartOrder(services, order) && OwnContainers(containers)
    }

    ghost function Now(): set<string>
      reads this
    {
      RunningServices(services, containers, csm)
    }

    /** Every set recorded since `from` entries of the history had closed dependencies. */
    ghost predicate ClosedSince(from: nat)
      reads this
    {
      forall k | from <= k < |history| :: Closed(services, history[k])
    }

    // ----- containers -----

    /** Starts a created or stopped container; a running one is an error. */
    method StartContainer(id: string, works: bool) returns (ok: bool)
      modifies this`csm, this`history
      ensures ok <==> id in old(csm) && (old(csm)[id].Created? || old(csm)[id].Stopped?) && works
      ensures ok ==> csm == old(csm)[id := Running] && history == old(history) + [Now()]
      ensures !ok ==> csm == old(csm) && history == old(history)
    {
      if id !in csm || !(csm[id].Created? || csm[id].Stopped?) {
        return false;
      }
      if !works {
        return false;
      }
      csm := csm[id := Running];
      history := history + [Now()];
      return true;
    }

    method StopContainer(id: string, works: bool) returns (ok: bool)
      modifies this`csm, this`history
      ensures ok <==> id in old(csm) && old(csm)[id].Running? && works
      ensures ok ==> csm == old(csm)[id := Stopped] && history == old(history) + [Now()]
      ensures !ok ==> csm == old(csm) && history == old(history)
    {
      if id !in csm || !csm[id].Running? {
        return false;
      }
      if !works {
        return false;
      }
      csm := csm[id := Stopped];
      history := history + [Now()];
      return true;
    }

    /** Deletes a container that does not run; its record goes with it. */
    method DeleteContainer(id: string, works: bool) returns (ok: bool)
      modifies this`csm, this`history
      ensures ok <==> id in old(csm) && !old(csm)[id].Running? && works
      ensures ok ==> csm == old(csm) - {id} && history == old(history) + [Now()]
      ensures !ok ==> csm == old(csm) && history == old(history)
    {
      if id !in csm || csm[id].Running? {
        return false;
      }
      if !works {
        return false;
      }
      csm := csm - {id};
      history := history + [Now()];
      return true;
    }

    // ----- the bottle -----

    /** Starts the services in order. It succeeds exactly if every service has a container that
        is created or stopped and can be started, and then all run; cut short or not, no
        service ever runs without its dependencies. */
    method Start(starts: string -> bool) returns (ok: bool)
      requires Valid() && Closed(services, Now())
      modifies this`csm, this`history
      ensures Valid() && Closed(services, Now()) && ClosedSince(|old(history)|)
      ensures |old(history)| <= |history|
      ensures ok ==> old(Now()) == {} && Now() == services.Keys
      ensures ok <==> order != [] && AllStartable(services, containers, old(csm), starts)
    {
      if order == [] {
        return false;
      }
      UpStarts(order, containers, csm, starts);
      hide RunningServices, OwnContainers, Closed, Startable, AllStartable, CanStartUpTo;
      for i := 0 to |order|
        invariant CanStartUpTo(order, i, containers, old(csm), csm, starts)
        invariant |old(history)| <= |history|
        invariant Closed(services, Now()) && ClosedSince(|old(history)|)
        invariant forall k | 0 <= k < i :: order[k] in Now() && order[k] !in old(Now())
        invariant forall s | s in services && s !in order[..i] && s in old(Now()) :: s in Now()
      {
        var serviceName := order[i];
        assert serviceName in order;
        UpStep(services, order, i, containers, old(csm), csm, starts);
        if serviceName !in containers {
          return false;
        }
        StartedIsClosed(services, order, i, Now());
        AfterChange(services, containers, csm, serviceName);
        ok := StartContainer(containers[serviceName], starts(containers[serviceName]));
        if !ok {
          return;
        }
      }
      ok := true;
      UpEnds(services, order, containers, old(csm), csm, starts);
      forall s | s in services ensures s in Now() && s !in old(Now()) {
        var k :| 0 <= k < |order| && order[k] == s;
      }
    }

    /** Stops the running services, dependents first. It succeeds exactly if every service has a
        container, and those that run can be stopped. */
    method Stop(stops: string -> bool) returns (ok: bool)
      requires Valid() && Closed(services, Now())
      modifies this`csm, this`history
      ensures Valid() && Closed(services, Now()) && ClosedSince(|old(history)|)
      ensures |old(history)| <= |history|
      ensures ok ==> Now() == {} && csm.Keys == old(csm).Keys
      ensures ok <==> order != [] && AllStoppable(services, containers, old(csm), stops)
    {
      if order == [] {
        return false;
      }
      RunningAreServices(services, containers, csm);
      DownStarts(order, containers, csm, stops);
      hide RunningServices, OwnContainers, Closed, Stoppable, AllStoppable, CanStopFrom;
      var i := |order| - 1;
      while i >= 0
        invariant -1 <= i < |order|
        invariant CanStopFrom(order, i, containers, old(csm), csm, stops)
        invariant |old(history)| <= |history| && Now() <= services.Keys &&
                csm.Keys == old(csm).Keys
        invariant Closed(services, Now()) && ClosedSince(|old(history)|)
        invariant forall k | i < k < |order| :: order[k] !in Now()
      {
        var serviceName := order[i];
        assert serviceName in order;
        DownStep(services, order, i, containers, old(csm), csm, stops);
        if serviceName !in containers {
          return false;
        }
        var containerId := containers[serviceName];
        if containerId !in csm {
          return false;
        }
        if csm[containerId].Running? {
          StoppedIsClosed(services, order, i, Now());
          AfterChange(services, containers, csm, serviceName);
          ok := StopContainer(containerId, stops(containerId));
          if !ok {
            return;
          }
        }
        i := i - 1;
      }
      NoneRuns(services, order, Now());
      DownEnds(services, order, containers, old(csm), csm, stops);
      ok := true;
    }

    /** One round of `Delete`: the container of service `i` is stopped if it runs, then deleted. */
    method DeleteService(i: nat, stops: string -> bool, deletes: string -> bool) returns (ok: bool)
      requires Valid() && i < |order| && Closed(services, Now())
      requires forall k | i < k < |order| :: order[k] !in Now()
      modifies this`csm, this`history
      ensures Closed(services, Now()) && |old(history)| <= |history|
      ensures forall k | |old(history)| <= k < |history| :: Closed(services, history[k])
      ensures forall k | 0 <= k < |old(history)| :: history[k] == old(history)[k]
      ensures Now() <= old(Now())
      ensures order[i] !in containers || containers[order[i]] !in old(csm) ==>
              !ok && csm == old(csm) && history == old(history)
      ensures ok ==> order[i] in containers && csm == old(csm) - {containers[order[i]]} && order[i] !in Now()
      ensures !ok ==> csm.Keys == old(csm).Keys
      ensures ok <==> Deletable(containers, old(csm), stops, deletes, order[i])
    {
      hide RunningServices, OwnContainers, Closed, IsStartOrder;
      var serviceName := order[i];
      InOrder(services, order, i);
      if serviceName !in containers {
        return false;
      }
      var containerId := containers[serviceName];
      if containerId !in csm {
        return false;
      }
      StoppedIsClosed(services, order, i, Now());
      if csm[containerId].Running? {
        AfterChange(services, containers, csm, serviceName);
        ok := StopContainer(containerId, stops(containerId));
        if !ok {
          return;
        }
      }
      AfterChange(services, containers, csm, serviceName);
      ok := DeleteContainer(containerId, deletes(containerId));
    }

    /** Stops and deletes the containers, dependents first; then the policies, the network
        and the bottle's record go. It succeeds exactly if every service has a container that
        can be stopped, if it runs, and deleted, and the rest works. Once the last service's
        container is gone a further attempt stops at its first step. */
    method Delete(stops: string -> bool, deletes: string -> bool, works: bool) returns (ok: bool)
      requires Valid() && Closed(services, Now())
      modifies this`csm, this`history, this`containers
      ensures Valid() && Closed(services, Now()) && ClosedSince(|old(history)|)
      ensures |old(history)| <= |history|
      ensures ok ==> containers == map[] && forall s | s in services ::
              s in old(containers) && old(containers)[s] !in csm
      ensures !ok ==> containers == old(containers)
      ensures !ok && csm.Keys != old(csm).Keys ==> order != [] && LastContainerGone()
      ensures order != [] && old(LastContainerGone()) ==> !ok && csm == old(csm) && history == old(history)
      ensures ok <==> order != [] && works && AllDeletable(services, old(containers), old(csm), stops, deletes)
    {
      if order == [] {
        return false;
      }
      AwayStarts(order, containers, csm, stops, deletes);
      hide RunningServices, OwnContainers, Closed, IsStartOrder, Deletable, AllDeletable, CanDeleteFrom, GoneFrom;
      NoneGone(order, containers, csm, Now());
      var i := |order| - 1;
      while i >= 0
        invariant -1 <= i < |order|
        invariant CanDeleteFrom(order, i, containers, old(csm), csm, stops, deletes)
        invariant |old(history)| <= |history| && containers == old(containers)
        invariant Closed(services, Now()) && ClosedSince(|old(history)|)
        invariant GoneFrom(order, i, containers, csm, Now())
        invariant i == |order| - 1 ==> csm == old(csm) && history == old(history)
        invariant i < |order| - 1 ==> !old(LastContainerGone())
      {
        AwayStep(services, order, i, containers, old(csm), csm, stops, deletes);
        GoneStep(order, i, containers, csm, Now());
        ok := DeleteService(i, stops, deletes);
        if !ok {
          return;
        }
        i := i - 1;
      }
      AllGone(services, order, containers, csm, Now());
      AwayEnds(services, order, containers, old(csm), csm, stops, deletes);
      if !works {
        return false;
      }
      NoContainersNoneRuns(services, csm);
      containers := map[];
      ok := true;
    }

    predicate LastContainerGone()
      requires order != []
      reads this
    {
      order[|order| - 1] !in containers || containers[order[|order| - 1]] !in csm
    }

    // ----- creating -----

    /** Creates the container of a service; the addresses of its dependencies are looked up
        by their container ids, so these must be there. The id is fresh. */
    method CreateMember(serviceName: string, ghost have: map<string, string>, made: Option<string>)
      returns (id: Option<string>)
      requires serviceName in services && forall d | d in services[serviceName] :: d in have
      requires made.Some? ==> made.value !in csm && made.value !in have.Values
      modifies this`csm
      ensures id == made
      ensures csm == if made.Some? then old(csm)[made.value := Created] else old(csm)
    {
      if made.Some? {
        csm := csm[made.value := Created];
      }
      return made;
    }

    /** Creates the containers that are missing, in order, each after its dependencies, under ids
        that are new. It succeeds exactly if all of them can be made and recorded. A failure
        takes back everything this call recorded; what it could not delete stays in the
        container store under ids the bottle does not know. A service with a record is passed
        over even if its container is gone, so that a success leaves it without one. */
    method Create(makes: string -> Option<string>, stores: string -> bool, deletes: string -> bool) returns (ok: bool)
      requires Valid()
      requires NewIds(makes, containers, csm)
      modifies this`containers, this`csm, this`history
      ensures Valid()
      ensures ok ==> (forall s | s in services :: s in containers)
                     && (forall s | s in old(containers) :: s in containers && containers[s] == old(containers)[s])
      ensures ok ==> forall s | s in services ::
                containers[s] !in csm <==> s in old(containers) && old(containers)[s] !in old(csm)
      ensures ok ==> forall s | s in services && s !in old(containers) ::
                makes(s) == Some(containers[s]) && csm[containers[s]] == Created
      ensures ok <==> order != [] && forall s | s in services && s !in old(containers) :: makes(s).Some? && stores(s)
      ensures !ok ==> containers == old(containers)
      ensures !ok ==> forall id | id in csm && id !in old(csm) :: !deletes(id)
      ensures forall id | id in old(csm) :: id in csm && csm[id] == old(csm)[id]
      ensures Now() == old(Now())
    {
      if order == [] {
        return false;
      }
      ghost var c0, m0 := containers, csm;
      var have := containers;
      var created: seq<string> := [];
      MidwayStarts(c0, m0);
      AskedStarts(c0, makes, stores);
      hide Midway, RunningServices, OwnContainers, Asked, NewIds, HasUpTo, Forget;
      for i := 0 to |order|
        invariant have == containers && Midway(services, c0, m0, have, csm, created)
        invariant Asked(c0, have, created, makes, stores)
        invariant HasUpTo(order, i, have)
      {
        var serviceName := order[i];
        HasNext(services, order, i, have);
        if serviceName in have {
          continue;
        }
        ghost var m := csm;
        NotYet(services, c0, m0, have, csm, created, makes, stores, serviceName);
        var id := CreateMember(serviceName, have, makes(serviceName));
        if id.None? {
          RollbackCreated(created, have, deletes);
          MidwayRollback(services, c0, m0, have, m, created, csm);
          LeftOver(services, c0, m0, have, m, created, csm, deletes);
          return false;
        }
        MidwayStep(services, c0, m0, have, m, created, serviceName, id.value);
        AskedNext(c0, have, created, makes, stores, serviceName);
        have := have[serviceName := id.value];
        created := created + [id.value];
        if !stores(serviceName) {
          m := csm;
          RollbackCreated(created, have, deletes);
          MidwayRollback(services, c0, m0, have, m, created, csm);
          LeftOver(services, c0, m0, have, m, created, csm, deletes);
          return false;
        }
        containers := have;
      }
      HasAll(services, order, have);
      MidwayEnds(services, c0, m0, have, csm, created);
      AskedEnds(c0, have, created, makes, stores);
      ok := true;
    }

    /** Deletes what was created, newest first, whether that works or not, and stores the
        container map without it. */
    method RollbackCreated(created: seq<string>, have: map<string, string>, deletes: string -> bool)
      modifies this`containers, this`csm, this`history
      ensures containers == Forget(have, created)
      ensures forall id | id in old(csm) && id !in created :: id in csm && csm[id] == old(csm)[id]
      ensures forall id | id in csm :: id in old(csm) && csm[id] == old(csm)[id]
      ensures forall id | id in created && id in csm :: csm[id].Running? || !deletes(id)
    {
      var i := |created| - 1;
      while i >= 0
        invariant -1 <= i < |created|
        invariant forall id | id in old(csm) && id !in created :: id in csm && csm[id] == old(csm)[id]
        invariant forall id | id in csm :: id in old(csm) && csm[id] == old(csm)[id]
        invariant forall k | i < k < |created| && created[k] in csm :: csm[created[k]].Running? || !deletes(created[k])
      {
        var _ := DeleteContainer(created[i], deletes(created[i]));
        i := i - 1;
      }
      containers := map s | s in have && have[s] !in created :: have[s];
    }
  }

  function Forget(have: map<string, string>, created: seq<string>): map<string, string> {
    map s | s in have && have[s] !in created :: have[s]
  }

  /** `have` is the old map and one new service for every created id. */
  ghost predicate Grown(before: map<string, string>, have: map<string, string>, created: seq<string>) {
    && (forall s | s in before :: s in have && have[s] == before[s] && before[s] !in created)
    && (forall s | s in have && s !in before :: have[s] in created)
  }

  /** In the middle of `Create`, which began with the record `c0` and the containers `m0`. */
  ghost predicate Midway(services: Services, c0: map<string, string>, m0: map<string, ContainerState>,
                         have: map<string, string>, m: map<string, ContainerState>, created: seq<string>) {
    && OwnContainers(have) && Grown(c0, have, created)
    && (forall s | s in have && s !in c0 :: have[s] in m && m[have[s]].Created?)
    && (forall id | id in m0 :: id in m && m[id] == m0[id])
    && (forall id | id in created :: id in m && id !in m0 && m[id].Created?)
    && (forall id | id in m :: id in m0 || id in created)
  }

  /** What was made is what the runtime gave for the services that had no record, and has been
      recorded. */
  ghost predicate Asked(c0: map<string, string>, have: map<string, string>, created: seq<string>,
                        makes: string -> Option<string>, stores: string -> bool) {
    && (forall s | s in have && s !in c0 :: makes(s) == Some(have[s]) && stores(s))
    && (forall id | id in created :: exists s :: s in have && s !in c0 && have[s] == id)
  }

  /** The runtime gives every container an id of its own that nobody has yet. */
  ghost predicate NewIds(makes: string -> Option<string>, containers: map<string, string>,
      csm: map<string, ContainerState>)
  {
    && (forall s | makes(s).Some? :: makes(s).value !in csm && makes(s).value !in containers.Values)
    && (forall s, t | makes(s).Some? && makes(s) == makes(t) :: s == t)
  }

  ghost predicate HasUpTo(order: seq<string>, i: nat, have: map<string, string>)
    requires i <= |order|
  {
    forall k | 0 <= k < i :: order[k] in have
  }

  lemma HasNext(services: Services, order: seq<string>, i: nat, have: map<string, string>)
    requires IsStartOrder(services, order) && i < |order| && HasUpTo(order, i, have)
    ensures order[i] in services && forall d | d in services[order[i]] :: d in have
    ensures forall h: map<string, string> | have.Keys <= h.Keys && order[i] in h :: HasUpTo(order, i + 1, h)
  {
    assert order[i] in order;
    assert forall d | d in services[order[i]] :: d in order[..i];
  }

  lemma HasAll(services: Services, order: seq<string>, have: map<string, string>)
    requires IsStartOrder(services, order) && HasUpTo(order, |order|, have)
    ensures forall s | s in services :: s in have
  {
    assert forall s | s in services :: s in order;
  }

  lemma AskedStarts(c0: map<string, string>, makes: string -> Option<string>, stores: string -> bool)
    ensures Asked(c0, c0, [], makes, stores)
  {
  }

  lemma AskedNext(c0: map<string, string>, have: map<string, string>, created: seq<string>,
                  makes: string -> Option<string>, stores: string -> bool, s: string)
    requires Asked(c0, have, created, makes, stores) && s !in have && makes(s).Some? && s !in c0
    ensures stores(s) ==> Asked(c0, have[s := makes(s).value], created + [makes(s).value], makes, stores)
  {
    var have', id := have[s := makes(s).value], makes(s).value;
    forall x | x in created + [id] ensures exists t :: t in have' && t !in c0 && have'[t] == x {
      if x in created {
        var t :| t in have && t !in c0 && have[t] == x;
        assert have'[t] == x;
      } else {
        assert have'[s] == x;
      }
    }
  }

  lemma AskedEnds(c0: map<string, string>, have: map<string, string>, created: seq<string>,
                  makes: string -> Option<string>, stores: string -> bool)
    requires Asked(c0, have, created, makes, stores)
    ensures forall s | s in have && s !in c0 :: makes(s) == Some(have[s]) && stores(s)
  {
  }

  /** A service whose turn it is has no record, and what the runtime gives for it is new. */
  lemma NotYet(services: Services, c0: map<string, string>, m0: map<string, ContainerState>, have: map<string, string>,
               m: map<string, ContainerState>, created: seq<string>, makes: string -> Option<string>,
               stores: string -> bool, s: string)
    requires Midway(services, c0, m0, have, m, created) && Asked(c0, have, created, makes, stores) && s !in have
    requires NewIds(makes, c0, m0)
    ensures s !in c0
    ensures makes(s).Some? ==> makes(s).value !in m && makes(s).value !in have.Values
  {
  }

  lemma LeftOver(services: Services, c0: map<string, string>, m0: map<string, ContainerState>, have: map<string,
      string>,
                 m: map<string, ContainerState>, created: seq<string>, m1: map<string, ContainerState>,
                 deletes: string -> bool)
    requires Midway(services, c0, m0, have, m, created)
    requires forall id | id in m1 :: id in m && m1[id] == m[id]
    requires forall id | id in created && id in m1 :: m1[id].Running? || !deletes(id)
    ensures forall id | id in m1 && id !in m0 :: !deletes(id)
  {
    assert forall id | id in m1 && id !in m0 :: id in created;
  }

  lemma MidwayStarts(c0: map<string, string>, m0: map<string, ContainerState>)
    requires OwnContainers(c0)
    ensures forall services :: Midway(services, c0, m0, c0, m0, [])
  {
  }

  lemma MidwayStep(services: Services, c0: map<string, string>, m0: map<string, ContainerState>,
                   have: map<string, string>, m: map<string, ContainerState>, created: seq<string>, s: string,
                       id: string)
    requires Midway(services, c0, m0, have, m, created) && s !in have && id !in m && id !in have.Values
    ensures Midway(services, c0, m0, have[s := id], m[id := Created], created + [id])
  {
    forall t | t in have ensures have[t] != id {
      assert have[t] in have.Values;
    }
  }

  lemma MidwayRollback(services: Services, c0: map<string, string>, m0: map<string, ContainerState>,
                       have: map<string, string>, m: map<string, ContainerState>, created: seq<string>,
                           m1: map<string, ContainerState>)
    requires Midway(services, c0, m0, have, m, created)
    requires forall id | id in m && id !in created :: id in m1 && m1[id] == m[id]
    requires forall id | id in m1 :: id in m
    ensures Forget(have, created) == c0 && OwnContainers(c0)
    ensures forall id | id in m0 :: id in m1 && m1[id] == m0[id]
    ensures RunningServices(services, c0, m1) == RunningServices(services, c0, m0)
  {
    assert forall s | s in c0 :: have[s] == c0[s];
  }

  lemma MidwayEnds(services: Services, c0: map<string, string>, m0: map<string, ContainerState>,
                   have: map<string, string>, m: map<string, ContainerState>, created: seq<string>)
    requires Midway(services, c0, m0, have, m, created)
    ensures OwnContainers(have)
    ensures forall s | s in have :: have[s] !in m <==> s in c0 && c0[s] !in m0
    ensures forall s | s in c0 :: s in have && have[s] == c0[s]
    ensures forall s | s in have && s !in c0 :: m[have[s]] == Created
    ensures forall id | id in m0 :: id in m && m[id] == m0[id]
    ensures RunningServices(services, have, m) == RunningServices(services, c0, m0)
  {
    assert forall s | s in c0 :: have[s] == c0[s];
  }

  // ----- one service at a time -----

  lemma OrderIsAll(services: Services, order: seq<string>)
    requires IsStartOrder(services, order)
    ensures forall s :: s in services <==> s in order
  {
  }

  /** What happens to the container of service `i` leaves those of the others alone. */
  lemma RestStays(services: Services, order: seq<string>, i: nat, lo: nat, hi: nat, containers: map<string, string>,
      csm: map<string, ContainerState>, csm': map<string, ContainerState>)
    requires IsStartOrder(services, order) && OwnContainers(containers) && i < |order| && hi <= |order|
    requires lo > i || hi <= i
    requires SameBetween(order, lo, hi, containers, csm, csm')
    ensures order[i] in containers ==>
              && SameBetween(order, lo, hi, containers, csm, csm'[containers[order[i]] := Running])
              && SameBetween(order, lo, hi, containers, csm, csm'[containers[order[i]] := Stopped])
              && SameBetween(order, lo, hi, containers, csm, csm' - {containers[order[i]]})
  {
    forall k | lo <= k < hi ensures order[k] != order[i] {
    }
  }

  // ----- what succeeds -----

  predicate AllStartable(services: Services, containers: map<string, string>, csm: map<string, ContainerState>,
      starts: string -> bool)
  {
    forall s | s in services :: Startable(containers, csm, starts, s)
  }

  predicate AllStoppable(services: Services, containers: map<string, string>, csm: map<string, ContainerState>,
      stops: string -> bool)
  {
    forall s | s in services :: Stoppable(containers, csm, stops, s)
  }

  predicate AllDeletable(services: Services, containers: map<string, string>, csm: map<string, ContainerState>,
      stops: string -> bool, deletes: string -> bool)
  {
    forall s | s in services :: Deletable(containers, csm, stops, deletes, s)
  }

  /** The services before `i` could be started; the containers of the rest are as at the start. */
  ghost predicate CanStartUpTo(order: seq<string>, i: int, containers: map<string, string>,
      csm: map<string, ContainerState>, csm': map<string, ContainerState>, starts: string -> bool)
  {
    && 0 <= i <= |order|
    && (forall k | 0 <= k < i :: Startable(containers, csm, starts, order[k]))
    && SameBetween(order, i, |order|, containers, csm, csm')
  }

  lemma UpStarts(order: seq<string>, containers: map<string, string>, csm: map<string, ContainerState>,
      starts: string -> bool)
    ensures CanStartUpTo(order, 0, containers, csm, csm, starts)
  {
  }

  lemma UpStep(services: Services, order: seq<string>, i: nat, containers: map<string, string>,
      csm: map<string, ContainerState>, csm': map<string, ContainerState>, starts: string -> bool)
    requires IsStartOrder(services, order) && OwnContainers(containers) && i < |order|
    requires CanStartUpTo(order, i, containers, csm, csm', starts)
    ensures var s := order[i];
            if s in containers && containers[s] in csm' &&
               (csm'[containers[s]].Created? || csm'[containers[s]].Stopped?) && starts(containers[s])
            then CanStartUpTo(order, i + 1, containers, csm, csm'[containers[s] := Running], starts)
            else !AllStartable(services, containers, csm, starts)
  {
    RestStays(services, order, i, i + 1, |order|, containers, csm, csm');
    assert order[i] in order;
    assert order[i] in containers ==> SameContainer(csm, csm', containers[order[i]]);
    hide SameBetween, SameContainer;
    SameOne(csm, csm', containers, order[i]);
  }

  lemma SameOne(csm: map<string, ContainerState>, csm': map<string, ContainerState>, containers: map<string, string>,
      s: string)
    ensures s in containers && SameContainer(csm, csm', containers[s]) ==>
              (containers[s] in csm <==> containers[s] in csm') &&
              (containers[s] in csm && containers[s] in csm' ==> csm[containers[s]] == csm'[containers[s]])
  {
  }

  lemma UpEnds(services: Services, order: seq<string>, containers: map<string, string>, csm: map<string,
      ContainerState>,
      csm': map<string, ContainerState>, starts: string -> bool)
    requires IsStartOrder(services, order) && CanStartUpTo(order, |order|, containers, csm, csm', starts)
    ensures AllStartable(services, containers, csm, starts)
  {
    forall s | s in services ensures Startable(containers, csm, starts, s) {
      assert s in order;
    }
  }

  /** The services after `i` could be stopped; the containers of the rest are as at the start. */
  ghost predicate CanStopFrom(order: seq<string>, i: int, containers: map<string, string>,
      csm: map<string, ContainerState>, csm': map<string, ContainerState>, stops: string -> bool)
  {
    && -1 <= i < |order|
    && (forall k | i < k < |order| :: Stoppable(containers, csm, stops, order[k]))
    && SameBetween(order, 0, i + 1, containers, csm, csm')
  }

  lemma DownStarts(order: seq<string>, containers: map<string, string>, csm: map<string, ContainerState>,
      stops: string -> bool)
    ensures CanStopFrom(order, |order| - 1, containers, csm, csm, stops)
  {
  }

  lemma DownStep(services: Services, order: seq<string>, i: nat, containers: map<string, string>,
      csm: map<string, ContainerState>, csm': map<string, ContainerState>, stops: string -> bool)
    requires IsStartOrder(services, order) && OwnContainers(containers) && i < |order|
    requires CanStopFrom(order, i, containers, csm, csm', stops)
    ensures var s := order[i];
            if s !in containers || containers[s] !in csm' then !AllStoppable(services, containers, csm, stops)
            else if !csm'[containers[s]].Running? then CanStopFrom(order, i - 1, containers, csm, csm', stops)
            else if stops(containers[s])
            then CanStopFrom(order, i - 1, containers, csm, csm'[containers[s] := Stopped], stops)
            else !AllStoppable(services, containers, csm, stops)
  {
    RestStays(services, order, i, 0, i, containers, csm, csm');
    assert order[i] in order;
    assert order[i] in containers ==> SameContainer(csm, csm', containers[order[i]]);
    FewerBetween(order, i, containers, csm, csm');
    hide SameBetween, SameContainer;
    SameOne(csm, csm', containers, order[i]);
  }

  lemma FewerBetween(order: seq<string>, i: nat, containers: map<string, string>, csm: map<string, ContainerState>,
      csm': map<string, ContainerState>)
    requires i < |order| && SameBetween(order, 0, i + 1, containers, csm, csm')
    ensures SameBetween(order, 0, i, containers, csm, csm')
  {
  }

  lemma DownEnds(services: Services, order: seq<string>, containers: map<string, string>,
      csm: map<string, ContainerState>, csm': map<string, ContainerState>, stops: string -> bool)
    requires IsStartOrder(services, order) && CanStopFrom(order, -1, containers, csm, csm', stops)
    ensures AllStoppable(services, containers, csm, stops)
  {
    forall s | s in services ensures Stoppable(containers, csm, stops, s) {
      assert s in order;
    }
  }

  /** The services after `i` could be deleted; the containers of the rest are as at the start. */
  ghost predicate CanDeleteFrom(order: seq<string>, i: int, containers: map<string, string>,
      csm: map<string, ContainerState>, csm': map<string, ContainerState>, stops: string -> bool,
      deletes: string -> bool)
  {
    && -1 <= i < |order|
    && (forall k | i < k < |order| :: Deletable(containers, csm, stops, deletes, order[k]))
    && SameBetween(order, 0, i + 1, containers, csm, csm')
  }

  lemma AwayStarts(order: seq<string>, containers: map<string, string>, csm: map<string, ContainerState>,
      stops: string -> bool, deletes: string -> bool)
    ensures CanDeleteFrom(order, |order| - 1, containers, csm, csm, stops, deletes)
  {
  }

  lemma AwayStep(services: Services, order: seq<string>, i: nat, containers: map<string, string>,
      csm: map<string, ContainerState>, csm': map<string, ContainerState>, stops: string -> bool,
      deletes: string -> bool)
    requires IsStartOrder(services, order) && OwnContainers(containers) && i < |order|
    requires CanDeleteFrom(order, i, containers, csm, csm', stops, deletes)
    ensures var s := order[i];
            if Deletable(containers, csm', stops, deletes, s)
            then CanDeleteFrom(order, i - 1, containers, csm, csm' - {containers[s]}, stops, deletes)
            else !AllDeletable(services, containers, csm, stops, deletes)
  {
    RestStays(services, order, i, 0, i, containers, csm, csm');
    assert order[i] in order;
    assert order[i] in containers ==> SameContainer(csm, csm', containers[order[i]]);
    hide SameBetween, SameContainer;
    SameOne(csm, csm', containers, order[i]);
  }

  lemma AwayEnds(services: Services, order: seq<string>, containers: map<string, string>,
      csm: map<string, ContainerState>, csm': map<string, ContainerState>, stops: string -> bool,
      deletes: string -> bool)
    requires IsStartOrder(services, order) && CanDeleteFrom(order, -1, containers, csm, csm', stops, deletes)
    ensures AllDeletable(services, containers, csm, stops, deletes)
  {
    forall s | s in services ensures Deletable(containers, csm, stops, deletes, s) {
      assert s in order;
    }
  }

  // ----- the running set -----

  lemma RunningAreServices(services: Services, containers: map<string, string>, csm: map<string, ContainerState>)
    ensures RunningServices(services, containers, csm) <= services.Keys
  {
  }

  lemma InOrder(services: Services, order: seq<string>, i: nat)
    requires IsStartOrder(services, order) && i < |order|
    ensures order[i] in services
  {
    assert order[i] in order;
  }

  /** The containers of the services after `i` are gone. */
  ghost predicate GoneFrom(order: seq<string>, i: int, containers: map<string, string>, csm: map<string,
      ContainerState>,
      running: set<string>)
  {
    forall k | 0 <= k < |order| && i < k :: order[k] !in running && order[k] in containers &&
        containers[order[k]] !in csm
  }

  lemma NoneGone(order: seq<string>, containers: map<string, string>, csm: map<string, ContainerState>,
      running: set<string>)
    ensures GoneFrom(order, |order| - 1, containers, csm, running)
  {
  }

  lemma GoneStep(order: seq<string>, i: nat, containers: map<string, string>, csm: map<string, ContainerState>,
      running: set<string>)
    requires i < |order| && GoneFrom(order, i, containers, csm, running)
    ensures forall k | i < k < |order| :: order[k] !in running
    ensures forall later: set<string> | later <= running && order[i] !in later && order[i] in containers ::
              GoneFrom(order, i - 1, containers, csm - {containers[order[i]]}, later)
  {
  }

  lemma AllGone(services: Services, order: seq<string>, containers: map<string, string>, csm: map<string,
      ContainerState>, running: set<string>)
    requires IsStartOrder(services, order) && GoneFrom(order, -1, containers, csm, running)
    ensures forall s | s in services :: s in containers && containers[s] !in csm
  {
    assert forall s | s in services :: s in order;
  }

  /** What one change of a service's container does to the running set. */
  lemma AfterChange(services: Services, containers: map<string, string>, csm: map<string, ContainerState>, s: string)
    requires OwnContainers(containers) && s in services && s in containers
    ensures var id, running := containers[s], RunningServices(services, containers, csm);
            && RunningServices(services, containers, csm[id := Running]) == running + {s}
            && RunningServices(services, containers, csm[id := Stopped]) == running - {s}
            && RunningServices(services, containers, csm - {id}) == running - {s}
            && (id in csm && !csm[id].Running? ==> running - {s} == running)
  {
  }

  lemma NoContainersNoneRuns(services: Services, csm: map<string, ContainerState>)
    ensures RunningServices(services, map[], csm) == {} && Closed(services, {}) && OwnContainers(map[])
  {
  }

  /** Stopping service `i` once none after it runs keeps the set closed. */
  lemma StoppedIsClosed(services: Services, order: seq<string>, i: nat, running: set<string>)
    requires IsStartOrder(services, order) && i < |order| && Closed(services, running)
    requires forall k | i < k < |order| :: order[k] !in running
    ensures Closed(services, running - {order[i]})
  {
    forall s, d | s in running - {order[i]} && s in services && d in services[s] ensures d in running && d != order[i] {
      var p :| 0 <= p < |order| && order[p] == s;
      assert d in order[..p];
      var q :| 0 <= q < p && order[q] == d;
    }
  }

  lemma NoneRuns(services: Services, order: seq<string>, running: set<string>)
    requires IsStartOrder(services, order) && running <= services.Keys
    requires forall k | 0 <= k < |order| :: order[k] !in running
    ensures running == {}
  {
    forall s | s in services ensures s !in running {
      assert s in order;
    }
  }

  /** Starting service `i` of the order once the ones before it run keeps the set closed. */
  lemma StartedIsClosed(services: Services, order: seq<string>, i: nat, running: set<string>)
    requires IsStartOrder(services, order) && i < |order| && Closed(services, running)
    requires forall k | 0 <= k < i :: order[k] in running
    ensures Closed(services, running + {order[i]})
  {
    forall d | d in services[order[i]] ensures d in running {
      var k :| 0 <= k < i && order[k] == d;
    }
  }
}
