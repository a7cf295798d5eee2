/** Creating and deleting a container that is in no pod, with the rollback of a creation that
    fails on the way. */
module ContainerLifecycle {
  import opened Wrappers
  import opened IPv4
  import opened Ipam
  import opened IpamManager

  /** A published port as the user wrote it: iptables also knows ports by service names. */
  datatype PortText = Number(n: nat) | Named(name: string)

  datatype Publish = Publish(host: PortText, container: PortText, protocol: string)

  /** The iptables rules of one published port, which come and go together. */
  datatype Rule = Rule(addr: u32, publish: Publish)

  datatype Info = Info(name: string)

  /** The outside step that fails, if any; `RuleFault(k)` is the rules of the k-th port. */
  datatype Fault =
    | NoFault
    | ImageFault
    | DirectoryFault
    | EtcFault
    | CgroupFault
    | SpecFault
    | RuleFault(k: nat)
    | RuntimeFault

  /** A number that does not parse counts as zero. */
  function Atoi(t: PortText): int {
    if t.Number? then t.n else 0
  }

  function Recorded(p: Publish): ForwardInfo {
    ForwardInfo(Atoi(p.host), Atoi(p.container), p.protocol)
  }

  function RecordedAll(ports: seq<Publish>): seq<ForwardInfo> {
    seq(|ports|, i requires 0 <= i < |ports| => Recorded(ports[i]))
  }

  function RulesOf(a: u32, ports: seq<Publish>): multiset<Rule> {
    if ports == [] then multiset{} else RulesOf(a, ports[..|ports| - 1]) + multiset{Rule(a, ports[|ports| - 1])}
  }

  predicate Numeric(p: Publish) {
    p.host.Number? && p.container.Number?
  }

  /** No port is the number zero. */
  predicate NoZero(p: Publish) {
    p.host != Number(0) && p.container != Number(0)
  }

  // ----- a container among the pools -----

  /** The pools are as before, but for the container's address and its forwards. */
  ghost predicate Added(before: seq<Pool>, pools: seq<Pool>, id: string, i: nat, a: u32, forwards: seq<ForwardInfo>) {
    && i < |before| && a !in before[i].allocations && !Known(before, id) && OneAddressEach(before)
    && pools == Assign(before, i, a, Allocation(id, "rd_" + id, forwards))
  }

  lemma AddedHolds(before: seq<Pool>, pools: seq<Pool>, id: string, i: nat, a: u32, forwards: seq<ForwardInfo>)
    requires Added(before, pools, id, i, a, forwards)
    ensures forall j, b :: Holds(pools, j, b, id) <==> j == i && b == a
    ensures Known(pools, id) && OneAddressEach(pools)
  {
    assert Holds(pools, i, a, id);
    forall j, b | Holds(pools, j, b, id) ensures j == i && b == a {
      assert j != i || b != a ==> Holds(before, j, b, id);
    }
    forall j, b, k, c, cid | Holds(pools, j, b, cid) && Holds(pools, k, c, cid) ensures j == k && b == c {
      assert cid != id ==> Holds(before, j, b, cid) && Holds(before, k, c, cid);
    }
  }

  lemma AllocatedIsAdded(runtime: Cidr, before: seq<Pool>, pools: seq<Pool>, id: string, bridge: string, a: u32)
    requires ValidPools(runtime, before) && OneAddressEach(before) && !Known(before, id)
    requires Step(runtime, before, Allocated(id, bridge, a), pools)
    ensures Added(before, pools, id, PoolOf(before, bridge), a, [])
  {
    hide ValidPools, Known;
  }

  lemma ForwardIsAdded(runtime: Cidr, before: seq<Pool>, pools: seq<Pool>, pools': seq<Pool>, id: string, i: nat,
      a: u32,
                       forwards: seq<ForwardInfo>, f: ForwardInfo)
    requires ValidPools(runtime, pools) && Added(before, pools, id, i, a, forwards)
    requires Step(runtime, pools, ForwardSet(id, f), pools')
    ensures Added(before, pools', id, i, a, forwards + [f])
  {
    hide ValidPools, Known, OneAddressEach, Holds;
    AddedHolds(before, pools, id, i, a, forwards);
    assert pools' == Assign(pools, i, a, Allocation(id, "rd_" + id, forwards + [f]));
    assert pools[i].allocations[a := Allocation(id, "rd_" + id, forwards + [f])]
        == before[i].allocations[a := Allocation(id, "rd_" + id, forwards + [f])];
  }

  lemma ReleasedIsBefore(runtime: Cidr, before: seq<Pool>, pools: seq<Pool>, pools': seq<Pool>, id: string, i: nat,
      a: u32,
                         forwards: seq<ForwardInfo>)
    requires ValidPools(runtime, pools) && Added(before, pools, id, i, a, forwards)
    requires Step(runtime, pools, Released(id), pools')
    ensures pools' == before
  {
    hide ValidPools, Known, OneAddressEach, Holds;
    AddedHolds(before, pools, id, i, a, forwards);
    assert pools' == Unassign(pools, i, a);
    assert pools'[i].allocations == before[i].allocations;
  }

  lemma RulesNext(a: u32, ports: seq<Publish>, k: nat)
    requires k < |ports|
    ensures RulesOf(a, ports[..k + 1]) == RulesOf(a, ports[..k]) + multiset{Rule(a, ports[k])}
    ensures RecordedAll(ports[..k + 1]) == RecordedAll(ports[..k]) + [Recorded(ports[k])]
  {
    assert ports[..k + 1][..k] == ports[..k];
  }

  /** The ports that were published are the first of those asked for. */
  predicate FirstOf(made: seq<Publish>, ports: seq<Option<Publish>>) {
    |made| <= |ports| && forall k | 0 <= k < |made| :: ports[k] == Some(made[k])
  }

  /** The publishing of ports stops at the first one that is malformed or whose rules fail. */
  predicate StopsAt(ports: seq<Option<Publish>>, fault: Fault, n: nat) {
    && n <= |ports|
    && (forall k | 0 <= k < n :: ports[k].Some? && fault != RuleFault(k))
    && (n == |ports| || ports[n].None? || fault == RuleFault(n))
  }

  /** Nothing fails before the first rule would be written. */
  ghost predicate ComesToRules(containers: map<string, Info>, pools: seq<Pool>, name: string, bridge: string,
      fault: Fault) {
    NameFree(containers, name) && HasRoom(pools, bridge) && ReachesRules(fault)
  }

  /** The image, the directories, the files under etc, the cgroup and the specification all come
      before the rules; only the rules and the runtime come later. */
  predicate ReachesRules(fault: Fault) {
    fault.NoFault? || fault.RuleFault? || fault.RuntimeFault?
  }

  predicate Wellformed(ports: seq<Option<Publish>>) {
    forall p | p in ports :: p.Some?
  }

  /** What cleaning up does to the rules of a container. */
  ghost predicate Cleaned(pools: seq<Pool>, id: string, rules: multiset<Rule>, ok: bool, rules': multiset<Rule>) {
    && (!Known(pools, id) ==> ok && rules' == rules)
    && forall j, b | Holds(pools, j, b, id) :: TakenBack(rules, b, pools[j].allocations[b].forwards) == (ok, rules')
  }

  lemma NothingToClean(pools: seq<Pool>, id: string, rules: multiset<Rule>)
    requires forall j, b | Holds(pools, j, b, id) :: pools[j].allocations[b].forwards == []
    ensures Cleaned(pools, id, rules, true, rules)
  {
  }

  lemma CleanedAt(pools: seq<Pool>, id: string, i: int, a: u32, rules: multiset<Rule>, ok: bool, rules': multiset<Rule>)
    requires OneAddressEach(pools) && Holds(pools, i, a, id)
    requires TakenBack(rules, a, pools[i].allocations[a].forwards) == (ok, rules')
    ensures Cleaned(pools, id, rules, ok, rules')
  {
    hide TakenBack;
  }

  class ContainerService {
    const ipam: Manager
    var containers: map<string, Info>
    var rules: multiset<Rule>

    ghost predicate Valid()
      reads this, ipam
    {
      ipam.Valid() && OneAddressEach(ipam.pools)
    }

    constructor (ipam: Manager)
      requires ipam.Valid() && OneAddressEach(ipam.pools)
      ensures Valid() && this.ipam == ipam && containers == map[] && rules == multiset{}
    {
      this.ipam := ipam;
      containers := map[];
      rules := multiset{};
    }

    method IsNameAlreadyUsed(name: string) returns (used: bool)
      ensures used <==> exists id | id in containers :: containers[id].name == name
    {
      var todo := containers.Keys;
      while todo != {}
        invariant todo <= containers.Keys
        invariant forall id | id in containers && id !in todo :: containers[id].name != name
      {
        var id :| id in todo;
        if containers[id].name == name {
          return true;
        }
        todo := todo - {id};
      }
      return false;
    }

    /** Publishes the ports one by one, remembering each in the address store; `None` is a
        port text with the wrong number of colons. */
    method SetupForwardRule(id: string, ports: seq<Option<Publish>>, fault: Fault,
                            ghost before: seq<Pool>, ghost i: nat, ghost a: u32) returns (ok: bool,
                                ghost made: seq<Publish>)
      requires Valid() && Added(before, ipam.pools, id, i, a, [])
      modifies this`rules, ipam`pools
      ensures Valid() && Added(before, ipam.pools, id, i, a, RecordedAll(made))
      ensures rules == old(rules) + RulesOf(a, made)
      ensures FirstOf(made, ports) && StopsAt(ports, fault, |made|)
      ensures ok <==> StopsAt(ports, fault, |ports|)
    {
      hide Added, OneAddressEach, Holds, Known, RulesOf, RecordedAll, ValidPools;
      made := [];
      NoRulesYet(a);
      var k := 0;
      while k < |ports|
        invariant 0 <= k <= |ports| && |made| == k && FirstOf(made, ports)
        invariant forall j | 0 <= j < k :: fault != RuleFault(j)
        invariant Valid() && Added(before, ipam.pools, id, i, a, RecordedAll(made))
        invariant rules == old(rules) + RulesOf(a, made)
      {
        if ports[k].None? {
          return false, made;
        }
        var p := ports[k].value;
        AddedHolds(before, ipam.pools, id, i, a, RecordedAll(made));
        var addr := ipam.GetContainerAddress(id);
        if fault == RuleFault(k) {
          return false, made;
        }
        rules := rules + multiset{Rule(addr.value.1, p)};
        ghost var pools := ipam.pools;
        var err := ipam.SetForwardInfo(id, Atoi(p.host), Atoi(p.container), p.protocol);
        ForwardIsAdded(ipam.runtime, before, pools, ipam.pools, id, i, a, RecordedAll(made), Recorded(p));
        AddedHolds(before, ipam.pools, id, i, a, RecordedAll(made) + [Recorded(p)]);
        assert (made + [p])[..k] == made && (made + [p])[..k + 1] == made + [p];
        RulesNext(a, made + [p], k);
        made := made + [p];
        k := k + 1;
      }
      return true, made;
    }

    /** Takes back the rules of every forward that the address store still knows. */
    method CleanupForwardRules(id: string) returns (ok: bool)
      requires Valid()
      modifies this`rules
      ensures Cleaned(ipam.pools, id, old(rules), ok, rules)
    {
      hide OneAddressEach, Holds, Known, ValidPools, Cleaned, AllForwards;
      var forwards := ipam.GetForwardInfo(id);
      if forwards == [] {
        NothingToClean(ipam.pools, id, rules);
        return true;
      }
      var addr := ipam.GetContainerAddress(id);
      var b := addr.value.1;
      ghost var i :| Holds(ipam.pools, i, b, id);
      InPools(ipam.pools, i, b, id);
      var k := 0;
      assert forwards[..0] == [];
      while k < |forwards|
        invariant 0 <= k <= |forwards|
        invariant TakenBack(old(rules), b, forwards[..k]) == (true, rules)
      {
        assert forwards[..k + 1][..k] == forwards[..k];
        var f := forwards[k];
        var rule := Rule(b, Publish(TextOf(f.hostPort), TextOf(f.containerPort), f.protocol));
        if rule !in rules {
          StaysFailed(old(rules), b, forwards, k + 1);
          CleanedAt(ipam.pools, id, i, b, old(rules), false, rules);
          return false;
        }
        rules := rules - multiset{rule};
        k := k + 1;
      }
      assert forwards[..k] == forwards;
      CleanedAt(ipam.pools, id, i, b, old(rules), true, rules);
      return true;
    }

    /** Undoes what the flags say was done. The address goes first, and its forwards with it,
        so that the rules have nothing left to be found by. */
    method Rollback(id: string, hasAddress: bool, stored: bool, forwarded: bool,
                    ghost before: seq<Pool>, ghost i: nat, ghost a: u32, ghost forwards: seq<ForwardInfo>)
      requires Valid() && (if hasAddress then Added(before, ipam.pools, id, i, a, forwards)
              else ipam.pools == before && !Known(before, id))
      modifies this, ipam`pools
      ensures Valid() && ipam.pools == before && (hasAddress || !forwarded ==> rules == old(rules))
      ensures containers == if stored then old(containers) - {id} else old(containers)
    {
      hide OneAddressEach, Added, Holds, Known, ValidPools;
      if hasAddress {
        ghost var pools := ipam.pools;
        AddedHolds(before, pools, id, i, a, forwards);
        ipam.Release(id);
        ReleasedIsBefore(ipam.runtime, before, pools, ipam.pools, id, i, a, forwards);
      }
      if stored {
        containers := containers - {id};
      }
      if forwarded {
        NotAdded(before, ipam.pools, id, i, a, forwards);
        var cleaned := CleanupForwardRules(id);
      }
    }

    /** The part of a creation that comes after the address. */
    method FinishCreate(id: string, name: string, ports: seq<Option<Publish>>, fault: Fault,
                        ghost before: seq<Pool>, ghost i: nat, ghost a: u32)
      returns (ok: bool, ghost made: seq<Publish>)
      requires Valid() && Added(before, ipam.pools, id, i, a, []) && id !in containers && !fault.ImageFault?
      modifies this, ipam`pools
      ensures Valid() && rules == old(rules) + RulesOf(a, made) && FirstOf(made, ports)
      ensures if ReachesRules(fault) then StopsAt(ports, fault, |made|) else made == []
      ensures ok <==> (fault.NoFault? || fault.RuleFault?) && StopsAt(ports, fault, |ports|)
      ensures if ok then containers == old(containers)[id := Info(name)] &&
              Added(before, ipam.pools, id, i, a, RecordedAll(made))
              else containers == old(containers) && ipam.pools == before
    {
      hide OneAddressEach, Added, Holds, Known, ValidPools, RulesOf, RecordedAll, Wellformed;
      made := [];
      NoRulesYet(a);
      containers := containers[id := Info(name)];
      if fault.DirectoryFault? || fault.EtcFault? || fault.CgroupFault? || fault.SpecFault? {
        Rollback(id, true, true, false, before, i, a, []);
        return false, made;
      }
      var published: bool;
      published, made := SetupForwardRule(id, ports, fault, before, i, a);
      if !published {
        Rollback(id, true, true, false, before, i, a, RecordedAll(made));
        return false, made;
      }
      if fault.RuntimeFault? {
        Rollback(id, true, true, true, before, i, a, RecordedAll(made));
        return false, made;
      }
      return true, made;
    }

    /** Creates a container. On any failure the address pools and the container store are
        exactly as they were. The rules of the ports published so far are not taken back, so a
        failure leaves the rules as they were exactly if no port had been published. */
    method Create(id: string, name: string, bridge: string, ports: seq<Option<Publish>>, fault: Fault)
      returns (ok: bool, ghost a: u32, ghost made: seq<Publish>)
      requires Valid() && !Known(ipam.pools, id) && id !in containers
      modifies this, ipam`pools
      ensures Valid() && rules == old(rules) + RulesOf(a, made) && FirstOf(made, ports)
      ensures var begun := ComesToRules(old(containers), old(ipam.pools), name, bridge, fault);
              && (if begun then StopsAt(ports, fault, |made|) && LeastFree(old(ipam.pools), bridge, a) else made == [])
              && (ok <==> begun && (fault.NoFault? || fault.RuleFault?) && StopsAt(ports, fault, |ports|))
              && (!ok ==> (rules == old(rules) <==> !begun || StopsAt(ports, fault, 0)))
      ensures if ok then containers == old(containers)[id := Info(name)]
                         && Added(old(ipam.pools), ipam.pools, id, PoolOf(old(ipam.pools), bridge), a,
                             RecordedAll(made))
              else containers == old(containers) && ipam.pools == old(ipam.pools)
    {
      hide OneAddressEach, Added, LeastFree, Known, Holds, ValidPools, RulesOf, RecordedAll, PoolFree, StopsAt;
      a, made := 0, [];
      NoRulesYet(a);
      ghost var before := ipam.pools;
      var used := IsNameAlreadyUsed(name);
      if used || fault.ImageFault? {
        return false, a, made;
      }
      var addr, err := ipam.Allocate(id, bridge);
      if err.Some? {
        return false, a, made;
      }
      a := addr.value;
      AllocatedIsAdded(ipam.runtime, before, ipam.pools, id, bridge, a);
      AllocatedLeast(ipam.runtime, before, ipam.pools, id, bridge, a);
      AddedHolds(before, ipam.pools, id, PoolOf(before, bridge), a, []);
      ok, made := FinishCreate(id, name, ports, fault, before, PoolOf(before, bridge), a);
      SomeRules(a, made);
      StopsOnce(ports, fault, |made|);
    }

    /** Deletes a container that is not running. The runtime's last hook takes the container
        out of its store. */
    method Delete(id: string) returns (ok: bool)
      requires Valid()
      modifies this, ipam`pools
      ensures Valid()
      ensures id !in old(containers) ==>
              !ok && containers == old(containers) && rules == old(rules) && ipam.pools == old(ipam.pools)
      ensures id in old(containers) ==>
              containers == old(containers) - {id} && Cleaned(old(ipam.pools), id, old(rules), ok, rules)
      ensures if ok then Step(ipam.runtime, old(ipam.pools), Released(id), ipam.pools)
              else ipam.pools == old(ipam.pools)
    {
      hide OneAddressEach, Known, Holds, ValidPools, Cleaned, Step;
      if id !in containers {
        return false;
      }
      containers := containers - {id};
      ok := CleanupForwardRules(id);
      if !ok {
        return false;
      }
      ipam.Release(id);
      return true;
    }

    /** A container that was created can be deleted exactly if the rules that its ports are
        recorded as, where a port by name counts as zero, are all there. Then addresses and
        containers are as they were before, and the rules are exactly if all ports were written
        as numbers; with no port zero around, only such a container can be deleted. */
    method CreateThenDelete(id: string, name: string, bridge: string, ports: seq<Option<Publish>>)
      returns (created: bool, deleted: bool, ghost a: u32, ghost made: seq<Publish>)
      requires Valid() && !Known(ipam.pools, id) && id !in containers
      modifies this, ipam`pools
      ensures Valid() && FirstOf(made, ports)
      ensures created <==> ComesToRules(old(containers), old(ipam.pools), name, bridge, NoFault) && Wellformed(ports)
      ensures created ==>
                && |made| == |ports| && LeastFree(old(ipam.pools), bridge, a)
                && (deleted <==> RulesOf(a, ReadAll(made)) <= old(rules) + RulesOf(a, made))
                && (AllNumeric(made) ==> deleted)
                && ((forall r | r in old(rules) :: NoZero(r.publish)) && (forall p | p in made :: NoZero(p)) &&
                    deleted ==>
                      AllNumeric(made))
      ensures created && deleted ==>
                && ipam.pools == old(ipam.pools) && containers == old(containers)
                && (rules == old(rules) <==> AllNumeric(made))
      ensures created && !deleted ==> Known(ipam.pools, id)
    {
      hide OneAddressEach, Added, LeastFree, Known, Holds, ValidPools, NoZero, Numeric, RulesOf, RecordedAll, ReadAll,
          AllNumeric, Wellformed, Cleaned, Step, ComesToRules, StopsAt;
      deleted := false;
      ghost var before := ipam.pools;
      created, a, made := Create(id, name, bridge, ports, NoFault);
      WellformedStops(ports);
      if created {
        ghost var pools, i, all := ipam.pools, PoolOf(before, bridge), rules;
        StopsAtEnd(ports, |made|);
        AddedHolds(before, pools, id, i, a, RecordedAll(made));
        ComesBack(old(rules), a, made);
        deleted := Delete(id);
        CleanedHere(before, pools, id, i, a, RecordedAll(made), all, deleted, rules);
        if deleted {
          ReleasedIsBefore(ipam.runtime, before, pools, ipam.pools, id, i, a, RecordedAll(made));
        }
      }
    }

    /** After a creation that the runtime refused, the next container on the bridge gets the
        same address, and with it the forwards that were not taken back. */
    method NextInheritsForwards(id: string, name: string, bridge: string, ports: seq<Option<Publish>>, next: string)
      returns (ok: bool, ghost a: u32)
      requires Valid() && !Known(ipam.pools, id) && id !in containers && !Known(ipam.pools, next) && next !in containers
      requires Wellformed(ports) && NameFree(containers, name) && HasRoom(ipam.pools, bridge)
      modifies this, ipam`pools
      ensures Valid() && ok && Added(old(ipam.pools), ipam.pools, next, PoolOf(old(ipam.pools), bridge), a, [])
      ensures forall p | p in ports && p.Some? :: Rule(a, p.value) in rules
    {
      hide OneAddressEach, Added, LeastFree, Known, Holds, ValidPools, RulesOf, RecordedAll, Wellformed, HasRoom,
          NameFree;
      ghost var before := ipam.pools;
      ghost var made: seq<Publish>;
      ghost var none: seq<Publish>;
      ghost var a0: u32;
      ok, a0, made := Create(id, name, bridge, ports, RuntimeFault);
      WellformedStops(ports);
      assert StopsAt(ports, RuntimeFault, |ports|);
      ok, a, none := Create(next, name, bridge, [], NoFault);
      NoRulesYet(a);
      LeastFreeIsOne(before, bridge, a0, a);
      RulesOfPorts(a, made, ports);
    }
  }

  lemma NoRulesYet(a: u32)
    ensures RulesOf(a, []) == multiset{} && RecordedAll([]) == []
  {
  }

  lemma {:induction false} SomeRules(a: u32, ports: seq<Publish>)
    ensures |RulesOf(a, ports)| == |ports|
  {
    if ports != [] {
      SomeRules(a, ports[..|ports| - 1]);
    }
  }

  /** There is one place at which the publishing stops. */
  lemma StopsOnce(ports: seq<Option<Publish>>, fault: Fault, n: nat)
    ensures StopsAt(ports, fault, n) ==> forall m: nat | StopsAt(ports, fault, m) :: m == n
  {
  }

  /** Without a rule that fails, the publishing stops at the end exactly if all is well formed. */
  lemma WellformedStops(ports: seq<Option<Publish>>)
    ensures forall fault: Fault | !fault.RuleFault? :: StopsAt(ports, fault, |ports|) <==> Wellformed(ports)
  {
    if Wellformed(ports) {
      assert forall k | 0 <= k < |ports| :: ports[k] in ports;
    }
  }

  lemma StopsAtEnd(ports: seq<Option<Publish>>, n: nat)
    requires StopsAt(ports, NoFault, |ports|)
    ensures StopsAt(ports, NoFault, n) ==> n == |ports|
  {
  }

  lemma RulesOfPorts(a: u32, made: seq<Publish>, ports: seq<Option<Publish>>)
    requires FirstOf(made, ports) && |made| == |ports|
    ensures forall p | p in ports && p.Some? :: Rule(a, p.value) in RulesOf(a, made)
  {
    forall p | p in ports && p.Some? ensures Rule(a, p.value) in RulesOf(a, made) {
      var k :| 0 <= k < |ports| && ports[k] == p;
      RulesHold(a, made, k);
    }
  }

  lemma InPools(pools: seq<Pool>, i: int, a: u32, id: string)
    requires Holds(pools, i, a, id)
    ensures 0 <= i < |pools| && a in pools[i].allocations
  {
  }

  lemma NotAdded(before: seq<Pool>, pools: seq<Pool>, id: string, i: nat, a: u32, forwards: seq<ForwardInfo>)
    requires pools == before
    ensures !Known(before, id) ==> forall rules, ok, rules' | Cleaned(pools, id, rules, ok, rules') :: rules' == rules
  {
  }

  lemma CleanedHere(before: seq<Pool>, pools: seq<Pool>, id: string, i: nat, a: u32, forwards: seq<ForwardInfo>,
                    rules: multiset<Rule>, ok: bool, rules': multiset<Rule>)
    requires Added(before, pools, id, i, a, forwards) && Cleaned(pools, id, rules, ok, rules')
    ensures TakenBack(rules, a, forwards) == (ok, rules')
  {
    AddedHolds(before, pools, id, i, a, forwards);
    AddedForwards(before, pools, id, i, a, forwards);
    hide Added, TakenBack, OneAddressEach, Known;
  }

  function TextOf(n: int): PortText {
    if n >= 0 then Number(n) else Named("")
  }

  /** Taking back the rules of the forwards in order; it stops at one that is not there. */
  function TakenBack(rules: multiset<Rule>, a: u32, forwards: seq<ForwardInfo>): (bool, multiset<Rule>) {
    if forwards == [] then (true, rules)
    else
      var n := |forwards| - 1;
      var (ok, left) := TakenBack(rules, a, forwards[..n]);
      var rule := Rule(a, Publish(TextOf(forwards[n].hostPort), TextOf(forwards[n].containerPort),
          forwards[n].protocol));
      if ok && rule in left then (true, left - multiset{rule}) else (false, left)
  }

  lemma {:induction false} StaysFailed(rules: multiset<Rule>, a: u32, forwards: seq<ForwardInfo>, k: nat)
    requires k <= |forwards| && !TakenBack(rules, a, forwards[..k]).0
    ensures !TakenBack(rules, a, forwards).0 && TakenBack(rules, a, forwards).1 == TakenBack(rules, a, forwards[..k]).1
  {
    if k == |forwards| {
      assert forwards[..k] == forwards;
    } else {
      assert forwards[..|forwards| - 1][..k] == forwards[..k];
      StaysFailed(rules, a, forwards[..|forwards| - 1], k);
    }
  }

  predicate NameFree(containers: map<string, Info>, name: string) {
    forall id | id in containers :: containers[id].name != name
  }

  ghost predicate HasRoom(pools: seq<Pool>, bridge: string) {
    HasBridge(pools, bridge) && |pools[PoolOf(pools, bridge)].allocations| != 253
  }

  ghost predicate LeastFree(pools: seq<Pool>, bridge: string, a: u32) {
    var i := PoolOf(pools, bridge);
    && i < |pools| && pools[i].subnet.prefix <= 32
    && PoolFree(pools[i], a) && (forall b | PoolFree(pools[i], b) :: a <= b)
  }

  lemma AllocatedLeast(runtime: Cidr, before: seq<Pool>, pools: seq<Pool>, id: string, bridge: string, a: u32)
    requires ValidPools(runtime, before) && Step(runtime, before, Allocated(id, bridge, a), pools)
    ensures LeastFree(before, bridge, a)
  {
    hide Free;
  }

  lemma LeastFreeIsOne(pools: seq<Pool>, bridge: string, a: u32, b: u32)
    requires LeastFree(pools, bridge, a) && LeastFree(pools, bridge, b)
    ensures a == b
  {
    hide Free;
  }

  lemma AddedForwards(before: seq<Pool>, pools: seq<Pool>, id: string, i: nat, a: u32, forwards: seq<ForwardInfo>)
    requires Added(before, pools, id, i, a, forwards)
    ensures i < |pools| && a in pools[i].allocations && pools[i].allocations[a].forwards == forwards
  {
  }

  lemma {:induction false} RulesHold(a: u32, ports: seq<Publish>, k: nat)
    requires k < |ports|
    ensures Rule(a, ports[k]) in RulesOf(a, ports)
  {
    if k < |ports| - 1 {
      RulesHold(a, ports[..|ports| - 1], k);
    }
  }

  // ----- what deletion finds again -----

  /** A port as it is read back from what was recorded of it. */
  function Read(p: Publish): Publish {
    Publish(TextOf(Atoi(p.host)), TextOf(Atoi(p.container)), p.protocol)
  }

  function ReadAll(ports: seq<Publish>): seq<Publish> {
    seq(|ports|, i requires 0 <= i < |ports| => Read(ports[i]))
  }

  predicate AllNumeric(ports: seq<Publish>) {
    forall p | p in ports :: Numeric(p)
  }

  lemma ReadNext(a: u32, ports: seq<Publish>)
    requires ports != []
    ensures var n := |ports| - 1;
            && ReadAll(ports)[..n] == ReadAll(ports[..n])
            && RecordedAll(ports)[..n] == RecordedAll(ports[..n])
            && RulesOf(a, ReadAll(ports)) == RulesOf(a, ReadAll(ports[..n])) + multiset{Rule(a, Read(ports[n]))}
  {
  }

  /** Rules are taken back in order; all of them can be exactly if all are there. */
  lemma {:induction false} TakenBackExactly(rules: multiset<Rule>, a: u32, ports: seq<Publish>)
    ensures var back := TakenBack(rules, a, RecordedAll(ports));
            && (back.0 <==> RulesOf(a, ReadAll(ports)) <= rules)
            && (back.0 ==> back.1 == rules - RulesOf(a, ReadAll(ports)))
  {
    if ports != [] {
      var n := |ports| - 1;
      TakenBackExactly(rules, a, ports[..n]);
      ReadNext(a, ports);
      OneMore(rules, RulesOf(a, ReadAll(ports[..n])), Rule(a, Read(ports[n])));
      hide RulesOf;
    }
  }

  lemma OneMore(all: multiset<Rule>, some: multiset<Rule>, r: Rule)
    ensures some + multiset{r} <= all <==> some <= all && r in all - some
    ensures some <= all ==> all - some - multiset{r} == all - (some + multiset{r})
  {
    if some + multiset{r} <= all {
      assert some <= some + multiset{r};
      assert all[r] >= (some + multiset{r})[r] == some[r] + 1;
    }
  }

  /** The rules of ports written as numbers are found again by what was recorded of them. A
      port by name is recorded as zero: its own rule stays, and if there is no rule for zero,
      the search for it fails. */
  lemma ComesBack(rules: multiset<Rule>, a: u32, ports: seq<Publish>)
    ensures var back := TakenBack(rules + RulesOf(a, ports), a, RecordedAll(ports));
            && (back.0 <==> RulesOf(a, ReadAll(ports)) <= rules + RulesOf(a, ports))
            && (AllNumeric(ports) ==> back == (true, rules))
            && (back == (true, rules) ==> AllNumeric(ports))
            && ((forall r | r in rules :: NoZero(r.publish)) && (forall p | p in ports :: NoZero(p)) && back.0 ==>
                  AllNumeric(ports))
  {
    hide TakenBack, RecordedAll, RulesOf, ReadAll, Read, NoZero, Numeric;
    TakenBackExactly(rules + RulesOf(a, ports), a, ports);
    if AllNumeric(ports) {
      ReadNumeric(ports);
      assert rules + RulesOf(a, ports) - RulesOf(a, ports) == rules;
    } else {
      var p :| p in ports && !Numeric(p);
      NamedStays(rules, a, ports, p);
    }
  }

  lemma ReadNumeric(ports: seq<Publish>)
    requires AllNumeric(ports)
    ensures ReadAll(ports) == ports
  {
    assert forall i | 0 <= i < |ports| :: ports[i] in ports;
  }

  lemma NamedStays(rules: multiset<Rule>, a: u32, ports: seq<Publish>, p: Publish)
    requires p in ports && !Numeric(p)
    ensures var (all, read) := (rules + RulesOf(a, ports), RulesOf(a, ReadAll(ports)));
            && (read <= all ==> all - read != rules)
            && ((forall r | r in rules :: NoZero(r.publish)) && (forall q | q in ports :: NoZero(q)) ==> !(read <= all))
  {
    hide NoZero, Numeric;
    var k :| 0 <= k < |ports| && ports[k] == p;
    var all, read := rules + RulesOf(a, ports), RulesOf(a, ReadAll(ports));
    RulesHold(a, ports, k);
    RulesHold(a, ReadAll(ports), k);
    RulesAre(a, ports);
    RulesAre(a, ReadAll(ports));
    ReadIs(p);
    assert Rule(a, p) !in read by {
      forall q | q in ReadAll(ports) ensures Numeric(q) {
        var j :| 0 <= j < |ports| && ReadAll(ports)[j] == q;
        ReadIs(ports[j]);
      }
    }
    assert (all - read)[Rule(a, p)] == rules[Rule(a, p)] + RulesOf(a, ports)[Rule(a, p)];
    assert read <= all ==> Rule(a, Read(p)) in rules || Rule(a, Read(p)) in RulesOf(a, ports);
  }

  lemma {:induction false} RulesAre(a: u32, ports: seq<Publish>)
    ensures forall r | r in RulesOf(a, ports) :: r.publish in ports
  {
    if ports != [] {
      RulesAre(a, ports[..|ports| - 1]);
    }
  }

  lemma ReadIs(p: Publish)
    ensures Numeric(Read(p)) && (!Numeric(p) ==> !NoZero(Read(p)))
  {
  }
}
