/** The policy service itself: the loops that drive iptables and the store. */
module PolicyService {
  import opened Wrappers
  import opened PacketFilter
  import opened PolicyStore
  import opened PolicyCompiler

  class ServicePolicy {
    const npm: NpmStore
    const iptables: Iptables

    constructor (npm: NpmStore, iptables: Iptables)
      ensures this.npm == npm && this.iptables == iptables
    {
      this.npm, this.iptables := npm, iptables;
    }

    ghost predicate Valid()
      reads this, npm, iptables
    {
      iptables.Valid() && UniqueIds(npm.Loaded())
    }

    // ----- changing the stored policies -----

    /** `policyId` is freshly generated. */
    method AddUserPolicy(env: Env, policyId: string, chain: Chain, source: string, destination: string,
                         protocol: string, destPort: int, comment: string)
      returns (ok: bool)
      requires Valid() && ChainOf(npm.Loaded(), policyId).None?
      modifies npm`path
      ensures Valid()
      ensures ok <==> IsPolicyChain(chain)
      ensures !ok ==> npm.path == old(npm.path)
      ensures ok ==> exists p ::
                && npm.path == Some(WithList(old(npm.Loaded()), chain, ListOf(old(npm.Loaded()), chain) + [p]))
                && p.id == policyId && p.status == BeforeCommit && p.reason == ""
                && p.protocol == protocol && p.destPort == destPort && p.comment == comment
                && IsCalled(env, source, p.source.containerName) && p.source.address == ""
                && (if chain.EastWest?
                    then IsCalled(env, destination, p.destination.containerName) && p.destination.address == ""
                    else p.destination == HostInfo("", destination))
    {
      var policy := NewPolicy(env, policyId, chain, source, destination, protocol, destPort, comment);
      CalledBy(env, source, policy.source.containerName);
      CalledBy(env, destination, policy.destination.containerName);
      AddedUnique(npm.Loaded(), chain, policy);
      ok := npm.AddPolicy(chain, policy);
    }

    method RemoveUserPolicy(id: string) returns (ok: bool)
      requires Valid()
      modifies npm`path
      ensures Valid()
      ensures ok <==> ChainOf(old(npm.Loaded()), id).Some?
      ensures npm.path == if ok then Restated(old(npm.Loaded()), ChainOf(old(npm.Loaded()), id).value, id,
              RemoveNextCommit, "user operation")
                          else old(npm.path)
    {
      var chain := npm.GetPolicyChain(id);
      if chain.None? {
        return false;
      }
      RestatedUnique(npm.Loaded(), chain.value, id, RemoveNextCommit, "user operation");
      ok := npm.UpdateStatus(chain.value, id, RemoveNextCommit, "user operation");
    }

    method ChangeNSMode(mode: string) returns (ok: bool)
      requires Valid()
      modifies npm`path
      ensures Valid()
      ensures ok <==> (mode == "enforce" && !old(npm.Loaded()).nsMode.Enforce?) ||
                      (mode == "observe" && !old(npm.Loaded()).nsMode.Observe?)
      ensures npm.path == if !ok then old(npm.path)
                else Some(old(npm.Loaded()).(nsMode := if mode == "enforce" then EnforceNextCommit
                    else ObserveNextCommit))
    {
      if mode != "enforce" && mode != "observe" {
        return false;
      }
      // check current mode
      var current := npm.Loaded().nsMode;
      var wanted := if mode == "enforce" then Enforce else Observe;
      if current == wanted {
        return false;
      }
      // set next commit flag
      npm.ChangeNSMode(if mode == "enforce" then EnforceNextCommit else ObserveNextCommit);
      return true;
    }

    // ----- committing -----

    method FixNSMode()
      modifies npm`path
      ensures npm.Loaded() == Fixed(old(npm.Loaded()))
      ensures npm.path.Some? <==> old(npm.path).Some?
    {
      var current := npm.Loaded().nsMode;
      if current == Observe || current == Enforce {
        return;
      }
      npm.ChangeNSMode(FixedMode(current));
    }

    method CreateChains()
      requires iptables.Valid()
      modifies iptables
      ensures iptables.Valid()
      ensures iptables.chains == old(iptables.chains)[Root := []][EastWest := []][NsObserve := []][NsEnforce := []]
    {
      iptables.CreateChain(Root);
      iptables.CreateChain(EastWest);
      iptables.CreateChain(NsObserve);
      iptables.CreateChain(NsEnforce);
    }

    method BuildRootChain(enforce: bool) returns (ok: bool)
      requires iptables.Valid() && Root in iptables.chains && iptables.chains[Root] == []
      modifies iptables
      ensures iptables.Valid()
      ensures ok <==> AllAccepted(iptables.accepts, RootRules(enforce))
      ensures iptables.chains ==
              old(iptables.chains)[Root := AppendUntil(iptables.accepts, [], RootRules(enforce))]
    {
      ghost var accepts, before, rs := iptables.accepts, iptables.chains, RootRules(enforce);
      assert rs[1..] == [rs[1]] + rs[2..] && rs[2..] == [rs[2]] + rs[3..] && rs[3..] == [rs[3]] + [];
      assert rs == [rs[0]] + rs[1..];
      hide Building, AllAccepted, AppendUntil, Appended, AddFlags;
      BuildingStarts(accepts, before, Root, rs);
      // 1. allow return traffic
      BuildingNext(accepts, before, iptables.chains, Root, rs, rs[0], rs[1..]);
      ok := iptables.AddRuleToChain(Root, RETURN_TRAFFIC_MODEL, Accept);
      if !ok {
        return;
      }
      // 2. forward to RAIND-EW
      BuildingNext(accepts, before, iptables.chains, Root, rs, rs[1], rs[2..]);
      ok := iptables.AddRuleToChain(Root, RETURN_MODEL, Jump(EastWest));
      if !ok {
        return;
      }
      // 3. forward to RAIND-NS-ENF or RAIND-NS-OBS
      BuildingNext(accepts, before, iptables.chains, Root, rs, rs[2], rs[3..]);
      if enforce {
        ok := iptables.AddRuleToChain(Root, RETURN_MODEL, Jump(NsEnforce));
      } else {
        ok := iptables.AddRuleToChain(Root, RETURN_MODEL, Jump(NsObserve));
      }
      if !ok {
        return;
      }
      // 4. other: return
      BuildingNext(accepts, before, iptables.chains, Root, rs, rs[3], []);
      ok := iptables.AddRuleToChain(Root, RETURN_MODEL, Return);
      if ok {
        BuildingEnds(accepts, before, iptables.chains, Root, rs);
      }
    }

    method AddEwLogs(ns: seq<string>) returns (ok: bool)
      requires iptables.Valid() && EastWest in iptables.chains
      modifies iptables
      ensures iptables.Valid()
      ensures ok <==> AllAccepted(iptables.accepts, EwLogs(ns))
      ensures iptables.chains ==
              old(iptables.chains)[EastWest := AppendUntil(iptables.accepts, old(iptables.chains)[EastWest],
                  EwLogs(ns))]
    {
      hide Building, AllAccepted, AppendUntil, Appended, AddFlags;
      ghost var accepts, before, all := iptables.accepts, iptables.chains, EwLogs(ns);
      BuildingStarts(accepts, before, EastWest, all);
      assert ns[0..] == ns;
      var i := 0;
      while i < |ns|
        invariant 0 <= i <= |ns| && iptables.Valid() && EastWest in iptables.chains
        invariant Building(accepts, before, iptables.chains, EastWest, all, EwLogs(ns[i..]))
      {
        assert ns[i..][1..] == ns[i + 1..];
        BuildingNext(accepts, before, iptables.chains, EastWest, all, AddRule(EwLogModel(ns[i]), Nflog),
            EwLogs(ns[i + 1..]));
        ok := iptables.AddRuleToChain(EastWest, EwLogModel(ns[i]), Nflog);
        if !ok {
          return;
        }
        i := i + 1;
      }
      BuildingEnds(accepts, before, iptables.chains, EastWest, all);
      ok := true;
    }

    method AddEwDrops(ns: seq<string>) returns (ok: bool)
      requires iptables.Valid() && EastWest in iptables.chains
      modifies iptables
      ensures iptables.Valid()
      ensures ok <==> AllAccepted(iptables.accepts, EwDrops(ns))
      ensures iptables.chains ==
              old(iptables.chains)[EastWest := AppendUntil(iptables.accepts, old(iptables.chains)[EastWest],
                  EwDrops(ns))]
    {
      hide Building, AllAccepted, AppendUntil, Appended, AddFlags;
      ghost var accepts, before, all := iptables.accepts, iptables.chains, EwDrops(ns);
      BuildingStarts(accepts, before, EastWest, all);
      assert ns[0..] == ns;
      var i := 0;
      while i < |ns|
        invariant 0 <= i <= |ns| && iptables.Valid() && EastWest in iptables.chains
        invariant Building(accepts, before, iptables.chains, EastWest, all, EwDrops(ns[i..]))
      {
        assert ns[i..][1..] == ns[i + 1..];
        BuildingNext(accepts, before, iptables.chains, EastWest, all, AddRule(BetweenModel(ns[i], ns[i]), Drop),
            EwDrops(ns[i + 1..]));
        ok := iptables.AddRuleToChain(EastWest, BetweenModel(ns[i], ns[i]), Drop);
        if !ok {
          return;
        }
        i := i + 1;
      }
      BuildingEnds(accepts, before, iptables.chains, EastWest, all);
      ok := true;
    }

    method AddEwTail(nflog: bool) returns (ok: bool)
      requires iptables.Valid() && EastWest in iptables.chains
      modifies iptables
      ensures iptables.Valid()
      ensures ok <==> AllAccepted(iptables.accepts, EwTail(nflog))
      ensures iptables.chains ==
              old(iptables.chains)[EastWest := AppendUntil(iptables.accepts, old(iptables.chains)[EastWest],
                  EwTail(nflog))]
    {
      ghost var log, drop, ret := AddRule(INTER_BRIDGE_LOG_MODEL, Nflog),
          AddRule(BetweenModel(ANY_BRIDGE, ANY_BRIDGE), Drop),
          AddRule(RETURN_MODEL, Return);
      ghost var accepts, before, rs := iptables.accepts, iptables.chains, EwTail(nflog);
      assert rs == if nflog then [log] + ([drop] + ([ret] + [])) else [drop] + ([ret] + []);
      hide Building, AllAccepted, AppendUntil, Appended, AddFlags, EwTail;
      BuildingStarts(accepts, before, EastWest, rs);
      // 3. deny all inter-bridge traffic
      if nflog {
        BuildingNext(accepts, before, iptables.chains, EastWest, rs, log, [drop] + ([ret] + []));
        ok := iptables.AddRuleToChain(EastWest, INTER_BRIDGE_LOG_MODEL, Nflog);
        if !ok {
          return;
        }
      }
      BuildingNext(accepts, before, iptables.chains, EastWest, rs, drop, [ret] + []);
      ok := iptables.AddRuleToChain(EastWest, BetweenModel(ANY_BRIDGE, ANY_BRIDGE), Drop);
      if !ok {
        return;
      }
      // 4. other: return
      BuildingNext(accepts, before, iptables.chains, EastWest, rs, ret, []);
      ok := iptables.AddRuleToChain(EastWest, RETURN_MODEL, Return);
      if ok {
        BuildingEnds(accepts, before, iptables.chains, EastWest, rs);
      }
    }

    method BuildEWChain(ns: seq<string>, nflog: bool) returns (ok: bool)
      requires iptables.Valid() && EastWest in iptables.chains && iptables.chains[EastWest] == []
      modifies iptables
      ensures iptables.Valid()
      ensures ok <==> AllAccepted(iptables.accepts, EwRules(ns, nflog))
      ensures iptables.chains ==
              old(iptables.chains)[EastWest := AppendUntil(iptables.accepts, [], EwRules(ns, nflog))]
    {
      ghost var accepts, before, rs := iptables.accepts, iptables.chains, EwRules(ns, nflog);
      ghost var rest := EwDrops(ns) + (EwTail(nflog) + []);
      assert rs == if nflog then EwLogs(ns) + rest else rest;
      hide Building, AllAccepted, AppendUntil, EwRules, EwLogs, EwDrops, EwTail;
      BuildingStarts(accepts, before, EastWest, rs);
      // 1. if NFLOG mode is enabled, add NFLOG entry
      if nflog {
        BuildingPart(accepts, before, iptables.chains, EastWest, rs, EwLogs(ns), rest);
        ok := AddEwLogs(ns);
        if !ok {
          return;
        }
      }
      // 2. deny all inter-container traffic
      BuildingPart(accepts, before, iptables.chains, EastWest, rs, EwDrops(ns), EwTail(nflog) + []);
      ok := AddEwDrops(ns);
      if !ok {
        return;
      }
      BuildingPart(accepts, before, iptables.chains, EastWest, rs, EwTail(nflog), []);
      ok := AddEwTail(nflog);
      if ok {
        BuildingEnds(accepts, before, iptables.chains, EastWest, rs);
      }
    }

    /** One round of the loop over the networks. */
    method AddObserveNetwork(host: string, n: string, nflog: bool) returns (ok: bool)
      requires iptables.Valid() && NsObserve in iptables.chains
      modifies iptables
      ensures iptables.Valid()
      ensures ok <==> AllAccepted(iptables.accepts, ObserveNetwork(host, n, nflog))
      ensures iptables.chains ==
              old(iptables.chains)[NsObserve := AppendUntil(iptables.accepts, old(iptables.chains)[NsObserve],
                  ObserveNetwork(host, n, nflog))]
    {
      ghost var logs, out := ObserveLogs(host, n), AddRule(BetweenModel(n, host), Accept);
      ghost var accepts, before, rs := iptables.accepts, iptables.chains, ObserveNetwork(host, n, nflog);
      assert rs == if nflog then [logs[0]] + ([logs[1]] + ([logs[2]] + ([out] + []))) else [out] + [];
      hide Building, AllAccepted, AppendUntil, Appended, AddFlags, ObserveNetwork;
      BuildingStarts(accepts, before, NsObserve, rs);
      if nflog {
        // from external to container
        BuildingNext(accepts, before, iptables.chains, NsObserve, rs, logs[0], [logs[1]] + ([logs[2]] + ([out] + [])));
        ok := iptables.AddRuleToChain(NsObserve, NsInModel(host, n, "tcp"), Nflog);
        if !ok {
          return;
        }
        BuildingNext(accepts, before, iptables.chains, NsObserve, rs, logs[1], [logs[2]] + ([out] + []));
        ok := iptables.AddRuleToChain(NsObserve, NsInModel(host, n, "udp"), Nflog);
        if !ok {
          return;
        }
        // from container to external
        BuildingNext(accepts, before, iptables.chains, NsObserve, rs, logs[2], [out] + []);
        ok := iptables.AddRuleToChain(NsObserve, NsOutModel(n, host, 11, NS_ALLOW), Nflog);
        if !ok {
          return;
        }
      }
      BuildingNext(accepts, before, iptables.chains, NsObserve, rs, out, []);
      ok := iptables.AddRuleToChain(NsObserve, BetweenModel(n, host), Accept);
      if ok {
        BuildingEnds(accepts, before, iptables.chains, NsObserve, rs);
      }
    }

    method AddObserveNetworks(ns: seq<string>, host: string, nflog: bool) returns (ok: bool)
      requires iptables.Valid() && NsObserve in iptables.chains
      modifies iptables
      ensures iptables.Valid()
      ensures ok <==> AllAccepted(iptables.accepts, ObserveBody(ns, host, nflog))
      ensures iptables.chains ==
              old(iptables.chains)[NsObserve := AppendUntil(iptables.accepts, old(iptables.chains)[NsObserve],
                  ObserveBody(ns, host, nflog))]
    {
      hide Building, AllAccepted, AppendUntil, ObserveNetwork;
      ghost var accepts, before, all := iptables.accepts, iptables.chains, ObserveBody(ns, host, nflog);
      BuildingStarts(accepts, before, NsObserve, all);
      assert ns[0..] == ns;
      var i := 0;
      while i < |ns|
        invariant 0 <= i <= |ns| && iptables.Valid() && NsObserve in iptables.chains
        invariant Building(accepts, before, iptables.chains, NsObserve, all, ObserveBody(ns[i..], host, nflog))
      {
        assert ns[i..][1..] == ns[i + 1..];
        BuildingPart(accepts, before, iptables.chains, NsObserve, all, ObserveNetwork(host, ns[i], nflog),
            ObserveBody(ns[i + 1..], host, nflog));
        ok := AddObserveNetwork(host, ns[i], nflog);
        if !ok {
          return;
        }
        i := i + 1;
      }
      BuildingEnds(accepts, before, iptables.chains, NsObserve, all);
      ok := true;
    }

    method BuildNSObserveChain(ns: seq<string>, host: string, nflog: bool) returns (ok: bool)
      requires iptables.Valid() && NsObserve in iptables.chains && iptables.chains[NsObserve] == []
      modifies iptables
      ensures iptables.Valid()
      ensures ok <==> host != "" && AllAccepted(iptables.accepts, ObserveRules(ns, host, nflog))
      ensures iptables.chains == if host == "" then old(iptables.chains)
              else old(iptables.chains)[NsObserve := AppendUntil(iptables.accepts, [], ObserveRules(ns, host, nflog))]
    {
      if host == "" {
        return false;
      }
      ghost var accepts, before, rs := iptables.accepts, iptables.chains, ObserveRules(ns, host, nflog);
      ghost var ret := AddRule(RETURN_MODEL, Return);
      assert rs == ObserveBody(ns, host, nflog) + ([ret] + []);
      hide Building, AllAccepted, AppendUntil, Appended, AddFlags, ObserveRules, ObserveBody;
      BuildingStarts(accepts, before, NsObserve, rs);
      // 1. per network
      BuildingPart(accepts, before, iptables.chains, NsObserve, rs, ObserveBody(ns, host, nflog), [ret] + []);
      ok := AddObserveNetworks(ns, host, nflog);
      if !ok {
        return;
      }
      // 2. other: return
      BuildingNext(accepts, before, iptables.chains, NsObserve, rs, ret, []);
      ok := iptables.AddRuleToChain(NsObserve, RETURN_MODEL, Return);
      if ok {
        BuildingEnds(accepts, before, iptables.chains, NsObserve, rs);
      }
    }

    method AddEnforceLogs(ns: seq<string>, host: string) returns (ok: bool)
      requires iptables.Valid() && NsEnforce in iptables.chains
      modifies iptables
      ensures iptables.Valid()
      ensures ok <==> AllAccepted(iptables.accepts, EnforceLogs(ns, host))
      ensures iptables.chains ==
              old(iptables.chains)[NsEnforce := AppendUntil(iptables.accepts, old(iptables.chains)[NsEnforce],
                  EnforceLogs(ns, host))]
    {
      hide Building, AllAccepted, AppendUntil, Appended, AddFlags;
      ghost var accepts, before, all := iptables.accepts, iptables.chains, EnforceLogs(ns, host);
      BuildingStarts(accepts, before, NsEnforce, all);
      assert ns[0..] == ns;
      var i := 0;
      while i < |ns|
        invariant 0 <= i <= |ns| && iptables.Valid() && NsEnforce in iptables.chains
        invariant Building(accepts, before, iptables.chains, NsEnforce, all, EnforceLogs(ns[i..], host))
      {
        assert ns[i..][1..] == ns[i + 1..];
        BuildingNext(accepts, before, iptables.chains, NsEnforce, all,
            AddRule(NsOutModel(ns[i], host, 12, NS_DENY), Nflog), EnforceLogs(ns[i + 1..], host));
        ok := iptables.AddRuleToChain(NsEnforce, NsOutModel(ns[i], host, 12, NS_DENY), Nflog);
        if !ok {
          return;
        }
        i := i + 1;
      }
      BuildingEnds(accepts, before, iptables.chains, NsEnforce, all);
      ok := true;
    }

    method AddEnforceDrops(ns: seq<string>, host: string) returns (ok: bool)
      requires iptables.Valid() && NsEnforce in iptables.chains
      modifies iptables
      ensures iptables.Valid()
      ensures ok <==> AllAccepted(iptables.accepts, EnforceDrops(ns, host))
      ensures iptables.chains ==
              old(iptables.chains)[NsEnforce := AppendUntil(iptables.accepts, old(iptables.chains)[NsEnforce],
                  EnforceDrops(ns, host))]
    {
      hide Building, AllAccepted, AppendUntil, Appended, AddFlags;
      ghost var accepts, before, all := iptables.accepts, iptables.chains, EnforceDrops(ns, host);
      BuildingStarts(accepts, before, NsEnforce, all);
      assert ns[0..] == ns;
      var i := 0;
      while i < |ns|
        invariant 0 <= i <= |ns| && iptables.Valid() && NsEnforce in iptables.chains
        invariant Building(accepts, before, iptables.chains, NsEnforce, all, EnforceDrops(ns[i..], host))
      {
        assert ns[i..][1..] == ns[i + 1..];
        BuildingNext(accepts, before, iptables.chains, NsEnforce, all, AddRule(BetweenModel(ns[i], host), Drop),
            EnforceDrops(ns[i + 1..], host));
        ok := iptables.AddRuleToChain(NsEnforce, BetweenModel(ns[i], host), Drop);
        if !ok {
          return;
        }
        i := i + 1;
      }
      BuildingEnds(accepts, before, iptables.chains, NsEnforce, all);
      ok := true;
    }

    method BuildNSEnforceChain(ns: seq<string>, host: string, nflog: bool) returns (ok: bool)
      requires iptables.Valid() && NsEnforce in iptables.chains && iptables.chains[NsEnforce] == []
      modifies iptables
      ensures iptables.Valid()
      ensures ok <==> host != "" && AllAccepted(iptables.accepts, EnforceRules(ns, host, nflog))
      ensures iptables.chains == if host == "" then old(iptables.chains)
              else old(iptables.chains)[NsEnforce := AppendUntil(iptables.accepts, [], EnforceRules(ns, host, nflog))]
    {
      if host == "" {
        return false;
      }
      ghost var accepts, before, rs := iptables.accepts, iptables.chains, EnforceRules(ns, host, nflog);
      ghost var ret := AddRule(RETURN_MODEL, Return);
      ghost var rest := EnforceDrops(ns, host) + ([ret] + []);
      assert rs == if nflog then EnforceLogs(ns, host) + rest else rest;
      hide Building, AllAccepted, AppendUntil, Appended, AddFlags, EnforceRules, EnforceLogs, EnforceDrops;
      BuildingStarts(accepts, before, NsEnforce, rs);
      // 1. if NFLOG mode is enabled, add NFLOG entry
      if nflog {
        BuildingPart(accepts, before, iptables.chains, NsEnforce, rs, EnforceLogs(ns, host), rest);
        ok := AddEnforceLogs(ns, host);
        if !ok {
          return;
        }
      }
      // 2. deny container to external traffic
      BuildingPart(accepts, before, iptables.chains, NsEnforce, rs, EnforceDrops(ns, host), [ret] + []);
      ok := AddEnforceDrops(ns, host);
      if !ok {
        return;
      }
      // 3. other: return
      BuildingNext(accepts, before, iptables.chains, NsEnforce, rs, ret, []);
      ok := iptables.AddRuleToChain(NsEnforce, RETURN_MODEL, Return);
      if ok {
        BuildingEnds(accepts, before, iptables.chains, NsEnforce, rs);
      }
    }

    // ----- user policies -----

    /** One round of the loop over the east-west policies. `np` is the store before the
        loop, `i` the number of policies settled so far. */
    method InsertEWPolicy(env: Env, p: Policy, logging: bool, ghost np: NetworkPolicy, ghost i: nat)
      requires iptables.Valid() && EastWest in iptables.chains && npm.path.Some? && UniqueIds(np)
      requires i < |np.eastWest| && p == np.eastWest[i] && logging == np.ewLogging
      requires npm.Loaded() == Halfway(iptables.accepts, env, np, EastWest, i)
      modifies npm`path, iptables
      ensures iptables.Valid() && npm.path.Some?
      ensures npm.Loaded() == Halfway(iptables.accepts, env, np, EastWest, i + 1)
      ensures iptables.chains == old(iptables.chains)[EastWest :=
                InsertAll(old(iptables.chains)[EastWest], UserRules(iptables.accepts, env, EastWest, logging, p))]
    {
      var ok: bool;
      hide UserRules, Settle, InsertAll, Halfway, InsertFlags, Restated, Removed;
      PolicyCases(iptables.accepts, env, EastWest, logging, p, iptables.chains[EastWest]);
      assert iptables.chains[EastWest := iptables.chains[EastWest]] == iptables.chains;
      // check remove flag
      if p.status.RemoveNextCommit? {
        RemoveStep(iptables.accepts, env, np, EastWest, i);
        ok := npm.RemovePolicy(p.id);
        assert ok;
        return;
      }
      // resolve container veth
      var src := LeaseOf(env, p.source.containerName);
      if src.None? {
        RestateStep(iptables.accepts, env, np, EastWest, i, Settle(iptables.accepts, env, EastWest, logging, p).value);
        ok := npm.UpdateStatus(EastWest, p.id, Unresolved, "container: " + p.source.containerName + " not found");
        assert ok;
        return;
      }
      var dst := LeaseOf(env, p.destination.containerName);
      if dst.None? {
        RestateStep(iptables.accepts, env, np, EastWest, i, Settle(iptables.accepts, env, EastWest, logging, p).value);
        ok := npm.UpdateStatus(EastWest, p.id, Unresolved, "container: " + p.destination.containerName + " not found");
        assert ok;
        return;
      }
      var m := EwModel(p, src.value, dst.value);
      ok := iptables.InsertRuleToChain(EastWest, m, Accept);
      if !ok {
        KeepStep(iptables.accepts, env, np, EastWest, i);
        return;
      }
      if logging {
        ok := iptables.InsertRuleToChain(EastWest, LogModel(m, 10, "RAIND-EW-ALLOW,id=" + p.id), Nflog);
        if !ok {
          KeepStep(iptables.accepts, env, np, EastWest, i);
          return;
        }
      }
      // set status: applied
      RestateStep(iptables.accepts, env, np, EastWest, i, Settle(iptables.accepts, env, EastWest, logging, p).value);
      ok := npm.UpdateStatus(EastWest, p.id, Applied, "");
      assert ok;
    }

    /** One round of the loop over the north-south policies of either chain. */
    method InsertNSPolicy(env: Env, chain: Chain, p: Policy, logging: bool, ghost np: NetworkPolicy, ghost i: nat)
      requires chain.NsObserve? || chain.NsEnforce?
      requires iptables.Valid() && chain in iptables.chains && npm.path.Some? && UniqueIds(np)
      requires i < |ListOf(np, chain)| && p == ListOf(np, chain)[i] && logging == np.nsLogging
      requires npm.Loaded() == Halfway(iptables.accepts, env, np, chain, i)
      modifies npm`path, iptables
      ensures iptables.Valid() && npm.path.Some?
      ensures npm.Loaded() == Halfway(iptables.accepts, env, np, chain, i + 1)
      ensures iptables.chains == old(iptables.chains)[chain :=
                InsertAll(old(iptables.chains)[chain], UserRules(iptables.accepts, env, chain, logging, p))]
    {
      var ok: bool;
      hide UserRules, Settle, InsertAll, Halfway, InsertFlags, Restated, Removed;
      PolicyCases(iptables.accepts, env, chain, logging, p, iptables.chains[chain]);
      assert iptables.chains[chain := iptables.chains[chain]] == iptables.chains;
      // check remove flag
      if p.status.RemoveNextCommit? {
        RemoveStep(iptables.accepts, env, np, chain, i);
        ok := npm.RemovePolicy(p.id);
        assert ok;
        return;
      }
      // resolve container id/name
      var src := LeaseOf(env, p.source.containerName);
      if src.None? {
        RestateStep(iptables.accepts, env, np, chain, i, Settle(iptables.accepts, env, chain, logging, p).value);
        ok := npm.UpdateStatus(chain, p.id, Unresolved, "container: " + p.source.containerName + " not found");
        assert ok;
        return;
      }
      var m := NsModel(p, src.value, env.hostInterface);
      ok := iptables.InsertRuleToChain(chain, m, if chain.NsObserve? then Drop else Accept);
      if !ok {
        KeepStep(iptables.accepts, env, np, chain, i);
        return;
      }
      if logging {
        var log := if chain.NsObserve? then LogModel(m, 11, "RAIND-NS-DENY,id=" + p.id)
                   else LogModel(m, 12, "RAIND-NS-ALLOW,id=" + p.id);
        ok := iptables.InsertRuleToChain(chain, log, Nflog);
        if !ok {
          KeepStep(iptables.accepts, env, np, chain, i);
          return;
        }
      }
      // set status: applied
      RestateStep(iptables.accepts, env, np, chain, i, Settle(iptables.accepts, env, chain, logging, p).value);
      ok := npm.UpdateStatus(chain, p.id, Applied, "");
      assert ok;
    }

    method InsertPolicy(env: Env, chain: Chain, p: Policy, logging: bool, ghost np: NetworkPolicy, ghost i: nat)
      requires IsPolicyChain(chain)
      requires iptables.Valid() && chain in iptables.chains && npm.path.Some? && UniqueIds(np)
      requires i < |ListOf(np, chain)| && p == ListOf(np, chain)[i] && logging == LoggingOf(np, chain)
      requires npm.Loaded() == Halfway(iptables.accepts, env, np, chain, i)
      modifies npm`path, iptables
      ensures iptables.Valid() && npm.path.Some?
      ensures npm.Loaded() == Halfway(iptables.accepts, env, np, chain, i + 1)
      ensures iptables.chains == old(iptables.chains)[chain :=
                InsertAll(old(iptables.chains)[chain], UserRules(iptables.accepts, env, chain, logging, p))]
    {
      hide UserRules, InsertAll, Halfway, UniqueIds;
      if chain.EastWest? {
        InsertEWPolicy(env, p, logging, np, i);
      } else {
        InsertNSPolicy(env, chain, p, logging, np, i);
      }
    }

    /** The loop over the policies of one chain, read before it starts. */
    method InsertEachPolicy(env: Env, chain: Chain, policies: seq<Policy>, logging: bool, ghost np: NetworkPolicy)
      requires IsPolicyChain(chain) && iptables.Valid() && UniqueIds(np) && chain in iptables.chains
      requires policies == ListOf(np, chain) && logging == LoggingOf(np, chain)
      requires npm.Loaded() == Halfway(iptables.accepts, env, np, chain, 0) && (policies != [] ==> npm.path.Some?)
      modifies npm`path, iptables
      ensures iptables.Valid() && (npm.path.Some? <==> old(npm.path).Some?)
      ensures npm.Loaded() == Halfway(iptables.accepts, env, np, chain, |policies|)
      ensures iptables.chains == old(iptables.chains)[chain :=
                InsertAll(old(iptables.chains)[chain], AllUserRules(iptables.accepts, env, chain, logging, policies))]
    {
      ghost var before := iptables.chains;
      ghost var rules := before[chain];
      assert before[chain := rules] == before;
      ChainAfterEnds(iptables.accepts, env, chain, logging, policies, rules);
      hide *;
      for i := 0 to |policies|
        invariant iptables.Valid() && (npm.path.Some? <==> old(npm.path).Some?)
        invariant npm.Loaded() == Halfway(iptables.accepts, env, np, chain, i)
        invariant rules == ChainAfter(iptables.accepts, env, chain, logging, policies, i, before[chain])
        invariant iptables.chains == before[chain := rules]
      {
        ChainAfterNext(iptables.accepts, env, chain, logging, policies, i, before[chain]);
        ghost var next := InsertAll(rules, UserRules(iptables.accepts, env, chain, logging, policies[i]));
        Overwrite(before, chain, rules, next);
        InsertPolicy(env, chain, policies[i], logging, np, i);
        rules := next;
      }
    }

    method InsertUserPolicies(env: Env, chain: Chain, policies: seq<Policy>, logging: bool)
      requires IsPolicyChain(chain) && Valid() && chain in iptables.chains
      requires policies == ListOf(npm.Loaded(), chain) && logging == LoggingOf(npm.Loaded(), chain)
      modifies npm`path, iptables
      ensures Valid()
      ensures npm.Loaded() == WithList(old(npm.Loaded()), chain,
              SettledList(iptables.accepts, env, old(npm.Loaded()), chain))
      ensures npm.path.Some? <==> old(npm.path).Some?
      ensures iptables.chains == old(iptables.chains)[chain :=
                InsertAll(old(iptables.chains)[chain], AllUserRules(iptables.accepts, env, chain, logging, policies))]
    {
      ghost var np := npm.Loaded();
      HalfwayEnds(iptables.accepts, env, np, chain);
      SettledListUnique(iptables.accepts, env, np, chain);
      hide AllUserRules, SettleAll, InsertAll, Halfway, UniqueIds;
      InsertEachPolicy(env, chain, policies, logging, np);
    }

    method BuildUserPolicy(env: Env)
      requires Valid() && EastWest in iptables.chains && NsObserve in iptables.chains && NsEnforce in iptables.chains
      modifies npm`path, iptables
      ensures Valid()
      ensures npm.Loaded() == AllSettled(iptables.accepts, env, old(npm.Loaded()))
      ensures npm.path.Some? <==> old(npm.path).Some?
      ensures iptables.chains == AllInserted(iptables.accepts, env, old(npm.Loaded()), old(iptables.chains))
    {
      hide AllUserRules, SettleAll, InsertAll;
      var loggingEw := npm.Loaded().ewLogging;
      var loggingNs := npm.Loaded().nsLogging;
      // 1. RAIND-EW, 2. RAIND-NS-OBS, 3. RAIND-NS-ENF
      InsertUserPolicies(env, EastWest, npm.Loaded().eastWest, loggingEw);
      InsertUserPolicies(env, NsObserve, npm.Loaded().observe, loggingNs);
      InsertUserPolicies(env, NsEnforce, npm.Loaded().enforce, loggingNs);
    }

    /** The predefined chains, as far as iptables takes their rules. */
    method BuildPredefinedPolicy(env: Env) returns (ok: bool)
      requires iptables.Valid() && Fixed(npm.Loaded()) == npm.Loaded()
      modifies iptables
      ensures iptables.Valid()
      ensures ok <==> Buildable(iptables.accepts, env, npm.Loaded())
      ensures iptables.chains == Attempted(iptables.accepts, env, npm.Loaded(), old(iptables.chains))
    {
      hide AllAccepted, RootRules, EwRules, ObserveRules, EnforceRules, AppendUntil, Inserted;
      if env.networks == [] {
        return false;
      }
      var enforce := npm.Loaded().nsMode.Enforce?;
      var loggingEw := npm.Loaded().ewLogging;
      var loggingNs := npm.Loaded().nsLogging;
      // 1. create chain
      CreateChains();
      // 2. insert chain to forward
      ok := iptables.InsertForwardRule(Root);
      if !ok {
        return;
      }
      // 3. build RAIND-ROOT chain
      ok := BuildRootChain(enforce);
      if !ok {
        return;
      }
      // 4. build RAIND-EW chain
      ok := BuildEWChain(env.networks, loggingEw);
      if !ok {
        return;
      }
      if enforce {
        // 5. build RAIND-NS-ENF chain
        ok := BuildNSEnforceChain(env.networks, env.hostInterface, loggingNs);
      } else {
        // 5. build RAIND-NS-OBS chain
        ok := BuildNSObserveChain(env.networks, env.hostInterface, loggingNs);
      }
    }

    /** A commit succeeds when the predefined chains can be built and there is a file to
        copy. A commit that fails leaves the copy of the last good one alone; if the chains
        could not be built, they stay as far as they came, without any user policy. */
    method CommitPolicy(env: Env) returns (ok: bool)
      requires Valid()
      modifies npm, iptables
      ensures Valid()
      ensures ok <==> Buildable(iptables.accepts, env, old(npm.Loaded())) && old(npm.path).Some?
      ensures ok ==> npm.path == npm.running == Some(Settled(iptables.accepts, env, old(npm.Loaded())))
      ensures ok ==> iptables.chains == Compiled(iptables.accepts, env, old(npm.Loaded()), old(iptables.chains))
      ensures !ok ==> npm.running == old(npm.running)
      ensures !Buildable(iptables.accepts, env, old(npm.Loaded())) ==>
                && npm.Loaded() == Fixed(old(npm.Loaded()))
                && iptables.chains == Attempted(iptables.accepts, env, Fixed(old(npm.Loaded())), old(iptables.chains))
    {
      // 1. fix ns mode
      FixNSMode();
      // 2. predefined policy
      ok := BuildPredefinedPolicy(env);
      if !ok {
        return;
      }
      // 3. user policy
      AttemptedAll(iptables.accepts, env, npm.Loaded(), old(iptables.chains));
      CommitSteps(iptables.accepts, env, old(npm.Loaded()), old(iptables.chains));
      BuildUserPolicy(env);
      // 4. backup
      ok := npm.Backup();
    }

    /** Reverting puts the copy of the last commit back; it does not touch the chains. */
    method RevertPolicy() returns (ok: bool)
      modifies npm
      ensures ok <==> old(npm.path).Some? && old(npm.running).Some?
      ensures ok ==> npm.path == npm.running == old(npm.running)
    {
      ok := npm.Revert();
    }
  }

  // ----- the stored policies -----

  function NewPolicy(env: Env, id: string, chain: Chain, source: string, destination: string,
                     protocol: string, destPort: int, comment: string): Policy {
    Policy(id, BeforeCommit, "",
           HostInfo(ContainerName(env, source), ""),
           if chain.EastWest? then HostInfo(ContainerName(env, destination), "") else HostInfo("", destination),
           protocol, destPort, comment)
  }

  /** The name under which a policy records a container: a name stays, an id becomes the
      container's name, and anything else is the name of a container that is yet to come. */
  predicate IsCalled(env: Env, text: string, name: string) {
    || (text in env.idByName && name == text)
    || (text !in env.idByName && text in env.nameById && name == env.nameById[text])
    || (text !in env.idByName && text !in env.nameById && name == text)
  }

  lemma CalledBy(env: Env, text: string, name: string)
    ensures IsCalled(env, text, name) <==> name == ContainerName(env, text)
  {
  }

  function ContainerName(env: Env, s: string): string {
    if s in env.idByName then s else if s in env.nameById then env.nameById[s] else s
  }

  lemma AddedUnique(np: NetworkPolicy, chain: Chain, p: Policy)
    requires UniqueIds(np) && ChainOf(np, p.id).None?
    ensures Added(np, chain, p).Some? ==> UniqueIds(Added(np, chain, p).value)
  {
    if IsPolicyChain(chain) {
      var ps := ListOf(np, chain);
      assert forall i | 0 <= i < |ps| :: ps[i] in ps && ps[i].id != p.id;
      assert DistinctIds(ps + [p]);
    }
  }

  lemma RestatedUnique(np: NetworkPolicy, chain: Chain, id: string, status: Status, reason: string)
    requires UniqueIds(np)
    ensures Restated(np, chain, id, status, reason).Some? ==> UniqueIds(Restated(np, chain, id, status, reason).value)
  {
    if IsPolicyChain(chain) {
      var ps := ListOf(np, chain);
      RestateKeepsIds(ps, id, status, reason);
      var qs := Restate(ps, id, status, reason);
      assert DistinctIds(qs);
      forall other: seq<Policy> | DisjointIds(ps, other) || DisjointIds(other, ps)
        ensures DisjointIds(qs, other) && DisjointIds(other, qs)
      {
        RestateDisjoint(ps, id, status, reason, other);
      }
      hide DistinctIds, DisjointIds, Restate;
    }
  }

  lemma RestateDisjoint(ps: seq<Policy>, id: string, status: Status, reason: string, other: seq<Policy>)
    requires DisjointIds(ps, other) || DisjointIds(other, ps)
    ensures DisjointIds(Restate(ps, id, status, reason), other) && DisjointIds(other, Restate(ps, id, status, reason))
  {
    RestateKeepsIds(ps, id, status, reason);
    var qs := Restate(ps, id, status, reason);
    forall q, p | q in qs && p in other ensures q.id != p.id {
      var i :| 0 <= i < |qs| && qs[i] == q;
      assert ps[i] in ps && ps[i].id == q.id;
    }
  }

  lemma {:induction false} RestateKeepsIds(ps: seq<Policy>, id: string, status: Status, reason: string)
    ensures |Restate(ps, id, status, reason)| == |ps|
    ensures forall i | 0 <= i < |ps| :: Restate(ps, id, status, reason)[i].id == ps[i].id
  {
    if ps != [] {
      RestateKeepsIds(ps[1..], id, status, reason);
    }
  }

  // ----- lists of rules -----

  /** In the middle of appending `all` to a chain: `rest` is still to come. */
  ghost predicate Building(accepts: Rule -> bool, before: Table, now: Table, chain: Chain, all: seq<Rule>,
      rest: seq<Rule>)
  {
    && chain in before && chain in now && now == before[chain := now[chain]]
    && AppendUntil(accepts, now[chain], rest) == AppendUntil(accepts, before[chain], all)
    && (AllAccepted(accepts, rest) <==> AllAccepted(accepts, all))
  }

  lemma BuildingStarts(accepts: Rule -> bool, before: Table, chain: Chain, all: seq<Rule>)
    requires chain in before
    ensures Building(accepts, before, before, chain, all, all)
  {
    assert before[chain := before[chain]] == before;
  }

  lemma BuildingEnds(accepts: Rule -> bool, before: Table, now: Table, chain: Chain, all: seq<Rule>)
    requires Building(accepts, before, now, chain, all, [])
    ensures now == before[chain := AppendUntil(accepts, before[chain], all)] && AllAccepted(accepts, all)
  {
  }

  /** A part that iptables takes brings the building on; a part that it does not is the end. */
  lemma BuildingPart(accepts: Rule -> bool, before: Table, now: Table, chain: Chain, all: seq<Rule>, part: seq<Rule>,
      rest: seq<Rule>)
    requires Building(accepts, before, now, chain, all, part + rest)
    ensures chain in now
    ensures var next := now[chain := AppendUntil(accepts, now[chain], part)];
            if AllAccepted(accepts, part) then Building(accepts, before, next, chain, all, rest)
            else next == before[chain := AppendUntil(accepts, before[chain], all)] && !AllAccepted(accepts, all)
  {
    AppendUntilConcat(accepts, now[chain], part, rest);
    AcceptedConcat(accepts, part, rest);
    hide AppendUntil, AllAccepted;
  }

  lemma BuildingNext(accepts: Rule -> bool, before: Table, now: Table, chain: Chain, all: seq<Rule>, r: Rule,
      rest: seq<Rule>)
    requires Building(accepts, before, now, chain, all, [r] + rest)
    ensures chain in now
    ensures if accepts(r) then Building(accepts, before, now[chain := Appended(now[chain], r)], chain, all, rest)
            else now == before[chain := AppendUntil(accepts, before[chain], all)] && !AllAccepted(accepts, all)
  {
    BuildingPart(accepts, before, now, chain, all, [r], rest);
    assert [r][1..] == [];
    assert now[chain := now[chain]] == now;
  }

  lemma AcceptedConcat(accepts: Rule -> bool, a: seq<Rule>, b: seq<Rule>)
    ensures AllAccepted(accepts, a + b) <==> AllAccepted(accepts, a) && AllAccepted(accepts, b)
  {
    if AllAccepted(accepts, a + b) {
      assert forall r | r in a :: r in a + b;
      assert forall r | r in b :: r in a + b;
    }
  }

  lemma Overwrite(table: Table, chain: Chain, rules: seq<Rule>, other: seq<Rule>)
    ensures table[chain := rules][chain := other] == table[chain := other]
  {
  }

  /** A chain once the first `i` policies have put their rules into it. */
  ghost function ChainAfter(accepts: Rule -> bool, env: Env, chain: Chain, logging: bool, ps: seq<Policy>, i: nat,
      rules: seq<Rule>): seq<Rule>
    requires i <= |ps|
  {
    InsertAll(rules, AllUserRules(accepts, env, chain, logging, ps[..i]))
  }

  lemma ChainAfterEnds(accepts: Rule -> bool, env: Env, chain: Chain, logging: bool, ps: seq<Policy>, rules: seq<Rule>)
    ensures ChainAfter(accepts, env, chain, logging, ps, 0, rules) == rules
    ensures ChainAfter(accepts, env, chain, logging, ps, |ps|, rules) ==
            InsertAll(rules, AllUserRules(accepts, env, chain, logging, ps))
  {
    assert ps[..0] == [] && ps[..|ps|] == ps;
  }

  lemma ChainAfterNext(accepts: Rule -> bool, env: Env, chain: Chain, logging: bool, ps: seq<Policy>, i: nat,
      rules: seq<Rule>)
    requires i < |ps|
    ensures ChainAfter(accepts, env, chain, logging, ps, i + 1, rules) ==
            InsertAll(ChainAfter(accepts, env, chain, logging, ps, i, rules),
                UserRules(accepts, env, chain, logging, ps[i]))
  {
    hide UserRules;
    assert ps[..i + 1][..i] == ps[..i] && ps[..i + 1][i] == ps[i];
    InsertAllConcat(rules, AllUserRules(accepts, env, chain, logging, ps[..i]),
        UserRules(accepts, env, chain, logging, ps[i]));
  }

  lemma HalfwayEnds(accepts: Rule -> bool, env: Env, np: NetworkPolicy, chain: Chain)
    requires IsPolicyChain(chain)
    ensures Halfway(accepts, env, np, chain, 0) == np
    ensures Halfway(accepts, env, np, chain, |ListOf(np, chain)|) ==
            WithList(np, chain, SettledList(accepts, env, np, chain))
  {
    var ps := ListOf(np, chain);
    assert ps[..0] == [] && ps[0..] == ps && [] + ps == ps;
    assert ps[..|ps|] == ps && ps[|ps|..] == [];
    assert SettledList(accepts, env, np, chain) + [] == SettledList(accepts, env, np, chain);
  }

  // ----- a commit in three parts -----

  /** The table once the predefined chains are built. */
  ghost function Predefined(env: Env, np: NetworkPolicy, before: Table): Table
    requires Forward in before
  {
    before[Root := AppendAll([], RootRules(np.nsMode.Enforce?))]
          [EastWest := AppendAll([], BaseRules(env, np, EastWest))]
          [NsObserve := AppendAll([], BaseRules(env, np, NsObserve))]
          [NsEnforce := AppendAll([], BaseRules(env, np, NsEnforce))]
          [Forward := Inserted(before[Forward], Rule(Jump(Root), NoFlags))]
  }

  /** The table once building the predefined chains has come to its end, or to the first
      command that fails. */
  ghost function Attempted(accepts: Rule -> bool, env: Env, np: NetworkPolicy, before: Table): Table
    requires Forward in before
  {
    if env.networks == [] then before
    else
      var jump := Rule(Jump(Root), NoFlags);
      var cleared := before[Root := []][EastWest := []][NsObserve := []][NsEnforce := []];
      if !accepts(jump) then cleared
      else
        var enforce := np.nsMode.Enforce?;
        var rooted := cleared[Forward := Inserted(before[Forward], jump)][Root := AppendUntil(accepts, [],
            RootRules(enforce))];
        if !AllAccepted(accepts, RootRules(enforce)) then rooted
        else
          var ew := rooted[EastWest := AppendUntil(accepts, [], EwRules(env.networks, np.ewLogging))];
          if !AllAccepted(accepts, EwRules(env.networks, np.ewLogging)) || env.hostInterface == "" then ew
          else ew[NsChain(enforce) := AppendUntil(accepts, [], NsRules(env, enforce, np.nsLogging))]
  }

  lemma AttemptedAll(accepts: Rule -> bool, env: Env, np: NetworkPolicy, before: Table)
    requires Forward in before && Fixed(np) == np && Buildable(accepts, env, np)
    ensures Attempted(accepts, env, np, before) == Predefined(env, np, before)
  {
    var enforce := np.nsMode.Enforce?;
    AppendUntilEnd(accepts, [], RootRules(enforce));
    AppendUntilEnd(accepts, [], EwRules(env.networks, np.ewLogging));
    AppendUntilEnd(accepts, [], NsRules(env, enforce, np.nsLogging));
    assert AppendAll([], []) == [];
    hide AllAccepted, RootRules, EwRules, NsRules, AppendUntil, AppendAll, Inserted;
    TableUpdates(before, Inserted(before[Forward], Rule(Jump(Root), NoFlags)),
                 AppendAll([], RootRules(enforce)), AppendAll([], BaseRules(env, np, EastWest)),
                 AppendAll([], NsRules(env, enforce, np.nsLogging)));
  }

  ghost function AllSettled(accepts: Rule -> bool, env: Env, np: NetworkPolicy): NetworkPolicy {
    np.(eastWest := SettledList(accepts, env, np, EastWest),
        observe := SettledList(accepts, env, np, NsObserve),
        enforce := SettledList(accepts, env, np, NsEnforce))
  }

  ghost function WithUserRules(accepts: Rule -> bool, env: Env, np: NetworkPolicy, chain: Chain,
      rules: seq<Rule>): seq<Rule>
    requires IsPolicyChain(chain)
  {
    InsertAll(rules, AllUserRules(accepts, env, chain, LoggingOf(np, chain), ListOf(np, chain)))
  }

  ghost function AllInserted(accepts: Rule -> bool, env: Env, np: NetworkPolicy, table: Table): Table
    requires EastWest in table && NsObserve in table && NsEnforce in table
  {
    table[EastWest := WithUserRules(accepts, env, np, EastWest, table[EastWest])]
         [NsObserve := WithUserRules(accepts, env, np, NsObserve, table[NsObserve])]
         [NsEnforce := WithUserRules(accepts, env, np, NsEnforce, table[NsEnforce])]
  }

  lemma CommitSteps(accepts: Rule -> bool, env: Env, np: NetworkPolicy, before: Table)
    requires Forward in before
    ensures AllInserted(accepts, env, Fixed(np), Predefined(env, Fixed(np), before)) ==
            Compiled(accepts, env, np, before)
    ensures AllSettled(accepts, env, Fixed(np)) == Settled(accepts, env, np)
    ensures Buildable(accepts, env, Fixed(np)) <==> Buildable(accepts, env, np)
  {
    hide AllUserRules, SettleAll, RootRules, EwRules, NsRules, InsertAll, AppendAll, AllAccepted;
  }

  /** What settling one policy does, case by case, to the store and to its chain. */
  lemma PolicyCases(accepts: Rule -> bool, env: Env, chain: Chain, logging: bool, p: Policy, rules: seq<Rule>)
    ensures var res := Resolve(env, chain, p);
            var after := InsertAll(rules, UserRules(accepts, env, chain, logging, p));
            var settled := Settle(accepts, env, chain, logging, p);
            if p.status.RemoveNextCommit? then after == rules && settled == None
            else if res.Missing? then
              after == rules && settled == Some(p.(status := Unresolved,
                  reason := "container: " + res.name + " not found"))
            else if !accepts(UserRule(chain, res)) then after == rules && settled == Some(p)
            else if !logging then
              after == Inserted(rules, UserRule(chain, res)) && settled == Some(p.(status := Applied, reason := ""))
            else if !accepts(LogRule(res)) then
              after == Inserted(rules, UserRule(chain, res)) && settled == Some(p)
            else
              after == Inserted(Inserted(rules, UserRule(chain, res)), LogRule(res)) &&
                  settled == Some(p.(status := Applied, reason := ""))
  {
    hide Resolve, InsertFlags;
    var res := Resolve(env, chain, p);
    if res.Resolved? {
      var a, l := UserRule(chain, res), LogRule(res);
      assert [a, l][1..] == [l] && [a][1..] == [] && [l][1..] == [];
      assert InsertAll(rules, [a]) == Inserted(rules, a);
      assert InsertAll(Inserted(rules, a), [l]) == Inserted(Inserted(rules, a), l);
    }
  }

  lemma TableUpdates(t: Table, fwd: seq<Rule>, root: seq<Rule>, ew: seq<Rule>, ns: seq<Rule>)
    ensures t[Root := []][EastWest := []][NsObserve := []][NsEnforce := []]
             [Forward := fwd][Root := root][EastWest := ew][NsObserve := ns]
            == t[Root := root][EastWest := ew][NsObserve := ns][NsEnforce := []][Forward := fwd]
    ensures t[Root := []][EastWest := []][NsObserve := []][NsEnforce := []]
             [Forward := fwd][Root := root][EastWest := ew][NsEnforce := ns]
            == t[Root := root][EastWest := ew][NsObserve := []][NsEnforce := ns][Forward := fwd]
  {
  }
}
