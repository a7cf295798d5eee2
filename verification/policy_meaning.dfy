/**
 What the compiled chains decide, told in terms of policies, containers and networks only.
 */
module PolicyMeaning {
  import opened Wrappers
  import opened PacketFilter
  import opened PolicyStore
  import opened PolicyCompiler
  import opened PolicyService

  // ----- the intended verdict -----

  /** An empty argument leaves the device open. */
  predicate OnDevice(arg: string, dev: string) {
    arg == "" || DevMatches(arg, dev)
  }

  /** A device argument is a name, and `raind+` is every name that begins with raind. */
  lemma DevicesByName(arg: string, dev: string)
    ensures arg != "" && arg[|arg| - 1] != '+' ==> (OnDevice(arg, dev) <==> arg == dev)
    ensures OnDevice(ANY_BRIDGE, dev) <==>
            |dev| >= 5 && dev[0] == 'r' && dev[1] == 'a' && dev[2] == 'i' && dev[3] == 'n' && dev[4] == 'd'
  {
    assert ANY_BRIDGE[..5] == "raind";
    assert ANY_BRIDGE[..5] <= dev ==> dev[..5] == "raind";
  }

  predicate OfKind(p: Policy, pkt: Packet) {
    (p.protocol == "" || pkt.protoIs(p.protocol)) && (p.destPort <= 0 || pkt.dport == p.destPort)
  }

  /** The container that the text names holds the lease. A text that is a container's name
      means that container, whatever ids there are; otherwise it means the container of that
      id, and if there is none, whoever the store lists under the empty id. */
  predicate HasLease(env: Env, text: string, lease: Lease) {
    || (text in env.idByName && (env.idByName[text], lease) in env.leases.Items)
    || (text !in env.idByName && text in env.nameById && (text, lease) in env.leases.Items)
    || (text !in env.idByName && text !in env.nameById && ("", lease) in env.leases.Items)
  }

  /** A policy that was added under the id or under the name of a container finds that
      container at a commit, as long as the store's names and ids belong together. */
  lemma RecordedIsFound(env: Env, id: string, name: string, text: string, recorded: string)
    requires name in env.idByName && env.idByName[name] == id && id in env.nameById && env.nameById[id] == name
    requires id !in env.idByName && (text == id || text == name) && IsCalled(env, text, recorded)
    ensures forall lease :: HasLease(env, recorded, lease) <==> (id, lease) in env.leases.Items
  {
  }

  ghost predicate HasSomeLease(env: Env, text: string) {
    exists lease :: HasLease(env, text, lease)
  }

  lemma LeaseIsHeld(env: Env, text: string)
    ensures forall lease :: HasLease(env, text, lease) <==> LeaseOf(env, text) == Some(lease)
    ensures HasSomeLease(env, text) <==> LeaseOf(env, text).Some?
  {
    if LeaseOf(env, text).Some? {
      assert HasLease(env, text, LeaseOf(env, text).value);
    }
  }

  /** The packet goes from the policy's source to its destination. */
  ghost predicate Hits(env: Env, chain: Chain, p: Policy, pkt: Packet) {
    && OfKind(p, pkt)
    && exists src :: HasLease(env, p.source.containerName, src) && ComesFrom(env, chain, src, p, pkt)
  }

  ghost predicate ComesFrom(env: Env, chain: Chain, src: Lease, p: Policy, pkt: Packet) {
    if chain.EastWest? then
      && pkt.bridged && OnDevice(src.veth, pkt.physIn)
      && exists dst :: HasLease(env, p.destination.containerName, dst) && OnDevice(dst.veth, pkt.physOut)
    else
      && OnDevice(src.bridge, pkt.inDev) && OnDevice(env.hostInterface, pkt.outDev)
      && (src.address == "" || pkt.srcIn(src.address))
      && (p.destination.address == "" || pkt.dstIn(p.destination.address))
  }

  /** A mode that waits for the next commit is in force after it. */
  predicate Enforces(np: NetworkPolicy) {
    np.nsMode.Enforce? || np.nsMode.EnforceNextCommit?
  }

  /** The policy decides the packet: it is not flagged for removal, its containers have
      addresses, and iptables took its rule. */
  ghost predicate SpeaksFor(accepts: Rule -> bool, env: Env, chain: Chain, p: Policy, pkt: Packet) {
    !p.status.RemoveNextCommit? && Hits(env, chain, p, pkt) && accepts(UserRule(chain, Resolve(env, chain, p)))
  }

  ghost predicate SpokenFor(accepts: Rule -> bool, env: Env, chain: Chain, ps: seq<Policy>, pkt: Packet) {
    exists p :: p in ps && SpeaksFor(accepts, env, chain, p, pkt)
  }

  /** Both ends of the packet's way through the host are container networks. */
  ghost predicate BetweenContainers(env: Env, pkt: Packet) {
    || (exists n :: n in env.networks && OnDevice(n, pkt.inDev) && OnDevice(n, pkt.outDev))
    || (DevMatches(ANY_BRIDGE, pkt.inDev) && DevMatches(ANY_BRIDGE, pkt.outDev))
  }

  /** The packet leaves a container network by the host interface. */
  ghost predicate ToTheOutside(env: Env, pkt: Packet) {
    exists n :: n in env.networks && OnDevice(n, pkt.inDev) && OnDevice(env.hostInterface, pkt.outDev)
  }

  ghost function NorthSouth(accepts: Rule -> bool, env: Env, np: NetworkPolicy, pkt: Packet): Verdict {
    if Enforces(np) then
      if SpokenFor(accepts, env, NsEnforce, np.enforce, pkt) then Accepted
      else if ToTheOutside(env, pkt) then Dropped else Undecided
    else
      if SpokenFor(accepts, env, NsObserve, np.observe, pkt) then Dropped
      else if ToTheOutside(env, pkt) then Accepted else Undecided
  }

  ghost function Intended(accepts: Rule -> bool, env: Env, np: NetworkPolicy, pkt: Packet): Verdict {
    if pkt.ctstate == Established || pkt.ctstate == Related then Accepted
    else if SpokenFor(accepts, env, EastWest, np.eastWest, pkt) then Accepted
    else if BetweenContainers(env, pkt) then Dropped
    else NorthSouth(accepts, env, np, pkt)
  }

  // ----- the user's rules -----

  lemma UserRulesTargets(accepts: Rule -> bool, env: Env, chain: Chain, logging: bool, p: Policy)
    ensures forall r | r in UserRules(accepts, env, chain, logging, p) :: r.target == Action(chain) || r.target.Nflog?
  {
    hide Resolve, InsertFlags;
  }

  /** One policy's rule matches exactly the packets the policy speaks for. */
  lemma UserRuleMeaning(env: Env, chain: Chain, p: Policy, pkt: Packet)
    requires IsPolicyChain(chain) && Resolve(env, chain, p).Resolved?
    ensures RuleMatches(UserRule(chain, Resolve(env, chain, p)), pkt) <==> Hits(env, chain, p, pkt)
  {
    LeaseIsHeld(env, p.source.containerName);
    LeaseIsHeld(env, p.destination.containerName);
    InsertFlagsMeaning(Resolve(env, chain, p).rule, pkt);
    hide InsertFlags, HasLease;
  }

  lemma HitsResolved(env: Env, chain: Chain, p: Policy, pkt: Packet)
    requires IsPolicyChain(chain) && Hits(env, chain, p, pkt)
    ensures Resolve(env, chain, p).Resolved?
  {
    LeaseIsHeld(env, p.source.containerName);
    LeaseIsHeld(env, p.destination.containerName);
    hide HasLease;
  }

  lemma OnePolicyMeaning(accepts: Rule -> bool, env: Env, chain: Chain, logging: bool, p: Policy, pkt: Packet)
    requires IsPolicyChain(chain)
    ensures (exists r ::
            r in UserRules(accepts, env, chain, logging, p) && r.target == Action(chain) && RuleMatches(r, pkt)) <==>
            SpeaksFor(accepts, env, chain, p, pkt)
  {
    if Hits(env, chain, p, pkt) {
      HitsResolved(env, chain, p, pkt);
    }
    var res := Resolve(env, chain, p);
    if res.Resolved? {
      UserRuleMeaning(env, chain, p, pkt);
    }
    hide Resolve, Hits, InsertFlags, FlagsMatch;
    if res.Resolved? && !p.status.RemoveNextCommit? && accepts(UserRule(chain, res)) {
      assert UserRule(chain, res) in UserRules(accepts, env, chain, logging, p);
    }
  }

  lemma {:induction false} AllUserRulesMeaning(accepts: Rule -> bool, env: Env, chain: Chain, logging: bool,
      ps: seq<Policy>, pkt: Packet)
    requires IsPolicyChain(chain)
    ensures forall r | r in AllUserRules(accepts, env, chain, logging, ps) ::
            r.target == Action(chain) || r.target.Nflog?
    ensures (exists r ::
            r in AllUserRules(accepts, env, chain, logging, ps) && r.target == Action(chain) &&
                RuleMatches(r, pkt)) <==>
            SpokenFor(accepts, env, chain, ps, pkt)
  {
    hide UserRules, SpeaksFor, RuleMatches;
    if ps != [] {
      var n := |ps| - 1;
      var rs, last := AllUserRules(accepts, env, chain, logging, ps[..n]),
          UserRules(accepts, env, chain, logging, ps[n]);
      AllUserRulesMeaning(accepts, env, chain, logging, ps[..n], pkt);
      OnePolicyMeaning(accepts, env, chain, logging, ps[n], pkt);
      UserRulesTargets(accepts, env, chain, logging, ps[n]);
      assert ps == ps[..n] + [ps[n]];
      assert forall r :: r in rs + last <==> r in rs || r in last;
      if p :| p in ps && SpeaksFor(accepts, env, chain, p, pkt) {
        assert p in ps[..n] || p == ps[n];
      }
    }
  }

  // ----- the predefined rules -----

  lemma BetweenMeaning(from: string, to: string, target: Target, pkt: Packet)
    ensures RuleMatches(AddRule(BetweenModel(from, to), target), pkt) <==>
            OnDevice(from, pkt.inDev) && OnDevice(to, pkt.outDev)
  {
    AddFlagsMeaning(BetweenModel(from, to), pkt);
    hide AddFlags;
  }

  lemma {:induction false} EwDropsMeaning(ns: seq<string>, pkt: Packet)
    ensures forall r | r in EwDrops(ns) :: r.target.Drop?
    ensures (exists r :: r in EwDrops(ns) && r.target == Drop && RuleMatches(r, pkt)) <==>
            (exists n :: n in ns && OnDevice(n, pkt.inDev) && OnDevice(n, pkt.outDev))
  {
    hide RuleMatches, OnDevice, AddFlags;
    if ns != [] {
      EwDropsMeaning(ns[1..], pkt);
      BetweenMeaning(ns[0], ns[0], Drop, pkt);
      assert ns == [ns[0]] + ns[1..];
      assert AddRule(BetweenModel(ns[0], ns[0]), Drop) in EwDrops(ns);
      if n :| n in ns && OnDevice(n, pkt.inDev) && OnDevice(n, pkt.outDev) {
        assert n == ns[0] || n in ns[1..];
      }
    }
  }

  lemma {:induction false} EnforceDropsMeaning(ns: seq<string>, host: string, pkt: Packet)
    ensures forall r | r in EnforceDrops(ns, host) :: r.target.Drop?
    ensures (exists r :: r in EnforceDrops(ns, host) && r.target == Drop && RuleMatches(r, pkt)) <==>
            (exists n :: n in ns && OnDevice(n, pkt.inDev) && OnDevice(host, pkt.outDev))
  {
    hide RuleMatches, OnDevice, AddFlags;
    if ns != [] {
      EnforceDropsMeaning(ns[1..], host, pkt);
      BetweenMeaning(ns[0], host, Drop, pkt);
      assert ns == [ns[0]] + ns[1..];
      assert AddRule(BetweenModel(ns[0], host), Drop) in EnforceDrops(ns, host);
      if n :| n in ns && OnDevice(n, pkt.inDev) && OnDevice(host, pkt.outDev) {
        assert n == ns[0] || n in ns[1..];
      }
    }
  }

  lemma ObserveNetworkMeaning(n: string, host: string, nflog: bool, pkt: Packet)
    ensures forall r | r in ObserveNetwork(host, n, nflog) :: r.target.Accept? || r.target.Nflog?
    ensures (exists r :: r in ObserveNetwork(host, n, nflog) && r.target == Accept && RuleMatches(r, pkt)) <==>
            OnDevice(n, pkt.inDev) && OnDevice(host, pkt.outDev)
  {
    BetweenMeaning(n, host, Accept, pkt);
    hide RuleMatches, OnDevice, AddFlags;
    assert AddRule(BetweenModel(n, host), Accept) in ObserveNetwork(host, n, nflog);
  }

  lemma {:induction false} ObserveBodyMeaning(ns: seq<string>, host: string, nflog: bool, pkt: Packet)
    ensures forall r | r in ObserveBody(ns, host, nflog) :: r.target.Accept? || r.target.Nflog?
    ensures (exists r :: r in ObserveBody(ns, host, nflog) && r.target == Accept && RuleMatches(r, pkt)) <==>
            (exists n :: n in ns && OnDevice(n, pkt.inDev) && OnDevice(host, pkt.outDev))
  {
    hide RuleMatches, OnDevice, ObserveNetwork;
    if ns != [] {
      ObserveBodyMeaning(ns[1..], host, nflog, pkt);
      ObserveNetworkMeaning(ns[0], host, nflog, pkt);
      assert ns == [ns[0]] + ns[1..];
      var here, rest := ObserveNetwork(host, ns[0], nflog), ObserveBody(ns[1..], host, nflog);
      assert forall r :: r in here + rest <==> r in here || r in rest;
      if n :| n in ns && OnDevice(n, pkt.inDev) && OnDevice(host, pkt.outDev) {
        assert n == ns[0] || n in ns[1..];
      }
    }
  }

  lemma {:induction false} LogsPass(table: Table, ns: seq<string>, host: string, pkt: Packet, depth: nat)
    ensures forall r | r in EwLogs(ns) || r in EnforceLogs(ns, host) :: r.target.Nflog?
  {
    hide AddFlags;
    if ns != [] {
      LogsPass(table, ns[1..], host, pkt, depth);
    }
  }

  lemma ReturnWalk(table: Table, pkt: Packet, depth: nat)
    ensures Walk(table, [AddRule(RETURN_MODEL, Return)], pkt, depth).Undecided?
    ensures RuleMatches(AddRule(RETURN_MODEL, Return), pkt)
  {
    AddFlagsMeaning(RETURN_MODEL, pkt);
    hide AddFlags;
  }

  lemma EwTailWalk(table: Table, nflog: bool, pkt: Packet, depth: nat)
    ensures Walk(table, EwTail(nflog), pkt, depth) ==
            if DevMatches(ANY_BRIDGE, pkt.inDev) && DevMatches(ANY_BRIDGE, pkt.outDev) then Dropped else Undecided
  {
    var log, drop, ret := AddRule(INTER_BRIDGE_LOG_MODEL, Nflog), AddRule(BetweenModel(ANY_BRIDGE, ANY_BRIDGE), Drop),
        AddRule(RETURN_MODEL, Return);
    BetweenMeaning(ANY_BRIDGE, ANY_BRIDGE, Drop, pkt);
    ReturnWalk(table, pkt, depth);
    hide AddFlags, RuleMatches, DevMatches;
    assert [drop, ret][1..] == [ret];
    if nflog {
      WalkConcat(table, [log], [drop, ret], pkt, depth);
      assert EwTail(nflog) == [log] + [drop, ret];
    } else {
      assert EwTail(nflog) == [drop, ret];
    }
  }

  lemma EwRulesWalk(table: Table, env: Env, nflog: bool, pkt: Packet, depth: nat)
    ensures Walk(table, EwRules(env.networks, nflog), pkt, depth) == if BetweenContainers(env, pkt) then Dropped else
            Undecided
    ensures forall r | r in EwRules(env.networks, nflog) :: r.target != Accept
  {
    var ns := env.networks;
    var logs := if nflog then EwLogs(ns) else [];
    LogsPass(table, ns, "", pkt, depth);
    EwDropsMeaning(ns, pkt);
    EwTailWalk(table, nflog, pkt, depth);
    hide AddFlags, RuleMatches, OnDevice, DevMatches, Walk;
    WalkUniform(table, EwDrops(ns), EwTail(nflog), Drop, pkt, depth);
    WalkConcat(table, logs, EwDrops(ns) + EwTail(nflog), pkt, depth);
    assert EwRules(ns, nflog) == logs + (EwDrops(ns) + EwTail(nflog));
  }

  lemma ObserveRulesWalk(table: Table, env: Env, nflog: bool, pkt: Packet, depth: nat)
    ensures Walk(table, ObserveRules(env.networks, env.hostInterface, nflog), pkt, depth) ==
            if ToTheOutside(env, pkt) then Accepted else Undecided
    ensures forall r | r in ObserveRules(env.networks, env.hostInterface, nflog) :: r.target != Drop
  {
    var ns, host := env.networks, env.hostInterface;
    ObserveBodyMeaning(ns, host, nflog, pkt);
    ReturnWalk(table, pkt, depth);
    hide AddFlags, RuleMatches, OnDevice, Walk;
    WalkUniform(table, ObserveBody(ns, host, nflog), [AddRule(RETURN_MODEL, Return)], Accept, pkt, depth);
  }

  lemma EnforceRulesWalk(table: Table, env: Env, nflog: bool, pkt: Packet, depth: nat)
    ensures Walk(table, EnforceRules(env.networks, env.hostInterface, nflog), pkt, depth) ==
            if ToTheOutside(env, pkt) then Dropped else Undecided
    ensures forall r | r in EnforceRules(env.networks, env.hostInterface, nflog) :: r.target != Accept
  {
    var ns, host, ret := env.networks, env.hostInterface, AddRule(RETURN_MODEL, Return);
    var logs := if nflog then EnforceLogs(ns, host) else [];
    LogsPass(table, ns, host, pkt, depth);
    EnforceDropsMeaning(ns, host, pkt);
    ReturnWalk(table, pkt, depth);
    hide AddFlags, RuleMatches, OnDevice, Walk;
    WalkUniform(table, EnforceDrops(ns, host), [ret], Drop, pkt, depth);
    WalkConcat(table, logs, EnforceDrops(ns, host) + [ret], pkt, depth);
    assert EnforceRules(ns, host, nflog) == logs + (EnforceDrops(ns, host) + [ret]);
  }

  // ----- the chains -----

  /** No base rule does to a packet what the user policies of its chain do. */
  lemma BaseTargets(env: Env, np: NetworkPolicy, chain: Chain, pkt: Packet)
    requires IsPolicyChain(chain)
    ensures forall r | r in BaseRules(env, np, chain) :: r.target != Action(chain)
  {
    hide EwRules, ObserveRules, EnforceRules, BetweenContainers, ToTheOutside, Walk;
    EwRulesWalk(map[], env, np.ewLogging, pkt, 0);
    ObserveRulesWalk(map[], env, np.nsLogging, pkt, 0);
    EnforceRulesWalk(map[], env, np.nsLogging, pkt, 0);
  }

  /** Every compiled policy chain: its user policies decide first, its base rules last. */
  lemma ChainWalk(accepts: Rule -> bool, env: Env, np: NetworkPolicy, table: Table, chain: Chain, pkt: Packet,
      depth: nat)
    requires IsPolicyChain(chain)
    ensures Walk(table, CompiledChain(accepts, env, np, chain), pkt, depth) ==
            if SpokenFor(accepts, env, chain, ListOf(np, chain), pkt) then
                (if chain.NsObserve? then Dropped else Accepted)
            else Walk(table, BaseRules(env, np, chain), pkt, depth)
  {
    var base := BaseRules(env, np, chain);
    var us := AllUserRules(accepts, env, chain, LoggingOf(np, chain), ListOf(np, chain));
    AllUserRulesMeaning(accepts, env, chain, LoggingOf(np, chain), ListOf(np, chain), pkt);
    AppendAllMeaning(table, [], base, pkt, depth);
    AppendAllMembers([], base);
    BaseTargets(env, np, chain, pkt);
    assert [] + base == base;
    hide BaseRules, AllUserRules, RuleMatches, Walk, SpokenFor, InsertAll, AppendAll;
    InsertAllMeaning(table, AppendAll([], base), us, Action(chain), pkt, depth);
  }

  lemma EastWestWalk(accepts: Rule -> bool, env: Env, np: NetworkPolicy, table: Table, pkt: Packet, depth: nat)
    ensures Walk(table, CompiledChain(accepts, env, np, EastWest), pkt, depth) ==
            if SpokenFor(accepts, env, EastWest, np.eastWest, pkt) then Accepted
            else if BetweenContainers(env, pkt) then Dropped else Undecided
  {
    hide EwRules, SpokenFor, BetweenContainers, CompiledChain, Walk;
    EwRulesWalk(table, env, np.ewLogging, pkt, depth);
    ChainWalk(accepts, env, np, table, EastWest, pkt, depth);
  }

  lemma NorthSouthWalk(accepts: Rule -> bool, env: Env, np: NetworkPolicy, table: Table, pkt: Packet, depth: nat)
    ensures Walk(table, CompiledChain(accepts, env, np, NsChain(Fixed(np).nsMode.Enforce?)), pkt, depth) ==
            NorthSouth(accepts, env, np, pkt)
  {
    hide ObserveRules, EnforceRules, SpokenFor, ToTheOutside, CompiledChain, Walk;
    if Fixed(np).nsMode.Enforce? {
      EnforceRulesWalk(table, env, np.nsLogging, pkt, depth);
      ChainWalk(accepts, env, np, table, NsEnforce, pkt, depth);
    } else {
      ObserveRulesWalk(table, env, np.nsLogging, pkt, depth);
      ChainWalk(accepts, env, np, table, NsObserve, pkt, depth);
    }
  }

  lemma CompiledEntries(accepts: Rule -> bool, env: Env, np: NetworkPolicy, before: Table)
    requires Forward in before
    ensures var table := Compiled(accepts, env, np, before);
            && Root in table && table[Root] == AppendAll([], RootRules(Fixed(np).nsMode.Enforce?))
            && Forward in table && table[Forward] == Inserted(before[Forward], Rule(Jump(Root), NoFlags))
            && (forall chain | IsPolicyChain(chain) ::
                chain in table && table[chain] == CompiledChain(accepts, env, np, chain))
  {
    hide CompiledChain, AppendAll, RootRules, Inserted;
  }

  /** The main result: after a commit, RAIND-ROOT decides every packet as intended, for
      every list of policies and networks. */
  lemma RootVerdict(accepts: Rule -> bool, env: Env, np: NetworkPolicy, before: Table, pkt: Packet, depth: nat)
    requires Forward in before && depth > 0
    ensures var table := Compiled(accepts, env, np, before);
            Root in table && Walk(table, table[Root], pkt, depth) == Intended(accepts, env, np, pkt)
  {
    hide CompiledChain, NorthSouth, SpokenFor, BetweenContainers, RootRules, Compiled, Walk, AppendAll;
    var table := Compiled(accepts, env, np, before);
    var enforce := Fixed(np).nsMode.Enforce?;
    CompiledEntries(accepts, env, np, before);
    EastWestWalk(accepts, env, np, table, pkt, depth - 1);
    NorthSouthWalk(accepts, env, np, table, pkt, depth - 1);
    AppendAllMeaning(table, [], RootRules(enforce), pkt, depth);
    assert [] + RootRules(enforce) == RootRules(enforce);
    RootWalk(table, enforce, pkt, depth);
  }

  lemma RootWalk(table: Table, enforce: bool, pkt: Packet, depth: nat)
    ensures Walk(table, RootRules(enforce), pkt, depth) ==
            if pkt.ctstate == Established || pkt.ctstate == Related then Accepted
            else
              var ew := JumpVerdict(table, EastWest, pkt, depth);
              if !ew.Undecided? then ew else JumpVerdict(table, NsChain(enforce), pkt, depth)
  {
    var rs := RootRules(enforce);
    AddFlagsMeaning(RETURN_TRAFFIC_MODEL, pkt);
    AddFlagsMeaning(RETURN_MODEL, pkt);
    ReturnWalk(table, pkt, depth);
    hide AddFlags, JumpVerdict, FlagsMatch;
    assert rs[3..] == [rs[3]];
    assert rs[2..][1..] == rs[3..];
    assert rs[1..][1..] == rs[2..];
    assert Walk(table, rs[2..], pkt, depth) == JumpVerdict(table, NsChain(enforce), pkt, depth);
    assert Walk(table, rs[1..], pkt, depth) ==
           var ew := JumpVerdict(table, EastWest, pkt, depth);
           if !ew.Undecided? then ew else JumpVerdict(table, NsChain(enforce), pkt, depth);
  }

  // ----- the verdict in the three situations a user asks about -----

  /** Traffic from a container network to the outside. In observe mode it passes unless
      some policy names it; in enforce mode it passes only if some policy names it. */
  lemma ContainerToOutside(accepts: Rule -> bool, env: Env, np: NetworkPolicy, before: Table, pkt: Packet, depth: nat)
    requires Forward in before && depth > 0
    requires pkt.ctstate != Established && pkt.ctstate != Related
    requires ToTheOutside(env, pkt)
    requires !pkt.bridged && !BetweenContainers(env, pkt)
    ensures var table := Compiled(accepts, env, np, before);
            var verdict := Walk(table, table[Root], pkt, depth);
            if Enforces(np)
            then verdict == if SpokenFor(accepts, env, NsEnforce, np.enforce, pkt) then Accepted else Dropped
            else verdict == if SpokenFor(accepts, env, NsObserve, np.observe, pkt) then Dropped else Accepted
  {
    hide Compiled, Walk;
    RootVerdict(accepts, env, np, before, pkt, depth);
    assert !SpokenFor(accepts, env, EastWest, np.eastWest, pkt);
  }

  /** Traffic between containers passes only if some east-west policy names it, whatever
      the north-south mode. */
  lemma ContainerToContainer(accepts: Rule -> bool, env: Env, np: NetworkPolicy, before: Table, pkt: Packet, depth: nat)
    requires Forward in before && depth > 0
    requires pkt.ctstate != Established && pkt.ctstate != Related
    requires BetweenContainers(env, pkt)
    ensures var table := Compiled(accepts, env, np, before);
            Walk(table, table[Root], pkt, depth) ==
            if SpokenFor(accepts, env, EastWest, np.eastWest, pkt) then Accepted else Dropped
  {
    hide Compiled, Walk;
    RootVerdict(accepts, env, np, before, pkt, depth);
  }

  /** Before anybody has set anything, containers reach the outside and not one another. */
  lemma DefaultVerdict(accepts: Rule -> bool, env: Env, before: Table, pkt: Packet, depth: nat)
    requires Forward in before && depth > 0 && pkt.ctstate != Established && pkt.ctstate != Related
    ensures var table := Compiled(accepts, env, DEFAULT_POLICY, before);
            Walk(table, table[Root], pkt, depth) ==
            if BetweenContainers(env, pkt) then Dropped else if ToTheOutside(env, pkt) then Accepted else Undecided
    ensures DEFAULT_POLICY.ewLogging && DEFAULT_POLICY.nsLogging
  {
    hide Compiled, Walk, BetweenContainers, ToTheOutside;
    RootVerdict(accepts, env, DEFAULT_POLICY, before, pkt, depth);
    NothingSpokenFor(accepts, env, DEFAULT_POLICY, pkt);
  }

  /** Bridges named raind* and a host interface that is none of them: then the guard of
      `ContainerToOutside` holds for every routed packet that leaves by the host interface. */
  lemma HostInterfaceIsOutside(env: Env, pkt: Packet)
    requires forall n | n in env.networks :: n != "" && DevMatches(ANY_BRIDGE, n) && n[|n| - 1] != '+'
    requires env.hostInterface != "" && env.hostInterface[|env.hostInterface| - 1] != '+'
    requires !DevMatches(ANY_BRIDGE, env.hostInterface)
    requires pkt.outDev == env.hostInterface && pkt.inDev in env.networks
    ensures ToTheOutside(env, pkt) && !BetweenContainers(env, pkt)
  {
    forall n | n in env.networks && OnDevice(n, pkt.inDev) ensures !OnDevice(n, pkt.outDev) {
      assert n != env.hostInterface;
    }
  }

  /** When FORWARD did not jump to RAIND-ROOT before, the commit puts the jump first, so a
      packet RAIND-ROOT decides is decided before any other rule of FORWARD. */
  lemma ForwardVerdict(accepts: Rule -> bool, env: Env, np: NetworkPolicy, before: Table, pkt: Packet, depth: nat)
    requires Forward in before && depth > 1
    requires Rule(Jump(Root), NoFlags) !in before[Forward]
    ensures var table := Compiled(accepts, env, np, before);
            Walk(table, table[Forward], pkt, depth) ==
            var verdict := Intended(accepts, env, np, pkt);
            if verdict.Undecided? then Walk(table, before[Forward], pkt, depth) else verdict
  {
    hide Compiled, Intended, RootRules, AppendAll, CompiledChain;
    RootVerdict(accepts, env, np, before, pkt, depth - 1);
    CompiledEntries(accepts, env, np, before);
    var r := Rule(Jump(Root), NoFlags);
    assert ([r] + before[Forward])[1..] == before[Forward];
    assert RuleMatches(r, pkt);
  }

  // ----- a commit that fails -----

  function NoPolicies(np: NetworkPolicy): NetworkPolicy {
    np.(eastWest := [], observe := [], enforce := [])
  }

  /** Rules up to the first that iptables refuses decide nothing that all of them would not. */
  lemma UntilWalk(table: Table, accepts: Rule -> bool, rs: seq<Rule>, pkt: Packet, depth: nat)
    ensures var verdict := Walk(table, AppendUntil(accepts, [], rs), pkt, depth);
            && (verdict.Undecided? || verdict == Walk(table, rs, pkt, depth))
            && (AllAccepted(accepts, rs) ==> verdict == Walk(table, rs, pkt, depth))
  {
    hide Walk, AppendUntil, AppendAll, AllAccepted, LeavesBy;
    var n := AppendUntilPrefix(accepts, [], rs);
    AppendAllMeaning(table, [], rs[..n], pkt, depth);
    WalkSplit(table, rs[..n], rs[n..], pkt, depth);
    assert [] + rs[..n] == rs[..n] && rs[..n] + rs[n..] == rs;
    if AllAccepted(accepts, rs) {
      AppendUntilEnd(accepts, [], rs);
      AppendAllMeaning(table, [], rs, pkt, depth);
      assert [] + rs == rs;
    }
  }

  lemma AttemptedEntries(accepts: Rule -> bool, env: Env, np: NetworkPolicy, before: Table)
    requires Forward in before && env.networks != []
    ensures var enforce := np.nsMode.Enforce?;
            var (table, ew) := (Attempted(accepts, env, np, before), EwRules(env.networks, np.ewLogging));
            && Root in table && EastWest in table && NsChain(enforce) in table
            && (table[Root] == [] || table[Root] == AppendUntil(accepts, [], RootRules(enforce)))
            && (table[EastWest] == [] || table[EastWest] == AppendUntil(accepts, [], ew))
            && (table[NsChain(enforce)] == [] ||
                (table[NsChain(enforce)] == AppendUntil(accepts, [], NsRules(env, enforce, np.nsLogging)) &&
                 AllAccepted(accepts, ew) && table[EastWest] == AppendUntil(accepts, [], ew)))
  {
    hide AppendUntil, AllAccepted, RootRules, EwRules, NsRules, Inserted;
  }

  /** The predefined rules by themselves, as far as they came. */
  lemma AttemptedJumps(accepts: Rule -> bool, env: Env, np: NetworkPolicy, table: Table, pkt: Packet, depth: nat)
    requires EastWest in table && NsChain(np.nsMode.Enforce?) in table && depth > 0
    requires var ew := EwRules(env.networks, np.ewLogging);
             && (table[EastWest] == [] || table[EastWest] == AppendUntil(accepts, [], ew))
             && (table[NsChain(np.nsMode.Enforce?)] == [] ||
                 (table[NsChain(np.nsMode.Enforce?)] ==
                     AppendUntil(accepts, [], NsRules(env, np.nsMode.Enforce?, np.nsLogging)) &&
                  AllAccepted(accepts, ew) && table[EastWest] == AppendUntil(accepts, [], ew)))
    ensures var (ew, ns) := (JumpVerdict(table, EastWest, pkt, depth),
            JumpVerdict(table, NsChain(np.nsMode.Enforce?), pkt, depth));
            && (!ew.Undecided? ==> ew == Dropped && BetweenContainers(env, pkt))
            && (!ns.Undecided? ==>
                  (ew.Undecided? ==> !BetweenContainers(env, pkt)) &&
                  ToTheOutside(env, pkt) && ns == if np.nsMode.Enforce? then Dropped else Accepted)
  {
    hide AppendUntil, AllAccepted, EwRules, ObserveRules, EnforceRules, BetweenContainers, ToTheOutside;
    UntilWalk(table, accepts, EwRules(env.networks, np.ewLogging), pkt, depth - 1);
    UntilWalk(table, accepts, NsRules(env, np.nsMode.Enforce?, np.nsLogging), pkt, depth - 1);
    EwRulesWalk(table, env, np.ewLogging, pkt, depth - 1);
    ObserveRulesWalk(table, env, np.nsLogging, pkt, depth - 1);
    EnforceRulesWalk(table, env, np.nsLogging, pkt, depth - 1);
  }

  /** A commit whose predefined chains cannot be built takes every policy out of force: what
      RAIND-ROOT still decides is what the predefined rules alone would, and some of that may
      be missing. Without a network nothing is touched. */
  lemma FailedBuildVerdict(accepts: Rule -> bool, env: Env, np: NetworkPolicy, before: Table, pkt: Packet, depth: nat)
    requires Forward in before && depth > 0 && !Buildable(accepts, env, np)
    ensures var table := Attempted(accepts, env, Fixed(np), before);
            && table == Attempted(accepts, env, Fixed(NoPolicies(np)), before)
            && if env.networks == [] then table == before
            else
              && Root in table
              && var verdict := Walk(table, table[Root], pkt, depth);
                 verdict.Undecided? || verdict == Intended(accepts, env, NoPolicies(np), pkt)
  {
    SameAttempt(accepts, env, np, before);
    if env.networks != [] {
      hide Attempted, AppendUntil, AllAccepted, RootRules, EwRules, NsRules, BetweenContainers, ToTheOutside,
          JumpVerdict;
      var table := Attempted(accepts, env, Fixed(np), before);
      AttemptedEntries(accepts, env, Fixed(np), before);
      AttemptedJumps(accepts, env, Fixed(np), table, pkt, depth);
      UntilWalk(table, accepts, RootRules(Fixed(np).nsMode.Enforce?), pkt, depth);
      RootWalk(table, Fixed(np).nsMode.Enforce?, pkt, depth);
      NothingSpokenFor(accepts, env, np, pkt);
    }
  }

  lemma SameAttempt(accepts: Rule -> bool, env: Env, np: NetworkPolicy, before: Table)
    requires Forward in before
    ensures Attempted(accepts, env, Fixed(np), before) == Attempted(accepts, env, Fixed(NoPolicies(np)), before)
  {
    hide AppendUntil, AllAccepted, RootRules, EwRules, Inserted;
  }

  lemma NothingSpokenFor(accepts: Rule -> bool, env: Env, np: NetworkPolicy, pkt: Packet)
    ensures forall chain :: !SpokenFor(accepts, env, chain, [], pkt)
    ensures Fixed(NoPolicies(np)).nsMode == Fixed(np).nsMode
  {
  }
}
