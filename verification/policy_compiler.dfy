/**
 The policy service: it compiles the stored policies into chains, settles the store while
 doing so, and keeps the copy to which a revert returns.
 */
module PolicyCompiler {
  import opened Wrappers
  import opened PacketFilter
  import opened PolicyStore

  // ----- what the container store and the address store answer -----

  datatype Lease = Lease(veth: string, bridge: string, address: string)

  /** The networks, the host interface, the container names and ids, and per container id
      the addresses it holds, as the two stores answer during one commit. */
  datatype Env = Env(
    networks: seq<string>, hostInterface: string,
    idByName: map<string, string>, nameById: map<string, string>,
    leases: map<string, Lease>)

  /** A policy names its container by name or by id; an unknown one has the empty id. */
  function ResolveId(env: Env, name: string): string {
    if name in env.idByName then env.idByName[name] else if name in env.nameById then name else ""
  }

  function LeaseOf(env: Env, name: string): Option<Lease> {
    var id := ResolveId(env, name);
    if id in env.leases then Some(env.leases[id]) else None
  }

  // ----- the predefined rules -----

  const EW_DENY := "RAIND-EW-DENY,id=predefined"
  const NS_ALLOW := "RAIND-NS-ALLOW,id=predefined"
  const NS_DENY := "RAIND-NS-DENY,id=predefined"
  const ANY_BRIDGE := "raind+"

  function AddRule(m: RuleModel, target: Target): Rule {
    Rule(target, AddFlags(m))
  }

  const RETURN_MODEL := RuleModel()
  const RETURN_TRAFFIC_MODEL := RuleModel(conntrack := true, ctstate := [Established, Related])

  function NsChain(enforce: bool): Chain {
    if enforce then NsEnforce else NsObserve
  }

  function RootRules(enforce: bool): seq<Rule> {
    [AddRule(RETURN_TRAFFIC_MODEL, Accept),
     AddRule(RETURN_MODEL, Jump(EastWest)),
     AddRule(RETURN_MODEL, Jump(NsChain(enforce))),
     AddRule(RETURN_MODEL, Return)]
  }

  function BetweenModel(from: string, to: string): RuleModel {
    RuleModel(inputDev := from, outputDev := to)
  }

  function EwLogModel(n: string): RuleModel {
    RuleModel(conntrack := true, ctstate := [New], physdev := true, physdevIsBridge := true,
              inputDev := n, outputDev := n, nflogGroup := 10, nflogPrefix := EW_DENY)
  }

  function EwLogs(ns: seq<string>): seq<Rule> {
    if ns == [] then [] else [AddRule(EwLogModel(ns[0]), Nflog)] + EwLogs(ns[1..])
  }

  function EwDrops(ns: seq<string>): seq<Rule> {
    if ns == [] then [] else [AddRule(BetweenModel(ns[0], ns[0]), Drop)] + EwDrops(ns[1..])
  }

  const INTER_BRIDGE_LOG_MODEL :=
    RuleModel(conntrack := true, ctstate := [New], inputDev := ANY_BRIDGE, outputDev := ANY_BRIDGE,
              nflogGroup := 10, nflogPrefix := EW_DENY)

  function EwTail(nflog: bool): seq<Rule> {
    (if nflog then [AddRule(INTER_BRIDGE_LOG_MODEL, Nflog)] else []) +
    [AddRule(BetweenModel(ANY_BRIDGE, ANY_BRIDGE), Drop), AddRule(RETURN_MODEL, Return)]
  }

  function EwRules(ns: seq<string>, nflog: bool): seq<Rule> {
    (if nflog then EwLogs(ns) else []) + EwDrops(ns) + EwTail(nflog)
  }

  function NsInModel(host: string, n: string, protocol: string): RuleModel {
    RuleModel(conntrack := true, ctstate := [New], inputDev := host, outputDev := n,
              protocol := protocol, syn := protocol == "tcp", nflogGroup := 11, nflogPrefix := NS_ALLOW)
  }

  function NsOutModel(n: string, host: string, group: int, prefix: string): RuleModel {
    RuleModel(conntrack := true, ctstate := [New], inputDev := n, outputDev := host,
              nflogGroup := group, nflogPrefix := prefix)
  }

  function ObserveLogs(host: string, n: string): seq<Rule> {
    [AddRule(NsInModel(host, n, "tcp"), Nflog),
     AddRule(NsInModel(host, n, "udp"), Nflog),
     AddRule(NsOutModel(n, host, 11, NS_ALLOW), Nflog)]
  }

  function ObserveNetwork(host: string, n: string, nflog: bool): seq<Rule> {
    (if nflog then ObserveLogs(host, n) else []) + [AddRule(BetweenModel(n, host), Accept)]
  }

  function ObserveBody(ns: seq<string>, host: string, nflog: bool): seq<Rule> {
    if ns == [] then [] else ObserveNetwork(host, ns[0], nflog) + ObserveBody(ns[1..], host, nflog)
  }

  function ObserveRules(ns: seq<string>, host: string, nflog: bool): seq<Rule> {
    ObserveBody(ns, host, nflog) + [AddRule(RETURN_MODEL, Return)]
  }

  function EnforceLogs(ns: seq<string>, host: string): seq<Rule> {
    if ns == [] then [] else [AddRule(NsOutModel(ns[0], host, 12, NS_DENY), Nflog)] + EnforceLogs(ns[1..], host)
  }

  function EnforceDrops(ns: seq<string>, host: string): seq<Rule> {
    if ns == [] then [] else [AddRule(BetweenModel(ns[0], host), Drop)] + EnforceDrops(ns[1..], host)
  }

  function EnforceRules(ns: seq<string>, host: string, nflog: bool): seq<Rule> {
    (if nflog then EnforceLogs(ns, host) else []) + EnforceDrops(ns, host) + [AddRule(RETURN_MODEL, Return)]
  }

  function NsRules(env: Env, enforce: bool, nflog: bool): seq<Rule> {
    if enforce then EnforceRules(env.networks, env.hostInterface, nflog)
    else ObserveRules(env.networks, env.hostInterface, nflog)
  }

  // ----- the user's rules -----

  /** Either the container that was not found, or the rule and its log rule. */
  datatype Resolution = Missing(name: string) | Resolved(rule: RuleModel, log: RuleModel)

  function EwModel(p: Policy, src: Lease, dst: Lease): RuleModel {
    RuleModel(physdev := true, physdevIsBridge := true, inputPhysdev := src.veth, outputPhysdev := dst.veth,
              protocol := p.protocol, destPort := p.destPort)
  }

  function NsModel(p: Policy, src: Lease, host: string): RuleModel {
    RuleModel(inputDev := src.bridge, source := src.address, outputDev := host, destination := p.destination.address,
              protocol := p.protocol, destPort := p.destPort)
  }

  function LogModel(m: RuleModel, group: int, prefix: string): RuleModel {
    m.(conntrack := true, ctstate := [New], nflogGroup := group, nflogPrefix := prefix)
  }

  function Resolve(env: Env, chain: Chain, p: Policy): Resolution {
    match LeaseOf(env, p.source.containerName)
    case None => Missing(p.source.containerName)
    case Some(src) =>
      if chain.EastWest? then
        match LeaseOf(env, p.destination.containerName) {
          case None => Missing(p.destination.containerName)
          case Some(dst) =>
            var m := EwModel(p, src, dst);
            Resolved(m, LogModel(m, 10, "RAIND-EW-ALLOW,id=" + p.id))
        }
      else
        var m := NsModel(p, src, env.hostInterface);
        if chain.NsObserve? then Resolved(m, LogModel(m, 11, "RAIND-NS-DENY,id=" + p.id))
        else Resolved(m, LogModel(m, 12, "RAIND-NS-ALLOW,id=" + p.id))
  }

  /** What a user policy of the chain does to the traffic it matches. */
  function Action(chain: Chain): Target {
    if chain.NsObserve? then Drop else Accept
  }

  function UserRule(chain: Chain, res: Resolution): Rule
    requires res.Resolved?
  {
    Rule(Action(chain), InsertFlags(res.rule))
  }

  function LogRule(res: Resolution): Rule
    requires res.Resolved?
  {
    Rule(Nflog, InsertFlags(res.log))
  }

  /** The rules one policy puts into its chain, in the order of insertion. */
  function UserRules(accepts: Rule -> bool, env: Env, chain: Chain, logging: bool, p: Policy): seq<Rule> {
    var res := Resolve(env, chain, p);
    if p.status.RemoveNextCommit? || res.Missing? || !accepts(UserRule(chain, res)) then []
    else if logging && accepts(LogRule(res)) then [UserRule(chain, res), LogRule(res)]
    else [UserRule(chain, res)]
  }

  function AllUserRules(accepts: Rule -> bool, env: Env, chain: Chain, logging: bool, ps: seq<Policy>): seq<Rule> {
    if ps == [] then []
    else AllUserRules(accepts, env, chain, logging, ps[..|ps| - 1]) +
         UserRules(accepts, env, chain, logging, ps[|ps| - 1])
  }

  /** What a commit leaves of a stored policy. */
  function Settle(accepts: Rule -> bool, env: Env, chain: Chain, logging: bool, p: Policy): Option<Policy> {
    if p.status.RemoveNextCommit? then None
    else
      match Resolve(env, chain, p)
      case Missing(name) => Some(p.(status := Unresolved, reason := "container: " + name + " not found"))
      case Resolved(rule, log) =>
        if accepts(UserRule(chain, Resolved(rule, log))) && (logging ==> accepts(LogRule(Resolved(rule, log))))
        then Some(p.(status := Applied, reason := ""))
        else Some(p)
  }

  function SettleAll(accepts: Rule -> bool, env: Env, chain: Chain, logging: bool, ps: seq<Policy>): seq<Policy> {
    if ps == [] then []
    else
      var before := SettleAll(accepts, env, chain, logging, ps[..|ps| - 1]);
      match Settle(accepts, env, chain, logging, ps[|ps| - 1])
      case None => before
      case Some(p) => before + [p]
  }

  // ----- a whole commit -----

  function FixedMode(mode: NsMode): NsMode {
    match mode
    case ObserveNextCommit => Observe
    case EnforceNextCommit => Enforce
    case _ => mode
  }

  function Fixed(np: NetworkPolicy): NetworkPolicy {
    np.(nsMode := FixedMode(np.nsMode))
  }

  function LoggingOf(np: NetworkPolicy, chain: Chain): bool {
    if chain.EastWest? then np.ewLogging else np.nsLogging
  }

  function SettledList(accepts: Rule -> bool, env: Env, np: NetworkPolicy, chain: Chain): seq<Policy>
    requires IsPolicyChain(chain)
  {
    SettleAll(accepts, env, chain, LoggingOf(np, chain), ListOf(np, chain))
  }

  /** The store after a commit. */
  function Settled(accepts: Rule -> bool, env: Env, np: NetworkPolicy): NetworkPolicy {
    Fixed(np).(
      eastWest := SettledList(accepts, env, np, EastWest),
      observe := SettledList(accepts, env, np, NsObserve),
      enforce := SettledList(accepts, env, np, NsEnforce))
  }

  function BaseRules(env: Env, np: NetworkPolicy, chain: Chain): seq<Rule>
    requires IsPolicyChain(chain)
  {
    var enforce := Fixed(np).nsMode.Enforce?;
    match chain
    case EastWest => EwRules(env.networks, np.ewLogging)
    case NsObserve => if enforce then [] else NsRules(env, false, np.nsLogging)
    case NsEnforce => if enforce then NsRules(env, true, np.nsLogging) else []
  }

  /** A policy chain after a commit. */
  function CompiledChain(accepts: Rule -> bool, env: Env, np: NetworkPolicy, chain: Chain): seq<Rule>
    requires IsPolicyChain(chain)
  {
    InsertAll(AppendAll([], BaseRules(env, np, chain)),
              AllUserRules(accepts, env, chain, LoggingOf(np, chain), ListOf(np, chain)))
  }

  /** The filter table after a commit. */
  function Compiled(accepts: Rule -> bool, env: Env, np: NetworkPolicy, before: Table): Table
    requires Forward in before
  {
    before[Root := AppendAll([], RootRules(Fixed(np).nsMode.Enforce?))]
          [EastWest := CompiledChain(accepts, env, np, EastWest)]
          [NsObserve := CompiledChain(accepts, env, np, NsObserve)]
          [NsEnforce := CompiledChain(accepts, env, np, NsEnforce)]
          [Forward := Inserted(before[Forward], Rule(Jump(Root), NoFlags))]
  }

  /** The predefined chains can be built. */
  predicate Buildable(accepts: Rule -> bool, env: Env, np: NetworkPolicy) {
    && env.networks != [] && env.hostInterface != ""
    && accepts(Rule(Jump(Root), NoFlags))
    && AllAccepted(accepts, RootRules(Fixed(np).nsMode.Enforce?))
    && AllAccepted(accepts, EwRules(env.networks, np.ewLogging))
    && AllAccepted(accepts, NsRules(env, Fixed(np).nsMode.Enforce?, np.nsLogging))
  }

  // ----- settling one policy at a time -----

  lemma {:induction false} SettleAllIds(accepts: Rule -> bool, env: Env, chain: Chain, logging: bool, ps: seq<Policy>)
    ensures forall q | q in SettleAll(accepts, env, chain, logging, ps) :: HasId(ps, q.id)
    ensures |SettleAll(accepts, env, chain, logging, ps)| <= |ps|
  {
    if ps != [] {
      var n := |ps| - 1;
      SettleAllIds(accepts, env, chain, logging, ps[..n]);
      forall q | q in SettleAll(accepts, env, chain, logging, ps) ensures HasId(ps, q.id) {
        if q in SettleAll(accepts, env, chain, logging, ps[..n]) {
          var p :| p in ps[..n] && p.id == q.id;
          assert p in ps;
        } else {
          assert ps[n] in ps && ps[n].id == q.id;
        }
      }
    }
  }

  lemma {:induction false} SettleAllDistinct(accepts: Rule -> bool, env: Env, chain: Chain, logging: bool,
      ps: seq<Policy>)
    requires DistinctIds(ps)
    ensures DistinctIds(SettleAll(accepts, env, chain, logging, ps))
  {
    if ps != [] {
      var n := |ps| - 1;
      SettleAllDistinct(accepts, env, chain, logging, ps[..n]);
      SettleAllIds(accepts, env, chain, logging, ps[..n]);
      var before := SettleAll(accepts, env, chain, logging, ps[..n]);
      forall i | 0 <= i < |before| ensures before[i].id != ps[n].id {
        assert before[i] in before;
        assert HasId(ps[..n], before[i].id);
      }
    }
  }

  lemma SettledListUnique(accepts: Rule -> bool, env: Env, np: NetworkPolicy, chain: Chain)
    requires UniqueIds(np) && IsPolicyChain(chain)
    ensures UniqueIds(WithList(np, chain, SettledList(accepts, env, np, chain)))
  {
    SettleAllDistinct(accepts, env, chain, LoggingOf(np, chain), ListOf(np, chain));
    SettleAllIds(accepts, env, chain, LoggingOf(np, chain), ListOf(np, chain));
  }

  /** While policy `i` of a list is being settled, the store holds the settled ones before
      it and the untouched ones from it on. */
  function Halfway(accepts: Rule -> bool, env: Env, np: NetworkPolicy, chain: Chain, i: nat): NetworkPolicy
    requires IsPolicyChain(chain) && i <= |ListOf(np, chain)|
  {
    var ps := ListOf(np, chain);
    WithList(np, chain, SettleAll(accepts, env, chain, LoggingOf(np, chain), ps[..i]) + ps[i..])
  }

  lemma HalfwayFirst(accepts: Rule -> bool, env: Env, np: NetworkPolicy, chain: Chain, i: nat)
    requires UniqueIds(np) && IsPolicyChain(chain) && i < |ListOf(np, chain)|
    ensures var ps := ListOf(np, chain);
            var before := SettleAll(accepts, env, chain, LoggingOf(np, chain), ps[..i]);
            && Halfway(accepts, env, np, chain, i) == WithList(np, chain, before + [ps[i]] + ps[i + 1..])
            && !HasId(before, ps[i].id)
            && ChainOf(Halfway(accepts, env, np, chain, i), ps[i].id) == Some(chain)
  {
    var ps := ListOf(np, chain);
    var before := SettleAll(accepts, env, chain, LoggingOf(np, chain), ps[..i]);
    SettleAllIds(accepts, env, chain, LoggingOf(np, chain), ps[..i]);
    forall q | q in before ensures q.id != ps[i].id {
      var q' :| q' in ps[..i] && q'.id == q.id;
    }
    assert before + [ps[i]] + ps[i + 1..] == before + ps[i..];
    assert ps[i] in before + ps[i..] by {
      assert (before + ps[i..])[|before|] == ps[i];
    }
    assert ps[i] in ps;
  }

  lemma HalfwayNext(accepts: Rule -> bool, env: Env, np: NetworkPolicy, chain: Chain, i: nat)
    requires IsPolicyChain(chain) && i < |ListOf(np, chain)|
    ensures var ps := ListOf(np, chain);
            var before := SettleAll(accepts, env, chain, LoggingOf(np, chain), ps[..i]);
            Halfway(accepts, env, np, chain, i + 1) ==
            match Settle(accepts, env, chain, LoggingOf(np, chain), ps[i])
            case None => WithList(np, chain, before + ps[i + 1..])
            case Some(q) => WithList(np, chain, before + [q] + ps[i + 1..])
  {
    var ps := ListOf(np, chain);
    assert ps[..i + 1][..i] == ps[..i] && ps[..i + 1][i] == ps[i];
  }

  /** Removing a flagged policy is settling it. */
  lemma RemoveStep(accepts: Rule -> bool, env: Env, np: NetworkPolicy, chain: Chain, i: nat)
    requires UniqueIds(np) && IsPolicyChain(chain) && i < |ListOf(np, chain)|
    requires ListOf(np, chain)[i].status.RemoveNextCommit?
    ensures Removed(Halfway(accepts, env, np, chain, i), ListOf(np, chain)[i].id) ==
            Some(Halfway(accepts, env, np, chain, i + 1))
  {
    var ps := ListOf(np, chain);
    HalfwayFirst(accepts, env, np, chain, i);
    HalfwayNext(accepts, env, np, chain, i);
    RemovedAt(np, chain, SettleAll(accepts, env, chain, LoggingOf(np, chain), ps[..i]), ps[i], ps[i + 1..]);
  }

  /** Writing its new status is settling any other policy. */
  lemma RestateStep(accepts: Rule -> bool, env: Env, np: NetworkPolicy, chain: Chain, i: nat, q: Policy)
    requires UniqueIds(np) && IsPolicyChain(chain) && i < |ListOf(np, chain)|
    requires Settle(accepts, env, chain, LoggingOf(np, chain), ListOf(np, chain)[i]) == Some(q)
    ensures Restated(Halfway(accepts, env, np, chain, i), chain, ListOf(np, chain)[i].id, q.status, q.reason) ==
            Some(Halfway(accepts, env, np, chain, i + 1))
  {
    var ps := ListOf(np, chain);
    var p := ps[i];
    HalfwayFirst(accepts, env, np, chain, i);
    HalfwayNext(accepts, env, np, chain, i);
    RestatedAt(np, chain, SettleAll(accepts, env, chain, LoggingOf(np, chain), ps[..i]), p, ps[i + 1..], q.status,
        q.reason);
    assert q == p.(status := q.status, reason := q.reason);
  }

  /** A policy whose rules were refused keeps its status. */
  lemma KeepStep(accepts: Rule -> bool, env: Env, np: NetworkPolicy, chain: Chain, i: nat)
    requires UniqueIds(np) && IsPolicyChain(chain) && i < |ListOf(np, chain)|
    requires Settle(accepts, env, chain, LoggingOf(np, chain), ListOf(np, chain)[i]) == Some(ListOf(np, chain)[i])
    ensures Halfway(accepts, env, np, chain, i) == Halfway(accepts, env, np, chain, i + 1)
  {
    HalfwayFirst(accepts, env, np, chain, i);
    HalfwayNext(accepts, env, np, chain, i);
  }
}
