/** What an NFLOG entry says about the packet that left it. */
module PolicyLogging {
  import opened PacketFilter
  import opened PolicyStore
  import opened PolicyCompiler
  import opened PolicyMeaning

  lemma {:induction false} LoggedMatches(rules: seq<Rule>, p: Packet)
    ensures forall f | f in Logged(rules, p) :: FlagsMatch(f, p) && Rule(Nflog, f) in rules
  {
    if rules != [] {
      LoggedMatches(rules[1..], p);
      assert rules == [rules[0]] + rules[1..];
    }
  }

  /** Once a rule of `a` decides the packet, nothing further down can log it. */
  lemma {:induction false} LoggedBefore(a: seq<Rule>, b: seq<Rule>, r: Rule, p: Packet)
    requires r in a && RuleMatches(r, p) && (r.target.Accept? || r.target.Drop?)
    ensures forall f | f in Logged(a + b, p) :: Rule(Nflog, f) in a
  {
    assert (a + b)[1..] == a[1..] + b;
    assert a == [a[0]] + a[1..];
    if a[0] != r {
      LoggedBefore(a[1..], b, r, p);
    }
  }

  function Prefix(f: Flags): string {
    match f
    case Then(_, NflogPrefix(prefix)) => prefix
    case _ => ""
  }

  function Group(f: Flags): int {
    match f
    case Then(Then(_, NflogGroup(group)), NflogPrefix(_)) => group
    case _ => 0
  }

  /** A policy's log rule matches the new connections that the policy names, and what it leaves
      is this entry. */
  lemma LogRuleMeaning(env: Env, chain: Chain, p: Policy, pkt: Packet)
    requires IsPolicyChain(chain) && Resolve(env, chain, p).Resolved?
    ensures var f := InsertFlags(Resolve(env, chain, p).log);
            && (FlagsMatch(f, pkt) <==> Hits(env, chain, p, pkt) && pkt.ctstate == New)
            && Prefix(f) == (if chain.EastWest? then "RAIND-EW-ALLOW,id="
                             else if chain.NsObserve? then "RAIND-NS-DENY,id=" else "RAIND-NS-ALLOW,id=") + p.id
            && Group(f) == if chain.EastWest? then 10 else if chain.NsObserve? then 11 else 12
  {
    var res := Resolve(env, chain, p);
    UserRuleMeaning(env, chain, p, pkt);
    InsertFlagsMeaning(res.log, pkt);
    InsertFlagsMeaning(res.rule, pkt);
    InsertedEntry(res.log);
    hide InsertFlags, Hits, HasLease;
  }

  lemma InsertedEntry(m: RuleModel)
    requires m.nflogPrefix != "" && m.nflogGroup > 0
    ensures Prefix(InsertFlags(m)) == m.nflogPrefix && Group(InsertFlags(m)) == m.nflogGroup
    ensures Prefix(AddFlags(m)) == m.nflogPrefix && Group(AddFlags(m)) == m.nflogGroup
  {
    hide CommonFlags;
  }

  /** A packet that left a policy's log entry meets with that policy's action: an ALLOW
      entry is left by accepted packets only, a DENY entry by dropped ones only. */
  lemma PolicyEntryIsTrue(accepts: Rule -> bool, env: Env, np: NetworkPolicy, table: Table, chain: Chain, p: Policy,
      pkt: Packet, depth: nat)
    requires IsPolicyChain(chain) && p in ListOf(np, chain) && !p.status.RemoveNextCommit?
    requires Resolve(env, chain, p).Resolved? && accepts(UserRule(chain, Resolve(env, chain, p)))
    requires InsertFlags(Resolve(env, chain, p).log) in Logged(CompiledChain(accepts, env, np, chain), pkt)
    ensures Walk(table, CompiledChain(accepts, env, np, chain), pkt, depth) == if chain.NsObserve? then Dropped else
            Accepted
  {
    hide CompiledChain, BaseRules, Walk, Logged, InsertFlags, Resolve, Hits;
    LoggedMatches(CompiledChain(accepts, env, np, chain), pkt);
    LogRuleMeaning(env, chain, p, pkt);
    ChainWalk(accepts, env, np, table, chain, pkt, depth);
    assert SpeaksFor(accepts, env, chain, p, pkt);
  }

  /** The tenth letter of a prefix tells ALLOW from DENY: what user policies of the chain do. */
  function Letter(chain: Chain): char {
    if chain.NsObserve? then 'D' else 'A'
  }

  predicate Says(f: Flags, letter: char) {
    |Prefix(f)| > 9 && Prefix(f)[9] == letter
  }

  lemma {:induction false} UserEntries(accepts: Rule -> bool, env: Env, chain: Chain, logging: bool, ps: seq<Policy>)
    requires IsPolicyChain(chain)
    ensures forall r | r in AllUserRules(accepts, env, chain, logging, ps) && r.target.Nflog? ::
              Says(r.flags, Letter(chain))
  {
    if ps != [] {
      var n := |ps| - 1;
      UserEntries(accepts, env, chain, logging, ps[..n]);
      UserEntry(accepts, env, chain, logging, ps[n]);
      hide UserRules, Says;
    }
  }

  lemma UserEntry(accepts: Rule -> bool, env: Env, chain: Chain, logging: bool, p: Policy)
    requires IsPolicyChain(chain)
    ensures forall r | r in UserRules(accepts, env, chain, logging, p) && r.target.Nflog? ::
              Says(r.flags, Letter(chain))
  {
    var res := Resolve(env, chain, p);
    if res.Resolved? {
      var head := if chain.EastWest? then "RAIND-EW-ALLOW,id="
                  else if chain.NsObserve? then "RAIND-NS-DENY,id=" else "RAIND-NS-ALLOW,id=";
      var prefix := head + p.id;
      assert res.log.nflogPrefix == prefix && prefix[9] == Letter(chain) && prefix != "";
      assert Prefix(InsertFlags(res.log)) == prefix by {
        hide CommonFlags;
      }
      hide Resolve, InsertFlags, Prefix;
      assert forall r | r in UserRules(accepts, env, chain, logging, p) && r.target.Nflog? :: r == LogRule(res);
    }
  }

  /** A packet that some policy of a chain speaks for leaves entries of that chain's policies
      only: none in the predefined rules, which say the opposite. */
  lemma SpokenForEntries(accepts: Rule -> bool, env: Env, np: NetworkPolicy, chain: Chain, pkt: Packet)
    requires IsPolicyChain(chain) && SpokenFor(accepts, env, chain, ListOf(np, chain), pkt)
    ensures forall f | f in Logged(CompiledChain(accepts, env, np, chain), pkt) :: Says(f, Letter(chain))
  {
    hide Walk, Logged, SpokenFor, RuleMatches, BaseRules, AppendAll, InsertAll, AllUserRules, Says;
    var logging := LoggingOf(np, chain);
    var us := AllUserRules(accepts, env, chain, logging, ListOf(np, chain));
    var base := AppendAll([], BaseRules(env, np, chain));
    AllUserRulesMeaning(accepts, env, chain, logging, ListOf(np, chain), pkt);
    var r :| r in us && r.target == Action(chain) && RuleMatches(r, pkt);
    BaseTargets(env, np, chain, pkt);
    AppendAllMembers([], BaseRules(env, np, chain));
    var front := InsertAllShape(base, us);
    LoggedBefore(front, base, r, pkt);
    UserEntries(accepts, env, chain, logging, ListOf(np, chain));
  }

  // ----- every new connection leaves its entry -----

  /** Rules that do not match leave nothing, and nothing is lost behind them. */
  lemma {:induction false} LoggedBehind(a: seq<Rule>, b: seq<Rule>, p: Packet)
    requires forall r | r in a :: !RuleMatches(r, p)
    ensures Logged(a + b, p) == Logged(b, p)
  {
    if a == [] {
      assert a + b == b;
    } else {
      assert (a + b)[1..] == a[1..] + b;
      assert a[0] in a && forall r | r in a[1..] :: r in a;
      LoggedBehind(a[1..], b, p);
    }
  }

  lemma {:induction false} UserRulesSplit(accepts: Rule -> bool, env: Env, chain: Chain, logging: bool, ps: seq<Policy>,
      k: nat)
    returns (rest: seq<Rule>)
    requires k <= |ps|
    ensures AllUserRules(accepts, env, chain, logging, ps) == AllUserRules(accepts, env, chain, logging, ps[..k]) + rest
    ensures forall r | r in rest :: exists j :: k <= j < |ps| && r in UserRules(accepts, env, chain, logging, ps[j])
  {
    hide UserRules;
    var n := |ps| - 1;
    if k == |ps| {
      rest := [];
      assert ps[..k] == ps;
    } else {
      var before := UserRulesSplit(accepts, env, chain, logging, ps[..n], k);
      rest := before + UserRules(accepts, env, chain, logging, ps[n]);
      assert ps[..n][..k] == ps[..k];
      forall r | r in rest ensures exists j :: k <= j < |ps| && r in UserRules(accepts, env, chain, logging, ps[j]) {
        if r in before {
          var j :| k <= j < n && r in UserRules(accepts, env, chain, logging, ps[..n][j]);
          assert ps[..n][j] == ps[j];
        } else {
          assert r in UserRules(accepts, env, chain, logging, ps[n]);
        }
      }
    }
  }

  lemma UserRulesOf(accepts: Rule -> bool, env: Env, chain: Chain, logging: bool, p: Policy, pkt: Packet)
    requires IsPolicyChain(chain)
    ensures !SpeaksFor(accepts, env, chain, p, pkt) ==>
              forall r | r in UserRules(accepts, env, chain, logging, p) :: !RuleMatches(r, pkt)
    ensures forall r | r in UserRules(accepts, env, chain, logging, p) && r.target.Nflog? ::
              Resolve(env, chain, p).Resolved? && r == LogRule(Resolve(env, chain, p))
  {
    var res := Resolve(env, chain, p);
    if res.Resolved? {
      LogRuleMeaning(env, chain, p, pkt);
      UserRuleMeaning(env, chain, p, pkt);
    }
    hide Resolve, InsertFlags, Hits, FlagsMatch;
  }

  lemma OtherEntry(env: Env, chain: Chain, p: Policy, q: Policy, pkt: Packet)
    requires IsPolicyChain(chain) && p.id != q.id
    requires Resolve(env, chain, p).Resolved? && Resolve(env, chain, q).Resolved?
    ensures LogRule(Resolve(env, chain, p)) != LogRule(Resolve(env, chain, q))
  {
    LogRuleMeaning(env, chain, p, pkt);
    LogRuleMeaning(env, chain, q, pkt);
    hide Resolve, InsertFlags, Hits;
    var head := if chain.EastWest? then "RAIND-EW-ALLOW,id="
                else if chain.NsObserve? then "RAIND-NS-DENY,id=" else "RAIND-NS-ALLOW,id=";
    assert (head + p.id)[|head|..] == p.id && (head + q.id)[|head|..] == q.id;
  }

  /** The log rule of a policy is in no earlier part of its chain. */
  lemma EntryIsNew(accepts: Rule -> bool, env: Env, np: NetworkPolicy, chain: Chain, k: nat, pkt: Packet)
    requires IsPolicyChain(chain) && k < |ListOf(np, chain)| && DistinctIds(ListOf(np, chain))
    requires Resolve(env, chain, ListOf(np, chain)[k]).Resolved?
    ensures var l := LogRule(Resolve(env, chain, ListOf(np, chain)[k]));
            && l !in BaseRules(env, np, chain)
            && l !in AllUserRules(accepts, env, chain, LoggingOf(np, chain), ListOf(np, chain)[..k])
  {
    var ps, logging := ListOf(np, chain), LoggingOf(np, chain);
    var l := LogRule(Resolve(env, chain, ps[k]));
    hide BaseRules, UserRules, Resolve, InsertFlags, AddFlags, Predefined, Prefix, Group, Hits;
    LogRuleMeaning(env, chain, ps[k], pkt);
    assert Says(l.flags, Letter(chain));
    PredefinedAreAll(env, np, chain);
    if l in BaseRules(env, np, chain) {
      var m :| Predefined(env, chain, m) && l.flags == AddFlags(m);
      PredefinedSays(env, chain, m);
    }
    var rest := UserRulesSplit(accepts, env, chain, logging, ps[..k], 0);
    forall j | 0 <= j < k ensures l !in UserRules(accepts, env, chain, logging, ps[..k][j]) {
      UserRulesOf(accepts, env, chain, logging, ps[j], pkt);
      if l in UserRules(accepts, env, chain, logging, ps[j]) {
        OtherEntry(env, chain, ps[j], ps[k], pkt);
      }
    }
    assert ps[..k][..0] == [];
  }

  /** A new connection that policies of a chain speak for leaves the entry of the last of them,
      if that list is logged and iptables took the log rule. */
  lemma EntryIsLeft(accepts: Rule -> bool, env: Env, np: NetworkPolicy, chain: Chain, k: nat, pkt: Packet)
    requires IsPolicyChain(chain) && k < |ListOf(np, chain)| && DistinctIds(ListOf(np, chain))
    requires if chain.EastWest? then np.ewLogging else np.nsLogging
    requires SpeaksFor(accepts, env, chain, ListOf(np, chain)[k], pkt) && pkt.ctstate == New
    requires forall j | k < j < |ListOf(np, chain)| :: !SpeaksFor(accepts, env, chain, ListOf(np, chain)[j], pkt)
    requires Resolve(env, chain, ListOf(np, chain)[k]).Resolved? ==>
               accepts(LogRule(Resolve(env, chain, ListOf(np, chain)[k])))
    ensures Resolve(env, chain, ListOf(np, chain)[k]).Resolved?
    ensures InsertFlags(Resolve(env, chain, ListOf(np, chain)[k]).log) in Logged(CompiledChain(accepts, env, np, chain),
            pkt)
  {
    var ps, logging := ListOf(np, chain), LoggingOf(np, chain);
    HitsResolved(env, chain, ps[k], pkt);
    LogRuleMeaning(env, chain, ps[k], pkt);
    hide BaseRules, Resolve, InsertFlags, Hits, InsertAll, AppendAll, AllUserRules, Prefix, Group;
    var u, l := UserRule(chain, Resolve(env, chain, ps[k])), LogRule(Resolve(env, chain, ps[k]));
    assert logging && UserRules(accepts, env, chain, logging, ps[k]) == [u, l];
    hide UserRules, SpeaksFor;
    EntryIsNew(accepts, env, np, chain, k, pkt);
    var base := AppendAll([], BaseRules(env, np, chain));
    AppendAllMembers([], BaseRules(env, np, chain));
    var rest := UserRulesSplit(accepts, env, chain, logging, ps, k + 1);
    var early := AllUserRules(accepts, env, chain, logging, ps[..k]);
    NextUserRules(accepts, env, chain, logging, ps, k);
    PutInFront(base, early, u, l, rest, pkt, CompiledChain(accepts, env, np, chain));
    forall r | r in rest ensures !RuleMatches(r, pkt) {
      var j :| k + 1 <= j < |ps| && r in UserRules(accepts, env, chain, logging, ps[j]);
      UserRulesOf(accepts, env, chain, logging, ps[j], pkt);
    }
  }

  lemma NextUserRules(accepts: Rule -> bool, env: Env, chain: Chain, logging: bool, ps: seq<Policy>, k: nat)
    requires k < |ps|
    ensures AllUserRules(accepts, env, chain, logging, ps[..k + 1]) ==
            AllUserRules(accepts, env, chain, logging, ps[..k]) + UserRules(accepts, env, chain, logging, ps[k])
  {
    assert ps[..k + 1][..k] == ps[..k];
  }

  lemma PutInFront(base: seq<Rule>, early: seq<Rule>, u: Rule, l: Rule, rest: seq<Rule>, pkt: Packet, all: seq<Rule>)
    requires l !in base && l !in early && l != u && l.target.Nflog? && RuleMatches(l, pkt)
    requires all == InsertAll(base, early + [u, l] + rest)
    ensures (forall r | r in rest :: !RuleMatches(r, pkt)) ==> l.flags in Logged(all, pkt)
  {
    hide RuleMatches;
    InsertAllConcat(base, early + [u, l], rest);
    InsertAllConcat(base, early, [u, l]);
    var front := InsertAllShape(base, early);
    var mid := InsertAll(InsertAll(base, early), [u, l]);
    InsertTwo(InsertAll(base, early), u, l);
    var later := InsertAllShape(mid, rest);
    if forall r | r in rest :: !RuleMatches(r, pkt) {
      LoggedBehind(later, mid, pkt);
    }
  }

  lemma InsertTwo(rules: seq<Rule>, u: Rule, l: Rule)
    requires l !in rules && l != u
    ensures InsertAll(rules, [u, l]) == [l] + Inserted(rules, u)
  {
    assert [u, l][1..] == [l] && [l][1..] == [];
    assert InsertAll(Inserted(rules, u), [l]) == Inserted(Inserted(rules, u), l);
  }

  // ----- the predefined entries -----

  /** The predefined entries of a chain, by what they describe. */
  ghost predicate Predefined(env: Env, chain: Chain, m: RuleModel) {
    match chain
    case EastWest => m == INTER_BRIDGE_LOG_MODEL || exists n :: n in env.networks && m == EwLogModel(n)
    case NsEnforce => exists n :: n in env.networks && m == NsOutModel(n, env.hostInterface, 12, NS_DENY)
    case NsObserve => Inbound(env, m) || exists n ::
        n in env.networks && m == NsOutModel(n, env.hostInterface, 11, NS_ALLOW)
    case _ => false
  }

  /** The observe entries for packets that come in by the host interface. */
  ghost predicate Inbound(env: Env, m: RuleModel) {
    exists n, protocol | protocol in ["tcp", "udp"] :: n in env.networks &&
        m == NsInModel(env.hostInterface, n, protocol)
  }

  lemma PredefinedSays(env: Env, chain: Chain, m: RuleModel)
    requires Predefined(env, chain, m)
    ensures !Says(AddFlags(m), Letter(chain))
  {
    assert EW_DENY[9] == 'D' && NS_DENY[9] == 'D' && NS_ALLOW[9] == 'A';
    InsertedEntry(m);
    hide AddFlags;
  }

  /** Where packets of a predefined entry go. */
  lemma PredefinedDevices(env: Env, chain: Chain, m: RuleModel, pkt: Packet)
    requires Predefined(env, chain, m) && FlagsMatch(AddFlags(m), pkt)
    ensures chain.EastWest? ==> BetweenContainers(env, pkt)
    ensures chain.NsEnforce? || (chain.NsObserve? && !Inbound(env, m)) ==> ToTheOutside(env, pkt)
  {
    AddFlagsMeaning(m, pkt);
    hide AddFlags, FlagsMatch;
  }

  /** What a predefined entry says of the packet that left it. The DENY entries of both kinds
      in RAIND-EW and those of RAIND-NS-ENF are left by dropped packets only, and the outbound
      ALLOW entries of RAIND-NS-OBS by accepted ones. An inbound ALLOW entry is true exactly if
      the packet also leaves a container network by the host interface; any other packet that
      leaves it is not decided by the chain. */
  lemma PredefinedEntryIsTrue(accepts: Rule -> bool, env: Env, np: NetworkPolicy, table: Table, chain: Chain,
      m: RuleModel, pkt: Packet, depth: nat)
    requires IsPolicyChain(chain) && Predefined(env, chain, m)
    requires !chain.EastWest? ==> chain == if Enforces(np) then NsEnforce else NsObserve
    requires AddFlags(m) in Logged(CompiledChain(accepts, env, np, chain), pkt)
    ensures Walk(table, CompiledChain(accepts, env, np, chain), pkt, depth) ==
            if !chain.NsObserve? then Dropped
            else if !Inbound(env, m) || ToTheOutside(env, pkt) then Accepted else Undecided
  {
    hide AddFlags, Walk, Logged, FlagsMatch, CompiledChain, Says, SpokenFor, Predefined, Inbound, BetweenContainers,
      ToTheOutside;
    PredefinedSays(env, chain, m);
    LoggedMatches(CompiledChain(accepts, env, np, chain), pkt);
    PredefinedDevices(env, chain, m, pkt);
    if SpokenFor(accepts, env, chain, ListOf(np, chain), pkt) {
      SpokenForEntries(accepts, env, np, chain, pkt);
    }
    if chain.EastWest? {
      EastWestWalk(accepts, env, np, table, pkt, depth);
    } else {
      NorthSouthWalk(accepts, env, np, table, pkt, depth);
    }
  }

  /** Which entries those are: every log rule among the predefined ones. */
  lemma PredefinedAreAll(env: Env, np: NetworkPolicy, chain: Chain)
    requires IsPolicyChain(chain)
    ensures forall r | r in BaseRules(env, np, chain) && r.target.Nflog? ::
              exists m :: Predefined(env, chain, m) && r.flags == AddFlags(m)
  {
    hide AddFlags, Predefined, EwLogs, EwDrops, EnforceLogs, EnforceDrops, ObserveBody;
    EwLogsAre(env, env.networks);
    EnforceLogsAre(env, env.networks);
    ObserveLogsAre(env, env.networks);
    PredefinedInterBridge(env);
    DropsAre(env.networks, env.hostInterface);
    var tail := EwTail(np.ewLogging);
  }

  lemma PredefinedInterBridge(env: Env)
    ensures Predefined(env, EastWest, INTER_BRIDGE_LOG_MODEL)
  {
  }

  lemma {:induction false} DropsAre(ns: seq<string>, host: string)
    ensures forall r | r in EwDrops(ns) || r in EnforceDrops(ns, host) :: r.target.Drop?
  {
    hide AddFlags;
    if ns != [] {
      DropsAre(ns[1..], host);
    }
  }

  lemma {:induction false} EwLogsAre(env: Env, ns: seq<string>)
    requires forall n | n in ns :: n in env.networks
    ensures forall r | r in EwLogs(ns) :: exists m :: Predefined(env, EastWest, m) && r.flags == AddFlags(m)
  {
    hide AddFlags;
    if ns != [] {
      EwLogsAre(env, ns[1..]);
      assert Predefined(env, EastWest, EwLogModel(ns[0]));
    }
  }

  lemma {:induction false} EnforceLogsAre(env: Env, ns: seq<string>)
    requires forall n | n in ns :: n in env.networks
    ensures forall r | r in EnforceLogs(ns, env.hostInterface) ::
              exists m :: Predefined(env, NsEnforce, m) && r.flags == AddFlags(m)
  {
    hide AddFlags;
    if ns != [] {
      EnforceLogsAre(env, ns[1..]);
      assert Predefined(env, NsEnforce, NsOutModel(ns[0], env.hostInterface, 12, NS_DENY));
    }
  }

  lemma {:induction false} ObserveLogsAre(env: Env, ns: seq<string>)
    requires forall n | n in ns :: n in env.networks
    ensures forall nflog, r | r in ObserveBody(ns, env.hostInterface, nflog) && r.target.Nflog? ::
              exists m :: Predefined(env, NsObserve, m) && r.flags == AddFlags(m)
  {
    hide AddFlags;
    if ns != [] {
      ObserveLogsAre(env, ns[1..]);
      var host := env.hostInterface;
      assert "tcp" in ["tcp", "udp"] && "udp" in ["tcp", "udp"];
      assert Predefined(env, NsObserve, NsInModel(host, ns[0], "tcp"));
      assert Predefined(env, NsObserve, NsInModel(host, ns[0], "udp"));
      assert Predefined(env, NsObserve, NsOutModel(ns[0], host, 11, NS_ALLOW));
      hide Predefined;
      forall nflog, r | r in ObserveBody(ns, host, nflog) && r.target.Nflog?
        ensures exists m :: Predefined(env, NsObserve, m) && r.flags == AddFlags(m)
      {
        if r in ObserveBody(ns[1..], host, nflog) {
        } else {
          assert r in ObserveNetwork(host, ns[0], nflog);
        }
      }
    }
  }

  // ----- every other new connection leaves the predefined entry -----

  /** Leaving out what is there already changes nothing in what a packet leaves behind. */
  lemma {:induction false} LoggedOnce(a: seq<Rule>, r: Rule, b: seq<Rule>, p: Packet)
    requires r in a
    ensures forall f :: f in Logged(a + [r] + b, p) <==> f in Logged(a + b, p)
  {
    assert (a + [r] + b)[1..] == a[1..] + [r] + b && (a + b)[1..] == a[1..] + b;
    assert a == [a[0]] + a[1..];
    hide RuleMatches;
    if a[0] != r {
      LoggedOnce(a[1..], r, b, p);
    } else if RuleMatches(r, p) && r.target.Nflog? {
      LoggedAgain(a[1..], r, b, p);
    } else if r.target.Jump? || !RuleMatches(r, p) {
      LoggedNothing(a[1..], r, b, p);
    }
  }

  lemma {:induction false} LoggedAgain(a: seq<Rule>, r: Rule, b: seq<Rule>, p: Packet)
    requires r.target.Nflog?
    ensures forall f | f != r.flags :: f in Logged(a + [r] + b, p) <==> f in Logged(a + b, p)
  {
    hide RuleMatches;
    if a == [] {
      assert [] + [r] + b == [r] + b && ([r] + b)[1..] == b && [] + b == b;
    } else {
      assert (a + [r] + b)[1..] == a[1..] + [r] + b && (a + b)[1..] == a[1..] + b;
      LoggedAgain(a[1..], r, b, p);
    }
  }

  lemma {:induction false} LoggedNothing(a: seq<Rule>, r: Rule, b: seq<Rule>, p: Packet)
    requires r.target.Jump? || !RuleMatches(r, p)
    ensures Logged(a + [r] + b, p) == Logged(a + b, p)
  {
    hide RuleMatches;
    if a == [] {
      assert [] + [r] + b == [r] + b && ([r] + b)[1..] == b && [] + b == b;
    } else {
      assert (a + [r] + b)[1..] == a[1..] + [r] + b && (a + b)[1..] == a[1..] + b;
      LoggedNothing(a[1..], r, b, p);
    }
  }

  lemma {:induction false} LoggedAppended(rules: seq<Rule>, rs: seq<Rule>, p: Packet)
    ensures forall f :: f in Logged(AppendAll(rules, rs), p) <==> f in Logged(rules + rs, p)
    decreases rs
  {
    if rs == [] {
      assert rules + [] == rules;
    } else {
      LoggedAppended(Appended(rules, rs[0]), rs[1..], p);
      assert rules + rs == rules + [rs[0]] + rs[1..];
      if rs[0] in rules {
        LoggedOnce(rules, rs[0], rs[1..], p);
      }
    }
  }

  /** What a packet that no policy of the chain speaks for leaves there. */
  lemma UnspokenEntries(accepts: Rule -> bool, env: Env, np: NetworkPolicy, chain: Chain, pkt: Packet)
    requires IsPolicyChain(chain) && !SpokenFor(accepts, env, chain, ListOf(np, chain), pkt)
    ensures forall f :: f in Logged(CompiledChain(accepts, env, np, chain), pkt) <==>
              f in Logged(BaseRules(env, np, chain), pkt)
  {
    hide Logged, BaseRules, AppendAll, InsertAll, AllUserRules, RuleMatches, SpeaksFor;
    var ps, logging := ListOf(np, chain), LoggingOf(np, chain);
    var us := AllUserRules(accepts, env, chain, logging, ps);
    var base := AppendAll([], BaseRules(env, np, chain));
    LoggedAppended([], BaseRules(env, np, chain), pkt);
    assert [] + BaseRules(env, np, chain) == BaseRules(env, np, chain);
    var rest := UserRulesSplit(accepts, env, chain, logging, ps, 0);
    assert AllUserRules(accepts, env, chain, logging, ps[..0]) == [] by {
      NoUserRules(accepts, env, chain, logging, ps[..0]);
    }
    forall r | r in us ensures !RuleMatches(r, pkt) {
      assert r in rest;
      var j :| 0 <= j < |ps| && r in UserRules(accepts, env, chain, logging, ps[j]);
      UserRulesOf(accepts, env, chain, logging, ps[j], pkt);
      assert ps[j] in ps;
    }
    var front := InsertAllShape(base, us);
    LoggedBehind(front, base, pkt);
  }

  lemma NoUserRules(accepts: Rule -> bool, env: Env, chain: Chain, logging: bool, ps: seq<Policy>)
    requires ps == []
    ensures AllUserRules(accepts, env, chain, logging, ps) == []
  {
  }

  /** Log rules in front leave their entries exactly if they match. */
  lemma {:induction false} LoggedFront(logs: seq<Rule>, b: seq<Rule>, p: Packet)
    requires forall r | r in logs :: r.target.Nflog?
    ensures forall f :: f in Logged(logs + b, p) <==> (Rule(Nflog, f) in logs && FlagsMatch(f, p)) || f in Logged(b, p)
  {
    if logs == [] {
      assert logs + b == b;
    } else {
      assert (logs + b)[1..] == logs[1..] + b && logs == [logs[0]] + logs[1..];
      LoggedFront(logs[1..], b, p);
    }
  }

  /** Rules that only drop leave nothing, and end it if one of them matches. */
  lemma {:induction false} LoggedDrops(drops: seq<Rule>, b: seq<Rule>, p: Packet)
    requires forall r | r in drops :: r.target.Drop?
    ensures Logged(drops + b, p) == if exists r :: r in drops && RuleMatches(r, p) then [] else Logged(b, p)
  {
    hide RuleMatches;
    if drops == [] {
      assert drops + b == b;
    } else {
      assert (drops + b)[1..] == drops[1..] + b && drops == [drops[0]] + drops[1..];
      LoggedDrops(drops[1..], b, p);
    }
  }

  /** A new connection inside a bridge, or between bridges, that no policy speaks for leaves
      the DENY entry; one that stays in a network without being bridged is dropped unlogged. */
  lemma EastWestEntryIsLeft(accepts: Rule -> bool, env: Env, np: NetworkPolicy, pkt: Packet)
    requires np.ewLogging && !SpokenFor(accepts, env, EastWest, np.eastWest, pkt)
    ensures var left := Logged(CompiledChain(accepts, env, np, EastWest), pkt);
            var inside := exists n :: n in env.networks && OnDevice(n, pkt.inDev) && OnDevice(n, pkt.outDev);
            && (left != [] <==>
                  && pkt.ctstate == New
                  && (inside ==> pkt.bridged)
                  && (!inside ==> DevMatches(ANY_BRIDGE, pkt.inDev) && DevMatches(ANY_BRIDGE, pkt.outDev)))
            && (forall f | f in left :: Prefix(f) == "RAIND-EW-DENY,id=predefined" && Group(f) == 10)
  {
    hide Logged, CompiledChain, OnDevice, DevMatches, AddFlags, FlagsMatch, Prefix, Group, SpokenFor, EwLogs, EwDrops,
        EwTail;
    UnspokenEntries(accepts, env, np, EastWest, pkt);
    var ns := env.networks;
    assert EwRules(ns, true) == EwLogs(ns) + (EwDrops(ns) + EwTail(true));
    EwLogsLeave(ns, pkt);
    LoggedFront(EwLogs(ns), EwDrops(ns) + EwTail(true), pkt);
    EwDropsMeaning(ns, pkt);
    LoggedDrops(EwDrops(ns), EwTail(true), pkt);
    EwTailLeaves(pkt);
    SameNone(Logged(CompiledChain(accepts, env, np, EastWest), pkt), Logged(EwRules(ns, true), pkt));
    var left := Logged(EwRules(ns, true), pkt);
    if n :| n in ns && OnDevice(n, pkt.inDev) && OnDevice(n, pkt.outDev) && pkt.ctstate == New && pkt.bridged {
      assert AddFlags(EwLogModel(n)) in left;
    } else {
      assert forall r | r in EwLogs(ns) :: !FlagsMatch(r.flags, pkt);
      SameNone(left, Logged(EwDrops(ns) + EwTail(true), pkt));
    }
  }

  lemma SameNone(a: seq<Flags>, b: seq<Flags>)
    requires forall f :: f in a <==> f in b
    ensures a != [] <==> b != []
  {
    if a != [] {
      assert a[0] in b;
    }
    if b != [] {
      assert b[0] in a;
    }
  }

  lemma {:induction false} EwLogsLeave(ns: seq<string>, pkt: Packet)
    ensures forall r | r in EwLogs(ns) :: r.target.Nflog? && Prefix(r.flags) == EW_DENY && Group(r.flags) == 10
    ensures forall n | n in ns :: AddRule(EwLogModel(n), Nflog) in EwLogs(ns) &&
              (FlagsMatch(AddFlags(EwLogModel(n)), pkt) <==>
                 pkt.ctstate == New && pkt.bridged && OnDevice(n, pkt.inDev) && OnDevice(n, pkt.outDev))
    ensures forall r | r in EwLogs(ns) :: exists n :: n in ns && r == AddRule(EwLogModel(n), Nflog)
  {
    if ns != [] {
      EwLogsLeave(ns[1..], pkt);
      AddFlagsMeaning(EwLogModel(ns[0]), pkt);
      InsertedEntry(EwLogModel(ns[0]));
      assert ns == [ns[0]] + ns[1..];
      hide AddFlags, FlagsMatch, Prefix, Group, DevMatches;
    }
  }

  lemma EwTailLeaves(pkt: Packet)
    ensures var left := Logged(EwTail(true), pkt);
            && (left != [] <==>
                  pkt.ctstate == New && DevMatches(ANY_BRIDGE, pkt.inDev) && DevMatches(ANY_BRIDGE, pkt.outDev))
            && (forall f | f in left :: Prefix(f) == EW_DENY && Group(f) == 10)
  {
    var log, drop, ret := AddRule(INTER_BRIDGE_LOG_MODEL, Nflog), AddRule(BetweenModel(ANY_BRIDGE, ANY_BRIDGE), Drop),
        AddRule(RETURN_MODEL, Return);
    AddFlagsMeaning(INTER_BRIDGE_LOG_MODEL, pkt);
    InsertedEntry(INTER_BRIDGE_LOG_MODEL);
    hide AddFlags, FlagsMatch, Prefix, Group, DevMatches;
    assert EwTail(true) == [log] + ([drop, ret]);
    LoggedFront([log], [drop, ret], pkt);
    assert [drop, ret][1..] == [ret] && [ret][1..] == [];
    assert Logged([drop, ret], pkt) == [];
    var left := Logged(EwTail(true), pkt);
    assert left != [] ==> left[0] in left;
    assert log in [log] && Rule(Nflog, log.flags) == log;
  }

  /** A new connection from a network to the outside that no policy speaks for leaves the DENY
      entry in enforce mode. */
  lemma EnforceEntryIsLeft(accepts: Rule -> bool, env: Env, np: NetworkPolicy, pkt: Packet)
    requires np.nsLogging && Enforces(np) && !SpokenFor(accepts, env, NsEnforce, np.enforce, pkt)
    ensures var left := Logged(CompiledChain(accepts, env, np, NsEnforce), pkt);
            && (left != [] <==> pkt.ctstate == New && ToTheOutside(env, pkt))
            && (forall f | f in left :: Prefix(f) == "RAIND-NS-DENY,id=predefined" && Group(f) == 12)
  {
    hide Logged, CompiledChain, OnDevice, AddFlags, FlagsMatch, Prefix, Group, SpokenFor, EnforceLogs, EnforceDrops;
    UnspokenEntries(accepts, env, np, NsEnforce, pkt);
    var ns, host, ret := env.networks, env.hostInterface, [AddRule(RETURN_MODEL, Return)];
    assert EnforceRules(ns, host, true) == EnforceLogs(ns, host) + (EnforceDrops(ns, host) + ret);
    EnforceLogsLeave(ns, host, pkt);
    LoggedFront(EnforceLogs(ns, host), EnforceDrops(ns, host) + ret, pkt);
    EnforceDropsMeaning(ns, host, pkt);
    LoggedDrops(EnforceDrops(ns, host), ret, pkt);
    ReturnLeavesNothing(pkt);
    SameNone(Logged(CompiledChain(accepts, env, np, NsEnforce), pkt), Logged(EnforceRules(ns, host, true), pkt));
    var left := Logged(EnforceRules(ns, host, true), pkt);
    if n :| n in ns && OnDevice(n, pkt.inDev) && OnDevice(host, pkt.outDev) && pkt.ctstate == New {
      assert AddFlags(NsOutModel(n, host, 12, NS_DENY)) in left;
    } else {
      assert forall r | r in EnforceLogs(ns, host) :: !FlagsMatch(r.flags, pkt);
      SameNone(left, Logged(EnforceDrops(ns, host) + ret, pkt));
    }
  }

  lemma ReturnLeavesNothing(pkt: Packet)
    ensures Logged([AddRule(RETURN_MODEL, Return)], pkt) == []
  {
  }

  lemma {:induction false} EnforceLogsLeave(ns: seq<string>, host: string, pkt: Packet)
    ensures forall r | r in EnforceLogs(ns, host) ::
              r.target.Nflog? && Prefix(r.flags) == NS_DENY && Group(r.flags) == 12
    ensures forall n | n in ns :: AddRule(NsOutModel(n, host, 12, NS_DENY), Nflog) in EnforceLogs(ns, host) &&
              (FlagsMatch(AddFlags(NsOutModel(n, host, 12, NS_DENY)), pkt) <==>
                 pkt.ctstate == New && OnDevice(n, pkt.inDev) && OnDevice(host, pkt.outDev))
    ensures forall r | r in EnforceLogs(ns, host) ::
              exists n :: n in ns && r == AddRule(NsOutModel(n, host, 12, NS_DENY), Nflog)
  {
    if ns != [] {
      EnforceLogsLeave(ns[1..], host, pkt);
      AddFlagsMeaning(NsOutModel(ns[0], host, 12, NS_DENY), pkt);
      InsertedEntry(NsOutModel(ns[0], host, 12, NS_DENY));
      assert ns == [ns[0]] + ns[1..];
      hide AddFlags, FlagsMatch, Prefix, Group, DevMatches;
    }
  }

  /** In observe mode a new connection to the outside that no policy speaks for leaves the ALLOW
      entry, and so does one from the outside to a network by TCP with SYN or by UDP, unless
      its devices also make it one to the outside. */
  lemma ObserveEntryIsLeft(accepts: Rule -> bool, env: Env, np: NetworkPolicy, pkt: Packet)
    requires np.nsLogging && !Enforces(np) && !SpokenFor(accepts, env, NsObserve, np.observe, pkt)
    ensures var left := Logged(CompiledChain(accepts, env, np, NsObserve), pkt);
            && (pkt.ctstate == New && ToTheOutside(env, pkt) ==> left != [])
            && (!ToTheOutside(env, pkt) ==>
                  (left != [] <==> pkt.ctstate == New && FromTheOutside(env, pkt)))
            && (forall f | f in left :: Prefix(f) == "RAIND-NS-ALLOW,id=predefined" && Group(f) == 11)
  {
    hide Logged, CompiledChain, ObserveBody, SpokenFor, Prefix, Group, OnDevice, ArrivesAt, AddFlags;
    UnspokenEntries(accepts, env, np, NsObserve, pkt);
    ObserveLeaves(env, env.networks, pkt);
    SameNone(Logged(CompiledChain(accepts, env, np, NsObserve), pkt),
             Logged(ObserveRules(env.networks, env.hostInterface, true), pkt));
  }

  ghost predicate FromTheOutside(env: Env, pkt: Packet) {
    exists n :: n in env.networks && ArrivesAt(env, n, pkt)
  }

  predicate ArrivesAt(env: Env, n: string, pkt: Packet) {
    && OnDevice(env.hostInterface, pkt.inDev) && OnDevice(n, pkt.outDev)
    && ((pkt.protoIs("tcp") && pkt.syn) || pkt.protoIs("udp"))
  }

  lemma ObserveNetworkLeaves(env: Env, n: string, rest: seq<Rule>, pkt: Packet)
    ensures var (host, left) := (env.hostInterface, Logged(ObserveNetwork(env.hostInterface, n, true) + rest, pkt));
            var outward := OnDevice(n, pkt.inDev) && OnDevice(host, pkt.outDev);
            && (outward ==> (left != [] <==> pkt.ctstate == New))
            && (!outward ==> (left != [] <==>
                (pkt.ctstate == New && ArrivesAt(env, n, pkt)) || Logged(rest, pkt) != []))
            && (forall f | f in left :: (Prefix(f) == NS_ALLOW && Group(f) == 11) || f in Logged(rest, pkt))
  {
    var host := env.hostInterface;
    var tcp, udp, out := NsInModel(host, n, "tcp"), NsInModel(host, n, "udp"), NsOutModel(n, host, 11, NS_ALLOW);
    AddFlagsMeaning(tcp, pkt);
    AddFlagsMeaning(udp, pkt);
    AddFlagsMeaning(out, pkt);
    BetweenMeaning(n, host, Accept, pkt);
    InsertedEntry(tcp);
    InsertedEntry(udp);
    InsertedEntry(out);
    hide AddFlags, FlagsMatch, Prefix, Group, DevMatches;
    var accept := AddRule(BetweenModel(n, host), Accept);
    var logs := ObserveLogs(host, n);
    assert ObserveNetwork(host, n, true) + rest == logs + ([accept] + rest);
    LoggedFront(logs, [accept] + rest, pkt);
    assert ([accept] + rest)[1..] == rest;
    SomeOfThree(logs, Logged(logs + ([accept] + rest), pkt), Logged([accept] + rest, pkt), pkt);
  }

  lemma SomeOfThree(logs: seq<Rule>, left: seq<Flags>, later: seq<Flags>, pkt: Packet)
    requires |logs| == 3 && forall r | r in logs :: r.target.Nflog?
    requires forall f :: f in left <==> (Rule(Nflog, f) in logs && FlagsMatch(f, pkt)) || f in later
    ensures left != [] <==> FlagsMatch(logs[0].flags, pkt) || FlagsMatch(logs[1].flags, pkt) ||
                            FlagsMatch(logs[2].flags, pkt) || later != []
  {
    hide FlagsMatch;
    assert forall r | r in logs :: r == Rule(Nflog, r.flags);
    assert left != [] ==> left[0] in left;
    assert later != [] ==> later[0] in later;
    assert logs[0] in logs && logs[1] in logs && logs[2] in logs;
  }

  lemma {:induction false} ObserveLeaves(env: Env, ns: seq<string>, pkt: Packet)
    ensures var left := Logged(ObserveBody(ns, env.hostInterface, true) + [AddRule(RETURN_MODEL, Return)], pkt);
            var outward := exists n :: n in ns && OnDevice(n, pkt.inDev) && OnDevice(env.hostInterface, pkt.outDev);
            && (pkt.ctstate == New && outward ==> left != [])
            && (!outward ==> (left != [] <==> pkt.ctstate == New && exists n :: n in ns && ArrivesAt(env, n, pkt)))
            && (forall f | f in left :: Prefix(f) == NS_ALLOW && Group(f) == 11)
  {
    hide OnDevice, ArrivesAt, AddFlags, Prefix, Group, ObserveNetwork, Logged;
    var ret := [AddRule(RETURN_MODEL, Return)];
    if ns == [] {
      ReturnLeavesNothing(pkt);
      assert [] + ret == ret;
    } else {
      ObserveLeaves(env, ns[1..], pkt);
      var rest := ObserveBody(ns[1..], env.hostInterface, true) + ret;
      ObserveNetworkLeaves(env, ns[0], rest, pkt);
      assert ObserveBody(ns, env.hostInterface, true) + ret == ObserveNetwork(env.hostInterface, ns[0], true) + rest;
      assert ns == [ns[0]] + ns[1..];
    }
  }
}
