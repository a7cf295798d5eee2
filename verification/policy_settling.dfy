/** What commits and reverts do to the stored policies. */
module PolicySettling {
  import opened Wrappers
  import opened PacketFilter
  import opened PolicyStore
  import opened PolicyCompiler
  import opened PolicyService
  import opened PolicyMeaning

  // ----- one commit -----

  function Survivors(ps: seq<Policy>): seq<Policy> {
    if ps == [] then []
    else Survivors(ps[..|ps| - 1]) + (if ps[|ps| - 1].status.RemoveNextCommit? then [] else [ps[|ps| - 1]])
  }

  /** A commit keeps exactly the policies not flagged for removal, in order; of each it
      changes at most status and reason. */
  lemma {:induction false} CommitFiltersTheList(accepts: Rule -> bool, env: Env, chain: Chain, logging: bool,
      ps: seq<Policy>)
    ensures var qs := SettleAll(accepts, env, chain, logging, ps);
            && |qs| == |Survivors(ps)|
            && forall k | 0 <= k < |qs| ::
                 && !Survivors(ps)[k].status.RemoveNextCommit?
                 && qs[k] == Survivors(ps)[k].(status := qs[k].status, reason := qs[k].reason)
                 && Settle(accepts, env, chain, logging, Survivors(ps)[k]) == Some(qs[k])
  {
    hide Resolve;
    if ps != [] {
      CommitFiltersTheList(accepts, env, chain, logging, ps[..|ps| - 1]);
    }
  }

  /** The status a surviving policy ends up with. It is applied if iptables took its rules
      now, or if it was applied before and its containers still have addresses; it is
      unresolved if a container it names has no address, or if it was unresolved before and
      iptables refused a rule. A refused policy keeps whatever it had. */
  lemma StatusAfterCommit(accepts: Rule -> bool, env: Env, chain: Chain, logging: bool, p: Policy)
    requires IsPolicyChain(chain) && !p.status.RemoveNextCommit?
    ensures var q := Settle(accepts, env, chain, logging, p).value;
            var found := HasSomeLease(env, p.source.containerName) &&
                         (chain.EastWest? ==> HasSomeLease(env, p.destination.containerName));
            var rs := UserRules(accepts, env, chain, logging, p);
            var taken := |rs| == if logging then 2 else 1;
            && (q.status == Applied <==> found && (taken || p.status == Applied))
            && (q.status == Unresolved <==> !found || (!taken && p.status == Unresolved))
            && (!found ==> rs == [] && q == p.(status := Unresolved, reason := "container: " +
                  (if HasSomeLease(env, p.source.containerName) then p.destination else p.source).containerName +
                  " not found"))
            && (found && taken ==> q == p.(status := Applied, reason := ""))
            && (found && !taken ==> q == p)
  {
    LeaseIsHeld(env, p.source.containerName);
    LeaseIsHeld(env, p.destination.containerName);
    hide InsertFlags, HasLease, HasSomeLease;
  }

  /** The mode that waits comes into force, and nothing else of the store's settings changes. */
  lemma ModeAfterCommit(accepts: Rule -> bool, env: Env, np: NetworkPolicy)
    ensures var np' := Settled(accepts, env, np);
            && (np'.nsMode == if Enforces(np) then Enforce else Observe)
            && np'.ewLogging == np.ewLogging && np'.nsLogging == np.nsLogging
  {
    hide SettleAll;
  }

  // ----- the mark and the verdict -----

  /** What a policy of the chain asks for. */
  function AsAsked(chain: Chain): Verdict {
    if chain.NsObserve? then Dropped else Accepted
  }

  /** The packet is not decided before it comes to the chain, and RAIND-ROOT jumps there. */
  ghost predicate Comes(accepts: Rule -> bool, env: Env, np: NetworkPolicy, chain: Chain, pkt: Packet) {
    && pkt.ctstate != Established && pkt.ctstate != Related
    && (chain.EastWest? ||
        (chain == (if Enforces(np) then NsEnforce else NsObserve) &&
         !SpokenFor(accepts, env, EastWest, np.eastWest, pkt) && !BetweenContainers(env, pkt)))
  }

  /** The store without the policy at a place of one list. */
  function Without(np: NetworkPolicy, chain: Chain, i: nat): NetworkPolicy
    requires IsPolicyChain(chain) && i < |ListOf(np, chain)|
  {
    WithList(np, chain, ListOf(np, chain)[..i] + ListOf(np, chain)[i + 1..])
  }

  ghost function RootDecides(accepts: Rule -> bool, env: Env, np: NetworkPolicy, before: Table, pkt: Packet,
      depth: nat): Verdict
    requires Forward in before
  {
    var table := Compiled(accepts, env, np, before);
    Walk(table, table[Root], pkt, depth)
  }

  lemma SpokenWithout(accepts: Rule -> bool, env: Env, chain: Chain, ps: seq<Policy>, i: nat, pkt: Packet)
    requires i < |ps|
    ensures SpokenFor(accepts, env, chain, ps, pkt) <==>
            SpeaksFor(accepts, env, chain, ps[i], pkt) || SpokenFor(accepts, env, chain, ps[..i] + ps[i + 1..], pkt)
  {
    hide SpeaksFor;
    assert ps == ps[..i] + [ps[i]] + ps[i + 1..];
    assert forall p :: p in ps <==> p == ps[i] || p in ps[..i] + ps[i + 1..];
  }

  /** The share of one policy in the verdict: it gets what it asks for if it speaks for the
      packet and the packet comes to its chain; otherwise it might as well not be there. */
  lemma ShareInVerdict(accepts: Rule -> bool, env: Env, np: NetworkPolicy, before: Table, chain: Chain, i: nat,
      pkt: Packet, depth: nat)
    requires Forward in before && depth > 0 && IsPolicyChain(chain) && i < |ListOf(np, chain)|
    ensures RootDecides(accepts, env, np, before, pkt, depth) ==
            if Comes(accepts, env, np, chain, pkt) && SpeaksFor(accepts, env, chain, ListOf(np, chain)[i], pkt)
            then AsAsked(chain)
            else RootDecides(accepts, env, Without(np, chain, i), before, pkt, depth)
  {
    hide SpokenFor, SpeaksFor, BetweenContainers, ToTheOutside, Compiled, Walk;
    RootVerdict(accepts, env, np, before, pkt, depth);
    RootVerdict(accepts, env, Without(np, chain, i), before, pkt, depth);
    SpokenWithout(accepts, env, chain, ListOf(np, chain), i, pkt);
    assert Fixed(Without(np, chain, i)).nsMode == Fixed(np).nsMode;
  }

  /** What the mark `applied` is worth. A packet that such a policy names meets with what the
      policy asks for if RAIND-ROOT brings it to the policy's chain and the mark is not left
      over from an earlier commit whose rule iptables now refuses. In every other case the
      verdict is the one the packet would get without the policy: for return traffic, for
      packets that east-west rules decide first, and for every packet if the chain belongs
      to the mode that is not in force. */
  lemma AppliedIsInForce(accepts: Rule -> bool, env: Env, np: NetworkPolicy, before: Table, chain: Chain, i: nat,
      pkt: Packet, depth: nat)
    requires Forward in before && depth > 0 && IsPolicyChain(chain) && i < |ListOf(np, chain)|
    requires var p := ListOf(np, chain)[i];
             && Settle(accepts, env, chain, LoggingOf(np, chain), p).Some?
             && Settle(accepts, env, chain, LoggingOf(np, chain), p).value.status == Applied
             && Hits(env, chain, p, pkt)
    ensures var p := ListOf(np, chain)[i];
            var alone := RootDecides(accepts, env, Without(np, chain, i), before, pkt, depth);
            && Resolve(env, chain, p).Resolved?
            && var stale := p.status == Applied && !accepts(UserRule(chain, Resolve(env, chain, p)));
            && RootDecides(accepts, env, np, before, pkt, depth) ==
               (if Comes(accepts, env, np, chain, pkt) && !stale then AsAsked(chain) else alone)
            && (RootDecides(accepts, env, np, before, pkt, depth) == AsAsked(chain) <==>
                  (Comes(accepts, env, np, chain, pkt) && !stale) || alone == AsAsked(chain))
  {
    hide InsertFlags, RootDecides, Comes, Without, Walk, Compiled;
    HitsResolved(env, chain, ListOf(np, chain)[i], pkt);
    ShareInVerdict(accepts, env, np, before, chain, i, pkt, depth);
  }

  /** The list of the mode that is not in force decides nothing, although a commit marks its
      policies applied all the same. */
  lemma OtherModeDecidesNothing(accepts: Rule -> bool, env: Env, np: NetworkPolicy, before: Table,
      others: seq<Policy>, pkt: Packet, depth: nat)
    requires Forward in before && depth > 0
    ensures var chain := if Enforces(np) then NsObserve else NsEnforce;
            && RootDecides(accepts, env, WithList(np, chain, others), before, pkt, depth) ==
               RootDecides(accepts, env, np, before, pkt, depth)
            && (forall mode ::
                SettledList(accepts, env, np.(nsMode := mode), chain) == SettledList(accepts, env, np, chain))
  {
    hide SpokenFor, BetweenContainers, ToTheOutside, Compiled, Walk, SettleAll;
    var chain := NsChain(!Fixed(np).nsMode.Enforce?);
    RootVerdict(accepts, env, np, before, pkt, depth);
    RootVerdict(accepts, env, WithList(np, chain, others), before, pkt, depth);
    assert Fixed(WithList(np, chain, others)).nsMode == Fixed(np).nsMode;
  }

  // ----- two commits -----

  lemma ResolveIgnoresStatus(env: Env, chain: Chain, p: Policy, status: Status, reason: string)
    ensures Resolve(env, chain, p.(status := status, reason := reason)) == Resolve(env, chain, p)
  {
    var q := p.(status := status, reason := reason);
    assert q.source == p.source && q.destination == p.destination && q.id == p.id;
    assert q.protocol == p.protocol && q.destPort == p.destPort;
  }

  /** Settling a settled policy changes nothing, and it compiles to the same rules. */
  lemma SettleTwice(accepts: Rule -> bool, env: Env, chain: Chain, logging: bool, p: Policy)
    requires Settle(accepts, env, chain, logging, p).Some?
    ensures var q := Settle(accepts, env, chain, logging, p).value;
            && Settle(accepts, env, chain, logging, q) == Some(q)
            && UserRules(accepts, env, chain, logging, q) == UserRules(accepts, env, chain, logging, p)
  {
    hide Resolve, InsertFlags;
    var q := Settle(accepts, env, chain, logging, p).value;
    ResolveIgnoresStatus(env, chain, p, q.status, q.reason);
    assert q == p.(status := q.status, reason := q.reason);
  }

  lemma {:induction false} SettleAllTwice(accepts: Rule -> bool, env: Env, chain: Chain, logging: bool, ps: seq<Policy>)
    ensures var qs := SettleAll(accepts, env, chain, logging, ps);
            && SettleAll(accepts, env, chain, logging, qs) == qs
            && AllUserRules(accepts, env, chain, logging, qs) == AllUserRules(accepts, env, chain, logging, ps)
  {
    if ps != [] {
      var n := |ps| - 1;
      var before := SettleAll(accepts, env, chain, logging, ps[..n]);
      SettleAllTwice(accepts, env, chain, logging, ps[..n]);
      if Settle(accepts, env, chain, logging, ps[n]).Some? {
        SettleTwice(accepts, env, chain, logging, ps[n]);
        var q := Settle(accepts, env, chain, logging, ps[n]).value;
        hide Settle, UserRules;
        assert (before + [q])[..|before|] == before;
      } else {
        assert UserRules(accepts, env, chain, logging, ps[n]) == [];
        assert AllUserRules(accepts, env, chain, logging, ps) ==
            AllUserRules(accepts, env, chain, logging, ps[..n]) + [];
      }
    }
  }

  lemma ChainTwice(accepts: Rule -> bool, env: Env, np: NetworkPolicy, chain: Chain)
    requires IsPolicyChain(chain)
    ensures SettledList(accepts, env, Settled(accepts, env, np), chain) == SettledList(accepts, env, np, chain)
    ensures CompiledChain(accepts, env, Settled(accepts, env, np), chain) == CompiledChain(accepts, env, np, chain)
  {
    SettleAllTwice(accepts, env, chain, LoggingOf(np, chain), ListOf(np, chain));
    hide SettleAll, AllUserRules, InsertAll, AppendAll, EwRules, NsRules;
    var np2 := Settled(accepts, env, np);
    assert LoggingOf(np2, chain) == LoggingOf(np, chain);
    assert ListOf(np2, chain) == SettledList(accepts, env, np, chain);
    assert BaseRules(env, np2, chain) == BaseRules(env, np, chain);
  }

  lemma SameUpdates(t: Table, root: seq<Rule>, ew: seq<Rule>, obs: seq<Rule>, enf: seq<Rule>, fwd: seq<Rule>)
    requires Root in t && EastWest in t && NsObserve in t && NsEnforce in t && Forward in t
    requires t[Root] == root && t[EastWest] == ew && t[NsObserve] == obs && t[NsEnforce] == enf && t[Forward] == fwd
    ensures t[Root := root][EastWest := ew][NsObserve := obs][NsEnforce := enf][Forward := fwd] == t
  {
  }

  lemma SettledTwice(accepts: Rule -> bool, env: Env, np: NetworkPolicy)
    ensures Settled(accepts, env, Settled(accepts, env, np)) == Settled(accepts, env, np)
    ensures Buildable(accepts, env, Settled(accepts, env, np)) <==> Buildable(accepts, env, np)
  {
    ChainTwice(accepts, env, np, EastWest);
    ChainTwice(accepts, env, np, NsObserve);
    ChainTwice(accepts, env, np, NsEnforce);
    hide SettledList, CompiledChain, RootRules, EwRules, NsRules, AllAccepted;
  }

  /** Committing again while nothing changed gives the same store and the same table. */
  lemma CommitTwice(accepts: Rule -> bool, env: Env, np: NetworkPolicy, before: Table)
    requires Forward in before
    ensures Settled(accepts, env, Settled(accepts, env, np)) == Settled(accepts, env, np)
    ensures Forward in Compiled(accepts, env, np, before)
    ensures Compiled(accepts, env, Settled(accepts, env, np), Compiled(accepts, env, np, before)) ==
            Compiled(accepts, env, np, before)
    ensures Buildable(accepts, env, Settled(accepts, env, np)) <==> Buildable(accepts, env, np)
  {
    SettledTwice(accepts, env, np);
    CompiledEntries(accepts, env, np, before);
    var t := Compiled(accepts, env, np, before);
    assert Rule(Jump(Root), NoFlags) in t[Forward];
    ChainTwice(accepts, env, np, EastWest);
    ChainTwice(accepts, env, np, NsObserve);
    ChainTwice(accepts, env, np, NsEnforce);
    assert Fixed(Settled(accepts, env, np)).nsMode == Fixed(np).nsMode;
    hide SettledList, CompiledChain, AppendAll, RootRules, Settled, Fixed, Buildable;
    SameUpdates(t, t[Root], t[EastWest], t[NsObserve], t[NsEnforce], t[Forward]);
  }

  /** Two commits of the service, with nothing in between, leave what one leaves. */
  method CommitAgain(service: ServicePolicy, env: Env) returns (ok: bool)
    requires service.Valid()
    modifies service.npm, service.iptables
    ensures service.Valid()
    ensures ok <==> Buildable(service.iptables.accepts, env, old(service.npm.Loaded())) && old(service.npm.path).Some?
    ensures ok ==>
            service.npm.path == service.npm.running ==
                Some(Settled(service.iptables.accepts, env, old(service.npm.Loaded())))
    ensures ok ==>
            service.iptables.chains ==
                Compiled(service.iptables.accepts, env, old(service.npm.Loaded()), old(service.iptables.chains))
  {
    hide Settled, Compiled, Buildable;
    CommitTwice(service.iptables.accepts, env, service.npm.Loaded(), service.iptables.chains);
    ok := service.CommitPolicy(env);
    if ok {
      ok := service.CommitPolicy(env);
      assert ok;
    }
  }

  // ----- edits, then a revert -----

  datatype Edit =
    | AddOne(id: string, chain: Chain, source: string, destination: string, protocol: string, destPort: int,
        comment: string)
    | RemoveOne(id: string)
    | SwitchMode(mode: string)

  /** Whatever is added, removed or switched after a commit, a revert brings back exactly
      the store that commit saved, and reverting again changes nothing. */
  method EditThenRevert(service: ServicePolicy, env: Env, edits: seq<Edit>, again: nat) returns (ok: bool)
    requires service.Valid() && service.npm.path.Some? && service.npm.running == service.npm.path
    modifies service.npm
    ensures ok && service.Valid()
    ensures service.npm.path == service.npm.running == old(service.npm.path)
  {
    for i := 0 to |edits|
      invariant service.Valid() && service.npm.path.Some? && service.npm.running == old(service.npm.path)
    {
      match edits[i] {
        case AddOne(id, chain, source, destination, protocol, destPort, comment) =>
          var used := service.npm.GetPolicyChain(id);
          if used.None? {
            var _ := service.AddUserPolicy(env, id, chain, source, destination, protocol, destPort, comment);
          }
        case RemoveOne(id) =>
          var _ := service.RemoveUserPolicy(id);
        case SwitchMode(mode) =>
          var _ := service.ChangeNSMode(mode);
      }
    }
    ok := service.RevertPolicy();
    for i := 0 to again
      invariant ok && service.npm.path == service.npm.running == old(service.npm.path)
    {
      ok := service.RevertPolicy();
    }
  }
}
