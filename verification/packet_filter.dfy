/**
 The part of iptables the policy service drives: chains of rules, the commands that
 change them, and the meaning of a chain for a packet.

 A rule is kept as the service hands it to iptables, a target and a list of flags, so
 that "the rule already exists" (`-C`) is equality of what was written.
 */
module PacketFilter {
  datatype Chain = Forward | Root | EastWest | NsObserve | NsEnforce | Other(name: string)

  datatype Target = Accept | Drop | Return | Nflog | Jump(chain: Chain)

  datatype Flag =
    | Conntrack
    | Ctstate(states: seq<CtState>)
    | Physdev
    | PhysdevIsBridged
    | InputDev(dev: string)
    | OutputDev(dev: string)
    | PhysdevIn(dev: string)
    | PhysdevOut(dev: string)
    | Protocol(proto: string)
    | Syn
    | Source(addr: string)
    | SourcePort(port: int)
    | Destination(addr: string)
    | DestPort(port: int)
    | NflogGroup(group: int)
    | NflogPrefix(prefix: string)

  datatype CtState = New | Established | Related | Invalid

  /** The argument list of a rule, which only ever grows at its end. */
  datatype Flags = NoFlags | Then(before: Flags, flag: Flag)

  datatype Rule = Rule(target: Target, flags: Flags)

  /** The description of a rule from which the flags are rendered. */
  datatype RuleModel = RuleModel(
    nameonly conntrack: bool := false,
    nameonly ctstate: seq<CtState> := [],
    nameonly syn: bool := false,
    nameonly physdev: bool := false,
    nameonly physdevIsBridge: bool := false,
    nameonly inputDev: string := "",
    nameonly outputDev: string := "",
    nameonly inputPhysdev: string := "",
    nameonly outputPhysdev: string := "",
    nameonly source: string := "",
    nameonly destination: string := "",
    nameonly protocol: string := "",
    nameonly sourcePort: int := 0,
    nameonly destPort: int := 0,
    nameonly nflogGroup: int := 0,
    nameonly nflogPrefix: string := "")

  // ----- what a rule means -----

  /** A packet. How iptables reads a protocol or an address argument is left to the
      packet: `protoIs`, `srcIn` and `dstIn` say which arguments cover it. */
  datatype Packet = Packet(
    inDev: string, outDev: string,
    bridged: bool, physIn: string, physOut: string,
    ctstate: CtState, syn: bool,
    protoIs: string -> bool, srcIn: string -> bool, dstIn: string -> bool,
    sport: int, dport: int)

  /** A device argument that ends in '+' stands for every name it begins. */
  predicate DevMatches(arg: string, dev: string) {
    if arg != [] && arg[|arg| - 1] == '+' then arg[..|arg| - 1] <= dev else arg == dev
  }

  predicate FlagMatches(f: Flag, p: Packet) {
    match f
    case Conntrack => true
    case Ctstate(states) => p.ctstate in states
    case Physdev => true
    case PhysdevIsBridged => p.bridged
    case InputDev(dev) => DevMatches(dev, p.inDev)
    case OutputDev(dev) => DevMatches(dev, p.outDev)
    case PhysdevIn(dev) => DevMatches(dev, p.physIn)
    case PhysdevOut(dev) => DevMatches(dev, p.physOut)
    case Protocol(proto) => p.protoIs(proto)
    case Syn => p.syn
    case Source(addr) => p.srcIn(addr)
    case SourcePort(port) => p.sport == port
    case Destination(addr) => p.dstIn(addr)
    case DestPort(port) => p.dport == port
    case NflogGroup(_) => true
    case NflogPrefix(_) => true
  }

  predicate FlagsMatch(flags: Flags, p: Packet) {
    flags.Then? ==> FlagMatches(flags.flag, p) && FlagsMatch(flags.before, p)
  }

  predicate RuleMatches(r: Rule, p: Packet) {
    FlagsMatch(r.flags, p)
  }

  // ----- what a chain means -----

  /** `Undecided`: the chain was left by RETURN or by its end. */
  datatype Verdict = Accepted | Dropped | Undecided

  type Table = map<Chain, seq<Rule>>

  /** First match wins, NFLOG goes on, a jump comes back when its chain is undecided.
      The kernel refuses chains that jump in a circle; `depth` bounds the jumps. */
  function Walk(table: Table, rules: seq<Rule>, p: Packet, depth: nat): Verdict
    decreases depth, |rules|
  {
    if rules == [] then Undecided
    else if !RuleMatches(rules[0], p) then Walk(table, rules[1..], p, depth)
    else
      match rules[0].target
      case Accept => Accepted
      case Drop => Dropped
      case Return => Undecided
      case Nflog => Walk(table, rules[1..], p, depth)
      case Jump(chain) =>
        var inner := JumpVerdict(table, chain, p, depth);
        if inner.Undecided? then Walk(table, rules[1..], p, depth) else inner
  }

  function JumpVerdict(table: Table, chain: Chain, p: Packet, depth: nat): Verdict
    decreases depth, 0
  {
    if depth > 0 && chain in table then Walk(table, table[chain], p, depth - 1) else Undecided
  }

  /** The packet goes past the rule to the next one. */
  predicate Passes(table: Table, r: Rule, p: Packet, depth: nat) {
    !RuleMatches(r, p) || r.target.Nflog? ||
    (r.target.Jump? && JumpVerdict(table, r.target.chain, p, depth).Undecided?)
  }

  /** The NFLOG prefixes a packet leaves behind in one chain before it is decided there;
      jumps are not followed. */
  function Logged(rules: seq<Rule>, p: Packet): seq<Flags> {
    if rules == [] then []
    else if !RuleMatches(rules[0], p) then Logged(rules[1..], p)
    else if rules[0].target.Nflog? then [rules[0].flags] + Logged(rules[1..], p)
    else if rules[0].target.Jump? then Logged(rules[1..], p)
    else []
  }

  lemma {:induction false} WalkConcat(table: Table, a: seq<Rule>, b: seq<Rule>, p: Packet, depth: nat)
    requires forall r | r in a :: Passes(table, r, p, depth)
    ensures Walk(table, a + b, p, depth) == Walk(table, b, p, depth)
  {
    if a == [] {
      assert a + b == b;
    } else {
      assert (a + b)[1..] == a[1..] + b;
      assert Passes(table, a[0], p, depth);
      WalkConcat(table, a[1..], b, p, depth);
    }
  }

  /** The packet leaves the chain in this part, by RETURN. */
  predicate LeavesBy(table: Table, rules: seq<Rule>, p: Packet, depth: nat) {
    rules != [] &&
    if RuleMatches(rules[0], p) && rules[0].target.Return? then true
    else Passes(table, rules[0], p, depth) && LeavesBy(table, rules[1..], p, depth)
  }

  /** Any first part of a chain: what it decides is decided, what it sends back is sent back,
      and only the rest goes on to the second part. */
  lemma {:induction false} WalkSplit(table: Table, a: seq<Rule>, b: seq<Rule>, p: Packet, depth: nat)
    ensures Walk(table, a + b, p, depth) ==
            if Walk(table, a, p, depth).Undecided? && !LeavesBy(table, a, p, depth) then Walk(table, b, p, depth)
            else Walk(table, a, p, depth)
    decreases |a|
  {
    if a == [] {
      assert a + b == b;
    } else {
      assert (a + b)[1..] == a[1..] + b;
      WalkSplit(table, a[1..], b, p, depth);
    }
  }

  lemma {:induction false} WalkSkip(table: Table, a: seq<Rule>, r: Rule, b: seq<Rule>, p: Packet, depth: nat)
    requires Passes(table, r, p, depth)
    ensures Walk(table, a + [r] + b, p, depth) == Walk(table, a + b, p, depth)
  {
    if a == [] {
      assert [] + [r] + b == [r] + b;
      assert ([r] + b)[1..] == b;
      assert [] + b == b;
    } else {
      assert (a + [r] + b)[1..] == a[1..] + [r] + b;
      assert (a + b)[1..] == a[1..] + b;
      WalkSkip(table, a[1..], r, b, p, depth);
    }
  }

  /** A rule that is already in the chain may be left out further down. */
  lemma {:induction false} WalkDuplicate(table: Table, a: seq<Rule>, r: Rule, b: seq<Rule>, p: Packet, depth: nat)
    requires r in a
    ensures Walk(table, a + [r] + b, p, depth) == Walk(table, a + b, p, depth)
  {
    if Passes(table, r, p, depth) {
      WalkSkip(table, a, r, b, p, depth);
    } else {
      assert (a + [r] + b)[1..] == a[1..] + [r] + b;
      assert (a + b)[1..] == a[1..] + b;
      if a[0] != r {
        WalkDuplicate(table, a[1..], r, b, p, depth);
      }
    }
  }

  /** The first rule of `a` that does not let the packet pass decides; all such rules
      share the target `t`. */
  lemma {:induction false} WalkUniform(table: Table, a: seq<Rule>, b: seq<Rule>, t: Target, p: Packet, depth: nat)
    requires t.Accept? || t.Drop?
    requires forall r | r in a :: r.target == t || r.target.Nflog?
    ensures Walk(table, a + b, p, depth) ==
            if exists r :: r in a && r.target == t && RuleMatches(r, p)
            then (if t.Accept? then Accepted else Dropped)
            else Walk(table, b, p, depth)
  {
    if a == [] {
      assert a + b == b;
    } else {
      assert (a + b)[1..] == a[1..] + b;
      assert a == [a[0]] + a[1..];
      if !(a[0].target == t && RuleMatches(a[0], p)) {
        WalkUniform(table, a[1..], b, t, p, depth);
      }
    }
  }

  // ----- the commands -----

  /** `-C` then `-I`: the rule goes to the head unless the chain holds it already. */
  function Inserted(rules: seq<Rule>, r: Rule): seq<Rule> {
    if r in rules then rules else [r] + rules
  }

  /** `-C` then `-A`: the rule goes to the end unless the chain holds it already. */
  function Appended(rules: seq<Rule>, r: Rule): seq<Rule> {
    if r in rules then rules else rules + [r]
  }

  function InsertAll(rules: seq<Rule>, rs: seq<Rule>): seq<Rule>
    decreases rs
  {
    if rs == [] then rules else InsertAll(Inserted(rules, rs[0]), rs[1..])
  }

  function AppendAll(rules: seq<Rule>, rs: seq<Rule>): seq<Rule>
    decreases rs
  {
    if rs == [] then rules else AppendAll(Appended(rules, rs[0]), rs[1..])
  }

  predicate AllAccepted(accepts: Rule -> bool, rs: seq<Rule>) {
    forall r | r in rs :: accepts(r)
  }

  /** Appending one rule after another up to the first that iptables refuses. */
  function AppendUntil(accepts: Rule -> bool, rules: seq<Rule>, rs: seq<Rule>): seq<Rule>
    decreases rs
  {
    if rs == [] || !accepts(rs[0]) then rules else AppendUntil(accepts, Appended(rules, rs[0]), rs[1..])
  }

  lemma {:induction false} AppendUntilEnd(accepts: Rule -> bool, rules: seq<Rule>, rs: seq<Rule>)
    requires AllAccepted(accepts, rs)
    ensures AppendUntil(accepts, rules, rs) == AppendAll(rules, rs)
    decreases rs
  {
    if rs != [] {
      assert forall r | r in rs[1..] :: r in rs;
      AppendUntilEnd(accepts, Appended(rules, rs[0]), rs[1..]);
    }
  }

  lemma {:induction false} AppendUntilPrefix(accepts: Rule -> bool, rules: seq<Rule>, rs: seq<Rule>) returns (n: nat)
    ensures n <= |rs| && AppendUntil(accepts, rules, rs) == AppendAll(rules, rs[..n])
    decreases rs
  {
    if rs == [] || !accepts(rs[0]) {
      n := 0;
    } else {
      n := AppendUntilPrefix(accepts, Appended(rules, rs[0]), rs[1..]);
      n := n + 1;
      assert rs[..n][1..] == rs[1..][..n - 1];
    }
  }

  lemma {:induction false} AppendUntilConcat(accepts: Rule -> bool, rules: seq<Rule>, a: seq<Rule>, b: seq<Rule>)
    ensures AppendUntil(accepts, rules, a + b) ==
            if AllAccepted(accepts, a) then AppendUntil(accepts, AppendUntil(accepts, rules, a), b)
            else AppendUntil(accepts, rules, a)
    decreases a
  {
    if a == [] {
      assert a + b == b;
    } else {
      assert (a + b)[1..] == a[1..] + b;
      assert a == [a[0]] + a[1..];
      if accepts(a[0]) {
        AppendUntilConcat(accepts, Appended(rules, a[0]), a[1..], b);
      }
    }
  }

  lemma {:induction false} AppendAllConcat(rules: seq<Rule>, a: seq<Rule>, b: seq<Rule>)
    ensures AppendAll(rules, a + b) == AppendAll(AppendAll(rules, a), b)
    decreases a
  {
    if a == [] {
      assert a + b == b;
    } else {
      assert (a + b)[1..] == a[1..] + b;
      AppendAllConcat(Appended(rules, a[0]), a[1..], b);
    }
  }

  lemma {:induction false} InsertAllConcat(rules: seq<Rule>, a: seq<Rule>, b: seq<Rule>)
    ensures InsertAll(rules, a + b) == InsertAll(InsertAll(rules, a), b)
    decreases a
  {
    if a == [] {
      assert a + b == b;
    } else {
      assert (a + b)[1..] == a[1..] + b;
      InsertAllConcat(Inserted(rules, a[0]), a[1..], b);
    }
  }

  /** Leaving duplicates out does not change what the chain decides. */
  lemma {:induction false} AppendAllMeaning(table: Table, rules: seq<Rule>, rs: seq<Rule>, p: Packet, depth: nat)
    ensures Walk(table, AppendAll(rules, rs), p, depth) == Walk(table, rules + rs, p, depth)
    decreases rs
  {
    if rs == [] {
      assert rules + rs == rules;
    } else {
      AppendAllMeaning(table, Appended(rules, rs[0]), rs[1..], p, depth);
      assert rules + rs == rules + [rs[0]] + rs[1..];
      if rs[0] in rules {
        WalkDuplicate(table, rules, rs[0], rs[1..], p, depth);
      }
    }
  }

  lemma {:induction false} AppendAllMembers(rules: seq<Rule>, rs: seq<Rule>)
    ensures forall r :: r in AppendAll(rules, rs) <==> r in rules || r in rs
    decreases rs
  {
    if rs != [] {
      AppendAllMembers(Appended(rules, rs[0]), rs[1..]);
      assert rs == [rs[0]] + rs[1..];
    }
  }

  /** Inserting keeps the old chain as the tail; what stands in front of it comes from
      the inserted rules, and every inserted rule is in front or was there before. */
  lemma {:induction false} InsertAllShape(rules: seq<Rule>, rs: seq<Rule>) returns (front: seq<Rule>)
    ensures InsertAll(rules, rs) == front + rules
    ensures forall r | r in front :: r in rs
    ensures forall r | r in rs :: r in front || r in rules
    decreases rs
  {
    if rs == [] {
      front := [];
      assert front + rules == rules;
    } else {
      var f := InsertAllShape(Inserted(rules, rs[0]), rs[1..]);
      assert rs == [rs[0]] + rs[1..];
      if rs[0] in rules {
        front := f;
      } else {
        front := f + [rs[0]];
        assert f + ([rs[0]] + rules) == front + rules;
      }
    }
  }

  /** Inserting rules of one terminating target in front of `rules`: the packet takes
      that target iff some inserted rule of the target matches. */
  lemma InsertAllMeaning(table: Table, rules: seq<Rule>, rs: seq<Rule>, t: Target, p: Packet, depth: nat)
    requires t.Accept? || t.Drop?
    requires forall r | r in rs :: r.target == t || r.target.Nflog?
    requires forall r | r in rules :: r.target != t
    ensures Walk(table, InsertAll(rules, rs), p, depth) ==
            if exists r :: r in rs && r.target == t && RuleMatches(r, p)
            then (if t.Accept? then Accepted else Dropped)
            else Walk(table, rules, p, depth)
  {
    var front := InsertAllShape(rules, rs);
    WalkUniform(table, front, rules, t, p, depth);
    if r :| r in rs && r.target == t && RuleMatches(r, p) {
      assert r in front;
    }
  }

  // ----- rendering -----

  function With(flags: Flags, on: bool, f: Flag): Flags {
    if on then Then(flags, f) else flags
  }

  /** The flags both commands render before the protocol. */
  function CommonFlags(m: RuleModel): Flags {
    var f := With(NoFlags, m.conntrack, Conntrack);
    var f := With(f, m.ctstate != [], Ctstate(m.ctstate));
    var f := With(f, m.physdev, Physdev);
    var f := With(f, m.physdevIsBridge, PhysdevIsBridged);
    var f := With(f, m.inputDev != "", InputDev(m.inputDev));
    var f := With(f, m.outputDev != "", OutputDev(m.outputDev));
    var f := With(f, m.inputPhysdev != "", PhysdevIn(m.inputPhysdev));
    var f := With(f, m.outputPhysdev != "", PhysdevOut(m.outputPhysdev));
    With(f, m.protocol != "", Protocol(m.protocol))
  }

  function PortAndLogging(flags: Flags, m: RuleModel): Flags {
    var f := With(flags, m.destPort > 0, DestPort(m.destPort));
    var f := With(f, m.nflogGroup > 0, NflogGroup(m.nflogGroup));
    With(f, m.nflogPrefix != "", NflogPrefix(m.nflogPrefix))
  }

  /** Appended rules carry `--syn` for tcp and never an address. */
  function AddFlags(m: RuleModel): Flags {
    var f := CommonFlags(m);
    var f := With(f, m.protocol == "tcp" && m.syn, Syn);
    var f := With(f, m.sourcePort > 0, SourcePort(m.sourcePort));
    PortAndLogging(f, m)
  }

  /** Inserted rules carry addresses and never `--syn`. */
  function InsertFlags(m: RuleModel): Flags {
    var f := CommonFlags(m);
    var f := With(f, m.source != "", Source(m.source));
    var f := With(f, m.sourcePort > 0, SourcePort(m.sourcePort));
    var f := With(f, m.destination != "", Destination(m.destination));
    PortAndLogging(f, m)
  }

  /** The packets a rule description is meant for, address and SYN parts apart. */
  predicate ModelMatches(m: RuleModel, p: Packet) {
    && (m.ctstate == [] || p.ctstate in m.ctstate)
    && (m.physdevIsBridge ==> p.bridged)
    && (m.inputDev == "" || DevMatches(m.inputDev, p.inDev))
    && (m.outputDev == "" || DevMatches(m.outputDev, p.outDev))
    && (m.inputPhysdev == "" || DevMatches(m.inputPhysdev, p.physIn))
    && (m.outputPhysdev == "" || DevMatches(m.outputPhysdev, p.physOut))
    && (m.protocol == "" || p.protoIs(m.protocol))
    && (m.sourcePort <= 0 || p.sport == m.sourcePort)
    && (m.destPort <= 0 || p.dport == m.destPort)
  }

  lemma WithMatches(flags: Flags, on: bool, f: Flag, p: Packet)
    ensures FlagsMatch(With(flags, on, f), p) <==> FlagsMatch(flags, p) && (on ==> FlagMatches(f, p))
  {
  }

  lemma CommonFlagsMeaning(m: RuleModel, p: Packet)
    ensures FlagsMatch(CommonFlags(m), p) <==> ModelMatches(m.(sourcePort := 0, destPort := 0), p)
  {
    var f0 := With(NoFlags, m.conntrack, Conntrack);
    WithMatches(NoFlags, m.conntrack, Conntrack, p);
    var f1 := With(f0, m.ctstate != [], Ctstate(m.ctstate));
    WithMatches(f0, m.ctstate != [], Ctstate(m.ctstate), p);
    var f2 := With(f1, m.physdev, Physdev);
    WithMatches(f1, m.physdev, Physdev, p);
    var f3 := With(f2, m.physdevIsBridge, PhysdevIsBridged);
    WithMatches(f2, m.physdevIsBridge, PhysdevIsBridged, p);
    var f4 := With(f3, m.inputDev != "", InputDev(m.inputDev));
    WithMatches(f3, m.inputDev != "", InputDev(m.inputDev), p);
    var f5 := With(f4, m.outputDev != "", OutputDev(m.outputDev));
    WithMatches(f4, m.outputDev != "", OutputDev(m.outputDev), p);
    var f6 := With(f5, m.inputPhysdev != "", PhysdevIn(m.inputPhysdev));
    WithMatches(f5, m.inputPhysdev != "", PhysdevIn(m.inputPhysdev), p);
    var f7 := With(f6, m.outputPhysdev != "", PhysdevOut(m.outputPhysdev));
    WithMatches(f6, m.outputPhysdev != "", PhysdevOut(m.outputPhysdev), p);
    WithMatches(f7, m.protocol != "", Protocol(m.protocol), p);
    assert CommonFlags(m) == With(f7, m.protocol != "", Protocol(m.protocol));
  }

  /** An appended rule matches the packets of its description; of the source and
      destination addresses it knows nothing. */
  lemma AddFlagsMeaning(m: RuleModel, p: Packet)
    ensures FlagsMatch(AddFlags(m), p) <==> ModelMatches(m, p) && (m.protocol == "tcp" && m.syn ==> p.syn)
  {
    CommonFlagsMeaning(m, p);
    var f0 := CommonFlags(m);
    var f1 := With(f0, m.protocol == "tcp" && m.syn, Syn);
    WithMatches(f0, m.protocol == "tcp" && m.syn, Syn, p);
    var f2 := With(f1, m.sourcePort > 0, SourcePort(m.sourcePort));
    WithMatches(f1, m.sourcePort > 0, SourcePort(m.sourcePort), p);
    LoggingFlagsMeaning(f2, m, p);
  }

  /** An inserted rule matches the packets of its description between its addresses. */
  lemma InsertFlagsMeaning(m: RuleModel, p: Packet)
    ensures FlagsMatch(InsertFlags(m), p) <==>
            ModelMatches(m, p) && (m.source == "" || p.srcIn(m.source)) &&
                (m.destination == "" || p.dstIn(m.destination))
  {
    CommonFlagsMeaning(m, p);
    var f0 := CommonFlags(m);
    var f1 := With(f0, m.source != "", Source(m.source));
    WithMatches(f0, m.source != "", Source(m.source), p);
    var f2 := With(f1, m.sourcePort > 0, SourcePort(m.sourcePort));
    WithMatches(f1, m.sourcePort > 0, SourcePort(m.sourcePort), p);
    var f3 := With(f2, m.destination != "", Destination(m.destination));
    WithMatches(f2, m.destination != "", Destination(m.destination), p);
    LoggingFlagsMeaning(f3, m, p);
  }

  lemma LoggingFlagsMeaning(flags: Flags, m: RuleModel, p: Packet)
    ensures FlagsMatch(PortAndLogging(flags, m), p) <==>
            FlagsMatch(flags, p) && (m.destPort > 0 ==> p.dport == m.destPort)
  {
    var f0 := With(flags, m.destPort > 0, DestPort(m.destPort));
    WithMatches(flags, m.destPort > 0, DestPort(m.destPort), p);
    var f1 := With(f0, m.nflogGroup > 0, NflogGroup(m.nflogGroup));
    WithMatches(f0, m.nflogGroup > 0, NflogGroup(m.nflogGroup), p);
    WithMatches(f1, m.nflogPrefix != "", NflogPrefix(m.nflogPrefix), p);
  }

  // ----- iptables -----

  /** One network namespace's filter table. `accepts` says which rules the kernel takes
      (a port without a protocol, say, is refused). */
  class Iptables {
    var chains: Table
    const accepts: Rule -> bool

    constructor (accepts: Rule -> bool)
      ensures this.accepts == accepts && chains == map[Forward := []] && Valid()
    {
      this.accepts := accepts;
      chains := map[Forward := []];
    }

    /** The table holds only rules that the kernel took. */
    ghost predicate Valid()
      reads this
    {
      Forward in chains && forall c, r | c in chains && r in chains[c] :: accepts(r)
    }

    method CreateChain(chain: Chain)
      requires Valid() && chain != Forward
      modifies this
      ensures Valid() && chains == old(chains)[chain := []]
    {
      if chain in chains {
        // clear chain
        chains := chains[chain := []];
        return;
      }
      chains := chains[chain := []];
    }

    method InsertForwardRule(chain: Chain) returns (ok: bool)
      requires Valid()
      modifies this
      ensures Valid()
      ensures ok <==> accepts(Rule(Jump(chain), NoFlags))
      ensures chains == if ok then old(chains)[Forward := Inserted(old(chains)[Forward], Rule(Jump(chain), NoFlags))]
                        else old(chains)
    {
      var rule := Rule(Jump(chain), NoFlags);
      if rule in chains[Forward] {
        assert chains[Forward := chains[Forward]] == chains;
        return true;
      }
      if !accepts(rule) {
        return false;
      }
      chains := chains[Forward := [rule] + chains[Forward]];
      return true;
    }

    method AddRuleToChain(chain: Chain, m: RuleModel, target: Target) returns (ok: bool)
      requires Valid() && chain in chains
      modifies this
      ensures Valid()
      ensures ok <==> accepts(Rule(target, AddFlags(m)))
      ensures chains == if ok then old(chains)[chain := Appended(old(chains)[chain], Rule(target, AddFlags(m)))]
                        else old(chains)
    {
      // check if rule already exist
      var rule := Rule(target, AddFlags(m));
      if rule in chains[chain] {
        assert chains[chain := chains[chain]] == chains;
        return true;
      }
      // add rule
      if !accepts(rule) {
        return false;
      }
      chains := chains[chain := chains[chain] + [rule]];
      return true;
    }

    method InsertRuleToChain(chain: Chain, m: RuleModel, target: Target) returns (ok: bool)
      requires Valid() && chain in chains
      modifies this
      ensures Valid()
      ensures ok <==> accepts(Rule(target, InsertFlags(m)))
      ensures chains == if ok then old(chains)[chain := Inserted(old(chains)[chain], Rule(target, InsertFlags(m)))]
                        else old(chains)
    {
      // check if rule already exist
      var rule := Rule(target, InsertFlags(m));
      if rule in chains[chain] {
        assert chains[chain := chains[chain]] == chains;
        return true;
      }
      // add rule
      if !accepts(rule) {
        return false;
      }
      chains := chains[chain := [rule] + chains[chain]];
      return true;
    }
  }
}
