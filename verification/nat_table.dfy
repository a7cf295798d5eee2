/** The nat table as the service controller uses it, and what one service's share of it
    must look like. */
module NatTable {
  import opened Wrappers
  import opened LoadBalancing
  import opened Text

  datatype ServicePort = ServicePort(port: int, targetPort: int, protocol: string)

  /** "RAIND-SVC-", the first eight characters of the service id, "-", the port number. */
  datatype ChainName = ChainName(short: string, port: int)

  function Short(serviceId: string): string {
    if |serviceId| > 8 then serviceId[..8] else serviceId
  }

  /** A DNAT rule; probability 0 stands for a rule without a statistic match. */
  datatype DnatRule = DnatRule(proto: string, probability: real, addr: string, targetPort: int)

  /** A rule of PREROUTING or OUTPUT that sends a port to a service chain. */
  datatype Jump = Jump(proto: string, port: int, chain: ChainName)

  datatype Table = Table(chains: map<ChainName, seq<DnatRule>>, prerouting: seq<Jump>, output: seq<Jump>)

  // ----- commands -----

  /** `-D`: takes the first occurrence out, if there is one. */
  function RemoveFirst(js: seq<Jump>, j: Jump): seq<Jump> {
    if js == [] then [] else if js[0] == j then js[1..] else [js[0]] + RemoveFirst(js[1..], j)
  }

  lemma {:induction false} RemoveFirstContents(js: seq<Jump>, j: Jump)
    ensures multiset(RemoveFirst(js, j)) == multiset(js) - multiset{j}
  {
    if js != [] {
      assert multiset(js) == multiset{js[0]} + multiset(js[1..]) by {
        assert js == [js[0]] + js[1..];
      }
      if js[0] == j {
        TakeOne(j, multiset(js[1..]));
      } else {
        RemoveFirstContents(js[1..], j);
        var rest := RemoveFirst(js[1..], j);
        hide RemoveFirst;
        assert multiset([js[0]] + rest) == multiset{js[0]} + multiset(rest);
        KeepOne(js[0], j, multiset(js[1..]));
      }
    }
  }

  lemma TakeOne(j: Jump, m: multiset<Jump>)
    ensures multiset{j} + m - multiset{j} == m
  {
  }

  lemma KeepOne(i: Jump, j: Jump, m: multiset<Jump>)
    requires i != j
    ensures multiset{i} + m - multiset{j} == multiset{i} + (m - multiset{j})
  {
  }

  function EnsureChain(t: Table, c: ChainName): Table {
    if c in t.chains then t else t.(chains := t.chains[c := []])
  }

  function FlushChain(t: Table, c: ChainName): Table {
    if c in t.chains then t.(chains := t.chains[c := []]) else t
  }

  function DeleteJump(t: Table, j: Jump): Table {
    t.(prerouting := RemoveFirst(t.prerouting, j), output := RemoveFirst(t.output, j))
  }

  function AppendRule(t: Table, c: ChainName, r: DnatRule): Table
    requires c in t.chains
  {
    t.(chains := t.chains[c := t.chains[c] + [r]])
  }

  predicate Referenced(t: Table, c: ChainName) {
    (exists j :: j in t.prerouting && j.chain == c) || (exists j :: j in t.output && j.chain == c)
  }

  /** `-X`: refused for a chain that holds rules or is jumped to. */
  function DeleteChain(t: Table, c: ChainName): Table {
    if c in t.chains && t.chains[c] == [] && !Referenced(t, c) then t.(chains := t.chains - {c}) else t
  }

  // ----- what a service asks for -----

  function Proto(p: ServicePort): string {
    if p.protocol == "" then "tcp" else Lower(p.protocol)
  }

  predicate Serves(p: ServicePort) {
    p.port != 0 && p.targetPort != 0
  }

  function JumpOf(id: string, p: ServicePort): Jump {
    Jump(Proto(p), p.port, ChainName(Short(id), p.port))
  }

  /** The rules for `addrs`, each but the last with probability 1/n. */
  function EndpointRules(addrs: seq<string>, p: ServicePort): (r: seq<DnatRule>)
    ensures |r| == |addrs|
    ensures forall i | 0 <= i < |r| :: r[i].addr == addrs[i] && r[i].targetPort == p.targetPort
  {
    seq(|addrs|, i requires 0 <= i < |addrs| =>
      DnatRule(Proto(p), if i < |addrs| - 1 then 1.0 / (|addrs| as real) else 0.0, addrs[i], p.targetPort))
  }

  /** The chain's probabilities are those of the load-balancing scheme. */
  lemma RulesFollowScheme(addrs: seq<string>, p: ServicePort, i: nat)
    requires i < |addrs|
    ensures var q := EndpointRules(addrs, p)[i].probability;
            RuleProbability(|addrs|, i) == if q > 0.0 then q else 1.0
    ensures EndpointRules(addrs, p)[i].probability > 0.0 <==> i < |addrs| - 1
  {
    Reciprocal(|addrs|);
  }

  /** The last serving port with that number decides what the chain holds. */
  function LastWith(ports: seq<ServicePort>, number: int): Option<ServicePort> {
    if ports == [] then None
    else if Serves(ports[|ports| - 1]) && ports[|ports| - 1].port == number then Some(ports[|ports| - 1])
    else LastWith(ports[..|ports| - 1], number)
  }

  lemma {:induction false} LastWithSome(ports: seq<ServicePort>, number: int)
    ensures LastWith(ports, number).Some? <==> exists p :: p in ports && Serves(p) && p.port == number
    ensures LastWith(ports, number).Some? ==> LastWith(ports, number).value in ports
  {
    if ports != [] {
      LastWithSome(ports[..|ports| - 1], number);
      assert ports == ports[..|ports| - 1] + [ports[|ports| - 1]];
    }
  }

  ghost predicate Wants(id: string, ports: seq<ServicePort>, j: Jump) {
    exists p :: p in ports && Serves(p) && JumpOf(id, p) == j
  }

  /** Nothing twice, and nothing that the ports do not ask for: what even a cut-short
      application keeps. */
  ghost predicate Sound(t: Table, id: string, ports: seq<ServicePort>) {
    && (forall j: Jump | j.chain.short == Short(id) ::
          JumpSound(t.prerouting, id, ports, j) && JumpSound(t.output, id, ports, j))
    && (forall c | c in t.chains && c.short == Short(id) :: LastWith(ports, c.port).Some?)
  }

  ghost predicate JumpSound(hook: seq<Jump>, id: string, ports: seq<ServicePort>, j: Jump) {
    multiset(hook)[j] <= 1 && (j in hook ==> Wants(id, ports, j))
  }

  /** The first `k` ports have been applied. */
  ghost predicate Applied(t: Table, id: string, ports: seq<ServicePort>, k: nat, addrs: seq<string>)
    requires k <= |ports|
  {
    && Sound(t, id, ports)
    && (forall j: Jump | j.chain.short == Short(id) && Wants(id, ports[..k], j) :: j in t.prerouting && j in t.output)
    && (forall n | LastWith(ports[..k], n).Some? ::
          && ChainName(Short(id), n) in t.chains
          && t.chains[ChainName(Short(id), n)] == EndpointRules(addrs, LastWith(ports[..k], n).value))
  }

  /** The service's share of the table is what a rebuild from scratch would make it. */
  ghost predicate Agrees(t: Table, id: string, ports: seq<ServicePort>, addrs: seq<string>) {
    && (forall j: Jump | j.chain.short == Short(id) ::
          multiset(t.prerouting)[j] == multiset(t.output)[j] == if Wants(id, ports, j) then 1 else 0)
    && (forall c: ChainName | c.short == Short(id) ::
          (c in t.chains <==> LastWith(ports, c.port).Some?)
          && (c in t.chains ==> t.chains[c] == EndpointRules(addrs, LastWith(ports, c.port).value)))
  }

  /** Nothing under that short id. */
  ghost predicate Clean(t: Table, short: string) {
    && (forall j: Jump | j.chain.short == short :: multiset(t.prerouting)[j] == 0 && multiset(t.output)[j] == 0)
    && (forall c | c in t.chains :: c.short != short)
  }

  /** Nothing outside that short id differs. */
  ghost predicate SameElsewhere(t: Table, t': Table, short: string) {
    && (forall j: Jump | j.chain.short != short ::
          multiset(t.prerouting)[j] == multiset(t'.prerouting)[j] && multiset(t.output)[j] == multiset(t'.output)[j])
    && (forall c: ChainName | c.short != short ::
          (c in t.chains <==> c in t'.chains) && (c in t.chains ==> t.chains[c] == t'.chains[c]))
  }

  // ----- applying the ports -----

  /** The table after one serving port has been applied. */
  function PortApplied(t: Table, id: string, p: ServicePort, addrs: seq<string>): Table {
    var j := JumpOf(id, p);
    Table(t.chains[j.chain := EndpointRules(addrs, p)], RemoveFirst(t.prerouting, j) + [j],
        RemoveFirst(t.output, j) + [j])
  }

  lemma SoundIsStart(t: Table, id: string, ports: seq<ServicePort>, addrs: seq<string>)
    requires Sound(t, id, ports)
    ensures Applied(t, id, ports, 0, addrs)
  {
    assert ports[..0] == [];
    hide EndpointRules, Short, Sound;
  }

  lemma CleanIsSound(t: Table, id: string, ports: seq<ServicePort>)
    requires Clean(t, Short(id))
    ensures Sound(t, id, ports)
  {
    hide Short, LastWith, Wants;
  }

  lemma AppliedIsAgreed(t: Table, id: string, ports: seq<ServicePort>, addrs: seq<string>)
    requires Applied(t, id, ports, |ports|, addrs)
    ensures Agrees(t, id, ports, addrs)
  {
    assert ports[..|ports|] == ports;
    hide EndpointRules, Short, LastWith, Wants;
    forall c: ChainName | c.short == Short(id) ensures c == ChainName(Short(id), c.port) {
    }
  }

  /** Two tables that agree with the same ports and addresses hold the same share. */
  lemma AgreementIsUnique(t: Table, t': Table, id: string, ports: seq<ServicePort>, addrs: seq<string>)
    requires Agrees(t, id, ports, addrs) && Agrees(t', id, ports, addrs) && SameElsewhere(t, t', Short(id))
    ensures multiset(t.prerouting) == multiset(t'.prerouting) && multiset(t.output) == multiset(t'.output)
    ensures t.chains == t'.chains
  {
    hide EndpointRules, Short, LastWith, Wants;
  }

  lemma NextWants(id: string, ports: seq<ServicePort>, k: nat, j: Jump)
    requires k < |ports|
    ensures Wants(id, ports[..k + 1], j) <==>
            Wants(id, ports[..k], j) || (Serves(ports[k]) && JumpOf(id, ports[k]) == j)
    ensures Serves(ports[k]) && JumpOf(id, ports[k]) == j ==> Wants(id, ports, j)
  {
    assert ports[..k + 1] == ports[..k] + [ports[k]];
    hide JumpOf;
    if Wants(id, ports[..k + 1], j) {
      var p :| p in ports[..k + 1] && Serves(p) && JumpOf(id, p) == j;
      assert p in ports[..k] || p == ports[k];
    }
    if Wants(id, ports[..k], j) {
      var p :| p in ports[..k] && Serves(p) && JumpOf(id, p) == j;
      assert p in ports[..k + 1];
    }
    assert ports[k] in ports && ports[k] in ports[..k + 1];
  }

  lemma NextLast(ports: seq<ServicePort>, k: nat, n: int)
    requires k < |ports|
    ensures LastWith(ports[..k + 1], n) == if Serves(ports[k]) &&
            ports[k].port == n then Some(ports[k]) else LastWith(ports[..k], n)
    ensures Serves(ports[k]) && ports[k].port == n ==> LastWith(ports, n).Some?
  {
    assert ports[..k + 1][..k] == ports[..k] && ports[..k + 1][k] == ports[k];
    LastWithSome(ports, n);
    assert ports[k] in ports;
  }

  lemma SkipPort(t: Table, id: string, ports: seq<ServicePort>, k: nat, addrs: seq<string>)
    requires k < |ports| && Applied(t, id, ports, k, addrs) && !Serves(ports[k])
    ensures Applied(t, id, ports, k + 1, addrs)
  {
    forall j ensures Wants(id, ports[..k + 1], j) <==> Wants(id, ports[..k], j) {
      NextWants(id, ports, k, j);
    }
    forall n ensures LastWith(ports[..k + 1], n) == LastWith(ports[..k], n) {
      NextLast(ports, k, n);
    }
    hide EndpointRules, Short, LastWith, Wants;
  }

  lemma MovedToEnd(js: seq<Jump>, j: Jump, i: Jump)
    ensures multiset(RemoveFirst(js, j) + [j])[i] == if i == j then (if j in js then multiset(js)[j] else 1) else
            multiset(js)[i]
  {
    RemoveFirstContents(js, j);
  }

  lemma JumpMoved(hook: seq<Jump>, id: string, ports: seq<ServicePort>, k: nat, j: Jump)
    requires k < |ports| && Serves(ports[k]) && JumpSound(hook, id, ports, j)
    requires Wants(id, ports[..k], j) ==> j in hook
    ensures var hook' := RemoveFirst(hook, JumpOf(id, ports[k])) + [JumpOf(id, ports[k])];
            JumpSound(hook', id, ports, j) && (Wants(id, ports[..k + 1], j) ==> j in hook')
  {
    var hook' := RemoveFirst(hook, JumpOf(id, ports[k])) + [JumpOf(id, ports[k])];
    NextWants(id, ports, k, j);
    MovedToEnd(hook, JumpOf(id, ports[k]), j);
    hide RemoveFirst, Wants, JumpOf;
    assert j in hook <==> multiset(hook)[j] > 0;
    assert j in hook' <==> multiset(hook')[j] > 0;
  }

  /** Applying a port puts its one jump and its chain in place. */
  lemma ApplyPort(t: Table, id: string, ports: seq<ServicePort>, k: nat, addrs: seq<string>)
    requires k < |ports| && Applied(t, id, ports, k, addrs) && Serves(ports[k])
    ensures Applied(PortApplied(t, id, ports[k], addrs), id, ports, k + 1, addrs)
  {
    var t' := PortApplied(t, id, ports[k], addrs);
    forall j: Jump | j.chain.short == Short(id)
      ensures JumpSound(t'.prerouting, id, ports, j) && JumpSound(t'.output, id, ports, j)
      ensures Wants(id, ports[..k + 1], j) ==> j in t'.prerouting && j in t'.output
    {
      JumpMoved(t.prerouting, id, ports, k, j);
      JumpMoved(t.output, id, ports, k, j);
    }
    hide EndpointRules, Short, LastWith, JumpSound, Wants, RemoveFirst, Proto;
    forall c | c in t'.chains && c.short == Short(id) ensures LastWith(ports, c.port).Some? {
      NextLast(ports, k, c.port);
    }
    forall n | LastWith(ports[..k + 1], n).Some?
      ensures ChainName(Short(id), n) in t'.chains
      ensures t'.chains[ChainName(Short(id), n)] == EndpointRules(addrs, LastWith(ports[..k + 1], n).value)
    {
      NextLast(ports, k, n);
    }
  }

  /** The hook as it is, without the jump, or with the jump moved to its end. */
  predicate HookBetween(hook: seq<Jump>, hook': seq<Jump>, j: Jump) {
    hook' == hook || hook' == RemoveFirst(hook, j) || hook' == RemoveFirst(hook, j) + [j]
  }

  /** Anywhere in the middle of applying one port. */
  ghost predicate Between(t: Table, t': Table, id: string, p: ServicePort) {
    var j := JumpOf(id, p);
    && HookBetween(t.prerouting, t'.prerouting, j)
    && HookBetween(t.output, t'.output, j)
    && (t'.chains == t.chains || (j.chain in t'.chains && t'.chains == t.chains[j.chain := t'.chains[j.chain]]))
  }

  lemma HookBetweenCounts(hook: seq<Jump>, hook': seq<Jump>, j: Jump, i: Jump)
    requires HookBetween(hook, hook', j)
    ensures i != j ==> multiset(hook')[i] == multiset(hook)[i]
    ensures multiset(hook)[j] <= 1 ==> multiset(hook')[j] <= 1
  {
    MovedToEnd(hook, j, i);
    MovedToEnd(hook, j, j);
    RemoveFirstContents(hook, j);
    hide RemoveFirst;
  }

  lemma JumpBetween(hook: seq<Jump>, hook': seq<Jump>, id: string, ports: seq<ServicePort>, p: ServicePort, j: Jump)
    requires p in ports && Serves(p) && HookBetween(hook, hook', JumpOf(id, p)) && JumpSound(hook, id, ports, j)
    ensures JumpSound(hook', id, ports, j)
  {
    HookBetweenCounts(hook, hook', JumpOf(id, p), j);
    hide HookBetween, JumpOf;
    assert j in hook <==> multiset(hook)[j] > 0;
    assert j in hook' <==> multiset(hook')[j] > 0;
  }

  lemma BetweenIsSound(t: Table, t': Table, id: string, ports: seq<ServicePort>, p: ServicePort)
    requires p in ports && Serves(p) && Sound(t, id, ports) && Between(t, t', id, p)
    ensures Sound(t', id, ports)
  {
    forall j: Jump | j.chain.short == Short(id)
      ensures JumpSound(t'.prerouting, id, ports, j) && JumpSound(t'.output, id, ports, j)
    {
      JumpBetween(t.prerouting, t'.prerouting, id, ports, p, j);
      JumpBetween(t.output, t'.output, id, ports, p, j);
    }
    hide Short, LastWith, JumpSound, Wants, HookBetween, Proto;
    forall c | c in t'.chains && c.short == Short(id) ensures LastWith(ports, c.port).Some? {
      LastWithSome(ports, c.port);
    }
  }

  lemma BetweenElsewhere(t: Table, t': Table, id: string, p: ServicePort)
    requires Between(t, t', id, p)
    ensures SameElsewhere(t, t', Short(id))
  {
    forall j: Jump | j.chain.short != Short(id)
      ensures multiset(t.prerouting)[j] == multiset(t'.prerouting)[j] && multiset(t.output)[j] == multiset(t'.output)[j]
    {
      HookBetweenCounts(t.prerouting, t'.prerouting, JumpOf(id, p), j);
      HookBetweenCounts(t.output, t'.output, JumpOf(id, p), j);
    }
    hide HookBetween, Proto, Short;
  }

  // ----- cleaning up -----

  /** The table after a removed service's port has been cleaned up. */
  function PortRemoved(t: Table, id: string, p: ServicePort): Table {
    var c := ChainName(Short(id), p.port);
    DeleteChain(FlushChain(DeleteJump(DeleteJump(t, Jump("tcp", p.port, c)), Jump("udp", p.port, c)), c), c)
  }

  /** The only two protocols whose jumps are taken back. */
  predicate Known(proto: string) {
    proto == "tcp" || proto == "udp"
  }

  /** A port of that number uses another protocol. */
  ghost predicate Leaks(ports: seq<ServicePort>, number: int) {
    exists p :: p in ports && Serves(p) && p.port == number && !Known(Proto(p))
  }

  ghost predicate Swept(ports: seq<ServicePort>, number: int) {
    exists p :: p in ports && p.port == number
  }

  /** What is left when the first `k` ports have been cleaned up. */
  ghost predicate Cleaning(t: Table, id: string, ports: seq<ServicePort>, k: nat)
    requires k <= |ports|
  {
    && Sound(t, id, ports)
    && (forall j: Jump | j.chain.short == Short(id) && Known(j.proto) && Swept(ports[..k], j.port) ::
          j !in t.prerouting && j !in t.output)
    && (forall c | c in t.chains && c.short == Short(id) && Swept(ports[..k], c.port) :: Leaks(ports, c.port))
  }

  lemma CleaningStart(t: Table, id: string, ports: seq<ServicePort>)
    requires Sound(t, id, ports)
    ensures Cleaning(t, id, ports, 0)
  {
    hide Sound;
  }

  /** If all ports use tcp or udp, nothing is left in the end. */
  lemma CleaningEnd(t: Table, id: string, ports: seq<ServicePort>)
    requires Cleaning(t, id, ports, |ports|)
    requires forall p | p in ports && Serves(p) :: Known(Proto(p))
    ensures Clean(t, Short(id))
  {
    assert ports[..|ports|] == ports;
    forall j: Jump | j.chain.short == Short(id) ensures j !in t.prerouting && j !in t.output {
      assert JumpSound(t.prerouting, id, ports, j) && JumpSound(t.output, id, ports, j);
    }
    forall c | c in t.chains && c.short == Short(id) ensures false {
      LastWithSome(ports, c.port);
    }
    hide Short, LastWith;
  }

  lemma NextSwept(ports: seq<ServicePort>, k: nat, n: int)
    requires k < |ports|
    ensures Swept(ports[..k + 1], n) <==> Swept(ports[..k], n) || ports[k].port == n
  {
    assert ports[..k + 1] == ports[..k] + [ports[k]];
    if Swept(ports[..k + 1], n) {
      var p :| p in ports[..k + 1] && p.port == n;
      assert p in ports[..k] || p == ports[k];
    }
    if Swept(ports[..k], n) {
      var p :| p in ports[..k] && p.port == n;
      assert p in ports[..k + 1];
    }
    assert ports[k] in ports[..k + 1];
  }

  // The hook without a chain's tcp and udp jumps.
  function Unhooked(hook: seq<Jump>, c: ChainName): seq<Jump> {
    RemoveFirst(RemoveFirst(hook, Jump("tcp", c.port, c)), Jump("udp", c.port, c))
  }

  lemma UnhookedContents(hook: seq<Jump>, c: ChainName, j: Jump)
    ensures j.chain != c || j.port != c.port || !Known(j.proto) ==> multiset(Unhooked(hook, c))[j] == multiset(hook)[j]
    ensures multiset(Unhooked(hook, c))[j] <= multiset(hook)[j]
    ensures j.chain == c && j.port == c.port && Known(j.proto) && multiset(hook)[j] <= 1 ==> j !in Unhooked(hook, c)
  {
    RemoveFirstContents(hook, Jump("tcp", c.port, c));
    RemoveFirstContents(RemoveFirst(hook, Jump("tcp", c.port, c)), Jump("udp", c.port, c));
    hide RemoveFirst;
    assert j in Unhooked(hook, c) <==> multiset(Unhooked(hook, c))[j] > 0;
  }

  lemma PortRemovedShape(t: Table, id: string, p: ServicePort)
    ensures var c := ChainName(Short(id), p.port);
            var t' := PortRemoved(t, id, p);
            && t'.prerouting == Unhooked(t.prerouting, c) && t'.output == Unhooked(t.output, c)
            && (c in t'.chains <==>
                  c in t.chains && exists j :: (j in t'.prerouting || j in t'.output) && j.chain == c)
            && (forall d | d != c ::
                (d in t'.chains <==> d in t.chains) && (d in t.chains ==> t'.chains[d] == t.chains[d]))
  {
    hide RemoveFirst, Short;
  }

  lemma JumpCleaned(hook: seq<Jump>, id: string, ports: seq<ServicePort>, k: nat, j: Jump)
    requires k < |ports| && JumpSound(hook, id, ports, j)
    requires Known(j.proto) && Swept(ports[..k], j.port) ==> j !in hook
    ensures var hook' := Unhooked(hook, ChainName(Short(id), ports[k].port));
            JumpSound(hook', id, ports, j) && (Known(j.proto) && Swept(ports[..k + 1], j.port) ==> j !in hook')
  {
    var hook' := Unhooked(hook, ChainName(Short(id), ports[k].port));
    UnhookedContents(hook, ChainName(Short(id), ports[k].port), j);
    NextSwept(ports, k, j.port);
    hide Unhooked, Swept, Short, Known;
    assert j in hook <==> multiset(hook)[j] > 0;
    assert j in hook' <==> multiset(hook')[j] > 0;
  }

  /** Who still jumps to a swept chain does so for another protocol. */
  lemma StillReferenced(hook: seq<Jump>, id: string, ports: seq<ServicePort>, k: nat, j: Jump)
    requires k < |ports| && JumpSound(hook, id, ports, j) && j in hook && j.chain == ChainName(Short(id), ports[k].port)
    requires Known(j.proto) && Swept(ports[..k + 1], j.port) ==> j !in hook
    ensures Leaks(ports, ports[k].port)
  {
    NextSwept(ports, k, ports[k].port);
    hide Swept, Short, Known;
  }

  lemma CleanPort(t: Table, id: string, ports: seq<ServicePort>, k: nat)
    requires k < |ports| && Cleaning(t, id, ports, k)
    ensures Cleaning(PortRemoved(t, id, ports[k]), id, ports, k + 1)
  {
    var t' := PortRemoved(t, id, ports[k]);
    PortRemovedShape(t, id, ports[k]);
    forall j: Jump | j.chain.short == Short(id)
      ensures JumpSound(t'.prerouting, id, ports, j) &&
              (Known(j.proto) && Swept(ports[..k + 1], j.port) ==> j !in t'.prerouting)
      ensures JumpSound(t'.output, id, ports, j) &&
              (Known(j.proto) && Swept(ports[..k + 1], j.port) ==> j !in t'.output)
    {
      JumpCleaned(t.prerouting, id, ports, k, j);
      JumpCleaned(t.output, id, ports, k, j);
    }
    hide Short, LastWith, JumpSound, Unhooked, Known, Leaks, Swept, PortRemoved;
    forall c | c in t'.chains && c.short == Short(id)
      ensures LastWith(ports, c.port).Some? && (Swept(ports[..k + 1], c.port) ==> Leaks(ports, c.port))
    {
      NextSwept(ports, k, c.port);
      if c.port == ports[k].port {
        var j :| (j in t'.prerouting || j in t'.output) && j.chain == c;
        if j in t'.prerouting {
          StillReferenced(t'.prerouting, id, ports, k, j);
        } else {
          StillReferenced(t'.output, id, ports, k, j);
        }
      }
    }
  }

  lemma SkipZeroPort(t: Table, id: string, ports: seq<ServicePort>, k: nat)
    requires k < |ports| && Cleaning(t, id, ports, k) && ports[k].port == 0
    ensures Cleaning(t, id, ports, k + 1)
  {
    hide Swept, LastWith, Known, Leaks, Short;
    forall j: Jump | j.chain.short == Short(id) && Known(j.proto) && Swept(ports[..k + 1], j.port)
      ensures j !in t.prerouting && j !in t.output
    {
      NextSwept(ports, k, j.port);
      assert JumpSound(t.prerouting, id, ports, j) && JumpSound(t.output, id, ports, j);
    }
    forall c | c in t.chains && c.short == Short(id) && Swept(ports[..k + 1], c.port) ensures Leaks(ports, c.port) {
      NextSwept(ports, k, c.port);
      LastWithSome(ports, c.port);
    }
  }

  lemma CleanPortElsewhere(t: Table, id: string, p: ServicePort)
    ensures SameElsewhere(t, PortRemoved(t, id, p), Short(id))
    ensures KeepsOtherProtocols(t, PortRemoved(t, id, p))
  {
    PortRemovedShape(t, id, p);
    var t' := PortRemoved(t, id, p);
    forall j: Jump
      ensures j.chain.short != Short(id) || !Known(j.proto) ==>
        multiset(t.prerouting)[j] == multiset(t'.prerouting)[j] && multiset(t.output)[j] == multiset(t'.output)[j]
    {
      UnhookedContents(t.prerouting, ChainName(Short(id), p.port), j);
      UnhookedContents(t.output, ChainName(Short(id), p.port), j);
    }
    hide Unhooked, Short, Known, PortRemoved;
  }

  ghost predicate KeepsOtherProtocols(t: Table, t': Table) {
    forall j: Jump | !Known(j.proto) ::
      multiset(t.prerouting)[j] == multiset(t'.prerouting)[j] && multiset(t.output)[j] == multiset(t'.output)[j]
  }

  lemma KeepsOtherProtocolsChain(a: Table, b: Table, c: Table)
    requires a == b || KeepsOtherProtocols(a, b)
    requires KeepsOtherProtocols(b, c)
    ensures KeepsOtherProtocols(a, a) && KeepsOtherProtocols(a, c)
  {
  }

  lemma KnownProtocol(p: ServicePort)
    ensures Known(Proto(p)) <==> p.protocol == "" || IsLowerOf("tcp", p.protocol) || IsLowerOf("udp", p.protocol)
  {
    LowerIs(p.protocol);
    hide Lower;
    assert forall low | IsLowerOf(low, p.protocol) :: low == Lower(p.protocol);
  }

  /** A service that agreed with its ports can be cleaned up exactly if they all use tcp or
      udp; the jumps of any other protocol stay, and their chains with them. */
  lemma CleanExactly(t: Table, t': Table, id: string, ports: seq<ServicePort>, addrs: seq<string>)
    requires Agrees(t, id, ports, addrs) && Cleaning(t', id, ports, |ports|) && KeepsOtherProtocols(t, t')
    ensures Clean(t', Short(id)) <==>
            forall p | p in ports && p.port != 0 && p.targetPort != 0 ::
              p.protocol == "" || IsLowerOf("tcp", p.protocol) || IsLowerOf("udp", p.protocol)
  {
    forall p | p in ports
      ensures Known(Proto(p)) <==> p.protocol == "" || IsLowerOf("tcp", p.protocol) || IsLowerOf("udp", p.protocol)
    {
      KnownProtocol(p);
    }
    hide IsLowerOf;
    if forall p | p in ports && Serves(p) :: Known(Proto(p)) {
      CleaningEnd(t', id, ports);
    } else {
      var p :| p in ports && Serves(p) && !Known(Proto(p));
      assert Wants(id, ports, JumpOf(id, p));
      hide Known, Proto, Short, LastWith, EndpointRules;
      assert multiset(t.prerouting)[JumpOf(id, p)] == 1;
    }
  }

  // ----- ports that share a number -----

  /** A serving port is served by its own rules exactly if the last serving port with its
      number asks for the same rules: each port flushes the chain that it shares. */
  lemma PortServedExactly(t: Table, id: string, ports: seq<ServicePort>, addrs: seq<string>, p: ServicePort)
    requires Agrees(t, id, ports, addrs) && p in ports && Serves(p)
    ensures ChainName(Short(id), p.port) in t.chains && LastWith(ports, p.port).Some?
    ensures t.chains[ChainName(Short(id), p.port)] == EndpointRules(addrs, p) <==>
              addrs == [] || (var q := LastWith(ports, p.port).value;
                  Proto(q) == Proto(p) && q.targetPort == p.targetPort)
  {
    LastWithSome(ports, p.port);
    var q := LastWith(ports, p.port).value;
    hide LastWith, Short, Proto;
    var a, b := EndpointRules(addrs, q), EndpointRules(addrs, p);
    if addrs == [] {
      assert a == [] && b == [];
    } else if a == b {
      assert a[0].proto == Proto(q) && b[0].proto == Proto(p);
      assert a[0].targetPort == q.targetPort && b[0].targetPort == p.targetPort;
    }
  }

  // ----- what agreeing means for a port -----

  /** TCP unless the port names a protocol, which counts in lower case. */
  predicate IsProtocol(proto: string, text: string) {
    if text == "" then proto == "tcp" else IsLowerOf(proto, text)
  }

  /** The first eight characters of the service id. */
  predicate IsShort(short: string, id: string) {
    short <= id && |short| == if |id| > 8 then 8 else |id|
  }

  lemma ProtocolIs(p: ServicePort, proto: string)
    ensures IsProtocol(proto, p.protocol) <==> proto == Proto(p)
  {
    LowerIs(p.protocol);
  }

  lemma ShortIs(id: string, short: string)
    ensures IsShort(short, id) <==> short == Short(id)
  {
  }

  /** The port has its one jump at each hook, for its protocol and number, into the chain of
      the service and that number. */
  ghost predicate Hooked(t: Table, id: string, p: ServicePort) {
    forall proto, short | IsProtocol(proto, p.protocol) && IsShort(short, id) ::
      var j := Jump(proto, p.port, ChainName(short, p.port));
      multiset(t.prerouting)[j] == 1 && multiset(t.output)[j] == 1
  }

  /** The chain of the port's number sends its connections to the endpoints in order: each rule
      for the port's protocol, to its target port, and all but the last with probability 1/n. */
  ghost predicate Balanced(t: Table, id: string, p: ServicePort, addrs: seq<string>) {
    forall short | IsShort(short, id) ::
      && ChainName(short, p.port) in t.chains
      && var rules := t.chains[ChainName(short, p.port)];
         |rules| == |addrs| &&
         forall i | 0 <= i < |addrs| ::
           && IsProtocol(rules[i].proto, p.protocol) && rules[i].addr == addrs[i]
           && rules[i].targetPort == p.targetPort
           && rules[i].probability == if i < |addrs| - 1 then 1.0 / (|addrs| as real) else 0.0
  }

  /** A rule of a hook that belongs to the service belongs to one of its ports. */
  ghost predicate AskedFor(ports: seq<ServicePort>, j: Jump) {
    && j.port == j.chain.port
    && exists p :: p in ports && p.port != 0 && p.targetPort != 0 && p.port == j.port && IsProtocol(j.proto, p.protocol)
  }

  /** Every port with a number and a target is hooked; the last port of a number decides what
      that number's chain does; and there is nothing that no port asks for. */
  ghost predicate Served(t: Table, id: string, ports: seq<ServicePort>, addrs: seq<string>) {
    && (forall p | p in ports && p.port != 0 && p.targetPort != 0 :: Hooked(t, id, p))
    && (forall k | 0 <= k < |ports| && ports[k].port != 0 && ports[k].targetPort != 0 &&
          (forall l | k < l < |ports| :: ports[l].targetPort == 0 || ports[l].port != ports[k].port) ::
          Balanced(t, id, ports[k], addrs))
    && (forall j | (j in t.prerouting || j in t.output) && IsShort(j.chain.short, id) :: AskedFor(ports, j))
  }

  /** What a service is served with when its share is as a rebuild would leave it. */
  lemma PortsAreServed(t: Table, id: string, ports: seq<ServicePort>, addrs: seq<string>)
    requires Agrees(t, id, ports, addrs)
    ensures Served(t, id, ports, addrs)
  {
    hide Proto, Short, IsProtocol, IsShort;
    ShortIs(id, Short(id));
    forall p | p in ports && p.port != 0 && p.targetPort != 0 ensures Hooked(t, id, p) {
      PortIsHooked(t, id, ports, addrs, p);
    }
    forall k | 0 <= k < |ports| && ports[k].port != 0 && ports[k].targetPort != 0 &&
        (forall l | k < l < |ports| :: ports[l].targetPort == 0 || ports[l].port != ports[k].port)
      ensures Balanced(t, id, ports[k], addrs)
    {
      LastOfNumber(ports, k);
      PortIsBalanced(t, id, ports, addrs, ports[k]);
    }
    forall j | (j in t.prerouting || j in t.output) && IsShort(j.chain.short, id) ensures AskedFor(ports, j) {
      ShortIs(id, j.chain.short);
      var p :| p in ports && Serves(p) && JumpOf(id, p) == j;
      ProtocolIs(p, j.proto);
    }
  }

  lemma PortIsHooked(t: Table, id: string, ports: seq<ServicePort>, addrs: seq<string>, p: ServicePort)
    requires Agrees(t, id, ports, addrs) && p in ports && p.port != 0 && p.targetPort != 0
    ensures Hooked(t, id, p)
  {
    hide Proto, Short, IsProtocol, IsShort;
    forall proto, short | IsProtocol(proto, p.protocol) && IsShort(short, id)
      ensures Jump(proto, p.port, ChainName(short, p.port)) == JumpOf(id, p) && Serves(p)
    {
      ProtocolIs(p, proto);
      ShortIs(id, short);
    }
    assert Wants(id, ports, JumpOf(id, p));
  }

  lemma PortIsBalanced(t: Table, id: string, ports: seq<ServicePort>, addrs: seq<string>, p: ServicePort)
    requires Agrees(t, id, ports, addrs) && LastWith(ports, p.port) == Some(p)
    ensures Balanced(t, id, p, addrs)
  {
    hide Proto, Short, IsProtocol, IsShort, LastWith;
    forall short | IsShort(short, id) ensures short == Short(id) {
      ShortIs(id, short);
    }
    ProtocolIs(p, Proto(p));
  }

  lemma {:induction false} LastOfNumber(ports: seq<ServicePort>, k: nat)
    requires k < |ports| && ports[k].port != 0 && ports[k].targetPort != 0
    requires forall l | k < l < |ports| :: ports[l].targetPort == 0 || ports[l].port != ports[k].port
    ensures LastWith(ports, ports[k].port) == Some(ports[k])
  {
    if k < |ports| - 1 {
      LastOfNumber(ports[..|ports| - 1], k);
    }
  }

  lemma SameElsewhereReflexive(t: Table, short: string)
    ensures SameElsewhere(t, t, short)
  {
  }

  lemma SameElsewhereChain(a: Table, b: Table, c: Table, short: string)
    requires SameElsewhere(a, b, short) && SameElsewhere(b, c, short)
    ensures SameElsewhere(a, c, short)
  {
  }

  lemma KeptByOthers(t: Table, t': Table, short: string, id: string, ports: seq<ServicePort>, addrs: seq<string>)
    requires SameElsewhere(t, t', short) && Short(id) != short
    ensures Agrees(t, id, ports, addrs) ==> Agrees(t', id, ports, addrs)
    ensures Sound(t, id, ports) ==> Sound(t', id, ports)
    ensures Clean(t, Short(id)) ==> Clean(t', Short(id))
  {
    hide EndpointRules, LastWith, Wants, Short;
    forall j: Jump | j.chain.short == Short(id)
      ensures j in t.prerouting <==> j in t'.prerouting
      ensures j in t.output <==> j in t'.output
    {
      assert j in t.prerouting <==> multiset(t.prerouting)[j] > 0;
      assert j in t'.prerouting <==> multiset(t'.prerouting)[j] > 0;
      assert j in t.output <==> multiset(t.output)[j] > 0;
      assert j in t'.output <==> multiset(t'.output)[j] > 0;
    }
  }
}
