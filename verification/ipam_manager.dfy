/** The address store's operations, and what holds over all their runs. */
module IpamManager {
  import opened Wrappers
  import opened IPv4
  import opened Ipam

  datatype Error = NotConfigured | NoFreeAddress | AlreadyCreated | PrefixTooLong | NoSpace | NotFound

  class Manager {
    const runtime: Cidr
    var pools: seq<Pool>

    /** The state a missing file stands for: one bridge on the first /24. */
    constructor ()
      ensures runtime == DEFAULT_RUNTIME && pools == DEFAULT_POOLS
      ensures Valid()
    {
      runtime := DEFAULT_RUNTIME;
      pools := DEFAULT_POOLS;
      new;
      DefaultIsValid();
    }

    ghost predicate Valid()
      reads this
    {
      ValidPools(runtime, pools)
    }

    /** Gives the container the least free address of the bridge's pool. A pool refuses
        exactly when it holds 253 containers. */
    method Allocate(containerId: string, bridge: string) returns (addr: Option<u32>, err: Option<Error>)
      requires Valid()
      modifies this`pools
      ensures addr.Some? <==> err.None?
      ensures err == Some(NotConfigured) <==> !HasBridge(old(pools), bridge)
      ensures err == Some(NoFreeAddress) <==>
              HasBridge(old(pools), bridge) && |old(pools)[PoolOf(old(pools), bridge)].allocations| == 253
      ensures err.Some? ==> pools == old(pools) && err.value in {NotConfigured, NoFreeAddress}
      ensures addr.Some? ==> var i := PoolOf(old(pools), bridge);
                PoolFree(old(pools)[i], addr.value) && (forall a | PoolFree(old(pools)[i], a) :: addr.value <= a)
                && pools == Assign(old(pools), i, addr.value, Allocation(containerId, "rd_" + containerId, []))
      ensures Step(runtime, old(pools), if addr.Some? then Allocated(containerId, bridge, addr.value) else
              Refused, pools)
      ensures Valid()
      ensures OneAddressEach(old(pools)) && !Known(old(pools), containerId) ==> OneAddressEach(pools)
    {
      hide Size, Free;
      for i := 0 to |pools|
        invariant forall j | 0 <= j < i :: pools[j].iface != bridge
      {
        var p := pools[i];
        if p.iface == bridge {
          FoundPool(pools, bridge, i);
          PoolCapacity(runtime, p);
          NetworkBytes(runtime, p);
          var next := FindFreeIpv4(FromU32(p.subnet.network), p.subnet.prefix, FromU32(p.gateway), p.allocations);
          if next.None? {
            return None, Some(NoFreeAddress);
          }
          var a := U32(next.value);
          assert PoolFree(p, a);
          AssignedIsValid(runtime, pools, i, a, containerId);
          pools := pools[i := p.(allocations := p.allocations[a := Allocation(containerId, "rd_" + containerId, [])])];
          return Some(a), None;
        }
      }
      return None, Some(NotConfigured);
    }

    /** Looks through the pools, and through a pool's addresses in no particular order. */
    method FindHolder(containerId: string) returns (r: Option<(nat, u32)>)
      requires Valid()
      ensures r.Some? ==> Holds(pools, r.value.0, r.value.1, containerId)
      ensures r.None? ==> !Known(pools, containerId)
    {
      for i := 0 to |pools|
        invariant forall j, a | 0 <= j < i :: !Holds(pools, j, a, containerId)
      {
        var p := pools[i];
        var rest := p.allocations.Keys;
        while rest != {}
          invariant rest <= p.allocations.Keys
          invariant forall a | a in p.allocations && a !in rest :: p.allocations[a].containerId != containerId
          decreases |rest|
        {
          var a :| a in rest;
          if p.allocations[a].containerId == containerId {
            return Some((i, a));
          }
          rest := rest - {a};
        }
      }
      return None;
    }

    /** Releasing an unknown container is no error. */
    method Release(containerId: string)
      requires Valid()
      modifies this`pools
      ensures Step(runtime, old(pools), Released(containerId), pools) && Valid()
      ensures OneAddressEach(old(pools)) ==> OneAddressEach(pools) && !Known(pools, containerId)
    {
      var h := FindHolder(containerId);
      match h {
        case None =>
        case Some((i, a)) =>
          ghost var before := pools;
          ChangedIsValid(runtime, pools, i, a, []);
          pools := pools[i := pools[i].(allocations := pools[i].allocations - {a})];
          forall j, b | Holds(pools, j, b, containerId) ensures Holds(before, j, b, containerId) && (j != i || b != a) {
          }
      }
    }

    method SetForwardInfo(containerId: string, sport: int, dport: int, protocol: string) returns (err: Option<Error>)
      requires Valid()
      modifies this`pools
      ensures Valid()
      ensures err.None? <==> Known(old(pools), containerId)
      ensures err.None? ==> Step(runtime, old(pools), ForwardSet(containerId, ForwardInfo(sport, dport, protocol)),
              pools)
      ensures err.Some? ==> pools == old(pools)
    {
      var h := FindHolder(containerId);
      match h {
        case None => return Some(NotFound);
        case Some((i, a)) =>
          var alloc := pools[i].allocations[a];
          var fi := ForwardInfo(sport, dport, protocol);
          ChangedIsValid(runtime, pools, i, a, alloc.forwards + [fi]);
          pools := pools[i := pools[i].(allocations := pools[i].allocations[a := alloc.(forwards := alloc.forwards +
              [fi])])];
          return None;
      }
    }

    /** The forwards of all addresses of a container; an unknown one has none, which is no
        error. With one address, which is what allocation to new containers gives, they come in
        the order in which they were set. */
    method GetForwardInfo(containerId: string) returns (forwards: seq<ForwardInfo>)
      requires Valid()
      ensures AllForwards(pools, containerId, forwards)
      ensures !Known(pools, containerId) ==> forwards == []
      ensures OneAddressEach(pools) ==>
                forall i, a | Holds(pools, i, a, containerId) :: forwards == pools[i].allocations[a].forwards
    {
      forwards := [];
      GatheredStart(pools, containerId);
      hide ValidPools, OneAddressEach, Gathered, ForwardsOf, Holds, Known, OnlyOne;
      for i := 0 to |pools|
        invariant Gathered(pools, i, containerId, forwards)
      {
        var part := PoolForwards(pools[i].allocations, containerId);
        GatheredNext(pools, i, containerId, forwards, part);
        forwards := forwards + part;
      }
      GatheredAll(pools, containerId, forwards);
    }

    /** The inner loop, over the addresses of one pool. */
    method PoolForwards(alloc: map<u32, Allocation>, containerId: string) returns (forwards: seq<ForwardInfo>)
      ensures multiset(forwards) == InPool(alloc, alloc.Keys, containerId)
      ensures OnlyOne(alloc, alloc.Keys, containerId, forwards)
    {
      forwards := [];
      hide InPool;
      var rest := alloc.Keys;
      while rest != {}
        invariant rest <= alloc.Keys
        invariant multiset(forwards) + InPool(alloc, rest, containerId) == InPool(alloc, alloc.Keys, containerId)
        invariant OnlyOne(alloc, alloc.Keys - rest, containerId, forwards)
        decreases |rest|
      {
        var a :| a in rest;
        InPoolPick(alloc, rest, a, containerId);
        OnlyOneNext(alloc, alloc.Keys - rest, containerId, forwards, a);
        assert alloc.Keys - rest + {a} == alloc.Keys - (rest - {a});
        if alloc[a].containerId == containerId {
          forwards := forwards + alloc[a].forwards;
        }
        rest := rest - {a};
      }
      NoneInNone(alloc, containerId);
      assert alloc.Keys - rest == alloc.Keys;
    }

    /** The bridge and the address of a container. */
    method GetContainerAddress(containerId: string) returns (r: Option<(string, u32)>)
      requires Valid()
      ensures r.Some? <==> Known(pools, containerId)
      ensures r.Some? ==> exists i :: Holds(pools, i, r.value.1, containerId) && pools[i].iface == r.value.0
    {
      var h := FindHolder(containerId);
      match h
      case None => return None;
      case Some((i, a)) => return Some((pools[i].iface, a));
    }

    method GetVethById(containerId: string) returns (r: Option<string>)
      requires Valid()
      ensures r == if Known(pools, containerId) then Some("rd_" + containerId) else None
    {
      var h := FindHolder(containerId);
      match h
      case None => return None;
      case Some((i, a)) => return Some(pools[i].allocations[a].iface);
    }

    /** The container and the interface behind an address: the inverse of the lookup by
        container. */
    method GetInfoByIp(ip: u32) returns (r: Option<(string, string)>)
      requires Valid()
      ensures forall cid :: r == Some((cid, "rd_" + cid)) <==> exists i :: Holds(pools, i, ip, cid)
      ensures r.None? ==> forall i, cid :: !Holds(pools, i, ip, cid)
    {
      for i := 0 to |pools|
        invariant forall j, cid | 0 <= j < i :: !Holds(pools, j, ip, cid)
      {
        if ip in pools[i].allocations {
          var info := pools[i].allocations[ip];
          assert Holds(pools, i, ip, info.containerId);
          forall j, cid | Holds(pools, j, ip, cid) ensures cid == info.containerId {
            AddressIsUnique(runtime, pools, i, j, ip);
          }
          assert info.iface == "rd_" + info.containerId;
          return Some((info.containerId, info.iface));
        }
      }
      return None;
    }

    /** Takes the first aligned /24 of the runtime subnet that no pool has. With every /24
        of a /0 runtime subnet taken the loop would go round for ever. */
    method StoreBridge(bridge: string) returns (r: Option<Pool>, err: Option<Error>)
      requires Valid()
      requires runtime.prefix == 0 ==> exists n :: Aligned(runtime, n) && !Used(pools, n)
      modifies this`pools
      ensures Valid() && (r.Some? <==> err.None?)
      ensures err == Some(AlreadyCreated) <==> HasBridge(old(pools), bridge)
      ensures err == Some(PrefixTooLong) <==> !HasBridge(old(pools), bridge) && runtime.prefix > 24
      ensures err == Some(NoSpace) <==>
              !HasBridge(old(pools), bridge) && runtime.prefix <= 24 && forall n | Aligned(runtime, n) ::
                  Used(old(pools), n)
      ensures err.Some? ==> pools == old(pools)
      ensures r.Some? ==> pools == old(pools) + [r.value]
                          && Step(runtime, old(pools), BridgeStored(bridge, r.value.subnet.network), pools)
    {
      PrefixBound(runtime, pools);
      hide Size, ValidPools, ValidRuntime, Aligned, Used, FromU32, Ipv4Add, Plus, U32;
      for i := 0 to |pools|
        invariant forall j | 0 <= j < i :: pools[j].iface != bridge
      {
        if pools[i].iface == bridge {
          return None, Some(AlreadyCreated);
        }
      }
      if runtime.prefix > 24 {
        return None, Some(PrefixTooLong);
      }
      var usedSubnets := CollectSubnets();
      var network := FirstFreeSubnet(usedSubnets);
      if network.None? {
        return None, Some(NoSpace);
      }
      StoredIsValid(runtime, pools, bridge, network.value);
      AddGateway(network.value);
      var pool := Pool(bridge, Cidr(network.value, 24), U32(Ipv4Add(FromU32(network.value), 254)), map[]);
      pools := pools + [pool];
      return Some(pool), None;
    }

    method CollectSubnets() returns (usedSubnets: set<Cidr>)
      ensures forall n: u32 :: Cidr(n, 24) in usedSubnets <==> Used(pools, n)
    {
      usedSubnets := {};
      for i := 0 to |pools|
        invariant forall c :: c in usedSubnets <==> exists j :: 0 <= j < i && pools[j].subnet == c
      {
        usedSubnets := usedSubnets + {pools[i].subnet};
      }
      UsedSubnets(pools, usedSubnets);
    }

    /** The loop over the aligned /24 blocks. */
    method FirstFreeSubnet(usedSubnets: set<Cidr>) returns (r: Option<u32>)
      requires Valid() && runtime.prefix <= 24 && forall n: u32 :: Cidr(n, 24) in usedSubnets <==> Used(pools, n)
      requires runtime.prefix == 0 ==> exists n :: Aligned(runtime, n) && !Used(pools, n)
      ensures r.None? ==> forall n | Aligned(runtime, n) :: Used(pools, n)
      ensures r.Some? ==> Aligned(runtime, r.value) && !Used(pools, r.value)
                          && forall n | Aligned(runtime, n) && !Used(pools, n) :: r.value <= n
    {
      var start := FromU32(runtime.network);
      RuntimeBytes(runtime);
      LoopStarts(runtime, pools);
      hide Size, Contains, IsNetwork, U32, Used, Aligned, ValidPools, ValidRuntime, AtBlock, Plus, Ipv4Add, FromU32;
      var ip := start;
      ghost var k := 0;
      ContainsMeaning(start, runtime.prefix, ip);
      while Contains(start, runtime.prefix, ip)
        invariant AtBlock(runtime, pools, k, U32(ip))
        invariant Contains(start, runtime.prefix, ip) <==>
                runtime.network <= U32(ip) < runtime.network + Size(runtime.prefix)
        decreases Size(runtime.prefix) - k * 256
      {
        LoopSteps(runtime, pools, k, U32(ip));
        ClassBytes(ip);
        var bcast := Broadcast(ip, 24);
        ContainsMeaning(start, runtime.prefix, bcast);
        if !Contains(start, runtime.prefix, bcast) {
          break;
        }
        if Cidr(U32(ip), 24) in usedSubnets {
          ip := Ipv4Add(ip, 256);
          ContainsMeaning(start, runtime.prefix, ip);
          k := k + 1;
          continue;
        }
        return Some(U32(ip));
      }
      LoopEnds(runtime, pools, k, U32(ip));
      return None;
    }

    method RemoveBridge(bridge: string) returns (err: Option<Error>)
      requires Valid()
      modifies this`pools
      ensures Valid()
      ensures err.None? <==> HasBridge(old(pools), bridge)
      ensures Step(runtime, old(pools), if err.None? then BridgeRemoved(bridge) else Refused, pools)
    {
      var newPools: seq<Pool> := [];
      var removeFlag := false;
      for i := 0 to |pools|
        invariant newPools == WithoutBridge(pools[..i], bridge)
        invariant removeFlag <==> exists j :: 0 <= j < i && pools[j].iface == bridge
      {
        assert pools[..i + 1][..i] == pools[..i];
        if pools[i].iface == bridge {
          removeFlag := true;
          continue;
        }
        newPools := newPools + [pools[i]];
      }
      assert pools[..|pools|] == pools;
      if !removeFlag {
        return Some(NotFound);
      }
      RemovedIsValid(runtime, pools, bridge);
      pools := newPools;
      return None;
    }
  }

  // ----- gathering forwards -----

  /** The forwards of the container at some addresses of one pool. */
  ghost function InPool(alloc: map<u32, Allocation>, keys: set<u32>, cid: string): multiset<ForwardInfo>
    requires keys <= alloc.Keys
    decreases keys
  {
    if keys == {} then multiset{}
    else
      var a :| a in keys;
      (if alloc[a].containerId == cid then multiset(alloc[a].forwards) else multiset{}) + InPool(alloc, keys - {a}, cid)
  }

  /** All forwards that the store has for the container. */
  ghost function ForwardsOf(pools: seq<Pool>, cid: string): multiset<ForwardInfo> {
    if pools == [] then multiset{}
    else
      var last := pools[|pools| - 1].allocations;
      ForwardsOf(pools[..|pools| - 1], cid) + InPool(last, last.Keys, cid)
  }

  lemma {:induction false} InPoolPick(alloc: map<u32, Allocation>, keys: set<u32>, a: u32, cid: string)
    requires keys <= alloc.Keys && a in keys
    ensures InPool(alloc, keys, cid) ==
            (if alloc[a].containerId == cid then multiset(alloc[a].forwards) else multiset{}) +
            InPool(alloc, keys - {a}, cid)
    decreases keys
  {
    var b :| b in keys && InPool(alloc, keys, cid) ==
        (if alloc[b].containerId == cid then multiset(alloc[b].forwards) else multiset{}) +
        InPool(alloc, keys - {b}, cid);
    if a != b {
      InPoolPick(alloc, keys - {b}, a, cid);
      InPoolPick(alloc, keys - {a}, b, cid);
      assert keys - {a} - {b} == keys - {b} - {a};
    }
  }

  ghost predicate AllForwards(pools: seq<Pool>, cid: string, forwards: seq<ForwardInfo>) {
    multiset(forwards) == ForwardsOf(pools, cid)
  }

  lemma NoneInNone(alloc: map<u32, Allocation>, cid: string)
    ensures InPool(alloc, {}, cid) == multiset{}
  {
  }

  /** Without an address of the container among the seen ones there is nothing; with a single
      one there are its forwards. */
  ghost predicate OnlyOne(alloc: map<u32, Allocation>, seen: set<u32>, cid: string, forwards: seq<ForwardInfo>)
    requires seen <= alloc.Keys
  {
    && ((forall a | a in seen :: alloc[a].containerId != cid) ==> forwards == [])
    && forall a | a in seen && alloc[a].containerId == cid ::
         (forall b | b in seen && alloc[b].containerId == cid :: b == a) ==> forwards == alloc[a].forwards
  }

  lemma OnlyOneNext(alloc: map<u32, Allocation>, seen: set<u32>, cid: string, forwards: seq<ForwardInfo>, a: u32)
    requires seen <= alloc.Keys && a in alloc && a !in seen && OnlyOne(alloc, seen, cid, forwards)
    ensures OnlyOne(alloc, seen + {a}, cid,
              if alloc[a].containerId == cid then forwards + alloc[a].forwards else forwards)
  {
    assert [] + alloc[a].forwards == alloc[a].forwards;
  }

  /** The first `i` pools have been gathered. */
  ghost predicate Gathered(pools: seq<Pool>, i: nat, cid: string, forwards: seq<ForwardInfo>)
    requires i <= |pools|
  {
    && AllForwards(pools[..i], cid, forwards)
    && ((forall j, a | Holds(pools, j, a, cid) :: j >= i) ==> forwards == [])
    && (OneAddressEach(pools) ==>
          forall j, a | Holds(pools, j, a, cid) && j < i :: forwards == pools[j].allocations[a].forwards)
  }

  lemma GatheredStart(pools: seq<Pool>, cid: string)
    ensures Gathered(pools, 0, cid, [])
  {
  }

  lemma GatheredAll(pools: seq<Pool>, cid: string, forwards: seq<ForwardInfo>)
    requires Gathered(pools, |pools|, cid, forwards)
    ensures AllForwards(pools, cid, forwards) && (!Known(pools, cid) ==> forwards == [])
    ensures OneAddressEach(pools) ==>
              forall i, a | Holds(pools, i, a, cid) :: forwards == pools[i].allocations[a].forwards
  {
    assert pools[..|pools|] == pools;
  }

  lemma GatheredNext(pools: seq<Pool>, i: nat, cid: string, forwards: seq<ForwardInfo>, part: seq<ForwardInfo>)
    requires i < |pools| && Gathered(pools, i, cid, forwards)
    requires multiset(part) == InPool(pools[i].allocations, pools[i].allocations.Keys, cid)
    requires OnlyOne(pools[i].allocations, pools[i].allocations.Keys, cid, part)
    ensures Gathered(pools, i + 1, cid, forwards + part)
  {
    ForwardsNext(pools, i, cid);
    OnlyOneThere(pools, i, cid, part);
    assert forwards + [] == forwards && [] + part == part;
    hide ForwardsOf, InPool, OnlyOne;
  }

  lemma OnlyOneThere(pools: seq<Pool>, i: nat, cid: string, part: seq<ForwardInfo>)
    requires i < |pools| && OnlyOne(pools[i].allocations, pools[i].allocations.Keys, cid, part)
    ensures (forall a :: !Holds(pools, i, a, cid)) ==> part == []
    ensures OneAddressEach(pools) ==> forall a | Holds(pools, i, a, cid) :: part == pools[i].allocations[a].forwards
  {
    assert forall a | a in pools[i].allocations && pools[i].allocations[a].containerId == cid ::
        Holds(pools, i, a, cid);
  }

  lemma ForwardsNext(pools: seq<Pool>, i: nat, cid: string)
    requires i < |pools|
    ensures ForwardsOf(pools[..i + 1], cid) ==
            ForwardsOf(pools[..i], cid) + InPool(pools[i].allocations, pools[i].allocations.Keys, cid)
  {
    assert pools[..i + 1][..i] == pools[..i];
  }

  // ----- the default state -----

  /** 10.166.0.0/16, with bridge raind0 on 10.166.0.0/24. */
  const DEFAULT_RUNTIME := Cidr(0x0AA6_0000, 16)
  const DEFAULT_POOLS := [NewPool("raind0", 0x0AA6_0000)]

  /** 10.166.254.254, the address the DNS proxy listens on. */
  const DNS_PROXY: u32 := 0x0AA6_FEFE

  lemma DefaultSize()
    ensures Size(16) == 0x1_0000
  {
    PowSum(8, 8);
    SmallPowers();
  }

  lemma DefaultIsValid()
    ensures ValidPools(DEFAULT_RUNTIME, DEFAULT_POOLS) && OneAddressEach(DEFAULT_POOLS)
  {
    DefaultSize();
    hide Size;
  }

  // ----- addresses and pools -----

  /** No address is held in two pools, nor by two containers. */
  lemma AddressIsUnique(runtime: Cidr, pools: seq<Pool>, i: int, j: int, a: u32)
    requires ValidPools(runtime, pools)
    requires 0 <= i < |pools| && a in pools[i].allocations && 0 <= j < |pools| && a in pools[j].allocations
    ensures i == j
  {
    hide Size;
    assert ValidPool(runtime, pools[i]) && ValidPool(runtime, pools[j]);
    SameBlock(runtime.network, pools[i].subnet.network, pools[j].subnet.network, a);
  }

  lemma SameBlock(r: int, m: int, n: int, a: int)
    requires (m - r) % 256 == 0 && (n - r) % 256 == 0 && m < a < m + 255 && n < a < n + 255
    ensures m == n
  {
  }

  lemma FoundPool(pools: seq<Pool>, bridge: string, i: nat)
    requires i < |pools| && pools[i].iface == bridge
    requires forall j | 0 <= j < i :: pools[j].iface != bridge
    ensures PoolOf(pools, bridge) == i
  {
    var k := PoolOf(pools, bridge);
    assert k <= i && i <= k;
  }

  function HostSet(lo: int, n: nat): (s: set<int>)
    ensures |s| == n
    ensures forall a :: a in s <==> lo <= a < lo + n
  {
    if n == 0 then {} else HostSet(lo, n - 1) + {lo + n - 1}
  }

  ghost function HeldBy(pool: Pool): set<int> {
    set a | a in pool.allocations
  }

  /** A pool has room for 253 containers: it is full exactly when it holds that many. */
  lemma PoolCapacity(runtime: Cidr, pool: Pool)
    requires ValidRuntime(runtime) && ValidPool(runtime, pool)
    ensures |pool.allocations| <= 253
    ensures |pool.allocations| == 253 <==> forall a :: !PoolFree(pool, a)
  {
    var hosts := HostSet(pool.subnet.network + 1, 253);
    var held := HeldBy(pool);
    HeldCount(pool.allocations, held);
    FreeHosts(runtime, pool, hosts);
    hide PoolFree, ValidPool, HeldBy;
    SubsetCount(held, hosts);
    if |held| == 253 {
      assert held == hosts;
    } else if forall a :: !PoolFree(pool, a) {
      assert hosts <= held;
      SubsetCount(hosts, held);
    }
  }

  lemma FreeHosts(runtime: Cidr, pool: Pool, hosts: set<int>)
    requires ValidRuntime(runtime) && ValidPool(runtime, pool)
    requires forall a :: a in hosts <==> pool.subnet.network + 1 <= a < pool.subnet.network + 254
    ensures HeldBy(pool) <= hosts
    ensures forall a :: PoolFree(pool, a) <==> a in hosts && a !in HeldBy(pool)
  {
    SizeBounds(24);
    hide Size;
  }

  lemma HeldCount(m: map<u32, Allocation>, held: set<int>)
    requires held == set a | a in m
    ensures |held| == |m|
  {
    KeysCount(m.Keys, held);
    assert |m| == |m.Keys|;
  }

  lemma {:induction false} KeysCount(keys: set<u32>, held: set<int>)
    requires held == set a | a in keys
    ensures |held| == |keys|
    decreases keys
  {
    if keys != {} {
      var k :| k in keys;
      var rest: set<int> := set a | a in keys - {k};
      KeysCount(keys - {k}, rest);
      assert held == rest + {k};
    } else {
      assert held == {};
    }
  }

  lemma SubsetCount(a: set<int>, b: set<int>)
    requires a <= b
    ensures |a| <= |b| && (|a| == |b| ==> a == b)
  {
    assert b == a + (b - a);
    assert |b| == |a| + |b - a|;
  }

  lemma NetworkBytes(runtime: Cidr, pool: Pool)
    requires ValidRuntime(runtime) && ValidPool(runtime, pool)
    ensures IsNetwork(FromU32(pool.subnet.network), 24)
  {
    AlignedMod(runtime, pool.subnet.network);
    ClassBytes(FromU32(pool.subnet.network));
  }

  lemma AlignedMod(runtime: Cidr, network: int)
    requires ValidRuntime(runtime) && Aligned(runtime, network)
    ensures network % 256 == 0
  {
    AlignedPrefix(runtime, network);
    RuntimeMod(runtime);
    hide ValidRuntime, Size;
    Congruent(runtime.network, network);
  }

  /** Only subnets of up to 24 bits have room for a /24. */
  lemma AlignedPrefix(runtime: Cidr, network: int)
    requires ValidRuntime(runtime) && Aligned(runtime, network)
    ensures runtime.prefix <= 24
  {
    hide Size;
    if runtime.prefix > 24 {
      SmallSubnet(runtime.prefix);
    }
  }

  lemma SmallSubnet(prefix: nat)
    requires 24 < prefix <= 32
    ensures Size(prefix) < 256
  {
    PowGrows(32 - prefix, 7);
    SmallPowers();
    assert Pow2(8) == 2 * Pow2(7);
  }

  lemma Congruent(m: int, n: int)
    requires m % 256 == 0 && (n - m) % 256 == 0
    ensures n % 256 == 0
  {
  }

  lemma RuntimeMod(runtime: Cidr)
    requires ValidRuntime(runtime) && runtime.prefix <= 24
    ensures runtime.network % 256 == 0
  {
    SizeBounds(runtime.prefix);
    hide Size;
    MultipleOf(runtime.network, Size(runtime.prefix), Size(runtime.prefix) / 256);
  }

  lemma MultipleOf(v: nat, s: nat, m: nat)
    requires s > 0 && s == m * 256 && v % s == 0
    ensures v % 256 == 0
  {
    var q := v / s;
    assert v == q * s;
    assert q * (m * 256) == (q * m) * 256;
    DivModUnique(v, 256, q * m, 0);
  }

  lemma ClassBytes(ip: Ip)
    requires U32(ip) % 256 == 0
    ensures IsNetwork(ip, 24)
  {
    assert ip[3] == 0;
    SplitSpans(24);
    assert Pow2(0) == 1;
    hide Span;
  }

  lemma LowByte(x: nat, w: nat, m: nat)
    requires w > 0 && w * m == 256 && x % w == 0
    ensures (x % 256) % w == 0
  {
    var t, s := x / 256, x / w;
    assert x == w * s;
    assert x % 256 == w * s - (w * m) * t == w * (s - m * t);
    if s - m * t >= 0 {
      DivModUnique(x % 256, w, s - m * t, 0);
    } else {
      MulAtLeast(s - m * t, w);
    }
  }

  /** A multiple of `w` times 256 has a zero last byte and a multiple of `w` above it. */
  lemma Shift(v: nat, w: nat)
    requires w > 0 && v % (w * 256) == 0
    ensures v % 256 == 0 && (v / 256) % w == 0
  {
    var q := v / (w * 256);
    assert v == q * (w * 256);
    assert v == (q * w) * 256;
    DivModUnique(v / 256, w, q, 0);
  }

  lemma RuntimeBytes(runtime: Cidr)
    requires ValidRuntime(runtime) && runtime.prefix <= 24
    ensures IsNetwork(FromU32(runtime.network), runtime.prefix)
  {
    var prefix, v := runtime.prefix, runtime.network;
    var k := SplitByte(prefix);
    var w := Span(prefix, k);
    var ip := FromU32(v);
    SplitSpans(prefix);
    PowSum(FreeBits(prefix, k), 8 - FreeBits(prefix, k));
    SmallPowers();
    var m := Pow2(8 - FreeBits(prefix, k));
    assert w * m == 256;
    hide Span, Size, Pow2;
    if k == 2 {
      assert v % (w * 256) == 0;
      Shift(v, w);
      LowByte(v / 256, w, m);
    } else if k == 1 {
      assert v % ((w * 256) * 256) == 0;
      Shift(v, w * 256);
      Shift(v / 256, w);
      LowByte(v / 256 / 256, w, m);
    } else {
      assert v % ((w * 256 * 256) * 256) == 0;
      Shift(v, w * 256 * 256);
      Shift(v / 256, w * 256);
      Shift(v / 256 / 256, w);
      LowByte(v / 256 / 256 / 256, w, m);
    }
  }

  lemma AddGateway(network: u32)
    requires network + 254 < TWO_32
    ensures U32(Ipv4Add(FromU32(network), 254)) == network + 254
  {
    hide U32;
  }

  lemma PrefixBound(runtime: Cidr, pools: seq<Pool>)
    requires ValidPools(runtime, pools)
    ensures runtime.prefix <= 32
    ensures forall n | Aligned(runtime, n) :: n + 256 <= TWO_32
  {
    hide Size;
  }

  lemma UsedSubnets(pools: seq<Pool>, usedSubnets: set<Cidr>)
    requires forall c :: c in usedSubnets <==> exists j :: 0 <= j < |pools| && pools[j].subnet == c
    ensures forall n: u32 :: Cidr(n, 24) in usedSubnets <==> Used(pools, n)
  {
    forall n: u32 ensures Cidr(n, 24) in usedSubnets <==> Used(pools, n) {
      if Used(pools, n) {
        var i :| 0 <= i < |pools| && pools[i].subnet.network == n && pools[i].subnet.prefix == 24;
        assert pools[i].subnet == Cidr(n, 24);
      }
    }
  }

  lemma WholeSpace(prefix: nat)
    requires prefix <= 24 && Size(prefix) == TWO_32
    ensures prefix == 0
  {
    if prefix > 0 {
      PowGrows(32 - prefix, 31);
      HalfSpace();
    }
  }

  lemma HalfSpace()
    ensures Pow2(31) == 0x8000_0000
  {
    SmallPowers();
    PowSum(8, 8);
    PowSum(16, 8);
    PowSum(7, 24);
    assert Pow2(7) * 2 == Pow2(8);
  }

  /** Before round `k` the loop stands on block `k` of the runtime subnet, counted modulo
      2^32, and every block below it is used. */
  ghost predicate AtBlock(runtime: Cidr, pools: seq<Pool>, k: nat, u: u32)
    requires runtime.prefix <= 32
  {
    && k * 256 <= Size(runtime.prefix)
    && u == (runtime.network + k * 256) % TWO_32
    && forall n | Aligned(runtime, n) && n < runtime.network + k * 256 :: Used(pools, n)
  }

  lemma LoopStarts(runtime: Cidr, pools: seq<Pool>)
    requires ValidRuntime(runtime)
    ensures AtBlock(runtime, pools, 0, runtime.network)
  {
    SizeBounds(runtime.prefix);
    hide Size;
  }

  /** While the loop is inside the runtime subnet it stands on an aligned /24. */
  lemma LoopSteps(runtime: Cidr, pools: seq<Pool>, k: nat, u: u32)
    requires ValidRuntime(runtime) && runtime.prefix <= 24 && AtBlock(runtime, pools, k, u)
    requires runtime.network <= u < runtime.network + Size(runtime.prefix)
    requires runtime.prefix == 0 ==> exists n :: Aligned(runtime, n) && !Used(pools, n)
    ensures Aligned(runtime, u) && u % 256 == 0
    ensures Size(24) == 256 && u + 255 < runtime.network + Size(runtime.prefix)
    ensures forall n | Aligned(runtime, n) && !Used(pools, n) :: u <= n
    ensures (k + 1) * 256 <= Size(runtime.prefix)
    ensures Used(pools, u) ==> AtBlock(runtime, pools, k + 1, Plus(u, 256))
  {
    SizeBounds(24);
    SizeBounds(runtime.prefix);
    Inside(runtime, pools, k, u);
    hide Size, Used, ValidRuntime;
    Blocks(runtime.network, k, Size(runtime.prefix));
    AlignedMod(runtime, u);
    forall n | Aligned(runtime, n) && n < runtime.network + (k + 1) * 256 ensures n <= u {
      BlockBelow(runtime.network, k, n);
    }
  }

  lemma LoopEnds(runtime: Cidr, pools: seq<Pool>, k: nat, u: u32)
    requires ValidRuntime(runtime) && runtime.prefix <= 24 && AtBlock(runtime, pools, k, u)
    requires !(runtime.network <= u < runtime.network + Size(runtime.prefix))
    ensures forall n | Aligned(runtime, n) :: Used(pools, n)
  {
    hide Size, Used;
    assert k * 256 == Size(runtime.prefix);
  }

  lemma Blocks(r: int, k: nat, size: nat)
    requires k * 256 < size && size % 256 == 0
    ensures (k + 1) * 256 <= size
    ensures (r + k * 256 - r) % 256 == 0
  {
  }

  lemma BlockBelow(r: int, k: nat, n: int)
    requires (n - r) % 256 == 0 && n < r + (k + 1) * 256
    ensures n <= r + k * 256
  {
  }

  lemma Inside(runtime: Cidr, pools: seq<Pool>, k: nat, u: u32)
    requires ValidRuntime(runtime) && runtime.prefix <= 24 && AtBlock(runtime, pools, k, u)
    requires runtime.network <= u < runtime.network + Size(runtime.prefix)
    requires runtime.prefix == 0 ==> exists n :: Aligned(runtime, n) && !Used(pools, n)
    ensures k * 256 < Size(runtime.prefix) && u == runtime.network + k * 256
  {
    if runtime.network == 0 && Size(runtime.prefix) == TWO_32 {
      WholeSpace(runtime.prefix);
    }
    hide Size, Used;
  }

  /** With every /24 of a /0 runtime subnet taken the loop has no way out: whatever number of
      steps it has made, it stands inside the runtime subnet on a block that is taken. */
  lemma EndlessLoop(runtime: Cidr, pools: seq<Pool>, k: nat)
    requires ValidRuntime(runtime) && runtime.prefix == 0 && forall n | Aligned(runtime, n) :: Used(pools, n)
    ensures var u := (runtime.network + k * 256) % TWO_32;
            && runtime.network <= u && u + 255 < runtime.network + Size(runtime.prefix)
            && Used(pools, u)
            && Plus(u, 256) == (runtime.network + (k + 1) * 256) % TWO_32
  {
    HalfSpace();
    assert Size(0) == 2 * Pow2(31);
    hide Size, Used;
    var u := (runtime.network + k * 256) % TWO_32;
    assert runtime.network == 0 && u % 256 == 0;
    assert Aligned(runtime, u);
  }

  // ----- runs -----

  ghost predicate IsRun(runtime: Cidr, states: seq<seq<Pool>>, events: seq<Event>) {
    && |states| == |events| + 1
    && forall k | 0 <= k < |events| :: ValidPools(runtime, states[k]) ==>
        Step(runtime, states[k], events[k], states[k + 1])
  }

  /** Every state that a run from a valid state reaches is valid; and if addresses are
      only handed to containers that have none, no container ever has two. */
  lemma {:induction false} RunKeepsValid(runtime: Cidr, states: seq<seq<Pool>>, events: seq<Event>)
    requires IsRun(runtime, states, events) && ValidPools(runtime, states[0])
    ensures forall k | 0 <= k <= |events| :: ValidPools(runtime, states[k])
    ensures OneAddressEach(states[0]) &&
            (forall k | 0 <= k < |events| :: events[k].Allocated? ==> !Known(states[k], events[k].cid)) ==>
              forall k | 0 <= k <= |events| :: OneAddressEach(states[k])
    decreases |events|
  {
    if |events| > 0 {
      hide ValidPools, Step, OneAddressEach, Known;
      var n := |events| - 1;
      RunKeepsValid(runtime, states[..n + 1], events[..n]);
      forall k | 0 <= k <= n ensures ValidPools(runtime, states[k]) {
        assert states[..n + 1][k] == states[k];
      }
      StepKeepsValid(runtime, states[n], events[n], states[n + 1]);
      if OneAddressEach(states[0]) && (forall k | 0 <= k < |events| :: events[k].Allocated? ==>
          !Known(states[k], events[k].cid)) {
        forall k | 0 <= k <= n ensures OneAddressEach(states[k]) {
          assert states[..n + 1][k] == states[k];
        }
      }
    }
  }

  /** Lookup by container and lookup by address invert each other. */
  lemma LookupsInvert(runtime: Cidr, pools: seq<Pool>, i: int, a: u32, c: string, j: int, b: u32, d: string)
    requires ValidPools(runtime, pools) && OneAddressEach(pools) && Holds(pools, i, a, c) && Holds(pools, j, b, d)
    ensures a == b <==> c == d
    ensures a == b ==> i == j
  {
    if a == b {
      AddressIsUnique(runtime, pools, i, j, a);
    }
  }

  /** Subnets of two pools share no address. */
  lemma SubnetsAreDisjoint(runtime: Cidr, pools: seq<Pool>, i: int, j: int, a: int)
    requires ValidPools(runtime, pools) && 0 <= i < j < |pools|
    ensures !(pools[i].subnet.network <= a < pools[i].subnet.network + 256 &&
              pools[j].subnet.network <= a < pools[j].subnet.network + 256)
  {
    hide Size;
    assert ValidPool(runtime, pools[i]) && ValidPool(runtime, pools[j]);
    Apart(runtime.network, pools[i].subnet.network, pools[j].subnet.network, a);
  }

  lemma Apart(r: int, m: int, n: int, a: int)
    requires (m - r) % 256 == 0 && (n - r) % 256 == 0 && m != n
    ensures !(m <= a < m + 256 && n <= a < n + 256)
  {
  }

  /** With the default runtime subnet a new bridge is given the DNS proxy's own address as
      its gateway exactly when all 254 blocks below 10.166.254.0 are taken and that block
      is still free. */
  lemma GatewayMeetsDnsProxy(pools: seq<Pool>, bridge: string, network: u32, pools': seq<Pool>)
    requires ValidPools(DEFAULT_RUNTIME, pools) && Step(DEFAULT_RUNTIME, pools, BridgeStored(bridge, network), pools')
    ensures pools'[|pools|].gateway == DNS_PROXY <==>
            !Used(pools, 0x0AA6_FE00) && forall m | 0 <= m < 254 :: Used(pools, 0x0AA6_0000 + m * 256)
  {
    DefaultSize();
    hide Size, Used;
    var base := 0x0AA6_0000;
    assert Aligned(DEFAULT_RUNTIME, 0x0AA6_FE00);
    if network < 0x0AA6_FE00 {
      BlockNumber(network);
      var m := (network - base) / 256;
      assert !Used(pools, base + m * 256);
    } else if network == 0x0AA6_FE00 {
      forall m | 0 <= m < 254 ensures Used(pools, base + m * 256) {
        assert Aligned(DEFAULT_RUNTIME, base + m * 256);
      }
    }
  }

  lemma BlockNumber(network: int)
    requires Aligned(DEFAULT_RUNTIME, network) && network < 0x0AA6_FE00
    ensures 0 <= (network - 0x0AA6_0000) / 256 < 254
    ensures network == 0x0AA6_0000 + (network - 0x0AA6_0000) / 256 * 256
  {
  }
}
