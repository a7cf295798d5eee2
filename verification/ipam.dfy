/**
 The address store: pools of IPv4 addresses, one per bridge, carved out of the runtime
 subnet. The pools are one value that every operation reads and replaces under the lock.
 */
module Ipam {
  import opened Wrappers
  import opened IPv4

  datatype ForwardInfo = ForwardInfo(hostPort: int, containerPort: int, protocol: string)

  datatype Allocation = Allocation(containerId: string, iface: string, forwards: seq<ForwardInfo>)

  datatype Cidr = Cidr(network: u32, prefix: nat)

  datatype Pool = Pool(iface: string, subnet: Cidr, gateway: u32, allocations: map<u32, Allocation>)

  // ----- finding a free address -----

  const PROBES := 0x100_0000

  /** Neither network, gateway nor broadcast address of the block, and not handed out. */
  predicate Free(network: u32, prefix: nat, gateway: u32, alloc: map<u32, Allocation>, a: int)
    requires prefix <= 32
  {
    network < a < network + Size(prefix) - 1 && a != gateway && a !in alloc
  }

  /** First fit. It probes 2^24 candidates in ascending order and starts over at the end of
      the block; one address blocks have no candidate of their own. */
  method FindFreeIpv4(network: Ip, prefix: nat, gateway: Ip, alloc: map<u32, Allocation>) returns (r: Option<Ip>)
    requires prefix <= 32 && IsNetwork(network, prefix)
    ensures prefix <= 31 && r.Some? ==>
              && Free(U32(network), prefix, U32(gateway), alloc, U32(r.value))
              && forall a | Free(U32(network), prefix, U32(gateway), alloc, a) :: U32(r.value) <= a
    ensures prefix <= 31 ==>
              (r.None? <==> forall a | Free(U32(network), prefix, U32(gateway), alloc, a) :: U32(network) + PROBES < a)
    ensures 8 <= prefix <= 31 ==> (r.None? <==> forall a :: !Free(U32(network), prefix, U32(gateway), alloc, a))
    ensures prefix == 32 ==>
              var next := (U32(network) + 1) % TWO_32;
              if next == U32(gateway) || next in alloc then r.None? else r.Some? && U32(r.value) == next
  {
    hide U32, Contains, Size, IsNetwork, At, Scanned, Free;
    ghost var base, size := U32(network), Size(prefix);
    ContainsMeaning(network, prefix, network);
    SizeBounds(prefix);
    var start := IncIP(network);
    var bcast := Broadcast(network, prefix);
    var cursor := start;
    if prefix <= 31 {
      ProbeEnds(base, prefix, U32(gateway), alloc);
    }
    for i := 0 to PROBES
      invariant prefix <= 31 ==> At(base, size, i, U32(cursor)) && Scanned(base, prefix, U32(gateway), alloc, i)
      invariant prefix == 32 ==> U32(cursor) == U32(start) || U32(cursor) == (base + 2) % TWO_32
      invariant prefix == 32 && i > 0 ==> U32(start) == U32(gateway) || U32(start) in alloc
    {
      ContainsMeaning(network, prefix, cursor);
      if prefix <= 31 {
        Probe(base, prefix, U32(gateway), alloc, i, U32(cursor));
      }
      if !Contains(network, prefix, cursor) {
        cursor := start;
      }
      // reserve: network, gateway, broadcast
      if U32(cursor) == U32(network) || U32(cursor) == U32(gateway) || U32(cursor) == U32(bcast) {
        cursor := IncIP(cursor);
        continue;
      }
      if U32(cursor) !in alloc {
        return Some(cursor);
      }
      cursor := IncIP(cursor);
    }
    return None;
  }

  /** Where the cursor stands before probe `i`: it walks once through the block from the
      second address on, and is anywhere in the block or just past it after that. */
  ghost predicate At(base: int, size: int, i: int, c: u32) {
    if i <= size - 1 then c == (base + 1 + i) % TWO_32
    else c == (base + size) % TWO_32 || base < c < base + size
  }

  ghost predicate Scanned(base: u32, prefix: nat, gateway: u32, alloc: map<u32, Allocation>, i: int)
    requires prefix <= 32
  {
    forall a | base < a <= base + i && a < base + Size(prefix) :: !Free(base, prefix, gateway, alloc, a)
  }

  /** The addresses that are passed over: network, gateway, broadcast and those in use. */
  predicate Skipped(base: u32, prefix: nat, gateway: u32, alloc: map<u32, Allocation>, c: int)
    requires prefix <= 32
  {
    c == base || c == gateway || c == base + Size(prefix) - 1 || c in alloc
  }

  lemma Probe(base: u32, prefix: nat, gateway: u32, alloc: map<u32, Allocation>, i: nat, c0: u32)
    requires prefix <= 31 && base + Size(prefix) <= TWO_32
    requires At(base, Size(prefix), i, c0) && Scanned(base, prefix, gateway, alloc, i)
    ensures base + 1 < TWO_32
    ensures var c := if base <= c0 < base + Size(prefix) then c0 else base + 1;
            && At(base, Size(prefix), i + 1, (c + 1) % TWO_32)
            && (Skipped(base, prefix, gateway, alloc, c) ==> Scanned(base, prefix, gateway, alloc, i + 1))
            && (!Skipped(base, prefix, gateway, alloc, c) ==>
                  && c <= base + i + 1 && Free(base, prefix, gateway, alloc, c)
                  && forall a | Free(base, prefix, gateway, alloc, a) :: c <= a)
  {
    SizeBounds(prefix);
    hide Size;
    ProbeMoves(base, Size(prefix), i, c0);
    hide At;
  }

  lemma ProbeMoves(base: u32, size: nat, i: nat, c0: u32)
    requires size >= 2 && base + size <= TWO_32 && At(base, size, i, c0)
    ensures var c := if base <= c0 < base + size then c0 else base + 1;
            && At(base, size, i + 1, (c + 1) % TWO_32)
            && base <= c < base + size
            && (if i < size - 1 then c == base + 1 + i else c <= base + i + 1)
  {
  }

  lemma ProbeEnds(base: u32, prefix: nat, gateway: u32, alloc: map<u32, Allocation>)
    requires prefix <= 31 && base + Size(prefix) <= TWO_32
    ensures At(base, Size(prefix), 0, (base + 1) % TWO_32) && Scanned(base, prefix, gateway, alloc, 0)
    ensures Scanned(base, prefix, gateway, alloc, PROBES) ==>
              forall a | Free(base, prefix, gateway, alloc, a) :: base + PROBES < a
    ensures prefix >= 8 && Scanned(base, prefix, gateway, alloc, PROBES) ==>
              forall a :: !Free(base, prefix, gateway, alloc, a)
  {
    SizeBounds(prefix);
    hide Size;
  }

  lemma SizeBounds(prefix: nat)
    requires prefix <= 32
    ensures Size(32) == 1 && (prefix <= 31 ==> Size(prefix) >= 2)
    ensures prefix >= 8 ==> Size(prefix) <= PROBES
    ensures prefix <= 24 ==> Size(prefix) >= 256 && Size(prefix) % 256 == 0
    ensures prefix == 24 ==> Size(prefix) == 256
  {
    SmallPowers();
    assert Pow2(0) == 1;
    if prefix >= 8 {
      PowSum(8, 8);
      PowSum(16, 8);
      PowGrows(32 - prefix, 24);
    }
    if prefix <= 24 {
      PowSum(24 - prefix, 8);
      TimesStep(Pow2(24 - prefix), 256);
    }
  }

  lemma TimesStep(q: nat, m: nat)
    requires q > 0 && m > 0
    ensures q * m >= m && (q * m) % m == 0
  {
    MulAtLeast(q, m);
    DivModUnique(q * m, m, q, 0);
  }

  lemma {:induction false} PowGrows(a: nat, b: nat)
    requires a <= b
    ensures Pow2(a) <= Pow2(b)
  {
    if a < b {
      PowGrows(a, b - 1);
    }
  }

  // ----- pools -----

  /** Bridges ask for a /24 each; the gateway is its address 254. */
  const GATEWAY_HOST := 254

  function NewPool(bridge: string, network: u32): Pool
    requires network + GATEWAY_HOST < TWO_32
  {
    Pool(bridge, Cidr(network, 24), network + GATEWAY_HOST, map[])
  }

  predicate HasBridge(pools: seq<Pool>, bridge: string) {
    exists i :: 0 <= i < |pools| && pools[i].iface == bridge
  }

  /** The place of the bridge's pool, or the number of pools. */
  function PoolOf(pools: seq<Pool>, bridge: string): (i: nat)
    ensures i <= |pools|
    ensures i < |pools| ==> pools[i].iface == bridge
    ensures forall j | 0 <= j < i :: pools[j].iface != bridge
  {
    if pools == [] || pools[0].iface == bridge then 0 else 1 + PoolOf(pools[1..], bridge)
  }

  function WithoutBridge(pools: seq<Pool>, bridge: string): seq<Pool> {
    if pools == [] then []
    else WithoutBridge(pools[..|pools| - 1], bridge) +
         (if pools[|pools| - 1].iface == bridge then [] else [pools[|pools| - 1]])
  }

  ghost predicate Holds(pools: seq<Pool>, i: int, a: u32, cid: string) {
    0 <= i < |pools| && a in pools[i].allocations && pools[i].allocations[a].containerId == cid
  }

  ghost predicate Known(pools: seq<Pool>, cid: string) {
    exists i, a :: Holds(pools, i, a, cid)
  }

  ghost predicate PoolFree(pool: Pool, a: int)
    requires pool.subnet.prefix <= 32
  {
    Free(pool.subnet.network, pool.subnet.prefix, pool.gateway, pool.allocations, a)
  }

  /** The aligned /24 blocks of the runtime subnet. */
  ghost predicate Aligned(runtime: Cidr, network: int)
    requires runtime.prefix <= 32
  {
    runtime.network <= network && network + 256 <= runtime.network + Size(runtime.prefix) &&
        (network - runtime.network) % 256 == 0
  }

  ghost predicate Used(pools: seq<Pool>, network: int) {
    exists i :: 0 <= i < |pools| && pools[i].subnet.network == network && pools[i].subnet.prefix == 24
  }

  // ----- what every run keeps -----

  ghost predicate ValidRuntime(runtime: Cidr) {
    runtime.prefix <= 32 && runtime.network % Size(runtime.prefix) == 0 &&
        runtime.network + Size(runtime.prefix) <= TWO_32
  }

  ghost predicate ValidPool(runtime: Cidr, pool: Pool)
    requires runtime.prefix <= 32
  {
    && pool.subnet.prefix == 24
    && Aligned(runtime, pool.subnet.network)
    && pool.gateway == pool.subnet.network + GATEWAY_HOST
    && forall a | a in pool.allocations ::
         && pool.subnet.network < a < pool.subnet.network + 255 && a != pool.gateway
         && pool.allocations[a].iface == "rd_" + pool.allocations[a].containerId
  }

  /** Bridge names are unique, subnets are pairwise disjoint /24 blocks of the runtime
      subnet, every address is a host of its own pool. */
  ghost predicate ValidPools(runtime: Cidr, pools: seq<Pool>) {
    && ValidRuntime(runtime)
    && (forall i | 0 <= i < |pools| :: ValidPool(runtime, pools[i]))
    && (forall i, j | 0 <= i < j < |pools| :: pools[i].iface != pools[j].iface)
    && (forall i, j | 0 <= i < j < |pools| :: pools[i].subnet.network != pools[j].subnet.network)
  }

  /** No container has two addresses. */
  ghost predicate OneAddressEach(pools: seq<Pool>) {
    forall i, a, j, b, cid | Holds(pools, i, a, cid) && Holds(pools, j, b, cid) :: i == j && a == b
  }

  // ----- steps -----

  datatype Event =
    | Allocated(cid: string, bridge: string, addr: u32)
    | Released(cid: string)
    | BridgeStored(bridge: string, network: u32)
    | BridgeRemoved(bridge: string)
    | ForwardSet(cid: string, forward: ForwardInfo)
    | Refused

  function Assign(pools: seq<Pool>, i: nat, a: u32, alloc: Allocation): seq<Pool>
    requires i < |pools|
  {
    pools[i := pools[i].(allocations := pools[i].allocations[a := alloc])]
  }

  function Unassign(pools: seq<Pool>, i: nat, a: u32): seq<Pool>
    requires i < |pools|
  {
    pools[i := pools[i].(allocations := pools[i].allocations - {a})]
  }

  ghost predicate Step(runtime: Cidr, pools: seq<Pool>, e: Event, pools': seq<Pool>)
    requires ValidPools(runtime, pools)
  {
    match e
    case Allocated(cid, bridge, addr) =>
      var i := PoolOf(pools, bridge);
      && i < |pools|
      && PoolFree(pools[i], addr) && (forall a | PoolFree(pools[i], a) :: addr <= a)
      && pools' == Assign(pools, i, addr, Allocation(cid, "rd_" + cid, []))
    case Released(cid) =>
      if Known(pools, cid) then exists i, a :: Holds(pools, i, a, cid) && pools' == Unassign(pools, i, a)
      else pools' == pools
    case BridgeStored(bridge, network) =>
      && !HasBridge(pools, bridge)
      && Aligned(runtime, network) && !Used(pools, network)
      && (forall n | Aligned(runtime, n) && !Used(pools, n) :: network <= n)
      && pools' == pools + [NewPool(bridge, network)]
    case BridgeRemoved(bridge) =>
      HasBridge(pools, bridge) && pools' == WithoutBridge(pools, bridge)
    case ForwardSet(cid, forward) =>
      exists i, a :: Holds(pools, i, a, cid) &&
        pools' == Assign(pools, i, a,
            pools[i].allocations[a].(forwards := pools[i].allocations[a].forwards + [forward]))
    case Refused => pools' == pools
  }

  lemma AssignedIsValid(runtime: Cidr, pools: seq<Pool>, i: nat, a: u32, cid: string)
    requires ValidPools(runtime, pools) && i < |pools| && PoolFree(pools[i], a)
    ensures ValidPools(runtime, Assign(pools, i, a, Allocation(cid, "rd_" + cid, [])))
    ensures OneAddressEach(pools) && !Known(pools, cid) ==>
            OneAddressEach(Assign(pools, i, a, Allocation(cid, "rd_" + cid, [])))
  {
    var pools' := Assign(pools, i, a, Allocation(cid, "rd_" + cid, []));
    SizeBounds(24);
    hide Size;
    forall k, b, c | Holds(pools', k, b, c) ensures if k == i && b == a then c == cid else Holds(pools, k, b, c) {
      if !(k == i && b == a) {
        assert Holds(pools, k, b, c);
      }
    }
  }

  lemma ChangedIsValid(runtime: Cidr, pools: seq<Pool>, i: nat, a: u32, forwards: seq<ForwardInfo>)
    requires ValidPools(runtime, pools) && i < |pools| && a in pools[i].allocations
    ensures ValidPools(runtime, Assign(pools, i, a, pools[i].allocations[a].(forwards := forwards)))
    ensures ValidPools(runtime, Unassign(pools, i, a))
    ensures OneAddressEach(pools) ==> OneAddressEach(Assign(pools, i, a,
            pools[i].allocations[a].(forwards := forwards)))
    ensures OneAddressEach(pools) ==> OneAddressEach(Unassign(pools, i, a))
  {
    hide Size;
    var p1, p2 := Assign(pools, i, a, pools[i].allocations[a].(forwards := forwards)), Unassign(pools, i, a);
    forall k, b, c | Holds(p1, k, b, c) || Holds(p2, k, b, c) ensures Holds(pools, k, b, c) {
    }
  }

  lemma StoredIsValid(runtime: Cidr, pools: seq<Pool>, bridge: string, network: u32)
    requires ValidPools(runtime, pools) && !HasBridge(pools, bridge) && Aligned(runtime, network) &&
            !Used(pools, network)
    ensures ValidPools(runtime, pools + [NewPool(bridge, network)])
    ensures OneAddressEach(pools) ==> OneAddressEach(pools + [NewPool(bridge, network)])
  {
    hide Size;
    var pools' := pools + [NewPool(bridge, network)];
    forall k, b, c | Holds(pools', k, b, c) ensures Holds(pools, k, b, c) {
    }
  }

  lemma {:induction false} WithoutBridgeAt(pools: seq<Pool>, bridge: string, i: nat)
    requires i < |pools| && pools[i].iface == bridge
    requires forall j | 0 <= j < |pools| && j != i :: pools[j].iface != bridge
    ensures WithoutBridge(pools, bridge) == pools[..i] + pools[i + 1..]
  {
    var n := |pools| - 1;
    if i == n {
      WithoutBridgeNone(pools[..n], bridge);
      assert pools[i + 1..] == [];
    } else {
      WithoutBridgeAt(pools[..n], bridge, i);
      assert pools[..n][..i] + pools[..n][i + 1..] + [pools[n]] == pools[..i] + pools[i + 1..];
    }
  }

  lemma {:induction false} WithoutBridgeNone(pools: seq<Pool>, bridge: string)
    requires forall j | 0 <= j < |pools| :: pools[j].iface != bridge
    ensures WithoutBridge(pools, bridge) == pools
  {
    if pools != [] {
      WithoutBridgeNone(pools[..|pools| - 1], bridge);
    }
  }

  lemma RemovedIsValid(runtime: Cidr, pools: seq<Pool>, bridge: string)
    requires ValidPools(runtime, pools) && HasBridge(pools, bridge)
    ensures ValidPools(runtime, WithoutBridge(pools, bridge))
    ensures OneAddressEach(pools) ==> OneAddressEach(WithoutBridge(pools, bridge))
  {
    hide Size, WithoutBridge;
    var i :| 0 <= i < |pools| && pools[i].iface == bridge;
    WithoutBridgeAt(pools, bridge, i);
    var ps := pools[..i] + pools[i + 1..];
    assert forall k | 0 <= k < |ps| :: ps[k] == pools[if k < i then k else k + 1];
    forall k, b, c | Holds(ps, k, b, c) ensures Holds(pools, if k < i then k else k + 1, b, c) {
    }
  }

  /** Every step keeps the pools valid; a container keeps having at most one address as
      long as addresses are handed to containers that have none. */
  lemma StepKeepsValid(runtime: Cidr, pools: seq<Pool>, e: Event, pools': seq<Pool>)
    requires ValidPools(runtime, pools) && Step(runtime, pools, e, pools')
    ensures ValidPools(runtime, pools')
    ensures OneAddressEach(pools) && (e.Allocated? ==> !Known(pools, e.cid)) ==> OneAddressEach(pools')
  {
    match e
    case Allocated(cid, bridge, addr) =>
      AssignedIsValid(runtime, pools, PoolOf(pools, bridge), addr, cid);
    case Released(cid) =>
      if Known(pools, cid) {
        var i, a :| Holds(pools, i, a, cid) && pools' == Unassign(pools, i, a);
        ChangedIsValid(runtime, pools, i, a, []);
      }
    case BridgeStored(bridge, network) =>
      StoredIsValid(runtime, pools, bridge, network);
    case BridgeRemoved(bridge) =>
      RemovedIsValid(runtime, pools, bridge);
    case ForwardSet(cid, forward) =>
      var i, a :| Holds(pools, i, a, cid) &&
        pools' == Assign(pools, i, a,
            pools[i].allocations[a].(forwards := pools[i].allocations[a].forwards + [forward]));
      ChangedIsValid(runtime, pools, i, a, pools[i].allocations[a].forwards + [forward]);
    case Refused =>
  }
}
