/**
 The network-policy store: three policy lists and the pending north-south mode in one
 file, the copy of it that the last commit left behind, and the way back to that copy.
 */
module PolicyStore {
  import opened Wrappers
  import opened PacketFilter

  datatype Status = BeforeCommit | Applied | Unresolved | RemoveNextCommit

  datatype HostInfo = HostInfo(containerName: string, address: string)

  datatype Policy = Policy(
    id: string, status: Status, reason: string,
    source: HostInfo, destination: HostInfo,
    protocol: string, destPort: int, comment: string)

  /** The modes the store can hold: one in force, or one that the next commit puts in force. */
  datatype NsMode = Observe | Enforce | ObserveNextCommit | EnforceNextCommit

  datatype NetworkPolicy = NetworkPolicy(
    nsMode: NsMode, ewLogging: bool, nsLogging: bool,
    eastWest: seq<Policy>, observe: seq<Policy>, enforce: seq<Policy>)

  const DEFAULT_POLICY := NetworkPolicy(Observe, true, true, [], [], [])

  predicate IsPolicyChain(chain: Chain) {
    chain.EastWest? || chain.NsObserve? || chain.NsEnforce?
  }

  function ListOf(np: NetworkPolicy, chain: Chain): seq<Policy>
    requires IsPolicyChain(chain)
  {
    match chain
    case EastWest => np.eastWest
    case NsObserve => np.observe
    case NsEnforce => np.enforce
  }

  function WithList(np: NetworkPolicy, chain: Chain, ps: seq<Policy>): NetworkPolicy
    requires IsPolicyChain(chain)
  {
    match chain
    case EastWest => np.(eastWest := ps)
    case NsObserve => np.(observe := ps)
    case NsEnforce => np.(enforce := ps)
  }

  ghost predicate HasId(ps: seq<Policy>, id: string) {
    exists p :: p in ps && p.id == id
  }

  ghost predicate DistinctIds(ps: seq<Policy>) {
    forall i, j :: 0 <= i < j < |ps| ==> ps[i].id != ps[j].id
  }

  /** Ids are issued once, over all three lists. */
  ghost predicate UniqueIds(np: NetworkPolicy) {
    && DistinctIds(np.eastWest) && DistinctIds(np.observe) && DistinctIds(np.enforce)
    && DisjointIds(np.eastWest, np.observe)
    && DisjointIds(np.eastWest, np.enforce)
    && DisjointIds(np.observe, np.enforce)
  }

  ghost predicate DisjointIds(ps: seq<Policy>, qs: seq<Policy>) {
    forall p, q :: p in ps && q in qs ==> p.id != q.id
  }

  // ----- what the closures do to the loaded value -----

  ghost function Added(np: NetworkPolicy, chain: Chain, p: Policy): Option<NetworkPolicy> {
    if IsPolicyChain(chain) then Some(WithList(np, chain, ListOf(np, chain) + [p])) else None
  }

  /** The chain whose list is searched first among those that hold the id. */
  ghost function ChainOf(np: NetworkPolicy, id: string): Option<Chain> {
    if HasId(np.eastWest, id) then Some(EastWest)
    else if HasId(np.observe, id) then Some(NsObserve)
    else if HasId(np.enforce, id) then Some(NsEnforce)
    else None
  }

  ghost function Removed(np: NetworkPolicy, id: string): Option<NetworkPolicy> {
    match ChainOf(np, id)
    case Some(chain) =>
      if IsPolicyChain(chain) then Some(WithList(np, chain, Without(ListOf(np, chain), id))) else None
    case None => None
  }

  ghost function Restated(np: NetworkPolicy, chain: Chain, id: string, status: Status,
      reason: string): Option<NetworkPolicy> {
    if IsPolicyChain(chain) && HasId(ListOf(np, chain), id)
    then Some(WithList(np, chain, Restate(ListOf(np, chain), id, status, reason)))
    else None
  }

  /** The list without its first policy of that id. */
  function Without(ps: seq<Policy>, id: string): seq<Policy> {
    if ps == [] then [] else if ps[0].id == id then ps[1..] else [ps[0]] + Without(ps[1..], id)
  }

  /** The list with status and reason of its first policy of that id replaced. */
  function Restate(ps: seq<Policy>, id: string, status: Status, reason: string): seq<Policy> {
    if ps == [] then []
    else if ps[0].id == id then [ps[0].(status := status, reason := reason)] + ps[1..]
    else [ps[0]] + Restate(ps[1..], id, status, reason)
  }

  lemma {:induction false} WithoutAt(ps: seq<Policy>, i: nat)
    requires i < |ps|
    requires forall j | 0 <= j < i :: ps[j].id != ps[i].id
    ensures Without(ps, ps[i].id) == ps[..i] + ps[i + 1..]
  {
    if i > 0 {
      WithoutAt(ps[1..], i - 1);
      assert ps[0].id != ps[i].id;
      assert ps[..i] + ps[i + 1..] == [ps[0]] + (ps[1..][..i - 1] + ps[1..][i..]);
    }
  }

  lemma {:induction false} RestateAt(ps: seq<Policy>, i: nat, status: Status, reason: string)
    requires i < |ps|
    requires forall j | 0 <= j < i :: ps[j].id != ps[i].id
    ensures Restate(ps, ps[i].id, status, reason) == ps[i := ps[i].(status := status, reason := reason)]
  {
    if i > 0 {
      RestateAt(ps[1..], i - 1, status, reason);
      assert ps[0].id != ps[i].id;
      assert ps[i := ps[i].(status := status, reason := reason)] ==
             [ps[0]] + ps[1..][i - 1 := ps[i].(status := status, reason := reason)];
    }
  }

  lemma RemovedAt(np: NetworkPolicy, chain: Chain, before: seq<Policy>, p: Policy, rest: seq<Policy>)
    requires IsPolicyChain(chain) && !HasId(before, p.id)
    requires ChainOf(WithList(np, chain, before + [p] + rest), p.id) == Some(chain)
    ensures Removed(WithList(np, chain, before + [p] + rest), p.id) == Some(WithList(np, chain, before + rest))
  {
    var list := before + [p] + rest;
    assert forall j | 0 <= j < |before| :: list[j] == before[j] && before[j] in before;
    WithoutAt(list, |before|);
    assert list[..|before|] + list[|before| + 1..] == before + rest;
  }

  lemma RestatedAt(np: NetworkPolicy, chain: Chain, before: seq<Policy>, p: Policy, rest: seq<Policy>, status: Status,
      reason: string)
    requires IsPolicyChain(chain) && !HasId(before, p.id)
    ensures Restated(WithList(np, chain, before + [p] + rest), chain, p.id, status, reason) ==
            Some(WithList(np, chain, before + [p.(status := status, reason := reason)] + rest))
  {
    var list := before + [p] + rest;
    assert forall j | 0 <= j < |before| :: list[j] == before[j] && before[j] in before;
    RestateAt(list, |before|, status, reason);
    assert list[|before|] in list;
    assert list[|before| := p.(status := status, reason := reason)] ==
        before + [p.(status := status, reason := reason)] + rest;
  }

  // ----- the files -----

  /** The policy file, the copy of the last commit (`.running`) and the file a revert
      sets aside (`.org`). */
  class NpmStore {
    var path: Option<NetworkPolicy>
    var running: Option<NetworkPolicy>
    var org: Option<NetworkPolicy>

    constructor ()
      ensures path == running == org == None
    {
      path, running, org := None, None, None;
    }

    /** What a section under the lock finds: the file, or the defaults when there is none. */
    function Loaded(): NetworkPolicy
      reads this
    {
      match path case None => DEFAULT_POLICY case Some(np) => np
    }

    method AddPolicy(chain: Chain, policy: Policy) returns (ok: bool)
      modifies this`path
      ensures ok <==> Added(old(Loaded()), chain, policy).Some?
      ensures path == if ok then Added(old(Loaded()), chain, policy) else old(path)
    {
      var np := Loaded();
      match chain {
        case EastWest => path := Some(np.(eastWest := np.eastWest + [policy]));
        case NsObserve => path := Some(np.(observe := np.observe + [policy]));
        case NsEnforce => path := Some(np.(enforce := np.enforce + [policy]));
        case _ => return false;
      }
      return true;
    }

    /** The place of the first policy of that id, or the length of the list. */
    static method Find(ps: seq<Policy>, id: string) returns (i: nat)
      ensures i <= |ps|
      ensures i < |ps| ==> ps[i].id == id && Without(ps, id) == ps[..i] + ps[i + 1..]
      ensures i < |ps| ==> forall s, r :: Restate(ps, id, s, r) == ps[i := ps[i].(status := s, reason := r)]
      ensures i < |ps| <==> HasId(ps, id)
    {
      i := 0;
      while i < |ps| && ps[i].id != id
        invariant 0 <= i <= |ps|
        invariant forall j | 0 <= j < i :: ps[j].id != id
      {
        i := i + 1;
      }
      if i < |ps| {
        WithoutAt(ps, i);
        forall s, r {
          RestateAt(ps, i, s, r);
        }
      }
    }

    method GetPolicyChain(id: string) returns (chain: Option<Chain>)
      ensures chain == ChainOf(Loaded(), id)
    {
      var np := Loaded();
      var i := Find(np.eastWest, id);
      if i < |np.eastWest| {
        return Some(EastWest);
      }
      i := Find(np.observe, id);
      if i < |np.observe| {
        return Some(NsObserve);
      }
      i := Find(np.enforce, id);
      if i < |np.enforce| {
        return Some(NsEnforce);
      }
      return None;
    }

    method RemovePolicy(id: string) returns (ok: bool)
      modifies this`path
      ensures ok <==> Removed(old(Loaded()), id).Some?
      ensures path == if ok then Removed(old(Loaded()), id) else old(path)
    {
      var np := Loaded();
      var i := Find(np.eastWest, id);
      if i < |np.eastWest| {
        path := Some(np.(eastWest := np.eastWest[..i] + np.eastWest[i + 1..]));
        return true;
      }
      i := Find(np.observe, id);
      if i < |np.observe| {
        path := Some(np.(observe := np.observe[..i] + np.observe[i + 1..]));
        return true;
      }
      i := Find(np.enforce, id);
      if i < |np.enforce| {
        path := Some(np.(enforce := np.enforce[..i] + np.enforce[i + 1..]));
        return true;
      }
      return false;
    }

    method UpdateStatus(chain: Chain, id: string, status: Status, reason: string) returns (ok: bool)
      modifies this`path
      ensures ok <==> Restated(old(Loaded()), chain, id, status, reason).Some?
      ensures path == if ok then Restated(old(Loaded()), chain, id, status, reason) else old(path)
    {
      var np := Loaded();
      match chain {
        case EastWest =>
          var i := Find(np.eastWest, id);
          if i < |np.eastWest| {
            path := Some(np.(eastWest := np.eastWest[i := np.eastWest[i].(status := status, reason := reason)]));
            return true;
          }
        case NsObserve =>
          var i := Find(np.observe, id);
          if i < |np.observe| {
            path := Some(np.(observe := np.observe[i := np.observe[i].(status := status, reason := reason)]));
            return true;
          }
        case NsEnforce =>
          var i := Find(np.enforce, id);
          if i < |np.enforce| {
            path := Some(np.(enforce := np.enforce[i := np.enforce[i].(status := status, reason := reason)]));
            return true;
          }
        case _ =>
      }
      return false;
    }

    method ChangeNSMode(mode: NsMode)
      modifies this`path
      ensures path == Some(old(Loaded()).(nsMode := mode))
    {
      path := Some(Loaded().(nsMode := mode));
    }

    /** Copies the file to `.running`; there is nothing to copy before the first write. */
    method Backup() returns (ok: bool)
      modifies this`running
      ensures ok <==> path.Some?
      ensures running == if ok then path else old(running)
    {
      if path.None? {
        return false;
      }
      running := path;
      return true;
    }

    /** Puts the copy of the last commit back. Each step is its own rename, copy or remove,
        so a missing copy is noticed only after the file has been moved aside. */
    method Revert() returns (ok: bool)
      modifies this
      ensures ok <==> old(path).Some? && old(running).Some?
      ensures ok ==> path == running == old(running) && org == None
      ensures old(path).None? ==> path == None && running == old(running) && org == old(org)
      ensures old(path).Some? && old(running).None? ==> path == None && running == None && org == old(path)
    {
      // 1. rename original file
      if path.None? {
        return false;
      }
      org, path := path, None;
      // 2. rename .running file
      if running.None? {
        return false;
      }
      path, running := running, None;
      // 3. backup file
      ok := Backup();
      if !ok {
        return false;
      }
      // 4. remove .org file
      org := None;
      return true;
    }
  }
}
