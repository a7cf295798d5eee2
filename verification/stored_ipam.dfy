/** The address store's invariant, carried through the locked file. */
module StoredIpam {
  import opened Wrappers
  import opened Ipam
  import opened IpamManager
  import opened LockedStore

  /** A closure of the address store: where it does not refuse, it takes one of the steps. */
  ghost predicate IsOperation(fn: seq<Pool> -> Option<seq<Pool>>) {
    forall pools | ValidPools(DEFAULT_RUNTIME, pools) :: fn(pools).Some? ==>
      exists e :: Step(DEFAULT_RUNTIME, pools, e, fn(pools).value)
  }

  lemma OperationKeeps(fn: seq<Pool> -> Option<seq<Pool>>, good: seq<Pool> -> bool)
    requires IsOperation(fn) && forall pools :: good(pools) <==> ValidPools(DEFAULT_RUNTIME, pools)
    ensures Keeps(good, fn)
  {
    hide ValidPools, Step;
    forall pools | good(pools) && fn(pools).Some? ensures good(fn(pools).value) {
      var e :| Step(DEFAULT_RUNTIME, pools, e, fn(pools).value);
      StepKeepsValid(DEFAULT_RUNTIME, pools, e, fn(pools).value);
    }
  }

  /** Any number of processes may allocate, release and carve subnets at the same time, die
      in the middle or lose power: the stored pools stay valid, so no address is ever
      handed out twice and no two subnets overlap. */
  lemma StoredPoolsAreValid(n: nat, states: seq<System<seq<Pool>>>, actions: seq<Action<seq<Pool>>>, k: nat)
    requires LockedStore.IsRun(DEFAULT_POOLS, None, states, actions) && states[0] == Quiet(None, n) && k <= |actions|
    requires forall k | 0 <= k < |actions| && actions[k].Acquire? &&
            actions[k].section.Update? :: IsOperation(actions[k].section.fn)
    ensures Found(DEFAULT_POOLS, states[k].file).Some? &&
            ValidPools(DEFAULT_RUNTIME, Found(DEFAULT_POOLS, states[k].file).value)
  {
    ghost var good: seq<Pool> -> bool := pools => ValidPools(DEFAULT_RUNTIME, pools);
    DefaultIsValid();
    hide ValidPools, Step, IsOperation, Keeps, Next, Enabled;
    forall j | 0 <= j < |actions| && actions[j].Acquire? &&
        actions[j].section.Update? ensures Keeps(good, actions[j].section.fn) {
      OperationKeeps(actions[j].section.fn, good);
    }
    FileKeeps(good, DEFAULT_POOLS, None, n, states, actions, k);
  }
}
