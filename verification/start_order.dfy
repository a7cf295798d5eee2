/**
 The start order of a bottle: Kahn's algorithm over the services' dependency lists, with
 the maps walked in whatever order they come.
 */
module StartOrder {
  import opened Wrappers

  /** Each service with the list of services it depends on; a name may be listed twice. */
  type Services = map<string, seq<string>>

  datatype Outcome = Order(order: seq<string>) | UnknownDependency(service: string, dep: string) | CycleDetected

  // ----- what an order must be -----

  predicate AllKnown(services: Services) {
    forall s, d | s in services && d in services[s] :: d in services
  }

  /** `c` goes round in a circle: each service on it depends on the next. */
  predicate Cycle(services: Services, c: seq<string>) {
    && c != []
    && (forall i | 0 <= i < |c| :: c[i] in services)
    && (forall i | 0 <= i < |c| - 1 :: c[i + 1] in services[c[i]])
    && c[0] in services[c[|c| - 1]]
  }

  ghost predicate Cyclic(services: Services) {
    exists c :: Cycle(services, c)
  }

  predicate Distinct(order: seq<string>) {
    forall i, j | 0 <= i < j < |order| :: order[i] != order[j]
  }

  /** Every dependency comes before its dependents. */
  predicate DepsFirst(services: Services, order: seq<string>) {
    forall i | 0 <= i < |order| :: order[i] in services && forall d | d in services[order[i]] :: d in order[..i]
  }

  /** A start order: every service once, after all its dependencies. */
  ghost predicate IsStartOrder(services: Services, order: seq<string>) {
    Distinct(order) && (forall s :: s in order <==> s in services) && DepsFirst(services, order)
  }

  // ----- counting -----

  /** How many entries of the list are not done yet. */
  function Left(deps: seq<string>, done: set<string>): nat {
    if deps == [] then 0 else Left(deps[1..], done) + (if deps[0] in done then 0 else 1)
  }

  lemma {:induction false} LeftNone(deps: seq<string>)
    ensures Left(deps, {}) == |deps|
  {
    if deps != [] {
      LeftNone(deps[1..]);
    }
  }

  lemma {:induction false} LeftZero(deps: seq<string>, done: set<string>)
    ensures Left(deps, done) == 0 <==> forall d | d in deps :: d in done
  {
    if deps != [] {
      LeftZero(deps[1..], done);
      assert deps == [deps[0]] + deps[1..];
    }
  }

  function Count(xs: seq<string>, x: string): nat {
    multiset(xs)[x]
  }

  lemma CountSnoc(xs: seq<string>, y: string, x: string)
    ensures Count(xs + [y], x) == Count(xs, x) + (if x == y then 1 else 0)
  {
  }

  lemma CountPrefix(xs: seq<string>, j: nat, x: string)
    requires j <= |xs|
    ensures Count(xs[..0], x) == 0 && Count(xs[..|xs|], x) == Count(xs, x)
    ensures Count(xs[..j], x) <= Count(xs, x)
    ensures j < |xs| ==> Count(xs[..j + 1], x) == Count(xs[..j], x) + (if xs[j] == x then 1 else 0)
  {
    assert xs == xs[..j] + xs[j..] && xs[..|xs|] == xs;
    if j < |xs| {
      assert xs[..j + 1] == xs[..j] + [xs[j]];
    }
  }

  lemma {:induction false} LeftAdd(deps: seq<string>, done: set<string>, n: string)
    requires n !in done
    ensures Left(deps, done) == Left(deps, done + {n}) + Count(deps, n)
  {
    if deps != [] {
      LeftAdd(deps[1..], done, n);
      assert deps == [deps[0]] + deps[1..];
    }
  }

  function Entries(graph: map<string, seq<string>>, d: string): seq<string> {
    if d in graph then graph[d] else []
  }

  // ----- the dependency lists turned round -----

  /** How often `s` must be entered under `d` once the services outside `rest` are done, and
      the first `j` entries of `svc` (which is no longer in `rest`). */
  function Expected(services: Services, rest: set<string>, svc: Option<string>, j: nat, s: string, d: string): nat
    requires s in services && (svc.Some? ==> svc.value in services && j <= |services[svc.value]|)
  {
    if svc == Some(s) then Count(services[s][..j], d) else if s in rest then 0 else Count(services[s], d)
  }

  ghost predicate Turned(services: Services, graph: map<string, seq<string>>, rest: set<string>, svc: Option<string>,
      j: nat)
    requires svc.Some? ==> svc.value in services && j <= |services[svc.value]|
  {
    && (forall d, s :: s in Entries(graph, d) ==> s in services)
    && (forall d, s | s in services :: Count(Entries(graph, d), s) == Expected(services, rest, svc, j, s, d))
  }

  lemma TurnedEnter(services: Services, graph: map<string, seq<string>>, rest: set<string>, svc: string)
    requires svc in rest && svc in services && Turned(services, graph, rest, None, 0)
    ensures Turned(services, graph, rest - {svc}, Some(svc), 0)
  {
    forall d {
      CountPrefix(services[svc], 0, d);
    }
    hide Count;
  }

  lemma TurnedEntry(services: Services, graph: map<string, seq<string>>, rest: set<string>, svc: string, j: nat)
    requires svc in services && j < |services[svc]| && Turned(services, graph, rest, Some(svc), j)
    ensures var dep := services[svc][j];
            Turned(services, graph[dep := Entries(graph, dep) + [svc]], rest, Some(svc), j + 1)
  {
    var dep := services[svc][j];
    var graph' := graph[dep := Entries(graph, dep) + [svc]];
    forall d, s | s in services ensures Count(Entries(graph', d), s) ==
        Expected(services, rest, Some(svc), j + 1, s, d) {
      CountPrefix(services[svc], j, d);
      CountSnoc(Entries(graph, dep), svc, s);
      assert Count(Entries(graph, d), s) == Expected(services, rest, Some(svc), j, s, d);
      hide Count;
    }
    forall d, s | s in Entries(graph', d) ensures s in services {
      assert s == svc || s in Entries(graph, d);
    }
  }

  lemma TurnedLeave(services: Services, graph: map<string, seq<string>>, rest: set<string>, svc: string)
    requires svc in services && svc !in rest && Turned(services, graph, rest, Some(svc), |services[svc]|)
    ensures Turned(services, graph, rest, None, 0)
  {
    forall d {
      CountPrefix(services[svc], 0, d);
    }
    hide Count;
  }

  /** Turns the dependency lists round and counts them. */
  method BuildGraph(services: Services) returns (unknown: Option<(string, string)>, graph: map<string, seq<string>>,
      inDegree: map<string, int>)
    ensures unknown.Some? ==>
            unknown.value.0 in services && unknown.value.1 in services[unknown.value.0] && unknown.value.1 !in services
    ensures unknown.None? <==> AllKnown(services)
    ensures unknown.None? ==> inDegree.Keys == services.Keys && forall s | s in services :: inDegree[s] == |services[s]|
    ensures unknown.None? ==> Turned(services, graph, {}, None, 0)
  {
    graph := map[];
    inDegree := map s | s in services :: 0;
    unknown := None;
    var rest := services.Keys;
    hide Turned;
    assert Turned(services, graph, rest, None, 0) by {
      NothingTurned(services);
    }
    while rest != {}
      invariant rest <= services.Keys && inDegree.Keys == services.Keys
      invariant forall s, d | s in services && s !in rest && d in services[s] :: d in services
      invariant forall s | s in services :: inDegree[s] == if s in rest then 0 else |services[s]|
      invariant Turned(services, graph, rest, None, 0)
      decreases |rest|
    {
      var svcName :| svcName in rest;
      TurnedEnter(services, graph, rest, svcName);
      rest := rest - {svcName};
      var deps := services[svcName];
      var j := 0;
      while j < |deps|
        invariant 0 <= j <= |deps| && inDegree.Keys == services.Keys
        invariant forall d | d in deps[..j] :: d in services
        invariant forall s | s in services :: inDegree[s] == if s == svcName then j else if s in rest then 0 else
                |services[s]|
        invariant Turned(services, graph, rest, Some(svcName), j)
      {
        var dep := deps[j];
        if dep !in services {
          unknown := Some((svcName, dep));
          return;
        }
        TurnedEntry(services, graph, rest, svcName, j);
        graph := graph[dep := Entries(graph, dep) + [svcName]];
        inDegree := inDegree[svcName := inDegree[svcName] + 1];
        j := j + 1;
      }
      assert deps[..j] == deps;
      TurnedLeave(services, graph, rest, svcName);
    }
  }

  lemma NothingTurned(services: Services)
    ensures Turned(services, map[], services.Keys, None, 0)
  {
  }

  // ----- Kahn's loop -----

  ghost function Done(order: seq<string>): set<string> {
    set x | x in order
  }

  /** Between two rounds: `order` and `queue` are the services whose dependencies are all in
      `order`, each once, and the counters hold what is left. */
  ghost predicate Progress(services: Services, inDegree: map<string, int>, order: seq<string>, queue: seq<string>) {
    && inDegree.Keys == services.Keys
    && Distinct(order + queue)
    && (forall s :: s in order + queue <==> s in services && inDegree[s] == 0)
    && (forall s | s in services :: inDegree[s] == Left(services[s], Done(order)))
    && DepsFirst(services, order)
  }

  /** Within the round of node `n`, after `j` of its entries. */
  ghost predicate Releasing(services: Services, entries: seq<string>, inDegree: map<string, int>, order: seq<string>,
      n: string, queue: seq<string>, j: nat)
    requires j <= |entries|
  {
    && inDegree.Keys == services.Keys
    && Distinct(order + [n] + queue)
    && (forall s :: s in order + [n] + queue <==> s in services && inDegree[s] == 0)
    && (forall s | s in services :: inDegree[s] == Left(services[s], Done(order)) - Count(entries[..j], s))
    && DepsFirst(services, order + [n])
  }

  lemma DepsFirstExtend(services: Services, order: seq<string>, n: string)
    requires DepsFirst(services, order) && n in services && forall d | d in services[n] :: d in order
    ensures DepsFirst(services, order + [n])
  {
    var o := order + [n];
    forall i | 0 <= i < |o| ensures o[i] in services && forall d | d in services[o[i]] :: d in o[..i] {
      assert o[..i] == order[..i];
    }
  }

  lemma Pop(services: Services, graph: map<string, seq<string>>, inDegree: map<string, int>, order: seq<string>,
      queue: seq<string>)
    requires Progress(services, inDegree, order, queue) && queue != []
    ensures Releasing(services, Entries(graph, queue[0]), inDegree, order, queue[0], queue[1..], 0)
  {
    var n := queue[0];
    assert order + queue == order + [n] + queue[1..];
    assert n in order + queue;
    LeftZero(services[n], Done(order));
    DepsFirstExtend(services, order, n);
    var entries := Entries(graph, n);
    assert entries[..0] == [];
    hide Left, DepsFirst;
  }

  /** One entry: its counter goes down, and the service joins the queue when it reaches 0. */
  lemma Release(services: Services, graph: map<string, seq<string>>, inDegree: map<string, int>, order: seq<string>,
      n: string, queue: seq<string>, j: nat)
    requires Turned(services, graph, {}, None, 0)
    requires j < |Entries(graph, n)| && Releasing(services, Entries(graph, n), inDegree, order, n, queue, j)
    ensures var entries := Entries(graph, n);
            var next := entries[j];
            && next in inDegree && inDegree[next] >= 1
            && Releasing(services, entries, inDegree[next := inDegree[next] - 1], order, n,
                         if inDegree[next] - 1 == 0 then queue + [next] else queue, j + 1)
  {
    var entries := Entries(graph, n);
    var next := entries[j];
    StillCounted(services, graph, inDegree, order, n, queue, j);
    forall s {
      CountPrefix(entries, j, s);
    }
    hide Left, Count, DepsFirst, Turned, Entries;
    if inDegree[next] == 1 {
      assert order + [n] + (queue + [next]) == (order + [n] + queue) + [next];
    }
  }

  lemma StillCounted(services: Services, graph: map<string, seq<string>>, inDegree: map<string, int>,
      order: seq<string>, n: string, queue: seq<string>, j: nat)
    requires Turned(services, graph, {}, None, 0)
    requires j < |Entries(graph, n)| && Releasing(services, Entries(graph, n), inDegree, order, n, queue, j)
    ensures var next := Entries(graph, n)[j]; next in services && inDegree[next] >= 1
  {
    var entries := Entries(graph, n);
    var next := entries[j];
    assert next in entries;
    CountPrefix(entries, j, next);
    CountPrefix(entries, j + 1, next);
    NotDone(order, n, queue);
    assert next in services;
    LeftAdd(services[next], Done(order), n);
    assert Count(entries, next) == Count(services[next], n);
    hide Left, Count, DepsFirst, Turned;
  }

  lemma NotDone(order: seq<string>, n: string, queue: seq<string>)
    requires Distinct(order + [n] + queue)
    ensures n !in Done(order)
  {
    var all := order + [n] + queue;
    forall i | 0 <= i < |order| ensures order[i] != n {
      assert all[i] == order[i] && all[|order|] == n;
    }
  }

  lemma Finish(services: Services, graph: map<string, seq<string>>, inDegree: map<string, int>, order: seq<string>,
      n: string, queue: seq<string>)
    requires Turned(services, graph, {}, None, 0)
    requires Releasing(services, Entries(graph, n), inDegree, order, n, queue, |Entries(graph, n)|)
    ensures Progress(services, inDegree, order + [n], queue)
  {
    var entries := Entries(graph, n);
    NotDone(order, n, queue);
    assert Done(order + [n]) == Done(order) + {n};
    forall s | s in services ensures inDegree[s] == Left(services[s], Done(order + [n])) {
      LeftAdd(services[s], Done(order), n);
      CountPrefix(entries, |entries|, s);
      assert Count(entries, s) == Count(services[s], n);
    }
    hide Left, Count, DepsFirst, Turned;
  }

  lemma {:induction false} DistinctCount(order: seq<string>)
    requires Distinct(order)
    ensures |Done(order)| == |order|
  {
    if order != [] {
      var n := |order| - 1;
      DistinctCount(order[..n]);
      assert order == order[..n] + [order[n]];
      assert order[n] !in order[..n];
      assert Done(order) == Done(order[..n]) + {order[n]};
    } else {
      assert Done(order) == {};
    }
  }

  lemma OrderCount(services: Services, order: seq<string>)
    requires Distinct(order) && forall s | s in order :: s in services
    ensures |order| <= |services|
    ensures |order| == |services| ==> forall s | s in services :: s in order
  {
    DistinctCount(order);
    var done, all := Done(order), services.Keys;
    assert all == done + (all - done);
    assert |all| == |done| + |all - done|;
    assert |services| == |all|;
  }

  // ----- cycles -----

  ghost function IndexOf(order: seq<string>, s: string): (i: nat)
    requires s in order
    ensures i < |order| && order[i] == s
  {
    var i :| 0 <= i < |order| && order[i] == s;
    i
  }

  /** With every dependency first there is no cycle. */
  lemma OrderIsAcyclic(services: Services, order: seq<string>)
    requires IsStartOrder(services, order)
    ensures !Cyclic(services)
  {
    if c :| Cycle(services, c) {
      Descend(services, order, c, |c| - 1);
      DepComesFirst(services, order, c[|c| - 1], c[0]);
      assert false;
    }
  }

  lemma DepComesFirst(services: Services, order: seq<string>, s: string, d: string)
    requires IsStartOrder(services, order) && s in services && d in services[s]
    ensures d in order && s in order && IndexOf(order, d) < IndexOf(order, s)
  {
    var i := IndexOf(order, s);
    assert d in order[..i];
    var k :| 0 <= k < i && order[k] == d;
    assert order[IndexOf(order, d)] == order[k];
  }

  lemma {:induction false} Descend(services: Services, order: seq<string>, c: seq<string>, i: nat)
    requires IsStartOrder(services, order) && Cycle(services, c) && i < |c|
    ensures c[i] in order && c[0] in order && IndexOf(order, c[i]) <= IndexOf(order, c[0])
  {
    if i > 0 {
      Descend(services, order, c, i - 1);
      DepComesFirst(services, order, c[i - 1], c[i]);
    }
  }

  /** The service waits for one of the stuck services. */
  ghost predicate Waits(services: Services, stuck: set<string>, s: string) {
    s in services && exists d :: d in services[s] && d in stuck
  }

  ghost predicate AllWait(services: Services, stuck: set<string>) {
    forall s | s in stuck :: Waits(services, stuck, s)
  }

  /** Services that all wait for one another lie on a cycle. */
  lemma StuckIsCyclic(services: Services, stuck: set<string>)
    requires AllWait(services, stuck) && stuck != {}
    ensures Cyclic(services)
  {
    var s :| s in stuck;
    hide Waits;
    var walk := Wander(services, stuck, s, |stuck|);
    var i, j := Repeats(walk, stuck);
    CutCycle(services, walk, i, j);
  }

  lemma CutCycle(services: Services, walk: seq<string>, i: nat, j: nat)
    requires i < j < |walk| && walk[i] == walk[j]
    requires forall k | 0 <= k < |walk| - 1 :: walk[k] in services && walk[k + 1] in services[walk[k]]
    ensures Cyclic(services)
  {
    var c := walk[i..j];
    assert forall k | 0 <= k < |c| :: c[k] == walk[i + k];
    assert Cycle(services, c);
  }

  lemma NextStuck(services: Services, stuck: set<string>, s: string) returns (d: string)
    requires Waits(services, stuck, s)
    ensures s in services && d in services[s] && d in stuck
  {
    d :| d in services[s] && d in stuck;
  }

  /** `n` steps along waiting services. */
  lemma {:induction false} Wander(services: Services, stuck: set<string>, s: string, n: nat) returns (walk: seq<string>)
    requires s in stuck && AllWait(services, stuck)
    ensures |walk| == n + 1
    ensures forall i | 0 <= i <= n :: walk[i] in stuck
    ensures forall i | 0 <= i < n :: walk[i] in services && walk[i + 1] in services[walk[i]]
  {
    hide Waits;
    if n == 0 {
      walk := [s];
    } else {
      var before := Wander(services, stuck, s, n - 1);
      var d := NextStuck(services, stuck, before[n - 1]);
      walk := before + [d];
    }
  }

  lemma PigeonHole(walk: seq<string>, stuck: set<string>)
    requires Distinct(walk) && forall i | 0 <= i < |walk| :: walk[i] in stuck
    ensures |walk| <= |stuck|
  {
    DistinctCount(walk);
    assert stuck == Done(walk) + (stuck - Done(walk));
    assert |stuck| == |Done(walk)| + |stuck - Done(walk)|;
  }

  lemma Repeats(walk: seq<string>, stuck: set<string>) returns (i: nat, j: nat)
    requires |walk| > |stuck| && forall i | 0 <= i < |walk| :: walk[i] in stuck
    ensures i < j < |walk| && walk[i] == walk[j]
  {
    if Distinct(walk) {
      PigeonHole(walk, stuck);
    }
    i, j :| 0 <= i < j < |walk| && walk[i] == walk[j];
  }

  lemma SomethingLeft(services: Services, order: seq<string>)
    requires Distinct(order) && (forall s | s in order :: s in services) && |order| != |services|
    ensures |order| <= |services|
    ensures exists s :: s in services && s !in order
  {
    DistinctCount(order);
    var rest := services.Keys - Done(order);
    assert services.Keys == Done(order) + rest;
    assert |services.Keys| == |Done(order)| + |rest|;
    assert |rest| == 0 ==> |Done(order)| == |services|;
    var s :| s in rest;
  }

  /** A service outside the order still counts a dependency outside the order. */
  lemma StillWaits(services: Services, inDegree: map<string, int>, order: seq<string>, stuck: set<string>, s: string)
    requires AllKnown(services) && Progress(services, inDegree, order, [])
    requires s in stuck && stuck == set x | x in services && x !in order
    ensures Waits(services, stuck, s)
  {
    assert order + [] == order;
    LeftZero(services[s], Done(order));
    assert inDegree[s] == Left(services[s], Done(order)) && inDegree[s] != 0;
    hide Left, DepsFirst, Distinct;
    var d :| d in services[s] && d !in Done(order);
    assert d in stuck;
  }

  lemma OrderParts(services: Services, inDegree: map<string, int>, order: seq<string>)
    requires Progress(services, inDegree, order, [])
    ensures Distinct(order) && forall s | s in order :: s in services
  {
    assert order + [] == order;
    hide DepsFirst, Left;
  }

  /** What is left over when the queue runs dry waits for one another. */
  lemma LeftOverIsCyclic(services: Services, inDegree: map<string, int>, order: seq<string>)
    requires AllKnown(services) && Progress(services, inDegree, order, []) && |order| != |services|
    ensures Cyclic(services)
  {
    hide Progress, AllKnown, Waits, Distinct;
    OrderParts(services, inDegree, order);
    SomethingLeft(services, order);
    var stuck := set s | s in services && s !in order;
    var left :| left in services && left !in order;
    assert left in stuck;
    forall s | s in stuck ensures Waits(services, stuck, s) {
      StillWaits(services, inDegree, order, stuck, s);
    }
    StuckIsCyclic(services, stuck);
  }

  // ----- the start order -----

  /** Succeeds exactly when every named dependency exists and nothing depends on itself, in
      one step or in several; then every service comes once, after its dependencies. */
  method BuildStartOrder(services: Services) returns (r: Outcome)
    ensures r.Order? ==> IsStartOrder(services, r.order)
    ensures r.Order? <==> AllKnown(services) && !Cyclic(services)
    ensures r.UnknownDependency? <==> !AllKnown(services)
    ensures r.UnknownDependency? ==> r.service in services && r.dep in services[r.service] && r.dep !in services
    ensures r.CycleDetected? <==> AllKnown(services) && Cyclic(services)
  {
    hide *;
    var unknown, graph, inDegree := BuildGraph(services);
    if unknown.Some? {
      return UnknownDependency(unknown.value.0, unknown.value.1);
    }
    var order: seq<string> := [];
    var queue := InitialQueue(services, inDegree);
    while queue != []
      invariant Progress(services, inDegree, order, queue)
      invariant |order| <= |services|
      decreases |services| - |order|
    {
      Pop(services, graph, inDegree, order, queue);
      var n := queue[0];
      queue := queue[1..];
      var entries := Entries(graph, n);
      var j := 0;
      while j < |entries|
        invariant 0 <= j <= |entries|
        invariant Releasing(services, entries, inDegree, order, n, queue, j)
      {
        var next := entries[j];
        Release(services, graph, inDegree, order, n, queue, j);
        inDegree := inDegree[next := inDegree[next] - 1];
        if inDegree[next] == 0 {
          queue := queue + [next];
        }
        j := j + 1;
      }
      Finish(services, graph, inDegree, order, n, queue);
      order := order + [n];
      ProgressCount(services, inDegree, order, queue);
    }
    if |order| != |services| {
      LeftOverIsCyclic(services, inDegree, order);
      return CycleDetected;
    }
    CompleteOrder(services, inDegree, order);
    OrderIsAcyclic(services, order);
    return Order(order);
  }

  method InitialQueue(services: Services, inDegree: map<string, int>) returns (queue: seq<string>)
    requires inDegree.Keys == services.Keys && forall s | s in services :: inDegree[s] == |services[s]|
    ensures Progress(services, inDegree, [], queue)
  {
    queue := [];
    var rest := inDegree.Keys;
    while rest != {}
      invariant rest <= inDegree.Keys && Distinct(queue)
      invariant forall s :: s in queue <==> s in inDegree && s !in rest && inDegree[s] == 0
      decreases |rest|
    {
      var name :| name in rest;
      rest := rest - {name};
      if inDegree[name] == 0 {
        queue := queue + [name];
      }
    }
    assert [] + queue == queue && Done([]) == {};
    forall s | s in services {
      LeftNone(services[s]);
    }
  }

  lemma ProgressCount(services: Services, inDegree: map<string, int>, order: seq<string>, queue: seq<string>)
    requires Progress(services, inDegree, order, queue)
    ensures |order| <= |services|
  {
    assert forall i | 0 <= i < |order| :: order[i] == (order + queue)[i] && order[i] in order + queue;
    OrderCount(services, order);
  }

  lemma CompleteOrder(services: Services, inDegree: map<string, int>, order: seq<string>)
    requires Progress(services, inDegree, order, []) && |order| == |services|
    ensures IsStartOrder(services, order)
  {
    assert order + [] == order;
    OrderCount(services, order);
  }
}
