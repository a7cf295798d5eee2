/** What the service controller looks at, and the text by which it notices changes. */
module ServiceState {
  import opened Sorting
  import opened NatTable
  import opened Text

  datatype Service = Service(id: string, namespace: string, selector: map<string, string>, ports: seq<ServicePort>)

  datatype Pod = Pod(podId: string, namespace: string, labels: map<string, string>)

  // ----- endpoints -----

  /** A label that is not there reads as the empty string. */
  function Label(labels: map<string, string>, k: string): string {
    if k in labels then labels[k] else ""
  }

  predicate LabelsMatch(selector: map<string, string>, labels: map<string, string>) {
    selector.Keys != {} && forall k | k in selector :: Label(labels, k) == selector[k]
  }

  method CheckLabels(selector: map<string, string>, labels: map<string, string>) returns (ok: bool)
    ensures ok <==> LabelsMatch(selector, labels)
  {
    if selector.Keys == {} {
      return false;
    }
    var keys := selector.Keys;
    while keys != {}
      invariant keys <= selector.Keys
      invariant forall k | k in selector.Keys - keys :: Label(labels, k) == selector[k]
    {
      var k :| k in keys;
      if Label(labels, k) != selector[k] {
        return false;
      }
      keys := keys - {k};
    }
    return true;
  }

  /** `address` holds the pods that have an infra container with an address. */
  predicate IsEndpoint(svc: Service, pod: Pod, address: map<string, string>) {
    pod.namespace == svc.namespace && LabelsMatch(svc.selector, pod.labels) && pod.podId in address
  }

  function Found(svc: Service, pods: seq<Pod>, address: map<string, string>): seq<string> {
    if pods == [] then []
    else
      var last := pods[|pods| - 1];
      Found(svc, pods[..|pods| - 1], address) + if IsEndpoint(svc, last, address) then [address[last.podId]] else []
  }

  function Endpoints(svc: Service, pods: seq<Pod>, address: map<string, string>): seq<string> {
    Sorted(Found(svc, pods, address))
  }

  method BuildEndpoints(svc: Service, pods: seq<Pod>, address: map<string, string>) returns (endpoints: seq<string>)
    ensures endpoints == Endpoints(svc, pods, address)
  {
    endpoints := [];
    var i := 0;
    while i < |pods|
      invariant 0 <= i <= |pods| && endpoints == Found(svc, pods[..i], address)
    {
      assert pods[..i + 1][..i] == pods[..i];
      if pods[i].namespace == svc.namespace {
        var matches := CheckLabels(svc.selector, pods[i].labels);
        if matches && pods[i].podId in address {
          endpoints := endpoints + [address[pods[i].podId]];
        }
      }
      i := i + 1;
    }
    assert pods[..i] == pods;
    endpoints := Sorted(endpoints);
  }

  /** An endpoint is the address of a selected pod, and every selected pod is there. */
  lemma {:induction false} FoundExactly(svc: Service, pods: seq<Pod>, address: map<string, string>, a: string)
    ensures a in Found(svc, pods, address) <==>
            exists p :: p in pods && IsEndpoint(svc, p, address) && address[p.podId] == a
  {
    hide IsEndpoint;
    if pods != [] {
      var n := |pods| - 1;
      FoundExactly(svc, pods[..n], address, a);
      assert pods == pods[..n] + [pods[n]];
      forall p ensures p in pods <==> p in pods[..n] || p == pods[n] {
      }
    }
  }

  /** The service's selector is not empty and every label it asks for has that value on the pod,
      where a label that is missing counts as empty. */
  predicate Selects(svc: Service, pod: Pod) {
    && pod.namespace == svc.namespace
    && (exists k :: k in svc.selector)
    && forall k | k in svc.selector :: svc.selector[k] == if k in pod.labels then pod.labels[k] else ""
  }

  /** The places in the pod list whose pod is selected and has that address. */
  function PlacesOf(svc: Service, pods: seq<Pod>, address: map<string, string>, a: string): set<int> {
    set i | 0 <= i < |pods| && Selects(svc, pods[i]) && (pods[i].podId, a) in address.Items
  }

  /** The endpoints are in order, and an address is there once for every selected pod that has it. */
  lemma EndpointsExactly(svc: Service, pods: seq<Pod>, address: map<string, string>, a: string)
    ensures IsSorted(Endpoints(svc, pods, address))
    ensures multiset(Endpoints(svc, pods, address))[a] == |PlacesOf(svc, pods, address, a)|
  {
    SortedIsSorted(Found(svc, pods, address));
    FoundCount(svc, pods, address, a);
  }

  lemma SelectedIsEndpoint(svc: Service, pod: Pod, address: map<string, string>, a: string)
    ensures IsEndpoint(svc, pod, address) && address[pod.podId] == a <==>
            Selects(svc, pod) && (pod.podId, a) in address.Items
    ensures IsEndpoint(svc, pod, address) ==> pod.podId in address
  {
    assert svc.selector.Keys != {} <==> exists k :: k in svc.selector;
  }

  lemma CountNext(xs: seq<string>, x: string, a: string)
    ensures multiset(xs + [x])[a] == multiset(xs)[a] + if x == a then 1 else 0
  {
  }

  lemma FoundNext(svc: Service, pods: seq<Pod>, address: map<string, string>, a: string)
    requires pods != []
    ensures var n := |pods| - 1;
            multiset(Found(svc, pods, address))[a] == multiset(Found(svc, pods[..n], address))[a] +
              if Selects(svc, pods[n]) && (pods[n].podId, a) in address.Items then 1 else 0
  {
    hide IsEndpoint, Selects;
    var n := |pods| - 1;
    SelectedIsEndpoint(svc, pods[n], address, a);
    if IsEndpoint(svc, pods[n], address) {
      CountNext(Found(svc, pods[..n], address), address[pods[n].podId], a);
    } else {
      assert Found(svc, pods, address) == Found(svc, pods[..n], address) + [];
    }
  }

  lemma PlacesNext(svc: Service, pods: seq<Pod>, address: map<string, string>, a: string)
    requires pods != []
    ensures var n := |pods| - 1;
            |PlacesOf(svc, pods, address, a)| == |PlacesOf(svc, pods[..n], address, a)| +
              if Selects(svc, pods[n]) && (pods[n].podId, a) in address.Items then 1 else 0
  {
    hide Selects;
    var n := |pods| - 1;
    var before, now := PlacesOf(svc, pods[..n], address, a), PlacesOf(svc, pods, address, a);
    assert forall i | 0 <= i < n :: pods[..n][i] == pods[i];
    assert now == before + if Selects(svc, pods[n]) && (pods[n].podId, a) in address.Items then {n} else {};
  }

  lemma {:induction false} FoundCount(svc: Service, pods: seq<Pod>, address: map<string, string>, a: string)
    ensures multiset(Found(svc, pods, address))[a] == |PlacesOf(svc, pods, address, a)|
  {
    if pods != [] {
      FoundCount(svc, pods[..|pods| - 1], address, a);
      FoundNext(svc, pods, address, a);
      PlacesNext(svc, pods, address, a);
      hide Found, PlacesOf;
    }
  }

  // ----- the state key -----

  function Itoa(n: int): (r: string)
    ensures r != ""
  {
    if n < 0 then "-" + Digits(-n) else Digits(n)
  }

  /** Decimal digits, with a minus sign in front of a negative number. */
  lemma ItoaValue(n: int)
    ensures n >= 0 ==> Itoa(n)[0] != '-' && Value(Itoa(n)) == n
    ensures n < 0 ==> Itoa(n)[0] == '-' && Value(Itoa(n)[1..]) == -n
  {
    if n >= 0 {
      DigitsValue(n);
      assert Digits(n)[0] in Digits(n);
    } else {
      DigitsValue(-n);
      assert ("-" + Digits(-n))[1..] == Digits(-n);
    }
  }

  function PortPart(p: ServicePort): (r: string)
    ensures r != ""
  {
    Itoa(p.port) + ":" + Itoa(p.targetPort) + "/" + Lower(p.protocol)
  }

  function PortParts(ports: seq<ServicePort>): (r: seq<string>)
    ensures |r| == |ports|
    ensures forall i | 0 <= i < |r| :: r[i] == PortPart(ports[i])
  {
    seq(|ports|, i requires 0 <= i < |ports| => PortPart(ports[i]))
  }

  function StateKey(ports: seq<ServicePort>, addrs: seq<string>): string {
    Join(Sorted(PortParts(ports) + addrs))
  }

  method BuildStateKey(ports: seq<ServicePort>, addrs: seq<string>) returns (key: string)
    ensures key == StateKey(ports, addrs)
  {
    var parts: seq<string> := [];
    var i := 0;
    while i < |ports|
      invariant 0 <= i <= |ports| && parts == PortParts(ports)[..i]
    {
      parts := parts + [Itoa(ports[i].port) + ":" + Itoa(ports[i].targetPort) + "/" + Lower(ports[i].protocol)];
      i := i + 1;
    }
    assert parts == PortParts(ports);
    key := Join(Sorted(parts + addrs));
  }

  /** Addresses are not empty and hold no comma. */
  predicate PlainAddresses(addrs: seq<string>) {
    forall a | a in addrs :: a != "" && ',' !in a
  }

  // The key, cut at its commas, holds the pieces of the ports and then the addresses.
  lemma KeyPieces(ports: seq<ServicePort>, addrs: seq<string>)
    requires PlainAddresses(addrs) && PortParts(ports) + addrs != []
    ensures multiset(Pieces(StateKey(ports, addrs))) == multiset(AllPieces(PortParts(ports))) + multiset(addrs)
  {
    var parts := PortParts(ports) + addrs;
    SortedIsSorted(parts);
    PiecesOfJoin(Sorted(parts));
    AllPiecesContents(Sorted(parts), parts);
    AllPiecesConcat(PortParts(ports), addrs);
    AllPiecesPlain(addrs);
    hide Pieces, AllPieces, Join, Sorted, PortParts;
  }

  lemma CancelLeft(a: multiset<string>, b: multiset<string>, c: multiset<string>)
    requires a + b == a + c
    ensures b == c
  {
    assert b == a + b - a && c == a + c - a;
  }

  lemma EmptyKey(ports: seq<ServicePort>, addrs: seq<string>)
    requires PlainAddresses(addrs)
    ensures StateKey(ports, addrs) == "" <==> ports == [] && addrs == []
  {
    var parts := PortParts(ports) + addrs;
    SortedIsSorted(parts);
    var s := Sorted(parts);
    if s != [] {
      assert s[0] in multiset(s);
      assert s[0] in parts;
      assert s[0] != "";
    }
    hide PortPart;
  }

  /** For the same ports, two lists of addresses give the same key exactly if they hold the
      same addresses the same number of times. */
  lemma KeyDeterminesAddresses(ports: seq<ServicePort>, a: seq<string>, b: seq<string>)
    requires PlainAddresses(a) && PlainAddresses(b)
    ensures StateKey(ports, a) == StateKey(ports, b) <==> multiset(a) == multiset(b)
  {
    if multiset(a) == multiset(b) {
      SortedForgetsOrder(PortParts(ports) + a, PortParts(ports) + b);
    } else if StateKey(ports, a) == StateKey(ports, b) {
      EmptyKey(ports, a);
      EmptyKey(ports, b);
      hide StateKey, Sorted, Join;
      if StateKey(ports, a) != "" {
        KeyPieces(ports, a);
        KeyPieces(ports, b);
        hide *;
        CancelLeft(multiset(AllPieces(PortParts(ports))), multiset(a), multiset(b));
      }
    }
  }

  lemma EndpointsPlain(svc: Service, pods: seq<Pod>, address: map<string, string>)
    requires forall p | p in address :: address[p] != "" && ',' !in address[p]
    ensures PlainAddresses(Endpoints(svc, pods, address))
  {
    var found := Found(svc, pods, address);
    SortedIsSorted(found);
    forall a | a in Endpoints(svc, pods, address) ensures a != "" && ',' !in a {
      assert a in multiset(Sorted(found));
      assert a in found;
      FoundExactly(svc, pods, address, a);
    }
  }

  /** What the controller relies on: an unchanged key means an unchanged list of endpoints. */
  lemma SameKeySameEndpoints(svc: Service, pods: seq<Pod>, address: map<string, string>, before: seq<string>)
    requires PlainAddresses(before) && IsSorted(before)
    requires PlainAddresses(Endpoints(svc, pods, address))
    ensures StateKey(svc.ports, before) == StateKey(svc.ports, Endpoints(svc, pods, address)) <==>
            before == Endpoints(svc, pods, address)
  {
    var now := Endpoints(svc, pods, address);
    KeyDeterminesAddresses(svc.ports, before, now);
    SortedIsSorted(Found(svc, pods, address));
    hide StateKey, Sorted, IsSorted, Found;
    if multiset(before) == multiset(now) {
      SortedIsUnique(before, now);
    }
  }
}
