/** Pods, their templates and replica sets, and the service that creates and removes them. */
module PodStore {
  import opened Wrappers

  /** A pod is named after its template, or after its replica set with eight characters of a
      new ULID behind it. */
  datatype PodName = Plain(text: string) | Suffixed(base: string, ulid: nat)

  datatype Uid = Asked(text: string) | Made(ulid: nat)

  datatype PodState = Created | Running | Stopped | Degraded

  datatype Pod = Pod(template: nat, name: PodName, namespace: string, uid: Uid, state: PodState, stoppedByUser: bool)

  datatype Template = Template(name: string, namespace: string)

  datatype ReplicaSet = ReplicaSet(name: string, namespace: string, replicas: int, template: nat)

  /** `next` is the next ULID. */
  datatype State = State(pods: map<nat, Pod>, templates: map<nat, Template>, replicaSets: map<nat, ReplicaSet>,
      next: nat)

  predicate Named(p: Pod, name: PodName, namespace: string) {
    p.name == name && p.namespace == namespace
  }

  predicate Referenced(s: State, t: nat) {
    exists r | r in s.replicaSets :: s.replicaSets[r].template == t
  }

  // ----- the invariant -----

  predicate UniqueNames(s: State) {
    forall a, b | a in s.pods && b in s.pods && Named(s.pods[a], s.pods[b].name, s.pods[b].namespace) :: a == b
  }

  /** Every replica set has its own template, and it is stored. */
  predicate TemplatesKept(s: State) {
    && (forall r | r in s.replicaSets :: s.replicaSets[r].template in s.templates)
    && (forall a, b | a in s.replicaSets && b in s.replicaSets &&
        s.replicaSets[a].template == s.replicaSets[b].template :: a == b)
  }

  /** Whatever holds a ULID got it earlier. */
  predicate Past(s: State) {
    && (forall id | id in s.pods :: id < s.next && s.pods[id].template < s.next)
    && (forall id | id in s.pods && s.pods[id].name.Suffixed? :: s.pods[id].name.ulid < s.next)
    && (forall id | id in s.pods && s.pods[id].uid.Made? :: s.pods[id].uid.ulid < s.next)
    && (forall t | t in s.templates :: t < s.next)
    && (forall r | r in s.replicaSets :: r < s.next)
  }

  predicate Valid(s: State) {
    UniqueNames(s) && TemplatesKept(s) && Past(s)
  }

  // ----- what the operations do -----

  ghost function Holder(s: State, name: PodName, namespace: string): (r: Option<nat>)
    ensures r.Some? ==> r.value in s.pods && Named(s.pods[r.value], name, namespace)
    ensures r.None? ==> forall id | id in s.pods :: !Named(s.pods[id], name, namespace)
  {
    if exists id :: id in s.pods && Named(s.pods[id], name, namespace)
    then var id :| id in s.pods && Named(s.pods[id], name, namespace); Some(id)
    else None
  }

  /** A pod goes, and with it its template, unless a replica set still refers to it. */
  function PodRemoved(s: State, id: nat): State
    requires id in s.pods
  {
    var t := s.pods[id].template;
    s.(pods := s.pods - {id}, templates := if Referenced(s, t) then s.templates else s.templates - {t})
  }

  function PodStored(s: State, t: nat, name: PodName, namespace: string, uid: Uid): (State, Option<nat>) {
    (s.(pods := s.pods[s.next := Pod(t, name, namespace, uid, Created, false)], next := s.next + 1), Some(s.next))
  }

  /** A pod takes its name away from whoever holds it, unless that is the same pod by its
      uid; `works` is false if the holder's containers cannot be stopped or deleted. */
  ghost function NameTaken(s: State, t: nat, name: PodName, namespace: string, uid: Uid, works: bool): (State,
      Option<nat>) {
    match Holder(s, name, namespace)
    case None => PodStored(s, t, name, namespace, uid)
    case Some(h) =>
      if s.pods[h].uid == uid then (s, Some(h))
      else if works then PodStored(PodRemoved(s, h), t, name, namespace, uid)
      else (s, None)
  }

  /** A pod without a uid of its own gets a new one. */
  ghost function PodCreated(s: State, t: nat, name: PodName, namespace: string, asked: string, works: bool): (State,
      Option<nat>) {
    if name == Plain("") || namespace == "" then (s, None)
    else if asked == "" then NameTaken(s.(next := s.next + 1), t, name, namespace, Made(s.next), works)
    else NameTaken(s, t, name, namespace, Asked(asked), works)
  }

  function TemplateStored(s: State, t: Template): State {
    s.(templates := s.templates[s.next := t], next := s.next + 1)
  }

  function ReplicaSetApplied(s: State, name: string, namespace: string, replicas: int): State {
    var s1 := TemplateStored(s, Template(name, namespace));
    s1.(replicaSets := s1.replicaSets[s1.next := ReplicaSet(name, namespace, replicas, s.next)], next := s1.next + 1)
  }

  function TemplateDropped(s: State, t: nat): State {
    if Referenced(s, t) then s else s.(templates := s.templates - {t})
  }

  // ----- every operation keeps the invariant -----

  lemma RemovingKeeps(s: State, id: nat)
    requires Valid(s) && id in s.pods
    ensures Valid(PodRemoved(s, id))
  {
    var s' := PodRemoved(s, id);
    assert forall x | x in s'.pods :: x in s.pods && s'.pods[x] == s.pods[x];
  }

  lemma HolderIsOnly(s: State, name: PodName, namespace: string, id: nat)
    requires Valid(s) && id in s.pods && Named(s.pods[id], name, namespace)
    ensures Holder(s, name, namespace) == Some(id)
  {
  }

  lemma StoringKeeps(s: State, t: nat, name: PodName, namespace: string, uid: Uid)
    requires Valid(s) && t < s.next && (name.Suffixed? ==> name.ulid < s.next) && (uid.Made? ==> uid.ulid < s.next)
    requires forall id | id in s.pods :: !Named(s.pods[id], name, namespace)
    ensures Valid(PodStored(s, t, name, namespace, uid).0)
  {
    var s' := PodStored(s, t, name, namespace, uid).0;
    assert forall x | x in s'.pods :: x == s.next || (x in s.pods && s'.pods[x] == s.pods[x]);
  }

  lemma TickKeeps(s: State)
    requires Valid(s)
    ensures Valid(s.(next := s.next + 1))
  {
    var s' := s.(next := s.next + 1);
    assert forall r | r in s'.replicaSets :: s'.replicaSets[r].template in s'.templates;
  }

  lemma TakingKeeps(s: State, t: nat, name: PodName, namespace: string, uid: Uid, works: bool)
    requires Valid(s) && t < s.next && (name.Suffixed? ==> name.ulid < s.next) && (uid.Made? ==> uid.ulid < s.next)
    ensures Valid(NameTaken(s, t, name, namespace, uid, works).0)
  {
    match Holder(s, name, namespace) {
      case None =>
        StoringKeeps(s, t, name, namespace, uid);
      case Some(h) =>
        RemovingKeeps(s, h);
        HolderGone(s, name, namespace, h);
        hide Valid, PodStored, PodRemoved, Holder, Named;
        StoringKeeps(PodRemoved(s, h), t, name, namespace, uid);
    }
  }

  /** Creating a pod keeps the names unique and the replica sets' templates stored, whether
      it succeeds, finds the pod there already, or fails on the way. */
  lemma CreatingKeeps(s: State, t: nat, name: PodName, namespace: string, asked: string, works: bool)
    requires Valid(s) && t < s.next && (name.Suffixed? ==> name.ulid < s.next)
    ensures Valid(PodCreated(s, t, name, namespace, asked, works).0)
  {
    hide Valid, NameTaken;
    TickKeeps(s);
    if asked == "" {
      TakingKeeps(s.(next := s.next + 1), t, name, namespace, Made(s.next), works);
    } else {
      TakingKeeps(s, t, name, namespace, Asked(asked), works);
    }
  }

  lemma HolderGone(s: State, name: PodName, namespace: string, h: nat)
    requires Valid(s) && h in s.pods && Named(s.pods[h], name, namespace)
    ensures forall id | id in PodRemoved(s, h).pods :: !Named(PodRemoved(s, h).pods[id], name, namespace)
    ensures PodRemoved(s, h).next == s.next
  {
  }

  lemma ApplyingKeeps(s: State, name: string, namespace: string, replicas: int)
    requires Valid(s)
    ensures Valid(ReplicaSetApplied(s, name, namespace, replicas))
  {
    var s' := ReplicaSetApplied(s, name, namespace, replicas);
    assert forall r | r in s'.replicaSets ::
        r == s.next + 1 || (r in s.replicaSets && s'.replicaSets[r] == s.replicaSets[r]);
    assert forall r | r in s.replicaSets :: s.replicaSets[r].template < s.next;
  }

  lemma DroppingKeeps(s: State, t: nat)
    requires Valid(s)
    ensures Valid(TemplateDropped(s, t))
  {
  }

  lemma UnlistingKeeps(s: State, r: nat)
    requires Valid(s)
    ensures Valid(s.(replicaSets := s.replicaSets - {r}))
  {
  }

  /** Somebody bears the name. */
  predicate Borne(s: State, name: PodName, namespace: string, id: nat) {
    id in s.pods && s.pods[id].name == name && s.pods[id].namespace == namespace
  }

  /** Creating a pod under a name that is borne. If its bearer is the very pod that was asked
      for, that is the answer; if its containers resist, there is none. Otherwise a new pod
      stands in its place, and its template has gone too, unless a replica set uses it. */
  lemma CreatedOver(s: State, t: nat, name: PodName, namespace: string, asked: string, works: bool, h: nat)
    requires Valid(s) && t < s.next && name != Plain("") && namespace != "" && Borne(s, name, namespace, h)
    ensures var (s', r) := PodCreated(s, t, name, namespace, asked, works);
            && s'.replicaSets == s.replicaSets
            && if asked != "" && s.pods[h].uid == Asked(asked) then r == Some(h) && s' == s
               else if !works then r == None && s'.pods == s.pods && s'.templates == s.templates
               else
                 && IsNewPod(s, s', r, t, name, namespace, asked)
                 && s'.pods - {r.value} == s.pods - {h}
                 && s'.templates == if exists x | x in s.replicaSets :: s.replicaSets[x].template == s.pods[h].template
                                    then s.templates else s.templates - {s.pods[h].template}
  {
    var s1 := if asked == "" then s.(next := s.next + 1) else s;
    HolderIsOnly(s, name, namespace, h);
    SameHolder(s, s1, name, namespace);
    NoSuchId(s);
    hide Valid, Holder, NameTaken, Referenced;
    NameTakenIs(s1, t, name, namespace, if asked == "" then Made(s.next) else Asked(asked), works);
    TemplateGoes(s, s1, s.pods[h].template);
  }

  /** Under a name that nobody bears a new pod is made. */
  lemma CreatedFree(s: State, t: nat, name: PodName, namespace: string, asked: string, works: bool)
    requires Valid(s) && t < s.next && name != Plain("") && namespace != ""
    requires forall h: nat :: !Borne(s, name, namespace, h)
    ensures var (s', r) := PodCreated(s, t, name, namespace, asked, works);
            && IsNewPod(s, s', r, t, name, namespace, asked)
            && s'.pods - {r.value} == s.pods && s'.templates == s.templates && s'.replicaSets == s.replicaSets
  {
    var s1 := if asked == "" then s.(next := s.next + 1) else s;
    SameHolder(s, s1, name, namespace);
    NoSuchId(s);
    assert Holder(s, name, namespace).Some? ==> Borne(s, name, namespace, Holder(s, name, namespace).value);
    hide Valid, Holder, NameTaken, Referenced;
    NameTakenIs(s1, t, name, namespace, if asked == "" then Made(s.next) else Asked(asked), works);
  }

  lemma TemplateGoes(s: State, s1: State, u: nat)
    requires s1.replicaSets == s.replicaSets
    ensures Referenced(s1, u) <==> exists x | x in s.replicaSets :: s.replicaSets[x].template == u
  {
  }

  lemma NameTakenIs(s: State, t: nat, name: PodName, namespace: string, uid: Uid, works: bool)
    requires s.next !in s.pods
    ensures var (s', r) := NameTaken(s, t, name, namespace, uid, works);
            var pod := Pod(t, name, namespace, uid, Created, false);
            && s'.replicaSets == s.replicaSets
            && match Holder(s, name, namespace)
               case None =>
                 r == Some(s.next) && s.next in s'.pods && s'.pods[s.next] == pod &&
                 s'.pods - {s.next} == s.pods && s'.templates == s.templates
               case Some(h) =>
                 if s.pods[h].uid == uid then r == Some(h) && s' == s
                 else if !works then r == None && s' == s
                 else
                   && r == Some(s.next) && s.next in s'.pods && s'.pods[s.next] == pod
                   && s'.pods - {s.next} == s.pods - {h}
                   && s'.templates == if Referenced(s, s.pods[h].template) then s.templates
                                      else s.templates - {s.pods[h].template}
  {
    hide Holder, Referenced;
  }

  /** A new pod, as it was asked for. */
  predicate IsNewPod(s: State, s': State, r: Option<nat>, t: nat, name: PodName, namespace: string, asked: string) {
    && r.Some? && r.value !in s.pods && r.value in s'.pods
    && var p := s'.pods[r.value];
       && p.template == t && p.name == name && p.namespace == namespace && p.state == Created && !p.stoppedByUser
       && if asked != "" then p.uid == Asked(asked)
           else p.uid.Made? && forall id | id in s.pods :: s.pods[id].uid != p.uid
  }

  lemma SameHolder(s: State, s1: State, name: PodName, namespace: string)
    requires Valid(s) && s1.pods == s.pods
    ensures Holder(s1, name, namespace) == Holder(s, name, namespace)
    ensures Holder(s, name, namespace).None? ==> forall h: nat :: !Borne(s, name, namespace, h)
  {
  }

  lemma NoSuchId(s: State)
    requires Valid(s)
    ensures s.next !in s.pods && s.next + 1 !in s.pods
    ensures forall id | id in s.pods :: s.pods[id].uid != Made(s.next)
  {
  }
}
