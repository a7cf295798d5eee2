/** The pod service and the replica-set handlers over the store, one locked step at a time. */
module PodOperations {
  import opened Wrappers
  import opened PodStore

  function Members(s: State, t: nat): set<nat> {
    set id | id in s.pods && s.pods[id].template == t
  }

  /** The pod leaves the store, its template stays. */
  function Dropped(s: State, id: nat): State {
    s.(pods := s.pods - {id})
  }

  lemma DroppingPodKeeps(s: State, id: nat)
    requires Valid(s)
    ensures Valid(Dropped(s, id))
    ensures id !in s.pods ==> Dropped(s, id) == s
  {
    var s' := Dropped(s, id);
    assert forall x | x in s'.pods :: x in s.pods && s'.pods[x] == s.pods[x];
  }

  function Started(s: State, id: nat): State
    requires id in s.pods
  {
    s.(pods := s.pods[id := s.pods[id].(state := Running, stoppedByUser := false)])
  }

  lemma StartingKeeps(s: State, id: nat)
    requires Valid(s) && id in s.pods
    ensures Valid(Started(s, id))
  {
    var s' := Started(s, id);
    assert forall x | x in s'.pods ::
        x in s.pods && s'.pods[x] == s.pods[x].(state := s'.pods[x].state, stoppedByUser := s'.pods[x].stoppedByUser);
  }

  /** Only pods of the template, and pods that were picked, have been removed. */
  predicate Pruned(s: State, s': State, t: nat, picked: set<nat>) {
    && s'.pods.Keys <= s.pods.Keys
    && (forall id | id in s'.pods :: s'.pods[id] == s.pods[id])
    && (forall id | id in s.pods && s.pods[id].template != t && id !in picked :: id in s'.pods)
    && s'.replicaSets == s.replicaSets
    && s'.next == s.next
  }

  /** The pods to be removed that are still there and whose containers do not resist. */
  predicate Resisting(s: State, t: nat, picked: set<nat>, works: nat -> bool, todo: set<nat>) {
    forall x | x in s.pods && (s.pods[x].template == t || x in picked) :: !works(x) || x in todo
  }

  lemma PruneStart(s: State, t: nat, picked: set<nat>, works: nat -> bool)
    ensures Pruned(s, s, t, picked) && Resisting(s, t, picked, works, s.pods.Keys)
  {
  }

  lemma PruneStep(s1: State, s: State, t: nat, picked: set<nat>, works: nat -> bool, todo: set<nat>, x: nat)
    requires x in s1.pods && Pruned(s1, s, t, picked) && Resisting(s, t, picked, works, todo + {x})
    ensures x in s.pods && works(x) && (s1.pods[x].template == t || x in picked) ==>
              Pruned(s1, PodRemoved(s, x), t, picked) && Resisting(PodRemoved(s, x), t, picked, works, todo)
    ensures !(x in s.pods && works(x) && (s1.pods[x].template == t || x in picked)) ==>
            Resisting(s, t, picked, works, todo)
  {
  }

  lemma PruneEnd(s1: State, s: State, t: nat, picked: set<nat>, works: nat -> bool)
    requires Pruned(s1, s, t, picked) && Resisting(s, t, picked, works, {})
    ensures forall x | x in s.pods && (s.pods[x].template == t || x in picked) :: !works(x)
    ensures s.replicaSets == s1.replicaSets && Pruned(s1, TemplateDropped(s, t), t, picked)
  {
  }

  class PodService {
    var pods: map<nat, Pod>
    var templates: map<nat, Template>
    var replicaSets: map<nat, ReplicaSet>
    var next: nat

    ghost function Now(): State
      reads this
    {
      State(pods, templates, replicaSets, next)
    }

    constructor ()
      ensures Valid(Now()) && pods == map[] && templates == map[] && replicaSets == map[]
    {
      pods, templates, replicaSets, next := map[], map[], map[], 0;
    }

    method NewUlid() returns (ulid: nat)
      requires Valid(Now())
      modifies this
      ensures Valid(Now()) && ulid == old(next) && Now() == old(Now()).(next := old(next) + 1)
    {
      TickKeeps(Now());
      ulid := next;
      next := next + 1;
    }

    method FindByName(name: PodName, namespace: string) returns (r: Option<nat>)
      requires Valid(Now())
      ensures r == Holder(Now(), name, namespace)
    {
      ghost var s := Now();
      var todo := pods.Keys;
      while todo != {}
        invariant todo <= pods.Keys
        invariant forall id | id in pods && id !in todo :: !Named(pods[id], name, namespace)
      {
        var id :| id in todo;
        if pods[id].name == name && pods[id].namespace == namespace {
          HolderIsOnly(s, name, namespace, id);
          return Some(id);
        }
        todo := todo - {id};
      }
      return None;
    }

    method IsTemplateReferenced(t: nat) returns (referenced: bool)
      ensures referenced <==> Referenced(Now(), t)
    {
      var todo := replicaSets.Keys;
      while todo != {}
        invariant todo <= replicaSets.Keys
        invariant forall r | r in replicaSets && r !in todo :: replicaSets[r].template != t
      {
        var r :| r in todo;
        if replicaSets[r].template == t {
          return true;
        }
        todo := todo - {r};
      }
      return false;
    }

    /** `works` is false if a container of the pod cannot be stopped or deleted. */
    method Remove(id: nat, works: bool) returns (ok: bool)
      requires Valid(Now())
      modifies this
      ensures Valid(Now())
      ensures ok <==> id in old(pods) && works
      ensures Now() == if ok then PodRemoved(old(Now()), id) else old(Now())
      ensures ok ==>
                && pods == old(pods) - {id} && replicaSets == old(replicaSets) && next == old(next)
                && var t := old(pods)[id].template;
                   templates == if exists r | r in replicaSets :: replicaSets[r].template == t then old(templates)
                                else old(templates) - {t}
    {
      if id !in pods || !works {
        return false;
      }
      ghost var s := Now();
      RemovingKeeps(s, id);
      hide Valid, Referenced;
      var t := pods[id].template;
      pods := pods - {id};
      var inUse := IsTemplateReferenced(t);
      assert inUse <==> Referenced(s, t) by {
        ReferencesOnly(s, Now(), t);
      }
      if !inUse {
        templates := templates - {t};
      }
      return true;
    }

    method TakeName(t: nat, name: PodName, namespace: string, uid: Uid, works: bool) returns (r: Option<nat>)
      requires Valid(Now()) && t < next && (name.Suffixed? ==> name.ulid < next) && (uid.Made? ==> uid.ulid < next)
      modifies this
      ensures Valid(Now()) && next >= old(next)
      ensures (Now(), r) == NameTaken(old(Now()), t, name, namespace, uid, works)
    {
      TakingKeeps(Now(), t, name, namespace, uid, works);
      hide Valid, Holder, Named;
      var existing := FindByName(name, namespace);
      if existing.Some? {
        if pods[existing.value].uid == uid {
          return existing;
        }
        var removed := Remove(existing.value, works);
        if !removed {
          return None;
        }
      }
      var id := StorePod(t, name, namespace, uid);
      return Some(id);
    }

    method CreateWithTemplate(t: nat, name: PodName, namespace: string, asked: string,
        works: bool) returns (r: Option<nat>)
      requires Valid(Now()) && t < next && (name.Suffixed? ==> name.ulid < next)
      modifies this
      ensures Valid(Now()) && next >= old(next)
      ensures (Now(), r) == PodCreated(old(Now()), t, name, namespace, asked, works)
    {
      TickKeeps(Now());
      hide Valid, NameTaken;
      if name == Plain("") || namespace == "" {
        return None;
      }
      var uid := Asked(asked);
      if asked == "" {
        uid := Made(next);
        next := next + 1;
      }
      r := TakeName(t, name, namespace, uid, works);
    }

    method StorePod(t: nat, name: PodName, namespace: string, uid: Uid) returns (id: nat)
      modifies this
      ensures next == old(next) + 1
      ensures (Now(), Some(id)) == PodStored(old(Now()), t, name, namespace, uid)
    {
      id := next;
      pods := pods[id := Pod(t, name, namespace, uid, Created, false)];
      next := next + 1;
    }

    /** A new pod with a template of its own. */
    method Create(name: string, namespace: string, asked: string, works: bool) returns (r: Option<nat>)
      requires Valid(Now())
      modifies this
      ensures Valid(Now())
      ensures (Now(), r) == PodCreated(TemplateStored(old(Now()), Template(name, namespace)), old(next), Plain(name),
              namespace, asked, works)
    {
      ghost var s := Now();
      var t := next;
      next := next + 1;
      templates := templates[t := Template(name, namespace)];
      assert Now() == TemplateStored(s, Template(name, namespace));
      TemplateKeeps(s, Template(name, namespace));
      hide Valid, PodCreated;
      r := CreateWithTemplate(t, Plain(name), namespace, asked, works);
    }

    /** A new pod of a stored template, under the template's name or the given one. */
    method CreateFromTemplate(t: nat, override: Option<PodName>, works: bool) returns (r: Option<nat>)
      requires Valid(Now()) && (override.Some? && override.value.Suffixed? ==> override.value.ulid < next)
      modifies this
      ensures Valid(Now()) && next >= old(next)
      ensures t !in old(templates) ==> r == None && Now() == old(Now())
      ensures t in old(templates) ==>
                var tpl := old(templates)[t];
                (Now(), r) == PodCreated(old(Now()), t, if override.Some? then override.value else
                    Plain(tpl.name), tpl.namespace, "", works)
    {
      if t !in templates {
        return None;
      }
      hide PodCreated, UniqueNames, TemplatesKept;
      r := CreateWithTemplate(t, if override.Some? then override.value else
          Plain(templates[t].name), templates[t].namespace, "", works);
    }

    /** Takes the pod out of the store and nothing else. */
    method DropPod(id: nat) returns (found: bool)
      requires Valid(Now())
      modifies this
      ensures Valid(Now()) && found == (id in old(pods))
      ensures Now() == Dropped(old(Now()), id)
    {
      DroppingPodKeeps(Now(), id);
      found := id in pods;
      pods := pods - {id};
    }

    /** Starts the pod's containers; `works` is false if one of them fails or the pod does not
        fit its template. */
    method Start(id: nat, works: bool) returns (ok: bool)
      requires Valid(Now())
      modifies this
      ensures Valid(Now()) && ok == (id in old(pods) && works)
      ensures Now() == if ok then Started(old(Now()), id) else old(Now())
      ensures ok ==> pods == old(pods)[id := old(pods)[id].(state := Running, stoppedByUser := false)]
    {
      if id !in pods || !works {
        return false;
      }
      StartingKeeps(Now(), id);
      hide Valid;
      ghost var p := pods[id].(state := Running, stoppedByUser := false);
      assert pods[id := pods[id].(state := Running)][id := p] == pods[id := p];
      pods := pods[id := pods[id].(state := Running)];
      pods := pods[id := pods[id].(stoppedByUser := false)];
      return true;
    }

    method ApplyReplicaSet(name: string, namespace: string, replicas: int) returns (id: nat)
      requires Valid(Now())
      modifies this
      ensures Valid(Now())
      ensures Now() == ReplicaSetApplied(old(Now()), name, namespace, replicas) && id == old(next) + 1
      ensures var t := old(next);
              && pods == old(pods) && t !in old(templates) &&
                  templates == old(templates)[t := Template(name, namespace)]
              && replicaSets == old(replicaSets)[id := ReplicaSet(name, namespace, replicas, t)]
    {
      ghost var s := Now();
      ApplyingKeeps(s, name, namespace, replicas);
      hide Valid;
      var t := next;
      next := next + 1;
      templates := templates[t := Template(name, namespace)];
      id := next;
      next := next + 1;
      TemplateIsNew(s, t);
      replicaSets := replicaSets[id := ReplicaSet(name, namespace, replicas, t)];
    }

    method ScaleReplicaSet(id: nat, replicas: int) returns (ok: bool)
      requires Valid(Now())
      modifies this
      ensures Valid(Now())
      ensures ok <==> id in old(replicaSets) && replicas >= 0
      ensures ok ==>
              Now() == old(Now()).(replicaSets := old(replicaSets)[id := old(replicaSets)[id].(replicas := replicas)])
      ensures !ok ==> Now() == old(Now())
    {
      if id !in replicaSets || replicas < 0 {
        return false;
      }
      ghost var s := Now();
      replicaSets := replicaSets[id := replicaSets[id].(replicas := replicas)];
      assert forall r | r in replicaSets :: replicaSets[r].template == s.replicaSets[r].template;
      return true;
    }

    /** Removes a replica set, then the pods of its template and those that the caller picked
        by labels, and the template. If no pod's containers resist, nothing of the set is left,
        and no other pod is touched. */
    method RemoveReplicaSet(id: nat, picked: set<nat>, works: nat -> bool) returns (ok: bool)
      requires Valid(Now())
      modifies this
      ensures Valid(Now())
      ensures ok <==> id in old(replicaSets)
      ensures !ok ==> Now() == old(Now())
      ensures ok ==>
                var t := old(replicaSets)[id].template;
                && Pruned(old(Now()).(replicaSets := old(replicaSets) - {id}), Now(), t, picked)
                && t !in templates
                && forall x | x in pods && (pods[x].template == t || x in picked) :: !works(x)
    {
      if id !in replicaSets {
        return false;
      }
      ghost var s := Now();
      UnlistingKeeps(s, id);
      var t := replicaSets[id].template;
      assert forall r | r in replicaSets && r != id :: replicaSets[r].template != t;
      replicaSets := replicaSets - {id};
      ghost var s1 := Now();
      assert !Referenced(s1, t);
      PruneStart(s1, t, picked, works);
      hide Valid, Pruned, Resisting, PodRemoved;
      var snapshot := pods;
      var todo := pods.Keys;
      while todo != {}
        invariant todo <= snapshot.Keys
        invariant Valid(Now()) && Pruned(s1, Now(), t, picked)
        invariant Resisting(Now(), t, picked, works, todo)
      {
        var x :| x in todo;
        todo := todo - {x};
        ghost var before := Now();
        PruneStep(s1, before, t, picked, works, todo, x);
        if snapshot[x].template == t || x in picked {
          var removed := Remove(x, works(x));
        }
      }
      ghost var last := Now();
      PruneEnd(s1, last, t, picked, works);
      DroppingKeeps(last, t);
      var inUse := IsTemplateReferenced(t);
      ReferencesOnly(s1, Now(), t);
      if !inUse {
        templates := templates - {t};
      }
      assert Now() == TemplateDropped(last, t);
      return true;
    }
  }

  // ----- requests that leave a template without a pod -----

  /** Who keeps a request from getting a pod of its own: a pod of the name with the very uid
      asked for, or one with another uid whose containers resist. */
  ghost predicate Withheld(s: State, name: string, namespace: string, asked: string, works: bool) {
    var h := Holder(s, Plain(name), namespace);
    h.Some? && ((asked != "" && s.pods[h.value].uid == Asked(asked)) || !works)
  }

  lemma HolderSame(s: State, s': State, name: PodName, namespace: string)
    requires Valid(s) && s'.pods == s.pods
    ensures Holder(s', name, namespace) == Holder(s, name, namespace)
  {
  }

  lemma NameStored(s: State, t: nat, name: PodName, namespace: string, uid: Uid, works: bool)
    requires Holder(s, name, namespace).Some? ==> works && s.pods[Holder(s, name, namespace).value].uid != uid
    requires t in s.templates && forall id | id in s.pods :: id < s.next && s.pods[id].template != t
    ensures var (s', r) := NameTaken(s, t, name, namespace, uid, works);
            && r == Some(s.next) && s.next in s'.pods && s'.pods[s.next].template == t
            && (forall id | id in s'.pods && id != s.next :: id in s.pods && s'.pods[id] == s.pods[id])
            && t in s'.templates && s'.templates[t] == s.templates[t]
  {
    hide Holder, Referenced;
  }

  lemma RequestStored(s: State, name: string, namespace: string, asked: string, works: bool)
    requires Valid(s) && name != "" && namespace != "" && !Withheld(s, name, namespace, asked, works)
    ensures var (s', r) := PodCreated(TemplateStored(s, Template(name, namespace)), s.next, Plain(name), namespace,
                                      asked, works);
            && r.Some? && r.value in s'.pods && s'.pods[r.value].template == s.next
            && (forall id | id in s'.pods && id != r.value :: id in s.pods && s'.pods[id] == s.pods[id])
            && s.next in s'.templates && s'.templates[s.next] == Template(name, namespace)
  {
    hide NameTaken, UniqueNames, TemplatesKept;
    var s1 := TemplateStored(s, Template(name, namespace));
    var s2 := s1.(next := s1.next + 1);
    HolderSame(s, s1, Plain(name), namespace);
    HolderSame(s, s2, Plain(name), namespace);
    if asked == "" {
      NameStored(s2, s.next, Plain(name), namespace, Made(s1.next), works);
    } else {
      NameStored(s1, s.next, Plain(name), namespace, Asked(asked), works);
    }
  }

  lemma RequestRefused(s: State, name: string, namespace: string, asked: string, works: bool)
    requires Valid(s) && (name == "" || namespace == "" || Withheld(s, name, namespace, asked, works))
    ensures var s1 := TemplateStored(s, Template(name, namespace));
            var (s', r) := PodCreated(s1, s.next, Plain(name), namespace, asked, works);
            && s'.pods == s.pods && s'.templates == s1.templates
            && (r.Some? ==>
                r == Holder(s, Plain(name), namespace) && asked != "" && s.pods[r.value].uid == Asked(asked))
  {
    var s1 := TemplateStored(s, Template(name, namespace));
    HolderSame(s, s1, Plain(name), namespace);
    HolderSame(s, s1.(next := s1.next + 1), Plain(name), namespace);
    hide Holder, UniqueNames, TemplatesKept, PodStored, PodRemoved;
  }

  /** A request for a pod stores a template first. The template stays behind without a pod
      exactly if name or namespace is missing or somebody withholds the name; and the caller is
      told of a pod all the same exactly if that somebody has the uid asked for. */
  lemma RequestLeavesOrphan(s: State, name: string, namespace: string, asked: string, works: bool)
    requires Valid(s)
    ensures var (s', r) := PodCreated(TemplateStored(s, Template(name, namespace)), s.next, Plain(name), namespace,
                                      asked, works);
            && s.next in s'.templates && s'.templates[s.next] == Template(name, namespace)
            && (Members(s', s.next) == {} <==>
                  name == "" || namespace == "" || Withheld(s, name, namespace, asked, works))
            && (Members(s', s.next) == {} && r.Some? ==>
                  && r == Holder(s, Plain(name), namespace)
                  && asked != "" && s.pods[r.value].uid == Asked(asked) && s'.pods == s.pods)
            && (Members(s', s.next) != {} ==> r.Some? && Members(s', s.next) == {r.value})
  {
    hide PodCreated, Withheld, UniqueNames, TemplatesKept;
    if name != "" && namespace != "" && !Withheld(s, name, namespace, asked, works) {
      RequestStored(s, name, namespace, asked, works);
      var (s', r) := PodCreated(TemplateStored(s, Template(name, namespace)), s.next, Plain(name), namespace, asked,
          works);
      assert r.value in Members(s', s.next);
    } else {
      RequestRefused(s, name, namespace, asked, works);
    }
  }

  lemma TemplateIsNew(s: State, t: nat)
    requires Valid(s) && t == s.next
    ensures t !in s.templates
  {
  }

  lemma ReferencesOnly(s: State, s': State, t: nat)
    requires s.replicaSets == s'.replicaSets
    ensures Referenced(s, t) <==> Referenced(s', t)
  {
  }

  lemma TemplateKeeps(s: State, t: Template)
    requires Valid(s)
    ensures Valid(TemplateStored(s, t))
  {
    var s' := TemplateStored(s, t);
    assert forall r | r in s'.replicaSets :: s'.replicaSets[r].template in s'.templates;
  }
}
