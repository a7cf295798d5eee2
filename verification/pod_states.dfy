/** Which pods run after a turn of the pod controller, and which a user keeps stopped. */
module PodStates {
  import opened Wrappers
  import opened PodStore
  import opened PodOperations
  import opened PodController

  /** A pod that the controller starts again: its members stopped, and no user wants it so. */
  predicate Wakes(p: Pod) {
    !p.stoppedByUser && (p.state == Degraded || p.state == Stopped)
  }

  /** A new pod runs if it could be started. */
  predicate IsFresh(p: Pod, works: bool) {
    p.state == (if works then Running else Created) && !p.stoppedByUser
  }

  /** The pod is the one in the list but that it runs, and no longer counts as stopped by a user. */
  predicate IsWoken(p: Pod, listed: Pod) {
    p.state == Running && !p.stoppedByUser && p == listed.(state := Running, stoppedByUser := false)
  }

  /** The pod is started, or was not. */
  predicate StartedIf(s: State, s': State, id: nat, works: bool) {
    id in s.pods && s' == if works then Started(s, id) else s
  }

  // ----- who is left -----

  /** The pod is listed, among the last `replicas` of the list, and it was there. */
  predicate Retained(s0: State, list: seq<nat>, replicas: nat, id: nat) {
    id in list[if |list| > replicas then |list| - replicas else 0..] && id in s0.pods
  }

  /** Degraded, wanted by no user to stop, and without a running infra container. */
  predicate IsLost(p: Pod, infraRuns: bool) {
    p.state == Degraded && !p.stoppedByUser && !infraRuns
  }

  /** Some listed pod counts as lost; one that is not retained has no running infra container. */
  predicate AnyLost(s0: State, list: seq<nat>, snap: map<nat, Pod>, infraUp: nat -> bool, replicas: nat) {
    exists id :: id in list && id in snap && IsLost(snap[id], Retained(s0, list, replicas, id) && infraUp(id))
  }

  /** Of the listed pods those are left that are retained, are not lost, and do not bear the name
      that a pod made in the place of a lost one takes. */
  ghost predicate LeftExactly(s0: State, s: State, list: seq<nat>, snap: map<nat, Pod>, infraUp: nat -> bool,
      replicas: nat, tpl: Template)
  {
    forall id | id in list ::
      && id in snap
      && (id in s.pods <==>
            && Retained(s0, list, replicas, id) && !IsLost(snap[id], infraUp(id))
            && !(AnyLost(s0, list, snap, infraUp, replicas) && tpl.name != "" && tpl.namespace != "" &&
                 snap[id].name == Plain(tpl.name) && snap[id].namespace == tpl.namespace))
  }

  // ----- scaling -----

  /** Pods of the template are as they were, or new and started if that worked. */
  ghost predicate NewStates(s0: State, s: State, t: nat, starts: nat -> bool) {
    forall id | id in s.pods && s.pods[id].template == t ::
      if id in s0.pods then s.pods[id] == s0.pods[id] else IsFresh(s.pods[id], starts(id))
  }

  lemma AddedStates(s0: State, s: State, s': State, t: nat, starts: nat -> bool, base: string, namespace: string)
    requires Past(s0) && s.next >= s0.next && NewStates(s0, s, t, starts)
    requires StartedIf(Suffixing(s, t, base, namespace), s', s.next + 2, starts(s.next + 2))
    ensures NewStates(s0, s', t, starts)
  {
    assert s.next + 2 !in s0.pods;
    hide Past;
  }

  lemma DroppedStates(s0: State, s: State, t: nat, starts: nat -> bool, id: nat)
    requires NewStates(s0, s, t, starts)
    ensures NewStates(s0, Dropped(s, id), t, starts)
  {
  }

  // ----- a replica set -----

  /** The pods of a set when the first `j` of its list have been looked at. Listed ones are as
      listed, but that those which the controller starts run if that worked; all others are new,
      and run if that worked. */
  ghost predicate SetStates(s: State, list: seq<nat>, snap: map<nat, Pod>, t: nat, starts: nat -> bool, j: nat)
    requires j <= |list|
  {
    forall id | id in s.pods && s.pods[id].template == t ::
      && (id in list ==> id in snap)
      && (id in list[..j] ==>
            if Wakes(snap[id]) && starts(id) then IsWoken(s.pods[id], snap[id]) else s.pods[id] == snap[id])
      && (id in list[j..] ==> s.pods[id] == snap[id])
      && (id !in list ==> IsFresh(s.pods[id], starts(id)))
  }

  lemma ScaledStates(s0: State, s1: State, list: seq<nat>, snap: map<nat, Pod>, t: nat, starts: nat -> bool)
    requires NewStates(s0, s1, t, starts)
    requires forall id | id in list :: id in snap && (id in s0.pods ==> s0.pods[id] == snap[id])
    requires forall id | id in s0.pods && s0.pods[id].template == t :: id in list
    requires forall id | id in s1.pods && id in list :: id in s0.pods
    ensures SetStates(s1, list, snap, t, starts, 0)
  {
    assert list[0..] == list;
    assert forall id :: id !in list[..0];
  }

  lemma ListSplits(list: seq<nat>, j: nat)
    requires j < |list| && NoRepeats(list)
    ensures forall id :: id in list[..j + 1] <==> id in list[..j] || id == list[j]
    ensures forall id :: id in list[j..] <==> id in list[j + 1..] || id == list[j]
    ensures list[j] in list && list[j] !in list[..j] && list[j] !in list[j + 1..]
  {
    assert list[..j + 1] == list[..j] + [list[j]];
    assert list[j..] == [list[j]] + list[j + 1..];
  }

  /** An entry that is not to be started, or is not there. */
  lemma PassedStates(s: State, list: seq<nat>, snap: map<nat, Pod>, t: nat, starts: nat -> bool, j: nat)
    requires j < |list| && NoRepeats(list) && SetStates(s, list, snap, t, starts, j)
    requires list[j] in s.pods && list[j] in snap ==> !(Wakes(snap[list[j]]) && starts(list[j]))
    ensures SetStates(s, list, snap, t, starts, j + 1)
  {
    ListSplits(list, j);
  }

  lemma WokenStates(s: State, list: seq<nat>, snap: map<nat, Pod>, t: nat, starts: nat -> bool, j: nat)
    requires j < |list| && NoRepeats(list) && SetStates(s, list, snap, t, starts, j)
    requires list[j] in s.pods && s.pods[list[j]].template == t && list[j] in snap
    requires Wakes(snap[list[j]]) && starts(list[j])
    ensures SetStates(Started(s, list[j]), list, snap, t, starts, j + 1)
  {
    ListSplits(list, j);
  }

  /** The pod of the entry is gone. */
  lemma GoneStates(s: State, list: seq<nat>, snap: map<nat, Pod>, t: nat, starts: nat -> bool, j: nat)
    requires j < |list| && NoRepeats(list) && SetStates(s, list, snap, t, starts, j)
    ensures SetStates(Dropped(s, list[j]), list, snap, t, starts, j + 1)
  {
    ListSplits(list, j);
  }

  lemma MadeStates(s: State, s': State, list: seq<nat>, snap: map<nat, Pod>, t: nat, tpl: Template, starts: nat -> bool,
      j: nat)
    requires j <= |list| && SetStates(s, list, snap, t, starts, j) && s.next + 1 !in list
    requires StartedIf(Taken(s, t, tpl), s', s.next + 1, starts(s.next + 1))
    ensures SetStates(s', list, snap, t, starts, j)
  {
  }

  /** Pods of a template that another turn has not touched are in the same states. */
  ghost predicate OnlyFewer(s: State, s': State, t: nat) {
    forall id | id in s'.pods && s'.pods[id].template == t :: id in s.pods && s'.pods[id] == s.pods[id]
  }

  lemma SetStatesStay(s: State, s': State, list: seq<nat>, snap: map<nat, Pod>, t: nat, starts: nat -> bool)
    requires SetStates(s, list, snap, t, starts, |list|) && OnlyFewer(s, s', t)
    ensures SetStates(s', list, snap, t, starts, |list|)
  {
  }

  // ----- a template without a replica set -----

  /** The listed pod that the controller would start if none has to be made again: the first
      that is not stopped, if it is degraded and nobody wants it stopped; or, if all are stopped,
      the first of them that nobody wants so. */
  function WokenOf(list: seq<nat>, snap: map<nat, Pod>, stopped: Option<nat>): Option<nat>
    requires forall id | id in list :: id in snap
  {
    if list == [] then stopped
    else
      var p := snap[list[0]];
      if p.state != Stopped then (if p.state == Degraded && !p.stoppedByUser then Some(list[0]) else None)
      else WokenOf(list[1..], snap, if stopped.None? && !p.stoppedByUser then Some(list[0]) else stopped)
  }

  /** The pods of the template after its turn. One listed pod at most has been started; if all
      were there, it is the one that was to be, exactly if that worked and none had to be made
      again. All others are as listed. A new pod is started if it takes the place of another. */
  ghost predicate AloneStates(s: State, list: seq<nat>, snap: map<nat, Pod>, t: nat, starts: nat -> bool, lost: bool,
      there: bool)
    requires forall id | id in list :: id in snap
  {
    forall id | id in s.pods && s.pods[id].template == t ::
      && (id in list ==>
            if there then
              if !lost && WokenOf(list, snap, None) == Some(id) && starts(id) then IsWoken(s.pods[id], snap[id])
              else s.pods[id] == snap[id]
            else
              s.pods[id] == snap[id] ||
              (WokenOf(list, snap, None) == Some(id) && starts(id) && IsWoken(s.pods[id], snap[id])))
      && (id !in list ==> IsFresh(s.pods[id], list != [] && starts(id)))
  }

  lemma AloneWeaker(s: State, list: seq<nat>, snap: map<nat, Pod>, t: nat, starts: nat -> bool, lost: bool,
      there: bool, there': bool)
    requires forall id | id in list :: id in snap
    requires AloneStates(s, list, snap, t, starts, lost, there) && (there' ==> there)
    ensures AloneStates(s, list, snap, t, starts, lost, there')
  {
    hide WokenOf;
  }

  lemma AloneStatesStay(s: State, s': State, list: seq<nat>, snap: map<nat, Pod>, t: nat, starts: nat -> bool,
      lost: bool,
      there: bool)
    requires forall id | id in list :: id in snap
    requires AloneStates(s, list, snap, t, starts, lost, there) && OnlyFewer(s, s', t)
    ensures AloneStates(s', list, snap, t, starts, lost, there)
  {
    hide WokenOf;
  }

  /** The template's pods are the listed ones that are still there. */
  ghost predicate OnlyListed(s: State, list: seq<nat>, snap: map<nat, Pod>, t: nat) {
    forall id | id in s.pods && s.pods[id].template == t :: id in list && id in snap && s.pods[id] == snap[id]
  }

  lemma AloneLeft(s: State, list: seq<nat>, snap: map<nat, Pod>, t: nat, starts: nat -> bool, lost: bool, there: bool)
    requires (forall id | id in list :: id in snap) && OnlyListed(s, list, snap, t)
    requires there && !lost && WokenOf(list, snap, None).Some? ==>
               !starts(WokenOf(list, snap, None).value) || WokenOf(list, snap, None).value !in s.pods
    ensures AloneStates(s, list, snap, t, starts, lost, there)
  {
    hide WokenOf;
  }

  lemma AloneWoken(s: State, list: seq<nat>, snap: map<nat, Pod>, t: nat, starts: nat -> bool, lost: bool, there: bool,
      id: nat)
    requires (forall id | id in list :: id in snap) && OnlyListed(s, list, snap, t)
    requires WokenOf(list, snap, None) == Some(id) && starts(id) && id in s.pods && (there ==> !lost)
    ensures AloneStates(Started(s, id), list, snap, t, starts, lost, there)
  {
    hide WokenOf;
  }

  lemma AloneMade(s: State, s': State, list: seq<nat>, snap: map<nat, Pod>, t: nat, tpl: Template, starts: nat -> bool,
      lost: bool, there: bool)
    requires (forall id | id in list :: id in snap && id <= s.next) && OnlyListed(s, list, snap, t)
    requires StartedIf(Taken(s, t, tpl), s', s.next + 1, list != [] && starts(s.next + 1)) &&
            (there ==> lost || list == [])
    ensures AloneStates(s', list, snap, t, starts, lost, there)
  {
    hide WokenOf;
  }
}
