/** A whole pass of the pod controller, from one list of the pods. */
module PodPass {
  import opened Wrappers
  import opened PodStore
  import opened PodOperations
  import opened PodController
  import opened PodStates
  import opened PodReconcile

  // ----- who disturbs whom -----

  /** The template's turn may make a pod under the template's name: a set with a degraded pod,
      a template of its own without pods or with a pod whose infra container does not run. */
  ghost predicate MayRemake(s: State, u: nat, infraUp: nat -> bool) {
    if Referenced(s, u) then exists id | id in Members(s, u) ::
        id in s.pods && !s.pods[id].stoppedByUser && s.pods[id].state == Degraded
    else Members(s, u) == {} || exists id | id in Members(s, u) ::
        id in s.pods && !s.pods[id].stoppedByUser && !infraUp(id)
  }

  /** No turn of another template can take a pod of this one away: whoever may make a pod under
      its name shares that name neither with a pod of this template nor with a pod that this
      template may itself make. */
  ghost predicate Undisturbed(s: State, t: nat, infraUp: nat -> bool) {
    forall u | u in s.templates && u != t && MayRemake(s, u, infraUp) ::
      && !Bears(s, s.templates[u], t)
      && (t in s.templates && s.templates[t] == s.templates[u] ==> !MayRemake(s, t, infraUp))
  }

  /** No pod bears the name of another pod's template, and no two templates share one. */
  ghost predicate NoClash(s: State) {
    && (forall u, t | u in s.templates && u != t :: !Bears(s, s.templates[u], t))
    && (forall t, u | t in s.templates && u in s.templates && s.templates[t] == s.templates[u] :: t == u)
  }

  lemma NoClashUndisturbed(s: State, t: nat, infraUp: nat -> bool)
    requires NoClash(s)
    ensures Undisturbed(s, t, infraUp)
  {
    hide Bears, MayRemake;
  }

  /** With no degraded pod in any set, and every other template with its pods up, nobody is
      disturbed, whatever names are shared. */
  lemma QuietUndisturbed(s: State, t: nat, infraUp: nat -> bool)
    requires forall u | u in s.templates :: !MayRemake(s, u, infraUp)
    ensures Undisturbed(s, t, infraUp)
  {
  }

  // ----- what a pass has done so far -----

  /** Every pod of the template was there at the start under the same name, or has a new suffix,
      or was made under the template's name by a template that may do that. */
  ghost predicate Traced(s0: State, s: State, t: nat, infraUp: nat -> bool) {
    forall id | id in Members(s, t) :: id in s.pods && FromBefore(s0, s.pods[id], id, t, infraUp)
  }

  ghost predicate FromBefore(s0: State, p: Pod, id: nat, t: nat, infraUp: nat -> bool) {
    || (id in s0.pods && SameFace(s0.pods[id], p))
    || p.name.Suffixed?
    || (t in s0.templates && MayRemake(s0, t, infraUp) && HasTemplateName(p, s0.templates[t]))
  }

  lemma TracedStart(s: State, t: nat, infraUp: nat -> bool)
    ensures Traced(s, s, t, infraUp)
  {
    hide MayRemake, HasTemplateName;
  }

  /** The store between two turns of a pass that began in `s0`. */
  ghost predicate Underway(s0: State, s: State, infraUp: nat -> bool) {
    && Past(s0) && Valid(s) && Keeps(s0, s)
    && (forall u | u in s.templates :: u in s0.templates && s.templates[u] == s0.templates[u])
    && (forall u :: Traced(s0, s, u, infraUp))
  }

  /** A template whose turn is still to come has lost pods at most, and a template of its own
      that is still stored has not even done that; an undisturbed one is as it was. */
  ghost predicate Waiting(s0: State, s: State, t: nat, infraUp: nat -> bool) {
    && (forall id | id in Members(s, t) ::
        id in Members(s0, t) && id in s.pods && id in s0.pods && s.pods[id] == s0.pods[id])
    && (forall id | id in Members(s0, t) :: id in s.pods ==> id in Members(s, t))
    && (t in s0.templates && !Referenced(s0, t) && t in s.templates ==> Untouched(s0, s, t))
    && (Undisturbed(s0, t, infraUp) ==> Untouched(s0, s, t) && (t in s0.templates ==> t in s.templates))
  }

  lemma WaitingStart(s: State, t: nat, infraUp: nat -> bool)
    ensures Waiting(s, s, t, infraUp)
  {
    hide Undisturbed;
  }

  /** A turn, seen from the start of the pass. */
  ghost predicate Turn(s0: State, s: State, s': State, u: nat, takes: bool, infraUp: nat -> bool) {
    && u in s0.templates
    && Steady(s, s', u, s0.templates[u], takes)
    && Accounted(s, s', u, s0.templates[u], takes)
    && (takes ==> MayRemake(s0, u, infraUp))
  }

  lemma TurnTraced(s0: State, s: State, s': State, u: nat, takes: bool, infraUp: nat -> bool, t: nat)
    requires Turn(s0, s, s', u, takes, infraUp) && Traced(s0, s, u, infraUp) && Traced(s0, s, t, infraUp)
    ensures Traced(s0, s', t, infraUp)
  {
    hide MayRemake, HasTemplateName, Valid, Past;
    forall id | id in Members(s', t) ensures id in s'.pods && FromBefore(s0, s'.pods[id], id, t, infraUp) {
      if t == u {
        if id in Members(s, u) && id in s.pods && SameFace(s.pods[id], s'.pods[id]) {
          assert FromBefore(s0, s.pods[id], id, u, infraUp);
          SameFrom(s0, s.pods[id], s'.pods[id], id, t, infraUp);
        }
      } else {
        assert id in Members(s, t);
      }
    }
  }

  lemma SameFrom(s0: State, p: Pod, q: Pod, id: nat, t: nat, infraUp: nat -> bool)
    requires SameFace(p, q) && FromBefore(s0, p, id, t, infraUp)
    ensures FromBefore(s0, q, id, t, infraUp)
  {
    hide MayRemake;
  }

  lemma TurnUnderway(s0: State, s: State, s': State, u: nat, takes: bool, infraUp: nat -> bool)
    requires Underway(s0, s, infraUp) && Turn(s0, s, s', u, takes, infraUp)
    ensures Underway(s0, s', infraUp)
  {
    forall t ensures Traced(s0, s', t, infraUp) {
      TurnTraced(s0, s, s', u, takes, infraUp, t);
    }
    hide Traced, Accounted, Valid, Past, MayRemake;
  }

  /** An undisturbed template is not touched by the turn of another. */
  lemma TurnPasses(s0: State, s: State, s': State, u: nat, takes: bool, infraUp: nat -> bool, t: nat)
    requires Turn(s0, s, s', u, takes, infraUp) && Traced(s0, s, t, infraUp) && t != u && Undisturbed(s0, t, infraUp)
    ensures Untouched(s, s', t)
  {
    hide Valid, Past, Accounted, MayRemake, Referenced;
    var tpl := s0.templates[u];
    forall id | id in Members(s, t) && takes ensures !HasTemplateName(s.pods[id], tpl) {
      assert FromBefore(s0, s.pods[id], id, t, infraUp);
      if HasTemplateName(s.pods[id], tpl) {
        NotTraced(s0, s.pods[id], id, t, u, infraUp);
      }
    }
  }

  lemma NotTraced(s0: State, p: Pod, id: nat, t: nat, u: nat, infraUp: nat -> bool)
    requires u in s0.templates && t != u && MayRemake(s0, u, infraUp) && Undisturbed(s0, t, infraUp)
    requires p.template == t && HasTemplateName(p, s0.templates[u])
    ensures !FromBefore(s0, p, id, t, infraUp)
  {
    hide MayRemake;
  }

  /** What the turn of another template does to one whose turn is still to come. */
  lemma TurnWaiting(s0: State, s: State, s': State, u: nat, takes: bool, infraUp: nat -> bool, t: nat)
    requires Underway(s0, s, infraUp) && Turn(s0, s, s', u, takes, infraUp) && Waiting(s0, s, t, infraUp) && t != u
    ensures Waiting(s0, s', t, infraUp)
  {
    hide Valid, Past, Accounted, MayRemake, Undisturbed, Traced;
    if Undisturbed(s0, t, infraUp) {
      TurnPasses(s0, s, s', u, takes, infraUp, t);
      UntouchedChain(s0, s, s', t);
      TurnKeeps(s0, s, s', u, takes, infraUp, t);
    }
    if t in s0.templates && !Referenced(s0, t) && t in s'.templates {
      KeptTemplate(s0, s, s', u, takes, t);
      UntouchedChain(s0, s, s', t);
    }
    WaitingPods(s0, s, s', u, takes, t);
  }

  lemma TurnKeeps(s0: State, s: State, s': State, u: nat, takes: bool, infraUp: nat -> bool, t: nat)
    requires Turn(s0, s, s', u, takes, infraUp) && Traced(s0, s, t, infraUp) && t != u && Undisturbed(s0, t, infraUp)
    ensures t in s.templates ==> t in s'.templates
  {
    hide Valid, Past, Accounted, MayRemake, Referenced;
    var tpl := s0.templates[u];
    if takes && Bears(s, tpl, t) {
      var id :| id in s.pods && HasTemplateName(s.pods[id], tpl) && s.pods[id].template == t;
      assert id in Members(s, t);
      NotTraced(s0, s.pods[id], id, t, u, infraUp);
    }
  }

  lemma WaitingPods(s0: State, s: State, s': State, u: nat, takes: bool, t: nat)
    requires u in s0.templates && Past(s0) && Keeps(s0, s) && Steady(s, s', u, s0.templates[u], takes) && t != u
    requires forall id | id in Members(s, t) ::
            id in Members(s0, t) && id in s.pods && id in s0.pods && s.pods[id] == s0.pods[id]
    requires forall id | id in Members(s0, t) :: id in s.pods ==> id in Members(s, t)
    ensures forall id | id in Members(s', t) ::
            id in Members(s0, t) && id in s'.pods && id in s0.pods && s'.pods[id] == s0.pods[id]
    ensures forall id | id in Members(s0, t) :: id in s'.pods ==> id in Members(s', t)
  {
    hide Valid, HasTemplateName, Bears, Referenced;
    forall id | id in Members(s', t) ensures id in Members(s, t) && s'.pods[id] == s.pods[id] {
    }
  }

  /** A template of its own that is still stored has lost no pod in the turn. */
  lemma KeptTemplate(s0: State, s: State, s': State, u: nat, takes: bool, t: nat)
    requires u in s0.templates && Steady(s, s', u, s0.templates[u], takes) && t != u
    requires t in s'.templates && !Referenced(s0, t) && s.replicaSets == s0.replicaSets
    ensures t in s.templates && Untouched(s, s', t)
  {
    hide Valid, Past;
    ReferencesOnly(s0, s, t);
    assert !(takes && Bears(s, s0.templates[u], t));
    hide Referenced;
  }

  // ----- lists -----

  /** A list of all pods and what it says of each. */
  ghost predicate ListsAll(s: State, order: seq<nat>, snap: map<nat, Pod>) {
    NoRepeats(order) && snap == s.pods && forall id :: id in order <==> id in s.pods
  }

  lemma StillListed(s0: State, s: State, order: seq<nat>, snap: map<nat, Pod>, t: nat, infraUp: nat -> bool)
    requires ListsAll(s0, order, snap) && Past(s0) && Keeps(s0, s) && Waiting(s0, s, t, infraUp)
    ensures Listed(s, Filtered(order, snap, t), snap, t)
    ensures forall id :: id in Filtered(order, snap, t) <==> id in Members(s0, t)
    ensures Untouched(s0, s, t) ==>
            Gone(s, Filtered(order, snap, t), t) == {} && forall id | id in Filtered(order, snap, t) :: id in s.pods
  {
    FilteredExactly(order, snap, t);
    hide Filtered, Undisturbed, Referenced;
    assert forall id :: id in Filtered(order, snap, t) <==> id in Members(s0, t);
  }

  method FilterByTemplate(order: seq<nat>, snap: map<nat, Pod>, t: nat) returns (list: seq<nat>)
    ensures list == Filtered(order, snap, t)
  {
    list := [];
    var i := 0;
    while i < |order|
      invariant 0 <= i <= |order| && list == Filtered(order[..i], snap, t)
    {
      assert order[..i + 1][..i] == order[..i];
      if order[i] in snap && snap[order[i]].template == t {
        list := list + [order[i]];
      }
      i := i + 1;
    }
    assert order[..i] == order;
  }

  // ----- the replica sets -----

  ghost predicate SetsListed(s: State, sets: seq<ReplicaSet>) {
    && (forall rs | rs in sets :: rs.replicas >= 0 && rs.template in s.templates && Referenced(s, rs.template))
    && (forall i, j | 0 <= i < j < |sets| :: sets[i].template != sets[j].template)
  }

  /** How many pods a set will have, as the list taken at the start determines it. */
  function Outcome(s: State, rs: ReplicaSet, order: seq<nat>, infraUp: nat -> bool): int
    requires rs.template in s.templates && rs.replicas >= 0
  {
    FilteredInSnap(order, s.pods, rs.template);
    CountAfter(Filtered(order, s.pods, rs.template), s.pods, infraUp, rs.replicas, s.templates[rs.template], {})
  }

  lemma {:induction false} FilteredInSnap(order: seq<nat>, snap: map<nat, Pod>, t: nat)
    ensures forall id | id in Filtered(order, snap, t) :: id in snap
  {
    if order != [] {
      FilteredInSnap(order[..|order| - 1], snap, t);
    }
  }

  /** The counts of a set whose turn has been: never more than one too many, and the foretold
      number if nobody disturbs it. */
  ghost predicate Counted(s0: State, s: State, rs: ReplicaSet, order: seq<nat>, infraUp: nat -> bool) {
    && rs.template in s0.templates && rs.replicas >= 0
    && |Members(s, rs.template)| <= rs.replicas + 1
    && (Undisturbed(s0, rs.template, infraUp) ==> |Members(s, rs.template)| == Outcome(s0, rs, order, infraUp))
  }

  lemma TurnCounted(s0: State, s: State, s': State, u: nat, takes: bool, infraUp: nat -> bool, rs: ReplicaSet,
      order: seq<nat>)
    requires Underway(s0, s, infraUp) && Turn(s0, s, s', u, takes, infraUp) && rs.template != u
    requires Counted(s0, s, rs, order, infraUp)
    ensures Counted(s0, s', rs, order, infraUp)
  {
    hide Valid, Past, Outcome, Undisturbed, Accounted, MayRemake, Traced;
    FewerMembers(s, s', u, s0.templates[u], takes, rs.template);
    if Undisturbed(s0, rs.template, infraUp) {
      TurnPasses(s0, s, s', u, takes, infraUp, rs.template);
    }
  }

  lemma FewerMembers(s: State, s': State, u: nat, tpl: Template, takes: bool, t: nat)
    requires Steady(s, s', u, tpl, takes) && t != u
    ensures Members(s', t) <= Members(s, t) && |Members(s', t)| <= |Members(s, t)|
  {
    hide Valid, Past, HasTemplateName, Bears;
    assert Members(s', t) <= Members(s, t);
    SizeWithout(Members(s, t), Members(s, t) - Members(s', t));
    assert Members(s, t) - (Members(s, t) - Members(s', t)) == Members(s', t);
  }

  /** The first `i` sets have had their turn. */
  ghost predicate SetsDone(s0: State, s: State, sets: seq<ReplicaSet>, order: seq<nat>, infraUp: nat -> bool, i: nat)
    requires i <= |sets|
  {
    && Underway(s0, s, infraUp)
    && (forall j | 0 <= j < i :: Counted(s0, s, sets[j], order, infraUp))
    && (forall t | (forall j | 0 <= j < i :: sets[j].template != t) :: Waiting(s0, s, t, infraUp))
  }

  lemma SetsDoneStart(s: State, sets: seq<ReplicaSet>, order: seq<nat>, infraUp: nat -> bool)
    requires Valid(s)
    ensures SetsDone(s, s, sets, order, infraUp, 0)
  {
    assert Past(s);
    hide Valid, Past, Traced, Waiting;
    forall t ensures Traced(s, s, t, infraUp) && Waiting(s, s, t, infraUp) {
      TracedStart(s, t, infraUp);
      WaitingStart(s, t, infraUp);
    }
  }

  lemma SetsDoneNext(s0: State, s: State, s': State, sets: seq<ReplicaSet>, order: seq<nat>, infraUp: nat -> bool,
      i: nat, takes: bool)
    requires i < |sets| && SetsListed(s0, sets) && SetsDone(s0, s, sets, order, infraUp, i)
    requires Turn(s0, s, s', sets[i].template, takes, infraUp) && Counted(s0, s', sets[i], order, infraUp)
    ensures SetsDone(s0, s', sets, order, infraUp, i + 1)
  {
    hide Underway, Turn, Counted, Waiting;
    TurnUnderway(s0, s, s', sets[i].template, takes, infraUp);
    forall j | 0 <= j < i ensures Counted(s0, s', sets[j], order, infraUp) {
      TurnCounted(s0, s, s', sets[i].template, takes, infraUp, sets[j], order);
    }
    forall t | (forall j | 0 <= j < i + 1 :: sets[j].template != t) ensures Waiting(s0, s', t, infraUp) {
      assert sets[i].template != t;
      TurnWaiting(s0, s, s', sets[i].template, takes, infraUp, t);
    }
  }

  lemma SetsDoneHas(s0: State, s: State, sets: seq<ReplicaSet>, order: seq<nat>, snap: map<nat, Pod>,
      infraUp: nat -> bool, i: nat)
    requires i < |sets| && SetsListed(s0, sets) && SetsDone(s0, s, sets, order, infraUp, i) && ListsAll(s0, order, snap)
    ensures var t := sets[i].template;
            && Valid(s) && sets[i].replicas >= 0 && t in s0.templates && t in s.templates &&
                s.templates[t] == s0.templates[t]
            && Referenced(s, t) && Listed(s, Filtered(order, snap, t), snap, t) && Waiting(s0, s, t, infraUp)
  {
    hide Waiting, Listed, Counted, Traced, ListsAll;
    var t := sets[i].template;
    assert Waiting(s0, s, t, infraUp);
    StillListed(s0, s, order, snap, t, infraUp);
    assert sets[i] in sets;
    ReferencesOnly(s0, s, t);
    var r :| r in s0.replicaSets && s0.replicaSets[r].template == t;
    assert TemplatesKept(s) && s.replicaSets[r].template == t;
  }

  /** A set's own turn, seen from the start of the pass. */
  lemma OwnTurn(s0: State, s: State, s': State, rs: ReplicaSet, order: seq<nat>, snap: map<nat, Pod>,
      infraUp: nat -> bool, takes: bool)
    requires ListsAll(s0, order, snap) && Underway(s0, s, infraUp) && Waiting(s0, s, rs.template, infraUp)
    requires rs.template in s0.templates && rs.replicas >= 0 && Referenced(s0, rs.template)
    requires var (tpl, list) := (s0.templates[rs.template], Filtered(order, snap, rs.template));
             var gone := Gone(s, list, rs.template);
             && Listed(s, list, snap, rs.template)
             && Steady(s, s', rs.template, tpl, takes) && Accounted(s, s', rs.template, tpl, takes)
             && |Members(s', rs.template)| == CountAfter(list, snap, infraUp, rs.replicas, tpl, gone)
             && (takes <==> Proper(tpl) && LostOf(list, snap, infraUp, Kept(list, rs.replicas, gone), |list|) != {})
    ensures Turn(s0, s, s', rs.template, takes, infraUp) && Counted(s0, s', rs, order, infraUp)
  {
    hide Valid, Past, Steady, Accounted, CountAfter, Undisturbed, Traced, Members, Gone, Filtered, Kept, Listed, Proper;
    var t := rs.template;
    var list := Filtered(order, snap, t);
    StillListed(s0, s, order, snap, t, infraUp);
    ListedHas(s, list, snap, t);
    CountAtMost(list, snap, infraUp, rs.replicas, s0.templates[t], Gone(s, list, t));
    if takes {
      LostRemake(s0, list, snap, t, infraUp, Kept(list, rs.replicas, Gone(s, list, t)));
    }
  }

  lemma LostRemake(s0: State, list: seq<nat>, snap: map<nat, Pod>, t: nat, infraUp: nat -> bool, kept: set<nat>)
    requires snap == s0.pods && Referenced(s0, t) && (forall id | id in list :: id in snap && id in Members(s0, t))
    requires LostOf(list, snap, infraUp, kept, |list|) != {}
    ensures MayRemake(s0, t, infraUp)
  {
    hide Referenced;
    var id :| id in LostOf(list, snap, infraUp, kept, |list|);
    assert id in list && id in Members(s0, t);
  }

  method ReconcileSets(c: Controller, sets: seq<ReplicaSet>, order: seq<nat>, snap: map<nat, Pod>,
                       infraUp: nat -> bool, starts: nat -> bool)
    requires Valid(c.service.Now()) && SetsListed(c.service.Now(), sets) && ListsAll(c.service.Now(), order, snap)
    modifies c.service
    ensures SetsDone(old(c.service.Now()), c.service.Now(), sets, order, infraUp, |sets|)
    ensures SetsStated(old(c.service.Now()), c.service.Now(), sets, order, infraUp, starts, |sets|)
  {
    hide SetStates, SetsStated;
    hide Valid, SetsListed, ListsAll, SetsDone, Listed, Referenced, Proper, CountAfter, Members, Steady, Filtered,
        Waiting,
      Underway, Turn, Counted, Accounted, LostOf, Kept, Gone, Untouched, Bears;
    ghost var s0 := c.service.Now();
    SetsDoneStart(s0, sets, order, infraUp);
    NoneStated(s0, sets, order, infraUp, starts);
    var i := 0;
    while i < |sets|
      invariant 0 <= i <= |sets|
      invariant SetsDone(s0, c.service.Now(), sets, order, infraUp, i)
      invariant SetsStated(s0, c.service.Now(), sets, order, infraUp, starts, i)
    {
      ghost var s := c.service.Now();
      SetsDoneHas(s0, s, sets, order, snap, infraUp, i);
      SetsDoneUnderway(s0, s, sets, order, infraUp, i);
      SetsReferenced(s0, sets, i);
      var list := FilterByTemplate(order, snap, sets[i].template);
      ghost var takes := c.ReconcileSet(sets[i], list, snap, infraUp, starts);
      OwnTurn(s0, s, c.service.Now(), sets[i], order, snap, infraUp, takes);
      SetsDoneNext(s0, s, c.service.Now(), sets, order, infraUp, i, takes);
      SetsStatedNext(s0, s, c.service.Now(), sets, order, snap, infraUp, starts, i, takes);
      i := i + 1;
    }
  }

  /** How the pods of a template stand after its turn and those of others, by the list that was
      taken at the start. */
  ghost predicate PassStates(s0: State, s: State, t: nat, order: seq<nat>, infraUp: nat -> bool, starts: nat -> bool) {
    FilteredInSnap(order, s0.pods, t);
    var list := Filtered(order, s0.pods, t);
    if Referenced(s0, t) then SetStates(s, list, s0.pods, t, starts, |list|)
    else AloneStates(s, list, s0.pods, t, starts, LostAlone(list, s0.pods, infraUp).Some?, Undisturbed(s0, t, infraUp))
  }

  lemma StatesStay(s0: State, s: State, s': State, u: nat, takes: bool, t: nat, order: seq<nat>, infraUp: nat -> bool,
      starts: nat -> bool)
    requires u in s0.templates && Steady(s, s', u, s0.templates[u], takes) && t != u
    requires PassStates(s0, s, t, order, infraUp, starts)
    ensures PassStates(s0, s', t, order, infraUp, starts)
  {
    TurnFewer(s, s', u, s0.templates[u], takes, t);
    hide Steady, SetStates, AloneStates, OnlyFewer, Undisturbed, LostAlone, Filtered;
    FilteredInSnap(order, s0.pods, t);
    var list := Filtered(order, s0.pods, t);
    if Referenced(s0, t) {
      SetStatesStay(s, s', list, s0.pods, t, starts);
    } else {
      AloneStatesStay(s, s', list, s0.pods, t, starts, LostAlone(list, s0.pods, infraUp).Some?,
        Undisturbed(s0, t, infraUp));
    }
  }

  lemma TurnFewer(s: State, s': State, u: nat, tpl: Template, takes: bool, t: nat)
    requires Steady(s, s', u, tpl, takes) && t != u
    ensures OnlyFewer(s, s', t)
  {
    hide Valid, Past;
  }

  ghost predicate SetsStated(s0: State, s: State, sets: seq<ReplicaSet>, order: seq<nat>, infraUp: nat -> bool,
      starts: nat -> bool, i: nat)
    requires i <= |sets|
  {
    forall j | 0 <= j < i :: PassStates(s0, s, sets[j].template, order, infraUp, starts)
  }

  lemma NoneStated(s: State, sets: seq<ReplicaSet>, order: seq<nat>, infraUp: nat -> bool, starts: nat -> bool)
    ensures SetsStated(s, s, sets, order, infraUp, starts, 0)
  {
  }

  lemma SetsStatedNext(s0: State, s: State, s': State, sets: seq<ReplicaSet>, order: seq<nat>, snap: map<nat, Pod>,
      infraUp: nat -> bool, starts: nat -> bool, i: nat, takes: bool)
    requires i < |sets| && SetsListed(s0, sets) && ListsAll(s0, order, snap)
    requires SetsStated(s0, s, sets, order, infraUp, starts, i)
    requires sets[i].template in s0.templates && Referenced(s0, sets[i].template)
    requires Steady(s, s', sets[i].template, s0.templates[sets[i].template], takes)
    requires var list := Filtered(order, snap, sets[i].template);
             SetStates(s', list, snap, sets[i].template, starts, |list|)
    ensures SetsStated(s0, s', sets, order, infraUp, starts, i + 1)
  {
    hide Steady, Referenced, SetStates, AloneStates;
    forall j | 0 <= j < i ensures PassStates(s0, s', sets[j].template, order, infraUp, starts) {
      StatesStay(s0, s, s', sets[i].template, takes, sets[j].template, order, infraUp, starts);
    }
  }

  lemma SetsDoneUnderway(s0: State, s: State, sets: seq<ReplicaSet>, order: seq<nat>, infraUp: nat -> bool, i: nat)
    requires i <= |sets| && SetsDone(s0, s, sets, order, infraUp, i)
    ensures Underway(s0, s, infraUp)
  {
  }

  lemma SetsReferenced(s: State, sets: seq<ReplicaSet>, i: nat)
    requires i < |sets| && SetsListed(s, sets)
    ensures Referenced(s, sets[i].template)
  {
  }

  // ----- the other templates -----

  /** The listed pod that the controller would make again: the first without a running infra
      container, if only stopped pods come before it. */
  function LostAlone(list: seq<nat>, snap: map<nat, Pod>, infraUp: nat -> bool): Option<nat>
    requires forall id | id in list :: id in snap
  {
    if list == [] then None
    else if !snap[list[0]].stoppedByUser && !infraUp(list[0]) then Some(list[0])
    else if snap[list[0]].state != Stopped then None
    else LostAlone(list[1..], snap, infraUp)
  }

  lemma {:induction false} LostAloneListed(list: seq<nat>, snap: map<nat, Pod>, infraUp: nat -> bool)
    requires forall id | id in list :: id in snap
    ensures var r := LostAlone(list, snap, infraUp);
            r.Some? ==> r.value in list && !snap[r.value].stoppedByUser && !infraUp(r.value)
  {
    if list != [] {
      LostAloneListed(list[1..], snap, infraUp);
    }
  }

  /** What the turn of a template without a replica set has come to. */
  ghost predicate TurnedAlone(s: State, s': State, t: nat, tpl: Template, takes: bool) {
    Steady(s, s', t, tpl, takes) && Accounted(s, s', t, tpl, takes)
  }

  lemma AloneStart(s: State, t: nat, tpl: Template)
    requires Valid(s)
    ensures TurnedAlone(s, s, t, tpl, false)
  {
    hide Valid;
    SteadyStart(s, t, tpl);
    assert forall id | id in Members(s, t) :: id in s.pods;
    hide Steady;
  }

  lemma AloneStarted(s: State, s': State, t: nat, tpl: Template, takes: bool, id: nat)
    requires TurnedAlone(s, s', t, tpl, takes) && id in s'.pods && s'.pods[id].template == t
    ensures TurnedAlone(s, Started(s', id), t, tpl, takes) && Members(Started(s', id), t) == Members(s', t)
  {
    hide Valid, Others, Past, Members, HasTemplateName;
    StartingKeeps(s', id);
    StartedOthers(s', t, tpl, id);
    SteadyChain(s, s', Started(s', id), t, tpl, takes, false);
    hide Steady, Started;
    forall x | x in Members(s', t)
      ensures x in Started(s', id).pods && SameFace(s'.pods[x], Started(s', id).pods[x])
    {
    }
    FaceNames(tpl);
  }

  lemma MembersThere(s: State, t: nat)
    ensures forall id | id in Members(s, t) :: id in s.pods
  {
  }

  lemma FaceNames(tpl: Template)
    ensures forall p, q | SameFace(p, q) :: HasTemplateName(p, tpl) <==> HasTemplateName(q, tpl)
  {
  }

  lemma AloneDropped(s: State, t: nat, tpl: Template, id: nat)
    requires Valid(s) && (id in s.pods ==> s.pods[id].template == t)
    ensures TurnedAlone(s, Dropped(s, id), t, tpl, false)
  {
    hide Valid, Others, Past;
    AloneStart(s, t, tpl);
    DroppingPodKeeps(s, id);
    DroppedOthers(s, t, tpl, id);
    SteadyChain(s, s, Dropped(s, id), t, tpl, false, false);
    hide Steady;
  }

  /** A pod has been made under the template's name, after `s1` was reached. */
  lemma AloneTaken(s: State, s1: State, t: nat, tpl: Template)
    requires TurnedAlone(s, s1, t, tpl, false) && Valid(Taken(s1, t, tpl))
    ensures TurnedAlone(s, Taken(s1, t, tpl), t, tpl, true)
    ensures s1.next + 1 in Taken(s1, t, tpl).pods && Taken(s1, t, tpl).pods[s1.next + 1].template == t
    ensures Members(Taken(s1, t, tpl), t) != {}
  {
    hide Valid, Others, Past, Members, Namesakes, Taken;
    TakenOthers(s1, t, tpl);
    TakenMembers(s1, t, tpl);
    SteadyChain(s, s1, Taken(s1, t, tpl), t, tpl, false, true);
    NewPodBears(t, tpl, s1.next);
    MembersThere(Taken(s1, t, tpl), t);
    hide Steady, HasTemplateName;
    assert s1.next + 1 in Members(Taken(s1, t, tpl), t);
  }

  /** A pod is made from the template, if the template is still stored and can make one. */
  method RecreateFromTemplate(c: Controller, t: nat, ghost tpl: Template, ghost s: State) returns (r: Option<nat>)
    requires Valid(c.service.Now()) && (t in c.service.templates ==> c.service.templates[t] == tpl)
    requires TurnedAlone(s, c.service.Now(), t, tpl, false)
    modifies c.service
    ensures Valid(c.service.Now()) && TurnedAlone(s, c.service.Now(), t, tpl, r.Some?)
    ensures r.Some? <==> t in old(c.service.templates) && Proper(tpl)
    ensures if r.Some? then r.value in c.service.pods && c.service.pods[r.value].template == t &&
            Members(c.service.Now(), t) != {}
            else c.service.Now() == old(c.service.Now())
    ensures r.Some? ==> c.service.Now() == Taken(old(c.service.Now()), t, tpl) && r.value == old(c.service.next) + 1
  {
    hide Valid, PodCreated, Taken, TurnedAlone, Members;
    ghost var s1 := c.service.Now();
    if t in c.service.templates {
      if Proper(c.service.templates[t]) {
        TakesExactly(s1, t, tpl);
      } else {
        ImproperFails(s1, t, tpl);
      }
    }
    r := c.service.CreateFromTemplate(t, None, true);
    if r.Some? {
      assert c.service.Now() == Taken(s1, t, tpl) && r == Some(s1.next + 1);
      AloneTaken(s, s1, t, tpl);
    }
  }

  method StartPod(c: Controller, id: nat, t: nat, starts: nat -> bool, ghost s: State, ghost tpl: Template,
      ghost takes: bool)
    requires Valid(c.service.Now()) && TurnedAlone(s, c.service.Now(), t, tpl, takes)
    requires id in c.service.pods ==> c.service.pods[id].template == t
    modifies c.service
    ensures Valid(c.service.Now()) && TurnedAlone(s, c.service.Now(), t, tpl, takes)
    ensures Members(c.service.Now(), t) == Members(old(c.service.Now()), t)
    ensures c.service.Now() == if id in old(c.service.pods) && starts(id) then Started(old(c.service.Now()), id)
                               else old(c.service.Now())
  {
    hide TurnedAlone, Valid, Started, Members;
    if id in c.service.pods {
      AloneStarted(s, c.service.Now(), t, tpl, takes, id);
    }
    var started := c.service.Start(id, starts(id));
  }

  /** A pod without a running infra container goes, and is made again if that is possible. */
  method RecreateLost(c: Controller, id: nat, t: nat, starts: nat -> bool,
      ghost tpl: Template) returns (ghost takes: bool)
    requires Valid(c.service.Now()) && (t in c.service.templates ==> c.service.templates[t] == tpl)
    requires id in c.service.pods ==> c.service.pods[id].template == t
    modifies c.service
    ensures TurnedAlone(old(c.service.Now()), c.service.Now(), t, tpl, takes)
    ensures takes <==> t in old(c.service.templates) && Proper(tpl)
    ensures takes ==> Members(c.service.Now(), t) != {}
    ensures var s1 := Dropped(old(c.service.Now()), id);
            if takes then StartedIf(Taken(s1, t, tpl), c.service.Now(), s1.next + 1, starts(s1.next + 1))
            else c.service.Now() == s1
  {
    hide Valid, TurnedAlone, Proper, Members, Dropped, Taken, Started;
    ghost var s := c.service.Now();
    AloneDropped(s, t, tpl, id);
    DroppedNext(s, id);
    var found := c.service.DropPod(id);
    var made := RecreateFromTemplate(c, t, tpl, s);
    takes := made.Some?;
    if made.Some? {
      StartPod(c, made.value, t, starts, s, tpl, true);
    }
  }

  /** A template without pods gets one, if one can be made from it; it is not started. */
  method MakeFirst(c: Controller, t: nat, list: seq<nat>, snap: map<nat, Pod>, ghost starts: nat -> bool,
      ghost tpl: Template, ghost lost: bool, ghost there: bool)
    returns (ghost takes: bool)
    requires Valid(c.service.Now()) && (t in c.service.templates ==> c.service.templates[t] == tpl)
    requires list == [] && OnlyListed(c.service.Now(), list, snap, t)
    modifies c.service
    ensures TurnedAlone(old(c.service.Now()), c.service.Now(), t, tpl, takes)
    ensures takes <==> t in old(c.service.templates) && Proper(tpl)
    ensures takes ==> Members(c.service.Now(), t) != {}
    ensures AloneStates(c.service.Now(), list, snap, t, starts, lost, there)
  {
    hide Valid, TurnedAlone, Proper, Members, AloneStates, OnlyListed, WokenOf, Taken;
    ghost var s := c.service.Now();
    AloneStart(s, t, tpl);
    var made := RecreateFromTemplate(c, t, tpl, s);
    takes := made.Some?;
    if made.Some? {
      AloneMadeNow(s, c.service.Now(), list, snap, t, tpl, starts, lost, there);
    } else {
      NothingWoken(list, snap);
      AloneLeft(s, list, snap, t, starts, lost, there);
    }
  }

  /** The turn of a template without a replica set. Nothing is made once the template is no
      longer stored. While it is and its listed pods are there, a pod is made exactly if none
      is listed or one is lost, and if one can be made the template has a pod afterwards. */
  method ReconcileTemplate(c: Controller, t: nat, list: seq<nat>, snap: map<nat, Pod>, infraUp: nat -> bool,
      starts: nat -> bool,
                           ghost tpl: Template)
    returns (ghost takes: bool)
    requires Valid(c.service.Now()) && (t in c.service.templates ==> c.service.templates[t] == tpl)
    requires Listed(c.service.Now(), list, snap, t)
    modifies c.service
    ensures forall id | id in list :: id in snap
    ensures AloneDone(old(c.service.Now()), c.service.Now(), list, snap, t, tpl, infraUp, starts, takes)
  {
    ghost var s := c.service.Now();
    ListedOnly(s, list, snap, t);
    hide Valid, TurnedAlone, Listed, Proper, Members, AloneStates, OnlyListed, WokenOf, LostAlone, Looking, Taken,
        Started,
      Dropped, StartedIf, AllThere, AloneDone;
    AloneStart(s, t, tpl);
    if list == [] {
      takes := MakeFirst(c, t, list, snap, starts, tpl, false, AllThere(s, list));
      DoneFirst(s, c.service.Now(), list, snap, t, tpl, infraUp, starts, takes);
      return;
    }
    takes := false;
    var hasActive := false;
    var degraded, stopped: Option<nat> := None, None;
    var i := 0;
    LookStarts(s, list, snap, infraUp);
    while i < |list| && !hasActive
      invariant 0 <= i <= |list| && c.service.Now() == s
      invariant Looking(s, list, snap, infraUp, i, hasActive, degraded, stopped)
    {
      var id := list[i];
      assert id in list;
      var p := snap[id];
      if !p.stoppedByUser && !(id in c.service.pods && infraUp(id)) {
        OwnListed(s, list, snap, t, id);
        takes := RecreateLost(c, id, t, starts, tpl);
        DoneLost(s, c.service.Now(), list, snap, t, tpl, infraUp, starts, takes, i, degraded, stopped);
        return;
      }
      LooksOn(s, list, snap, infraUp, i, degraded, stopped);
      if p.state == Degraded && !p.stoppedByUser && degraded == None {
        degraded := Some(id);
      }
      if p.state != Stopped {
        hasActive := true;
      } else if !p.stoppedByUser && stopped == None {
        stopped := Some(id);
      }
      i := i + 1;
    }
    LookEnds(s, list, snap, infraUp, i, hasActive, degraded, stopped);
    if degraded.Some? {
      OwnListed(s, list, snap, t, degraded.value);
      StartPod(c, degraded.value, t, starts, s, tpl, false);
    } else if !hasActive && stopped.Some? {
      OwnListed(s, list, snap, t, stopped.value);
      StartPod(c, stopped.value, t, starts, s, tpl, false);
    }
    DoneWoken(s, c.service.Now(), list, snap, t, tpl, infraUp, starts);
  }

  /** The turn of a template without a replica set, all in all. */
  ghost predicate AloneDone(s: State, s': State, list: seq<nat>, snap: map<nat, Pod>, t: nat, tpl: Template,
      infraUp: nat -> bool, starts: nat -> bool, takes: bool)
    requires forall id | id in list :: id in snap
  {
    && TurnedAlone(s, s', t, tpl, takes)
    && (takes ==> t in s.templates)
    && (t in s.templates && AllThere(s, list) ==>
          && (takes <==> Proper(tpl) && (list == [] || LostAlone(list, snap, infraUp).Some?))
          && (Proper(tpl) ==> Members(s', t) != {}))
    && AloneStates(s', list, snap, t, starts, LostAlone(list, snap, infraUp).Some?, AllThere(s, list))
  }

  lemma OwnListed(s: State, list: seq<nat>, snap: map<nat, Pod>, t: nat, id: nat)
    requires Listed(s, list, snap, t) && id in list
    ensures id in snap && (id in s.pods ==> s.pods[id].template == t)
  {
  }

  lemma DoneFirst(s: State, s': State, list: seq<nat>, snap: map<nat, Pod>, t: nat, tpl: Template,
      infraUp: nat -> bool, starts: nat -> bool, takes: bool)
    requires list == [] && TurnedAlone(s, s', t, tpl, takes) && (takes <==> t in s.templates && Proper(tpl))
    requires takes ==> Members(s', t) != {}
    requires AloneStates(s', list, snap, t, starts, false, AllThere(s, list))
    ensures AloneDone(s, s', list, snap, t, tpl, infraUp, starts, takes)
  {
    hide TurnedAlone, Members, Proper, WokenOf;
  }

  lemma DoneLost(s: State, s': State, list: seq<nat>, snap: map<nat, Pod>, t: nat, tpl: Template,
      infraUp: nat -> bool, starts: nat -> bool, takes: bool, i: nat, degraded: Option<nat>, stopped: Option<nat>)
    requires i < |list| && OnlyListed(s, list, snap, t) && (forall id | id in list :: id in snap && id < s.next)
    requires Looking(s, list, snap, infraUp, i, false, degraded, stopped)
    requires !snap[list[i]].stoppedByUser && !(list[i] in s.pods && infraUp(list[i]))
    requires TurnedAlone(s, s', t, tpl, takes) && (takes <==> t in s.templates && Proper(tpl))
    requires takes ==> Members(s', t) != {}
    requires var s1 := Dropped(s, list[i]);
             if takes then StartedIf(Taken(s1, t, tpl), s', s1.next + 1, starts(s1.next + 1)) else s' == s1
    ensures AloneDone(s, s', list, snap, t, tpl, infraUp, starts, takes)
  {
    LooksLost(s, list, snap, infraUp, i, degraded, stopped);
    hide TurnedAlone, Members, Proper, WokenOf, LostAlone, Looking, AllThere, AloneStates, OnlyListed, StartedIf, Taken,
        Dropped;
    AloneAgain(s, s', list, snap, t, tpl, starts, LostAlone(list, snap, infraUp).Some?, AllThere(s, list), takes,
        list[i]);
  }

  lemma DoneWoken(s: State, s': State, list: seq<nat>, snap: map<nat, Pod>, t: nat, tpl: Template,
      infraUp: nat -> bool, starts: nat -> bool)
    requires list != [] && Listed(s, list, snap, t) && OnlyListed(s, list, snap, t) &&
            (forall id | id in list :: id in snap)
    requires AllThere(s, list) ==> LostAlone(list, snap, infraUp) == None
    requires var woken := WokenOf(list, snap, None);
             s' == if woken.Some? && woken.value in s.pods && starts(woken.value) then Started(s, woken.value) else s
    requires TurnedAlone(s, s', t, tpl, false) && Members(s', t) == Members(s, t)
    ensures AloneDone(s, s', list, snap, t, tpl, infraUp, starts, false)
  {
    ListedThere(s, list, snap, t);
    hide TurnedAlone, Proper, WokenOf, LostAlone, AloneStates, Started, Listed;
    WakeOrLeave(s, list, snap, t, starts, LostAlone(list, snap, infraUp).Some?, AllThere(s, list));
    if AllThere(s, list) {
      assert list[0] in list && list[0] in s.pods;
      assert list[0] in Members(s, t);
    }
  }

  predicate AllThere(s: State, list: seq<nat>) {
    forall id | id in list :: id in s.pods
  }

  /** The loop over the listed pods, before entry `i`. */
  ghost predicate Looking(s: State, list: seq<nat>, snap: map<nat, Pod>, infraUp: nat -> bool, i: nat, hasActive: bool,
      degraded: Option<nat>, stopped: Option<nat>)
    requires i <= |list| && forall id | id in list :: id in snap
  {
    && (degraded.Some? ==> degraded.value in list) && (stopped.Some? ==> stopped.value in list)
    && (AllThere(s, list) ==>
          LostAlone(list, snap, infraUp) == if hasActive then None else LostAlone(list[i..], snap, infraUp))
    && (if hasActive then WokenOf(list, snap, None) == degraded
        else degraded == None && WokenOf(list, snap, None) == WokenOf(list[i..], snap, stopped))
  }

  lemma LookStarts(s: State, list: seq<nat>, snap: map<nat, Pod>, infraUp: nat -> bool)
    requires forall id | id in list :: id in snap
    ensures Looking(s, list, snap, infraUp, 0, false, None, None)
  {
    assert list[0..] == list;
  }

  /** An entry that is not lost. */
  lemma LooksOn(s: State, list: seq<nat>, snap: map<nat, Pod>, infraUp: nat -> bool, i: nat, degraded: Option<nat>,
      stopped: Option<nat>)
    requires i < |list| && (forall id | id in list :: id in snap)
    requires Looking(s, list, snap, infraUp, i, false, degraded, stopped)
    requires snap[list[i]].stoppedByUser || (list[i] in s.pods && infraUp(list[i]))
    ensures var p := snap[list[i]];
            Looking(s, list, snap, infraUp, i + 1, p.state != Stopped,
              if p.state == Degraded && !p.stoppedByUser then Some(list[i]) else None,
              if p.state == Stopped && !p.stoppedByUser && stopped == None then Some(list[i]) else stopped)
  {
    assert list[i..][0] == list[i] && list[i..][1..] == list[i + 1..];
    WokenNext(list[i..], snap, stopped);
    hide WokenOf;
  }

  lemma LooksLost(s: State, list: seq<nat>, snap: map<nat, Pod>, infraUp: nat -> bool, i: nat, degraded: Option<nat>,
      stopped: Option<nat>)
    requires i < |list| && (forall id | id in list :: id in snap)
    requires Looking(s, list, snap, infraUp, i, false, degraded, stopped)
    requires !snap[list[i]].stoppedByUser && !(list[i] in s.pods && infraUp(list[i]))
    ensures AllThere(s, list) ==> LostAlone(list, snap, infraUp) == Some(list[i])
  {
    assert list[i..][0] == list[i] && list[i] in list;
    hide WokenOf;
  }

  lemma LookEnds(s: State, list: seq<nat>, snap: map<nat, Pod>, infraUp: nat -> bool, i: nat, hasActive: bool,
      degraded: Option<nat>, stopped: Option<nat>)
    requires i <= |list| && (i == |list| || hasActive) && (forall id | id in list :: id in snap)
    requires Looking(s, list, snap, infraUp, i, hasActive, degraded, stopped)
    ensures (degraded.Some? ==> degraded.value in list) && (stopped.Some? ==> stopped.value in list)
    ensures WokenOf(list, snap, None) == if degraded.Some? then degraded else if hasActive then None else stopped
    ensures AllThere(s, list) ==> LostAlone(list, snap, infraUp) == None
  {
    if !hasActive {
      assert list[i..] == [];
    }
  }

  lemma WakeOrLeave(s: State, list: seq<nat>, snap: map<nat, Pod>, t: nat, starts: nat -> bool, lost: bool, there: bool)
    requires (forall id | id in list :: id in snap) && OnlyListed(s, list, snap, t) && (there ==> !lost)
    ensures var woken := WokenOf(list, snap, None);
            AloneStates(if woken.Some? && woken.value in s.pods && starts(woken.value) then Started(s, woken.value)
                else s,
              list, snap, t, starts, lost, there)
  {
    hide WokenOf, AloneStates, OnlyListed, Started;
    var woken := WokenOf(list, snap, None);
    if woken.Some? && woken.value in s.pods && starts(woken.value) {
      AloneWoken(s, list, snap, t, starts, lost, there, woken.value);
    } else {
      AloneLeft(s, list, snap, t, starts, lost, there);
    }
  }

  lemma ListedOnly(s: State, list: seq<nat>, snap: map<nat, Pod>, t: nat)
    requires Listed(s, list, snap, t)
    ensures OnlyListed(s, list, snap, t) && forall id | id in list :: id in snap && id < s.next
  {
    assert forall id | id in s.pods && s.pods[id].template == t :: id in Members(s, t);
  }

  lemma NothingWoken(list: seq<nat>, snap: map<nat, Pod>)
    requires list == []
    ensures WokenOf(list, snap, None) == None
  {
  }

  lemma WokenNext(list: seq<nat>, snap: map<nat, Pod>, stopped: Option<nat>)
    requires list != [] && forall id | id in list :: id in snap
    ensures var p := snap[list[0]];
            WokenOf(list, snap, stopped) ==
            if p.state != Stopped then (if p.state == Degraded && !p.stoppedByUser then Some(list[0]) else None)
            else WokenOf(list[1..], snap, if stopped.None? && !p.stoppedByUser then Some(list[0]) else stopped)
  {
  }

  lemma AloneMadeNow(s: State, s': State, list: seq<nat>, snap: map<nat, Pod>, t: nat, tpl: Template,
      starts: nat -> bool, lost: bool, there: bool)
    requires list == [] && OnlyListed(s, list, snap, t) && s' == Taken(s, t, tpl)
    ensures AloneStates(s', list, snap, t, starts, lost, there)
  {
    AloneMade(s, s', list, snap, t, tpl, starts, lost, there);
  }

  /** A lost pod has gone, and perhaps been made again. */
  lemma AloneAgain(s: State, s': State, list: seq<nat>, snap: map<nat, Pod>, t: nat, tpl: Template,
      starts: nat -> bool, lost: bool, there: bool, takes: bool, id: nat)
    requires OnlyListed(s, list, snap, t) && id in list && (forall x | x in list :: x in snap && x < s.next)
    requires there ==> lost
    requires var s1 := Dropped(s, id);
             if takes then StartedIf(Taken(s1, t, tpl), s', s1.next + 1, starts(s1.next + 1)) else s' == s1
    ensures AloneStates(s', list, snap, t, starts, lost, there)
  {
    var s1 := Dropped(s, id);
    assert OnlyListed(s1, list, snap, t);
    if takes {
      AloneMade(s1, s', list, snap, t, tpl, starts, lost, there);
    } else {
      AloneLeft(s1, list, snap, t, starts, lost, there);
    }
  }

  lemma ListedThere(s: State, list: seq<nat>, snap: map<nat, Pod>, t: nat)
    requires Listed(s, list, snap, t)
    ensures forall id | id in list && id in s.pods :: id in Members(s, t)
    ensures list == [] ==> Members(s, t) == {}
  {
  }

  /** The first `i` of the templates have had their turn, or were left to replica sets. */
  ghost predicate TemplatesDone(s0: State, s: State, sets: seq<ReplicaSet>, ids: seq<nat>, order: seq<nat>,
      infraUp: nat -> bool, i: nat)
    requires i <= |ids|
  {
    && Underway(s0, s, infraUp)
    && (forall rs | rs in sets :: Counted(s0, s, rs, order, infraUp))
    && (forall t | t in s0.templates && !Referenced(s0, t) && t !in ids[..i] :: Waiting(s0, s, t, infraUp))
    && (forall t | t in ids[..i] && !Referenced(s0, t) :: Manned(s0, s, t, infraUp))
  }

  /** A template without a set, after its turn: it has a pod, if one can be made from it and it
      is still stored; and it is still stored or has one if nobody disturbs it. */
  ghost predicate Manned(s0: State, s: State, t: nat, infraUp: nat -> bool) {
    && t in s0.templates
    && (Proper(s0.templates[t]) && (t in s.templates || Undisturbed(s0, t, infraUp)) ==> Members(s, t) != {})
  }

  lemma TurnManned(s0: State, s: State, s': State, u: nat, takes: bool, infraUp: nat -> bool, t: nat)
    requires Underway(s0, s, infraUp) && Turn(s0, s, s', u, takes, infraUp) && t != u && !Referenced(s0, t)
    requires Manned(s0, s, t, infraUp)
    ensures Manned(s0, s', t, infraUp)
  {
    hide Valid, Past, Undisturbed, Accounted, MayRemake, Traced, Proper, Members;
    if Undisturbed(s0, t, infraUp) {
      TurnPasses(s0, s, s', u, takes, infraUp, t);
    }
    if t in s'.templates {
      KeptTemplate(s0, s, s', u, takes, t);
    }
  }

  lemma TemplatesDoneHas(s0: State, s: State, sets: seq<ReplicaSet>, ids: seq<nat>, order: seq<nat>, snap: map<nat,
      Pod>,
                         infraUp: nat -> bool, i: nat)
    requires i < |ids| && NoRepeats(ids) && TemplatesDone(s0, s, sets, ids, order, infraUp, i) &&
            ListsAll(s0, order, snap)
    requires ids[i] in s0.templates && !Referenced(s0, ids[i])
    ensures var t := ids[i];
            && Valid(s) && (t in s.templates ==> s.templates[t] == s0.templates[t])
            && Underway(s0, s, infraUp) && Waiting(s0, s, t, infraUp)
            && Listed(s, Filtered(order, snap, t), snap, t)
  {
    hide Waiting, Listed, Counted, Traced, ListsAll, Past, Manned;
    assert ids[i] !in ids[..i];
    assert Waiting(s0, s, ids[i], infraUp);
    StillListed(s0, s, order, snap, ids[i], infraUp);
  }

  /** The turn of a template without a set, seen from the start of the pass. */
  lemma OwnTurnAlone(s0: State, s: State, s': State, t: nat, order: seq<nat>, snap: map<nat, Pod>, infraUp: nat -> bool,
      takes: bool, starts: nat -> bool)
    requires ListsAll(s0, order, snap) && Underway(s0, s, infraUp) && Waiting(s0, s, t, infraUp)
    requires t in s0.templates && !Referenced(s0, t)
    requires forall id | id in Filtered(order, snap, t) :: id in snap
    requires AloneDone(s, s', Filtered(order, snap, t), snap, t, s0.templates[t], infraUp, starts, takes)
    ensures Turn(s0, s, s', t, takes, infraUp) && Manned(s0, s', t, infraUp)
    ensures Steady(s, s', t, s0.templates[t], takes) && PassStates(s0, s', t, order, infraUp, starts)
  {
    OwnStates(s0, s, s', t, order, snap, infraUp, takes, starts);
    hide AloneStates, PassStates;
    hide Valid, Past, Steady, Accounted, Undisturbed, Traced, Members, Filtered, Proper, LostAlone, Referenced;
    var list := Filtered(order, snap, t);
    StillListed(s0, s, order, snap, t, infraUp);
    if takes && list != [] {
      LostAloneListed(list, snap, infraUp);
    }
    StoredThen(s, s', t, s0.templates[t], takes);
  }

  lemma OwnStates(s0: State, s: State, s': State, t: nat, order: seq<nat>, snap: map<nat, Pod>, infraUp: nat -> bool,
      takes: bool, starts: nat -> bool)
    requires ListsAll(s0, order, snap) && Underway(s0, s, infraUp) && Waiting(s0, s, t, infraUp)
    requires t in s0.templates && !Referenced(s0, t)
    requires forall id | id in Filtered(order, snap, t) :: id in snap
    requires AloneDone(s, s', Filtered(order, snap, t), snap, t, s0.templates[t], infraUp, starts, takes)
    ensures PassStates(s0, s', t, order, infraUp, starts)
  {
    hide Valid, Past, TurnedAlone, Undisturbed, Traced, Members, Filtered, Proper, LostAlone, Referenced, AloneStates;
    var list := Filtered(order, snap, t);
    StillListed(s0, s, order, snap, t, infraUp);
    AloneWeaker(s', list, snap, t, starts, LostAlone(list, snap, infraUp).Some?, AllThere(s, list),
      Undisturbed(s0, t, infraUp));
  }

  ghost predicate TemplatesStated(s0: State, s: State, sets: seq<ReplicaSet>, ids: seq<nat>, order: seq<nat>,
      infraUp: nat -> bool, starts: nat -> bool, i: nat)
    requires i <= |ids|
  {
    && SetsStated(s0, s, sets, order, infraUp, starts, |sets|)
    && (forall t | t in ids[..i] && !Referenced(s0, t) :: PassStates(s0, s, t, order, infraUp, starts))
  }

  lemma TemplatesStatedNext(s0: State, s: State, s': State, sets: seq<ReplicaSet>, ids: seq<nat>, order: seq<nat>,
      infraUp: nat -> bool, starts: nat -> bool, i: nat, takes: bool)
    requires i < |ids| && TemplatesStated(s0, s, sets, ids, order, infraUp, starts, i) && ids[i] in s0.templates
    requires forall rs | rs in sets :: Referenced(s0, rs.template)
    requires if Referenced(s0, ids[i]) then s' == s
            else Steady(s, s', ids[i], s0.templates[ids[i]], takes) &&
                 PassStates(s0, s', ids[i], order, infraUp, starts)
    ensures TemplatesStated(s0, s', sets, ids, order, infraUp, starts, i + 1)
  {
    hide Steady, Referenced, PassStates;
    assert ids[..i + 1] == ids[..i] + [ids[i]];
    if !Referenced(s0, ids[i]) {
      forall j | 0 <= j < |sets| ensures PassStates(s0, s', sets[j].template, order, infraUp, starts) {
        assert sets[j] in sets;
        StatesStay(s0, s, s', ids[i], takes, sets[j].template, order, infraUp, starts);
      }
      forall t | t in ids[..i + 1] && !Referenced(s0, t) ensures PassStates(s0, s', t, order, infraUp, starts) {
        if t != ids[i] {
          StatesStay(s0, s, s', ids[i], takes, t, order, infraUp, starts);
        }
      }
    }
  }

  lemma StoredThen(s: State, s': State, t: nat, tpl: Template, takes: bool)
    requires Steady(s, s', t, tpl, takes)
    ensures t in s'.templates ==> t in s.templates
  {
    hide Valid, Past;
  }

  lemma TemplatesDoneNext(s0: State, s: State, s': State, sets: seq<ReplicaSet>, ids: seq<nat>, order: seq<nat>,
      infraUp: nat -> bool,
                          i: nat, takes: bool)
    requires i < |ids| && NoRepeats(ids) && TemplatesDone(s0, s, sets, ids, order, infraUp, i) && ids[i] in s0.templates
    requires forall rs | rs in sets :: Referenced(s0, rs.template)
    requires if Referenced(s0, ids[i]) then s' == s
             else Turn(s0, s, s', ids[i], takes, infraUp) && Manned(s0, s', ids[i], infraUp)
    ensures TemplatesDone(s0, s', sets, ids, order, infraUp, i + 1)
  {
    hide Underway, Turn, Counted, Waiting, Manned, Referenced;
    assert ids[..i + 1] == ids[..i] + [ids[i]];
    if !Referenced(s0, ids[i]) {
      TurnUnderway(s0, s, s', ids[i], takes, infraUp);
      forall rs | rs in sets ensures Counted(s0, s', rs, order, infraUp) {
        TurnCounted(s0, s, s', ids[i], takes, infraUp, rs, order);
      }
      forall t | t in s0.templates && !Referenced(s0, t) && t !in ids[..i + 1] ensures Waiting(s0, s', t, infraUp) {
        TurnWaiting(s0, s, s', ids[i], takes, infraUp, t);
      }
      forall t | t in ids[..i + 1] && !Referenced(s0, t) ensures Manned(s0, s', t, infraUp) {
        if t != ids[i] {
          TurnManned(s0, s, s', ids[i], takes, infraUp, t);
        }
      }
    }
  }

  method ReconcileTemplates(c: Controller, ids: seq<nat>, order: seq<nat>, snap: map<nat, Pod>, infraUp: nat -> bool,
                            starts: nat -> bool, ghost s0: State, ghost sets: seq<ReplicaSet>)
    requires NoRepeats(ids) && (forall t | t in ids :: t in s0.templates) && ListsAll(s0, order, snap)
    requires (forall rs | rs in sets :: Referenced(s0, rs.template))
    requires TemplatesDone(s0, c.service.Now(), sets, ids, order, infraUp, 0)
    requires TemplatesStated(s0, c.service.Now(), sets, ids, order, infraUp, starts, 0)
    modifies c.service
    ensures TemplatesDone(s0, c.service.Now(), sets, ids, order, infraUp, |ids|)
    ensures TemplatesStated(s0, c.service.Now(), sets, ids, order, infraUp, starts, |ids|)
  {
    hide AloneDone, AloneStates, TemplatesStated;
    hide Valid, TurnedAlone, Listed, Proper, ListsAll, NoRepeats, TemplatesDone, Filtered, Referenced, Members, Turn,
        Manned, Underway,
      Waiting, LostAlone;
    var i := 0;
    while i < |ids|
      invariant 0 <= i <= |ids|
      invariant TemplatesDone(s0, c.service.Now(), sets, ids, order, infraUp, i)
      invariant TemplatesStated(s0, c.service.Now(), sets, ids, order, infraUp, starts, i)
    {
      ghost var s := c.service.Now();
      ghost var takes := false;
      assert ids[i] in ids;
      SameReferences(s0, s, sets, ids, order, infraUp, i);
      var inUse := c.service.IsTemplateReferenced(ids[i]);
      if !inUse {
        TemplatesDoneHas(s0, s, sets, ids, order, snap, infraUp, i);
        var list := FilterByTemplate(order, snap, ids[i]);
        ListedHas(s, list, snap, ids[i]);
        takes := ReconcileTemplate(c, ids[i], list, snap, infraUp, starts, s0.templates[ids[i]]);
        OwnTurnAlone(s0, s, c.service.Now(), ids[i], order, snap, infraUp, takes, starts);
      }
      TemplatesStatedNext(s0, s, c.service.Now(), sets, ids, order, infraUp, starts, i, takes);
      TemplatesDoneNext(s0, s, c.service.Now(), sets, ids, order, infraUp, i, takes);
      i := i + 1;
    }
  }

  lemma SameReferences(s0: State, s: State, sets: seq<ReplicaSet>, ids: seq<nat>, order: seq<nat>, infraUp: nat -> bool,
      i: nat)
    requires i < |ids| && TemplatesDone(s0, s, sets, ids, order, infraUp, i)
    ensures Referenced(s, ids[i]) <==> Referenced(s0, ids[i])
  {
    hide Valid, Counted, Waiting, Manned, Traced;
    ReferencesOnly(s0, s, ids[i]);
  }

  // ----- the whole pass -----

  function SetsOf(s: State, rsIds: seq<nat>): (sets: seq<ReplicaSet>)
    requires forall r | r in rsIds :: r in s.replicaSets
    ensures |sets| == |rsIds|
    ensures forall i | 0 <= i < |sets| :: sets[i] == s.replicaSets[rsIds[i]]
  {
    seq(|rsIds|, i requires 0 <= i < |rsIds| => s.replicaSets[rsIds[i]])
  }

  lemma SetsAreListed(s: State, rsIds: seq<nat>)
    requires Valid(s) && NoRepeats(rsIds) &&
            (forall r | r in rsIds :: r in s.replicaSets && s.replicaSets[r].replicas >= 0)
    ensures SetsListed(s, SetsOf(s, rsIds))
    ensures forall rs | rs in SetsOf(s, rsIds) :: Referenced(s, rs.template)
  {
    var sets := SetsOf(s, rsIds);
    forall i | 0 <= i < |sets| ensures sets[i].template in s.templates && Referenced(s, sets[i].template) {
      assert s.replicaSets[rsIds[i]] == sets[i];
    }
  }

  /** One pass over any valid store, with the pods, sets and templates listed in any order at its
      start and never read again. Names stay unique and the sets' templates stored; no set has
      more than one pod too many; a set that nobody disturbs has the number that `Outcome`
      foretells from the list (see CountIsRight for when that is the wanted one); and a template
      without a set that is still stored, or that nobody disturbs, has a pod. */
  method ReconcileOnce(c: Controller, rsIds: seq<nat>, ids: seq<nat>, order: seq<nat>, infraUp: nat -> bool,
      starts: nat -> bool)
    requires Valid(c.service.Now()) && NoRepeats(rsIds) && NoRepeats(ids) && NoRepeats(order)
    requires forall r :: r in rsIds <==> r in c.service.replicaSets
    requires forall t :: t in ids <==> t in c.service.templates
    requires forall id :: id in order <==> id in c.service.pods
    requires forall r | r in c.service.replicaSets :: c.service.replicaSets[r].replicas >= 0
    modifies c.service
    ensures Valid(c.service.Now()) && c.service.replicaSets == old(c.service.replicaSets)
    ensures forall r | r in old(c.service.replicaSets) ::
              Counted(old(c.service.Now()), c.service.Now(), old(c.service.replicaSets)[r], order, infraUp)
    ensures forall t | t in old(c.service.templates) && !Referenced(old(c.service.Now()), t) ::
              Manned(old(c.service.Now()), c.service.Now(), t, infraUp)
    ensures forall t | t in old(c.service.templates) ::
              PassStates(old(c.service.Now()), c.service.Now(), t, order, infraUp, starts)
  {
    hide TemplatesStated, SetsStated, PassStates;
    hide Valid, ListsAll, NoRepeats, SetsListed, SetsDone, TemplatesDone, Referenced, SetsOf, Counted, Manned;
    ghost var s0 := c.service.Now();
    AllListed(s0, order);
    SetsAreListed(s0, rsIds);
    var snap := c.service.pods;
    var sets := SetsOf(State(c.service.pods, c.service.templates, c.service.replicaSets, c.service.next), rsIds);
    ReconcileSets(c, sets, order, snap, infraUp, starts);
    BetweenLoops(s0, c.service.Now(), rsIds, ids, order, infraUp);
    NowTemplates(s0, c.service.Now(), sets, ids, order, infraUp, starts);
    ReconcileTemplates(c, ids, order, snap, infraUp, starts, s0, sets);
    PassStated(s0, c.service.Now(), rsIds, ids, order, infraUp, starts);
    PassDone(s0, c.service.Now(), rsIds, ids, order, infraUp);
  }

  lemma AllListed(s: State, order: seq<nat>)
    requires NoRepeats(order) && forall id :: id in order <==> id in s.pods
    ensures ListsAll(s, order, s.pods)
  {
  }

  lemma BetweenLoops(s0: State, s1: State, rsIds: seq<nat>, ids: seq<nat>, order: seq<nat>, infraUp: nat -> bool)
    requires forall r :: r in rsIds <==> r in s0.replicaSets
    requires SetsDone(s0, s1, SetsOf(s0, rsIds), order, infraUp, |rsIds|)
    ensures TemplatesDone(s0, s1, SetsOf(s0, rsIds), ids, order, infraUp, 0)
  {
    hide Underway, Counted, Waiting, Manned;
    var sets := SetsOf(s0, rsIds);
    forall t | !Referenced(s0, t) ensures Waiting(s0, s1, t, infraUp) {
      forall j | 0 <= j < |sets| ensures sets[j].template != t {
        assert rsIds[j] in rsIds;
        assert s0.replicaSets[rsIds[j]] == sets[j];
      }
    }
  }

  lemma NowTemplates(s0: State, s: State, sets: seq<ReplicaSet>, ids: seq<nat>, order: seq<nat>, infraUp: nat -> bool,
      starts: nat -> bool)
    requires SetsStated(s0, s, sets, order, infraUp, starts, |sets|)
    ensures TemplatesStated(s0, s, sets, ids, order, infraUp, starts, 0)
  {
    hide PassStates;
  }

  lemma PassStated(s0: State, s: State, rsIds: seq<nat>, ids: seq<nat>, order: seq<nat>, infraUp: nat -> bool,
      starts: nat -> bool)
    requires forall r :: r in rsIds <==> r in s0.replicaSets
    requires forall t :: t in ids <==> t in s0.templates
    requires TemplatesStated(s0, s, SetsOf(s0, rsIds), ids, order, infraUp, starts, |ids|)
    ensures forall t | t in s0.templates :: PassStates(s0, s, t, order, infraUp, starts)
  {
    hide PassStates;
    assert ids[..|ids|] == ids;
    var sets := SetsOf(s0, rsIds);
    forall t | t in s0.templates && Referenced(s0, t) ensures PassStates(s0, s, t, order, infraUp, starts) {
      var r :| r in s0.replicaSets && s0.replicaSets[r].template == t;
      var j :| 0 <= j < |rsIds| && rsIds[j] == r;
      assert sets[j].template == t;
    }
  }

  lemma PassDone(s0: State, s: State, rsIds: seq<nat>, ids: seq<nat>, order: seq<nat>, infraUp: nat -> bool)
    requires forall r :: r in rsIds <==> r in s0.replicaSets
    requires forall t :: t in ids <==> t in s0.templates
    requires TemplatesDone(s0, s, SetsOf(s0, rsIds), ids, order, infraUp, |ids|)
    ensures Valid(s) && s.replicaSets == s0.replicaSets
    ensures forall r | r in s0.replicaSets :: Counted(s0, s, s0.replicaSets[r], order, infraUp)
    ensures forall t | t in s0.templates && !Referenced(s0, t) :: Manned(s0, s, t, infraUp)
  {
    hide Counted, Manned, Waiting, Traced, Valid, Past, Referenced;
    assert ids[..|ids|] == ids;
    var sets := SetsOf(s0, rsIds);
    forall r | r in s0.replicaSets ensures Counted(s0, s, s0.replicaSets[r], order, infraUp) {
      var j :| 0 <= j < |rsIds| && rsIds[j] == r;
      assert sets[j] in sets;
    }
  }

  // ----- asking for a pod twice -----

  /** A request that leaves a template behind without a pod is made good by the next turn of
      that template: whoever bears the name, in particular a pod handed out for the same uid,
      is taken away for the new pod. */
  method OrphanTakesName(c: Controller, t: nat, list: seq<nat>, snap: map<nat, Pod>, infraUp: nat -> bool,
      starts: nat -> bool)
    requires Valid(c.service.Now()) && t in c.service.templates && Proper(c.service.templates[t])
    requires Members(c.service.Now(), t) == {} && Listed(c.service.Now(), list, snap, t)
    requires forall id | id in list :: id in c.service.pods
    modifies c.service
    ensures Valid(c.service.Now()) && Members(c.service.Now(), t) != {}
    ensures forall h | h in old(c.service.pods) &&
            HasTemplateName(old(c.service.pods)[h], old(c.service.templates[t])) ::
              h !in c.service.pods
  {
    ghost var s := c.service.Now();
    ghost var tpl := s.templates[t];
    ListIsEmpty(s, list, snap, t);
    hide Valid, Listed, Steady, Accounted, Proper, AloneStates, Members, LostAlone;
    var takes := ReconcileTemplate(c, t, list, snap, infraUp, starts, tpl);
    assert takes && Steady(s, c.service.Now(), t, tpl, true);
    TurnValid(s, c.service.Now(), t, tpl, true);
    NobodyOwn(s, t);
  }

  lemma ListIsEmpty(s: State, list: seq<nat>, snap: map<nat, Pod>, t: nat)
    requires Listed(s, list, snap, t) && Members(s, t) == {} && forall id | id in list :: id in s.pods
    ensures list == []
  {
    ListedThere(s, list, snap, t);
    SomeoneListed(list);
    hide Members, Listed;
  }

  lemma SomeoneListed(list: seq<nat>)
    ensures list != [] ==> exists id :: id in list
  {
    if list != [] {
      assert list[0] in list;
    }
  }

  lemma NobodyOwn(s: State, t: nat)
    requires Members(s, t) == {}
    ensures forall id | id in s.pods :: s.pods[id].template != t
  {
    assert forall id | id in s.pods && s.pods[id].template == t :: id in Members(s, t);
  }

  /** Asking twice for a pod with one uid hands out the same pod twice, and the turn of the
      template that the second request left behind takes that pod away. */
  method AskingTwiceLosesThePod(c: Controller, name: string, namespace: string, uid: string, works: bool,
                                infraUp: nat -> bool, starts: nat -> bool)
    returns (first: Option<nat>, again: Option<nat>)
    requires Valid(c.service.Now()) && Proper(Template(name, namespace)) && uid != ""
    modifies c.service
    ensures Valid(c.service.Now())
    ensures first.Some? ==> again == first && first.value !in c.service.pods
    ensures first.None? ==> !works && Holder(old(c.service.Now()), Plain(name), namespace).Some?
  {
    hide Valid, PodCreated, Members;
    ghost var s := c.service.Now();
    RequestBears(s, name, namespace, uid, works);
    first := c.service.Create(name, namespace, uid, works);
    if first.Some? {
      ghost var s1 := c.service.Now();
      SecondRequest(s1, name, namespace, uid, works, first.value);
      again := c.service.Create(name, namespace, uid, works);
      ghost var s2 := c.service.Now();
      NothingListed(s2, s1.next);
      OrphanTakesName(c, c.service.next - 1, [], c.service.pods, infraUp, starts);
    } else {
      again := None;
    }
  }

  predicate Handed(s: State, h: nat, name: string, namespace: string, uid: string) {
    h in s.pods && Named(s.pods[h], Plain(name), namespace) && s.pods[h].uid == Asked(uid)
  }

  /** A pod that is handed out bears the name and the uid asked for. */
  lemma RequestBears(s: State, name: string, namespace: string, uid: string, works: bool)
    requires Valid(s) && Proper(Template(name, namespace)) && uid != ""
    ensures var (s', r) := PodCreated(TemplateStored(s, Template(name, namespace)), s.next, Plain(name), namespace, uid,
            works);
            if r.None? then !works && Holder(s, Plain(name), namespace).Some?
                else Handed(s', r.value, name, namespace, uid)
  {
    HolderSame(s, TemplateStored(s, Template(name, namespace)), Plain(name), namespace);
    hide Valid;
  }

  lemma SecondRequest(s: State, name: string, namespace: string, uid: string, works: bool, h: nat)
    requires Valid(s) && Proper(Template(name, namespace)) && uid != ""
    requires Handed(s, h, name, namespace, uid)
    ensures var (s', r) := PodCreated(TemplateStored(s, Template(name, namespace)), s.next, Plain(name), namespace, uid,
            works);
            && r == Some(h) && h in s'.pods && Named(s'.pods[h], Plain(name), namespace) && s'.next == s.next + 1
            && s.next in s'.templates && s'.templates[s.next] == Template(name, namespace) && Members(s', s.next) == {}
  {
    HolderIsOnly(s, Plain(name), namespace, h);
    RequestLeavesOrphan(s, name, namespace, uid, works);
    HolderSame(s, TemplateStored(s, Template(name, namespace)), Plain(name), namespace);
    hide Valid, Holder, Members;
  }

  lemma NothingListed(s: State, t: nat)
    requires Members(s, t) == {}
    ensures Listed(s, [], s.pods, t)
  {
  }

  lemma TurnValid(s: State, s': State, t: nat, tpl: Template, takes: bool)
    requires Steady(s, s', t, tpl, takes)
    ensures Valid(s')
    ensures takes ==> forall h | h in s.pods && s.pods[h].template != t && HasTemplateName(s.pods[h], tpl) ::
            h !in s'.pods
  {
  }
}
