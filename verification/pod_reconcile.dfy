/** A replica set's turn in a pass of the pod controller, from a list that may be out of date. */
module PodReconcile {
  import opened Wrappers
  import opened PodStore
  import opened PodOperations
  import opened PodController
  import opened PodStates

  /** What the list taken at the start still tells about one template: no pod of it is missing
      from the list, and those that are there are as listed. Others may have been evicted. */
  ghost predicate Listed(s: State, list: seq<nat>, snap: map<nat, Pod>, t: nat) {
    && NoRepeats(list)
    && (forall id | id in Members(s, t) :: id in list)
    && (forall id | id in list ::
        id in snap && id < s.next && snap[id].template == t && (id in s.pods ==> s.pods[id] == snap[id]))
  }

  /** The listed pods that are there no more. */
  function Gone(s: State, list: seq<nat>, t: nat): set<nat> {
    Ids(list) - Members(s, t)
  }

  /** Where every pod of the template comes from: it was there before, or it has a new suffix,
      or it was made in this turn under the template's name. */
  ghost predicate Accounted(s0: State, s: State, t: nat, tpl: Template, made: bool) {
    forall id | id in Members(s, t) ::
      && id in s.pods
      && ((id in Members(s0, t) && id in s0.pods && SameFace(s0.pods[id], s.pods[id]))
          || s.pods[id].name.Suffixed?
          || (made && HasTemplateName(s.pods[id], tpl)))
  }

  class Controller {
    const service: PodService

    constructor (service: PodService)
      ensures this.service == service
    {
      this.service := service;
    }

    /** A pod of the template under a new name, started if that works. */
    method AddPod(base: string, t: nat, ghost namespace: string, starts: nat -> bool)
      requires Valid(service.Now()) && namespace != "" && t in service.templates &&
              service.templates[t].namespace == namespace
      modifies service
      ensures Valid(service.Now()) && Valid(Suffixing(old(service.Now()), t, base, namespace))
      ensures StartedIf(Suffixing(old(service.Now()), t, base, namespace), service.Now(), old(service.next) + 2,
                starts(old(service.next) + 2))
    {
      hide Valid, PodCreated, Suffixing, Started;
      ghost var s := service.Now();
      SuffixedCreates(s, t, base, namespace);
      SuffixingMembers(s, t, base, namespace);
      var ulid := service.NewUlid();
      var id := service.CreateFromTemplate(t, Some(Suffixed(base, ulid)), true);
      assert service.Now() == Suffixing(s, t, base, namespace) && id == Some(s.next + 2);
      var started := service.Start(id.value, starts(id.value));
    }

    /** Makes the missing pods, and stops at the first that cannot be made. */
    method ScaleUp(base: string, t: nat, missing: nat, starts: nat -> bool)
      requires Valid(service.Now()) && t in service.templates
      modifies service
      ensures Grown(old(service.Now()), service.Now(), t, old(service.templates[t]),
                if old(service.templates[t]).namespace != "" then missing else 0)
      ensures NewStates(old(service.Now()), service.Now(), t, starts)
    {
      hide Valid, Grown, Suffixing, StartedIf, NewStates;
      ghost var s0 := service.Now();
      ghost var tpl := s0.templates[t];
      GrownStart(s0, t, tpl);
      NewStart(s0, t, starts);
      var i := 0;
      while i < missing
        invariant 0 <= i <= missing && (tpl.namespace == "" ==> i == 0)
        invariant Grown(s0, service.Now(), t, tpl, i) && NewStates(s0, service.Now(), t, starts)
        invariant t in service.templates && service.templates[t] == tpl
      {
        ghost var s := service.Now();
        GrownHas(s0, s, t, tpl, i);
        if service.templates[t].namespace == "" {
          NoNamespace(s, t, base);
          TickedGrown(s0, s, t, tpl, i);
          TickedStates(s0, s, t, starts);
          var ulid := service.NewUlid();
          var failed := service.CreateFromTemplate(t, Some(Suffixed(base, ulid)), true);
          break;
        }
        AddPod(base, t, tpl.namespace, starts);
        GrownAdded(s0, s, service.Now(), t, tpl, i, base, tpl.namespace, starts(s.next + 2));
        AddedStates(s0, s, service.Now(), t, starts, base, tpl.namespace);
        i := i + 1;
      }
    }

    method DeletePods(list: seq<nat>, excess: nat, t: nat, ghost starts: nat -> bool)
      requires Valid(service.Now()) && excess <= |list| && t in service.templates
      requires forall id | id in list :: id in service.pods ==> service.pods[id].template == t
      modifies service
      ensures Shrunk(old(service.Now()), service.Now(), t, old(service.templates[t]), Ids(list[..excess]))
      ensures NewStates(old(service.Now()), service.Now(), t, starts)
    {
      hide Valid, Members, Shrunk, NewStates;
      ghost var s0 := service.Now();
      ghost var tpl := s0.templates[t];
      assert Ids(list[..0]) == {};
      ShrunkStart(s0, t, tpl);
      NewStart(s0, t, starts);
      var i := 0;
      while i < excess
        invariant 0 <= i <= excess
        invariant Shrunk(s0, service.Now(), t, tpl, Ids(list[..i])) && NewStates(s0, service.Now(), t, starts)
      {
        ShrunkValid(s0, service.Now(), t, tpl, Ids(list[..i]));
        assert list[i] in list;
        ShrunkNext(s0, service.Now(), t, tpl, Ids(list[..i]), list[i]);
        assert Ids(list[..i + 1]) == Ids(list[..i]) + {list[i]};
        DroppedStates(s0, service.Now(), t, starts, list[i]);
        var found := service.DropPod(list[i]);
        i := i + 1;
      }
    }

    /** The pod goes, and a new one is made from its template, if that is possible, and started
        if that works. */
    method RecreatePod(id: nat, t: nat, starts: nat -> bool)
      requires Valid(service.Now()) && t in service.templates
      modifies service
      ensures Valid(service.Now())
      ensures var (s1, tpl) := (Dropped(old(service.Now()), id), old(service.templates[t]));
              if Proper(tpl) then Valid(Taken(s1, t, tpl)) &&
                  StartedIf(Taken(s1, t, tpl), service.Now(), old(service.next) + 1, starts(old(service.next) + 1))
              else service.Now() == s1
    {
      hide Valid, Taken, PodCreated, Started, Dropped;
      ghost var s := service.Now();
      ghost var s1 := Dropped(s, id);
      ghost var tpl := s.templates[t];
      DroppedNext(s, id);
      var found := service.DropPod(id);
      if Proper(service.templates[t]) {
        TakesExactly(s1, t, tpl);
        TakenMembers(s1, t, tpl);
      } else {
        ImproperFails(s1, t, tpl);
      }
      var r := service.CreateFromTemplate(t, None, true);
      if r.Some? {
        assert service.Now() == Taken(s1, t, tpl) && r == Some(s1.next + 1);
        var started := service.Start(r.value, starts(r.value));
      }
    }

    /** One entry of the list: a pod without its infra container is recreated, one whose
        members stopped is started. */
    method RecoverOne(list: seq<nat>, snap: map<nat, Pod>, j: nat, infraUp: nat -> bool, starts: nat -> bool, t: nat,
                      ghost s0: State, ghost kept: set<nat>, ghost newest: Option<nat>)
      returns (ghost newest': Option<nat>)
      requires j < |list| && Valid(s0) && Recoverable(s0, list, snap, kept, t)
      requires t in s0.templates && Referenced(s0, t)
      requires Recovering(s0, service.Now(), t, s0.templates[t], LostOf(list, snap, infraUp, kept, j), newest)
      requires SetStates(service.Now(), list, snap, t, starts, j)
      modifies service
      ensures Recovering(s0, service.Now(), t, s0.templates[t], LostOf(list, snap, infraUp, kept, j + 1), newest')
      ensures SetStates(service.Now(), list, snap, t, starts, j + 1)
    {
      hide Valid, Namesakes, Recovering, LostOf, Taken, Started, Dropped, StartedIf, Referenced, Members,
        Recoverable, NoRepeats, SetStates;
      RecoverableAt(s0, list, snap, kept, t, j);
      var id := list[j];
      ghost var s := service.Now();
      ghost var tpl := s0.templates[t];
      ghost var lost := LostOf(list, snap, infraUp, kept, j);
      ghost var lost' := LostOf(list, snap, infraUp, kept, j + 1);
      LostNext(list, snap, infraUp, kept, j);
      RecoveringHas(s0, s, t, tpl, lost, newest, id);
      newest' := newest;
      if !snap[id].stoppedByUser {
        if snap[id].state == Degraded {
          var runs := id in service.pods && infraUp(id);
          if !runs {
            if id in kept && infraUp(id) {
              Evicted(s0, s, t, tpl, lost, newest, id);
            }
            RecreatePod(id, t, starts);
            GoneStates(s, list, snap, t, starts, j);
            if Proper(tpl) {
              MadeAfter(s0, s, service.Now(), list, snap, t, tpl, kept, starts, j, newest, lost);
              RecoverMade(s0, s, service.Now(), t, tpl, lost, newest, id, lost', starts(s.next + 1));
              newest' := Some(s.next + 1);
            } else {
              ImproperNone(s0, s, t, tpl, lost, newest);
              RecoverFails(s0, s, t, tpl, lost, id);
              newest' := None;
            }
            return;
          }
        }
        if snap[id].state == Degraded || snap[id].state == Stopped {
          if id in service.pods {
            RecoveringStarted(s0, s, t, tpl, lost, newest, id);
            if starts(id) {
              WokenStates(s, list, snap, t, starts, j);
            }
          }
          if id !in service.pods || !starts(id) {
            PassedStates(s, list, snap, t, starts, j);
          }
          var started := service.Start(id, starts(id));
        }
      }
      assert lost' == lost;
      if !Wakes(snap[id]) {
        PassedStates(s, list, snap, t, starts, j);
      }
    }

    /** A replica set's turn, in any valid state and from a list that others' turns may have
        outdated. The set ends with the number of pods that the list determines; another
        template loses a pod exactly if a pod counts as lost and the other's pod bears the name. */
    method ReconcileSet(rs: ReplicaSet, list: seq<nat>, snap: map<nat, Pod>, infraUp: nat -> bool, starts: nat -> bool)
      returns (ghost takes: bool)
      requires Valid(service.Now()) && rs.replicas >= 0
      requires rs.template in service.templates && Referenced(service.Now(), rs.template)
      requires Listed(service.Now(), list, snap, rs.template)
      modifies service
      ensures var tpl := old(service.templates[rs.template]);
              var gone := Gone(old(service.Now()), list, rs.template);
              && Steady(old(service.Now()), service.Now(), rs.template, tpl, takes)
              && Accounted(old(service.Now()), service.Now(), rs.template, tpl, takes)
              && |Members(service.Now(), rs.template)| == CountAfter(list, snap, infraUp, rs.replicas, tpl, gone)
              && (takes <==> Proper(tpl) && LostOf(list, snap, infraUp, Kept(list, rs.replicas, gone), |list|) != {})
              && ((forall u | u != rs.template :: Untouched(old(service.Now()), service.Now(), u)) <==>
                  !takes || forall u | u != rs.template :: !Bears(old(service.Now()), tpl, u))
      ensures SetStates(service.Now(), list, snap, rs.template, starts, |list|)
      ensures LeftExactly(old(service.Now()), service.Now(), list, snap, infraUp, rs.replicas,
                old(service.templates[rs.template]))
    {
      hide LeftExactly, SetStates, NewStates, Valid, Namesakes, Recovering, LostOf, Referenced, Proper, Members,
          Recoverable,
          NoRepeats, Listed, Grown,
        Shrunk, Steady, Scaled, CountAfter, Kept, Gone, Accounted, Untouched, Bears;
      var t := rs.template;
      ghost var s0 := service.Now();
      ghost var tpl := s0.templates[t];
      ghost var gone := Gone(s0, list, t);
      ghost var kept := Kept(list, rs.replicas, gone);
      ListedHas(s0, list, snap, t);
      if |list| < rs.replicas {
        ScaleUp(rs.name, t, rs.replicas - |list|, starts);
        GrownIsScaled(s0, service.Now(), list, snap, t, tpl, rs.replicas);
      } else {
        DeletePods(list, |list| - rs.replicas, t, starts);
        ShrunkIsScaled(s0, service.Now(), list, snap, t, tpl, rs.replicas);
      }
      ghost var s1 := service.Now();
      ScaledHas(s0, s1, list, snap, t, tpl, rs.replicas, gone);
      ListedStates(s0, s1, list, snap, t, tpl, starts);
      RecoveringStart(s1, t, tpl);
      NoneLost(list, snap, infraUp, kept);
      ghost var newest: Option<nat> := None;
      var j := 0;
      while j < |list|
        invariant 0 <= j <= |list|
        invariant Recovering(s1, service.Now(), t, tpl, LostOf(list, snap, infraUp, kept, j), newest)
        invariant SetStates(service.Now(), list, snap, t, starts, j)
      {
        newest := RecoverOne(list, snap, j, infraUp, starts, t, s1, kept, newest);
        j := j + 1;
      }
      RecoveredCount(s0, s1, service.Now(), list, snap, infraUp, t, tpl, rs.replicas, gone, newest);
      LeftAre(s0, s1, service.Now(), list, snap, infraUp, t, tpl, rs.replicas, newest);
      RecoveredSteady(s0, s1, service.Now(), t, tpl, LostOf(list, snap, infraUp, kept, |list|), newest);
      RecoveredAccounted(s0, s1, service.Now(), list, snap, infraUp, t, tpl, rs.replicas, gone, newest);
      takes := newest.Some?;
      TurnLeaves(s0, service.Now(), t, tpl, takes);
    }
  }

  lemma TurnLeaves(s0: State, s: State, t: nat, tpl: Template, takes: bool)
    requires Steady(s0, s, t, tpl, takes)
    ensures (forall u | u != t :: Untouched(s0, s, u)) <==> !takes || forall u | u != t :: !Bears(s0, tpl, u)
  {
    hide Valid, Others, Untouched, Bears;
    LeavesOthersAlone(s0, s, t, tpl, takes);
  }

  // ----- scaling -----

  lemma NewStart(s: State, t: nat, starts: nat -> bool)
    ensures NewStates(s, s, t, starts)
  {
  }

  lemma TickedStates(s0: State, s: State, t: nat, starts: nat -> bool)
    requires NewStates(s0, s, t, starts)
    ensures NewStates(s0, s.(next := s.next + 1), t, starts)
  {
  }

  lemma ListedStates(s0: State, s1: State, list: seq<nat>, snap: map<nat, Pod>, t: nat, tpl: Template,
      starts: nat -> bool)
    requires Listed(s0, list, snap, t) && Steady(s0, s1, t, tpl, false) && NewStates(s0, s1, t, starts)
    ensures SetStates(s1, list, snap, t, starts, 0)
  {
    StaysAway(s0, s1, list, t, tpl);
    hide Steady, NewStates;
    assert forall id | id in s0.pods && s0.pods[id].template == t :: id in Members(s0, t);
    ScaledStates(s0, s1, list, snap, t, starts);
  }

  lemma MadeAfter(s0: State, s: State, s': State, list: seq<nat>, snap: map<nat, Pod>, t: nat, tpl: Template,
      kept: set<nat>, starts: nat -> bool, j: nat, newest: Option<nat>, lost: set<nat>)
    requires j < |list| && SetStates(Dropped(s, list[j]), list, snap, t, starts, j + 1)
    requires Recoverable(s0, list, snap, kept, t) && Recovering(s0, s, t, tpl, lost, newest)
    requires StartedIf(Taken(Dropped(s, list[j]), t, tpl), s', s.next + 1, starts(s.next + 1))
    ensures SetStates(s', list, snap, t, starts, j + 1)
  {
    RecoveringNext(s0, s, t, tpl, lost, newest);
    hide SetStates, Recovering, Taken, StartedIf;
    MadeStates(Dropped(s, list[j]), s', list, snap, t, tpl, starts, j + 1);
  }

  lemma RecoveringNext(s0: State, s: State, t: nat, tpl: Template, lost: set<nat>, newest: Option<nat>)
    requires Recovering(s0, s, t, tpl, lost, newest)
    ensures s.next >= s0.next
  {
    hide Valid, Others, Past;
  }

  lemma GrownHas(s0: State, s: State, t: nat, tpl: Template, n: nat)
    requires Grown(s0, s, t, tpl, n)
    ensures Valid(s) && Past(s0) && s.next >= s0.next
  {
    hide Valid, Others;
  }

  lemma NoNamespace(s: State, t: nat, base: string)
    ensures PodCreated(s.(next := s.next + 1), t, Suffixed(base, s.next), "", "", true) ==
            (s.(next := s.next + 1), None)
  {
  }

  lemma ImproperFails(s: State, t: nat, tpl: Template)
    requires !Proper(tpl)
    ensures PodCreated(s, t, Plain(tpl.name), tpl.namespace, "", true) == (s, None)
  {
  }

  /** A ULID spent on a pod that could not be made. */
  lemma TickedGrown(s0: State, s: State, t: nat, tpl: Template, n: nat)
    requires Grown(s0, s, t, tpl, n)
    ensures Grown(s0, s.(next := s.next + 1), t, tpl, n)
  {
    hide Valid, Past;
    TickKeeps(s);
    TickedOthers(s, t, tpl);
    hide Others;
    SteadyChain(s0, s, s.(next := s.next + 1), t, tpl, false, false);
    hide Steady;
    assert Members(s.(next := s.next + 1), t) == Members(s, t);
  }

  lemma TickedOthers(s: State, t: nat, tpl: Template)
    ensures Others(s, s.(next := s.next + 1), t, tpl, false)
  {
  }

  lemma GrownAdded(s0: State, s: State, s': State, t: nat, tpl: Template, n: nat, base: string, namespace: string,
      works: bool)
    requires Grown(s0, s, t, tpl, n) && StartedIf(Suffixing(s, t, base, namespace), s', s.next + 2, works)
    requires Valid(Suffixing(s, t, base, namespace))
    ensures Grown(s0, s', t, tpl, n + 1) && s'.templates == s.templates
  {
    hide Valid, Members, Others, Grown;
    GrownNext(s0, s, t, tpl, n, base, namespace);
    SuffixingMembers(s, t, base, namespace);
    if s' != Suffixing(s, t, base, namespace) {
      GrownStarted(s0, Suffixing(s, t, base, namespace), t, tpl, n + 1, s.next + 2);
    }
  }

  lemma ShrunkValid(s0: State, s: State, t: nat, tpl: Template, gone: set<nat>)
    requires Shrunk(s0, s, t, tpl, gone)
    ensures Valid(s)
  {
    hide Valid, Others;
  }

  /** The list as recovery finds it: of the listed pods exactly the kept ones are there. */
  ghost predicate Recoverable(s: State, list: seq<nat>, snap: map<nat, Pod>, kept: set<nat>, t: nat) {
    && NoRepeats(list)
    && (forall id | id in list :: id in snap && id < s.next && (id in s.pods <==> id in kept))
    && (forall id | id in kept :: id in s.pods && s.pods[id].template == t)
  }

  /** After scaling: the kept pods as they were, and the added ones. */
  ghost predicate Scaled(s0: State, s1: State, list: seq<nat>, snap: map<nat, Pod>, t: nat, tpl: Template,
      replicas: nat, gone: set<nat>) {
    var kept := Kept(list, replicas, gone);
    && Steady(s0, s1, t, tpl, false)
    && |Members(s1, t)| == |kept| + Added(list, replicas, tpl) && kept <= Members(s1, t)
    && Recoverable(s1, list, snap, kept, t)
    && (forall id | id in kept ::
        id in snap && id in Members(s0, t) && id in s0.pods && s0.pods[id] == snap[id] && s1.pods[id] == snap[id])
    && (forall id | id in Members(s1, t) && id !in kept :: id !in list && id in s1.pods && s1.pods[id].name.Suffixed?)
  }

  lemma ListedHas(s: State, list: seq<nat>, snap: map<nat, Pod>, t: nat)
    requires Listed(s, list, snap, t)
    ensures NoRepeats(list) && (forall id | id in list :: id in snap && (id in s.pods ==> s.pods[id].template == t))
  {
  }

  lemma ListedSplits(s: State, list: seq<nat>, snap: map<nat, Pod>, t: nat, k: nat)
    requires Listed(s, list, snap, t) && k <= |list|
    ensures Ids(list[k..]) - Gone(s, list, t) == Members(s, t) - Ids(list[..k])
    ensures forall id | id in list :: id in s.pods <==> id in Members(s, t)
  {
    forall id ensures id in Ids(list[k..]) - Gone(s, list, t) <==> id in Members(s, t) - Ids(list[..k]) {
      assert list == list[..k] + list[k..];
      if id in list[k..] && id in list[..k] {
        SplitApart(list, k, id);
      }
    }
  }

  lemma SplitApart(list: seq<nat>, k: nat, id: nat)
    requires NoRepeats(list) && k <= |list|
    ensures !(id in list[k..] && id in list[..k])
  {
    forall x | x in list[k..] ensures x !in list[..k] {
      var j :| 0 <= j < |list| - k && list[k..][j] == x;
      assert list[k + j] == x;
    }
  }

  lemma GrownIsScaled(s0: State, s1: State, list: seq<nat>, snap: map<nat, Pod>, t: nat, tpl: Template, replicas: nat)
    requires Valid(s0) && Listed(s0, list, snap, t) && |list| < replicas
    requires Grown(s0, s1, t, tpl, if tpl.namespace != "" then replicas - |list| else 0)
    ensures Scaled(s0, s1, list, snap, t, tpl, replicas, Gone(s0, list, t))
  {
    hide Valid, Steady, Gone, Listed, Members, Recoverable, Ids;
    ListedSplits(s0, list, snap, t, 0);
    NoneBefore(list);
    var kept := Kept(list, replicas, Gone(s0, list, t));
    assert kept == Members(s0, t);
    ListedMembers(s0, list, snap, t);
    GrownRecoverable(s0, s1, list, snap, t, tpl);
    forall id | id in Members(s1, t) && id !in kept ensures id !in list && id in s1.pods && s1.pods[id].name.Suffixed? {
      assert id in Members(s1, t) - Members(s0, t);
      ListedPast(s0, list, snap, t, id);
    }
  }

  lemma NoneBefore(list: seq<nat>)
    ensures list[0..] == list && Ids(list[..0]) == {}
  {
  }

  lemma ListedPast(s: State, list: seq<nat>, snap: map<nat, Pod>, t: nat, id: nat)
    requires Listed(s, list, snap, t) && id >= s.next
    ensures id !in list
  {
  }

  lemma GrownRecoverable(s0: State, s1: State, list: seq<nat>, snap: map<nat, Pod>, t: nat, tpl: Template)
    requires Valid(s0) && Listed(s0, list, snap, t) && Steady(s0, s1, t, tpl, false) && Members(s0, t) <= Members(s1, t)
    ensures Recoverable(s1, list, snap, Members(s0, t), t)
  {
    NextGrows(s0, s1, t, tpl);
    StaysAway(s0, s1, list, t, tpl);
    hide Valid, Others;
    forall id | id in list ensures id in s1.pods <==> id in Members(s0, t) {
      OwnPod(s0, s1, t, tpl, false, id);
    }
    forall id | id in Members(s0, t) ensures id in s1.pods && s1.pods[id].template == t {
      assert id in Members(s1, t);
    }
  }

  lemma NextGrows(s0: State, s1: State, t: nat, tpl: Template)
    requires Steady(s0, s1, t, tpl, false)
    ensures s1.next >= s0.next
  {
    hide Valid, Others;
  }

  /** A listed pod that had gone does not come back. */
  lemma StaysAway(s0: State, s1: State, list: seq<nat>, t: nat, tpl: Template)
    requires Steady(s0, s1, t, tpl, false)
    ensures forall id | id in s1.pods && id < s0.next :: id in s0.pods
  {
    hide Valid;
  }

  lemma ShrunkIsScaled(s0: State, s1: State, list: seq<nat>, snap: map<nat, Pod>, t: nat, tpl: Template, replicas: nat)
    requires Valid(s0) && Listed(s0, list, snap, t) && |list| >= replicas
    requires Shrunk(s0, s1, t, tpl, Ids(list[..|list| - replicas]))
    ensures Scaled(s0, s1, list, snap, t, tpl, replicas, Gone(s0, list, t))
  {
    hide Valid, Steady, Gone, Members, Recoverable, Ids;
    var excess := |list| - replicas;
    ListedSplits(s0, list, snap, t, excess);
    var kept := Kept(list, replicas, Gone(s0, list, t));
    assert kept == Members(s1, t);
    ListedMembers(s0, list, snap, t);
    ShrunkRecoverable(s0, s1, list, snap, t, tpl, excess);
  }

  lemma ListedMembers(s: State, list: seq<nat>, snap: map<nat, Pod>, t: nat)
    requires Listed(s, list, snap, t)
    ensures forall id | id in Members(s, t) :: id in list && id in snap && id in s.pods && s.pods[id] == snap[id]
  {
  }

  lemma ShrunkRecoverable(s0: State, s1: State, list: seq<nat>, snap: map<nat, Pod>, t: nat, tpl: Template, excess: nat)
    requires Valid(s0) && Listed(s0, list, snap, t) && excess <= |list| && Steady(s0, s1, t, tpl, false)
    ensures Recoverable(s1, list, snap, Members(s1, t), t)
  {
    NextGrows(s0, s1, t, tpl);
    StaysAway(s0, s1, list, t, tpl);
    hide Valid, Others;
    forall id | id in list ensures id in s1.pods <==> id in Members(s1, t) {
      OwnPod(s0, s1, t, tpl, false, id);
    }
  }

  lemma ScaledHas(s0: State, s1: State, list: seq<nat>, snap: map<nat, Pod>, t: nat, tpl: Template, replicas: nat,
      gone: set<nat>)
    requires Scaled(s0, s1, list, snap, t, tpl, replicas, gone) && Referenced(s0, t) && t in s0.templates &&
            s0.templates[t] == tpl
    ensures Valid(s1) && t in s1.templates && s1.templates[t] == tpl && Referenced(s1, t)
    ensures Recoverable(s1, list, snap, Kept(list, replicas, gone), t) && Steady(s0, s1, t, tpl, false)
  {
    hide Recoverable, Members;
    ReferencesOnly(s0, s1, t);
    var r :| r in s0.replicaSets && s0.replicaSets[r].template == t;
    assert TemplatesKept(s1) && s1.replicaSets[r].template == t;
  }

  // ----- recovering -----

  lemma NoneLost(list: seq<nat>, snap: map<nat, Pod>, infraUp: nat -> bool, kept: set<nat>)
    requires forall id | id in list :: id in snap
    ensures LostOf(list, snap, infraUp, kept, 0) == {}
  {
  }

  lemma RecoverableAt(s: State, list: seq<nat>, snap: map<nat, Pod>, kept: set<nat>, t: nat, j: nat)
    requires Recoverable(s, list, snap, kept, t) && j < |list|
    ensures NoRepeats(list) && (forall id | id in list :: id in snap)
    ensures list[j] in snap && list[j] < s.next && (list[j] in s.pods ==> s.pods[list[j]].template == t)
    ensures if list[j] in kept then list[j] in Members(s, t) else list[j] !in s.pods
  {
    assert list[j] in list;
  }

  lemma LostNext(list: seq<nat>, snap: map<nat, Pod>, infraUp: nat -> bool, kept: set<nat>, j: nat)
    requires j < |list| && NoRepeats(list) && (forall id | id in list :: id in snap)
    ensures list[j] !in LostOf(list, snap, infraUp, kept, j)
    ensures LostOf(list, snap, infraUp, kept, j + 1)
            == LostOf(list, snap, infraUp, kept, j) + if Lost(snap[list[j]], list[j] in kept && infraUp(list[j]))
                then {list[j]} else {}
  {
    var a, b := LostOf(list, snap, infraUp, kept, j), LostOf(list, snap, infraUp, kept, j + 1);
    hide Lost;
    forall id | id in b ensures id in a || (id == list[j] && Lost(snap[list[j]], list[j] in kept && infraUp(list[j]))) {
      var i :| 0 <= i < j + 1 && Lost(snap[list[i]], list[i] in kept && infraUp(list[i])) && list[i] == id;
    }
  }

  /** A kept pod that has gone without being lost was evicted for its name. */
  lemma Evicted(s0: State, s: State, t: nat, tpl: Template, lost: set<nat>, newest: Option<nat>, id: nat)
    requires Recovering(s0, s, t, tpl, lost, newest)
    requires id in Members(s0, t) && id !in s.pods && id !in lost
    ensures newest.Some? && id in Namesakes(s0, t, tpl)
  {
    hide Valid, Others, Namesakes;
    assert id !in Members(s, t);
  }

  lemma ImproperNone(s0: State, s: State, t: nat, tpl: Template, lost: set<nat>, newest: Option<nat>)
    requires Recovering(s0, s, t, tpl, lost, newest) && !Proper(tpl)
    ensures newest == None
  {
    hide Valid, Others, Proper;
  }

  lemma RecoverMade(s0: State, s: State, s': State, t: nat, tpl: Template, lost: set<nat>, newest: Option<nat>, id: nat,
      lost': set<nat>, works: bool)
    requires Valid(s0) && Proper(tpl) && Recovering(s0, s, t, tpl, lost, newest)
    requires id < s0.next && (id in s0.pods ==> s0.pods[id].template == t)
    requires lost' == lost + {id} || (lost' == lost && newest.Some? && id in Namesakes(s0, t, tpl))
    requires Valid(Taken(Dropped(s, id), t, tpl))
    requires StartedIf(Taken(Dropped(s, id), t, tpl), s', s.next + 1, works)
    ensures Recovering(s0, s', t, tpl, lost', Some(s.next + 1))
  {
    hide Valid, Others, Members, Namesakes, Taken, Recovering, Started, Dropped, Proper;
    RecoverNext(s0, s, t, tpl, lost, newest, id, lost');
    if s' != Taken(Dropped(s, id), t, tpl) {
      MadeIsOwn(s, t, tpl, id);
      RecoveringStarted(s0, Taken(Dropped(s, id), t, tpl), t, tpl, lost', Some(s.next + 1), s.next + 1);
    }
  }

  lemma MadeIsOwn(s: State, t: nat, tpl: Template, id: nat)
    ensures var s' := Taken(Dropped(s, id), t, tpl); s.next + 1 in s'.pods && s'.pods[s.next + 1].template == t
  {
  }

  lemma OldMember(s0: State, s: State, t: nat, tpl: Template, takes: bool, id: nat)
    requires Steady(s0, s, t, tpl, takes) && id < s0.next
    ensures id in s.pods ==> id in s0.pods
  {
    hide Valid;
  }

  lemma RecoveringHas(s0: State, s: State, t: nat, tpl: Template, lost: set<nat>, newest: Option<nat>, id: nat)
    requires Valid(s0) && t in s0.templates && tpl == s0.templates[t] && Referenced(s0, t)
    requires Recovering(s0, s, t, tpl, lost, newest)
    requires id < s0.next && (id in s0.pods ==> s0.pods[id].template == t)
    ensures Valid(s) && t in s.templates && s.templates[t] == tpl
    ensures id in s.pods ==> s.pods[id].template == t && id in s0.pods
  {
    hide Members, Namesakes, SameNames;
    ReferencesOnly(s0, s, t);
    OwnPod(s0, s, t, tpl, newest.Some?, id);
    OldMember(s0, s, t, tpl, newest.Some?, id);
    var r :| r in s0.replicaSets && s0.replicaSets[r].template == t;
    assert TemplatesKept(s) && s.replicaSets[r].template == t;
  }

  lemma LostAreListed(list: seq<nat>, snap: map<nat, Pod>, infraUp: nat -> bool, kept: set<nat>)
    requires forall id | id in list :: id in snap
    ensures forall id | id in LostOf(list, snap, infraUp, kept, |list|) :: id in list
  {
  }

  /** Of the scaled set, what recovery takes away is the touched pods, or only the lost ones
      if no pod can be made from the template. */
  lemma TouchedExactly(s0: State, s1: State, list: seq<nat>, snap: map<nat, Pod>, infraUp: nat -> bool, t: nat,
      tpl: Template,
                       replicas: nat, gone: set<nat>)
    requires Scaled(s0, s1, list, snap, t, tpl, replicas, gone) && (forall id | id in list :: id in snap)
    ensures var kept := Kept(list, replicas, gone);
            var lost := LostOf(list, snap, infraUp, kept, |list|);
            && Members(s1, t) - lost - Namesakes(s1, t, tpl) == Members(s1, t) - Touched(list, snap, infraUp, kept, tpl)
            && Members(s1, t) - lost == Members(s1, t) - kept * lost
  {
    hide LostOf, Recoverable, Steady, Kept;
    var kept := Kept(list, replicas, gone);
    var lost := LostOf(list, snap, infraUp, kept, |list|);
    LostAreListed(list, snap, infraUp, kept);
    forall id | id in Members(s1, t)
      ensures id in Touched(list, snap, infraUp, kept, tpl) <==> id in lost || id in Namesakes(s1, t, tpl)
    {
    }
  }

  lemma RecoveredCount(s0: State, s1: State, s2: State, list: seq<nat>, snap: map<nat, Pod>, infraUp: nat -> bool,
      t: nat, tpl: Template,
                       replicas: nat, gone: set<nat>, newest: Option<nat>)
    requires Scaled(s0, s1, list, snap, t, tpl, replicas, gone) && (forall id | id in list :: id in snap)
    requires Recovering(s1, s2, t, tpl, LostOf(list, snap, infraUp, Kept(list, replicas, gone), |list|), newest)
    ensures |Members(s2, t)| == CountAfter(list, snap, infraUp, replicas, tpl, gone)
    ensures newest.Some? <==> Proper(tpl) && LostOf(list, snap, infraUp, Kept(list, replicas, gone), |list|) != {}
  {
    hide LostOf, Recoverable, Steady, Namesakes, Touched, Kept, Members, SameNames, Added, Proper, HasTemplateName;
    var kept := Kept(list, replicas, gone);
    var lost := LostOf(list, snap, infraUp, kept, |list|);
    var touched := Touched(list, snap, infraUp, kept, tpl);
    TouchedExactly(s0, s1, list, snap, infraUp, t, tpl, replicas, gone);
    TouchedAreKept(list, snap, infraUp, kept, tpl);
    if newest.Some? {
      NotMember(s1, t, newest.value);
      CountWith(Members(s1, t), kept, touched, Added(list, replicas, tpl), newest.value);
    } else {
      CountWithout(Members(s1, t), kept, lost, Added(list, replicas, tpl));
    }
  }

  lemma CountWith(all: set<nat>, kept: set<nat>, touched: set<nat>, added: nat, newest: nat)
    requires kept <= all && touched <= kept && |all| == |kept| + added && newest !in all
    ensures |all - touched + {newest}| == |kept - touched| + added + 1
  {
    SizeWithout(all, touched);
    SizeWithout(kept, touched);
  }

  lemma CountWithout(all: set<nat>, kept: set<nat>, lost: set<nat>, added: nat)
    requires kept <= all && |all| == |kept| + added
    ensures |all - kept * lost| == |kept - lost| + added
    ensures lost == {} ==> |all - kept * lost| == |kept| + added
  {
    SizeWithout(all, kept * lost);
    SizeWithout(kept, kept * lost);
    assert kept - lost == kept - kept * lost;
    assert lost == {} ==> kept * lost == {};
  }

  lemma LeftAre(s0: State, s1: State, s2: State, list: seq<nat>, snap: map<nat, Pod>, infraUp: nat -> bool, t: nat,
      tpl: Template, replicas: nat, newest: Option<nat>)
    requires Listed(s0, list, snap, t) && Scaled(s0, s1, list, snap, t, tpl, replicas, Gone(s0, list, t))
    requires forall id | id in list :: id in snap
    requires Recovering(s1, s2, t, tpl, LostOf(list, snap, infraUp, Kept(list, replicas, Gone(s0, list, t)), |list|),
            newest)
    ensures LeftExactly(s0, s2, list, snap, infraUp, replicas, tpl)
  {
    hide LostOf, Kept, Gone, Listed, AnyLost, Retained, Recovering, Scaled, IsLost;
    forall id | id in list
      ensures id in s2.pods <==>
            && Retained(s0, list, replicas, id) && !IsLost(snap[id], infraUp(id))
            && !(AnyLost(s0, list, snap, infraUp, replicas) && tpl.name != "" && tpl.namespace != "" &&
                 snap[id].name == Plain(tpl.name) && snap[id].namespace == tpl.namespace)
    {
      LeftIs(s0, s1, s2, list, snap, infraUp, t, tpl, replicas, newest, id);
    }
  }

  lemma LeftIs(s0: State, s1: State, s2: State, list: seq<nat>, snap: map<nat, Pod>, infraUp: nat -> bool, t: nat,
      tpl: Template, replicas: nat, newest: Option<nat>, id: nat)
    requires Listed(s0, list, snap, t) && Scaled(s0, s1, list, snap, t, tpl, replicas, Gone(s0, list, t))
    requires (forall id | id in list :: id in snap) && id in list
    requires Recovering(s1, s2, t, tpl, LostOf(list, snap, infraUp, Kept(list, replicas, Gone(s0, list, t)), |list|),
            newest)
    ensures id in s2.pods <==>
            && Retained(s0, list, replicas, id) && !IsLost(snap[id], infraUp(id))
            && !(AnyLost(s0, list, snap, infraUp, replicas) && tpl.name != "" && tpl.namespace != "" &&
                 snap[id].name == Plain(tpl.name) && snap[id].namespace == tpl.namespace)
  {
    hide LostOf, Kept, Gone, Listed, AnyLost, Retained, Recovering, Recoverable, Scaled, HasTemplateName, IsLost;
    var kept := Kept(list, replicas, Gone(s0, list, t));
    var lost := LostOf(list, snap, infraUp, kept, |list|);
    KeptAre(s0, list, snap, t, replicas);
    LostAre(s0, list, snap, infraUp, t, replicas);
    ScaledKept(s0, s1, list, snap, t, tpl, replicas, Gone(s0, list, t));
    NewestIsNew(s1, s2, list, snap, kept, t, tpl, lost, newest);
    NameIs(snap[id], tpl);
    ListedLeft(s1, s2, list, snap, kept, t, tpl, lost, newest, id);
  }

  lemma NameIs(p: Pod, tpl: Template)
    ensures HasTemplateName(p, tpl) <==> p.name == Plain(tpl.name) && p.namespace == tpl.namespace
  {
  }

  lemma ScaledKept(s0: State, s1: State, list: seq<nat>, snap: map<nat, Pod>, t: nat, tpl: Template, replicas: nat,
      gone: set<nat>)
    requires Scaled(s0, s1, list, snap, t, tpl, replicas, gone)
    ensures Recoverable(s1, list, snap, Kept(list, replicas, gone), t)
    ensures forall id | id in Kept(list, replicas, gone) :: id in snap && id in s1.pods && s1.pods[id] == snap[id]
  {
    hide Steady, Kept;
  }

  lemma KeptAre(s0: State, list: seq<nat>, snap: map<nat, Pod>, t: nat, replicas: nat)
    requires Listed(s0, list, snap, t)
    ensures forall id | id in list :: id in Kept(list, replicas, Gone(s0, list, t)) <==>
            Retained(s0, list, replicas, id)
  {
    var e := Excess(list, replicas);
    assert forall id | id in list[e..] :: id in list;
    ListedThere0(s0, list, snap, t);
    hide Listed, Members;
  }

  lemma ListedThere0(s: State, list: seq<nat>, snap: map<nat, Pod>, t: nat)
    requires Listed(s, list, snap, t)
    ensures forall id | id in list :: id in s.pods <==> id in Members(s, t)
  {
  }

  lemma LostAre(s0: State, list: seq<nat>, snap: map<nat, Pod>, infraUp: nat -> bool, t: nat, replicas: nat)
    requires Listed(s0, list, snap, t) && forall id | id in list :: id in snap
    ensures var kept := Kept(list, replicas, Gone(s0, list, t));
            var lost := LostOf(list, snap, infraUp, kept, |list|);
            && (forall id | id in list :: id in lost <==> IsLost(snap[id], id in kept && infraUp(id)))
            && (lost != {} <==> AnyLost(s0, list, snap, infraUp, replicas))
  {
    KeptAre(s0, list, snap, t, replicas);
    hide Kept, Gone, Retained, Listed;
    var kept := Kept(list, replicas, Gone(s0, list, t));
    var lost := LostOf(list, snap, infraUp, kept, |list|);
    forall id | id in list ensures id in lost <==> IsLost(snap[id], id in kept && infraUp(id)) {
      var i :| 0 <= i < |list| && list[i] == id;
    }
    LostAreListed(list, snap, infraUp, kept);
    if lost != {} {
      var id :| id in lost;
      assert IsLost(snap[id], Retained(s0, list, replicas, id) && infraUp(id));
    }
  }

  lemma NewestIsNew(s1: State, s2: State, list: seq<nat>, snap: map<nat, Pod>, kept: set<nat>, t: nat, tpl: Template,
      lost: set<nat>, newest: Option<nat>)
    requires Recoverable(s1, list, snap, kept, t) && Recovering(s1, s2, t, tpl, lost, newest)
    ensures newest.Some? ==> newest.value !in list
  {
    hide Steady;
  }

  lemma ListedLeft(s1: State, s2: State, list: seq<nat>, snap: map<nat, Pod>, kept: set<nat>, t: nat, tpl: Template,
      lost: set<nat>, newest: Option<nat>, id: nat)
    requires Recoverable(s1, list, snap, kept, t) && Recovering(s1, s2, t, tpl, lost, newest) && id in list
    requires newest.Some? ==> newest.value != id
    requires id in kept ==> id in s1.pods && s1.pods[id] == snap[id]
    ensures id in s2.pods <==>
              id in kept && id !in lost && !(lost != {} && Proper(tpl) && HasTemplateName(snap[id], tpl))
  {
    OldMember(s1, s2, t, tpl, newest.Some?, id);
    OwnPod(s1, s2, t, tpl, newest.Some?, id);
    hide Steady, Proper, HasTemplateName;
    assert id in s2.pods <==> id in Members(s2, t);
    assert id in kept <==> id in Members(s1, t);
  }

  lemma RecoveredSteady(s0: State, s1: State, s2: State, t: nat, tpl: Template, lost: set<nat>, newest: Option<nat>)
    requires Steady(s0, s1, t, tpl, false) && Recovering(s1, s2, t, tpl, lost, newest)
    ensures Steady(s0, s2, t, tpl, newest.Some?)
  {
    hide Valid, Others, Past, Members, Namesakes;
    SteadyChain(s0, s1, s2, t, tpl, false, newest.Some?);
  }

  /** Where the pods of the set come from, after its turn. */
  lemma RecoveredAccounted(s0: State, s1: State, s2: State, list: seq<nat>, snap: map<nat, Pod>, infraUp: nat -> bool,
      t: nat, tpl: Template,
                           replicas: nat, gone: set<nat>, newest: Option<nat>)
    requires Scaled(s0, s1, list, snap, t, tpl, replicas, gone) && (forall id | id in list :: id in snap)
    requires Recovering(s1, s2, t, tpl, LostOf(list, snap, infraUp, Kept(list, replicas, gone), |list|), newest)
    ensures Accounted(s0, s2, t, tpl, newest.Some?)
  {
    hide LostOf, Recoverable, Steady, Namesakes, Kept, Added, HasTemplateName;
    forall id | id in Members(s2, t)
      ensures id in s2.pods
      ensures (id in Members(s0, t) && id in s0.pods && SameFace(s0.pods[id], s2.pods[id]))
              || s2.pods[id].name.Suffixed? || (newest.Some? && HasTemplateName(s2.pods[id], tpl))
    {
      if newest == Some(id) {
      } else {
        assert id in Members(s1, t);
        assert SameFace(s1.pods[id], s2.pods[id]);
      }
    }
  }
}
