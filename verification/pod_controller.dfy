/** What the pod controller's steps do to the store: to the pods of the template whose turn it
    is, and to everything else. */
module PodController {
  import opened Wrappers
  import opened PodStore
  import opened PodOperations

  // ----- names and neighbours -----

  predicate HasTemplateName(p: Pod, t: Template) {
    Named(p, Plain(t.name), t.namespace)
  }

  /** A template without name or namespace is stored, but no pod can be made from it. */
  predicate Proper(t: Template) {
    t.name != "" && t.namespace != ""
  }

  /** A pod of template `u` bears the name. */
  predicate Bears(s: State, tpl: Template, u: nat) {
    exists id | id in s.pods :: HasTemplateName(s.pods[id], tpl) && s.pods[id].template == u
  }

  /** What a turn of template `t` does to all other templates. If it takes the name, the pod
      that bears it goes, and with it that pod's template unless a replica set uses it. */
  ghost predicate Others(s: State, s': State, t: nat, tpl: Template, takes: bool) {
    && (forall id | id in s'.pods :: id in s.pods || id >= s.next)
    && (forall id | id in s'.pods && s'.pods[id].template != t :: id in s.pods && s'.pods[id] == s.pods[id])
    && (forall id | id in s.pods && s.pods[id].template != t ::
          && (id in s'.pods <==> !(takes && HasTemplateName(s.pods[id], tpl)))
          && (id in s'.pods ==> s'.pods[id] == s.pods[id]))
    && (forall u | u in s'.templates :: u in s.templates && s'.templates[u] == s.templates[u])
    && (forall u | u in s.templates && u != t :: u in s'.templates <==>
        !(takes && !Referenced(s, u) && Bears(s, tpl, u)))
  }

  ghost predicate Keeps(s: State, s': State) {
    s'.replicaSets == s.replicaSets && s'.next >= s.next
  }

  lemma BearsElsewhere(s: State, s': State, t: nat, tpl: Template, u: nat)
    requires Others(s, s', t, tpl, false) && u != t
    ensures Bears(s', tpl, u) <==> Bears(s, tpl, u)
  {
  }

  /** One turn after another of the same template; the name is taken from a neighbour once at most. */
  lemma OthersChain(a: State, b: State, c: State, t: nat, tpl: Template, first: bool, second: bool)
    requires Others(a, b, t, tpl, first) && Others(b, c, t, tpl, second) && !(first && second)
    requires Keeps(a, b) && Past(a)
    ensures Others(a, c, t, tpl, first || second)
  {
    hide HasTemplateName;
    forall u | u in a.templates && u != t
      ensures u in c.templates <==> !((first || second) && !Referenced(a, u) && Bears(a, tpl, u))
    {
      ReferencesOnly(a, b, u);
      if !first {
        BearsElsewhere(a, b, t, tpl, u);
      }
    }
    hide Bears, Referenced;
    forall id | id in a.pods && a.pods[id].template != t
      ensures id in c.pods <==> !((first || second) && HasTemplateName(a.pods[id], tpl))
      ensures id in c.pods ==> c.pods[id] == a.pods[id]
    {
      if id in b.pods {
        assert b.pods[id] == a.pods[id];
      } else {
        NotBack(a, b, c, t, tpl, second, id);
      }
    }
  }

  lemma NotBack(a: State, b: State, c: State, t: nat, tpl: Template, takes: bool, id: nat)
    requires Others(b, c, t, tpl, takes) && Keeps(a, b) && Past(a) && id in a.pods && id !in b.pods
    ensures id !in c.pods
  {
  }

  /** The other templates' pods are all as they were exactly if the name was not taken, or no
      pod of another template bore it. */
  lemma LeavesOthersAlone(s: State, s': State, t: nat, tpl: Template, takes: bool)
    requires Others(s, s', t, tpl, takes)
    ensures (forall u | u != t :: Untouched(s, s', u)) <==> (!takes || forall u | u != t :: !Bears(s, tpl, u))
  {
    if !takes || forall u | u != t :: !Bears(s, tpl, u) {
      forall u | u != t ensures Untouched(s, s', u) {
        assert takes ==> !Bears(s, tpl, u);
      }
    } else {
      var u :| u != t && Bears(s, tpl, u);
      var id :| id in s.pods && HasTemplateName(s.pods[id], tpl) && s.pods[id].template == u;
      assert id in Members(s, u) && id !in s'.pods;
      assert !Untouched(s, s', u);
    }
  }

  /** The pods of that template are exactly as they were. */
  ghost predicate Untouched(s: State, s': State, t: nat) {
    Members(s', t) == Members(s, t) && forall id | id in Members(s, t) :: id in s'.pods && s'.pods[id] == s.pods[id]
  }

  lemma UntouchedChain(a: State, b: State, c: State, t: nat)
    requires Untouched(a, b, t) && Untouched(b, c, t)
    ensures Untouched(a, c, t)
  {
    hide Members;
  }

  // ----- single steps -----

  /** The pods of the template that bear its name: one at most. */
  function Namesakes(s: State, t: nat, tpl: Template): set<nat> {
    set id | id in s.pods && s.pods[id].template == t && HasTemplateName(s.pods[id], tpl)
  }

  function WithoutName(s: State, tpl: Template): State {
    s.(pods := map id | id in s.pods && !HasTemplateName(s.pods[id], tpl) :: s.pods[id],
       templates := map u | u in s.templates && (Referenced(s, u) || !Bears(s, tpl, u)) :: s.templates[u])
  }

  function NewPod(t: nat, tpl: Template, ulid: nat): Pod {
    Pod(t, Plain(tpl.name), tpl.namespace, Made(ulid), Created, false)
  }

  /** A pod made from the template, under the template's own name. */
  function Taken(s: State, t: nat, tpl: Template): State {
    var s1 := WithoutName(s, tpl);
    s1.(pods := s1.pods[s.next + 1 := NewPod(t, tpl, s.next)], next := s.next + 2)
  }

  lemma HolderGoes(s: State, tpl: Template, h: nat)
    requires Valid(s) && h in s.pods && HasTemplateName(s.pods[h], tpl)
    ensures PodRemoved(s, h) == WithoutName(s, tpl)
  {
    assert forall id | id in s.pods :: HasTemplateName(s.pods[id], tpl) <==> id == h;
    assert forall u :: Bears(s, tpl, u) <==> u == s.pods[h].template;
    hide Valid, HasTemplateName, Bears;
    assert PodRemoved(s, h).pods == WithoutName(s, tpl).pods;
    assert PodRemoved(s, h).templates == WithoutName(s, tpl).templates;
  }

  lemma NobodyGoes(s: State, tpl: Template)
    requires forall id | id in s.pods :: !HasTemplateName(s.pods[id], tpl)
    ensures WithoutName(s, tpl) == s
  {
    assert WithoutName(s, tpl).pods == s.pods;
    assert WithoutName(s, tpl).templates == s.templates;
  }

  lemma TakesName(s: State, t: nat, tpl: Template, uid: Uid)
    requires Valid(s) && forall id | id in s.pods :: s.pods[id].uid != uid
    ensures NameTaken(s, t, Plain(tpl.name), tpl.namespace, uid, true)
            == PodStored(WithoutName(s, tpl), t, Plain(tpl.name), tpl.namespace, uid)
  {
    var holder := Holder(s, Plain(tpl.name), tpl.namespace);
    if holder.Some? {
      HolderGoes(s, tpl, holder.value);
    } else {
      NobodyGoes(s, tpl);
    }
    hide Valid, Holder, PodStored, PodRemoved, WithoutName;
  }

  /** Making a pod from its template takes the template's name from whoever bears it. */
  lemma TakesExactly(s: State, t: nat, tpl: Template)
    requires Valid(s) && Proper(tpl)
    ensures PodCreated(s, t, Plain(tpl.name), tpl.namespace, "", true) == (Taken(s, t, tpl), Some(s.next + 1))
  {
    TickKeeps(s);
    var s0 := s.(next := s.next + 1);
    assert forall id | id in s0.pods :: s0.pods[id].uid != Made(s.next);
    hide Valid, Holder, NameTaken;
    TakesName(s0, t, tpl, Made(s.next));
    TickedAway(s, tpl);
    hide WithoutName;
  }

  lemma TickedAway(s: State, tpl: Template)
    ensures WithoutName(s.(next := s.next + 1), tpl) == WithoutName(s, tpl).(next := s.next + 1)
  {
    var s0 := s.(next := s.next + 1);
    assert forall u :: Bears(s0, tpl, u) <==> Bears(s, tpl, u);
    assert forall u :: Referenced(s0, u) <==> Referenced(s, u);
    hide Bears, Referenced;
    assert WithoutName(s0, tpl).templates == WithoutName(s, tpl).templates;
    assert WithoutName(s0, tpl).pods == WithoutName(s, tpl).pods;
  }

  lemma NewPodBears(t: nat, tpl: Template, ulid: nat)
    ensures HasTemplateName(NewPod(t, tpl, ulid), tpl) && NewPod(t, tpl, ulid).template == t
  {
  }

  lemma FreshNow(s: State)
    requires Valid(s)
    ensures s.next + 1 !in s.pods
  {
  }

  lemma TakenOthers(s: State, t: nat, tpl: Template)
    requires Valid(s)
    ensures Others(s, Taken(s, t, tpl), t, tpl, true) && Keeps(s, Taken(s, t, tpl))
    ensures (forall u | u != t :: !Bears(s, tpl, u)) ==> Others(s, Taken(s, t, tpl), t, tpl, false)
  {
    hide Valid, Referenced, HasTemplateName;
    FreshNow(s);
    NewPodBears(t, tpl, s.next);
    assert forall id | id in s.pods && HasTemplateName(s.pods[id], tpl) :: Bears(s, tpl, s.pods[id].template);
    hide Bears;
  }

  lemma TakenMembers(s: State, t: nat, tpl: Template)
    requires Valid(s)
    ensures Members(Taken(s, t, tpl), t) == Members(s, t) - Namesakes(s, t, tpl) + {s.next + 1}
    ensures s.next + 1 !in s.pods && s.next + 1 in Taken(s, t, tpl).pods
    ensures Taken(s, t, tpl).pods[s.next + 1] == NewPod(t, tpl, s.next)
    ensures forall id | id in Taken(s, t, tpl).pods && id != s.next + 1 ::
            id in s.pods && Taken(s, t, tpl).pods[id] == s.pods[id]
  {
    assert s.next + 1 !in s.pods;
    hide Valid;
  }

  lemma DroppedOthers(s: State, t: nat, tpl: Template, id: nat)
    requires id in s.pods ==> s.pods[id].template == t
    ensures Others(s, Dropped(s, id), t, tpl, false) && Keeps(s, Dropped(s, id))
    ensures Members(Dropped(s, id), t) == Members(s, t) - {id}
    ensures Namesakes(Dropped(s, id), t, tpl) == Namesakes(s, t, tpl) - {id}
    ensures forall x | x in Members(s, t) ::
            x in s.pods && (x != id ==> x in Dropped(s, id).pods && Dropped(s, id).pods[x] == s.pods[x])
  {
    hide HasTemplateName;
  }

  lemma StartedOthers(s: State, t: nat, tpl: Template, id: nat)
    requires id in s.pods && s.pods[id].template == t
    ensures Others(s, Started(s, id), t, tpl, false) && Keeps(s, Started(s, id))
    ensures Members(Started(s, id), t) == Members(s, t)
    ensures forall x | x in s.pods :: x in Started(s, id).pods && SameFace(s.pods[x], Started(s, id).pods[x])
    ensures forall x | x in s.pods && x != id :: Started(s, id).pods[x] == s.pods[x]
  {
    hide HasTemplateName;
  }

  predicate SameFace(p: Pod, q: Pod) {
    p.name == q.name && p.namespace == q.namespace && p.template == q.template
  }

  // ----- a turn -----

  /** A turn of template `t`, so far. */
  ghost predicate Steady(s0: State, s: State, t: nat, tpl: Template, takes: bool) {
    Past(s0) && Valid(s) && Keeps(s0, s) && Others(s0, s, t, tpl, takes)
  }

  lemma SteadyStart(s: State, t: nat, tpl: Template)
    requires Valid(s)
    ensures Steady(s, s, t, tpl, false)
  {
    assert Past(s);
    hide Valid, Past;
  }

  lemma SteadyChain(s0: State, s: State, s': State, t: nat, tpl: Template, first: bool, second: bool)
    requires Steady(s0, s, t, tpl, first) && Others(s, s', t, tpl, second) && Keeps(s, s') && Valid(s') &&
            !(first && second)
    ensures Steady(s0, s', t, tpl, first || second)
  {
    hide Valid, Others, Past;
    OthersChain(s0, s, s', t, tpl, first, second);
  }

  // ----- more pods -----

  /** `n` more pods of the template, each under a new name. */
  ghost predicate Grown(s0: State, s: State, t: nat, tpl: Template, n: nat) {
    && Steady(s0, s, t, tpl, false)
    && Members(s0, t) <= Members(s, t) && |Members(s, t)| == |Members(s0, t)| + n
    && (forall id | id in Members(s0, t) :: id in s.pods && id in s0.pods && s.pods[id] == s0.pods[id])
    && (forall id | id in Members(s, t) - Members(s0, t) :: id >= s0.next && id in s.pods && s.pods[id].name.Suffixed?)
  }

  lemma GrownStart(s: State, t: nat, tpl: Template)
    requires Valid(s)
    ensures Grown(s, s, t, tpl, 0)
  {
    assert Past(s);
    hide Valid, Past;
  }

  function Suffixing(s: State, t: nat, base: string, namespace: string): State {
    s.(pods := s.pods[s.next + 2 := Pod(t, Suffixed(base, s.next), namespace, Made(s.next + 1), Created, false)],
        next := s.next + 3)
  }

  /** A new suffix is never taken. */
  lemma SuffixedCreates(s: State, t: nat, base: string, namespace: string)
    requires Valid(s) && namespace != ""
    ensures PodCreated(s.(next := s.next + 1), t, Suffixed(base, s.next), namespace, "", true)
            == (Suffixing(s, t, base, namespace), Some(s.next + 2))
  {
    var s0 := s.(next := s.next + 2);
    assert Holder(s0, Suffixed(base, s.next), namespace).None?;
  }

  lemma SuffixFresh(s: State)
    requires Valid(s)
    ensures s.next + 2 !in s.pods
  {
  }

  lemma SuffixingMembers(s: State, t: nat, base: string, namespace: string)
    ensures Members(Suffixing(s, t, base, namespace), t) == Members(s, t) + {s.next + 2}
    ensures forall x | x in Members(s, t) :: x in s.pods
    ensures s.next + 2 in Suffixing(s, t, base, namespace).pods
    ensures Suffixing(s, t, base, namespace).pods[s.next + 2].name.Suffixed?
    ensures Suffixing(s, t, base, namespace).pods[s.next + 2].template == t
  {
  }

  lemma SuffixingOthers(s: State, t: nat, tpl: Template, base: string, namespace: string)
    requires s.next + 2 !in s.pods
    ensures Others(s, Suffixing(s, t, base, namespace), t, tpl, false) && Keeps(s, Suffixing(s, t, base, namespace))
    ensures forall x | x in s.pods ::
            x in Suffixing(s, t, base, namespace).pods && Suffixing(s, t, base, namespace).pods[x] == s.pods[x]
  {
    hide HasTemplateName;
  }

  lemma GrownNext(s0: State, s: State, t: nat, tpl: Template, n: nat, base: string, namespace: string)
    requires Grown(s0, s, t, tpl, n) && Valid(Suffixing(s, t, base, namespace))
    ensures Grown(s0, Suffixing(s, t, base, namespace), t, tpl, n + 1) && s.next + 2 !in Members(s0, t)
  {
    hide Valid, Others, Suffixing, Members;
    SuffixFresh(s);
    SuffixingOthers(s, t, tpl, base, namespace);
    SuffixingMembers(s, t, base, namespace);
    SteadyChain(s0, s, Suffixing(s, t, base, namespace), t, tpl, false, false);
    NotMember(s, t, s.next + 2);
    GrownBy(s0, s, Suffixing(s, t, base, namespace), t, tpl, n, s.next + 2);
  }

  lemma NotMember(s: State, t: nat, id: nat)
    requires id !in s.pods
    ensures id !in Members(s, t)
  {
  }

  lemma GrownBy(s0: State, s: State, s': State, t: nat, tpl: Template, n: nat, id: nat)
    requires Grown(s0, s, t, tpl, n) && Steady(s0, s', t, tpl, false)
    requires Members(s', t) == Members(s, t) + {id} && id !in Members(s, t)
    requires id >= s0.next && id in s'.pods && s'.pods[id].name.Suffixed?
    requires forall x | x in Members(s, t) :: x in s'.pods && x in s.pods && s'.pods[x] == s.pods[x]
    ensures Grown(s0, s', t, tpl, n + 1)
  {
    hide Steady, Members;
  }

  lemma GrownStarted(s0: State, s: State, t: nat, tpl: Template, n: nat, id: nat)
    requires Grown(s0, s, t, tpl, n) && id in s.pods && s.pods[id].template == t && id !in Members(s0, t)
    ensures Grown(s0, Started(s, id), t, tpl, n)
  {
    hide Valid, Others, Members;
    StartingKeeps(s, id);
    StartedOthers(s, t, tpl, id);
    SteadyChain(s0, s, Started(s, id), t, tpl, false, false);
    hide Steady, Started;
  }

  // ----- fewer pods -----

  /** The pods of a set that are not among `gone` are as they were. */
  ghost predicate Shrunk(s0: State, s: State, t: nat, tpl: Template, gone: set<nat>) {
    && Steady(s0, s, t, tpl, false)
    && Members(s, t) == Members(s0, t) - gone
    && (forall id | id in Members(s, t) :: id in s.pods && id in s0.pods && s.pods[id] == s0.pods[id])
  }

  lemma ShrunkStart(s: State, t: nat, tpl: Template)
    requires Valid(s)
    ensures Shrunk(s, s, t, tpl, {})
  {
    assert Past(s);
    hide Valid, Past;
  }

  lemma ShrunkNext(s0: State, s: State, t: nat, tpl: Template, gone: set<nat>, id: nat)
    requires Shrunk(s0, s, t, tpl, gone) && (id in s0.pods ==> s0.pods[id].template == t)
    ensures Shrunk(s0, Dropped(s, id), t, tpl, gone + {id})
  {
    hide Valid, Others, Members, Dropped;
    OwnPod(s0, s, t, tpl, false, id);
    DroppingPodKeeps(s, id);
    DroppedOthers(s, t, tpl, id);
    SteadyChain(s0, s, Dropped(s, id), t, tpl, false, false);
    hide Steady;
  }

  lemma OwnPod(s0: State, s: State, t: nat, tpl: Template, takes: bool, id: nat)
    requires Steady(s0, s, t, tpl, takes) && (id in s0.pods ==> s0.pods[id].template == t)
    ensures id in s.pods ==> s.pods[id].template == t
  {
    hide Valid;
  }

  // ----- recovering -----

  /** A pod that the controller takes for lost, as its entry in the list says. */
  predicate Lost(p: Pod, infraRuns: bool) {
    !p.stoppedByUser && p.state == Degraded && !infraRuns
  }

  /** The lost ones among the first `j` of the list; what is no longer there has no running
      infra container. */
  function LostOf(list: seq<nat>, snap: map<nat, Pod>, infraUp: nat -> bool, there: set<nat>, j: nat): set<nat>
    requires j <= |list| && forall id | id in list :: id in snap
  {
    set i | 0 <= i < j && Lost(snap[list[i]], list[i] in there && infraUp(list[i])) :: list[i]
  }

  ghost predicate SameNames(s0: State, s: State, t: nat) {
    forall id | id in Members(s, t) && id in s0.pods :: id in s.pods && SameFace(s0.pods[id], s.pods[id])
  }

  /** `lost` have been recreated since recovery began in state `s0`. Each time the new pod took
      the template's name, first from whoever bore it, then from the one before. A template
      that no pod can be made from only loses them. */
  ghost predicate Recovering(s0: State, s: State, t: nat, tpl: Template, lost: set<nat>, newest: Option<nat>) {
    && Steady(s0, s, t, tpl, newest.Some?)
    && (newest.None? ==> (Proper(tpl) ==> lost == {}) && Members(s, t) == Members(s0, t) - lost)
    && (newest.Some? ==>
          && Proper(tpl) && lost != {} && newest.value !in s0.pods && newest.value >= s0.next
          && newest.value in s.pods && s.pods[newest.value].template == t && HasTemplateName(s.pods[newest.value], tpl)
          && Members(s, t) == Members(s0, t) - lost - Namesakes(s0, t, tpl) + {newest.value})
    && SameNames(s0, s, t)
  }

  lemma RecoveringStart(s: State, t: nat, tpl: Template)
    requires Valid(s)
    ensures Recovering(s, s, t, tpl, {}, None)
  {
    assert Past(s);
    hide Valid, Past;
  }

  /** Who bears the template's name, seen from the start of the recovery. */
  lemma NamesakesThen(s0: State, s: State, t: nat, tpl: Template, lost: set<nat>, newest: Option<nat>)
    requires Recovering(s0, s, t, tpl, lost, newest)
    ensures newest.Some? ==> Namesakes(s, t, tpl) == {newest.value} && forall u | u != t :: !Bears(s, tpl, u)
    ensures newest.None? ==> Namesakes(s, t, tpl) == Namesakes(s0, t, tpl) * Members(s, t)
  {
    if newest.Some? {
      forall id | id in s.pods && HasTemplateName(s.pods[id], tpl) ensures id == newest.value {
        assert UniqueNames(s);
      }
    } else {
      hide Valid, Others;
      forall id ensures id in Namesakes(s, t, tpl) <==> id in Namesakes(s0, t, tpl) && id in Members(s, t) {
        if id in Members(s, t) {
          assert id in Members(s0, t);
        }
      }
    }
  }

  lemma RecoverSets(m0: set<nat>, named0: set<nat>, m: set<nat>, named: set<nat>, lost: set<nat>, newest: Option<nat>,
                    id: nat, lost': set<nat>, n: nat)
    requires newest.None? ==> lost == {} && m == m0 && named == named0 * m
    requires newest.Some? ==> m == m0 - lost - named0 + {newest.value} && named == {newest.value}
    requires newest.Some? ==> newest.value !in m0 && id != newest.value
    requires lost' == lost + {id} || (lost' == lost && newest.Some? && id in named0)
    ensures m - {id} - (named - {id}) + {n} == m0 - lost' - named0 + {n}
  {
  }

  lemma SameNamesNext(s0: State, s: State, s': State, t: nat, n: nat)
    requires SameNames(s0, s, t) && n !in s0.pods
    requires forall x | x in s'.pods && x != n :: x in s.pods && s'.pods[x] == s.pods[x]
    ensures SameNames(s0, s', t)
  {
  }

  lemma FreshThen(s0: State, s: State)
    requires Valid(s0) && s.next >= s0.next
    ensures s.next + 1 !in s0.pods
  {
  }

  /** A lost pod of a proper template is made again: it goes, whoever bears the name goes, and
      the new pod has it. A pod evicted by an earlier recreation counts as gone already. */
  lemma RecoverNext(s0: State, s: State, t: nat, tpl: Template, lost: set<nat>, newest: Option<nat>, id: nat,
      lost': set<nat>)
    requires Valid(s0) && Proper(tpl) && Recovering(s0, s, t, tpl, lost, newest)
    requires id < s0.next && (id in s0.pods ==> s0.pods[id].template == t)
    requires lost' == lost + {id} || (lost' == lost && newest.Some? && id in Namesakes(s0, t, tpl))
    requires Valid(Taken(Dropped(s, id), t, tpl))
    ensures Recovering(s0, Taken(Dropped(s, id), t, tpl), t, tpl, lost', Some(s.next + 1))
  {
    hide Valid, Others, Members, Namesakes, Taken, SameNames, Dropped, Proper, HasTemplateName;
    RecoverShape(s0, s, t, tpl, lost, newest, id);
    RecoverMembers(s0, s, t, tpl, lost, newest, id, lost');
    FreshThen(s0, s);
  }

  lemma RecoverShape(s0: State, s: State, t: nat, tpl: Template, lost: set<nat>, newest: Option<nat>, id: nat)
    requires Valid(s0) && Recovering(s0, s, t, tpl, lost, newest)
    requires (id in s0.pods ==> s0.pods[id].template == t) && Valid(Taken(Dropped(s, id), t, tpl))
    ensures var s' := Taken(Dropped(s, id), t, tpl);
            && Steady(s0, s', t, tpl, true) && SameNames(s0, s', t)
            && s.next + 1 in s'.pods && s'.pods[s.next + 1].template == t && HasTemplateName(s'.pods[s.next + 1], tpl)
  {
    hide Valid, Others, Members, Namesakes, Taken, SameNames, Dropped, Proper;
    var s1 := Dropped(s, id);
    OwnPod(s0, s, t, tpl, newest.Some?, id);
    DroppingPodKeeps(s, id);
    DroppedOthers(s, t, tpl, id);
    DroppedNext(s, id);
    SteadyChain(s0, s, s1, t, tpl, newest.Some?, false);
    NamesakesThen(s0, s, t, tpl, lost, newest);
    TakenOthers(s1, t, tpl);
    TakenMembers(s1, t, tpl);
    FreshThen(s0, s);
    DroppedNames(s0, s, t, id);
    SameNamesNext(s0, s1, Taken(s1, t, tpl), t, s.next + 1);
    if newest.Some? {
      forall u | u != t ensures !Bears(s1, tpl, u) {
        BearsElsewhere(s, s1, t, tpl, u);
      }
      SteadyChain(s0, s1, Taken(s1, t, tpl), t, tpl, true, false);
    } else {
      SteadyChain(s0, s1, Taken(s1, t, tpl), t, tpl, false, true);
    }
  }

  lemma DroppedNext(s: State, id: nat)
    ensures Dropped(s, id).next == s.next && Dropped(s, id).templates == s.templates &&
            Dropped(s, id).replicaSets == s.replicaSets
  {
  }

  lemma DroppedNames(s0: State, s: State, t: nat, id: nat)
    requires SameNames(s0, s, t)
    ensures SameNames(s0, Dropped(s, id), t)
  {
  }

  lemma RecoverMembers(s0: State, s: State, t: nat, tpl: Template, lost: set<nat>, newest: Option<nat>, id: nat,
      lost': set<nat>)
    requires Proper(tpl) && Recovering(s0, s, t, tpl, lost, newest) && Valid(s)
    requires id < s0.next && (id in s0.pods ==> s0.pods[id].template == t)
    requires lost' == lost + {id} || (lost' == lost && newest.Some? && id in Namesakes(s0, t, tpl))
    ensures Members(Taken(Dropped(s, id), t, tpl), t) == Members(s0, t) - lost' - Namesakes(s0, t, tpl) + {s.next + 1}
  {
    hide Valid, Others, Members, Namesakes, Taken, SameNames, Steady, Dropped, Proper, HasTemplateName, Bears;
    OwnPod(s0, s, t, tpl, newest.Some?, id);
    NamesakesThen(s0, s, t, tpl, lost, newest);
    DroppingPodKeeps(s, id);
    DroppedOthers(s, t, tpl, id);
    DroppedNext(s, id);
    TakenMembers(Dropped(s, id), t, tpl);
    NamesakesAreMembers(s0, t, tpl);
    if newest.Some? {
      NotMember(s0, t, newest.value);
    }
    RecoverSets(Members(s0, t), Namesakes(s0, t, tpl), Members(s, t), Namesakes(s, t, tpl), lost, newest, id, lost',
        s.next + 1);
  }

  lemma NamesakesAreMembers(s: State, t: nat, tpl: Template)
    ensures Namesakes(s, t, tpl) <= Members(s, t)
  {
  }

  /** A lost pod of a template that no pod can be made from just goes. */
  lemma RecoverFails(s0: State, s: State, t: nat, tpl: Template, lost: set<nat>, id: nat)
    requires Valid(s0) && !Proper(tpl) && Recovering(s0, s, t, tpl, lost, None)
    requires id in s0.pods ==> s0.pods[id].template == t
    ensures Recovering(s0, Dropped(s, id), t, tpl, lost + {id}, None)
  {
    hide Valid, Others, Members, Namesakes, Dropped, Proper;
    OwnPod(s0, s, t, tpl, false, id);
    DroppingPodKeeps(s, id);
    DroppedOthers(s, t, tpl, id);
    SteadyChain(s0, s, Dropped(s, id), t, tpl, false, false);
    DroppedNames(s0, s, t, id);
    hide Steady, SameNames;
  }

  lemma RecoveringStarted(s0: State, s: State, t: nat, tpl: Template, lost: set<nat>, newest: Option<nat>, id: nat)
    requires Recovering(s0, s, t, tpl, lost, newest) && id in s.pods && s.pods[id].template == t
    ensures Recovering(s0, Started(s, id), t, tpl, lost, newest)
  {
    hide Valid, Others, Members, Namesakes;
    StartingKeeps(s, id);
    StartedOthers(s, t, tpl, id);
    SteadyChain(s0, s, Started(s, id), t, tpl, newest.Some?, false);
    StartedNames(s0, s, t, id);
    hide Steady, SameNames;
  }

  lemma StartedNames(s0: State, s: State, t: nat, id: nat)
    requires id in s.pods && SameNames(s0, s, t)
    ensures SameNames(s0, Started(s, id), t)
    ensures forall x | x in s.pods :: SameFace(s.pods[x], Started(s, id).pods[x])
  {
  }

  // ----- the list and the count -----

  /** The pods of the template in the order of the list taken at the start. */
  function Filtered(order: seq<nat>, snap: map<nat, Pod>, t: nat): seq<nat> {
    if order == [] then []
    else
      var last := order[|order| - 1];
      Filtered(order[..|order| - 1], snap, t) + if last in snap && snap[last].template == t then [last] else []
  }

  predicate NoRepeats(xs: seq<nat>) {
    forall i, j | 0 <= i < j < |xs| :: xs[i] != xs[j]
  }

  function Ids(xs: seq<nat>): set<nat> {
    set x | x in xs
  }

  lemma {:induction false} FilteredExactly(order: seq<nat>, snap: map<nat, Pod>, t: nat)
    requires NoRepeats(order)
    ensures NoRepeats(Filtered(order, snap, t))
    ensures forall id :: id in Filtered(order, snap, t) <==> id in order && id in snap && snap[id].template == t
  {
    if order != [] {
      var n := |order| - 1;
      FilteredExactly(order[..n], snap, t);
      assert order == order[..n] + [order[n]];
      assert order[n] !in order[..n];
    }
  }

  lemma {:induction false} SetSize(xs: seq<nat>)
    requires NoRepeats(xs)
    ensures |Ids(xs)| == |xs|
  {
    if xs != [] {
      var n := |xs| - 1;
      SetSize(xs[..n]);
      assert xs == xs[..n] + [xs[n]];
      assert Ids(xs) == Ids(xs[..n]) + {xs[n]};
    }
  }

  function Excess(list: seq<nat>, replicas: nat): (e: nat)
    ensures e <= |list|
  {
    if |list| > replicas then |list| - replicas else 0
  }

  /** The listed pods that scaling leaves in place; `gone` are those no longer there when the
      set's turn comes. */
  function Kept(list: seq<nat>, replicas: nat, gone: set<nat>): set<nat> {
    Ids(list[Excess(list, replicas)..]) - gone
  }

  /** The pods that scaling adds: none if the template names no namespace. */
  function Added(list: seq<nat>, replicas: nat, tpl: Template): nat {
    if |list| < replicas && tpl.namespace != "" then replicas - |list| else 0
  }

  /** The kept pods that either are lost or bear the template's name. */
  function Touched(list: seq<nat>, snap: map<nat, Pod>, infraUp: nat -> bool, kept: set<nat>, tpl: Template): set<nat>
    requires forall id | id in list :: id in snap
  {
    set id | id in kept &&
        (id in LostOf(list, snap, infraUp, kept, |list|) || (id in snap && HasTemplateName(snap[id], tpl)))
  }

  /** How many pods a set has after its turn. */
  function CountAfter(list: seq<nat>, snap: map<nat, Pod>, infraUp: nat -> bool, replicas: nat, tpl: Template,
      gone: set<nat>): int
    requires forall id | id in list :: id in snap
  {
    var kept := Kept(list, replicas, gone);
    var lost := LostOf(list, snap, infraUp, kept, |list|);
    if lost == {} then |kept| + Added(list, replicas, tpl)
    else if Proper(tpl) then |kept - Touched(list, snap, infraUp, kept, tpl)| + Added(list, replicas, tpl) + 1
    else |kept - lost| + Added(list, replicas, tpl)
  }

  lemma KeptSize(list: seq<nat>, replicas: nat, gone: set<nat>)
    requires NoRepeats(list)
    ensures |Kept(list, replicas, {})| == if |list| > replicas then replicas else |list|
    ensures |Kept(list, replicas, gone)| <= |Kept(list, replicas, {})|
  {
    var tail := list[Excess(list, replicas)..];
    SetSize(tail);
    assert Kept(list, replicas, {}) == Ids(tail);
    SizeWithout(Ids(tail), Ids(tail) * gone);
    assert Ids(tail) - gone == Ids(tail) - Ids(tail) * gone;
  }

  lemma SizeWithout(all: set<nat>, part: set<nat>)
    requires part <= all
    ensures |all - part| == |all| - |part|
  {
  }

  lemma TouchedAreKept(list: seq<nat>, snap: map<nat, Pod>, infraUp: nat -> bool, kept: set<nat>, tpl: Template)
    requires forall id | id in list :: id in snap
    ensures Touched(list, snap, infraUp, kept, tpl) <= kept
  {
  }

  lemma SizesWithout(kept: set<nat>, touched: set<nat>, lost: set<nat>)
    requires touched <= kept
    ensures |kept - touched| == |kept| - |touched|
    ensures |kept - lost| <= |kept| && (|kept - lost| == |kept| <==> kept * lost == {})
  {
    SizeWithout(kept, touched);
    SizeWithout(kept, kept * lost);
    assert kept - lost == kept - kept * lost;
  }

  /** When the set ends up with the wanted number of pods. If no listed pod counts as lost,
      whenever the missing ones can be made at all; if one does, exactly if one kept pod is
      lost or bears the template's name, no more and no fewer. */
  lemma CountIsRight(list: seq<nat>, snap: map<nat, Pod>, infraUp: nat -> bool, replicas: nat, tpl: Template)
    requires NoRepeats(list) && forall id | id in list :: id in snap
    ensures var kept := Kept(list, replicas, {});
            var lost := LostOf(list, snap, infraUp, kept, |list|);
            var canMake := |list| >= replicas || tpl.namespace != "";
            CountAfter(list, snap, infraUp, replicas, tpl, {}) == replicas <==>
              if lost == {} then canMake
              else if Proper(tpl) then |Touched(list, snap, infraUp, kept, tpl)| == 1
              else canMake && kept * lost == {}
  {
    hide LostOf, Touched, Kept;
    var kept := Kept(list, replicas, {});
    var lost := LostOf(list, snap, infraUp, kept, |list|);
    KeptSize(list, replicas, {});
    TouchedAreKept(list, snap, infraUp, kept, tpl);
    SizesWithout(kept, Touched(list, snap, infraUp, kept, tpl), lost);
  }

  /** No turn leaves more than one pod too many, whatever happened to the set before. */
  lemma CountAtMost(list: seq<nat>, snap: map<nat, Pod>, infraUp: nat -> bool, replicas: nat, tpl: Template,
      gone: set<nat>)
    requires NoRepeats(list) && forall id | id in list :: id in snap
    ensures CountAfter(list, snap, infraUp, replicas, tpl, gone) <= replicas + 1
  {
    hide LostOf, Touched, Kept, Proper;
    var kept := Kept(list, replicas, gone);
    var lost := LostOf(list, snap, infraUp, kept, |list|);
    KeptSize(list, replicas, gone);
    TouchedAreKept(list, snap, infraUp, kept, tpl);
    SizesWithout(kept, Touched(list, snap, infraUp, kept, tpl), lost);
  }
}
