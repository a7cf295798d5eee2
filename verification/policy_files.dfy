/**
 The policy store's three files while sections run under the file lock and a backup or a
 revert, which take no lock, go on beside them; any of them may fail or die between two
 steps. Backups and reverts are one at a time.
 */
module PolicyFiles {
  import opened Wrappers
  import opened PolicyStore

  type Change = NetworkPolicy -> Option<NetworkPolicy>

  /** What a file holds: a prefix of the bytes, or a whole store. */
  datatype Content = Torn | Whole(np: NetworkPolicy)

  /** A section that has loaded a store and is going to save the changed one. */
  datatype Section = Section(change: Change, loaded: NetworkPolicy)

  /** Where the backup or revert stands. A backup holds the file that it opened, even if the
      path has got another one since; within a revert it comes after the swap. */
  datatype Phase =
    | Resting
    | Opened(source: Content, reverting: bool)
    | Truncated(source: Content, reverting: bool)
    | MovedAway
    | Swapped
    | Cleaning

  datatype Files = Files(path: Option<Content>, running: Option<Content>, org: Option<Content>,
      holder: Option<Section>, phase: Phase)

  datatype Action =
    | Load(change: Change)
    | Save
    | Drop
    | OpenSource
    | Truncate
    | Copy
    | MoveAway
    | Swap
    | RemoveOrg
    | Die

  // ----- steps -----

  /** What a section finds: a missing file stands for the default store, a torn one is an
      error. */
  function Found(path: Option<Content>): Option<NetworkPolicy> {
    match path
    case None => Some(DEFAULT_POLICY)
    case Some(Torn) => None
    case Some(Whole(np)) => Some(np)
  }

  ghost predicate Enabled(f: Files, a: Action) {
    match a
    case Load(change) => f.holder.None? && Found(f.path).Some? && change(Found(f.path).value).Some?
    case Save => f.holder.Some? && f.holder.value.change(f.holder.value.loaded).Some?
    case Drop => f.holder.Some?
    case OpenSource => (f.phase.Resting? || f.phase.Swapped?) && f.path.Some?
    case Truncate => f.phase.Opened?
    case Copy => f.phase.Truncated?
    case MoveAway => f.phase.Resting? && f.path.Some?
    case Swap => f.phase.MovedAway? && f.running.Some?
    case RemoveOrg => f.phase.Cleaning? && f.org.Some?
    case Die => !f.phase.Resting?
  }

  ghost function Next(f: Files, a: Action): Files
    requires Enabled(f, a)
  {
    match a
    case Load(change) => f.(holder := Some(Section(change, Found(f.path).value)))
    case Save => f.(path := Some(Whole(f.holder.value.change(f.holder.value.loaded).value)), holder := None)
    case Drop => f.(holder := None)
    case OpenSource => f.(phase := Opened(f.path.value, f.phase.Swapped?))
    case Truncate => f.(running := Some(Torn), phase := Truncated(f.phase.source, f.phase.reverting))
    case Copy => f.(running := Some(f.phase.source), phase := if f.phase.reverting then Cleaning else Resting)
    case MoveAway => f.(org := f.path, path := None, phase := MovedAway)
    case Swap => f.(path := f.running, running := None, phase := Swapped)
    case RemoveOrg => f.(org := None, phase := Resting)
    case Die => f.(phase := Resting)
  }

  ghost predicate IsRun(states: seq<Files>, actions: seq<Action>) {
    && |states| == |actions| + 1
    && forall k | 0 <= k < |actions| :: Enabled(states[k], actions[k]) && states[k + 1] == Next(states[k], actions[k])
  }

  lemma RunPrefix(states: seq<Files>, actions: seq<Action>)
    requires IsRun(states, actions) && actions != []
    ensures IsRun(states[..|actions|], actions[..|actions| - 1])
  {
    hide Enabled, Next;
  }

  // ----- whole files -----

  /** The policy file is whole, and the copy is except while it is being written. */
  predicate Sound(f: Files) {
    && f.path != Some(Torn)
    && (f.running == Some(Torn) ==> f.phase.Truncated?)
    && (f.phase.Opened? || f.phase.Truncated? ==> f.phase.source.Whole?)
  }

  /** There is one step that breaks this: a backup that ends before its copy is written. */
  lemma SoundNext(f: Files, a: Action)
    requires Sound(f) && Enabled(f, a) && (f.phase.Truncated? ==> f.running == Some(Torn))
    ensures Sound(Next(f, a)) <==> !(a.Die? && f.phase.Truncated?)
    ensures Next(f, a).phase.Truncated? ==> Next(f, a).running == Some(Torn)
  {
  }

  /** If no backup ends before its copy is written, the policy file is whole in every state of
      every run that begins at rest with whole files, whatever else fails, and every section can
      load it. */
  lemma {:induction false} NeverTorn(states: seq<Files>, actions: seq<Action>)
    requires IsRun(states, actions) && states[0].phase.Resting?
    requires states[0].path != Some(Torn) && states[0].running != Some(Torn)
    requires forall k | 0 <= k < |actions| :: !(actions[k].Die? && states[k].phase.Truncated?)
    ensures forall k | 0 <= k <= |actions| :: Sound(states[k]) && Found(states[k].path).Some?
    ensures states[|actions|].phase.Truncated? ==> states[|actions|].running == Some(Torn)
  {
    if actions != [] {
      var n := |actions| - 1;
      RunPrefix(states, actions);
      NeverTorn(states[..n + 1], actions[..n]);
      assert Sound(states[..n + 1][n]);
      SoundNext(states[n], actions[n]);
      hide Enabled, Next;
      forall k | 0 <= k <= n ensures Sound(states[k]) {
        assert states[..n + 1][k] == states[k];
      }
    }
  }

  /** Nothing of the store can be loaded: what is left of it is torn. */
  predicate Dead(f: Files) {
    && (f.path == None || f.path == Some(Torn))
    && (f.running == None || f.running == Some(Torn))
    && (f.phase.Opened? || f.phase.Truncated? ==> f.phase.source.Torn?)
    && f.holder == None
  }

  lemma DeadNext(f: Files, a: Action)
    requires Dead(f) && Enabled(f, a)
    ensures a.Load? ==> f.path == None && Next(f, a).holder.value.loaded == DEFAULT_POLICY
    ensures !a.Load? ==> Dead(Next(f, a))
  {
  }

  /** From there no run brings anything back: until some section finds no file at all, and
      starts over with the defaults, every section fails, whatever is backed up or reverted. */
  lemma {:induction false} DeadStays(states: seq<Files>, actions: seq<Action>)
    requires IsRun(states, actions) && Dead(states[0])
    requires forall k | 0 <= k < |actions| :: !actions[k].Load?
    ensures Dead(states[|actions|])
    ensures forall change | Enabled(states[|actions|], Load(change)) ::
              states[|actions|].path == None &&
              Next(states[|actions|], Load(change)).holder.value.loaded == DEFAULT_POLICY
  {
    if actions != [] {
      var n := |actions| - 1;
      RunPrefix(states, actions);
      DeadStays(states[..n + 1], actions[..n]);
      DeadNext(states[n], actions[n]);
    }
    forall change | Enabled(states[|actions|], Load(change)) {
      DeadNext(states[|actions|], Load(change));
    }
  }

  const CUT_RUN := [OpenSource, Truncate, Die, MoveAway, Swap, OpenSource, Truncate, Copy, RemoveOrg]

  /** A commit that dies while it writes its copy, and a revert that succeeds afterwards, lead
      there from any store. */
  lemma CutBackupThenRevert(f: Files)
    requires f.phase.Resting? && f.path.Some? && f.holder == None
    ensures exists states: seq<Files> ::
            IsRun(states, CUT_RUN) && states[0] == f && Dead(states[9]) && states[9].path == Some(Torn)
  {
    var s1 := Next(f, OpenSource);
    var s2 := Next(s1, Truncate);
    var s3 := Next(s2, Die);
    var s4 := Next(s3, MoveAway);
    var s5 := Next(s4, Swap);
    var s6 := Next(s5, OpenSource);
    var s7 := Next(s6, Truncate);
    var s8 := Next(s7, Copy);
    var s9 := Next(s8, RemoveOrg);
    var states := [f, s1, s2, s3, s4, s5, s6, s7, s8, s9];
    assert IsRun(states, CUT_RUN);
  }

  // ----- what a copy holds -----

  /** A backup that is not cut short copies one version of the file, the one it opened, however
      many sections save newer ones meanwhile. */
  lemma {:induction false} CopyIsOneVersion(states: seq<Files>, actions: seq<Action>)
    requires IsRun(states, actions) && actions != [] && actions[0].OpenSource?
    requires forall k | 0 < k < |actions| ::
            actions[k].Load? || actions[k].Save? || actions[k].Drop? || actions[k].Truncate?
    ensures var f := states[|actions|];
            && (f.phase.Opened? || f.phase.Truncated?) && states[0].path == Some(f.phase.source)
            && (Enabled(f, Copy) ==> Next(f, Copy).running == states[0].path)
  {
    var n := |actions| - 1;
    if n > 0 {
      RunPrefix(states, actions);
      CopyIsOneVersion(states[..n + 1], actions[..n]);
    }
  }

  // ----- what a revert leaves -----

  /** A revert with nobody beside it leaves what `NpmStore.Revert` leaves. */
  lemma RevertAlone(states: seq<Files>)
    requires IsRun(states, [MoveAway, Swap, OpenSource, Truncate, Copy, RemoveOrg])
    ensures states[6].path == states[6].running == states[0].running && states[6].org == None
    ensures states[6].phase.Resting? && states[6].holder == states[0].holder
  {
    var actions := [MoveAway, Swap, OpenSource, Truncate, Copy, RemoveOrg];
    assert actions[0] == MoveAway && actions[1] == Swap && actions[2] == OpenSource && actions[3] == Truncate;
    assert actions[4] == Copy && actions[5] == RemoveOrg;
  }

  /** The changes saved in a run, in order. */
  ghost function Saved(states: seq<Files>, actions: seq<Action>): seq<Change>
    requires |states| == |actions| + 1
  {
    if actions == [] then []
    else
      var n := |actions| - 1;
      Saved(states[..n + 1], actions[..n]) + if actions[n].Save? && states[n].holder.Some?
          then [states[n].holder.value.change] else []
  }

  function Replay(start: NetworkPolicy, changes: seq<Change>): Option<NetworkPolicy> {
    if changes == [] then Some(start)
    else
      match Replay(start, changes[..|changes| - 1])
      case None => None
      case Some(np) => changes[|changes| - 1](np)
  }

  /** A section that had loaded before the run began saves in it. */
  ghost predicate Straddles(states: seq<Files>, actions: seq<Action>)
    requires |states| == |actions| + 1
  {
    states[0].holder.Some? && exists k :: 0 <= k < |actions| && SavesFirst(actions, k)
  }

  predicate SavesFirst(actions: seq<Action>, k: nat)
    requires k < |actions|
  {
    actions[k].Save? && forall j | 0 <= j < k :: !actions[j].Save? && !actions[j].Drop?
  }

  /** The section that held the lock at the start has neither saved nor given up. */
  ghost predicate Pending(states: seq<Files>, actions: seq<Action>)
    requires |states| == |actions| + 1
  {
    states[0].holder.Some? && forall j | 0 <= j < |actions| :: !actions[j].Save? && !actions[j].Drop?
  }

  lemma StraddlesNext(states: seq<Files>, actions: seq<Action>)
    requires IsRun(states, actions) && actions != []
    ensures var n := |actions| - 1;
            var earlier, steps := states[..n + 1], actions[..n];
            && (Straddles(states, actions) <==>
                Straddles(earlier, steps) || (Pending(earlier, steps) && actions[n].Save?))
            && (Pending(states, actions) <==> Pending(earlier, steps) && !actions[n].Save? && !actions[n].Drop?)
            && (Straddles(states, actions) || Pending(states, actions) || Pending(earlier, steps) ==>
                states[0].holder.Some?)
            && (actions[n].Save? ==> states[n].holder.Some?)
  {
    assert Enabled(states[|actions| - 1], actions[|actions| - 1]);
    RunPrefix(states, actions);
    hide Enabled, Next;
    var n := |actions| - 1;
    var earlier, steps := states[..n + 1], actions[..n];
    forall k | 0 <= k < n ensures SavesFirst(actions, k) <==> SavesFirst(steps, k) {
    }
    if Pending(earlier, steps) && actions[n].Save? {
      assert SavesFirst(actions, n);
    }
    if Straddles(earlier, steps) {
      var k :| 0 <= k < n && SavesFirst(steps, k);
      assert SavesFirst(actions, k);
    }
  }

  /** What the policy file is to hold after a run that began with the store `np`. */
  ghost function Expected(states: seq<Files>, actions: seq<Action>, np: NetworkPolicy): Option<NetworkPolicy>
    requires |states| == |actions| + 1
  {
    if Straddles(states, actions) && Saved(states, actions) != [] then
      var s := states[0].holder.value;
      match s.change(s.loaded)
      case None => None
      case Some(np1) => Replay(np1, Saved(states, actions)[1..])
    else Replay(np, Saved(states, actions))
  }

  lemma ReplayNext(start: NetworkPolicy, changes: seq<Change>, change: Change)
    ensures Replay(start, changes + [change]) ==
            match Replay(start, changes) case None => None case Some(np) => change(np)
  {
    assert (changes + [change])[..|changes|] == changes;
  }

  lemma ReplayNothing(start: NetworkPolicy)
    ensures Replay(start, []) == Some(start)
  {
  }

  lemma ExpectedNext(states: seq<Files>, actions: seq<Action>, np: NetworkPolicy)
    requires IsRun(states, actions) && actions != []
    requires Straddles(states[..|actions|], actions[..|actions| - 1]) ==>
            Saved(states[..|actions|], actions[..|actions| - 1]) != []
    requires Pending(states[..|actions|], actions[..|actions| - 1]) ==>
               && Saved(states[..|actions|], actions[..|actions| - 1]) == []
               && states[|actions| - 1].holder == states[0].holder
    ensures var n := |actions| - 1;
            var earlier, steps := states[..n + 1], actions[..n];
            && Expected(states, actions, np) ==
               (if !actions[n].Save? then Expected(earlier, steps, np)
                else if Pending(earlier, steps) then states[0].holder.value.change(states[0].holder.value.loaded)
                else match Expected(earlier, steps,
                    np) case None => None case Some(x) => states[n].holder.value.change(x))
            && (Straddles(states, actions) ==> Saved(states, actions) != [])
  {
    hide Enabled, Next, Straddles, Pending, Replay;
    ReplayNothing(np);
    var n := |actions| - 1;
    RunPrefix(states, actions);
    StraddlesNext(states, actions);
    var earlier, steps := states[..n + 1], actions[..n];
    var saved := Saved(earlier, steps);
    if actions[n].Save? {
      var change := states[n].holder.value.change;
      assert Saved(states, actions) == saved + [change];
      ReplayNext(np, saved, change);
      if saved != [] {
        assert (saved + [change])[1..] == saved[1..] + [change];
        var s := states[0].holder;
        if s.Some? && s.value.change(s.value.loaded).Some? {
          ReplayNothing(s.value.change(s.value.loaded).value);
          ReplayNext(s.value.change(s.value.loaded).value, saved[1..], change);
        }
      } else {
        assert [change][1..] == [];
        if states[0].holder.Some? && change(states[0].holder.value.loaded).Some? {
          ReplayNothing(change(states[0].holder.value.loaded).value);
        }
      }
    } else {
      assert Saved(states, actions) == saved;
    }
  }

  /** After the swap the policy file holds the copy with the changes saved since on top of it,
      with one exception: a section that had loaded before the swap and saves after it undoes
      the revert, and the later changes are on top of what that section saved. */
  lemma {:induction false} AfterSwap(states: seq<Files>, actions: seq<Action>, np: NetworkPolicy)
    requires IsRun(states, actions) && states[0].phase.Swapped? && states[0].path == Some(Whole(np))
    requires forall k | 0 <= k < |actions| :: !actions[k].MoveAway?
    ensures var f := states[|actions|];
            && f.path.Some? && f.path.value.Whole? && Expected(states, actions, np) == Some(f.path.value.np)
            && !f.phase.MovedAway?
            && (Straddles(states, actions) ==> Saved(states, actions) != [])
            && (if Pending(states, actions) then Saved(states, actions) == [] && f.holder == states[0].holder
                else f.holder.Some? ==> f.holder.value.loaded == f.path.value.np)
  {
    if actions != [] {
      var n := |actions| - 1;
      RunPrefix(states, actions);
      AfterSwap(states[..n + 1], actions[..n], np);
      ExpectedNext(states, actions, np);
      StraddlesNext(states, actions);
      hide Straddles, Pending, Expected;
    }
  }
}
