/**
 The locked file store behind every kind of state: take an exclusive file lock, load, run
 a closure, write a temporary file, sync, close, rename, unlock. Any number of processes
 do this at the same time; any of them may die between two steps, any system call may
 fail, and the machine may lose power.
 */
module LockedStore {
  import opened Wrappers

  /** What a file holds: a prefix of the bytes, or a whole state that may or may not have
      reached the disk. */
  datatype Content<S> = Torn | Whole(state: S, synced: bool)

  /** A section either changes the state, or refuses; or it only reads it. */
  datatype Section<!S> = Update(fn: S -> Option<S>) | Read

  datatype Phase<!S> =
    | Idle
    | Locked(section: Section<S>)
    | Loaded(section: Section<S>, st: S)
    | Ran(fn: S -> Option<S>, st: S)
    | TmpOpened(fn: S -> Option<S>, st: S)
    | TmpWritten(fn: S -> Option<S>, st: S)
    | TmpSynced(fn: S -> Option<S>, st: S)
    | TmpClosed(fn: S -> Option<S>, st: S)
    | Renamed(fn: S -> Option<S>, number: nat)
    | Answered
    | Failed

  /** The disk and the processes. `log` lists the updates whose rename took place, in
      order; `flushed` is how many of these renames have reached the disk; `acked` are the
      numbers of the updates whose caller was told they succeeded. */
  datatype System<!S> = System(
    file: Option<Content<S>>, tmp: Option<Content<S>>,
    holder: Option<nat>, procs: seq<Phase<S>>,
    log: seq<S -> Option<S>>, flushed: nat, acked: set<nat>)

  datatype Action<!S> =
    | Acquire(p: nat, section: Section<S>)
    | Load(p: nat)
    | Run(p: nat)
    | OpenTmp(p: nat)
    | WriteTmp(p: nat)
    | SyncTmp(p: nat)
    | CloseTmp(p: nat)
    | Rename(p: nat)
    | Return(p: nat)
    | IoError(p: nat)
    | Crash(p: nat)
    | Flush
    | PowerLoss(kept: nat)

  // ----- what the log stands for -----

  /** The state after the logged updates, one after another. */
  function Replay<S>(start: S, log: seq<S -> Option<S>>): Option<S> {
    if log == [] then Some(start)
    else
      match Replay(start, log[..|log| - 1])
      case None => None
      case Some(s) => log[|log| - 1](s)
  }

  /** What a section finds: the file's state, or the defaults when there is no file. */
  function Found<S>(defaults: S, file: Option<Content<S>>): Option<S> {
    match file
    case None => Some(defaults)
    case Some(Torn) => None
    case Some(Whole(s, _)) => Some(s)
  }

  // ----- steps -----

  predicate HoldsLock<S>(ph: Phase<S>) {
    !ph.Idle?
  }

  function At<S>(sys: System<S>, p: nat, ph: Phase<S>): System<S>
    requires p < |sys.procs|
  {
    sys.(procs := sys.procs[p := ph])
  }

  function Unlock<S>(sys: System<S>, p: nat): System<S>
    requires p < |sys.procs|
  {
    sys.(procs := sys.procs[p := Idle], holder := None)
  }

  ghost predicate Enabled<S>(defaults: S, initial: Option<S>, sys: System<S>, a: Action<S>) {
    match a
    case Acquire(p, _) => p < |sys.procs| && sys.procs[p].Idle? && sys.holder.None?
    case Load(p) => p < |sys.procs| && sys.procs[p].Locked?
    case Run(p) => p < |sys.procs| && sys.procs[p].Loaded?
    case OpenTmp(p) => p < |sys.procs| && sys.procs[p].Ran?
    case WriteTmp(p) => p < |sys.procs| && sys.procs[p].TmpOpened?
    case SyncTmp(p) => p < |sys.procs| && sys.procs[p].TmpWritten?
    case CloseTmp(p) => p < |sys.procs| && sys.procs[p].TmpSynced?
    case Rename(p) => p < |sys.procs| && sys.procs[p].TmpClosed? && sys.tmp.Some?
    case Return(p) => p < |sys.procs| && (sys.procs[p].Renamed? || sys.procs[p].Answered? || sys.procs[p].Failed?)
    case IoError(p) => p < |sys.procs| && !sys.procs[p].Idle? && !sys.procs[p].Renamed?
    case Crash(p) => p < |sys.procs| && !sys.procs[p].Idle?
    case Flush => true
    case PowerLoss(kept) => sys.flushed <= kept <= |sys.log|
  }

  /** What the disk shows after power comes back with the first `kept` renames in place. */
  function Recovered<S>(defaults: S, initial: Option<S>, sys: System<S>, kept: nat): Option<Content<S>>
    requires kept <= |sys.log|
  {
    if kept == |sys.log| then AfterPowerLoss(sys.file)
    else if kept == 0 then FileOf(initial)
    else
      match Replay(Start(defaults, initial), sys.log[..kept])
      case None => Some(Torn)
      case Some(s) => Some(Whole(s, true))
  }

  function AfterPowerLoss<S>(file: Option<Content<S>>): Option<Content<S>> {
    match file
    case Some(Whole(_, false)) => Some(Torn)
    case _ => file
  }

  function Start<S>(defaults: S, initial: Option<S>): S {
    match initial case None => defaults case Some(s) => s
  }

  function FileOf<S>(initial: Option<S>): Option<Content<S>> {
    match initial case None => None case Some(s) => Some(Whole(s, true))
  }

  function Next<S>(defaults: S, initial: Option<S>, sys: System<S>, a: Action<S>): System<S>
    requires Enabled(defaults, initial, sys, a)
  {
    match a
    case Acquire(p, section) => At(sys, p, Locked(section)).(holder := Some(p))
    case Load(p) =>
      (match Found(defaults, sys.file)
       case None => At(sys, p, Failed)
       case Some(s) => At(sys, p, Loaded(sys.procs[p].section, s)))
    case Run(p) =>
      (match sys.procs[p].section
       case Read => At(sys, p, Answered)
       case Update(fn) =>
         match fn(sys.procs[p].st)
         case None => At(sys, p, Failed)
         case Some(s) => At(sys, p, Ran(fn, s)))
    case OpenTmp(p) => At(sys, p, TmpOpened(sys.procs[p].fn, sys.procs[p].st)).(tmp := Some(Torn))
    case WriteTmp(p) => At(sys, p, TmpWritten(sys.procs[p].fn,
        sys.procs[p].st)).(tmp := Some(Whole(sys.procs[p].st, false)))
    case SyncTmp(p) => At(sys, p, TmpSynced(sys.procs[p].fn, sys.procs[p].st)).(tmp := Synced(sys.tmp))
    case CloseTmp(p) => At(sys, p, TmpClosed(sys.procs[p].fn, sys.procs[p].st))
    case Rename(p) =>
      At(sys, p, Renamed(sys.procs[p].fn, |sys.log|)).(file := sys.tmp, tmp := None, log := sys.log + [sys.procs[p].fn])
    case Return(p) =>
      if sys.procs[p].Renamed? then Unlock(sys, p).(acked := sys.acked + {sys.procs[p].number}) else Unlock(sys, p)
    case IoError(p) => At(sys, p, Failed)
    case Crash(p) => Unlock(sys, p)
    case Flush => sys.(flushed := |sys.log|)
    case PowerLoss(kept) =>
      System(Recovered(defaults, initial, sys, kept), AfterPowerLoss(sys.tmp), None,
             seq(|sys.procs|, i => Idle), sys.log[..kept], kept, sys.acked)
  }

  function Synced<S>(c: Option<Content<S>>): Option<Content<S>> {
    match c
    case Some(Whole(s, _)) => Some(Whole(s, true))
    case _ => c
  }

  // ----- what every step keeps -----

  /** What the process in the lock knows. */
  ghost predicate Knows<S>(current: S, sys: System<S>, ph: Phase<S>) {
    match ph
    case Loaded(_, st) => st == current
    case Ran(fn, st) => fn(current) == Some(st)
    case TmpOpened(fn, st) => fn(current) == Some(st) && sys.tmp == Some(Torn)
    case TmpWritten(fn, st) => fn(current) == Some(st) && sys.tmp == Some(Whole(st, false))
    case TmpSynced(fn, st) => fn(current) == Some(st) && sys.tmp == Some(Whole(st, true))
    case TmpClosed(fn, st) => fn(current) == Some(st) && sys.tmp == Some(Whole(st, true))
    case Renamed(fn, number) => number == |sys.log| - 1 && sys.log[number] == fn
    case _ => true
  }

  /** The file holds the state that the logged updates give, whole and on disk; at most one
      process is past the lock, and it is the one the lock says. */
  ghost predicate Inv<S>(defaults: S, initial: Option<S>, sys: System<S>) {
    && sys.flushed <= |sys.log|
    && Replay(Start(defaults, initial), sys.log).Some?
    && sys.file == (if sys.log == [] then FileOf(initial)
                    else Some(Whole(Replay(Start(defaults, initial), sys.log).value, true)))
    && (forall p | 0 <= p < |sys.procs| :: HoldsLock(sys.procs[p]) <==> sys.holder == Some(p))
    && (forall p | 0 <= p < |sys.procs| :: Knows(Replay(Start(defaults, initial), sys.log).value, sys, sys.procs[p]))
  }

  lemma {:induction false} ReplayPrefix<S>(start: S, log: seq<S -> Option<S>>, k: nat)
    requires k <= |log| && Replay(start, log).Some?
    ensures Replay(start, log[..k]).Some?
    decreases |log|
  {
    if k == |log| {
      assert log[..k] == log;
    } else {
      var init := log[..|log| - 1];
      ReplayPrefix(start, init, k);
      assert init[..k] == log[..k];
    }
  }

  lemma FoundIsCurrent<S>(defaults: S, initial: Option<S>, sys: System<S>)
    requires Inv(defaults, initial, sys)
    ensures Found(defaults, sys.file) == Replay(Start(defaults, initial), sys.log)
  {
  }

  lemma RenameKeepsInv<S>(defaults: S, initial: Option<S>, sys: System<S>, p: nat)
    requires Inv(defaults, initial, sys) && Enabled(defaults, initial, sys, Rename(p))
    ensures Inv(defaults, initial, Next(defaults, initial, sys, Rename(p)))
  {
    var fn := sys.procs[p].fn;
    assert (sys.log + [fn])[..|sys.log|] == sys.log;
  }

  lemma PowerLossKeepsInv<S>(defaults: S, initial: Option<S>, sys: System<S>, kept: nat)
    requires Inv(defaults, initial, sys) && Enabled(defaults, initial, sys, PowerLoss(kept))
    ensures Inv(defaults, initial, Next(defaults, initial, sys, PowerLoss(kept)))
  {
    ReplayPrefix(Start(defaults, initial), sys.log, kept);
    if kept == |sys.log| {
      assert sys.log[..kept] == sys.log;
    }
  }

  lemma StepKeepsInv<S>(defaults: S, initial: Option<S>, sys: System<S>, a: Action<S>)
    requires Inv(defaults, initial, sys) && Enabled(defaults, initial, sys, a)
    ensures Inv(defaults, initial, Next(defaults, initial, sys, a))
  {
    if a.Rename? {
      RenameKeepsInv(defaults, initial, sys, a.p);
    } else if a.PowerLoss? {
      PowerLossKeepsInv(defaults, initial, sys, a.kept);
    } else {
      FoundIsCurrent(defaults, initial, sys);
      hide Replay, Recovered, FileOf, Start, Found, AfterPowerLoss;
      var sys' := Next(defaults, initial, sys, a);
      assert sys'.log == sys.log && sys'.file == sys.file;
    }
  }

  // ----- all runs -----

  ghost predicate IsRun<S>(defaults: S, initial: Option<S>, states: seq<System<S>>, actions: seq<Action<S>>) {
    && |states| == |actions| + 1
    && forall k | 0 <= k < |actions| ::
         Enabled(defaults, initial, states[k], actions[k]) &&
             states[k + 1] == Next(defaults, initial, states[k], actions[k])
  }

  /** `n` processes, nothing going on, and a file left by earlier runs or none at all. */
  function Quiet<S>(initial: Option<S>, n: nat): System<S> {
    System(FileOf(initial), None, None, seq(n, i => Idle), [], 0, {})
  }

  lemma {:induction false} RunKeepsInv<S>(defaults: S, initial: Option<S>, states: seq<System<S>>,
      actions: seq<Action<S>>)
    requires IsRun(defaults, initial, states, actions) && Inv(defaults, initial, states[0])
    ensures forall k | 0 <= k <= |actions| :: Inv(defaults, initial, states[k])
    decreases |actions|
  {
    if |actions| > 0 {
      var n := |actions| - 1;
      hide Inv, Next, Enabled;
      RunKeepsInv(defaults, initial, states[..n + 1], actions[..n]);
      forall k | 0 <= k <= n ensures Inv(defaults, initial, states[k]) {
        assert states[..n + 1][k] == states[k];
      }
      StepKeepsInv(defaults, initial, states[n], actions[n]);
    }
  }

  /** The main result: in every interleaving, with crashes, failing calls and power losses
      anywhere, the file is at all times whole and holds the result of applying the logged
      updates one after another; no two processes are in the lock together. */
  lemma FileIsReplayOfLog<S>(defaults: S, initial: Option<S>, n: nat, states: seq<System<S>>, actions: seq<Action<S>>,
      k: nat)
    requires IsRun(defaults, initial, states, actions) && states[0] == Quiet(initial, n) && k <= |actions|
    ensures Found(defaults, states[k].file).Some?
    ensures Found(defaults, states[k].file) == Replay(Start(defaults, initial), states[k].log)
    ensures forall p, q | 0 <= p < |states[k].procs| && 0 <= q < |states[k].procs| ::
              HoldsLock(states[k].procs[p]) && HoldsLock(states[k].procs[q]) ==> p == q
  {
    RunKeepsInv(defaults, initial, states, actions);
    FoundIsCurrent(defaults, initial, states[k]);
  }

  /** The file changes at renames and power losses only. A rename turns the state it found
      into what its closure makes of it; so a refusing closure, a failing call or a crash
      leaves the old state. */
  lemma FileChanges<S>(defaults: S, initial: Option<S>, sys: System<S>, a: Action<S>)
    requires Inv(defaults, initial, sys) && Enabled(defaults, initial, sys, a)
    ensures var sys' := Next(defaults, initial, sys, a);
            && (!a.Rename? && !a.PowerLoss? ==> sys'.file == sys.file && sys'.log == sys.log)
            && (a.Rename? ==> Found(defaults, sys.file).Some? &&
                              Found(defaults, sys'.file) == sys.procs[a.p].fn(Found(defaults, sys.file).value))
  {
    FoundIsCurrent(defaults, initial, sys);
  }

  /** Reading and changing see the file as it is: what a section loaded is still the file's
      state at its last step, whatever the others do meanwhile. */
  lemma LoadedIsCurrent<S>(defaults: S, initial: Option<S>, sys: System<S>, p: nat)
    requires Inv(defaults, initial, sys) && p < |sys.procs|
    ensures sys.procs[p].Loaded? ==> Found(defaults, sys.file) == Some(sys.procs[p].st)
    ensures sys.procs[p].TmpClosed? ==>
            Found(defaults, sys.file).Some? && sys.procs[p].fn(Found(defaults, sys.file).value) == Some(sys.procs[p].st)
  {
    FoundIsCurrent(defaults, initial, sys);
  }

  // ----- acknowledged updates -----

  /** Success is reported for logged updates only. */
  ghost predicate AcksAreLogged<S>(sys: System<S>) {
    forall m | m in sys.acked :: m < |sys.log|
  }

  /** Until the power fails no update is lost: the log only grows, and an update is
      acknowledged under the number at which the log holds it. */
  lemma AcksKept<S>(defaults: S, initial: Option<S>, sys: System<S>, a: Action<S>)
    requires Inv(defaults, initial, sys) && Enabled(defaults, initial, sys, a) && AcksAreLogged(sys) && !a.PowerLoss?
    ensures var sys' := Next(defaults, initial, sys, a);
            && AcksAreLogged(sys') && sys.log <= sys'.log && sys.acked <= sys'.acked
            && (a.Return? && sys.procs[a.p].Renamed? ==>
                  sys.procs[a.p].number in sys'.acked && sys'.log[sys.procs[a.p].number] == sys.procs[a.p].fn)
  {
  }

  /** A power loss keeps every acknowledged update exactly when it keeps the last of them;
      it does so for sure when every rename had reached the disk. */
  lemma PowerLossAndAcks<S>(defaults: S, initial: Option<S>, sys: System<S>, kept: nat)
    requires Inv(defaults, initial, sys) && Enabled(defaults, initial, sys, PowerLoss(kept)) && AcksAreLogged(sys)
    ensures var sys' := Next(defaults, initial, sys, PowerLoss(kept));
            && sys'.log <= sys.log
            && (AcksAreLogged(sys') <==> forall m | m in sys.acked :: m < kept)
            && (sys.flushed == |sys.log| ==> AcksAreLogged(sys') && sys'.log == sys.log)
  {
  }

  /** The rename is not followed by a sync of the directory: an update can be acknowledged
      and gone after a power loss. */
  lemma AckedUpdateCanBeLost<S>(defaults: S, fn: S -> Option<S>) returns (states: seq<System<S>>,
      actions: seq<Action<S>>)
    requires fn(defaults).Some?
    ensures IsRun(defaults, None, states, actions) && states[0] == Quiet(None, 1)
    ensures var last := states[|actions|]; last.acked == {0} && last.log == [] && last.file == None
  {
    actions := [Acquire(0, Update(fn)), Load(0), Run(0), OpenTmp(0), WriteTmp(0), SyncTmp(0), CloseTmp(0), Rename(0),
        Return(0), PowerLoss(0)];
    var t := fn(defaults).value;
    states := [
      Quiet(None, 1),
      System(None, None, Some(0), [Locked(Update(fn))], [], 0, {}),
      System(None, None, Some(0), [Loaded(Update(fn), defaults)], [], 0, {}),
      System(None, None, Some(0), [Ran(fn, t)], [], 0, {}),
      System(None, Some(Torn), Some(0), [TmpOpened(fn, t)], [], 0, {}),
      System(None, Some(Whole(t, false)), Some(0), [TmpWritten(fn, t)], [], 0, {}),
      System(None, Some(Whole(t, true)), Some(0), [TmpSynced(fn, t)], [], 0, {}),
      System(None, Some(Whole(t, true)), Some(0), [TmpClosed(fn, t)], [], 0, {}),
      System(Some(Whole(t, true)), None, Some(0), [Renamed(fn, 0)], [fn], 0, {}),
      System(Some(Whole(t, true)), None, None, [Idle], [fn], 0, {0}),
      System(None, None, None, [Idle], [], 0, {0})];
    forall k | 0 <= k < |actions|
      ensures Enabled(defaults, None, states[k], actions[k]) &&
              states[k + 1] == Next(defaults, None, states[k], actions[k])
    {
      if k < 5 {
      } else {
      }
    }
  }

  // ----- properties of the stored state -----

  /** What the defaults have and every closure keeps, every replay has. */
  lemma {:induction false} ReplayKeeps<S(!new)>(good: S -> bool, start: S, log: seq<S -> Option<S>>)
    requires good(start)
    requires forall fn | fn in log :: Keeps(good, fn)
    ensures Replay(start, log).Some? ==> good(Replay(start, log).value)
    decreases |log|
  {
    if log != [] {
      ReplayKeeps(good, start, log[..|log| - 1]);
      assert Keeps(good, log[|log| - 1]);
    }
  }

  ghost predicate Keeps<S(!new)>(good: S -> bool, fn: S -> Option<S>) {
    forall s | good(s) :: fn(s).Some? ==> good(fn(s).value)
  }

  function FnOf<S>(ph: Phase<S>): Option<S -> Option<S>> {
    match ph
    case Locked(Update(fn)) => Some(fn)
    case Loaded(Update(fn), _) => Some(fn)
    case Ran(fn, _) => Some(fn)
    case TmpOpened(fn, _) => Some(fn)
    case TmpWritten(fn, _) => Some(fn)
    case TmpSynced(fn, _) => Some(fn)
    case TmpClosed(fn, _) => Some(fn)
    case Renamed(fn, _) => Some(fn)
    case _ => None
  }

  /** Every closure in the system keeps the property. */
  ghost predicate AllKeep<S(!new)>(good: S -> bool, sys: System<S>) {
    && (forall fn | fn in sys.log :: Keeps(good, fn))
    && (forall p | 0 <= p < |sys.procs| :: FnOf(sys.procs[p]).Some? ==> Keeps(good, FnOf(sys.procs[p]).value))
  }

  lemma AllKeepStep<S(!new)>(good: S -> bool, defaults: S, initial: Option<S>, sys: System<S>, a: Action<S>)
    requires AllKeep(good, sys) && Enabled(defaults, initial, sys, a)
    requires a.Acquire? && a.section.Update? ==> Keeps(good, a.section.fn)
    ensures AllKeep(good, Next(defaults, initial, sys, a))
  {
    hide Keeps, Recovered, Found, AfterPowerLoss;
    if a.PowerLoss? {
      assert forall fn | fn in sys.log[..a.kept] :: fn in sys.log;
    }
  }

  lemma {:induction false} AllKeepRun<S(!new)>(good: S -> bool, defaults: S, initial: Option<S>,
      states: seq<System<S>>, actions: seq<Action<S>>)
    requires IsRun(defaults, initial, states, actions) && AllKeep(good, states[0])
    requires forall k | 0 <= k < |actions| && actions[k].Acquire? &&
            actions[k].section.Update? :: Keeps(good, actions[k].section.fn)
    ensures forall k | 0 <= k <= |actions| :: AllKeep(good, states[k])
    decreases |actions|
  {
    if |actions| > 0 {
      var n := |actions| - 1;
      hide AllKeep, Next, Enabled, Keeps;
      AllKeepRun(good, defaults, initial, states[..n + 1], actions[..n]);
      forall k | 0 <= k <= n ensures AllKeep(good, states[k]) {
        assert states[..n + 1][k] == states[k];
      }
      AllKeepStep(good, defaults, initial, states[n], actions[n]);
    }
  }

  /** An invariant of the closures, run one at a time, is an invariant of the file under
      every interleaving, crash and power loss. */
  lemma FileKeeps<S(!new)>(good: S -> bool, defaults: S, initial: Option<S>, n: nat, states: seq<System<S>>,
      actions: seq<Action<S>>, k: nat)
    requires IsRun(defaults, initial, states, actions) && states[0] == Quiet(initial, n) && k <= |actions|
    requires good(Start(defaults, initial))
    requires forall k | 0 <= k < |actions| && actions[k].Acquire? &&
            actions[k].section.Update? :: Keeps(good, actions[k].section.fn)
    ensures Found(defaults, states[k].file).Some? && good(Found(defaults, states[k].file).value)
  {
    hide Keeps, Next, Enabled;
    FileIsReplayOfLog(defaults, initial, n, states, actions, k);
    AllKeepRun(good, defaults, initial, states, actions);
    assert AllKeep(good, states[k]);
    ReplayKeeps(good, Start(defaults, initial), states[k].log);
  }
}
