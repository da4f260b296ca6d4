/**
 Several installer runs sharing one configuration file, step by step: each reads and hashes the
 file, plans its patch, saves a snapshot, takes the lock, checks the file for drift, replaces it
 and releases the lock (`HookInstaller::apply` and `atomic_replace_checked`).  Steps of different
 runs interleave freely.  All writers take the lock, and the file is present throughout.
 */
module InstallerProtocol {
  import opened Outcomes

  /** What a run does is fixed by the patch it applies, given for each run, and by the hash. */
  datatype Env = Env(patch: (nat, string) -> Option<string>, hash: string -> string)

  ghost predicate Injective(env: Env) {
    forall a: string, b: string :: env.hash(a) == env.hash(b) ==> a == b
  }

  /** `bytes` is what the run has read, `patched` what it is going to write. */
  datatype Phase =
    | Inspected(bytes: string)
    | Planned(bytes: string, patched: string)
    | Saved(bytes: string, patched: string)
    | Locked(bytes: string, patched: string)
    | Checked(bytes: string, patched: string)
    | Published
    | Unchanged
    | Done
    | Failed

  datatype Event = SnapshotSaved(run: nat, sourceHash: string) | Overwrote(run: nat, before: string, after: string)

  datatype World = World(file: string, lock: Option<nat>, phases: map<nat, Phase>, log: seq<Event>)

  datatype Action = Read | Plan | Save | Acquire | GiveUp | Check | Publish | FailToPublish | Release

  function At(w: World, run: nat, phase: Phase): World {
    w.(phases := w.phases[run := phase])
  }

  /** One step of one run; a step that the run cannot take leaves the world as it is. */
  function Next(env: Env, w: World, run: nat, action: Action): World {
    if run !in w.phases then if action == Read then At(w, run, Inspected(w.file)) else w
    else
      match (action, w.phases[run])
      case (Plan, Inspected(bytes)) =>
        var patched := env.patch(run, bytes);
        if patched.None? then At(w, run, Failed)
        else if patched.value == w.file then At(w, run, Unchanged)
        else At(w, run, Planned(bytes, patched.value))
      case (Save, Planned(bytes, patched)) => At(w, run, Saved(bytes, patched)).(log := w.log + [SnapshotSaved(run, env.hash(bytes))])
      case (Acquire, Saved(bytes, patched)) => if w.lock.None? then At(w, run, Locked(bytes, patched)).(lock := Some(run)) else w
      case (GiveUp, Saved(_, _)) => At(w, run, Failed)
      case (Check, Locked(bytes, patched)) =>
        if env.hash(w.file) != env.hash(bytes) then At(w, run, Failed).(lock := None) else At(w, run, Checked(bytes, patched))
      case (Publish, Checked(_, patched)) => At(w, run, Published).(file := patched, log := w.log + [Overwrote(run, w.file, patched)])
      case (FailToPublish, Checked(_, _)) => At(w, run, Failed).(lock := None)
      case (Release, Published) => At(w, run, Done).(lock := None)
      case (_, _) => w
  }

  /** The world after the first `n` steps, for a file that starts with `initial`. */
  function After(env: Env, initial: string, steps: seq<(nat, Action)>, n: nat): World
    requires n <= |steps|
  {
    if n == 0 then World(initial, None, map[], [])
    else Next(env, After(env, initial, steps, n - 1), steps[n - 1].0, steps[n - 1].1)
  }

  // ---- what holds in every reachable world -----------------------------------------------------------

  /** The content of the file after the first `n` events. */
  function Content(initial: string, log: seq<Event>, n: nat): string
    requires n <= |log|
  {
    if n == 0 then initial else if log[n - 1].Overwrote? then log[n - 1].after else Content(initial, log, n - 1)
  }

  predicate HoldsLock(phase: Phase) {
    phase.Locked? || phase.Checked? || phase.Published?
  }

  predicate HasSnapshot(log: seq<Event>, n: nat, run: nat, sourceHash: string)
    requires n <= |log|
  {
    exists j :: 0 <= j < n && log[j] == SnapshotSaved(run, sourceHash)
  }

  /** A run's data: its patch is the patch of what it has read, and its snapshot is in the log. */
  predicate PhaseHolds(env: Env, w: World, run: nat, phase: Phase) {
    match phase
    case Planned(bytes, patched) => env.patch(run, bytes) == Some(patched)
    case Saved(bytes, patched) => env.patch(run, bytes) == Some(patched) && HasSnapshot(w.log, |w.log|, run, env.hash(bytes))
    case Locked(bytes, patched) => env.patch(run, bytes) == Some(patched) && HasSnapshot(w.log, |w.log|, run, env.hash(bytes))
    case Checked(bytes, patched) =>
      env.patch(run, bytes) == Some(patched) && HasSnapshot(w.log, |w.log|, run, env.hash(bytes)) && w.file == bytes
    case _ => true
  }

  /** Event `k` overwrites the content that stood then with its patch, after saving a snapshot of it. */
  predicate LinkHolds(env: Env, initial: string, log: seq<Event>, k: nat)
    requires k < |log|
  {
    match log[k]
    case Overwrote(run, before, after) =>
      before == Content(initial, log, k) && env.patch(run, before) == Some(after) && HasSnapshot(log, k, run, env.hash(before))
    case _ => true
  }

  ghost predicate Good(env: Env, initial: string, w: World) {
    && (forall run :: run in w.phases ==> PhaseHolds(env, w, run, w.phases[run]))
    && (forall run :: run in w.phases && HoldsLock(w.phases[run]) ==> w.lock == Some(run))
    && (w.lock.Some? ==> w.lock.value in w.phases && HoldsLock(w.phases[w.lock.value]))
    && (forall k :: 0 <= k < |w.log| ==> LinkHolds(env, initial, w.log, k))
    && w.file == Content(initial, w.log, |w.log|)
  }

  lemma {:induction false} ContentPrefix(initial: string, log: seq<Event>, e: Event, n: nat)
    requires n <= |log|
    ensures Content(initial, log + [e], n) == Content(initial, log, n)
  {
    if n > 0 {
      ContentPrefix(initial, log, e, n - 1);
      assert (log + [e])[n - 1] == log[n - 1];
    }
  }

  lemma {:induction false} SnapshotPrefix(log: seq<Event>, e: Event, n: nat, run: nat, sourceHash: string)
    requires n <= |log|
    ensures HasSnapshot(log, n, run, sourceHash) ==> HasSnapshot(log + [e], n, run, sourceHash) && HasSnapshot(log + [e], |log| + 1, run, sourceHash)
  {
    if HasSnapshot(log, n, run, sourceHash) {
      var j :| 0 <= j < n && log[j] == SnapshotSaved(run, sourceHash);
      assert (log + [e])[j] == log[j];
    }
  }

  lemma {:induction false} LinksStay(env: Env, initial: string, log: seq<Event>, e: Event)
    requires forall k :: 0 <= k < |log| ==> LinkHolds(env, initial, log, k)
    ensures forall k :: 0 <= k < |log| ==> LinkHolds(env, initial, log + [e], k)
  {
    forall k | 0 <= k < |log| ensures LinkHolds(env, initial, log + [e], k) {
      assert LinkHolds(env, initial, log, k) && (log + [e])[k] == log[k];
      ContentPrefix(initial, log, e, k);
      if log[k].Overwrote? {
        SnapshotPrefix(log, e, k, log[k].run, env.hash(log[k].before));
      }
    }
  }

  lemma {:induction false} PhasesStay(env: Env, w: World, e: Event, run: nat)
    requires run in w.phases && PhaseHolds(env, w, run, w.phases[run])
    ensures PhaseHolds(env, w.(log := w.log + [e]), run, w.phases[run])
  {
    var phase := w.phases[run];
    if phase.Saved? || phase.Locked? || phase.Checked? {
      SnapshotPrefix(w.log, e, |w.log|, run, env.hash(phase.bytes));
    }
  }

  lemma {:induction false} SaveKeepsGood(env: Env, initial: string, w: World, run: nat)
    requires Good(env, initial, w) && run in w.phases && w.phases[run].Planned?
    ensures Good(env, initial, Next(env, w, run, Save))
  {
    var e := SnapshotSaved(run, env.hash(w.phases[run].bytes));
    var w' := Next(env, w, run, Save);
    LinksStay(env, initial, w.log, e);
    ContentPrefix(initial, w.log, e, |w.log|);
    assert w'.log[|w.log|] == e;
    forall r | r in w'.phases ensures PhaseHolds(env, w', r, w'.phases[r]) {
      if r != run {
        PhasesStay(env, w, e, r);
      }
    }
  }

  lemma {:induction false} PublishKeepsGood(env: Env, initial: string, w: World, run: nat)
    requires Good(env, initial, w) && run in w.phases && w.phases[run].Checked?
    ensures Good(env, initial, Next(env, w, run, Publish))
  {
    var phase, w' := w.phases[run], Next(env, w, run, Publish);
    var e := Overwrote(run, w.file, phase.patched);
    assert PhaseHolds(env, w, run, phase);
    LinksStay(env, initial, w.log, e);
    ContentPrefix(initial, w.log, e, |w.log|);
    SnapshotPrefix(w.log, e, |w.log|, run, env.hash(phase.bytes));
    assert w'.log[|w.log|] == e;
    forall r | r in w'.phases ensures PhaseHolds(env, w', r, w'.phases[r]) {
      if r != run {
        PhasesStay(env, w, e, r);
        assert !HoldsLock(w.phases[r]);
      }
    }
  }

  lemma {:induction false} StepKeepsGood(env: Env, initial: string, w: World, run: nat, action: Action)
    requires Injective(env) && Good(env, initial, w)
    ensures Good(env, initial, Next(env, w, run, action))
  {
    if run in w.phases {
      assert PhaseHolds(env, w, run, w.phases[run]);
    }
    if run in w.phases && action == Save && w.phases[run].Planned? {
      SaveKeepsGood(env, initial, w, run);
    } else if run in w.phases && action == Publish && w.phases[run].Checked? {
      PublishKeepsGood(env, initial, w, run);
    } else {
      QuietStepKeepsGood(env, initial, w, run, action);
    }
  }

  lemma {:induction false} QuietStepKeepsGood(env: Env, initial: string, w: World, run: nat, action: Action)
    requires Injective(env) && Good(env, initial, w)
    requires Next(env, w, run, action).log == w.log && Next(env, w, run, action).file == w.file
    ensures Good(env, initial, Next(env, w, run, action))
  {
    hide LinkHolds, Content;
    var w' := Next(env, w, run, action);
    if run in w.phases {
      assert PhaseHolds(env, w, run, w.phases[run]);
    }
    forall r | r in w'.phases ensures PhaseHolds(env, w', r, w'.phases[r]) {
      if r != run {
        assert PhaseHolds(env, w, r, w.phases[r]);
      }
    }
  }

  lemma {:induction false} AlwaysGood(env: Env, initial: string, steps: seq<(nat, Action)>, n: nat)
    requires Injective(env) && n <= |steps|
    ensures Good(env, initial, After(env, initial, steps, n))
  {
    if n > 0 {
      AlwaysGood(env, initial, steps, n - 1);
      StepKeepsGood(env, initial, After(env, initial, steps, n - 1), steps[n - 1].0, steps[n - 1].1);
    }
  }

  // ---- the main results ------------------------------------------------------------------------------------

  /**
   No update is lost, whatever the interleaving: every overwrite replaces the content that stood
   at that moment by the overwriting run's patch of exactly that content, after a snapshot with
   the hash of that content was saved by the same run; and nothing else ever changes the file.
   */
  lemma {:induction false} NoLostUpdate(env: Env, initial: string, steps: seq<(nat, Action)>, n: nat)
    requires Injective(env) && n <= |steps|
    ensures var w := After(env, initial, steps, n);
      && w.file == Content(initial, w.log, |w.log|)
      && forall k :: 0 <= k < |w.log| && w.log[k].Overwrote? ==>
           && w.log[k].before == Content(initial, w.log, k)
           && env.patch(w.log[k].run, w.log[k].before) == Some(w.log[k].after)
           && HasSnapshot(w.log, k, w.log[k].run, env.hash(w.log[k].before))
  {
    AlwaysGood(env, initial, steps, n);
    var w := After(env, initial, steps, n);
    forall k | 0 <= k < |w.log| && w.log[k].Overwrote?
      ensures w.log[k].before == Content(initial, w.log, k) && env.patch(w.log[k].run, w.log[k].before) == Some(w.log[k].after)
        && HasSnapshot(w.log, k, w.log[k].run, env.hash(w.log[k].before))
    {
      assert LinkHolds(env, initial, w.log, k);
    }
  }

  // ---- the lock, and what one run writes -------------------------------------------------------------------

  predicate LockHolds(w: World) {
    && (forall run :: run in w.phases && HoldsLock(w.phases[run]) ==> w.lock == Some(run))
    && (w.lock.Some? ==> w.lock.value in w.phases && HoldsLock(w.phases[w.lock.value]))
  }

  lemma {:induction false} LockAlwaysHolds(env: Env, initial: string, steps: seq<(nat, Action)>, n: nat)
    requires n <= |steps|
    ensures LockHolds(After(env, initial, steps, n))
  {
    hide LockHolds, Next;
    LockFree(initial);
    if n > 0 {
      LockAlwaysHolds(env, initial, steps, n - 1);
      LockStep(env, After(env, initial, steps, n - 1), steps[n - 1].0, steps[n - 1].1);
    }
  }

  lemma {:induction false} LockFree(initial: string)
    ensures LockHolds(World(initial, None, map[], []))
  {
  }

  lemma {:induction false} LockStep(env: Env, w: World, run: nat, action: Action)
    requires LockHolds(w)
    ensures LockHolds(Next(env, w, run, action))
  {
  }

  /** At most one run at a time is between taking the lock and releasing it, whatever the hash is. */
  lemma {:induction false} MutualExclusion(env: Env, initial: string, steps: seq<(nat, Action)>, n: nat, a: nat, b: nat)
    requires n <= |steps|
    ensures var w := After(env, initial, steps, n);
      a in w.phases && b in w.phases && HoldsLock(w.phases[a]) && HoldsLock(w.phases[b]) ==> a == b
  {
    LockAlwaysHolds(env, initial, steps, n);
  }

  /** How often a run overwrites the file. */
  function Writes(log: seq<Event>, run: nat): nat {
    if log == [] then 0
    else Writes(log[..|log| - 1], run) + if log[|log| - 1].Overwrote? && log[|log| - 1].run == run then 1 else 0
  }

  predicate HasWritten(w: World, run: nat) {
    run in w.phases && (w.phases[run].Published? || w.phases[run].Done?)
  }

  lemma {:induction false} OneMoreEvent(log: seq<Event>, e: Event, run: nat)
    ensures Writes(log + [e], run) == Writes(log, run) + if e.Overwrote? && e.run == run then 1 else 0
  {
    assert (log + [e])[..|log + [e]| - 1] == log;
  }

  /**
   In every interleaving, a run that has published has overwritten the file once, and any other run,
   in particular one that has failed or has found nothing to change, never has.
   */
  lemma {:induction false} WritesOnce(env: Env, initial: string, steps: seq<(nat, Action)>, n: nat, run: nat)
    requires n <= |steps|
    ensures var w := After(env, initial, steps, n);
      Writes(w.log, run) == if HasWritten(w, run) then 1 else 0
  {
    hide Writes;
    if n > 0 {
      var w, w' := After(env, initial, steps, n - 1), After(env, initial, steps, n);
      WritesOnce(env, initial, steps, n - 1, run);
      if w'.log != w.log {
        OneMoreEvent(w.log, w'.log[|w.log|], run);
        assert w'.log == w.log + [w'.log[|w.log|]];
      }
    } else {
      NothingWritten(run);
    }
  }

  lemma {:induction false} NothingWritten(run: nat)
    ensures Writes([], run) == 0
  {
  }

  lemma {:induction false} StoppedStep(env: Env, w: World, run: nat, other: nat, action: Action)
    requires run in w.phases && (w.phases[run].Failed? || w.phases[run].Unchanged?)
    ensures var w' := Next(env, w, other, action); run in w'.phases && w'.phases[run] == w.phases[run]
  {
  }

  /** A run that has failed, or has found nothing to change, stays so. */
  lemma {:induction false} StoppedForGood(env: Env, initial: string, steps: seq<(nat, Action)>, m: nat, n: nat, run: nat)
    requires m <= n <= |steps|
    requires var w := After(env, initial, steps, m); run in w.phases && (w.phases[run].Failed? || w.phases[run].Unchanged?)
    ensures var w := After(env, initial, steps, n); run in w.phases && w.phases[run] == After(env, initial, steps, m).phases[run]
    decreases n
  {
    hide Next;
    if m < n {
      StoppedForGood(env, initial, steps, m, n - 1, run);
      StoppedStep(env, After(env, initial, steps, n - 1), run, steps[n - 1].0, steps[n - 1].1);
    }
  }

  /**
   A run fails its drift check exactly when the file no longer holds what the run has read, and
   then it never overwrites the file, whatever happens afterwards.
   */
  lemma {:induction false} DriftIsDetected(env: Env, initial: string, steps: seq<(nat, Action)>, m: nat, n: nat, run: nat)
    requires Injective(env) && m < n <= |steps| && steps[m] == (run, Check)
    requires var w := After(env, initial, steps, m); run in w.phases && w.phases[run].Locked?
    ensures var w, w' := After(env, initial, steps, m), After(env, initial, steps, m + 1);
      && (w'.phases[run] == Failed <==> w.file != w.phases[run].bytes)
      && w'.file == w.file && w'.log == w.log
      && (w'.phases[run] == Failed ==> w'.lock.None? && Writes(After(env, initial, steps, n).log, run) == 0)
  {
    var w' := After(env, initial, steps, m + 1);
    if w'.phases[run] == Failed {
      StoppedForGood(env, initial, steps, m + 1, n, run);
      WritesOnce(env, initial, steps, n, run);
    }
  }

  /**
   A run that has read the file stops there exactly when its patch fails, or is already in the file when
   it looks again, and then it never overwrites the file.
   */
  lemma {:induction false} UnchangedIsThere(env: Env, initial: string, steps: seq<(nat, Action)>, m: nat, n: nat, run: nat)
    requires m < n <= |steps| && steps[m] == (run, Plan)
    requires var w := After(env, initial, steps, m); run in w.phases && w.phases[run].Inspected?
    ensures var w, w' := After(env, initial, steps, m), After(env, initial, steps, m + 1);
      var patched := env.patch(run, w.phases[run].bytes);
      && (w'.phases[run] == Failed <==> patched.None?)
      && (w'.phases[run] == Unchanged <==> patched == Some(w.file))
      && w'.file == w.file && w'.log == w.log
      && (patched.None? || patched == Some(w.file) ==> Writes(After(env, initial, steps, n).log, run) == 0)
  {
    var w := After(env, initial, steps, m);
    var patched := env.patch(run, w.phases[run].bytes);
    if patched.None? || patched == Some(w.file) {
      StoppedForGood(env, initial, steps, m + 1, n, run);
      WritesOnce(env, initial, steps, n, run);
    }
  }

  /**
   A run that gives up waiting for the lock, or cannot replace the file, changes neither the file nor the
   log, does not hold the lock, and never overwrites the file.
   */
  lemma {:induction false} FailureIsClean(env: Env, initial: string, steps: seq<(nat, Action)>, m: nat, n: nat, run: nat)
    requires m < n <= |steps|
    requires var w := After(env, initial, steps, m);
      run in w.phases && ((steps[m] == (run, GiveUp) && w.phases[run].Saved?) || (steps[m] == (run, FailToPublish) && w.phases[run].Checked?))
    ensures var w, w' := After(env, initial, steps, m), After(env, initial, steps, m + 1);
      && w'.phases[run] == Failed && w'.file == w.file && w'.log == w.log && w'.lock != Some(run)
      && Writes(After(env, initial, steps, n).log, run) == 0
  {
    hide LockHolds;
    LockAlwaysHolds(env, initial, steps, m + 1);
    NotFailedHolder(After(env, initial, steps, m + 1), run);
    StoppedForGood(env, initial, steps, m + 1, n, run);
    WritesOnce(env, initial, steps, n, run);
  }

  lemma {:induction false} NotFailedHolder(w: World, run: nat)
    requires LockHolds(w) && run in w.phases && w.phases[run] == Failed
    ensures w.lock != Some(run)
  {
  }

  // ---- a run that nothing disturbs ---------------------------------------------------------------------------

  /** Steps of one run, taken one after the other. */
  function Alone(env: Env, w: World, run: nat, actions: seq<Action>): World
    decreases |actions|
  {
    if actions == [] then w else Alone(env, Next(env, w, run, actions[0]), run, actions[1..])
  }

  lemma {:induction false} AloneConcat(env: Env, w: World, run: nat, a: seq<Action>, b: seq<Action>)
    ensures Alone(env, w, run, a + b) == Alone(env, Alone(env, w, run, a), run, b)
    decreases |a|
  {
    hide Next;
    if a == [] {
      assert a + b == b;
    } else {
      assert (a + b)[1..] == a[1..] + b;
      AloneConcat(env, Next(env, w, run, a[0]), run, a[1..], b);
    }
  }

  lemma {:induction false} AloneTwo(env: Env, w: World, run: nat, a: Action, b: Action)
    ensures Alone(env, w, run, [a, b]) == Next(env, Next(env, w, run, a), run, b)
    ensures Alone(env, w, run, [a]) == Next(env, w, run, a)
  {
    hide Next;
    var x := Next(env, w, run, a);
    assert [a, b][1..] == [b] && [b][1..] == [] && [a][1..] == [];
    assert Alone(env, w, run, [a]) == Alone(env, x, run, []);
    assert Alone(env, w, run, [a, b]) == Alone(env, x, run, [b]) == Alone(env, Next(env, x, run, b), run, []);
  }

  /** Reading and planning. */
  lemma {:induction false} PlannedAlone(env: Env, w: World, run: nat)
    requires run !in w.phases
    ensures var w', patched := Alone(env, w, run, [Read, Plan]), env.patch(run, w.file);
      w' == At(w, run, if patched.None? then Failed else if patched.value == w.file then Unchanged else Planned(w.file, patched.value))
  {
    AloneTwo(env, w, run, Read, Plan);
  }

  /** A run whose patch fails or changes nothing stays where it is. */
  lemma {:induction false} StaysAlone(env: Env, w: World, run: nat, actions: seq<Action>)
    requires run in w.phases && (w.phases[run].Failed? || w.phases[run].Unchanged? || w.phases[run].Done?)
    ensures Alone(env, w, run, actions) == w
    decreases |actions|
  {
    if actions != [] {
      StaysAlone(env, w, run, actions[1..]);
    }
  }

  lemma {:induction false} LockedAlone(env: Env, w: World, run: nat, bytes: string, patched: string)
    requires run in w.phases && w.phases[run] == Planned(bytes, patched) && w.lock.None?
    ensures Next(env, Next(env, w, run, Save), run, Acquire)
         == At(w, run, Locked(bytes, patched)).(lock := Some(run), log := w.log + [SnapshotSaved(run, env.hash(bytes))])
  {
  }

  lemma {:induction false} PublishedAlone(env: Env, w: World, run: nat, bytes: string, patched: string)
    requires run in w.phases && w.phases[run] == Locked(bytes, patched) && w.file == bytes
    ensures Next(env, Next(env, Next(env, w, run, Check), run, Publish), run, Release)
         == At(w, run, Done).(file := patched, lock := None, log := w.log + [Overwrote(run, bytes, patched)])
  {
  }

  lemma {:induction false} ReplacedAlone(env: Env, w: World, run: nat, bytes: string, patched: string)
    requires run in w.phases && w.phases[run] == Planned(bytes, patched) && w.file == bytes && w.lock.None?
    ensures Alone(env, w, run, [Save, Acquire] + ([Check, Publish] + [Release]))
         == At(w, run, Done).(file := patched, log := w.log + [SnapshotSaved(run, env.hash(bytes)), Overwrote(run, bytes, patched)])
  {
    hide Next, Alone;
    AloneConcat(env, w, run, [Save, Acquire], [Check, Publish] + [Release]);
    AloneTwo(env, w, run, Save, Acquire);
    LockedAlone(env, w, run, bytes, patched);
    var locked := Alone(env, w, run, [Save, Acquire]);
    AloneConcat(env, locked, run, [Check, Publish], [Release]);
    AloneTwo(env, locked, run, Check, Publish);
    AloneTwo(env, Alone(env, locked, run, [Check, Publish]), run, Release, Release);
    PublishedAlone(env, locked, run, bytes, patched);
    assert locked.log + [Overwrote(run, bytes, patched)] == w.log + [SnapshotSaved(run, env.hash(bytes)), Overwrote(run, bytes, patched)];
  }

  /**
   A run that starts while the lock is free, and that nothing disturbs, ends with its patch in the
   file, the lock released, and a snapshot and one overwrite in the log; if there is no patch, or the
   patch is the file, nothing but the run's own phase changes.
   */
  lemma {:induction false} UndisturbedRunInstalls(env: Env, w: World, run: nat)
    requires run !in w.phases && w.lock.None?
    ensures var w', patched := Alone(env, w, run, [Read, Plan] + ([Save, Acquire] + ([Check, Publish] + [Release]))), env.patch(run, w.file);
      && w'.phases.Keys == w.phases.Keys + {run} && (forall other :: other in w.phases ==> w'.phases[other] == w.phases[other])
      && w'.lock.None?
      && (patched.None? ==> w'.phases[run] == Failed && w'.file == w.file && w'.log == w.log)
      && (patched == Some(w.file) ==> w'.phases[run] == Unchanged && w'.file == w.file && w'.log == w.log)
      && (patched.Some? && patched.value != w.file ==>
            && w'.phases[run] == Done && w'.file == patched.value
            && w'.log == w.log + [SnapshotSaved(run, env.hash(w.file)), Overwrote(run, w.file, patched.value)])
  {
    hide Next;
    var rest := [Save, Acquire] + ([Check, Publish] + [Release]);
    AloneConcat(env, w, run, [Read, Plan], rest);
    PlannedAlone(env, w, run);
    var planned, patched := Alone(env, w, run, [Read, Plan]), env.patch(run, w.file);
    if patched.Some? && patched.value != w.file {
      ReplacedAlone(env, planned, run, w.file, patched.value);
    } else {
      StaysAlone(env, planned, run, rest);
    }
  }
}
