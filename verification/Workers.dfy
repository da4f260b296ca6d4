/**
 One pass of the delivery worker (`run_once`): every claimed delivery is a task that takes a permit
 of the global semaphore, then the permit of its channel, sends, and gives both back.  Tasks
 interleave freely.  And the cancellation token, whose waiters must not sleep through a cancel.
 */
module Workers {

  datatype Phase = Queued | Admitted | Sending | Done

  /** The channel of each task, and how many tasks may hold a global permit. */
  datatype Pass = Pass(channels: seq<nat>, permits: nat)

  predicate Holds(phase: Phase) {
    phase == Admitted || phase == Sending
  }

  function Holders(phases: seq<Phase>): nat {
    if phases == [] then 0 else (if Holds(phases[0]) then 1 else 0) + Holders(phases[1..])
  }

  /** No task is sending to the channel. */
  predicate ChannelFree(pass: Pass, phases: seq<Phase>, channel: nat)
    requires |phases| == |pass.channels|
  {
    forall j :: 0 <= j < |phases| && phases[j] == Sending ==> pass.channels[j] != channel
  }

  /** Whether task `i` can take its next step. */
  predicate CanStep(pass: Pass, phases: seq<Phase>, i: nat)
    requires |phases| == |pass.channels| && i < |phases|
  {
    match phases[i]
    case Queued => Holders(phases) < pass.permits
    case Admitted => ChannelFree(pass, phases, pass.channels[i])
    case Sending => true
    case Done => false
  }

  function Advance(phase: Phase): Phase {
    match phase
    case Queued => Admitted
    case Admitted => Sending
    case Sending => Done
    case Done => Done
  }

  function Step(pass: Pass, phases: seq<Phase>, i: nat): seq<Phase>
    requires |phases| == |pass.channels| && i < |phases|
  {
    if CanStep(pass, phases, i) then phases[i := Advance(phases[i])] else phases
  }

  predicate Safe(pass: Pass, phases: seq<Phase>) {
    && |phases| == |pass.channels|
    && Holders(phases) <= pass.permits
    && forall i, j :: 0 <= i < j < |phases| && phases[i] == Sending && phases[j] == Sending ==> pass.channels[i] != pass.channels[j]
  }

  lemma {:induction false} HoldersAfter(phases: seq<Phase>, i: nat, phase: Phase)
    requires i < |phases|
    ensures Holders(phases[i := phase]) + (if Holds(phases[i]) then 1 else 0) == Holders(phases) + if Holds(phase) then 1 else 0
  {
    var changed := phases[i := phase];
    if i == 0 {
      assert changed[1..] == phases[1..];
    } else {
      assert changed[1..] == phases[1..][i - 1 := phase];
      HoldersAfter(phases[1..], i - 1, phase);
    }
  }

  lemma {:induction false} StepIsSafe(pass: Pass, phases: seq<Phase>, i: nat)
    requires Safe(pass, phases) && i < |phases|
    ensures Safe(pass, Step(pass, phases, i))
  {
    HoldersAfter(phases, i, Advance(phases[i]));
  }

  function Start(pass: Pass): seq<Phase> {
    seq(|pass.channels|, i => Queued)
  }

  /** The phases after the first `n` steps, each of one task. */
  function After(pass: Pass, steps: seq<nat>, n: nat): seq<Phase>
    requires n <= |steps| && forall k :: 0 <= k < |steps| ==> steps[k] < |pass.channels|
    ensures |After(pass, steps, n)| == |pass.channels|
  {
    if n == 0 then Start(pass) else Step(pass, After(pass, steps, n - 1), steps[n - 1])
  }

  lemma {:induction false} NoHolders(phases: seq<Phase>)
    requires forall i :: 0 <= i < |phases| ==> !Holds(phases[i])
    ensures Holders(phases) == 0
  {
    if phases != [] {
      NoHolders(phases[1..]);
    }
  }

  function Senders(phases: seq<Phase>): nat {
    if phases == [] then 0 else (if phases[0] == Sending then 1 else 0) + Senders(phases[1..])
  }

  lemma {:induction false} SendersHold(phases: seq<Phase>)
    ensures Senders(phases) <= Holders(phases)
  {
    if phases != [] {
      SendersHold(phases[1..]);
    }
  }

  /** In every interleaving, at most the permitted number of sends runs, and at most one per channel. */
  lemma {:induction false} SendsAreLimited(pass: Pass, steps: seq<nat>, n: nat)
    requires n <= |steps| && forall k :: 0 <= k < |steps| ==> steps[k] < |pass.channels|
    ensures Safe(pass, After(pass, steps, n)) && Senders(After(pass, steps, n)) <= pass.permits
  {
    if n == 0 {
      NoHolders(Start(pass));
    } else {
      SendsAreLimited(pass, steps, n - 1);
      StepIsSafe(pass, After(pass, steps, n - 1), steps[n - 1]);
    }
    SendersHold(After(pass, steps, n));
  }

  lemma {:induction false} SomeHolder(phases: seq<Phase>) returns (i: nat)
    requires Holders(phases) > 0
    ensures i < |phases| && Holds(phases[i])
  {
    if Holds(phases[0]) {
      i := 0;
    } else {
      var k := SomeHolder(phases[1..]);
      i := k + 1;
    }
  }

  /**
   The order of the two semaphores cannot deadlock: with at least one permit, some task can step as
   long as any task is unfinished.
   */
  lemma {:induction false} SomeTaskCanStep(pass: Pass, phases: seq<Phase>, unfinished: nat) returns (i: nat)
    requires |phases| == |pass.channels| && pass.permits > 0
    requires unfinished < |phases| && phases[unfinished] != Done
    ensures i < |phases| && CanStep(pass, phases, i)
  {
    if Holders(phases) > 0 {
      i := SomeHolder(phases);
      if phases[i] == Admitted && !ChannelFree(pass, phases, pass.channels[i]) {
        var j :| 0 <= j < |phases| && phases[j] == Sending && pass.channels[j] == pass.channels[i];
        i := j;
      }
    } else {
      i := unfinished;
      if Holds(phases[i]) {
        HolderCounts(phases, i);
      }
    }
  }

  lemma {:induction false} HolderCounts(phases: seq<Phase>, i: nat)
    requires i < |phases| && Holds(phases[i])
    ensures Holders(phases) > 0
  {
    if i > 0 {
      HolderCounts(phases[1..], i - 1);
    }
  }

  /** Without a permit no task ever starts. */
  lemma {:induction false} NoPermitNoStart(pass: Pass, steps: seq<nat>, n: nat)
    requires pass.permits == 0 && n <= |steps| && forall k :: 0 <= k < |steps| ==> steps[k] < |pass.channels|
    ensures After(pass, steps, n) == Start(pass)
  {
    if n > 0 {
      NoPermitNoStart(pass, steps, n - 1);
      NoHolders(Start(pass));
    }
  }

  /** How many steps a task still has to take. */
  function Left(phase: Phase): nat {
    match phase
    case Queued => 3
    case Admitted => 2
    case Sending => 1
    case Done => 0
  }

  function LeftOf(phases: seq<Phase>): nat {
    if phases == [] then 0 else Left(phases[0]) + LeftOf(phases[1..])
  }

  lemma {:induction false} LeftAfter(phases: seq<Phase>, i: nat)
    requires i < |phases| && phases[i] != Done
    ensures LeftOf(phases[i := Advance(phases[i])]) + 1 == LeftOf(phases)
  {
    var changed := phases[i := Advance(phases[i])];
    if i == 0 {
      assert changed[1..] == phases[1..];
    } else {
      assert changed[1..] == phases[1..][i - 1 := Advance(phases[i])];
      LeftAfter(phases[1..], i - 1);
    }
  }

  lemma {:induction false} LeftNothing(phases: seq<Phase>)
    ensures LeftOf(phases) == 0 <==> forall i :: 0 <= i < |phases| ==> phases[i] == Done
  {
    if phases != [] {
      LeftNothing(phases[1..]);
      assert forall i :: 0 < i < |phases| ==> phases[i] == phases[1..][i - 1];
    }
  }

  /** Steps that are all taken, each by a task that can step. */
  predicate AllTaken(pass: Pass, steps: seq<nat>)
    requires forall k :: 0 <= k < |steps| ==> steps[k] < |pass.channels|
  {
    forall k :: 0 <= k < |steps| ==> CanStep(pass, After(pass, steps, k), steps[k])
  }

  lemma {:induction false} EachStepCounts(pass: Pass, steps: seq<nat>, n: nat)
    requires n <= |steps| && forall k :: 0 <= k < |steps| ==> steps[k] < |pass.channels|
    requires AllTaken(pass, steps)
    ensures LeftOf(After(pass, steps, n)) + n == 3 * |pass.channels|
  {
    if n == 0 {
      LeftAtStart(Start(pass));
    } else {
      EachStepCounts(pass, steps, n - 1);
      LeftAfter(After(pass, steps, n - 1), steps[n - 1]);
    }
  }

  lemma {:induction false} LeftAtStart(phases: seq<Phase>)
    requires forall i :: 0 <= i < |phases| ==> phases[i] == Queued
    ensures LeftOf(phases) == 3 * |phases|
  {
    if phases != [] {
      LeftAtStart(phases[1..]);
    }
  }

  /** A pass ends: no run takes more than three steps a task, and one that cannot go on has finished every task. */
  lemma {:induction false} PassEnds(pass: Pass, steps: seq<nat>)
    requires pass.permits > 0 && forall k :: 0 <= k < |steps| ==> steps[k] < |pass.channels|
    requires AllTaken(pass, steps)
    ensures |steps| <= 3 * |pass.channels|
    ensures (forall i :: 0 <= i < |pass.channels| ==> !CanStep(pass, After(pass, steps, |steps|), i)) <==>
      forall i :: 0 <= i < |pass.channels| ==> After(pass, steps, |steps|)[i] == Done
  {
    var phases := After(pass, steps, |steps|);
    EachStepCounts(pass, steps, |steps|);
    if exists i :: 0 <= i < |phases| && phases[i] != Done {
      var unfinished :| 0 <= unfinished < |phases| && phases[unfinished] != Done;
      var i := SomeTaskCanStep(pass, phases, unfinished);
    }
  }

  // ---- how much runs at once --------------------------------------------------------------------------

  /** The first `k` tasks take both permits, one task after the other. */
  function Starting(k: nat): (r: seq<nat>)
    ensures |r| == 2 * k && forall i :: 0 <= i < |r| ==> r[i] < k
  {
    if k == 0 then [] else Starting(k - 1) + [k - 1, k - 1]
  }

  lemma {:induction false} SamePrefix(pass: Pass, a: seq<nat>, b: seq<nat>, n: nat)
    requires n <= |a| <= |b| && a == b[..|a|]
    requires forall k :: 0 <= k < |b| ==> b[k] < |pass.channels|
    ensures forall k :: 0 <= k < |a| ==> a[k] < |pass.channels|
    ensures After(pass, a, n) == After(pass, b, n)
  {
    forall k | 0 <= k < |a| ensures a[k] < |pass.channels| {
      assert a[k] == b[k];
    }
    if n > 0 {
      SamePrefix(pass, a, b, n - 1);
    }
  }

  lemma {:induction false} HoldersOfFirst(phases: seq<Phase>, k: nat)
    requires k <= |phases| && forall i :: 0 <= i < |phases| ==> phases[i] == if i < k then Sending else Queued
    ensures Holders(phases) == k && Senders(phases) == k
  {
    if phases != [] {
      HoldersOfFirst(phases[1..], if k == 0 then 0 else k - 1);
    }
  }

  /**
   The permits are all put to use: as many sends as there are permits can run at once, when they go to
   different channels.
   */
  lemma {:induction false} PermitsAreUsed(pass: Pass, k: nat)
    requires k <= pass.permits && k <= |pass.channels|
    requires forall i, j :: 0 <= i < j < k ==> pass.channels[i] != pass.channels[j]
    ensures var phases := After(pass, Starting(k), 2 * k);
      Senders(phases) == k && forall i :: 0 <= i < |phases| ==> phases[i] == if i < k then Sending else Queued
  {
    var phases := After(pass, Starting(k), 2 * k);
    if k > 0 {
      var steps, task := Starting(k), k - 1;
      PermitsAreUsed(pass, task);
      SamePrefix(pass, Starting(task), steps, 2 * task);
      var before := After(pass, steps, 2 * task);
      HoldersOfFirst(before, task);
      assert steps[2 * task] == task && steps[2 * task + 1] == task;
      var admitted := After(pass, steps, 2 * task + 1);
      assert CanStep(pass, before, task) && admitted == before[task := Admitted];
      assert CanStep(pass, admitted, task) && phases == admitted[task := Sending];
    }
    HoldersOfFirst(phases, k);
  }
}
