/**
 The way of a hook event from the helper process to the database, over every interleaving.

 A helper sends its event to the app and waits for an acceptance; the reply may be lost or late,
 and then the helper inserts the event into the database itself, or else writes it to the spool.
 The app evaluates requests, drains the spool, replays ingress rows and may be restarted at any
 time; the rules may change at any time.  Each transaction is one step.
 */
module IngressProtocol {
  import opened Ingress

  datatype Phase = Waiting | Falling | Spooling | Finished | GaveUp

  datatype Helper = Helper(id: Id, phase: Phase)

  /**
   `queued` are the helpers whose request the app holds, `accepted` those it has accepted; `spool`
   are the events with a spool file, `drained` those the running drain has inserted but not yet
   deleted, and `batch` the rows the running recovery has taken.
   */
  datatype World = World(
    store: Store,
    spool: set<Id>,
    drained: set<Id>,
    batch: set<Id>,
    helpers: map<nat, Helper>,
    queued: set<nat>,
    accepted: set<nat>,
    rules: nat)

  datatype Step =
    | Send(helper: nat, id: Id, busy: bool)
    | Serve(helper: nat)
    | Reject(helper: nat)
    | Receive(helper: nat)
    | TimeOut(helper: nat)
    | InsertDirectly(helper: nat, works: bool)
    | WriteSpool(helper: nat, works: bool)
    | DrainInsert(id: Id)
    | DrainDelete(id: Id)
    | Take(id: Id)
    | Replay(id: Id, works: bool)
    | Restart
    | ChangeRules(rules: nat)

  function Move(w: World, helper: nat, phase: Phase): World
    requires helper in w.helpers
  {
    w.(helpers := w.helpers[helper := w.helpers[helper].(phase := phase)])
  }

  function AddRow(s: Store, id: Id): Store {
    if id in s.ingress then s else s.(ingress := s.ingress[id := Pending])
  }

  predicate InPhase(w: World, helper: nat, phase: Phase) {
    helper in w.helpers && w.helpers[helper].phase == phase
  }

  function Requeued(s: Store): Store {
    s.(ingress := map id | id in s.ingress :: Pending)
  }

  /** One step; a step that cannot be taken leaves the world as it is. */
  function Next(targets: Targets, w: World, step: Step): World {
    match step
    case Send(h, id, busy) =>
      if h in w.helpers then w
      else w.(helpers := w.helpers[h := Helper(id, if busy then Falling else Waiting)], queued := if busy then w.queued else w.queued + {h})
    case Serve(h) =>
      if h !in w.queued || h !in w.helpers then w
      else w.(store := Live(targets, w.store, w.helpers[h].id, w.rules), queued := w.queued - {h}, accepted := w.accepted + {h})
    case Reject(h) => w.(queued := w.queued - {h})
    case Receive(h) => if InPhase(w, h, Waiting) && h in w.accepted then Move(w, h, Finished) else w
    case TimeOut(h) => if InPhase(w, h, Waiting) then Move(w, h, Falling) else w
    case InsertDirectly(h, works) =>
      if !InPhase(w, h, Falling) then w
      else if works then Move(w, h, Finished).(store := AddRow(w.store, w.helpers[h].id))
      else Move(w, h, Spooling)
    case WriteSpool(h, works) =>
      if !InPhase(w, h, Spooling) then w
      else if works then Move(w, h, Finished).(spool := w.spool + {w.helpers[h].id})
      else Move(w, h, GaveUp)
    case DrainInsert(id) => if id in w.spool then w.(store := AddRow(w.store, id), drained := w.drained + {id}) else w
    case DrainDelete(id) => if id in w.drained then w.(spool := w.spool - {id}, drained := w.drained - {id}) else w
    case Take(id) =>
      if id in w.store.ingress && w.store.ingress[id] == Pending then
        w.(store := w.store.(ingress := w.store.ingress[id := Processing]), batch := w.batch + {id})
      else w
    case Replay(id, works) =>
      if id !in w.batch then w
      else if works then w.(store := Replayed(targets, w.store, id, w.rules), batch := w.batch - {id})
      else w.(batch := w.batch - {id})
    case Restart => w.(store := Requeued(w.store), drained := {}, batch := {}, queued := {})
    case ChangeRules(rules) => w.(rules := rules)
  }

  function Initial(rules: nat): World {
    World(Store(map[], [], map[]), {}, {}, {}, map[], {}, {}, rules)
  }

  function After(targets: Targets, rules: nat, steps: seq<Step>, n: nat): World
    requires n <= |steps|
  {
    if n == 0 then Initial(rules) else Next(targets, After(targets, rules, steps, n - 1), steps[n - 1])
  }

  // ---- what holds in every reachable world ------------------------------------------------------------

  /** The event is recorded, waits in an ingress row, or waits in the spool. */
  predicate Kept(w: World, id: Id) {
    id in w.store.events || id in w.store.ingress || id in w.spool
  }

  predicate HelperHolds(w: World, h: nat)
    requires h in w.helpers
  {
    && (w.helpers[h].phase == Finished ==> Kept(w, w.helpers[h].id))
    && (h in w.accepted ==> w.helpers[h].id in w.store.events)
  }

  ghost predicate Good(targets: Targets, w: World) {
    && Consistent(targets, w.store)
    && (forall h :: h in w.helpers ==> HelperHolds(w, h))
    && (forall h :: h in w.accepted ==> h in w.helpers)
    && (forall id :: id in w.drained ==> id in w.store.events || id in w.store.ingress)
  }

  /** No step forgets an event that is kept, and none changes a recorded one. */
  lemma {:induction false} StepKeeps(targets: Targets, w: World, step: Step, id: Id)
    requires Good(targets, w)
    ensures Kept(w, id) ==> Kept(Next(targets, w, step), id)
    ensures id in w.store.events ==>
      id in Next(targets, w, step).store.events && Next(targets, w, step).store.events[id] == w.store.events[id]
    ensures (id in w.store.events || id in w.store.ingress) ==>
      id in Next(targets, w, step).store.events || id in Next(targets, w, step).store.ingress
  {
  }

  lemma {:induction false} RowsDoNotMatter(targets: Targets, s: Store, s': Store)
    requires Consistent(targets, s) && s'.events == s.events && s'.jobs == s.jobs
    ensures Consistent(targets, s')
  {
    forall id: Id ensures FromOneTransaction(targets, s', id) {
      assert FromOneTransaction(targets, s, id);
    }
  }

  lemma {:induction false} StepIsConsistent(targets: Targets, w: World, step: Step)
    requires Consistent(targets, w.store)
    ensures Consistent(targets, Next(targets, w, step).store)
  {
    hide Consistent, FromOneTransaction;
    if step.Serve? && step.helper in w.queued && step.helper in w.helpers {
      TransactionsAreConsistent(targets, w.store, w.helpers[step.helper].id, w.rules);
    } else if step.Replay? {
      TransactionsAreConsistent(targets, w.store, step.id, w.rules);
    } else {
      RowsDoNotMatter(targets, w.store, Next(targets, w, step).store);
    }
  }

  lemma {:induction false} StepKeepsGood(targets: Targets, w: World, step: Step)
    requires Good(targets, w)
    ensures Good(targets, Next(targets, w, step))
  {
    var w' := Next(targets, w, step);
    StepIsConsistent(targets, w, step);
    forall id: Id
      ensures Kept(w, id) ==> Kept(w', id)
      ensures id in w.store.events ==> id in w'.store.events
      ensures (id in w.store.events || id in w.store.ingress) ==> id in w'.store.events || id in w'.store.ingress
    {
      StepKeeps(targets, w, step, id);
    }
    hide Consistent;
    forall h | h in w'.helpers ensures HelperHolds(w', h) {
      if h in w.helpers {
        assert HelperHolds(w, h);
      }
    }
  }

  lemma {:induction false} AlwaysGood(targets: Targets, rules: nat, steps: seq<Step>, n: nat)
    requires n <= |steps|
    ensures Good(targets, After(targets, rules, steps, n))
  {
    if n > 0 {
      AlwaysGood(targets, rules, steps, n - 1);
      StepKeepsGood(targets, After(targets, rules, steps, n - 1), steps[n - 1]);
    }
  }

  // ---- the main results ---------------------------------------------------------------------------------

  /** A helper that has finished has not lost its event, whatever happens afterwards. */
  lemma {:induction false} NeverLost(targets: Targets, rules: nat, steps: seq<Step>, n: nat, h: nat)
    requires n <= |steps|
    ensures var w := After(targets, rules, steps, n);
      InPhase(w, h, Finished) ==> Kept(w, w.helpers[h].id)
  {
    AlwaysGood(targets, rules, steps, n);
    var w := After(targets, rules, steps, n);
    if h in w.helpers {
      assert HelperHolds(w, h);
    }
  }

  /** Once an event is recorded it stays recorded, under the rules of its first transaction. */
  lemma {:induction false} RecordedForGood(targets: Targets, rules: nat, steps: seq<Step>, m: nat, n: nat, id: Id)
    requires m <= n <= |steps| && id in After(targets, rules, steps, m).store.events
    ensures id in After(targets, rules, steps, n).store.events
    ensures After(targets, rules, steps, n).store.events[id] == After(targets, rules, steps, m).store.events[id]
    decreases n
  {
    if m < n {
      RecordedForGood(targets, rules, steps, m, n - 1, id);
      AlwaysGood(targets, rules, steps, n - 1);
      StepKeeps(targets, After(targets, rules, steps, n - 1), steps[n - 1], id);
    }
  }

  /** The jobs are those of the event for the channels, one for each of them. */
  ghost predicate OneJobEach(jobs: seq<Job>, id: Id, rules: nat, channels: seq<nat>) {
    && (forall i :: 0 <= i < |jobs| ==> jobs[i].id == id && jobs[i].rules == rules && jobs[i].channel in channels)
    && (forall channel :: channel in channels ==> Job(id, rules, channel) in jobs)
    && (forall i, j :: 0 <= i < j < |jobs| ==> jobs[i] != jobs[j])
  }

  lemma {:induction false} OnceIsOneEach(id: Id, rules: nat, channels: seq<nat>)
    ensures OneJobEach(JobsFor(id, rules, Once(channels, |channels|)), id, rules, channels)
  {
    var once := Once(channels, |channels|);
    var jobs := JobsFor(id, rules, once);
    OnceMeans(channels, |channels|);
    assert channels[..|channels|] == channels;
    forall channel | channel in channels ensures Job(id, rules, channel) in jobs {
      var i :| 0 <= i < |once| && once[i] == channel;
      assert jobs[i] == Job(id, rules, channel);
    }
  }

  /**
   Whatever the interleaving, and however often an event is delivered, replayed or both, its jobs
   are exactly those of the one transaction that first recorded it, even when the rules change:
   one job for each channel of the rules of that transaction.
   */
  lemma {:induction false} RecordedOnce(targets: Targets, rules: nat, steps: seq<Step>, n: nat, id: Id)
    requires n <= |steps|
    ensures var s := After(targets, rules, steps, n).store;
      && (id !in s.events ==> JobsOf(s.jobs, id) == [])
      && (id in s.events ==> OneJobEach(JobsOf(s.jobs, id), id, s.events[id], targets(id, s.events[id])))
  {
    AlwaysGood(targets, rules, steps, n);
    var s := After(targets, rules, steps, n).store;
    if id in s.events {
      OnceIsOneEach(id, s.events[id], targets(id, s.events[id]));
    }
    assert FromOneTransaction(targets, After(targets, rules, steps, n).store, id);
  }

  /** Acceptance is reported only for an event that is recorded. */
  lemma {:induction false} AcceptedIsRecorded(targets: Targets, rules: nat, steps: seq<Step>, n: nat, h: nat)
    requires n <= |steps|
    ensures var w := After(targets, rules, steps, n);
      h in w.accepted ==> h in w.helpers && w.helpers[h].id in w.store.events
  {
    AlwaysGood(targets, rules, steps, n);
    var w := After(targets, rules, steps, n);
    if h in w.accepted {
      assert HelperHolds(w, h);
    }
  }

  // ---- what a helper tries ------------------------------------------------------------------------------

  /** Step `k` is an insertion by the helper, or a spool file of its own, that failed. */
  predicate FailedInsertion(targets: Targets, rules: nat, steps: seq<Step>, k: nat, h: nat) {
    k < |steps| && steps[k] == InsertDirectly(h, false) && InPhase(After(targets, rules, steps, k), h, Falling)
  }

  predicate FailedSpool(targets: Targets, rules: nat, steps: seq<Step>, k: nat, h: nat) {
    k < |steps| && steps[k] == WriteSpool(h, false) && InPhase(After(targets, rules, steps, k), h, Spooling)
  }

  lemma {:induction false} SpoolingHasFailedInsertion(targets: Targets, rules: nat, steps: seq<Step>, n: nat, h: nat)
    requires n <= |steps| && InPhase(After(targets, rules, steps, n), h, Spooling)
    ensures exists j: nat :: j < n && FailedInsertion(targets, rules, steps, j, h)
  {
    if InPhase(After(targets, rules, steps, n - 1), h, Spooling) {
      SpoolingHasFailedInsertion(targets, rules, steps, n - 1, h);
    } else {
      assert FailedInsertion(targets, rules, steps, n - 1, h);
    }
  }

  /** A helper gives up only after its insertion into the database and then its spool file have failed. */
  lemma {:induction false} GaveUpAfterBoth(targets: Targets, rules: nat, steps: seq<Step>, n: nat, h: nat)
    requires n <= |steps| && InPhase(After(targets, rules, steps, n), h, GaveUp)
    ensures exists j: nat, k: nat :: j < k < n && FailedInsertion(targets, rules, steps, j, h) && FailedSpool(targets, rules, steps, k, h)
  {
    if InPhase(After(targets, rules, steps, n - 1), h, GaveUp) {
      GaveUpAfterBoth(targets, rules, steps, n - 1, h);
    } else {
      assert FailedSpool(targets, rules, steps, n - 1, h);
      SpoolingHasFailedInsertion(targets, rules, steps, n - 1, h);
    }
  }

  function Run(targets: Targets, w: World, steps: seq<Step>): World
    decreases |steps|
  {
    if steps == [] then w else Run(targets, Next(targets, w, steps[0]), steps[1..])
  }

  lemma {:induction false} RunThree(targets: Targets, w: World, a: Step, b: Step, c: Step)
    ensures Run(targets, w, [a, b]) == Next(targets, Next(targets, w, a), b)
    ensures Run(targets, w, [a, b, c]) == Next(targets, Next(targets, Next(targets, w, a), b), c)
  {
    hide Next;
    var x := Next(targets, w, a);
    var y := Next(targets, x, b);
    assert [a, b, c][1..] == [b, c] && [b, c][1..] == [c] && [c][1..] == [] && [a, b][1..] == [b] && [b][1..] == [];
    assert Run(targets, w, [a, b]) == Run(targets, x, [b]) == Run(targets, y, []);
    assert Run(targets, w, [a, b, c]) == Run(targets, x, [b, c]) == Run(targets, y, [c]) == Run(targets, Next(targets, y, c), []);
  }

  /** The steps of a helper that falls back, after a timeout if it still waits. */
  function Fallback(w: World, h: nat, inserts: bool, spools: bool): seq<Step> {
    (if InPhase(w, h, Waiting) then [TimeOut(h)] else []) + [InsertDirectly(h, inserts), WriteSpool(h, spools)]
  }

  /**
   In every world, a helper that waits or has been turned away keeps its event if the database or the
   spool takes it, and gives up only if neither does.
   */
  lemma {:induction false} FallbackKeeps(targets: Targets, w: World, h: nat, inserts: bool, spools: bool)
    requires InPhase(w, h, Waiting) || InPhase(w, h, Falling)
    ensures var w' := Run(targets, w, Fallback(w, h, inserts, spools));
      && h in w'.helpers && w'.helpers[h].id == w.helpers[h].id
      && (inserts || spools ==> InPhase(w', h, Finished) && Kept(w', w.helpers[h].id))
      && (inserts ==> w'.spool == w.spool)
      && (!inserts && !spools ==> InPhase(w', h, GaveUp))
  {
    RunThree(targets, w, TimeOut(h), InsertDirectly(h, inserts), WriteSpool(h, spools));
    RunThree(targets, w, InsertDirectly(h, inserts), WriteSpool(h, spools), Restart);
    assert Fallback(w, h, inserts, spools)
        == if InPhase(w, h, Waiting) then [TimeOut(h), InsertDirectly(h, inserts), WriteSpool(h, spools)] else [InsertDirectly(h, inserts), WriteSpool(h, spools)];
  }

  /** A new helper whose request is turned away tries the database and then the spool at once. */
  lemma {:induction false} TurnedAwayFallsBack(targets: Targets, w: World, h: nat, id: Id, inserts: bool, spools: bool)
    requires h !in w.helpers
    ensures var w' := Run(targets, w, [Send(h, id, true), InsertDirectly(h, inserts), WriteSpool(h, spools)]);
      && h in w'.helpers && w'.helpers[h].id == id
      && (inserts || spools ==> InPhase(w', h, Finished) && Kept(w', id))
      && (!inserts && !spools ==> InPhase(w', h, GaveUp))
  {
    RunThree(targets, w, Send(h, id, true), InsertDirectly(h, inserts), WriteSpool(h, spools));
  }

  /** A new helper's request that is not turned away, is served and is answered in time finishes with its event recorded. */
  lemma {:induction false} ServedFinishes(targets: Targets, w: World, h: nat, id: Id)
    requires h !in w.helpers
    ensures var w' := Run(targets, w, [Send(h, id, false), Serve(h), Receive(h)]);
      InPhase(w', h, Finished) && w'.helpers[h].id == id && id in w'.store.events
  {
    RunThree(targets, w, Send(h, id, false), Serve(h), Receive(h));
  }

  // ---- what the application forgets ----------------------------------------------------------------------

  /** Since step `k` no step before `n` has been a restart or one of `ends`. */
  predicate Since(steps: seq<Step>, k: nat, n: nat, ends: set<Step>)
    requires n <= |steps|
  {
    forall j :: k < j < n ==> !steps[j].Restart? && steps[j] !in ends
  }

  /**
   What the application holds in memory dates from after the last restart: a request it can serve was
   sent while it was not busy, and has not been served or rejected since; an event of a running drain or
   replay was inserted or taken, and not finished since.
   */
  lemma {:induction false} MemoryIsRecent(targets: Targets, rules: nat, steps: seq<Step>, n: nat, h: nat, id: Id)
    requires n <= |steps|
    ensures var w := After(targets, rules, steps, n);
      && (h in w.queued ==> h in w.helpers && exists k: nat :: k < n && steps[k].Send? && steps[k].helper == h && !steps[k].busy && Since(steps, k, n, {Serve(h), Reject(h)}))
      && (id in w.drained ==> exists k: nat :: k < n && steps[k] == DrainInsert(id) && Since(steps, k, n, {DrainDelete(id)}))
      && (id in w.batch ==> exists k: nat :: k < n && steps[k] == Take(id) && Since(steps, k, n, {Replay(id, true), Replay(id, false)}))
  {
    if n > 0 {
      MemoryIsRecent(targets, rules, steps, n - 1, h, id);
      var w, step := After(targets, rules, steps, n - 1), steps[n - 1];
      var w' := Next(targets, w, step);
      OnlyThese(targets, w, step, h, id);
      if h in w'.queued {
        if h in w.queued {
          var k: nat :| k < n - 1 && steps[k].Send? && steps[k].helper == h && !steps[k].busy && Since(steps, k, n - 1, {Serve(h), Reject(h)});
          assert Since(steps, k, n, {Serve(h), Reject(h)});
        } else {
          assert Since(steps, n - 1, n, {Serve(h), Reject(h)});
        }
      }
      if id in w'.drained {
        if step == DrainInsert(id) {
          assert Since(steps, n - 1, n, {DrainDelete(id)});
        } else {
          var k: nat :| k < n - 1 && steps[k] == DrainInsert(id) && Since(steps, k, n - 1, {DrainDelete(id)});
          assert Since(steps, k, n, {DrainDelete(id)});
        }
      }
      if id in w'.batch {
        if id in w.batch {
          var k: nat :| k < n - 1 && steps[k] == Take(id) && Since(steps, k, n - 1, {Replay(id, true), Replay(id, false)});
          assert Since(steps, k, n, {Replay(id, true), Replay(id, false)});
        } else {
          assert Since(steps, n - 1, n, {Replay(id, true), Replay(id, false)});
        }
      }
    }
  }

  lemma {:induction false} OnlyThese(targets: Targets, w: World, step: Step, h: nat, id: Id)
    requires h in w.queued ==> h in w.helpers
    ensures var w' := Next(targets, w, step);
      && (h in w'.queued ==> h in w'.helpers && !step.Restart? && step != Serve(h) && step != Reject(h))
      && (h in w'.queued && h !in w.queued ==> step.Send? && step.helper == h && !step.busy)
      && (id in w'.drained ==> !step.Restart? && step != DrainDelete(id) && (id in w.drained || step == DrainInsert(id)))
      && (id in w'.batch ==> !step.Restart? && step != Replay(id, true) && step != Replay(id, false) && (id in w.batch || step == Take(id)))
  {
  }

  // ---- the rules under which an event is recorded ---------------------------------------------------------

  /** The rules set last. */
  function LastRules(rules: nat, steps: seq<Step>, n: nat): nat
    requires n <= |steps|
  {
    if n == 0 then rules else if steps[n - 1].ChangeRules? then steps[n - 1].rules else LastRules(rules, steps, n - 1)
  }

  lemma {:induction false} RulesAreLast(targets: Targets, rules: nat, steps: seq<Step>, n: nat)
    requires n <= |steps|
    ensures After(targets, rules, steps, n).rules == LastRules(rules, steps, n)
  {
    if n > 0 {
      RulesAreLast(targets, rules, steps, n - 1);
    }
  }

  /** An event that a step records is recorded under the rules set last before it. */
  lemma {:induction false} RecordedUnderLastRules(targets: Targets, rules: nat, steps: seq<Step>, n: nat, id: Id)
    requires n < |steps| && id !in After(targets, rules, steps, n).store.events && id in After(targets, rules, steps, n + 1).store.events
    ensures After(targets, rules, steps, n + 1).store.events[id] == LastRules(rules, steps, n)
  {
    RulesAreLast(targets, rules, steps, n);
  }

  // ---- recovery ------------------------------------------------------------------------------------------

  /** A restart followed by a drain and a replay that works. */
  function Recovery(id: Id): seq<Step> {
    [Restart, DrainInsert(id), DrainDelete(id)] + [Take(id), Replay(id, true)]
  }

  lemma {:induction false} RunConcat(targets: Targets, w: World, a: seq<Step>, b: seq<Step>)
    ensures Run(targets, w, a + b) == Run(targets, Run(targets, w, a), b)
    decreases |a|
  {
    hide Next;
    if a == [] {
      assert a + b == b;
    } else {
      assert (a + b)[1..] == a[1..] + b;
      RunConcat(targets, Next(targets, w, a[0]), a[1..], b);
    }
  }

  /** A restart and a drain leave the event recorded or in a row that waits. */
  lemma {:induction false} DrainedIsPending(targets: Targets, w: World, id: Id)
    requires Kept(w, id)
    ensures var w' := Next(targets, Next(targets, Next(targets, w, Restart), DrainInsert(id)), DrainDelete(id));
      id !in w'.spool && if id in w'.store.ingress then w'.store.ingress[id] == Pending else id in w'.store.events
  {
  }

  lemma {:induction false} PendingIsRecorded(targets: Targets, w: World, id: Id)
    requires id !in w.spool && if id in w.store.ingress then w.store.ingress[id] == Pending else id in w.store.events
    ensures var w' := Next(targets, Next(targets, w, Take(id)), Replay(id, true));
      id in w'.store.events && id !in w'.store.ingress && id !in w'.spool
  {
  }

  /** From every reachable world, one recovery after a restart records a kept event, and leaves neither row nor spool file. */
  lemma {:induction false} RecoveryRecords(targets: Targets, rules: nat, steps: seq<Step>, n: nat, id: Id)
    requires n <= |steps| && Kept(After(targets, rules, steps, n), id)
    ensures var w := Run(targets, After(targets, rules, steps, n), Recovery(id));
      id in w.store.events && id !in w.store.ingress && id !in w.spool
  {
    hide Next, Kept;
    var w := After(targets, rules, steps, n);
    RunThree(targets, w, Restart, DrainInsert(id), DrainDelete(id));
    DrainedIsPending(targets, w, id);
    var w' := Run(targets, w, [Restart, DrainInsert(id), DrainDelete(id)]);
    RunConcat(targets, w, [Restart, DrainInsert(id), DrainDelete(id)], [Take(id), Replay(id, true)]);
    RunThree(targets, w', Take(id), Replay(id, true), Restart);
    PendingIsRecorded(targets, w', id);
  }
}
