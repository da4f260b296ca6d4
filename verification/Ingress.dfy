/**
 Recording hook events (`EventPipeline`): a live request and a replayed ingress row both record an
 event at most once, together with its delivery jobs, in one transaction.
 */
module Ingress {

  /** The stable id of an event: the same capture always has the same one. */
  type Id = nat

  /** A job carries the version of the rules that produced it; the three fields are its idempotency key. */
  datatype Job = Job(id: Id, rules: nat, channel: nat)

  datatype RowState = Pending | Processing

  /** The recorded events with the rules they were evaluated under, their jobs, and the ingress rows. */
  datatype Store = Store(events: map<Id, nat>, jobs: seq<Job>, ingress: map<Id, RowState>)

  /**
   The channels an event is to be delivered to under a version of the rules; none when it is
   suppressed.  A version stands for everything the decision depends on when it is taken.
   */
  type Targets = (Id, nat) -> seq<nat>

  function JobsFor(id: Id, rules: nat, channels: seq<nat>): (r: seq<Job>)
    ensures |r| == |channels| && forall i :: 0 <= i < |r| ==> r[i] == Job(id, rules, channels[i])
  {
    seq(|channels|, i requires 0 <= i < |channels| => Job(id, rules, channels[i]))
  }

  /** Enqueuing a job for each of the first `n` channels; a job that is there already is not added again. */
  function Enqueued(jobs: seq<Job>, id: Id, rules: nat, channels: seq<nat>, n: nat): seq<Job>
    requires n <= |channels|
  {
    if n == 0 then jobs
    else
      var before, job := Enqueued(jobs, id, rules, channels, n - 1), Job(id, rules, channels[n - 1]);
      if job in before then before else before + [job]
  }

  /** The transaction of a live request. */
  function Live(targets: Targets, s: Store, id: Id, rules: nat): Store {
    if id in s.events then s
    else s.(events := s.events[id := rules], jobs := Enqueued(s.jobs, id, rules, targets(id, rules), |targets(id, rules)|))
  }

  function WithoutRow(s: Store, id: Id): Store {
    s.(ingress := s.ingress - {id})
  }

  /** The transaction of a replayed ingress row. */
  function Replayed(targets: Targets, s: Store, id: Id, rules: nat): Store {
    WithoutRow(Live(targets, s, id, rules), id)
  }

  /** A batch of which only some rows can be replayed; the others stay as they are. */
  function Recovered(targets: Targets, s: Store, rules: nat, batch: seq<Id>, works: seq<bool>): Store
    requires |works| == |batch|
    decreases |batch|
  {
    if batch == [] then s
    else Recovered(targets, if works[0] then Replayed(targets, s, batch[0], rules) else s, rules, batch[1..], works[1..])
  }

  class EventPipeline {
    const targets: Targets
    var rules: nat
    var events: map<Id, nat>
    var jobs: seq<Job>
    var ingress: map<Id, RowState>

    constructor (targets: Targets, rules: nat)
      ensures this.targets == targets && this.rules == rules
      ensures Value() == Store(map[], [], map[])
    {
      this.targets, this.rules := targets, rules;
      events, jobs, ingress := map[], [], map[];
    }

    ghost function Value(): Store
      reads this
    {
      Store(events, jobs, ingress)
    }

    /** One job for each target of the rule. */
    method EnqueueJobs(id: Id)
      modifies this`jobs
      ensures jobs == Enqueued(old(jobs), id, rules, targets(id, rules), |targets(id, rules)|)
    {
      var channels := targets(id, rules);
      for i := 0 to |channels|
        invariant jobs == Enqueued(old(jobs), id, rules, channels, i)
      {
        var job := Job(id, rules, channels[i]);
        if job !in jobs {
          jobs := jobs + [job];
        }
      }
    }

    /** A live request; `duplicate` tells that the event was recorded before. */
    method ProcessLive(id: Id) returns (duplicate: bool)
      modifies this`events, this`jobs
      ensures Value() == Live(targets, old(Value()), id, rules)
      ensures duplicate <==> id in old(events)
    {
      if id in events {
        return true;
      }
      events := events[id := rules];
      EnqueueJobs(id);
      return false;
    }

    method ProcessSafeIngress(id: Id)
      modifies this`events, this`jobs, this`ingress
      ensures Value() == Replayed(targets, old(Value()), id, rules)
    {
      if id !in events {
        events := events[id := rules];
        EnqueueJobs(id);
      }
      ingress := ingress - {id};
    }

    /** Replays a batch; `works` says which rows can be evaluated, the others are skipped. */
    method RecoverIngress(batch: seq<Id>, works: seq<bool>) returns (attempted: nat)
      requires |works| == |batch|
      modifies this`events, this`jobs, this`ingress
      ensures attempted == |batch|
      ensures Value() == Recovered(targets, old(Value()), rules, batch, works)
    {
      attempted := 0;
      assert batch[0..] == batch && works[0..] == works;
      while attempted < |batch|
        invariant attempted <= |batch|
        invariant Recovered(targets, Value(), rules, batch[attempted..], works[attempted..]) == Recovered(targets, old(Value()), rules, batch, works)
      {
        assert batch[attempted..][1..] == batch[attempted + 1..] && works[attempted..][1..] == works[attempted + 1..];
        if works[attempted] {
          ProcessSafeIngress(batch[attempted]);
        }
        attempted := attempted + 1;
      }
    }

    /** A helper's own insertion, ignored when the row is there. */
    method InsertIngress(id: Id)
      modifies this`ingress
      ensures ingress == if id in old(ingress) then old(ingress) else old(ingress)[id := Pending]
    {
      if id !in ingress {
        ingress := ingress[id := Pending];
      }
    }
  }

  // ---- what every transaction keeps ------------------------------------------------------------------

  function JobsOf(jobs: seq<Job>, id: Id): seq<Job> {
    if jobs == [] then []
    else (if jobs[0].id == id then [jobs[0]] else []) + JobsOf(jobs[1..], id)
  }

  /** The first `n` channels without repetitions, each at its first place. */
  function Once(channels: seq<nat>, n: nat): seq<nat>
    requires n <= |channels|
  {
    if n == 0 then []
    else
      var before, channel := Once(channels, n - 1), channels[n - 1];
      if channel in before then before else before + [channel]
  }

  lemma {:induction false} OnceMeans(channels: seq<nat>, n: nat)
    requires n <= |channels|
    ensures forall i, j :: 0 <= i < j < |Once(channels, n)| ==> Once(channels, n)[i] != Once(channels, n)[j]
    ensures forall channel :: channel in Once(channels, n) <==> channel in channels[..n]
  {
    if n > 0 {
      OnceMeans(channels, n - 1);
      assert channels[..n] == channels[..n - 1] + [channels[n - 1]];
    }
  }

  /** The jobs of an event, one for each channel, as one evaluation of the rules gives them. */
  function JobsOfOne(targets: Targets, id: Id, rules: nat): seq<Job> {
    JobsFor(id, rules, Once(targets(id, rules), |targets(id, rules)|))
  }

  ghost predicate FromOneTransaction(targets: Targets, s: Store, id: Id) {
    JobsOf(s.jobs, id) == if id in s.events then JobsOfOne(targets, id, s.events[id]) else []
  }

  ghost predicate Consistent(targets: Targets, s: Store) {
    forall id: Id :: FromOneTransaction(targets, s, id)
  }

  lemma {:induction false} JobsAssoc(a: seq<Job>, b: seq<Job>, c: seq<Job>)
    ensures a + (b + c) == (a + b) + c
  {
  }

  lemma {:induction false} JobsOfConcat(a: seq<Job>, b: seq<Job>, id: Id)
    ensures JobsOf(a + b, id) == JobsOf(a, id) + JobsOf(b, id)
  {
    if a == [] {
      assert a + b == b;
    } else {
      assert (a + b)[1..] == a[1..] + b && (a + b)[0] == a[0];
      JobsOfConcat(a[1..], b, id);
      JobsAssoc(if a[0].id == id then [a[0]] else [], JobsOf(a[1..], id), JobsOf(b, id));
    }
  }

  lemma {:induction false} JobsOfOneEvent(jobs: seq<Job>, id: Id, other: Id)
    requires forall i :: 0 <= i < |jobs| ==> jobs[i].id == id
    ensures JobsOf(jobs, other) == if other == id then jobs else []
  {
    if jobs != [] {
      JobsOfOneEvent(jobs[1..], id, other);
      assert jobs == [jobs[0]] + jobs[1..];
    }
  }

  lemma {:induction false} JobsOfMember(jobs: seq<Job>, job: Job)
    requires job in jobs
    ensures job in JobsOf(jobs, job.id)
  {
    if jobs[0] != job {
      JobsOfMember(jobs[1..], job);
    }
  }

  /** For an event without jobs, enqueuing adds one job for each channel. */
  lemma {:induction false} EnqueuedIs(jobs: seq<Job>, id: Id, rules: nat, channels: seq<nat>, n: nat)
    requires n <= |channels| && JobsOf(jobs, id) == []
    ensures Enqueued(jobs, id, rules, channels, n) == jobs + JobsFor(id, rules, Once(channels, n))
  {
    if n > 0 {
      EnqueuedIs(jobs, id, rules, channels, n - 1);
      var once, job := Once(channels, n - 1), Job(id, rules, channels[n - 1]);
      if job in jobs {
        JobsOfMember(jobs, job);
      }
      if channels[n - 1] in once {
        var i :| 0 <= i < |once| && once[i] == channels[n - 1];
        assert JobsFor(id, rules, once)[i] == job;
      }
      assert JobsFor(id, rules, once + [channels[n - 1]]) == JobsFor(id, rules, once) + [job];
    } else {
      assert jobs + [] == jobs;
    }
  }

  /** A transaction, live or replayed, leaves every event with the jobs of the one that first recorded it. */
  lemma {:induction false} TransactionsAreConsistent(targets: Targets, s: Store, id: Id, rules: nat)
    requires Consistent(targets, s)
    ensures Consistent(targets, Live(targets, s, id, rules)) && Consistent(targets, Replayed(targets, s, id, rules))
    ensures s.events.Keys + {id} == Live(targets, s, id, rules).events.Keys
    ensures forall e :: e in s.events ==> Live(targets, s, id, rules).events[e] == s.events[e]
  {
    var s' := Live(targets, s, id, rules);
    forall e: Id ensures FromOneTransaction(targets, s', e) && FromOneTransaction(targets, WithoutRow(s', id), e) {
      assert FromOneTransaction(targets, s, e);
      if id !in s.events {
        var added := JobsOfOne(targets, id, rules);
        assert FromOneTransaction(targets, s, id);
        EnqueuedIs(s.jobs, id, rules, targets(id, rules), |targets(id, rules)|);
        JobsOfConcat(s.jobs, added, e);
        JobsOfOneEvent(added, id, e);
      }
    }
  }

  // ---- a batch -----------------------------------------------------------------------------------------

  /** Some row of the batch is for the event and can be replayed. */
  predicate Replayable(batch: seq<Id>, works: seq<bool>, id: Id)
    requires |works| == |batch|
  {
    exists k :: 0 <= k < |batch| && batch[k] == id && works[k]
  }

  lemma {:induction false} OneMoreRow(batch: seq<Id>, works: seq<bool>, id: Id)
    requires |works| == |batch| > 0
    ensures Replayable(batch, works, id) <==> (batch[0] == id && works[0]) || Replayable(batch[1..], works[1..], id)
  {
    if Replayable(batch, works, id) {
      var k :| 0 <= k < |batch| && batch[k] == id && works[k];
      assert k > 0 ==> batch[1..][k - 1] == id && works[1..][k - 1];
    }
    if Replayable(batch[1..], works[1..], id) {
      var k :| 0 <= k < |batch[1..]| && batch[1..][k] == id && works[1..][k];
      assert batch[k + 1] == id && works[k + 1];
    }
  }

  /**
   Every row that can be replayed is, wherever it stands in the batch: its event is recorded and the
   row goes.  The rows that cannot, and all others, stay as they are, and no other event is recorded.
   */
  lemma {:induction false} FailuresDoNotStop(targets: Targets, s: Store, rules: nat, batch: seq<Id>, works: seq<bool>, id: Id)
    requires |works| == |batch|
    ensures var s' := Recovered(targets, s, rules, batch, works);
      && (id in s'.events <==> id in s.events || Replayable(batch, works, id))
      && (id in s.events ==> s'.events[id] == s.events[id])
      && (id in s'.ingress <==> id in s.ingress && !Replayable(batch, works, id))
      && (id in s'.ingress ==> s'.ingress[id] == s.ingress[id])
    decreases |batch|
  {
    hide Enqueued, Replayable;
    if batch == [] {
      NothingReplayable(id);
      assert works == [];
    } else {
      OneMoreRow(batch, works, id);
      FailuresDoNotStop(targets, if works[0] then Replayed(targets, s, batch[0], rules) else s, rules, batch[1..], works[1..], id);
    }
  }

  lemma {:induction false} NothingReplayable(id: Id)
    ensures !Replayable([], [], id)
  {
  }
}
