/**
 How a row earns its trust, over every interleaving of installer runs and ingress requests.

 The trust of an event depends on that event's row alone.  A run reads the row when it builds its
 record (`build_records`) and writes the record later (`replace_hooks`); in between, other runs
 and ingress requests (`mark_hook_seen`) may change the row.
 */
module TrustProtocol {
  import opened Outcomes
  import opened Ownership
  import opened Installation

  /**
   A run resolves the trust of the record it is to write, or finds that the event has no entry;
   it commits what it resolved; or an ingress request reports the command it was invoked with.
   */
  datatype Step = Resolve(run: nat, found: Option<Row>) | Commit(run: nat) | Observe(command: string, now: nat)

  datatype State = Standing(row: Option<Row>, pending: map<nat, Option<Row>>)

  function Resolved(agent: Agent, row: Option<Row>, found: Option<Row>): Option<Row> {
    if found.None? then None
    else Some(found.value.(trust := ResolveTrust(agent, row, found.value.command, found.value.definition)))
  }

  function ObservedRow(row: Option<Row>, command: string, now: nat): Option<Row> {
    if row.Some? && row.value.command == command then
      Some(row.value.(lastSeen := Some(now), trust := if row.value.trust == NeedsUserConfirmation then ObservedWorking else row.value.trust))
    else row
  }

  /** The step of one row is the step of the table. */
  lemma {:induction false} ObservedIsRowwise(rows: map<string, Row>, event: string, command: string, now: nat, other: string)
    ensures RowFor(Observed(rows, event, command, now), event) == ObservedRow(RowFor(rows, event), command, now)
    ensures other != event ==> RowFor(Observed(rows, event, command, now), other) == RowFor(rows, other)
  {
  }

  function Next(agent: Agent, s: State, step: Step): State {
    match step
    case Resolve(run, found) => s.(pending := s.pending[run := Resolved(agent, s.row, found)])
    case Commit(run) => if run in s.pending then s.(row := s.pending[run]) else s
    case Observe(command, now) => s.(row := ObservedRow(s.row, command, now))
  }

  /** The state after the first `n` steps of a history that starts without a row. */
  function After(agent: Agent, steps: seq<Step>, n: nat): State
    requires n <= |steps|
  {
    if n == 0 then Standing(None, map[]) else Next(agent, After(agent, steps, n - 1), steps[n - 1])
  }

  /** Both rows exist and carry the same command and definition fingerprints. */
  predicate SamePair(a: Option<Row>, b: Option<Row>) {
    a.Some? && b.Some? && a.value.command == b.value.command && a.value.definition == b.value.definition
  }

  /** Step `k` is an ingress request with the command of the row standing then, whose pair is that of `row`. */
  predicate ObservedAt(agent: Agent, steps: seq<Step>, k: nat, row: Option<Row>) {
    && k < |steps|
    && steps[k].Observe?
    && SamePair(After(agent, steps, k).row, row)
    && steps[k].command == row.value.command
  }

  /** The row after `n` steps has been observed since its pair last changed or it was last created. */
  ghost predicate Earned(agent: Agent, steps: seq<Step>, n: nat)
    requires n <= |steps|
  {
    exists k: nat :: k < n && ObservedAt(agent, steps, k, After(agent, steps, n).row)
      && forall j :: k <= j <= n ==> SamePair(After(agent, steps, j).row, After(agent, steps, n).row)
  }

  /** The pair of the row after `n` steps was observed at some time while it was recorded. */
  ghost predicate EverEarned(agent: Agent, steps: seq<Step>, n: nat, row: Option<Row>)
    requires n <= |steps|
  {
    exists k: nat :: k < n && ObservedAt(agent, steps, k, row)
  }

  predicate Trusted(row: Option<Row>) {
    row.Some? && row.value.trust == ObservedWorking
  }

  // ---- every interleaving ------------------------------------------------------------------------------

  /** Claude rows never need or carry an observation. */
  lemma {:induction false} ClaudeNeverNeedsTrust(steps: seq<Step>, n: nat)
    requires n <= |steps|
    ensures var s := After(ClaudeCode, steps, n);
      && (s.row.Some? ==> s.row.value.trust == NotRequired)
      && forall run :: run in s.pending && s.pending[run].Some? ==> s.pending[run].value.trust == NotRequired
  {
    if n > 0 {
      ClaudeNeverNeedsTrust(steps, n - 1);
    }
  }

  lemma {:induction false} EverEarnedLater(agent: Agent, steps: seq<Step>, n: nat, row: Option<Row>, row': Option<Row>)
    requires n < |steps| && EverEarned(agent, steps, n, row) && SamePair(row, row')
    ensures EverEarned(agent, steps, n + 1, row')
  {
    var k: nat :| k < n && ObservedAt(agent, steps, k, row);
    assert ObservedAt(agent, steps, k, row');
  }

  /** In every interleaving, a trusted row has once been observed with its very pair of fingerprints. */
  lemma {:induction false} TrustWasEarned(agent: Agent, steps: seq<Step>, n: nat)
    requires n <= |steps|
    ensures var s := After(agent, steps, n);
      && (Trusted(s.row) ==> EverEarned(agent, steps, n, s.row))
      && forall run :: run in s.pending && Trusted(s.pending[run]) ==> EverEarned(agent, steps, n, s.pending[run])
  {
    if n > 0 {
      TrustWasEarned(agent, steps, n - 1);
      var s, s', step := After(agent, steps, n - 1), After(agent, steps, n), steps[n - 1];
      if Trusted(s'.row) {
        if SamePair(s.row, s'.row) && Trusted(s.row) {
          EverEarnedLater(agent, steps, n - 1, s.row, s'.row);
        } else if step.Commit? {
          EverEarnedLater(agent, steps, n - 1, s.pending[step.run], s'.row);
        } else {
          assert ObservedAt(agent, steps, n - 1, s'.row);
        }
      }
      forall run | run in s'.pending && Trusted(s'.pending[run]) ensures EverEarned(agent, steps, n, s'.pending[run]) {
        if step.Resolve? && step.run == run {
          EverEarnedLater(agent, steps, n - 1, s.row, s'.pending[run]);
        } else {
          EverEarnedLater(agent, steps, n - 1, s.pending[run], s'.pending[run]);
        }
      }
    }
  }

  // ---- commits onto a trusted row -------------------------------------------------------------------------

  /** Step `k` commits a trusted record. */
  predicate CommitsTrusted(agent: Agent, steps: seq<Step>, k: nat) {
    && k < |steps| && steps[k].Commit?
    && steps[k].run in After(agent, steps, k).pending && Trusted(After(agent, steps, k).pending[steps[k].run])
  }

  /** The row that a commit replaces is itself trusted and has the pair of the record. */
  predicate OntoItself(row: Option<Row>, record: Option<Row>) {
    Trusted(row) && SamePair(row, record)
  }

  /** Every trusted record committed in the first `n` steps replaces a trusted row with its pair. */
  predicate Guarded(agent: Agent, steps: seq<Step>, n: nat)
    requires n <= |steps|
  {
    forall k :: 0 <= k < n && CommitsTrusted(agent, steps, k) ==>
      OntoItself(After(agent, steps, k).row, After(agent, steps, k).pending[steps[k].run])
  }

  lemma {:induction false} EarnedStays(agent: Agent, steps: seq<Step>, m: nat, n: nat)
    requires m < n <= |steps| && Earned(agent, steps, m)
    requires forall j :: m <= j <= n ==> SamePair(After(agent, steps, j).row, After(agent, steps, n).row)
    ensures Earned(agent, steps, n)
  {
    var row, row' := After(agent, steps, m).row, After(agent, steps, n).row;
    var k: nat :| k < m && ObservedAt(agent, steps, k, row) && forall j :: k <= j <= m ==> SamePair(After(agent, steps, j).row, row);
    assert SamePair(row, row');
    assert ObservedAt(agent, steps, k, row');
    forall j | k <= j <= n ensures SamePair(After(agent, steps, j).row, row') {
      if j <= m {
        assert SamePair(After(agent, steps, j).row, row);
      }
    }
  }

  /**
   While trusted records only replace trusted rows with the same pair, whatever happens between
   reading and replacing a row, a trusted row has been observed since its pair last changed and
   since it was last created.
   */
  lemma {:induction false} GuardedTrustIsEarned(agent: Agent, steps: seq<Step>, n: nat)
    requires n <= |steps| && Guarded(agent, steps, n)
    ensures Trusted(After(agent, steps, n).row) ==> Earned(agent, steps, n)
    decreases n
  {
    hide Next, Earned, ObservedAt, Guarded, Resolved;
    if n > 0 && Trusted(After(agent, steps, n).row) {
      var s, s', step := After(agent, steps, n - 1), After(agent, steps, n), steps[n - 1];
      FewerGuarded(agent, steps, n);
      GuardedTrustIsEarned(agent, steps, n - 1);
      TrustedStep(agent, s, step);
      if CommitsTrusted(agent, steps, n - 1) || (Trusted(s.row) && SamePair(s.row, s'.row)) {
        EarnedStays(agent, steps, n - 1, n);
      } else {
        EarnedNow(agent, steps, n);
      }
    }
  }

  lemma {:induction false} FewerGuarded(agent: Agent, steps: seq<Step>, n: nat)
    requires 0 < n <= |steps| && Guarded(agent, steps, n)
    ensures Guarded(agent, steps, n - 1)
    ensures CommitsTrusted(agent, steps, n - 1) ==>
      OntoItself(After(agent, steps, n - 1).row, After(agent, steps, n - 1).pending[steps[n - 1].run])
      && After(agent, steps, n).row == After(agent, steps, n - 1).pending[steps[n - 1].run]
  {
  }

  /** A row becomes or stays trusted in three ways. */
  lemma {:induction false} TrustedStep(agent: Agent, s: State, step: Step)
    ensures var s' := Next(agent, s, step);
      Trusted(s'.row) ==>
        || (Trusted(s.row) && SamePair(s.row, s'.row))
        || (step.Commit? && step.run in s.pending && s'.row == s.pending[step.run])
        || (step.Observe? && SamePair(s.row, s'.row) && step.command == s'.row.value.command)
  {
  }

  lemma {:induction false} EarnedNow(agent: Agent, steps: seq<Step>, n: nat)
    requires 0 < n <= |steps| && steps[n - 1].Observe?
    requires SamePair(After(agent, steps, n - 1).row, After(agent, steps, n).row) && steps[n - 1].command == After(agent, steps, n).row.value.command
    ensures Earned(agent, steps, n)
  {
    assert ObservedAt(agent, steps, n - 1, After(agent, steps, n).row);
  }

  /** Every run commits right after it has resolved. */
  predicate Undisturbed(steps: seq<Step>) {
    forall k :: 0 <= k < |steps| && steps[k].Commit? ==> k > 0 && steps[k - 1].Resolve? && steps[k - 1].run == steps[k].run
  }

  /** Runs that nothing disturbs between reading and replacing a row are guarded. */
  lemma {:induction false} UndisturbedTrustIsEarned(agent: Agent, steps: seq<Step>, n: nat)
    requires n <= |steps| && Undisturbed(steps)
    ensures Guarded(agent, steps, n)
    ensures Trusted(After(agent, steps, n).row) ==> Earned(agent, steps, n)
  {
    forall k | 0 <= k < n && CommitsTrusted(agent, steps, k)
      ensures OntoItself(After(agent, steps, k).row, After(agent, steps, k).pending[steps[k].run])
    {
      assert steps[k - 1].Resolve? && After(agent, steps, k) == Next(agent, After(agent, steps, k - 1), steps[k - 1]);
    }
    GuardedTrustIsEarned(agent, steps, n);
  }

  /** Rows and records of Codex always wait for confirmation or are observed. */
  lemma {:induction false} CodexNeedsTrust(steps: seq<Step>, n: nat)
    requires n <= |steps|
    ensures var s := After(Codex, steps, n);
      && (s.row.Some? ==> s.row.value.trust != NotRequired)
      && forall run :: run in s.pending && s.pending[run].Some? ==> s.pending[run].value.trust != NotRequired
  {
    if n > 0 {
      CodexNeedsTrust(steps, n - 1);
    }
  }

  lemma {:induction false} UndisturbedStep(steps: seq<Step>, n: nat)
    requires n < |steps| && Undisturbed(steps)
    requires Trusted(After(Codex, steps, n).row) && SamePair(After(Codex, steps, n).row, After(Codex, steps, n + 1).row)
    ensures Trusted(After(Codex, steps, n + 1).row)
  {
    if steps[n].Commit? {
      var before := After(Codex, steps, n - 1);
      assert steps[n - 1].Resolve? && steps[n - 1].run == steps[n].run;
      assert After(Codex, steps, n) == Next(Codex, before, steps[n - 1]);
      assert After(Codex, steps, n).row == before.row;
    }
  }

  lemma {:induction false} TrustStays(steps: seq<Step>, m: nat, n: nat)
    requires m <= n <= |steps| && Undisturbed(steps) && Trusted(After(Codex, steps, m).row)
    requires forall j :: m <= j <= n ==> SamePair(After(Codex, steps, j).row, After(Codex, steps, n).row)
    ensures Trusted(After(Codex, steps, n).row)
    decreases n
  {
    hide Next, Undisturbed;
    if m < n {
      TrustStays(steps, m, n - 1);
      UndisturbedStep(steps, n - 1);
    }
  }

  /**
   For runs that nothing disturbs, a Codex row is trusted exactly when it has been observed since its
   pair last changed and since it was last created: trust is neither kept too long nor lost.
   */
  lemma {:induction false} UndisturbedTrustIff(steps: seq<Step>, n: nat)
    requires n <= |steps| && Undisturbed(steps)
    ensures Trusted(After(Codex, steps, n).row) <==> Earned(Codex, steps, n)
  {
    hide Undisturbed, After, Next, ObservedAt, SamePair, Trusted, Guarded;
    UndisturbedTrustIsEarned(Codex, steps, n);
    if Earned(Codex, steps, n) {
      var row := After(Codex, steps, n).row;
      var k: nat :| k < n && ObservedAt(Codex, steps, k, row) && forall j :: k <= j <= n ==> SamePair(After(Codex, steps, j).row, row);
      ObservationTrusts(steps, k, row);
      TrustStays(steps, k + 1, n);
    }
  }

  lemma {:induction false} ObservationTrusts(steps: seq<Step>, k: nat, row: Option<Row>)
    requires k < |steps| && ObservedAt(Codex, steps, k, row)
    ensures Trusted(After(Codex, steps, k + 1).row)
  {
    CodexNeedsTrust(steps, k);
    assert After(Codex, steps, k + 1) == Next(Codex, After(Codex, steps, k), steps[k]);
  }

  // ---- other commits ----------------------------------------------------------------------------------------

  /**
   A commit of a trusted record leaves an earned row exactly when the row it replaces is still
   there with the same pair and is itself earned: a deletion in between is what breaks it.
   */
  lemma {:induction false} CommitIsEarnedIff(agent: Agent, steps: seq<Step>, n: nat)
    requires n < |steps| && steps[n].Commit? && steps[n].run in After(agent, steps, n).pending
    requires Trusted(After(agent, steps, n).pending[steps[n].run])
    ensures Earned(agent, steps, n + 1) <==>
      SamePair(After(agent, steps, n).row, After(agent, steps, n).pending[steps[n].run]) && Earned(agent, steps, n)
  {
    var s, s' := After(agent, steps, n), After(agent, steps, n + 1);
    if Earned(agent, steps, n + 1) {
      var k: nat :| k < n + 1 && ObservedAt(agent, steps, k, s'.row) && forall j :: k <= j <= n + 1 ==> SamePair(After(agent, steps, j).row, s'.row);
      assert SamePair(s.row, s'.row);
      assert ObservedAt(agent, steps, k, s.row);
    }
    if SamePair(s.row, s'.row) && Earned(agent, steps, n) {
      EarnedStays(agent, steps, n, n + 1);
    }
  }

  /** A trusted record committed onto no row, or onto a row with another pair, is trusted and never earned. */
  lemma {:induction false} CommitElsewhereIsUnearned(agent: Agent, steps: seq<Step>, n: nat)
    requires CommitsTrusted(agent, steps, n)
    requires !SamePair(After(agent, steps, n).row, After(agent, steps, n).pending[steps[n].run])
    ensures Trusted(After(agent, steps, n + 1).row) && !Earned(agent, steps, n + 1)
  {
    CommitIsEarnedIff(agent, steps, n);
  }

  /** A record as it is found, and the row that an observation makes of it. */
  const FOUND: Row := Row("command", "definition", "1.0.0", "hash", NeedsUserConfirmation, None)

  /** A run that has read the row before the observation commits after it, and then a later run does. */
  function Overtaken(): seq<Step> {
    [Resolve(0, Some(FOUND)), Commit(0), Resolve(1, Some(FOUND)), Observe("command", 1), Resolve(2, Some(FOUND)), Commit(1), Commit(2)]
  }

  /** The row is deleted and created again before a run that has read it commits. */
  function Recreated(): seq<Step> {
    [Resolve(0, Some(FOUND)), Commit(0), Observe("command", 1), Resolve(2, Some(FOUND)), Resolve(3, None), Commit(3), Resolve(4, Some(FOUND)),
     Commit(4), Commit(2)]
  }

  /**
   Onto a row with the same pair that is not trusted, the row and the record do not decide: the
   same commit onto the same row is earned in one history and not in another.
   */
  lemma {:induction false} RowDoesNotDecide()
    ensures CommitsTrusted(Codex, Overtaken(), 6) && CommitsTrusted(Codex, Recreated(), 8)
    ensures After(Codex, Overtaken(), 6).row == After(Codex, Recreated(), 8).row == Some(FOUND)
    ensures After(Codex, Overtaken(), 6).pending[2] == After(Codex, Recreated(), 8).pending[2]
    ensures Earned(Codex, Overtaken(), 7) && !Earned(Codex, Recreated(), 9)
  {
    OvertakenIsEarned();
    RecreatedIsUnearned();
  }

  lemma {:induction false} OvertakenIsEarned()
    ensures CommitsTrusted(Codex, Overtaken(), 6) && After(Codex, Overtaken(), 6).row == Some(FOUND)
    ensures After(Codex, Overtaken(), 6).pending[2] == Some(FOUND.(trust := ObservedWorking, lastSeen := None))
    ensures Earned(Codex, Overtaken(), 7)
  {
    var steps := Overtaken();
    var seen := Some(FOUND.(trust := ObservedWorking, lastSeen := Some(1)));
    assert After(Codex, steps, 1).pending[0] == Some(FOUND);
    assert After(Codex, steps, 2).row == Some(FOUND);
    assert After(Codex, steps, 3).row == Some(FOUND) && After(Codex, steps, 3).pending[1] == Some(FOUND);
    assert After(Codex, steps, 4).row == seen && After(Codex, steps, 4).pending[1] == Some(FOUND);
    assert After(Codex, steps, 5).row == seen && After(Codex, steps, 5).pending[1] == Some(FOUND);
    assert After(Codex, steps, 6).row == Some(FOUND);
    assert After(Codex, steps, 7).row == Some(FOUND.(trust := ObservedWorking));
    assert ObservedAt(Codex, steps, 3, After(Codex, steps, 7).row);
    forall j | 3 <= j <= 7 ensures SamePair(After(Codex, steps, j).row, After(Codex, steps, 7).row) {
      assert j == 3 || j == 4 || j == 5 || j == 6 || j == 7;
    }
  }

  lemma {:induction false} RecreatedIsUnearned()
    ensures CommitsTrusted(Codex, Recreated(), 8) && After(Codex, Recreated(), 8).row == Some(FOUND)
    ensures After(Codex, Recreated(), 8).pending[2] == Some(FOUND.(trust := ObservedWorking, lastSeen := None))
    ensures !Earned(Codex, Recreated(), 9)
  {
    var steps := Recreated();
    var seen := Some(FOUND.(trust := ObservedWorking, lastSeen := Some(1)));
    var trusted := Some(FOUND.(trust := ObservedWorking));
    assert After(Codex, steps, 1).pending[0] == Some(FOUND);
    assert After(Codex, steps, 2).row == Some(FOUND);
    assert After(Codex, steps, 3).row == seen;
    assert After(Codex, steps, 4).pending[2] == trusted;
    assert After(Codex, steps, 5).pending[2] == trusted && After(Codex, steps, 5).pending[3] == None;
    assert After(Codex, steps, 6).row == None && After(Codex, steps, 6).pending[2] == trusted;
    assert After(Codex, steps, 7).row == None && After(Codex, steps, 7).pending[4] == Some(FOUND) && After(Codex, steps, 7).pending[2] == trusted;
    assert After(Codex, steps, 8).row == Some(FOUND) && After(Codex, steps, 8).pending[2] == trusted;
    assert !SamePair(After(Codex, steps, 7).row, After(Codex, steps, 9).row);
    assert !steps[7].Observe? && !steps[8].Observe?;
  }

  function Example(): seq<Step> {
    var found := Some(Row("command", "definition", "1.0.0", "hash", NeedsUserConfirmation, None));
    [Resolve(0, found), Commit(0), Observe("command", 1), Resolve(1, found), Resolve(2, None), Commit(2), Commit(1)]
  }

  /**
   An uninstall between a repair's reading and its writing: the repair brings the row back as
   trusted, although nothing has been observed since the row was deleted.
   */
  lemma {:induction false} DisturbedRunResurrectsTrust()
    ensures Trusted(After(Codex, Example(), 7).row) && !Earned(Codex, Example(), 7)
    ensures After(Codex, Example(), 6).row.None?
  {
    var steps := Example();
    var row := Row("command", "definition", "1.0.0", "hash", NeedsUserConfirmation, None);
    assert After(Codex, steps, 1).pending[0] == Some(row);
    assert After(Codex, steps, 2).row == Some(row);
    var seen := row.(lastSeen := Some(1), trust := ObservedWorking);
    assert After(Codex, steps, 3).row == Some(seen);
    assert After(Codex, steps, 4).pending[1] == Some(row.(trust := ObservedWorking));
    assert After(Codex, steps, 5).row == Some(seen) && After(Codex, steps, 5).pending[2] == None;
    assert After(Codex, steps, 6).row == None && After(Codex, steps, 6).pending[1] == Some(row.(trust := ObservedWorking));
    assert !SamePair(After(Codex, steps, 6).row, After(Codex, steps, 7).row);
  }
}
