/**
 Installing, repairing and removing the owned hooks of one agent (`HookInstaller::apply`), their
 health, and the self-heal pass.

 What the patcher, the recogniser, the hash and the fingerprints compute is given as functions
 (`Env`); `Lawful` says what is used of the patcher: after a patch an inspection finds the desired
 entry for each desired event and nothing else, which `PatcherLaw` proves of it.
 */
module Installation {
  import opened Outcomes
  import opened Ownership

  datatype Trust = NotRequired | NeedsUserConfirmation | ObservedWorking

  datatype Row = Row(command: string, definition: string, helperVersion: string, configHash: string, trust: Trust, lastSeen: Option<nat>)

  /** An owned entry found in a configuration, with the fingerprint of its definition. */
  datatype Entry = Entry(event: string, definition: string)

  datatype Selection = Selection(events: set<string>, helperPath: string, helperVersion: string)

  datatype Action = Install | Repair | UpgradeHelper | Uninstall

  datatype Snapshot = Snapshot(sourceHash: string, hooksSubtree: string)

  datatype Error = EncryptionUnavailable | HelperNotInstalled | InvalidConfig | WriteFailed | StorageFailed

  datatype Env = Env(
    patch: (string, set<string>, string) -> Option<string>,
    entries: string -> Option<seq<Entry>>,
    subtree: string -> string,
    hash: string -> string,
    command: (string, string) -> string,
    definition: (string, string) -> string)

  /** The wired helper: whether it is installed, where, and in which version. */
  datatype Helper = Helper(present: bool, path: string, version: string)

  /** The configuration file, the recorded rows, and the rollback snapshots, newest last. */
  datatype State = State(config: Option<string>, rows: map<string, Row>, snapshots: seq<Snapshot>)

  const MAX_SNAPSHOTS: nat := 5

  // ---- what is known of the patcher ---------------------------------------------------------------

  predicate Distinct(entries: seq<Entry>) {
    forall i, j :: 0 <= i < j < |entries| ==> entries[i].event != entries[j].event
  }

  /** Just the desired events, as the program writes them. */
  ghost predicate Exactly(env: Env, entries: seq<Entry>, events: set<string>, path: string) {
    && (forall i :: 0 <= i < |entries| ==> entries[i].event in events && entries[i].definition == env.definition(path, entries[i].event))
    && (forall event :: event in events ==> HasEntry(entries, event))
  }

  predicate HasEntry(entries: seq<Entry>, event: string) {
    exists i :: 0 <= i < |entries| && entries[i].event == event
  }

  /** Whatever the configuration and the desired events are, a patch for the helper path installs just these events. */
  ghost predicate Lawful(env: Env, path: string) {
    forall config: string, events: set<string> ::
      env.patch(config, events, path).Some? ==> LawfulFor(env, env.patch(config, events, path).value, events, path)
  }

  ghost predicate LawfulFor(env: Env, patched: string, events: set<string>, path: string) {
    env.entries(patched).Some? && Exactly(env, env.entries(patched).value, events, path)
  }

  // ---- records and trust ------------------------------------------------------------------------------

  /** Trust survives only when both fingerprints are those of a row already observed working. */
  function ResolveTrust(agent: Agent, row: Option<Row>, command: string, definition: string): Trust {
    if agent == ClaudeCode then NotRequired
    else if row.Some? && row.value.command == command && row.value.definition == definition && row.value.trust == ObservedWorking then ObservedWorking
    else NeedsUserConfirmation
  }

  function RowFor(rows: map<string, Row>, event: string): Option<Row> {
    if event in rows then Some(rows[event]) else None
  }

  function Record(env: Env, agent: Agent, rows: map<string, Row>, entry: Entry, configHash: string, selection: Selection): Row {
    var command := env.command(selection.helperPath, entry.event);
    var trust := ResolveTrust(agent, RowFor(rows, entry.event), command, entry.definition);
    Row(command, entry.definition, selection.helperVersion, configHash, trust,
      if trust == ObservedWorking && entry.event in rows then rows[entry.event].lastSeen else None)
  }

  /** The rows recorded for the entries found. */
  function Records(env: Env, agent: Agent, rows: map<string, Row>, entries: seq<Entry>, configHash: string, selection: Selection): map<string, Row> {
    if entries == [] then map[]
    else
      var last := entries[|entries| - 1];
      Records(env, agent, rows, entries[..|entries| - 1], configHash, selection)[last.event := Record(env, agent, rows, last, configHash, selection)]
  }

  method BuildRecords(env: Env, agent: Agent, rows: map<string, Row>, entries: seq<Entry>, configHash: string, selection: Selection)
      returns (records: map<string, Row>)
    ensures records == Records(env, agent, rows, entries, configHash, selection)
  {
    records := map[];
    for k := 0 to |entries|
      invariant records == Records(env, agent, rows, entries[..k], configHash, selection)
    {
      assert entries[..k + 1][..k] == entries[..k];
      records := records[entries[k].event := Record(env, agent, rows, entries[k], configHash, selection)];
    }
    assert entries[..|entries|] == entries;
  }

  lemma {:induction false} RecordsMean(env: Env, agent: Agent, rows: map<string, Row>, entries: seq<Entry>, configHash: string, selection: Selection, event: string)
    ensures var records := Records(env, agent, rows, entries, configHash, selection);
      && (event in records <==> HasEntry(entries, event))
      && (event in records ==>
            exists i :: 0 <= i < |entries| && entries[i].event == event && records[event] == Record(env, agent, rows, entries[i], configHash, selection))
  {
    if entries != [] {
      var k := |entries| - 1;
      var fewer := entries[..k];
      RecordsMean(env, agent, rows, fewer, configHash, selection, event);
      EntryStep(entries, k);
      assert entries[..k + 1] == entries;
      if entries[k].event != event && HasEntry(fewer, event) {
        var records := Records(env, agent, rows, fewer, configHash, selection);
        var i :| 0 <= i < |fewer| && fewer[i].event == event && records[event] == Record(env, agent, rows, fewer[i], configHash, selection);
        assert entries[i] == fewer[i];
      }
    }
  }

  lemma {:induction false} EntryStep(entries: seq<Entry>, k: nat)
    requires k < |entries|
    ensures forall event :: HasEntry(entries[..k + 1], event) <==> HasEntry(entries[..k], event) || entries[k].event == event
  {
    var fewer, more := entries[..k], entries[..k + 1];
    forall event ensures HasEntry(more, event) <==> HasEntry(fewer, event) || entries[k].event == event {
      if HasEntry(fewer, event) {
        var i :| 0 <= i < |fewer| && fewer[i].event == event;
        assert more[i] == fewer[i];
      }
      if HasEntry(more, event) {
        var i :| 0 <= i < |more| && more[i].event == event;
        assert i < k ==> fewer[i] == more[i];
      }
      assert more[k] == entries[k];
    }
  }

  // ---- health -----------------------------------------------------------------------------------------

  datatype Health = Healthy | NeedsTrust | Missing | Drifted | HelperMismatch | AgentUpgradeRequired

  /** The last entry found for an event. */
  function EntryOf(entries: seq<Entry>, event: string): (r: Option<Entry>)
    ensures r.Some? <==> HasEntry(entries, event)
    ensures r.Some? ==> r.value in entries && r.value.event == event
  {
    if entries == [] then None
    else
      var last := entries[|entries| - 1];
      assert last.event != event ==> HasEntry(entries, event) == HasEntry(entries[..|entries| - 1], event) by {
        EntryStep(entries, |entries| - 1);
        assert entries[..|entries| - 1 + 1] == entries;
      }
      if last.event == event then Some(last) else EntryOf(entries[..|entries| - 1], event)
  }

  function EntryHealth(row: Option<Row>, command: string, definition: string, agent: Agent): Health {
    if row.None? then Drifted
    else if row.value.command != command then HelperMismatch
    else if row.value.definition != definition then Drifted
    else if agent == Codex && row.value.trust == NeedsUserConfirmation then NeedsTrust
    else Healthy
  }

  function HealthOf(env: Env, agent: Agent, upgrade: bool, rows: map<string, Row>, entries: seq<Entry>, selection: Selection, event: string): Health {
    var entry := EntryOf(entries, event);
    if entry.None? then if upgrade then AgentUpgradeRequired else Missing
    else EntryHealth(RowFor(rows, event), env.command(selection.helperPath, event), entry.value.definition, agent)
  }

  predicate Damaged(health: Health) {
    health == Missing || health == Drifted || health == HelperMismatch
  }

  predicate ShouldRepair(env: Env, agent: Agent, upgrade: bool, rows: map<string, Row>, entries: seq<Entry>, selection: Selection) {
    exists event :: event in selection.events && Damaged(HealthOf(env, agent, upgrade, rows, entries, selection, event))
  }

  // ---- the mutation ---------------------------------------------------------------------------------------

  datatype Result = Result(state: State, error: Option<Error>, overwrote: bool)

  /** The five newest snapshots are kept. */
  function Keep(snapshots: seq<Snapshot>): seq<Snapshot> {
    if |snapshots| > MAX_SNAPSHOTS then snapshots[|snapshots| - MAX_SNAPSHOTS..] else snapshots
  }

  /** The five newest of `all`, or all of them when there are fewer. */
  predicate NewestOf(some: seq<Snapshot>, all: seq<Snapshot>) {
    |some| <= |all| && all[|all| - |some|..] == some && if |all| <= 5 then some == all else |some| == 5
  }

  function Desired(action: Action, selection: Selection): set<string> {
    if action == Uninstall then {} else selection.events
  }

  predicate HelperReady(action: Action, helper: Helper, selection: Selection) {
    action == Uninstall || (helper.present && helper.path == selection.helperPath && helper.version == selection.helperVersion)
  }

  /** Recording the entries of the configuration; two entries for one event are refused by the store. */
  function Recorded(env: Env, agent: Agent, s: State, configHash: string, selection: Selection, overwrote: bool): Result {
    var entries := if s.config.Some? then env.entries(s.config.value) else None;
    if entries.None? then Result(s, Some(InvalidConfig), overwrote)
    else if !Distinct(entries.value) then Result(s, Some(StorageFailed), overwrote)
    else Result(s.(rows := Records(env, agent, s.rows, entries.value, configHash, selection)), None, overwrote)
  }

  /** One mutation, undisturbed: what it leaves and whether it failed. */
  function Applied(env: Env, agent: Agent, s: State, encryption: bool, helper: Helper, action: Action, selection: Selection, replaceWorks: bool): Result {
    if !encryption then Result(s, Some(EncryptionUnavailable), false)
    else if !HelperReady(action, helper, selection) then Result(s, Some(HelperNotInstalled), false)
    else
      var config := if s.config.Some? then s.config.value else "{}";
      var seeded := s.(config := Some(config));
      var patched := env.patch(config, Desired(action, selection), selection.helperPath);
      if patched.None? then Result(seeded, Some(InvalidConfig), false)
      else if patched.value == config then Recorded(env, agent, seeded, env.hash(patched.value), selection, false)
      else
        var snapshots := Keep(s.snapshots + [Snapshot(env.hash(config), env.subtree(config))]);
        var saved := seeded.(snapshots := snapshots);
        if !replaceWorks then Result(saved, Some(WriteFailed), false)
        else Recorded(env, agent, saved.(config := Some(patched.value)), env.hash(patched.value), selection, true)
  }

  /** An ingress request with the recorded command confirms a row that waits for confirmation. */
  function Observed(rows: map<string, Row>, event: string, command: string, now: nat): map<string, Row> {
    if event in rows && rows[event].command == command then
      var row := rows[event];
      rows[event := row.(lastSeen := Some(now), trust := if row.trust == NeedsUserConfirmation then ObservedWorking else row.trust)]
    else rows
  }

  // ---- the self-heal pass ------------------------------------------------------------------------------------

  /** The selection of a pass: the recorded events, with the wired helper. */
  function Recovery(rows: map<string, Row>, helper: Helper): Selection {
    Selection(rows.Keys, helper.path, helper.version)
  }

  /** Whether a pass calls the repair: there are records, and an entry is damaged. */
  predicate Repairs(env: Env, agent: Agent, s: State, encryption: bool, helper: Helper, upgrade: bool) {
    var entries := env.entries(if s.config.Some? then s.config.value else "");
    encryption && s.rows != map[] && entries.Some? && ShouldRepair(env, agent, upgrade, s.rows, entries.value, Recovery(s.rows, helper))
  }

  /** One pass: nothing without records, and a repair only when an entry is damaged. */
  function Healed(env: Env, agent: Agent, s: State, encryption: bool, helper: Helper, upgrade: bool, replaceWorks: bool): Result {
    var selection := Recovery(s.rows, helper);
    var entries := env.entries(if s.config.Some? then s.config.value else "");
    if !encryption || s.rows == map[] then Result(s, None, false)
    else if entries.None? then Result(s, Some(InvalidConfig), false)
    else if !ShouldRepair(env, agent, upgrade, s.rows, entries.value, selection) then Result(s, None, false)
    else Applied(env, agent, s, encryption, helper, Repair, selection, replaceWorks)
  }

  // ---- the installer -------------------------------------------------------------------------------------------

  class HookInstaller {
    const env: Env
    const agent: Agent
    const helper: Helper
    var config: Option<string>
    var rows: map<string, Row>
    var snapshots: seq<Snapshot>

    constructor (env: Env, agent: Agent, helper: Helper, config: Option<string>, rows: map<string, Row>, snapshots: seq<Snapshot>)
      ensures this.env == env && this.agent == agent && this.helper == helper
      ensures Value() == State(config, rows, snapshots)
    {
      this.env, this.agent, this.helper := env, agent, helper;
      this.config, this.rows, this.snapshots := config, rows, snapshots;
    }

    ghost function Value(): State
      reads this
    {
      State(config, rows, snapshots)
    }

    /** Re-reads the configuration and records the entries it holds. */
    method RecordEntries(configHash: string, selection: Selection) returns (error: Option<Error>)
      modifies this`rows
      ensures var r := Recorded(env, agent, old(Value()), configHash, selection, false);
        Value() == r.state && error == r.error
    {
      if config.None? {
        return Some(InvalidConfig);
      }
      var installed := env.entries(config.value);
      if installed.None? {
        return Some(InvalidConfig);
      }
      if !Distinct(installed.value) {
        return Some(StorageFailed);
      }
      rows := BuildRecords(env, agent, rows, installed.value, configHash, selection);
      return None;
    }

    /** A checked mutation: snapshot first, replace, then record what is found. */
    method Apply(encryption: bool, action: Action, selection: Selection, replaceWorks: bool) returns (error: Option<Error>, overwrote: bool)
      modifies this
      ensures var r := Applied(env, agent, old(Value()), encryption, helper, action, selection, replaceWorks);
        Value() == r.state && error == r.error && overwrote == r.overwrote
    {
      if !encryption {
        return Some(EncryptionUnavailable), false;
      }
      var desired: set<string> := {};
      if action != Uninstall {
        desired := selection.events;
        if !helper.present || helper.path != selection.helperPath || helper.version != selection.helperVersion {
          return Some(HelperNotInstalled), false;
        }
      }
      if config.None? {
        config := Some("{}");
      }
      var current := config.value;
      var patched := env.patch(current, desired, selection.helperPath);
      if patched.None? {
        return Some(InvalidConfig), false;
      }
      var configHash := env.hash(patched.value);
      if patched.value == current {
        error := RecordEntries(configHash, selection);
        return error, false;
      }
      snapshots := Keep(snapshots + [Snapshot(env.hash(current), env.subtree(current))]);
      if !replaceWorks {
        return Some(WriteFailed), false;
      }
      config := Some(patched.value);
      error := RecordEntries(configHash, selection);
      return error, true;
    }

    method ObserveIngress(event: string, command: string, now: nat) returns (trust: Option<Trust>)
      modifies this`rows
      ensures rows == Observed(old(rows), event, command, now) && rows.Keys == old(rows).Keys
      ensures forall e :: e in rows && (e != event || old(rows)[e].command != command) ==> rows[e] == old(rows)[e]
      ensures event in rows && old(rows)[event].command == command ==>
        && rows[event] == old(rows)[event].(lastSeen := Some(now), trust := rows[event].trust)
        && (old(rows)[event].trust == NeedsUserConfirmation ==> rows[event].trust == ObservedWorking)
        && (old(rows)[event].trust != NeedsUserConfirmation ==> rows[event].trust == old(rows)[event].trust)
      ensures trust == if event in rows then Some(rows[event].trust) else None
    {
      if event in rows && rows[event].command == command {
        var row := rows[event];
        var trusted := if row.trust == NeedsUserConfirmation then ObservedWorking else row.trust;
        rows := rows[event := row.(lastSeen := Some(now), trust := trusted)];
      }
      return if event in rows then Some(rows[event].trust) else None;
    }

    /** One self-heal pass over this agent. */
    method HealOnce(encryption: bool, upgrade: bool, replaceWorks: bool) returns (error: Option<Error>, repaired: bool)
      modifies this
      ensures var r := Healed(env, agent, old(Value()), encryption, helper, upgrade, replaceWorks);
        Value() == r.state && error == r.error
      ensures repaired <==> Repairs(env, agent, old(Value()), encryption, helper, upgrade) && error.None?
    {
      if !encryption || rows == map[] {
        return None, false;
      }
      var selection := Recovery(rows, helper);
      var entries := env.entries(if config.Some? then config.value else "");
      if entries.None? {
        return Some(InvalidConfig), false;
      }
      if !ShouldRepair(env, agent, upgrade, rows, entries.value, selection) {
        return None, false;
      }
      var overwrote;
      error, overwrote := Apply(encryption, Repair, selection, replaceWorks);
      return error, error.None?;
    }
  }

  // ---- what every mutation keeps --------------------------------------------------------------------------------

  /** An overwrite is preceded by a snapshot of what it overwrites, the newest of at most five. */
  lemma {:induction false} OverwriteHasSnapshot(env: Env, agent: Agent, s: State, encryption: bool, helper: Helper, action: Action, selection: Selection, works: bool)
    ensures var r := Applied(env, agent, s, encryption, helper, action, selection, works);
      var config := if s.config.Some? then s.config.value else "{}";
      && (r.overwrote || r.error == Some(WriteFailed) ==>
            NewestOf(r.state.snapshots, s.snapshots + [Snapshot(env.hash(config), env.subtree(config))]))
      && (!r.overwrote && r.error != Some(WriteFailed) ==> r.state.snapshots == s.snapshots)
      && (!r.overwrote ==> r.state.config == s.config || (s.config.None? && r.state.config == Some("{}")))
      && (!encryption ==> r.state == s && r.error == Some(EncryptionUnavailable))
  {
    hide Keep, NewestOf, Records, Distinct, HelperReady, Desired;
    var config := if s.config.Some? then s.config.value else "{}";
    KeepIsNewest(s.snapshots + [Snapshot(env.hash(config), env.subtree(config))]);
  }

  lemma {:induction false} KeepIsNewest(all: seq<Snapshot>)
    ensures NewestOf(Keep(all), all)
  {
  }

  /** The configuration holds just the desired events, and they are what is recorded. */
  ghost predicate JustRecorded(env: Env, s: State, desired: set<string>, path: string) {
    && s.rows.Keys == desired
    && s.config.Some? && env.entries(s.config.value).Some?
    && Exactly(env, env.entries(s.config.value).value, desired, path)
    && forall event :: event in desired ==>
         s.rows[event].command == env.command(path, event) && s.rows[event].definition == env.definition(path, event)
  }

  /**
   A mutation that succeeds leaves exactly the selected events installed and recorded when it
   installs, repairs or upgrades, and none when it uninstalls.
   */
  lemma {:induction false} AppliedRecordsDesired(env: Env, agent: Agent, s: State, encryption: bool, helper: Helper, action: Action, selection: Selection, works: bool)
    requires Lawful(env, selection.helperPath)
    ensures var r := Applied(env, agent, s, encryption, helper, action, selection, works);
      && (r.error.None? && action in {Install, Repair, UpgradeHelper} ==> JustRecorded(env, r.state, selection.events, selection.helperPath))
      && (r.error.None? && action == Uninstall ==> JustRecorded(env, r.state, {}, selection.helperPath) && r.state.rows == map[])
      && (r.error.Some? ==> r.state.rows == s.rows)
  {
    hide Recorded, JustRecorded, Exactly, Keep, HelperReady;
    var config := if s.config.Some? then s.config.value else "{}";
    var desired := Desired(action, selection);
    var patched := env.patch(config, desired, selection.helperPath);
    if patched.Some? {
      assert LawfulFor(env, patched.value, desired, selection.helperPath);
      forall before: State, overwrote | before.config == Some(patched.value) && before.rows == s.rows
        ensures var r := Recorded(env, agent, before, env.hash(patched.value), selection, overwrote);
          if r.error.None? then JustRecorded(env, r.state, desired, selection.helperPath) else r.state.rows == s.rows
      {
        RecordedIsJust(env, agent, before, env.hash(patched.value), selection, overwrote, desired);
      }
    }
    if desired == {} {
      NothingRecorded(env, Applied(env, agent, s, encryption, helper, action, selection, works).state, selection.helperPath);
    }
  }

  lemma {:induction false} NothingRecorded(env: Env, s: State, path: string)
    ensures JustRecorded(env, s, {}, path) ==> s.rows == map[]
  {
  }

  /** The gates of a mutation: encryption, and the selected helper unless it uninstalls. */
  lemma {:induction false} GatesRefuse(env: Env, agent: Agent, s: State, encryption: bool, helper: Helper, action: Action, selection: Selection, works: bool)
    ensures var r := Applied(env, agent, s, encryption, helper, action, selection, works);
      && (r.error == Some(EncryptionUnavailable) <==> !encryption)
      && (r.error == Some(HelperNotInstalled) <==>
            encryption && action in {Install, Repair, UpgradeHelper}
            && (!helper.present || helper.path != selection.helperPath || helper.version != selection.helperVersion))
      && (r.error == Some(EncryptionUnavailable) || r.error == Some(HelperNotInstalled) ==> r.state == s && !r.overwrote)
  {
    hide Records, Distinct, Keep, Desired;
  }

  /**
   Past the gates, a mutation patches for the selected events, or for none when it uninstalls.  It
   overwrites the file exactly when there is a patch that differs and the replacement works, and it
   succeeds exactly when the patch is then in the file, can be read, and names no event twice.
   */
  lemma {:induction false} AppliedSucceedsIff(env: Env, agent: Agent, s: State, encryption: bool, helper: Helper, action: Action, selection: Selection, works: bool)
    ensures var r := Applied(env, agent, s, encryption, helper, action, selection, works);
      var config := if s.config.Some? then s.config.value else "{}";
      var events := if action in {Install, Repair, UpgradeHelper} then selection.events else {};
      var patched := env.patch(config, events, selection.helperPath);
      r.error != Some(EncryptionUnavailable) && r.error != Some(HelperNotInstalled) ==>
        && (r.overwrote <==> patched.Some? && patched.value != config && works)
        && r.state.config == Some(if r.overwrote then patched.value else config)
        && (r.error == Some(WriteFailed) <==> patched.Some? && patched.value != config && !works)
        && (r.error == Some(InvalidConfig) <==> patched.None? || (r.state.config == patched && env.entries(patched.value).None?))
        && (r.error.None? <==>
              patched.Some? && r.state.config == patched && env.entries(patched.value).Some? && Distinct(env.entries(patched.value).value))
  {
    hide Records, Distinct, Keep, Exactly;
  }

  /**
   What a mutation that succeeds records of an event: the wired version, the hash of the file, and
   the trust and the time of the row before, if that row was observed working with the same command
   and definition.
   */
  lemma {:induction false} RecordedRowIs(env: Env, agent: Agent, s: State, encryption: bool, helper: Helper, action: Action, selection: Selection, works: bool, event: string)
    requires Lawful(env, selection.helperPath)
    requires var r := Applied(env, agent, s, encryption, helper, action, selection, works); r.error.None? && event in r.state.rows
    ensures var r := Applied(env, agent, s, encryption, helper, action, selection, works);
      var row := r.state.rows[event];
      var survives := agent == Codex && event in s.rows && s.rows[event].trust == ObservedWorking
        && s.rows[event].command == row.command && s.rows[event].definition == row.definition;
      && event in selection.events && r.state.config.Some?
      && row.command == env.command(selection.helperPath, event) && row.definition == env.definition(selection.helperPath, event)
      && row.helperVersion == selection.helperVersion && row.configHash == env.hash(r.state.config.value)
      && row.trust == (if agent == ClaudeCode then NotRequired else if survives then ObservedWorking else NeedsUserConfirmation)
      && row.lastSeen == if survives then s.rows[event].lastSeen else None
  {
    hide Records, Keep, Exactly, JustRecorded, Distinct;
    AppliedRecordsDesired(env, agent, s, encryption, helper, action, selection, works);
    var r := Applied(env, agent, s, encryption, helper, action, selection, works);
    JustRecordedMeans(env, r.state, Desired(action, selection), selection.helperPath, event);
    var entries := env.entries(r.state.config.value).value;
    RecordsMean(env, agent, s.rows, entries, env.hash(r.state.config.value), selection, event);
  }

  lemma {:induction false} JustRecordedMeans(env: Env, s: State, desired: set<string>, path: string, event: string)
    requires JustRecorded(env, s, desired, path) && event in s.rows
    ensures event in desired && s.config.Some? && env.entries(s.config.value).Some?
    ensures s.rows[event].command == env.command(path, event) && s.rows[event].definition == env.definition(path, event)
  {
  }

  lemma {:induction false} RecordedIsJust(env: Env, agent: Agent, s: State, configHash: string, selection: Selection, overwrote: bool, desired: set<string>)
    requires s.config.Some? && LawfulFor(env, s.config.value, desired, selection.helperPath)
    ensures var r := Recorded(env, agent, s, configHash, selection, overwrote);
      if r.error.None? then JustRecorded(env, r.state, desired, selection.helperPath) else r.state.rows == s.rows
  {
    hide Records, Exactly, Distinct;
    RecordsAreExact(env, agent, s.rows, env.entries(s.config.value).value, configHash, selection, desired);
  }

  lemma {:induction false} RecordsAreExact(env: Env, agent: Agent, rows: map<string, Row>, entries: seq<Entry>, configHash: string, selection: Selection, desired: set<string>)
    requires Exactly(env, entries, desired, selection.helperPath)
    ensures var records := Records(env, agent, rows, entries, configHash, selection);
      && records.Keys == desired
      && forall event :: event in desired ==>
           && records[event].command == env.command(selection.helperPath, event)
           && records[event].definition == env.definition(selection.helperPath, event)
  {
    var records := Records(env, agent, rows, entries, configHash, selection);
    forall event
      ensures event in records <==> event in desired
      ensures event in desired ==>
        records[event].command == env.command(selection.helperPath, event) && records[event].definition == env.definition(selection.helperPath, event)
    {
      RecordsMean(env, agent, rows, entries, configHash, selection, event);
      if event in records {
        var i :| 0 <= i < |entries| && entries[i].event == event && records[event] == Record(env, agent, rows, entries[i], configHash, selection);
      }
      if event in desired {
        assert HasEntry(entries, event);
      }
    }
  }

  // ---- self-heal -------------------------------------------------------------------------------------------------

  /** A pass never changes which events are recorded, whatever is on disk and whether it fails or not. */
  lemma {:induction false} HealKeepsEvents(env: Env, agent: Agent, s: State, encryption: bool, helper: Helper, upgrade: bool, works: bool)
    requires Lawful(env, helper.path)
    ensures Healed(env, agent, s, encryption, helper, upgrade, works).state.rows.Keys == s.rows.Keys
  {
    hide Applied;
    AppliedRecordsDesired(env, agent, s, encryption, helper, Repair, Recovery(s.rows, helper), works);
  }

  /** The entry that counts for an event is the last one found for it. */
  predicate LastFor(entries: seq<Entry>, event: string, i: int) {
    0 <= i < |entries| && entries[i].event == event && forall j :: i < j < |entries| ==> entries[j].event != event
  }

  lemma {:induction false} EntryOfIsLast(entries: seq<Entry>, event: string, i: int)
    requires LastFor(entries, event, i)
    ensures EntryOf(entries, event) == Some(entries[i])
  {
    if i + 1 < |entries| {
      EntryOfIsLast(entries[..|entries| - 1], event, i);
    }
  }

  lemma {:induction false} SomeLast(entries: seq<Entry>, event: string) returns (i: nat)
    requires HasEntry(entries, event)
    ensures LastFor(entries, event, i)
  {
    var n := |entries| - 1;
    if entries[n].event == event {
      i := n;
    } else {
      EntryStep(entries, n);
      assert entries[..n + 1] == entries;
      i := SomeLast(entries[..n], event);
    }
  }

  /**
   What is wrong with a recorded event: it has no entry, unless the agent has to be upgraded first;
   or its entry does not run the wired helper, or is not the one that was recorded.
   */
  ghost predicate Broken(env: Env, helper: Helper, upgrade: bool, rows: map<string, Row>, entries: seq<Entry>, event: string)
    requires event in rows
  {
    if forall i :: 0 <= i < |entries| ==> entries[i].event != event then !upgrade
    else
      || rows[event].command != env.command(helper.path, event)
      || exists i :: LastFor(entries, event, i) && entries[i].definition != rows[event].definition
  }

  lemma {:induction false} DamagedIffBroken(env: Env, agent: Agent, upgrade: bool, rows: map<string, Row>, entries: seq<Entry>, helper: Helper, event: string)
    requires event in rows
    ensures Damaged(HealthOf(env, agent, upgrade, rows, entries, Recovery(rows, helper), event)) <==> Broken(env, helper, upgrade, rows, entries, event)
  {
    if HasEntry(entries, event) {
      var i := SomeLast(entries, event);
      EntryOfIsLast(entries, event, i);
    }
  }

  /**
   A pass over an agent with records repairs, with the wired helper, exactly when one of the
   recorded events is broken; a Codex row that only waits for confirmation is not.  A repair that
   succeeds leaves just the recorded events, and otherwise nothing happens.
   */
  lemma {:induction false} PassRepairsIff(env: Env, agent: Agent, s: State, helper: Helper, upgrade: bool, works: bool, entries: seq<Entry>)
    requires Lawful(env, helper.path) && s.rows != map[]
    requires env.entries(if s.config.Some? then s.config.value else "") == Some(entries)
    ensures var r := Healed(env, agent, s, true, helper, upgrade, works);
      var broken := exists event :: event in s.rows && Broken(env, helper, upgrade, s.rows, entries, event);
      && (Repairs(env, agent, s, true, helper, upgrade) <==> broken)
      && (broken ==> r == Applied(env, agent, s, true, helper, Repair, Selection(s.rows.Keys, helper.path, helper.version), works))
      && (broken && r.error.None? ==> JustRecorded(env, r.state, s.rows.Keys, helper.path))
      && (!broken ==> r == Result(s, None, false))
  {
    hide Damaged, HealthOf, Broken, Applied, JustRecorded;
    var selection := Recovery(s.rows, helper);
    forall event | event in s.rows
      ensures Damaged(HealthOf(env, agent, upgrade, s.rows, entries, selection, event)) <==> Broken(env, helper, upgrade, s.rows, entries, event)
    {
      DamagedIffBroken(env, agent, upgrade, s.rows, entries, helper, event);
    }
    assert ShouldRepair(env, agent, upgrade, s.rows, entries, selection) <==>
      exists event :: event in s.rows && Broken(env, helper, upgrade, s.rows, entries, event);
    AppliedRecordsDesired(env, agent, s, true, helper, Repair, selection, works);
  }

  /** Without encryption or records, and when the file cannot be read, a pass changes nothing. */
  lemma {:induction false} PassKeepsAway(env: Env, agent: Agent, s: State, encryption: bool, helper: Helper, upgrade: bool, works: bool)
    requires !encryption || s.rows == map[] || env.entries(if s.config.Some? then s.config.value else "").None?
    ensures Healed(env, agent, s, encryption, helper, upgrade, works)
         == Result(s, if encryption && s.rows != map[] then Some(InvalidConfig) else None, false)
  {
  }

  /** After a pass that repaired, no recorded event is damaged. */
  lemma {:induction false} RepairedIsSound(env: Env, agent: Agent, s: State, helper: Helper, upgrade: bool, entries: seq<Entry>)
    requires env.entries(if s.config.Some? then s.config.value else "") == Some(entries)
    requires Exactly(env, entries, s.rows.Keys, helper.path)
    requires forall event :: event in s.rows ==>
      && s.rows[event].command == env.command(helper.path, event)
      && s.rows[event].definition == env.definition(helper.path, event)
    ensures !ShouldRepair(env, agent, upgrade, s.rows, entries, Recovery(s.rows, helper))
  {
    var selection := Recovery(s.rows, helper);
    forall event | event in selection.events ensures !Damaged(HealthOf(env, agent, upgrade, s.rows, entries, selection, event)) {
      assert HasEntry(entries, event);
      var entry := EntryOf(entries, event).value;
      var i :| 0 <= i < |entries| && entries[i] == entry;
    }
  }

  /** After a pass that succeeds, the next pass changes nothing, so the configuration is not rewritten. */
  lemma {:induction false} HealConverges(env: Env, agent: Agent, s: State, encryption: bool, helper: Helper, upgrade: bool, works: bool, works': bool)
    requires Lawful(env, helper.path)
    requires Healed(env, agent, s, encryption, helper, upgrade, works).error.None?
    ensures var s' := Healed(env, agent, s, encryption, helper, upgrade, works).state;
      Healed(env, agent, s', encryption, helper, upgrade, works') == Result(s', None, false)
  {
    hide Applied;
    var selection := Recovery(s.rows, helper);
    AppliedRecordsDesired(env, agent, s, encryption, helper, Repair, selection, works);
    var r := Healed(env, agent, s, encryption, helper, upgrade, works);
    var entries := env.entries(if s.config.Some? then s.config.value else "");
    if encryption && s.rows != map[] && entries.Some? && ShouldRepair(env, agent, upgrade, s.rows, entries.value, selection) {
      assert r == Applied(env, agent, s, encryption, helper, Repair, selection, works);
      RepairedIsSound(env, agent, r.state, helper, upgrade, env.entries(r.state.config.value).value);
    }
  }

  /** Any number of passes, each in its own circumstances. */
  function Passes(env: Env, agent: Agent, s: State, helper: Helper, passes: seq<(bool, bool, bool)>): State
    decreases |passes|
  {
    if passes == [] then s
    else
      var (encryption, upgrade, works) := passes[0];
      Passes(env, agent, Healed(env, agent, s, encryption, helper, upgrade, works).state, helper, passes[1..])
  }

  /** Once the hooks are uninstalled, no number of passes brings them back or writes anything. */
  lemma {:induction false} NeverResurrects(env: Env, agent: Agent, s: State, helper: Helper, helper': Helper, selection: Selection, works: bool, passes: seq<(bool, bool, bool)>)
    requires Lawful(env, selection.helperPath)
    requires Applied(env, agent, s, true, helper, Uninstall, selection, works).error.None?
    ensures var s' := Applied(env, agent, s, true, helper, Uninstall, selection, works).state;
      s'.rows == map[] && Passes(env, agent, s', helper', passes) == s'
  {
    AppliedRecordsDesired(env, agent, s, true, helper, Uninstall, selection, works);
    NothingToHeal(env, agent, Applied(env, agent, s, true, helper, Uninstall, selection, works).state, helper', passes);
  }

  lemma {:induction false} NothingToHeal(env: Env, agent: Agent, s: State, helper: Helper, passes: seq<(bool, bool, bool)>)
    requires s.rows == map[]
    ensures Passes(env, agent, s, helper, passes) == s
  {
    if passes != [] {
      NothingToHeal(env, agent, s, helper, passes[1..]);
    }
  }
}
