/**
 The patch and the inspection of a configuration, put together as the installer uses them
 (`HookInstaller::patch`, `inspect_owned_entries`), meet the law on which the installer's own
 properties rest: whatever the configuration holds, after a patch an inspection finds the desired
 entries and nothing else.

 The JSON reader, the texts of the handlers and the fingerprint are parameters (`Setup`);
 `Sound` says what is assumed of them, and `PatcherExample` has a setup that meets it.
 */
module PatcherLaw {
  import opened Outcomes
  import opened EventPlan
  import opened HandlerPatch
  import opened EventMeaning
  import opened DesiredMap
  import opened DocumentPatch
  import opened DocumentMeaning
  import opened Inspection
  import opened HandlerJson
  import Installation
  import Ownership
  import Windows = WindowsQuoting

  datatype Setup = Setup(
    catalogue: set<(Ownership.Agent, string)>,
    agent: Ownership.Agent,
    windows: bool,
    parse: string -> Option<Document>,
    commandOf: string -> Option<string>,
    order: set<string> -> seq<string>,
    entry: (string, string) -> Entry,
    fingerprint: (string, Option<string>, string) -> string,
    subtree: string -> string,
    hash: string -> string,
    command: (string, string) -> string)

  function OwnerOf(s: Setup): Owner {
    OwnerBy(s.catalogue, s.agent, s.commandOf)
  }

  function Catalogued(s: Setup): set<string> {
    set pair | pair in s.catalogue && pair.0 == s.agent :: pair.1
  }

  function DesiredEntries(s: Setup, events: set<string>, path: string): (r: seq<Desired>)
    ensures |r| == |s.order(events)|
  {
    seq(|s.order(events)|, i requires 0 <= i < |s.order(events)| => Desired(s.order(events)[i], s.entry(path, s.order(events)[i])))
  }

  function Patch(s: Setup, config: string, events: set<string>, path: string): Option<string> {
    if s.parse(config).None? || !WfDocument(s.parse(config).value) then None
    else
      var r := PatchOutcome(Catalogued(s), OwnerOf(s), s.parse(config).value, DesiredEntries(s, events, path));
      if r.Ok? then Some(r.value) else None
  }

  function TextOf(config: string, f: Found): string {
    if f.range.start <= f.range.end <= |config| then config[f.range.start..f.range.end] else ""
  }

  function EntryFor(s: Setup, config: string, f: Found): Installation.Entry {
    Installation.Entry(f.event, s.fingerprint(f.event, f.matcher, TextOf(config, f)))
  }

  function EntriesIn(s: Setup, config: string): Option<seq<Installation.Entry>> {
    if s.parse(config).None? || !WfDocument(s.parse(config).value) then None
    else
      var found := InRoot(Parsed(s.parse(config).value, OwnerOf(s)));
      Some(seq(|found|, i requires 0 <= i < |found| => EntryFor(s, config, found[i])))
  }

  function DefinitionOf(s: Setup, path: string, event: string): string {
    s.fingerprint(event, Some(WantedMatcher(Some(s.entry(path, event)))), s.entry(path, event).handler)
  }

  function EnvOf(s: Setup): Installation.Env {
    Installation.Env(
      (config, events, path) => Patch(s, config, events, path),
      config => EntriesIn(s, config),
      s.subtree,
      s.hash,
      s.command,
      (path, event) => DefinitionOf(s, path, event))
  }

  // ---- what is assumed ---------------------------------------------------------------------------

  /** The map that the installer builds for the desired events. */
  function WrittenMap(s: Setup, events: set<string>, path: string): seq<Desired> {
    Collected(DesiredEntries(s, events, path), |s.order(events)|)
  }

  /** The reader reports the document whose text it reads, also when the installer has written the text. */
  ghost predicate ReadsBack(s: Setup, path: string) {
    && (forall text :: s.parse(text).Some? ==> WfDocument(s.parse(text).value) && DocumentText(s.parse(text).value) == text)
    && (forall text, events :: s.parse(text).Some? && AllCatalogued(Catalogued(s), DesiredEntries(s, events, path)) ==>
          ReadsPatched(s, s.parse(text).value, WrittenMap(s, events, path)))
  }

  /** A patch that succeeds is read as the patched document. */
  predicate ReadsPatched(s: Setup, d: Document, m: seq<Desired>) {
    WfDocument(d) && Obstacle(m, OwnerOf(s), d).None? ==>
      s.parse(PatchedText(m, OwnerOf(s), d)) == Some(PatchedDocument(m, OwnerOf(s), d))
  }

  /** The texts written for an event are those of a handler that runs the canonical command. */
  ghost predicate WritesCanonical(s: Setup, path: string, event: string) {
    && WfEntry(s.entry(path, event))
    && s.commandOf(s.entry(path, event).handler) == Some(Ownership.CanonicalCommand(s.windows, path, s.agent, event))
    && (s.windows ==> Windows.Clean(path, 0) && Windows.Clean(event, 0))
  }

  ghost predicate Sound(s: Setup, path: string) {
    && ReadsBack(s, path)
    && (forall events, event :: event in s.order(events) <==> event in events)
    && (forall event :: (s.agent, event) in s.catalogue ==> WritesCanonical(s, path, event))
  }

  // ---- the desired entries --------------------------------------------------------------------------

  lemma {:induction false} LastForIs(entries: seq<Desired>, n: nat, event: string)
    requires n <= |entries|
    ensures LastFor(entries, n, event).Some? ==> exists k :: 0 <= k < n && entries[k] == Desired(event, LastFor(entries, n, event).value)
    ensures LastFor(entries, n, event).None? ==> forall k :: 0 <= k < n ==> entries[k].event != event
  {
    if n > 0 {
      LastForIs(entries, n - 1, event);
      assert entries[n - 1].event == event ==> entries[n - 1] == Desired(event, LastFor(entries, n, event).value);
    }
  }

  /** The collected entries hold, for each desired event, the entry written for it. */
  lemma {:induction false} CollectedAre(s: Setup, events: set<string>, path: string, event: string)
    requires forall e :: e in s.order(events) <==> e in events
    ensures var entries := DesiredEntries(s, events, path);
      Find(Collected(entries, |entries|), event) == if event in events then Some(s.entry(path, event)) else None
  {
    var entries := DesiredEntries(s, events, path);
    CollectedIsMap(entries, |entries|, event);
    LastForIs(entries, |entries|, event);
    if event in events {
      var i :| 0 <= i < |s.order(events)| && s.order(events)[i] == event;
      assert entries[i].event == event;
    }
  }

  lemma {:induction false} WrittenIsRecognised(s: Setup, path: string, event: string)
    requires (s.agent, event) in s.catalogue && WritesCanonical(s, path, event)
    ensures OwnerOf(s)(s.entry(path, event).handler) == Some(event)
  {
    Ownership.EmittedIsRecognised(s.catalogue, s.windows, path, s.agent, event, s.agent);
  }

  lemma {:induction false} FoundIsListed(m: seq<Desired>, event: string)
    requires Find(m, event).Some?
    ensures exists k :: 0 <= k < |m| && m[k].event == event
  {
    if m[0].event != event {
      FoundIsListed(m[1..], event);
      var k :| 0 <= k < |m[1..]| && m[1..][k].event == event;
      assert m[k + 1].event == event;
    }
  }

  lemma {:induction false} CollectedIsWf(s: Setup, events: set<string>, path: string)
    requires Sound(s, path) && AllCatalogued(Catalogued(s), DesiredEntries(s, events, path))
    ensures var entries := DesiredEntries(s, events, path);
      WfDesiredMap(Collected(entries, |entries|), OwnerOf(s)) && Increasing(Collected(entries, |entries|))
  {
    hide ReadsBack, Collected, LastFor;
    var entries := DesiredEntries(s, events, path);
    var m := Collected(entries, |entries|);
    CollectedIsMap(entries, |entries|, "");
    forall i | 0 <= i < |m| ensures WfEntry(m[i].entry) && OwnerOf(s)(m[i].entry.handler) == Some(m[i].event) {
      var event := m[i].event;
      FindMember(m, i);
      CollectedAre(s, events, path, event);
      var k :| 0 <= k < |s.order(events)| && s.order(events)[k] == event;
      assert entries[k].event in Catalogued(s);
      WrittenIsRecognised(s, path, event);
    }
  }

  // ---- the law -----------------------------------------------------------------------------------------

  lemma {:induction false} ReadIsExact(s: Setup, events: set<string>, path: string, m: seq<Desired>, config: string, found: seq<Found>, owned: seq<(string, Owned)>)
    requires AllRead(config, found, owned) && JustDesired(m, owned)
    requires forall event :: Find(m, event) == if event in events then Some(s.entry(path, event)) else None
    ensures Installation.Exactly(EnvOf(s), seq(|found|, i requires 0 <= i < |found| => EntryFor(s, config, found[i])), events, path)
  {
    var entries := seq(|found|, i requires 0 <= i < |found| => EntryFor(s, config, found[i]));
    forall i | 0 <= i < |entries|
      ensures entries[i].event in events && entries[i].definition == DefinitionOf(s, path, entries[i].event)
    {
      assert Reads(config, found[i], owned[i].0, owned[i].1) && IsDesired(m, owned[i]);
      assert DesiredOwned(Find(m, owned[i].0))[0] == owned[i].1;
    }
    forall event | event in events ensures Installation.HasEntry(entries, event) {
      FoundIsListed(m, event);
      var k :| 0 <= k < |m| && m[k].event == event;
      assert Lists(owned, m[k].event);
      var i :| 0 <= i < |owned| && owned[i].0 == event;
      assert Reads(config, found[i], owned[i].0, owned[i].1);
      assert entries[i].event == event;
    }
  }

  /** Patching a configuration for any desired events leaves a configuration in which just these are found. */
  lemma {:induction false} PatcherIsLawful(s: Setup, path: string)
    requires Sound(s, path)
    ensures Installation.Lawful(EnvOf(s), path)
  {
    hide Installation.LawfulFor;
    var env := EnvOf(s);
    forall config: string, events: set<string> | env.patch(config, events, path).Some?
      ensures Installation.LawfulFor(env, env.patch(config, events, path).value, events, path)
    {
      OnePatchIsLawful(s, config, events, path);
    }
  }

  lemma {:induction false} OnePatchIsLawful(s: Setup, config: string, events: set<string>, path: string)
    requires Sound(s, path) && Patch(s, config, events, path).Some?
    ensures Installation.LawfulFor(EnvOf(s), Patch(s, config, events, path).value, events, path)
  {
    hide Installation.Exactly, Collected, AllRead, JustDesired, InRoot, Parsed, PatchedDocument, PatchedText, WfDocument, Obstacle, Increasing, WfDesiredMap, Once,
      OwnedInProperties;
    var d, entries := s.parse(config).value, DesiredEntries(s, events, path);
    var m := Collected(entries, |entries|);
    CollectedIsWf(s, events, path);
    PatchThenInspect(m, OwnerOf(s), d);
    var d' := PatchedDocument(m, OwnerOf(s), d);
    forall event ensures Find(m, event) == if event in events then Some(s.entry(path, event)) else None {
      CollectedAre(s, events, path, event);
    }
    ReadIsExact(s, events, path, m, PatchedText(m, OwnerOf(s), d), InRoot(Parsed(d', OwnerOf(s))), OwnedInProperties(OwnerOf(s), Props(d')));
  }
}
