# CC Reminder: a verified model

CC Reminder is a desktop application that installs hook handlers into the configuration files of
two coding agents (Claude Code and Codex), receives events from these hooks, and decides when to
deliver notifications about them. This Dafny project models the parts in which a mistake would
damage a user's file, lose an event, or deliver one twice, and proves properties of them.

`dafny verify dfyconfig.toml` checks the whole project.

## What is modelled

**The config splice engine** (`Splicing`, `JsonLayout`, `RunDeletion`, `ListSplice`, `SplicedText`,
`ListEditing`, `Nesting`, `Lines`, `Flags`, `EventPlan`, `HandlerPatch`, `EventText`, `EventSplice`,
`EventMeaning`, `PatchAgain`, `DesiredMap`, `DocumentPlan`, `Appending`, `Extending`, `HooksText`,
`DocumentPatch`, `DocumentMeaning`, `Inspection`, `HandlerJson`, `OverlapExample`). A configuration
is a text, and a patch is a list of edits of that text, so that everything the application does not
own stays byte for byte. The methods follow the program: runs of owned elements are deleted with one
comma each, found by scanning bytes, and one handler is inserted or replaced. A grammar of arrays
and objects (`JsonLayout`: white space, one comma between elements, an optional trailing comma, as
in section 5 of RFC 8259 plus trailing commas) gives these edits a meaning. The chain of results is:
what an edit list does at each position (`Splicing`); which characters the deletions take
(`RunDeletion`); the text of one spliced list (`SplicedText`, `ListEditing`); edits inside elements
(`Nesting`); one event (`EventSplice`, `EventMeaning`); the `hooks` object and the whole document
(`HooksText`, `DocumentPatch`, `DocumentMeaning`). `DocumentPatch.Build` is proved to return exactly
the error or the text of `PatchOutcome`, for every well-formed document.

The parser is not modelled. A document is given together with its layout: where its elements stand,
the name of each member, the matcher of each group. `Build` gets the layout as a ghost argument and
the positions, read off it, as the parse tree. The recogniser of owned handlers is a function on
handler texts (`Owner`), the serialised texts are the fields of an `Entry`. `HandlerJson` has the
handler that is written for Claude Code, for commands in which no character needs an escape, and its
reading and recognition; `OverlapExample` and `PatcherExample` are built on it.

**Quoting and ownership** (`Quoting`, `WindowsQuoting`, `CommandLines`, `Ownership`). The two quoting
forms, the two tokenisers, and the recogniser built on them.

**Installation, trust and self-heal** (`Installation`, `PatcherLaw`, `PatcherExample`,
`TrustProtocol`, `InstallerProtocol`). `Installation.HookInstaller` is a class with the
configuration, the recorded rows and the snapshots. Its methods are proved against functions on
states, and the properties are proved of these functions. What they use of the patcher is the law
`Installation.Lawful`, which `PatcherLaw.PatcherIsLawful` proves of the splice engine, the
inspection and the recogniser put together; `PatcherExample` has a setup that meets its assumptions.
`TrustProtocol` interleaves the reading and the replacing of one row by several runs with ingress
requests; `InstallerProtocol` interleaves the steps of several runs on one file.

**Ingress** (`Ingress`, `IngressProtocol`). `Ingress.EventPipeline` holds the recorded events, the
jobs and the ingress rows; each transaction is a method. `IngressProtocol` is the protocol between
helpers, the application, the database and the spool, over every interleaving.

**Decisions, codecs and bookkeeping** (`QuietHours`, `RateLimit`, `Crc`, `Archive`, `WalkLimits`,
`Workers`, `Cancellation`, `Template`, `Paths`).

## Where code, comments and expectations differ

- `windows_quote` writes n + 1 backslashes before an embedded quote that follows n backslashes
  (src-tauri/src/hook_command.rs:202); its comment says 2n + 1 (src-tauri/src/hook_command.rs:193).
  The model follows the code: `WindowsQuoting.WindowsRoundTripIff` says exactly which arguments
  survive, `WindowsQuoting.LostQuote` gives the smallest one that does not.
- The comment at src-tauri/src/installer/mod.rs:495-504 promises edits that never overlap. The
  deletions never do, but the group appended at src-tauri/src/installer/mod.rs:430 can fall inside
  one of them; `EventSplice.PlanApart` says exactly when, and `OverlapExample.OverlapHappens` gives a
  document, whose owned handler is the one that the program writes. The patch then fails and the file
  stays as it is.
- A group with the desired matcher and no handler takes the handler when the event is installed, and
  goes with it when the event is uninstalled (`EventMeaning.EmptyHostIsLost`), whoever wrote the group.
  A group without owned handlers whose matcher is not a desired one stays byte for byte
  (`EventMeaning.UntouchableStay`).
- The comment of `recognize_owned` (src-tauri/src/installer/mod.rs:623-626) asks for a matching fingerprint;
  the code compares the words of the command (src-tauri/src/installer/mod.rs:636-665), and so does the model.
- Trust is read when records are built and written when they replace the old ones. A run that is
  disturbed in between by an uninstall gives a row its trust back
  (`TrustProtocol.DisturbedRunResurrectsTrust`). Trust is always earned when trusted records only
  replace trusted rows with the same pair, whatever else happens in between
  (`TrustProtocol.GuardedTrustIsEarned`); a trusted record that replaces no row, or a row with another
  pair, is never earned (`TrustProtocol.CommitElsewhereIsUnearned`). When it replaces a row with the
  same pair that is not trusted, the row and the record do not decide: the history does
  (`TrustProtocol.RowDoesNotDecide`).
- With equal start and end, quiet hours last whole calendar days, but a deferral is released on the
  next day at the end time. `QuietHours.EqualEndIsLate` says when all instants before the release are
  quiet, and when the release instant itself is quiet: when the next day is selected too.
- The history from which the rate limit is decided holds the newest eight times of each channel, while
  up to a hundred deliveries can be allowed, which is also the default
  (src-tauri/src/rules/resolve.rs:154-156, 211-213). The decision is always that of the whole history
  exactly when at most eight deliveries are allowed or the window is no longer than the cooldown
  (`RateLimit.TruncationIsHarmlessIff`); under any other limits some history allows a delivery too many.
- Inspecting a deleted configuration file reads the empty text, which is not a document, so a heal
  pass fails instead of repairing; the model follows the code.
- A snapshot is saved before every overwrite, but only the five newest are kept.

## What is assumed

- The layout of a document is what its parser reports. In the arrays and objects that are patched,
  only white space stands between an element and the brackets and commas around it: a comment before
  an element, between an element and its comma, or before the closing bracket is excluded. Comments
  inside the text of an element or outside the root object are not.
- After a patch for the installer's own entries the parser reports the patched layout
  (`PatcherLaw.ReadsBack`); `PatcherExample.ExampleIsSound` shows that this and the other assumptions of
  `PatcherLaw` can be met.
- The serialised handler is recognised as owned for its event (`WfDesiredMap`); `PatcherLaw` derives
  this from the canonical command, given that the JSON reader returns the command that was written
  and, in the Windows form, that no backslash stands directly before a quote in path or event.
- Two configurations with the same hash are equal (`InstallerProtocol.Injective`), the file is
  present, and every writer goes through the locked replacement.
- A database transaction is one step, and one instance of the application runs at a time.
- Texts are sequences of characters; positions count characters, not bytes. The characters that the
  program looks for are ASCII.

## Model

| member | source | states |
|---|---|---|
| Splicing.ApplyEdits | src-tauri/src/installer/mod.rs:818-842 | Applying planned edits fails exactly when two of them overlap, whatever their order; otherwise every source character is kept unless an edit covers it, and each text stands at its edit's start |
| Splicing.SortKeepsApart | src-tauri/src/installer/mod.rs:818-828 | Sorting by start and end neither hides an overlap nor creates one |
| Splicing.ApartMeansOrdered | src-tauri/src/installer/mod.rs:826-835 | Comparing each edit with the end of the one before it detects every overlapping pair |
| Splicing.DenoteIgnoresOrder | src-tauri/src/installer/mod.rs:818-842 | When no two texts are written at one place, the result does not depend on the order in which the edits were planned |
| RunDeletion.DeleteRun | src-tauri/src/installer/mod.rs:514-538 | One run is deleted with the comma after it, else with the comma before it, else bare |
| RunDeletion.DeleteRuns | src-tauri/src/installer/mod.rs:505-541 | The owned indices are split into maximal runs, one deletion for each |
| RunDeletion.RunIsMaximal | src-tauri/src/installer/mod.rs:509-513 | A run holds consecutive indices and cannot be extended |
| RunDeletion.RunEditFindsComma | src-tauri/src/installer/mod.rs:519-538 | In an array with white space, single commas and an optional trailing comma, the two byte scans find exactly the comma that separates the run from its neighbour, or none |
| RunDeletion.RunsTake | src-tauri/src/installer/mod.rs:505-541 | Character by character, the deletions take exactly the elements that go, the white space and comma after each of them, and the comma before a run that reaches the end |
| RunDeletion.RunsApart | src-tauri/src/installer/mod.rs:495-504 | Deletions of different runs never touch |
| RunDeletion.RunsShape | src-tauri/src/installer/mod.rs:505-541 | No deletion reaches into an element that stays or leaves the array |
| ListSplice.SplicedListWf | src-tauri/src/installer/mod.rs:505-541 | What is left of an array is again an array of the grammar: the elements that stay, in order, and the new one last |
| SplicedText.SplicedListOut | src-tauri/src/installer/mod.rs:505-541 | Edits that take what the deletions take and write one element turn the text of an array, up to its bracket, into the text of the spliced array |
| ListEditing.ListEditsOut | src-tauri/src/installer/mod.rs:505-541 | The deletions of any set of elements, with at most one insertion after an element, leave a well-formed array with exactly the elements left and the new one |
| ListEditing.ListEditsApart | src-tauri/src/installer/mod.rs:846-865 | An insertion after an element falls inside a deletion exactly when that element goes and a comma follows it |
| Nesting.NestedSplice | src-tauri/src/installer/mod.rs:305-437 | Edits inside the elements and edits of the array itself have the effect of both |
| Nesting.NestedApart | src-tauri/src/installer/mod.rs:305-437 | They overlap only if those of one element or those of the array do |
| Lines.IndentOfLine | src-tauri/src/installer/mod.rs:925-937 | The indentation copied to a new line is the blanks at the start of the line of a position, not beyond the position |
| Lines.DetectNewline | src-tauri/src/installer/mod.rs:939-952 | The newline convention is decided at the first line feed: carriage return and line feed when a carriage return stands directly before it, else a line feed; without a line feed it is a line feed |
| Lines.NewlineIs | src-tauri/src/installer/mod.rs:939-952 | The convention used for every insertion is the one so decided |
| Lines.LineIndentIs | src-tauri/src/installer/mod.rs:925-937 | The indentation is the longest stretch of blanks after the last line feed before the position, cut off at the position |
| EventPlan.PlanEvent | src-tauri/src/installer/mod.rs:305-437 | The planner computes, for an event's groups, deletions of owned handlers, deletions of groups that become empty, and one placement |
| EventPlan.SurveyGroups | src-tauri/src/installer/mod.rs:320-348 | The target is the first group with the desired matcher and a handler array; the owned handlers of each group are those recognised for the event |
| EventPlan.CleanupGroups | src-tauri/src/installer/mod.rs:350-363 | Exactly the groups whose handlers are all owned, and at least one, go, except the target |
| EventPlan.DeleteHandlers | src-tauri/src/installer/mod.rs:380-394 | Owned handlers are deleted in every group that stays, except where the placement replaces all of them |
| EventText.HostedPlacement | src-tauri/src/installer/mod.rs:396-417 | Read off the text of an event, the placement into its target group is an insertion after the last foreign handler, a replacement of all its handlers, or an insertion into an empty array |
| EventText.AppendedPlacement | src-tauri/src/installer/mod.rs:418-434 | Without a target group, the placement is an insertion at the opening bracket when every group goes, and otherwise after the last group |
| EventPlan.PlacementWrites | src-tauri/src/installer/mod.rs:396-477 | A placement writes the handler into the group that can take it, or else a new group: bare when nothing stays there, and otherwise after a comma, in the newline of the source and with the indentation of the first handler or of the last group |
| HandlerPatch.HandlersOut | src-tauri/src/installer/mod.rs:446-477 | The edits of one group leave a handler array holding its foreign handlers verbatim and in order, and the placed one last |
| HandlerPatch.PatchedBodies | src-tauri/src/installer/mod.rs:440-477 | The patched handlers are the foreign ones, unchanged and in order, followed by the placed one |
| EventSplice.PlanApart | src-tauri/src/installer/mod.rs:419-434 | The edits planned for an event overlap if and only if the event is desired without a target group, some group stays, the last group goes, and a trailing comma follows it; they stay inside the array and write at most one text at a place |
| EventSplice.EventOut | src-tauri/src/installer/mod.rs:305-437 | In every other shape the planned edits turn the event's array into the patched array |
| EventMeaning.PatchedArrayHolds | src-tauri/src/installer/mod.rs:305-437 | The patched array is again a well-formed array of groups |
| EventMeaning.PatchMeans | src-tauri/src/installer/mod.rs:297-304 | The foreign handlers, group by group, are the same before and after, and every group that neither holds an owned handler nor hosts the desired one stays byte for byte, in order; afterwards the event has exactly one owned handler, the desired one, in a group with the desired matcher, or none when it is not desired |
| EventMeaning.UntouchableStay | src-tauri/src/installer/mod.rs:297-304 | A group without owned handlers, whose matcher is not a desired one or which has no handler array, stays byte for byte, also when its handler array is empty |
| EventMeaning.EmptyHostIsLost | src-tauri/src/installer/mod.rs:335-363 | The exception: a group with the desired matcher and no handler, whoever wrote it, is gone after installing and uninstalling the event |
| PatchAgain.PatchedTwice | src-tauri/src/installer/mod.rs:305-437 | A second patch of an event can always be made and leaves its groups, matchers and handlers as they are |
| PatchAgain.UnchangedArray | src-tauri/src/installer/lifecycle.rs:239-254 | An event whose only owned handler is the serialised one, alone in its target group, is not changed by a single byte |
| DesiredMap.Collect | src-tauri/src/installer/mod.rs:219-231 | An event that is not catalogued is an error; otherwise the entries are collected |
| DesiredMap.CollectedIsMap | src-tauri/src/installer/mod.rs:219-231 | The collected entries are in increasing order of events, and each event has its last entry |
| DesiredMap.LessIs | src-tauri/src/installer/mod.rs:219-231 | The order of events is that of their first differing characters, a prefix coming first |
| DocumentPlan.BuildHooksBody | src-tauri/src/installer/mod.rs:557-574 | A synthesised hooks object is one line for each event, separated by commas, or two braces |
| DocumentPlan.InsertObjectProperties | src-tauri/src/installer/mod.rs:899-921 | New members join an object in one insertion, each preceded by a comma, the newline of the source and the indentation of the last member, or by a space in an empty object |
| DocumentPlan.PlanHooks | src-tauri/src/installer/mod.rs:244-283 | A desired event whose value is no array is an error; the others are planned, and the events that have no array are added in one insertion |
| Appending.AppendedText | src-tauri/src/installer/mod.rs:899-921 | Members added as one text are members: the object grows by exactly these |
| Extending.ExtendOut | src-tauri/src/installer/mod.rs:899-921 | Members are rewritten in place and new ones added at the end, also after a trailing comma |
| HooksText.HooksOut | src-tauri/src/installer/mod.rs:244-283 | The edits of the hooks object overlap exactly when some event has the one shape, and otherwise make the patched hooks object |
| DocumentPatch.SynthesiseFresh | src-tauri/src/installer/mod.rs:543-555 | A document without root object is replaced by one with the desired events, in its newline convention |
| DocumentPatch.PlanRoot | src-tauri/src/installer/mod.rs:234-292 | A root without hooks member gets one; a hooks member that is no object is an error |
| DocumentPatch.RootOut | src-tauri/src/installer/mod.rs:238-292 | For every document, the planned edits lie inside it, overlap exactly when an event has the one shape, and otherwise make the patched document |
| DocumentPatch.Build | src-tauri/src/installer/mod.rs:212-294 | For every well-formed document and all desired entries: exactly which error is returned, or the patched text |
| DocumentMeaning.PatchedDocumentIs | src-tauri/src/installer/mod.rs:180-204 | The patched text is the text of a well-formed document again |
| DocumentMeaning.PatchKeeps | src-tauri/src/installer/mod.rs:297-304 | After a patch every foreign handler is verbatim and in order with what stands around it, every group beyond the reach of the desired matchers is there byte for byte, every member outside the hooks is verbatim, every event has exactly its desired handler, and no desired event is missing |
| DocumentMeaning.ManyPatchesKeep | src-tauri/src/installer/lifecycle.rs:180-285 | Any sequence of successful patches, for any desired sets, leaves the foreign handlers, the groups beyond the reach of the matchers desired in it, and everything outside the hooks as they were |
| DocumentMeaning.RepatchSettles | src-tauri/src/installer/lifecycle.rs:239-254 | Patching any patched document again with the same entries succeeds and shows a reader the same events, groups and handlers |
| DocumentMeaning.UnchangedDocument | src-tauri/src/installer/lifecycle.rs:239-254 | When every desired event has its serialised handler alone in its target group and no other handler is owned, the patch returns the source, so the file is not rewritten |
| OverlapExample.OverlapHappens | src-tauri/src/installer/mod.rs:419-434 | For every helper path without quotes and escapes: a well-formed document with a user's handler, the handler written by the program and a trailing comma, whose patch for the same event with the empty matcher is refused |
| HandlerJson.CommandIsRead | src-tauri/src/installer/mod.rs:671-680 | The command of a written handler is the one that was written, for every command without escapes |
| HandlerJson.WrittenIsOwned | src-tauri/src/installer/mod.rs:586-603 | The JSON of the handler written for a catalogued event is recognised as owned for that event |
| Inspection.InspectOwnedEntries | src-tauri/src/installer/mod.rs:110-169 | The inspection lists the owned handlers of the first hooks member, event by event and group by group |
| Inspection.InspectGroups | src-tauri/src/installer/mod.rs:121-167 | Groups without handler array are passed over |
| Inspection.InspectHandlers | src-tauri/src/installer/mod.rs:134-166 | A handler is listed when it is recognised for the event it stands under |
| Inspection.InspectionReads | src-tauri/src/installer/mod.rs:110-169 | What is listed are the texts and matchers of exactly the owned handlers of the document, in order |
| Inspection.PatchThenInspect | src-tauri/src/installer/lifecycle.rs:267-271 | Inspecting a patched document finds the desired handler, with its matcher, for each desired event, and nothing else; once for each event unless the document names an event twice |
| Quoting.PosixWords | src-tauri/src/installer/mod.rs:747-787 | Splitting by the POSIX rules |
| Quoting.PosixRoundTrip | src-tauri/src/hook_command.rs:185-187 | Every argument list, quoted in the POSIX form and joined by spaces, splits into itself |
| Quoting.WindowsQuote | src-tauri/src/hook_command.rs:194-223 | The quoting loop, with the number of backslashes the code writes before a quote (one more than it has read) |
| Quoting.WindowsWords | src-tauri/src/installer/mod.rs:694-741 | Splitting by the Windows rules: backslashes before a quote are halved, an odd one escapes it |
| Quoting.CountBackslashes | src-tauri/src/installer/mod.rs:702-712 | The length of a run of backslashes |
| CommandLines.PosixSplitIs | src-tauri/src/installer/mod.rs:747-787 | A line of words in any mixture of bare characters, escaped characters and stretches in apostrophes, with any white space between and around them, splits into what the words mean |
| CommandLines.UnfinishedWord | src-tauri/src/installer/mod.rs:747-787 | At the end of a line an open apostrophe quotes up to there, and a backslash stands for itself |
| CommandLines.WindowsSplitIs | src-tauri/src/installer/mod.rs:690-741 | A line of bare words and of quoted arguments that come back, with any white space between and around them, splits into what the words mean |
| WindowsQuoting.WindowsRoundTripIff | src-tauri/src/hook_command.rs:188-223 | An argument list quoted in the Windows form splits into itself if and only if in no argument a backslash stands directly before a quote |
| WindowsQuoting.CleanMeans | src-tauri/src/hook_command.rs:188-223 | The condition, said about neighbouring characters |
| WindowsQuoting.LostQuote | src-tauri/src/hook_command.rs:198-206 | A backslash and a quote come back as a backslash alone |
| Ownership.ShellWords | src-tauri/src/installer/mod.rs:682-688 | The first character tells the quoting form |
| Ownership.RecognizeOwned | src-tauri/src/installer/mod.rs:627-666 | A command is owned for an event when it has the seven canonical words and the event is catalogued for the agent |
| Ownership.OwnedIffCanonical | src-tauri/src/installer/mod.rs:627-666 | A command is owned exactly when it splits into the canonical words, for whatever helper path |
| Ownership.EmittedIsRecognised | src-tauri/src/hook_command.rs:102-173 | The command written for an agent and an event is recognised as owned by that agent for that event if it is catalogued, and by no other agent |
| Ownership.EmittedInFull | src-tauri/src/hook_command.rs:102-173 | The words of an emitted command for each of the two agents, in full |
| PatcherLaw.PatcherIsLawful | src-tauri/src/installer/lifecycle.rs:336-341 | Whatever the configuration holds, a patch for a set of events leaves a configuration in which the inspection finds the written entry for each of them and nothing else |
| PatcherExample.ExampleIsSound | src-tauri/src/installer/lifecycle.rs:345-350 | The assumptions of this law can be met: by a reader for the seeded empty object and all that patches for an event make of it, with the written handlers of Claude Code, for every path and event without quotes and escapes |
| PatcherExample.Step | src-tauri/src/installer/lifecycle.rs:239-254 | Patching one of these documents, with the event desired or not, gives another one of them, as layout and as text |
| PatcherLaw.CollectedAre | src-tauri/src/installer/lifecycle.rs:318-334 | The entry collected for a desired event is the one written for it |
| PatcherLaw.WrittenIsRecognised | src-tauri/src/installer/lifecycle.rs:318-334 | The handler written for a catalogued event is recognised as owned for it |
| Installation.HookInstaller.constructor | src-tauri/src/installer/lifecycle.rs:79-93 | An installer for one agent, its configuration and its records |
| Installation.BuildRecords | src-tauri/src/installer/lifecycle.rs:367-409 | One record for each entry found, with the trust that survives |
| Installation.RecordsMean | src-tauri/src/installer/lifecycle.rs:367-409 | The recorded events are those found, and each record is that of an entry found for its event |
| Installation.HookInstaller.RecordEntries | src-tauri/src/installer/lifecycle.rs:267-279 | The configuration is read again and what is found is recorded; two entries for an event are refused |
| Installation.HookInstaller.Apply | src-tauri/src/installer/lifecycle.rs:180-285 | A mutation checks encryption and helper, seeds a missing file, leaves an unchanged file alone, saves a snapshot before it overwrites, and records what is found |
| Installation.HookInstaller.ObserveIngress | src-tauri/src/installer/lifecycle.rs:291-307 | An ingress request with the recorded command confirms a row that waits for confirmation, and changes no other row |
| Installation.HookInstaller.HealOnce | src-tauri/src/agents/selfheal.rs:43-53 | A pass over an agent with records repairs it when an entry is missing, drifted or has another helper |
| Installation.EntryOf | src-tauri/src/installer/lifecycle.rs:103-110 | The entry kept for an event is one found for it, and there is one exactly when one was found |
| Installation.OverwriteHasSnapshot | src-tauri/src/installer/lifecycle.rs:256-285 | An overwrite comes with a snapshot of what it overwrites, added to those before, of which the five newest stay; without an overwrite the file stays, and without encryption nothing happens |
| Installation.AppliedRecordsDesired | src-tauri/src/installer/lifecycle.rs:194-199 | A mutation that succeeds leaves exactly the selected events in the file and in the records, with their fingerprints, when it installs, repairs or upgrades, and none when it uninstalls; one that fails leaves the records |
| Installation.GatesRefuse | src-tauri/src/installer/lifecycle.rs:201-219 | Without encryption, and unless it uninstalls without the selected helper in place and version, a mutation is refused with the respective error and changes nothing |
| Installation.AppliedSucceedsIff | src-tauri/src/installer/lifecycle.rs:221-285 | Past the gates: exactly when the file is overwritten, which error is returned, and that the mutation succeeds exactly when the patch is in the file, can be read, and names no event twice |
| Installation.RecordedRowIs | src-tauri/src/installer/lifecycle.rs:367-433 | Each field of a row that a successful mutation records: trust and time survive exactly for a Codex row observed working with the same command and definition |
| Installation.HealKeepsEvents | src-tauri/src/agents/selfheal.rs:80-91 | A heal pass never changes which events are recorded, whatever is on disk and whether it fails |
| Installation.PassRepairsIff | src-tauri/src/agents/selfheal.rs:25-53 | A pass over an agent with records repairs with the wired helper exactly when a recorded event has no entry while no upgrade is required, or its last entry differs from its row or runs another helper; a repair that succeeds leaves just the recorded events, and otherwise nothing happens |
| Installation.RepairedIsSound | src-tauri/src/agents/selfheal.rs:25-32 | After a repair no recorded event is damaged |
| Installation.HealConverges | src-tauri/src/agents/selfheal.rs:43-53 | After a pass that succeeds the next one changes nothing |
| Installation.NeverResurrects | src-tauri/src/agents/selfheal.rs:80-88 | After an uninstall the records are empty, and no number of passes writes anything |
| TrustProtocol.ObservedIsRowwise | src-tauri/src/storage/integrations.rs:199-231 | Marking a hook seen is a step of one row |
| TrustProtocol.ClaudeNeverNeedsTrust | src-tauri/src/installer/lifecycle.rs:420-422 | In every interleaving Claude rows need no trust |
| TrustProtocol.TrustWasEarned | src-tauri/src/installer/lifecycle.rs:411-433 | In every interleaving of installations and ingress requests, a trusted row was observed, at some time, with its very pair of fingerprints |
| TrustProtocol.GuardedTrustIsEarned | src-tauri/src/installer/lifecycle.rs:411-433 | In every interleaving in which trusted records only replace trusted rows with the same pair, a trusted row was observed since its pair last changed and since it was last created |
| TrustProtocol.CommitElsewhereIsUnearned | src-tauri/src/installer/lifecycle.rs:367-433 | A trusted record that replaces no row, or one with another pair, is trusted and not earned |
| TrustProtocol.RowDoesNotDecide | src-tauri/src/installer/lifecycle.rs:367-433 | Onto a row with the same pair that is not trusted, the same commit is earned in one history and not in another |
| TrustProtocol.UndisturbedTrustIsEarned | src-tauri/src/installer/lifecycle.rs:411-433 | Runs that nothing disturbs between reading a row and replacing it are among these interleavings |
| TrustProtocol.UndisturbedTrustIff | src-tauri/src/installer/lifecycle.rs:411-433 | For these runs a Codex row is trusted if and only if it was observed since its pair last changed and since it was last created, so trust is not lost either |
| TrustProtocol.DisturbedRunResurrectsTrust | src-tauri/src/installer/lifecycle.rs:367-433 | An uninstall between the two gives a row back the trust it lost |
| InstallerProtocol.NoLostUpdate | src-tauri/src/installer/atomic.rs:99-137 | In every interleaving of any number of runs, each overwrite writes the patch of the content it overwrites, which is the content then in the file, and a snapshot of it was saved before |
| InstallerProtocol.MutualExclusion | src-tauri/src/installer/atomic.rs:212-236 | At most one run is between taking and releasing the lock, whatever the hash is |
| InstallerProtocol.WritesOnce | src-tauri/src/installer/atomic.rs:99-137 | In every interleaving a run that has published has overwritten the file exactly once, and one that has failed or found nothing to change never has |
| InstallerProtocol.DriftIsDetected | src-tauri/src/installer/atomic.rs:108-116 | A run fails its check exactly when the file is not what it has read; the step changes nothing, and in whatever follows the run never overwrites the file |
| InstallerProtocol.UnchangedIsThere | src-tauri/src/installer/lifecycle.rs:239-254 | A run stops after planning exactly when its patch fails or is already in the file when it looks again, and then never overwrites the file |
| InstallerProtocol.FailureIsClean | src-tauri/src/installer/atomic.rs:117-137 | A run that does not get the lock or cannot replace the file changes neither file nor log, does not hold the lock, and never overwrites the file |
| InstallerProtocol.UndisturbedRunInstalls | src-tauri/src/installer/lifecycle.rs:221-265 | A run that nothing disturbs ends with its patch in the file, the lock free, one snapshot and one overwrite, or changes nothing when there is no patch or nothing to change |
| Ingress.EventPipeline.constructor | src-tauri/src/pipeline.rs:71-87 | A pipeline over an empty store |
| Ingress.EventPipeline.EnqueueJobs | src-tauri/src/pipeline.rs:533-569 | One job for each target; a job with the same idempotency key is not added again |
| Ingress.EventPipeline.ProcessLive | src-tauri/src/pipeline.rs:214-248 | A live request records its event and jobs in one transaction, or reports a duplicate |
| Ingress.EventPipeline.ProcessSafeIngress | src-tauri/src/pipeline.rs:400-427 | A replayed row records its event and jobs unless the event is recorded, and goes in the same transaction |
| Ingress.EventPipeline.RecoverIngress | src-tauri/src/pipeline.rs:272-298 | Rows that cannot be evaluated are passed over and stay |
| Ingress.EventPipeline.InsertIngress | src-tauri/src/hook_command.rs:316-329 | A helper's own insertion does nothing when the row is there |
| Ingress.EnqueuedIs | src-tauri/src/storage/queue.rs:1484-1533 | For an event without jobs, enqueuing adds exactly one job for each distinct channel |
| Ingress.FailuresDoNotStop | src-tauri/src/pipeline.rs:281-296 | In a batch every row that can be evaluated is recorded and goes, wherever it stands; the others stay as they are |
| Ingress.TransactionsAreConsistent | src-tauri/src/pipeline.rs:214-248 | A live or replayed transaction leaves every event with exactly the jobs of the evaluation that first recorded it |
| IngressProtocol.NeverLost | src-tauri/src/hook_command.rs:285-314 | Over every interleaving of lost and late replies, fallbacks, drains, replays, failures and restarts, the event of a helper that has finished is recorded, in an ingress row or in the spool |
| IngressProtocol.GaveUpAfterBoth | src-tauri/src/hook_command.rs:308-313 | In every interleaving a helper gives up only after its insertion into the database and then its spool file have failed |
| IngressProtocol.FallbackKeeps | src-tauri/src/hook_command.rs:308-313 | From every world a helper that waits or was turned away keeps its event if the database or the spool takes it, tries the spool only when the database does not take it, and gives up only if neither does |
| IngressProtocol.TurnedAwayFallsBack | src-tauri/src/hook_command.rs:302-313 | So does a new helper whose request is turned away |
| IngressProtocol.ServedFinishes | src-tauri/src/hook_command.rs:302-307 | A request that is served and answered in time ends with its event recorded |
| IngressProtocol.MemoryIsRecent | src-tauri/src/lib.rs:608-616 | Requests, drains and replays that the application works on date from after the last restart and have not been finished |
| IngressProtocol.RecordedForGood | src-tauri/src/pipeline.rs:214-248 | A recorded event stays recorded under the rules of its first transaction |
| IngressProtocol.RecordedUnderLastRules | src-tauri/src/pipeline.rs:214-248 | An event is recorded under the rules that were set last before |
| IngressProtocol.RecordedOnce | src-tauri/src/pipeline.rs:400-427 | An event has one job for each channel of the rules under which it was first recorded, and no other job, however often it arrives and even if the rules change |
| IngressProtocol.AcceptedIsRecorded | src-tauri/src/ipc/server.rs:172-208 | Acceptance is reported only for a recorded event |
| IngressProtocol.RecoveryRecords | src-tauri/src/lib.rs:608-616 | From every reachable state, a restart with a drain and a replay that works records a kept event, and leaves neither an ingress row nor a spool file of it |
| IngressProtocol.StepKeeps | src-tauri/src/lib.rs:804-815 | No step forgets a kept event or changes the rules of a recorded one |
| QuietHours.QuietIffInSomeOpening | src-tauri/src/rules/policy.rs:131-170 | For start different from end: quiet exactly inside the interval opened on some selected weekday, across midnight too |
| QuietHours.QuietEndIsExact | src-tauri/src/rules/policy.rs:172-183 | The end is the right end of that interval: every instant up to it is quiet, and it is not |
| QuietHours.EqualMeansCalendarDays | src-tauri/src/rules/policy.rs:167-169 | Equal start and end make the selected calendar days quiet |
| QuietHours.EqualEndIsLate | src-tauri/src/rules/policy.rs:172-183 | With equal start and end the release lies on the next day at that time; everything before it is quiet if and only if the time is midnight or the next weekday is selected too, and the release instant is quiet if and only if the next weekday is selected |
| QuietHours.DecisionIs | src-tauri/src/rules/policy.rs:131-154 | For start different from end: no decision without rule, with a bypass, or outside every opening of a selected weekday; otherwise suppression, or deferral to the end of the opening that contains the instant |
| QuietHours.EqualDecisionIs | src-tauri/src/rules/policy.rs:131-154 | For equal start and end: the same about the calendar day, with deferral to the next day |
| QuietHours.WeekStartsOnMonday | src-tauri/src/rules/policy.rs:143-147 | Weekdays are numbered from Monday |
| QuietHours.DeferredToFirstLoudInstant | src-tauri/src/rules/policy.rs:131-154 | A deferral goes to the first instant from now on that is not quiet |
| RateLimit.CooldownKept | src-tauri/src/rules/policy.rs:81-92 | Over every run with times that never go back, deliveries are at least the cooldown apart |
| RateLimit.WindowKept | src-tauri/src/rules/policy.rs:93-101 | Any half-open span of the window's length holds at most the allowed number |
| RateLimit.AllowedIff | src-tauri/src/rules/policy.rs:81-101 | A delivery is allowed exactly when it leaves all deliveries the cooldown apart and every span of the window's length within the allowed number, so nothing is refused without need |
| RateLimit.TruncatedAre | src-tauri/src/pipeline.rs:430-452 | The truncated history is the newest thirty-two of the times kept for the channels, newest first |
| RateLimit.TruncationIsHarmless | src-tauri/src/pipeline.rs:430-452 | With the newest eight times of each channel and thirty-two overall, the decision is that of the full history when at most eight deliveries are allowed or the window is no longer than the cooldown |
| RateLimit.TruncationCanBeSeen | src-tauri/src/pipeline.rs:430-452 | Under any other limits there is a history with which a delivery is allowed that the full history refuses |
| RateLimit.TruncationIsHarmlessIff | src-tauri/src/pipeline.rs:430-452 | The truncated history gives the decision of the full one for all histories and instants if and only if at most eight deliveries are allowed or the window is no longer than the cooldown |
| Crc.TableEntry | src-tauri/src/diagnostics.rs:38-46 | An entry is the eight shifts of its index |
| Crc.CrcTable | src-tauri/src/diagnostics.rs:34-51 | The table holds the eight shifts of each byte |
| Crc.Crc32 | src-tauri/src/diagnostics.rs:53-59 | The table-driven checksum is the bit-at-a-time CRC-32 (section 4.4.7 of PKWARE APPNOTE.TXT), for all byte sequences |
| Crc.CheckValue | src-tauri/src/diagnostics.rs:53-59 | The checksum of the digits from one to nine is the published check value |
| Crc.ShiftIsLinear | src-tauri/src/diagnostics.rs:40-44 | The shift step is linear over exclusive or |
| Crc.EightShifts | src-tauri/src/diagnostics.rs:56 | Eight shifts are one look-up of the low byte and a move of the rest |
| Archive.ZipStore | src-tauri/src/diagnostics.rs:355-414 | The archive is the local records, the central directory and the end record (sections 4.3.7, 4.3.12 and 4.3.16 of PKWARE APPNOTE.TXT), and more entries than the counter holds are an error |
| Archive.ArchiveRoundTrip | src-tauri/src/diagnostics.rs:355-414 | Within the field widths, a reader that follows the end record, the directory and each stored offset, and accepts a local header only if it repeats the directory, gets the names, bytes and checksums in order |
| Archive.CheckedRoundTrip | src-tauri/src/diagnostics.rs:355-414 | With the checksum that the program uses, the reader gets each name and its bytes with their bit-at-a-time CRC-32 |
| WalkLimits.Walk | src-tauri/src/hook_command.rs:423-451 | The walk with an explicit stack accepts a value exactly when its nodes, its depth and its object fields are within the limits of the recursive definitions, and it ends |
| WalkLimits.LimitsAre | src-tauri/src/ipc/protocol.rs:8-10 | The bounds are 32 levels below the root, 4096 nodes and 256 object fields, each met and not exceeded |
| Workers.SendsAreLimited | src-tauri/src/worker.rs:303-330 | In every interleaving at most the permitted number of sends run, and at most one for each channel |
| Workers.PermitsAreUsed | src-tauri/src/worker.rs:303-326 | As many sends as there are permits can run at once, when they go to different channels |
| Workers.SomeTaskCanStep | src-tauri/src/worker.rs:316-326 | While a task is unfinished some task can step, so the two acquisitions cannot deadlock |
| Workers.PassEnds | src-tauri/src/worker.rs:331-337 | A pass takes at most three steps a task, and one that cannot go on has finished every task |
| Workers.NoPermitNoStart | src-tauri/src/worker.rs:303 | Without a permit no task ever starts |
| Cancellation.NoWaiterStaysAsleep | src-tauri/src/worker.rs:223-249 | Once a cancel has woken the waiters, every waiter returns after at most two of its own steps, and one that sleeps after one |
| Cancellation.ReturnedMeansCancelled | src-tauri/src/worker.rs:235-249 | A waiter returns only after a cancel |
| Template.RenderTemplate | src-tauri/src/rules/template.rs:203-232 | The rendering loop, with its errors |
| Template.RendersIff | src-tauri/src/rules/template.rs:203-232 | A template renders to an output exactly when it is brace-free text and placeholders with valid authorised paths, and the output is the literals and values in order; values are not scanned again |
| Template.ValidPathIs | src-tauri/src/rules/template.rs:234-245 | The paths accepted are a non-empty root of lower-case letters, one dot, and a non-empty leaf of lower-case letters and underscores |
| Template.RefusedIff | src-tauri/src/rules/template.rs:203-226 | A template is refused for a field exactly when, after text that renders, a placeholder names a path that is not authorised |
| Template.ConfinedToAuthorized | src-tauri/src/rules/template.rs:221-226 | Two contexts that agree on the authorised paths and their values render everything alike |
| Paths.NormalizedSegments | src-tauri/src/projects/resolver.rs:163-187 | Empty and dot segments go, and a pair of dots takes the segment before it |
| Paths.RootedIsPlain | src-tauri/src/projects/resolver.rs:163-187 | A rooted path keeps no dot segment |
| Paths.NormalIsStable | src-tauri/src/projects/resolver.rs:163-187 | Normalising is idempotent |
| Paths.DetourIsIgnored | src-tauri/src/projects/resolver.rs:163-187 | A segment followed by a pair of dots has no effect, wherever it is inserted |
| Paths.DotIsIgnored | src-tauri/src/projects/resolver.rs:163-187 | Empty segments and single dots have no effect, wherever they stand |
| Paths.ClimbsStay | src-tauri/src/projects/resolver.rs:163-187 | Pairs of dots at the start stay in a relative path and vanish in a rooted one |
| Paths.ResolveProject | src-tauri/src/projects/resolver.rs:50-83 | The candidates are searched for the longest prefix, the last of equals |
| Paths.ResolvesToLongestPrefix | src-tauri/src/projects/resolver.rs:50-83 | The project found has a root or alias, rooted like the working directory, whose segments its segments start with; no such root is longer, and none of a later project is as long; none is found exactly when there is none |

## Left out

- The JSONC parser, comments, and the escaping inside JSON strings: texts, keys and matchers are inputs.
- `serialise_owned_group`, `serialise_owned_handler` and `hook_definition_fingerprint`: the texts and fingerprints they compute are inputs; `HandlerJson` has the texts for Claude Code when no character needs an escape.
- The `commandWindows` field: which form Codex runs on Windows, and that the recogniser does not look at it.
- The hooks subtree in a snapshot, its encryption, and recovery from it: `subtree` is a function of the configuration.
- File modes, temporary files, directory synchronisation and the read-back after the rename: a replacement works or fails as a whole.
- Waiting for the lock and its timeout: a run takes the free lock at some step or gives up.
- External editors that write between the hash check and the rename: they take no lock.
- The aggregate health of an agent, and the health of entries that are installed but not selected.
- The limits of the record store on the number of hooks and the length of their texts.
- The trust gate of a live request: a request that is refused is a step that records nothing.
- Encryption, normalisation and redaction of events: an event is its stable id, which identifies a capture.
- The documents of delivery jobs, aggregation keys, and the time of the next attempt, which is now even for a deferred event.
- Leases, backoff, retention and delivery attempts in the job queue.
- Spool files that cannot be parsed, the limits of a drain, and the order of an ingress batch.
- The HTTP senders and the outcome of a send: a send is one step that ends.
- The order in which waiting tasks get a semaphore: any waiting task may get it.
- The other tests of `evaluate_policy` (capability, filters, time to live, global pause, delivery mode).
- Rendering limits, redaction and the canonical document around `render_template`.
- Windows path forms and file-system canonicalisation in the resolver, and `to_string_lossy`.
- The user interface, the command layer, configuration resolution, and log rotation.
- RateLimit.CooldownKept: a delivery is taken to happen when it is decided; in the program its recorded time is the completion of a later attempt.
- RateLimit.WindowKept: the same holds for the deliveries counted in a window.
- IngressProtocol.NeverLost: says nothing about a helper that gives up, which happens when the spool cannot be written either.
- TrustProtocol.GuardedTrustIsEarned: is stated for runs whose trusted records replace trusted rows with the same pair, because it fails for others.
