/**
 A setup that meets all the assumptions of `PatcherLaw`: a reader for the empty object, with which
 the installer starts a configuration, and for everything that patches of an event make of it.
 */
module PatcherExample {
  import opened Outcomes
  import opened Flags
  import opened Splicing
  import opened JsonLayout
  import opened RunDeletion
  import opened ListSplice
  import opened ListEditing
  import opened Nesting
  import opened EventPlan
  import opened HandlerPatch
  import opened EventText
  import opened EventSplice
  import opened EventMeaning
  import opened DesiredMap
  import opened DocumentPlan
  import opened Appending
  import opened Extending
  import opened HooksText
  import opened DocumentPatch
  import opened DocumentMeaning
  import opened HandlerJson
  import opened PatcherLaw
  import Installation
  import Ownership

  /**
   The empty object, an object with an empty `hooks` object, and an object with the array of the
   event, which is empty or holds the desired group.  `written` tells the white space around the
   event: it was written together with the `hooks` object, or added to one.
   */
  datatype Shape = Bare | NoEvents | OneEvent(written: bool, full: bool)

  /** What a patch makes of a shape when the event is desired, and when it is not. */
  function After(shape: Shape, wanted: bool): Shape {
    match shape
    case Bare => if wanted then OneEvent(true, true) else NoEvents
    case NoEvents => if wanted then OneEvent(false, true) else NoEvents
    case OneEvent(written, _) => OneEvent(written, wanted)
  }

  function Wanted(d: Desired, wanted: bool): seq<Desired> {
    if wanted then [d] else []
  }

  function WantedEntry(d: Desired, wanted: bool): Option<EventPlan.Entry> {
    if wanted then Some(d.entry) else None
  }

  // ---- the documents -------------------------------------------------------------------------------

  function ArrayOf(d: Desired, full: bool): List {
    List(if full then [Cell("", d.entry.Group(), "")] else [], false, "")
  }

  function GroupsOf(d: Desired, full: bool): seq<Group> {
    if full then [NewGroup(d.entry)] else []
  }

  function EventOf(d: Desired, full: bool): Property {
    Events(d.event, "\"" + (d.event + "\": ["), ArrayOf(d, full), GroupsOf(d, full), "]")
  }

  function EventsOf(d: Desired, shape: Shape): seq<Property> {
    if shape.OneEvent? then [EventOf(d, shape.full)] else []
  }

  function ObjectOf(d: Desired, shape: Shape): List {
    if shape.OneEvent?
    then List([Cell(if shape.written then "\n    " else " ", PropertyText(EventOf(d, shape.full)), if shape.written then "\n  " else "")], false, "")
    else List([], false, "")
  }

  function HooksOf(d: Desired, shape: Shape): Member {
    Hooks("\"hooks\": {", ObjectOf(d, shape), EventsOf(d, shape), "}")
  }

  function DocumentOf(d: Desired, shape: Shape): Document {
    if shape.Bare? then Rooted("", "{", List([], false, ""), [], "}", "")
    else Rooted("", "{", List([Cell(" ", MemberText(HooksOf(d, shape)), "")], false, ""), [HooksOf(d, shape)], "}", "")
  }

  // ---- their patches ---------------------------------------------------------------------------------

  /** The entry is well formed and its handler is owned for the event. */
  ghost predicate Fits(d: Desired, owner: Owner) {
    WfDesiredMap([d], owner)
  }

  lemma {:induction false} FitsMeans(d: Desired, owner: Owner)
    requires Fits(d, owner)
    ensures WfEntry(d.entry) && owner(d.entry.handler) == Some(d.event)
    ensures forall wanted :: WfDesiredMap(Wanted(d, wanted), owner)
    ensures forall wanted :: Find(Wanted(d, wanted), d.event) == WantedEntry(d, wanted)
  {
    assert [d][0] == d;
  }

  /** The group of the event hosts the desired handler, and goes when none is desired. */
  lemma {:induction false} GroupDecisions(d: Desired, owner: Owner, full: bool, wanted: bool)
    requires Fits(d, owner)
    ensures var entry, groups := WantedEntry(d, wanted), GroupsOf(d, full);
      && Host(entry, groups) == (if full && wanted then Some(0) else None)
      && Going(d.event, owner, Host(entry, groups), groups) == (if full then [!wanted] else [])
  {
    hide Fits;
    FitsMeans(d, owner);
    var entry, groups := WantedEntry(d, wanted), GroupsOf(d, full);
    var hosts := seq(|groups|, i requires 0 <= i < |groups| => Hosts(entry, groups[i]));
    assert Host(entry, groups) == First(hosts, 0);
    if full {
      assert hosts == [wanted];
      var flags := HandlerFlags(d.event, owner, NewGroup(d.entry).handlers.cells);
      assert flags == [true];
    }
  }

  lemma {:induction false} GroupStays(d: Desired, owner: Owner, full: bool, wanted: bool, lead: string)
    requires Fits(d, owner)
    ensures PatchedGroups(d.event, WantedEntry(d, wanted), owner, GroupsOf(d, full), lead) == GroupsOf(d, full)
  {
    hide Fits, PatchedHandlers, Host, Bodies, WfGroup, GroupText;
    FitsMeans(d, owner);
    GroupDecisions(d, owner, full, wanted);
    if full {
      var g := NewGroup(d.entry);
      NewGroupText(d.entry);
      if wanted {
        SameGroup(d.event, owner, g, Some(d.entry.handler), lead);
      } else {
        assert HandlerFlags(d.event, owner, g.handlers.cells) == [true];
      }
    }
  }

  lemma {:induction false} OneSpliced(body: string)
    ensures SpliceList(List([Cell("", body, "")], false, ""), [body], {0}, Nothing) == List([], false, "")
    ensures SpliceList(List([Cell("", body, "")], false, ""), [body], {}, Nothing) == List([Cell("", body, "")], false, "")
    ensures SpliceList(List([], false, ""), [], {}, Nothing) == List([], false, "")
  {
    var l := List([Cell("", body, "")], false, "");
    NoneGoes(0, 1);
    NoneGoes(1, 1);
    assert AllFrom({0}, 0, 1);
    assert Splice(l, [body], {0}, Nothing, 0, "") == Spliced([], "");
    assert Splice(l, [body], {}, Nothing, 0, "") == Spliced([Cell("", body, "")], "");
  }

  lemma {:induction false} FewChosen()
    ensures Chosen([]) == {} && Chosen([false]) == {} && Chosen([true]) == {0}
    ensures AllTrue([]) && AllTrue([true])
  {
  }

  /** The array of the event after a patch. */
  lemma {:induction false} ArrayStep(d: Desired, owner: Owner, src: string, base: nat, full: bool, wanted: bool)
    requires Fits(d, owner) && EventStands(src, base, ArrayOf(d, full), GroupsOf(d, full))
    ensures PatchedArray(d.event, WantedEntry(d, wanted), owner, src, base, ArrayOf(d, full), GroupsOf(d, full)) == ArrayOf(d, wanted)
  {
    hide Fits, Host, Going, PatchedGroups, GroupText, Stands, Holding, HostLead, SpliceList, Chosen, AllTrue, NewGroup, AppendPlacement;
    var entry, l, groups := WantedEntry(d, wanted), ArrayOf(d, full), GroupsOf(d, full);
    GroupDecisions(d, owner, full, wanted);
    GroupStays(d, owner, full, wanted, HostLead(src, base, l, groups, Host(entry, groups)));
    FitsMeans(d, owner);
    NewGroupText(d.entry);
    assert Texts(groups) == if full then [d.entry.Group()] else [];
    FewChosen();
    OneSpliced(d.entry.Group());
  }

  lemma {:induction false} GroupsStep(d: Desired, owner: Owner, full: bool, wanted: bool, lead: string)
    requires Fits(d, owner)
    ensures FinalGroups(d.event, WantedEntry(d, wanted), owner, GroupsOf(d, full), lead) == GroupsOf(d, wanted)
  {
    hide Fits, Host, Going, PatchedGroups;
    GroupDecisions(d, owner, full, wanted);
    GroupStays(d, owner, full, wanted, lead);
    if full {
      OneKept(NewGroup(d.entry), !wanted);
    }
  }

  lemma {:induction false} EventStep(d: Desired, owner: Owner, src: string, base: nat, l: List, full: bool, wanted: bool)
    requires Fits(d, owner) && PropertiesStand(src, base, l, [EventOf(d, full)])
    ensures PatchedProperties(Wanted(d, wanted), owner, src, base, l, [EventOf(d, full)]) == [EventOf(d, wanted)]
  {
    hide Fits, Stands, HoldingProperties, PatchedArray, FinalGroups, HostLead, Wanted, WantedEntry, ArrayOf, GroupsOf, ArrayBase;
    var ps := [EventOf(d, full)];
    FitsMeans(d, owner);
    ArrayStands(src, base, l, ps, 0);
    var at := ArrayBase(base, l, ps, 0);
    ArrayStep(d, owner, src, at, full, wanted);
    GroupsStep(d, owner, full, wanted, HostLead(src, at, ArrayOf(d, full), GroupsOf(d, full), Host(WantedEntry(d, wanted), GroupsOf(d, full))));
    assert PatchedProperty(Wanted(d, wanted), owner, src, base, l, ps, 0) == EventOf(d, wanted);
  }

  /** The event is new only when there was no array for it. */
  lemma {:induction false} NewEvents(d: Desired, shape: Shape, wanted: bool, nodes: seq<PropertyNode>)
    requires |nodes| == |EventsOf(d, shape)| && forall i :: 0 <= i < |nodes| ==> nodes[i].value.Groups? && nodes[i].name == d.event
    ensures Missing(Wanted(d, wanted), nodes) == if shape.OneEvent? then [] else Wanted(d, wanted)
    ensures NewProperties([d]) == [EventOf(d, true)] && NewProperties([]) == []
  {
    if shape.OneEvent? {
      assert nodes[0].value.Groups? && nodes[0].name == d.event;
    }
    assert [d][1..] == [];
  }

  lemma {:induction false} FewElements(pre: string, body: string, post: string, text: string, lead: string)
    ensures Rebodied(List([Cell(pre, body, post)], false, ""), [text]) == List([Cell(pre, text, post)], false, "")
    ensures Rebodied(List([], false, ""), []) == List([], false, "")
    ensures forall l :: Appended(l, lead, []) == l
    ensures Appended(List([], false, ""), lead, [text]) == List([Cell(" ", text, "")], false, "")
  {
    assert NewCells(" ", [text][1..], "") == [];
  }

  /** The `hooks` object after a patch. */
  lemma {:induction false} ObjectStep(d: Desired, owner: Owner, src: string, base: nat, shape: Shape, wanted: bool)
    requires Fits(d, owner) && !shape.Bare? && PropertiesStand(src, base, ObjectOf(d, shape), EventsOf(d, shape))
    ensures var m, l, ps := Wanted(d, wanted), ObjectOf(d, shape), EventsOf(d, shape);
      && PatchedHooks(m, owner, src, base, l, ps) == ObjectOf(d, After(shape, wanted))
      && PatchedProperties(m, owner, src, base, l, ps) + NewProperties(Missing(m, PropertyNodes(base, l, ps, owner))) == EventsOf(d, After(shape, wanted))
  {
    hide Fits, Stands, EventOf, PropertyText, AddLead, WfProperty, EventNodeAt, PropertyJson, PatchedProperty, Rebodied, Appended, Missing, NewProperty;
    var m, l, ps := Wanted(d, wanted), ObjectOf(d, shape), EventsOf(d, shape);
    FitsMeans(d, owner);
    EventFacts(d, shape);
    NewEvents(d, shape, wanted, PropertyNodes(base, l, ps, owner));
    NewTextIs(d, owner);
    if shape.OneEvent? {
      EventStep(d, owner, src, base, l, shape.full, wanted);
      FewElements(l.cells[0].pre, l.cells[0].body, l.cells[0].post, PropertyText(EventOf(d, wanted)), AddLead(src, base, l));
      assert TextsOf([EventOf(d, wanted)]) == [PropertyText(EventOf(d, wanted))];
      assert TextsOf(PatchedProperties(m, owner, src, base, l, ps)) == [PropertyText(EventOf(d, wanted))];
      assert MissingTexts(m, base, l, ps, owner) == [];
    } else {
      FewElements("", "", "", PropertyText(EventOf(d, true)), AddLead(src, base, l));
      assert TextsOf(PatchedProperties(m, owner, src, base, l, ps)) == [];
      assert MissingTexts(m, base, l, ps, owner) == if wanted then [PropertyText(EventOf(d, true))] else [];
    }
  }

  lemma {:induction false} EventFacts(d: Desired, shape: Shape)
    ensures forall i :: 0 <= i < |EventsOf(d, shape)| ==> EventsOf(d, shape)[i].Events? && EventsOf(d, shape)[i].name == d.event
  {
  }

  lemma {:induction false} NewTextIs(d: Desired, owner: Owner)
    requires Fits(d, owner)
    ensures PropertyTexts([d]) == [PropertyText(EventOf(d, true))] && PropertyTexts([]) == []
  {
    FitsMeans(d, owner);
    NewPropertyWf(d);
  }

  /** The document after a patch of the empty object. */
  lemma {:induction false} BareStep(d: Desired, owner: Owner, wanted: bool)
    requires Fits(d, owner)
    ensures WfDocument(DocumentOf(d, Bare))
    ensures PatchedDocument(Wanted(d, wanted), owner, DocumentOf(d, Bare)) == DocumentOf(d, After(Bare, wanted))
  {
    hide Fits, DocumentText, PropertyText, AddLead;
    BareIsWf(d);
    var m, root := Wanted(d, wanted), DocumentOf(d, Bare);
    FitsMeans(d, owner);
    NewTextIs(d, owner);
    NewHooksAre(d, owner, wanted);
    RootStands(root);
    var src, base := DocumentText(root), 1;
    assert MemberTexts(m, owner, src, base, root.l, root.xs) == [];
    FewElements("", "", "", NewHooksText(m), AddLead(src, base, root.l));
  }

  lemma {:induction false} BareIsWf(d: Desired)
    ensures WfDocument(DocumentOf(d, Bare)) && HooksAt(DocumentOf(d, Bare).xs).None?
  {
  }

  lemma {:induction false} NewHooksAre(d: Desired, owner: Owner, wanted: bool)
    requires Fits(d, owner)
    ensures NewHooks(Wanted(d, wanted)) == HooksOf(d, After(Bare, wanted))
    ensures MemberText(NewHooks(Wanted(d, wanted))) == NewHooksText(Wanted(d, wanted))
  {
    hide Fits, PropertyText, PropertyJson, GroupText, EventOf, NewProperty, MemberText;
    FitsMeans(d, owner);
    NewTextIs(d, owner);
    NewEvents(d, Bare, wanted, []);
    NewHooksWf(Wanted(d, wanted), owner);
    if wanted {
      var texts := [PropertyText(EventOf(d, true))];
      assert BodyCells(texts[1..]) == [];
    }
  }

  /** The document after a patch of one that has a `hooks` object. */
  lemma {:induction false} HookedStep(d: Desired, owner: Owner, shape: Shape, wanted: bool)
    requires Fits(d, owner) && !shape.Bare? && WfDocument(DocumentOf(d, shape))
    ensures PatchedDocument(Wanted(d, wanted), owner, DocumentOf(d, shape)) == DocumentOf(d, After(shape, wanted))
  {
    hide Fits, DocumentText, PropertyText, AddLead, Stands, MemberText, WfMember, HoldingMembers, PatchedHooks, PatchedProperties, Missing, Rebodied, Appended,
      HoldingProperties, EventsOf, ObjectOf;
    var m, doc := Wanted(d, wanted), DocumentOf(d, shape);
    RootStands(doc);
    var src, base := DocumentText(doc), 1;
    HooksStand(src, base, doc.l, doc.xs, 0);
    var at := HooksBase(base, doc.l, doc.xs, 0);
    ObjectStep(d, owner, src, at, shape, wanted);
    assert PatchedMember(m, owner, src, base, doc.l, doc.xs, 0) == HooksOf(d, After(shape, wanted));
    HookedAt(d, shape);
    FewElements(" ", MemberText(HooksOf(d, shape)), "", MemberText(HooksOf(d, After(shape, wanted))), AddLead(src, base, doc.l));
    assert MemberTexts(m, owner, src, base, doc.l, doc.xs) == [MemberText(HooksOf(d, After(shape, wanted)))];
    assert PatchedMembers(m, owner, src, base, doc.l, doc.xs) == [HooksOf(d, After(shape, wanted))];
  }

  lemma {:induction false} HookedAt(d: Desired, shape: Shape)
    requires !shape.Bare?
    ensures HooksAt(DocumentOf(d, shape).xs) == Some(0)
  {
    var xs := DocumentOf(d, shape).xs;
    var names := seq(|xs|, i requires 0 <= i < |xs| => MemberName(xs[i]) == "hooks");
    FirstIs(names, 0, 0);
  }

  /** All the documents are well formed, for each is what a patch has made of another one. */
  lemma {:induction false} AllWf(d: Desired, owner: Owner, shape: Shape)
    requires Fits(d, owner)
    ensures WfDocument(DocumentOf(d, shape))
  {
    hide Fits, WfDocument, DocumentOf, PatchedDocument;
    FitsMeans(d, owner);
    BareStep(d, owner, true);
    BareStep(d, owner, false);
    PatchedDocumentIs(Wanted(d, true), owner, DocumentOf(d, Bare));
    PatchedDocumentIs(Wanted(d, false), owner, DocumentOf(d, Bare));
    HookedStep(d, owner, NoEvents, true);
    PatchedDocumentIs(Wanted(d, true), owner, DocumentOf(d, NoEvents));
    if shape.OneEvent? && !shape.full {
      var before := OneEvent(shape.written, true);
      HookedStep(d, owner, before, false);
      PatchedDocumentIs(Wanted(d, false), owner, DocumentOf(d, before));
    }
  }

  lemma {:induction false} Step(d: Desired, owner: Owner, shape: Shape, wanted: bool)
    requires Fits(d, owner)
    ensures WfDocument(DocumentOf(d, shape))
    ensures PatchedDocument(Wanted(d, wanted), owner, DocumentOf(d, shape)) == DocumentOf(d, After(shape, wanted))
    ensures PatchedText(Wanted(d, wanted), owner, DocumentOf(d, shape)) == DocumentText(DocumentOf(d, After(shape, wanted)))
  {
    hide Fits, WfDocument, DocumentOf, PatchedDocument, DocumentText, PatchedText;
    AllWf(d, owner, shape);
    FitsMeans(d, owner);
    if shape.Bare? {
      BareStep(d, owner, wanted);
    } else {
      HookedStep(d, owner, shape, wanted);
    }
    PatchedDocumentIs(Wanted(d, wanted), owner, DocumentOf(d, shape));
  }

  // ---- their texts -------------------------------------------------------------------------------------

  lemma {:induction false} OneLength(before: string, c: Cell, after: string)
    ensures |Enclosed(before, List([c], false, ""), after)| == |before| + CellLen(c) + |after|
    ensures |Enclosed(before, List([], false, ""), after)| == |before| + |after|
  {
    OneCell(c, false);
  }

  lemma {:induction false} TextLength(d: Desired, shape: Shape)
    ensures |DocumentText(DocumentOf(d, shape))| ==
      match shape
      case Bare => 2
      case NoEvents => 14
      case OneEvent(written, full) => 21 + |d.event| + (if written then 7 else 0) + (if full then |d.entry.Group()| else 0)
  {
    hide Enclosed;
    var before := "\"" + (d.event + "\": [");
    OneLength(before, Cell("", d.entry.Group(), ""), "]");
    OneLength("{", Cell(" ", MemberText(HooksOf(d, shape)), ""), "}");
    if shape.OneEvent? {
      var hooks := ObjectOf(d, shape);
      assert |PropertyText(EventOf(d, shape.full))| == |before| + (if shape.full then |d.entry.Group()| else 0) + 1;
      OneLength("\"hooks\": {", hooks.cells[0], "}");
    } else {
      OneLength("\"hooks\": {", Cell("", "", ""), "}");
    }
  }

  /** A text is that of one document at most. */
  lemma {:induction false} TextsDiffer(d: Desired, a: Shape, b: Shape)
    requires |d.entry.Group()| > 7
    requires DocumentText(DocumentOf(d, a)) == DocumentText(DocumentOf(d, b))
    ensures a == b
  {
    hide DocumentText, DocumentOf;
    TextLength(d, a);
    TextLength(d, b);
  }

  // ---- the setup -----------------------------------------------------------------------------------------

  ghost function Parse(d: Desired, text: string): Option<Document> {
    if exists shape :: DocumentText(DocumentOf(d, shape)) == text then
      var shape :| DocumentText(DocumentOf(d, shape)) == text;
      Some(DocumentOf(d, shape))
    else None
  }

  lemma {:induction false} ParseIs(d: Desired, shape: Shape)
    requires |d.entry.Group()| > 7
    ensures Parse(d, DocumentText(DocumentOf(d, shape))) == Some(DocumentOf(d, shape))
  {
    hide DocumentText, DocumentOf;
    var text := DocumentText(DocumentOf(d, shape));
    var other :| DocumentText(DocumentOf(d, other)) == text && Parse(d, text) == Some(DocumentOf(d, other));
    TextsDiffer(d, shape, other);
  }

  /** The members of a set in some order. */
  ghost function Listed(events: set<string>): (r: seq<string>)
    ensures forall event :: event in r <==> event in events
  {
    if events == {} then []
    else
      var event :| event in events;
      [event] + Listed(events - {event})
  }

  /** The command with which Claude Code runs the helper for an event. */
  function ClaudeCommand(path: string, event: string): string {
    Ownership.CanonicalCommand(false, path, Ownership.ClaudeCode, event)
  }

  function DesiredFor(path: string, event: string): Desired {
    Desired(event, HandlerJson.EntryFor(ClaudeCommand(path, event)))
  }

  /** Claude Code with one catalogued event. */
  ghost function Example(path: string, event: string): Setup {
    Setup({(Ownership.ClaudeCode, event)}, Ownership.ClaudeCode, false,
      text => Parse(DesiredFor(path, event), text),
      CommandOf,
      events => Listed(events),
      (path', event') => HandlerJson.EntryFor(ClaudeCommand(path', event')),
      (event', matcher, handler) => handler,
      text => text,
      text => text,
      (path', event') => ClaudeCommand(path', event'))
  }

  lemma {:induction false} EntryFits(path: string, event: string)
    requires Simple(path) && Simple(event)
    ensures Fits(DesiredFor(path, event), OwnerOf(Example(path, event)))
    ensures |DesiredFor(path, event).entry.Group()| > 7
    ensures WritesCanonical(Example(path, event), path, event)
  {
    hide HandlerText, CommandOf, Simple, Ownership.CanonicalCommand;
    WrittenIsOwned({(Ownership.ClaudeCode, event)}, path, Ownership.ClaudeCode, event);
    HandlerIsWf(ClaudeCommand(path, event));
  }

  /** Entries that are all the same collect to one. */
  lemma {:induction false} SameCollected(entries: seq<Desired>, n: nat, d: Desired)
    requires n <= |entries| && forall i :: 0 <= i < n ==> entries[i] == d
    ensures Collected(entries, n) == if n == 0 then [] else [d]
  {
    if n > 0 {
      SameCollected(entries, n - 1, d);
      LessOrTie(d.event, d.event);
      assert [d][1..] == [];
    }
  }

  lemma {:induction false} OnlyTheEvent(path: string, event: string, events: set<string>)
    ensures var s := Example(path, event);
      AllCatalogued(Catalogued(s), DesiredEntries(s, events, path)) ==>
        WrittenMap(s, events, path) == Wanted(DesiredFor(path, event), events != {})
  {
    var s, d := Example(path, event), DesiredFor(path, event);
    var entries := DesiredEntries(s, events, path);
    if AllCatalogued(Catalogued(s), entries) {
      forall i | 0 <= i < |entries| ensures entries[i] == d {
        assert entries[i].event in Catalogued(s);
      }
      SameCollected(entries, |entries|, d);
      if events != {} {
        var e :| e in events;
        assert e in s.order(events);
      }
    }
  }

  /** What the reader reports is one of the documents. */
  lemma {:induction false} ParsedShape(d: Desired, text: string) returns (shape: Shape)
    requires Parse(d, text).Some?
    ensures Parse(d, text) == Some(DocumentOf(d, shape)) && DocumentText(DocumentOf(d, shape)) == text
  {
    hide DocumentText, DocumentOf;
    shape :| DocumentText(DocumentOf(d, shape)) == text && Parse(d, text) == Some(DocumentOf(d, shape));
  }

  lemma {:induction false} ExampleReadsBack(path: string, event: string)
    requires Simple(path) && Simple(event)
    ensures ReadsBack(Example(path, event), path)
  {
    hide Fits, DocumentText, DocumentOf, WfDocument, PatchedText, PatchedDocument, Obstacle, Parse, Simple, AllCatalogued, WrittenMap, DesiredEntries,
      Catalogued, Listed, DesiredFor, OwnerOf, Wanted, WritesCanonical;
    var s, d := Example(path, event), DesiredFor(path, event);
    EntryFits(path, event);
    forall text | s.parse(text).Some? ensures WfDocument(s.parse(text).value) && DocumentText(s.parse(text).value) == text {
      var shape := ParsedShape(d, text);
      AllWf(d, OwnerOf(s), shape);
    }
    forall text, events | s.parse(text).Some? && AllCatalogued(Catalogued(s), DesiredEntries(s, events, path))
      ensures ReadsPatched(s, s.parse(text).value, WrittenMap(s, events, path))
    {
      var shape := ParsedShape(d, text);
      OnlyTheEvent(path, event, events);
      Step(d, OwnerOf(s), shape, events != {});
      ParseIs(d, After(shape, events != {}));
    }
  }

  lemma {:induction false} EventIsCatalogued(path: string, event: string)
    ensures var s := Example(path, event); AllCatalogued(Catalogued(s), DesiredEntries(s, {event}, path))
  {
    hide Parse, CommandOf, HandlerText, Ownership.CanonicalCommand;
    var s := Example(path, event);
    assert (Ownership.ClaudeCode, event) in s.catalogue;
    assert event in Catalogued(s);
    forall i | 0 <= i < |s.order({event})| ensures s.order({event})[i] == event {
      assert s.order({event})[i] in s.order({event});
    }
  }

  lemma {:induction false} BareText(d: Desired)
    ensures DocumentText(DocumentOf(d, Bare)) == "{}"
  {
    EmptyPlus("{" + "}");
  }

  /** The empty object can be patched. */
  lemma {:induction false} ExamplePatches(path: string, event: string)
    requires Simple(path) && Simple(event)
    ensures Patch(Example(path, event), "{}", {event}, path).Some?
  {
    hide Fits, PatchedText, Parse, Simple, Listed, OwnerOf, WritesCanonical, DesiredFor, Collected, AllCatalogued, DesiredEntries, Catalogued, DocumentText;
    var d := DesiredFor(path, event);
    EntryFits(path, event);
    BareIsWf(d);
    BareText(d);
    ParseIs(d, Bare);
    EventIsCatalogued(path, event);
  }

  /**
   The setup meets the assumptions, so its installer is lawful; it reads the empty object, and can
   patch it for the event.
   */
  lemma {:induction false} ExampleIsSound(path: string, event: string)
    requires Simple(path) && Simple(event)
    ensures var s := Example(path, event);
      && Sound(s, path) && Installation.Lawful(EnvOf(s), path)
      && (s.agent, event) in s.catalogue
      && EnvOf(s).patch("{}", {event}, path).Some?
  {
    hide ReadsBack, Patch, Simple, WritesCanonical, Installation.Lawful;
    var s := Example(path, event);
    EntryFits(path, event);
    ExampleReadsBack(path, event);
    ExamplePatches(path, event);
    PatcherIsLawful(s, path);
  }
}
