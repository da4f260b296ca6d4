/**
 A configuration that cannot be patched: the new group would be written after the last one, which
 goes together with the trailing comma that follows it.  `EventSplice.PlanApart` says that this is
 the only shape in which the edits of an event overlap.
 */
module OverlapExample {
  import opened Outcomes
  import opened Flags
  import opened Splicing
  import opened JsonLayout
  import opened ListSplice
  import opened EventPlan
  import opened HandlerPatch
  import opened EventText
  import opened EventSplice
  import opened DesiredMap
  import opened DocumentPlan
  import opened HooksText
  import opened DocumentPatch
  import opened HandlerJson
  import Ownership
  import Quoting

  function Catalogue(): set<(Ownership.Agent, string)> {
    {(Ownership.ClaudeCode, "Stop")}
  }

  /** The recogniser of Claude Code's handlers. */
  function Recogniser(): Owner {
    OwnerBy(Catalogue(), Ownership.ClaudeCode, CommandOf)
  }

  /** The handler that the program writes for a helper path. */
  function Owned(path: string): string {
    HandlerText(Ownership.CanonicalCommand(false, path, Ownership.ClaudeCode, "Stop"))
  }

  /** A handler of the user. */
  function Foreign(): string {
    HandlerText("true")
  }

  /** A group for the matcher `A` with one handler. */
  function GroupOf(handler: string): Group {
    Hooked("{\"matcher\":\"A\",\"hooks\":[", List([Cell("", handler, "")], false, ""), "]}", Some("A"))
  }

  /** A foreign group, a group with just the owned handler, and a trailing comma. */
  function Groups(path: string): seq<Group> {
    [GroupOf(Foreign()), GroupOf(Owned(path))]
  }

  function Array(path: string): List {
    List([Cell("", GroupText(GroupOf(Foreign())), ""), Cell("", GroupText(GroupOf(Owned(path))), "")], true, "")
  }

  function Stop(path: string): Property {
    Events("Stop", "\"Stop\":[", Array(path), Groups(path), "]")
  }

  function HooksMember(path: string): Member {
    Hooks("\"hooks\":{", List([Cell("", PropertyText(Stop(path)), "")], false, ""), [Stop(path)], "}")
  }

  function Example(path: string): Document {
    Rooted("", "{", List([Cell("", MemberText(HooksMember(path)), "")], false, ""), [HooksMember(path)], "}", "")
  }

  /** The entry that the program desires, with the empty matcher. */
  function Wanted(path: string): seq<Desired> {
    [Desired("Stop", EntryFor(Ownership.CanonicalCommand(false, path, Ownership.ClaudeCode, "Stop")))]
  }

  lemma {:induction false} GroupIsWf(handler: string)
    requires WfBody(handler)
    ensures WfGroup(GroupOf(handler)) && WfBody(GroupText(GroupOf(handler)))
  {
    var g := GroupOf(handler);
    assert g.before[0] == '{' && g.before[|g.before| - 1] == '[' && g.after[|g.after| - 1] == '}';
    OneCellText(handler);
    assert GroupText(g) == g.before + (handler + g.after);
  }

  lemma {:induction false} OneCellText(body: string)
    ensures Render(List([Cell("", body, "")], false, "")) == body
  {
    OneCell(Cell("", body, ""), false);
    EmptyPlus(body);
    EmptyPlus(body + "");
  }

  lemma {:induction false} ArrayIsWf(path: string)
    ensures WfList(Array(path)) && Holding(Array(path), Groups(path))
  {
    hide WfBody, GroupText, WfGroup, HandlerText, GroupOf, Ownership.CanonicalCommand;
    HandlerIsWf("true");
    HandlerIsWf(Ownership.CanonicalCommand(false, path, Ownership.ClaudeCode, "Stop"));
    GroupIsWf(Foreign());
    GroupIsWf(Owned(path));
  }

  lemma {:induction false} StopIsWf(path: string)
    ensures WfProperty(Stop(path)) && WfBody(PropertyText(Stop(path)))
  {
    hide Render, Array, Groups, Holding, WfList;
    ArrayIsWf(path);
    var before := "\"Stop\":[";
    assert before[0] == '"' && before[|before| - 1] == '[';
    assert PropertyText(Stop(path)) == before + (Render(Array(path)) + "]");
  }

  lemma {:induction false} ExampleIsWf(path: string)
    ensures WfDocument(Example(path)) && HooksAt(Example(path).xs) == Some(0)
  {
    hide WfProperty, PropertyText, Render;
    StopIsWf(path);
    OneCellText(PropertyText(Stop(path)));
    var before := "\"hooks\":{";
    assert before[0] == '"' && before[|before| - 1] == '{';
    assert MemberText(HooksMember(path)) == before + (Render(HooksMember(path).l) + "}");
    var xs := Example(path).xs;
    var names := seq(|xs|, i requires 0 <= i < |xs| => MemberName(xs[i]) == "hooks");
    FirstIs(names, 0, 0);
  }

  /** The two handlers, as the program recognises them. */
  lemma {:induction false} HandlersAreRecognised(path: string)
    requires Simple(path)
    ensures Recogniser()(Owned(path)) == Some("Stop") && Recogniser()(Foreign()) == None
  {
    hide Verbatim, CommandOf, HandlerText, Ownership.ShellSplit, Ownership.CanonicalCommand;
    assert Simple("Stop") by {
      StopIsSimple();
    }
    WrittenIsOwned(Catalogue(), path, Ownership.ClaudeCode, "Stop");
    CommandIsRead("true") by {
      TrueIsVerbatim();
    }
    TrueIsOneWord();
    assert Ownership.RecognisedEvent(Catalogue(), Ownership.ClaudeCode, "true") == None;
    assert CommandOf(Foreign()) == Some("true");
  }

  lemma {:induction false} StopIsSimple()
    ensures Simple("Stop")
  {
  }

  lemma {:induction false} TrueIsVerbatim()
    ensures Verbatim("true")
  {
  }

  /** A word without white space, quotes and backslashes is read as it is. */
  lemma {:induction false} BareWord(s: string, current: string)
    requires forall i :: 0 <= i < |s| ==> !Ws(s[i]) && s[i] != '\'' && s[i] != '\\'
    ensures Quoting.PosixRest(s, current, false, true) == [current + s]
  {
    if s == "" {
      EmptyPlus(current);
    } else {
      BareWord(s[1..], current + [s[0]]);
      assert (current + [s[0]]) + s[1..] == current + s;
    }
  }

  lemma {:induction false} TrueIsOneWord()
    ensures Ownership.ShellSplit("true") == ["true"]
  {
    var s := "true";
    assert s[0] == 't';
    BareWord(s[1..], "t");
    assert "" + [s[0]] == "t" && "t" + s[1..] == s;
    assert Quoting.PosixRest(s, "", false, false) == Quoting.PosixRest(s[1..], "t", false, true);
  }

  lemma {:induction false} StopIsUnpatchable(path: string)
    requires Simple(path)
    ensures |Groups(path)| == |Array(path).cells|
    ensures Unpatchable("Stop", Some(Wanted(path)[0].entry), Recogniser(), Array(path), Groups(path))
  {
    hide GroupText, HandlerText, Owned, Foreign, Recogniser, Simple, Ownership.CanonicalCommand;
    HandlersAreRecognised(path);
    var entry, f, h := Some(Wanted(path)[0].entry), GroupOf(Foreign()), GroupOf(Owned(path));
    var hosts := seq(2, i requires 0 <= i < 2 => Hosts(entry, Groups(path)[i]));
    assert !Hosts(entry, f) && !Hosts(entry, h);
    assert Host(entry, Groups(path)) == First(hosts, 0);
    assert HandlerFlags("Stop", Recogniser(), f.handlers.cells) == [false];
    assert HandlerFlags("Stop", Recogniser(), h.handlers.cells) == [true];
    assert !HandlerFlags("Stop", Recogniser(), f.handlers.cells)[0];
    var going := Going("Stop", Recogniser(), None, Groups(path));
    assert !going[0] && going[1];
  }

  /**
   The patch of `{"hooks":{"Stop":[F,G,]}}` is refused, F and G being groups for the matcher `A`
   with a handler of the user and with the handler that the program has written, when `Stop` is
   desired as the program desires it, with the empty matcher.
   */
  lemma {:induction false} OverlapHappens(path: string)
    requires Simple(path)
    ensures WfDocument(Example(path))
    ensures PatchOutcome({"Stop"}, Recogniser(), Example(path), Wanted(path)) == Err(Overlap)
  {
    hide WfDocument, GroupText, PropertyText, Unpatchable, HooksAt, First, HandlerText, Recogniser, Simple, Ownership.CanonicalCommand;
    ExampleIsWf(path);
    StopIsUnpatchable(path);
    var m := Collected(Wanted(path), 1);
    assert Collected(Wanted(path), 0) == [];
    assert m == Wanted(path);
    assert Find(m, "Stop") == Some(Wanted(path)[0].entry);
    assert [Stop(path)][0] == Stop(path) && UnpatchableAt(m, Recogniser(), Stop(path));
    assert AllCatalogued({"Stop"}, Wanted(path));
    assert Obstacle(m, Recogniser(), Example(path)) == Some(Overlap);
  }
}
