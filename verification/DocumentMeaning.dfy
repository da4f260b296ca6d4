/**
 What patching means for a document: everything that is not a handler owned by this program stays
 as it is, the desired handlers are there afterwards and no others, and patching again changes
 nothing a reader sees.
 */
module DocumentMeaning {
  import opened Outcomes
  import opened Flags
  import opened Splicing
  import opened JsonLayout
  import opened ListSplice
  import opened ListEditing
  import opened Nesting
  import opened Lines
  import opened EventPlan
  import opened HandlerPatch
  import opened EventText
  import opened EventSplice
  import opened EventMeaning
  import opened PatchAgain
  import opened DesiredMap
  import opened DocumentPlan
  import opened Appending
  import opened Extending
  import opened HooksText
  import opened DocumentPatch

  /** The desired entries are well formed, and their handlers are recognised as owned. */
  ghost predicate WfDesiredMap(m: seq<Desired>, owner: Owner) {
    forall i :: 0 <= i < |m| ==> WfEntry(m[i].entry) && owner(m[i].entry.handler) == Some(m[i].event)
  }

  lemma {:induction false} FoundIsWf(m: seq<Desired>, owner: Owner, event: string)
    requires WfDesiredMap(m, owner)
    ensures WfDesired(Find(m, event)) && Recognised(event, owner, Find(m, event))
  {
    if m != [] && m[0].event != event {
      FoundIsWf(m[1..], owner, event);
    }
  }

  // ---- new properties ---------------------------------------------------------------------------

  lemma {:induction false} NewPropertyWf(d: Desired)
    requires WfEntry(d.entry)
    ensures WfProperty(NewProperty(d)) && PropertyText(NewProperty(d)) == PropertyJson(d)
    ensures WfBody(PropertyJson(d))
  {
    hide GroupText;
    var p := NewProperty(d);
    NewGroupText(d.entry);
    OneCell(p.l.cells[0], false);
    EmptyPlus(d.entry.Group());
    assert p.before[0] == '"' && p.before[|p.before| - 1] == '[';
    EnclosedWf(p.before, p.l, p.after);
  }

  lemma {:induction false} NewPropertyTexts(m: seq<Desired>)
    requires forall i :: 0 <= i < |m| ==> WfEntry(m[i].entry)
    ensures TextsOf(NewProperties(m)) == PropertyTexts(m)
    ensures forall i :: 0 <= i < |m| ==> WfBody(PropertyTexts(m)[i]) && WfProperty(NewProperties(m)[i])
  {
    hide PropertyText, PropertyJson, WfProperty, WfBody;
    forall i | 0 <= i < |m|
      ensures TextsOf(NewProperties(m))[i] == PropertyTexts(m)[i] && WfBody(PropertyTexts(m)[i]) && WfProperty(NewProperties(m)[i])
    {
      NewPropertyWf(m[i]);
    }
  }

  lemma {:induction false} MissingAreDesired(m: seq<Desired>, ps: seq<PropertyNode>, d: Desired)
    ensures d in Missing(m, ps) <==> d in m && !Handled(ps, d.event)
  {
    if m != [] {
      MissingAreDesired(m[1..], ps, d);
      assert m == [m[0]] + m[1..];
    }
  }

  /** The new events come in the order of the desired ones. */
  lemma {:induction false} MissingInOrder(m: seq<Desired>, ps: seq<PropertyNode>)
    ensures Sublist(Missing(m, ps), m)
  {
    if m != [] {
      MissingInOrder(m[1..], ps);
      var rest := Missing(m[1..], ps);
      assert ([m[0]] + rest)[1..] == rest && [] + rest == rest;
    }
  }

  lemma {:induction false} MissingWf(m: seq<Desired>, ps: seq<PropertyNode>, owner: Owner)
    requires WfDesiredMap(m, owner)
    ensures WfDesiredMap(Missing(m, ps), owner)
  {
    forall i | 0 <= i < |Missing(m, ps)|
      ensures WfEntry(Missing(m, ps)[i].entry) && owner(Missing(m, ps)[i].entry.handler) == Some(Missing(m, ps)[i].event)
    {
      MissingAreDesired(m, ps, Missing(m, ps)[i]);
    }
  }

  // ---- the patched hooks object ------------------------------------------------------------------

  lemma {:induction false} HoldingFromTexts(l: List, ps: seq<Property>)
    requires Bodies(l.cells) == TextsOf(ps) && forall i :: 0 <= i < |ps| ==> WfProperty(ps[i])
    ensures HoldingProperties(l, ps)
  {
    hide PropertyText, WfProperty;
    BodiesAt(l.cells, 0);
    forall i | 0 <= i < |ps| ensures l.cells[i].body == PropertyText(ps[i]) {
      BodiesAt(l.cells, i);
    }
  }

  lemma {:induction false} RebodiedBodies(l: List, bodies: seq<string>)
    requires |bodies| == |l.cells| && WfList(l) && forall i :: 0 <= i < |bodies| ==> WfBody(bodies[i])
    ensures Bodies(Rebodied(l, bodies).cells) == bodies && WfList(Rebodied(l, bodies))
  {
    hide WfBody;
    var cells := Rebodied(l, bodies).cells;
    BodiesAt(cells, 0);
    forall i | 0 <= i < |cells| ensures Bodies(cells)[i] == bodies[i] && WfCell(cells[i]) {
      BodiesAt(cells, i);
      assert WfCell(l.cells[i]);
    }
  }

  lemma {:induction false} PropertyTextWf(p: Property)
    requires WfProperty(p)
    ensures WfBody(PropertyText(p))
  {
    if p.Events? {
      EnclosedWf(p.before, p.l, p.after);
    }
  }

  lemma {:induction false} PatchedPropertyWf(m: seq<Desired>, owner: Owner, src: string, base: nat, l: List, ps: seq<Property>, i: nat)
    requires PropertiesStand(src, base, l, ps) && i < |ps| && WfDesiredMap(m, owner)
    ensures WfProperty(PatchedProperty(m, owner, src, base, l, ps, i))
  {
    hide Stands, WfBody, PatchedArray, FinalGroups, PropertyText;
    EachWf(l, ps, i);
    if ps[i].Events? {
      ArrayStands(src, base, l, ps, i);
      FoundIsWf(m, owner, ps[i].name);
      PatchedArrayHolds(src, ps[i].name, Find(m, ps[i].name), owner, ArrayBase(base, l, ps, i), ps[i].l, ps[i].groups);
    }
  }

  /** All properties of the patched `hooks` object. */
  function FinalProperties(m: seq<Desired>, owner: Owner, src: string, base: nat, l: List, ps: seq<Property>): seq<Property>
    requires PropertiesStand(src, base, l, ps)
  {
    PatchedProperties(m, owner, src, base, l, ps) + NewProperties(Missing(m, PropertyNodes(base, l, ps, owner)))
  }

  lemma {:induction false} PatchedHooksHold(m: seq<Desired>, owner: Owner, src: string, base: nat, l: List, ps: seq<Property>)
    requires PropertiesStand(src, base, l, ps) && WfDesiredMap(m, owner)
    ensures WfList(PatchedHooks(m, owner, src, base, l, ps))
    ensures HoldingProperties(PatchedHooks(m, owner, src, base, l, ps), FinalProperties(m, owner, src, base, l, ps))
  {
    hide Stands, HoldingProperties, PropertyText, WfProperty, PatchedProperty, WfBody, Missing, PropertyNodes, Rebodied, Appended, WfEntry, AddLead;
    var patched, missing := PatchedProperties(m, owner, src, base, l, ps), Missing(m, PropertyNodes(base, l, ps, owner));
    LengthsAgree(l, ps);
    ListIsWf(src, base, l);
    MissingWf(m, PropertyNodes(base, l, ps, owner), owner);
    NewPropertyTexts(missing);
    forall i | 0 <= i < |ps| ensures WfProperty(patched[i]) && WfBody(TextsOf(patched)[i]) {
      PatchedPropertyWf(m, owner, src, base, l, ps, i);
      PropertyTextWf(patched[i]);
    }
    RebodiedBodies(l, TextsOf(patched));
    AppendedWf(Rebodied(l, TextsOf(patched)), AddLead(src, base, l), PropertyTexts(missing));
    AppendedBodies(Rebodied(l, TextsOf(patched)), AddLead(src, base, l), PropertyTexts(missing));
    assert TextsOf(patched + NewProperties(missing)) == TextsOf(patched) + TextsOf(NewProperties(missing));
    HoldingFromTexts(PatchedHooks(m, owner, src, base, l, ps), FinalProperties(m, owner, src, base, l, ps));
  }

  lemma {:induction false} ListIsWf(src: string, base: nat, l: List)
    requires Stands(src, base, l)
    ensures WfList(l)
  {
  }

  /** The `hooks` member of a document that had none. */
  function NewHooks(m: seq<Desired>): Member {
    Hooks("\"hooks\": {", List(BodyCells(PropertyTexts(m)), false, ""), NewProperties(m), "}")
  }

  lemma {:induction false} BodyCellsAre(texts: seq<string>)
    requires forall i :: 0 <= i < |texts| ==> WfBody(texts[i])
    ensures Bodies(BodyCells(texts)) == texts && WfCells(BodyCells(texts))
  {
    if texts != [] {
      BodyCellsAre(texts[1..]);
      var cells := BodyCells(texts);
      assert cells[1..] == BodyCells(texts[1..]);
      assert texts == [texts[0]] + texts[1..];
    }
  }

  lemma {:induction false} NewHooksWf(m: seq<Desired>, owner: Owner)
    requires WfDesiredMap(m, owner)
    ensures WfMember(NewHooks(m)) && MemberText(NewHooks(m)) == NewHooksText(m)
  {
    hide PropertyText, PropertyJson, WfProperty, WfEntry;
    var x := NewHooks(m);
    NewPropertyTexts(m);
    BodyCellsAre(PropertyTexts(m));
    HoldingFromTexts(x.l, x.ps);
    BraceTogether(Render(x.l));
  }

  lemma {:induction false} BraceTogether(s: string)
    ensures "\"hooks\": {" + (s + "}") == "\"hooks\": " + ("{" + (s + "}"))
  {
    assert "\"hooks\": {" == "\"hooks\": " + "{";
    Assoc("\"hooks\": ", "{", s + "}");
  }

  // ---- the patched document -----------------------------------------------------------------------

  function PatchedMembers(m: seq<Desired>, owner: Owner, src: string, base: nat, l: List, xs: seq<Member>): seq<Member>
    requires MembersStand(src, base, l, xs)
  {
    seq(|xs|, i requires 0 <= i < |xs| => PatchedMember(m, owner, src, base, l, xs, i))
    + if HooksAt(xs).None? then [NewHooks(m)] else []
  }

  function FreshDocument(m: seq<Desired>, text: string): Document {
    var newline := NewlineFrom(text, 0);
    if m == [] then Rooted("", "{", List([], false, newline), [], "}", "")
    else Rooted("", "{", List([Cell(newline + "  ", NewHooksText(m), newline)], false, ""), [NewHooks(m)], "}", "")
  }

  function PatchedDocument(m: seq<Desired>, owner: Owner, d: Document): Document
    requires WfDocument(d)
  {
    if d.Scalar? then FreshDocument(m, d.text)
    else
      RootStands(d);
      var src, base := DocumentText(d), |d.prefix| + |d.before|;
      d.(l := PatchedRoot(m, owner, src, base, d.l, d.xs), xs := PatchedMembers(m, owner, src, base, d.l, d.xs))
  }

  lemma {:induction false} HoldingFromMemberTexts(l: List, xs: seq<Member>)
    requires |Bodies(l.cells)| == |xs| && forall i :: 0 <= i < |xs| ==> WfMember(xs[i]) && Bodies(l.cells)[i] == MemberText(xs[i])
    ensures HoldingMembers(l, xs)
  {
    hide MemberText, WfMember;
    BodiesAt(l.cells, 0);
    forall i | 0 <= i < |xs| ensures l.cells[i].body == MemberText(xs[i]) {
      BodiesAt(l.cells, i);
    }
  }

  lemma {:induction false} PatchedMemberWf(m: seq<Desired>, owner: Owner, src: string, base: nat, l: List, xs: seq<Member>, i: nat)
    requires MembersStand(src, base, l, xs) && i < |xs| && WfDesiredMap(m, owner)
    ensures var x := PatchedMember(m, owner, src, base, l, xs, i);
      WfMember(x) && WfBody(MemberText(x)) && MemberName(x) == MemberName(xs[i]) && (x.Hooks? <==> xs[i].Hooks?)
  {
    hide Stands, HoldingProperties, PatchedHooks, PatchedProperties, Missing, PropertyNodes, WfBody;
    MemberHolds(src, base, l, xs, i);
    if xs[i].Hooks? {
      HooksStand(src, base, l, xs, i);
      PatchedHooksHold(m, owner, src, HooksBase(base, l, xs, i), xs[i].l, xs[i].ps);
      var x := PatchedMember(m, owner, src, base, l, xs, i);
      EnclosedWf(x.before, x.l, x.after);
    }
  }

  lemma {:induction false} PatchedRootHolds(m: seq<Desired>, owner: Owner, src: string, base: nat, l: List, xs: seq<Member>)
    requires MembersStand(src, base, l, xs) && WfDesiredMap(m, owner)
    ensures WfList(PatchedRoot(m, owner, src, base, l, xs))
    ensures HoldingMembers(PatchedRoot(m, owner, src, base, l, xs), PatchedMembers(m, owner, src, base, l, xs))
  {
    hide Stands, HoldingMembers, MemberText, WfMember, PatchedMember, WfBody, Rebodied, Appended, HooksAt, NewHooksText, NewHooks, AddLead;
    var texts, added := MemberTexts(m, owner, src, base, l, xs), if HooksAt(xs).None? then [NewHooksText(m)] else [];
    MembersCount(l, xs);
    ListIsWf(src, base, l);
    NewHooksWf(m, owner);
    NewHooksBody(m, owner);
    forall i | 0 <= i < |xs| ensures WfMember(PatchedMember(m, owner, src, base, l, xs, i)) && WfBody(texts[i]) {
      PatchedMemberWf(m, owner, src, base, l, xs, i);
    }
    RebodiedBodies(l, texts);
    AppendedWf(Rebodied(l, texts), AddLead(src, base, l), added);
    AppendedBodies(Rebodied(l, texts), AddLead(src, base, l), added);
    HoldingFromMemberTexts(PatchedRoot(m, owner, src, base, l, xs), PatchedMembers(m, owner, src, base, l, xs));
  }

  lemma {:induction false} NewHooksBody(m: seq<Desired>, owner: Owner)
    requires WfDesiredMap(m, owner)
    ensures WfBody(NewHooksText(m))
  {
    var x := NewHooks(m);
    NewHooksWf(m, owner);
    EnclosedWf(x.before, x.l, x.after);
  }

  /** Patching leaves the `hooks` member where it is, or adds it at the end. */
  lemma {:induction false} PatchedHooksAt(m: seq<Desired>, owner: Owner, src: string, base: nat, l: List, xs: seq<Member>)
    requires MembersStand(src, base, l, xs) && WfDesiredMap(m, owner)
    ensures HooksAt(PatchedMembers(m, owner, src, base, l, xs)) == if HooksAt(xs).None? then Some(|xs|) else HooksAt(xs)
    ensures HooksAt(xs).Some? ==> HooksAt(xs).value < |xs|
  {
    hide Stands, HoldingMembers, MemberText, WfMember, PatchedMember, WfBody, WfDesiredMap;
    var xs' := PatchedMembers(m, owner, src, base, l, xs);
    var flags := seq(|xs|, i requires 0 <= i < |xs| => MemberName(xs[i]) == "hooks");
    var flags' := seq(|xs'|, i requires 0 <= i < |xs'| => MemberName(xs'[i]) == "hooks");
    forall i | 0 <= i < |xs| ensures flags'[i] == flags[i] {
      PatchedMemberWf(m, owner, src, base, l, xs, i);
    }
    FirstIs(flags', 0, if HooksAt(xs).None? then |xs| else HooksAt(xs).value);
  }

  /** The patched document is a document again, and its text is what the program writes. */
  lemma {:induction false} PatchedDocumentIs(m: seq<Desired>, owner: Owner, d: Document)
    requires WfDocument(d) && WfDesiredMap(m, owner)
    ensures WfDocument(PatchedDocument(m, owner, d))
    ensures DocumentText(PatchedDocument(m, owner, d)) == PatchedText(m, owner, d)
  {
    hide Stands, HoldingMembers, Enclosed, PatchedRoot, PatchedMembers, HooksAt, WfDesiredMap, FreshDocument, WfBody;
    if d.Scalar? {
      FreshDocumentIs(m, owner, d.text);
    } else {
      RootStands(d);
      var src, base := DocumentText(d), |d.prefix| + |d.before|;
      PatchedRootHolds(m, owner, src, base, d.l, d.xs);
      OneHooksMember(m, owner, src, base, d.l, d.xs);
    }
  }

  lemma {:induction false} OneHooksMember(m: seq<Desired>, owner: Owner, src: string, base: nat, l: List, xs: seq<Member>)
    requires MembersStand(src, base, l, xs) && WfDesiredMap(m, owner)
    requires forall i :: 0 <= i < |xs| && xs[i].Hooks? ==> HooksAt(xs) == Some(i)
    ensures var xs' := PatchedMembers(m, owner, src, base, l, xs);
      forall i :: 0 <= i < |xs'| && xs'[i].Hooks? ==> HooksAt(xs') == Some(i)
  {
    hide Stands, HoldingMembers, PatchedMember, HooksAt, WfDesiredMap, MemberText;
    PatchedHooksAt(m, owner, src, base, l, xs);
    var xs' := PatchedMembers(m, owner, src, base, l, xs);
    forall i | 0 <= i < |xs'| && xs'[i].Hooks? ensures HooksAt(xs') == Some(i) {
      if i < |xs| {
        PatchedMemberWf(m, owner, src, base, l, xs, i);
      }
    }
  }

  lemma {:induction false} FreshHooksAt(m: seq<Desired>, text: string)
    ensures m != [] ==> HooksAt(FreshDocument(m, text).xs) == Some(0)
    ensures m == [] ==> HooksAt(FreshDocument(m, text).xs).None?
  {
    hide NewHooksText;
    var xs := FreshDocument(m, text).xs;
    if m != [] {
      FirstIs([true], 0, 0);
      assert seq(|xs|, i requires 0 <= i < |xs| => MemberName(xs[i]) == "hooks") == [true];
    }
  }

  lemma {:induction false} FreshDocumentIs(m: seq<Desired>, owner: Owner, text: string)
    requires WfDesiredMap(m, owner)
    ensures WfDocument(FreshDocument(m, text)) && DocumentText(FreshDocument(m, text)) == Fresh(m, text)
  {
    hide WfMember, MemberText, NewHooksText, NewHooks, WfBody, WfDesiredMap, HooksAt;
    var newline, d := NewlineFrom(text, 0), FreshDocument(m, text);
    FreshHooksAt(m, text);
    assert WfBody("{") && WfBody("}") by {
      Braces();
    }
    EmptyPlus(d.before + (Render(d.l) + d.after));
    EmptyPlus(newline);
    if m != [] {
      NewHooksWf(m, owner);
      NewHooksBody(m, owner);
      OneCell(d.l.cells[0], false);
      FreshTogether(newline, NewHooksText(m));
    }
  }

  lemma {:induction false} Braces()
    ensures WfBody("{") && WfBody("}")
  {
  }

  lemma {:induction false} FreshTogether(newline: string, hooks: string)
    ensures "{" + (((((newline + "  ") + (hooks + newline)) + "") + "") + "}") == "{" + (newline + ("  " + (hooks + (newline + "}"))))
  {
  }

  // ---- what stays and what is there ------------------------------------------------------------------

  /** The events of a document. */
  function Props(d: Document): seq<Property> {
    if d.Scalar? || HooksAt(d.xs).None? then []
    else
      var x := d.xs[HooksAt(d.xs).value];
      if x.Hooks? then x.ps else []
  }

  /**
   The same event, with the same foreign handlers in each group; the groups that hold no owned
   handler and whose matcher is not in `hosting` are there byte for byte.
   */
  predicate SameForeign(owner: Owner, hosting: set<string>, p: Property, p': Property) {
    if p.Opaque? then p' == p
    else
      && p'.Events? && p'.name == p.name && p'.before == p.before && p'.after == p.after
      && ForeignView(p.name, owner, p'.groups) == ForeignView(p.name, owner, p.groups)
      && Sublist(Untouchable(p.name, owner, hosting, p.groups), Untouchable(p.name, owner, hosting, p'.groups))
  }

  /** All the matchers that are desired. */
  function Matchers(m: seq<Desired>): set<string> {
    set i | 0 <= i < |m| :: WantedMatcher(Some(m[i].entry))
  }

  lemma {:induction false} FoundMatcher(m: seq<Desired>, event: string)
    ensures Find(m, event).Some? ==> WantedMatcher(Find(m, event)) in Matchers(m)
  {
    if m != [] && m[0].event != event {
      FoundMatcher(m[1..], event);
      if Find(m, event).Some? {
        var i :| 0 <= i < |m[1..]| && WantedMatcher(Some(m[1..][i].entry)) == WantedMatcher(Find(m, event));
        assert m[i + 1] == m[1..][i];
      }
    }
  }

  predicate SameMember(x: Member, x': Member) {
    if x.Field? then x' == x else x'.Hooks? && x'.before == x.before && x'.after == x.after
  }

  predicate SameRoot(d: Document, d': Document) {
    && d.Rooted? && d'.Rooted?
    && d'.prefix == d.prefix && d'.before == d.before && d'.after == d.after && d'.suffix == d.suffix
    && |d.xs| <= |d'.xs|
    && (forall i :: 0 <= i < |d.xs| ==> SameMember(d.xs[i], d'.xs[i]))
    && (forall i :: |d.xs| <= i < |d'.xs| ==> d'.xs[i].Hooks?)
  }

  predicate SameEvents(owner: Owner, hosting: set<string>, ps: seq<Property>, ps': seq<Property>) {
    && |ps| <= |ps'|
    && forall i :: 0 <= i < |ps| ==> SameForeign(owner, hosting, ps[i], ps'[i])
  }

  /**
   Everything in `d` but the handlers owned for their events is in `d'`, verbatim and in order:
   the members, the events with what stands around them, the foreign handlers of each group, and
   the whole groups that are not owned and not for a matcher in `hosting`.
   */
  predicate Keeps(owner: Owner, hosting: set<string>, d: Document, d': Document) {
    SameRoot(d, d') && SameEvents(owner, hosting, Props(d), Props(d'))
  }

  /** Each event has exactly the desired handler as its owned one, and no desired event is missing. */
  ghost predicate Installed(m: seq<Desired>, owner: Owner, ps: seq<Property>) {
    && (forall i :: 0 <= i < |ps| ==> InstalledAt(m, owner, ps[i]))
    && (forall k :: 0 <= k < |m| ==> HasEvent(ps, m[k].event))
  }

  predicate InstalledAt(m: seq<Desired>, owner: Owner, p: Property) {
    p.Events? ==> OwnedHandlers(p.name, owner, p.groups) == DesiredOwned(Find(m, p.name))
  }

  predicate HasEvent(ps: seq<Property>, event: string) {
    exists i :: 0 <= i < |ps| && ps[i].Events? && ps[i].name == event
  }

  lemma {:induction false} OnePatchedProperty(m: seq<Desired>, owner: Owner, hosting: set<string>, src: string, base: nat, l: List, ps: seq<Property>, i: nat)
    requires PropertiesStand(src, base, l, ps) && i < |ps| && WfDesiredMap(m, owner) && Matchers(m) <= hosting
    ensures var p := PatchedProperty(m, owner, src, base, l, ps, i);
      SameForeign(owner, hosting, ps[i], p) && InstalledAt(m, owner, p) && TidyProperty(m, owner, p)
  {
    hide Stands, WfBody, PatchedArray, PropertyText, ForeignView, OwnedHandlers, Tidy, Keep, WfGroup, Host, Untouchable,
      Sublist, Touched, FinalGroups, Matchers;
    EachWf(l, ps, i);
    if ps[i].Events? {
      var p, at := ps[i], ArrayBase(base, l, ps, i);
      ArrayStands(src, base, l, ps, i);
      FoundIsWf(m, owner, p.name);
      EachGroupWf(p.l, p.groups);
      var entry := Find(m, p.name);
      var lead := HostLead(src, at, p.l, p.groups, Host(entry, p.groups));
      PatchMeans(p.name, entry, owner, p.groups, lead);
      FoundMatcher(m, p.name);
      UntouchableStay(p.name, entry, owner, hosting, p.groups, lead);
      FinalIsTidy(p.name, entry, owner, p.groups, lead);
    }
  }

  lemma {:induction false} EachGroupWf(l: List, groups: seq<Group>)
    requires Holding(l, groups)
    ensures forall k :: 0 <= k < |groups| ==> WfGroup(groups[k])
  {
  }

  predicate TidyProperty(m: seq<Desired>, owner: Owner, p: Property) {
    p.Events? ==> Tidy(p.name, Find(m, p.name), owner, p.groups, false)
  }

  lemma {:induction false} FinalIsTidy(event: string, entry: Option<Entry>, owner: Owner, groups: seq<Group>, lead: string)
    requires AllWs(lead) && WfDesired(entry) && Recognised(event, owner, entry)
    requires forall k :: 0 <= k < |groups| ==> WfGroup(groups[k])
    ensures Tidy(event, entry, owner, FinalGroups(event, entry, owner, groups, lead), false)
  {
    hide Tidy, Host, WfGroup;
    KeptAreTidy(event, entry, owner, groups, lead, 0);
  }

  lemma {:induction false} OneNewProperty(m: seq<Desired>, owner: Owner, d: Desired)
    requires Increasing(m) && d in m && WfDesiredMap(m, owner)
    ensures var p := NewProperty(d);
      InstalledAt(m, owner, p) && TidyProperty(m, owner, p) && ForeignView(p.name, owner, p.groups) == []
  {
    hide ForeignIn, OwnedInGroup, ForeignView, OwnedHandlers, Tidy, NewGroup, WfEntry, DesiredOwned, Find, Increasing;
    var k :| 0 <= k < |m| && m[k] == d;
    FindMember(m, k);
    NoGroups(d.event, owner);
    NewGroupMeans(d.event, owner, d.entry);
    OneMoreGroup(d.event, owner, [], NewGroup(d.entry));
    assert [] + [NewGroup(d.entry)] == [NewGroup(d.entry)];
    LastIsTidy(d.event, Some(d.entry), owner, None);
  }

  /** The events after the patch. */
  lemma {:induction false} FinalPropertiesMean(m: seq<Desired>, owner: Owner, hosting: set<string>, src: string, base: nat, l: List, ps: seq<Property>)
    requires PropertiesStand(src, base, l, ps) && WfDesiredMap(m, owner) && Increasing(m) && !AnyOpaque(m, ps) && Matchers(m) <= hosting
    ensures var ps' := FinalProperties(m, owner, src, base, l, ps);
      && SameEvents(owner, hosting, ps, ps')
      && Installed(m, owner, ps')
      && (forall i :: 0 <= i < |ps'| ==> TidyProperty(m, owner, ps'[i]))
      && !AnyOpaque(m, ps')
  {
    hide Stands, HoldingProperties, PatchedProperty, SameForeign, InstalledAt, TidyProperty, PropertyNodes, Missing, WfDesiredMap, Increasing;
    var ps', missing := FinalProperties(m, owner, src, base, l, ps), Missing(m, PropertyNodes(base, l, ps, owner));
    forall i | 0 <= i < |ps'|
      ensures InstalledAt(m, owner, ps'[i]) && TidyProperty(m, owner, ps'[i])
      ensures i < |ps| ==> SameForeign(owner, hosting, ps[i], ps'[i]) && (ps'[i].Opaque? ==> ps'[i] == ps[i])
      ensures |ps| <= i ==> ps'[i].Events?
    {
      if i < |ps| {
        OnePatchedProperty(m, owner, hosting, src, base, l, ps, i);
        OpaqueStays(owner, hosting, ps[i], ps'[i]);
      } else {
        MissingAreDesired(m, PropertyNodes(base, l, ps, owner), missing[i - |ps|]);
        OneNewProperty(m, owner, missing[i - |ps|]);
      }
    }
    forall k | 0 <= k < |m| ensures HasEvent(ps', m[k].event) {
      EventThere(m, owner, src, base, l, ps, k);
    }
  }

  lemma {:induction false} OpaqueStays(owner: Owner, hosting: set<string>, p: Property, p': Property)
    requires SameForeign(owner, hosting, p, p')
    ensures (p.Opaque? <==> p'.Opaque?) && p'.name == p.name && (p'.Opaque? ==> p' == p)
  {
  }

  lemma {:induction false} EventThere(m: seq<Desired>, owner: Owner, src: string, base: nat, l: List, ps: seq<Property>, k: nat)
    requires PropertiesStand(src, base, l, ps) && WfDesiredMap(m, owner) && k < |m|
    ensures HasEvent(FinalProperties(m, owner, src, base, l, ps), m[k].event)
  {
    hide Stands, HoldingProperties, SameForeign, Missing, WfDesiredMap, PatchedArray, FinalGroups, EventNodeAt, PropertyText;
    var nodes, ps' := PropertyNodes(base, l, ps, owner), FinalProperties(m, owner, src, base, l, ps);
    var missing := Missing(m, nodes);
    MissingAreDesired(m, nodes, m[k]);
    if Handled(nodes, m[k].event) {
      var i :| 0 <= i < |nodes| && nodes[i].value.Groups? && nodes[i].name == m[k].event;
      assert ps'[i] == PatchedProperty(m, owner, src, base, l, ps, i);
    } else {
      var j :| 0 <= j < |missing| && missing[j] == m[k];
      assert ps'[|ps| + j] == NewProperty(m[k]);
    }
  }

  lemma {:induction false} NewPropertiesMean(m: seq<Desired>, owner: Owner)
    requires WfDesiredMap(m, owner) && Increasing(m)
    ensures Installed(m, owner, NewProperties(m))
    ensures forall i :: 0 <= i < |m| ==> TidyProperty(m, owner, NewProperties(m)[i]) && NewProperties(m)[i].Events?
  {
    hide InstalledAt, TidyProperty, WfDesiredMap, Increasing;
    var ps := NewProperties(m);
    forall i | 0 <= i < |m| ensures InstalledAt(m, owner, ps[i]) && TidyProperty(m, owner, ps[i]) && HasEvent(ps, m[i].event) {
      OneNewProperty(m, owner, m[i]);
      assert ps[i].name == m[i].event;
    }
  }

  /** The events of the patched document. */
  lemma {:induction false} PatchedProps(m: seq<Desired>, owner: Owner, d: Document)
    requires WfDocument(d) && WfDesiredMap(m, owner) && Obstacle(m, owner, d).None?
    ensures d.Scalar? ==> Props(PatchedDocument(m, owner, d)) == NewProperties(m) || (m == [] && Props(PatchedDocument(m, owner, d)) == [])
    ensures d.Rooted? && HooksAt(d.xs).None? ==> Props(PatchedDocument(m, owner, d)) == NewProperties(m) && Props(d) == []
    ensures d.Rooted? && HooksAt(d.xs).Some? ==>
      var h, base := HooksAt(d.xs).value, |d.prefix| + |d.before|;
      && h < |d.xs| && d.xs[h].Hooks? && Props(d) == d.xs[h].ps && !AnyOpaque(m, Props(d))
      && |d.xs| == |d.l.cells|
      && PropertiesStand(DocumentText(d), HooksBase(base, d.l, d.xs, h), d.xs[h].l, d.xs[h].ps)
      && Props(PatchedDocument(m, owner, d)) == FinalProperties(m, owner, DocumentText(d), HooksBase(base, d.l, d.xs, h), d.xs[h].l, d.xs[h].ps)
  {
    hide Stands, HoldingMembers, Enclosed, PatchedRoot, HooksAt, PatchedProperties, Missing, PropertyNodes, AnyOpaque, WfDesiredMap, NewProperties,
      DocumentText, HoldingProperties, PatchedHooks, NewHooksText;
    if d.Scalar? {
      FreshHooksAt(m, d.text);
    } else {
      RootStands(d);
      var src, base := DocumentText(d), |d.prefix| + |d.before|;
      MembersCount(d.l, d.xs);
      PatchedHooksAt(m, owner, src, base, d.l, d.xs);
      if HooksAt(d.xs).Some? {
        HooksStand(src, base, d.l, d.xs, HooksAt(d.xs).value);
      }
    }
  }

  // ---- the main results for a document -----------------------------------------------------------------

  /**
   A patch that does not fail gives a document in which everything foreign is as it was, every
   event holds exactly the desired handler as its owned one, and no desired event is missing.
   */
  lemma {:induction false} PatchKeeps(m: seq<Desired>, owner: Owner, hosting: set<string>, d: Document)
    requires WfDocument(d) && WfDesiredMap(m, owner) && Increasing(m) && Obstacle(m, owner, d).None? && Matchers(m) <= hosting
    ensures var d' := PatchedDocument(m, owner, d);
      && WfDocument(d') && DocumentText(d') == PatchedText(m, owner, d)
      && (d.Rooted? ==> Keeps(owner, hosting, d, d'))
      && Installed(m, owner, Props(d'))
      && (forall i :: 0 <= i < |Props(d')| ==> TidyProperty(m, owner, Props(d')[i]))
      && !AnyOpaque(m, Props(d'))
  {
    hide Stands, HoldingMembers, Enclosed, PatchedRoot, HooksAt, WfDesiredMap, NewProperties, DocumentText, HoldingProperties, PatchedText,
      SameForeign, TidyProperty, Obstacle, FinalProperties, Props, PatchedDocument, WfDocument, InstalledAt, Increasing;
    PatchedDocumentIs(m, owner, d);
    PatchedProps(m, owner, d);
    NewPropertiesMean(m, owner);
    if d.Rooted? {
      if HooksAt(d.xs).Some? {
        var h, base := HooksAt(d.xs).value, |d.prefix| + |d.before|;
        FinalPropertiesMean(m, owner, hosting, DocumentText(d), HooksBase(base, d.l, d.xs, h), d.xs[h].l, d.xs[h].ps);
      }
      PatchedSameRoot(m, owner, d);
    }
  }

  lemma {:induction false} PatchedSameRoot(m: seq<Desired>, owner: Owner, d: Document)
    requires WfDocument(d) && WfDesiredMap(m, owner) && d.Rooted?
    ensures SameRoot(d, PatchedDocument(m, owner, d))
  {
    hide Stands, HoldingMembers, Enclosed, PatchedRoot, HooksAt, WfDesiredMap, HoldingProperties, PatchedHooks, PatchedProperties, Missing, NewHooksText;
    RootStands(d);
    MembersCount(d.l, d.xs);
  }

  lemma {:induction false} KeepsTrans(owner: Owner, hosting: set<string>, a: Document, b: Document, c: Document)
    requires Keeps(owner, hosting, a, b) && Keeps(owner, hosting, b, c)
    ensures Keeps(owner, hosting, a, c)
  {
    hide SameForeign, Props;
    forall i | 0 <= i < |Props(a)| ensures SameForeign(owner, hosting, Props(a)[i], Props(c)[i]) {
      assert SameForeign(owner, hosting, Props(a)[i], Props(b)[i]);
      assert SameForeign(owner, hosting, Props(b)[i], Props(c)[i]);
      SameForeignTrans(owner, hosting, Props(a)[i], Props(b)[i], Props(c)[i]);
    }
    forall i | 0 <= i < |a.xs| ensures SameMember(a.xs[i], c.xs[i]) {
      assert SameMember(a.xs[i], b.xs[i]);
    }
    forall i | |a.xs| <= i < |c.xs| ensures c.xs[i].Hooks? {
      assert i < |b.xs| ==> SameMember(b.xs[i], c.xs[i]);
    }
  }

  lemma {:induction false} SameForeignTrans(owner: Owner, hosting: set<string>, p: Property, q: Property, r: Property)
    requires SameForeign(owner, hosting, p, q) && SameForeign(owner, hosting, q, r)
    ensures SameForeign(owner, hosting, p, r)
  {
    hide ForeignView, Untouchable, Sublist;
    if p.Events? {
      SublistTrans(Untouchable(p.name, owner, hosting, p.groups), Untouchable(p.name, owner, hosting, q.groups), Untouchable(p.name, owner, hosting, r.groups));
    }
  }

  /** One successful patch, with whatever desired entries for matchers in `hosting`. */
  ghost predicate PatchStep(owner: Owner, hosting: set<string>, d: Document, d': Document) {
    exists m :: WfDesiredMap(m, owner) && Increasing(m) && Matchers(m) <= hosting && PatchesTo(m, owner, d, d')
  }

  ghost predicate PatchesTo(m: seq<Desired>, owner: Owner, d: Document, d': Document) {
    WfDocument(d) && Obstacle(m, owner, d).None? && d' == PatchedDocument(m, owner, d)
  }

  lemma {:induction false} KeepsItself(owner: Owner, hosting: set<string>, d: Document)
    requires d.Rooted?
    ensures Keeps(owner, hosting, d, d)
  {
    hide ForeignView, Untouchable, Sublist, Props;
    forall i | 0 <= i < |Props(d)| && Props(d)[i].Events? ensures SameForeign(owner, hosting, Props(d)[i], Props(d)[i]) {
      SublistItself(Untouchable(Props(d)[i].name, owner, hosting, Props(d)[i].groups));
    }
  }

  /** Any number of successful patches leave everything foreign as it was. */
  lemma {:induction false} ManyPatchesKeep(owner: Owner, hosting: set<string>, ds: seq<Document>)
    requires ds != [] && ds[0].Rooted?
    requires forall k :: 0 < k < |ds| ==> PatchStep(owner, hosting, ds[k - 1], ds[k])
    ensures Keeps(owner, hosting, ds[0], ds[|ds| - 1])
    decreases |ds|
  {
    hide Keeps, Obstacle, PatchedDocument, WfDocument, Increasing, WfDesiredMap, Matchers;
    var n := |ds|;
    if n == 1 {
      KeepsItself(owner, hosting, ds[0]);
    } else {
      ManyPatchesKeep(owner, hosting, ds[..n - 1]);
      assert PatchStep(owner, hosting, ds[n - 2], ds[n - 1]);
      var m :| WfDesiredMap(m, owner) && Increasing(m) && Matchers(m) <= hosting && PatchesTo(m, owner, ds[n - 2], ds[n - 1]);
      RootedStays(owner, hosting, ds[0], ds[n - 2]);
      PatchKeeps(m, owner, hosting, ds[n - 2]);
      KeepsTrans(owner, hosting, ds[0], ds[n - 2], ds[n - 1]);
    }
  }

  lemma {:induction false} RootedStays(owner: Owner, hosting: set<string>, d: Document, d': Document)
    requires Keeps(owner, hosting, d, d')
    ensures d'.Rooted?
  {
  }

  // ---- patching again -------------------------------------------------------------------------------------

  /** Two events that a reader cannot tell apart, white space between elements aside. */
  predicate SameView(p: Property, p': Property) {
    if p.Opaque? then p' == p
    else p'.Events? && p'.name == p.name && p'.before == p.before && p'.after == p.after && Views(p'.groups) == Views(p.groups)
  }

  lemma {:induction false} TidyIsPatchable(m: seq<Desired>, owner: Owner, p: Property)
    requires WfProperty(p) && TidyProperty(m, owner, p) && WfDesiredMap(m, owner)
    ensures !UnpatchableAt(m, owner, p)
  {
    hide Tidy, Host, GroupText, WfGroup, Views, Going;
    if p.Events? {
      FoundIsWf(m, owner, p.name);
      EachGroupWf(p.l, p.groups);
      TidyStays(p.name, Find(m, p.name), owner, p.groups, "");
    }
  }

  lemma {:induction false} TidyPropertyStays(m: seq<Desired>, owner: Owner, src: string, base: nat, l: List, ps: seq<Property>, i: nat)
    requires PropertiesStand(src, base, l, ps) && i < |ps| && WfDesiredMap(m, owner) && TidyProperty(m, owner, ps[i])
    ensures SameView(ps[i], PatchedProperty(m, owner, src, base, l, ps, i))
  {
    hide Stands, WfBody, PatchedArray, PropertyText, Tidy, WfGroup, Host, Views, FinalGroups;
    EachWf(l, ps, i);
    if ps[i].Events? {
      var p, at := ps[i], ArrayBase(base, l, ps, i);
      ArrayStands(src, base, l, ps, i);
      FoundIsWf(m, owner, p.name);
      EachGroupWf(p.l, p.groups);
      var entry := Find(m, p.name);
      TidyStays(p.name, entry, owner, p.groups, HostLead(src, at, p.l, p.groups, Host(entry, p.groups)));
    }
  }

  /** With every desired event there, no event is missing. */
  lemma {:induction false} NoneMissing(m: seq<Desired>, base: nat, l: List, ps: seq<Property>, owner: Owner)
    requires HoldingProperties(l, ps) && forall k :: 0 <= k < |m| ==> HasEvent(ps, m[k].event)
    ensures Missing(m, PropertyNodes(base, l, ps, owner)) == []
  {
    hide PropertyText, WfProperty, Missing;
    var nodes := PropertyNodes(base, l, ps, owner);
    var missing := Missing(m, nodes);
    forall d | d in m ensures Handled(nodes, d.event) {
      var k :| 0 <= k < |m| && m[k] == d;
      assert HasEvent(ps, m[k].event);
      var i :| 0 <= i < |ps| && ps[i].Events? && ps[i].name == m[k].event;
      EachWf(l, ps, i);
      assert nodes[i].value.Groups? && nodes[i].name == m[k].event;
    }
    if missing != [] {
      MissingAreDesired(m, nodes, missing[0]);
    }
  }

  /** The events of a document that a patch has been through. */
  ghost predicate Settled(m: seq<Desired>, owner: Owner, d: Document) {
    && d.Rooted? && HooksAt(d.xs).Some? && HooksAt(d.xs).value < |d.xs| && d.xs[HooksAt(d.xs).value].Hooks?
    && !AnyOpaque(m, Props(d))
    && (forall i :: 0 <= i < |Props(d)| ==> TidyProperty(m, owner, Props(d)[i]))
    && (forall k :: 0 <= k < |m| ==> HasEvent(Props(d), m[k].event))
  }

  lemma {:induction false} SettledStays(m: seq<Desired>, owner: Owner, d: Document)
    requires WfDocument(d) && WfDesiredMap(m, owner) && Settled(m, owner, d)
    ensures Obstacle(m, owner, d).None?
    ensures var ps, ps' := Props(d), Props(PatchedDocument(m, owner, d));
      |ps'| == |ps| && forall i :: 0 <= i < |ps| ==> SameView(ps[i], ps'[i])
  {
    hide Stands, HoldingMembers, HooksAt, AnyOpaque, DocumentText, HoldingProperties, TidyProperty, WfDesiredMap, PatchedProperty, SameView, HasEvent,
      UnpatchableAt, WfProperty, PropertyNodes, Missing, PatchedDocument;
    var h, base := HooksAt(d.xs).value, |d.prefix| + |d.before|;
    var x := d.xs[h];
    HooksWf(d, h);
    forall i | 0 <= i < |x.ps| ensures !UnpatchableAt(m, owner, x.ps[i]) {
      EachWf(x.l, x.ps, i);
      TidyIsPatchable(m, owner, x.ps[i]);
    }
    PatchedProps(m, owner, d);
    var src, at := DocumentText(d), HooksBase(base, d.l, d.xs, h);
    NoneMissing(m, at, x.l, x.ps, owner);
    forall i | 0 <= i < |x.ps| ensures SameView(x.ps[i], PatchedProperty(m, owner, src, at, x.l, x.ps, i)) {
      TidyPropertyStays(m, owner, src, at, x.l, x.ps, i);
    }
  }

  lemma {:induction false} HooksWf(d: Document, h: nat)
    requires WfDocument(d) && d.Rooted? && h < |d.xs| && d.xs[h].Hooks?
    ensures HoldingProperties(d.xs[h].l, d.xs[h].ps)
  {
    hide HooksAt, MemberText;
    assert WfMember(d.xs[h]);
  }

  /**
   Patching the patched document again with the same entries cannot fail, and no reader sees a
   difference: the events, their groups and their handlers are the same.
   */
  lemma {:induction false} RepatchSettles(m: seq<Desired>, owner: Owner, d: Document)
    requires WfDocument(d) && WfDesiredMap(m, owner) && Increasing(m) && Obstacle(m, owner, d).None?
    ensures var d' := PatchedDocument(m, owner, d);
      && WfDocument(d')
      && Obstacle(m, owner, d').None?
      && var ps, ps' := Props(d'), Props(PatchedDocument(m, owner, d'));
        |ps'| == |ps| && forall i :: 0 <= i < |ps| ==> SameView(ps[i], ps'[i])
  {
    hide Stands, HoldingMembers, AnyOpaque, DocumentText, HoldingProperties, TidyProperty, WfDesiredMap, SameView, HasEvent, HooksAt,
      Obstacle, PatchedDocument, Keeps, Increasing, Props, InstalledAt, WfDocument, PatchedText;
    var d' := PatchedDocument(m, owner, d);
    PatchKeeps(m, owner, Matchers(m), d);
    if d.Rooted? || m != [] {
      PatchedIsHooked(m, owner, d);
      SettledStays(m, owner, d');
    } else {
      FreshIsUnhooked(m, owner, d);
      PatchedProps(m, owner, d');
    }
  }

  /** A document written for no entries has no `hooks` member, so it can always be patched. */
  lemma {:induction false} FreshIsUnhooked(m: seq<Desired>, owner: Owner, d: Document)
    requires WfDocument(d) && WfDesiredMap(m, owner) && d.Scalar? && m == []
    ensures var d' := PatchedDocument(m, owner, d);
      d'.Rooted? && HooksAt(d'.xs).None? && WfDocument(d') && Obstacle(m, owner, d').None?
    ensures |NewProperties(m)| == 0
  {
    hide HooksAt, WfDocument;
    FreshHooksAt(m, d.text);
    PatchedDocumentIs(m, owner, d);
  }

  lemma {:induction false} PatchedIsHooked(m: seq<Desired>, owner: Owner, d: Document)
    requires WfDocument(d) && WfDesiredMap(m, owner) && Obstacle(m, owner, d).None? && (d.Rooted? || m != [])
    ensures var d' := PatchedDocument(m, owner, d);
      d'.Rooted? && HooksAt(d'.xs).Some? && HooksAt(d'.xs).value < |d'.xs| && d'.xs[HooksAt(d'.xs).value].Hooks?
  {
    hide Stands, HoldingMembers, Enclosed, PatchedRoot, HooksAt, WfDesiredMap, HoldingProperties, PatchedHooks, PatchedProperties, Missing, NewHooksText;
    if d.Scalar? {
      FreshHooksAt(m, d.text);
    } else {
      RootStands(d);
      MembersCount(d.l, d.xs);
      PatchedHooksAt(m, owner, DocumentText(d), |d.prefix| + |d.before|, d.l, d.xs);
    }
  }

  // ---- byte for byte ----------------------------------------------------------------------------------------

  /** The desired handler already is the only one of the group that hosts it. */
  predicate Alone(m: seq<Desired>, p: Property) {
    p.Events? ==>
      var entry := Find(m, p.name);
      Host(entry, p.groups).Some? && Host(entry, p.groups).value < |p.groups| && p.groups[Host(entry, p.groups).value].Hooked? && entry.Some? ==>
        Bodies(p.groups[Host(entry, p.groups).value].handlers.cells) == [entry.value.handler]
  }

  lemma {:induction false} UnchangedProperty(m: seq<Desired>, owner: Owner, src: string, base: nat, l: List, ps: seq<Property>, i: nat)
    requires PropertiesStand(src, base, l, ps) && i < |ps| && WfDesiredMap(m, owner) && TidyProperty(m, owner, ps[i]) && Alone(m, ps[i])
    ensures PropertyText(PatchedProperty(m, owner, src, base, l, ps, i)) == l.cells[i].body
  {
    hide Stands, WfBody, PatchedArray, Tidy, WfGroup, Host, FinalGroups, Enclosed, Holding;
    EachWf(l, ps, i);
    if ps[i].Events? {
      var p, at := ps[i], ArrayBase(base, l, ps, i);
      ArrayStands(src, base, l, ps, i);
      FoundIsWf(m, owner, p.name);
      HostIsHooked(Find(m, p.name), p.groups);
      UnchangedArray(src, p.name, Find(m, p.name), owner, at, p.l, p.groups);
    }
  }

  lemma {:induction false} SameBodies(l: List, bodies: seq<string>)
    requires |bodies| == |l.cells| && forall i :: 0 <= i < |bodies| ==> bodies[i] == l.cells[i].body
    ensures Rebodied(l, bodies) == l
  {
    assert Rebodied(l, bodies).cells == l.cells;
  }

  lemma {:induction false} UnchangedHooks(m: seq<Desired>, owner: Owner, src: string, base: nat, l: List, ps: seq<Property>)
    requires PropertiesStand(src, base, l, ps) && WfDesiredMap(m, owner)
    requires forall i :: 0 <= i < |ps| ==> TidyProperty(m, owner, ps[i]) && Alone(m, ps[i])
    requires forall k :: 0 <= k < |m| ==> HasEvent(ps, m[k].event)
    ensures PatchedHooks(m, owner, src, base, l, ps) == l
  {
    hide Stands, HoldingProperties, PropertyText, PatchedProperty, Missing, PropertyNodes, TidyProperty, Alone, HasEvent, WfDesiredMap, AddLead;
    LengthsAgree(l, ps);
    NoneMissing(m, base, l, ps, owner);
    var bodies := TextsOf(PatchedProperties(m, owner, src, base, l, ps));
    forall i | 0 <= i < |ps| ensures bodies[i] == l.cells[i].body {
      UnchangedProperty(m, owner, src, base, l, ps, i);
    }
    SameBodies(l, bodies);
  }

  /**
   When every desired event already has its handler, in the serialised form and alone in its
   group, and no other handler is owned, patching returns the document byte for byte.
   */
  lemma {:induction false} UnchangedDocument(m: seq<Desired>, owner: Owner, d: Document)
    requires WfDocument(d) && WfDesiredMap(m, owner) && Settled(m, owner, d)
    requires forall i :: 0 <= i < |Props(d)| ==> Alone(m, Props(d)[i])
    ensures Obstacle(m, owner, d).None? && PatchedText(m, owner, d) == DocumentText(d)
  {
    hide Stands, HoldingMembers, HooksAt, AnyOpaque, DocumentText, HoldingProperties, TidyProperty, WfDesiredMap, HasEvent, Alone, Enclosed,
      PatchedHooks, PatchedRoot, PatchedProperties, Missing, PropertyNodes, Obstacle, PatchedDocument, PatchedText, Rebodied, AddLead, SameView, WfDocument,
      MembersStand, PropertiesStand, HooksBase, HooksNode, RootNode, FinalProperties;
    SettledStays(m, owner, d);
    PatchedProps(m, owner, d);
    RootStands(d);
    var src, h, base := DocumentText(d), HooksAt(d.xs).value, |d.prefix| + |d.before|;
    var x, at := d.xs[h], HooksBase(base, d.l, d.xs, h);
    UnchangedHooks(m, owner, src, at, x.l, x.ps);
    HooksValue(d, owner, h);
    UnchangedRoot(m, owner, src, base, d.l, d.xs, h);
    SameRootText(m, owner, d);
  }

  lemma {:induction false} UnchangedRoot(m: seq<Desired>, owner: Owner, src: string, base: nat, l: List, xs: seq<Member>, h: nat)
    requires MembersStand(src, base, l, xs) && HooksAt(xs) == Some(h) && h < |xs| && xs[h].Hooks?
    requires forall i :: 0 <= i < |xs| && xs[i].Hooks? ==> i == h
    requires PropertiesStand(src, HooksBase(base, l, xs, h), xs[h].l, xs[h].ps)
    requires PatchedHooks(m, owner, src, HooksBase(base, l, xs, h), xs[h].l, xs[h].ps) == xs[h].l
    ensures PatchedRoot(m, owner, src, base, l, xs) == l
  {
    hide Stands, HoldingMembers, HooksAt, HoldingProperties, Enclosed, PatchedHooks, PatchedProperties, Missing, PropertyNodes, Rebodied, AddLead,
      PatchedMember, MemberText;
    MembersCount(l, xs);
    var texts := MemberTexts(m, owner, src, base, l, xs);
    forall i | 0 <= i < |xs| ensures texts[i] == l.cells[i].body {
      UnchangedMember(m, owner, src, base, l, xs, i, h);
    }
    SameBodies(l, texts);
  }

  lemma {:induction false} UnchangedMember(m: seq<Desired>, owner: Owner, src: string, base: nat, l: List, xs: seq<Member>, i: nat, h: nat)
    requires MembersStand(src, base, l, xs) && i < |xs| && (xs[i].Hooks? ==> i == h)
    requires xs[i].Hooks? ==>
      PropertiesStand(src, HooksBase(base, l, xs, i), xs[i].l, xs[i].ps) &&
      PatchedHooks(m, owner, src, HooksBase(base, l, xs, i), xs[i].l, xs[i].ps) == xs[i].l
    ensures MemberText(PatchedMember(m, owner, src, base, l, xs, i)) == l.cells[i].body
  {
    hide Stands, Enclosed, PatchedHooks, PatchedProperties, Missing, PropertyNodes, WfMember;
  }

  /** Documents whose root object is the same have the same text. */
  lemma {:induction false} SameRootText(m: seq<Desired>, owner: Owner, d: Document)
    requires WfDocument(d) && d.Rooted?
    requires MembersStand(DocumentText(d), |d.prefix| + |d.before|, d.l, d.xs)
    requires PatchedRoot(m, owner, DocumentText(d), |d.prefix| + |d.before|, d.l, d.xs) == d.l
    ensures PatchedText(m, owner, d) == DocumentText(d)
  {
    hide PatchedRoot, MembersStand, Enclosed;
  }
}
