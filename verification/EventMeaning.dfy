/**
 What a patch means for the groups of an event: which handlers are there before and after it.
 */
module EventMeaning {
  import opened Outcomes
  import opened Flags
  import opened Splicing
  import opened JsonLayout
  import opened ListSplice
  import opened ListEditing
  import opened Nesting
  import opened EventPlan
  import opened HandlerPatch
  import opened EventText
  import opened EventSplice
  import opened Appending

  predicate WfEntry(entry: Entry) {
    WfBody(entry.before) && WfBody(entry.handler) && WfBody(entry.after)
  }

  ghost predicate WfDesired(entry: Option<Entry>) {
    entry.Some? ==> WfEntry(entry.value)
  }

  /** The desired handler is recognised as owned for its event. */
  ghost predicate Recognised(event: string, owner: Owner, entry: Option<Entry>) {
    entry.Some? ==> owner(entry.value.handler) == Some(event)
  }

  /** The group that the program writes for an entry. */
  function NewGroup(entry: Entry): Group {
    Hooked(entry.before, List([Cell("", entry.handler, "")], false, ""), entry.after, Some(WantedMatcher(Some(entry))))
  }

  lemma {:induction false} NewGroupText(entry: Entry)
    requires WfEntry(entry)
    ensures WfGroup(NewGroup(entry)) && GroupText(NewGroup(entry)) == entry.Group()
    ensures Bodies(NewGroup(entry).handlers.cells) == [entry.handler]
    ensures WfBody(entry.Group())
  {
    var g := NewGroup(entry);
    OneCell(g.handlers.cells[0], false);
    EmptyPlus(entry.handler);
    EnclosedWf(g.before, g.handlers, g.after);
  }

  // ---- the groups after the patch -------------------------------------------------------------

  /** The groups from `i` on that do not go. */
  function Keep(groups: seq<Group>, going: seq<bool>, i: nat): seq<Group>
    requires |going| == |groups| && i <= |groups|
    decreases |groups| - i
  {
    if i == |groups| then []
    else (if going[i] then [] else [groups[i]]) + Keep(groups, going, i + 1)
  }

  /** The groups of the patched array. */
  function FinalGroups(event: string, entry: Option<Entry>, owner: Owner, groups: seq<Group>, lead: string): seq<Group> {
    Keep(PatchedGroups(event, entry, owner, groups, lead), Going(event, owner, Host(entry, groups), groups), 0)
    + if NeedsGroup(entry, groups) then [NewGroup(entry.value)] else []
  }

  /** A group keeps what stands around its handlers, and its foreign handlers. */
  lemma {:induction false} PatchedGroupMeans(event: string, owner: Owner, g: Group, placed: Option<string>, lead: string)
    requires WfGroup(g) && AllWs(lead) && (placed.Some? ==> WfBody(placed.value))
    ensures WfGroup(PatchedGroup(event, owner, g, placed, lead))
    ensures g.Plain? ==> PatchedGroup(event, owner, g, placed, lead) == g
    ensures g.Hooked? ==> var g' := PatchedGroup(event, owner, g, placed, lead);
      && g'.Hooked? && g'.before == g.before && g'.after == g.after && g'.matcher == g.matcher
      && (placed.Some? || !Emptied(event, owner, g.handlers) ==>
            Bodies(g'.handlers.cells) == Foreign(event, owner, Bodies(g.handlers.cells)) + AsSeq(placed))
  {
    if g.Hooked? {
      PatchedBodies(event, owner, g.handlers, placed, lead);
    }
  }

  lemma {:induction false} SurvivorsAreKept(groups: seq<Group>, going: seq<bool>, i: nat)
    requires |going| == |groups| && i <= |groups|
    ensures Survivors(Texts(groups), Chosen(going), i) == Texts(Keep(groups, going, i))
    decreases |groups| - i
  {
    if i < |groups| {
      SurvivorsAreKept(groups, going, i + 1);
      if !going[i] {
        assert Texts([groups[i]] + Keep(groups, going, i + 1)) == [GroupText(groups[i])] + Texts(Keep(groups, going, i + 1));
      }
    }
  }

  lemma {:induction false} KeptAreAmong(groups: seq<Group>, going: seq<bool>, i: nat, g: Group)
    requires |going| == |groups| && i <= |groups|
    requires g in Keep(groups, going, i)
    ensures g in groups
    decreases |groups| - i
  {
    if going[i] || g != groups[i] {
      KeptAreAmong(groups, going, i + 1, g);
    }
  }

  lemma {:induction false} FinalGroupsWf(event: string, entry: Option<Entry>, owner: Owner, groups: seq<Group>, lead: string)
    requires AllWs(lead) && WfDesired(entry) && forall i :: 0 <= i < |groups| ==> WfGroup(groups[i])
    ensures forall g :: g in PatchedGroups(event, entry, owner, groups, lead) ==> WfGroup(g)
    ensures forall g :: g in FinalGroups(event, entry, owner, groups, lead) ==> WfGroup(g)
  {
    var patched, going := PatchedGroups(event, entry, owner, groups, lead), Going(event, owner, Host(entry, groups), groups);
    forall g | g in patched ensures WfGroup(g) {
      var i :| 0 <= i < |patched| && patched[i] == g;
      PatchedGroupMeans(event, owner, groups[i], PlacedIn(entry, Host(entry, groups), i), lead);
    }
    forall g | g in FinalGroups(event, entry, owner, groups, lead) ensures WfGroup(g) {
      if g in Keep(patched, going, 0) {
        KeptAreAmong(patched, going, 0, g);
      } else {
        NewGroupText(entry.value);
      }
    }
  }

  lemma {:induction false} TextsWf(groups: seq<Group>)
    requires forall g :: g in groups ==> WfGroup(g)
    ensures forall i :: 0 <= i < |groups| ==> WfBody(Texts(groups)[i])
  {
    forall i | 0 <= i < |groups| ensures WfBody(Texts(groups)[i]) {
      var g := groups[i];
      assert g in groups;
      if g.Hooked? {
        EnclosedWf(g.before, g.handlers, g.after);
      }
    }
  }

  lemma {:induction false} HoldingTexts(l: List, groups: seq<Group>)
    requires Bodies(l.cells) == Texts(groups) && forall g :: g in groups ==> WfGroup(g)
    ensures Holding(l, groups)
  {
    BodiesAt(l.cells, 0);
    forall i | 0 <= i < |groups| ensures WfGroup(groups[i]) && l.cells[i].body == GroupText(groups[i]) {
      BodiesAt(l.cells, i);
      assert groups[i] in groups;
    }
  }

  /** The patched array is again an array of groups: those that stay, patched, and the new one. */
  lemma {:induction false} PatchedArrayHolds(src: string, event: string, entry: Option<Entry>, owner: Owner, base: nat, l: List, groups: seq<Group>)
    requires EventStands(src, base, l, groups) && WfDesired(entry)
    ensures WfList(PatchedArray(event, entry, owner, src, base, l, groups))
    ensures Holding(PatchedArray(event, entry, owner, src, base, l, groups),
      FinalGroups(event, entry, owner, groups, HostLead(src, base, l, groups, Host(entry, groups))))
  {
    hide Stands, Host, Going, GroupText, PatchedGroup, Keep, Splice, WfBody;
    var host := Host(entry, groups);
    var lead, going := HostLead(src, base, l, groups, host), Going(event, owner, host, groups);
    var patched := PatchedGroups(event, entry, owner, groups, lead);
    var bodies := Texts(patched);
    FinalGroupsWf(event, entry, owner, groups, lead);
    TextsWf(patched);
    SurvivorsAreKept(patched, going, 0);
    SurvivorsEmpty(bodies, Chosen(going), 0);
    AllChosen(going);
    ArrayIsList(src, event, entry, owner, base, l, groups);
    var final := FinalGroups(event, entry, owner, groups, lead);
    if NeedsGroup(entry, groups) {
      NewGroupText(entry.value);
      assert Texts(Keep(patched, going, 0) + [NewGroup(entry.value)]) == Texts(Keep(patched, going, 0)) + [entry.value.Group()];
    }
    HoldingTexts(PatchedArray(event, entry, owner, src, base, l, groups), final);
  }

  lemma {:induction false} ArrayIsList(src: string, event: string, entry: Option<Entry>, owner: Owner, base: nat, l: List, groups: seq<Group>)
    requires EventStands(src, base, l, groups) && WfDesired(entry)
    ensures var going := Going(event, owner, Host(entry, groups), groups);
      var bodies := Texts(PatchedGroups(event, entry, owner, groups, HostLead(src, base, l, groups, Host(entry, groups))));
      && WfList(PatchedArray(event, entry, owner, src, base, l, groups))
      && Bodies(PatchedArray(event, entry, owner, src, base, l, groups).cells)
         == Survivors(bodies, Chosen(going), 0) + if NeedsGroup(entry, groups) then [entry.value.Group()] else []
  {
    hide Host, Going, GroupText, PatchedGroup, Keep, WfBody, Splice;
    var host := Host(entry, groups);
    var lead, going := HostLead(src, base, l, groups, host), Going(event, owner, host, groups);
    var patched := PatchedGroups(event, entry, owner, groups, lead);
    var bodies, kill := Texts(patched), Chosen(going);
    FinalGroupsWf(event, entry, owner, groups, lead);
    TextsWf(patched);
    SurvivorsEmpty(bodies, kill, 0);
    AllChosen(going);
    SplicedListWf(l, bodies, kill, Nothing);
    if NeedsGroup(entry, groups) {
      NewGroupText(entry.value);
      if AllTrue(going) {
        OneCell(Cell("", entry.value.Group(), SpliceList(l, bodies, kill, Nothing).tail), false);
      } else {
        SplicedListWf(l, bodies, kill, AppendPlacement(src, base, l, entry.value));
      }
    }
  }

  // ---- the handlers before and after -----------------------------------------------------------

  /** The handlers that are owned for the event, in order. */
  function OwnedOf(event: string, owner: Owner, bodies: seq<string>): seq<string> {
    if bodies == [] then []
    else OneOwned(event, owner, bodies[0]) + OwnedOf(event, owner, bodies[1..])
  }

  function OneOwned(event: string, owner: Owner, body: string): seq<string> {
    if owner(body) == Some(event) then [body] else []
  }

  lemma {:induction false} SplitBodies(event: string, owner: Owner, a: seq<string>, b: seq<string>)
    ensures Foreign(event, owner, a + b) == Foreign(event, owner, a) + Foreign(event, owner, b)
    ensures OwnedOf(event, owner, a + b) == OwnedOf(event, owner, a) + OwnedOf(event, owner, b)
  {
    if a == [] {
      assert a + b == b;
    } else {
      assert (a + b)[1..] == a[1..] + b && (a + b)[0] == a[0];
      SplitBodies(event, owner, a[1..], b);
      var head, kept := OneForeign(event, owner, a[0]), Foreign(event, owner, b);
      SeqAssoc(head, Foreign(event, owner, a[1..]), kept);
      SeqAssoc(OneOwned(event, owner, a[0]), OwnedOf(event, owner, a[1..]), OwnedOf(event, owner, b));
    }
  }

  lemma {:induction false} ForeignStaysForeign(event: string, owner: Owner, a: seq<string>)
    ensures Foreign(event, owner, Foreign(event, owner, a)) == Foreign(event, owner, a)
    ensures OwnedOf(event, owner, Foreign(event, owner, a)) == []
  {
    if a != [] {
      ForeignStaysForeign(event, owner, a[1..]);
      var rest := Foreign(event, owner, a[1..]);
      assert ([a[0]] + rest)[1..] == rest;
      assert [] + rest == rest;
    }
  }

  lemma {:induction false} OneBody(event: string, owner: Owner, a: string)
    ensures Foreign(event, owner, [a]) == if owner(a) == Some(event) then [] else [a]
    ensures OwnedOf(event, owner, [a]) == if owner(a) == Some(event) then [a] else []
  {
    assert [a][1..] == [];
  }

  /** After a patch, a group has the same foreign handlers, and the placed handler is its only owned one. */
  lemma {:induction false} PatchedHandlersMean(event: string, owner: Owner, bodies: seq<string>, placed: Option<string>)
    requires placed.Some? ==> owner(placed.value) == Some(event)
    ensures Foreign(event, owner, Foreign(event, owner, bodies) + AsSeq(placed)) == Foreign(event, owner, bodies)
    ensures OwnedOf(event, owner, Foreign(event, owner, bodies) + AsSeq(placed)) == AsSeq(placed)
  {
    var foreign := Foreign(event, owner, bodies);
    SplitBodies(event, owner, foreign, AsSeq(placed));
    ForeignStaysForeign(event, owner, bodies);
    if placed.Some? {
      OneBody(event, owner, placed.value);
    }
  }

  /** A group with handlers is emptied exactly when none of them is foreign. */
  lemma {:induction false} EmptiedMeans(event: string, owner: Owner, h: List, i: nat)
    requires i <= |h.cells|
    ensures |Bodies(h.cells)| == |h.cells|
    ensures Foreign(event, owner, Bodies(h.cells)[i..]) == [] <==> forall k :: i <= k < |h.cells| ==> HandlerFlags(event, owner, h.cells)[k]
    decreases |h.cells| - i
  {
    hide Bodies;
    BodiesAt(h.cells, i);
    if i < |h.cells| {
      EmptiedMeans(event, owner, h, i + 1);
      var bodies, flags := Bodies(h.cells), HandlerFlags(event, owner, h.cells);
      assert bodies[i..][1..] == bodies[i + 1..] && bodies[i..][0] == bodies[i];
      assert (forall k :: i <= k < |flags| ==> flags[k]) <==> flags[i] && forall k :: i + 1 <= k < |flags| ==> flags[k];
    }
  }

  lemma {:induction false} EmptiedIff(event: string, owner: Owner, h: List)
    ensures Emptied(event, owner, h) <==> h.cells != [] && Foreign(event, owner, Bodies(h.cells)) == []
  {
    EmptiedMeans(event, owner, h, 0);
    assert Bodies(h.cells)[0..] == Bodies(h.cells);
  }

  /** What a patch must not touch in a group: everything but the event's owned handlers. */
  datatype View = Text(text: string) | Handlers(before: string, bodies: seq<string>, after: string, matcher: Option<string>)

  function ForeignIn(event: string, owner: Owner, g: Group): seq<View> {
    if g.Plain? then [Text(g.text)]
    else
      var foreign := Foreign(event, owner, Bodies(g.handlers.cells));
      if foreign == [] then [] else [Handlers(g.before, foreign, g.after, g.matcher)]
  }

  /** The foreign content of an event, group by group. */
  function ForeignView(event: string, owner: Owner, groups: seq<Group>): seq<View> {
    if groups == [] then [] else ForeignIn(event, owner, groups[0]) + ForeignView(event, owner, groups[1..])
  }

  /** An owned handler with the matcher of its group. */
  datatype Owned = Owned(matcher: Option<string>, handler: string)

  function WithMatcher(matcher: Option<string>, handlers: seq<string>): (r: seq<Owned>)
    ensures |r| == |handlers|
  {
    seq(|handlers|, i requires 0 <= i < |handlers| => Owned(matcher, handlers[i]))
  }

  function OwnedInGroup(event: string, owner: Owner, g: Group): seq<Owned> {
    if g.Plain? then [] else WithMatcher(g.matcher, OwnedOf(event, owner, Bodies(g.handlers.cells)))
  }

  /** The handler that is desired, in a group with the matcher that is desired. */
  function DesiredOwned(entry: Option<Entry>): seq<Owned> {
    if entry.None? then []
    else [Owned(Some(if entry.value.matcher.Some? then entry.value.matcher.value else ""), entry.value.handler)]
  }

  /** All handlers of an event that are owned for it. */
  function OwnedHandlers(event: string, owner: Owner, groups: seq<Group>): seq<Owned> {
    if groups == [] then [] else OwnedInGroup(event, owner, groups[0]) + OwnedHandlers(event, owner, groups[1..])
  }

  lemma {:induction false} OneMoreGroup(event: string, owner: Owner, groups: seq<Group>, g: Group)
    ensures ForeignView(event, owner, groups + [g]) == ForeignView(event, owner, groups) + ForeignIn(event, owner, g)
    ensures OwnedHandlers(event, owner, groups + [g]) == OwnedHandlers(event, owner, groups) + OwnedInGroup(event, owner, g)
  {
    hide ForeignIn, OwnedInGroup;
    if groups == [] {
      assert ([] + [g])[1..] == [] && [] + [g] == [g];
      assert ForeignIn(event, owner, g) + [] == ForeignIn(event, owner, g) == [] + ForeignIn(event, owner, g);
      assert OwnedInGroup(event, owner, g) + [] == OwnedInGroup(event, owner, g) == [] + OwnedInGroup(event, owner, g);
    } else {
      assert (groups + [g])[1..] == groups[1..] + [g] && (groups + [g])[0] == groups[0];
      OneMoreGroup(event, owner, groups[1..], g);
      SeqAssoc(ForeignIn(event, owner, groups[0]), ForeignView(event, owner, groups[1..]), ForeignIn(event, owner, g));
      SeqAssoc(OwnedInGroup(event, owner, groups[0]), OwnedHandlers(event, owner, groups[1..]), OwnedInGroup(event, owner, g));
    }
  }

  /** One group before and after the patch. */
  lemma {:induction false} OneGroup(event: string, entry: Option<Entry>, owner: Owner, groups: seq<Group>, lead: string, i: nat)
    requires AllWs(lead) && WfDesired(entry) && Recognised(event, owner, entry)
    requires i < |groups| && WfGroup(groups[i])
    ensures var host := Host(entry, groups);
      if Goes(event, owner, host, groups, i) then ForeignIn(event, owner, groups[i]) == []
      else
        && ForeignIn(event, owner, PatchedGroups(event, entry, owner, groups, lead)[i]) == ForeignIn(event, owner, groups[i])
        && OwnedInGroup(event, owner, PatchedGroups(event, entry, owner, groups, lead)[i])
            == if PlacedIn(entry, host, i).Some? then DesiredOwned(entry) else []
  {
    hide Host, Foreign, OwnedOf;
    HostIsHooked(entry, groups);
    var host := Host(entry, groups);
    var g, placed := groups[i], PlacedIn(entry, host, i);
    PatchedGroupMeans(event, owner, g, placed, lead);
    if g.Hooked? {
      EmptiedIff(event, owner, g.handlers);
      PatchedHandlersMean(event, owner, Bodies(g.handlers.cells), placed);
    }
  }

  lemma {:induction false} HostIsHooked(entry: Option<Entry>, groups: seq<Group>)
    ensures Host(entry, groups).Some? ==>
      entry.Some? && Host(entry, groups).value < |groups| && Hosts(entry, groups[Host(entry, groups).value])
    ensures forall i :: 0 <= i < |groups| && (Host(entry, groups).Some? ==> i < Host(entry, groups).value) ==> !Hosts(entry, groups[i])
  {
    var flags := seq(|groups|, i requires 0 <= i < |groups| => Hosts(entry, groups[i]));
    forall i | 0 <= i < |groups| && (Host(entry, groups).Some? ==> i < Host(entry, groups).value) ensures !Hosts(entry, groups[i]) {
      assert !flags[i];
    }
  }

  lemma {:induction false} KeptMean(event: string, entry: Option<Entry>, owner: Owner, groups: seq<Group>, lead: string, i: nat)
    requires AllWs(lead) && WfDesired(entry) && Recognised(event, owner, entry)
    requires i <= |groups| && forall k :: 0 <= k < |groups| ==> WfGroup(groups[k])
    ensures var host := Host(entry, groups);
      var kept := Keep(PatchedGroups(event, entry, owner, groups, lead), Going(event, owner, host, groups), i);
      && ForeignView(event, owner, kept) == ForeignView(event, owner, groups[i..])
      && OwnedHandlers(event, owner, kept) == if host.Some? && i <= host.value then DesiredOwned(entry) else []
    decreases |groups| - i
  {
    hide Host, ForeignIn, OwnedInGroup, PatchedGroup, Goes, ForeignView, OwnedHandlers, WfGroup;
    HostIsHooked(entry, groups);
    NoGroups(event, owner);
    if i < |groups| {
      var host := Host(entry, groups);
      var patched, going := PatchedGroups(event, entry, owner, groups, lead), Going(event, owner, host, groups);
      var rest := Keep(patched, going, i + 1);
      KeptMean(event, entry, owner, groups, lead, i + 1);
      OneGroup(event, entry, owner, groups, lead, i);
      FirstGroup(event, owner, groups[i], groups[i + 1..]);
      FirstGroup(event, owner, patched[i], rest);
      assert groups[i..] == [groups[i]] + groups[i + 1..];
      if going[i] {
        assert Keep(patched, going, i) == [] + rest == rest;
      }
      HostStays(event, entry, owner, groups);
    } else {
      assert groups[i..] == [];
    }
  }

  lemma {:induction false} NoDesired()
    ensures DesiredOwned(None) == []
  {
  }

  lemma {:induction false} NoGroups(event: string, owner: Owner)
    ensures ForeignView(event, owner, []) == [] && OwnedHandlers(event, owner, []) == []
  {
  }

  lemma {:induction false} FirstGroup(event: string, owner: Owner, g: Group, rest: seq<Group>)
    ensures ForeignView(event, owner, [g] + rest) == ForeignIn(event, owner, g) + ForeignView(event, owner, rest)
    ensures OwnedHandlers(event, owner, [g] + rest) == OwnedInGroup(event, owner, g) + OwnedHandlers(event, owner, rest)
  {
    hide ForeignIn, OwnedInGroup;
    assert ([g] + rest)[1..] == rest;
  }

  lemma {:induction false} HostStays(event: string, entry: Option<Entry>, owner: Owner, groups: seq<Group>)
    ensures var host := Host(entry, groups);
      host.Some? ==> host.value < |groups| && !Goes(event, owner, host, groups, host.value)
  {
  }

  /** A group written for an entry holds its handler and nothing foreign. */
  lemma {:induction false} NewGroupMeans(event: string, owner: Owner, entry: Entry)
    requires WfEntry(entry) && owner(entry.handler) == Some(event)
    ensures ForeignIn(event, owner, NewGroup(entry)) == []
    ensures OwnedInGroup(event, owner, NewGroup(entry)) == DesiredOwned(Some(entry))
  {
    hide Foreign, OwnedOf, Bodies, WfGroup, GroupText, WfBody;
    NewGroupText(entry);
    OneBody(event, owner, entry.handler);
  }

  // ---- groups that a patch does not touch --------------------------------------------------------

  /** Deleting nothing and placing nothing leaves a list as it is. */
  lemma {:induction false} NothingSpliced(l: List)
    requires WfList(l)
    ensures |Bodies(l.cells)| == |l.cells|
    ensures SpliceList(l, Bodies(l.cells), {}, Nothing) == l
  {
    BodiesAt(l.cells, 0);
    RebodiedIs(l, Bodies(l.cells));
    forall i | 0 <= i < |l.cells| ensures Rebodied(l, Bodies(l.cells)).cells[i] == l.cells[i] {
      BodiesAt(l.cells, i);
    }
    assert Rebodied(l, Bodies(l.cells)).cells == l.cells;
  }

  lemma {:induction false} NoneForeign(event: string, owner: Owner, h: List)
    requires Bodies(h.cells) == Foreign(event, owner, Bodies(h.cells))
    ensures Chosen(HandlerFlags(event, owner, h.cells)) == {}
  {
    var bodies, flags := Bodies(h.cells), HandlerFlags(event, owner, h.cells);
    ForeignStaysForeign(event, owner, bodies);
    forall k | 0 <= k < |h.cells| ensures !flags[k] {
      BodiesAt(h.cells, k);
      NoneOwned(event, owner, bodies, k);
    }
  }

  lemma {:induction false} NoneOwned(event: string, owner: Owner, bodies: seq<string>, k: nat)
    requires OwnedOf(event, owner, bodies) == [] && k < |bodies|
    ensures owner(bodies[k]) != Some(event)
  {
    if k > 0 {
      NoneOwned(event, owner, bodies[1..], k - 1);
    }
  }

  /** A group that already is what the patch makes of it does not change. */
  lemma {:induction false} SameGroup(event: string, owner: Owner, g: Group, placed: Option<string>, lead: string)
    requires WfGroup(g) && g.Hooked?
    requires placed.Some? ==> owner(placed.value) == Some(event) && Bodies(g.handlers.cells) == [placed.value]
    requires placed.None? ==> Bodies(g.handlers.cells) == Foreign(event, owner, Bodies(g.handlers.cells))
    ensures PatchedGroup(event, owner, g, placed, lead) == g
  {
    var h := g.handlers;
    BodiesAt(h.cells, 0);
    if placed.Some? {
      assert h.cells == [h.cells[0]] && h.cells[0].body == placed.value;
    } else {
      NoneForeign(event, owner, h);
      NothingSpliced(h);
    }
  }

  /** The members of `a` stand among those of `b`, in order. */
  predicate Sublist<T(==)>(a: seq<T>, b: seq<T>) {
    a == [] || (b != [] && ((a[0] == b[0] && Sublist(a[1..], b[1..])) || Sublist(a, b[1..])))
  }

  lemma {:induction false} SublistConcat<T>(a: seq<T>, b: seq<T>, c: seq<T>)
    requires Sublist(a, b)
    ensures Sublist(a, b + c)
    decreases |b|
  {
    if a != [] {
      assert (b + c)[1..] == b[1..] + c;
      if a[0] == b[0] && Sublist(a[1..], b[1..]) {
        SublistConcat(a[1..], b[1..], c);
      } else {
        SublistConcat(a, b[1..], c);
      }
    }
  }

  lemma {:induction false} SublistItself<T>(a: seq<T>)
    ensures Sublist(a, a)
  {
    if a != [] {
      SublistItself(a[1..]);
    }
  }

  lemma {:induction false} SublistTrans<T>(a: seq<T>, b: seq<T>, c: seq<T>)
    requires Sublist(a, b) && Sublist(b, c)
    ensures Sublist(a, c)
    decreases |b| + |c|
  {
    if a != [] {
      if b[0] == c[0] && Sublist(b[1..], c[1..]) {
        if a[0] == b[0] && Sublist(a[1..], b[1..]) {
          SublistTrans(a[1..], b[1..], c[1..]);
        } else {
          SublistTrans(a, b[1..], c[1..]);
        }
      } else {
        SublistTrans(a, b, c[1..]);
      }
    }
  }

  /** A group in which nothing is owned for the event. */
  predicate Unowned(event: string, owner: Owner, g: Group) {
    OwnedInGroup(event, owner, g) == []
  }

  /** The groups that hold an owned handler or get the new one. */
  function Touched(event: string, entry: Option<Entry>, owner: Owner, groups: seq<Group>): (r: seq<bool>)
    ensures |r| == |groups|
  {
    seq(|groups|, i requires 0 <= i < |groups| => !Unowned(event, owner, groups[i]) || Host(entry, groups) == Some(i))
  }

  lemma {:induction false} NoneOwnedIsForeign(event: string, owner: Owner, bodies: seq<string>)
    requires OwnedOf(event, owner, bodies) == []
    ensures Foreign(event, owner, bodies) == bodies
  {
    if bodies != [] {
      NoneOwnedIsForeign(event, owner, bodies[1..]);
      assert bodies == [bodies[0]] + bodies[1..];
    }
  }

  /** A group that is not touched stays, byte for byte. */
  lemma {:induction false} UntouchedStays(event: string, entry: Option<Entry>, owner: Owner, groups: seq<Group>, lead: string, i: nat)
    requires i < |groups| && WfGroup(groups[i]) && !Touched(event, entry, owner, groups)[i]
    ensures !Goes(event, owner, Host(entry, groups), groups, i)
    ensures PatchedGroups(event, entry, owner, groups, lead)[i] == groups[i]
  {
    hide Host, PatchedGroup, WfGroup, Emptied;
    var g := groups[i];
    HostIsHooked(entry, groups);
    if g.Hooked? {
      NoneOwnedIsForeign(event, owner, Bodies(g.handlers.cells));
      EmptiedIff(event, owner, g.handlers);
      BodiesAt(g.handlers.cells, 0);
      SameGroup(event, owner, g, None, lead);
    } else {
      PlainStays(event, owner, g, lead);
    }
  }

  lemma {:induction false} PlainStays(event: string, owner: Owner, g: Group, lead: string)
    requires g.Plain?
    ensures PatchedGroup(event, owner, g, None, lead) == g
  {
  }

  lemma {:induction false} UntouchedStay(event: string, entry: Option<Entry>, owner: Owner, groups: seq<Group>, lead: string, i: nat)
    requires i <= |groups| && forall k :: 0 <= k < |groups| ==> WfGroup(groups[k])
    ensures Sublist(Keep(groups, Touched(event, entry, owner, groups), i),
      Keep(PatchedGroups(event, entry, owner, groups, lead), Going(event, owner, Host(entry, groups), groups), i))
    decreases |groups| - i
  {
    hide Host, PatchedGroup, Goes, WfGroup, Unowned, Touched;
    if i < |groups| {
      UntouchedStay(event, entry, owner, groups, lead, i + 1);
      var touched, going := Touched(event, entry, owner, groups), Going(event, owner, Host(entry, groups), groups);
      var patched := PatchedGroups(event, entry, owner, groups, lead);
      var a, b := Keep(groups, touched, i + 1), Keep(patched, going, i + 1);
      if !touched[i] {
        UntouchedStays(event, entry, owner, groups, lead, i);
        assert ([groups[i]] + a)[1..] == a && ([groups[i]] + b)[1..] == b;
      } else if going[i] {
        assert [] + a == a && [] + b == b;
      } else {
        assert [] + a == a && ([patched[i]] + b)[1..] == b;
      }
    }
  }

  // ---- the main result for one event ------------------------------------------------------------

  /**
   The patch leaves the foreign handlers of every group verbatim and in order, with what stands
   around them; a group that has no owned handler and gets none stays byte for byte; and afterwards
   exactly the desired handler is there, in a group with the desired matcher.
   */
  lemma {:induction false} PatchMeans(event: string, entry: Option<Entry>, owner: Owner, groups: seq<Group>, lead: string)
    requires AllWs(lead) && WfDesired(entry) && Recognised(event, owner, entry)
    requires forall k :: 0 <= k < |groups| ==> WfGroup(groups[k])
    ensures ForeignView(event, owner, FinalGroups(event, entry, owner, groups, lead)) == ForeignView(event, owner, groups)
    ensures Sublist(Keep(groups, Touched(event, entry, owner, groups), 0), FinalGroups(event, entry, owner, groups, lead))
    ensures OwnedHandlers(event, owner, FinalGroups(event, entry, owner, groups, lead)) == DesiredOwned(entry)
  {
    hide Touched, Sublist, Host, ForeignIn, OwnedInGroup, ForeignView, OwnedHandlers, Keep, PatchedGroups, Going, WfGroup, NewGroup, DesiredOwned;
    HostIsHooked(entry, groups);
    NoDesired();
    var kept := Keep(PatchedGroups(event, entry, owner, groups, lead), Going(event, owner, Host(entry, groups), groups), 0);
    KeptMean(event, entry, owner, groups, lead, 0);
    UntouchedStay(event, entry, owner, groups, lead, 0);
    SublistConcat(Keep(groups, Touched(event, entry, owner, groups), 0), kept, if NeedsGroup(entry, groups) then [NewGroup(entry.value)] else []);
    assert groups[0..] == groups;
    if NeedsGroup(entry, groups) {
      OneMoreGroup(event, owner, kept, NewGroup(entry.value));
      NewGroupMeans(event, owner, entry.value);
    } else {
      assert kept + [] == kept;
    }
  }

  // ---- groups that no patch touches ----------------------------------------------------------------

  /** Nothing in the group is owned, and no handler is desired for its matcher. */
  predicate BeyondReach(event: string, owner: Owner, hosting: set<string>, g: Group) {
    Unowned(event, owner, g) && (g.Hooked? && g.matcher.Some? ==> g.matcher.value !in hosting)
  }

  /** The groups that no patch for matchers in `hosting` touches. */
  function Untouchable(event: string, owner: Owner, hosting: set<string>, groups: seq<Group>): seq<Group> {
    if groups == [] then []
    else (if BeyondReach(event, owner, hosting, groups[0]) then [groups[0]] else []) + Untouchable(event, owner, hosting, groups[1..])
  }

  /** Of a list, those that stand in another one stand among those of it that qualify. */
  lemma {:induction false} SublistOfUntouchable(event: string, owner: Owner, hosting: set<string>, a: seq<Group>, b: seq<Group>)
    requires Sublist(a, b)
    ensures Sublist(Untouchable(event, owner, hosting, a), Untouchable(event, owner, hosting, b))
    decreases |b|
  {
    hide BeyondReach;
    if a != [] {
      var rest := Untouchable(event, owner, hosting, b[1..]);
      assert ([b[0]] + rest)[1..] == rest && [] + rest == rest;
      if a[0] == b[0] && Sublist(a[1..], b[1..]) {
        SublistOfUntouchable(event, owner, hosting, a[1..], b[1..]);
        var mine := Untouchable(event, owner, hosting, a[1..]);
        assert ([a[0]] + mine)[1..] == mine && [] + mine == mine;
      } else {
        SublistOfUntouchable(event, owner, hosting, a, b[1..]);
      }
    }
  }

  lemma {:induction false} UntouchableAreUntouched(event: string, entry: Option<Entry>, owner: Owner, hosting: set<string>, groups: seq<Group>, i: nat)
    requires i <= |groups| && (entry.Some? ==> WantedMatcher(entry) in hosting)
    ensures Untouchable(event, owner, hosting, Keep(groups, Touched(event, entry, owner, groups), i)) == Untouchable(event, owner, hosting, groups[i..])
    decreases |groups| - i
  {
    hide Host, Unowned, Hosts;
    if i < |groups| {
      UntouchableAreUntouched(event, entry, owner, hosting, groups, i + 1);
      var touched := Touched(event, entry, owner, groups);
      var rest := Keep(groups, touched, i + 1);
      assert groups[i..][0] == groups[i] && groups[i..][1..] == groups[i + 1..];
      assert ([groups[i]] + rest)[1..] == rest && [] + rest == rest;
      HostReaches(event, entry, owner, hosting, groups, i);
      assert [] + Untouchable(event, owner, hosting, groups[i + 1..]) == Untouchable(event, owner, hosting, groups[i + 1..]);
    }
  }

  lemma {:induction false} HostReaches(event: string, entry: Option<Entry>, owner: Owner, hosting: set<string>, groups: seq<Group>, i: nat)
    requires i < |groups| && (entry.Some? ==> WantedMatcher(entry) in hosting)
    ensures BeyondReach(event, owner, hosting, groups[i]) ==> !Touched(event, entry, owner, groups)[i]
  {
    hide Host, Unowned;
    HostIsHooked(entry, groups);
  }

  /** The groups beyond reach before a patch are beyond reach after it, byte for byte and in order. */
  lemma {:induction false} UntouchableStay(event: string, entry: Option<Entry>, owner: Owner, hosting: set<string>, groups: seq<Group>, lead: string)
    requires AllWs(lead) && WfDesired(entry) && Recognised(event, owner, entry)
    requires forall k :: 0 <= k < |groups| ==> WfGroup(groups[k])
    requires entry.Some? ==> WantedMatcher(entry) in hosting
    ensures Sublist(Untouchable(event, owner, hosting, groups), Untouchable(event, owner, hosting, FinalGroups(event, entry, owner, groups, lead)))
  {
    hide Touched, Sublist, Untouchable, FinalGroups, Keep, WfGroup;
    PatchMeans(event, entry, owner, groups, lead);
    UntouchableAreUntouched(event, entry, owner, hosting, groups, 0);
    assert groups[0..] == groups;
    SublistOfUntouchable(event, owner, hosting, Keep(groups, Touched(event, entry, owner, groups), 0), FinalGroups(event, entry, owner, groups, lead));
  }

  /**
   A group for the desired matcher that holds no handler is within reach: installing the event puts
   the handler there, and uninstalling it takes the group away.
   */
  lemma {:induction false} EmptyHostIsLost(event: string, entry: Entry, owner: Owner, g: Group, lead: string, lead': string)
    requires WfEntry(entry) && owner(entry.handler) == Some(event)
    requires WfGroup(g) && g.Hooked? && g.handlers.cells == [] && g.matcher == Some(WantedMatcher(Some(entry)))
    ensures FinalGroups(event, None, owner, FinalGroups(event, Some(entry), owner, [g], lead), lead') == []
  {
    hide Bodies, WfBody, Splice, SpliceList;
    var installed := g.(handlers := List([Cell("", entry.handler, g.handlers.tail)], false, ""));
    FirstIs([true], 0, 0);
    assert seq(1, i requires 0 <= i < 1 => Hosts(Some(entry), [g][i])) == [true];
    assert Host(Some(entry), [g]) == Some(0);
    assert PatchedGroups(event, Some(entry), owner, [g], lead) == [installed];
    assert Going(event, owner, Some(0), [g]) == [false];
    OneKept(installed, false);
    assert FinalGroups(event, Some(entry), owner, [g], lead) == [installed];
    assert HandlerFlags(event, owner, installed.handlers.cells) == [true];
    assert Host(None, [installed]) == None by {
      HostIsHooked(None, [installed]);
    }
    assert Going(event, owner, None, [installed]) == [true];
    assert PatchedGroups(event, None, owner, [installed], lead') == [installed];
    OneKept(installed, true);
  }

  lemma {:induction false} OneKept(g: Group, going: bool)
    ensures Keep([g], [going], 0) == if going then [] else [g]
  {
    assert Keep([g], [going], 1) == [];
  }
}
