/**
 What the plan of one event does: the array of groups before and after, as text and as groups.
 */
module EventSplice {
  import opened Outcomes
  import opened Flags
  import opened Splicing
  import opened JsonLayout
  import opened RunDeletion
  import opened ListSplice
  import opened SplicedText
  import opened ListEditing
  import opened Nesting
  import opened EventPlan
  import opened HandlerPatch
  import opened EventText

  /** An event array as it stands in a source. */
  ghost predicate EventStands(src: string, base: nat, l: List, groups: seq<Group>) {
    Stands(src, base, l) && Holding(l, groups)
  }

  function PatchedGroup(event: string, owner: Owner, g: Group, placed: Option<string>, lead: string): Group {
    if g.Plain? || (placed.None? && Emptied(event, owner, g.handlers)) then g
    else g.(handlers := PatchedHandlers(event, owner, g.handlers, placed, lead))
  }

  /** The groups with their patched handlers; those that go are still among them. */
  function PatchedGroups(event: string, entry: Option<Entry>, owner: Owner, groups: seq<Group>, lead: string): (r: seq<Group>)
    ensures |r| == |groups|
  {
    seq(|groups|, i requires 0 <= i < |groups| =>
      PatchedGroup(event, owner, groups[i], PlacedIn(entry, Host(entry, groups), i), lead))
  }

  function Texts(groups: seq<Group>): (r: seq<string>)
    ensures |r| == |groups|
  {
    seq(|groups|, i requires 0 <= i < |groups| => GroupText(groups[i]))
  }

  /** A new group joins the array: no group can host the desired handler. */
  predicate NeedsGroup(entry: Option<Entry>, groups: seq<Group>) {
    entry.Some? && Host(entry, groups).None?
  }

  /** The array after the patch. */
  function PatchedArray(event: string, entry: Option<Entry>, owner: Owner, src: string, base: nat, l: List, groups: seq<Group>): List
    requires EventStands(src, base, l, groups)
  {
    var host := Host(entry, groups);
    var going := Going(event, owner, host, groups);
    var bodies := Texts(PatchedGroups(event, entry, owner, groups, HostLead(src, base, l, groups, host)));
    if !NeedsGroup(entry, groups) then SpliceList(l, bodies, Chosen(going), Nothing)
    else if AllTrue(going) then List([Cell("", entry.value.Group(), SpliceList(l, bodies, Chosen(going), Nothing).tail)], false, "")
    else SpliceList(l, bodies, Chosen(going), AppendPlacement(src, base, l, entry.value))
  }

  /**
   The one shape of an array the program cannot patch: the new group is to follow the last group,
   which goes together with the trailing comma after it, while another group stays.
   */
  predicate Unpatchable(event: string, entry: Option<Entry>, owner: Owner, l: List, groups: seq<Group>)
    requires |groups| == |l.cells|
  {
    var going := Going(event, owner, Host(entry, groups), groups);
    NeedsGroup(entry, groups) && !AllTrue(going) && going[|groups| - 1] && l.trailing
  }

  // ---- the edits inside the groups ---------------------------------------------------------------

  lemma {:induction false} GroupEditsFacts(src: string, event: string, owner: Owner, base: nat, l: List, groups: seq<Group>, i: nat, placed: Option<string>, lead: string)
    requires EventStands(src, base, l, groups) && i < |groups|
    ensures Within(GroupEdits(event, owner, base, l, groups, i, placed, lead), BodyStart(base, l.cells, i), BodyEnd(base, l.cells, i))
    ensures Apart(GroupEdits(event, owner, base, l, groups, i, placed, lead))
    ensures OneWriter(GroupEdits(event, owner, base, l, groups, i, placed, lead))
  {
    hide HandlerEdits, Apart, OneWriter, Stands, Render, BodyStart, BodyEnd;
    if groups[i].Hooked? {
      var hbase, h := HandlersBase(BodyStart(base, l.cells, i), groups[i]), groups[i].handlers;
      HandlersStand(src, base, l, groups, i);
      HandlerEditsShape(src, hbase, h, event, owner, placed, lead);
      WithinWider(HandlerEdits(event, owner, hbase, h, placed, lead), hbase, ListEnd(hbase, h) + 1, BodyStart(base, l.cells, i), BodyEnd(base, l.cells, i));
    }
    AtMostOneEdit([]);
  }

  /** The edits of a group rewrite its text into that of the patched group. */
  lemma {:induction false} GroupOut(src: string, event: string, owner: Owner, base: nat, l: List, groups: seq<Group>, i: nat, placed: Option<string>, lead: string)
    requires EventStands(src, base, l, groups) && i < |groups|
    ensures BodyOut(src, base, l, GroupEdits(event, owner, base, l, groups, i, placed, lead), i, GroupText(PatchedGroup(event, owner, groups[i], placed, lead)))
  {
    hide Out, HandlerEdits, Render, PatchedHandlers, Enclosed, Stands;
    var g, start := groups[i], BodyStart(base, l.cells, i);
    GroupHolds(src, base, l, groups, i);
    if g.Plain? || (placed.None? && Emptied(event, owner, g.handlers)) {
      forall p: nat ensures Untouched([], p) {}
      KeptStretch(src, [], start, GroupText(g));
    } else {
      var hbase, h := HandlersBase(start, g), g.handlers;
      HandlersStand(src, base, l, groups, i);
      HandlersOut(src, hbase, h, event, owner, placed, lead);
      HandlerEditsShape(src, hbase, h, event, owner, placed, lead);
      EnclosedOut(src, HandlerEdits(event, owner, hbase, h, placed, lead), start, g.before, h, g.after, PatchedHandlers(event, owner, h, placed, lead));
    }
  }

  /** The parts of a plan: inside the groups, and nothing in a group that goes. */
  lemma {:induction false} PartsAreFit(src: string, event: string, entry: Option<Entry>, owner: Owner, base: nat, l: List, groups: seq<Group>)
    requires EventStands(src, base, l, groups)
    ensures var kill := Chosen(Going(event, owner, Host(entry, groups), groups));
      PartsFit(base, l, kill, Parts(event, entry, owner, src, base, l, groups))
    ensures EachApart(Parts(event, entry, owner, src, base, l, groups), 0)
    ensures EachOneWriter(Parts(event, entry, owner, src, base, l, groups))
  {
    hide HandlerEdits, Apart, OneWriter, Stands, Host, Within, HostLead;
    var host := Host(entry, groups);
    var lead := HostLead(src, base, l, groups, host);
    forall i: nat | i < |groups|
      ensures Within(Parts(event, entry, owner, src, base, l, groups)[i], BodyStart(base, l.cells, i), BodyEnd(base, l.cells, i))
      ensures Apart(Parts(event, entry, owner, src, base, l, groups)[i])
      ensures OneWriter(Parts(event, entry, owner, src, base, l, groups)[i])
    {
      GroupEditsFacts(src, event, owner, base, l, groups, i, PlacedIn(entry, host, i), lead);
    }
  }

  /** Without a placement in a group, the edits inside the groups are the deletions. */
  lemma {:induction false} PartsAreDeletes(src: string, event: string, entry: Option<Entry>, owner: Owner, base: nat, l: List, groups: seq<Group>, i: nat)
    requires EventStands(src, base, l, groups) && i < |groups|
    ensures var part, deletes := Parts(event, entry, owner, src, base, l, groups)[i], DeleteParts(event, owner, base, l, groups)[i];
      && (PlacedIn(entry, Host(entry, groups), i).None? ==> part == deletes)
      && (PlacedIn(entry, Host(entry, groups), i).Some? && groups[i].Hooked? ==>
            part == deletes + [PlaceIn(event, owner, HandlersBase(BodyStart(base, l.cells, i), groups[i]), groups[i].handlers,
                                 entry.value.handler, HostLead(src, base, l, groups, Host(entry, groups)))])
  {
    hide RunsOf, Stands, Host, Where, HostLead, PlaceIn;
    if groups[i].Hooked? {
      var deletes := DeletesIn(event, owner, HandlersBase(BodyStart(base, l.cells, i), groups[i]), groups[i].handlers);
      assert deletes + [] == deletes;
    }
  }

  // ---- the plan, assembled -------------------------------------------------------------------------

  /** The edits of the array itself: the groups that go, and a group joining others. */
  function ArrayPlacement(event: string, entry: Option<Entry>, owner: Owner, src: string, base: nat, l: List, groups: seq<Group>): (pl: Placement)
    requires EventStands(src, base, l, groups)
    ensures pl.Nothing? || (entry.Some? && pl.AfterLast? && l.cells != [] && AllWs(pl.lead) && pl.body == entry.value.Group())
  {
    if NeedsGroup(entry, groups) && !AllTrue(Going(event, owner, Host(entry, groups), groups))
    then AppendPlacement(src, base, l, entry.value) else Nothing
  }

  /** The whole array is emptied, so the new group is written at its opening bracket. */
  predicate Reopens(event: string, entry: Option<Entry>, owner: Owner, groups: seq<Group>) {
    NeedsGroup(entry, groups) && AllTrue(Going(event, owner, Host(entry, groups), groups))
  }

  function GoingIndices(event: string, entry: Option<Entry>, owner: Owner, groups: seq<Group>): seq<nat> {
    Where(Going(event, owner, Host(entry, groups), groups), 0)
  }

  function ArrayEdits(event: string, entry: Option<Entry>, owner: Owner, src: string, base: nat, l: List, groups: seq<Group>): seq<Edit>
    requires EventStands(src, base, l, groups)
  {
    WhereAreIndices(l, Going(event, owner, Host(entry, groups), groups));
    ListEdits(base, l, GoingIndices(event, entry, owner, groups), ArrayPlacement(event, entry, owner, src, base, l, groups), LastOf(l))
  }

  /** The plan before its placement: deletions in the groups, then deletions of groups. */
  lemma {:induction false} PlanDeletes(src: string, event: string, entry: Option<Entry>, owner: Owner, base: nat, l: List, groups: seq<Group>)
    requires EventStands(src, base, l, groups)
    ensures NodesInSource(EventNodeAt(base, l, groups, owner), src)
    ensures IndicesOf(l, GoingIndices(event, entry, owner, groups))
    ensures PlanOf(event, entry, EventNodeAt(base, l, groups, owner), src)
         == Concat(DeleteParts(event, owner, base, l, groups), 0)
            + (RunsOf(base, l, GoingIndices(event, entry, owner, groups), 0)
               + if entry.Some? then [PlacementOf(event, entry.value, EventNodeAt(base, l, groups, owner), src)] else [])
  {
    hide RunsOf, RunEdits, HandlerDeletes, Concat, DeleteParts, PlacementOf, Where, Render;
    var host := Host(entry, groups);
    NodesAreInSource(src, base, l, groups, owner);
    WhereAreIndices(l, Going(event, owner, host, groups));
    HostAgrees(entry, base, l, groups, owner);
    CleanedAgree(event, host, base, l, groups, owner);
    GroupNodeRanges(src, base, l, groups, owner);
    HandlerDeletesAre(src, event, owner, base, l, groups, 0);
    RangesInSource(src, base, l);
    RunEditsAreRunsOf(src, base, l, GoingIndices(event, entry, owner, groups), 0);
  }

  /** Without a handler to place in a group, the plan is the edits of the groups and of the array. */
  lemma {:induction false} PlainPlan(src: string, event: string, entry: Option<Entry>, owner: Owner, base: nat, l: List, groups: seq<Group>)
    requires EventStands(src, base, l, groups)
    requires Host(entry, groups).None? && !Reopens(event, entry, owner, groups)
    ensures NodesInSource(EventNodeAt(base, l, groups, owner), src)
    ensures PlanOf(event, entry, EventNodeAt(base, l, groups, owner), src)
         == Concat(Parts(event, entry, owner, src, base, l, groups), 0) + ArrayEdits(event, entry, owner, src, base, l, groups)
  {
    hide RunsOf, Concat, DeleteParts, PlacementOf, Where, Render, Parts, PlanOf, AppendPlacement, Going, Holding;
    PlanDeletes(src, event, entry, owner, base, l, groups);
    UnhostedParts(src, event, entry, owner, base, l, groups);
    if entry.Some? {
      AppendedPlacement(src, event, entry.value, owner, base, l, groups);
    }
  }

  lemma {:induction false} UnhostedParts(src: string, event: string, entry: Option<Entry>, owner: Owner, base: nat, l: List, groups: seq<Group>)
    requires EventStands(src, base, l, groups) && Host(entry, groups).None?
    ensures Parts(event, entry, owner, src, base, l, groups) == DeleteParts(event, owner, base, l, groups)
  {
    hide DeleteParts, Render, Parts, Holding, Host;
    var parts, deletes := Parts(event, entry, owner, src, base, l, groups), DeleteParts(event, owner, base, l, groups);
    forall i | 0 <= i < |groups| ensures parts[i] == deletes[i] {
      PartsAreDeletes(src, event, entry, owner, base, l, groups, i);
    }
  }

  /** With a handler to place, the plan is the same with the placement moved to the end. */
  lemma {:induction false} HostedPlan(src: string, event: string, entry: Option<Entry>, owner: Owner, base: nat, l: List, groups: seq<Group>, t: nat)
    requires EventStands(src, base, l, groups)
    requires entry.Some? && Host(entry, groups) == Some(t)
    ensures NodesInSource(EventNodeAt(base, l, groups, owner), src) && t < |groups|
    ensures var place := PlacementOf(event, entry.value, EventNodeAt(base, l, groups, owner), src);
      && Parts(event, entry, owner, src, base, l, groups)
         == DeleteParts(event, owner, base, l, groups)[t := DeleteParts(event, owner, base, l, groups)[t] + [place]]
      && PlanOf(event, entry, EventNodeAt(base, l, groups, owner), src)
         == Concat(DeleteParts(event, owner, base, l, groups), 0) + (ArrayEdits(event, entry, owner, src, base, l, groups) + [place])
  {
    hide RunsOf, Concat, DeleteParts, PlacementOf, Where, Render, Parts, PlanOf, AppendPlacement, Going, PlaceIn, DeletesIn, HostLead;
    PlanDeletes(src, event, entry, owner, base, l, groups);
    HostedPlacement(src, event, entry.value, owner, base, l, groups, t);
    var place := PlacementOf(event, entry.value, EventNodeAt(base, l, groups, owner), src);
    var parts, deletes := Parts(event, entry, owner, src, base, l, groups), DeleteParts(event, owner, base, l, groups);
    forall i | 0 <= i < |groups| ensures parts[i] == if i == t then deletes[t] + [place] else deletes[i] {
      PartsAreDeletes(src, event, entry, owner, base, l, groups, i);
    }
    NothingPlaced(base, l, GoingIndices(event, entry, owner, groups), LastOf(l));
  }

  // ---- moving one edit to the end ---------------------------------------------------------------------

  /** Moving an edit from its element to the end of the plan does not change what happens where. */
  lemma {:induction false} MovedMerges(base: nat, l: List, kill: set<nat>, deletes: seq<seq<Edit>>, own: seq<Edit>, place: Edit, t: nat)
    requires WfList(l) && t < |deletes| && PartsFit(base, l, kill, deletes)
    requires PartsFit(base, l, kill, deletes[t := deletes[t] + [place]])
    requires Silent(own)
    ensures Merged(base, l, deletes[t := deletes[t] + [place]], own, Concat(deletes, 0) + (own + [place]))
  {
    var parts, es := deletes[t := deletes[t] + [place]], Concat(deletes, 0) + (own + [place]);
    forall i: nat, p: nat | i < |parts| && InCell(base, l, i, p) ensures Merges(es, parts[i], own, p) {
      ConcatAt(base, l, kill, deletes, 0, i, p);
      MovedAt(Concat(deletes, 0), own, place, p);
      EmptyPlus(TextAt(parts[i], p));
      if i == t {
        ConcatMerges(deletes[t], [place], p);
      } else {
        PlaceAt(base, l, kill, deletes, place, t, i, p);
        EmptyPlus(TextAt(deletes[i], p));
      }
    }
    forall p: nat | ListEnd(base, l) - |l.tail| <= p <= ListEnd(base, l) ensures SameAt(es, own, p) {
      ConcatAtTail(base, l, kill, deletes, 0, p);
      MovedAt(Concat(deletes, 0), own, place, p);
      BodiesBeforeTail(base, l, t);
      assert Within(parts[t], BodyStart(base, l.cells, t), BodyEnd(base, l.cells, t));
      WithinConcat(deletes[t], [place], BodyStart(base, l.cells, t), BodyEnd(base, l.cells, t));
      QuietOutside([place], BodyStart(base, l.cells, t), BodyEnd(base, l.cells, t), p);
    }
  }

  lemma {:induction false} MovedAt(a: seq<Edit>, own: seq<Edit>, place: Edit, p: nat)
    requires Silent(own)
    ensures TextAt(own, p) == ""
    ensures TextAt(a + (own + [place]), p) == TextAt(a, p) + TextAt([place], p)
    ensures Covered(a + (own + [place]), p) <==> Covered(a, p) || Covered(own, p) || Covered([place], p)
  {
    ConcatMerges(a, own + [place], p);
    ConcatMerges(own, [place], p);
    NoTextAt(own, p);
    EmptyPlus(TextAt([place], p));
  }

  lemma {:induction false} PlaceAt(base: nat, l: List, kill: set<nat>, deletes: seq<seq<Edit>>, place: Edit, t: nat, i: nat, p: nat)
    requires t < |deletes| && PartsFit(base, l, kill, deletes[t := deletes[t] + [place]])
    requires i < |deletes| && InCell(base, l, i, p) && i != t
    ensures Untouched([place], p)
  {
    var parts := deletes[t := deletes[t] + [place]];
    assert Within(parts[t], BodyStart(base, l.cells, t), BodyEnd(base, l.cells, t));
    WithinConcat(deletes[t], [place], BodyStart(base, l.cells, t), BodyEnd(base, l.cells, t));
    if i < t {
      CellsOrdered(base, l.cells, i, t);
    } else {
      CellsOrdered(base, l.cells, t, i);
    }
    QuietOutside([place], BodyStart(base, l.cells, t), BodyEnd(base, l.cells, t), p);
  }

  lemma {:induction false} MovedApart(base: nat, l: List, indices: seq<nat>, deletes: seq<seq<Edit>>, place: Edit, t: nat)
    requires WfList(l) && IndicesOf(l, indices) && t < |deletes| && PartsFit(base, l, IndexSet(indices, 0), deletes)
    requires PartsFit(base, l, IndexSet(indices, 0), deletes[t := deletes[t] + [place]])
    requires EachApart(deletes[t := deletes[t] + [place]], 0)
    ensures Apart(Concat(deletes, 0) + (RunsOf(base, l, indices, 0) + [place]))
  {
    hide Apart, RunsOf;
    var kill, runs := IndexSet(indices, 0), RunsOf(base, l, indices, 0);
    var parts := deletes[t := deletes[t] + [place]];
    EachDeleteApart(deletes, place, t);
    ConcatApart(base, l, kill, deletes, 0);
    ConcatApart(base, l, kill, parts, 0);
    NothingPlaced(base, l, indices, 0);
    PartsAwayFromOwn(base, l, indices, Nothing, 0, deletes);
    PartsAwayFromOwn(base, l, indices, Nothing, 0, parts);
    RunsApart(base, l, indices, 0);
    AtMostOneEdit([place]);
    ApartConcat(deletes[t], [place]);
    InItsConcat(parts, 0, t, place);
    forall x | x in Concat(deletes, 0) ensures Compatible(x, place) {
      var k := InConcat(deletes, 0, x);
      if k != t {
        assert Within(parts[t], BodyStart(base, l.cells, t), BodyEnd(base, l.cells, t)) && place in parts[t];
        assert Within(deletes[k], BodyStart(base, l.cells, k), BodyEnd(base, l.cells, k));
        if k < t {
          CellsOrdered(base, l.cells, k, t);
        } else {
          CellsOrdered(base, l.cells, t, k);
        }
      }
    }
    ApartConcat(runs, [place]);
    ApartConcat(Concat(deletes, 0), runs + [place]);
    forall x, y | x in Concat(deletes, 0) && y in runs + [place] ensures Compatible(x, y) {
      assert y in runs || y == place;
    }
  }

  lemma {:induction false} EachDeleteApart(deletes: seq<seq<Edit>>, place: Edit, t: nat)
    requires t < |deletes| && EachApart(deletes[t := deletes[t] + [place]], 0)
    ensures EachApart(deletes, 0)
  {
    var parts := deletes[t := deletes[t] + [place]];
    forall k: nat | k < |deletes| ensures Apart(deletes[k]) {
      assert Apart(parts[k]);
      ApartConcat(deletes[t], [place]);
    }
  }

  lemma {:induction false} InItsConcat(parts: seq<seq<Edit>>, i: nat, k: nat, e: Edit)
    requires i <= k < |parts| && e in parts[k]
    ensures e in Concat(parts, i)
    decreases |parts| - i
  {
    if i < k {
      InItsConcat(parts, i + 1, k, e);
    }
  }

  // ---- the effect of the plan ---------------------------------------------------------------------------

  /** The plan as the edits of the groups merged with those of the array, free of overlaps but for one shape. */
  lemma {:induction false} PlanShape(src: string, event: string, entry: Option<Entry>, owner: Owner, base: nat, l: List, groups: seq<Group>)
    requires EventStands(src, base, l, groups)
    requires !Reopens(event, entry, owner, groups)
    ensures NodesInSource(EventNodeAt(base, l, groups, owner), src)
    ensures var plan := PlanOf(event, entry, EventNodeAt(base, l, groups, owner), src);
      && Merged(base, l, Parts(event, entry, owner, src, base, l, groups), ArrayEdits(event, entry, owner, src, base, l, groups), plan)
      && (Apart(plan) <==> !Unpatchable(event, entry, owner, l, groups))
      && OneWriter(plan)
      && Within(plan, base, ListEnd(base, l) + 1)
  {
    hide RunsOf, Concat, DeleteParts, PlacementOf, Where, Render, Parts, PlanOf, AppendPlacement, Going, Apart, OneWriter, Stands, Within, ListEdits;
    if Host(entry, groups).None? {
      PlainShape(src, event, entry, owner, base, l, groups);
    } else {
      HostedShape(src, event, entry, owner, base, l, groups, Host(entry, groups).value);
    }
  }

  lemma {:induction false} PlainShape(src: string, event: string, entry: Option<Entry>, owner: Owner, base: nat, l: List, groups: seq<Group>)
    requires EventStands(src, base, l, groups)
    requires Host(entry, groups).None? && !Reopens(event, entry, owner, groups)
    ensures NodesInSource(EventNodeAt(base, l, groups, owner), src)
    ensures var plan := PlanOf(event, entry, EventNodeAt(base, l, groups, owner), src);
      && Merged(base, l, Parts(event, entry, owner, src, base, l, groups), ArrayEdits(event, entry, owner, src, base, l, groups), plan)
      && (Apart(plan) <==> !Unpatchable(event, entry, owner, l, groups))
      && OneWriter(plan)
      && Within(plan, base, ListEnd(base, l) + 1)
  {
    hide RunsOf, Concat, DeleteParts, PlacementOf, Where, Render, Parts, PlanOf, AppendPlacement, Apart, OneWriter, Within, ListEdits, Goes, Host,
      Merged, PartsFit, EachApart, EachOneWriter, Holds, WfCells, WfGroup, NodesInSource, EventNodeAt;
    var going := Going(event, owner, Host(entry, groups), groups);
    var indices, pl := GoingIndices(event, entry, owner, groups), ArrayPlacement(event, entry, owner, src, base, l, groups);
    var parts, own := Parts(event, entry, owner, src, base, l, groups), ArrayEdits(event, entry, owner, src, base, l, groups);
    PlainPlan(src, event, entry, owner, base, l, groups);
    WhereAreIndices(l, going);
    PartsAreFit(src, event, entry, owner, base, l, groups);
    ConcatIsMerged(base, l, Chosen(going), parts, own);
    NestedApart(base, l, indices, pl, LastOf(l), parts);
    NestedOneWriter(base, l, indices, pl, LastOf(l), parts);
    ConcatWithin(base, l, Chosen(going), parts, 0);
    ListEditsWithin(base, l, indices, pl, LastOf(l));
    WithinConcat(Concat(parts, 0), own, base, ListEnd(base, l) + 1);
  }

  lemma {:induction false} DeletesAreFit(base: nat, l: List, kill: set<nat>, deletes: seq<seq<Edit>>, place: Edit, t: nat)
    requires t < |deletes| && PartsFit(base, l, kill, deletes[t := deletes[t] + [place]])
    ensures PartsFit(base, l, kill, deletes)
  {
    var parts := deletes[t := deletes[t] + [place]];
    forall i: nat | i < |deletes|
      ensures Within(deletes[i], BodyStart(base, l.cells, i), BodyEnd(base, l.cells, i))
      ensures i in kill ==> deletes[i] == []
    {
      assert Within(parts[i], BodyStart(base, l.cells, i), BodyEnd(base, l.cells, i));
      WithinConcat(deletes[t], [place], BodyStart(base, l.cells, i), BodyEnd(base, l.cells, i));
    }
  }

  lemma {:induction false} DeletesAreSilent(src: string, event: string, owner: Owner, base: nat, l: List, groups: seq<Group>, i: nat)
    requires EventStands(src, base, l, groups) && i <= |groups|
    ensures Silent(Concat(DeleteParts(event, owner, base, l, groups), i))
    decreases |groups| - i
  {
    hide RunsOf, Where, Stands, DeleteParts;
    if i < |groups| {
      DeletesAreSilent(src, event, owner, base, l, groups, i + 1);
      GroupDeletesSilent(event, owner, base, l, groups, i);
    }
  }

  lemma {:induction false} GroupDeletesSilent(event: string, owner: Owner, base: nat, l: List, groups: seq<Group>, i: nat)
    requires Holding(l, groups) && i < |groups|
    ensures Silent(DeleteParts(event, owner, base, l, groups)[i])
  {
    hide RunsOf, Where, GroupText;
    if groups[i].Hooked? {
      var h := groups[i].handlers;
      WhereAreIndices(h, HandlerFlags(event, owner, h.cells));
      RunsSilent(HandlersBase(BodyStart(base, l.cells, i), groups[i]), h, OwnedIn(event, owner, h), 0);
    }
  }

  lemma {:induction false} OneWriterAtTheEnd(silent: seq<Edit>, place: Edit)
    requires Silent(silent)
    ensures OneWriter(silent + [place])
  {
    SilentHasOneWriter(silent);
    AtMostOneEdit([place]);
    OneWriterConcat(silent, [place]);
  }

  lemma {:induction false} HostedShape(src: string, event: string, entry: Option<Entry>, owner: Owner, base: nat, l: List, groups: seq<Group>, t: nat)
    requires EventStands(src, base, l, groups)
    requires entry.Some? && Host(entry, groups) == Some(t)
    ensures NodesInSource(EventNodeAt(base, l, groups, owner), src)
    ensures var plan := PlanOf(event, entry, EventNodeAt(base, l, groups, owner), src);
      && Merged(base, l, Parts(event, entry, owner, src, base, l, groups), ArrayEdits(event, entry, owner, src, base, l, groups), plan)
      && Apart(plan)
      && OneWriter(plan)
      && Within(plan, base, ListEnd(base, l) + 1)
  {
    hide RunsOf, Concat, DeleteParts, PlacementOf, Where, Render, Parts, PlanOf, AppendPlacement, Apart, OneWriter, Within, Silent, Goes, Host;
    var going := Going(event, owner, Host(entry, groups), groups);
    var indices := GoingIndices(event, entry, owner, groups);
    WhereAreIndices(l, going);
    var deletes, runs := DeleteParts(event, owner, base, l, groups), RunsOf(base, l, indices, 0);
    HostedPlan(src, event, entry, owner, base, l, groups, t);
    var place := PlacementOf(event, entry.value, EventNodeAt(base, l, groups, owner), src);
    var parts := deletes[t := deletes[t] + [place]];
    PartsAreFit(src, event, entry, owner, base, l, groups);
    DeletesAreFit(base, l, Chosen(going), deletes, place, t);
    NothingPlaced(base, l, indices, LastOf(l));
    RunsSilent(base, l, indices, 0);
    MovedMerges(base, l, Chosen(going), deletes, runs, place, t);
    MovedApart(base, l, indices, deletes, place, t);
    HostedWriters(src, event, owner, base, l, groups, indices, place);
    HostedWithin(base, l, indices, deletes, place, t);
  }

  lemma {:induction false} HostedWriters(src: string, event: string, owner: Owner, base: nat, l: List, groups: seq<Group>, indices: seq<nat>, place: Edit)
    requires EventStands(src, base, l, groups) && IndicesOf(l, indices)
    ensures OneWriter(Concat(DeleteParts(event, owner, base, l, groups), 0) + (RunsOf(base, l, indices, 0) + [place]))
  {
    hide RunsOf, Concat, DeleteParts, OneWriter, Render;
    var deletes, runs := Concat(DeleteParts(event, owner, base, l, groups), 0), RunsOf(base, l, indices, 0);
    DeletesAreSilent(src, event, owner, base, l, groups, 0);
    RunsSilent(base, l, indices, 0);
    OneWriterAtTheEnd(deletes + runs, place);
    assert deletes + (runs + [place]) == (deletes + runs) + [place];
  }

  lemma {:induction false} HostedWithin(base: nat, l: List, indices: seq<nat>, deletes: seq<seq<Edit>>, place: Edit, t: nat)
    requires WfList(l) && IndicesOf(l, indices) && t < |deletes|
    requires PartsFit(base, l, IndexSet(indices, 0), deletes[t := deletes[t] + [place]])
    ensures Within(Concat(deletes, 0) + (RunsOf(base, l, indices, 0) + [place]), base, ListEnd(base, l) + 1)
  {
    hide RunsOf, Concat;
    var parts, runs := deletes[t := deletes[t] + [place]], RunsOf(base, l, indices, 0);
    DeletesAreFit(base, l, IndexSet(indices, 0), deletes, place, t);
    ConcatWithin(base, l, IndexSet(indices, 0), deletes, 0);
    ConcatWithin(base, l, IndexSet(indices, 0), parts, 0);
    InItsConcat(parts, 0, t, place);
    NothingPlaced(base, l, indices, 0);
    ListEditsWithin(base, l, indices, Nothing, 0);
    WithinConcat(runs, [place], base, ListEnd(base, l) + 1);
    WithinConcat(Concat(deletes, 0), runs + [place], base, ListEnd(base, l) + 1);
  }

  // ---- an array that is emptied and gets a new group ----------------------------------------------------

  lemma {:induction false} EmptiedDeletes(event: string, owner: Owner, base: nat, l: List, groups: seq<Group>, i: nat)
    requires Holding(l, groups) && i <= |groups|
    requires AllTrue(Going(event, owner, None, groups))
    ensures Concat(DeleteParts(event, owner, base, l, groups), i) == []
    decreases |groups| - i
  {
    hide RunsOf, Where, WfGroup, GroupText, HandlerFlags, WfList;
    if i < |groups| {
      assert Going(event, owner, None, groups)[i];
      assert Goes(event, owner, None, groups, i);
      EmptiedDeletes(event, owner, base, l, groups, i + 1);
    }
  }

  lemma {:induction false} ReopenPlan(src: string, event: string, entry: Option<Entry>, owner: Owner, base: nat, l: List, groups: seq<Group>)
    requires EventStands(src, base, l, groups) && Reopens(event, entry, owner, groups)
    ensures NodesInSource(EventNodeAt(base, l, groups, owner), src)
    ensures IndicesOf(l, GoingIndices(event, entry, owner, groups))
    ensures PlanOf(event, entry, EventNodeAt(base, l, groups, owner), src)
         == RunsOf(base, l, GoingIndices(event, entry, owner, groups), 0) + [Edit(base, base, entry.value.Group())]
  {
    hide RunsOf, Concat, DeleteParts, PlacementOf, Where, Render, PlanOf, Going, Host;
    PlanDeletes(src, event, entry, owner, base, l, groups);
    EmptiedDeletes(event, owner, base, l, groups, 0);
    AppendedPlacement(src, event, entry.value, owner, base, l, groups);
    EmptyPlusEdits(RunsOf(base, l, GoingIndices(event, entry, owner, groups), 0) + [Edit(base, base, entry.value.Group())]);
  }

  /** When every element goes, nothing depends on the texts of the elements. */
  lemma {:induction false} NothingLeft(l: List, a: seq<string>, b: seq<string>, kill: set<nat>, i: nat, carry: string)
    requires |a| == |b| == |l.cells| && i <= |l.cells| && AllFrom(kill, i, |l.cells|)
    ensures Splice(l, a, kill, Nothing, i, carry) == Splice(l, b, kill, Nothing, i, carry)
    ensures Splice(l, a, kill, Nothing, i, carry).cells == []
    decreases |l.cells| - i
  {
    if i < |l.cells| && l.trailing {
      NothingLeft(l, a, b, kill, i + 1, if i > 0 && i - 1 in kill then carry else carry + l.cells[i].pre);
    }
  }

  lemma {:induction false} ReopenedText(text: string, tail: string, close: string)
    ensures text + ((RenderCells([], false) + tail) + close) == Render(List([Cell("", text, tail)], false, "")) + close
  {
    OneCell(Cell("", text, tail), false);
    EmptyPlus(tail);
    ReplacedParts("", text, tail, "", "", close);
    EmptyPlus(close);
    EmptyPlus(text + (tail + close));
  }

  lemma {:induction false} ReopenShape(src: string, event: string, entry: Option<Entry>, owner: Owner, base: nat, l: List, groups: seq<Group>)
    requires EventStands(src, base, l, groups) && Reopens(event, entry, owner, groups)
    ensures NodesInSource(EventNodeAt(base, l, groups, owner), src)
    ensures var plan := PlanOf(event, entry, EventNodeAt(base, l, groups, owner), src);
      && Apart(plan) && OneWriter(plan) && Within(plan, base, ListEnd(base, l) + 1)
  {
    hide RunsOf, Where, Render, PlanOf, Going, Host, Apart, OneWriter;
    var indices := GoingIndices(event, entry, owner, groups);
    ReopenPlan(src, event, entry, owner, base, l, groups);
    var runs, ins := RunsOf(base, l, indices, 0), Edit(base, base, entry.value.Group());
    RunsApart(base, l, indices, 0);
    AtMostOneEdit([ins]);
    forall e | e in runs ensures Compatible(e, ins) && e.text == "" {
      RunsShape(base, l, indices, 0, IndexSet(indices, 0), e);
    }
    ApartConcat(runs, [ins]);
    OneWriterAtTheEnd(runs, ins);
    NothingPlaced(base, l, indices, 0);
    ListEditsWithin(base, l, indices, Nothing, 0);
    WithinConcat(runs, [ins], base, ListEnd(base, l) + 1);
  }

  lemma {:induction false} ReopenOut(src: string, event: string, entry: Option<Entry>, owner: Owner, base: nat, l: List, groups: seq<Group>)
    requires EventStands(src, base, l, groups) && Reopens(event, entry, owner, groups)
    ensures NodesInSource(EventNodeAt(base, l, groups, owner), src)
    ensures base <= ListEnd(base, l) + 1 <= |src|
    ensures Out(src, PlanOf(event, entry, EventNodeAt(base, l, groups, owner), src), base, ListEnd(base, l) + 1)
         == Render(PatchedArray(event, entry, owner, src, base, l, groups)) + [src[ListEnd(base, l)]]
  {
    hide RunsOf, Where, PlanOf, Going, Host, Out, Splice, Bodies, Texts, HostLead;
    var going, indices := Going(event, owner, Host(entry, groups), groups), GoingIndices(event, entry, owner, groups);
    var end, text := ListEnd(base, l) + 1, entry.value.Group();
    ReopenPlan(src, event, entry, owner, base, l, groups);
    WhereAreIndices(l, going);
    var runs, kill := RunsOf(base, l, indices, 0), Chosen(going);
    var bodies := Texts(PatchedGroups(event, entry, owner, groups, HostLead(src, base, l, groups, Host(entry, groups))));
    RunsWriteNothing(base, l, indices, 0, base);
    InsertFirst(src, runs, base, end, text);
    NothingPlaced(base, l, indices, 0);
    ListEditsOut(src, base, l, indices, Nothing, 0);
    AllChosen(going);
    NothingLeft(l, bodies, Bodies(l.cells), kill, 0, "");
    ReopenedText(text, Splice(l, bodies, kill, Nothing, 0, "").tail, [src[ListEnd(base, l)]]);
  }

  // ---- the main results for one event -----------------------------------------------------------------------

  /** The edits planned for one event overlap in exactly one shape of its array. */
  lemma {:induction false} PlanApart(src: string, event: string, entry: Option<Entry>, owner: Owner, base: nat, l: List, groups: seq<Group>)
    requires EventStands(src, base, l, groups)
    ensures NodesInSource(EventNodeAt(base, l, groups, owner), src)
    ensures var plan := PlanOf(event, entry, EventNodeAt(base, l, groups, owner), src);
      && (Apart(plan) <==> !Unpatchable(event, entry, owner, l, groups))
      && OneWriter(plan)
      && Within(plan, base, ListEnd(base, l) + 1)
  {
    hide RunsOf, Where, PlanOf, Going, Host, Apart, OneWriter, Stands, Within, Parts, ArrayEdits;
    if Reopens(event, entry, owner, groups) {
      ReopenShape(src, event, entry, owner, base, l, groups);
    } else {
      PlanShape(src, event, entry, owner, base, l, groups);
    }
  }

  /** Whenever they do not overlap, they turn the array into the patched array. */
  lemma {:induction false} EventOut(src: string, event: string, entry: Option<Entry>, owner: Owner, base: nat, l: List, groups: seq<Group>)
    requires EventStands(src, base, l, groups) && !Unpatchable(event, entry, owner, l, groups)
    ensures NodesInSource(EventNodeAt(base, l, groups, owner), src)
    ensures base <= ListEnd(base, l) + 1 <= |src|
    ensures Out(src, PlanOf(event, entry, EventNodeAt(base, l, groups, owner), src), base, ListEnd(base, l) + 1)
         == Render(PatchedArray(event, entry, owner, src, base, l, groups)) + [src[ListEnd(base, l)]]
  {
    hide RunsOf, Where, PlanOf, Going, Host, Apart, OneWriter, Within, Out, Render, SpliceList, GroupText, Parts, HostLead;
    if Reopens(event, entry, owner, groups) {
      ReopenOut(src, event, entry, owner, base, l, groups);
    } else {
      SplicedEvent(src, event, entry, owner, base, l, groups);
    }
  }

  lemma {:induction false} SplicedEvent(src: string, event: string, entry: Option<Entry>, owner: Owner, base: nat, l: List, groups: seq<Group>)
    requires EventStands(src, base, l, groups) && !Unpatchable(event, entry, owner, l, groups)
    requires !Reopens(event, entry, owner, groups)
    ensures NodesInSource(EventNodeAt(base, l, groups, owner), src)
    ensures base <= ListEnd(base, l) + 1 <= |src|
    ensures Out(src, PlanOf(event, entry, EventNodeAt(base, l, groups, owner), src), base, ListEnd(base, l) + 1)
         == Render(PatchedArray(event, entry, owner, src, base, l, groups)) + [src[ListEnd(base, l)]]
  {
    hide RunsOf, Where, PlanOf, Goes, Host, Apart, OneWriter, Within, Out, Render, SpliceList, GroupText, HostLead, AppendPlacement,
      GroupEdits, PatchedGroup, Merged, PartsFit, ListEdits, BodyOut, SpliceEdits;
    var host := Host(entry, groups);
    var going, indices := Going(event, owner, host, groups), GoingIndices(event, entry, owner, groups);
    var lead := HostLead(src, base, l, groups, host);
    var bodies, parts := Texts(PatchedGroups(event, entry, owner, groups, lead)), Parts(event, entry, owner, src, base, l, groups);
    var pl := ArrayPlacement(event, entry, owner, src, base, l, groups);
    PlanShape(src, event, entry, owner, base, l, groups);
    var plan := PlanOf(event, entry, EventNodeAt(base, l, groups, owner), src);
    WhereAreIndices(l, going);
    AllChosen(going);
    PartsAreFit(src, event, entry, owner, base, l, groups);
    forall i: nat | i < |groups| ensures BodyOut(src, base, l, parts[i], i, bodies[i]) {
      GroupOut(src, event, owner, base, l, groups, i, PlacedIn(entry, host, i), lead);
    }
    NestedSplice(src, base, l, bodies, indices, pl, LastOf(l), parts, plan);
    SplicedListOut(src, base, l, bodies, Chosen(going), pl, plan, LastOf(l));
  }
}
