/**
 The text of one event: an array of matcher groups, some of which hold an array of handlers.
 The nodes that `EventPlan` works on are the positions of this text, and the plan is shown to be
 made of the edits of each group and the edits of the array.
 */
module EventText {
  import opened Outcomes
  import opened Flags
  import opened Splicing
  import opened JsonLayout
  import opened RunDeletion
  import opened ListSplice
  import opened ListEditing
  import opened Nesting
  import opened Lines
  import opened EventPlan
  import opened HandlerPatch

  /** A group without handlers, or one with the text around them, brackets included. */
  datatype Group =
    | Plain(text: string, matcher: Option<string>)
    | Hooked(before: string, handlers: List, after: string, matcher: Option<string>)

  function GroupText(g: Group): string {
    match g
    case Plain(text, _) => text
    case Hooked(before, handlers, after, _) => Enclosed(before, handlers, after)
  }

  predicate WfGroup(g: Group) {
    match g
    case Plain(text, _) => WfBody(text)
    case Hooked(before, handlers, after, _) => WfBody(before) && WfList(handlers) && WfBody(after)
  }

  /** The elements of the array `l` are the texts of `groups`. */
  predicate Holding(l: List, groups: seq<Group>) {
    && |groups| == |l.cells|
    && forall i :: 0 <= i < |groups| ==> WfGroup(groups[i]) && l.cells[i].body == GroupText(groups[i])
  }

  // ---- the nodes of the text ---------------------------------------------------------------

  function HandlerNodes(base: nat, cells: seq<Cell>, owner: Owner): (r: seq<HandlerNode>)
    ensures |r| == |cells|
  {
    seq(|cells|, i requires 0 <= i < |cells| =>
      HandlerNode(Range(BodyStart(base, cells, i), BodyEnd(base, cells, i)), owner(cells[i].body)))
  }

  /** Where the handlers of a group that starts at `start` begin. */
  function HandlersBase(start: nat, g: Group): nat {
    if g.Hooked? then start + |g.before| else start
  }

  function GroupNodeAt(start: nat, g: Group, owner: Owner): GroupNode
    requires WfGroup(g)
  {
    GroupNode(
      Range(start, start + |GroupText(g)|),
      g.matcher,
      if g.Plain? then None
      else Some(HandlersNode(start + |g.before| - 1, HandlerNodes(start + |g.before|, g.handlers.cells, owner))))
  }

  function GroupNodes(base: nat, l: List, groups: seq<Group>, owner: Owner): (r: seq<GroupNode>)
    requires Holding(l, groups)
    ensures |r| == |groups|
  {
    seq(|groups|, i requires 0 <= i < |groups| => GroupNodeAt(BodyStart(base, l.cells, i), groups[i], owner))
  }

  function EventNodeAt(base: nat, l: List, groups: seq<Group>, owner: Owner): EventNode
    requires 0 < base && Holding(l, groups)
  {
    EventNode(base - 1, GroupNodes(base, l, groups, owner))
  }

  lemma {:induction false} GroupHolds(src: string, base: nat, l: List, groups: seq<Group>, i: nat)
    requires Stands(src, base, l) && Holding(l, groups) && i < |groups|
    ensures Holds(src, BodyStart(base, l.cells, i), GroupText(groups[i]))
    ensures BodyStart(base, l.cells, i) + |GroupText(groups[i])| == BodyEnd(base, l.cells, i)
  {
    PartsStand(src, base, l, i);
  }

  /** The handlers of a group stand in the source between their brackets. */
  lemma {:induction false} HandlersStand(src: string, base: nat, l: List, groups: seq<Group>, i: nat)
    requires Stands(src, base, l) && Holding(l, groups) && i < |groups| && groups[i].Hooked?
    ensures Stands(src, HandlersBase(BodyStart(base, l.cells, i), groups[i]), groups[i].handlers)
    ensures BodyStart(base, l.cells, i) < HandlersBase(BodyStart(base, l.cells, i), groups[i])
    ensures ListEnd(HandlersBase(BodyStart(base, l.cells, i), groups[i]), groups[i].handlers) < BodyEnd(base, l.cells, i)
    ensures src[ListEnd(HandlersBase(BodyStart(base, l.cells, i), groups[i]), groups[i].handlers)] == groups[i].after[0]
  {
    hide Render, Enclosed;
    var g := groups[i];
    GroupHolds(src, base, l, groups, i);
    EnclosedStands(src, BodyStart(base, l.cells, i), g.before, g.handlers, g.after);
  }

  lemma {:induction false} NodesAreInSource(src: string, base: nat, l: List, groups: seq<Group>, owner: Owner)
    requires Stands(src, base, l) && Holding(l, groups)
    ensures NodesInSource(EventNodeAt(base, l, groups, owner), src)
  {
    var nodes := GroupNodes(base, l, groups, owner);
    forall i | 0 <= i < |nodes|
      ensures GroupRanges(nodes)[i].start <= GroupRanges(nodes)[i].end <= |src| && HandlersInSource(nodes[i], src)
    {
      GroupHolds(src, base, l, groups, i);
      if groups[i].Hooked? {
        var hbase, h := HandlersBase(BodyStart(base, l.cells, i), groups[i]), groups[i].handlers;
        HandlersStand(src, base, l, groups, i);
        RangesInSource(src, hbase, h);
        NodeRanges(hbase, h.cells, owner);
      }
    }
  }

  lemma {:induction false} NodeRanges(base: nat, cells: seq<Cell>, owner: Owner)
    ensures HandlerRanges(HandlerNodes(base, cells, owner)) == Ranges(base, cells)
  {
  }

  lemma {:induction false} GroupNodeRanges(src: string, base: nat, l: List, groups: seq<Group>, owner: Owner)
    requires Stands(src, base, l) && Holding(l, groups)
    ensures GroupRanges(GroupNodes(base, l, groups, owner)) == Ranges(base, l.cells)
  {
    forall i | 0 <= i < |groups| ensures GroupRanges(GroupNodes(base, l, groups, owner))[i] == Ranges(base, l.cells)[i] {
      GroupHolds(src, base, l, groups, i);
    }
  }

  // ---- the decisions, read off the text -----------------------------------------------------

  predicate Hosts(entry: Option<Entry>, g: Group) {
    entry.Some? && g.Hooked? && g.matcher == Some(WantedMatcher(entry))
  }

  /** The first group that can take the new handler. */
  function Host(entry: Option<Entry>, groups: seq<Group>): Option<nat> {
    First(seq(|groups|, i requires 0 <= i < |groups| => Hosts(entry, groups[i])), 0)
  }

  /** A group that becomes empty and does not host the new handler. */
  predicate Goes(event: string, owner: Owner, host: Option<nat>, groups: seq<Group>, i: nat)
    requires i < |groups|
  {
    groups[i].Hooked? && Emptied(event, owner, groups[i].handlers) && host != Some(i)
  }

  function Going(event: string, owner: Owner, host: Option<nat>, groups: seq<Group>): (r: seq<bool>)
    ensures |r| == |groups|
  {
    seq(|groups|, i requires 0 <= i < |groups| => Goes(event, owner, host, groups, i))
  }

  lemma {:induction false} HandlerFlagsAgree(event: string, base: nat, cells: seq<Cell>, owner: Owner)
    ensures OwnedFlags(event, HandlerNodes(base, cells, owner)) == HandlerFlags(event, owner, cells)
  {
  }

  lemma {:induction false} AllOwnedAgrees(event: string, start: nat, g: Group, owner: Owner)
    requires WfGroup(g)
    ensures AllOwned(event, GroupNodeAt(start, g, owner)) <==> g.Hooked? && Emptied(event, owner, g.handlers)
    ensures g.Hooked? ==> GroupOwned(event, GroupNodeAt(start, g, owner)) == OwnedIn(event, owner, g.handlers)
  {
    hide Where, OwnedFlags, HandlerFlags, HandlerNodes, GroupText, WfGroup;
    if g.Hooked? {
      HandlerFlagsAgree(event, start + |g.before|, g.handlers.cells, owner);
      WhereAll(HandlerFlags(event, owner, g.handlers.cells), 0);
    }
  }

  lemma {:induction false} HostAgrees(entry: Option<Entry>, base: nat, l: List, groups: seq<Group>, owner: Owner)
    requires Holding(l, groups)
    ensures TargetOf(entry, GroupNodes(base, l, groups, owner)) == Host(entry, groups)
  {
    assert HostFlags(entry, GroupNodes(base, l, groups, owner))
        == seq(|groups|, i requires 0 <= i < |groups| => Hosts(entry, groups[i]));
  }

  lemma {:induction false} CleanedAgree(event: string, host: Option<nat>, base: nat, l: List, groups: seq<Group>, owner: Owner)
    requires Holding(l, groups)
    ensures CleanedFlags(event, host, GroupNodes(base, l, groups, owner)) == Going(event, owner, host, groups)
  {
    var nodes := GroupNodes(base, l, groups, owner);
    forall i | 0 <= i < |groups| ensures CleanedFlags(event, host, nodes)[i] == Going(event, owner, host, groups)[i] {
      AllOwnedAgrees(event, BodyStart(base, l.cells, i), groups[i], owner);
    }
  }

  // ---- the plan, in terms of the text --------------------------------------------------------

  /** The edits inside group `i`. */
  function GroupEdits(event: string, owner: Owner, base: nat, l: List, groups: seq<Group>, i: nat, placed: Option<string>, lead: string): seq<Edit>
    requires Holding(l, groups) && i < |groups|
  {
    var g := groups[i];
    if g.Plain? then []
    else if placed.None? && Emptied(event, owner, g.handlers) then []
    else HandlerEdits(event, owner, HandlersBase(BodyStart(base, l.cells, i), g), g.handlers, placed, lead)
  }

  function PlacedIn(entry: Option<Entry>, host: Option<nat>, i: nat): Option<string> {
    if entry.Some? && host == Some(i) then Some(entry.value.handler) else None
  }

  /** The line convention at the first handler of a group. */
  function FirstLead(src: string, base: nat, h: List): (r: string)
    requires Stands(src, base, h)
    ensures AllWs(r)
  {
    if h.cells == [] then ""
    else
      PartsStand(src, base, h, 0);
      Lead(src, BodyStart(base, h.cells, 0))
  }

  /** What the placement writes before a handler. */
  function HostLead(src: string, base: nat, l: List, groups: seq<Group>, host: Option<nat>): (r: string)
    requires Stands(src, base, l) && Holding(l, groups)
    ensures AllWs(r)
  {
    if host.Some? && host.value < |groups| && groups[host.value].Hooked? then
      var g := groups[host.value];
      HandlersStand(src, base, l, groups, host.value);
      FirstLead(src, HandlersBase(BodyStart(base, l.cells, host.value), g), g.handlers)
    else ""
  }

  /** The edits inside each group. */
  function Parts(event: string, entry: Option<Entry>, owner: Owner, src: string, base: nat, l: List, groups: seq<Group>): (r: seq<seq<Edit>>)
    requires Stands(src, base, l) && Holding(l, groups)
    ensures |r| == |groups|
  {
    var host := Host(entry, groups);
    seq(|groups|, i requires 0 <= i < |groups| =>
      GroupEdits(event, owner, base, l, groups, i, PlacedIn(entry, host, i), HostLead(src, base, l, groups, host)))
  }

  /** The deletions inside each group. */
  function DeleteParts(event: string, owner: Owner, base: nat, l: List, groups: seq<Group>): (r: seq<seq<Edit>>)
    requires Holding(l, groups)
    ensures |r| == |groups|
  {
    seq(|groups|, i requires 0 <= i < |groups| =>
      if groups[i].Plain? then []
      else DeletesIn(event, owner, HandlersBase(BodyStart(base, l.cells, i), groups[i]), groups[i].handlers))
  }

  lemma {:induction false} GroupDeletesAre(src: string, event: string, owner: Owner, base: nat, l: List, groups: seq<Group>, i: nat)
    requires Stands(src, base, l) && Holding(l, groups) && i < |groups|
    requires HandlersInSource(GroupNodes(base, l, groups, owner)[i], src)
    ensures GroupDeletes(event, GroupNodes(base, l, groups, owner), i, src) == DeleteParts(event, owner, base, l, groups)[i]
  {
    hide Render, RunEdits, RunsOf, Where;
    var g := groups[i];
    AllOwnedAgrees(event, BodyStart(base, l.cells, i), g, owner);
    if g.Hooked? {
      var hbase, h := HandlersBase(BodyStart(base, l.cells, i), g), g.handlers;
      HandlersStand(src, base, l, groups, i);
      RangesInSource(src, hbase, h);
      NodeRanges(hbase, h.cells, owner);
      WhereAreIndices(h, HandlerFlags(event, owner, h.cells));
      RunEditsAreRunsOf(src, hbase, h, OwnedIn(event, owner, h), 0);
    }
  }

  lemma {:induction false} HandlerDeletesAre(src: string, event: string, owner: Owner, base: nat, l: List, groups: seq<Group>, i: nat)
    requires Stands(src, base, l) && Holding(l, groups) && i <= |groups|
    requires forall k :: 0 <= k < |groups| ==> HandlersInSource(GroupNodes(base, l, groups, owner)[k], src)
    ensures HandlerDeletes(event, GroupNodes(base, l, groups, owner), i, src) == Concat(DeleteParts(event, owner, base, l, groups), i)
    decreases |groups| - i
  {
    hide GroupDeletes, GroupNodes, DeleteParts, HandlersInSource, Stands, Holding;
    if i < |groups| {
      HandlerDeletesAre(src, event, owner, base, l, groups, i + 1);
      GroupDeletesAre(src, event, owner, base, l, groups, i);
    }
  }

  lemma {:induction false} HostEditIs(src: string, event: string, owner: Owner, start: nat, g: Group, text: string)
    requires WfGroup(g) && g.Hooked? && HandlersInSource(GroupNodeAt(start, g, owner), src)
    requires Stands(src, start + |g.before|, g.handlers)
    ensures HostEdit(event, GroupNodeAt(start, g, owner), src, text)
         == PlaceIn(event, owner, start + |g.before|, g.handlers, text, FirstLead(src, start + |g.before|, g.handlers))
  {
    hide Where, LastSurvivor, GroupText, HandlerFlags, OwnedFlags, Lead;
    var hbase, h := start + |g.before|, g.handlers;
    var flags := HandlerFlags(event, owner, h.cells);
    AllOwnedAgrees(event, start, g, owner);
    if h.cells == [] {
      assert HandlerNodes(hbase, h.cells, owner) == [];
    } else if Emptied(event, owner, h) {
      WhereAll(flags, 0);
    } else {
      LastSurvivorIs(flags);
    }
  }

  lemma {:induction false} HostIsHere(entry: Entry, groups: seq<Group>, t: nat)
    requires Host(Some(entry), groups) == Some(t)
    ensures t < |groups| && groups[t].Hooked?
  {
  }

  /** The placement of a handler in the group that hosts it. */
  lemma {:induction false} HostedPlacement(src: string, event: string, entry: Entry, owner: Owner, base: nat, l: List, groups: seq<Group>, t: nat)
    requires Stands(src, base, l) && Holding(l, groups) && Host(Some(entry), groups) == Some(t)
    requires NodesInSource(EventNodeAt(base, l, groups, owner), src)
    ensures t < |groups| && groups[t].Hooked?
    ensures PlacementOf(event, entry, EventNodeAt(base, l, groups, owner), src)
         == PlaceIn(event, owner, HandlersBase(BodyStart(base, l.cells, t), groups[t]), groups[t].handlers, entry.handler,
              HostLead(src, base, l, groups, Some(t)))
  {
    hide Render, HostEdit, PlaceIn, GroupNodeAt, FirstLead, PlacementOf, NodesInSource, GroupText, WfBody, WfList, BodyStart;
    HostAgrees(Some(entry), base, l, groups, owner);
    HostedPlacementIs(event, entry, EventNodeAt(base, l, groups, owner), src, t);
    HostIsHere(entry, groups, t);
    HandlersStand(src, base, l, groups, t);
    HostEditIs(src, event, owner, BodyStart(base, l.cells, t), groups[t], entry.handler);
  }

  /** Where and how a new group joins an array that keeps some group. */
  function AppendPlacement(src: string, base: nat, l: List, entry: Entry): (pl: Placement)
    requires Stands(src, base, l) && l.cells != []
    ensures pl.AfterLast? && AllWs(pl.lead)
  {
    PartsStand(src, base, l, |l.cells| - 1);
    AfterLast(Lead(src, BodyStart(base, l.cells, |l.cells| - 1)), entry.Group())
  }

  lemma {:induction false} AppendedPlacement(src: string, event: string, entry: Entry, owner: Owner, base: nat, l: List, groups: seq<Group>)
    requires Stands(src, base, l) && Holding(l, groups) && Host(Some(entry), groups).None?
    requires NodesInSource(EventNodeAt(base, l, groups, owner), src)
    ensures AllTrue(Going(event, owner, None, groups)) ==>
      PlacementOf(event, entry, EventNodeAt(base, l, groups, owner), src) == Edit(base, base, entry.Group())
    ensures !AllTrue(Going(event, owner, None, groups)) ==>
      l.cells != [] &&
      [PlacementOf(event, entry, EventNodeAt(base, l, groups, owner), src)] == PlacementEdits(base, l, AppendPlacement(src, base, l, entry), |l.cells| - 1)
  {
    hide Where, Going, CleanedFlags, GroupNodes, HostFlags, Host, NewlineFrom, LineIndent, PlacementOf, NodesInSource, GroupText, WfBody, WfList;
    HostAgrees(Some(entry), base, l, groups, owner);
    OwnPlacementIs(event, entry, EventNodeAt(base, l, groups, owner), src);
    CleanedAgree(event, None, base, l, groups, owner);
    WhereAll(Going(event, owner, None, groups), 0);
    if !AllTrue(Going(event, owner, None, groups)) {
      GroupNodeRanges(src, base, l, groups, owner);
    }
  }
}
