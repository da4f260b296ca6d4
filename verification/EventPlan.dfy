/**
 Planning the edits of one event (`plan_event`).

 The parsed event is an array of matcher groups; a group may hold an array of handlers, and a
 handler may be one this program owns for some event.  Ranges are positions in the source.
 `PlanEvent` follows the program's loops; `PlanOf` is the same plan as an expression, and the
 meaning of that plan is proved in `EventSplice`.
 */
module EventPlan {
  import opened Outcomes
  import opened Flags
  import opened Splicing
  import opened RunDeletion
  import opened Lines

  /** `event` is the event for which the handler is recognised as owned, if any. */
  datatype HandlerNode = HandlerNode(range: Range, event: Option<string>)

  /** `start` is the position of the opening bracket. */
  datatype HandlersNode = HandlersNode(start: nat, elements: seq<HandlerNode>)

  datatype GroupNode = GroupNode(range: Range, matcher: Option<string>, handlers: Option<HandlersNode>)

  datatype EventNode = EventNode(start: nat, elements: seq<GroupNode>)

  /**
   A desired entry: the serialised text of its handler, and what stands around it in the text of a
   group of its own.
   */
  datatype Entry = Entry(matcher: Option<string>, handler: string, before: string, after: string) {
    function Group(): string {
      before + (handler + after)
    }
  }

  // ---- the decisions ------------------------------------------------------------------

  function HandlerRanges(elements: seq<HandlerNode>): (r: seq<Range>)
    ensures |r| == |elements|
  {
    seq(|elements|, i requires 0 <= i < |elements| => elements[i].range)
  }

  function GroupRanges(elements: seq<GroupNode>): (r: seq<Range>)
    ensures |r| == |elements|
  {
    seq(|elements|, i requires 0 <= i < |elements| => elements[i].range)
  }

  /** Which handlers are owned for `event`. */
  function OwnedFlags(event: string, elements: seq<HandlerNode>): (r: seq<bool>)
    ensures |r| == |elements|
  {
    seq(|elements|, i requires 0 <= i < |elements| => elements[i].event == Some(event))
  }

  /** The handlers of a group owned for `event` (`owned_handler_indices_in`). */
  function GroupOwned(event: string, g: GroupNode): seq<nat> {
    if g.handlers.Some? then Where(OwnedFlags(event, g.handlers.value.elements), 0) else []
  }

  predicate AllOwned(event: string, g: GroupNode) {
    && g.handlers.Some?
    && GroupOwned(event, g) != []
    && |GroupOwned(event, g)| == |g.handlers.value.elements|
  }

  function WantedMatcher(entry: Option<Entry>): string {
    if entry.Some? && entry.value.matcher.Some? then entry.value.matcher.value else ""
  }

  predicate CanHost(entry: Option<Entry>, g: GroupNode) {
    entry.Some? && g.matcher == Some(WantedMatcher(entry)) && g.handlers.Some?
  }

  function HostFlags(entry: Option<Entry>, groups: seq<GroupNode>): (r: seq<bool>)
    ensures |r| == |groups|
  {
    seq(|groups|, i requires 0 <= i < |groups| => CanHost(entry, groups[i]))
  }

  /** The first group that can take the handler. */
  function TargetOf(entry: Option<Entry>, groups: seq<GroupNode>): Option<nat> {
    First(HostFlags(entry, groups), 0)
  }

  /** A group that goes: its handlers are all owned, and it does not host the new one. */
  predicate Cleaned(event: string, target: Option<nat>, groups: seq<GroupNode>, i: nat)
    requires i < |groups|
  {
    AllOwned(event, groups[i]) && target != Some(i)
  }

  function CleanedFlags(event: string, target: Option<nat>, groups: seq<GroupNode>): (r: seq<bool>)
    ensures |r| == |groups|
  {
    seq(|groups|, i requires 0 <= i < |groups| => Cleaned(event, target, groups, i))
  }

  function CleanedGroups(event: string, target: Option<nat>, groups: seq<GroupNode>): seq<nat> {
    Where(CleanedFlags(event, target, groups), 0)
  }

  /** The ranges of a parsed event are ranges of the source. */
  predicate NodesInSource(node: EventNode, src: string) {
    && node.start < |src|
    && InSource(GroupRanges(node.elements), src)
    && forall i :: 0 <= i < |node.elements| ==> HandlersInSource(node.elements[i], src)
  }

  predicate HandlersInSource(g: GroupNode, src: string) {
    g.handlers.Some? ==> g.handlers.value.start < |src| && InSource(HandlerRanges(g.handlers.value.elements), src)
  }

  // ---- the plan ---------------------------------------------------------------------------

  /** The deletions inside one group: none when the group goes or its handlers are replaced. */
  function GroupDeletes(event: string, groups: seq<GroupNode>, i: nat, src: string): seq<Edit>
    requires i < |groups| && HandlersInSource(groups[i], src)
  {
    if groups[i].handlers.None? || AllOwned(event, groups[i]) then []
    else RunEdits(HandlerRanges(groups[i].handlers.value.elements), GroupOwned(event, groups[i]), 0, src)
  }

  function HandlerDeletes(event: string, groups: seq<GroupNode>, i: nat, src: string): seq<Edit>
    requires i <= |groups| && forall k :: 0 <= k < |groups| ==> HandlersInSource(groups[k], src)
    decreases |groups| - i
  {
    if i == |groups| then []
    else GroupDeletes(event, groups, i, src) + HandlerDeletes(event, groups, i + 1, src)
  }

  /** The last of the first `n` elements that is not owned. */
  function LastSurvivor(owned: seq<nat>, n: nat): (r: Option<nat>)
    ensures r.Some? ==> r.value < n && r.value !in owned
    ensures forall k :: (if r.Some? then r.value + 1 else 0) <= k < n ==> k in owned
  {
    if n == 0 then None
    else if n - 1 !in owned then Some(n - 1)
    else LastSurvivor(owned, n - 1)
  }

  /** Placing a handler next to the ones that stay (`place_handler_in_group`). */
  function PlaceHandler(handlers: HandlersNode, owned: seq<nat>, src: string, text: string): Edit
    requires handlers.start < |src| && InSource(HandlerRanges(handlers.elements), src)
  {
    var last := LastSurvivor(owned, |handlers.elements|);
    if last.Some? then
      assert HandlerRanges(handlers.elements)[0] == handlers.elements[0].range;
      var at := handlers.elements[last.value].range.end;
      Edit(at, at, "," + (Lead(src, handlers.elements[0].range.start) + text))
    else Edit(handlers.start + 1, handlers.start + 1, text)
  }

  /** Appending an element to an array (`insert_array_append`). */
  function AppendElement(node: EventNode, src: string, text: string): Edit
    requires node.start < |src| && InSource(GroupRanges(node.elements), src)
  {
    if node.elements == [] then Edit(node.start + 1, node.start + 1, text)
    else
      var last := GroupRanges(node.elements)[|node.elements| - 1];
      Edit(last.end, last.end, "," + (Lead(src, last.start) + text))
  }

  /** Placing a handler in the group that hosts it: in place of its handlers when all are owned. */
  function HostEdit(event: string, g: GroupNode, src: string, text: string): Edit
    requires g.handlers.Some? && HandlersInSource(g, src)
  {
    var handlers := g.handlers.value;
    var owned := GroupOwned(event, g);
    if AllOwned(event, g) then
      Edit(handlers.elements[owned[0]].range.start, handlers.elements[owned[|owned| - 1]].range.end, text)
    else PlaceHandler(handlers, owned, src, text)
  }

  function PlacementOf(event: string, entry: Entry, node: EventNode, src: string): Edit
    requires NodesInSource(node, src)
  {
    var target := TargetOf(Some(entry), node.elements);
    match target
    case Some(t) => HostEdit(event, node.elements[t], src, entry.handler)
    case None =>
      if |CleanedGroups(event, target, node.elements)| == |node.elements| then
        Edit(node.start + 1, node.start + 1, entry.Group())
      else AppendElement(node, src, entry.Group())
  }

  lemma {:induction false} HostedPlacementIs(event: string, entry: Entry, node: EventNode, src: string, t: nat)
    requires NodesInSource(node, src) && TargetOf(Some(entry), node.elements) == Some(t)
    ensures t < |node.elements| && CanHost(Some(entry), node.elements[t]) && HandlersInSource(node.elements[t], src)
    ensures PlacementOf(event, entry, node, src) == HostEdit(event, node.elements[t], src, entry.handler)
  {
  }

  lemma {:induction false} OwnPlacementIs(event: string, entry: Entry, node: EventNode, src: string)
    requires NodesInSource(node, src) && TargetOf(Some(entry), node.elements).None?
    ensures PlacementOf(event, entry, node, src)
         == if |CleanedGroups(event, None, node.elements)| == |node.elements| then Edit(node.start + 1, node.start + 1, entry.Group())
            else AppendElement(node, src, entry.Group())
  {
  }

  /** What a placement writes: the bare text, or a comma and the text on a line of its own. */
  ghost predicate IsLine(src: string, pos: nat, body: string, text: string)
    requires pos <= |src|
  {
    exists lead :: IsLead(src, pos, lead) && text == "," + (lead + body)
  }

  /**
   A placement writes the handler, or the group when no group can take it: bare, or after a comma, the
   newline of the source, and the indentation of the first handler or of the last group.
   */
  lemma {:induction false} PlacementWrites(event: string, entry: Entry, node: EventNode, src: string)
    requires NodesInSource(node, src)
    ensures var target, text, groups := TargetOf(Some(entry), node.elements), PlacementOf(event, entry, node, src).text, node.elements;
      match target
      case Some(t) =>
        && t < |groups| && groups[t].handlers.Some?
        && var handlers := groups[t].handlers.value.elements;
          if handlers == [] || AllOwned(event, groups[t]) then text == entry.handler
          else handlers[0].range.start <= |src| && IsLine(src, handlers[0].range.start, entry.handler, text)
      case None =>
        if forall i :: 0 <= i < |groups| ==> Cleaned(event, None, groups, i) then text == entry.Group()
        else groups[|groups| - 1].range.start <= |src| && IsLine(src, groups[|groups| - 1].range.start, entry.Group(), text)
  {
    hide Where, GroupOwned, Lead, IsLead;
    var target, groups := TargetOf(Some(entry), node.elements), node.elements;
    if target.Some? {
      HostedPlacementIs(event, entry, node, src, target.value);
      HostWrites(event, groups[target.value], src, entry.handler);
    } else {
      OwnPlacementIs(event, entry, node, src);
      WhereAll(CleanedFlags(event, None, groups), 0);
      var flags := CleanedFlags(event, None, groups);
      forall i | 0 <= i < |groups| ensures flags[i] <==> Cleaned(event, None, groups, i) {}
      if forall i :: 0 <= i < |groups| ==> Cleaned(event, None, groups, i) {
        assert forall i :: 0 <= i < |groups| ==> flags[i];
      } else {
        var i :| 0 <= i < |groups| && !Cleaned(event, None, groups, i);
        assert !flags[i];
      }
      if groups != [] {
        var last := GroupRanges(groups)[|groups| - 1];
        assert last == groups[|groups| - 1].range && last.start <= |src|;
        LeadIs(src, last.start);
      }
    }
  }

  lemma {:induction false} HostWrites(event: string, g: GroupNode, src: string, text: string)
    requires g.handlers.Some? && HandlersInSource(g, src)
    ensures var handlers := g.handlers.value.elements;
      if handlers == [] || AllOwned(event, g) then HostEdit(event, g, src, text).text == text
      else handlers[0].range.start <= |src| && IsLine(src, handlers[0].range.start, text, HostEdit(event, g, src, text).text)
  {
    hide Lead, IsLead;
    var handlers := g.handlers.value.elements;
    if handlers != [] && !AllOwned(event, g) {
      var flags := OwnedFlags(event, handlers);
      assert HandlerRanges(handlers)[0] == handlers[0].range;
      LeadIs(src, handlers[0].range.start);
      WhereAll(flags, 0);
      if LastSurvivor(Where(flags, 0), |handlers|).None? {
        forall k | 0 <= k < |flags| ensures flags[k] {
          assert k in Where(flags, 0);
          WhereMember(flags, 0, k);
        }
      }
    }
  }

  function PlanOf(event: string, entry: Option<Entry>, node: EventNode, src: string): seq<Edit>
    requires NodesInSource(node, src)
  {
    var target := TargetOf(entry, node.elements);
    HandlerDeletes(event, node.elements, 0, src)
    + (RunEdits(GroupRanges(node.elements), CleanedGroups(event, target, node.elements), 0, src)
       + if entry.Some? then [PlacementOf(event, entry.value, node, src)] else [])
  }

  // ---- the planner ------------------------------------------------------------------------

  lemma {:induction false} EmptyPlusEdits(es: seq<Edit>)
    ensures [] + es == es
  {
  }

  lemma {:induction false} HandlerDeletesStep(event: string, groups: seq<GroupNode>, i: nat, src: string, before: seq<Edit>)
    requires i <= |groups| && forall k :: 0 <= k < |groups| ==> HandlersInSource(groups[k], src)
    ensures i < |groups| ==>
      before + HandlerDeletes(event, groups, i, src) == (before + GroupDeletes(event, groups, i, src)) + HandlerDeletes(event, groups, i + 1, src)
    ensures i < |groups| && GroupDeletes(event, groups, i, src) == [] ==>
      before + HandlerDeletes(event, groups, i, src) == before + HandlerDeletes(event, groups, i + 1, src)
    ensures i == |groups| ==> before + HandlerDeletes(event, groups, i, src) == before
  {
    hide GroupDeletes;
    if i < |groups| {
      var deletes, rest := GroupDeletes(event, groups, i, src), HandlerDeletes(event, groups, i + 1, src);
      assert [] + rest == rest;
      assert before + (deletes + rest) == (before + deletes) + rest;
    }
  }

  /** Per group its owned handlers, and the placement target. */
  method SurveyGroups(event: string, entry: Option<Entry>, groups: seq<GroupNode>) returns (groupOwned: seq<seq<nat>>, target: Option<nat>)
    ensures |groupOwned| == |groups| && forall k :: 0 <= k < |groups| ==> groupOwned[k] == GroupOwned(event, groups[k])
    ensures target == TargetOf(entry, groups)
  {
    hide GroupOwned;
    groupOwned, target := [], None;
    ghost var flags := HostFlags(entry, groups);
    for index := 0 to |groups|
      invariant |groupOwned| == index
      invariant forall k :: 0 <= k < index ==> groupOwned[k] == GroupOwned(event, groups[k])
      invariant target.Some? ==> First(flags, 0) == target
      invariant target.None? ==> First(flags, 0) == First(flags, index)
    {
      if target.None? && CanHost(entry, groups[index]) {
        target := Some(index);
      }
      groupOwned := groupOwned + [GroupOwned(event, groups[index])];
    }
  }

  /** The groups that become empty and do not host the new handler. */
  method CleanupGroups(event: string, target: Option<nat>, groups: seq<GroupNode>, groupOwned: seq<seq<nat>>) returns (cleanup: seq<nat>)
    requires |groupOwned| == |groups| && forall k :: 0 <= k < |groups| ==> groupOwned[k] == GroupOwned(event, groups[k])
    ensures cleanup == CleanedGroups(event, target, groups)
  {
    hide Where;
    cleanup := [];
    ghost var flags := CleanedFlags(event, target, groups);
    ghost var all := Where(flags, 0);
    for index := 0 to |groups|
      invariant cleanup + Where(flags, index) == all
    {
      WhereStep(flags, index, cleanup);
      var owned := groupOwned[index];
      if owned == [] {
        continue;
      }
      var allOwned := |groups[index].handlers.value.elements| == |owned|;
      if allOwned && target != Some(index) {
        cleanup := cleanup + [index];
      }
    }
    WhereStep(flags, |groups|, cleanup);
  }

  /** The deletions inside the groups that stay. */
  method DeleteHandlers(event: string, target: Option<nat>, groups: seq<GroupNode>, groupOwned: seq<seq<nat>>, cleanup: seq<nat>, source: string) returns (edits: seq<Edit>)
    requires forall k :: 0 <= k < |groups| ==> HandlersInSource(groups[k], source)
    requires |groupOwned| == |groups| && forall k :: 0 <= k < |groups| ==> groupOwned[k] == GroupOwned(event, groups[k])
    requires cleanup == CleanedGroups(event, target, groups)
    ensures edits == HandlerDeletes(event, groups, 0, source)
  {
    hide Where, HandlerDeletes;
    var targetAllOwned := target.Some? && target.value < |groups| && AllOwned(event, groups[target.value]);
    edits := [];
    ghost var all := HandlerDeletes(event, groups, 0, source);
    EmptyPlusEdits(all);
    for index := 0 to |groups|
      invariant edits + HandlerDeletes(event, groups, index, source) == all
    {
      HandlerDeletesStep(event, groups, index, source, edits);
      WhereMember(CleanedFlags(event, target, groups), 0, index);
      var owned := groupOwned[index];
      if owned == [] || index in cleanup {
        continue;
      }
      if targetAllOwned && target == Some(index) {
        continue;
      }
      var deletes := DeleteRuns(HandlerRanges(groups[index].handlers.value.elements), owned, source);
      edits := edits + deletes;
    }
    HandlerDeletesStep(event, groups, |groups|, source, edits);
  }

  method PlanEvent(event: string, entry: Option<Entry>, node: EventNode, source: string) returns (edits: seq<Edit>)
    requires NodesInSource(node, source)
    ensures edits == PlanOf(event, entry, node, source)
  {
    var groups := node.elements;
    var groupOwned, target := SurveyGroups(event, entry, groups);
    var cleanup := CleanupGroups(event, target, groups, groupOwned);
    var handlerDeletes := DeleteHandlers(event, target, groups, groupOwned, cleanup, source);
    var groupDeletes: seq<Edit> := [];
    if cleanup != [] {
      groupDeletes := DeleteRuns(GroupRanges(groups), cleanup, source);
    }
    edits := handlerDeletes + groupDeletes;
    if entry.Some? {
      edits := edits + [PlacementOf(event, entry.value, node, source)];
    }
    assert edits == handlerDeletes + (groupDeletes + if entry.Some? then [PlacementOf(event, entry.value, node, source)] else []);
  }
}
