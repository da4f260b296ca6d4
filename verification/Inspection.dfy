/**
 Finding the owned entries of a configuration (`inspect_owned_entries`), and what is found after a
 patch: one entry for each desired event, in the form in which the patch writes it.
 */
module Inspection {
  import opened Outcomes
  import opened Splicing
  import opened JsonLayout
  import opened RunDeletion
  import opened ListSplice
  import opened ListEditing
  import opened EventPlan
  import opened HandlerPatch
  import opened EventText
  import opened EventSplice
  import opened EventMeaning
  import opened DesiredMap
  import opened DocumentPlan
  import opened HooksText
  import opened DocumentPatch
  import opened DocumentMeaning

  /** A handler found to be owned for its event, with the matcher of its group and its range in the source. */
  datatype Found = Found(event: string, matcher: Option<string>, range: Range)

  function InHandlers(event: string, matcher: Option<string>, handlers: seq<HandlerNode>): seq<Found> {
    if handlers == [] then []
    else
      (if handlers[0].event == Some(event) then [Found(event, matcher, handlers[0].range)] else [])
      + InHandlers(event, matcher, handlers[1..])
  }

  function InGroup(event: string, g: GroupNode): seq<Found> {
    if g.handlers.Some? then InHandlers(event, g.matcher, g.handlers.value.elements) else []
  }

  function InGroups(event: string, groups: seq<GroupNode>): seq<Found> {
    if groups == [] then []
    else InGroup(event, groups[0]) + InGroups(event, groups[1..])
  }

  function InProperties(ps: seq<PropertyNode>): seq<Found> {
    if ps == [] then []
    else (if ps[0].value.Groups? then InGroups(ps[0].name, ps[0].value.event.elements) else []) + InProperties(ps[1..])
  }

  /** The entries of a document: those of its first `hooks` member, when that is an object. */
  function InRoot(root: Value): seq<Found> {
    if !root.Object? || Get(root.obj.properties, "hooks", 0).None? then []
    else
      var value := root.obj.properties[Get(root.obj.properties, "hooks", 0).value].value;
      if value.Object? then InProperties(value.obj.properties) else []
  }

  method InspectOwnedEntries(root: Value) returns (out: seq<Found>)
    ensures out == InRoot(root)
  {
    hide InHandlers;
    out := [];
    if !root.Object? {
      return;
    }
    var hooks := Get(root.obj.properties, "hooks", 0);
    if hooks.None? || !root.obj.properties[hooks.value].value.Object? {
      return;
    }
    var ps := root.obj.properties[hooks.value].value.obj.properties;
    assert ps[0..] == ps;
    for i := 0 to |ps|
      invariant out + InProperties(ps[i..]) == InProperties(ps)
    {
      assert ps[i..][1..] == ps[i + 1..] && ps[i..][0] == ps[i];
      if !ps[i].value.Groups? {
        FoundAssoc(out, [], InProperties(ps[i + 1..]));
        continue;
      }
      var groups := ps[i].value.event.elements;
      ghost var before := out;
      var found := InspectGroups(ps[i].name, groups);
      FoundAssoc(out, found, InProperties(ps[i + 1..]));
      out := out + found;
    }
  }

  method InspectGroups(event: string, groups: seq<GroupNode>) returns (out: seq<Found>)
    ensures out == InGroups(event, groups)
  {
    out := [];
    assert groups[0..] == groups;
    for i := 0 to |groups|
      invariant out + InGroups(event, groups[i..]) == InGroups(event, groups)
    {
      assert groups[i..][1..] == groups[i + 1..] && groups[i..][0] == groups[i];
      if groups[i].handlers.None? {
        FoundAssoc(out, [], InGroups(event, groups[i + 1..]));
        continue;
      }
      var found := InspectHandlers(event, groups[i].matcher, groups[i].handlers.value.elements);
      FoundAssoc(out, found, InGroups(event, groups[i + 1..]));
      out := out + found;
    }
  }

  method InspectHandlers(event: string, matcher: Option<string>, handlers: seq<HandlerNode>) returns (out: seq<Found>)
    ensures out == InHandlers(event, matcher, handlers)
  {
    out := [];
    assert handlers[0..] == handlers;
    for i := 0 to |handlers|
      invariant out + InHandlers(event, matcher, handlers[i..]) == InHandlers(event, matcher, handlers)
    {
      assert handlers[i..][1..] == handlers[i + 1..] && handlers[i..][0] == handlers[i];
      var found := if handlers[i].event == Some(event) then [Found(event, matcher, handlers[i].range)] else [];
      FoundAssoc(out, found, InHandlers(event, matcher, handlers[i + 1..]));
      out := out + found;
    }
  }

  lemma {:induction false} FoundAssoc(a: seq<Found>, b: seq<Found>, c: seq<Found>)
    ensures a + (b + c) == (a + b) + c
    ensures a + [] == a
  {
  }

  // ---- the texts of what is found ---------------------------------------------------------------

  /** What is found carries the event and the matcher, and its range holds the text. */
  predicate Reads(src: string, f: Found, event: string, owned: Owned) {
    && f.event == event && f.matcher == owned.matcher
    && f.range.start <= f.range.end <= |src| && src[f.range.start..f.range.end] == owned.handler
  }

  ghost predicate AllRead(src: string, found: seq<Found>, owned: seq<(string, Owned)>) {
    |found| == |owned| && forall i :: 0 <= i < |found| ==> Reads(src, found[i], owned[i].0, owned[i].1)
  }

  lemma {:induction false} ReadConcat(src: string, a: seq<Found>, b: seq<Found>, x: seq<(string, Owned)>, y: seq<(string, Owned)>)
    requires AllRead(src, a, x) && AllRead(src, b, y)
    ensures AllRead(src, a + b, x + y)
  {
  }

  /** The owned handlers of an event, each with the event. */
  function Pairs(event: string, owned: seq<Owned>): (r: seq<(string, Owned)>)
    ensures |r| == |owned| && forall i :: 0 <= i < |r| ==> r[i] == (event, owned[i])
  {
    seq(|owned|, i requires 0 <= i < |owned| => (event, owned[i]))
  }

  lemma {:induction false} PairsConcat(event: string, a: seq<Owned>, b: seq<Owned>)
    ensures Pairs(event, a + b) == Pairs(event, a) + Pairs(event, b)
  {
  }

  lemma {:induction false} MatcherConcat(matcher: Option<string>, a: seq<string>, b: seq<string>)
    ensures WithMatcher(matcher, a + b) == WithMatcher(matcher, a) + WithMatcher(matcher, b)
  {
  }

  lemma {:induction false} NoneRead(src: string)
    ensures forall event, matcher :: AllRead(src, [], Pairs(event, WithMatcher(matcher, [])))
  {
  }

  lemma {:induction false} OneHandlerIsRead(src: string, event: string, matcher: Option<string>, base: nat, h: List, owner: Owner, i: nat)
    requires Stands(src, base, h) && i < |h.cells|
    ensures |Bodies(h.cells)| == |h.cells|
    ensures var node := HandlerNodes(base, h.cells, owner)[i];
      AllRead(src, if node.event == Some(event) then [Found(event, matcher, node.range)] else [],
        Pairs(event, WithMatcher(matcher, OneOwned(event, owner, Bodies(h.cells)[i]))))
  {
    hide Stands;
    BodiesAt(h.cells, i);
    PartsStand(src, base, h, i);
  }

  lemma {:induction false} HandlersAreRead(src: string, event: string, matcher: Option<string>, base: nat, h: List, owner: Owner, i: nat)
    requires Stands(src, base, h) && i <= |h.cells|
    ensures |Bodies(h.cells)| == |h.cells|
    ensures AllRead(src, InHandlers(event, matcher, HandlerNodes(base, h.cells, owner)[i..]),
      Pairs(event, WithMatcher(matcher, OwnedOf(event, owner, Bodies(h.cells)[i..]))))
    decreases |h.cells| - i
  {
    hide Stands, AllRead, Pairs, WithMatcher, OneOwned;
    BodiesAt(h.cells, i);
    NoneRead(src);
    var nodes, bodies := HandlerNodes(base, h.cells, owner), Bodies(h.cells);
    if i < |h.cells| {
      HandlersAreRead(src, event, matcher, base, h, owner, i + 1);
      assert nodes[i..][1..] == nodes[i + 1..] && nodes[i..][0] == nodes[i];
      assert bodies[i..][1..] == bodies[i + 1..] && bodies[i..][0] == bodies[i];
      OneHandlerIsRead(src, event, matcher, base, h, owner, i);
      var first := if nodes[i].event == Some(event) then [Found(event, matcher, nodes[i].range)] else [];
      var one, more := OneOwned(event, owner, bodies[i]), OwnedOf(event, owner, bodies[i + 1..]);
      ReadConcat(src, first, InHandlers(event, matcher, nodes[i + 1..]), Pairs(event, WithMatcher(matcher, one)), Pairs(event, WithMatcher(matcher, more)));
      PairsConcat(event, WithMatcher(matcher, one), WithMatcher(matcher, more));
      MatcherConcat(matcher, one, more);
    }
  }

  lemma {:induction false} GroupsAreRead(src: string, event: string, base: nat, l: List, groups: seq<Group>, owner: Owner, i: nat)
    requires Stands(src, base, l) && Holding(l, groups) && i <= |groups|
    ensures AllRead(src, InGroups(event, GroupNodes(base, l, groups, owner)[i..]), Pairs(event, OwnedHandlers(event, owner, groups[i..])))
    decreases |groups| - i
  {
    hide Stands, GroupText, InGroup, OwnedInGroup, WfBody, HandlerNodes;
    var nodes := GroupNodes(base, l, groups, owner);
    if i < |groups| {
      GroupsAreRead(src, event, base, l, groups, owner, i + 1);
      assert nodes[i..][1..] == nodes[i + 1..] && nodes[i..][0] == nodes[i];
      assert groups[i..][1..] == groups[i + 1..] && groups[i..][0] == groups[i];
      var first, rest := OwnedInGroup(event, owner, groups[i]), OwnedHandlers(event, owner, groups[i + 1..]);
      OneGroupIsRead(src, event, base, l, groups, owner, i);
      ReadConcat(src, InGroup(event, nodes[i]), InGroups(event, nodes[i + 1..]), Pairs(event, first), Pairs(event, rest));
      PairsConcat(event, first, rest);
    }
  }

  lemma {:induction false} OneGroupIsRead(src: string, event: string, base: nat, l: List, groups: seq<Group>, owner: Owner, i: nat)
    requires Stands(src, base, l) && Holding(l, groups) && i < |groups|
    ensures AllRead(src, InGroup(event, GroupNodes(base, l, groups, owner)[i]), Pairs(event, OwnedInGroup(event, owner, groups[i])))
  {
    hide Stands, GroupText, InHandlers, OwnedOf, WfBody, HandlerNodes;
    if groups[i].Hooked? {
      var hbase, h := HandlersBase(BodyStart(base, l.cells, i), groups[i]), groups[i].handlers;
      HandlersStand(src, base, l, groups, i);
      HandlersAreRead(src, event, groups[i].matcher, hbase, h, owner, 0);
      assert HandlerNodes(hbase, h.cells, owner)[0..] == HandlerNodes(hbase, h.cells, owner) && Bodies(h.cells)[0..] == Bodies(h.cells);
    }
  }

  /** The owned handlers of all events, in order. */
  function OwnedInProperties(owner: Owner, ps: seq<Property>): seq<(string, Owned)> {
    if ps == [] then [] else OwnedInProperty(owner, ps[0]) + OwnedInProperties(owner, ps[1..])
  }

  function OwnedInProperty(owner: Owner, p: Property): seq<(string, Owned)> {
    if p.Opaque? then [] else Pairs(p.name, OwnedHandlers(p.name, owner, p.groups))
  }

  lemma {:induction false} PropertiesAreRead(src: string, base: nat, l: List, ps: seq<Property>, owner: Owner, i: nat)
    requires PropertiesStand(src, base, l, ps) && i <= |ps|
    ensures AllRead(src, InProperties(PropertyNodes(base, l, ps, owner)[i..]), OwnedInProperties(owner, ps[i..]))
    decreases |ps| - i
  {
    hide Stands, PropertyText, InGroups, OwnedHandlers, WfBody, GroupNodes, Holding;
    var nodes := PropertyNodes(base, l, ps, owner);
    if i < |ps| {
      PropertiesAreRead(src, base, l, ps, owner, i + 1);
      assert nodes[i..][1..] == nodes[i + 1..] && nodes[i..][0] == nodes[i];
      assert ps[i..][1..] == ps[i + 1..] && ps[i..][0] == ps[i];
      var first := if nodes[i].value.Groups? then InGroups(nodes[i].name, nodes[i].value.event.elements) else [];
      OnePropertyIsRead(src, base, l, ps, owner, i);
      ReadConcat(src, first, InProperties(nodes[i + 1..]), OwnedInProperty(owner, ps[i]), OwnedInProperties(owner, ps[i + 1..]));
    }
  }

  lemma {:induction false} OnePropertyIsRead(src: string, base: nat, l: List, ps: seq<Property>, owner: Owner, i: nat)
    requires PropertiesStand(src, base, l, ps) && i < |ps|
    ensures var node := PropertyNodes(base, l, ps, owner)[i];
      AllRead(src, if node.value.Groups? then InGroups(node.name, node.value.event.elements) else [], OwnedInProperty(owner, ps[i]))
  {
    hide Stands, PropertyText, InGroups, OwnedHandlers, WfBody, GroupNodes, Holding;
    var p := ps[i];
    if p.Events? {
      var at := ArrayBase(base, l, ps, i);
      ArrayStands(src, base, l, ps, i);
      GroupsAreRead(src, p.name, at, p.l, p.groups, owner, 0);
      assert GroupNodes(at, p.l, p.groups, owner)[0..] == GroupNodes(at, p.l, p.groups, owner) && p.groups[0..] == p.groups;
    }
  }

  /** Inspecting a document reads exactly its owned handlers, event by event. */
  lemma {:induction false} InspectionReads(d: Document, owner: Owner)
    requires WfDocument(d)
    ensures AllRead(DocumentText(d), InRoot(Parsed(d, owner)), OwnedInProperties(owner, Props(d)))
  {
    hide Stands, InProperties, OwnedInProperties, HoldingMembers, DocumentText, HooksAt, MemberText, RootNode, PropertyNodes, HoldingProperties;
    NothingRead(DocumentText(d), owner);
    if d.Rooted? {
      RootStands(d);
      var src, base := DocumentText(d), |d.prefix| + |d.before|;
      MembersCount(d.l, d.xs);
      BaseInSource(src, base, d.l);
      GetIsHooksAt(src, base, d.l, d.xs, owner, 0);
      HooksAtIs(d.xs);
      if HooksAt(d.xs).Some? {
        var h := HooksAt(d.xs).value;
        HooksValue(d, owner, h);
        if d.xs[h].Hooks? {
          var at, x := HooksBase(base, d.l, d.xs, h), d.xs[h];
          HooksStand(src, base, d.l, d.xs, h);
          PropertiesAreRead(src, at, x.l, x.ps, owner, 0);
          assert PropertyNodes(at, x.l, x.ps, owner)[0..] == PropertyNodes(at, x.l, x.ps, owner) && x.ps[0..] == x.ps;
        }
      }
    }
  }

  lemma {:induction false} NothingRead(src: string, owner: Owner)
    ensures AllRead(src, [], OwnedInProperties(owner, []))
  {
  }

  // ---- after a patch ---------------------------------------------------------------------------------

  /** No two events have the same name. */
  predicate DistinctNames(ps: seq<Property>) {
    forall i, j :: 0 <= i < j < |ps| ==> ps[i].name != ps[j].name
  }

  predicate Named(ps: seq<Property>, name: string) {
    exists k :: 0 <= k < |ps| && ps[k].name == name
  }

  predicate Lists(owned: seq<(string, Owned)>, event: string) {
    exists i :: 0 <= i < |owned| && owned[i].0 == event
  }

  predicate Once(owned: seq<(string, Owned)>) {
    forall i, j :: 0 <= i < j < |owned| ==> owned[i].0 != owned[j].0
  }

  predicate IsDesired(m: seq<Desired>, pair: (string, Owned)) {
    Find(m, pair.0).Some? && DesiredOwned(Find(m, pair.0)) == [pair.1]
  }

  /** Each desired event, with the desired handler and matcher, and nothing else. */
  ghost predicate JustDesired(m: seq<Desired>, owned: seq<(string, Owned)>) {
    && (forall i :: 0 <= i < |owned| ==> IsDesired(m, owned[i]))
    && (forall k :: 0 <= k < |m| ==> Lists(owned, m[k].event))
  }

  lemma {:induction false} ListsConcat(a: seq<(string, Owned)>, b: seq<(string, Owned)>, event: string)
    ensures Lists(a + b, event) <==> Lists(a, event) || Lists(b, event)
  {
    if Lists(a, event) {
      var i :| 0 <= i < |a| && a[i].0 == event;
      assert (a + b)[i] == a[i];
    }
    if Lists(b, event) {
      var i :| 0 <= i < |b| && b[i].0 == event;
      assert (a + b)[|a| + i] == b[i];
    }
  }

  lemma {:induction false} NamedCons(ps: seq<Property>, name: string)
    requires ps != []
    ensures Named(ps, name) <==> ps[0].name == name || Named(ps[1..], name)
  {
    if Named(ps[1..], name) {
      var k :| 0 <= k < |ps[1..]| && ps[1..][k].name == name;
      assert ps[k + 1].name == name;
    }
    if Named(ps, name) && ps[0].name != name {
      var k :| 0 <= k < |ps| && ps[k].name == name;
      assert ps[1..][k - 1].name == name;
    }
  }

  /** The first event's owned handlers: its desired one, if it is desired. */
  lemma {:induction false} OwnedOfFirst(m: seq<Desired>, owner: Owner, p: Property)
    requires InstalledAt(m, owner, p)
    ensures OwnedInProperty(owner, p) == if p.Events? then Pairs(p.name, DesiredOwned(Find(m, p.name))) else []
  {
    hide OwnedHandlers;
  }

  lemma {:induction false} OnlyNamedListed(m: seq<Desired>, owner: Owner, ps: seq<Property>, event: string)
    requires forall i :: 0 <= i < |ps| ==> InstalledAt(m, owner, ps[i])
    ensures Lists(OwnedInProperties(owner, ps), event) ==> Named(ps, event)
    ensures HasEvent(ps, event) && Find(m, event).Some? ==> Lists(OwnedInProperties(owner, ps), event)
  {
    hide OwnedHandlers, InstalledAt, OwnedInProperty, HasEvent;
    if ps != [] {
      OnlyNamedListed(m, owner, ps[1..], event);
      OwnedOfFirst(m, owner, ps[0]);
      ListsConcat(OwnedInProperty(owner, ps[0]), OwnedInProperties(owner, ps[1..]), event);
      NamedCons(ps, event);
      HasEventCons(ps, event);
      ListsPairs(ps[0].name, DesiredOwned(Find(m, ps[0].name)), event);
    } else {
      NoEvent(event);
    }
  }

  lemma {:induction false} ListsPairs(name: string, owned: seq<Owned>, event: string)
    ensures Lists(Pairs(name, owned), event) <==> name == event && owned != []
  {
    if owned != [] {
      assert Pairs(name, owned)[0].0 == name;
    }
  }

  lemma {:induction false} NoEvent(event: string)
    ensures !HasEvent([], event)
  {
  }

  lemma {:induction false} HasEventCons(ps: seq<Property>, event: string)
    requires ps != []
    ensures HasEvent(ps, event) ==> (ps[0].Events? && ps[0].name == event) || HasEvent(ps[1..], event)
  {
    if HasEvent(ps, event) {
      var i :| 0 <= i < |ps| && ps[i].Events? && ps[i].name == event;
      assert i > 0 ==> ps[1..][i - 1] == ps[i];
    }
  }

  lemma {:induction false} OneOfEach(m: seq<Desired>, owner: Owner, ps: seq<Property>)
    requires forall i :: 0 <= i < |ps| ==> InstalledAt(m, owner, ps[i])
    ensures DistinctNames(ps) ==> Once(OwnedInProperties(owner, ps))
    ensures forall i :: 0 <= i < |OwnedInProperties(owner, ps)| ==> IsDesired(m, OwnedInProperties(owner, ps)[i])
  {
    hide OwnedHandlers, InstalledAt, OwnedInProperty;
    if ps != [] {
      var first, rest := OwnedInProperty(owner, ps[0]), OwnedInProperties(owner, ps[1..]);
      OneOfEach(m, owner, ps[1..]);
      OwnedOfFirst(m, owner, ps[0]);
      if DistinctNames(ps) {
        OnlyNamedListed(m, owner, ps[1..], ps[0].name);
        NotNamedLater(ps);
        forall j | 0 <= j < |rest| ensures rest[j].0 != ps[0].name {
          assert Lists(rest, rest[j].0);
        }
      }
    }
  }

  lemma {:induction false} NotNamedLater(ps: seq<Property>)
    requires ps != [] && DistinctNames(ps)
    ensures !Named(ps[1..], ps[0].name)
  {
    forall k | 0 <= k < |ps[1..]| ensures ps[1..][k].name != ps[0].name {
      assert ps[1..][k] == ps[k + 1];
    }
  }

  lemma {:induction false} InstalledIsJust(m: seq<Desired>, owner: Owner, ps: seq<Property>)
    requires Installed(m, owner, ps) && Increasing(m)
    ensures JustDesired(m, OwnedInProperties(owner, ps))
    ensures DistinctNames(ps) ==> Once(OwnedInProperties(owner, ps))
  {
    hide OwnedInProperties, InstalledAt, Lists, Once, HasEvent, DistinctNames;
    OneOfEach(m, owner, ps);
    forall k | 0 <= k < |m| ensures Lists(OwnedInProperties(owner, ps), m[k].event) {
      FindMember(m, k);
      OnlyNamedListed(m, owner, ps, m[k].event);
    }
  }

  lemma {:induction false} MissingIncreases(m: seq<Desired>, ps: seq<PropertyNode>)
    requires Increasing(m)
    ensures Increasing(Missing(m, ps))
  {
    if m != [] {
      MissingIncreases(m[1..], ps);
      forall j | 0 <= j < |Missing(m[1..], ps)| ensures Less(m[0].event, Missing(m[1..], ps)[j].event) {
        MissingAreDesired(m[1..], ps, Missing(m[1..], ps)[j]);
      }
    }
  }

  lemma {:induction false} IncreasingIsDistinct(m: seq<Desired>)
    requires Increasing(m)
    ensures forall i, j :: 0 <= i < j < |m| ==> m[i].event != m[j].event
  {
    forall i, j | 0 <= i < j < |m| ensures m[i].event != m[j].event {
      LessOrTie(m[i].event, m[j].event);
    }
  }

  /** Patching adds no second event of a name. */
  lemma {:induction false} FinalNamesDistinct(m: seq<Desired>, owner: Owner, src: string, base: nat, l: List, ps: seq<Property>)
    requires PropertiesStand(src, base, l, ps) && Increasing(m) && DistinctNames(ps) && !AnyOpaque(m, ps)
    ensures DistinctNames(FinalProperties(m, owner, src, base, l, ps))
  {
    hide Stands, HoldingProperties, PatchedArray, FinalGroups, Missing, PropertyText;
    var nodes, ps' := PropertyNodes(base, l, ps, owner), FinalProperties(m, owner, src, base, l, ps);
    var missing := Missing(m, nodes);
    MissingIncreases(m, nodes);
    IncreasingIsDistinct(missing);
    forall i, j | 0 <= i < j < |ps'| ensures ps'[i].name != ps'[j].name {
      if i < |ps| {
        assert ps'[i] == PatchedProperty(m, owner, src, base, l, ps, i) && ps'[i].name == ps[i].name;
        if j < |ps| {
          assert ps'[j] == PatchedProperty(m, owner, src, base, l, ps, j) && ps'[j].name == ps[j].name;
        } else {
          NewNameIsNew(m, base, l, ps, owner, i, missing[j - |ps|]);
        }
      }
    }
  }

  lemma {:induction false} NewNameIsNew(m: seq<Desired>, base: nat, l: List, ps: seq<Property>, owner: Owner, i: nat, d: Desired)
    requires HoldingProperties(l, ps) && Increasing(m) && !AnyOpaque(m, ps) && i < |ps|
    requires d in Missing(m, PropertyNodes(base, l, ps, owner))
    ensures d.event != ps[i].name
  {
    hide PropertyText, WfProperty, Missing;
    var nodes := PropertyNodes(base, l, ps, owner);
    EachWf(l, ps, i);
    MissingAreDesired(m, nodes, d);
    var k :| 0 <= k < |m| && m[k] == d;
    FindMember(m, k);
    if ps[i].Events? {
      assert nodes[i].value.Groups? && nodes[i].name == ps[i].name;
    }
  }

  lemma {:induction false} NewNamesDistinct(m: seq<Desired>)
    requires Increasing(m)
    ensures DistinctNames(NewProperties(m))
  {
    IncreasingIsDistinct(m);
  }

  /**
   Inspecting the patched document finds each desired event, with the text and the matcher the patch
   writes for it, and nothing else, and finds it once unless an event name occurs twice in the document.
   */
  lemma {:induction false} PatchThenInspect(m: seq<Desired>, owner: Owner, d: Document)
    requires WfDocument(d) && WfDesiredMap(m, owner) && Increasing(m) && Obstacle(m, owner, d).None?
    ensures var d' := PatchedDocument(m, owner, d);
      && WfDocument(d') && DocumentText(d') == PatchedText(m, owner, d)
      && AllRead(PatchedText(m, owner, d), InRoot(Parsed(d', owner)), OwnedInProperties(owner, Props(d')))
      && JustDesired(m, OwnedInProperties(owner, Props(d')))
      && (DistinctNames(Props(d)) ==> Once(OwnedInProperties(owner, Props(d'))))
  {
    hide Stands, HoldingMembers, HooksAt, WfDesiredMap, NewProperties, DocumentText, HoldingProperties, PatchedText, TidyProperty, Obstacle,
      FinalProperties, Props, PatchedDocument, WfDocument, InstalledAt, Increasing, OwnedInProperties, InRoot, Parsed, AllRead, DistinctNames,
      JustDesired, Keeps, Once;
    var d' := PatchedDocument(m, owner, d);
    PatchKeeps(m, owner, Matchers(m), d);
    InstalledIsJust(m, owner, Props(d'));
    InspectionReads(d', owner);
    if DistinctNames(Props(d)) {
      PatchedProps(m, owner, d);
      NewNamesDistinct(m);
      NoNames();
      if d.Rooted? && HooksAt(d.xs).Some? {
        var h, base := HooksAt(d.xs).value, |d.prefix| + |d.before|;
        FinalNamesDistinct(m, owner, DocumentText(d), HooksBase(base, d.l, d.xs, h), d.xs[h].l, d.xs[h].ps);
      }
    }
  }

  lemma {:induction false} NoNames()
    ensures DistinctNames([])
  {
  }
}
