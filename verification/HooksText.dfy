/**
 The text of a `hooks` object and what patching makes of it: its properties are events.  The nodes
 that `DocumentPlan` works on are the positions of this text.
 */
module HooksText {
  import opened Outcomes
  import opened Splicing
  import opened JsonLayout
  import opened RunDeletion
  import opened ListSplice
  import opened ListEditing
  import opened Nesting
  import opened Lines
  import opened EventPlan
  import opened HandlerPatch
  import opened EventText
  import opened EventSplice
  import opened EventMeaning
  import opened DesiredMap
  import opened DocumentPlan
  import opened Appending
  import opened Extending

  /** An event with its array of groups, or a property whose value is no array. */
  datatype Property =
    | Events(name: string, before: string, l: List, groups: seq<Group>, after: string)
    | Opaque(name: string, text: string)

  function PropertyText(p: Property): string {
    match p
    case Events(_, before, l, _, after) => Enclosed(before, l, after)
    case Opaque(_, text) => text
  }

  predicate WfProperty(p: Property) {
    match p
    case Events(_, before, l, groups, after) => WfBody(before) && WfList(l) && Holding(l, groups) && WfBody(after)
    case Opaque(_, text) => WfBody(text)
  }

  predicate HoldingProperties(l: List, ps: seq<Property>) {
    && |ps| == |l.cells|
    && forall i :: 0 <= i < |ps| ==> WfProperty(ps[i]) && l.cells[i].body == PropertyText(ps[i])
  }

  /** The properties of an object as they stand in a source. */
  ghost predicate PropertiesStand(src: string, base: nat, l: List, ps: seq<Property>) {
    Stands(src, base, l) && HoldingProperties(l, ps)
  }

  // ---- the nodes of the text ---------------------------------------------------------------------

  function PropertyNodeAt(start: nat, p: Property, owner: Owner): PropertyNode
    requires WfProperty(p)
  {
    PropertyNode(p.name, Range(start, start + |PropertyText(p)|),
      if p.Opaque? then Other else Groups(EventNodeAt(start + |p.before|, p.l, p.groups, owner)))
  }

  function PropertyNodes(base: nat, l: List, ps: seq<Property>, owner: Owner): (r: seq<PropertyNode>)
    requires HoldingProperties(l, ps)
    ensures |r| == |ps|
  {
    seq(|ps|, i requires 0 <= i < |ps| => PropertyNodeAt(BodyStart(base, l.cells, i), ps[i], owner))
  }

  function HooksNode(base: nat, l: List, ps: seq<Property>, owner: Owner): ObjectNode
    requires 0 < base && HoldingProperties(l, ps)
  {
    ObjectNode(base - 1, PropertyNodes(base, l, ps, owner))
  }

  lemma {:induction false} PropertyHolds(src: string, base: nat, l: List, ps: seq<Property>, i: nat)
    requires PropertiesStand(src, base, l, ps) && i < |ps|
    ensures Holds(src, BodyStart(base, l.cells, i), PropertyText(ps[i]))
    ensures BodyStart(base, l.cells, i) + |PropertyText(ps[i])| == BodyEnd(base, l.cells, i)
  {
    PartsStand(src, base, l, i);
  }

  /** The position of the first group of property `i`. */
  function ArrayBase(base: nat, l: List, ps: seq<Property>, i: nat): nat
    requires HoldingProperties(l, ps) && i < |ps|
  {
    if ps[i].Events? then BodyStart(base, l.cells, i) + |ps[i].before| else 0
  }

  lemma {:induction false} ArrayStands(src: string, base: nat, l: List, ps: seq<Property>, i: nat)
    requires PropertiesStand(src, base, l, ps) && i < |ps| && ps[i].Events?
    ensures EventStands(src, ArrayBase(base, l, ps, i), ps[i].l, ps[i].groups)
    ensures BodyStart(base, l.cells, i) < ArrayBase(base, l, ps, i)
    ensures ListEnd(ArrayBase(base, l, ps, i), ps[i].l) < BodyEnd(base, l.cells, i)
    ensures src[ListEnd(ArrayBase(base, l, ps, i), ps[i].l)] == ps[i].after[0]
  {
    hide Render, Enclosed;
    var p := ps[i];
    PropertyHolds(src, base, l, ps, i);
    EnclosedStands(src, BodyStart(base, l.cells, i), p.before, p.l, p.after);
  }

  lemma {:induction false} PropertyIsInSource(src: string, base: nat, l: List, ps: seq<Property>, owner: Owner, i: nat)
    requires PropertiesStand(src, base, l, ps) && i < |ps|
    ensures PropertyInSource(PropertyNodeAt(BodyStart(base, l.cells, i), ps[i], owner), src)
  {
    hide Stands, NodesInSource, Enclosed, Render, Holding, EventNodeAt, WfBody;
    PropertyHolds(src, base, l, ps, i);
    if ps[i].Events? {
      ArrayStands(src, base, l, ps, i);
      NodesAreInSource(src, ArrayBase(base, l, ps, i), ps[i].l, ps[i].groups, owner);
    }
  }

  lemma {:induction false} PropertiesAreInSource(src: string, base: nat, l: List, ps: seq<Property>, owner: Owner)
    requires PropertiesStand(src, base, l, ps)
    ensures ObjectInSource(HooksNode(base, l, ps, owner), src)
  {
    hide Stands, PropertyInSource, PropertyNodeAt, HoldingProperties;
    BaseInSource(src, base, l);
    forall i | 0 <= i < |ps| ensures PropertyInSource(PropertyNodes(base, l, ps, owner)[i], src) {
      EachWf(l, ps, i);
      PropertyIsInSource(src, base, l, ps, owner, i);
    }
  }

  lemma {:induction false} EachWf(l: List, ps: seq<Property>, i: nat)
    requires HoldingProperties(l, ps) && i < |ps|
    ensures WfProperty(ps[i])
  {
  }

  lemma {:induction false} BaseInSource(src: string, base: nat, l: List)
    requires Stands(src, base, l)
    ensures 0 < base <= ListEnd(base, l) < |src|
  {
  }

  // ---- the events after the patch -----------------------------------------------------------------

  function PatchedProperty(m: seq<Desired>, owner: Owner, src: string, base: nat, l: List, ps: seq<Property>, i: nat): Property
    requires PropertiesStand(src, base, l, ps) && i < |ps|
  {
    var p := ps[i];
    if p.Opaque? then p
    else
      var at := ArrayBase(base, l, ps, i);
      ArrayStands(src, base, l, ps, i);
      var entry := Find(m, p.name);
      p.(l := PatchedArray(p.name, entry, owner, src, at, p.l, p.groups),
         groups := FinalGroups(p.name, entry, owner, p.groups, HostLead(src, at, p.l, p.groups, Host(entry, p.groups))))
  }

  function PatchedProperties(m: seq<Desired>, owner: Owner, src: string, base: nat, l: List, ps: seq<Property>): (r: seq<Property>)
    requires PropertiesStand(src, base, l, ps)
    ensures |r| == |ps|
  {
    seq(|ps|, i requires 0 <= i < |ps| => PatchedProperty(m, owner, src, base, l, ps, i))
  }

  function TextsOf(ps: seq<Property>): (r: seq<string>)
    ensures |r| == |ps|
  {
    seq(|ps|, i requires 0 <= i < |ps| => PropertyText(ps[i]))
  }

  /** Some event has the one shape that cannot be patched. */
  predicate AnyUnpatchable(m: seq<Desired>, owner: Owner, ps: seq<Property>) {
    exists i :: 0 <= i < |ps| && UnpatchableAt(m, owner, ps[i])
  }

  predicate UnpatchableAt(m: seq<Desired>, owner: Owner, p: Property) {
    p.Events? && |p.groups| == |p.l.cells| && Unpatchable(p.name, Find(m, p.name), owner, p.l, p.groups)
  }

  /** The new events, in the order of their names. */
  function MissingTexts(m: seq<Desired>, base: nat, l: List, ps: seq<Property>, owner: Owner): seq<string>
    requires HoldingProperties(l, ps)
  {
    PropertyTexts(Missing(m, PropertyNodes(base, l, ps, owner)))
  }

  /** The property written for a desired event that has no array. */
  function NewProperty(d: Desired): Property {
    Events(d.event, "\"" + (d.event + "\": ["), List([Cell("", d.entry.Group(), "")], false, ""), [NewGroup(d.entry)], "]")
  }

  function NewProperties(m: seq<Desired>): (r: seq<Property>)
    ensures |r| == |m|
  {
    seq(|m|, i requires 0 <= i < |m| => NewProperty(m[i]))
  }

  /** The `hooks` object after the patch. */
  function PatchedHooks(m: seq<Desired>, owner: Owner, src: string, base: nat, l: List, ps: seq<Property>): List
    requires PropertiesStand(src, base, l, ps)
  {
    Appended(Rebodied(l, TextsOf(PatchedProperties(m, owner, src, base, l, ps))), AddLead(src, base, l), MissingTexts(m, base, l, ps, owner))
  }

  /** The edits inside the events of the `hooks` object. */
  function PropertyParts(m: seq<Desired>, owner: Owner, src: string, base: nat, l: List, ps: seq<Property>): (r: seq<seq<Edit>>)
    requires PropertiesStand(src, base, l, ps)
    ensures |r| == |ps|
  {
    PropertiesAreInSource(src, base, l, ps, owner);
    EventParts(m, PropertyNodes(base, l, ps, owner), src)
  }

  lemma {:induction false} PartIs(m: seq<Desired>, owner: Owner, src: string, base: nat, l: List, ps: seq<Property>, i: nat)
    requires PropertiesStand(src, base, l, ps) && i < |ps|
    ensures ps[i].Opaque? ==> PropertyParts(m, owner, src, base, l, ps)[i] == []
    ensures ps[i].Events? ==>
      && EventStands(src, ArrayBase(base, l, ps, i), ps[i].l, ps[i].groups)
      && NodesInSource(EventNodeAt(ArrayBase(base, l, ps, i), ps[i].l, ps[i].groups, owner), src)
      && PropertyParts(m, owner, src, base, l, ps)[i]
         == PlanOf(ps[i].name, Find(m, ps[i].name), EventNodeAt(ArrayBase(base, l, ps, i), ps[i].l, ps[i].groups, owner), src)
  {
    hide Stands, PlanOf, NodesInSource, Holding, EventNodeAt, PropertyText, WfBody;
    PropertiesAreInSource(src, base, l, ps, owner);
    PropertyIsInSource(src, base, l, ps, owner, i);
    if ps[i].Events? {
      ArrayStands(src, base, l, ps, i);
    }
  }

  lemma {:induction false} PartFacts(m: seq<Desired>, owner: Owner, src: string, base: nat, l: List, ps: seq<Property>, i: nat)
    requires PropertiesStand(src, base, l, ps) && i < |ps|
    ensures var part := PropertyParts(m, owner, src, base, l, ps)[i];
      && Within(part, BodyStart(base, l.cells, i), BodyEnd(base, l.cells, i))
      && OneWriter(part)
      && (Apart(part) <==> !UnpatchableAt(m, owner, ps[i]))
  {
    hide Stands, PlanOf, Apart, OneWriter, Unpatchable, PropertyParts, EventNodeAt, PropertyText, WfBody, BodyEnd, BodyStart, WfGroup, WfList;
    PartIs(m, owner, src, base, l, ps, i);
    var p := ps[i];
    if p.Events? {
      var at := ArrayBase(base, l, ps, i);
      ArrayStands(src, base, l, ps, i);
      PlanApart(src, p.name, Find(m, p.name), owner, at, p.l, p.groups);
      WithinWider(PropertyParts(m, owner, src, base, l, ps)[i], at, ListEnd(at, p.l) + 1, BodyStart(base, l.cells, i), BodyEnd(base, l.cells, i));
    } else {
      AtMostOneEdit([]);
    }
  }

  lemma {:induction false} PropertyOut(m: seq<Desired>, owner: Owner, src: string, base: nat, l: List, ps: seq<Property>, i: nat)
    requires PropertiesStand(src, base, l, ps) && i < |ps| && !UnpatchableAt(m, owner, ps[i])
    ensures BodyOut(src, base, l, PropertyParts(m, owner, src, base, l, ps)[i], i, PropertyText(PatchedProperty(m, owner, src, base, l, ps, i)))
  {
    hide Stands, PlanOf, Apart, OneWriter, Unpatchable, Out, Render, Enclosed, PatchedArray, PropertyParts;
    PartIs(m, owner, src, base, l, ps, i);
    PropertyHolds(src, base, l, ps, i);
    var p, start := ps[i], BodyStart(base, l.cells, i);
    if p.Events? {
      var at, entry := ArrayBase(base, l, ps, i), Find(m, p.name);
      ArrayStands(src, base, l, ps, i);
      PlanApart(src, p.name, entry, owner, at, p.l, p.groups);
      EventOut(src, p.name, entry, owner, at, p.l, p.groups);
      EnclosedOut(src, PropertyParts(m, owner, src, base, l, ps)[i], start, p.before, p.l, p.after,
        PatchedArray(p.name, entry, owner, src, at, p.l, p.groups));
    } else {
      forall q: nat ensures Untouched([], q) {}
      KeptStretch(src, [], start, p.text);
    }
  }

  lemma {:induction false} HooksEditsAre(m: seq<Desired>, owner: Owner, src: string, base: nat, l: List, ps: seq<Property>)
    requires PropertiesStand(src, base, l, ps)
    ensures ObjectInSource(HooksNode(base, l, ps, owner), src)
    ensures HooksEdits(m, HooksNode(base, l, ps, owner), src)
         == ExtendEdits(src, base, l, PropertyParts(m, owner, src, base, l, ps), MissingTexts(m, base, l, ps, owner))
  {
    hide Stands, Concat, PropertyJson, Missing, Joined, Each, PlanOf;
    PropertiesAreInSource(src, base, l, ps, owner);
    AddedIs(src, base, l, ps, owner, MissingTexts(m, base, l, ps, owner));
  }

  lemma {:induction false} AddedIs(src: string, base: nat, l: List, ps: seq<Property>, owner: Owner, texts: seq<string>)
    requires PropertiesStand(src, base, l, ps) && ObjectInSource(HooksNode(base, l, ps, owner), src)
    ensures AddProperties(HooksNode(base, l, ps, owner), src, texts) == Added(src, base, l, texts)
  {
    hide Stands, Joined, Each, PropertyInSource, PropertyText, WfProperty, EventNodeAt, BodyStart, BodyEnd, Lead;
    if ps != [] {
      PropertyHolds(src, base, l, ps, |ps| - 1);
    }
  }

  lemma {:induction false} PartsFitProperties(m: seq<Desired>, owner: Owner, src: string, base: nat, l: List, ps: seq<Property>)
    requires PropertiesStand(src, base, l, ps)
    ensures PartsFit(base, l, {}, PropertyParts(m, owner, src, base, l, ps))
    ensures EachOneWriter(PropertyParts(m, owner, src, base, l, ps))
    ensures EachApart(PropertyParts(m, owner, src, base, l, ps), 0) <==> !AnyUnpatchable(m, owner, ps)
  {
    hide Stands, PropertyParts, HoldingProperties, Apart, OneWriter, Within, UnpatchableAt;
    var parts := PropertyParts(m, owner, src, base, l, ps);
    assert |ps| == |l.cells| by {
      LengthsAgree(l, ps);
    }
    forall i: nat | i < |ps|
      ensures Within(parts[i], BodyStart(base, l.cells, i), BodyEnd(base, l.cells, i)) && OneWriter(parts[i])
      ensures Apart(parts[i]) <==> !UnpatchableAt(m, owner, ps[i])
    {
      PartFacts(m, owner, src, base, l, ps, i);
    }
  }

  lemma {:induction false} LengthsAgree(l: List, ps: seq<Property>)
    requires HoldingProperties(l, ps)
    ensures |ps| == |l.cells|
  {
  }

  /** The edits of the `hooks` object: what they make of it, and when they overlap. */
  lemma {:induction false} HooksOut(m: seq<Desired>, owner: Owner, src: string, base: nat, l: List, ps: seq<Property>)
    requires PropertiesStand(src, base, l, ps)
    ensures ObjectInSource(HooksNode(base, l, ps, owner), src)
    ensures base <= ListEnd(base, l) + 1 <= |src|
    ensures var es := HooksEdits(m, HooksNode(base, l, ps, owner), src);
      && Within(es, base, ListEnd(base, l) + 1) && OneWriter(es)
      && (Apart(es) <==> !AnyUnpatchable(m, owner, ps))
      && (!AnyUnpatchable(m, owner, ps) ==>
            Out(src, es, base, ListEnd(base, l) + 1) == Render(PatchedHooks(m, owner, src, base, l, ps)) + [src[ListEnd(base, l)]])
  {
    hide Out, Render, Apart, OneWriter, Within, HooksEdits, ExtendEdits, PropertyParts, MissingTexts, HoldingProperties, BodyOut, Stands, PatchedProperty, PartsFit, UnpatchableAt;
    var parts, texts := PropertyParts(m, owner, src, base, l, ps), MissingTexts(m, base, l, ps, owner);
    BaseInSource(src, base, l);
    LengthsAgree(l, ps);
    HooksEditsAre(m, owner, src, base, l, ps);
    PartsFitProperties(m, owner, src, base, l, ps);
    ExtendShape(src, base, l, parts, texts);
    if !AnyUnpatchable(m, owner, ps) {
      var bodies := TextsOf(PatchedProperties(m, owner, src, base, l, ps));
      forall i: nat | i < |l.cells| ensures BodyOut(src, base, l, parts[i], i, bodies[i]) {
        PropertyOut(m, owner, src, base, l, ps, i);
      }
      ExtendOut(src, base, l, bodies, parts, texts);
    }
  }
}
