/**
 Patching a whole document (`build`): collecting the desired entries, planning the edits of every
 event of the `hooks` object, adding the events that are missing, and applying the edits.
 */
module DocumentPlan {
  import opened Outcomes
  import opened Splicing
  import opened JsonLayout
  import opened ListSplice
  import opened RunDeletion
  import opened Nesting
  import opened Lines
  import opened EventPlan
  import opened DesiredMap

  datatype Value = Groups(event: EventNode) | Object(obj: ObjectNode) | Other

  datatype PropertyNode = PropertyNode(name: string, range: Range, value: Value)

  /** `start` is the position of the opening brace. */
  datatype ObjectNode = ObjectNode(start: nat, properties: seq<PropertyNode>)

  datatype Error = Uncatalogued | HooksNotObject | NotAnArray | Overlap

  // ---- texts ---------------------------------------------------------------------------------

  /** A new property holding a new group. */
  function PropertyJson(d: Desired): string {
    ("\"" + (d.event + "\": [")) + (d.entry.Group() + "]")
  }

  function PropertyTexts(m: seq<Desired>): (r: seq<string>)
    ensures |r| == |m|
  {
    seq(|m|, i requires 0 <= i < |m| => PropertyJson(m[i]))
  }

  /** Every text with a comma and `lead` in front of it. */
  function Each(lead: string, texts: seq<string>): string {
    if texts == [] then "" else "," + (lead + (texts[0] + Each(lead, texts[1..])))
  }

  /** The texts with a comma and `lead` between them. */
  function Joined(lead: string, texts: seq<string>): string {
    if texts == [] then "" else texts[0] + Each(lead, texts[1..])
  }

  /** The cells of a synthesised `hooks` object. */
  function BodyCells(texts: seq<string>): seq<Cell> {
    if texts == [] then []
    else [Cell("\n    ", texts[0], if |texts| == 1 then "\n  " else "")] + BodyCells(texts[1..])
  }

  function HooksBody(m: seq<Desired>): string {
    Enclosed("{", List(BodyCells(PropertyTexts(m)), false, ""), "}")
  }

  /** The text of a new `hooks` member. */
  function NewHooksText(m: seq<Desired>): string {
    "\"hooks\": " + HooksBody(m)
  }

  function Fresh(m: seq<Desired>, src: string): string {
    var newline := NewlineFrom(src, 0);
    if m == [] then "{" + (newline + "}")
    else "{" + (newline + ("  " + (NewHooksText(m) + (newline + "}"))))
  }

  /** The text of a synthesised `hooks` object (`build_hooks_body`). */
  method BuildHooksBody(m: seq<Desired>) returns (r: string)
    ensures r == HooksBody(m)
  {
    if m == [] {
      return "{}";
    }
    hide BodyLines, PropertyJson;
    ghost var texts := PropertyTexts(m);
    ghost var all := "{\n" + BodyLines(texts, 0);
    r := "{\n";
    for index := 0 to |m|
      invariant r + BodyLines(texts, index) == all
    {
      LinesStep(texts, index, r);
      r := r + ("    " + PropertyJson(m[index]));
      if index + 1 < |m| {
        r := r + ",";
      }
      r := r + "\n";
    }
    LinesStep(texts, |m|, r);
    r := r + "  }";
    LinesAreCells(texts, 0);
    assert texts[0..] == texts;
    BodyTogether(BodyLines(texts, 0), RenderCells(BodyCells(texts), false));
  }

  lemma {:induction false} LinesStep(texts: seq<string>, i: nat, before: string)
    requires i <= |texts|
    ensures i + 1 < |texts| ==> before + BodyLines(texts, i) == (((before + ("    " + texts[i])) + ",") + "\n") + BodyLines(texts, i + 1)
    ensures i + 1 == |texts| ==> before + BodyLines(texts, i) == ((before + ("    " + texts[i])) + "\n") + BodyLines(texts, i + 1)
    ensures i == |texts| ==> before + BodyLines(texts, i) == before
  {
    if i < |texts| {
      Assoc(before, ("    " + texts[i]) + ((if i + 1 < |texts| then "," else "") + "\n"), BodyLines(texts, i + 1));
      LineParts(before, "    " + texts[i]);
    }
  }

  lemma {:induction false} LineParts(before: string, line: string)
    ensures before + (line + ("," + "\n")) == ((before + line) + ",") + "\n"
    ensures before + (line + ("" + "\n")) == (before + line) + "\n"
  {
  }

  lemma {:induction false} BodyTogether(lines: string, cells: string)
    requires ("\n" + lines) + "  " == cells
    ensures ("{\n" + lines) + "  }" == "{" + ((cells + "") + "}")
  {
    assert "{\n" + lines == "{" + ("\n" + lines);
    assert ("{" + ("\n" + lines)) + "  }" == "{" + ((("\n" + lines) + "  ") + "}");
  }

  /** The lines of a `hooks` object from property `i` on. */
  function BodyLines(texts: seq<string>, i: nat): string
    requires i <= |texts|
    decreases |texts| - i
  {
    if i == |texts| then ""
    else (("    " + texts[i]) + ((if i + 1 < |texts| then "," else "") + "\n")) + BodyLines(texts, i + 1)
  }

  lemma {:induction false} LinesAreCells(texts: seq<string>, i: nat)
    requires i < |texts|
    ensures ("\n" + BodyLines(texts, i)) + "  " == RenderCells(BodyCells(texts[i..]), false)
    decreases |texts| - i
  {
    var cells := BodyCells(texts[i..]);
    assert texts[i..][1..] == texts[i + 1..];
    assert cells[1..] == BodyCells(texts[i + 1..]);
    if i + 1 < |texts| {
      LinesAreCells(texts, i + 1);
      LineThen(texts[i], BodyLines(texts, i + 1));
    } else {
      assert RenderCells([], false) == "";
      LastLine(texts[i]);
    }
  }

  lemma {:induction false} LineThen(text: string, rest: string)
    ensures ("\n" + ((("    " + text) + ("," + "\n")) + rest)) + "  " == ("\n    " + (text + "")) + ("," + (("\n" + rest) + "  "))
  {
  }

  lemma {:induction false} LastLine(text: string)
    ensures ("\n" + ((("    " + text) + ("" + "\n")) + "")) + "  " == ("\n    " + (text + "\n  ")) + ("" + "")
  {
  }

  // ---- insertions ------------------------------------------------------------------------------

  predicate ObjectInSource(obj: ObjectNode, src: string) {
    && obj.start < |src|
    && forall i :: 0 <= i < |obj.properties| ==> PropertyInSource(obj.properties[i], src)
  }

  predicate PropertyInSource(p: PropertyNode, src: string) {
    && p.range.start <= p.range.end <= |src|
    && (p.value.Groups? ==> NodesInSource(p.value.event, src))
    && (p.value.Object? ==> ObjectInSource(p.value.obj, src))
  }

  /** Adding properties at the end of an object, in one insertion. */
  function AddProperties(obj: ObjectNode, src: string, texts: seq<string>): Edit
    requires ObjectInSource(obj, src)
  {
    if obj.properties == [] then Edit(obj.start + 1, obj.start + 1, " " + Joined(" ", texts))
    else
      var last := obj.properties[|obj.properties| - 1].range;
      assert PropertyInSource(obj.properties[|obj.properties| - 1], src);
      Edit(last.end, last.end, Each(Lead(src, last.start), texts))
  }

  method InsertObjectProperties(obj: ObjectNode, source: string, texts: seq<string>) returns (edit: Edit)
    requires ObjectInSource(obj, source)
    ensures edit == AddProperties(obj, source, texts)
    ensures obj.properties != [] ==> var last := obj.properties[|obj.properties| - 1].range;
      last.start <= |source| && exists lead :: IsLead(source, last.start, lead) && edit == Edit(last.end, last.end, Each(lead, texts))
  {
    if obj.properties == [] {
      return Edit(obj.start + 1, obj.start + 1, " " + Joined(" ", texts));
    }
    var last := obj.properties[|obj.properties| - 1].range;
    LeadIs(source, last.start);
    var indent := IndentOfLine(source, last.start);
    var newline := DetectNewline(source);
    ghost var lead := newline + indent;
    var combined := "";
    assert texts[0..] == texts;
    for index := 0 to |texts|
      invariant combined + Each(lead, texts[index..]) == Each(lead, texts)
    {
      assert texts[index..][1..] == texts[index + 1..];
      ghost var before, rest := combined, Each(lead, texts[index + 1..]);
      EachStep(before, newline, indent, texts[index], rest);
      combined := ((combined + ",") + newline) + indent;
      combined := combined + texts[index];
    }
    EmptyPlus(combined);
    return Edit(last.end, last.end, combined);
  }

  lemma {:induction false} EachStep(before: string, newline: string, indent: string, text: string, rest: string)
    ensures before + ("," + ((newline + indent) + (text + rest))) == ((((before + ",") + newline) + indent) + text) + rest
  {
  }

  /** A property that is desired but is not an array of groups. */
  predicate Blocked(m: seq<Desired>, p: PropertyNode) {
    !p.value.Groups? && Find(m, p.name).Some?
  }

  function EventEdits(m: seq<Desired>, p: PropertyNode, src: string): seq<Edit>
    requires PropertyInSource(p, src)
  {
    if p.value.Groups? then PlanOf(p.name, Find(m, p.name), p.value.event, src) else []
  }

  function EventParts(m: seq<Desired>, ps: seq<PropertyNode>, src: string): (r: seq<seq<Edit>>)
    requires forall i :: 0 <= i < |ps| ==> PropertyInSource(ps[i], src)
    ensures |r| == |ps|
  {
    seq(|ps|, i requires 0 <= i < |ps| => EventEdits(m, ps[i], src))
  }

  /** `name` is an event that already has an array. */
  predicate Handled(ps: seq<PropertyNode>, name: string) {
    exists i :: 0 <= i < |ps| && ps[i].value.Groups? && ps[i].name == name
  }

  /** The desired events without an array, in order. */
  function Missing(m: seq<Desired>, ps: seq<PropertyNode>): seq<Desired> {
    if m == [] then []
    else (if Handled(ps, m[0].event) then [] else [m[0]]) + Missing(m[1..], ps)
  }

  function HooksEdits(m: seq<Desired>, obj: ObjectNode, src: string): seq<Edit>
    requires ObjectInSource(obj, src)
  {
    var missing := Missing(m, obj.properties);
    Concat(EventParts(m, obj.properties, src), 0)
    + if missing == [] then [] else [AddProperties(obj, src, PropertyTexts(missing))]
  }

  predicate AnyBlocked(m: seq<Desired>, ps: seq<PropertyNode>) {
    exists i :: 0 <= i < |ps| && Blocked(m, ps[i])
  }

  /** The edits of an existing `hooks` object, in two passes over its events. */
  method PlanHooks(m: seq<Desired>, obj: ObjectNode, source: string) returns (r: Outcome<seq<Edit>, Error>)
    requires ObjectInSource(obj, source)
    ensures r == if AnyBlocked(m, obj.properties) then Err(NotAnArray) else Ok(HooksEdits(m, obj, source))
  {
    hide PlanOf, PropertyJson, Joined, Each, Concat, Handled, Missing, AddProperties;
    var ps := obj.properties;
    var edits: seq<Edit> := [];
    var handled: set<string> := {};
    ghost var parts := EventParts(m, ps, source);
    NoneHandled(ps);
    assert edits + Concat(parts, 0) == Concat(parts, 0);
    for i := 0 to |ps|
      invariant forall k :: 0 <= k < i ==> !Blocked(m, ps[k])
      invariant edits + Concat(parts, i) == Concat(parts, 0)
      invariant forall name :: name in handled <==> Find(m, name).Some? && Handled(ps[..i], name)
    {
      if !ps[i].value.Groups? {
        if Find(m, ps[i].name).Some? {
          return Err(NotAnArray);
        }
        HandledStep(ps, i);
        ConcatStep(parts, i, edits);
        continue;
      }
      var planned := PlanEvent(ps[i].name, Find(m, ps[i].name), ps[i].value.event, source);
      ConcatStep(parts, i, edits);
      edits := edits + planned;
      if Find(m, ps[i].name).Some? {
        handled := handled + {ps[i].name};
      }
      HandledStep(ps, i);
    }
    assert ps[..|ps|] == ps;
    ConcatStep(parts, |ps|, edits);
    var missing := NotHandled(m, ps, handled);
    if missing != [] {
      var edit := InsertObjectProperties(obj, source, PropertyTexts(missing));
      edits := edits + [edit];
    }
    return Ok(edits);
  }

  lemma {:induction false} ConcatStep(parts: seq<seq<Edit>>, i: nat, before: seq<Edit>)
    requires i <= |parts|
    ensures i < |parts| ==> before + Concat(parts, i) == (before + parts[i]) + Concat(parts, i + 1)
    ensures i < |parts| && parts[i] == [] ==> before + Concat(parts, i) == before + Concat(parts, i + 1)
    ensures i == |parts| ==> before + Concat(parts, i) == before
  {
    if i < |parts| {
      assert before + (parts[i] + Concat(parts, i + 1)) == (before + parts[i]) + Concat(parts, i + 1);
      assert before + [] == before;
    }
  }

  lemma {:induction false} NoneHandled(ps: seq<PropertyNode>)
    ensures forall name :: !Handled(ps[..0], name)
  {
  }

  lemma {:induction false} HandledStep(ps: seq<PropertyNode>, i: nat)
    requires i < |ps|
    ensures forall name :: Handled(ps[..i + 1], name) <==> Handled(ps[..i], name) || (ps[i].value.Groups? && ps[i].name == name)
  {
    var more, fewer := ps[..i + 1], ps[..i];
    forall name ensures Handled(more, name) <==> Handled(fewer, name) || (ps[i].value.Groups? && ps[i].name == name) {
      if Handled(fewer, name) {
        var k :| 0 <= k < |fewer| && fewer[k].value.Groups? && fewer[k].name == name;
        assert more[k] == fewer[k];
      }
      if Handled(more, name) {
        var k :| 0 <= k < |more| && more[k].value.Groups? && more[k].name == name;
        assert k < i ==> more[k] == fewer[k];
      }
      assert more[i] == ps[i];
    }
  }

  method NotHandled(m: seq<Desired>, ghost ps: seq<PropertyNode>, handled: set<string>) returns (missing: seq<Desired>)
    requires forall name :: name in handled <==> Find(m, name).Some? && Handled(ps, name)
    ensures missing == Missing(m, ps)
  {
    missing := [];
    assert m[0..] == m;
    for i := 0 to |m|
      invariant missing + Missing(m[i..], ps) == Missing(m, ps)
    {
      assert m[i..][1..] == m[i + 1..] && m[i..][0] == m[i];
      FoundIn(m, i);
      ghost var rest := Missing(m[i + 1..], ps);
      if m[i].event !in handled {
        assert missing + ([m[i]] + rest) == (missing + [m[i]]) + rest;
        missing := missing + [m[i]];
      } else {
        assert [] + rest == rest;
      }
    }
    assert missing + [] == missing;
  }

  lemma {:induction false} FoundIn(m: seq<Desired>, i: nat)
    requires i < |m|
    ensures Find(m, m[i].event).Some?
  {
    if i > 0 && m[0].event != m[i].event {
      FoundIn(m[1..], i - 1);
    }
  }

  // ---- the whole document -------------------------------------------------------------------------

  /** The first property with a name. */
  function Get(ps: seq<PropertyNode>, name: string, i: nat): (r: Option<nat>)
    requires i <= |ps|
    ensures r.Some? ==> i <= r.value < |ps| && ps[r.value].name == name
    ensures forall k :: i <= k < (if r.Some? then r.value else |ps|) ==> ps[k].name != name
    decreases |ps| - i
  {
    if i == |ps| then None else if ps[i].name == name then Some(i) else Get(ps, name, i + 1)
  }

  /** The edits of a document whose root is an object. */
  function RootEdits(m: seq<Desired>, root: ObjectNode, src: string): Outcome<seq<Edit>, Error>
    requires ObjectInSource(root, src)
  {
    var hooks := Get(root.properties, "hooks", 0);
    if hooks.None? then Ok([AddProperties(root, src, [NewHooksText(m)])])
    else
      var value := root.properties[hooks.value].value;
      assert PropertyInSource(root.properties[hooks.value], src);
      if !value.Object? then Err(HooksNotObject)
      else if AnyBlocked(m, value.obj.properties) then Err(NotAnArray)
      else Ok(HooksEdits(m, value.obj, src))
  }

}
