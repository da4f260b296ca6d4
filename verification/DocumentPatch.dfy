/**
 Patching a document: the whole of `build`, proved to turn the text of a document into the text
 of the patched document, or to fail for one of the four reasons it has.
 */
module DocumentPatch {
  import opened Outcomes
  import opened Flags
  import opened Splicing
  import opened JsonLayout
  import opened RunDeletion
  import opened ListSplice
  import opened ListEditing
  import opened Nesting
  import opened Lines
  import opened EventPlan
  import opened HandlerPatch
  import opened DesiredMap
  import opened DocumentPlan
  import opened Appending
  import opened Extending
  import opened HooksText

  /** The `hooks` member with its object, or any other member; `name` is its key. */
  datatype Member =
    | Hooks(before: string, l: List, ps: seq<Property>, after: string)
    | Field(name: string, text: string)

  function MemberName(x: Member): string {
    if x.Hooks? then "hooks" else x.name
  }

  function MemberText(x: Member): string {
    if x.Hooks? then Enclosed(x.before, x.l, x.after) else x.text
  }

  predicate WfMember(x: Member) {
    match x
    case Hooks(before, l, ps, after) => WfBody(before) && WfList(l) && HoldingProperties(l, ps) && WfBody(after)
    case Field(_, text) => WfBody(text)
  }

  predicate HoldingMembers(l: List, xs: seq<Member>) {
    && |xs| == |l.cells|
    && forall i :: 0 <= i < |xs| ==> WfMember(xs[i]) && l.cells[i].body == MemberText(xs[i])
  }

  /** Where the program finds the `hooks` member: the first one of that name. */
  function HooksAt(xs: seq<Member>): Option<nat> {
    First(seq(|xs|, i requires 0 <= i < |xs| => MemberName(xs[i]) == "hooks"), 0)
  }

  /** A document whose root is an object, with the text around it, or any other document. */
  datatype Document =
    | Rooted(prefix: string, before: string, l: List, xs: seq<Member>, after: string, suffix: string)
    | Scalar(text: string)

  function DocumentText(d: Document): string {
    if d.Scalar? then d.text else d.prefix + (Enclosed(d.before, d.l, d.after) + d.suffix)
  }

  /** Only the `hooks` member that the program finds is looked into. */
  predicate WfDocument(d: Document) {
    d.Rooted? ==>
      && WfBody(d.before) && WfList(d.l) && HoldingMembers(d.l, d.xs) && WfBody(d.after)
      && forall i :: 0 <= i < |d.xs| && d.xs[i].Hooks? ==> HooksAt(d.xs) == Some(i)
  }

  // ---- the nodes of the text -----------------------------------------------------------------------

  function MemberNodeAt(start: nat, x: Member, owner: Owner): PropertyNode
    requires WfMember(x)
  {
    PropertyNode(MemberName(x), Range(start, start + |MemberText(x)|),
      if x.Field? then Other else Object(HooksNode(start + |x.before|, x.l, x.ps, owner)))
  }

  function RootNode(base: nat, l: List, xs: seq<Member>, owner: Owner): ObjectNode
    requires 0 < base && HoldingMembers(l, xs)
  {
    ObjectNode(base - 1, seq(|xs|, i requires 0 <= i < |xs| => MemberNodeAt(BodyStart(base, l.cells, i), xs[i], owner)))
  }

  /** What the parser reports for a document. */
  function Parsed(d: Document, owner: Owner): Value
    requires WfDocument(d)
  {
    if d.Scalar? then Other else Object(RootNode(|d.prefix| + |d.before|, d.l, d.xs, owner))
  }

  /** The members of the root as they stand in a source. */
  ghost predicate MembersStand(src: string, base: nat, l: List, xs: seq<Member>) {
    Stands(src, base, l) && HoldingMembers(l, xs)
  }

  lemma {:induction false} RootStands(d: Document)
    requires WfDocument(d) && d.Rooted?
    ensures MembersStand(DocumentText(d), |d.prefix| + |d.before|, d.l, d.xs)
    ensures Holds(DocumentText(d), |d.prefix|, Enclosed(d.before, d.l, d.after))
    ensures |d.prefix| + |Enclosed(d.before, d.l, d.after)| + |d.suffix| == |DocumentText(d)|
    ensures ListEnd(|d.prefix| + |d.before|, d.l) + |d.after| == |d.prefix| + |Enclosed(d.before, d.l, d.after)|
    ensures DocumentText(d)[ListEnd(|d.prefix| + |d.before|, d.l)] == d.after[0]
  {
    hide Enclosed, Holds, HoldingMembers, Stands;
    Framed(d.prefix, Enclosed(d.before, d.l, d.after), d.suffix);
    EnclosedStands(DocumentText(d), |d.prefix|, d.before, d.l, d.after);
  }

  lemma {:induction false} Framed(prefix: string, s: string, suffix: string)
    ensures Holds(prefix + (s + suffix), |prefix|, s)
    ensures |prefix + (s + suffix)| == |prefix| + |s| + |suffix|
  {
  }

  lemma {:induction false} MemberHolds(src: string, base: nat, l: List, xs: seq<Member>, i: nat)
    requires MembersStand(src, base, l, xs) && i < |xs|
    ensures WfMember(xs[i])
    ensures Holds(src, BodyStart(base, l.cells, i), MemberText(xs[i]))
    ensures BodyStart(base, l.cells, i) + |MemberText(xs[i])| == BodyEnd(base, l.cells, i)
  {
    PartsStand(src, base, l, i);
  }

  /** The position of the first property of the `hooks` object. */
  function HooksBase(base: nat, l: List, xs: seq<Member>, i: nat): nat
    requires |xs| == |l.cells| && i < |xs|
  {
    if xs[i].Hooks? then BodyStart(base, l.cells, i) + |xs[i].before| else 0
  }

  lemma {:induction false} HooksStand(src: string, base: nat, l: List, xs: seq<Member>, i: nat)
    requires MembersStand(src, base, l, xs) && i < |xs| && xs[i].Hooks?
    ensures PropertiesStand(src, HooksBase(base, l, xs, i), xs[i].l, xs[i].ps)
    ensures BodyStart(base, l.cells, i) < HooksBase(base, l, xs, i)
    ensures ListEnd(HooksBase(base, l, xs, i), xs[i].l) < BodyEnd(base, l.cells, i)
    ensures src[ListEnd(HooksBase(base, l, xs, i), xs[i].l)] == xs[i].after[0]
  {
    hide Render, Enclosed, Stands, HoldingProperties;
    var x := xs[i];
    MemberHolds(src, base, l, xs, i);
    EnclosedStands(src, BodyStart(base, l.cells, i), x.before, x.l, x.after);
  }

  lemma {:induction false} MemberIsInSource(src: string, base: nat, l: List, xs: seq<Member>, owner: Owner, i: nat)
    requires MembersStand(src, base, l, xs) && i < |xs|
    ensures WfMember(xs[i])
    ensures PropertyInSource(MemberNodeAt(BodyStart(base, l.cells, i), xs[i], owner), src)
  {
    hide Stands, Enclosed, Render, HoldingProperties, HooksNode, WfBody, ObjectInSource;
    MemberHolds(src, base, l, xs, i);
    if xs[i].Hooks? {
      HooksStand(src, base, l, xs, i);
      PropertiesAreInSource(src, HooksBase(base, l, xs, i), xs[i].l, xs[i].ps, owner);
    }
  }

  lemma {:induction false} RootIsInSource(src: string, base: nat, l: List, xs: seq<Member>, owner: Owner)
    requires MembersStand(src, base, l, xs)
    ensures 0 < base && ObjectInSource(RootNode(base, l, xs, owner), src)
  {
    hide Stands, MemberNodeAt, PropertyInSource, WfMember;
    BaseInSource(src, base, l);
    forall i | 0 <= i < |xs| ensures PropertyInSource(RootNode(base, l, xs, owner).properties[i], src) {
      MemberIsInSource(src, base, l, xs, owner, i);
    }
  }

  // ---- the patched document -------------------------------------------------------------------------

  function PatchedMember(m: seq<Desired>, owner: Owner, src: string, base: nat, l: List, xs: seq<Member>, i: nat): Member
    requires MembersStand(src, base, l, xs) && i < |xs|
  {
    if xs[i].Field? then xs[i]
    else
      var x, at := xs[i], HooksBase(base, l, xs, i);
      HooksStand(src, base, l, xs, i);
      x.(l := PatchedHooks(m, owner, src, at, x.l, x.ps),
         ps := PatchedProperties(m, owner, src, at, x.l, x.ps) + NewProperties(Missing(m, PropertyNodes(at, x.l, x.ps, owner))))
  }

  function MemberTexts(m: seq<Desired>, owner: Owner, src: string, base: nat, l: List, xs: seq<Member>): (r: seq<string>)
    requires MembersStand(src, base, l, xs)
    ensures |r| == |xs|
  {
    seq(|xs|, i requires 0 <= i < |xs| => MemberText(PatchedMember(m, owner, src, base, l, xs, i)))
  }

  /** The root object after the patch. */
  function PatchedRoot(m: seq<Desired>, owner: Owner, src: string, base: nat, l: List, xs: seq<Member>): List
    requires MembersStand(src, base, l, xs)
  {
    Appended(Rebodied(l, MemberTexts(m, owner, src, base, l, xs)), AddLead(src, base, l),
      if HooksAt(xs).None? then [NewHooksText(m)] else [])
  }

  function PatchedText(m: seq<Desired>, owner: Owner, d: Document): string
    requires WfDocument(d)
  {
    if d.Scalar? then Fresh(m, d.text)
    else
      RootStands(d);
      d.prefix + (Enclosed(d.before, PatchedRoot(m, owner, DocumentText(d), |d.prefix| + |d.before|, d.l, d.xs), d.after) + d.suffix)
  }

  /** Some desired event has a value that is no array. */
  predicate AnyOpaque(m: seq<Desired>, ps: seq<Property>) {
    exists i :: 0 <= i < |ps| && ps[i].Opaque? && Find(m, ps[i].name).Some?
  }

  /** Why a document cannot be patched, if it cannot. */
  function Obstacle(m: seq<Desired>, owner: Owner, d: Document): Option<Error>
    requires WfDocument(d)
  {
    if d.Scalar? || HooksAt(d.xs).None? then None
    else
      var x := d.xs[HooksAt(d.xs).value];
      if x.Field? then Some(HooksNotObject)
      else if AnyOpaque(m, x.ps) then Some(NotAnArray)
      else if AnyUnpatchable(m, owner, x.ps) then Some(Overlap)
      else None
  }

  // ---- the edits of the root ---------------------------------------------------------------------------

  /** The program's search for the `hooks` member. */
  lemma {:induction false} GetIsHooksAt(src: string, base: nat, l: List, xs: seq<Member>, owner: Owner, i: nat)
    requires MembersStand(src, base, l, xs) && 0 < base && i <= |xs|
    ensures Get(RootNode(base, l, xs, owner).properties, "hooks", i)
         == First(seq(|xs|, k requires 0 <= k < |xs| => MemberName(xs[k]) == "hooks"), i)
    decreases |xs| - i
  {
    hide Stands, HooksNode, MemberText, WfBody;
    if i < |xs| {
      GetIsHooksAt(src, base, l, xs, owner, i + 1);
    }
  }

  /** The edits of the `hooks` member, as edits inside the members of the root. */
  function RootParts(es: seq<Edit>, h: nat, n: nat): (r: seq<seq<Edit>>)
    ensures |r| == n
  {
    seq(n, i requires 0 <= i < n => if i == h then es else [])
  }

  lemma {:induction false} RootPartsConcat(es: seq<Edit>, h: nat, n: nat, i: nat)
    requires i <= n && h < n
    ensures Concat(RootParts(es, h, n), i) == if i <= h then es else []
    decreases n - i
  {
    if i < n {
      RootPartsConcat(es, h, n, i + 1);
      assert es + [] == es && [] + es == es;
    }
  }

  lemma {:induction false} RootPartsFit(base: nat, l: List, es: seq<Edit>, h: nat)
    requires h < |l.cells| && Within(es, BodyStart(base, l.cells, h), BodyEnd(base, l.cells, h)) && OneWriter(es)
    ensures PartsFit(base, l, {}, RootParts(es, h, |l.cells|))
    ensures EachOneWriter(RootParts(es, h, |l.cells|))
    ensures EachApart(RootParts(es, h, |l.cells|), 0) <==> Apart(es)
  {
    hide Apart, OneWriter, BodyStart, BodyEnd;
    var parts := RootParts(es, h, |l.cells|);
    AtMostOneEdit([]);
    assert parts[h] == es;
  }

  /** A member that is not the `hooks` object keeps its text. */
  lemma {:induction false} MemberKept(src: string, base: nat, l: List, xs: seq<Member>, i: nat)
    requires MembersStand(src, base, l, xs) && i < |xs|
    ensures BodyOut(src, base, l, [], i, MemberText(xs[i]))
  {
    hide Out, Stands, MemberText;
    MemberHolds(src, base, l, xs, i);
    forall q: nat ensures Untouched([], q) {}
    KeptStretch(src, [], BodyStart(base, l.cells, i), MemberText(xs[i]));
  }

  /** The edits of an existing `hooks` object, seen from the root. */
  lemma {:induction false} RootWithHooks(m: seq<Desired>, owner: Owner, src: string, base: nat, l: List, xs: seq<Member>, h: nat)
    requires MembersStand(src, base, l, xs) && HooksAt(xs) == Some(h) && h < |xs| && xs[h].Hooks?
    requires forall i :: 0 <= i < |xs| && xs[i].Hooks? ==> i == h
    ensures var x, at := xs[h], HooksBase(base, l, xs, h);
      && PropertiesStand(src, at, x.l, x.ps)
      && ObjectInSource(HooksNode(at, x.l, x.ps, owner), src)
      && base <= ListEnd(base, l) + 1 <= |src|
      && var es := HooksEdits(m, HooksNode(at, x.l, x.ps, owner), src);
        && Within(es, base, ListEnd(base, l) + 1) && OneWriter(es)
        && (Apart(es) <==> !AnyUnpatchable(m, owner, x.ps))
        && (!AnyUnpatchable(m, owner, x.ps) ==>
              Out(src, es, base, ListEnd(base, l) + 1) == Render(PatchedRoot(m, owner, src, base, l, xs)) + [src[ListEnd(base, l)]])
  {
    hide Out, Render, Apart, OneWriter, Within, HooksEdits, Stands, HoldingProperties, PatchedHooks, PatchedProperties, AnyUnpatchable, BodyOut,
      Enclosed, Concat, Appended, Rebodied, HooksNode, ObjectInSource, AddLead;
    var x, at := xs[h], HooksBase(base, l, xs, h);
    HooksStand(src, base, l, xs, h);
    BaseInSource(src, base, l);
    HooksOut(m, owner, src, at, x.l, x.ps);
    var es := HooksEdits(m, HooksNode(at, x.l, x.ps, owner), src);
    var parts := RootParts(es, h, |xs|);
    WithinWider(es, at, ListEnd(at, x.l) + 1, BodyStart(base, l.cells, h), BodyEnd(base, l.cells, h));
    RootPartsFit(base, l, es, h);
    RootPartsConcat(es, h, |xs|, 0);
    assert ExtendEdits(src, base, l, parts, []) == es + [] == es;
    ExtendShape(src, base, l, parts, []);
    if !AnyUnpatchable(m, owner, x.ps) {
      var bodies := MemberTexts(m, owner, src, base, l, xs);
      forall i: nat | i < |xs| ensures BodyOut(src, base, l, parts[i], i, bodies[i]) {
        if i == h {
          HooksMemberOut(m, owner, src, base, l, xs, h);
        } else {
          MemberKept(src, base, l, xs, i);
        }
      }
      ExtendOut(src, base, l, bodies, parts, []);
    }
  }

  lemma {:induction false} HooksMemberOut(m: seq<Desired>, owner: Owner, src: string, base: nat, l: List, xs: seq<Member>, h: nat)
    requires MembersStand(src, base, l, xs) && h < |xs| && xs[h].Hooks?
    requires !AnyUnpatchable(m, owner, xs[h].ps)
    ensures var x, at := xs[h], HooksBase(base, l, xs, h);
      && PropertiesStand(src, at, x.l, x.ps)
      && ObjectInSource(HooksNode(at, x.l, x.ps, owner), src)
      && BodyOut(src, base, l, HooksEdits(m, HooksNode(at, x.l, x.ps, owner), src), h, MemberText(PatchedMember(m, owner, src, base, l, xs, h)))
  {
    hide Out, Render, Apart, OneWriter, HooksEdits, Stands, HoldingProperties, PatchedHooks, PatchedProperties, AnyUnpatchable,
      Enclosed, HooksNode, ObjectInSource;
    var x, at := xs[h], HooksBase(base, l, xs, h);
    HooksStand(src, base, l, xs, h);
    MemberHolds(src, base, l, xs, h);
    HooksOut(m, owner, src, at, x.l, x.ps);
    EnclosedOut(src, HooksEdits(m, HooksNode(at, x.l, x.ps, owner), src), BodyStart(base, l.cells, h), x.before, x.l, x.after,
      PatchedHooks(m, owner, src, at, x.l, x.ps));
  }

  /** No edits inside any of `n` elements. */
  function NoParts(n: nat): (r: seq<seq<Edit>>)
    ensures |r| == n
  {
    seq(n, i requires 0 <= i < n => [])
  }

  lemma {:induction false} NoPartsConcat(n: nat, i: nat)
    requires i <= n
    ensures Concat(NoParts(n), i) == []
    decreases n - i
  {
    if i < n {
      NoPartsConcat(n, i + 1);
    }
  }

  lemma {:induction false} NoPartsFit(base: nat, l: List)
    ensures PartsFit(base, l, {}, NoParts(|l.cells|)) && EachOneWriter(NoParts(|l.cells|)) && EachApart(NoParts(|l.cells|), 0)
  {
    AtMostOneEdit([]);
  }

  /** The insertion of a `hooks` object into a root that has none. */
  lemma {:induction false} RootWithoutHooks(m: seq<Desired>, owner: Owner, src: string, base: nat, l: List, xs: seq<Member>)
    requires MembersStand(src, base, l, xs) && HooksAt(xs).None?
    ensures 0 < base && ObjectInSource(RootNode(base, l, xs, owner), src)
    ensures base <= ListEnd(base, l) + 1 <= |src|
    ensures var es := [AddProperties(RootNode(base, l, xs, owner), src, [NewHooksText(m)])];
      && Within(es, base, ListEnd(base, l) + 1) && OneWriter(es) && Apart(es)
      && Out(src, es, base, ListEnd(base, l) + 1) == Render(PatchedRoot(m, owner, src, base, l, xs)) + [src[ListEnd(base, l)]]
  {
    hide Out, Render, Apart, OneWriter, Within, Stands, BodyOut, Concat, Appended, Rebodied, AddProperties, Added, RootNode, ObjectInSource,
      NewHooksText, WfMember, AddLead;
    var texts, parts := [NewHooksText(m)], NoParts(|xs|);
    BaseInSource(src, base, l);
    RootIsInSource(src, base, l, xs, owner);
    RootAddedIs(src, base, l, xs, owner, texts);
    NoPartsConcat(|xs|, 0);
    NoPartsFit(base, l);
    assert ExtendEdits(src, base, l, parts, texts) == [] + [Added(src, base, l, texts)] == [Added(src, base, l, texts)];
    ExtendShape(src, base, l, parts, texts);
    var bodies := MemberTexts(m, owner, src, base, l, xs);
    forall i: nat | i < |xs| ensures BodyOut(src, base, l, parts[i], i, bodies[i]) {
      NoHooksMember(xs, i);
      MemberKept(src, base, l, xs, i);
    }
    ExtendOut(src, base, l, bodies, parts, texts);
  }

  lemma {:induction false} NoHooksMember(xs: seq<Member>, i: nat)
    requires HooksAt(xs).None? && i < |xs|
    ensures xs[i].Field?
  {
    var flags := seq(|xs|, k requires 0 <= k < |xs| => MemberName(xs[k]) == "hooks");
    assert !flags[i];
  }

  lemma {:induction false} RootAddedIs(src: string, base: nat, l: List, xs: seq<Member>, owner: Owner, texts: seq<string>)
    requires MembersStand(src, base, l, xs) && 0 < base && ObjectInSource(RootNode(base, l, xs, owner), src)
    ensures AddProperties(RootNode(base, l, xs, owner), src, texts) == Added(src, base, l, texts)
  {
    hide Stands, Joined, Each, PropertyInSource, MemberText, WfMember, HooksNode, BodyStart, BodyEnd, Lead;
    if xs != [] {
      MemberHolds(src, base, l, xs, |xs| - 1);
    }
  }

  // ---- the program ----------------------------------------------------------------------------------------

  /** What patching a document gives: an error, or the text of the patched document. */
  function PatchOutcome(catalogued: set<string>, owner: Owner, d: Document, entries: seq<Desired>): Outcome<string, Error>
    requires WfDocument(d)
  {
    var m := Collected(entries, |entries|);
    if !AllCatalogued(catalogued, entries) then Err(Uncatalogued)
    else if Obstacle(m, owner, d).Some? then Err(Obstacle(m, owner, d).value)
    else Ok(PatchedText(m, owner, d))
  }

  /** A document of its own, for a root that is no object (`synthesise_fresh`). */
  method SynthesiseFresh(m: seq<Desired>, source: string) returns (r: string)
    ensures r == Fresh(m, source)
    ensures exists newline ::
      IsNewline(source, newline) && r == "{" + (newline + if m == [] then "}" else "  " + (("\"hooks\": " + HooksBody(m)) + (newline + "}")))
  {
    var newline := DetectNewline(source);
    assert IsNewline(source, newline);
    if m == [] {
      return "{" + (newline + "}");
    }
    var body := BuildHooksBody(m);
    return "{" + (newline + ("  " + (("\"hooks\": " + body) + (newline + "}"))));
  }

  /** Edits inside the root object change the document there and nowhere else. */
  lemma {:induction false} DocumentOut(d: Document, es: seq<Edit>, l': List)
    requires WfDocument(d) && d.Rooted?
    requires var base := |d.prefix| + |d.before|;
      && Within(es, base, ListEnd(base, d.l) + 1)
      && ListEnd(base, d.l) + 1 <= |DocumentText(d)|
      && Out(DocumentText(d), es, base, ListEnd(base, d.l) + 1) == Render(l') + [d.after[0]]
    ensures Denote(DocumentText(d), es) == d.prefix + (Enclosed(d.before, l', d.after) + d.suffix)
  {
    hide Out, Render, Enclosed, Stands, HoldingMembers, HooksAt;
    var src, base := DocumentText(d), |d.prefix| + |d.before|;
    var start, end, size := |d.prefix|, |d.prefix| + |Enclosed(d.before, d.l, d.after)|, |src|;
    RootStands(d);
    EnclosedOut(src, es, start, d.before, d.l, d.after, l');
    forall p: nat | !(base <= p < ListEnd(base, d.l) + 1) ensures Untouched(es, p) {
      QuietOutside(es, base, ListEnd(base, d.l) + 1, p);
    }
    SurroundingStands(d);
    KeptStretch(src, es, 0, d.prefix);
    KeptStretch(src, es, end, d.suffix);
    OutSplit(src, es, start, end, size);
    OutSplit(src, es, 0, start, size);
    assert Untouched(es, size);
    EmptyPlus(d.prefix + (Enclosed(d.before, l', d.after) + d.suffix));
  }

  lemma {:induction false} SurroundingStands(d: Document)
    requires d.Rooted?
    ensures Holds(DocumentText(d), 0, d.prefix)
    ensures Holds(DocumentText(d), |d.prefix| + |Enclosed(d.before, d.l, d.after)|, d.suffix)
  {
    hide Enclosed;
    Surrounds(d.prefix, Enclosed(d.before, d.l, d.after), d.suffix);
  }

  lemma {:induction false} Surrounds(prefix: string, s: string, suffix: string)
    ensures Holds(prefix + (s + suffix), 0, prefix)
    ensures Holds(prefix + (s + suffix), |prefix| + |s|, suffix)
  {
  }

  lemma {:induction false} BlockedAgrees(m: seq<Desired>, base: nat, l: List, ps: seq<Property>, owner: Owner)
    requires HoldingProperties(l, ps)
    ensures AnyBlocked(m, PropertyNodes(base, l, ps, owner)) <==> AnyOpaque(m, ps)
  {
    hide PropertyText, WfBody;
    var nodes := PropertyNodes(base, l, ps, owner);
    forall i | 0 <= i < |ps| ensures Blocked(m, nodes[i]) <==> ps[i].Opaque? && Find(m, ps[i].name).Some? {}
    if AnyBlocked(m, nodes) {
      var i :| 0 <= i < |nodes| && Blocked(m, nodes[i]);
      assert ps[i].Opaque?;
    }
    if AnyOpaque(m, ps) {
      var i :| 0 <= i < |ps| && ps[i].Opaque? && Find(m, ps[i].name).Some?;
      assert Blocked(m, nodes[i]);
    }
  }

  lemma {:induction false} WithinIsProper(es: seq<Edit>, lo: nat, hi: nat, size: nat)
    requires Within(es, lo, hi) && hi <= size
    ensures Proper(es, size)
  {
    forall i | 0 <= i < |es| ensures es[i].start <= es[i].end <= size {
      assert es[i] in es;
    }
  }

  /** The value that the program finds for the `hooks` member. */
  lemma {:induction false} HooksValue(d: Document, owner: Owner, h: nat)
    requires WfDocument(d) && d.Rooted? && HooksAt(d.xs) == Some(h)
    ensures h < |d.xs| && MemberName(d.xs[h]) == "hooks"
    ensures 0 < |d.prefix| + |d.before|
    ensures var base := |d.prefix| + |d.before|;
      RootNode(base, d.l, d.xs, owner).properties[h].value
      == if d.xs[h].Field? then Other else Object(HooksNode(HooksBase(base, d.l, d.xs, h), d.xs[h].l, d.xs[h].ps, owner))
    ensures forall i :: 0 <= i < |d.xs| && d.xs[i].Hooks? ==> i == h
  {
    hide MemberText, HooksNode, HoldingProperties, BodyStart;
  }

  lemma {:induction false} HookedRootOut(m: seq<Desired>, owner: Owner, d: Document, h: nat)
    requires WfDocument(d) && d.Rooted? && HooksAt(d.xs) == Some(h)
    requires ObjectInSource(Parsed(d, owner).obj, DocumentText(d))
    ensures var r, obstacle := RootEdits(m, Parsed(d, owner).obj, DocumentText(d)), Obstacle(m, owner, d);
      && (r.Err? ==> obstacle == Some(r.error))
      && (r.Ok? ==>
            && Proper(r.value, |DocumentText(d)|) && OneWriter(r.value)
            && (if Apart(r.value) then obstacle.None? else obstacle == Some(Overlap))
            && (Apart(r.value) ==> Denote(DocumentText(d), r.value) == PatchedText(m, owner, d)))
  {
    hide Out, Render, Apart, OneWriter, Enclosed, Stands, HoldingMembers, HooksEdits, PatchedRoot, Denote, HooksNode, ObjectInSource, AnyBlocked,
      AnyUnpatchable, AnyOpaque, RootNode, DocumentText, HooksAt, Within, Proper, HoldingProperties, NewHooksText;
    RootStands(d);
    var src, base := DocumentText(d), |d.prefix| + |d.before|;
    GetIsHooksAt(src, base, d.l, d.xs, owner, 0);
    HooksAtIs(d.xs);
    HooksValue(d, owner, h);
    MembersCount(d.l, d.xs);
    if d.xs[h].Hooks? {
      var x, at := d.xs[h], HooksBase(base, d.l, d.xs, h);
      RootWithHooks(m, owner, src, base, d.l, d.xs, h);
      NodesOfHooks(m, at, x.l, x.ps, owner);
      var es := HooksEdits(m, HooksNode(at, x.l, x.ps, owner), src);
      WithinIsProper(es, base, ListEnd(base, d.l) + 1, |src|);
      if !AnyUnpatchable(m, owner, x.ps) {
        DocumentOut(d, es, PatchedRoot(m, owner, src, base, d.l, d.xs));
      }
    }
  }

  lemma {:induction false} MembersCount(l: List, xs: seq<Member>)
    requires HoldingMembers(l, xs)
    ensures |xs| == |l.cells|
  {
  }

  lemma {:induction false} HooksAtIs(xs: seq<Member>)
    ensures HooksAt(xs) == First(seq(|xs|, i requires 0 <= i < |xs| => MemberName(xs[i]) == "hooks"), 0)
  {
  }

  lemma {:induction false} NodesOfHooks(m: seq<Desired>, base: nat, l: List, ps: seq<Property>, owner: Owner)
    requires 0 < base && HoldingProperties(l, ps)
    ensures AnyBlocked(m, HooksNode(base, l, ps, owner).properties) <==> AnyOpaque(m, ps)
  {
    BlockedAgrees(m, base, l, ps, owner);
  }

  /** The edits planned for a document: their kind, their overlaps and their meaning. */
  lemma {:induction false} RootOut(m: seq<Desired>, owner: Owner, d: Document)
    requires WfDocument(d) && d.Rooted?
    ensures ObjectInSource(Parsed(d, owner).obj, DocumentText(d))
    ensures var r, obstacle := RootEdits(m, Parsed(d, owner).obj, DocumentText(d)), Obstacle(m, owner, d);
      && (r.Err? ==> obstacle == Some(r.error))
      && (r.Ok? ==>
            && Proper(r.value, |DocumentText(d)|) && OneWriter(r.value)
            && (if Apart(r.value) then obstacle.None? else obstacle == Some(Overlap))
            && (Apart(r.value) ==> Denote(DocumentText(d), r.value) == PatchedText(m, owner, d)))
  {
    hide Out, Render, Apart, OneWriter, Enclosed, Stands, HoldingMembers, AddProperties, NewHooksText, HooksEdits, PatchedRoot, Denote, HooksNode,
      ObjectInSource, AnyBlocked, AnyUnpatchable, RootNode, DocumentText;
    RootStands(d);
    var src, base, hooks := DocumentText(d), |d.prefix| + |d.before|, HooksAt(d.xs);
    RootIsInSource(src, base, d.l, d.xs, owner);
    GetIsHooksAt(src, base, d.l, d.xs, owner, 0);
    HooksAtIs(d.xs);
    if hooks.None? {
      var es := [AddProperties(RootNode(base, d.l, d.xs, owner), src, [NewHooksText(m)])];
      RootWithoutHooks(m, owner, src, base, d.l, d.xs);
      WithinIsProper(es, base, ListEnd(base, d.l) + 1, |src|);
      DocumentOut(d, es, PatchedRoot(m, owner, src, base, d.l, d.xs));
    } else {
      HookedRootOut(m, owner, d, hooks.value);
    }
  }

  /**
   Builds the patched document.  `d` is the document whose text is the source and whose nodes the
   parser reports.
   */
  method Build(catalogued: set<string>, source: string, root: Value, entries: seq<Desired>, ghost d: Document, ghost owner: Owner)
      returns (r: Outcome<string, Error>)
    requires WfDocument(d) && source == DocumentText(d) && root == Parsed(d, owner)
    ensures r == PatchOutcome(catalogued, owner, d, entries)
  {
    hide Apart, OneWriter, Enclosed, RootEdits, PatchedText, Denote, DocumentText, Parsed, ObjectInSource, Collected, Obstacle;
    var collected := Collect(catalogued, entries);
    if collected.None? {
      return Err(Uncatalogued);
    }
    var m := collected.value;
    ScalarOrRooted(m, owner, d);
    if !root.Object? {
      var document := SynthesiseFresh(m, source);
      return Ok(document);
    }
    RootOut(m, owner, d);
    var planned := PlanRoot(m, root.obj, source);
    if planned.Err? {
      return Err(planned.error);
    }
    var applied := ApplyEdits(source, planned.value);
    return if applied.Ok? then Ok(applied.value) else Err(Overlap);
  }

  lemma {:induction false} ScalarOrRooted(m: seq<Desired>, owner: Owner, d: Document)
    requires WfDocument(d)
    ensures Parsed(d, owner).Object? <==> d.Rooted?
    ensures d.Scalar? ==> Obstacle(m, owner, d).None? && PatchedText(m, owner, d) == Fresh(m, DocumentText(d))
  {
  }

  /** The edits of a document whose root is an object. */
  method PlanRoot(m: seq<Desired>, root: ObjectNode, source: string) returns (r: Outcome<seq<Edit>, Error>)
    requires ObjectInSource(root, source)
    ensures r == RootEdits(m, root, source)
  {
    hide HooksEdits, AnyBlocked, HooksBody, AddProperties;
    var hooks := Get(root.properties, "hooks", 0);
    if hooks.Some? {
      assert PropertyInSource(root.properties[hooks.value], source);
      var value := root.properties[hooks.value].value;
      if !value.Object? {
        return Err(HooksNotObject);
      }
      r := PlanHooks(m, value.obj, source);
    } else {
      var body := BuildHooksBody(m);
      var edit := InsertObjectProperties(root, source, ["\"hooks\": " + body]);
      r := Ok([edit]);
    }
  }
}
