/**
 The handlers of one group before and after a patch: the handlers owned for the event go, the
 others stay, and when the group hosts the event's new handler, it is placed last.
 */
module HandlerPatch {
  import opened Outcomes
  import opened Flags
  import opened Splicing
  import opened JsonLayout
  import opened RunDeletion
  import opened ListSplice
  import opened SplicedText
  import opened ListEditing
  import opened Nesting
  import opened EventPlan

  /** For which event a handler text is recognised as owned, if for any. */
  type Owner = string -> Option<string>

  function HandlerFlags(event: string, owner: Owner, cells: seq<Cell>): (r: seq<bool>)
    ensures |r| == |cells|
  {
    seq(|cells|, i requires 0 <= i < |cells| => owner(cells[i].body) == Some(event))
  }

  function OwnedIn(event: string, owner: Owner, h: List): seq<nat> {
    Where(HandlerFlags(event, owner, h.cells), 0)
  }

  /** All handlers are owned, and there is one. */
  predicate Emptied(event: string, owner: Owner, h: List) {
    h.cells != [] && AllTrue(HandlerFlags(event, owner, h.cells))
  }

  /** The handlers after the patch; `placed` is the new handler, if the group hosts it. */
  function PatchedHandlers(event: string, owner: Owner, h: List, placed: Option<string>, lead: string): List {
    var flags := HandlerFlags(event, owner, h.cells);
    BodiesAt(h.cells, 0);
    if placed.None? then SpliceList(h, Bodies(h.cells), Chosen(flags), Nothing)
    else if h.cells == [] then List([Cell("", placed.value, h.tail)], false, "")
    else if AllTrue(flags) then List([Cell(h.cells[0].pre, placed.value, h.cells[|h.cells| - 1].post)], h.trailing, h.tail)
    else SpliceList(h, Bodies(h.cells), Chosen(flags), AfterSurvivor(lead, placed.value))
  }

  function AsSeq(placed: Option<string>): seq<string> {
    if placed.Some? then [placed.value] else []
  }

  /** The handlers that are not owned for the event, in order. */
  function Foreign(event: string, owner: Owner, bodies: seq<string>): seq<string> {
    if bodies == [] then []
    else OneForeign(event, owner, bodies[0]) + Foreign(event, owner, bodies[1..])
  }

  function OneForeign(event: string, owner: Owner, body: string): seq<string> {
    if owner(body) == Some(event) then [] else [body]
  }

  lemma {:induction false} SurvivorsAreForeign(event: string, owner: Owner, cells: seq<Cell>, i: nat)
    requires i <= |cells|
    ensures |Bodies(cells)| == |cells|
    ensures Survivors(Bodies(cells), Chosen(HandlerFlags(event, owner, cells)), i) == Foreign(event, owner, Bodies(cells)[i..])
    decreases |cells| - i
  {
    BodiesAt(cells, i);
    if i < |cells| {
      SurvivorsAreForeign(event, owner, cells, i + 1);
      assert Bodies(cells)[i..][1..] == Bodies(cells)[i + 1..];
    }
  }

  lemma {:induction false} AllChosen(flags: seq<bool>)
    ensures AllFrom(Chosen(flags), 0, |flags|) <==> AllTrue(flags)
  {
    if AllFrom(Chosen(flags), 0, |flags|) {
      forall k | 0 <= k < |flags| ensures flags[k] {
        assert k in Chosen(flags);
      }
    }
  }

  /** The foreign handlers stay verbatim and in order, and the new one comes last. */
  lemma {:induction false} PatchedBodies(event: string, owner: Owner, h: List, placed: Option<string>, lead: string)
    requires WfList(h) && AllWs(lead) && (placed.Some? ==> WfBody(placed.value))
    ensures WfList(PatchedHandlers(event, owner, h, placed, lead))
    ensures Bodies(PatchedHandlers(event, owner, h, placed, lead).cells) == Foreign(event, owner, Bodies(h.cells)) + AsSeq(placed)
  {
    var flags := HandlerFlags(event, owner, h.cells);
    var kill, bodies := Chosen(flags), Bodies(h.cells);
    var pl := if placed.None? then Nothing else AfterSurvivor(lead, placed.value);
    SurvivorsAreForeign(event, owner, h.cells, 0);
    assert bodies[0..] == bodies;
    SurvivorsEmpty(bodies, kill, 0);
    forall i | 0 <= i < |bodies| ensures WfBody(bodies[i]) {
      BodiesAt(h.cells, i);
      assert WfCell(h.cells[i]);
    }
    SplicedListWf(h, bodies, kill, pl);
    AllChosen(flags);
    if placed.Some? {
      if h.cells == [] {
        OneCell(Cell("", placed.value, h.tail), false);
      } else if AllTrue(flags) {
        assert WfCell(h.cells[0]) && WfCell(h.cells[|h.cells| - 1]);
        OneCell(Cell(h.cells[0].pre, placed.value, h.cells[|h.cells| - 1].post), false);
      }
    }
  }

  // ---- the edits of one group ---------------------------------------------------------------

  lemma {:induction false} WhereAreIndices(l: List, flags: seq<bool>)
    requires |flags| == |l.cells|
    ensures IndicesOf(l, Where(flags, 0))
    ensures IndexSet(Where(flags, 0), 0) == Chosen(flags)
  {
    WhereIncreases(flags, 0);
    forall k: nat ensures k in IndexSet(Where(flags, 0), 0) <==> k in Chosen(flags) {
      WhereMember(flags, 0, k);
      if k in Where(flags, 0) {
        var m :| 0 <= m < |Where(flags, 0)| && Where(flags, 0)[m] == k;
      }
    }
  }

  /** The deletions in a group that keeps a handler or has none. */
  function DeletesIn(event: string, owner: Owner, base: nat, h: List): seq<Edit>
    requires WfList(h)
  {
    WhereAreIndices(h, HandlerFlags(event, owner, h.cells));
    if Emptied(event, owner, h) then [] else RunsOf(base, h, OwnedIn(event, owner, h), 0)
  }

  /** The edit that puts the new handler into the group that hosts it. */
  function PlaceIn(event: string, owner: Owner, base: nat, h: List, text: string, lead: string): Edit {
    if h.cells == [] then Edit(base, base, text)
    else if Emptied(event, owner, h) then Edit(BodyStart(base, h.cells, 0), BodyEnd(base, h.cells, |h.cells| - 1), text)
    else
      WhereMember(HandlerFlags(event, owner, h.cells), 0, LastForeign(event, owner, h));
      var at := BodyEnd(base, h.cells, LastForeign(event, owner, h));
      Edit(at, at, "," + (lead + text))
  }

  function LastForeign(event: string, owner: Owner, h: List): (at: nat)
    requires h.cells != [] && !Emptied(event, owner, h)
    ensures at < |h.cells| && !HandlerFlags(event, owner, h.cells)[at]
    ensures AllFrom(Chosen(HandlerFlags(event, owner, h.cells)), at + 1, |h.cells|)
  {
    var flags := HandlerFlags(event, owner, h.cells);
    var last := LastSurvivor(Where(flags, 0), |h.cells|);
    LastSurvivorIs(flags);
    last.value
  }

  lemma {:induction false} LastSurvivorIs(flags: seq<bool>)
    requires flags != [] && !AllTrue(flags)
    ensures var last := LastSurvivor(Where(flags, 0), |flags|);
      last.Some? && !flags[last.value] && AllFrom(Chosen(flags), last.value + 1, |flags|)
  {
    var last := LastSurvivor(Where(flags, 0), |flags|);
    forall k: nat ensures k in Where(flags, 0) <==> k < |flags| && flags[k] {
      WhereMember(flags, 0, k);
    }
  }

  function HandlerEdits(event: string, owner: Owner, base: nat, h: List, placed: Option<string>, lead: string): seq<Edit>
    requires WfList(h)
  {
    DeletesIn(event, owner, base, h) + if placed.Some? then [PlaceIn(event, owner, base, h, placed.value, lead)] else []
  }

  // ---- their effect ---------------------------------------------------------------------------

  lemma {:induction false} OneInsertion(es: seq<Edit>, at: nat, text: string, p: nat)
    ensures TextAt(es + [Edit(at, at, text)], p) == if p == at then TextAt(es, p) + text else TextAt(es, p)
    ensures Covered(es + [Edit(at, at, text)], p) <==> Covered(es, p)
  {
    ConcatMerges(es, [Edit(at, at, text)], p);
    ConsAt(Edit(at, at, text), [], p);
    assert [Edit(at, at, text)] + [] == [Edit(at, at, text)];
    EmptyPlus(text);
    EmptyPlus(TextAt(es, p));
  }

  /** An insertion at the start of a stretch in which the other edits write nothing there. */
  lemma {:induction false} InsertFirst(src: string, es: seq<Edit>, lo: nat, hi: nat, text: string)
    requires lo < hi <= |src| && TextAt(es, lo) == ""
    ensures Out(src, es + [Edit(lo, lo, text)], lo, hi) == text + Out(src, es, lo, hi)
  {
    var ins := [Edit(lo, lo, text)];
    var all := es + ins;
    forall p | lo + 1 <= p < hi ensures SameAt(all, es, p) {
      OneInsertion(es, lo, text, p);
    }
    OutAgree(src, all, es, lo + 1, hi);
    OneInsertion(es, lo, text, lo);
    hide Out;
    OutSplit(src, all, lo, lo + 1, hi);
    OutSplit(src, es, lo, lo + 1, hi);
    OneChar(src, all, lo);
    OneChar(src, es, lo);
    EmptyPlus(text);
    EmptyPlus(if Covered(es, lo) then "" else [src[lo]]);
    Assoc(text, Out(src, es, lo, lo + 1), Out(src, es, lo + 1, hi));
  }

  /** What follows the last element, with the bracket that closes the list. */
  lemma {:induction false} BackStands(src: string, base: nat, l: List)
    requires Stands(src, base, l) && l.cells != []
    ensures Holds(src, BodyEnd(base, l.cells, |l.cells| - 1),
      l.cells[|l.cells| - 1].post + (Comma(l.trailing) + (l.tail + [src[ListEnd(base, l)]])))
    ensures BodyEnd(base, l.cells, |l.cells| - 1)
      + |l.cells[|l.cells| - 1].post + (Comma(l.trailing) + (l.tail + [src[ListEnd(base, l)]]))| == ListEnd(base, l) + 1
  {
    hide Render, WfCells, CellStart;
    var n, close := |l.cells|, [src[ListEnd(base, l)]];
    PartsStand(src, base, l, n - 1);
    if l.trailing {
      TailStands(src, base, l);
      HoldsConcat(src, CellEnd(base, l.cells, n - 1), ",", l.tail + close);
    } else {
      LastBackStands(src, base, l, n - 1);
      HoldsConcat(src, CellEnd(base, l.cells, n - 1), "", l.tail + close);
      HoldsConcat(src, BodyEnd(base, l.cells, n - 1), l.cells[n - 1].post, close);
      EmptyPlus(close);
    }
    HoldsConcat(src, BodyEnd(base, l.cells, n - 1), l.cells[n - 1].post, Comma(l.trailing) + (l.tail + close));
  }

  lemma {:induction false} ReplacedText(pre: string, text: string, post: string, trailing: bool, tail: string, close: string)
    ensures pre + (text + (post + (Comma(trailing) + (tail + close)))) == Render(List([Cell(pre, text, post)], trailing, tail)) + close
  {
    OneCell(Cell(pre, text, post), trailing);
    ReplacedParts(pre, text, post, Comma(trailing), tail, close);
  }

  lemma {:induction false} ReplacedParts(a: string, b: string, c: string, d: string, e: string, f: string)
    ensures a + (b + (c + (d + (e + f)))) == (((a + (b + c)) + d) + e) + f
  {
  }

  lemma {:induction false} OneEditOnly(e: Edit, p: nat)
    requires p < e.start || (e.end <= p && p != e.start)
    ensures Untouched([e], p)
  {
    ConsAt(e, [], p);
    assert [e] == [e] + [];
  }

  /** Replacing everything from the first to the last element leaves a list of one element. */
  lemma {:induction false} ReplaceAllOut(src: string, base: nat, l: List, text: string)
    requires Stands(src, base, l) && l.cells != []
    ensures BodyStart(base, l.cells, 0) < BodyEnd(base, l.cells, |l.cells| - 1) <= ListEnd(base, l) < |src|
    ensures Out(src, [Edit(BodyStart(base, l.cells, 0), BodyEnd(base, l.cells, |l.cells| - 1), text)], base, ListEnd(base, l) + 1)
         == Render(List([Cell(l.cells[0].pre, text, l.cells[|l.cells| - 1].post)], l.trailing, l.tail)) + [src[ListEnd(base, l)]]
  {
    hide Out, Render, Holds, TextAt, Covered;
    var n, end, close := |l.cells|, ListEnd(base, l) + 1, [src[ListEnd(base, l)]];
    var from, to, pre := BodyStart(base, l.cells, 0), BodyEnd(base, l.cells, n - 1), l.cells[0].pre;
    PartsStand(src, base, l, 0);
    PartsStand(src, base, l, n - 1);
    assert WfCell(l.cells[0]) && WfCell(l.cells[n - 1]);
    if n > 1 {
      CellsOrdered(base, l.cells, 0, n - 1);
    }
    var es := [Edit(from, to, text)];
    assert es == [es[0]] + [];
    forall p: nat | p < from || to <= p ensures Untouched(es, p) {
      OneEditOnly(es[0], p);
    }
    ReplacedStretch(src, es[0], []);
    KeptStretch(src, es, base, pre);
    BackStands(src, base, l);
    KeptStretch(src, es, to, l.cells[n - 1].post + (Comma(l.trailing) + (l.tail + close)));
    OutSplit(src, es, base, from, end);
    OutSplit(src, es, from, to, end);
    ReplacedText(pre, text, l.cells[n - 1].post, l.trailing, l.tail, close);
  }

  /** An insertion after the opening bracket of an empty list. */
  lemma {:induction false} InsertIntoEmptyOut(src: string, base: nat, l: List, text: string)
    requires Stands(src, base, l) && l.cells == []
    ensures Out(src, [Edit(base, base, text)], base, ListEnd(base, l) + 1)
         == Render(List([Cell("", text, l.tail)], false, "")) + [src[ListEnd(base, l)]]
  {
    var close := [src[ListEnd(base, l)]];
    TailStands(src, base, l);
    RenderLength(base, l.cells, l.trailing);
    hide Out;
    forall p: nat ensures Untouched([], p) {}
    KeptStretch(src, [], base, l.tail + close);
    InsertFirst(src, [], base, ListEnd(base, l) + 1, text);
    assert [] + [Edit(base, base, text)] == [Edit(base, base, text)];
    OneCell(Cell("", text, l.tail), false);
    ReplacedParts("", text, l.tail, "", "", close);
  }

  /** The edits of one group turn its handlers into the patched ones. */
  lemma {:induction false} HandlersOut(src: string, base: nat, h: List, event: string, owner: Owner, placed: Option<string>, lead: string)
    requires Stands(src, base, h)
    requires placed.Some? || !Emptied(event, owner, h)
    ensures base <= ListEnd(base, h) + 1 <= |src|
    ensures Out(src, HandlerEdits(event, owner, base, h, placed, lead), base, ListEnd(base, h) + 1)
         == Render(PatchedHandlers(event, owner, h, placed, lead)) + [src[ListEnd(base, h)]]
  {
    hide Out, Render, SpliceList, RunsOf, Where;
    var flags := HandlerFlags(event, owner, h.cells);
    var owned := OwnedIn(event, owner, h);
    WhereAreIndices(h, flags);
    if placed.None? {
      NothingPlaced(base, h, owned, 0);
      ListEditsOut(src, base, h, owned, Nothing, 0);
      assert HandlerEdits(event, owner, base, h, placed, lead) == RunsOf(base, h, owned, 0) + [];
    } else if h.cells == [] {
      WhereNone(flags, 0);
      NoRuns(base, h);
      InsertIntoEmptyOut(src, base, h, placed.value);
      assert HandlerEdits(event, owner, base, h, placed, lead) == [] + [Edit(base, base, placed.value)] == [Edit(base, base, placed.value)];
    } else if AllTrue(flags) {
      ReplaceAllOut(src, base, h, placed.value);
      var all := Edit(BodyStart(base, h.cells, 0), BodyEnd(base, h.cells, |h.cells| - 1), placed.value);
      assert HandlerEdits(event, owner, base, h, placed, lead) == [] + [all] == [all];
    } else {
      var at := LastForeign(event, owner, h);
      ListEditsOut(src, base, h, owned, AfterSurvivor(lead, placed.value), at);
    }
  }

  lemma {:induction false} NoRuns(base: nat, h: List)
    requires WfList(h)
    ensures RunsOf(base, h, [], 0) == []
  {
  }

  /** The edits of one group stay inside its handlers, never overlap, and write at one place. */
  lemma {:induction false} HandlerEditsShape(src: string, base: nat, h: List, event: string, owner: Owner, placed: Option<string>, lead: string)
    requires Stands(src, base, h)
    ensures Within(HandlerEdits(event, owner, base, h, placed, lead), base, ListEnd(base, h) + 1)
    ensures Apart(HandlerEdits(event, owner, base, h, placed, lead))
    ensures OneWriter(HandlerEdits(event, owner, base, h, placed, lead))
  {
    hide Render, RunsOf, Where, Apart, OneWriter;
    var flags := HandlerFlags(event, owner, h.cells);
    var owned, es := OwnedIn(event, owner, h), HandlerEdits(event, owner, base, h, placed, lead);
    WhereAreIndices(h, flags);
    if Emptied(event, owner, h) {
      if placed.Some? {
        ReplaceAllOut(src, base, h, placed.value);
      }
      AtMostOneEdit(es);
    } else if h.cells == [] {
      WhereNone(flags, 0);
      NoRuns(base, h);
      AtMostOneEdit(es);
    } else {
      var pl := if placed.None? then Nothing else AfterSurvivor(lead, placed.value);
      var at := LastForeign(event, owner, h);
      ListEditsWithin(base, h, owned, pl, at);
      ListEditsApart(base, h, owned, pl, at);
      ListEditsOneWriter(base, h, owned, pl, at);
    }
  }

  lemma {:induction false} AtMostOneEdit(es: seq<Edit>)
    requires |es| <= 1
    ensures Apart(es) && OneWriter(es)
  {
    assert es != [] ==> es[1..] == [];
  }
}
