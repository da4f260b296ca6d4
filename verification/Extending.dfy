/**
 Rewriting the elements of a list by edits inside them and adding elements at its end: the step
 shared by the objects of a document.
 */
module Extending {
  import opened Splicing
  import opened JsonLayout
  import opened RunDeletion
  import opened ListSplice
  import opened SplicedText
  import opened ListEditing
  import opened Nesting
  import opened Lines
  import opened HandlerPatch
  import opened DocumentPlan
  import opened Appending

  /** What is written between elements added to a list. */
  function AddLead(src: string, base: nat, l: List): (r: string)
    requires Stands(src, base, l)
    ensures AllWs(r)
  {
    if l.cells == [] then ""
    else
      PartsStand(src, base, l, |l.cells| - 1);
      Lead(src, BodyStart(base, l.cells, |l.cells| - 1))
  }

  /** The insertion that adds elements to a list. */
  function Added(src: string, base: nat, l: List, texts: seq<string>): Edit
    requires Stands(src, base, l)
  {
    if l.cells == [] then Edit(base, base, " " + Joined(" ", texts))
    else
      var at := BodyEnd(base, l.cells, |l.cells| - 1);
      Edit(at, at, Each(AddLead(src, base, l), texts))
  }

  /** The edits inside the elements, followed by the insertion of new elements if there are any. */
  function ExtendEdits(src: string, base: nat, l: List, parts: seq<seq<Edit>>, texts: seq<string>): seq<Edit>
    requires Stands(src, base, l)
  {
    Concat(parts, 0) + if texts == [] then [] else [Added(src, base, l, texts)]
  }

  function AddPlacement(src: string, base: nat, l: List, texts: seq<string>): Placement
    requires Stands(src, base, l)
  {
    if texts == [] then Nothing else AfterLast(AddLead(src, base, l), Joined(AddLead(src, base, l), texts))
  }

  lemma {:induction false} NoIndices(l: List)
    ensures IndicesOf(l, []) && IndexSet([], 0) == {}
  {
  }

  lemma {:induction false} ExtendEditsAre(src: string, base: nat, l: List, parts: seq<seq<Edit>>, texts: seq<string>)
    requires Stands(src, base, l) && (texts != [] ==> l.cells != [])
    ensures IndicesOf(l, [])
    ensures ExtendEdits(src, base, l, parts, texts)
         == Concat(parts, 0) + ListEdits(base, l, [], AddPlacement(src, base, l, texts), LastOf(l))
  {
    hide Joined, AddLead;
    NoIndices(l);
    var pl := AddPlacement(src, base, l, texts);
    assert RunsOf(base, l, [], 0) == [];
    assert [] + PlacementEdits(base, l, pl, LastOf(l)) == PlacementEdits(base, l, pl, LastOf(l));
    if texts != [] {
      EachJoined(AddLead(src, base, l), texts);
    }
  }

  /** No edit overlaps another but inside one element, and they stay inside the list. */
  lemma {:induction false} ExtendShape(src: string, base: nat, l: List, parts: seq<seq<Edit>>, texts: seq<string>)
    requires Stands(src, base, l) && PartsFit(base, l, {}, parts) && EachOneWriter(parts)
    ensures Apart(ExtendEdits(src, base, l, parts, texts)) <==> EachApart(parts, 0)
    ensures OneWriter(ExtendEdits(src, base, l, parts, texts))
    ensures Within(ExtendEdits(src, base, l, parts, texts), base, ListEnd(base, l) + 1)
  {
    hide Apart, OneWriter, ListEdits, Added;
    NoIndices(l);
    var es := ExtendEdits(src, base, l, parts, texts);
    if texts != [] && l.cells == [] {
      assert parts == [];
      AtMostOneEdit(es);
      AddedWithin(src, base, l, texts);
    } else {
      var pl := AddPlacement(src, base, l, texts);
      ExtendEditsAre(src, base, l, parts, texts);
      NestedApart(base, l, [], pl, LastOf(l), parts);
      NestedOneWriter(base, l, [], pl, LastOf(l), parts);
      ConcatWithin(base, l, {}, parts, 0);
      ListEditsWithin(base, l, [], pl, LastOf(l));
      WithinConcat(Concat(parts, 0), ListEdits(base, l, [], pl, LastOf(l)), base, ListEnd(base, l) + 1);
    }
  }

  lemma {:induction false} AddedWithin(src: string, base: nat, l: List, texts: seq<string>)
    requires Stands(src, base, l) && l.cells == []
    ensures Added(src, base, l, texts).start == Added(src, base, l, texts).end == base
  {
  }

  /** The list afterwards: the elements rewritten by their own edits, then the new ones. */
  lemma {:induction false} ExtendOut(src: string, base: nat, l: List, bodies: seq<string>, parts: seq<seq<Edit>>, texts: seq<string>)
    requires Stands(src, base, l) && |bodies| == |l.cells| && PartsFit(base, l, {}, parts)
    requires forall i: nat :: i < |l.cells| ==> BodyOut(src, base, l, parts[i], i, bodies[i])
    ensures base <= ListEnd(base, l) + 1 <= |src|
    ensures Out(src, ExtendEdits(src, base, l, parts, texts), base, ListEnd(base, l) + 1)
         == Render(Appended(Rebodied(l, bodies), AddLead(src, base, l), texts)) + [src[ListEnd(base, l)]]
  {
    hide Out, ListEdits, Joined, Each, SpliceList, Rebodied, Appended, SpliceEdits, BodyOut, Merged, AddLead;
    NoIndices(l);
    if texts != [] && l.cells == [] {
      ExtendEmptyOut(src, base, l, bodies, parts, texts);
    } else {
      var pl := AddPlacement(src, base, l, texts);
      ExtendEditsAre(src, base, l, parts, texts);
      ConcatIsMerged(base, l, {}, parts, ListEdits(base, l, [], pl, LastOf(l)));
      NestedSplice(src, base, l, bodies, [], pl, LastOf(l), parts, ExtendEdits(src, base, l, parts, texts));
      NoneGoes(0, |l.cells|);
      SplicedListOut(src, base, l, bodies, {}, pl, ExtendEdits(src, base, l, parts, texts), LastOf(l));
      ExtendedList(src, base, l, bodies, texts);
    }
  }

  lemma {:induction false} ExtendedList(src: string, base: nat, l: List, bodies: seq<string>, texts: seq<string>)
    requires Stands(src, base, l) && |bodies| == |l.cells| && (texts != [] ==> l.cells != [])
    ensures Render(SpliceList(l, bodies, {}, AddPlacement(src, base, l, texts)))
         == Render(Appended(Rebodied(l, bodies), AddLead(src, base, l), texts))
  {
    hide Render, SpliceList, Joined, AddLead;
    if texts == [] {
      RebodiedIs(l, bodies);
    } else {
      AppendedText(l, bodies, AddLead(src, base, l), texts);
    }
  }

  lemma {:induction false} ExtendEmptyOut(src: string, base: nat, l: List, bodies: seq<string>, parts: seq<seq<Edit>>, texts: seq<string>)
    requires Stands(src, base, l) && l.cells == [] && |bodies| == |parts| == 0 && texts != []
    ensures Out(src, ExtendEdits(src, base, l, parts, texts), base, ListEnd(base, l) + 1)
         == Render(Appended(Rebodied(l, bodies), AddLead(src, base, l), texts)) + [src[ListEnd(base, l)]]
  {
    hide Out, Joined, Render;
    InsertIntoEmptyOut(src, base, l, " " + Joined(" ", texts));
    FirstText(l, texts);
    var added := [Edit(base, base, " " + Joined(" ", texts))];
    assert ExtendEdits(src, base, l, parts, texts) == [] + added == added;
  }
}
