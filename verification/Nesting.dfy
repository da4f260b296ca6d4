/**
 Lists inside the elements of lists.  The edits of a document are planned level by level: edits
 inside the elements of a list, followed by edits of the list itself.  The effect of the whole
 is the splice of the outer list with the elements rewritten by their own edits.
 */
module Nesting {
  import opened Splicing
  import opened JsonLayout
  import opened RunDeletion
  import opened ListSplice
  import opened SplicedText
  import opened ListEditing

  // ---- an element that holds a list ------------------------------------------------------

  /** The text of a list with what stands around it; `before` ends and `after` starts with a bracket. */
  function Enclosed(before: string, l: List, after: string): string {
    before + (Render(l) + after)
  }

  lemma {:induction false} EnclosedWf(before: string, l: List, after: string)
    requires WfBody(before) && WfBody(after)
    ensures WfBody(Enclosed(before, l, after))
  {
    var s := Enclosed(before, l, after);
    assert s[0] == before[0] && s[|s| - 1] == after[|after| - 1];
  }

  lemma {:induction false} EnclosedStands(src: string, start: nat, before: string, l: List, after: string)
    requires WfBody(before) && WfBody(after) && WfList(l)
    requires Holds(src, start, Enclosed(before, l, after))
    ensures Stands(src, start + |before|, l)
    ensures Holds(src, start, before) && Holds(src, ListEnd(start + |before|, l), after)
    ensures ListEnd(start + |before|, l) + |after| == start + |Enclosed(before, l, after)| <= |src|
    ensures src[ListEnd(start + |before|, l)] == after[0]
  {
    HoldsConcat(src, start, before, Render(l) + after);
    HoldsConcat(src, start + |before|, Render(l), after);
    assert src[start + (|before| - 1)] == before[|before| - 1];
    assert src[ListEnd(start + |before|, l) + 0] == after[0];
  }

  /** What edits inside an enclosed list make of the element. */
  lemma {:induction false} EnclosedOut(src: string, es: seq<Edit>, start: nat, before: string, l: List, after: string, l': List)
    requires WfBody(before) && WfBody(after) && WfList(l)
    requires Holds(src, start, Enclosed(before, l, after))
    requires Within(es, start + |before|, ListEnd(start + |before|, l) + 1)
    requires ListEnd(start + |before|, l) + 1 <= |src|
    requires Out(src, es, start + |before|, ListEnd(start + |before|, l) + 1) == Render(l') + [after[0]]
    ensures start + |Enclosed(before, l, after)| <= |src|
    ensures Out(src, es, start, start + |Enclosed(before, l, after)|) == Enclosed(before, l', after)
  {
    hide Out, Render;
    EnclosedStands(src, start, before, l, after);
    var base, end := start + |before|, ListEnd(start + |before|, l);
    var rest := after[1..];
    forall p: nat | !(base <= p < end + 1) ensures Untouched(es, p) {
      QuietOutside(es, base, end + 1, p);
    }
    KeptStretch(src, es, start, before);
    HoldsConcat(src, end, [after[0]], rest);
    assert [after[0]] + rest == after;
    KeptStretch(src, es, end + 1, rest);
    OutSplit(src, es, base, end + 1, end + 1 + |rest|);
    OutSplit(src, es, start, base, end + 1 + |rest|);
    Assoc(Render(l'), [after[0]], rest);
  }

  // ---- the edits of all elements ------------------------------------------------------------

  function Concat(parts: seq<seq<Edit>>, i: nat): seq<Edit>
    requires i <= |parts|
    decreases |parts| - i
  {
    if i == |parts| then [] else parts[i] + Concat(parts, i + 1)
  }

  /** Each part stays inside the element it belongs to, and elements that go have none. */
  ghost predicate PartsFit(base: nat, l: List, kill: set<nat>, parts: seq<seq<Edit>>) {
    && |parts| == |l.cells|
    && (forall i: nat :: i < |parts| ==> Within(parts[i], BodyStart(base, l.cells, i), BodyEnd(base, l.cells, i)))
    && (forall i: nat :: i < |parts| && i in kill ==> parts[i] == [])
  }

  /** The list `es` does at `p` what `a` and `b` do together. */
  ghost predicate Merges(es: seq<Edit>, a: seq<Edit>, b: seq<Edit>, p: nat) {
    TextAt(es, p) == TextAt(a, p) + TextAt(b, p) && (Covered(es, p) <==> Covered(a, p) || Covered(b, p))
  }

  lemma {:induction false} ConcatMerges(a: seq<Edit>, b: seq<Edit>, p: nat)
    ensures Merges(a + b, a, b, p)
  {
    TextAtConcat(a, b, p);
    CoveredConcat(a, b, p);
  }

  lemma {:induction false} MergesQuiet(es: seq<Edit>, a: seq<Edit>, b: seq<Edit>, p: nat)
    requires Merges(es, a, b, p)
    ensures Untouched(a, p) ==> SameAt(es, b, p)
    ensures Untouched(b, p) ==> SameAt(es, a, p)
  {
    EmptyPlus(TextAt(a, p));
    EmptyPlus(TextAt(b, p));
  }

  /** In a cell, only its own element's edits count. */
  lemma {:induction false} ConcatAt(base: nat, l: List, kill: set<nat>, parts: seq<seq<Edit>>, i: nat, k: nat, p: nat)
    requires PartsFit(base, l, kill, parts) && i <= |parts| && k < |parts|
    requires InCell(base, l, k, p)
    ensures SameAt(Concat(parts, i), if i <= k then parts[k] else [], p)
    decreases |parts| - i
  {
    if i < |parts| {
      ConcatAt(base, l, kill, parts, i + 1, k, p);
      ConcatMerges(parts[i], Concat(parts, i + 1), p);
      MergesQuiet(Concat(parts, i), parts[i], Concat(parts, i + 1), p);
      if i != k {
        if i < k {
          CellsOrdered(base, l.cells, i, k);
        } else {
          CellsOrdered(base, l.cells, k, i);
        }
        QuietOutside(parts[i], BodyStart(base, l.cells, i), BodyEnd(base, l.cells, i), p);
      }
    }
  }

  lemma {:induction false} ConcatAtTail(base: nat, l: List, kill: set<nat>, parts: seq<seq<Edit>>, i: nat, p: nat)
    requires WfList(l) && PartsFit(base, l, kill, parts) && i <= |parts|
    requires p < base || ListEnd(base, l) <= p + |l.tail|
    ensures Untouched(Concat(parts, i), p)
    decreases |parts| - i
  {
    if i < |parts| {
      ConcatAtTail(base, l, kill, parts, i + 1, p);
      ConcatMerges(parts[i], Concat(parts, i + 1), p);
      MergesQuiet(Concat(parts, i), parts[i], Concat(parts, i + 1), p);
      BodiesBeforeTail(base, l, i);
      StartsAfterBase(base, l.cells, i);
      QuietOutside(parts[i], BodyStart(base, l.cells, i), BodyEnd(base, l.cells, i), p);
    }
  }

  lemma {:induction false} BodiesBeforeTail(base: nat, l: List, i: nat)
    requires WfList(l) && i < |l.cells|
    ensures BodyEnd(base, l.cells, i) + |l.tail| <= ListEnd(base, l)
  {
    RunBeforeTail(base, l, i, i);
    EndsInList(base, l, i);
    if i + 1 < |l.cells| {
      EndsInList(base, l, |l.cells| - 1);
      CellsOrdered(base, l.cells, i, |l.cells| - 1);
    }
  }

  lemma {:induction false} NoneWithin(lo: nat, hi: nat)
    ensures Within([], lo, hi)
  {
  }

  lemma {:induction false} ConcatWithin(base: nat, l: List, kill: set<nat>, parts: seq<seq<Edit>>, i: nat)
    requires WfList(l) && PartsFit(base, l, kill, parts) && i <= |parts|
    ensures Within(Concat(parts, i), base, ListEnd(base, l) + 1)
    decreases |parts| - i
  {
    hide Within, BodyEnd, WfList, Render;
    NoneWithin(base, ListEnd(base, l) + 1);
    if i < |parts| {
      ConcatWithin(base, l, kill, parts, i + 1);
      StartsAfterBase(base, l.cells, i);
      BodiesBeforeTail(base, l, i);
      WithinWider(parts[i], BodyStart(base, l.cells, i), BodyEnd(base, l.cells, i), base, ListEnd(base, l) + 1);
      WithinConcat(parts[i], Concat(parts, i + 1), base, ListEnd(base, l) + 1);
    }
  }

  // ---- the splice of the outer list -----------------------------------------------------------

  /** The edits `es` are those of the elements merged with those of the list. */
  ghost predicate Merged(base: nat, l: List, parts: seq<seq<Edit>>, own: seq<Edit>, es: seq<Edit>)
    requires |parts| == |l.cells|
  {
    && (forall i: nat, p: nat :: i < |parts| && InCell(base, l, i, p) ==> Merges(es, parts[i], own, p))
    && (forall p: nat :: ListEnd(base, l) - |l.tail| <= p <= ListEnd(base, l) ==> SameAt(es, own, p))
  }

  lemma {:induction false} NestedCell(base: nat, l: List, indices: seq<nat>, pl: Placement, at: nat, parts: seq<seq<Edit>>, es: seq<Edit>, i: nat)
    requires WfList(l) && IndicesOf(l, indices) && at < |l.cells| && i < |l.cells|
    requires PartsFit(base, l, IndexSet(indices, 0), parts)
    requires forall p: nat :: InCell(base, l, i, p) ==> Merges(es, parts[i], ListEdits(base, l, indices, pl, at), p)
    ensures CellDoes(base, l, IndexSet(indices, 0), es, i, WriteAt(base, l, at), Placed(pl))
  {
    hide ListEdits;
    var kill, own, q := IndexSet(indices, 0), ListEdits(base, l, indices, pl, at), WriteAt(base, l, at);
    forall p: nat | InCell(base, l, i, p) && (i in kill || p < BodyStart(base, l.cells, i) || BodyEnd(base, l.cells, i) <= p)
      ensures Does(es, p, q, Placed(pl), Taken(base, l, kill, i, p))
    {
      ListEditsAt(base, l, indices, pl, at, i, p);
      assert Merges(es, parts[i], own, p);
      if i !in kill {
        QuietOutside(parts[i], BodyStart(base, l.cells, i), BodyEnd(base, l.cells, i), p);
      }
      MergesQuiet(es, parts[i], own, p);
    }
  }

  lemma {:induction false} NestedBody(src: string, base: nat, l: List, indices: seq<nat>, pl: Placement, at: nat, parts: seq<seq<Edit>>, es: seq<Edit>, i: nat, body: string)
    requires WfList(l) && IndicesOf(l, indices) && at < |l.cells| && i < |l.cells| && i !in IndexSet(indices, 0)
    requires |parts| == |l.cells|
    requires forall p: nat :: InCell(base, l, i, p) ==> Merges(es, parts[i], ListEdits(base, l, indices, pl, at), p)
    requires BodyOut(src, base, l, parts[i], i, body)
    ensures BodyOut(src, base, l, es, i, body)
  {
    hide ListEdits, Out;
    var kill, own := IndexSet(indices, 0), ListEdits(base, l, indices, pl, at);
    if at != i {
      Elsewhere(base, l, at, i);
    }
    forall p | BodyStart(base, l.cells, i) <= p < BodyEnd(base, l.cells, i) ensures SameAt(es, parts[i], p) {
      assert InCell(base, l, i, p);
      ListEditsAt(base, l, indices, pl, at, i, p);
      MergesQuiet(es, parts[i], own, p);
    }
    OutAgree(src, es, parts[i], BodyStart(base, l.cells, i), BodyEnd(base, l.cells, i));
  }

  /** The edits of a list and of its elements together splice the list with rewritten elements. */
  lemma {:induction false} NestedSplice(src: string, base: nat, l: List, bodies: seq<string>, indices: seq<nat>, pl: Placement, at: nat, parts: seq<seq<Edit>>, es: seq<Edit>)
    requires Stands(src, base, l) && IndicesOf(l, indices) && |bodies| == |l.cells|
    requires l.cells != [] ==> at < |l.cells|
    requires l.cells == [] ==> pl.Nothing?
    requires PartsFit(base, l, IndexSet(indices, 0), parts)
    requires Merged(base, l, parts, ListEdits(base, l, indices, pl, at), es)
    requires forall i: nat :: i < |l.cells| && i !in IndexSet(indices, 0) ==> BodyOut(src, base, l, parts[i], i, bodies[i])
    ensures SpliceEdits(src, base, l, bodies, IndexSet(indices, 0), es, at, Placed(pl))
  {
    hide ListEdits, Out;
    var kill, own, q := IndexSet(indices, 0), ListEdits(base, l, indices, pl, at), WriteAt(base, l, at);
    forall i: nat | i < |l.cells| ensures CellDoes(base, l, kill, es, i, q, Placed(pl)) {
      NestedCell(base, l, indices, pl, at, parts, es, i);
    }
    forall i: nat | i < |l.cells| && i !in kill ensures BodyOut(src, base, l, es, i, bodies[i]) {
      NestedBody(src, base, l, indices, pl, at, parts, es, i, bodies[i]);
    }
    forall p: nat | ListEnd(base, l) - |l.tail| <= p <= ListEnd(base, l) ensures Does(es, p, q, Placed(pl), false) {
      ListEditsAtTail(base, l, indices, pl, at, p);
      assert SameAt(es, own, p);
    }
  }

  /** The edits of the elements one after the other, then those of the list. */
  lemma {:induction false} ConcatIsMerged(base: nat, l: List, kill: set<nat>, parts: seq<seq<Edit>>, own: seq<Edit>)
    requires WfList(l) && PartsFit(base, l, kill, parts)
    ensures Merged(base, l, parts, own, Concat(parts, 0) + own)
  {
    var es := Concat(parts, 0) + own;
    forall i: nat, p: nat | i < |parts| && InCell(base, l, i, p) ensures Merges(es, parts[i], own, p) {
      ConcatAt(base, l, kill, parts, 0, i, p);
      ConcatMerges(Concat(parts, 0), own, p);
    }
    forall p: nat | ListEnd(base, l) - |l.tail| <= p <= ListEnd(base, l) ensures SameAt(es, own, p) {
      ConcatAtTail(base, l, kill, parts, 0, p);
      ConcatMerges(Concat(parts, 0), own, p);
      MergesQuiet(es, Concat(parts, 0), own, p);
    }
  }

  // ---- overlaps and writers ---------------------------------------------------------------------

  ghost predicate EachApart(parts: seq<seq<Edit>>, i: nat) {
    forall k: nat :: i <= k < |parts| ==> Apart(parts[k])
  }

  lemma {:induction false} EachApartStep(parts: seq<seq<Edit>>, i: nat)
    requires i < |parts|
    ensures EachApart(parts, i) <==> Apart(parts[i]) && EachApart(parts, i + 1)
  {
  }

  lemma {:induction false} ConcatAfter(base: nat, l: List, kill: set<nat>, parts: seq<seq<Edit>>, i: nat)
    requires PartsFit(base, l, kill, parts) && 0 < i <= |parts|
    ensures forall e :: e in Concat(parts, i) ==> BodyEnd(base, l.cells, i - 1) < e.start
    decreases |parts| - i
  {
    if i < |parts| {
      ConcatAfter(base, l, kill, parts, i + 1);
      CellsOrdered(base, l.cells, i - 1, i);
      assert Within(parts[i], BodyStart(base, l.cells, i), BodyEnd(base, l.cells, i));
    }
  }

  lemma {:induction false} PartFits(base: nat, l: List, kill: set<nat>, parts: seq<seq<Edit>>, i: nat)
    requires PartsFit(base, l, kill, parts) && i < |parts|
    ensures i < |l.cells| && Within(parts[i], BodyStart(base, l.cells, i), BodyEnd(base, l.cells, i))
  {
  }

  lemma {:induction false} LaterEditsCompatible(a: seq<Edit>, lo: nat, hi: nat, b: seq<Edit>)
    requires Within(a, lo, hi) && forall e :: e in b ==> hi < e.start
    ensures AllCompatible(a, b)
  {
  }

  lemma {:induction false} NoneApart(parts: seq<seq<Edit>>)
    ensures Concat(parts, |parts|) == [] && Apart([]) && EachApart(parts, |parts|)
  {
  }

  /** Edits of different elements never touch. */
  lemma {:induction false} ConcatApart(base: nat, l: List, kill: set<nat>, parts: seq<seq<Edit>>, i: nat)
    requires PartsFit(base, l, kill, parts) && i <= |parts|
    ensures Apart(Concat(parts, i)) <==> EachApart(parts, i)
    decreases |parts| - i
  {
    hide Apart, AllCompatible, BodyEnd, BodyStart, EachApart, CompatibleWith, Within, PartsFit;
    if i == |parts| {
      NoneApart(parts);
    } else {
      PartFits(base, l, kill, parts, i);
      ConcatApart(base, l, kill, parts, i + 1);
      ConcatAfter(base, l, kill, parts, i + 1);
      ApartConcat(parts[i], Concat(parts, i + 1));
      LaterEditsCompatible(parts[i], BodyStart(base, l.cells, i), BodyEnd(base, l.cells, i), Concat(parts, i + 1));
      EachApartStep(parts, i);
    }
  }

  lemma {:induction false} InConcat(parts: seq<seq<Edit>>, i: nat, e: Edit) returns (k: nat)
    requires i <= |parts| && e in Concat(parts, i)
    ensures i <= k < |parts| && e in parts[k]
    decreases |parts| - i
  {
    if e in parts[i] {
      k := i;
    } else {
      k := InConcat(parts, i + 1, e);
    }
  }

  /** The edits of the list do not reach into the elements that stay. */
  lemma {:induction false} PartsAwayFromOwn(base: nat, l: List, indices: seq<nat>, pl: Placement, at: nat, parts: seq<seq<Edit>>)
    requires WfList(l) && IndicesOf(l, indices) && PartsFit(base, l, IndexSet(indices, 0), parts)
    requires !pl.Nothing? ==> at < |l.cells|
    ensures AllCompatible(Concat(parts, 0), ListEdits(base, l, indices, pl, at))
    ensures forall x, y :: x in Concat(parts, 0) && y in ListEdits(base, l, indices, pl, at) && x.start == y.start ==> y.text == ""
  {
    var kill := IndexSet(indices, 0);
    forall x, y | x in Concat(parts, 0) && y in ListEdits(base, l, indices, pl, at)
      ensures Compatible(x, y) && (x.start == y.start ==> y.text == "")
    {
      var k := InConcat(parts, 0, x);
      assert Within(parts[k], BodyStart(base, l.cells, k), BodyEnd(base, l.cells, k));
      if y in RunsOf(base, l, indices, 0) {
        RunsShape(base, l, indices, 0, kill, y);
      } else if at != k {
        Elsewhere(base, l, at, k);
      }
    }
  }

  /** Overlaps arise only inside one element or between the edits of the list itself. */
  lemma {:induction false} NestedApart(base: nat, l: List, indices: seq<nat>, pl: Placement, at: nat, parts: seq<seq<Edit>>)
    requires WfList(l) && IndicesOf(l, indices) && PartsFit(base, l, IndexSet(indices, 0), parts)
    requires !pl.Nothing? ==> at < |l.cells|
    ensures Apart(Concat(parts, 0) + ListEdits(base, l, indices, pl, at))
       <==> EachApart(parts, 0) && (pl.Nothing? || !(at in IndexSet(indices, 0) && HasComma(l, at)))
  {
    hide ListEdits;
    ApartConcat(Concat(parts, 0), ListEdits(base, l, indices, pl, at));
    ConcatApart(base, l, IndexSet(indices, 0), parts, 0);
    ListEditsApart(base, l, indices, pl, at);
    PartsAwayFromOwn(base, l, indices, pl, at, parts);
  }

  ghost predicate EachOneWriter(parts: seq<seq<Edit>>) {
    forall k: nat :: k < |parts| ==> OneWriter(parts[k])
  }

  lemma {:induction false} ConcatOneWriter(base: nat, l: List, kill: set<nat>, parts: seq<seq<Edit>>, i: nat)
    requires PartsFit(base, l, kill, parts) && i <= |parts| && EachOneWriter(parts)
    ensures OneWriter(Concat(parts, i))
    decreases |parts| - i
  {
    if i < |parts| {
      ConcatOneWriter(base, l, kill, parts, i + 1);
      ConcatAfter(base, l, kill, parts, i + 1);
      assert Within(parts[i], BodyStart(base, l.cells, i), BodyEnd(base, l.cells, i));
      OneWriterConcat(parts[i], Concat(parts, i + 1));
    }
  }

  lemma {:induction false} ListEditsOneWriter(base: nat, l: List, indices: seq<nat>, pl: Placement, at: nat)
    requires WfList(l) && IndicesOf(l, indices)
    requires !pl.Nothing? ==> at < |l.cells|
    ensures OneWriter(ListEdits(base, l, indices, pl, at))
  {
    var runs, placed := RunsOf(base, l, indices, 0), PlacementEdits(base, l, pl, at);
    RunsSilent(base, l, indices, 0);
    SilentHasOneWriter(runs);
    assert placed != [] ==> placed[1..] == [];
    OneWriterConcat(runs, placed);
  }

  lemma {:induction false} NestedOneWriter(base: nat, l: List, indices: seq<nat>, pl: Placement, at: nat, parts: seq<seq<Edit>>)
    requires WfList(l) && IndicesOf(l, indices) && PartsFit(base, l, IndexSet(indices, 0), parts) && EachOneWriter(parts)
    requires !pl.Nothing? ==> at < |l.cells|
    ensures OneWriter(Concat(parts, 0) + ListEdits(base, l, indices, pl, at))
  {
    ConcatOneWriter(base, l, IndexSet(indices, 0), parts, 0);
    ListEditsOneWriter(base, l, indices, pl, at);
    PartsAwayFromOwn(base, l, indices, pl, at, parts);
    OneWriterConcat(Concat(parts, 0), ListEdits(base, l, indices, pl, at));
  }
}
