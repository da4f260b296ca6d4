/**
 The edits the program plans for one list: run deletions and at most one insertion.  They are
 shown to be edits of the kind whose effect `SplicedText` computes, to stay inside the list, and
 to be free of overlaps exactly when the insertion does not fall inside a deletion.
 */
module ListEditing {
  import opened Splicing
  import opened JsonLayout
  import opened RunDeletion
  import opened ListSplice
  import opened SplicedText

  lemma {:induction false} SeqAssoc<T>(a: seq<T>, b: seq<T>, c: seq<T>)
    ensures a + (b + c) == (a + b) + c
  {
  }

  // ---- edits inside a stretch -----------------------------------------------------------

  /** Every edit starts in `lo .. hi` and ends there. */
  predicate Within(es: seq<Edit>, lo: nat, hi: nat) {
    forall e :: e in es ==> lo <= e.start < hi && e.start <= e.end <= hi
  }

  lemma {:induction false} QuietOutside(es: seq<Edit>, lo: nat, hi: nat, p: nat)
    requires Within(es, lo, hi) && !(lo <= p < hi)
    ensures Untouched(es, p)
  {
    NoTextAt(es, p);
    NotCovered(es, p);
  }

  lemma {:induction false} WithinConcat(a: seq<Edit>, b: seq<Edit>, lo: nat, hi: nat)
    ensures Within(a + b, lo, hi) <==> Within(a, lo, hi) && Within(b, lo, hi)
  {
    forall e ensures e in a + b <==> e in a || e in b {}
  }

  lemma {:induction false} WithinWider(es: seq<Edit>, lo: nat, hi: nat, lo': nat, hi': nat)
    requires Within(es, lo, hi) && lo' <= lo && hi <= hi'
    ensures Within(es, lo', hi')
  {
  }

  ghost predicate AllCompatible(a: seq<Edit>, b: seq<Edit>) {
    forall x, y :: x in a && y in b ==> Compatible(x, y)
  }

  lemma {:induction false} ApartConcat(a: seq<Edit>, b: seq<Edit>)
    ensures Apart(a + b) <==> Apart(a) && Apart(b) && AllCompatible(a, b)
  {
    if a == [] {
      assert a + b == b;
    } else {
      var head, rest := a[0], a[1..];
      assert a == [head] + rest && a + b == [head] + (rest + b);
      ApartConcat(rest, b);
      ApartHead(head, rest + b);
      ApartHead(head, rest);
      forall x ensures x in a <==> x == head || x in rest {}
      forall x ensures x in rest + b <==> x in rest || x in b {}
    }
  }

  /** No edit of the list writes anything. */
  predicate Silent(es: seq<Edit>) {
    forall e :: e in es ==> e.text == ""
  }

  lemma {:induction false} OneWriterConcat(a: seq<Edit>, b: seq<Edit>)
    requires OneWriter(a) && OneWriter(b)
    requires forall x, y :: x in a && y in b && x.start == y.start ==> x.text == "" || y.text == ""
    ensures OneWriter(a + b)
  {
    if a == [] {
      assert a + b == b;
    } else {
      var head, rest := a[0], a[1..];
      assert a == [head] + rest && (a + b)[1..] == rest + b && head in a;
      forall x ensures x in rest ==> x in a {}
      OneWriterConcat(rest, b);
      forall e | e in rest + b && e.start == head.start ensures e.text == "" || head.text == "" {
        if e in rest {
          assert e in a[1..];
        }
      }
    }
  }

  lemma {:induction false} SilentHasOneWriter(es: seq<Edit>)
    requires Silent(es)
    ensures OneWriter(es)
  {
    if es != [] {
      assert es == [es[0]] + es[1..];
      SilentHasOneWriter(es[1..]);
    }
  }

  // ---- the edits of one list ------------------------------------------------------------

  function PlacementEdits(base: nat, l: List, pl: Placement, at: nat): seq<Edit>
    requires !pl.Nothing? ==> at < |l.cells|
  {
    if pl.Nothing? then [] else [Edit(BodyEnd(base, l.cells, at), BodyEnd(base, l.cells, at), Placed(pl))]
  }

  function ListEdits(base: nat, l: List, indices: seq<nat>, pl: Placement, at: nat): seq<Edit>
    requires WfList(l) && IndicesOf(l, indices)
    requires !pl.Nothing? ==> at < |l.cells|
  {
    RunsOf(base, l, indices, 0) + PlacementEdits(base, l, pl, at)
  }

  /** The index of the last element, after which a new one is written. */
  function LastOf(l: List): nat {
    if l.cells == [] then 0 else |l.cells| - 1
  }

  lemma {:induction false} NothingPlaced(base: nat, l: List, indices: seq<nat>, at: nat)
    requires WfList(l) && IndicesOf(l, indices)
    ensures ListEdits(base, l, indices, Nothing, at) == RunsOf(base, l, indices, 0)
  {
  }

  lemma {:induction false} RunBeforeTail(base: nat, l: List, first: nat, last: nat)
    requires WfList(l) && first <= last < |l.cells|
    ensures RunOf(base, l, first, last).end + |l.tail| <= ListEnd(base, l)
  {
    var n := |l.cells|;
    EndsInList(base, l, last);
    EndsInList(base, l, n - 1);
    if last < n - 1 {
      CellsOrdered(base, l.cells, last, n - 1);
    }
  }

  lemma {:induction false} RunsBeforeTail(base: nat, l: List, indices: seq<nat>, k: nat, e: Edit)
    requires WfList(l) && IndicesOf(l, indices) && k <= |indices|
    requires e in RunsOf(base, l, indices, k)
    ensures e.end + |l.tail| <= ListEnd(base, l)
    decreases |indices| - k
  {
    RunsStart(base, l, indices, k, e);
    var j := RunEnd(indices, k);
    assert indices[k] <= indices[j];
    if e == RunOf(base, l, indices[k], indices[j]) {
      RunBeforeTail(base, l, indices[k], indices[j]);
    } else {
      RunsBeforeTail(base, l, indices, j + 1, e);
    }
  }

  /** What the placement does at a position. */
  lemma {:induction false} PlacementAt(base: nat, l: List, pl: Placement, at: nat, p: nat)
    requires !pl.Nothing? ==> at < |l.cells|
    requires l.cells != [] ==> at < |l.cells|
    ensures TextAt(PlacementEdits(base, l, pl, at), p) == if p == WriteAt(base, l, at) then Placed(pl) else ""
    ensures !Covered(PlacementEdits(base, l, pl, at), p)
  {
    if !pl.Nothing? {
      ConsAt(Edit(BodyEnd(base, l.cells, at), BodyEnd(base, l.cells, at), Placed(pl)), [], p);
    }
  }

  /** The edits of a list do at each position of a cell what `Taken` and the placement say. */
  lemma {:induction false} ListEditsAt(base: nat, l: List, indices: seq<nat>, pl: Placement, at: nat, i: nat, p: nat)
    requires WfList(l) && IndicesOf(l, indices)
    requires at < |l.cells| && i < |l.cells| && InCell(base, l, i, p)
    ensures Does(ListEdits(base, l, indices, pl, at), p, WriteAt(base, l, at), Placed(pl), Taken(base, l, IndexSet(indices, 0), i, p))
  {
    var runs, placed := RunsOf(base, l, indices, 0), PlacementEdits(base, l, pl, at);
    TextAtConcat(runs, placed, p);
    CoveredConcat(runs, placed, p);
    RunsTake(base, l, indices, 0, i, p);
    RunsWriteNothing(base, l, indices, 0, p);
    PlacementAt(base, l, pl, at, p);
    EmptyPlus(TextAt(placed, p));
  }

  lemma {:induction false} ListEditsAtTail(base: nat, l: List, indices: seq<nat>, pl: Placement, at: nat, p: nat)
    requires WfList(l) && IndicesOf(l, indices)
    requires l.cells != [] ==> at < |l.cells|
    requires l.cells == [] ==> pl.Nothing?
    requires ListEnd(base, l) <= p + |l.tail|
    ensures Does(ListEdits(base, l, indices, pl, at), p, WriteAt(base, l, at), Placed(pl), false)
  {
    var runs, placed := RunsOf(base, l, indices, 0), PlacementEdits(base, l, pl, at);
    TextAtConcat(runs, placed, p);
    CoveredConcat(runs, placed, p);
    RunsWriteNothing(base, l, indices, 0, p);
    forall e | e in runs ensures !Covers(e, p) {
      RunsBeforeTail(base, l, indices, 0, e);
    }
    NotCovered(runs, p);
    PlacementAt(base, l, pl, at, p);
    EmptyPlus(TextAt(placed, p));
  }

  /** The own texts of a list's elements. */
  lemma {:induction false} BodiesAt(cells: seq<Cell>, i: nat)
    ensures |Bodies(cells)| == |cells|
    ensures i < |cells| ==> Bodies(cells)[i] == cells[i].body
  {
    if cells != [] {
      BodiesAt(cells[1..], if i > 0 then i - 1 else 0);
    }
  }

  /** An element that stays keeps its text. */
  lemma {:induction false} BodyKept(src: string, base: nat, l: List, indices: seq<nat>, pl: Placement, at: nat, i: nat)
    requires Stands(src, base, l) && IndicesOf(l, indices)
    requires at < |l.cells| && i < |l.cells| && i !in IndexSet(indices, 0)
    ensures BodyOut(src, base, l, ListEdits(base, l, indices, pl, at), i, l.cells[i].body)
  {
    hide Holds, ListEdits, IndexSet, Render;
    var es, lo, s := ListEdits(base, l, indices, pl, at), BodyStart(base, l.cells, i), l.cells[i].body;
    PartsStand(src, base, l, i);
    if at != i {
      Elsewhere(base, l, at, i);
    }
    forall p: nat | lo <= p < lo + |s| ensures Untouched(es, p) {
      ListEditsAt(base, l, indices, pl, at, i, p);
    }
    KeptStretch(src, es, lo, s);
  }

  lemma {:induction false} ListEditsSplice(src: string, base: nat, l: List, indices: seq<nat>, pl: Placement, at: nat)
    requires Stands(src, base, l) && IndicesOf(l, indices)
    requires l.cells != [] ==> at < |l.cells|
    requires l.cells == [] ==> pl.Nothing?
    ensures SpliceEdits(src, base, l, Bodies(l.cells), IndexSet(indices, 0), ListEdits(base, l, indices, pl, at), at, Placed(pl))
  {
    var es, q, kill := ListEdits(base, l, indices, pl, at), WriteAt(base, l, at), IndexSet(indices, 0);
    BodiesAt(l.cells, 0);
    forall i: nat | i < |l.cells| ensures CellDoes(base, l, kill, es, i, q, Placed(pl)) {
      forall p: nat | InCell(base, l, i, p) ensures Does(es, p, q, Placed(pl), Taken(base, l, kill, i, p)) {
        ListEditsAt(base, l, indices, pl, at, i, p);
      }
    }
    forall i: nat | i < |l.cells| && i !in kill ensures BodyOut(src, base, l, es, i, Bodies(l.cells)[i]) {
      BodyKept(src, base, l, indices, pl, at, i);
      BodiesAt(l.cells, i);
    }
    forall p: nat | ListEnd(base, l) - |l.tail| <= p <= ListEnd(base, l) ensures Does(es, p, q, Placed(pl), false) {
      ListEditsAtTail(base, l, indices, pl, at, p);
    }
  }

  /** The text of a list after its planned edits is again a list, with the elements left and the new one. */
  lemma {:induction false} ListEditsOut(src: string, base: nat, l: List, indices: seq<nat>, pl: Placement, at: nat)
    requires Stands(src, base, l) && IndicesOf(l, indices)
    requires l.cells != [] ==> at < |l.cells|
    requires l.cells == [] ==> pl.Nothing?
    requires Fits(l, IndexSet(indices, 0), pl, at)
    ensures |Bodies(l.cells)| == |l.cells|
    ensures base <= ListEnd(base, l) + 1 <= |src|
    ensures Out(src, ListEdits(base, l, indices, pl, at), base, ListEnd(base, l) + 1)
         == Render(SpliceList(l, Bodies(l.cells), IndexSet(indices, 0), pl)) + [src[ListEnd(base, l)]]
  {
    hide Out, SpliceEdits, Render, ListEdits, SpliceList;
    BodiesAt(l.cells, 0);
    ListEditsSplice(src, base, l, indices, pl, at);
    SplicedListOut(src, base, l, Bodies(l.cells), IndexSet(indices, 0), pl, ListEdits(base, l, indices, pl, at), at);
  }

  lemma {:induction false} ListEditsWithin(base: nat, l: List, indices: seq<nat>, pl: Placement, at: nat)
    requires WfList(l) && IndicesOf(l, indices)
    requires !pl.Nothing? ==> at < |l.cells|
    ensures Within(ListEdits(base, l, indices, pl, at), base, ListEnd(base, l) + 1)
  {
    forall e | e in ListEdits(base, l, indices, pl, at)
      ensures base <= e.start < ListEnd(base, l) + 1 && e.start <= e.end <= ListEnd(base, l) + 1
    {
      if e in RunsOf(base, l, indices, 0) {
        RunsShape(base, l, indices, 0, IndexSet(indices, 0), e);
      } else {
        EndsInList(base, l, at);
        StartsAfterBase(base, l.cells, at);
      }
    }
  }

  // ---- overlaps --------------------------------------------------------------------------

  /** The insertion falls inside a deletion exactly when its element goes together with a comma. */
  lemma {:induction false} InsertionInRun(base: nat, l: List, first: nat, last: nat, at: nat, text: string)
    requires WfList(l) && first <= last < |l.cells| && at < |l.cells|
    ensures Compatible(RunOf(base, l, first, last), Edit(BodyEnd(base, l.cells, at), BodyEnd(base, l.cells, at), text))
       <==> !(first <= at <= last && (at < last || HasComma(l, last)))
  {
    var cells := l.cells;
    assert WfCell(cells[at]) && WfCell(cells[first]) && WfCell(cells[last]);
    if at < first {
      CellsOrdered(base, cells, at, first);
      if at < first - 1 {
        CellsOrdered(base, cells, at, first - 1);
      }
    } else if at > last {
      CellsOrdered(base, cells, last, at);
    } else {
      if first < at {
        CellsOrdered(base, cells, first, at);
      }
      if at < last {
        CellsOrdered(base, cells, at, last);
      }
      if first > 0 {
        CellsOrdered(base, cells, first - 1, first);
      }
    }
  }

  lemma {:induction false} InsertionInRuns(base: nat, l: List, indices: seq<nat>, k: nat, at: nat, text: string)
    requires WfList(l) && IndicesOf(l, indices) && k <= |indices| && at < |l.cells|
    ensures AllCompatible(RunsOf(base, l, indices, k), [Edit(BodyEnd(base, l.cells, at), BodyEnd(base, l.cells, at), text)])
       <==> !(at in IndexSet(indices, k) && HasComma(l, at))
    decreases |indices| - k
  {
    var ins := Edit(BodyEnd(base, l.cells, at), BodyEnd(base, l.cells, at), text);
    if k == |indices| {
      assert IndexSet(indices, k) == {};
    } else {
      hide AllCompatible, Compatible, RunOf, BodyEnd;
      var j := RunEnd(indices, k);
      SplitRun(l, indices, k);
      var e, rest := RunOf(base, l, indices[k], indices[j]), RunsOf(base, l, indices, j + 1);
      InsertionInRun(base, l, indices[k], indices[j], at, text);
      InsertionInRuns(base, l, indices, j + 1, at, text);
      CompatibleWithAll(e, rest, ins);
    }
  }

  lemma {:induction false} CompatibleWithAll(e: Edit, rest: seq<Edit>, x: Edit)
    ensures AllCompatible([e] + rest, [x]) <==> Compatible(e, x) && AllCompatible(rest, [x])
  {
    assert e in [e] + rest && x in [x] && forall y :: y in rest ==> y in [e] + rest;
  }

  /**
   The edits of a list overlap in one case only: the element that the new one is to follow is
   deleted together with the comma after it.
   */
  lemma {:induction false} ListEditsApart(base: nat, l: List, indices: seq<nat>, pl: Placement, at: nat)
    requires WfList(l) && IndicesOf(l, indices)
    requires !pl.Nothing? ==> at < |l.cells|
    ensures Apart(ListEdits(base, l, indices, pl, at)) <==> pl.Nothing? || !(at in IndexSet(indices, 0) && HasComma(l, at))
  {
    var runs := RunsOf(base, l, indices, 0);
    RunsApart(base, l, indices, 0);
    if pl.Nothing? {
      assert runs + [] == runs;
    } else {
      ApartConcat(runs, PlacementEdits(base, l, pl, at));
      InsertionInRuns(base, l, indices, 0, at, Placed(pl));
    }
  }

  lemma {:induction false} RunsSilent(base: nat, l: List, indices: seq<nat>, k: nat)
    requires WfList(l) && IndicesOf(l, indices) && k <= |indices|
    ensures Silent(RunsOf(base, l, indices, k))
  {
    forall e | e in RunsOf(base, l, indices, k) ensures e.text == "" {
      RunsShape(base, l, indices, k, IndexSet(indices, k), e);
    }
  }
}
