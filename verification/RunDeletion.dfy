/**
 Run-based deletion of list elements (`delete_runs`).

 The indices to delete are grouped into runs of consecutive ones.  A run takes the comma after
 its last element with it; when there is none, the comma before its first element; when there
 is neither, just the run itself.  The module computes the edits from the bytes, as the program
 does, and proves which character of a well-formed list each of them takes.
 */
module RunDeletion {
  import opened Splicing
  import opened JsonLayout

  datatype Range = Range(start: nat, end: nat)

  /** The first position from `p` on that does not hold white space. */
  function SkipRight(src: string, p: nat): (q: nat)
    requires p <= |src|
    ensures p <= q <= |src|
    decreases |src| - p
  {
    if p < |src| && Ws(src[p]) then SkipRight(src, p + 1) else p
  }

  /** The start of the white space that ends at `p`. */
  function SkipLeft(src: string, p: nat): (q: nat)
    requires p <= |src|
    ensures q <= p
  {
    if p > 0 && Ws(src[p - 1]) then SkipLeft(src, p - 1) else p
  }

  /** The index in `indices` at which the run that starts at `i` ends. */
  function RunEnd(indices: seq<nat>, i: nat): (j: nat)
    requires i < |indices|
    ensures i <= j < |indices|
    decreases |indices| - i
  {
    if i + 1 < |indices| && indices[i + 1] == indices[i] + 1 then RunEnd(indices, i + 1) else i
  }

  lemma {:induction false} RunIsMaximal(indices: seq<nat>, i: nat)
    requires i < |indices|
    ensures var j := RunEnd(indices, i);
      && (forall k :: i <= k <= j ==> indices[k] == indices[i] + (k - i))
      && (j + 1 < |indices| ==> indices[j + 1] != indices[j] + 1)
    decreases |indices| - i
  {
    if i + 1 < |indices| && indices[i + 1] == indices[i] + 1 {
      RunIsMaximal(indices, i + 1);
    }
  }

  predicate InSource(elements: seq<Range>, src: string) {
    forall i :: 0 <= i < |elements| ==> elements[i].start <= elements[i].end <= |src|
  }

  /** The deletion of the elements `first ..= last`, read off the bytes around them. */
  function RunEdit(elements: seq<Range>, first: nat, last: nat, src: string): Edit
    requires first < |elements| && last < |elements| && InSource(elements, src)
  {
    var from, to := elements[first].start, elements[last].end;
    var end := SkipRight(src, to);
    if end < |src| && src[end] == ',' then Edit(from, end + 1, "")
    else
      var start := SkipLeft(src, from);
      if start > 0 && src[start - 1] == ',' then Edit(start - 1, to, "") else Edit(from, to, "")
  }

  /** The edits for the runs of `indices[i..]`. */
  function RunEdits(elements: seq<Range>, indices: seq<nat>, i: nat, src: string): seq<Edit>
    requires i <= |indices| && InSource(elements, src)
    requires forall k :: 0 <= k < |indices| ==> indices[k] < |elements|
    decreases |indices| - i
  {
    if i == |indices| then []
    else
      var j := RunEnd(indices, i);
      [RunEdit(elements, indices[i], indices[j], src)] + RunEdits(elements, indices, j + 1, src)
  }

  method DeleteRun(elements: seq<Range>, first: nat, last: nat, source: string) returns (edit: Edit)
    requires first < |elements| && last < |elements| && InSource(elements, source)
    ensures edit == RunEdit(elements, first, last, source)
  {
    var firstStart, lastEnd := elements[first].start, elements[last].end;
    var end := lastEnd;
    while end < |source| && Ws(source[end])
      invariant lastEnd <= end <= |source|
      invariant SkipRight(source, end) == SkipRight(source, lastEnd)
    {
      end := end + 1;
    }
    if end < |source| && source[end] == ',' {
      return Edit(firstStart, end + 1, "");
    }
    var start := firstStart;
    while start > 0 && Ws(source[start - 1])
      invariant start <= firstStart
      invariant SkipLeft(source, start) == SkipLeft(source, firstStart)
    {
      start := start - 1;
    }
    if start > 0 && source[start - 1] == ',' {
      return Edit(start - 1, lastEnd, "");
    }
    return Edit(firstStart, lastEnd, "");
  }

  method DeleteRuns(elements: seq<Range>, indices: seq<nat>, source: string) returns (edits: seq<Edit>)
    requires InSource(elements, source)
    requires forall k :: 0 <= k < |indices| ==> indices[k] < |elements|
    ensures edits == RunEdits(elements, indices, 0, source)
  {
    hide RunEdit;
    edits := [];
    var i := 0;
    while i < |indices|
      invariant 0 <= i <= |indices|
      invariant edits + RunEdits(elements, indices, i, source) == RunEdits(elements, indices, 0, source)
    {
      var j := i;
      while j + 1 < |indices| && indices[j + 1] == indices[j] + 1
        invariant i <= j < |indices|
        invariant RunEnd(indices, j) == RunEnd(indices, i)
      {
        j := j + 1;
      }
      var edit := DeleteRun(elements, indices[i], indices[j], source);
      ghost var rest := RunEdits(elements, indices, j + 1, source);
      assert edits + ([edit] + rest) == (edits + [edit]) + rest;
      edits := edits + [edit];
      i := j + 1;
    }
  }

  // ---- the edits of a well-formed list ----------------------------------------

  /** The ranges the parser reports for the elements of a list. */
  function Ranges(base: nat, cells: seq<Cell>): (r: seq<Range>)
    ensures |r| == |cells|
  {
    seq(|cells|, i requires 0 <= i < |cells| => Range(BodyStart(base, cells, i), BodyEnd(base, cells, i)))
  }

  lemma {:induction false} SkipRightOver(src: string, p: nat, s: string)
    requires Holds(src, p, s) && AllWs(s)
    requires p + |s| < |src| && !Ws(src[p + |s|])
    ensures SkipRight(src, p) == p + |s|
    decreases |s|
  {
    if s != "" {
      assert src[p + 0] == s[0];
      forall k | 0 <= k < |s[1..]| ensures src[p + 1 + k] == s[1..][k] {
        assert src[p + (k + 1)] == s[k + 1];
      }
      SkipRightOver(src, p + 1, s[1..]);
    }
  }

  lemma {:induction false} SkipLeftOver(src: string, p: nat, s: string)
    requires |s| <= p && Holds(src, p - |s|, s) && AllWs(s)
    requires p - |s| > 0 && !Ws(src[p - |s| - 1])
    ensures SkipLeft(src, p) == p - |s|
    decreases |s|
  {
    if s != "" {
      assert src[p - |s| + (|s| - 1)] == s[|s| - 1];
      SkipLeftOver(src, p - 1, s[..|s| - 1]);
    }
  }

  /** The run deletion in terms of the list: which comma goes with the run. */
  function RunOf(base: nat, l: List, first: nat, last: nat): Edit
    requires first <= last < |l.cells|
  {
    if HasComma(l, last) then Edit(BodyStart(base, l.cells, first), CellEnd(base, l.cells, last) + 1, "")
    else if first > 0 then Edit(CellEnd(base, l.cells, first - 1), BodyEnd(base, l.cells, last), "")
    else Edit(BodyStart(base, l.cells, first), BodyEnd(base, l.cells, last), "")
  }

  lemma {:induction false} RangesInSource(src: string, base: nat, l: List)
    requires Stands(src, base, l)
    ensures InSource(Ranges(base, l.cells), src)
  {
    forall i | 0 <= i < |l.cells|
      ensures Ranges(base, l.cells)[i].start <= Ranges(base, l.cells)[i].end <= |src|
    {
      PartsStand(src, base, l, i);
    }
  }

  lemma {:induction false} ScanRightFromBody(src: string, base: nat, l: List, i: nat)
    requires Stands(src, base, l) && i < |l.cells|
    ensures BodyEnd(base, l.cells, i) <= CellEnd(base, l.cells, i) < |src|
    ensures SkipRight(src, BodyEnd(base, l.cells, i)) == CellEnd(base, l.cells, i)
    ensures src[CellEnd(base, l.cells, i)] == ',' <==> HasComma(l, i)
  {
    PartsStand(src, base, l, i);
    var end := CellEnd(base, l.cells, i);
    if HasComma(l, i) {
      assert src[end + 0] == ","[0];
    }
    assert WfCell(l.cells[i]);
    SkipRightOver(src, BodyEnd(base, l.cells, i), l.cells[i].post);
  }

  lemma {:induction false} ScanLeftFromBody(src: string, base: nat, l: List, i: nat)
    requires Stands(src, base, l) && i < |l.cells|
    ensures 0 < CellStart(base, l.cells, i) <= BodyStart(base, l.cells, i) <= |src|
    ensures SkipLeft(src, BodyStart(base, l.cells, i)) == CellStart(base, l.cells, i)
    ensures src[CellStart(base, l.cells, i) - 1] == ',' <==> i > 0
  {
    hide SkipLeft, Render, WfBody;
    PartsStand(src, base, l, i);
    var start := CellStart(base, l.cells, i);
    if i > 0 {
      PartsStand(src, base, l, i - 1);
      assert src[CellEnd(base, l.cells, i - 1) + 0] == ","[0];
    }
    assert WfCell(l.cells[i]);
    SkipLeftOver(src, BodyStart(base, l.cells, i), l.cells[i].pre);
  }

  /** The byte scans of `delete_runs` find exactly the comma the grammar puts there. */
  lemma {:induction false} RunEditFindsComma(src: string, base: nat, l: List, first: nat, last: nat)
    requires Stands(src, base, l) && first <= last < |l.cells|
    requires InSource(Ranges(base, l.cells), src)
    ensures RunEdit(Ranges(base, l.cells), first, last, src) == RunOf(base, l, first, last)
  {
    ScanRightFromBody(src, base, l, last);
    ScanLeftFromBody(src, base, l, first);
  }

  // ---- which characters go ------------------------------------------------------

  predicate AllFrom(kill: set<nat>, i: nat, n: nat) {
    forall j :: i <= j < n ==> j in kill
  }

  /**
   Whether the deletion of the elements `kill` takes the character at `p`, which stands in cell
   `i` or is its comma:
   - white space before an element goes when the element before it goes too, or when the run
     reaches the end of a list without trailing comma;
   - white space after an element goes with the element, unless no comma follows it;
   - a comma goes with the element before it, or with the run up to the end of the list.
   */
  predicate Taken(base: nat, l: List, kill: set<nat>, i: nat, p: nat)
    requires i < |l.cells|
  {
    var n := |l.cells|;
    if p < BodyStart(base, l.cells, i) then
      i in kill && i > 0 && (i - 1 in kill || (!l.trailing && AllFrom(kill, i, n)))
    else if p < BodyEnd(base, l.cells, i) then i in kill
    else if p < CellEnd(base, l.cells, i) then i in kill && HasComma(l, i)
    else i in kill || (!l.trailing && AllFrom(kill, i + 1, n))
  }

  /** `p` stands in cell `i` or is the comma after it. */
  predicate InCell(base: nat, l: List, i: nat, p: nat)
    requires i < |l.cells|
  {
    CellStart(base, l.cells, i) <= p < CellEnd(base, l.cells, i) + if HasComma(l, i) then 1 else 0
  }

  /** One run `first ..= last` in front of the deletions `later`. */
  ghost predicate RunBefore(l: List, first: nat, last: nat, later: set<nat>, kill: set<nat>) {
    && WfList(l) && first <= last < |l.cells|
    && (forall x :: x in later ==> last + 1 < x < |l.cells|)
    && (forall x :: x in kill <==> first <= x <= last || x in later)
  }

  /** What a run's edit and the later deletions take is what the union of both takes. */
  lemma {:induction false} RunTakes(base: nat, l: List, first: nat, last: nat, later: set<nat>, kill: set<nat>, i: nat, p: nat)
    requires RunBefore(l, first, last, later, kill)
    requires i < |l.cells| && InCell(base, l, i, p)
    ensures Taken(base, l, kill, i, p) <==> Covers(RunOf(base, l, first, last), p) || Taken(base, l, later, i, p)
  {
    if i < first {
      RunTakesNothingBefore(base, l, first, last, later, kill, i, p);
    } else if i <= last {
      RunTakesItself(base, l, first, last, later, kill, i, p);
    } else {
      RunTakesNothingAfter(base, l, first, last, later, kill, i, p);
    }
  }

  lemma {:induction false} RunTakesNothingBefore(base: nat, l: List, first: nat, last: nat, later: set<nat>, kill: set<nat>, i: nat, p: nat)
    requires RunBefore(l, first, last, later, kill)
    requires i < first && InCell(base, l, i, p)
    ensures Taken(base, l, kill, i, p) <==> Covers(RunOf(base, l, first, last), p)
    ensures !Taken(base, l, later, i, p)
  {
    var cells, n := l.cells, |l.cells|;
    CellsOrdered(base, cells, i, first);
    CellsOrdered(base, cells, first - 1, first);
    if i + 1 < first {
      CellsOrdered(base, cells, i, first - 1);
    }
    assert i !in kill && i !in later && i + 1 !in later;
    if i + 1 < first {
      assert i + 1 !in kill;
      assert !AllFrom(kill, i + 1, n);
    } else if last + 1 < n {
      assert last + 1 !in kill;
      assert !AllFrom(kill, i + 1, n);
    } else {
      assert AllFrom(kill, i + 1, n);
      if first < last {
        CellsOrdered(base, cells, first, last);
      }
    }
  }

  lemma {:induction false} RunTakesItself(base: nat, l: List, first: nat, last: nat, later: set<nat>, kill: set<nat>, i: nat, p: nat)
    requires RunBefore(l, first, last, later, kill)
    requires first <= i <= last && InCell(base, l, i, p)
    ensures Taken(base, l, kill, i, p) <==> Covers(RunOf(base, l, first, last), p)
    ensures !Taken(base, l, later, i, p)
  {
    var cells, n := l.cells, |l.cells|;
    if first > 0 {
      CellsOrdered(base, cells, first - 1, first);
    }
    if first < i {
      CellsOrdered(base, cells, first, i);
    }
    if i < last {
      CellsOrdered(base, cells, i, last);
    }
    assert i in kill && i !in later && i + 1 !in later;
    assert last + 1 < n ==> last + 1 !in kill;
    if last + 1 == n {
      assert later == {};
      assert AllFrom(kill, i, n) && AllFrom(kill, i + 1, n);
    } else {
      assert !AllFrom(kill, i, n);
    }
  }

  lemma {:induction false} RunTakesNothingAfter(base: nat, l: List, first: nat, last: nat, later: set<nat>, kill: set<nat>, i: nat, p: nat)
    requires RunBefore(l, first, last, later, kill)
    requires last < i < |l.cells| && InCell(base, l, i, p)
    ensures Taken(base, l, kill, i, p) <==> Taken(base, l, later, i, p)
    ensures !Covers(RunOf(base, l, first, last), p)
  {
    var cells, n := l.cells, |l.cells|;
    CellsOrdered(base, cells, last, i);
    assert i - 1 in kill <==> i - 1 in later || i - 1 == last;
    assert i == last + 1 ==> i !in kill;
    assert AllFrom(kill, i, n) <==> AllFrom(later, i, n);
    assert AllFrom(kill, i + 1, n) <==> AllFrom(later, i + 1, n);
  }

  /** Strictly increasing indices of elements of `l`. */
  predicate IndicesOf(l: List, indices: seq<nat>) {
    && (forall i, j :: 0 <= i < j < |indices| ==> indices[i] < indices[j])
    && (forall i :: 0 <= i < |indices| ==> indices[i] < |l.cells|)
  }

  function IndexSet(indices: seq<nat>, k: nat): set<nat> {
    set m | k <= m < |indices| :: indices[m]
  }

  lemma {:induction false} SplitRun(l: List, indices: seq<nat>, k: nat)
    requires WfList(l) && k < |indices| && IndicesOf(l, indices)
    ensures indices[k] <= indices[RunEnd(indices, k)] < |l.cells|
    ensures var j := RunEnd(indices, k);
      RunBefore(l, indices[k], indices[j], IndexSet(indices, j + 1), IndexSet(indices, k))
  {
    RunIsMaximal(indices, k);
    var j := RunEnd(indices, k);
    var first, last := indices[k], indices[j];
    var later, kill := IndexSet(indices, j + 1), IndexSet(indices, k);
    forall x | x in later ensures last + 1 < x < |l.cells| {
      var m :| j + 1 <= m < |indices| && indices[m] == x;
      assert indices[j + 1] <= indices[m];
    }
    forall x: nat ensures x in kill <==> first <= x <= last || x in later {
      if first <= x <= last {
        assert indices[k + (x - first)] == x;
      }
      if x in kill {
        var m :| k <= m < |indices| && indices[m] == x;
        if m <= j {
          assert first <= x <= last;
        }
      }
    }
  }

  /** The run deletions for `indices[k..]`, in terms of the list. */
  function RunsOf(base: nat, l: List, indices: seq<nat>, k: nat): seq<Edit>
    requires WfList(l) && IndicesOf(l, indices) && k <= |indices|
    decreases |indices| - k
  {
    if k == |indices| then []
    else
      var j := RunEnd(indices, k);
      assert indices[k] <= indices[j];
      [RunOf(base, l, indices[k], indices[j])] + RunsOf(base, l, indices, j + 1)
  }

  /** What the program computes from the bytes is what the grammar asks for. */
  lemma {:induction false} RunEditsAreRunsOf(src: string, base: nat, l: List, indices: seq<nat>, k: nat)
    requires Stands(src, base, l) && IndicesOf(l, indices) && k <= |indices|
    requires InSource(Ranges(base, l.cells), src)
    ensures RunEdits(Ranges(base, l.cells), indices, k, src) == RunsOf(base, l, indices, k)
    decreases |indices| - k
  {
    hide RunEdit, RunOf, Stands, WfList, InSource;
    if k < |indices| {
      var j := RunEnd(indices, k);
      assert indices[k] <= indices[j];
      RunEditFindsComma(src, base, l, indices[k], indices[j]);
      RunEditsAreRunsOf(src, base, l, indices, j + 1);
    }
  }

  /** The edits for a set of indices take exactly the characters `Taken` names. */
  lemma {:induction false} RunsTake(base: nat, l: List, indices: seq<nat>, k: nat, i: nat, p: nat)
    requires WfList(l) && IndicesOf(l, indices) && k <= |indices|
    requires i < |l.cells| && InCell(base, l, i, p)
    ensures Covered(RunsOf(base, l, indices, k), p) <==> Taken(base, l, IndexSet(indices, k), i, p)
    decreases |indices| - k
  {
    if k == |indices| {
      assert IndexSet(indices, k) == {};
      if HasComma(l, i) && !l.trailing {
        assert i + 1 !in IndexSet(indices, k);
      }
    } else {
      var j := RunEnd(indices, k);
      SplitRun(l, indices, k);
      RunsTake(base, l, indices, j + 1, i, p);
      RunTakes(base, l, indices[k], indices[j], IndexSet(indices, j + 1), IndexSet(indices, k), i, p);
      ConsAt(RunOf(base, l, indices[k], indices[j]), RunsOf(base, l, indices, j + 1), p);
    }
  }

  lemma {:induction false} RunsWriteNothing(base: nat, l: List, indices: seq<nat>, k: nat, p: nat)
    requires WfList(l) && IndicesOf(l, indices) && k <= |indices|
    ensures TextAt(RunsOf(base, l, indices, k), p) == ""
    decreases |indices| - k
  {
    if k < |indices| {
      var j := RunEnd(indices, k);
      assert indices[k] <= indices[j];
      RunsWriteNothing(base, l, indices, j + 1, p);
      ConsAt(RunOf(base, l, indices[k], indices[j]), RunsOf(base, l, indices, j + 1), p);
    }
  }

  // ---- the shape of the edits ----------------------------------------------------

  /** `e` deletes something inside the content that starts at `base`, and no kept element. */
  ghost predicate DeletionIn(base: nat, l: List, kill: set<nat>, e: Edit) {
    && e.text == ""
    && base <= e.start < e.end <= ListEnd(base, l)
    && forall i :: 0 <= i < |l.cells| && i !in kill ==>
         e.end <= BodyStart(base, l.cells, i) || BodyEnd(base, l.cells, i) <= e.start
  }

  lemma {:induction false} RunShape(base: nat, l: List, first: nat, last: nat, later: set<nat>, kill: set<nat>)
    requires RunBefore(l, first, last, later, kill)
    ensures DeletionIn(base, l, kill, RunOf(base, l, first, last))
  {
    var e, cells := RunOf(base, l, first, last), l.cells;
    EndsInList(base, l, last);
    StartsAfterBase(base, cells, first);
    if first < last {
      CellsOrdered(base, cells, first, last);
    }
    assert WfCell(cells[last]) && WfCell(cells[first]);
    if first > 0 {
      CellsOrdered(base, cells, first - 1, first);
      StartsAfterBase(base, cells, first - 1);
    }
    forall i | 0 <= i < |cells| && i !in kill
      ensures e.end <= BodyStart(base, cells, i) || BodyEnd(base, cells, i) <= e.start
    {
      if i < first {
        CellsOrdered(base, cells, i, first);
        if i < first - 1 {
          CellsOrdered(base, cells, i, first - 1);
        }
      } else {
        assert last < i;
        CellsOrdered(base, cells, last, i);
      }
    }
  }

  lemma {:induction false} StartsAfterBase(base: nat, cells: seq<Cell>, i: nat)
    requires i <= |cells|
    ensures base <= CellStart(base, cells, i)
  {
    if i > 0 {
      StartsAfterBase(base, cells, i - 1);
    }
  }

  lemma {:induction false} RunStart(base: nat, l: List, first: nat, last: nat)
    requires first <= last < |l.cells|
    ensures first > 0 ==> CellEnd(base, l.cells, first - 1) <= RunOf(base, l, first, last).start
  {
    if first > 0 {
      CellsOrdered(base, l.cells, first - 1, first);
    }
  }

  /** No deletion reaches back into the element before its first run. */
  lemma {:induction false} RunsStart(base: nat, l: List, indices: seq<nat>, k: nat, e: Edit)
    requires WfList(l) && IndicesOf(l, indices) && k <= |indices|
    requires e in RunsOf(base, l, indices, k)
    ensures k < |indices|
    ensures indices[k] > 0 ==> CellEnd(base, l.cells, indices[k] - 1) <= e.start
    decreases |indices| - k
  {
    hide WfList, RunOf;
    var j := RunEnd(indices, k);
    var first := indices[k];
    assert first <= indices[j];
    RunStart(base, l, first, indices[j]);
    if e != RunOf(base, l, first, indices[j]) {
      RunsStart(base, l, indices, j + 1, e);
      if first > 0 {
        CellsOrdered(base, l.cells, first - 1, indices[j + 1] - 1);
      }
    }
  }

  lemma {:induction false} FirstRunShape(base: nat, l: List, indices: seq<nat>, k: nat)
    requires WfList(l) && IndicesOf(l, indices) && k < |indices|
    ensures indices[k] <= indices[RunEnd(indices, k)]
    ensures DeletionIn(base, l, IndexSet(indices, k), RunOf(base, l, indices[k], indices[RunEnd(indices, k)]))
    ensures IndexSet(indices, RunEnd(indices, k) + 1) <= IndexSet(indices, k)
  {
    var j := RunEnd(indices, k);
    SplitRun(l, indices, k);
    RunShape(base, l, indices[k], indices[j], IndexSet(indices, j + 1), IndexSet(indices, k));
  }

  lemma {:induction false} RunsShape(base: nat, l: List, indices: seq<nat>, k: nat, kill: set<nat>, e: Edit)
    requires WfList(l) && IndicesOf(l, indices) && k <= |indices|
    requires IndexSet(indices, k) <= kill
    requires e in RunsOf(base, l, indices, k)
    ensures DeletionIn(base, l, kill, e)
    decreases |indices| - k
  {
    hide DeletionIn, WfList, IndicesOf;
    RunsStart(base, l, indices, k, e);
    FirstRunShape(base, l, indices, k);
    SplitRun(l, indices, k);
    var j := RunEnd(indices, k);
    if e == RunOf(base, l, indices[k], indices[j]) {
      SmallerKill(base, l, IndexSet(indices, k), kill, e);
    } else {
      RunsShape(base, l, indices, j + 1, kill, e);
    }
  }

  lemma {:induction false} SmallerKill(base: nat, l: List, fewer: set<nat>, kill: set<nat>, e: Edit)
    requires DeletionIn(base, l, fewer, e) && fewer <= kill
    ensures DeletionIn(base, l, kill, e)
  {
  }

  lemma {:induction false} RunBeforeOthers(base: nat, l: List, indices: seq<nat>, k: nat, e: Edit)
    requires WfList(l) && IndicesOf(l, indices) && k < |indices|
    requires e in RunsOf(base, l, indices, RunEnd(indices, k) + 1)
    ensures indices[k] <= indices[RunEnd(indices, k)]
    ensures RunOf(base, l, indices[k], indices[RunEnd(indices, k)]).end <= e.start
  {
    var j := RunEnd(indices, k);
    RunsStart(base, l, indices, j + 1, e);
    RunIsMaximal(indices, k);
    var last, next := indices[j], indices[j + 1];
    assert last + 1 < next;
    CellsOrdered(base, l.cells, last, next - 1);
  }

  /** The runs are separated by a kept element, so their deletions never touch. */
  lemma {:induction false} RunsApart(base: nat, l: List, indices: seq<nat>, k: nat)
    requires WfList(l) && IndicesOf(l, indices) && k <= |indices|
    ensures Apart(RunsOf(base, l, indices, k))
    decreases |indices| - k
  {
    hide WfList, IndicesOf, RunOf, Apart;
    if k < |indices| {
      var j := RunEnd(indices, k);
      SplitRun(l, indices, k);
      var e, rest := RunOf(base, l, indices[k], indices[j]), RunsOf(base, l, indices, j + 1);
      RunsApart(base, l, indices, j + 1);
      forall x | x in rest ensures Compatible(e, x) {
        RunBeforeOthers(base, l, indices, k, x);
      }
      ApartHead(e, rest);
    } else {
      NothingApart();
    }
  }
}
