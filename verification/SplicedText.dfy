/**
 The text of a spliced list: piece by piece, what an edit list that deletes, rewrites and places
 elements makes of the characters of a list is the rendering of the spliced list.
 */
module SplicedText {
  import opened Splicing
  import opened JsonLayout
  import opened RunDeletion
  import opened ListSplice

  // ---- one cell ---------------------------------------------------------------------

  /** A stretch of cell `i` outside its rewritten body, where nothing is written. */
  predicate QuietStretch(base: nat, l: List, kill: set<nat>, i: nat, q: nat, text: string, lo: nat, hi: nat)
    requires i < |l.cells|
  {
    && CellStart(base, l.cells, i) <= lo <= hi <= CellEnd(base, l.cells, i) + (if HasComma(l, i) then 1 else 0)
    && (i in kill || hi <= BodyStart(base, l.cells, i) || BodyEnd(base, l.cells, i) <= lo)
    && (text == "" || q < lo || hi <= q)
  }

  lemma {:induction false} PieceKept(src: string, base: nat, l: List, kill: set<nat>, es: seq<Edit>, q: nat, text: string, i: nat, lo: nat, s: string)
    requires i < |l.cells| && CellDoes(base, l, kill, es, i, q, text)
    requires Holds(src, lo, s) && QuietStretch(base, l, kill, i, q, text, lo, lo + |s|)
    requires forall p: nat :: lo <= p < lo + |s| ==> !Taken(base, l, kill, i, p)
    ensures Out(src, es, lo, lo + |s|) == s
  {
    forall p: nat | lo <= p < lo + |s| ensures Untouched(es, p) {
      assert InCell(base, l, i, p);
    }
    KeptStretch(src, es, lo, s);
  }

  lemma {:induction false} PieceGone(src: string, base: nat, l: List, kill: set<nat>, es: seq<Edit>, q: nat, text: string, i: nat, lo: nat, hi: nat)
    requires i < |l.cells| && CellDoes(base, l, kill, es, i, q, text)
    requires QuietStretch(base, l, kill, i, q, text, lo, hi) && hi <= |src|
    requires forall p: nat :: lo <= p < hi ==> Taken(base, l, kill, i, p)
    ensures Out(src, es, lo, hi) == ""
  {
    forall p: nat | lo <= p < hi ensures Erased(es, p) {
      assert InCell(base, l, i, p);
    }
    OutGone(src, es, lo, hi);
  }

  /** An element that stays, up to the end of its body. */
  lemma {:induction false} FrontOut(src: string, base: nat, l: List, kill: set<nat>, es: seq<Edit>, q: nat, text: string, i: nat, body: string)
    requires i < |l.cells| && i !in kill && CellStands(src, base, l, i)
    requires CellDoes(base, l, kill, es, i, q, text) && BodyOut(src, base, l, es, i, body)
    requires text == "" || q < CellStart(base, l.cells, i) || BodyStart(base, l.cells, i) <= q
    ensures Out(src, es, CellStart(base, l.cells, i), BodyEnd(base, l.cells, i)) == l.cells[i].pre + body
  {
    PieceKept(src, base, l, kill, es, q, text, i, CellStart(base, l.cells, i), l.cells[i].pre);
    OutSplit(src, es, CellStart(base, l.cells, i), BodyStart(base, l.cells, i), BodyEnd(base, l.cells, i));
  }

  /** The white space and the comma after an element that stays and keeps its comma. */
  lemma {:induction false} BackOut(src: string, base: nat, l: List, kill: set<nat>, es: seq<Edit>, q: nat, text: string, i: nat)
    requires i < |l.cells| && i !in kill && CellStands(src, base, l, i) && HasComma(l, i)
    requires CellDoes(base, l, kill, es, i, q, text)
    requires l.trailing || !AllFrom(kill, i + 1, |l.cells|)
    requires text == "" || q <= BodyEnd(base, l.cells, i) || CellEnd(base, l.cells, i) < q
    ensures Out(src, es, BodyEnd(base, l.cells, i), CellEnd(base, l.cells, i) + 1)
         == (if q == BodyEnd(base, l.cells, i) then text else "") + (l.cells[i].post + ",")
  {
    var lo, s := BodyEnd(base, l.cells, i), l.cells[i].post + ",";
    HoldsConcat(src, lo, l.cells[i].post, ",");
    forall p: nat | lo <= p < lo + |s| ensures Does(es, p, q, text, false) {
      assert InCell(base, l, i, p);
    }
    StretchOut(src, es, lo, s, q, text);
  }

  /** An element that goes and is not in the run up to the end: its white space may stay. */
  lemma {:induction false} GoneCellOut(src: string, base: nat, l: List, kill: set<nat>, es: seq<Edit>, q: nat, text: string, i: nat)
    requires i < |l.cells| && i in kill && CellStands(src, base, l, i) && HasComma(l, i)
    requires CellDoes(base, l, kill, es, i, q, text)
    requires l.trailing || !AllFrom(kill, i, |l.cells|)
    requires text == "" || q < CellStart(base, l.cells, i) || CellEnd(base, l.cells, i) < q
    ensures Out(src, es, CellStart(base, l.cells, i), CellEnd(base, l.cells, i) + 1)
         == if i > 0 && i - 1 in kill then "" else l.cells[i].pre
  {
    hide Out;
    var start, mid, end := CellStart(base, l.cells, i), BodyStart(base, l.cells, i), CellEnd(base, l.cells, i) + 1;
    PieceGone(src, base, l, kill, es, q, text, i, mid, end);
    if i > 0 && i - 1 in kill {
      PieceGone(src, base, l, kill, es, q, text, i, start, mid);
    } else {
      PieceKept(src, base, l, kill, es, q, text, i, start, l.cells[i].pre);
    }
    OutSplit(src, es, start, mid, end);
  }

  // ---- the end of the list -------------------------------------------------------------

  /** What follows the last element when no comma does: its white space and the closing bracket. */
  lemma {:induction false} LastBackStands(src: string, base: nat, l: List, i: nat)
    requires i + 1 == |l.cells| && !l.trailing && Stands(src, base, l)
    ensures CellEnd(base, l.cells, i) == ListEnd(base, l) < |src|
    ensures Holds(src, BodyEnd(base, l.cells, i), l.cells[i].post + [src[ListEnd(base, l)]])
  {
    PartsStand(src, base, l, i);
    HoldsConcat(src, BodyEnd(base, l.cells, i), l.cells[i].post, [src[ListEnd(base, l)]]);
  }

  /** What stands in front of the closing bracket after a trailing comma or in an empty list. */
  lemma {:induction false} TailStands(src: string, base: nat, l: List)
    requires Stands(src, base, l)
    ensures |l.tail| <= ListEnd(base, l) < |src|
    ensures Holds(src, ListEnd(base, l) - |l.tail|, l.tail + [src[ListEnd(base, l)]])
  {
    var end := ListEnd(base, l);
    HoldsConcat(src, base, RenderCells(l.cells, l.trailing), l.tail);
    HoldsConcat(src, end - |l.tail|, l.tail, [src[end]]);
  }

  lemma {:induction false} LastBackOut(src: string, base: nat, l: List, kill: set<nat>, es: seq<Edit>, q: nat, text: string, i: nat, end: nat)
    requires i + 1 == |l.cells| && !l.trailing && end == CellEnd(base, l.cells, i) < |src|
    requires Holds(src, BodyEnd(base, l.cells, i), l.cells[i].post + [src[end]])
    requires CellDoes(base, l, kill, es, i, q, text) && Does(es, end, q, text, false)
    requires text == "" || q <= BodyEnd(base, l.cells, i)
    ensures Out(src, es, BodyEnd(base, l.cells, i), end + 1)
         == (if q == BodyEnd(base, l.cells, i) then text else "") + (l.cells[i].post + [src[end]])
  {
    var lo := BodyEnd(base, l.cells, i);
    forall p: nat | lo <= p <= end ensures Does(es, p, q, text, false) {
      if p < end {
        assert InCell(base, l, i, p);
      }
    }
    StretchOut(src, es, lo, l.cells[i].post + [src[end]], q, text);
  }

  /** Every cell `k` from `i` on is one the edits treat as `Taken` says. */
  ghost predicate CellsDo(base: nat, l: List, kill: set<nat>, es: seq<Edit>, q: nat, text: string, i: nat) {
    forall k: nat :: i <= k < |l.cells| ==> CellDoes(base, l, kill, es, k, q, text)
  }

  /** A cell of a run up to the end of the list, not the run's first, and not the list's last. */
  lemma {:induction false} RunCellOut(src: string, base: nat, l: List, kill: set<nat>, es: seq<Edit>, q: nat, text: string, i: nat)
    requires 0 < i && i + 1 < |l.cells| && !l.trailing && AllFrom(kill, i, |l.cells|)
    requires CellDoes(base, l, kill, es, i, q, text) && CellStart(base, l.cells, i + 1) <= |src|
    requires text == "" || q < CellStart(base, l.cells, i) || CellStart(base, l.cells, i + 1) <= q
    ensures CellStart(base, l.cells, i) <= CellStart(base, l.cells, i + 1)
    ensures Out(src, es, CellStart(base, l.cells, i), CellStart(base, l.cells, i + 1)) == ""
  {
    PieceGone(src, base, l, kill, es, q, text, i, CellStart(base, l.cells, i), CellStart(base, l.cells, i + 1));
  }

  /** A run up to the end of the list, from the start of a cell that is not its first. */
  lemma {:induction false} RunRestOut(src: string, base: nat, l: List, kill: set<nat>, es: seq<Edit>, q: nat, text: string, i: nat, end: nat)
    requires 0 < i < |l.cells| && !l.trailing && AllFrom(kill, i, |l.cells|)
    requires end == BodyEnd(base, l.cells, |l.cells| - 1) <= |src|
    requires CellsDo(base, l, kill, es, q, text, i)
    requires text == "" || q < CellStart(base, l.cells, i) || end <= q
    ensures CellStart(base, l.cells, i) <= end
    ensures Out(src, es, CellStart(base, l.cells, i), end) == ""
    decreases |l.cells| - i
  {
    var n, start := |l.cells|, CellStart(base, l.cells, i);
    assert CellDoes(base, l, kill, es, i, q, text);
    if i + 1 == n {
      PieceGone(src, base, l, kill, es, q, text, i, start, end);
    } else {
      RunRestOut(src, base, l, kill, es, q, text, i + 1, end);
      RunCellOut(src, base, l, kill, es, q, text, i);
      OutSplit(src, es, start, CellStart(base, l.cells, i + 1), end);
    }
  }

  /** A run that covers the whole list: the white space before its first element stays. */
  lemma {:induction false} WholeRunOut(src: string, base: nat, l: List, kill: set<nat>, es: seq<Edit>, q: nat, end: nat)
    requires l.cells != [] && !l.trailing && AllFrom(kill, 0, |l.cells|) && CellStands(src, base, l, 0)
    requires CellsDo(base, l, kill, es, q, "", 0)
    requires end == BodyEnd(base, l.cells, |l.cells| - 1) <= |src|
    ensures base <= end
    ensures Out(src, es, base, end) == l.cells[0].pre
  {
    var n, mid := |l.cells|, BodyStart(base, l.cells, 0);
    assert CellDoes(base, l, kill, es, 0, q, "");
    PieceKept(src, base, l, kill, es, q, "", 0, base, l.cells[0].pre);
    if n == 1 {
      PieceGone(src, base, l, kill, es, q, "", 0, mid, end);
      OutSplit(src, es, base, mid, end);
    } else {
      var next := CellStart(base, l.cells, 1);
      RunRestOut(src, base, l, kill, es, q, "", 1, end);
      PieceGone(src, base, l, kill, es, q, "", 0, mid, next);
      OutSplit(src, es, base, mid, next);
      OutSplit(src, es, base, next, end);
    }
  }

  /** The white space after an element that stays, when a text may be written before it. */
  lemma {:induction false} PostOut(src: string, base: nat, l: List, kill: set<nat>, es: seq<Edit>, q: nat, text: string, i: nat)
    requires i < |l.cells| && i !in kill && CellStands(src, base, l, i) && l.cells[i].post != ""
    requires CellDoes(base, l, kill, es, i, q, text)
    requires text == "" || q <= BodyEnd(base, l.cells, i) || CellEnd(base, l.cells, i) <= q
    ensures Out(src, es, BodyEnd(base, l.cells, i), CellEnd(base, l.cells, i))
         == (if q == BodyEnd(base, l.cells, i) then text else "") + l.cells[i].post
  {
    var lo := BodyEnd(base, l.cells, i);
    forall p: nat | lo <= p < CellEnd(base, l.cells, i) ensures Does(es, p, q, text, false) {
      assert InCell(base, l, i, p);
    }
    StretchOut(src, es, lo, l.cells[i].post, q, text);
  }

  /** The comma in front of a run up to the end of the list goes, but a text may be written there. */
  lemma {:induction false} CommaGoneOut(src: string, base: nat, l: List, kill: set<nat>, es: seq<Edit>, q: nat, text: string, i: nat)
    requires i + 1 < |l.cells| && !l.trailing && i !in kill && AllFrom(kill, i + 1, |l.cells|)
    requires CellDoes(base, l, kill, es, i, q, text) && CellEnd(base, l.cells, i) < |src|
    ensures Out(src, es, CellEnd(base, l.cells, i), CellEnd(base, l.cells, i) + 1)
         == if q == CellEnd(base, l.cells, i) then text else ""
  {
    var p := CellEnd(base, l.cells, i);
    assert InCell(base, l, i, p);
    assert Does(es, p, q, text, true);
    OneChar(src, es, p);
  }

  /** The white space after the last element that stays, in front of a run up to the end. */
  lemma {:induction false} BackBeforeRunOut(src: string, base: nat, l: List, kill: set<nat>, es: seq<Edit>, q: nat, text: string, i: nat)
    requires i + 1 < |l.cells| && !l.trailing && i !in kill && AllFrom(kill, i + 1, |l.cells|)
    requires CellDoes(base, l, kill, es, i, q, text) && CellStands(src, base, l, i)
    requires text == "" || q <= BodyEnd(base, l.cells, i) || CellEnd(base, l.cells, i) < q
    ensures Out(src, es, BodyEnd(base, l.cells, i), CellEnd(base, l.cells, i) + 1)
         == (if q == BodyEnd(base, l.cells, i) then text else "") + l.cells[i].post
  {
    CommaGoneOut(src, base, l, kill, es, q, text, i);
    if l.cells[i].post != "" {
      PostOut(src, base, l, kill, es, q, text, i);
      OutSplit(src, es, BodyEnd(base, l.cells, i), CellEnd(base, l.cells, i), CellEnd(base, l.cells, i) + 1);
    }
  }

  // ---- the whole list --------------------------------------------------------------------

  /** The write position of a placement is the one the program computes, and no run takes it. */
  ghost predicate Fits(l: List, kill: set<nat>, pl: Placement, at: nat) {
    var n := |l.cells|;
    match pl
    case Nothing => true
    case AfterSurvivor(_, _) => at < n && at !in kill && AllFrom(kill, at + 1, n)
    case AfterLast(_, _) => at + 1 == n && !AllFrom(kill, 0, n) && (at in kill ==> !l.trailing)
  }

  /** The text of the elements from `i` on, with the bracket that closes the list. */
  function Rendered(l: List, s: Spliced, close: string): string {
    RenderCells(s.cells, l.trailing && s.cells != []) + (s.tail + close)
  }

  lemma {:induction false} Elsewhere(base: nat, l: List, at: nat, i: nat)
    requires at < |l.cells| && i < |l.cells| && i != at
    ensures BodyEnd(base, l.cells, at) < CellStart(base, l.cells, i) || CellEnd(base, l.cells, i) < BodyEnd(base, l.cells, at)
    ensures i < at ==> CellEnd(base, l.cells, i) < BodyEnd(base, l.cells, at)
  {
    if i < at {
      CellsOrdered(base, l.cells, i, at);
    } else {
      CellsOrdered(base, l.cells, at, i);
    }
  }

  lemma {:induction false} RenderKept(carry: string, c: Cell, body: string, rest: seq<Cell>, trailing: bool, end: string)
    requires rest != []
    ensures carry + ((c.pre + body) + ((c.post + ",") + (RenderCells(rest, trailing) + end)))
         == RenderCells([Cell(carry + c.pre, body, c.post)] + rest, trailing) + end
  {
    var cell := Cell(carry + c.pre, body, c.post);
    assert ([cell] + rest)[1..] == rest;
    assert RenderCells([cell] + rest, trailing) == CellText(cell) + ("," + RenderCells(rest, trailing));
    Flatten6(carry, c.pre, body, c.post, ",", RenderCells(rest, trailing), end);
  }

  lemma {:induction false} Flatten6(a: string, b: string, c: string, d: string, e: string, f: string, g: string)
    ensures a + ((b + c) + ((d + e) + (f + g))) == (((a + b) + (c + d)) + (e + f)) + g
  {
  }

  /** The last element that stays, followed by nothing, or by a trailing comma. */
  lemma {:induction false} RenderLast(carry: string, pre: string, body: string, post: string, pl: Placement, trailing: bool, end: string)
    ensures carry + ((pre + body) + (Placed(pl) + (post + (Comma(trailing) + end))))
         == RenderCells(LastCells(carry + pre, body, post, pl), trailing) + end
  {
    hide RenderCells;
    if pl.Nothing? {
      RenderOne(carry, pre, body, post, trailing, end);
    } else {
      RenderTwo(carry, pre, body, pl.lead, pl.body, post, trailing, end);
    }
  }

  lemma {:induction false} RenderOne(carry: string, pre: string, body: string, post: string, trailing: bool, end: string)
    ensures carry + ((pre + body) + ("" + (post + (Comma(trailing) + end))))
         == RenderCells([Cell(carry + pre, body, post)], trailing) + end
  {
    hide RenderCells, Comma;
    OneCell(Cell(carry + pre, body, post), trailing);
    EmptyPlus(post + (Comma(trailing) + end));
    Flatten4(carry, pre, body, post, Comma(trailing), end);
  }

  lemma {:induction false} Flatten4(a: string, b: string, c: string, d: string, e: string, f: string)
    ensures a + ((b + c) + (d + (e + f))) == (((a + b) + (c + d)) + e) + f
  {
  }

  lemma {:induction false} RenderTwo(carry: string, pre: string, body: string, lead: string, placed: string, post: string, trailing: bool, end: string)
    ensures carry + ((pre + body) + (("," + (lead + placed)) + (post + (Comma(trailing) + end))))
         == RenderCells([Cell(carry + pre, body, ""), Cell(lead, placed, post)], trailing) + end
  {
    hide RenderCells, Comma;
    TwoCells(Cell(carry + pre, body, ""), Cell(lead, placed, post), trailing);
    var back := ("," + (lead + placed)) + (post + (Comma(trailing) + end));
    EmptyPlus(back);
    Flatten9(carry, pre, body, "", ",", lead, placed, post, Comma(trailing), end);
  }

  lemma {:induction false} Flatten9(a: string, b: string, c: string, d: string, e: string, f: string, g: string, h: string, i: string, j: string)
    ensures a + ((b + c) + (d + ((e + (f + g)) + (h + (i + j)))))
         == (((a + b) + (c + d)) + (e + ((f + (g + h)) + i))) + j
  {
  }

  /** The last element that stays, followed by a run up to the end and then the new element. */
  lemma {:induction false} RenderLastBeforeRun(carry: string, pre: string, body: string, post: string, rest: string, pl: Placement, end: string)
    requires pl.AfterLast?
    ensures carry + ((pre + body) + (post + (Placed(pl) + (rest + end))))
         == RenderCells(LastCellsBeforeRun(carry + pre, body, post, rest, pl), false) + end
  {
    TwoCells(Cell(carry + pre, body, post), Cell(pl.lead, pl.body, rest), false);
    EmptyPlus(end);
    Flatten9(carry, pre, body, post, ",", pl.lead, pl.body, rest, "", end);
  }

  // ---- one cell and what follows it --------------------------------------------------------

  /** The write position is after the body of cell `i`, or outside the cell. */
  predicate WritesAround(base: nat, l: List, i: nat, q: nat, text: string)
    requires i < |l.cells|
  {
    text == "" || q == BodyEnd(base, l.cells, i) || q < CellStart(base, l.cells, i) || CellEnd(base, l.cells, i) < q
  }

  function WrittenAfter(base: nat, l: List, i: nat, q: nat, text: string): string
    requires i < |l.cells|
  {
    if q == BodyEnd(base, l.cells, i) then text else ""
  }

  lemma {:induction false} KeptCellThen(src: string, base: nat, l: List, kill: set<nat>, es: seq<Edit>, q: nat, text: string, i: nat, body: string, end: nat)
    requires i < |l.cells| && i !in kill && CellStands(src, base, l, i) && HasComma(l, i)
    requires CellDoes(base, l, kill, es, i, q, text) && BodyOut(src, base, l, es, i, body)
    requires l.trailing || !AllFrom(kill, i + 1, |l.cells|)
    requires WritesAround(base, l, i, q, text)
    requires CellEnd(base, l.cells, i) < end <= |src|
    ensures Out(src, es, CellStart(base, l.cells, i), end)
         == (l.cells[i].pre + body)
            + ((WrittenAfter(base, l, i, q, text) + (l.cells[i].post + ",")) + Out(src, es, CellEnd(base, l.cells, i) + 1, end))
  {
    FrontOut(src, base, l, kill, es, q, text, i, body);
    BackOut(src, base, l, kill, es, q, text, i);
    var start, mid, next := CellStart(base, l.cells, i), BodyEnd(base, l.cells, i), CellEnd(base, l.cells, i) + 1;
    OutSplit(src, es, start, mid, end);
    OutSplit(src, es, mid, next, end);
  }

  lemma {:induction false} GoneCellThen(src: string, base: nat, l: List, kill: set<nat>, es: seq<Edit>, q: nat, text: string, i: nat, end: nat)
    requires i < |l.cells| && i in kill && CellStands(src, base, l, i) && HasComma(l, i)
    requires CellDoes(base, l, kill, es, i, q, text)
    requires l.trailing || !AllFrom(kill, i, |l.cells|)
    requires text == "" || q < CellStart(base, l.cells, i) || CellEnd(base, l.cells, i) < q
    requires CellEnd(base, l.cells, i) < end <= |src|
    ensures Out(src, es, CellStart(base, l.cells, i), end)
         == (if i > 0 && i - 1 in kill then "" else l.cells[i].pre) + Out(src, es, CellEnd(base, l.cells, i) + 1, end)
  {
    GoneCellOut(src, base, l, kill, es, q, text, i);
    OutSplit(src, es, CellStart(base, l.cells, i), CellEnd(base, l.cells, i) + 1, end);
  }

  lemma {:induction false} LastCellThen(src: string, base: nat, l: List, kill: set<nat>, es: seq<Edit>, q: nat, text: string, i: nat, body: string, end: nat)
    requires i + 1 == |l.cells| && !l.trailing && i !in kill && CellStands(src, base, l, i)
    requires CellDoes(base, l, kill, es, i, q, text) && BodyOut(src, base, l, es, i, body)
    requires WritesAround(base, l, i, q, text) && (text == "" || q <= BodyEnd(base, l.cells, i))
    requires end == CellEnd(base, l.cells, i) < |src| && Does(es, end, q, text, false)
    requires Holds(src, BodyEnd(base, l.cells, i), l.cells[i].post + [src[end]])
    ensures Out(src, es, CellStart(base, l.cells, i), end + 1)
         == (l.cells[i].pre + body) + (WrittenAfter(base, l, i, q, text) + (l.cells[i].post + [src[end]]))
  {
    FrontOut(src, base, l, kill, es, q, text, i, body);
    LastBackOut(src, base, l, kill, es, q, text, i, end);
    OutSplit(src, es, CellStart(base, l.cells, i), BodyEnd(base, l.cells, i), end + 1);
  }

  /** A run up to the end of the list, from the start of its cell `i`, and the closing bracket. */
  lemma {:induction false} RunThen(src: string, base: nat, l: List, kill: set<nat>, es: seq<Edit>, q: nat, text: string, i: nat, last: nat, end: nat)
    requires 0 < i <= last && last + 1 == |l.cells| && !l.trailing && AllFrom(kill, i, |l.cells|)
    requires CellsDo(base, l, kill, es, q, text, i)
    requires text == "" || q < CellStart(base, l.cells, i) || q == BodyEnd(base, l.cells, last)
    requires end == CellEnd(base, l.cells, last) < |src| && Does(es, end, q, text, false)
    requires Holds(src, BodyEnd(base, l.cells, last), l.cells[last].post + [src[end]])
    ensures CellStart(base, l.cells, i) <= BodyEnd(base, l.cells, last)
    ensures Out(src, es, CellStart(base, l.cells, i), end + 1)
         == WrittenAfter(base, l, last, q, text) + (l.cells[last].post + [src[end]])
  {
    hide Out;
    var back := BodyEnd(base, l.cells, last);
    RunRestOut(src, base, l, kill, es, q, text, i, back);
    assert CellDoes(base, l, kill, es, last, q, text);
    LastBackOut(src, base, l, kill, es, q, text, last, end);
    OutSplit(src, es, CellStart(base, l.cells, i), back, end + 1);
    EmptyPlus(Out(src, es, back, end + 1));
  }

  /** An element that stays, the run up to the end of the list after it, and the closing bracket. */
  lemma {:induction false} CellThenRun(src: string, base: nat, l: List, kill: set<nat>, es: seq<Edit>, q: nat, text: string, i: nat, body: string, end: nat)
    requires i + 1 < |l.cells| && !l.trailing && i !in kill && AllFrom(kill, i + 1, |l.cells|)
    requires CellStands(src, base, l, i) && BodyOut(src, base, l, es, i, body) && CellDoes(base, l, kill, es, i, q, text)
    requires WritesAround(base, l, i, q, text)
    requires CellEnd(base, l.cells, i) < end <= |src|
    ensures Out(src, es, CellStart(base, l.cells, i), end)
         == (l.cells[i].pre + body) + ((WrittenAfter(base, l, i, q, text) + l.cells[i].post)
            + Out(src, es, CellEnd(base, l.cells, i) + 1, end))
  {
    var start, mid, next := CellStart(base, l.cells, i), BodyEnd(base, l.cells, i), CellEnd(base, l.cells, i) + 1;
    FrontOut(src, base, l, kill, es, q, text, i, body);
    BackBeforeRunOut(src, base, l, kill, es, q, text, i);
    OutSplit(src, es, start, mid, end);
    OutSplit(src, es, mid, next, end);
  }

  // ---- what an edit list makes of the elements from `i` on -----------------------------------

  /** The facts about cell `i` that the cases below need. */
  lemma {:induction false} CellFacts(src: string, base: nat, l: List, bodies: seq<string>, kill: set<nat>, es: seq<Edit>, at: nat, text: string, i: nat)
    requires SpliceEdits(src, base, l, bodies, kill, es, at, text) && i < |l.cells|
    ensures CellStands(src, base, l, i) && CellDoes(base, l, kill, es, i, WriteAt(base, l, at), text)
    ensures i !in kill ==> BodyOut(src, base, l, es, i, bodies[i])
    ensures CellEnd(base, l.cells, i) + (if HasComma(l, i) then 1 else 0) <= ListEnd(base, l) < |src|
    ensures !HasComma(l, i) ==> CellEnd(base, l.cells, i) == ListEnd(base, l)
    ensures WritesAround(base, l, i, WriteAt(base, l, at), text)
    ensures at != i ==> WrittenAfter(base, l, i, WriteAt(base, l, at), text) == ""
    ensures at != i ==> text == "" || WriteAt(base, l, at) < CellStart(base, l.cells, i) || CellEnd(base, l.cells, i) < WriteAt(base, l, at)
    ensures Does(es, ListEnd(base, l), WriteAt(base, l, at), text, false)
  {
    PartsStand(src, base, l, i);
    if at != i {
      Elsewhere(base, l, at, i);
    }
  }

  lemma {:induction false} KeptCase(src: string, base: nat, l: List, bodies: seq<string>, kill: set<nat>, pl: Placement, es: seq<Edit>, at: nat, i: nat, carry: string, rest: Spliced)
    requires SpliceEdits(src, base, l, bodies, kill, es, at, Placed(pl)) && (pl.Nothing? || at != i)
    requires i + 1 < |l.cells| && i !in kill && !AllFrom(kill, i + 1, |l.cells|) && rest.cells != []
    requires CellStart(base, l.cells, i + 1) <= ListEnd(base, l) + 1 <= |src|
    requires Out(src, es, CellStart(base, l.cells, i + 1), ListEnd(base, l) + 1) == Rendered(l, rest, [src[ListEnd(base, l)]])
    ensures CellStart(base, l.cells, i) <= ListEnd(base, l) + 1
    ensures carry + Out(src, es, CellStart(base, l.cells, i), ListEnd(base, l) + 1)
         == Rendered(l, Spliced([Cell(carry + l.cells[i].pre, bodies[i], l.cells[i].post)] + rest.cells, rest.tail), [src[ListEnd(base, l)]])
  {
    hide Out, RenderCells, CellDoes, BodyOut, Does;
    var q, text, end := WriteAt(base, l, at), Placed(pl), ListEnd(base, l) + 1;
    CellFacts(src, base, l, bodies, kill, es, at, text, i);
    KeptCellThen(src, base, l, kill, es, q, text, i, bodies[i], end);
    EmptyPlus(l.cells[i].post + ",");
    RenderKept(carry, l.cells[i], bodies[i], rest.cells, l.trailing, rest.tail + [src[ListEnd(base, l)]]);
  }

  lemma {:induction false} Regroup(a: string, b: string, c: string, d: string)
    ensures (a + (b + c)) + d == a + (b + (c + d))
    ensures (a + b) + (c + d) == a + ((b + c) + d)
    ensures a + (b + (c + d)) == ((a + b) + c) + d
  {
  }

  lemma {:induction false} RenderedNone(l: List, tail: string, close: string)
    ensures Rendered(l, Spliced([], tail), close) == tail + close
  {
    EmptyPlus(tail + close);
  }

  /** The only place where the new element can go when no later element stays. */
  lemma {:induction false} WrittenHere(l: List, kill: set<nat>, pl: Placement, at: nat, i: nat)
    requires Fits(l, kill, pl, at) && i < |l.cells| && i !in kill && AllFrom(kill, i + 1, |l.cells|)
    ensures pl.AfterSurvivor? ==> at == i
    ensures pl.AfterLast? && (l.trailing || i + 1 == |l.cells|) ==> at == i
  {
  }

  lemma {:induction false} LastBeforeCommaText(carry: string, c: Cell, body: string, pl: Placement, end: string)
    ensures carry + ((c.pre + body) + ((Placed(pl) + (c.post + ",")) + end))
         == RenderCells(LastCells(carry + c.pre, body, c.post, pl), true) + end
  {
    hide RenderCells, Placed, LastCells;
    Regroup(Placed(pl), c.post, ",", end);
    RenderLast(carry, c.pre, body, c.post, pl, true, end);
  }

  /** The last element that stays, in a list with a trailing comma. */
  lemma {:induction false} LastBeforeCommaCase(src: string, base: nat, l: List, bodies: seq<string>, kill: set<nat>, pl: Placement, es: seq<Edit>, at: nat, i: nat, carry: string, tail: string)
    requires SpliceEdits(src, base, l, bodies, kill, es, at, Placed(pl)) && Fits(l, kill, pl, at)
    requires i < |l.cells| && i !in kill && AllFrom(kill, i + 1, |l.cells|) && l.trailing
    requires CellStart(base, l.cells, i + 1) <= ListEnd(base, l) + 1 <= |src|
    requires Out(src, es, CellStart(base, l.cells, i + 1), ListEnd(base, l) + 1) == Rendered(l, Spliced([], tail), [src[ListEnd(base, l)]])
    ensures CellStart(base, l.cells, i) <= ListEnd(base, l) + 1
    ensures carry + Out(src, es, CellStart(base, l.cells, i), ListEnd(base, l) + 1)
         == Rendered(l, Spliced(LastCells(carry + l.cells[i].pre, bodies[i], l.cells[i].post, pl), tail), [src[ListEnd(base, l)]])
  {
    hide Out, RenderCells, CellDoes, BodyOut, Does;
    var q, text, end, close := WriteAt(base, l, at), Placed(pl), ListEnd(base, l) + 1, [src[ListEnd(base, l)]];
    RenderedNone(l, tail, close);
    WrittenHere(l, kill, pl, at, i);
    CellFacts(src, base, l, bodies, kill, es, at, text, i);
    KeptCellThen(src, base, l, kill, es, q, text, i, bodies[i], end);
    LastBeforeCommaText(carry, l.cells[i], bodies[i], pl, tail + close);
  }

  /** The last element of a list without trailing comma, when it stays. */
  lemma {:induction false} LastCase(src: string, base: nat, l: List, bodies: seq<string>, kill: set<nat>, pl: Placement, es: seq<Edit>, at: nat, i: nat, carry: string)
    requires SpliceEdits(src, base, l, bodies, kill, es, at, Placed(pl)) && Fits(l, kill, pl, at)
    requires i + 1 == |l.cells| && i !in kill && !l.trailing
    ensures CellStart(base, l.cells, i) <= ListEnd(base, l) + 1
    ensures carry + Out(src, es, CellStart(base, l.cells, i), ListEnd(base, l) + 1)
         == Rendered(l, Spliced(LastCells(carry + l.cells[i].pre, bodies[i], l.cells[i].post, pl), ""), [src[ListEnd(base, l)]])
  {
    hide Out, RenderCells, CellDoes, BodyOut, Does;
    var q, text, close := WriteAt(base, l, at), Placed(pl), [src[ListEnd(base, l)]];
    WrittenHere(l, kill, pl, at, i);
    CellFacts(src, base, l, bodies, kill, es, at, text, i);
    LastBackStands(src, base, l, i);
    LastCellThen(src, base, l, kill, es, q, text, i, bodies[i], ListEnd(base, l));
    EmptyPlus(close);
    RenderLast(carry, l.cells[i].pre, bodies[i], l.cells[i].post, pl, false, close);
  }

  /** The pieces of the last element that stays, the run up to the end after it, and the bracket. */
  lemma {:induction false} LastBeforeRunOut(src: string, base: nat, l: List, bodies: seq<string>, kill: set<nat>, es: seq<Edit>, at: nat, text: string, i: nat, last: nat)
    requires SpliceEdits(src, base, l, bodies, kill, es, at, text)
    requires i < last && last + 1 == |l.cells| && i !in kill && AllFrom(kill, i + 1, |l.cells|) && !l.trailing
    requires text == "" || at == i || at == last
    ensures CellStart(base, l.cells, i) <= ListEnd(base, l) + 1
    ensures Out(src, es, CellStart(base, l.cells, i), ListEnd(base, l) + 1)
         == (l.cells[i].pre + bodies[i]) + (((if at == i then text else "") + l.cells[i].post)
            + ((if at == last then text else "") + (l.cells[last].post + [src[ListEnd(base, l)]])))
  {
    hide Out, CellDoes, BodyOut, Does, Stands, Holds, CellStands, AllFrom, Render, TailDoes;
    var q, end := WriteAt(base, l, at), ListEnd(base, l);
    CellFacts(src, base, l, bodies, kill, es, at, text, i);
    CellThenRun(src, base, l, kill, es, q, text, i, bodies[i], end + 1);
    CellFacts(src, base, l, bodies, kill, es, at, text, last);
    LastBackStands(src, base, l, last);
    CellsDoFrom(src, base, l, bodies, kill, es, at, text, i + 1);
    RunThen(src, base, l, kill, es, q, text, i + 1, last, end);
  }

  lemma {:induction false} LastBeforeRunText(carry: string, c: Cell, body: string, post: string, close: string, pl: Placement)
    ensures carry + ((c.pre + body) + (((if pl.AfterSurvivor? then Placed(pl) else "") + c.post)
              + ((if pl.AfterLast? then Placed(pl) else "") + (post + close))))
         == RenderCells(LastCellsBeforeRun(carry + c.pre, body, c.post, post, pl), false) + close
  {
    hide RenderCells;
    EmptyPlus(close);
    EmptyPlus(c.post);
    EmptyPlus(post + close);
    if pl.AfterLast? {
      RenderLastBeforeRun(carry, c.pre, body, c.post, post, pl, close);
    } else {
      Regroup(Placed(pl), c.post, post, close);
      RenderLast(carry, c.pre, body, c.post + post, pl, false, close);
    }
  }

  /** The last element that stays, followed by a run up to the end of a list without trailing comma. */
  lemma {:induction false} LastBeforeRunCase(src: string, base: nat, l: List, bodies: seq<string>, kill: set<nat>, pl: Placement, es: seq<Edit>, at: nat, i: nat, carry: string)
    requires SpliceEdits(src, base, l, bodies, kill, es, at, Placed(pl)) && Fits(l, kill, pl, at)
    requires i + 1 < |l.cells| && i !in kill && AllFrom(kill, i + 1, |l.cells|) && !l.trailing
    ensures CellStart(base, l.cells, i) <= ListEnd(base, l) + 1
    ensures carry + Out(src, es, CellStart(base, l.cells, i), ListEnd(base, l) + 1)
         == Rendered(l, Spliced(LastCellsBeforeRun(carry + l.cells[i].pre, bodies[i], l.cells[i].post, l.cells[|l.cells| - 1].post, pl), ""), [src[ListEnd(base, l)]])
  {
    hide Out, RenderCells;
    var last, close := |l.cells| - 1, [src[ListEnd(base, l)]];
    WrittenHere(l, kill, pl, at, i);
    LastBeforeRunOut(src, base, l, bodies, kill, es, at, Placed(pl), i, last);
    LastBeforeRunText(carry, l.cells[i], bodies[i], l.cells[last].post, close, pl);
    EmptyPlus(close);
  }

  lemma {:induction false} CellsDoFrom(src: string, base: nat, l: List, bodies: seq<string>, kill: set<nat>, es: seq<Edit>, at: nat, text: string, i: nat)
    requires SpliceEdits(src, base, l, bodies, kill, es, at, text)
    ensures CellsDo(base, l, kill, es, WriteAt(base, l, at), text, i)
  {
    hide Out;
  }

  /** A list without trailing comma whose every element goes. */
  lemma {:induction false} WholeRunCase(src: string, base: nat, l: List, bodies: seq<string>, kill: set<nat>, es: seq<Edit>, at: nat, carry: string)
    requires SpliceEdits(src, base, l, bodies, kill, es, at, "")
    requires l.cells != [] && AllFrom(kill, 0, |l.cells|) && !l.trailing
    ensures carry + Out(src, es, base, ListEnd(base, l) + 1)
         == Rendered(l, Spliced([], (carry + l.cells[0].pre) + l.cells[|l.cells| - 1].post), [src[ListEnd(base, l)]])
  {
    hide Out, RenderCells, Rendered;
    var last := |l.cells| - 1;
    var q, end, close, mid := WriteAt(base, l, at), ListEnd(base, l), [src[ListEnd(base, l)]], BodyEnd(base, l.cells, last);
    var pre, post := l.cells[0].pre, l.cells[last].post;
    CellFacts(src, base, l, bodies, kill, es, at, "", 0);
    CellFacts(src, base, l, bodies, kill, es, at, "", last);
    CellsDoFrom(src, base, l, bodies, kill, es, at, "", 0);
    LastBackStands(src, base, l, last);
    WholeRunOut(src, base, l, kill, es, q, mid);
    LastBackOut(src, base, l, kill, es, q, "", last, end);
    OutSplit(src, es, base, mid, end + 1);
    EmptyPlus(post + close);
    Regroup(carry, pre, post, close);
    RenderedNone(l, (carry + pre) + post, close);
  }

  /** What is left after the last element of a list with a trailing comma, or in an empty list. */
  lemma {:induction false} EndCase(src: string, base: nat, l: List, bodies: seq<string>, kill: set<nat>, es: seq<Edit>, at: nat, text: string, carry: string)
    requires SpliceEdits(src, base, l, bodies, kill, es, at, text)
    requires l.trailing || l.cells == []
    ensures CellStart(base, l.cells, |l.cells|) <= ListEnd(base, l) + 1
    ensures carry + Out(src, es, CellStart(base, l.cells, |l.cells|), ListEnd(base, l) + 1)
         == Rendered(l, Spliced([], carry + l.tail), [src[ListEnd(base, l)]])
  {
    hide Out, RenderCells, Rendered;
    var n, q, end, close := |l.cells|, WriteAt(base, l, at), ListEnd(base, l), [src[ListEnd(base, l)]];
    var lo := end - |l.tail|;
    TailStands(src, base, l);
    if n > 0 {
      EndsInList(base, l, n - 1);
      CellsOrdered(base, l.cells, at, n);
    } else {
      RenderLength(base, l.cells, l.trailing);
    }
    assert lo == CellStart(base, l.cells, n);
    StretchOut(src, es, lo, l.tail + close, q, text);
    EmptyPlus(l.tail + close);
    Assoc(carry, l.tail, close);
    RenderedNone(l, carry + l.tail, close);
  }

  /** An element that goes and is not in a run up to the end of a list without trailing comma. */
  lemma {:induction false} GoneCase(src: string, base: nat, l: List, bodies: seq<string>, kill: set<nat>, pl: Placement, es: seq<Edit>, at: nat, i: nat, carry: string, rest: Spliced)
    requires SpliceEdits(src, base, l, bodies, kill, es, at, Placed(pl)) && Fits(l, kill, pl, at)
    requires i < |l.cells| && i in kill && (l.trailing || !AllFrom(kill, i, |l.cells|))
    requires CellStart(base, l.cells, i + 1) <= ListEnd(base, l) + 1 <= |src|
    requires (if i > 0 && i - 1 in kill then carry else carry + l.cells[i].pre) + Out(src, es, CellStart(base, l.cells, i + 1), ListEnd(base, l) + 1)
          == Rendered(l, rest, [src[ListEnd(base, l)]])
    ensures CellStart(base, l.cells, i) <= ListEnd(base, l) + 1
    ensures carry + Out(src, es, CellStart(base, l.cells, i), ListEnd(base, l) + 1) == Rendered(l, rest, [src[ListEnd(base, l)]])
  {
    hide Out, RenderCells, Rendered, CellDoes, BodyOut, Does;
    var q, text, end := WriteAt(base, l, at), Placed(pl), ListEnd(base, l) + 1;
    var next := Out(src, es, CellStart(base, l.cells, i + 1), end);
    CellFacts(src, base, l, bodies, kill, es, at, text, i);
    GoneCellThen(src, base, l, kill, es, q, text, i, end);
    EmptyPlus(next);
    Assoc(carry, l.cells[i].pre, next);
  }

  /**
   The edits turn the elements from `i` on into the text of the spliced list, with `carry` in
   front of it.
   */
  lemma {:induction false} SplicedOut(src: string, base: nat, l: List, bodies: seq<string>, kill: set<nat>, pl: Placement, es: seq<Edit>, at: nat, i: nat, carry: string)
    requires SpliceEdits(src, base, l, bodies, kill, es, at, Placed(pl)) && Fits(l, kill, pl, at)
    requires i < |l.cells| || (i == |l.cells| && (l.trailing || i == 0))
    requires !l.trailing && 0 < i ==> !AllFrom(kill, i, |l.cells|)
    ensures CellStart(base, l.cells, i) <= ListEnd(base, l) + 1
    ensures carry + Out(src, es, CellStart(base, l.cells, i), ListEnd(base, l) + 1)
         == Rendered(l, Splice(l, bodies, kill, pl, i, carry), [src[ListEnd(base, l)]])
    decreases |l.cells| - i
  {
    hide Out, RenderCells, Rendered, CellDoes, BodyOut, TailDoes, Holds, Render, WfCells;
    var n, text := |l.cells|, Placed(pl);
    if i == n {
      EndCase(src, base, l, bodies, kill, es, at, text, carry);
    } else if i in kill {
      if !l.trailing && AllFrom(kill, i, n) {
        WholeRunCase(src, base, l, bodies, kill, es, at, carry);
      } else {
        var left := if i > 0 && i - 1 in kill then carry else carry + l.cells[i].pre;
        SplicedOut(src, base, l, bodies, kill, pl, es, at, i + 1, left);
        GoneCase(src, base, l, bodies, kill, pl, es, at, i, carry, Splice(l, bodies, kill, pl, i + 1, left));
      }
    } else if !AllFrom(kill, i + 1, n) {
      NextSpliced(src, base, l, bodies, kill, pl, es, at, i);
      KeptCase(src, base, l, bodies, kill, pl, es, at, i, carry, Splice(l, bodies, kill, pl, i + 1, ""));
    } else if l.trailing {
      NextSpliced(src, base, l, bodies, kill, pl, es, at, i);
      LastBeforeCommaCase(src, base, l, bodies, kill, pl, es, at, i, carry, Splice(l, bodies, kill, pl, i + 1, "").tail);
    } else if i + 1 == n {
      EmptyPlus(l.tail);
      LastCase(src, base, l, bodies, kill, pl, es, at, i, carry);
    } else {
      LastBeforeRunCase(src, base, l, bodies, kill, pl, es, at, i, carry);
    }
  }

  /** The elements after one that stays. */
  lemma {:induction false} NextSpliced(src: string, base: nat, l: List, bodies: seq<string>, kill: set<nat>, pl: Placement, es: seq<Edit>, at: nat, i: nat)
    requires SpliceEdits(src, base, l, bodies, kill, es, at, Placed(pl)) && Fits(l, kill, pl, at)
    requires i < |l.cells| && (l.trailing || !AllFrom(kill, i + 1, |l.cells|))
    ensures CellStart(base, l.cells, i + 1) <= ListEnd(base, l) + 1 <= |src|
    ensures Out(src, es, CellStart(base, l.cells, i + 1), ListEnd(base, l) + 1)
         == Rendered(l, Splice(l, bodies, kill, pl, i + 1, ""), [src[ListEnd(base, l)]])
    ensures Splice(l, bodies, kill, pl, i + 1, "").cells == [] <==> AllFrom(kill, i + 1, |l.cells|)
    decreases |l.cells| - i, 0
  {
    hide Out, RenderCells, Rendered;
    SplicedOut(src, base, l, bodies, kill, pl, es, at, i + 1, "");
    EmptyPlus(Out(src, es, CellStart(base, l.cells, i + 1), ListEnd(base, l) + 1));
    SplicedNone(l, bodies, kill, pl, i + 1, "");
  }

  lemma {:induction false} SplicedNone(l: List, bodies: seq<string>, kill: set<nat>, pl: Placement, i: nat, carry: string)
    requires |bodies| == |l.cells| && i <= |l.cells|
    ensures Splice(l, bodies, kill, pl, i, carry).cells == [] <==> AllFrom(kill, i, |l.cells|)
    decreases |l.cells| - i
  {
    var n := |l.cells|;
    if i < n && i in kill && (l.trailing || !AllFrom(kill, i, n)) {
      var left := if i > 0 && i - 1 in kill then carry else carry + l.cells[i].pre;
      SplicedNone(l, bodies, kill, pl, i + 1, left);
    }
  }

  /**
   Edits that delete the elements `kill`, rewrite the others and place a new element turn the
   text of the list into the text of the spliced list.
   */
  lemma {:induction false} SplicedListOut(src: string, base: nat, l: List, bodies: seq<string>, kill: set<nat>, pl: Placement, es: seq<Edit>, at: nat)
    requires SpliceEdits(src, base, l, bodies, kill, es, at, Placed(pl)) && Fits(l, kill, pl, at)
    ensures base <= ListEnd(base, l) + 1 <= |src|
    ensures Out(src, es, base, ListEnd(base, l) + 1) == Render(SpliceList(l, bodies, kill, pl)) + [src[ListEnd(base, l)]]
  {
    hide Out, RenderCells;
    SplicedOut(src, base, l, bodies, kill, pl, es, at, 0, "");
    var s, close := Splice(l, bodies, kill, pl, 0, ""), [src[ListEnd(base, l)]];
    EmptyPlus(Out(src, es, base, ListEnd(base, l) + 1));
    Assoc(RenderCells(s.cells, l.trailing && s.cells != []), s.tail, close);
  }
}
