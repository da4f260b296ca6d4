/**
 The concrete layout of a bracketed, comma-separated list (a JSON array or object body) inside
 a text: elements surrounded by white space, one comma between two elements and possibly one
 after the last (section 5 of RFC 8259, plus trailing commas).  A list is kept as the exact
 characters it is made of, so that rendering it gives back the text; the ranges that a parser
 reports for its elements are the positions computed here.
 */
module JsonLayout {

  /** The bytes that `u8::is_ascii_whitespace` accepts. */
  predicate Ws(c: char) {
    c == ' ' || c == '\t' || c == '\n' || c == '\r' || c == '\U{0C}'
  }

  predicate AllWs(s: string) {
    forall i :: 0 <= i < |s| ==> Ws(s[i])
  }

  lemma {:induction false} AllWsConcat(a: string, b: string)
    requires AllWs(a) && AllWs(b)
    ensures AllWs(a + b)
  {
  }

  datatype Cell = Cell(pre: string, body: string, post: string)

  datatype List = List(cells: seq<Cell>, trailing: bool, tail: string)

  /** An element text: not empty, and neither white space nor a comma at its ends. */
  predicate WfBody(s: string) {
    s != "" && !Ws(s[0]) && s[0] != ',' && !Ws(s[|s| - 1]) && s[|s| - 1] != ','
  }

  predicate WfCell(c: Cell) {
    AllWs(c.pre) && WfBody(c.body) && AllWs(c.post)
  }

  predicate WfCells(cells: seq<Cell>) {
    forall i :: 0 <= i < |cells| ==> WfCell(cells[i])
  }

  /** The grammar: no comma in an empty list, and no text after the last element's white space. */
  predicate WfList(l: List) {
    && WfCells(l.cells)
    && AllWs(l.tail)
    && (l.cells == [] ==> !l.trailing)
    && (l.cells != [] && !l.trailing ==> l.tail == "")
  }

  function CellText(c: Cell): string {
    c.pre + (c.body + c.post)
  }

  /** What separates the first of `cells` from the text after it. */
  function Separator(cells: seq<Cell>, trailing: bool): string {
    if |cells| > 1 || trailing then "," else ""
  }

  function RenderCells(cells: seq<Cell>, trailing: bool): string {
    if cells == [] then ""
    else CellText(cells[0]) + (Separator(cells, trailing) + RenderCells(cells[1..], trailing))
  }

  function Render(l: List): string {
    RenderCells(l.cells, l.trailing) + l.tail
  }

  function Bodies(cells: seq<Cell>): seq<string> {
    if cells == [] then [] else [cells[0].body] + Bodies(cells[1..])
  }

  // ---- positions ------------------------------------------------------------

  function CellLen(c: Cell): nat {
    |c.pre| + |c.body| + |c.post|
  }

  /** Where cell `i` starts, for a list whose content starts at `base`. */
  function CellStart(base: nat, cells: seq<Cell>, i: nat): nat
    requires i <= |cells|
  {
    if i == 0 then base else CellStart(base, cells, i - 1) + CellLen(cells[i - 1]) + 1
  }

  function BodyStart(base: nat, cells: seq<Cell>, i: nat): nat
    requires i < |cells|
  {
    CellStart(base, cells, i) + |cells[i].pre|
  }

  function BodyEnd(base: nat, cells: seq<Cell>, i: nat): nat
    requires i < |cells|
  {
    BodyStart(base, cells, i) + |cells[i].body|
  }

  /** The end of cell `i`, which is where its comma stands when it has one. */
  function CellEnd(base: nat, cells: seq<Cell>, i: nat): nat
    requires i < |cells|
  {
    BodyEnd(base, cells, i) + |cells[i].post|
  }

  predicate HasComma(l: List, i: nat) {
    i + 1 < |l.cells| || l.trailing
  }

  function ListEnd(base: nat, l: List): nat {
    base + |Render(l)|
  }

  lemma {:induction false} CellsOrdered(base: nat, cells: seq<Cell>, i: nat, j: nat)
    requires i < j <= |cells|
    ensures CellEnd(base, cells, i) < CellStart(base, cells, j)
    decreases j - i
  {
    if i + 1 < j {
      CellsOrdered(base, cells, i, j - 1);
    }
  }

  lemma {:induction false} CellStartShift(base: nat, cells: seq<Cell>, i: nat)
    requires 0 < |cells| && i < |cells|
    ensures CellStart(base, cells, i + 1) == CellStart(base + CellLen(cells[0]) + 1, cells[1..], i)
  {
    if i > 0 {
      CellStartShift(base, cells, i - 1);
    }
  }

  // ---- a list standing in a text ---------------------------------------------

  /** The text `s` stands in `src` at `at`. */
  predicate Holds(src: string, at: nat, s: string) {
    at + |s| <= |src| && forall k :: 0 <= k < |s| ==> src[at + k] == s[k]
  }

  lemma {:induction false} HoldsConcat(src: string, at: nat, a: string, b: string)
    ensures Holds(src, at, a + b) <==> Holds(src, at, a) && Holds(src, at + |a|, b)
  {
    if Holds(src, at, a + b) {
      forall k | 0 <= k < |a| ensures src[at + k] == a[k] {
        assert (a + b)[k] == a[k];
      }
      forall k | 0 <= k < |b| ensures src[at + |a| + k] == b[k] {
        assert (a + b)[|a| + k] == b[k];
      }
    }
  }

  /** The three parts of cell `i` and its comma stand where the positions say. */
  predicate CellStands(src: string, base: nat, l: List, i: nat)
    requires i < |l.cells|
  {
    && Holds(src, CellStart(base, l.cells, i), l.cells[i].pre)
    && Holds(src, BodyStart(base, l.cells, i), l.cells[i].body)
    && Holds(src, BodyEnd(base, l.cells, i), l.cells[i].post)
    && (HasComma(l, i) ==> Holds(src, CellEnd(base, l.cells, i), ","))
  }

  lemma {:induction false} FirstCellStands(src: string, base: nat, l: List)
    requires l.cells != [] && Holds(src, base, RenderCells(l.cells, l.trailing))
    ensures CellStands(src, base, l, 0)
  {
    var c, sep, rest := l.cells[0], Separator(l.cells, l.trailing), RenderCells(l.cells[1..], l.trailing);
    HoldsConcat(src, base, CellText(c), sep + rest);
    HoldsConcat(src, base + CellLen(c), sep, rest);
    HoldsConcat(src, base, c.pre, c.body + c.post);
    HoldsConcat(src, base + |c.pre|, c.body, c.post);
  }

  lemma {:induction false} OtherCellsStand(src: string, base: nat, l: List)
    requires |l.cells| > 1 && Holds(src, base, RenderCells(l.cells, l.trailing))
    ensures Holds(src, base + CellLen(l.cells[0]) + 1, RenderCells(l.cells[1..], l.trailing))
  {
    hide Holds;
    var c, rest := l.cells[0], RenderCells(l.cells[1..], l.trailing);
    HoldsConcat(src, base, CellText(c), "," + rest);
    HoldsConcat(src, base + CellLen(c), ",", rest);
  }

  lemma {:induction false} SameCellStands(src: string, base: nat, l: List, i: nat, base': nat, l': List, i': nat)
    requires i < |l.cells| && i' < |l'.cells| && l.cells[i] == l'.cells[i']
    requires CellStart(base, l.cells, i) == CellStart(base', l'.cells, i')
    requires HasComma(l, i) <==> HasComma(l', i')
    requires CellStands(src, base', l', i')
    ensures CellStands(src, base, l, i)
  {
  }

  lemma {:induction false} CellsStand(src: string, base: nat, l: List, i: nat)
    requires Holds(src, base, RenderCells(l.cells, l.trailing)) && i < |l.cells|
    ensures CellStands(src, base, l, i)
    decreases i
  {
    hide Holds, RenderCells, CellStands;
    if i == 0 {
      FirstCellStands(src, base, l);
    } else {
      var rest := List(l.cells[1..], l.trailing, l.tail);
      var next := base + CellLen(l.cells[0]) + 1;
      OtherCellsStand(src, base, l);
      CellsStand(src, next, rest, i - 1);
      CellStartShift(base, l.cells, i - 1);
      SameCellStands(src, base, l, i, next, rest, i - 1);
    }
  }

  /** The length of a rendered list in terms of its cell positions. */
  lemma {:induction false} RenderLength(base: nat, cells: seq<Cell>, trailing: bool)
    ensures cells == [] ==> RenderCells(cells, trailing) == ""
    ensures cells != [] ==>
      base + |RenderCells(cells, trailing)| == CellEnd(base, cells, |cells| - 1) + if trailing then 1 else 0
    decreases |cells|
  {
    if |cells| == 1 {
      assert RenderCells(cells[1..], trailing) == "";
    } else if |cells| > 1 {
      var rest := cells[1..];
      var next := base + CellLen(cells[0]) + 1;
      RenderLength(next, rest, trailing);
      CellStartShift(base, cells, |cells| - 2);
      assert rest[|rest| - 1] == cells[|cells| - 1];
    }
  }

  lemma {:induction false} EndsInList(base: nat, l: List, i: nat)
    requires WfList(l) && i < |l.cells|
    ensures CellEnd(base, l.cells, i) + (if HasComma(l, i) then 1 else 0) <= ListEnd(base, l)
    ensures !HasComma(l, i) ==> CellEnd(base, l.cells, i) == ListEnd(base, l)
    ensures i == |l.cells| - 1 && l.trailing ==> CellEnd(base, l.cells, i) + 1 + |l.tail| == ListEnd(base, l)
  {
    RenderLength(base, l.cells, l.trailing);
    if i < |l.cells| - 1 {
      CellsOrdered(base, l.cells, i, |l.cells| - 1);
    }
  }

  /**
   A list stands in a source between two brackets, its content starting at `base`: what the
   parser guarantees about the node it reports.
   */
  predicate Stands(src: string, base: nat, l: List) {
    && 0 < base
    && WfList(l)
    && Holds(src, base, Render(l))
    && !Ws(src[base - 1]) && src[base - 1] != ','
    && ListEnd(base, l) < |src|
    && !Ws(src[ListEnd(base, l)]) && src[ListEnd(base, l)] != ','
  }

  lemma {:induction false} PartsStand(src: string, base: nat, l: List, i: nat)
    requires Stands(src, base, l) && i < |l.cells|
    ensures CellStands(src, base, l, i)
    ensures CellEnd(base, l.cells, i) + (if HasComma(l, i) then 1 else 0) <= ListEnd(base, l) < |src|
    ensures !HasComma(l, i) ==> CellEnd(base, l.cells, i) == ListEnd(base, l)
    ensures i == |l.cells| - 1 && l.trailing ==> CellEnd(base, l.cells, i) + 1 + |l.tail| == ListEnd(base, l)
  {
    HoldsConcat(src, base, RenderCells(l.cells, l.trailing), l.tail);
    CellsStand(src, base, l, i);
    EndsInList(base, l, i);
  }
}
