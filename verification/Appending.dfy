/**
 Adding several elements at the end of a list in one insertion: the text is that of the list with
 the new elements as elements of their own.
 */
module Appending {
  import opened Splicing
  import opened JsonLayout
  import opened RunDeletion
  import opened ListSplice
  import opened ListEditing
  import opened DocumentPlan

  /** A list with the texts of its elements replaced. */
  function Rebodied(l: List, bodies: seq<string>): List
    requires |bodies| == |l.cells|
  {
    List(seq(|l.cells|, i requires 0 <= i < |l.cells| => Cell(l.cells[i].pre, bodies[i], l.cells[i].post)), l.trailing, l.tail)
  }

  function NewCells(lead: string, texts: seq<string>, post: string): seq<Cell> {
    if texts == [] then []
    else [Cell(lead, texts[0], if |texts| == 1 then post else "")] + NewCells(lead, texts[1..], post)
  }

  /** The list with `texts` as further elements; the white space after the last one stays last. */
  function Appended(l: List, lead: string, texts: seq<string>): List {
    if texts == [] then l
    else if l.cells == [] then List(NewCells(" ", texts, l.tail), false, "")
    else
      var last := l.cells[|l.cells| - 1];
      List(l.cells[..|l.cells| - 1] + ([Cell(last.pre, last.body, "")] + NewCells(lead, texts, last.post)), l.trailing, l.tail)
  }

  // ---- its elements ------------------------------------------------------------------------------

  lemma {:induction false} BodiesConcat(a: seq<Cell>, b: seq<Cell>)
    ensures Bodies(a + b) == Bodies(a) + Bodies(b)
  {
    if a == [] {
      assert a + b == b;
    } else {
      assert (a + b)[1..] == a[1..] + b;
      BodiesConcat(a[1..], b);
      SeqAssoc([a[0].body], Bodies(a[1..]), Bodies(b));
    }
  }

  lemma {:induction false} NewBodies(lead: string, texts: seq<string>, post: string)
    ensures Bodies(NewCells(lead, texts, post)) == texts
  {
    if texts != [] {
      NewBodies(lead, texts[1..], post);
      var cells := NewCells(lead, texts, post);
      assert cells[1..] == NewCells(lead, texts[1..], post);
      assert texts == [texts[0]] + texts[1..];
    }
  }

  lemma {:induction false} NewCellsWf(lead: string, texts: seq<string>, post: string)
    requires AllWs(lead) && AllWs(post) && forall i :: 0 <= i < |texts| ==> WfBody(texts[i])
    ensures WfCells(NewCells(lead, texts, post))
  {
    if texts != [] {
      NewCellsWf(lead, texts[1..], post);
    }
  }

  lemma {:induction false} AppendedWf(l: List, lead: string, texts: seq<string>)
    requires WfList(l) && AllWs(lead) && forall i :: 0 <= i < |texts| ==> WfBody(texts[i])
    ensures WfList(Appended(l, lead, texts))
  {
    hide WfBody;
    if texts != [] && l.cells == [] {
      assert AllWs(" ");
      NewCellsWf(" ", texts, l.tail);
    } else if texts != [] {
      assert WfCell(l.cells[|l.cells| - 1]);
      NewCellsWf(lead, texts, l.cells[|l.cells| - 1].post);
    }
  }

  lemma {:induction false} AppendedBodies(l: List, lead: string, texts: seq<string>)
    ensures Bodies(Appended(l, lead, texts).cells) == Bodies(l.cells) + texts
  {
    hide Bodies, NewCells;
    if texts == [] {
      assert Bodies(l.cells) + [] == Bodies(l.cells);
    } else if l.cells == [] {
      NewBodies(" ", texts, l.tail);
      BodiesAt(l.cells, 0);
    } else {
      var n, last := |l.cells|, l.cells[|l.cells| - 1];
      var kept := Cell(last.pre, last.body, "");
      NewBodies(lead, texts, last.post);
      BodiesConcat(l.cells[..n - 1], [kept] + NewCells(lead, texts, last.post));
      BodiesConcat([kept], NewCells(lead, texts, last.post));
      BodiesConcat(l.cells[..n - 1], [last]);
      assert l.cells == l.cells[..n - 1] + [last];
      OneCell(kept, false);
      OneCell(last, false);
      SeqAssoc(Bodies(l.cells[..n - 1]), [last.body], texts);
    }
  }

  // ---- its text ----------------------------------------------------------------------------------

  /** Cells that are all followed by a comma. */
  function RenderAll(cells: seq<Cell>): string {
    if cells == [] then "" else (CellText(cells[0]) + ",") + RenderAll(cells[1..])
  }

  lemma {:induction false} RenderConcat(a: seq<Cell>, b: seq<Cell>, trailing: bool)
    requires b != []
    ensures RenderCells(a + b, trailing) == RenderAll(a) + RenderCells(b, trailing)
  {
    if a == [] {
      assert a + b == b;
      EmptyPlus(RenderCells(b, trailing));
    } else {
      assert (a + b)[1..] == a[1..] + b && (a + b)[0] == a[0];
      RenderConcat(a[1..], b, trailing);
      Regrouped(CellText(a[0]), RenderAll(a[1..]), RenderCells(b, trailing));
    }
  }

  lemma {:induction false} Regrouped(a: string, b: string, c: string)
    ensures a + ("," + (b + c)) == ((a + ",") + b) + c
  {
  }

  /** One element holding all the texts reads like one element for each. */
  lemma {:induction false} JoinedCells(lead: string, texts: seq<string>, post: string, trailing: bool)
    requires texts != []
    ensures RenderCells([Cell(lead, Joined(lead, texts), post)], trailing) == RenderCells(NewCells(lead, texts, post), trailing)
    decreases |texts|
  {
    hide CellText;
    var cells := NewCells(lead, texts, post);
    assert cells[1..] == NewCells(lead, texts[1..], post);
    OneCell(Cell(lead, Joined(lead, texts), post), trailing);
    if |texts| == 1 {
      assert cells == [Cell(lead, texts[0], post)];
      EmptyPlus(texts[0]);
    } else {
      JoinedCells(lead, texts[1..], post, trailing);
      OneCell(Cell(lead, Joined(lead, texts[1..]), post), trailing);
      EachJoined(lead, texts[1..]);
      JoinedParts(lead, texts[0], Joined(lead, texts[1..]), post, Comma(trailing));
    }
  }

  lemma {:induction false} EachJoined(lead: string, texts: seq<string>)
    requires texts != []
    ensures Each(lead, texts) == "," + (lead + Joined(lead, texts))
  {
  }

  lemma {:induction false} JoinedParts(lead: string, text: string, rest: string, post: string, comma: string)
    ensures CellText(Cell(lead, text + ("," + (lead + rest)), post)) + comma
         == CellText(Cell(lead, text, "")) + ("," + (CellText(Cell(lead, rest, post)) + comma))
  {
    EmptyPlus(text);
    TextParts(lead, text, rest, post, comma);
  }

  lemma {:induction false} TextParts(lead: string, text: string, rest: string, post: string, comma: string)
    ensures (lead + ((text + ("," + (lead + rest))) + post)) + comma == (lead + text) + ("," + ((lead + (rest + post)) + comma))
  {
  }

  lemma {:induction false} NoneGoes(i: nat, n: nat)
    requires i <= n
    ensures AllFrom({}, i, n) <==> i == n
  {
    var none: set<nat> := {};
    if i < n {
      assert i !in none;
    }
  }

  /** A list spliced without deletions and placements. */
  lemma {:induction false} SpliceAll(l: List, bodies: seq<string>, i: nat)
    requires WfList(l) && |bodies| == |l.cells| && i <= |l.cells|
    ensures Splice(l, bodies, {}, Nothing, i, "") == Spliced(Rebodied(l, bodies).cells[i..], l.tail)
    decreases |l.cells| - i
  {
    hide AllFrom, WfBody, AllWs;
    EmptyPlus(l.tail);
    if i < |l.cells| {
      var cells := Rebodied(l, bodies).cells;
      SpliceAll(l, bodies, i + 1);
      EmptyPlus(l.cells[i].pre);
      NoneGoes(i + 1, |l.cells|);
      assert cells[i..] == [cells[i]] + cells[i + 1..];
    }
  }

  /** A list spliced without deletions, with an element placed after the last one. */
  lemma {:induction false} SpliceAllAndPlace(l: List, bodies: seq<string>, pl: Placement, i: nat)
    requires WfList(l) && |bodies| == |l.cells| && i < |l.cells| && pl.AfterLast?
    ensures Splice(l, bodies, {}, pl, i, "") == Spliced(Rebodied(l, bodies).cells[i..|l.cells| - 1]
      + LastCells(l.cells[|l.cells| - 1].pre, bodies[|l.cells| - 1], l.cells[|l.cells| - 1].post, pl), l.tail)
    decreases |l.cells| - i
  {
    hide AllFrom, WfBody, AllWs, LastCells;
    var n, cells := |l.cells|, Rebodied(l, bodies).cells;
    var last := LastCells(l.cells[n - 1].pre, bodies[n - 1], l.cells[n - 1].post, pl);
    EmptyPlus(l.tail);
    EmptyPlus(l.cells[i].pre);
    NoneGoes(i + 1, n);
    if i + 1 < n {
      SpliceAllAndPlace(l, bodies, pl, i + 1);
      assert cells[i..n - 1] == [cells[i]] + cells[i + 1..n - 1];
      SeqAssoc([cells[i]], cells[i + 1..n - 1], last);
    } else {
      assert cells[i..n - 1] + last == last;
    }
  }

  /** Rewriting the elements of a list, and nothing else. */
  lemma {:induction false} RebodiedIs(l: List, bodies: seq<string>)
    requires WfList(l) && |bodies| == |l.cells|
    ensures SpliceList(l, bodies, {}, Nothing) == Rebodied(l, bodies)
  {
    SpliceAll(l, bodies, 0);
    assert Rebodied(l, bodies).cells[0..] == Rebodied(l, bodies).cells;
  }

  /** Rewriting the elements of a list and adding new ones at its end. */
  lemma {:induction false} AppendedText(l: List, bodies: seq<string>, lead: string, texts: seq<string>)
    requires WfList(l) && |bodies| == |l.cells| && l.cells != [] && texts != []
    ensures Render(SpliceList(l, bodies, {}, AfterLast(lead, Joined(lead, texts)))) == Render(Appended(Rebodied(l, bodies), lead, texts))
  {
    hide RenderCells, NewCells, Splice;
    var n, l' := |l.cells|, Rebodied(l, bodies);
    var last := l'.cells[n - 1];
    var kept, joined, added := Cell(last.pre, last.body, ""), Cell(lead, Joined(lead, texts), last.post), NewCells(lead, texts, last.post);
    SpliceAllAndPlace(l, bodies, AfterLast(lead, Joined(lead, texts)), 0);
    assert l'.cells[0..n - 1] == l'.cells[..n - 1];
    NewBodies(lead, texts, last.post);
    assert added != [];
    assert [kept, joined] == [kept] + [joined];
    RenderConcat(l'.cells[..n - 1], [kept] + [joined], l.trailing);
    RenderConcat(l'.cells[..n - 1], [kept] + added, l.trailing);
    RenderConcat([kept], [joined], l.trailing);
    RenderConcat([kept], added, l.trailing);
    JoinedCells(lead, texts, last.post, l.trailing);
  }

  /** Adding elements to an empty list. */
  lemma {:induction false} FirstText(l: List, texts: seq<string>)
    requires texts != []
    ensures Render(List([Cell("", " " + Joined(" ", texts), l.tail)], false, "")) == Render(List(NewCells(" ", texts, l.tail), false, ""))
  {
    hide NewCells;
    OneCell(Cell("", " " + Joined(" ", texts), l.tail), false);
    OneCell(Cell(" ", Joined(" ", texts), l.tail), false);
    JoinedCells(" ", texts, l.tail, false);
    SpaceFirst(Joined(" ", texts), l.tail);
  }

  lemma {:induction false} SpaceFirst(text: string, tail: string)
    ensures "" + ((" " + text) + tail) == " " + (text + tail)
  {
  }
}
