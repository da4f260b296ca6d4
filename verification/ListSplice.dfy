/**
 What deleting elements of a list, rewriting others in place and placing one new element makes
 of the list's text: again a list of the same grammar, given here element by element.
 */
module ListSplice {
  import opened Splicing
  import opened JsonLayout
  import opened RunDeletion

  /**
   Where the new element goes: nowhere, right after the last element that stays
   (`place_handler_in_group`), or right after the last element whether or not it stays
   (`insert_array_append`).
   */
  datatype Placement = Nothing | AfterSurvivor(lead: string, body: string) | AfterLast(lead: string, body: string)

  function Placed(pl: Placement): string {
    if pl.Nothing? then "" else "," + (pl.lead + pl.body)
  }

  datatype Spliced = Spliced(cells: seq<Cell>, tail: string)

  /** The last element that stays, with the white space that follows it and the new element. */
  function LastCells(pre: string, body: string, post: string, pl: Placement): seq<Cell> {
    if pl.Nothing? then [Cell(pre, body, post)] else [Cell(pre, body, ""), Cell(pl.lead, pl.body, post)]
  }

  /** The same when a run up to the end of the list goes, leaving `rest` of its white space. */
  function LastCellsBeforeRun(pre: string, body: string, post: string, rest: string, pl: Placement): seq<Cell> {
    if pl.AfterLast? then [Cell(pre, body, post), Cell(pl.lead, pl.body, rest)]
    else LastCells(pre, body, post + rest, pl)
  }

  /**
   The elements `i ..` after the splice: `bodies` are the new texts of the elements that stay,
   and `carry` is the white space left over by a deleted run just before.
   */
  function Splice(l: List, bodies: seq<string>, kill: set<nat>, pl: Placement, i: nat, carry: string): Spliced
    requires |bodies| == |l.cells| && i <= |l.cells|
    decreases |l.cells| - i
  {
    var n := |l.cells|;
    if i == n then Spliced([], carry + l.tail)
    else
      var c := l.cells[i];
      if i in kill then
        var left := if i > 0 && i - 1 in kill then carry else carry + c.pre;
        if !l.trailing && AllFrom(kill, i, n) then Spliced([], left + l.cells[n - 1].post)
        else Splice(l, bodies, kill, pl, i + 1, left)
      else if !AllFrom(kill, i + 1, n) then
        var rest := Splice(l, bodies, kill, pl, i + 1, "");
        Spliced([Cell(carry + c.pre, bodies[i], c.post)] + rest.cells, rest.tail)
      else if l.trailing || i + 1 == n then
        Spliced(LastCells(carry + c.pre, bodies[i], c.post, pl), Splice(l, bodies, kill, pl, i + 1, "").tail)
      else
        Spliced(LastCellsBeforeRun(carry + c.pre, bodies[i], c.post, l.cells[n - 1].post, pl), "")
  }

  function SpliceList(l: List, bodies: seq<string>, kill: set<nat>, pl: Placement): List
    requires |bodies| == |l.cells|
  {
    var s := Splice(l, bodies, kill, pl, 0, "");
    List(s.cells, l.trailing && s.cells != [], s.tail)
  }

  // ---- the elements of the result ------------------------------------------------

  /** The texts of the elements `i ..` that stay, in order. */
  function Survivors(bodies: seq<string>, kill: set<nat>, i: nat): seq<string>
    requires i <= |bodies|
    decreases |bodies| - i
  {
    if i == |bodies| then []
    else (if i in kill then [] else [bodies[i]]) + Survivors(bodies, kill, i + 1)
  }

  lemma {:induction false} SurvivorsEmpty(bodies: seq<string>, kill: set<nat>, i: nat)
    requires i <= |bodies|
    ensures Survivors(bodies, kill, i) == [] <==> AllFrom(kill, i, |bodies|)
    decreases |bodies| - i
  {
    if i < |bodies| {
      SurvivorsEmpty(bodies, kill, i + 1);
      assert AllFrom(kill, i, |bodies|) <==> i in kill && AllFrom(kill, i + 1, |bodies|);
    }
  }

  function NewBody(pl: Placement): seq<string> {
    if pl.Nothing? then [] else [pl.body]
  }

  /** The elements that stay keep their order, and the new one comes last. */
  lemma {:induction false} SplicedBodies(l: List, bodies: seq<string>, kill: set<nat>, pl: Placement, i: nat, carry: string)
    requires |bodies| == |l.cells| && i <= |l.cells|
    ensures Bodies(Splice(l, bodies, kill, pl, i, carry).cells)
         == Survivors(bodies, kill, i) + if AllFrom(kill, i, |bodies|) then [] else NewBody(pl)
    decreases |l.cells| - i
  {
    var n := |l.cells|;
    if i < n {
      var c := l.cells[i];
      assert AllFrom(kill, i, n) <==> i in kill && AllFrom(kill, i + 1, n);
      SurvivorsEmpty(bodies, kill, i);
      SurvivorsEmpty(bodies, kill, i + 1);
      if i in kill {
        var left := if i > 0 && i - 1 in kill then carry else carry + c.pre;
        SplicedBodies(l, bodies, kill, pl, i + 1, left);
      } else if !AllFrom(kill, i + 1, n) {
        SplicedBodies(l, bodies, kill, pl, i + 1, "");
        var rest := Splice(l, bodies, kill, pl, i + 1, "").cells;
        var cells := [Cell(carry + c.pre, bodies[i], c.post)] + rest;
        assert cells[1..] == rest;
      } else {
        LastBodies(carry + c.pre, bodies[i], c.post, l.cells[n - 1].post, pl);
      }
    }
  }

  lemma {:induction false} LastBodies(pre: string, body: string, post: string, rest: string, pl: Placement)
    ensures Bodies(LastCells(pre, body, post, pl)) == [body] + NewBody(pl)
    ensures Bodies(LastCellsBeforeRun(pre, body, post, rest, pl)) == [body] + NewBody(pl)
  {
    OneCell(Cell(pre, body, post), false);
    OneCell(Cell(pre, body, post + rest), false);
    if pl.Nothing? {
      return;
    }
    TwoCells(Cell(pre, body, ""), Cell(pl.lead, pl.body, post), false);
    TwoCells(Cell(pre, body, ""), Cell(pl.lead, pl.body, post + rest), false);
    TwoCells(Cell(pre, body, post), Cell(pl.lead, pl.body, rest), false);
  }

  function Comma(trailing: bool): string {
    if trailing then "," else ""
  }

  lemma {:induction false} OneCell(a: Cell, trailing: bool)
    ensures Bodies([a]) == [a.body]
    ensures RenderCells([a], trailing) == CellText(a) + Comma(trailing)
  {
    assert [a][1..] == [];
  }

  lemma {:induction false} TwoCells(a: Cell, b: Cell, trailing: bool)
    ensures Bodies([a, b]) == [a.body, b.body]
    ensures RenderCells([a, b], trailing) == CellText(a) + ("," + (CellText(b) + Comma(trailing)))
  {
    assert [a, b][1..] == [b];
    OneCell(b, trailing);
  }

  // ---- the grammar of the result ---------------------------------------------------

  predicate WfPlacement(pl: Placement) {
    pl.Nothing? || (AllWs(pl.lead) && WfBody(pl.body))
  }

  ghost predicate WfBodies(bodies: seq<string>, kill: set<nat>) {
    forall i :: 0 <= i < |bodies| && i !in kill ==> WfBody(bodies[i])
  }

  lemma {:induction false} SplicedCellsWf(l: List, bodies: seq<string>, kill: set<nat>, pl: Placement, i: nat, carry: string)
    requires WfList(l) && |bodies| == |l.cells| && i <= |l.cells|
    requires WfBodies(bodies, kill) && WfPlacement(pl) && AllWs(carry)
    ensures WfCells(Splice(l, bodies, kill, pl, i, carry).cells)
    ensures AllWs(Splice(l, bodies, kill, pl, i, carry).tail)
    ensures Splice(l, bodies, kill, pl, i, carry).cells == [] <==> AllFrom(kill, i, |l.cells|)
    decreases |l.cells| - i
  {
    var n := |l.cells|;
    if i < n {
      var c := l.cells[i];
      assert WfCell(c) && WfCell(l.cells[n - 1]);
      assert AllFrom(kill, i, n) <==> i in kill && AllFrom(kill, i + 1, n);
      AllWsConcat(carry, c.pre);
      AllWsConcat(carry + c.pre, l.cells[n - 1].post);
      AllWsConcat(carry, l.cells[n - 1].post);
      AllWsConcat(c.post, l.cells[n - 1].post);
      hide AllWs, WfBody;
      if i in kill {
        var left := if i > 0 && i - 1 in kill then carry else carry + c.pre;
        SplicedCellsWf(l, bodies, kill, pl, i + 1, left);
      } else {
        SplicedCellsWf(l, bodies, kill, pl, i + 1, "");
      }
    }
  }

  lemma {:induction false} SplicedTail(l: List, bodies: seq<string>, kill: set<nat>, pl: Placement, i: nat, carry: string)
    requires WfList(l) && !l.trailing && |bodies| == |l.cells| && i < |l.cells|
    requires !AllFrom(kill, i, |l.cells|)
    ensures Splice(l, bodies, kill, pl, i, carry).tail == ""
    decreases |l.cells| - i
  {
    var n := |l.cells|;
    assert AllFrom(kill, i, n) <==> i in kill && AllFrom(kill, i + 1, n);
    if i in kill {
      var left := if i > 0 && i - 1 in kill then carry else carry + l.cells[i].pre;
      SplicedTail(l, bodies, kill, pl, i + 1, left);
    } else if !AllFrom(kill, i + 1, n) {
      SplicedTail(l, bodies, kill, pl, i + 1, "");
    }
  }

  /** The result is a list of the grammar, with the surviving elements and the new one. */
  lemma {:induction false} SplicedListWf(l: List, bodies: seq<string>, kill: set<nat>, pl: Placement)
    requires WfList(l) && |bodies| == |l.cells|
    requires WfBodies(bodies, kill) && WfPlacement(pl)
    ensures WfList(SpliceList(l, bodies, kill, pl))
    ensures Bodies(SpliceList(l, bodies, kill, pl).cells)
         == Survivors(bodies, kill, 0) + if AllFrom(kill, 0, |bodies|) then [] else NewBody(pl)
  {
    SplicedCellsWf(l, bodies, kill, pl, 0, "");
    SplicedBodies(l, bodies, kill, pl, 0, "");
    if !l.trailing && !AllFrom(kill, 0, |l.cells|) {
      SplicedTail(l, bodies, kill, pl, 0, "");
    }
  }

  // ---- the text of the result --------------------------------------------------------

  /** What an edit list does to a position that is not in a rewritten element. */
  ghost predicate Does(es: seq<Edit>, p: nat, at: nat, text: string, taken: bool) {
    TextAt(es, p) == (if p == at then text else "") && (Covered(es, p) <==> taken)
  }

  /** In cell `i`, outside an element that stays, the edits write `text` at `q` and take what `Taken` says. */
  ghost predicate CellDoes(base: nat, l: List, kill: set<nat>, es: seq<Edit>, i: nat, q: nat, text: string)
    requires i < |l.cells|
  {
    forall p: nat :: InCell(base, l, i, p)
        && (i in kill || p < BodyStart(base, l.cells, i) || BodyEnd(base, l.cells, i) <= p)
      ==> Does(es, p, q, text, Taken(base, l, kill, i, p))
  }

  /** From the end of the elements to the closing bracket, the edits only write `text` at `q`. */
  ghost predicate TailDoes(base: nat, l: List, es: seq<Edit>, q: nat, text: string) {
    forall p: nat :: ListEnd(base, l) - |l.tail| <= p <= ListEnd(base, l) ==> Does(es, p, q, text, false)
  }

  /** The position at which the new element is written: after the body of element `at`. */
  function WriteAt(base: nat, l: List, at: nat): nat
    requires l.cells != [] ==> at < |l.cells|
  {
    if l.cells == [] then 0 else BodyEnd(base, l.cells, at)
  }

  /**
   The edits `es` delete the elements `kill` of the list at `base`, make `bodies[i]` of each
   other element, write `text` after the body of element `at`, and do nothing else up to and
   including the closing bracket.
   */
  ghost predicate SpliceEdits(src: string, base: nat, l: List, bodies: seq<string>, kill: set<nat>, es: seq<Edit>, at: nat, text: string) {
    && Stands(src, base, l)
    && |bodies| == |l.cells|
    && (l.cells == [] ==> text == "")
    && (l.cells != [] ==> at < |l.cells|)
    && (forall i: nat :: i < |l.cells| ==> CellDoes(base, l, kill, es, i, WriteAt(base, l, at), text))
    && (forall i: nat :: i < |l.cells| && i !in kill ==> BodyOut(src, base, l, es, i, bodies[i]))
    && TailDoes(base, l, es, WriteAt(base, l, at), text)
  }

  ghost predicate BodyOut(src: string, base: nat, l: List, es: seq<Edit>, i: nat, body: string)
    requires i < |l.cells|
  {
    && BodyEnd(base, l.cells, i) <= |src|
    && Out(src, es, BodyStart(base, l.cells, i), BodyEnd(base, l.cells, i)) == body
  }

  /** A kept stretch. */
  lemma {:induction false} KeptStretch(src: string, es: seq<Edit>, lo: nat, s: string)
    requires Holds(src, lo, s)
    requires forall p: nat :: lo <= p < lo + |s| ==> Untouched(es, p)
    ensures Out(src, es, lo, lo + |s|) == s
  {
    OutKept(src, es, lo, lo + |s|);
  }

  /** A kept stretch with a text written in front of it. */
  lemma {:induction false} KeptAfterText(src: string, es: seq<Edit>, lo: nat, s: string, text: string)
    requires Holds(src, lo, s) && s != ""
    requires forall p: nat :: lo <= p < lo + |s| ==> Does(es, p, lo, text, false)
    ensures Out(src, es, lo, lo + |s|) == text + s
  {
    forall p: nat | lo + 1 <= p < lo + |s| ensures Untouched(es, p) {
      assert Does(es, p, lo, text, false);
    }
    OutKept(src, es, lo + 1, lo + |s|);
    assert Does(es, lo, lo, text, false);
    assert src[lo + 0] == s[0];
    assert [src[lo]] + src[lo + 1..lo + |s|] == s;
    Assoc(text, [src[lo]], src[lo + 1..lo + |s|]);
  }

  /** A kept stretch in which nothing is written, except possibly in front of it. */
  lemma {:induction false} StretchOut(src: string, es: seq<Edit>, lo: nat, s: string, q: nat, text: string)
    requires Holds(src, lo, s) && s != ""
    requires forall p: nat :: lo <= p < lo + |s| ==> Does(es, p, q, text, false)
    requires text == "" || q <= lo || lo + |s| <= q
    ensures Out(src, es, lo, lo + |s|) == (if q == lo then text else "") + s
  {
    if q == lo {
      KeptAfterText(src, es, lo, s, text);
    } else {
      forall p: nat | lo <= p < lo + |s| ensures Untouched(es, p) {
        assert Does(es, p, q, text, false);
      }
      KeptStretch(src, es, lo, s);
    }
  }

}
