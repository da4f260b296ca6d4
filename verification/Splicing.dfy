/**
 The text splicer of the configuration patcher (`apply_edits`).

 An edit replaces the characters `start .. end` of a source by `text`; an insertion has
 `start == end`.  Edits are planned in any order, sorted, and applied in one pass with a cursor.
 The meaning of an edit list is given position by position, without any order or cursor:
 every character that no edit covers is kept, and the texts of the edits that start at a
 position are written just before it.  A text is a sequence of characters standing for the
 bytes of the file.
 */
module Splicing {
  import opened Outcomes

  datatype Edit = Edit(start: nat, end: nat, text: string)

  /** Every edit is a range of a source of `size` characters. */
  predicate Proper(es: seq<Edit>, size: nat) {
    forall i :: 0 <= i < |es| ==> es[i].start <= es[i].end <= size
  }

  // ---- meaning --------------------------------------------------------------

  predicate Covers(e: Edit, p: nat) {
    e.start <= p < e.end
  }

  predicate Covered(es: seq<Edit>, p: nat) {
    es != [] && (Covers(es[0], p) || Covered(es[1..], p))
  }

  /** The texts of the edits starting at `p`, in list order. */
  function TextAt(es: seq<Edit>, p: nat): string {
    if es == [] then ""
    else (if es[0].start == p then es[0].text else "") + TextAt(es[1..], p)
  }

  /** No edit touches the character at `p`. */
  predicate Untouched(es: seq<Edit>, p: nat) {
    TextAt(es, p) == "" && !Covered(es, p)
  }

  /** The character at `p` is deleted, and nothing is written there. */
  predicate Erased(es: seq<Edit>, p: nat) {
    TextAt(es, p) == "" && Covered(es, p)
  }

  /** Two edit lists do the same at `p`. */
  predicate SameAt(a: seq<Edit>, b: seq<Edit>, p: nat) {
    TextAt(a, p) == TextAt(b, p) && (Covered(a, p) <==> Covered(b, p))
  }

  /** What the edits make of the characters `lo .. hi` of the source. */
  function Out(src: string, es: seq<Edit>, lo: nat, hi: nat): string
    requires lo <= hi <= |src|
    decreases hi - lo
  {
    if lo == hi then ""
    else TextAt(es, lo) + (if Covered(es, lo) then "" else [src[lo]]) + Out(src, es, lo + 1, hi)
  }

  /** What the edits make of the source from position `lo` on. */
  function OutFrom(src: string, es: seq<Edit>, lo: nat): string
    requires lo <= |src|
  {
    Out(src, es, lo, |src|) + TextAt(es, |src|)
  }

  /** What the edits make of the whole source. */
  function Denote(src: string, es: seq<Edit>): string {
    OutFrom(src, es, 0)
  }

  /** Neither edit reaches into the other. */
  predicate Compatible(a: Edit, b: Edit) {
    a.end <= b.start || b.end <= a.start
  }

  predicate CompatibleWith(a: Edit, es: seq<Edit>) {
    forall e :: e in es ==> Compatible(a, e)
  }

  /** All the edits of the list are pairwise compatible. */
  predicate Apart(es: seq<Edit>) {
    es != [] ==> CompatibleWith(es[0], es[1..]) && Apart(es[1..])
  }

  /** At most one of any two edits starting at the same place writes something. */
  predicate OneWriter(es: seq<Edit>) {
    es != [] ==>
      && (forall e :: e in es[1..] && e.start == es[0].start ==> e.text == "" || es[0].text == "")
      && OneWriter(es[1..])
  }

  // ---- sorting --------------------------------------------------------------

  predicate KeyLeq(a: Edit, b: Edit) {
    a.start < b.start || (a.start == b.start && a.end <= b.end)
  }

  function InsertByKey(e: Edit, es: seq<Edit>): seq<Edit> {
    if es == [] || KeyLeq(e, es[0]) then [e] + es else [es[0]] + InsertByKey(e, es[1..])
  }

  /** The stable sort by `(start, end)`. */
  function SortByKey(es: seq<Edit>): seq<Edit> {
    if es == [] then [] else InsertByKey(es[0], SortByKey(es[1..]))
  }

  predicate Sorted(es: seq<Edit>) {
    forall i, j :: 0 <= i < j < |es| ==> KeyLeq(es[i], es[j])
  }

  lemma {:induction false} InsertMembers(e: Edit, es: seq<Edit>, x: Edit)
    ensures x in InsertByKey(e, es) <==> x == e || x in es
  {
    if es != [] && !KeyLeq(e, es[0]) {
      InsertMembers(e, es[1..], x);
      assert es == [es[0]] + es[1..];
    }
  }

  lemma {:induction false} SortMembers(es: seq<Edit>, x: Edit)
    ensures x in SortByKey(es) <==> x in es
  {
    if es != [] {
      SortMembers(es[1..], x);
      InsertMembers(es[0], SortByKey(es[1..]), x);
      assert es == [es[0]] + es[1..];
    }
  }

  lemma {:induction false} InsertKeepsSorted(e: Edit, es: seq<Edit>)
    requires Sorted(es)
    ensures Sorted(InsertByKey(e, es))
  {
    if es != [] && !KeyLeq(e, es[0]) {
      InsertKeepsSorted(e, es[1..]);
      var rest := InsertByKey(e, es[1..]);
      forall x | x in rest ensures KeyLeq(es[0], x) {
        InsertMembers(e, es[1..], x);
      }
    }
  }

  lemma {:induction false} SortSorts(es: seq<Edit>)
    ensures Sorted(SortByKey(es))
  {
    if es != [] {
      SortSorts(es[1..]);
      InsertKeepsSorted(es[0], SortByKey(es[1..]));
    }
  }

  lemma {:induction false} InsertKeepsApart(e: Edit, es: seq<Edit>)
    ensures Apart(InsertByKey(e, es)) <==> Apart([e] + es)
  {
    if es != [] && !KeyLeq(e, es[0]) {
      var head, tail := es[0], es[1..];
      assert es == [head] + tail;
      var rest := InsertByKey(e, tail);
      InsertKeepsApart(e, tail);
      CompatibleWithInserted(head, e, tail);
      CompatibleWithCons(e, head, tail);
      ApartHead(head, rest);
      ApartHead(e, tail);
      ApartHead(e, es);
      ApartHead(head, tail);
    }
  }

  lemma {:induction false} CompatibleWithCons(a: Edit, head: Edit, tail: seq<Edit>)
    ensures CompatibleWith(a, [head] + tail) <==> Compatible(a, head) && CompatibleWith(a, tail)
  {
    assert head in [head] + tail && forall x :: x in tail ==> x in [head] + tail;
  }

  lemma {:induction false} CompatibleWithInserted(a: Edit, e: Edit, es: seq<Edit>)
    ensures CompatibleWith(a, InsertByKey(e, es)) <==> Compatible(a, e) && CompatibleWith(a, es)
  {
    forall x ensures x in InsertByKey(e, es) <==> x == e || x in es {
      InsertMembers(e, es, x);
    }
    assert e in InsertByKey(e, es);
  }

  lemma {:induction false} ApartHead(e: Edit, es: seq<Edit>)
    ensures Apart([e] + es) <==> CompatibleWith(e, es) && Apart(es)
  {
    assert ([e] + es)[1..] == es;
  }

  /** Sorting neither creates nor removes an overlap. */
  lemma {:induction false} SortKeepsApart(es: seq<Edit>)
    ensures Apart(SortByKey(es)) <==> Apart(es)
  {
    if es != [] {
      var rest := SortByKey(es[1..]);
      SortKeepsApart(es[1..]);
      InsertKeepsApart(es[0], rest);
      ApartHead(es[0], rest);
      forall x ensures x in rest <==> x in es[1..] {
        SortMembers(es[1..], x);
      }
    }
  }

  lemma {:induction false} InsertKeepsText(e: Edit, es: seq<Edit>, p: nat)
    requires forall x :: x in es && x.start == e.start ==> x.text == "" || e.text == ""
    ensures TextAt(InsertByKey(e, es), p) == TextAt([e] + es, p)
  {
    if es != [] && !KeyLeq(e, es[0]) {
      var head, tail := es[0], es[1..];
      assert es == [head] + tail && head in es;
      InsertKeepsText(e, tail, p);
      ConsAt(e, tail, p);
      ConsAt(head, InsertByKey(e, tail), p);
      ConsAt(head, tail, p);
      ConsAt(e, es, p);
    }
  }

  /** A single edit put in front of a list. */
  lemma {:induction false} ConsAt(e: Edit, rest: seq<Edit>, p: nat)
    ensures TextAt([e] + rest, p) == (if p == e.start then e.text else "") + TextAt(rest, p)
    ensures Covered([e] + rest, p) <==> Covers(e, p) || Covered(rest, p)
  {
    assert ([e] + rest)[1..] == rest;
  }

  /** With one writer per position, sorting does not change what is written where. */
  lemma {:induction false} SortKeepsText(es: seq<Edit>, p: nat)
    requires OneWriter(es)
    ensures TextAt(SortByKey(es), p) == TextAt(es, p)
  {
    if es != [] {
      var rest := SortByKey(es[1..]);
      SortKeepsText(es[1..], p);
      forall x ensures x in rest <==> x in es[1..] {
        SortMembers(es[1..], x);
      }
      InsertKeepsText(es[0], rest, p);
      assert ([es[0]] + rest)[1..] == rest;
    }
  }

  lemma {:induction false} NothingApart()
    ensures Apart([])
  {
  }

  /** Each edit ends before every later one starts. */
  predicate Ordered(es: seq<Edit>) {
    forall i, j :: 0 <= i < j < |es| ==> es[i].end <= es[j].start
  }

  /** In a sorted list, pairwise compatible means each edit ends before the next ones start. */
  lemma {:induction false} ApartMeansOrdered(es: seq<Edit>)
    requires Sorted(es) && forall i :: 0 <= i < |es| ==> es[i].start <= es[i].end
    ensures Apart(es) <==> Ordered(es)
  {
    hide Apart;
    NothingApart();
    if es != [] {
      var rest := es[1..];
      ApartMeansOrdered(rest);
      assert es == [es[0]] + rest;
      ApartHead(es[0], rest);
      if Ordered(es) {
        forall x | x in rest ensures Compatible(es[0], x) {
          var k :| 0 <= k < |rest| && rest[k] == x;
          assert es[k + 1] == x;
        }
      }
      if Apart(es) {
        forall j | 0 < j < |es| ensures es[0].end <= es[j].start {
          assert rest[j - 1] in rest;
          assert KeyLeq(es[0], es[j]);
        }
      }
    }
  }

  // ---- reading the meaning --------------------------------------------------

  lemma {:induction false} TextAtConcat(a: seq<Edit>, b: seq<Edit>, p: nat)
    ensures TextAt(a + b, p) == TextAt(a, p) + TextAt(b, p)
  {
    if a == [] {
      assert a + b == b;
    } else {
      assert (a + b)[1..] == a[1..] + b;
      TextAtConcat(a[1..], b, p);
    }
  }

  lemma {:induction false} CoveredConcat(a: seq<Edit>, b: seq<Edit>, p: nat)
    ensures Covered(a + b, p) <==> Covered(a, p) || Covered(b, p)
  {
    if a == [] {
      assert a + b == b;
    } else {
      assert (a + b)[1..] == a[1..] + b;
      CoveredConcat(a[1..], b, p);
    }
  }

  lemma {:induction false} CoveredBy(es: seq<Edit>, p: nat)
    ensures Covered(es, p) <==> exists e :: e in es && Covers(e, p)
  {
    if es != [] {
      CoveredBy(es[1..], p);
      assert es == [es[0]] + es[1..];
    }
  }

  lemma {:induction false} NotCovered(es: seq<Edit>, p: nat)
    requires forall e :: e in es ==> !Covers(e, p)
    ensures !Covered(es, p)
  {
    CoveredBy(es, p);
  }

  lemma {:induction false} NoTextAt(es: seq<Edit>, p: nat)
    requires forall e :: e in es && e.start == p ==> e.text == ""
    ensures TextAt(es, p) == ""
  {
    if es != [] {
      assert es == [es[0]] + es[1..];
      NoTextAt(es[1..], p);
    }
  }

  /** Two edit lists that agree on a stretch make the same of it. */
  lemma {:induction false} OutAgree(src: string, a: seq<Edit>, b: seq<Edit>, lo: nat, hi: nat)
    requires lo <= hi <= |src|
    requires forall p :: lo <= p < hi ==> SameAt(a, b, p)
    ensures Out(src, a, lo, hi) == Out(src, b, lo, hi)
    decreases hi - lo
  {
    if lo < hi {
      assert SameAt(a, b, lo);
      OutAgree(src, a, b, lo + 1, hi);
    }
  }

  lemma {:induction false} OutSplit(src: string, es: seq<Edit>, lo: nat, mid: nat, hi: nat)
    requires lo <= mid <= hi <= |src|
    ensures Out(src, es, lo, hi) == Out(src, es, lo, mid) + Out(src, es, mid, hi)
    decreases mid - lo
  {
    if lo < mid {
      OutSplit(src, es, lo + 1, mid, hi);
    }
  }

  /** A stretch that no edit touches is kept. */
  lemma {:induction false} OutKept(src: string, es: seq<Edit>, lo: nat, hi: nat)
    requires lo <= hi <= |src|
    requires forall p :: lo <= p < hi ==> Untouched(es, p)
    ensures Out(src, es, lo, hi) == src[lo..hi]
    decreases hi - lo
  {
    if lo < hi {
      assert Untouched(es, lo);
      OutKept(src, es, lo + 1, hi);
    }
  }

  /** A stretch that is deleted and receives no text disappears. */
  lemma {:induction false} OutGone(src: string, es: seq<Edit>, lo: nat, hi: nat)
    requires lo <= hi <= |src|
    requires forall p :: lo <= p < hi ==> Erased(es, p)
    ensures Out(src, es, lo, hi) == ""
    decreases hi - lo
  {
    hide TextAt, Covered;
    if lo < hi {
      assert Erased(es, lo);
      OutGone(src, es, lo + 1, hi);
    }
  }

  lemma {:induction false} Assoc(a: string, b: string, c: string)
    ensures a + (b + c) == (a + b) + c
  {
  }

  lemma {:induction false} EmptyPlus(s: string)
    ensures "" + s == s && s + "" == s
  {
  }

  // ---- the one-pass algorithm ----------------------------------------------

  lemma {:induction false} AtTheEnd(src: string, es: seq<Edit>)
    ensures OutFrom(src, es, |src|) == TextAt(es, |src|)
  {
  }

  /** An insertion put in front of a list whose other edits come later. */
  lemma {:induction false} ConsInsertion(src: string, e: Edit, rest: seq<Edit>)
    requires e.start == e.end <= |src|
    ensures OutFrom(src, [e] + rest, e.start) == e.text + OutFrom(src, rest, e.start)
  {
    hide TextAt, Covered, Out, OutFrom;
    AtTheEnd(src, [e] + rest);
    AtTheEnd(src, rest);
    var es, p := [e] + rest, e.start;
    ConsAt(e, rest, p);
    if p < |src| {
      forall q | p < q <= |src| ensures SameAt(es, rest, q) {
        ConsAt(e, rest, q);
        EmptyPlus(TextAt(rest, q));
      }
      TailAgree(src, es, rest, p + 1);
      OutFromSplit(src, es, p, p + 1);
      OutFromSplit(src, rest, p, p + 1);
      OneChar(src, es, p);
      OneChar(src, rest, p);
      Assoc(e.text, TextAt(rest, p), if Covered(rest, p) then "" else [src[p]]);
      Assoc(e.text, Out(src, rest, p, p + 1), OutFrom(src, rest, p + 1));
    }
  }

  lemma {:induction false} OneChar(src: string, es: seq<Edit>, p: nat)
    requires p < |src|
    ensures Out(src, es, p, p + 1) == TextAt(es, p) + if Covered(es, p) then "" else [src[p]]
  {
    assert Out(src, es, p + 1, p + 1) == "";
  }

  lemma {:induction false} TailAgree(src: string, a: seq<Edit>, b: seq<Edit>, lo: nat)
    requires lo <= |src|
    requires forall p :: lo <= p <= |src| ==> SameAt(a, b, p)
    ensures OutFrom(src, a, lo) == OutFrom(src, b, lo)
  {
    OutAgree(src, a, b, lo, |src|);
    assert SameAt(a, b, |src|);
  }

  /** A replacement put in front of a list whose other edits come later. */
  lemma {:induction false} ConsReplacement(src: string, e: Edit, rest: seq<Edit>)
    requires e.start < e.end <= |src|
    requires forall x :: x in rest ==> e.end <= x.start
    ensures OutFrom(src, [e] + rest, e.start) == e.text + OutFrom(src, rest, e.end)
  {
    ReplacedStretch(src, e, rest);
    OutFromSplit(src, [e] + rest, e.start, e.end);
    PastEdit(src, e, rest);
  }

  lemma {:induction false} OutFromSplit(src: string, es: seq<Edit>, lo: nat, mid: nat)
    requires lo <= mid <= |src|
    ensures OutFrom(src, es, lo) == Out(src, es, lo, mid) + OutFrom(src, es, mid)
  {
    OutSplit(src, es, lo, mid, |src|);
    Assoc(Out(src, es, lo, mid), Out(src, es, mid, |src|), TextAt(es, |src|));
  }

  lemma {:induction false} PastEdit(src: string, e: Edit, rest: seq<Edit>)
    requires e.start < e.end <= |src|
    ensures OutFrom(src, [e] + rest, e.end) == OutFrom(src, rest, e.end)
  {
    forall p | e.end <= p <= |src| ensures SameAt([e] + rest, rest, p) {
      ConsAt(e, rest, p);
    }
    TailAgree(src, [e] + rest, rest, e.end);
  }

  lemma {:induction false} ReplacedStretch(src: string, e: Edit, rest: seq<Edit>)
    requires e.start < e.end <= |src|
    requires forall x :: x in rest ==> e.end <= x.start
    ensures Out(src, [e] + rest, e.start, e.end) == e.text
  {
    var es := [e] + rest;
    forall p | e.start < p < e.end ensures Erased(es, p) {
      ConsAt(e, rest, p);
      NoTextAt(rest, p);
    }
    OutGone(src, es, e.start + 1, e.end);
    ConsAt(e, rest, e.start);
    NoTextAt(rest, e.start);
  }

  /** Dropping the first of a list of later edits: its part of the result comes first. */
  lemma {:induction false} OutFromStep(src: string, e: Edit, rest: seq<Edit>, cursor: nat)
    requires e.start <= e.end <= |src| && cursor <= e.start
    requires forall x :: x in rest ==> e.end <= x.start
    ensures OutFrom(src, [e] + rest, cursor)
         == src[cursor..e.start] + e.text + OutFrom(src, rest, e.end)
  {
    var es := [e] + rest;
    forall p | cursor <= p < e.start ensures Untouched(es, p) {
      ConsAt(e, rest, p);
      NoTextAt(rest, p);
      NotCovered(rest, p);
    }
    OutFromSplit(src, es, cursor, e.start);
    OutKept(src, es, cursor, e.start);
    if e.start == e.end {
      ConsInsertion(src, e, rest);
    } else {
      ConsReplacement(src, e, rest);
    }
    Assoc(src[cursor..e.start], e.text, OutFrom(src, rest, e.end));
  }

  lemma {:induction false} StepAt(src: string, sorted: seq<Edit>, i: nat, cursor: nat, out: string)
    requires i < |sorted| && Ordered(sorted) && Proper(sorted, |src|)
    requires cursor <= sorted[i].start
    ensures out + OutFrom(src, sorted[i..], cursor)
         == out + (src[cursor..sorted[i].start] + sorted[i].text) + OutFrom(src, sorted[i + 1..], sorted[i].end)
  {
    var rest := sorted[i + 1..];
    assert sorted[i..] == [sorted[i]] + rest;
    forall x | x in rest ensures sorted[i].end <= x.start {
      var k :| i < k < |sorted| && sorted[k] == x;
    }
    OutFromStep(src, sorted[i], rest, cursor);
    Assoc(out, src[cursor..sorted[i].start] + sorted[i].text, OutFrom(src, rest, sorted[i].end));
  }

  /** The meaning of a list with one writer per position does not depend on its order. */
  lemma {:induction false} DenoteIgnoresOrder(src: string, es: seq<Edit>)
    requires OneWriter(es)
    ensures Denote(src, SortByKey(es)) == Denote(src, es)
  {
    var sorted := SortByKey(es);
    forall p: nat ensures SameAt(sorted, es, p) {
      SortKeepsText(es, p);
      CoveredBy(es, p);
      CoveredBy(sorted, p);
      forall x ensures x in sorted <==> x in es {
        SortMembers(es, x);
      }
    }
    TailAgree(src, sorted, es, 0);
  }

  /**
   Applies planned edits to a source.  It fails exactly when two edits overlap, and otherwise
   produces the position-by-position meaning of the list.
   */
  method ApplyEdits(source: string, edits: seq<Edit>) returns (r: Outcome<string, string>)
    requires Proper(edits, |source|)
    ensures r.Ok? <==> Apart(edits)
    ensures r.Ok? ==> r.value == Denote(source, SortByKey(edits))
    ensures r.Ok? && OneWriter(edits) ==> r.value == Denote(source, edits)
  {
    hide Apart, OneWriter, OutFrom, Sorted, SortByKey;
    var sorted := SortByKey(edits);
    SortedFacts(source, edits);
    var out := "";
    var cursor := 0;
    var i := 0;
    ghost var clean, meaning := Ordered(sorted), Denote(source, sorted);
    assert sorted[0..] == sorted;
    assert out + meaning == meaning;
    while i < |sorted|
      invariant 0 <= i <= |sorted|
      invariant cursor == if i == 0 then 0 else sorted[i - 1].end
      invariant cursor <= |source|
      invariant forall j, k :: 0 <= j < k < i ==> sorted[j].end <= sorted[k].start
      invariant clean ==> out + OutFrom(source, sorted[i..], cursor) == meaning
    {
      var edit := sorted[i];
      if edit.start < cursor {
        return Err("overlapping splice edits");
      }
      if clean {
        StepAt(source, sorted, i, cursor, out);
      }
      out := out + (source[cursor..edit.start] + edit.text);
      cursor := edit.end;
      i := i + 1;
    }
    assert sorted[i..] == [];
    assert clean;
    NoEditsLeft(source, cursor);
    return Ok(out + source[cursor..]);
  }

  lemma {:induction false} NoEditsLeft(src: string, cursor: nat)
    requires cursor <= |src|
    ensures OutFrom(src, [], cursor) == src[cursor..]
  {
    OutKept(src, [], cursor, |src|);
  }

  lemma {:induction false} SortedFacts(src: string, edits: seq<Edit>)
    requires Proper(edits, |src|)
    ensures Sorted(SortByKey(edits)) && Proper(SortByKey(edits), |src|)
    ensures Apart(edits) <==> Ordered(SortByKey(edits))
    ensures OneWriter(edits) ==> Denote(src, SortByKey(edits)) == Denote(src, edits)
  {
    var sorted := SortByKey(edits);
    SortSorts(edits);
    SortKeepsApart(edits);
    forall k | 0 <= k < |sorted| ensures sorted[k].start <= sorted[k].end <= |src| {
      SortMembers(edits, sorted[k]);
    }
    ApartMeansOrdered(sorted);
    if OneWriter(edits) {
      DenoteIgnoresOrder(src, edits);
    }
  }
}
