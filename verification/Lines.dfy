/**
 The line conventions that an insertion copies from the source: its newline and the indentation
 of the line an element starts on.
 */
module Lines {
  import opened JsonLayout

  predicate Blank(c: char) {
    c == ' ' || c == '\t'
  }

  function LineStart(src: string, p: nat): (q: nat)
    requires p <= |src|
    ensures q <= p
  {
    if p > 0 && src[p - 1] != '\n' then LineStart(src, p - 1) else p
  }

  function IndentEnd(src: string, p: nat): (q: nat)
    requires p <= |src|
    ensures p <= q <= |src|
    ensures forall k :: p <= k < q ==> Blank(src[k])
    decreases |src| - p
  {
    if p < |src| && Blank(src[p]) then IndentEnd(src, p + 1) else p
  }

  /** The blanks at the start of the line of `pos`, cut off at `pos`. */
  function LineIndent(src: string, pos: nat): (r: string)
    requires pos <= |src|
    ensures AllWs(r) && forall k :: 0 <= k < |r| ==> Blank(r[k])
  {
    var start := LineStart(src, pos);
    var end := IndentEnd(src, start);
    src[start..if pos < end then pos else end]
  }

  /**
   The stretch from `start` to `end` is the longest stretch of blanks at the start of the line of
   `pos` that does not go beyond `pos`.
   */
  predicate IsIndent(src: string, pos: nat, start: nat, end: nat)
    requires start <= end <= pos <= |src|
  {
    && (start == 0 || src[start - 1] == '\n')
    && (forall k :: start <= k < pos ==> src[k] != '\n')
    && (forall k :: start <= k < end ==> src[k] == ' ' || src[k] == '\t')
    && (end < pos ==> src[end] != ' ' && src[end] != '\t')
  }

  lemma {:induction false} LineStartIs(src: string, p: nat)
    requires p <= |src|
    ensures var q := LineStart(src, p); (q == 0 || src[q - 1] == '\n') && forall k :: q <= k < p ==> src[k] != '\n'
  {
    if p > 0 && src[p - 1] != '\n' {
      LineStartIs(src, p - 1);
    }
  }

  lemma {:induction false} IndentEndIs(src: string, p: nat)
    requires p <= |src|
    ensures IndentEnd(src, p) < |src| ==> !Blank(src[IndentEnd(src, p)])
    decreases |src| - p
  {
    if p < |src| && Blank(src[p]) {
      IndentEndIs(src, p + 1);
    }
  }

  /** The indentation is the longest stretch of blanks after the last line feed before the position, cut off there. */
  lemma {:induction false} LineIndentIs(src: string, pos: nat) returns (start: nat, end: nat)
    requires pos <= |src|
    ensures start <= end <= pos && IsIndent(src, pos, start, end) && LineIndent(src, pos) == src[start..end]
  {
    LineStartIs(src, pos);
    start := LineStart(src, pos);
    IndentEndIs(src, start);
    end := if pos < IndentEnd(src, start) then pos else IndentEnd(src, start);
  }

  method IndentOfLine(src: string, pos: nat) returns (r: string)
    requires pos <= |src|
    ensures r == LineIndent(src, pos)
  {
    var lineStart := pos;
    while lineStart > 0 && src[lineStart - 1] != '\n'
      invariant 0 <= lineStart <= pos
      invariant LineStart(src, lineStart) == LineStart(src, pos)
    {
      lineStart := lineStart - 1;
    }
    var indentEnd := lineStart;
    while indentEnd < |src| && Blank(src[indentEnd])
      invariant lineStart <= indentEnd <= |src|
      invariant IndentEnd(src, indentEnd) == IndentEnd(src, lineStart)
    {
      indentEnd := indentEnd + 1;
    }
    var smaller := if pos < indentEnd then pos else indentEnd;
    var end := if smaller < lineStart then lineStart else smaller;
    return src[lineStart..end];
  }

  /** The newline convention, taken from the first line feed at or after `p`. */
  function NewlineFrom(src: string, p: nat): (r: string)
    requires p <= |src|
    ensures r == "\n" || r == "\r\n"
    decreases |src| - p
  {
    if p == |src| then "\n"
    else if src[p] != '\n' then NewlineFrom(src, p + 1)
    else if p > 0 && src[p - 1] == '\r' then "\r\n" else "\n"
  }

  /** No line feed stands between the positions. */
  predicate NoLineFeed(src: string, from: int, k: int)
    requires 0 <= from && k <= |src|
  {
    forall j :: from <= j < k ==> src[j] != '\n'
  }

  lemma {:induction false} NewlineStep(src: string, p: nat, k: nat)
    requires p <= k <= |src| && NoLineFeed(src, p, k) && (k < |src| ==> src[k] == '\n')
    ensures NewlineFrom(src, p) == if 0 < k < |src| && src[k - 1] == '\r' then "\r\n" else "\n"
    decreases k - p
  {
    if p < k {
      NewlineStep(src, p + 1, k);
    }
  }

  /** The newline of a text: decided by the character before its first line feed, and a line feed if it has none. */
  predicate IsNewline(src: string, r: string) {
    && (NoLineFeed(src, 0, |src|) ==> r == "\n")
    && forall k :: 0 <= k < |src| && src[k] == '\n' && NoLineFeed(src, 0, k) ==>
         if k > 0 && src[k - 1] == '\r' then r == "\r\n" else r == "\n"
  }

  lemma {:induction false} NewlineIs(src: string)
    ensures IsNewline(src, NewlineFrom(src, 0))
  {
    if NoLineFeed(src, 0, |src|) {
      NewlineStep(src, 0, |src|);
    }
    forall k | 0 <= k < |src| && src[k] == '\n' && NoLineFeed(src, 0, k)
      ensures if k > 0 && src[k - 1] == '\r' then NewlineFrom(src, 0) == "\r\n" else NewlineFrom(src, 0) == "\n"
    {
      NewlineStep(src, 0, k);
    }
  }

  method DetectNewline(src: string) returns (r: string)
    ensures r == NewlineFrom(src, 0)
    ensures IsNewline(src, r)
  {
    NewlineIs(src);
    var index := 0;
    while index < |src|
      invariant 0 <= index <= |src|
      invariant NewlineFrom(src, index) == NewlineFrom(src, 0)
    {
      if src[index] == '\n' {
        return if index > 0 && src[index - 1] == '\r' then "\r\n" else "\n";
      }
      index := index + 1;
    }
    return "\n";
  }

  /** What an insertion writes between its comma and its element. */
  function Lead(src: string, pos: nat): (r: string)
    requires pos <= |src|
    ensures AllWs(r)
  {
    AllWsConcat(NewlineFrom(src, 0), LineIndent(src, pos));
    NewlineFrom(src, 0) + LineIndent(src, pos)
  }

  /** The newline of the source, and the indentation of the line of `pos`. */
  ghost predicate IsLead(src: string, pos: nat, lead: string)
    requires pos <= |src|
  {
    exists newline, start: nat, end: nat ::
      start <= end <= pos && IsNewline(src, newline) && IsIndent(src, pos, start, end) && lead == newline + src[start..end]
  }

  lemma {:induction false} LeadIs(src: string, pos: nat)
    requires pos <= |src|
    ensures IsLead(src, pos, Lead(src, pos))
  {
    NewlineIs(src);
    var start, end := LineIndentIs(src, pos);
    assert IsNewline(src, NewlineFrom(src, 0)) && IsIndent(src, pos, start, end);
  }
}
