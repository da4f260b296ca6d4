/**
 What the two tokenisers read (`posix_words`, `windows_words`), said about whole command lines: words
 in any mixture of quoted and bare pieces, with any white space between and around them.
 */
module CommandLines {
  import opened JsonLayout
  import opened Quoting
  import opened WindowsQuoting

  /** White space: blank, tabulator, line feed, form feed and carriage return. */
  predicate Blank(c: char) {
    c == ' ' || c == '\t' || c == '\n' || c == '\r' || c == '\U{0C}'
  }

  predicate Blanks(s: string) {
    forall i :: 0 <= i < |s| ==> Blank(s[i])
  }

  /** A word of a line, with the white space before it, the text it is written as and the text it means. */
  datatype Word = Word(before: string, text: string, value: string)

  function LineText(words: seq<Word>, tail: string): string {
    if words == [] then tail else words[0].before + (words[0].text + LineText(words[1..], tail))
  }

  function Values(words: seq<Word>): seq<string> {
    if words == [] then [] else [words[0].value] + Values(words[1..])
  }

  /** White space around the words, and at least one character of it between two of them. */
  predicate Spaced(words: seq<Word>, tail: string) {
    && Blanks(tail)
    && (forall i :: 0 <= i < |words| ==> Blanks(words[i].before))
    && (forall i :: 0 < i < |words| ==> words[i].before != "")
  }

  // ---- the POSIX form --------------------------------------------------------------------------------

  /** A character for itself, a character after a backslash, or a stretch in apostrophes. */
  datatype Piece = Bare(c: char) | Escaped(c: char) | Quoted(s: string)

  predicate WfPiece(p: Piece) {
    match p
    case Bare(c) => !Blank(c) && c != '\'' && c != '\\'
    case Escaped(_) => true
    case Quoted(s) => '\'' !in s
  }

  function PieceText(p: Piece): string {
    match p
    case Bare(c) => [c]
    case Escaped(c) => ['\\', c]
    case Quoted(s) => "'" + (s + "'")
  }

  function PieceValue(p: Piece): string {
    match p
    case Bare(c) => [c]
    case Escaped(c) => [c]
    case Quoted(s) => s
  }

  function PiecesText(ps: seq<Piece>): string {
    if ps == [] then "" else PieceText(ps[0]) + PiecesText(ps[1..])
  }

  function PiecesValue(ps: seq<Piece>): string {
    if ps == [] then "" else PieceValue(ps[0]) + PiecesValue(ps[1..])
  }

  /** The word is written as pieces, of which there is one at least. */
  ghost predicate PosixWord(w: Word) {
    exists ps :: ps != [] && (forall i :: 0 <= i < |ps| ==> WfPiece(ps[i])) && w.text == PiecesText(ps) && w.value == PiecesValue(ps)
  }

  lemma {:induction false} QuotedIsRead(s: string, rest: string, current: string)
    requires '\'' !in s
    ensures PosixRest(s + ("'" + rest), current, true, true) == PosixRest(rest, current + s, false, true)
  {
    if s == "" {
      assert s + ("'" + rest) == "'" + rest && ("'" + rest)[1..] == rest && current + s == current;
    } else {
      assert s[0] in s && forall c :: c in s[1..] ==> c in s;
      QuotedIsRead(s[1..], rest, current + [s[0]]);
      assert (s + ("'" + rest))[1..] == s[1..] + ("'" + rest);
      assert (current + [s[0]]) + s[1..] == current + s;
    }
  }

  lemma {:induction false} PieceIsRead(p: Piece, rest: string, current: string, hasToken: bool)
    requires WfPiece(p)
    ensures PosixRest(PieceText(p) + rest, current, false, hasToken) == PosixRest(rest, current + PieceValue(p), false, true)
  {
    var text := PieceText(p) + rest;
    match p
    case Bare(c) =>
      assert text[1..] == rest;
    case Escaped(c) =>
      assert text[2..] == rest && text[1] == c;
    case Quoted(s) =>
      assert text == "'" + (s + ("'" + rest)) && text[1..] == s + ("'" + rest);
      QuotedIsRead(s, rest, current);
  }

  lemma {:induction false} PiecesAreRead(ps: seq<Piece>, rest: string, current: string, hasToken: bool)
    requires forall i :: 0 <= i < |ps| ==> WfPiece(ps[i])
    ensures PosixRest(PiecesText(ps) + rest, current, false, hasToken)
         == PosixRest(rest, current + PiecesValue(ps), false, hasToken || ps != [])
  {
    hide PosixRest, WfPiece;
    if ps == [] {
      assert "" + rest == rest && current + "" == current;
    } else {
      PieceIsRead(ps[0], PiecesText(ps[1..]) + rest, current, hasToken);
      PiecesAreRead(ps[1..], rest, current + PieceValue(ps[0]), true);
      assert PiecesText(ps) + rest == PieceText(ps[0]) + (PiecesText(ps[1..]) + rest);
      assert (current + PieceValue(ps[0])) + PiecesValue(ps[1..]) == current + PiecesValue(ps);
    }
  }

  /** White space ends a word, and is passed over otherwise. */
  lemma {:induction false} BlanksAreRead(white: string, rest: string, current: string, hasToken: bool)
    requires Blanks(white) && (hasToken || current == "")
    ensures PosixRest(white + rest, current, false, hasToken)
         == if hasToken && white != "" then [current] + PosixRest(rest, "", false, false) else PosixRest(rest, current, false, hasToken)
  {
    if white == "" {
      assert white + rest == rest;
    } else {
      assert (white + rest)[1..] == white[1..] + rest;
      BlanksAreRead(white[1..], rest, "", false);
    }
  }

  lemma {:induction false} WordsAreRead(words: seq<Word>, tail: string, current: string, hasToken: bool)
    requires Spaced(words, tail) && forall i :: 0 <= i < |words| ==> PosixWord(words[i])
    requires if hasToken then words != [] ==> words[0].before != "" else current == ""
    ensures PosixRest(LineText(words, tail), current, false, hasToken) == (if hasToken then [current] else []) + Values(words)
    decreases |words|
  {
    hide PosixRest, PosixWord, WfPiece, PiecesText, PiecesValue, Blanks;
    if words == [] {
      EndIsRead(tail, current, hasToken);
    } else {
      var w, more := words[0], LineText(words[1..], tail);
      BlanksAreRead(w.before, w.text + more, current, hasToken);
      WordIsRead(w, more);
      WordsAreRead(words[1..], tail, w.value, true);
    }
  }

  lemma {:induction false} EndIsRead(tail: string, current: string, hasToken: bool)
    requires Blanks(tail) && (hasToken || current == "")
    ensures PosixRest(tail, current, false, hasToken) == (if hasToken then [current] else []) + Values([])
  {
    BlanksAreRead(tail, "", current, hasToken);
    assert tail + "" == tail;
    assert [current] + [] == [current];
  }

  lemma {:induction false} WordIsRead(w: Word, rest: string)
    requires PosixWord(w)
    ensures PosixRest(w.text + rest, "", false, false) == PosixRest(rest, w.value, false, true)
  {
    hide PosixRest, WfPiece;
    var ps :| ps != [] && (forall i :: 0 <= i < |ps| ==> WfPiece(ps[i])) && w.text == PiecesText(ps) && w.value == PiecesValue(ps);
    PiecesAreRead(ps, rest, "", false);
    assert "" + w.value == w.value;
  }

  /** A line of words splits into what the words mean. */
  lemma {:induction false} PosixSplitIs(words: seq<Word>, tail: string)
    requires Spaced(words, tail) && forall i :: 0 <= i < |words| ==> PosixWord(words[i])
    ensures PosixSplit(LineText(words, tail)) == Values(words)
  {
    hide PosixRest, PosixWord;
    WordsAreRead(words, tail, "", false);
    assert [] + Values(words) == Values(words);
  }

  /** At the end of a line, an open apostrophe quotes up to there, and a backslash stands for itself. */
  lemma {:induction false} UnfinishedWord(current: string, s: string, hasToken: bool)
    requires '\'' !in s
    ensures PosixRest("'" + s, current, false, hasToken) == [current + s]
    ensures PosixRest("\\", current, false, hasToken) == [current + "\\"]
  {
    assert ("'" + s)[1..] == s;
    OpenIsRead(s, current);
    assert "\\"[1..] == "";
    assert PosixRest("\\", current, false, hasToken) == PosixRest("", current + "\\", false, true);
  }

  lemma {:induction false} OpenIsRead(s: string, current: string)
    requires '\'' !in s
    ensures PosixRest(s, current, true, true) == [current + s]
  {
    if s == "" {
      assert current + s == current;
    } else {
      assert s[0] in s && forall c :: c in s[1..] ==> c in s;
      OpenIsRead(s[1..], current + [s[0]]);
      assert (current + [s[0]]) + s[1..] == current + s;
    }
  }

  // ---- the Windows form -------------------------------------------------------------------------------

  /** The word is an argument quoted by the program that comes back, or bare, with no quote and no white space in it. */
  predicate WindowsWord(w: Word) {
    || (w.text == WindowsQuoted(w.value) && Clean(w.value, 0))
    || (w.text == w.value != "" && forall i :: 0 <= i < |w.text| ==> !Blank(w.text[i]) && w.text[i] != '"')
  }

  lemma {:induction false} RunWithin(s: string, rest: string)
    requires s != "" && s[0] == '\\' && (rest == "" || rest[0] != '\\')
    ensures 0 < Run(s) <= |s| && Run(s + rest) == Run(s)
  {
    if |s| > 1 && s[1] == '\\' {
      RunWithin(s[1..], rest);
      assert (s + rest)[1..] == s[1..] + rest;
    } else {
      assert (s + rest)[1..] == s[1..] + rest;
    }
  }

  /** A bare stretch stands for itself, backslashes included. */
  lemma {:induction false} BareIsRead(s: string, rest: string, current: string, hasToken: bool)
    requires s != "" && forall i :: 0 <= i < |s| ==> !Blank(s[i]) && s[i] != '"'
    requires rest == "" || Blank(rest[0])
    ensures WindowsRest(s + rest, current, false, hasToken) == WindowsRest(rest, current + s, false, true)
    decreases |s|
  {
    var whole := s + rest;
    if s[0] == '\\' {
      RunWithin(s, rest);
      var run := Run(s);
      assert whole[run..] == s[run..] + rest;
      assert s == Repeat('\\', run) + s[run..];
      assert (current + Repeat('\\', run)) + s[run..] == current + s;
      if run < |s| {
        assert whole[run] == s[run];
        BareIsRead(s[run..], rest, current + Repeat('\\', run), true);
      } else {
        assert s[run..] == "" && "" + rest == rest;
        assert run < |whole| ==> whole[run] == rest[0];
      }
    } else {
      assert whole[1..] == s[1..] + rest;
      assert (current + [s[0]]) + s[1..] == current + s;
      if s[1..] == "" {
        assert "" + rest == rest && current + [s[0]] == current + s;
      } else {
        BareIsRead(s[1..], rest, current + [s[0]], true);
      }
    }
  }

  lemma {:induction false} WindowsWordIsRead(w: Word, rest: string)
    requires WindowsWord(w) && (rest == "" || Blank(rest[0]))
    ensures WindowsRest(w.text + rest, "", false, false) == WindowsRest(rest, w.value, false, true)
  {
    hide WindowsRest;
    if w.text == WindowsQuoted(w.value) && Clean(w.value, 0) {
      WindowsFirst(w.value, rest);
      WindowsArgument(w.value, 0, rest, "");
      assert ("" + Repeat('\\', 0)) + w.value == w.value;
    } else {
      BareIsRead(w.text, rest, "", false);
      assert "" + w.text == w.value;
    }
  }

  lemma {:induction false} WindowsBlanksAreRead(white: string, rest: string, current: string, hasToken: bool)
    requires Blanks(white) && (hasToken || current == "")
    ensures WindowsRest(white + rest, current, false, hasToken)
         == if hasToken && white != "" then [current] + WindowsRest(rest, "", false, false) else WindowsRest(rest, current, false, hasToken)
  {
    if white == "" {
      assert white + rest == rest;
    } else {
      assert (white + rest)[1..] == white[1..] + rest;
      WindowsBlanksAreRead(white[1..], rest, "", false);
    }
  }

  lemma {:induction false} LineStarts(words: seq<Word>, tail: string)
    requires Spaced(words, tail) && (words != [] ==> words[0].before != "")
    ensures LineText(words, tail) == "" || Blank(LineText(words, tail)[0])
  {
  }

  lemma {:induction false} WindowsWordsAreRead(words: seq<Word>, tail: string, current: string, hasToken: bool)
    requires Spaced(words, tail) && forall i :: 0 <= i < |words| ==> WindowsWord(words[i])
    requires if hasToken then words != [] ==> words[0].before != "" else current == ""
    ensures WindowsRest(LineText(words, tail), current, false, hasToken) == (if hasToken then [current] else []) + Values(words)
    decreases |words|
  {
    hide WindowsRest, WindowsWord, Blanks;
    if words == [] {
      WindowsEndIsRead(tail, current, hasToken);
    } else {
      var w, more := words[0], LineText(words[1..], tail);
      WindowsBlanksAreRead(w.before, w.text + more, current, hasToken);
      LineStarts(words[1..], tail);
      WindowsWordIsRead(w, more);
      WindowsWordsAreRead(words[1..], tail, w.value, true);
    }
  }

  lemma {:induction false} WindowsEndIsRead(tail: string, current: string, hasToken: bool)
    requires Blanks(tail) && (hasToken || current == "")
    ensures WindowsRest(tail, current, false, hasToken) == (if hasToken then [current] else []) + Values([])
  {
    WindowsBlanksAreRead(tail, "", current, hasToken);
    assert tail + "" == tail;
    assert [current] + [] == [current];
  }

  /** A line of quoted and bare words splits into what the words mean. */
  lemma {:induction false} WindowsSplitIs(words: seq<Word>, tail: string)
    requires Spaced(words, tail) && forall i :: 0 <= i < |words| ==> WindowsWord(words[i])
    ensures WindowsSplit(LineText(words, tail)) == Values(words)
  {
    hide WindowsRest, WindowsWord;
    WindowsWordsAreRead(words, tail, "", false);
    assert [] + Values(words) == Values(words);
  }
}
