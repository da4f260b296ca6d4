/**
 Rendering a notification template (`render_template`, `valid_path`): one pass over the template,
 in which a placeholder is replaced by the value of an authorised path and values are never read
 as template text.
 */
module Template {
  import opened Outcomes

  datatype Context = Context(authorized: set<string>, values: map<string, string>) {
    function Value(path: string): string {
      if path in values then values[path] else ""
    }
  }

  datatype Error = InvalidTemplate | FieldNotAllowed

  predicate Brace(c: char) {
    c == '{' || c == '}'
  }

  predicate NoBrace(s: string) {
    forall i :: 0 <= i < |s| ==> !Brace(s[i])
  }

  predicate Lower(c: char) {
    'a' <= c <= 'z'
  }

  /** A lower-case root, a dot, and a leaf of lower-case letters and underscores. */
  predicate ValidPath(path: string) {
    var dot := IndexOf(path, '.');
    && dot < |path|
    && 0 < dot && dot + 1 < |path|
    && (forall i :: 0 <= i < dot ==> Lower(path[i]))
    && (forall i :: dot < i < |path| ==> Lower(path[i]) || path[i] == '_')
  }

  /** The position of the first `c`, or the length when there is none. */
  function IndexOf(s: string, c: char): (i: nat)
    ensures i <= |s| && (i < |s| ==> s[i] == c) && forall k :: 0 <= k < i ==> s[k] != c
  {
    if s == "" || s[0] == c then 0
    else
      assert s == [s[0]] + s[1..];
      1 + IndexOf(s[1..], c)
  }

  /** The position of the first brace, or the length. */
  function FirstBrace(s: string): (i: nat)
    ensures i <= |s| && (i < |s| ==> Brace(s[i])) && NoBrace(s[..i])
  {
    if s == "" || Brace(s[0]) then 0
    else
      assert s == [s[0]] + s[1..];
      1 + FirstBrace(s[1..])
  }

  /** The position of the first pair of closing braces, or the length. */
  function FirstClose(s: string): (i: nat)
    ensures i <= |s| && (i < |s| ==> i + 1 < |s| && s[i] == '}' && s[i + 1] == '}')
    ensures forall k :: 0 <= k < i && k + 1 < |s| ==> s[k] != '}' || s[k + 1] != '}'
  {
    if |s| < 2 then |s|
    else if s[0] == '}' && s[1] == '}' then 0
    else
      assert s == [s[0]] + s[1..];
      1 + FirstClose(s[1..])
  }

  predicate Opens(s: string) {
    |s| >= 2 && s[0] == '{' && s[1] == '{'
  }

  /** What a rest of a template that starts with a placeholder is made of. */
  function PathOf(s: string): string
    requires Opens(s) && FirstClose(s[2..]) < |s| - 2
  {
    s[2..][..FirstClose(s[2..])]
  }

  function RestOf(s: string): (r: string)
    requires Opens(s) && FirstClose(s[2..]) < |s| - 2
    ensures |r| < |s|
  {
    s[2..][FirstClose(s[2..]) + 2..]
  }

  // ---- the renderer ------------------------------------------------------------------------------

  function Prepend(text: string, r: Outcome<string, Error>): Outcome<string, Error> {
    if r.Ok? then Ok(text + r.value) else r
  }

  /** What becomes of the rest of a template. */
  function Rendered(s: string, context: Context): Outcome<string, Error>
    decreases |s|
  {
    var index := FirstBrace(s);
    if index == |s| then Ok(s)
    else
      var remaining := s[index..];
      if !Opens(remaining) || FirstClose(remaining[2..]) == |remaining| - 2 then Err(InvalidTemplate)
      else
        var path := PathOf(remaining);
        if !NoBrace(path) || !ValidPath(path) then Err(InvalidTemplate)
        else if path !in context.authorized then Err(FieldNotAllowed)
        else Prepend(s[..index] + context.Value(path), Rendered(RestOf(remaining), context))
  }

  method RenderTemplate(template: string, context: Context) returns (r: Outcome<string, Error>)
    ensures r == Rendered(template, context)
  {
    hide ValidPath, FirstClose, FirstBrace, NoBrace;
    var output := "";
    var remaining := template;
    PrependNothing(Rendered(template, context));
    while FirstBrace(remaining) < |remaining|
      invariant Prepend(output, Rendered(remaining, context)) == Rendered(template, context)
      decreases |remaining|
    {
      var index := FirstBrace(remaining);
      ghost var before, start := output, remaining;
      output := output + remaining[..index];
      remaining := remaining[index..];
      if !Opens(remaining) {
        return Err(InvalidTemplate);
      }
      var close := FirstClose(remaining[2..]);
      if close == |remaining| - 2 {
        return Err(InvalidTemplate);
      }
      var path := remaining[2..][..close];
      if !NoBrace(path) || !ValidPath(path) {
        return Err(InvalidTemplate);
      }
      if path !in context.authorized {
        return Err(FieldNotAllowed);
      }
      output := output + context.Value(path);
      remaining := remaining[2..][close + 2..];
      PrependTwice(before, start[..index], context.Value(path), Rendered(remaining, context));
    }
    return Ok(output + remaining);
  }

  lemma {:induction false} PrependNothing(r: Outcome<string, Error>)
    ensures Prepend("", r) == r
  {
    if r.Ok? {
      assert "" + r.value == r.value;
    }
  }

  lemma {:induction false} PrependTwice(a: string, b: string, c: string, r: Outcome<string, Error>)
    ensures Prepend(a, Prepend(b + c, r)) == Prepend((a + b) + c, r)
  {
    if r.Ok? {
      assert a + ((b + c) + r.value) == ((a + b) + c) + r.value;
    }
  }

  // ---- the templates that render --------------------------------------------------------------------

  predicate Braceless(s: string) {
    '{' !in s && '}' !in s
  }

  predicate LowerLetters(s: string) {
    forall c :: c in s ==> 'a' <= c <= 'z'
  }

  predicate LeafLetters(s: string) {
    forall c :: c in s ==> 'a' <= c <= 'z' || c == '_'
  }

  /** A path is a root of lower-case letters, a dot, and a leaf of such letters and underscores. */
  ghost predicate IsPath(path: string) {
    exists root, leaf :: path == root + ("." + leaf) && root != "" && leaf != "" && LowerLetters(root) && LeafLetters(leaf)
  }

  /** A template is text without braces, and placeholders that follow such texts. */
  datatype Piece = Piece(text: string, path: string)

  ghost predicate WfPieces(pieces: seq<Piece>, context: Context) {
    forall i :: 0 <= i < |pieces| ==> Braceless(pieces[i].text) && IsPath(pieces[i].path) && pieces[i].path in context.authorized
  }

  lemma {:induction false} BracelessIs(s: string)
    ensures NoBrace(s) <==> Braceless(s)
  {
    if NoBrace(s) {
      forall c | c in s ensures c != '{' && c != '}' {
        var i :| 0 <= i < |s| && s[i] == c;
      }
    }
  }

  lemma {:induction false} IndexOfIs(root: string, leaf: string)
    requires '.' !in root
    ensures IndexOf(root + ("." + leaf), '.') == |root|
  {
    var path := root + ("." + leaf);
    assert path[|root|] == '.';
    assert forall i :: 0 <= i < |root| ==> path[i] == root[i] && root[i] in root;
  }

  /** The test of the program accepts the paths and nothing else; no path has a brace. */
  lemma {:induction false} ValidPathIs(path: string)
    ensures ValidPath(path) <==> IsPath(path)
    ensures IsPath(path) ==> Braceless(path)
  {
    hide IndexOf;
    var dot := IndexOf(path, '.');
    if ValidPath(path) {
      var root, leaf := path[..dot], path[dot + 1..];
      assert path == root + ("." + leaf);
      assert LowerLetters(root) && LeafLetters(leaf);
    }
    if IsPath(path) {
      var root, leaf :| path == root + ("." + leaf) && root != "" && leaf != "" && LowerLetters(root) && LeafLetters(leaf);
      IndexOfIs(root, leaf);
      forall i | 0 <= i < |root| ensures Lower(path[i]) {
        assert path[i] == root[i] && root[i] in root;
      }
      forall i | |root| < i < |path| ensures Lower(path[i]) || path[i] == '_' {
        assert path[i] == leaf[i - |root| - 1] && leaf[i - |root| - 1] in leaf;
      }
    }
  }

  function Source(pieces: seq<Piece>, last: string): string {
    if pieces == [] then last
    else pieces[0].text + ("{{" + (pieces[0].path + ("}}" + Source(pieces[1..], last))))
  }

  /** The literals and the values, concatenated. */
  function Meaning(pieces: seq<Piece>, last: string, context: Context): string {
    if pieces == [] then last
    else
      var path := pieces[0].path;
      (pieces[0].text + if path in context.values then context.values[path] else "") + Meaning(pieces[1..], last, context)
  }

  lemma {:induction false} FirstBraceIs(text: string, rest: string)
    requires NoBrace(text) && (rest == "" || Brace(rest[0]))
    ensures FirstBrace(text + rest) == |text|
  {
    if text == "" {
      assert text + rest == rest;
    } else {
      assert (text + rest)[1..] == text[1..] + rest;
      FirstBraceIs(text[1..], rest);
    }
  }

  lemma {:induction false} FirstCloseIs(path: string, rest: string)
    requires forall i :: 0 <= i < |path| ==> path[i] != '}'
    ensures FirstClose(path + ("}}" + rest)) == |path|
  {
    if path == "" {
      assert path + ("}}" + rest) == "}}" + rest;
    } else {
      var whole := path + ("}}" + rest);
      assert whole[1..] == path[1..] + ("}}" + rest) && whole[0] == path[0];
      FirstCloseIs(path[1..], rest);
    }
  }

  lemma {:induction false} OnePiece(piece: Piece, rest: string, context: Context)
    requires Braceless(piece.text) && IsPath(piece.path)
    ensures Rendered(piece.text + ("{{" + (piece.path + ("}}" + rest))), context)
         == if piece.path in context.authorized
            then Prepend(piece.text + if piece.path in context.values then context.values[piece.path] else "", Rendered(rest, context))
            else Err(FieldNotAllowed)
  {
    hide ValidPath, IsPath;
    BracelessIs(piece.text);
    BracelessIs(piece.path);
    ValidPathIs(piece.path);
    var inner := piece.path + ("}}" + rest);
    var remaining := "{{" + inner;
    var s := piece.text + remaining;
    FirstBraceIs(piece.text, remaining);
    FirstCloseIs(piece.path, rest);
    AfterText(piece.text, remaining);
    AfterOpen(inner);
    AfterPath(piece.path, rest);
    hide FirstBrace, FirstClose, NoBrace;
  }

  lemma {:induction false} AfterText(text: string, rest: string)
    ensures (text + rest)[..|text|] == text && (text + rest)[|text|..] == rest
  {
  }

  lemma {:induction false} AfterOpen(inner: string)
    ensures Opens("{{" + inner) && ("{{" + inner)[2..] == inner
  {
  }

  lemma {:induction false} AfterPath(path: string, rest: string)
    ensures (path + ("}}" + rest))[..|path|] == path && (path + ("}}" + rest))[|path| + 2..] == rest
  {
  }

  lemma {:induction false} PiecesRender(pieces: seq<Piece>, last: string, context: Context)
    requires WfPieces(pieces, context) && Braceless(last)
    ensures Rendered(Source(pieces, last), context) == Ok(Meaning(pieces, last, context))
  {
    hide ValidPath, IsPath;
    BracelessIs(last);
    if pieces == [] {
      assert last + "" == last;
      FirstBraceIs(last, "");
    } else {
      PiecesRender(pieces[1..], last, context);
      OnePiece(pieces[0], Source(pieces[1..], last), context);
    }
  }

  /** What a rendered template starts with, when it has a placeholder. */
  lemma {:induction false} RenderedStep(s: string, context: Context) returns (piece: Piece, rest: string)
    requires Rendered(s, context).Ok? && FirstBrace(s) < |s|
    ensures Braceless(piece.text) && IsPath(piece.path) && piece.path in context.authorized
    ensures s == piece.text + ("{{" + (piece.path + ("}}" + rest))) && |rest| < |s|
    ensures Rendered(rest, context).Ok?
  {
    hide ValidPath, IsPath;
    var index := FirstBrace(s);
    piece, rest := Piece(s[..index], PathOf(s[index..])), RestOf(s[index..]);
    Reassembled(s, index);
    BracelessIs(piece.text);
    ValidPathIs(piece.path);
  }

  lemma {:induction false} RenderedHasPieces(s: string, context: Context) returns (pieces: seq<Piece>, last: string)
    requires Rendered(s, context).Ok?
    ensures WfPieces(pieces, context) && Braceless(last) && Source(pieces, last) == s
    decreases |s|
  {
    hide ValidPath, IsPath, Rendered, NoBrace, Braceless;
    var index := FirstBrace(s);
    BracelessIs(s[..index]);
    if index == |s| {
      assert s[..index] == s;
      pieces, last := [], s;
    } else {
      var piece, rest := RenderedStep(s, context);
      var others;
      others, last := RenderedHasPieces(rest, context);
      pieces := [piece] + others;
      assert pieces[1..] == others;
    }
  }

  lemma {:induction false} Halves(s: string, i: nat)
    requires i <= |s|
    ensures s == s[..i] + s[i..]
  {
  }

  lemma {:induction false} OpenParts(s: string)
    requires Opens(s)
    ensures s == "{{" + s[2..]
  {
  }

  lemma {:induction false} CloseParts(s: string, i: nat)
    requires i + 1 < |s| && s[i] == '}' && s[i + 1] == '}'
    ensures s == s[..i] + ("}}" + s[i + 2..])
  {
  }

  lemma {:induction false} Reassembled(s: string, index: nat)
    requires index < |s| && Opens(s[index..]) && FirstClose(s[index..][2..]) < |s[index..]| - 2
    ensures s == s[..index] + ("{{" + (PathOf(s[index..]) + ("}}" + RestOf(s[index..]))))
  {
    hide FirstClose, Opens;
    Halves(s, index);
    OpenParts(s[index..]);
    CloseParts(s[index..][2..], FirstClose(s[index..][2..]));
  }

  /**
   A template renders exactly when it is made of texts without braces and placeholders with authorised
   paths, and then its rendering is the concatenation of the texts and the values, an absent value
   being empty.
   */
  lemma {:induction false} RendersIff(template: string, context: Context, output: string)
    ensures Rendered(template, context) == Ok(output) <==>
      exists pieces, last :: WfPieces(pieces, context) && Braceless(last) && Source(pieces, last) == template && Meaning(pieces, last, context) == output
  {
    hide ValidPath, IsPath, Braceless;
    if Rendered(template, context) == Ok(output) {
      var pieces, last := RenderedHasPieces(template, context);
      PiecesRender(pieces, last, context);
    }
    if exists pieces, last :: WfPieces(pieces, context) && Braceless(last) && Source(pieces, last) == template && Meaning(pieces, last, context) == output {
      var pieces, last :| WfPieces(pieces, context) && Braceless(last) && Source(pieces, last) == template && Meaning(pieces, last, context) == output;
      PiecesRender(pieces, last, context);
    }
  }

  // ---- the templates that are refused for a field -----------------------------------------------------

  /** After pieces that render, a placeholder with a path that is not authorised. */
  ghost predicate Forbidden(template: string, context: Context, pieces: seq<Piece>, piece: Piece, rest: string) {
    && WfPieces(pieces, context) && Braceless(piece.text) && IsPath(piece.path) && piece.path !in context.authorized
    && template == Source(pieces, piece.text + ("{{" + (piece.path + ("}}" + rest))))
  }

  lemma {:induction false} ForbiddenIsRefused(template: string, context: Context, pieces: seq<Piece>, piece: Piece, rest: string)
    requires Forbidden(template, context, pieces, piece, rest)
    ensures Rendered(template, context) == Err(FieldNotAllowed)
    decreases |pieces|
  {
    hide ValidPath, IsPath, Braceless, Rendered;
    if pieces == [] {
      OnePiece(piece, rest, context);
    } else {
      var others := Source(pieces[1..], piece.text + ("{{" + (piece.path + ("}}" + rest))));
      ForbiddenIsRefused(others, context, pieces[1..], piece, rest);
      OnePiece(pieces[0], others, context);
    }
  }

  /** The first placeholder of a refused template, which is the forbidden one or can be passed over. */
  lemma {:induction false} RefusedStep(s: string, context: Context) returns (piece: Piece, rest: string)
    requires Rendered(s, context) == Err(FieldNotAllowed)
    ensures Braceless(piece.text) && IsPath(piece.path)
    ensures s == piece.text + ("{{" + (piece.path + ("}}" + rest))) && |rest| < |s|
    ensures piece.path in context.authorized ==> Rendered(rest, context) == Err(FieldNotAllowed)
  {
    hide ValidPath, IsPath;
    var index := FirstBrace(s);
    piece, rest := Piece(s[..index], PathOf(s[index..])), RestOf(s[index..]);
    Reassembled(s, index);
    BracelessIs(piece.text);
    ValidPathIs(piece.path);
  }

  lemma {:induction false} RefusedIsForbidden(s: string, context: Context) returns (pieces: seq<Piece>, piece: Piece, rest: string)
    requires Rendered(s, context) == Err(FieldNotAllowed)
    ensures Forbidden(s, context, pieces, piece, rest)
    decreases |s|
  {
    hide ValidPath, IsPath, Rendered, Braceless;
    var first, more := RefusedStep(s, context);
    if first.path in context.authorized {
      var others;
      others, piece, rest := RefusedIsForbidden(more, context);
      pieces := [first] + others;
      assert pieces[1..] == others;
    } else {
      pieces, piece, rest := [], first, more;
    }
  }

  /**
   A template is refused for a field exactly when a placeholder names a path that is not authorised,
   after text that would render; what follows it does not matter.  All other templates that do not
   render are invalid.
   */
  lemma {:induction false} RefusedIff(template: string, context: Context)
    ensures Rendered(template, context) == Err(FieldNotAllowed) <==> exists pieces, piece, rest :: Forbidden(template, context, pieces, piece, rest)
  {
    hide Forbidden, Rendered;
    if Rendered(template, context) == Err(FieldNotAllowed) {
      var pieces, piece, rest := RefusedIsForbidden(template, context);
    }
    if exists pieces, piece, rest :: Forbidden(template, context, pieces, piece, rest) {
      var pieces, piece, rest :| Forbidden(template, context, pieces, piece, rest);
      ForbiddenIsRefused(template, context, pieces, piece, rest);
    }
  }

  /** Only the authorised paths and their values matter. */
  lemma {:induction false} ConfinedToAuthorized(s: string, a: Context, b: Context)
    requires a.authorized == b.authorized && forall path :: path in a.authorized ==> a.Value(path) == b.Value(path)
    ensures Rendered(s, a) == Rendered(s, b)
    decreases |s|
  {
    hide ValidPath;
    var index := FirstBrace(s);
    if index < |s| {
      var remaining := s[index..];
      if Opens(remaining) && FirstClose(remaining[2..]) < |remaining| - 2 {
        ConfinedToAuthorized(RestOf(remaining), a, b);
      }
    }
  }
}
