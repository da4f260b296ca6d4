/**
 Quoting the arguments of the hook command and splitting a command back into its words, in the
 POSIX form and in the Windows form.  Ownership rests on the second undoing the first.
 */
module Quoting {
  import opened JsonLayout

  function Repeat(c: char, n: nat): (s: string)
    ensures |s| == n
  {
    if n == 0 then "" else [c] + Repeat(c, n - 1)
  }

  // ---- the POSIX form --------------------------------------------------------------------------

  /** Each apostrophe closes the quotes, stands escaped, and opens them again. */
  function PosixEscaped(v: string): string {
    if v == "" then ""
    else if v[0] == '\'' then "'\\''" + PosixEscaped(v[1..])
    else [v[0]] + PosixEscaped(v[1..])
  }

  function PosixQuote(v: string): string {
    "'" + (PosixEscaped(v) + "'")
  }

  /** The words of the rest `s` of a command, `current` being the word under construction. */
  function PosixRest(s: string, current: string, inQuotes: bool, hasToken: bool): seq<string>
    decreases |s|
  {
    if s == "" then if hasToken then [current] else []
    else if inQuotes then
      if s[0] == '\'' then PosixRest(s[1..], current, false, hasToken) else PosixRest(s[1..], current + [s[0]], true, hasToken)
    else if s[0] == '\'' then PosixRest(s[1..], current, true, true)
    else if s[0] == '\\' && |s| > 1 then PosixRest(s[2..], current + [s[1]], false, true)
    else if Ws(s[0]) then
      if hasToken then [current] + PosixRest(s[1..], "", false, false) else PosixRest(s[1..], current, false, false)
    else PosixRest(s[1..], current + [s[0]], false, true)
  }

  function PosixSplit(command: string): seq<string> {
    PosixRest(command, "", false, false)
  }

  method PosixWords(command: string) returns (words: seq<string>)
    ensures words == PosixSplit(command)
  {
    words := [];
    var current, inQuotes, hasToken, index := "", false, false, 0;
    assert command[0..] == command;
    while index < |command|
      invariant 0 <= index <= |command|
      invariant words + PosixRest(command[index..], current, inQuotes, hasToken) == PosixSplit(command)
    {
      var byte := command[index];
      assert command[index..][1..] == command[index + 1..];
      if inQuotes {
        if byte == '\'' {
          inQuotes := false;
        } else {
          current := current + [byte];
        }
        index := index + 1;
      } else if byte == '\'' {
        inQuotes, hasToken := true, true;
        index := index + 1;
      } else if byte == '\\' && index + 1 < |command| {
        assert command[index..][2..] == command[index + 2..];
        current, hasToken := current + [command[index + 1]], true;
        index := index + 2;
      } else if Ws(byte) {
        if hasToken {
          WordsAssoc(words, current, PosixRest(command[index + 1..], "", false, false));
          words := words + [current];
          current, hasToken := "", false;
        }
        index := index + 1;
      } else {
        current, hasToken := current + [byte], true;
        index := index + 1;
      }
    }
    if hasToken {
      words := words + [current];
    }
  }

  lemma {:induction false} WordsAssoc(a: seq<string>, w: string, b: seq<string>)
    ensures a + ([w] + b) == (a + [w]) + b
  {
  }

  /** An escaped apostrophe closes the quotes, adds an apostrophe, and opens them again. */
  lemma {:induction false} PosixApostrophe(rest: string, current: string)
    ensures PosixRest("'\\''" + rest, current, true, true) == PosixRest(rest, current + "'", true, true)
  {
    var open := "'" + rest;
    var escaped := "\\'" + open;
    assert "'\\''" + rest == "'" + escaped;
    assert ("'" + escaped)[1..] == escaped && escaped[2..] == open && open[1..] == rest;
    assert PosixRest("'" + escaped, current, true, true) == PosixRest(escaped, current, false, true);
    assert PosixRest(escaped, current, false, true) == PosixRest(open, current + "'", false, true);
  }

  lemma {:induction false} PosixCharacter(c: char, rest: string, current: string)
    requires c != '\''
    ensures PosixRest([c] + rest, current, true, true) == PosixRest(rest, current + [c], true, true)
  {
    assert ([c] + rest)[1..] == rest;
  }

  lemma {:induction false} PosixClosing(rest: string, current: string)
    ensures PosixRest("'" + rest, current, true, true) == PosixRest(rest, current, false, true)
  {
    assert ("'" + rest)[1..] == rest;
  }

  /** Reading a quoted argument adds exactly its characters to the current word. */
  lemma {:induction false} PosixArgument(v: string, t: string, current: string)
    ensures PosixRest(PosixEscaped(v) + ("'" + t), current, true, true) == PosixRest(t, current + v, false, true)
    decreases |v|
  {
    hide PosixRest;
    if v == "" {
      assert PosixEscaped(v) + ("'" + t) == "'" + t;
      assert current + v == current;
      PosixClosing(t, current);
    } else {
      var rest := PosixEscaped(v[1..]) + ("'" + t);
      PosixArgument(v[1..], t, current + [v[0]]);
      assert (current + [v[0]]) + v[1..] == current + v;
      if v[0] == '\'' {
        assert PosixEscaped(v) + ("'" + t) == "'\\''" + rest;
        PosixApostrophe(rest, current);
      } else {
        assert PosixEscaped(v) + ("'" + t) == [v[0]] + rest;
        PosixCharacter(v[0], rest, current);
      }
    }
  }

  /** The arguments, quoted and separated by single spaces. */
  function Command(quote: string -> string, args: seq<string>): string {
    if args == [] then ""
    else if |args| == 1 then quote(args[0])
    else quote(args[0]) + (" " + Command(quote, args[1..]))
  }

  /** The rest of a command after its first argument. */
  function CommandRest(quote: string -> string, args: seq<string>): string {
    if args == [] then "" else " " + Command(quote, args)
  }

  lemma {:induction false} CommandParts(quote: string -> string, args: seq<string>)
    requires args != []
    ensures Command(quote, args) == quote(args[0]) + CommandRest(quote, args[1..])
  {
    assert quote(args[0]) + "" == quote(args[0]);
  }

  lemma {:induction false} QuotedParts(quote: string, escaped: string, t: string)
    requires |quote| == 1
    ensures (quote + (escaped + quote)) + t == quote + (escaped + (quote + t))
    ensures (quote + (escaped + (quote + t)))[1..] == escaped + (quote + t)
  {
  }

  /** Splitting a command quoted in the POSIX form gives back its arguments, whatever they are. */
  lemma {:induction false} PosixRoundTrip(args: seq<string>)
    ensures PosixSplit(Command(PosixQuote, args)) == args
    decreases |args|
  {
    if args != [] {
      var v, t := args[0], CommandRest(PosixQuote, args[1..]);
      CommandParts(PosixQuote, args);
      PosixRoundTrip(args[1..]);
      PosixArgument(v, t, "");
      QuotedParts("'", PosixEscaped(v), t);
      assert "" + v == v && args == [v] + args[1..];
      if t != "" {
        assert t[1..] == Command(PosixQuote, args[1..]);
      }
    }
  }

  // ---- the Windows form ----------------------------------------------------------------------------

  /** The escaped characters of `v`, with `pending` backslashes read but not yet written. */
  function WindowsEscaped(v: string, pending: nat): string
    decreases |v|
  {
    if v == "" then Repeat('\\', 2 * pending)
    else if v[0] == '\\' then WindowsEscaped(v[1..], pending + 1)
    else if v[0] == '"' then Repeat('\\', pending + 1) + ("\"" + WindowsEscaped(v[1..], 0))
    else Repeat('\\', pending) + ([v[0]] + WindowsEscaped(v[1..], 0))
  }

  function WindowsQuoted(v: string): string {
    "\"" + (WindowsEscaped(v, 0) + "\"")
  }

  lemma {:induction false} RepeatMore(c: char, n: nat)
    ensures Repeat(c, n) + [c] == Repeat(c, n + 1)
  {
    if n > 0 {
      RepeatMore(c, n - 1);
      assert ([c] + Repeat(c, n - 1)) + [c] == [c] + (Repeat(c, n - 1) + [c]);
    }
  }

  /** Writes `n` times the same character. */
  method PushRepeated(out: string, c: char, n: nat) returns (r: string)
    ensures r == out + Repeat(c, n)
  {
    r := out;
    for i := 0 to n
      invariant r == out + Repeat(c, i)
    {
      RepeatMore(c, i);
      assert (out + Repeat(c, i)) + [c] == out + (Repeat(c, i) + [c]);
      r := r + [c];
    }
  }

  method WindowsQuote(v: string) returns (out: string)
    ensures out == WindowsQuoted(v)
  {
    out := "\"";
    var backslashes := 0;
    assert v[0..] == v;
    for i := 0 to |v|
      invariant backslashes >= 0
      invariant out + WindowsEscaped(v[i..], backslashes) == "\"" + WindowsEscaped(v, 0)
    {
      var ch := v[i];
      assert v[i..][1..] == v[i + 1..] && v[i..][0] == ch;
      ghost var rest := WindowsEscaped(v[i + 1..], 0);
      if ch == '\\' {
        backslashes := backslashes + 1;
      } else if ch == '"' {
        StringAssoc(out, Repeat('\\', backslashes + 1), "\"", rest);
        out := PushRepeated(out, '\\', backslashes + 1);
        out := out + "\"";
        backslashes := 0;
      } else {
        StringAssoc(out, Repeat('\\', backslashes), [ch], rest);
        out := PushRepeated(out, '\\', backslashes);
        backslashes := 0;
        out := out + [ch];
      }
    }
    out := PushRepeated(out, '\\', 2 * backslashes);
    assert ("\"" + WindowsEscaped(v, 0)) + "\"" == WindowsQuoted(v);
    out := out + "\"";
  }

  lemma {:induction false} StringAssoc(a: string, b: string, c: string, d: string)
    ensures a + (b + (c + d)) == ((a + b) + c) + d
  {
  }

  /** How many backslashes `s` starts with. */
  function Run(s: string): (n: nat)
    ensures n <= |s|
    ensures s[..n] == Repeat('\\', n)
    ensures n < |s| ==> s[n] != '\\'
  {
    if s == "" || s[0] != '\\' then 0
    else
      assert s == [s[0]] + s[1..];
      1 + Run(s[1..])
  }

  /** What `run` backslashes in front of a quote add to the word. */
  function BeforeQuote(run: nat): string {
    Repeat('\\', run / 2) + if run % 2 == 1 then "\"" else ""
  }

  /** The words of the rest `s` of a command, `current` being the word under construction. */
  function WindowsRest(s: string, current: string, inQuotes: bool, hasToken: bool): seq<string>
    decreases |s|
  {
    if s == "" then if hasToken then [current] else []
    else if s[0] == '\\' then
      var run := Run(s);
      if run < |s| && s[run] == '"' then
        WindowsRest(s[run + 1..], current + BeforeQuote(run), if run % 2 == 1 then inQuotes else !inQuotes, true)
      else WindowsRest(s[run..], current + Repeat('\\', run), inQuotes, true)
    else if s[0] == '"' then WindowsRest(s[1..], current, !inQuotes, true)
    else if Ws(s[0]) && !inQuotes then
      if hasToken then [current] + WindowsRest(s[1..], "", false, false) else WindowsRest(s[1..], current, false, false)
    else WindowsRest(s[1..], current + [s[0]], inQuotes, true)
  }

  function WindowsSplit(command: string): seq<string> {
    WindowsRest(command, "", false, false)
  }

  method CountBackslashes(command: string, start: nat) returns (run: nat)
    requires start <= |command|
    ensures run == Run(command[start..])
  {
    run := 0;
    while start + run < |command| && command[start + run] == '\\'
      invariant start + run <= |command|
      invariant Run(command[start..]) == run + Run(command[start + run..])
      decreases |command| - run
    {
      assert command[start + run..][1..] == command[start + run + 1..];
      run := run + 1;
    }
  }

  method WindowsWords(command: string) returns (words: seq<string>)
    ensures words == WindowsSplit(command)
  {
    hide Repeat, Run;
    words := [];
    var current, inQuotes, hasToken, index := "", false, false, 0;
    assert command[0..] == command;
    while index < |command|
      invariant 0 <= index <= |command|
      invariant words + WindowsRest(command[index..], current, inQuotes, hasToken) == WindowsSplit(command)
      decreases |command| - index
    {
      var byte := command[index];
      ghost var rest := command[index..];
      assert rest[1..] == command[index + 1..];
      if byte == '\\' {
        var run := CountBackslashes(command, index);
        index := index + run;
        assert rest[run..] == command[index..];
        if index < |command| && command[index] == '"' {
          assert rest[run + 1..] == command[index + 1..];
          var pushed := PushRepeated(current, '\\', run / 2);
          if run % 2 == 1 {
            assert current + BeforeQuote(run) == pushed + "\"";
            pushed := pushed + "\"";
          } else {
            assert current + BeforeQuote(run) == pushed;
            inQuotes := !inQuotes;
          }
          current := pushed;
          index := index + 1;
        } else {
          current := PushRepeated(current, '\\', run);
        }
        hasToken := true;
      } else if byte == '"' {
        inQuotes, hasToken := !inQuotes, true;
        index := index + 1;
      } else if Ws(byte) && !inQuotes {
        if hasToken {
          WordsAssoc(words, current, WindowsRest(command[index + 1..], "", false, false));
          words := words + [current];
          current, hasToken := "", false;
        }
        index := index + 1;
      } else {
        current, hasToken := current + [byte], true;
        index := index + 1;
      }
    }
    if hasToken {
      words := words + [current];
    }
  }
}
