/**
 When splitting undoes quoting in the Windows form.  The program writes n + 1 backslashes for a
 quote that follows n of them, although 2n + 1 are needed, so the arguments come back exactly when
 none of them has a backslash directly before a quote.
 */
module WindowsQuoting {
  import opened JsonLayout
  import opened Quoting

  /** No quote in `v` follows a backslash, `pending` backslashes standing before `v`. */
  predicate Clean(v: string, pending: nat)
    decreases |v|
  {
    if v == "" then true
    else if v[0] == '\\' then Clean(v[1..], pending + 1)
    else if v[0] == '"' then pending == 0 && Clean(v[1..], 0)
    else Clean(v[1..], 0)
  }

  /** The same, said about positions. */
  lemma {:induction false} CleanMeans(v: string, pending: nat)
    ensures Clean(v, pending) <==>
      (forall i :: 0 < i < |v| && v[i] == '"' ==> v[i - 1] != '\\') && (v != "" && v[0] == '"' ==> pending == 0)
    decreases |v|
  {
    if v != "" {
      var rest := v[1..];
      CleanMeans(rest, if v[0] == '\\' then pending + 1 else 0);
      assert forall i :: 0 < i < |v| ==> v[i] == rest[i - 1];
      if forall i :: 0 < i < |v| && v[i] == '"' ==> v[i - 1] != '\\' {
        forall i | 0 < i < |rest| && rest[i] == '"' ensures rest[i - 1] != '\\' {
          assert v[i + 1] == '"';
        }
        assert rest != "" && rest[0] == '"' ==> v[1] == '"';
      }
      if Clean(v, pending) {
        forall i | 0 < i < |v| && v[i] == '"' ensures v[i - 1] != '\\' {
          assert rest[i - 1] == '"';
          if i == 1 {
            assert rest[0] == '"';
          }
        }
      }
    }
  }

  lemma {:induction false} NoQuoteIsClean(v: string, pending: nat)
    requires forall i :: 0 <= i < |v| ==> v[i] != '"'
    ensures Clean(v, pending)
    decreases |v|
  {
    if v != "" {
      NoQuoteIsClean(v[1..], if v[0] == '\\' then pending + 1 else 0);
    }
  }

  predicate AllClean(args: seq<string>) {
    forall i :: 0 <= i < |args| ==> Clean(args[i], 0)
  }

  // ---- arguments that come back ------------------------------------------------------------------

  /** Backslashes in front of something else are one run. */
  lemma {:induction false} RunOf(n: nat, rest: string)
    requires rest == "" || rest[0] != '\\'
    ensures Run(Repeat('\\', n) + rest) == n
    ensures (Repeat('\\', n) + rest)[n..] == rest
  {
    if n == 0 {
      assert Repeat('\\', 0) + rest == rest;
    } else {
      RunOf(n - 1, rest);
      assert Repeat('\\', n) + rest == ['\\'] + (Repeat('\\', n - 1) + rest);
      assert (['\\'] + (Repeat('\\', n - 1) + rest))[1..] == Repeat('\\', n - 1) + rest;
    }
  }

  /** Backslashes in front of a quote are halved, and an odd one escapes the quote. */
  lemma {:induction false} RunBeforeQuote(n: nat, rest: string, current: string, inQuotes: bool)
    requires n > 0
    ensures WindowsRest(Repeat('\\', n) + ("\"" + rest), current, inQuotes, true)
         == WindowsRest(rest, current + BeforeQuote(n), if n % 2 == 1 then inQuotes else !inQuotes, true)
  {
    var s := Repeat('\\', n) + ("\"" + rest);
    RunOf(n, "\"" + rest);
    assert s[0] == '\\' && s[n] == '"';
    assert s[n + 1..] == s[n..][1..] == rest;
  }

  /** Other backslashes stand for themselves. */
  lemma {:induction false} RunBeforeOther(n: nat, rest: string, current: string, inQuotes: bool)
    requires n > 0 && rest != "" && rest[0] != '\\' && rest[0] != '"'
    ensures WindowsRest(Repeat('\\', n) + rest, current, inQuotes, true) == WindowsRest(rest, current + Repeat('\\', n), inQuotes, true)
  {
    var s := Repeat('\\', n) + rest;
    RunOf(n, rest);
    assert s[0] == '\\' && s[n] == rest[0];
  }

  lemma {:induction false} HalvedRun(n: nat)
    ensures BeforeQuote(2 * n) == Repeat('\\', n) && BeforeQuote(1) == "\""
  {
    assert Repeat('\\', n) + "" == Repeat('\\', n);
    assert BeforeQuote(1) == Repeat('\\', 0) + "\"";
  }

  lemma {:induction false} Joins(current: string, run: string, c: char, rest: string)
    ensures ((current + run) + [c]) + rest == (current + run) + ([c] + rest)
    ensures (current + (run + [c])) + rest == (current + run) + ([c] + rest)
    ensures current + "" == current
  {
  }

  /** Reading a clean quoted argument adds exactly its characters to the current word. */
  lemma {:induction false} WindowsArgument(v: string, n: nat, t: string, current: string)
    requires Clean(v, n)
    ensures WindowsRest(WindowsEscaped(v, n) + ("\"" + t), current, true, true) == WindowsRest(t, (current + Repeat('\\', n)) + v, false, true)
    decreases |v|
  {
    if v == "" {
      EndOfArgument(n, t, current);
    } else {
      assert v == [v[0]] + v[1..];
      var tail := WindowsEscaped(v[1..], 0) + ("\"" + t);
      if v[0] == '\\' {
        WindowsArgument(v[1..], n + 1, t, current);
        RepeatMore('\\', n);
        Joins(current, Repeat('\\', n), '\\', v[1..]);
      } else if v[0] == '"' {
        WindowsArgument(v[1..], 0, t, current + "\"");
        StringAssoc("", Repeat('\\', 1), "\"", WindowsEscaped(v[1..], 0));
        EscapedQuote(WindowsEscaped(v[1..], 0), t);
        RunBeforeQuote(1, tail, current, true);
        HalvedRun(0);
        Joins(current, "", '"', v[1..]);
        assert (current + "\"") + "" == current + "\"";
      } else {
        WindowsArgument(v[1..], 0, t, (current + Repeat('\\', n)) + [v[0]]);
        EscapedOther(n, v[0], WindowsEscaped(v[1..], 0), t);
        OtherCharacter(n, v[0], tail, current);
        Joins(current, Repeat('\\', n), v[0], v[1..]);
        assert ((current + Repeat('\\', n)) + [v[0]]) + "" == (current + Repeat('\\', n)) + [v[0]];
      }
    }
  }

  lemma {:induction false} EndOfArgument(n: nat, t: string, current: string)
    ensures WindowsRest(Repeat('\\', 2 * n) + ("\"" + t), current, true, true) == WindowsRest(t, (current + Repeat('\\', n)) + "", false, true)
  {
    if n == 0 {
      assert Repeat('\\', 0) + ("\"" + t) == "\"" + t && ("\"" + t)[1..] == t;
      assert (current + "") + "" == current;
    } else {
      RunBeforeQuote(2 * n, t, current, true);
      HalvedRun(n);
      assert (current + Repeat('\\', n)) + "" == current + Repeat('\\', n);
    }
  }

  lemma {:induction false} EscapedQuote(escaped: string, t: string)
    ensures (Repeat('\\', 1) + ("\"" + escaped)) + ("\"" + t) == Repeat('\\', 1) + ("\"" + (escaped + ("\"" + t)))
  {
  }

  lemma {:induction false} EscapedOther(n: nat, c: char, escaped: string, t: string)
    ensures (Repeat('\\', n) + ([c] + escaped)) + ("\"" + t) == Repeat('\\', n) + ([c] + (escaped + ("\"" + t)))
  {
  }

  lemma {:induction false} OtherCharacter(n: nat, c: char, tail: string, current: string)
    requires c != '\\' && c != '"'
    ensures WindowsRest(Repeat('\\', n) + ([c] + tail), current, true, true) == WindowsRest(tail, (current + Repeat('\\', n)) + [c], true, true)
  {
    assert ([c] + tail)[1..] == tail;
    if n == 0 {
      assert Repeat('\\', 0) + ([c] + tail) == [c] + tail && current + "" == current;
    } else {
      RunBeforeOther(n, [c] + tail, current, true);
    }
  }

  lemma {:induction false} WindowsFirst(v: string, t: string)
    ensures WindowsSplit(WindowsQuoted(v) + t) == WindowsRest(WindowsEscaped(v, 0) + ("\"" + t), "", true, true)
  {
    QuotedParts("\"", WindowsEscaped(v, 0), t);
  }

  lemma {:induction false} CleanRoundTrip(args: seq<string>)
    requires AllClean(args)
    ensures WindowsSplit(Command(WindowsQuoted, args)) == args
    decreases |args|
  {
    if args != [] {
      var v, t := args[0], CommandRest(WindowsQuoted, args[1..]);
      CommandParts(WindowsQuoted, args);
      CleanRoundTrip(args[1..]);
      WindowsFirst(v, t);
      WindowsArgument(v, 0, t, "");
      assert ("" + Repeat('\\', 0)) + v == v && args == [v] + args[1..];
      if t != "" {
        assert t[1..] == Command(WindowsQuoted, args[1..]);
      }
    }
  }

  // ---- arguments that do not -----------------------------------------------------------------------

  /** How many backslashes and quotes a text has. */
  function Weight(s: string): nat {
    if s == "" then 0 else (if s[0] == '\\' || s[0] == '"' then 1 else 0) + Weight(s[1..])
  }

  function TotalWeight(words: seq<string>): nat {
    if words == [] then 0 else Weight(words[0]) + TotalWeight(words[1..])
  }

  /** How many of them the words of the rest of a command have. */
  function RestWeight(s: string): nat
    decreases |s|
  {
    if s == "" then 0
    else if s[0] == '\\' then
      var run := Run(s);
      if run < |s| && s[run] == '"' then run / 2 + run % 2 + RestWeight(s[run + 1..]) else run + RestWeight(s[run..])
    else RestWeight(s[1..])
  }

  lemma {:induction false} WeightConcat(a: string, b: string)
    ensures Weight(a + b) == Weight(a) + Weight(b)
  {
    if a == "" {
      assert a + b == b;
    } else {
      assert (a + b)[1..] == a[1..] + b;
      WeightConcat(a[1..], b);
    }
  }

  lemma {:induction false} WeightRun(n: nat)
    ensures Weight(Repeat('\\', n)) == n && Weight(BeforeQuote(n)) == n / 2 + n % 2
  {
    if n > 0 {
      WeightRun(n - 1);
      assert Repeat('\\', n)[1..] == Repeat('\\', n - 1);
    }
    RepeatWeighs(n / 2);
    WeightConcat(Repeat('\\', n / 2), if n % 2 == 1 then "\"" else "");
  }

  lemma {:induction false} RepeatWeighs(n: nat)
    ensures Weight(Repeat('\\', n)) == n
  {
    if n > 0 {
      RepeatWeighs(n - 1);
      assert Repeat('\\', n)[1..] == Repeat('\\', n - 1);
    }
  }

  lemma {:induction false} FirstWord(word: string, rest: seq<string>)
    ensures TotalWeight([word] + rest) == Weight(word) + TotalWeight(rest)
  {
    assert ([word] + rest)[1..] == rest;
  }

  lemma {:induction false} WeightOne(c: char)
    ensures Weight([c]) == if c == '\\' || c == '"' then 1 else 0
    ensures Weight("") == 0 && TotalWeight([]) == 0
  {
  }

  /** Splitting makes backslashes and quotes disappear independently of the state it is in. */
  lemma {:induction false} WordsWeigh(s: string, current: string, inQuotes: bool, hasToken: bool)
    requires hasToken || current == ""
    ensures TotalWeight(WindowsRest(s, current, inQuotes, hasToken)) == Weight(current) + RestWeight(s)
    decreases |s|
  {
    hide Weight, TotalWeight, Repeat, BeforeQuote;
    WeightOne('"');
    if s == "" {
      FirstWord(current, []);
      assert [current] + [] == [current];
    } else if s[0] == '\\' {
      var run := Run(s);
      WeightRun(run);
      WeightConcat(current, BeforeQuote(run));
      WeightConcat(current, Repeat('\\', run));
      if run < |s| && s[run] == '"' {
        WordsWeigh(s[run + 1..], current + BeforeQuote(run), if run % 2 == 1 then inQuotes else !inQuotes, true);
      } else {
        WordsWeigh(s[run..], current + Repeat('\\', run), inQuotes, true);
      }
    } else if s[0] == '"' {
      WordsWeigh(s[1..], current, !inQuotes, true);
    } else if Ws(s[0]) && !inQuotes {
      WordsWeigh(s[1..], "", false, false);
      FirstWord(current, WindowsRest(s[1..], "", false, false));
    } else {
      WeightConcat(current, [s[0]]);
      WeightOne(s[0]);
      WordsWeigh(s[1..], current + [s[0]], inQuotes, true);
    }
  }

  /** What is left of the backslashes and quotes of an argument. */
  function LeftOf(v: string, pending: nat): nat
    decreases |v|
  {
    if v == "" then pending
    else if v[0] == '\\' then LeftOf(v[1..], pending + 1)
    else if v[0] == '"' then (pending + 1) / 2 + (pending + 1) % 2 + LeftOf(v[1..], 0)
    else pending + LeftOf(v[1..], 0)
  }

  lemma {:induction false} LeftIsLess(v: string, pending: nat)
    ensures LeftOf(v, pending) <= pending + Weight(v)
    ensures LeftOf(v, pending) == pending + Weight(v) <==> Clean(v, pending)
    decreases |v|
  {
    if v != "" {
      LeftIsLess(v[1..], if v[0] == '\\' then pending + 1 else 0);
    }
  }

  lemma {:induction false} RunWeighs(n: nat, rest: string)
    requires rest != "" && rest[0] != '\\'
    ensures RestWeight(Repeat('\\', n) + rest) == if rest[0] == '"' then (if n == 0 then 0 else n / 2 + n % 2) + RestWeight(rest[1..]) else n + RestWeight(rest)
  {
    var s := Repeat('\\', n) + rest;
    RunOf(n, rest);
    if n == 0 {
      assert s == rest;
    } else {
      assert s[0] == '\\' && s[n] == rest[0] && s[n + 1..] == s[n..][1..];
    }
  }

  lemma {:induction false} OtherWeighs(s: string)
    requires s != "" && s[0] != '\\' && s[0] != '"'
    ensures RestWeight(s) == RestWeight(s[1..])
  {
  }

  lemma {:induction false} EscapedWeighs(v: string, n: nat, t: string)
    ensures RestWeight(WindowsEscaped(v, n) + ("\"" + t)) == LeftOf(v, n) + RestWeight(t)
    decreases |v|
  {
    hide RestWeight, Repeat;
    assert ("\"" + t)[1..] == t;
    if v == "" {
      RunWeighs(2 * n, "\"" + t);
    } else if v[0] == '\\' {
      EscapedWeighs(v[1..], n + 1, t);
    } else {
      EscapedWeighs(v[1..], 0, t);
      var tail := WindowsEscaped(v[1..], 0) + ("\"" + t);
      var c := if v[0] == '"' then "\"" else [v[0]];
      var run := if v[0] == '"' then n + 1 else n;
      assert WindowsEscaped(v, n) + ("\"" + t) == Repeat('\\', run) + (c + tail);
      RunWeighs(run, c + tail);
      assert (c + tail)[1..] == tail;
      if v[0] != '"' {
        OtherWeighs(c + tail);
      }
    }
  }

  function LeftOfAll(args: seq<string>): nat {
    if args == [] then 0 else LeftOf(args[0], 0) + LeftOfAll(args[1..])
  }

  lemma {:induction false} CommandWeighs(args: seq<string>)
    ensures RestWeight(Command(WindowsQuoted, args)) == LeftOfAll(args)
    decreases |args|
  {
    if args != [] {
      var v, t := args[0], CommandRest(WindowsQuoted, args[1..]);
      CommandParts(WindowsQuoted, args);
      CommandWeighs(args[1..]);
      QuotedParts("\"", WindowsEscaped(v, 0), t);
      EscapedWeighs(v, 0, t);
      if t != "" {
        assert t[1..] == Command(WindowsQuoted, args[1..]);
      }
    }
  }

  lemma {:induction false} AllLeft(args: seq<string>)
    ensures LeftOfAll(args) <= TotalWeight(args)
    ensures LeftOfAll(args) == TotalWeight(args) ==> AllClean(args)
  {
    if args != [] {
      LeftIsLess(args[0], 0);
      AllLeft(args[1..]);
      assert forall i :: 0 < i < |args| ==> args[i] == args[1..][i - 1];
    }
  }

  /**
   Splitting a command quoted in the Windows form gives back its arguments exactly when no
   argument has a backslash directly before a quote.
   */
  lemma {:induction false} WindowsRoundTripIff(args: seq<string>)
    ensures WindowsSplit(Command(WindowsQuoted, args)) == args <==> AllClean(args)
  {
    if AllClean(args) {
      CleanRoundTrip(args);
    } else {
      WordsWeigh(Command(WindowsQuoted, args), "", false, false);
      CommandWeighs(args);
      AllLeft(args);
    }
  }

  /** The smallest argument that is lost: a backslash and a quote come back as a backslash alone. */
  lemma {:induction false} LostQuote()
    ensures WindowsQuoted("\\\"") == "\"\\\\\"\"" && WindowsSplit(WindowsQuoted("\\\"")) == ["\\"]
  {
    var v := "\\\"";
    assert v[1..] == "\"" && "\""[1..] == "";
    assert WindowsEscaped(v, 0) == WindowsEscaped("\"", 1) == Repeat('\\', 2) + ("\"" + WindowsEscaped("", 0));
    assert Repeat('\\', 2) == "\\\\" by {
      assert Repeat('\\', 1) == "\\";
    }
    assert WindowsEscaped("", 0) == "";
    var s := "\"\\\\\"\"";
    assert WindowsQuoted(v) == s;
    assert s[1..] == Repeat('\\', 2) + ("\"" + "\"");
    RunBeforeQuote(2, "\"", "", true);
    HalvedRun(1);
    assert Repeat('\\', 1) == "\\";
    assert WindowsSplit(s) == WindowsRest(s[1..], "", true, true);
    assert "" + "\\" == "\\";
    assert WindowsRest("\"", "\\", false, true) == WindowsRest("", "\\", true, true);
  }
}
