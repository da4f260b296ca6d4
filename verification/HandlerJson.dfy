/**
 The JSON of a handler as the program writes it (`serialise_owned_handler_value`, keys in
 alphabetical order), for commands in which no character has to be escaped, and how its command is
 read back (`handler_event`).
 */
module HandlerJson {
  import opened Outcomes
  import opened JsonLayout
  import opened EventPlan
  import opened HandlerPatch
  import opened Ownership
  import Quoting

  /** A character that stands for itself in a JSON string (section 7 of RFC 8259). */
  predicate Unescaped(c: char) {
    c >= ' ' && c != '"' && c != '\\'
  }

  predicate Verbatim(s: string) {
    forall i :: 0 <= i < |s| ==> Unescaped(s[i])
  }

  function HandlerText(command: string): string {
    "{\"command\":\"" + (command + "\",\"timeout\":10,\"type\":\"command\"}")
  }

  /** The entry that is written for a command, with the empty matcher. */
  function EntryFor(command: string): EventPlan.Entry {
    EventPlan.Entry(Some(""), HandlerText(command), "{\"hooks\":[", "],\"matcher\":\"\"}")
  }

  /** The characters up to the closing quote of a string without escapes. */
  function Literal(s: string): Option<string> {
    if s == "" then None
    else if s[0] == '"' then Some("")
    else if !Unescaped(s[0]) then None
    else
      var rest := Literal(s[1..]);
      if rest.None? then None else Some([s[0]] + rest.value)
  }

  /** The command of a handler in the form in which the program writes it. */
  function CommandOf(text: string): Option<string> {
    if "{\"command\":\"" <= text then Literal(text[12..]) else None
  }

  lemma {:induction false} LiteralIsRead(s: string, rest: string)
    requires Verbatim(s)
    ensures Literal(s + ("\"" + rest)) == Some(s)
  {
    if s == "" {
      assert s + ("\"" + rest) == "\"" + rest;
    } else {
      LiteralIsRead(s[1..], rest);
      assert (s + ("\"" + rest))[1..] == s[1..] + ("\"" + rest);
      assert s == [s[0]] + s[1..];
    }
  }

  /** The command that is written is the command that is read. */
  lemma {:induction false} CommandIsRead(command: string)
    requires Verbatim(command)
    ensures CommandOf(HandlerText(command)) == Some(command)
  {
    var rest := ",\"timeout\":10,\"type\":\"command\"}";
    LiteralIsRead(command, rest);
    assert "\",\"timeout\":10,\"type\":\"command\"}" == "\"" + rest;
    assert HandlerText(command)[12..] == command + ("\"" + rest);
  }

  lemma {:induction false} HandlerIsWf(command: string)
    ensures WfBody(HandlerText(command))
  {
    var text := HandlerText(command);
    assert text[0] == '{' && text[|text| - 1] == '}';
  }

  // ---- ownership -------------------------------------------------------------------------------------

  /** A handler is owned when its command is. */
  function OwnerBy(catalogue: set<(Agent, string)>, agent: Agent, commandOf: string -> Option<string>): Owner {
    handler => if commandOf(handler).None? then None else RecognisedEvent(catalogue, agent, commandOf(handler).value)
  }

  /** No character of the argument is quoted or escaped in a command or in JSON. */
  predicate Simple(s: string) {
    Verbatim(s) && '\'' !in s
  }

  lemma {:induction false} SimpleIsQuoted(s: string)
    requires Simple(s)
    ensures Quoting.PosixEscaped(s) == s && Verbatim(Quoting.PosixQuote(s))
  {
    if s != "" {
      SimpleIsQuoted(s[1..]);
      assert s == [s[0]] + s[1..];
    }
  }

  lemma {:induction false} CommandIsVerbatim(args: seq<string>)
    requires forall i :: 0 <= i < |args| ==> Simple(args[i])
    ensures Verbatim(Quoting.Command(Quoting.PosixQuote, args))
  {
    if args != [] {
      SimpleIsQuoted(args[0]);
      CommandIsVerbatim(args[1..]);
    }
  }

  /** The handler written for a simple path and a simple, catalogued event is owned for that event. */
  lemma {:induction false} WrittenIsOwned(catalogue: set<(Agent, string)>, path: string, agent: Agent, event: string)
    requires Simple(path) && Simple(event) && (agent, event) in catalogue
    ensures var command := CanonicalCommand(false, path, agent, event);
      && CommandOf(HandlerText(command)) == Some(command)
      && OwnerBy(catalogue, agent, CommandOf)(HandlerText(command)) == Some(event)
  {
    hide Verbatim, CommandOf, HandlerText, RecognisedEvent, Quoting.Command;
    var args := Arguments(path, agent, event);
    FixedWordsAreSimple(agent);
    forall i | 0 <= i < |args| ensures Simple(args[i]) {}
    CommandIsVerbatim(args);
    CommandIsRead(CanonicalCommand(false, path, agent, event));
    EmittedIsRecognised(catalogue, false, path, agent, event, agent);
  }

  lemma {:induction false} FixedWordsAreSimple(agent: Agent)
    ensures Simple("--owner") && Simple("cc-reminder") && Simple("--agent") && Simple(AgentName(agent)) && Simple("--event")
  {
  }
}
