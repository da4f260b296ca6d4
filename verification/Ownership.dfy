/**
 The canonical hook command and the recognition of commands this program owns: the recogniser
 splits a command into words and compares them with the words the emitter has quoted.
 */
module Ownership {
  import opened Outcomes
  import opened Quoting
  import opened WindowsQuoting

  datatype Agent = ClaudeCode | Codex

  function AgentName(agent: Agent): string {
    match agent
    case ClaudeCode => "claude-code"
    case Codex => "codex"
  }

  /** The words of the command that the hook of `agent` for `event` runs. */
  function Arguments(path: string, agent: Agent, event: string): seq<string> {
    [path, "--owner", "cc-reminder", "--agent", AgentName(agent), "--event", event]
  }

  /** The `command` field: every argument quoted in the form of the platform. */
  function CanonicalCommand(windows: bool, path: string, agent: Agent, event: string): string {
    Command(if windows then WindowsQuoted else PosixQuote, Arguments(path, agent, event))
  }

  /** The form is told by the first character. */
  function ShellSplit(command: string): seq<string> {
    if command != "" && command[0] == '"' then WindowsSplit(command) else PosixSplit(command)
  }

  method ShellWords(command: string) returns (words: seq<string>)
    ensures words == ShellSplit(command)
  {
    if command != "" && command[0] == '"' {
      words := WindowsWords(command);
    } else {
      words := PosixWords(command);
    }
  }

  /** The event for which `agent` owns a command. */
  function RecognisedEvent(catalogue: set<(Agent, string)>, agent: Agent, command: string): Option<string> {
    var words := ShellSplit(command);
    if |words| != 7 then None
    else if words[1] != "--owner" || words[2] != "cc-reminder" || words[3] != "--agent" || words[4] != AgentName(agent) || words[5] != "--event"
    then None
    else if (agent, words[6]) !in catalogue then None
    else Some(words[6])
  }

  method RecognizeOwned(catalogue: set<(Agent, string)>, agent: Agent, command: string) returns (event: Option<string>)
    ensures event == RecognisedEvent(catalogue, agent, command)
  {
    var tokens := ShellWords(command);
    if |tokens| != 7 {
      return None;
    }
    if tokens[1] != "--owner" || tokens[2] != "cc-reminder" || tokens[3] != "--agent" || tokens[4] != AgentName(agent) || tokens[5] != "--event" {
      return None;
    }
    if (agent, tokens[6]) !in catalogue {
      return None;
    }
    return Some(tokens[6]);
  }

  /** A command is owned exactly when it splits into canonical words for a catalogued event. */
  lemma {:induction false} OwnedIffCanonical(catalogue: set<(Agent, string)>, agent: Agent, command: string, event: string)
    ensures RecognisedEvent(catalogue, agent, command) == Some(event) <==>
      (agent, event) in catalogue && exists path :: ShellSplit(command) == Arguments(path, agent, event)
  {
    var words := ShellSplit(command);
    if RecognisedEvent(catalogue, agent, command) == Some(event) {
      assert words == Arguments(words[0], agent, event);
    }
    if exists path :: words == Arguments(path, agent, event) {
      var path :| words == Arguments(path, agent, event);
    }
  }

  lemma {:induction false} FixedWordsAreClean(agent: Agent)
    ensures Clean("--owner", 0) && Clean("cc-reminder", 0) && Clean("--agent", 0) && Clean(AgentName(agent), 0) && Clean("--event", 0)
  {
    hide Clean;
    NoQuoteIsClean("--owner", 0);
    NoQuoteIsClean("cc-reminder", 0);
    NoQuoteIsClean("--agent", 0);
    NoQuoteIsClean(AgentName(agent), 0);
    NoQuoteIsClean("--event", 0);
  }

  /** Splitting the emitted command gives back its words, in the Windows form for clean paths and events. */
  lemma {:induction false} EmittedWords(windows: bool, path: string, agent: Agent, event: string)
    requires windows ==> Clean(path, 0) && Clean(event, 0)
    ensures ShellSplit(CanonicalCommand(windows, path, agent, event)) == Arguments(path, agent, event)
  {
    hide Command, WindowsSplit, PosixSplit, AllClean;
    var args := Arguments(path, agent, event);
    FirstCharacter(windows, args);
    if windows {
      ArgumentsAreClean(path, agent, event);
      WindowsRoundTripIff(args);
    } else {
      PosixRoundTrip(args);
    }
  }

  lemma {:induction false} ArgumentsAreClean(path: string, agent: Agent, event: string)
    requires Clean(path, 0) && Clean(event, 0)
    ensures AllClean(Arguments(path, agent, event))
  {
    hide Clean, AgentName;
    FixedWordsAreClean(agent);
  }

  lemma {:induction false} FirstCharacter(windows: bool, args: seq<string>)
    requires args != []
    ensures var command := Command(if windows then WindowsQuoted else PosixQuote, args);
      command != "" && command[0] == if windows then '"' else '\''
  {
  }

  /**
   The recogniser maps an emitted command back to its event for its own agent, if the event is
   catalogued, and to nothing for the other agent.
   */
  lemma {:induction false} EmittedIsRecognised(catalogue: set<(Agent, string)>, windows: bool, path: string, agent: Agent, event: string, reader: Agent)
    requires windows ==> Clean(path, 0) && Clean(event, 0)
    ensures RecognisedEvent(catalogue, reader, CanonicalCommand(windows, path, agent, event))
         == if reader == agent && (agent, event) in catalogue then Some(event) else None
  {
    hide CanonicalCommand, ShellSplit;
    EmittedWords(windows, path, agent, event);
    assert AgentName(ClaudeCode) != AgentName(Codex);
  }

  /** The words of an emitted command, in full. */
  lemma {:induction false} EmittedInFull(windows: bool, path: string, event: string)
    requires windows ==> Clean(path, 0) && Clean(event, 0)
    ensures ShellSplit(CanonicalCommand(windows, path, ClaudeCode, event))
         == [path, "--owner", "cc-reminder", "--agent", "claude-code", "--event", event]
    ensures ShellSplit(CanonicalCommand(windows, path, Codex, event))
         == [path, "--owner", "cc-reminder", "--agent", "codex", "--event", event]
  {
    hide ShellSplit, CanonicalCommand, Clean;
    EmittedWords(windows, path, ClaudeCode, event);
    EmittedWords(windows, path, Codex, event);
  }
}
