/** Progress inference (`_infer_progress_state`): reads the visible text of a
    tmux pane, and the command running in it, and says whether the agent in
    the pane has failed, is waiting for an answer, is busy or is idle. The
    first rule that matches wins. */
module Progress {
  import opened Wrappers
  import opened Text

  datatype ProgressState = Error | Waiting | Running | Idle

  /** Text that shows a failure. */
  const ErrorMarkers: seq<string> := ["Traceback", "failed to open"]

  /** Text that shows a question waiting for the user. */
  const WaitingMarkers: seq<string> := ["(y/n)"]

  /** Text that shows the agent idle at its prompt, whatever command is reported. */
  const IdleMarkers: seq<string> := ["ready"]

  /** Some marker of the list occurs in the text. */
  predicate AnyMarker(text: string, markers: seq<string>) {
    exists i | 0 <= i < |markers| :: Contains(text, markers[i])
  }

  /** A command is running when one is reported and it is not empty. */
  predicate CommandRunning(command: Option<string>) {
    command.Some? && command.value != ""
  }

  /** `_infer_progress_state(text, current_command)`: an error marker first,
      then a question, then a running command on a screen that does not show
      the idle marker, else idle. */
  function InferProgressState(text: string, command: Option<string>): (st: ProgressState)
    ensures st == Error <==> AnyMarker(text, ErrorMarkers)
    ensures st == Waiting <==> !AnyMarker(text, ErrorMarkers) && AnyMarker(text, WaitingMarkers)
    ensures st == Running <==> (!AnyMarker(text, ErrorMarkers) && !AnyMarker(text, WaitingMarkers)
      && CommandRunning(command) && !AnyMarker(text, IdleMarkers))
    ensures st == Idle <==> (!AnyMarker(text, ErrorMarkers) && !AnyMarker(text, WaitingMarkers)
      && (!CommandRunning(command) || AnyMarker(text, IdleMarkers)))
  {
    if AnyMarker(text, ErrorMarkers) then Error
    else if AnyMarker(text, WaitingMarkers) then Waiting
    else if CommandRunning(command) && !AnyMarker(text, IdleMarkers) then Running
    else Idle
  }

  /** A marker stays visible when more text surrounds it. */
  lemma AnyMarkerWiden(text: string, markers: seq<string>, a: string, b: string)
    requires AnyMarker(text, markers)
    ensures AnyMarker(a + text + b, markers)
  {
    var i :| 0 <= i < |markers| && Contains(text, markers[i]);
    ContainsWiden(text, markers[i], a, b);
  }

  /** An error on screen is reported whatever else is shown around it and
      whatever command is running. */
  lemma ErrorSticks(text: string, command: Option<string>, a: string, b: string, other: Option<string>)
    requires InferProgressState(text, command) == Error
    ensures InferProgressState(a + text + b, other) == Error
  {
    AnyMarkerWiden(text, ErrorMarkers, a, b);
  }

  /** A question on screen outranks any running command, until an error shows. */
  lemma WaitingOutranksCommand(text: string, command: Option<string>)
    requires InferProgressState(text, None) == Waiting
    ensures InferProgressState(text, command) == Waiting
  {
  }

  /** The command only decides between running and idle, and only while the
      screen does not show the idle marker: the text alone decides error and
      waiting. */
  lemma CommandDecidesOnlyRunning(text: string, c1: Option<string>, c2: Option<string>)
    ensures InferProgressState(text, c1) in {Error, Waiting}
      <==> InferProgressState(text, c2) in {Error, Waiting}
    ensures InferProgressState(text, c1) in {Running, Idle}
      ==> (InferProgressState(text, c1)
        == (if CommandRunning(c1) && !AnyMarker(text, IdleMarkers) then Running else Idle))
  {
  }

  /** A screen showing the idle marker, and no error or question, is idle
      whatever command is reported. */
  lemma ReadyMarkerMeansIdle(text: string, command: Option<string>, a: string, b: string)
    requires !AnyMarker(a + text + b, ErrorMarkers) && !AnyMarker(a + text + b, WaitingMarkers)
    requires AnyMarker(text, IdleMarkers)
    ensures InferProgressState(a + text + b, command) == Idle
  {
    AnyMarkerWiden(text, IdleMarkers, a, b);
  }

  /** No marker can occur in text that is shorter than every marker or lacks
      a character of each. */
  lemma NoMarker(text: string, markers: seq<string>)
    requires forall i :: 0 <= i < |markers| ==>
      |markers[i]| > |text| || exists c :: c in markers[i] && c !in text
    ensures !AnyMarker(text, markers)
  {
    forall i | 0 <= i < |markers| ensures !Contains(text, markers[i]) {
      NotContains(text, markers[i]);
    }
  }

  /** `Traceback: failed to open file` is an error. */
  lemma ErrorSample()
    ensures InferProgressState("Traceback: failed to open file", None) == Error
  {
    ContainsAt("Traceback: failed to open file", ErrorMarkers[0], 0);
  }

  /** The approval prompt holds no error marker ... */
  lemma PromptHasNoError()
    ensures !AnyMarker("Please approve this command (y/n)", ErrorMarkers)
  {
    var text := "Please approve this command (y/n)";
    assert 'T' !in text && 'f' !in text;
    assert 'T' == ErrorMarkers[0][0] && 'f' == ErrorMarkers[1][0];
    NoMarker(text, ErrorMarkers);
  }

  /** ... so its `(y/n)` makes it waiting. */
  lemma WaitingSample()
    ensures InferProgressState("Please approve this command (y/n)", None) == Waiting
  {
    var text := "Please approve this command (y/n)";
    PromptHasNoError();
    assert OccursAt(text, WaitingMarkers[0], 28);
    ContainsAt(text, WaitingMarkers[0], 28);
  }

  /** Empty text with `codex` running is running. */
  lemma RunningSample()
    ensures InferProgressState("", Some("codex")) == Running
  {
    NoMarker("", ErrorMarkers);
    NoMarker("", WaitingMarkers);
    NoMarker("", IdleMarkers);
  }

  /** `ready` with no command is idle. */
  lemma IdleSample()
    ensures InferProgressState("ready", None) == Idle
  {
    assert 'T' in ErrorMarkers[0] && 'T' !in "ready";
    assert '(' in WaitingMarkers[0] && '(' !in "ready";
    NoMarker("ready", ErrorMarkers);
    NoMarker("ready", WaitingMarkers);
  }

  /** `ready` stays idle while `codex` is reported as the current command. */
  lemma ReadyWithCommandSample()
    ensures InferProgressState("ready", Some("codex")) == Idle
  {
    assert 'T' in ErrorMarkers[0] && 'T' !in "ready";
    assert '(' in WaitingMarkers[0] && '(' !in "ready";
    NoMarker("ready", ErrorMarkers);
    NoMarker("ready", WaitingMarkers);
    ContainsAt("ready", IdleMarkers[0], 0);
  }
}
