/** The tmux session model: listing panes (`tmux_panes`), creating and closing
    sessions (`tmux_create_session`, `tmux_close_session`) and the server
    health summary (`tmux_health`). Each operation sees the executor only
    through the result it returns for the command issued. */
module Tmux {
  import opened Wrappers
  import opened Text
  import opened Executor

  // ---------------------------------------------------------------------
  // Pane listing.

  /** One line of `tmux list-panes -a` output, field by field. */
  datatype Pane = Pane(
    session: string, windowIndex: string, windowFlag: string, paneId: string,
    paneIndex: string, command: string, path: string)

  datatype PaneListing = PaneListing(ok: bool, panes: seq<Pane>)

  const PaneFieldCount: nat := 7

  function PaneFields(p: Pane): (fields: seq<string>)
    ensures |fields| == PaneFieldCount
  {
    [p.session, p.windowIndex, p.windowFlag, p.paneId, p.paneIndex, p.command, p.path]
  }

  /** The two-character sequence backslash, `t` that tmux may print instead of
      a tab. */
  const EscapedTab: string := "\\t"

  /** Every escaped `\t` becomes a tab character, scanning left to right. */
  function UnescapeTabs(s: string): string
    decreases |s|
  {
    if |s| == 0 then ""
    else if |s| >= 2 && s[0] == '\\' && s[1] == 't' then [TAB] + UnescapeTabs(s[2..])
    else [s[0]] + UnescapeTabs(s[1..])
  }

  /** A line with exactly seven tab-separated fields (after unescaping) is a
      pane; any other line is skipped. */
  function ParsePaneLine(line: string): (p: Option<Pane>)
    ensures p.Some? <==> |Split(UnescapeTabs(line), TAB)| == PaneFieldCount
    ensures p.Some? ==> PaneFields(p.value) == Split(UnescapeTabs(line), TAB)
  {
    var f := Split(UnescapeTabs(line), TAB);
    if |f| == PaneFieldCount then Some(Pane(f[0], f[1], f[2], f[3], f[4], f[5], f[6])) else None
  }

  /** The panes of the well-formed lines, in line order. */
  function ParsePanes(lines: seq<string>): (panes: seq<Pane>)
    ensures |panes| <= |lines|
    decreases |lines|
  {
    if |lines| == 0 then [] else LinePanes(lines[0]) + ParsePanes(lines[1..])
  }

  /** The pane of one line, if it is well formed. */
  function LinePanes(line: string): (panes: seq<Pane>)
    ensures |panes| <= 1
  {
    var p := ParsePaneLine(line);
    if p.Some? then [p.value] else []
  }

  /** `tmux_panes()` given the executor's result for the list-panes command:
      always ok, and no pane at all for empty output. */
  function ListPanes(reply: ExecResult): (l: PaneListing)
    ensures l.ok
    ensures reply.stdout == "" ==> l.panes == []
  {
    assert ParsePanes([""]) == [] by { assert [""][1..] == []; }
    PaneListing(true, ParsePanes(Split(reply.stdout, NL)))
  }

  /** Parsing is line by line: the panes of two blocks of lines are the panes
      of each block, in order, so a malformed line only drops itself. */
  lemma {:induction false} ParsePanesAppend(a: seq<string>, b: seq<string>)
    ensures ParsePanes(a + b) == ParsePanes(a) + ParsePanes(b)
    decreases |a|
  {
    if |a| == 0 {
      assert a + b == b;
    } else {
      assert (a + b)[0] == a[0] && (a + b)[1..] == a[1..] + b;
      ParsePanesAppend(a[1..], b);
      calc {
        ParsePanes(a + b);
        LinePanes(a[0]) + ParsePanes(a[1..] + b);
        LinePanes(a[0]) + (ParsePanes(a[1..]) + ParsePanes(b));
        (LinePanes(a[0]) + ParsePanes(a[1..])) + ParsePanes(b);
      }
    }
  }

  /** A line whose field count is wrong contributes no pane and does not stop
      the lines around it from being parsed. */
  lemma MalformedLineSkipped(a: seq<string>, bad: string, b: seq<string>)
    requires |Split(UnescapeTabs(bad), TAB)| != PaneFieldCount
    ensures ParsePanes(a + [bad] + b) == ParsePanes(a) + ParsePanes(b)
  {
    ParsePanesAppend(a + [bad], b);
    ParsePanesAppend(a, [bad]);
    assert ParsePanes([bad]) == LinePanes(bad) + ParsePanes([]) by {
      assert [bad][1..] == [];
    }
    assert ParsePanes(a + [bad]) == ParsePanes(a);
  }

  /** Every listed pane comes from some line of the output. */
  lemma {:induction false} ParsedPanesComeFromLines(lines: seq<string>, k: nat)
    requires k < |ParsePanes(lines)|
    ensures exists j :: 0 <= j < |lines| && ParsePaneLine(lines[j]) == Some(ParsePanes(lines)[k])
    decreases |lines|
  {
    var head := ParsePaneLine(lines[0]);
    assert ParsePanes(lines) == LinePanes(lines[0]) + ParsePanes(lines[1..]);
    if head.Some? && k == 0 {
      assert ParsePaneLine(lines[0]) == Some(ParsePanes(lines)[k]);
    } else {
      var k' := if head.Some? then k - 1 else k;
      assert ParsePanes(lines)[k] == ParsePanes(lines[1..])[k'];
      ParsedPanesComeFromLines(lines[1..], k');
      var j :| 0 <= j < |lines[1..]| && ParsePaneLine(lines[1..][j]) == Some(ParsePanes(lines[1..])[k']);
      assert lines[j + 1] == lines[1..][j];
    }
  }

  /** The line tmux prints for a pane when it writes the escaped `\t`. */
  function PaneLine(p: Pane): string {
    JoinWith(PaneFields(p), EscapedTab)
  }

  /** `sep.join(parts)` for a separator of any length. */
  function JoinWith(parts: seq<string>, sep: string): string
    decreases |parts|
  {
    if |parts| == 0 then ""
    else if |parts| == 1 then parts[0]
    else parts[0] + sep + JoinWith(parts[1..], sep)
  }

  /** Text without backslashes is left alone by unescaping. */
  lemma {:induction false} UnescapePlainPrefix(w: string, rest: string)
    requires '\\' !in w
    ensures UnescapeTabs(w + rest) == w + UnescapeTabs(rest)
    decreases |w|
  {
    if |w| == 0 {
      assert w + rest == rest;
    } else {
      var s := w + rest;
      assert s[0] == w[0] && s[0] != '\\' && s[1..] == w[1..] + rest;
      UnescapePlainPrefix(w[1..], rest);
      assert [w[0]] + w[1..] == w;
    }
  }

  /** Unescaping fields joined by escaped tabs gives the fields joined by tabs. */
  lemma {:induction false} UnescapeJoined(parts: seq<string>)
    requires forall i :: 0 <= i < |parts| ==> '\\' !in parts[i]
    ensures UnescapeTabs(JoinWith(parts, EscapedTab)) == Join(parts, TAB)
    decreases |parts|
  {
    if |parts| == 1 {
      UnescapePlainPrefix(parts[0], "");
      assert parts[0] + "" == parts[0];
    } else if |parts| > 1 {
      var rest := JoinWith(parts[1..], EscapedTab);
      UnescapePlainPrefix(parts[0], EscapedTab + rest);
      var t := EscapedTab + rest;
      assert t[0] == '\\' && t[1] == 't' && t[2..] == rest;
      assert UnescapeTabs(t) == [TAB] + UnescapeTabs(rest);
      UnescapeJoined(parts[1..]);
      assert parts[0] + EscapedTab + rest == parts[0] + t;
    }
  }

  /** Field text the listing can carry unchanged: no backslash, tab or newline. */
  predicate PlainField(f: string) {
    '\\' !in f && TAB !in f && NL !in f
  }

  predicate PlainPane(p: Pane) {
    forall i :: 0 <= i < PaneFieldCount ==> PlainField(PaneFields(p)[i])
  }

  lemma PaneLineRoundTrip(p: Pane)
    requires PlainPane(p)
    ensures ParsePaneLine(PaneLine(p)) == Some(p)
    ensures NL !in PaneLine(p)
  {
    var f := PaneFields(p);
    UnescapeJoined(f);
    SplitJoin(f, TAB);
    JoinWithAvoids(f, EscapedTab, NL);
  }

  lemma {:induction false} JoinWithAvoids(parts: seq<string>, sep: string, c: char)
    requires c !in sep
    requires forall i :: 0 <= i < |parts| ==> c !in parts[i]
    ensures c !in JoinWith(parts, sep)
    decreases |parts|
  {
    if |parts| > 1 {
      JoinWithAvoids(parts[1..], sep, c);
    }
  }

  function PaneLines(panes: seq<Pane>): (lines: seq<string>)
    ensures |lines| == |panes|
    ensures forall i :: 0 <= i < |panes| ==> lines[i] == PaneLine(panes[i])
  {
    if |panes| == 0 then [] else [PaneLine(panes[0])] + PaneLines(panes[1..])
  }

  /** Listing what tmux prints for a set of panes, one line per pane, gives back
      exactly those panes, in order; no output at all is an empty listing. */
  lemma ListPanesRoundTrip(panes: seq<Pane>, exitCode: int, stderr: string, attempts: nat)
    requires forall i :: 0 <= i < |panes| ==> PlainPane(panes[i])
    ensures ListPanes(ExecResult(exitCode, Join(PaneLines(panes), NL), stderr, attempts))
      == PaneListing(true, panes)
  {
    var lines := PaneLines(panes);
    if |panes| == 0 {
      assert Split("", NL) == [""];
      assert ParsePaneLine("") == None;
      assert ParsePanes([""]) == [] by { assert [""][1..] == []; }
    } else {
      forall i | 0 <= i < |lines| ensures NL !in lines[i] {
        PaneLineRoundTrip(panes[i]);
      }
      SplitJoin(lines, NL);
      PanesOfLines(panes);
    }
  }

  lemma {:induction false} PanesOfLines(panes: seq<Pane>)
    requires forall i :: 0 <= i < |panes| ==> PlainPane(panes[i])
    ensures ParsePanes(PaneLines(panes)) == panes
    decreases |panes|
  {
    if |panes| > 0 {
      PaneLineRoundTrip(panes[0]);
      var lines := PaneLines(panes);
      assert lines[1..] == PaneLines(panes[1..]);
      PanesOfLines(panes[1..]);
      assert [panes[0]] + panes[1..] == panes;
    }
  }

  /** The line `codex\t0\t0\t%1\t1\tbash\t/home/megha`, with escaped tabs, is
      one pane of session `codex` with pane id `%1`. */
  lemma ListPanesEscapedSample(out: string)
    requires out == "codex\\t0\\t0\\t%1\\t1\\tbash\\t/home/megha"
    ensures var l := ListPanes(ExecResult(0, out, "", 1));
      l.ok && |l.panes| == 1 && l.panes[0].session == "codex" && l.panes[0].paneId == "%1"
  {
    var p := Pane("codex", "0", "0", "%1", "1", "bash", "/home/megha");
    assert PlainPane(p);
    ListPanesRoundTrip([p], 0, "", 1);
    SamplePaneLine(p, out);
  }

  lemma SamplePaneLine(p: Pane, out: string)
    requires p == Pane("codex", "0", "0", "%1", "1", "bash", "/home/megha")
    requires out == "codex\\t0\\t0\\t%1\\t1\\tbash\\t/home/megha"
    ensures Join(PaneLines([p]), NL) == out
  {
    PaneLineFields(p);
  }

  /** The printed line is the seven fields with an escaped tab between each. */
  lemma PaneLineFields(p: Pane)
    ensures PaneLine(p) == p.session + (EscapedTab + (p.windowIndex + (EscapedTab + (p.windowFlag + (EscapedTab
      + (p.paneId + (EscapedTab + (p.paneIndex + (EscapedTab + (p.command + (EscapedTab + p.path)))))))))))
  {
    var t := EscapedTab;
    var f := PaneFields(p);
    assert JoinWith(f[6..], t) == p.path by { assert f[6..] == [p.path]; }
    JoinWithStep(f, 5, t);
    JoinWithStep(f, 4, t);
    JoinWithStep(f, 3, t);
    JoinWithStep(f, 2, t);
    JoinWithStep(f, 1, t);
    JoinWithStep(f, 0, t);
    assert f[0..] == f;
  }

  /** Peeling one field off the front of a suffix of the fields. */
  lemma JoinWithStep(f: seq<string>, i: nat, sep: string)
    requires i + 1 < |f|
    ensures JoinWith(f[i..], sep) == f[i] + (sep + JoinWith(f[i + 1..], sep))
  {
    assert f[i..] == [f[i]] + f[i + 1..];
    JoinWithCons(f[i], f[i + 1..], sep);
    assert f[i] + sep + JoinWith(f[i + 1..], sep) == f[i] + (sep + JoinWith(f[i + 1..], sep));
  }

  lemma JoinWithCons(a: string, rest: seq<string>, sep: string)
    requires |rest| >= 1
    ensures JoinWith([a] + rest, sep) == a + sep + JoinWith(rest, sep)
  {
    assert ([a] + rest)[1..] == rest;
  }

  // ---------------------------------------------------------------------
  // Session names and lifecycle commands.

  predicate IsSessionNameChar(c: char) {
    ('a' <= c <= 'z') || ('A' <= c <= 'Z') || ('0' <= c <= '9') || c == '_' || c == '-'
  }

  /** A session name safe to place in a shell command: one or more letters,
      digits, underscores or hyphens. */
  predicate ValidSessionName(name: string) {
    |name| > 0 && forall i :: 0 <= i < |name| ==> IsSessionNameChar(name[i])
  }

  /** The error raised for a bad argument, before any command is run. */
  datatype ArgumentError = InvalidSessionName(name: string)

  /** The commands an operation issued, in order, and what it returned. */
  datatype Call<T> = Call(issued: seq<string>, outcome: T)

  /** A valid name holds no character outside the safe set, so no space,
      newline or shell metacharacter. */
  lemma ValidNameAvoids(name: string, c: char)
    requires ValidSessionName(name) && !IsSessionNameChar(c)
    ensures c !in name
  {
  }

  /** The command `tmux_create_session` runs: its words joined by single
      spaces. */
  function CreateCommand(name: Option<string>): (c: string)
    ensures c == Join(CreateWords(name), ' ')
  {
    if name.Some? then
      NamedCreateJoin(name.value);
      "tmux new-session -d -s " + name.value
    else
      BareCreateJoin();
      "tmux new-session -d"
  }

  /** The named create command is its words joined by spaces. */
  lemma NamedCreateJoin(n: string)
    ensures Join(["tmux", "new-session", "-d", "-s", n], ' ') == "tmux new-session -d -s " + n
  {
    JoinCons("-s", [n], ' ');
    JoinCons("-d", ["-s", n], ' ');
    JoinCons("new-session", ["-d", "-s", n], ' ');
    JoinCons("tmux", ["new-session", "-d", "-s", n], ' ');
    assert ["tmux", "new-session", "-d", "-s", n] == ["tmux"] + ["new-session", "-d", "-s", n];
  }

  /** The bare create command is its words joined by spaces. */
  lemma BareCreateJoin()
    ensures Join(["tmux", "new-session", "-d"], ' ') == "tmux new-session -d"
  {
    JoinCons("new-session", ["-d"], ' ');
    JoinCons("tmux", ["new-session", "-d"], ' ');
    assert ["tmux", "new-session", "-d"] == ["tmux"] + ["new-session", "-d"];
  }

  /** The words of the create command. */
  function CreateWords(name: Option<string>): seq<string> {
    if name.Some? then ["tmux", "new-session", "-d", "-s", name.value] else ["tmux", "new-session", "-d"]
  }

  /** A valid name cannot change the shape of the command: splitting it on
      spaces gives back the fixed words and the name as the last word. */
  lemma CreateCommandWords(name: Option<string>)
    requires name.None? || ValidSessionName(name.value)
    ensures Split(CreateCommand(name), ' ') == CreateWords(name)
  {
    if name.Some? {
      NamedCreateWords(name.value);
    } else {
      BareCreateWords();
    }
  }

  lemma NamedCreateWords(n: string)
    requires ValidSessionName(n)
    ensures Split("tmux new-session -d -s " + n, ' ') == ["tmux", "new-session", "-d", "-s", n]
  {
    var w := ["tmux", "new-session", "-d", "-s", n];
    ValidNameAvoids(n, ' ');
    NamedCreateJoin(n);
    assert ' ' !in w[0] && ' ' !in w[1] && ' ' !in w[2] && ' ' !in w[3];
    SplitJoin(w, ' ');
  }

  lemma BareCreateWords()
    ensures Split("tmux new-session -d", ' ') == ["tmux", "new-session", "-d"]
  {
    var w := ["tmux", "new-session", "-d"];
    BareCreateJoin();
    assert ' ' !in w[0] && ' ' !in w[1] && ' ' !in w[2];
    SplitJoin(w, ' ');
  }

  datatype Created = Created(ok: bool, name: Option<string>)

  /** `tmux_create_session({"name": name})`, with `run` standing for the
      executor: a bad name is rejected with nothing run; otherwise the one
      `tmux new-session` command is run and the requested name echoed. */
  function CreateSession(name: Option<string>, run: string -> ExecResult): (c: Call<Result<Created, ArgumentError>>)
    ensures name.Some? && !ValidSessionName(name.value)
      ==> c == Call([], Err(InvalidSessionName(name.value)))
    ensures name.None? || ValidSessionName(name.value)
      ==> c == Call([CreateCommand(name)], Ok(Created(run(CreateCommand(name)).exitCode == 0, name)))
  {
    if name.Some? && !ValidSessionName(name.value) then Call([], Err(InvalidSessionName(name.value)))
    else
      Call([CreateCommand(name)], Ok(Created(run(CreateCommand(name)).exitCode == 0, name)))
  }

  datatype CloseError = NotFound | ServerNotRunning | Failed(stderr: string)

  datatype Closed = Closed(ok: bool, session: string, error: Option<CloseError>)

  /** What tmux writes to stderr when the session does not exist. */
  const NoSessionText: string := "can't find session"

  /** What tmux writes to stderr when no tmux server is running. */
  const NoServerText: string := "failed to connect to server"

  /** How `tmux_close_session` reads the result of `tmux kill-session`: the
      stderr texts first, in this order, then the exit code. */
  function ClassifyClose(r: ExecResult): (e: Option<CloseError>)
    ensures e == Some(NotFound) <==> Contains(r.stderr, NoSessionText)
    ensures e == Some(ServerNotRunning) <==> (!Contains(r.stderr, NoSessionText)
      && Contains(r.stderr, NoServerText))
    ensures r.exitCode != 0 && !Contains(r.stderr, NoSessionText) && !Contains(r.stderr, NoServerText)
      ==> e == Some(Failed(r.stderr))
    ensures e.None? <==> (r.exitCode == 0 && !Contains(r.stderr, NoSessionText)
      && !Contains(r.stderr, NoServerText))
    ensures e.Some? && e.value.Failed? ==> e.value.stderr == r.stderr && r.exitCode != 0
  {
    if Contains(r.stderr, NoSessionText) then Some(NotFound)
    else if Contains(r.stderr, NoServerText) then Some(ServerNotRunning)
    else if r.exitCode == 0 then None
    else Some(Failed(r.stderr))
  }

  /** The command `tmux_close_session` runs: `tmux kill-session -t` and the
      name, joined by single spaces. */
  function CloseCommand(name: string): (c: string)
    ensures c == Join(["tmux", "kill-session", "-t", name], ' ')
  {
    JoinCons("-t", [name], ' ');
    JoinCons("kill-session", ["-t", name], ' ');
    JoinCons("tmux", ["kill-session", "-t", name], ' ');
    assert ["tmux", "kill-session", "-t", name] == ["tmux"] + ["kill-session", "-t", name];
    "tmux kill-session -t " + name
  }

  /** A valid name cannot change the shape of the close command. */
  lemma CloseCommandWords(name: string)
    requires ValidSessionName(name)
    ensures Split(CloseCommand(name), ' ') == ["tmux", "kill-session", "-t", name]
  {
    ValidNameAvoids(name, ' ');
    SplitJoin(["tmux", "kill-session", "-t", name], ' ');
  }

  /** `tmux_close_session(name)`: a bad name is rejected with nothing run;
      otherwise `tmux kill-session -t name` is run and its result classified;
      the reply is ok exactly when there is no error. */
  function CloseSession(name: string, run: string -> ExecResult): (c: Call<Result<Closed, ArgumentError>>)
    ensures !ValidSessionName(name) ==> c == Call([], Err(InvalidSessionName(name)))
    ensures ValidSessionName(name)
      ==> && c.issued == [CloseCommand(name)]
          && c.outcome.Ok? && c.outcome.value.session == name
          && (c.outcome.value.ok <==> c.outcome.value.error.None?)
          && c.outcome.value.error == ClassifyClose(run(c.issued[0]))
  {
    if !ValidSessionName(name) then Call([], Err(InvalidSessionName(name)))
    else
      var e := ClassifyClose(run(CloseCommand(name)));
      Call([CloseCommand(name)], Ok(Closed(e.None?, name, e)))
  }

  /** Creating `codex` runs `tmux new-session -d -s codex` and echoes the name. */
  lemma CreateNamedSample(run: string -> ExecResult, n: string)
    requires n == "codex" && run("tmux new-session -d -s codex").exitCode == 0
    ensures CreateSession(Some(n), run) == Call(["tmux new-session -d -s codex"], Ok(Created(true, Some("codex"))))
  {
    assert ValidSessionName(n);
    assert CreateCommand(Some(n)) == "tmux new-session -d -s codex";
  }

  /** Creating without a name runs `tmux new-session -d` and echoes no name. */
  lemma CreateBareSample(run: string -> ExecResult)
    requires run("tmux new-session -d").exitCode == 0
    ensures CreateSession(None, run) == Call(["tmux new-session -d"], Ok(Created(true, None)))
  {
  }

  /** `bad name` is rejected before anything is run. */
  lemma CreateInvalidSample(run: string -> ExecResult, n: string)
    requires n == "bad name"
    ensures CreateSession(Some(n), run) == Call([], Err(InvalidSessionName("bad name")))
  {
    assert !IsSessionNameChar(n[3]);
  }

  /** `can't find session: codex` is `not_found`. */
  lemma ClassifyNotFoundSample(stderr: string)
    requires stderr == "can't find session: codex"
    ensures ClassifyClose(ExecResult(1, "", stderr, 1)) == Some(NotFound)
  {
    assert stderr == "" + NoSessionText + ": codex";
    ContainsInfix("", NoSessionText, ": codex");
  }

  /** `failed to connect to server` is `tmux_server_not_running`. */
  lemma ClassifyNoServerSample(stderr: string)
    requires stderr == "failed to connect to server"
    ensures ClassifyClose(ExecResult(1, "", stderr, 1)) == Some(ServerNotRunning)
  {
    assert '\'' in NoSessionText && '\'' !in stderr;
    NotContains(stderr, NoSessionText);
    assert stderr == "" + NoServerText + "";
    ContainsInfix("", NoServerText, "");
  }

  /** A clean exit with nothing on stderr closes the session. */
  lemma ClassifyCleanSample()
    ensures ClassifyClose(ExecResult(0, "", "", 1)) == None
  {
    NotContains("", NoSessionText);
    NotContains("", NoServerText);
  }

  /** Closing `codex` runs exactly `tmux kill-session -t codex`, and the reply
      follows the classification of its result. */
  lemma CloseSessionSamples(run: string -> ExecResult)
    ensures CloseSession("codex", run).issued == ["tmux kill-session -t codex"]
    ensures run("tmux kill-session -t codex") == ExecResult(0, "", "", 1)
      ==> CloseSession("codex", run).outcome == Ok(Closed(true, "codex", None))
    ensures run("tmux kill-session -t codex") == ExecResult(1, "", "can't find session: codex", 1)
      ==> CloseSession("codex", run).outcome == Ok(Closed(false, "codex", Some(NotFound)))
    ensures run("tmux kill-session -t codex") == ExecResult(1, "", "failed to connect to server", 1)
      ==> CloseSession("codex", run).outcome == Ok(Closed(false, "codex", Some(ServerNotRunning)))
  {
    assert ValidSessionName("codex");
    assert CloseCommand("codex") == "tmux kill-session -t codex";
    ClassifyNotFoundSample("can't find session: codex");
    ClassifyNoServerSample("failed to connect to server");
    ClassifyCleanSample();
  }

  // ---------------------------------------------------------------------
  // Health.

  datatype HealthState = HealthOk | HealthEmpty | NoServer | TmuxError

  datatype Health = Health(ok: bool, state: HealthState, count: nat)

  function CountNonBlank(lines: seq<string>): (n: nat)
    ensures n <= |lines|
    decreases |lines|
  {
    if |lines| == 0 then 0
    else (if IsBlank(lines[0]) then 0 else 1) + CountNonBlank(lines[1..])
  }

  /** `tmux_health()` given the executor's result for `tmux list-sessions`. */
  function TmuxHealth(r: ExecResult): (h: Health)
    ensures h.ok <==> h.state != TmuxError
    ensures h.state == TmuxError <==> r.exitCode != 0 && !Contains(r.stderr, NoServerText)
    ensures h.state == NoServer <==> r.exitCode != 0 && Contains(r.stderr, NoServerText)
    ensures h.count > 0 <==> h.state == HealthOk
    ensures r.exitCode == 0 ==> h.count == CountNonBlank(Split(r.stdout, NL))
  {
    if r.exitCode == 0 then
      var n := CountNonBlank(Split(r.stdout, NL));
      Health(true, if n == 0 then HealthEmpty else HealthOk, n)
    else if Contains(r.stderr, NoServerText) then Health(true, NoServer, 0)
    else Health(false, TmuxError, 0)
  }

  lemma {:induction false} CountNonBlankAppend(a: seq<string>, b: seq<string>)
    ensures CountNonBlank(a + b) == CountNonBlank(a) + CountNonBlank(b)
    decreases |a|
  {
    if |a| == 0 {
      assert a + b == b;
    } else {
      assert (a + b)[0] == a[0] && (a + b)[1..] == a[1..] + b;
      CountNonBlankAppend(a[1..], b);
    }
  }

  lemma {:induction false} CountValidNames(names: seq<string>)
    requires forall i :: 0 <= i < |names| ==> ValidSessionName(names[i])
    ensures CountNonBlank(names) == |names|
    decreases |names|
  {
    if |names| > 0 {
      assert !IsBlank(names[0]) by {
        assert IsSessionNameChar(names[0][0]);
      }
      CountValidNames(names[1..]);
    }
  }

  lemma SessionLinesAvoidNewline(names: seq<string>)
    requires forall i :: 0 <= i < |names| ==> ValidSessionName(names[i])
    ensures forall i :: 0 <= i < |names + [""]| ==> NL !in (names + [""])[i]
  {
    forall i | 0 <= i < |names + [""]| ensures NL !in (names + [""])[i] {
      if i < |names| {
        ValidNameAvoids(names[i], NL);
      }
    }
  }

  /** Session names written one per line, each line ended by a newline, are
      counted one each. */
  lemma SessionLinesCount(names: seq<string>)
    requires forall i :: 0 <= i < |names| ==> ValidSessionName(names[i])
    ensures CountNonBlank(Split(Join(names + [""], NL), NL)) == |names|
  {
    var lines := names + [""];
    SessionLinesAvoidNewline(names);
    SplitJoin(lines, NL);
    CountNonBlankAppend(names, [""]);
    CountValidNames(names);
    assert CountNonBlank([""]) == 0 by { assert IsBlank(""); assert [""][1..] == []; }
  }

  /** When `tmux list-sessions` prints one session name per line, the health
      count is the number of sessions, and the state is `ok` or `empty`. */
  lemma HealthCountsSessions(names: seq<string>)
    requires forall i :: 0 <= i < |names| ==> ValidSessionName(names[i])
    ensures TmuxHealth(ExecResult(0, Join(names + [""], NL), "", 1))
      == Health(true, if |names| == 0 then HealthEmpty else HealthOk, |names|)
  {
    SessionLinesCount(names);
  }

  /** Two session lines are a count of two. */
  lemma HealthTwoSessions()
    ensures TmuxHealth(ExecResult(0, "codex\ncodex_trial\n", "", 1)) == Health(true, HealthOk, 2)
  {
    var names := ["codex", "codex_trial"];
    assert ValidSessionName(names[0]) && ValidSessionName(names[1]);
    HealthCountsSessions(names);
    var lines := names + [""];
    assert lines[1..][1..] == [""];
    assert Join(lines[1..], NL) == "codex_trial\n";
    assert Join(lines, NL) == "codex\ncodex_trial\n";
  }

  /** No output is an empty but healthy server. */
  lemma HealthNoSessions()
    ensures TmuxHealth(ExecResult(0, "", "", 1)) == Health(true, HealthEmpty, 0)
  {
    HealthCountsSessions([]);
    assert [] + [""] == [""];
  }

  /** A missing server is reported as such, and still ok; any other failure is not ok. */
  lemma HealthFailures()
    ensures TmuxHealth(ExecResult(1, "", "failed to connect to server", 1)) == Health(true, NoServer, 0)
    ensures TmuxHealth(ExecResult(1, "", "some other error", 1)) == Health(false, TmuxError, 0)
  {
    ContainsAt("failed to connect to server", NoServerText, 0);
    assert 'f' in NoServerText && 'f' !in "some other error";
    NotContains("some other error", NoServerText);
  }
}
