/** The executor (`run_wsl_bash`): runs one shell command inside WSL, retries
    the spurious Windows "interrupted" exit, trims stdout and reports how many
    attempts it took. Also the choice of the `wsl` executable
    (`_wsl_executable`) and the Windows process-creation flags. */
module Executor {
  import opened Wrappers
  import opened Text

  /** STATUS_CONTROL_C_EXIT (0xC000013A): the exit code Windows reports when it
      kills a freshly started WSL process; the only exit code that is retried. */
  const StatusControlCExit: int := 0xC000_013A

  /** Attempts made at most before an interrupted exit is returned as it is. */
  const MaxAttempts: nat := 3

  // Windows process-creation flags, as the `subprocess` module defines them.
  const CreateNewProcessGroup: bv32 := 0x200
  const DetachedProcess: bv32 := 0x8
  const CreateNoWindow: bv32 := 0x0800_0000

  /** The `creationflags` the executor passes when the host is Windows: a new
      process group and no console window, but not a detached process. */
  function CreationFlags(onWindows: bool): (flags: bv32)
    ensures onWindows ==> flags & CreateNewProcessGroup != 0 && flags & CreateNoWindow != 0
    ensures onWindows ==> flags & DetachedProcess == 0
    ensures onWindows ==> flags & !(CreateNewProcessGroup | CreateNoWindow) == 0
    ensures !onWindows ==> flags == 0
  {
    if onWindows then CreateNewProcessGroup | CreateNoWindow else 0
  }

  /** What one `subprocess.run` call returned. */
  datatype ProcessResult = ProcessResult(returnCode: int, stdout: string, stderr: string)

  /** The dictionary `run_wsl_bash` returns. */
  datatype ExecResult = ExecResult(exitCode: int, stdout: string, stderr: string, attempts: nat)

  predicate Interrupted(r: ProcessResult) {
    r.returnCode == StatusControlCExit
  }

  // ---------------------------------------------------------------------
  // Specification of the retry loop over the results the subprocess gives
  // one after another.

  /** The number of attempts made when attempt `k` (counting from 0) is about
      to be made: keep going while the result is interrupted and attempts remain. */
  function AttemptsFrom(script: seq<ProcessResult>, k: nat): (n: nat)
    requires k < MaxAttempts
    ensures k + 1 <= n <= MaxAttempts
    decreases MaxAttempts - k
  {
    if k + 1 < MaxAttempts && k < |script| && Interrupted(script[k])
    then AttemptsFrom(script, k + 1)
    else k + 1
  }

  /** The number of attempts `run_wsl_bash` makes when the subprocess answers
      its calls with `script`, in order. */
  function AttemptsUsed(script: seq<ProcessResult>): nat {
    AttemptsFrom(script, 0)
  }

  /** The result `run_wsl_bash` returns: the last attempt's exit code and stderr,
      its stdout with trailing whitespace removed, and the attempt count. */
  function Execute(script: seq<ProcessResult>): (r: ExecResult)
    requires AttemptsUsed(script) <= |script|
    ensures 1 <= r.attempts <= MaxAttempts && r.attempts == AttemptsUsed(script)
    ensures forall i :: 0 <= i < r.attempts - 1 ==> Interrupted(script[i])
    ensures r.exitCode == script[r.attempts - 1].returnCode
    ensures r.stdout == TrimRight(script[r.attempts - 1].stdout)
    ensures r.stderr == script[r.attempts - 1].stderr
    ensures r.exitCode == StatusControlCExit ==> r.attempts == MaxAttempts
  {
    AttemptsUsedSpec(script);
    var n := AttemptsUsed(script);
    var last := script[n - 1];
    ExecResult(last.returnCode, TrimRight(last.stdout), last.stderr, n)
  }

  lemma {:induction false} AttemptsFromSpec(script: seq<ProcessResult>, k: nat)
    requires k < MaxAttempts
    requires k <= |script| && forall i :: 0 <= i < k ==> Interrupted(script[i])
    ensures var n := AttemptsFrom(script, k);
      && n - 1 <= |script|
      && (forall i :: 0 <= i < n - 1 ==> Interrupted(script[i]))
      && (n < MaxAttempts ==> n - 1 >= |script| || !Interrupted(script[n - 1]))
    decreases MaxAttempts - k
  {
    if k + 1 < MaxAttempts && k < |script| && Interrupted(script[k]) {
      AttemptsFromSpec(script, k + 1);
    } else {
      assert AttemptsFrom(script, k) == k + 1;
    }
  }

  /** The attempt count is exactly the one the retry rule gives: every attempt
      before the last was interrupted, and the last one either was not or used
      up the attempt budget. */
  lemma AttemptsUsedSpec(script: seq<ProcessResult>)
    requires AttemptsUsed(script) <= |script|
    ensures var n := AttemptsUsed(script);
      && 1 <= n <= MaxAttempts
      && (forall i :: 0 <= i < n - 1 ==> Interrupted(script[i]))
      && (n < MaxAttempts ==> !Interrupted(script[n - 1]))
  {
    AttemptsFromSpec(script, 0);
  }

  /** A first attempt that is not interrupted is never retried, whatever its
      exit code. */
  lemma NoRetryOnOrdinaryExit(script: seq<ProcessResult>)
    requires |script| >= 1 && !Interrupted(script[0])
    ensures AttemptsUsed(script) == 1
    ensures Execute(script) == ExecResult(script[0].returnCode, TrimRight(script[0].stdout), script[0].stderr, 1)
  {
  }

  /** An interrupted first attempt followed by an ordinary one takes two attempts
      and returns the second one's result. */
  lemma RetryAfterInterrupt(script: seq<ProcessResult>)
    requires |script| >= 2 && Interrupted(script[0]) && !Interrupted(script[1])
    ensures AttemptsUsed(script) == 2
    ensures Execute(script) == ExecResult(script[1].returnCode, TrimRight(script[1].stdout), script[1].stderr, 2)
  {
  }

  // ---------------------------------------------------------------------
  // The host: the subprocess and the clock, as the executor sees them.

  /** The subprocess and sleep collaborators: the results the subprocess will
      return, in order, the commands it has been asked to run, and how many
      times the executor has slept. */
  class WslHost {
    var pending: seq<ProcessResult>
    var issued: seq<string>
    var sleeps: nat

    constructor (script: seq<ProcessResult>)
      ensures pending == script && issued == [] && sleeps == 0
    {
      pending := script;
      issued := [];
      sleeps := 0;
    }

    /** Runs `command` and returns the next scripted result. */
    method Run(command: string) returns (r: ProcessResult)
      requires pending != []
      modifies this
      ensures r == old(pending)[0] && pending == old(pending)[1..]
      ensures issued == old(issued) + [command] && sleeps == old(sleeps)
    {
      r := pending[0];
      pending := pending[1..];
      issued := issued + [command];
    }

    /** The fixed delay before a retry; only counted. */
    method Sleep()
      modifies this
      ensures sleeps == old(sleeps) + 1
      ensures pending == old(pending) && issued == old(issued)
    {
      sleeps := sleeps + 1;
    }
  }

  /** `n` copies of `command`. */
  function Repeat(command: string, n: nat): (r: seq<string>)
    ensures |r| == n && forall i :: 0 <= i < n ==> r[i] == command
  {
    if n == 0 then [] else Repeat(command, n - 1) + [command]
  }

  /** `run_wsl_bash(command)`: runs the same command until it is not
      interrupted or the attempts are used up, sleeping once before each retry. */
  method RunWslBash(host: WslHost, command: string) returns (result: ExecResult)
    requires AttemptsUsed(host.pending) <= |host.pending|
    modifies host
    ensures result == Execute(old(host.pending))
    ensures host.pending == old(host.pending)[result.attempts..]
    ensures host.issued == old(host.issued) + Repeat(command, result.attempts)
    ensures host.sleeps == old(host.sleeps) + result.attempts - 1
  {
    ghost var script := host.pending;
    ghost var issued0 := host.issued;
    var r := host.Run(command);
    var attempts := 1;
    while Interrupted(r) && attempts < MaxAttempts
      invariant 1 <= attempts <= MaxAttempts && attempts <= |script|
      invariant AttemptsFrom(script, attempts - 1) == AttemptsUsed(script)
      invariant r == script[attempts - 1]
      invariant host.pending == script[attempts..]
      invariant host.issued == issued0 + Repeat(command, attempts)
      invariant host.sleeps == old(host.sleeps) + attempts - 1
      decreases MaxAttempts - attempts
    {
      host.Sleep();
      r := host.Run(command);
      attempts := attempts + 1;
    }
    result := ExecResult(r.returnCode, TrimRight(r.stdout), r.stderr, attempts);
  }

  /** The retry scenario: an interrupted run, then one that prints "ready". Two
      runs, one sleep, and the second run's trimmed output. */
  method InterruptedThenReady() returns (result: ExecResult, runs: nat, sleeps: nat)
    ensures runs == 2 && sleeps == 1
    ensures result == ExecResult(0, "ready", "", 2)
  {
    var host := new WslHost([ProcessResult(StatusControlCExit, "", ""), ProcessResult(0, "ready\n", "")]);
    result := RunWslBash(host, "echo hi");
    runs := |host.issued|;
    sleeps := host.sleeps;
  }

  /** The first run exits 0 with "ok\n": one attempt, stdout "ok", no sleep. */
  method FirstRunSucceeds() returns (result: ExecResult, runs: nat, sleeps: nat)
    ensures runs == 1 && sleeps == 0
    ensures result == ExecResult(0, "ok", "", 1)
  {
    var host := new WslHost([ProcessResult(0, "ok\n", "")]);
    result := RunWslBash(host, "echo hi");
    runs := |host.issued|;
    sleeps := host.sleeps;
  }

  // ---------------------------------------------------------------------
  // Choosing the executable.

  datatype HostOs = Windows | Posix

  /** The fallback location of `wsl.exe` under the Windows directory. */
  function System32Wsl(systemRoot: Option<string>): string {
    var root := if systemRoot.Some? then systemRoot.value else "C:\\Windows";
    root + "\\System32\\wsl.exe"
  }

  /** `_wsl_executable()`: on Windows the configured path if it exists, else the
      System32 copy if that exists, else the configured value; elsewhere the
      configured value unprobed. `existing` is the set of paths that exist. */
  function WslExecutable(os: HostOs, configured: string, systemRoot: Option<string>, existing: set<string>): (exe: string)
    ensures os == Posix ==> exe == configured
    ensures os == Windows && configured in existing ==> exe == configured
    ensures os == Windows && configured !in existing && System32Wsl(systemRoot) in existing
      ==> exe == System32Wsl(systemRoot)
    ensures exe == configured || (exe in existing && exe == System32Wsl(systemRoot))
  {
    if os == Posix then configured
    else if configured in existing then configured
    else if System32Wsl(systemRoot) in existing then System32Wsl(systemRoot)
    else configured
  }

  /** On Windows, whenever either candidate exists the chosen path exists. */
  lemma WslExecutableExists(configured: string, systemRoot: Option<string>, existing: set<string>)
    requires configured in existing || System32Wsl(systemRoot) in existing
    ensures WslExecutable(Windows, configured, systemRoot, existing) in existing
  {
  }
}
