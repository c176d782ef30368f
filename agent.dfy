/**
 * The agent of Agent.cs: the command dispatcher `ExecuteCommand` and the
 * read-execute-reply loop of `Main`, which runs while the `Active` flag holds.
 *
 * The host facts the agent reads from `Environment` are a `Host` value, and
 * running a shell process is a `Launcher` function supplied by the caller.
 */
module AgentProgram {
  import opened Optional
  import opened Text

  /** What `Environment` tells the agent about its host. */
  datatype Host = Host(
    platform: int,             // (int)Environment.OSVersion.Platform
    machineName: string,
    osVersion: string,         // Environment.OSVersion as text
    currentDirectory: string,
    systemDirectory: string,
    userName: string,
    userDomainName: string)

  /** The program and the argument string a `Process` is started with. */
  datatype ShellInvocation = ShellInvocation(fileName: string, arguments: string)

  /** What the finished process wrote to its redirected output and error streams. */
  datatype ProcessOutput = ProcessOutput(stdout: string, stderr: string)

  /**
   * Starts a process and waits for it to exit: `None` when `Process.Start`
   * throws (the shell cannot be found, say). It always returns: a process
   * that never exits, or that blocks on a full output pipe, is not modelled.
   */
  type Launcher = ShellInvocation -> Option<ProcessOutput>

  /**
   * What `ExecuteCommand` gives back: the reply text, or `Fault` when an
   * exception escapes it (nothing in the agent catches one, so the process ends).
   */
  datatype Outcome = Reply(text: string) | Fault

  /** The reply to `quit`. */
  const Farewell: string := "Quitting. Goodbye."

  /** The labels of the `info` block, in order. */
  const InfoLabels: seq<string> :=
    ["Machine Name: ", "OSVersion: ", "Current Directory: ", "System Directory: ", "Username: ", "Domain Username: "]

  /**
   * `IsUnix`: platform codes 4 (Unix), 6 (MacOSX) and 128 (what old Mono
   * versions reported for Unix).
   */
  predicate IsUnix(platform: int) {
    platform == 4 || platform == 6 || platform == 128
  }

  /**
   * The shell text of a `cmd` line: `string.Join(" ", tokens).Substring(4)`.
   * `Substring(4)` throws on anything shorter than four characters, so the
   * caller must rule that out.
   */
  function ShellText(line: string): (r: string)
    requires |line| >= 4
    ensures r == line[4..]
  {
    JoinSplit(line, ' ');
    Join(Split(line, ' '), ' ')[4..]
  }

  /** `bash -c '<command>'` on Unix-like platforms, `cmd.exe /c <command>` elsewhere. */
  function Shell(unix: bool, command: string): (r: ShellInvocation)
    ensures (r.fileName == "bash") == unix
    ensures var start := if unix then 4 else 3;
      start + |command| <= |r.arguments| && r.arguments[start..start + |command|] == command
  {
    if unix then ShellInvocation("bash", "-c '" + command + "'")
    else ShellInvocation("cmd.exe", "/c " + command)
  }

  /** The values the `info` block shows, in the order of `InfoLabels`. */
  function InfoValues(h: Host): seq<string> {
    [h.machineName, h.osVersion, h.currentDirectory, h.systemDirectory, h.userName, h.userDomainName]
  }

  /** The six lines of the `info` block without their line ends: each label, then its value. */
  function InfoLines(h: Host): seq<string> {
    ["Machine Name: " + h.machineName,
     "OSVersion: " + h.osVersion,
     "Current Directory: " + h.currentDirectory,
     "System Directory: " + h.systemDirectory,
     "Username: " + h.userName,
     "Domain Username: " + h.userDomainName]
  }

  /** The `info` reply: each line followed by "\n". */
  function InfoText(h: Host): string {
    Terminated(InfoLines(h), '\n')
  }

  /** `ExecuteCommand(line)`: dispatch on the lower-cased first token. */
  function Execute(line: string, host: Host, launch: Launcher): (r: Outcome)
    ensures r.Fault? ==>
      Verb(line) == "cmd"
      && (' ' !in line || (|line| >= 4 && launch(Shell(IsUnix(host.platform), line[4..])).None?))
  {
    var verb := Verb(line);
    if verb == "cmd" then
      // The joined tokens are as long as the line; shorter than 4 makes `Substring(4)` throw.
      if |line| < 4 then
        CmdTooShortIffBare(line);
        Fault
      else
        match launch(Shell(IsUnix(host.platform), ShellText(line)))
        case None => Fault
        case Some(out) => Reply(Trim(out.stdout) + Trim(out.stderr))
    else if verb == "info" then Reply(InfoText(host))
    else if verb == "quit" then Reply(Farewell)
    else Reply("")
  }

  /** Only `quit` clears `Active`. */
  predicate Quits(line: string) {
    Verb(line) == "quit"
  }

  // ---------------------------------------------------------------------------
  // What the dispatcher promises
  // ---------------------------------------------------------------------------

  /**
   * Only the first space-delimited token selects the branch, in any case: a
   * token without spaces followed by a space and anything at all has that
   * token's lower case as its verb.
   */
  lemma {:induction false} VerbOfTokenAndRest(token: string, rest: string)
    requires ' ' !in token
    ensures Verb(token + " " + rest) == ToLower(token)
  {
    assert token + " " + rest == token + [' '] + rest;
    SplitAfterField(token, ' ', rest);
  }

  /** So "CMD x" runs a command and "Quit now" quits. */
  lemma VerbExamples()
    ensures Verb("CMD x") == "cmd" && Verb("Quit now") == "quit"
  {
    assert "CMD x" == "CMD" + " " + "x";
    assert "Quit now" == "Quit" + " " + "now";
    VerbOfTokenAndRest("CMD", "x");
    VerbOfTokenAndRest("Quit", "now");
    assert LowerChar('C') == 'c' && LowerChar('M') == 'm' && LowerChar('D') == 'd';
    assert LowerChar('Q') == 'q' && LowerChar('u') == 'u' && LowerChar('i') == 'i' && LowerChar('t') == 't';
    assert ToLower("CMD") == "cmd";
    assert ToLower("Quit") == "quit";
  }

  /**
   * A `cmd` line is too short for `Substring(4)` exactly when it is the bare
   * verb, with no space after it.
   */
  lemma {:induction false} CmdTooShortIffBare(line: string)
    requires Verb(line) == "cmd"
    ensures |line| < 4 <==> ' ' !in line
  {
    FirstFieldIsPrefix(line, ' ');
    var token := Split(line, ' ')[0];
    assert |token| == 3;
    if ' ' !in line {
      SplitWithoutSeparator(line, ' ');
    } else {
      assert |token| < |line|;
    }
  }

  /**
   * A `cmd` line long enough runs the rest of the line after "cmd " through
   * the platform's shell, and replies with the trimmed output followed
   * directly by the trimmed error output; a shell that cannot start is a fault.
   */
  lemma CmdRunsRestOfLine(line: string, host: Host, launch: Launcher)
    requires Verb(line) == "cmd" && |line| >= 4
    ensures var run := launch(Shell(IsUnix(host.platform), line[4..]));
      Execute(line, host, launch)
        == if run.None? then Fault else Reply(Trim(run.value.stdout) + Trim(run.value.stderr))
  {
  }

  /**
   * The shell is `bash` on exactly the Unix-like platform codes, and the
   * command appears whole in its arguments: quoted after "-c " for `bash`,
   * after "/c " for `cmd.exe`.
   */
  lemma ShellCarriesCommand(platform: int, command: string)
    ensures var s := Shell(IsUnix(platform), command);
      (s.fileName == "bash" <==> platform in {4, 6, 128})
      && (s.fileName == "bash" ==> s.arguments == "-c '" + command + "'")
      && (s.fileName != "bash" ==> s.fileName == "cmd.exe" && s.arguments == "/c " + command)
  {
  }

  /** The `cmd` reply: the trimmed output is a prefix, the trimmed error output the rest. */
  lemma CmdReplyJoinsStreams(line: string, host: Host, launch: Launcher, out: ProcessOutput)
    requires Verb(line) == "cmd" && |line| >= 4
    requires launch(Shell(IsUnix(host.platform), line[4..])) == Some(out)
    ensures Execute(line, host, launch).Reply?
    ensures var r := Execute(line, host, launch).text;
      r[..|Trim(out.stdout)|] == Trim(out.stdout) && r[|Trim(out.stdout)|..] == Trim(out.stderr)
  {
  }

  /**
   * The `info` block is six lines, each ending in "\n", labelled in a fixed
   * order, when no host value itself holds a line end.
   */
  lemma {:induction false} InfoIsSixLabelledLines(h: Host)
    requires forall i :: 0 <= i < 6 ==> '\n' !in InfoValues(h)[i]
    ensures |InfoLines(h)| == 6
    ensures forall i :: 0 <= i < 6 ==> InfoLines(h)[i] == InfoLabels[i] + InfoValues(h)[i]
    ensures Split(InfoText(h), '\n') == InfoLines(h) + [""]
  {
    var ls := InfoLines(h);
    forall i | 0 <= i < 6
      ensures '\n' !in ls[i]
    {
      assert ls[i] == InfoLabels[i] + InfoValues(h)[i];
      assert '\n' !in InfoLabels[i];
    }
    SplitTerminated(ls, '\n');
  }

  /** `quit` replies with the fixed farewell. */
  lemma QuitSaysGoodbye(line: string, host: Host, launch: Launcher)
    requires Quits(line)
    ensures Execute(line, host, launch) == Reply("Quitting. Goodbye.")
  {
  }

  /** `info` replies with the six-line host description. */
  lemma InfoRepliesInfoText(line: string, host: Host, launch: Launcher)
    requires Verb(line) == "info"
    ensures Execute(line, host, launch) == Reply(InfoText(host))
  {
  }

  /** A `cmd` in any letter case with nothing after it faults at `Substring(4)`. */
  lemma BareCmdFaults(line: string, host: Host, launch: Launcher)
    requires Verb(line) == "cmd" && ' ' !in line
    ensures Execute(line, host, launch) == Fault
  {
    CmdTooShortIffBare(line);
  }

  /** Any other verb gets an empty reply. */
  lemma UnknownVerbRepliesNothing(line: string, host: Host, launch: Launcher)
    requires Verb(line) !in {"cmd", "info", "quit"}
    ensures Execute(line, host, launch) == Reply("") && !Quits(line)
  {
  }

  // ---------------------------------------------------------------------------
  // The loop of Agent.Main
  // ---------------------------------------------------------------------------

  /** How the agent's loop stops. */
  datatype Ending =
    | Stopped        // `quit` cleared `Active` after its reply was written
    | Crashed        // an exception escaped `ExecuteCommand`
    | AwaitingInput  // still active, waiting for the next command

  /** `ExecuteCommand` on a given host, as a function of the command line. */
  function Executor(host: Host, launch: Launcher): string -> Outcome {
    line => Execute(line, host, launch)
  }

  /**
   * The loop of `Main` over the commands received, in order, each handled by
   * `execute`: the replies written (as the ASCII encoding leaves them) and
   * how the loop stopped.
   */
  function Serve(inbox: seq<string>, execute: string -> Outcome): (r: (seq<string>, Ending))
    ensures |r.0| <= |inbox|
    ensures r.1 == Stopped ==> 1 <= |r.0| && Quits(inbox[|r.0| - 1])
    decreases |inbox|
  {
    if inbox == [] then ([], AwaitingInput)
    else
      match execute(inbox[0])
      case Fault => ([], Crashed)
      case Reply(text) =>
        if Quits(inbox[0]) then ([Ascii(text)], Stopped)
        else
          var rest := Serve(inbox[1..], execute);
          ([Ascii(text)] + rest.0, rest.1)
  }

  /** A command the loop answers and then goes on reading after. */
  predicate Continues(line: string, execute: string -> Outcome) {
    !Quits(line) && execute(line).Reply?
  }

  /** Every one of `lines` is answered without ending the loop. */
  predicate AllContinue(lines: seq<string>, execute: string -> Outcome) {
    lines == [] || (Continues(lines[0], execute) && AllContinue(lines[1..], execute))
  }

  /** One step of the loop: the first command's outcome decides what follows. */
  lemma ServeStep(inbox: seq<string>, execute: string -> Outcome)
    requires inbox != []
    ensures execute(inbox[0]).Fault? ==> Serve(inbox, execute) == ([], Crashed)
    ensures execute(inbox[0]).Reply? && Quits(inbox[0]) ==>
      Serve(inbox, execute) == ([Ascii(execute(inbox[0]).text)], Stopped)
    ensures execute(inbox[0]).Reply? && !Quits(inbox[0]) ==>
      Serve(inbox, execute) == ([Ascii(execute(inbox[0]).text)] + Serve(inbox[1..], execute).0, Serve(inbox[1..], execute).1)
  {
  }

  /**
   * After the first `i` commands, the replies written so far are the start of
   * the loop's replies, and the rest of the loop decides the ending.
   */
  ghost predicate ServedSoFar(inbox: seq<string>, i: nat, outbox: seq<string>, execute: string -> Outcome)
    requires i <= |inbox|
  {
    var (rest, whole) := (Serve(inbox[i..], execute), Serve(inbox, execute));
    outbox + rest.0 == whole.0 && rest.1 == whole.1
  }

  /** At the end of the input, the replies so far are all of them and the loop waits. */
  lemma ServedAll(inbox: seq<string>, outbox: seq<string>, execute: string -> Outcome)
    requires ServedSoFar(inbox, |inbox|, outbox, execute)
    ensures (outbox, AwaitingInput) == Serve(inbox, execute)
  {
    assert inbox[|inbox|..] == [];
    assert outbox + [] == outbox;
  }

  /** A command that faults ends the loop with the replies written before it. */
  lemma ServedUntilFault(inbox: seq<string>, i: nat, outbox: seq<string>, execute: string -> Outcome)
    requires i < |inbox| && ServedSoFar(inbox, i, outbox, execute)
    requires execute(inbox[i]).Fault?
    ensures (outbox, Crashed) == Serve(inbox, execute)
  {
    ServeStep(inbox[i..], execute);
    assert inbox[i..][0] == inbox[i];
    assert outbox + [] == outbox;
  }

  /** A `quit` that is answered ends the loop right after its reply. */
  lemma ServedUntilQuit(inbox: seq<string>, i: nat, outbox: seq<string>, execute: string -> Outcome)
    requires i < |inbox| && ServedSoFar(inbox, i, outbox, execute)
    requires execute(inbox[i]).Reply? && Quits(inbox[i])
    ensures (outbox + [Ascii(execute(inbox[i]).text)], Stopped) == Serve(inbox, execute)
  {
    ServeStep(inbox[i..], execute);
    assert inbox[i..][0] == inbox[i];
  }

  /** Any other command that is answered adds its reply and the loop goes on. */
  lemma ServedOneMore(inbox: seq<string>, i: nat, outbox: seq<string>, execute: string -> Outcome)
    requires i < |inbox| && ServedSoFar(inbox, i, outbox, execute)
    requires execute(inbox[i]).Reply? && !Quits(inbox[i])
    ensures ServedSoFar(inbox, i + 1, outbox + [Ascii(execute(inbox[i]).text)], execute)
  {
    ServeStep(inbox[i..], execute);
    assert inbox[i..][0] == inbox[i] && inbox[i..][1..] == inbox[i + 1..];
    var reply := [Ascii(execute(inbox[i]).text)];
    assert outbox + (reply + Serve(inbox[i + 1..], execute).0)
      == outbox + reply + Serve(inbox[i + 1..], execute).0;
  }

  /** After a command that continues, the replies are its own and then those of the rest. */
  lemma ServeShift(inbox: seq<string>, execute: string -> Outcome)
    requires inbox != [] && Continues(inbox[0], execute)
    ensures var (all, rest) := (Serve(inbox, execute), Serve(inbox[1..], execute));
      all.1 == rest.1 && all.0 == [Ascii(execute(inbox[0]).text)] + rest.0
  {
  }

  /** The loop answers each command it reads with exactly one reply. */
  lemma {:induction false} ServeRepliesOncePerCommand(inbox: seq<string>, execute: string -> Outcome)
    ensures var (out, ending) := Serve(inbox, execute);
      |out| <= |inbox| && (ending == AwaitingInput ==> |out| == |inbox|)
    decreases |inbox|
  {
    if inbox != [] && Continues(inbox[0], execute) {
      ServeRepliesOncePerCommand(inbox[1..], execute);
    }
  }

  /**
   * The first `quit` ends the loop right after its farewell is written, when
   * no command before it faults; the commands after it are never read.
   */
  lemma {:induction false} FirstQuitStops(inbox: seq<string>, k: nat, host: Host, launch: Launcher)
    requires k < |inbox| && Quits(inbox[k])
    requires AllContinue(inbox[..k], Executor(host, launch))
    ensures Serve(inbox, Executor(host, launch)).1 == Stopped
    ensures |Serve(inbox, Executor(host, launch)).0| == k + 1
    ensures Serve(inbox, Executor(host, launch)).0[k] == Farewell
  {
    QuitSaysGoodbye(inbox[k], host, launch);
    AsciiKeepsAscii(Farewell);
    StopsAt(inbox, k, Executor(host, launch));
  }

  /** The loop stops at the first command that quits, having answered it too. */
  lemma {:induction false} StopsAt(inbox: seq<string>, k: nat, execute: string -> Outcome)
    requires k < |inbox| && Quits(inbox[k]) && execute(inbox[k]).Reply?
    requires AllContinue(inbox[..k], execute)
    ensures Serve(inbox, execute).1 == Stopped
    ensures |Serve(inbox, execute).0| == k + 1
    ensures Serve(inbox, execute).0[k] == Ascii(execute(inbox[k]).text)
    decreases k
  {
    if k > 0 {
      var tail := inbox[1..];
      assert inbox[..k][1..] == tail[..k - 1];
      assert tail[k - 1] == inbox[k];
      StopsAt(tail, k - 1, execute);
      ServeShift(inbox, execute);
    }
  }

  /**
   * Each reply the loop writes is the whole ASCII encoding of the reply to the
   * command read at the same position, and only commands that were answered
   * have a reply.
   */
  lemma {:induction false} ServeWritesEachReply(inbox: seq<string>, execute: string -> Outcome)
    ensures var out := Serve(inbox, execute).0;
      |out| <= |inbox|
      && forall k :: 0 <= k < |out| ==> execute(inbox[k]).Reply? && out[k] == Ascii(execute(inbox[k]).text)
    decreases |inbox|
  {
    if inbox != [] && Continues(inbox[0], execute) {
      var rest := inbox[1..];
      ServeWritesEachReply(rest, execute);
      ServeShift(inbox, execute);
      var out := Serve(inbox, execute).0;
      forall k | 1 <= k < |out|
        ensures execute(inbox[k]).Reply? && out[k] == Ascii(execute(inbox[k]).text)
      {
        assert out[k] == Serve(rest, execute).0[k - 1];
        assert rest[k - 1] == inbox[k];
      }
    }
  }

  // ---------------------------------------------------------------------------
  // How many bytes a reply is written with
  // ---------------------------------------------------------------------------

  /** `String.Length`: UTF-16 code units, two for each character beyond U+FFFF. */
  function Utf16Length(s: string): nat {
    if s == [] then 0 else (if s[0] as int > 0xFFFF then 2 else 1) + Utf16Length(s[1..])
  }

  /** Every character of `s` is in the Basic Multilingual Plane. */
  predicate InBmp(s: string) {
    forall i :: 0 <= i < |s| ==> s[i] as int <= 0xFFFF
  }

  /** A string is as long in UTF-16 as it has characters exactly when it stays in the BMP. */
  lemma {:induction false} Utf16LengthCountsWide(s: string)
    ensures Utf16Length(s) >= |s|
    ensures Utf16Length(s) == |s| <==> InBmp(s)
  {
    if s != [] {
      Utf16LengthCountsWide(s[1..]);
      if InBmp(s[1..]) && s[0] as int <= 0xFFFF {
        forall i | 0 <= i < |s|
          ensures s[i] as int <= 0xFFFF
        {
          if i > 0 {
            assert s[i] == s[1..][i - 1];
          }
        }
      }
      if InBmp(s) {
        assert forall i :: 0 <= i < |s| - 1 ==> s[1..][i] == s[i + 1];
      }
    }
  }

  /**
   * `Stream.Write(ReplyBytes, 0, Reply.Length)` as Agent.cs writes it: the
   * bytes sent, or `None` when the count, taken from the string rather than
   * from the bytes, runs past the end of the bytes and `Write` throws.
   */
  function WrittenAsIs(reply: string): (r: Option<string>)
    ensures r.Some? ==> r.value == Ascii(reply)
  {
    var bytes := Ascii(reply);
    Utf16LengthCountsWide(reply);
    var count := Utf16Length(reply);
    if count <= |bytes| then Some(bytes[..count]) else None
  }

  /**
   * The write as written sends the whole reply for text in the BMP and throws
   * for any reply holding a character beyond it, whose encoding has fewer
   * bytes than the string has UTF-16 code units.
   */
  lemma WrittenAsIsFailsBeyondBmp(reply: string)
    ensures WrittenAsIs(reply) == (if InBmp(reply) then Some(Ascii(reply)) else None)
  {
    Utf16LengthCountsWide(reply);
  }

  /** So a `cmd` whose output holds an emoji ends the agent instead of being answered. */
  lemma EmojiReplyIsNotWritten()
    ensures WrittenAsIs("ok \U{1F600}") == None
    ensures Ascii("ok \U{1F600}") == "ok ?"
  {
    WrittenAsIsFailsBeyondBmp("ok \U{1F600}");
    assert "ok \U{1F600}"[3] as int > 0xFFFF;
  }

  /**
   * The loop of `Main` as Agent.cs writes it: as `Serve`, except that each
   * reply goes through `WrittenAsIs`, so a reply the write throws on ends the
   * agent before any of it is sent.
   */
  function ServeAsWritten(inbox: seq<string>, execute: string -> Outcome): (r: (seq<string>, Ending))
    ensures |r.0| <= |inbox|
    decreases |inbox|
  {
    if inbox == [] then ([], AwaitingInput)
    else
      match execute(inbox[0])
      case Fault => ([], Crashed)
      case Reply(text) =>
        match WrittenAsIs(text)
        case None => ([], Crashed)
        case Some(bytes) =>
          if Quits(inbox[0]) then ([bytes], Stopped)
          else
            var rest := ServeAsWritten(inbox[1..], execute);
            ([bytes] + rest.0, rest.1)
  }

  /** Every reply to the commands stays in the BMP. */
  predicate RepliesInBmp(inbox: seq<string>, execute: string -> Outcome) {
    forall i :: 0 <= i < |inbox| ==> execute(inbox[i]).Reply? ==> InBmp(execute(inbox[i]).text)
  }

  /** While every reply stays in the BMP, the loop as written and the corrected loop agree. */
  lemma {:induction false} AsWrittenAgreesWithinBmp(inbox: seq<string>, execute: string -> Outcome)
    requires RepliesInBmp(inbox, execute)
    ensures ServeAsWritten(inbox, execute) == Serve(inbox, execute)
    decreases |inbox|
  {
    if inbox != [] && execute(inbox[0]).Reply? {
      WrittenAsIsFailsBeyondBmp(execute(inbox[0]).text);
      if !Quits(inbox[0]) {
        var rest := inbox[1..];
        assert forall i :: 0 <= i < |rest| ==> rest[i] == inbox[i + 1];
        AsWrittenAgreesWithinBmp(rest, execute);
      }
    }
  }

  /**
   * A reply beyond the BMP ends the loop as written without a byte sent,
   * where the corrected loop writes it, encoded, and reads on.
   */
  lemma EmojiReplyCrashesTheLoop(execute: string -> Outcome)
    requires execute("x") == Reply("ok \U{1F600}")
    ensures ServeAsWritten(["x"], execute) == ([], Crashed)
    ensures Serve(["x"], execute) == (["ok ?"], AwaitingInput)
  {
    EmojiReplyIsNotWritten();
    SplitWithoutSeparator("x", ' ');
    assert !Quits("x");
    assert ["x"][0] == "x" && ["x"][1..] == [];
    assert Serve(["x"][1..], execute) == ([], AwaitingInput);
    assert Serve(["x"], execute).0 == [Ascii("ok \U{1F600}")] + [];
    assert Serve(["x"], execute).1 == AwaitingInput;
    assert Serve(["x"], execute).0 == ["ok ?"];
  }

  /**
   * Without a `quit` or a fault, the loop answers every command and waits for
   * more. Over `Executor` this rests on the launcher returning.
   */
  lemma {:induction false} NoQuitKeepsServing(inbox: seq<string>, execute: string -> Outcome)
    requires AllContinue(inbox, execute)
    ensures Serve(inbox, execute).1 == AwaitingInput
    ensures |Serve(inbox, execute).0| == |inbox|
    decreases |inbox|
  {
    if inbox != [] {
      NoQuitKeepsServing(inbox[1..], execute);
      ServeShift(inbox, execute);
    }
  }

  /** The agent process: the static `Active` flag of Agent.cs. */
  class Agent {
    var active: bool

    /** The flag before `Main` sets it. */
    constructor ()
      ensures !active
    {
      active := false;
    }

    /** `ExecuteCommand`: the reply, and `Active` cleared by `quit` only. */
    method ExecuteCommand(line: string, host: Host, launch: Launcher) returns (outcome: Outcome)
      modifies this
      ensures outcome == Execute(line, host, launch)
      ensures active == (old(active) && !Quits(line))
    {
      outcome := Execute(line, host, launch);
      if Quits(line) {
        active := false;
      }
    }

    /**
     * `Main` after connecting: sets `Active`, then reads a command, executes
     * it and writes the reply for as long as `Active` holds.
     */
    method Run(inbox: seq<string>, host: Host, launch: Launcher) returns (outbox: seq<string>, ending: Ending)
      modifies this
      ensures (outbox, ending) == Serve(inbox, Executor(host, launch))
      ensures active == (ending != Stopped)
    {
      ghost var execute := Executor(host, launch);
      active := true;
      outbox := [];
      var i := 0;
      ending := AwaitingInput;
      while active && i < |inbox|
        invariant 0 <= i <= |inbox|
        invariant active ==> ServedSoFar(inbox, i, outbox, execute)
        invariant !active ==> (outbox, Stopped) == Serve(inbox, execute)
        decreases |inbox| - i
      {
        var outcome := ExecuteCommand(inbox[i], host, launch);
        assert outcome == execute(inbox[i]);
        if outcome.Fault? {
          ServedUntilFault(inbox, i, outbox, execute);
          ending := Crashed;
          return;
        }
        if Quits(inbox[i]) {
          ServedUntilQuit(inbox, i, outbox, execute);
        } else {
          ServedOneMore(inbox, i, outbox, execute);
        }
        outbox := outbox + [Ascii(outcome.text)];
        i := i + 1;
      }
      if !active {
        ending := Stopped;
      } else {
        ServedAll(inbox, outbox, execute);
      }
    }
  }
}
