/**
 * The controller and the agent together: a line typed at the console goes
 * into a `ClientHandler`'s queue unchanged, leaves it through
 * `Encoding.ASCII`, and the agent decodes it and dispatches on it. These
 * lemmas state what survives that trip and what does not.
 */
module Protocol {
  import opened Optional
  import opened Text
  import opened Controller
  import opened AgentProgram

  /** The ASCII encoding maps the separator to itself and nothing else to it. */
  lemma AsciiCharKeepsSpace(c: char)
    ensures AsciiChar(c) == ' ' <==> c == ' '
  {
  }

  /** The ASCII encoding works character by character, so it distributes over `+`. */
  lemma AsciiOfConcat(a: string, b: string)
    ensures Ascii(a + b) == Ascii(a) + Ascii(b)
  {
    assert forall i :: 0 <= i < |a + b| ==> Ascii(a + b)[i] == (Ascii(a) + Ascii(b))[i];
  }

  /**
   * The first token of an encoded line is the encoding of the first token:
   * the encoding neither creates nor removes a space.
   */
  lemma {:induction false} FirstTokenThroughAscii(s: string)
    ensures Split(Ascii(s), ' ')[0] == Ascii(Split(s, ' ')[0])
  {
    if s != [] {
      var e := Ascii(s);
      assert e[0] == AsciiChar(s[0]);
      assert e[1..] == Ascii(s[1..]);
      AsciiCharKeepsSpace(s[0]);
      if s[0] != ' ' {
        FirstTokenThroughAscii(s[1..]);
        AsciiOfConcat([s[0]], Split(s[1..], ' ')[0]);
      }
    }
  }

  /**
   * A command whose first token is 7-bit reaches the agent with the verb the
   * console saw: both ends lower-case the same token.
   */
  lemma VerbSurvivesTheWire(line: string)
    requires IsAscii(Split(line, ' ')[0])
    ensures Verb(Ascii(line)) == Verb(line)
  {
    FirstTokenThroughAscii(line);
    AsciiKeepsAscii(Split(line, ' ')[0]);
  }

  /**
   * What the console queues for a selected session is what the agent runs:
   * a `cmd` or `info` line with a 7-bit verb token is executed by the agent
   * under the same verb, so it is answered by the same branch.
   */
  lemma ForwardedCommandKeepsItsBranch(v: ConsoleView, line: string)
    requires IsSessionCommand(Verb(line)) && 0 <= v.currentSession < |v.handlers|
    requires IsAscii(Split(line, ' ')[0])
    ensures var w := Next(v, line).0;
      var q := w.handlers[v.currentSession].queue;
      q[|q| - 1] == line && Verb(Ascii(q[|q| - 1])) == Verb(line)
  {
    CommandGoesToSelectedSession(v, line);
    VerbSurvivesTheWire(line);
  }

  /** U+0130, capital I with dot above: not 7-bit, and lower-cased to 'i' by `LowerChar`. */
  const DottedI: char := '\U{0130}'

  /**
   * The console lower-cases before the encoding and the agent after it, so
   * the two can disagree. Where `ToLower` maps U+0130 to 'i' (the casing
   * `LowerChar` follows), "İnfo" is an `info` command to the console, and is
   * forwarded, but reaches the agent as "?nfo", which it answers with
   * nothing.
   */
  lemma DottedInfoIsLostOnTheWire(v: ConsoleView, host: Host, launch: Launcher)
    requires 0 <= v.currentSession < |v.handlers|
    ensures var line := [DottedI] + "nfo";
      Verb(line) == "info"
      && Next(v, line).0.handlers[v.currentSession].queue == v.handlers[v.currentSession].queue + [line]
      && Ascii(line) == "?nfo"
      && Execute(Ascii(line), host, launch) == Reply("")
  {
    var line := [DottedI] + "nfo";
    SplitWithoutSeparator(line, ' ');
    assert ToLower(line) == "info";
    CommandGoesToSelectedSession(v, line);
    assert Ascii(line) == "?nfo";
    SplitWithoutSeparator("?nfo", ' ');
    assert LowerChar('?') == '?';
    assert Verb("?nfo") == "?nfo";
    UnknownVerbRepliesNothing("?nfo", host, launch);
  }

  /**
   * A bare `cmd` passes the console's checks and is forwarded whole, and the
   * agent that reads it faults at `Substring(4)` without writing a reply.
   */
  lemma BareCmdEndsTheAgent(v: ConsoleView, host: Host, launch: Launcher)
    requires 0 <= v.currentSession < |v.handlers|
    ensures Next(v, "cmd").1 == Silent
    ensures Next(v, "cmd").0.handlers[v.currentSession].queue == v.handlers[v.currentSession].queue + ["cmd"]
    ensures Serve([Ascii("cmd")], Executor(host, launch)) == ([], Crashed)
  {
    SplitWithoutSeparator("cmd", ' ');
    assert ToLower("cmd") == "cmd";
    CommandGoesToSelectedSession(v, "cmd");
    AsciiKeepsAscii("cmd");
    CmdTooShortIffBare("cmd");
  }

  /** The encodings of the commands, in order: what goes over the wire. */
  function Encoded(commands: seq<string>): (r: seq<string>)
    ensures |r| == |commands|
    ensures forall i :: 0 <= i < |commands| ==> r[i] == Ascii(commands[i])
  {
    seq(|commands|, i requires 0 <= i < |commands| => Ascii(commands[i]))
  }

  /** On the wire, the pending commands come first and the broadcast `quit` is still a `quit`. */
  lemma EncodedQuitStillQuits(pending: seq<string>)
    ensures var wire := Encoded(pending + [QuitCommand]);
      wire[..|pending|] == Encoded(pending) && Quits(wire[|pending|])
  {
    var wire := Encoded(pending + [QuitCommand]);
    assert wire[..|pending|] == Encoded(pending);
    assert wire[|pending|] == Ascii(QuitCommand);
    AsciiKeepsAscii(QuitCommand);
    SplitWithoutSeparator(QuitCommand, ' ');
  }

  /** No reply is empty, so the handler's `Read` receives at least one byte for each. */
  predicate AnswersAloud(lines: seq<string>, execute: string -> Outcome) {
    forall i :: 0 <= i < |lines| ==> execute(lines[i]) != Reply("")
  }

  /**
   * With the intended shutdown, a running handler whose queue ends in the
   * broadcast `quit` sends its pending commands and then "quit", in order.
   * An agent that answers the pending ones without stopping, each with a
   * reply of at least one byte, writes one non-empty reply per command and
   * stops at the `quit` with the farewell.
   */
  lemma BroadcastQuitStopsTheAgent(h: HandlerState, pending: seq<string>, host: Host, launch: Launcher)
    requires h.active && h.queue == pending + [QuitCommand]
    requires AllContinue(Encoded(pending), Executor(host, launch))
    requires AnswersAloud(Encoded(pending), Executor(host, launch))
    ensures DrainAndStop(h).1 == h.queue
    ensures var (out, ending) := Serve(Encoded(DrainAndStop(h).1), Executor(host, launch));
      ending == Stopped && |out| == |h.queue| && out[|pending|] == Farewell
      && forall k :: 0 <= k < |out| ==> out[k] != []
  {
    var execute := Executor(host, launch);
    var wire := Encoded(h.queue);
    EncodedQuitStillQuits(pending);
    FirstQuitStops(wire, |pending|, host, launch);
    ServeWritesEachReply(wire, execute);
    RepliesAreAloud(wire, pending, Serve(wire, execute).0, execute);
  }

  /**
   * Replies written one per command, for pending commands answered aloud and
   * then the farewell, are all non-empty.
   */
  lemma RepliesAreAloud(wire: seq<string>, pending: seq<string>, out: seq<string>, execute: string -> Outcome)
    requires |out| == |pending| + 1 <= |wire| && wire[..|pending|] == Encoded(pending)
    requires AnswersAloud(Encoded(pending), execute) && out[|pending|] == Farewell
    requires forall k :: 0 <= k < |out| ==> execute(wire[k]).Reply? && out[k] == Ascii(execute(wire[k]).text)
    ensures forall k :: 0 <= k < |out| ==> out[k] != []
  {
    forall k | 0 <= k < |out|
      ensures out[k] != []
    {
      if k < |pending| {
        assert wire[k] == Encoded(pending)[k];
        assert execute(wire[k]) != Reply("");
      }
    }
  }
}
