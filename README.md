# JodyRAT controller and agent, modelled in Dafny

JodyRAT is a small remote administration tool in two C# programs:

- **The controller (Server.cs).** An operator types commands at a console loop. A `ServerListener` admits agents as they connect. One `ClientHandler` per agent keeps a first-in first-out queue of commands and sends them to that agent one at a time.
- **The agent (Agent.cs).** It reads a command, dispatches on its first token (`cmd`, `info`, `quit`, anything else) and writes back the reply. It loops while its `Active` flag holds.

The project models both cores, and the text both sit on:

- `text.dfy` holds the base-library string operations the source relies on:
  - module `Text`: `Split(' ')`, `String.Join`, `ToLower`, `Trim` and the 7-bit `Encoding.ASCII` round trip;
  - module `Optional`: an option type.
- `int16.dfy` (module `Int16Text`) holds `Int16.Parse` and the decimal formatting of the prompt.
- `server.dfy` (module `Controller`) holds the controller:
  - the pure specification: `Next` is one pass of the console loop on a `ConsoleView` value, `Drive` is the whole loop, and `Dispatch` is one pass of `HandleClient`;
  - the classes `ClientHandler`, `ServerListener` and `Server`, whose fields the methods update in place;
  - every method is proved to move its objects exactly as the specification moves the value, and the lemmas state what the specification promises.
- `agent.dfy` (module `AgentProgram`) holds the agent:
  - `Execute` is `ExecuteCommand` as a function;
  - `Serve` is the `Main` loop over the commands received, with the command handler as a parameter;
  - the class `Agent` has the `Active` flag, and its methods are proved against `Execute` and `Serve`.
- `protocol.dfy` (module `Protocol`) connects the two ends. A console line goes into a queue, through the ASCII encoding, and into the agent's dispatch.

Environment facts are parameters:

- The host's platform, names and directories are a `Host` value.
- Running a shell process is a `Launcher` function, whose `None` stands for `Process.Start` throwing.
- The lines typed at the console and the text the agent answers with are given as strings.

Exceptions that nothing in the source catches are outcomes of the model:

- A bare `cmd` makes `Substring(4)` throw. The agent's `Outcome` is then `Fault`, and its loop ends `Crashed`.
- `Console.ReadLine` returning null makes the next `Split` throw. The console loop then ends `InputEnded`, without shutting anything down.

The model follows the code as it stands:

- There is no reconnection backoff, no message framing and no `identify` command.
- There is no execution timeout.
- Sessions are never removed from the client list.
- Most exceptions are not caught: only `enter`, the enqueueing of `cmd`/`info` and the listener's accept loop catch them.

## Model

| member | source | states |
|---|---|---|
| Text.ToLower | Server.cs:36 | the lower case has the same length and maps each character that lowers to an ASCII letter ('A'..'Z', U+0130, U+212A), leaving the others as they are |
| Text.Ascii | Agent.cs:26 | the encoding round trip keeps the length, yields only 7-bit characters and replaces each other character by '?' |
| Text.AsciiKeepsAscii | Server.cs:196 | text that is already 7-bit crosses the wire unchanged |
| Text.Split | Agent.cs:52 | a split has one field more than there are separators |
| Text.SplitFieldsLackSeparator | Agent.cs:52 | no field of a split contains the separator |
| Text.Join | Agent.cs:56 | `String.Join`: the fields with one separator between each two; its round trips with `Split` are `JoinSplit` and `SplitJoin` |
| Text.JoinSplit | Agent.cs:56 | joining the split tokens with " " gives back the line |
| Text.SplitJoin | Agent.cs:56 | splitting a join of separator-free fields gives back the fields |
| Text.SplitWithoutSeparator | Server.cs:35 | a line without a space is a single token |
| Text.SplitAfterField | Server.cs:35 | a separator-free prefix followed by the separator is the first field, and the rest splits on its own |
| Text.SplitTerminated | Agent.cs:76-82 | newline-terminated lines without newlines split back into those lines and one empty field |
| Text.FirstFieldIsPrefix | Agent.cs:54 | the first token is the longest space-free prefix of the line |
| Text.VerbIgnoresCase | Agent.cs:54 | a token lowers to a lower-case word exactly when each character lowers to that word's letter |
| Text.Verb | Server.cs:35-36 | the verb is the first space-separated token lower-cased; `AgentProgram.VerbOfTokenAndRest` shows only that token decides it and `Text.VerbIgnoresCase` when it lowers to a given word |
| Text.TrimStart | Agent.cs:73 | the result is a suffix, everything dropped is white space, and it does not start with white space |
| Text.TrimEnd | Agent.cs:73 | the result is a prefix, everything dropped is white space, and it does not end with white space |
| Text.Trim | Agent.cs:73 | the trimmed text is no longer and neither starts nor ends with white space |
| Text.TrimKeepsInterior | Agent.cs:73 | the trimmed text is a contiguous part of the original, and only white space is dropped on either side |
| Int16Text.ParseInt16 | Server.cs:55 | a successful parse is within -32768..32767 |
| Int16Text.Decimal | Server.cs:57 | the digits have the value of the number and no leading zero |
| Int16Text.FormatInt | Server.cs:57 | the text starts with '-' exactly for a negative number, and the rest is decimal digits |
| Int16Text.ParseFormat | Server.cs:55-57 | parsing the decimal text of a 16-bit number gives the number back |
| Int16Text.ParseRefusesOverflow | Server.cs:58-61 | a magnitude above 32767 is refused bare or with '+'; with '-' it is refused above 32768, and "-32768" gives -32768 |
| Controller.Enqueue | Server.cs:183-185 | the flag is kept, the old queue is kept as a prefix, and the command is the one new entry, at the back |
| Controller.Dispatch | Server.cs:187-207 | a command is sent exactly when the handler is active and its queue non-empty; the sent command and the queue left make up the old queue; otherwise nothing changes |
| Controller.DispatchIsFifo | Server.cs:192-197 | an active handler sends the queued commands front first, in the order they were enqueued, and keeps the rest in order |
| Controller.InactiveNeverSends | Server.cs:189-191 | an inactive handler never sends and keeps its queue |
| Controller.Next | Server.cs:33-83 | one pass of the console loop never removes a client or changes a flag and only appends to queues; only `quit` ends the loop, only `cmd`/`info`/`quit` touch a queue, only `back`/`enter` change the selection |
| Controller.Drive | Server.cs:32-84 | the console loop keeps the number of clients and writes at most one report per line, exactly one per line when it did not end on `quit` |
| Controller.BackClearsSelection | Server.cs:43-46 | `back` selects no session and restores "JodyRAT> "; no queue changes |
| Controller.FormatHasNoSpace | Server.cs:57 | the decimal text of a number holds no space, so it is one token |
| Controller.SplitEnterLine | Server.cs:54 | "enter N" splits into the verb and the number as formatted |
| Controller.SessionPrompt | Server.cs:57 | the prompt after `enter` is the base prompt and the number in parentheses; `Controller.EnterSelectsParsedNumber` shows it follows the parsed number |
| Controller.EnterSelectsParsedNumber | Server.cs:52-57 | `enter` whose second token `Int16.Parse` accepts ("007", "+3", any later tokens ignored) selects the parsed number, in range of the client list or not, shows it in the prompt and echoes the token |
| Controller.EnterSelectsAnyInt16 | Server.cs:52-57 | a corollary: every 16-bit N is selected by typing its decimal text, and the prompt shows "(N) " |
| Controller.EnterFailureClearsSelection | Server.cs:58-61 | a missing or unparseable argument selects no session, restores the base prompt and reports the error |
| Controller.CommandWithoutSession | Server.cs:64-66 | `cmd`/`info` with no session selected changes nothing and reports the error |
| Controller.CommandGoesToSelectedSession | Server.cs:67-70 | with a session that exists, the whole line goes to the back of exactly that queue and nothing else changes |
| Controller.CommandToMissingSession | Server.cs:71-72 | with a selection beyond the list or below -1, nothing changes and the error is reported |
| Controller.QuitBroadcasts | Server.cs:37-42 | `quit` ends the loop and appends "quit" to every queue, removing no client and changing no flag |
| Controller.StaleSelectionRefusedAtSend | Server.cs:55 | a selection beyond the list is accepted by `enter` and refused only at the next `cmd`/`info` |
| Controller.EnterMinusOneSelectsNothing | Server.cs:57 | `enter -1` shows "(-1)" in the prompt, yet the next `cmd`/`info` is refused as if nothing were selected |
| Controller.DriveOnlyAppends | Server.cs:32-84 | the console loop never removes a client, never changes a flag and only appends to queues; it reports at most once per line, and once per line when it still runs |
| Controller.DriveEndsWithQuit | Server.cs:37-42 | a loop that ended on `quit` read a `quit` last, and every queue then ends with "quit" |
| Controller.ShutdownStrandsQuit | Server.cs:85-88 | as written, after `quit` every handler is stopped with "quit" last in its queue and never sends anything again |
| Controller.DrainAndStop | Server.cs:85-88 | the intended shutdown: a running handler sends its whole queue in order and is then stopped with nothing pending; a stopped one sends nothing |
| Controller.DrainedShutdownSendsQuit | Server.cs:37-41 | with the intended shutdown, every handler that was running sends all it had pending and then "quit" last |
| Controller.DriveEnqueuesKnownVerbs | Server.cs:64-69 | only lines with the verb `cmd`, `info` or `quit` are ever enqueued |
| Controller.ClientHandler.Start | Server.cs:170-177 | a new handler is active with an empty queue |
| Controller.ClientHandler.Stop | Server.cs:179-181 | `Stop` clears the flag and keeps the pending commands |
| Controller.ClientHandler.SendClientCommand | Server.cs:183-185 | the command joins the back of the queue |
| Controller.ClientHandler.HandleStep | Server.cs:187-208 | one pass of `HandleClient` is `Dispatch`: the front command leaves and is written ASCII-encoded, and the answer is shown |
| Controller.ServerListener.constructor | Server.cs:126 | a new listener is not active |
| Controller.ServerListener.Start | Server.cs:128-133 | `Start` sets the flag |
| Controller.ServerListener.Stop | Server.cs:135-138 | `Stop` clears the flag |
| Controller.ServerListener.AcceptStep | Server.cs:140-160 | a running listener that accepts adds a fresh active handler at the end of the list; otherwise nothing changes |
| Controller.Server.Start | Server.cs:21-31 | the console starts with no clients, no selection, the base prompt and a started listener |
| Controller.Server.AddClient | Server.cs:98-100 | the handler joins the end of the list, so its index is the old length |
| Controller.Server.QuitAll | Server.cs:37-42 | the loop flag is cleared and "quit" is enqueued on every client |
| Controller.Server.Select | Server.cs:43-46 | the selection and the prompt are set and the clients are untouched |
| Controller.Server.SendToSelected | Server.cs:64-76 | the line is enqueued on the selected client if it exists, otherwise the matching error is reported |
| Controller.Server.StopClients | Server.cs:86-88 | every handler is stopped and keeps its queue |
| Controller.Server.ReadLines | Server.cs:32-84 | the loop moves the objects exactly as `Drive` moves the view |
| Controller.Server.Step | Server.cs:32-84 | one pass of the loop moves the objects exactly as `Next` moves the view |
| Controller.Server.Run | Server.cs:32-88 | the loop moves the objects as `Drive` does; after `quit`, the listener and every handler are stopped and no client is removed |
| AgentProgram.IsUnix | Agent.cs:39-42 | the Unix-like platform codes 4, 6 and 128; `ShellCarriesCommand` states the shell it selects |
| AgentProgram.Shell | Agent.cs:59-65 | `bash` exactly when Unix-like, and the command appears whole in the arguments, after "-c '" or "/c " |
| AgentProgram.Execute | Agent.cs:51-93 | only `cmd` can fault, and only when it is bare or its shell cannot start; `BareCmdFaults`, `CmdRunsRestOfLine`, `InfoRepliesInfoText`, `QuitSaysGoodbye` and `UnknownVerbRepliesNothing` give each branch's reply |
| AgentProgram.ShellText | Agent.cs:56 | the shell text of a `cmd` line is the line without its first four characters |
| AgentProgram.VerbOfTokenAndRest | Agent.cs:52-54 | only the first space-delimited token, lower-cased, selects the branch |
| AgentProgram.VerbExamples | Agent.cs:54 | "CMD x" has the verb `cmd` and "Quit now" has the verb `quit` |
| AgentProgram.CmdTooShortIffBare | Agent.cs:56 | a `cmd` line is too short for `Substring(4)` exactly when it has no space |
| AgentProgram.BareCmdFaults | Agent.cs:56 | a `cmd` in any letter case with nothing after it faults at `Substring(4)` |
| AgentProgram.CmdRunsRestOfLine | Agent.cs:55-73 | a `cmd` line runs the rest of the line through the platform's shell; a shell that cannot start is a fault |
| AgentProgram.ShellCarriesCommand | Agent.cs:59-65 | the shell is `bash -c '…'` exactly on platform codes 4, 6 and 128, and `cmd.exe /c …` otherwise |
| AgentProgram.CmdReplyJoinsStreams | Agent.cs:73 | the `cmd` reply is the trimmed output followed directly by the trimmed error output |
| AgentProgram.InfoIsSixLabelledLines | Agent.cs:76-82 | the `info` reply is six newline-terminated lines labelled in the fixed order |
| AgentProgram.InfoLines | Agent.cs:76-82 | the six labelled lines of the `info` reply; `InfoIsSixLabelledLines` states their labels and order |
| AgentProgram.InfoText | Agent.cs:76-82 | the six lines each ended by "\n"; `InfoIsSixLabelledLines` shows it splits back into them |
| AgentProgram.InfoRepliesInfoText | Agent.cs:76-82 | an `info` line, in any letter case, is answered with the host's six-line description |
| AgentProgram.QuitSaysGoodbye | Agent.cs:84-86 | `quit` replies "Quitting. Goodbye." |
| AgentProgram.UnknownVerbRepliesNothing | Agent.cs:88-90 | any other verb replies with the empty string and does not quit |
| AgentProgram.Serve | Agent.cs:24-31 | the loop writes at most one reply per command, and when it stops it has just answered a `quit` |
| AgentProgram.ServeStep | Agent.cs:24-31 | the first command's outcome decides whether the loop crashes, stops after its reply or goes on |
| AgentProgram.ServedAll | Agent.cs:24 | at the end of the input the loop has written every reply and waits |
| AgentProgram.ServedUntilFault | Agent.cs:27 | a faulting command ends the loop with the replies written before it |
| AgentProgram.ServedUntilQuit | Agent.cs:24-30 | an answered `quit` ends the loop right after its reply |
| AgentProgram.ServedOneMore | Agent.cs:24-30 | any other answered command adds its reply and the loop goes on |
| AgentProgram.ServeShift | Agent.cs:24-31 | after a command that continues, the replies are its own, then those of the rest |
| AgentProgram.ServeRepliesOncePerCommand | Agent.cs:24-31 | the loop writes at most one reply per command, and exactly one each while it waits for more |
| AgentProgram.StopsAt | Agent.cs:24-31 | the loop stops at the first command that quits, having answered it |
| AgentProgram.FirstQuitStops | Agent.cs:84-87 | the first `quit` ends the loop right after the farewell, and later commands are never read |
| AgentProgram.NoQuitKeepsServing | Agent.cs:24-31 | without a `quit` or a fault, every command is answered and the loop waits for more |
| AgentProgram.ServeWritesEachReply | Agent.cs:28-29 | the k-th reply written is the whole ASCII encoding of the reply to the k-th command |
| AgentProgram.Utf16LengthCountsWide | Agent.cs:29 | `Reply.Length` is at least the character count, and equal to it exactly for text in the BMP |
| AgentProgram.Utf16Length | Agent.cs:29 | `Reply.Length`: one code unit per character in the BMP and two beyond it; `Utf16LengthCountsWide` relates it to the character count |
| AgentProgram.WrittenAsIs | Agent.cs:28-29 | what the write as written sends, when it sends anything, is the ASCII encoding of the reply |
| AgentProgram.WrittenAsIsFailsBeyondBmp | Agent.cs:29 | the write as written sends the whole reply for text in the BMP and throws otherwise |
| AgentProgram.ServeAsWritten | Agent.cs:24-31 | the loop as written, where a reply the write throws on ends the agent: at most one reply per command |
| AgentProgram.AsWrittenAgreesWithinBmp | Agent.cs:28-29 | while every reply stays in the BMP, the loop as written and the corrected loop agree |
| AgentProgram.EmojiReplyCrashesTheLoop | Agent.cs:29 | a reply holding U+1F600 ends the loop as written without a byte sent, where the corrected loop writes "ok ?" and reads on |
| AgentProgram.EmojiReplyIsNotWritten | Agent.cs:29 | a reply holding U+1F600 makes the write as written throw |
| AgentProgram.Agent.constructor | Agent.cs:16 | the flag starts cleared |
| AgentProgram.Agent.ExecuteCommand | Agent.cs:51-93 | the reply is `Execute`'s, and only `quit` clears `Active` |
| AgentProgram.Agent.Run | Agent.cs:18-31 | with each reply written whole (the corrected write), the loop writes what `Serve` writes and ends as `Serve` does; `Active` is clear exactly when it stopped on `quit` |
| Protocol.FirstTokenThroughAscii | Agent.cs:26 | the first token of the decoded line is the encoding of the first token that was sent |
| Protocol.VerbSurvivesTheWire | Server.cs:196 | a line whose first token is 7-bit reaches the agent with the verb the console saw |
| Protocol.ForwardedCommandKeepsItsBranch | Server.cs:69 | a forwarded `cmd`/`info` with a 7-bit verb is run by the agent under the same verb |
| Protocol.DottedInfoIsLostOnTheWire | Server.cs:36 | where `ToLower` maps U+0130 to 'i', "İnfo" is forwarded as `info` but reaches the agent as "?nfo" and gets an empty reply |
| Protocol.BareCmdEndsTheAgent | Agent.cs:56 | a bare `cmd` is forwarded by the console and ends the agent without a reply |
| Protocol.EncodedQuitStillQuits | Server.cs:40 | on the wire, the broadcast "quit" comes after the pending commands and still quits |
| Protocol.BroadcastQuitStopsTheAgent | Server.cs:37-41 | under the intended shutdown (`DrainAndStop`, a handler that dispatches before it stops), a running handler sends its pending commands and then "quit"; an agent that answers the others with non-empty replies writes one non-empty reply per command and stops at the `quit` with the farewell |
| Protocol.RepliesAreAloud | Server.cs:196-202 | replies written one per command, for pending commands answered aloud and then the farewell, are all non-empty, so the handler's `Read` receives bytes for each |

## Left out

- Sockets are not modelled. That covers `TcpListener`, `TcpClient`, `Connect` and its failure, and the 65536-byte and `ReceiveBufferSize` buffers. One `Read` may return part of a message or several messages; the model treats each command and each reply as arriving whole.
- An agent whose connection closes reads zero bytes forever and answers each empty "command" with an empty reply. This is not modelled.
- Threads, `Thread.Sleep` and polling are not modelled. `HandleClient` and the accept loop are single steps called explicitly (`HandleStep`, `AcceptStep`). The source's unsynchronised `Queue` is shared between the console thread and the handler thread; that race is not captured.
- AgentProgram.Execute: the `Launcher` always returns. In the source the agent hangs for good, never answering and never reading again, when a started process never exits (`WaitForExit()` at Agent.cs:72 has no timeout) or when it fills its redirected stdout or stderr pipe before `ReadToEnd()` (Agent.cs:73) drains it, since the child then blocks on its write and never exits. `NoQuitKeepsServing`, the "exactly one each" half of `ServeRepliesOncePerCommand`, and the other loop lemmas over `Executor` assume a launcher that returns.
- Process spawning and `WaitForExit` (which has no timeout) are the `Launcher` parameter. The runtime's own splitting of `ProcessStartInfo.Arguments`, and the shell's handling of a quote in the command, are not modelled.
- The `Environment` values are fields of `Host`. `Environment.OSVersion` is taken as the text it prints.
- Console colours, `MakePrompt`, `Log`, `LogError`, `ClientResponse` and the `list` output are left out. They appear only as the abstract `Report` of each line.
- The listener's `SocketException` classification (Server.cs:152-157) is reduced to "no connection accepted". It only decides whether something is printed.
- Text.ToLower: follows a current culture that is neither Turkish nor invariant, on a runtime whose casing maps U+0130 to 'i' (as Mono's does). How U+0130 lower-cases depends on the runtime and the culture: the invariant culture, and .NET's own casing tables that match it, leave it unchanged, and then "İnfo" is an unknown command that is never forwarded. Turkish casing is left out. Characters that do not lower to an ASCII letter are left unchanged, which changes no comparison with a verb.
- `Int16.Parse` is modelled for a culture with ASCII digits and the signs '-' and '+'; native digits and other sign characters are left out.
- `Int16Text.ParseInt16` accepts only the white space `NumberStyles.Integer` allows, and no trailing '\0'.
- Strings are sequences of Unicode scalar values, and `Ascii` replaces each non-ASCII character with one '?'. The agent's one use of `String.Length` in UTF-16 code units is modelled explicitly (`Utf16Length`).
- The `catch (Exception)` around sending a command (Server.cs:73-75) is not modelled. With an index already checked, `SendClientCommand` cannot throw in the model.
- AgentProgram.Agent.Run: writes each reply whole, as the corrected loop `Serve` does. The write as Agent.cs:29 has it is modelled by `ServeAsWritten`, which agrees with `Serve` while replies stay in the BMP (`AsWrittenAgreesWithinBmp`); see "## Findings".
- Controller.ClientHandler.HandleStep: takes the agent's answer as given. An empty reply makes the agent write zero bytes, and the handler's `stream.Read` (Server.cs:202) then blocks for good, so nothing queued after it is ever sent; the step does not capture that. `Protocol.BroadcastQuitStopsTheAgent` therefore requires non-empty replies.
- Controller.Server.Run: models the shutdown as written, so the broadcast "quit" is stranded (`ShutdownStrandsQuit`). In the threaded source a handler could still send it if its thread polled between `SendClientCommand` and `Stop`; that race is not captured.
- `ExecuteCommand`'s `Log` calls are left out. So is the `Thread.Sleep(1000)` at start-up.
- The console `Run` also stops at the end of the given input. There, `Console.ReadLine` returns null and the source's next `Split` throws, ending the process. The model reports this as `InputEnded` and shuts nothing down.

## Findings

| source | as written | input that shows it | evidently intended | confidence | as-written member | corrected member |
|---|---|---|---|---|---|---|
| Agent.cs:29 | `Stream.Write(ReplyBytes, 0, Reply.Length)` takes the count from the string's UTF-16 length. The ASCII encoding produces one byte per character, so a character beyond U+FFFF (two code units, one byte) makes the count pass the end of the bytes, and `Write` throws. | a `cmd` whose output is "ok \U{1F600}": 5 code units, 4 bytes | write all of the encoded bytes, `ReplyBytes.Length` | medium, not executed | AgentProgram.EmojiReplyCrashesTheLoop | AgentProgram.ServeWritesEachReply |
| Server.cs:85-88 | after `quit` enqueues "quit" on every handler (Server.cs:39-41), `Main` stops the listener and every handler straight away. A stopped handler's loop returns before looking at its queue, so the "quit" is sent only if the handler's thread happens to poll in between. | `quit` typed while an agent is connected and idle: the agent never receives "quit" and keeps running | each handler sends what it has pending, "quit" included, before it stops | medium, not executed | Controller.ShutdownStrandsQuit | Controller.DrainedShutdownSendsQuit |
