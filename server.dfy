/**
 * The controller of Server.cs: the console loop of `Server.Main`, the
 * `ServerListener` that admits agents, and one `ClientHandler` per agent with
 * its queue of pending commands.
 *
 * The state the console loop works on is given twice: as the heap objects the
 * source mutates (classes `Server`, `ClientHandler`, `ServerListener`) and as a
 * value (`ConsoleView`) that the pure specification `Next` steps. Each method
 * is proved to move its objects exactly as the specification moves the value,
 * and the lemmas state what the specification promises.
 */
module Controller {
  import opened Optional
  import opened Text
  import opened Int16Text

  /** `ServerConstants.PROMPT`, the prompt when no session is selected. */
  const BasePrompt: string := "JodyRAT> "

  /** The command the console sends every agent when it quits. */
  const QuitCommand: string := "quit"

  /** The session index that stands for "no session selected". */
  const NoSession: int := -1

  // ---------------------------------------------------------------------------
  // One handler per agent
  // ---------------------------------------------------------------------------

  /** A `ClientHandler` as a value: its pending commands, front first, and its `Active` flag. */
  datatype HandlerState = HandlerState(queue: seq<string>, active: bool)

  /** `SendClientCommand`: the command joins the back of the queue, whatever the flag. */
  function Enqueue(h: HandlerState, command: string): (r: HandlerState)
    ensures r.active == h.active && |r.queue| == |h.queue| + 1
    ensures r.queue[..|h.queue|] == h.queue && r.queue[|h.queue|] == command
  {
    h.(queue := h.queue + [command])
  }

  /**
   * One pass of the `HandleClient` loop: when the handler is active and has a
   * pending command, the front command leaves the queue and is sent.
   */
  function Dispatch(h: HandlerState): (r: (HandlerState, Option<string>))
    ensures r.0.active == h.active
    ensures r.1.Some? <==> h.active && h.queue != []
    ensures r.1.Some? ==> h.queue == [r.1.value] + r.0.queue
    ensures r.1.None? ==> r.0 == h
  {
    if h.active && h.queue != [] then (h.(queue := h.queue[1..]), Some(h.queue[0]))
    else (h, None)
  }

  /** `n` passes of the `HandleClient` loop, with the commands they send, in order. */
  function DispatchTimes(h: HandlerState, n: nat): (HandlerState, seq<string>)
    decreases n
  {
    if n == 0 then (h, [])
    else
      var first := Dispatch(h);
      var rest := DispatchTimes(first.0, n - 1);
      (rest.0, (if first.1.Some? then [first.1.value] else []) + rest.1)
  }

  /**
   * The queue is first-in first-out: an active handler sends the commands
   * ahead in the queue first, in the order they were enqueued, and keeps the
   * rest in order.
   */
  lemma {:induction false} DispatchIsFifo(h: HandlerState, ahead: seq<string>, behind: seq<string>)
    requires h.active && h.queue == ahead + behind
    decreases |ahead|
    ensures DispatchTimes(h, |ahead|) == (h.(queue := behind), ahead)
  {
    if ahead == [] {
      assert h.queue == behind;
    } else {
      assert h.queue[1..] == ahead[1..] + behind && h.queue[0] == ahead[0];
      assert Dispatch(h) == (h.(queue := ahead[1..] + behind), Some(ahead[0]));
      DispatchIsFifo(h.(queue := ahead[1..] + behind), ahead[1..], behind);
      assert ahead == [ahead[0]] + ahead[1..];
    }
  }

  /** An inactive handler never sends anything and keeps its queue. */
  lemma {:induction false} InactiveNeverSends(h: HandlerState, n: nat)
    requires !h.active
    ensures DispatchTimes(h, n) == (h, [])
  {
    if n > 0 {
      assert Dispatch(h) == (h, None);
      InactiveNeverSends(h, n - 1);
      assert DispatchTimes(h, n).1 == [] + DispatchTimes(h, n - 1).1;
    }
  }

  // ---------------------------------------------------------------------------
  // The console loop of Server.Main
  // ---------------------------------------------------------------------------

  /**
   * The state the console loop reads and writes: `CurrentSession`, `Prompt`,
   * `KeepGoing` and the handlers of `ClientList`, in insertion order.
   */
  datatype ConsoleView = ConsoleView(
    currentSession: int,
    prompt: string,
    keepGoing: bool,
    handlers: seq<HandlerState>)

  /** The errors the console reports with `LogError`. */
  datatype ConsoleError =
    | EnterFailed               // "Error in entering specified session"
    | NoSessionSelected         // "This Command can only be used after a session has been selected"
    | NoSuchSession             // "The specified session does not exist"
    | UnknownCommand(line: string)

  /** What the console prints for one input line, apart from the prompt. */
  datatype Report =
    | Silent
    | Listing(count: nat)       // the indices 0 .. count - 1, one per line
    | Entering(session: string) // "Entering session " and the argument as typed
    | Error(error: ConsoleError)

  /** The prompt while session `n` is selected: `String.Format("{0}({1}) ", PROMPT, n)`. */
  function SessionPrompt(n: int): string {
    BasePrompt + "(" + FormatInt(n) + ") "
  }

  /** Every handler with `command` enqueued. */
  function Broadcast(hs: seq<HandlerState>, command: string): seq<HandlerState> {
    seq(|hs|, i requires 0 <= i < |hs| => Enqueue(hs[i], command))
  }

  /** Every handler stopped. */
  function StopAll(hs: seq<HandlerState>): seq<HandlerState> {
    seq(|hs|, i requires 0 <= i < |hs| => hs[i].(active := false))
  }

  predicate IsSessionCommand(verb: string) {
    verb == "cmd" || verb == "info"
  }

  /** One pass of the console loop on the input line `line`. */
  function Next(v: ConsoleView, line: string): (r: (ConsoleView, Report))
    ensures QueuesOnlyGrow(v.handlers, r.0.handlers)
    ensures r.0.keepGoing == (v.keepGoing && Verb(line) != "quit")
    ensures r.0.handlers != v.handlers ==> IsSessionCommand(Verb(line)) || Verb(line) == "quit"
    ensures r.0.currentSession != v.currentSession ==> Verb(line) == "back" || Verb(line) == "enter"
  {
    var tokens := Split(line, ' ');
    var verb := ToLower(tokens[0]);
    if verb == "quit" then
      (v.(keepGoing := false, handlers := Broadcast(v.handlers, QuitCommand)), Silent)
    else if verb == "back" then
      (v.(currentSession := NoSession, prompt := BasePrompt), Silent)
    else if verb == "list" then
      (v, Listing(|v.handlers|))
    else if verb == "enter" then
      var parsed := if |tokens| >= 2 then ParseInt16(tokens[1]) else None;
      if parsed.Some? then
        (v.(currentSession := parsed.value, prompt := SessionPrompt(parsed.value)), Entering(tokens[1]))
      else
        (v.(currentSession := NoSession, prompt := BasePrompt), Error(EnterFailed))
    else if IsSessionCommand(verb) then
      if v.currentSession == NoSession then
        (v, Error(NoSessionSelected))
      else if 0 <= v.currentSession < |v.handlers| then
        var k := v.currentSession;
        (v.(handlers := v.handlers[k := Enqueue(v.handlers[k], line)]), Silent)
      else
        (v, Error(NoSuchSession))
    else if verb == "" then
      (v, Silent)
    else
      (v, Error(UnknownCommand(line)))
  }

  /** The console loop: it reads lines while `KeepGoing` holds and input remains. */
  function Drive(v: ConsoleView, lines: seq<string>): (r: (ConsoleView, seq<Report>))
    ensures |r.0.handlers| == |v.handlers|
    ensures |r.1| <= |lines|
    ensures r.0.keepGoing ==> |r.1| == |lines|
    decreases |lines|
  {
    if !v.keepGoing || lines == [] then (v, [])
    else
      var first := Next(v, lines[0]);
      var rest := Drive(first.0, lines[1..]);
      (rest.0, [first.1] + rest.1)
  }

  // ---------------------------------------------------------------------------
  // What one console step promises
  // ---------------------------------------------------------------------------

  /** `back` clears the selection and restores the base prompt; no queue changes. */
  lemma BackClearsSelection(v: ConsoleView, line: string)
    requires Verb(line) == "back"
    ensures Next(v, line) == (v.(currentSession := NoSession, prompt := BasePrompt), Silent)
  {
  }

  /** The decimal text of a number has no space in it. */
  lemma FormatHasNoSpace(n: int)
    ensures ' ' !in FormatInt(n)
  {
    if n < 0 {
      assert FormatInt(n) == "-" + Decimal(-n);
    }
  }

  /** The line `enter N` splits into the verb and the number as formatted. */
  lemma {:induction false} SplitEnterLine(n: int)
    ensures Split("enter " + FormatInt(n), ' ') == ["enter", FormatInt(n)]
  {
    assert "enter " + FormatInt(n) == "enter" + [' '] + FormatInt(n);
    FormatHasNoSpace(n);
    SplitAfterField("enter", ' ', FormatInt(n));
    SplitWithoutSeparator(FormatInt(n), ' ');
  }

  /**
   * `enter` whose second token `Int16.Parse` accepts selects the parsed number,
   * in range of the client list or not, shows it in the prompt and echoes the
   * token as typed; later tokens are ignored and nothing else changes.
   */
  lemma EnterSelectsParsedNumber(v: ConsoleView, line: string, n: int)
    requires Verb(line) == "enter" && |Split(line, ' ')| >= 2
    requires ParseInt16(Split(line, ' ')[1]) == Some(n)
    ensures Next(v, line) == (v.(currentSession := n, prompt := SessionPrompt(n)), Entering(Split(line, ' ')[1]))
  {
  }

  /** So every 16-bit number can be selected, by typing its decimal text. */
  lemma {:induction false} EnterSelectsAnyInt16(v: ConsoleView, n: int)
    requires InInt16Range(n)
    ensures Next(v, "enter " + FormatInt(n))
      == (v.(currentSession := n, prompt := SessionPrompt(n)), Entering(FormatInt(n)))
  {
    SplitEnterLine(n);
    assert ToLower("enter") == "enter";
    ParseFormat(n);
    EnterSelectsParsedNumber(v, "enter " + FormatInt(n), n);
  }

  /**
   * `enter` with no argument, or with one that is not a 16-bit number, clears
   * the selection, restores the base prompt and reports the error.
   */
  lemma EnterFailureClearsSelection(v: ConsoleView, line: string)
    requires Verb(line) == "enter"
    requires |Split(line, ' ')| < 2 || ParseInt16(Split(line, ' ')[1]).None?
    ensures Next(v, line) == (v.(currentSession := NoSession, prompt := BasePrompt), Error(EnterFailed))
  {
  }

  /** `cmd` and `info` without a selected session change nothing and report the error. */
  lemma CommandWithoutSession(v: ConsoleView, line: string)
    requires IsSessionCommand(Verb(line)) && v.currentSession == NoSession
    ensures Next(v, line) == (v, Error(NoSessionSelected))
  {
  }

  /**
   * `cmd` and `info` with a selected session that exists put the whole input
   * line, unsplit and as typed, at the back of that session's queue, and
   * change nothing else.
   */
  lemma CommandGoesToSelectedSession(v: ConsoleView, line: string)
    requires IsSessionCommand(Verb(line)) && 0 <= v.currentSession < |v.handlers|
    ensures var (w, report) := Next(v, line);
      report == Silent
      && w.currentSession == v.currentSession && w.prompt == v.prompt && w.keepGoing == v.keepGoing
      && |w.handlers| == |v.handlers|
      && w.handlers[v.currentSession].queue == v.handlers[v.currentSession].queue + [line]
      && w.handlers[v.currentSession].active == v.handlers[v.currentSession].active
      && forall j :: 0 <= j < |v.handlers| && j != v.currentSession ==> w.handlers[j] == v.handlers[j]
  {
  }

  /**
   * `cmd` and `info` with a selection that names no client (beyond the list,
   * or negative other than -1) change nothing and report the error.
   */
  lemma CommandToMissingSession(v: ConsoleView, line: string)
    requires IsSessionCommand(Verb(line))
    requires v.currentSession != NoSession && !(0 <= v.currentSession < |v.handlers|)
    ensures Next(v, line) == (v, Error(NoSuchSession))
  {
  }

  /**
   * `quit` ends the loop and puts "quit" at the back of every client's queue;
   * no client is removed and no flag or selection changes.
   */
  lemma QuitBroadcasts(v: ConsoleView, line: string)
    requires Verb(line) == "quit"
    ensures var (w, report) := Next(v, line);
      report == Silent && !w.keepGoing
      && w.currentSession == v.currentSession && w.prompt == v.prompt
      && |w.handlers| == |v.handlers|
      && forall j :: 0 <= j < |v.handlers| ==>
           w.handlers[j].queue == v.handlers[j].queue + [QuitCommand]
           && w.handlers[j].active == v.handlers[j].active
  {
  }

  /**
   * Because `enter` does not check the bounds, a number beyond the client
   * list is selected, and the first `cmd` or `info` after it is refused there
   * without changing anything.
   */
  lemma {:induction false} StaleSelectionRefusedAtSend(v: ConsoleView, n: int, line: string)
    requires InInt16Range(n) && n >= |v.handlers|
    requires IsSessionCommand(Verb(line))
    ensures var w := Next(v, "enter " + FormatInt(n)).0;
      w.currentSession == n && Next(w, line) == (w, Error(NoSuchSession))
  {
    EnterSelectsAnyInt16(v, n);
    CommandToMissingSession(Next(v, "enter " + FormatInt(n)).0, line);
  }

  /**
   * `enter -1` parses, so it reports success and shows "(-1)" in the prompt,
   * yet -1 is "no session": the next `cmd` or `info` is refused as if nothing
   * had been selected.
   */
  lemma {:induction false} EnterMinusOneSelectsNothing(v: ConsoleView, line: string)
    requires IsSessionCommand(Verb(line))
    ensures var w := Next(v, "enter -1").0;
      w.prompt == BasePrompt + "(-1) " && Next(w, line) == (w, Error(NoSessionSelected))
  {
    assert FormatInt(-1) == "-1" by {
      assert Decimal(1) == "1";
    }
    assert "enter -1" == "enter " + FormatInt(-1);
    EnterSelectsAnyInt16(v, -1);
    var w := Next(v, "enter -1").0;
    assert w.currentSession == NoSession;
    assert SessionPrompt(-1) == BasePrompt + "(-1) ";
    CommandWithoutSession(w, line);
  }

  // ---------------------------------------------------------------------------
  // What the whole console loop promises
  // ---------------------------------------------------------------------------

  /** Every queue of `before` is a prefix of the same client's queue in `after`. */
  predicate QueuesOnlyGrow(before: seq<HandlerState>, after: seq<HandlerState>) {
    |after| == |before|
    && forall j :: 0 <= j < |before| ==>
         after[j].active == before[j].active && before[j].queue <= after[j].queue
  }

  /**
   * The console loop never removes a client, never changes an `Active` flag
   * and only ever appends to queues; it reports once per line it reads.
   */
  lemma {:induction false} DriveOnlyAppends(v: ConsoleView, lines: seq<string>)
    ensures var (w, reports) := Drive(v, lines);
      QueuesOnlyGrow(v.handlers, w.handlers) && |reports| <= |lines|
      && (w.keepGoing ==> |reports| == |lines|)
    decreases |lines|
  {
    if v.keepGoing && lines != [] {
      var v1 := Next(v, lines[0]).0;
      assert QueuesOnlyGrow(v.handlers, v1.handlers);
      DriveOnlyAppends(v1, lines[1..]);
    }
  }

  /**
   * When the loop ends because of `quit`, the last line it read was a `quit`
   * and "quit" is the last command in every client's queue.
   */
  lemma {:induction false} DriveEndsWithQuit(v: ConsoleView, lines: seq<string>)
    requires v.keepGoing
    ensures var (w, reports) := Drive(v, lines);
      !w.keepGoing ==>
        1 <= |reports| <= |lines| && Verb(lines[|reports| - 1]) == "quit"
        && |w.handlers| == |v.handlers|
        && forall j :: 0 <= j < |w.handlers| ==>
             w.handlers[j].queue != [] && w.handlers[j].queue[|w.handlers[j].queue| - 1] == QuitCommand
    decreases |lines|
  {
    if lines != [] {
      var v1 := Next(v, lines[0]).0;
      if v1.keepGoing {
        DriveEndsWithQuit(v1, lines[1..]);
      } else {
        assert Drive(v1, lines[1..]) == (v1, []);
      }
    }
  }

  /** Every command waiting in a queue has the verb `cmd`, `info` or `quit`. */
  predicate QueuedVerbsKnown(hs: seq<HandlerState>) {
    forall j, k :: 0 <= j < |hs| && 0 <= k < |hs[j].queue| ==>
      IsSessionCommand(Verb(hs[j].queue[k])) || Verb(hs[j].queue[k]) == "quit"
  }

  /**
   * The console only ever enqueues lines whose verb is `cmd` or `info`, and
   * "quit": an agent is sent no other verb.
   */
  lemma {:induction false} DriveEnqueuesKnownVerbs(v: ConsoleView, lines: seq<string>)
    requires QueuedVerbsKnown(v.handlers)
    ensures QueuedVerbsKnown(Drive(v, lines).0.handlers)
    decreases |lines|
  {
    if v.keepGoing && lines != [] {
      var v1 := Next(v, lines[0]).0;
      assert Verb(QuitCommand) == "quit" by {
        SplitWithoutSeparator(QuitCommand, ' ');
      }
      assert QueuedVerbsKnown(v1.handlers);
      DriveEnqueuesKnownVerbs(v1, lines[1..]);
    }
  }

  /**
   * The shutdown as Server.cs writes it: `quit` enqueues "quit" and every
   * handler is stopped straight after, so each stopped handler keeps "quit"
   * last in its queue and never sends it, however often its loop runs.
   */
  lemma ShutdownStrandsQuit(v: ConsoleView, lines: seq<string>, n: nat)
    requires v.keepGoing
    ensures var w := Drive(v, lines).0;
      !w.keepGoing ==>
        forall j :: 0 <= j < |w.handlers| ==>
          var h := StopAll(w.handlers)[j];
          !h.active && h.queue != [] && h.queue[|h.queue| - 1] == QuitCommand
          && DispatchTimes(h, n) == (h, [])
  {
    DriveEndsWithQuit(v, lines);
    var stopped := StopAll(Drive(v, lines).0.handlers);
    forall j | 0 <= j < |stopped|
      ensures DispatchTimes(stopped[j], n) == (stopped[j], [])
    {
      InactiveNeverSends(stopped[j], n);
    }
  }

  /**
   * The shutdown as evidently intended: a handler first sends everything it
   * has pending, in order, and then stops. The commands it sends are returned.
   */
  function DrainAndStop(h: HandlerState): (r: (HandlerState, seq<string>))
    ensures !r.0.active
    ensures h.active ==> r.1 == h.queue && r.0.queue == []
    ensures !h.active ==> r.1 == [] && r.0.queue == h.queue
  {
    var sent := DispatchTimes(h, |h.queue|);
    if h.active then
      assert h.queue == h.queue + [];
      DispatchIsFifo(h, h.queue, []);
      (sent.0.(active := false), sent.1)
    else
      InactiveNeverSends(h, |h.queue|);
      (sent.0.(active := false), sent.1)
  }

  /**
   * With the intended shutdown, every handler that was running when `quit`
   * was typed sends "quit" as its last command, after all it had pending.
   */
  lemma {:induction false} DrainedShutdownSendsQuit(v: ConsoleView, lines: seq<string>)
    requires v.keepGoing
    ensures var w := Drive(v, lines).0;
      !w.keepGoing ==>
        forall j :: 0 <= j < |v.handlers| && v.handlers[j].active ==>
          var sent := DrainAndStop(w.handlers[j]).1;
          sent == w.handlers[j].queue && v.handlers[j].queue <= sent
          && sent != [] && sent[|sent| - 1] == QuitCommand
  {
    DriveEndsWithQuit(v, lines);
    DriveOnlyAppends(v, lines);
  }

  // ---------------------------------------------------------------------------
  // The objects of Server.cs
  // ---------------------------------------------------------------------------

  /** `ClientHandler`: the pending commands `NextCmds` and the `Active` flag of one agent. */
  class ClientHandler {
    var queue: seq<string>
    var active: bool

    function State(): HandlerState
      reads this
    {
      HandlerState(queue, active)
    }

    /** `new ClientHandler()` followed by `Start(client)`: active, nothing pending. */
    constructor Start()
      ensures State() == HandlerState([], true)
    {
      queue := [];
      active := true;
    }

    /** `Stop`: clears `Active`; pending commands stay. */
    method Stop()
      modifies this
      ensures State() == old(State()).(active := false)
    {
      active := false;
    }

    /** `SendClientCommand`. */
    method SendClientCommand(command: string)
      modifies this
      ensures State() == Enqueue(old(State()), command)
    {
      queue := queue + [command];
    }

    /**
     * One pass of `HandleClient`. `received` is the text the agent answers
     * with, which the console shows. Returns the bytes written to the agent,
     * as text, and what is shown, both only when a command went out.
     */
    method HandleStep(received: string) returns (written: Option<string>, shown: Option<string>)
      modifies this
      ensures var (h, sent) := Dispatch(old(State()));
        State() == h
        && written == (if sent.Some? then Some(Ascii(sent.value)) else None)
        && shown == (if sent.Some? then Some(received) else None)
    {
      if !active || |queue| == 0 {
        written, shown := None, None;
        return;
      }
      var next := queue[0];
      queue := queue[1..];
      written := Some(Ascii(next));
      shown := Some(received);
    }
  }

  /** `ServerListener`: the `Active` flag of the accept loop. */
  class ServerListener {
    var active: bool

    /** `new ServerListener()`: not yet started. */
    constructor ()
      ensures !active
    {
      active := false;
    }

    method Start()
      modifies this
      ensures active
    {
      active := true;
    }

    method Stop()
      modifies this
      ensures !active
    {
      active := false;
    }

    /**
     * One pass of `ListenerThread`. `connected` tells whether
     * `AcceptTcpClient` returned a connection (rather than throwing a
     * `SocketException`, which is logged). A stopped listener admits nobody;
     * a running one that accepts starts a fresh handler and adds it at the
     * end of the client list, so its index is the list's old length.
     */
    method AcceptStep(server: Server, connected: bool) returns (admitted: Option<ClientHandler>)
      requires server.Valid()
      modifies server
      ensures server.Valid() && server.listener == old(server.listener)
      ensures admitted.Some? == (active && connected)
      ensures admitted.Some? ==>
        fresh(admitted.value)
        && server.clientList == old(server.clientList) + [admitted.value]
        && server.View() == old(server.View()).(handlers := old(server.View()).handlers + [HandlerState([], true)])
      ensures admitted.None? ==> server.clientList == old(server.clientList) && server.View() == old(server.View())
    {
      if !active || !connected {
        return None;
      }
      var handler := new ClientHandler.Start();
      server.AddClient(handler);
      admitted := Some(handler);
    }
  }

  /** How the console loop ended. */
  datatype Ending =
    | ShutDown     // `quit` was read: the listener and every handler were stopped
    | InputEnded   // `Console.ReadLine` returned null: the next `Split` throws and ends the process

  /**
   * The console of `Server.Main`: the static `ClientList` and `Prompt`, and
   * the loop's own `CurrentSession`, `KeepGoing` and `Listener`.
   */
  class Server {
    var clientList: seq<ClientHandler>
    var prompt: string
    var currentSession: int
    var keepGoing: bool
    var listener: ServerListener

    /** Each agent has its own handler. */
    ghost predicate Valid()
      reads this
    {
      forall i, j :: 0 <= i < j < |clientList| ==> clientList[i] != clientList[j]
    }

    function View(): ConsoleView
      reads this, clientList
    {
      ConsoleView(currentSession, prompt, keepGoing,
        seq(|clientList|, i requires 0 <= i < |clientList| reads this, clientList => clientList[i].State()))
    }

    /** The start of `Main`: no clients, a started listener, no selection, the base prompt. */
    constructor Start()
      ensures Valid() && fresh(listener) && listener.active
      ensures View() == ConsoleView(NoSession, BasePrompt, true, [])
    {
      clientList := [];
      prompt := BasePrompt;
      currentSession := NoSession;
      keepGoing := true;
      var l := new ServerListener();
      l.Start();
      listener := l;
    }

    /** `AddClient`: the handler joins the end of the client list. */
    method AddClient(handler: ClientHandler)
      requires Valid() && handler !in clientList
      modifies this
      ensures Valid() && clientList == old(clientList) + [handler] && listener == old(listener)
      ensures View() == old(View()).(handlers := old(View()).handlers + [handler.State()])
    {
      clientList := clientList + [handler];
    }

    /** `quit`: ends the loop and sends "quit" to every client, in list order. */
    method QuitAll()
      requires Valid()
      modifies this, clientList
      ensures Valid() && clientList == old(clientList) && listener == old(listener)
      ensures View() == old(View()).(keepGoing := false, handlers := Broadcast(old(View()).handlers, QuitCommand))
    {
      keepGoing := false;
      var i := 0;
      while i < |clientList|
        invariant 0 <= i <= |clientList|
        invariant clientList == old(clientList) && listener == old(listener)
        invariant currentSession == old(currentSession) && prompt == old(prompt) && !keepGoing
        invariant forall j :: 0 <= j < i ==> clientList[j].State() == Enqueue(old(clientList[j].State()), QuitCommand)
        invariant forall j :: i <= j < |clientList| ==> clientList[j].State() == old(clientList[j].State())
      {
        clientList[i].SendClientCommand(QuitCommand);
        i := i + 1;
      }
      assert View().handlers == Broadcast(old(View()).handlers, QuitCommand);
    }

    /** Sets the selection and the prompt; the clients are untouched. */
    method Select(session: int, newPrompt: string)
      modifies this
      ensures clientList == old(clientList) && listener == old(listener)
      ensures View() == old(View()).(currentSession := session, prompt := newPrompt)
    {
      currentSession := session;
      prompt := newPrompt;
      assert View().handlers == old(View()).handlers;
    }

    /** `cmd` and `info`: the whole line goes to the selected client, if there is one. */
    method SendToSelected(line: string) returns (report: Report)
      requires Valid()
      modifies clientList
      ensures Valid() && clientList == old(clientList) && listener == old(listener)
      ensures View() == (if 0 <= currentSession < |clientList|
        then old(View()).(handlers := old(View()).handlers[currentSession := Enqueue(old(View()).handlers[currentSession], line)])
        else old(View()))
      ensures report == (if currentSession == NoSession then Error(NoSessionSelected)
        else if 0 <= currentSession < |clientList| then Silent else Error(NoSuchSession))
    {
      if currentSession == NoSession {
        report := Error(NoSessionSelected);
      } else if 0 <= currentSession < |clientList| {
        var k := currentSession;
        clientList[k].SendClientCommand(line);
        assert View().handlers == old(View()).handlers[k := Enqueue(old(View()).handlers[k], line)];
        report := Silent;
      } else {
        report := Error(NoSuchSession);
      }
    }

    /** The shutdown after `quit`: every handler is stopped, in list order. */
    method StopClients()
      requires Valid()
      modifies clientList
      ensures Valid() && clientList == old(clientList) && listener == old(listener)
      ensures View() == old(View()).(handlers := StopAll(old(View()).handlers))
    {
      var k := 0;
      while k < |clientList|
        invariant 0 <= k <= |clientList|
        invariant forall j :: 0 <= j < k ==> clientList[j].State() == old(clientList[j].State()).(active := false)
        invariant forall j :: k <= j < |clientList| ==> clientList[j].State() == old(clientList[j].State())
      {
        clientList[k].Stop();
        k := k + 1;
      }
      assert View().handlers == StopAll(old(View()).handlers);
    }

    /** One pass of the console loop on the input line `line`. */
    method Step(line: string) returns (report: Report)
      requires Valid()
      modifies this, clientList
      ensures Valid() && clientList == old(clientList) && listener == old(listener)
      ensures (View(), report) == Next(old(View()), line)
    {
      var tokens := Split(line, ' ');
      var verb := ToLower(tokens[0]);
      if verb == "quit" {
        QuitAll();
        report := Silent;
      } else if verb == "back" {
        Select(NoSession, BasePrompt);
        report := Silent;
      } else if verb == "list" {
        report := Listing(|clientList|);
      } else if verb == "enter" {
        var parsed := if |tokens| >= 2 then ParseInt16(tokens[1]) else None;
        if parsed.Some? {
          Select(parsed.value, SessionPrompt(parsed.value));
          report := Entering(tokens[1]);
        } else {
          Select(NoSession, BasePrompt);
          report := Error(EnterFailed);
        }
      } else if IsSessionCommand(verb) {
        report := SendToSelected(line);
      } else if verb == "" {
        report := Silent;
      } else {
        report := Error(UnknownCommand(line));
      }
    }

    /** The console loop of `Main`: it reads lines while `KeepGoing` holds and input remains. */
    method ReadLines(lines: seq<string>) returns (reports: seq<Report>)
      requires Valid()
      modifies this, clientList
      ensures Valid() && clientList == old(clientList) && listener == old(listener)
      ensures (View(), reports) == Drive(old(View()), lines)
    {
      reports := [];
      var i := 0;
      while keepGoing && i < |lines|
        invariant 0 <= i <= |lines|
        invariant Valid() && clientList == old(clientList) && listener == old(listener)
        invariant Drive(View(), lines[i..]).0 == Drive(old(View()), lines).0
        invariant reports + Drive(View(), lines[i..]).1 == Drive(old(View()), lines).1
      {
        assert lines[i..][0] == lines[i] && lines[i..][1..] == lines[i + 1..];
        var report := Step(lines[i]);
        reports := reports + [report];
        i := i + 1;
      }
      assert Drive(View(), lines[i..]) == (View(), []);
      assert reports + [] == reports;
    }

    /**
     * `Main` after start-up: the console loop over the lines typed, then, if
     * it ended with `quit`, the shutdown: the listener stops and so does
     * every handler.
     */
    method Run(lines: seq<string>) returns (reports: seq<Report>, ending: Ending)
      requires Valid()
      modifies this, clientList, listener
      ensures Valid() && clientList == old(clientList) && listener == old(listener)
      ensures var (w, rs) := Drive(old(View()), lines);
        reports == rs
        && ending == (if w.keepGoing then InputEnded else ShutDown)
        && View() == (if ending == ShutDown then w.(handlers := StopAll(w.handlers)) else w)
      ensures ending == ShutDown ==> !listener.active
      ensures ending == InputEnded ==> listener.active == old(listener.active)
    {
      reports := ReadLines(lines);
      if keepGoing {
        ending := InputEnded;
        return;
      }
      ending := ShutDown;
      listener.Stop();
      StopClients();
    }
  }
}
