/**
 * VoiceCommandApp.js as a state machine: the main recognizer's `onresult`,
 * `onerror` and `onend` handlers, the websocket handlers (`onopen`,
 * `onmessage`, `onerror`, `onclose`), `sendToWebSocketAPI` with its polling and
 * retry timers, `actuallySendMessage` and the speaking flag that keeps the app
 * from hearing itself.
 *
 * The refs and the state of the component are one record, `AppState`; every
 * browser callback is a function from the state before it to the state after
 * it, and every pending `setTimeout` is a value that a later event fires. The
 * class at the end holds the same state in fields and updates them in place.
 */
module Session {
  import opened Wrappers
  import opened Text
  import opened Conversation
  import opened Recognition
  import Tts
  import WakeWord

  /** `WebSocket.readyState`. */
  datatype ReadyState = Connecting | Open | Closing | Closed

  /** A pending `setTimeout` of `sendToWebSocketAPI`: the 100 ms poll of line 640 or the 1000 ms retry of line 658. */
  datatype SendTimer = PollConnection(message: string) | RetrySend(message: string)

  /**
   * `JSON.parse(event.data)` and the test of line 526: not JSON, JSON without
   * `choices[0].message`, or a reply with its content.
   */
  datatype Inbound = Unparseable | NoReply | Reply(content: string)

  /** Close code 1006, abnormal closure (section 7.4.1 of RFC 6455). */
  const AbnormalClosure: int := 1006
  const PollDelay: nat := 100
  const RetryDelay: nat := 1000

  const NotConnectedMessage := "WebSocket not connected. Please check API settings."
  const ConnectionFailedMessage := "WebSocket connection failed. Please try again."
  const ParseFailedMessage := "Failed to parse API response"
  const SocketErrorMessage := "WebSocket connection error"
  const SocketClosedMessage :=
    "Failed to connect to WebSocket server. Please check:" + "\n1. The server is running and accessible"
    + "\n2. Your network connection" + "\n3. The WebSocket URL is correct" + "\n4. CORS settings on the server"

  /** `commandHistoryRef` and `assistantResponsesRef`, both newest first. */
  datatype Logs = Logs(commandHistory: seq<Entry>, assistantResponses: seq<Entry>)

  /**
   * One write to the socket: the logs as they were and the command. The
   * `messages` array written is `Payload` of it.
   */
  datatype Outgoing = Outgoing(logs: Logs, command: string)

  /** Lines 673-700: the `messages` array of a write. */
  function Payload(o: Outgoing): seq<Message> {
    ContextWindow(o.logs.commandHistory, o.logs.assistantResponses, o.command)
  }

  /**
   * What the user sees and hears. `speaking` is `isSpeakingRef`; `spoken`
   * lists the replies handed to speech synthesis, each spoken as `Utterance`
   * of it.
   */
  datatype Ui = Ui(speaking: bool, listening: bool, processing: bool, transcript: string, spoken: seq<string>)

  /**
   * The websocket side. `socket` is the `readyState` of `websocketRef.current`
   * (None when there is none); `reconnectTimer` is the delay of the timer in
   * `reconnectTimeoutRef`; `requests` lists the messages handed to
   * `sendToWebSocketAPI` and `sent` the writes to the socket.
   */
  datatype Channel = Channel(
    requests: seq<string>,
    sent: seq<Outgoing>,
    socket: Option<ReadyState>,
    connected: bool,
    attempts: nat,
    reconnectTimer: Option<nat>,
    sendTimers: seq<SendTimer>)

  /** The component's state; `error` is the one error banner every handler writes. */
  datatype AppState = AppState(ui: Ui, logs: Logs, channel: Channel, error: string)

  /** The initial values of lines 9-37, with empty stored logs. */
  function Init(): AppState {
    AppState(Ui(false, false, false, "", []), Logs([], []), Channel([], [], None, false, 0, None, []), "")
  }

  // ---------------------------------------------------------------------------
  // Sending

  /** `connectWebSocket` (lines 490-499): the old socket, if any, is closed and a new one is connecting. */
  function Connect(st: AppState): AppState {
    st.(channel := st.channel.(socket := Some(Connecting)))
  }

  /** `actuallySendMessage` (lines 666-720): the context window goes out and the error is cleared. */
  function ActuallySend(st: AppState, m: string): AppState {
    st.(channel := st.channel.(sent := st.channel.sent + [Outgoing(st.logs, m)]), error := "")
  }

  /** `checkConnection` (lines 634-647). */
  function CheckConnection(st: AppState, m: string): AppState {
    if st.channel.socket == Some(Open) then ActuallySend(st, m)
    else if st.channel.socket == Some(Connecting) then
      st.(channel := st.channel.(sendTimers := st.channel.sendTimers + [PollConnection(m)]))
    else st.(error := ConnectionFailedMessage)
  }

  /** `sendToWebSocketAPI` (lines 623-664): it touches only the channel and the error. */
  function Send(st: AppState, m: string): (r: AppState)
    ensures r.ui == st.ui && r.logs == st.logs
    ensures r.channel.requests == st.channel.requests + [m]
    ensures r.channel.attempts == st.channel.attempts && r.channel.reconnectTimer == st.channel.reconnectTimer
  {
    var st1 := st.(channel := st.channel.(requests := st.channel.requests + [m]));
    if st1.channel.socket == Some(Connecting) then CheckConnection(st1, m)
    else if st1.channel.socket != Some(Open) then
      var st2 := st1.(error := NotConnectedMessage);
      if st2.channel.socket == None || st2.channel.socket == Some(Closed) then
        var st3 := Connect(st2);
        st3.(channel := st3.channel.(sendTimers := st3.channel.sendTimers + [RetrySend(m)]))
      else st2
    else ActuallySend(st1, m)
  }

  /** Send timer k fires: a poll checks the connection again, a retry sends again. */
  function FireSendTimer(st: AppState, k: nat): AppState
    requires k < |st.channel.sendTimers|
  {
    var st1 := st.(channel := st.channel.(sendTimers := WakeWord.RemoveAt(st.channel.sendTimers, k)));
    match st.channel.sendTimers[k]
    case PollConnection(m) => CheckConnection(st1, m)
    case RetrySend(m) => Send(st1, m)
  }

  // ---------------------------------------------------------------------------
  // Socket events

  /** `onopen` (lines 501-505); the attempt counter is not reset here. */
  function OnOpen(st: AppState): AppState {
    var s := st.channel.socket;
    st.(channel := st.channel.(connected := true, socket := if s == Some(Connecting) then Some(Open) else s), error := "")
  }

  /** The socket starts its closing handshake: its `readyState` becomes CLOSING. */
  function OnClosing(st: AppState): AppState {
    if st.channel.socket == Some(Open) then st.(channel := st.channel.(socket := Some(Closing))) else st
  }

  /**
   * `onclose` (lines 585-612) of the current socket (`current`) or of one that
   * `connectWebSocket` already replaced: the pending reconnect is cancelled;
   * 1006 counts one more attempt and schedules a reconnect after the backoff
   * delay of that attempt; any other code resets the count.
   */
  function OnClose(st: AppState, code: int, current: bool): AppState {
    var c := st.channel;
    var c1 := c.(connected := false, socket := if current then Some(Closed) else c.socket, reconnectTimer := None);
    if code == AbnormalClosure then
      st.(channel := c1.(attempts := c.attempts + 1, reconnectTimer := Some(BackoffDelay(c.attempts + 1))))
    else
      st.(channel := c1.(attempts := 0))
  }

  /** The reconnect timer of lines 604-607 fires. */
  function FireReconnectTimer(st: AppState): AppState
    requires st.channel.reconnectTimer.Some?
  {
    Connect(st.(channel := st.channel.(reconnectTimer := None)))
  }

  /** `onerror` of a socket (lines 558-583); `closed` is whether that socket's `readyState` is CLOSED. */
  function OnSocketError(st: AppState, closed: bool): AppState {
    st.(error := if closed then SocketClosedMessage else SocketErrorMessage, channel := st.channel.(connected := false))
  }

  /** Line 452: the text the utterance speaks, `processForTTS` of the reply as written. */
  function Utterance(text: string): string {
    Tts.ProcessForTts(text)
  }

  /** `speakText` (lines 442-487): without text or speech synthesis the flag drops; otherwise the reply is spoken. */
  function Speak(st: AppState, text: string, synthesis: bool): AppState {
    if text == "" || !synthesis then st.(ui := st.ui.(speaking := false))
    else st.(ui := st.ui.(spoken := st.ui.spoken + [text]))
  }

  /** The part of `onmessage` after the flag is set: what the parsed data does. */
  function ReadMessage(st: AppState, inbound: Inbound, now: int, synthesis: bool): AppState {
    match inbound
    case Unparseable => st.(error := ParseFailedMessage, ui := st.ui.(speaking := false))
    case NoReply => st
    case Reply(c) =>
      var e := Entry(now, Assistant, c, now);
      var st1 := st.(logs := st.logs.(assistantResponses := Prepend(e, st.logs.assistantResponses)),
                     ui := st.ui.(transcript := c, listening := false));
      Speak(st1, c, synthesis)
  }

  /**
   * `onmessage` (lines 507-556): the speaking flag is set before anything is
   * parsed; a reply is logged, shown and spoken; a parse error drops the flag;
   * JSON without a reply leaves it set.
   */
  function OnSocketMessage(st: AppState, inbound: Inbound, now: int, synthesis: bool): AppState {
    ReadMessage(st.(ui := st.ui.(speaking := true)), inbound, now, synthesis)
  }

  /** The utterance's `onend` or `onerror` (lines 464-483): the speaking flag drops. */
  function OnSpeechDone(st: AppState): AppState {
    st.(ui := st.ui.(speaking := false))
  }

  // ---------------------------------------------------------------------------
  // Recognizer events

  /** The `newCommand` of line 154 for command `c` heard at `now`. */
  function UserEntry(c: string, now: int): Entry {
    Entry(now, User, c, now)
  }

  /** Line 152: command `t` is shown; its log entry waits for the next render (see `OnResults`). */
  function ShowCommand(st: AppState, t: string): AppState {
    st.(ui := st.ui.(transcript := t))
  }

  /** Lines 172-173: after a final result the app neither listens nor processes. */
  function Settle(st: AppState): AppState {
    st.(ui := st.ui.(listening := false, processing := false))
  }

  /** One result of the loop of `onresult` (lines 148-176); interim results are collected by the caller. */
  function HandleResult(st: AppState, r: RecognitionResult): AppState {
    if !r.isFinal then st
    else if IsCommand(r) then Settle(Send(ShowCommand(st, Trim(r.transcript)), Trim(r.transcript)))
    else Settle(st.(ui := st.ui.(transcript := "")))
  }

  /** The state after the loop of lines 145-183 has handled `results[from..i]`. */
  function Scan(st: AppState, results: seq<RecognitionResult>, from: nat, i: nat): AppState
    requires i <= |results|
    decreases i
  {
    if i <= from then st
    else HandleResult(Scan(st, results, from, i - 1), results[i - 1])
  }

  /** The entries the loop logs for the commands `cs`, oldest first. */
  function UserEntries(cs: seq<string>, now: int): (es: seq<Entry>)
    ensures |es| == |cs|
    ensures forall k :: 0 <= k < |cs| ==> es[k] == UserEntry(cs[k], now)
  {
    seq(|cs|, k requires 0 <= k < |cs| => UserEntry(cs[k], now))
  }

  /**
   * `onresult` (lines 135-195); every entry it makes is stamped `now`. The
   * functions handed to `setCommandHistory` (lines 155-160), which also set
   * `commandHistoryRef`, run when React renders after the handler returns:
   * every send of the loop reads the history as it was before the event, and
   * the new entries are prepended afterwards, in order.
   */
  function OnResults(st: AppState, results: seq<RecognitionResult>, resultIndex: nat, now: int): AppState {
    if st.ui.speaking then st
    else
      var st1 := Scan(st, results, resultIndex, |results|);
      var entries := UserEntries(Commands(results, resultIndex, |results|), now);
      var st2 := st1.(logs := st1.logs.(commandHistory := PrependAll(entries, st1.logs.commandHistory)));
      var interim := Interim(results, resultIndex, |results|);
      if interim != "" then st2.(ui := st2.ui.(transcript := interim)) else st2
  }

  /** `onerror` of the recognizer (lines 197-228). */
  function OnRecognitionError(st: AppState, code: string): AppState {
    st.(error := RecognitionErrorMessage(code), ui := st.ui.(processing := false))
  }

  /** `onend` of the recognizer (lines 230-237). */
  function OnRecognitionEnd(st: AppState): AppState {
    st.(ui := st.ui.(processing := false))
  }

  // ---------------------------------------------------------------------------
  // Events

  datatype AppEvent =
    | Mounted
    | Opened
    | ClosingStarted
    | SocketClosed(code: int, current: bool)
    | SocketFailed(closed: bool)
    | Received(inbound: Inbound, receivedAt: int)
    | SpeechDone
    | Results(results: seq<RecognitionResult>, resultIndex: nat, heardAt: int)
    | RecognizerFailed(errorCode: string)
    | RecognizerEnded
    | SendTimerFired(k: nat)
    | ReconnectTimerFired

  /** One event; `Mounted` is the connect 100 ms after mounting (lines 723-729). */
  function Step(st: AppState, ev: AppEvent, synthesis: bool): AppState {
    match ev
    case Mounted => Connect(st)
    case Opened => OnOpen(st)
    case ClosingStarted => OnClosing(st)
    case SocketClosed(code, current) => OnClose(st, code, current)
    case SocketFailed(closed) => OnSocketError(st, closed)
    case Received(inbound, now) => OnSocketMessage(st, inbound, now, synthesis)
    case SpeechDone => OnSpeechDone(st)
    case Results(rs, from, now) => OnResults(st, rs, from, now)
    case RecognizerFailed(code) => OnRecognitionError(st, code)
    case RecognizerEnded => OnRecognitionEnd(st)
    case SendTimerFired(k) => if k < |st.channel.sendTimers| then FireSendTimer(st, k) else st
    case ReconnectTimerFired => if st.channel.reconnectTimer.Some? then FireReconnectTimer(st) else st
  }

  function Run(st: AppState, evs: seq<AppEvent>, synthesis: bool): AppState
    decreases |evs|
  {
    if evs == [] then st else Run(Step(st, evs[0], synthesis), evs[1..], synthesis)
  }

  // ---------------------------------------------------------------------------
  // The invariant

  /** What the recognizer handler lets through as a command: trimmed, at least 3 characters. */
  predicate IsCommandText(m: string) {
    |m| >= MinCommandLength && Trim(m) == m
  }

  /** A `messages` array as `actuallySendMessage` builds it for command `m`: 1 to 6 messages, `m` last. */
  predicate WellFormedPayload(p: seq<Message>, m: string) {
    1 <= |p| <= WindowSize + 1 && p[|p| - 1] == Message(User, m) && IsCommandText(m)
  }

  predicate UserLog(log: seq<Entry>) {
    |log| <= HistoryCap && forall e :: e in log ==> e.role == User && IsCommandText(e.text)
  }

  predicate AssistantLog(log: seq<Entry>) {
    |log| <= HistoryCap && forall e :: e in log ==> e.role == Assistant
  }

  predicate AllCommands(ms: seq<string>) {
    forall m :: m in ms ==> IsCommandText(m)
  }

  predicate TimersCarryCommands(ts: seq<SendTimer>) {
    forall t :: t in ts ==> IsCommandText(t.message)
  }

  predicate AllWellFormed(os: seq<Outgoing>) {
    forall o :: o in os ==> WellFormedPayload(Payload(o), o.command)
  }

  /** A pending reconnect waits the backoff delay of the attempt it belongs to. */
  predicate BackoffPending(attempts: nat, timer: Option<nat>) {
    timer.Some? ==> attempts >= 1 && timer.value == BackoffDelay(attempts)
  }

  /**
   * What every reachable state satisfies: both logs are capped at 100 entries
   * and hold only their own role; only trimmed commands of at least 3
   * characters are logged, sent, queued or closing a payload; a pending
   * reconnect has the delay of the current attempt.
   */
  predicate Valid(st: AppState) {
    && UserLog(st.logs.commandHistory)
    && AssistantLog(st.logs.assistantResponses)
    && AllCommands(st.channel.requests)
    && TimersCarryCommands(st.channel.sendTimers)
    && AllWellFormed(st.channel.sent)
    && BackoffPending(st.channel.attempts, st.channel.reconnectTimer)
  }

  lemma InitValid()
    ensures Valid(Init())
  {
  }

  /** The context window of a command is a well-formed payload that ends with that command. */
  lemma PayloadWellFormed(o: Outgoing)
    requires IsCommandText(o.command)
    ensures WellFormedPayload(Payload(o), o.command)
  {
  }

  lemma ActuallySendValid(st: AppState, m: string)
    requires Valid(st) && IsCommandText(m)
    ensures Valid(ActuallySend(st, m))
  {
    PayloadWellFormed(Outgoing(st.logs, m));
  }

  lemma CheckConnectionValid(st: AppState, m: string)
    requires Valid(st) && IsCommandText(m)
    ensures Valid(CheckConnection(st, m))
  {
    if st.channel.socket == Some(Open) {
      ActuallySendValid(st, m);
    }
  }

  /** Sending a command keeps the invariant: every payload ends with the command. */
  lemma SendValid(st: AppState, m: string)
    requires Valid(st) && IsCommandText(m)
    ensures Valid(Send(st, m))
  {
    var st1 := st.(channel := st.channel.(requests := st.channel.requests + [m]));
    assert AllCommands(st1.channel.requests);
    if st1.channel.socket == Some(Connecting) {
      CheckConnectionValid(st1, m);
    } else if st1.channel.socket == Some(Open) {
      ActuallySendValid(st1, m);
    } else {
      assert TimersCarryCommands(st.channel.sendTimers + [RetrySend(m)]);
    }
  }

  lemma FireSendTimerValid(st: AppState, k: nat)
    requires Valid(st) && k < |st.channel.sendTimers|
    ensures Valid(FireSendTimer(st, k))
  {
    var t := st.channel.sendTimers[k];
    assert t in st.channel.sendTimers;
    var rest := WakeWord.RemoveAt(st.channel.sendTimers, k);
    assert forall x :: x in rest ==> x in multiset(st.channel.sendTimers);
    var st1 := st.(channel := st.channel.(sendTimers := rest));
    assert Valid(st1);
    match t
    case PollConnection(m) => CheckConnectionValid(st1, m);
    case RetrySend(m) => SendValid(st1, m);
  }

  /** A handled result keeps the invariant: only trimmed commands of 3 or more characters are sent. */
  lemma HandleResultValid(st: AppState, r: RecognitionResult)
    requires Valid(st)
    ensures Valid(HandleResult(st, r))
  {
    if IsCommand(r) {
      var t := Trim(r.transcript);
      TrimTwice(r.transcript);
      SendValid(ShowCommand(st, t), t);
    }
  }

  lemma {:induction false} ScanValid(st: AppState, results: seq<RecognitionResult>, from: nat, i: nat)
    requires Valid(st) && i <= |results|
    ensures Valid(Scan(st, results, from, i))
    decreases i
  {
    if i > from {
      ScanValid(st, results, from, i - 1);
      HandleResultValid(Scan(st, results, from, i - 1), results[i - 1]);
    }
  }

  /** Prepending entries of trimmed commands keeps a command log a command log. */
  lemma {:induction false} PrependAllUserLog(es: seq<Entry>, log: seq<Entry>)
    requires UserLog(log)
    requires forall e :: e in es ==> e.role == User && IsCommandText(e.text)
    ensures UserLog(PrependAll(es, log))
    decreases |es|
  {
    if es != [] {
      PrependAddsOnly(es[0], log);
      assert es[0] in es;
      PrependAllUserLog(es[1..], Prepend(es[0], log));
    }
  }

  /** The entries of trimmed commands are user entries of trimmed commands. */
  lemma UserEntriesOfCommands(cs: seq<string>, now: int)
    requires AllCommands(cs)
    ensures forall e :: e in UserEntries(cs, now) ==> e.role == User && IsCommandText(e.text)
  {
    var es := UserEntries(cs, now);
    forall e | e in es ensures e.role == User && IsCommandText(e.text) {
      var k :| 0 <= k < |es| && es[k] == e;
      assert cs[k] in cs;
    }
  }

  lemma OnResultsValid(st: AppState, results: seq<RecognitionResult>, resultIndex: nat, now: int)
    requires Valid(st)
    ensures Valid(OnResults(st, results, resultIndex, now))
  {
    if !st.ui.speaking {
      var cs := Commands(results, resultIndex, |results|);
      var st1 := Scan(st, results, resultIndex, |results|);
      ScanValid(st, results, resultIndex, |results|);
      ScanSends(st, results, resultIndex, |results|);
      CommandsTrimmed(results, resultIndex, |results|);
      UserEntriesOfCommands(cs, now);
      var es := UserEntries(cs, now);
      PrependAllUserLog(es, st1.logs.commandHistory);
      var st2 := st1.(logs := st1.logs.(commandHistory := PrependAll(es, st1.logs.commandHistory)));
      assert Valid(st2);
      var interim := Interim(results, resultIndex, |results|);
      assert OnResults(st, results, resultIndex, now)
          == if interim != "" then st2.(ui := st2.ui.(transcript := interim)) else st2;
    }
  }

  lemma OnSocketMessageValid(st: AppState, inbound: Inbound, now: int, synthesis: bool)
    requires Valid(st)
    ensures Valid(OnSocketMessage(st, inbound, now, synthesis))
  {
    if inbound.Reply? {
      PrependAddsOnly(Entry(now, Assistant, inbound.content, now), st.logs.assistantResponses);
    }
  }

  /** Every event keeps the invariant. */
  lemma StepValid(st: AppState, ev: AppEvent, synthesis: bool)
    requires Valid(st)
    ensures Valid(Step(st, ev, synthesis))
  {
    match ev
    case Results(rs, from, now) =>
      OnResultsValid(st, rs, from, now);
    case Received(inbound, now) => OnSocketMessageValid(st, inbound, now, synthesis);
    case SendTimerFired(k) =>
      if k < |st.channel.sendTimers| {
        FireSendTimerValid(st, k);
      }
    case _ =>
  }

  /** The invariant holds after any sequence of events. */
  lemma {:induction false} RunValid(st: AppState, evs: seq<AppEvent>, synthesis: bool)
    requires Valid(st)
    ensures Valid(Run(st, evs, synthesis))
    decreases |evs|
  {
    if evs != [] {
      StepValid(st, evs[0], synthesis);
      RunValid(Step(st, evs[0], synthesis), evs[1..], synthesis);
    }
  }

  // ---------------------------------------------------------------------------
  // The speaking guard

  /** While the speaking flag is set, `onresult` changes nothing: no entry, no transcript, no send. */
  lemma SpeakingIgnoresResults(st: AppState, results: seq<RecognitionResult>, resultIndex: nat, now: int)
    requires st.ui.speaking
    ensures OnResults(st, results, resultIndex, now) == st
  {
  }

  /**
   * After `onmessage` the flag is set exactly when the message held no reply
   * or held a reply that is being spoken: a parse error, an empty reply or a
   * browser without speech synthesis drops it again.
   */
  lemma MessageSetsSpeaking(st: AppState, inbound: Inbound, now: int, synthesis: bool)
    ensures OnSocketMessage(st, inbound, now, synthesis).ui.speaking
            <==> inbound.NoReply? || (inbound.Reply? && inbound.content != "" && synthesis)
  {
  }

  /** Events that neither deliver a message nor end speech. */
  predicate Quiet(ev: AppEvent) {
    !ev.Received? && !ev.SpeechDone?
  }

  /**
   * Once the flag is set, nothing the user says is logged or shown until
   * another message arrives or speech ends; after JSON without a reply no
   * speech starts, so only a later message can end this.
   */
  lemma {:induction false} DeafWhileSpeaking(st: AppState, evs: seq<AppEvent>, synthesis: bool)
    requires st.ui.speaking
    requires forall k :: 0 <= k < |evs| ==> Quiet(evs[k])
    ensures Run(st, evs, synthesis).ui.speaking
    ensures Run(st, evs, synthesis).ui.transcript == st.ui.transcript
    ensures Run(st, evs, synthesis).logs.commandHistory == st.logs.commandHistory
    decreases |evs|
  {
    if evs != [] {
      var next := Step(st, evs[0], synthesis);
      assert Quiet(evs[0]);
      assert next.ui.speaking && next.ui.transcript == st.ui.transcript;
      assert next.logs == st.logs;
      DeafWhileSpeaking(next, evs[1..], synthesis);
    }
  }

  /**
   * A spoken reply is logged first and spoken as single-spaced text with no
   * whitespace at either end; once speech ends, results are heard again.
   */
  lemma ReplySpokenThenHeard(st: AppState, c: string, now: int)
    requires c != ""
    ensures var s := OnSpeechDone(OnSocketMessage(st, Reply(c), now, true));
      && !s.ui.speaking
      && s.logs.assistantResponses[0] == Entry(now, Assistant, c, now)
      && s.ui.spoken == st.ui.spoken + [c]
      && Tts.Speakable(Utterance(s.ui.spoken[|s.ui.spoken| - 1]))
  {
  }

  // ---------------------------------------------------------------------------
  // Results

  /**
   * The loop sends exactly the commands among the results, in order, and
   * leaves both logs as they were: the entries for those commands are added
   * only once it has finished.
   */
  lemma {:induction false} ScanSends(st: AppState, results: seq<RecognitionResult>, from: nat, i: nat)
    requires i <= |results|
    ensures Scan(st, results, from, i).channel.requests == st.channel.requests + Commands(results, from, i)
    ensures Scan(st, results, from, i).logs == st.logs
    decreases i
  {
    if i > from {
      ScanSends(st, results, from, i - 1);
    }
  }

  /**
   * `onresult` sends every command among the new results once, in order, and
   * the history holds them newest first ahead of the old entries, cut at 100.
   */
  lemma OnResultsLogs(st: AppState, results: seq<RecognitionResult>, resultIndex: nat, now: int)
    requires !st.ui.speaking && |st.logs.commandHistory| <= HistoryCap
    ensures var s := OnResults(st, results, resultIndex, now);
      var cs := Commands(results, resultIndex, |results|);
      var old_ := st.logs.commandHistory;
      && s.channel.requests == st.channel.requests + cs
      && s.logs.commandHistory == (Reversed(UserEntries(cs, now)) + old_)[..Min(HistoryCap, |cs| + |old_|)]
  {
    var cs := Commands(results, resultIndex, |results|);
    ScanSends(st, results, resultIndex, |results|);
    PrependAllNewestFirst(UserEntries(cs, now), st.logs.commandHistory);
  }

  /**
   * The conversation sent with a command heard while the socket is open is
   * built from the logs as they were before the event: the command itself
   * is not yet in the history it is sent with.
   */
  lemma CommandSentWithEarlierLogs(st: AppState, r: RecognitionResult, now: int)
    requires !st.ui.speaking && IsCommand(r) && st.channel.socket == Some(Open)
    ensures OnResults(st, [r], 0, now).channel.sent == st.channel.sent + [Outgoing(st.logs, Trim(r.transcript))]
  {
  }

  /** Interim results alone leave the state as it was; only the transcript then changes. */
  lemma {:induction false} ScanInterimOnly(st: AppState, results: seq<RecognitionResult>, from: nat, i: nat)
    requires i <= |results|
    requires forall k :: from <= k < i ==> !results[k].isFinal
    ensures Scan(st, results, from, i) == st
    decreases i
  {
    if i > from {
      ScanInterimOnly(st, results, from, i - 1);
    }
  }

  /** Any final result, command or not, stops listening and processing. */
  lemma {:induction false} ScanFinalStops(st: AppState, results: seq<RecognitionResult>, from: nat, i: nat, k: nat)
    requires i <= |results| && from <= k < i && results[k].isFinal
    ensures !Scan(st, results, from, i).ui.listening && !Scan(st, results, from, i).ui.processing
    decreases i
  {
    if k < i - 1 {
      ScanFinalStops(st, results, from, i - 1, k);
    }
  }

  /**
   * One final result is logged and sent, once, exactly when its trimmed
   * transcript has at least 3 characters; a shorter one only clears the
   * transcript and the two flags.
   */
  lemma FinalResultOutcome(st: AppState, r: RecognitionResult, now: int)
    requires !st.ui.speaking && r.isFinal
    ensures var s := OnResults(st, [r], 0, now);
      && (IsCommand(r) ==>
            && s.channel.requests == st.channel.requests + [Trim(r.transcript)]
            && s.logs.commandHistory == Prepend(UserEntry(Trim(r.transcript), now), st.logs.commandHistory)
            && s.ui.transcript == Trim(r.transcript))
      && (!IsCommand(r) ==> s == st.(ui := st.ui.(transcript := "", listening := false, processing := false)))
      && !s.ui.listening && !s.ui.processing
  {
    assert Interim([r], 0, 1) == "";
    if IsCommand(r) {
      var e := UserEntry(Trim(r.transcript), now);
      assert Commands([r], 0, 1) == [Trim(r.transcript)];
      assert UserEntries([Trim(r.transcript)], now) == [e];
      assert PrependAll([e], st.logs.commandHistory) == Prepend(e, st.logs.commandHistory);
    } else {
      assert Commands([r], 0, 1) == [];
      assert UserEntries([], now) == [];
    }
  }

  // ---------------------------------------------------------------------------
  // Reconnecting

  /** `n` abnormal closures of the current socket in a row. */
  function AbnormalCloses(st: AppState, n: nat): AppState {
    if n == 0 then st else OnClose(AbnormalCloses(st, n - 1), AbnormalClosure, true)
  }

  /** Each abnormal closure counts one attempt and leaves one reconnect pending, with that attempt's delay. */
  lemma {:induction false} AbnormalClosesBackOff(st: AppState, n: nat)
    requires n >= 1
    ensures AbnormalCloses(st, n).channel.attempts == st.channel.attempts + n
    ensures AbnormalCloses(st, n).channel.reconnectTimer == Some(BackoffDelay(st.channel.attempts + n))
  {
    if n > 1 {
      AbnormalClosesBackOff(st, n - 1);
    }
  }

  /** From a fresh start, the reconnects wait 2, 4, 8, 16, 30 and 30 seconds. */
  lemma BackoffSchedule()
    ensures AbnormalCloses(Init(), 1).channel.reconnectTimer == Some(2000)
    ensures AbnormalCloses(Init(), 2).channel.reconnectTimer == Some(4000)
    ensures AbnormalCloses(Init(), 3).channel.reconnectTimer == Some(8000)
    ensures AbnormalCloses(Init(), 4).channel.reconnectTimer == Some(16000)
    ensures AbnormalCloses(Init(), 5).channel.reconnectTimer == Some(30000)
    ensures AbnormalCloses(Init(), 6).channel.reconnectTimer == Some(30000)
  {
    BackoffTable();
    AbnormalClosesBackOff(Init(), 1);
    AbnormalClosesBackOff(Init(), 2);
    AbnormalClosesBackOff(Init(), 3);
    AbnormalClosesBackOff(Init(), 4);
    AbnormalClosesBackOff(Init(), 5);
    AbnormalClosesBackOff(Init(), 6);
  }

  /** Any other close code cancels a pending reconnect and resets the count. */
  lemma OtherCloseResets(st: AppState, code: int, current: bool)
    requires code != AbnormalClosure
    ensures OnClose(st, code, current).channel.attempts == 0
    ensures OnClose(st, code, current).channel.reconnectTimer == None
  {
  }

  /**
   * Opening does not reset the count: a socket that reconnects and then closes
   * abnormally again waits at least as long as before.
   */
  lemma ReconnectedCloseWaitsLonger(st: AppState)
    ensures var first := OnClose(st, AbnormalClosure, true);
      var second := OnClose(OnOpen(FireReconnectTimer(first)), AbnormalClosure, true);
      && second.channel.attempts == st.channel.attempts + 2
      && second.channel.reconnectTimer.value >= first.channel.reconnectTimer.value
  {
    BackoffMonotone(st.channel.attempts + 1, st.channel.attempts + 2);
  }

  // ---------------------------------------------------------------------------
  // Dispatch

  /** OPEN: the context window of the current logs goes out at once. */
  lemma SendWhenOpen(st: AppState, m: string)
    requires st.channel.socket == Some(Open)
    ensures Send(st, m).channel.sent == st.channel.sent + [Outgoing(st.logs, m)]
    ensures Send(st, m).channel.sendTimers == st.channel.sendTimers && Send(st, m).error == ""
  {
  }

  lemma RemoveLast(ts: seq<SendTimer>, t: SendTimer)
    ensures WakeWord.RemoveAt(ts + [t], |ts|) == ts
  {
    assert (ts + [t])[..|ts|] == ts;
  }

  /**
   * CONNECTING: nothing goes out and a poll is queued; while the socket is
   * still connecting the poll queues itself again, and once it is open the
   * poll sends the message.
   */
  lemma PollUntilOpen(st: AppState, m: string)
    requires st.channel.socket == Some(Connecting)
    ensures Send(st, m).channel.sent == st.channel.sent
    ensures Send(st, m).channel.sendTimers == st.channel.sendTimers + [PollConnection(m)]
    ensures FireSendTimer(Send(st, m), |st.channel.sendTimers|).channel.sendTimers
            == st.channel.sendTimers + [PollConnection(m)]
    ensures FireSendTimer(OnOpen(Send(st, m)), |st.channel.sendTimers|).channel.sent
            == st.channel.sent + [Outgoing(st.logs, m)]
  {
    RemoveLast(st.channel.sendTimers, PollConnection(m));
  }

  /**
   * No socket or CLOSED: an error, a new connection and one retry a second
   * later, which sends the message once the new socket is open.
   */
  lemma RetryAfterReconnect(st: AppState, m: string)
    requires st.channel.socket == None || st.channel.socket == Some(Closed)
    ensures Send(st, m).error == NotConnectedMessage && Send(st, m).channel.socket == Some(Connecting)
    ensures Send(st, m).channel.sent == st.channel.sent
    ensures Send(st, m).channel.sendTimers == st.channel.sendTimers + [RetrySend(m)]
    ensures FireSendTimer(OnOpen(Send(st, m)), |st.channel.sendTimers|).channel.sent
            == st.channel.sent + [Outgoing(st.logs, m)]
  {
    RemoveLast(st.channel.sendTimers, RetrySend(m));
  }

  /** CLOSING: only the error; no reconnect, no retry, nothing sent. */
  lemma ClosingDropsMessage(st: AppState, m: string)
    requires st.channel.socket == Some(Closing)
    ensures Send(st, m) == st.(channel := st.channel.(requests := st.channel.requests + [m]), error := NotConnectedMessage)
  {
  }

  /** A poll that finds the socket closed reports the failure and gives the message up. */
  lemma PollAfterCloseFails(st: AppState, m: string, code: int)
    requires st.channel.socket == Some(Connecting)
    ensures var s := FireSendTimer(OnClose(Send(st, m), code, true), |st.channel.sendTimers|);
      && s.channel.sent == st.channel.sent
      && s.channel.sendTimers == st.channel.sendTimers
      && s.error == ConnectionFailedMessage
  {
    RemoveLast(st.channel.sendTimers, PollConnection(m));
  }

  // ---------------------------------------------------------------------------
  // The component as an object

  class VoiceCommandApp {
    /** Whether `speechSynthesis` exists. */
    const synthesis: bool
    /** The wake-word hook the component uses. */
    const wake: WakeWord.WakeWordDetection

    var speaking: bool
    var listening: bool
    var processing: bool
    var transcript: string
    var spoken: seq<string>
    var commandHistory: seq<Entry>
    var assistantResponses: seq<Entry>
    var requests: seq<string>
    var sent: seq<Outgoing>
    var socket: Option<ReadyState>
    var connected: bool
    var attempts: nat
    var reconnectTimer: Option<nat>
    var sendTimers: seq<SendTimer>
    var error: string

    function State(): AppState
      reads this
    {
      AppState(
        Ui(speaking, listening, processing, transcript, spoken),
        Logs(commandHistory, assistantResponses),
        Channel(requests, sent, socket, connected, attempts, reconnectTimer, sendTimers),
        error)
    }

    constructor (synthesis: bool, wake: WakeWord.WakeWordDetection)
      ensures this.synthesis == synthesis && this.wake == wake
      ensures State() == Init()
    {
      this.synthesis := synthesis;
      this.wake := wake;
      speaking := false;
      listening := false;
      processing := false;
      transcript := "";
      spoken := [];
      commandHistory := [];
      assistantResponses := [];
      requests := [];
      sent := [];
      socket := None;
      connected := false;
      attempts := 0;
      reconnectTimer := None;
      sendTimers := [];
      error := "";
    }

    method ConnectWebSocket()
      modifies this
      ensures State() == Connect(old(State()))
    {
      socket := Some(Connecting);
    }

    method ActuallySendMessage(m: string)
      modifies this
      ensures State() == ActuallySend(old(State()), m)
    {
      sent := sent + [Outgoing(Logs(commandHistory, assistantResponses), m)];
      error := "";
    }

    method CheckSocketConnection(m: string)
      modifies this
      ensures State() == CheckConnection(old(State()), m)
    {
      if socket == Some(Open) {
        ActuallySendMessage(m);
      } else if socket == Some(Connecting) {
        sendTimers := sendTimers + [PollConnection(m)];
      } else {
        error := ConnectionFailedMessage;
      }
    }

    method SendToWebSocketApi(m: string)
      modifies this
      ensures State() == Send(old(State()), m)
    {
      requests := requests + [m];
      if socket == Some(Connecting) {
        CheckSocketConnection(m);
        return;
      }
      if socket != Some(Open) {
        error := NotConnectedMessage;
        if socket == None || socket == Some(Closed) {
          ConnectWebSocket();
          sendTimers := sendTimers + [RetrySend(m)];
        }
        return;
      }
      ActuallySendMessage(m);
    }

    method SendTimerElapsed(k: nat)
      requires k < |sendTimers|
      modifies this
      ensures State() == FireSendTimer(old(State()), k)
    {
      var t := sendTimers[k];
      sendTimers := WakeWord.RemoveAt(sendTimers, k);
      match t
      case PollConnection(m) => CheckSocketConnection(m);
      case RetrySend(m) => SendToWebSocketApi(m);
    }

    method HandleOpen()
      modifies this
      ensures State() == OnOpen(old(State()))
    {
      connected := true;
      if socket == Some(Connecting) {
        socket := Some(Open);
      }
      error := "";
    }

    method HandleClosing()
      modifies this
      ensures State() == OnClosing(old(State()))
    {
      if socket == Some(Open) {
        socket := Some(Closing);
      }
    }

    method HandleClose(code: int, current: bool)
      modifies this
      ensures State() == OnClose(old(State()), code, current)
    {
      if current {
        socket := Some(Closed);
      }
      connected := false;
      reconnectTimer := None;
      if code == AbnormalClosure {
        attempts := attempts + 1;
        var delay := BackoffDelay(attempts);
        reconnectTimer := Some(delay);
      } else {
        attempts := 0;
      }
    }

    method ReconnectTimerElapsed()
      requires reconnectTimer.Some?
      modifies this
      ensures State() == FireReconnectTimer(old(State()))
    {
      reconnectTimer := None;
      ConnectWebSocket();
    }

    method HandleSocketError(closed: bool)
      modifies this
      ensures State() == OnSocketError(old(State()), closed)
    {
      var message := SocketErrorMessage;
      if closed {
        message := SocketClosedMessage;
      }
      error := message;
      connected := false;
    }

    method SpeakText(text: string)
      modifies this
      ensures State() == Speak(old(State()), text, synthesis)
    {
      if text == "" || !synthesis {
        speaking := false;
        return;
      }
      spoken := spoken + [text];
    }

    /** `onmessage`, which also stops the wake-word hook. */
    method HandleMessage(inbound: Inbound, now: int)
      modifies this, wake
      ensures State() == OnSocketMessage(old(State()), inbound, now, synthesis)
      ensures wake.State() == WakeWord.Stop(old(wake.State()))
    {
      speaking := true;
      wake.StopDetection();
      ProcessMessage(inbound, now);
    }

    method ProcessMessage(inbound: Inbound, now: int)
      modifies this
      ensures State() == ReadMessage(old(State()), inbound, now, synthesis)
    {
      match inbound
      case Unparseable =>
        error := ParseFailedMessage;
        speaking := false;
      case NoReply =>
      case Reply(c) =>
        assistantResponses := Prepend(Entry(now, Assistant, c, now), assistantResponses);
        transcript := c;
        listening := false;
        SpeakText(c);
    }

    method HandleSpeechDone()
      modifies this
      ensures State() == OnSpeechDone(old(State()))
    {
      speaking := false;
    }

    /**
     * The body of the loop of `onresult` for a final result (lines 148-176).
     * The entry for a command is returned, to be prepended once the whole
     * handler has run (the deferred updater of lines 155-160).
     */
    method HandleFinal(r: RecognitionResult, now: int) returns (queued: seq<Entry>)
      requires r.isFinal
      modifies this
      ensures State() == HandleResult(old(State()), r)
      ensures queued == if IsCommand(r) then [UserEntry(Trim(r.transcript), now)] else []
    {
      var trimmed := Trim(r.transcript);
      queued := [];
      if |trimmed| >= MinCommandLength {
        transcript := trimmed;
        queued := [UserEntry(trimmed, now)];
        SendToWebSocketApi(trimmed);
      } else {
        transcript := "";
      }
      listening := false;
      processing := false;
    }

    /** The queued history updaters run in order when React renders. */
    method ApplyHistoryUpdates(pending: seq<Entry>)
      modifies this
      ensures State() == old(State()).(logs := old(State()).logs.(commandHistory := PrependAll(pending, old(commandHistory))))
    {
      var j := 0;
      while j < |pending|
        invariant j <= |pending|
        invariant State() == old(State()).(logs := old(State()).logs.(commandHistory := PrependAll(pending[..j], old(commandHistory))))
      {
        PrependAllSnoc(pending[..j], pending[j], old(commandHistory));
        assert pending[..j + 1] == pending[..j] + [pending[j]];
        commandHistory := Prepend(pending[j], commandHistory);
        j := j + 1;
      }
      assert pending[..j] == pending;
    }

    method HandleResults(results: seq<RecognitionResult>, resultIndex: nat, now: int)
      modifies this
      ensures State() == OnResults(old(State()), results, resultIndex, now)
    {
      if speaking {
        return;
      }
      var interim := "";
      var pending: seq<Entry> := [];
      var i := resultIndex;
      while i < |results|
        invariant resultIndex <= i
        invariant i <= |results| || i == resultIndex
        invariant State() == Scan(old(State()), results, resultIndex, if i <= |results| then i else |results|)
        invariant interim == Interim(results, resultIndex, if i <= |results| then i else |results|)
        invariant pending == UserEntries(Commands(results, resultIndex, if i <= |results| then i else |results|), now)
      {
        var r := results[i];
        ghost var cs := Commands(results, resultIndex, i);
        if r.isFinal {
          var queued := HandleFinal(r, now);
          if IsCommand(r) {
            assert UserEntries(cs + [Trim(r.transcript)], now) == UserEntries(cs, now) + queued;
          }
          pending := pending + queued;
        } else {
          interim := interim + r.transcript;
        }
        i := i + 1;
      }
      ApplyHistoryUpdates(pending);
      if interim != "" {
        transcript := interim;
      }
    }

    method HandleRecognitionError(code: string)
      modifies this
      ensures State() == OnRecognitionError(old(State()), code)
    {
      error := RecognitionErrorMessage(code);
      processing := false;
    }

    method HandleRecognitionEnd()
      modifies this
      ensures State() == OnRecognitionEnd(old(State()))
    {
      processing := false;
    }
  }
}
