// src/client/client.cc: the client's state and what each of its operations makes of
// it, whatever the server and the launcher do. This is the Linux release build.
module ClientState {
  import opened Options

  // ---- Messages, as far as the client looks into them.

  datatype Kind =
    | CreateSessionKind | DeleteSessionKind | SetRequestKind | NoOperationKind | ShutdownKind
    | SendKeyKind | TestSendKeyKind | SendCommandKind | OtherKind

  datatype Input = Input(id: nat, kind: Kind, payload: nat)

  datatype Output = Output(id: nat, success: bool, consumed: bool, mode: Option<nat>, hasResult: bool)

  const NO_OUTPUT := Output(0, true, false, None, false)

  // ---- The server and the launcher: for each moment, what they would do then.

  datatype Answer = TimedOut | Crashed | Unparsable(partial: Output) | Answered(output: Output)

  datatype Reply =
    | SerializationFailed
    | NoClient
    | NotConnected
    | Connected(protocol: nat, older: bool, pid: nat, answer: Answer)

  datatype World = World(
    hasFactory: bool,
    reply: nat -> Reply,
    starts: nat -> bool,      // StartServer
    terminates: nat -> bool,  // ForceTerminateServer
    waits: nat -> bool        // WaitServer
  )

  // ---- The client.

  datatype Status =
    | ServerUnknown | ServerShutdown | ServerInvalidSession | ServerOk
    | ServerTimeout | ServerVersionMismatch | ServerBrokenMessage | ServerFatal

  // At least SERVER_TIMEOUT, in the order of the enumeration.
  predicate Broken(status: Status) {
    status in {ServerTimeout, ServerVersionMismatch, ServerBrokenMessage, ServerFatal}
  }

  const PROTOCOL := 3 // IPC_PROTOCOL_VERSION
  const MAX_PLAYBACK := 512

  // The version of the server's product counts only as older than the client's or
  // not. The last three fields are not the client's: the moment, the number of
  // times the server was contacted, and the inputs it was sent.
  datatype State = State(
    status: Status,
    id: nat,
    history: seq<Input>,
    lastMode: nat,
    request: Option<nat>,
    protocol: nat,
    older: bool,
    pid: nat,
    reported: seq<Status>,  // OnFatal
    clock: nat,
    contacts: nat,
    sent: seq<Input>
  )

  // A client just made.
  function Fresh(request: Option<nat>): State {
    State(ServerUnknown, 0, [], 0, request, 0, true, 0, [], 0, 0, [])
  }

  datatype Done = Done(state: State, ok: bool)

  datatype Called = Called(state: State, ok: bool, output: Output)

  // ---- Operations.

  function Exchange(s: State, input: Input, answer: Answer, output: Output): Called {
    var after := s.(sent := s.sent + [input]);
    match answer
    case TimedOut => Called(after.(status := ServerTimeout), false, output)
    case Crashed => Called(after.(status := ServerShutdown), false, output)
    case Unparsable(partial) => Called(after.(status := ServerBrokenMessage), false, partial)
    case Answered(o) => Called(after, true, o)
  }

  function Call(w: World, s: State, input: Input, output: Output): Called {
    if Broken(s.status) || !w.hasFactory then Called(s, false, output)
    else
      var reply, s0 := w.reply(s.clock), s.(clock := s.clock + 1);
      var s1 := s0.(protocol := PROTOCOL, older := false, pid := 0, contacts := s.contacts + 1);
      match reply
      case SerializationFailed => Called(s0, false, output)
      case NoClient => Called(s1.(status := ServerFatal), false, output)
      case NotConnected => Called(if s.status.ServerUnknown? then s1 else s1.(status := ServerShutdown), false, output)
      case Connected(protocol, older, pid, answer) =>
        var s2 := s1.(protocol := protocol, older := older, pid := pid);
        if protocol != PROTOCOL then Called(s2, false, output) else Exchange(s2, input, answer, output)
  }

  function CallAndCheckVersion(w: World, s: State, input: Input, output: Output): Called {
    var c := Call(w, s, input, output);
    if !c.ok && c.state.protocol != PROTOCOL then c.(state := c.state.(status := ServerVersionMismatch)) else c
  }

  function CallCommand(w: World, s: State, kind: Kind, payload: nat): Done {
    var c := Call(w, s, Input(s.id, kind, payload), NO_OUTPUT);
    Done(c.state, c.ok)
  }

  function Failed(s: State, reason: Status): Done {
    Done(s.(reported := s.reported + [reason], status := ServerFatal), false)
  }

  function EnsureConnection(w: World, s: State): Done {
    match s.status
    case ServerOk => Done(s, true)
    case ServerInvalidSession => Done(s, true)
    case ServerFatal => Done(s, false)
    case ServerTimeout => Failed(s, ServerTimeout)
    case ServerBrokenMessage => Failed(s, ServerBrokenMessage)
    case ServerVersionMismatch => Failed(s, ServerVersionMismatch)
    case _ =>
      var s1 := s.(clock := s.clock + 1);
      if w.starts(s.clock) then Done(s1.(status := ServerInvalidSession), true) else Failed(s1, ServerFatal)
  }

  function Shutdown(w: World, s: State): Done {
    var s1 := CallCommand(w, s, ShutdownKind, 0).state;
    Done(s1.(clock := s1.clock + 1), w.waits(s1.clock))
  }

  // The server made to stop: by the shutdown command if it understands that, and
  // otherwise, or if that fails, by force.
  function StopServer(w: World, s: State, understands: bool): Done {
    var asked := if understands then Shutdown(w, s) else Done(s, false);
    if asked.ok then asked
    else if !w.terminates(asked.state.clock) then
      Done(asked.state.(clock := asked.state.clock + 1, status := ServerBrokenMessage), false)
    else Done(asked.state.(clock := asked.state.clock + 2), true)
  }

  // The trials left, counted down from two.
  function CheckVersion(w: World, s: State, input: Input, output: Output, trials: nat): Called
    decreases trials
  {
    if trials == 0 then Called(s, false, output)
    else
      var c := Call(w, s, input, output);
      if !c.ok && c.state.protocol > PROTOCOL then
        Called(c.state.(status := ServerVersionMismatch), false, c.output)
      else if (c.ok && c.state.older) || (!c.ok && c.state.protocol < PROTOCOL) then
        if trials == 1 then Called(c.state.(status := ServerBrokenMessage), false, c.output)
        else
          var stopped := StopServer(w, c.state, c.ok);
          if !stopped.ok then Called(stopped.state, false, c.output)
          else
            var started := EnsureConnection(w, stopped.state.(status := ServerUnknown));
            if !started.ok then Called(started.state.(status := ServerVersionMismatch), false, c.output)
            else CheckVersion(w, started.state, input, c.output, trials - 1)
      else c
  }

  const TRIALS := 2

  function CreateSession(w: World, s: State): Done {
    var s0 := s.(id := 0);
    var c := CheckVersion(w, s0, Input(0, CreateSessionKind, 0), NO_OUTPUT, TRIALS);
    if !c.ok then Done(c.state, false)
    else if !c.output.success then Done(c.state.(status := ServerInvalidSession), false)
    else Done(c.state.(id := c.output.id), true)
  }

  // The reply to SET_REQUEST is not looked at.
  function SetRequest(w: World, s: State): State {
    if s.request.None? then s
    else Call(w, s, Input(s.id, SetRequestKind, s.request.value), NO_OUTPUT).state
  }

  function EnsureSession(w: World, s: State): Done {
    var connected := EnsureConnection(w, s);
    if !connected.ok then Done(connected.state, false)
    else if connected.state.status.ServerOk? then connected
    else
      var created := CreateSession(w, connected.state);
      if !created.ok then Done(EnsureConnection(w, created.state).state, false)
      else Done(SetRequest(w, created.state).(status := ServerOk), true)
  }

  // The journal from this index on, sent again until a call fails.
  function Replay(w: World, s: State, from: nat): State
    decreases |s.history| - from
  {
    if from >= |s.history| then s
    else
      var input := s.history[from].(id := s.id);
      var c := Call(w, s.(history := s.history[from := input]), input, NO_OUTPUT);
      CallKeepsHistory(w, s.(history := s.history[from := input]), input, NO_OUTPUT);
      if c.ok then Replay(w, c.state, from + 1) else c.state
  }

  lemma CallKeepsHistory(w: World, s: State, input: Input, output: Output)
    ensures var s' := Call(w, s, input, output).state;
            s'.history == s.history && s'.id == s.id && s'.lastMode == s.lastMode && s'.request == s.request && s'.reported == s.reported
  {
  }

  function PlaybackHistory(w: World, s: State): State {
    if |s.history| >= MAX_PLAYBACK then s.(history := []) else Replay(w, s, 0)
  }

  function PushHistory(s: State, input: Input, output: Output): State {
    if !output.consumed then s
    else
      var history := if |s.history| < MAX_PLAYBACK then s.history + [input] else s.history;
      s.(lastMode := if output.mode.Some? then output.mode.value else s.lastMode,
         history := if input.kind.SendKeyKind? && output.hasResult then [] else history)
  }

  function Pushed(c: Called, input: Input): Called {
    c.(state := PushHistory(c.state, input, c.output), ok := true)
  }

  // The second trial, in a new session.
  function Retry(w: World, s: State, input: Input, output: Output): Called {
    var session := EnsureSession(w, s);
    if !session.ok then Called(session.state, false, output)
    else
      var replayed := PlaybackHistory(w, session.state);
      var again := input.(id := replayed.id);
      var c := CallAndCheckVersion(w, replayed, again, output);
      if !c.ok then c.(state := c.state.(history := [])) else Pushed(c, again)
  }

  function EnsureCallCommand(w: World, s: State, input: Input, output: Output): Called {
    var session := EnsureSession(w, s);
    if !session.ok then Called(session.state, false, output)
    else
      var mine := input.(id := session.state.id);
      var c := CallAndCheckVersion(w, session.state, mine, output.(id := 0));
      var checked := if c.ok && c.output.id != mine.id then c.state.(status := ServerInvalidSession) else c.state;
      if Broken(checked.status) then Called(checked, false, c.output)
      else if checked.status in {ServerShutdown, ServerInvalidSession} then Retry(w, checked, mine, c.output)
      else Pushed(c.(state := checked), mine)
  }

  function DeleteSession(w: World, s: State): Done {
    if s.id == 0 then Done(s, true)
    else
      var c := CallCommand(w, s, DeleteSessionKind, 0);
      if c.ok then Done(c.state.(id := 0), true) else c
  }

  function CheckVersionOrRestartServer(w: World, s: State): Done {
    var c := CheckVersion(w, s, Input(0, NoOperationKind, 0), NO_OUTPUT, TRIALS);
    if c.ok then Done(c.state, true) else EnsureConnection(w, c.state)
  }

  function Reset(s: State): State {
    s.(status := ServerUnknown, protocol := 0, pid := 0)
  }
}
