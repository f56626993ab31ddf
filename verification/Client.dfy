// The Client class of src/client/client.cc. Its methods do to its fields what the
// functions of ClientState say; what is proved there of every run holds of it.
module Client {
  import opened Options
  import opened ClientState
  import S = ClientState
  import ClientProperties
  import ClientSession

  class Client {
    const world: World

    var status: Status
    var id: nat
    var history: seq<Input>
    var lastMode: nat
    var request: Option<nat>
    var protocol: nat
    var older: bool
    var pid: nat
    var reported: seq<Status>
    var clock: nat
    var contacts: nat
    var sent: seq<Input>

    function View(): State
      reads this
    {
      State(status, id, history, lastMode, request, protocol, older, pid, reported, clock, contacts, sent)
    }

    constructor (world: World, defaultRequest: nat)
      ensures this.world == world
      ensures View() == Fresh(Some(defaultRequest))
    {
      this.world := world;
      status, id, history, lastMode, request := ServerUnknown, 0, [], 0, Some(defaultRequest);
      protocol, older, pid := 0, true, 0;
      reported, clock, contacts, sent := [], 0, 0, [];
    }

    // The launcher's StartServer, ForceTerminateServer, WaitServer and OnFatal.

    method StartServer() returns (ok: bool)
      modifies this
      ensures ok == world.starts(old(clock)) && View() == old(View()).(clock := old(clock) + 1)
    {
      ok, clock := world.starts(clock), clock + 1;
    }

    method ForceTerminateServer() returns (ok: bool)
      modifies this
      ensures ok == world.terminates(old(clock)) && View() == old(View()).(clock := old(clock) + 1)
    {
      ok, clock := world.terminates(clock), clock + 1;
    }

    method WaitServer() returns (ok: bool)
      modifies this
      ensures ok == world.waits(old(clock)) && View() == old(View()).(clock := old(clock) + 1)
    {
      ok, clock := world.waits(clock), clock + 1;
    }

    method OnFatal(reason: Status)
      modifies this
      ensures View() == old(View()).(reported := old(reported) + [reason])
    {
      reported := reported + [reason];
    }

    // The exchange with a server that is connected, and its protocol the client's.
    method Exchange(input: Input, answer: Answer, output: Output) returns (ok: bool, after: Output)
      modifies this
      ensures Called(View(), ok, after) == S.Exchange(old(View()), input, answer, output)
    {
      ok, after := false, output;
      sent := sent + [input];
      match answer {
        case TimedOut => status := ServerTimeout;
        case Crashed => status := ServerShutdown;
        case Unparsable(partial) =>
          status := ServerBrokenMessage;
          after := partial;
        case Answered(o) =>
          ok, after := true, o;
      }
    }

    method Call(input: Input, output: Output) returns (ok: bool, after: Output)
      modifies this
      ensures Called(View(), ok, after) == S.Call(world, old(View()), input, output)
    {
      hide S.Exchange;
      ok, after := false, output;
      if Broken(status) {
        return;
      }
      if !world.hasFactory {
        return;
      }
      var reply := world.reply(clock);
      clock := clock + 1;
      if reply.SerializationFailed? {
        return;
      }
      protocol, older, pid := PROTOCOL, false, 0;
      contacts := contacts + 1;
      if reply.NoClient? {
        status := ServerFatal;
        return;
      }
      if reply.NotConnected? {
        if !status.ServerUnknown? {
          status := ServerShutdown;
        }
        return;
      }
      protocol, older, pid := reply.protocol, reply.older, reply.pid;
      if protocol != PROTOCOL {
        return;
      }
      ok, after := Exchange(input, reply.answer, after);
    }

    method CallAndCheckVersion(input: Input, output: Output) returns (ok: bool, after: Output)
      modifies this
      ensures Called(View(), ok, after) == S.CallAndCheckVersion(world, old(View()), input, output)
    {
      ok, after := Call(input, output);
      if !ok && protocol != PROTOCOL {
        status := ServerVersionMismatch;
      }
    }

    method CallCommand(kind: Kind, payload: nat) returns (ok: bool)
      modifies this
      ensures Done(View(), ok) == S.CallCommand(world, old(View()), kind, payload)
    {
      var input, output := Input(id, kind, payload), NO_OUTPUT;
      ok, output := Call(input, output);
    }

    method EnsureConnection() returns (ok: bool)
      modifies this
      ensures Done(View(), ok) == S.EnsureConnection(world, old(View()))
      ensures ok <==> status in {ServerOk, ServerInvalidSession}
      ensures !ok <==> status.ServerFatal?
    {
      match status {
        case ServerOk => return true;
        case ServerInvalidSession => return true;
        case ServerFatal => return false;
        case ServerTimeout =>
          OnFatal(ServerTimeout);
          status := ServerFatal;
          return false;
        case ServerBrokenMessage =>
          OnFatal(ServerBrokenMessage);
          status := ServerFatal;
          return false;
        case ServerVersionMismatch =>
          OnFatal(ServerVersionMismatch);
          status := ServerFatal;
          return false;
        case _ =>
          var started := StartServer();
          if started {
            status := ServerInvalidSession;
            return true;
          } else {
            OnFatal(ServerFatal);
            status := ServerFatal;
            return false;
          }
      }
    }

    method Shutdown() returns (ok: bool)
      modifies this
      ensures Done(View(), ok) == S.Shutdown(world, old(View()))
      ensures id == old(id) && history == old(history)
    {
      ClientProperties.ShutdownBy(world, View());
      var _ := CallCommand(ShutdownKind, 0);
      ok := WaitServer();
    }

    // The part of the version check that makes the server stop.
    method StopServer(understands: bool) returns (ok: bool)
      modifies this
      ensures Done(View(), ok) == S.StopServer(world, old(View()), understands)
    {
      hide S.Shutdown;
      var shutdownResult := true;
      if understands {
        shutdownResult := Shutdown();
      }
      if !shutdownResult || !understands {
        var terminated := ForceTerminateServer();
        if !terminated {
          status := ServerBrokenMessage;
          return false;
        }
        var _ := WaitServer();
      }
      ok := true;
    }

    method CheckVersionOrRestartServerInternal(input: Input, output: Output) returns (ok: bool, after: Output)
      modifies this
      ensures Called(View(), ok, after) == S.CheckVersion(world, old(View()), input, output, TRIALS)
    {
      hide S.Call;
      hide S.StopServer;
      hide S.EnsureConnection;
      ok, after := false, output;
      var trial := 0;
      while trial < TRIALS
        invariant 0 <= trial <= TRIALS
        invariant S.CheckVersion(world, View(), input, after, TRIALS - trial) ==
                  S.CheckVersion(world, old(View()), input, output, TRIALS)
      {
        var callResult;
        callResult, after := Call(input, after);
        if !callResult && protocol > PROTOCOL {
          status := ServerVersionMismatch;
          return false, after;
        }
        var upgraded := older;
        if (callResult && upgraded) || (!callResult && protocol < PROTOCOL) {
          if trial > 0 {
            status := ServerBrokenMessage;
            return false, after;
          }
          var stopped := StopServer(callResult);
          if !stopped {
            return false, after;
          }
          status := ServerUnknown;
          var connected := EnsureConnection();
          if !connected {
            status := ServerVersionMismatch;
            return false, after;
          }
          trial := trial + 1;
          continue;
        }
        if !callResult {
          return false, after;
        }
        return true, after;
      }
      ok := false;
    }

    method CheckVersionOrRestartServer() returns (ok: bool)
      modifies this
      ensures Done(View(), ok) == S.CheckVersionOrRestartServer(world, old(View()))
      ensures id == old(id) && history == old(history)
      ensures ClientProperties.CanCall(world, old(View())) ==>
                sent == old(sent) + ClientSession.CheckSends(world, old(clock), old(protocol), Input(0, NoOperationKind, 0), old(id))
    {
      ClientProperties.VersionCheckBy(world, View());
      hide S.CheckVersion;
      hide S.EnsureConnection;
      hide ClientSession.CheckSends;
      var input, output := Input(0, NoOperationKind, 0), NO_OUTPUT;
      ok, output := CheckVersionOrRestartServerInternal(input, output);
      if !ok {
        ok := EnsureConnection();
      }
    }

    method CreateSession() returns (ok: bool)
      modifies this
      ensures Done(View(), ok) == S.CreateSession(world, old(View()))
      ensures history == old(history)
    {
      ClientSession.CreateKeeps(world, View());
      hide S.CheckVersion;
      id := 0;
      var input, output := Input(0, CreateSessionKind, 0), NO_OUTPUT;
      ok, output := CheckVersionOrRestartServerInternal(input, output);
      if !ok {
        return;
      }
      if !output.success {
        status := ServerInvalidSession;
        return false;
      }
      id := output.id;
    }

    method EnsureSession() returns (ok: bool)
      modifies this
      ensures Done(View(), ok) == S.EnsureSession(world, old(View()))
      ensures ok <==> status.ServerOk?
    {
      ClientSession.SessionIffOk(world, View());
      hide S.CreateSession;
      hide S.Call;
      ok := EnsureConnection();
      if !ok {
        return;
      }
      if status.ServerOk? {
        return;
      }
      ok := CreateSession();
      if !ok {
        var _ := EnsureConnection();
        return false;
      }
      if request.Some? {
        var _, _ := Call(Input(id, SetRequestKind, request.value), NO_OUTPUT);
      }
      status := ServerOk;
    }

    method ResetHistory()
      modifies this
      ensures View() == old(View()).(history := [])
    {
      history := [];
    }

    method PlaybackHistory()
      modifies this
      ensures View() == S.PlaybackHistory(world, old(View()))
    {
      hide S.Call;
      if |history| >= MAX_PLAYBACK {
        ResetHistory();
        return;
      }
      var output := NO_OUTPUT;
      ghost var goal := Replay(world, View(), 0);
      var i := 0;
      while i < |history|
        invariant 0 <= i <= |history|
        invariant Replay(world, View(), i) == goal
        decreases |history| - i
      {
        history := history[i := history[i].(id := id)];
        var ok;
        ghost var before := View();
        CallKeepsHistory(world, before, history[i], NO_OUTPUT);
        ok, output := Call(history[i], NO_OUTPUT);
        if !ok {
          break;
        }
        i := i + 1;
      }
    }

    method PushHistory(input: Input, output: Output)
      modifies this
      ensures View() == S.PushHistory(old(View()), input, output)
      ensures old(|history|) <= MAX_PLAYBACK ==> |history| <= MAX_PLAYBACK
    {
      if !output.consumed {
        return;
      }
      if output.mode.Some? {
        lastMode := output.mode.value;
      }
      if |history| < MAX_PLAYBACK {
        history := history + [input];
      }
      if input.kind.SendKeyKind? && output.hasResult {
        ResetHistory();
      }
    }

    // The second trial of EnsureCallCommand.
    method Retry(input: Input, output: Output) returns (ok: bool, after: Output)
      modifies this
      ensures Called(View(), ok, after) == S.Retry(world, old(View()), input, output)
    {
      hide S.EnsureSession;
      hide S.PlaybackHistory;
      hide S.CallAndCheckVersion;
      after := output;
      ok := EnsureSession();
      if !ok {
        return;
      }
      PlaybackHistory();
      var again := input.(id := id);
      ok, after := CallAndCheckVersion(again, after);
      if !ok {
        history := history + [again];
        ResetHistory();
        return;
      }
      PushHistory(again, after);
    }

    method EnsureCallCommand(input: Input, output: Output) returns (ok: bool, after: Output)
      modifies this
      ensures Called(View(), ok, after) == S.EnsureCallCommand(world, old(View()), input, output)
      ensures old(|history|) <= MAX_PLAYBACK ==> |history| <= MAX_PLAYBACK
      ensures contacts <= old(contacts) + old(|history|) + 10
    {
      ClientProperties.CommandContacts(world, View(), input, output);
      if |history| <= MAX_PLAYBACK {
        ClientProperties.CommandBound(world, View(), input, output);
      }
      hide S.EnsureSession;
      hide S.CallAndCheckVersion;
      hide S.Retry;
      after := output;
      ok := EnsureSession();
      if !ok {
        return;
      }
      var mine := input.(id := id);
      after := after.(id := 0);
      ok, after := CallAndCheckVersion(mine, after);
      if ok && after.id != mine.id {
        status := ServerInvalidSession;
      }
      if Broken(status) {
        return false, after;
      }
      if status in {ServerShutdown, ServerInvalidSession} {
        ok, after := Retry(mine, after);
        return;
      }
      PushHistory(mine, after);
      ok := true;
    }

    method DeleteSession() returns (ok: bool)
      modifies this
      ensures Done(View(), ok) == S.DeleteSession(world, old(View()))
      ensures id == (if ok then 0 else old(id)) && history == old(history)
      ensures sent == old(sent) + (if old(id) != 0 && ClientProperties.CanCall(world, old(View()))
                                   then ClientSession.Sent(world.reply(old(clock)), Input(old(id), DeleteSessionKind, 0))
                                   else [])
    {
      ClientProperties.CloseSessionBy(world, View());
      if id == 0 {
        return true;
      }
      ok := CallCommand(DeleteSessionKind, 0);
      if ok {
        id := 0;
      }
    }

    method Reset()
      modifies this
      ensures View() == S.Reset(old(View()))
      ensures id == old(id) && history == old(history)
    {
      status, protocol, pid := ServerUnknown, 0, 0;
    }
  }
}
