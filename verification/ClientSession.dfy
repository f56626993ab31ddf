// Connecting to the server and opening a session, said of what the server and the
// launcher do: when a session is opened, and what the server is sent for it.
module ClientSession {
  import opened Options
  import opened ClientState

  // ---- Connection and session.

  // What the launcher is told when the client gives up: what went wrong, or that the
  // server could not be started.
  function ReasonOf(status: Status): Status {
    if status in {ServerTimeout, ServerBrokenMessage, ServerVersionMismatch} then status else ServerFatal
  }

  // True exactly in a status the server can be called in; otherwise the client has
  // given up, and has told the launcher why, unless it already had.
  lemma ConnectionOrFatal(w: World, s: State)
    ensures var e := EnsureConnection(w, s);
            && (e.ok <==> e.state.status in {ServerOk, ServerInvalidSession})
            && (!e.ok <==> e.state.status == ServerFatal)
            && e.state.reported == s.reported + (if e.ok || s.status.ServerFatal? then [] else [ReasonOf(s.status)])
            && SameJournal(s, e.state) && e.state.id == s.id && e.state.contacts == s.contacts && e.state.sent == s.sent
  {
  }

  // What no exchange with the server changes.
  predicate SameJournal(s: State, s': State) {
    s'.history == s.history && s'.lastMode == s.lastMode && s'.request == s.request
  }

  lemma {:induction false} CheckVersionKeeps(w: World, s: State, input: Input, output: Output, trials: nat)
    ensures SameJournal(s, CheckVersion(w, s, input, output, trials).state)
    ensures CheckVersion(w, s, input, output, trials).state.id == s.id
    decreases trials
  {
    if trials > 0 {
      var c := Call(w, s, input, output);
      CallKeepsHistory(w, s, input, output);
      hide Call;
      if (c.ok && c.state.older) || (!c.ok && c.state.protocol < PROTOCOL) {
        StopKeeps(w, c.state, c.ok);
        var stopped := StopServer(w, c.state, c.ok);
        hide StopServer;
        var started := EnsureConnection(w, stopped.state.(status := ServerUnknown));
        CheckVersionKeeps(w, started.state, input, c.output, trials - 1);
      }
    }
  }

  lemma StopKeeps(w: World, s: State, understands: bool)
    ensures SameJournal(s, StopServer(w, s, understands).state) && StopServer(w, s, understands).state.id == s.id
    ensures s.contacts <= StopServer(w, s, understands).state.contacts <= s.contacts + 1
  {
  }

  lemma CreateKeeps(w: World, s: State)
    ensures SameJournal(s, CreateSession(w, s).state)
  {
    CheckVersionKeeps(w, s.(id := 0), Input(0, CreateSessionKind, 0), NO_OUTPUT, TRIALS);
    hide CheckVersion;
  }

  lemma SessionKeeps(w: World, s: State)
    ensures SameJournal(s, EnsureSession(w, s).state)
  {
    var connected := EnsureConnection(w, s);
    CreateKeeps(w, connected.state);
    var created := CreateSession(w, connected.state);
    hide CreateSession;
    hide Call;
    ConnectionOrFatal(w, created.state);
    if created.state.request.Some? {
      CallKeepsHistory(w, created.state, Input(created.state.id, SetRequestKind, created.state.request.value), NO_OUTPUT);
    }
  }

  // A session is there exactly when the status is SERVER_OK.
  lemma {:induction false} CheckVersionNeverMakesOk(w: World, s: State, input: Input, output: Output, trials: nat)
    requires !s.status.ServerOk?
    ensures !CheckVersion(w, s, input, output, trials).state.status.ServerOk?
    decreases trials
  {
    if trials > 0 {
      var c := Call(w, s, input, output);
      assert !c.state.status.ServerOk?;
      hide Call;
      if (c.ok && c.state.older) || (!c.ok && c.state.protocol < PROTOCOL) {
        var stopped := StopServer(w, c.state, c.ok);
        hide StopServer;
        var started := EnsureConnection(w, stopped.state.(status := ServerUnknown));
        CheckVersionNeverMakesOk(w, started.state, input, c.output, trials - 1);
      }
    }
  }

  lemma SessionIffOk(w: World, s: State)
    ensures var e := EnsureSession(w, s);
            && (e.ok <==> e.state.status.ServerOk?)
            && (!e.ok ==> e.state.status in {ServerFatal, ServerInvalidSession})
  {
    var connected := EnsureConnection(w, s);
    ConnectionOrFatal(w, s);
    if connected.ok && !connected.state.status.ServerOk? {
      CheckVersionNeverMakesOk(w, connected.state.(id := 0), Input(0, CreateSessionKind, 0), NO_OUTPUT, TRIALS);
      hide CheckVersion;
      var created := CreateSession(w, connected.state);
      ConnectionOrFatal(w, created.state);
      hide SetRequest;
    }
  }

  // ---- What the world has to do.

  // The message reaches the server.
  predicate Delivered(reply: Reply) {
    reply.Connected? && reply.protocol == PROTOCOL
  }

  // What that adds to what the server is sent.
  function Sent(reply: Reply, input: Input): seq<Input> {
    if Delivered(reply) then [input] else []
  }

  // The server answers it.
  predicate Answers(reply: Reply) {
    Delivered(reply) && reply.answer.Answered?
  }

  // An answer from a server that is not older than the client.
  predicate Current(reply: Reply) {
    Answers(reply) && !reply.older
  }

  // The server has to be started anew: it is older, or its protocol is, or the message
  // was not written and the protocol last seen is older.
  predicate Outdated(reply: Reply, protocol: nat) {
    || (Answers(reply) && reply.older)
    || (reply.Connected? && reply.protocol < PROTOCOL)
    || (reply.SerializationFailed? && protocol < PROTOCOL)
  }

  // The moment by which a server that was outdated at this moment is stopped. One
  // that answers is asked to shut down first.
  function StoppedBy(w: World, moment: nat): Option<nat> {
    if !Answers(w.reply(moment)) then (if w.terminates(moment + 1) then Some(moment + 3) else None)
    else if w.waits(moment + 2) then Some(moment + 3)
    else if w.terminates(moment + 3) then Some(moment + 5)
    else None
  }

  // The moment of the second trial of the version check, if there is one.
  function SecondTrial(w: World, moment: nat, protocol: nat): Option<nat> {
    if !Outdated(w.reply(moment), protocol) then None
    else
      var stopped := StoppedBy(w, moment);
      if stopped.Some? && w.starts(stopped.value) then Some(stopped.value + 1) else None
  }

  // The moment of the answer that the version check is content with, if there is one.
  function CheckedAt(w: World, moment: nat, protocol: nat): Option<nat> {
    if Current(w.reply(moment)) then Some(moment)
    else
      var again := SecondTrial(w, moment, protocol);
      if again.Some? && Current(w.reply(again.value)) then again else None
  }

  lemma CallBy(w: World, s: State, input: Input, output: Output)
    requires !Broken(s.status) && w.hasFactory
    ensures var c, reply := Call(w, s, input, output), w.reply(s.clock);
            && (c.ok <==> Answers(reply))
            && c.state.clock == s.clock + 1
            && c.state.sent == s.sent + Sent(reply, input)
            && (c.ok ==> c.state.status == s.status && c.state.older == reply.older && c.state.protocol == PROTOCOL
                         && c.output == reply.answer.output)
            && (!c.ok ==> c.output == if Delivered(reply) && reply.answer.Unparsable? then reply.answer.partial else output)
            && c.state.protocol == (if reply.Connected? then reply.protocol
                                    else if reply.SerializationFailed? then s.protocol else PROTOCOL)
  {
  }

  // The last trial succeeds exactly when the answer is current.
  lemma LastTrialBy(w: World, s: State, input: Input, output: Output)
    requires !Broken(s.status) && w.hasFactory
    ensures var c, reply := CheckVersion(w, s, input, output, 1), w.reply(s.clock);
            && (c.ok <==> Current(reply))
            && c.state.sent == s.sent + Sent(reply, input)
            && (c.ok ==> c.state == Call(w, s, input, output).state
                         && c.output == reply.answer.output && c.state.clock == s.clock + 1)
  {
    CallBy(w, s, input, output);
    hide Call;
    hide StopServer;
  }

  lemma StoppedByForce(w: World, s: State)
    ensures var stopped := StopServer(w, s, false);
            && (stopped.ok <==> w.terminates(s.clock))
            && stopped.state == (if stopped.ok then s.(clock := s.clock + 2)
                                 else s.(clock := s.clock + 1, status := ServerBrokenMessage))
  {
  }

  lemma StoppedOnRequest(w: World, s: State)
    requires !Broken(s.status) && w.hasFactory
    ensures var stopped := StopServer(w, s, true);
            && (stopped.ok <==> w.waits(s.clock + 1) || w.terminates(s.clock + 2))
            && (stopped.ok ==> stopped.state.clock == if w.waits(s.clock + 1) then s.clock + 2 else s.clock + 4)
            && stopped.state.sent == s.sent + Sent(w.reply(s.clock), Input(s.id, ShutdownKind, 0))
  {
    CallBy(w, s, Input(s.id, ShutdownKind, 0), NO_OUTPUT);
    hide Call;
  }

  // What a version check sends: the message, if it gets there; and to a server that is
  // to be started anew the request to shut down, if it is one that answers, and the
  // message again once it is started.
  function CheckSends(w: World, moment: nat, protocol: nat, input: Input, id: nat): seq<Input> {
    var again := SecondTrial(w, moment, protocol);
    StopSends(w, moment, protocol, input, id) + (if again.Some? then Sent(w.reply(again.value), input) else [])
  }

  function StopSends(w: World, moment: nat, protocol: nat, input: Input, id: nat): seq<Input> {
    Sent(w.reply(moment), input)
    + (if Outdated(w.reply(moment), protocol) && Answers(w.reply(moment)) then
         Sent(w.reply(moment + 1), Input(id, ShutdownKind, 0))
       else [])
  }

  lemma RestartBy(w: World, s: State, input: Input, c: Called)
    requires !Broken(s.status) && w.hasFactory && c == Call(w, s, input, NO_OUTPUT)
    requires Outdated(w.reply(s.clock), s.protocol)
    ensures var stopped := StopServer(w, c.state, c.ok);
            && (stopped.ok <==> StoppedBy(w, s.clock).Some?)
            && (stopped.ok ==> stopped.state.clock == StoppedBy(w, s.clock).value)
            && stopped.state.sent == s.sent + StopSends(w, s.clock, s.protocol, input, s.id)
  {
    CallBy(w, s, input, NO_OUTPUT);
    CallKeepsHistory(w, s, input, NO_OUTPUT);
    hide Call;
    if c.ok {
      StoppedOnRequest(w, c.state);
    } else {
      StoppedByForce(w, c.state);
    }
    hide StopServer;
  }

  // One trial is enough, or the check fails.
  lemma CheckOnce(w: World, s: State, input: Input, c: Called)
    requires !Broken(s.status) && w.hasFactory && c == Call(w, s, input, NO_OUTPUT)
    requires !Outdated(w.reply(s.clock), s.protocol)
    ensures var checked := CheckVersion(w, s, input, NO_OUTPUT, TRIALS);
            && (checked.ok <==> Current(w.reply(s.clock))) && (checked.ok ==> checked == c)
            && checked.state.sent == c.state.sent
  {
    CallBy(w, s, input, NO_OUTPUT);
    hide Call;
    hide StopServer;
  }

  // The server is started anew for a second trial, or the check fails.
  lemma CheckTwice(w: World, s: State, input: Input, c: Called)
    requires !Broken(s.status) && w.hasFactory && c == Call(w, s, input, NO_OUTPUT)
    requires Outdated(w.reply(s.clock), s.protocol)
    ensures var checked, stopped := CheckVersion(w, s, input, NO_OUTPUT, TRIALS), StopServer(w, c.state, c.ok);
            if stopped.ok && w.starts(stopped.state.clock) then
              var started := stopped.state.(status := ServerInvalidSession, clock := stopped.state.clock + 1);
              checked == CheckVersion(w, started, input, c.output, 1)
            else !checked.ok && checked.state.sent == stopped.state.sent
  {
    CallBy(w, s, input, NO_OUTPUT);
    hide Call;
    hide StopServer;
  }

  // The version check of a client that can call succeeds exactly when there is a
  // moment of an answer that it is content with.
  lemma CheckVersionBy(w: World, s: State, input: Input)
    requires !Broken(s.status) && w.hasFactory
    ensures var c, moment := CheckVersion(w, s, input, NO_OUTPUT, TRIALS), CheckedAt(w, s.clock, s.protocol);
            && (c.ok <==> moment.Some?)
            && c.state.sent == s.sent + CheckSends(w, s.clock, s.protocol, input, s.id)
            && (c.ok ==> c.state.status == (if moment.value == s.clock then s.status else ServerInvalidSession)
                         && c.state.clock == moment.value + 1
                         && c.output == w.reply(moment.value).answer.output)
  {
    hide Call;
    hide StopServer;
    hide CheckVersion;
    hide StoppedBy;
    var c := Call(w, s, input, NO_OUTPUT);
    CallBy(w, s, input, NO_OUTPUT);
    if Outdated(w.reply(s.clock), s.protocol) {
      CheckTwice(w, s, input, c);
      RestartBy(w, s, input, c);
      hide StopSends;
      var stopped := StopServer(w, c.state, c.ok);
      if stopped.ok && w.starts(stopped.state.clock) {
        var started := stopped.state.(status := ServerInvalidSession, clock := stopped.state.clock + 1);
        LastTrialBy(w, started, input, c.output);
        CallBy(w, started, input, c.output);
      }
    } else {
      CheckOnce(w, s, input, c);
    }
  }

  // ---- Opening a session.

  const CREATE := Input(0, CreateSessionKind, 0)

  // The moment by which the client is connected, if it can be.
  function ConnectedBy(w: World, s: State): Option<nat> {
    if s.status in {ServerOk, ServerInvalidSession} then Some(s.clock)
    else if s.status in {ServerUnknown, ServerShutdown} && w.starts(s.clock) then Some(s.clock + 1)
    else None
  }

  // The moment of the answer that gives the session.
  function SessionAt(w: World, s: State): Option<nat> {
    var connected := ConnectedBy(w, s);
    var checked := if connected.None? || !w.hasFactory then None else CheckedAt(w, connected.value, s.protocol);
    if checked.Some? && w.reply(checked.value).answer.output.success then checked else None
  }

  lemma SessionAnswered(w: World, s: State)
    ensures SessionAt(w, s).Some? ==> Current(w.reply(SessionAt(w, s).value)) && ConnectedBy(w, s).Some? && w.hasFactory
  {
  }

  // The id that the session has.
  function SessionId(w: World, s: State): nat
    requires SessionAt(w, s).Some?
  {
    SessionAnswered(w, s);
    w.reply(SessionAt(w, s).value).answer.output.id
  }

  // What the server is sent for a new session: the version check's CREATE_SESSION, and
  // then, if that gives a session, SET_REQUEST under the new id, if it gets there.
  function SessionSends(w: World, s: State): seq<Input> {
    var connected, moment := ConnectedBy(w, s), SessionAt(w, s);
    (if connected.Some? && w.hasFactory then CheckSends(w, connected.value, s.protocol, CREATE, 0) else [])
    + (if moment.Some? && s.request.Some? then
         Sent(w.reply(moment.value + 1), Input(SessionId(w, s), SetRequestKind, s.request.value))
       else [])
  }

  lemma {:induction false} NoFactorySends(w: World, s: State, input: Input, output: Output, trials: nat)
    requires !w.hasFactory && s.status.ServerInvalidSession?
    ensures var c := CheckVersion(w, s, input, output, trials); !c.ok && c.state.sent == s.sent
    decreases trials
  {
    if trials > 0 {
      assert Call(w, s, input, output) == Called(s, false, output);
      StoppedByForce(w, s);
      hide Call;
      hide StopServer;
      if s.protocol < PROTOCOL && trials > 1 {
        var started := EnsureConnection(w, StopServer(w, s, false).state.(status := ServerUnknown));
        if started.ok {
          NoFactorySends(w, started.state, input, output, trials - 1);
        }
      }
    }
  }

  lemma CreatedBy(w: World, s: State)
    requires s.status.ServerInvalidSession?
    ensures var created, moment := CreateSession(w, s), SessionAt(w, s);
            && (created.ok <==> moment.Some?)
            && created.state.sent == s.sent + (if w.hasFactory then CheckSends(w, s.clock, s.protocol, CREATE, 0) else [])
            && (created.ok ==> && created.state.status.ServerInvalidSession? && created.state.id == SessionId(w, s)
                               && created.state.clock == moment.value + 1 && w.hasFactory)
  {
    if w.hasFactory {
      CheckVersionBy(w, s.(id := 0), CREATE);
    } else {
      NoFactorySends(w, s.(id := 0), CREATE, NO_OUTPUT, TRIALS);
    }
    hide CheckVersion;
    hide CheckedAt;
    hide CheckSends;
  }

  lemma RequestSent(w: World, s: State)
    requires !Broken(s.status) && w.hasFactory
    ensures var s' := SetRequest(w, s);
            && s'.sent == s.sent + (if s.request.None? then []
                                    else Sent(w.reply(s.clock), Input(s.id, SetRequestKind, s.request.value)))
            && s'.clock == s.clock + (if s.request.Some? then 1 else 0) && s'.id == s.id
  {
    if s.request.Some? {
      var input := Input(s.id, SetRequestKind, s.request.value);
      CallBy(w, s, input, NO_OUTPUT);
      CallKeepsHistory(w, s, input, NO_OUTPUT);
    }
    hide Call;
  }

  lemma ConnectedState(w: World, s: State)
    ensures var e := EnsureConnection(w, s);
            && (e.ok <==> ConnectedBy(w, s).Some?)
            && (e.ok && !s.status.ServerOk? ==>
                  e.state == s.(status := ServerInvalidSession, clock := ConnectedBy(w, s).value))
  {
  }

  // A session is there, or opened, exactly when there is a moment of an answer that
  // gives it; then the client has its id. What was sent for it, whether it was opened
  // or not, is this and no more.
  lemma SessionBy(w: World, s: State)
    ensures var e := EnsureSession(w, s);
            && (e.ok <==> s.status.ServerOk? || SessionAt(w, s).Some?)
            && (s.status.ServerOk? ==> e.state == s)
            && (!s.status.ServerOk? ==> e.state.sent == s.sent + SessionSends(w, s))
            && (e.ok && !s.status.ServerOk? ==>
                  && e.state.id == SessionId(w, s)
                  && e.state.clock == SessionAt(w, s).value + 1 + (if s.request.Some? then 1 else 0))
  {
    hide CreateSession;
    hide SetRequest;
    hide CheckedAt;
    hide CheckSends;
    hide Delivered;
    ConnectedState(w, s);
    ConnectionOrFatal(w, s);
    var connected := EnsureConnection(w, s);
    if connected.ok && !s.status.ServerOk? {
      CreatedBy(w, connected.state);
      CreateKeeps(w, connected.state);
      var created := CreateSession(w, connected.state);
      if created.ok {
        RequestSent(w, created.state);
      } else {
        ConnectionOrFatal(w, created.state);
      }
    }
  }

  // ---- What becomes of SET_REQUEST.

  // The status that a call leaves that gets this reply.
  function StatusAfter(before: Status, reply: Reply): Status {
    if reply.NoClient? then ServerFatal
    else if reply.NotConnected? || (Delivered(reply) && reply.answer.Crashed?) then ServerShutdown
    else if Delivered(reply) && reply.answer.TimedOut? then ServerTimeout
    else if Delivered(reply) && reply.answer.Unparsable? then ServerBrokenMessage
    else before
  }

  // A session opened by CREATE_SESSION counts as good whatever becomes of SET_REQUEST:
  // for each reply, the status that is overwritten, and whether the server was sent it.
  // An unanswered SET_REQUEST leaves a trace in that status, except when the message is
  // not written or the server has another protocol; then it is not even sent.
  lemma SetRequestFailureHidden(w: World, s: State)
    requires s.status.ServerInvalidSession? && CreateSession(w, s).ok
    ensures EnsureSession(w, s).ok && EnsureSession(w, s).state.status.ServerOk?
    ensures var created := CreateSession(w, s).state;
            var asked, reply, after := s.request.Some?, w.reply(created.clock), SetRequest(w, created);
            && EnsureSession(w, s).state == after.(status := ServerOk)
            && after.status == (if asked then StatusAfter(ServerInvalidSession, reply) else ServerInvalidSession)
            && (after.sent == created.sent <==> !(asked && Delivered(reply)))
            && (after.status != ServerInvalidSession <==>
                  asked && (reply.NoClient? || reply.NotConnected? || (Delivered(reply) && !Answers(reply))))
            && (asked && !Answers(reply) && after.status == ServerInvalidSession <==>
                  asked && (reply.SerializationFailed? || (reply.Connected? && reply.protocol != PROTOCOL)))
  {
    CreatedBy(w, s);
    CreateKeeps(w, s);
    hide CreateSession;
    var created := CreateSession(w, s).state;
    if created.request.Some? {
      CallBy(w, created, Input(created.id, SetRequestKind, created.request.value), NO_OUTPUT);
    }
  }

  // A server that answers CREATE_SESSION at moment 1 and nothing more.
  const SILENT := World(true,
                        n => Connected(PROTOCOL, false, 1, if n == 1 then Answered(NO_OUTPUT.(id := 7)) else TimedOut),
                        _ => true, _ => true, _ => true)

  // A client just made takes it to be well.
  lemma SilentServerTakenForGood()
    ensures var s := Fresh(Some(0));
            && EnsureSession(SILENT, s).ok && EnsureSession(SILENT, s).state.status.ServerOk?
            && EnsureSession(SILENT, s).state.sent == [CREATE, Input(7, SetRequestKind, 0)]
            && SILENT.reply(2).answer.TimedOut?
  {
    var s := Fresh(Some(0));
    SessionBy(SILENT, s);
    SessionIffOk(SILENT, s);
    hide EnsureSession;
    assert SessionAt(SILENT, s) == Some(1);
    assert SessionSends(SILENT, s) == [CREATE, Input(7, SetRequestKind, 0)];
  }
}
