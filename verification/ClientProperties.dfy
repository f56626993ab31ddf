// What the client's operations keep, whatever the server and the launcher do, and what
// their success means.
module ClientProperties {
  import opened Options
  import opened ClientState
  import opened ClientSession
  import opened ClientReplay
  import opened ClientRuns

  // ---- The number of contacts.

  lemma CallContacts(w: World, s: State, input: Input, output: Output)
    ensures s.contacts <= Call(w, s, input, output).state.contacts <= s.contacts + 1
  {
  }

  lemma {:induction false} CheckVersionContacts(w: World, s: State, input: Input, output: Output, trials: nat)
    ensures var s' := CheckVersion(w, s, input, output, trials).state;
            s.contacts <= s'.contacts <= s.contacts + (if trials == 0 then 0 else 2 * trials - 1)
    decreases trials
  {
    if trials > 0 {
      var c := Call(w, s, input, output);
      CallContacts(w, s, input, output);
      hide Call;
      if (c.ok && c.state.older) || (!c.ok && c.state.protocol < PROTOCOL) {
        StopKeeps(w, c.state, c.ok);
        var stopped := StopServer(w, c.state, c.ok);
        hide StopServer;
        var started := EnsureConnection(w, stopped.state.(status := ServerUnknown));
        CheckVersionContacts(w, started.state, input, c.output, trials - 1);
      }
    }
  }

  lemma SessionContacts(w: World, s: State)
    ensures s.contacts <= EnsureSession(w, s).state.contacts <= s.contacts + 4
  {
    var connected := EnsureConnection(w, s);
    CheckVersionContacts(w, connected.state.(id := 0), Input(0, CreateSessionKind, 0), NO_OUTPUT, TRIALS);
    hide CheckVersion;
    var created := CreateSession(w, connected.state);
    hide CreateSession;
    ConnectionOrFatal(w, created.state);
    if created.state.request.Some? {
      CallContacts(w, created.state, Input(created.state.id, SetRequestKind, created.state.request.value), NO_OUTPUT);
    }
    hide Call;
  }

  lemma {:induction false} ReplayContacts(w: World, s: State, from: nat)
    requires from <= |s.history|
    ensures s.contacts <= Replay(w, s, from).contacts <= s.contacts + |s.history| - from
    decreases |s.history| - from
  {
    if from < |s.history| {
      var input := s.history[from].(id := s.id);
      var s1 := s.(history := s.history[from := input]);
      CallContacts(w, s1, input, NO_OUTPUT);
      CallKeepsHistory(w, s1, input, NO_OUTPUT);
      var c := Call(w, s1, input, NO_OUTPUT);
      hide Call;
      if c.ok {
        ReplayContacts(w, c.state, from + 1);
      }
    }
  }

  lemma RetryContacts(w: World, s: State, input: Input, output: Output)
    ensures s.contacts <= Retry(w, s, input, output).state.contacts <= s.contacts + |s.history| + 5
  {
    var session := EnsureSession(w, s);
    SessionContacts(w, s);
    SessionKeeps(w, s);
    hide EnsureSession;
    ReplayContacts(w, session.state, 0);
    hide Replay;
    var replayed := PlaybackHistory(w, session.state);
    CallContacts(w, replayed, input.(id := replayed.id), output);
    hide Call;
  }

  // A command contacts the server at most ten times more than there are inputs in
  // the journal.
  lemma CommandContacts(w: World, s: State, input: Input, output: Output)
    ensures s.contacts <= EnsureCallCommand(w, s, input, output).state.contacts <= s.contacts + |s.history| + 10
  {
    var session := EnsureSession(w, s);
    SessionContacts(w, s);
    SessionKeeps(w, s);
    hide EnsureSession;
    var mine := input.(id := session.state.id);
    var c := CallAndCheckVersion(w, session.state, mine, output.(id := 0));
    CallContacts(w, session.state, mine, output.(id := 0));
    CallKeepsHistory(w, session.state, mine, output.(id := 0));
    hide Call;
    RetryContacts(w, c.state, mine, c.output);
    RetryContacts(w, c.state.(status := ServerInvalidSession), mine, c.output);
    hide Retry;
  }

  // ---- The length of the journal.

  lemma CommandBound(w: World, s: State, input: Input, output: Output)
    requires |s.history| <= MAX_PLAYBACK
    ensures |EnsureCallCommand(w, s, input, output).state.history| <= MAX_PLAYBACK
  {
    hide EnsureSession;
    hide EnsureCallCommand;
    hide Retry;
    hide SessionLost;
    hide Lost;
    hide SessionAt;
    hide SessionSends;
    hide RetrySends;
    hide RetryAnswered;
    CommandBy(w, s, input, output);
    SessionKeeps(w, s);
    var session, c := EnsureSession(w, s), EnsureCallCommand(w, s, input, output);
    if session.ok && SessionLost(w, session.state) {
      RetryTraffic(w, s, input, output);
      if c.ok && c.state.history != [] {
        SameWithId(c.state.history, JournalAfter(ToReplay(s.history), input, c.output), 0);
      }
    }
  }

  // The journal never holds more than 512 inputs between operations.
  lemma {:induction false} JournalBounded(w: World, s: State, ops: seq<Op>)
    requires |s.history| <= MAX_PLAYBACK
    ensures |Steps(w, s, ops).history| <= MAX_PLAYBACK
  {
    hide EnsureCallCommand;
    if ops != [] {
      JournalBounded(w, s, ops[..|ops| - 1]);
      var s', op := Steps(w, s, ops[..|ops| - 1]), ops[|ops| - 1];
      if op.Send? {
        CommandBound(w, s', op.input, op.output);
      } else {
        StepKeepsJournal(w, s', op);
      }
    }
  }

  // ---- What success means.

  predicate LastSent(s: State, input: Input) {
    s.sent != [] && s.sent[|s.sent| - 1] == input.(id := s.id)
  }

  lemma OkIsSent(w: World, s: State, input: Input, output: Output)
    requires CallAndCheckVersion(w, s, input, output).ok && input.id == s.id
    ensures LastSent(CallAndCheckVersion(w, s, input, output).state, input)
  {
    CallBy(w, s, input, output);
    CallKeepsHistory(w, s, input, output);
    hide Call;
  }

  lemma RetryIsSent(w: World, s: State, input: Input, output: Output)
    requires Retry(w, s, input, output).ok
    ensures LastSent(Retry(w, s, input, output).state, input)
  {
    hide EnsureSession;
    hide PlaybackHistory;
    hide CallAndCheckVersion;
    var replayed := PlaybackHistory(w, EnsureSession(w, s).state);
    OkIsSent(w, replayed, input.(id := replayed.id), output);
  }

  // Nothing can be sent: the message could not be written, or there is no connection
  // to be made at all.
  predicate Unsendable(w: World, session: State) {
    !w.hasFactory || w.reply(session.clock).SerializationFailed?
  }

  // A command that succeeds has sent its input last of all, unless nothing can be sent.
  // A command with which nothing can be sent succeeds in its session exactly when the
  // protocol last seen is the client's, and then it sends nothing.
  lemma SuccessMeansSent(w: World, s: State, input: Input, output: Output)
    ensures var session, c := EnsureSession(w, s), EnsureCallCommand(w, s, input, output);
            && (c.ok && !Unsendable(w, session.state) ==> LastSent(c.state, input))
            && (session.ok && Unsendable(w, session.state) ==> (c.ok <==> session.state.protocol == PROTOCOL)
                                                               && c.state.sent == session.state.sent)
  {
    CommandBy(w, s, input, output);
    var session := EnsureSession(w, s);
    var mine := input.(id := session.state.id);
    hide EnsureSession;
    hide EnsureCallCommand;
    var lost := Lost(w, session.state, mine);
    if session.ok && SessionLost(w, session.state) && Retry(w, lost, mine, FirstOutput(w, session.state, output)).ok {
      RetryIsSent(w, lost, mine, FirstOutput(w, session.state, output));
    }
    hide Retry;
    hide Lost;
    hide FirstOutput;
  }

  // A client in a session that does not get its message written.
  const UNWRITTEN := World(true, _ => SerializationFailed, _ => true, _ => true, _ => true)
  const IN_SESSION := Fresh(None).(status := ServerOk, id := 7, protocol := PROTOCOL)

  lemma SuccessWithoutSending(input: Input, output: Output)
    ensures var c := EnsureCallCommand(UNWRITTEN, IN_SESSION, input, output);
            c.ok && c.state.sent == []
  {
    var session := EnsureSession(UNWRITTEN, IN_SESSION);
    assert session == Done(IN_SESSION, true);
    SuccessMeansSent(UNWRITTEN, IN_SESSION, input, output);
    hide EnsureCallCommand;
  }

  // ---- Closing a session and starting over.

  predicate CanCall(w: World, s: State) {
    !Broken(s.status) && w.hasFactory
  }

  // A command outside any session goes out under the id that the client has.
  lemma CallCommandBy(w: World, s: State, kind: Kind, payload: nat)
    ensures var e := CallCommand(w, s, kind, payload);
            && (e.ok <==> CanCall(w, s) && Answers(w.reply(s.clock)))
            && e.state.sent == s.sent + (if CanCall(w, s) then Sent(w.reply(s.clock), Input(s.id, kind, payload)) else [])
            && SameJournal(s, e.state) && e.state.id == s.id
  {
    var input := Input(s.id, kind, payload);
    CallKeepsHistory(w, s, input, NO_OUTPUT);
    if CanCall(w, s) {
      CallBy(w, s, input, NO_OUTPUT);
      hide Call;
    }
  }

  // Closing a session takes an answer to DELETE_SESSION, and without one the client keeps its id; closing
  // it again is nothing. The status does not tell: after SERVER_OK the client counts as
  // being in a session still, and the next input goes out under the id 0.
  lemma CloseSessionBy(w: World, s: State)
    ensures var closed := DeleteSession(w, s);
            && (closed.ok <==> s.id == 0 || (CanCall(w, s) && Answers(w.reply(s.clock))))
            && closed.state.id == (if closed.ok then 0 else s.id)
            && SameJournal(s, closed.state)
            && closed.state.sent == s.sent + (if s.id == 0 || !CanCall(w, s) then []
                                              else Sent(w.reply(s.clock), Input(s.id, DeleteSessionKind, 0)))
            && (closed.ok ==> DeleteSession(w, closed.state) == closed)
            && (closed.ok && s.status.ServerOk? ==> EnsureSession(w, closed.state) == Done(closed.state, true))
  {
    var input := Input(s.id, DeleteSessionKind, 0);
    CallKeepsHistory(w, s, input, NO_OUTPUT);
    if CanCall(w, s) {
      CallBy(w, s, input, NO_OUTPUT);
      hide Call;
    }
  }

  // A shutdown has the launcher's word for it and nothing else: it succeeds also when
  // the server was not sent the command.
  lemma ShutdownBy(w: World, s: State)
    ensures var e, called := Shutdown(w, s), CanCall(w, s);
            && (e.ok <==> w.waits(s.clock + (if called then 1 else 0)))
            && e.state.sent == s.sent + (if called then Sent(w.reply(s.clock), Input(s.id, ShutdownKind, 0)) else [])
            && SameJournal(s, e.state) && e.state.id == s.id
  {
    var input := Input(s.id, ShutdownKind, 0);
    CallKeepsHistory(w, s, input, NO_OUTPUT);
    if CanCall(w, s) {
      CallBy(w, s, input, NO_OUTPUT);
      hide Call;
    }
  }

  // After Reset the client connects whenever the server can be started, even out of
  // SERVER_FATAL. It still has its journal, but a new session is not sent it: a command
  // that does not lose that session adds to the journal and sends its own input only.
  lemma ResetKeepsJournalUnsent(w: World, s: State, input: Input, output: Output)
    ensures EnsureConnection(w, Reset(s)).ok <==> w.starts(s.clock)
    ensures SameJournal(s, Reset(s)) && Reset(s).id == s.id && Reset(s).protocol == 0
    ensures var session, c := EnsureSession(w, Reset(s)), EnsureCallCommand(w, Reset(s), input, output);
            SessionAt(w, Reset(s)).Some? && !SessionLost(w, session.state) && Answers(w.reply(session.state.clock)) ==>
            var mine := input.(id := SessionId(w, Reset(s)));
            && c.ok
            && c.state.sent == s.sent + SessionSends(w, Reset(s)) + [mine]
            && c.state.history == JournalAfter(s.history, mine, c.output)
  {
    SessionBy(w, Reset(s));
    SessionKeeps(w, Reset(s));
    SessionAnswered(w, Reset(s));
    CommandBy(w, Reset(s), input, output);
    hide EnsureSession;
    hide EnsureCallCommand;
    hide Retry;
    hide SessionSends;
    hide SessionAt;
    hide SessionId;
    hide JournalAfter;
  }

  // ---- SERVER_FATAL.

  // The operations that never start over.
  predicate Ordinary(op: Op) {
    op.Connect? || op.OpenSession? || op.Send? || op.Command? || op.CloseSession? || op.ShutDown?
  }

  function ShutDowns(ops: seq<Op>): nat {
    if ops == [] then 0 else ShutDowns(ops[..|ops| - 1]) + (if ops[|ops| - 1].ShutDown? then 1 else 0)
  }

  // After SERVER_FATAL nothing is left of the client but the status: whatever is asked
  // of it, the server is not contacted and nothing changes. Only the launcher is still
  // made to wait, once by each shutdown.
  lemma {:induction false} FatalStays(w: World, s: State, ops: seq<Op>)
    requires s.status.ServerFatal? && forall k :: 0 <= k < |ops| ==> Ordinary(ops[k])
    ensures Steps(w, s, ops) == s.(clock := s.clock + ShutDowns(ops))
  {
    if ops != [] {
      FatalStays(w, s, ops[..|ops| - 1]);
    }
  }

  lemma FirstTrialFromFatal(w: World, s: State, input: Input)
    requires s.status.ServerFatal?
    ensures var c := CheckVersion(w, s, input, NO_OUTPUT, TRIALS);
            if s.protocol < PROTOCOL && w.terminates(s.clock) && w.starts(s.clock + 2)
            then c == CheckVersion(w, s.(clock := s.clock + 3, status := ServerInvalidSession), input, NO_OUTPUT, 1)
            else !c.ok && c.state.contacts == s.contacts
                 && c.state.status in {ServerFatal, ServerVersionMismatch, ServerBrokenMessage}
  {
    StoppedByForce(w, s);
    hide StopServer;
  }

  // No connection to the server, or it crashes.
  predicate Dead(reply: Reply) {
    reply.NotConnected? || (Delivered(reply) && reply.answer.Crashed?)
  }

  lemma SecondTrialFromFatal(w: World, s: State, input: Input)
    requires s.status.ServerInvalidSession? && s.protocol < PROTOCOL
    ensures var c, reply := CheckVersion(w, s, input, NO_OUTPUT, 1), w.reply(s.clock);
            && (c.ok <==> w.hasFactory && Current(reply))
            && (c.state.contacts > s.contacts <==> w.hasFactory && !reply.SerializationFailed?)
            && (c.state.status.ServerInvalidSession? <==> c.ok)
            && (c.state.status.ServerShutdown? <==> w.hasFactory && Dead(reply))
            && (Broken(c.state.status) <==> !c.ok && !(w.hasFactory && Dead(reply)))
            && (c.state.status.ServerShutdown? ==> c.state.clock == s.clock + 1)
  {
    hide StopServer;
  }

  // The launcher stops the server that is too old and starts one.
  predicate Replaced(w: World, s: State) {
    s.protocol < PROTOCOL && w.terminates(s.clock) && w.starts(s.clock + 2) && w.hasFactory
  }

  lemma TrialsFromFatal(w: World, s: State, input: Input)
    requires s.status.ServerFatal?
    ensures var c, reply := CheckVersion(w, s, input, NO_OUTPUT, TRIALS), w.reply(s.clock + 3);
            && (c.ok <==> Replaced(w, s) && Current(reply))
            && (c.state.contacts > s.contacts <==> Replaced(w, s) && !reply.SerializationFailed?)
            && (c.state.status.ServerInvalidSession? <==> c.ok)
            && (c.state.status.ServerShutdown? <==> Replaced(w, s) && Dead(reply))
            && (c.state.status.ServerShutdown? ==> c.state.clock == s.clock + 4)
            && (Broken(c.state.status) <==> !c.ok && !c.state.status.ServerShutdown?)
  {
    FirstTrialFromFatal(w, s, input);
    if s.protocol < PROTOCOL && w.terminates(s.clock) && w.starts(s.clock + 2) {
      SecondTrialFromFatal(w, s.(clock := s.clock + 3, status := ServerInvalidSession), input);
    }
    hide CheckVersion;
    hide Current;
    hide Dead;
  }

  // The other way out than Reset. The version check contacts the server again from
  // SERVER_FATAL exactly when the protocol last seen is older than the client's and
  // the launcher replaces that server. It leaves SERVER_FATAL exactly when the new
  // server then gives an answer and is not older, or is dead and can be started again.
  lemma FatalLeftByVersionCheck(w: World, s: State)
    requires s.status.ServerFatal?
    ensures CheckVersionOrRestartServer(w, s).state.contacts > s.contacts <==>
            Replaced(w, s) && !w.reply(s.clock + 3).SerializationFailed?
    ensures var reply := w.reply(s.clock + 3);
            !CheckVersionOrRestartServer(w, s).state.status.ServerFatal? <==>
            Replaced(w, s) && (Current(reply) || (Dead(reply) && w.starts(s.clock + 4)))
  {
    TrialsFromFatal(w, s, Input(0, NoOperationKind, 0));
    hide CheckVersion;
    hide Current;
    hide Dead;
  }

  // A server that can be started at every moment but the first.
  const LATE := World(true, _ => Connected(PROTOCOL, false, 1, Answered(NO_OUTPUT)), n => n != 0, _ => true, _ => true)

  // A client just made that does not get it started is in SERVER_FATAL, and its next
  // version check gets it out.
  lemma FatalLeftByFreshClient(request: Option<nat>)
    ensures Steps(LATE, Fresh(request), [Connect]).status.ServerFatal?
    ensures Steps(LATE, Fresh(request), [Connect, CheckOrRestart]).status.ServerInvalidSession?
  {
    var s := EnsureConnection(LATE, Fresh(request)).state;
    StepsMore(LATE, Fresh(request), [], Connect);
    StepsMore(LATE, Fresh(request), [Connect], CheckOrRestart);
    assert [Connect] + [CheckOrRestart] == [Connect, CheckOrRestart];
    FatalLeftByVersionCheck(LATE, s);
    hide CheckVersion;
    ConnectionOrFatal(LATE, CheckVersion(LATE, s, Input(0, NoOperationKind, 0), NO_OUTPUT, TRIALS).state);
  }

  // ---- The version check.

  const NO_OPERATION := Input(0, NoOperationKind, 0)

  // What the version check sends, from any state, and when it succeeds: a client that
  // has given up or is out of order sends nothing until its server is replaced.
  lemma VersionCheckBy(w: World, s: State)
    ensures var e := CheckVersionOrRestartServer(w, s);
            && e.state.sent == s.sent + (if CanCall(w, s) then CheckSends(w, s.clock, s.protocol, NO_OPERATION, s.id)
                                         else if Replaced(w, s) then Sent(w.reply(s.clock + 3), NO_OPERATION) else [])
            && SameJournal(s, e.state) && e.state.id == s.id
            && (CanCall(w, s) && CheckedAt(w, s.clock, s.protocol).Some? ==> e.ok)
  {
    CheckVersionKeeps(w, s, NO_OPERATION, NO_OUTPUT, TRIALS);
    if CanCall(w, s) {
      CheckVersionBy(w, s, NO_OPERATION);
    } else {
      UncalledCheck(w, s, NO_OPERATION);
    }
    hide CheckVersion;
    hide CheckSends;
    hide CheckedAt;
    ConnectionOrFatal(w, CheckVersion(w, s, NO_OPERATION, NO_OUTPUT, TRIALS).state);
  }

  lemma UncalledCheck(w: World, s: State, input: Input)
    requires !CanCall(w, s)
    ensures CheckVersion(w, s, input, NO_OUTPUT, TRIALS).state.sent ==
            s.sent + (if Replaced(w, s) then Sent(w.reply(s.clock + 3), input) else [])
  {
    assert Call(w, s, input, NO_OUTPUT) == Called(s, false, NO_OUTPUT);
    StoppedByForce(w, s);
    hide StopServer;
    if s.protocol < PROTOCOL && w.terminates(s.clock) && w.starts(s.clock + 2) {
      var started := s.(clock := s.clock + 3, status := ServerInvalidSession);
      assert CheckVersion(w, s, input, NO_OUTPUT, TRIALS) == CheckVersion(w, started, input, NO_OUTPUT, 1);
      if w.hasFactory {
        LastTrialBy(w, started, input, NO_OUTPUT);
      } else {
        NoFactorySends(w, started, input, NO_OUTPUT, 1);
      }
    }
    hide Call;
  }
}
