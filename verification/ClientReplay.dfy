// A command that meets the loss of its session: what the new session is sent, said of
// what the server replies.
module ClientReplay {
  import opened Options
  import opened ClientState
  import opened ClientSession

  function WithId(inputs: seq<Input>, id: nat): seq<Input> {
    seq(|inputs|, k requires 0 <= k < |inputs| => inputs[k].(id := id))
  }

  // The same inputs, ids aside.
  predicate SameButIds(a: seq<Input>, b: seq<Input>) {
    WithId(a, 0) == WithId(b, 0)
  }

  lemma SameWithId(a: seq<Input>, b: seq<Input>, id: nat)
    requires SameButIds(a, b)
    ensures |a| == |b| && WithId(a, id) == WithId(b, id)
  {
    forall k | 0 <= k < |a| ensures a[k].(id := id) == b[k].(id := id) {
      assert WithId(a, 0)[k] == WithId(b, 0)[k];
    }
  }

  // ---- The replay.

  // How many of the next n replies are answers, one after the other.
  function AnsweredRun(w: World, moment: nat, n: nat): (k: nat)
    ensures k <= n && (k < n ==> !Answers(w.reply(moment + k)))
    ensures forall i: nat :: moment <= i < moment + k ==> Answers(w.reply(i))
    decreases n
  {
    if n == 0 || !Answers(w.reply(moment)) then 0 else 1 + AnsweredRun(w, moment + 1, n - 1)
  }

  // What the server is sent of these inputs: as many as it answers, and the next one
  // if it gets that far.
  function ReplaySends(w: World, moment: nat, inputs: seq<Input>): seq<Input> {
    var k := AnsweredRun(w, moment, |inputs|);
    inputs[..k] + (if k < |inputs| then Sent(w.reply(moment + k), inputs[k]) else [])
  }

  // The moment after the replay of n inputs.
  function ReplayEnds(w: World, moment: nat, n: nat): nat {
    var k := AnsweredRun(w, moment, n);
    if k < n then moment + k + 1 else moment + n
  }

  // The status after it.
  function ReplayLeaves(w: World, moment: nat, n: nat): Status {
    var k := AnsweredRun(w, moment, n);
    if k < n then StatusAfter(ServerOk, w.reply(moment + k)) else ServerOk
  }

  lemma CallLeaves(w: World, s: State, input: Input, output: Output)
    requires s.status.ServerOk? && w.hasFactory
    ensures Call(w, s, input, output).state.status == StatusAfter(ServerOk, w.reply(s.clock))
  {
  }

  lemma ReplayStops(w: World, moment: nat, inputs: seq<Input>)
    requires inputs != [] && !Answers(w.reply(moment))
    ensures ReplaySends(w, moment, inputs) == Sent(w.reply(moment), inputs[0])
    ensures ReplayEnds(w, moment, |inputs|) == moment + 1
    ensures ReplayLeaves(w, moment, |inputs|) == StatusAfter(ServerOk, w.reply(moment))
  {
    hide Answers;
    hide Delivered;
    hide StatusAfter;
    assert AnsweredRun(w, moment, |inputs|) == 0;
    assert moment + 0 == moment;
  }

  lemma ReplayGoesOn(w: World, moment: nat, inputs: seq<Input>)
    requires inputs != [] && Answers(w.reply(moment))
    ensures ReplaySends(w, moment, inputs) == [inputs[0]] + ReplaySends(w, moment + 1, inputs[1..])
    ensures ReplayEnds(w, moment, |inputs|) == ReplayEnds(w, moment + 1, |inputs| - 1)
    ensures ReplayLeaves(w, moment, |inputs|) == ReplayLeaves(w, moment + 1, |inputs| - 1)
  {
    hide Answers;
    hide Delivered;
    hide StatusAfter;
    var k := AnsweredRun(w, moment + 1, |inputs| - 1);
    assert AnsweredRun(w, moment, |inputs|) == k + 1;
    assert moment + 1 + k == moment + (k + 1);
    assert inputs[..k + 1] == [inputs[0]] + inputs[1..][..k];
  }

  lemma JournalSplit(h: seq<Input>, from: nat, id: nat)
    requires from < |h|
    ensures var input := h[from].(id := id);
            var h' := h[from := input];
            && WithId(h[from..], id) == [input] + WithId(h'[from + 1..], id)
            && SameButIds(h', h)
  {
  }

  lemma {:induction false} ReplayBy(w: World, s: State, from: nat)
    requires s.status.ServerOk? && w.hasFactory && from <= |s.history|
    ensures var s', n := Replay(w, s, from), |s.history| - from;
            && s'.sent == s.sent + ReplaySends(w, s.clock, WithId(s.history[from..], s.id))
            && s'.clock == ReplayEnds(w, s.clock, n)
            && s'.status == ReplayLeaves(w, s.clock, n)
            && s'.id == s.id && SameButIds(s'.history, s.history)
    decreases |s.history| - from
  {
    hide ReplaySends;
    hide ReplayEnds;
    hide ReplayLeaves;
    hide Call;
    hide Delivered;
    hide StatusAfter;
    if from < |s.history| {
      var inputs := WithId(s.history[from..], s.id);
      var input := s.history[from].(id := s.id);
      var s1 := s.(history := s.history[from := input]);
      JournalSplit(s.history, from, s.id);
      CallKeepsHistory(w, s1, input, NO_OUTPUT);
      CallBy(w, s1, input, NO_OUTPUT);
      CallLeaves(w, s1, input, NO_OUTPUT);
      var c := Call(w, s1, input, NO_OUTPUT);
      if c.ok {
        ReplayBy(w, c.state, from + 1);
        ReplayGoesOn(w, s.clock, inputs);
      } else {
        ReplayStops(w, s.clock, inputs);
      }
    } else {
      NothingReplayed(w, s.clock);
      assert WithId(s.history[from..], s.id) == [];
    }
  }

  lemma NothingReplayed(w: World, moment: nat)
    ensures ReplaySends(w, moment, []) == []
    ensures ReplayEnds(w, moment, 0) == moment && ReplayLeaves(w, moment, 0) == ServerOk
  {
  }

  // ---- The second trial.

  // What is replayed of a journal: a full one is dropped.
  function ToReplay(history: seq<Input>): seq<Input> {
    if |history| >= MAX_PLAYBACK then [] else history
  }

  lemma PlaybackBy(w: World, s: State)
    requires s.status.ServerOk? && w.hasFactory
    ensures var s', inputs := PlaybackHistory(w, s), WithId(ToReplay(s.history), s.id);
            && s'.sent == s.sent + ReplaySends(w, s.clock, inputs)
            && s'.clock == ReplayEnds(w, s.clock, |inputs|)
            && s'.status == ReplayLeaves(w, s.clock, |inputs|)
            && s'.id == s.id && SameButIds(s'.history, ToReplay(s.history))
  {
    if |s.history| >= MAX_PLAYBACK {
      NothingReplayed(w, s.clock);
      assert WithId([], s.id) == [];
    } else {
      ReplayBy(w, s, 0);
      assert s.history[0..] == s.history;
    }
    hide Replay;
    hide ReplaySends;
    hide ReplayEnds;
    hide ReplayLeaves;
  }

  // The input that met the loss can be sent after the replay of n others.
  predicate Alive(w: World, moment: nat, n: nat) {
    !Broken(ReplayLeaves(w, moment, n))
  }

  // What the server is sent by a retry in a session opened by this moment.
  function RetrySends(w: World, moment: nat, journal: seq<Input>, input: Input): seq<Input> {
    ReplaySends(w, moment, journal)
    + (if Alive(w, moment, |journal|) then Sent(w.reply(ReplayEnds(w, moment, |journal|)), input) else [])
  }

  // It succeeds.
  predicate RetryAnswered(w: World, moment: nat, n: nat) {
    Alive(w, moment, n) && Answers(w.reply(ReplayEnds(w, moment, n)))
  }

  lemma LastCallBy(w: World, s: State, input: Input, output: Output)
    requires w.hasFactory
    ensures var c, reply := CallAndCheckVersion(w, s, input, output), w.reply(s.clock);
            && (c.ok <==> !Broken(s.status) && Answers(reply))
            && c.state.sent == s.sent + (if Broken(s.status) then [] else Sent(reply, input))
            && (c.ok ==> c.output == reply.answer.output && c.state.status == s.status)
            && c.state.history == s.history && c.state.id == s.id
  {
    CallKeepsHistory(w, s, input, output);
    if !Broken(s.status) {
      CallBy(w, s, input, output);
      hide Call;
    }
  }

  // The moment from which on the replay takes place.
  function ReplayAt(w: World, s: State): nat
    requires SessionAt(w, s).Some?
  {
    SessionAt(w, s).value + 1 + (if s.request.Some? then 1 else 0)
  }

  // The journal that an input leaves.
  function JournalAfter(history: seq<Input>, input: Input, output: Output): seq<Input> {
    PushHistory(Fresh(None).(history := history), input, output).history
  }

  lemma JournalAfterSame(a: seq<Input>, b: seq<Input>, input: Input, id: nat, output: Output)
    requires SameButIds(a, b)
    ensures SameButIds(JournalAfter(a, input.(id := id), output), JournalAfter(b, input, output))
  {
    SameWithId(a, b, 0);
    assert WithId(a + [input.(id := id)], 0) == WithId(a, 0) + [input.(id := 0)];
    assert WithId(b + [input], 0) == WithId(b, 0) + [input.(id := 0)];
  }

  // The replay and the call after it, in a session that is open.
  lemma RetryInSession(w: World, s: State, input: Input, output: Output)
    requires s.status.ServerOk? && w.hasFactory
    ensures var replayed, journal := PlaybackHistory(w, s), WithId(ToReplay(s.history), s.id);
            var c := CallAndCheckVersion(w, replayed, input.(id := s.id), output);
            && replayed.id == s.id
            && c.state.sent == s.sent + RetrySends(w, s.clock, journal, input.(id := s.id))
            && (c.ok <==> RetryAnswered(w, s.clock, |journal|))
            && (c.ok ==> c.state.id == s.id && c.state.status == ReplayLeaves(w, s.clock, |journal|)
                         && c.output == w.reply(ReplayEnds(w, s.clock, |journal|)).answer.output)
            && SameButIds(c.state.history, ToReplay(s.history))
  {
    PlaybackBy(w, s);
    var replayed := PlaybackHistory(w, s);
    hide PlaybackHistory;
    LastCallBy(w, replayed, input.(id := s.id), output);
    hide CallAndCheckVersion;
    hide ReplaySends;
    hide ReplayEnds;
    hide ReplayLeaves;
    hide Delivered;
  }

  // The second trial, exactly. Without a session it fails and the journal stays. With
  // one, that is sent what the replay sends, and then the input, unless the replay was
  // cut short by a failure that leaves the server broken.
  lemma RetryBy(w: World, s: State, input: Input, output: Output)
    requires s.status in {ServerShutdown, ServerInvalidSession}
    ensures SessionAt(w, s).None? ==>
            var c := Retry(w, s, input, output);
            !c.ok && c.state.history == s.history && c.state.sent == s.sent + SessionSends(w, s)
    ensures SessionAt(w, s).Some? ==>
            var c, id, moment := Retry(w, s, input, output), SessionId(w, s), ReplayAt(w, s);
            var journal := WithId(ToReplay(s.history), id);
            && c.state.sent == s.sent + SessionSends(w, s) + RetrySends(w, moment, journal, input.(id := id))
            && (c.ok <==> RetryAnswered(w, moment, |journal|))
            && (c.ok ==> c.state.id == id && c.state.status == ReplayLeaves(w, moment, |journal|)
                         && c.output == w.reply(ReplayEnds(w, moment, |journal|)).answer.output
                         && SameButIds(c.state.history, JournalAfter(ToReplay(s.history), input, c.output)))
            && (!c.ok ==> c.state.history == [])
  {
    var session := EnsureSession(w, s);
    SessionBy(w, s);
    SessionKeeps(w, s);
    SessionIffOk(w, s);
    SessionAnswered(w, s);
    hide EnsureSession;
    hide SessionSends;
    hide SessionId;
    hide SessionAt;
    hide PlaybackHistory;
    hide CallAndCheckVersion;
    hide RetrySends;
    hide RetryAnswered;
    hide ReplayEnds;
    hide ReplayLeaves;
    hide Answers;
    hide ToReplay;
    if session.ok {
      RetryInSession(w, session.state, input, output);
      var replayed := PlaybackHistory(w, session.state);
      var c := CallAndCheckVersion(w, replayed, input.(id := replayed.id), output);
      JournalAfterSame(c.state.history, ToReplay(s.history), input, session.state.id, c.output);
    }
  }

  // ---- The first trial.

  // The session with this id is lost: there is no connection, or the server crashes,
  // or it answers with another id.
  predicate LosesSession(reply: Reply, id: nat) {
    || reply.NotConnected?
    || (Delivered(reply) && reply.answer.Crashed?)
    || (Answers(reply) && reply.answer.output.id != id)
  }

  // It is lost by the next call in this session.
  predicate SessionLost(w: World, session: State) {
    w.hasFactory && LosesSession(w.reply(session.clock), session.id)
  }

  // What is left then.
  function Lost(w: World, session: State, input: Input): State {
    var reply := w.reply(session.clock);
    session.(status := if Answers(reply) then ServerInvalidSession else ServerShutdown,
             protocol := PROTOCOL,
             older := reply.Connected? && reply.older,
             pid := if reply.Connected? then reply.pid else 0,
             clock := session.clock + 1,
             contacts := session.contacts + 1,
             sent := session.sent + Sent(reply, input))
  }

  // The output of the first trial.
  function FirstOutput(w: World, session: State, output: Output): Output {
    var reply := w.reply(session.clock);
    if Answers(reply) then reply.answer.output else output.(id := 0)
  }

  lemma FirstTrialLost(w: World, session: State, mine: Input, output: Output)
    requires session.status.ServerOk? && mine.id == session.id && SessionLost(w, session)
    ensures var c := CallAndCheckVersion(w, session, mine, output.(id := 0));
            && c.output == FirstOutput(w, session, output)
            && (c.ok <==> Answers(w.reply(session.clock)))
            && (c.ok ==> c.output.id != mine.id && c.state.(status := ServerInvalidSession) == Lost(w, session, mine))
            && (!c.ok ==> c.state == Lost(w, session, mine))
  {
  }

  lemma FirstTrialKept(w: World, session: State, mine: Input, output: Output)
    requires session.status.ServerOk? && mine.id == session.id && !SessionLost(w, session)
    ensures var c := CallAndCheckVersion(w, session, mine, output.(id := 0));
            && (c.ok ==> c.state.status.ServerOk? && c.output.id == mine.id)
            && (!Broken(c.state.status) ==> c.state.status.ServerOk?)
            && (c.state.status.ServerOk? <==>
                  if w.hasFactory && !w.reply(session.clock).SerializationFailed? then Answers(w.reply(session.clock))
                  else session.protocol == PROTOCOL)
            && c.state.history == session.history && c.state.id == session.id
            && c.state.sent == session.sent + (if w.hasFactory then Sent(w.reply(session.clock), mine) else [])
  {
  }

  // Without a session a command fails. If the first trial loses the session, it is
  // what the retry makes of it. Otherwise it succeeds when it is answered, and also
  // when there was nothing to send it to and the protocol last seen is the client's.
  lemma CommandBy(w: World, s: State, input: Input, output: Output)
    ensures !EnsureSession(w, s).ok ==>
            EnsureCallCommand(w, s, input, output) == Called(EnsureSession(w, s).state, false, output)
    ensures var session := EnsureSession(w, s).state;
            var mine := input.(id := session.id);
            EnsureSession(w, s).ok && SessionLost(w, session) ==>
            EnsureCallCommand(w, s, input, output) ==
            Retry(w, Lost(w, session, mine), mine, FirstOutput(w, session, output))
    ensures var session, c := EnsureSession(w, s).state, EnsureCallCommand(w, s, input, output);
            EnsureSession(w, s).ok && !SessionLost(w, session) ==>
            var mine, reply := input.(id := session.id), w.reply(session.clock);
            && (c.ok <==> if w.hasFactory && !reply.SerializationFailed? then Answers(reply) else session.protocol == PROTOCOL)
            && c.state.history == (if c.ok then JournalAfter(s.history, mine, c.output) else s.history)
            && c.state.sent == session.sent + (if w.hasFactory then Sent(reply, mine) else [])
            && c.state.id == session.id
  {
    SessionIffOk(w, s);
    SessionKeeps(w, s);
    var session := EnsureSession(w, s);
    var mine := input.(id := session.state.id);
    hide EnsureSession;
    hide Retry;
    if session.ok {
      if SessionLost(w, session.state) {
        FirstTrialLost(w, session.state, mine, output);
      } else {
        FirstTrialKept(w, session.state, mine, output);
      }
    }
    hide CallAndCheckVersion;
    hide SessionLost;
    hide Lost;
    hide FirstOutput;
    hide Answers;
    hide Delivered;
  }

  // A command that loses its session, exactly: the new session is sent what it takes
  // to open it, the journal as far as it is answered, and then the input.
  lemma RetryTraffic(w: World, s: State, input: Input, output: Output)
    requires EnsureSession(w, s).ok && SessionLost(w, EnsureSession(w, s).state)
    ensures var session := EnsureSession(w, s).state;
            var c, lost := EnsureCallCommand(w, s, input, output), Lost(w, session, input.(id := session.id));
            && (SessionAt(w, lost).None? ==>
                  !c.ok && c.state.history == s.history && c.state.sent == lost.sent + SessionSends(w, lost))
            && (SessionAt(w, lost).Some? ==>
                  var id, moment := SessionId(w, lost), ReplayAt(w, lost);
                  var journal := WithId(ToReplay(s.history), id);
                  && c.state.sent == lost.sent + SessionSends(w, lost)
                                     + RetrySends(w, moment, journal, input.(id := id))
                  && (c.ok <==> RetryAnswered(w, moment, |journal|))
                  && (c.ok ==> SameButIds(c.state.history, JournalAfter(ToReplay(s.history), input, c.output)))
                  && (!c.ok ==> c.state.history == []))
  {
    var session := EnsureSession(w, s).state;
    var mine := input.(id := session.id);
    var lost := Lost(w, session, mine);
    CommandBy(w, s, input, output);
    SessionKeeps(w, s);
    hide EnsureSession;
    hide EnsureCallCommand;
    RetryBy(w, lost, mine, FirstOutput(w, session, output));
    hide Retry;
    hide SessionAt;
    hide SessionSends;
    hide SessionId;
    hide RetrySends;
    hide RetryAnswered;
    if SessionAt(w, lost).Some? {
      var c := EnsureCallCommand(w, s, input, output);
      JournalAfterSame(ToReplay(s.history), ToReplay(s.history), input, session.id, c.output);
    }
  }

  // ---- When all is well after the loss.

  // Every reply from this moment on is an answer, n of them.
  predicate AllAnswered(w: World, moment: nat, n: nat) {
    forall i: nat :: moment <= i < moment + n ==> Answers(w.reply(i))
  }

  lemma ReplayAnswered(w: World, moment: nat, inputs: seq<Input>, input: Input)
    requires AllAnswered(w, moment, |inputs| + 1)
    ensures RetrySends(w, moment, inputs, input) == inputs + [input] && RetryAnswered(w, moment, |inputs|)
  {
    var k := AnsweredRun(w, moment, |inputs|);
    assert Answers(w.reply(moment + k));
    assert k == |inputs|;
    assert inputs[..k] == inputs;
  }

  // ---- When a replay is cut short.

  // A call that is not answered, but leaves a status the server can be called in.
  predicate FailsUnbroken(reply: Reply) {
    !Answers(reply) && !Broken(StatusAfter(ServerOk, reply))
  }

  // The command succeeds all the same, in a session that was not sent the rest of the
  // journal, exactly when the call that fails leaves the status unbroken and the next
  // one is answered.
  lemma SucceedsAfterPartOfJournal(w: World, moment: nat, n: nat)
    ensures var k := AnsweredRun(w, moment, n);
            k < n ==> (RetryAnswered(w, moment, n) <==>
                       FailsUnbroken(w.reply(moment + k)) && Answers(w.reply(moment + k + 1)))
    ensures forall reply :: FailsUnbroken(reply) <==>
              || reply.SerializationFailed? || reply.NotConnected?
              || (reply.Connected? && (reply.protocol != PROTOCOL || reply.answer.Crashed?))
  {
    hide AnsweredRun;
  }
}
