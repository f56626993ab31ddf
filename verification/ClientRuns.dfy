// Whole runs of the client's operations: what the journal holds after any of them, and
// what a new session is sent of it when the session is lost.
module ClientRuns {
  import opened Options
  import opened ClientState
  import opened ClientSession
  import opened ClientReplay

  datatype Op =
    | Connect
    | OpenSession
    | Send(input: Input, output: Output)    // SendKey, TestSendKey and SendCommand
    | Command(kind: Kind, payload: nat)     // CallCommand and what is made of it
    | CloseSession
    | CheckOrRestart
    | ShutDown
    | StartOver                             // Reset

  function Step(w: World, s: State, op: Op): State {
    match op
    case Connect => EnsureConnection(w, s).state
    case OpenSession => EnsureSession(w, s).state
    case Send(input, output) => EnsureCallCommand(w, s, input, output).state
    case Command(kind, payload) => CallCommand(w, s, kind, payload).state
    case CloseSession => DeleteSession(w, s).state
    case CheckOrRestart => CheckVersionOrRestartServer(w, s).state
    case ShutDown => Shutdown(w, s).state
    case StartOver => Reset(s)
  }

  function Steps(w: World, s: State, ops: seq<Op>): State {
    if ops == [] then s else Step(w, Steps(w, s, ops[..|ops| - 1]), ops[|ops| - 1])
  }

  lemma StepsMore(w: World, s: State, ops: seq<Op>, op: Op)
    ensures Steps(w, s, ops + [op]) == Step(w, Steps(w, s, ops), op)
  {
    assert (ops + [op])[..|ops|] == ops;
  }

  // ---- The log of a run.

  // An input that a command succeeded with, and its output; or a journal that was
  // dropped because it was full when it should have been replayed; or a second trial
  // that failed.
  datatype Entry = Processed(input: Input, output: Output) | Dropped | Failed

  // A session was lost and a new one opened in its place.
  predicate Reopened(w: World, s: State, input: Input) {
    var session := EnsureSession(w, s);
    && session.ok && SessionLost(w, session.state)
    && SessionAt(w, Lost(w, session.state, input.(id := session.state.id))).Some?
  }

  function Entries(w: World, s: State, op: Op): seq<Entry> {
    if !op.Send? then []
    else
      var c, reopened := EnsureCallCommand(w, s, op.input, op.output), Reopened(w, s, op.input);
      (if reopened && |s.history| >= MAX_PLAYBACK then [Dropped] else [])
      + (if c.ok then [Processed(op.input, c.output)] else if reopened then [Failed] else [])
  }

  function Log(w: World, s: State, ops: seq<Op>): seq<Entry> {
    if ops == [] then []
    else Log(w, s, ops[..|ops| - 1]) + Entries(w, Steps(w, s, ops[..|ops| - 1]), ops[|ops| - 1])
  }

  // ---- The journal told from the log.

  // What commits: a consumed key that has a result.
  predicate Commits(e: Entry) {
    e.Processed? && e.output.consumed && e.input.kind.SendKeyKind? && e.output.hasResult
  }

  predicate Boundary(e: Entry) {
    Commits(e) || e.Dropped? || e.Failed?
  }

  // Where the last commit or reset ends.
  function LastBoundary(log: seq<Entry>): (b: nat)
    ensures b <= |log| && (b > 0 ==> Boundary(log[b - 1])) && forall k :: b <= k < |log| ==> !Boundary(log[k])
  {
    if log == [] then 0
    else if Boundary(log[|log| - 1]) then |log|
    else LastBoundary(log[..|log| - 1])
  }

  function ConsumedInputs(log: seq<Entry>): seq<Input> {
    if log == [] then []
    else
      var e := log[|log| - 1];
      ConsumedInputs(log[..|log| - 1]) + (if e.Processed? && e.output.consumed then [e.input] else [])
  }

  function FirstOf(inputs: seq<Input>, n: nat): seq<Input> {
    if |inputs| <= n then inputs else inputs[..n]
  }

  // The first 512 consumed inputs since the last commit or reset.
  function JournalOf(log: seq<Entry>): seq<Input> {
    FirstOf(ConsumedInputs(log[LastBoundary(log)..]), MAX_PLAYBACK)
  }

  lemma JournalOfMore(log: seq<Entry>, e: Entry)
    ensures JournalOf(log + [e]) == if e.Processed? then JournalAfter(JournalOf(log), e.input, e.output) else []
  {
    var more := log + [e];
    assert more[..|log|] == log;
    if Boundary(e) {
      assert more[LastBoundary(more)..] == [];
    } else {
      var b := LastBoundary(log);
      assert LastBoundary(more) == b;
      assert more[b..][..|more| - b - 1] == log[b..];
    }
  }

  // ---- What the journal holds.

  lemma StepKeepsJournal(w: World, s: State, op: Op)
    requires !op.Send?
    ensures Step(w, s, op).history == s.history
  {
    match op {
      case Connect => ConnectionOrFatal(w, s);
      case OpenSession => SessionKeeps(w, s);
      case CheckOrRestart =>
        CheckVersionKeeps(w, s, Input(0, NoOperationKind, 0), NO_OUTPUT, TRIALS);
        hide CheckVersion;
      case _ =>
    }
  }

  lemma SendJournal(w: World, s: State, log: seq<Entry>, input: Input, output: Output)
    requires SameButIds(s.history, JournalOf(log))
    ensures SameButIds(EnsureCallCommand(w, s, input, output).state.history,
                       JournalOf(log + Entries(w, s, Send(input, output))))
  {
    var session, c := EnsureSession(w, s), EnsureCallCommand(w, s, input, output);
    CommandBy(w, s, input, output);
    SessionKeeps(w, s);
    hide EnsureSession;
    hide EnsureCallCommand;
    hide Retry;
    var entries := Entries(w, s, Send(input, output));
    var journal := JournalOf(log);
    SameWithId(s.history, journal, 0);
    if session.ok && SessionLost(w, session.state) {
      RetryTraffic(w, s, input, output);
    }
    hide JournalOf;
    hide SessionLost;
    hide Lost;
    hide SessionAt;
    hide JournalAfter;
    if Reopened(w, s, input) {
      ReopenedJournal(log, s.history, input, c);
    } else if c.ok {
      assert entries == [Processed(input, c.output)];
      JournalOfMore(log, Processed(input, c.output));
      JournalAfterSame(s.history, journal, input, session.state.id, c.output);
    } else {
      assert log + entries == log;
    }
  }

  lemma ReopenedJournal(log: seq<Entry>, history: seq<Input>, input: Input, c: Called)
    requires SameButIds(history, JournalOf(log))
    requires if c.ok then SameButIds(c.state.history, JournalAfter(ToReplay(history), input, c.output))
             else c.state.history == []
    ensures var entries := (if |history| >= MAX_PLAYBACK then [Dropped] else [])
                           + (if c.ok then [Processed(input, c.output)] else [Failed]);
            SameButIds(c.state.history, JournalOf(log + entries))
  {
    var last := if c.ok then Processed(input, c.output) else Failed;
    var before := if |history| >= MAX_PLAYBACK then log + [Dropped] else log;
    JournalOfMore(log, Dropped);
    JournalOfMore(before, last);
    JournalAfterSame(ToReplay(history), JournalOf(before), input, input.id, c.output);
    hide JournalOf;
    hide JournalAfter;
    assert input.(id := input.id) == input;
    assert before + [last] == log + ((if |history| >= MAX_PLAYBACK then [Dropped] else []) + [last]);
  }

  // After any run of operations of a client just made, the journal holds, ids aside,
  // the first 512 consumed inputs since the last commit or reset.
  lemma {:induction false} JournalOverRuns(w: World, request: Option<nat>, ops: seq<Op>)
    ensures SameButIds(Steps(w, Fresh(request), ops).history, JournalOf(Log(w, Fresh(request), ops)))
  {
    hide Step;
    hide Entries;
    if ops != [] {
      var before, op := ops[..|ops| - 1], ops[|ops| - 1];
      JournalOverRuns(w, request, before);
      var s, log := Steps(w, Fresh(request), before), Log(w, Fresh(request), before);
      if op.Send? {
        SendStep(w, s, log, op);
      } else {
        StepKeepsJournal(w, s, op);
        NoEntries(w, s, log, op);
      }
    }
  }

  lemma SendStep(w: World, s: State, log: seq<Entry>, op: Op)
    requires SameButIds(s.history, JournalOf(log)) && op.Send?
    ensures SameButIds(Step(w, s, op).history, JournalOf(log + Entries(w, s, op)))
  {
    SendJournal(w, s, log, op.input, op.output);
    hide EnsureCallCommand;
    hide JournalOf;
    hide Entries;
  }

  lemma NoEntries(w: World, s: State, log: seq<Entry>, op: Op)
    requires !op.Send?
    ensures log + Entries(w, s, op) == log
  {
  }

  // ---- The mode.

  // The mode of the last consumed input that has one.
  function ModeOf(log: seq<Entry>): nat {
    if log == [] then 0
    else
      var e := log[|log| - 1];
      if e.Processed? && e.output.consumed && e.output.mode.Some? then e.output.mode.value else ModeOf(log[..|log| - 1])
  }

  lemma {:induction false} ReplayKeepsMode(w: World, s: State, from: nat)
    ensures Replay(w, s, from).lastMode == s.lastMode
    decreases |s.history| - from
  {
    if from < |s.history| {
      var input := s.history[from].(id := s.id);
      var s1 := s.(history := s.history[from := input]);
      CallKeepsHistory(w, s1, input, NO_OUTPUT);
      var c := Call(w, s1, input, NO_OUTPUT);
      hide Call;
      if c.ok {
        ReplayKeepsMode(w, c.state, from + 1);
      }
    }
  }

  // The mode after an input with this output.
  function ModeAfter(mode: nat, c: Called): nat {
    if c.ok && c.output.consumed && c.output.mode.Some? then c.output.mode.value else mode
  }

  lemma RetryMode(w: World, s: State, input: Input, output: Output)
    ensures var c := Retry(w, s, input, output); c.state.lastMode == ModeAfter(s.lastMode, c)
  {
    var session := EnsureSession(w, s);
    SessionKeeps(w, s);
    hide EnsureSession;
    ReplayKeepsMode(w, session.state, 0);
    hide Replay;
    var replayed := PlaybackHistory(w, session.state);
    CallKeepsHistory(w, replayed, input.(id := replayed.id), output);
    hide Call;
  }

  lemma CommandMode(w: World, s: State, input: Input, output: Output)
    ensures var c := EnsureCallCommand(w, s, input, output); c.state.lastMode == ModeAfter(s.lastMode, c)
  {
    var session := EnsureSession(w, s);
    SessionKeeps(w, s);
    hide EnsureSession;
    var mine := input.(id := session.state.id);
    var c := CallAndCheckVersion(w, session.state, mine, output.(id := 0));
    CallKeepsHistory(w, session.state, mine, output.(id := 0));
    hide Call;
    RetryMode(w, c.state, mine, c.output);
    RetryMode(w, c.state.(status := ServerInvalidSession), mine, c.output);
    hide Retry;
  }

  lemma StepMode(w: World, s: State, log: seq<Entry>, op: Op)
    requires s.lastMode == ModeOf(log)
    ensures Step(w, s, op).lastMode == ModeOf(log + Entries(w, s, op))
  {
    if op.Send? {
      CommandMode(w, s, op.input, op.output);
      hide EnsureCallCommand;
      hide Reopened;
      EntriesMode(w, s, log, op);
    } else {
      NoEntries(w, s, log, op);
      match op {
        case Connect => ConnectionOrFatal(w, s);
        case OpenSession => SessionKeeps(w, s);
        case CheckOrRestart =>
          CheckVersionKeeps(w, s, Input(0, NoOperationKind, 0), NO_OUTPUT, TRIALS);
          hide CheckVersion;
        case _ =>
      }
    }
  }

  lemma EntriesMode(w: World, s: State, log: seq<Entry>, op: Op)
    requires op.Send?
    ensures ModeOf(log + Entries(w, s, op)) == ModeAfter(ModeOf(log), EnsureCallCommand(w, s, op.input, op.output))
  {
    hide EnsureCallCommand;
    hide Reopened;
    var entries := Entries(w, s, op);
    assert |entries| <= 2;
    if |entries| == 2 {
      assert entries == [entries[0], entries[1]];
      assert (log + entries)[..|log| + 1] == log + [entries[0]];
      assert (log + [entries[0]])[..|log|] == log;
    } else if |entries| == 1 {
      assert (log + entries)[..|log|] == log;
    } else {
      assert log + entries == log;
    }
  }

  // After any run of a client just made, the mode it remembers is that of the last
  // consumed input that had one.
  lemma {:induction false} ModeOverRuns(w: World, request: Option<nat>, ops: seq<Op>)
    ensures Steps(w, Fresh(request), ops).lastMode == ModeOf(Log(w, Fresh(request), ops))
  {
    hide Step;
    hide Entries;
    if ops != [] {
      var before := ops[..|ops| - 1];
      ModeOverRuns(w, request, before);
      StepMode(w, Steps(w, Fresh(request), before), Log(w, Fresh(request), before), ops[|ops| - 1]);
    }
  }

  // ---- What a new session is sent after any run.

  // When a command of any run loses its session and a new one is opened, this is what
  // the new one is sent, exactly: what it takes to open it; the first 512 consumed
  // inputs since the last commit or reset, or none of them if there are 512, as far
  // as they are answered; and the input that met the loss.
  lemma NewSessionTraffic(w: World, request: Option<nat>, ops: seq<Op>, input: Input, output: Output)
    requires Reopened(w, Steps(w, Fresh(request), ops), input)
    ensures var s := Steps(w, Fresh(request), ops);
            var c, session := EnsureCallCommand(w, s, input, output), EnsureSession(w, s).state;
            var lost := Lost(w, session, input.(id := session.id));
            var id, moment := SessionId(w, lost), ReplayAt(w, lost);
            var journal := WithId(ToReplay(JournalOf(Log(w, Fresh(request), ops))), id);
            && c.state.sent == lost.sent + SessionSends(w, lost) + RetrySends(w, moment, journal, input.(id := id))
            && (c.ok <==> RetryAnswered(w, moment, |journal|))
  {
    var s, log := Steps(w, Fresh(request), ops), Log(w, Fresh(request), ops);
    JournalOverRuns(w, request, ops);
    RetryTraffic(w, s, input, output);
    SameWithId(s.history, JournalOf(log), 0);
    hide Steps;
    hide Log;
    hide JournalOf;
    hide SessionLost;
    var session := EnsureSession(w, s).state;
    hide EnsureSession;
    hide EnsureCallCommand;
    var lost := Lost(w, session, input.(id := session.id));
    hide Lost;
    hide SessionAt;
    hide SessionSends;
    hide ReplayAt;
    var id := SessionId(w, lost);
    hide SessionId;
    hide RetrySends;
    hide RetryAnswered;
    SameWithId(ToReplay(s.history), ToReplay(JournalOf(log)), id);
  }

  // When everything is answered from then on, the command succeeds and the whole
  // journal has gone before its input.
  lemma NewSessionReceivesJournal(w: World, request: Option<nat>, ops: seq<Op>, input: Input, output: Output)
    requires Reopened(w, Steps(w, Fresh(request), ops), input)
    ensures var s := Steps(w, Fresh(request), ops);
            var c, session := EnsureCallCommand(w, s, input, output), EnsureSession(w, s).state;
            var lost := Lost(w, session, input.(id := session.id));
            var id, journal := SessionId(w, lost), ToReplay(JournalOf(Log(w, Fresh(request), ops)));
            AllAnswered(w, ReplayAt(w, lost), |journal| + 1) ==>
            && c.ok
            && c.state.sent == lost.sent + SessionSends(w, lost) + (WithId(journal, id) + [input.(id := id)])
  {
    var s := Steps(w, Fresh(request), ops);
    NewSessionTraffic(w, request, ops, input, output);
    var session := EnsureSession(w, s).state;
    var lost := Lost(w, session, input.(id := session.id));
    var id, journal := SessionId(w, lost), ToReplay(JournalOf(Log(w, Fresh(request), ops)));
    hide EnsureSession;
    hide EnsureCallCommand;
    hide Steps;
    hide Log;
    hide JournalOf;
    hide Lost;
    hide SessionAt;
    hide SessionSends;
    hide SessionId;
    hide RetrySends;
    hide RetryAnswered;
    if AllAnswered(w, ReplayAt(w, lost), |journal| + 1) {
      ReplayAnswered(w, ReplayAt(w, lost), WithId(journal, id), input.(id := id));
    }
  }

  // ---- Runs that lose their session.

  // A server that gives a session of id 7, and from moment 4 on one of id 8, and that
  // there is no connection to at one moment.
  function Server(down: nat): World {
    World(true,
          n => if n == down then NotConnected
               else Connected(PROTOCOL, false, 1, Answered(Output(if n < 4 then 7 else 8, true, true, None, false))),
          _ => true, _ => true, _ => true)
  }

  const KEY_A := Input(0, SendKeyKind, 1)
  const KEY_B := Input(0, SendKeyKind, 2)

  // What the first key leaves.
  const FIRST := State(ServerOk, 7, [KEY_A.(id := 7)], 0, Some(0), PROTOCOL, false, 1, [], 4, 3,
                       [CREATE, Input(7, SetRequestKind, 0), KEY_A.(id := 7)])

  lemma FirstKey(down: nat)
    requires down >= 4
    ensures EnsureCallCommand(Server(down), Fresh(Some(0)), KEY_A, NO_OUTPUT).state == FIRST
  {
    var w, s := Server(down), Fresh(Some(0));
    var connected := s.(status := ServerInvalidSession, clock := 1);
    assert EnsureConnection(w, s) == Done(connected, true);
    var created := connected.(protocol := PROTOCOL, older := false, pid := 1, clock := 2, contacts := 1,
                              sent := [CREATE]);
    assert Call(w, connected, CREATE, NO_OUTPUT).state == created;
    assert CreateSession(w, connected) == Done(created.(id := 7), true);
    var session := created.(id := 7, status := ServerOk, clock := 3, contacts := 2,
                            sent := [CREATE, Input(7, SetRequestKind, 0)]);
    assert EnsureSession(w, s) == Done(session, true);
  }

  lemma SecondSession(down: nat)
    requires down == 7 || down > 8
    ensures EnsureSession(Server(down), FIRST) == Done(FIRST, true) && SessionLost(Server(down), FIRST)
    ensures var lost := Lost(Server(down), FIRST, KEY_B.(id := 7));
            && lost.sent == FIRST.sent + [KEY_B.(id := 7)]
            && SessionAt(Server(down), lost) == Some(5) && SessionId(Server(down), lost) == 8
            && ReplayAt(Server(down), lost) == 7
            && SessionSends(Server(down), lost) == [CREATE, Input(8, SetRequestKind, 0)]
  {
  }

  lemma SecondReplay(down: nat)
    requires down == 7 || down > 8
    ensures RetryAnswered(Server(down), 7, 1)
    ensures RetrySends(Server(down), 7, [KEY_A.(id := 8)], KEY_B.(id := 8)) ==
            (if down == 7 then [] else [KEY_A.(id := 8)]) + [KEY_B.(id := 8)]
  {
    var w := Server(down);
    assert AnsweredRun(w, 7, 1) == if down == 7 then 0 else 1;
    assert ReplayEnds(w, 7, 1) == 8;
  }

  lemma SecondKey(down: nat)
    requires down == 7 || down > 8
    ensures Reopened(Server(down), FIRST, KEY_B)
    ensures var c := EnsureCallCommand(Server(down), FIRST, KEY_B, NO_OUTPUT);
            && c.ok
            && c.state.sent == FIRST.sent + [KEY_B.(id := 7), CREATE, Input(8, SetRequestKind, 0)]
                               + (if down == 7 then [] else [KEY_A.(id := 8)]) + [KEY_B.(id := 8)]
  {
    hide Server;
    hide Lost;
    hide EnsureSession;
    hide EnsureCallCommand;
    hide SessionLost;
    hide SessionAt;
    hide SessionId;
    hide SessionSends;
    hide ReplayAt;
    hide RetrySends;
    hide RetryAnswered;
    SecondSession(down);
    SecondReplay(down);
    assert WithId(ToReplay(FIRST.history), 8) == [KEY_A.(id := 8)];
    RetryTraffic(Server(down), FIRST, KEY_B, NO_OUTPUT);
  }

  lemma FirstStep(down: nat)
    requires down >= 4
    ensures Steps(Server(down), Fresh(Some(0)), [Send(KEY_A, NO_OUTPUT)]) == FIRST
  {
    FirstKey(down);
    hide EnsureCallCommand;
    hide Server;
    var op := Send(KEY_A, NO_OUTPUT);
    StepsMore(Server(down), Fresh(Some(0)), [], op);
    assert [] + [op] == [op];
  }

  // Two keys are sent to a client just made; the second finds another server. That has
  // been sent both when it is done, but only the second, with the same success, if the
  // connection was down at the moment of the replay.
  lemma SecondKeyFindsAnotherServer(down: nat)
    requires down == 7 || down > 8
    ensures var w := Server(down);
            var s := Steps(w, Fresh(Some(0)), [Send(KEY_A, NO_OUTPUT)]);
            var c := EnsureCallCommand(w, s, KEY_B, NO_OUTPUT);
            && s.sent == [CREATE, Input(7, SetRequestKind, 0), KEY_A.(id := 7)]
            && Reopened(w, s, KEY_B) && c.ok
            && c.state.sent == s.sent + [KEY_B.(id := 7), CREATE, Input(8, SetRequestKind, 0)]
                               + (if down == 7 then [] else [KEY_A.(id := 8)]) + [KEY_B.(id := 8)]
  {
    FirstStep(down);
    SecondKey(down);
    hide EnsureCallCommand;
    hide Reopened;
    hide Steps;
    hide Server;
  }
}
