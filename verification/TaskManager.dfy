// TaskManager of src/base/thread.h as a step relation, with a BackgroundFuture<void>
// for each scheduled body: a thread that runs the body, then notifies. Any number of threads
// call Schedule, IsRunning and Wait; the bodies themselves do not.
module TaskManager {
  import opened Options

  type Caller = nat
  type Body = nat

  // The thread of a BackgroundFuture.
  datatype Stage = Spawned | Running | Returned | Notified | Exited

  datatype Worker = Worker(body: Body, stage: Stage)

  // Where a caller is. All but the first four have mutex_ locked.
  datatype Pc =
    | Idle
    | WantsSchedule(body: Body)
    | WantsIsRunning
    | WantsWait
    | Scheduling(body: Body) // about to wait for what task_ holds
    | Emplacing(body: Body)  // about to destroy it, which joins its thread
    | Creating(body: Body)   // about to construct the new one
    | Scheduled              // about to unlock
    | Asking
    | Asked(running: bool)   // about to unlock and return this
    | Waiting
    | Resetting
    | Waited                 // about to unlock and return

  // The logs: the bodies in the order their Schedule calls locked mutex_, and in
  // the orders they began and ended.
  datatype State = State(
    callers: map<Caller, Pc>,
    holder: Option<Caller>,    // the caller that has mutex_ locked
    workers: seq<Worker>,      // every thread created so far
    task: Option<nat>,         // task_, as an index of workers
    taken: seq<Body>,
    begun: seq<Body>,
    ended: seq<Body>
  )

  datatype Action =
    | Call(c: Caller, pc: Pc)
    | Lock(c: Caller)
    | Step(c: Caller)
    | Work(w: nat)

  predicate Wants(pc: Pc) {
    pc.WantsSchedule? || pc.WantsIsRunning? || pc.WantsWait?
  }

  predicate TaskIs(s: State, stages: set<Stage>) {
    s.task.Some? ==> s.task.value < |s.workers| && s.workers[s.task.value].stage in stages
  }

  // Waiting is for the notification, destroying for the thread's exit.
  predicate Enabled(s: State, a: Action) {
    match a
    case Call(c, pc) => (c in s.callers ==> s.callers[c].Idle?) && Wants(pc)
    case Lock(c) => c in s.callers && Wants(s.callers[c]) && s.holder.None?
    case Step(c) =>
      && c in s.callers && !s.callers[c].Idle? && !Wants(s.callers[c])
      && (s.callers[c].Scheduling? || s.callers[c].Waiting? ==> TaskIs(s, {Notified, Exited}))
      && (s.callers[c].Emplacing? || s.callers[c].Resetting? ==> TaskIs(s, {Exited}))
    case Work(w) => w < |s.workers| && !s.workers[w].stage.Exited?
  }

  function Goes(s: State, c: Caller, pc: Pc): State {
    s.(callers := s.callers[c := pc])
  }

  function AfterLock(s: State, c: Caller): State
    requires Enabled(s, Lock(c))
  {
    var locked := s.(holder := Some(c));
    match s.callers[c]
    case WantsSchedule(body) => Goes(locked.(taken := s.taken + [body]), c, Scheduling(body))
    case WantsIsRunning => Goes(locked, c, Asking)
    case _ => Goes(locked, c, Waiting)
  }

  function AfterStep(s: State, c: Caller): State
    requires Enabled(s, Step(c))
  {
    match s.callers[c]
    case Scheduling(body) => Goes(s, c, Emplacing(body))
    case Emplacing(body) => Goes(s.(task := None), c, Creating(body))
    case Creating(body) =>
      Goes(s.(workers := s.workers + [Worker(body, Spawned)], task := Some(|s.workers|)), c, Scheduled)
    case Asking => Goes(s, c, Asked(s.task.Some? && !TaskIs(s, {Notified, Exited})))
    case Waiting => Goes(s, c, Resetting)
    case Resetting => Goes(s.(task := None), c, Waited)
    case _ => Goes(s.(holder := None), c, Idle)
  }

  function AfterWork(s: State, w: nat): State
    requires Enabled(s, Work(w))
  {
    var worker := s.workers[w];
    match worker.stage
    case Spawned => s.(workers := s.workers[w := worker.(stage := Running)], begun := s.begun + [worker.body])
    case Running => s.(workers := s.workers[w := worker.(stage := Returned)], ended := s.ended + [worker.body])
    case Returned => s.(workers := s.workers[w := worker.(stage := Notified)])
    case _ => s.(workers := s.workers[w := worker.(stage := Exited)])
  }

  function Apply(s: State, a: Action): State
    requires Enabled(s, a)
  {
    match a
    case Call(c, pc) => Goes(s, c, pc)
    case Lock(c) => AfterLock(s, c)
    case Step(c) => AfterStep(s, c)
    case Work(w) => AfterWork(s, w)
  }

  const INITIAL := State(map[], None, [], None, [], [], [])

  ghost predicate Run(states: seq<State>, actions: seq<Action>) {
    && |states| == |actions| + 1
    && states[0] == INITIAL
    && forall i :: 0 <= i < |actions| ==> Enabled(states[i], actions[i]) && states[i + 1] == Apply(states[i], actions[i])
  }

  ghost predicate Reachable(s: State) {
    exists states, actions :: Run(states, actions) && s == states[|states| - 1]
  }

  // ---- The invariant.

  function Bodies(workers: seq<Worker>): (bodies: seq<Body>)
    ensures |bodies| == |workers|
  {
    seq(|workers|, k requires 0 <= k < |workers| => workers[k].body)
  }

  predicate Locked(pc: Pc) {
    !pc.Idle? && !Wants(pc)
  }

  // A body taken but whose thread is not yet created.
  function Pending(s: State): seq<Body> {
    if s.holder.Some? && s.holder.value in s.callers then
      match s.callers[s.holder.value]
      case Scheduling(body) => [body]
      case Emplacing(body) => [body]
      case Creating(body) => [body]
      case _ => []
    else []
  }

  // Without a task every thread has exited, and with one it is the last and every
  // thread before it has.
  ghost predicate WorkersOk(s: State) {
    && (s.task.Some? ==> s.workers != [] && s.task.value == |s.workers| - 1)
    && forall w :: 0 <= w < |s.workers| && s.task != Some(w) ==> s.workers[w].stage.Exited?
  }

  // The logs, by how far the last thread has come.
  ghost predicate LogsOk(s: State) {
    var bodies := Bodies(s.workers);
    var n := |bodies|;
    && (s.begun == if n > 0 && s.workers[n - 1].stage.Spawned? then bodies[..n - 1] else bodies)
    && (s.ended == if n > 0 && (s.workers[n - 1].stage.Spawned? || s.workers[n - 1].stage.Running?) then bodies[..n - 1] else bodies)
  }

  ghost predicate HolderOk(s: State) {
    && (forall c :: c in s.callers ==> (Locked(s.callers[c]) <==> s.holder == Some(c)))
    && (s.holder.Some? ==> s.holder.value in s.callers)
    && (s.holder.Some? ==>
          var pc := s.callers[s.holder.value];
          && (pc.Creating? || pc.Waited? ==> s.task.None?)
          && (pc.Emplacing? || pc.Resetting? ==> TaskIs(s, {Notified, Exited}))
          && (pc == Asked(false) ==> TaskIs(s, {Notified, Exited})))
  }

  ghost predicate TakenOk(s: State) {
    s.taken == Bodies(s.workers) + Pending(s)
  }

  ghost predicate Inv(s: State) {
    WorkersOk(s) && LogsOk(s) && HolderOk(s) && TakenOk(s)
  }

  lemma InvInitially()
    ensures Inv(INITIAL)
  {
  }

  lemma CallKept(s: State, c: Caller, pc: Pc)
    requires Inv(s) && Enabled(s, Call(c, pc))
    ensures Inv(Apply(s, Call(c, pc)))
  {
  }

  // A change of neither threads nor logs.
  lemma LogsKept(s: State, s': State)
    requires LogsOk(s) && s'.workers == s.workers && s'.begun == s.begun && s'.ended == s.ended
    ensures LogsOk(s')
  {
  }

  lemma LockKept(s: State, c: Caller)
    requires Inv(s) && Enabled(s, Lock(c))
    ensures Inv(Apply(s, Lock(c)))
  {
    var s' := Apply(s, Lock(c));
    LogsKept(s, s');
    LockHolder(s, c);
    LockTaken(s, c);
    hide LogsOk;
    hide HolderOk;
    hide TakenOk;
  }

  lemma LockHolder(s: State, c: Caller)
    requires HolderOk(s) && Enabled(s, Lock(c))
    ensures HolderOk(Apply(s, Lock(c)))
  {
  }

  lemma LockTaken(s: State, c: Caller)
    requires TakenOk(s) && Enabled(s, Lock(c))
    ensures TakenOk(Apply(s, Lock(c)))
  {
    hide Bodies;
  }

  // A step of a caller, with mutex_ locked.
  lemma StepHolder(s: State, c: Caller)
    requires HolderOk(s) && Enabled(s, Step(c))
    ensures HolderOk(Apply(s, Step(c)))
  {
  }

  lemma StepWorkers(s: State, c: Caller)
    requires WorkersOk(s) && HolderOk(s) && Enabled(s, Step(c))
    ensures WorkersOk(Apply(s, Step(c)))
  {
  }

  lemma StepTaken(s: State, c: Caller)
    requires TakenOk(s) && HolderOk(s) && Enabled(s, Step(c))
    ensures TakenOk(Apply(s, Step(c)))
  {
    var s' := Apply(s, Step(c));
    if s.callers[c].Creating? {
      assert Bodies(s'.workers) == Bodies(s.workers) + [s.callers[c].body];
    }
    hide Bodies;
  }

  lemma StepLogs(s: State, c: Caller)
    requires LogsOk(s) && WorkersOk(s) && HolderOk(s) && Enabled(s, Step(c))
    ensures LogsOk(Apply(s, Step(c)))
  {
    var s' := Apply(s, Step(c));
    if s.callers[c].Creating? {
      var bodies := Bodies(s.workers);
      assert Bodies(s'.workers)[..|bodies|] == bodies;
    } else {
      LogsKept(s, s');
    }
  }

  lemma StepKept(s: State, c: Caller)
    requires Inv(s) && Enabled(s, Step(c))
    ensures Inv(Apply(s, Step(c)))
  {
    hide WorkersOk;
    hide LogsOk;
    hide HolderOk;
    hide TakenOk;
    hide Apply;
    StepHolder(s, c);
    StepWorkers(s, c);
    StepTaken(s, c);
    StepLogs(s, c);
  }

  // Only the thread behind task_ takes steps.
  lemma WorkIsLast(s: State, w: nat)
    requires WorkersOk(s) && Enabled(s, Work(w))
    ensures s.task == Some(w) && w == |s.workers| - 1
  {
  }

  lemma SameBodies(workers: seq<Worker>, w: nat, stage: Stage)
    requires w < |workers|
    ensures Bodies(workers[w := workers[w].(stage := stage)]) == Bodies(workers)
  {
  }

  lemma WorkLogs(s: State, w: nat)
    requires LogsOk(s) && WorkersOk(s) && Enabled(s, Work(w))
    ensures LogsOk(Apply(s, Work(w)))
  {
    WorkIsLast(s, w);
    var s', bodies := Apply(s, Work(w)), Bodies(s.workers);
    SameBodies(s.workers, w, s'.workers[w].stage);
    assert bodies == bodies[..w] + [s.workers[w].body];
    hide Bodies;
  }

  lemma WorkHolder(s: State, w: nat)
    requires HolderOk(s) && WorkersOk(s) && Enabled(s, Work(w))
    ensures HolderOk(Apply(s, Work(w)))
  {
    WorkIsLast(s, w);
  }

  lemma WorkWorkers(s: State, w: nat)
    requires WorkersOk(s) && Enabled(s, Work(w))
    ensures WorkersOk(Apply(s, Work(w)))
  {
    WorkIsLast(s, w);
  }

  lemma WorkTaken(s: State, w: nat)
    requires TakenOk(s) && Enabled(s, Work(w))
    ensures TakenOk(Apply(s, Work(w)))
  {
    SameBodies(s.workers, w, Apply(s, Work(w)).workers[w].stage);
    hide Bodies;
  }

  lemma WorkKept(s: State, w: nat)
    requires Inv(s) && Enabled(s, Work(w))
    ensures Inv(Apply(s, Work(w)))
  {
    hide WorkersOk;
    hide LogsOk;
    hide HolderOk;
    hide TakenOk;
    hide Apply;
    WorkWorkers(s, w);
    WorkLogs(s, w);
    WorkHolder(s, w);
    WorkTaken(s, w);
  }

  lemma InvKept(s: State, a: Action)
    requires Inv(s) && Enabled(s, a)
    ensures Inv(Apply(s, a))
  {
    hide Inv;
    hide Enabled;
    hide Apply;
    match a
    case Call(c, pc) => CallKept(s, c, pc);
    case Lock(c) => LockKept(s, c);
    case Step(c) => StepKept(s, c);
    case Work(w) => WorkKept(s, w);
  }

  lemma {:induction false} InvAlong(states: seq<State>, actions: seq<Action>, n: nat)
    requires Run(states, actions) && n < |states|
    ensures Inv(states[n])
  {
    hide Inv;
    hide Enabled;
    hide Apply;
    if n == 0 {
      InvInitially();
    } else {
      InvAlong(states, actions, n - 1);
      InvKept(states[n - 1], actions[n - 1]);
    }
  }

  lemma InvReachable(s: State)
    requires Reachable(s)
    ensures Inv(s)
  {
    var states, actions :| Run(states, actions) && s == states[|states| - 1];
    InvAlong(states, actions, |states| - 1);
  }

  // ---- What every run keeps.

  // Bodies begin in the order their Schedule calls locked mutex_, each after the one
  // before it has ended: no two ever run at once.
  lemma OneAtATimeInOrder(s: State)
    requires Reachable(s)
    ensures s.ended <= s.begun <= s.taken
    ensures |s.ended| <= |s.begun| <= |s.ended| + 1 && |s.begun| <= |s.taken| <= |s.ended| + 2
    ensures forall v, w :: 0 <= v < |s.workers| && 0 <= w < |s.workers| && s.workers[v].stage.Running? && s.workers[w].stage.Running? ==> v == w
  {
    InvReachable(s);
  }

  // Which of the three calls a caller is in.
  datatype Kind = NoCall | InSchedule | InIsRunning | InWait

  function KindOf(pc: Pc): Kind {
    match pc
    case Idle => NoCall
    case WantsIsRunning => InIsRunning
    case Asking => InIsRunning
    case Asked(_) => InIsRunning
    case WantsWait => InWait
    case Waiting => InWait
    case Resetting => InWait
    case Waited => InWait
    case _ => InSchedule
  }

  // A call goes on until its end, whatever any thread does: it returns only when it is
  // about to, its body created, its answer known or its wait over; and a Schedule
  // creates its own body, last of the threads.
  lemma CallsEnd(s: State, a: Action, c: Caller)
    requires Enabled(s, a) && c in s.callers && !s.callers[c].Idle?
    ensures c in Apply(s, a).callers
    ensures var pc, after := s.callers[c], Apply(s, a).callers[c];
            && (if after.Idle? then a == Step(c) && (pc.Scheduled? || pc.Asked? || pc.Waited?)
                else KindOf(after) == KindOf(pc))
            && (after.Scheduled? && !pc.Scheduled? ==>
                  pc.Creating? && Apply(s, a).workers == s.workers + [Worker(pc.body, Spawned)])
            && (after.Creating? && !pc.Creating? ==> pc == Emplacing(after.body))
            && (after.Emplacing? && !pc.Emplacing? ==> pc == Scheduling(after.body))
            && (after.Scheduling? && !pc.Scheduling? ==> pc == WantsSchedule(after.body))
            && (after.Waited? && !pc.Waited? ==> pc.Resetting? && TaskIs(s, {Exited}))
  {
  }

  // When Wait is about to return, every body scheduled before it has ended and its
  // thread is gone. (No other Schedule has locked mutex_ since.)
  lemma WaitWaitsForAll(s: State, c: Caller)
    requires Reachable(s) && c in s.callers && s.callers[c].Waited?
    ensures s.ended == s.begun == s.taken
    ensures forall w :: 0 <= w < |s.workers| ==> s.workers[w].stage.Exited?
  {
    InvReachable(s);
  }

  // When IsRunning is about to return false, every body scheduled before it has ended.
  lemma NotRunningMeansEnded(s: State, c: Caller)
    requires Reachable(s) && c in s.callers && s.callers[c] == Asked(false)
    ensures s.ended == s.begun == s.taken
  {
    InvReachable(s);
  }

  // A thread that has not yet notified.
  predicate Busy(worker: Worker) {
    worker.stage.Spawned? || worker.stage.Running? || worker.stage.Returned?
  }

  // IsRunning answers true exactly when some thread has not yet notified: never when
  // nothing was scheduled, and always while a body has not ended.
  lemma IsRunningIffBusy(s: State, c: Caller)
    requires Reachable(s) && c in s.callers && s.callers[c].Asking?
    ensures Enabled(s, Step(c)) && Apply(s, Step(c)).callers[c].Asked?
    ensures var running := Apply(s, Step(c)).callers[c].running;
            && (running <==> exists w :: 0 <= w < |s.workers| && Busy(s.workers[w]))
            && (s.taken == [] ==> !running)
            && (|s.ended| < |s.taken| ==> running)
  {
    InvReachable(s);
    if s.task.Some? {
      assert Busy(s.workers[s.task.value]) <==> !TaskIs(s, {Notified, Exited});
    }
  }

  // When Schedule is about to create its thread, all the others are gone.
  lemma ScheduleFollowsAll(s: State, c: Caller)
    requires Reachable(s) && c in s.callers && s.callers[c].Creating?
    ensures s.taken == s.ended + [s.callers[c].body] && s.begun == s.ended
    ensures forall w :: 0 <= w < |s.workers| ==> s.workers[w].stage.Exited?
  {
    InvReachable(s);
  }

  // Where a caller waits for the thread behind task_.
  predicate Awaits(pc: Pc) {
    pc.Scheduling? || pc.Emplacing? || pc.Waiting? || pc.Resetting?
  }

  // A caller is never stuck: when mutex_ is free it can lock it, and otherwise the
  // caller that has it locked (perhaps itself) can take its next step, or waits for
  // the thread behind task_, which can take its own.
  lemma NeverStuck(s: State, c: Caller)
    requires Reachable(s) && c in s.callers && !s.callers[c].Idle?
    ensures s.holder.None? ==> Enabled(s, Lock(c))
    ensures s.holder.Some? ==>
              var h := s.holder.value;
              && h in s.callers && Locked(s.callers[h])
              && (Enabled(s, Step(h)) || (Awaits(s.callers[h]) && s.task.Some? && Enabled(s, Work(s.task.value))))
  {
    InvReachable(s);
  }
}
