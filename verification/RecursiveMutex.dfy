// RecursiveMutex of src/base/thread.h as a step relation over any number of threads.
//
// owner_ is a relaxed atomic: what has been stored in it is a history, in its
// modification order, and a load may return any entry no older than the last one
// its thread knows of. A store may take any place in the order after that entry.
// Locking mutex_ brings a thread up to what the last thread to unlock it knew.
//
// recursion_depth_ is an ordinary variable, so each access must happen after all
// the accesses before it; an access that does not is recorded as a race.
module RecursiveMutex {
  import opened Options

  type Tid = nat

  // Where a thread is in lock() or unlock(); Idle when in neither.
  datatype Pc =
    | Idle
    | Deepening     // the load returned this thread: about to increment the depth
    | Acquiring     // the load returned something else: about to lock mutex_
    | StoringOwner  // mutex_ locked: about to store this thread in owner_
    | SettingDepth  // about to set the depth to one
    | ClearingOwner // the depth reached zero: about to store zero in owner_
    | Releasing     // about to unlock mutex_

  // A thread: what it knows of owner_ (an index in the history) and of the depth
  // (how many of the accesses happen before), and the locks it has taken and not
  // yet given back.
  datatype Thread = Thread(pc: Pc, seen: nat, accesses: nat, locks: nat)

  datatype State = State(
    threads: map<Tid, Thread>,
    history: seq<Tid>,      // the values of owner_
    holder: Option<Tid>,    // the thread that has mutex_ locked
    mutexSeen: nat,         // what mutex_ hands on
    mutexAccesses: nat,
    depth: int,             // recursion_depth_
    accesses: nat,          // the accesses made to it
    raced: bool
  )

  datatype Action =
    | Start(t: Tid, seen: nat, accesses: nat)
    | Learn(t: Tid, seen: nat, accesses: nat)
    | LockLoad(t: Tid, at: nat)
    | Deepen(t: Tid)
    | Acquire(t: Tid)
    | StoreOwner(t: Tid, at: nat)
    | SetDepth(t: Tid)
    | Unlock(t: Tid)
    | ClearOwner(t: Tid, at: nat)
    | Release(t: Tid)
    | OwnsLock(t: Tid, at: nat)

  function Max(a: nat, b: nat): nat {
    if a < b then b else a
  }

  predicate At(s: State, t: Tid, pc: Pc) {
    t in s.threads && s.threads[t].pc == pc
  }

  // A load in a thread may return the entry at this index.
  predicate Loadable(s: State, t: Tid, at: nat)
    requires t in s.threads
  {
    s.threads[t].seen <= at < |s.history|
  }

  // A store in a thread may become the entry at this index.
  predicate Storable(s: State, t: Tid, at: nat)
    requires t in s.threads
  {
    s.threads[t].seen < at <= |s.history|
  }

  // unlock() is for threads that hold the lock; ids are distinct and not zero.
  // Threads may learn of stores and accesses from each other in any other way.
  predicate Enabled(s: State, a: Action) {
    match a
    case Start(t, seen, accesses) => t !in s.threads && t != 0 && seen < |s.history| && accesses <= s.accesses
    case Learn(t, seen, accesses) =>
      t in s.threads && s.threads[t].seen <= seen < |s.history| && s.threads[t].accesses <= accesses <= s.accesses
    case LockLoad(t, at) => At(s, t, Idle) && Loadable(s, t, at)
    case Deepen(t) => At(s, t, Deepening)
    case Acquire(t) => At(s, t, Acquiring) && s.holder.None?
    case StoreOwner(t, at) => At(s, t, StoringOwner) && Storable(s, t, at)
    case SetDepth(t) => At(s, t, SettingDepth)
    case Unlock(t) => At(s, t, Idle) && s.threads[t].locks > 0
    case ClearOwner(t, at) => At(s, t, ClearingOwner) && Storable(s, t, at)
    case Release(t) => At(s, t, Releasing)
    case OwnsLock(t, at) => At(s, t, Idle) && Loadable(s, t, at)
  }

  // The thread changed, nothing else.
  function With(s: State, t: Tid, thread: Thread): State {
    s.(threads := s.threads[t := thread])
  }

  // An entry put into the history: those after it move up.
  function Stored(s: State, t: Tid, value: Tid, at: nat): State
    requires t in s.threads && at <= |s.history|
  {
    s.(history := s.history[..at] + [value] + s.history[at..],
       mutexSeen := if s.mutexSeen < at then s.mutexSeen else s.mutexSeen + 1,
       threads := map u | u in s.threads ::
         if u == t then s.threads[u].(seen := at)
         else if s.threads[u].seen < at then s.threads[u]
         else s.threads[u].(seen := s.threads[u].seen + 1))
  }

  // An access to the depth, which becomes this.
  function Accessed(s: State, t: Tid, depth: int): State
    requires t in s.threads
  {
    s.(depth := depth,
       accesses := s.accesses + 1,
       raced := s.raced || s.threads[t].accesses < s.accesses,
       threads := s.threads[t := s.threads[t].(accesses := s.accesses + 1)])
  }

  function Goes(s: State, t: Tid, pc: Pc): State
    requires t in s.threads
  {
    With(s, t, s.threads[t].(pc := pc))
  }

  function Locked(s: State, t: Tid): State
    requires t in s.threads
  {
    With(s, t, s.threads[t].(pc := Idle, locks := s.threads[t].locks + 1))
  }

  function Apply(s: State, a: Action): State
    requires Enabled(s, a)
  {
    match a
    case Start(t, seen, accesses) => With(s, t, Thread(Idle, seen, accesses, 0))
    case Learn(t, seen, accesses) => With(s, t, s.threads[t].(seen := seen, accesses := accesses))
    case LockLoad(t, at) =>
      With(s, t, s.threads[t].(seen := at, pc := if s.history[at] == t then Deepening else Acquiring))
    case Deepen(t) => Locked(Accessed(s, t, s.depth + 1), t)
    case Acquire(t) =>
      var me := s.threads[t];
      With(s.(holder := Some(t)), t,
           me.(pc := StoringOwner, seen := Max(me.seen, s.mutexSeen), accesses := Max(me.accesses, s.mutexAccesses)))
    case StoreOwner(t, at) => Goes(Stored(s, t, t, at), t, SettingDepth)
    case SetDepth(t) => Locked(Accessed(s, t, 1), t)
    case Unlock(t) =>
      var me := s.threads[t];
      var s1 := With(s, t, me.(locks := me.locks - 1));
      Goes(Accessed(s1, t, s.depth - 1), t, if s.depth - 1 > 0 then Idle else ClearingOwner)
    case ClearOwner(t, at) => Goes(Stored(s, t, 0, at), t, Releasing)
    case Release(t) =>
      Goes(s.(holder := None,
              mutexSeen := Max(s.mutexSeen, s.threads[t].seen),
              mutexAccesses := Max(s.mutexAccesses, s.threads[t].accesses)), t, Idle)
    case OwnsLock(t, at) => With(s, t, s.threads[t].(seen := at))
  }

  const INITIAL := State(map[], [0], None, 0, 0, 0, 0, false)

  // ---- Runs.

  // The states a run of actions goes through.
  ghost predicate Run(states: seq<State>, actions: seq<Action>) {
    && |states| == |actions| + 1
    && states[0] == INITIAL
    && forall i :: 0 <= i < |actions| ==> Enabled(states[i], actions[i]) && states[i + 1] == Apply(states[i], actions[i])
  }

  ghost predicate Reachable(s: State) {
    exists states, actions :: Run(states, actions) && s == states[|states| - 1]
  }

  // ---- The invariant.

  function Last(s: State): nat
    requires s.history != []
  {
    |s.history| - 1
  }

  ghost predicate HolderOk(s: State, me: Thread, t: Tid)
    requires s.history != []
  {
    && me.pc != Acquiring && me.seen == Last(s) && me.accesses == s.accesses
    && s.history[Last(s)] == (if me.pc in {StoringOwner, Releasing} then 0 else t)
    && s.depth == me.locks
    && (me.locks > 0 <==> me.pc in {Idle, Deepening})
  }

  // Any other thread has no lock and can no longer load its own id.
  ghost predicate OtherOk(s: State, me: Thread, t: Tid) {
    && me.pc in {Idle, Acquiring} && me.locks == 0
    && forall i :: me.seen <= i < |s.history| ==> s.history[i] != t
  }

  ghost predicate ThreadOk(s: State, t: Tid)
    requires t in s.threads && s.history != []
  {
    var me := s.threads[t];
    && t != 0 && me.seen <= Last(s) && me.accesses <= s.accesses
    && if s.holder == Some(t) then HolderOk(s, me, t) else OtherOk(s, me, t)
  }

  ghost predicate Inv(s: State) {
    && s.history != [] && !s.raced
    && (forall t :: t in s.threads ==> ThreadOk(s, t))
    && (forall t :: t in s.history ==> t == 0 || t in s.threads)
    && match s.holder
       case None => s.history[Last(s)] == 0 && s.mutexSeen == Last(s) && s.mutexAccesses == s.accesses && s.depth == 0
       case Some(h) => h in s.threads && s.mutexSeen <= Last(s) && s.mutexAccesses <= s.accesses
  }

  lemma InvInitially()
    ensures Inv(INITIAL)
  {
  }

  // Only the holder stores, and it knows the whole history: its stores come last.
  lemma StoresLast(s: State, t: Tid, value: Tid, at: nat)
    requires Inv(s) && s.holder == Some(t) && t in s.threads && Storable(s, t, at)
    ensures at == |s.history|
    ensures Stored(s, t, value, at) ==
            s.(history := s.history + [value], threads := s.threads[t := s.threads[t].(seen := |s.history|)])
  {
    assert ThreadOk(s, t);
    var threads := Stored(s, t, value, at).threads;
    forall u | u in s.threads ensures threads[u] == s.threads[t := s.threads[t].(seen := at)][u] {
      assert ThreadOk(s, u);
    }
    assert threads == s.threads[t := s.threads[t].(seen := at)];
  }

  // Another thread is as it was, while the holder stores only its own id or zero.
  lemma OthersKept(s: State, s': State, t: Tid)
    requires Inv(s) && t in s.threads && s'.threads.Keys == s.threads.Keys
    requires forall u :: u in s.threads && u != t ==> s'.threads[u] == s.threads[u]
    requires s'.history == s.history || (s'.history == s.history + [t]) || (s'.history == s.history + [0])
    requires s'.holder == s.holder || (s.holder == None && s'.holder == Some(t)) || (s.holder == Some(t) && s'.holder == None)
    requires s.accesses <= s'.accesses
    requires s.holder == Some(t) || (s.history == s'.history && s.accesses == s'.accesses && s.depth == s'.depth)
    ensures forall u :: u in s.threads && u != t ==> ThreadOk(s', u)
  {
    forall u | u in s.threads && u != t ensures ThreadOk(s', u) {
      assert ThreadOk(s, u);
      if s.holder != Some(u) {
        forall i | s.threads[u].seen <= i < |s'.history| ensures s'.history[i] != u {
        }
      }
    }
  }

  lemma LoadKept(s: State, a: Action)
    requires Inv(s) && Enabled(s, a) && (a.Start? || a.Learn? || a.LockLoad? || a.OwnsLock?)
    ensures Inv(Apply(s, a))
  {
    var s' := Apply(s, a);
    assert a.Start? || ThreadOk(s, a.t);
    forall u | u in s'.threads ensures ThreadOk(s', u) {
      assert u == a.t || ThreadOk(s, u);
    }
  }

  lemma AcquireKept(s: State, t: Tid)
    requires Inv(s) && Enabled(s, Acquire(t))
    ensures Inv(Apply(s, Acquire(t)))
  {
    var s' := Apply(s, Acquire(t));
    assert ThreadOk(s, t);
    OthersKept(s, s', t);
    assert ThreadOk(s', t);
  }

  lemma StoreKept(s: State, a: Action)
    requires Inv(s) && Enabled(s, a) && (a.StoreOwner? || a.ClearOwner?)
    ensures Inv(Apply(s, a))
  {
    var s' := Apply(s, a);
    assert ThreadOk(s, a.t);
    StoresLast(s, a.t, if a.StoreOwner? then a.t else 0, a.at);
    hide Stored;
    OthersKept(s, s', a.t);
    assert ThreadOk(s', a.t);
  }

  lemma AccessKept(s: State, a: Action)
    requires Inv(s) && Enabled(s, a) && (a.Deepen? || a.SetDepth? || a.Unlock?)
    ensures Inv(Apply(s, a))
  {
    var s' := Apply(s, a);
    assert ThreadOk(s, a.t);
    OthersKept(s, s', a.t);
    assert ThreadOk(s', a.t);
  }

  lemma ReleaseKept(s: State, t: Tid)
    requires Inv(s) && Enabled(s, Release(t))
    ensures Inv(Apply(s, Release(t)))
  {
    var s' := Apply(s, Release(t));
    assert ThreadOk(s, t);
    OthersKept(s, s', t);
    assert ThreadOk(s', t);
  }

  lemma InvKept(s: State, a: Action)
    requires Inv(s) && Enabled(s, a)
    ensures Inv(Apply(s, a))
  {
    hide Inv;
    hide Enabled;
    hide Apply;
    match a
    case Acquire(t) => AcquireKept(s, t);
    case Release(t) => ReleaseKept(s, t);
    case StoreOwner(_, _) => StoreKept(s, a);
    case ClearOwner(_, _) => StoreKept(s, a);
    case Deepen(_) => AccessKept(s, a);
    case SetDepth(_) => AccessKept(s, a);
    case Unlock(_) => AccessKept(s, a);
    case _ => LoadKept(s, a);
  }

  lemma {:induction false} InvAlong(states: seq<State>, actions: seq<Action>, n: nat)
    requires Run(states, actions) && n < |states|
    ensures Inv(states[n])
  {
    hide Inv;
    hide Enabled;
    hide Apply;
    if n == 0 {
      InvInitially();
    } else {
      InvAlong(states, actions, n - 1);
      InvKept(states[n - 1], actions[n - 1]);
    }
  }

  lemma InvReachable(s: State)
    requires Reachable(s)
    ensures Inv(s)
  {
    var states, actions :| Run(states, actions) && s == states[|states| - 1];
    InvAlong(states, actions, |states| - 1);
  }

  // ---- What every run keeps.

  // A thread has the lock: lock() has returned to it and unlock() has not been called.
  predicate Has(s: State, t: Tid) {
    t in s.threads && s.threads[t].locks > 0
  }

  // However stale the value loaded, a thread loads its own id exactly when it has
  // the lock; so owns_lock() is right, and lock() never waits for its own thread.
  lemma OwnIdIffHas(s: State, t: Tid, at: nat)
    requires Reachable(s) && At(s, t, Idle) && Loadable(s, t, at)
    ensures s.history[at] == t <==> Has(s, t)
  {
    InvReachable(s);
    assert ThreadOk(s, t);
  }

  lemma AtMostOneHas(s: State, t: Tid, u: Tid)
    requires Reachable(s) && Has(s, t) && Has(s, u)
    ensures t == u && s.holder == Some(t)
  {
    InvReachable(s);
    assert ThreadOk(s, t) && ThreadOk(s, u);
  }

  // A thread whose next step in this call accesses the depth.
  predicate Accesses(s: State, t: Tid) {
    At(s, t, Deepening) || At(s, t, SettingDepth) || (At(s, t, Idle) && s.threads[t].locks > 0)
  }

  // Every access to the depth happens after all those before it, and only the
  // thread with mutex_ locked is ever about to make one.
  lemma NoRace(s: State)
    requires Reachable(s)
    ensures !s.raced
    ensures forall t :: Accesses(s, t) ==> s.holder == Some(t) && s.threads[t].accesses == s.accesses
  {
    InvReachable(s);
    forall t | Accesses(s, t) ensures s.holder == Some(t) && s.threads[t].accesses == s.accesses {
      assert ThreadOk(s, t);
    }
  }

  // The depth is the number of locks the holder has not given back, at every step.
  lemma DepthIsLocks(s: State)
    requires Reachable(s)
    ensures match s.holder
            case Some(t) => t in s.threads && s.depth == s.threads[t].locks
            case None => s.depth == 0 && forall t :: t in s.threads ==> s.threads[t].locks == 0
  {
    InvReachable(s);
    forall t | t in s.threads ensures ThreadOk(s, t) {
    }
  }

  // The conditions the source states in debug builds: the depth is zero once mutex_
  // is locked, unlock() is called by the owner, and a mutex in no one's hands is
  // as it was made.
  lemma DebugChecks(s: State, t: Tid)
    requires Reachable(s) && t in s.threads
    ensures At(s, t, StoringOwner) ==> s.depth == 0
    ensures s.history != []
    ensures forall at: nat :: Enabled(s, Unlock(t)) && Loadable(s, t, at) ==> s.history[at] == t
    ensures (forall u :: u in s.threads ==> At(s, u, Idle) && !Has(s, u)) ==>
              s.holder == None && s.history[|s.history| - 1] == 0 && s.depth == 0
  {
    InvReachable(s);
    assert ThreadOk(s, t);
    if s.holder.Some? {
      assert ThreadOk(s, s.holder.value);
    }
  }

  predicate InLock(pc: Pc) {
    pc.Deepening? || pc.Acquiring? || pc.StoringOwner? || pc.SettingDepth?
  }

  predicate InUnlock(pc: Pc) {
    pc.ClearingOwner? || pc.Releasing?
  }

  // A call of lock() ends with one lock more, and one of unlock() with one less: what
  // each step of a thread makes of the calls it is in. An unlock() of the last lock
  // ends with mutex_ free.
  lemma CallsEnd(s: State, a: Action)
    requires Reachable(s) && Enabled(s, a) && a.t in s.threads
    ensures a.t in Apply(s, a).threads
    ensures var me, after := s.threads[a.t], Apply(s, a).threads[a.t];
            && (a.LockLoad? ==> InLock(after.pc) && after.locks == me.locks)
            && (InLock(me.pc) && !a.Learn? ==>
                  if after.pc.Idle? then after.locks == me.locks + 1 else InLock(after.pc) && after.locks == me.locks)
            && (a.Unlock? ==>
                  after.locks == me.locks - 1 && (if after.locks == 0 then InUnlock(after.pc) else after.pc.Idle?))
            && (InUnlock(me.pc) && !a.Learn? ==>
                  after.locks == 0 && (if after.pc.Idle? then Apply(s, a).holder == None else InUnlock(after.pc)))
            && (a.Learn? || a.OwnsLock? ==> after.pc == me.pc && after.locks == me.locks)
  {
    InvReachable(s);
    assert ThreadOk(s, a.t);
  }

  // A thread waiting for mutex_ can lock it, or another thread has it locked and
  // can take a step of its own: it is never stuck.
  lemma NeverStuck(s: State, t: Tid)
    requires Reachable(s) && At(s, t, Acquiring)
    ensures s.holder.None? ==> Enabled(s, Acquire(t))
    ensures s.holder.Some? ==>
              && s.holder.value != t
              && exists a: Action :: Enabled(s, a) && a.t == s.holder.value && !a.Start? && !a.Learn? && !a.OwnsLock?
  {
    InvReachable(s);
    assert ThreadOk(s, t);
    if s.holder.Some? {
      var h := s.holder.value;
      assert ThreadOk(s, h);
      var a := match s.threads[h].pc
        case Idle => Unlock(h)
        case Deepening => Deepen(h)
        case StoringOwner => StoreOwner(h, |s.history|)
        case SettingDepth => SetDepth(h)
        case ClearingOwner => ClearOwner(h, |s.history|)
        case _ => Release(h);
      assert Enabled(s, a);
    }
  }
}
