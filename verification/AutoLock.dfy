/**
 Auto-lock: whether an open vault always has a lock on its way, and how long a reset of the timer
 puts the lock off.
 */
module AutoLock {
  import opened Secrets
  import Spec = StoreSpec
  import opened StoreSpec
  import opened StoreRefinement
  import opened DaemonProtocol

  /** A handler on its way to `AfterFunc`, or to locking the store. */
  ghost predicate WillGuard(t: Thread) {
    || t.pc.Arming? || t.pc.Locking?
    || ((t.request.Init? || t.request.Unlock?) && t.told == [Done] && (t.pc.Acting? || t.pc.Reading? || t.pc.Stopping?))
  }

  predicate Running(t: Timer) {
    t.state.Armed? || t.state.Fired? || t.state.Locks?
  }

  ghost predicate TimerIsRunning(s: State) {
    exists id :: id in s.timers && Running(s.timers[id])
  }

  /** A lock is on its way. */
  ghost predicate LockIsPending(s: State) {
    TimerIsRunning(s) || exists t :: t in s.threads && WillGuard(s.threads[t])
  }

  /** An open vault has a lock on its way, unless a failed save has left it open. */
  ghost predicate Guarded(s: State) {
    !s.store.IsLocked() && !s.unguarded ==> LockIsPending(s)
  }

  /** A running timer keeps running, or is stopped by a handler that will guard the vault instead, or locks. */
  lemma RunningTimerIsReplaced(s: State, e: Event, id: TimerId)
    requires Safe(s) && Enabled(s, e) && id in s.timers && Running(s.timers[id])
    ensures Guarded(Next(s, e))
  {
    var n := Next(s, e);
    if e.StopTimer? {
      assert WillGuard(n.threads[e.tid]);
    } else if !(e.CallbackLock? && e.id == id) {
      assert id in n.timers && Running(n.timers[id]);
    }
  }

  /** A handler on its way to guard the vault stays so, or arms a timer, or locks. */
  lemma WillGuardIsKept(s: State, e: Event, tid: ThreadId)
    requires Safe(s) && Enabled(s, e) && tid in s.threads && WillGuard(s.threads[tid])
    ensures Guarded(Next(s, e))
  {
    var n := Next(s, e);
    if e.ArmTimer? {
      assert e.id in n.timers && Running(n.timers[e.id]);
    } else if !(e.LockStore? && e.tid == tid) {
      GuardStays(s, e, tid);
    }
  }

  lemma GuardStays(s: State, e: Event, tid: ThreadId)
    requires Safe(s) && Enabled(s, e) && tid in s.threads && WillGuard(s.threads[tid])
    requires !e.ArmTimer? && !(e.LockStore? && e.tid == tid)
    ensures tid in Next(s, e).threads && WillGuard(Next(s, e).threads[tid])
  {
    if IsOf(e, tid) {
      assert e.Finish? || e.ReadTimer? || e.StopTimer?;
    } else {
      OthersStay(s, e, tid);
    }
  }

  /** The step is one of handler `tid`. */
  predicate IsOf(e: Event, tid: ThreadId) {
    !e.Tick? && !e.Fire? && !e.CallbackAcquire? && !e.CallbackLock? && !e.CallbackRelease? && e.tid == tid
  }

  lemma OthersStay(s: State, e: Event, tid: ThreadId)
    requires Enabled(s, e) && tid in s.threads && !IsOf(e, tid)
    ensures tid in Next(s, e).threads && Next(s, e).threads[tid] == s.threads[tid]
  {
    if e.Act? || e.Check? || e.StopTimer? {
      OthersStayToo(s, e, tid);
    }
  }

  lemma OthersStayToo(s: State, e: Event, tid: ThreadId)
    requires Enabled(s, e) && tid in s.threads && (e.Act? || e.Check? || e.StopTimer?) && e.tid != tid
    ensures tid in Next(s, e).threads && Next(s, e).threads[tid] == s.threads[tid]
  {
  }

  /** A call that opens the vault is made by a handler that will guard it, or leaves the mark. */
  lemma OpeningIsGuarded(s: State, e: Event)
    requires Safe(s) && Enabled(s, e) && e.Act? && (s.store.IsLocked() || s.unguarded)
    ensures Guarded(Next(s, e))
  {
    var t, n := s.threads[e.tid], Next(s, e);
    ActIsSafe(s, e);
    CallsFitRequest(t.request, t.told);
    assert ThreadIsPlaced(t);
    if !n.store.IsLocked() && !n.unguarded {
      assert t.request.Init? || t.request.Unlock?;
      assert n.threads[e.tid].told == [Done];
      assert WillGuard(n.threads[e.tid]);
    }
  }

  lemma ClosedIsGuarded(s: State, e: Event)
    requires Safe(s) && Enabled(s, e) && !e.Act? && (s.store.IsLocked() || s.unguarded)
    ensures Guarded(Next(s, e))
  {
    if e.ArmTimer? {
      assert e.id in Next(s, e).timers && Running(Next(s, e).timers[e.id]);
    }
  }

  lemma StepIsGuarded(s: State, e: Event)
    requires Safe(s) && Guarded(s) && Enabled(s, e)
    ensures Guarded(Next(s, e))
  {
    if s.store.IsLocked() || s.unguarded {
      if e.Act? {
        OpeningIsGuarded(s, e);
      } else {
        ClosedIsGuarded(s, e);
      }
    } else if id :| id in s.timers && Running(s.timers[id]) {
      RunningTimerIsReplaced(s, e, id);
    } else {
      var tid :| tid in s.threads && WillGuard(s.threads[tid]);
      WillGuardIsKept(s, e, tid);
    }
  }

  lemma {:induction false} RunIsGuarded(s: State, events: seq<Event>)
    requires Safe(s) && Guarded(s) && IsRun(s, events)
    ensures Safe(After(s, events)) && Guarded(After(s, events))
    decreases |events|
  {
    if events != [] {
      StepIsSafe(s, events[0]);
      StepIsGuarded(s, events[0]);
      RunIsGuarded(Next(s, events[0]), events[1..]);
    }
  }

  /** The saves that decide whether a vault stays guarded: those of `Initialize` and `Lock`. */
  ghost predicate SavesSucceed(s: State, e: Event)
    requires Enabled(s, e)
  {
    match e
    case Act(tid, env, _) => s.threads[tid].request.Init? ==> env.metaWrite.Written? && env.dataWrite.Written?
    case LockStore(_, env) => env.dataWrite.Written?
    case CallbackLock(_, env) => env.dataWrite.Written?
    case _ => true
  }

  ghost predicate AllSavesSucceed(s: State, events: seq<Event>)
    requires IsRun(s, events)
    decreases |events|
  {
    events == [] || (SavesSucceed(s, events[0]) && AllSavesSucceed(Next(s, events[0]), events[1..]))
  }

  lemma SuccessfulSaveKeepsGuard(s: State, e: Event)
    requires Safe(s) && !s.unguarded && Enabled(s, e) && SavesSucceed(s, e)
    ensures !Next(s, e).unguarded
  {
    if e.Act? {
      CallsFitRequest(s.threads[e.tid].request, s.threads[e.tid].told);
      ActIsSafe(s, e);
    }
  }

  lemma {:induction false} SuccessfulSavesKeepGuard(s: State, events: seq<Event>)
    requires Safe(s) && !s.unguarded && IsRun(s, events) && AllSavesSucceed(s, events)
    ensures !After(s, events).unguarded
    decreases |events|
  {
    if events != [] {
      StepIsSafe(s, events[0]);
      SuccessfulSaveKeepsGuard(s, events[0]);
      SuccessfulSavesKeepGuard(Next(s, events[0]), events[1..]);
    }
  }

  lemma {:induction false} DurationIsFixed(s: State, events: seq<Event>)
    requires IsRun(s, events)
    ensures After(s, events).duration == s.duration
    decreases |events|
  {
    if events != [] {
      DurationIsFixed(Next(s, events[0]), events[1..]);
    }
  }

  /**
     Auto-lock: in every interleaving in which no save of `Initialize` or `Lock` fails, an open vault
     has a timer running, fired, or at work that was due no later than one period after the last
     reset, or a handler holding the mutex that is about to arm one or to lock.
   */
  lemma {:induction false} OpenVaultWillLock(disk: Disk, duration: nat, now: Instant, events: seq<Event>)
    requires IsRun(Started(disk, duration, now), events)
    requires AllSavesSucceed(Started(disk, duration, now), events)
    ensures var s := After(Started(disk, duration, now), events);
            !s.store.IsLocked() ==>
              || (exists id :: id in s.timers && Running(s.timers[id]) && s.timers[id].due <= s.lastReset + duration)
              || (exists t :: t in s.threads && WillGuard(s.threads[t]))
  {
    var s0 := Started(disk, duration, now);
    RunIsGuarded(s0, events);
    SuccessfulSavesKeepGuard(s0, events);
    DurationIsFixed(s0, events);
  }

  // ---------- when a failed save leaves no lock on its way ----------

  /** A `Lock` or `Initialize` that fails and leaves the vault open. */
  ghost predicate FailsOpen(s: State, e: Event)
    requires Enabled(s, e)
  {
    !Next(s, e).store.IsLocked() &&
    match e
    case LockStore(_, env) => Spec.Lock(s.store, env).result.Err?
    case CallbackLock(_, env) => Spec.Lock(s.store, env).result.Err?
    case Act(tid, env, order) =>
      s.threads[tid].request.Init? && MayCall(s.store, CallBy(s.threads[tid], env, order))
      && Reply(s.store, CallBy(s.threads[tid], env, order)).Refused?
    case _ => false
  }

  lemma NoHandlerGuardsAfterLock(s: State, e: Event, t: ThreadId)
    requires Safe(s) && Enabled(s, e) && (e.LockStore? || e.CallbackLock?) && t in Next(s, e).threads
    ensures !WillGuard(Next(s, e).threads[t])
  {
    assert ThreadIsPlaced(s.threads[t]);
  }

  lemma NoHandlerGuardsAfterInit(s: State, e: Event, t: ThreadId)
    requires Safe(s) && Enabled(s, e) && e.Act? && FailsOpen(s, e) && t in Next(s, e).threads
    ensures !WillGuard(Next(s, e).threads[t])
  {
    assert ThreadIsPlaced(s.threads[t]);
    if t == e.tid {
      assert Next(s, e).threads[t].told == [Reply(s.store, CallBy(s.threads[t], e.env, e.order))];
    }
  }

  /**
     A lock is then still on its way exactly when some timer is running, other than the one whose
     callback has just failed.
   */
  lemma FailedSaveIsGuardedExactly(s: State, e: Event)
    requires Safe(s) && Enabled(s, e) && FailsOpen(s, e)
    ensures LockIsPending(Next(s, e)) <==>
            exists id :: id in s.timers && Running(s.timers[id]) && !(e.CallbackLock? && e.id == id)
  {
    var n := Next(s, e);
    forall t | t in n.threads ensures !WillGuard(n.threads[t]) {
      if e.Act? {
        NoHandlerGuardsAfterInit(s, e, t);
      } else {
        NoHandlerGuardsAfterLock(s, e, t);
      }
    }
    forall id | id in s.timers && Running(s.timers[id]) && !(e.CallbackLock? && e.id == id)
      ensures id in n.timers && Running(n.timers[id])
    {
    }
  }

  // ---------- when resets buy full periods ----------

  /** `AfterFunc` is called while no other timer is running: the one before was stopped in time. */
  ghost predicate ArmsAlone(s: State, e: Event) {
    e.ArmTimer? ==> !TimerIsRunning(s)
  }

  ghost predicate AllArmAlone(s: State, events: seq<Event>)
    requires IsRun(s, events)
    decreases |events|
  {
    events == [] || (ArmsAlone(s, events[0]) && AllArmAlone(Next(s, events[0]), events[1..]))
  }

  /** Every running timer is from the last reset, and has fired only when due. */
  ghost predicate Punctual(s: State) {
    forall id :: id in s.timers && Running(s.timers[id]) ==>
      && s.timers[id].due == s.lastReset + s.duration
      && (!s.timers[id].state.Armed? ==> s.timers[id].due <= s.now)
  }

  lemma StepIsPunctual(s: State, e: Event)
    requires Punctual(s) && Enabled(s, e) && ArmsAlone(s, e)
    ensures Punctual(Next(s, e))
  {
    var n := Next(s, e);
    forall id | id in n.timers && Running(n.timers[id])
      ensures n.timers[id].due == n.lastReset + n.duration
      ensures !n.timers[id].state.Armed? ==> n.timers[id].due <= n.now
    {
      if !(e.ArmTimer? && e.id == id) {
        assert id in s.timers && Running(s.timers[id]) && n.timers[id].due == s.timers[id].due;
      }
    }
  }

  lemma {:induction false} RunIsPunctual(s: State, events: seq<Event>)
    requires Punctual(s) && IsRun(s, events) && AllArmAlone(s, events)
    ensures Punctual(After(s, events))
    decreases |events|
  {
    if events != [] {
      StepIsPunctual(s, events[0]);
      RunIsPunctual(Next(s, events[0]), events[1..]);
    }
  }

  /**
     In every interleaving in which each timer is armed after the one before was stopped in time, no
     callback locks the vault before a full period has passed since the last reset.
   */
  lemma {:induction false} TimelyStopsBuyAPeriod(disk: Disk, duration: nat, now: Instant, events: seq<Event>)
    requires IsRun(Started(disk, duration, now), events)
    requires AllArmAlone(Started(disk, duration, now), events)
    ensures var s := After(Started(disk, duration, now), events);
            forall id, env :: Enabled(s, CallbackLock(id, env)) ==> s.lastReset + duration <= s.now
  {
    RunIsPunctual(Started(disk, duration, now), events);
    DurationIsFixed(Started(disk, duration, now), events);
  }

  // ---------- when one reset buys a full period ----------

  /** No timer running in `s` is due before `deadline`. */
  ghost predicate NoneDueBefore(s: State, deadline: Instant) {
    forall id :: id in s.timers && Running(s.timers[id]) ==> deadline <= s.timers[id].due
  }

  lemma {:induction false} NothingLocksBefore(s: State, deadline: Instant, events: seq<Event>)
    requires Safe(s) && IsRun(s, events) && NoneDueBefore(s, deadline) && deadline <= s.now + s.duration
    ensures var u := After(s, events); Safe(u) && NoneDueBefore(u, deadline) && s.now <= u.now
    decreases |events|
  {
    if events != [] {
      var e := events[0];
      StepIsSafe(s, e);
      StepKeepsDeadline(s, e, deadline);
      NothingLocksBefore(Next(s, e), deadline, events[1..]);
    }
  }

  lemma StepKeepsDeadline(s: State, e: Event, deadline: Instant)
    requires Enabled(s, e) && NoneDueBefore(s, deadline) && deadline <= s.now + s.duration
    ensures var n := Next(s, e); NoneDueBefore(n, deadline) && s.now <= n.now && n.duration == s.duration
  {
    var n := Next(s, e);
    forall id | id in n.timers && Running(n.timers[id]) ensures deadline <= n.timers[id].due {
      if !(e.ArmTimer? && e.id == id) {
        assert id in s.timers && Running(s.timers[id]);
      }
    }
  }

  lemma {:induction false} ClockOnlyAdvances(s: State, events: seq<Event>)
    requires IsRun(s, events)
    ensures s.now <= After(s, events).now
    decreases |events|
  {
    if events != [] {
      ClockOnlyAdvances(Next(s, events[0]), events[1..]);
    }
  }

  /** A run in which a callback comes to lock an open vault before `deadline`. */
  ghost predicate MayLockBefore(s: State, deadline: Instant) {
    exists u, id, env :: Reaches(s, u) && Enabled(u, CallbackLock(id, env)) && !u.store.IsLocked() && u.now < deadline
  }

  lemma NoEarlyLock(s: State, deadline: Instant)
    requires Safe(s) && deadline == s.now + s.duration && (s.duration == 0 || NoneDueBefore(s, deadline))
    ensures !MayLockBefore(s, deadline)
  {
    forall u, k, env | Reaches(s, u) && Enabled(u, CallbackLock(k, env)) ensures deadline <= u.now {
      var events :| IsRun(s, events) && After(s, events) == u;
      ClockOnlyAdvances(s, events);
      if s.duration > 0 {
        NothingLocksBefore(s, deadline, events);
      }
    }
  }

  const SOME_ENV := Env(ZERO_TIME, None, None, (path: string) => None, true, true, Written, Written)

  lemma FreshTimer(ids: set<TimerId>) returns (id: TimerId)
    ensures forall x :: x in ids ==> x < id
  {
    id := 0;
    if ids != {} {
      var x :| x in ids;
      var above := FreshTimer(ids - {x});
      assert forall y :: y in ids ==> y == x || y in ids - {x};
      id := if x < above then above else x + 1;
    }
  }

  /** What a step of a reader inside leaves alone. */
  lemma ReaderStepKeeps(s: State, e: Event, id: TimerId)
    requires Safe(s) && TimerIn(s, id, Fired) && Enabled(s, e)
    requires e.Check? || e.Act? || e.Finish? || e.ReadTimer? || e.StopTimer? || e.ArmTimer? || e.StoreTimer?
    ensures var u := Next(s, e);
            TimerIn(u, id, Fired) && u.now == s.now && u.readers == s.readers && u.writer == s.writer
  {
  }

  /** One step of a reader inside, while the callback of `id` waits. */
  lemma ReaderSteps(s0: State, s: State, e: Event, id: TimerId) returns (u: State)
    requires Reaches(s0, s) && Safe(s) && TimerIn(s, id, Fired) && Enabled(s, e)
    requires e.Check? || e.Act? || e.Finish? || e.ReadTimer? || e.StopTimer? || e.ArmTimer? || e.StoreTimer?
    requires e.tid in s.readers
    ensures u == Next(s, e) && Reaches(s0, u) && Safe(u) && TimerIn(u, id, Fired)
    ensures u.store == s.store && u.now == s.now && u.readers == s.readers && u.writer == s.writer
  {
    u := Advance(s0, s, e);
    StepIsSafe(s, e);
    ReadersFreezeStore(s, e);
    ReaderStepKeeps(s, e, id);
  }

  /** How far a reader is from the end. */
  function Rank(pc: Pc): nat {
    match pc
    case Waiting => 8
    case Entered => 7
    case Acting => 6
    case Reading => 5
    case Stopping(_) => 4
    case Arming => 3
    case Storing(_) => 2
    case Locking => 1
    case Leaving => 0
  }

  /** How many calls it has left, once it has its listing. */
  function CallsLeft(told: seq<Answer>): nat {
    if told != [] && told[0].Paths? && |told| <= |told[0].paths| then |told[0].paths| + 1 - |told| else 0
  }

  /** A reader makes its next call. */
  lemma ReaderActs(s0: State, s: State, tid: ThreadId, id: TimerId) returns (u: State)
    requires Reaches(s0, s) && Safe(s) && TimerIn(s, id, Fired) && tid in s.readers && At(s, tid, Acting)
    requires s.threads[tid].request.NextOp(s.threads[tid].told).Some?
    ensures Reaches(s0, u) && Safe(u) && TimerIn(u, id, Fired)
    ensures u.store == s.store && u.now == s.now && u.readers == s.readers && u.writer == s.writer
    ensures At(u, tid, Acting) && u.threads[tid].told != []
    ensures s.threads[tid].told != [] ==> CallsLeft(u.threads[tid].told) < CallsLeft(s.threads[tid].told)
  {
    var t := s.threads[tid];
    CallsFitRequest(t.request, t.told);
    ActIsSafe(s, Act(tid, SOME_ENV, []));
    u := ReaderSteps(s0, s, Act(tid, SOME_ENV, []), id);
    assert t.told != [] ==> u.threads[tid].told[0] == t.told[0];
  }

  /** What a reader does next when it has no call to make. */
  function NextMove(t: Thread, tid: ThreadId, unused: TimerId): Event
    requires t.pc != Waiting && t.pc != Locking
  {
    match t.pc
    case Entered => Check(tid)
    case Acting => Finish(tid)
    case Reading => ReadTimer(tid)
    case Stopping(_) => StopTimer(tid)
    case Arming => ArmTimer(tid, unused)
    case Storing(_) => StoreTimer(tid)
    case Leaving => Release(tid)
  }

  lemma NextMoveComesCloser(s: State, tid: ThreadId, id: TimerId)
    requires Safe(s) && tid in s.readers && id !in s.timers && s.threads[tid].pc != Leaving
    requires s.threads[tid].pc == Acting ==> s.threads[tid].request.NextOp(s.threads[tid].told).None?
    ensures s.threads[tid].pc != Waiting && s.threads[tid].pc != Locking
    ensures var e := NextMove(s.threads[tid], tid, id);
            && Enabled(s, e) && !e.Release? && tid in Next(s, e).threads
            && Rank(Next(s, e).threads[tid].pc) < Rank(s.threads[tid].pc)
  {
    assert ThreadIsPlaced(s.threads[tid]);
  }

  /** The next step of a reader that makes no call. */
  lemma ReaderMoves(s0: State, s: State, tid: ThreadId, id: TimerId) returns (u: State)
    requires Reaches(s0, s) && Safe(s) && TimerIn(s, id, Fired) && tid in s.readers
    requires s.threads[tid].pc != Leaving
    requires s.threads[tid].pc == Acting ==> s.threads[tid].request.NextOp(s.threads[tid].told).None?
    ensures Reaches(s0, u) && Safe(u) && TimerIn(u, id, Fired)
    ensures u.store == s.store && u.now == s.now && u.readers == s.readers && u.writer == s.writer
    ensures tid in u.threads && Rank(u.threads[tid].pc) < Rank(s.threads[tid].pc)
  {
    var unused := FreshTimer(s.timers.Keys);
    NextMoveComesCloser(s, tid, unused);
    u := ReaderSteps(s0, s, NextMove(s.threads[tid], tid, unused), id);
  }

  /** A handler at its end gives the mutex back. */
  lemma Leaves(s0: State, s: State, tid: ThreadId, id: TimerId) returns (u: State)
    requires Reaches(s0, s) && Safe(s) && TimerIn(s, id, Fired) && At(s, tid, Leaving)
    ensures Reaches(s0, u) && Safe(u) && TimerIn(u, id, Fired) && u.store == s.store && u.now == s.now
    ensures tid in s.readers ==> u.readers == s.readers - {tid} && u.writer == s.writer
    ensures tid !in s.readers ==> u.readers == s.readers && u.writer == None
  {
    u := Advance(s0, s, Release(tid));
    StepIsSafe(s, Release(tid));
  }

  /** A reader works to its end and leaves, in no time. */
  lemma {:induction false} ReaderLeaves(s0: State, s: State, tid: ThreadId, id: TimerId) returns (u: State)
    requires Reaches(s0, s) && Safe(s) && TimerIn(s, id, Fired) && tid in s.readers
    ensures Reaches(s0, u) && Safe(u) && TimerIn(u, id, Fired) && u.store == s.store && u.now == s.now
    ensures u.readers == s.readers - {tid} && u.writer == s.writer
    decreases Rank(s.threads[tid].pc), s.threads[tid].told == [], CallsLeft(s.threads[tid].told)
  {
    var t := s.threads[tid];
    if t.pc == Leaving {
      u := Leaves(s0, s, tid, id);
    } else if t.pc == Acting && t.request.NextOp(t.told).Some? {
      var next := ReaderActs(s0, s, tid, id);
      u := ReaderLeaves(s0, next, tid, id);
    } else {
      var next := ReaderMoves(s0, s, tid, id);
      u := ReaderLeaves(s0, next, tid, id);
    }
  }

  /** All readers leave. */
  lemma {:induction false} ReadersLeave(s0: State, s: State, id: TimerId) returns (u: State)
    requires Reaches(s0, s) && Safe(s) && TimerIn(s, id, Fired) && s.writer.None?
    ensures Reaches(s0, u) && Safe(u) && TimerIn(u, id, Fired) && u.store == s.store && u.now == s.now
    ensures u.readers == {} && u.writer.None?
    decreases |s.readers|
  {
    u := s;
    if s.readers != {} {
      var tid :| tid in s.readers;
      var next := ReaderLeaves(s0, s, tid, id);
      u := ReadersLeave(s0, next, id);
    }
  }

  /** Whoever holds the mutex while one of them is about to store its new timer, all leave in no time. */
  lemma AllLeave(s0: State, s: State, tid: ThreadId, id: TimerId) returns (u: State)
    requires Reaches(s0, s) && Safe(s) && TimerIn(s, id, Fired) && tid in s.threads && s.threads[tid].pc.Storing?
    ensures Reaches(s0, u) && Safe(u) && TimerIn(u, id, Fired) && u.store == s.store && u.now == s.now
    ensures u.readers == {} && u.writer.None?
  {
    if tid in s.readers {
      u := ReadersLeave(s0, s, id);
    } else {
      u := Advance(s0, s, StoreTimer(tid));
      StepIsSafe(s, StoreTimer(tid));
      u := Leaves(s0, u, tid, id);
    }
  }

  /** A timer that is running while nobody's callback holds the mutex fires before the deadline. */
  lemma FiresBefore(s: State, id: TimerId, deadline: Instant) returns (u: State)
    requires Safe(s) && id in s.timers && (s.timers[id].state.Armed? || s.timers[id].state.Fired?)
    requires s.timers[id].due < deadline && s.now < deadline
    ensures Reaches(s, u) && Safe(u) && TimerIn(u, id, Fired)
    ensures u.store == s.store && u.now < deadline
    ensures u.threads == s.threads && u.readers == s.readers && u.writer == s.writer
  {
    ReachesItself(s);
    u := s;
    if s.timers[id].state.Armed? {
      var at := if s.now < s.timers[id].due then s.timers[id].due else s.now;
      u := Advance(s, u, Tick(at));
      StepIsSafe(s, Tick(at));
      var v := Advance(s, u, Fire(id));
      StepIsSafe(u, Fire(id));
      u := v;
    }
  }

  /** While a handler arms its timer, one already running and due too early can still lock first. */
  lemma EarlyTimerMayLock(s: State, tid: ThreadId, id: TimerId, other: TimerId)
    requires Safe(s) && Enabled(s, ArmTimer(tid, id))
    requires other in s.timers && Running(s.timers[other]) && s.timers[other].due < s.now + s.duration && s.duration > 0
    ensures MayLockBefore(Next(s, ArmTimer(tid, id)), s.now + s.duration)
  {
    var n := Next(s, ArmTimer(tid, id));
    StepIsSafe(s, ArmTimer(tid, id));
    assert ThreadIsPlaced(s.threads[tid]) && SawOpen(s.threads[tid]);
    assert other != id && n.timers[other] == s.timers[other] && !s.timers[other].state.Locks?;
    var u := FiresBefore(n, other, s.now + s.duration);
    u := AllLeave(n, u, tid, other);
    u := Advance(n, u, CallbackAcquire(other));
    assert Enabled(u, CallbackLock(other, SOME_ENV));
  }

  /**
     What the reset that handler `tid` is about to make buys: no callback can come to lock the open vault
     before a full period from now has passed, in any way things may go on, exactly when every timer
     still running was armed at this same moment.
   */
  ghost predicate BuysAPeriodExactly(s: State, tid: ThreadId, id: TimerId)
    requires Enabled(s, ArmTimer(tid, id))
  {
    !MayLockBefore(Next(s, ArmTimer(tid, id)), s.now + s.duration) <==>
      s.duration == 0 || NoneDueBefore(s, s.now + s.duration)
  }

  lemma ResetBuysAPeriodExactly(s: State, tid: ThreadId, id: TimerId)
    requires Safe(s) && Enabled(s, ArmTimer(tid, id))
    ensures BuysAPeriodExactly(s, tid, id)
  {
    if s.duration > 0 && !NoneDueBefore(s, s.now + s.duration) {
      var other :| other in s.timers && Running(s.timers[other]) && s.timers[other].due < s.now + s.duration;
      EarlyTimerMayLock(s, tid, id, other);
    } else {
      StepIsSafe(s, ArmTimer(tid, id));
      NoEarlyLock(Next(s, ArmTimer(tid, id)), s.now + s.duration);
    }
  }

  /** In every interleaving, whoever resets the timer. */
  lemma {:induction false} EveryResetBuysAPeriodExactly(disk: Disk, duration: nat, now: Instant, events: seq<Event>,
                                                        tid: ThreadId, id: TimerId)
    requires IsRun(Started(disk, duration, now), events)
    requires Enabled(After(Started(disk, duration, now), events), ArmTimer(tid, id))
    ensures After(Started(disk, duration, now), events).duration == duration
    ensures BuysAPeriodExactly(After(Started(disk, duration, now), events), tid, id)
  {
    var s0 := Started(disk, duration, now);
    RunIsSafe(s0, events);
    DurationIsFixed(s0, events);
    ResetBuysAPeriodExactly(After(s0, events), tid, id);
  }
}
