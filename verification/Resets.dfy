/** Which handlers reset the auto-lock timer: over every run, exactly those whose work succeeded. */
module Resets {
  import opened Secrets
  import opened StoreSpec
  import opened StoreRefinement
  import opened DaemonProtocol
  import opened AutoLock

  /** The work of a handler has succeeded: what the client is told with status 200, but for `/lock` and `/password`. */
  predicate Succeeded(t: Thread) {
    match t.request
    case Init(_) => t.told == [Done]
    case Unlock(_) => t.told == [Done]
    case PutSecret(_, _, _, _) => t.told == [Done]
    case DeleteSecret(_) => t.told == [Done]
    case GetSecret(_) => t.told != [] && t.told[0].Found?
    case Secrets(_) => t.told != [] && t.told[0].Paths?
    case Export(_) => t.told != [] && t.told[0].Paths?
    case Search(q) => t.told != [] && t.told[0].Paths? && !(q.Regex? && q.compiled.None?)
    case Import(_, _) => t.passed
    case Lock => false
    case Password(_, _) => false
    case BadSecret => false
    case Status => false
  }

  /** What one handler has done since it came in: when that was, the timer it found, and the timers it has armed. */
  datatype Visit = Visit(entered: Instant, found: Option<TimerId>, armed: seq<TimerId>)

  function Visited(v: Visit, s: State, e: Event, tid: ThreadId): Visit {
    match e
    case Acquire(t) => if t == tid then Visit(s.now, None, []) else v
    case ReadTimer(t) => if t == tid then v.(found := s.timer) else v
    case ArmTimer(t, id) => if t == tid then v.(armed := v.armed + [id]) else v
    case _ => v
  }

  /** The last visit of handler `tid` in a run. */
  ghost function LastVisit(v: Visit, s: State, events: seq<Event>, tid: ThreadId): Visit
    requires IsRun(s, events)
    decreases |events|
  {
    if events == [] then v
    else LastVisit(Visited(v, s, events[0], tid), Next(s, events[0]), events[1..], tid)
  }

  ghost predicate RefersToTimers(t: Thread, timers: map<TimerId, Timer>) {
    && (t.pc.Storing? ==> t.pc.armed in timers)
    && (t.pc.Stopping? && t.pc.read.Some? ==> t.pc.read.value in timers)
  }

  /** Every timer that something refers to was once armed. */
  ghost predicate TimersExist(s: State) {
    && (s.timer.Some? ==> s.timer.value in s.timers)
    && forall t :: t in s.threads ==> RefersToTimers(s.threads[t], s.timers)
  }

  /** It has called `AfterFunc`. */
  predicate HasArmed(t: Thread) {
    t.pc.Storing? || (t.pc.Leaving? && Succeeded(t))
  }

  /** It has stopped the timer it found. */
  predicate HasStopped(t: Thread) {
    t.pc.Arming? || HasArmed(t)
  }

  ghost predicate VisitIsTrue(v: Visit, s: State, t: Thread) {
    && v.entered <= s.now
    && (if HasArmed(t) then |v.armed| == 1 else v.armed == [])
    && (t.pc.Storing? ==> v.armed == [t.pc.armed])
    && (v.armed != [] ==>
          && v.armed[0] in s.timers && v.entered <= s.lastReset
          && v.entered + s.duration <= s.timers[v.armed[0]].due)
    && (t.pc.Stopping? ==> t.pc.read == v.found)
    && (HasStopped(t) && v.found.Some? ==> v.found.value in s.timers && !TimerIn(s, v.found.value, Armed))
    && (IsResetting(t.pc) && !t.request.Lock? ==> Succeeded(t))
  }

  ghost predicate Visiting(v: Visit, s: State, tid: ThreadId) {
    v.entered <= s.now && (tid in s.threads && Inside(s.threads[tid]) ==> VisitIsTrue(v, s, s.threads[tid]))
  }

  predicate TouchesTimers(e: Event) {
    e.StopTimer? || e.ArmTimer? || e.Fire? || e.CallbackAcquire? || e.CallbackLock? || e.CallbackRelease?
  }

  lemma TimersStay(s: State, e: Event)
    requires Enabled(s, e) && !TouchesTimers(e)
    ensures Next(s, e).timers == s.timers
    ensures Next(s, e).timer == if e.StoreTimer? then Some(s.threads[e.tid].pc.armed) else s.timer
  {
  }

  lemma TimersMove(s: State, e: Event, id: TimerId)
    requires Enabled(s, e) && TouchesTimers(e) && id in s.timers
    ensures var n := Next(s, e);
            && n.timer == s.timer && id in n.timers && n.timers[id].due == s.timers[id].due
            && (s.timers[id].state != Armed ==> n.timers[id].state != Armed)
  {
  }

  lemma TimersOnlyGrow(s: State, e: Event)
    requires TimersExist(s) && Enabled(s, e)
    ensures s.timers.Keys <= Next(s, e).timers.Keys
    ensures Next(s, e).timer.Some? ==> Next(s, e).timer.value in Next(s, e).timers
  {
    if !TouchesTimers(e) {
      TimersStay(s, e);
      assert e.StoreTimer? ==> RefersToTimers(s.threads[e.tid], s.timers);
    } else {
      forall id | id in s.timers ensures id in Next(s, e).timers {
        TimersMove(s, e, id);
      }
      if s.timer.Some? {
        TimersMove(s, e, s.timer.value);
      } else {
        TimerFieldStays(s, e);
      }
    }
  }

  lemma TimerFieldStays(s: State, e: Event)
    requires Enabled(s, e) && TouchesTimers(e)
    ensures Next(s, e).timer == s.timer
  {
  }

  /** A handler is stopping or storing a timer only after its own reading or arming. */
  lemma OnlyReadingAndArmingRefer(s: State, e: Event, tid: ThreadId)
    requires Enabled(s, e) && IsOf(e, tid) && tid in Next(s, e).threads
    ensures Next(s, e).threads[tid].pc.Stopping? ==> e.ReadTimer?
    ensures Next(s, e).threads[tid].pc.Storing? ==> e.ArmTimer?
  {
  }

  lemma OwnStepRefers(s: State, e: Event, tid: ThreadId)
    requires Safe(s) && TimersExist(s) && Enabled(s, e) && IsOf(e, tid) && tid in Next(s, e).threads
    ensures RefersToTimers(Next(s, e).threads[tid], Next(s, e).timers)
  {
    OnlyReadingAndArmingRefer(s, e, tid);
  }

  lemma StepKeepsTimers(s: State, e: Event)
    requires Safe(s) && TimersExist(s) && Enabled(s, e)
    ensures TimersExist(Next(s, e))
  {
    var n := Next(s, e);
    TimersOnlyGrow(s, e);
    forall t | t in n.threads ensures RefersToTimers(n.threads[t], n.timers) {
      if IsOf(e, t) {
        OwnStepRefers(s, e, t);
      } else {
        ThreadsComeByThemselves(s, e, t);
        OthersStay(s, e, t);
      }
    }
  }

  lemma ThreadsComeByThemselves(s: State, e: Event, t: ThreadId)
    requires Enabled(s, e) && t in Next(s, e).threads && !IsOf(e, t)
    ensures t in s.threads
  {
  }

  /** No step arms a timer again, or changes when it is due. */
  lemma TimersAge(s: State, e: Event, id: TimerId)
    requires Enabled(s, e) && id in s.timers
    ensures var n := Next(s, e);
            && id in n.timers && n.timers[id].due == s.timers[id].due
            && (s.timers[id].state != Armed ==> n.timers[id].state != Armed)
  {
    if TouchesTimers(e) {
      TimersMove(s, e, id);
    } else {
      TimersStay(s, e);
    }
  }

  lemma ClockStays(s: State, e: Event)
    requires Enabled(s, e) && !e.Tick? && !e.ArmTimer?
    ensures Next(s, e).now == s.now && Next(s, e).lastReset == s.lastReset && Next(s, e).duration == s.duration
  {
  }

  /** The clock and the last reset only advance. */
  lemma ClockAdvances(s: State, e: Event)
    requires Safe(s) && Enabled(s, e)
    ensures s.now <= Next(s, e).now && s.lastReset <= Next(s, e).lastReset && Next(s, e).duration == s.duration
  {
    if !e.Tick? && !e.ArmTimer? {
      ClockStays(s, e);
    }
  }

  /** Steps of others leave a visit true. */
  lemma OthersLeaveVisit(v: Visit, s: State, e: Event, tid: ThreadId)
    requires Safe(s) && Enabled(s, e) && !IsOf(e, tid) && tid in s.threads && VisitIsTrue(v, s, s.threads[tid])
    ensures tid in Next(s, e).threads && Next(s, e).threads[tid] == s.threads[tid]
    ensures VisitIsTrue(v, Next(s, e), s.threads[tid])
  {
    OthersStay(s, e, tid);
    ClockAdvances(s, e);
    if v.armed != [] {
      TimersAge(s, e, v.armed[0]);
    }
    if v.found.Some? && v.found.value in s.timers {
      TimersAge(s, e, v.found.value);
    }
  }

  lemma EnteringVisit(v: Visit, s: State, tid: ThreadId)
    requires Safe(s) && Enabled(s, Acquire(tid))
    ensures Visiting(Visited(v, s, Acquire(tid), tid), Next(s, Acquire(tid)), tid)
  {
  }

  lemma CheckingVisit(v: Visit, s: State, tid: ThreadId)
    requires Safe(s) && Enabled(s, Check(tid)) && VisitIsTrue(v, s, s.threads[tid])
    ensures tid in Next(s, Check(tid)).threads
    ensures VisitIsTrue(v, Next(s, Check(tid)), Next(s, Check(tid)).threads[tid])
  {
    assert ThreadIsPlaced(s.threads[tid]);
  }

  lemma ActingVisit(v: Visit, s: State, e: Event, tid: ThreadId)
    requires Safe(s) && Enabled(s, e) && e.Act? && e.tid == tid && VisitIsTrue(v, s, s.threads[tid])
    ensures tid in Next(s, e).threads && VisitIsTrue(v, Next(s, e), Next(s, e).threads[tid])
  {
    ActIsSafe(s, e);
  }

  lemma FinishingVisit(v: Visit, s: State, tid: ThreadId)
    requires Safe(s) && Enabled(s, Finish(tid)) && VisitIsTrue(v, s, s.threads[tid])
    ensures VisitIsTrue(v, Next(s, Finish(tid)), Next(s, Finish(tid)).threads[tid])
  {
    assert ThreadIsPlaced(s.threads[tid]);
  }

  lemma StoppingVisit(v: Visit, s: State, e: Event, tid: ThreadId)
    requires Safe(s) && TimersExist(s) && Enabled(s, e) && (e.ReadTimer? || e.StopTimer?) && e.tid == tid
    requires VisitIsTrue(v, s, s.threads[tid])
    ensures tid in Next(s, e).threads && VisitIsTrue(Visited(v, s, e, tid), Next(s, e), Next(s, e).threads[tid])
  {
    assert ThreadIsPlaced(s.threads[tid]);
  }

  lemma ArmingVisit(v: Visit, s: State, tid: ThreadId, id: TimerId)
    requires Safe(s) && Enabled(s, ArmTimer(tid, id)) && VisitIsTrue(v, s, s.threads[tid])
    ensures var e := ArmTimer(tid, id);
            VisitIsTrue(Visited(v, s, e, tid), Next(s, e), Next(s, e).threads[tid])
  {
    assert ThreadIsPlaced(s.threads[tid]);
  }

  lemma EndingVisit(v: Visit, s: State, e: Event, tid: ThreadId)
    requires Safe(s) && Enabled(s, e) && (e.StoreTimer? || e.LockStore?) && e.tid == tid
    requires VisitIsTrue(v, s, s.threads[tid])
    ensures tid in Next(s, e).threads && VisitIsTrue(v, Next(s, e), Next(s, e).threads[tid])
  {
    assert ThreadIsPlaced(s.threads[tid]);
  }

  /** A step of the handler itself, once it is inside. */
  lemma OwnStepKeepsVisit(v: Visit, s: State, e: Event, tid: ThreadId)
    requires Safe(s) && TimersExist(s) && Enabled(s, e) && IsOf(e, tid)
    requires tid in s.threads && VisitIsTrue(v, s, s.threads[tid])
    requires !e.Arrive? && !e.Acquire? && !e.Release?
    ensures tid in Next(s, e).threads && VisitIsTrue(Visited(v, s, e, tid), Next(s, e), Next(s, e).threads[tid])
  {
    match e
    case Check(_) => CheckingVisit(v, s, tid);
    case Act(_, _, _) => ActingVisit(v, s, e, tid);
    case Finish(_) => FinishingVisit(v, s, tid);
    case ReadTimer(_) => StoppingVisit(v, s, e, tid);
    case StopTimer(_) => StoppingVisit(v, s, e, tid);
    case ArmTimer(_, id) => ArmingVisit(v, s, tid, id);
    case StoreTimer(_) => EndingVisit(v, s, e, tid);
    case LockStore(_, _) => EndingVisit(v, s, e, tid);
  }

  lemma OthersKeepVisit(v: Visit, s: State, e: Event, tid: ThreadId)
    requires Safe(s) && Enabled(s, e) && Visiting(v, s, tid) && !IsOf(e, tid)
    ensures Visiting(v, Next(s, e), tid) && Visited(v, s, e, tid) == v
  {
    ClockAdvances(s, e);
    if tid in s.threads && Inside(s.threads[tid]) {
      OthersLeaveVisit(v, s, e, tid);
    } else if tid in Next(s, e).threads {
      ThreadsComeByThemselves(s, e, tid);
      OthersStay(s, e, tid);
    }
  }

  lemma GoingKeepsVisit(v: Visit, s: State, e: Event, tid: ThreadId)
    requires Safe(s) && Enabled(s, e) && Visiting(v, s, tid) && (e.Arrive? || e.Release?) && e.tid == tid
    ensures Visiting(v, Next(s, e), tid) && Visited(v, s, e, tid) == v
  {
  }

  lemma StepKeepsVisit(v: Visit, s: State, e: Event, tid: ThreadId)
    requires Safe(s) && TimersExist(s) && Enabled(s, e) && Visiting(v, s, tid)
    ensures Visiting(Visited(v, s, e, tid), Next(s, e), tid)
  {
    if !IsOf(e, tid) {
      OthersKeepVisit(v, s, e, tid);
    } else if e.Acquire? {
      EnteringVisit(v, s, tid);
    } else if e.Arrive? || e.Release? {
      GoingKeepsVisit(v, s, e, tid);
    } else {
      HandlersMoveInside(s, e, tid);
      OwnStepKeepsVisit(v, s, e, tid);
    }
  }

  /** From its check to its release a handler is inside. */
  lemma HandlersMoveInside(s: State, e: Event, tid: ThreadId)
    requires Enabled(s, e) && IsOf(e, tid) && !e.Arrive? && !e.Acquire?
    ensures tid in s.threads && Inside(s.threads[tid])
  {
  }

  lemma {:induction false} RunKeepsVisit(v: Visit, s: State, events: seq<Event>, tid: ThreadId)
    requires Safe(s) && TimersExist(s) && IsRun(s, events) && Visiting(v, s, tid)
    ensures Visiting(LastVisit(v, s, events, tid), After(s, events), tid)
    decreases |events|
  {
    if events != [] {
      StepIsSafe(s, events[0]);
      StepKeepsTimers(s, events[0]);
      StepKeepsVisit(v, s, events[0], tid);
      RunKeepsVisit(Visited(v, s, events[0], tid), Next(s, events[0]), events[1..], tid);
    }
  }

  /**
     In every interleaving, when a handler leaves: if its work succeeded it has armed exactly one timer
     while it was inside, a full period or more from when it came in, and the timer it found was stopped
     or had fired; any other handler has armed none.
   */
  lemma {:induction false} SuccessResetsTimer(disk: Disk, duration: nat, now: Instant, events: seq<Event>,
                                              tid: ThreadId)
    requires IsRun(Started(disk, duration, now), events)
    requires Enabled(After(Started(disk, duration, now), events), Release(tid))
    ensures var s := After(Started(disk, duration, now), events);
            var v := LastVisit(Visit(now, None, []), Started(disk, duration, now), events, tid);
            if Succeeded(s.threads[tid]) then
              && |v.armed| == 1 && v.armed[0] in s.timers
              && v.entered <= s.lastReset && v.entered + duration <= s.timers[v.armed[0]].due
              && (v.found.Some? ==> v.found.value in s.timers && s.timers[v.found.value].state != Armed)
            else v.armed == []
  {
    var s0 := Started(disk, duration, now);
    RunIsSafe(s0, events);
    RunKeepsVisit(Visit(now, None, []), s0, events, tid);
    DurationIsFixed(s0, events);
    assert Inside(After(s0, events).threads[tid]);
  }
}
