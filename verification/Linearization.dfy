/**
 The concurrent daemon serves whole handlers, one after the other: in every interleaving each handler
 and callback makes its calls, and is answered, as if it had the store for itself from start to end,
 in the order in which they leave. So what is proved about handlers and runs of the store holds for
 every interleaving.
 */
module Linearization {
  import opened Secrets
  import Spec = StoreSpec
  import opened StoreSpec
  import opened StoreRefinement
  import opened StoreFaults
  import opened DaemonProtocol

  // ---------- a handler that has the store for itself ----------

  /** Each call is the one the answers before it ask for. */
  ghost predicate Follows(r: Request, calls: seq<Call>, told: seq<Answer>) {
    |calls| == |told| && forall i :: 0 <= i < |calls| ==> r.NextOp(told[..i]) == Some(calls[i].op)
  }

  /** The calls and answers of a handler alone with the store, as far as it has come. */
  ghost predicate RunsAlone(before: Store, r: Request, calls: seq<Call>, told: seq<Answer>) {
    MayRun(before, calls) && told == Replies(before, calls) && Follows(r, calls, told)
  }

  /** From its first test to its last call. */
  ghost predicate ServedAlone(j: Job) {
    && j.before.Valid() && RunsAlone(j.before, j.request, j.calls, j.told)
    && if j.request.Admits(j.before) then j.request.NextOp(j.told).None? else j.calls == []
  }

  ghost function StoreAfter(j: Job): Store {
    if MayRun(j.before, j.calls) then Final(j.before, j.calls) else j.before
  }

  /** Whole handlers one after the other, each on the store that those before it left. */
  ghost predicate ServedInOrder(start: Store, jobs: seq<Job>, end: Store) {
    if jobs == [] then start == end
    else
      var last := |jobs| - 1;
      ServedInOrder(start, jobs[..last], jobs[last].before) && ServedAlone(jobs[last]) && end == StoreAfter(jobs[last])
  }

  lemma {:induction false} OneMoreServed(start: Store, jobs: seq<Job>, j: Job)
    requires ServedInOrder(start, jobs, j.before) && ServedAlone(j)
    ensures ServedInOrder(start, jobs + [j], StoreAfter(j))
  {
    assert (jobs + [j])[..|jobs|] == jobs;
  }

  // ---------- every interleaving is such an order ----------

  /** A handler inside the mutex has had the store for itself since it came in. */
  ghost predicate IsAlone(s: State, t: Thread) {
    && RunsAlone(s.base, t.request, t.calls, t.told)
    && Final(s.base, t.calls) == s.store
    && (t.pc.Entered? ==> t.calls == [])
    && (t.pc.Acting? || IsResetting(t.pc) || t.pc.Locking? ==> t.request.Admits(s.base))
    && (t.pc.Leaving? ==> if t.request.Admits(s.base) then t.request.NextOp(t.told).None? else t.calls == [])
  }

  ghost predicate Serial(start: Store, s: State) {
    && s.base.Valid()
    && ServedInOrder(start, s.served, s.base)
    && (s.writer.None? || s.writer.value.CallbackOf? ==> s.store == s.base)
    && (forall t :: t in s.threads && Inside(s.threads[t]) ==> IsAlone(s, s.threads[t]))
  }

  lemma {:induction false} CallGrows(before: Store, r: Request, calls: seq<Call>, told: seq<Answer>, c: Call)
    requires RunsAlone(before, r, calls, told) && MayCall(Final(before, calls), c) && r.NextOp(told) == Some(c.op)
    ensures RunsAlone(before, r, calls + [c], told + [Reply(Final(before, calls), c)])
    ensures Final(before, calls + [c]) == Update(Final(before, calls), c).store
  {
    RunGrows(before, calls, c);
    var more, longer := calls + [c], told + [Reply(Final(before, calls), c)];
    forall i | 0 <= i < |more| ensures r.NextOp(longer[..i]) == Some(more[i].op) {
      assert longer[..i] == told[..i];
      assert told[..|told|] == told;
    }
  }

  /** A step that moves one handler; it changes the store only if nobody else is inside. */
  lemma MoveStaysSerial(start: Store, s: State, n: State, tid: ThreadId, u: Thread)
    requires Serial(start, s)
    requires n.base == s.base && n.served == s.served && n.writer == s.writer
    requires n.threads == s.threads[tid := u] && IsAlone(n, u)
    requires n.store == s.store ||
             (s.writer == Some(HandlerOf(tid)) && forall t :: t in s.threads && t != tid ==> !Inside(s.threads[t]))
    ensures Serial(start, n)
  {
    forall t | t in n.threads && t != tid && Inside(n.threads[t]) ensures IsAlone(n, n.threads[t]) {
      assert IsAlone(s, s.threads[t]);
    }
  }

  lemma ActStaysSerial(start: Store, s: State, e: Event)
    requires Safe(s) && Serial(start, s) && Enabled(s, e) && e.Act?
    ensures Serial(start, Next(s, e))
  {
    ActIsSafe(s, e);
    var t := s.threads[e.tid];
    var call := CallBy(t, e.env, e.order);
    CallsFitRequest(t.request, t.told);
    assert IsAlone(s, t);
    CallGrows(s.base, t.request, t.calls, t.told, call);
    MoveStaysSerial(start, s, Next(s, e), e.tid, Next(s, e).threads[e.tid]);
  }

  lemma LockStoreStaysSerial(start: Store, s: State, e: Event)
    requires Safe(s) && Serial(start, s) && Enabled(s, e) && e.LockStore?
    ensures Serial(start, Next(s, e))
  {
    var t := s.threads[e.tid];
    assert IsAlone(s, t) && ThreadIsPlaced(t);
    CallGrows(s.base, t.request, t.calls, t.told, LockCall(e.env));
    MoveStaysSerial(start, s, Next(s, e), e.tid, Next(s, e).threads[e.tid]);
  }

  /** A callback is a handler with one call. */
  lemma CallbackIsServedAlone(before: Store, env: Env)
    requires before.Valid()
    ensures var j := Job(Request.Lock, before, [LockCall(env)], [LockAnswer(before, env)]);
            ServedAlone(j) && StoreAfter(j) == Spec.Lock(before, env).store
  {
    var call := LockCall(env);
    assert MayRun(before, []) && MayCall(before, call);
    CallGrows(before, Request.Lock, [], [], call);
    assert [] + [call] == [call];
    assert [] + [Reply(before, call)] == [LockAnswer(before, env)];
  }

  lemma CallbackLockStaysSerial(start: Store, s: State, e: Event)
    requires Safe(s) && Serial(start, s) && Enabled(s, e) && e.CallbackLock?
    ensures Serial(start, Next(s, e))
  {
    CallbackIsServedAlone(s.base, e.env);
    OneMoreServed(start, s.served, Job(Request.Lock, s.base, [LockCall(e.env)], [LockAnswer(s.base, e.env)]));
  }

  lemma ReleaseStaysSerial(start: Store, s: State, tid: ThreadId)
    requires Safe(s) && Serial(start, s) && Enabled(s, Release(tid))
    ensures Serial(start, Next(s, Release(tid)))
  {
    var t := s.threads[tid];
    var n := Next(s, Release(tid));
    assert IsAlone(s, t);
    OneMoreServed(start, s.served, Job(t.request, s.base, t.calls, t.told));
    forall u | u in n.threads && Inside(n.threads[u]) ensures IsAlone(n, n.threads[u]) {
      assert IsAlone(s, s.threads[u]);
    }
  }

  lemma ArriveStaysSerial(start: Store, s: State, e: Event)
    requires Safe(s) && Serial(start, s) && Enabled(s, e) && e.Arrive?
    ensures Serial(start, Next(s, e))
  {
    var n := Next(s, e);
    forall t | t in n.threads && Inside(n.threads[t]) ensures IsAlone(n, n.threads[t]) {
      assert IsAlone(s, s.threads[t]);
    }
  }

  /** Whoever comes in finds the store as the last writer left it. */
  lemma AcquireStaysSerial(start: Store, s: State, tid: ThreadId)
    requires Safe(s) && Serial(start, s) && Enabled(s, Acquire(tid))
    ensures Serial(start, Next(s, Acquire(tid)))
  {
    var n := Next(s, Acquire(tid));
    NewcomerIsAlone(s, tid);
    forall t | t in n.threads && t != tid && Inside(n.threads[t]) ensures IsAlone(n, n.threads[t]) {
      assert IsAlone(s, s.threads[t]);
    }
  }

  lemma NewcomerIsAlone(s: State, tid: ThreadId)
    requires Safe(s) && Enabled(s, Acquire(tid)) && s.store == s.base
    ensures var n := Next(s, Acquire(tid)); IsAlone(n, n.threads[tid])
  {
    assert ThreadIsPlaced(s.threads[tid]);
    assert s.threads[tid].calls == [] && s.threads[tid].told == [];
  }

  lemma CheckStaysSerial(start: Store, s: State, tid: ThreadId)
    requires Safe(s) && Serial(start, s) && Enabled(s, Check(tid))
    ensures Serial(start, Next(s, Check(tid)))
  {
    var n := Next(s, Check(tid));
    assert IsAlone(s, s.threads[tid]);
    MoveStaysSerial(start, s, n, tid, n.threads[tid]);
  }

  lemma FinishStaysSerial(start: Store, s: State, tid: ThreadId)
    requires Safe(s) && Serial(start, s) && Enabled(s, Finish(tid))
    ensures Serial(start, Next(s, Finish(tid)))
  {
    var n := Next(s, Finish(tid));
    assert IsAlone(s, s.threads[tid]);
    MoveStaysSerial(start, s, n, tid, n.threads[tid]);
  }

  lemma ResetStaysSerial(start: Store, s: State, e: Event)
    requires Safe(s) && Serial(start, s) && Enabled(s, e)
    requires e.ReadTimer? || e.ArmTimer?
    ensures Serial(start, Next(s, e))
  {
    var n, t := Next(s, e), s.threads[e.tid];
    assert IsAlone(s, t) && ThreadIsPlaced(t);
    assert n.threads == s.threads[e.tid := t.(pc := n.threads[e.tid].pc)];
    MoveStaysSerial(start, s, n, e.tid, n.threads[e.tid]);
  }

  lemma StopTimerStaysSerial(start: Store, s: State, tid: ThreadId)
    requires Safe(s) && Serial(start, s) && Enabled(s, StopTimer(tid))
    ensures Serial(start, Next(s, StopTimer(tid)))
  {
    var n, t := Next(s, StopTimer(tid)), s.threads[tid];
    assert IsAlone(s, t) && ThreadIsPlaced(t);
    assert n.threads == s.threads[tid := t.(pc := n.threads[tid].pc)];
    MoveStaysSerial(start, s, n, tid, n.threads[tid]);
  }

  lemma StoreTimerStaysSerial(start: Store, s: State, tid: ThreadId)
    requires Safe(s) && Serial(start, s) && Enabled(s, StoreTimer(tid))
    ensures Serial(start, Next(s, StoreTimer(tid)))
  {
    var n := Next(s, StoreTimer(tid));
    assert IsAlone(s, s.threads[tid]) && ThreadIsPlaced(s.threads[tid]);
    MoveStaysSerial(start, s, n, tid, n.threads[tid]);
  }

  lemma TimerStaysSerial(start: Store, s: State, e: Event)
    requires Safe(s) && Serial(start, s) && Enabled(s, e)
    requires e.Tick? || e.Fire? || e.CallbackAcquire? || e.CallbackRelease?
    ensures Serial(start, Next(s, e))
  {
    var n := Next(s, e);
    forall t | t in n.threads && Inside(n.threads[t]) ensures IsAlone(n, n.threads[t]) {
      assert IsAlone(s, s.threads[t]);
    }
  }

  /** Steps of a handler inside. */
  lemma HandlerStaysSerial(start: Store, s: State, e: Event)
    requires Safe(s) && Serial(start, s) && Enabled(s, e)
    requires || e.Check? || e.Act? || e.Finish? || e.ReadTimer?
             || e.StopTimer? || e.ArmTimer? || e.StoreTimer? || e.LockStore?
    ensures Serial(start, Next(s, e))
  {
    match e
    case Check(tid) => CheckStaysSerial(start, s, tid);
    case Act(_, _, _) => ActStaysSerial(start, s, e);
    case Finish(tid) => FinishStaysSerial(start, s, tid);
    case StopTimer(tid) => StopTimerStaysSerial(start, s, tid);
    case StoreTimer(tid) => StoreTimerStaysSerial(start, s, tid);
    case LockStore(_, _) => LockStoreStaysSerial(start, s, e);
    case _ => ResetStaysSerial(start, s, e);
  }

  lemma StepStaysSerial(start: Store, s: State, e: Event)
    requires Safe(s) && Serial(start, s) && Enabled(s, e)
    ensures Serial(start, Next(s, e))
  {
    match e
    case CallbackLock(_, _) => CallbackLockStaysSerial(start, s, e);
    case Release(tid) => ReleaseStaysSerial(start, s, tid);
    case Arrive(_, _) => ArriveStaysSerial(start, s, e);
    case Acquire(tid) => AcquireStaysSerial(start, s, tid);
    case Tick(_) => TimerStaysSerial(start, s, e);
    case Fire(_) => TimerStaysSerial(start, s, e);
    case CallbackAcquire(_) => TimerStaysSerial(start, s, e);
    case CallbackRelease(_) => TimerStaysSerial(start, s, e);
    case _ => HandlerStaysSerial(start, s, e);
  }

  lemma {:induction false} RunStaysSerial(start: Store, s: State, events: seq<Event>)
    requires Safe(s) && Serial(start, s) && IsRun(s, events)
    ensures Safe(After(s, events)) && Serial(start, After(s, events))
    decreases |events|
  {
    if events != [] {
      StepIsSafe(s, events[0]);
      StepStaysSerial(start, s, events[0]);
      RunStaysSerial(start, Next(s, events[0]), events[1..]);
    }
  }

  /**
     Atomicity of handlers. In every interleaving, those that have left were served whole, one after
     the other, each alone with the store the one before left; those inside have had it alone so far.
   */
  lemma {:induction false} HandlersAreAtomic(disk: Disk, duration: nat, now: Instant, events: seq<Event>)
    requires IsRun(Started(disk, duration, now), events)
    ensures var s := After(Started(disk, duration, now), events);
            && ServedInOrder(NewStore(true, disk), s.served, s.base)
            && (s.threads == map[] && s.writer.None? ==> s.store == s.base)
            && forall t :: t in s.threads && Inside(s.threads[t]) ==>
                 && RunsAlone(s.base, s.threads[t].request, s.threads[t].calls, s.threads[t].told)
                 && s.store == Final(s.base, s.threads[t].calls)
  {
    RunStaysSerial(NewStore(true, disk), Started(disk, duration, now), events);
  }

  // ---------- the runs of the store behind an interleaving ----------

  /** The calls of all who have left, in the order they were served. */
  ghost function CallsServed(jobs: seq<Job>): seq<Call> {
    if jobs == [] then [] else CallsServed(jobs[..|jobs| - 1]) + jobs[|jobs| - 1].calls
  }

  lemma {:induction false} RunsJoin(s: Store, calls: seq<Call>, more: seq<Call>)
    requires MayRun(s, calls) && MayRun(Final(s, calls), more)
    ensures MayRun(s, calls + more)
    ensures Final(s, calls + more) == Final(Final(s, calls), more)
    decreases |calls|
  {
    if calls == [] {
      assert calls + more == more;
    } else {
      RunsJoin(Update(s, calls[0]).store, calls[1..], more);
      RunConses(s, calls[0], calls[1..] + more);
      assert calls + more == [calls[0]] + (calls[1..] + more);
    }
  }

  lemma {:induction false} PrefixServed(start: Store, jobs: seq<Job>, end: Store, k: nat)
    requires ServedInOrder(start, jobs, end) && k < |jobs|
    ensures ServedInOrder(start, jobs[..k], jobs[k].before) && ServedAlone(jobs[k])
  {
    var last := |jobs| - 1;
    if k < last {
      PrefixServed(start, jobs[..last], jobs[last].before, k);
      assert jobs[..last][..k] == jobs[..k];
    }
  }

  /** Serving whole handlers is one run of the store. */
  lemma {:induction false} ServedIsOneRun(start: Store, jobs: seq<Job>, end: Store)
    requires ServedInOrder(start, jobs, end)
    ensures MayRun(start, CallsServed(jobs)) && Final(start, CallsServed(jobs)) == end
  {
    if jobs != [] {
      var last := |jobs| - 1;
      ServedIsOneRun(start, jobs[..last], jobs[last].before);
      RunsJoin(start, CallsServed(jobs[..last]), jobs[last].calls);
    }
  }

  /** Every handler found what the calls of those served before it make of the store. */
  lemma {:induction false} FoundAfterOthers(start: Store, jobs: seq<Job>, end: Store, k: nat)
    requires ServedInOrder(start, jobs, end) && k < |jobs|
    ensures MayRun(start, CallsServed(jobs[..k])) && jobs[k].before == Final(start, CallsServed(jobs[..k]))
    ensures ServedAlone(jobs[k])
  {
    PrefixServed(start, jobs, end, k);
    ServedIsOneRun(start, jobs[..k], jobs[k].before);
  }

  // ---------- when file operations succeed: a plain map ----------

  /** The file operations of the calls made so far have succeeded. */
  ghost predicate FilesHaveWorked(s: State) {
    && (forall k :: 0 <= k < |s.served| ==> FilesWorkThroughout(s.served[k].calls))
    && (forall t :: t in s.threads ==> FilesWorkThroughout(s.threads[t].calls))
  }

  ghost predicate EventFilesWork(s: State, e: Event)
    requires Enabled(s, e)
  {
    e.Act? ==> FilesWork(CallBy(s.threads[e.tid], e.env, e.order))
  }

  /** Every call of the run has its file operations succeed. */
  ghost predicate AllFilesWork(s: State, events: seq<Event>)
    requires IsRun(s, events)
    decreases |events|
  {
    events == [] || (EventFilesWork(s, events[0]) && AllFilesWork(Next(s, events[0]), events[1..]))
  }

  lemma {:induction false} FilesKeepWorking(s: State, events: seq<Event>)
    requires FilesHaveWorked(s) && IsRun(s, events) && AllFilesWork(s, events)
    ensures FilesHaveWorked(After(s, events))
    decreases |events|
  {
    if events != [] {
      FilesWorkInStep(s, events[0]);
      FilesKeepWorking(Next(s, events[0]), events[1..]);
    }
  }

  lemma FilesWorkInStep(s: State, e: Event)
    requires FilesHaveWorked(s) && Enabled(s, e) && EventFilesWork(s, e)
    ensures FilesHaveWorked(Next(s, e))
  {
    var n := Next(s, e);
    forall t | t in n.threads ensures FilesWorkThroughout(n.threads[t].calls) {
      FilesWorkInThread(s, e, t);
    }
    if n.served != s.served {
      var job := n.served[|s.served|];
      assert n.served == s.served + [job];
      assert FilesWorkThroughout(job.calls);
    }
  }

  lemma FilesWorkInThread(s: State, e: Event, t: ThreadId)
    requires FilesHaveWorked(s) && Enabled(s, e) && EventFilesWork(s, e) && t in Next(s, e).threads
    ensures FilesWorkThroughout(Next(s, e).threads[t].calls)
  {
    CallsGrowByOne(s, e, t);
    if t in s.threads {
      assert FilesWorkThroughout(s.threads[t].calls);
    }
  }

  /** A step adds at most one call to what a handler has made: the one it acts with, or that of `Lock`. */
  lemma CallsGrowByOne(s: State, e: Event, t: ThreadId)
    requires Enabled(s, e) && t in Next(s, e).threads
    ensures t !in s.threads ==> Next(s, e).threads[t].calls == []
    ensures t in s.threads ==>
              || Next(s, e).threads[t].calls == s.threads[t].calls
              || (e.Act? && e.tid == t
                  && Next(s, e).threads[t].calls == s.threads[t].calls + [CallBy(s.threads[t], e.env, e.order)])
              || (e.LockStore? && Next(s, e).threads[t].calls == s.threads[t].calls + [LockCall(e.env)])
  {
  }

  /** What the handlers served make of a plain vault. */
  ghost function PlainAfter(a: Plain, jobs: seq<Job>): Plain {
    PlainFinal(a, CallsServed(jobs))
  }

  lemma {:induction false} PlainRunsJoin(a: Plain, calls: seq<Call>, more: seq<Call>)
    ensures PlainFinal(a, calls + more) == PlainFinal(PlainFinal(a, calls), more)
    decreases |calls|
  {
    if calls == [] {
      assert calls + more == more;
    } else {
      PlainRunsJoin(PlainUpdate(a, calls[0]), calls[1..], more);
      assert (calls + more)[1..] == calls[1..] + more;
    }
  }

  lemma {:induction false} FilesWorkInServed(jobs: seq<Job>)
    requires forall k :: 0 <= k < |jobs| ==> FilesWorkThroughout(jobs[k].calls)
    ensures FilesWorkThroughout(CallsServed(jobs))
  {
    if jobs != [] {
      FilesWorkInServed(jobs[..|jobs| - 1]);
    }
  }

  /** What a plain vault tells the handler served as number `k`, and what is left of it then. */
  ghost predicate ToldByPlainMap(a: Plain, jobs: seq<Job>, k: nat)
    requires k < |jobs|
  {
    var plain := PlainAfter(a, jobs[..k]);
    && Represents(jobs[k].before, plain)
    && jobs[k].told == PlainReplies(plain, jobs[k].calls)
    && PlainAfter(a, jobs[..k + 1]) == PlainFinal(plain, jobs[k].calls)
  }

  lemma {:induction false} PlainGrows(a: Plain, jobs: seq<Job>, k: nat)
    requires k < |jobs|
    ensures PlainAfter(a, jobs[..k + 1]) == PlainFinal(PlainAfter(a, jobs[..k]), jobs[k].calls)
  {
    assert jobs[..k + 1][..k] == jobs[..k];
    PlainRunsJoin(a, CallsServed(jobs[..k]), jobs[k].calls);
  }

  lemma {:induction false} ServedByPlainMap(start: Store, a: Plain, jobs: seq<Job>, end: Store, k: nat)
    requires Represents(start, a) && ServedInOrder(start, jobs, end) && k < |jobs|
    requires forall i :: 0 <= i < |jobs| ==> FilesWorkThroughout(jobs[i].calls)
    ensures ToldByPlainMap(a, jobs, k)
  {
    FoundAfterOthers(start, jobs, end, k);
    FilesWorkInServed(jobs[..k]);
    var plain := PlainAfter(a, jobs[..k]);
    assert Represents(jobs[k].before, plain) by {
      RunRefines(start, a, CallsServed(jobs[..k]));
    }
    assert jobs[k].told == PlainReplies(plain, jobs[k].calls) by {
      RunRefines(jobs[k].before, plain, jobs[k].calls);
    }
    PlainGrows(a, jobs, k);
  }

  /**
     In every interleaving of a daemon started on the files of a plain vault, or on none, in which file
     operations succeed: each handler as a whole is told what a plain map with a password and a lock bit
     tells it, in the state the handlers before it left it in.
   */
  lemma {:induction false} DaemonIsPlainMap(disk: Disk, a: Plain, duration: nat, now: Instant, events: seq<Event>)
    requires Represents(NewStore(true, disk), a)
    requires IsRun(Started(disk, duration, now), events) && AllFilesWork(Started(disk, duration, now), events)
    ensures var s := After(Started(disk, duration, now), events);
            && ServedInOrder(NewStore(true, disk), s.served, s.base)
            && forall k :: 0 <= k < |s.served| ==> ToldByPlainMap(a, s.served, k)
  {
    HandlersAreAtomic(disk, duration, now, events);
    FilesKeepWorking(Started(disk, duration, now), events);
    var s := After(Started(disk, duration, now), events);
    forall k | 0 <= k < |s.served| ensures ToldByPlainMap(a, s.served, k) {
      ServedByPlainMap(NewStore(true, disk), a, s.served, s.base, k);
    }
  }

  /** So it is from an empty directory. */
  lemma {:induction false} NewDaemonIsPlainMap(duration: nat, now: Instant, events: seq<Event>)
    requires IsRun(Started(Disk(NoMeta, NoData), duration, now), events)
    requires AllFilesWork(Started(Disk(NoMeta, NoData), duration, now), events)
    ensures var s := After(Started(Disk(NoMeta, NoData), duration, now), events);
            && ServedInOrder(FRESH, s.served, s.base)
            && forall k :: 0 <= k < |s.served| ==> ToldByPlainMap(NoVault, s.served, k)
  {
    DaemonIsPlainMap(Disk(NoMeta, NoData), NoVault, duration, now, events);
  }

  // ---------- the files ----------

  /** The store calls of a run, in the order the steps happen. */
  ghost function CallsOf(s: State, events: seq<Event>): seq<Call>
    requires IsRun(s, events)
    decreases |events|
  {
    if events == [] then []
    else
      var rest := CallsOf(Next(s, events[0]), events[1..]);
      match events[0]
      case Act(tid, env, order) => [CallBy(s.threads[tid], env, order)] + rest
      case LockStore(_, env) => [LockCall(env)] + rest
      case CallbackLock(_, env) => [LockCall(env)] + rest
      case _ => rest
  }

  lemma StepIsOneCallOrNone(s: State, e: Event)
    requires Safe(s) && Enabled(s, e)
    ensures match e
            case Act(tid, env, order) =>
              var call := CallBy(s.threads[tid], env, order);
              MayCall(s.store, call) && Next(s, e).store == Update(s.store, call).store
            case LockStore(_, env) => Next(s, e).store == Update(s.store, LockCall(env)).store
            case CallbackLock(_, env) => Next(s, e).store == Update(s.store, LockCall(env)).store
            case _ => Next(s, e).store == s.store
  {
    if e.Act? {
      ActIsSafe(s, e);
    }
  }

  lemma {:induction false} RunIsSequential(s: State, events: seq<Event>)
    requires Safe(s) && IsRun(s, events)
    ensures MayRun(s.store, CallsOf(s, events))
    ensures After(s, events).store == Final(s.store, CallsOf(s, events))
    decreases |events|
  {
    if events != [] {
      var e := events[0];
      StepIsSafe(s, e);
      StepIsOneCallOrNone(s, e);
      RunIsSequential(Next(s, e), events[1..]);
      var calls := CallsOf(s, events);
      if e.Act? || e.LockStore? || e.CallbackLock? {
        assert calls[1..] == CallsOf(Next(s, e), events[1..]);
      }
    }
  }

  /**
     Disk coherence in every interleaving on any files, whatever fails: the writes of the daemon are those
     of one run of the store, and what `DiskIsCoherent` says of it holds.
   */
  lemma {:induction false} DaemonKeepsDiskCoherent(disk: Disk, duration: nat, now: Instant, events: seq<Event>)
    requires IsRun(Started(disk, duration, now), events)
    ensures var s := Started(disk, duration, now);
            var calls := CallsOf(s, events);
            && MayRun(s.store, calls) && ExactThroughout(s.store, calls)
            && (NeverUnlocksMixedFiles(s.store, calls) ==> EveryWriteIsExact(s.store, calls))
            && (Coherent(disk) && AllSurvive(s.store, calls) ==>
                  NeverUnlocksMixedFiles(s.store, calls) && Sound(After(s, events).store))
  {
    RunIsSequential(Started(disk, duration, now), events);
    DiskIsCoherent(true, disk, CallsOf(Started(disk, duration, now), events));
  }

  // ---------- the daemon over several lives ----------

  lemma {:induction false} FilesWorkInCalls(s: State, events: seq<Event>)
    requires IsRun(s, events) && AllFilesWork(s, events)
    ensures FilesWorkThroughout(CallsOf(s, events))
    decreases |events|
  {
    if events != [] {
      FilesWorkInCalls(Next(s, events[0]), events[1..]);
    }
  }

  /** The plain vault behind a daemon after some events, and as its files hold it. */
  ghost function PlainNow(a: Plain, s: State, events: seq<Event>): Plain
    requires IsRun(s, events)
  {
    PlainFinal(a, CallsOf(s, events))
  }

  function LockedUp(a: Plain): Plain {
    if a.NoVault? then a else a.(locked := true)
  }

  /**
     A daemon may stop at any step, whoever is inside: another one started on its files finds the same
     plain vault, locked, and `DaemonIsPlainMap` holds for it again.
   */
  lemma {:induction false} DaemonMayRestart(disk: Disk, a: Plain, duration: nat, now: Instant, events: seq<Event>)
    requires Represents(NewStore(true, disk), a)
    requires IsRun(Started(disk, duration, now), events) && AllFilesWork(Started(disk, duration, now), events)
    ensures var s := Started(disk, duration, now);
            && Represents(After(s, events).store, PlainNow(a, s, events))
            && Represents(NewStore(true, After(s, events).store.disk), LockedUp(PlainNow(a, s, events)))
  {
    var s := Started(disk, duration, now);
    RunIsSequential(s, events);
    FilesWorkInCalls(s, events);
    RunRefines(s.store, a, CallsOf(s, events));
    StoppedStoreRepresents(After(s, events).store, PlainNow(a, s, events));
  }

  lemma StoppedStoreRepresents(s: Store, a: Plain)
    requires Represents(s, a)
    ensures Represents(NewStore(true, s.disk), LockedUp(a))
  {
  }
}
