/**
 The daemon as a concurrent machine: handlers under one `sync.RWMutex`, and auto-lock timers whose
 callbacks compete for it. Every access to shared state is a step of its own, so several readers
 can be inside `resetAutoLock` at once, and a handler makes its store calls one by one.
 */
module DaemonProtocol {
  import opened Secrets
  import opened Primitives
  import Spec = StoreSpec
  import opened StoreSpec
  import opened StoreRefinement
  import Handlers

  /** What a handler is asked to do, once the request is decoded. `BadSecret` is refused after the check. */
  datatype Request =
    | Init(password: string)
    | Unlock(password: string)
    | Lock
    | Password(oldPassword: string, newPassword: string)
    | Secrets(prefix: string)
    | GetSecret(path: string)
    | PutSecret(path: string, value: string, fields: Option<map<string, string>>, tags: Option<map<string, string>>)
    | DeleteSecret(path: string)
    | BadSecret
    | Search(query: Handlers.Query)
    | Export(prefix: string)
    | Import(entries: seq<Handlers.ExportedSecret>, merge: bool)
    | Status
  {
    /** Handlers that take the read lock only. */
    predicate Reads() {
      Secrets? || Search? || Export? || Status?
    }

    /** Handlers that look at `IsLocked` first and answer 403 when it holds. */
    predicate ChecksLock() {
      !Init? && !Unlock? && !Lock? && !Status?
    }

    /** The first test of the handler lets it go on. `Status` makes no call that changes or decides anything. */
    predicate Admits(s: Store) {
      match this
      case Init(_) => !s.VaultExists()
      case Unlock(_) => s.VaultExists()
      case Lock => true
      case Status => false
      case _ => !s.IsLocked()
    }

    /** The next store call, given the answers so far. */
    function NextOp(told: seq<Answer>): Option<Op> {
      match this
      case Init(p) => Once(Op.Initialize(p), told)
      case Unlock(p) => Once(Op.Unlock(p), told)
      case Lock => Once(Op.Lock, told)
      case Password(o, n) => Once(Op.ChangePassword(o, n), told)
      case Secrets(prefix) => NextRead(prefix, told)
      case GetSecret(path) => Once(Op.Get(path), told)
      case PutSecret(path, value, fields, tags) =>
        Once(Op.Set(path, Handlers.RequestedSecret(value, fields, tags)), told)
      case DeleteSecret(path) => Once(Op.Delete(path), told)
      case Search(_) => Once(Op.List(""), told)
      case Export(prefix) => NextRead(prefix, told)
      case Import(entries, merge) => NextImport(entries, merge, told)
      case _ => None
    }

    /** Whether the handler resets the timer at the end: when its work has succeeded. */
    predicate Resets(told: seq<Answer>) {
      match this
      case Init(_) => told == [Done]
      case Unlock(_) => told == [Done]
      case PutSecret(_, _, _, _) => told == [Done]
      case DeleteSecret(_) => told == [Done]
      case GetSecret(_) => told != [] && told[0].Found?
      case Secrets(_) => told != [] && told[0].Paths?
      case Export(_) => told != [] && told[0].Paths?
      case Search(q) => told != [] && told[0].Paths? && (q.Regex? ==> q.compiled.Some?)
      case Import(_, _) => true
      case _ => false
    }
  }

  function Once(op: Op, told: seq<Answer>): Option<Op> {
    if told == [] then Some(op) else None
  }

  /** List, then get each path listed. */
  function NextRead(prefix: string, told: seq<Answer>): Option<Op> {
    if told == [] then Some(Op.List(prefix))
    else if told[0].Paths? && |told| <= |told[0].paths| then Some(Op.Get(told[0].paths[|told| - 1]))
    else None
  }

  /** For each entry ask whether its path exists, then store it unless merge protects it. */
  function NextImport(entries: seq<Handlers.ExportedSecret>, merge: bool, told: seq<Answer>): Option<Op> {
    if entries == [] then None
    else if told == [] then Some(Op.Exists(entries[0].path))
    else if told[0] == Truth(true) && merge then NextImport(entries[1..], merge, told[1..])
    else if |told| == 1 then Some(Op.Set(entries[0].path, Handlers.ImportedSecret(entries[0])))
    else NextImport(entries[1..], merge, told[2..])
  }

  type TimerId = nat
  type ThreadId = nat

  /** Where a handler is. From `Entered` on it holds the mutex. */
  datatype Pc =
    | Waiting
    | Entered
    | Acting
    | Reading                          // about to read `autoLockTimer`
    | Stopping(read: Option<TimerId>)  // about to stop the timer it read
    | Arming                           // stopped it, about to call `AfterFunc`
    | Storing(armed: TimerId)          // about to assign `autoLockTimer`
    | Locking                          // in `handleLock`, about to lock the store
    | Leaving

  /** A handler, whether it passed its `IsLocked` check, the store calls it has made and their answers. */
  datatype Thread = Thread(request: Request, pc: Pc, passed: bool, calls: seq<Call>, told: seq<Answer>)

  /** A timer: running, fired and waiting for the mutex, holding it, or finished. */
  datatype TimerState = Armed | Fired | Locks | Locked | Dead
  datatype Timer = Timer(due: Instant, state: TimerState)

  datatype Owner = HandlerOf(tid: ThreadId) | CallbackOf(id: TimerId)

  /** A handler or callback that is over, and the store it found. A callback does what `Lock` does. */
  datatype Job = Job(request: Request, before: Store, calls: seq<Call>, told: seq<Answer>)

  datatype State = State(
    store: Store,
    duration: nat,
    now: Instant,
    writer: Option<Owner>,
    readers: set<ThreadId>,
    threads: map<ThreadId, Thread>,
    timer: Option<TimerId>,            // `autoLockTimer`
    timers: map<TimerId, Timer>,
    lastReset: Instant,                // when `AfterFunc` was last called
    unguarded: bool,                   // a failed save left the vault open since then
    base: Store,                       // the store as the last writer left it
    served: seq<Job>,                  // who has left, in that order
    panicked: bool)

  datatype Event =
    | Tick(to: Instant)
    | Arrive(tid: ThreadId, request: Request)
    | Acquire(tid: ThreadId)
    | Check(tid: ThreadId)
    | Act(tid: ThreadId, env: Env, order: seq<string>)
    | Finish(tid: ThreadId)
    | ReadTimer(tid: ThreadId)
    | StopTimer(tid: ThreadId)
    | ArmTimer(tid: ThreadId, id: TimerId)
    | StoreTimer(tid: ThreadId)
    | LockStore(tid: ThreadId, env: Env)
    | Release(tid: ThreadId)
    | Fire(id: TimerId)
    | CallbackAcquire(id: TimerId)
    | CallbackLock(id: TimerId, env: Env)
    | CallbackRelease(id: TimerId)

  function Initial(store: Store, duration: nat, now: Instant): State {
    State(store, duration, now, None, {}, map[], None, map[], now, false, store, [], false)
  }

  predicate At(s: State, tid: ThreadId, pc: Pc) {
    tid in s.threads && s.threads[tid].pc == pc
  }

  predicate TimerIn(s: State, id: TimerId, state: TimerState) {
    id in s.timers && s.timers[id].state == state
  }

  /** The call a handler is about to make. */
  function CallBy(t: Thread, env: Env, order: seq<string>): Call
    requires t.request.NextOp(t.told).Some?
  {
    Call(t.request.NextOp(t.told).value, env, order)
  }

  function LockCall(env: Env): Call {
    Call(Op.Lock, env, [])
  }

  ghost predicate Enabled(s: State, e: Event) {
    !s.panicked &&
    match e
    case Tick(to) => s.now <= to
    case Arrive(tid, _) => tid !in s.threads
    case Acquire(tid) =>
      At(s, tid, Waiting) && s.writer.None? && (s.threads[tid].request.Reads() || s.readers == {})
    case Check(tid) => At(s, tid, Entered)
    case Act(tid, env, order) =>
      && At(s, tid, Acting) && s.threads[tid].request.NextOp(s.threads[tid].told).Some?
      && (CallBy(s.threads[tid], env, order).op.ChangePassword? && s.store.data.Some? ==>
            Ranges(order, s.store.data.value))
    case Finish(tid) => At(s, tid, Acting) && s.threads[tid].request.NextOp(s.threads[tid].told).None?
    case ReadTimer(tid) => At(s, tid, Reading)
    case StopTimer(tid) => tid in s.threads && s.threads[tid].pc.Stopping?
    case ArmTimer(tid, id) => At(s, tid, Arming) && id !in s.timers
    case StoreTimer(tid) => tid in s.threads && s.threads[tid].pc.Storing?
    case LockStore(tid, _) => At(s, tid, Locking)
    case Release(tid) => At(s, tid, Leaving)
    case Fire(id) => TimerIn(s, id, Armed) && s.timers[id].due <= s.now
    case CallbackAcquire(id) => TimerIn(s, id, Fired) && s.writer.None? && s.readers == {}
    case CallbackLock(id, _) => TimerIn(s, id, Locks)
    case CallbackRelease(id) => TimerIn(s, id, Locked)
  }

  function Put(s: State, tid: ThreadId, t: Thread): State {
    s.(threads := s.threads[tid := t])
  }

  function Move(s: State, tid: ThreadId, pc: Pc): State
    requires tid in s.threads
  {
    Put(s, tid, s.threads[tid].(pc := pc))
  }

  function SetTimer(s: State, id: TimerId, state: TimerState): State
    requires id in s.timers
  {
    s.(timers := s.timers[id := s.timers[id].(state := state)])
  }

  /** What the first test of a handler decides. */
  function Checked(s: State, tid: ThreadId): State
    requires tid in s.threads
  {
    var t := s.threads[tid];
    if !t.request.Admits(s.store) then Move(s, tid, Leaving)
    else if t.request.Lock? then Move(s, tid, Reading)
    else Put(s, tid, t.(pc := Acting, passed := t.request.ChecksLock()))
  }

  /** A store call and its answer. */
  ghost function Acted(s: State, tid: ThreadId, call: Call): State
    requires tid in s.threads
  {
    if !MayCall(s.store, call) then s.(panicked := true)
    else
      var t := s.threads[tid];
      var after := Update(s.store, call).store;
      var reply := Reply(s.store, call);
      var failedInit := call.op.Initialize? && reply.Refused? && s.store.IsLocked() && !after.IsLocked();
      Put(s, tid, t.(calls := t.calls + [call], told := t.told + [reply])).(
        store := after, unguarded := s.unguarded || failedInit)
  }

  function LockAnswer(s: Store, env: Env): Answer {
    StoreRefinement.Status(Spec.Lock(s, env).result)
  }

  function StoreLocked(s: State, env: Env): State {
    var step := Spec.Lock(s.store, env);
    s.(store := step.store, unguarded := s.unguarded || step.result.Err?)
  }

  function Released(s: State, tid: ThreadId): State
    requires tid in s.threads
  {
    var t := s.threads[tid];
    var over := s.(threads := s.threads - {tid}, served := s.served + [Job(t.request, s.base, t.calls, t.told)]);
    if t.request.Reads() then over.(readers := s.readers - {tid})
    else over.(writer := None, base := s.store)
  }

  function CallbackLocked(s: State, id: TimerId, env: Env): State
    requires id in s.timers
  {
    var n := StoreLocked(SetTimer(s, id, Locked), env);
    n.(base := n.store, served := s.served + [Job(Request.Lock, s.base, [LockCall(env)], [LockAnswer(s.store, env)])])
  }

  ghost function Next(s: State, e: Event): State
    requires Enabled(s, e)
  {
    match e
    case Tick(to) => s.(now := to)
    case Arrive(tid, request) => Put(s, tid, Thread(request, Waiting, false, [], []))
    case Acquire(tid) =>
      if s.threads[tid].request.Reads()
      then Move(s, tid, Entered).(readers := s.readers + {tid})
      else Move(s, tid, Entered).(writer := Some(HandlerOf(tid)))
    case Check(tid) => Checked(s, tid)
    case Act(tid, env, order) => Acted(s, tid, CallBy(s.threads[tid], env, order))
    case Finish(tid) => Move(s, tid, if s.threads[tid].request.Resets(s.threads[tid].told) then Reading else Leaving)
    case ReadTimer(tid) => Move(s, tid, Stopping(s.timer))
    case StopTimer(tid) =>
      var read := s.threads[tid].pc.read;
      var stopped := if read.Some? && TimerIn(s, read.value, Armed) then SetTimer(s, read.value, Dead) else s;
      Move(stopped, tid, if s.threads[tid].request.Lock? then Locking else Arming)
    case ArmTimer(tid, id) =>
      Move(s, tid, Storing(id)).(
        timers := s.timers[id := Timer(s.now + s.duration, Armed)], lastReset := s.now, unguarded := false)
    case StoreTimer(tid) => Move(s, tid, Leaving).(timer := Some(s.threads[tid].pc.armed))
    case LockStore(tid, env) =>
      var t := s.threads[tid];
      StoreLocked(Put(s, tid, t.(pc := Leaving, calls := t.calls + [LockCall(env)],
                                 told := t.told + [LockAnswer(s.store, env)])), env)
    case Release(tid) => Released(s, tid)
    case Fire(id) => SetTimer(s, id, Fired)
    case CallbackAcquire(id) => SetTimer(s, id, Locks).(writer := Some(CallbackOf(id)))
    case CallbackLock(id, env) => CallbackLocked(s, id, env)
    case CallbackRelease(id) => SetTimer(s, id, Dead).(writer := None)
  }

  // ---------- invariants ----------

  ghost predicate Inside(t: Thread) {
    t.pc != Waiting
  }

  ghost predicate MutexIsHeldRight(s: State) {
    && (s.writer.Some? ==> s.readers == {})
    && (forall t :: t in s.readers ==> t in s.threads && Inside(s.threads[t]) && s.threads[t].request.Reads())
    && (forall t :: t in s.threads && Inside(s.threads[t]) ==>
          if s.threads[t].request.Reads() then t in s.readers else s.writer == Some(HandlerOf(t)))
    && (s.writer.Some? && s.writer.value.HandlerOf? ==>
          var t := s.writer.value.tid; t in s.threads && Inside(s.threads[t]) && !s.threads[t].request.Reads())
    && (forall id :: id in s.timers && (s.timers[id].state.Locks? || s.timers[id].state.Locked?) ==>
          s.writer == Some(CallbackOf(id)))
    && (s.writer.Some? && s.writer.value.CallbackOf? ==>
          var id := s.writer.value.id; TimerIn(s, id, Locks) || TimerIn(s, id, Locked))
  }

  /** Resetting the timer, after the work is done. */
  predicate IsResetting(pc: Pc) {
    pc.Reading? || pc.Stopping? || pc.Arming? || pc.Storing?
  }

  /** Where each kind of handler can be. */
  ghost predicate ThreadIsPlaced(t: Thread) {
    && |t.calls| == |t.told|
    && (t.pc.Waiting? || t.pc.Entered? ==> t.calls == [] && !t.passed)
    && (t.passed ==> t.request.ChecksLock())
    && (t.pc.Acting? ==> t.passed || t.request.Init? || t.request.Unlock?)
    && (t.pc.Locking? ==> t.request.Lock?)
    && (if t.request.Lock? then !t.pc.Arming? && !t.pc.Storing? && (t.pc.Leaving? || t.told == [])
        else IsResetting(t.pc) ==> SawOpen(t) && t.request.Resets(t.told) && t.request.NextOp(t.told).None?)
  }

  /** A handler that found the vault open, or opened it. */
  ghost predicate SawOpen(t: Thread) {
    t.passed || ((t.request.Init? || t.request.Unlock?) && t.told == [Done])
  }

  /** What a handler saw open still is. */
  ghost predicate ChecksStayTrue(s: State) {
    forall t :: t in s.threads && SawOpen(s.threads[t]) ==> !s.store.IsLocked()
  }

  ghost predicate TimersAreDue(s: State) {
    && s.lastReset <= s.now
    && (forall id :: id in s.timers ==>
          && s.timers[id].due <= s.lastReset + s.duration
          && (s.timers[id].state.Fired? || s.timers[id].state.Locks? ==> s.timers[id].due <= s.now))
  }

  ghost predicate Safe(s: State) {
    && s.store.Valid() && !s.panicked
    && MutexIsHeldRight(s)
    && (forall t :: t in s.threads ==> ThreadIsPlaced(s.threads[t]))
    && ChecksStayTrue(s)
    && TimersAreDue(s)
  }

  /** No store call of a handler turns an open vault into a locked one, but `Lock` and `Unlock`. */
  lemma CallsKeepVaultOpen(s: Store, c: Call)
    requires MayCall(s, c)
    ensures Update(s, c).store.Valid()
    ensures !s.IsLocked() && !c.op.Lock? && !c.op.Unlock? && !c.op.Restart? ==> !Update(s, c).store.IsLocked()
    ensures (c.op.Initialize? || c.op.Unlock?) && Reply(s, c) == Done ==> !Update(s, c).store.IsLocked()
  {
    match c.op
    case Initialize(p) => InitializeOpens(s, p, c.env);
    case ChangePassword(o, n) => ChangePasswordKeepsOpen(s, o, n, c.env, c.order);
    case Unlock(p) => UnlockOpens(s, p, c.env);
    case _ =>
  }

  lemma InitializeOpens(s: Store, password: string, env: Env)
    requires s.Valid()
    ensures var step := Spec.Initialize(s, password, env);
            step.store.Valid() && (!s.IsLocked() || step.result.Ok? ==> !step.store.IsLocked())
  {
  }

  lemma UnlockOpens(s: Store, password: string, env: Env)
    requires s.Valid()
    ensures var step := Spec.Unlock(s, password, env);
            step.store.Valid() && (step.result.Ok? ==> !step.store.IsLocked())
  {
  }

  lemma ChangePasswordKeepsOpen(s: Store, oldPassword: string, newPassword: string, env: Env, order: seq<string>)
    requires s.Valid() && s.crypto.Some? && Ranges(order, s.data.value)
    ensures var t := Spec.ChangePassword(s, oldPassword, newPassword, env, order).store; t.Valid() && !t.IsLocked()
  {
  }

  /** The calls a handler may make, by kind. */
  lemma {:induction false} CallsFitRequest(r: Request, told: seq<Answer>)
    requires r.NextOp(told).Some?
    ensures var op := r.NextOp(told).value;
            && !op.Restart?
            && (op.Lock? <==> r.Lock?)
            && (op.Unlock? <==> r.Unlock?)
            && (op.Initialize? <==> r.Init?)
            && (r.Reads() ==> op.List? || op.Get?)
            && (op.ChangePassword? <==> r.Password?)
            && (r.ChecksLock() ==> op.Get? || op.Set? || op.Delete? || op.List? || op.Exists? || op.ChangePassword?)
  {
    if r.Import? {
      ImportsOnly(r.entries, r.merge, told);
    }
  }

  lemma {:induction false} ImportsOnly(entries: seq<Handlers.ExportedSecret>, merge: bool, told: seq<Answer>)
    ensures var op := NextImport(entries, merge, told); op.Some? ==> op.value.Exists? || op.value.Set?
  {
    if entries != [] && told != [] {
      ImportsOnly(entries[1..], merge, told[1..]);
      if |told| > 1 {
        ImportsOnly(entries[1..], merge, told[2..]);
      }
    }
  }

  lemma ActIsSafe(s: State, e: Event)
    requires Safe(s) && Enabled(s, e) && e.Act?
    ensures MayCall(s.store, CallBy(s.threads[e.tid], e.env, e.order)) && Safe(Next(s, e))
  {
    var t := s.threads[e.tid];
    var call := CallBy(t, e.env, e.order);
    CallsFitRequest(t.request, t.told);
    assert ThreadIsPlaced(t);
    assert MayCall(s.store, call);
    CallsKeepVaultOpen(s.store, call);
    ActedIsSafe(s, e.tid, call);
  }

  lemma ActedIsSafe(s: State, tid: ThreadId, call: Call)
    requires Safe(s) && At(s, tid, Acting) && MayCall(s.store, call) && Update(s.store, call).store.Valid()
    requires s.threads[tid].passed ==> !Update(s.store, call).store.IsLocked()
    requires s.threads[tid].request.Init? || s.threads[tid].request.Unlock? ==>
               s.threads[tid].told == [] && (Reply(s.store, call) == Done ==> !Update(s.store, call).store.IsLocked())
    requires s.threads[tid].request.Reads() ==> Update(s.store, call).store == s.store
    ensures Safe(Acted(s, tid, call))
  {
    var n := Acted(s, tid, call);
    var u := n.threads[tid];
    assert ThreadIsPlaced(s.threads[tid]);
    assert ThreadIsPlaced(u);
    assert MutexIsHeldRight(n);
    forall t | t in n.threads && SawOpen(n.threads[t]) ensures !n.store.IsLocked() {
      if t != tid {
        assert SawOpen(s.threads[t]);
        assert ThreadIsPlaced(s.threads[t]);
        assert Inside(s.threads[t]);
        assert s.threads[tid].request.Reads();
      } else if !u.passed {
        assert u.told == [Reply(s.store, call)];
      }
    }
  }

  lemma LockStoreIsSafe(s: State, e: Event)
    requires Safe(s) && Enabled(s, e) && e.LockStore?
    ensures Safe(Next(s, e))
  {
    var n := Next(s, e);
    assert ThreadIsPlaced(s.threads[e.tid]) && ThreadIsPlaced(n.threads[e.tid]);
    forall t | t in n.threads ensures !SawOpen(n.threads[t]) {
      assert t in s.threads && ThreadIsPlaced(s.threads[t]);
    }
  }

  lemma CallbackLockIsSafe(s: State, e: Event)
    requires Safe(s) && Enabled(s, e) && e.CallbackLock?
    ensures Safe(Next(s, e))
  {
    forall t | t in s.threads ensures !SawOpen(s.threads[t]) {
      assert ThreadIsPlaced(s.threads[t]);
    }
  }

  /** A handler inside moves on; what it claims to have seen open is open. */
  lemma PutIsSafe(s: State, tid: ThreadId, u: Thread)
    requires Safe(s) && tid in s.threads && Inside(s.threads[tid]) && Inside(u) && u.request == s.threads[tid].request
    requires ThreadIsPlaced(u) && (SawOpen(u) ==> !s.store.IsLocked())
    ensures Safe(Put(s, tid, u))
  {
  }

  lemma CheckIsSafe(s: State, tid: ThreadId)
    requires Safe(s) && Enabled(s, Check(tid))
    ensures Safe(Next(s, Check(tid)))
  {
    var n := Checked(s, tid);
    assert ThreadIsPlaced(s.threads[tid]) && ThreadIsPlaced(n.threads[tid]);
    assert n == Put(s, tid, n.threads[tid]);
    PutIsSafe(s, tid, n.threads[tid]);
  }

  lemma ArriveIsSafe(s: State, e: Event)
    requires Safe(s) && Enabled(s, e) && e.Arrive?
    ensures Safe(Next(s, e))
  {
  }

  lemma ReadLockIsSafe(s: State, tid: ThreadId)
    requires Safe(s) && Enabled(s, Acquire(tid)) && s.threads[tid].request.Reads()
    ensures Safe(Next(s, Acquire(tid)))
  {
    assert ThreadIsPlaced(s.threads[tid]);
  }

  lemma WriteLockIsSafe(s: State, tid: ThreadId)
    requires Safe(s) && Enabled(s, Acquire(tid)) && !s.threads[tid].request.Reads()
    ensures Safe(Next(s, Acquire(tid)))
  {
    assert ThreadIsPlaced(s.threads[tid]);
  }

  lemma AcquireIsSafe(s: State, e: Event)
    requires Safe(s) && Enabled(s, e) && e.Acquire?
    ensures Safe(Next(s, e))
  {
    if s.threads[e.tid].request.Reads() {
      ReadLockIsSafe(s, e.tid);
    } else {
      WriteLockIsSafe(s, e.tid);
    }
  }

  lemma ReleaseIsSafe(s: State, e: Event)
    requires Safe(s) && Enabled(s, e) && e.Release?
    ensures Safe(Next(s, e))
  {
  }

  lemma FinishIsSafe(s: State, e: Event)
    requires Safe(s) && Enabled(s, e) && (e.Finish? || e.ReadTimer?)
    ensures Safe(Next(s, e))
  {
    assert ThreadIsPlaced(s.threads[e.tid]);
    PutIsSafe(s, e.tid, Next(s, e).threads[e.tid]);
  }

  lemma StoreTimerIsSafe(s: State, tid: ThreadId)
    requires Safe(s) && Enabled(s, StoreTimer(tid))
    ensures Safe(Next(s, StoreTimer(tid)))
  {
    assert ThreadIsPlaced(s.threads[tid]);
    PutIsSafe(s, tid, s.threads[tid].(pc := Leaving));
  }

  lemma TimerMoveIsSafe(s: State, e: Event)
    requires Safe(s) && Enabled(s, e) && (e.Tick? || e.Fire?)
    ensures Safe(Next(s, e))
  {
  }

  lemma CallbackMoveIsSafe(s: State, e: Event)
    requires Safe(s) && Enabled(s, e) && (e.CallbackAcquire? || e.CallbackRelease?)
    ensures Safe(Next(s, e))
  {
  }

  lemma TimerStopIsSafe(s: State, id: TimerId)
    requires Safe(s) && TimerIn(s, id, Armed)
    ensures Safe(SetTimer(s, id, Dead))
  {
  }

  lemma StopIsSafe(s: State, tid: ThreadId)
    requires Safe(s) && Enabled(s, StopTimer(tid))
    ensures Safe(Next(s, StopTimer(tid)))
  {
    assert ThreadIsPlaced(s.threads[tid]);
    var u := s.threads[tid].(pc := if s.threads[tid].request.Lock? then Locking else Arming);
    var read := s.threads[tid].pc.read;
    if read.Some? && TimerIn(s, read.value, Armed) {
      TimerStopIsSafe(s, read.value);
      PutIsSafe(SetTimer(s, read.value, Dead), tid, u);
    } else {
      PutIsSafe(s, tid, u);
    }
  }

  lemma ArmIsSafe(s: State, tid: ThreadId, id: TimerId)
    requires Safe(s) && Enabled(s, ArmTimer(tid, id))
    ensures Safe(Next(s, ArmTimer(tid, id)))
  {
    assert ThreadIsPlaced(s.threads[tid]);
  }

  lemma StepIsSafe(s: State, e: Event)
    requires Safe(s) && Enabled(s, e)
    ensures Safe(Next(s, e))
  {
    match e
    case Act(_, _, _) => ActIsSafe(s, e);
    case Check(tid) => CheckIsSafe(s, tid);
    case Arrive(_, _) => ArriveIsSafe(s, e);
    case Acquire(_) => AcquireIsSafe(s, e);
    case Release(_) => ReleaseIsSafe(s, e);
    case LockStore(_, _) => LockStoreIsSafe(s, e);
    case CallbackLock(_, _) => CallbackLockIsSafe(s, e);
    case Tick(_) => TimerMoveIsSafe(s, e);
    case Fire(_) => TimerMoveIsSafe(s, e);
    case CallbackAcquire(_) => CallbackMoveIsSafe(s, e);
    case CallbackRelease(_) => CallbackMoveIsSafe(s, e);
    case StopTimer(tid) => StopIsSafe(s, tid);
    case ArmTimer(tid, id) => ArmIsSafe(s, tid, id);
    case StoreTimer(tid) => StoreTimerIsSafe(s, tid);
    case _ => FinishIsSafe(s, e);
  }

  // ---------- who may come in ----------

  /** Requests that only look. */
  predicate IsQuery(r: Request) {
    match r
    case Secrets(_) => true
    case Search(_) => true
    case Export(_) => true
    case Status => true
    case _ => false
  }

  /** A query comes in as long as no writer or callback is inside, everyone else only when nobody is. */
  lemma WhoMayComeIn(s: State, tid: ThreadId)
    requires Safe(s) && At(s, tid, Waiting)
    ensures var nobody := s.writer.None? && forall t :: t in s.threads ==> !Inside(s.threads[t]);
            Enabled(s, Acquire(tid)) <==>
              nobody || (IsQuery(s.threads[tid].request)
                         && s.writer.None? && forall t :: t in s.threads && Inside(s.threads[t]) ==>
                              IsQuery(s.threads[t].request))
  {
    if s.readers != {} {
      var r :| r in s.readers;
      assert Inside(s.threads[r]);
    }
  }

  // ---------- who may change the store ----------

  lemma ReaderCallsFreezeStore(s: State, e: Event)
    requires Safe(s) && Enabled(s, e) && s.readers != {} && e.Act?
    ensures Next(s, e).store == s.store
  {
    var r :| r in s.readers;
    assert s.threads[e.tid].request.Reads();
    ActIsSafe(s, e);
    CallsFitRequest(s.threads[e.tid].request, s.threads[e.tid].told);
  }

  /** While a reader is inside, no step changes the store. */
  lemma ReadersFreezeStore(s: State, e: Event)
    requires Safe(s) && Enabled(s, e) && s.readers != {}
    ensures Next(s, e).store == s.store
  {
    if e.Act? {
      ReaderCallsFreezeStore(s, e);
    } else {
      var r :| r in s.readers;
    }
  }

  /** While a writer is inside, only its own steps change the store, and no one else makes a call. */
  lemma WriterOwnsStore(s: State, e: Event, tid: ThreadId)
    requires Safe(s) && Enabled(s, e) && s.writer == Some(HandlerOf(tid))
    ensures Next(s, e).store != s.store ==> (e.Act? || e.LockStore?) && e.tid == tid
    ensures e.Act? || e.LockStore? || e.Check? ==> e.tid == tid
    ensures !e.CallbackLock? && !e.Acquire? && !e.CallbackAcquire?
  {
  }

  // ---------- whole runs ----------

  ghost predicate IsRun(s: State, events: seq<Event>)
    decreases |events|
  {
    events == [] || (Enabled(s, events[0]) && IsRun(Next(s, events[0]), events[1..]))
  }

  ghost function After(s: State, events: seq<Event>): State
    requires IsRun(s, events)
    decreases |events|
  {
    if events == [] then s else After(Next(s, events[0]), events[1..])
  }

  lemma {:induction false} RunIsSafe(s: State, events: seq<Event>)
    requires Safe(s) && IsRun(s, events)
    ensures Safe(After(s, events))
    decreases |events|
  {
    if events != [] {
      StepIsSafe(s, events[0]);
      RunIsSafe(Next(s, events[0]), events[1..]);
    }
  }

  /** The daemon as it starts: a new store over whatever is on disk, nobody inside. */
  function Started(disk: Disk, duration: nat, now: Instant): State {
    Initial(NewStore(true, disk), duration, now)
  }

  /**
     Check, then act: in every interleaving, a handler that passed its `IsLocked` check finds the
     vault open until it releases the mutex. So `ChangePassword` never meets a nil crypto object,
     and no store call a handler makes is refused because the vault is locked.
   */
  lemma {:induction false} CheckThenAct(disk: Disk, duration: nat, now: Instant, events: seq<Event>)
    requires IsRun(Started(disk, duration, now), events)
    ensures var s := After(Started(disk, duration, now), events);
            && !s.panicked
            && (forall t :: t in s.threads && s.threads[t].passed ==> !s.store.IsLocked())
            && (forall t, env, order :: Enabled(s, Act(t, env, order)) ==>
                  var call := CallBy(s.threads[t], env, order);
                  MayCall(s.store, call) && (s.threads[t].passed ==> Reply(s.store, call) != Refused(VaultLocked)))
  {
    RunIsSafe(Started(disk, duration, now), events);
    var s := After(Started(disk, duration, now), events);
    forall t, env, order | Enabled(s, Act(t, env, order))
      ensures MayCall(s.store, CallBy(s.threads[t], env, order))
      ensures s.threads[t].passed ==> Reply(s.store, CallBy(s.threads[t], env, order)) != Refused(VaultLocked)
    {
      ActIsSafe(s, Act(t, env, order));
      CallsFitRequest(s.threads[t].request, s.threads[t].told);
      assert ThreadIsPlaced(s.threads[t]);
      if s.threads[t].passed {
        OpenVaultDoesNotRefuse(s.store, CallBy(s.threads[t], env, order));
      }
    }
  }

  lemma OpenVaultDoesNotRefuse(s: Store, c: Call)
    requires MayCall(s, c) && !s.IsLocked()
    requires c.op.Get? || c.op.Set? || c.op.Delete? || c.op.List? || c.op.Exists? || c.op.ChangePassword?
    ensures Reply(s, c) != Refused(VaultLocked)
  {
    if c.op.ChangePassword? && Update(s, c).trail == [] && c.env.salt.Some? {
      var key := IdKey(c.op.newPassword, c.env.salt.value, DEFAULT_PARAMS);
      ReencryptIsNotLocked(c.order, s.data.value, s.crypto.value.key.value, key, c.env.renonce);
    }
  }

  lemma {:induction false} ReencryptIsNotLocked(order: seq<string>, secrets: map<string, Encoded>,
                                                key: Bytes, newKey: Bytes, renonce: string -> Option<Nonce>)
    requires forall p :: p in order ==> p in secrets
    ensures Reencrypt(order, secrets, key, newKey, renonce) != Err(VaultLocked)
  {
    if order != [] {
      ReencryptIsNotLocked(order[..|order| - 1], secrets, key, newKey, renonce);
    }
  }

  // ---------- reaching states ----------

  ghost predicate Reaches(s: State, t: State) {
    exists events :: IsRun(s, events) && After(s, events) == t
  }

  lemma {:induction false} RunsExtend(s: State, events: seq<Event>, e: Event)
    requires IsRun(s, events) && Enabled(After(s, events), e)
    ensures IsRun(s, events + [e]) && After(s, events + [e]) == Next(After(s, events), e)
    decreases |events|
  {
    if events == [] {
      assert [e][1..] == [];
      assert events + [e] == [e];
      assert IsRun(Next(s, e), []);
    } else {
      RunsExtend(Next(s, events[0]), events[1..], e);
      assert (events + [e])[1..] == events[1..] + [e];
    }
  }

  lemma ReachesItself(s: State)
    ensures Reaches(s, s)
  {
    assert IsRun(s, []) && After(s, []) == s;
  }

  /** One more event. */
  lemma Advance(s: State, t: State, e: Event) returns (u: State)
    requires Reaches(s, t) && Enabled(t, e)
    ensures u == Next(t, e) && Reaches(s, u)
  {
    var events :| IsRun(s, events) && After(s, events) == t;
    RunsExtend(s, events, e);
    u := Next(t, e);
  }
}
