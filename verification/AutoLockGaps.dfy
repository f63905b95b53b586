/** Runs of the daemon in which auto-lock does less than one may expect, and how the daemon gets there. */
module AutoLockGaps {
  import opened Secrets
  import opened Primitives
  import opened StoreSpec
  import opened StoreRefinement
  import Handlers
  import opened DaemonProtocol
  import opened AutoLock

  const NO_FILES := Disk(NoMeta, NoData)

  /** Nobody inside, and no one waiting but timers. */
  ghost predicate NobodyInside(s: State) {
    !s.panicked && s.writer.None? && s.readers == {} && s.threads == map[]
  }

  /** An open vault with one running timer, just reset, and nobody inside. */
  ghost predicate Quiet(s: State) {
    && NobodyInside(s) && s.store.Valid() && !s.store.IsLocked()
    && s.timer == Some(0) && s.timers == map[0 := Timer(s.lastReset + s.duration, Armed)]
    && s.now == s.lastReset
  }

  /** A writer comes in while nobody is inside. */
  lemma WriterEnters(s0: State, s: State, tid: ThreadId, request: Request) returns (u: State)
    requires Reaches(s0, s) && NobodyInside(s) && !request.Reads()
    ensures Reaches(s0, u)
    ensures u == s.(writer := Some(HandlerOf(tid)), threads := map[tid := Thread(request, Entered, false, [], [])])
  {
    u := Advance(s0, s, Arrive(tid, request));
    u := Advance(s0, u, Acquire(tid));
    assert u.threads == map[tid := Thread(request, Entered, false, [], [])];
  }

  /** It passes its test. */
  lemma WriterPasses(s0: State, s: State, tid: ThreadId, request: Request) returns (u: State)
    requires Reaches(s0, s) && !s.panicked && request.Admits(s.store) && !request.Lock?
    requires s.threads == map[tid := Thread(request, Entered, false, [], [])]
    ensures Reaches(s0, u) && u == s.(threads := map[tid := Thread(request, Acting, request.ChecksLock(), [], [])])
  {
    u := Advance(s0, s, Check(tid));
    assert u.threads == map[tid := Thread(request, Acting, request.ChecksLock(), [], [])];
  }

  /** What the first call of a lone handler does. */
  lemma FirstCall(s: State, tid: ThreadId, t: Thread, call: Call)
    requires s.threads == map[tid := t] && t.calls == [] && t.told == [] && MayCall(s.store, call)
    ensures var u := Acted(s, tid, call);
            && u == s.(store := Update(s.store, call).store, threads := u.threads, unguarded := u.unguarded)
            && u.threads == map[tid := t.(calls := [call], told := [Reply(s.store, call)])]
  {
    assert [] + [call] == [call] && [] + [Reply(s.store, call)] == [Reply(s.store, call)];
  }

  /** And makes its first call. */
  lemma WriterActs(s0: State, s: State, tid: ThreadId, request: Request, env: Env) returns (u: State)
    requires Reaches(s0, s) && !s.panicked && request.Admits(s.store) && !request.Lock? && !request.Password?
    requires s.threads == map[tid := Thread(request, Entered, false, [], [])] && s.store.Valid()
    requires request.NextOp([]).Some?
    ensures Reaches(s0, u) && !u.panicked
    ensures var call := Call(request.NextOp([]).value, env, []);
            && MayCall(s.store, call)
            && u.threads == map[tid := Thread(request, Acting, request.ChecksLock(), [call], [Reply(s.store, call)])]
            && u == s.(store := Update(s.store, call).store, threads := u.threads, unguarded := u.unguarded)
  {
    var v := WriterPasses(s0, s, tid, request);
    CallsFitRequest(request, []);
    var call := CallBy(v.threads[tid], env, []);
    u := Advance(s0, v, Act(tid, env, []));
    FirstCall(v, tid, v.threads[tid], call);
  }

  /** A writer whose work has failed leaves without a reset. */
  lemma WriterGivesUp(s0: State, s: State, tid: ThreadId, t: Thread) returns (u: State)
    requires Reaches(s0, s) && !s.panicked && s.threads == map[tid := t] && t.pc == Acting && !t.request.Reads()
    requires t.request.NextOp(t.told).None? && !t.request.Resets(t.told)
    ensures Reaches(s0, u)
    ensures u == s.(threads := map[], writer := None, base := u.base, served := u.served)
  {
    u := Advance(s0, s, Finish(tid));
    assert u.threads == map[tid := t.(pc := Leaving)];
    u := Advance(s0, u, Release(tid));
    assert u.threads == map[];
  }

  /** A writer whose work has succeeded goes on to reset the timer. */
  lemma WriterSucceeds(s0: State, s: State, tid: ThreadId, t: Thread) returns (u: State)
    requires Reaches(s0, s) && !s.panicked && s.threads == map[tid := t] && t.pc == Acting
    requires t.request.NextOp(t.told).None? && t.request.Resets(t.told)
    ensures Reaches(s0, u) && u == s.(threads := map[tid := t.(pc := Reading)])
  {
    u := Advance(s0, s, Finish(tid));
    assert u.threads == map[tid := t.(pc := Reading)];
  }

  // ---------- failed saves that leave the vault open for good ----------

  /** `/init` whose first save fails: the vault is open, nobody is inside, and no lock is on its way. */
  lemma FailedInitLeavesVaultOpen(duration: nat, now: Instant, password: string, env: Env)
    requires env.salt.Some? && env.nonce.Some? && env.metaWrite == Failed(NoMeta)
    ensures exists u :: Reaches(Started(NO_FILES, duration, now), u)
                        && NobodyInside(u) && !u.store.IsLocked() && !LockIsPending(u)
  {
    var s := Started(NO_FILES, duration, now);
    ReachesItself(s);
    var u := WriterEnters(s, s, 0, Init(password));
    u := WriterActs(s, u, 0, Init(password), env);
    u := WriterGivesUp(s, u, 0, u.threads[0]);
    assert u.timers == map[];
  }

  /** `/init` on an empty directory comes in and creates the vault. */
  lemma InitCreates(duration: nat, now: Instant, password: string, env: Env) returns (u: State)
    requires Faultless(env)
    ensures var s := Started(NO_FILES, duration, now);
            && Reaches(s, u) && !u.panicked && Represents(u.store, Vault(password, false, map[]))
            && u.threads.Keys == {0} && u.threads[0].pc == Reading && u.threads[0].request == Init(password)
            && u == s.(store := u.store, writer := Some(HandlerOf(0)), threads := u.threads, unguarded := u.unguarded)
  {
    var s := Started(NO_FILES, duration, now);
    ReachesItself(s);
    u := WriterEnters(s, s, 0, Init(password));
    CallRefines(u.store, NoVault, Call(Op.Initialize(password), env, []));
    u := WriterActs(s, u, 0, Init(password), env);
    u := WriterSucceeds(s, u, 0, u.threads[0]);
  }

  /** It then arms the first timer. */
  lemma InitArms(s0: State, s: State, t: Thread) returns (u: State)
    requires Reaches(s0, s) && !s.panicked && s.timer.None? && s.timers == map[]
    requires s.threads == map[0 := t] && t.pc == Reading && t.request.Init?
    ensures Reaches(s0, u)
    ensures u == s.(threads := map[0 := t.(pc := Storing(0))], lastReset := s.now, unguarded := false,
                    timers := map[0 := Timer(s.now + s.duration, Armed)])
  {
    u := Advance(s0, s, ReadTimer(0));
    assert u.threads == map[0 := t.(pc := Stopping(None))];
    u := Advance(s0, u, StopTimer(0));
    assert u.threads == map[0 := t.(pc := Arming)];
    u := Advance(s0, u, ArmTimer(0, 0));
    assert u.threads == map[0 := t.(pc := Storing(0))];
    assert u.timers == map[0 := Timer(s.now + s.duration, Armed)];
  }

  /** And leaves. */
  lemma InitLeaves(s0: State, s: State, t: Thread) returns (u: State)
    requires Reaches(s0, s) && !s.panicked && s.threads == map[0 := t] && t.pc == Storing(0) && t.request.Init?
    ensures Reaches(s0, u)
    ensures u == s.(threads := map[], writer := None, timer := Some(0), base := s.store, served := u.served)
  {
    u := Advance(s0, s, StoreTimer(0));
    assert u.threads == map[0 := t.(pc := Leaving)];
    u := Advance(s0, u, Release(0));
    assert u.threads == map[];
  }

  lemma InitGoesQuiet(duration: nat, now: Instant, password: string, env: Env) returns (u: State)
    requires Faultless(env)
    ensures Reaches(Started(NO_FILES, duration, now), u)
    ensures Quiet(u) && Represents(u.store, Vault(password, false, map[]))
  {
    var s := Started(NO_FILES, duration, now);
    u := InitCreates(duration, now, password, env);
    var t := u.threads[0];
    assert u.threads == map[0 := t];
    u := InitArms(s, u, t);
    u := InitLeaves(s, u, t.(pc := Storing(0)));
  }

  /** A quiet open vault is what every successful `/init` can leave. */
  lemma InitLeavesQuietVault(duration: nat, now: Instant, password: string, env: Env)
    requires Faultless(env)
    ensures exists u :: Reaches(Started(NO_FILES, duration, now), u)
                        && Quiet(u) && Represents(u.store, Vault(password, false, map[]))
  {
    var u := InitGoesQuiet(duration, now, password, env);
  }

  /** A PUT whose save fails leaves a quiet vault quiet, and dirty. */
  lemma FailedPutLeavesDirty(s0: State, s: State, a: Plain, path: string, value: string, env: Env) returns (u: State)
    requires Reaches(s0, s) && Quiet(s) && Represents(s.store, a) && a.Vault? && !a.locked
    requires env.nonce.Some? && env.dataWrite.Failed?
    ensures Reaches(s0, u) && Quiet(u) && u.store.dirty && u.duration == s.duration
  {
    var put := PutSecret(path, value, None, None);
    u := WriterEnters(s0, s, 1, put);
    u := WriterActs(s0, u, 1, put, env);
    assert u.threads[1].told == [Refused(WriteFailed)];
    assert u.store.Valid() && !u.store.IsLocked() && u.store.dirty;
    u := WriterGivesUp(s0, u, 1, u.threads[1]);
  }

  /** `/lock` comes in and reads the timer. */
  lemma LockComesIn(s0: State, s: State) returns (u: State)
    requires Reaches(s0, s) && Quiet(s)
    ensures Reaches(s0, u)
    ensures u == s.(writer := Some(HandlerOf(2)),
                    threads := map[2 := Thread(Request.Lock, Stopping(Some(0)), false, [], [])])
  {
    u := WriterEnters(s0, s, 2, Request.Lock);
    u := Advance(s0, u, Check(2));
    assert u.threads == map[2 := Thread(Request.Lock, Reading, false, [], [])];
    u := Advance(s0, u, ReadTimer(2));
    assert u.threads == map[2 := Thread(Request.Lock, Stopping(Some(0)), false, [], [])];
  }

  /** It stops the timer first. */
  lemma LockStopsTimer(s0: State, s: State) returns (u: State)
    requires Reaches(s0, s) && !s.panicked
    requires s.threads == map[2 := Thread(Request.Lock, Stopping(Some(0)), false, [], [])]
    requires s.timers.Keys == {0} && s.timers[0].state == Armed
    ensures Reaches(s0, u)
    ensures u == s.(threads := map[2 := Thread(Request.Lock, Locking, false, [], [])], timers := u.timers)
    ensures !TimerIsRunning(u)
  {
    u := Advance(s0, s, StopTimer(2));
    assert u.threads == map[2 := Thread(Request.Lock, Locking, false, [], [])];
    assert u.timers.Keys == {0} && u.timers[0].state == Dead;
  }

  /** Then its save fails. */
  lemma LockFails(s0: State, s: State, env: Env) returns (u: State)
    requires Reaches(s0, s) && !s.panicked && env.dataWrite.Failed?
    requires !s.store.IsLocked() && s.store.dirty
    requires s.threads == map[2 := Thread(Request.Lock, Locking, false, [], [])]
    ensures Reaches(s0, u) && !u.panicked && !u.store.IsLocked() && u.timers == s.timers && u.readers == s.readers
    ensures u.threads.Keys == {2} && u.threads[2].pc == Leaving && u.threads[2].request == Request.Lock
  {
    u := Advance(s0, s, LockStore(2, env));
  }

  /** And it leaves. */
  lemma LockLeaves(s0: State, s: State) returns (u: State)
    requires Reaches(s0, s) && !s.panicked && s.readers == {}
    requires s.threads.Keys == {2} && s.threads[2].pc == Leaving && s.threads[2].request == Request.Lock
    ensures Reaches(s0, u) && NobodyInside(u) && u.store == s.store && u.timers == s.timers
  {
    u := Advance(s0, s, Release(2));
    assert u.threads == map[];
  }

  /**
     `/init`, a PUT whose save fails, `/lock` whose save fails: the vault is open, nobody is inside, and
     no lock is on its way.
   */
  lemma FailedLockLeavesVaultOpen(duration: nat, now: Instant, password: string, initEnv: Env,
                                  path: string, value: string, putEnv: Env, lockEnv: Env)
    requires Faultless(initEnv) && putEnv.nonce.Some? && putEnv.dataWrite.Failed? && lockEnv.dataWrite.Failed?
    ensures exists s, u :: && Reaches(Started(NO_FILES, duration, now), s) && Quiet(s) && s.store.dirty
                           && Reaches(Started(NO_FILES, duration, now), u)
                           && NobodyInside(u) && !u.store.IsLocked() && !LockIsPending(u)
  {
    var s0 := Started(NO_FILES, duration, now);
    var s := InitGoesQuiet(duration, now, password, initEnv);
    s := FailedPutLeavesDirty(s0, s, Vault(password, false, map[]), path, value, putEnv);
    var u := LockComesIn(s0, s);
    u := LockStopsTimer(s0, u);
    assert !TimerIsRunning(u);
    u := LockFails(s0, u, lockEnv);
    u := LockLeaves(s0, u);
  }

  // ---------- a reset that does not delay the lock ----------

  const A_SEARCH := Search(Handlers.Glob("", (path: string) => Handlers.Matched(false)))

  /** A search comes in and takes the read lock. */
  lemma ReaderEnters(s: State) returns (u: State)
    requires Quiet(s)
    ensures Reaches(s, u)
    ensures u == s.(threads := map[1 := Thread(A_SEARCH, Entered, false, [], [])], readers := {1})
  {
    ReachesItself(s);
    u := Advance(s, s, Arrive(1, A_SEARCH));
    u := Advance(s, u, Acquire(1));
    assert u.readers == {1};
    assert u.threads == map[1 := Thread(A_SEARCH, Entered, false, [], [])];
  }

  /** A period passes and the timer fires; its callback has to wait. */
  lemma TimerFires(s0: State, s: State) returns (u: State)
    requires Reaches(s0, s) && !s.panicked
    requires s.timers == map[0 := Timer(s.now + s.duration, Armed)]
    ensures Reaches(s0, u)
    ensures u == s.(now := s.now + s.duration, timers := map[0 := Timer(s.now + s.duration, Fired)])
  {
    u := Advance(s0, s, Tick(s.now + s.duration));
    u := Advance(s0, u, Fire(0));
    assert u.timers == map[0 := Timer(s.now + s.duration, Fired)];
  }

  /** The search finds the vault open. */
  lemma ReaderPasses(s0: State, s: State) returns (u: State)
    requires Reaches(s0, s) && !s.panicked && !s.store.IsLocked()
    requires s.threads == map[1 := Thread(A_SEARCH, Entered, false, [], [])]
    ensures Reaches(s0, u) && u == s.(threads := map[1 := Thread(A_SEARCH, Acting, true, [], [])])
  {
    u := Advance(s0, s, Check(1));
    assert u.threads == map[1 := Thread(A_SEARCH, Acting, true, [], [])];
  }

  /** It gets its listing. */
  lemma ReaderLists(s0: State, s: State) returns (u: State)
    requires Reaches(s0, s) && !s.panicked && s.store.Valid() && !s.store.IsLocked()
    requires s.threads == map[1 := Thread(A_SEARCH, Acting, true, [], [])]
    ensures Reaches(s0, u) && u == s.(threads := u.threads)
    ensures u.threads.Keys == {1} && u.threads[1].request == A_SEARCH && u.threads[1].pc == Acting
    ensures u.threads[1].told != [] && u.threads[1].told[0].Paths?
  {
    assert A_SEARCH.NextOp([]) == Some(Op.List(""));
    u := Advance(s0, s, Act(1, SOME_ENV, []));
    assert u.store == s.store;
  }

  /** Its work is done. */
  lemma ReaderWorks(s0: State, s: State) returns (u: State)
    requires Reaches(s0, s) && !s.panicked && s.store.Valid() && !s.store.IsLocked()
    requires s.threads == map[1 := Thread(A_SEARCH, Entered, false, [], [])]
    ensures Reaches(s0, u)
    ensures u == s.(threads := u.threads)
    ensures u.threads.Keys == {1} && u.threads[1].request == A_SEARCH && u.threads[1].pc == Reading
  {
    u := ReaderPasses(s0, s);
    u := ReaderLists(s0, u);
    u := Advance(s0, u, Finish(1));
    assert u == s.(threads := u.threads);
  }

  /** Stopping a timer that has fired changes nothing. */
  lemma StopComesTooLate(s0: State, s: State, t: Thread) returns (u: State)
    requires Reaches(s0, s) && !s.panicked
    requires s.threads == map[1 := t] && t.request == A_SEARCH && t.pc == Reading
    requires s.timer == Some(0) && s.timers.Keys == {0} && s.timers[0].state == Fired
    ensures Reaches(s0, u)
    ensures u == s.(threads := map[1 := t.(pc := Arming)])
  {
    u := Advance(s0, s, ReadTimer(1));
    assert u.threads == map[1 := t.(pc := Stopping(Some(0)))];
    u := Advance(s0, u, StopTimer(1));
    assert u.threads == map[1 := t.(pc := Arming)];
  }

  /** The search arms a new timer. */
  lemma ReaderArms(s0: State, s: State, t: Thread) returns (u: State)
    requires Reaches(s0, s) && !s.panicked && 1 !in s.timers
    requires s.threads == map[1 := t] && t.request == A_SEARCH && t.pc == Arming
    ensures Reaches(s0, u)
    ensures u == s.(threads := map[1 := t.(pc := Storing(1))], lastReset := s.now, unguarded := false,
                    timers := s.timers[1 := Timer(s.now + s.duration, Armed)])
  {
    u := Advance(s0, s, ArmTimer(1, 1));
    assert u.threads == map[1 := t.(pc := Storing(1))];
  }

  /** And leaves. */
  lemma ReaderStoresAndLeaves(s0: State, s: State, t: Thread) returns (u: State)
    requires Reaches(s0, s) && !s.panicked && s.readers == {1}
    requires s.threads == map[1 := t] && t.request == A_SEARCH && t.pc == Storing(1)
    ensures Reaches(s0, u)
    ensures u == s.(threads := map[], readers := {}, timer := Some(1), served := u.served)
  {
    u := Advance(s0, s, StoreTimer(1));
    assert u.threads == map[1 := t.(pc := Leaving)];
    u := Advance(s0, u, Release(1));
    assert u.threads == map[] && u.readers == {};
  }

  /** The callback that has been waiting gets the mutex and locks the vault. */
  lemma CallbackLocks(s0: State, s: State, env: Env) returns (u: State)
    requires Reaches(s0, s) && !s.panicked && s.writer.None? && s.readers == {}
    requires TimerIn(s, 0, Fired) && s.store.Valid() && !s.store.dirty
    ensures Reaches(s0, u) && u.store.IsLocked()
    ensures u.now == s.now && u.lastReset == s.lastReset && u.duration == s.duration
    ensures forall id :: id != 0 && id in s.timers ==> id in u.timers && u.timers[id] == s.timers[id]
  {
    u := Advance(s0, s, CallbackAcquire(0));
    u := Advance(s0, u, CallbackLock(0, env));
  }

  /** A search makes its reset after the timer has fired, and leaves. */
  lemma LateReset(s: State) returns (u: State)
    requires Quiet(s)
    ensures Reaches(s, u) && u.store == s.store && NobodyInside(u) && TimerIn(u, 0, Fired)
    ensures u.now == u.lastReset == s.now + s.duration && u.duration == s.duration
    ensures TimerIn(u, 1, Armed) && u.timers[1].due == u.now + s.duration
  {
    u := ReaderEnters(s);
    u := TimerFires(s, u);
    u := ReaderWorks(s, u);
    assert u.threads == map[1 := u.threads[1]];
    u := StopComesTooLate(s, u, u.threads[1]);
    u := ReaderArms(s, u, u.threads[1]);
    u := ReaderStoresAndLeaves(s, u, u.threads[1]);
  }

  /**
     A reset does not always buy a full period. From every quiet open vault there is a run in which a
     search resets the timer and the vault is locked at that same moment, a whole period early.
   */
  lemma ResetMayNotDelayLock(s: State, env: Env)
    requires Quiet(s) && !s.store.dirty
    ensures exists u :: Reaches(s, u) && u.store.IsLocked() && u.now == u.lastReset == s.now + s.duration
                        && TimerIn(u, 1, Armed) && u.timers[1].due == u.now + s.duration
  {
    var u := LateReset(s);
    u := CallbackLocks(s, u, env);
    assert TimerIn(u, 1, Armed);
  }

  // ---------- a timer nobody can stop ----------

  /** No field and no handler refers to the timer any more, so nobody will stop it. */
  ghost predicate Abandoned(s: State, id: TimerId) {
    && id in s.timers && Running(s.timers[id]) && s.timer != Some(id)
    && forall t :: t in s.threads ==> s.threads[t].pc != Stopping(Some(id)) && s.threads[t].pc != Storing(id)
  }

  /** Nothing ends an abandoned timer but its own callback. */
  lemma AbandonedRunsOn(s: State, e: Event, id: TimerId)
    requires Abandoned(s, id) && Enabled(s, e)
    ensures Abandoned(Next(s, e), id) || (e.CallbackLock? && e.id == id)
  {
    if !(e.CallbackLock? && e.id == id) {
      AbandonedTimerStays(s, e, id);
      forall t | t in Next(s, e).threads
        ensures Next(s, e).threads[t].pc != Stopping(Some(id)) && Next(s, e).threads[t].pc != Storing(id)
      {
        NobodyTakesItUp(s, e, id, t);
      }
    }
  }

  lemma AbandonedTimerStays(s: State, e: Event, id: TimerId)
    requires Abandoned(s, id) && Enabled(s, e) && !(e.CallbackLock? && e.id == id)
    ensures var n := Next(s, e); id in n.timers && Running(n.timers[id]) && n.timer != Some(id)
  {
  }

  lemma HandlerDoesNotTakeItUp(s: State, e: Event, id: TimerId, t: ThreadId)
    requires Abandoned(s, id) && Enabled(s, e) && IsOf(e, t) && t in s.threads && t in Next(s, e).threads
    ensures Next(s, e).threads[t].pc != Stopping(Some(id)) && Next(s, e).threads[t].pc != Storing(id)
  {
  }

  lemma NobodyTakesItUp(s: State, e: Event, id: TimerId, t: ThreadId)
    requires Abandoned(s, id) && Enabled(s, e) && t in Next(s, e).threads
    ensures Next(s, e).threads[t].pc != Stopping(Some(id)) && Next(s, e).threads[t].pc != Storing(id)
  {
    if t in s.threads {
      if IsOf(e, t) {
        HandlerDoesNotTakeItUp(s, e, id, t);
      } else {
        OthersStay(s, e, t);
      }
    }
  }

  const NEW_SEARCH := Thread(A_SEARCH, Entered, false, [], [])

  /** Two searches come in. */
  lemma BothComeIn(s: State) returns (u: State)
    requires Quiet(s)
    ensures Reaches(s, u) && u == s.(threads := map[1 := NEW_SEARCH, 2 := NEW_SEARCH], readers := {1, 2})
  {
    u := ReaderEnters(s);
    u := Advance(s, u, Arrive(2, A_SEARCH));
    u := Advance(s, u, Acquire(2));
    assert u.readers == {1, 2};
    assert u.threads == map[1 := NEW_SEARCH, 2 := NEW_SEARCH];
  }

  /** One of them does its work, up to the reset. */
  lemma SearchLists(s0: State, s: State, tid: ThreadId) returns (u: State)
    requires Reaches(s0, s) && !s.panicked && s.store.Valid() && !s.store.IsLocked()
    requires tid in s.threads && s.threads[tid] == NEW_SEARCH
    ensures Reaches(s0, u) && u == s.(threads := u.threads) && u.threads.Keys == s.threads.Keys
    ensures forall t :: t in s.threads && t != tid ==> u.threads[t] == s.threads[t]
    ensures u.threads[tid].request == A_SEARCH && u.threads[tid].pc == Acting
    ensures u.threads[tid].told != [] && u.threads[tid].told[0].Paths?
  {
    u := Advance(s0, s, Check(tid));
    assert u.threads[tid] == Thread(A_SEARCH, Acting, true, [], []);
    assert A_SEARCH.NextOp([]) == Some(Op.List(""));
    u := Advance(s0, u, Act(tid, SOME_ENV, []));
    assert u.store == s.store;
  }

  lemma SearchWorks(s0: State, s: State, tid: ThreadId) returns (u: State)
    requires Reaches(s0, s) && !s.panicked && s.store.Valid() && !s.store.IsLocked()
    requires tid in s.threads && s.threads[tid] == NEW_SEARCH
    ensures Reaches(s0, u) && u == s.(threads := u.threads) && u.threads.Keys == s.threads.Keys
    ensures forall t :: t in s.threads && t != tid ==> u.threads[t] == s.threads[t]
    ensures u.threads[tid].request == A_SEARCH && u.threads[tid].pc == Reading
  {
    u := SearchLists(s0, s, tid);
    u := Advance(s0, u, Finish(tid));
  }

  /** Two searches inside, and how far each is. */
  ghost predicate TwoInside(s: State, first: Pc, second: Pc) {
    && !s.panicked && !s.store.IsLocked() && s.writer.None? && s.readers == {1, 2} && s.threads.Keys == {1, 2}
    && s.threads[1].request == A_SEARCH && s.threads[1].pc == first
    && s.threads[2].request == A_SEARCH && s.threads[2].pc == second
  }

  lemma BothRead(s0: State, s: State) returns (u: State)
    requires Reaches(s0, s) && TwoInside(s, Reading, Reading)
    ensures Reaches(s0, u) && TwoInside(u, Stopping(s.timer), Stopping(s.timer)) && u.timers == s.timers
  {
    u := Advance(s0, s, ReadTimer(1));
    u := Advance(s0, u, ReadTimer(2));
  }

  lemma BothStop(s0: State, s: State) returns (u: State)
    requires Reaches(s0, s) && TwoInside(s, Stopping(Some(0)), Stopping(Some(0))) && s.timers.Keys == {0}
    ensures Reaches(s0, u) && TwoInside(u, Arming, Arming) && u.timers.Keys == {0}
  {
    u := Advance(s0, s, StopTimer(1));
    u := Advance(s0, u, StopTimer(2));
  }

  lemma BothArm(s0: State, s: State) returns (u: State)
    requires Reaches(s0, s) && TwoInside(s, Arming, Arming) && s.timers.Keys == {0}
    ensures Reaches(s0, u) && TwoInside(u, Storing(1), Storing(2)) && TimerIn(u, 1, Armed)
  {
    u := Advance(s0, s, ArmTimer(1, 1));
    u := Advance(s0, u, ArmTimer(2, 2));
  }

  lemma BothStore(s0: State, s: State) returns (u: State)
    requires Reaches(s0, s) && TwoInside(s, Storing(1), Storing(2))
    ensures Reaches(s0, u) && TwoInside(u, Leaving, Leaving) && u.timer == Some(2) && u.timers == s.timers
  {
    u := Advance(s0, s, StoreTimer(1));
    u := Advance(s0, u, StoreTimer(2));
  }

  lemma BothLeave(s0: State, s: State) returns (u: State)
    requires Reaches(s0, s) && TwoInside(s, Leaving, Leaving)
    ensures Reaches(s0, u) && NobodyInside(u) && u.store == s.store && u.timer == s.timer && u.timers == s.timers
  {
    u := Advance(s0, s, Release(1));
    u := Advance(s0, u, Release(2));
    assert u.threads == map[] && u.readers == {};
  }

  /**
     Two searches that reset at once: from every quiet open vault there is a run after which nobody is
     inside, the vault is open, and a running timer is abandoned. However things go on from there, nobody
     can stop it: it runs until its own callback locks.
   */
  lemma ResetsAtOnceAbandonTimer(s: State)
    requires Quiet(s)
    ensures exists u :: && Reaches(s, u) && NobodyInside(u) && !u.store.IsLocked() && Abandoned(u, 1)
                        && forall events :: IsRun(u, events) && NeverLocks(events, 1) ==> Abandoned(After(u, events), 1)
  {
    var u := BothComeIn(s);
    u := SearchWorks(s, u, 1);
    u := SearchWorks(s, u, 2);
    u := BothRead(s, u);
    u := BothStop(s, u);
    u := BothArm(s, u);
    u := BothStore(s, u);
    u := BothLeave(s, u);
    assert Abandoned(u, 1);
    forall events | IsRun(u, events) && NeverLocks(events, 1) ensures Abandoned(After(u, events), 1) {
      AbandonedForGood(u, events, 1);
    }
  }

  predicate NeverLocks(events: seq<Event>, id: TimerId) {
    forall i :: 0 <= i < |events| ==> !(events[i].CallbackLock? && events[i].id == id)
  }

  lemma {:induction false} AbandonedForGood(s: State, events: seq<Event>, id: TimerId)
    requires Abandoned(s, id) && IsRun(s, events) && NeverLocks(events, id)
    ensures Abandoned(After(s, events), id)
    decreases |events|
  {
    if events != [] {
      AbandonedRunsOn(s, events[0], id);
      AbandonedForGood(Next(s, events[0]), events[1..], id);
    }
  }
}
