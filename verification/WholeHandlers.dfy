/**
 What a handler of the concurrent daemon answers as a whole. Each handler was served alone with the
 store (`Linearization`), so its calls and answers, made one by one, come to what the handler loops in
 `Handlers` compute on that store: the export listing, the search result, the import fold.
 */
module WholeHandlers {
  import opened Secrets
  import opened Primitives
  import Spec = StoreSpec
  import opened StoreSpec
  import opened StoreRefinement
  import Handlers
  import ImportExport
  import Text
  import opened DaemonProtocol
  import opened Linearization

  // ---------- handlers with one call ----------

  predicate MakesOneCall(r: Request) {
    r.Init? || r.Unlock? || r.Lock? || r.Password? || r.GetSecret? || r.PutSecret? || r.DeleteSecret? || r.Search?
  }

  /** The one store call a request stands for. */
  predicate AsksFor(r: Request, op: Op) {
    match r
    case Init(p) => op == Op.Initialize(p)
    case Unlock(p) => op == Op.Unlock(p)
    case Lock => op == Op.Lock
    case Password(o, n) => op.ChangePassword? && op.oldPassword == o && op.newPassword == n
    case GetSecret(path) => op == Op.Get(path)
    case PutSecret(path, value, fields, tags) =>
      op.Set? && op.path == path && IsRequested(op.secret, value, fields, tags)
    case DeleteSecret(path) => op == Op.Delete(path)
    case Search(_) => op == Op.List("")
    case _ => false
  }

  /** A secret with this value, these fields and tags, and nothing else. */
  predicate IsRequested(x: Secret, value: string, fields: Option<map<string, string>>,
                        tags: Option<map<string, string>>)
  {
    && x.value == value && x.valueBytes.None? && x.fields == fields && x.metadata.tags == tags
    && x.metadata.createdAt.None? && x.metadata.modifiedAt.None? && x.metadata.expiresAt.None?
    && x.metadata.labels.None? && x.metadata.extra.None?
    && x.metadata.version == "" && x.metadata.provider == "" && x.metadata.path == ""
  }

  /** They make their one call on the store they found. */
  lemma OneCallIsWhole(j: Job)
    requires ServedAlone(j) && MakesOneCall(j.request) && j.request.Admits(j.before)
    ensures |j.calls| == 1 && AsksFor(j.request, j.calls[0].op)
    ensures MayCall(j.before, j.calls[0]) && j.told == [Reply(j.before, j.calls[0])]
    ensures StoreAfter(j) == Update(j.before, j.calls[0]).store
  {
    var last := |j.calls| - 1;
    assert j.told != [] && j.told[..0] == [];
    assert j.request.NextOp(j.told[..last]) == Some(j.calls[last].op);
    var next := Update(j.before, j.calls[0]).store;
    RunUnfolds(j.before, j.calls);
    assert j.calls[1..] == [] && Replies(next, []) == [] && Final(next, []) == next;
  }

  // ---------- handlers that list and then read ----------

  ghost predicate OnlyReads(calls: seq<Call>) {
    forall i :: 0 <= i < |calls| ==> calls[i].op.List? || calls[i].op.Get?
  }

  lemma {:induction false} ReadsLeaveStore(s: Store, calls: seq<Call>)
    requires MayRun(s, calls) && OnlyReads(calls)
    ensures Final(s, calls) == s && |Replies(s, calls)| == |calls|
    ensures forall i :: 0 <= i < |calls| ==> MayCall(s, calls[i]) && Replies(s, calls)[i] == Reply(s, calls[i])
    decreases |calls|
  {
    if calls != [] {
      ReadsLeaveStore(s, calls[1..]);
      forall i | 0 <= i < |calls| ensures MayCall(s, calls[i]) && Replies(s, calls)[i] == Reply(s, calls[i]) {
        assert i > 0 ==> calls[i] == calls[1..][i - 1];
      }
    }
  }

  function GetAnswer(s: Store, path: string): Answer
    requires s.Valid()
  {
    match Spec.Get(s, path) case Ok(x) => Found(x) case Err(e) => Refused(e)
  }

  /** The listing first, then one answer for each path listed, all from the same store. */
  ghost predicate ListsThenReads(s: Store, prefix: string, told: seq<Answer>)
    requires s.Valid() && !s.IsLocked()
  {
    var paths := Spec.List(s, prefix).value;
    && |told| == |paths| + 1 && told[0] == Paths(paths)
    && forall i :: 0 <= i < |paths| ==> told[i + 1] == GetAnswer(s, paths[i])
  }

  /** Call `i` gets the path listed before it. */
  predicate GetsListed(calls: seq<Call>, listed: Answer, i: nat)
    requires 0 < i < |calls|
  {
    listed.Paths? && i <= |listed.paths| && calls[i].op == Op.Get(listed.paths[i - 1])
  }

  lemma {:induction false} FollowingReads(prefix: string, calls: seq<Call>, told: seq<Answer>)
    requires |calls| == |told| && NextRead(prefix, told).None?
    requires forall i :: 0 <= i < |calls| ==> NextRead(prefix, told[..i]) == Some(calls[i].op)
    ensures OnlyReads(calls) && calls != [] && calls[0].op == Op.List(prefix)
    ensures told[0].Paths? ==> |told| == |told[0].paths| + 1
    ensures forall i :: 0 < i < |calls| ==> GetsListed(calls, told[0], i)
  {
    assert told != [];
    assert told[..0] == [];
    forall i | 0 < i < |calls| ensures GetsListed(calls, told[0], i) {
      var some := told[..i];
      assert NextRead(prefix, some) == Some(calls[i].op) && |some| == i && some[0] == told[0];
    }
    if |calls| > 1 {
      assert GetsListed(calls, told[0], |calls| - 1);
    }
  }

  lemma ReadersAreWhole(j: Job, prefix: string)
    requires ServedAlone(j) && (j.request == Request.Export(prefix) || j.request == Request.Secrets(prefix))
    requires !j.before.IsLocked()
    ensures ListsThenReads(j.before, prefix, j.told) && StoreAfter(j) == j.before
  {
    FollowingReads(prefix, j.calls, j.told);
    ReadsLeaveStore(j.before, j.calls);
    var paths := Spec.List(j.before, prefix).value;
    assert j.told[0] == Reply(j.before, j.calls[0]) == Paths(paths);
    forall i | 0 <= i < |paths| ensures j.told[i + 1] == GetAnswer(j.before, paths[i]) {
      assert GetsListed(j.calls, j.told[0], i + 1);
    }
  }

  /** What the export handler has collected after the given answers. */
  function Collected(paths: seq<string>, gets: seq<Answer>): seq<Handlers.ExportedSecret>
    requires |paths| == |gets|
  {
    if paths == [] then []
    else
      var last := |paths| - 1;
      Collected(paths[..last], gets[..last])
      + if gets[last].Found? then [Handlers.Exported(paths[last], gets[last].secret)] else []
  }

  /** The export handler's answer to its client. */
  function ExportAnswer(told: seq<Answer>): seq<Handlers.ExportedSecret> {
    if told != [] && told[0].Paths? && |told| == |told[0].paths| + 1 then Collected(told[0].paths, told[1..]) else []
  }

  lemma {:induction false} CollectedIsExport(s: Store, paths: seq<string>, gets: seq<Answer>)
    requires s.Valid() && |paths| == |gets| && forall i :: 0 <= i < |paths| ==> gets[i] == GetAnswer(s, paths[i])
    ensures Collected(paths, gets) == Handlers.ExportPaths(s, paths)
  {
    if paths != [] {
      var last := |paths| - 1;
      CollectedIsExport(s, paths[..last], gets[..last]);
    }
  }

  /** What an export answers: the export of the store it found. */
  ghost predicate ExportedWhole(j: Job)
    requires j.before.Valid() && !j.before.IsLocked() && j.request.Export?
  {
    var paths := Spec.List(j.before, j.request.prefix).value;
    && |j.told| == |paths| + 1 && j.told[0] == Paths(paths)
    && ExportAnswer(j.told) == Handlers.ExportPaths(j.before, paths)
  }

  lemma ExportIsWhole(j: Job)
    requires ServedAlone(j) && j.request.Export?
    ensures if j.before.IsLocked() then j.told == [] else ExportedWhole(j)
    ensures StoreAfter(j) == j.before
  {
    if !j.before.IsLocked() {
      ReadersAreWhole(j, j.request.prefix);
      CollectedIsExport(j.before, Spec.List(j.before, j.request.prefix).value, j.told[1..]);
    }
  }

  /** What a search answers: exactly the wanted paths of the store it found. */
  ghost predicate SearchedWhole(j: Job)
    requires j.before.Valid() && !j.before.IsLocked() && j.request.Search?
  {
    var q, keys := j.request.query, j.before.data.value.Keys;
    && |j.told| == 1 && j.told[0].Paths?
    && var found := Handlers.Matches(q, j.told[0].paths);
    && if q.Regex? && q.compiled.None? then found == Err(InvalidPattern)
       else found.Ok? && Text.Lists(found.value, set p | p in keys && Handlers.Wanted(q, keys, p))
  }

  lemma SearchIsWhole(j: Job)
    requires ServedAlone(j) && j.request.Search?
    ensures if j.before.IsLocked() then j.told == [] else SearchedWhole(j)
    ensures StoreAfter(j) == j.before
  {
    if !j.before.IsLocked() {
      OneCallIsWhole(j);
      var keys := j.before.data.value.Keys;
      assert (set p | p in j.before.data.value && ("" == "" || Text.HasPrefix(p, ""))) == keys;
      Handlers.MatchesAreWanted(j.request.query, j.told[0].paths, keys);
    }
  }

  // ---------- the import handler ----------

  datatype Counts = Counts(imported: nat, skipped: nat, errors: nat)

  /** What the import handler has counted after the given answers. */
  function Counted(entries: seq<Handlers.ExportedSecret>, merge: bool, told: seq<Answer>): Counts {
    if entries == [] || told == [] then Counts(0, 0, 0)
    else if told[0] == Truth(true) && merge then
      var rest := Counted(entries[1..], merge, told[1..]);
      rest.(skipped := rest.skipped + 1)
    else if |told| == 1 then Counts(0, 0, 0)
    else
      var rest := Counted(entries[1..], merge, told[2..]);
      if told[1].Refused? then rest.(errors := rest.errors + 1) else rest.(imported := rest.imported + 1)
  }

  /** The import loop in the middle: after some entries, with some counts. */
  function ImportFrom(t: Handlers.Tally, entries: seq<Handlers.ExportedSecret>, envs: seq<Env>, merge: bool)
    : (u: Handlers.Tally)
    requires t.store.Valid() && |envs| == |entries|
    ensures u.store.Valid()
    decreases |entries|
  {
    if entries == [] then t
    else ImportFrom(Handlers.ImportOne(t, entries[0], envs[0], merge), entries[1..], envs[1..], merge)
  }

  lemma {:induction false} ImportFromGrows(t: Handlers.Tally, entries: seq<Handlers.ExportedSecret>, envs: seq<Env>,
                                           merge: bool)
    requires t.store.Valid() && |envs| == |entries| && entries != []
    ensures var last := |entries| - 1;
            ImportFrom(t, entries, envs, merge)
            == Handlers.ImportOne(ImportFrom(t, entries[..last], envs[..last], merge), entries[last], envs[last], merge)
    decreases |entries|
  {
    var last := |entries| - 1;
    var u := Handlers.ImportOne(t, entries[0], envs[0], merge);
    if last > 0 {
      ImportFromGrows(u, entries[1..], envs[1..], merge);
      assert entries[1..][..last - 1] == entries[..last][1..] && envs[1..][..last - 1] == envs[..last][1..];
    } else {
      assert ImportFrom(u, entries[1..], envs[1..], merge) == u;
    }
  }

  lemma {:induction false} ImportFromStart(s: Store, entries: seq<Handlers.ExportedSecret>, envs: seq<Env>, merge: bool)
    requires s.Valid() && |envs| == |entries|
    ensures ImportFrom(Handlers.Tally(s, 0, 0, 0), entries, envs, merge) == Handlers.Import(s, entries, envs, merge)
  {
    if entries != [] {
      var last := |entries| - 1;
      ImportFromGrows(Handlers.Tally(s, 0, 0, 0), entries, envs, merge);
      ImportFromStart(s, entries[..last], envs[..last], merge);
    }
  }

  /** The calls and answers of an import from some entry on. */
  ghost predicate Imports(s: Store, entries: seq<Handlers.ExportedSecret>, merge: bool,
                          calls: seq<Call>, told: seq<Answer>)
  {
    && MayRun(s, calls) && told == Replies(s, calls) && |calls| == |told|
    && (forall i :: 0 <= i < |calls| ==> NextImport(entries, merge, told[..i]) == Some(calls[i].op))
    && NextImport(entries, merge, told).None?
  }

  /** Asking for the first entry, and what follows when merge protects it. */
  lemma {:induction false} ImportSkips(s: Store, entries: seq<Handlers.ExportedSecret>, merge: bool, calls: seq<Call>,
                                       told: seq<Answer>)
    requires Imports(s, entries, merge, calls, told) && entries != []
    ensures calls != [] && calls[0].op == Op.Exists(entries[0].path) && s.Valid()
    ensures told[0] == Truth(true) <==> Spec.Exists(s, entries[0].path) == Ok(true)
    ensures told[0] == Truth(true) && merge ==> Imports(s, entries[1..], merge, calls[1..], told[1..])
  {
    assert told != [];
    assert told[..0] == [];
    if told[0] == Truth(true) && merge {
      forall i | 0 <= i < |calls[1..]|
        ensures NextImport(entries[1..], merge, told[1..][..i]) == Some(calls[1..][i].op)
      {
        assert told[..i + 1][0] == told[0] && told[..i + 1][1..] == told[1..][..i];
        assert NextImport(entries, merge, told[..i + 1]) == Some(calls[i + 1].op);
      }
    }
  }

  /** Storing the first entry, and what follows. */
  lemma {:induction false} ImportStores(s: Store, entries: seq<Handlers.ExportedSecret>, merge: bool,
                                        calls: seq<Call>, told: seq<Answer>)
    requires Imports(s, entries, merge, calls, told) && entries != []
    requires told != [] && !(told[0] == Truth(true) && merge)
    ensures |calls| > 1 && calls[1].op == Op.Set(entries[0].path, Handlers.ImportedSecret(entries[0]))
    ensures MayCall(s, calls[1]) && told[1] == Reply(s, calls[1])
    ensures Imports(Update(s, calls[1]).store, entries[1..], merge, calls[2..], told[2..])
    ensures Final(s, calls) == Final(Update(s, calls[1]).store, calls[2..])
  {
    ImportSkips(s, entries, merge, calls, told);
    assert |told| > 1;
    assert told[..1] == [told[0]];
    RunUnfolds(s, calls);
    assert Update(s, calls[0]).store == s;
    RunUnfolds(s, calls[1..]);
    assert calls[1..][1..] == calls[2..] && told[1..][1..] == told[2..];
    assert told[1..] == Replies(s, calls[1..]);
    forall i | 0 <= i < |calls[2..]| ensures NextImport(entries[1..], merge, told[2..][..i]) == Some(calls[2..][i].op) {
      var some := told[..i + 2];
      assert some[0] == told[0] && some[2..] == told[2..][..i];
      assert NextImport(entries, merge, some) == Some(calls[i + 2].op);
    }
  }

  function Add(t: Handlers.Tally, store: Store, c: Counts): Handlers.Tally {
    Handlers.Tally(store, t.imported + c.imported, t.skipped + c.skipped, t.errors + c.errors)
  }

  /** One entry at the front: what the loop and the counts make of it. */
  lemma {:induction false} LoopUnfolds(t: Handlers.Tally, entries: seq<Handlers.ExportedSecret>, env: Env,
                                       rest: seq<Env>, merge: bool)
    requires t.store.Valid() && entries != [] && |rest| == |entries| - 1
    ensures ImportFrom(t, entries, [env] + rest, merge)
            == ImportFrom(Handlers.ImportOne(t, entries[0], env, merge), entries[1..], rest, merge)
  {
    assert ([env] + rest)[1..] == rest;
  }

  /** What storing one entry adds to the counts. */
  function OneMore(c: Counts, stored: Answer): Counts {
    if stored.Refused? then c.(errors := c.errors + 1) else c.(imported := c.imported + 1)
  }

  lemma StoredOneMore(t: Handlers.Tally, entry: Handlers.ExportedSecret, merge: bool, c: Call,
                      store: Store, rest: Counts)
    requires t.store.Valid() && !(Spec.Exists(t.store, entry.path) == Ok(true) && merge)
    requires c.op == Op.Set(entry.path, Handlers.ImportedSecret(entry)) && MayCall(t.store, c)
    ensures var u := Handlers.ImportOne(t, entry, c.env, merge);
            && u.store == Update(t.store, c).store
            && Add(u, store, rest) == Add(t, store, OneMore(rest, Reply(t.store, c)))
  {
  }

  /** Every environment is one that some call met. */
  ghost predicate MetBy(envs: seq<Env>, calls: seq<Call>) {
    forall i :: 0 <= i < |envs| ==> exists k :: 0 <= k < |calls| && calls[k].env == envs[i]
  }

  lemma {:induction false} MetByOneMore(env: Env, rest: seq<Env>, calls: seq<Call>, i: nat, from: nat)
    requires i < |calls| && from <= |calls| && env == calls[i].env && MetBy(rest, calls[from..])
    ensures MetBy([env] + rest, calls)
  {
    forall m | 0 <= m < |[env] + rest| ensures exists k :: 0 <= k < |calls| && calls[k].env == ([env] + rest)[m] {
      if m > 0 {
        var k :| 0 <= k < |calls[from..]| && calls[from..][k].env == rest[m - 1];
        assert calls[from + k].env == ([env] + rest)[m];
      } else {
        assert calls[i].env == ([env] + rest)[m];
      }
    }
  }

  /** The answers from some entry on come to the rest of the import loop. */
  lemma {:induction false} ImportRunIsLoop(t: Handlers.Tally, entries: seq<Handlers.ExportedSecret>, merge: bool,
                                           calls: seq<Call>, told: seq<Answer>)
    returns (envs: seq<Env>)
    requires t.store.Valid() && Imports(t.store, entries, merge, calls, told)
    ensures |envs| == |entries| && MetBy(envs, calls)
    ensures ImportFrom(t, entries, envs, merge) == Add(t, Final(t.store, calls), Counted(entries, merge, told))
    decreases |entries|, 1
  {
    if entries == [] {
      assert NextImport(entries, merge, told[..0]).None?;
      return [];
    }
    ImportSkips(t.store, entries, merge, calls, told);
    if told[0] == Truth(true) && merge {
      envs := ImportRunSkips(t, entries, merge, calls, told);
    } else {
      envs := ImportRunStores(t, entries, merge, calls, told);
    }
  }

  lemma {:induction false} ImportRunSkips(t: Handlers.Tally, entries: seq<Handlers.ExportedSecret>, merge: bool,
                                          calls: seq<Call>, told: seq<Answer>)
    returns (envs: seq<Env>)
    requires t.store.Valid() && Imports(t.store, entries, merge, calls, told) && entries != []
    requires told != [] && told[0] == Truth(true) && merge
    ensures |envs| == |entries| && MetBy(envs, calls)
    ensures ImportFrom(t, entries, envs, merge) == Add(t, Final(t.store, calls), Counted(entries, merge, told))
    decreases |entries|, 0
  {
    ImportSkips(t.store, entries, merge, calls, told);
    SkipLeavesStore(t.store, calls, entries[0].path);
    var store, counts := Final(t.store, calls), Counted(entries[1..], merge, told[1..]);
    SkippedOneMore(t, entries[0], calls[0].env, store, counts);
    var u := t.(skipped := t.skipped + 1);
    var rest := ImportRunIsLoop(u, entries[1..], merge, calls[1..], told[1..]);
    LoopUnfolds(t, entries, calls[0].env, rest, merge);
    MetByOneMore(calls[0].env, rest, calls, 0, 1);
    assert Counted(entries, merge, told) == counts.(skipped := counts.skipped + 1);
    envs := [calls[0].env] + rest;
  }

  lemma {:induction false} SkipLeavesStore(s: Store, calls: seq<Call>, path: string)
    requires MayRun(s, calls) && calls != [] && calls[0].op == Op.Exists(path)
    ensures MayRun(s, calls[1..]) && Final(s, calls) == Final(s, calls[1..])
  {
    RunUnfolds(s, calls);
  }

  lemma SkippedOneMore(t: Handlers.Tally, entry: Handlers.ExportedSecret, env: Env, store: Store, rest: Counts)
    requires t.store.Valid() && Spec.Exists(t.store, entry.path) == Ok(true)
    ensures var u := t.(skipped := t.skipped + 1);
            && Handlers.ImportOne(t, entry, env, true) == u
            && Add(u, store, rest) == Add(t, store, rest.(skipped := rest.skipped + 1))
  {
  }

  lemma {:induction false} ImportRunStores(t: Handlers.Tally, entries: seq<Handlers.ExportedSecret>, merge: bool,
                                           calls: seq<Call>, told: seq<Answer>)
    returns (envs: seq<Env>)
    requires t.store.Valid() && Imports(t.store, entries, merge, calls, told) && entries != []
    requires told != [] && !(told[0] == Truth(true) && merge)
    ensures |envs| == |entries| && MetBy(envs, calls)
    ensures ImportFrom(t, entries, envs, merge) == Add(t, Final(t.store, calls), Counted(entries, merge, told))
    decreases |entries|, 0
  {
    ImportSkips(t.store, entries, merge, calls, told);
    ImportStores(t.store, entries, merge, calls, told);
    var store, counts := Final(t.store, calls), Counted(entries[1..], merge, told[2..]);
    StoredOneMore(t, entries[0], merge, calls[1], store, counts);
    var u := Handlers.ImportOne(t, entries[0], calls[1].env, merge);
    var rest := ImportRunIsLoop(u, entries[1..], merge, calls[2..], told[2..]);
    LoopUnfolds(t, entries, calls[1].env, rest, merge);
    assert Counted(entries, merge, told) == OneMore(counts, told[1]);
    MetByOneMore(calls[1].env, rest, calls, 1, 2);
    envs := [calls[1].env] + rest;
  }

  /** What an import did to the store it found, and what it answers, is the import loop on that store. */
  ghost predicate ImportedWhole(j: Job)
    requires j.before.Valid() && j.request.Import?
  {
    exists envs: seq<Env> ::
      && |envs| == |j.request.entries| && MetBy(envs, j.calls)
      && Handlers.Import(j.before, j.request.entries, envs, j.request.merge)
         == Add(Handlers.Tally(j.before, 0, 0, 0), StoreAfter(j), Counted(j.request.entries, j.request.merge, j.told))
  }

  lemma ImportIsWhole(j: Job)
    requires ServedAlone(j) && j.request.Import?
    ensures if j.before.IsLocked() then j.told == [] && StoreAfter(j) == j.before else ImportedWhole(j)
  {
    if !j.before.IsLocked() {
      var t := Handlers.Tally(j.before, 0, 0, 0);
      var envs := ImportRunIsLoop(t, j.request.entries, j.request.merge, j.calls, j.told);
      ImportFromStart(j.before, j.request.entries, envs, j.request.merge);
    }
  }

  /** An import none of whose calls meets a failure is the fold on the plain vault, and counts no errors. */
  lemma FaultlessImportIsWhole(j: Job, a: Plain)
    requires ServedAlone(j) && j.request.Import? && Represents(j.before, a) && a.Vault? && !a.locked
    requires forall k :: 0 <= k < |j.calls| ==> ImportExport.CanStore(j.calls[k].env)
    ensures exists envs: seq<Env> ::
              && |envs| == |j.request.entries| && MetBy(envs, j.calls)
              && Represents(StoreAfter(j), a.(secrets :=
                   ImportExport.PlainImport(a.secrets, j.request.entries, envs, j.request.merge)))
    ensures Counted(j.request.entries, j.request.merge, j.told).errors == 0
  {
    ImportIsWhole(j);
    var envs: seq<Env> :|
      && |envs| == |j.request.entries| && MetBy(envs, j.calls)
      && Handlers.Import(j.before, j.request.entries, envs, j.request.merge)
         == Add(Handlers.Tally(j.before, 0, 0, 0), StoreAfter(j), Counted(j.request.entries, j.request.merge, j.told));
    assert ImportExport.AllCanStore(envs);
    ImportExport.ImportRefines(j.before, a, j.request.entries, envs, j.request.merge);
  }

  // ---------- in every interleaving ----------

  /** What the handler served as number `k` did and answered, on the store the ones before it left. */
  ghost predicate AnsweredWhole(start: Store, jobs: seq<Job>, k: nat)
    requires k < |jobs|
  {
    var j := jobs[k];
    && MayRun(start, CallsServed(jobs[..k])) && j.before == Final(start, CallsServed(jobs[..k]))
    && j.before.Valid()
    && if !j.request.Admits(j.before) then j.calls == []
       else match j.request
         case Export(_) => ExportedWhole(j)
         case Search(_) => SearchedWhole(j)
         case Secrets(prefix) => ListsThenReads(j.before, prefix, j.told)
         case Import(_, _) => ImportedWhole(j)
         case BadSecret => j.calls == []
         case Status => j.calls == []
         case _ =>
           && |j.calls| == 1 && AsksFor(j.request, j.calls[0].op)
           && MayCall(j.before, j.calls[0]) && j.told == [Reply(j.before, j.calls[0])]
  }

  lemma {:induction false} JobIsAnsweredWhole(start: Store, jobs: seq<Job>, end: Store, k: nat)
    requires ServedInOrder(start, jobs, end) && k < |jobs|
    ensures AnsweredWhole(start, jobs, k)
  {
    FoundAfterOthers(start, jobs, end, k);
    var j := jobs[k];
    if j.request.Admits(j.before) {
      match j.request
      case Export(_) => ExportIsWhole(j);
      case Search(_) => SearchIsWhole(j);
      case Secrets(prefix) => ReadersAreWhole(j, prefix);
      case Import(_, _) => ImportIsWhole(j);
      case BadSecret =>
      case Status =>
      case _ => OneCallIsWhole(j);
    }
  }

  /**
     In every interleaving, whatever fails, every handler that has left did on one store, all at once,
     what it does when it runs alone: that store is what the handlers that left before it made of the
     store the daemon started with.
   */
  lemma {:induction false} EveryHandlerIsWhole(disk: Disk, duration: nat, now: Instant, events: seq<Event>)
    requires IsRun(Started(disk, duration, now), events)
    ensures var jobs := After(Started(disk, duration, now), events).served;
            forall k :: 0 <= k < |jobs| ==> AnsweredWhole(NewStore(true, disk), jobs, k)
  {
    HandlersAreAtomic(disk, duration, now, events);
    var s := After(Started(disk, duration, now), events);
    forall k | 0 <= k < |s.served| ensures AnsweredWhole(NewStore(true, disk), s.served, k) {
      JobIsAnsweredWhole(NewStore(true, disk), s.served, s.base, k);
    }
  }

  // ---------- export and import by the daemon itself ----------

  lemma {:induction false} CallIsFromDaemon(r: Request, told: seq<Answer>, c: Call)
    requires r.NextOp(told) == Some(c.op)
    ensures ImportExport.FromDaemon(c)
  {
    if r.Import? {
      ImportSets(r.entries, r.merge, told);
      if c.op.Set? {
        var i :| 0 <= i < |r.entries| && c.op.secret == Handlers.ImportedSecret(r.entries[i]);
        assert c.op.secret == Handlers.ImportedSecret(r.entries[i]);
      }
    } else if r.PutSecret? {
      assert c.op.secret == Handlers.RequestedSecret(r.value, r.fields, r.tags);
    }
  }

  lemma {:induction false} ImportSets(entries: seq<Handlers.ExportedSecret>, merge: bool, told: seq<Answer>)
    ensures var op := NextImport(entries, merge, told);
            op.Some? && op.value.Set? ==>
              exists i :: 0 <= i < |entries| && op.value.secret == Handlers.ImportedSecret(entries[i])
  {
    if entries != [] && told != [] {
      assert forall i :: 0 <= i < |entries| - 1 ==> entries[1..][i] == entries[i + 1];
      ImportSets(entries[1..], merge, told[1..]);
      if |told| > 1 {
        ImportSets(entries[1..], merge, told[2..]);
      }
    }
  }

  lemma {:induction false} ServedFromDaemon(start: Store, jobs: seq<Job>, end: Store)
    requires ServedInOrder(start, jobs, end)
    ensures ImportExport.AllFromDaemon(CallsServed(jobs))
  {
    if jobs != [] {
      var j := jobs[|jobs| - 1];
      ServedFromDaemon(start, jobs[..|jobs| - 1], j.before);
      forall i | 0 <= i < |j.calls| ensures ImportExport.FromDaemon(j.calls[i]) {
        CallIsFromDaemon(j.request, j.told[..i], j.calls[i]);
      }
    }
  }

  /** A handler that has answered a full export. */
  ghost predicate AnsweredExport(s: State, k: nat) {
    k < |s.served| && s.served[k].request == Request.Export("") && s.served[k].told != []
  }

  lemma {:induction false} AnsweredExportIsWhole(start: Store, jobs: seq<Job>, end: Store, k: nat)
    requires ServedInOrder(start, jobs, end) && k < |jobs|
    requires jobs[k].request == Request.Export("") && jobs[k].told != []
    ensures var s := jobs[k].before;
            && s.Valid() && !s.IsLocked()
            && ExportAnswer(jobs[k].told) == Handlers.ExportPaths(s, Spec.List(s, "").value)
  {
    PrefixServed(start, jobs, end, k);
    ExportIsWhole(jobs[k]);
  }

  /** What the exporting handler found was made by calls of the daemon. */
  lemma {:induction false} FoundFromDaemon(start: Store, jobs: seq<Job>, end: Store, k: nat)
    requires ServedInOrder(start, jobs, end) && k < |jobs|
    ensures MayRun(start, CallsServed(jobs[..k])) && jobs[k].before == Final(start, CallsServed(jobs[..k]))
    ensures ImportExport.AllFromDaemon(CallsServed(jobs[..k]))
  {
    FoundAfterOthers(start, jobs, end, k);
    PrefixServed(start, jobs, end, k);
    ServedFromDaemon(start, jobs[..k], jobs[k].before);
  }

  /** Its answer, over the wire, imported into a new vault. */
  ghost function ExportImported(wire: string -> string, j: Job, password: string, first: Env, envs: seq<Env>,
                                merge: bool): (t: Store)
    requires |envs| == |ExportAnswer(j.told)|
    ensures t.Valid()
  {
    var sent := ImportExport.OnWire(wire, ExportAnswer(j.told));
    Handlers.Import(ImportExport.NewVault(password, first), sent, envs, merge).store
  }

  lemma {:induction false} JobExportsEverything(start: Store, jobs: seq<Job>, end: Store, k: nat,
                                                wire: string -> string, password: string, first: Env, envs: seq<Env>,
                                                merge: bool)
    requires ServedInOrder(start, jobs, end) && k < |jobs|
    requires jobs[k].request == Request.Export("") && jobs[k].told != []
    requires |envs| == |ExportAnswer(jobs[k].told)|
    requires Faultless(first) && ImportExport.AllCanStore(envs)
    ensures jobs[k].before.Valid()
    ensures forall p ::
              ImportExport.Carried(wire, jobs[k].before, ExportImported(wire, jobs[k], password, first, envs, merge), p)
  {
    AnsweredExportIsWhole(start, jobs, end, k);
    ImportExport.ExportThenImport(wire, jobs[k].before, password, first, envs, merge);
    assert ExportImported(wire, jobs[k], password, first, envs, merge)
        == ImportExport.Transferred(wire, jobs[k].before, password, first, envs, merge);
  }

  /**
     The answer of a full export in any interleaving of a daemon started on any files, whatever failed
     before it, imported without failures into a new vault: `ExportThenImport` holds of the store that the
     handlers before it left.
   */
  lemma {:induction false} DaemonExportsEverything(disk: Disk, duration: nat, now: Instant, events: seq<Event>,
                                                   k: nat, wire: string -> string, password: string, first: Env,
                                                   envs: seq<Env>, merge: bool)
    requires IsRun(Started(disk, duration, now), events)
    requires AnsweredExport(After(Started(disk, duration, now), events), k)
    requires |envs| == |ExportAnswer(After(Started(disk, duration, now), events).served[k].told)|
    requires Faultless(first) && ImportExport.AllCanStore(envs)
    ensures var j := After(Started(disk, duration, now), events).served[k];
            && j.before.Valid()
            && forall p ::
                 ImportExport.Carried(wire, j.before, ExportImported(wire, j, password, first, envs, merge), p)
  {
    HandlersAreAtomic(disk, duration, now, events);
    var s := After(Started(disk, duration, now), events);
    JobExportsEverything(NewStore(true, disk), s.served, s.base, k, wire, password, first, envs, merge);
  }

  /** Failed writes before that handler left no foreign entries. */
  ghost predicate NothingForeignBefore(disk: Disk, jobs: seq<Job>, k: nat)
    requires k < |jobs|
  {
    var earlier := CallsServed(jobs[..k]);
    MayRun(NewStore(true, disk), earlier) ==> ImportExport.NothingForeign(NewStore(true, disk), earlier)
  }

  /** Text that was decoded from JSON passes the wire. */
  ghost predicate TextPasses(wire: string -> string, s: Store) {
    s.Valid() && !s.IsLocked() ==> ImportExport.PassesText(wire, s)
  }

  lemma {:induction false} JobExportsWhole(disk: Disk, jobs: seq<Job>, end: Store, k: nat, wire: string -> string,
                                           password: string, first: Env, envs: seq<Env>, merge: bool)
    requires ServedInOrder(NewStore(true, disk), jobs, end) && k < |jobs|
    requires jobs[k].request == Request.Export("") && jobs[k].told != []
    requires |envs| == |ExportAnswer(jobs[k].told)|
    requires Faultless(first) && ImportExport.AllCanStore(envs)
    requires ImportExport.FileIsTextual(disk.data) && NothingForeignBefore(disk, jobs, k)
    requires TextPasses(wire, jobs[k].before)
    ensures jobs[k].before.Valid()
    ensures forall p ::
              ImportExport.CarriedWhole(jobs[k].before, ExportImported(wire, jobs[k], password, first, envs, merge), p)
  {
    AnsweredExportIsWhole(NewStore(true, disk), jobs, end, k);
    FoundFromDaemon(NewStore(true, disk), jobs, end, k);
    var calls := CallsServed(jobs[..k]);
    ImportExport.DaemonSecretsComeBackWhole(true, disk, calls, wire, password, first, envs, merge);
    assert ExportImported(wire, jobs[k], password, first, envs, merge)
        == ImportExport.Transferred(wire, jobs[k].before, password, first, envs, merge);
  }

  /**
     On files whose secrets have no bytes, and as long as failed writes leave no foreign entries, every
     secret moreover comes back whole unless its expiry is the zero time.
   */
  lemma {:induction false} DaemonExportsWhole(disk: Disk, duration: nat, now: Instant, events: seq<Event>, k: nat,
                                              wire: string -> string, password: string, first: Env, envs: seq<Env>,
                                              merge: bool)
    requires IsRun(Started(disk, duration, now), events)
    requires AnsweredExport(After(Started(disk, duration, now), events), k)
    requires |envs| == |ExportAnswer(After(Started(disk, duration, now), events).served[k].told)|
    requires Faultless(first) && ImportExport.AllCanStore(envs)
    requires ImportExport.FileIsTextual(disk.data)
    requires NothingForeignBefore(disk, After(Started(disk, duration, now), events).served, k)
    requires TextPasses(wire, After(Started(disk, duration, now), events).served[k].before)
    ensures var j := After(Started(disk, duration, now), events).served[k];
            && j.before.Valid()
            && forall p ::
                 ImportExport.CarriedWhole(j.before, ExportImported(wire, j, password, first, envs, merge), p)
  {
    HandlersAreAtomic(disk, duration, now, events);
    var s := After(Started(disk, duration, now), events);
    JobExportsWhole(disk, s.served, s.base, k, wire, password, first, envs, merge);
  }
}
