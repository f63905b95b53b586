/**
 What each request to the concurrent daemon does, told in terms of a plain vault: what it is answered
 and what the vault is afterwards.
 */
module ServedRequests {
  import opened Secrets
  import opened Primitives
  import Spec = StoreSpec
  import opened StoreSpec
  import opened StoreRefinement
  import Handlers
  import ImportExport
  import Text
  import opened DaemonProtocol
  import opened Linearization
  import opened WholeHandlers

  predicate IsOpen(a: Plain) {
    a.Vault? && !a.locked
  }

  /** Requests that are refused while the vault is locked or missing. */
  predicate NeedsOpenVault(r: Request) {
    match r
    case Init(_) => false
    case Unlock(_) => false
    case Lock => false
    case Status => false
    case _ => true
  }

  /** Nothing was asked of the store and nothing has changed. */
  ghost predicate Untouched(j: Job, plain: Plain, next: Plain) {
    j.calls == [] && j.told == [] && next == plain
  }

  /** One call was made; this is its answer, and this the vault it left. */
  ghost predicate Ends(j: Job, answer: Answer, next: Plain, expected: Plain) {
    |j.calls| == 1 && j.told == [answer] && next == expected
  }

  /** The secret of a PUT, as it is kept. */
  ghost predicate IsKept(x: Secret, value: string, fields: Option<map<string, string>>,
                         tags: Option<map<string, string>>, now: Instant)
  {
    && x.value == value && x.valueBytes.None?
    && SameUpToEmpty(x.fields, fields, map[]) && SameUpToEmpty(x.metadata.tags, tags, map[])
    && x.metadata.createdAt.Some? && ToTheSecond(x.metadata.createdAt.value, now)
    && x.metadata.modifiedAt.Some? && ToTheSecond(x.metadata.modifiedAt.value, now)
    && x.metadata.expiresAt.None? && x.metadata.labels.None? && x.metadata.extra.None?
    && x.metadata.version == "" && x.metadata.provider == "" && x.metadata.path == ""
  }

  /** The listing of the paths with the prefix, and then each secret listed. */
  ghost predicate ListsSecrets(prefix: string, secrets: map<string, Secret>, told: seq<Answer>) {
    && told != [] && told[0].Paths?
    && Text.Lists(told[0].paths, set p | p in secrets && prefix <= p)
    && |told| == |told[0].paths| + 1
    && forall i :: 0 <= i < |told[0].paths| ==>
         told[0].paths[i] in secrets && told[i + 1] == Found(secrets[told[0].paths[i]])
  }

  /** What an exported entry says of a secret. */
  predicate Shows(e: Handlers.ExportedSecret, path: string, x: Secret) {
    && e.path == path && e.value == x.Reveal() && e.fields == x.fields && e.tags == x.metadata.tags
    && e.expiresAt == if x.metadata.expiresAt.Some? then x.metadata.expiresAt.value else ZERO_TIME
  }

  ghost predicate ShowsAll(entries: seq<Handlers.ExportedSecret>, paths: seq<string>, secrets: map<string, Secret>) {
    |entries| == |paths| &&
    forall i :: 0 <= i < |paths| ==> paths[i] in secrets && Shows(entries[i], paths[i], secrets[paths[i]])
  }

  /** The import of a request, when every secret could be stored. */
  ghost predicate Imported(j: Job, plain: Plain, next: Plain)
    requires j.request.Import? && plain.Vault?
  {
    && Counted(j.request.entries, j.request.merge, j.told).errors == 0
    && exists envs: seq<Env> ::
         && |envs| == |j.request.entries| && MetBy(envs, j.calls)
         && next == plain.(secrets :=
              ImportExport.PlainImport(plain.secrets, j.request.entries, envs, j.request.merge))
  }

  /** What a request that found the plain vault `plain` is told, and the vault it leaves. */
  ghost predicate Serves(j: Job, plain: Plain, next: Plain) {
    if NeedsOpenVault(j.request) && !IsOpen(plain) then Untouched(j, plain, next)
    else match j.request
      case Init(p) =>
        if plain.Vault? then Untouched(j, plain, next)
        else if j.calls != [] && j.calls[0].env.salt.Some? && j.calls[0].env.nonce.Some?
        then Ends(j, Done, next, Vault(p, false, map[]))
        else Ends(j, Refused(RandomFailed), next, NoVault)
      case Unlock(p) =>
        if plain.NoVault? then Untouched(j, plain, next)
        else if p == plain.password then Ends(j, Done, next, plain.(locked := false))
        else Ends(j, Refused(InvalidPassword), next, plain)
      case Lock => Ends(j, Done, next, if plain.Vault? then plain.(locked := true) else plain)
      case Password(o, n) =>
        if o != plain.password then Ends(j, Refused(InvalidPassword), next, plain)
        else if j.calls != [] && j.calls[0].env.salt.Some? && j.calls[0].env.nonce.Some?
                && forall p :: p in plain.secrets ==> j.calls[0].env.renonce(p).Some?
        then Ends(j, Done, next, plain.(password := n))
        else Ends(j, Refused(RandomFailed), next, plain)
      case GetSecret(path) =>
        Ends(j, if path in plain.secrets then Found(plain.secrets[path]) else Refused(SecretNotFound), next, plain)
      case PutSecret(path, value, fields, tags) =>
        if j.calls != [] && j.calls[0].env.nonce.Some? then
          && next.Vault? && path in next.secrets
          && Ends(j, Done, next, plain.(secrets := plain.secrets[path := next.secrets[path]]))
          && IsKept(next.secrets[path], value, fields, tags, j.calls[0].env.now)
        else Ends(j, Refused(RandomFailed), next, plain)
      case DeleteSecret(path) => Ends(j, Done, next, plain.(secrets := plain.secrets - {path}))
      case BadSecret => Untouched(j, plain, next)
      case Status => Untouched(j, plain, next)
      case Secrets(prefix) => ListsSecrets(prefix, plain.secrets, j.told) && next == plain
      case Export(prefix) =>
        && ListsSecrets(prefix, plain.secrets, j.told) && next == plain
        && ShowsAll(ExportAnswer(j.told), j.told[0].paths, plain.secrets)
      case Search(q) =>
        && |j.told| == 1 && j.told[0].Paths? && next == plain
        && var found := Handlers.Matches(q, j.told[0].paths);
        && if q.Regex? && q.compiled.None? then found == Err(InvalidPattern)
           else found.Ok? && Text.Lists(found.value,
                  set p | p in plain.secrets && Handlers.Wanted(q, plain.secrets.Keys, p))
      case Import(entries, merge) =>
        && IsOpen(next) && next.password == plain.password && plain.secrets.Keys <= next.secrets.Keys
        && ((forall k :: 0 <= k < |j.calls| ==> ImportExport.CanStore(j.calls[k].env)) ==> Imported(j, plain, next))
  }

  /** The setting: the handler was served alone, on the store of a plain vault. */
  ghost predicate FoundPlain(j: Job, plain: Plain, next: Plain) {
    && ServedAlone(j) && Represents(j.before, plain) && FilesWorkThroughout(j.calls)
    && j.told == PlainReplies(plain, j.calls) && next == PlainFinal(plain, j.calls)
  }

  lemma VaultIsSeen(s: Store, a: Plain)
    requires Represents(s, a)
    ensures s.VaultExists() <==> a.Vault?
    ensures s.IsLocked() <==> !IsOpen(a)
    ensures IsOpen(a) ==> s.data.Some? && s.data.value.Keys == a.secrets.Keys
  {
  }

  lemma NotAdmitted(j: Job, plain: Plain, next: Plain)
    requires FoundPlain(j, plain, next) && !j.request.Admits(j.before)
    ensures Serves(j, plain, next)
  {
    VaultIsSeen(j.before, plain);
    assert j.calls == [] && j.told == [];
  }

  /** A request with one call has the plain machine's answer and effect of that call. */
  lemma OneCallOnPlain(j: Job, plain: Plain, next: Plain)
    requires FoundPlain(j, plain, next) && MakesOneCall(j.request) && j.request.Admits(j.before)
    ensures |j.calls| == 1 && AsksFor(j.request, j.calls[0].op)
    ensures j.told == [PlainReply(plain, j.calls[0])] && next == PlainUpdate(plain, j.calls[0])
  {
    OneCallIsWhole(j);
    assert j.calls[1..] == [];
    var after := PlainUpdate(plain, j.calls[0]);
    assert PlainReplies(after, []) == [] && PlainFinal(after, []) == after;
  }

  lemma OneCallIsServed(j: Job, plain: Plain, next: Plain)
    requires FoundPlain(j, plain, next) && MakesOneCall(j.request) && j.request.Admits(j.before)
    requires !j.request.PutSecret? && !j.request.Search?
    ensures Serves(j, plain, next)
  {
    VaultIsSeen(j.before, plain);
    OneCallOnPlain(j, plain, next);
  }

  lemma PutIsServed(j: Job, plain: Plain, next: Plain)
    requires FoundPlain(j, plain, next) && j.request.PutSecret? && j.request.Admits(j.before)
    ensures Serves(j, plain, next)
  {
    VaultIsSeen(j.before, plain);
    OneCallOnPlain(j, plain, next);
    StampedIsReadBack(j.calls[0].op.secret, j.calls[0].env.now);
  }

  lemma SearchIsServed(j: Job, plain: Plain, next: Plain)
    requires FoundPlain(j, plain, next) && j.request.Search? && j.request.Admits(j.before)
    ensures Serves(j, plain, next)
  {
    VaultIsSeen(j.before, plain);
    OneCallOnPlain(j, plain, next);
    SearchIsWhole(j);
    assert j.before.data.value.Keys == plain.secrets.Keys;
  }

  /** A handler that leaves the store as it was leaves the plain vault as it was. */
  lemma SameStoreSamePlain(j: Job, plain: Plain, next: Plain)
    requires FoundPlain(j, plain, next) && StoreAfter(j) == j.before
    ensures next == plain
  {
    RunRefines(j.before, plain, j.calls);
    PlainIsUnique(j.before, plain, next);
  }

  lemma ReadsArePlain(s: Store, a: Plain, prefix: string, told: seq<Answer>)
    requires Represents(s, a) && IsOpen(a) && !s.IsLocked() && ListsThenReads(s, prefix, told)
    ensures ListsSecrets(prefix, a.secrets, told)
  {
    SameListing(s.data.value, a.secrets, prefix);
    assert (set p | p in a.secrets && Text.HasPrefix(p, prefix)) == set p | p in a.secrets && prefix <= p;
    var paths := Spec.List(s, prefix).value;
    assert told[0].paths == paths;
    forall i | 0 <= i < |paths| ensures paths[i] in a.secrets && told[i + 1] == Found(a.secrets[paths[i]]) {
      assert paths[i] in paths;
      ImportExport.GetRefines(s, a, paths[i]);
      assert told[i + 1] == GetAnswer(s, paths[i]);
    }
  }

  lemma {:induction false} CollectedShowsAll(paths: seq<string>, gets: seq<Answer>, secrets: map<string, Secret>)
    requires |paths| == |gets|
    requires forall i :: 0 <= i < |paths| ==> paths[i] in secrets && gets[i] == Found(secrets[paths[i]])
    ensures ShowsAll(Collected(paths, gets), paths, secrets)
  {
    if paths != [] {
      var last := |paths| - 1;
      CollectedShowsAll(paths[..last], gets[..last], secrets);
      assert Shows(Collected(paths, gets)[last], paths[last], secrets[paths[last]]);
    }
  }

  lemma ReaderIsServed(j: Job, plain: Plain, next: Plain)
    requires FoundPlain(j, plain, next) && (j.request.Secrets? || j.request.Export?) && j.request.Admits(j.before)
    ensures Serves(j, plain, next)
  {
    VaultIsSeen(j.before, plain);
    ReadersAreWhole(j, j.request.prefix);
    SameStoreSamePlain(j, plain, next);
    ReadsArePlain(j.before, plain, j.request.prefix, j.told);
    CollectedShowsAll(j.told[0].paths, j.told[1..], plain.secrets);
  }

  lemma ImportIsServed(j: Job, plain: Plain, next: Plain)
    requires FoundPlain(j, plain, next) && j.request.Import? && j.request.Admits(j.before)
    ensures Serves(j, plain, next)
  {
    VaultIsSeen(j.before, plain);
    ImportCallsKeep(j, plain);
    if forall k :: 0 <= k < |j.calls| ==> ImportExport.CanStore(j.calls[k].env) {
      FaultlessImportIsWhole(j, plain);
      RunRefines(j.before, plain, j.calls);
      var envs: seq<Env> :|
        && |envs| == |j.request.entries| && MetBy(envs, j.calls)
        && Represents(StoreAfter(j), plain.(secrets :=
             ImportExport.PlainImport(plain.secrets, j.request.entries, envs, j.request.merge)));
      PlainIsUnique(StoreAfter(j), next, plain.(secrets :=
        ImportExport.PlainImport(plain.secrets, j.request.entries, envs, j.request.merge)));
      assert Imported(j, plain, next);
    }
  }

  /** The calls of an import only add to the secrets. */
  lemma ImportCallsKeep(j: Job, plain: Plain)
    requires ServedAlone(j) && j.request.Import? && j.request.Admits(j.before) && IsOpen(plain)
    ensures var next := PlainFinal(plain, j.calls);
            IsOpen(next) && next.password == plain.password && plain.secrets.Keys <= next.secrets.Keys
  {
    forall i | 0 <= i < |j.calls| ensures j.calls[i].op.Exists? || j.calls[i].op.Set? {
      ImportsOnly(j.request.entries, j.request.merge, j.told[..i]);
    }
    SetsKeep(plain, j.calls);
  }

  lemma {:induction false} SetsKeep(plain: Plain, calls: seq<Call>)
    requires IsOpen(plain) && forall i :: 0 <= i < |calls| ==> calls[i].op.Exists? || calls[i].op.Set?
    ensures var next := PlainFinal(plain, calls);
            IsOpen(next) && next.password == plain.password && plain.secrets.Keys <= next.secrets.Keys
    decreases |calls|
  {
    if calls != [] {
      SetsKeep(PlainUpdate(plain, calls[0]), calls[1..]);
    }
  }

  lemma JobIsServed(j: Job, plain: Plain, next: Plain)
    requires FoundPlain(j, plain, next)
    ensures Serves(j, plain, next)
  {
    if !j.request.Admits(j.before) {
      NotAdmitted(j, plain, next);
    } else {
      match j.request
      case PutSecret(_, _, _, _) => PutIsServed(j, plain, next);
      case Search(_) => SearchIsServed(j, plain, next);
      case Secrets(_) => ReaderIsServed(j, plain, next);
      case Export(_) => ReaderIsServed(j, plain, next);
      case Import(_, _) => ImportIsServed(j, plain, next);
      case BadSecret => BadRequestIsServed(j, plain, next);
      case _ => OneCallIsServed(j, plain, next);
    }
  }

  lemma BadRequestIsServed(j: Job, plain: Plain, next: Plain)
    requires FoundPlain(j, plain, next) && j.request.BadSecret? && j.request.Admits(j.before)
    ensures Serves(j, plain, next)
  {
    VaultIsSeen(j.before, plain);
    if j.calls != [] {
      assert false;
    }
    assert j.told == [];
  }

  /**
     In every interleaving of a daemon started on the files of a plain vault, or on none, in which file
     operations succeed: every request that has been served did to the plain vault it found, and was
     told, exactly what `Serves` says of it.
   */
  lemma {:induction false} EveryRequestIsServed(disk: Disk, a: Plain, duration: nat, now: Instant, events: seq<Event>)
    requires Represents(NewStore(true, disk), a)
    requires IsRun(Started(disk, duration, now), events) && AllFilesWork(Started(disk, duration, now), events)
    ensures var jobs := After(Started(disk, duration, now), events).served;
            forall k :: 0 <= k < |jobs| ==>
              && Represents(jobs[k].before, PlainAfter(a, jobs[..k]))
              && Serves(jobs[k], PlainAfter(a, jobs[..k]), PlainAfter(a, jobs[..k + 1]))
  {
    DaemonIsPlainMap(disk, a, duration, now, events);
    FilesKeepWorking(Started(disk, duration, now), events);
    var s := After(Started(disk, duration, now), events);
    forall k | 0 <= k < |s.served|
      ensures Represents(s.served[k].before, PlainAfter(a, s.served[..k]))
      ensures Serves(s.served[k], PlainAfter(a, s.served[..k]), PlainAfter(a, s.served[..k + 1]))
    {
      PrefixServed(NewStore(true, disk), s.served, s.base, k);
      assert ToldByPlainMap(a, s.served, k);
      JobIsServed(s.served[k], PlainAfter(a, s.served[..k]), PlainAfter(a, s.served[..k + 1]));
    }
  }
}
