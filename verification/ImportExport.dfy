/** What import and export do to a vault as a whole. */
module ImportExport {
  import opened Secrets
  import opened Primitives
  import Spec = StoreSpec
  import opened StoreSpec
  import opened StoreRefinement
  import opened StoreFaults
  import opened Handlers
  import Text

  // ---------- import, whatever fails ----------

  /** Every entry is counted once, whichever stores fail. */
  lemma {:induction false} ImportCountsEveryEntry(s: Store, entries: seq<ExportedSecret>, envs: seq<Env>, merge: bool)
    requires s.Valid() && |envs| == |entries|
    ensures var t := Import(s, entries, envs, merge); t.imported + t.skipped + t.errors == |entries|
  {
    if entries != [] {
      ImportCountsEveryEntry(s, entries[..|entries| - 1], envs[..|entries| - 1], merge);
    }
  }

  predicate Mentions(entries: seq<ExportedSecret>, path: string) {
    exists i :: 0 <= i < |entries| && entries[i].path == path
  }

  /** Even when stores fail: no path is lost, merge leaves existing ones alone, others keep their entry. */
  lemma {:induction false} ImportTouchesOnlyItsPaths(s: Store, entries: seq<ExportedSecret>, envs: seq<Env>,
                                                     merge: bool, path: string)
    requires s.Valid() && |envs| == |entries| && !s.IsLocked()
    ensures var data := Import(s, entries, envs, merge).store.data;
            && data.Some?
            && (path in s.data.value ==> path in data.value)
            && (path in data.value ==> path in s.data.value || Mentions(entries, path))
            && (path in s.data.value && (merge || !Mentions(entries, path)) ==> data.value[path] == s.data.value[path])
  {
    if entries != [] {
      var last := |entries| - 1;
      ImportTouchesOnlyItsPaths(s, entries[..last], envs[..last], merge, path);
      MentionsSplits(entries, path);
      var t := Import(s, entries[..last], envs[..last], merge);
      var e := entries[last];
      if !(merge && e.path in t.store.data.value) {
        SetTouchesOnePath(t.store, e.path, ImportedSecret(e), envs[last], path);
      }
    }
  }

  lemma SetTouchesOnePath(s: Store, path: string, secret: Secret, env: Env, other: string)
    requires s.Valid() && !s.IsLocked()
    ensures var data := Spec.Set(s, path, secret, env).store.data;
            && data.Some?
            && (other in s.data.value ==> other in data.value)
            && (other != path && other in data.value ==>
                  other in s.data.value && data.value[other] == s.data.value[other])
  {
  }

  /** The store can take a secret in this environment: a nonce for a key of the right size. */
  predicate CanSeal(s: Store, env: Env)
    requires s.Valid() && !s.IsLocked()
  {
    AesKeySize(|s.crypto.value.key.value|) && env.nonce.Some?
  }

  /** An entry before this one, for the same path, got into the vault; whether it was saved or not. */
  predicate CameBefore(s: Store, entries: seq<ExportedSecret>, envs: seq<Env>, k: nat, path: string)
    requires s.Valid() && !s.IsLocked() && k <= |entries| == |envs|
  {
    exists j :: 0 <= j < k && entries[j].path == path && CanSeal(s, envs[j])
  }

  /** Merge protects the path of entry `k`: the vault had it, or an entry before it brought it. */
  predicate IsProtected(s: Store, entries: seq<ExportedSecret>, envs: seq<Env>, merge: bool, k: nat)
    requires s.Valid() && !s.IsLocked() && k < |entries| == |envs|
  {
    merge && (entries[k].path in s.data.value || CameBefore(s, entries, envs, k, entries[k].path))
  }

  /** Entry `k` is tried, and cannot be sealed or saved. */
  predicate IsFailure(s: Store, entries: seq<ExportedSecret>, envs: seq<Env>, merge: bool, k: nat)
    requires s.Valid() && !s.IsLocked() && k < |entries| == |envs|
  {
    !IsProtected(s, entries, envs, merge, k) && (!CanSeal(s, envs[k]) || (s.autoSave && envs[k].dataWrite.Failed?))
  }

  ghost function Protected(s: Store, entries: seq<ExportedSecret>, envs: seq<Env>, merge: bool): set<nat>
    requires s.Valid() && !s.IsLocked() && |envs| == |entries|
  {
    set k: nat | k < |entries| && IsProtected(s, entries, envs, merge, k)
  }

  ghost function Failures(s: Store, entries: seq<ExportedSecret>, envs: seq<Env>, merge: bool): set<nat>
    requires s.Valid() && !s.IsLocked() && |envs| == |entries|
  {
    set k: nat | k < |entries| && IsFailure(s, entries, envs, merge, k)
  }

  lemma CameBeforeInit(s: Store, entries: seq<ExportedSecret>, envs: seq<Env>, k: nat, path: string)
    requires s.Valid() && !s.IsLocked() && k < |entries| == |envs|
    ensures var last := |entries| - 1;
            CameBefore(s, entries, envs, k, path) == CameBefore(s, entries[..last], envs[..last], k, path)
  {
    var last := |entries| - 1;
    assert forall j :: 0 <= j < k ==> entries[..last][j] == entries[j] && envs[..last][j] == envs[j];
  }

  /** An entry is protected or fails whatever comes after it. */
  lemma SameInInit(s: Store, entries: seq<ExportedSecret>, envs: seq<Env>, merge: bool, k: nat)
    requires s.Valid() && !s.IsLocked() && k < |entries| - 1 && |envs| == |entries|
    ensures var init, inits := entries[..|entries| - 1], envs[..|entries| - 1];
            && IsProtected(s, entries, envs, merge, k) == IsProtected(s, init, inits, merge, k)
            && IsFailure(s, entries, envs, merge, k) == IsFailure(s, init, inits, merge, k)
  {
    CameBeforeInit(s, entries, envs, k, entries[k].path);
    assert entries[..|entries| - 1][k] == entries[k] && envs[..|entries| - 1][k] == envs[k];
  }

  lemma ProtectedGrows(s: Store, entries: seq<ExportedSecret>, envs: seq<Env>, merge: bool)
    requires s.Valid() && !s.IsLocked() && |envs| == |entries| && entries != []
    ensures var last := |entries| - 1;
            |Protected(s, entries, envs, merge)|
            == |Protected(s, entries[..last], envs[..last], merge)|
               + if IsProtected(s, entries, envs, merge, last) then 1 else 0
  {
    var last := |entries| - 1;
    var before, after := Protected(s, entries[..last], envs[..last], merge), Protected(s, entries, envs, merge);
    forall k: nat ensures k in after <==> k in before || (k == last && IsProtected(s, entries, envs, merge, last)) {
      if k < last { SameInInit(s, entries, envs, merge, k); }
    }
    assert last !in before;
    assert after == before + if IsProtected(s, entries, envs, merge, last) then {last} else {};
  }

  lemma FailuresGrow(s: Store, entries: seq<ExportedSecret>, envs: seq<Env>, merge: bool)
    requires s.Valid() && !s.IsLocked() && |envs| == |entries| && entries != []
    ensures var last := |entries| - 1;
            |Failures(s, entries, envs, merge)|
            == |Failures(s, entries[..last], envs[..last], merge)|
               + if IsFailure(s, entries, envs, merge, last) then 1 else 0
  {
    var last := |entries| - 1;
    var before, after := Failures(s, entries[..last], envs[..last], merge), Failures(s, entries, envs, merge);
    forall k: nat ensures k in after <==> k in before || (k == last && IsFailure(s, entries, envs, merge, last)) {
      if k < last { SameInInit(s, entries, envs, merge, k); }
    }
    assert last !in before;
    assert after == before + if IsFailure(s, entries, envs, merge, last) then {last} else {};
  }

  /** The paths after an import: those there were, and those of entries that could be sealed. */
  lemma {:induction false} ImportBrings(s: Store, entries: seq<ExportedSecret>, envs: seq<Env>, merge: bool)
    requires s.Valid() && !s.IsLocked() && |envs| == |entries|
    ensures var after := Import(s, entries, envs, merge).store;
            && after.data.Some? && after.crypto == s.crypto && after.autoSave == s.autoSave
            && forall p :: p in after.data.value <==>
                             p in s.data.value || CameBefore(s, entries, envs, |entries|, p)
  {
    if entries != [] {
      var last := |entries| - 1;
      var t := Import(s, entries[..last], envs[..last], merge);
      ImportBrings(s, entries[..last], envs[..last], merge);
      ImportOneBrings(t, entries[last], envs[last], merge);
      forall p ensures CameBefore(s, entries, envs, |entries|, p) <==>
                       || CameBefore(s, entries[..last], envs[..last], last, p)
                       || (p == entries[last].path && CanSeal(s, envs[last])) {
        CameBeforeGrows(s, entries, envs, p);
      }
    }
  }

  lemma CameBeforeGrows(s: Store, entries: seq<ExportedSecret>, envs: seq<Env>, path: string)
    requires s.Valid() && !s.IsLocked() && |envs| == |entries| && entries != []
    ensures var last := |entries| - 1;
            CameBefore(s, entries, envs, |entries|, path) <==>
            || CameBefore(s, entries[..last], envs[..last], last, path)
            || (path == entries[last].path && CanSeal(s, envs[last]))
  {
    CameBeforeInit(s, entries, envs, |entries| - 1, path);
  }

  lemma ImportOneBrings(t: Tally, entry: ExportedSecret, env: Env, merge: bool)
    requires t.store.Valid() && !t.store.IsLocked()
    ensures var after := ImportOne(t, entry, env, merge).store;
            && after.data.Some? && after.crypto == t.store.crypto && after.autoSave == t.store.autoSave
            && forall p :: p in after.data.value <==>
                             p in t.store.data.value || (p == entry.path && CanSeal(t.store, env))
  {
    SetBrings(t.store, entry, env);
  }

  lemma SetBrings(s: Store, entry: ExportedSecret, env: Env)
    requires s.Valid() && !s.IsLocked()
    ensures var step := Spec.Set(s, entry.path, ImportedSecret(entry), env);
            && step.store.data.Some? && step.store.crypto == s.crypto && step.store.autoSave == s.autoSave
            && step.store.data.value.Keys == s.data.value.Keys + (if CanSeal(s, env) then {entry.path} else {})
            && (step.result.Err? <==> !CanSeal(s, env) || (s.autoSave && env.dataWrite.Failed?))
  {
  }

  /** What each counter counts, whichever stores fail; all other entries are imported. */
  lemma {:induction false} ImportCountersAreExact(s: Store, entries: seq<ExportedSecret>, envs: seq<Env>, merge: bool)
    requires s.Valid() && !s.IsLocked() && |envs| == |entries|
    ensures var t := Import(s, entries, envs, merge);
            && t.skipped == |Protected(s, entries, envs, merge)|
            && t.errors == |Failures(s, entries, envs, merge)|
            && t.imported == |entries| - t.skipped - t.errors
  {
    if entries != [] {
      var last := |entries| - 1;
      ImportCountersAreExact(s, entries[..last], envs[..last], merge);
      ImportBrings(s, entries[..last], envs[..last], merge);
      ProtectedGrows(s, entries, envs, merge);
      FailuresGrow(s, entries, envs, merge);
      CameBeforeInit(s, entries, envs, last, entries[last].path);
      SetBrings(Import(s, entries[..last], envs[..last], merge).store, entries[last], envs[last]);
    } else {
      assert Protected(s, entries, envs, merge) == {} && Failures(s, entries, envs, merge) == {};
    }
  }

  // ---------- import without failures ----------

  /** The import fold on the plain machine. */
  function PlainImport(secrets: map<string, Secret>, entries: seq<ExportedSecret>, envs: seq<Env>, merge: bool)
    : map<string, Secret>
    requires |envs| == |entries|
  {
    if entries == [] then secrets
    else
      var last := |entries| - 1;
      var before := PlainImport(secrets, entries[..last], envs[..last], merge);
      if merge && entries[last].path in before then before
      else before[entries[last].path := Kept(entries[last], envs[last])]
  }

  /** What the vault keeps of one imported entry. */
  function Kept(e: ExportedSecret, env: Env): Secret {
    ImportedSecret(e).Stamp(env.now).Norm()
  }

  /** What storing a secret needs: a nonce, and a file that can be written. */
  predicate CanStore(env: Env) {
    env.nonce.Some? && env.dataWrite.Written?
  }

  predicate AllCanStore(envs: seq<Env>) {
    forall i :: 0 <= i < |envs| ==> CanStore(envs[i])
  }

  /** One entry, without failures. */
  lemma ImportStepRefines(s: Store, a: Plain, entry: ExportedSecret, env: Env)
    requires Represents(s, a) && a.Vault? && !a.locked && CanStore(env)
    ensures var step := Spec.Set(s, entry.path, ImportedSecret(entry), env);
            && step.result.Ok?
            && Represents(step.store, a.(secrets := a.secrets[entry.path := Kept(entry, env)]))
    ensures Spec.Exists(s, entry.path) == Ok(entry.path in a.secrets)
  {
    SetRefines(s, a, Call(Set(entry.path, ImportedSecret(entry)), env, []));
  }

  /** Without failures, importing into the store is the fold on the plain map, and nothing errs. */
  lemma {:induction false} ImportRefines(s: Store, a: Plain, entries: seq<ExportedSecret>, envs: seq<Env>, merge: bool)
    requires Represents(s, a) && a.Vault? && !a.locked
    requires |envs| == |entries| && AllCanStore(envs)
    ensures var t := Import(s, entries, envs, merge);
            && Represents(t.store, a.(secrets := PlainImport(a.secrets, entries, envs, merge)))
            && t.errors == 0
            && (!merge ==> t.imported == |entries|)
            && (merge ==> |a.secrets| + t.imported == |PlainImport(a.secrets, entries, envs, merge)|)
  {
    if entries != [] {
      var last := |entries| - 1;
      ImportRefines(s, a, entries[..last], envs[..last], merge);
      var before := PlainImport(a.secrets, entries[..last], envs[..last], merge);
      var t := Import(s, entries[..last], envs[..last], merge);
      ImportStepRefines(t.store, a.(secrets := before), entries[last], envs[last]);
    } else {
      assert a.(secrets := PlainImport(a.secrets, entries, envs, merge)) == a;
    }
  }

  ghost predicate IsLast(entries: seq<ExportedSecret>, path: string, i: nat) {
    i < |entries| && entries[i].path == path && forall j :: i < j < |entries| ==> entries[j].path != path
  }

  ghost predicate IsFirst(entries: seq<ExportedSecret>, path: string, i: nat) {
    i < |entries| && entries[i].path == path && forall j :: 0 <= j < i ==> entries[j].path != path
  }

  /** The fold adds the mentioned paths; a path keeps its secret if it is not mentioned or merge protects it. */
  lemma {:induction false} ImportedPaths(secrets: map<string, Secret>, entries: seq<ExportedSecret>, envs: seq<Env>,
                                         merge: bool, path: string)
    requires |envs| == |entries|
    ensures var after := PlainImport(secrets, entries, envs, merge);
            && (path in after <==> path in secrets || Mentions(entries, path))
            && (path in secrets && (merge || !Mentions(entries, path)) ==> after[path] == secrets[path])
  {
    if entries != [] {
      ImportedPaths(secrets, entries[..|entries| - 1], envs[..|entries| - 1], merge, path);
      MentionsSplits(entries, path);
    }
  }

  /** Without merge the last entry for a path wins. */
  lemma {:induction false} LastEntryWins(secrets: map<string, Secret>, entries: seq<ExportedSecret>, envs: seq<Env>,
                                         path: string, i: nat)
    requires |envs| == |entries| && IsLast(entries, path, i)
    ensures var after := PlainImport(secrets, entries, envs, false);
            path in after && after[path] == Kept(entries[i], envs[i])
  {
    if i < |entries| - 1 {
      LastEntryWins(secrets, entries[..|entries| - 1], envs[..|entries| - 1], path, i);
    }
  }

  /** With merge the first entry for a path that was not there wins. */
  lemma {:induction false} FirstEntryWins(secrets: map<string, Secret>, entries: seq<ExportedSecret>, envs: seq<Env>,
                                          path: string, i: nat)
    requires |envs| == |entries| && IsFirst(entries, path, i) && path !in secrets
    ensures var after := PlainImport(secrets, entries, envs, true);
            path in after && after[path] == Kept(entries[i], envs[i])
  {
    var last := |entries| - 1;
    if i < last {
      FirstEntryWins(secrets, entries[..last], envs[..last], path, i);
    } else {
      ImportedPaths(secrets, entries[..last], envs[..last], true, path);
      assert !Mentions(entries[..last], path);
    }
  }

  lemma {:induction false} MentionsSplits(entries: seq<ExportedSecret>, path: string)
    requires entries != []
    ensures Mentions(entries, path) <==>
            Mentions(entries[..|entries| - 1], path) || entries[|entries| - 1].path == path
  {
    var init := entries[..|entries| - 1];
    if Mentions(entries, path) && entries[|entries| - 1].path != path {
      var i :| 0 <= i < |entries| && entries[i].path == path;
      assert init[i].path == path;
    }
    if Mentions(init, path) {
      var i :| 0 <= i < |init| && init[i].path == path;
      assert entries[i].path == path;
    }
  }

  // ---------- put, then get ----------

  /** The secrets the daemon can hand to the store. */
  ghost predicate FromDaemon(c: Call) {
    c.op.Set? ==>
      || (exists value, fields, tags :: c.op.secret == RequestedSecret(value, fields, tags))
      || (exists e :: c.op.secret == ImportedSecret(e))
  }

  /** What was put can be read back, with empty fields and tags as none, and no other path changes. */
  lemma PutThenGet(s: Store, a: Plain, path: string, value: string, fields: Option<map<string, string>>,
                   tags: Option<map<string, string>>, env: Env, other: string)
    requires Represents(s, a) && a.Vault? && !a.locked && CanStore(env)
    ensures var step := Spec.Set(s, path, RequestedSecret(value, fields, tags), env);
            && step.result.Ok? && step.store.Valid()
            && Spec.Get(step.store, path).Ok?
            && Exported(path, Spec.Get(step.store, path).value)
               == ExportedSecret(path, value, DropEmptyMap(fields), DropEmptyMap(tags), ZERO_TIME)
            && (other != path ==> Spec.Get(step.store, other) == Spec.Get(s, other))
  {
    var secret := RequestedSecret(value, fields, tags);
    SetRefines(s, a, Call(Set(path, secret), env, []));
    var b := a.(secrets := a.secrets[path := secret.Stamp(env.now).Norm()]);
    GetRefines(Spec.Set(s, path, secret, env).store, b, path);
  }

  // ---------- export, then import ----------

  /** What a reader of a secret sees of it. */
  predicate SameContent(x: Secret, y: Secret) {
    x.Reveal() == y.Reveal() && x.fields == y.fields && x.metadata.tags == y.metadata.tags
    && x.metadata.expiresAt == y.metadata.expiresAt
  }

  /** And whether its value is text or bytes. */
  predicate SameSecret(x: Secret, y: Secret) {
    SameContent(x, y) && x.value == y.value && x.valueBytes == y.valueBytes
  }

  /**
     The export on its way to the import, as JSON: `wire` is what encoding and decoding make of a value.
     It leaves valid UTF-8 alone, as all strings that were decoded from JSON are; bytes shown as a string
     need not be.
   */
  function OnWire(wire: string -> string, entries: seq<ExportedSecret>): seq<ExportedSecret> {
    seq(|entries|, i requires 0 <= i < |entries| => entries[i].(value := wire(entries[i].value)))
  }

  /** The exported form of one secret when it arrives. */
  function Sent(wire: string -> string, path: string, x: Secret): ExportedSecret {
    Exported(path, x).(value := wire(x.Reveal()))
  }

  /** The secret comes back with its value as it passes the wire, its fields and its tags, and never as bytes. */
  ghost predicate Copied(wire: string -> string, y: Secret, x: Secret) {
    var passes := wire(x.Reveal()) == x.Reveal() && x.metadata.expiresAt != Some(ZERO_TIME);
    && y.Reveal() == wire(x.Reveal()) && y.valueBytes.None?
    && y.fields == x.fields && y.metadata.tags == x.metadata.tags
    && (SameContent(y, x) <==> passes)
    && (SameSecret(y, x) <==> passes && x.valueBytes.None?)
  }

  function ExportedListing(secrets: map<string, Secret>, paths: seq<string>): (r: seq<ExportedSecret>)
    requires forall p :: p in paths ==> p in secrets
  {
    seq(|paths|, i requires 0 <= i < |paths| => Exported(paths[i], secrets[paths[i]]))
  }

  lemma ListingGrows(secrets: map<string, Secret>, paths: seq<string>)
    requires paths != [] && forall p :: p in paths ==> p in secrets
    ensures forall p :: p in paths[..|paths| - 1] ==> p in secrets
    ensures paths[|paths| - 1] in secrets
    ensures ExportedListing(secrets, paths) == ExportedListing(secrets, paths[..|paths| - 1])
                                            + [Exported(paths[|paths| - 1], secrets[paths[|paths| - 1]])]
  {
    assert paths[|paths| - 1] in paths;
  }

  lemma GetRefines(s: Store, a: Plain, path: string)
    requires Represents(s, a) && a.Vault? && !a.locked && path in a.secrets
    ensures Spec.Get(s, path) == Ok(a.secrets[path])
  {
  }

  /** One secret, exported and imported: content survives exactly when its value passes and its expiry is not zero. */
  lemma OneSecretSurvives(wire: string -> string, path: string, x: Secret, env: Env)
    requires x.Norm() == x
    ensures Copied(wire, Kept(Sent(wire, path, x), env), x)
  {
    var y := Kept(Sent(wire, path, x), env);
    assert y.fields == x.fields && y.metadata.tags == x.metadata.tags;
    assert x.valueBytes.Some? ==> |x.valueBytes.value| > 0;
  }

  /** The entry of one path of an exported vault is its first and its last. */
  lemma ExportedOnce(wire: string -> string, secrets: map<string, Secret>, paths: seq<string>, path: string)
    requires Text.Lists(paths, secrets.Keys)
    ensures var entries := OnWire(wire, ExportedListing(secrets, paths));
            && (Mentions(entries, path) <==> path in secrets)
            && (path in secrets ==>
                  exists i: nat :: IsFirst(entries, path, i) && IsLast(entries, path, i)
                                   && entries[i] == Sent(wire, path, secrets[path]))
  {
    Text.ListingHasNoDuplicates(paths);
    var entries := OnWire(wire, ExportedListing(secrets, paths));
    assert path in secrets <==> path in paths;
    if path in paths {
      var i :| 0 <= i < |paths| && paths[i] == path;
      assert entries[i].path == path;
      assert IsFirst(entries, path, i) && IsLast(entries, path, i);
    }
    if Mentions(entries, path) {
      var k :| 0 <= k < |entries| && entries[k].path == path;
      assert paths[k] in paths;
    }
  }

  /** Secrets as they come out of a store. */
  ghost predicate Normal(secrets: map<string, Secret>) {
    forall p :: p in secrets ==> secrets[p].Norm() == secrets[p]
  }

  /** One path through export and import into an empty vault, on the plain machine. */
  lemma {:induction false} ExportThenImportOne(wire: string -> string, secrets: map<string, Secret>,
                                               paths: seq<string>, envs: seq<Env>, merge: bool, path: string)
    requires Normal(secrets) && Text.Lists(paths, secrets.Keys) && |envs| == |paths|
    ensures var copy := PlainImport(map[], OnWire(wire, ExportedListing(secrets, paths)), envs, merge);
            && (path in copy <==> path in secrets)
            && (path in secrets ==> Copied(wire, copy[path], secrets[path]))
  {
    var entries := OnWire(wire, ExportedListing(secrets, paths));
    ExportedOnce(wire, secrets, paths, path);
    ImportedPaths(map[], entries, envs, merge, path);
    if path in secrets {
      var i: nat :| IsFirst(entries, path, i) && IsLast(entries, path, i)
                    && entries[i] == Sent(wire, path, secrets[path]);
      if merge {
        FirstEntryWins(map[], entries, envs, path, i);
      } else {
        LastEntryWins(map[], entries, envs, path, i);
      }
      OneSecretSurvives(wire, path, secrets[path], envs[i]);
    }
  }

  /** `copy` has the paths of `secrets`, and a copy of each. */
  ghost predicate AllCopied(wire: string -> string, copy: map<string, Secret>, secrets: map<string, Secret>) {
    copy.Keys == secrets.Keys && forall p :: p in secrets ==> Copied(wire, copy[p], secrets[p])
  }

  lemma {:induction false} ExportThenImportPlain(wire: string -> string, secrets: map<string, Secret>,
                                                 paths: seq<string>, envs: seq<Env>, merge: bool)
    requires Normal(secrets) && Text.Lists(paths, secrets.Keys) && |envs| == |paths|
    ensures AllCopied(wire, PlainImport(map[], OnWire(wire, ExportedListing(secrets, paths)), envs, merge), secrets)
  {
    var copy := PlainImport(map[], OnWire(wire, ExportedListing(secrets, paths)), envs, merge);
    forall p
      ensures p in copy <==> p in secrets
      ensures p in secrets ==> Copied(wire, copy[p], secrets[p])
    {
      ExportThenImportOne(wire, secrets, paths, envs, merge, p);
    }
  }

  /** The secrets of an open vault that can be read. */
  ghost function Readable(s: Store): map<string, Secret>
    requires s.Valid() && !s.IsLocked()
  {
    map p | p in s.data.value && Spec.Get(s, p).Ok? :: Spec.Get(s, p).value
  }

  lemma ReadableIsNormal(s: Store)
    requires s.Valid() && !s.IsLocked()
    ensures Normal(Readable(s))
  {
    forall p | p in Readable(s) ensures Readable(s)[p].Norm() == Readable(s)[p] {
      var key := s.crypto.value.key.value;
      assert ReadEntry(key, s.data.value[p]) == Ok(Readable(s)[p]);
      Open(key, s.data.value[p]).value[0].secret.NormIsInvisible();
    }
  }

  /** The export loop exports the readable ones among the listed paths. */
  lemma {:induction false} ExportIsReadable(s: Store, paths: seq<string>)
    requires s.Valid() && !s.IsLocked()
    ensures var kept := Filter(paths, p => p in Readable(s));
            && (forall p :: p in kept ==> p in Readable(s))
            && ExportPaths(s, paths) == ExportedListing(Readable(s), kept)
  {
    if paths != [] {
      var last := |paths| - 1;
      ExportIsReadable(s, paths[..last]);
      var kept := Filter(paths, p => p in Readable(s));
      if paths[last] in Readable(s) {
        var before := Filter(paths[..last], p => p in Readable(s));
        assert kept == before + [paths[last]];
        assert kept[..|kept| - 1] == before;
        ListingGrows(Readable(s), kept);
      }
    }
  }

  /** A full export of an open vault lists every readable secret once. */
  lemma FullExport(s: Store) returns (kept: seq<string>)
    requires s.Valid() && !s.IsLocked()
    ensures Text.Lists(kept, Readable(s).Keys)
    ensures ExportPaths(s, Spec.List(s, "").value) == ExportedListing(Readable(s), kept)
  {
    var paths := Spec.List(s, "").value;
    assert (set p | p in s.data.value && ("" == "" || Text.HasPrefix(p, ""))) == s.data.value.Keys;
    kept := Filter(paths, p => p in Readable(s));
    FilterLists(paths, p => p in Readable(s), s.data.value.Keys);
    assert (set p | p in s.data.value.Keys && p in Readable(s)) == Readable(s).Keys;
    ExportIsReadable(s, paths);
  }

  /** What can be read at `path` before has its copy there after; what cannot be read before is not there after. */
  ghost predicate Carried(wire: string -> string, before: Store, after: Store, path: string)
    requires before.Valid() && after.Valid()
  {
    match (Spec.Get(before, path), Spec.Get(after, path))
    case (Ok(x), Ok(y)) => Copied(wire, y, x)
    case (Err(_), Err(e)) => e == SecretNotFound
    case _ => false
  }

  /** The vault a full export is imported into: a new one. */
  function NewVault(password: string, env: Env): Store {
    Spec.Initialize(FRESH, password, env).store
  }

  /** A full export of `s`, over the wire, into a new vault. */
  ghost function Transferred(wire: string -> string, s: Store, password: string, first: Env, envs: seq<Env>,
                             merge: bool): (t: Store)
    requires s.Valid() && !s.IsLocked()
    requires |envs| == |ExportPaths(s, Spec.List(s, "").value)|
    ensures t.Valid()
  {
    Import(NewVault(password, first), OnWire(wire, ExportPaths(s, Spec.List(s, "").value)), envs, merge).store
  }

  /**
     For every open vault, however it came about: an export of everything, imported into a new vault,
     gives exactly the readable paths. At each the value as it passes the wire, the fields and the tags
     come back; the content is unchanged exactly when the value passes and the expiry is not the zero
     time, and the whole secret exactly when its value moreover was not bytes.
   */
  lemma {:induction false} ExportThenImport(wire: string -> string, s: Store, password: string, first: Env,
                                            envs: seq<Env>, merge: bool)
    requires s.Valid() && !s.IsLocked()
    requires Faultless(first) && AllCanStore(envs)
    requires |envs| == |ExportPaths(s, Spec.List(s, "").value)|
    ensures forall p :: Carried(wire, s, Transferred(wire, s, password, first, envs, merge), p)
  {
    ReadableIsNormal(s);
    var kept := FullExport(s);
    var sent := OnWire(wire, ExportPaths(s, Spec.List(s, "").value));
    var t := NewVault(password, first);
    var empty := Vault(password, false, map[]);
    CallRefines(FRESH, NoVault, Call(Op.Initialize(password), first, []));
    ImportRefines(t, empty, sent, envs, merge);
    ExportThenImportPlain(wire, Readable(s), kept, envs, merge);
    var copy := PlainImport(map[], sent, envs, merge);
    forall p ensures Carried(wire, s, Transferred(wire, s, password, first, envs, merge), p) {
      CopiesAnswerAlike(wire, s, Transferred(wire, s, password, first, envs, merge), empty.(secrets := copy), p);
    }
  }

  lemma CopiesAnswerAlike(wire: string -> string, s: Store, t: Store, b: Plain, path: string)
    requires s.Valid() && !s.IsLocked() && Represents(t, b) && b.Vault? && !b.locked
    requires AllCopied(wire, b.secrets, Readable(s))
    ensures Carried(wire, s, t, path)
  {
    assert path in Readable(s) <==> Spec.Get(s, path).Ok?;
  }

  /** After a run in which file operations succeed every path can be read, so the copy has the same paths. */
  lemma {:induction false} NothingIsLost(start: Store, a: Plain, calls: seq<Call>, wire: string -> string,
                                         password: string, first: Env, envs: seq<Env>, merge: bool)
    requires Represents(start, a) && MayRun(start, calls) && FilesWorkThroughout(calls)
    requires Final(start, calls).Valid() && !Final(start, calls).IsLocked()
    requires Faultless(first) && AllCanStore(envs)
    requires |envs| == |ExportPaths(Final(start, calls), Spec.List(Final(start, calls), "").value)|
    ensures var s := Final(start, calls);
            var copy := Transferred(wire, s, password, first, envs, merge);
            forall p :: Spec.Exists(copy, p) == Spec.Exists(s, p)
  {
    var s := Final(start, calls);
    RunRefines(start, a, calls);
    ExportThenImport(wire, s, password, first, envs, merge);
    var copy := Transferred(wire, s, password, first, envs, merge);
    forall p ensures Spec.Exists(copy, p) == Spec.Exists(s, p) {
      assert Carried(wire, s, copy, p);
      SamePathsExist(s, PlainFinal(a, calls), copy, wire, p);
    }
  }

  lemma SamePathsExist(s: Store, a: Plain, copy: Store, wire: string -> string, path: string)
    requires Represents(s, a) && !s.IsLocked() && copy.Valid() && Carried(wire, s, copy, path)
    ensures Spec.Exists(copy, path) == Spec.Exists(s, path)
  {
  }

  // ---------- what any run of the daemon leaves to be exported ----------

  /** Whatever key opens the entry, the secret inside carries no bytes. */
  ghost predicate EntryIsTextual(e: Encoded) {
    forall key, x :: ReadEntry(key, e) == Ok(x) ==> x.valueBytes.None?
  }

  ghost predicate EntriesAreTextual(entries: map<string, Encoded>) {
    forall p :: p in entries ==> EntryIsTextual(entries[p])
  }

  ghost predicate FileIsTextual(file: DataFile) {
    LoadedSecrets(file).Ok? ==> EntriesAreTextual(LoadedSecrets(file).value)
  }

  ghost predicate StoreIsTextual(s: Store) {
    (s.data.Some? ==> EntriesAreTextual(s.data.value)) && FileIsTextual(s.disk.data)
  }

  /** A failed write of the data leaves anything, except entries that were neither on disk nor in memory. */
  ghost predicate LeavesNothingForeign(s: Store, c: Call)
    requires MayCall(s, c)
  {
    c.env.dataWrite.Failed? && LoadedSecrets(c.env.dataWrite.left).Ok? ==>
      forall e :: e in LoadedSecrets(c.env.dataWrite.left).value.Values ==>
        || (LoadedSecrets(s.disk.data).Ok? && e in LoadedSecrets(s.disk.data).value.Values)
        || (var after := Update(s, c).store; after.data.Some? && e in after.data.value.Values)
  }

  lemma SealedIsTextual(key: Bytes, nonce: Nonce, secret: Secret)
    requires secret.valueBytes.None?
    ensures EntryIsTextual(Seal(key, nonce, MarshalSecret(secret)))
  {
    forall other, x | ReadEntry(other, Seal(key, nonce, MarshalSecret(secret))) == Ok(x) ensures x.valueBytes.None? {
      OpenUndoesSeal(key, other, nonce, MarshalSecret(secret));
    }
  }

  lemma ReencryptStaysTextual(order: seq<string>, entries: map<string, Encoded>, key: Bytes, newKey: Bytes,
                              renonce: string -> Option<Nonce>)
    requires EntriesAreTextual(entries) && Ranges(order, entries) && AesKeySize(|newKey|)
    requires Reencrypt(order, entries, key, newKey, renonce).Ok?
    ensures EntriesAreTextual(Reencrypt(order, entries, key, newKey, renonce).value)
  {
    ReencryptKeepsPlaintexts(order, entries, key, newKey, renonce);
    var again := Reencrypt(order, entries, key, newKey, renonce).value;
    forall p, other, x | p in again && ReadEntry(other, again[p]) == Ok(x) ensures x.valueBytes.None? {
      assert p in order;
      OneKeyPerEntry(other, newKey, again[p]);
      assert ReadEntry(key, entries[p]) == Ok(x);
    }
  }

  lemma SetStaysTextual(s: Store, path: string, secret: Secret, env: Env)
    requires s.Valid() && secret.valueBytes.None? && StoreIsTextual(s)
    ensures var data := Spec.Set(s, path, secret, env).store.data; data.Some? ==> EntriesAreTextual(data.value)
  {
    if !s.IsLocked() && env.nonce.Some? {
      SealedIsTextual(s.crypto.value.key.value, env.nonce.value, secret.Stamp(env.now));
    }
  }

  lemma ChangePasswordStaysTextual(s: Store, c: Call)
    requires MayCall(s, c) && c.op.ChangePassword? && StoreIsTextual(s)
    ensures var data := Update(s, c).store.data; data.Some? && EntriesAreTextual(data.value)
  {
    if Update(s, c).trail != [] {
      ReencryptStaysTextual(c.order, s.data.value, s.crypto.value.key.value, NewKey(c), c.env.renonce);
    }
  }

  lemma UnlockLoadsFile(s: Store, password: string, env: Env)
    requires s.Valid()
    ensures var data := Spec.Unlock(s, password, env).store.data;
            data == s.data || (LoadedSecrets(s.disk.data).Ok? && data == Some(LoadedSecrets(s.disk.data).value))
  {
  }

  /** What a call does to the entries in memory. */
  lemma MemoryStaysTextual(s: Store, c: Call)
    requires MayCall(s, c) && FromDaemon(c) && StoreIsTextual(s)
    ensures var data := Update(s, c).store.data; data.Some? ==> EntriesAreTextual(data.value)
  {
    match c.op
    case Set(path, secret) => SetStaysTextual(s, path, secret, c.env);
    case ChangePassword(_, _) => ChangePasswordStaysTextual(s, c);
    case Unlock(password) => UnlockLoadsFile(s, password, c.env);
    case _ =>
  }

  /** The data file is as it was, or has the entries in memory, or is what a failed write left. */
  lemma DataFileComesFrom(s: Store, c: Call)
    requires MayCall(s, c)
    ensures var after := Update(s, c).store;
            || after.disk.data == s.disk.data
            || (after.data.Some? && after.disk.data == DataJson(after.data))
            || (c.op.Lock? && s.data.Some? && after.disk.data == DataJson(s.data))
            || (c.env.dataWrite.Failed? && after.disk.data == c.env.dataWrite.left)
  {
  }

  lemma FileStaysTextual(s: Store, c: Call)
    requires MayCall(s, c) && FromDaemon(c) && StoreIsTextual(s) && LeavesNothingForeign(s, c)
    ensures FileIsTextual(Update(s, c).store.disk.data)
  {
    MemoryStaysTextual(s, c);
    DataFileComesFrom(s, c);
    var after := Update(s, c).store;
    if c.env.dataWrite.Failed? && after.disk.data == c.env.dataWrite.left && LoadedSecrets(after.disk.data).Ok? {
      var entries := LoadedSecrets(after.disk.data).value;
      forall p | p in entries ensures EntryIsTextual(entries[p]) {
        assert entries[p] in entries.Values;
      }
    }
  }

  ghost predicate NothingForeign(s: Store, calls: seq<Call>)
    requires MayRun(s, calls)
    decreases |calls|
  {
    calls == [] || (LeavesNothingForeign(s, calls[0]) && NothingForeign(Update(s, calls[0]).store, calls[1..]))
  }

  /** Calls the daemon makes. */
  ghost predicate AllFromDaemon(calls: seq<Call>) {
    forall i :: 0 <= i < |calls| ==> FromDaemon(calls[i])
  }

  /** No entry the daemon has, in memory or on disk, ever carries bytes, whatever fails. */
  lemma {:induction false} DaemonRunStaysTextual(s: Store, calls: seq<Call>)
    requires MayRun(s, calls) && AllFromDaemon(calls) && NothingForeign(s, calls) && StoreIsTextual(s)
    ensures StoreIsTextual(Final(s, calls))
    decreases |calls|
  {
    if calls != [] {
      assert FromDaemon(calls[0]);
      MemoryStaysTextual(s, calls[0]);
      FileStaysTextual(s, calls[0]);
      DaemonRunStaysTextual(Update(s, calls[0]).store, calls[1..]);
    }
  }

  lemma ReadableIsTextual(s: Store)
    requires s.Valid() && !s.IsLocked() && StoreIsTextual(s)
    ensures forall p :: p in Readable(s) ==> Readable(s)[p].valueBytes.None?
  {
    forall p | p in Readable(s) ensures Readable(s)[p].valueBytes.None? {
      assert ReadEntry(s.crypto.value.key.value, s.data.value[p]) == Ok(Readable(s)[p]);
    }
  }

  /** Values that were strings all along, and so valid UTF-8, pass the wire. */
  ghost predicate PassesText(wire: string -> string, s: Store)
    requires s.Valid() && !s.IsLocked()
  {
    forall p :: p in Readable(s) && Readable(s)[p].valueBytes.None? ==>
      wire(Readable(s)[p].value) == Readable(s)[p].value
  }

  /** The secret at `path` comes back whole exactly when its expiry is not the zero time. */
  ghost predicate CarriedWhole(before: Store, after: Store, path: string)
    requires before.Valid() && after.Valid()
  {
    match (Spec.Get(before, path), Spec.Get(after, path))
    case (Ok(x), Ok(y)) => SameSecret(y, x) <==> x.metadata.expiresAt != Some(ZERO_TIME)
    case (Err(_), Err(e)) => e == SecretNotFound
    case _ => false
  }

  /**
     A vault that only the daemon has written to never holds bytes, whatever failed, so every secret in
     it comes back whole unless its expiry is the zero time.
   */
  lemma {:induction false} DaemonSecretsComeBackWhole(autoSave: bool, disk: Disk, calls: seq<Call>,
                                                      wire: string -> string, password: string, first: Env,
                                                      envs: seq<Env>, merge: bool)
    requires FileIsTextual(disk.data) && MayRun(NewStore(autoSave, disk), calls)
    requires AllFromDaemon(calls) && NothingForeign(NewStore(autoSave, disk), calls)
    requires var s := Final(NewStore(autoSave, disk), calls);
             && s.Valid() && !s.IsLocked() && PassesText(wire, s)
             && |envs| == |ExportPaths(s, Spec.List(s, "").value)|
    requires Faultless(first) && AllCanStore(envs)
    ensures var s := Final(NewStore(autoSave, disk), calls);
            forall p :: CarriedWhole(s, Transferred(wire, s, password, first, envs, merge), p)
  {
    var s := Final(NewStore(autoSave, disk), calls);
    DaemonRunStaysTextual(NewStore(autoSave, disk), calls);
    ReadableIsTextual(s);
    ExportThenImport(wire, s, password, first, envs, merge);
    var copy := Transferred(wire, s, password, first, envs, merge);
    forall p ensures CarriedWhole(s, copy, p) {
      assert Carried(wire, s, copy, p);
      assert Spec.Get(s, p).Ok? ==> p in Readable(s) && Readable(s)[p] == Spec.Get(s, p).value;
    }
  }

  /** Import writes a zero expiry exactly for an expiry within the first second of time. */
  lemma ZeroExpiryIsReachable(e: ExportedSecret, env: Env)
    ensures Kept(e, env).metadata.expiresAt == Some(ZERO_TIME) <==> 0 < e.expiresAt < NANOS_PER_SECOND
  {
  }

  /** So an expiry of half a second after the zero time is lost by export and import. */
  lemma HalfSecondExpiryIsLost(first: Env, second: Env)
    ensures var stored := Kept(ExportedSecret("a", "v", None, None, 500_000_000), first);
            var copied := Kept(Exported("a", stored), second);
            stored.metadata.expiresAt == Some(ZERO_TIME) && copied.metadata.expiresAt == None
  {
  }
}
