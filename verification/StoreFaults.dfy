/**
 What the two files hold between writes and after failed writes. Unlike the refinement, runs here
 may meet failing reads, failing randomness and failing writes.
 */
module StoreFaults {
  import opened Secrets
  import opened Primitives
  import opened CryptoObject
  import Spec = StoreSpec
  import opened StoreSpec
  import opened StoreRefinement

  // ---------- coherence of the two files ----------

  ghost predicate AllOpen(key: Bytes, entries: map<string, Encoded>) {
    forall p :: p in entries ==> Open(key, entries[p]).Ok?
  }

  /** The data file loads, and every entry in it opens under `key`. */
  ghost predicate FileOpens(key: Bytes, file: DataFile) {
    LoadedSecrets(file).Ok? && AllOpen(key, LoadedSecrets(file).value)
  }

  /** The metadata file is `key`'s: a password derives `key` from it, and `key` opens its verification blob. */
  ghost predicate Anchors(file: MetaFile, key: Bytes) {
    && file.MetaJson?
    && var meta := file.meta;
    && meta.salt.Some? && |meta.salt.value| >= MIN_SALT_SIZE
    && Open(key, meta.verification) == Ok(VERIFICATION_MAGIC)
    && exists password: string :: IdKey(password, meta.salt.value, meta.params) == key
  }

  /** Once `vault.meta` exists, one password's key opens everything in both files. */
  ghost predicate Coherent(disk: Disk) {
    disk.meta.NoMeta? || exists key :: Anchors(disk.meta, key) && FileOpens(key, disk.data)
  }

  /** The key in use opens every entry in memory. Nothing is said about the files. */
  ghost predicate MemoryOpens(s: Store) {
    s.Valid() && (s.crypto.Some? ==> AllOpen(s.crypto.value.key.value, s.data.value))
  }

  /** And `vault.meta`, once it exists, is that key's own. */
  ghost predicate InStep(s: Store) {
    MemoryOpens(s) && (s.crypto.Some? ==> s.disk.meta.NoMeta? || Anchors(s.disk.meta, s.crypto.value.key.value))
  }

  /** Memory and files are under one key. An open store without `vault.meta` may have entries left over on disk. */
  ghost predicate Sound(s: Store) {
    Coherent(s.disk) && InStep(s)
  }

  lemma OneKeyPerEntry(key: Bytes, other: Bytes, entry: Encoded)
    requires Open(key, entry).Ok? && Open(other, entry).Ok?
    ensures key == other
  {
  }

  /** The key that is in step with `vault.meta` decides whether the two files are coherent. */
  lemma KeyDecides(disk: Disk, key: Bytes)
    requires disk.meta.NoMeta? || Anchors(disk.meta, key)
    ensures Coherent(disk) <==> disk.meta.NoMeta? || FileOpens(key, disk.data)
  {
    if !disk.meta.NoMeta? && Coherent(disk) {
      var other :| Anchors(disk.meta, other) && FileOpens(other, disk.data);
      OneKeyPerEntry(key, other, disk.meta.meta.verification);
    }
  }

  // ---------- what each write leaves ----------

  /** The key a new password gets. */
  function NewKey(c: Call): Bytes
    requires (c.op.Initialize? || c.op.ChangePassword?) && c.env.salt.Some?
  {
    IdKey(if c.op.Initialize? then c.op.password else c.op.newPassword, c.env.salt.value, DEFAULT_PARAMS)
  }

  /** A failed write of the data leaves a file whose entries open under `key`. */
  ghost predicate DataFits(w: Write<DataFile>, key: Bytes) {
    w.Failed? ==> FileOpens(key, w.left)
  }

  /** Some key whose own the metadata is. */
  ghost predicate IsAnchored(file: MetaFile) {
    exists key :: Anchors(file, key)
  }

  /** The entries that `Set`, `Delete` or `Lock` is about to save are none. */
  predicate SavesNothing(s: Store, c: Call) {
    s.data.Some? && match c.op
      case Delete(path) => s.data.value - {path} == map[]
      case Lock => s.data.value == map[]
      case _ => false
  }

  /**
     When the files are coherent after write `i` of a call, told from what the call starts with and
     what its failed writes leave. `Initialize` and `ChangePassword` first write the metadata: the
     entries then on disk must already open under the new key. `Set`, `Delete` and `Lock` save entries
     of the key in use: the metadata must be that key's, or nothing is saved.
   */
  ghost predicate Fits(s: Store, c: Call, i: nat)
    requires MayCall(s, c)
  {
    if c.op.Initialize? || c.op.ChangePassword? then
      c.env.salt.Some? &&
      if i > 0 then DataFits(c.env.dataWrite, NewKey(c))
      else match c.env.metaWrite
        case Written => FileOpens(NewKey(c), s.disk.data)
        case Failed(left) => left.NoMeta? || exists key :: Anchors(left, key) && FileOpens(key, s.disk.data)
    else
      s.crypto.Some? && (s.disk.meta.NoMeta? ||
      match c.env.dataWrite
      case Written =>
        Anchors(s.disk.meta, s.crypto.value.key.value) || (SavesNothing(s, c) && IsAnchored(s.disk.meta))
      case Failed(left) => exists key :: Anchors(s.disk.meta, key) && FileOpens(key, left))
  }

  ghost predicate ExactAtEveryWrite(s: Store, c: Call)
    requires MayCall(s, c)
  {
    var trail := Update(s, c).trail;
    forall i :: 0 <= i < |trail| ==> (Coherent(trail[i]) <==> Fits(s, c, i))
  }

  /** The failed writes of a call leave memory and files under one key, if they were before. */
  ghost predicate Survives(s: Store, c: Call)
    requires MayCall(s, c)
  {
    Update(s, c).trail == [] ||
    if c.op.Initialize? || c.op.ChangePassword? then
      c.env.salt.Some? &&
      match c.env.metaWrite
      case Written => DataFits(c.env.dataWrite, NewKey(c))
      case Failed(left) => left.NoMeta? || (Anchors(left, NewKey(c)) && FileOpens(NewKey(c), s.disk.data))
    else
      s.crypto.Some? && (s.disk.meta.NoMeta? || DataFits(c.env.dataWrite, s.crypto.value.key.value))
  }

  /** A new verification blob anchors the key it was made with. */
  lemma BlobAnchors(password: string, salt: Salt, nonce: Nonce, meta: VaultMeta)
    requires meta.salt == Some(salt) && meta.params == DEFAULT_PARAMS
    requires meta.verification == Seal(IdKey(password, salt, DEFAULT_PARAMS), nonce, VERIFICATION_MAGIC)
    ensures Anchors(MetaJson(meta), IdKey(password, salt, DEFAULT_PARAMS))
  {
    var key := IdKey(password, salt, DEFAULT_PARAMS);
    OpenUndoesSeal(key, key, nonce, VERIFICATION_MAGIC);
  }

  /** Saving metadata and data of a store that is all under one new key. */
  lemma SaveBothIsExact(s: Store, env: Env, key: Bytes)
    requires s.Valid() && s.crypto.Some? && s.crypto.value.key == Some(key)
    requires Anchors(MetaJson(s.meta.value), key) && AllOpen(key, s.data.value)
    ensures var step := SaveBoth(s, env);
            && MemoryOpens(step.store)
            && |step.trail| == (if env.metaWrite.Written? then 2 else 1)
            && match env.metaWrite
               case Failed(left) =>
                 && step.trail[0] == Disk(left, s.disk.data)
                 && (Sound(step.store) <==> left.NoMeta? || (Anchors(left, key) && FileOpens(key, s.disk.data)))
               case Written =>
                 && (Coherent(step.trail[0]) <==> FileOpens(key, s.disk.data))
                 && (Coherent(step.trail[1]) <==> DataFits(env.dataWrite, key))
                 && (Sound(step.store) <==> DataFits(env.dataWrite, key))
  {
    var step := SaveBoth(s, env);
    if env.metaWrite.Written? {
      KeyDecides(step.trail[0], key);
      KeyDecides(step.trail[1], key);
    } else if Anchors(env.metaWrite.left, key) {
      KeyDecides(step.trail[0], key);
    }
  }

  lemma InitializeIsExact(s: Store, c: Call)
    requires MemoryOpens(s) && c.op.Initialize?
    ensures ExactAtEveryWrite(s, c) && MemoryOpens(Update(s, c).store)
    ensures Update(s, c).trail != [] ==> (Sound(Update(s, c).store) <==> Survives(s, c))
  {
    if s.disk.meta.NoMeta? && c.env.salt.Some? && c.env.nonce.Some? {
      var blob := Seal(NewKey(c), c.env.nonce.value, VERIFICATION_MAGIC);
      var meta := VaultMeta(1, c.env.now, c.env.salt, DEFAULT_PARAMS, blob);
      BlobAnchors(c.op.password, c.env.salt.value, c.env.nonce.value, meta);
      var ready := s.(
        meta := Some(meta),
        data := Some(map[]),
        crypto := Some(CryptoState(c.env.salt.value, DEFAULT_PARAMS, Some(NewKey(c)))),
        unlockTime := c.env.now);
      SaveBothIsExact(ready, c.env, NewKey(c));
    }
  }

  lemma ChangePasswordIsExact(s: Store, c: Call)
    requires MemoryOpens(s) && c.op.ChangePassword? && MayCall(s, c)
    ensures ExactAtEveryWrite(s, c) && MemoryOpens(Update(s, c).store)
    ensures Update(s, c).trail != [] ==> (Sound(Update(s, c).store) <==> Survives(s, c))
  {
    if Update(s, c).trail != [] {
      var key, salt, nonce := s.crypto.value.key.value, c.env.salt.value, c.env.nonce.value;
      var meta := s.meta.value.(salt := Some(salt), params := DEFAULT_PARAMS,
                                verification := Seal(NewKey(c), nonce, VERIFICATION_MAGIC));
      BlobAnchors(c.op.newPassword, salt, nonce, meta);
      ReencryptKeepsPlaintexts(c.order, s.data.value, key, NewKey(c), c.env.renonce);
      var again := Reencrypt(c.order, s.data.value, key, NewKey(c), c.env.renonce).value;
      var switched := s.(
        meta := Some(meta), data := Some(again), crypto := Some(CryptoState(salt, DEFAULT_PARAMS, Some(NewKey(c)))));
      SaveBothIsExact(switched, c.env, NewKey(c));
    }
  }

  /** Entries of one key next to whatever metadata there is. */
  lemma EntriesDecide(meta: MetaFile, entries: map<string, Encoded>, key: Bytes)
    requires AllOpen(key, entries)
    ensures Coherent(Disk(meta, DataJson(Some(entries)))) <==>
            meta.NoMeta? || Anchors(meta, key) || (entries == map[] && IsAnchored(meta))
  {
    var disk := Disk(meta, DataJson(Some(entries)));
    if !meta.NoMeta? && Coherent(disk) {
      var other :| Anchors(meta, other) && FileOpens(other, disk.data);
      if entries != map[] {
        var p :| p in entries;
        OneKeyPerEntry(key, other, entries[p]);
      }
    }
    if Anchors(meta, key) {
      assert FileOpens(key, disk.data);
    }
    if entries == map[] && IsAnchored(meta) {
      var other :| Anchors(meta, other);
      assert FileOpens(other, disk.data);
    }
  }

  /** Saving the entries in memory. */
  lemma SaveDataIsExact(s: Store, w: Write<DataFile>)
    requires MemoryOpens(s) && s.crypto.Some?
    ensures var step := SaveData(s, w);
            var key := s.crypto.value.key.value;
            && |step.trail| == 1 && step.trail[0] == step.store.disk && MemoryOpens(step.store)
            && (Coherent(step.store.disk) <==>
                  s.disk.meta.NoMeta? ||
                  match w
                  case Written => Anchors(s.disk.meta, key) || (s.data.value == map[] && IsAnchored(s.disk.meta))
                  case Failed(left) => exists other :: Anchors(s.disk.meta, other) && FileOpens(other, left))
            && (InStep(s) ==> (Sound(step.store) <==> s.disk.meta.NoMeta? || DataFits(w, key)))
  {
    var step, key := SaveData(s, w), s.crypto.value.key.value;
    if w.Written? {
      EntriesDecide(s.disk.meta, s.data.value, key);
    }
    if InStep(s) {
      KeyDecides(step.store.disk, key);
    }
  }

  lemma CommitIsExact(s: Store, entries: map<string, Encoded>, env: Env)
    requires MemoryOpens(s) && s.crypto.Some? && AllOpen(s.crypto.value.key.value, entries)
    ensures var step := Commit(s, entries, env);
            var key := s.crypto.value.key.value;
            && MemoryOpens(step.store) && (|step.trail| <= 1) && (step.trail != [] ==> step.trail[0] == step.store.disk)
            && (step.trail != [] ==>
                  (Coherent(step.store.disk) <==>
                     s.disk.meta.NoMeta? ||
                     match env.dataWrite
                     case Written => Anchors(s.disk.meta, key) || (entries == map[] && IsAnchored(s.disk.meta))
                     case Failed(left) => exists other :: Anchors(s.disk.meta, other) && FileOpens(other, left)))
            && (Sound(s) ==>
                  (Sound(step.store) <==>
                     step.trail == [] || s.disk.meta.NoMeta? || DataFits(env.dataWrite, key)))
  {
    var changed := s.(data := Some(entries), dirty := true);
    SaveDataIsExact(changed, env.dataWrite);
  }

  lemma DeleteIsExact(s: Store, c: Call)
    requires MemoryOpens(s) && c.op.Delete?
    ensures ExactAtEveryWrite(s, c) && MemoryOpens(Update(s, c).store)
    ensures Sound(s) ==> (Sound(Update(s, c).store) <==> Survives(s, c))
  {
    if s.crypto.Some? {
      CommitIsExact(s, s.data.value - {c.op.path}, c.env);
    }
  }

  lemma SetIsExact(s: Store, c: Call)
    requires MemoryOpens(s) && c.op.Set?
    ensures ExactAtEveryWrite(s, c) && MemoryOpens(Update(s, c).store)
    ensures Sound(s) ==> (Sound(Update(s, c).store) <==> Survives(s, c))
  {
    if s.crypto.Some? {
      var key := s.crypto.value.key.value;
      if c.op.secret.Stamp(c.env.now).Marshals() && AesKeySize(|key|) && c.env.nonce.Some? {
        var plaintext := MarshalSecret(c.op.secret.Stamp(c.env.now));
        OpenUndoesSeal(key, key, c.env.nonce.value, plaintext);
        var entries := s.data.value[c.op.path := Seal(key, c.env.nonce.value, plaintext)];
        assert c.op.path in entries;
        CommitIsExact(s, entries, c.env);
      }
    }
  }

  lemma LockIsExact(s: Store, c: Call)
    requires MemoryOpens(s) && c.op.Lock?
    ensures ExactAtEveryWrite(s, c) && MemoryOpens(Update(s, c).store)
    ensures Sound(s) ==> (Sound(Update(s, c).store) <==> Survives(s, c))
  {
    if s.crypto.Some? && s.dirty {
      SaveDataIsExact(s, c.env.dataWrite);
    }
  }

  /**
     Every write of every call, whatever fails and whatever the files hold: the files are coherent after
     it exactly when it fits. All that is asked is that the key in use opens what is in memory.
   */
  lemma CallIsExact(s: Store, c: Call)
    requires MemoryOpens(s) && MayCall(s, c)
    ensures ExactAtEveryWrite(s, c)
  {
    match c.op
    case Initialize(_) => InitializeIsExact(s, c);
    case Lock => LockIsExact(s, c);
    case Set(_, _) => SetIsExact(s, c);
    case Delete(_) => DeleteIsExact(s, c);
    case ChangePassword(_, _) => ChangePasswordIsExact(s, c);
    case _ =>
  }

  /** `Unlock` succeeds on files that are not coherent: the metadata's key does not open the entries it loads. */
  ghost predicate UnlocksMixedFiles(s: Store, c: Call)
    requires MayCall(s, c)
  {
    && c.op.Unlock? && Update(s, c).result.Ok? && s.disk.meta.MetaJson?
    && ChooseSalt(s.disk.meta.meta.salt, c.env.salt).Ok?
    && var key := IdKey(c.op.password, ChooseSalt(s.disk.meta.meta.salt, c.env.salt).value, s.disk.meta.meta.params);
       !FileOpens(key, s.disk.data)
  }

  /** For metadata with a salt, which all that the store writes has, that is what incoherent means. */
  lemma MixedFilesAreIncoherent(s: Store, c: Call)
    requires MayCall(s, c) && c.op.Unlock? && Update(s, c).result.Ok?
    requires s.disk.meta.MetaJson? ==> s.disk.meta.meta.salt.Some?
    ensures UnlocksMixedFiles(s, c) <==> !Coherent(s.disk)
  {
    KeyDecides(s.disk, IdKey(c.op.password, s.disk.meta.meta.salt.value, s.disk.meta.meta.params));
  }

  /** The key in use opens what is in memory until an `Unlock` succeeds on mixed files. */
  lemma MemoryOpensExactly(s: Store, c: Call)
    requires MemoryOpens(s) && MayCall(s, c)
    ensures MemoryOpens(Update(s, c).store) <==> !UnlocksMixedFiles(s, c)
  {
    match c.op
    case Initialize(_) => InitializeIsExact(s, c);
    case Lock => LockIsExact(s, c);
    case Set(_, _) => SetIsExact(s, c);
    case Delete(_) => DeleteIsExact(s, c);
    case ChangePassword(_, _) => ChangePasswordIsExact(s, c);
    case _ =>
  }

  lemma UnlockStaysSound(s: Store, c: Call)
    requires Sound(s) && c.op.Unlock?
    ensures Sound(Update(s, c).store)
  {
    if !s.disk.meta.NoMeta? {
      var key :| Anchors(s.disk.meta, key) && FileOpens(key, s.disk.data);
      var meta := s.disk.meta.meta;
      var given := IdKey(c.op.password, meta.salt.value, meta.params);
      if Open(given, meta.verification).Ok? {
        OneKeyPerEntry(key, given, meta.verification);
      }
    }
  }

  /** Memory and files stay under one key exactly when the call survives its failed writes. */
  lemma CallStaysSound(s: Store, c: Call)
    requires Sound(s) && MayCall(s, c)
    ensures Sound(Update(s, c).store) <==> Survives(s, c)
  {
    match c.op
    case Initialize(_) => InitializeIsExact(s, c);
    case Unlock(_) => UnlockStaysSound(s, c);
    case Lock => LockIsExact(s, c);
    case Set(_, _) => SetIsExact(s, c);
    case Delete(_) => DeleteIsExact(s, c);
    case ChangePassword(_, _) => ChangePasswordIsExact(s, c);
    case _ =>
  }

  /** What holds of every call of a run, in the state the run has reached. */
  ghost predicate ExactThroughout(s: Store, calls: seq<Call>)
    requires MayRun(s, calls)
    decreases |calls|
  {
    calls == [] ||
    (var c, next := calls[0], Update(s, calls[0]).store;
     && (MemoryOpens(s) ==> ExactAtEveryWrite(s, c) && (MemoryOpens(next) <==> !UnlocksMixedFiles(s, c)))
     && (Sound(s) ==> (Sound(next) <==> Survives(s, c)))
     && ExactThroughout(next, calls[1..]))
  }

  /** No call of the run unlocks mixed files. */
  ghost predicate NeverUnlocksMixedFiles(s: Store, calls: seq<Call>)
    requires MayRun(s, calls)
    decreases |calls|
  {
    calls == [] ||
    (!UnlocksMixedFiles(s, calls[0]) && NeverUnlocksMixedFiles(Update(s, calls[0]).store, calls[1..]))
  }

  ghost predicate AllSurvive(s: Store, calls: seq<Call>)
    requires MayRun(s, calls)
    decreases |calls|
  {
    calls == [] || (Survives(s, calls[0]) && AllSurvive(Update(s, calls[0]).store, calls[1..]))
  }

  /** Every write of every call of the run leaves coherent files exactly when it fits. */
  ghost predicate EveryWriteIsExact(s: Store, calls: seq<Call>)
    requires MayRun(s, calls)
    decreases |calls|
  {
    calls == [] || (ExactAtEveryWrite(s, calls[0]) && EveryWriteIsExact(Update(s, calls[0]).store, calls[1..]))
  }

  lemma {:induction false} RunsAreExact(s: Store, calls: seq<Call>)
    requires MayRun(s, calls)
    ensures ExactThroughout(s, calls)
    decreases |calls|
  {
    if calls != [] {
      if MemoryOpens(s) {
        CallIsExact(s, calls[0]);
        MemoryOpensExactly(s, calls[0]);
      }
      if Sound(s) {
        CallStaysSound(s, calls[0]);
      }
      RunsAreExact(Update(s, calls[0]).store, calls[1..]);
    }
  }

  lemma {:induction false} RunsStayExact(s: Store, calls: seq<Call>)
    requires MayRun(s, calls) && MemoryOpens(s) && NeverUnlocksMixedFiles(s, calls)
    ensures EveryWriteIsExact(s, calls) && MemoryOpens(Final(s, calls))
    decreases |calls|
  {
    if calls != [] {
      CallIsExact(s, calls[0]);
      MemoryOpensExactly(s, calls[0]);
      RunsStayExact(Update(s, calls[0]).store, calls[1..]);
    }
  }

  /** A run that starts sound and survives its failed writes never meets mixed files and ends sound. */
  lemma {:induction false} SurvivingRunsStaySound(s: Store, calls: seq<Call>)
    requires MayRun(s, calls) && Sound(s) && AllSurvive(s, calls)
    ensures NeverUnlocksMixedFiles(s, calls) && Sound(Final(s, calls))
    decreases |calls|
  {
    if calls != [] {
      CallStaysSound(s, calls[0]);
      MemoryOpensExactly(s, calls[0]);
      SurvivingRunsStaySound(Update(s, calls[0]).store, calls[1..]);
    }
  }

  /**
     Disk coherence, for every run of a new store on any files, whatever fails in it. As long as no
     `Unlock` succeeds on mixed files, each single write leaves coherent files exactly when it fits. On
     coherent files, a run that survives its failed writes keeps memory and files under one key.
   */
  lemma {:induction false} DiskIsCoherent(autoSave: bool, disk: Disk, calls: seq<Call>)
    requires MayRun(NewStore(autoSave, disk), calls)
    ensures var s := NewStore(autoSave, disk);
            && ExactThroughout(s, calls)
            && (NeverUnlocksMixedFiles(s, calls) ==> EveryWriteIsExact(s, calls))
            && (Coherent(disk) && AllSurvive(s, calls) ==> NeverUnlocksMixedFiles(s, calls) && Sound(Final(s, calls)))
  {
    var s := NewStore(autoSave, disk);
    RunsAreExact(s, calls);
    if NeverUnlocksMixedFiles(s, calls) {
      RunsStayExact(s, calls);
    }
    if Coherent(disk) && AllSurvive(s, calls) {
      SurvivingRunsStaySound(s, calls);
    }
  }

  /** Coherent files are files some password unlocks, with every entry readable. */
  lemma CoherentFilesUnlock(autoSave: bool, disk: Disk, env: Env)
    requires !disk.meta.NoMeta? && env.metaReadable && env.dataReadable
    requires disk.meta.MetaJson? ==> disk.meta.meta.salt.Some?
    ensures Coherent(disk) <==>
            exists password :: var step := Spec.Unlock(NewStore(autoSave, disk), password, env);
                               step.result.Ok? && step.store.Valid() && InStep(step.store)
  {
    var s := NewStore(autoSave, disk);
    if Coherent(disk) {
      var key :| Anchors(disk.meta, key) && FileOpens(key, disk.data);
      var password :| IdKey(password, disk.meta.meta.salt.value, disk.meta.meta.params) == key;
      var step := Spec.Unlock(s, password, env);
      assert step.result.Ok? && step.store.Valid() && InStep(step.store);
    }
    if password :| (var step := Spec.Unlock(s, password, env);
                    step.result.Ok? && step.store.Valid() && InStep(step.store)) {
      KeyDecides(disk, Spec.Unlock(s, password, env).store.crypto.value.key.value);
    }
  }

  // ---------- the gap after the metadata write ----------

  /** Metadata next to entries that open under `key`: which metadata is coherent with them. */
  lemma MetadataDecides(meta: MetaFile, data: DataFile, key: Bytes)
    requires FileOpens(key, data)
    ensures Coherent(Disk(meta, data)) <==>
            meta.NoMeta? || Anchors(meta, key) || (LoadedSecrets(data) == Ok(map[]) && IsAnchored(meta))
  {
    EntriesDecide(meta, LoadedSecrets(data).value, key);
    if exists other :: Anchors(meta, other) && FileOpens(other, data) {
      var other :| Anchors(meta, other) && FileOpens(other, data);
      assert FileOpens(other, DataJson(Some(LoadedSecrets(data).value)));
    }
    if exists other :: Anchors(meta, other) && FileOpens(other, DataJson(Some(LoadedSecrets(data).value))) {
      var other :| Anchors(meta, other) && FileOpens(other, DataJson(Some(LoadedSecrets(data).value)));
      assert FileOpens(other, data);
    }
  }

  /**
     The files after `ChangePassword` has tried to write its metadata, the old entries still on disk. New
     metadata is coherent exactly when there are no entries or the key stays the same; what a failed
     write leaves, exactly when it is no file at all, or still the old key's, or there are no entries.
   */
  lemma GapIsExact(s: Store, c: Call)
    requires Sound(s) && c.op.ChangePassword? && MayCall(s, c) && !s.disk.meta.NoMeta?
    requires Update(s, c).trail != []
    ensures c.env.salt.Some?
    ensures var empty := LoadedSecrets(s.disk.data) == Ok(map[]);
            var key := s.crypto.value.key.value;
            Coherent(Update(s, c).trail[0]) <==>
              match c.env.metaWrite
              case Written => empty || key == NewKey(c)
              case Failed(left) => left.NoMeta? || Anchors(left, key) || (empty && IsAnchored(left))
  {
    CallIsExact(s, c);
    var key := s.crypto.value.key.value;
    KeyDecides(s.disk, key);
    match c.env.metaWrite
    case Failed(left) => MetadataDecides(left, s.disk.data, key);
    case Written =>
      if FileOpens(NewKey(c), s.disk.data) && LoadedSecrets(s.disk.data) != Ok(map[]) {
        var entries := LoadedSecrets(s.disk.data).value;
        var p :| p in entries;
        OneKeyPerEntry(key, NewKey(c), entries[p]);
      }
  }

  /**
     The same for `Initialize`, over entries left from before. If they open under some key: new metadata
     is coherent exactly when there are none or it is the same key again, and what a failed write leaves,
     exactly when it is no file, or that key's own, or there are none. If no key opens them all, only no
     metadata at all is coherent.
   */
  lemma InitializeGapIsExact(s: Store, c: Call, key: Bytes)
    requires MemoryOpens(s) && c.op.Initialize? && Update(s, c).trail != []
    ensures c.env.salt.Some?
    ensures FileOpens(key, s.disk.data) ==>
              var empty := LoadedSecrets(s.disk.data) == Ok(map[]);
              Coherent(Update(s, c).trail[0]) <==>
                match c.env.metaWrite
                case Written => empty || key == NewKey(c)
                case Failed(left) => left.NoMeta? || Anchors(left, key) || (empty && IsAnchored(left))
    ensures (forall other :: !FileOpens(other, s.disk.data)) ==>
              (Coherent(Update(s, c).trail[0]) <==> c.env.metaWrite == Failed(NoMeta))
  {
    CallIsExact(s, c);
    if FileOpens(key, s.disk.data) {
      match c.env.metaWrite
      case Failed(left) => MetadataDecides(left, s.disk.data, key);
      case Written =>
        if FileOpens(NewKey(c), s.disk.data) && LoadedSecrets(s.disk.data) != Ok(map[]) {
          var entries := LoadedSecrets(s.disk.data).value;
          var p :| p in entries;
          OneKeyPerEntry(key, NewKey(c), entries[p]);
        }
    }
  }

  // ---------- runs from no files ----------

  predicate WritesSucceed(c: Call) {
    c.env.metaWrite.Written? && c.env.dataWrite.Written?
  }

  /** One key for all, and before `Initialize` nothing at all. */
  ghost predicate FromNothing(s: Store) {
    Sound(s) && (s.disk.meta.NoMeta? ==> s.disk.data.NoData? && s.crypto.None?)
  }

  /** The listed property of one call: coherent files after each write but the first of `ChangePassword`. */
  ghost predicate CoherentButForGap(s: Store, c: Call)
    requires MayCall(s, c)
  {
    var trail := Update(s, c).trail;
    forall i :: 0 <= i < |trail| ==>
      if c.op.ChangePassword? && i == 0 then
        c.env.salt.Some? &&
        (Coherent(trail[0]) <==>
           LoadedSecrets(s.disk.data) == Ok(map[]) || s.crypto.value.key == Some(NewKey(c)))
      else Coherent(trail[i])
  }

  lemma SuccessfulCallIsCoherent(s: Store, c: Call)
    requires FromNothing(s) && MayCall(s, c) && WritesSucceed(c)
    ensures CoherentButForGap(s, c) && FromNothing(Update(s, c).store)
  {
    CallIsExact(s, c);
    CallStaysSound(s, c);
    if c.op.ChangePassword? && Update(s, c).trail != [] {
      GapIsExact(s, c);
    }
  }

  ghost predicate CoherentThroughout(s: Store, calls: seq<Call>)
    requires MayRun(s, calls)
    decreases |calls|
  {
    calls == [] ||
    (CoherentButForGap(s, calls[0]) && CoherentThroughout(Update(s, calls[0]).store, calls[1..]))
  }

  lemma {:induction false} SuccessfulRunsAreCoherent(s: Store, calls: seq<Call>)
    requires FromNothing(s) && MayRun(s, calls) && forall i :: 0 <= i < |calls| ==> WritesSucceed(calls[i])
    ensures CoherentThroughout(s, calls)
    decreases |calls|
  {
    if calls != [] {
      SuccessfulCallIsCoherent(s, calls[0]);
      SuccessfulRunsAreCoherent(Update(s, calls[0]).store, calls[1..]);
    }
  }

  /**
     From no files on, in every run whose writes succeed, whatever reads and random draws fail: after
     every single write one password opens both files, but for the gap in `ChangePassword`, where it does
     exactly when there are no entries on disk or the key does not change.
   */
  lemma {:induction false} RunsFromNoFilesAreCoherent(autoSave: bool, calls: seq<Call>)
    requires MayRun(NewStore(autoSave, Disk(NoMeta, NoData)), calls)
    requires forall i :: 0 <= i < |calls| ==> WritesSucceed(calls[i])
    ensures CoherentThroughout(NewStore(autoSave, Disk(NoMeta, NoData)), calls)
  {
    SuccessfulRunsAreCoherent(NewStore(autoSave, Disk(NoMeta, NoData)), calls);
  }

  // ---------- where files end up under two keys ----------

  /**
     `/init` fails before its metadata is on disk, but leaves the store open; a secret is saved; `init`
     is tried again with another password. Every step reports what it should, yet the retry writes its
     metadata over entries of the first key, and the saved secret is gone.
   */
  lemma RetriedInitializeLosesSecret(first: Env, second: Env, third: Env, p: string, q: string,
                                     path: string, secret: Secret)
    requires first.salt.Some? && first.nonce.Some? && first.metaWrite == Failed(NoMeta)
    requires Faultless(second) && Faultless(third) && secret.Marshals()
    requires p != q || first.salt != third.salt
    ensures var one := Spec.Initialize(FRESH, p, first);
            && one.result == Err(WriteFailed) && one.store.Valid()
            && var two := Spec.Set(one.store, path, secret, second);
            && two.result == Ok(Unit) && two.store.Valid() && Spec.Get(two.store, path).Ok? && Sound(two.store)
            && var three := Spec.Initialize(two.store, q, third);
            && three.result == Ok(Unit) && three.store.Valid()
            && |three.trail| == 2 && !Coherent(three.trail[0])
            && Spec.Get(three.store, path) == Err(SecretNotFound)
  {
    var one := Spec.Initialize(FRESH, p, first).store;
    var key := IdKey(p, first.salt.value, DEFAULT_PARAMS);
    var plaintext := MarshalSecret(secret.Stamp(second.now));
    OpenUndoesSeal(key, key, second.nonce.value, plaintext);
    var two := Spec.Set(one, path, secret, second).store;
    var c := Call(Op.Initialize(q), third, []);
    assert AllOpen(key, two.data.value);
    CallIsExact(two, c);
    DerivedKeysDiffer(p, q, first.salt.value, third.salt.value, DEFAULT_PARAMS, DEFAULT_PARAMS);
    if FileOpens(NewKey(c), two.disk.data) {
      OneKeyPerEntry(key, NewKey(c), two.data.value[path]);
    }
  }

  /** A password change that cannot write its metadata: memory has moved to the new key, the files have not. */
  lemma FailedMetadataKeepsOldFiles(s: Store, a: Plain, c: Call)
    requires Represents(s, a) && a.Vault? && !a.locked
    requires c.op.ChangePassword? && MayCall(s, c) && c.op.oldPassword == a.password
    requires c.env.salt.Some? && c.env.nonce.Some? && forall p :: c.env.renonce(p).Some?
    requires c.env.metaWrite == Failed(s.disk.meta)
    ensures var step := Update(s, c);
            && step.result == Err(WriteFailed) && step.store.Valid() && step.store.autoSave
            && step.store.disk == s.disk && !step.store.dirty
            && step.store.crypto == Some(CryptoState(c.env.salt.value, DEFAULT_PARAMS, Some(NewKey(c))))
            && step.store.data.value.Keys == a.secrets.Keys
            && AllOpen(NewKey(c), step.store.data.value)
  {
    PasswordVerifies(c.op.oldPassword, a.password, s.meta.value.salt.value, s.meta.value.verification);
    ReencryptKeepsPlaintexts(c.order, s.data.value, s.crypto.value.key.value, NewKey(c), c.env.renonce);
    assert Update(s, c).store.data.value.Keys == a.secrets.Keys;
  }

  /** A `Set` after that succeeds, and puts entries of the new key next to metadata of the old one. */
  lemma ThenSetMixesKeys(s: Store, key: Bytes, other: Bytes, path: string, secret: Secret, env: Env)
    requires InStepButForFiles(s, key) && Anchors(s.disk.meta, other) && key != other
    requires Faultless(env) && secret.Marshals()
    ensures var step := Spec.Set(s, path, secret, env);
            && step.result == Ok(Unit) && !Coherent(step.store.disk)
            && step.store == s.(data := step.store.data, disk := s.disk.(data := DataJson(step.store.data)))
            && step.store.data.value.Keys == s.data.value.Keys + {path}
            && forall p :: p in step.store.data.value ==> ReadEntry(other, step.store.data.value[p]).Err?
  {
    OpenUndoesSeal(key, key, env.nonce.value, MarshalSecret(secret.Stamp(env.now)));
    var stored := Spec.Set(s, path, secret, env).store;
    OtherKeysOpenNothing(other, key, stored.data.value);
    KeyDecides(stored.disk, other);
    assert path in stored.data.value && !Open(other, stored.data.value[path]).Ok?;
    assert stored.data.value.Keys == s.data.value.Keys + {path};
  }

  /** An open clean store whose key opens what is in memory, whatever the files hold. */
  ghost predicate InStepButForFiles(s: Store, key: Bytes) {
    && s.Valid() && s.crypto.Some? && s.crypto.value.key == Some(key) && AesKeySize(|key|)
    && AllOpen(key, s.data.value) && s.autoSave && !s.dirty
  }

  /**
     A password change fails on its metadata, and a later `Set` succeeds. The files are then under two
     keys: `Lock` succeeds, only the old password unlocks, and no secret can be read again.
   */
  lemma FailedMetadataThenSetLosesEverySecret(s: Store, a: Plain, c: Call, path: string, secret: Secret, setEnv: Env,
                                              lockEnv: Env, password: string, unlockEnv: Env)
    requires Represents(s, a) && a.Vault? && !a.locked
    requires c.op.ChangePassword? && MayCall(s, c) && c.op.oldPassword == a.password
    requires c.env.salt.Some? && c.env.nonce.Some? && forall p :: c.env.renonce(p).Some?
    requires c.env.metaWrite == Failed(s.disk.meta)
    requires c.op.newPassword != a.password || c.env.salt.value != s.meta.value.salt.value
    requires Faultless(setEnv) && Faultless(unlockEnv) && secret.Marshals()
    ensures Update(s, c).store.Valid()
    ensures var stored := Spec.Set(Update(s, c).store, path, secret, setEnv);
            && stored.result == Ok(Unit) && !Coherent(stored.store.disk)
            && var locked := Spec.Lock(stored.store, lockEnv);
            && locked.result == Ok(Unit)
            && var reopened := Spec.Unlock(locked.store, password, unlockEnv);
            && reopened.result == (if password == a.password then Ok(Unit) else Err(InvalidPassword))
            && reopened.store.Valid()
            && forall p :: p in a.secrets || p == path ==> Spec.Get(reopened.store, p).Err?
  {
    FailedMetadataKeepsOldFiles(s, a, c);
    var meta := s.disk.meta.meta;
    var key := IdKey(a.password, meta.salt.value, DEFAULT_PARAMS);
    DerivedKeysDiffer(c.op.newPassword, a.password, c.env.salt.value, meta.salt.value, DEFAULT_PARAMS, DEFAULT_PARAMS);
    PasswordVerifies(a.password, a.password, meta.salt.value, meta.verification);
    PasswordVerifies(password, a.password, meta.salt.value, meta.verification);
    assert Anchors(s.disk.meta, key);
    ThenSetMixesKeys(Update(s, c).store, NewKey(c), key, path, secret, setEnv);
  }

  /** Entries that open under one key read as errors under any other. */
  lemma OtherKeysOpenNothing(key: Bytes, other: Bytes, entries: map<string, Encoded>)
    requires AllOpen(other, entries) && key != other
    ensures forall p :: p in entries ==> Open(key, entries[p]).Err? && ReadEntry(key, entries[p]).Err?
  {
    forall p | p in entries ensures Open(key, entries[p]).Err? {
      if Open(key, entries[p]).Ok? {
        OneKeyPerEntry(key, other, entries[p]);
        assert false;
      }
    }
  }

  // ---------- the dirty flag ----------

  /** Unlocked and not dirty means the data file decodes to what is in memory. */
  ghost predicate Tracked(s: Store) {
    s.Valid() && (!s.IsLocked() && !s.dirty ==> LoadedSecrets(s.disk.data) == Ok(s.data.value))
  }

  /** Saves inside `Set`, `Delete` and `Lock` may fail and leave anything. */
  ghost predicate MainWritesSucceed(c: Call) {
    c.op.Initialize? || c.op.ChangePassword? ==> c.env.metaWrite.Written? && c.env.dataWrite.Written?
  }

  lemma CallStaysTracked(s: Store, c: Call)
    requires Tracked(s) && MayCall(s, c) && MainWritesSucceed(c)
    ensures Tracked(Update(s, c).store)
  {
  }

  lemma {:induction false} RunStaysTracked(s: Store, calls: seq<Call>)
    requires Tracked(s) && MayRun(s, calls)
    requires forall i :: 0 <= i < |calls| ==> MainWritesSucceed(calls[i])
    ensures Tracked(Final(s, calls))
    decreases |calls|
  {
    if calls != [] {
      CallStaysTracked(s, calls[0]);
      RunStaysTracked(Update(s, calls[0]).store, calls[1..]);
    }
  }

  /**
     After any such run, for either value of `autoSave` and whatever was on disk, locking an unlocked
     store either leaves exactly the map in memory on disk or fails and changes nothing in memory.
   */
  lemma {:induction false} LockSavesOrKeeps(autoSave: bool, disk: Disk, calls: seq<Call>, env: Env)
    requires MayRun(NewStore(autoSave, disk), calls)
    requires forall i :: 0 <= i < |calls| ==> MainWritesSucceed(calls[i])
    ensures Final(NewStore(autoSave, disk), calls).Valid()
    ensures var s := Final(NewStore(autoSave, disk), calls);
            var step := Spec.Lock(s, env);
            !s.IsLocked() ==>
              if step.result.Ok?
              then step.store.IsLocked() && LoadedSecrets(step.store.disk.data) == Ok(s.data.value)
              else step.store == s.(disk := step.store.disk) && step.store.disk.meta == s.disk.meta
  {
    RunStaysTracked(NewStore(autoSave, disk), calls);
  }

  /** `Unlock` rereads the file: it keeps the map in memory exactly when the file has it, as with a clean store. */
  lemma UnlockKeepsSavedMap(s: Store, password: string, env: Env)
    requires Tracked(s) && !s.IsLocked()
    ensures var step := Spec.Unlock(s, password, env);
            step.result.Ok? ==>
              && (step.store.data == s.data <==> LoadedSecrets(s.disk.data) == Ok(s.data.value))
              && (!s.dirty ==> step.store.data == s.data)
              && step.store.dirty == s.dirty
  {
  }

  /** A `Set` whose save fails is in memory; unlocking the open vault again succeeds and drops it. */
  lemma UnlockDropsUnsavedSecret(s: Store, a: Plain, path: string, secret: Secret, setEnv: Env, env: Env)
    requires Represents(s, a) && a.Vault? && !a.locked && secret.Marshals()
    requires setEnv.nonce.Some? && setEnv.dataWrite == Failed(s.disk.data) && Faultless(env)
    ensures var stored := Spec.Set(s, path, secret, setEnv);
            && stored.result == Err(WriteFailed) && stored.store.Valid()
            && Spec.Exists(stored.store, path) == Ok(true)
            && var reopened := Spec.Unlock(stored.store, a.password, env);
            && reopened.result == Ok(Unit) && reopened.store.Valid()
            && Spec.Exists(reopened.store, path) == Ok(path in a.secrets)
  {
    PasswordVerifies(a.password, a.password, s.disk.meta.meta.salt.value, s.disk.meta.meta.verification);
  }

  // ---------- what single calls need, and what they leave alone ----------

  /**
     Exactly when `Unlock` succeeds. With a wrong password it has reread the metadata and changed nothing
     else; when the entries cannot be loaded the vault is closed, with the data in memory as it was.
   */
  lemma UnlockSucceedsExactly(s: Store, password: string, env: Env)
    requires s.disk.meta.MetaJson? ==> s.disk.meta.meta.salt.Some?
    ensures var step := Spec.Unlock(s, password, env);
            var key := if s.disk.meta.MetaJson?
                       then IdKey(password, s.disk.meta.meta.salt.value, s.disk.meta.meta.params) else [];
            && (step.result.Ok? <==>
                  && s.disk.meta.MetaJson? && env.metaReadable
                  && |s.disk.meta.meta.salt.value| >= MIN_SALT_SIZE
                  && Open(key, s.disk.meta.meta.verification) == Ok(VERIFICATION_MAGIC)
                  && (s.disk.data.NoData? || (s.disk.data.DataJson? && env.dataReadable)))
            && (step.result.Ok? ==>
                  && !step.store.IsLocked() && step.store.crypto.value.key == Some(key)
                  && step.store.unlockTime == env.now && step.store.disk == s.disk && step.trail == [])
            && (step.result == Err(InvalidPassword) ==>
                  s.disk.meta.MetaJson? && step.store == s.(meta := Some(s.disk.meta.meta)))
            && (step.result.Err? && step.store.crypto != s.crypto ==>
                  step.store.crypto.None? && step.store.data == s.data && step.store.disk == s.disk)
  {
  }

  /** The birth of a vault: `Initialize` sets it, no other call ever changes it, nor the version. */
  lemma BirthIsKept(s: Store, c: Call)
    requires MayCall(s, c)
    ensures var step := Update(s, c);
            && (c.op.Initialize? && step.trail != [] ==>
                  step.store.meta.Some? && step.store.meta.value.version == 1
                  && step.store.meta.value.createdAt == c.env.now)
            && (c.op.ChangePassword? && step.store.meta.Some? ==>
                  && step.store.meta.value.version == s.meta.value.version
                  && step.store.meta.value.createdAt == s.meta.value.createdAt)
            && (!c.op.Initialize? && !c.op.ChangePassword? ==> step.store.disk.meta == s.disk.meta)
  {
  }

  /** The time of the last unlocking: only `Initialize` and `Unlock` change it, when they make a key. */
  lemma UnlockTimeIsKept(s: Store, c: Call)
    requires MayCall(s, c) && !c.op.Restart?
    ensures var step := Update(s, c);
            && ((c.op.Initialize? || c.op.Unlock?) && step.result.Ok? ==> step.store.unlockTime == c.env.now)
            && (step.store.unlockTime != s.unlockTime ==>
                  && step.store.unlockTime == c.env.now
                  && ((c.op.Initialize? && step.trail != []) || (c.op.Unlock? && step.result != Err(InvalidPassword))))
  {
  }

  // ---------- ChangePassword under faults ----------

  /** An exit before the first write leaves the store exactly as it was. */
  lemma ChangePasswordAbortsCleanly(s: Store, c: Call)
    requires InStep(s) && c.op.ChangePassword? && MayCall(s, c)
    ensures Update(s, c).trail == [] ==> Update(s, c).store == s && Update(s, c).result.Err?
    ensures Update(s, c).trail != [] <==>
            && PasswordOpens(c.op.oldPassword, s.crypto.value.salt, s.crypto.value.params, s.meta.value.verification)
            && c.env.salt.Some? && c.env.nonce.Some? && forall p :: p in s.data.value ==> c.env.renonce(p).Some?
  {
    if c.env.salt.Some? {
      var newKey := IdKey(c.op.newPassword, c.env.salt.value, DEFAULT_PARAMS);
      ReencryptKeepsPlaintexts(c.order, s.data.value, s.crypto.value.key.value, newKey, c.env.renonce);
    }
  }

  function WithWrites(c: Call, metaWrite: Write<MetaFile>, dataWrite: Write<DataFile>): Call {
    c.(env := c.env.(metaWrite := metaWrite, dataWrite := dataWrite))
  }

  /**
     `ChangePassword` does not mark the store dirty before it saves. So memory and disk stay in step
     however its saves end exactly when the store already was dirty.
   */
  lemma ChangePasswordTracksExactly(s: Store, c: Call)
    requires c.op.ChangePassword? && MayCall(s, c) && Update(s, c).trail != []
    ensures (forall m, d :: Tracked(Update(s, WithWrites(c, m, d)).store)) <==> s.dirty
  {
    var newKey := IdKey(c.op.newPassword, c.env.salt.value, DEFAULT_PARAMS);
    forall m, d | s.dirty ensures Tracked(Update(s, WithWrites(c, m, d)).store) {
    }
    if !s.dirty {
      assert !Tracked(Update(s, WithWrites(c, Written, Failed(BadData))).store);
    }
  }

  /** The same for one outcome of the saves. */
  lemma ChangePasswordTracksWhen(s: Store, c: Call)
    requires InStep(s) && Tracked(s) && c.op.ChangePassword? && MayCall(s, c) && Update(s, c).trail != []
    requires s.crypto.value.key != Some(IdKey(c.op.newPassword, c.env.salt.value, DEFAULT_PARAMS))
    ensures Tracked(Update(s, c).store) <==>
            || s.dirty
            || (c.env.metaWrite.Written? && c.env.dataWrite.Written?)
            || (c.env.metaWrite.Failed? && s.data.value == map[])
            || (c.env.metaWrite.Written? && c.env.dataWrite.Failed?
                && LoadedSecrets(c.env.dataWrite.left) == Ok(Update(s, c).store.data.value))
  {
    var newKey := IdKey(c.op.newPassword, c.env.salt.value, DEFAULT_PARAMS);
    ReencryptedDiffers(c.order, s.data.value, s.crypto.value.key.value, newKey, c.env.renonce);
  }

  /** Entries re-encrypted under another key are other entries, unless there are none. */
  lemma ReencryptedDiffers(order: seq<string>, entries: map<string, Encoded>, key: Bytes, newKey: Bytes,
                           renonce: string -> Option<Nonce>)
    requires Ranges(order, entries) && AesKeySize(|newKey|) && key != newKey
    requires Reencrypt(order, entries, key, newKey, renonce).Ok?
    ensures Reencrypt(order, entries, key, newKey, renonce).value == entries <==> entries == map[]
  {
    ReencryptKeepsPlaintexts(order, entries, key, newKey, renonce);
    var again := Reencrypt(order, entries, key, newKey, renonce).value;
    if again == entries && entries != map[] {
      var p :| p in entries;
      assert p in order && Open(key, entries[p]).Ok?;
      OneKeyPerEntry(key, newKey, entries[p]);
      assert false;
    }
    if entries == map[] {
      assert again == map[];
    }
  }

  /** What is left when the metadata is saved and the data is not: not dirty, and the old entries on disk. */
  lemma FailedSaveLeavesOldEntries(s: Store, a: Plain, c: Call)
    requires Represents(s, a) && a.Vault? && !a.locked
    requires c.op.ChangePassword? && MayCall(s, c) && c.op.oldPassword == a.password
    requires c.env.salt.Some? && c.env.nonce.Some? && forall p :: c.env.renonce(p).Some?
    requires c.env.metaWrite.Written? && c.env.dataWrite == Failed(s.disk.data)
    ensures Update(s, c).result == Err(WriteFailed)
    ensures var after := Update(s, c).store;
            && after.crypto.Some? && !after.dirty
            && after.disk.data == DataJson(s.data)
            && after.disk.meta.MetaJson?
            && after.disk.meta.meta.salt == Some(c.env.salt.value)
            && after.disk.meta.meta.params == DEFAULT_PARAMS
            && IsSealed(IdKey(c.op.newPassword, c.env.salt.value, DEFAULT_PARAMS), VERIFICATION_MAGIC,
                        after.disk.meta.meta.verification)
  {
    var salt := s.meta.value.salt.value;
    var newKey := IdKey(c.op.newPassword, c.env.salt.value, DEFAULT_PARAMS);
    PasswordVerifies(c.op.oldPassword, a.password, salt, s.meta.value.verification);
    SealIsSealed(newKey, c.env.nonce.value, VERIFICATION_MAGIC);
    ReencryptKeepsPlaintexts(c.order, s.data.value, s.crypto.value.key.value, newKey, c.env.renonce);
  }

  /**
     The worst case: the metadata is saved and the data is not. `Lock` then reports success without
     writing, only the new password unlocks, and no secret can be read again.
   */
  lemma FailedSaveLosesEverySecret(s: Store, a: Plain, c: Call, lockEnv: Env, password: string, unlockEnv: Env)
    requires Represents(s, a) && a.Vault? && !a.locked
    requires c.op.ChangePassword? && MayCall(s, c) && c.op.oldPassword == a.password
    requires c.env.salt.Some? && c.env.nonce.Some? && forall p :: c.env.renonce(p).Some?
    requires c.env.metaWrite.Written? && c.env.dataWrite == Failed(s.disk.data)
    requires c.op.newPassword != a.password || c.env.salt.value != s.meta.value.salt.value
    requires Faultless(unlockEnv)
    ensures var locked := Spec.Lock(Update(s, c).store, lockEnv);
            && locked.result == Ok(Unit) && locked.trail == []
            && var reopened := Spec.Unlock(locked.store, password, unlockEnv);
            && reopened.result == (if password == c.op.newPassword then Ok(Unit) else Err(InvalidPassword))
            && reopened.store.Valid()
            && forall p :: p in a.secrets ==> Spec.Get(reopened.store, p).Err?
  {
    FailedSaveLeavesOldEntries(s, a, c);
    var salt := s.meta.value.salt.value;
    var newKey := IdKey(c.op.newPassword, c.env.salt.value, DEFAULT_PARAMS);
    var locked := Spec.Lock(Update(s, c).store, lockEnv).store;
    PasswordVerifies(password, c.op.newPassword, c.env.salt.value, locked.disk.meta.meta.verification);
    DerivedKeysDiffer(c.op.newPassword, a.password, c.env.salt.value, salt, DEFAULT_PARAMS, DEFAULT_PARAMS);
    OtherKeysOpenNothing(newKey, s.crypto.value.key.value, s.data.value);
  }
}
