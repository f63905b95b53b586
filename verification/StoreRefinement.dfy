/**
 Over every run in which file operations succeed, restarts of the process included, the encrypted
 store cannot be told from a plain map of secrets with a password and a lock bit. Random draws may
 fail: the plain machine then refuses as well.
 */
module StoreRefinement {
  import opened Secrets
  import opened Primitives
  import Spec = StoreSpec
  import opened StoreSpec
  import Text

  datatype Op =
    | Initialize(password: string)
    | Unlock(password: string)
    | Lock
    | Set(path: string, secret: Secret)
    | Delete(path: string)
    | Get(path: string)
    | Exists(path: string)
    | List(prefix: string)
    | SecretCount
    | ChangePassword(oldPassword: string, newPassword: string)
    | Restart

  /** One call, what the outside world contributes to it, and the order `range` will use. */
  datatype Call = Call(op: Op, env: Env, order: seq<string>)

  datatype Answer =
    | Done
    | Refused(error: Error)
    | Found(secret: Secret)
    | Truth(value: bool)
    | Paths(paths: seq<string>)
    | Count(n: nat)

  function Status(r: Result<Unit>): Answer {
    match r case Ok(_) => Done case Err(e) => Refused(e)
  }

  // ---------- the store ----------

  /** The caller's side of the bargain: `ChangePassword` dereferences the crypto object. */
  ghost predicate MayCall(s: Store, c: Call) {
    s.Valid() &&
    (c.op.ChangePassword? ==> s.crypto.Some? && Ranges(c.order, s.data.value))
  }

  function Update(s: Store, c: Call): Step
    requires MayCall(s, c)
  {
    match c.op
    case Initialize(p) => Spec.Initialize(s, p, c.env)
    case Unlock(p) => Spec.Unlock(s, p, c.env)
    case Lock => Spec.Lock(s, c.env)
    case Set(path, secret) => Spec.Set(s, path, secret, c.env)
    case Delete(path) => Spec.Delete(s, path, c.env)
    case ChangePassword(o, n) => Spec.ChangePassword(s, o, n, c.env, c.order)
    case Restart => Spec.Restart(s)
    case _ => Step(s, Ok(Unit), [])
  }

  ghost function Reply(s: Store, c: Call): Answer
    requires MayCall(s, c)
  {
    match c.op
    case Get(path) => (match Spec.Get(s, path) case Ok(x) => Found(x) case Err(e) => Refused(e))
    case Exists(path) => (match Spec.Exists(s, path) case Ok(b) => Truth(b) case Err(e) => Refused(e))
    case List(prefix) => (match Spec.List(s, prefix) case Ok(ps) => Paths(ps) case Err(e) => Refused(e))
    case SecretCount => Count(Spec.SecretCount(s))
    case _ => Status(Update(s, c).result)
  }

  // ---------- the plain machine ----------

  datatype Plain = NoVault | Vault(password: string, locked: bool, secrets: map<string, Secret>)

  /** The two random draws of a new key: its salt, and the nonce of its verification blob. */
  predicate DrawsTwo(env: Env) {
    env.salt.Some? && env.nonce.Some?
  }

  /** Those, and one nonce for each secret. */
  predicate DrawsAll(env: Env, secrets: map<string, Secret>) {
    DrawsTwo(env) && forall p :: p in secrets ==> env.renonce(p).Some?
  }

  function PlainUpdate(a: Plain, c: Call): Plain {
    match c.op
    case Initialize(p) => if a.NoVault? && DrawsTwo(c.env) then Vault(p, false, map[]) else a
    case Unlock(p) => if a.Vault? && p == a.password then a.(locked := false) else a
    case Lock => if a.Vault? then a.(locked := true) else a
    case Set(path, secret) =>
      if a.Vault? && !a.locked && secret.Marshals() && c.env.nonce.Some?
      then a.(secrets := a.secrets[path := secret.Stamp(c.env.now).Norm()]) else a
    case Delete(path) => if a.Vault? && !a.locked then a.(secrets := a.secrets - {path}) else a
    case ChangePassword(o, n) =>
      if a.Vault? && !a.locked && o == a.password && DrawsAll(c.env, a.secrets) then a.(password := n) else a
    case Restart => if a.Vault? then a.(locked := true) else a
    case _ => a
  }

  ghost function PlainReply(a: Plain, c: Call): Answer {
    var locked := a.NoVault? || a.locked;
    match c.op
    case Initialize(p) =>
      if !a.NoVault? then Refused(AlreadyExists) else if DrawsTwo(c.env) then Done else Refused(RandomFailed)
    case Unlock(p) =>
      if a.NoVault? then Refused(NoSuchVault) else if p == a.password then Done else Refused(InvalidPassword)
    case Lock => Done
    case Set(path, secret) =>
      if locked then Refused(VaultLocked)
      else if !secret.Marshals() then Refused(MarshalFailed)
      else if c.env.nonce.Some? then Done else Refused(RandomFailed)
    case Delete(path) => if locked then Refused(VaultLocked) else Done
    case Get(path) =>
      if locked then Refused(VaultLocked)
      else if path in a.secrets then Found(a.secrets[path]) else Refused(SecretNotFound)
    case Exists(path) => if locked then Refused(VaultLocked) else Truth(path in a.secrets)
    case List(prefix) =>
      if locked then Refused(VaultLocked)
      else Paths(Text.SortedKeys(set p | p in a.secrets && Text.HasPrefix(p, prefix)))
    case SecretCount => Count(if locked then 0 else |a.secrets|)
    case ChangePassword(o, n) =>
      if locked then Refused(VaultLocked)
      else if o != a.password then Refused(InvalidPassword)
      else if DrawsAll(c.env, a.secrets) then Done else Refused(RandomFailed)
    case Restart => Done
  }

  // ---------- the relation between them ----------

  /** Every entry opens under `key` to the secret at the same path. */
  ghost predicate Holds(key: Bytes, entries: map<string, Encoded>, secrets: map<string, Secret>) {
    entries.Keys == secrets.Keys &&
    forall p :: p in entries ==> ReadEntry(key, entries[p]) == Ok(secrets[p])
  }

  ghost predicate Represents(s: Store, a: Plain) {
    s.Valid() && s.autoSave && !s.dirty &&
    match a
    case NoVault => s.crypto.None? && s.data.None? && s.disk == Disk(NoMeta, NoData)
    case Vault(password, locked, secrets) =>
      && s.disk.meta.MetaJson?
      && var meta := s.disk.meta.meta;
      && meta.salt.Some? && |meta.salt.value| == SALT_SIZE && meta.params == DEFAULT_PARAMS
      && var key := IdKey(password, meta.salt.value, DEFAULT_PARAMS);
      && IsSealed(key, VERIFICATION_MAGIC, meta.verification)
      && s.disk.data.DataJson? && s.disk.data.secrets.Some?
      && Holds(key, s.disk.data.secrets.value, secrets)
      && if locked then s.crypto.None? && s.data.None?
         else && s.crypto == Some(CryptoState(meta.salt.value, DEFAULT_PARAMS, Some(key)))
              && s.meta == Some(meta)
              && s.data == s.disk.data.secrets
  }

  /** A store represents one plain vault only. */
  lemma PlainIsUnique(s: Store, a: Plain, b: Plain)
    requires Represents(s, a) && Represents(s, b)
    ensures a == b
  {
    if a.Vault? && b.Vault? {
      var meta := s.disk.meta.meta;
      PasswordVerifies(a.password, a.password, meta.salt.value, meta.verification);
      PasswordVerifies(a.password, b.password, meta.salt.value, meta.verification);
      var key := IdKey(a.password, meta.salt.value, DEFAULT_PARAMS);
      forall p | p in a.secrets ensures p in b.secrets && a.secrets[p] == b.secrets[p] {
        assert ReadEntry(key, s.disk.data.secrets.value[p]) == Ok(a.secrets[p]);
      }
      assert a.secrets.Keys == b.secrets.Keys;
      LockBitIsSeen(s, a);
      LockBitIsSeen(s, b);
    }
  }

  lemma LockBitIsSeen(s: Store, a: Plain)
    requires Represents(s, a) && a.Vault?
    ensures a.locked <==> s.IsLocked()
  {
  }

  ghost predicate IsSealed(key: Bytes, plaintext: Bytes, e: Encoded) {
    e.Base64? && |e.bytes| == NONCE_SIZE + 1 && e == Seal(key, e.bytes[..NONCE_SIZE], plaintext)
  }

  lemma SealIsSealed(key: Bytes, nonce: Nonce, plaintext: Bytes)
    ensures IsSealed(key, plaintext, Seal(key, nonce, plaintext))
  {
    var e := Seal(key, nonce, plaintext);
    assert e.bytes[..NONCE_SIZE] == nonce;
  }

  /** A password verifies exactly when it derives the key of the verification blob. */
  lemma PasswordVerifies(password: string, right: string, salt: Bytes, blob: Encoded)
    requires IsSealed(IdKey(right, salt, DEFAULT_PARAMS), VERIFICATION_MAGIC, blob)
    ensures PasswordOpens(password, salt, DEFAULT_PARAMS, blob) <==> password == right
  {
    var key := IdKey(right, salt, DEFAULT_PARAMS);
    OpenUndoesSeal(key, IdKey(password, salt, DEFAULT_PARAMS), blob.bytes[..NONCE_SIZE], VERIFICATION_MAGIC);
    DerivedKeysDiffer(password, right, salt, salt, DEFAULT_PARAMS, DEFAULT_PARAMS);
  }

  /** The file operations of a call succeed. */
  predicate FilesWork(c: Call) {
    match c.op
    case Initialize(_) => c.env.metaWrite.Written? && c.env.dataWrite.Written?
    case ChangePassword(_, _) => c.env.metaWrite.Written? && c.env.dataWrite.Written?
    case Unlock(_) => c.env.metaReadable && c.env.dataReadable
    case Set(_, _) => c.env.dataWrite.Written?
    case Delete(_) => c.env.dataWrite.Written?
    case _ => true
  }

  /** Nothing fails: the randomness is there and the files can be read and written. */
  ghost predicate Faultless(env: Env) {
    env.salt.Some? && env.nonce.Some? && (forall p :: env.renonce(p).Some?) &&
    env.metaReadable && env.dataReadable && env.metaWrite.Written? && env.dataWrite.Written?
  }

  /**
     The re-encryption loop, in whatever order it runs: the same paths, each opening under the new
     key to what the old entry opened to under the old key.
   */
  lemma {:induction false} ReencryptKeepsPlaintexts(order: seq<string>, secrets: map<string, Encoded>,
                                                    key: Bytes, newKey: Bytes, renonce: string -> Option<Nonce>)
    requires forall p :: p in order ==> p in secrets
    requires AesKeySize(|newKey|)
    ensures Reencrypt(order, secrets, key, newKey, renonce).Ok? <==>
            forall p :: p in order ==> Open(key, secrets[p]).Ok? && renonce(p).Some?
    ensures var r := Reencrypt(order, secrets, key, newKey, renonce);
            r.Ok? ==>
              && (forall p :: p in r.value <==> p in order)
              && forall p :: p in order ==> Open(newKey, r.value[p]) == Open(key, secrets[p])
  {
    if order != [] {
      var last := |order| - 1;
      ReencryptKeepsPlaintexts(order[..last], secrets, key, newKey, renonce);
      assert forall p :: p in order <==> p in order[..last] || p == order[last];
      var plaintext := Open(key, secrets[order[last]]);
      if plaintext.Ok? && renonce(order[last]).Some? {
        OpenUndoesSeal(newKey, newKey, renonce(order[last]).value, plaintext.value);
      }
    }
  }

  lemma UnlockRefines(s: Store, a: Plain, c: Call)
    requires Represents(s, a) && c.op.Unlock? && FilesWork(c)
    ensures Represents(Update(s, c).store, PlainUpdate(a, c)) && Reply(s, c) == PlainReply(a, c)
  {
    if a.Vault? {
      PasswordVerifies(c.op.password, a.password, s.disk.meta.meta.salt.value, s.disk.meta.meta.verification);
    }
  }

  lemma InitializeRefines(s: Store, a: Plain, c: Call)
    requires Represents(s, a) && c.op.Initialize? && FilesWork(c)
    ensures Represents(Update(s, c).store, PlainUpdate(a, c)) && Reply(s, c) == PlainReply(a, c)
  {
    if DrawsTwo(c.env) {
      SealIsSealed(IdKey(c.op.password, c.env.salt.value, DEFAULT_PARAMS), c.env.nonce.value, VERIFICATION_MAGIC);
    }
  }

  /**
     A secret that `Set` has stored, in any store, is what `Get` gives at its path, times to the second
     and empty maps and slices as none; every other path answers as before.
   */
  lemma SetThenGet(s: Store, path: string, secret: Secret, env: Env, other: string)
    requires s.Valid() && Spec.Set(s, path, secret, env).result.Ok?
    ensures var after := Spec.Set(s, path, secret, env).store;
            && after.Valid()
            && Spec.Get(after, path).Ok? && ReadBack(Spec.Get(after, path).value, secret, env.now)
            && (other != path ==> Spec.Get(after, other) == Spec.Get(s, other))
  {
    var key := s.crypto.value.key.value;
    OpenUndoesSeal(key, key, env.nonce.value, MarshalSecret(secret.Stamp(env.now)));
    StampedIsReadBack(secret, env.now);
  }

  lemma SetRefines(s: Store, a: Plain, c: Call)
    requires Represents(s, a) && c.op.Set? && FilesWork(c)
    ensures Represents(Update(s, c).store, PlainUpdate(a, c)) && Reply(s, c) == PlainReply(a, c)
  {
    if !s.IsLocked() && c.env.nonce.Some? {
      var key := s.crypto.value.key.value;
      OpenUndoesSeal(key, key, c.env.nonce.value, MarshalSecret(c.op.secret.Stamp(c.env.now)));
    }
  }

  /** The entries re-encrypted under the new key still hold the same secrets. */
  lemma ReencryptedHolds(order: seq<string>, entries: map<string, Encoded>, secrets: map<string, Secret>,
                         key: Bytes, newKey: Bytes, renonce: string -> Option<Nonce>)
    requires Ranges(order, entries) && Holds(key, entries, secrets)
    requires AesKeySize(|newKey|) && forall p :: p in secrets ==> renonce(p).Some?
    ensures var again := Reencrypt(order, entries, key, newKey, renonce);
            again.Ok? && Holds(newKey, again.value, secrets)
  {
    ReencryptKeepsPlaintexts(order, entries, key, newKey, renonce);
    var again := Reencrypt(order, entries, key, newKey, renonce);
    assert forall p :: p in order ==> ReadEntry(key, entries[p]) == Ok(secrets[p]);
    assert again.value.Keys == entries.Keys;
  }

  /** When every entry opens, re-encryption can only fail for want of randomness. */
  lemma {:induction false} ReencryptLacksRandom(order: seq<string>, secrets: map<string, Encoded>,
                                                key: Bytes, newKey: Bytes, renonce: string -> Option<Nonce>)
    requires forall p :: p in order ==> p in secrets && Open(key, secrets[p]).Ok?
    requires AesKeySize(|newKey|)
    ensures var r := Reencrypt(order, secrets, key, newKey, renonce); r.Err? ==> r.error == RandomFailed
  {
    if order != [] {
      ReencryptLacksRandom(order[..|order| - 1], secrets, key, newKey, renonce);
    }
  }

  /** Without a nonce for each secret nothing is re-encrypted. */
  lemma ReencryptedOnlyWithDraws(order: seq<string>, entries: map<string, Encoded>, secrets: map<string, Secret>,
                                 key: Bytes, newKey: Bytes, renonce: string -> Option<Nonce>)
    requires Ranges(order, entries) && Holds(key, entries, secrets) && AesKeySize(|newKey|)
    requires exists p :: p in secrets && renonce(p).None?
    ensures Reencrypt(order, entries, key, newKey, renonce) == Err(RandomFailed)
  {
    forall p | p in order ensures p in entries && Open(key, entries[p]).Ok? {
      assert ReadEntry(key, entries[p]) == Ok(secrets[p]);
    }
    var p :| p in secrets && renonce(p).None?;
    assert p in entries;
    ReencryptKeepsPlaintexts(order, entries, key, newKey, renonce);
    ReencryptLacksRandom(order, entries, key, newKey, renonce);
  }

  lemma ChangePasswordRefines(s: Store, a: Plain, c: Call)
    requires Represents(s, a) && c.op.ChangePassword? && FilesWork(c) && MayCall(s, c)
    ensures Represents(Update(s, c).store, PlainUpdate(a, c)) && Reply(s, c) == PlainReply(a, c)
  {
    var meta := s.meta.value;
    PasswordVerifies(c.op.oldPassword, a.password, meta.salt.value, meta.verification);
    if c.op.oldPassword == a.password && DrawsTwo(c.env) {
      var newKey := IdKey(c.op.newPassword, c.env.salt.value, DEFAULT_PARAMS);
      SealIsSealed(newKey, c.env.nonce.value, VERIFICATION_MAGIC);
      if DrawsAll(c.env, a.secrets) {
        ReencryptedHolds(c.order, s.data.value, a.secrets, s.crypto.value.key.value, newKey, c.env.renonce);
      } else {
        ReencryptedOnlyWithDraws(c.order, s.data.value, a.secrets, s.crypto.value.key.value, newKey, c.env.renonce);
      }
    }
  }

  lemma SameListing(entries: map<string, Encoded>, secrets: map<string, Secret>, prefix: string)
    requires entries.Keys == secrets.Keys
    ensures (set p | p in entries && (prefix == "" || Text.HasPrefix(p, prefix)))
         == (set p | p in secrets && Text.HasPrefix(p, prefix))
  {
  }

  lemma ListRefines(s: Store, a: Plain, c: Call)
    requires Represents(s, a) && c.op.List?
    ensures Reply(s, c) == PlainReply(a, c)
  {
    if !s.IsLocked() {
      SameListing(s.data.value, a.secrets, c.op.prefix);
    }
  }

  lemma LockRefines(s: Store, a: Plain, c: Call)
    requires Represents(s, a) && c.op.Lock? && FilesWork(c)
    ensures Represents(Update(s, c).store, PlainUpdate(a, c)) && Reply(s, c) == PlainReply(a, c)
  {
  }

  lemma DeleteRefines(s: Store, a: Plain, c: Call)
    requires Represents(s, a) && c.op.Delete? && FilesWork(c)
    ensures Represents(Update(s, c).store, PlainUpdate(a, c)) && Reply(s, c) == PlainReply(a, c)
  {
  }

  lemma ReadRefines(s: Store, a: Plain, c: Call)
    requires Represents(s, a) && (c.op.Get? || c.op.Exists? || c.op.SecretCount?)
    ensures Reply(s, c) == PlainReply(a, c)
  {
    if !s.IsLocked() {
      assert |s.data.value| == |s.data.value.Keys| == |a.secrets.Keys| == |a.secrets|;
    }
  }

  /** Everything a vault holds survives the process; only the lock bit is lost. */
  lemma RestartRefines(s: Store, a: Plain, c: Call)
    requires Represents(s, a) && c.op.Restart?
    ensures Represents(Update(s, c).store, PlainUpdate(a, c)) && Reply(s, c) == PlainReply(a, c)
  {
  }

  /** One call: the same answer, and the states still match. */
  lemma CallRefines(s: Store, a: Plain, c: Call)
    requires Represents(s, a) && FilesWork(c) && MayCall(s, c)
    ensures Represents(Update(s, c).store, PlainUpdate(a, c)) && Reply(s, c) == PlainReply(a, c)
  {
    match c.op
    case Initialize(_) => InitializeRefines(s, a, c);
    case Unlock(_) => UnlockRefines(s, a, c);
    case Set(_, _) => SetRefines(s, a, c);
    case List(_) => ListRefines(s, a, c);
    case ChangePassword(_, _) => ChangePasswordRefines(s, a, c);
    case Lock => LockRefines(s, a, c);
    case Delete(_) => DeleteRefines(s, a, c);
    case Restart => RestartRefines(s, a, c);
    case _ => ReadRefines(s, a, c);
  }

  // ---------- whole runs ----------

  /** Every call of the run may be made in the state the run has reached. */
  ghost predicate MayRun(s: Store, calls: seq<Call>)
    decreases |calls|
  {
    calls == [] || (MayCall(s, calls[0]) && MayRun(Update(s, calls[0]).store, calls[1..]))
  }

  ghost function Replies(s: Store, calls: seq<Call>): seq<Answer>
    requires MayRun(s, calls)
    decreases |calls|
  {
    if calls == [] then [] else [Reply(s, calls[0])] + Replies(Update(s, calls[0]).store, calls[1..])
  }

  ghost function PlainReplies(a: Plain, calls: seq<Call>): seq<Answer>
    decreases |calls|
  {
    if calls == [] then [] else [PlainReply(a, calls[0])] + PlainReplies(PlainUpdate(a, calls[0]), calls[1..])
  }

  /** The state a run ends in. */
  ghost function Final(s: Store, calls: seq<Call>): Store
    requires MayRun(s, calls)
    decreases |calls|
  {
    if calls == [] then s else Final(Update(s, calls[0]).store, calls[1..])
  }

  /** The first call of a run, and the rest. */
  lemma {:induction false} RunUnfolds(s: Store, calls: seq<Call>)
    requires MayRun(s, calls) && calls != []
    ensures MayCall(s, calls[0]) && MayRun(Update(s, calls[0]).store, calls[1..])
    ensures Replies(s, calls) == [Reply(s, calls[0])] + Replies(Update(s, calls[0]).store, calls[1..])
    ensures Final(s, calls) == Final(Update(s, calls[0]).store, calls[1..])
  {
  }

  /** One more call at the beginning of a run. */
  lemma {:induction false} RunConses(s: Store, c: Call, rest: seq<Call>)
    requires MayCall(s, c) && MayRun(Update(s, c).store, rest)
    ensures MayRun(s, [c] + rest) && Final(s, [c] + rest) == Final(Update(s, c).store, rest)
  {
    assert ([c] + rest)[0] == c && ([c] + rest)[1..] == rest;
  }

  /** One more call at the end of a run. */
  lemma {:induction false} RunGrows(s: Store, calls: seq<Call>, c: Call)
    requires MayRun(s, calls) && MayCall(Final(s, calls), c)
    ensures MayRun(s, calls + [c])
    ensures Final(s, calls + [c]) == Update(Final(s, calls), c).store
    ensures Replies(s, calls + [c]) == Replies(s, calls) + [Reply(Final(s, calls), c)]
    decreases |calls|
  {
    if calls == [] {
      assert [c][1..] == [] && calls + [c] == [c];
      assert MayRun(Update(s, c).store, []);
    } else {
      RunGrows(Update(s, calls[0]).store, calls[1..], c);
      assert (calls + [c])[1..] == calls[1..] + [c];
    }
  }

  ghost function PlainFinal(a: Plain, calls: seq<Call>): Plain
    decreases |calls|
  {
    if calls == [] then a else PlainFinal(PlainUpdate(a, calls[0]), calls[1..])
  }

  ghost predicate FilesWorkThroughout(calls: seq<Call>) {
    forall i :: 0 <= i < |calls| ==> FilesWork(calls[i])
  }

  lemma {:induction false} RunRefines(s: Store, a: Plain, calls: seq<Call>)
    requires Represents(s, a) && MayRun(s, calls) && FilesWorkThroughout(calls)
    ensures Replies(s, calls) == PlainReplies(a, calls)
    ensures Represents(Final(s, calls), PlainFinal(a, calls))
    decreases |calls|
  {
    if calls != [] {
      CallRefines(s, a, calls[0]);
      RunRefines(Update(s, calls[0]).store, PlainUpdate(a, calls[0]), calls[1..]);
    }
  }

  /** A store just made by `NewEncryptedStore` in an empty directory. */
  const FRESH := NewStore(true, Disk(NoMeta, NoData))

  /** From an empty directory on, while file operations succeed, every answer is that of the plain machine. */
  lemma {:induction false} StoreIsPlainMap(calls: seq<Call>)
    requires MayRun(FRESH, calls) && FilesWorkThroughout(calls)
    ensures Replies(FRESH, calls) == PlainReplies(NoVault, calls)
  {
    RunRefines(FRESH, NoVault, calls);
  }
}
