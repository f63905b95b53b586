/**
 The encrypted store as transition functions on values: what each method of
 `internal/store/encrypted.go` does to memory and to the two files. `EncryptedStore` implements
 these functions on the heap; the theorems about runs are proved about them.
 */
module StoreSpec {
  import opened Secrets
  import opened Primitives
  import opened CryptoObject
  import Text

  datatype VaultMeta = VaultMeta(
    version: nat,
    createdAt: Instant,
    salt: Option<Bytes>,
    params: Argon2Params,
    verification: Encoded)

  /** `vault.meta` and `vault.enc`: absent, parsed JSON, or bytes that do not parse. */
  datatype MetaFile = NoMeta | MetaJson(meta: VaultMeta) | BadMeta
  datatype DataFile = NoData | DataJson(secrets: Option<map<string, Encoded>>) | BadData
  datatype Disk = Disk(meta: MetaFile, data: DataFile)

  /** How one `WriteFilePrivate` ends. A failed write may leave anything behind. */
  datatype Write<+F> = Written | Failed(left: F)

  datatype CryptoState = CryptoState(salt: Bytes, params: Argon2Params, key: Option<Bytes>)

  datatype Store = Store(
    crypto: Option<CryptoState>,
    meta: Option<VaultMeta>,
    data: Option<map<string, Encoded>>,
    dirty: bool,
    autoSave: bool,
    unlockTime: Instant,
    disk: Disk)
  {
    predicate IsLocked() {
      crypto.None? || crypto.value.key.None?
    }

    /** What every method relies on: a crypto object in place is unlocked and comes with meta and data. */
    predicate Valid() {
      crypto.Some? ==> crypto.value.key.Some? && meta.Some? && data.Some?
    }

    predicate VaultExists() {
      !disk.meta.NoMeta?
    }
  }

  /** Clock, randomness and file system as one call meets them. */
  datatype Env = Env(
    now: Instant,
    salt: Option<Salt>,
    nonce: Option<Nonce>,
    renonce: string -> Option<Nonce>,
    metaReadable: bool,
    dataReadable: bool,
    metaWrite: Write<MetaFile>,
    dataWrite: Write<DataFile>)

  /** What a call returns, the state it leaves, and the disk after each of its writes. */
  datatype Step = Step(store: Store, result: Result<Unit>, trail: seq<Disk>)

  /** `NewEncryptedStore`; `autoSave` is `true` there and nothing ever changes it. */
  function NewStore(autoSave: bool, disk: Disk): Store {
    Store(None, None, None, false, autoSave, ZERO_TIME, disk)
  }

  /** The process ends between two calls, and a new one starts on the files it left. */
  function Restart(s: Store): Step {
    Step(NewStore(s.autoSave, s.disk), Ok(Unit), [])
  }

  function SaveMeta(s: Store, w: Write<MetaFile>): Step
    requires s.meta.Some?
  {
    match w
    case Written =>
      var after := s.(disk := s.disk.(meta := MetaJson(s.meta.value)));
      Step(after, Ok(Unit), [after.disk])
    case Failed(left) =>
      var after := s.(disk := s.disk.(meta := left));
      Step(after, Err(WriteFailed), [after.disk])
  }

  function SaveData(s: Store, w: Write<DataFile>): Step {
    match w
    case Written =>
      var after := s.(disk := s.disk.(data := DataJson(s.data)), dirty := false);
      Step(after, Ok(Unit), [after.disk])
    case Failed(left) =>
      var after := s.(disk := s.disk.(data := left));
      Step(after, Err(WriteFailed), [after.disk])
  }

  function SaveBoth(s: Store, env: Env): Step
    requires s.meta.Some?
  {
    var first := SaveMeta(s, env.metaWrite);
    if first.result.Err? then first
    else
      var second := SaveData(first.store, env.dataWrite);
      second.(trail := first.trail + second.trail)
  }

  function LoadedSecrets(file: DataFile): Result<map<string, Encoded>> {
    match file
    case NoData => Ok(map[])
    case DataJson(None) => Ok(map[])
    case DataJson(Some(secrets)) => Ok(secrets)
    case BadData => Err(UnmarshalFailed)
  }

  function EncryptWith(key: Bytes, plaintext: Bytes, random: Option<Nonce>): Result<Encoded> {
    if !AesKeySize(|key|) then Err(BadKeySize)
    else if random.None? then Err(RandomFailed)
    else Ok(Seal(key, random.value, plaintext))
  }

  function Initialize(s: Store, password: string, env: Env): Step {
    if s.VaultExists() then Step(s, Err(AlreadyExists), [])
    else if env.salt.None? then Step(s, Err(RandomFailed), [])
    else
      var salt := env.salt.value;
      var key := IdKey(password, salt, DEFAULT_PARAMS);
      var blob := EncryptWith(key, VERIFICATION_MAGIC, env.nonce);
      if blob.Err? then Step(s, Err(blob.error), [])
      else
        var ready := s.(
          meta := Some(VaultMeta(1, env.now, Some(salt), DEFAULT_PARAMS, blob.value)),
          data := Some(map[]),
          crypto := Some(CryptoState(salt, DEFAULT_PARAMS, Some(key))),
          unlockTime := env.now);
        SaveBoth(ready, env)
  }

  predicate PasswordOpens(password: string, salt: Bytes, params: Argon2Params, blob: Encoded) {
    Open(IdKey(password, salt, params), blob) == Ok(VERIFICATION_MAGIC)
  }

  function Unlock(s: Store, password: string, env: Env): Step {
    if !s.VaultExists() then Step(s, Err(NoSuchVault), [])
    else if !env.metaReadable then Step(s, Err(ReadFailed), [])
    else if s.disk.meta.BadMeta? then Step(s, Err(UnmarshalFailed), [])
    else
      var meta := s.disk.meta.meta;
      var reread := s.(meta := Some(meta));
      var salt := ChooseSalt(meta.salt, env.salt);
      if salt.Err? then Step(reread, Err(salt.error), [])
      else if !PasswordOpens(password, salt.value, meta.params, meta.verification)
      then Step(reread, Err(InvalidPassword), [])
      else
        var key := IdKey(password, salt.value, meta.params);
        var loaded := if !env.dataReadable && !s.disk.data.NoData? then Err(ReadFailed) else LoadedSecrets(s.disk.data);
        match loaded
        case Err(e) => Step(reread.(crypto := None, unlockTime := env.now), Err(e), [])
        case Ok(secrets) =>
          Step(reread.(
                 crypto := Some(CryptoState(salt.value, meta.params, Some(key))),
                 data := Some(secrets),
                 unlockTime := env.now),
               Ok(Unit), [])
  }

  function Lock(s: Store, env: Env): Step {
    if s.crypto.None? then Step(s, Ok(Unit), [])
    else
      var saved := if s.dirty then SaveData(s, env.dataWrite) else Step(s, Ok(Unit), []);
      if saved.result.Err? then saved
      else saved.(store := saved.store.(crypto := None, data := None, dirty := false))
  }

  /** `Set` and `Delete` end the same way: mark dirty, then save when `autoSave` is on. */
  function Commit(s: Store, secrets: map<string, Encoded>, env: Env): Step {
    var changed := s.(data := Some(secrets), dirty := true);
    if s.autoSave then SaveData(changed, env.dataWrite) else Step(changed, Ok(Unit), [])
  }

  function Set(s: Store, path: string, secret: Secret, env: Env): Step
    requires s.Valid()
  {
    if s.IsLocked() then Step(s, Err(VaultLocked), [])
    else
      var stamped := secret.Stamp(env.now);
      if !stamped.Marshals() then Step(s, Err(MarshalFailed), [])
      else
        var encrypted := EncryptWith(s.crypto.value.key.value, MarshalSecret(stamped), env.nonce);
        if encrypted.Err? then Step(s, Err(encrypted.error), [])
        else Commit(s, s.data.value[path := encrypted.value], env)
  }

  function Delete(s: Store, path: string, env: Env): Step
    requires s.Valid()
  {
    if s.IsLocked() then Step(s, Err(VaultLocked), [])
    else Commit(s, s.data.value - {path}, env)
  }

  function Get(s: Store, path: string): Result<Secret>
    requires s.Valid()
  {
    if s.IsLocked() then Err(VaultLocked)
    else if path !in s.data.value then Err(SecretNotFound)
    else ReadEntry(s.crypto.value.key.value, s.data.value[path])
  }

  function ReadEntry(key: Bytes, entry: Encoded): Result<Secret> {
    var plaintext := Open(key, entry);
    if plaintext.Err? then Err(plaintext.error) else UnmarshalSecret(plaintext.value)
  }

  function Exists(s: Store, path: string): Result<bool>
    requires s.Valid()
  {
    if s.IsLocked() then Err(VaultLocked) else Ok(path in s.data.value)
  }

  ghost function List(s: Store, prefix: string): Result<seq<string>>
    requires s.Valid()
  {
    if s.IsLocked() then Err(VaultLocked)
    else Ok(Text.SortedKeys(set p | p in s.data.value && (prefix == "" || Text.HasPrefix(p, prefix))))
  }

  function SecretCount(s: Store): nat {
    if s.data.None? then 0 else |s.data.value|
  }

  /** The re-encryption loop after it has gone through `order`. */
  function Reencrypt(order: seq<string>, secrets: map<string, Encoded>, key: Bytes, newKey: Bytes,
                     renonce: string -> Option<Nonce>): Result<map<string, Encoded>>
    requires forall p :: p in order ==> p in secrets
  {
    if order == [] then Ok(map[])
    else
      var last := |order| - 1;
      var path := order[last];
      var before := Reencrypt(order[..last], secrets, key, newKey, renonce);
      if before.Err? then before
      else
        var plaintext := Open(key, secrets[path]);
        if plaintext.Err? then Err(plaintext.error)
        else
          var again := EncryptWith(newKey, plaintext.value, renonce(path));
          if again.Err? then Err(again.error)
          else Ok(before.value[path := again.value])
  }

  /** `order` is the order in which `range` happens to yield the paths. */
  ghost predicate Ranges<T>(order: seq<string>, m: map<string, T>) {
    Text.NoDuplicates(order) && forall p :: p in order <==> p in m
  }

  function ChangePassword(s: Store, oldPassword: string, newPassword: string, env: Env, order: seq<string>): Step
    requires s.Valid() && s.crypto.Some?
    requires Ranges(order, s.data.value)
  {
    var crypto := s.crypto.value;
    if !PasswordOpens(oldPassword, crypto.salt, crypto.params, s.meta.value.verification)
    then Step(s, Err(InvalidPassword), [])
    else if env.salt.None? then Step(s, Err(RandomFailed), [])
    else
      var salt := env.salt.value;
      var key := IdKey(newPassword, salt, DEFAULT_PARAMS);
      var blob := EncryptWith(key, VERIFICATION_MAGIC, env.nonce);
      if blob.Err? then Step(s, Err(blob.error), [])
      else
        var again := Reencrypt(order, s.data.value, crypto.key.value, key, env.renonce);
        if again.Err? then Step(s, Err(again.error), [])
        else
          var switched := s.(
            meta := Some(s.meta.value.(salt := Some(salt), params := DEFAULT_PARAMS, verification := blob.value)),
            data := Some(again.value),
            crypto := Some(CryptoState(salt, DEFAULT_PARAMS, Some(key))));
          SaveBoth(switched, env)
  }
}
