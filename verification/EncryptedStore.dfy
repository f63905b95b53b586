/** `internal/store/encrypted.go` on the heap: one object per store, one per key owner, one for the two files. */
module EncryptedStoreObject {
  import opened Secrets
  import opened Primitives
  import opened CryptoObject
  import Spec = StoreSpec
  import opened StoreSpec
  import StoreRefinement
  import Text

  /** The two files; `trail` remembers the disk after each write. */
  class Files {
    var meta: MetaFile
    var data: DataFile
    ghost var trail: seq<Disk>

    constructor (meta: MetaFile, data: DataFile)
      ensures Content() == Disk(meta, data) && trail == []
    {
      this.meta := meta;
      this.data := data;
      this.trail := [];
    }

    ghost function Content(): Disk
      reads this
    {
      Disk(meta, data)
    }

    method WriteMeta(content: VaultMeta, w: Write<MetaFile>) returns (ok: bool)
      modifies this
      ensures ok == w.Written?
      ensures Content() == old(Content()).(meta := if ok then MetaJson(content) else w.left)
      ensures trail == old(trail) + [Content()]
    {
      ok := w.Written?;
      meta := if ok then MetaJson(content) else w.left;
      trail := trail + [Content()];
    }

    method WriteData(content: Option<map<string, Encoded>>, w: Write<DataFile>) returns (ok: bool)
      modifies this
      ensures ok == w.Written?
      ensures Content() == old(Content()).(data := if ok then DataJson(content) else w.left)
      ensures trail == old(trail) + [Content()]
    {
      ok := w.Written?;
      data := if ok then DataJson(content) else w.left;
      trail := trail + [Content()];
    }
  }

  /** A secret that callers hold by reference: whoever holds it sees what `Set` writes into it. */
  class SecretCell {
    var secret: Secret

    constructor (secret: Secret)
      ensures this.secret == secret
    {
      this.secret := secret;
    }

    method Stamp(now: Instant)
      modifies this
      ensures secret == old(secret).Stamp(now) && TimesFilledIn(old(secret), secret, now)
    {
      if secret.metadata.createdAt.None? {
        secret := secret.(metadata := secret.metadata.(createdAt := Some(now)));
      }
      secret := secret.(metadata := secret.metadata.(modifiedAt := Some(now)));
    }
  }

  /** A loop that has failed on part of the map fails the same way for any order of the rest. */
  lemma {:induction false} FailurePersists(done: seq<string>, rest: seq<string>, secrets: map<string, Encoded>,
                                           key: Bytes, newKey: Bytes, renonce: string -> Option<Nonce>)
    requires forall p :: p in done + rest ==> p in secrets
    requires forall p :: p in done ==> p in secrets
    requires Reencrypt(done, secrets, key, newKey, renonce).Err?
    ensures Reencrypt(done + rest, secrets, key, newKey, renonce) == Reencrypt(done, secrets, key, newKey, renonce)
  {
    if rest == [] {
      assert done + rest == done;
    } else {
      var last := |rest| - 1;
      assert (done + rest)[..|done + rest| - 1] == done + rest[..last];
      FailurePersists(done, rest[..last], secrets, key, newKey, renonce);
    }
  }

  /** Finishes an iteration order after a failure. */
  lemma Complete(done: seq<string>, remaining: set<string>, secrets: map<string, Encoded>,
                 key: Bytes, newKey: Bytes, renonce: string -> Option<Nonce>) returns (order: seq<string>)
    requires Text.NoDuplicates(done) && remaining <= secrets.Keys
    requires forall p :: p in done <==> p in secrets && p !in remaining
    requires Reencrypt(done, secrets, key, newKey, renonce).Err?
    ensures Ranges(order, secrets)
    ensures Reencrypt(order, secrets, key, newKey, renonce) == Reencrypt(done, secrets, key, newKey, renonce)
  {
    var rest := Text.SortedKeys(remaining);
    Text.ListingHasNoDuplicates(rest);
    order := done + rest;
    forall i, j | 0 <= i < j < |order| ensures order[i] != order[j] {
      assert j >= |done| ==> order[j] in rest;
      assert i < |done| ==> order[i] in done;
    }
    FailurePersists(done, rest, secrets, key, newKey, renonce);
  }

  /** The same paths, and each entry opens under its key to what the other opens to under its own. */
  ghost predicate SamePlaintexts(newKey: Bytes, again: map<string, Encoded>,
                                 key: Bytes, entries: map<string, Encoded>)
  {
    && again.Keys == entries.Keys
    && forall p :: p in again ==> Open(newKey, again[p]).Ok? && Open(newKey, again[p]) == Open(key, entries[p])
  }

  lemma SamePlaintextsAgain(order: seq<string>, entries: map<string, Encoded>, key: Bytes, newKey: Bytes,
                            renonce: string -> Option<Nonce>)
    requires Ranges(order, entries) && AesKeySize(|newKey|)
    requires Reencrypt(order, entries, key, newKey, renonce).Ok?
    ensures SamePlaintexts(newKey, Reencrypt(order, entries, key, newKey, renonce).value, key, entries)
  {
    StoreRefinement.ReencryptKeepsPlaintexts(order, entries, key, newKey, renonce);
    var again := Reencrypt(order, entries, key, newKey, renonce).value;
    assert again.Keys == entries.Keys;
    assert forall p :: p in again ==> p in order;
  }

  class EncryptedStore {
    const files: Files
    var crypto: Crypto?
    var meta: Option<VaultMeta>
    var data: Option<map<string, Encoded>>
    var dirty: bool
    var autoSave: bool
    var unlockTime: Instant

    /** The objects the store owns; nobody else reaches them. */
    ghost function Repr(): set<object>
      reads this, crypto
    {
      {this, files} + if crypto == null then {} else if crypto.key == null then {crypto} else {crypto, crypto.key}
    }

    ghost function CryptoView(): Option<CryptoState>
      reads this, crypto, if crypto == null then null else crypto.key
    {
      if crypto == null then None else Some(CryptoState(crypto.salt, crypto.params, crypto.Key()))
    }

    ghost function View(): Store
      reads this, files, crypto, if crypto == null then null else crypto.key
    {
      Store(CryptoView(), meta, data, dirty, autoSave, unlockTime, files.Content())
    }

    ghost predicate Valid()
      reads this, files, crypto, if crypto == null then null else crypto.key
    {
      View().Valid()
    }

    constructor (files: Files)
      ensures Valid() && this.files == files
      ensures View() == NewStore(true, files.Content())
    {
      this.files := files;
      this.crypto := null;
      this.meta := None;
      this.data := None;
      this.dirty := false;
      this.autoSave := true;
      this.unlockTime := ZERO_TIME;
    }

    predicate Locked()
      reads this, crypto
    {
      crypto == null || !crypto.IsUnlocked()
    }

    method SaveMeta(w: Write<MetaFile>) returns (r: Result<Unit>)
      requires meta.Some?
      modifies files
      ensures View() == Spec.SaveMeta(old(View()), w).store && r == Spec.SaveMeta(old(View()), w).result
      ensures files.trail == old(files.trail) + Spec.SaveMeta(old(View()), w).trail
    {
      var ok := files.WriteMeta(meta.value, w);
      r := if ok then Ok(Unit) else Err(WriteFailed);
    }

    method SaveData(w: Write<DataFile>) returns (r: Result<Unit>)
      modifies this`dirty, files
      ensures View() == Spec.SaveData(old(View()), w).store && r == Spec.SaveData(old(View()), w).result
      ensures files.trail == old(files.trail) + Spec.SaveData(old(View()), w).trail
    {
      var ok := files.WriteData(data, w);
      if !ok {
        return Err(WriteFailed);
      }
      dirty := false;
      return Ok(Unit);
    }

    /** A crypto object on a new random salt, unlocked with the password, and its verification blob. */
    static method KeyedCrypto(password: string, env: Env) returns (r: Result<(Crypto, Encoded)>)
      ensures if env.salt.None? then r == Err(RandomFailed)
              else
                var key := IdKey(password, env.salt.value, DEFAULT_PARAMS);
                match EncryptWith(key, VERIFICATION_MAGIC, env.nonce)
                case Err(e) => r == Err(e)
                case Ok(blob) =>
                  && r.Ok? && fresh(r.value.0) && r.value.0.key != null && fresh(r.value.0.key)
                  && r.value.0.salt == env.salt.value && r.value.0.params == DEFAULT_PARAMS
                  && r.value.0.key[..] == key && r.value.1 == blob
    {
      var made := NewCrypto(None, DEFAULT_PARAMS, env.salt);
      if made.Err? {
        return Err(made.error);
      }
      var newCrypto := made.value;
      newCrypto.Unlock(password);
      var verification := newCrypto.Encrypt(VERIFICATION_MAGIC, env.nonce);
      if verification.Err? {
        newCrypto.Lock();
        return Err(verification.error);
      }
      return Ok((newCrypto, verification.value));
    }

    method Initialize(password: string, env: Env) returns (r: Result<Unit>)
      requires Valid()
      modifies this, files
      ensures Valid() && fresh(Repr() - old(Repr()))
      ensures View() == Spec.Initialize(old(View()), password, env).store
      ensures r == Spec.Initialize(old(View()), password, env).result
      ensures files.trail == old(files.trail) + Spec.Initialize(old(View()), password, env).trail
    {
      if !files.meta.NoMeta? {
        return Err(AlreadyExists);
      }
      var made := KeyedCrypto(password, env);
      if made.Err? {
        return Err(made.error);
      }
      var (newCrypto, verification) := made.value;
      meta := Some(VaultMeta(1, env.now, Some(newCrypto.salt), newCrypto.params, verification));
      data := Some(map[]);
      crypto := newCrypto;
      unlockTime := env.now;
      r := SaveAll(env);
    }

    /** Metadata first, then data. */
    method SaveAll(env: Env) returns (r: Result<Unit>)
      requires meta.Some?
      modifies this`dirty, files
      ensures var step := SaveBoth(old(View()), env);
              View() == step.store && r == step.result && files.trail == old(files.trail) + step.trail
    {
      r := SaveMeta(env.metaWrite);
      if r.Ok? {
        r := SaveData(env.dataWrite);
      }
    }

    /** A crypto object that the password unlocks, for the given metadata. */
    method CheckPassword(password: string, meta: VaultMeta, env: Env) returns (r: Result<Crypto>)
      ensures match ChooseSalt(meta.salt, env.salt)
              case Err(e) => r == Err(e)
              case Ok(salt) =>
                if !PasswordOpens(password, salt, meta.params, meta.verification) then r == Err(InvalidPassword)
                else r.Ok? && fresh(r.value) && r.value.key != null && fresh(r.value.key)
                     && r.value.salt == salt && r.value.params == meta.params
                     && r.value.Key() == Some(IdKey(password, salt, meta.params))
    {
      var made := NewCrypto(meta.salt, meta.params, env.salt);
      if made.Err? {
        return Err(made.error);
      }
      var newCrypto := made.value;
      var verified, _ := newCrypto.VerifyPassword(password, meta.verification);
      if !verified {
        return Err(InvalidPassword);
      }
      newCrypto.Unlock(password);
      return Ok(newCrypto);
    }

    method LoadData(readable: bool) returns (r: Result<Unit>)
      modifies this`data
      ensures var loaded := if !readable && !files.data.NoData? then Err(ReadFailed) else LoadedSecrets(files.data);
              match loaded
              case Ok(secrets) => r == Ok(Unit) && data == Some(secrets)
              case Err(e) => r == Err(e) && data == old(data)
    {
      match files.data
      case NoData =>
        data := Some(map[]);
        r := Ok(Unit);
      case BadData =>
        r := Err(if readable then UnmarshalFailed else ReadFailed);
      case DataJson(secrets) =>
        if !readable {
          return Err(ReadFailed);
        }
        data := if secrets.None? then Some(map[]) else secrets;
        r := Ok(Unit);
    }

    method Unlock(password: string, env: Env) returns (r: Result<Unit>)
      requires Valid()
      modifies this
      ensures Valid() && fresh(Repr() - old(Repr()))
      ensures View() == Spec.Unlock(old(View()), password, env).store
      ensures r == Spec.Unlock(old(View()), password, env).result
    {
      if files.meta.NoMeta? {
        return Err(NoSuchVault);
      }
      if !env.metaReadable {
        return Err(ReadFailed);
      }
      if files.meta.BadMeta? {
        return Err(UnmarshalFailed);
      }
      meta := Some(files.meta.meta);
      var checked := CheckPassword(password, meta.value, env);
      if checked.Err? {
        return Err(checked.error);
      }
      var newCrypto := checked.value;
      crypto := newCrypto;
      unlockTime := env.now;
      r := LoadData(env.dataReadable);
      if r.Err? {
        newCrypto.Lock();
        crypto := null;
      }
    }

    /** Locking zeroes the key array the store held. A failed save leaves everything in place. */
    method Lock(env: Env) returns (r: Result<Unit>)
      requires Valid()
      modifies Repr()
      ensures Valid() && Repr() <= old(Repr())
      ensures View() == Spec.Lock(old(View()), env).store && r == Spec.Lock(old(View()), env).result
      ensures files.trail == old(files.trail) + Spec.Lock(old(View()), env).trail
      ensures r.Ok? && old(crypto) != null ==> AllZero(old(crypto.key)[..])
    {
      if crypto == null {
        return Ok(Unit);
      }
      if dirty {
        r := SaveData(env.dataWrite);
        if r.Err? {
          return;
        }
      }
      crypto.Lock();
      crypto := null;
      data := None;
      dirty := false;
      return Ok(Unit);
    }

    method Get(path: string) returns (r: Result<Secret>)
      requires Valid()
      ensures r == Spec.Get(View(), path)
    {
      if Locked() {
        return Err(VaultLocked);
      }
      if path !in data.value {
        return Err(SecretNotFound);
      }
      var plaintext := crypto.Decrypt(data.value[path]);
      if plaintext.Err? {
        return Err(plaintext.error);
      }
      return UnmarshalSecret(plaintext.value);
    }

    /** The caller's secret is stamped in place, even if the store then refuses it; not when locked. */
    method Set(path: string, cell: SecretCell, env: Env) returns (r: Result<Unit>)
      requires Valid()
      modifies this`data, this`dirty, files, cell
      ensures Valid() && Repr() == old(Repr())
      ensures View() == Spec.Set(old(View()), path, old(cell.secret), env).store
      ensures r == Spec.Set(old(View()), path, old(cell.secret), env).result
      ensures files.trail == old(files.trail) + Spec.Set(old(View()), path, old(cell.secret), env).trail
      ensures old(View()).IsLocked() ==> cell.secret == old(cell.secret)
      ensures !old(View()).IsLocked() ==> TimesFilledIn(old(cell.secret), cell.secret, env.now)
    {
      if Locked() {
        return Err(VaultLocked);
      }
      cell.Stamp(env.now);
      if !cell.secret.Marshals() {
        return Err(MarshalFailed);
      }
      var encrypted := crypto.Encrypt(MarshalSecret(cell.secret), env.nonce);
      if encrypted.Err? {
        return Err(encrypted.error);
      }
      data := Some(data.value[path := encrypted.value]);
      dirty := true;
      r := Ok(Unit);
      if autoSave {
        r := SaveData(env.dataWrite);
      }
    }

    method Delete(path: string, env: Env) returns (r: Result<Unit>)
      requires Valid()
      modifies this`data, this`dirty, files
      ensures Valid() && Repr() == old(Repr())
      ensures View() == Spec.Delete(old(View()), path, env).store
      ensures r == Spec.Delete(old(View()), path, env).result
      ensures files.trail == old(files.trail) + Spec.Delete(old(View()), path, env).trail
    {
      if Locked() {
        return Err(VaultLocked);
      }
      data := Some(data.value - {path});
      dirty := true;
      r := Ok(Unit);
      if autoSave {
        r := SaveData(env.dataWrite);
      }
    }

    method Exists(path: string) returns (r: Result<bool>)
      requires Valid()
      ensures r == Spec.Exists(View(), path)
    {
      if Locked() {
        return Err(VaultLocked);
      }
      return Ok(path in data.value);
    }

    /** Collects the matching keys in the map's own order, then sorts them. */
    method List(prefix: string) returns (r: Result<seq<string>>)
      requires Valid()
      ensures r == Spec.List(View(), prefix)
    {
      if Locked() {
        return Err(VaultLocked);
      }
      var matching := set p | p in data.value && (prefix == "" || Text.HasPrefix(p, prefix));
      var paths := Text.CollectSorted(matching);
      return Ok(paths);
    }

    method SecretCount() returns (n: nat)
      ensures n == Spec.SecretCount(View())
    {
      n := if data.None? then 0 else |data.value|;
    }

    /**
     Re-encrypts every entry in whatever order the map yields them. Once the new key is in place
     the old key array is all zeros and the new key opens every entry to what the old key opened it
     to; every earlier exit leaves the old one untouched.
     */
    method ChangePassword(oldPassword: string, newPassword: string, env: Env)
      returns (r: Result<Unit>, ghost order: seq<string>)
      requires Valid() && crypto != null
      modifies Repr()
      ensures Valid() && fresh(Repr() - old(Repr()))
      ensures Ranges(order, old(View()).data.value)
      ensures View() == Spec.ChangePassword(old(View()), oldPassword, newPassword, env, order).store
      ensures r == Spec.ChangePassword(old(View()), oldPassword, newPassword, env, order).result
      ensures files.trail == old(files.trail)
                           + Spec.ChangePassword(old(View()), oldPassword, newPassword, env, order).trail
      ensures crypto == old(crypto) ==> crypto.key == old(crypto.key) && crypto.key[..] == old(crypto.key[..])
      ensures crypto != old(crypto) ==> fresh(crypto) && fresh(crypto.key) && AllZero(old(crypto.key)[..])
      ensures r.Ok? ==> crypto != old(crypto)
      ensures crypto != old(crypto) ==>
                data.Some? && SamePlaintexts(crypto.key[..], data.value, old(crypto.key[..]), old(data).value)
    {
      order := Text.SortedKeys(data.value.Keys);
      Text.ListingHasNoDuplicates(order);
      var made := NewCryptoFor(oldPassword, newPassword, env);
      if made.Err? {
        return Err(made.error), order;
      }
      var (newCrypto, verification) := made.value;
      r, order := MoveTo(newCrypto, verification, env);
    }

    /** The beginning: checks the old password and makes the new crypto object and its verification blob. */
    method NewCryptoFor(oldPassword: string, newPassword: string, env: Env) returns (r: Result<(Crypto, Encoded)>)
      requires Valid() && crypto != null
      ensures if !PasswordOpens(oldPassword, crypto.salt, crypto.params, meta.value.verification)
              then r == Err(InvalidPassword)
              else if env.salt.None? then r == Err(RandomFailed)
              else if env.nonce.None? then r == Err(RandomFailed)
              else
                var key := IdKey(newPassword, env.salt.value, DEFAULT_PARAMS);
                && r.Ok? && fresh(r.value.0) && r.value.0.key != null && fresh(r.value.0.key)
                && r.value.0.salt == env.salt.value && r.value.0.params == DEFAULT_PARAMS
                && r.value.0.key[..] == key && r.value.1 == Seal(key, env.nonce.value, VERIFICATION_MAGIC)
    {
      var verified, _ := crypto.VerifyPassword(oldPassword, meta.value.verification);
      if !verified {
        return Err(InvalidPassword);
      }
      r := KeyedCrypto(newPassword, env);
    }

    /** Re-encrypts everything under the new key and switches to it; the new key is zeroed if that fails. */
    method MoveTo(newCrypto: Crypto, verification: Encoded, env: Env)
      returns (r: Result<Unit>, ghost order: seq<string>)
      requires Valid() && crypto != null
      requires newCrypto.key != null && newCrypto !in Repr() && newCrypto.key !in Repr()
      requires AesKeySize(newCrypto.key.Length)
      modifies Repr(), newCrypto, newCrypto.key
      ensures Ranges(order, old(data).value)
      ensures var again := Reencrypt(order, old(data).value, old(crypto.key[..]), old(newCrypto.key[..]), env.renonce);
              match again
              case Err(e) =>
                && View() == old(View()) && r == Err(e) && files.trail == old(files.trail)
                && crypto == old(crypto) && crypto.key == old(crypto.key)
              case Ok(secrets) =>
                && var switched := Switched(old(View()), newCrypto, old(newCrypto.key[..]), verification, secrets);
                && var step := SaveBoth(switched, env);
                && View() == step.store && r == step.result && files.trail == old(files.trail) + step.trail
                && crypto == newCrypto && crypto.key == old(newCrypto.key) && AllZero(old(crypto.key)[..])
                && data.Some? && SamePlaintexts(crypto.key[..], data.value, old(crypto.key[..]), old(data).value)
    {
      var again;
      again, order := ReencryptAll(newCrypto, env.renonce);
      if again.Err? {
        newCrypto.Lock();
        return Err(again.error), order;
      }
      r := SwitchTo(newCrypto, verification, again.value, env);
    }

    /** The store with new metadata, new entries and a new key, before it is saved. */
    ghost function Switched(s: Store, newCrypto: Crypto, key: Bytes, verification: Encoded,
                            secrets: map<string, Encoded>): Store
      requires s.meta.Some?
    {
      s.(meta := Some(s.meta.value.(
                        salt := Some(newCrypto.salt), params := newCrypto.params, verification := verification)),
         data := Some(secrets),
         crypto := Some(CryptoState(newCrypto.salt, newCrypto.params, Some(key))))
    }

    /** The end of `ChangePassword`: new metadata, new entries, old key zeroed, both files saved. */
    method SwitchTo(newCrypto: Crypto, verification: Encoded, secrets: map<string, Encoded>, env: Env)
      returns (r: Result<Unit>)
      requires Valid() && crypto != null
      requires newCrypto.key != null && newCrypto != crypto && newCrypto.key != crypto.key
      requires SamePlaintexts(newCrypto.key[..], secrets, crypto.key[..], data.value)
      modifies this, files, crypto, crypto.key
      ensures crypto == newCrypto && newCrypto.key == old(newCrypto.key)
      ensures AllZero(old(crypto.key)[..])
      ensures data.Some? && SamePlaintexts(crypto.key[..], data.value, old(crypto.key[..]), old(data).value)
      ensures var switched := Switched(old(View()), newCrypto, old(newCrypto.key[..]), verification, secrets);
              var step := SaveBoth(switched, env);
              View() == step.store && r == step.result && files.trail == old(files.trail) + step.trail
    {
      meta := Some(meta.value.(salt := Some(newCrypto.salt), params := newCrypto.params, verification := verification));
      data := Some(secrets);
      crypto.Lock();
      crypto := newCrypto;
      assert crypto.key[..] == old(newCrypto.key[..]);
      r := SaveAll(env);
    }

    /** The loop of `ChangePassword`. */
    method ReencryptAll(newCrypto: Crypto, renonce: string -> Option<Nonce>)
      returns (r: Result<map<string, Encoded>>, ghost order: seq<string>)
      requires Valid() && crypto != null && newCrypto.key != null && AesKeySize(newCrypto.key.Length)
      ensures Ranges(order, data.value)
      ensures r == Reencrypt(order, data.value, crypto.key[..], newCrypto.key[..], renonce)
      ensures r.Ok? ==> SamePlaintexts(newCrypto.key[..], r.value, crypto.key[..], data.value)
    {
      var remaining := data.value.Keys;
      var newSecrets: map<string, Encoded> := map[];
      order := [];
      while remaining != {}
        invariant remaining <= data.value.Keys
        invariant Text.NoDuplicates(order)
        invariant forall p :: p in order <==> p in data.value && p !in remaining
        invariant Ok(newSecrets) == Reencrypt(order, data.value, crypto.key[..], newCrypto.key[..], renonce)
        decreases remaining
      {
        var path :| path in remaining;
        remaining := remaining - {path};
        ghost var done := order;
        order := order + [path];
        assert order[..|done|] == done;
        var plaintext := crypto.Decrypt(data.value[path]);
        if plaintext.Err? {
          order := Complete(order, remaining, data.value, crypto.key[..], newCrypto.key[..], renonce);
          return Err(plaintext.error), order;
        }
        var sealed := newCrypto.Encrypt(plaintext.value, renonce(path));
        if sealed.Err? {
          order := Complete(order, remaining, data.value, crypto.key[..], newCrypto.key[..], renonce);
          return Err(sealed.error), order;
        }
        newSecrets := newSecrets[path := sealed.value];
      }
      r := Ok(newSecrets);
      SamePlaintextsAgain(order, data.value, crypto.key[..], newCrypto.key[..], renonce);
    }
  }
}
