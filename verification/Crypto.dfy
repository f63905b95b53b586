/** `internal/store/crypto.go`: the object that owns the derived key. */
module CryptoObject {
  import opened Secrets
  import opened Primitives

  ghost predicate AllZero(key: Bytes) {
    forall i :: 0 <= i < |key| ==> key[i] == ZERO
  }

  /** Overwrites a key buffer. */
  method Zeroize(key: array<Atom>)
    modifies key
    ensures AllZero(key[..])
  {
    for i := 0 to key.Length
      invariant AllZero(key[..i])
    {
      key[i] := ZERO;
      assert key[..i + 1] == key[..i] + [ZERO];
    }
    assert key[..] == key[..key.Length];
  }

  class Crypto {
    const params: Argon2Params
    const salt: Bytes
    var key: array?<Atom>

    constructor (salt: Bytes, params: Argon2Params)
      ensures this.salt == salt && this.params == params && key == null
    {
      this.salt := salt;
      this.params := params;
      this.key := null;
    }

    /** The key in use; none while locked. */
    ghost function Key(): Option<Bytes>
      reads this, key
    {
      if key == null then None else Some(key[..])
    }

    predicate IsUnlocked()
      reads this
    {
      key != null
    }

    method DeriveKey(password: string) returns (derived: array<Atom>)
      ensures fresh(derived)
      ensures derived[..] == IdKey(password, salt, params)
    {
      var bytes := IdKey(password, salt, params);
      derived := new Atom[|bytes|](i requires 0 <= i < |bytes| => bytes[i]);
    }

    method Unlock(password: string)
      modifies this`key
      ensures key != null && fresh(key)
      ensures Key() == Some(IdKey(password, salt, params))
    {
      key := DeriveKey(password);
    }

    /** Zeroes the whole key array, and no other, before dropping it. */
    method Lock()
      modifies this`key, key
      ensures key == null
      ensures old(key) != null ==> AllZero(old(key)[..])
    {
      if key != null {
        Zeroize(key);
        key := null;
      }
    }

    method Encrypt(plaintext: Bytes, random: Option<Nonce>) returns (r: Result<Encoded>)
      ensures r == if Key().None? then Err(VaultLocked)
                   else if !AesKeySize(|Key().value|) then Err(BadKeySize)
                   else if random.None? then Err(RandomFailed)
                   else Ok(Seal(Key().value, random.value, plaintext))
    {
      if key == null {
        return Err(VaultLocked);
      }
      if !AesKeySize(key.Length) {
        return Err(BadKeySize);
      }
      if random.None? {
        return Err(RandomFailed);
      }
      return Ok(Seal(key[..], random.value, plaintext));
    }

    method Decrypt(encoded: Encoded) returns (r: Result<Bytes>)
      ensures r == if Key().None? then Err(VaultLocked) else Open(Key().value, encoded)
    {
      if key == null {
        return Err(VaultLocked);
      }
      return Open(key[..], encoded);
    }

    /** Works on its own derived array, which it zeroes; the key in use is not touched. */
    method VerifyPassword(password: string, blob: Encoded) returns (ok: bool, ghost scratch: array<Atom>)
      ensures ok <==> Open(IdKey(password, salt, params), blob) == Ok(VERIFICATION_MAGIC)
      ensures fresh(scratch) && scratch.Length == params.keyLen && AllZero(scratch[..])
    {
      var derived := DeriveKey(password);
      scratch := derived;
      var plaintext := Open(derived[..], blob);
      ok := plaintext == Ok(VERIFICATION_MAGIC);
      Zeroize(derived);
    }
  }

  /** `NewCrypto`: a missing salt is drawn at random, a short one refused. */
  method NewCrypto(salt: Option<Bytes>, params: Argon2Params, random: Option<Salt>) returns (r: Result<Crypto>)
    ensures match ChooseSalt(salt, random)
            case Err(e) => r == Err(e)
            case Ok(chosen) =>
              r.Ok? && fresh(r.value) && r.value.salt == chosen && r.value.params == params && r.value.key == null
  {
    var chosen: Bytes;
    if salt.None? {
      if random.None? {
        return Err(RandomFailed);
      }
      chosen := random.value;
    } else {
      chosen := salt.value;
    }
    if |chosen| < MIN_SALT_SIZE {
      return Err(SaltTooShort);
    }
    var crypto := new Crypto(chosen, params);
    return Ok(crypto);
  }

  function ChooseSalt(salt: Option<Bytes>, random: Option<Salt>): Result<Bytes> {
    match salt
    case None => if random.None? then Err(RandomFailed) else Ok(random.value)
    case Some(s) => if |s| < MIN_SALT_SIZE then Err(SaltTooShort) else Ok(s)
  }
}
