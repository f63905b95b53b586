/**
 The operations the vault takes from libraries, as ideal symbolic operations: Argon2id
 (section 3 of RFC 9106) derives key bytes that remember what they were derived from, AES-GCM
 (sections 7.1 and 7.2 of NIST SP 800-38D) seals a box that only its own key and nonce open,
 base64 (section 4 of RFC 4648) and JSON are inverse pairs.
 */
module Primitives {
  import opened Secrets

  datatype Argon2Params = Argon2Params(time: nat, memory: nat, threads: nat, keyLen: nat)

  /** A piece of wire data. A `Box` stands for the output of `Seal`, a `JsonDoc` for a marshalled secret. */
  datatype Atom =
    | Literal(c: char)
    | KeyByte(password: string, salt: seq<Atom>, params: Argon2Params, index: nat)
    | Box(key: seq<Atom>, nonce: seq<Atom>, plaintext: seq<Atom>)
    | JsonDoc(secret: Secret)

  type Bytes = seq<Atom>

  /** Text stored where base64 is expected. */
  datatype Encoded = Base64(bytes: Bytes) | NotBase64(text: string)

  datatype Error =
    | AlreadyExists
    | NoSuchVault
    | VaultLocked
    | SecretNotFound
    | InvalidPassword
    | RandomFailed
    | SaltTooShort
    | BadEncoding
    | BadKeySize
    | CiphertextTooShort
    | AuthenticationFailed
    | MarshalFailed
    | UnmarshalFailed
    | ReadFailed
    | WriteFailed
    | InvalidPattern

  datatype Result<+T> = Ok(value: T) | Err(error: Error)

  datatype Unit = Unit

  const ZERO := Literal('\0')
  const NONCE_SIZE: nat := 12
  const SALT_SIZE: nat := 32
  const MIN_SALT_SIZE: nat := 16
  const DEFAULT_PARAMS := Argon2Params(3, 65536, 4, 32)
  const VERIFICATION_MAGIC := Ascii("omnivault-v1")

  /** What `rand.Read` leaves in a nonce or salt buffer. */
  type Nonce = b: Bytes | |b| == NONCE_SIZE witness seq(NONCE_SIZE, _ => ZERO)
  type Salt = b: Bytes | |b| == SALT_SIZE witness seq(SALT_SIZE, _ => ZERO)

  function Ascii(s: string): Bytes {
    seq(|s|, i requires 0 <= i < |s| => Literal(s[i]))
  }

  function IdKey(password: string, salt: Bytes, params: Argon2Params): (key: Bytes)
    ensures |key| == params.keyLen
  {
    seq(params.keyLen, i requires 0 <= i < params.keyLen => KeyByte(password, salt, params, i))
  }

  /** Two derived keys agree only when password, salt and parameters do. */
  lemma DerivedKeysDiffer(p: string, q: string, salt: Bytes, otherSalt: Bytes,
                          params: Argon2Params, other: Argon2Params)
    requires params.keyLen > 0
    ensures IdKey(p, salt, params) == IdKey(q, otherSalt, other) <==> p == q && salt == otherSalt && params == other
  {
    if IdKey(p, salt, params) == IdKey(q, otherSalt, other) {
      assert IdKey(p, salt, params)[0] == IdKey(q, otherSalt, other)[0];
    }
  }

  predicate AesKeySize(n: nat) {
    n == 16 || n == 24 || n == 32
  }

  /** Nonce, then box, then base64. */
  function Seal(key: Bytes, nonce: Bytes, plaintext: Bytes): Encoded {
    Base64(nonce + [Box(key, nonce, plaintext)])
  }

  function Open(key: Bytes, encoded: Encoded): Result<Bytes> {
    match encoded
    case NotBase64(_) => Err(BadEncoding)
    case Base64(bytes) =>
      if !AesKeySize(|key|) then Err(BadKeySize)
      else if |bytes| < NONCE_SIZE then Err(CiphertextTooShort)
      else
        var box := bytes[NONCE_SIZE..];
        if |box| == 1 && box[0].Box? && box[0].key == key && box[0].nonce == bytes[..NONCE_SIZE]
        then Ok(box[0].plaintext)
        else Err(AuthenticationFailed)
  }

  /** The only key that opens a sealed text is the one that sealed it, and it gives the plaintext back. */
  lemma OpenUndoesSeal(key: Bytes, other: Bytes, nonce: Nonce, plaintext: Bytes)
    requires AesKeySize(|other|)
    ensures Open(other, Seal(key, nonce, plaintext)) ==
            if other == key then Ok(plaintext) else Err(AuthenticationFailed)
  {
    var bytes := nonce + [Box(key, nonce, plaintext)];
    assert bytes[..NONCE_SIZE] == nonce && bytes[NONCE_SIZE..] == [Box(key, nonce, plaintext)];
  }

  function MarshalSecret(s: Secret): Bytes {
    [JsonDoc(s)]
  }

  function UnmarshalSecret(b: Bytes): Result<Secret> {
    if |b| == 1 && b[0].JsonDoc? then Ok(b[0].secret.Norm()) else Err(UnmarshalFailed)
  }
}
