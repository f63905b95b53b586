/** Secrets and what a JSON round trip keeps of them (`vault/types.go`). */
module Secrets {

  datatype Option<+T> = None | Some(value: T)

  /** An instant in nanoseconds since the zero `time.Time`. */
  type Instant = int

  const NANOS_PER_SECOND := 1_000_000_000
  const ZERO_TIME: Instant := 0

  type Byte = b: int | 0 <= b < 256

  /** A value of `Metadata.Extra`: its JSON text, or something JSON cannot express. */
  datatype ExtraValue = Encodable(json: string) | Unencodable

  datatype Metadata = Metadata(
    createdAt: Option<Instant>,
    modifiedAt: Option<Instant>,
    expiresAt: Option<Instant>,
    version: string,
    tags: Option<map<string, string>>,
    labels: Option<seq<string>>,
    provider: string,
    path: string,
    extra: Option<map<string, ExtraValue>>)

  datatype Secret = Secret(
    value: string,
    valueBytes: Option<seq<Byte>>,
    fields: Option<map<string, string>>,
    metadata: Metadata)
  {
    function Field(name: string): string {
      if name == "" || name == "value" then value
      else if fields.Some? && name in fields.value then fields.value[name]
      else ""
    }

    function Reveal(): string {
      if valueBytes.Some? && |valueBytes.value| > 0 then BytesToString(valueBytes.value) else value
    }

    /** What `Set` writes into the metadata before it serializes. */
    function Stamp(now: Instant): Secret {
      var created := if metadata.createdAt.None? then Some(now) else metadata.createdAt;
      this.(metadata := metadata.(createdAt := created, modifiedAt := Some(now)))
    }

    /** `json.Marshal` succeeds. */
    predicate Marshals() {
      metadata.extra.Some? ==>
        forall k :: k in metadata.extra.value ==> metadata.extra.value[k].Encodable?
    }

    /** What is left after `json.Marshal` and `json.Unmarshal`: whole seconds, and nil for empty. */
    function Norm(): Secret {
      Secret(
        value,
        DropEmptySeq(valueBytes),
        DropEmptyMap(fields),
        metadata.(
          createdAt := MapOption(metadata.createdAt, WholeSeconds),
          modifiedAt := MapOption(metadata.modifiedAt, WholeSeconds),
          expiresAt := MapOption(metadata.expiresAt, WholeSeconds),
          tags := DropEmptyMap(metadata.tags),
          labels := DropEmptySeq(metadata.labels),
          extra := DropEmptyMap(metadata.extra)))
    }

    /** Normalizing again changes nothing, and no reader of a secret can tell it happened. */
    lemma NormIsInvisible()
      ensures Norm().Norm() == Norm()
      ensures Norm().Reveal() == Reveal()
      ensures forall name :: Norm().Field(name) == Field(name)
      ensures Marshals() ==> Norm().Marshals()
    {
    }
  }

  /** `t` is when `u` was, given to the second. */
  predicate ToTheSecond(t: Instant, u: Instant) {
    t <= u < t + NANOS_PER_SECOND && t % NANOS_PER_SECOND == 0
  }

  /** The same, with an empty map or slice come back as none. */
  predicate SameUpToEmpty<T(==)>(read: Option<T>, written: Option<T>, empty: T) {
    if written == Some(empty) then read.None? else read == written
  }

  /** `after` is `before` with its times filled in: a creation time if it had none, and a modification time. */
  predicate TimesFilledIn(before: Secret, after: Secret, now: Instant) {
    && after.value == before.value && after.valueBytes == before.valueBytes && after.fields == before.fields
    && after.metadata.createdAt == (if before.metadata.createdAt.Some? then before.metadata.createdAt else Some(now))
    && after.metadata.modifiedAt == Some(now)
    && after.metadata.expiresAt == before.metadata.expiresAt
    && after.metadata.version == before.metadata.version
    && after.metadata.tags == before.metadata.tags && after.metadata.labels == before.metadata.labels
    && after.metadata.provider == before.metadata.provider && after.metadata.path == before.metadata.path
    && after.metadata.extra == before.metadata.extra
  }

  /** What is read of a secret that was written at `now`. */
  ghost predicate ReadBack(read: Secret, written: Secret, now: Instant) {
    var r, w := read.metadata, written.metadata;
    && read.value == written.value
    && SameUpToEmpty(read.valueBytes, written.valueBytes, [])
    && SameUpToEmpty(read.fields, written.fields, map[])
    && SameUpToEmpty(r.tags, w.tags, map[])
    && SameUpToEmpty(r.labels, w.labels, [])
    && SameUpToEmpty(r.extra, w.extra, map[])
    && r.version == w.version && r.provider == w.provider && r.path == w.path
    && (if w.expiresAt.None? then r.expiresAt.None?
        else r.expiresAt.Some? && ToTheSecond(r.expiresAt.value, w.expiresAt.value))
    && r.createdAt.Some?
    && ToTheSecond(r.createdAt.value, if w.createdAt.Some? then w.createdAt.value else now)
    && r.modifiedAt.Some? && ToTheSecond(r.modifiedAt.value, now)
    && read.Reveal() == written.Reveal()
    && forall name :: read.Field(name) == written.Field(name)
  }

  /** Stamping a secret and sending it through JSON loses no more than fractions of seconds and emptiness. */
  lemma StampedIsReadBack(written: Secret, now: Instant)
    ensures TimesFilledIn(written, written.Stamp(now), now)
    ensures ReadBack(written.Stamp(now).Norm(), written, now)
  {
    written.Stamp(now).NormIsInvisible();
    assert written.Stamp(now).Reveal() == written.Reveal();
  }

  function BytesToString(bytes: seq<Byte>): string {
    seq(|bytes|, i requires 0 <= i < |bytes| => bytes[i] as char)
  }

  /** RFC 3339 without a fraction, section 5.6. */
  function WholeSeconds(t: Instant): Instant {
    t - t % NANOS_PER_SECOND
  }

  function MapOption<T, U>(o: Option<T>, f: T -> U): Option<U> {
    match o case None => None case Some(v) => Some(f(v))
  }

  function DropEmptyMap<V>(m: Option<map<string, V>>): Option<map<string, V>> {
    if m.Some? && |m.value| == 0 then None else m
  }

  function DropEmptySeq<T>(s: Option<seq<T>>): Option<seq<T>> {
    if s.Some? && |s.value| == 0 then None else s
  }
}
