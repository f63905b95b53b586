/** Secrets as objects: what is shared when a Go struct is copied (`vault/types.go`). */
module SecretObjects {
  import opened Secrets

  /** A Go map, which assignments share. */
  class StringMap {
    var entries: map<string, string>

    constructor ()
      ensures entries == map[]
    {
      entries := map[];
    }
  }

  class ExtraMap {
    var entries: map<string, ExtraValue>
  }

  class Timestamp {
    var at: Instant

    constructor (at: Instant)
      ensures this.at == at
    {
      this.at := at;
    }
  }

  /** The names `GetField` and `SetField` take for the main value. */
  predicate IsMainField(name: string) {
    name == "" || name == "value"
  }

  class SecretObject {
    var value: string
    var valueBytes: array?<Byte>
    var fields: StringMap?
    var tags: StringMap?
    var labels: array?<string>
    var createdAt: Timestamp?
    var modifiedAt: Timestamp?
    var expiresAt: Timestamp?
    var extra: ExtraMap?
    var version: string
    var provider: string
    var path: string

    constructor (value: string, valueBytes: array?<Byte>, fields: StringMap?, tags: StringMap?, labels: array?<string>,
                 version: string, provider: string, path: string, createdAt: Timestamp?, modifiedAt: Timestamp?,
                 expiresAt: Timestamp?, extra: ExtraMap?)
      ensures this.value == value && this.valueBytes == valueBytes && this.fields == fields && this.tags == tags
      ensures this.labels == labels && this.version == version && this.provider == provider && this.path == path
      ensures this.createdAt == createdAt && this.modifiedAt == modifiedAt
      ensures this.expiresAt == expiresAt && this.extra == extra
    {
      this.value, this.valueBytes, this.fields, this.tags := value, valueBytes, fields, tags;
      this.labels, this.version, this.provider, this.path := labels, version, provider, path;
      this.createdAt, this.modifiedAt, this.expiresAt, this.extra := createdAt, modifiedAt, expiresAt, extra;
    }

    /** What `GetField` returns. */
    ghost function Field(name: string): string
      reads this, fields
    {
      if IsMainField(name) then value
      else if fields != null && name in fields.entries then fields.entries[name]
      else ""
    }

    method GetField(name: string) returns (v: string)
      ensures v == Field(name)
    {
      if name == "" || name == "value" {
        return value;
      }
      if fields != null && name in fields.entries {
        return fields.entries[name];
      }
      return "";
    }

    /** Changes one field in place, and with it every secret that shares the map. */
    method SetField(name: string, v: string)
      modifies this`value, this`fields, fields
      ensures forall m :: Field(m) == if m == name || (IsMainField(m) && IsMainField(name)) then v else old(Field(m))
      ensures old(fields) != null ==> fields == old(fields)
      ensures old(fields) == null && fields != null ==> fresh(fields)
    {
      if name == "" || name == "value" {
        value := v;
        return;
      }
      if fields == null {
        fields := new StringMap();
      }
      fields.entries := fields.entries[name := v];
    }

    method SetCreated(created: Timestamp)
      modifies this`createdAt
      ensures createdAt == created && Parts() == old(Parts()) && Looks() == old(Looks())
    {
      createdAt := created;
    }

    method SetStamp(modified: Timestamp, provider: string, path: string)
      modifies this`modifiedAt, this`provider, this`path
      ensures modifiedAt == modified && Parts() == old(Parts())
      ensures Looks() == old(Looks()).(provider := provider, path := path)
    {
      this.modifiedAt, this.provider, this.path := modified, provider, path;
    }

    /** The bytes, fields, tags and labels behind this secret. */
    ghost function Parts(): set<object>
      reads this
    {
      (if valueBytes == null then {} else {valueBytes}) +
      (if fields == null then {} else {fields}) +
      (if tags == null then {} else {tags}) +
      (if labels == null then {} else {labels})
    }

    ghost predicate MadeFrom(objects: set<object>)
      reads this
    {
      && (valueBytes != null ==> valueBytes in objects)
      && (fields != null ==> fields in objects)
      && (tags != null ==> tags in objects)
      && (labels != null ==> labels in objects)
    }

    ghost function Looks(): Look
      reads this, valueBytes, fields, tags, labels
    {
      Look(value,
           BytesOf(valueBytes),
           EntriesOf(fields),
           EntriesOf(tags),
           LabelsOf(labels),
           version,
           provider,
           path)
    }
  }

  ghost function BytesOf(bytes: array?<Byte>): seq<Byte>
    reads bytes
  {
    if bytes == null then [] else bytes[..]
  }

  ghost function EntriesOf(m: StringMap?): Option<map<string, string>>
    reads m
  {
    if m == null then None else Some(m.entries)
  }

  ghost function LabelsOf(labels: array?<string>): Option<seq<string>>
    reads labels
  {
    if labels == null then None else Some(labels[..])
  }

  /** What a reader of a secret sees of it. */
  datatype Look = Look(
    value: string,
    bytes: seq<Byte>,
    fields: Option<map<string, string>>,
    tags: Option<map<string, string>>,
    labels: Option<seq<string>>,
    version: string,
    provider: string,
    path: string)
}
