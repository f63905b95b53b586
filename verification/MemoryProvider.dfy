/** The in-memory provider, `providers/memory/memory.go`: who owns which objects. */
module MemoryProvider {
  import opened Secrets
  import opened SecretObjects
  import Text

  datatype Error = Closed | SecretNotFound
  datatype Result<+T> = Ok(value: T) | Err(error: Error)

  /** Copies a Go map key by key, in any order; nil stays nil. */
  method CopyMap(source: StringMap?) returns (copied: StringMap?)
    ensures copied != null ==> fresh(copied)
    ensures EntriesOf(copied) == EntriesOf(source)
  {
    if source == null {
      return null;
    }
    var target := new StringMap();
    var remaining := source.entries.Keys;
    while remaining != {}
      invariant remaining <= source.entries.Keys
      invariant target.entries == map k | k in source.entries && k !in remaining :: source.entries[k]
      decreases remaining
    {
      var k :| k in remaining;
      target.entries := target.entries[k := source.entries[k]];
      remaining := remaining - {k};
    }
    assert target.entries == source.entries;
    copied := target;
  }

  /** Copies bytes; empty becomes nil. */
  method CopyBytes(source: array?<Byte>) returns (copied: array?<Byte>)
    ensures copied != null ==> fresh(copied)
    ensures BytesOf(copied) == BytesOf(source)
  {
    if source == null || source.Length == 0 {
      return null;
    }
    copied := new Byte[source.Length](i requires 0 <= i < source.Length reads source => source[i]);
  }

  method CopyLabels(source: array?<string>) returns (copied: array?<string>)
    ensures copied != null ==> fresh(copied)
    ensures LabelsOf(copied) == LabelsOf(source)
  {
    if source == null {
      return null;
    }
    copied := new string[source.Length](i requires 0 <= i < source.Length reads source => source[i]);
    assert copied[..] == source[..];
  }

  class Provider {
    var secrets: map<string, SecretObject>
    var closed: bool
    /** The objects the store holds, and what they are made of. */
    ghost var owned: set<object>
    /** Everything a client holds: what it passed to `Set` and what `Get` returned. */
    ghost var outside: set<object>

    /** What each stored secret looks like. */
    ghost var contents: map<string, Look>

    /** The store owns its secrets and all their parts, and no client holds any of them. */
    ghost predicate Valid()
      reads this, owned
    {
      && owned !! outside && this !in owned && this !in outside
      && contents.Keys == secrets.Keys
      && (forall p :: p in secrets ==> secrets[p] in owned)
      && (forall p :: p in secrets ==> secrets[p].MadeFrom(owned))
      && (forall p :: p in secrets ==> secrets[p].Looks() == contents[p])
    }

    constructor ()
      ensures Valid() && contents == map[] && !closed && outside == {}
    {
      secrets, contents := map[], map[];
      closed := false;
      owned, outside := {}, {};
    }

    /** A copy that shares none of the parts; all three timestamps and `Extra` are the same objects. */
    method CopySecret(secret: SecretObject) returns (copied: SecretObject)
      ensures fresh(copied) && fresh(copied.Parts())
      ensures copied.Looks() == secret.Looks()
      ensures copied.createdAt == secret.createdAt && copied.modifiedAt == secret.modifiedAt
      ensures copied.expiresAt == secret.expiresAt && copied.extra == secret.extra
    {
      var bytes := CopyBytes(secret.valueBytes);
      var fields := CopyMap(secret.fields);
      var tags := CopyMap(secret.tags);
      var labels := CopyLabels(secret.labels);
      copied := new SecretObject(secret.value, bytes, fields, tags, labels, secret.version, secret.provider,
                                 secret.path, secret.createdAt, secret.modifiedAt, secret.expiresAt, secret.extra);
    }

    method Get(path: string) returns (r: Result<SecretObject>)
      requires Valid()
      modifies this`outside
      ensures Valid() && contents == old(contents) && closed == old(closed)
      ensures match r
              case Err(Closed) => closed
              case Err(SecretNotFound) => !closed && path !in contents
              case Ok(secret) =>
                && !closed && path in contents && secret.Looks() == contents[path]
                && fresh(secret) && fresh(secret.Parts())
      ensures outside == old(outside) + if r.Ok? then {r.value} + r.value.Parts() else {}
    {
      if closed {
        return Err(Closed);
      }
      if path !in secrets {
        return Err(SecretNotFound);
      }
      var copied := CopySecret(secrets[path]);
      HandOut({copied} + copied.Parts());
      return Ok(copied);
    }

    /**
     Stores a copy made of fresh parts. Its creation time is the caller's own object, or else a new
     one; its modification time is always a new one; expiry and `Extra` stay shared with the caller.
     */
    method Set(path: string, secret: SecretObject, now: Instant) returns (r: Result<()>)
      requires Valid() && secret !in owned && secret.Parts() !! owned && this !in secret.Parts()
      modifies this`secrets, this`contents, this`owned, this`outside
      ensures fresh(owned - old(owned))
      ensures Valid() && closed == old(closed)
      ensures r == if closed then Err(Closed) else Ok(())
      ensures outside == old(outside) + ({secret} + old(secret.Parts()))
      ensures contents == if closed then old(contents)
                            else old(contents)[path := old(secret.Looks()).(provider := "memory", path := path)]
      ensures closed ==> secrets == old(secrets)
      ensures !closed ==>
                && path in secrets && fresh(secrets[path]) && secrets == old(secrets)[path := secrets[path]]
                && StampedFrom(secrets[path], secret, now)
                && (secret.createdAt == null ==> fresh(secrets[path].createdAt)) && fresh(secrets[path].modifiedAt)
    {
      ghost var look := secret.Looks().(provider := "memory", path := path);
      HandOut({secret} + secret.Parts());
      if closed {
        return Err(Closed);
      }
      var stored := StampedCopy(path, secret, now);
      assert stored.Looks() == look;
      Own({stored} + stored.Parts());
      Put(path, stored, look);
      return Ok(());
    }

    /** The times of a stored secret, and what it shares with the one it was copied from. */
    ghost predicate StampedFrom(stored: SecretObject, secret: SecretObject, now: Instant)
      reads stored, secret, stored.createdAt, stored.modifiedAt
    {
      && stored.createdAt != null && stored.modifiedAt != null
      && (if secret.createdAt != null then stored.createdAt == secret.createdAt else stored.createdAt.at == now)
      && stored.modifiedAt.at == now
      && stored.expiresAt == secret.expiresAt && stored.extra == secret.extra
    }

    ghost method HandOut(objects: set<object>)
      requires Valid() && objects !! owned && this !in objects
      modifies this`outside
      ensures Valid() && outside == old(outside) + objects
    {
      outside := outside + objects;
    }

    /** A missing creation time is filled in. */
    method FillCreated(stored: SecretObject, now: Instant)
      modifies stored`createdAt
      ensures stored.createdAt != null && stored.Parts() == old(stored.Parts()) && stored.Looks() == old(stored.Looks())
      ensures old(stored.createdAt) != null ==> stored.createdAt == old(stored.createdAt)
      ensures old(stored.createdAt) == null ==> fresh(stored.createdAt) && stored.createdAt.at == now
    {
      if stored.createdAt == null {
        var created := new Timestamp(now);
        stored.SetCreated(created);
      }
    }

    /** The copy `Set` stores: timestamps filled in, provider and path its own. */
    method StampedCopy(path: string, secret: SecretObject, now: Instant) returns (stored: SecretObject)
      ensures fresh(stored) && fresh(stored.Parts())
      ensures stored.Looks() == secret.Looks().(provider := "memory", path := path)
      ensures StampedFrom(stored, secret, now)
      ensures (secret.createdAt == null ==> fresh(stored.createdAt)) && fresh(stored.modifiedAt)
    {
      stored := CopySecret(secret);
      FillCreated(stored, now);
      var modified := new Timestamp(now);
      stored.SetStamp(modified, "memory", path);
    }

    ghost method Own(more: set<object>)
      requires Valid() && more !! outside && this !in more
      modifies this`owned
      ensures Valid() && owned == old(owned) + more
    {
      owned := owned + more;
    }

    method Put(path: string, stored: SecretObject, ghost look: Look)
      requires Valid() && stored in owned && stored.MadeFrom(owned) && stored.Looks() == look
      modifies this`secrets, this`contents
      ensures Valid() && contents == old(contents)[path := look] && secrets == old(secrets)[path := stored]
    {
      contents := contents[path := look];
      secrets := secrets[path := stored];
    }

    method Delete(path: string) returns (r: Result<()>)
      requires Valid()
      modifies this`secrets, this`contents
      ensures Valid() && closed == old(closed) && outside == old(outside)
      ensures r == if closed then Err(Closed) else Ok(())
      ensures contents == if closed then old(contents) else old(contents) - {path}
    {
      if closed {
        return Err(Closed);
      }
      secrets, contents := secrets - {path}, contents - {path};
      return Ok(());
    }

    /** Unsorted, in whatever order the map yields its keys. */
    method List(prefix: string) returns (r: Result<seq<string>>)
      requires Valid()
      ensures closed ==> r == Err(Closed)
      ensures !closed ==> r.Ok? && Text.NoDuplicates(r.value)
                          && forall p :: p in r.value <==> p in contents && Text.HasPrefix(p, prefix)
    {
      if closed {
        return Err(Closed);
      }
      var results: seq<string> := [];
      var remaining := secrets.Keys;
      while remaining != {}
        invariant remaining <= secrets.Keys
        invariant Text.NoDuplicates(results)
        invariant forall p :: p in results <==> p in secrets && p !in remaining && Text.HasPrefix(p, prefix)
        decreases remaining
      {
        var p :| p in remaining;
        remaining := remaining - {p};
        if Text.HasPrefix(p, prefix) {
          results := results + [p];
        }
      }
      return Ok(results);
    }

    method Close()
      requires Valid()
      modifies this`secrets, this`contents, this`closed
      ensures Valid() && closed && contents == map[] && outside == old(outside)
    {
      closed := true;
      secrets, contents := map[], map[];
    }

    /** Clearing does not reopen a closed provider. */
    method Clear()
      requires Valid()
      modifies this`secrets, this`contents
      ensures Valid() && closed == old(closed) && contents == map[] && outside == old(outside)
    {
      secrets, contents := map[], map[];
    }

    /**
     Clients may change anything the store does not own: the secrets they passed to `Set` and got from
     `Get` with all their parts, and whatever else they have or make. The store reads as before.
     */
    twostate lemma ClientsCannotReachIn(touched: set<object>)
      requires old(Valid()) && touched !! old(owned) && this !in touched
      requires forall o :: o in old(owned) ==> old(allocated(o))
      requires forall o: object :: old(allocated(o)) && o !in touched ==> unchanged(o)
      ensures Valid() && contents == old(contents)
      ensures old(outside) !! old(owned) && this !in old(outside)
    {
      assert forall o :: o in owned ==> unchanged(o);
    }
  }
}
