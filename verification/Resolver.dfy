/** `resolver.go`: routing references to providers, one at a time and by the map. */
module ResolverObject {
  import opened Secrets
  import opened References

  /** What a provider's `Get` returns; a nil secret without an error is possible. */
  datatype Lookup = Hit(secret: Secret) | NilHit | Miss(reason: string)

  /** A provider while it does not change. */
  datatype Provider = Provider(get: string -> Lookup)

  datatype Error = InvalidReference | NotRegistered(scheme: string) | ProviderFailed(reason: string)

  /** `Panic` is the nil dereference in `Reveal`. */
  datatype Outcome<+T> = Ok(value: T) | Err(error: Error) | Panic

  type Providers = map<string, Provider>

  function ResolvedSecret(providers: Providers, uri: string): Outcome<Option<Secret>> {
    var scheme := SchemeOf(uri);
    if scheme == "" then Err(InvalidReference)
    else if scheme !in providers then Err(NotRegistered(scheme))
    else match providers[scheme].get(PathOf(uri))
      case Miss(reason) => Err(ProviderFailed(reason))
      case NilHit => Ok(None)
      case Hit(secret) =>
        var fragment := FragmentOf(uri);
        if fragment == "" then Ok(Some(secret))
        else Ok(Some(Secret(secret.Field(fragment), None, None, secret.metadata)))
  }

  function Resolved(providers: Providers, uri: string): Outcome<string> {
    match ResolvedSecret(providers, uri)
    case Ok(Some(secret)) => Ok(secret.Reveal())
    case Ok(None) => Panic
    case Err(e) => Err(e)
    case Panic => Panic
  }

  predicate LooksLikeReference(s: string) {
    SchemeOf(s) != "" && |s| > |SchemeOf(s)| + 3
  }

  function ResolvedString(providers: Providers, s: string): Outcome<string> {
    if LooksLikeReference(s) then Resolved(providers, s) else Ok(s)
  }

  class Resolver {
    var providers: Providers

    constructor ()
      ensures providers == map[]
    {
      providers := map[];
    }

    method Register(scheme: string, v: Provider)
      modifies this
      ensures providers == old(providers)[scheme := v]
    {
      providers := providers[scheme := v];
    }

    method Unregister(scheme: string)
      modifies this
      ensures providers == old(providers) - {scheme}
    {
      providers := providers - {scheme};
    }

    method ResolveSecret(uri: string) returns (r: Outcome<Option<Secret>>)
      ensures r == ResolvedSecret(providers, uri)
    {
      var scheme := Scheme(uri);
      if scheme == "" {
        return Err(InvalidReference);
      }
      if scheme !in providers {
        return Err(NotRegistered(scheme));
      }
      var path := Path(uri);
      var found := providers[scheme].get(path);
      if found.Miss? {
        return Err(ProviderFailed(found.reason));
      }
      var fragment := Fragment(uri);
      if fragment != "" && found.Hit? {
        return Ok(Some(Secret(found.secret.Field(fragment), None, None, found.secret.metadata)));
      }
      return Ok(if found.Hit? then Some(found.secret) else None);
    }

    method Resolve(uri: string) returns (r: Outcome<string>)
      ensures r == Resolved(providers, uri)
    {
      var secret := ResolveSecret(uri);
      match secret
      case Err(e) => return Err(e);
      case Panic => return Panic;
      case Ok(None) => return Panic;
      case Ok(Some(x)) => return Ok(x.Reveal());
    }

    method ResolveString(s: string) returns (r: Outcome<string>)
      ensures r == ResolvedString(providers, s)
    {
      var scheme := Scheme(s);
      if !(scheme != "" && |s| > |scheme| + 3) {
        return Ok(s);
      }
      r := Resolve(s);
    }

    /** All or nothing: a result for every reference, or the failure of the first that fails. */
    method ResolveAll(uris: seq<string>) returns (r: Outcome<map<string, string>>)
      ensures r.Ok? <==> forall u :: u in uris ==> Resolved(providers, u).Ok?
      ensures r.Ok? ==> (forall u :: u in r.value <==> u in uris)
                        && forall u :: u in uris ==> Resolved(providers, u) == Ok(r.value[u])
      ensures r.Err? ==> exists i :: 0 <= i < |uris| && Resolved(providers, uris[i]) == Err(r.error)
                                     && forall j :: 0 <= j < i ==> Resolved(providers, uris[j]).Ok?
    {
      var results: map<string, string> := map[];
      for i := 0 to |uris|
        invariant forall u :: u in results <==> u in uris[..i]
        invariant forall u :: u in results ==> Resolved(providers, u) == Ok(results[u])
        invariant forall j :: 0 <= j < i ==> Resolved(providers, uris[j]).Ok?
      {
        var value := Resolve(uris[i]);
        if value.Err? {
          return Err(value.error);
        }
        if value.Panic? {
          return Panic;
        }
        results := results[uris[i] := value.value];
        assert uris[..i + 1] == uris[..i] + [uris[i]];
      }
      assert uris[..|uris|] == uris;
      return Ok(results);
    }

    /** All or nothing, whatever order the map yields its keys in. */
    method ResolveMap(m: map<string, string>) returns (r: Outcome<map<string, string>>)
      ensures r.Ok? <==> forall k :: k in m ==> ResolvedString(providers, m[k]).Ok?
      ensures r.Ok? ==> r.value.Keys == m.Keys
                        && forall k :: k in m ==> ResolvedString(providers, m[k]) == Ok(r.value[k])
      ensures r.Err? ==> exists k :: k in m && ResolvedString(providers, m[k]) == Err(r.error)
    {
      var result: map<string, string> := map[];
      var remaining := m.Keys;
      while remaining != {}
        invariant remaining <= m.Keys
        invariant result.Keys == m.Keys - remaining
        invariant forall k :: k in result ==> ResolvedString(providers, m[k]) == Ok(result[k])
        decreases remaining
      {
        var k :| k in remaining;
        remaining := remaining - {k};
        var value := ResolveString(m[k]);
        if value.Err? {
          return Err(value.error);
        }
        if value.Panic? {
          return Panic;
        }
        result := result[k := value.value];
      }
      return Ok(result);
    }
  }

  /** What `Reveal` gives: the bytes as text if there are any, else the value. */
  predicate Reveals(secret: Secret, text: string) {
    if secret.valueBytes.Some? && secret.valueBytes.value != [] then
      && |text| == |secret.valueBytes.value|
      && forall i :: 0 <= i < |text| ==> text[i] == secret.valueBytes.value[i] as char
    else text == secret.value
  }

  /** What a fragment picks: the value for `value`, else the field of that name, else nothing. */
  predicate Picks(secret: Secret, fragment: string, text: string) {
    if fragment == "value" then text == secret.value
    else if secret.fields.Some? && fragment in secret.fields.value then text == secret.fields.value[fragment]
    else text == ""
  }

  /** A well-formed reference resolves to the field its fragment names, or to the secret's value. */
  lemma ReferenceResolves(providers: Providers, scheme: string, path: string, fragment: Option<string>)
    requires scheme != "" && Free(scheme, ':') && Free(path, '#')
    requires if fragment.Some? then Free(fragment.value, '#') else Free(scheme, '#')
    ensures Resolved(providers, Reference(scheme, path, fragment)) ==
            if scheme !in providers then Err(NotRegistered(scheme))
            else match providers[scheme].get(path)
              case Miss(reason) => Err(ProviderFailed(reason))
              case NilHit => Panic
              case Hit(secret) =>
                Ok(if fragment == None || fragment == Some("") then secret.Reveal() else secret.Field(fragment.value))
    ensures scheme in providers && providers[scheme].get(path).Hit? ==>
              var secret := providers[scheme].get(path).secret;
              var uri := Reference(scheme, path, fragment);
              && Resolved(providers, uri).Ok?
              && if fragment == None || fragment == Some("")
                 then Reveals(secret, Resolved(providers, uri).value)
                      && ResolvedSecret(providers, uri) == Ok(Some(secret))
                 else Picks(secret, fragment.value, Resolved(providers, uri).value)
                      && ResolvedSecret(providers, uri).Ok? && ResolvedSecret(providers, uri).value.Some?
                      && ResolvedSecret(providers, uri).value.value.metadata == secret.metadata
  {
    match fragment
    case None => ReferenceWithoutFragment(scheme, path);
    case Some(f) => ReferenceWithFragment(scheme, path, f);
  }

  /** A string is left alone, whatever the providers, exactly when it has no early colon with room after it. */
  lemma LeftAloneExactly(s: string)
    ensures !LooksLikeReference(s) <==>
            Free(s, ':') || FirstIndex(s, ':') == 0 || |s| <= FirstIndex(s, ':') + 3
    ensures !LooksLikeReference(s) ==> forall providers :: ResolvedString(providers, s) == Ok(s)
    ensures LooksLikeReference(s) ==> ResolvedString(map[], s) == Err(NotRegistered(SchemeOf(s)))
  {
    var i := FirstIndex(s, ':');
    assert Free(s, ':') <==> i == |s|;
  }

  /** So every `host:port` with a port of three digits or more is taken for a reference, and fails. */
  lemma HostPortIsTakenForReference(providers: Providers, host: string, port: string)
    requires host != "" && Free(host, ':') && host !in providers && |port| >= 3
    ensures ResolvedString(providers, host + [':'] + port) == Err(NotRegistered(host))
  {
    var s := host + [':'] + port;
    FirstIndexSplits(host, ':', port);
    assert s[..|host|] == host;
  }
}
