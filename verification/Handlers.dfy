/** The looping handlers of `internal/daemon/server.go`: export, import and search. */
module Handlers {
  import opened Secrets
  import opened Primitives
  import Spec = StoreSpec
  import opened StoreSpec
  import opened EncryptedStoreObject
  import Text

  /** One secret on the wire; a zero `expiresAt` means there is none. */
  datatype ExportedSecret = ExportedSecret(
    path: string,
    value: string,
    fields: Option<map<string, string>>,
    tags: Option<map<string, string>>,
    expiresAt: Instant)

  const NO_METADATA := Metadata(None, None, None, "", None, None, "", "", None)

  /** The secret a PUT request creates. */
  function RequestedSecret(value: string, fields: Option<map<string, string>>, tags: Option<map<string, string>>)
    : Secret
  {
    Secret(value, None, fields, NO_METADATA.(tags := tags))
  }

  /** The secret an import entry creates. */
  function ImportedSecret(e: ExportedSecret): Secret {
    Secret(e.value, None, e.fields,
           NO_METADATA.(tags := e.tags, expiresAt := if e.expiresAt == ZERO_TIME then None else Some(e.expiresAt)))
  }

  function Exported(path: string, secret: Secret): ExportedSecret {
    ExportedSecret(path, secret.Reveal(), secret.fields, secret.metadata.tags,
                   if secret.metadata.expiresAt.Some? then secret.metadata.expiresAt.value else ZERO_TIME)
  }

  // ---------- export ----------

  /** The export loop over the listed paths; a path that cannot be read is left out. */
  function ExportPaths(s: Store, paths: seq<string>): seq<ExportedSecret>
    requires s.Valid()
  {
    if paths == [] then []
    else
      var last := |paths| - 1;
      var before := ExportPaths(s, paths[..last]);
      match Spec.Get(s, paths[last])
      case Ok(secret) => before + [Exported(paths[last], secret)]
      case Err(_) => before
  }

  // ---------- import ----------

  datatype Tally = Tally(store: Store, imported: nat, skipped: nat, errors: nat)

  /** One turn of the import loop; `env` is what its call of `Set` meets. */
  function ImportOne(t: Tally, entry: ExportedSecret, env: Env, merge: bool): (u: Tally)
    requires t.store.Valid()
    ensures u.store.Valid() && (!t.store.IsLocked() ==> !u.store.IsLocked())
  {
    if Spec.Exists(t.store, entry.path) == Ok(true) && merge then t.(skipped := t.skipped + 1)
    else
      var step := Spec.Set(t.store, entry.path, ImportedSecret(entry), env);
      if step.result.Err? then t.(store := step.store, errors := t.errors + 1)
      else t.(store := step.store, imported := t.imported + 1)
  }

  /** The import loop after the given entries. */
  function Import(s: Store, entries: seq<ExportedSecret>, envs: seq<Env>, merge: bool): (t: Tally)
    requires s.Valid() && |envs| == |entries|
    ensures t.store.Valid() && (!s.IsLocked() ==> !t.store.IsLocked())
  {
    if entries == [] then Tally(s, 0, 0, 0)
    else
      var last := |entries| - 1;
      ImportOne(Import(s, entries[..last], envs[..last], merge), entries[last], envs[last], merge)
  }

  // ---------- search ----------

  datatype GlobResult = Matched(yes: bool) | BadPattern

  /** `regexp.Compile` and `filepath.Match` on the request's pattern; none if it does not compile. */
  datatype Query = Regex(compiled: Option<string -> bool>) | Glob(pattern: string, matcher: string -> GlobResult)

  function GlobHit(pattern: string, matcher: string -> GlobResult, path: string): bool {
    match matcher(path)
    case Matched(yes) => yes
    case BadPattern => Text.HasPrefix(path, Text.TrimSuffix(pattern, "*"))
  }

  function Trimmed(pattern: string): string {
    Text.TrimSuffix(Text.TrimPrefix(pattern, "*"), "*")
  }

  function Filter(paths: seq<string>, keep: string -> bool): seq<string> {
    if paths == [] then []
    else
      var last := |paths| - 1;
      Filter(paths[..last], keep) + if keep(paths[last]) then [paths[last]] else []
  }

  /** A filtered listing is the listing of the elements kept. */
  lemma {:induction false} FilterLists(paths: seq<string>, keep: string -> bool, keys: set<string>)
    requires Text.Lists(paths, keys)
    ensures Text.Lists(Filter(paths, keep), set p | p in keys && keep(p))
  {
    if paths != [] {
      var last := |paths| - 1;
      var init := paths[..last];
      assert forall p :: p in paths <==> p in init || p == paths[last];
      Text.ListingHasNoDuplicates(paths);
      FilterLists(init, keep, keys - {paths[last]});
      forall p | p in Filter(init, keep) ensures Text.Less(p, paths[last]) {
        assert p in init;
      }
    }
  }

  /** A bad pattern is taken as a prefix, without its final `*` if it has one. */
  predicate GlobWants(pattern: string, matcher: string -> GlobResult, path: string) {
    match matcher(path)
    case Matched(yes) => yes
    case BadPattern =>
      pattern <= path || (pattern != "" && pattern[|pattern| - 1] == '*' && pattern[..|pattern| - 1] <= path)
  }

  lemma HitsAreWanted(pattern: string, matcher: string -> GlobResult, path: string)
    ensures GlobHit(pattern, matcher, path) == GlobWants(pattern, matcher, path)
  {
    if pattern != "" {
      var last := |pattern| - 1;
      assert pattern[last..] == [pattern[last]];
      assert Text.HasSuffix(pattern, "*") <==> pattern[last] == '*';
      assert pattern <= path ==> pattern[..last] <= path;
    }
  }

  predicate StandsAt(core: string, path: string, i: nat) {
    i + |core| <= |path| && path[i..i + |core|] == core
  }

  /** `core` stands somewhere in `path`. */
  ghost predicate Occurs(core: string, path: string) {
    exists i: nat :: StandsAt(core, path, i)
  }

  /** `core` is the pattern without one star at each end where it has them; a lone star has only one. */
  predicate LosesStars(pattern: string, core: string) {
    var front := if |pattern| > 0 && pattern[0] == '*' then 1 else 0;
    var back := if |pattern| > front && pattern[|pattern| - 1] == '*' then 1 else 0;
    core == pattern[front..|pattern| - back]
  }

  lemma TrimmedLosesStars(pattern: string, core: string)
    ensures LosesStars(pattern, core) <==> core == Trimmed(pattern)
  {
    var front := if |pattern| > 0 && pattern[0] == '*' then 1 else 0;
    assert Text.HasPrefix(pattern, "*") <==> front == 1;
    var rest := Text.TrimPrefix(pattern, "*");
    assert rest == pattern[front..];
    if rest != "" {
      assert rest[|rest| - 1..] == [rest[|rest| - 1]];
      assert Text.HasSuffix(rest, "*") <==> pattern[|pattern| - 1] == '*';
      assert rest[..|rest| - 1] == pattern[front..|pattern| - 1];
    }
  }

  lemma {:induction false} ContainsIsOccurs(path: string, core: string)
    ensures Text.Contains(path, core) <==> Occurs(core, path)
  {
    assert core <= path <==> StandsAt(core, path, 0);
    if path != "" {
      ContainsIsOccurs(path[1..], core);
      forall i: nat ensures StandsAt(core, path[1..], i) <==> StandsAt(core, path, i + 1) {
        if i + 1 + |core| <= |path| {
          assert path[1..][i..i + |core|] == path[i + 1..i + 1 + |core|];
        }
      }
      if i: nat :| StandsAt(core, path, i) {
        assert i > 0 ==> StandsAt(core, path[1..], i - 1);
      }
    } else if i: nat :| StandsAt(core, path, i) {
      assert i == 0;
    }
  }

  predicate StarAtAnEnd(s: string) {
    s != "" && (s[0] == '*' || s[|s| - 1] == '*')
  }

  /**
     Patterns that look for `core` when nothing matches them: with or without a star at each end. Of more
     stars one at each end is taken off.
   */
  lemma StarsAroundCore(core: string, any: string)
    ensures !StarAtAnEnd(core) ==>
              LosesStars(core, core) && LosesStars("*" + core, core)
              && LosesStars(core + "*", core) && LosesStars("*" + core + "*", core)
    ensures LosesStars("**" + any + "**", "*" + any + "*")
  {
    var more := "**" + any + "**";
    assert more[0] == '*' && more[|more| - 1] == '*';
    assert more[1..|more| - 1] == "*" + any + "*";
    var front, back, both := "*" + core, core + "*", "*" + core + "*";
    assert front[1..|front|] == core && back[0..|back| - 1] == core && both[1..|both| - 1] == core;
    assert core[0..|core|] == core;
    if core == "" {
      assert back == "*" && both == "**" && both[1..1] == "";
    } else {
      assert front[|front| - 1] == core[|core| - 1] && back[0] == core[0];
    }
  }

  /** The paths a search is for: glob hits, or if there are none at all, paths with the pattern's core in them. */
  ghost predicate Wanted(q: Query, keys: set<string>, path: string) {
    match q
    case Regex(compiled) => compiled.Some? && compiled.value(path)
    case Glob(pattern, matcher) =>
      if exists other :: other in keys && GlobWants(pattern, matcher, other)
      then GlobWants(pattern, matcher, path)
      else LooksFor(pattern, path)
  }

  /** The pattern's core occurs in the path. */
  ghost predicate LooksFor(pattern: string, path: string) {
    exists core :: LosesStars(pattern, core) && Occurs(core, path)
  }

  lemma FallbackIsWanted(pattern: string, path: string)
    ensures Text.Contains(path, Trimmed(pattern)) <==> LooksFor(pattern, path)
  {
    ContainsIsOccurs(path, Trimmed(pattern));
    TrimmedLosesStars(pattern, Trimmed(pattern));
    forall core | LosesStars(pattern, core) ensures core == Trimmed(pattern) {
      TrimmedLosesStars(pattern, core);
    }
  }

  /** What a search answers, given the listing of all paths. */
  function Matches(q: Query, all: seq<string>): Result<seq<string>> {
    match q
    case Regex(compiled) => if compiled.None? then Err(InvalidPattern) else Ok(Filter(all, compiled.value))
    case Glob(pattern, matcher) =>
      var hits := Filter(all, path => GlobHit(pattern, matcher, path));
      if hits != [] then Ok(hits) else Ok(Filter(all, path => Text.Contains(path, Trimmed(pattern))))
  }

  /** It is the sorted listing of the wanted paths. */
  lemma MatchesAreWanted(q: Query, all: seq<string>, keys: set<string>)
    requires Text.Lists(all, keys)
    ensures if q.Regex? && q.compiled.None? then Matches(q, all) == Err(InvalidPattern)
            else Matches(q, all).Ok? && Text.Lists(Matches(q, all).value, set p | p in keys && Wanted(q, keys, p))
  {
    match q
    case Regex(compiled) => {
      if compiled.Some? {
        FilterLists(all, compiled.value, keys);
        assert (set p | p in keys && Wanted(q, keys, p)) == set p | p in keys && compiled.value(p);
      }
    }
    case Glob(pattern, matcher) => GlobMatchesAreWanted(pattern, matcher, all, keys);
  }

  lemma GlobMatchesAreWanted(pattern: string, matcher: string -> GlobResult, all: seq<string>, keys: set<string>)
    requires Text.Lists(all, keys)
    ensures var q := Glob(pattern, matcher);
            Matches(q, all).Ok? && Text.Lists(Matches(q, all).value, set p | p in keys && Wanted(q, keys, p))
  {
    var q := Glob(pattern, matcher);
    var hit := path => GlobHit(pattern, matcher, path);
    var hits := Filter(all, hit);
    FilterLists(all, hit, keys);
    forall p ensures hit(p) == GlobWants(pattern, matcher, p) {
      HitsAreWanted(pattern, matcher, p);
    }
    if hits == [] {
      assert forall p :: p in keys && hit(p) ==> p in hits;
      var contains := path => Text.Contains(path, Trimmed(pattern));
      FilterLists(all, contains, keys);
      forall p ensures contains(p) == LooksFor(pattern, p) {
        FallbackIsWanted(pattern, p);
      }
      assert (set p | p in keys && Wanted(q, keys, p)) == set p | p in keys && contains(p);
    } else {
      assert hits[0] in hits && hit(hits[0]);
      assert (set p | p in keys && Wanted(q, keys, p)) == set p | p in keys && hit(p);
    }
  }

  class Server {
    const store: EncryptedStore

    constructor (store: EncryptedStore)
      ensures this.store == store
    {
      this.store := store;
    }

    /** PUT on one secret. */
    method HandleSet(path: string, value: string, fields: Option<map<string, string>>,
                     tags: Option<map<string, string>>, env: Env)
      returns (r: Result<Unit>)
      requires store.Valid()
      modifies store`data, store`dirty, store.files
      ensures store.Valid()
      ensures store.View() == Spec.Set(old(store.View()), path, RequestedSecret(value, fields, tags), env).store
      ensures r == Spec.Set(old(store.View()), path, RequestedSecret(value, fields, tags), env).result
    {
      if store.Locked() {
        return Err(VaultLocked);
      }
      var secret := new SecretCell(RequestedSecret(value, fields, tags));
      r := store.Set(path, secret, env);
    }

    method HandleExport(prefix: string) returns (r: Result<seq<ExportedSecret>>)
      requires store.Valid()
      ensures r == match Spec.List(store.View(), prefix)
                   case Err(e) => Err(e)
                   case Ok(paths) => Ok(ExportPaths(store.View(), paths))
    {
      if store.Locked() {
        return Err(VaultLocked);
      }
      var listed := store.List(prefix);
      if listed.Err? {
        return Err(listed.error);
      }
      var paths := listed.value;
      var secrets: seq<ExportedSecret> := [];
      for i := 0 to |paths|
        invariant secrets == ExportPaths(store.View(), paths[..i])
      {
        assert paths[..i + 1][..i] == paths[..i];
        var got := store.Get(paths[i]);
        if got.Ok? {
          secrets := secrets + [Exported(paths[i], got.value)];
        }
      }
      assert paths[..|paths|] == paths;
      return Ok(secrets);
    }

    method HandleImport(entries: seq<ExportedSecret>, merge: bool, envs: seq<Env>)
      returns (r: Result<(nat, nat, nat)>)
      requires store.Valid() && |envs| == |entries|
      modifies store`data, store`dirty, store.files
      ensures store.Valid()
      ensures old(store.View()).IsLocked() ==> r == Err(VaultLocked) && store.View() == old(store.View())
      ensures !old(store.View()).IsLocked() ==>
                var t := Import(old(store.View()), entries, envs, merge);
                store.View() == t.store && r == Ok((t.imported, t.skipped, t.errors))
    {
      if store.Locked() {
        return Err(VaultLocked);
      }
      var imported, skipped, errors: nat := 0, 0, 0;
      for i := 0 to |entries|
        invariant store.Valid()
        invariant Import(old(store.View()), entries[..i], envs[..i], merge)
               == Tally(store.View(), imported, skipped, errors)
      {
        assert entries[..i + 1][..i] == entries[..i] && envs[..i + 1][..i] == envs[..i];
        var known := store.Exists(entries[i].path);
        if known == Ok(true) && merge {
          skipped := skipped + 1;
        } else {
          var stored := StoreEntry(entries[i], envs[i]);
          if stored.Err? {
            errors := errors + 1;
          } else {
            imported := imported + 1;
          }
        }
      }
      assert entries[..|entries|] == entries && envs[..|entries|] == envs;
      return Ok((imported, skipped, errors));
    }

    /** Creates the secret of one import entry and stores it. */
    method StoreEntry(entry: ExportedSecret, env: Env) returns (r: Result<Unit>)
      requires store.Valid()
      modifies store`data, store`dirty, store.files
      ensures store.Valid()
      ensures store.View() == Spec.Set(old(store.View()), entry.path, ImportedSecret(entry), env).store
      ensures r == Spec.Set(old(store.View()), entry.path, ImportedSecret(entry), env).result
    {
      var secret := new SecretCell(ImportedSecret(entry));
      r := store.Set(entry.path, secret, env);
    }

    /** The result lists exactly the wanted paths, sorted and without duplicates. */
    method HandleSearch(q: Query) returns (r: Result<seq<string>>)
      requires store.Valid()
      ensures store.View().IsLocked() ==> r == Err(VaultLocked)
      ensures !store.View().IsLocked() ==>
                if q.Regex? && q.compiled.None? then r == Err(InvalidPattern)
                else
                  var keys := store.View().data.value.Keys;
                  r.Ok? && Text.Lists(r.value, set p | p in keys && Wanted(q, keys, p))
      ensures !store.View().IsLocked() ==> r == Matches(q, Spec.List(store.View(), "").value)
    {
      if store.Locked() {
        return Err(VaultLocked);
      }
      var listed := store.List("");
      if listed.Err? {
        return Err(listed.error);
      }
      ghost var keys := store.View().data.value.Keys;
      assert (set p | p in store.View().data.value && ("" == "" || Text.HasPrefix(p, ""))) == keys;
      MatchesAreWanted(q, listed.value, keys);
      r := FindMatches(q, listed.value);
    }

    /** The matching loops of the search handler. */
    method FindMatches(q: Query, all: seq<string>) returns (r: Result<seq<string>>)
      ensures r == Matches(q, all)
    {
      match q
      case Regex(compiled) =>
        if compiled.None? {
          return Err(InvalidPattern);
        }
        var matches := Select(all, compiled.value);
        return Ok(matches);
      case Glob(pattern, matcher) =>
        var matches := Select(all, path => GlobHit(pattern, matcher, path));
        if |matches| == 0 {
          matches := Select(all, path => Text.Contains(path, Trimmed(pattern)));
        }
        return Ok(matches);
    }

    /** One pass over the listed paths. */
    method Select(paths: seq<string>, keep: string -> bool) returns (matches: seq<string>)
      ensures matches == Filter(paths, keep)
    {
      matches := [];
      for i := 0 to |paths|
        invariant matches == Filter(paths[..i], keep)
      {
        assert paths[..i + 1][..i] == paths[..i];
        if keep(paths[i]) {
          matches := matches + [paths[i]];
        }
      }
      assert paths[..|paths|] == paths;
    }
  }
}
