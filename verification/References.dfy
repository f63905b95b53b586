/** Secret references, the `SecretRef` scanners of `vault/types.go`. A `string` is the reference's bytes. */
module References {
  import opened Secrets

  /** The first position of `c`, or the length. */
  function FirstIndex(s: string, c: char): (i: nat)
    ensures i <= |s| && (i < |s| ==> s[i] == c) && forall j :: 0 <= j < i ==> s[j] != c
  {
    if s == "" || s[0] == c then 0 else 1 + FirstIndex(s[1..], c)
  }

  /** One past the last position of `c`, or zero. */
  function AfterLast(s: string, c: char): (i: nat)
    ensures i <= |s| && (i > 0 ==> s[i - 1] == c) && forall j :: i <= j < |s| ==> s[j] != c
  {
    if s == "" || s[|s| - 1] == c then |s| else AfterLast(s[..|s| - 1], c)
  }

  predicate SlashesAt(s: string, i: nat) {
    i + 2 < |s| && s[i] == ':' && s[i + 1] == '/' && s[i + 2] == '/'
  }

  /** The first position of `://`, or the length. */
  function FirstSlashes(s: string): (i: nat)
    ensures i <= |s| && (i < |s| ==> SlashesAt(s, i)) && forall j: nat :: j < i ==> !SlashesAt(s, j)
  {
    if s == "" || SlashesAt(s, 0) then 0
    else
      var i := FirstSlashes(s[1..]);
      assert forall j: nat :: 0 < j ==> (SlashesAt(s, j) <==> SlashesAt(s[1..], j - 1));
      1 + i
  }

  function SchemeOf(s: string): string {
    var i := FirstIndex(s, ':');
    if i < |s| then s[..i] else ""
  }

  function PathOf(s: string): string {
    var i := FirstSlashes(s);
    if i == |s| then s
    else
      var path := s[i + 3..];
      path[..FirstIndex(path, '#')]
  }

  function FragmentOf(s: string): string {
    var i := AfterLast(s, '#');
    if i == 0 then "" else s[i..]
  }

  method Scheme(s: string) returns (scheme: string)
    ensures scheme == SchemeOf(s)
  {
    for i := 0 to |s|
      invariant forall j :: 0 <= j < i ==> s[j] != ':'
    {
      if s[i] == ':' {
        return s[..i];
      }
    }
    return "";
  }

  method Path(s: string) returns (path: string)
    ensures path == PathOf(s)
  {
    for i := 0 to if |s| < 2 then 0 else |s| - 2
      invariant forall j: nat :: j < i ==> !SlashesAt(s, j)
    {
      if s[i] == ':' && s[i + 1] == '/' && s[i + 2] == '/' {
        assert SlashesAt(s, i) && FirstSlashes(s) == i;
        var rest := s[i + 3..];
        for j := 0 to |rest|
          invariant forall k :: 0 <= k < j ==> rest[k] != '#'
        {
          if rest[j] == '#' {
            return rest[..j];
          }
        }
        assert rest[..|rest|] == rest;
        return rest;
      }
    }
    return s;
  }

  method Fragment(s: string) returns (fragment: string)
    ensures fragment == FragmentOf(s)
  {
    var i := |s| - 1;
    while i >= 0
      invariant -1 <= i < |s|
      invariant forall j :: i < j < |s| ==> s[j] != '#'
    {
      if s[i] == '#' {
        return s[i + 1..];
      }
      i := i - 1;
    }
    return "";
  }

  // ---------- the round trip ----------

  /** `scheme://path`, and `#fragment` if there is one. */
  function Reference(scheme: string, path: string, fragment: Option<string>): string {
    var s := scheme + "://" + path;
    if fragment.Some? then s + "#" + fragment.value else s
  }

  predicate Free(s: string, c: char) {
    c !in s
  }

  lemma FirstIndexSplits(a: string, c: char, b: string)
    ensures var s := a + [c] + b; FirstIndex(s, c) == |a| <==> Free(a, c)
    ensures var s := a + [c] + b; FirstIndex(s, c) <= |a|
  {
    var s := a + [c] + b;
    assert s[|a|] == c && forall j :: 0 <= j < |a| ==> s[j] == a[j];
  }

  lemma AfterLastSplits(a: string, c: char, b: string)
    ensures var s := a + [c] + b; AfterLast(s, c) == |a| + 1 <==> Free(b, c)
    ensures var s := a + [c] + b; AfterLast(s, c) > |a|
  {
    var s := a + [c] + b;
    assert s[|a|] == c && forall j :: 0 <= j < |b| ==> s[|a| + 1 + j] == b[j];
  }

  lemma AfterLastIsZero(s: string, c: char)
    ensures AfterLast(s, c) == 0 <==> Free(s, c)
  {
  }

  /** The scheme comes back exactly when it holds no colon. */
  lemma SchemeComesBack(scheme: string, rest: string)
    ensures SchemeOf(scheme + "://" + rest) == scheme <==> Free(scheme, ':')
  {
    var s := scheme + "://" + rest;
    assert s == scheme + [':'] + ("//" + rest);
    FirstIndexSplits(scheme, ':', "//" + rest);
    var i := FirstIndex(s, ':');
    assert s[..|scheme|] == scheme;
    assert |s[..i]| == i;
  }

  lemma SlashesFound(scheme: string, rest: string)
    requires Free(scheme, ':')
    ensures FirstSlashes(scheme + "://" + rest) == |scheme|
  {
    var s := scheme + "://" + rest;
    assert SlashesAt(s, |scheme|);
    forall j: nat | j < |scheme| ensures !SlashesAt(s, j) {
      assert s[j] == scheme[j];
    }
  }

  /** After a scheme without colon, the path is what stands before the first `#`. */
  lemma PathIsCut(scheme: string, rest: string)
    requires Free(scheme, ':')
    ensures PathOf(scheme + "://" + rest) == rest[..FirstIndex(rest, '#')]
  {
    SlashesFound(scheme, rest);
    assert (scheme + "://" + rest)[|scheme| + 3..] == rest;
  }

  /** With a fragment: all three parts come back exactly under these conditions. */
  lemma ReferenceWithFragment(scheme: string, path: string, fragment: string)
    ensures var s := Reference(scheme, path, Some(fragment));
            (SchemeOf(s) == scheme && PathOf(s) == path && FragmentOf(s) == fragment)
            <==> Free(scheme, ':') && Free(path, '#') && Free(fragment, '#')
  {
    var s := Reference(scheme, path, Some(fragment));
    var rest := path + ['#'] + fragment;
    ThreeParts(scheme, path, fragment);
    SchemeComesBack(scheme, rest);
    if Free(scheme, ':') {
      PathIsCut(scheme, rest);
      FirstIndexSplits(path, '#', fragment);
      assert rest[..|path|] == path;
      AfterLastSplits(scheme + "://" + path, '#', fragment);
      assert s[|scheme + "://" + path| + 1..] == fragment;
    }
  }

  lemma ThreeParts(scheme: string, path: string, fragment: string)
    ensures Reference(scheme, path, Some(fragment)) == scheme + "://" + (path + ['#'] + fragment)
    ensures Reference(scheme, path, Some(fragment)) == (scheme + "://" + path) + ['#'] + fragment
  {
  }

  /** Without one: the parts come back, and the fragment is empty, exactly under these conditions. */
  lemma ReferenceWithoutFragment(scheme: string, path: string)
    ensures var s := Reference(scheme, path, None);
            (SchemeOf(s) == scheme && PathOf(s) == path && FragmentOf(s) == "")
            <==> Free(scheme, ':') && Free(path, '#') && Free(scheme, '#')
  {
    var s := Reference(scheme, path, None);
    SchemeComesBack(scheme, path);
    AfterLastIsZero(s, '#');
    if Free(scheme, ':') {
      PathIsCut(scheme, path);
      if Free(path, '#') {
        assert path[..|path|] == path;
        MarksAreInScheme(scheme, path);
      }
    }
  }

  /** Without `://`, as in `env:HOME`, the path is the whole string; without a colon there is no scheme. */
  lemma PlainStringsStayWhole(s: string)
    ensures (forall i: nat :: i + 2 < |s| ==> !(s[i] == ':' && s[i + 1] == '/' && s[i + 2] == '/')) ==> PathOf(s) == s
    ensures SchemeOf(s) == "" <==> ':' !in s || s[0] == ':'
    ensures FragmentOf(s) == "" <==> '#' !in s || s[|s| - 1] == '#'
  {
    AfterLastIsZero(s, '#');
    var i := FirstIndex(s, ':');
    assert ':' in s <==> i < |s|;
    assert i < |s| ==> |s[..i]| == i;
  }

  lemma MarksAreInScheme(scheme: string, path: string)
    requires Free(path, '#')
    ensures AfterLast(scheme + "://" + path, '#') <= |scheme|
    ensures AfterLast(scheme + "://" + path, '#') == 0 <==> Free(scheme, '#')
  {
    var s := scheme + "://" + path;
    var i := AfterLast(s, '#');
    assert forall j :: 0 <= j < |scheme| ==> s[j] == scheme[j];
    assert forall j :: 0 <= j < |path| ==> s[|scheme| + 3 + j] == path[j];
    assert s[|scheme|] == ':' && s[|scheme| + 1] == '/' && s[|scheme| + 2] == '/';
  }
}
