/**
 Strings as Go orders and lists them. A `string` may be read as the sequence of its bytes or, for
 valid UTF-8, of its runes: comparing bytes and comparing code points then gives the same order, and
 one string is a prefix, suffix or part of another in the same cases.
 */
module Text {

  /** The order `sort.Strings` sorts by: lexicographic on bytes. */
  predicate Less(a: string, b: string) {
    if b == "" then false
    else if a == "" then true
    else a[0] < b[0] || (a[0] == b[0] && Less(a[1..], b[1..]))
  }

  lemma {:induction false} LessIsStrict(a: string, b: string)
    ensures !(Less(a, b) && Less(b, a))
    ensures a == b ==> !Less(a, b)
    ensures a != b ==> Less(a, b) || Less(b, a)
  {
    if a != "" && b != "" {
      LessIsStrict(a[1..], b[1..]);
      assert a == [a[0]] + a[1..];
      assert b == [b[0]] + b[1..];
    }
  }

  /** `a` is a proper prefix of `b`, or has the smaller character where they first differ. */
  ghost predicate ComesBefore(a: string, b: string) {
    a < b || exists i :: 0 <= i < |a| && i < |b| && a[..i] == b[..i] && a[i] < b[i]
  }

  lemma {:induction false} LessIsLexicographic(a: string, b: string)
    ensures Less(a, b) <==> ComesBefore(a, b)
  {
    if a != "" && b != "" {
      LessIsLexicographic(a[1..], b[1..]);
      assert a == [a[0]] + a[1..] && b == [b[0]] + b[1..];
      if i :| 0 <= i < |a| && i < |b| && a[..i] == b[..i] && a[i] < b[i] {
        if i > 0 {
          assert a[..i][0] == b[..i][0];
          assert a[1..][..i - 1] == a[..i][1..] && b[1..][..i - 1] == b[..i][1..];
          assert a[1..][i - 1] < b[1..][i - 1];
        }
      }
      if a[0] == b[0] && ComesBefore(a[1..], b[1..]) && !(a[1..] < b[1..]) {
        var j :| 0 <= j < |a[1..]| && j < |b[1..]| && a[1..][..j] == b[1..][..j] && a[1..][j] < b[1..][j];
        assert a[..j + 1] == [a[0]] + a[1..][..j] && b[..j + 1] == [b[0]] + b[1..][..j];
        assert a[j + 1] < b[j + 1];
      }
    }
  }

  lemma {:induction false} LessIsTransitive(a: string, b: string, c: string)
    requires Less(a, b) && Less(b, c)
    ensures Less(a, c)
  {
    if a != "" && a[0] == b[0] == c[0] {
      LessIsTransitive(a[1..], b[1..], c[1..]);
    }
  }

  ghost predicate StrictlySorted(s: seq<string>) {
    forall i, j :: 0 <= i < j < |s| ==> Less(s[i], s[j])
  }

  predicate NoDuplicates<T(==)>(s: seq<T>) {
    forall i, j :: 0 <= i < j < |s| ==> s[i] != s[j]
  }

  /** `s` is the sorted, duplicate-free listing of `keys`. */
  ghost predicate Lists(s: seq<string>, keys: set<string>) {
    StrictlySorted(s) && forall x :: x in s <==> x in keys
  }

  lemma ListingHasNoDuplicates(s: seq<string>)
    requires StrictlySorted(s)
    ensures NoDuplicates(s)
  {
    forall i, j | 0 <= i < j < |s| ensures s[i] != s[j] {
      LessIsStrict(s[i], s[j]);
    }
  }

  lemma NonEmptyHasElement(s: seq<string>)
    ensures s != [] ==> exists x :: x in s
  {
    if s != [] { assert s[0] in s; }
  }

  /** A set of strings has only one sorted listing. */
  lemma {:induction false} ListingIsUnique(s: seq<string>, t: seq<string>, keys: set<string>)
    requires Lists(s, keys) && Lists(t, keys)
    ensures s == t
  {
    ListingHasNoDuplicates(s);
    ListingHasNoDuplicates(t);
    if s == [] {
      NonEmptyHasElement(t);
    } else {
      assert s[0] in s;
      assert s[0] in t && t[0] in t && t[0] in s;
      LessIsStrict(s[0], t[0]);
      assert s[0] == t[0] by {
        var i :| 0 <= i < |s| && s[i] == t[0];
        var j :| 0 <= j < |t| && t[j] == s[0];
      }
      forall x ensures x in s[1..] <==> x in keys - {s[0]} {
        assert x in s <==> x == s[0] || x in s[1..];
      }
      forall x ensures x in t[1..] <==> x in keys - {s[0]} {
        assert x in t <==> x == t[0] || x in t[1..];
      }
      ListingIsUnique(s[1..], t[1..], keys - {s[0]});
      assert s == [s[0]] + s[1..];
      assert t == [t[0]] + t[1..];
    }
  }

  /** Puts `x` at its place in a sorted listing. */
  function Insert(s: seq<string>, x: string): (r: seq<string>)
    requires StrictlySorted(s) && x !in s
    ensures StrictlySorted(r)
    ensures forall y :: y in r <==> y == x || y in s
  {
    if s == [] then [x]
    else
      LessIsStrict(s[0], x);
      if Less(x, s[0]) then
        assert forall i | 0 < i < |s| :: Less(x, s[i]) by {
          forall i | 0 < i < |s| ensures Less(x, s[i]) { LessIsTransitive(x, s[0], s[i]); }
        }
        [x] + s
      else
        var rest := Insert(s[1..], x);
        assert forall y :: y in s <==> y == s[0] || y in s[1..];
        assert forall y :: y in rest ==> Less(s[0], y);
        [s[0]] + rest
  }

  /** `sort.Strings` on a slice without duplicates. */
  function Sort(s: seq<string>): (r: seq<string>)
    requires NoDuplicates(s)
    ensures Lists(r, set x | x in s)
  {
    if s == [] then []
    else
      var last := |s| - 1;
      assert forall y :: y in s <==> y in s[..last] || y == s[last];
      Insert(Sort(s[..last]), s[last])
  }

  /** The sorted listing of a finite set. */
  ghost function SortedKeys(keys: set<string>): (r: seq<string>)
    ensures Lists(r, keys)
  {
    if keys == {} then []
    else
      var x :| x in keys;
      assert forall y :: y in keys <==> y == x || y in keys - {x};
      Insert(SortedKeys(keys - {x}), x)
  }

  /** Collecting the keys of a map in whatever order `range` yields them, then sorting. */
  method CollectSorted(keys: set<string>) returns (sorted: seq<string>)
    ensures sorted == SortedKeys(keys)
  {
    var remaining := keys;
    var collected: seq<string> := [];
    while remaining != {}
      invariant NoDuplicates(collected)
      invariant forall x :: x in collected <==> x in keys && x !in remaining
      invariant remaining <= keys
      decreases remaining
    {
      var k :| k in remaining;
      collected := collected + [k];
      remaining := remaining - {k};
    }
    sorted := Sort(collected);
    ListingIsUnique(sorted, SortedKeys(keys), keys);
  }

  predicate HasPrefix(s: string, prefix: string) {
    prefix <= s
  }

  predicate HasSuffix(s: string, suffix: string) {
    |suffix| <= |s| && s[|s| - |suffix|..] == suffix
  }

  function TrimPrefix(s: string, prefix: string): string {
    if HasPrefix(s, prefix) then s[|prefix|..] else s
  }

  function TrimSuffix(s: string, suffix: string): string {
    if HasSuffix(s, suffix) then s[..|s| - |suffix|] else s
  }

  predicate Contains(s: string, sub: string) {
    sub <= s || (s != "" && Contains(s[1..], sub))
  }
}
