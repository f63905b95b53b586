/**
 The shell printer: `internal/output/shell.go` and `writeShellSecret` of `internal/output/writer.go`.
 A `string` here is the sequence of its runes, over which `ShellSafeKey` ranges: a rune of two or
 more bytes gives one underscore. `sort.Strings` orders valid UTF-8 by bytes as it would by runes.
 */
module Shell {
  import opened Secrets
  import Text

  predicate IsUpper(c: char) { 'A' <= c <= 'Z' }
  predicate IsLower(c: char) { 'a' <= c <= 'z' }
  predicate IsDigit(c: char) { '0' <= c <= '9' }

  /** A Name in the sense of section 3.235 of POSIX.1-2017 XBD. */
  predicate IsName(s: string) {
    && s != "" && !IsDigit(s[0])
    && forall i :: 0 <= i < |s| ==> IsUpper(s[i]) || IsLower(s[i]) || IsDigit(s[i]) || s[i] == '_'
  }

  function UpperChar(c: char): char {
    if IsLower(c) then c - 'a' + 'A' else c
  }

  /** `strings.ToUpper` on the ASCII text the builder holds. */
  function ToUpper(s: string): string {
    seq(|s|, i requires 0 <= i < |s| => UpperChar(s[i]))
  }

  predicate IsNameChar(c: char) {
    IsUpper(c) || IsLower(c) || IsDigit(c) || c == '_'
  }

  function Underscored(s: string): string {
    seq(|s|, i requires 0 <= i < |s| => if IsNameChar(s[i]) then s[i] else '_')
  }

  /** What `ShellSafeKey` computes. */
  function SafeKey(s: string): string {
    if s == "" then ""
    else ToUpper((if IsDigit(s[0]) then "_" else "") + Underscored(s))
  }

  lemma OneMoreRune(lead: string, s: string, i: nat)
    requires i < |s|
    ensures lead + Underscored(s[..i + 1]) == lead + Underscored(s[..i]) + [if IsNameChar(s[i]) then s[i] else '_']
    ensures Underscored(s[..0]) == ""
  {
    assert Underscored(s[..i + 1]) == Underscored(s[..i]) + [if IsNameChar(s[i]) then s[i] else '_'];
  }

  method ShellSafeKey(s: string) returns (key: string)
    ensures key == SafeKey(s)
  {
    if s == "" {
      return "";
    }
    var result := "";
    ghost var lead := if IsDigit(s[0]) then "_" else "";
    for i := 0 to |s|
      invariant result == if i == 0 then "" else lead + Underscored(s[..i])
    {
      var r := s[i];
      if IsUpper(r) || IsLower(r) || r == '_' {
        result := result + [r];
      } else if IsDigit(r) {
        if i == 0 {
          result := result + "_";
        }
        result := result + [r];
      } else {
        result := result + "_";
      }
      OneMoreRune(lead, s, i);
    }
    assert s[..|s|] == s && result == lead + Underscored(s);
    return ToUpper(result);
  }

  predicate NoLower(s: string) {
    forall i :: 0 <= i < |s| ==> !IsLower(s[i])
  }

  lemma UpperStaysName(s: string)
    requires forall i :: 0 <= i < |s| ==> IsNameChar(s[i])
    ensures forall i :: 0 <= i < |s| ==> IsNameChar(ToUpper(s)[i]) && !IsLower(ToUpper(s)[i])
    ensures forall i :: 0 <= i < |s| ==> (IsDigit(ToUpper(s)[i]) <==> IsDigit(s[i]))
  {
  }

  /** An upper-case Name is its own key. */
  lemma NameIsOwnKey(k: string)
    requires IsName(k) && NoLower(k)
    ensures SafeKey(k) == k
  {
    forall i | 0 <= i < |k| ensures Underscored(k)[i] == k[i] && ToUpper(k)[i] == k[i] {
      assert IsNameChar(k[i]) && !IsLower(k[i]);
    }
    assert Underscored(k) == k && ToUpper(k) == k && "" + k == k;
  }

  lemma KeyIsUpperName(s: string)
    requires s != ""
    ensures IsName(SafeKey(s)) && NoLower(SafeKey(s))
  {
    var lead := if IsDigit(s[0]) then "_" else "";
    var raw := lead + Underscored(s);
    assert SafeKey(s) == ToUpper(raw);
    forall i | 0 <= i < |raw| ensures IsNameChar(raw[i]) {
      assert i < |lead| || raw[i] == Underscored(s)[i - |lead|];
    }
    UpperStaysName(raw);
    assert !IsDigit(raw[0]);
  }

  /** The key made from a non-empty string is an upper-case shell Name, and is its own key. */
  lemma SafeKeyIsName(s: string)
    requires s != ""
    ensures IsName(SafeKey(s)) && NoLower(SafeKey(s))
    ensures SafeKey(SafeKey(s)) == SafeKey(s)
  {
    KeyIsUpperName(s);
    NameIsOwnKey(SafeKey(s));
  }

  /** The character of a key for a rune: capitals, digits and `_` stay, small letters turn capital, the rest is `_`. */
  predicate KeyChar(k: char, c: char) {
    if 'A' <= c <= 'Z' || '0' <= c <= '9' || c == '_' then k == c
    else if 'a' <= c <= 'z' then 'A' <= k <= 'Z' && k as int - 'A' as int == c as int - 'a' as int
    else k == '_'
  }

  /** `key` spells `s`, character by character, after a `_` if `s` starts with a digit. */
  predicate Spells(key: string, s: string) {
    var lead := if s != "" && '0' <= s[0] <= '9' then 1 else 0;
    && |key| == lead + |s|
    && (lead == 1 ==> key[0] == '_')
    && forall i :: 0 <= i < |s| ==> KeyChar(key[lead + i], s[i])
  }

  lemma CharIsSpelled(s: string, i: nat)
    requires i < |s|
    ensures KeyChar(UpperChar(Underscored(s)[i]), s[i])
  {
  }

  lemma UpperWithLead(lead: string, text: string, i: nat)
    requires i < |text|
    ensures ToUpper(lead + text)[|lead| + i] == UpperChar(text[i])
  {
    assert (lead + text)[|lead| + i] == text[i];
  }

  lemma SafeKeySpells(s: string)
    ensures Spells(SafeKey(s), s)
  {
    if s != "" {
      var lead := if IsDigit(s[0]) then "_" else "";
      var text := Underscored(s);
      assert SafeKey(s) == ToUpper(lead + text);
      forall i | 0 <= i < |s| ensures KeyChar(SafeKey(s)[|lead| + i], s[i]) {
        UpperWithLead(lead, text, i);
        CharIsSpelled(s, i);
      }
    }
  }

  /** The name of a field export spells the path, then has a `_`, then spells the field. */
  predicate NamesField(name: string, path: string, field: string) {
    var length := |path| + if path != "" && '0' <= path[0] <= '9' then 1 else 0;
    && |name| > length && name[length] == '_'
    && Spells(name[..length], path) && Spells(name[length + 1..], field)
  }

  lemma FieldNameSpells(path: string, field: string)
    ensures NamesField(FieldName(path, field), path, field)
  {
    SafeKeySpells(path);
    SafeKeySpells(field);
    var name := FieldName(path, field);
    assert name[..|SafeKey(path)|] == SafeKey(path) && name[|SafeKey(path)| + 1..] == SafeKey(field);
  }

  /** Keys, the empty one included, hold upper-case Name characters only, and never begin with a digit. */
  lemma KeyCharacters(s: string)
    ensures SafeKey(s) != "" ==> !IsDigit(SafeKey(s)[0])
    ensures forall i :: 0 <= i < |SafeKey(s)| ==> IsNameChar(SafeKey(s)[i]) && !IsLower(SafeKey(s)[i])
  {
    if s != "" {
      KeyIsUpperName(s);
    }
  }

  lemma JoinedIsName(a: string, b: string)
    requires a != "" ==> !IsDigit(a[0])
    requires forall i :: 0 <= i < |a| ==> IsNameChar(a[i]) && !IsLower(a[i])
    requires forall i :: 0 <= i < |b| ==> IsNameChar(b[i]) && !IsLower(b[i])
    ensures IsName(a + "_" + b) && NoLower(a + "_" + b)
  {
    var name := a + "_" + b;
    forall i | 0 <= i < |name| ensures IsNameChar(name[i]) && !IsLower(name[i]) {
      assert name[i] == if i < |a| then a[i] else if i == |a| then '_' else b[i - |a| - 1];
    }
    assert name[0] == if a != "" then a[0] else '_';
  }

  /** So is every `prefix_field` variable name, whatever prefix and field are. */
  lemma FieldNameIsName(path: string, field: string)
    ensures IsName(FieldName(path, field)) && NoLower(FieldName(path, field))
  {
    KeyCharacters(path);
    KeyCharacters(field);
    JoinedIsName(SafeKey(path), SafeKey(field));
  }

  function FieldName(path: string, field: string): string {
    SafeKey(path) + "_" + SafeKey(field)
  }

  const QUOTED_QUOTE := "'\"'\"'"

  function EscapeQuotes(s: string): string {
    if s == "" then ""
    else (if s[0] == '\'' then QUOTED_QUOTE else [s[0]]) + EscapeQuotes(s[1..])
  }

  function ShellQuote(s: string): string {
    "'" + EscapeQuotes(s) + "'"
  }

  function ShellExport(key: string, value: string): string {
    "export " + SafeKey(key) + "=" + ShellQuote(value)
  }

  datatype SecretResponse = SecretResponse(path: string, value: string, fields: Option<map<string, string>>)

  /** An assignment the output is meant to make. */
  datatype Export = Export(name: string, value: string)

  function Line(e: Export): string {
    "export " + e.name + "=" + ShellQuote(e.value) + "\n"
  }

  function Lines(exports: seq<Export>): string {
    if exports == [] then "" else Lines(exports[..|exports| - 1]) + Line(exports[|exports| - 1])
  }

  function FieldMap(r: SecretResponse): map<string, string> {
    if r.fields.Some? then r.fields.value else map[]
  }

  ghost function FieldExports(r: SecretResponse, keys: seq<string>): seq<Export>
    requires forall k :: k in keys ==> k in FieldMap(r)
  {
    seq(|keys|, i requires 0 <= i < |keys| => Export(FieldName(r.path, keys[i]), FieldMap(r)[keys[i]]))
  }

  function ValueExport(r: SecretResponse): seq<Export> {
    if r.value != "" then [Export(SafeKey(r.path), r.value)] else []
  }

  /** The intended assignments: the value first, then the fields in sorted key order. */
  ghost function Intended(r: SecretResponse): seq<Export> {
    ValueExport(r) + FieldExports(r, Text.SortedKeys(FieldMap(r).Keys))
  }

  /** The assignment of one field. */
  predicate AssignsField(e: Export, r: SecretResponse, key: string) {
    r.fields.Some? && key in r.fields.value && NamesField(e.name, r.path, key) && e.value == r.fields.value[key]
  }

  /**
     The assignments a secret is meant to make: its value, unless empty, under the name that spells its
     path, and then each field, in sorted order, under the name that spells path and field.
   */
  ghost predicate Assigns(exports: seq<Export>, r: SecretResponse, keys: seq<string>) {
    var first := if r.value == "" then 0 else 1;
    && |exports| == first + |keys|
    && (r.value != "" ==> Spells(exports[0].name, r.path) && exports[0].value == r.value)
    && forall i :: 0 <= i < |keys| ==> AssignsField(exports[first + i], r, keys[i])
  }

  lemma FieldExportsAssign(r: SecretResponse, keys: seq<string>, i: nat)
    requires (forall k :: k in keys ==> k in FieldMap(r)) && i < |keys|
    ensures AssignsField(FieldExports(r, keys)[i], r, keys[i])
  {
    assert keys[i] in keys;
    FieldNameSpells(r.path, keys[i]);
  }

  lemma ValueFirst(r: SecretResponse)
    ensures |ValueExport(r)| == if r.value == "" then 0 else 1
    ensures r.value != "" ==> Spells(ValueExport(r)[0].name, r.path) && ValueExport(r)[0].value == r.value
  {
    SafeKeySpells(r.path);
  }

  lemma ThenFields(r: SecretResponse, keys: seq<string>, first: seq<Export>, rest: seq<Export>)
    requires |first| == if r.value == "" then 0 else 1
    requires r.value != "" ==> Spells(first[0].name, r.path) && first[0].value == r.value
    requires |rest| == |keys| && forall i :: 0 <= i < |keys| ==> AssignsField(rest[i], r, keys[i])
    ensures Assigns(first + rest, r, keys)
  {
    var exports := first + rest;
    assert |first| == 1 ==> exports[0] == first[0];
    forall i | 0 <= i < |keys| ensures AssignsField(exports[|first| + i], r, keys[i]) {
      assert exports[|first| + i] == rest[i];
    }
  }

  lemma IntendedAssigns(r: SecretResponse)
    ensures exists keys :: && Text.Lists(keys, if r.fields.Some? then r.fields.value.Keys else {})
                           && Assigns(Intended(r), r, keys)
  {
    var keys := Text.SortedKeys(FieldMap(r).Keys);
    var first, rest := ValueExport(r), FieldExports(r, keys);
    ValueFirst(r);
    forall i | 0 <= i < |keys| ensures AssignsField(rest[i], r, keys[i]) {
      FieldExportsAssign(r, keys, i);
    }
    ThenFields(r, keys, first, rest);
    assert Intended(r) == first + rest;
    assert FieldMap(r).Keys == if r.fields.Some? then r.fields.value.Keys else {};
    assert Text.Lists(keys, if r.fields.Some? then r.fields.value.Keys else {});
  }

  class Writer {
    var out: string

    constructor ()
      ensures out == ""
    {
      out := "";
    }

    method Write(s: string)
      modifies this
      ensures out == old(out) + s
    {
      out := out + s;
    }

    method WriteShellSecret(secret: SecretResponse)
      modifies this
      ensures out == old(out) + Lines(Intended(secret))
    {
      var prefix := ShellSafeKey(secret.path);
      if secret.value != "" {
        Write(ShellExport(secret.path, secret.value) + "\n");
      }
      ghost var first := ValueExport(secret);
      LinesOfOne(first);
      assert out == old(out) + Lines(first);
      ghost var fields := FieldExports(secret, Text.SortedKeys(FieldMap(secret).Keys));
      if secret.fields.Some? && |secret.fields.value| > 0 {
        WriteFields(secret, prefix);
      } else {
        assert FieldMap(secret).Keys == {};
        assert fields == [];
      }
      LinesConcatenate(first, fields);
      Associates(old(out), Lines(first), Lines(fields));
    }

    /** The loop over the sorted fields. */
    method WriteFields(secret: SecretResponse, prefix: string)
      requires secret.fields.Some? && prefix == SafeKey(secret.path)
      modifies this
      ensures out == old(out) + Lines(FieldExports(secret, Text.SortedKeys(FieldMap(secret).Keys)))
    {
      var fields := secret.fields.value;
      var keys := Text.CollectSorted(fields.Keys);
      ghost var exports := FieldExports(secret, keys);
      for i := 0 to |keys|
        invariant out == old(out) + Lines(exports[..i])
      {
        assert keys[i] in keys;
        var field := ShellSafeKey(keys[i]);
        var varName := prefix + "_" + field;
        assert exports[i] == Export(varName, fields[keys[i]]);
        LinesGrow(exports, i);
        Associates(old(out), Lines(exports[..i]), Line(exports[i]));
        Write("export " + varName + "=" + ShellQuote(fields[keys[i]]) + "\n");
      }
      assert exports[..|keys|] == exports;
    }
  }

  lemma Associates(a: string, b: string, c: string)
    ensures (a + b) + c == a + (b + c)
  {
  }

  lemma LinesGrow(exports: seq<Export>, i: nat)
    requires i < |exports|
    ensures Lines(exports[..i + 1]) == Lines(exports[..i]) + Line(exports[i])
  {
    assert exports[..i + 1][..i] == exports[..i];
  }

  lemma LinesOfOne(exports: seq<Export>)
    requires |exports| <= 1
    ensures Lines(exports) == if exports == [] then "" else Line(exports[0])
  {
  }

  lemma {:induction false} LinesConcatenate(a: seq<Export>, b: seq<Export>)
    ensures Lines(a + b) == Lines(a) + Lines(b)
  {
    if b == [] {
      assert a + b == a;
    } else {
      assert (a + b)[..|a + b| - 1] == a + b[..|b| - 1];
      assert (a + b)[|a + b| - 1] == b[|b| - 1];
      LinesConcatenate(a, b[..|b| - 1]);
      Associates(Lines(a), Lines(b[..|b| - 1]), Line(b[|b| - 1]));
    }
  }
}
