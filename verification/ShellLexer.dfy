/**
 An independent reader for the printer's output: the token and quoting rules of sections 2.2.2,
 2.2.3 and 2.3 of POSIX.1-2017 XCU, as far as `export` lines need them. Any unquoted character that
 could mean something else to a shell stops it, and so does NUL.
 */
module ShellLexer {
  import opened Secrets
  import opened Shell
  import Text

  /** A character of a word and whether quoting took its special meaning away. */
  datatype Cell = Cell(c: char, quoted: bool)
  type Word = seq<Cell>

  datatype Mode = Plain | Single | Double

  datatype Lexer =
    | Stuck
    | Lexer(mode: Mode, word: Option<Word>, words: seq<Word>, commands: seq<seq<Word>>)

  function Fresh(commands: seq<seq<Word>>): Lexer {
    Lexer(Plain, None, [], commands)
  }

  /** Characters section 2.2 lists as special, but for the ones the lexer handles itself and `=`. */
  predicate IsSpecial(c: char) {
    c in "|&;<>()$`\\*?[#~%"
  }

  function EndWord(l: Lexer): Lexer
    requires l.Lexer?
  {
    if l.word.None? then l else l.(word := None, words := l.words + [l.word.value])
  }

  function EndCommand(l: Lexer): Lexer
    requires l.Lexer?
  {
    var ended := EndWord(l);
    if ended.words == [] then ended else ended.(words := [], commands := ended.commands + [ended.words])
  }

  function Add(l: Lexer, c: char, quoted: bool): Lexer
    requires l.Lexer?
  {
    l.(word := Some((if l.word.Some? then l.word.value else []) + [Cell(c, quoted)]))
  }

  function Enter(l: Lexer, mode: Mode): Lexer
    requires l.Lexer?
  {
    l.(mode := mode, word := if l.word.None? then Some([]) else l.word)
  }

  function Step(l: Lexer, c: char): Lexer {
    if l.Stuck? || c == '\0' then Stuck
    else match l.mode
      case Single => if c == '\'' then l.(mode := Plain) else Add(l, c, true)
      case Double =>
        if c == '"' then l.(mode := Plain)
        else if c == '$' || c == '`' || c == '\\' then Stuck
        else Add(l, c, true)
      case Plain =>
        if c == ' ' || c == '\t' then EndWord(l)
        else if c == '\n' then EndCommand(l)
        else if c == '\'' then Enter(l, Single)
        else if c == '"' then Enter(l, Double)
        else if IsSpecial(c) then Stuck
        else Add(l, c, false)
  }

  function Lex(l: Lexer, s: string): Lexer
    decreases |s|
  {
    if s == "" then l else Lex(Step(l, s[0]), s[1..])
  }

  function Chars(w: Word): string {
    seq(|w|, i requires 0 <= i < |w| => w[i].c)
  }

  function FirstEquals(w: Word): nat
    ensures FirstEquals(w) <= |w|
  {
    if w == [] || w[0] == Cell('=', false) then 0 else 1 + FirstEquals(w[1..])
  }

  predicate Unquoted(w: Word) {
    forall i :: 0 <= i < |w| ==> !w[i].quoted
  }

  /** `export name=value`, with an unquoted Name. */
  function ParseExport(words: seq<Word>): Option<Export> {
    if |words| != 2 || Chars(words[0]) != "export" then None
    else
      var at := FirstEquals(words[1]);
      var name := words[1][..at];
      if at == |words[1]| || !Unquoted(name) || !IsName(Chars(name)) then None
      else Some(Export(Chars(name), Chars(words[1][at + 1..])))
  }

  function ParseExports(commands: seq<seq<Word>>): Option<seq<Export>> {
    if commands == [] then Some([])
    else
      var before := ParseExports(commands[..|commands| - 1]);
      var last := ParseExport(commands[|commands| - 1]);
      if before.None? || last.None? then None else Some(before.value + [last.value])
  }

  /** What a shell that sources `text` exports; none if anything in it is not a plain export. */
  function Source(text: string): Option<seq<Export>> {
    var l := Lex(Fresh([]), text);
    if l.Stuck? || l.mode != Plain then None else ParseExports(EndCommand(l).commands)
  }

  // ---------- reading back what the printer wrote ----------

  lemma {:induction false} LexAppends(l: Lexer, s: string, t: string)
    ensures Lex(l, s + t) == Lex(Lex(l, s), t)
    decreases |s|
  {
    if s == "" {
      assert s + t == t;
    } else {
      assert (s + t)[1..] == s[1..] + t;
      LexAppends(Step(l, s[0]), s[1..], t);
    }
  }

  lemma {:induction false} StuckStays(s: string)
    ensures Lex(Stuck, s) == Stuck
  {
    if s != "" { StuckStays(s[1..]); }
  }

  function Cells(s: string, quoted: bool): Word {
    seq(|s|, i requires 0 <= i < |s| => Cell(s[i], quoted))
  }

  predicate HasNul(s: string) {
    '\0' in s
  }

  function Letters(l: Lexer): Word
    requires l.Lexer?
  {
    if l.word.Some? then l.word.value else []
  }

  /** Unquoted name characters go into the word as they are. */
  lemma {:induction false} LexPlain(l: Lexer, s: string)
    requires l.Lexer? && l.mode == Plain
    requires forall i :: 0 <= i < |s| ==> IsNameChar(s[i]) || s[i] == '='
    ensures Lex(l, s) == if s == "" then l else l.(word := Some(Letters(l) + Cells(s, false)))
    decreases |s|
  {
    if s != "" {
      var after := Step(l, s[0]);
      LexPlain(after, s[1..]);
      assert Letters(after) + Cells(s[1..], false) == Letters(l) + Cells(s, false);
      if s[1..] == "" { assert Letters(after) == Letters(l) + Cells(s, false); }
    }
  }

  /** The escaped text, read inside single quotes, is the text itself. */
  lemma {:induction false} LexEscaped(l: Lexer, v: string)
    requires l.Lexer? && l.mode == Single && l.word.Some?
    ensures Lex(l, EscapeQuotes(v)) ==
            if HasNul(v) then Stuck else l.(word := Some(l.word.value + Cells(v, true)))
    decreases |v|
  {
    if v == "" {
      assert l.word.value + Cells(v, true) == l.word.value;
    } else {
      var head := if v[0] == '\'' then QUOTED_QUOTE else [v[0]];
      LexAppends(l, head, EscapeQuotes(v[1..]));
      assert HasNul(v) <==> v[0] == '\0' || HasNul(v[1..]);
      LexOneEscaped(l, v[0]);
      if v[0] == '\0' {
        StuckStays(EscapeQuotes(v[1..]));
      } else {
        var after := Lex(l, head);
        LexEscaped(after, v[1..]);
        assert after.word.value + Cells(v[1..], true) == l.word.value + Cells(v, true);
      }
    }
  }

  lemma LexOneEscaped(l: Lexer, c: char)
    requires l.Lexer? && l.mode == Single && l.word.Some?
    ensures Lex(l, if c == '\'' then QUOTED_QUOTE else [c]) ==
            if c == '\0' then Stuck else l.(word := Some(l.word.value + [Cell(c, true)]))
  {
    if c == '\'' {
      var s1 := Step(l, '\'');
      var s2 := Step(s1, '"');
      var s3 := Step(s2, '\'');
      var s4 := Step(s3, '"');
      var s5 := Step(s4, '\'');
      assert QUOTED_QUOTE[1..] == "\"'\"'" && "\"'\"'"[1..] == "'\"'" && "'\"'"[1..] == "\"'";
      assert "\"'"[1..] == "'" && "'"[1..] == "";
      assert Lex(s5, "") == s5;
      assert Lex(s4, "'") == s5;
      assert Lex(s3, "\"'") == s5;
      assert Lex(s2, "'\"'") == s5;
    } else {
      assert [c][1..] == "";
      assert Lex(l, [c]) == Step(l, c);
    }
  }

  lemma LexQuoted(l: Lexer, v: string)
    requires l.Lexer? && l.mode == Plain && l.word.Some?
    ensures Lex(l, ShellQuote(v)) ==
            if HasNul(v) then Stuck else l.(word := Some(l.word.value + Cells(v, true)))
  {
    var inner := Step(l, '\'');
    LexAppends(l, "'" + EscapeQuotes(v), "'");
    LexAppends(l, "'", EscapeQuotes(v));
    assert "'"[1..] == "";
    assert Lex(l, "'") == inner;
    LexEscaped(inner, v);
    if HasNul(v) { StuckStays("'"); }
    else {
      var inside := Lex(inner, EscapeQuotes(v));
      assert Lex(inside, "'") == Step(inside, '\'');
    }
  }

  predicate NameIsSafe(name: string) {
    forall i :: 0 <= i < |name| ==> IsNameChar(name[i])
  }

  /** The command one printed line is read as. */
  function Command(e: Export): seq<Word> {
    [Cells("export", false), Cells(e.name + "=", false) + Cells(e.value, true)]
  }

  lemma LexLine(commands: seq<seq<Word>>, e: Export)
    requires NameIsSafe(e.name)
    ensures Lex(Fresh(commands), Line(e)) ==
            if HasNul(e.value) then Stuck else Fresh(commands + [Command(e)])
  {
    var l0 := Fresh(commands);
    var target := e.name + "=";
    var quoted := ShellQuote(e.value);
    LineSplits("export ", e.name, "=", quoted, "\n");
    LexAppends(l0, "export ", target + (quoted + "\n"));
    LexKeyword(commands);
    var l1 := Lexer(Plain, None, [Cells("export", false)], commands);
    LexAppends(l1, target, quoted + "\n");
    LexPlain(l1, target);
    assert Letters(l1) + Cells(target, false) == Cells(target, false);
    LexValue(l1.(word := Some(Cells(target, false))), e.value);
    assert l1.words + [Cells(target, false) + Cells(e.value, true)] == Command(e);
  }

  lemma LineSplits(a: string, b: string, c: string, d: string, e: string)
    ensures a + b + c + d + e == a + ((b + c) + (d + e))
  {
  }

  lemma LexOne(l: Lexer, c: char)
    ensures Lex(l, [c]) == Step(l, c)
  {
    assert [c][1..] == "";
  }

  /** The quoted value and the newline that ends the command. */
  lemma LexValue(l: Lexer, v: string)
    requires l.Lexer? && l.mode == Plain && l.word.Some?
    ensures Lex(l, ShellQuote(v) + "\n") ==
            if HasNul(v) then Stuck else Fresh(l.commands + [l.words + [l.word.value + Cells(v, true)]])
  {
    LexAppends(l, ShellQuote(v), "\n");
    LexQuoted(l, v);
    LexOne(Lex(l, ShellQuote(v)), '\n');
  }

  lemma LexKeyword(commands: seq<seq<Word>>)
    ensures Lex(Fresh(commands), "export ") == Lexer(Plain, None, [Cells("export", false)], commands)
  {
    var l := Fresh(commands);
    assert "export " == "export" + " ";
    LexAppends(l, "export", " ");
    LexPlain(l, "export");
    assert Letters(l) + Cells("export", false) == Cells("export", false);
    LexOne(Lex(l, "export"), ' ');
  }

  lemma {:induction false} EqualsFound(name: string, rest: Word)
    requires forall i :: 0 <= i < |name| ==> name[i] != '='
    ensures FirstEquals(Cells(name, false) + [Cell('=', false)] + rest) == |name|
  {
    var w := Cells(name, false) + [Cell('=', false)] + rest;
    if name != "" {
      EqualsFound(name[1..], rest);
      assert w[1..] == Cells(name[1..], false) + [Cell('=', false)] + rest;
    }
  }

  /** A printed command parses to its export exactly when the name is a Name. */
  lemma CommandParses(e: Export)
    requires NameIsSafe(e.name)
    ensures ParseExport(Command(e)) == if IsName(e.name) then Some(e) else None
  {
    var w := Command(e)[1];
    assert Cells(e.name + "=", false) == Cells(e.name, false) + [Cell('=', false)];
    assert w == Cells(e.name, false) + [Cell('=', false)] + Cells(e.value, true);
    EqualsFound(e.name, Cells(e.value, true));
    assert w[..|e.name|] == Cells(e.name, false);
    assert w[|e.name| + 1..] == Cells(e.value, true);
    assert Chars(Cells(e.name, false)) == e.name && Chars(Cells(e.value, true)) == e.value;
    assert Chars(Cells("export", false)) == "export";
  }

  predicate NamesAreSafe(exports: seq<Export>) {
    forall i :: 0 <= i < |exports| ==> NameIsSafe(exports[i].name)
  }

  predicate ValuesAreNulFree(exports: seq<Export>) {
    forall i :: 0 <= i < |exports| ==> !HasNul(exports[i].value)
  }

  predicate AllNames(exports: seq<Export>) {
    forall i :: 0 <= i < |exports| ==> IsName(exports[i].name)
  }

  function Commands(exports: seq<Export>): seq<seq<Word>> {
    seq(|exports|, i requires 0 <= i < |exports| => Command(exports[i]))
  }

  lemma {:induction false} LexLines(exports: seq<Export>)
    requires NamesAreSafe(exports)
    ensures Lex(Fresh([]), Lines(exports)) ==
            if ValuesAreNulFree(exports) then Fresh(Commands(exports)) else Stuck
  {
    if exports == [] {
      assert Commands(exports) == [];
    } else {
      var last := |exports| - 1;
      var init := exports[..last];
      assert exports == init + [exports[last]];
      LexLines(init);
      LexAppends(Fresh([]), Lines(init), Line(exports[last]));
      assert ValuesAreNulFree(exports) <==> ValuesAreNulFree(init) && !HasNul(exports[last].value);
      if ValuesAreNulFree(init) {
        LexLine(Commands(init), exports[last]);
        assert Commands(init) + [Command(exports[last])] == Commands(exports);
      } else {
        StuckStays(Line(exports[last]));
      }
    }
  }

  lemma {:induction false} CommandsParse(exports: seq<Export>)
    requires NamesAreSafe(exports)
    ensures ParseExports(Commands(exports)) == if AllNames(exports) then Some(exports) else None
  {
    if exports != [] {
      var last := |exports| - 1;
      var init := exports[..last];
      assert exports == init + [exports[last]];
      CommandsParse(init);
      CommandParses(exports[last]);
      assert AllNames(exports) <==> AllNames(init) && IsName(exports[last].name);
      assert Commands(exports)[..last] == Commands(init);
    }
  }

  /** Sourcing printed lines gives back exactly the exports, or fails, and it fails only for a bad name or a NUL. */
  lemma SourceUndoesLines(exports: seq<Export>)
    requires NamesAreSafe(exports)
    ensures Source(Lines(exports)) ==
            if AllNames(exports) && ValuesAreNulFree(exports) then Some(exports) else None
  {
    LexLines(exports);
    CommandsParse(exports);
  }

  predicate NulFree(r: SecretResponse) {
    !HasNul(r.value) && forall k :: k in FieldMap(r) ==> !HasNul(FieldMap(r)[k])
  }

  lemma FieldExportsArePrintable(r: SecretResponse, keys: seq<string>)
    requires forall k :: k in keys <==> k in FieldMap(r)
    ensures NamesAreSafe(FieldExports(r, keys)) && AllNames(FieldExports(r, keys))
    ensures ValuesAreNulFree(FieldExports(r, keys)) <==> forall k :: k in FieldMap(r) ==> !HasNul(FieldMap(r)[k])
  {
    var exports := FieldExports(r, keys);
    forall i | 0 <= i < |keys|
      ensures IsName(exports[i].name) && keys[i] in FieldMap(r)
    {
      FieldNameIsName(r.path, keys[i]);
      assert keys[i] in keys;
    }
    if ValuesAreNulFree(exports) {
      forall k | k in FieldMap(r) ensures !HasNul(FieldMap(r)[k]) {
        assert k in keys;
        var i :| 0 <= i < |keys| && keys[i] == k;
        assert exports[i].value == FieldMap(r)[k];
      }
    }
  }

  lemma IntendedIsPrintable(r: SecretResponse)
    ensures NamesAreSafe(Intended(r))
    ensures AllNames(Intended(r)) <==> r.path != "" || r.value == ""
    ensures ValuesAreNulFree(Intended(r)) <==> NulFree(r)
  {
    var fields := FieldExports(r, Text.SortedKeys(FieldMap(r).Keys));
    FieldExportsArePrintable(r, Text.SortedKeys(FieldMap(r).Keys));
    if r.value == "" {
      assert Intended(r) == fields;
    } else {
      ValueExportIsPrintable(r);
      PrependExport(ValueExport(r)[0], fields);
    }
  }

  /**
     For every secret: a shell sourcing the output makes exactly the intended exports when the
     values are free of NUL and a value comes with a path, and meets something else otherwise. Those
     are the value under the name that spells the path, and each field in sorted order under the name
     that spells path and field.
   */
  lemma SourceUndoesPrinter(r: SecretResponse)
    ensures Source(Lines(Intended(r))) ==
            if NulFree(r) && (r.path != "" || r.value == "") then Some(Intended(r)) else None
    ensures exists keys :: && Text.Lists(keys, if r.fields.Some? then r.fields.value.Keys else {})
                           && Assigns(Intended(r), r, keys)
  {
    IntendedAssigns(r);
    IntendedIsPrintable(r);
    SourceUndoesLines(Intended(r));
  }

  lemma ValueExportIsPrintable(r: SecretResponse)
    requires r.value != ""
    ensures var first := ValueExport(r)[0];
            ValueExport(r) == [first] && first.value == r.value
            && NameIsSafe(first.name) && (IsName(first.name) <==> r.path != "")
  {
    if r.path != "" { SafeKeyIsName(r.path); }
  }

  lemma PrependExport(first: Export, rest: seq<Export>)
    ensures NamesAreSafe([first] + rest) <==> NameIsSafe(first.name) && NamesAreSafe(rest)
    ensures AllNames([first] + rest) <==> IsName(first.name) && AllNames(rest)
    ensures ValuesAreNulFree([first] + rest) <==> !HasNul(first.value) && ValuesAreNulFree(rest)
  {
    var all := [first] + rest;
    assert all[0] == first && forall i :: 0 <= i < |rest| ==> all[i + 1] == rest[i];
  }
}
