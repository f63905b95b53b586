/** The command-line parser, `cmd/omnivault/flags.go`. A `string` is an argument's bytes. */
module Flags {
  import opened Secrets

  /** What one or two arguments are read as. */
  datatype Item =
    | LongEquals(name: string, value: string)  // --name=value
    | LongValue(name: string, value: string)   // --name value
    | LongBool(name: string)                   // --name, a boolean
    | LongEmpty(name: string)                  // --name with no value to take
    | ShortValue(name: string, value: string)  // -x value
    | ShortBool(name: string)                  // -x, a boolean
    | ShortEmpty(name: string)                 // -x with no value to take
    | Positional(arg: string)

  datatype Parsed = Parsed(flags: map<string, string>, bools: set<string>, args: seq<string>)

  predicate StartsWithDash(arg: string) {
    |arg| >= 1 && arg[0] == '-'
  }

  /** Starts with `--`. */
  predicate IsLong(arg: string) {
    |arg| >= 2 && arg[0] == '-' && arg[1] == '-'
  }

  predicate IsShort(arg: string) {
    !IsLong(arg) && StartsWithDash(arg) && |arg| == 2
  }

  /** Where `=` first stands, or the length. */
  function IndexOfEquals(s: string): (i: nat)
    ensures i <= |s| && (i < |s| ==> s[i] == '=') && forall j :: 0 <= j < i ==> s[j] != '='
  {
    if s == "" || s[0] == '=' then 0 else 1 + IndexOfEquals(s[1..])
  }

  predicate NoEquals(s: string) {
    forall j :: 0 <= j < |s| ==> s[j] != '='
  }

  /** What `--name` is read as, given the argument after it. */
  function NextLong(name: string, following: Option<string>, bools: set<string>): (r: (Item, nat))
    ensures r.1 == 1 || (r.1 == 2 && following.Some?)
  {
    var at := IndexOfEquals(name);
    if at < |name| then (LongEquals(name[..at], name[at + 1..]), 1)
    else if name in bools then (LongBool(name), 1)
    else if following.Some? && !IsLong(following.value) then (LongValue(name, following.value), 2)
    else (LongEmpty(name), 1)
  }

  /** What `-x` is read as. */
  function NextShort(name: string, following: Option<string>, bools: set<string>): (r: (Item, nat))
    ensures r.1 == 1 || (r.1 == 2 && following.Some?)
  {
    if name in bools then (ShortBool(name), 1)
    else if following.Some? && !StartsWithDash(following.value) then (ShortValue(name, following.value), 2)
    else (ShortEmpty(name), 1)
  }

  function At(args: seq<string>, i: nat): Option<string> {
    if i < |args| then Some(args[i]) else None
  }

  /** The item an argument starts, and how many arguments it takes. */
  function ReadItem(arg: string, following: Option<string>, bools: set<string>): (r: (Item, nat))
    ensures r.1 == 1 || (r.1 == 2 && following.Some?)
  {
    if IsLong(arg) then NextLong(arg[2..], following, bools)
    else if IsShort(arg) then NextShort(arg[1..], following, bools)
    else (Positional(arg), 1)
  }

  /** The item at the front of the arguments. */
  function Next(args: seq<string>, bools: set<string>): (r: (Item, nat))
    requires args != []
    ensures 1 <= r.1 <= |args|
  {
    ReadItem(args[0], At(args, 1), bools)
  }

  /** All items, in order. */
  function Items(args: seq<string>, bools: set<string>): seq<Item> {
    if args == [] then []
    else
      var (item, n) := Next(args, bools);
      [item] + Items(args[n..], bools)
  }

  function Apply(p: Parsed, item: Item): Parsed {
    match item
    case LongEquals(name, value) => p.(flags := p.flags[name := value])
    case LongValue(name, value) => p.(flags := p.flags[name := value])
    case ShortValue(name, value) => p.(flags := p.flags[name := value])
    case LongEmpty(name) => p.(flags := p.flags[name := ""])
    case ShortEmpty(name) => p.(flags := p.flags[name := ""])
    case LongBool(name) => p.(bools := p.bools + {name})
    case ShortBool(name) => p.(bools := p.bools + {name})
    case Positional(arg) => p.(args := p.args + [arg])
  }

  function Meaning(items: seq<Item>): Parsed {
    if items == [] then Parsed(map[], {}, [])
    else Apply(Meaning(items[..|items| - 1]), items[|items| - 1])
  }

  method ParseFlags(args: seq<string>, boolFlags: seq<string>) returns (p: Parsed)
    ensures p == Meaning(Items(args, set b | b in boolFlags))
  {
    var isBoolFlag := Lookup(boolFlags);
    p := Parsed(map[], {}, []);
    ghost var done: seq<Item> := [];
    var i := 0;
    while i < |args|
      invariant 0 <= i <= |args|
      invariant p == Meaning(done)
      invariant Items(args, isBoolFlag) == done + Items(args[i..], isBoolFlag)
    {
      ghost var (item, n) := ReadItem(args[i], At(args, i + 1), isBoolFlag);
      ItemsGrow(args, i, isBoolFlag, done);
      p, i := ReadFlag(args, i, isBoolFlag, p);
      done := done + [item];
    }
    assert args[i..] == [] && done + [] == done;
  }

  /** The lookup table for boolean flags. */
  method Lookup(boolFlags: seq<string>) returns (isBoolFlag: set<string>)
    ensures isBoolFlag == set b | b in boolFlags
  {
    isBoolFlag := {};
    for j := 0 to |boolFlags|
      invariant forall b :: b in isBoolFlag <==> b in boolFlags[..j]
    {
      isBoolFlag := isBoolFlag + {boolFlags[j]};
      assert forall b :: b in boolFlags[..j + 1] <==> b in boolFlags[..j] || b == boolFlags[j];
    }
    assert boolFlags[..|boolFlags|] == boolFlags;
  }

  lemma {:induction false} ItemsGrow(args: seq<string>, i: nat, bools: set<string>, done: seq<Item>)
    requires i < |args|
    ensures var (item, n) := ReadItem(args[i], At(args, i + 1), bools);
            && i + n <= |args|
            && done + Items(args[i..], bools) == (done + [item]) + Items(args[i + n..], bools)
            && Meaning(done + [item]) == Apply(Meaning(done), item)
  {
    var (item, n) := ReadItem(args[i], At(args, i + 1), bools);
    assert args[i..][0] == args[i] && At(args[i..], 1) == At(args, i + 1);
    assert args[i..][n..] == args[i + n..];
    assert (done + [item])[..|done|] == done;
  }

  /** One turn of the loop: looks at `args[i]`, and at the next argument if it needs a value. */
  method ReadFlag(args: seq<string>, i: nat, isBoolFlag: set<string>, p: Parsed) returns (q: Parsed, next: nat)
    requires i < |args|
    ensures var (item, n) := ReadItem(args[i], At(args, i + 1), isBoolFlag); q == Apply(p, item) && next == i + n
  {
    var arg := args[i];
    if IsLong(arg) {
      var name := arg[2..];
      var at := IndexOfEquals(name);
      if at < |name| {
        return p.(flags := p.flags[name[..at] := name[at + 1..]]), i + 1;
      }
      if name in isBoolFlag {
        return p.(bools := p.bools + {name}), i + 1;
      }
      if i + 1 < |args| && !IsLong(args[i + 1]) {
        return p.(flags := p.flags[name := args[i + 1]]), i + 2;
      }
      return p.(flags := p.flags[name := ""]), i + 1;
    }
    if StartsWithDash(arg) && |arg| == 2 {
      var name := arg[1..];
      if name in isBoolFlag {
        return p.(bools := p.bools + {name}), i + 1;
      }
      if i + 1 < |args| && !StartsWithDash(args[i + 1]) {
        return p.(flags := p.flags[name := args[i + 1]]), i + 2;
      }
      return p.(flags := p.flags[name := ""]), i + 1;
    }
    return p.(args := p.args + [arg]), i + 1;
  }

  // ---------- printing and parsing are inverse ----------

  /** The argument an item starts with. */
  function Head(item: Item): string {
    match item
    case LongEquals(name, value) => "--" + (name + "=" + value)
    case LongValue(name, _) => "--" + name
    case LongBool(name) => "--" + name
    case LongEmpty(name) => "--" + name
    case ShortValue(name, _) => "-" + name
    case ShortBool(name) => "-" + name
    case ShortEmpty(name) => "-" + name
    case Positional(arg) => arg
  }

  predicate TakesNext(item: Item) {
    item.LongValue? || item.ShortValue?
  }

  function Print(item: Item): seq<string> {
    if TakesNext(item) then [Head(item), item.value] else [Head(item)]
  }

  function PrintAll(items: seq<Item>): seq<string> {
    if items == [] then [] else Print(items[0]) + PrintAll(items[1..])
  }

  /** An item that can be written so that it is read back, given the argument that follows it. */
  predicate Fits(item: Item, following: Option<string>, bools: set<string>) {
    match item
    case LongEquals(name, _) => NoEquals(name)
    case LongValue(name, value) => NoEquals(name) && name !in bools && !IsLong(value)
    case LongBool(name) => NoEquals(name) && name in bools
    case LongEmpty(name) => NoEquals(name) && name !in bools && (following.Some? ==> IsLong(following.value))
    case ShortValue(name, value) => |name| == 1 && name[0] != '-' && name !in bools && !StartsWithDash(value)
    case ShortBool(name) => |name| == 1 && name[0] != '-' && name in bools
    case ShortEmpty(name) =>
      |name| == 1 && name[0] != '-' && name !in bools && (following.Some? ==> StartsWithDash(following.value))
    case Positional(arg) => !IsLong(arg) && !IsShort(arg)
  }

  predicate AllFit(items: seq<Item>, bools: set<string>) {
    items == [] || (Fits(items[0], At(PrintAll(items[1..]), 0), bools) && AllFit(items[1..], bools))
  }

  /** The argument that stands after the head of a printed item. */
  function Second(item: Item, following: Option<string>): Option<string> {
    if TakesNext(item) then Some(item.value) else following
  }

  function Size(item: Item): nat {
    if TakesNext(item) then 2 else 1
  }

  /** A printed item is read back exactly when it fits. */
  lemma ReadsPrinted(item: Item, following: Option<string>, bools: set<string>)
    ensures ReadItem(Head(item), Second(item, following), bools) == (item, Size(item)) <==> Fits(item, following, bools)
  {
    match item
    case LongEquals(name, value) =>
      LongName(name + "=" + value);
      EqualsSplits(name, value);
    case LongValue(name, _) => LongName(name);
    case LongBool(name) => LongName(name);
    case LongEmpty(name) => LongName(name);
    case ShortValue(name, _) => ReadsShort(item, following, bools);
    case ShortBool(name) => ReadsShort(item, following, bools);
    case ShortEmpty(name) => ReadsShort(item, following, bools);
    case Positional(_) =>
  }

  lemma ReadsShort(item: Item, following: Option<string>, bools: set<string>)
    requires item.ShortValue? || item.ShortBool? || item.ShortEmpty?
    ensures ReadItem(Head(item), Second(item, following), bools) == (item, Size(item)) <==> Fits(item, following, bools)
  {
    ShortName(item.name);
  }

  lemma LongName(name: string)
    ensures IsLong("--" + name) && ("--" + name)[2..] == name
  {
  }

  lemma ShortName(name: string)
    ensures IsShort("-" + name) <==> |name| == 1 && name[0] != '-'
    ensures IsLong("-" + name) ==> |name| >= 1 && name[0] == '-'
    ensures ("-" + name)[1..] == name
  {
    assert forall j :: 0 <= j < |name| ==> ("-" + name)[j + 1] == name[j];
  }

  lemma EqualsSplits(name: string, value: string)
    ensures var s := name + "=" + value;
            var at := IndexOfEquals(s);
            at < |s| && (s[..at] == name && s[at + 1..] == value <==> NoEquals(name))
  {
    var s := name + "=" + value;
    assert s[|name|] == '=' && forall j :: 0 <= j < |name| ==> s[j] == name[j];
    var at := IndexOfEquals(s);
    if NoEquals(name) {
      assert at == |name|;
      assert s[..at] == name && s[at + 1..] == value;
    } else {
      assert at < |name| && |s[..at]| == at;
    }
  }

  /** The front of printed arguments is the first item, read or misread. */
  lemma NextReadsPrinted(item: Item, rest: seq<string>, bools: set<string>)
    ensures Next(Print(item) + rest, bools) == (item, Size(item)) <==> Fits(item, At(rest, 0), bools)
  {
    ReadsPrinted(item, At(rest, 0), bools);
    var args := Print(item) + rest;
    assert args[0] == Head(item);
    assert At(args, 1) == Second(item, At(rest, 0));
  }

  /** Parsing what was printed gives the same items back exactly when every item fits its place. */
  lemma {:induction false} ParseUndoesPrint(items: seq<Item>, bools: set<string>)
    ensures Items(PrintAll(items), bools) == items <==> AllFit(items, bools)
  {
    if items != [] {
      var following := PrintAll(items[1..]);
      var args := PrintAll(items);
      NextReadsPrinted(items[0], following, bools);
      ParseUndoesPrint(items[1..], bools);
      var (item, n) := Next(args, bools);
      assert Items(args, bools) == [item] + Items(args[n..], bools);
      assert items == [items[0]] + items[1..];
      if item == items[0] {
        ItemTakesItsPrint(args[0], At(args, 1), bools);
        assert args[n..] == following;
        assert Items(args, bools) == items <==> Items(following, bools) == items[1..];
      } else {
        assert Items(args, bools)[0] != items[0];
      }
    }
  }

  /** Reading an item takes as many arguments as printing it gives. */
  lemma ItemTakesItsPrint(arg: string, following: Option<string>, bools: set<string>)
    ensures var (item, n) := ReadItem(arg, following, bools); n == Size(item)
  {
  }

  /** Every argument is consumed exactly once: printing the items gives the arguments back. */
  lemma {:induction false} PrintUndoesParse(args: seq<string>, bools: set<string>)
    ensures PrintAll(Items(args, bools)) == args
    ensures AllFit(Items(args, bools), bools)
  {
    if args != [] {
      var (item, n) := Next(args, bools);
      var rest := Items(args[n..], bools);
      PrintUndoesParse(args[n..], bools);
      ReadIsPrinted(args[0], At(args, 1), bools);
      ItemTakesItsPrint(args[0], At(args, 1), bools);
      FrontIsPrinted(args, item);
      assert ([item] + rest)[1..] == rest;
      NextReadsPrinted(item, args[n..], bools);
    }
  }

  lemma FrontIsPrinted(args: seq<string>, item: Item)
    requires args != [] && Head(item) == args[0] && (TakesNext(item) ==> Some(item.value) == At(args, 1))
    ensures Print(item) + args[Size(item)..] == args
  {
  }

  lemma ReadIsPrinted(arg: string, following: Option<string>, bools: set<string>)
    ensures var item := ReadItem(arg, following, bools).0;
            Head(item) == arg && (TakesNext(item) ==> Some(item.value) == following)
  {
    if IsLong(arg) {
      LongIsPrinted(arg[2..], following, bools);
      assert arg == "--" + arg[2..];
    } else if IsShort(arg) {
      assert arg == "-" + arg[1..];
    }
  }

  lemma LongIsPrinted(name: string, following: Option<string>, bools: set<string>)
    ensures var item := NextLong(name, following, bools).0;
            Head(item) == "--" + name && (TakesNext(item) ==> Some(item.value) == following)
  {
    var at := IndexOfEquals(name);
    if at < |name| {
      SplitsAt(name, at);
    }
  }

  lemma SplitsAt(name: string, at: nat)
    requires at < |name| && name[at] == '='
    ensures name == name[..at] + "=" + name[at + 1..]
  {
  }

  // ---------- what the items mean ----------

  predicate SetsFlag(item: Item, name: string) {
    && (item.LongEquals? || item.LongValue? || item.ShortValue? || item.LongEmpty? || item.ShortEmpty?)
    && item.name == name
  }

  function FlagValue(item: Item): string {
    if item.LongEquals? || item.LongValue? || item.ShortValue? then item.value else ""
  }

  predicate SetsBool(item: Item, name: string) {
    (item.LongBool? || item.ShortBool?) && item.name == name
  }

  function Positionals(items: seq<Item>): seq<string> {
    if items == [] then []
    else Positionals(items[..|items| - 1]) + if items[|items| - 1].Positional? then [items[|items| - 1].arg] else []
  }

  /** A flag is set when some item sets it, and the last one to do so wins. */
  lemma {:induction false} LastFlagWins(items: seq<Item>, name: string, i: nat)
    requires i < |items| && SetsFlag(items[i], name)
    requires forall j :: i < j < |items| ==> !SetsFlag(items[j], name)
    ensures name in Meaning(items).flags && Meaning(items).flags[name] == FlagValue(items[i])
  {
    if i < |items| - 1 {
      LastFlagWins(items[..|items| - 1], name, i);
    }
  }

  lemma {:induction false} UnsetFlagIsAbsent(items: seq<Item>, name: string)
    requires forall j :: 0 <= j < |items| ==> !SetsFlag(items[j], name)
    ensures name !in Meaning(items).flags
  {
    if items != [] {
      UnsetFlagIsAbsent(items[..|items| - 1], name);
    }
  }

  /** Booleans accumulate. */
  lemma {:induction false} BooleansAccumulate(items: seq<Item>, name: string)
    ensures name in Meaning(items).bools <==> exists i :: 0 <= i < |items| && SetsBool(items[i], name)
  {
    if items != [] {
      var last := |items| - 1;
      var init := items[..last];
      BooleansAccumulate(init, name);
      if i :| 0 <= i < last && SetsBool(items[i], name) {
        assert SetsBool(init[i], name);
      }
    }
  }

  /** Positional arguments keep their order. */
  lemma {:induction false} PositionalsKeepOrder(items: seq<Item>)
    ensures Meaning(items).args == Positionals(items)
  {
    if items != [] {
      PositionalsKeepOrder(items[..|items| - 1]);
    }
  }

  predicate IsPlain(arg: string) {
    !IsLong(arg) && !IsShort(arg)
  }

  lemma {:induction false} PositionalsArePlain(items: seq<Item>, bools: set<string>)
    requires AllFit(items, bools)
    ensures forall i :: 0 <= i < |items| && items[i].Positional? ==> IsPlain(items[i].arg)
  {
    if items != [] {
      PositionalsArePlain(items[1..], bools);
      assert forall i :: 0 < i < |items| ==> items[i] == items[1..][i - 1];
    }
  }

  lemma {:induction false} PlainMeaning(items: seq<Item>)
    requires forall i :: 0 <= i < |items| && items[i].Positional? ==> IsPlain(items[i].arg)
    ensures forall i :: 0 <= i < |Positionals(items)| ==> IsPlain(Positionals(items)[i])
  {
    if items != [] {
      PlainMeaning(items[..|items| - 1]);
    }
  }

  function AsItems(args: seq<string>): seq<Item> {
    seq(|args|, i requires 0 <= i < |args| => Positional(args[i]))
  }

  lemma {:induction false} PlainArgsArePositional(args: seq<string>, bools: set<string>)
    requires forall i :: 0 <= i < |args| ==> IsPlain(args[i])
    ensures Items(args, bools) == AsItems(args)
  {
    if args != [] {
      PlainArgsArePositional(args[1..], bools);
      assert Next(args, bools) == (Positional(args[0]), 1);
      assert AsItems(args) == [Positional(args[0])] + AsItems(args[1..]);
    }
  }

  lemma {:induction false} PositionalMeaning(args: seq<string>)
    ensures Meaning(AsItems(args)) == Parsed(map[], {}, args)
  {
    if args != [] {
      var last := |args| - 1;
      PositionalMeaning(args[..last]);
      assert AsItems(args)[..last] == AsItems(args[..last]);
      assert args == args[..last] + [args[last]];
    }
  }

  /**
     What is left after parsing can be parsed again, for the same or other boolean flags, and comes out
     as it is: a subcommand that parses its parent's positional arguments sees exactly those.
   */
  lemma PositionalsAreStable(args: seq<string>, bools: set<string>, others: set<string>)
    ensures var p := Meaning(Items(args, bools));
            Meaning(Items(p.args, others)) == Parsed(map[], {}, p.args)
  {
    var items := Items(args, bools);
    PrintUndoesParse(args, bools);
    PositionalsArePlain(items, bools);
    PlainMeaning(items);
    PositionalsKeepOrder(items);
    PlainArgsArePositional(Positionals(items), others);
    PositionalMeaning(Positionals(items));
  }
}
