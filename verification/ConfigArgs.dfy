/** The command-line grammar: what each token of argv is read as, and that reading is the exact
    inverse of writing. */
module ConfigArgs {
  import opened Wrappers
  import opened Texts
  import opened ConfigPaths
  import opened ConfigSchema

  const CONFIG_FLAG: string := "--config"
  const HELP_FLAG: string := "--help"
  const HELP_FLAG_SHORT: string := "-h"
  const PRINT_CONFIG_FLAG: string := "--print-config"

  /** A value given to a field: the field, the text, the flag as written. */
  datatype Binding = Binding(path: Path, text: string, flag: string)

  datatype Parsed = Parsed(help: bool, printConfig: bool, config: Option<string>, values: seq<Binding>)

  type Flags = map<string, Field>

  function ByFlag(fields: seq<Field>): Flags {
    if fields == [] then map[]
    else ByFlag(fields[..|fields| - 1])[fields[|fields| - 1].FlagName() := fields[|fields| - 1]]
  }

  predicate Dashed(s: string) { DASHES <= s }

  /** A token's name and the value written behind its `=`. */
  function Halves(token: string): (string, Option<string>) {
    match SplitOnce(token, '=')
    case Some((name, value)) => if Dashed(name) then (name, Some(value)) else (token, None)
    case None => (token, None)
  }

  // ----- one token ---------------------------------------------------------------------------------

  datatype Style = Inline | Spaced | Bare

  /** What a token, or a token and the value after it, is read as. */
  datatype Item =
    | Help(token: string)
    | Print(token: string)
    | File(text: string, style: Style)
    | Bound(binding: Binding, style: Style)
    | Unknown(token: string)

  /** The value of a flag that needs one, and what is left of argv. */
  function TakeValue(inline: Option<string>, rest: seq<string>): (r: Option<(string, Style, seq<string>)>)
    ensures r.Some? ==> |r.value.2| <= |rest|
  {
    match inline
    case Some(value) => Some((value, Inline, rest))
    case None => if rest != [] && !Dashed(rest[0]) then Some((rest[0], Spaced, rest[1..])) else None
  }

  /** What a name asks for. */
  datatype Meaning = AsksHelp | AsksPrint | NamesFile | Gives(field: Field) | Nothing

  function MeaningOf(flags: Flags, name: string): Meaning {
    if name == HELP_FLAG || name == HELP_FLAG_SHORT then AsksHelp
    else if name == PRINT_CONFIG_FLAG then AsksPrint
    else if name == CONFIG_FLAG then NamesFile
    else if name in flags then Gives(flags[name])
    else Nothing
  }

  /** What a token of a known meaning is read as, and what is left of the tokens behind it. */
  function ItemAs(meaning: Meaning, token: string, rest: seq<string>): (r: Result<(Item, seq<string>), Refusal>)
    ensures r.Ok? ==> |r.value.1| <= |rest|
  {
    var (name, inline) := Halves(token);
    match meaning
    case AsksHelp => Ok((Help(token), rest))
    case AsksPrint => Ok((Print(token), rest))
    case Nothing => Ok((Unknown(token), rest))
    case NamesFile => (
      match TakeValue(inline, rest)
      case None => Err(NoValue(name))
      case Some((text, style, rest')) => Ok((File(text, style), rest')))
    case Gives(field) =>
      if field.kind.Bool? then
        match inline
        case Some(text) => Ok((Bound(Binding(field.path, text, name), Inline), rest))
        case None => Ok((Bound(Binding(field.path, "true", name), Bare), rest))
      else
        match TakeValue(inline, rest)
        case None => Err(NoValue(name))
        case Some((text, style, rest')) => Ok((Bound(Binding(field.path, text, name), style), rest'))
  }

  /** The first item of argv and what is left behind it. */
  function ReadItem(flags: Flags, args: seq<string>): (r: Result<(Item, seq<string>), Refusal>)
    requires args != []
    ensures r.Ok? ==> |r.value.1| < |args|
  {
    ItemAs(MeaningOf(flags, Halves(args[0]).0), args[0], args[1..])
  }

  /** How an item is written. */
  function Written(flag: string, text: string, style: Style): seq<string> {
    match style
    case Inline => [flag + ['='] + text]
    case Spaced => [flag, text]
    case Bare => [flag]
  }

  function Tokens(item: Item): seq<string> {
    match item
    case Help(token) => [token]
    case Print(token) => [token]
    case Unknown(token) => [token]
    case File(text, style) => Written(CONFIG_FLAG, text, style)
    case Bound(binding, style) => Written(binding.flag, binding.text, style)
  }

  lemma HalvesJoin(token: string)
    ensures Halves(token).1.Some? ==>
            token == Halves(token).0 + ['='] + Halves(token).1.value && Dashed(Halves(token).0)
    ensures Halves(token).1.None? ==> token == Halves(token).0
  {
  }

  lemma ValueConsumes(token: string, rest: seq<string>)
    ensures var (name, inline) := Halves(token);
      TakeValue(inline, rest).Some? ==>
        var (text, style, rest') := TakeValue(inline, rest).value;
        Written(name, text, style) + rest' == [token] + rest
  {
    HalvesJoin(token);
  }

  lemma ItemAsConsumes(meaning: Meaning, token: string, rest: seq<string>)
    requires meaning.NamesFile? ==> Halves(token).0 == CONFIG_FLAG
    requires ItemAs(meaning, token, rest).Ok?
    ensures var (item, rest') := ItemAs(meaning, token, rest).value; Tokens(item) + rest' == [token] + rest
  {
    match meaning
    case NamesFile => ValueConsumes(token, rest);
    case Gives(field) => if field.kind.Bool? { HalvesJoin(token); } else { ValueConsumes(token, rest); }
    case _ =>
  }

  lemma ConfigMeans(flags: Flags, name: string)
    ensures MeaningOf(flags, name).NamesFile? ==> name == CONFIG_FLAG
    ensures MeaningOf(flags, name).Gives? ==> name in flags && MeaningOf(flags, name).field == flags[name]
  {
  }

  /** An item is written as the tokens it was read from. */
  lemma ItemConsumes(flags: Flags, args: seq<string>)
    requires args != [] && ReadItem(flags, args).Ok?
    ensures var (item, rest) := ReadItem(flags, args).value; Tokens(item) + rest == args
  {
    ConfigMeans(flags, Halves(args[0]).0);
    ItemAsConsumes(MeaningOf(flags, Halves(args[0]).0), args[0], args[1..]);
    assert args == [args[0]] + args[1..];
  }

  // ----- all of argv ---------------------------------------------------------------------------------

  function Read(flags: Flags, args: seq<string>): Result<seq<Item>, Refusal>
    decreases |args|
  {
    if args == [] then Ok([])
    else
      match ReadItem(flags, args)
      case Err(e) => Err(e)
      case Ok((item, rest)) =>
        match Read(flags, rest)
        case Err(e) => Err(e)
        case Ok(items) => Ok([item] + items)
  }

  /** What an item adds to what is parsed so far. */
  function Add(parsed: Parsed, item: Item): Parsed {
    match item
    case Help(_) => parsed.(help := true)
    case Print(_) => parsed.(printConfig := true)
    case File(text, _) => parsed.(config := Some(text))
    case Bound(binding, _) => parsed.(values := parsed.values + [binding])
    case Unknown(_) => parsed
  }

  function AddAll(parsed: Parsed, items: seq<Item>): Parsed
    decreases |items|
  {
    if items == [] then parsed else AddAll(Add(parsed, items[0]), items[1..])
  }

  function Unknowns(items: seq<Item>): seq<string> {
    if items == [] then []
    else (if items[0].Unknown? then [items[0].token] else []) + Unknowns(items[1..])
  }

  const NOTHING: Parsed := Parsed(false, false, None, [])

  function Judge(parsed: Parsed, unknown: seq<string>): Result<Parsed, Refusal> {
    if parsed.help || unknown == [] then Ok(parsed) else Err(UnknownFlags(unknown))
  }

  function Continue(parsed: Parsed, unknown: seq<string>, items: Result<seq<Item>, Refusal>): Result<Parsed, Refusal> {
    match items
    case Err(e) => Err(e)
    case Ok(items) => Judge(AddAll(parsed, items), unknown + Unknowns(items))
  }

  function ParseArgs(fields: seq<Field>, args: seq<string>): Result<Parsed, Refusal> {
    Continue(NOTHING, [], Read(ByFlag(fields), args))
  }

  function Also(unknown: seq<string>, item: Item): seq<string> {
    if item.Unknown? then unknown + [item.token] else unknown
  }

  lemma ContinueOne(parsed: Parsed, unknown: seq<string>, item: Item, more: seq<Item>)
    ensures Continue(parsed, unknown, Ok([item] + more)) == Continue(Add(parsed, item), Also(unknown, item), Ok(more))
  {
    var items := [item] + more;
    assert items[1..] == more;
    assert unknown + Unknowns(items) == Also(unknown, item) + Unknowns(more);
  }

  lemma ReadOne(parsed: Parsed, unknown: seq<string>, flags: Flags, args: seq<string>)
    requires args != []
    ensures Continue(parsed, unknown, Read(flags, args)) ==
            match ReadItem(flags, args)
            case Err(e) => Err(e)
            case Ok((item, rest)) => Continue(Add(parsed, item), Also(unknown, item), Read(flags, rest))
  {
    if ReadItem(flags, args).Ok? {
      var (item, rest) := ReadItem(flags, args).value;
      if Read(flags, rest).Ok? { ContinueOne(parsed, unknown, item, Read(flags, rest).value); }
    }
  }

  method TakeNext(inline: Option<string>, args: seq<string>, i: nat) returns (value: Option<string>, next: nat)
    requires i <= |args|
    ensures i <= next <= |args|
    ensures match TakeValue(inline, args[i..])
      case None => value.None?
      case Some((text, _, rest)) => value == Some(text) && args[next..] == rest
  {
    if inline.Some? { return inline, i; }
    if i < |args| && !Dashed(args[i]) {
      assert args[i..][0] == args[i] && args[i..][1..] == args[i + 1..];
      return Some(args[i]), i + 1;
    }
    return None, i;
  }

  /** One turn of the loop, behind its token. */
  method ParseToken(meaning: Meaning, token: string, args: seq<string>, i: nat, parsed: Parsed, unknown: seq<string>)
    returns (r: Result<(Parsed, seq<string>, nat), Refusal>)
    requires i <= |args|
    ensures match ItemAs(meaning, token, args[i..])
      case Err(e) => r == Err(e)
      case Ok((item, rest)) =>
        && r.Ok? && r.value.0 == Add(parsed, item) && r.value.1 == Also(unknown, item)
        && i <= r.value.2 <= |args| && args[r.value.2..] == rest
  {
    var halves := Halves(token);
    var name, inline := halves.0, halves.1;
    match meaning {
      case AsksHelp => return Ok((parsed.(help := true), unknown, i));
      case AsksPrint => return Ok((parsed.(printConfig := true), unknown, i));
      case Nothing => return Ok((parsed, unknown + [token], i));
      case NamesFile =>
        var value, next := TakeNext(inline, args, i);
        if value.None? { return Err(NoValue(name)); }
        return Ok((parsed.(config := value), unknown, next));
      case Gives(field) =>
        if field.kind.Bool? {
          var text := if inline.Some? then inline.value else "true";
          return Ok((parsed.(values := parsed.values + [Binding(field.path, text, name)]), unknown, i));
        }
        var value, next := TakeNext(inline, args, i);
        if value.None? { return Err(NoValue(name)); }
        return Ok((parsed.(values := parsed.values + [Binding(field.path, value.value, name)]), unknown, next));
    }
  }

  method Parse(fields: seq<Field>, args: seq<string>) returns (r: Result<Parsed, Refusal>)
    ensures r == ParseArgs(fields, args)
  {
    var flags := ByFlag(fields);
    var parsed, unknown: seq<string>, i: nat := NOTHING, [], 0;
    assert args[0..] == args;
    while i < |args|
      invariant i <= |args|
      invariant ParseArgs(fields, args) == Continue(parsed, unknown, Read(flags, args[i..]))
      decreases |args| - i
    {
      ReadOne(parsed, unknown, flags, args[i..]);
      var token := args[i];
      i := i + 1;
      assert args[i - 1..][0] == token && args[i - 1..][1..] == args[i..];
      var turn := ParseToken(MeaningOf(flags, Halves(token).0), token, args, i, parsed, unknown);
      if turn.Err? { return Err(turn.error); }
      parsed, unknown, i := turn.value.0, turn.value.1, turn.value.2;
    }
    assert args[|args|..] == [] && unknown + [] == unknown;
    if parsed.help { return Ok(parsed); }
    if unknown != [] { return Err(UnknownFlags(unknown)); }
    return Ok(parsed);
  }

  // ----- reading and writing ---------------------------------------------------------------------------

  function AllTokens(items: seq<Item>): seq<string> {
    if items == [] then [] else Tokens(items[0]) + AllTokens(items[1..])
  }

  /** Flags as fields spell them. */
  predicate Spelled(flags: Flags) { forall name | name in flags :: Dashed(name) && '=' !in name }

  /** A value that may follow its flag as a token of its own does not look like a flag. */
  predicate StyleFits(kind: Kind, text: string, style: Style) {
    match style
    case Inline => true
    case Spaced => kind.Text? && !Dashed(text)
    case Bare => kind.Bool? && text == "true"
  }

  /** The name whose meaning an item rests on. */
  function NameOf(item: Item): string {
    match item
    case Help(token) => Halves(token).0
    case Print(token) => Halves(token).0
    case Unknown(token) => Halves(token).0
    case File(_, _) => CONFIG_FLAG
    case Bound(b, _) => b.flag
  }

  predicate ValidAs(meaning: Meaning, item: Item) {
    match item
    case Help(_) => meaning.AsksHelp?
    case Print(_) => meaning.AsksPrint?
    case Unknown(_) => meaning.Nothing?
    case File(text, style) => meaning.NamesFile? && StyleFits(Text, text, style)
    case Bound(b, style) =>
      meaning.Gives? && meaning.field.path == b.path && StyleFits(meaning.field.kind, b.text, style)
  }

  predicate Valid(flags: Flags, item: Item) { ValidAs(MeaningOf(flags, NameOf(item)), item) }

  lemma ItemAsIsValid(meaning: Meaning, token: string, rest: seq<string>)
    requires meaning.NamesFile? ==> Halves(token).0 == CONFIG_FLAG
    requires ItemAs(meaning, token, rest).Ok?
    ensures var item := ItemAs(meaning, token, rest).value.0; NameOf(item) == Halves(token).0 && ValidAs(meaning, item)
  {
  }

  lemma ItemIsValid(flags: Flags, args: seq<string>)
    requires args != [] && ReadItem(flags, args).Ok?
    ensures Valid(flags, ReadItem(flags, args).value.0)
  {
    ConfigMeans(flags, Halves(args[0]).0);
    ItemAsIsValid(MeaningOf(flags, Halves(args[0]).0), args[0], args[1..]);
  }

  lemma HalvesOfWritten(flag: string, text: string)
    requires Dashed(flag) && '=' !in flag
    ensures Halves(flag) == (flag, None)
    ensures Halves(flag + ['='] + text) == (flag, Some(text))
  {
    SplitOnceAt(flag, '=', text);
    assert Find(flag, '=').None?;
  }

  lemma ConfigFlagIsSpelled(flags: Flags)
    ensures Dashed(CONFIG_FLAG) && '=' !in CONFIG_FLAG && MeaningOf(flags, CONFIG_FLAG).NamesFile?
  {
    assert CONFIG_FLAG[2] == 'c' && HELP_FLAG[2] == 'h' && PRINT_CONFIG_FLAG[2] == 'p';
  }

  lemma WrittenReads(flag: string, text: string, style: Style, rest: seq<string>)
    requires Dashed(flag) && '=' !in flag
    ensures var args := Written(flag, text, style) + rest;
      && Halves(args[0]) == (flag, if style.Inline? then Some(text) else None)
      && (style.Inline? || (style.Spaced? && !Dashed(text)) ==>
            TakeValue(Halves(args[0]).1, args[1..]) == Some((text, style, rest)))
      && (style.Inline? || style.Bare? ==> args[1..] == rest)
  {
    HalvesOfWritten(flag, text);
    var args := Written(flag, text, style) + rest;
    if style.Spaced? { assert args[1..][0] == text && args[1..][1..] == rest; }
  }

  lemma ItemAsReadsBack(meaning: Meaning, item: Item, rest: seq<string>)
    requires ValidAs(meaning, item)
    requires item.File? || item.Bound? ==> Dashed(NameOf(item)) && '=' !in NameOf(item)
    ensures Tokens(item) != []
    ensures var args := Tokens(item) + rest;
      Halves(args[0]).0 == NameOf(item) && ItemAs(meaning, args[0], args[1..]) == Ok((item, rest))
  {
    match item
    case File(text, style) => WrittenReads(CONFIG_FLAG, text, style, rest);
    case Bound(b, style) => WrittenReads(b.flag, b.text, style, rest);
    case _ =>
  }

  /** A valid item is read back from its tokens, whatever follows. */
  lemma ItemReadsBack(flags: Flags, item: Item, rest: seq<string>)
    requires Spelled(flags) && Valid(flags, item)
    ensures Tokens(item) != [] && ReadItem(flags, Tokens(item) + rest) == Ok((item, rest))
  {
    ConfigFlagIsSpelled(flags);
    ConfigMeans(flags, NameOf(item));
    ItemAsReadsBack(MeaningOf(flags, NameOf(item)), item, rest);
  }

  lemma ReadThen(flags: Flags, item: Item, rest: seq<string>, args: seq<string>)
    requires args != [] && ReadItem(flags, args) == Ok((item, rest)) && Read(flags, rest).Ok?
    ensures Read(flags, args) == Ok([item] + Read(flags, rest).value)
  {
  }

  lemma {:induction false} ItemsReadBack(flags: Flags, items: seq<Item>)
    requires Spelled(flags) && forall item | item in items :: Valid(flags, item)
    ensures Read(flags, AllTokens(items)) == Ok(items)
    decreases |items|
  {
    if items != [] {
      var item, more := items[0], items[1..];
      assert forall other | other in more :: other in items;
      ItemsReadBack(flags, more);
      ItemReadsBack(flags, item, AllTokens(more));
      ReadThen(flags, item, AllTokens(more), Tokens(item) + AllTokens(more));
      assert items == [item] + more;
    }
  }

  lemma {:induction false} EveryTokenOnce(flags: Flags, args: seq<string>)
    requires Read(flags, args).Ok?
    ensures AllTokens(Read(flags, args).value) == args
    ensures forall item | item in Read(flags, args).value :: Valid(flags, item)
    decreases |args|
  {
    if args != [] {
      ItemConsumes(flags, args);
      ItemIsValid(flags, args);
      var (item, rest) := ReadItem(flags, args).value;
      EveryTokenOnce(flags, rest);
      var items := Read(flags, args).value;
      assert items[1..] == Read(flags, rest).value;
    }
  }

  /** Argv is read as these items exactly when they are valid and are written as it: every token is
      consumed once, in order, and nothing can be read in two ways. */
  lemma {:induction false} ReadingIsWritingBack(flags: Flags, args: seq<string>, items: seq<Item>)
    requires Spelled(flags)
    ensures Read(flags, args) == Ok(items) <==>
            AllTokens(items) == args && forall item | item in items :: Valid(flags, item)
  {
    if AllTokens(items) == args && forall item | item in items :: Valid(flags, item) { ItemsReadBack(flags, items); }
    if Read(flags, args) == Ok(items) { EveryTokenOnce(flags, args); }
  }

  function Bindings(items: seq<Item>): seq<Binding> {
    if items == [] then []
    else (if items[0].Bound? then [items[0].binding] else []) + Bindings(items[1..])
  }

  lemma {:induction false} BindingsAdded(parsed: Parsed, items: seq<Item>)
    requires forall item | item in items :: item.Bound?
    ensures AddAll(parsed, items) == parsed.(values := parsed.values + Bindings(items)) && Unknowns(items) == []
    decreases |items|
  {
    if items == [] {
      assert parsed.values + [] == parsed.values;
    } else {
      assert items[0] in items;
      BindingsAdded(Add(parsed, items[0]), items[1..]);
      assert parsed.values + [items[0].binding] + Bindings(items[1..]) ==
             parsed.values + ([items[0].binding] + Bindings(items[1..]));
    }
  }

  lemma {:induction false} FlagsOf(fields: seq<Field>)
    ensures forall name | name in ByFlag(fields) ::
            ByFlag(fields)[name] in fields && ByFlag(fields)[name].FlagName() == name
  {
    if fields != [] {
      FlagsOf(fields[..|fields| - 1]);
      assert fields == fields[..|fields| - 1] + [fields[|fields| - 1]];
    }
  }

  lemma {:induction false} JoinHasNoEquals(p: Path)
    requires forall i | 0 <= i < |p| :: '=' !in p[i]
    ensures '=' !in Join(p, DASHES)
  {
    if |p| > 1 {
      assert forall i | 0 <= i < |p[1..]| :: p[1..][i] == p[i + 1];
      JoinHasNoEquals(p[1..]);
    }
  }

  lemma FlagIsSpelled(p: Path)
    requires Idents(p)
    ensures Dashed(Flag(p)) && '=' !in Flag(p)
  {
    var q := SwapAll(p, '_', '-');
    forall i | 0 <= i < |q| ensures '=' !in q[i] {
      assert forall k | 0 <= k < |p[i]| :: NameChar(p[i][k]) && q[i][k] == SwapChar(p[i][k], '_', '-');
    }
    JoinHasNoEquals(q);
  }

  lemma SchemaIsSpelled(fields: seq<Field>)
    requires forall f | f in fields :: Idents(f.path)
    ensures Spelled(ByFlag(fields))
  {
    FlagsOf(fields);
    forall name | name in ByFlag(fields) ensures Dashed(name) && '=' !in name {
      FlagIsSpelled(ByFlag(fields)[name].path);
    }
  }

  /** Any list of bindings, written each in any style it may take, parses to that list in order. */
  lemma {:induction false} ArgvRoundTrip(fields: seq<Field>, items: seq<Item>)
    requires forall f | f in fields :: Idents(f.path)
    requires forall item | item in items :: item.Bound? && Valid(ByFlag(fields), item)
    ensures ParseArgs(fields, AllTokens(items)) == Ok(Parsed(false, false, None, Bindings(items)))
  {
    SchemaIsSpelled(fields);
    ItemsReadBack(ByFlag(fields), items);
    BindingsAdded(NOTHING, items);
    assert [] + Bindings(items) == Bindings(items) && [] + Unknowns(items) == [];
  }

  // ----- the flags of a schema ---------------------------------------------------------------------------

  lemma {:induction false} AddedValues(parsed: Parsed, items: seq<Item>)
    ensures AddAll(parsed, items).values == parsed.values + Bindings(items)
    decreases |items|
  {
    if items == [] {
      assert parsed.values + [] == parsed.values;
    } else {
      AddedValues(Add(parsed, items[0]), items[1..]);
      var own := if items[0].Bound? then [items[0].binding] else [];
      assert parsed.values + own + Bindings(items[1..]) == parsed.values + (own + Bindings(items[1..]));
      if !items[0].Bound? { assert parsed.values + [] == parsed.values; }
    }
  }

  lemma {:induction false} BindingsIn(items: seq<Item>, b: Binding)
    requires b in Bindings(items)
    ensures exists item :: item in items && item.Bound? && item.binding == b
  {
    if items[0].Bound? && items[0].binding == b {
      assert items[0] in items;
    } else {
      BindingsIn(items[1..], b);
      var item :| item in items[1..] && item.Bound? && item.binding == b;
      assert item in items;
    }
  }

  /** A parsed value belongs to the field that its flag means. */
  lemma BoundBehind(fields: seq<Field>, args: seq<string>, b: Binding)
    requires ParseArgs(fields, args).Ok? && b in ParseArgs(fields, args).value.values
    ensures MeaningOf(ByFlag(fields), b.flag).Gives?
    ensures b.flag in ByFlag(fields) && ByFlag(fields)[b.flag].path == b.path
  {
    var flags := ByFlag(fields);
    var items := Read(flags, args).value;
    EveryTokenOnce(flags, args);
    AddedValues(NOTHING, items);
    assert [] + Bindings(items) == Bindings(items);
    BindingsIn(items, b);
    var item :| item in items && item.Bound? && item.binding == b;
    assert Valid(flags, item);
    ConfigMeans(flags, b.flag);
  }

  predicate BuiltIn(name: string) {
    name == HELP_FLAG || name == HELP_FLAG_SHORT || name == PRINT_CONFIG_FLAG || name == CONFIG_FLAG
  }

  /** No field registered later is spelled like this one. */
  predicate LastOfItsFlag(fields: seq<Field>, i: nat)
    requires i < |fields|
  {
    forall j | i < j < |fields| :: fields[j].FlagName() != fields[i].FlagName()
  }

  lemma {:induction false} LastHoldsTheFlag(fields: seq<Field>, i: nat)
    requires DistinctPaths(fields) && i < |fields|
    ensures fields[i].FlagName() in ByFlag(fields)
    ensures ByFlag(fields)[fields[i].FlagName()].path == fields[i].path <==> LastOfItsFlag(fields, i)
    decreases |fields|
  {
    var last := |fields| - 1;
    if i < last {
      var before := fields[..last];
      LastHoldsTheFlag(before, i);
      assert LastOfItsFlag(fields, i) <==>
             LastOfItsFlag(before, i) && fields[last].FlagName() != fields[i].FlagName();
    }
  }

  /** A value written behind a flag goes to the field that holds the flag. */
  lemma HolderTakesTheValue(fields: seq<Field>, flag: string, text: string)
    requires Dashed(flag) && '=' !in flag && !BuiltIn(flag) && flag in ByFlag(fields)
    ensures var b := Binding(ByFlag(fields)[flag].path, text, flag);
      ParseArgs(fields, [flag + ['='] + text]) == Ok(Parsed(false, false, None, [b]))
  {
    var flags := ByFlag(fields);
    var b := Binding(flags[flag].path, text, flag);
    var item := Bound(b, Inline);
    ItemAsReadsBack(MeaningOf(flags, flag), item, []);
    var args := [flag + ['='] + text];
    assert Tokens(item) + [] == args;
    assert Read(flags, args[1..]) == Ok([]) && [item] + [] == [item];
    assert Read(flags, args) == Ok([item]);
    AloneAdded(b);
  }

  lemma AloneAdded(b: Binding)
    ensures Continue(NOTHING, [], Ok([Bound(b, Inline)])) == Ok(Parsed(false, false, None, [b]))
  {
    ContinueOne(NOTHING, [], Bound(b, Inline), []);
    assert [Bound(b, Inline)] + [] == [Bound(b, Inline)] && [] + [b] == [b];
  }

  lemma SamePathSameFlag(f: Field, g: Field)
    ensures g.path == f.path ==> g.FlagName() == f.FlagName()
  {
  }

  /** Over clear paths no two fields share a flag. */
  lemma ClearFlagsAreTheirOwn(fields: seq<Field>, i: nat)
    requires DistinctPaths(fields) && i < |fields|
    requires forall f | f in fields :: Idents(f.path) && Clear(f.path, '_')
    ensures LastOfItsFlag(fields, i)
  {
    forall j | i < j < |fields| ensures fields[j].FlagName() != fields[i].FlagName() {
      assert fields[i] in fields && fields[j] in fields;
      if fields[j].FlagName() == fields[i].FlagName() {
        SpellingsAreUnambiguous("", fields[i].path, fields[j].path);
      }
    }
  }

  /** Whatever argv parses to, the values of a field are those that stood behind its own flag, exactly
      when no later field shares the flag, or the flag is built in and gives no field anything. */
  lemma {:induction false} ValuesStandBehindTheirFlags(fields: seq<Field>, i: nat)
    requires DistinctPaths(fields) && i < |fields| && Idents(fields[i].path)
    ensures (forall args, b | ParseArgs(fields, args).Ok? && b in ParseArgs(fields, args).value.values ::
               b.path == fields[i].path <==> b.flag == fields[i].FlagName()) <==>
            LastOfItsFlag(fields, i) || BuiltIn(fields[i].FlagName())
  {
    var f, flags := fields[i], ByFlag(fields);
    FlagIsSpelled(f.path);
    FlagsOf(fields);
    LastHoldsTheFlag(fields, i);
    if LastOfItsFlag(fields, i) || BuiltIn(f.FlagName()) {
      forall args, b | ParseArgs(fields, args).Ok? && b in ParseArgs(fields, args).value.values
        ensures b.path == f.path <==> b.flag == f.FlagName()
      {
        BoundBehind(fields, args, b);
        SamePathSameFlag(f, flags[b.flag]);
      }
    } else {
      HolderTakesTheValue(fields, f.FlagName(), "");
      var args := [f.FlagName() + ['='] + ""];
      var b := Binding(flags[f.FlagName()].path, "", f.FlagName());
      assert ParseArgs(fields, args).Ok? && b in ParseArgs(fields, args).value.values;
    }
  }

  /** A field `a__b` before a nested `a.b`: what stands behind the first one's flag goes to the other. */
  lemma {:induction false} SharedFlagMisleads(a: string, b: string, text: string, first: Field, second: Field)
    requires first.path == [a + UNDERSCORES + b] && second.path == [a, b]
    requires Idents(first.path) && !BuiltIn(first.FlagName())
    ensures first.FlagName() == second.FlagName()
    ensures ParseArgs([first, second], [first.FlagName() + ['='] + text]) ==
            Ok(Parsed(false, false, None, [Binding(second.path, text, first.FlagName())]))
  {
    var fields := [first, second];
    DoubledUnderscoreIsALevel("", a, b);
    FlagIsSpelled(first.path);
    assert fields[..1] == [first];
    assert ByFlag(fields)[first.FlagName()] == second;
    HolderTakesTheValue(fields, first.FlagName(), text);
  }

  /** A bool's flag alone gives it `true`. */
  lemma {:induction false} BareFlagGives(fields: seq<Field>, i: nat)
    requires DistinctPaths(fields) && i < |fields| && fields[i].kind.Bool? && Idents(fields[i].path)
    requires LastOfItsFlag(fields, i) && !BuiltIn(fields[i].FlagName())
    ensures var f := fields[i];
      ParseArgs(fields, [f.FlagName()]) == Ok(Parsed(false, false, None, [Binding(f.path, "true", f.FlagName())]))
  {
    var f, flags := fields[i], ByFlag(fields);
    FlagIsSpelled(f.path);
    FlagsOf(fields);
    LastHoldsTheFlag(fields, i);
    SameField(fields, f, flags[f.FlagName()]);
    var b := Binding(f.path, "true", f.FlagName());
    var item := Bound(b, Bare);
    ItemAsReadsBack(MeaningOf(flags, f.FlagName()), item, []);
    var args := [f.FlagName()];
    assert Tokens(item) + [] == args;
    assert Read(flags, args[1..]) == Ok([]) && [item] + [] == [item];
    assert Read(flags, args) == Ok([item]);
    ContinueOne(NOTHING, [], item, []);
    assert [item] + [] == [item] && [] + [b] == [b];
  }

  lemma SameField(fields: seq<Field>, f: Field, g: Field)
    requires DistinctPaths(fields) && f in fields && g in fields && f.path == g.path
    ensures f == g
  {
    FieldAtOnly(fields, f);
    FieldAtOnly(fields, g);
  }

  // ----- what the built-in flags ask for -----------------------------------------------------------------

  /** The last file that argv names. */
  ghost predicate NamesLast(items: seq<Item>, config: Option<string>) {
    match config
    case None => forall item | item in items :: !item.File?
    case Some(text) =>
      exists i | 0 <= i < |items| ::
        && items[i].File? && items[i].text == text
        && forall j | i < j < |items| :: !items[j].File?
  }

  lemma {:induction false} AddedRequests(parsed: Parsed, items: seq<Item>)
    ensures AddAll(parsed, items).help <==> parsed.help || exists item :: item in items && item.Help?
    ensures AddAll(parsed, items).printConfig <==> parsed.printConfig || exists item :: item in items && item.Print?
    decreases |items|
  {
    if items != [] {
      var first, rest := items[0], items[1..];
      assert items == [first] + rest && first in items;
      AddedRequests(Add(parsed, first), rest);
    }
  }

  lemma NamesLaterFile(items: seq<Item>, config: Option<string>)
    requires items != [] && NamesLast(items[1..], config) && config.Some?
    ensures NamesLast(items, config)
  {
    var rest := items[1..];
    var i :| 0 <= i < |rest| && rest[i].File? && rest[i].text == config.value &&
             forall j | i < j < |rest| :: !rest[j].File?;
    forall j | i + 1 < j < |items| ensures !items[j].File? { assert items[j] == rest[j - 1]; }
    assert items[i + 1] == rest[i];
  }

  lemma NamesFirstFile(items: seq<Item>)
    requires items != [] && items[0].File? && forall item | item in items[1..] :: !item.File?
    ensures NamesLast(items, Some(items[0].text))
  {
    forall j | 0 < j < |items| ensures !items[j].File? { assert items[j] == items[1..][j - 1]; }
  }

  predicate NoFile(items: seq<Item>) { forall item | item in items :: !item.File? }

  lemma {:induction false} AddedFile(parsed: Parsed, items: seq<Item>)
    ensures NoFile(items) ==> AddAll(parsed, items).config == parsed.config
    ensures !NoFile(items) ==> AddAll(parsed, items).config.Some? && NamesLast(items, AddAll(parsed, items).config)
    decreases |items|
  {
    if items != [] {
      var first, rest := items[0], items[1..];
      assert items == [first] + rest && first in items;
      AddedFile(Add(parsed, first), rest);
      if !NoFile(rest) {
        NamesLaterFile(items, AddAll(parsed, items).config);
      } else if first.File? {
        NamesFirstFile(items);
      }
    }
  }

  lemma {:induction false} UnknownsIn(items: seq<Item>)
    ensures Unknowns(items) == [] <==> forall item | item in items :: !item.Unknown?
  {
    if items != [] {
      UnknownsIn(items[1..]);
      assert items == [items[0]] + items[1..];
    }
  }

  /** What argv parses to says what stands in it: whether help or the config's print is asked for, the last
      file named, and the values in order; it is refused exactly for an unknown token without a call for
      help. */
  lemma {:induction false} ParsedSays(fields: seq<Field>, items: seq<Item>)
    requires forall f | f in fields :: Idents(f.path)
    requires forall item | item in items :: Valid(ByFlag(fields), item)
    ensures var r := ParseArgs(fields, AllTokens(items));
      && (r.Ok? <==> (exists item :: item in items && item.Help?) || forall item | item in items :: !item.Unknown?)
      && (r.Ok? ==>
            && (r.value.help <==> exists item :: item in items && item.Help?)
            && (r.value.printConfig <==> exists item :: item in items && item.Print?)
            && NamesLast(items, r.value.config)
            && r.value.values == Bindings(items))
  {
    SchemaIsSpelled(fields);
    ItemsReadBack(ByFlag(fields), items);
    AddedRequests(NOTHING, items);
    AddedFile(NOTHING, items);
    AddedValues(NOTHING, items);
    UnknownsIn(items);
    assert [] + Bindings(items) == Bindings(items) && [] + Unknowns(items) == Unknowns(items);
  }

  lemma HelpIsHelp(flags: Flags, token: string)
    requires (token == HELP_FLAG || token == HELP_FLAG_SHORT) && '=' !in token
    ensures Valid(flags, Help(token))
  {
    WholeToken(token);
  }

  lemma PrintIsPrint(flags: Flags, token: string)
    requires token == PRINT_CONFIG_FLAG && '=' !in token && token != HELP_FLAG && token != HELP_FLAG_SHORT
    ensures Valid(flags, Print(token))
  {
    WholeToken(token);
  }

  /** The flags that ask for help. */
  lemma HelpMeans(flags: Flags)
    ensures Valid(flags, Help("--help")) && Valid(flags, Help("-h"))
  {
    HelpIsHelp(flags, "--help");
    HelpIsHelp(flags, "-h");
  }

  /** The flag that asks for the merged values. */
  lemma PrintMeans(flags: Flags)
    ensures Valid(flags, Print("--print-config"))
  {
    assert "--print-config"[2] == 'p' && HELP_FLAG[2] == 'h' && |HELP_FLAG_SHORT| == 2;
    PrintIsPrint(flags, "--print-config");
  }

  /** The flag that names the file, either way. */
  lemma FileMeans(flags: Flags, file: string)
    ensures Valid(flags, File(file, Inline)) && Tokens(File(file, Inline)) == ["--config" + ['='] + file]
    ensures !Dashed(file) ==> Valid(flags, File(file, Spaced)) && Tokens(File(file, Spaced)) == ["--config", file]
  {
    ConfigFlagIsSpelled(flags);
  }

  lemma WholeToken(token: string)
    requires '=' !in token
    ensures Halves(token) == (token, None)
  {
    assert Find(token, '=').None?;
  }

  /** A text field's flag takes the next token, unless that looks like a flag: starts with two dashes. */
  lemma {:induction false} NextTokenIsTaken(fields: seq<Field>, i: nat, text: string)
    requires DistinctPaths(fields) && i < |fields| && fields[i].kind.Text? && Idents(fields[i].path)
    requires LastOfItsFlag(fields, i) && !BuiltIn(fields[i].FlagName())
    ensures var f := fields[i];
      ParseArgs(fields, [f.FlagName(), text]) ==
        if |text| >= 2 && text[0] == '-' && text[1] == '-' then Err(NoValue(f.FlagName()))
        else Ok(Parsed(false, false, None, [Binding(f.path, text, f.FlagName())]))
  {
    var f, flags := fields[i], ByFlag(fields);
    FlagIsSpelled(f.path);
    FlagsOf(fields);
    LastHoldsTheFlag(fields, i);
    SameField(fields, f, flags[f.FlagName()]);
    DashedExactly(text);
    var args := [f.FlagName(), text];
    HalvesOfWritten(f.FlagName(), "");
    assert args[1..] == [text];
    if !Dashed(text) {
      TakenNext(fields, f, text);
    }
  }

  lemma DashedExactly(text: string)
    ensures Dashed(text) <==> |text| >= 2 && text[0] == '-' && text[1] == '-'
  {
  }

  lemma TakenNext(fields: seq<Field>, f: Field, text: string)
    requires MeaningOf(ByFlag(fields), f.FlagName()) == Gives(f) && f.kind.Text? && !Dashed(text)
    requires Dashed(f.FlagName()) && '=' !in f.FlagName()
    ensures ParseArgs(fields, [f.FlagName(), text]) ==
            Ok(Parsed(false, false, None, [Binding(f.path, text, f.FlagName())]))
  {
    var b := Binding(f.path, text, f.FlagName());
    var item := Bound(b, Spaced);
    ItemAsReadsBack(Gives(f), item, []);
    var args := [f.FlagName(), text];
    assert Tokens(item) + [] == args;
    var none: seq<Item> := [];
    assert Read(ByFlag(fields), []) == Ok(none) && [item] + none == [item];
    assert Read(ByFlag(fields), args) == Ok([item]);
    ContinueOne(NOTHING, [], item, none);
    assert [] + [b] == [b];
  }
}
