/** Merging the sources: defaults, then the file, then the environment, then the arguments, the later
    winning field by field. */
module ConfigLayers {
  import opened Wrappers
  import opened Texts
  import opened ConfigPaths
  import opened ConfigSchema
  import opened ConfigArgs
  import ConfigFile

  type Env = map<string, string>
  type Merge = map<Path, Entry>

  /** The process environment as a lookup: a later pair replaces an earlier one. */
  function EnvOf(pairs: seq<(string, string)>): Env {
    if pairs == [] then map[] else EnvOf(pairs[..|pairs| - 1])[pairs[|pairs| - 1].0 := pairs[|pairs| - 1].1]
  }

  function ConfigVariable(app: string): string { app + "_CONFIG" }

  /** Where the file is, and what named it. */
  function Located(app: string, args: Parsed, env: Env): Option<(string, string)> {
    match args.config
    case Some(file) => Some((file, CONFIG_FLAG))
    case None =>
      if ConfigVariable(app) in env then Some((env[ConfigVariable(app)], ConfigVariable(app))) else None
  }

  // ----- the layers ----------------------------------------------------------------------------------

  function DefaultLayer(fields: seq<Field>): Merge {
    if fields == [] then map[]
    else
      var before, f := DefaultLayer(fields[..|fields| - 1]), fields[|fields| - 1];
      if f.presence.Default? then before[f.path := Entry(f.presence.text, FromDefault)] else before
  }

  function FileLayer(pairs: ConfigFile.Pairs, file: string, below: Merge): Merge {
    if pairs == [] then below
    else
      var last := pairs[|pairs| - 1];
      FileLayer(pairs[..|pairs| - 1], file, below)[last.0 := Entry(last.1, FromFile(file))]
  }

  function EnvLayer(app: string, fields: seq<Field>, env: Env, below: Merge): Merge {
    if fields == [] then below
    else
      var before, f := EnvLayer(app, fields[..|fields| - 1], env, below), fields[|fields| - 1];
      var name := f.EnvVariable(app);
      if name in env then before[f.path := Entry(env[name], FromEnvironment(name))] else before
  }

  function ArgLayer(values: seq<Binding>, below: Merge): Merge {
    if values == [] then below
    else
      var last := values[|values| - 1];
      ArgLayer(values[..|values| - 1], below)[last.path := Entry(last.text, FromArg(last.flag))]
  }

  function Stacked(app: string, fields: seq<Field>, args: Parsed, env: Env, pairs: ConfigFile.Pairs,
      file: string): Merge {
    ArgLayer(args.values, EnvLayer(app, fields, env, FileLayer(pairs, file, DefaultLayer(fields))))
  }

  function Merged(app: string, fields: seq<Field>, args: Parsed, env: Env, files: string -> ConfigFile.Answer)
    : Result<Values, Refusal>
  {
    match Located(app, args, env)
    case None => Ok(Values(app, fields, Stacked(app, fields, args, env, [], ""), NotConfigured))
    case Some((file, source)) =>
      match ConfigFile.ReadFile(fields, source, file, files(file))
      case Err(e) => Err(e)
      case Ok(pairs) => Ok(Values(app, fields, Stacked(app, fields, args, env, pairs, file), FileRead(file)))
  }

  method AddDefaults(fields: seq<Field>) returns (entries: Merge)
    ensures entries == DefaultLayer(fields)
  {
    entries := map[];
    for i := 0 to |fields|
      invariant entries == DefaultLayer(fields[..i])
    {
      assert fields[..i + 1][..i] == fields[..i];
      if fields[i].presence.Default? {
        entries := entries[fields[i].path := Entry(fields[i].presence.text, FromDefault)];
      }
    }
    assert fields[..|fields|] == fields;
  }

  method AddFile(pairs: ConfigFile.Pairs, file: string, below: Merge) returns (entries: Merge)
    ensures entries == FileLayer(pairs, file, below)
  {
    entries := below;
    for i := 0 to |pairs|
      invariant entries == FileLayer(pairs[..i], file, below)
    {
      assert pairs[..i + 1][..i] == pairs[..i];
      entries := entries[pairs[i].0 := Entry(pairs[i].1, FromFile(file))];
    }
    assert pairs[..|pairs|] == pairs;
  }

  method AddEnv(app: string, fields: seq<Field>, env: Env, below: Merge) returns (entries: Merge)
    ensures entries == EnvLayer(app, fields, env, below)
  {
    entries := below;
    for i := 0 to |fields|
      invariant entries == EnvLayer(app, fields[..i], env, below)
    {
      assert fields[..i + 1][..i] == fields[..i];
      var name := fields[i].EnvVariable(app);
      if name in env { entries := entries[fields[i].path := Entry(env[name], FromEnvironment(name))]; }
    }
    assert fields[..|fields|] == fields;
  }

  method AddArgs(values: seq<Binding>, below: Merge) returns (entries: Merge)
    ensures entries == ArgLayer(values, below)
  {
    entries := below;
    for i := 0 to |values|
      invariant entries == ArgLayer(values[..i], below)
    {
      assert values[..i + 1][..i] == values[..i];
      entries := entries[values[i].path := Entry(values[i].text, FromArg(values[i].flag))];
    }
    assert values[..|values|] == values;
  }

  method MergeSources(app: string, fields: seq<Field>, args: Parsed, environment: seq<(string, string)>,
                      files: string -> ConfigFile.Answer)
    returns (r: Result<Values, Refusal>)
    ensures r == Merged(app, fields, args, EnvOf(environment), files)
  {
    var env := EnvOf(environment);
    var entries := AddDefaults(fields);
    var status, located := NotConfigured, Located(app, args, env);
    if located.Some? {
      var (file, source) := located.value;
      var pairs := ConfigFile.Read(fields, source, file, files(file));
      if pairs.Err? { return Err(pairs.error); }
      entries := AddFile(pairs.value, file, entries);
      status := FileRead(file);
    }
    entries := AddEnv(app, fields, env, entries);
    entries := AddArgs(args.values, entries);
    return Ok(Values(app, fields, entries, status));
  }

  // ----- one field's entry -----------------------------------------------------------------------------

  function Get(m: Merge, path: Path): Option<Entry> { if path in m then Some(m[path]) else None }

  /** The last argument given to a field. */
  function LastBinding(values: seq<Binding>, path: Path): Option<Binding> {
    if values == [] then None
    else if values[|values| - 1].path == path then Some(values[|values| - 1])
    else LastBinding(values[..|values| - 1], path)
  }

  function LastText(pairs: ConfigFile.Pairs, path: Path): Option<string> {
    if pairs == [] then None
    else if pairs[|pairs| - 1].0 == path then Some(pairs[|pairs| - 1].1)
    else LastText(pairs[..|pairs| - 1], path)
  }

  /** What one field's own sources give it, best first. */
  function Chosen(app: string, f: Field, args: Parsed, env: Env, pairs: ConfigFile.Pairs, file: string): Option<Entry> {
    if LastBinding(args.values, f.path).Some? then
      var b := LastBinding(args.values, f.path).value;
      Some(Entry(b.text, FromArg(b.flag)))
    else if f.EnvVariable(app) in env then
      Some(Entry(env[f.EnvVariable(app)], FromEnvironment(f.EnvVariable(app))))
    else if LastText(pairs, f.path).Some? then Some(Entry(LastText(pairs, f.path).value, FromFile(file)))
    else if f.presence.Default? then Some(Entry(f.presence.text, FromDefault))
    else None
  }

  lemma {:induction false} LastBindingIs(values: seq<Binding>, path: Path)
    ensures LastBinding(values, path).None? <==> forall b | b in values :: b.path != path
    ensures forall i | 0 <= i < |values| && values[i].path == path &&
                       (forall j | i < j < |values| :: values[j].path != path) ::
              LastBinding(values, path) == Some(values[i])
  {
    if values != [] {
      var before, last := values[..|values| - 1], values[|values| - 1];
      assert values == before + [last];
      LastBindingIs(before, path);
      forall i | 0 <= i < |values| && values[i].path == path &&
                 (forall j | i < j < |values| :: values[j].path != path)
        ensures LastBinding(values, path) == Some(values[i])
      {
        if i < |before| { assert before[i] == values[i] && values[|values| - 1].path != path; }
      }
    }
  }

  lemma {:induction false} LastTextIs(pairs: ConfigFile.Pairs, path: Path)
    ensures LastText(pairs, path).None? <==> forall pair | pair in pairs :: pair.0 != path
    ensures forall i | 0 <= i < |pairs| && pairs[i].0 == path && (forall j | i < j < |pairs| :: pairs[j].0 != path) ::
              LastText(pairs, path) == Some(pairs[i].1)
  {
    if pairs != [] {
      var before, last := pairs[..|pairs| - 1], pairs[|pairs| - 1];
      assert pairs == before + [last];
      LastTextIs(before, path);
      forall i | 0 <= i < |pairs| && pairs[i].0 == path && (forall j | i < j < |pairs| :: pairs[j].0 != path)
        ensures LastText(pairs, path) == Some(pairs[i].1)
      {
        if i < |before| { assert before[i] == pairs[i] && pairs[|pairs| - 1].0 != path; }
      }
    }
  }

  /** The variable's last pair in the process environment is its value. */
  lemma {:induction false} LastPairWins(pairs: seq<(string, string)>, name: string)
    ensures name in EnvOf(pairs) <==> exists pair :: pair in pairs && pair.0 == name
    ensures forall i | 0 <= i < |pairs| && pairs[i].0 == name && (forall j | i < j < |pairs| :: pairs[j].0 != name) ::
              name in EnvOf(pairs) && EnvOf(pairs)[name] == pairs[i].1
  {
    if pairs != [] {
      var before, last := pairs[..|pairs| - 1], pairs[|pairs| - 1];
      assert pairs == before + [last];
      LastPairWins(before, name);
      forall i | 0 <= i < |pairs| && pairs[i].0 == name && (forall j | i < j < |pairs| :: pairs[j].0 != name)
        ensures name in EnvOf(pairs) && EnvOf(pairs)[name] == pairs[i].1
      {
        if i < |before| { assert before[i] == pairs[i] && pairs[|pairs| - 1].0 != name; }
      }
    }
  }

  /** A field given an argument has the last one's text, whatever the other sources hold. */
  lemma ArgumentWins(app: string, f: Field, args: Parsed, env: Env, pairs: ConfigFile.Pairs, file: string, i: nat)
    requires i < |args.values| && args.values[i].path == f.path
    requires forall j | i < j < |args.values| :: args.values[j].path != f.path
    ensures Chosen(app, f, args, env, pairs, file) ==
            Some(Entry(args.values[i].text, FromArg(args.values[i].flag)))
  {
    LastBindingIs(args.values, f.path);
  }

  lemma OnlyArgument(app: string, f: Field, args: Parsed, env: Env, pairs: ConfigFile.Pairs, file: string,
                     text: string, flag: string)
    requires args.values == [Binding(f.path, text, flag)]
    ensures Chosen(app, f, args, env, pairs, file) == Some(Entry(text, FromArg(flag)))
  {
    ArgumentWins(app, f, args, env, pairs, file, 0);
  }

  /** Without an argument the variable's value counts: the derive's own, or the app and the path spelled. */
  lemma VariableComesNext(app: string, f: Field, args: Parsed, env: Env, pairs: ConfigFile.Pairs, file: string)
    requires forall b | b in args.values :: b.path != f.path
    requires (if f.env.Some? then f.env.value else EnvName(app, f.path)) in env
    ensures var name := if f.env.Some? then f.env.value else EnvName(app, f.path);
      Chosen(app, f, args, env, pairs, file) == Some(Entry(env[name], FromEnvironment(name)))
  {
    LastBindingIs(args.values, f.path);
  }

  /** Without either, the file's last text for it. */
  lemma FileComesNext(app: string, f: Field, args: Parsed, env: Env, pairs: ConfigFile.Pairs, file: string, i: nat)
    requires forall b | b in args.values :: b.path != f.path
    requires f.EnvVariable(app) !in env && i < |pairs| && pairs[i].0 == f.path
    requires forall j | i < j < |pairs| :: pairs[j].0 != f.path
    ensures Chosen(app, f, args, env, pairs, file) == Some(Entry(pairs[i].1, FromFile(file)))
  {
    LastBindingIs(args.values, f.path);
    LastTextIs(pairs, f.path);
  }

  /** Without any of the three, the default, if there is one. */
  lemma NoSource(app: string, f: Field, args: Parsed, env: Env, pairs: ConfigFile.Pairs, file: string)
    requires forall b | b in args.values :: b.path != f.path
    requires f.EnvVariable(app) !in env && forall pair | pair in pairs :: pair.0 != f.path
    ensures Chosen(app, f, args, env, pairs, file) ==
            if f.presence.Default? then Some(Entry(f.presence.text, FromDefault)) else None
  {
    LastBindingIs(args.values, f.path);
    LastTextIs(pairs, f.path);
  }

  lemma {:induction false} ArgLayerAt(values: seq<Binding>, below: Merge, path: Path)
    ensures Get(ArgLayer(values, below), path) ==
            match LastBinding(values, path)
            case Some(b) => Some(Entry(b.text, FromArg(b.flag)))
            case None => Get(below, path)
  {
    if values != [] { ArgLayerAt(values[..|values| - 1], below, path); }
  }

  lemma {:induction false} FileLayerAt(pairs: ConfigFile.Pairs, file: string, below: Merge, path: Path)
    ensures Get(FileLayer(pairs, file, below), path) ==
            match LastText(pairs, path)
            case Some(text) => Some(Entry(text, FromFile(file)))
            case None => Get(below, path)
  {
    if pairs != [] { FileLayerAt(pairs[..|pairs| - 1], file, below, path); }
  }

  lemma BeforeLast(fields: seq<Field>, f: Field)
    requires fields != [] && DistinctPaths(fields) && f in fields
    ensures DistinctPaths(fields[..|fields| - 1])
    ensures fields[|fields| - 1].path == f.path ==>
              fields[|fields| - 1] == f && forall g | g in fields[..|fields| - 1] :: g.path != f.path
    ensures fields[|fields| - 1].path != f.path ==> f in fields[..|fields| - 1]
  {
    var before, last := fields[..|fields| - 1], fields[|fields| - 1];
    assert fields == before + [last];
    FieldAtOnly(fields, f);
    FieldAtOnly(fields, last);
    forall g | g in before ensures g.path != last.path {
      var i :| 0 <= i < |before| && before[i] == g;
      assert fields[i].path != fields[|fields| - 1].path;
    }
  }

  lemma {:induction false} NoFieldAt(app: string, fields: seq<Field>, env: Env, below: Merge, path: Path)
    requires forall g | g in fields :: g.path != path
    ensures Get(EnvLayer(app, fields, env, below), path) == Get(below, path)
    ensures Get(DefaultLayer(fields), path) == None
  {
    if fields != [] {
      assert fields[|fields| - 1] in fields;
      NoFieldAt(app, fields[..|fields| - 1], env, below, path);
    }
  }

  lemma {:induction false} EnvLayerAt(app: string, fields: seq<Field>, env: Env, below: Merge, f: Field)
    requires DistinctPaths(fields) && f in fields
    ensures Get(EnvLayer(app, fields, env, below), f.path) ==
            if f.EnvVariable(app) in env
            then Some(Entry(env[f.EnvVariable(app)], FromEnvironment(f.EnvVariable(app)))) else Get(below, f.path)
  {
    BeforeLast(fields, f);
    var before := fields[..|fields| - 1];
    if fields[|fields| - 1].path == f.path {
      NoFieldAt(app, before, env, below, f.path);
    } else {
      EnvLayerAt(app, before, env, below, f);
    }
  }

  lemma {:induction false} DefaultLayerAt(fields: seq<Field>, f: Field)
    requires DistinctPaths(fields) && f in fields
    ensures Get(DefaultLayer(fields), f.path) ==
            if f.presence.Default? then Some(Entry(f.presence.text, FromDefault)) else None
  {
    BeforeLast(fields, f);
    var before := fields[..|fields| - 1];
    if fields[|fields| - 1].path == f.path {
      NoFieldAt("", before, map[], map[], f.path);
    } else {
      DefaultLayerAt(before, f);
    }
  }

  /** Every field's text and origin are the last argument given to it, else its environment variable,
      else the file's text for it, else its default, whatever the sources hold for other fields. */
  lemma PerFieldPrecedence(app: string, fields: seq<Field>, args: Parsed, env: Env, pairs: ConfigFile.Pairs,
                           file: string, f: Field)
    requires DistinctPaths(fields) && f in fields
    ensures Get(Stacked(app, fields, args, env, pairs, file), f.path) == Chosen(app, f, args, env, pairs, file)
  {
    var defaults := DefaultLayer(fields);
    var filed := FileLayer(pairs, file, defaults);
    ArgLayerAt(args.values, EnvLayer(app, fields, env, filed), f.path);
    EnvLayerAt(app, fields, env, filed, f);
    FileLayerAt(pairs, file, defaults, f.path);
    DefaultLayerAt(fields, f);
  }

  /** The file's variable is spelled as every other one of the app exactly when the app is upper-case
      already: nothing upper-cases it. */
  lemma FileVariableIsUpperExactly(app: string)
    ensures ConfigVariable(app) == UpperText(ConfigVariable(app)) <==> app == UpperText(app)
  {
    var name := ConfigVariable(app);
    forall i | |app| <= i < |name| ensures !IsLower(name[i]) { assert name[i] == "_CONFIG"[i - |app|]; }
    forall i | 0 <= i < |app| ensures name[i] == app[i] {}
    if name == UpperText(name) {
      forall i | 0 <= i < |app| ensures app[i] == Upper(app[i]) { assert name[i] == Upper(name[i]); }
    }
  }

  /** For an app called `demo` every field's variable starts with `DEMO_`, and the file's is `demo_CONFIG`. */
  lemma LowerCaseApp(p: Path)
    ensures "DEMO_" <= EnvName("demo", p)
    ensures ConfigVariable("demo") == "demo_CONFIG" && UpperText(ConfigVariable("demo")) != ConfigVariable("demo")
  {
    var name := "demo" + "_" + Join(p, UNDERSCORES);
    assert name[..5] == "demo_" && UpperText(name)[..5] == "DEMO_";
    assert Upper("demo"[0]) == 'D' != "demo"[0];
    FileVariableIsUpperExactly("demo");
  }
}
