/** The whole pipeline over a struct tree: schema, arguments, merge, typed reading, deployment
    rule. */
module ConfigLoad {
  import opened Wrappers
  import opened ConfigPaths
  import opened ConfigSchema
  import opened ConfigDerive
  import opened ConfigValues
  import ConfigArgs
  import ConfigFile
  import ConfigLayers

  /** The value a leaf got. */
  datatype Content =
    | Flag(on: bool)
    | OptFlag(maybe: Option<bool>)
    | Parsed(text: string)
    | OptParsed(texts: Option<string>)

  /** A loaded struct. */
  datatype Record = Record(slots: seq<Slot>)
  datatype Slot = Value(name: string, content: Content) | Sub(name: string, record: Record)

  function ReadLeaf(shape: Shape, path: Path, values: Values, parses: Parses): Result<Content, Failure> {
    match shape
    case PlainBool => (match BoolRead(values, path) case Err(e) => Err(e) case Ok(b) => Ok(Flag(b)))
    case OptBool => (match BoolOpt(values, path) case Err(e) => Err(e) case Ok(b) => Ok(OptFlag(b)))
    case Plain(ty) => (match LeafRead(values, path, ty, parses) case Err(e) => Err(e) case Ok(t) => Ok(Parsed(t)))
    case Opt(ty) => (match LeafOpt(values, path, ty, parses) case Err(e) => Err(e) case Ok(t) => Ok(OptParsed(t)))
  }

  /** `from_values`: the members read back in order, the first failure ending it. */
  function ReadMember(m: Member, values: Values, prefix: Path, parses: Parses): Result<Slot, Failure>
    decreases m, 0
  {
    match m
    case Leaf(name, shape, _) => (
      match ReadLeaf(shape, Child(prefix, name), values, parses)
      case Err(e) => Err(e)
      case Ok(content) => Ok(Value(name, content)))
    case Nested(name, _, inner) =>
      match ReadMembers(inner.members, values, Child(prefix, name), parses)
      case Err(e) => Err(e)
      case Ok(slots) => Ok(Sub(name, Record(slots)))
  }

  function ReadMembers(members: seq<Member>, values: Values, prefix: Path, parses: Parses): Result<seq<Slot>, Failure>
    decreases members, 1
  {
    if members == [] then Ok([])
    else
      match ReadMember(members[0], values, prefix, parses)
      case Err(e) => Err(e)
      case Ok(slot) =>
        match ReadMembers(members[1..], values, prefix, parses)
        case Err(e) => Err(e)
        case Ok(slots) => Ok([slot] + slots)
  }

  // ----- the panic is unreachable -----------------------------------------------------------------------

  predicate Registers(values: Values, fields: seq<Field>) {
    forall f | f in fields :: f in values.fields
  }

  /** Every struct of the tree expands, and so registers every leaf it reads. */
  predicate MembersCompile(root: bool, members: seq<Member>)
    decreases members
  {
    forall m | m in members :: Emit(root, m).Ok? && (m.Nested? ==> MembersCompile(m.inner.app.Some?, m.inner.members))
  }

  lemma {:induction false} CompiledMembers(s: Struct)
    requires Compiles(s)
    ensures MembersCompile(s.app.Some?, s.members)
  {
    EmitsAll(s.app.Some?, s.members);
    forall m | m in s.members && m.Nested? ensures MembersCompile(m.inner.app.Some?, m.inner.members) {
      CompiledMembers(m.inner);
    }
  }

  lemma {:induction false} EmitsAll(root: bool, members: seq<Member>)
    requires EmitAll(root, members).Ok?
    ensures forall m | m in members :: Emit(root, m).Ok?
  {
    if members != [] {
      EmitsAll(root, members[1..]);
      assert members == [members[0]] + members[1..];
    }
  }

  lemma {:induction false} MemberNeverPanics(root: bool, m: Member, values: Values, prefix: Path, parses: Parses)
    requires Emit(root, m).Ok? && (m.Nested? ==> MembersCompile(m.inner.app.Some?, m.inner.members))
    requires Registers(values, Registered(root, m, prefix))
    ensures ReadMember(m, values, prefix, parses).Err? ==> ReadMember(m, values, prefix, parses).error.Refused?
    decreases m, 0
  {
    match m
    case Nested(name, _, inner) =>
      MembersNeverPanic(inner.app.Some?, inner.members, values, Child(prefix, name), parses);
    case Leaf(name, _, _) =>
      var f := FieldOf(Emit(root, m).value, prefix);
      assert Registered(root, m, prefix) == [f];
      assert f in Registered(root, m, prefix);
      FieldAtIn(values.fields, f.path);
  }

  lemma {:induction false} MembersNeverPanic(root: bool, members: seq<Member>, values: Values, prefix: Path,
      parses: Parses)
    requires MembersCompile(root, members) && Registers(values, Schema(root, members, prefix))
    ensures ReadMembers(members, values, prefix, parses).Err? ==>
              ReadMembers(members, values, prefix, parses).error.Refused?
    decreases members, 1
  {
    if members != [] {
      var first, rest := members[0], members[1..];
      assert first in members && forall m | m in rest :: m in members;
      assert Schema(root, members, prefix) == Registered(root, first, prefix) + Schema(root, rest, prefix);
      assert Registers(values, Registered(root, first, prefix)) && Registers(values, Schema(root, rest, prefix));
      MemberNeverPanics(root, first, values, prefix, parses);
      MembersNeverPanic(root, rest, values, prefix, parses);
    }
  }

  // ----- what is read ------------------------------------------------------------------------------------

  /** A loaded struct's leaves, in order. */
  function Flat(slots: seq<Slot>): seq<Content>
    decreases slots
  {
    if slots == [] then []
    else
      (match slots[0] case Value(_, content) => [content] case Sub(_, record) => Flat(record.slots)) + Flat(slots[1..])
  }

  /** A leaf's value is its entry, read as its field's kind and presence say. */
  ghost predicate Fits(content: Content, f: Field, entry: Option<Entry>) {
    match content
    case Flag(on) => f.kind.Bool? && !f.presence.Optional? && entry.Some? && Means(entry.value.text, on)
    case OptFlag(maybe) =>
      f.kind.Bool? && f.presence.Optional? &&
      (match maybe case None => entry.None? case Some(on) => entry.Some? && Means(entry.value.text, on))
    case Parsed(text) => f.kind.Text? && !f.presence.Optional? && entry.Some? && entry.value.text == text
    case OptParsed(texts) =>
      f.kind.Text? && f.presence.Optional? &&
      (match texts case None => entry.None? case Some(text) => entry.Some? && entry.value.text == text)
  }

  ghost predicate AllFit(contents: seq<Content>, fields: seq<Field>, values: Values) {
    && |contents| == |fields|
    && forall i | 0 <= i < |fields| :: Fits(contents[i], fields[i], EntryAt(values, fields[i].path))
  }

  lemma FitAppend(a: seq<Content>, b: seq<Content>, x: seq<Field>, y: seq<Field>, values: Values)
    requires AllFit(a, x, values) && AllFit(b, y, values)
    ensures AllFit(a + b, x + y, values)
  {
  }

  lemma LeafFits(root: bool, m: Member, values: Values, prefix: Path, parses: Parses)
    requires m.Leaf? && Emit(root, m).Ok? && ReadLeaf(m.shape, Child(prefix, m.name), values, parses).Ok?
    ensures var f := FieldOf(Emit(root, m).value, prefix);
      Fits(ReadLeaf(m.shape, Child(prefix, m.name), values, parses).value, f, EntryAt(values, f.path))
  {
    RulesFitPresence(root, m.name, m.shape, m.attrs);
    var entry := EntryAt(values, Child(prefix, m.name));
    if entry.Some? {
      BoolWords(entry.value.text, true);
      BoolWords(entry.value.text, false);
    }
  }

  lemma {:induction false} MemberFits(root: bool, m: Member, values: Values, prefix: Path, parses: Parses)
    requires Emit(root, m).Ok? && (m.Nested? ==> MembersCompile(m.inner.app.Some?, m.inner.members))
    requires ReadMember(m, values, prefix, parses).Ok?
    ensures AllFit(Flat([ReadMember(m, values, prefix, parses).value]), Registered(root, m, prefix), values)
    decreases m, 0
  {
    var slot := ReadMember(m, values, prefix, parses).value;
    assert [slot][1..] == [];
    match m
    case Nested(name, _, inner) =>
      MembersFit(inner.app.Some?, inner.members, values, Child(prefix, name), parses);
      assert Flat([slot]) == Flat(slot.record.slots) + [];
    case Leaf(_, _, _) =>
      LeafFits(root, m, values, prefix, parses);
      assert Flat([slot]) == [slot.content];
  }

  lemma {:induction false} MembersFit(root: bool, members: seq<Member>, values: Values, prefix: Path, parses: Parses)
    requires MembersCompile(root, members) && ReadMembers(members, values, prefix, parses).Ok?
    ensures AllFit(Flat(ReadMembers(members, values, prefix, parses).value), Schema(root, members, prefix), values)
    decreases members, 1
  {
    if members != [] {
      var first, rest := members[0], members[1..];
      assert first in members && forall m | m in rest :: m in members;
      var slots := ReadMembers(members, values, prefix, parses).value;
      assert slots[1..] == ReadMembers(rest, values, prefix, parses).value;
      MemberFits(root, first, values, prefix, parses);
      MembersFit(root, rest, values, prefix, parses);
      assert [slots[0]][1..] == [] && Flat([slots[0]]) + Flat(slots[1..]) == Flat(slots);
      FitAppend(Flat([slots[0]]), Flat(slots[1..]), Registered(root, first, prefix), Schema(root, rest, prefix),
          values);
    }
  }

  // ----- the pipeline --------------------------------------------------------------------------------------

  datatype Outcome =
    | Config(slots: seq<Slot>)
    | HelpText
    | PrintText(values: Values)
    | Failed(failure: Failure)

  /** The root's own `deployment` value. */
  function DeploymentIn(slots: seq<Slot>): Deployment {
    if slots == [] then Dev
    else if slots[0] == Value(DEPLOYMENT, Parsed("prod")) then Prod
    else DeploymentIn(slots[1..])
  }

  /** What is outside: argv, the environment, the files, and how types parse. */
  datatype World = World(args: seq<string>, env: seq<(string, string)>, files: string -> ConfigFile.Answer,
      parses: Parses)

  function AppOf(s: Struct): string { if s.app.Some? then s.app.value else "" }

  /** Behind the merge: the typed reading, then the deployment rule. */
  function ReadAndEnforce(s: Struct, values: Values, parses: Parses): Outcome {
    match ReadMembers(s.members, values, [], parses)
    case Err(e) => Failed(e)
    case Ok(slots) =>
      match Enforce(values, DeploymentIn(slots))
      case Some(e) => Failed(e)
      case None => Config(slots)
  }

  /** Behind the arguments: help ends the load before any other source is read. */
  function MergeAndRead(s: Struct, world: World, parsed: ConfigArgs.Parsed): Outcome {
    if parsed.help then HelpText
    else
      match ConfigLayers.Merged(AppOf(s), SchemaOf(s, []), parsed, ConfigLayers.EnvOf(world.env), world.files)
      case Err(e) => Failed(Refused(e))
      case Ok(values) => if parsed.printConfig then PrintText(values) else ReadAndEnforce(s, values, world.parses)
  }

  function Load(s: Struct, world: World): Outcome {
    match ConfigArgs.ParseArgs(SchemaOf(s, []), world.args)
    case Err(e) => Failed(Refused(e))
    case Ok(parsed) => MergeAndRead(s, world, parsed)
  }

  lemma ReadingNeverPanics(s: Struct, values: Values, parses: Parses)
    requires Compiles(s) && values.fields == SchemaOf(s, [])
    ensures ReadAndEnforce(s, values, parses).Failed? ==> ReadAndEnforce(s, values, parses).failure.Refused?
  {
    CompiledMembers(s);
    MembersNeverPanic(s.app.Some?, s.members, values, [], parses);
    EnforceNeverPanics(values, values.fields);
  }

  /** No input makes a compiled struct tree read a path it did not register. */
  lemma LoadNeverPanics(s: Struct, world: World)
    requires Compiles(s)
    ensures Load(s, world).Failed? ==> Load(s, world).failure.Refused?
  {
    var parsed := ConfigArgs.ParseArgs(SchemaOf(s, []), world.args);
    if parsed.Ok? {
      var merged := ConfigLayers.Merged(AppOf(s), SchemaOf(s, []), parsed.value, ConfigLayers.EnvOf(world.env),
          world.files);
      if merged.Ok? { ReadingNeverPanics(s, merged.value, world.parses); }
    }
  }

  /** The sources of one load, once the arguments are parsed and the file is read. */
  datatype Sources = Sources(app: string, args: ConfigArgs.Parsed, env: ConfigLayers.Env, pairs: ConfigFile.Pairs,
      file: string) {
    function For(f: Field): Option<Entry> { ConfigLayers.Chosen(app, f, args, env, pairs, file) }
  }

  function SourcesOf(s: Struct, world: World): Option<Sources> {
    var fields := SchemaOf(s, []);
    var app, env := AppOf(s), ConfigLayers.EnvOf(world.env);
    match ConfigArgs.ParseArgs(fields, world.args)
    case Err(_) => None
    case Ok(parsed) =>
      match ConfigLayers.Located(app, parsed, env)
      case None => Some(Sources(app, parsed, env, [], ""))
      case Some((file, source)) =>
        match ConfigFile.ReadFile(fields, source, file, world.files(file))
        case Err(_) => None
        case Ok(pairs) => Some(Sources(app, parsed, env, pairs, file))
  }

  /** What production demands, said of a field's own sources. */
  ghost predicate ProdAllows(f: Field, entry: Option<Entry>) {
    && (f.rule.ProdRequired? ==> entry.Some?)
    && (f.rule.DevOnly? ==>
          entry.None? || (f.kind.Bool? && Means(entry.value.text, false)))
  }

  lemma FitMeansAllowed(values: Values, f: Field)
    requires f in values.fields
    ensures FitForProd(values, f) <==> ProdAllows(f, EntryAt(values, f.path))
  {
    var entry := EntryAt(values, f.path);
    FieldAtIn(values.fields, f.path);
    if entry.Some? {
      BoolWords(entry.value.text, false);
      BoolWords(entry.value.text, true);
    }
  }

  /** What was merged from the sources of a load. */
  function MergedOf(s: Struct, world: World): Result<Values, Refusal>
    requires SourcesOf(s, world).Some?
  {
    var sources := SourcesOf(s, world).value;
    ConfigLayers.Merged(sources.app, SchemaOf(s, []), sources.args, sources.env, world.files)
  }

  /** Merged, every field's entry is what its own sources give it. */
  lemma MergedIsChosen(s: Struct, world: World, f: Field)
    requires Named(s) && SourcesOf(s, world).Some? && f in SchemaOf(s, [])
    ensures MergedOf(s, world).Ok? && EntryAt(MergedOf(s, world).value, f.path) == SourcesOf(s, world).value.For(f)
  {
    var sources := SourcesOf(s, world).value;
    SchemaIsDistinct(s, []);
    ConfigLayers.PerFieldPrecedence(sources.app, SchemaOf(s, []), sources.args, sources.env, sources.pairs,
        sources.file, f);
  }

  lemma LoadedStages(s: Struct, world: World)
    requires Load(s, world).Config?
    ensures SourcesOf(s, world).Some? && MergedOf(s, world).Ok?
    ensures MergedOf(s, world).value.fields == SchemaOf(s, [])
    ensures ReadMembers(s.members, MergedOf(s, world).value, [], world.parses) == Ok(Load(s, world).slots)
    ensures Enforce(MergedOf(s, world).value, DeploymentIn(Load(s, world).slots)).None?
  {
  }

  /** A loaded config holds, for every registered field and in the fields' order, what the field's own
      sources give it and nothing else does; and one loaded for production sets every prod-required
      value and enables no dev-only one. */
  lemma LoadedIsChosen(s: Struct, world: World)
    requires Compiles(s) && Named(s) && Load(s, world).Config?
    ensures SourcesOf(s, world).Some?
    ensures var fields, contents, sources := SchemaOf(s, []), Flat(Load(s, world).slots), SourcesOf(s, world).value;
      && |contents| == |fields|
      && (forall i | 0 <= i < |fields| :: Fits(contents[i], fields[i], sources.For(fields[i])))
      && (DeploymentIn(Load(s, world).slots) == Prod ==> forall f | f in fields :: ProdAllows(f, sources.For(f)))
  {
    LoadedStages(s, world);
    var fields, slots, sources := SchemaOf(s, []), Load(s, world).slots, SourcesOf(s, world).value;
    var values := MergedOf(s, world).value;
    CompiledMembers(s);
    MembersFit(s.app.Some?, s.members, values, [], world.parses);
    EnforceExactly(values, DeploymentIn(slots));
    forall f | f in fields ensures EntryAt(values, f.path) == sources.For(f) {
      MergedIsChosen(s, world, f);
    }
    if DeploymentIn(slots) == Prod {
      forall f | f in fields ensures ProdAllows(f, sources.For(f)) {
        assert FitForProd(values, f);
        FitMeansAllowed(values, f);
      }
    }
  }

  // ----- what is missing -----------------------------------------------------------------------------------

  lemma {:induction false} MemberMisses(root: bool, m: Member, values: Values, prefix: Path, parses: Parses, path: Path)
    requires Emit(root, m).Ok? && (m.Nested? ==> MembersCompile(m.inner.app.Some?, m.inner.members))
    requires ReadMember(m, values, prefix, parses) == Err(Refused(Missing(path)))
    ensures exists f ::
              f in Registered(root, m, prefix) && f.path == path && !f.presence.Optional? &&
              EntryAt(values, path).None?
    decreases m, 0
  {
    match m
    case Nested(name, _, inner) =>
      MembersMiss(inner.app.Some?, inner.members, values, Child(prefix, name), parses, path);
    case Leaf(name, shape, attrs) =>
      var f := FieldOf(Emit(root, m).value, prefix);
      RulesFitPresence(root, name, shape, attrs);
      assert Registered(root, m, prefix) == [f] && f in [f];
  }

  lemma {:induction false} MembersMiss(root: bool, members: seq<Member>, values: Values, prefix: Path,
      parses: Parses, path: Path)
    requires MembersCompile(root, members)
    requires ReadMembers(members, values, prefix, parses) == Err(Refused(Missing(path)))
    ensures exists f ::
              f in Schema(root, members, prefix) && f.path == path && !f.presence.Optional? &&
              EntryAt(values, path).None?
    decreases members, 1
  {
    var first, rest := members[0], members[1..];
    assert first in members && forall m | m in rest :: m in members;
    if ReadMember(first, values, prefix, parses).Err? {
      MemberMisses(root, first, values, prefix, parses, path);
    } else {
      MembersMiss(root, rest, values, prefix, parses, path);
    }
  }

  lemma {:induction false} ArgumentsNeverMiss(flags: ConfigArgs.Flags, args: seq<string>)
    ensures ConfigArgs.Read(flags, args).Err? ==> ConfigArgs.Read(flags, args).error.NoValue?
    decreases |args|
  {
    if args != [] {
      var name := ConfigArgs.Halves(args[0]).0;
      ItemNeverMisses(ConfigArgs.MeaningOf(flags, name), args[0], args[1..]);
      if ConfigArgs.ReadItem(flags, args).Ok? { ArgumentsNeverMiss(flags, ConfigArgs.ReadItem(flags, args).value.1); }
    }
  }

  lemma ItemNeverMisses(meaning: ConfigArgs.Meaning, token: string, rest: seq<string>)
    ensures ConfigArgs.ItemAs(meaning, token, rest).Err? ==> ConfigArgs.ItemAs(meaning, token, rest).error.NoValue?
  {
  }

  lemma {:induction false} EnforceNeverMisses(values: Values, fields: seq<Field>)
    ensures EnforceAll(values, fields).Some? ==>
              var e := EnforceAll(values, fields).value; e.Refused? ==> !e.refusal.Missing?
  {
    if fields != [] { EnforceNeverMisses(values, fields[1..]); }
  }

  lemma MissingIsFromReading(s: Struct, values: Values, parses: Parses, path: Path)
    requires ReadAndEnforce(s, values, parses) == Failed(Refused(Missing(path)))
    ensures ReadMembers(s.members, values, [], parses) == Err(Refused(Missing(path)))
  {
    EnforceNeverMisses(values, values.fields);
  }

  lemma ParsingNeverMisses(s: Struct, world: World, path: Path)
    requires Load(s, world) == Failed(Refused(Missing(path)))
    ensures var parsed := ConfigArgs.ParseArgs(SchemaOf(s, []), world.args);
            parsed.Ok? && MergeAndRead(s, world, parsed.value) == Failed(Refused(Missing(path)))
  {
    ArgumentsNeverMiss(ConfigArgs.ByFlag(SchemaOf(s, [])), world.args);
  }

  lemma MergingNeverMisses(s: Struct, world: World, parsed: ConfigArgs.Parsed, path: Path)
    requires MergeAndRead(s, world, parsed) == Failed(Refused(Missing(path)))
    ensures var merged := ConfigLayers.Merged(AppOf(s), SchemaOf(s, []), parsed, ConfigLayers.EnvOf(world.env),
                                              world.files);
            merged.Ok? && ReadAndEnforce(s, merged.value, world.parses) == Failed(Refused(Missing(path)))
  {
  }

  lemma MissingWasRead(s: Struct, world: World, path: Path)
    requires Load(s, world) == Failed(Refused(Missing(path)))
    ensures SourcesOf(s, world).Some? && MergedOf(s, world).Ok?
    ensures ReadMembers(s.members, MergedOf(s, world).value, [], world.parses) == Err(Refused(Missing(path)))
  {
    ParsingNeverMisses(s, world, path);
    var parsed := ConfigArgs.ParseArgs(SchemaOf(s, []), world.args).value;
    MergingNeverMisses(s, world, parsed, path);
    assert SourcesOf(s, world).value.args == parsed;
    MissingIsFromReading(s, MergedOf(s, world).value, world.parses, path);
  }

  /** A refusal for a missing value names a field that is required, has no default, and was given
      nothing by any source. */
  lemma OnlyRequiredIsMissing(s: Struct, world: World, path: Path)
    requires Compiles(s) && Named(s) && Load(s, world) == Failed(Refused(Missing(path)))
    ensures SourcesOf(s, world).Some?
    ensures exists f ::
              f in SchemaOf(s, []) && f.path == path && f.presence.Required? &&
              SourcesOf(s, world).value.For(f).None?
  {
    MissingWasRead(s, world, path);
    var values := MergedOf(s, world).value;
    CompiledMembers(s);
    MembersMiss(s.app.Some?, s.members, values, [], world.parses, path);
    var f :| f in SchemaOf(s, []) && f.path == path && !f.presence.Optional? && EntryAt(values, path).None?;
    MergedIsChosen(s, world, f);
  }

  // ----- exactly when a load succeeds ----------------------------------------------------------------------

  /** A registered leaf with the shape of its Rust type. */
  datatype Typed = Typed(field: Field, shape: Shape)

  function TypedOf(root: bool, m: Member, prefix: Path): seq<Typed>
    decreases m, 0
  {
    match m
    case Nested(name, _, inner) => AllTyped(inner.app.Some?, inner.members, Child(prefix, name))
    case Leaf(_, shape, _) =>
      match Emit(root, m)
      case Err(_) => []
      case Ok(e) => [Typed(FieldOf(e, prefix), shape)]
  }

  function AllTyped(root: bool, members: seq<Member>, prefix: Path): seq<Typed>
    decreases members, 1
  {
    if members == [] then [] else TypedOf(root, members[0], prefix) + AllTyped(root, members[1..], prefix)
  }

  ghost predicate SameFields(typed: seq<Typed>, fields: seq<Field>) {
    |typed| == |fields| && forall i | 0 <= i < |typed| :: typed[i].field == fields[i]
  }

  lemma SameFieldsAppend(a: seq<Typed>, b: seq<Typed>, x: seq<Field>, y: seq<Field>)
    requires SameFields(a, x) && SameFields(b, y)
    ensures SameFields(a + b, x + y)
  {
  }

  lemma {:induction false} TypedFieldsOf(root: bool, m: Member, prefix: Path)
    ensures SameFields(TypedOf(root, m, prefix), Registered(root, m, prefix))
    decreases m, 0
  {
    if m.Nested? { TypedFields(m.inner.app.Some?, m.inner.members, Child(prefix, m.name)); }
  }

  /** The typed leaves are the schema's, in its order. */
  lemma {:induction false} TypedFields(root: bool, members: seq<Member>, prefix: Path)
    ensures SameFields(AllTyped(root, members, prefix), Schema(root, members, prefix))
    decreases members, 1
  {
    if members != [] {
      TypedFieldsOf(root, members[0], prefix);
      TypedFields(root, members[1..], prefix);
      SameFieldsAppend(TypedOf(root, members[0], prefix), AllTyped(root, members[1..], prefix),
          Registered(root, members[0], prefix), Schema(root, members[1..], prefix));
    }
  }

  /** The entry can be read as the leaf's type: present unless the leaf is an option, a bool in one of the
      eight words, anything else as its type parses. */
  ghost predicate Reads(shape: Shape, entry: Option<Entry>, parses: Parses) {
    match shape
    case PlainBool => entry.Some? && (Means(entry.value.text, true) || Means(entry.value.text, false))
    case OptBool => entry.None? || Means(entry.value.text, true) || Means(entry.value.text, false)
    case Plain(ty) => entry.Some? && parses(ty, entry.value.text)
    case Opt(ty) => entry.None? || parses(ty, entry.value.text)
  }

  lemma LeafReadsExactly(shape: Shape, path: Path, values: Values, parses: Parses)
    requires FieldAt(values.fields, path).Some?
    ensures ReadLeaf(shape, path, values, parses).Ok? <==> Reads(shape, EntryAt(values, path), parses)
  {
    var entry := EntryAt(values, path);
    if entry.Some? {
      BoolWords(entry.value.text, true);
      BoolWords(entry.value.text, false);
    }
  }

  ghost predicate AllRead(typed: seq<Typed>, values: Values, parses: Parses) {
    forall t | t in typed :: Reads(t.shape, EntryAt(values, t.field.path), parses)
  }

  lemma {:induction false} MemberReadsExactly(root: bool, m: Member, values: Values, prefix: Path, parses: Parses)
    requires Emit(root, m).Ok? && (m.Nested? ==> MembersCompile(m.inner.app.Some?, m.inner.members))
    requires Registers(values, Registered(root, m, prefix))
    ensures ReadMember(m, values, prefix, parses).Ok? <==> AllRead(TypedOf(root, m, prefix), values, parses)
    decreases m, 0
  {
    match m
    case Nested(name, _, inner) =>
      MembersReadExactly(inner.app.Some?, inner.members, values, Child(prefix, name), parses);
    case Leaf(name, shape, _) =>
      var f := FieldOf(Emit(root, m).value, prefix);
      assert f in Registered(root, m, prefix);
      FieldAtIn(values.fields, f.path);
      LeafReadsExactly(shape, f.path, values, parses);
      assert TypedOf(root, m, prefix) == [Typed(f, shape)] && Typed(f, shape) in [Typed(f, shape)];
  }

  lemma {:induction false} MembersReadExactly(root: bool, members: seq<Member>, values: Values, prefix: Path,
      parses: Parses)
    requires MembersCompile(root, members) && Registers(values, Schema(root, members, prefix))
    ensures ReadMembers(members, values, prefix, parses).Ok? <==>
            AllRead(AllTyped(root, members, prefix), values, parses)
    decreases members, 1
  {
    if members != [] {
      var first, rest := members[0], members[1..];
      assert first in members && forall m | m in rest :: m in members;
      assert Registers(values, Registered(root, first, prefix)) && Registers(values, Schema(root, rest, prefix));
      MemberReadsExactly(root, first, values, prefix, parses);
      MembersReadExactly(root, rest, values, prefix, parses);
    }
  }

  /** The load is for production: the root's own `deployment` leaf is given `prod`. */
  ghost predicate ForProd(s: Struct, sources: Sources) {
    exists t :: t in AllTyped(s.app.Some?, s.members, []) && GivenProd(t, [], sources.For(t.field))
  }

  predicate GivenProd(t: Typed, prefix: Path, entry: Option<Entry>) {
    t.field.path == Child(prefix, DEPLOYMENT) && t.shape.Plain? && entry.Some? && entry.value.text == "prod"
  }

  ghost predicate AnyProd(typed: seq<Typed>, prefix: Path, values: Values) {
    exists t :: t in typed && GivenProd(t, prefix, EntryAt(values, t.field.path))
  }

  lemma MemberIsProd(root: bool, m: Member, values: Values, prefix: Path, parses: Parses)
    requires Emit(root, m).Ok? && ReadMember(m, values, prefix, parses).Ok?
    ensures ReadMember(m, values, prefix, parses).value == Value(DEPLOYMENT, Parsed("prod")) <==>
            AnyProd(TypedOf(root, m, prefix), prefix, values)
  {
    match m
    case Nested(name, _, inner) =>
      TypedFields(inner.app.Some?, inner.members, Child(prefix, name));
      PathsUnder(inner.app.Some?, inner.members, Child(prefix, name));
      forall t | t in TypedOf(root, m, prefix) ensures t.field.path != Child(prefix, DEPLOYMENT) {
        var i :| 0 <= i < |TypedOf(root, m, prefix)| && TypedOf(root, m, prefix)[i] == t;
        assert t.field in Schema(inner.app.Some?, inner.members, Child(prefix, name));
        assert Under(Child(prefix, name), t.field.path);
      }
    case Leaf(name, shape, _) =>
      var t := Typed(FieldOf(Emit(root, m).value, prefix), shape);
      assert TypedOf(root, m, prefix) == [t] && t in [t];
      assert Child(prefix, name)[|prefix|] == name && Child(prefix, DEPLOYMENT)[|prefix|] == DEPLOYMENT;
  }

  lemma {:induction false} ProdIsGiven(root: bool, members: seq<Member>, values: Values, prefix: Path, parses: Parses)
    requires MembersCompile(root, members) && ReadMembers(members, values, prefix, parses).Ok?
    ensures DeploymentIn(ReadMembers(members, values, prefix, parses).value) == Prod <==>
            AnyProd(AllTyped(root, members, prefix), prefix, values)
    decreases |members|
  {
    if members != [] {
      var first, rest := members[0], members[1..];
      assert first in members && forall m | m in rest :: m in members;
      MemberIsProd(root, first, values, prefix, parses);
      ProdIsGiven(root, rest, values, prefix, parses);
      var slots := ReadMembers(members, values, prefix, parses).value;
      assert slots[1..] == ReadMembers(rest, values, prefix, parses).value;
    }
  }

  /** The entries of a load's fields are what their own sources give them. */
  lemma EntriesAreGiven(s: Struct, world: World)
    requires Named(s) && SourcesOf(s, world).Some?
    ensures MergedOf(s, world).Ok? && MergedOf(s, world).value.fields == SchemaOf(s, [])
    ensures forall f | f in SchemaOf(s, []) ::
              EntryAt(MergedOf(s, world).value, f.path) == SourcesOf(s, world).value.For(f)
  {
    forall f | f in SchemaOf(s, [])
      ensures EntryAt(MergedOf(s, world).value, f.path) == SourcesOf(s, world).value.For(f)
    {
      MergedIsChosen(s, world, f);
    }
  }

  lemma TypedIsRegistered(s: Struct, t: Typed)
    requires t in AllTyped(s.app.Some?, s.members, [])
    ensures t.field in SchemaOf(s, [])
  {
    TypedFields(s.app.Some?, s.members, []);
    var typed := AllTyped(s.app.Some?, s.members, []);
    var i :| 0 <= i < |typed| && typed[i] == t;
    assert SchemaOf(s, [])[i] == t.field;
  }

  /** A load gives a config exactly when its arguments and its file are accepted and ask for nothing else,
      every leaf can be read from what its own sources give it, and, for production, every prod-required
      value is given and no dev-only one is enabled. */
  lemma {:induction false} LoadSucceedsExactly(s: Struct, world: World)
    requires Compiles(s) && Named(s)
    ensures Load(s, world).Config? <==>
            && SourcesOf(s, world).Some?
            && var sources := SourcesOf(s, world).value;
               && !sources.args.help && !sources.args.printConfig
               && (forall t | t in AllTyped(s.app.Some?, s.members, []) ::
                     Reads(t.shape, sources.For(t.field), world.parses))
               && (ForProd(s, sources) ==> forall f | f in SchemaOf(s, []) :: ProdAllows(f, sources.For(f)))
  {
    if SourcesOf(s, world).Some? {
      EntriesAreGiven(s, world);
      CompiledMembers(s);
      var sources, values := SourcesOf(s, world).value, MergedOf(s, world).value;
      MembersReadExactly(s.app.Some?, s.members, values, [], world.parses);
      GivenIsRead(s, sources, values, world.parses);
      if ReadMembers(s.members, values, [], world.parses).Ok? {
        RuleIsKept(s, sources, values, world.parses);
      }
      LoadIsReading(s, world);
    }
  }

  lemma LoadIsReading(s: Struct, world: World)
    requires SourcesOf(s, world).Some? && MergedOf(s, world).Ok?
    ensures Load(s, world).Config? <==>
            && !SourcesOf(s, world).value.args.help && !SourcesOf(s, world).value.args.printConfig
            && ReadAndEnforce(s, MergedOf(s, world).value, world.parses).Config?
  {
  }

  lemma GivenIsRead(s: Struct, sources: Sources, values: Values, parses: Parses)
    requires forall f | f in SchemaOf(s, []) :: EntryAt(values, f.path) == sources.For(f)
    ensures AllRead(AllTyped(s.app.Some?, s.members, []), values, parses) <==>
            forall t | t in AllTyped(s.app.Some?, s.members, []) :: Reads(t.shape, sources.For(t.field), parses)
    ensures AnyProd(AllTyped(s.app.Some?, s.members, []), [], values) <==> ForProd(s, sources)
  {
    forall t | t in AllTyped(s.app.Some?, s.members, []) ensures EntryAt(values, t.field.path) == sources.For(t.field) {
      TypedIsRegistered(s, t);
    }
  }

  lemma RuleIsKept(s: Struct, sources: Sources, values: Values, parses: Parses)
    requires MembersCompile(s.app.Some?, s.members) && ReadMembers(s.members, values, [], parses).Ok?
    requires values.fields == SchemaOf(s, [])
    requires forall f | f in SchemaOf(s, []) :: EntryAt(values, f.path) == sources.For(f)
    ensures Enforce(values, DeploymentIn(ReadMembers(s.members, values, [], parses).value)).None? <==>
            (ForProd(s, sources) ==> forall f | f in SchemaOf(s, []) :: ProdAllows(f, sources.For(f)))
  {
    var slots := ReadMembers(s.members, values, [], parses).value;
    ProdIsGiven(s.app.Some?, s.members, values, [], parses);
    GivenIsRead(s, sources, values, parses);
    EnforceExactly(values, DeploymentIn(slots));
    forall f | f in SchemaOf(s, []) ensures FitForProd(values, f) <==> ProdAllows(f, sources.For(f)) {
      FitMeansAllowed(values, f);
    }
  }

  // ----- bools ----------------------------------------------------------------------------------------------

  lemma FlagRead(content: Content, f: Field, text: string, origin: Origin, on: bool)
    requires f.kind.Bool? && Means(text, on) && Fits(content, f, Some(Entry(text, origin)))
    ensures content == if f.presence.Optional? then OptFlag(Some(on)) else Flag(on)
  {
    NotBoth(text);
  }

  /** What a loaded config holds for one field. */
  lemma LoadedFits(s: Struct, world: World, i: nat)
    requires Compiles(s) && Named(s) && Load(s, world).Config? && i < |SchemaOf(s, [])|
    ensures SourcesOf(s, world).Some? && i < |Flat(Load(s, world).slots)|
    ensures Fits(Flat(Load(s, world).slots)[i], SchemaOf(s, [])[i], SourcesOf(s, world).value.For(SchemaOf(s, [])[i]))
  {
    LoadedIsChosen(s, world);
  }

  lemma ArgumentsOf(s: Struct, world: World, values: seq<ConfigArgs.Binding>)
    requires SourcesOf(s, world).Some?
    requires ConfigArgs.ParseArgs(SchemaOf(s, []), world.args) == Ok(ConfigArgs.Parsed(false, false, None, values))
    ensures SourcesOf(s, world).value.args.values == values
  {
  }

  /** A bool given its flag alone, and nothing else on the command line, loads true. */
  lemma {:induction false} BareFlagLoadsTrue(s: Struct, world: World, i: nat)
    requires Compiles(s) && Named(s) && Load(s, world).Config? && i < |SchemaOf(s, [])|
    requires var f := SchemaOf(s, [])[i];
      && f.kind.Bool? && Idents(f.path) && !ConfigArgs.BuiltIn(f.FlagName())
      && ConfigArgs.LastOfItsFlag(SchemaOf(s, []), i) && world.args == [f.FlagName()]
    ensures var contents := Flat(Load(s, world).slots);
      && i < |contents|
      && contents[i] == if SchemaOf(s, [])[i].presence.Optional? then OptFlag(Some(true)) else Flag(true)
  {
    var f := SchemaOf(s, [])[i];
    LoadedFits(s, world, i);
    SchemaIsDistinct(s, []);
    ConfigArgs.BareFlagGives(SchemaOf(s, []), i);
    ArgumentsOf(s, world, [ConfigArgs.Binding(f.path, "true", f.FlagName())]);
    var sources := SourcesOf(s, world).value;
    ConfigLayers.OnlyArgument(sources.app, f, sources.args, sources.env, sources.pairs, sources.file, "true",
                              f.FlagName());
    PlainTexts();
    FlagRead(Flat(Load(s, world).slots)[i], f, "true", FromArg(f.FlagName()), true);
  }

  /** A bool leaf with no default of its own, which no source gives anything, loads false; and dev-only, it
      passes the rule of production. */
  lemma {:induction false} UnsetBoolLoadsFalse(s: Struct, world: World, i: nat, root: bool, name: string, attrs: Attrs,
                                               prefix: Path)
    requires Compiles(s) && Named(s) && Load(s, world).Config? && i < |SchemaOf(s, [])|
    requires attrs.default.None? && !attrs.required && !IsDeployment(root, name)
    requires EmitLeaf(root, name, PlainBool, attrs).Ok?
    requires SchemaOf(s, [])[i] == FieldOf(EmitLeaf(root, name, PlainBool, attrs).value, prefix)
    requires SourcesOf(s, world).Some? ==>
               var f, sources := SchemaOf(s, [])[i], SourcesOf(s, world).value;
               && (forall b | b in sources.args.values :: b.path != f.path)
               && f.EnvVariable(sources.app) !in sources.env
               && (forall pair | pair in sources.pairs :: pair.0 != f.path)
    ensures var f, contents := SchemaOf(s, [])[i], Flat(Load(s, world).slots);
      && i < |contents| && contents[i] == Flag(false)
      && SourcesOf(s, world).Some? && ProdAllows(f, SourcesOf(s, world).value.For(f))
  {
    LoadedFits(s, world, i);
    var f, sources := SchemaOf(s, [])[i], SourcesOf(s, world).value;
    ConfigLayers.NoSource(sources.app, f, sources.args, sources.env, sources.pairs, sources.file);
    PlainTexts();
    assert f.presence == Default("false") && !f.rule.ProdRequired?;
    FlagRead(Flat(Load(s, world).slots)[i], f, "false", FromDefault, false);
  }

  // ----- a file that cannot be read ---------------------------------------------------------------------------

  /** A load that names a file which cannot be read refuses, unless it is asked for help. */
  lemma UnreadableFileRefuses(s: Struct, world: World, parsed: ConfigArgs.Parsed, file: string)
    requires ConfigArgs.ParseArgs(SchemaOf(s, []), world.args) == Ok(parsed) && !parsed.help
    requires world.files(file).CannotRead?
    ensures parsed.config == Some(file) ==> Load(s, world) == Failed(Refused(Unreadable("--config", file)))
    ensures var variable := AppOf(s) + "_CONFIG";
      parsed.config.None? && variable in ConfigLayers.EnvOf(world.env) &&
      ConfigLayers.EnvOf(world.env)[variable] == file ==>
        Load(s, world) == Failed(Refused(Unreadable(variable, file)))
  {
  }

  /** A call for help is answered before any file is read, and one for the merged values before they are. */
  lemma RequestsAreAnswered(s: Struct, world: World, parsed: ConfigArgs.Parsed)
    requires ConfigArgs.ParseArgs(SchemaOf(s, []), world.args) == Ok(parsed)
    ensures parsed.help ==> Load(s, world) == HelpText
    ensures !parsed.help && parsed.printConfig && SourcesOf(s, world).Some? ==>
              MergedOf(s, world).Ok? && Load(s, world) == PrintText(MergedOf(s, world).value)
  {
  }

  // ----- what a refusal is about ------------------------------------------------------------------------------

  /** The entry is there and cannot be read as the leaf's type. */
  ghost predicate Misread(typed: seq<Typed>, values: Values, parses: Parses, path: Path, entry: Entry) {
    exists t :: t in typed && t.field.path == path && EntryAt(values, path) == Some(entry) &&
                !Reads(t.shape, Some(entry), parses)
  }

  lemma {:induction false} MemberMisread(root: bool, m: Member, values: Values, prefix: Path, parses: Parses,
      path: Path, entry: Entry)
    requires Emit(root, m).Ok? && (m.Nested? ==> MembersCompile(m.inner.app.Some?, m.inner.members))
    requires Registers(values, Registered(root, m, prefix))
    requires ReadMember(m, values, prefix, parses) == Err(Refused(WrongType(path, entry)))
    ensures Misread(TypedOf(root, m, prefix), values, parses, path, entry)
    decreases m, 0
  {
    match m
    case Nested(name, _, inner) =>
      MembersMisread(inner.app.Some?, inner.members, values, Child(prefix, name), parses, path, entry);
    case Leaf(name, shape, _) =>
      var f := FieldOf(Emit(root, m).value, prefix);
      assert f in Registered(root, m, prefix);
      FieldAtIn(values.fields, f.path);
      LeafReadsExactly(shape, f.path, values, parses);
      assert Typed(f, shape) in TypedOf(root, m, prefix);
  }

  lemma {:induction false} MembersMisread(root: bool, members: seq<Member>, values: Values, prefix: Path,
      parses: Parses, path: Path, entry: Entry)
    requires MembersCompile(root, members) && Registers(values, Schema(root, members, prefix))
    requires ReadMembers(members, values, prefix, parses) == Err(Refused(WrongType(path, entry)))
    ensures Misread(AllTyped(root, members, prefix), values, parses, path, entry)
    decreases members, 1
  {
    var first, rest := members[0], members[1..];
    assert first in members && forall m | m in rest :: m in members;
    assert Registers(values, Registered(root, first, prefix)) && Registers(values, Schema(root, rest, prefix));
    if ReadMember(first, values, prefix, parses).Err? {
      MemberMisread(root, first, values, prefix, parses, path, entry);
    } else {
      MembersMisread(root, rest, values, prefix, parses, path, entry);
    }
  }

  /** The rule of production names a field that breaks it. */
  lemma {:induction false} RuleNamesItsField(values: Values, fields: seq<Field>)
    requires EnforceAll(values, fields).Some? && EnforceAll(values, fields).value.Refused?
    ensures match EnforceAll(values, fields).value.refusal
            case ProdUnset(path) =>
              exists f :: f in fields && f.path == path && f.rule.ProdRequired? && EntryAt(values, path).None?
            case DevSet(path) =>
              exists f :: f in fields && f.path == path && f.rule.DevOnly? && EntryAt(values, path).Some?
            case WrongType(path, entry) => EntryAt(values, path) == Some(entry)
            case _ => false
  {
    if EnforceOne(values, fields[0]).Some? {
      assert fields[0] in fields;
    } else {
      RuleNamesItsField(values, fields[1..]);
      assert forall f | f in fields[1..] :: f in fields;
    }
  }

  /** A refusal behind the merge names what it is about: a leaf whose own sources give it a text that is not
      of its type, or, for production, a required value that they do not give or a dev-only one they do. */
  lemma {:induction false} RefusalsNameTheirField(s: Struct, world: World)
    requires Compiles(s) && Named(s) && SourcesOf(s, world).Some?
    requires !SourcesOf(s, world).value.args.help && !SourcesOf(s, world).value.args.printConfig
    requires Load(s, world).Failed? && Load(s, world).failure.Refused?
    ensures var sources := SourcesOf(s, world).value;
      match Load(s, world).failure.refusal
      case WrongType(path, entry) =>
        exists t :: t in AllTyped(s.app.Some?, s.members, []) && t.field.path == path &&
                    sources.For(t.field) == Some(entry) && !Reads(t.shape, Some(entry), world.parses)
      case ProdUnset(path) =>
        exists f :: f in SchemaOf(s, []) && f.path == path && f.rule.ProdRequired? && sources.For(f).None?
      case DevSet(path) =>
        exists f :: f in SchemaOf(s, []) && f.path == path && f.rule.DevOnly? && sources.For(f).Some?
      case _ => true
  {
    EntriesAreGiven(s, world);
    CompiledMembers(s);
    var sources, values := SourcesOf(s, world).value, MergedOf(s, world).value;
    var read := ReadMembers(s.members, values, [], world.parses);
    LoadFails(s, world);
    if read.Err? {
      if read.error.Refused? && read.error.refusal.WrongType? {
        var path, entry := read.error.refusal.path, read.error.refusal.entry;
        MembersMisread(s.app.Some?, s.members, values, [], world.parses, path, entry);
        var t :| t in AllTyped(s.app.Some?, s.members, []) && t.field.path == path &&
                 EntryAt(values, path) == Some(entry) && !Reads(t.shape, Some(entry), world.parses);
        TypedIsRegistered(s, t);
      } else {
        ReadingNeverBreaksTheRule(s.members, values, [], world.parses);
      }
    } else {
      RuleNamesItsField(values, values.fields);
      MembersReadExactly(s.app.Some?, s.members, values, [], world.parses);
      NoRuleMisreads(s, values, world.parses);
    }
  }

  lemma LoadFails(s: Struct, world: World)
    requires SourcesOf(s, world).Some? && MergedOf(s, world).Ok? && Load(s, world).Failed?
    requires !SourcesOf(s, world).value.args.help && !SourcesOf(s, world).value.args.printConfig
    ensures var values := MergedOf(s, world).value;
      var read := ReadMembers(s.members, values, [], world.parses);
      if read.Err? then Load(s, world).failure == read.error
      else Enforce(values, DeploymentIn(read.value)) == Some(Load(s, world).failure)
  {
  }

  lemma {:induction false} MemberNeverBreaksTheRule(m: Member, values: Values, prefix: Path, parses: Parses)
    ensures ReadMember(m, values, prefix, parses).Err? && ReadMember(m, values, prefix, parses).error.Refused? ==>
              var e := ReadMember(m, values, prefix, parses).error.refusal; !e.ProdUnset? && !e.DevSet?
    decreases m, 0
  {
    if m.Nested? { ReadingNeverBreaksTheRule(m.inner.members, values, Child(prefix, m.name), parses); }
  }

  lemma {:induction false} ReadingNeverBreaksTheRule(members: seq<Member>, values: Values, prefix: Path, parses: Parses)
    ensures ReadMembers(members, values, prefix, parses).Err? &&
            ReadMembers(members, values, prefix, parses).error.Refused? ==>
              var e := ReadMembers(members, values, prefix, parses).error.refusal; !e.ProdUnset? && !e.DevSet?
    decreases members, 1
  {
    if members != [] {
      MemberNeverBreaksTheRule(members[0], values, prefix, parses);
      ReadingNeverBreaksTheRule(members[1..], values, prefix, parses);
    }
  }

  /** What every leaf's type has read, the rule can read too. */
  lemma {:induction false} NoRuleMisreads(s: Struct, values: Values, parses: Parses)
    requires MembersCompile(s.app.Some?, s.members) && values.fields == SchemaOf(s, [])
    requires AllRead(AllTyped(s.app.Some?, s.members, []), values, parses)
    ensures EnforceAll(values, values.fields).Some? && EnforceAll(values, values.fields).value.Refused? ==>
              !EnforceAll(values, values.fields).value.refusal.WrongType?
  {
    TypedFields(s.app.Some?, s.members, []);
    BoolsAreTyped(s.app.Some?, s.members, []);
    forall f | f in values.fields && f.kind.Bool? && EntryAt(values, f.path).Some?
      ensures ParseBool(EntryAt(values, f.path).value.text).Some?
    {
      var i :| 0 <= i < |values.fields| && values.fields[i] == f;
      var t := AllTyped(s.app.Some?, s.members, [])[i];
      assert t in AllTyped(s.app.Some?, s.members, []);
      BoolWords(EntryAt(values, f.path).value.text, true);
      BoolWords(EntryAt(values, f.path).value.text, false);
    }
    NoneMisread(values, values.fields);
  }

  lemma {:induction false} NoneMisread(values: Values, fields: seq<Field>)
    requires forall f | f in fields && f.kind.Bool? && EntryAt(values, f.path).Some? ::
               ParseBool(EntryAt(values, f.path).value.text).Some?
    ensures EnforceAll(values, fields).Some? && EnforceAll(values, fields).value.Refused? ==>
              !EnforceAll(values, fields).value.refusal.WrongType?
  {
    if fields != [] {
      assert fields[0] in fields && forall f | f in fields[1..] :: f in fields;
      NoneMisread(values, fields[1..]);
    }
  }

  lemma {:induction false} MemberBoolsAreTyped(root: bool, m: Member, prefix: Path)
    ensures forall t | t in TypedOf(root, m, prefix) :: t.field.kind.Bool? <==> t.shape.PlainBool? || t.shape.OptBool?
    decreases m, 0
  {
    if m.Nested? { BoolsAreTyped(m.inner.app.Some?, m.inner.members, Child(prefix, m.name)); }
  }

  lemma {:induction false} BoolsAreTyped(root: bool, members: seq<Member>, prefix: Path)
    ensures forall t | t in AllTyped(root, members, prefix) ::
              t.field.kind.Bool? <==> t.shape.PlainBool? || t.shape.OptBool?
    decreases members, 1
  {
    if members != [] {
      MemberBoolsAreTyped(root, members[0], prefix);
      BoolsAreTyped(root, members[1..], prefix);
    }
  }
}
