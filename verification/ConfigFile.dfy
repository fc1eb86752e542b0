/** The TOML file as `(path, text)` pairs: tables are levels, every leaf is a scalar, and every key
    is in the schema. */
module ConfigFile {
  import opened Wrappers
  import opened Texts
  import opened ConfigPaths
  import opened ConfigSchema
  import opened ConfigDerive

  /** A parsed value: a scalar is its text, and a table lists its entries in the parser's order. */
  datatype Toml = Table(entries: Entries) | Array | Scalar(text: string)

  datatype Line = Line(name: string, value: Toml)

  type Entries = seq<Line>

  /** What became of asking for a file. */
  datatype Answer = CannotRead | NotToml | Parsed(entries: Entries)

  type Pairs = seq<(Path, string)>

  datatype Found = Found(values: Pairs, unknown: seq<string>, nonScalar: seq<string>) {
    function Plus(more: Found): Found {
      Found(values + more.values, unknown + more.unknown, nonScalar + more.nonScalar)
    }
  }

  const EMPTY: Found := Found([], [], [])

  type Keys = map<string, Path>

  function ByKey(fields: seq<Field>): Keys {
    if fields == [] then map[]
    else ByKey(fields[..|fields| - 1])[fields[|fields| - 1].Key() := fields[|fields| - 1].path]
  }

  function KeyUnder(prefix: string, name: string): string {
    if prefix == "" then name else prefix + "." + name
  }

  function FlattenOne(key: string, value: Toml, byKey: Keys): Found
    decreases value, 0
  {
    match value
    case Table(inner) => Flatten(inner, key, byKey)
    case Array => Found([], [], [key])
    case Scalar(text) => if key in byKey then Found([(byKey[key], text)], [], []) else Found([], [key], [])
  }

  function Flatten(table: Entries, prefix: string, byKey: Keys): Found
    decreases table, 1
  {
    if table == [] then EMPTY
    else FlattenOne(KeyUnder(prefix, table[0].name), table[0].value, byKey).Plus(Flatten(table[1..], prefix, byKey))
  }

  lemma PlusIsAssociative(a: Found, b: Found, c: Found)
    ensures a.Plus(b).Plus(c) == a.Plus(b.Plus(c)) && a.Plus(EMPTY) == a && EMPTY.Plus(a) == a
  {
    assert a.values + b.values + c.values == a.values + (b.values + c.values);
    assert a.unknown + b.unknown + c.unknown == a.unknown + (b.unknown + c.unknown);
    assert a.nonScalar + b.nonScalar + c.nonScalar == a.nonScalar + (b.nonScalar + c.nonScalar);
    assert a.values + [] == a.values && a.unknown + [] == a.unknown && a.nonScalar + [] == a.nonScalar;
    assert [] + a.values == a.values && [] + a.unknown == a.unknown && [] + a.nonScalar == a.nonScalar;
  }

  /** The recursion that pushes onto what is found so far. */
  method Collect(table: Entries, prefix: string, byKey: Keys, found: Found) returns (out: Found)
    ensures out == found.Plus(Flatten(table, prefix, byKey))
    decreases table
  {
    out := found;
    assert table[0..] == table;
    for i := 0 to |table|
      invariant out.Plus(Flatten(table[i..], prefix, byKey)) == found.Plus(Flatten(table, prefix, byKey))
    {
      var name, value := table[i].name, table[i].value;
      var key := if prefix == "" then name else prefix + "." + name;
      ghost var was, one, more := out, FlattenOne(key, value, byKey), Flatten(table[i + 1..], prefix, byKey);
      assert table[i..][0] == table[i] && table[i..][1..] == table[i + 1..];
      match value {
        case Table(inner) =>
          out := Collect(inner, key, byKey, out);
        case Array =>
          out := out.(nonScalar := out.nonScalar + [key]);
        case Scalar(text) =>
          if key in byKey {
            out := out.(values := out.values + [(byKey[key], text)]);
          } else {
            out := out.(unknown := out.unknown + [key]);
          }
      }
      assert out == was.Plus(one) by {
        assert was.values + [] == was.values && was.unknown + [] == was.unknown && was.nonScalar + [] == was.nonScalar;
      }
      PlusIsAssociative(was, one, more);
    }
    assert table[|table|..] == [];
    PlusIsAssociative(out, EMPTY, EMPTY);
  }

  function Accept(source: string, found: Found): Result<Pairs, Refusal> {
    if found.nonScalar != [] then Err(NonScalar(source, found.nonScalar))
    else if found.unknown != [] then Err(UnknownKeys(source, found.unknown))
    else Ok(found.values)
  }

  function ReadFile(fields: seq<Field>, source: string, file: string, answer: Answer): Result<Pairs, Refusal> {
    match answer
    case CannotRead => Err(Unreadable(source, file))
    case NotToml => Err(Malformed(source, file))
    case Parsed(entries) => Accept(source, Flatten(entries, "", ByKey(fields)))
  }

  method Read(fields: seq<Field>, source: string, file: string, answer: Answer) returns (r: Result<Pairs, Refusal>)
    ensures r == ReadFile(fields, source, file, answer)
  {
    match answer {
      case CannotRead => return Err(Unreadable(source, file));
      case NotToml => return Err(Malformed(source, file));
      case Parsed(entries) =>
        var found := Collect(entries, "", ByKey(fields), EMPTY);
        PlusIsAssociative(Flatten(entries, "", ByKey(fields)), EMPTY, EMPTY);
        if found.nonScalar != [] { return Err(NonScalar(source, found.nonScalar)); }
        if found.unknown != [] { return Err(UnknownKeys(source, found.unknown)); }
        return Ok(found.values);
    }
  }

  // ----- a file written for a struct ---------------------------------------------------------------

  type TextsByPath = map<Path, string>

  /** The table a struct's texts are written as: a nested table per nested struct. */
  function Tabulate(root: bool, members: seq<Member>, prefix: Path, texts: TextsByPath): Entries
    decreases members, 1
  {
    if members == [] then []
    else TabulateOne(root, members[0], prefix, texts) + Tabulate(root, members[1..], prefix, texts)
  }

  function TabulateOne(root: bool, m: Member, prefix: Path, texts: TextsByPath): Entries
    decreases m, 0
  {
    match m
    case Nested(name, _, inner) =>
      [Line(name, Table(Tabulate(inner.app.Some?, inner.members, Child(prefix, name), texts)))]
    case Leaf(name, _, _) =>
      if Child(prefix, name) in texts && Emit(root, m).Ok? then [Line(name, Scalar(texts[Child(prefix, name)]))] else []
  }

  /** The texts of registered fields, in schema order. */
  function Given(fields: seq<Field>, texts: TextsByPath): Pairs {
    if fields == [] then []
    else (if fields[0].path in texts then [(fields[0].path, texts[fields[0].path])] else []) + Given(fields[1..], texts)
  }

  lemma {:induction false} GivenAppend(a: seq<Field>, b: seq<Field>, texts: TextsByPath)
    ensures Given(a + b, texts) == Given(a, texts) + Given(b, texts)
  {
    if a == [] {
      assert a + b == b;
    } else {
      assert (a + b)[1..] == a[1..] + b;
      GivenAppend(a[1..], b, texts);
    }
  }

  lemma {:induction false} FlattenAppend(a: Entries, b: Entries, prefix: string, byKey: Keys)
    ensures Flatten(a + b, prefix, byKey) == Flatten(a, prefix, byKey).Plus(Flatten(b, prefix, byKey))
    decreases |a|
  {
    if a == [] {
      assert a + b == b;
      PlusIsAssociative(Flatten(b, prefix, byKey), EMPTY, EMPTY);
    } else {
      assert (a + b)[1..] == a[1..] + b;
      FlattenAppend(a[1..], b, prefix, byKey);
      PlusIsAssociative(FlattenOne(KeyUnder(prefix, a[0].name), a[0].value, byKey), Flatten(a[1..], prefix, byKey),
                        Flatten(b, prefix, byKey));
    }
  }

  lemma {:induction false} DottedChild(prefix: Path, name: string)
    requires forall i | 0 <= i < |prefix| :: prefix[i] != ""
    ensures KeyUnder(Dotted(prefix), name) == Dotted(Child(prefix, name))
    ensures prefix != [] ==> Dotted(prefix) != ""
  {
    if |prefix| == 1 {
      assert Child(prefix, name)[1..] == [name] && Dotted([name]) == name;
      assert Dotted(Child(prefix, name)) == prefix[0] + "." + name;
    } else if |prefix| > 1 {
      DottedChild(prefix[1..], name);
      assert Child(prefix, name)[1..] == Child(prefix[1..], name);
      assert prefix[0] + "." + (Dotted(prefix[1..]) + "." + name) == prefix[0] + "." + Dotted(prefix[1..]) + "." + name;
    }
  }

  /** The keys find their own paths. */
  predicate Keyed(byKey: Keys, fields: seq<Field>) {
    forall f | f in fields :: f.Key() in byKey && byKey[f.Key()] == f.path
  }

  predicate NonEmpty(prefix: Path) { forall i | 0 <= i < |prefix| :: prefix[i] != "" }

  predicate NamesNonEmpty(members: seq<Member>)
    decreases members
  {
    forall m | m in members :: m.name != "" && (m.Nested? ==> NamesNonEmpty(m.inner.members))
  }

  lemma KeyedParts(byKey: Keys, a: seq<Field>, b: seq<Field>)
    requires Keyed(byKey, a + b)
    ensures Keyed(byKey, a) && Keyed(byKey, b)
  {
    assert forall f | f in a :: f in a + b;
    assert forall f | f in b :: f in a + b;
  }

  lemma {:induction false} TableReadsBack(root: bool, members: seq<Member>, prefix: Path, texts: TextsByPath,
      byKey: Keys)
    requires NonEmpty(prefix) && NamesNonEmpty(members) && Keyed(byKey, Schema(root, members, prefix))
    ensures Flatten(Tabulate(root, members, prefix, texts), Dotted(prefix), byKey) ==
            Found(Given(Schema(root, members, prefix), texts), [], [])
    decreases members, 1
  {
    if members != [] {
      var first, rest := members[0], members[1..];
      var a, b := Registered(root, first, prefix), Schema(root, rest, prefix);
      assert first in members && forall m | m in rest :: m in members;
      KeyedParts(byKey, a, b);
      MemberReadsBack(root, first, prefix, texts, byKey);
      TableReadsBack(root, rest, prefix, texts, byKey);
      FlattenAppend(TabulateOne(root, first, prefix, texts), Tabulate(root, rest, prefix, texts), Dotted(prefix),
          byKey);
      GivenAppend(a, b, texts);
    }
  }

  lemma {:induction false} MemberReadsBack(root: bool, m: Member, prefix: Path, texts: TextsByPath, byKey: Keys)
    requires NonEmpty(prefix) && m.name != "" && (m.Nested? ==> NamesNonEmpty(m.inner.members))
    requires Keyed(byKey, Registered(root, m, prefix))
    ensures Flatten(TabulateOne(root, m, prefix, texts), Dotted(prefix), byKey) ==
            Found(Given(Registered(root, m, prefix), texts), [], [])
    decreases m, 0
  {
    var child := Child(prefix, m.name);
    DottedChild(prefix, m.name);
    var entries := TabulateOne(root, m, prefix, texts);
    match m
    case Nested(_, _, inner) =>
      TableReadsBack(inner.app.Some?, inner.members, child, texts, byKey);
      OneEntry(entries[0], Dotted(prefix), byKey);
    case Leaf(_, _, _) =>
      if Emit(root, m).Ok? {
        var f := FieldOf(Emit(root, m).value, prefix);
        assert Registered(root, m, prefix) == [f] && [f][1..] == [];
        assert f in Registered(root, m, prefix);
        if child in texts { OneEntry(entries[0], Dotted(prefix), byKey); }
      }
  }

  lemma OneEntry(entry: Line, prefix: string, byKey: Keys)
    ensures Flatten([entry], prefix, byKey) == FlattenOne(KeyUnder(prefix, entry.name), entry.value, byKey)
  {
    assert [entry][1..] == [];
    PlusIsAssociative(FlattenOne(KeyUnder(prefix, entry.name), entry.value, byKey), EMPTY, EMPTY);
  }

  lemma {:induction false} KeysFind(fields: seq<Field>)
    requires forall f | f in fields :: Idents(f.path)
    ensures Keyed(ByKey(fields), fields)
    ensures forall key | key in ByKey(fields) :: Idents(ByKey(fields)[key]) && Dotted(ByKey(fields)[key]) == key
  {
    if fields != [] {
      var before, last := fields[..|fields| - 1], fields[|fields| - 1];
      KeysFind(before);
      assert fields == before + [last];
      DottedReadsBack(last.path);
      forall f | f in fields ensures f.Key() in ByKey(fields) && ByKey(fields)[f.Key()] == f.path {
        DottedReadsBack(f.path);
      }
    }
  }

  /** A file holding any texts for a struct's leaves, written as the struct is nested, is read as
      exactly those texts, each for its own field. */
  lemma FileRoundTrip(s: Struct, texts: TextsByPath, source: string, file: string)
    requires NamesNonEmpty(s.members) && forall f | f in SchemaOf(s, []) :: Idents(f.path)
    ensures ReadFile(SchemaOf(s, []), source, file, Parsed(Tabulate(s.app.Some?, s.members, [], texts))) ==
            Ok(Given(SchemaOf(s, []), texts))
  {
    KeysFind(SchemaOf(s, []));
    TableReadsBack(s.app.Some?, s.members, [], texts, ByKey(SchemaOf(s, [])));
  }

  // ----- exactly which files are accepted ------------------------------------------------------------

  /** The leaf stands in the table under this key, its levels joined by dots. */
  ghost predicate Holds(table: Entries, prefix: string, key: string, leaf: Toml)
    decreases table, 1
  {
    exists i | 0 <= i < |table| :: HoldsAt(KeyUnder(prefix, table[i].name), table[i].value, key, leaf)
  }

  ghost predicate HoldsAt(at: string, value: Toml, key: string, leaf: Toml)
    decreases value, 0
  {
    match value
    case Table(inner) => Holds(inner, at, key, leaf)
    case _ => at == key && value == leaf
  }

  lemma HoldsCons(table: Entries, prefix: string, key: string, leaf: Toml)
    requires table != []
    ensures Holds(table, prefix, key, leaf) <==>
            HoldsAt(KeyUnder(prefix, table[0].name), table[0].value, key, leaf) ||
            Holds(table[1..], prefix, key, leaf)
  {
    var rest := table[1..];
    if Holds(table, prefix, key, leaf) {
      var i :| 0 <= i < |table| && HoldsAt(KeyUnder(prefix, table[i].name), table[i].value, key, leaf);
      if i > 0 { assert rest[i - 1] == table[i]; }
    }
    if Holds(rest, prefix, key, leaf) {
      var i :| 0 <= i < |rest| && HoldsAt(KeyUnder(prefix, rest[i].name), rest[i].value, key, leaf);
      assert table[i + 1] == rest[i];
    }
  }

  /** Flattening finds under one key an array, a scalar that no field has, or a field's text. */
  lemma {:induction false} FlattenOneSays(at: string, value: Toml, byKey: Keys, key: string)
    ensures var found := FlattenOne(at, value, byKey);
      && (key in found.nonScalar <==> HoldsAt(at, value, key, Array))
      && (key in found.unknown <==> key !in byKey && exists text :: HoldsAt(at, value, key, Scalar(text)))
      && (forall text | key in byKey && HoldsAt(at, value, key, Scalar(text)) :: (byKey[key], text) in found.values)
    decreases value, 0
  {
    match value
    case Table(inner) =>
      FlattenSays(inner, at, byKey, key);
      forall text ensures HoldsAt(at, value, key, Scalar(text)) == Holds(inner, at, key, Scalar(text)) {}
    case Array =>
    case Scalar(text) => assert at == key ==> HoldsAt(at, value, key, Scalar(text));
  }

  lemma {:induction false} FlattenSays(table: Entries, prefix: string, byKey: Keys, key: string)
    ensures var found := Flatten(table, prefix, byKey);
      && (key in found.nonScalar <==> Holds(table, prefix, key, Array))
      && (key in found.unknown <==> key !in byKey && exists text :: Holds(table, prefix, key, Scalar(text)))
      && (forall text | key in byKey && Holds(table, prefix, key, Scalar(text)) :: (byKey[key], text) in found.values)
    decreases table, 1
  {
    if table != [] {
      var at, first, rest := KeyUnder(prefix, table[0].name), table[0].value, table[1..];
      FlattenOneSays(at, first, byKey, key);
      FlattenSays(rest, prefix, byKey, key);
      HoldsCons(table, prefix, key, Array);
      forall text
        ensures Holds(table, prefix, key, Scalar(text)) <==>
                HoldsAt(at, first, key, Scalar(text)) || Holds(rest, prefix, key, Scalar(text))
      {
        HoldsCons(table, prefix, key, Scalar(text));
      }
    }
  }

  lemma {:induction false} KeysOfFields(fields: seq<Field>, key: string)
    ensures key in ByKey(fields) <==> exists f :: f in fields && f.Key() == key
  {
    if fields != [] {
      var before, last := fields[..|fields| - 1], fields[|fields| - 1];
      assert fields == before + [last];
      KeysOfFields(before, key);
    }
  }

  /** A file is accepted exactly when it can be read, is TOML, and holds under every key a scalar that a
      field of the schema is spelled as. */
  lemma {:induction false} AcceptedExactly(fields: seq<Field>, source: string, file: string, answer: Answer)
    ensures ReadFile(fields, source, file, answer).Ok? <==>
            && answer.Parsed?
            && (forall key :: !Holds(answer.entries, "", key, Array))
            && (forall key, text | Holds(answer.entries, "", key, Scalar(text)) ::
                  exists f :: f in fields && f.Key() == key)
    ensures answer.CannotRead? ==> ReadFile(fields, source, file, answer) == Err(Unreadable(source, file))
    ensures answer.NotToml? ==> ReadFile(fields, source, file, answer) == Err(Malformed(source, file))
  {
    if answer.Parsed? {
      NoArrays(answer.entries, ByKey(fields));
      NoStrangers(answer.entries, fields);
    }
  }

  lemma NoArrays(entries: Entries, byKey: Keys)
    ensures Flatten(entries, "", byKey).nonScalar == [] <==> forall key :: !Holds(entries, "", key, Array)
  {
    var found := Flatten(entries, "", byKey);
    forall key ensures key in found.nonScalar <==> Holds(entries, "", key, Array) {
      FlattenSays(entries, "", byKey, key);
    }
    if found.nonScalar == [] {
      forall key ensures !Holds(entries, "", key, Array) { assert key !in found.nonScalar; }
    } else {
      assert Holds(entries, "", found.nonScalar[0], Array);
    }
  }

  lemma NoStrangers(entries: Entries, fields: seq<Field>)
    ensures Flatten(entries, "", ByKey(fields)).unknown == [] <==>
            forall key, text | Holds(entries, "", key, Scalar(text)) :: exists f :: f in fields && f.Key() == key
  {
    var found := Flatten(entries, "", ByKey(fields));
    if found.unknown == [] {
      forall key, text | Holds(entries, "", key, Scalar(text)) ensures exists f :: f in fields && f.Key() == key {
        FlattenSays(entries, "", ByKey(fields), key);
        KeysOfFields(fields, key);
      }
    } else {
      var key := found.unknown[0];
      FlattenSays(entries, "", ByKey(fields), key);
      KeysOfFields(fields, key);
      var text :| Holds(entries, "", key, Scalar(text));
    }
  }
}
