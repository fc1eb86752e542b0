/** What is registered per leaf of a config struct, and what the sources leave for it. */
module ConfigSchema {
  import opened Wrappers
  import opened ConfigPaths

  datatype Presence = Required | Default(text: string) | Optional

  /** What the deployment class demands of an optional value. */
  datatype Rule = Neutral | ProdRequired | DevOnly

  datatype Kind = Bool | Text

  datatype Field = Field(path: Path, presence: Presence, rule: Rule, secret: bool, kind: Kind, env: Option<string>) {
    function FlagName(): string { Flag(path) }
    function EnvVariable(app: string): string { if env.Some? then env.value else EnvName(app, path) }
    function Key(): string { Dotted(path) }
  }

  datatype Origin = FromDefault | FromFile(file: string) | FromEnvironment(name: string) | FromArg(flag: string)

  datatype Entry = Entry(text: string, origin: Origin)

  datatype FileStatus = NotConfigured | FileRead(file: string)

  datatype Values = Values(app: string, fields: seq<Field>, entries: map<Path, Entry>, file: FileStatus)

  datatype Refusal =
    | NoValue(flag: string)
    | UnknownFlags(tokens: seq<string>)
    | Unreadable(source: string, file: string)
    | Malformed(source: string, file: string)
    | NonScalar(source: string, keys: seq<string>)
    | UnknownKeys(source: string, keys: seq<string>)
    | Missing(path: Path)
    | WrongType(path: Path, entry: Entry)
    | ProdUnset(path: Path)
    | DevSet(path: Path)

  predicate DistinctPaths(fields: seq<Field>) {
    forall i, j | 0 <= i < j < |fields| :: fields[i].path != fields[j].path
  }

  /** The first field registered at a path. */
  function FieldAt(fields: seq<Field>, path: Path): Option<Field> {
    if fields == [] then None
    else if fields[0].path == path then Some(fields[0])
    else FieldAt(fields[1..], path)
  }

  lemma {:induction false} FieldAtIn(fields: seq<Field>, path: Path)
    ensures FieldAt(fields, path).Some? ==>
            FieldAt(fields, path).value in fields && FieldAt(fields, path).value.path == path
    ensures FieldAt(fields, path).None? ==> forall f | f in fields :: f.path != path
  {
    if fields != [] {
      FieldAtIn(fields[1..], path);
      assert fields == [fields[0]] + fields[1..];
    }
  }

  lemma {:induction false} FieldAtOnly(fields: seq<Field>, f: Field)
    requires DistinctPaths(fields) && f in fields
    ensures FieldAt(fields, f.path) == Some(f)
  {
    FieldAtIn(fields, f.path);
    var g := FieldAt(fields, f.path).value;
    var i :| 0 <= i < |fields| && fields[i] == f;
    var j :| 0 <= j < |fields| && fields[j] == g;
    assert i == j;
  }
}
