/** `#[derive(Config)]` as an interpreter over a tree of structs: what each struct registers, and
    what it reads back. */
module ConfigDerive {
  import opened Wrappers
  import opened ConfigPaths
  import opened ConfigSchema

  // ----- a struct and its attributes -------------------------------------------------------------

  datatype Attrs = Attrs(
    default: Option<string>,
    required: bool,
    secret: bool,
    prodRequired: bool,
    devOnly: bool,
    accepted: Option<string>)

  datatype Shape = PlainBool | OptBool | Opt(ty: string) | Plain(ty: string)

  datatype Member =
    | Leaf(name: string, shape: Shape, attrs: Attrs)
    | Nested(name: string, attrs: Attrs, inner: Struct)

  /** `app` is set on a root. */
  datatype Struct = Struct(app: Option<string>, members: seq<Member>)

  datatype CompileError =
    | NestedTakesNoKey(name: string)
    | DeploymentIsSpelled
    | DefaultAndRequired(name: string)
    | OptionIsOptional(name: string)
    | NeedsPresence(name: string)
    | BothRules(name: string)
    | ProdRequiredNeedsOption(name: string)
    | DevOnlyNeedsOption(name: string)
    | NoDeployment

  /** What one member becomes: a registration and the read-back of the same leaf, or the inner
      struct's own. */
  datatype Emission =
    | Register(name: string, presence: Presence, rule: Rule, secret: bool, kind: Kind, env: Option<string>,
        shape: Shape)
    | Extend(name: string)

  const DEPLOYMENT: string := "deployment"
  const DEPLOYMENT_VARIABLE: string := "DEPLOYMENT_TYPE"

  function PresenceOf(name: string, shape: Shape, attrs: Attrs): Result<Presence, CompileError> {
    if attrs.default.Some? && attrs.required then Err(DefaultAndRequired(name))
    else
      match shape
      case Opt(_) =>
        if attrs.default.Some? || attrs.required then Err(OptionIsOptional(name)) else Ok(Optional)
      case OptBool =>
        if attrs.default.Some? || attrs.required then Err(OptionIsOptional(name)) else Ok(Optional)
      case PlainBool =>
        if attrs.default.Some? then Ok(Default(attrs.default.value))
        else if attrs.required then Ok(Required)
        else Ok(Default("false"))
      case Plain(_) =>
        if attrs.default.Some? then Ok(Default(attrs.default.value))
        else if attrs.required then Ok(Required)
        else Err(NeedsPresence(name))
  }

  function RuleOf(name: string, shape: Shape, attrs: Attrs): Result<Rule, CompileError> {
    if attrs.prodRequired && attrs.devOnly then Err(BothRules(name))
    else if attrs.prodRequired then
      if (shape.Opt? || shape.OptBool?) && attrs.default.None? && !attrs.required
      then Ok(ProdRequired) else Err(ProdRequiredNeedsOption(name))
    else if attrs.devOnly then
      if !shape.Plain? && (attrs.default.None? || attrs.default.value == "false") && !attrs.required
      then Ok(DevOnly) else Err(DevOnlyNeedsOption(name))
    else Ok(Neutral)
  }

  predicate IsDeployment(root: bool, name: string) { root && name == DEPLOYMENT }

  function EmitLeaf(root: bool, name: string, shape: Shape, given: Attrs): Result<Emission, CompileError> {
    var deployment := IsDeployment(root, name);
    if deployment && (given.default.Some? || given.accepted.Some?) then Err(DeploymentIsSpelled)
    else
      var attrs := if deployment then given.(required := true) else given;
      match PresenceOf(name, shape, attrs)
      case Err(e) => Err(e)
      case Ok(presence) =>
        match RuleOf(name, shape, attrs)
        case Err(e) => Err(e)
        case Ok(rule) =>
          Ok(Register(name, presence, rule, attrs.secret, if shape.PlainBool? || shape.OptBool? then Bool else Text,
                      if deployment then Some(DEPLOYMENT_VARIABLE) else None, shape))
  }

  function Emit(root: bool, m: Member): Result<Emission, CompileError> {
    match m
    case Leaf(name, shape, attrs) => EmitLeaf(root, name, shape, attrs)
    case Nested(name, attrs, _) =>
      if attrs != Attrs(None, false, false, false, false, None) then Err(NestedTakesNoKey(name)) else Ok(Extend(name))
  }

  function EmitAll(root: bool, members: seq<Member>): Result<seq<Emission>, CompileError> {
    if members == [] then Ok([])
    else
      match Emit(root, members[0])
      case Err(e) => Err(e)
      case Ok(first) =>
        match EmitAll(root, members[1..])
        case Err(e) => Err(e)
        case Ok(rest) => Ok([first] + rest)
  }

  predicate HasDeployment(members: seq<Member>) {
    exists i :: 0 <= i < |members| && members[i].Leaf? && members[i].name == DEPLOYMENT
  }

  /** One struct's expansion; the inner structs have their own. */
  function Expanded(s: Struct): Result<seq<Emission>, CompileError> {
    match EmitAll(s.app.Some?, s.members)
    case Err(e) => Err(e)
    case Ok(emissions) =>
      if s.app.Some? && !HasDeployment(s.members) then Err(NoDeployment) else Ok(emissions)
  }

  method Expand(s: Struct) returns (r: Result<seq<Emission>, CompileError>)
    ensures r == Expanded(s)
  {
    var emissions, hasDeployment := [], false;
    var root, members := s.app.Some?, s.members;
    assert members[0..] == members;
    OnwardNone(EmitAll(root, members));
    for i := 0 to |members|
      invariant EmitAll(root, members) == Onward(emissions, EmitAll(root, members[i..]))
      invariant root ==> (hasDeployment <==> HasDeployment(members[..i]))
    {
      DeploymentSoFar(members, i);
      assert members[i..][1..] == members[i + 1..];
      match members[i] {
        case Nested(name, attrs, _) =>
          if attrs.default.Some? || attrs.required || attrs.secret || attrs.prodRequired || attrs.devOnly
             || attrs.accepted.Some? {
            return Err(NestedTakesNoKey(name));
          }
          OnwardOne(emissions, Extend(name), EmitAll(root, members[i + 1..]));
          emissions := emissions + [Extend(name)];
        case Leaf(name, shape, given) =>
          var attrs, env := given, None;
          if root && name == DEPLOYMENT {
            hasDeployment := true;
            if attrs.default.Some? || attrs.accepted.Some? { return Err(DeploymentIsSpelled); }
            attrs := attrs.(required := true);
            env := Some(DEPLOYMENT_VARIABLE);
          }
          var presence := PresenceOf(name, shape, attrs);
          if presence.Err? { return Err(presence.error); }
          var rule := RuleOf(name, shape, attrs);
          if rule.Err? { return Err(rule.error); }
          var kind := if shape.PlainBool? || shape.OptBool? then Bool else Text;
          var emission := Register(name, presence.value, rule.value, attrs.secret, kind, env, shape);
          OnwardOne(emissions, emission, EmitAll(root, members[i + 1..]));
          emissions := emissions + [emission];
      }
    }
    assert members[..|members|] == members && emissions + [] == emissions;
    if root && !hasDeployment { return Err(NoDeployment); }
    return Ok(emissions);
  }

  lemma DeploymentSoFar(members: seq<Member>, i: nat)
    requires i < |members|
    ensures HasDeployment(members[..i + 1]) <==>
            HasDeployment(members[..i]) || (members[i].Leaf? && members[i].name == DEPLOYMENT)
  {
    var now, before := members[..i + 1], members[..i];
    if HasDeployment(before) {
      var k :| 0 <= k < |before| && before[k].Leaf? && before[k].name == DEPLOYMENT;
      assert now[k] == before[k];
    }
    if members[i].Leaf? && members[i].name == DEPLOYMENT { assert now[i] == members[i]; }
    if HasDeployment(now) {
      var k :| 0 <= k < |now| && now[k].Leaf? && now[k].name == DEPLOYMENT;
      if k < i { assert before[k] == now[k]; }
    }
  }

  // ----- the tree --------------------------------------------------------------------------------

  /** Every struct of the tree expands. */
  predicate Compiles(s: Struct) {
    && Expanded(s).Ok?
    && forall m | m in s.members :: m.Nested? ==> Compiles(m.inner)
  }

  /** Rust gives the fields of a struct distinct names; here they are also plain words for the
      spellings. */
  predicate Named(s: Struct) {
    && (forall i, j | 0 <= i < j < |s.members| :: s.members[i].name != s.members[j].name)
    && (forall m | m in s.members :: Ident(m.name) && m.name != "" && (m.Nested? ==> Named(m.inner)))
  }

  function Child(prefix: Path, name: string): Path { prefix + [name] }

  function FieldOf(e: Emission, prefix: Path): Field
    requires e.Register?
  {
    Field(Child(prefix, e.name), e.presence, e.rule, e.secret, e.kind, e.env)
  }

  /** What a member registers under a prefix: its own leaf, or the inner struct's leaves one level
      down. */
  function Registered(root: bool, m: Member, prefix: Path): seq<Field>
    decreases m, 0
  {
    match m
    case Nested(name, _, inner) => Schema(inner.app.Some?, inner.members, Child(prefix, name))
    case Leaf(_, _, _) =>
      match Emit(root, m)
      case Err(_) => []
      case Ok(e) => [FieldOf(e, prefix)]
  }

  function Schema(root: bool, members: seq<Member>, prefix: Path): seq<Field>
    decreases members, 1
  {
    if members == [] then [] else Registered(root, members[0], prefix) + Schema(root, members[1..], prefix)
  }

  function SchemaOf(s: Struct, prefix: Path): seq<Field> { Schema(s.app.Some?, s.members, prefix) }

  predicate Under(prefix: Path, path: Path) { |prefix| < |path| && path[..|prefix|] == prefix }

  lemma {:induction false} PathsUnder(root: bool, members: seq<Member>, prefix: Path)
    ensures forall f | f in Schema(root, members, prefix) ::
              Under(prefix, f.path) && exists m :: m in members && m.name == f.path[|prefix|]
    decreases members, 1
  {
    if members != [] {
      var first, rest := members[0], members[1..];
      PathsUnder(root, rest, prefix);
      OwnUnder(root, first, prefix);
      forall f | f in Schema(root, members, prefix)
        ensures Under(prefix, f.path) && exists m :: m in members && m.name == f.path[|prefix|]
      {
        assert members == [first] + rest && first in members;
        if f in Schema(root, rest, prefix) {
          var m :| m in rest && m.name == f.path[|prefix|];
          assert m in members;
        }
      }
    }
  }

  lemma {:induction false} OwnUnder(root: bool, m: Member, prefix: Path)
    ensures forall f | f in Registered(root, m, prefix) :: Under(prefix, f.path) && f.path[|prefix|] == m.name
    decreases m, 0
  {
    if m.Nested? {
      var inner := Child(prefix, m.name);
      PathsUnder(m.inner.app.Some?, m.inner.members, inner);
      forall f | f in Registered(root, m, prefix) ensures Under(prefix, f.path) && f.path[|prefix|] == m.name {
        assert Under(inner, f.path);
        assert f.path[|prefix|] == f.path[..|inner|][|prefix|] == m.name;
        assert f.path[..|prefix|] == f.path[..|inner|][..|prefix|] == prefix;
      }
    }
  }

  /** The two halves of a struct's schema share no path: their next segments are different names. */
  lemma DistinctAppend(a: seq<Field>, b: seq<Field>, at: nat)
    requires DistinctPaths(a) && DistinctPaths(b)
    requires forall f | f in a :: at < |f.path|
    requires forall f | f in b :: at < |f.path|
    requires forall f, g | f in a && g in b :: f.path[at] != g.path[at]
    ensures DistinctPaths(a + b)
  {
    var all := a + b;
    forall i, j | 0 <= i < j < |all| ensures all[i].path != all[j].path {
      if j < |a| {
        assert all[i] == a[i] && all[j] == a[j];
      } else if i >= |a| {
        assert all[i] == b[i - |a|] && all[j] == b[j - |a|];
      } else {
        assert all[i] in a && all[j] in b;
      }
    }
  }

  predicate NamedMembers(members: seq<Member>) {
    && (forall i, j | 0 <= i < j < |members| :: members[i].name != members[j].name)
    && (forall m | m in members :: m.Nested? ==> Named(m.inner))
  }

  /** No two leaves of the tree are registered at one path. */
  lemma {:induction false} PathsAreDistinct(root: bool, members: seq<Member>, prefix: Path)
    requires NamedMembers(members)
    ensures DistinctPaths(Schema(root, members, prefix))
    decreases members
  {
    if members != [] {
      var first, rest := members[0], members[1..];
      assert first in members;
      assert forall i | 0 <= i < |rest| :: rest[i] == members[i + 1];
      PathsAreDistinct(root, rest, prefix);
      PathsUnder(root, rest, prefix);
      OwnUnder(root, first, prefix);
      if first.Nested? { PathsAreDistinct(first.inner.app.Some?, first.inner.members, Child(prefix, first.name)); }
      var a, b := Registered(root, first, prefix), Schema(root, rest, prefix);
      forall f, g | f in a && g in b ensures f.path[|prefix|] != g.path[|prefix|] {
        var m :| m in rest && m.name == g.path[|prefix|];
        var i :| 0 <= i < |rest| && rest[i] == m;
        assert members[0].name != members[i + 1].name;
      }
      DistinctAppend(a, b, |prefix|);
    }
  }

  /** The same for a whole struct. */
  lemma SchemaIsDistinct(s: Struct, prefix: Path)
    requires Named(s)
    ensures DistinctPaths(SchemaOf(s, prefix))
  {
    PathsAreDistinct(s.app.Some?, s.members, prefix);
  }

  /** What the class rules and the presence of an expanded leaf agree on: a prod-required leaf is
      optional, a dev-only one is optional or a flag that is off by default, and a bool is read as a
      bool. */
  lemma RulesFitPresence(root: bool, name: string, shape: Shape, attrs: Attrs)
    requires EmitLeaf(root, name, shape, attrs).Ok?
    ensures var e := EmitLeaf(root, name, shape, attrs).value;
      && (e.rule.ProdRequired? ==> e.presence.Optional?)
      && (e.rule.DevOnly? ==> e.presence.Optional? || (e.kind.Bool? && e.presence == Default("false")))
      && (e.presence.Optional? <==> shape.Opt? || shape.OptBool?)
      && (IsDeployment(root, name) ==> e.presence.Required? && e.env == Some(DEPLOYMENT_VARIABLE))
  {
  }

  predicate IsOption(shape: Shape) { shape.Opt? || shape.OptBool? }

  /** Exactly which leaves compile: a root's `deployment` takes no default, no list of accepted values and
      no class; any other is an option without default or requirement, or has one of the two, or is a bool;
      a prod-required one is an option, and a dev-only one is off or unset by default; none is both. */
  lemma LeafCompilesExactly(root: bool, name: string, shape: Shape, attrs: Attrs)
    ensures EmitLeaf(root, name, shape, attrs).Ok? <==>
            if root && name == "deployment" then
              && attrs.default.None? && attrs.accepted.None? && !IsOption(shape)
              && !attrs.prodRequired && !attrs.devOnly
            else
              && !(attrs.default.Some? && attrs.required)
              && (IsOption(shape) ==> attrs.default.None? && !attrs.required)
              && (shape.Plain? ==> attrs.default.Some? || attrs.required)
              && !(attrs.prodRequired && attrs.devOnly)
              && (attrs.prodRequired ==> IsOption(shape))
              && (attrs.devOnly ==> !shape.Plain? && !attrs.required &&
                                    (attrs.default.None? || attrs.default == Some("false")))
  {
  }

  /** What a leaf that compiles registers. */
  lemma LeafRegisters(root: bool, name: string, shape: Shape, attrs: Attrs)
    requires EmitLeaf(root, name, shape, attrs).Ok?
    ensures var e, deployment := EmitLeaf(root, name, shape, attrs).value, root && name == "deployment";
      && e.name == name && e.secret == attrs.secret && e.shape == shape
      && (e.kind.Bool? <==> shape.PlainBool? || shape.OptBool?)
      && e.env == (if deployment then Some("DEPLOYMENT_TYPE") else None)
      && (e.rule.ProdRequired? <==> attrs.prodRequired) && (e.rule.DevOnly? <==> attrs.devOnly)
      && (IsOption(shape) ==> e.presence == Optional)
      && (!IsOption(shape) && attrs.default.Some? ==> e.presence == Default(attrs.default.value))
      && (!IsOption(shape) && (attrs.required || deployment) ==> e.presence == Required)
      && (shape.PlainBool? && attrs.default.None? && !attrs.required && !deployment ==> e.presence == Default("false"))
  {
  }

  lemma {:induction false} EmitAllExactly(root: bool, members: seq<Member>)
    ensures EmitAll(root, members).Ok? <==> forall m | m in members :: Emit(root, m).Ok?
  {
    if members != [] {
      EmitAllExactly(root, members[1..]);
      assert members == [members[0]] + members[1..];
    }
  }

  /** A struct compiles exactly when each of its leaves does, its nested fields carry no key, and, for a root,
      one of its leaves is called `deployment`. */
  lemma StructCompilesExactly(s: Struct)
    ensures Expanded(s).Ok? <==>
            && (forall m | m in s.members && m.Leaf? :: EmitLeaf(s.app.Some?, m.name, m.shape, m.attrs).Ok?)
            && (forall m | m in s.members && m.Nested? :: m.attrs == Attrs(None, false, false, false, false, None))
            && (s.app.Some? ==> exists m :: m in s.members && m.Leaf? && m.name == "deployment")
  {
    EmitAllExactly(s.app.Some?, s.members);
    if exists m :: m in s.members && m.Leaf? && m.name == "deployment" {
      var m :| m in s.members && m.Leaf? && m.name == "deployment";
      var i :| 0 <= i < |s.members| && s.members[i] == m;
    }
    if HasDeployment(s.members) {
      var i :| 0 <= i < |s.members| && s.members[i].Leaf? && s.members[i].name == DEPLOYMENT;
      assert s.members[i] in s.members;
    }
  }
}
