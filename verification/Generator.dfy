/** The join of the route table with the handler table, and the client functions it plans. */
module Generator {
  import opened Wrappers
  import opened Ordering
  import opened RouteTables
  import opened Texts
  import ClientUrl
  import Splitter
  import Templates

  datatype Detail =
    | SeveralPaths
    | PathNotTaken
    | NotAField(param: string)
    | CountDiffers(carried: nat)
    | NotUsable(param: string)
    | SeveralBodies

  datatype Error =
    | HandlerWithoutRoute(fqname: string)
    | RouteWithoutHandler(verb: string, path: string, fqname: string)
    | HandlerMountedTwice(fqname: string)
    | Shape(fqname: string, detail: Detail)
    | NameClash(first: string, second: string, tsName: string)

  type Params = seq<(string, string)>

  datatype Fn = Fn(
    name: string,
    params: Params,
    url: string,
    verb: string,
    hasQuery: bool,
    hasBody: bool,
    response: Response,
    fqname: string,
    path: string)

  /** What the client file is printed from: the functions in order, and the imported types, which a
      `BTreeSet` prints in its own order. */
  datatype Client = Client(imports: set<string>, fns: seq<Fn>)

  // ----- camel case ----------------------------------------------------------------------------

  function CamelFrom(snake: string, upper: bool): string {
    if snake == "" then ""
    else if snake[0] == '_' then CamelFrom(snake[1..], true)
    else [if upper then Upper(snake[0]) else snake[0]] + CamelFrom(snake[1..], false)
  }

  method Camel(snake: string) returns (camel: string)
    ensures camel == CamelFrom(snake, false)
  {
    camel := "";
    var upper := false;
    for i := 0 to |snake|
      invariant CamelFrom(snake, false) == camel + CamelFrom(snake[i..], upper)
    {
      assert snake[i..][1..] == snake[i + 1..];
      if snake[i] == '_' {
        upper := true;
      } else if upper {
        camel := camel + [Upper(snake[i])];
        upper := false;
      } else {
        camel := camel + [snake[i]];
      }
    }
  }

  /** Lower-case words of letters and digits, each word after the first starting with a letter. */
  predicate SnakeCase(s: string) { forall i | 0 <= i < |s| :: SnakeAt(s, i) }

  predicate SnakeAt(s: string, i: nat)
    requires i < |s|
  {
    if s[i] == '_' then 0 < i < |s| - 1 && IsLower(s[i + 1]) else IsLower(s[i]) || IsDigit(s[i])
  }

  function Snake(camel: string): string {
    if camel == "" then ""
    else (if IsUpper(camel[0]) then ['_', Lower(camel[0])] else [camel[0]]) + Snake(camel[1..])
  }

  /** Camel case loses nothing of a snake-case name, so two handlers named in snake case only clash
      when their names are equal. */
  lemma {:induction false} SnakeBack(s: string)
    requires SnakeCase(s)
    ensures Snake(CamelFrom(s, false)) == s
  {
    SnakeBackFrom(s, 0);
    assert s[0..] == s;
  }

  lemma {:induction false} SnakeBackFrom(s: string, i: nat)
    requires SnakeCase(s) && i <= |s|
    ensures Snake(CamelFrom(s[i..], false)) == s[i..]
    decreases |s| - i
  {
    if i < |s| {
      var t := s[i..];
      assert SnakeAt(s, i);
      if s[i] == '_' {
        SnakeBackFrom(s, i + 2);
        assert t[1..][1..] == s[i + 2..];
        assert t == ['_', s[i + 1]] + s[i + 2..];
        assert CamelFrom(t, false) == CamelFrom(t[1..], true) == [Upper(s[i + 1])] + CamelFrom(s[i + 2..], false);
      } else {
        SnakeBackFrom(s, i + 1);
        assert t == [s[i]] + s[i + 1..];
      }
    }
  }

  // ----- planning one function -------------------------------------------------------------------

  const KEYWORDS_TO_DO: seq<string> := [
    "break", "case", "catch", "class", "const", "continue", "debugger", "default", "delete", "do"]

  const KEYWORDS_TO_IN: seq<string> := [
    "else", "enum", "export", "extends", "false", "finally", "for", "function", "if", "import", "in"]

  const KEYWORDS_TO_TRY: seq<string> := [
    "instanceof", "new", "null", "return", "super", "switch", "this", "throw", "true", "try"]

  const KEYWORDS_TO_YIELD: seq<string> := ["typeof", "var", "void", "while", "with", "yield"]

  /** Keywords of strict code, and of modules. */
  const STRICT_KEYWORDS: seq<string> := [
    "let", "static", "implements", "interface", "package", "private", "protected", "public", "await"]

  const KEYWORDS: seq<seq<string>> := [
    KEYWORDS_TO_DO, KEYWORDS_TO_IN, KEYWORDS_TO_TRY, KEYWORDS_TO_YIELD, STRICT_KEYWORDS]

  predicate Listed(name: string, lists: seq<seq<string>>)
    decreases |lists|, |name|
  {
    lists != [] && (name in lists[0] || Listed(name, lists[1..]))
  }

  predicate Keyword(name: string) { Listed(name, KEYWORDS) }

  predicate Reserved(name: string) { Keyword(name) || name == "query" || name == "body" }

  function OfKind(args: seq<Arg>, kinds: set<Kind>): seq<Arg> {
    if args == [] then []
    else (if args[0].kind in kinds then [args[0]] else []) + OfKind(args[1..], kinds)
  }

  function FieldType(fields: seq<Splitter.Field>, name: string): Option<string> {
    if fields == [] then None
    else if fields[0].name == name then Some(fields[0].tsType)
    else FieldType(fields[1..], name)
  }

  function ByField(names: seq<string>, fields: seq<Splitter.Field>): Result<Params, Detail> {
    if names == [] then Ok([])
    else
      match FieldType(fields, names[0])
      case None => Err(NotAField(names[0]))
      case Some(ts) =>
        match ByField(names[1..], fields)
        case Err(e) => Err(e)
        case Ok(rest) => Ok([(names[0], ts)] + rest)
  }

  function Zip(names: seq<string>, types: seq<string>): (params: Params)
    requires |names| == |types|
    ensures |params| == |names| && forall i | 0 <= i < |names| :: params[i] == (names[i], types[i])
  {
    seq(|names|, i requires 0 <= i < |names| => (names[i], types[i]))
  }

  function PathBindings(names: seq<string>, paths: seq<Arg>): Result<Params, Detail> {
    if |paths| > 1 then Err(SeveralPaths)
    else if paths == [] then if names == [] then Ok([]) else Err(PathNotTaken)
    else if paths[0].fields.Some? then ByField(names, paths[0].fields.value)
    else
      var types := if paths[0].positions.Some? then paths[0].positions.value else [paths[0].tsType];
      if |types| != |names| then Err(CountDiffers(|types|)) else Ok(Zip(names, types))
  }

  function Unusable(params: Params): Option<string> {
    if params == [] then None
    else if Reserved(params[0].0) then Some(params[0].0)
    else Unusable(params[1..])
  }

  function Plan(reg: Registration, h: Handler): Result<Fn, Error> {
    var queries, bodies := OfKind(h.args, {Query}), OfKind(h.args, {Body, Multipart});
    match PathBindings(reg.pathParams, OfKind(h.args, {Path}))
    case Err(e) => Err(Shape(h.fqname, e))
    case Ok(params) =>
      if Unusable(params).Some? then Err(Shape(h.fqname, NotUsable(Unusable(params).value)))
      else if |queries| > 1 || |bodies| > 1 then Err(Shape(h.fqname, SeveralBodies))
      else
        var query := if queries != [] then [("query", queries[0].tsType)] else [];
        var body := if bodies != [] then [("body", bodies[0].tsType)] else [];
        Ok(Fn(CamelFrom(h.name, false), params + query + body, ClientUrl.UrlText(reg.path), reg.verb,
              queries != [], bodies != [], h.response, h.fqname, reg.path))
  }

  method BindFields(names: seq<string>, fields: seq<Splitter.Field>) returns (r: Result<Params, Detail>)
    ensures r == ByField(names, fields)
  {
    var params: Params := [];
    OnwardNone(ByField(names, fields));
    assert names[0..] == names;
    for i := 0 to |names|
      invariant ByField(names, fields) == Onward(params, ByField(names[i..], fields))
    {
      assert names[i..][1..] == names[i + 1..];
      var ts := FieldType(fields, names[i]);
      if ts.None? { return Err(NotAField(names[i])); }
      OnwardOne(params, (names[i], ts.value), ByField(names[i + 1..], fields));
      params := params + [(names[i], ts.value)];
    }
    assert params + [] == params;
    return Ok(params);
  }

  /** The first field of a name has this type. */
  ghost predicate FirstTyped(fields: seq<Splitter.Field>, name: string, ts: string) {
    exists k | 0 <= k < |fields| ::
      && fields[k] == Splitter.Field(name, ts)
      && forall j | 0 <= j < k :: fields[j].name != name
  }

  predicate NoField(fields: seq<Splitter.Field>, name: string) {
    forall k | 0 <= k < |fields| :: fields[k].name != name
  }

  lemma {:induction false} FirstFieldType(fields: seq<Splitter.Field>, name: string)
    ensures FieldType(fields, name).None? <==> NoField(fields, name)
    ensures FieldType(fields, name).Some? ==> FirstTyped(fields, name, FieldType(fields, name).value)
  {
    if fields != [] && fields[0].name != name {
      var rest := fields[1..];
      FirstFieldType(rest, name);
      assert forall k | 1 <= k < |fields| :: fields[k] == rest[k - 1];
      assert forall k | 0 <= k < |rest| :: rest[k] == fields[k + 1];
      if FieldType(fields, name).Some? {
        var ts := FieldType(rest, name).value;
        var k :| 0 <= k < |rest| && rest[k] == Splitter.Field(name, ts) &&
                 forall j | 0 <= j < k :: rest[j].name != name;
        assert fields[k + 1] == Splitter.Field(name, ts);
      }
    } else if fields != [] {
      assert fields[0] == Splitter.Field(name, FieldType(fields, name).value);
    }
  }

  /** Every name has the type of its field; the first name without one refuses. */
  ghost predicate FieldBound(names: seq<string>, fields: seq<Splitter.Field>, r: Result<Params, Detail>) {
    match r
    case Ok(params) =>
      && |params| == |names|
      && forall i | 0 <= i < |names| :: params[i].0 == names[i] && FirstTyped(fields, names[i], params[i].1)
    case Err(e) =>
      exists i | 0 <= i < |names| ::
        e == NotAField(names[i]) && NoField(fields, names[i]) && forall j | 0 <= j < i :: !NoField(fields, names[j])
  }

  lemma {:induction false} ByFieldBinds(names: seq<string>, fields: seq<Splitter.Field>)
    ensures FieldBound(names, fields, ByField(names, fields))
  {
    if names != [] {
      var rest := names[1..];
      FirstFieldType(fields, names[0]);
      ByFieldBinds(rest, fields);
      assert forall i | 1 <= i < |names| :: names[i] == rest[i - 1];
      if FieldType(fields, names[0]).None? {
        assert NoField(fields, names[0]);
      } else if ByField(rest, fields).Err? {
        var e := ByField(rest, fields).error;
        var i :| 0 <= i < |rest| && e == NotAField(rest[i]) && NoField(fields, rest[i]) &&
                 forall j | 0 <= j < i :: !NoField(fields, rest[j]);
        assert names[i + 1] == rest[i];
      }
    }
  }

  method BindPath(names: seq<string>, paths: seq<Arg>) returns (r: Result<Params, Detail>)
    ensures r == PathBindings(names, paths)
    ensures |paths| > 1 ==> r == Err(SeveralPaths)
    ensures paths == [] ==> r == if names == [] then Ok([]) else Err(PathNotTaken)
    ensures |paths| == 1 && paths[0].fields.Some? ==> FieldBound(names, paths[0].fields.value, r)
    ensures |paths| == 1 && paths[0].fields.None? && paths[0].positions.Some? ==>
              var types := paths[0].positions.value;
              if |types| != |names| then r == Err(CountDiffers(|types|))
              else r.Ok? && |r.value| == |names| && forall i | 0 <= i < |names| :: r.value[i] == (names[i], types[i])
    ensures |paths| == 1 && paths[0].fields.None? && paths[0].positions.None? ==>
              r == if |names| == 1 then Ok([(names[0], paths[0].tsType)]) else Err(CountDiffers(1))
  {
    if |paths| > 1 { return Err(SeveralPaths); }
    if paths == [] {
      if names != [] { return Err(PathNotTaken); }
      return Ok([]);
    }
    if paths[0].fields.Some? {
      r := BindFields(names, paths[0].fields.value);
      ByFieldBinds(names, paths[0].fields.value);
      return;
    }
    var types := if paths[0].positions.Some? then paths[0].positions.value else [paths[0].tsType];
    if |types| != |names| { return Err(CountDiffers(|types|)); }
    var params: Params := [];
    for i := 0 to |types|
      invariant params == Zip(names, types)[..i]
    {
      params := params + [(names[i], types[i])];
    }
    assert Zip(names, types)[..|types|] == Zip(names, types);
    if |types| == 1 { assert params == [(names[0], types[0])]; }
    return Ok(params);
  }

  method PlanFn(reg: Registration, h: Handler) returns (r: Result<Fn, Error>)
    ensures r == Plan(reg, h)
  {
    var binding := BindPath(reg.pathParams, OfKind(h.args, {Path}));
    if binding.Err? { return Err(Shape(h.fqname, binding.error)); }
    var params := binding.value;
    for i := 0 to |params|
      invariant Unusable(params) == Unusable(params[i..])
    {
      assert params[i..][1..] == params[i + 1..];
      if Reserved(params[i].0) { return Err(Shape(h.fqname, NotUsable(params[i].0))); }
    }
    var queries, bodies := OfKind(h.args, {Query}), OfKind(h.args, {Body, Multipart});
    if |queries| > 1 || |bodies| > 1 { return Err(Shape(h.fqname, SeveralBodies)); }
    ghost var bound := params;
    if queries != [] { params := params + [("query", queries[0].tsType)]; }
    if bodies != [] { params := params + [("body", bodies[0].tsType)]; }
    assert bound + [] == bound && params + [] == params;
    var url := ClientUrl.EmitUrl(reg.path);
    var name := Camel(h.name);
    return Ok(Fn(name, params, url, reg.verb, queries != [], bodies != [], h.response, h.fqname, reg.path));
  }

  lemma {:induction false} ByFieldNames(names: seq<string>, fields: seq<Splitter.Field>)
    requires ByField(names, fields).Ok?
    ensures Templates.NamesOf(ByField(names, fields).value) == names
    ensures forall p | p in ByField(names, fields).value :: Splitter.Field(p.0, p.1) in fields
  {
    if names != [] {
      ByFieldNames(names[1..], fields);
      FieldTypeIn(fields, names[0]);
      assert names == [names[0]] + names[1..];
    }
  }

  lemma {:induction false} FieldTypeIn(fields: seq<Splitter.Field>, name: string)
    requires FieldType(fields, name).Some?
    ensures Splitter.Field(name, FieldType(fields, name).value) in fields
  {
    if fields[0].name != name { FieldTypeIn(fields[1..], name); }
  }

  lemma {:induction false} NoneUnusable(params: Params)
    ensures Unusable(params).None? <==> forall i | 0 <= i < |params| :: !Reserved(params[i].0)
  {
    if params != [] {
      NoneUnusable(params[1..]);
      assert forall i | 1 <= i < |params| :: params[i] == params[1..][i - 1];
    }
  }

  function Extra(f: Fn): seq<string> {
    (if f.hasQuery then ["query"] else []) + (if f.hasBody then ["body"] else [])
  }

  lemma PathBindingsNames(names: seq<string>, paths: seq<Arg>)
    requires PathBindings(names, paths).Ok?
    ensures Templates.NamesOf(PathBindings(names, paths).value) == names
  {
    if paths != [] && paths[0].fields.Some? { ByFieldNames(names, paths[0].fields.value); }
  }

  /** A planned function takes exactly the route's path parameters, in template order, then the query
      and the body it has, and no path parameter can be taken for either. */
  lemma PlanBindsTheRoute(reg: Registration, h: Handler)
    requires Plan(reg, h).Ok?
    ensures Templates.NamesOf(Plan(reg, h).value.params) == reg.pathParams + Extra(Plan(reg, h).value)
    ensures forall name | name in reg.pathParams :: !Reserved(name)
  {
    var paths := OfKind(h.args, {Path});
    var params := PathBindings(reg.pathParams, paths).value;
    PathBindingsNames(reg.pathParams, paths);
    NoneUnusable(params);
    var queries, bodies := OfKind(h.args, {Query}), OfKind(h.args, {Body, Multipart});
    var query: Params := if queries != [] then [("query", queries[0].tsType)] else [];
    var body: Params := if bodies != [] then [("body", bodies[0].tsType)] else [];
    Templates.NamesAppend(params + query, body);
    Templates.NamesAppend(params, query);
    assert Templates.NamesOf(query) == if queries != [] then ["query"] else [];
    assert Templates.NamesOf(body) == if bodies != [] then ["body"] else [];
    var own, more, most := Templates.NamesOf(params), Templates.NamesOf(query), Templates.NamesOf(body);
    assert own + more + most == own + (more + most);
  }

  predicate OfBody(kind: Kind) { kind.Body? || kind.Multipart? }

  lemma {:induction false} OfKindIs(args: seq<Arg>, kinds: set<Kind>)
    ensures forall a :: a in OfKind(args, kinds) <==> a in args && a.kind in kinds
    ensures |OfKind(args, kinds)| <= 1 <==>
            forall i, j | 0 <= i < j < |args| :: !(args[i].kind in kinds && args[j].kind in kinds)
  {
    if args != [] {
      var first, rest := args[0], args[1..];
      OfKindIs(rest, kinds);
      assert args == [first] + rest;
      assert forall i | 1 <= i < |args| :: args[i] == rest[i - 1];
      assert forall i | 0 <= i < |rest| :: rest[i] == args[i + 1];
      if OfKind(rest, kinds) != [] {
        assert OfKind(rest, kinds)[0] in OfKind(rest, kinds);
        var k :| 0 <= k < |rest| && rest[k] == OfKind(rest, kinds)[0];
        assert args[k + 1].kind in kinds;
      }
    }
  }

  /** No two arguments of these kinds. */
  predicate AtMostOne(args: seq<Arg>, kinds: set<Kind>) {
    forall i, j | 0 <= i < j < |args| :: !(args[i].kind in kinds && args[j].kind in kinds)
  }

  lemma OneOfKind(args: seq<Arg>, kinds: set<Kind>)
    requires AtMostOne(args, kinds)
    ensures |OfKind(args, kinds)| <= 1
    ensures forall a | a in args && a.kind in kinds :: OfKind(args, kinds) == [a]
    ensures OfKind(args, kinds) == [] <==> forall a | a in args :: a.kind !in kinds
  {
    OfKindIs(args, kinds);
    forall a | a in args && a.kind in kinds ensures OfKind(args, kinds) == [a] {
      assert a in OfKind(args, kinds);
    }
    if OfKind(args, kinds) != [] { assert OfKind(args, kinds)[0] in OfKind(args, kinds); }
  }

  /** What the path extractor gives the i-th parameter. */
  ghost predicate PathTyped(arg: Arg, names: seq<string>, i: nat, ts: string)
    requires i < |names|
  {
    match (arg.fields, arg.positions)
    case (Some(fields), _) => FirstTyped(fields, names[i], ts)
    case (None, Some(types)) => |types| == |names| && ts == types[i]
    case (None, None) => |names| == 1 && ts == arg.tsType
  }

  /** The path extractor, if any, can give every parameter of the route its type. */
  ghost predicate PathFits(arg: Arg, names: seq<string>) {
    match (arg.fields, arg.positions)
    case (Some(fields), _) => forall i | 0 <= i < |names| :: !NoField(fields, names[i])
    case (None, Some(types)) => |types| == |names|
    case (None, None) => |names| == 1
  }

  lemma PathBindingsTyped(names: seq<string>, arg: Arg)
    ensures PathBindings(names, [arg]).Ok? <==> PathFits(arg, names)
    ensures PathBindings(names, [arg]).Ok? ==>
              var params := PathBindings(names, [arg]).value;
              && |params| == |names|
              && forall i | 0 <= i < |names| :: params[i].0 == names[i] && PathTyped(arg, names, i, params[i].1)
  {
    if arg.fields.Some? {
      ByFieldBinds(names, arg.fields.value);
    }
  }

  /** A function can be planned exactly when no kind of extractor is there twice, the path extractor is
      there if the route has parameters and fits them, and no parameter is a reserved word. */
  lemma {:induction false} PlannableExactly(reg: Registration, h: Handler)
    ensures Plan(reg, h).Ok? <==>
            && AtMostOne(h.args, {Path}) && AtMostOne(h.args, {Query}) && AtMostOne(h.args, {Body, Multipart})
            && (forall a | a in h.args && a.kind.Path? :: PathFits(a, reg.pathParams))
            && ((forall a | a in h.args :: !a.kind.Path?) ==> reg.pathParams == [])
            && (forall name | name in reg.pathParams :: !Reserved(name))
  {
    OfKindIs(h.args, {Path});
    OfKindIs(h.args, {Query});
    OfKindIs(h.args, {Body, Multipart});
    if AtMostOne(h.args, {Path}) {
      OneOfKind(h.args, {Path});
      BindingsAreUsable(reg.pathParams, OfKind(h.args, {Path}));
      if h.args != [] && OfKind(h.args, {Path}) != [] {
        var a := OfKind(h.args, {Path})[0];
        assert a in OfKind(h.args, {Path});
        PathBindingsTyped(reg.pathParams, a);
      }
    }
  }

  lemma BindingsAreUsable(names: seq<string>, paths: seq<Arg>)
    requires |paths| <= 1
    ensures PathBindings(names, paths).Ok? ==>
              (Unusable(PathBindings(names, paths).value).None? <==> forall name | name in names :: !Reserved(name))
  {
    if PathBindings(names, paths).Ok? {
      var params := PathBindings(names, paths).value;
      PathBindingsNames(names, paths);
      NoneUnusable(params);
      assert |Templates.NamesOf(params)| == |params| == |names|;
      forall i | 0 <= i < |params| ensures params[i].0 == names[i] { assert Templates.NamesOf(params)[i] == names[i]; }
    }
  }

  /** What a refused plan says holds of the route and the handler. */
  ghost predicate Misfit(reg: Registration, h: Handler, detail: Detail) {
    match detail
    case SeveralPaths => !AtMostOne(h.args, {Path})
    case PathNotTaken => reg.pathParams != [] && forall a | a in h.args :: !a.kind.Path?
    case NotAField(param) =>
      param in reg.pathParams &&
      exists a :: a in h.args && a.kind.Path? && a.fields.Some? && NoField(a.fields.value, param)
    case CountDiffers(carried) =>
      carried != |reg.pathParams| &&
      exists a :: a in h.args && a.kind.Path? && a.fields.None? &&
                  carried == if a.positions.Some? then |a.positions.value| else 1
    case NotUsable(param) => param in reg.pathParams && Reserved(param)
    case SeveralBodies => !AtMostOne(h.args, {Query}) || !AtMostOne(h.args, {Body, Multipart})
  }

  lemma BindingMisfit(names: seq<string>, arg: Arg)
    requires PathBindings(names, [arg]).Err?
    ensures match PathBindings(names, [arg]).error
            case NotAField(param) => param in names && arg.fields.Some? && NoField(arg.fields.value, param)
            case CountDiffers(carried) =>
              carried != |names| && arg.fields.None? &&
              carried == if arg.positions.Some? then |arg.positions.value| else 1
            case _ => false
  {
    if arg.fields.Some? {
      ByFieldBinds(names, arg.fields.value);
    }
  }

  lemma {:induction false} UnusableIs(params: Params)
    requires Unusable(params).Some?
    ensures Unusable(params).value in Templates.NamesOf(params) && Reserved(Unusable(params).value)
  {
    if !Reserved(params[0].0) {
      UnusableIs(params[1..]);
      assert Templates.NamesOf(params)[1..] == Templates.NamesOf(params[1..]);
    } else {
      assert Templates.NamesOf(params)[0] == params[0].0;
    }
  }

  /** A refused plan names the handler and what does not fit. */
  lemma {:induction false} ShapeErrorsMean(reg: Registration, h: Handler)
    requires Plan(reg, h).Err?
    ensures Plan(reg, h).error.Shape? && Plan(reg, h).error.fqname == h.fqname
    ensures Misfit(reg, h, Plan(reg, h).error.detail)
  {
    var paths := OfKind(h.args, {Path});
    OfKindIs(h.args, {Path});
    OfKindIs(h.args, {Query});
    OfKindIs(h.args, {Body, Multipart});
    var bound := PathBindings(reg.pathParams, paths);
    if bound.Err? {
      if |paths| == 1 {
        assert paths == [paths[0]] && paths[0] in paths;
        BindingMisfit(reg.pathParams, paths[0]);
      } else if paths == [] {
        forall a | a in h.args ensures !a.kind.Path? { assert a !in paths; }
      }
    } else if Unusable(bound.value).Some? {
      UnusableIs(bound.value);
      PathBindingsNames(reg.pathParams, paths);
    }
  }

  /** A planned function's signature, pair by pair: the route's parameters with the types that the path
      extractor carries for them, then the query and the body, each with its own extractor's type. */
  lemma {:induction false} PlanTypesTheRoute(reg: Registration, h: Handler)
    requires Plan(reg, h).Ok?
    ensures var f, n := Plan(reg, h).value, |reg.pathParams|;
      && |f.params| == n + (if f.hasQuery then 1 else 0) + (if f.hasBody then 1 else 0)
      && (forall i, a | 0 <= i < n && a in h.args && a.kind.Path? ::
            f.params[i].0 == reg.pathParams[i] && PathTyped(a, reg.pathParams, i, f.params[i].1))
      && (f.hasQuery <==> exists a | a in h.args :: a.kind.Query?)
      && (forall a | a in h.args && a.kind.Query? :: f.params[n] == ("query", a.tsType))
      && (f.hasBody <==> exists a | a in h.args :: OfBody(a.kind))
      && (forall a | a in h.args && OfBody(a.kind) :: f.params[|f.params| - 1] == ("body", a.tsType))
    ensures var f := Plan(reg, h).value;
      f.verb == reg.verb && f.path == reg.path && f.fqname == h.fqname && f.response == h.response
  {
    PlannableExactly(reg, h);
    OneOfKind(h.args, {Path});
    OneOfKind(h.args, {Query});
    OneOfKind(h.args, {Body, Multipart});
    forall a | a in h.args && a.kind.Path? ensures OfKind(h.args, {Path}) == [a] {
      PathBindingsTyped(reg.pathParams, a);
    }
    PathBindingsNames(reg.pathParams, OfKind(h.args, {Path}));
    PathBound(reg, h);
  }

  lemma PathBound(reg: Registration, h: Handler)
    requires Plan(reg, h).Ok?
    ensures var params := PathBindings(reg.pathParams, OfKind(h.args, {Path})).value;
      |params| == |reg.pathParams| && Plan(reg, h).value.params[..|params|] == params
    ensures forall a | OfKind(h.args, {Path}) == [a] :: forall i | 0 <= i < |reg.pathParams| ::
              && Plan(reg, h).value.params[i].0 == reg.pathParams[i]
              && PathTyped(a, reg.pathParams, i, Plan(reg, h).value.params[i].1)
  {
    var params := PathBindings(reg.pathParams, OfKind(h.args, {Path})).value;
    PathBindingsNames(reg.pathParams, OfKind(h.args, {Path}));
    assert |Templates.NamesOf(params)| == |params|;
    assert Plan(reg, h).value.params[..|params|] == params;
    forall a, i | OfKind(h.args, {Path}) == [a] && 0 <= i < |reg.pathParams|
      ensures Plan(reg, h).value.params[i].0 == reg.pathParams[i]
      ensures PathTyped(a, reg.pathParams, i, Plan(reg, h).value.params[i].1)
    {
      PathBindingsTyped(reg.pathParams, a);
      assert Plan(reg, h).value.params[..|params|][i] == params[i];
    }
  }

  lemma QueryAndBodyAreReserved()
    ensures Reserved("query") && Reserved("body") && "query" != "body"
  {
  }

  predicate AllDistinct(names: seq<string>) { forall i, j | 0 <= i < j < |names| :: names[i] != names[j] }

  /** The signature has no name twice exactly when the route's template has none. */
  lemma SignatureDistinctExactly(reg: Registration, h: Handler)
    requires Plan(reg, h).Ok?
    ensures AllDistinct(Templates.NamesOf(Plan(reg, h).value.params)) <==> AllDistinct(reg.pathParams)
  {
    PlanBindsTheRoute(reg, h);
    QueryAndBodyAreReserved();
    DistinctBehind(reg.pathParams, Extra(Plan(reg, h).value));
  }

  lemma DistinctBehind(own: seq<string>, extra: seq<string>)
    requires AllDistinct(extra) && forall i, j | 0 <= i < |own| && 0 <= j < |extra| :: own[i] != extra[j]
    ensures AllDistinct(own + extra) <==> AllDistinct(own)
  {
    var names := own + extra;
    if AllDistinct(names) {
      forall i, j | 0 <= i < j < |own| ensures own[i] != own[j] { assert names[i] != names[j]; }
    }
  }

  /** What a name denotes inside a generated function, whose parameters hide the module's names. */
  datatype Denotation = Parameter | Encoder | Transport | Elsewhere

  const TRANSPORT: string := "call"

  function Denotes(f: Fn, name: string): Denotation {
    if name in Templates.NamesOf(f.params) then Parameter
    else if name == ClientUrl.ENC then Encoder
    else if name == TRANSPORT then Transport
    else Elsewhere
  }

  lemma ModuleNamesAreOthers()
    ensures forall name | name in [ClientUrl.ENC, TRANSPORT] :: name != "query" && name != "body"
    ensures ClientUrl.ENC != TRANSPORT
  {
  }

  /** With the parameters the router records, every name the URL fills in is a parameter of the
      function, unless the template has a stray segment; and in the function the encoder and the
      transport are themselves exactly when no path parameter has their name. */
  lemma UrlIsClosed(reg: Registration, h: Handler)
    requires Plan(reg, h).Ok? && reg.pathParams == Templates.PathParams(reg.path)
    requires forall seg | seg in Split(reg.path, '/') :: !Templates.Stray(seg)
    ensures forall name | name in Templates.Placeholders(reg.path) :: Denotes(Plan(reg, h).value, name).Parameter?
    ensures Denotes(Plan(reg, h).value, ClientUrl.ENC).Encoder? <==> ClientUrl.ENC !in reg.pathParams
    ensures Denotes(Plan(reg, h).value, TRANSPORT).Transport? <==> TRANSPORT !in reg.pathParams
  {
    PlanBindsTheRoute(reg, h);
    Templates.PlaceholdersAreParamsExactly(reg.path);
    ModuleNamesAreOthers();
  }

  lemma {:induction false} ParamIsNamed(segs: seq<string>, seg: string)
    requires seg in segs && Templates.Param(seg).Some?
    ensures Templates.Param(seg).value in Templates.FilterMap(Templates.Param, segs)
  {
    if segs[0] != seg {
      assert segs == [segs[0]] + segs[1..];
      ParamIsNamed(segs[1..], seg);
    }
  }

  /** The URL of a planned function, evaluated with the function's own arguments and read through its
      route, gives the path arguments back exactly when the route is invertible; for one with a
      parameter called `enc`, which is planned like any other, there is no URL at all. */
  lemma {:induction false} PlannedUrlInvertsRoute(reg: Registration, h: Handler, args: ClientUrl.Args)
    requires Plan(reg, h).Ok? && reg.pathParams == Templates.PathParams(reg.path)
    requires forall seg | seg in Split(reg.path, '/') :: ClientUrl.Sound(seg)
    requires forall name :: name in args <==> name in Templates.NamesOf(Plan(reg, h).value.params)
    ensures var url := ClientUrl.Evaluate(Plan(reg, h).value.url, args);
      url.Some? && ClientUrl.ReadBack(reg.path, url.value) == Some(ClientUrl.Values(reg.pathParams, args))
      <==> ClientUrl.Invertible(reg.path)
  {
    var segs := Split(reg.path, '/');
    PlanBindsTheRoute(reg, h);
    ModuleNamesAreOthers();
    forall i | 0 <= i < |segs| ensures Templates.Param(segs[i]).Some? ==> Templates.Param(segs[i]).value in args {
      assert segs[i] in segs;
      if Templates.Param(segs[i]).Some? { ParamIsNamed(segs, segs[i]); }
    }
    ClientUrl.UrlInvertsRoute(reg.path, args);
  }

  // ----- what the functions may be called ----------------------------------------------------------

  /** The words a module cannot give a function: the keywords, the two names that strict code does not
      bind, the encoder, and the imported transport. */
  predicate Taken(name: string) {
    Keyword(name) || name == "arguments" || name == "eval" || name == ClientUrl.ENC || name == TRANSPORT
  }

  predicate NameChar(c: char) { IsWord(c) || c == '$' }

  predicate NameChars(s: string) { forall i | 0 <= i < |s| :: NameChar(s[i]) }

  predicate Identifier(s: string) { s != "" && !IsDigit(s[0]) && NameChars(s) }

  /** A name that `export function` can declare in the client's module. */
  predicate Declarable(name: string) { Identifier(name) && !Taken(name) }

  /** A name without the underscores it starts with. */
  function Inked(name: string): string { TrimStartOf(name, '_') }

  /** What can be checked of a handler before its name is turned into camel case: of identifier
      characters, no digit behind its leading underscores, and, for a function that gets no `Url`
      behind its name, not of underscores alone and not a taken word with or without underscores
      behind it. */
  predicate Nameable(h: Handler) {
    && NameChars(h.name)
    && (Inked(h.name) != "" ==> !IsDigit(Inked(h.name)[0]))
    && (h.response.Link? || (Inked(h.name) != "" && !Taken(TrimEndOf(h.name, '_'))))
  }

  predicate LowerWord(s: string) { s != "" && forall i | 0 <= i < |s| :: IsLower(s[i]) }

  lemma {:induction false} ListedIn(name: string, lists: seq<seq<string>>) returns (i: nat)
    requires Listed(name, lists)
    ensures i < |lists| && name in lists[i]
    decreases |lists|
  {
    i := 0;
    if name !in lists[0] {
      i := ListedIn(name, lists[1..]);
      i := i + 1;
    }
  }

  lemma {:induction false} InListed(name: string, lists: seq<seq<string>>, i: nat)
    requires i < |lists| && name in lists[i]
    ensures Listed(name, lists)
    decreases |lists|
  {
    if i > 0 { InListed(name, lists[1..], i - 1); }
  }

  lemma FirstKeywordsAreLower(w: string)
    requires w in KEYWORDS_TO_DO || w in KEYWORDS_TO_IN
    ensures LowerWord(w)
  {
  }

  lemma LaterKeywordsAreLower(w: string)
    requires w in KEYWORDS_TO_TRY || w in KEYWORDS_TO_YIELD
    ensures LowerWord(w)
  {
  }

  lemma StrictKeywordsAreLower(w: string)
    requires w in STRICT_KEYWORDS
    ensures LowerWord(w)
  {
  }

  lemma OwnNamesAreLower()
    ensures LowerWord("arguments") && LowerWord("eval") && LowerWord(ClientUrl.ENC) && LowerWord(TRANSPORT)
  {
  }

  lemma TakenAreLower(w: string)
    requires Taken(w)
    ensures LowerWord(w)
  {
    if Keyword(w) {
      var i := ListedIn(w, KEYWORDS);
      if i < 2 {
        FirstKeywordsAreLower(w);
      } else if i < 4 {
        LaterKeywordsAreLower(w);
      } else {
        StrictKeywordsAreLower(w);
      }
    } else {
      OwnNamesAreLower();
    }
  }

  lemma NameCharsCons(c: char, s: string)
    ensures NameChars([c] + s) <==> NameChar(c) && NameChars(s)
  {
    var all := [c] + s;
    assert all[0] == c && forall i | 0 <= i < |s| :: all[i + 1] == s[i];
    assert forall i | 1 <= i < |all| :: all[i] == s[i - 1];
  }

  lemma {:induction false} CamelChars(s: string, upper: bool)
    ensures NameChars(CamelFrom(s, upper)) <==> NameChars(s)
    decreases |s|
  {
    if s != "" {
      assert s == [s[0]] + s[1..];
      NameCharsCons(s[0], s[1..]);
      if s[0] == '_' {
        CamelChars(s[1..], true);
      } else {
        CamelChars(s[1..], false);
        NameCharsCons(if upper then Upper(s[0]) else s[0], CamelFrom(s[1..], false));
      }
    }
  }

  /** Camel case starts where the leading underscores end. */
  lemma {:induction false} CamelStarts(s: string, upper: bool)
    ensures CamelFrom(s, upper) == "" <==> Inked(s) == ""
    ensures Inked(s) != "" ==> (IsDigit(CamelFrom(s, upper)[0]) <==> IsDigit(Inked(s)[0]))
    decreases |s|
  {
    if s != "" && s[0] == '_' { CamelStarts(s[1..], true); }
  }

  lemma {:induction false} UnderscoresVanish(s: string, upper: bool)
    ensures CamelFrom(s, upper) == "" <==> TrimEndOf(s, '_') == ""
    decreases |s|
  {
    CamelStarts(s, upper);
    AllUnderscores(s);
  }

  lemma {:induction false} AllUnderscores(s: string)
    ensures Inked(s) == "" <==> forall i | 0 <= i < |s| :: s[i] == '_'
    ensures TrimEndOf(s, '_') == "" <==> forall i | 0 <= i < |s| :: s[i] == '_'
    decreases |s|
  {
    InkedBlank(s);
    TrimmedBlank(s);
  }

  lemma {:induction false} InkedBlank(s: string)
    ensures Inked(s) == "" <==> forall i | 0 <= i < |s| :: s[i] == '_'
  {
    if s != "" {
      InkedBlank(s[1..]);
      assert forall i | 1 <= i < |s| :: s[i] == s[1..][i - 1];
      assert forall i | 0 <= i < |s| - 1 :: s[1..][i] == s[i + 1];
    }
  }

  lemma {:induction false} TrimmedBlank(s: string)
    ensures TrimEndOf(s, '_') == "" <==> forall i | 0 <= i < |s| :: s[i] == '_'
    decreases |s|
  {
    if s != "" {
      TrimmedBlank(s[..|s| - 1]);
      assert forall i | 0 <= i < |s| - 1 :: s[i] == s[..|s| - 1][i];
    }
  }

  /** Trailing underscores aside, what starts with no underscore is trimmed behind its first character. */
  lemma {:induction false} TrimEndCons(s: string)
    requires s != "" && s[0] != '_'
    ensures TrimEndOf(s, '_') == [s[0]] + TrimEndOf(s[1..], '_')
    decreases |s|
  {
    if |s| > 1 && s[|s| - 1] == '_' {
      TrimEndCons(s[..|s| - 1]);
      assert s[..|s| - 1][1..] == s[1..][..|s| - 2];
    } else {
      assert s == [s[0]] + s[1..];
    }
  }

  /** A lower-case word is the camel case of itself, with whatever underscores behind it, and of
      nothing else: any other underscore leaves an upper-case letter, or a digit. */
  lemma {:induction false} CamelIsWordExactly(s: string, word: string)
    requires LowerWord(word)
    ensures CamelFrom(s, false) == word <==> TrimEndOf(s, '_') == word
    decreases |s|
  {
    if s == "" {
    } else if s[0] == '_' {
      UnderscoreFirst(s, word);
    } else {
      TrimEndCons(s);
      var rest := word[1..];
      assert word == [word[0]] + rest;
      assert CamelFrom(s, false) == [s[0]] + CamelFrom(s[1..], false);
      if rest == "" {
        UnderscoresVanish(s[1..], false);
      } else {
        assert forall i | 0 <= i < |rest| :: rest[i] == word[i + 1];
        CamelIsWordExactly(s[1..], rest);
      }
      SameTails(s[0], CamelFrom(s[1..], false), word);
      SameTails(s[0], TrimEndOf(s[1..], '_'), word);
    }
  }

  lemma SameTails(c: char, tail: string, word: string)
    requires word != ""
    ensures [c] + tail == word <==> c == word[0] && tail == word[1..]
  {
    assert ([c] + tail)[1..] == tail && word == [word[0]] + word[1..];
  }

  lemma UnderscoreFirst(s: string, word: string)
    requires s != "" && s[0] == '_' && LowerWord(word)
    ensures CamelFrom(s, false) != word && TrimEndOf(s, '_') != word
  {
    UpperFirst(s[1..]);
    TrimEndIsPrefix(s);
  }

  lemma {:induction false} UpperFirst(s: string)
    ensures CamelFrom(s, true) == "" || !IsLower(CamelFrom(s, true)[0])
  {
    if s != "" && s[0] == '_' { UpperFirst(s[1..]); }
  }

  lemma {:induction false} TrimEndIsPrefix(s: string)
    ensures TrimEndOf(s, '_') <= s
    decreases |s|
  {
    if s != "" { TrimEndIsPrefix(s[..|s| - 1]); }
  }

  lemma WithUrl(name: string)
    ensures !Taken(name + "Url")
    ensures Identifier(name + "Url") <==> NameChars(name) && (name != "" ==> !IsDigit(name[0]))
  {
    var long := name + "Url";
    assert long[|name|] == 'U' && long[|name| + 1] == 'r' && long[|name| + 2] == 'l';
    assert forall i | 0 <= i < |name| :: long[i] == name[i];
    if Taken(long) { TakenAreLower(long); }
  }

  /** A function can be declared exactly when its handler can be named. */
  lemma {:induction false} DeclarableByName(h: Handler)
    ensures Declarable(TsKeyOf(h)[0]) <==> Nameable(h)
  {
    var camel := CamelFrom(h.name, false);
    CamelChars(h.name, false);
    CamelStarts(h.name, false);
    if h.response.Link? {
      WithUrl(camel);
    } else {
      TakenExactly(h.name);
    }
  }

  lemma TakenExactly(name: string)
    ensures Taken(CamelFrom(name, false)) <==> Taken(TrimEndOf(name, '_'))
  {
    var camel, trimmed := CamelFrom(name, false), TrimEndOf(name, '_');
    if Taken(camel) {
      TakenAreLower(camel);
      CamelIsWordExactly(name, camel);
    }
    if Taken(trimmed) {
      TakenAreLower(trimmed);
      CamelIsWordExactly(name, trimmed);
    }
  }

  /** A name in snake case, as Rust has it, stands as it is unless it is a taken word itself. */
  lemma {:induction false} SnakeNameIsDeclarableExactly(h: Handler)
    requires SnakeCase(h.name) && Templates.IsName(h.name)
    ensures Declarable(TsKeyOf(h)[0]) <==> h.response.Link? || !Taken(h.name)
  {
    DeclarableByName(h);
    assert SnakeAt(h.name, 0) && SnakeAt(h.name, |h.name| - 1);
    assert Inked(h.name) == h.name == TrimEndOf(h.name, '_');
  }

  // ----- the types a client imports --------------------------------------------------------------

  const BUILTIN: set<string> := {"Array", "Record", "Partial", "Map", "Set", "Promise", "Date"}

  predicate Imported(word: string) { word != "" && IsUpper(word[0]) && word !in BUILTIN }

  /** A maximal run of word characters. */
  predicate Run(ts: string, i: int, j: int) {
    && 0 <= i < j <= |ts| && (forall k | i <= k < j :: IsWord(ts[k]))
    && (i == 0 || !IsWord(ts[i - 1])) && (j == |ts| || !IsWord(ts[j]))
  }

  function RunsBefore(ts: string, end: nat): set<string> {
    set i, j | 0 <= i < j <= |ts| && j < end && Run(ts, i, j) && Imported(ts[i..j]) :: ts[i..j]
  }

  /** The named types of a type expression: its maximal words that start upper-case and are no
      builtin. */
  function NamedTypes(ts: string): set<string> { RunsBefore(ts, |ts| + 1) }

  method CollectNamedTypes(ts: string, into: set<string>) returns (out: set<string>)
    ensures out == into + NamedTypes(ts)
  {
    out := into;
    var cur := "";
    ghost var start: nat := 0;
    for i := 0 to |ts| + 1
      invariant i <= |ts| ==> start <= i && cur == ts[start..i] && Pending(ts, start, i)
      invariant out == into + RunsBefore(ts, i)
    {
      var ch := if i < |ts| then ts[i] else ' ';
      if IsWord(ch) {
        NoRunEnds(ts, i);
        assert ts[start..i] + [ch] == ts[start..i + 1];
        cur := cur + [ch];
      } else {
        RunsEnding(ts, i, start);
        assert into + RunsBefore(ts, i + 1) == into + RunsBefore(ts, i) + Ended(ts, start, i);
        if Imported(cur) { out := out + {cur}; }
        cur := "";
        start := i + 1;
      }
    }
  }

  /** The word characters from `start` on that may still become a run. */
  predicate Pending(ts: string, start: nat, i: nat)
    requires start <= i <= |ts|
  {
    (forall k | start <= k < i :: IsWord(ts[k])) && (start == 0 || !IsWord(ts[start - 1]))
  }

  function Ended(ts: string, start: nat, i: nat): set<string>
    requires start <= i <= |ts|
  {
    if Imported(ts[start..i]) then {ts[start..i]} else {}
  }

  lemma NoRunEnds(ts: string, i: nat)
    requires i < |ts| && IsWord(ts[i])
    ensures RunsBefore(ts, i + 1) == RunsBefore(ts, i)
  {
    assert forall a | 0 <= a < i :: !Run(ts, a, i);
  }

  lemma RunsEnding(ts: string, i: nat, start: nat)
    requires start <= i <= |ts| && (i == |ts| || !IsWord(ts[i])) && Pending(ts, start, i)
    ensures RunsBefore(ts, i + 1) == RunsBefore(ts, i) + Ended(ts, start, i)
  {
    forall a | 0 <= a < i && Run(ts, a, i) ensures a == start {}
    if start < i { assert Run(ts, start, i); }
  }

  function ParamTypes(params: Params): set<string> {
    if params == [] then {} else NamedTypes(params[0].1) + ParamTypes(params[1..])
  }

  function FnTypes(f: Fn): set<string> {
    ParamTypes(f.params) + if f.response.Json? then NamedTypes(f.response.tsType) else {}
  }

  function Types(fns: seq<Fn>): set<string> {
    if fns == [] then {} else FnTypes(fns[0]) + Types(fns[1..])
  }

  // ----- the join ----------------------------------------------------------------------------------

  type Mounted = map<string, Registration>

  function Mount(routes: seq<Registration>, acc: Mounted): Result<Mounted, Error>
    decreases |routes|
  {
    if routes == [] then Ok(acc)
    else if routes[0].fqname in acc then Err(HandlerMountedTwice(routes[0].fqname))
    else Mount(routes[1..], acc[routes[0].fqname := routes[0]])
  }

  function Described(handlers: seq<Handler>): set<string> { set h | h in handlers :: h.fqname }

  predicate Open(r: Registration, included: Registration -> bool, described: set<string>) {
    included(r) && r.fqname !in described
  }

  function Uncovered(routes: seq<Registration>, included: Registration -> bool, described: set<string>): Option<Error> {
    if routes == [] then None
    else if Open(routes[0], included, described) then
      Some(RouteWithoutHandler(routes[0].verb, routes[0].path, routes[0].fqname))
    else Uncovered(routes[1..], included, described)
  }

  function PlanOne(mounted: Mounted, h: Handler): Result<Fn, Error> {
    if h.fqname in mounted then Plan(mounted[h.fqname], h) else Err(HandlerWithoutRoute(h.fqname))
  }

  function PlanAll(mounted: Mounted, handlers: seq<Handler>): Result<seq<Fn>, Error> {
    if handlers == [] then Ok([])
    else
      match PlanOne(mounted, handlers[0])
      case Err(e) => Err(e)
      case Ok(f) =>
        match PlanAll(mounted, handlers[1..])
        case Err(e) => Err(e)
        case Ok(rest) => Ok([f] + rest)
  }

  function FnKey(f: Fn): Key { [f.path, f.verb] }

  function TsName(f: Fn): string { if f.response.Link? then f.name + "Url" else f.name }

  function TsKey(f: Fn): Key { [TsName(f)] }

  function Clash(fns: seq<Fn>, seen: map<string, string>): Option<Error>
    decreases |fns|
  {
    if fns == [] then None
    else if TsName(fns[0]) in seen then Some(NameClash(seen[TsName(fns[0])], fns[0].fqname, TsName(fns[0])))
    else Clash(fns[1..], seen[TsName(fns[0]) := fns[0].fqname])
  }

  function Join(routes: seq<Registration>, handlers: seq<Handler>,
      included: Registration -> bool): Result<Client, Error> {
    match Mount(routes, map[])
    case Err(e) => Err(e)
    case Ok(mounted) =>
      match Uncovered(routes, included, Described(handlers))
      case Some(e) => Err(e)
      case None =>
        match PlanAll(mounted, handlers)
        case Err(e) => Err(e)
        case Ok(planned) =>
          var fns := Sort(FnKey, planned);
          match Clash(fns, map[])
          case Some(e) => Err(e)
          case None => Ok(Client(Types(fns) - {"FormData"}, fns))
  }

  method Render(routes: seq<Registration>, handlers: seq<Handler>, included: Registration -> bool)
    returns (r: Result<Client, Error>)
    ensures r == Join(routes, handlers, included)
  {
    var byFqname: Mounted := map[];
    for i := 0 to |routes|
      invariant Mount(routes, map[]) == Mount(routes[i..], byFqname)
    {
      assert routes[i..][1..] == routes[i + 1..];
      if routes[i].fqname in byFqname { return Err(HandlerMountedTwice(routes[i].fqname)); }
      byFqname := byFqname[routes[i].fqname := routes[i]];
    }
    var described := set h | h in handlers :: h.fqname;
    for i := 0 to |routes|
      invariant Uncovered(routes, included, described) == Uncovered(routes[i..], included, described)
    {
      assert routes[i..][1..] == routes[i + 1..];
      if included(routes[i]) && routes[i].fqname !in described {
        return Err(RouteWithoutHandler(routes[i].verb, routes[i].path, routes[i].fqname));
      }
    }
    var planned := PlanEach(byFqname, handlers);
    if planned.Err? { return Err(planned.error); }
    var fns := Sort(FnKey, planned.value);
    var seen: map<string, string> := map[];
    for i := 0 to |fns|
      invariant Clash(fns, map[]) == Clash(fns[i..], seen)
    {
      assert fns[i..][1..] == fns[i + 1..];
      var tsName := match fns[i].response case Link => fns[i].name + "Url" case _ => fns[i].name;
      if tsName in seen { return Err(NameClash(seen[tsName], fns[i].fqname, tsName)); }
      seen := seen[tsName := fns[i].fqname];
    }
    var imports := Imports(fns);
    return Ok(Client(imports - {"FormData"}, fns));
  }

  method PlanEach(byFqname: Mounted, handlers: seq<Handler>) returns (r: Result<seq<Fn>, Error>)
    ensures r == PlanAll(byFqname, handlers)
  {
    var fns: seq<Fn> := [];
    OnwardNone(PlanAll(byFqname, handlers));
    assert handlers[0..] == handlers;
    for i := 0 to |handlers|
      invariant PlanAll(byFqname, handlers) == Onward(fns, PlanAll(byFqname, handlers[i..]))
    {
      var h := handlers[i];
      assert handlers[i..][1..] == handlers[i + 1..];
      if h.fqname !in byFqname { return Err(HandlerWithoutRoute(h.fqname)); }
      var f := PlanFn(byFqname[h.fqname], h);
      if f.Err? { return Err(f.error); }
      OnwardOne(fns, f.value, PlanAll(byFqname, handlers[i + 1..]));
      fns := fns + [f.value];
    }
    assert fns + [] == fns;
    return Ok(fns);
  }

  method Imports(fns: seq<Fn>) returns (imports: set<string>)
    ensures imports == Types(fns)
  {
    imports := {};
    for i := 0 to |fns|
      invariant Types(fns) == imports + Types(fns[i..])
    {
      assert fns[i..][1..] == fns[i + 1..];
      ghost var before := imports;
      var params := fns[i].params;
      for j := 0 to |params|
        invariant before + ParamTypes(params) == imports + ParamTypes(params[j..])
      {
        assert params[j..][1..] == params[j + 1..];
        imports := CollectNamedTypes(params[j].1, imports);
      }
      if fns[i].response.Json? { imports := CollectNamedTypes(fns[i].response.tsType, imports); }
    }
  }

  // ----- what the join promises ----------------------------------------------------------------------

  /** The route a handler is mounted on. */
  function RouteOf(routes: seq<Registration>, fqname: string): Option<Registration> {
    if routes == [] then None
    else if routes[0].fqname == fqname then Some(routes[0])
    else RouteOf(routes[1..], fqname)
  }

  function Planned(routes: seq<Registration>, h: Handler): Result<Fn, Error> {
    match RouteOf(routes, h.fqname)
    case None => Err(HandlerWithoutRoute(h.fqname))
    case Some(reg) => Plan(reg, h)
  }

  lemma {:induction false} RouteOfIn(routes: seq<Registration>, fqname: string)
    ensures RouteOf(routes, fqname).Some? ==>
              RouteOf(routes, fqname).value in routes && RouteOf(routes, fqname).value.fqname == fqname
    ensures RouteOf(routes, fqname).None? ==> forall r | r in routes :: r.fqname != fqname
  {
    if routes != [] {
      RouteOfIn(routes[1..], fqname);
      assert routes == [routes[0]] + routes[1..];
    }
  }

  lemma {:induction false} RouteOfOnly(routes: seq<Registration>, r: Registration)
    requires Distinct(RouteName, routes) && r in routes
    ensures RouteOf(routes, r.fqname) == Some(r)
  {
    var i :| 0 <= i < |routes| && routes[i] == r;
    if i > 0 {
      assert RouteName(routes[0]) != RouteName(routes[i]);
      assert routes[1..][i - 1] == r;
      assert Distinct(RouteName, routes[1..]) by {
        forall a, b | 0 <= a < b < |routes[1..]| ensures RouteName(routes[1..][a]) != RouteName(routes[1..][b]) {
          assert RouteName(routes[a + 1]) != RouteName(routes[b + 1]);
        }
      }
      RouteOfOnly(routes[1..], r);
    }
  }

  lemma DistinctCons(routes: seq<Registration>)
    requires routes != []
    ensures Distinct(RouteName, routes) <==>
            Distinct(RouteName, routes[1..]) && forall r | r in routes[1..] :: r.fqname != routes[0].fqname
  {
    var first, rest := routes[0], routes[1..];
    if Distinct(RouteName, routes) {
      forall a, b | 0 <= a < b < |rest| ensures RouteName(rest[a]) != RouteName(rest[b]) {
        assert RouteName(routes[a + 1]) != RouteName(routes[b + 1]);
      }
      forall r | r in rest ensures r.fqname != first.fqname {
        var i :| 0 <= i < |rest| && rest[i] == r;
        assert RouteName(routes[0]) != RouteName(routes[i + 1]);
      }
    }
    if Distinct(RouteName, rest) && forall r | r in rest :: r.fqname != first.fqname {
      forall a, b | 0 <= a < b < |routes| ensures RouteName(routes[a]) != RouteName(routes[b]) {
        assert routes[b] == rest[b - 1];
        if a == 0 {
          assert rest[b - 1] in rest;
          assert RouteName(routes[a])[0] != RouteName(routes[b])[0];
        } else {
          assert routes[a] == rest[a - 1];
        }
      }
    }
  }

  lemma {:induction false} MountExactly(routes: seq<Registration>, acc: Mounted)
    ensures Mount(routes, acc).Ok? <==> Distinct(RouteName, routes) && forall r | r in routes :: r.fqname !in acc
    ensures Mount(routes, acc).Ok? ==>
              forall k :: k in Mount(routes, acc).value <==> k in acc || RouteOf(routes, k).Some?
    ensures Mount(routes, acc).Ok? ==>
              forall k | k in Mount(routes, acc).value ::
                Mount(routes, acc).value[k] == if k in acc then acc[k] else RouteOf(routes, k).value
    decreases |routes|
  {
    if routes != [] {
      var first, rest := routes[0], routes[1..];
      assert routes == [first] + rest;
      DistinctCons(routes);
      if first.fqname in acc {
        assert first in routes;
      } else {
        MountExactly(rest, acc[first.fqname := first]);
      }
    }
  }

  lemma {:induction false} UncoveredExactly(routes: seq<Registration>, included: Registration -> bool,
      described: set<string>)
    ensures Uncovered(routes, included, described).None? <==> forall r | r in routes :: !Open(r, included, described)
  {
    if routes != [] {
      UncoveredExactly(routes[1..], included, described);
      assert routes == [routes[0]] + routes[1..];
    }
  }

  lemma {:induction false} PlanAllExactly(mounted: Mounted, handlers: seq<Handler>)
    ensures PlanAll(mounted, handlers).Ok? <==> forall h | h in handlers :: PlanOne(mounted, h).Ok?
    ensures PlanAll(mounted, handlers).Ok? ==>
              |PlanAll(mounted, handlers).value| == |handlers| &&
              forall i | 0 <= i < |handlers| :: PlanOne(mounted, handlers[i]) == Ok(PlanAll(mounted, handlers).value[i])
  {
    if handlers != [] {
      PlanAllExactly(mounted, handlers[1..]);
      assert handlers == [handlers[0]] + handlers[1..];
    }
  }

  lemma {:induction false} ClashExactly(fns: seq<Fn>, seen: map<string, string>)
    ensures Clash(fns, seen).None? <==> Distinct(TsKey, fns) && forall f | f in fns :: TsName(f) !in seen
    decreases |fns|
  {
    if fns != [] {
      var first, rest := fns[0], fns[1..];
      assert fns == [first] + rest;
      if TsName(first) in seen {
        assert first in fns;
      } else {
        ClashExactly(rest, seen[TsName(first) := first.fqname]);
        DistinctTsCons(fns);
      }
    }
  }

  lemma DistinctTsCons(fns: seq<Fn>)
    requires fns != []
    ensures Distinct(TsKey, fns) <==>
            Distinct(TsKey, fns[1..]) && forall f | f in fns[1..] :: TsName(f) != TsName(fns[0])
  {
    var first, rest := fns[0], fns[1..];
    if Distinct(TsKey, fns) {
      forall a, b | 0 <= a < b < |rest| ensures TsKey(rest[a]) != TsKey(rest[b]) {
        assert TsKey(fns[a + 1]) != TsKey(fns[b + 1]);
      }
      forall f | f in rest ensures TsName(f) != TsName(first) {
        var i :| 0 <= i < |rest| && rest[i] == f;
        assert TsKey(fns[0]) != TsKey(fns[i + 1]);
      }
    }
    if Distinct(TsKey, rest) && forall f | f in rest :: TsName(f) != TsName(first) {
      forall a, b | 0 <= a < b < |fns| ensures TsKey(fns[a]) != TsKey(fns[b]) {
        assert fns[b] == rest[b - 1];
        if a == 0 {
          assert rest[b - 1] in rest;
          assert TsKey(fns[a])[0] != TsKey(fns[b])[0];
        } else {
          assert fns[a] == rest[a - 1];
        }
      }
    }
  }

  /** The name a handler's function gets. */
  function TsKeyOf(h: Handler): Key {
    [if h.response.Link? then CamelFrom(h.name, false) + "Url" else CamelFrom(h.name, false)]
  }

  /** What the two tables must be for the join to succeed. */
  predicate Joinable(routes: seq<Registration>, handlers: seq<Handler>, included: Registration -> bool) {
    && Distinct(RouteName, routes)
    && (forall r | r in routes :: included(r) ==> r.fqname in Described(handlers))
    && (forall h | h in handlers :: Planned(routes, h).Ok?)
    && Distinct(TsKeyOf, handlers)
  }

  /** The functions before they are sorted: the handlers' own order. */
  lemma PlansOf(routes: seq<Registration>, handlers: seq<Handler>)
    requires Distinct(RouteName, routes)
    ensures Mount(routes, map[]).Ok?
    ensures forall h :: PlanOne(Mount(routes, map[]).value, h) == Planned(routes, h)
    ensures PlanAll(Mount(routes, map[]).value, handlers).Ok? <==> forall h | h in handlers :: Planned(routes, h).Ok?
    ensures PlanAll(Mount(routes, map[]).value, handlers).Ok? ==>
              var fns := PlanAll(Mount(routes, map[]).value, handlers).value;
              |fns| == |handlers| && forall i | 0 <= i < |handlers| :: Planned(routes, handlers[i]) == Ok(fns[i])
  {
    MountExactly(routes, map[]);
    var mounted := Mount(routes, map[]).value;
    forall h ensures PlanOne(mounted, h) == Planned(routes, h) {
      assert h.fqname in mounted <==> RouteOf(routes, h.fqname).Some?;
    }
    PlanAllExactly(mounted, handlers);
  }

  lemma PlanNames(reg: Registration, h: Handler)
    requires Plan(reg, h).Ok?
    ensures TsKey(Plan(reg, h).value) == TsKeyOf(h)
    ensures Plan(reg, h).value.fqname == h.fqname && FnKey(Plan(reg, h).value) == RouteKey(reg)
  {
  }

  lemma SortedNames(handlers: seq<Handler>, fns: seq<Fn>)
    requires |fns| == |handlers| && forall i | 0 <= i < |fns| :: TsKey(fns[i]) == TsKeyOf(handlers[i])
    ensures Distinct(TsKey, Sort(FnKey, fns)) <==> Distinct(TsKeyOf, handlers)
  {
    SortKeepsDistinct(FnKey, TsKey, fns);
    SameKeys(fns, handlers);
  }

  lemma NamesMatch(routes: seq<Registration>, handlers: seq<Handler>, fns: seq<Fn>)
    requires |fns| == |handlers| && forall i | 0 <= i < |handlers| :: Planned(routes, handlers[i]) == Ok(fns[i])
    ensures forall i | 0 <= i < |fns| :: TsKey(fns[i]) == TsKeyOf(handlers[i])
  {
    forall i | 0 <= i < |fns| ensures TsKey(fns[i]) == TsKeyOf(handlers[i]) {
      PlannedName(routes, handlers[i]);
    }
  }

  lemma PlannedName(routes: seq<Registration>, h: Handler)
    requires Planned(routes, h).Ok?
    ensures TsKey(Planned(routes, h).value) == TsKeyOf(h)
  {
    PlanNames(RouteOf(routes, h.fqname).value, h);
  }

  lemma SameKeys(fns: seq<Fn>, handlers: seq<Handler>)
    requires |fns| == |handlers| && forall i | 0 <= i < |fns| :: TsKey(fns[i]) == TsKeyOf(handlers[i])
    ensures Distinct(TsKey, fns) <==> Distinct(TsKeyOf, handlers)
  {
    if Distinct(TsKey, fns) {
      forall i, j | 0 <= i < j < |handlers| ensures TsKeyOf(handlers[i]) != TsKeyOf(handlers[j]) {
        assert TsKey(fns[i]) != TsKey(fns[j]);
      }
    }
    if Distinct(TsKeyOf, handlers) {
      forall i, j | 0 <= i < j < |fns| ensures TsKey(fns[i]) != TsKey(fns[j]) {
        assert TsKeyOf(handlers[i]) != TsKeyOf(handlers[j]);
      }
    }
  }

  /** The join succeeds exactly on tables where no handler is mounted twice, every included route is
      described, every handler has a route its arguments fit, and no two functions get one name. */
  lemma JoinSucceedsExactly(routes: seq<Registration>, handlers: seq<Handler>, included: Registration -> bool)
    ensures Join(routes, handlers, included).Ok? <==> Joinable(routes, handlers, included)
  {
    MountExactly(routes, map[]);
    if Distinct(RouteName, routes) {
      UncoveredExactly(routes, included, Described(handlers));
      CoveredMeans(routes, handlers, included);
      PlansOf(routes, handlers);
      var planned := PlanAll(Mount(routes, map[]).value, handlers);
      if planned.Ok? {
        NamesMatch(routes, handlers, planned.value);
        SortedNames(handlers, planned.value);
        ClashExactly(Sort(FnKey, planned.value), map[]);
      }
    }
  }

  lemma CoveredMeans(routes: seq<Registration>, handlers: seq<Handler>, included: Registration -> bool)
    ensures (forall r | r in routes :: !Open(r, included, Described(handlers))) <==>
            forall r | r in routes :: included(r) ==> r.fqname in Described(handlers)
  {
    if forall r | r in routes :: included(r) ==> r.fqname in Described(handlers) {
      forall r | r in routes ensures !Open(r, included, Described(handlers)) {}
    }
    if forall r | r in routes :: !Open(r, included, Described(handlers)) {
      forall r | r in routes ensures included(r) ==> r.fqname in Described(handlers) {
        assert !Open(r, included, Described(handlers));
      }
    }
  }

  /** On success there is one function per handler, each planned from the one route of its name, no
      two of one TypeScript name, in the order of path and method. */
  lemma {:induction false} OneFunctionPerHandler(routes: seq<Registration>, handlers: seq<Handler>,
      included: Registration -> bool)
    requires Join(routes, handlers, included).Ok?
    ensures |Join(routes, handlers, included).value.fns| == |handlers|
    ensures forall f :: f in Join(routes, handlers, included).value.fns <==>
              exists h :: h in handlers && Planned(routes, h) == Ok(f)
    ensures Distinct(TsKey, Join(routes, handlers, included).value.fns)
    ensures Join(routes, handlers, included).value.imports ==
            Types(Join(routes, handlers, included).value.fns) - {"FormData"}
  {
    MountExactly(routes, map[]);
    PlansOf(routes, handlers);
    var planned := PlanAll(Mount(routes, map[]).value, handlers).value;
    var fns := Join(routes, handlers, included).value.fns;
    SortKeeps(FnKey, planned);
    ClashExactly(fns, map[]);
    forall f ensures f in fns <==> exists h :: h in handlers && Planned(routes, h) == Ok(f) {
      if f in fns {
        var i :| 0 <= i < |planned| && planned[i] == f;
        assert handlers[i] in handlers;
      }
      if h :| h in handlers && Planned(routes, h) == Ok(f) {
        var i :| 0 <= i < |handlers| && handlers[i] == h;
        assert planned[i] in planned;
      }
    }
  }

  /** The path comes first, and the method counts between equal paths. */
  predicate After(path: string, verb: string, path': string, verb': string) {
    LessText(path', path) || (path == path' && LessText(verb', verb))
  }

  /** The functions come by path, those of one path by method. */
  lemma FunctionsInOrder(routes: seq<Registration>, handlers: seq<Handler>, included: Registration -> bool)
    requires Join(routes, handlers, included).Ok?
    ensures var fns := Join(routes, handlers, included).value.fns;
      forall i, j | 0 <= i < j < |fns| :: !After(fns[i].path, fns[i].verb, fns[j].path, fns[j].verb)
  {
    var planned := PlanAll(Mount(routes, map[]).value, handlers).value;
    SortInOrder(FnKey, planned);
    var fns := Join(routes, handlers, included).value.fns;
    forall i, j | 0 <= i < j < |fns| ensures !After(fns[i].path, fns[i].verb, fns[j].path, fns[j].verb) {
      KeyOrder(fns[j], fns[i]);
    }
  }

  lemma KeyOrder(f: Fn, g: Fn)
    ensures Less(FnKey(f), FnKey(g)) <==> After(g.path, g.verb, f.path, f.verb)
  {
    var a, b := FnKey(f), FnKey(g);
    assert a[1..] == [f.verb] && b[1..] == [g.verb] && [f.verb][1..] == [] && [g.verb][1..] == [];
    assert !Less([], []);
  }

  /** A function names a type: one of its parameters has it in its type, or its JSON answer has. */
  predicate NamesType(f: Fn, word: string) {
    || (exists i | 0 <= i < |f.params| :: word in NamedTypes(f.params[i].1))
    || (f.response.Json? && word in NamedTypes(f.response.tsType))
  }

  lemma {:induction false} ParamTypesNamed(params: Params, word: string)
    ensures word in ParamTypes(params) <==> exists i | 0 <= i < |params| :: word in NamedTypes(params[i].1)
  {
    if params != [] {
      ParamTypesNamed(params[1..], word);
      assert forall i | 1 <= i < |params| :: params[i] == params[1..][i - 1];
      assert forall i | 0 <= i < |params[1..]| :: params[1..][i] == params[i + 1];
    }
  }

  lemma {:induction false} TypesNamed(fns: seq<Fn>, word: string)
    ensures word in Types(fns) <==> exists f :: f in fns && NamesType(f, word)
  {
    if fns != [] {
      TypesNamed(fns[1..], word);
      ParamTypesNamed(fns[0].params, word);
      assert fns == [fns[0]] + fns[1..] && fns[0] in fns;
    }
  }

  /** A client imports exactly the types that its functions name, but for `FormData`. */
  lemma ImportsExactly(routes: seq<Registration>, handlers: seq<Handler>, included: Registration -> bool, word: string)
    requires Join(routes, handlers, included).Ok?
    ensures var client := Join(routes, handlers, included).value;
      word in client.imports <==> word != "FormData" && exists f :: f in client.fns && NamesType(f, word)
  {
    OneFunctionPerHandler(routes, handlers, included);
    TypesNamed(Join(routes, handlers, included).value.fns, word);
  }

  lemma {:induction false} MountFails(routes: seq<Registration>, acc: Mounted)
    requires Mount(routes, acc).Err?
    ensures exists i | 0 <= i < |routes| ::
              && Mount(routes, acc).error == HandlerMountedTwice(routes[i].fqname)
              && (routes[i].fqname in acc || exists j | 0 <= j < i :: routes[j].fqname == routes[i].fqname)
    decreases |routes|
  {
    if routes[0].fqname !in acc {
      var first, rest := routes[0], routes[1..];
      var acc' := acc[first.fqname := first];
      MountFails(rest, acc');
      var i :| 0 <= i < |rest| && Mount(rest, acc').error == HandlerMountedTwice(rest[i].fqname)
               && (rest[i].fqname in acc' || exists j | 0 <= j < i :: rest[j].fqname == rest[i].fqname);
      assert routes[i + 1] == rest[i];
      if rest[i].fqname == first.fqname {
        assert routes[0].fqname == routes[i + 1].fqname;
      } else if rest[i].fqname !in acc {
        var j :| 0 <= j < i && rest[j].fqname == rest[i].fqname;
        assert routes[j + 1] == rest[j];
      }
    }
  }

  lemma {:induction false} UncoveredIs(routes: seq<Registration>, included: Registration -> bool,
                                       described: set<string>)
    requires Uncovered(routes, included, described).Some?
    ensures exists r :: r in routes && included(r) && r.fqname !in described &&
                        Uncovered(routes, included, described) == Some(RouteWithoutHandler(r.verb, r.path, r.fqname))
  {
    if !Open(routes[0], included, described) {
      UncoveredIs(routes[1..], included, described);
      var r :| r in routes[1..] && included(r) && r.fqname !in described &&
               Uncovered(routes[1..], included, described) == Some(RouteWithoutHandler(r.verb, r.path, r.fqname));
      assert r in routes;
    } else {
      assert routes[0] in routes;
    }
  }

  lemma {:induction false} PlanAllFails(mounted: Mounted, handlers: seq<Handler>)
    requires PlanAll(mounted, handlers).Err?
    ensures exists h :: h in handlers && PlanOne(mounted, h) == Err(PlanAll(mounted, handlers).error)
  {
    if PlanOne(mounted, handlers[0]).Ok? {
      PlanAllFails(mounted, handlers[1..]);
      var h :| h in handlers[1..] && PlanOne(mounted, h) == Err(PlanAll(mounted, handlers[1..]).error);
      assert h in handlers;
    } else {
      assert handlers[0] in handlers;
    }
  }

  /** Two functions of one name, by the handlers they are of. */
  ghost predicate Clashing(fns: seq<Fn>, first: string, second: string, name: string) {
    exists f, g :: f in fns && g in fns && TsName(f) == TsName(g) == name && f.fqname == first && g.fqname == second
  }

  lemma {:induction false} ClashIs(before: seq<Fn>, fns: seq<Fn>, seen: map<string, string>)
    requires Clash(fns, seen).Some?
    requires forall name | name in seen :: exists f :: f in before && TsName(f) == name && f.fqname == seen[name]
    ensures Clash(fns, seen).value.NameClash?
    ensures var e := Clash(fns, seen).value; Clashing(before + fns, e.first, e.second, e.tsName)
    decreases |fns|
  {
    var first, rest := fns[0], fns[1..];
    assert before + fns == before + [first] + rest;
    if TsName(first) in seen {
      var f :| f in before && TsName(f) == TsName(first) && f.fqname == seen[TsName(first)];
      assert f in before + fns && first in before + fns;
    } else {
      var seen' := seen[TsName(first) := first.fqname];
      forall name | name in seen'
        ensures exists f :: f in before + [first] && TsName(f) == name && f.fqname == seen'[name]
      {
        if name == TsName(first) {
          assert first in before + [first];
        } else {
          var f :| f in before && TsName(f) == name && f.fqname == seen[name];
          assert f in before + [first];
        }
      }
      ClashIs(before + [first], rest, seen');
    }
  }

  /** Every refusal of the join names its cause: a handler on two routes, an included route that no handler
      describes, a handler without a route, one that its route does not fit, or two functions of one name. */
  lemma {:induction false} RefusalsNameTheirCause(routes: seq<Registration>, handlers: seq<Handler>,
                                                  included: Registration -> bool)
    requires Join(routes, handlers, included).Err?
    ensures match Join(routes, handlers, included).error
            case HandlerMountedTwice(name) =>
              exists i, j | 0 <= i < j < |routes| :: routes[i].fqname == routes[j].fqname == name
            case RouteWithoutHandler(verb, path, name) =>
              && (exists r :: r in routes && included(r) && r.verb == verb && r.path == path && r.fqname == name)
              && forall h | h in handlers :: h.fqname != name
            case HandlerWithoutRoute(name) =>
              (exists h :: h in handlers && h.fqname == name) && forall r | r in routes :: r.fqname != name
            case Shape(name, detail) =>
              exists h, r :: h in handlers && r in routes && h.fqname == r.fqname == name &&
                             Plan(r, h) == Err(Shape(name, detail))
            case NameClash(first, second, tsName) =>
              && (exists h :: h in handlers && h.fqname == first && TsKeyOf(h) == [tsName])
              && (exists h :: h in handlers && h.fqname == second && TsKeyOf(h) == [tsName])
  {
    MountExactly(routes, map[]);
    if Mount(routes, map[]).Err? {
      MountFails(routes, map[]);
    } else if Uncovered(routes, included, Described(handlers)).Some? {
      UncoveredIs(routes, included, Described(handlers));
      assert forall h | h in handlers :: h.fqname in Described(handlers);
    } else {
      PlansOf(routes, handlers);
      var mounted := Mount(routes, map[]).value;
      if PlanAll(mounted, handlers).Err? {
        PlanAllFails(mounted, handlers);
        var h :| h in handlers && PlanOne(mounted, h) == Err(PlanAll(mounted, handlers).error);
        RouteOfIn(routes, h.fqname);
        PlanErrorsAreShapes(routes, h);
      } else {
        ClashNamed(routes, handlers, PlanAll(mounted, handlers).value);
      }
    }
  }

  lemma PlanErrorsAreShapes(routes: seq<Registration>, h: Handler)
    requires Planned(routes, h).Err?
    ensures match Planned(routes, h).error
            case HandlerWithoutRoute(name) => name == h.fqname && RouteOf(routes, h.fqname).None?
            case Shape(name, _) => name == h.fqname && RouteOf(routes, h.fqname).Some?
            case _ => false
  {
  }

  lemma ClashNamed(routes: seq<Registration>, handlers: seq<Handler>, planned: seq<Fn>)
    requires |planned| == |handlers|
    requires forall i | 0 <= i < |handlers| :: Planned(routes, handlers[i]) == Ok(planned[i])
    requires Clash(Sort(FnKey, planned), map[]).Some?
    ensures Clash(Sort(FnKey, planned), map[]).value.NameClash?
    ensures var e := Clash(Sort(FnKey, planned), map[]).value;
      && (exists h :: h in handlers && h.fqname == e.first && TsKeyOf(h) == [e.tsName])
      && (exists h :: h in handlers && h.fqname == e.second && TsKeyOf(h) == [e.tsName])
  {
    var fns := Sort(FnKey, planned);
    ClashIs([], fns, map[]);
    assert [] + fns == fns;
    SortKeeps(FnKey, planned);
    var e := Clash(fns, map[]).value;
    var f, g :| f in fns && g in fns && TsName(f) == TsName(g) == e.tsName &&
                f.fqname == e.first && g.fqname == e.second;
    HandlerOfFn(routes, handlers, planned, f);
    HandlerOfFn(routes, handlers, planned, g);
  }

  lemma HandlerOfFn(routes: seq<Registration>, handlers: seq<Handler>, planned: seq<Fn>, f: Fn)
    requires |planned| == |handlers| && f in planned
    requires forall i | 0 <= i < |handlers| :: Planned(routes, handlers[i]) == Ok(planned[i])
    ensures exists h :: h in handlers && h.fqname == f.fqname && TsKeyOf(h) == [TsName(f)]
  {
    var i :| 0 <= i < |planned| && planned[i] == f;
    PlanNames(RouteOf(routes, handlers[i].fqname).value, handlers[i]);
    assert handlers[i] in handlers;
  }

  /** Every included route has its function. */
  lemma EveryRouteIsCovered(routes: seq<Registration>, handlers: seq<Handler>, included: Registration -> bool,
                            r: Registration)
    requires Join(routes, handlers, included).Ok? && r in routes && included(r)
    ensures exists f ::
              f in Join(routes, handlers, included).value.fns && f.fqname == r.fqname &&
              FnKey(f) == RouteKey(r)
  {
    JoinSucceedsExactly(routes, handlers, included);
    OneFunctionPerHandler(routes, handlers, included);
    var h :| h in handlers && h.fqname == r.fqname;
    RouteOfOnly(routes, r);
    PlanNames(r, h);
    assert Planned(routes, h).value in Join(routes, handlers, included).value.fns;
  }

  /** Nothing keeps a handler's name out of a module that cannot declare it: every function of the
      client can be declared exactly when every handler can be named. */
  lemma DeclarableExactly(routes: seq<Registration>, handlers: seq<Handler>, included: Registration -> bool)
    requires Join(routes, handlers, included).Ok?
    ensures (forall f | f in Join(routes, handlers, included).value.fns :: Declarable(TsName(f)))
            <==> forall h | h in handlers :: Nameable(h)
  {
    JoinSucceedsExactly(routes, handlers, included);
    OneFunctionPerHandler(routes, handlers, included);
    var fns := Join(routes, handlers, included).value.fns;
    if forall f | f in fns :: Declarable(TsName(f)) {
      forall h | h in handlers ensures Nameable(h) {
        PlannedName(routes, h);
        assert Planned(routes, h).value in fns && TsKey(Planned(routes, h).value)[0] == TsKeyOf(h)[0];
        DeclarableByName(h);
      }
    }
    if forall h | h in handlers :: Nameable(h) {
      forall f | f in fns ensures Declarable(TsName(f)) {
        var h :| h in handlers && Planned(routes, h) == Ok(f);
        PlannedName(routes, h);
        assert TsKey(f)[0] == TsKeyOf(h)[0];
        DeclarableByName(h);
      }
    }
  }

  /** Whatever a handler is called, its one route gets a client of one function. */
  lemma AnyNameIsPlanned(name: string, reg: Registration, response: Response, included: Registration -> bool)
    requires reg.pathParams == []
    ensures var h := Handler(reg.fqname, name, [], response);
      && Join([reg], [h], included).Ok? && |Join([reg], [h], included).value.fns| == 1
      && TsName(Join([reg], [h], included).value.fns[0]) == TsKeyOf(h)[0]
  {
    var h := Handler(reg.fqname, name, [], response);
    var routes, handlers := [reg], [h];
    assert Plan(reg, h).Ok?;
    assert RouteOf(routes, reg.fqname) == Some(reg) && h in handlers;
    assert h.fqname in Described(handlers);
    JoinSucceedsExactly(routes, handlers, included);
    OneFunctionPerHandler(routes, handlers, included);
    var f := Join(routes, handlers, included).value.fns[0];
    assert f in Join(routes, handlers, included).value.fns;
    PlannedName(routes, h);
    assert TsKey(f)[0] == TsKeyOf(h)[0];
  }

  /** One handler of this name on one route makes a client of one function, called `tsName`, that the
      module cannot declare. */
  predicate JoinedUndeclared(reg: Registration, name: string, tsName: string, included: Registration -> bool) {
    var joined := Join([reg], [Handler(reg.fqname, name, [], NoContent)], included);
    joined.Ok? && |joined.value.fns| == 1 && TsName(joined.value.fns[0]) == tsName && !Declarable(tsName)
  }

  lemma JoinsUndeclared(reg: Registration, name: string, tsName: string, included: Registration -> bool)
    requires reg.pathParams == [] && CamelFrom(name, false) == tsName && !Declarable(tsName)
    ensures JoinedUndeclared(reg, name, tsName, included)
  {
    AnyNameIsPlanned(name, reg, NoContent, included);
  }

  /** Three handlers that Rust accepts and the join accepts: one called by a keyword, one whose camel
      case is a digit, and one whose camel case is empty. */
  lemma HandlersNobodyCanDeclare(reg: Registration, included: Registration -> bool)
    requires reg.pathParams == []
    ensures JoinedUndeclared(reg, "delete", "delete", included)
    ensures JoinedUndeclared(reg, "_1", "1", included)
    ensures JoinedUndeclared(reg, "__", "", included)
  {
    CamelOfThree();
    JoinsUndeclared(reg, "delete", "delete", included);
    JoinsUndeclared(reg, "_1", "1", included);
    JoinsUndeclared(reg, "__", "", included);
  }

  lemma CamelOfThree()
    ensures CamelFrom("delete", false) == "delete" && !Declarable("delete")
    ensures CamelFrom("_1", false) == "1" && !Declarable("1")
    ensures CamelFrom("__", false) == "" && !Declarable("")
  {
    var word := "delete";
    assert KEYWORDS[0] == KEYWORDS_TO_DO && word in KEYWORDS_TO_DO;
    InListed(word, KEYWORDS, 0);
    FirstKeywordsAreLower(word);
    CamelIsWordExactly(word, word);
    assert "_1"[1..] == "1" && "1"[1..] == "" && "__"[1..] == "_" && "_"[1..] == "";
  }

  // ----- when the order of the tables shows ------------------------------------------------------------

  /** The path and method a handler is mounted at. */
  function PlaceOf(routes: seq<Registration>, h: Handler): Key {
    match RouteOf(routes, h.fqname)
    case Some(r) => RouteKey(r)
    case None => []
  }

  function PlaceIn(routes: seq<Registration>): Handler -> Key { h => PlaceOf(routes, h) }

  /** No two handlers share path and method. */
  predicate Apart(routes: seq<Registration>, handlers: seq<Handler>) { Distinct(PlaceIn(routes), handlers) }

  lemma PlannedPlace(routes: seq<Registration>, h: Handler)
    requires Planned(routes, h).Ok?
    ensures FnKey(Planned(routes, h).value) == PlaceIn(routes)(h)
  {
    PlanNames(RouteOf(routes, h.fqname).value, h);
  }

  lemma StrictFns(routes: seq<Registration>, handlers: seq<Handler>, included: Registration -> bool)
    requires Join(routes, handlers, included).Ok? && Apart(routes, handlers)
    ensures Strict(FnKey, Join(routes, handlers, included).value.fns)
  {
    JoinSucceedsExactly(routes, handlers, included);
    PlansOf(routes, handlers);
    var planned := PlanAll(Mount(routes, map[]).value, handlers).value;
    forall i, j | 0 <= i < j < |planned| ensures FnKey(planned[i]) != FnKey(planned[j]) {
      assert PlaceIn(routes)(handlers[i]) != PlaceIn(routes)(handlers[j]);
      PlannedPlace(routes, handlers[i]);
      PlannedPlace(routes, handlers[j]);
    }
    SortStrict(FnKey, planned);
  }

  lemma SameRoute(routes: seq<Registration>, others: seq<Registration>, fqname: string)
    requires Distinct(RouteName, routes) && Distinct(RouteName, others)
    requires forall r :: r in routes <==> r in others
    ensures RouteOf(routes, fqname) == RouteOf(others, fqname)
  {
    RouteOfIn(routes, fqname);
    RouteOfIn(others, fqname);
    match RouteOf(routes, fqname)
    case Some(r) => RouteOfOnly(others, r);
    case None =>
  }

  lemma JoinableReordered(routes: seq<Registration>, handlers: seq<Handler>, included: Registration -> bool,
                          routes': seq<Registration>, handlers': seq<Handler>)
    requires Joinable(routes, handlers, included)
    requires multiset(routes) == multiset(routes') && multiset(handlers) == multiset(handlers')
    ensures Joinable(routes', handlers', included)
    ensures forall h: Handler :: RouteOf(routes, h.fqname) == RouteOf(routes', h.fqname)
  {
    SameMembers(routes, routes');
    SameMembers(handlers, handlers');
    PermutedDistinct(RouteName, routes, routes');
    PermutedDistinct(TsKeyOf, handlers, handlers');
    forall h: Handler ensures RouteOf(routes, h.fqname) == RouteOf(routes', h.fqname) {
      SameRoute(routes, routes', h.fqname);
    }
    assert Described(handlers) == Described(handlers');
  }

  /** Reordering either table never decides whether there is a client. */
  lemma OrderNeverDecides(routes: seq<Registration>, handlers: seq<Handler>, included: Registration -> bool,
                          routes': seq<Registration>, handlers': seq<Handler>)
    requires multiset(routes) == multiset(routes') && multiset(handlers) == multiset(handlers')
    ensures Join(routes, handlers, included).Ok? <==> Join(routes', handlers', included).Ok?
  {
    JoinSucceedsExactly(routes, handlers, included);
    JoinSucceedsExactly(routes', handlers', included);
    if Joinable(routes', handlers', included) {
      JoinableReordered(routes', handlers', included, routes, handlers);
    }
    if Joinable(routes, handlers, included) {
      JoinableReordered(routes, handlers, included, routes', handlers');
    }
  }

  lemma SameClients(routes: seq<Registration>, handlers: seq<Handler>, included: Registration -> bool,
                    routes': seq<Registration>, handlers': seq<Handler>)
    requires Join(routes, handlers, included).Ok? && Apart(routes, handlers)
    requires multiset(routes) == multiset(routes') && multiset(handlers) == multiset(handlers')
    ensures Join(routes, handlers, included) == Join(routes', handlers', included)
  {
    OrderNeverDecides(routes, handlers, included, routes', handlers');
    JoinSucceedsExactly(routes, handlers, included);
    JoinableReordered(routes, handlers, included, routes', handlers');
    SameMembers(handlers, handlers');
    PermutedDistinct(PlaceIn(routes), handlers, handlers');
    ApartFrom(routes, routes', handlers');
    StrictFns(routes, handlers, included);
    StrictFns(routes', handlers', included);
    OneFunctionPerHandler(routes, handlers, included);
    OneFunctionPerHandler(routes', handlers', included);
    var fns, fns' := Join(routes, handlers, included).value.fns, Join(routes', handlers', included).value.fns;
    SameFns(routes, handlers, routes', handlers', fns, fns');
    SameFns(routes', handlers', routes, handlers, fns', fns);
    StrictIsUnique(FnKey, fns, fns');
  }

  lemma ApartFrom(routes: seq<Registration>, routes': seq<Registration>, handlers: seq<Handler>)
    requires Apart(routes, handlers)
    requires forall h: Handler :: RouteOf(routes, h.fqname) == RouteOf(routes', h.fqname)
    ensures Apart(routes', handlers)
  {
    forall i, j | 0 <= i < j < |handlers|
      ensures PlaceIn(routes')(handlers[i]) != PlaceIn(routes')(handlers[j])
    {
      assert PlaceIn(routes)(handlers[i]) != PlaceIn(routes)(handlers[j]);
    }
  }

  lemma SameFns(routes: seq<Registration>, handlers: seq<Handler>, routes': seq<Registration>,
                handlers': seq<Handler>, fns: seq<Fn>, fns': seq<Fn>)
    requires forall h: Handler :: h in handlers <==> h in handlers'
    requires forall h: Handler :: RouteOf(routes, h.fqname) == RouteOf(routes', h.fqname)
    requires forall f :: f in fns <==> exists h :: h in handlers && Planned(routes, h) == Ok(f)
    requires forall f :: f in fns' <==> exists h :: h in handlers' && Planned(routes', h) == Ok(f)
    ensures forall f :: f in fns ==> f in fns'
  {
    forall f | f in fns ensures f in fns' {
      var h :| h in handlers && Planned(routes, h) == Ok(f);
      assert h in handlers' && Planned(routes', h) == Ok(f);
    }
  }

  /** No reordering of either table changes the client exactly when no two handlers share path and
      method; of two that do, the one described first comes first. */
  lemma {:induction false} OrderShowsExactly(routes: seq<Registration>, handlers: seq<Handler>,
                                             included: Registration -> bool)
    requires Join(routes, handlers, included).Ok?
    ensures Apart(routes, handlers) <==>
            forall routes', handlers' |
              multiset(routes') == multiset(routes) && multiset(handlers') == multiset(handlers) ::
                Join(routes', handlers', included) == Join(routes, handlers, included)
  {
    if Apart(routes, handlers) {
      forall routes', handlers' |
        multiset(routes') == multiset(routes) && multiset(handlers') == multiset(handlers)
        ensures Join(routes', handlers', included) == Join(routes, handlers, included)
      {
        SameClients(routes, handlers, included, routes', handlers');
      }
    } else {
      var i, j :| 0 <= i < j < |handlers| && PlaceIn(routes)(handlers[i]) == PlaceIn(routes)(handlers[j]);
      JoinSucceedsExactly(routes, handlers, included);
      var one, other := PullOut(handlers, i, j);
      assert TsKeyOf(handlers[i]) != TsKeyOf(handlers[j]);
      SharedPlace(routes, handlers, included, one, other);
      assert Join(routes, one, included) != Join(routes, other, included);
    }
  }

  lemma DistinctMembers<T(!new)>(key: T -> Key, s: seq<T>, a: T, b: T)
    requires Distinct(key, s) && a in s && b in s && a != b
    ensures key(a) != key(b)
  {
    var i :| 0 <= i < |s| && s[i] == a;
    var j :| 0 <= j < |s| && s[j] == b;
    if i < j { assert key(s[i]) != key(s[j]); } else { assert key(s[j]) != key(s[i]); }
  }

  lemma PlacesApart(routes: seq<Registration>, x: Handler, y: Handler)
    requires Distinct(RouteKey, routes) && x.fqname != y.fqname
    requires RouteOf(routes, x.fqname).Some? && RouteOf(routes, y.fqname).Some?
    ensures PlaceIn(routes)(x) != PlaceIn(routes)(y)
  {
    RouteOfIn(routes, x.fqname);
    RouteOfIn(routes, y.fqname);
    DistinctMembers(RouteKey, routes, RouteOf(routes, x.fqname).value, RouteOf(routes, y.fqname).value);
  }

  /** In tables as the router and the export tests write them, no two handlers share path and method. */
  lemma DistinctTablesAreApart(routes: seq<Registration>, handlers: seq<Handler>, included: Registration -> bool)
    requires Joinable(routes, handlers, included)
    requires Distinct(RouteKey, routes) && Distinct(HandlerKey, handlers)
    ensures Apart(routes, handlers)
  {
    forall i, j | 0 <= i < j < |handlers|
      ensures PlaceIn(routes)(handlers[i]) != PlaceIn(routes)(handlers[j])
    {
      assert Planned(routes, handlers[i]).Ok? && Planned(routes, handlers[j]).Ok?;
      assert HandlerKey(handlers[i]) != HandlerKey(handlers[j]);
      PlacesApart(routes, handlers[i], handlers[j]);
    }
  }

  /** Which of two handlers of one place comes first decides which function comes first. */
  lemma SharedPlace(routes: seq<Registration>, handlers: seq<Handler>, included: Registration -> bool,
                    one: seq<Handler>, other: seq<Handler>)
    requires Joinable(routes, handlers, included)
    requires multiset(one) == multiset(handlers) == multiset(other) && |one| == |other| >= 2
    requires one[0] == other[1] && one[1] == other[0] && one[2..] == other[2..]
    requires PlaceIn(routes)(one[0]) == PlaceIn(routes)(one[1]) && TsKeyOf(one[0]) != TsKeyOf(one[1])
    ensures Join(routes, one, included) != Join(routes, other, included)
  {
    var fns := PlannedTable(routes, handlers, included, one);
    var fns' := PlannedTable(routes, handlers, included, other);
    PlannedPlace(routes, one[0]);
    PlannedPlace(routes, one[1]);
    PlannedName(routes, one[0]);
    PlannedName(routes, one[1]);
    SwappedFns(routes, one, other, fns, fns');
    SwapSorts(FnKey, fns, fns');
  }

  /** Two handlers mounted at one path and method: swapping their descriptions swaps their functions. */
  lemma {:induction false} SwappedDescriptionsShow(verb: string, path: string, included: Registration -> bool)
    ensures var routes := [Registration("a", verb, path, []), Registration("b", verb, path, [])];
      var x, y := Handler("a", "a", [], NoContent), Handler("b", "b", [], NoContent);
      && Join(routes, [x, y], included).Ok? && Join(routes, [y, x], included).Ok?
      && Join(routes, [x, y], included) != Join(routes, [y, x], included)
  {
    var r, q := Registration("a", verb, path, []), Registration("b", verb, path, []);
    var x, y := Handler("a", "a", [], NoContent), Handler("b", "b", [], NoContent);
    TwoJoin(r, q, x, y, included);
    SwappedPair(x, y);
    SharedPlace([r, q], [x, y], included, [x, y], [y, x]);
    OrderNeverDecides([r, q], [x, y], included, [r, q], [y, x]);
    JoinSucceedsExactly([r, q], [x, y], included);
  }

  lemma SwappedPair<T(!new)>(x: T, y: T)
    ensures multiset([x, y]) == multiset([y, x]) && [x, y][2..] == [y, x][2..]
  {
  }

  lemma TwoJoin(r: Registration, q: Registration, x: Handler, y: Handler, included: Registration -> bool)
    requires r.fqname == x.fqname == x.name == "a" && q.fqname == y.fqname == y.name == "b"
    requires r.pathParams == q.pathParams == [] && x.args == y.args == [] && x.response == y.response == NoContent
    requires RouteKey(r) == RouteKey(q)
    ensures Joinable([r, q], [x, y], included)
    ensures PlaceIn([r, q])(x) == PlaceIn([r, q])(y) && TsKeyOf(x) != TsKeyOf(y)
  {
    var routes, handlers := [r, q], [x, y];
    assert routes[1..] == [q];
    assert RouteOf(routes, "a") == Some(r) && RouteOf(routes, "b") == RouteOf(routes[1..], "b") == Some(q);
    assert Plan(r, x).Ok? && Plan(q, y).Ok?;
    assert x in handlers && y in handlers && x.fqname in Described(handlers) && y.fqname in Described(handlers);
    assert CamelFrom("a", false) == "a" && CamelFrom("b", false) == "b";
  }

  lemma SwappedFns(routes: seq<Registration>, one: seq<Handler>, other: seq<Handler>, fns: seq<Fn>, fns': seq<Fn>)
    requires |one| == |other| == |fns| == |fns'| >= 2
    requires one[0] == other[1] && one[1] == other[0] && one[2..] == other[2..]
    requires forall k | 0 <= k < |one| :: Planned(routes, one[k]) == Ok(fns[k])
    requires forall k | 0 <= k < |other| :: Planned(routes, other[k]) == Ok(fns'[k])
    ensures fns[0] == fns'[1] && fns[1] == fns'[0] && fns[2..] == fns'[2..]
  {
    forall k | 2 <= k < |one| ensures fns[k] == fns'[k] {
      assert one[k] == one[2..][k - 2] == other[2..][k - 2] == other[k];
    }
  }

  /** The functions of a reordered table, as they were planned. */
  lemma PlannedTable(routes: seq<Registration>, handlers: seq<Handler>, included: Registration -> bool,
                     table: seq<Handler>) returns (planned: seq<Fn>)
    requires Joinable(routes, handlers, included) && multiset(handlers) == multiset(table)
    ensures |planned| == |table| && forall k | 0 <= k < |table| :: Planned(routes, table[k]) == Ok(planned[k])
    ensures Join(routes, table, included).Ok? && Join(routes, table, included).value.fns == Sort(FnKey, planned)
  {
    JoinableReordered(routes, handlers, included, routes, table);
    JoinSucceedsExactly(routes, table, included);
    MountExactly(routes, map[]);
    PlansOf(routes, table);
    planned := PlanAll(Mount(routes, map[]).value, table).value;
  }
}
