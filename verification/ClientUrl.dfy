/** The TypeScript expression the generator emits for a route's URL, its value for given arguments,
    and that value read back through the route. */
module ClientUrl {
  import opened Wrappers
  import opened Texts
  import opened Templates
  import PercentCoding

  type Args = map<string, string>

  // ----- the emitted expression --------------------------------------------------------------

  const CALL: string := ['$', '{', 'e', 'n', 'c', '(']
  const RETURN: string := [')', '}']

  function Call(name: string): string { CALL + name + RETURN }

  function Emit(seg: string): string {
    match Placeholder(seg)
    case None => seg
    case Some(name) => Call(name)
  }

  function EmitAll(segs: seq<string>): seq<string> {
    seq(|segs|, i requires 0 <= i < |segs| => Emit(segs[i]))
  }

  predicate AnyPlaceholder(segs: seq<string>) { exists i | 0 <= i < |segs| :: Placeholder(segs[i]).Some? }

  function Quote(mark: char, text: string): string { [mark] + text + [mark] }

  /** A template literal when there is anything to fill in, and a string literal otherwise. */
  function UrlText(path: string): string {
    var segs := Split(path, '/');
    Quote(if AnyPlaceholder(segs) then '`' else '\"', Join(EmitAll(segs), ['/']))
  }

  lemma OneMoreSegment(segs: seq<string>, i: nat)
    requires i < |segs|
    ensures EmitAll(segs[..i + 1]) == EmitAll(segs[..i]) + [Emit(segs[i])]
    ensures AnyPlaceholder(segs[..i + 1]) <==> AnyPlaceholder(segs[..i]) || Placeholder(segs[i]).Some?
  {
    var now, before := segs[..i + 1], segs[..i];
    assert now == before + [segs[i]];
    if AnyPlaceholder(before) {
      var j :| 0 <= j < i && Placeholder(before[j]).Some?;
      assert now[j] == before[j];
    }
    if Placeholder(segs[i]).Some? { assert now[i] == segs[i]; }
  }

  method EmitUrl(path: string) returns (url: string)
    ensures url == UrlText(path)
  {
    var isTemplate, pieces, segs := false, [], Split(path, '/');
    for i := 0 to |segs|
      invariant pieces == EmitAll(segs[..i])
      invariant isTemplate == AnyPlaceholder(segs[..i])
    {
      OneMoreSegment(segs, i);
      match Placeholder(segs[i]) {
        case Some(name) =>
          isTemplate := true;
          pieces := pieces + [CALL + name + RETURN];
        case None =>
          pieces := pieces + [segs[i]];
      }
    }
    assert segs[..|segs|] == segs;
    var text := Join(pieces, ['/']);
    if isTemplate { url := ['`'] + text + ['`']; } else { url := ['\"'] + text + ['\"']; }
  }

  // ----- its value ---------------------------------------------------------------------------

  /** The characters a template literal, and a string literal, keeps as they are; the others end it,
      begin an escape, or are replaced. */
  predicate TemplateChar(c: char) { c !in ['`', '\\', '\r'] }

  predicate QuotedChar(c: char) { c !in ['\"', '\\', '\n', '\r'] }

  predicate Plain(keeps: char -> bool, s: string) { forall i | 0 <= i < |s| :: keeps(s[i]) }

  function Prefixed(c: string, value: Option<string>): Option<string> {
    match value
    case None => None
    case Some(rest) => Some(c + rest)
  }

  const OPEN: string := ['$', '{']
  /** The name the module gives the encoder, until a parameter of the function takes it. */
  const ENC: string := "enc"

  /** What stands between backticks, evaluated in a function whose parameters are `args`: text that
      stands for itself, and calls of the encoder on a parameter. Anything else is no value the route
      asks for: an escape, another expression, or a call of a parameter that hides the encoder. */
  function Fill(s: string, args: Args): Option<string>
    decreases |s|
  {
    if s == "" then Some("")
    else if CALL <= s then
      match Find(s[6..], ')')
      case None => None
      case Some(close) =>
        var name, after := s[6..][..close], s[6..][close..];
        if ENC in args || |after| < 2 || after[1] != '}' || name !in args then None
        else Prefixed(PercentCoding.Encode(args[name]), Fill(after[2..], args))
    else if OPEN <= s then None
    else if TemplateChar(s[0]) then Prefixed([s[0]], Fill(s[1..], args))
    else None
  }

  function Evaluate(expr: string, args: Args): Option<string> {
    match (Between(expr, '`', '`'), Between(expr, '\"', '\"'))
    case (Some(inner), _) => Fill(inner, args)
    case (None, Some(inner)) => if Plain(QuotedChar, inner) then Some(inner) else None
    case (None, None) => None
  }

  // ----- the route's reading of a URL --------------------------------------------------------

  /** The literal a segment stands for: the router's doubled braces are single ones. */
  function Unescape(seg: string): (s: string)
    ensures |s| <= |seg|
    decreases |seg|
  {
    if |seg| >= 2 && seg[0] == seg[1] && (seg[0] == '{' || seg[0] == '}') then [seg[0]] + Unescape(seg[2..])
    else if seg == "" then ""
    else [seg[0]] + Unescape(seg[1..])
  }

  predicate Doubled(seg: string) {
    exists i | 0 <= i < |seg| - 1 :: seg[i] == seg[i + 1] && (seg[i] == '{' || seg[i] == '}')
  }

  lemma {:induction false} UnescapeChangesDoubled(seg: string)
    ensures Unescape(seg) == seg <==> !Doubled(seg)
    ensures Doubled(seg) ==> |Unescape(seg)| < |seg|
    decreases |seg|
  {
    if |seg| >= 2 && seg[0] == seg[1] && (seg[0] == '{' || seg[0] == '}') {
      assert |Unescape(seg)| < |seg|;
      assert Doubled(seg);
    } else if seg != "" {
      UnescapeChangesDoubled(seg[1..]);
      var rest := seg[1..];
      if Doubled(rest) {
        var i :| 0 <= i < |rest| - 1 && rest[i] == rest[i + 1] && (rest[i] == '{' || rest[i] == '}');
        assert seg[i + 1] == seg[i + 2];
      }
      if Doubled(seg) {
        var i :| 0 <= i < |seg| - 1 && seg[i] == seg[i + 1] && (seg[i] == '{' || seg[i] == '}');
        assert i != 0 && rest[i - 1] == rest[i];
      }
      if !Doubled(seg) { assert [seg[0]] + rest == seg; }
    }
  }

  /** The parameters' values, segment by segment; `None` when the URL is not the route's. */
  function ReadSegments(segs: seq<string>, parts: seq<string>): Option<seq<string>> {
    if segs == [] && parts == [] then Some([])
    else if segs == [] || parts == [] then None
    else
      match (Param(segs[0]), ReadSegments(segs[1..], parts[1..]))
      case (_, None) => None
      case (None, Some(rest)) => if parts[0] == Unescape(segs[0]) then Some(rest) else None
      case (Some(_), Some(rest)) =>
        match PercentCoding.Decode(parts[0])
        case None => None
        case Some(value) => Some([value] + rest)
  }

  function ReadBack(path: string, url: string): Option<seq<string>> {
    ReadSegments(Split(path, '/'), Split(url, '/'))
  }

  // ----- the round trip ----------------------------------------------------------------------

  /** A `${` in a literal, which would open an expression. */
  predicate Opens(seg: string) { exists i | 0 <= i < |seg| - 1 :: seg[i] == '$' && seg[i + 1] == '{' }

  /** A segment of a route: one parameter with a usable name, or a literal. */
  predicate Sound(seg: string) {
    match Param(seg)
    case Some(name) => IsName(name)
    case None => Placeholder(seg).None? && !Opens(seg)
  }

  predicate Bound(segs: seq<string>, args: Args) {
    forall i | 0 <= i < |segs| :: Sound(segs[i]) && (Param(segs[i]).Some? ==> Param(segs[i]).value in args)
  }

  /** A literal that the kind of string it stands in keeps as it is. */
  predicate Kept(template: bool, seg: string) {
    Param(seg).Some? || Plain(if template then TemplateChar else QuotedChar, seg)
  }

  /** What a caller can check of a route before its URL is built: every literal is kept by the kind of
      string that the URL becomes. */
  predicate AllKept(segs: seq<string>) { forall seg | seg in segs :: Kept(AnyPlaceholder(segs), seg) }

  function Part(seg: string, args: Args): string {
    match Param(seg)
    case Some(name) => if name in args then PercentCoding.Encode(args[name]) else ""
    case None => seg
  }

  function Parts(segs: seq<string>, args: Args): seq<string> {
    seq(|segs|, i requires 0 <= i < |segs| => Part(segs[i], args))
  }

  /** The arguments of a route's parameters, in template order. */
  function Values(names: seq<string>, args: Args): seq<string> {
    seq(|names|, i requires 0 <= i < |names| => if names[i] in args then args[names[i]] else "")
  }

  /** Behind a literal stands a slash or nothing, so that a dollar at its end opens nothing. */
  predicate Closed(rest: string) { rest == "" || rest[0] != '{' }

  lemma {:induction false} FillText(text: string, rest: string, args: Args)
    requires !Opens(text) && Closed(rest)
    ensures Fill(text + rest, args) == if Plain(TemplateChar, text) then Prefixed(text, Fill(rest, args)) else None
  {
    if text == "" {
      assert text + rest == rest;
      PrefixedNothing(Fill(rest, args));
    } else {
      var tail := text[1..];
      assert (text + rest)[1..] == tail + rest;
      TextOpensNothing(text, rest);
      TailIsText(text);
      FillText(tail, rest, args);
      PrefixedTwice([text[0]], tail, Fill(rest, args));
      assert [text[0]] + tail == text;
    }
  }

  lemma PrefixedNothing(value: Option<string>)
    ensures Prefixed("", value) == value
  {
    if value.Some? { assert "" + value.value == value.value; }
  }

  lemma PrefixedTwice(a: string, b: string, value: Option<string>)
    ensures Prefixed(a, Prefixed(b, value)) == Prefixed(a + b, value)
  {
    if value.Some? { Regroup(a, b, value.value); }
  }

  lemma TailIsText(text: string)
    requires text != "" && !Opens(text)
    ensures !Opens(text[1..])
    ensures Plain(TemplateChar, text) <==> TemplateChar(text[0]) && Plain(TemplateChar, text[1..])
  {
    var tail := text[1..];
    assert forall i | 0 <= i < |tail| :: tail[i] == text[i + 1];
    assert forall i | 1 <= i < |text| :: text[i] == tail[i - 1];
  }

  lemma TextOpensNothing(text: string, rest: string)
    requires text != "" && !Opens(text) && Closed(rest)
    ensures !(OPEN <= text + rest) && !(CALL <= text + rest)
  {
    var s := text + rest;
    assert CALL[0] == '$' && CALL[1] == '{';
    if |s| >= 2 { assert s[1] == if |text| >= 2 then text[1] else rest[0]; }
  }

  lemma DropPrefix(a: string, b: string)
    ensures a <= a + b && (a + b)[..|a|] == a && (a + b)[|a|..] == b
  {
  }

  lemma CallParts(name: string, rest: string)
    requires ')' !in name
    ensures var s := Call(name) + rest;
      && CALL <= s && Find(s[6..], ')') == Some(|name|) && s[6..][..|name|] == name
      && s[6..][|name|..] == RETURN + rest
  {
    var behind := name + (RETURN + rest);
    Regroup(CALL + name, RETURN, rest);
    Regroup(CALL, name, RETURN + rest);
    DropPrefix(CALL, behind);
    DropPrefix(name, RETURN + rest);
    FindAfter(name, ')', ['}'] + rest);
    assert name + [')'] + (['}'] + rest) == behind;
  }

  lemma FillCall(name: string, rest: string, args: Args)
    requires IsName(name) && name in args
    ensures Fill(Call(name) + rest, args) ==
            if ENC in args then None else Prefixed(PercentCoding.Encode(args[name]), Fill(rest, args))
  {
    assert ')' !in name;
    CallParts(name, rest);
    DropPrefix(RETURN, rest);
  }

  /** Whether a segment's own text has the value the route asks for. */
  predicate Says(seg: string, args: Args) { Kept(true, seg) && (Param(seg).Some? ==> ENC !in args) }

  lemma FillSegment(seg: string, rest: string, args: Args)
    requires Bound([seg], args) && Closed(rest)
    ensures Fill(Emit(seg) + rest, args) ==
            if Says(seg, args) then Prefixed(Part(seg, args), Fill(rest, args)) else None
  {
    assert [seg][0] == seg;
    match Param(seg)
    case Some(name) => FillCall(name, rest, args);
    case None => FillText(seg, rest, args);
  }

  lemma FillSlash(rest: string, args: Args)
    ensures Fill(['/'] + rest, args) == Prefixed(['/'], Fill(rest, args))
  {
    assert (['/'] + rest)[1..] == rest && CALL[0] == '$';
  }

  lemma Regroup(a: string, b: string, c: string)
    ensures a + b + c == a + (b + c)
  {
  }

  lemma FillFirst(seg: string, rest: string, args: Args)
    requires Bound([seg], args)
    ensures Fill(Emit(seg) + ['/'] + rest, args) ==
            if Says(seg, args) then Prefixed(Part(seg, args) + ['/'], Fill(rest, args)) else None
  {
    FillSlash(rest, args);
    FillSegment(seg, ['/'] + rest, args);
    Regroup(Emit(seg), ['/'], rest);
    if Fill(rest, args).Some? { Regroup(Part(seg, args), ['/'], Fill(rest, args).value); }
  }

  lemma FillLast(seg: string, args: Args)
    requires Bound([seg], args)
    ensures Fill(Emit(seg), args) == if Says(seg, args) then Some(Part(seg, args)) else None
  {
    FillSegment(seg, "", args);
    assert Emit(seg) + "" == Emit(seg) && Part(seg, args) + "" == Part(seg, args);
  }

  predicate AllSay(segs: seq<string>, args: Args) { forall i | 0 <= i < |segs| :: Says(segs[i], args) }

  lemma {:induction false} FillAll(segs: seq<string>, args: Args)
    requires segs != [] && Bound(segs, args)
    ensures Fill(Join(EmitAll(segs), ['/']), args) ==
            if AllSay(segs, args) then Some(Join(Parts(segs, args), ['/'])) else None
  {
    assert Bound([segs[0]], args);
    if |segs| == 1 {
      FillLast(segs[0], args);
    } else {
      var rest := segs[1..];
      assert EmitAll(segs)[1..] == EmitAll(rest) && Parts(segs, args)[1..] == Parts(rest, args);
      assert AllSay(segs, args) <==> Says(segs[0], args) && AllSay(rest, args) by {
        assert forall i | 1 <= i < |segs| :: segs[i] == rest[i - 1];
      }
      FillAll(rest, args);
      FillFirst(segs[0], Join(EmitAll(rest), ['/']), args);
    }
  }

  lemma {:induction false} QuotedJoin(segs: seq<string>)
    ensures Plain(QuotedChar, Join(segs, ['/'])) <==> forall i | 0 <= i < |segs| :: Plain(QuotedChar, segs[i])
  {
    if |segs| > 1 {
      var first, rest := segs[0], segs[1..];
      QuotedJoin(rest);
      QuotedConcat(first, ['/'] + Join(rest, ['/']));
      QuotedConcat(['/'], Join(rest, ['/']));
      Regroup(first, ['/'], Join(rest, ['/']));
      assert forall i | 1 <= i < |segs| :: segs[i] == rest[i - 1];
    }
  }

  lemma QuotedConcat(a: string, b: string)
    ensures Plain(QuotedChar, a + b) <==> Plain(QuotedChar, a) && Plain(QuotedChar, b)
  {
    assert forall i | 0 <= i < |a| :: (a + b)[i] == a[i];
    assert forall i | 0 <= i < |b| :: (a + b)[|a| + i] == b[i];
    assert forall i | |a| <= i < |a + b| :: (a + b)[i] == b[i - |a|];
  }

  /** The function takes nothing called `enc`, or its URL calls no encoder. */
  predicate EncoderInScope(path: string, args: Args) { PathParams(path) == [] || ENC !in args }

  lemma {:induction false} ParamsOfSound(segs: seq<string>, args: Args)
    requires Bound(segs, args)
    ensures AnyPlaceholder(segs) <==> FilterMap(Param, segs) != []
    ensures FilterMap(Param, segs) != [] <==> exists i | 0 <= i < |segs| :: Param(segs[i]).Some?
  {
    if segs != [] {
      var rest := segs[1..];
      ParamsOfSound(rest, args);
      assert forall i | 1 <= i < |segs| :: segs[i] == rest[i - 1];
      assert forall i | 0 <= i < |rest| :: rest[i] == segs[i + 1];
      assert Placeholder(segs[0]).Some? <==> Param(segs[0]).Some?;
      if Param(segs[0]).None? { assert AnyPlaceholder(segs) <==> AnyPlaceholder(rest); }
    }
  }

  /** The emitted expression has the value the route asks for, the template with each parameter segment
      replaced by its encoded argument, exactly when the literals are kept and the encoder is not
      hidden; a backtick, say, breaks the URL exactly of a route with a parameter. */
  lemma UrlValue(path: string, args: Args)
    requires Bound(Split(path, '/'), args)
    ensures Evaluate(UrlText(path), args) ==
            if AllKept(Split(path, '/')) && EncoderInScope(path, args)
            then Some(Join(Parts(Split(path, '/'), args), ['/'])) else None
  {
    var segs := Split(path, '/');
    var text, url := Join(EmitAll(segs), ['/']), UrlText(path);
    assert url[1..|url| - 1] == text;
    ParamsOfSound(segs, args);
    if AnyPlaceholder(segs) {
      FillAll(segs, args);
      KeptMeansSaid(segs, args);
    } else {
      forall i | 0 <= i < |segs| ensures Placeholder(segs[i]).None? && Param(segs[i]).None? {}
      assert EmitAll(segs) == segs && Parts(segs, args) == segs;
      QuotedJoin(segs);
      LiteralsKept(segs);
    }
  }

  lemma LiteralsKept(segs: seq<string>)
    requires !AnyPlaceholder(segs) && forall i | 0 <= i < |segs| :: Param(segs[i]).None?
    ensures AllKept(segs) <==> forall i | 0 <= i < |segs| :: Plain(QuotedChar, segs[i])
  {
    if AllKept(segs) {
      forall i | 0 <= i < |segs| ensures Plain(QuotedChar, segs[i]) { assert Kept(false, segs[i]); }
    }
  }

  lemma KeptMeansSaid(segs: seq<string>, args: Args)
    requires Bound(segs, args) && AnyPlaceholder(segs) && exists i | 0 <= i < |segs| :: Param(segs[i]).Some?
    ensures AllSay(segs, args) <==> AllKept(segs) && ENC !in args
  {
    if AllSay(segs, args) {
      forall seg | seg in segs ensures Kept(true, seg) {
        var i :| 0 <= i < |segs| && segs[i] == seg;
        assert Says(segs[i], args);
      }
      var i :| 0 <= i < |segs| && Param(segs[i]).Some?;
      assert Says(segs[i], args);
    }
    if AllKept(segs) && ENC !in args {
      forall i | 0 <= i < |segs| ensures Says(segs[i], args) { assert segs[i] in segs; }
    }
  }

  lemma PartIsWhole(seg: string, args: Args)
    requires '/' !in seg
    ensures '/' !in Part(seg, args)
  {
    match Param(seg)
    case None =>
    case Some(name) => if name in args { PercentCoding.EncodedIsSafe(args[name]); }
  }

  lemma PartsAreWhole(segs: seq<string>, args: Args)
    requires forall seg | seg in segs :: '/' !in seg
    ensures forall part | part in Parts(segs, args) :: '/' !in part
  {
    forall i | 0 <= i < |segs| ensures '/' !in Parts(segs, args)[i] {
      assert segs[i] in segs;
      PartIsWhole(segs[i], args);
    }
  }

  /** A literal with a doubled brace, which the generator copies and the router reads as a single
      one. */
  predicate Escaping(seg: string) { Param(seg).None? && Doubled(seg) }

  lemma LiteralReadBack(seg: string, segs: seq<string>, parts: seq<string>)
    requires Param(seg).None?
    ensures ReadSegments([seg] + segs, [seg] + parts) == if Doubled(seg) then None else ReadSegments(segs, parts)
  {
    UnescapeChangesDoubled(seg);
    assert ([seg] + segs)[1..] == segs && ([seg] + parts)[1..] == parts;
  }

  lemma ParamReadBack(seg: string, value: string, segs: seq<string>, parts: seq<string>)
    requires Param(seg).Some?
    ensures ReadSegments([seg] + segs, [PercentCoding.Encode(value)] + parts) ==
            match ReadSegments(segs, parts) case None => None case Some(rest) => Some([value] + rest)
  {
    PercentCoding.DecodeEncode(value);
    assert ([seg] + segs)[1..] == segs && ([PercentCoding.Encode(value)] + parts)[1..] == parts;
  }

  lemma FirstValue(seg: string, segs: seq<string>, args: Args)
    ensures Values(FilterMap(Param, [seg] + segs), args) ==
            match Param(seg)
            case None => Values(FilterMap(Param, segs), args)
            case Some(name) => [if name in args then args[name] else ""] + Values(FilterMap(Param, segs), args)
  {
    assert ([seg] + segs)[1..] == segs;
  }

  predicate Escapes(segs: seq<string>) { exists seg | seg in segs :: Escaping(seg) }

  lemma EscapesFirst(seg: string, segs: seq<string>)
    ensures Escapes([seg] + segs) <==> Escaping(seg) || Escapes(segs)
  {
    assert seg in [seg] + segs;
    assert forall other | other in segs :: other in [seg] + segs;
  }

  /** Read through the route, the parts give the arguments back unless a literal is escaped. */
  lemma {:induction false} PartsReadBack(segs: seq<string>, args: Args)
    requires Bound(segs, args)
    ensures ReadSegments(segs, Parts(segs, args)) ==
            if Escapes(segs) then None else Some(Values(FilterMap(Param, segs), args))
  {
    if segs == [] {
      assert Parts(segs, args) == [] && Values([], args) == [];
    } else {
      var first, rest := segs[0], segs[1..];
      PartsReadBack(rest, args);
      assert segs == [first] + rest;
      EscapesFirst(first, rest);
      assert Parts(segs, args) == [Part(first, args)] + Parts(rest, args);
      FirstValue(first, rest, args);
      match Param(first)
      case None => LiteralReadBack(first, rest, Parts(rest, args));
      case Some(name) => ParamReadBack(first, args[name], rest, Parts(rest, args));
    }
  }

  /** No argument is called `enc` but a path parameter: the others are `query` and `body`. */
  predicate ForRoute(path: string, args: Args) { ENC in args ==> ENC in PathParams(path) }

  /** What can be checked of a route: its URL is built from it as the route reads it. */
  predicate Invertible(path: string) {
    ENC !in PathParams(path) && AllKept(Split(path, '/')) && !Escapes(Split(path, '/'))
  }

  /** For every route and all argument values, there is a URL that, split on `/` and read through the
      route, gives the arguments back in template order, exactly when no parameter is called `enc`,
      every literal is kept by the string it stands in, and none holds a doubled brace. */
  lemma UrlInvertsRoute(path: string, args: Args)
    requires Bound(Split(path, '/'), args) && ForRoute(path, args)
    ensures Evaluate(UrlText(path), args).Some? &&
            ReadBack(path, Evaluate(UrlText(path), args).value) == Some(Values(PathParams(path), args))
            <==> Invertible(path)
  {
    var segs := Split(path, '/');
    UrlValue(path, args);
    JoinSplit(path, '/');
    PartsAreWhole(segs, args);
    SplitJoin(Parts(segs, args), '/');
    PartsReadBack(segs, args);
    ParamsAreBound(segs, args);
  }

  lemma {:induction false} ParamsAreBound(segs: seq<string>, args: Args)
    requires Bound(segs, args)
    ensures forall name | name in FilterMap(Param, segs) :: name in args
  {
    if segs != [] {
      assert forall i | 0 <= i < |segs[1..]| :: segs[1..][i] == segs[i + 1];
      ParamsAreBound(segs[1..], args);
    }
  }

  /** Different arguments build different URLs. */
  lemma {:induction false} UrlIsInjective(path: string, args: Args, others: Args)
    requires Bound(Split(path, '/'), args) && Bound(Split(path, '/'), others)
    requires ForRoute(path, args) && ForRoute(path, others) && Invertible(path)
    requires Evaluate(UrlText(path), args) == Evaluate(UrlText(path), others)
    ensures Values(PathParams(path), args) == Values(PathParams(path), others)
  {
    UrlInvertsRoute(path, args);
    UrlInvertsRoute(path, others);
  }

  // ----- dot segments, section 5.2.4 of RFC 3986 -----------------------------------------------

  /** One dot or two, each as it is or escaped, as the WHATWG URL Standard reads them. */
  predicate IsDot(seg: string) { PercentCoding.Decode(seg) == Some(".") }
  predicate IsDotDot(seg: string) { PercentCoding.Decode(seg) == Some("..") }
  predicate IsDots(seg: string) { IsDot(seg) || IsDotDot(seg) }

  predicate AnyDots(segs: seq<string>) { exists i | 0 <= i < |segs| :: IsDots(segs[i]) }

  /** What a browser makes of a path's segments behind those already kept; the first is the empty one
      before the root's slash. */
  function RemoveDots(segs: seq<string>, out: seq<string>): seq<string>
    decreases |segs|
  {
    if segs == [] then out
    else
      var left := if IsDotDot(segs[0]) && |out| > 1 then out[..|out| - 1] else out;
      if !IsDots(segs[0]) then RemoveDots(segs[1..], out + [segs[0]])
      else if |segs| == 1 then left + [""]
      else RemoveDots(segs[1..], left)
  }

  lemma {:induction false} NoDotsLeft(segs: seq<string>, out: seq<string>)
    requires !AnyDots(out)
    ensures !AnyDots(RemoveDots(segs, out))
    ensures !AnyDots(segs) ==> RemoveDots(segs, out) == out + segs
    decreases |segs|
  {
    if segs == [] {
      assert out + segs == out;
    } else {
      var rest := segs[1..];
      assert AnyDots(segs) <==> IsDots(segs[0]) || AnyDots(rest) by {
        assert forall i | 1 <= i < |segs| :: segs[i] == rest[i - 1];
        assert forall i | 0 <= i < |rest| :: rest[i] == segs[i + 1];
      }
      if !IsDots(segs[0]) {
        NoDotsLeft(rest, out + [segs[0]]);
        assert out + [segs[0]] + rest == out + segs;
      } else if |segs| > 1 {
        NoDotsLeft(rest, if IsDotDot(segs[0]) && |out| > 1 then out[..|out| - 1] else out);
      }
    }
  }

  lemma KeptWithoutDots(segs: seq<string>)
    ensures RemoveDots(segs, []) == segs <==> !AnyDots(segs)
  {
    var none: seq<string> := [];
    NoDotsLeft(segs, none);
    assert none + segs == segs;
  }

  /** A segment that the browser resolves away: a literal that is dots, escaped or not, or the
      placeholder of an argument of one dot or two, which the encoder leaves as they are. */
  predicate Vanishes(seg: string, args: Args) {
    match Param(seg)
    case Some(name) => name in args && (args[name] == "." || args[name] == "..")
    case None => IsDots(seg)
  }

  lemma PartDots(seg: string, args: Args)
    ensures IsDots(Part(seg, args)) <==> Vanishes(seg, args)
  {
    if Param(seg).Some? {
      var value := if Param(seg).value in args then args[Param(seg).value] else "";
      PercentCoding.DecodeEncode(value);
      assert Part(seg, args) == PercentCoding.Encode(value);
    }
  }

  /** A built URL is left as it is by the browser that resolves it exactly when no segment vanishes. */
  lemma ResolutionKeepsExactly(segs: seq<string>, args: Args)
    ensures RemoveDots(Parts(segs, args), []) == Parts(segs, args) <==>
            forall i | 0 <= i < |segs| :: !Vanishes(segs[i], args)
  {
    var parts := Parts(segs, args);
    KeptWithoutDots(parts);
    forall i | 0 <= i < |segs| ensures IsDots(parts[i]) <==> Vanishes(segs[i], args) {
      PartDots(segs[i], args);
    }
  }

  // ----- routes that do not come back --------------------------------------------------------

  lemma OneSegmentPath(seg: string)
    requires '/' !in seg
    ensures Split(['/'] + seg, '/') == ["", seg]
    ensures PathParams(['/'] + seg) == if Param(seg).Some? then [Param(seg).value] else []
  {
    ReadAlone(Param, seg);
  }

  lemma JoinTwoParts(part: string)
    ensures Join(["", part], ['/']) == ['/'] + part
  {
    assert ["", part][1..] == [part] && "" + ['/'] + part == ['/'] + part;
  }

  lemma EmitTwo(seg: string)
    ensures EmitAll(["", seg]) == ["", Emit(seg)]
  {
    assert Emit("") == "";
  }

  lemma OneSegmentUrl(seg: string)
    requires '/' !in seg
    ensures AnyPlaceholder(["", seg]) <==> Placeholder(seg).Some?
    ensures UrlText(['/'] + seg) == Quote(if Placeholder(seg).Some? then '`' else '\"', ['/'] + Emit(seg))
  {
    OneSegmentPath(seg);
    EmitTwo(seg);
    JoinTwoParts(Emit(seg));
    assert ["", seg][1] == seg && Placeholder("").None?;
  }

  /** `/{enc}`: the parameter hides the encoder, and the URL calls a string. */
  lemma EncHidesTheEncoder(args: Args)
    requires ENC in args
    ensures var path := ['/'] + Braced(ENC);
      && PathParams(path) == [ENC] && UrlText(path) == Quote('`', ['/'] + Call(ENC))
      && Bound(Split(path, '/'), args) && Evaluate(UrlText(path), args).None?
  {
    var seg := Parameter(ENC, None);
    MountedParam(seg);
    NameIsItsTrim(ENC);
    OneSegmentPath(Braced(ENC));
    OneSegmentUrl(Braced(ENC));
    assert Bound(["", Braced(ENC)], args);
    UrlValue(['/'] + Braced(ENC), args);
  }

  lemma ParameterAlone(name: string, args: Args)
    requires IsName(name) && name in args && ENC !in args
    ensures var path := ['/'] + Braced(name);
      && PathParams(path) == [name] && Bound(Split(path, '/'), args)
      && Evaluate(UrlText(path), args) == Some(['/'] + PercentCoding.Encode(args[name]))
  {
    MountedParam(Parameter(name, None));
    NameIsItsTrim(name);
    var segs := ["", Braced(name)];
    OneSegmentPath(Braced(name));
    OneSegmentUrl(Braced(name));
    assert Param("").None? && Bound(segs, args) && AllKept(segs);
    UrlValue(['/'] + Braced(name), args);
    assert Parts(segs, args) == ["", PercentCoding.Encode(args[name])];
    JoinTwoParts(PercentCoding.Encode(args[name]));
  }

  lemma TwoDotsStay()
    ensures PercentCoding.Encode("..") == ".."
    ensures RemoveDots(["", ".."], []) == ["", ""]
  {
    assert ".."[1..] == "." && "."[1..] == "";
    PercentCoding.DecodeEncode("..");
    PercentCoding.DecodeEncode("");
    var last: seq<string> := [".."];
    assert ["", ".."][1..] == last && [] + [""] == [""];
  }

  /** `/{name}` with two dots for its argument: the URL is `/..`, and the browser asks for `/`. */
  lemma TwoDotsGoUp(name: string, args: Args)
    requires IsName(name) && name in args && args[name] == ".." && ENC !in args
    ensures var path := ['/'] + Braced(name);
      && PathParams(path) == [name] && Bound(Split(path, '/'), args)
      && Evaluate(UrlText(path), args) == Some(['/'] + "..")
    ensures Split(['/'] + "..", '/') == ["", ".."] && RemoveDots(["", ".."], []) == ["", ""]
  {
    ParameterAlone(name, args);
    TwoDotsStay();
    OneSegmentPath("..");
  }

  lemma LiteralAlone(seg: string, args: Args)
    requires '/' !in seg && Param(seg).None? && Placeholder(seg).None? && !Opens(seg) && Plain(QuotedChar, seg)
    ensures Bound(["", seg], args) && Evaluate(UrlText(['/'] + seg), args) == Some(['/'] + seg)
  {
    OneSegmentPath(seg);
    OneSegmentUrl(seg);
    assert Bound(["", seg], args);
    LiteralsKept(["", seg]);
    UrlValue(['/'] + seg, args);
    assert Parts(["", seg], args) == ["", seg];
    JoinSplit(['/'] + seg, '/');
  }

  /** `/{{x}}`: the URL keeps the doubled braces that the router reads as single ones. */
  lemma DoubledBraceDoesNotComeBack(name: string, args: Args)
    requires IsName(name)
    ensures var path := ['/'] + Braced(Braced(name));
      && Bound(Split(path, '/'), args) && Evaluate(UrlText(path), args) == Some(path) && ReadBack(path, path).None?
  {
    var seg := Braced(Braced(name));
    DoubledLiteral(name);
    LiteralAlone(seg, args);
    OneSegmentPath(seg);
    assert Parts(["", seg], args) == ["", seg];
    PartsReadBack(["", seg], args);
    assert Escaping(["", seg][1]) && seg in ["", seg];
  }

  lemma DoubledLiteral(name: string)
    requires IsName(name)
    ensures var seg := Braced(Braced(name));
      && Param(seg).None? && Placeholder(seg).None? && Doubled(seg) && !Opens(seg) && Plain(QuotedChar, seg)
      && '/' !in seg
  {
    var seg := Braced(Braced(name));
    assert Between(seg, '{', '}') == Some(Braced(name)) && seg[0] == seg[1] == '{';
    forall i | 0 <= i < |seg| ensures seg[i] == '{' || seg[i] == '}' || IsWord(seg[i]) {
      if 2 <= i < |seg| - 2 { assert seg[i] == name[i - 2]; }
    }
  }
}
