/** Route templates and the three readers of their `{name}` segments: the route table's, the
    `#[client(path = …)]` attribute's, and the one that turns them into URL placeholders. */
module Templates {
  import opened Wrappers
  import opened Texts

  // ----- the route table's reader ------------------------------------------------------------

  /** The parameter a segment names for the route table. */
  function Param(seg: string): Option<string> {
    match Between(seg, '{', '}')
    case None => None
    case Some(inner) =>
      if inner == "" || inner[0] == '{' || inner[|inner| - 1] == '}' then None
      else Some(TrimStartOf(inner, '*'))
  }

  /** The placeholder a segment becomes in the emitted URL: only the doubled opening brace is told
      apart here. */
  function Placeholder(seg: string): Option<string> {
    match Between(seg, '{', '}')
    case None => None
    case Some(inner) => if inner != "" && inner[0] == '{' then None else Some(TrimStartOf(inner, '*'))
  }

  function FilterMap(read: string -> Option<string>, segs: seq<string>): seq<string> {
    if segs == [] then []
    else
      var rest := FilterMap(read, segs[1..]);
      match read(segs[0])
      case None => rest
      case Some(name) => [name] + rest
  }

  function PathParams(path: string): seq<string> { FilterMap(Param, Split(path, '/')) }

  function Placeholders(path: string): seq<string> { FilterMap(Placeholder, Split(path, '/')) }

  /** `{}` and `{…}}`: placeholders that no path parameter stands behind. */
  predicate Stray(seg: string) {
    var inner := Between(seg, '{', '}');
    inner.Some? && (inner.value == "" || (inner.value[0] != '{' && inner.value[|inner.value| - 1] == '}'))
  }

  lemma {:induction false} StrayAreExtra(segs: seq<string>)
    ensures |FilterMap(Param, segs)| <= |FilterMap(Placeholder, segs)|
    ensures FilterMap(Param, segs) == FilterMap(Placeholder, segs) <==> forall seg | seg in segs :: !Stray(seg)
  {
    if segs != [] {
      var first, rest := segs[0], segs[1..];
      StrayAreExtra(rest);
      assert segs == [first] + rest;
      if Param(first).Some? {
        assert FilterMap(Param, segs)[1..] == FilterMap(Param, rest);
        assert FilterMap(Placeholder, segs)[1..] == FilterMap(Placeholder, rest);
      } else if Placeholder(first).Some? {
        assert first in segs && Stray(first);
      }
    }
  }

  /** The emitted URL's placeholders are the path parameters, in template order, exactly for the
      templates with no stray segment. */
  lemma PlaceholdersAreParamsExactly(path: string)
    ensures Placeholders(path) == PathParams(path) <==> forall seg | seg in Split(path, '/') :: !Stray(seg)
  {
    StrayAreExtra(Split(path, '/'));
  }

  lemma ReadAlone(read: string -> Option<string>, seg: string)
    requires '/' !in seg && read("").None?
    ensures Split(['/'] + seg, '/') == ["", seg]
    ensures FilterMap(read, ["", seg]) == if read(seg).Some? then [read(seg).value] else []
  {
    SplitWhole(seg, '/');
    assert (['/'] + seg)[1..] == seg;
    var last: seq<string> := [seg];
    assert ["", seg][1..] == last && last[1..] == [];
    assert FilterMap(read, last) == if read(seg).Some? then [read(seg).value] else [];
  }

  lemma StrayAlone(seg: string)
    requires '/' !in seg && Stray(seg)
    ensures Placeholders(['/'] + seg) == [TrimStartOf(seg[1..|seg| - 1], '*')] && PathParams(['/'] + seg) == []
  {
    ReadAlone(Param, seg);
    ReadAlone(Placeholder, seg);
  }

  /** `/{}`, and `/{a}}` for any name: what the URL fills in, no path parameter names. */
  lemma StrayPlaceholders(name: string)
    requires IsName(name)
    ensures Placeholders(['/'] + "{}") == [""] && PathParams(['/'] + "{}") == []
    ensures var path := ['/'] + (['{'] + name + ['}', '}']);
      Placeholders(path) == [name + ['}']] && PathParams(path) == []
  {
    StrayAlone("{}");
    var seg := ['{'] + name + ['}', '}'];
    assert seg[1..|seg| - 1] == name + ['}'];
    forall i | 0 <= i < |seg| ensures seg[i] != '/' {
      if 1 <= i <= |name| { assert seg[i] == name[i - 1]; }
    }
    StrayAlone(seg);
  }

  /** A wildcard's star is not of its name. */
  lemma WildcardIsNamed(name: string)
    requires IsName(name)
    ensures var seg := ['{', '*'] + name + ['}']; Param(seg) == Placeholder(seg) == Some(name)
  {
    var seg := ['{', '*'] + name + ['}'];
    assert seg[1..|seg| - 1] == ['*'] + name && (['*'] + name)[1..] == name;
    NameIsItsTrim(name);
    assert IsWord(name[|name| - 1]) && TrimStartOf(['*'] + name, '*') == TrimStartOf(name, '*');
  }

  // ----- the attribute's reader --------------------------------------------------------------

  datatype Refusal = Unclosed | Unusable(body: string) | Undeclarable(ts: string) | Twice(name: string)

  type Declaration = seq<(string, string)>

  const DECLARABLE: seq<string> := ["string", "number", "boolean", "bigint"]

  predicate IsName(s: string) {
    s != "" && !IsDigit(s[0]) && forall i | 0 <= i < |s| :: IsWord(s[i])
  }

  /** What stands between two braces: a name, or a name and a TypeScript type. */
  function Entry(body: string): Result<(string, string), Refusal> {
    var (name, ts) :=
      match SplitOnce(body, ':')
      case None => (Trim(body), "string")
      case Some((n, t)) => (Trim(n), Trim(t));
    if !IsName(name) then Err(Unusable(body))
    else if ts !in DECLARABLE then Err(Undeclarable(ts))
    else Ok((name, ts))
  }

  function NamesOf(out: Declaration): (names: seq<string>)
    ensures |names| == |out| && forall i | 0 <= i < |out| :: names[i] == out[i].0
  {
    seq(|out|, i requires 0 <= i < |out| => out[i].0)
  }

  lemma NamesAppend(a: Declaration, b: Declaration)
    ensures NamesOf(a + b) == NamesOf(a) + NamesOf(b)
  {
  }

  /** One group, from behind its opening brace: what it adds, and where reading goes on. */
  function Group(after: string, out: Declaration): (r: Result<(Declaration, string), Refusal>)
    ensures r.Ok? ==> |r.value.1| < |after|
  {
    match Find(after, '}')
    case None => Err(Unclosed)
    case Some(close) =>
      match Entry(after[..close])
      case Err(e) => Err(e)
      case Ok(pair) =>
        if pair.0 in NamesOf(out) then Err(Twice(pair.0)) else Ok((out + [pair], after[close + 1..]))
  }

  /** The declaration of a template, read character by character behind what is already found. */
  function Declared(rest: string, out: Declaration): Result<Declaration, Refusal>
    decreases |rest|
  {
    if rest == "" then Ok(out)
    else if rest[0] != '{' then Declared(rest[1..], out)
    else
      match Group(rest[1..], out)
      case Err(e) => Err(e)
      case Ok((more, rest')) => Declared(rest', more)
  }

  lemma {:induction false} SkipToBrace(rest: string, out: Declaration)
    ensures Find(rest, '{').None? ==> Declared(rest, out) == Ok(out)
    ensures Find(rest, '{').Some? ==> Declared(rest, out) == Declared(rest[Find(rest, '{').value..], out)
  {
    if rest != "" && rest[0] != '{' {
      SkipToBrace(rest[1..], out);
      var at := Find(rest[1..], '{');
      if at.Some? { assert rest[1..][at.value..] == rest[at.value + 1..]; }
    }
  }

  method DeclaredParams(template: string) returns (r: Result<Declaration, Refusal>)
    ensures r == Declared(template, [])
  {
    var out, rest := [], template;
    var open := Find(rest, '{');
    SkipToBrace(rest, out);
    while open.Some?
      invariant open == Find(rest, '{')
      invariant open.None? ==> Declared(template, []) == Ok(out)
      invariant open.Some? ==> Declared(template, []) == Declared(rest[open.value..], out)
      decreases |rest|
    {
      var after := rest[open.value + 1..];
      assert rest[open.value..][1..] == after;
      var close := Find(after, '}');
      if close.None? { return Err(Unclosed); }
      var body := after[..close.value];
      rest := after[close.value + 1..];
      var once := SplitOnce(body, ':');
      var name := if once.Some? then Trim(once.value.0) else Trim(body);
      var ts := if once.Some? then Trim(once.value.1) else "string";
      if !IsName(name) { return Err(Unusable(body)); }
      if ts !in DECLARABLE { return Err(Undeclarable(ts)); }
      if name in NamesOf(out) { return Err(Twice(name)); }
      out := out + [(name, ts)];
      open := Find(rest, '{');
      SkipToBrace(rest, out);
    }
    return Ok(out);
  }

  /** The template has this group in braces. */
  ghost predicate HasGroup(template: string, body: string) {
    exists i, j | 0 <= i < j < |template| ::
      template[i] == '{' && template[j] == '}' && template[i + 1..j] == body
  }

  lemma GroupShifts(template: string, n: nat, body: string)
    requires n <= |template| && HasGroup(template[n..], body)
    ensures HasGroup(template, body)
  {
    var rest := template[n..];
    var i, j :| 0 <= i < j < |rest| && rest[i] == '{' && rest[j] == '}' && rest[i + 1..j] == body;
    assert template[n + i] == '{' && template[n + j] == '}' && template[n + i + 1..n + j] == rest[i + 1..j];
  }

  /** An opening brace that nothing closes. */
  ghost predicate LeftOpen(template: string) {
    exists i | 0 <= i < |template| :: template[i] == '{' && '}' !in template[i + 1..]
  }

  lemma OpenShifts(template: string, n: nat)
    requires n <= |template| && LeftOpen(template[n..])
    ensures LeftOpen(template)
  {
    var rest := template[n..];
    var i :| 0 <= i < |rest| && rest[i] == '{' && '}' !in rest[i + 1..];
    assert template[n + i] == '{' && template[n + i + 1..] == rest[i + 1..];
  }

  /** What a group's body declares: the name before its first colon and the type behind it, a string
      without one. */
  predicate Declares(body: string, name: string, ts: string) {
    match SplitOnce(body, ':')
    case None => name == Trim(body) && ts == "string"
    case Some((n, t)) => name == Trim(n) && ts == Trim(t)
  }

  predicate Spellable(ts: string) { ts == "string" || ts == "number" || ts == "boolean" || ts == "bigint" }

  /** Plain names, each once, with types that a declaration may spell. */
  predicate WellDeclared(out: Declaration) {
    && (forall i, j | 0 <= i < j < |out| :: out[i].0 != out[j].0)
    && (forall p | p in out :: IsName(p.0) && Spellable(p.1))
  }

  /** The refusal names its cause: a brace that nothing closes, or a group of the template. */
  ghost predicate Caused(template: string, e: Refusal) {
    match e
    case Unclosed => LeftOpen(template)
    case Unusable(body) => HasGroup(template, body) && exists name, ts :: Declares(body, name, ts) && !IsName(name)
    case Undeclarable(ts) =>
      !Spellable(ts) && exists body, name :: HasGroup(template, body) && Declares(body, name, ts) && IsName(name)
    case Twice(name) => exists body, ts :: HasGroup(template, body) && Declares(body, name, ts) && IsName(name)
  }

  lemma CauseShifts(template: string, n: nat, e: Refusal)
    requires n <= |template| && Caused(template[n..], e)
    ensures Caused(template, e)
  {
    match e
    case Unclosed => OpenShifts(template, n);
    case Unusable(body) => GroupShifts(template, n, body);
    case Undeclarable(ts) =>
      var body, name :| HasGroup(template[n..], body) && Declares(body, name, ts) && IsName(name);
      GroupShifts(template, n, body);
    case Twice(name) =>
      var body, ts :| HasGroup(template[n..], body) && Declares(body, name, ts) && IsName(name);
      GroupShifts(template, n, body);
  }

  lemma EntryMeans(body: string)
    ensures Entry(body).Ok? ==>
              var (name, ts) := Entry(body).value; Declares(body, name, ts) && IsName(name) && Spellable(ts)
    ensures Entry(body).Err? ==>
              exists name, ts :: Declares(body, name, ts) &&
                if IsName(name) then !Spellable(ts) && Entry(body) == Err(Undeclarable(ts))
                else Entry(body) == Err(Unusable(body))
  {
    var (name, ts) :=
      match SplitOnce(body, ':')
      case None => (Trim(body), "string")
      case Some((n, t)) => (Trim(n), Trim(t));
    assert Declares(body, name, ts);
    assert ts in DECLARABLE <==> Spellable(ts);
  }

  lemma GroupMeans(rest: string, out: Declaration)
    requires rest != "" && rest[0] == '{' && WellDeclared(out)
    ensures Group(rest[1..], out).Ok? ==> WellDeclared(Group(rest[1..], out).value.0)
    ensures Group(rest[1..], out).Err? ==> Caused(rest, Group(rest[1..], out).error)
  {
    var after := rest[1..];
    match Find(after, '}')
    case None => assert rest[0] == '{' && '}' !in rest[0 + 1..];
    case Some(close) =>
      var body := after[..close];
      assert rest[close + 1] == '}' && rest[0 + 1..close + 1] == body;
      assert HasGroup(rest, body);
      EntryMeans(body);
      if Entry(body).Ok? {
        var pair := Entry(body).value;
        if pair.0 !in NamesOf(out) { DeclaresOneMore(out, pair); }
      }
  }

  lemma DeclaresOneMore(out: Declaration, pair: (string, string))
    requires WellDeclared(out) && pair.0 !in NamesOf(out) && IsName(pair.0) && Spellable(pair.1)
    ensures WellDeclared(out + [pair])
  {
    forall i | 0 <= i < |out| ensures out[i].0 != pair.0 { assert NamesOf(out)[i] == out[i].0; }
  }

  /** What is accepted is well declared, and a refusal names its cause. */
  ghost predicate Explained(template: string, r: Result<Declaration, Refusal>) {
    match r
    case Ok(found) => WellDeclared(found)
    case Err(e) => Caused(template, e)
  }

  lemma ExplainedBehind(template: string, rest: string, r: Result<Declaration, Refusal>)
    requires |rest| <= |template| && template[|template| - |rest|..] == rest && Explained(rest, r)
    ensures Explained(template, r)
  {
    if r.Err? { CauseShifts(template, |template| - |rest|, r.error); }
  }

  /** What is accepted declares plain names, each once, with types that a declaration may spell, and a
      refusal names its cause. */
  lemma {:induction false} DeclaredMeans(rest: string, out: Declaration, r: Result<Declaration, Refusal>)
    requires WellDeclared(out) && r == Declared(rest, out)
    ensures Explained(rest, r)
    decreases |rest|
  {
    if rest != "" {
      if rest[0] != '{' {
        DeclaredMeans(rest[1..], out, r);
        ExplainedBehind(rest, rest[1..], r);
      } else {
        GroupMeans(rest, out);
        if Group(rest[1..], out).Ok? {
          var (more, rest') := Group(rest[1..], out).value;
          GroupLeaves(rest[1..], out);
          DeclaredMeans(rest', more, r);
          assert rest[|rest| - |rest'|..] == rest[1..][|rest| - 1 - |rest'|..] == rest';
          ExplainedBehind(rest, rest', r);
        }
      }
    }
  }

  lemma GroupLeaves(after: string, out: Declaration)
    requires Group(after, out).Ok?
    ensures var rest' := Group(after, out).value.1; after[|after| - |rest'|..] == rest'
  {
  }

  // ----- the two readers against each other --------------------------------------------------

  predicate Outside(c: char) { c == '/' || c == '{' || c == '*' }

  lemma NameHasNone(s: string, i: nat)
    requires IsName(Trim(s)) && i < |s|
    ensures !Outside(s[i])
  {
    if Outside(s[i]) {
      TrimKeepsInk(s, i);
    }
  }

  lemma TypeHasNone(s: string, i: nat)
    requires Trim(s) in DECLARABLE && i < |s|
    ensures !Outside(s[i])
  {
    if Outside(s[i]) {
      TrimKeepsInk(s, i);
      DeclarableIsLower(Trim(s));
    }
  }

  /** A group that is accepted lies within one segment and holds no opening brace. */
  lemma EntryIsInSegment(body: string, i: nat)
    requires Entry(body).Ok? && i < |body|
    ensures !Outside(body[i])
  {
    match Find(body, ':')
    case None =>
      NameHasNone(body, i);
    case Some(colon) =>
      if i < colon {
        NameHasNone(body[..colon], i);
      } else if i > colon {
        TypeHasNone(body[colon + 1..], i - colon - 1);
      }
  }

  lemma DeclarableIsLower(ts: string)
    requires ts in DECLARABLE
    ensures forall c | c in ts :: IsLower(c)
  {
  }

  lemma {:induction false} OutGrows(rest: string, out: Declaration)
    requires Declared(rest, out).Ok?
    ensures out <= Declared(rest, out).value
    ensures '{' in rest ==> |out| < |Declared(rest, out).value|
    ensures '{' !in rest ==> Declared(rest, out).value == out
    decreases |rest|
  {
    if rest != "" {
      if rest[0] != '{' {
        OutGrows(rest[1..], out);
      } else {
        var (more, rest') := Group(rest[1..], out).value;
        OutGrows(rest', more);
      }
    }
  }

  /** A group that is accepted before a slash ends before it. */
  lemma GroupBeforeSlash(a: string, b: string, out: Declaration)
    requires Group(a + ['/'] + b, out).Ok? && '/' !in a
    ensures Group(a, out).Ok? && Group(a, out).value.0 == Group(a + ['/'] + b, out).value.0
    ensures Group(a + ['/'] + b, out).value.1 == Group(a, out).value.1 + ['/'] + b
    ensures '/' !in Group(a, out).value.1
  {
    var s := a + ['/'] + b;
    var close := Find(s, '}').value;
    var body := s[..close];
    if |a| <= close {
      if |a| < close { EntryIsInSegment(body, |a|); }
    }
    assert close < |a|;
    var rest := a[close + 1..];
    assert body == a[..close] && a == body + ['}'] + rest;
    FindAfter(body, '}', rest);
    assert s[close + 1..] == rest + ['/'] + b;
  }

  /** An accepted template is read one segment after the other. */
  lemma {:induction false} SegmentAfterSegment(a: string, b: string, out: Declaration)
    requires '/' !in a
    requires Declared(a + ['/'] + b, out).Ok?
    ensures Declared(a, out).Ok?
    ensures Declared(a + ['/'] + b, out) == Declared(b, Declared(a, out).value)
    decreases |a|
  {
    var s := a + ['/'] + b;
    if a == "" {
      assert s[1..] == b;
    } else {
      assert s[1..] == a[1..] + ['/'] + b;
      if a[0] != '{' {
        SegmentAfterSegment(a[1..], b, out);
      } else {
        GroupBeforeSlash(a[1..], b, out);
        var (more, rest) := Group(a[1..], out).value;
        SegmentAfterSegment(rest, b, more);
      }
    }
  }

  /** A segment both readers understand alike: no opening brace, or one plain name in braces. */
  predicate Neat(seg: string) {
    '{' !in seg || (Between(seg, '{', '}').Some? && IsName(Between(seg, '{', '}').value))
  }

  lemma {:induction false} StarsKeepRest(inner: string, c: char)
    requires c in inner && c != '*'
    ensures c in TrimStartOf(inner, '*')
  {
    if inner[0] == '*' { StarsKeepRest(inner[1..], c); }
  }

  lemma NameIsItsTrim(s: string)
    requires IsName(s)
    ensures Trim(s) == s && ':' !in s && '}' !in s && '{' !in s && '/' !in s && TrimStartOf(s, '*') == s
  {
    TrimPadded("", s, "");
    assert "" + s + "" == s;
  }

  /** One segment by itself. */
  lemma OneSegment(seg: string, out: Declaration)
    requires Declared(seg, out).Ok?
    ensures |FilterMap(Param, [seg])| <= |Declared(seg, out).value| - |out|
    ensures NamesOf(Declared(seg, out).value) == NamesOf(out) + FilterMap(Param, [seg]) <==> Neat(seg)
  {
    OutGrows(seg, out);
    assert [seg][1..] == [];
    var found := Declared(seg, out).value;
    if '{' !in seg {
      assert FilterMap(Param, [seg]) == [];
    } else if Param(seg).None? {
      if Neat(seg) { assert IsName(Between(seg, '{', '}').value); }
      assert FilterMap(Param, [seg]) == [];
    } else {
      WrappedSegment(seg, out);
    }
  }

  lemma WrappedSegment(seg: string, out: Declaration)
    requires Declared(seg, out).Ok? && Param(seg).Some?
    ensures NamesOf(Declared(seg, out).value) == NamesOf(out) + [Param(seg).value] <==> Neat(seg)
  {
    var found := Declared(seg, out).value;
    var inner := Between(seg, '{', '}').value;
    assert seg[1..] == inner + ['}'];
    var (more, rest') := Group(seg[1..], out).value;
    var close := Find(seg[1..], '}').value;
    var body := seg[1..][..close];
    OutGrows(rest', more);
    assert more <= found;
    assert NamesOf(found)[|out|] == found[|out|].0 == more[|out|].0;
    if close == |inner| {
      assert body == inner && rest' == "";
      assert found == more;
      assert NamesOf(found) == NamesOf(out) + [more[|out|].0];
      WholeGroup(inner, Param(seg).value);
    } else {
      assert inner[close] == '}';
      StarsKeepRest(inner, '}');
      if IsName(inner) { NameIsItsTrim(inner); }
      if NamesOf(found) == NamesOf(out) + [Param(seg).value] {
        assert NamesOf(found)[|out|] == Param(seg).value;
        assert IsName(more[|out|].0);
        NameIsItsTrim(more[|out|].0);
      }
    }
  }

  lemma WholeGroup(inner: string, name: string)
    requires inner != "" && Entry(inner).Ok? && name == TrimStartOf(inner, '*')
    ensures Entry(inner).value.0 == name <==> IsName(inner)
  {
    EntryIsInSegment(inner, 0);
    assert name == inner;
    if IsName(inner) { NameIsItsTrim(inner); }
  }

  lemma {:induction false} ReadersAgree(s: string, out: Declaration)
    requires Declared(s, out).Ok?
    ensures |PathParams(s)| <= |Declared(s, out).value| - |out|
    ensures NamesOf(Declared(s, out).value) == NamesOf(out) + PathParams(s)
            <==> forall seg | seg in Split(s, '/') :: Neat(seg)
    decreases |s|
  {
    var slash := Find(s, '/');
    if slash.None? {
      SplitWhole(s, '/');
      OneSegment(s, out);
    } else {
      var a, b := s[..slash.value], s[slash.value + 1..];
      assert s == a + ['/'] + b;
      SplitFirst(a, b, '/');
      SegmentAfterSegment(a, b, out);
      var middle := Declared(a, out).value;
      OneSegment(a, out);
      ReadersAgree(b, middle);
      OutGrows(a, out);
      OutGrows(b, middle);
      Stitch(a, b, out, middle, Declared(s, out).value);
    }
  }

  /** What one segment adds and what the others add do not trade places: neither reader ever finds
      fewer groups than the other finds parameters. */
  lemma Stitch(a: string, b: string, out: Declaration, middle: Declaration, all: Declaration)
    requires '/' !in a && out <= middle <= all
    requires |FilterMap(Param, [a])| <= |middle| - |out| && |PathParams(b)| <= |all| - |middle|
    ensures |PathParams(a + ['/'] + b)| == |FilterMap(Param, [a])| + |PathParams(b)|
    ensures NamesOf(all) == NamesOf(out) + PathParams(a + ['/'] + b) <==>
            NamesOf(middle) == NamesOf(out) + FilterMap(Param, [a]) && NamesOf(all) == NamesOf(middle) + PathParams(b)
  {
    ParamsInParts(a, b);
    assert NamesOf(all)[..|middle|] == NamesOf(middle);
    NeverFewer(NamesOf(out), FilterMap(Param, [a]), NamesOf(middle), PathParams(b), NamesOf(all));
  }

  lemma ParamsInParts(a: string, b: string)
    requires '/' !in a
    ensures PathParams(a + ['/'] + b) == FilterMap(Param, [a]) + PathParams(b)
  {
    SplitFirst(a, b, '/');
    assert [a][1..] == [] && ([a] + Split(b, '/'))[1..] == Split(b, '/');
  }

  lemma NeverFewer<T>(out: seq<T>, p: seq<T>, middle: seq<T>, q: seq<T>, all: seq<T>)
    requires |p| <= |middle| - |out| && |q| <= |all| - |middle| && all[..|middle|] == middle
    ensures all == out + (p + q) <==> middle == out + p && all == middle + q
  {
    if all == out + (p + q) {
      assert middle == all[..|out| + |p|] == out + p;
      assert all == middle + all[|middle|..];
    }
    if middle == out + p && all == middle + q { assert out + p + q == out + (p + q); }
  }

  /** On a template the attribute accepts, the two readers name the same parameters exactly when
      every opening brace starts a segment that is one plain name in braces. */
  lemma ReadersAgreeExactly(template: string)
    requires Declared(template, []).Ok?
    ensures NamesOf(Declared(template, []).value) == PathParams(template)
            <==> forall seg | seg in Split(template, '/') :: Neat(seg)
  {
    ReadersAgree(template, []);
    assert NamesOf([]) + PathParams(template) == PathParams(template);
  }

  // ----- a declaration and the route it stands for -------------------------------------------

  function Braced(body: string): string { ['{'] + body + ['}'] }

  /** A segment as it is meant: the attribute may spell a type behind the name, the route does not. */
  datatype Segment = Literal(text: string) | Parameter(name: string, ts: Option<string>) {
    function Declares(): string {
      match this
      case Literal(text) => text
      case Parameter(name, None) => Braced(name)
      case Parameter(name, Some(ts)) => Braced(name + ": " + ts)
    }

    function Mounts(): string {
      match this
      case Literal(text) => text
      case Parameter(name, _) => Braced(name)
    }

    predicate Valid() {
      match this
      case Literal(text) => '/' !in text && '{' !in text
      case Parameter(name, ts) => IsName(name) && (ts.Some? ==> ts.value in DECLARABLE)
    }
  }

  function Declaring(segs: seq<Segment>): seq<string> {
    seq(|segs|, i requires 0 <= i < |segs| => segs[i].Declares())
  }

  function Mounting(segs: seq<Segment>): seq<string> {
    seq(|segs|, i requires 0 <= i < |segs| => segs[i].Mounts())
  }

  /** What a segment declares: a name with its type, and a name alone is a string, as a URL segment
      is. */
  function Own(seg: Segment): Declaration {
    match seg
    case Literal(_) => []
    case Parameter(name, None) => [(name, "string")]
    case Parameter(name, Some(ts)) => [(name, ts)]
  }

  function Pairs(segs: seq<Segment>): Declaration {
    if segs == [] then [] else Own(segs[0]) + Pairs(segs[1..])
  }

  predicate DistinctNames(out: Declaration) {
    forall i, j | 0 <= i < j < |out| :: out[i].0 != out[j].0
  }

  lemma {:induction false} LiteralSkipped(text: string, rest: string, out: Declaration)
    requires '{' !in text
    ensures Declared(text + rest, out) == Declared(rest, out)
  {
    if text == "" {
      assert text + rest == rest;
    } else {
      assert (text + rest)[1..] == text[1..] + rest;
      LiteralSkipped(text[1..], rest, out);
    }
  }

  lemma EntryOf(name: string, ts: string)
    requires IsName(name) && ts in DECLARABLE
    ensures Entry(name) == Ok((name, "string")) && '}' !in name
    ensures Entry(name + ": " + ts) == Ok((name, ts)) && '}' !in name + ": " + ts
  {
    NameIsItsTrim(name);
    assert Find(name, ':').None?;
    var t := " " + ts;
    assert name + ": " + ts == name + [':'] + t;
    SplitOnceAt(name, ':', t);
    DeclarableIsLower(ts);
    assert ts != "" && ts[0] in ts && ts[|ts| - 1] in ts;
    TrimPadded(" ", ts, "");
    assert " " + ts + "" == t;
    assert '}' !in ts;
  }

  lemma GroupRead(body: string, pair: (string, string), rest: string, out: Declaration)
    requires Entry(body) == Ok(pair) && '}' !in body && pair.0 !in NamesOf(out)
    ensures Declared(Braced(body) + rest, out) == Declared(rest, out + [pair])
  {
    var s := Braced(body) + rest;
    assert s[1..] == body + ['}'] + rest;
    FindAfter(body, '}', rest);
    assert s[1..][..|body|] == body && s[1..][|body| + 1..] == rest;
  }

  lemma SegmentRead(seg: Segment, rest: string, out: Declaration)
    requires seg.Valid() && (seg.Parameter? ==> seg.name !in NamesOf(out))
    ensures Declared(seg.Declares() + rest, out) == Declared(rest, out + Own(seg))
  {
    match seg
    case Literal(text) =>
      LiteralSkipped(text, rest, out);
      assert out + [] == out;
    case Parameter(name, None) =>
      EntryOf(name, DECLARABLE[0]);
      GroupRead(name, (name, "string"), rest, out);
    case Parameter(name, Some(ts)) =>
      EntryOf(name, ts);
      GroupRead(name + ": " + ts, (name, ts), rest, out);
  }

  lemma SlashSkipped(rest: string, out: Declaration)
    ensures Declared(['/'] + rest, out) == Declared(rest, out)
  {
    assert (['/'] + rest)[1..] == rest;
  }

  lemma NewName(seg: Segment, more: Declaration, out: Declaration)
    requires DistinctNames(out + (Own(seg) + more)) && seg.Parameter?
    ensures seg.name !in NamesOf(out)
  {
    var all := out + (Own(seg) + more);
    assert all[|out|].0 == seg.name;
    forall i | 0 <= i < |out| ensures NamesOf(out)[i] != seg.name { assert all[i].0 != all[|out|].0; }
  }

  /** The first segment and the slash behind it. */
  lemma FirstRead(seg: Segment, rest: string, out: Declaration)
    requires seg.Valid() && (seg.Parameter? ==> seg.name !in NamesOf(out))
    ensures Declared(seg.Declares() + ['/'] + rest, out) == Declared(rest, out + Own(seg))
  {
    SegmentRead(seg, ['/'] + rest, out);
    SlashSkipped(rest, out + Own(seg));
    assert seg.Declares() + ['/'] + rest == seg.Declares() + (['/'] + rest);
  }

  lemma LastRead(seg: Segment, out: Declaration)
    requires seg.Valid() && (seg.Parameter? ==> seg.name !in NamesOf(out))
    ensures Declared(seg.Declares(), out) == Ok(out + Own(seg))
  {
    SegmentRead(seg, "", out);
    assert seg.Declares() + "" == seg.Declares();
  }

  lemma {:induction false} DeclarationRead(segs: seq<Segment>, out: Declaration, all: Declaration)
    requires segs != [] && forall i | 0 <= i < |segs| :: segs[i].Valid()
    requires all == out + Pairs(segs) && DistinctNames(all)
    ensures Declared(Join(Declaring(segs), ['/']), out) == Ok(all)
    decreases |segs|
  {
    var first, more := segs[0], Pairs(segs[1..]);
    if first.Parameter? { NewName(first, more, out); }
    assert out + Own(first) + more == all;
    if |segs| == 1 {
      LastRead(first, out);
      assert more == [] && out + Own(first) == all;
    } else {
      assert Declaring(segs)[1..] == Declaring(segs[1..]);
      FirstRead(first, Join(Declaring(segs[1..]), ['/']), out);
      DeclarationRead(segs[1..], out + Own(first), all);
    }
  }

  lemma MountedParam(seg: Segment)
    requires seg.Valid()
    ensures Param(seg.Mounts()) == match seg case Literal(_) => None case Parameter(name, _) => Some(name)
  {
    match seg
    case Literal(_) =>
    case Parameter(name, _) =>
      NameIsItsTrim(name);
      assert Between(Braced(name), '{', '}') == Some(name);
      assert name[0] != '{' && name[|name| - 1] != '}';
  }

  lemma FilterFirst(seg: string, rest: seq<string>)
    ensures FilterMap(Param, [seg] + rest) ==
            (match Param(seg) case None => [] case Some(name) => [name]) + FilterMap(Param, rest)
  {
    assert ([seg] + rest)[1..] == rest;
  }

  lemma {:induction false} RouteRead(segs: seq<Segment>)
    requires forall i | 0 <= i < |segs| :: segs[i].Valid()
    ensures FilterMap(Param, Mounting(segs)) == NamesOf(Pairs(segs))
  {
    if segs == [] {
      assert Mounting(segs) == [] && NamesOf(Pairs(segs)) == [];
    } else {
      RouteRead(segs[1..]);
      assert Mounting(segs) == [segs[0].Mounts()] + Mounting(segs[1..]);
      MountedParam(segs[0]);
      FilterFirst(segs[0].Mounts(), Mounting(segs[1..]));
      OwnNames(segs[0]);
      NamesAppend(Own(segs[0]), Pairs(segs[1..]));
    }
  }

  lemma OwnNames(seg: Segment)
    ensures NamesOf(Own(seg)) == match seg case Literal(_) => [] case Parameter(name, _) => [name]
  {
  }

  lemma MountedHaveNoSlash(segs: seq<Segment>)
    requires forall i | 0 <= i < |segs| :: segs[i].Valid()
    ensures forall part | part in Mounting(segs) :: '/' !in part
  {
    forall part | part in Mounting(segs) ensures '/' !in part {
      var i :| 0 <= i < |segs| && segs[i].Mounts() == part;
      if segs[i].Parameter? { NameIsItsTrim(segs[i].name); }
    }
  }

  lemma RouteParams(segs: seq<Segment>)
    requires segs != [] && forall i | 0 <= i < |segs| :: segs[i].Valid()
    ensures PathParams(Join(Mounting(segs), ['/'])) == NamesOf(Pairs(segs))
  {
    RouteRead(segs);
    MountedHaveNoSlash(segs);
    SplitJoin(Mounting(segs), '/');
  }

  /** Whatever types a declaration spells, it names the parameters of the route it stands for, in
      the route's order. */
  lemma {:induction false} DeclarationNamesItsRoute(segs: seq<Segment>, declaration: string, route: string)
    requires segs != [] && forall i | 0 <= i < |segs| :: segs[i].Valid()
    requires DistinctNames(Pairs(segs))
    requires declaration == Join(Declaring(segs), ['/']) && route == Join(Mounting(segs), ['/'])
    ensures Declared(declaration, []) == Ok(Pairs(segs))
    ensures PathParams(route) == NamesOf(Pairs(segs))
  {
    RouteParams(segs);
    DeclarationRead(segs, [], Pairs(segs));
  }
}
