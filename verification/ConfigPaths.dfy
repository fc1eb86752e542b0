/** A field's path in the config tree, its three generated spellings, and how each is read back
    without the schema. */
module ConfigPaths {
  import opened Texts

  type Path = seq<string>

  function SwapChar(c: char, from: char, to: char): char { if c == from then to else c }

  function Swap(s: string, from: char, to: char): (t: string)
    ensures |t| == |s|
  {
    seq(|s|, i requires 0 <= i < |s| => SwapChar(s[i], from, to))
  }

  function SwapAll(p: Path, from: char, to: char): (q: Path)
    ensures |q| == |p|
  {
    seq(|p|, i requires 0 <= i < |p| => Swap(p[i], from, to))
  }

  function UpperText(s: string): (t: string)
    ensures |t| == |s|
  {
    seq(|s|, i requires 0 <= i < |s| => Upper(s[i]))
  }

  function LowerText(s: string): (t: string)
    ensures |t| == |s|
  {
    seq(|s|, i requires 0 <= i < |s| => Lower(s[i]))
  }

  const DASHES: string := ['-', '-']
  const UNDERSCORES: string := ['_', '_']

  function Flag(p: Path): string { DASHES + Join(SwapAll(p, '_', '-'), DASHES) }

  function EnvName(app: string, p: Path): string { UpperText(app + "_" + Join(p, UNDERSCORES)) }

  function Dotted(p: Path): string { Join(p, ".") }

  // ----- reading a spelling back ---------------------------------------------------------------

  /** The parts between doubled separators, the leftmost pair first. */
  function SplitPairs(s: string, c: char): (parts: seq<string>)
    ensures parts != []
    decreases |s|
  {
    if s == "" then [""]
    else if |s| >= 2 && s[0] == c && s[1] == c then [""] + SplitPairs(s[2..], c)
    else
      var rest := SplitPairs(s[1..], c);
      [[s[0]] + rest[0]] + rest[1..]
  }

  function FromFlag(flag: string): Path {
    if |flag| < 2 then [] else SwapAll(SplitPairs(flag[2..], '-'), '-', '_')
  }

  function FromEnv(app: string, name: string): Path {
    if |name| < |app| + 1 then [] else SplitPairs(LowerText(name[|app| + 1..]), '_')
  }

  function FromDotted(key: string): Path { Split(key, '.') }

  /** A segment as Rust names a field: lower-case letters, digits and underscores. */
  predicate NameChar(c: char) { IsLower(c) || IsDigit(c) || c == '_' }

  predicate Ident(s: string) { forall i | 0 <= i < |s| :: NameChar(s[i]) }

  predicate Idents(p: Path) { p != [] && forall i | 0 <= i < |p| :: Ident(p[i]) }

  predicate NoPair(s: string, c: char) { forall i | 0 <= i < |s| - 1 :: s[i] != c || s[i + 1] != c }

  predicate EndsClear(s: string, c: char) { s == "" || s[|s| - 1] != c }

  /** No segment doubles the separator, and none but the last ends with it. */
  predicate Clear(p: seq<string>, c: char) {
    forall i | 0 <= i < |p| :: NoPair(p[i], c) && (i < |p| - 1 ==> EndsClear(p[i], c))
  }

  lemma {:induction false} SplitWholePair(s: string, c: char)
    requires NoPair(s, c)
    ensures SplitPairs(s, c) == [s]
  {
    if s != "" {
      SplitWholePair(s[1..], c);
      assert [s[0]] + s[1..] == s;
    }
  }

  lemma {:induction false} SplitFirstPair(a: string, b: string, c: char)
    requires NoPair(a, c) && EndsClear(a, c)
    ensures SplitPairs(a + [c, c] + b, c) == [a] + SplitPairs(b, c)
  {
    var s := a + [c, c] + b;
    if a == "" {
      assert s[2..] == b;
    } else {
      assert s[0] == a[0] && (|a| > 1 ==> s[1] == a[1]);
      assert s[1..] == a[1..] + [c, c] + b;
      SplitFirstPair(a[1..], b, c);
      assert [a[0]] + a[1..] == a;
    }
  }

  lemma ClearRest(p: seq<string>, c: char)
    requires |p| > 1 && Clear(p, c)
    ensures Clear(p[1..], c) && NoPair(p[0], c) && EndsClear(p[0], c)
  {
    assert forall i | 0 <= i < |p[1..]| :: p[1..][i] == p[i + 1];
  }

  lemma {:induction false} SplitJoinPairs(p: seq<string>, c: char)
    requires p != [] && Clear(p, c)
    ensures SplitPairs(Join(p, [c, c]), c) == p
  {
    if |p| == 1 {
      SplitWholePair(p[0], c);
    } else {
      var rest := p[1..];
      ClearRest(p, c);
      SplitJoinPairs(rest, c);
      SplitFirstPair(p[0], Join(rest, [c, c]), c);
      assert [p[0]] + rest == p;
    }
  }

  /** Whatever is split, the parts are clear: the leftmost pair leaves no separator before it. */
  lemma {:induction false} PartsAreClear(s: string, c: char)
    ensures Clear(SplitPairs(s, c), c)
    ensures SplitPairs(s, c)[0] != "" && SplitPairs(s, c)[0][0] == c ==> s != "" && s[0] == c
    ensures SplitPairs(s, c)[0] == "" ==> s == "" || (|s| >= 2 && s[0] == s[1] == c)
    decreases |s|
  {
    if s != "" {
      if |s| >= 2 && s[0] == c && s[1] == c {
        PartsAreClear(s[2..], c);
      } else {
        PartsAreClear(s[1..], c);
      }
    }
  }

  /** Joined and split again, a path comes back exactly when it is clear. */
  lemma PairsReadBack(p: seq<string>, c: char)
    requires p != []
    ensures SplitPairs(Join(p, [c, c]), c) == p <==> Clear(p, c)
  {
    if Clear(p, c) { SplitJoinPairs(p, c); }
    PartsAreClear(Join(p, [c, c]), c);
  }

  lemma SwapBack(p: Path)
    requires Idents(p)
    ensures SwapAll(SwapAll(p, '_', '-'), '-', '_') == p
    ensures Clear(SwapAll(p, '_', '-'), '-') <==> Clear(p, '_')
  {
    var q := SwapAll(p, '_', '-');
    forall i | 0 <= i < |p|
      ensures Swap(q[i], '-', '_') == p[i]
      ensures NoPair(q[i], '-') <==> NoPair(p[i], '_')
      ensures EndsClear(q[i], '-') <==> EndsClear(p[i], '_')
    {
      SegmentSwapBack(p[i]);
    }
  }

  lemma SegmentSwapBack(s: string)
    requires Ident(s)
    ensures Swap(Swap(s, '_', '-'), '-', '_') == s
    ensures NoPair(Swap(s, '_', '-'), '-') <==> NoPair(s, '_')
    ensures EndsClear(Swap(s, '_', '-'), '-') <==> EndsClear(s, '_')
  {
    var t := Swap(s, '_', '-');
    forall i | 0 <= i < |s| ensures t[i] == '-' <==> s[i] == '_' { assert NameChar(s[i]); }
    assert forall i | 0 <= i < |s| :: SwapChar(t[i], '-', '_') == s[i];
  }

  /** The flag reads back to the field exactly when no name doubles an underscore or ends with one
      before another level. */
  lemma FlagReadsBackExactly(p: Path)
    requires Idents(p)
    ensures FromFlag(Flag(p)) == p <==> Clear(p, '_')
  {
    var q := SwapAll(p, '_', '-');
    var joined := Join(q, DASHES);
    assert Flag(p)[2..] == joined;
    SwapBack(p);
    PairsReadBack(q, '-');
    if FromFlag(Flag(p)) == p && !Clear(p, '_') {
      SwapSplit(joined, p, q);
    }
  }

  /** If swapping the parts of a flag gives the path, the parts are the path's own. */
  lemma SwapSplit(joined: string, p: Path, q: Path)
    requires Idents(p) && q == SwapAll(p, '_', '-') && joined == Join(q, DASHES)
    requires SwapAll(SplitPairs(joined, '-'), '-', '_') == p
    ensures SplitPairs(joined, '-') == q
  {
    var parts := SplitPairs(joined, '-');
    JoinHasNo(q, '_');
    PartsHaveNo(joined, '-', '_');
    forall i | 0 <= i < |p| ensures parts[i] == q[i] {
      forall k | 0 <= k < |parts[i]| ensures parts[i][k] == q[i][k] {
        assert p[i] == Swap(parts[i], '-', '_');
        assert p[i][k] == SwapChar(parts[i][k], '-', '_');
        assert q[i][k] == SwapChar(p[i][k], '_', '-');
        assert parts[i][k] != '_';
      }
    }
  }

  lemma {:induction false} JoinHasNo(q: Path, c: char)
    requires c != '-' && forall i | 0 <= i < |q| :: c !in q[i]
    ensures c !in Join(q, DASHES)
  {
    if |q| > 1 {
      assert forall i | 0 <= i < |q[1..]| :: q[1..][i] == q[i + 1];
      JoinHasNo(q[1..], c);
    }
  }

  lemma {:induction false} PartsHaveNo(s: string, c: char, x: char)
    requires x !in s
    ensures forall i | 0 <= i < |SplitPairs(s, c)| :: x !in SplitPairs(s, c)[i]
    decreases |s|
  {
    if s != "" {
      if |s| >= 2 && s[0] == c && s[1] == c { PartsHaveNo(s[2..], c, x); } else { PartsHaveNo(s[1..], c, x); }
    }
  }

  lemma {:induction false} JoinIsNamed(p: Path)
    requires forall i | 0 <= i < |p| :: Ident(p[i])
    ensures Ident(Join(p, UNDERSCORES))
  {
    if |p| > 1 {
      assert forall i | 0 <= i < |p[1..]| :: p[1..][i] == p[i + 1];
      JoinIsNamed(p[1..]);
    }
  }

  lemma EnvTail(app: string, p: Path)
    requires Idents(p)
    ensures LowerText(EnvName(app, p)[|app| + 1..]) == Join(p, UNDERSCORES)
  {
    var joined := Join(p, UNDERSCORES);
    JoinIsNamed(p);
    var tail := EnvName(app, p)[|app| + 1..];
    assert forall i | 0 <= i < |joined| :: tail[i] == Upper(joined[i]) && NameChar(joined[i]);
  }

  /** So does the environment name, for any app. */
  lemma EnvReadsBackExactly(app: string, p: Path)
    requires Idents(p)
    ensures FromEnv(app, EnvName(app, p)) == p <==> Clear(p, '_')
  {
    EnvTail(app, p);
    PairsReadBack(p, '_');
  }

  /** The TOML key always reads back. */
  lemma DottedReadsBack(p: Path)
    requires Idents(p)
    ensures FromDotted(Dotted(p)) == p
  {
    forall part | part in p ensures '.' !in part {
      var i :| 0 <= i < |p| && p[i] == part;
      assert forall k | 0 <= k < |part| :: NameChar(part[k]);
    }
    SplitJoin(p, '.');
  }

  /** Two clear paths that share any spelling are the same path: no schema is needed to tell. */
  lemma SpellingsAreUnambiguous(app: string, p: Path, q: Path)
    requires Idents(p) && Idents(q) && Clear(p, '_') && Clear(q, '_')
    requires Flag(p) == Flag(q) || EnvName(app, p) == EnvName(app, q) || Dotted(p) == Dotted(q)
    ensures p == q
  {
    FlagReadsBackExactly(p);
    FlagReadsBackExactly(q);
    EnvReadsBackExactly(app, p);
    EnvReadsBackExactly(app, q);
    DottedReadsBack(p);
    DottedReadsBack(q);
  }

  lemma JoinTwo(a: string, b: string, sep: string)
    ensures Join([a, b], sep) == a + sep + b && Join([a + sep + b], sep) == a + sep + b
  {
    assert [a, b][1..] == [b];
  }

  /** A doubled underscore in a name is a level to the flag and to the environment name. */
  lemma DoubledUnderscoreIsALevel(app: string, a: string, b: string)
    ensures Flag([a + UNDERSCORES + b]) == Flag([a, b])
    ensures EnvName(app, [a + UNDERSCORES + b]) == EnvName(app, [a, b])
  {
    var whole := a + UNDERSCORES + b;
    var x, y := Swap(a, '_', '-'), Swap(b, '_', '-');
    JoinTwo(a, b, UNDERSCORES);
    JoinTwo(x, y, DASHES);
    assert Swap(whole, '_', '-') == x + DASHES + y;
    assert SwapAll([a, b], '_', '-') == [x, y];
    assert SwapAll([whole], '_', '-') == [Swap(whole, '_', '-')];
  }

  lemma SpelledAlone(app: string, name: string)
    ensures Flag([name]) == DASHES + Swap(name, '_', '-') && EnvName(app, [name]) == UpperText(app + "_" + name)
    ensures Dotted([name]) == name
  {
    assert SwapAll([name], '_', '-') == [Swap(name, '_', '-')];
  }

  lemma SpelledInTwo(app: string, a: string, b: string)
    ensures Flag([a, b]) == DASHES + (Swap(a, '_', '-') + DASHES + Swap(b, '_', '-'))
    ensures EnvName(app, [a, b]) == UpperText(app + "_" + (a + UNDERSCORES + b))
    ensures Dotted([a, b]) == a + "." + b
  {
    assert SwapAll([a, b], '_', '-') == [Swap(a, '_', '-'), Swap(b, '_', '-')];
    JoinTwo(Swap(a, '_', '-'), Swap(b, '_', '-'), DASHES);
    JoinTwo(a, b, UNDERSCORES);
    JoinTwo(a, b, ".");
  }

  /** The spellings of the documentation's examples: a field of the root, and a nested one. */
  lemma DocumentedFlags()
    ensures Flag(["data_dir"]) == "--data-dir"
    ensures Flag(["sandbox", "timeout_secs"]) == "--sandbox--timeout-secs"
  {
    SpelledAlone("", "data_dir");
    SpelledInTwo("", "sandbox", "timeout_secs");
    assert Swap("data_dir", '_', '-') == "data-dir";
    assert Swap("sandbox", '_', '-') == "sandbox";
    assert Swap("timeout_secs", '_', '-') == "timeout-secs";
  }

  lemma DocumentedVariables()
    ensures EnvName("cron", ["data_dir"]) == "CRON_" + "DATA_DIR"
    ensures EnvName("cron", ["sandbox", "timeout_secs"]) == "CRON_" + ("SANDBOX__" + "TIMEOUT_SECS")
  {
    SpelledAlone("cron", "data_dir");
    SpelledInTwo("cron", "sandbox", "timeout_secs");
    UpperParts("cron" + "_", "data_dir");
    UpperParts("cron" + "_", "sandbox" + UNDERSCORES + "timeout_secs");
    UpperParts("sandbox" + UNDERSCORES, "timeout_secs");
    assert UpperText("cron" + "_") == "CRON_" && UpperText("data_dir") == "DATA_DIR";
    assert UpperText("sandbox" + UNDERSCORES) == "SANDBOX__";
    assert UpperText("timeout_secs") == "TIMEOUT_SECS";
  }

  lemma UpperParts(a: string, b: string)
    ensures UpperText(a + b) == UpperText(a) + UpperText(b)
  {
  }
}
