/** Escaping a JSON text for the `<script type="application/json">` block it is stamped into: the
    three replacements, and that a page still parses the same value. */
module ScriptBlock {
  import opened Wrappers
  import opened Json

  /** `str::replace` of one character. */
  function Replace(s: string, c: char, text: string): string {
    if s == "" then "" else (if s[0] == c then text else [s[0]]) + Replace(s[1..], c, text)
  }

  /** The text as it is stamped: three passes over the whole, one after the other. */
  function ForScriptBlock(json: string): string {
    Replace(Replace(Replace(json, '<', "\\u003c"), '>', "\\u003e"), '&', "\\u0026")
  }

  predicate Hot(c: char) { c == '<' || c == '>' || c == '&' }

  /** One pass, one character at a time. */
  function EscapeChar(c: char): string {
    if c == '<' then "\\u003c" else if c == '>' then "\\u003e" else if c == '&' then "\\u0026" else [c]
  }

  function Escape(s: string): string {
    if s == "" then "" else EscapeChar(s[0]) + Escape(s[1..])
  }

  lemma {:induction false} ReplaceConcat(a: string, b: string, c: char, text: string)
    ensures Replace(a + b, c, text) == Replace(a, c, text) + Replace(b, c, text)
  {
    if a == "" {
      assert a + b == b;
    } else {
      assert (a + b)[1..] == a[1..] + b;
      ReplaceConcat(a[1..], b, c, text);
    }
  }

  lemma {:induction false} ReplaceNothing(s: string, c: char, text: string)
    requires c !in s
    ensures Replace(s, c, text) == s
  {
    if s != "" { ReplaceNothing(s[1..], c, text); }
  }

  /** What a pass writes, no later pass touches: the three passes are one. */
  lemma {:induction false} PassesAreOne(s: string)
    ensures ForScriptBlock(s) == Escape(s)
  {
    if s != "" {
      var c, rest := [s[0]], s[1..];
      var c1 := Replace(c, '<', "\\u003c");
      var c2 := Replace(c1, '>', "\\u003e");
      assert s == c + rest;
      ReplaceConcat(c, rest, '<', "\\u003c");
      ReplaceConcat(c1, Replace(rest, '<', "\\u003c"), '>', "\\u003e");
      ReplaceConcat(c2, Replace(Replace(rest, '<', "\\u003c"), '>', "\\u003e"), '&', "\\u0026");
      OneChar(s[0]);
      PassesAreOne(rest);
    }
  }

  lemma ReplaceOne(c: char, hot: char, text: string)
    ensures Replace([c], hot, text) == if c == hot then text else [c]
  {
    assert [c][1..] == "" && Replace("", hot, text) == "";
    assert text + "" == text && [c] + "" == [c];
  }

  lemma OneChar(c: char)
    ensures ForScriptBlock([c]) == EscapeChar(c)
  {
    ReplaceOne(c, '<', "\\u003c");
    ReplaceOne(c, '>', "\\u003e");
    ReplaceOne(c, '&', "\\u0026");
    ReplaceNothing("\\u003c", '>', "\\u003e");
    ReplaceNothing("\\u003c", '&', "\\u0026");
    ReplaceNothing("\\u003e", '&', "\\u0026");
  }

  /** Nothing in the stamped text can close the block or open a tag in it. */
  lemma {:induction false} NothingHot(s: string)
    ensures forall c | c in ForScriptBlock(s) :: !Hot(c)
  {
    PassesAreOne(s);
    NothingHotIn(s);
  }

  lemma {:induction false} NothingHotIn(s: string)
    ensures forall c | c in Escape(s) :: !Hot(c)
  {
    if s != "" { NothingHotIn(s[1..]); }
  }

  // ----- reading an escaped text -------------------------------------------------------------

  lemma {:induction false} EscapeConcat(a: string, b: string)
    ensures Escape(a + b) == Escape(a) + Escape(b)
  {
    if a == "" {
      assert a + b == b;
    } else {
      assert (a + b)[1..] == a[1..] + b;
      EscapeConcat(a[1..], b);
    }
  }

  /** Below a character that is not hot, escaping goes on with the rest. */
  lemma CoolHead(s: string)
    requires s != "" && !Hot(s[0])
    ensures Escape(s) != "" && Escape(s)[0] == s[0] && Escape(s)[1..] == Escape(s[1..])
  {
  }

  /** A hot head shows as a backslash, which nothing outside strings accepts. */
  lemma HotHead(s: string)
    requires s != "" && Hot(s[0])
    ensures Escape(s) != "" && Escape(s)[0] == '\\'
  {
  }

  lemma SameStart(s: string, c: char)
    requires !Hot(c) && c != '\\'
    ensures StartsWith(Escape(s), c) == StartsWith(s, c)
  {
    if s != "" && Hot(s[0]) { HotHead(s); }
  }

  lemma {:induction false} SpaceEscaped(s: string)
    ensures SkipSpace(Escape(s)) == Escape(SkipSpace(s))
  {
    if s != "" {
      if Hot(s[0]) {
        HotHead(s);
      } else {
        CoolHead(s);
        SpaceEscaped(s[1..]);
      }
    }
  }

  lemma {:induction false} DigitsEscaped(s: string)
    ensures Digits(Escape(s)) == (Digits(s).0, Escape(Digits(s).1))
  {
    if s != "" {
      if Hot(s[0]) {
        HotHead(s);
      } else {
        CoolHead(s);
        DigitsEscaped(s[1..]);
      }
    }
  }

  function EscapeRest<T>(r: Read<T>): Read<T> {
    match r
    case Bad => Bad
    case Good(value, rest) => Good(value, Escape(rest))
  }

  lemma IntEscaped(s: string)
    ensures ReadInt(Escape(s)) == EscapeRest(ReadInt(s))
  {
    SameStart(s, '0');
    DigitsEscaped(s);
    if StartsWith(s, '0') { CoolHead(s); }
  }

  lemma FractionEscaped(s: string)
    ensures ReadFraction(Escape(s)) == EscapeRest(ReadFraction(s))
  {
    SameStart(s, '.');
    if StartsWith(s, '.') {
      CoolHead(s);
      DigitsEscaped(s[1..]);
    }
  }

  lemma SignEscaped(s: string)
    ensures Sign(Escape(s)) == (Sign(s).0, Escape(Sign(s).1))
  {
    SameStart(s, '+');
    SameStart(s, '-');
    if StartsWith(s, '+') || StartsWith(s, '-') {
      CoolHead(s);
      assert Escape(s)[..1] == s[..1];
    }
  }

  lemma ExponentEscaped(s: string)
    ensures ReadExponent(Escape(s)) == EscapeRest(ReadExponent(s))
  {
    SameStart(s, 'e');
    SameStart(s, 'E');
    if StartsWith(s, 'e') || StartsWith(s, 'E') {
      CoolHead(s);
      assert Escape(s)[..1] == s[..1];
      SignEscaped(s[1..]);
      DigitsEscaped(Sign(s[1..]).1);
    }
  }

  lemma NumberEscaped(s: string)
    ensures ReadNumber(Escape(s)) == EscapeRest(ReadNumber(s))
  {
    SameStart(s, '-');
    if StartsWith(s, '-') { CoolHead(s); }
    var t := if StartsWith(s, '-') then s[1..] else s;
    IntEscaped(t);
    if ReadInt(t).Good? {
      var t1 := ReadInt(t).rest;
      FractionEscaped(t1);
      if ReadFraction(t1).Good? { ExponentEscaped(ReadFraction(t1).rest); }
    }
  }

  lemma {:induction false} WordEscaped(s: string, word: string)
    requires word <= s && forall c | c in word :: !Hot(c)
    ensures word <= Escape(s) && Escape(s)[|word|..] == Escape(s[|word|..])
  {
    if word != "" {
      CoolHead(s);
      assert word[0] in word && word[1..] <= s[1..];
      WordEscaped(s[1..], word[1..]);
      assert word == [word[0]] + word[1..];
      assert s[1..][|word[1..]|..] == s[|word|..];
      assert Escape(s)[|word|..] == Escape(s)[1..][|word[1..]|..];
    }
  }

  /** Four hexadecimal digits read the same, hot characters being none. */
  lemma HexEscaped(s: string)
    requires HexUnit(s).Some?
    ensures HexUnit(Escape(s)) == HexUnit(s) && |Escape(s)| >= 4 && Escape(s)[4..] == Escape(s[4..])
  {
    WordEscaped(s, s[..4]);
    assert Escape(s)[..4] == s[..4];
  }

  /** A hot character reads as itself, through its escape. */
  lemma HotIsReadBack(c: char, rest: string)
    requires Hot(c)
    ensures ReadChars(EscapeChar(c) + rest) == Before(Utf16(c), ReadChars(rest))
  {
    var s := EscapeChar(c) + rest;
    assert s[2..][..4] == EscapeChar(c)[2..];
    assert s[2..][0] == '0' && s[2..][1] == '0' && s[2..][2] == EscapeChar(c)[4] && s[2..][3] == EscapeChar(c)[5];
    assert HexUnit(s[2..]) == Some(c as int);
    assert s[6..] == rest;
  }

  /** A string of a valid text reads the same escaped. Its escapes stay whole because no hot
      character can follow an unpaired backslash. */
  lemma {:induction false} CharsEscaped(s: string)
    requires ReadChars(s).Good?
    ensures ReadChars(Escape(s)) == EscapeRest(ReadChars(s))
    decreases |s|
  {
    if s[0] == '\"' {
      CoolHead(s);
    } else if s[0] == '\\' {
      CoolHead(s);
      assert s[1] in s;
      CoolHead(s[1..]);
      assert Escape(s)[1] == s[1] && Escape(s)[2..] == Escape(s[2..]);
      if s[1] == 'u' {
        HexEscaped(s[2..]);
        assert Escape(s)[6..] == Escape(s[2..])[4..] && s[2..][4..] == s[6..];
        CharsEscaped(s[6..]);
      } else {
        CharsEscaped(s[2..]);
      }
    } else {
      CharsEscaped(s[1..]);
      if Hot(s[0]) {
        HotIsReadBack(s[0], Escape(s[1..]));
      } else {
        CoolHead(s);
      }
    }
  }

  lemma {:induction false} ValueEscaped(s: string)
    requires ReadValue(s).Good?
    ensures ReadValue(Escape(s)) == EscapeRest(ReadValue(s))
    decreases |s|, 0
  {
    if s[0] == '{' {
      CoolHead(s);
      SpaceEscaped(s[1..]);
      var inner := SkipSpace(s[1..]);
      SameStart(inner, '}');
      if StartsWith(inner, '}') { CoolHead(inner); } else { MembersEscaped(inner); }
    } else if s[0] == '[' {
      CoolHead(s);
      SpaceEscaped(s[1..]);
      var inner := SkipSpace(s[1..]);
      SameStart(inner, ']');
      if StartsWith(inner, ']') { CoolHead(inner); } else { ItemsEscaped(inner); }
    } else if s[0] == '\"' {
      CoolHead(s);
      CharsEscaped(s[1..]);
    } else if s[0] == 't' {
      WordEscaped(s, "true");
    } else if s[0] == 'f' {
      WordEscaped(s, "false");
    } else if s[0] == 'n' {
      WordEscaped(s, "null");
    } else {
      NumberEscaped(s);
      if Hot(s[0]) { assert !StartsWith(s, '-') && Digits(s).0 == ""; }
      CoolHead(s);
    }
  }

  lemma {:induction false} ElementEscaped(s: string)
    requires ReadElement(s).Good?
    ensures ReadElement(Escape(s)) == EscapeRest(ReadElement(s))
    decreases |s|, 1
  {
    SpaceEscaped(s);
    ValueEscaped(SkipSpace(s));
    SpaceEscaped(ReadValue(SkipSpace(s)).rest);
  }

  lemma {:induction false} ItemsEscaped(s: string)
    requires ReadItems(s).Good?
    ensures ReadItems(Escape(s)) == EscapeRest(ReadItems(s))
    decreases |s|, 2
  {
    ElementEscaped(s);
    var rest := ReadElement(s).rest;
    SameStart(rest, ']');
    SameStart(rest, ',');
    CoolHead(rest);
    if !StartsWith(rest, ']') { ItemsEscaped(rest[1..]); }
  }

  lemma {:induction false} MemberEscaped(s: string)
    requires ReadMember(s).Good?
    ensures ReadMember(Escape(s)) == EscapeRest(ReadMember(s))
    decreases |s|, 2
  {
    SpaceEscaped(s);
    var named := SkipSpace(s);
    SameStart(named, '\"');
    CoolHead(named);
    CharsEscaped(named[1..]);
    var rest := ReadChars(named[1..]).rest;
    SpaceEscaped(rest);
    var colon := SkipSpace(rest);
    SameStart(colon, ':');
    CoolHead(colon);
    ElementEscaped(colon[1..]);
  }

  lemma {:induction false} MembersEscaped(s: string)
    requires ReadMembers(s).Good?
    ensures ReadMembers(Escape(s)) == EscapeRest(ReadMembers(s))
    decreases |s|, 3
  {
    MemberEscaped(s);
    var rest := ReadMember(s).rest;
    SameStart(rest, '}');
    SameStart(rest, ',');
    CoolHead(rest);
    if !StartsWith(rest, '}') { MembersEscaped(rest[1..]); }
  }

  /** Every valid JSON text, escaped for the block, is valid and parses to the same value. */
  lemma EscapingPreservesMeaning(s: string)
    requires Parse(s).Some?
    ensures Parse(ForScriptBlock(s)) == Parse(s)
  {
    PassesAreOne(s);
    ElementEscaped(s);
  }

  function Codes(s: string): Units {
    if s == "" then [] else Utf16(s[0]) + Codes(s[1..])
  }

  predicate Plain(s: string) { forall i | 0 <= i < |s| :: ' ' <= s[i] && s[i] != '\"' && s[i] != '\\' }

  lemma {:induction false} PlainChars(s: string)
    requires Plain(s)
    ensures ReadChars(s + "\"") == Good(Codes(s), "")
  {
    if s == "" {
      assert s + "\"" == "\"";
    } else {
      PlainChars(s[1..]);
      assert (s + "\"")[1..] == s[1..] + "\"";
    }
  }

  /** A string literal that begins with an unpaired backslash before a hot character. */
  function Unpaired(c: char): string {
    ['\"', '\\', c, '\"']
  }

  lemma UnpairedIsNoJson(c: char)
    requires Hot(c)
    ensures Parse(Unpaired(c)).None?
  {
    var s := Unpaired(c);
    assert s[1..][0] == '\\' && s[1..][1] == c;
    assert ReadChars(s[1..]) == Bad;
  }

  lemma UnpairedEscaped(c: char)
    requires Hot(c)
    ensures ForScriptBlock(Unpaired(c)) == ['\"', '\\'] + EscapeChar(c) + ['\"']
  {
    PassesAreOne(Unpaired(c));
    EscapeOne('\"');
    EscapeOne('\\');
    EscapeOne(c);
    EscapeThree(['\"', '\\'], [c], ['\"']);
    EscapeConcat(['\"'], ['\\']);
    assert ['\"'] + ['\\'] == ['\"', '\\'];
    assert Unpaired(c) == ['\"', '\\'] + [c] + ['\"'];
  }

  lemma EscapeThree(a: string, b: string, c: string)
    ensures Escape(a + b + c) == Escape(a) + Escape(b) + Escape(c)
  {
    EscapeConcat(a + b, c);
    EscapeConcat(a, b);
  }

  lemma EscapeOne(c: char)
    ensures Escape([c]) == EscapeChar(c)
  {
    assert [c][1..] == "" && EscapeChar(c) + "" == EscapeChar(c);
  }

  lemma PairedReads(s: string, units: Units)
    requires ReadChars(s) == Good(units, "")
    ensures ReadChars(['\\', '\\'] + s) == Good([0x5C] + units, "")
  {
    assert (['\\', '\\'] + s)[2..] == s;
  }

  lemma Quoted(s: string, units: Units)
    requires ReadChars(s) == Good(units, "")
    ensures Parse(['\"'] + s) == Some(Text(units))
  {
    var t := ['\"'] + s;
    assert t[1..] == s;
    assert SkipSpace(t) == t && SkipSpace("") == "";
    assert ReadValue(t) == Good(Text(units), "");
  }

  lemma EscapedPairReads(word: string)
    requires Plain(word)
    ensures Parse(['\"', '\\', '\\'] + word + ['\"']) == Some(Text([0x5C] + Codes(word)))
  {
    PlainChars(word);
    PairedReads(word + "\"", Codes(word));
    Quoted(['\\', '\\'] + (word + "\""), [0x5C] + Codes(word));
    assert ['\"'] + (['\\', '\\'] + (word + "\"")) == ['\"', '\\', '\\'] + word + ['\"'];
  }

  lemma StillPaired(word: string)
    ensures ['\"', '\\'] + (['\\'] + word) + ['\"'] == ['\"', '\\', '\\'] + word + ['\"']
  {
  }

  lemma EscapeIsPlain(c: char)
    requires Hot(c)
    ensures EscapeChar(c) == ['\\'] + EscapeChar(c)[1..] && Plain(EscapeChar(c)[1..])
  {
  }

  /** Validity is needed: behind an unpaired backslash the escape pairs up with it, and a text that
      was no JSON becomes JSON. */
  lemma {:induction false} BackslashBeforeHot(c: char)
    requires Hot(c)
    ensures Parse(Unpaired(c)).None?
    ensures Parse(ForScriptBlock(Unpaired(c))) == Some(Text([0x5C] + Codes(EscapeChar(c)[1..])))
  {
    UnpairedIsNoJson(c);
    UnpairedEscaped(c);
    EscapeIsPlain(c);
    EscapedPairReads(EscapeChar(c)[1..]);
    StillPaired(EscapeChar(c)[1..]);
  }
}
