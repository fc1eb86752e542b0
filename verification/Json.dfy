/** JSON texts as RFC 8259 has them: a recursive-descent reading of its grammar (sections 2 to 7)
    into values whose strings are UTF-16 code units, as a page's `JSON.parse` sees them. */
module Json {
  import opened Wrappers
  import opened Texts

  type Units = seq<nat>

  /** A number is kept as it is spelled. */
  datatype Value =
    | Null
    | Bool(value: bool)
    | Number(spelling: string)
    | Text(units: Units)
    | Array(items: seq<Value>)
    | Object(members: seq<(Units, Value)>)

  /** What a reader made of the beginning of a text, and the text that is left. */
  datatype Read<+T> = Bad | Good(value: T, rest: string)

  predicate IsSpace(c: char) { c == ' ' || c == '\t' || c == '\n' || c == '\r' }

  function Utf16(c: char): Units {
    var n := c as int;
    if n < 0x10000 then [n] else [0xD800 + (n - 0x10000) / 0x400, 0xDC00 + (n - 0x10000) % 0x400]
  }

  predicate StartsWith(s: string, c: char) { s != "" && s[0] == c }

  function SkipSpace(s: string): (rest: string)
    ensures |rest| <= |s|
  {
    if s != "" && IsSpace(s[0]) then SkipSpace(s[1..]) else s
  }

  // ----- strings ---------------------------------------------------------------------------

  function ShortEscape(c: char): Option<nat> {
    match c
    case '\"' => Some(0x22)
    case '\\' => Some(0x5C)
    case '/' => Some(0x2F)
    case 'b' => Some(0x08)
    case 'f' => Some(0x0C)
    case 'n' => Some(0x0A)
    case 'r' => Some(0x0D)
    case 't' => Some(0x09)
    case _ => None
  }

  /** The code unit of four hexadecimal digits. */
  function HexUnit(s: string): Option<nat> {
    if |s| < 4 then None
    else
      var a, b, c, d := HexValue(s[0]), HexValue(s[1]), HexValue(s[2]), HexValue(s[3]);
      if a.Some? && b.Some? && c.Some? && d.Some?
      then Some(((a.value * 16 + b.value) * 16 + c.value) * 16 + d.value) else None
  }

  function Before(units: Units, r: Read<Units>): Read<Units> {
    match r
    case Bad => Bad
    case Good(more, rest) => Good(units + more, rest)
  }

  /** A string from behind its opening quote. */
  function ReadChars(s: string): (r: Read<Units>)
    ensures r.Good? ==> |r.rest| < |s|
    decreases |s|
  {
    if s == "" then Bad
    else if s[0] == '\"' then Good([], s[1..])
    else if s[0] == '\\' then
      if |s| < 2 then Bad
      else if s[1] == 'u' then
        var unit := HexUnit(s[2..]);
        if unit.None? then Bad else Before([unit.value], ReadChars(s[6..]))
      else
        var unit := ShortEscape(s[1]);
        if unit.None? then Bad else Before([unit.value], ReadChars(s[2..]))
    else if s[0] < ' ' then Bad
    else Before(Utf16(s[0]), ReadChars(s[1..]))
  }

  // ----- numbers ---------------------------------------------------------------------------

  function Digits(s: string): (r: (string, string))
    ensures r.0 + r.1 == s
    ensures |r.1| <= |s|
  {
    if s != "" && IsDigit(s[0]) then
      var (more, rest) := Digits(s[1..]);
      ([s[0]] + more, rest)
    else ("", s)
  }

  function ReadInt(s: string): Read<string> {
    if StartsWith(s, '0') then Good("0", s[1..])
    else
      var (digits, rest) := Digits(s);
      if digits == "" then Bad else Good(digits, rest)
  }

  function ReadFraction(s: string): Read<string> {
    if StartsWith(s, '.') then
      var (digits, rest) := Digits(s[1..]);
      if digits == "" then Bad else Good("." + digits, rest)
    else Good("", s)
  }

  function Sign(s: string): (string, string) {
    if StartsWith(s, '+') || StartsWith(s, '-') then (s[..1], s[1..]) else ("", s)
  }

  function ReadExponent(s: string): Read<string> {
    if StartsWith(s, 'e') || StartsWith(s, 'E') then
      var (sign, unsigned) := Sign(s[1..]);
      var (digits, rest) := Digits(unsigned);
      if digits == "" then Bad else Good(s[..1] + sign + digits, rest)
    else Good("", s)
  }

  function ReadUnsigned(s: string): Read<string> {
    match ReadInt(s)
    case Bad => Bad
    case Good(whole, s1) =>
      match ReadFraction(s1)
      case Bad => Bad
      case Good(fraction, s2) =>
        match ReadExponent(s2)
        case Bad => Bad
        case Good(exponent, rest) => Good(whole + fraction + exponent, rest)
  }

  function ReadNumber(s: string): (r: Read<string>)
    ensures r.Good? ==> |r.rest| < |s|
  {
    if StartsWith(s, '-') then
      match ReadUnsigned(s[1..])
      case Bad => Bad
      case Good(unsigned, rest) => Good("-" + unsigned, rest)
    else ReadUnsigned(s)
  }

  // ----- values ----------------------------------------------------------------------------

  function ReadWord(s: string, word: string, value: Value): (r: Read<Value>)
    requires word != ""
    ensures r.Good? ==> |r.rest| < |s|
  {
    if word <= s then Good(value, s[|word|..]) else Bad
  }

  /** A value with no space before it. */
  function ReadValue(s: string): (r: Read<Value>)
    ensures r.Good? ==> |r.rest| < |s|
    decreases |s|, 0
  {
    if s == "" then Bad
    else if s[0] == '{' then
      var inner := SkipSpace(s[1..]);
      if StartsWith(inner, '}') then Good(Object([]), inner[1..])
      else
        match ReadMembers(inner)
        case Bad => Bad
        case Good(members, rest) => Good(Object(members), rest)
    else if s[0] == '[' then
      var inner := SkipSpace(s[1..]);
      if StartsWith(inner, ']') then Good(Array([]), inner[1..])
      else
        match ReadItems(inner)
        case Bad => Bad
        case Good(items, rest) => Good(Array(items), rest)
    else if s[0] == '\"' then
      match ReadChars(s[1..])
      case Bad => Bad
      case Good(units, rest) => Good(Text(units), rest)
    else if s[0] == 't' then ReadWord(s, "true", Bool(true))
    else if s[0] == 'f' then ReadWord(s, "false", Bool(false))
    else if s[0] == 'n' then ReadWord(s, "null", Null)
    else
      match ReadNumber(s)
      case Bad => Bad
      case Good(spelling, rest) => Good(Number(spelling), rest)
  }

  /** A value with space around it. */
  function ReadElement(s: string): (r: Read<Value>)
    ensures r.Good? ==> |r.rest| < |s|
    decreases |s|, 1
  {
    match ReadValue(SkipSpace(s))
    case Bad => Bad
    case Good(value, rest) => Good(value, SkipSpace(rest))
  }

  /** One or more elements and the closing bracket. */
  function ReadItems(s: string): (r: Read<seq<Value>>)
    ensures r.Good? ==> |r.rest| < |s|
    decreases |s|, 2
  {
    match ReadElement(s)
    case Bad => Bad
    case Good(value, rest) =>
      if StartsWith(rest, ']') then Good([value], rest[1..])
      else if StartsWith(rest, ',') then
        match ReadItems(rest[1..])
        case Bad => Bad
        case Good(values, rest') => Good([value] + values, rest')
      else Bad
  }

  function ReadMember(s: string): (r: Read<(Units, Value)>)
    ensures r.Good? ==> |r.rest| < |s|
    decreases |s|, 2
  {
    var named := SkipSpace(s);
    if !StartsWith(named, '\"') then Bad
    else
      match ReadChars(named[1..])
      case Bad => Bad
      case Good(name, rest) =>
        var colon := SkipSpace(rest);
        if !StartsWith(colon, ':') then Bad
        else
          match ReadElement(colon[1..])
          case Bad => Bad
          case Good(value, rest') => Good((name, value), rest')
  }

  /** One or more members and the closing brace. */
  function ReadMembers(s: string): (r: Read<seq<(Units, Value)>>)
    ensures r.Good? ==> |r.rest| < |s|
    decreases |s|, 3
  {
    match ReadMember(s)
    case Bad => Bad
    case Good(member, rest) =>
      if StartsWith(rest, '}') then Good([member], rest[1..])
      else if StartsWith(rest, ',') then
        match ReadMembers(rest[1..])
        case Bad => Bad
        case Good(members, rest') => Good([member] + members, rest')
      else Bad
  }

  /** A whole text: one element and nothing after it. */
  function Parse(s: string): Option<Value> {
    match ReadElement(s)
    case Bad => None
    case Good(value, rest) => if rest == "" then Some(value) else None
  }
}
