/** `encodeURIComponent` (UTF-8, then percent-encoding as in section 2.1 of RFC 3986) and the reading
    that undoes it. */
module PercentCoding {
  import opened Wrappers
  import opened Texts

  type Byte = b: nat | b < 256

  // ----- UTF-8, RFC 3629 section 3 -----------------------------------------------------------

  function Utf8(c: char): seq<Byte> {
    var n := c as int;
    if n < 0x80 then [n]
    else if n < 0x800 then [0xC0 + n / 64, 0x80 + n % 64]
    else if n < 0x10000 then [0xE0 + n / 4096, 0x80 + n / 64 % 64, 0x80 + n % 64]
    else [0xF0 + n / 262144, 0x80 + n / 4096 % 64, 0x80 + n / 64 % 64, 0x80 + n % 64]
  }

  predicate IsTail(b: Byte) { 0x80 <= b < 0xC0 }

  function Tail(b: Byte): int { b as int - 0x80 }

  /** The character at the start of the bytes, refusing overlong forms and surrogates, and how many
      bytes it takes. */
  function FirstChar(bytes: seq<Byte>): (r: Option<(char, nat)>)
    ensures r.Some? ==> 0 < r.value.1 <= |bytes|
  {
    if bytes == [] then None
    else
      var b := bytes[0];
      if b < 0x80 then Some((b as char, 1))
      else if 0xC2 <= b < 0xE0 && |bytes| >= 2 && IsTail(bytes[1]) then
        Some((((b as int - 0xC0) * 64 + Tail(bytes[1])) as char, 2))
      else if 0xE0 <= b < 0xF0 && |bytes| >= 3 && IsTail(bytes[1]) && IsTail(bytes[2]) then
        var n := (b as int - 0xE0) * 4096 + Tail(bytes[1]) * 64 + Tail(bytes[2]);
        if n < 0x800 || 0xD800 <= n < 0xE000 then None else Some((n as char, 3))
      else if 0xF0 <= b && |bytes| >= 4 && IsTail(bytes[1]) && IsTail(bytes[2]) && IsTail(bytes[3]) then
        var n := (b as int - 0xF0) * 262144 + Tail(bytes[1]) * 4096 + Tail(bytes[2]) * 64 + Tail(bytes[3]);
        if n < 0x10000 || 0x110000 <= n then None else Some((n as char, 4))
      else None
  }

  function FromUtf8(bytes: seq<Byte>): Option<string>
    decreases |bytes|
  {
    if bytes == [] then Some("")
    else
      match FirstChar(bytes)
      case None => None
      case Some((c, n)) =>
        match FromUtf8(bytes[n..])
        case None => None
        case Some(rest) => Some([c] + rest)
  }

  lemma FirstCharBack(c: char, rest: seq<Byte>)
    ensures FirstChar(Utf8(c) + rest) == Some((c, |Utf8(c)|))
  {
    var n := c as int;
    var bytes := Utf8(c) + rest;
    if n < 0x80 {
    } else if n < 0x800 {
      assert n == n / 64 * 64 + n % 64;
    } else if n < 0x10000 {
      ThreeDigits(n);
      assert bytes[..3] == Utf8(c);
    } else {
      FourDigits(n);
    }
  }

  lemma ThreeDigits(n: nat)
    ensures n / 4096 * 4096 + n / 64 % 64 * 64 + n % 64 == n
  {
    assert n / 4096 == n / 64 / 64;
  }

  lemma FourDigits(n: nat)
    ensures n / 262144 * 262144 + n / 4096 % 64 * 4096 + n / 64 % 64 * 64 + n % 64 == n
  {
    var high := n / 64;
    assert high / 4096 == n / 262144 && high / 64 == n / 4096;
    ThreeDigits(high);
    assert n == high * 64 + n % 64;
  }

  // ----- percent-encoding --------------------------------------------------------------------

  /** The characters `encodeURIComponent` leaves alone. */
  predicate Unreserved(c: char) {
    || IsUpper(c) || IsLower(c) || IsDigit(c)
    || c in ['-', '_', '.', '!', '~', '*', '\'', '(', ')']
  }

  function HexDigit(n: nat): char
    requires n < 16
  {
    if n < 10 then '0' + n as char else 'A' + (n - 10) as char
  }

  function Escaped(bytes: seq<Byte>): string {
    if bytes == [] then "" else ['%', HexDigit(bytes[0] / 16), HexDigit(bytes[0] % 16)] + Escaped(bytes[1..])
  }

  function EncodeChar(c: char): string { if Unreserved(c) then [c] else Escaped(Utf8(c)) }

  function Encode(s: string): string { if s == "" then "" else EncodeChar(s[0]) + Encode(s[1..]) }

  /** The bytes a percent-encoded text stands for. */
  function Bytes(s: string): Option<seq<Byte>>
    decreases |s|
  {
    if s == "" then Some([])
    else if s[0] == '%' then
      if |s| < 3 || HexValue(s[1]).None? || HexValue(s[2]).None? then None
      else
        match Bytes(s[3..])
        case None => None
        case Some(rest) => Some([HexValue(s[1]).value * 16 + HexValue(s[2]).value] + rest)
    else if s[0] as int < 0x80 then
      match Bytes(s[1..])
      case None => None
      case Some(rest) => Some([s[0] as int] + rest)
    else None
  }

  function Decode(s: string): Option<string> {
    match Bytes(s)
    case None => None
    case Some(bytes) => FromUtf8(bytes)
  }

  lemma {:induction false} EscapedBack(bytes: seq<Byte>, rest: string)
    ensures Bytes(Escaped(bytes) + rest) ==
            match Bytes(rest) case None => None case Some(more) => Some(bytes + more)
  {
    if bytes == [] {
      assert Escaped(bytes) + rest == rest;
      if Bytes(rest).Some? { assert bytes + Bytes(rest).value == Bytes(rest).value; }
    } else {
      EscapedBack(bytes[1..], rest);
      var s := Escaped(bytes) + rest;
      assert s[3..] == Escaped(bytes[1..]) + rest;
      assert HexValue(s[1]) == Some(bytes[0] / 16) && HexValue(s[2]) == Some(bytes[0] % 16);
      if Bytes(rest).Some? { assert [bytes[0]] + (bytes[1..] + Bytes(rest).value) == bytes + Bytes(rest).value; }
    }
  }

  /** The UTF-8 of a whole text. */
  function AllUtf8(s: string): seq<Byte> { if s == "" then [] else Utf8(s[0]) + AllUtf8(s[1..]) }

  lemma {:induction false} BytesOfEncoded(s: string)
    ensures Bytes(Encode(s)) == Some(AllUtf8(s))
  {
    if s != "" {
      BytesOfEncoded(s[1..]);
      if Unreserved(s[0]) {
        assert Encode(s)[1..] == Encode(s[1..]);
      } else {
        EscapedBack(Utf8(s[0]), Encode(s[1..]));
      }
    }
  }

  lemma {:induction false} Utf8Back(s: string)
    ensures FromUtf8(AllUtf8(s)) == Some(s)
  {
    if s != "" {
      Utf8Back(s[1..]);
      FirstCharBack(s[0], AllUtf8(s[1..]));
      assert AllUtf8(s)[|Utf8(s[0])|..] == AllUtf8(s[1..]);
      assert [s[0]] + s[1..] == s;
    }
  }

  /** Any text, encoded, decodes to itself. */
  lemma {:induction false} DecodeEncode(s: string)
    ensures Decode(Encode(s)) == Some(s)
  {
    BytesOfEncoded(s);
    Utf8Back(s);
  }

  predicate Safe(s: string) { forall i | 0 <= i < |s| :: Unreserved(s[i]) || s[i] == '%' }

  lemma {:induction false} EscapedIsSafe(bytes: seq<Byte>)
    ensures Safe(Escaped(bytes))
  {
    if bytes != [] { EscapedIsSafe(bytes[1..]); }
  }

  lemma {:induction false} EncodedIsSafe(s: string)
    ensures Safe(Encode(s))
  {
    if s != "" {
      EncodedIsSafe(s[1..]);
      EscapedIsSafe(Utf8(s[0]));
    }
  }

  /** The characters that the encoder leaves as they are. */
  lemma LeftAlone(c: char)
    ensures Encode([c]) == [c] <==>
            'A' <= c <= 'Z' || 'a' <= c <= 'z' || '0' <= c <= '9' || c in "-_.!~*'()"
  {
    assert [c][1..] == "" && EncodeChar(c) + "" == EncodeChar(c);
    if !Unreserved(c) { assert EncodeChar(c)[0] == '%'; }
  }
}
