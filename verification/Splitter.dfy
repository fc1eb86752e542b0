/** Reading the TypeScript types that ts-rs prints: the bracket-aware splitter, the fields of an
    object type, and the positions of a tuple type. */
module Splitter {
  import opened Wrappers
  import opened Texts

  datatype Field = Field(name: string, tsType: string)

  predicate Opens(c: char) { c == '<' || c == '[' || c == '{' || c == '(' }
  predicate Closes(c: char) { c == '>' || c == ']' || c == '}' || c == ')' }

  function Deeper(c: char, depth: int): int {
    if Opens(c) then depth + 1 else if Closes(c) then depth - 1 else depth
  }

  /** A finished entry: nothing when only white space was collected. */
  function Entry(cur: string): seq<string> { if Trim(cur) == "" then [] else [Trim(cur)] }

  /** The entries of `cur` followed by `s`, `depth` brackets deep. All bracket kinds count alike. */
  function Entries(s: string, depth: int, cur: string): seq<string>
    decreases |s|
  {
    if s == "" then Entry(cur)
    else if s[0] == ',' && depth == 0 then Entry(cur) + Entries(s[1..], 0, "")
    else Entries(s[1..], Deeper(s[0], depth), cur + [s[0]])
  }

  method SplitTopLevel(s: string) returns (out: seq<string>)
    ensures out == Entries(s, 0, "")
  {
    out := [];
    var depth, cur := 0, "";
    assert s[0..] == s && [] + Entries(s, 0, "") == Entries(s, 0, "");
    for i := 0 to |s|
      invariant Entries(s, 0, "") == out + Entries(s[i..], depth, cur)
    {
      var ch := s[i];
      assert s[i..][1..] == s[i + 1..];
      if ch == ',' && depth == 0 {
        EntryFirst(out, cur, Entries(s[i + 1..], 0, ""));
        var t := Trim(cur);
        if t != "" { out := out + [t]; }
        cur := "";
      } else {
        if Opens(ch) { depth := depth + 1; } else if Closes(ch) { depth := depth - 1; }
        cur := cur + [ch];
      }
    }
    var t := Trim(cur);
    EntryFirst(out, cur, []);
    assert Entry(cur) + [] == Entry(cur);
    if t != "" { out := out + [t]; }
  }

  lemma EntryFirst(out: seq<string>, cur: string, more: seq<string>)
    ensures out + (Entry(cur) + more) == (if Trim(cur) != "" then out + [Trim(cur)] else out) + more
  {
  }

  // ----- printing and splitting ----------------------------------------------------------------

  /** The depth behind a text, unless a comma in it stands outside all brackets. */
  function Carry(s: string, depth: int): Option<int> {
    if s == "" then Some(depth)
    else if s[0] == ',' && depth == 0 then None
    else Carry(s[1..], Deeper(s[0], depth))
  }

  /** An entry a list can hold: trimmed, not empty, balanced, and no comma outside its brackets. */
  predicate Whole(s: string) { s != "" && Trimmed(s) && Carry(s, 0) == Some(0) }

  lemma {:induction false} CarryConcat(a: string, b: string, depth: int)
    requires Carry(a, depth).Some?
    ensures Carry(a + b, depth) == Carry(b, Carry(a, depth).value)
    decreases |a|
  {
    if a == "" {
      assert a + b == b;
    } else {
      assert (a + b)[1..] == a[1..] + b;
      CarryConcat(a[1..], b, Deeper(a[0], depth));
    }
  }

  lemma {:induction false} WhiteCarries(s: string, depth: int)
    requires AllWhite(s)
    ensures Carry(s, depth) == Some(depth)
    decreases |s|
  {
    if s != "" {
      assert IsWhite(s[0]);
      WhiteCarries(s[1..], depth);
    }
  }

  lemma {:induction false} EntriesCarry(s: string, rest: string, depth: int, cur: string)
    requires Carry(s, depth).Some?
    ensures Entries(s + rest, depth, cur) == Entries(rest, Carry(s, depth).value, cur + s)
    decreases |s|
  {
    if s == "" {
      assert s + rest == rest && cur + s == cur;
    } else {
      assert (s + rest)[1..] == s[1..] + rest;
      assert cur + [s[0]] + s[1..] == cur + s;
      EntriesCarry(s[1..], rest, Deeper(s[0], depth), cur + [s[0]]);
    }
  }

  /** An entry as it stands in a list, between white space. */
  datatype Item = Item(left: string, text: string, right: string) {
    predicate Valid() { AllWhite(left) && Whole(text) && AllWhite(right) }
    function Printed(): string { left + text + right }
  }

  /** Items parted by commas; `end` is the comma and the white space that may follow the last. */
  function Listed(items: seq<Item>, end: string): string {
    if items == [] then end
    else if |items| == 1 then items[0].Printed() + end
    else items[0].Printed() + ("," + Listed(items[1..], end))
  }

  predicate IsEnd(end: string) { AllWhite(end) || (end[0] == ',' && AllWhite(end[1..])) }

  function TextsOf(items: seq<Item>): seq<string> {
    seq(|items|, i requires 0 <= i < |items| => items[i].text)
  }

  lemma ItemRead(item: Item, rest: string)
    requires item.Valid()
    ensures Entries(item.Printed() + rest, 0, "") == Entries(rest, 0, item.Printed())
    ensures Entry(item.Printed()) == [item.text]
  {
    var s := item.Printed();
    WhiteCarries(item.left, 0);
    CarryConcat(item.left, item.text, 0);
    CarryConcat(item.left + item.text, item.right, 0);
    WhiteCarries(item.right, 0);
    EntriesCarry(s, rest, 0, "");
    assert "" + s == s;
    TrimPadded(item.left, item.text, item.right);
  }

  lemma WhiteRead(s: string, cur: string)
    requires AllWhite(s)
    ensures Entries(s, 0, cur) == Entry(cur) && Entry(s) == []
  {
    WhiteCarries(s, 0);
    EntriesCarry(s, "", 0, cur);
    assert s + "" == s;
    TrimEndPad(cur, s);
    TrimPadded(s, "", "");
    assert s + "" + "" == s;
    PaddedEntry(cur, s);
  }

  /** White space behind an entry does not show. */
  lemma {:induction false} PaddedEntry(cur: string, pad: string)
    requires AllWhite(pad)
    ensures Entry(cur + pad) == Entry(cur)
  {
    PaddedTrim(cur, pad);
  }

  lemma {:induction false} PaddedTrim(s: string, pad: string)
    requires AllWhite(pad)
    ensures Trim(s + pad) == Trim(s)
  {
    if s == "" {
      assert s + pad == pad && pad + "" == pad;
      TrimStartPad(pad, "");
    } else if IsWhite(s[0]) {
      assert (s + pad)[1..] == s[1..] + pad;
      PaddedTrim(s[1..], pad);
    } else {
      assert (s + pad)[0] == s[0];
      TrimEndPad(s, pad);
    }
  }

  lemma EndRead(cur: string, end: string)
    requires IsEnd(end)
    ensures Entries(end, 0, cur) == Entry(cur)
  {
    if AllWhite(end) {
      WhiteRead(end, cur);
    } else {
      WhiteRead(end[1..], "");
      assert Entry("") == [] && Entry(cur) + [] == Entry(cur);
    }
  }

  lemma ListedFirst(items: seq<Item>, end: string)
    requires |items| > 1 && items[0].Valid()
    ensures Entries(Listed(items, end), 0, "") == [items[0].text] + Entries(Listed(items[1..], end), 0, "")
  {
    var rest := Listed(items[1..], end);
    ItemRead(items[0], "," + rest);
    assert ("," + rest)[1..] == rest;
  }

  lemma ListedOne(item: Item, end: string)
    requires item.Valid() && IsEnd(end)
    ensures Entries(item.Printed() + end, 0, "") == [item.text]
  {
    ItemRead(item, end);
    EndRead(item.Printed(), end);
  }

  /** Splitting a printed list gives its entries back, whatever white space is around them and
      whether or not a comma follows the last. */
  lemma {:induction false} SplitInvertsPrint(items: seq<Item>, end: string)
    requires forall i | 0 <= i < |items| :: items[i].Valid()
    requires IsEnd(end)
    ensures Entries(Listed(items, end), 0, "") == TextsOf(items)
    decreases |items|
  {
    if items == [] {
      EndRead("", end);
      assert Entry("") == [];
    } else if |items| == 1 {
      ListedOne(items[0], end);
      assert TextsOf(items) == [items[0].text];
    } else {
      ListedFirst(items, end);
      SplitInvertsPrint(items[1..], end);
      assert TextsOf(items) == [items[0].text] + TextsOf(items[1..]);
    }
  }

  // ----- object types ----------------------------------------------------------------------------

  function FieldOf(entry: string): Option<Field> {
    match SplitOnce(entry, ':')
    case None => None
    case Some((name, ty)) => Some(Field(TrimEndOf(Trim(name), '?'), Trim(ty)))
  }

  function FieldsOf(entries: seq<string>): Option<seq<Field>> {
    if entries == [] then Some([])
    else
      match (FieldOf(entries[0]), FieldsOf(entries[1..]))
      case (Some(field), Some(rest)) => Some([field] + rest)
      case _ => None
  }

  function ObjectFields(inline: string): Option<seq<Field>> {
    match Between(Trim(inline), '{', '}')
    case None => None
    case Some(body) => FieldsOf(Entries(body, 0, ""))
  }

  function After(fields: seq<Field>, more: Option<seq<Field>>): Option<seq<Field>> {
    match more
    case None => None
    case Some(rest) => Some(fields + rest)
  }

  lemma AfterOne(fields: seq<Field>, entry: string, more: seq<string>)
    ensures After(fields, FieldsOf([entry] + more)) ==
            match FieldOf(entry) case None => None case Some(field) => After(fields + [field], FieldsOf(more))
  {
    assert ([entry] + more)[1..] == more;
    if FieldOf(entry).Some? && FieldsOf(more).Some? {
      var field, rest := FieldOf(entry).value, FieldsOf(more).value;
      assert fields + ([field] + rest) == fields + [field] + rest;
    }
  }

  lemma AfterNext(fields: seq<Field>, entries: seq<string>, i: nat)
    requires i < |entries|
    ensures After(fields, FieldsOf(entries[i..])) ==
            match FieldOf(entries[i])
            case None => None
            case Some(field) => After(fields + [field], FieldsOf(entries[i + 1..]))
  {
    assert entries[i..] == [entries[i]] + entries[i + 1..];
    AfterOne(fields, entries[i], entries[i + 1..]);
  }

  lemma AfterAll(fields: seq<Field>, entries: seq<string>)
    ensures After(fields, FieldsOf(entries[|entries|..])) == Some(fields)
  {
    assert entries[|entries|..] == [] && fields + [] == fields;
  }

  lemma AfterNone(r: Option<seq<Field>>)
    ensures After([], r) == r
  {
    if r.Some? { assert [] + r.value == r.value; }
  }

  method ParseObjectFields(inline: string) returns (r: Option<seq<Field>>)
    ensures r == ObjectFields(inline)
  {
    var body := Between(Trim(inline), '{', '}');
    if body.None? { return None; }
    var entries := SplitTopLevel(body.value);
    var fields := [];
    AfterNone(FieldsOf(entries));
    assert entries[0..] == entries;
    for i := 0 to |entries|
      invariant FieldsOf(entries) == After(fields, FieldsOf(entries[i..]))
    {
      AfterNext(fields, entries, i);
      var once := SplitOnce(entries[i], ':');
      if once.None? { return None; }
      fields := fields + [Field(TrimEndOf(Trim(once.value.0), '?'), Trim(once.value.1))];
    }
    AfterAll(fields, entries);
    return Some(fields);
  }

  /** A field as ts-rs prints it. */
  datatype Member = Member(name: string, optional: bool, tsType: string) {
    /** A key without a colon, and a type to print. */
    predicate Printable() {
      Whole(name) && ':' !in name && name[|name| - 1] != '?' && tsType != "" && Trimmed(tsType)
    }

    /** What the splitter makes of the type: brackets of all kinds in balance, an arrow's `>` counted as
        one, and no comma outside them. */
    predicate Balanced() { Carry(tsType, 0) == Some(0) }

    function Key(): string { if optional then name + "?" else name }
    function Text(): string { Key() + [':'] + (" " + tsType) }
    function Read(): Field { Field(name, tsType) }
  }

  function Lines(members: seq<Member>): seq<Item> {
    seq(|members|, i requires 0 <= i < |members| => Item(" ", members[i].Text(), ""))
  }

  function Reads(members: seq<Member>): seq<Field> {
    seq(|members|, i requires 0 <= i < |members| => members[i].Read())
  }

  /** `{ a: T, b?: U, }` */
  function PrintObject(members: seq<Member>): string {
    "{" + Listed(Lines(members), ", ") + "}"
  }

  lemma KeyRead(m: Member)
    requires m.Printable()
    ensures ':' !in m.Key() && Trim(m.Key()) == m.Key() && TrimEndOf(m.Key(), '?') == m.name
    ensures Carry(m.Key(), 0) == Some(0) && m.Key() != "" && !IsWhite(m.Key()[0])
  {
    var key := m.Key();
    if m.optional {
      CarryConcat(m.name, "?", 0);
      assert Carry("?", 0) == Carry("?"[1..], 0) == Some(0);
      assert key[..|key| - 1] == m.name;
    }
    TrimPadded("", key, "");
    assert "" + key + "" == key;
  }

  lemma ColonCarries(rest: string)
    ensures Carry([':'] + (" " + rest), 0) == Carry(rest, 0)
  {
    assert ([':'] + (" " + rest))[1..] == " " + rest && (" " + rest)[1..] == rest;
  }

  lemma KeyCarries(key: string, ts: string)
    requires Carry(key, 0) == Some(0)
    ensures Carry(key + [':'] + (" " + ts), 0) == Carry(ts, 0)
  {
    ColonCarries(ts);
    CarryConcat(key, [':'] + (" " + ts), 0);
    assert key + [':'] + (" " + ts) == key + ([':'] + (" " + ts));
  }

  lemma TextCarries(m: Member)
    requires m.Printable()
    ensures Carry(m.Text(), 0) == Carry(m.tsType, 0)
  {
    KeyRead(m);
    KeyCarries(m.Key(), m.tsType);
  }

  lemma MemberWhole(m: Member)
    requires m.Printable() && m.Balanced()
    ensures Whole(m.Text())
  {
    KeyRead(m);
    TextCarries(m);
    assert m.Text()[0] == m.Key()[0] && m.Text()[|m.Text()| - 1] == m.tsType[|m.tsType| - 1];
  }

  /** What is read of an entry that starts as the member does. */
  lemma EntryStarts(m: Member, more: string)
    requires m.Printable()
    ensures FieldOf(Trim(" " + m.Key() + [':'] + more)) == Some(Field(m.name, Trim(more)))
  {
    KeyRead(m);
    var line := m.Key() + [':'] + more;
    assert " " + m.Key() + [':'] + more == " " + line;
    TrimStartPad(" ", line);
    TrimEndStops(m.Key(), ':', more);
    SplitOnceAt(m.Key(), ':', TrimEnd(more));
    var pad := TrimEndSplits(more);
    PaddedTrim(TrimEnd(more), pad);
  }

  lemma TextIsHead(m: Member)
    ensures " " + m.Key() + [':'] + (" " + m.tsType) == " " + m.Text()
  {
  }

  lemma MemberRead(m: Member)
    requires m.Printable() && m.Balanced()
    ensures FieldOf(m.Text()) == Some(m.Read())
  {
    EntryStarts(m, " " + m.tsType);
    TrimStartPad(" ", m.tsType);
    MemberWhole(m);
    TextIsHead(m);
    TrimStartPad(" ", m.Text());
  }

  // ----- a type out of balance -----------------------------------------------------------------------

  /** Where a comma outside all brackets cuts a text. */
  lemma {:induction false} CutAt(s: string, depth: int) returns (p: string, q: string)
    requires Carry(s, depth).None?
    ensures s == p + "," + q && Carry(p, depth) == Some(0)
    decreases |s|
  {
    if s[0] == ',' && depth == 0 {
      p, q := "", s[1..];
    } else {
      p, q := CutAt(s[1..], Deeper(s[0], depth));
      p := [s[0]] + p;
      assert p[1..] + "," + q == s[1..];
    }
  }

  /** Once there is ink, the entry at hand is the next one that comes out. */
  lemma {:induction false} FirstEntry(s: string, depth: int, cur: string, k: nat) returns (t: string)
    requires k < |cur| && !IsWhite(cur[k])
    ensures Entries(s, depth, cur) != [] && Entries(s, depth, cur)[0] == Trim(cur + t)
    decreases |s|
  {
    TrimKeepsInk(cur, k);
    if s == "" || (s[0] == ',' && depth == 0) {
      t := "";
      assert cur + t == cur;
    } else {
      t := FirstEntry(s[1..], Deeper(s[0], depth), cur + [s[0]], k);
      t := [s[0]] + t;
      assert cur + t == cur + [s[0]] + t[1..];
    }
  }

  function Head(m: Member): string { " " + m.Key() + [':'] }

  lemma HeadCarries(m: Member)
    requires m.Printable()
    ensures Carry(Head(m) + " ", 0) == Some(0)
  {
    KeyRead(m);
    ColonCarries("");
    CarryConcat(" ", m.Key(), 0);
    assert Carry(" ", 0) == Carry(" "[1..], 0) == Some(0);
    CarryConcat(" " + m.Key(), [':'] + (" " + ""), 0);
    assert " " + m.Key() + ([':'] + (" " + "")) == Head(m) + " ";
  }

  lemma TextAfterHead(m: Member, rest: string)
    ensures " " + m.Text() + rest == Head(m) + " " + (m.tsType + rest)
  {
  }

  /** Up to its type a member is read as it is, whatever the type. */
  lemma HeadRead(m: Member, rest: string)
    requires m.Printable()
    ensures Entries(" " + m.Text() + rest, 0, "") == Entries(m.tsType + rest, 0, Head(m) + " ")
  {
    HeadCarries(m);
    TextAfterHead(m, rest);
    EntriesCarry(Head(m) + " ", m.tsType + rest, 0, "");
    assert "" + (Head(m) + " ") == Head(m) + " ";
  }

  /** A comma outside all brackets ends the entry before the type is over. */
  lemma TooEarly(head: string, ts: string, rest: string, k: nat) returns (p: string)
    requires k < |head| && !IsWhite(head[k]) && Carry(ts, 0).None?
    ensures var entries := Entries(ts + rest, 0, head);
      entries != [] && entries[0] == Trim(head + p) && |p| < |ts|
  {
    var q;
    p, q := CutAt(ts, 0);
    var behind := [','] + (q + rest);
    assert ts + rest == p + behind;
    EntriesCarry(p, behind, 0, head);
    assert (head + p)[k] == head[k];
    TrimKeepsInk(head + p, k);
  }

  /** Open brackets, or closed ones too many, carry the entry past the comma behind its type. */
  lemma TooLate(head: string, ts: string, rest: string, k: nat) returns (t: string)
    requires k < |head| && !IsWhite(head[k]) && Carry(ts, 0).Some? && Carry(ts, 0) != Some(0)
    requires rest != "" && rest[0] == ','
    ensures var entries := Entries(ts + rest, 0, head);
      entries != [] && entries[0] == Trim(head + (ts + [','] + t))
  {
    EntriesCarry(ts, rest, 0, head);
    var cur := head + ts + [','];
    assert cur[k] == head[k];
    t := FirstEntry(rest[1..], Carry(ts, 0).value, cur, k);
    assert cur + t == head + (ts + [','] + t);
  }

  lemma TrimmedLengths(ts: string, p: string, t: string)
    requires ts != "" && Trimmed(ts)
    ensures |Trim(" " + p)| <= |p|
    ensures |Trim(" " + (ts + [','] + t))| > |ts|
  {
    TrimStartPad(" ", p);
    TrimStartPad(" ", ts + [','] + t);
    assert (ts + [','] + t)[0] == ts[0];
    TrimEndStops(ts, ',', t);
  }

  /** The first entry that comes of a member out of balance ends too early or too late. */
  lemma UnbalancedEntry(m: Member, rest: string) returns (more: string)
    requires m.Printable() && !m.Balanced() && rest != "" && rest[0] == ','
    ensures var entries := Entries(" " + m.Text() + rest, 0, "");
      && entries != [] && entries[0] == Trim(Head(m) + more) && Trim(more) != m.tsType
  {
    HeadRead(m, rest);
    KeyRead(m);
    var head := Head(m) + " ";
    assert head[1] == m.Key()[0];
    var p, t := "", "";
    if Carry(m.tsType, 0).None? {
      p := TooEarly(head, m.tsType, rest, 1);
      more := " " + p;
    } else {
      t := TooLate(head, m.tsType, rest, 1);
      p := m.tsType + [','] + t;
      more := " " + p;
    }
    TrimmedLengths(m.tsType, p, t);
    assert head + p == Head(m) + more;
  }

  lemma UnbalancedIsMisread(m: Member, rest: string)
    requires m.Printable() && !m.Balanced() && rest != "" && rest[0] == ','
    ensures var r := FieldsOf(Entries(" " + m.Text() + rest, 0, ""));
      r.Some? ==> r.value != [] && r.value[0] != m.Read()
  {
    var more := UnbalancedEntry(m, rest);
    EntryStarts(m, more);
  }

  lemma BalancedIsRead(m: Member, rest: string)
    requires m.Printable() && m.Balanced() && rest != "" && rest[0] == ','
    ensures FieldsOf(Entries(" " + m.Text() + rest, 0, "")) ==
            After([m.Read()], FieldsOf(Entries(rest[1..], 0, "")))
  {
    MemberWhole(m);
    MemberRead(m);
    LineRead(m.Text(), rest);
    AfterNone(FieldsOf([m.Text()] + Entries(rest[1..], 0, "")));
    AfterOne([], m.Text(), Entries(rest[1..], 0, ""));
    assert [] + [m.Read()] == [m.Read()];
  }

  lemma LineRead(text: string, rest: string)
    requires Whole(text) && rest != "" && rest[0] == ','
    ensures Entries(" " + text + rest, 0, "") == [text] + Entries(rest[1..], 0, "")
  {
    var item := Item(" ", text, "");
    ItemRead(item, rest);
    assert item.Printed() == " " + text;
  }

  function Body(members: seq<Member>): string { Listed(Lines(members), ", ") }

  lemma BodyFirst(members: seq<Member>)
    requires members != []
    ensures Body(members) == " " + members[0].Text() + if |members| == 1 then ", " else "," + Body(members[1..])
  {
    var lines := Lines(members);
    assert lines[1..] == Lines(members[1..]);
    assert lines[0].Printed() == " " + members[0].Text();
  }

  predicate AllBalanced(members: seq<Member>) {
    forall i | 0 <= i < |members| :: members[i].Balanced()
  }

  lemma BalancedFirst(members: seq<Member>)
    requires members != []
    ensures AllBalanced(members) <==> members[0].Balanced() && AllBalanced(members[1..])
  {
    var more := members[1..];
    assert forall i | 1 <= i < |members| :: members[i] == more[i - 1];
    assert forall i | 0 <= i < |more| :: more[i] == members[i + 1];
  }

  lemma MoreReads(members: seq<Member>, more: Option<seq<Field>>)
    requires members != []
    ensures After([members[0].Read()], more) == Some(Reads(members)) <==> more == Some(Reads(members[1..]))
  {
    assert Reads(members) == [members[0].Read()] + Reads(members[1..]);
    if more.Some? && [members[0].Read()] + more.value == Reads(members) {
      assert more.value == Reads(members)[1..] == Reads(members[1..]);
    }
  }

  /** The first field and what has to be read behind it. */
  lemma FirstReads(members: seq<Member>, rest: string)
    requires members != [] && members[0].Printable() && rest != "" && rest[0] == ','
    ensures FieldsOf(Entries(" " + members[0].Text() + rest, 0, "")) == Some(Reads(members)) <==>
            members[0].Balanced() && FieldsOf(Entries(rest[1..], 0, "")) == Some(Reads(members[1..]))
  {
    if members[0].Balanced() {
      BalancedIsRead(members[0], rest);
      MoreReads(members, FieldsOf(Entries(rest[1..], 0, "")));
    } else {
      UnbalancedIsMisread(members[0], rest);
      assert Reads(members)[0] == members[0].Read();
    }
  }

  lemma EndHoldsNothing()
    ensures FieldsOf(Entries(", ", 0, "")) == FieldsOf(Entries(" ", 0, "")) == Some([])
  {
    WhiteRead(" ", "");
    EndRead("", ", ");
    assert Entry("") == [];
  }

  lemma {:induction false} BodyReadsExactly(members: seq<Member>)
    requires forall i | 0 <= i < |members| :: members[i].Printable()
    ensures FieldsOf(Entries(Body(members), 0, "")) == Some(Reads(members)) <==> AllBalanced(members)
    decreases |members|
  {
    EndHoldsNothing();
    if members == [] {
      assert Lines(members) == [] && Reads(members) == [];
    } else {
      var more := members[1..];
      var rest := if |members| == 1 then ", " else "," + Body(more);
      BodyFirst(members);
      assert rest[1..] == if |members| == 1 then " " else Body(more);
      FirstReads(members, rest);
      BalancedFirst(members);
      if |members| == 1 {
        assert Reads(more) == [];
      } else {
        BodyReadsExactly(more);
      }
    }
  }

  /** Parsing a printed object type gives its fields back, in order, exactly when every type is in
      balance for the splitter. */
  lemma {:induction false} ParseInvertsPrint(members: seq<Member>)
    requires forall i | 0 <= i < |members| :: members[i].Printable()
    ensures ObjectFields(PrintObject(members)) == Some(Reads(members)) <==> AllBalanced(members)
  {
    var printed := PrintObject(members);
    TrimPadded("", printed, "");
    assert "" + printed + "" == printed;
    assert printed[1..|printed| - 1] == Body(members);
    BodyReadsExactly(members);
  }

  lemma CarryOne(c: char, s: string, depth: int)
    requires !(c == ',' && depth == 0)
    ensures Carry([c] + s, depth) == Carry(s, Deeper(c, depth))
  {
    assert ([c] + s)[1..] == s;
  }

  function Arrow(result: string): string { ['('] + ([')'] + ([' '] + (['='] + (['>'] + result)))) }

  /** A function type is out of balance: its arrow closes a bracket that nothing opened. */
  lemma ArrowIsOutOfBalance(name: string, optional: bool, result: string)
    requires forall i | 0 <= i < |result| :: !Opens(result[i]) && !Closes(result[i])
    ensures !Member(name, optional, Arrow(result)).Balanced()
  {
    var a4 := ['>'] + result;
    var a3 := ['='] + a4;
    var a2 := [' '] + a3;
    CarryOne('(', [')'] + a2, 0);
    CarryOne(')', a2, 1);
    CarryOne(' ', a3, 0);
    CarryOne('=', a4, 0);
    CarryOne('>', result, 0);
    NoBrackets(result, -1);
  }

  lemma {:induction false} NoBrackets(s: string, depth: int)
    requires depth != 0 && forall i | 0 <= i < |s| :: !Opens(s[i]) && !Closes(s[i])
    ensures Carry(s, depth) == Some(depth)
    decreases |s|
  {
    if s != "" { NoBrackets(s[1..], depth); }
  }

  // ----- path payloads -----------------------------------------------------------------------------

  const PRIMITIVES: seq<string> := ["string", "number", "bigint", "boolean", "null"]

  /** What `Path<T>` carries: positions, named fields, or one value. */
  datatype Payload = Positions(types: seq<string>) | Named(fields: seq<Field>) | One

  function PayloadOf(tsType: string, inline: string): Payload {
    match Between(tsType, '[', ']')
    case Some(inner) => Positions(Entries(inner, 0, ""))
    case None =>
      if tsType in PRIMITIVES then One
      else match ObjectFields(inline) case Some(fields) => Named(fields) case None => One
  }

  /** A tuple type carries its printed positions. */
  lemma {:induction false} TuplePositions(items: seq<Item>, inline: string)
    requires forall i | 0 <= i < |items| :: items[i].Valid()
    ensures PayloadOf("[" + Listed(items, "") + "]", inline) == Positions(TextsOf(items))
  {
    var t := "[" + Listed(items, "") + "]";
    assert t[1..|t| - 1] == Listed(items, "");
    SplitInvertsPrint(items, "");
  }

  /** A primitive path type carries one value, and any other that is no tuple carries the fields of the
      object it is printed as, or else one value. */
  lemma {:induction false} NamedPayload(tsType: string, members: seq<Member>)
    requires Between(tsType, '[', ']').None? && AllBalanced(members)
    requires forall i | 0 <= i < |members| :: members[i].Printable()
    ensures PayloadOf(tsType, PrintObject(members)) ==
            if tsType in ["string", "number", "bigint", "boolean", "null"] then One else Named(Reads(members))
  {
    ParseInvertsPrint(members);
  }

  // ----- the brackets ----------------------------------------------------------------------------------

  /** One level deeper behind an opening bracket of any of the four kinds, one less behind a closing one. */
  lemma DeeperExactly(c: char, depth: int)
    ensures Deeper(c, depth) ==
            if c in ['<', '[', '{', '('] then depth + 1 else if c in ['>', ']', '}', ')'] then depth - 1 else depth
  {
  }

  predicate Flat(s: string) { forall c | c in s :: !Opens(c) && !Closes(c) }

  lemma BracketCarries(before: string, open: char, inner: string, close: char, behind: string)
    requires Opens(open) && Closes(close) && Flat(before) && Flat(inner) && Flat(behind)
    requires ',' !in before && ',' !in behind
    ensures Carry(before + ([open] + (inner + ([close] + behind))), 0) == Some(0)
  {
    var tail := [close] + behind;
    var body := inner + tail;
    FlatCarries(before, 0);
    FlatCarries(inner, 1);
    FlatCarries(behind, 0);
    CarryConcat(before, [open] + body, 0);
    CarryOne(open, body, 0);
    CarryConcat(inner, tail, 1);
    CarryOne(close, behind, 1);
  }

  lemma CarriedIsOne(all: string)
    requires Carry(all, 0) == Some(0)
    ensures Entries(all, 0, "") == Entry(all)
  {
    EntriesCarry(all, "", 0, "");
    assert all + "" == all && "" + all == all;
  }

  predicate NoBracket(c: char) { c !in ['<', '[', '{', '(', '>', ']', '}', ')'] }

  /** A comma between brackets of any kind parts nothing. */
  lemma {:induction false} BracketsProtect(before: string, open: char, inner: string, close: char, behind: string)
    requires (open, close) in [('<', '>'), ('[', ']'), ('{', '}'), ('(', ')')]
    requires (forall c | c in before :: NoBracket(c)) && (forall c | c in behind :: NoBracket(c))
    requires forall c | c in inner :: NoBracket(c)
    requires ',' !in before && ',' !in behind
    ensures Entries(before + ([open] + (inner + ([close] + behind))), 0, "") ==
            Entry(before + ([open] + (inner + ([close] + behind))))
  {
    BracketCarries(before, open, inner, close, behind);
    CarriedIsOne(before + ([open] + (inner + ([close] + behind))));
  }

  lemma {:induction false} FlatCarries(s: string, depth: int)
    requires Flat(s)
    requires depth == 0 ==> ',' !in s
    ensures Carry(s, depth) == Some(depth)
    decreases |s|
  {
    if s != "" {
      assert s[0] in s && forall c | c in s[1..] :: c in s;
      FlatCarries(s[1..], depth);
    }
  }
}
