/** The typed reading of merged entries, and the deployment rule checked after it. */
module ConfigValues {
  import opened Wrappers
  import opened Texts
  import opened ConfigPaths
  import opened ConfigSchema

  /** A refusal, or the panic of reading a path that was never registered. */
  datatype Failure = Refused(refusal: Refusal) | Panicked(path: Path)

  /** Whether a text parses as a type: `FromStr`, as the type has it. */
  type Parses = (string, string) -> bool

  function ParseBool(text: string): Option<bool> {
    var word := LowerText(Trim(text));
    if word == "true" || word == "1" || word == "yes" || word == "on" then Some(true)
    else if word == "false" || word == "0" || word == "no" || word == "off" then Some(false)
    else None
  }

  /** This text is the word, in whatever letter case. */
  predicate Cased(text: string, word: string) {
    |text| == |word| && forall i | 0 <= i < |text| :: text[i] == word[i] || text[i] == Upper(word[i])
  }

  /** The word, in whatever letter case, between whatever white space. */
  ghost predicate Spells(text: string, word: string) {
    exists i, j | 0 <= i <= j <= |text| ::
      AllWhite(text[..i]) && AllWhite(text[j..]) && Cased(text[i..j], word)
  }

  /** What a text means as a bool, if anything. */
  ghost predicate Means(text: string, on: bool) {
    if on then Spells(text, "true") || Spells(text, "1") || Spells(text, "yes") || Spells(text, "on")
    else Spells(text, "false") || Spells(text, "0") || Spells(text, "no") || Spells(text, "off")
  }

  /** A word of lower-case letters and digits. */
  predicate PlainWord(word: string) {
    word != "" && forall i | 0 <= i < |word| :: IsLower(word[i]) || IsDigit(word[i])
  }

  lemma CasedExactly(text: string, word: string)
    requires PlainWord(word)
    ensures Cased(text, word) <==> LowerText(text) == word
    ensures Cased(text, word) ==> Trimmed(text)
  {
    if Cased(text, word) {
      assert forall i | 0 <= i < |text| :: LowerText(text)[i] == Lower(text[i]) == word[i];
    }
    if LowerText(text) == word {
      forall i | 0 <= i < |text| ensures text[i] == word[i] || text[i] == Upper(word[i]) {
        assert LowerText(text)[i] == Lower(text[i]);
      }
    }
  }

  lemma CutInThree(text: string, i: nat, j: nat)
    requires i <= j <= |text|
    ensures text == text[..i] + text[i..j] + text[j..]
  {
  }

  lemma SpelledIsTrimmed(text: string, word: string)
    requires PlainWord(word) && Spells(text, word)
    ensures Cased(Trim(text), word)
  {
    var i, j :| 0 <= i <= j <= |text| && AllWhite(text[..i]) && AllWhite(text[j..]) && Cased(text[i..j], word);
    CasedExactly(text[i..j], word);
    CutInThree(text, i, j);
    TrimPadded(text[..i], text[i..j], text[j..]);
  }

  lemma PaddedSpells(left: string, mid: string, right: string, word: string)
    requires AllWhite(left) && AllWhite(right) && Cased(mid, word)
    ensures Spells(left + mid + right, word)
  {
    var text, i, j := left + mid + right, |left|, |left| + |mid|;
    assert text[..i] == left && text[j..] == right && text[i..j] == mid;
  }

  lemma TrimCuts(text: string) returns (left: string, right: string)
    ensures text == left + Trim(text) + right && AllWhite(left) && AllWhite(right)
  {
    left := TrimStartSplits(text);
    right := TrimEndSplits(TrimStart(text));
    assert left + (Trim(text) + right) == left + Trim(text) + right;
  }

  lemma SpellsExactly(text: string, word: string)
    requires PlainWord(word)
    ensures Spells(text, word) <==> LowerText(Trim(text)) == word
  {
    CasedExactly(Trim(text), word);
    if Spells(text, word) { SpelledIsTrimmed(text, word); }
    if Cased(Trim(text), word) {
      var left, right := TrimCuts(text);
      PaddedSpells(left, Trim(text), right, word);
    }
  }

  /** A text is read as a bool exactly when it spells one of the eight words, and as the one meant. */
  lemma {:induction false} BoolWords(text: string, on: bool)
    ensures ParseBool(text) == Some(on) <==> Means(text, on)
  {
    WordsArePlain();
    SpellsExactly(text, "true");
    SpellsExactly(text, "1");
    SpellsExactly(text, "yes");
    SpellsExactly(text, "on");
    SpellsExactly(text, "false");
    SpellsExactly(text, "0");
    SpellsExactly(text, "no");
    SpellsExactly(text, "off");
    WordsDiffer();
  }

  lemma WordsArePlain()
    ensures PlainWord("true") && PlainWord("1") && PlainWord("yes") && PlainWord("on")
    ensures PlainWord("false") && PlainWord("0") && PlainWord("no") && PlainWord("off")
  {
  }

  lemma WordsDiffer()
    ensures forall a, b | a in ["true", "1", "yes", "on"] && b in ["false", "0", "no", "off"] :: a != b
  {
    assert "true"[0] == 't' && "1"[0] == '1' && "yes"[0] == 'y' && "on"[1] == 'n' && "off"[1] == 'f';
    assert "false"[0] == 'f' && "0"[0] == '0' && "no"[0] == 'n';
  }

  lemma NotBoth(text: string)
    ensures !(Means(text, true) && Means(text, false))
  {
    BoolWords(text, true);
    BoolWords(text, false);
  }

  lemma PlainTexts()
    ensures Means("true", true) && Means("false", false)
  {
    SpellsAsItIs("true");
    SpellsAsItIs("false");
  }

  lemma SpellsAsItIs(word: string)
    ensures Spells(word, word)
  {
    assert AllWhite(word[..0]) && AllWhite(word[|word|..]) && word[0..|word|] == word && Cased(word[0..|word|], word);
  }

  function EntryAt(values: Values, path: Path): Option<Entry> {
    if path in values.entries then Some(values.entries[path]) else None
  }

  function BoolOpt(values: Values, path: Path): Result<Option<bool>, Failure> {
    if FieldAt(values.fields, path).None? then Err(Panicked(path))
    else
      match EntryAt(values, path)
      case None => Ok(None)
      case Some(entry) =>
        match ParseBool(entry.text)
        case Some(b) => Ok(Some(b))
        case None => Err(Refused(WrongType(path, entry)))
  }

  function BoolRead(values: Values, path: Path): Result<bool, Failure> {
    match BoolOpt(values, path)
    case Err(e) => Err(e)
    case Ok(Some(b)) => Ok(b)
    case Ok(None) => Err(Refused(Missing(path)))
  }

  /** A parsed leaf is kept as the text it was parsed from. */
  function LeafOpt(values: Values, path: Path, ty: string, parses: Parses): Result<Option<string>, Failure> {
    if FieldAt(values.fields, path).None? then Err(Panicked(path))
    else
      match EntryAt(values, path)
      case None => Ok(None)
      case Some(entry) => if parses(ty, entry.text) then Ok(Some(entry.text)) else Err(Refused(WrongType(path, entry)))
  }

  function LeafRead(values: Values, path: Path, ty: string, parses: Parses): Result<string, Failure> {
    match LeafOpt(values, path, ty, parses)
    case Err(e) => Err(e)
    case Ok(Some(text)) => Ok(text)
    case Ok(None) => Err(Refused(Missing(path)))
  }

  // ----- the deployment rule -----------------------------------------------------------------------------

  datatype Deployment = Prod | Dev

  function Enabled(values: Values, f: Field): Result<bool, Failure> {
    match f.kind
    case Text => Ok(EntryAt(values, f.path).Some?)
    case Bool =>
      match BoolOpt(values, f.path)
      case Err(e) => Err(e)
      case Ok(on) => Ok(on == Some(true))
  }

  function EnforceOne(values: Values, f: Field): Option<Failure> {
    match f.rule
    case Neutral => None
    case ProdRequired => if EntryAt(values, f.path).None? then Some(Refused(ProdUnset(f.path))) else None
    case DevOnly =>
      match Enabled(values, f)
      case Err(e) => Some(e)
      case Ok(on) => if on then Some(Refused(DevSet(f.path))) else None
  }

  function EnforceAll(values: Values, fields: seq<Field>): Option<Failure> {
    if fields == [] then None
    else if EnforceOne(values, fields[0]).Some? then EnforceOne(values, fields[0])
    else EnforceAll(values, fields[1..])
  }

  function Enforce(values: Values, deployment: Deployment): Option<Failure> {
    if deployment != Prod then None else EnforceAll(values, values.fields)
  }

  /** What production demands of a field. */
  predicate FitForProd(values: Values, f: Field) {
    && (f.rule.ProdRequired? ==> EntryAt(values, f.path).Some?)
    && (f.rule.DevOnly? ==> Enabled(values, f) == Ok(false))
  }

  lemma {:induction false} EnforceAllExactly(values: Values, fields: seq<Field>)
    ensures EnforceAll(values, fields).None? <==> forall f | f in fields :: FitForProd(values, f)
  {
    if fields != [] {
      EnforceAllExactly(values, fields[1..]);
      assert fields == [fields[0]] + fields[1..] && fields[0] in fields;
      assert EnforceOne(values, fields[0]).None? <==> FitForProd(values, fields[0]);
    }
  }

  /** The check passes exactly under dev, or when every prod-required value is set and no dev-only
      value is enabled. */
  lemma EnforceExactly(values: Values, deployment: Deployment)
    ensures Enforce(values, deployment).None? <==>
            deployment == Dev || forall f | f in values.fields :: FitForProd(values, f)
  {
    EnforceAllExactly(values, values.fields);
  }

  lemma {:induction false} EnforceNeverPanics(values: Values, fields: seq<Field>)
    requires forall f | f in fields :: f in values.fields
    ensures EnforceAll(values, fields).Some? ==> EnforceAll(values, fields).value.Refused?
  {
    if fields != [] {
      FieldAtIn(values.fields, fields[0].path);
      EnforceNeverPanics(values, fields[1..]);
    }
  }
}
