/**
  The parser of scripts/import_vault_wiki.py, meant to invert the canonical
  printer and nothing else.
 */
module FrontmatterParser {
  import opened Wrappers
  import opened Lines
  import opened Decimal
  import opened PyText
  import opened Frontmatter

  datatype ParseError =
    | NotOpened | NotClosed | ItemBeforeKey(line: string) | Unparsable(line: string) | BadNumber(text: string)

  /** `raw.replace('\\"', '"').replace("\\\\", "\\")`: quotes first, then backslashes. */
  function Unescape(raw: string): string {
    ReplaceAll(ReplaceAll(raw, "\\\"", "\""), "\\\\", "\\")
  }

  /** `_scalar`: `isdigit` lets more through than `int` can read. */
  function ParseScalar(raw: string): Result<Scalar, ParseError> {
    var s := Strip(raw);
    if |s| >= 2 && s[0] == '"' && s[|s| - 1] == '"' then Ok(Text(Unescape(s[1..|s| - 1])))
    else if s != "" && AllDigitLike(s) then if AllDecimals(s) then Ok(Integer(ParseNat(s))) else Err(BadNumber(s))
    else Ok(Text(s))
  }

  // ---------------------------------------------------------------- one line

  /** `^  - (.*)$`. */
  function ListItem(line: string): Option<string> {
    if StartsWith(line, "  - ") then Some(line[4..]) else None
  }

  predicate IsLetter(c: char) {
    'A' <= c <= 'Z' || 'a' <= c <= 'z'
  }

  predicate IsKeyChar(c: char) {
    IsLetter(c) || IsDigit(c) || c == '_'
  }

  /** How far `[A-Za-z0-9_]*` reaches. */
  function KeyRun(s: string): (k: nat)
    ensures k <= |s|
  {
    if s != "" && IsKeyChar(s[0]) then 1 + KeyRun(s[1..]) else 0
  }

  datatype Pair = Pair(key: string, raw: string)

  /** `^([A-Za-z][A-Za-z0-9_]*): ?(.*)$`, with the value stripped. */
  function KeyValue(line: string): Option<Pair> {
    var k := KeyRun(line);
    if k == 0 || !IsLetter(line[0]) || k == |line| || line[k] != ':' then None
    else
      var rest := line[k + 1..];
      Some(Pair(line[..k], Strip(if rest != "" && rest[0] == ' ' then rest[1..] else rest)))
  }

  /** The loop's variables. */
  datatype Reading = Reading(metadata: Metadata, key: Option<string>)

  function Appended(v: Value, item: Scalar): Value {
    Many((if v.Many? then v.items else []) + [item])
  }

  /** The value after a key: an empty one may yet become a list. */
  function ParseValue(raw: string): Result<Value, ParseError> {
    if raw == "" then Ok(One(Null))
    else if raw == "[]" then Ok(Many([]))
    else if ParseScalar(raw).Err? then Err(ParseScalar(raw).error)
    else Ok(One(ParseScalar(raw).value))
  }

  /** One turn of the loop of `parse_note`. */
  function ReadLine(line: string, r: Reading): Result<Reading, ParseError> {
    if Strip(line) == "" then Ok(r)
    else
      match ListItem(line)
      case Some(item) =>
        if r.key.None? then Err(ItemBeforeKey(line))
        else if ParseScalar(item).Err? then Err(ParseScalar(item).error)
        else
          var key := r.key.value;
          var current := if key in r.metadata then r.metadata[key] else Many([]);
          Ok(r.(metadata := r.metadata[key := Appended(current, ParseScalar(item).value)]))
      case None =>
        match KeyValue(line)
        case None => Err(Unparsable(line))
        case Some(Pair(key, raw)) =>
          var v := ParseValue(raw);
          if v.Err? then Err(v.error) else Ok(Reading(r.metadata[key := v.value], Some(key)))
  }

  function ReadLines(lines: seq<string>, r: Reading): Result<Reading, ParseError> {
    if lines == [] then Ok(r)
    else
      match ReadLine(lines[0], r)
      case Err(e) => Err(e)
      case Ok(next) => ReadLines(lines[1..], next)
  }

  // --------------------------------------------------------------- whole notes

  datatype Note = Note(metadata: Metadata, body: string)

  const CLOSING := "\n---\n"

  function ReadNote(text: string): Result<Note, ParseError> {
    if !StartsWith(text, "---\n") then Err(NotOpened)
    else
      var rest := text[4..];
      match Find(rest, CLOSING, 0)
      case None => Err(NotClosed)
      case Some(k) =>
        match ReadLines(SplitLF(rest[..k]), Reading(map[], None))
        case Err(e) => Err(e)
        case Ok(r) => Ok(Note(r.metadata, rest[k + |CLOSING|..]))
  }

  /** `parse_note`. */
  method ParseNote(text: string) returns (r: Result<Note, ParseError>)
    ensures r == ReadNote(text)
  {
    hide ListItem, KeyValue, ParseScalar, Strip, Find, SplitLF;
    if !StartsWith(text, "---\n") { return Err(NotOpened); }
    var rest := text[4..];
    var found := Find(rest, CLOSING, 0);
    if found.None? { return Err(NotClosed); }
    var lines := SplitLF(rest[..found.value]);
    var metadata: Metadata, key: Option<string> := map[], None;
    var index := 0;
    while index < |lines|
      invariant 0 <= index <= |lines|
      invariant ReadLines(lines, Reading(map[], None)) == ReadLines(lines[index..], Reading(metadata, key))
    {
      var line := lines[index];
      assert lines[index..][0] == line && lines[index..][1..] == lines[index + 1..];
      index := index + 1;
      if Strip(line) == "" { continue; }
      var item := ListItem(line);
      if item.Some? {
        if key.None? { return Err(ItemBeforeKey(line)); }
        var current := if key.value in metadata then metadata[key.value] else Many([]);
        if !current.Many? { current := Many([]); }
        var scalar := ParseScalar(item.value);
        if scalar.Err? { return Err(scalar.error); }
        metadata := metadata[key.value := Many(current.items + [scalar.value])];
        continue;
      }
      var pair := KeyValue(line);
      if pair.None? { return Err(Unparsable(line)); }
      key := Some(pair.value.key);
      var raw := pair.value.raw;
      if raw == "" {
        metadata := metadata[pair.value.key := One(Null)];
      } else if raw == "[]" {
        metadata := metadata[pair.value.key := Many([])];
      } else {
        var scalar := ParseScalar(raw);
        if scalar.Err? { return Err(scalar.error); }
        metadata := metadata[pair.value.key := One(scalar.value)];
      }
    }
    return Ok(Note(metadata, rest[found.value + |CLOSING|..]));
  }
}
