/**
  The canonical frontmatter printer of app/vault/export.py: scalars and block
  sequences, quoted only where YAML would read them as something else.
 */
module Frontmatter {
  import opened Wrappers
  import opened Lines
  import opened Decimal
  import opened PyText

  datatype Scalar = Null | Boolean(b: bool) | Integer(n: int) | Text(text: string)

  datatype Value = One(scalar: Scalar) | Many(items: seq<Scalar>)

  type Metadata = map<string, Value>

  /** Keys rendered as block sequences even when empty. */
  const LIST_KEYS: set<string> :=
    {"tags", "aliases", "Facets", "SeeAlso", "RelatedIDs", "SourceIDs", "Related"}

  const RESERVED: set<string> :=
    {"true", "false", "yes", "no", "on", "off", "null", "none", "~", ""}

  // ------------------------------------------------------------------- quoting

  function LowerChar(c: char): char {
    if 'A' <= c <= 'Z' then c - 'A' + 'a' else c
  }

  /** `s.lower()`, as far as comparing with ASCII words can tell. */
  function Lower(s: string): string {
    if s == "" then "" else [LowerChar(s[0])] + Lower(s[1..])
  }

  predicate DigitsOrUnderscores(s: string) {
    forall i :: 0 <= i < |s| ==> IsDecimal(s[i]) || s[i] == '_'
  }

  function Unsigned(s: string): string {
    if s != "" && (s[0] == '+' || s[0] == '-') then s[1..] else s
  }

  /** `\.?\d*`. */
  predicate IsFraction(s: string) {
    AllDecimals(s) || (s != "" && s[0] == '.' && AllDecimals(s[1..]))
  }

  /** `\d[\d_]*\.?\d*|\.\d+`. */
  predicate IsMantissa(s: string) {
    && s != ""
    && (|| (IsDecimal(s[0]) && exists k :: 0 <= k <= |s| && DigitsOrUnderscores(s[..k]) && IsFraction(s[k..]))
        || (s[0] == '.' && |s| > 1 && AllDecimals(s[1..])))
  }

  /** `[eE][+-]?\d+`. */
  predicate IsExponent(s: string) {
    s != "" && (s[0] == 'e' || s[0] == 'E') && Unsigned(s[1..]) != "" && AllDecimals(Unsigned(s[1..]))
  }

  /** `_NUMERIC.fullmatch`. */
  predicate IsNumeric(s: string) {
    var t := Unsigned(s);
    IsMantissa(t) || exists k :: 0 <= k <= |t| && IsMantissa(t[..k]) && IsExponent(t[k..])
  }

  const LEADING: string := "!&*?|>%@`\"'#,[]{}"

  predicate HasSubstring(s: string, needle: string) {
    exists k: nat :: k <= |s| && OccursAt(s, needle, k)
  }

  predicate NeedsQuote(value: string) {
    value != "" &&
    (|| Lower(value) in RESERVED
     || value != Strip(value)
     || value[0] in LEADING
     || StartsWith(value, "- ") || StartsWith(value, "? ") || StartsWith(value, ": ")
     || HasSubstring(value, ": ") || EndsWith(value, ":") || HasSubstring(value, " #") || Contains(value, '"')
     || IsNumeric(value))
  }

  /** Backslashes first, then quotes: two passes. */
  function Escape(value: string): string {
    ReplaceAll(ReplaceAll(value, "\\", "\\\\"), "\"", "\\\"")
  }

  function Quote(value: string): string {
    "\"" + Escape(value) + "\""
  }

  function IntText(n: int): string {
    if n < 0 then "-" + Digits(-n) else Digits(n)
  }

  function RenderScalar(v: Scalar): string {
    match v
    case Null => ""
    case Boolean(b) => if b then "true" else "false"
    case Integer(n) => IntText(n)
    case Text(t) => if NeedsQuote(t) then Quote(t) else t
  }

  // --------------------------------------------------------------------- pairs

  datatype RenderError = NotIterable(key: string)

  /** `value or []`: what Python calls false becomes the empty list. */
  predicate Falsy(v: Value) {
    v == One(Null) || v == One(Boolean(false)) || v == One(Integer(0)) || v == One(Text("")) || v == Many([])
  }

  function CharsOf(s: string): seq<Scalar> {
    if s == "" then [] else [Text([s[0]])] + CharsOf(s[1..])
  }

  /** `list(value or [])`: a string is the list of its characters, other scalars do not iterate. */
  function ListOf(key: string, v: Value): Result<seq<Scalar>, RenderError> {
    if Falsy(v) then Ok([])
    else
      match v
      case Many(items) => Ok(items)
      case One(Text(s)) => Ok(CharsOf(s))
      case One(_) => Err(NotIterable(key))
  }

  predicate RendersAsList(key: string, v: Value) {
    key in LIST_KEYS || v.Many?
  }

  function ItemLines(items: seq<Scalar>): seq<string> {
    if items == [] then [] else ["  - " + RenderScalar(items[0])] + ItemLines(items[1..])
  }

  function ScalarLine(key: string, rendered: string): string {
    if rendered == "" then key + ":" else key + ": " + rendered
  }

  /** The lines of one rendered pair. */
  function PairLines(key: string, v: Value): Result<seq<string>, RenderError> {
    if RendersAsList(key, v) then
      match ListOf(key, v)
      case Err(e) => Err(e)
      case Ok(items) => Ok(if items == [] then [key + ": []"] else [key + ":"] + ItemLines(items))
    else
      Ok([ScalarLine(key, RenderScalar(v.scalar))])
  }

  /** `_render_pair`. */
  function RenderPair(key: string, v: Value): Result<string, RenderError> {
    match PairLines(key, v)
    case Err(e) => Err(e)
    case Ok(lines) => Ok(Join("\n", lines))
  }

  // --------------------------------------------------------------- whole notes

  function Named(order: seq<string>, keys: set<string>): seq<string> {
    if order == [] then [] else (if order[0] in keys then [order[0]] else []) + Named(order[1..], keys)
  }

  /** Keys of `order` first, in that order; the others after, sorted. */
  function KeyOrder(keys: set<string>, order: seq<string>): seq<string> {
    Named(order, keys) + Sorted(keys - set k | k in order)
  }

  /** The pairs of `keys`, rendered one after another. */
  function RenderPairs(metadata: Metadata, keys: seq<string>): Result<seq<string>, RenderError>
    requires forall k :: k in keys ==> k in metadata
  {
    if keys == [] then Ok([])
    else
      match RenderPair(keys[0], metadata[keys[0]])
      case Err(e) => Err(e)
      case Ok(pair) =>
        match RenderPairs(metadata, keys[1..])
        case Err(e) => Err(e)
        case Ok(more) => Ok([pair] + more)
  }

  lemma {:induction false} NamedKeys(order: seq<string>, keys: set<string>)
    ensures forall k :: k in Named(order, keys) <==> k in order && k in keys
  {
    if order != [] { NamedKeys(order[1..], keys); }
  }

  lemma KeyOrderKeys(keys: set<string>, order: seq<string>)
    ensures forall k :: k in KeyOrder(keys, order) <==> k in keys
  {
    NamedKeys(order, keys);
  }

  /** `render_frontmatter`. */
  function RenderFrontmatter(metadata: Metadata, order: seq<string>): Result<string, RenderError> {
    KeyOrderKeys(metadata.Keys, order);
    match RenderPairs(metadata, KeyOrder(metadata.Keys, order))
    case Err(e) => Err(e)
    case Ok(pairs) => Ok(Join("\n", pairs))
  }

  /** A body ends in a line feed, unless it is empty. */
  function Terminated(body: string): string {
    if EndsWith(body, "\n") || body == "" then body else body + "\n"
  }

  /** `dump_note`. */
  function DumpNote(metadata: Metadata, body: string, order: seq<string>): Result<string, RenderError> {
    match RenderFrontmatter(metadata, order)
    case Err(e) => Err(e)
    case Ok(frontmatter) => Ok("---\n" + frontmatter + "\n---\n" + Terminated(body))
  }
}
