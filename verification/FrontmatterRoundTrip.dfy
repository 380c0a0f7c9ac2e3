/**
  The parser inverts the printer: what every value comes back as, exactly which
  notes come back unchanged, and when dumping again gives the same bytes.
 */
module FrontmatterRoundTrip {
  import opened Wrappers
  import opened Lines
  import opened Decimal
  import opened PyText
  import opened Frontmatter
  import opened FrontmatterParser

  // ----------------------------------------------------------------- escaping

  function EscapeChar(c: char): string {
    if c == '\\' then "\\\\" else if c == '"' then "\\\"" else [c]
  }

  /** The value after both escaping passes, character by character. */
  function Escaped(s: string): string {
    if s == "" then "" else EscapeChar(s[0]) + Escaped(s[1..])
  }

  /** The value after the first unescaping pass has removed the backslash before each quote. */
  function HalfEscaped(s: string): string {
    if s == "" then "" else (if s[0] == '\\' then "\\\\" else [s[0]]) + HalfEscaped(s[1..])
  }

  lemma ReplaceCons(c: char, rest: string, pattern: string, with: string)
    requires pattern != "" && !StartsWith([c] + rest, pattern)
    ensures ReplaceAll([c] + rest, pattern, with) == [c] + ReplaceAll(rest, pattern, with)
  {
    assert ([c] + rest)[1..] == rest;
  }

  lemma ReplaceMatch(rest: string, pattern: string, with: string)
    requires pattern != ""
    ensures ReplaceAll(pattern + rest, pattern, with) == with + ReplaceAll(rest, pattern, with)
  {
    assert (pattern + rest)[..|pattern|] == pattern && (pattern + rest)[|pattern|..] == rest;
  }

  lemma NotAtHead(c: char, rest: string, pattern: string)
    requires pattern != "" && c != pattern[0]
    ensures !StartsWith([c] + rest, pattern)
  {
    StartsWithHead([c] + rest, pattern);
  }

  /** The first pass doubles backslashes; the second then meets only the value's own quotes. */
  lemma {:induction false} EscapeByChar(s: string)
    ensures ReplaceAll(s, "\\", "\\\\") == HalfEscaped(s)
    ensures ReplaceAll(HalfEscaped(s), "\"", "\\\"") == Escaped(s)
  {
    if s != "" {
      var rest := s[1..];
      EscapeByChar(rest);
      assert s == [s[0]] + rest;
      hide ReplaceAll;
      if s[0] == '\\' {
        assert s == "\\" + rest;
        ReplaceMatch(rest, "\\", "\\\\");
        NotAtHead('\\', HalfEscaped(rest), "\"");
        NotAtHead('\\', "\\" + HalfEscaped(rest), "\"");
        ReplaceCons('\\', HalfEscaped(rest), "\"", "\\\"");
        ReplaceCons('\\', "\\" + HalfEscaped(rest), "\"", "\\\"");
        assert HalfEscaped(s) == "\\" + ("\\" + HalfEscaped(rest));
      } else {
        NotAtHead(s[0], rest, "\\");
        ReplaceCons(s[0], rest, "\\", "\\\\");
        if s[0] == '"' {
          ReplaceMatch(HalfEscaped(rest), "\"", "\\\"");
        } else {
          NotAtHead(s[0], HalfEscaped(rest), "\"");
          ReplaceCons(s[0], HalfEscaped(rest), "\"", "\\\"");
        }
      }
    }
  }

  lemma EscapedHead(s: string)
    ensures Escaped(s) == "" || Escaped(s)[0] != '"'
  {
  }

  lemma NoQuoteAfter(rest: string)
    requires rest == "" || rest[0] != '"'
    ensures !StartsWith("\\" + rest, "\\\"")
  {
    StartsWithChar("\\" + rest, "\\\"", 1);
  }

  /** The first pass over one escaped character that no quote follows. */
  lemma FirstUnescapeChar(c: char, rest: string)
    requires rest == "" || rest[0] != '"'
    ensures ReplaceAll(EscapeChar(c) + rest, "\\\"", "\"")
            == (if c == '\\' then "\\\\" else [c]) + ReplaceAll(rest, "\\\"", "\"")
  {
    hide ReplaceAll, StartsWith;
    if c == '\\' {
      assert EscapeChar(c) + rest == "\\" + ("\\" + rest);
      NoQuoteAfter("\\" + rest);
      NoQuoteAfter(rest);
      ReplaceCons('\\', "\\" + rest, "\\\"", "\"");
      ReplaceCons('\\', rest, "\\\"", "\"");
    } else if c == '"' {
      ReplaceMatch(rest, "\\\"", "\"");
    } else {
      NotAtHead(c, rest, "\\\"");
      ReplaceCons(c, rest, "\\\"", "\"");
    }
  }

  lemma EscapedUnfolds(s: string)
    requires s != ""
    ensures Escaped(s) == EscapeChar(s[0]) + Escaped(s[1..])
    ensures HalfEscaped(s) == (if s[0] == '\\' then "\\\\" else [s[0]]) + HalfEscaped(s[1..])
  {
  }

  /** In escaped text every quote has its own backslash, so the first pass finds exactly those. */
  lemma {:induction false} FirstUnescape(s: string)
    ensures ReplaceAll(Escaped(s), "\\\"", "\"") == HalfEscaped(s)
  {
    if s != "" {
      FirstUnescape(s[1..]);
      EscapedHead(s[1..]);
      EscapedUnfolds(s);
      FirstUnescapeChar(s[0], Escaped(s[1..]));
    }
    hide EscapeChar, StartsWith;
  }

  lemma {:induction false} SecondUnescape(s: string)
    ensures ReplaceAll(HalfEscaped(s), "\\\\", "\\") == s
  {
    if s != "" {
      var rest := HalfEscaped(s[1..]);
      SecondUnescape(s[1..]);
      assert s == [s[0]] + s[1..];
      assert HalfEscaped(s) == (if s[0] == '\\' then "\\\\" else [s[0]]) + rest;
      hide ReplaceAll, HalfEscaped;
      if s[0] == '\\' {
        ReplaceMatch(rest, "\\\\", "\\");
      } else {
        NotAtHead(s[0], rest, "\\\\");
        ReplaceCons(s[0], rest, "\\\\", "\\");
      }
    }
  }

  /** The two unescaping passes undo the two escaping passes, in spite of their order. */
  lemma UnescapeEscape(s: string)
    ensures Unescape(Escape(s)) == s
  {
    EscapeByChar(s);
    FirstUnescape(s);
    SecondUnescape(s);
  }

  // ------------------------------------------------------------------ scalars

  /** What a rendered scalar is read back as. */
  function ReadBack(v: Scalar): Scalar {
    match v
    case Null => Text("")
    case Boolean(b) => Text(if b then "true" else "false")
    case Integer(n) => if n < 0 then Text(IntText(n)) else Integer(n)
    case Text(t) => Text(t)
  }

  predicate OneLineScalar(v: Scalar) {
    v.Text? ==> OneLine(v.text)
  }

  /** Not a run of digits the parser takes for a number and cannot read as one. */
  predicate ReadableText(t: string) {
    t == "" || !AllDigitLike(t) || AllDecimals(t)
  }

  predicate Readable(v: Scalar) {
    v.Text? ==> ReadableText(v.text)
  }

  lemma DecimalsNumeric(s: string)
    requires s != "" && AllDecimals(s)
    ensures IsMantissa(s) && IsNumeric(s)
  {
    hide IsDecimal;
    assert IsDecimal(s[0]);
    DecimalsInAscii('+');
    DecimalsInAscii('-');
    assert Unsigned(s) == s;
    assert s[..0] == "" && s[0..] == s;
    assert IsMantissa(s) by {
      assert 0 <= 0 <= |s| && DigitsOrUnderscores(s[..0]) && IsFraction(s[0..]);
    }
  }

  lemma DigitLikeChar(c: char)
    ensures IsDigitLike(c) ==> (IsDigit(c) || c as int >= 0xB2) && !IsSpace(c)
  {
  }

  /** What a numeral is written with. */
  predicate NumeralChar(c: char) {
    IsDecimal(c) || c in "_.eE+-"
  }

  predicate NumeralChars(s: string) {
    forall i :: 0 <= i < |s| ==> NumeralChar(s[i])
  }

  lemma NumeralJoin(a: string, b: string)
    requires NumeralChars(a) && NumeralChars(b)
    ensures NumeralChars(a + b)
  {
    hide NumeralChar;
  }

  lemma UnsignedNumeral(s: string)
    requires NumeralChars(Unsigned(s))
    ensures NumeralChars(s)
  {
    hide IsDecimal;
    if Unsigned(s) != s {
      assert s == [s[0]] + Unsigned(s);
      NumeralJoin([s[0]], Unsigned(s));
    }
  }

  lemma MantissaNumeral(s: string)
    requires IsMantissa(s)
    ensures NumeralChars(s)
  {
    hide IsDecimal;
    if IsDecimal(s[0]) {
      var k :| 0 <= k <= |s| && DigitsOrUnderscores(s[..k]) && IsFraction(s[k..]);
      assert s == s[..k] + s[k..];
      FractionNumeral(s[k..]);
      NumeralJoin(s[..k], s[k..]);
    } else {
      assert s == [s[0]] + s[1..];
      NumeralJoin([s[0]], s[1..]);
    }
  }

  lemma FractionNumeral(s: string)
    requires IsFraction(s)
    ensures NumeralChars(s)
  {
    hide IsDecimal;
    if !AllDecimals(s) {
      assert s == [s[0]] + s[1..];
      NumeralJoin([s[0]], s[1..]);
    }
  }

  lemma ExponentNumeral(s: string)
    requires IsExponent(s)
    ensures NumeralChars(s)
  {
    hide IsDecimal;
    UnsignedNumeral(s[1..]);
    assert s == [s[0]] + s[1..];
    NumeralJoin([s[0]], s[1..]);
  }

  lemma NumericNumeral(s: string)
    requires IsNumeric(s)
    ensures NumeralChars(s)
  {
    hide IsMantissa, IsExponent, NumeralChars;
    var t := Unsigned(s);
    if IsMantissa(t) {
      MantissaNumeral(t);
    } else {
      var k :| 0 <= k <= |t| && IsMantissa(t[..k]) && IsExponent(t[k..]);
      MantissaNumeral(t[..k]);
      ExponentNumeral(t[k..]);
      assert t == t[..k] + t[k..];
      NumeralJoin(t[..k], t[k..]);
    }
    UnsignedNumeral(s);
  }

  /** Digits that make a numeral are decimal digits. */
  lemma NumericDigits(s: string)
    ensures IsNumeric(s) && AllDigitLike(s) ==> AllDecimals(s)
  {
    if IsNumeric(s) && AllDigitLike(s) {
      NumericNumeral(s);
      hide IsNumeric, IsDecimal, IsDigitLike;
      forall i | 0 <= i < |s| ensures IsDecimal(s[i]) {
        assert NumeralChar(s[i]) && IsDigitLike(s[i]);
        DigitLikeChar(s[i]);
      }
    }
  }

  lemma ReservedHeads()
    ensures forall w :: w in RESERVED ==> w == "" || (!IsDigit(w[0]) && w[0] as int < 0xB2)
    ensures forall c :: c in LEADING ==> !IsDigit(c) && c as int < 0xB2
  {
  }

  lemma DigitsUnreserved(t: string)
    requires t != "" && AllDigitLike(t)
    ensures Lower(t) !in RESERVED && t[0] !in LEADING && Strip(t) == t
    ensures t[0] != '-' && t[0] != '?' && t[0] != ':' && t[|t| - 1] != ':'
  {
    hide IsDigitLike, IsSpace, Strip;
    assert IsDigitLike(t[0]) && IsDigitLike(t[|t| - 1]);
    DigitLikeChar(t[0]);
    DigitLikeChar(t[|t| - 1]);
    ReservedHeads();
    assert Lower(t)[0] == t[0];
    StripTight(t);
  }

  /** Digits the parser cannot read are not quoted. */
  lemma UnreadablePlain(t: string)
    requires !ReadableText(t)
    ensures !NeedsQuote(t) && Strip(t) == t
  {
    hide IsDigitLike, IsDecimal, IsNumeric, Strip, Lower;
    DigitsUnreserved(t);
    NumericDigits(t);
    forall i | 0 <= i < |t| ensures t[i] != ':' && t[i] != ' ' && t[i] != '"' {
      assert IsDigitLike(t[i]);
      DigitLikeChar(t[i]);
    }
    StartsWithChar(t, "- ", 0);
    StartsWithChar(t, "? ", 0);
    StartsWithChar(t, ": ", 0);
    forall k: nat | k <= |t| ensures !OccursAt(t, ": ", k) && !OccursAt(t, " #", k) {
      OccursChar(t, ": ", k, 0);
      OccursChar(t, " #", k, 0);
    }
  }

  /** Text left unquoted reads back as itself, unless it is digits that are no number. */
  lemma PlainReadsBack(t: string)
    requires !NeedsQuote(t)
    ensures Strip(t) == t && t != "[]"
    ensures ParseScalar(t) == if ReadableText(t) then Ok(Text(t)) else Err(BadNumber(t))
  {
    hide IsDecimal, IsDigitLike;
    assert LEADING[13] == '[' && '[' in LEADING;
    if t == "" {
      assert Strip("") == "";
    } else {
      assert t[0] == '"' ==> Contains(t, '"');
      assert "[]"[0] == '[';
      if AllDecimals(t) { DecimalsNumeric(t); }
    }
  }

  lemma QuotedReadsBack(t: string)
    ensures Strip(Quote(t)) == Quote(t) && ParseScalar(Quote(t)) == Ok(Text(t)) && Quote(t) != "[]" && Quote(t) != ""
  {
    var q := Quote(t);
    assert q[0] == '"' && q[|q| - 1] == '"' && q[1..|q| - 1] == Escape(t);
    StripTight(q);
    UnescapeEscape(t);
  }

  lemma DigitsTight(s: string)
    requires s != "" && AllDigits(s)
    ensures Tight(s)
  {
    assert IsDigit(s[0]) && IsDigit(s[|s| - 1]);
  }

  lemma IntReadsBack(n: int)
    ensures Strip(IntText(n)) == IntText(n) && IntText(n) != "" && IntText(n) != "[]"
    ensures ParseScalar(IntText(n)) == Ok(ReadBack(Integer(n)))
  {
    hide IsDecimal, IsSpecialDigit;
    DecimalsInAscii('-');
    DigitLikeChar('-');
    var s := IntText(n);
    var digits := Digits(if n < 0 then -n else n);
    DigitsTight(digits);
    ParseDigits(if n < 0 then -n else n);
    assert n < 0 ==> s[0] == '-' && s[|s| - 1] == digits[|digits| - 1];
    assert n >= 0 ==> IsDigit(s[0]);
    StripTight(s);
    assert n < 0 ==> !AllDigitLike(s) by { assert !IsDigit('-'); }
  }

  lemma WordReadsBack(b: bool)
    ensures var s := RenderScalar(Boolean(b));
            Strip(s) == s && ParseScalar(s) == Ok(ReadBack(Boolean(b))) && s != "[]" && s != ""
  {
    var s := RenderScalar(Boolean(b));
    StripTight(s);
    DigitLikeChar(s[0]);
    hide IsDigitLike;
    assert !IsDigitLike(s[0]);
  }

  /**
    Every rendered scalar is tight, is not an empty list, and reads back as `ReadBack` says;
    only digits that are no number are refused.
   */
  lemma ScalarReadsBack(v: Scalar)
    ensures var s := RenderScalar(v); Strip(s) == s && s != "[]"
    ensures var s := RenderScalar(v);
            ParseScalar(s) == if Readable(v) then Ok(ReadBack(v)) else Err(BadNumber(v.text))
    ensures RenderScalar(v) == "" <==> v == Null || v == Text("")
  {
    hide ReadableText, ParseScalar, NeedsQuote, Strip, Quote;
    match v
    case Null =>
      EmptyIsPlain();
      PlainReadsBack("");
    case Boolean(b) => WordReadsBack(b);
    case Integer(n) => IntReadsBack(n);
    case Text(t) =>
      if !ReadableText(t) { UnreadablePlain(t); }
      if NeedsQuote(t) { QuotedReadsBack(t); } else { PlainReadsBack(t); }
      EmptyIsPlain();
  }

  lemma SuperscriptIsUnreadable()
    ensures !ReadableText("\U{00B2}")
  {
    hide IsDecimal;
    var t := "\U{00B2}";
    SuperscriptNoDecimal();
    assert t[0] == '\U{00B2}';
  }

  lemma SuperscriptNoDecimal()
    ensures !IsDecimal('\U{00B2}') && IsSpecialDigit('\U{00B2}')
  {
    hide ZeroFrom;
    assert ZeroFrom(0xB2, 0) == -1;
  }

  lemma TextReadable(t: string)
    ensures Readable(Text(t)) <==> ReadableText(t)
  {
  }

  /** A superscript two prints bare and is refused. */
  lemma SuperscriptFails()
    ensures ParseScalar(RenderScalar(Text("\U{00B2}"))) == Err(BadNumber("\U{00B2}"))
  {
    hide *;
    SuperscriptIsUnreadable();
    ScalarReadsBack(Text("\U{00B2}"));
    TextReadable("\U{00B2}");
  }

  lemma EmptyIsPlain()
    ensures !NeedsQuote("") && ReadableText("")
  {
  }

  // ---------------------------------------------------------------- one pair

  predicate IsKey(key: string) {
    key != "" && IsLetter(key[0]) && forall i :: 0 <= i < |key| ==> IsKeyChar(key[i])
  }

  predicate OneLineItems(items: seq<Scalar>) {
    forall i :: 0 <= i < |items| ==> OneLineScalar(items[i])
  }

  predicate OneLineValue(v: Value) {
    match v
    case One(s) => OneLineScalar(s)
    case Many(items) => OneLineItems(items)
  }

  function ReadAll(items: seq<Scalar>): seq<Scalar> {
    if items == [] then [] else [ReadBack(items[0])] + ReadAll(items[1..])
  }

  /** The value a rendered pair is read back as. */
  function Collapse(key: string, v: Value): Value {
    if RendersAsList(key, v) then
      match ListOf(key, v)
      case Err(_) => v
      case Ok(items) => Many(ReadAll(items))
    else if RenderScalar(v.scalar) == "" then One(Null)
    else One(ReadBack(v.scalar))
  }

  lemma {:induction false} KeyRunStops(key: string, rest: string)
    requires (forall i :: 0 <= i < |key| ==> IsKeyChar(key[i])) && rest != "" && !IsKeyChar(rest[0])
    ensures KeyRun(key + rest) == |key|
  {
    if key == "" {
      assert key + rest == rest;
    } else {
      assert (key + rest)[1..] == key[1..] + rest;
      KeyRunStops(key[1..], rest);
    }
  }

  /** A rendered key line is not blank, not an item, and splits at its colon. */
  lemma KeyLineReads(key: string, rest: string)
    requires IsKey(key)
    ensures var line := key + (":" + rest);
            && Strip(line) != "" && ListItem(line) == None
            && KeyValue(line) == Some(Pair(key, Strip(if rest != "" && rest[0] == ' ' then rest[1..] else rest)))
  {
    hide Strip, ListItem, IsSpace, KeyRun;
    var line := key + (":" + rest);
    assert line[0] == key[0] && line[..|key|] == key && line[|key| + 1..] == rest && line[|key|] == ':';
    KeyRunStops(key, ":" + rest);
    LetterIsNoSpace(key[0]);
    NotAnItem(line);
    StripKeepsHead(line);
  }

  lemma LetterIsNoSpace(c: char)
    ensures IsLetter(c) ==> !IsSpace(c)
  {
  }

  lemma NotAnItem(line: string)
    requires line != "" && line[0] != ' '
    ensures ListItem(line) == None
  {
    StartsWithHead(line, "  - ");
  }

  lemma {:induction false} StripRightKeepsHead(s: string)
    requires s != "" && !IsSpace(s[0])
    ensures StripRight(s) != ""
  {
    if IsSpace(s[|s| - 1]) { StripRightKeepsHead(s[..|s| - 1]); }
  }

  lemma StripKeepsHead(s: string)
    requires s != "" && !IsSpace(s[0])
    ensures Strip(s) != ""
  {
    StripRightKeepsHead(s);
  }

  lemma ItemLineReads(item: string)
    ensures var line := "  - " + item; Strip(line) != "" && ListItem(line) == Some(item)
  {
    var line := "  - " + item;
    assert line[..4] == "  - " && line[4..] == item;
    assert line[1..][1..] == line[2..] && StripLeft(line) == StripLeft(line[1..]) == StripLeft(line[2..]) == line[2..];
    StripRightKeepsHead(line[2..]);
  }

  lemma ReadLinesStep(line: string, rest: seq<string>, r: Reading)
    requires ReadLine(line, r).Ok?
    ensures ReadLines([line] + rest, r) == ReadLines(rest, ReadLine(line, r).value)
  {
    assert ([line] + rest)[1..] == rest;
  }

  lemma Overwrite<K, V>(m: map<K, V>, k: K, v: V, w: V)
    ensures m[k := v][k := w] == m[k := w]
  {
  }

  function SoFar(v: Value): seq<Scalar> {
    if v.Many? then v.items else []
  }

  lemma OneItemReads(item: Scalar, r: Reading)
    requires r.key.Some? && r.key.value in r.metadata && Readable(item)
    ensures ReadLine("  - " + RenderScalar(item), r)
            == Ok(r.(metadata := r.metadata[r.key.value := Many(SoFar(r.metadata[r.key.value]) + [ReadBack(item)])]))
  {
    hide RenderScalar, Strip, ListItem, ParseScalar;
    ItemLineReads(RenderScalar(item));
    ScalarReadsBack(item);
  }

  lemma OneItemFails(item: Scalar, r: Reading)
    requires r.key.Some? && r.key.value in r.metadata && !Readable(item)
    ensures ReadLine("  - " + RenderScalar(item), r).Err?
  {
    hide RenderScalar, Strip, ListItem, ParseScalar, Readable;
    ItemLineReads(RenderScalar(item));
    ScalarReadsBack(item);
  }

  predicate AllReadable(items: seq<Scalar>) {
    forall i :: 0 <= i < |items| ==> Readable(items[i])
  }

  lemma ReadableCons(items: seq<Scalar>)
    ensures AllReadable(items) <==> items == [] || (Readable(items[0]) && AllReadable(items[1..]))
  {
    hide Readable;
    assert forall i :: 1 <= i < |items| ==> items[i] == items[1..][i - 1];
  }

  /** One unreadable item fails the note. */
  lemma {:induction false} ItemsFail(items: seq<Scalar>, rest: seq<string>, r: Reading)
    requires r.key.Some? && r.key.value in r.metadata && !AllReadable(items)
    ensures ReadLines(ItemLines(items) + rest, r).Err?
  {
    assert items != [];
    var line := "  - " + RenderScalar(items[0]);
    assert ItemLines(items) == [line] + ItemLines(items[1..]);
    ConcatAssociates([line], ItemLines(items[1..]), rest);
    ReadableCons(items);
    hide Readable, RenderScalar, ReadLine, AllReadable;
    if Readable(items[0]) {
      OneItemReads(items[0], r);
      ReadLinesStep(line, ItemLines(items[1..]) + rest, r);
      ItemsFail(items[1..], rest, ReadLine(line, r).value);
    } else {
      OneItemFails(items[0], r);
      FirstLineFails(line, ItemLines(items[1..]) + rest, r);
    }
  }

  lemma FirstLineFails(line: string, rest: seq<string>, r: Reading)
    requires ReadLine(line, r).Err?
    ensures ReadLines([line] + rest, r).Err?
  {
  }

  /** Item lines append, one after another, to the list under the current key. */
  lemma {:induction false} ItemsRead(items: seq<Scalar>, rest: seq<string>, r: Reading)
    requires r.key.Some? && r.key.value in r.metadata && items != [] && AllReadable(items)
    ensures ReadLines(ItemLines(items) + rest, r)
            == ReadLines(rest, r.(
                 metadata := r.metadata[r.key.value := Many(SoFar(r.metadata[r.key.value]) + ReadAll(items))]))
  {
    var key, line := r.key.value, "  - " + RenderScalar(items[0]);
    var before := SoFar(r.metadata[key]);
    assert Readable(items[0]) && AllReadable(items[1..]);
    var next := r.(metadata := r.metadata[key := Many(before + [ReadBack(items[0])])]);
    OneItemReads(items[0], r);
    assert ItemLines(items) == [line] + ItemLines(items[1..]);
    ConcatAssociates([line], ItemLines(items[1..]), rest);
    ReadLinesStep(line, ItemLines(items[1..]) + rest, r);
    assert ReadAll(items) == [ReadBack(items[0])] + ReadAll(items[1..]);
    if |items| == 1 {
      assert ItemLines(items[1..]) + rest == rest && ReadAll(items) == [ReadBack(items[0])];
    } else {
      assert SoFar(next.metadata[key]) == before + [ReadBack(items[0])];
      hide *;
      ItemsRead(items[1..], rest, next);
      ConcatAssociates(before, [ReadBack(items[0])], ReadAll(items[1..]));
      Overwrite(r.metadata, key, Many(before + [ReadBack(items[0])]), Many(before + ReadAll(items)));
    }
  }

  lemma KeyLineSets(key: string, rest: string, raw: string, r: Reading)
    requires IsKey(key) && raw == Strip(if rest != "" && rest[0] == ' ' then rest[1..] else rest)
    ensures ReadLine(key + (":" + rest), r)
            == if ParseValue(raw).Err? then Err(ParseValue(raw).error)
               else Ok(Reading(r.metadata[key := ParseValue(raw).value], Some(key)))
  {
    KeyLineReads(key, rest);
    hide Strip, ListItem, KeyValue, ParseValue;
  }

  lemma ScalarPairReads(key: string, s: Scalar, r: Reading)
    requires IsKey(key)
    ensures ReadLine(ScalarLine(key, RenderScalar(s)), r).Ok? <==> Readable(s)
    ensures Readable(s) ==>
              ReadLine(ScalarLine(key, RenderScalar(s)), r)
              == Ok(Reading(
                    r.metadata[key := if RenderScalar(s) == "" then One(Null) else One(ReadBack(s))], Some(key)))
  {
    hide RenderScalar, ParseScalar, ReadLine, Strip, ReadableText;
    var t := RenderScalar(s);
    ScalarReadsBack(s);
    if t == "" {
      assert key + ":" == key + (":" + "");
      StripTight("");
      KeyLineSets(key, "", "", r);
      EmptyIsPlain();
    } else {
      assert key + ": " + t == key + (":" + (" " + t)) && (" " + t)[1..] == t;
      KeyLineSets(key, " " + t, t, r);
    }
  }

  /** Nothing in the printed pair is digits that are no number. */
  predicate ReadableValue(key: string, v: Value) {
    if RendersAsList(key, v) then ListOf(key, v).Ok? ==> AllReadable(ListOf(key, v).value) else Readable(v.scalar)
  }

  /** A rendered pair, read from any state, sets its key to the collapsed value, or fails if it is unreadable. */
  lemma PairReads(key: string, v: Value, rest: seq<string>, r: Reading)
    requires IsKey(key) && PairLines(key, v).Ok?
    ensures ReadableValue(key, v) ==>
              ReadLines(PairLines(key, v).value + rest, r)
              == ReadLines(rest, Reading(r.metadata[key := Collapse(key, v)], Some(key)))
    ensures !ReadableValue(key, v) ==> ReadLines(PairLines(key, v).value + rest, r).Err?
  {
    hide RenderScalar, ReadLine, ItemLines, Readable;
    if !RendersAsList(key, v) {
      ScalarPairReads(key, v.scalar, r);
      var line := ScalarLine(key, RenderScalar(v.scalar));
      if Readable(v.scalar) { ReadLinesStep(line, rest, r); } else { FirstLineFails(line, rest, r); }
    } else {
      var items := ListOf(key, v).value;
      if items == [] {
        EmptyListReads(key, r);
        ReadLinesStep(key + ": []", rest, r);
      } else {
        ListPairReads(key, items, rest, r);
      }
    }
  }

  lemma EmptyListReads(key: string, r: Reading)
    requires IsKey(key)
    ensures ReadLine(key + ": []", r) == Ok(Reading(r.metadata[key := Many([])], Some(key)))
  {
    assert key + ": []" == key + (":" + " []") && " []"[1..] == "[]";
    StripTight("[]");
    KeyLineSets(key, " []", "[]", r);
  }

  lemma ListPairReads(key: string, items: seq<Scalar>, rest: seq<string>, r: Reading)
    requires IsKey(key) && items != []
    ensures AllReadable(items) ==>
              ReadLines([key + ":"] + ItemLines(items) + rest, r)
              == ReadLines(rest, Reading(r.metadata[key := Many(ReadAll(items))], Some(key)))
    ensures !AllReadable(items) ==> ReadLines([key + ":"] + ItemLines(items) + rest, r).Err?
  {
    hide ReadLine, ReadAll, ItemLines, AllReadable, Strip;
    assert key + ":" == key + (":" + "");
    StripTight("");
    KeyLineSets(key, "", "", r);
    var next := Reading(r.metadata[key := One(Null)], Some(key));
    ReadLinesStep(key + ":", ItemLines(items) + rest, r);
    ConcatAssociates([key + ":"], ItemLines(items), rest);
    if AllReadable(items) {
      ItemsRead(items, rest, next);
      Overwrite(r.metadata, key, One(Null), Many(ReadAll(items)));
      assert SoFar(One(Null)) + ReadAll(items) == ReadAll(items);
    } else {
      ItemsFail(items, rest, next);
    }
  }
}
