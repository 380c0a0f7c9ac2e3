/**
  What the parser makes of a line and of a whole file, in characters: which lines are
  pairs and items, which file is a note, and why a file is refused.
 */
module NoteReading {
  import opened Wrappers
  import opened Lines
  import opened Decimal
  import opened PyText
  import opened Frontmatter
  import opened FrontmatterParser
  import opened FrontmatterRoundTrip

  // ------------------------------------------------------------------- pairs

  predicate Letter(c: char) {
    'A' <= c <= 'Z' || 'a' <= c <= 'z'
  }

  /** A letter, and after it letters, digits and underscores. */
  predicate Identifier(key: string) {
    && key != "" && Letter(key[0])
    && forall i :: 0 <= i < |key| ==> Letter(key[i]) || '0' <= key[i] <= '9' || key[i] == '_'
  }

  /** A key, a colon, and the value with blanks around it or none. */
  predicate PairText(line: string, key: string, raw: string, tail: string) {
    line == key + ":" + tail && Identifier(key) && raw == Strip(tail)
  }

  lemma IdentifierIsKey(key: string)
    ensures Identifier(key) <==> IsKey(key)
  {
  }

  /** One blank more or less at the front does not matter. */
  lemma BlankStripped(rest: string)
    ensures rest != "" && rest[0] == ' ' ==> Strip(rest[1..]) == Strip(rest)
  {
    hide StripRight;
    assert IsSpace(' ');
  }

  lemma {:induction false} RunIsIdentifier(s: string)
    ensures forall i :: 0 <= i < KeyRun(s) ==> IsKeyChar(s[i])
  {
    if s != "" && IsKeyChar(s[0]) {
      RunIsIdentifier(s[1..]);
      forall i | 0 <= i < KeyRun(s) ensures IsKeyChar(s[i]) {
        if i > 0 { assert s[i] == s[1..][i - 1]; }
      }
    }
  }

  /** A line is read as a pair exactly when it is an identifier, a colon and the value. */
  lemma PairReadsExactly(line: string, key: string, raw: string)
    ensures KeyValue(line) == Some(Pair(key, raw)) <==> exists tail :: PairText(line, key, raw, tail)
  {
    hide Strip, Identifier, KeyRun;
    IdentifierIsKey(key);
    if KeyValue(line) == Some(Pair(key, raw)) {
      RunIsIdentifier(line);
      var k := KeyRun(line);
      BlankStripped(line[k + 1..]);
      assert line == line[..k] + ":" + line[k + 1..];
      assert PairText(line, key, raw, line[k + 1..]);
    }
    if tail :| PairText(line, key, raw, tail) {
      KeyLineReads(key, tail);
      BlankStripped(tail);
      assert line == key + (":" + tail);
    }
  }

  lemma ItemReadsExactly(line: string, item: string)
    ensures ListItem(line) == Some(item) <==> line == "  - " + item
  {
    if StartsWith(line, "  - ") { assert line == "  - " + line[4..]; }
    if line == "  - " + item { assert line[..4] == "  - " && line[4..] == item; }
  }

  // ------------------------------------------------------------------ values

  /** Between two quotes. */
  predicate Between(t: string, inner: string) {
    t == "\"" + inner + "\""
  }

  /** Stripped, a value between quotes is its inside unescaped, digits are a number, and anything else is a text. */
  lemma ValueReadsExactly(raw: string)
    ensures var t, r := Strip(raw), ParseScalar(raw);
            && (forall inner :: Between(t, inner) ==> r == Ok(Text(Unescape(inner))))
            && ((forall inner :: !Between(t, inner)) ==>
                  if t != "" && AllDecimals(t) then r == Ok(Integer(ParseNat(t)))
                  else if t != "" && AllDigitLike(t) then r == Err(BadNumber(t))
                  else r == Ok(Text(t)))
  {
    hide Strip, Unescape, IsDecimal, IsDigitLike, ParseNat;
    var t := Strip(raw);
    if |t| >= 2 && t[0] == '"' && t[|t| - 1] == '"' { assert Between(t, t[1..|t| - 1]); }
    forall inner | Between(t, inner) ensures inner == t[1..|t| - 1] {}
    DecimalsLookLikeDigits(t);
  }

  lemma DecimalsLookLikeDigits(t: string)
    ensures AllDecimals(t) ==> AllDigitLike(t)
  {
    hide IsDecimal, IsSpecialDigit;
  }

  // ------------------------------------------------------------------- lines

  /** A blank line changes nothing. */
  lemma BlankChangesNothing(line: string, r: Reading)
    ensures Strip(line) == "" ==> ReadLine(line, r) == Ok(r)
  {
    hide Strip, ListItem, KeyValue, ParseScalar;
  }

  /** An item goes to the end of the last key's list, or starts it; before any key it is refused. */
  lemma ItemSets(line: string, item: string, r: Reading)
    requires Strip(line) != "" && line == "  - " + item
    ensures if r.key.None? then ReadLine(line, r) == Err(ItemBeforeKey(line))
            else if ParseScalar(item).Err? then ReadLine(line, r) == Err(ParseScalar(item).error)
            else
              var key, v := r.key.value, ParseScalar(item).value;
              var before := if key in r.metadata && r.metadata[key].Many? then r.metadata[key].items else [];
              ReadLine(line, r) == Ok(Reading(r.metadata[key := Many(before + [v])], r.key))
  {
    hide Strip, ListItem, KeyValue, ParseScalar;
    ItemReadsExactly(line, item);
  }

  /** A pair sets its key, which the items after it belong to. */
  lemma PairSets(line: string, key: string, raw: string, r: Reading)
    requires Strip(line) != "" && (forall item :: line != "  - " + item)
    requires exists tail :: PairText(line, key, raw, tail)
    ensures if raw == "" then ReadLine(line, r) == Ok(Reading(r.metadata[key := One(Null)], Some(key)))
            else if raw == "[]" then ReadLine(line, r) == Ok(Reading(r.metadata[key := Many([])], Some(key)))
            else if ParseScalar(raw).Err? then ReadLine(line, r) == Err(ParseScalar(raw).error)
            else ReadLine(line, r) == Ok(Reading(r.metadata[key := One(ParseScalar(raw).value)], Some(key)))
  {
    hide Strip, ListItem, KeyValue, ParseScalar;
    NoItem(line);
    PairReadsExactly(line, key, raw);
  }

  lemma NoItem(line: string)
    requires forall item :: line != "  - " + item
    ensures ListItem(line) == None
  {
    if ListItem(line).Some? { ItemReadsExactly(line, ListItem(line).value); }
  }

  /** Any other line is refused. */
  lemma UnparsableExactly(line: string, r: Reading)
    ensures ReadLine(line, r) == Err(Unparsable(line))
            <==> && Strip(line) != "" && (forall item :: line != "  - " + item)
                 && forall key, raw, tail :: !PairText(line, key, raw, tail)
  {
    hide Strip, PairText, ListItem, KeyValue, ParseScalar;
    if item :| line == "  - " + item {
      ItemReadsExactly(line, item);
      ValueErrors(item);
    } else {
      NoItem(line);
    }
    if key, raw, tail :| PairText(line, key, raw, tail) {
      PairReadsExactly(line, key, raw);
      ValueErrors(raw);
    } else if KeyValue(line).Some? {
      PairReadsExactly(line, KeyValue(line).value.key, KeyValue(line).value.raw);
    }
  }

  lemma ValueErrors(raw: string)
    ensures ParseScalar(raw).Err? ==> ParseScalar(raw).error.BadNumber?
  {
    hide Strip, Unescape, IsDecimal, IsDigitLike, ParseNat;
  }

  // ------------------------------------------------------------------- files

  /** The frontmatter ends at the first line of three dashes after the opening one. */
  predicate Opens(text: string, rest: string) {
    text == "---\n" + rest
  }

  predicate Closes(rest: string, block: string, body: string) {
    && rest == block + "\n---\n" + body
    && forall k :: 0 <= k < |block| ==> !OccursAt(rest, "\n---\n", k)
  }

  /** Which files are refused as not opened and not closed, and what is read of the others. */
  lemma NoteReadsExactly(text: string)
    ensures ReadNote(text) == Err(NotOpened) <==> forall rest :: !Opens(text, rest)
    ensures forall rest :: Opens(text, rest) ==>
              && (ReadNote(text) == Err(NotClosed) <==> forall block, body :: !Closes(rest, block, body))
              && (forall block, body :: Closes(rest, block, body) ==>
                    var lines := ReadLines(SplitLF(block), Reading(map[], None));
                    ReadNote(text) == if lines.Err? then Err(lines.error) else Ok(Note(lines.value.metadata, body)))
  {
    hide SplitLF, ReadLine, ReadLines, Find;
    if StartsWith(text, "---\n") { assert Opens(text, text[4..]); }
    if StartsWith(text, "---\n") && Find(text[4..], CLOSING, 0).Some? {
      LinesErrors(SplitLF(text[4..][..Find(text[4..], CLOSING, 0).value]), Reading(map[], None));
    }
    forall rest | Opens(text, rest) ensures StartsWith(text, "---\n") && rest == text[4..] {}
    var rest := if |text| >= 4 then text[4..] else "";
    ClosesAt(rest);
  }

  lemma ClosesAt(rest: string)
    ensures var found := Find(rest, CLOSING, 0);
            && (found.None? <==> forall block, body :: !Closes(rest, block, body))
            && (forall block, body :: Closes(rest, block, body) ==>
                  found == Some(|block|) && block == rest[..|block|] && body == rest[|block| + 5..])
  {
    var found := Find(rest, CLOSING, 0);
    if found.Some? {
      var k := found.value;
      assert rest == rest[..k] + "\n---\n" + rest[k + 5..];
      assert Closes(rest, rest[..k], rest[k + 5..]);
    }
    forall block, body | Closes(rest, block, body)
      ensures found == Some(|block|) && block == rest[..|block|] && body == rest[|block| + 5..]
    {
      assert rest[|block|..|block| + 5] == "\n---\n";
      assert OccursAt(rest, CLOSING, |block|);
    }
  }

  lemma {:induction false} LinesErrors(lines: seq<string>, r: Reading)
    ensures var read := ReadLines(lines, r);
            read.Err? ==> read.error.ItemBeforeKey? || read.error.Unparsable? || read.error.BadNumber?
  {
    if lines != [] {
      LineErrors(lines[0], r);
      var next := ReadLine(lines[0], r);
      if next.Ok? { LinesErrors(lines[1..], next.value); }
      hide ReadLine;
    }
  }

  lemma LineErrors(line: string, r: Reading)
    ensures var read := ReadLine(line, r);
            read.Err? ==> read.error.ItemBeforeKey? || read.error.Unparsable? || read.error.BadNumber?
  {
    hide Strip, ListItem, KeyValue, ParseScalar;
    forall raw ensures ParseScalar(raw).Err? ==> ParseScalar(raw).error.BadNumber? { ValueErrors(raw); }
  }
}
