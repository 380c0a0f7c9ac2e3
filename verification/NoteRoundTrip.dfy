/**
  Whole notes: dumping and parsing back, for every map, key order and body, and
  dumping the result again.
 */
module NoteRoundTrip {
  import opened Wrappers
  import opened Lines
  import opened Decimal
  import opened PyText
  import opened Frontmatter
  import opened FrontmatterParser
  import opened FrontmatterRoundTrip

  // ------------------------------------------------------------ line by line

  predicate Renders(metadata: Metadata, keys: seq<string>) {
    forall k :: k in keys ==> k in metadata && PairLines(k, metadata[k]).Ok?
  }

  /** The frontmatter as lines. */
  function AllLines(metadata: Metadata, keys: seq<string>): seq<string>
    requires Renders(metadata, keys)
  {
    if keys == [] then [] else PairLines(keys[0], metadata[keys[0]]).value + AllLines(metadata, keys[1..])
  }

  lemma PairLinesNonempty(key: string, v: Value)
    ensures PairLines(key, v).Ok? ==> PairLines(key, v).value != []
  {
  }

  /** Joining the pairs is joining their lines; it fails exactly when some pair does. */
  lemma {:induction false} RenderPairsJoins(metadata: Metadata, keys: seq<string>)
    requires forall k :: k in keys ==> k in metadata
    ensures RenderPairs(metadata, keys).Ok? <==> Renders(metadata, keys)
    ensures RenderPairs(metadata, keys).Ok? ==>
              && |RenderPairs(metadata, keys).value| == |keys|
              && Join("\n", RenderPairs(metadata, keys).value) == Join("\n", AllLines(metadata, keys))
  {
    if keys != [] {
      var first := PairLines(keys[0], metadata[keys[0]]);
      RenderPairsJoins(metadata, keys[1..]);
      assert Renders(metadata, keys) <==> first.Ok? && Renders(metadata, keys[1..]);
      if Renders(metadata, keys) {
        JoinPairs(first.value, RenderPairs(metadata, keys[1..]).value, metadata, keys[1..]);
      }
    }
  }

  lemma JoinPairs(lines: seq<string>, more: seq<string>, metadata: Metadata, rest: seq<string>)
    requires lines != [] && Renders(metadata, rest) && |more| == |rest|
    requires Join("\n", more) == Join("\n", AllLines(metadata, rest))
    ensures Join("\n", [Join("\n", lines)] + more) == Join("\n", lines + AllLines(metadata, rest))
  {
    assert ([Join("\n", lines)] + more)[1..] == more;
    if rest == [] {
      assert lines + [] == lines;
    } else {
      PairLinesNonempty(rest[0], metadata[rest[0]]);
      assert AllLines(metadata, rest) != [];
      JoinAppends(lines, AllLines(metadata, rest));
    }
  }

  function CollapseAll(metadata: Metadata): Metadata {
    map k | k in metadata :: Collapse(k, metadata[k])
  }

  predicate KeysRead(keys: seq<string>) {
    forall k :: k in keys ==> IsKey(k)
  }

  function SetAll(start: Metadata, metadata: Metadata, keys: seq<string>): Metadata
    requires forall k :: k in keys ==> k in metadata
    decreases keys
  {
    if keys == [] then start
    else SetAll(start[keys[0] := Collapse(keys[0], metadata[keys[0]])], metadata, keys[1..])
  }

  lemma {:induction false} SetAllIs(start: Metadata, metadata: Metadata, keys: seq<string>)
    requires forall k :: k in keys ==> k in metadata
    ensures SetAll(start, metadata, keys) == start + map k | k in keys :: Collapse(k, metadata[k])
    decreases keys
  {
    hide Collapse;
    if keys != [] { SetAllIs(start[keys[0] := Collapse(keys[0], metadata[keys[0]])], metadata, keys[1..]); }
  }

  predicate ReadableKeys(metadata: Metadata, keys: seq<string>) {
    forall k :: k in keys ==> k in metadata && ReadableValue(k, metadata[k])
  }

  /** Reading every line of every pair sets every key, if every value is readable, and fails otherwise. */
  lemma {:induction false} LinesRead(metadata: Metadata, keys: seq<string>, r: Reading)
    requires Renders(metadata, keys) && KeysRead(keys)
    ensures var read := ReadLines(AllLines(metadata, keys), r);
            if ReadableKeys(metadata, keys) then
              read.Ok? && read.value.metadata == SetAll(r.metadata, metadata, keys)
            else read.Err?
  {
    hide Collapse, ReadLine, PairLines, ReadableValue;
    if keys != [] {
      var next := Reading(r.metadata[keys[0] := Collapse(keys[0], metadata[keys[0]])], Some(keys[0]));
      assert Renders(metadata, keys[1..]) && KeysRead(keys[1..]) && keys[0] in keys;
      assert ReadableKeys(metadata, keys)
             <==> ReadableValue(keys[0], metadata[keys[0]]) && ReadableKeys(metadata, keys[1..]);
      PairReads(keys[0], metadata[keys[0]], AllLines(metadata, keys[1..]), r);
      LinesRead(metadata, keys[1..], next);
    }
  }

  // ----------------------------------------------------------- shape of lines

  /** A frontmatter line: no line feed, not empty, and no dash in front. */
  predicate Sound(line: string) {
    OneLine(line) && line != "" && line[0] != '-'
  }

  predicate AllSound(lines: seq<string>) {
    forall i :: 0 <= i < |lines| ==> Sound(lines[i])
  }

  lemma OneLineConcat(x: string, y: string)
    ensures OneLine(x + y) <==> OneLine(x) && OneLine(y)
  {
    ContainsConcat(x, y, '\n');
  }

  lemma {:induction false} EscapedOneLine(t: string)
    requires OneLine(t)
    ensures OneLine(Escaped(t))
  {
    if t != "" {
      assert t[0] != '\n';
      assert OneLine(t[1..]) by {
        forall i | 0 <= i < |t[1..]| ensures t[1..][i] != '\n' { assert t[1..][i] == t[i + 1]; }
      }
      EscapedOneLine(t[1..]);
      OneLineConcat(EscapeChar(t[0]), Escaped(t[1..]));
    }
  }

  lemma RenderedOneLine(v: Scalar)
    requires OneLineScalar(v)
    ensures OneLine(RenderScalar(v))
  {
    match v
    case Null =>
    case Boolean(b) =>
    case Integer(n) =>
      var digits := Digits(if n < 0 then -n else n);
      assert forall i :: 0 <= i < |digits| ==> IsDigit(digits[i]);
      OneLineConcat("-", digits);
    case Text(t) =>
      EscapeByChar(t);
      EscapedOneLine(t);
      OneLineConcat("\"" + Escape(t), "\"");
      OneLineConcat("\"", Escape(t));
  }

  lemma KeyOneLine(key: string)
    requires IsKey(key)
    ensures OneLine(key) && key[0] != '-'
  {
    assert !IsKeyChar('\n') && !IsLetter('-');
  }

  lemma KeyLineSound(key: string, tail: string)
    requires IsKey(key) && OneLine(tail)
    ensures Sound(key + tail)
  {
    KeyOneLine(key);
    OneLineConcat(key, tail);
    hide OneLine, IsKeyChar;
  }

  lemma {:induction false} ItemLinesSound(items: seq<Scalar>)
    requires OneLineItems(items)
    ensures AllSound(ItemLines(items))
  {
    if items != [] {
      ItemLinesSound(items[1..]);
      RenderedOneLine(items[0]);
      OneLineConcat("  - ", RenderScalar(items[0]));
      assert Sound("  - " + RenderScalar(items[0]));
    }
  }

  lemma {:induction false} CharsOneLine(s: string)
    requires OneLine(s)
    ensures OneLineItems(CharsOf(s))
  {
    if s != "" {
      assert s[0] != '\n';
      assert OneLine(s[1..]) by {
        forall i | 0 <= i < |s[1..]| ensures s[1..][i] != '\n' { assert s[1..][i] == s[i + 1]; }
      }
      CharsOneLine(s[1..]);
      assert OneLine([s[0]]);
    }
  }

  lemma PairLinesSound(key: string, v: Value)
    requires IsKey(key) && OneLineValue(v) && PairLines(key, v).Ok?
    ensures AllSound(PairLines(key, v).value)
  {
    hide IsKey, Sound, OneLine, RenderScalar, ItemLines, CharsOf, AllSound;
    if RendersAsList(key, v) {
      if v.One? && v.scalar.Text? { CharsOneLine(v.scalar.text); }
      ListLinesSound(key, ListOf(key, v).value);
    } else {
      ScalarLineSound(key, v.scalar);
    }
  }

  lemma ListLinesSound(key: string, items: seq<Scalar>)
    requires IsKey(key) && OneLineItems(items)
    ensures AllSound([key + ": []"]) && AllSound([key + ":"] + ItemLines(items))
  {
    assert OneLine(":") && OneLine(": []");
    hide IsKey, Sound, OneLine, ItemLines;
    KeyLineSound(key, ":");
    KeyLineSound(key, ": []");
    ItemLinesSound(items);
  }

  lemma ScalarLineSound(key: string, s: Scalar)
    requires IsKey(key) && OneLineScalar(s)
    ensures AllSound([ScalarLine(key, RenderScalar(s))])
  {
    assert OneLine(":") && OneLine(": ");
    hide IsKey, Sound, OneLine, RenderScalar, OneLineScalar;
    RenderedOneLine(s);
    OneLineConcat(": ", RenderScalar(s));
    KeyLineSound(key, ":");
    KeyLineSound(key, ": " + RenderScalar(s));
    ConcatAssociates(key, ": ", RenderScalar(s));
  }

  predicate OneLineAll(metadata: Metadata, keys: seq<string>) {
    forall k :: k in keys ==> k in metadata && OneLineValue(metadata[k])
  }

  lemma {:induction false} AllLinesSound(metadata: Metadata, keys: seq<string>)
    requires Renders(metadata, keys) && KeysRead(keys) && OneLineAll(metadata, keys)
    ensures AllSound(AllLines(metadata, keys))
  {
    if keys != [] {
      assert keys[0] in keys && Renders(metadata, keys[1..]) && KeysRead(keys[1..]) && OneLineAll(metadata, keys[1..]);
      PairLinesSound(keys[0], metadata[keys[0]]);
      AllLinesSound(metadata, keys[1..]);
    }
  }

  // --------------------------------------------------------------- delimiters

  /** Every line feed is followed by a character, and that is no dash. */
  predicate Undashed(s: string) {
    forall k :: 0 <= k < |s| && s[k] == '\n' ==> k + 1 < |s| && s[k + 1] != '-'
  }

  lemma {:induction false} JoinUndashed(lines: seq<string>)
    requires AllSound(lines)
    ensures Undashed(Join("\n", lines))
    ensures lines != [] ==> Join("\n", lines) != "" && Join("\n", lines)[0] == lines[0][0]
  {
    if |lines| == 1 {
      assert Sound(lines[0]);
    } else if |lines| > 1 {
      assert Sound(lines[0]) && Sound(lines[1]) && AllSound(lines[1..]);
      JoinUndashed(lines[1..]);
      UndashedJoins(lines[0], Join("\n", lines[1..]));
    }
  }

  lemma UndashedJoins(line: string, rest: string)
    requires Sound(line) && Undashed(rest) && rest != "" && rest[0] != '-'
    ensures Undashed(line + "\n" + rest)
  {
    var s, n := line + "\n" + rest, |line| + 1;
    assert forall i :: 0 <= i < |line| ==> s[i] == line[i] && line[i] != '\n';
    forall k | 0 <= k < |s| && s[k] == '\n' ensures k + 1 < |s| && s[k + 1] != '-' {
      if k >= n {
        assert s[k] == rest[k - n];
        assert s[k + 1] == rest[k - n + 1];
      } else {
        assert s[|line| + 1] == rest[0];
      }
    }
  }

  /** The first closing delimiter is the one the printer wrote. */
  lemma ClosingFound(frontmatter: string, body: string)
    requires Undashed(frontmatter)
    ensures Find(frontmatter + CLOSING + body, CLOSING, 0) == Some(|frontmatter|)
  {
    var text, n := frontmatter + CLOSING + body, |frontmatter|;
    assert text[n..n + |CLOSING|] == CLOSING;
    assert OccursAt(text, CLOSING, n);
    forall k: nat | k < n ensures !OccursAt(text, CLOSING, k) {
      OccursChar(text, CLOSING, k, 0);
      OccursChar(text, CLOSING, k, 1);
      assert text[k] == frontmatter[k] && (k + 1 < n ==> text[k + 1] == frontmatter[k + 1]);
    }
  }

  // --------------------------------------------------------------- round trip

  /** Every key is an identifier and every text is one line; nothing else is asked. */
  predicate Canonical(metadata: Metadata) {
    forall k :: k in metadata ==> IsKey(k) && OneLineValue(metadata[k])
  }

  /** `dump_note` fails exactly when some list key holds a scalar that does not iterate. */
  lemma DumpSucceeds(metadata: Metadata, body: string, order: seq<string>)
    ensures DumpNote(metadata, body, order).Ok? <==> forall k :: k in metadata ==> PairLines(k, metadata[k]).Ok?
  {
    KeyOrderKeys(metadata.Keys, order);
    RenderPairsJoins(metadata, KeyOrder(metadata.Keys, order));
  }

  lemma DumpText(metadata: Metadata, body: string, order: seq<string>)
    requires DumpNote(metadata, body, order).Ok?
    ensures Renders(metadata, KeyOrder(metadata.Keys, order))
    ensures DumpNote(metadata, body, order).value
            == "---\n" + (Join("\n", AllLines(metadata, KeyOrder(metadata.Keys, order))) + CLOSING + Terminated(body))
  {
    KeyOrderKeys(metadata.Keys, order);
    RenderPairsJoins(metadata, KeyOrder(metadata.Keys, order));
    var f := Join("\n", AllLines(metadata, KeyOrder(metadata.Keys, order)));
    ConcatAssociates("---\n", f, CLOSING);
    ConcatAssociates("---\n", f + CLOSING, Terminated(body));
  }

  lemma SoundLines(lines: seq<string>)
    requires AllSound(lines)
    ensures forall i :: 0 <= i < |lines| ==> OneLine(lines[i])
  {
    assert forall i :: 0 <= i < |lines| ==> Sound(lines[i]);
    hide OneLine;
  }

  lemma AllLinesReadBack(metadata: Metadata, keys: seq<string>)
    requires Renders(metadata, keys) && KeysRead(keys) && OneLineAll(metadata, keys)
    requires forall k :: k in keys <==> k in metadata
    ensures var read := ReadLines(SplitLF(Join("\n", AllLines(metadata, keys))), Reading(map[], None));
            if ReadableKeys(metadata, keys) then read.Ok? && read.value.metadata == CollapseAll(metadata) else read.Err?
  {
    hide ReadableKeys, Collapse, PairLines, Sound, OneLine, ReadLines, SplitLF, AllLines, Renders, KeysRead;
    var lines, start := AllLines(metadata, keys), Reading(map[], None);
    AllLinesSound(metadata, keys);
    SoundLines(lines);
    SplitJoin(lines);
    LinesRead(metadata, keys, start);
    SetAllIs(map[], metadata, keys);
    assert map[] + (map k | k in keys :: Collapse(k, metadata[k])) == CollapseAll(metadata);
    if lines == [] { BlankReads(start); }
  }

  lemma BlankReads(r: Reading)
    ensures ReadLines([""], r) == ReadLines([], r)
  {
    assert Strip("") == "" && [""][1..] == [];
  }

  /** Every value can be read again. */
  predicate ReadableAll(metadata: Metadata) {
    forall k :: k in metadata ==> ReadableValue(k, metadata[k])
  }

  /** A dumped canonical note is read as its collapsed metadata and its terminated body, or refused if unreadable. */
  lemma CanonicalReads(metadata: Metadata, body: string, order: seq<string>)
    requires Canonical(metadata) && DumpNote(metadata, body, order).Ok?
    ensures var r := ReadNote(DumpNote(metadata, body, order).value);
            if ReadableAll(metadata) then r == Ok(Note(CollapseAll(metadata), Terminated(body))) else r.Err?
  {
    var keys := KeyOrder(metadata.Keys, order);
    KeyOrderKeys(metadata.Keys, order);
    DumpText(metadata, body, order);
    AllLinesReadBack(metadata, keys);
    AllLinesSound(metadata, keys);
    assert ReadableAll(metadata) <==> ReadableKeys(metadata, keys) by { hide ReadableValue; }
    var f, b := Join("\n", AllLines(metadata, keys)), Terminated(body);
    JoinUndashed(AllLines(metadata, keys));
    hide *;
    TextReads("---\n" + (f + CLOSING + b), f, b);
  }

  lemma TextReads(text: string, frontmatter: string, body: string)
    requires text == "---\n" + (frontmatter + CLOSING + body) && Undashed(frontmatter)
    ensures var read := ReadLines(SplitLF(frontmatter), Reading(map[], None));
            ReadNote(text) == if read.Err? then Err(read.error) else Ok(Note(read.value.metadata, body))
  {
    hide ReadLines, SplitLF, Find;
    var rest, n := frontmatter + CLOSING + body, |frontmatter|;
    assert text[..4] == "---\n" && text[4..] == rest;
    ClosingFound(frontmatter, body);
    assert rest[..n] == frontmatter && rest[n + |CLOSING|..] == body;
  }

  // ------------------------------------------------------- what can come back

  /** The parser's variables hold identifier keys and one-line values. */
  predicate CanonicalReading(r: Reading) {
    Canonical(r.metadata) && (r.key.Some? ==> IsKey(r.key.value))
  }

  lemma {:induction false} ReplaceKeepsOneLine(s: string, pattern: string, with: string)
    requires pattern != "" && OneLine(s) && OneLine(with)
    ensures OneLine(ReplaceAll(s, pattern, with))
    decreases |s|
  {
    if s != "" {
      if StartsWith(s, pattern) {
        SliceOneLine(s, |pattern|, |s|);
        ReplaceKeepsOneLine(s[|pattern|..], pattern, with);
        OneLineConcat(with, ReplaceAll(s[|pattern|..], pattern, with));
      } else {
        SliceOneLine(s, 1, |s|);
        SliceOneLine(s, 0, 1);
        ReplaceKeepsOneLine(s[1..], pattern, with);
        assert [s[0]] == s[0..1];
        OneLineConcat([s[0]], ReplaceAll(s[1..], pattern, with));
      }
    }
  }

  lemma SliceOneLine(s: string, i: nat, j: nat)
    requires OneLine(s) && i <= j <= |s|
    ensures OneLine(s[i..j])
  {
    forall k | 0 <= k < |s[i..j]| ensures s[i..j][k] != '\n' { assert s[i..j][k] == s[i + k]; }
  }

  lemma {:induction false} StripOneLine(s: string)
    requires OneLine(s)
    ensures OneLine(StripLeft(s)) && OneLine(StripRight(s))
  {
    hide OneLine;
    if s != "" {
      SliceOneLine(s, 1, |s|);
      SliceOneLine(s, 0, |s| - 1);
      assert s[1..|s|] == s[1..] && s[0..|s| - 1] == s[..|s| - 1];
      StripOneLine(s[1..]);
      StripOneLine(s[..|s| - 1]);
    }
  }

  lemma ParsedOneLine(raw: string)
    requires OneLine(raw)
    ensures ParseScalar(raw).Ok? ==> OneLineScalar(ParseScalar(raw).value)
  {
    var s := Strip(raw);
    StripOneLine(raw);
    StripOneLine(StripLeft(raw));
    assert OneLine("\"") && OneLine("\\");
    hide OneLine, IsDecimal, IsSpecialDigit, Strip;
    if |s| >= 2 {
      var inner := s[1..|s| - 1];
      SliceOneLine(s, 1, |s| - 1);
      ReplaceKeepsOneLine(inner, "\\\"", "\"");
      ReplaceKeepsOneLine(ReplaceAll(inner, "\\\"", "\""), "\\\\", "\\");
    }
  }

  lemma {:induction false} KeyRunChars(s: string)
    ensures forall i :: 0 <= i < KeyRun(s) ==> IsKeyChar(s[i])
  {
    if s != "" && IsKeyChar(s[0]) {
      KeyRunChars(s[1..]);
      forall i | 0 <= i < KeyRun(s) ensures IsKeyChar(s[i]) {
        if i > 0 { assert s[i] == s[1..][i - 1]; }
      }
    }
  }

  lemma KeyValueCanonical(line: string)
    requires OneLine(line) && KeyValue(line).Some?
    ensures IsKey(KeyValue(line).value.key) && OneLine(KeyValue(line).value.raw)
  {
    hide Strip, OneLine, IsKeyChar, IsLetter;
    var k := KeyRun(line);
    KeyRunChars(line);
    var rest := line[k + 1..];
    SliceOneLine(line, k + 1, |line|);
    assert rest == line[k + 1..|line|];
    StripsOneLine(rest);
    if rest != "" {
      SliceOneLine(rest, 1, |rest|);
      assert rest[1..] == rest[1..|rest|];
      StripsOneLine(rest[1..]);
    }
  }

  lemma StripsOneLine(s: string)
    requires OneLine(s)
    ensures OneLine(Strip(s))
  {
    hide OneLine, StripLeft, StripRight;
    StripOneLine(s);
    StripOneLine(StripLeft(s));
  }

  lemma AppendedOneLine(v: Value, item: Scalar)
    requires OneLineValue(v) && OneLineScalar(item)
    ensures OneLineValue(Appended(v, item))
  {
    hide OneLineScalar;
  }

  /** One line of a note keeps keys identifiers and values one line. */
  lemma LineKeepsCanonical(line: string, r: Reading)
    requires OneLine(line) && CanonicalReading(r)
    ensures ReadLine(line, r).Ok? ==> CanonicalReading(ReadLine(line, r).value)
  {
    hide Strip, ListItem, KeyValue, ParseScalar, OneLine, IsKey, OneLineValue;
    var item, pair := ListItem(line), KeyValue(line);
    if ReadLine(line, r).Ok? && Strip(line) != "" {
      if item.Some? {
        ItemOneLine(line);
        ParsedOneLine(item.value);
        EmptyListOneLine();
        var current := if r.key.value in r.metadata then r.metadata[r.key.value] else Many([]);
        AppendedOneLine(current, ParseScalar(item.value).value);
      } else {
        KeyValueCanonical(line);
        ParsedOneLine(pair.value.raw);
        ValueOneLine(pair.value.raw);
      }
    }
  }

  lemma ItemOneLine(line: string)
    requires OneLine(line) && ListItem(line).Some?
    ensures OneLine(ListItem(line).value)
  {
    SliceOneLine(line, 4, |line|);
  }

  lemma EmptyListOneLine()
    ensures OneLineValue(Many([]))
  {
  }

  lemma ValueOneLine(raw: string)
    requires ParseScalar(raw).Ok? ==> OneLineScalar(ParseScalar(raw).value)
    ensures ParseValue(raw).Ok? ==> OneLineValue(ParseValue(raw).value)
  {
    hide ParseScalar;
  }

  lemma {:induction false} LinesKeepCanonical(lines: seq<string>, r: Reading)
    requires CanonicalReading(r) && forall i :: 0 <= i < |lines| ==> OneLine(lines[i])
    ensures ReadLines(lines, r).Ok? ==> CanonicalReading(ReadLines(lines, r).value)
  {
    hide OneLine, ReadLine, CanonicalReading;
    if lines != [] {
      LineKeepsCanonical(lines[0], r);
      if ReadLine(lines[0], r).Ok? { LinesKeepCanonical(lines[1..], ReadLine(lines[0], r).value); }
    }
  }

  lemma {:induction false} SplitLFOneLine(s: string)
    ensures forall i :: 0 <= i < |SplitLF(s)| ==> OneLine(SplitLF(s)[i])
  {
    if s != "" {
      SplitLFOneLine(s[1..]);
      var rest := SplitLF(s[1..]);
      if s[0] != '\n' {
        OneLineConcat([s[0]], rest[0]);
        assert OneLine([s[0]]);
      }
      hide OneLine;
      assert forall i :: 1 <= i < |rest| ==> rest[1..][i - 1] == rest[i];
    }
  }

  /** Whatever the parser accepts has identifier keys and one-line values. */
  lemma AcceptedIsCanonical(text: string)
    ensures ReadNote(text).Ok? ==> Canonical(ReadNote(text).value.metadata)
  {
    hide Find, SplitLF, ReadLines, Canonical;
    if ReadNote(text).Ok? {
      var rest := text[4..];
      var lines := SplitLF(rest[..Find(rest, CLOSING, 0).value]);
      SplitLFOneLine(rest[..Find(rest, CLOSING, 0).value]);
      EmptyReadingCanonical();
      LinesKeepCanonical(lines, Reading(map[], None));
    }
  }

  lemma EmptyReadingCanonical()
    ensures CanonicalReading(Reading(map[], None))
  {
  }

  lemma {:induction false} CharsOneLineBack(s: string)
    requires OneLineItems(CharsOf(s))
    ensures OneLine(s)
  {
    if s != "" {
      var items := CharsOf(s);
      assert OneLineScalar(items[0]) && items[1..] == CharsOf(s[1..]);
      CharsOneLineBack(s[1..]);
      assert s == [s[0]] + s[1..];
      OneLineConcat([s[0]], s[1..]);
    }
  }

  lemma {:induction false} ReadAllOneLineBack(items: seq<Scalar>)
    requires OneLineItems(ReadAll(items))
    ensures OneLineItems(items)
  {
    if items != [] {
      assert ReadAll(items)[0] == ReadBack(items[0]) && ReadAll(items)[1..] == ReadAll(items[1..]);
      ReadAllOneLineBack(items[1..]);
      assert items == [items[0]] + items[1..];
    }
  }

  /** Collapsing neither adds nor hides a line feed. */
  lemma CollapseOneLineBack(key: string, v: Value)
    requires PairLines(key, v).Ok? && OneLineValue(Collapse(key, v))
    ensures OneLineValue(v)
  {
    if RendersAsList(key, v) {
      var items := ListOf(key, v).value;
      ReadAllOneLineBack(items);
      if v.One? && v.scalar.Text? && v.scalar.text != "" { CharsOneLineBack(v.scalar.text); }
    } else {
      ScalarReadsBack(v.scalar);
    }
  }

  /**
    A dumped note is read as its collapsed metadata and its terminated body if and only if
    its keys are identifiers, its texts are single lines, and none is digits that are no
    number: for every map, every key order and every body.
   */
  lemma ParseInvertsDump(metadata: Metadata, body: string, order: seq<string>)
    requires DumpNote(metadata, body, order).Ok?
    ensures ReadNote(DumpNote(metadata, body, order).value) == Ok(Note(CollapseAll(metadata), Terminated(body)))
            <==> Canonical(metadata) && ReadableAll(metadata)
  {
    var r := ReadNote(DumpNote(metadata, body, order).value);
    DumpSucceeds(metadata, body, order);
    AcceptedIsCanonical(DumpNote(metadata, body, order).value);
    if Canonical(metadata) { CanonicalReads(metadata, body, order); }
    hide PairLines, Collapse, OneLineValue, IsKey, DumpNote, ReadNote, ReadableAll;
    if r == Ok(Note(CollapseAll(metadata), Terminated(body))) {
      forall k | k in metadata ensures IsKey(k) && OneLineValue(metadata[k]) {
        assert k in CollapseAll(metadata) && CollapseAll(metadata)[k] == Collapse(k, metadata[k]);
        CollapseOneLineBack(k, metadata[k]);
      }
    }
  }

  // ---------------------------------------------------------- what comes back

  /** A scalar that reads back as itself inside a list. */
  predicate SurvivesInList(s: Scalar) {
    (s.Integer? && s.n >= 0) || (s.Text? && ReadableText(s.text))
  }

  /** A value that comes back as it went in. */
  predicate Survives(key: string, v: Value) {
    match v
    case Many(items) => forall i :: 0 <= i < |items| ==> SurvivesInList(items[i])
    case One(s) => key !in LIST_KEYS && (s == Null || (SurvivesInList(s) && s != Text("")))
  }

  lemma {:induction false} ReadAllIdentity(items: seq<Scalar>)
    ensures AllReadable(items) && ReadAll(items) == items
            <==> forall i :: 0 <= i < |items| ==> SurvivesInList(items[i])
    ensures |ReadAll(items)| == |items|
  {
    hide ReadableText;
    ReadableCons(items);
    if items != [] {
      ReadAllIdentity(items[1..]);
      assert Readable(items[0]) && ReadBack(items[0]) == items[0] <==> SurvivesInList(items[0]);
      assert ReadAll(items) == items <==> ReadBack(items[0]) == items[0] && ReadAll(items[1..]) == items[1..] by {
        assert items == [items[0]] + items[1..];
        assert ReadAll(items)[0] == ReadBack(items[0]) && ReadAll(items)[1..] == ReadAll(items[1..]);
      }
      assert forall i :: 1 <= i < |items| ==> items[i] == items[1..][i - 1];
      hide SurvivesInList, Readable, AllReadable, ReadBack;
    }
  }

  lemma CollapseIdentity(key: string, v: Value)
    requires PairLines(key, v).Ok?
    ensures ReadableValue(key, v) && Collapse(key, v) == v <==> Survives(key, v)
  {
    hide ReadableText;
    if RendersAsList(key, v) {
      ReadAllIdentity(ListOf(key, v).value);
    } else {
      ScalarReadsBack(v.scalar);
    }
  }

  /**
    A note comes back exactly as it was if and only if its keys are identifiers and its
    texts single lines, every value survives, and the body is empty or ends in a line feed.
   */
  lemma RoundTripsExactly(metadata: Metadata, body: string, order: seq<string>)
    requires DumpNote(metadata, body, order).Ok?
    ensures ReadNote(DumpNote(metadata, body, order).value) == Ok(Note(metadata, body))
            <==> && Canonical(metadata)
                 && (forall k :: k in metadata ==> Survives(k, metadata[k]))
                 && (body == "" || EndsWith(body, "\n"))
  {
    DumpSucceeds(metadata, body, order);
    AcceptedIsCanonical(DumpNote(metadata, body, order).value);
    if Canonical(metadata) { CanonicalReads(metadata, body, order); }
    forall k | k in metadata
      ensures ReadableValue(k, metadata[k]) && Collapse(k, metadata[k]) == metadata[k] <==> Survives(k, metadata[k])
    {
      CollapseIdentity(k, metadata[k]);
    }
    TerminatedIdentity(body);
    CollapseAllIdentity(metadata);
    hide Collapse, Survives, DumpNote, ReadNote, Canonical, ReadableValue, CollapseAll, Terminated;
  }

  lemma TerminatedIdentity(body: string)
    ensures Terminated(body) == body <==> body == "" || EndsWith(body, "\n")
  {
    assert |body + "\n"| == |body| + 1;
  }

  lemma CollapseAllIdentity(metadata: Metadata)
    ensures CollapseAll(metadata) == metadata <==> forall k :: k in metadata ==> Collapse(k, metadata[k]) == metadata[k]
  {
    hide Collapse;
    if CollapseAll(metadata) == metadata {
      forall k | k in metadata ensures Collapse(k, metadata[k]) == metadata[k] {
        assert CollapseAll(metadata)[k] == Collapse(k, metadata[k]);
      }
    }
  }

  // ---------------------------------------------------------------- same bytes

  /** A scalar whose text is also the text of what it reads back as. */
  predicate StableScalar(s: Scalar) {
    !s.Boolean? && (s.Integer? ==> s.n >= 0)
  }

  predicate StableValue(key: string, v: Value) {
    if RendersAsList(key, v) then
      ListOf(key, v).Ok? ==> forall i :: 0 <= i < |ListOf(key, v).value| ==> StableScalar(ListOf(key, v).value[i])
    else StableScalar(v.scalar)
  }

  lemma TextStable(s: Scalar)
    requires s.Text? || s.Null?
    ensures RenderScalar(ReadBack(s)) == RenderScalar(s) <==> StableScalar(s)
  {
  }

  lemma BooleanStable(s: Scalar)
    requires s.Boolean?
    ensures RenderScalar(ReadBack(s)) == RenderScalar(s) <==> StableScalar(s)
  {
    assert Lower("true") == "true" && Lower("false") == "false";
  }

  lemma IntegerStable(s: Scalar)
    requires s.Integer?
    ensures RenderScalar(ReadBack(s)) == RenderScalar(s) <==> StableScalar(s)
  {
    if s.n < 0 { NegativeNumeric(-s.n); }
  }

  lemma ReadBackStable(s: Scalar)
    ensures RenderScalar(ReadBack(s)) == RenderScalar(s) <==> StableScalar(s)
  {
    hide *;
    match s
    case Boolean(_) => BooleanStable(s);
    case Integer(_) => IntegerStable(s);
    case _ => TextStable(s);
  }

  /** A negative number is numeric text, so once it is text it is quoted. */
  lemma NegativeNumeric(n: nat)
    requires n > 0
    ensures NeedsQuote("-" + Digits(n)) && Quote("-" + Digits(n)) != "-" + Digits(n)
  {
    hide IsMantissa, IsDecimal;
    var s := "-" + Digits(n);
    assert s[1..] == Digits(n) && Unsigned(s) == Digits(n);
    DigitsAreDecimals(Digits(n));
    DecimalsNumeric(Digits(n));
    assert Quote(s)[0] == '"' && s[0] == '-';
  }

  lemma {:induction false} ItemsStable(items: seq<Scalar>)
    ensures ItemLines(ReadAll(items)) == ItemLines(items) <==> forall i :: 0 <= i < |items| ==> StableScalar(items[i])
    ensures |ItemLines(ReadAll(items))| == |ItemLines(items)| == |items|
  {
    if items != [] {
      ItemsStable(items[1..]);
      ReadBackStable(items[0]);
      var x, y := RenderScalar(ReadBack(items[0])), RenderScalar(items[0]);
      assert ReadAll(items)[0] == ReadBack(items[0]) && ReadAll(items)[1..] == ReadAll(items[1..]);
      assert ItemLines(ReadAll(items)) == ["  - " + x] + ItemLines(ReadAll(items[1..]));
      assert ItemLines(items) == ["  - " + y] + ItemLines(items[1..]);
      assert forall i :: 1 <= i < |items| ==> items[i] == items[1..][i - 1];
      hide ItemLines, ReadAll, RenderScalar, ReadBack, StableScalar;
      SameTail("  - ", x, y);
      ConcatsEqual(["  - " + x], ["  - " + y], ItemLines(ReadAll(items[1..])), ItemLines(items[1..]));
    }
  }

  lemma SameTail(head: string, x: string, y: string)
    ensures head + x == head + y <==> x == y
  {
    assert (head + x)[|head|..] == x && (head + y)[|head|..] == y;
  }

  lemma ConcatsEqual<T>(a: seq<T>, b: seq<T>, c: seq<T>, d: seq<T>)
    requires |a| == |b|
    ensures a + c == b + d <==> a == b && c == d
  {
    assert (a + c)[..|a|] == a && (a + c)[|a|..] == c;
    assert (b + d)[..|b|] == b && (b + d)[|b|..] == d;
  }

  /** Rendering what a pair was read back as gives the same lines exactly for stable values. */
  lemma PairStable(key: string, v: Value)
    requires PairLines(key, v).Ok?
    ensures var again := PairLines(key, Collapse(key, v));
            && again.Ok? && |again.value| == |PairLines(key, v).value|
            && (again.value == PairLines(key, v).value <==> StableValue(key, v))
  {
    if RendersAsList(key, v) {
      var items := ListOf(key, v).value;
      ItemsStable(items);
      ReadAllIdentity(items);
      assert ListOf(key, Many(ReadAll(items))) == Ok(ReadAll(items));
      hide RenderScalar, ReadAll, ItemLines, StableScalar, ListOf;
      ConcatsEqual([key + ":"], [key + ":"], ItemLines(ReadAll(items)), ItemLines(items));
    } else {
      ScalarReadsBack(v.scalar);
      ReadBackStable(v.scalar);
      ScalarReadsBack(ReadBack(v.scalar));
      SameTail(key + ": ", RenderScalar(ReadBack(v.scalar)), RenderScalar(v.scalar));
    }
  }

  lemma {:induction false} AllLinesStable(metadata: Metadata, keys: seq<string>)
    requires Renders(metadata, keys)
    ensures Renders(CollapseAll(metadata), keys)
    ensures AllLines(CollapseAll(metadata), keys) == AllLines(metadata, keys)
            <==> forall k :: k in keys ==> StableValue(k, metadata[k])
  {
    if keys != [] {
      var k, rest := keys[0], keys[1..];
      assert k in keys && Renders(metadata, rest);
      PairStable(k, metadata[k]);
      AllLinesStable(metadata, rest);
      assert AllLines(metadata, keys) == PairLines(k, metadata[k]).value + AllLines(metadata, rest);
      assert forall x :: x in keys <==> x == k || x in rest;
      hide Collapse, PairLines, StableValue;
      assert Renders(CollapseAll(metadata), keys);
      assert AllLines(CollapseAll(metadata), keys)
          == PairLines(k, Collapse(k, metadata[k])).value + AllLines(CollapseAll(metadata), rest);
      ConcatsEqual(PairLines(k, Collapse(k, metadata[k])).value, PairLines(k, metadata[k]).value,
                   AllLines(CollapseAll(metadata), rest), AllLines(metadata, rest));
    }
  }

  lemma ReadBackOneLine(s: Scalar)
    requires OneLineScalar(s)
    ensures OneLineScalar(ReadBack(s))
  {
    RenderedOneLine(s);
  }

  lemma {:induction false} ReadAllOneLine(items: seq<Scalar>)
    requires OneLineItems(items)
    ensures OneLineItems(ReadAll(items))
  {
    if items != [] {
      ReadBackOneLine(items[0]);
      ReadAllOneLine(items[1..]);
    }
  }

  lemma CollapseOneLine(key: string, v: Value)
    requires OneLineValue(v)
    ensures OneLineValue(Collapse(key, v))
  {
    if RendersAsList(key, v) {
      if v.One? && v.scalar.Text? { CharsOneLine(v.scalar.text); }
      if ListOf(key, v).Ok? { ReadAllOneLine(ListOf(key, v).value); }
    } else {
      ReadBackOneLine(v.scalar);
    }
  }

  lemma JoinsEqual(x: seq<string>, y: seq<string>)
    requires AllSound(x) && AllSound(y) && (x == [] <==> y == [])
    ensures Join("\n", x) == Join("\n", y) <==> x == y
  {
    assert forall i :: 0 <= i < |x| ==> Sound(x[i]);
    assert forall i :: 0 <= i < |y| ==> Sound(y[i]);
    SplitJoin(x);
    SplitJoin(y);
  }

  lemma {:induction false} AllLinesEmpty(metadata: Metadata, keys: seq<string>)
    requires Renders(metadata, keys)
    ensures AllLines(metadata, keys) == [] <==> keys == []
  {
    if keys != [] { PairLinesNonempty(keys[0], metadata[keys[0]]); }
  }

  /**
    Dumping again what a canonical note was parsed to gives the same bytes, whatever the
    map's order, exactly when no value is a boolean or a negative number.
   */
  lemma RedumpSameBytes(metadata: Metadata, body: string, order: seq<string>)
    requires Canonical(metadata) && DumpNote(metadata, body, order).Ok?
    requires ReadNote(DumpNote(metadata, body, order).value).Ok?
    ensures var note := ReadNote(DumpNote(metadata, body, order).value).value;
            DumpNote(note.metadata, note.body, order) == DumpNote(metadata, body, order)
            <==> forall k :: k in metadata ==> StableValue(k, metadata[k])
  {
    CanonicalReads(metadata, body, order);
    hide *;
    CollapsedDump(metadata, body, order);
  }

  lemma CollapsedDump(metadata: Metadata, body: string, order: seq<string>)
    requires Canonical(metadata) && DumpNote(metadata, body, order).Ok?
    ensures DumpNote(CollapseAll(metadata), Terminated(body), order) == DumpNote(metadata, body, order)
            <==> forall k :: k in metadata ==> StableValue(k, metadata[k])
  {
    var keys, again := KeyOrder(metadata.Keys, order), CollapseAll(metadata);
    KeyOrderKeys(metadata.Keys, order);
    assert again.Keys == metadata.Keys;
    DumpText(metadata, body, order);
    AllLinesStable(metadata, keys);
    RenderPairsJoins(again, keys);
    assert DumpNote(again, Terminated(body), order).Ok?;
    DumpText(again, Terminated(body), order);
    assert OneLineAll(again, keys) by {
      forall k | k in keys ensures k in again && OneLineValue(again[k]) { CollapseOneLine(k, metadata[k]); }
    }
    AllLinesSound(metadata, keys);
    AllLinesSound(again, keys);
    AllLinesEmpty(metadata, keys);
    AllLinesEmpty(again, keys);
    JoinsEqual(AllLines(metadata, keys), AllLines(again, keys));
    assert Terminated(Terminated(body)) == Terminated(body) by { EndsWithLF(body + "\n"); }
    assert (forall k :: k in keys ==> StableValue(k, metadata[k]))
           == (forall k :: k in metadata ==> StableValue(k, metadata[k]));
    hide *;
    SameDump(Join("\n", AllLines(metadata, keys)), Join("\n", AllLines(again, keys)), Terminated(body));
  }

  lemma SameDump(x: string, y: string, body: string)
    ensures "---\n" + (x + CLOSING + body) == "---\n" + (y + CLOSING + body) <==> x == y
  {
    SameTail("---\n", x + CLOSING + body, y + CLOSING + body);
    if x + CLOSING + body == y + CLOSING + body {
      assert |x| == |y|;
      ConcatAssociates(x, CLOSING, body);
      ConcatAssociates(y, CLOSING, body);
      ConcatsEqual(x, y, CLOSING + body, CLOSING + body);
    }
  }

  // ------------------------------------------------------ reading a list back

  /** `str(item)`. */
  function ItemString(s: Scalar): string {
    match s
    case Null => "None"
    case Boolean(b) => if b then "True" else "False"
    case Integer(n) => IntText(n)
    case Text(t) => t
  }

  function ItemStrings(items: seq<Scalar>): seq<string> {
    if items == [] then [] else [ItemString(items[0])] + ItemStrings(items[1..])
  }

  /** `_as_list`. */
  function AsList(v: Option<Value>): seq<string> {
    if v.None? || v.value == One(Null) then []
    else if v.value.Many? then ItemStrings(v.value.items)
    else [ItemString(v.value.scalar)]
  }

  lemma {:induction false} ItemStringsReadBack(items: seq<Scalar>)
    ensures ItemStrings(ReadAll(items)) == ItemStrings(items)
            <==> forall i :: 0 <= i < |items| ==> items[i].Integer? || items[i].Text?
    ensures |ItemStrings(items)| == |items| == |ReadAll(items)|
  {
    hide IntText;
    if items != [] {
      ItemStringsReadBack(items[1..]);
      var again := ReadAll(items);
      assert again[0] == ReadBack(items[0]) && again[1..] == ReadAll(items[1..]);
      assert items == [items[0]] + items[1..];
      assert ItemString(ReadBack(items[0])) == ItemString(items[0]) <==> items[0].Integer? || items[0].Text?;
      ConcatsEqual([ItemString(again[0])], [ItemString(items[0])], ItemStrings(again[1..]), ItemStrings(items[1..]));
    }
  }

  /** The importer reads a printed list as the same strings exactly when it holds only texts and integers. */
  lemma ListReadsSameStrings(key: string, items: seq<Scalar>)
    ensures AsList(Some(Collapse(key, Many(items)))) == AsList(Some(Many(items)))
            <==> forall i :: 0 <= i < |items| ==> items[i].Integer? || items[i].Text?
  {
    ItemStringsReadBack(items);
  }

  // ------------------------------------------------------------ line feeds

  lemma {:induction false} NothingToEscape(s: string)
    requires forall i :: 0 <= i < |s| ==> s[i] != '\\' && s[i] != '"'
    ensures Escape(s) == s
  {
    EscapeByChar(s);
    EscapedPlain(s);
  }

  lemma {:induction false} EscapedPlain(s: string)
    requires forall i :: 0 <= i < |s| ==> s[i] != '\\' && s[i] != '"'
    ensures Escaped(s) == s
  {
    if s != "" {
      assert forall i :: 0 <= i < |s[1..]| ==> s[1..][i] == s[i + 1];
      EscapedPlain(s[1..]);
      assert s == [s[0]] + s[1..];
    }
  }

  /** A title printed in quotes on two lines. */
  lemma TwoLineTitle(metadata: Metadata, title: string, first: string, last: string)
    requires metadata == map["Title" := One(Text(title))] && NeedsQuote(title)
    requires forall i :: 0 <= i < |title| ==> title[i] != '\\' && title[i] != '"'
    requires "Title: \"" + title + "\"" == first + "\n" + last
    ensures DumpNote(metadata, "", ["Title"]) == Ok("---\n" + (first + "\n" + last + CLOSING + ""))
  {
    hide NeedsQuote, Escape;
    var v, f := metadata["Title"], first + "\n" + last;
    NothingToEscape(title);
    assert RenderScalar(v.scalar) == "\"" + title + "\"";
    assert forall k :: k in LIST_KEYS ==> k[0] != 'T';
    assert ScalarLine("Title", RenderScalar(v.scalar)) == "Title: " + ("\"" + title + "\"");
    ConcatAssociates("Title: ", "\"" + title, "\"");
    ConcatAssociates("Title: ", "\"", title);
    assert "Title: " + "\"" == "Title: \"";
    assert PairLines("Title", v) == Ok([f]);
    assert RenderPair("Title", v) == Ok(f);
    hide *;
    TitleKey(metadata);
    OnePair(metadata, "Title", f);
    OnePairNote(metadata, f);
  }

  lemma TitleKey(metadata: Metadata)
    requires metadata.Keys == {"Title"}
    ensures KeyOrder(metadata.Keys, ["Title"]) == ["Title"]
  {
    assert metadata.Keys - (set k | k in ["Title"]) == {};
    assert ["Title"][1..] == [];
    assert Named(["Title"], metadata.Keys) == ["Title"] + Named([], metadata.Keys);
  }

  lemma OnePair(metadata: Metadata, key: string, text: string)
    requires key in metadata && RenderPair(key, metadata[key]) == Ok(text)
    ensures RenderPairs(metadata, [key]) == Ok([text])
  {
    hide RenderPair;
    var keys := [key];
    assert keys[1..] == [] && RenderPairs(metadata, keys[1..]) == Ok([]);
    assert [text] + [] == [text];
  }

  lemma OnePairNote(metadata: Metadata, text: string)
    requires "Title" in metadata && KeyOrder(metadata.Keys, ["Title"]) == ["Title"]
    requires RenderPairs(metadata, ["Title"]) == Ok([text])
    ensures DumpNote(metadata, "", ["Title"]) == Ok("---\n" + (text + CLOSING + ""))
  {
    hide RenderPairs, KeyOrder;
    assert Join("\n", [text]) == text;
    assert RenderFrontmatter(metadata, ["Title"]) == Ok(text);
    assert DumpNote(metadata, "", ["Title"]) == Ok("---\n" + text + "\n---\n" + Terminated(""));
    ConcatAssociates("---\n", text, CLOSING);
    ConcatAssociates("---\n", text + CLOSING, "");
  }

  /** A note of two frontmatter lines is read line after line. */
  lemma TwoLinesRead(first: string, last: string)
    requires Sound(first) && Sound(last)
    ensures var start := Reading(map[], None);
            var r := ReadNote("---\n" + (first + "\n" + last + CLOSING + ""));
            ReadLine(first, start).Ok? ==>
              var read := ReadLine(last, ReadLine(first, start).value);
              r == if read.Err? then Err(read.error) else Ok(Note(read.value.metadata, ""))
  {
    hide ReadLine, SplitLF, ReadNote;
    var start, f := Reading(map[], None), first + "\n" + last;
    UndashedJoins(first, last);
    TextReads("---\n" + (f + CLOSING + ""), f, "");
    SplitLFOne(last);
    SplitLFLine(first, last);
    var lines := [first] + [last];
    assert lines[0] == first && lines[1..] == [last];
    if ReadLine(first, start).Ok? {
      var next := ReadLine(first, start).value;
      assert [last][1..] == [];
      assert ReadLines([last], next) == ReadLine(last, next);
      assert ReadLines(lines, start) == ReadLines([last], next);
    }
  }

  lemma TextLineReads(key: string, text: string, r: Reading)
    requires IsKey(key) && |text| >= 2 && Tight(text) && text != "[]"
    requires (text[0] == '"') != (text[|text| - 1] == '"')
    ensures ReadLine(key + (": " + text), r) == Ok(Reading(r.metadata[key := One(Text(text))], Some(key)))
  {
    StripTight(text);
    DigitLikeChar('"');
    hide Strip, IsDigitLike, IsKey;
    assert !AllDigitLike(text);
    assert ParseScalar(text) == Ok(Text(text));
    assert ":" + (" " + text) == ": " + text && (" " + text)[1..] == text;
    assert ParseValue(text) == Ok(One(Text(text)));
    KeyLineSets(key, " " + text, text, r);
    assert ReadLine(key + (":" + (" " + text)), r) == Ok(Reading(r.metadata[key := One(Text(text))], Some(key)));
  }

  lemma OpenQuoteReads(r: Reading)
    ensures ReadLine("Title: \"", r).Ok?
  {
    StripTight("\"");
    DigitLikeChar('"');
    hide Strip, IsDigitLike;
    assert ParseScalar("\"") == Ok(Text("\"")) by { assert !IsDigitLike("\""[0]); }
    assert "Title" + (":" + " \"") == "Title: \"" && " \""[1..] == "\"";
    KeyLineSets("Title", " \"", "\"", r);
  }

  lemma LoneQuoteFails(r: Reading)
    ensures ReadLine("\"", r) == Err(Unparsable("\""))
  {
    assert Strip("\"") != "" && ListItem("\"") == None && KeyValue("\"") == None;
  }

  /**
    A text with a line feed never comes back (`RoundTripsExactly`). The printer lets the
    feed through, inside quotes; the parser may then meet a line it refuses,
   */
  lemma LineFeedBreaksNote(metadata: Metadata)
    requires metadata == map["Title" := One(Text("\n"))]
    ensures DumpNote(metadata, "", ["Title"]).Ok?
    ensures ReadNote(DumpNote(metadata, "", ["Title"]).value) == Err(Unparsable("\""))
  {
    assert Strip("\n") == "" && NeedsQuote("\n");
    assert Sound("Title: \"") && Sound("\"");
    hide *;
    TwoLineTitle(metadata, "\n", "Title: \"", "\"");
    TwoLinesRead("Title: \"", "\"");
    OpenQuoteReads(Reading(map[], None));
    LoneQuoteFails(ReadLine("Title: \"", Reading(map[], None)).value);
  }

  lemma ColonNeedsQuote(t: string, k: nat)
    requires k + 2 <= |t| && t[k] == ':' && t[k + 1] == ' '
    ensures NeedsQuote(t)
  {
    assert t[k..k + 2] == ": ";
    assert OccursAt(t, ": ", k);
  }

  lemma TwoLineFacts()
    ensures IsKey("Title") && IsKey("ID") && Tight("\"x") && Tight("5\"")
    ensures Sound("Title: \"x") && Sound("ID: 5\"")
  {
  }

  /** or a line that sets a key the note never had. */
  lemma LineFeedAddsKey(metadata: Metadata)
    requires metadata == map["Title" := One(Text("x\nID: 5"))]
    ensures DumpNote(metadata, "", ["Title"]).Ok?
    ensures ReadNote(DumpNote(metadata, "", ["Title"]).value)
            == Ok(Note(map["Title" := One(Text("\"x")), "ID" := One(Text("5\""))], ""))
  {
    hide *;
    var title, first, last := "x\nID: 5", "Title: \"x", "ID: 5\"";
    ColonNeedsQuote(title, 4);
    TwoLineFacts();
    TwoLineTitle(metadata, title, first, last);
    TwoLinesRead(first, last);
    var start := Reading(map[], None);
    assert "Title" + (": " + "\"x") == first && "ID" + (": " + "5\"") == last;
    TextLineReads("Title", "\"x", start);
    TextLineReads("ID", "5\"", ReadLine(first, start).value);
    assert start.metadata["Title" := One(Text("\"x"))]["ID" := One(Text("5\""))]
           == map["Title" := One(Text("\"x")), "ID" := One(Text("5\""))];
  }
}
