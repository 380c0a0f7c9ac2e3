/**
  The JSON that cursors carry: `json.dumps` of strings (section 7 of RFC 8259) and the
  whole grammar `json.loads` reads.
 */
module Json {
  import opened Wrappers
  import opened Utf8

  const QUOTE: CodePoint := '"' as int
  const COLON: Text := [':' as int]
  const BACKSLASH: CodePoint := '\\' as int

  function Ascii(s: string): Text {
    seq(|s|, i requires 0 <= i < |s| => s[i] as int)
  }

  // ------------------------------------------------------------------- dumps

  function HexDigit(v: nat): CodePoint
    requires v < 16
  {
    if v < 10 then v + '0' as int else v - 10 + 'a' as int
  }

  /** One character of a string, with `ensure_ascii=False`. */
  function EscapeChar(c: CodePoint): Text {
    if c == QUOTE || c == BACKSLASH then [BACKSLASH, c]
    else if c == 0x0A then [BACKSLASH, 'n' as int]
    else if c == 0x0D then [BACKSLASH, 'r' as int]
    else if c == 0x09 then [BACKSLASH, 't' as int]
    else if c == 0x0C then [BACKSLASH, 'f' as int]
    else if c == 0x08 then [BACKSLASH, 'b' as int]
    else if c < 0x20 then [BACKSLASH, 'u' as int, '0' as int, '0' as int, HexDigit(c / 16), HexDigit(c % 16)]
    else [c]
  }

  function Escaped(t: Text): Text {
    if t == [] then [] else EscapeChar(t[0]) + Escaped(t[1..])
  }

  function Quoted(t: Text): Text {
    [QUOTE] + Escaped(t) + [QUOTE]
  }

  // ------------------------------------------------------------------- loads

  datatype Parsed<T> = Failed | Parsed(value: T, rest: Text)

  datatype Value =
    | Str(text: Text)
    | Obj(members: seq<Member>)
    | Arr(items: seq<Value>)
    | Num
    | Word(name: string)

  datatype Member = Member(key: Text, value: Value)

  function HexValue(c: CodePoint): Option<nat> {
    if '0' as int <= c <= '9' as int then Some(c - '0' as int)
    else if 'a' as int <= c <= 'f' as int then Some(c - 'a' as int + 10)
    else if 'A' as int <= c <= 'F' as int then Some(c - 'A' as int + 10)
    else None
  }

  /** The four hex digits of an escape. */
  function Hex4(s: Text): Option<nat> {
    if |s| < 4 then None
    else
      var a, b, c, d := HexValue(s[0]), HexValue(s[1]), HexValue(s[2]), HexValue(s[3]);
      if a.None? || b.None? || c.None? || d.None? then None
      else Some(a.value * 4096 + b.value * 256 + c.value * 16 + d.value)
  }

  /** The character an escape stands for; `s` begins at the backslash. Surrogate escapes pair up. */
  function ParseEscape(s: Text): (p: Parsed<CodePoint>)
    requires s != []
    ensures p.Parsed? ==> |p.rest| < |s|
  {
    if |s| < 2 then Failed
    else if s[1] == QUOTE || s[1] == BACKSLASH || s[1] == '/' as int then Parsed(s[1], s[2..])
    else if s[1] == 'n' as int then Parsed(0x0A, s[2..])
    else if s[1] == 'r' as int then Parsed(0x0D, s[2..])
    else if s[1] == 't' as int then Parsed(0x09, s[2..])
    else if s[1] == 'f' as int then Parsed(0x0C, s[2..])
    else if s[1] == 'b' as int then Parsed(0x08, s[2..])
    else if s[1] != 'u' as int || Hex4(s[2..]).None? then Failed
    else
      var high := Hex4(s[2..]).value;
      var more := s[6..];
      if 0xD800 <= high < 0xDC00 && |more| >= 2 && more[0] == BACKSLASH && more[1] == 'u' as int
         && Hex4(more[2..]).Some? && 0xDC00 <= Hex4(more[2..]).value < 0xE000 then
        Parsed(0x1_0000 + (high - 0xD800) * 0x400 + (Hex4(more[2..]).value - 0xDC00), more[6..])
      else if high < 0x11_0000 then Parsed(high, more)
      else Failed
  }

  /** A string after its opening quote; control characters are refused. */
  function ParseString(s: Text): (p: Parsed<Text>)
    ensures p.Parsed? ==> |p.rest| < |s|
    decreases |s|
  {
    if s == [] then Failed
    else if s[0] == QUOTE then Parsed([], s[1..])
    else if s[0] < 0x20 then Failed
    else
      var first := if s[0] == BACKSLASH then ParseEscape(s) else Parsed(s[0], s[1..]);
      if first.Failed? then Failed
      else
        var more := ParseString(first.rest);
        if more.Failed? then Failed else Parsed([first.value] + more.value, more.rest)
  }

  predicate IsWhitespace(c: CodePoint) {
    c == 0x20 || c == 0x09 || c == 0x0A || c == 0x0D
  }

  function SkipSpace(s: Text): (r: Text)
    ensures |r| <= |s|
  {
    if s != [] && IsWhitespace(s[0]) then SkipSpace(s[1..]) else s
  }

  predicate IsDigit(c: CodePoint) {
    '0' as int <= c <= '9' as int
  }

  function SkipDigits(s: Text): (r: Text)
    ensures |r| <= |s|
    ensures s != [] && IsDigit(s[0]) ==> |r| < |s|
  {
    if s != [] && IsDigit(s[0]) then SkipDigits(s[1..]) else s
  }

  /** `.digits`, if there. */
  function SkipFraction(s: Text): (r: Text)
    ensures |r| <= |s|
  {
    if |s| >= 2 && s[0] == '.' as int && IsDigit(s[1]) then SkipDigits(s[1..]) else s
  }

  /** An exponent, if there. */
  function SkipExponent(s: Text): (r: Text)
    ensures |r| <= |s|
  {
    if |s| >= 2 && (s[0] == 'e' as int || s[0] == 'E' as int) then
      var digits := if s[1] == '+' as int || s[1] == '-' as int then s[2..] else s[1..];
      if digits != [] && IsDigit(digits[0]) then SkipDigits(digits) else s
    else s
  }

  function ParseNumber(s: Text): (p: Parsed<Value>)
    ensures p.Parsed? ==> |p.rest| < |s|
  {
    var digits := if s != [] && s[0] == '-' as int then s[1..] else s;
    if digits == [] || !IsDigit(digits[0]) then Failed
    else
      var whole := if digits[0] == '0' as int then digits[1..] else SkipDigits(digits);
      Parsed(Num, SkipExponent(SkipFraction(whole)))
  }

  const WORDS: seq<string> := ["true", "false", "null", "NaN", "Infinity", "-Infinity"]

  function ParseWord(s: Text, n: nat): (p: Parsed<Value>)
    requires n <= |WORDS|
    ensures p.Parsed? ==> |p.rest| < |s|
    decreases |WORDS| - n
  {
    if n == |WORDS| then Failed
    else if |s| >= |WORDS[n]| && s[..|WORDS[n]|] == Ascii(WORDS[n]) then Parsed(Word(WORDS[n]), s[|WORDS[n]|..])
    else ParseWord(s, n + 1)
  }

  function ParseValue(s: Text): (p: Parsed<Value>)
    ensures p.Parsed? ==> |p.rest| < |s|
    decreases |s|, 0
  {
    if s == [] then Failed
    else if s[0] == QUOTE then
      var text := ParseString(s[1..]);
      if text.Failed? then Failed else Parsed(Str(text.value), text.rest)
    else if s[0] == '{' as int then
      var inside := SkipSpace(s[1..]);
      if inside != [] && inside[0] == '}' as int then Parsed(Obj([]), inside[1..])
      else
        var members := ParseMembers(inside);
        if members.Failed? then Failed else Parsed(Obj(members.value), members.rest)
    else if s[0] == '[' as int then
      var inside := SkipSpace(s[1..]);
      if inside != [] && inside[0] == ']' as int then Parsed(Arr([]), inside[1..])
      else
        var items := ParseItems(inside);
        if items.Failed? then Failed else Parsed(Arr(items.value), items.rest)
    else if ParseWord(s, 0).Parsed? then ParseWord(s, 0)
    else ParseNumber(s)
  }

  /** One or more members and the closing brace. */
  function ParseMembers(s: Text): (p: Parsed<seq<Member>>)
    ensures p.Parsed? ==> |p.rest| < |s|
    decreases |s|, 1
  {
    if s == [] || s[0] != QUOTE then Failed
    else
      var key := ParseString(s[1..]);
      if key.Failed? then Failed
      else
        var colon := SkipSpace(key.rest);
        if colon == [] || colon[0] != ':' as int then Failed
        else
          var value := ParseValue(SkipSpace(colon[1..]));
          if value.Failed? then Failed
          else
            var next := SkipSpace(value.rest);
            if next == [] then Failed
            else if next[0] == '}' as int then Parsed([Member(key.value, value.value)], next[1..])
            else if next[0] != ',' as int then Failed
            else
              var more := ParseMembers(SkipSpace(next[1..]));
              if more.Failed? then Failed else Parsed([Member(key.value, value.value)] + more.value, more.rest)
  }

  /** One or more elements and the closing bracket. */
  function ParseItems(s: Text): (p: Parsed<seq<Value>>)
    ensures p.Parsed? ==> |p.rest| < |s|
    decreases |s|, 1
  {
    var value := ParseValue(s);
    if value.Failed? then Failed
    else
      var next := SkipSpace(value.rest);
      if next == [] then Failed
      else if next[0] == ']' as int then Parsed([value.value], next[1..])
      else if next[0] != ',' as int then Failed
      else
        var more := ParseItems(SkipSpace(next[1..]));
        if more.Failed? then Failed else Parsed([value.value] + more.value, more.rest)
  }

  /** `json.loads` of a text. */
  function Loads(s: Text): Option<Value> {
    var value := ParseValue(SkipSpace(s));
    if value.Failed? || SkipSpace(value.rest) != [] then None else Some(value.value)
  }

  /** `dict.get`: of repeated keys the last counts. */
  function Get(members: seq<Member>, key: Text): Option<Value> {
    if members == [] then None
    else if members[|members| - 1].key == key then Some(members[|members| - 1].value)
    else Get(members[..|members| - 1], key)
  }

  // -------------------------------------------------------------- read back

  lemma HexReadsBack(v: nat)
    requires v < 16
    ensures HexValue(HexDigit(v)) == Some(v)
  {
  }

  lemma ControlReadsBack(c: CodePoint, more: Text)
    requires c < 0x20
    ensures var e := [BACKSLASH, 'u' as int, '0' as int, '0' as int, HexDigit(c / 16), HexDigit(c % 16)] + more;
            ParseEscape(e) == Parsed(c, more)
  {
    HexReadsBack(c / 16);
    HexReadsBack(c % 16);
    var e := [BACKSLASH, 'u' as int, '0' as int, '0' as int, HexDigit(c / 16), HexDigit(c % 16)] + more;
    assert e[2..][0] == '0' as int && e[2..][1] == '0' as int;
    assert e[2..][2] == HexDigit(c / 16) && e[2..][3] == HexDigit(c % 16);
    assert Hex4(e[2..]) == Some(c);
    assert e[6..] == more;
    hide HexDigit, HexValue, Hex4;
  }

  lemma CharReadsBack(c: CodePoint, more: Text)
    ensures var s := EscapeChar(c) + more;
            && s != [] && s[0] != QUOTE && s[0] >= 0x20
            && (if s[0] == BACKSLASH then ParseEscape(s) else Parsed(s[0], s[1..])) == Parsed(c, more)
  {
    var s := EscapeChar(c) + more;
    if |EscapeChar(c)| == 6 {
      ControlReadsBack(c, more);
    } else if |EscapeChar(c)| == 2 {
      assert s[2..] == more;
    } else {
      assert s[1..] == more;
    }
    hide HexDigit, Hex4;
  }

  /** Parsing an escaped string gives the string back and stops at its closing quote. */
  lemma {:induction false} StringReadsBack(t: Text, more: Text)
    ensures ParseString(Escaped(t) + [QUOTE] + more) == Parsed(t, more)
  {
    var s := Escaped(t) + [QUOTE] + more;
    if t == [] {
      assert s[0] == QUOTE && s[1..] == more;
    } else {
      var after := Escaped(t[1..]) + [QUOTE] + more;
      assert s == EscapeChar(t[0]) + after by { hide EscapeChar, ParseString; }
      hide EscapeChar, ParseEscape, Escaped;
      CharReadsBack(t[0], after);
      StringReadsBack(t[1..], more);
      assert t == [t[0]] + t[1..];
    }
  }

  lemma QuotedOpens(t: Text, more: Text)
    ensures Quoted(t) + more != [] && (Quoted(t) + more)[0] == QUOTE
    ensures (Quoted(t) + more)[1..] == Escaped(t) + [QUOTE] + more
  {
    hide Escaped;
  }

  /** A quoted string is a value. */
  lemma ValueReadsBack(t: Text, more: Text)
    ensures ParseValue(Quoted(t) + more) == Parsed(Str(t), more)
  {
    StringReadsBack(t, more);
    QuotedOpens(t, more);
    hide Escaped, ParseString, Quoted;
  }

  /** One member of an object: a quoted key, a colon, and a value that reads back. */
  lemma MemberReads(key: Text, value: Value, text: Text, next: Text)
    requires ParseValue(text) == Parsed(value, next) && SkipSpace(text) == text
    requires next != [] && SkipSpace(next) == next
    ensures ParseMembers(Quoted(key) + (COLON + text))
            == if next[0] == '}' as int then Parsed([Member(key, value)], next[1..])
               else if next[0] != ',' as int then Failed
               else if ParseMembers(SkipSpace(next[1..])).Failed? then Failed
               else Parsed([Member(key, value)] + ParseMembers(SkipSpace(next[1..])).value,
                           ParseMembers(SkipSpace(next[1..])).rest)
  {
    var colon := COLON + text;
    StringReadsBack(key, colon);
    QuotedOpens(key, colon);
    assert colon[1..] == text;
    assert SkipSpace(colon) == colon;
    hide Escaped, ParseString, Quoted, ParseValue, SkipSpace;
  }
}
