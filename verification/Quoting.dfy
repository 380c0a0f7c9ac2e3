/**
  Which texts the printer quotes: exactly those that hold a mark of YAML's, read as a word
  of YAML's in any casing, or spell a number.
 */
module Quoting {
  import opened Lines
  import opened Decimal
  import opened PyText
  import opened Frontmatter

  // ---------------------------------------------------------------- the words

  /** The same letters, each in either case. */
  predicate Casing(t: string, word: string) {
    && |t| == |word|
    && forall i :: 0 <= i < |t| ==> t[i] == word[i] || ('a' <= word[i] <= 'z' && t[i] == word[i] - 'a' + 'A')
  }

  /** The words of more than one letter that YAML reads as a null or a boolean, and Python's name for the first. */
  predicate IsWord(word: string) {
    || word == "null" || word == "~" || word == "none"
    || word == "true" || word == "yes" || word == "on"
    || word == "false" || word == "no" || word == "off"
  }

  ghost predicate SpellsWord(t: string) {
    exists word :: IsWord(word) && Casing(t, word)
  }

  lemma {:induction false} LowerAt(s: string, i: nat)
    requires i < |s|
    ensures |Lower(s)| == |s| && Lower(s)[i] == LowerChar(s[i])
  {
    if |s| > 1 { LowerAt(s[1..], if i == 0 then 0 else i - 1); }
  }

  /** No letter in upper case. */
  predicate Small(word: string) {
    forall i :: 0 <= i < |word| ==> !('A' <= word[i] <= 'Z')
  }

  lemma LowerIsCasing(t: string, word: string)
    requires Small(word)
    ensures Lower(t) == word <==> Casing(t, word)
  {
    hide Lower;
    if t == "" {
      LowerOfEmpty();
    } else {
      LowerAt(t, 0);
      if |t| == |word| {
        forall i | 0 <= i < |t|
          ensures Lower(t)[i] == word[i]
                  <==> t[i] == word[i] || ('a' <= word[i] <= 'z' && t[i] == word[i] - 'a' + 'A')
        {
          LowerAt(t, i);
        }
        if Casing(t, word) { assert forall i :: 0 <= i < |t| ==> Lower(t)[i] == word[i]; }
      }
    }
  }

  lemma LowerOfEmpty()
    ensures Lower("") == ""
  {
  }

  lemma WordsAreSmall(word: string)
    ensures IsWord(word) ==> Small(word) && word != ""
  {
  }

  lemma ReservedExactly(t: string)
    requires t != ""
    ensures Lower(t) in RESERVED <==> SpellsWord(t)
  {
    hide Lower, Casing;
    if SpellsWord(t) {
      var word :| IsWord(word) && Casing(t, word);
      WordsAreSmall(word);
      LowerIsCasing(t, word);
    }
    if Lower(t) in RESERVED {
      LowerAt(t, 0);
      assert IsWord(Lower(t));
      WordsAreSmall(Lower(t));
      LowerIsCasing(t, Lower(t));
    }
  }

  // -------------------------------------------------------------- the numbers

  predicate IsSign(sign: string) {
    sign == "" || sign == "+" || sign == "-"
  }

  /** Digits and underscores from a digit on, with a point and digits after it or not; or a point and digits. */
  ghost predicate MantissaText(m: string) {
    exists whole, point, fraction :: MantissaParts(m, whole, point, fraction)
  }

  /** Digits and underscores. */
  predicate Digital(s: string) {
    forall i :: 0 <= i < |s| ==> IsDecimal(s[i]) || s[i] == '_'
  }

  predicate MantissaParts(m: string, whole: string, point: string, fraction: string) {
    && m == whole + point + fraction && AllDecimals(fraction)
    && if whole == "" then point == "." && fraction != ""
       else IsDecimal(whole[0]) && Digital(whole) && (point == "" || point == ".")
  }

  ghost predicate ExponentText(e: string) {
    exists sign, digits :: ExponentParts(e, sign, digits)
  }

  predicate ExponentParts(e: string, sign: string, digits: string) {
    (e == "e" + sign + digits || e == "E" + sign + digits) && IsSign(sign) && digits != "" && AllDecimals(digits)
  }

  /** A sign or none, a mantissa, an exponent or none. */
  ghost predicate SpellsNumber(t: string) {
    exists sign, m, e :: NumberParts(t, sign, m, e)
  }

  ghost predicate NumberParts(t: string, sign: string, m: string, e: string) {
    t == sign + m + e && IsSign(sign) && MantissaText(m) && (e == "" || ExponentText(e))
  }

  lemma NoMark(c: char)
    ensures c == '+' || c == '-' || c == '.' || c == '_' || c == 'e' || c == 'E' ==> !IsDecimal(c)
  {
    DecimalsInAscii(c);
  }

  lemma MantissaExactly(m: string)
    ensures IsMantissa(m) <==> MantissaText(m)
  {
    hide IsDecimal;
    NoMark('.');
    if IsMantissa(m) {
      if m[0] == '.' {
        assert MantissaParts(m, "", ".", m[1..]);
      } else {
        var k :| 0 <= k <= |m| && DigitsOrUnderscores(m[..k]) && IsFraction(m[k..]);
        MantissaSplits(m, k);
      }
    }
    if MantissaText(m) {
      var whole, point, fraction :| MantissaParts(m, whole, point, fraction);
      MantissaJoins(whole, point, fraction);
    }
  }

  lemma MantissaSplits(m: string, k: nat)
    requires m != "" && IsDecimal(m[0]) && k <= |m| && DigitsOrUnderscores(m[..k]) && IsFraction(m[k..])
    ensures MantissaText(m)
  {
    hide IsDecimal;
    NoMark('.');
    if k == 0 {
      assert m[0..] == m && AllDecimals(m);
      assert MantissaParts(m, m[..1], "", m[1..]);
    } else if AllDecimals(m[k..]) {
      assert MantissaParts(m, m[..k], "", m[k..]);
    } else {
      assert m == m[..k] + "." + m[k..][1..];
      assert MantissaParts(m, m[..k], ".", m[k..][1..]);
    }
  }

  lemma MantissaJoins(whole: string, point: string, fraction: string)
    requires MantissaParts(whole + point + fraction, whole, point, fraction)
    ensures IsMantissa(whole + point + fraction)
  {
    hide IsDecimal;
    var m := whole + point + fraction;
    if whole == "" {
      assert m[1..] == fraction;
    } else {
      assert m[..|whole|] == whole && m[|whole|..] == point + fraction;
      assert point == "." ==> (point + fraction)[1..] == fraction;
      assert point == "" ==> point + fraction == fraction;
    }
  }

  /** A text that does not begin with a sign keeps everything. */
  lemma UnsignedIs(sign: string, rest: string)
    requires IsSign(sign) && rest != "" && rest[0] != '+' && rest[0] != '-'
    ensures Unsigned(sign + rest) == rest
  {
  }

  lemma SignSplits(s: string) returns (sign: string)
    ensures IsSign(sign) && s == sign + Unsigned(s)
  {
    sign := if s != "" && (s[0] == '+' || s[0] == '-') then s[..1] else "";
    assert s == sign + Unsigned(s);
  }

  lemma ExponentSplits(e: string)
    requires IsExponent(e)
    ensures ExponentText(e)
  {
    hide IsDecimal, Unsigned;
    var sign := SignSplits(e[1..]);
    assert e == [e[0]] + e[1..];
    assert ExponentParts(e, sign, Unsigned(e[1..]));
  }

  lemma ExponentJoins(e: string, sign: string, digits: string)
    requires ExponentParts(e, sign, digits)
    ensures IsExponent(e)
  {
    hide IsDecimal, Unsigned;
    NoMark('+');
    NoMark('-');
    assert IsDecimal(digits[0]);
    UnsignedIs(sign, digits);
    assert e[1..] == sign + digits;
  }

  lemma ExponentExactly(e: string)
    ensures IsExponent(e) <==> ExponentText(e)
  {
    hide IsExponent, ExponentParts;
    if IsExponent(e) { ExponentSplits(e); }
    if sign, digits :| ExponentParts(e, sign, digits) { ExponentJoins(e, sign, digits); }
  }

  lemma MantissaStarts(m: string)
    requires IsMantissa(m)
    ensures m != "" && m[0] != '+' && m[0] != '-'
  {
    hide IsDecimal;
    NoMark('+');
    NoMark('-');
  }

  lemma NumericExactly(t: string)
    ensures IsNumeric(t) <==> SpellsNumber(t)
  {
    hide IsMantissa, IsExponent, MantissaText, ExponentText, Unsigned;
    if IsNumeric(t) {
      var sign := SignSplits(t);
      var u := Unsigned(t);
      if IsMantissa(u) {
        MantissaExactly(u);
        assert NumberParts(t, sign, u, "");
      } else {
        var k :| 0 <= k <= |u| && IsMantissa(u[..k]) && IsExponent(u[k..]);
        MantissaExactly(u[..k]);
        ExponentExactly(u[k..]);
        assert t == sign + u[..k] + u[k..];
        assert NumberParts(t, sign, u[..k], u[k..]);
      }
    }
    if SpellsNumber(t) {
      var sign, m, e :| NumberParts(t, sign, m, e);
      MantissaExactly(m);
      MantissaStarts(m);
      if e == "" {
        assert t == sign + m;
        UnsignedIs(sign, m);
      } else {
        ExponentExactly(e);
        assert t == sign + (m + e);
        UnsignedIs(sign, m + e);
        assert (m + e)[..|m|] == m && (m + e)[|m|..] == e;
      }
    }
  }

  // --------------------------------------------------------------- the marks

  predicate NextTo(t: string, i: nat, c: char, d: char) {
    i + 1 < |t| && t[i] == c && t[i + 1] == d
  }

  /** What YAML could take for something else than the text: an edge, a mark, or a sign at the start. */
  predicate Marked(t: string) {
    || (exists i :: 0 <= i < |t| && t[i] == '"')
    || (exists i :: 0 <= i < |t| && (NextTo(t, i, ':', ' ') || NextTo(t, i, ' ', '#')))
    || (t != "" && (t[|t| - 1] == ':' || IsSpace(t[0]) || IsSpace(t[|t| - 1])))
    || (t != "" && t[0] in {'!', '&', '*', '?', '|', '>', '%', '@', '`', '"', '\'', '#', ',', '[', ']', '{', '}'})
    || (|t| >= 2 && t[..2] == "- ")
  }

  lemma SubstringExactly(t: string, c: char, d: char)
    ensures HasSubstring(t, [c, d]) <==> exists i :: 0 <= i < |t| && NextTo(t, i, c, d)
  {
    if HasSubstring(t, [c, d]) {
      var k: nat :| k <= |t| && OccursAt(t, [c, d], k);
      OccursChar(t, [c, d], k, 0);
      OccursChar(t, [c, d], k, 1);
      assert NextTo(t, k, c, d);
    }
    if i :| 0 <= i < |t| && NextTo(t, i, c, d) {
      assert t[i..i + 2] == [c, d];
      assert OccursAt(t, [c, d], i);
    }
  }

  lemma LeadingExactly(c: char)
    ensures c in LEADING
            <==> c in {'!', '&', '*', '?', '|', '>', '%', '@', '`', '"', '\'', '#', ',', '[', ']', '{', '}'}
  {
    var leading := LEADING;
    assert leading[0] == '!' && leading[1] == '&' && leading[2] == '*' && leading[3] == '?' && leading[4] == '|';
    assert leading[5] == '>' && leading[6] == '%' && leading[7] == '@' && leading[8] == '`' && leading[9] == '"';
    assert leading[10] == '\'' && leading[11] == '#' && leading[12] == ',' && leading[13] == '[' && leading[14] == ']';
    assert leading[15] == '{' && leading[16] == '}' && |leading| == 17;
  }

  /** The tests at the two ends. */
  lemma EndsExactly(t: string)
    requires t != ""
    ensures EndsWith(t, ":") <==> t[|t| - 1] == ':'
    ensures StartsWith(t, "- ") <==> |t| >= 2 && t[..2] == "- "
    ensures StartsWith(t, "? ") ==> t[0] == '?'
    ensures StartsWith(t, ": ") ==> HasSubstring(t, ": ")
  {
    assert t[|t| - 1..] == [t[|t| - 1]];
    StartsWithChar(t, "? ", 0);
    if StartsWith(t, ": ") { assert OccursAt(t, ": ", 0); }
  }

  /** The printer quotes a text exactly when it is marked, spells a word in some casing, or spells a number. */
  lemma QuotedExactly(t: string)
    ensures NeedsQuote(t) <==> t != "" && (Marked(t) || SpellsWord(t) || SpellsNumber(t))
  {
    hide Lower, IsNumeric, SpellsNumber, SpellsWord, IsSpace, Strip;
    if t != "" {
      ReservedExactly(t);
      NumericExactly(t);
      StripTight(t);
      MarksExactly(t);
    }
  }

  lemma MarksExactly(t: string)
    requires t != ""
    ensures Marked(t)
            <==> || !Tight(t) || t[0] in LEADING
                 || StartsWith(t, "- ") || StartsWith(t, "? ") || StartsWith(t, ": ")
                 || HasSubstring(t, ": ") || EndsWith(t, ":") || HasSubstring(t, " #") || Contains(t, '"')
  {
    hide IsSpace;
    SubstringExactly(t, ':', ' ');
    SubstringExactly(t, ' ', '#');
    assert [':', ' '] == ": " && [' ', '#'] == " #";
    EndsExactly(t);
    LeadingExactly(t[0]);
    hide HasSubstring, StartsWith, EndsWith, LEADING;
  }

  // ------------------------------------------------------------ what is printed

  lemma {:induction false} NothingToEscape(t: string, c: char, with: string)
    requires !Contains(t, c)
    ensures ReplaceAll(t, [c], with) == t
  {
    if t != "" {
      assert t[0] != c;
      assert !Contains(t[1..], c) by {
        forall i | 0 <= i < |t[1..]| ensures t[1..][i] != c { assert t[1..][i] == t[i + 1]; }
      }
      NothingToEscape(t[1..], c, with);
      StartsWithHead(t, [c]);
      assert t == [t[0]] + t[1..];
    }
  }

  lemma WordsArePlain(t: string)
    requires SpellsWord(t)
    ensures t != "" && !Contains(t, '"') && !Contains(t, '\\')
  {
    hide IsWord;
    var word :| IsWord(word) && Casing(t, word);
    WordLetters(word);
  }

  lemma WordLetters(word: string)
    requires IsWord(word)
    ensures word != "" && forall i :: 0 <= i < |word| ==> word[i] == '~' || 'a' <= word[i] <= 'z'
  {
  }

  /** A word of YAML's, in whatever casing, is printed between quotes as it is. */
  lemma WordsAreQuoted(t: string)
    requires SpellsWord(t)
    ensures RenderScalar(Text(t)) == "\"" + t + "\""
  {
    hide SpellsWord, NeedsQuote, ReplaceAll;
    QuotedExactly(t);
    WordsArePlain(t);
    NothingToEscape(t, '\\', "\\\\");
    NothingToEscape(t, '"', "\\\"");
    assert ['\\'] == "\\" && ['"'] == "\"";
  }

  /** A text is printed as it is exactly when nothing about it is YAML's; otherwise it is printed between quotes. */
  lemma PrintedBareExactly(t: string)
    ensures RenderScalar(Text(t)) == t <==> t == "" || !(Marked(t) || SpellsWord(t) || SpellsNumber(t))
    ensures RenderScalar(Text(t)) != t ==>
              var r := RenderScalar(Text(t)); |r| >= 2 && r[0] == '"' && r[|r| - 1] == '"'
  {
    hide Marked, SpellsWord, SpellsNumber, NeedsQuote, Escape;
    QuotedExactly(t);
    EscapeGrows(t);
  }

  lemma EscapeGrows(t: string)
    ensures |Escape(t)| >= |t|
  {
    ReplaceGrows(t, "\\", "\\\\");
    ReplaceGrows(ReplaceAll(t, "\\", "\\\\"), "\"", "\\\"");
  }

  lemma {:induction false} ReplaceGrows(t: string, pattern: string, with: string)
    requires pattern != "" && |pattern| <= |with|
    ensures |ReplaceAll(t, pattern, with)| >= |t|
    decreases |t|
  {
    if t != "" {
      ReplaceGrows(if StartsWith(t, pattern) then t[|pattern|..] else t[1..], pattern, with);
    }
  }

  /** What YAML 1.1 resolves to a boolean or a null: its words in lower case, capitalised or in upper case. */
  ghost predicate ReadAsBooleanOrNull(t: string) {
    || t in {"y", "Y", "n", "N", "~"}
    || t in {"yes", "Yes", "YES", "no", "No", "NO", "true", "True", "TRUE", "false", "False", "FALSE"}
    || t in {"on", "On", "ON", "off", "Off", "OFF", "null", "Null", "NULL"}
  }

  /** Of the texts YAML 1.1 reads as a boolean or a null, only the one-letter booleans are printed bare. */
  lemma BareBooleans(t: string)
    requires ReadAsBooleanOrNull(t)
    ensures RenderScalar(Text(t)) == t <==> t in {"y", "Y", "n", "N"}
    ensures t !in {"y", "Y", "n", "N"} ==> RenderScalar(Text(t)) == "\"" + t + "\""
  {
    hide RenderScalar, NeedsQuote;
    if t in {"y", "Y", "n", "N"} {
      LettersAreBare(t);
    } else {
      CasingsListed(t);
      WordsAreQuoted(t);
    }
  }

  lemma CasingsListed(t: string)
    requires ReadAsBooleanOrNull(t) && t !in {"y", "Y", "n", "N"}
    ensures SpellsWord(t)
  {
    if t == "~" { assert Casing(t, "~"); }
    if t in {"yes", "Yes", "YES"} { assert Casing(t, "yes"); }
    if t in {"no", "No", "NO"} { assert Casing(t, "no"); }
    if t in {"true", "True", "TRUE"} { assert Casing(t, "true"); }
    if t in {"false", "False", "FALSE"} { assert Casing(t, "false"); }
    if t in {"on", "On", "ON"} { assert Casing(t, "on"); }
    if t in {"off", "Off", "OFF"} { assert Casing(t, "off"); }
    if t in {"null", "Null", "NULL"} { assert Casing(t, "null"); }
  }

  lemma LettersAreBare(t: string)
    requires t in {"y", "Y", "n", "N"}
    ensures RenderScalar(Text(t)) == t
  {
    hide NeedsQuote, SpellsNumber, Marked, SpellsWord, IsDecimal;
    PrintedBareExactly(t);
    DecimalsInAscii(t[0]);
    LettersAreNoNumber(t);
    LettersAreNoWord(t);
    LettersAreUnmarked(t);
  }

  lemma LettersAreNoNumber(t: string)
    requires |t| == 1
    ensures SpellsNumber(t) ==> IsDecimal(t[0])
  {
    hide IsDecimal;
    if SpellsNumber(t) {
      var sign, m, e :| NumberParts(t, sign, m, e);
      var whole, point, fraction :| MantissaParts(m, whole, point, fraction);
    }
  }

  lemma LettersAreNoWord(t: string)
    requires |t| == 1
    ensures SpellsWord(t) ==> t == "~"
  {
    if SpellsWord(t) {
      var word :| IsWord(word) && Casing(t, word);
      assert word == "~";
    }
  }

  lemma LettersAreUnmarked(t: string)
    requires t in {"y", "Y", "n", "N"}
    ensures !Marked(t)
  {
  }
}
