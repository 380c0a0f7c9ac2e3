/**
  A text's line ending and final newline: when its lines, rejoined, are the text again.
 */
module LineForm {
  import opened Lines
  import opened UnifiedDiff

  /** The lines of one text in the form of another: its line ending, and its final newline or none. */
  function Rejoined(body: string, updated: string): string {
    Compose(LineEnding(body), BodyLines(updated), EndsWith(body, LineEnding(body)))
  }

  /** The character is one half of a "\r\n". */
  predicate HalfOfCRLF(s: string, i: nat)
    requires i < |s|
  {
    (s[i] == '\r' && i + 1 < |s| && s[i + 1] == '\n') || (s[i] == '\n' && i > 0 && s[i - 1] == '\r')
  }

  /** Every separator is half of a "\r\n". */
  predicate CRLFOnly(s: string) {
    forall i :: 0 <= i < |s| ==> IsBreak(s[i]) ==> HalfOfCRLF(s, i)
  }

  /** Written with the one line ending throughout. */
  predicate Uses(s: string, ending: string) {
    if ending == "\r\n" then CRLFOnly(s) else LFOnly(s)
  }

  /** Written throughout with the body's line ending, and ending in it if the body does. */
  predicate InBodysForm(body: string, updated: string) {
    Uses(updated, LineEnding(body)) && EndsWith(updated, LineEnding(body)) == EndsWith(body, LineEnding(body))
  }

  lemma LFOnlyHasNoReturn(s: string)
    requires LFOnly(s)
    ensures !Contains(s, '\r')
  {
    forall i | 0 <= i < |s| ensures s[i] != '\r' { assert IsBreak('\r'); }
  }

  /** With and without a final separator are different texts. */
  lemma FinalSeparatorShows(ending: string, lines: seq<string>, x: bool, y: bool)
    requires ending != ""
    ensures Compose(ending, lines, x) == Compose(ending, lines, y) <==> x == y
  {
    assert |Join(ending, lines) + ending| > |Join(ending, lines)|;
  }

  lemma EndsWithCRLF(s: string)
    ensures EndsWith(s, "\r\n") <==> |s| >= 2 && s[|s| - 2] == '\r' && s[|s| - 1] == '\n'
  {
    if |s| >= 2 { assert s[|s| - 2..] == [s[|s| - 2], s[|s| - 1]]; }
  }

  lemma CRLFEndKept(line: string, rest: string)
    ensures EndsWith(line + "\r\n" + rest, "\r\n") <==> rest == "" || EndsWith(rest, "\r\n")
  {
    EndsWithCRLF(line + "\r\n" + rest);
    EndsWithCRLF(rest);
  }

  /** The first line of a text that has a separator, when every separator is a "\r\n". */
  lemma FirstCRLF(s: string) returns (line: string, rest: string)
    requires CRLFOnly(s) && !Unbroken(s)
    ensures s == line + "\r\n" + rest && Unbroken(line) && CRLFOnly(rest)
  {
    var k := FirstBreak(s);
    assert k > 0 ==> s[k - 1] == s[..k][k - 1];
    assert s[k] == '\r' && s[k + 1] == '\n';
    line, rest := s[..k], s[k + 2..];
    forall i | 0 <= i < |rest| && IsBreak(rest[i]) ensures HalfOfCRLF(rest, i) {
      assert rest[i] == s[k + 2 + i] && HalfOfCRLF(s, k + 2 + i);
    }
  }

  lemma UnbrokenLine(s: string)
    requires Unbroken(s)
    ensures Compose("\r\n", BodyLines(s), EndsWith(s, "\r\n")) == s
  {
    EndsWithCRLF(s);
    LFOnlyHasNoReturn(s);
    NormalizeIdentity(s);
    if s != "" { SplitSingle(s); }
  }

  /** Splitting loses nothing of a text whose only separator is "\r\n". */
  lemma {:induction false} ComposeSplitCRLF(s: string)
    requires CRLFOnly(s)
    ensures Compose("\r\n", BodyLines(s), EndsWith(s, "\r\n")) == s
    decreases |s|
  {
    if Unbroken(s) {
      UnbrokenLine(s);
    } else {
      var line, rest := FirstCRLF(s);
      ComposeSplitCRLF(rest);
      NormalizeLine(line, rest);
      SplitLine(line, Normalize(rest));
      SplitUnbroken(Normalize(rest));
      NormalizeNonempty(rest);
      CRLFEndKept(line, rest);
      ComposeCons("\r\n", line, BodyLines(rest), EndsWith(s, "\r\n"));
      hide SplitLines, CRLFOnly, Unbroken, Compose, EndsWith, AllUnbroken;
    }
  }

  lemma {:induction false} ComposeCRLFOnly(lines: seq<string>, terminated: bool)
    requires AllUnbroken(lines)
    ensures CRLFOnly(Compose("\r\n", lines, terminated))
  {
    if |lines| > 1 {
      ComposeCRLFOnly(lines[1..], terminated);
      var rest := Compose("\r\n", lines[1..], terminated);
      assert Compose("\r\n", lines, terminated) == lines[0] + "\r\n" + rest;
      PrependCRLF(lines[0], rest);
    } else if lines != [] {
      PrependCRLF(lines[0], "");
    }
  }

  lemma PrependCRLF(line: string, rest: string)
    requires Unbroken(line) && CRLFOnly(rest)
    ensures CRLFOnly(line) && CRLFOnly(line + "\r\n" + rest)
  {
    var s := line + "\r\n" + rest;
    forall i | 0 <= i < |s| && IsBreak(s[i]) ensures HalfOfCRLF(s, i) {
      if i >= |line| + 2 { assert s[i] == rest[i - |line| - 2] && HalfOfCRLF(rest, i - |line| - 2); }
    }
  }

  /** Splitting a text and composing its lines again is the text exactly when it uses that ending and final newline. */
  lemma Reproduces(text: string, ending: string, kept: bool)
    requires ending == "\n" || ending == "\r\n"
    ensures Compose(ending, BodyLines(text), kept) == text <==> Uses(text, ending) && kept == EndsWith(text, ending)
  {
    var lines := BodyLines(text);
    SplitUnbroken(Normalize(text));
    FinalSeparatorShows(ending, lines, kept, EndsWith(text, ending));
    if ending == "\n" {
      ComposeLFOnly(lines, kept);
      if LFOnly(text) {
        LFOnlyHasNoReturn(text);
        NormalizeIdentity(text);
        ComposeSplit(text);
      }
    } else {
      ComposeCRLFOnly(lines, kept);
      if CRLFOnly(text) { ComposeSplitCRLF(text); }
    }
    hide BodyLines, Compose, LFOnly, CRLFOnly, EndsWith;
  }

  /** A text that ends in its line ending still ends in a newline once normalized. */
  lemma {:induction false} EndingNormalizes(s: string)
    ensures EndsWith(s, "\n") || EndsWith(s, "\r\n") ==> EndsWith(Normalize(s), "\n")
  {
    hide EndsWith, Normalize;
    EndsWithCRLF(s);
    EndsWithLF(s);
    EndsWithLF(Normalize(s));
    if s != "" { NormalizeLast(s); }
  }

  /** Normalizing leaves the last character as it is. */
  lemma {:induction false} NormalizeLast(s: string)
    requires s != ""
    ensures Normalize(s) != "" && Normalize(s)[|Normalize(s)| - 1] == s[|s| - 1]
  {
    var head, rest := if StartsWithCRLF(s) then "\n" else [s[0]], if StartsWithCRLF(s) then s[2..] else s[1..];
    assert Normalize(s) == head + Normalize(rest);
    if rest == "" {
      assert Normalize(rest) == "";
    } else {
      NormalizeLast(rest);
    }
  }
}
