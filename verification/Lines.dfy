/**
  Text as Python's `str` methods see it: `splitlines`, `sep.join`, and
  `replace("\r\n", "\n")`, with the facts that make them inverse to each other.
 */
module Lines {
  import opened Wrappers


  /** The characters `str.splitlines` breaks at. */
  predicate IsBreak(c: char) {
    || c == '\n' || c == '\r' || c == '\U{000B}' || c == '\U{000C}'
    || c == '\U{001C}' || c == '\U{001D}' || c == '\U{001E}'
    || c == '\U{0085}' || c == '\U{2028}' || c == '\U{2029}'
  }

  /** No line separator of any kind. */
  predicate Unbroken(s: string) {
    forall i :: 0 <= i < |s| ==> !IsBreak(s[i])
  }

  predicate AllUnbroken(lines: seq<string>) {
    forall i :: 0 <= i < |lines| ==> Unbroken(lines[i])
  }

  /** Every separator in the text is a line feed. */
  predicate LFOnly(s: string) {
    forall i :: 0 <= i < |s| ==> IsBreak(s[i]) ==> s[i] == '\n'
  }

  predicate Contains(s: string, c: char) {
    exists i :: 0 <= i < |s| && s[i] == c
  }

  predicate StartsWithCRLF(s: string) {
    |s| >= 2 && s[0] == '\r' && s[1] == '\n'
  }

  predicate ContainsCRLF(s: string) {
    exists i :: 0 <= i < |s| - 1 && s[i] == '\r' && s[i + 1] == '\n'
  }

  predicate EndsWith(s: string, suffix: string) {
    |s| >= |suffix| && s[|s| - |suffix|..] == suffix
  }

  predicate StartsWith(s: string, prefix: string) {
    |s| >= |prefix| && s[..|prefix|] == prefix
  }

  lemma StartsWithChar(s: string, prefix: string, i: nat)
    requires i < |prefix|
    ensures StartsWith(s, prefix) ==> i < |s| && s[i] == prefix[i]
  {
    if StartsWith(s, prefix) {
      assert s[..|prefix|][i] == s[i];
    }
  }

  lemma StartsWithHead(s: string, prefix: string)
    ensures prefix != "" && StartsWith(s, prefix) ==> s != "" && s[0] == prefix[0]
  {
    if prefix != "" && StartsWith(s, prefix) {
      assert s[..|prefix|][0] == s[0];
    }
  }

  predicate OccursAt(body: string, needle: string, k: nat) {
    k + |needle| <= |body| && body[k..k + |needle|] == needle
  }

  lemma OccursChar(body: string, needle: string, k: nat, i: nat)
    requires i < |needle|
    ensures OccursAt(body, needle, k) ==> k + i < |body| && body[k + i] == needle[i]
  {
    if OccursAt(body, needle, k) {
      assert body[k..k + |needle|][i] == body[k + i];
    }
  }

  /** `body.find(needle, from)`, with None for -1. */
  function Find(body: string, needle: string, from: nat): (r: Option<nat>)
    ensures r.Some? ==> from <= r.value && OccursAt(body, needle, r.value)
    ensures forall k: nat :: from <= k && OccursAt(body, needle, k) ==> r.Some? && r.value <= k
    decreases |body| - from
  {
    if from > |body| then None
    else if OccursAt(body, needle, from) then Some(from)
    else Find(body, needle, from + 1)
  }

  /** `s.replace("\r\n", with)`. */
  function ReplaceCRLF(s: string, with: string): string {
    if s == "" then ""
    else if StartsWithCRLF(s) then with + ReplaceCRLF(s[2..], with)
    else [s[0]] + ReplaceCRLF(s[1..], with)
  }

  /** `s.replace("\r\n", "\n")`. */
  function Normalize(s: string): string {
    ReplaceCRLF(s, "\n")
  }

  /** `s.splitlines()`: "\r\n" is one boundary, and a final one ends no line. */
  function SplitLines(s: string): seq<string> {
    if s == "" then []
    else if StartsWithCRLF(s) then [""] + SplitLines(s[2..])
    else if IsBreak(s[0]) then [""] + SplitLines(s[1..])
    else
      var rest := SplitLines(s[1..]);
      if rest == [] then [[s[0]]] else [[s[0]] + rest[0]] + rest[1..]
  }

  /** `sep.join(lines)`. */
  function Join(sep: string, lines: seq<string>): string {
    if lines == [] then ""
    else if |lines| == 1 then lines[0]
    else lines[0] + sep + Join(sep, lines[1..])
  }

  /** The lines joined, with one more separator when `terminated`. */
  function Compose(sep: string, lines: seq<string>, terminated: bool): string {
    Join(sep, lines) + if terminated then sep else ""
  }

  lemma ConcatAssociates<T>(x: seq<T>, y: seq<T>, z: seq<T>)
    ensures (x + y) + z == x + (y + z)
  {
  }

  lemma SliceOfSlice<T>(s: seq<T>, i: nat, j: nat, from: nat, upto: nat)
    requires i <= j <= |s| && from <= upto <= j - i
    ensures s[i..j][from..upto] == s[i + from..i + upto]
  {
    var x, y := s[i..j][from..upto], s[i + from..i + upto];
    assert forall k :: 0 <= k < |x| ==> x[k] == s[i..j][from + k] == s[i + from + k] == y[k];
  }

  lemma SlicesJoin<T>(lines: seq<T>, i: nat, k: nat, j: nat)
    requires i <= k <= j <= |lines|
    ensures lines[i..k] + lines[k..j] == lines[i..j]
  {
  }

  // ---------------------------------------------------------------- splitting

  lemma {:induction false} SplitUnbroken(s: string)
    ensures AllUnbroken(SplitLines(s))
    ensures SplitLines(s) == [] <==> s == ""
  {
    if s == "" {
    } else if StartsWithCRLF(s) {
      SplitUnbroken(s[2..]);
    } else {
      SplitUnbroken(s[1..]);
    }
  }

  /** A line followed by a line feed splits off, whatever follows it. */
  lemma {:induction false} SplitLine(line: string, rest: string)
    requires Unbroken(line)
    ensures SplitLines(line + "\n" + rest) == [line] + SplitLines(rest)
  {
    var s := line + "\n" + rest;
    if line == "" {
      assert s[1..] == rest;
    } else {
      assert s[1..] == line[1..] + "\n" + rest;
      SplitLine(line[1..], rest);
      assert s[0] == line[0] && !IsBreak(line[0]);
      assert line == [line[0]] + line[1..];
    }
  }

  lemma {:induction false} SplitSingle(line: string)
    requires Unbroken(line) && line != ""
    ensures SplitLines(line) == [line]
  {
    assert line == [line[0]] + line[1..];
    if |line| > 1 {
      SplitSingle(line[1..]);
      assert [line] + [line[1..]][1..] == [line];
    } else {
      assert line == [line[0]];
    }
  }

  /** When composed text splits back into its lines. */
  predicate Recoverable(lines: seq<string>, terminated: bool) {
    if terminated then lines != [] else lines == [] || lines[|lines| - 1] != ""
  }

  lemma {:induction false} SplitCompose(lines: seq<string>, terminated: bool)
    requires AllUnbroken(lines)
    ensures SplitLines(Compose("\n", lines, terminated)) == lines <==> Recoverable(lines, terminated)
  {
    if |lines| <= 1 {
      SplitComposeShort(lines, terminated);
    } else {
      var rest := Compose("\n", lines[1..], terminated);
      assert Compose("\n", lines, terminated) == lines[0] + "\n" + rest;
      SplitLine(lines[0], rest);
      assert AllUnbroken(lines[1..]);
      assert lines == [lines[0]] + lines[1..];
      assert Recoverable(lines, terminated) == Recoverable(lines[1..], terminated);
      hide *;
      SplitCompose(lines[1..], terminated);
    }
  }

  lemma SplitComposeShort(lines: seq<string>, terminated: bool)
    requires AllUnbroken(lines) && |lines| <= 1
    ensures SplitLines(Compose("\n", lines, terminated)) == lines <==> Recoverable(lines, terminated)
  {
    var s := Compose("\n", lines, terminated);
    if lines == [] {
      assert terminated ==> s == "\n" && SplitLines(s) == [""];
    } else {
      var line := lines[0];
      if terminated {
        assert s == line + "\n" + "";
        SplitLine(line, "");
      } else {
        assert s == line;
        if line != "" { SplitSingle(line); }
      }
      assert lines == [line];
    }
  }

  lemma EndsWithLF(s: string)
    ensures EndsWith(s, "\n") <==> s != "" && s[|s| - 1] == '\n'
  {
    if s != "" {
      assert s[|s| - 1..] == [s[|s| - 1]];
    }
  }

  lemma ComposeCons(sep: string, line: string, lines: seq<string>, terminated: bool)
    ensures Compose(sep, [line] + lines, terminated)
            == if lines == [] then line + (if terminated then sep else "")
               else line + sep + Compose(sep, lines, terminated)
  {
    assert ([line] + lines)[1..] == lines;
  }

  /** Splitting loses nothing of a text whose only separator is the line feed. */
  lemma {:induction false} ComposeSplit(s: string)
    requires LFOnly(s)
    ensures Compose("\n", SplitLines(s), EndsWith(s, "\n")) == s
  {
    EndsWithLF(s);
    if Unbroken(s) {
      if s != "" {
        SplitSingle(s);
      }
    } else {
      var k := FirstBreak(s);
      var line, rest := s[..k], s[k + 1..];
      assert s == line + "\n" + rest;
      SplitLine(line, rest);
      assert SplitLines(s) == [line] + SplitLines(rest);
      ComposeSplit(rest);
      SplitUnbroken(rest);
      EndsWithLF(rest);
      assert rest != "" ==> rest[|rest| - 1] == s[|s| - 1];
      ComposeCons("\n", line, SplitLines(rest), EndsWith(s, "\n"));
    }
  }

  /** The first separator of a text that has one. */
  lemma FirstBreak(s: string) returns (k: nat)
    requires !Unbroken(s)
    ensures k < |s| && IsBreak(s[k]) && Unbroken(s[..k])
  {
    k := 0;
    while !IsBreak(s[k])
      invariant k < |s| && Unbroken(s[..k])
      invariant exists i :: k <= i < |s| && IsBreak(s[i])
      decreases |s| - k
    {
      k := k + 1;
    }
  }

  /** A composed text contains only the separator that joined it. */
  lemma {:induction false} ComposeLFOnly(lines: seq<string>, terminated: bool)
    requires AllUnbroken(lines)
    ensures LFOnly(Compose("\n", lines, terminated))
  {
    if |lines| > 1 {
      ComposeLFOnly(lines[1..], terminated);
      assert Compose("\n", lines, terminated) == lines[0] + "\n" + Compose("\n", lines[1..], terminated);
    }
  }

  // ---------------------------------------------------------- carriage returns

  lemma {:induction false} NothingToReplace(s: string, with: string)
    requires !Contains(s, '\r')
    ensures ReplaceCRLF(s, with) == s && !ContainsCRLF(s)
  {
    if s != "" {
      assert s[0] != '\r';
      assert !Contains(s[1..], '\r') by {
        forall i | 0 <= i < |s[1..]| ensures s[1..][i] != '\r' { assert s[1..][i] == s[i + 1]; }
      }
      NothingToReplace(s[1..], with);
    }
  }

  lemma NormalizeIdentity(s: string)
    requires !Contains(s, '\r')
    ensures Normalize(s) == s && !ContainsCRLF(s)
  {
    NothingToReplace(s, "\n");
  }

  lemma NormalizeNonempty(s: string)
    ensures s != "" ==> Normalize(s) != ""
  {
  }

  /** Whether a lone carriage return is left does not depend on what replaces the pairs. */
  lemma {:induction false} LoneReturns(s: string)
    ensures Contains(ReplaceCRLF(s, ""), '\r') <==> Contains(Normalize(s), '\r')
  {
    if s != "" {
      var rest := if StartsWithCRLF(s) then s[2..] else s[1..];
      LoneReturns(rest);
      var head := if StartsWithCRLF(s) then "" else [s[0]];
      var head' := if StartsWithCRLF(s) then "\n" else [s[0]];
      assert ReplaceCRLF(s, "") == head + ReplaceCRLF(rest, "") && Normalize(s) == head' + Normalize(rest);
      ContainsConcat(head, ReplaceCRLF(rest, ""), '\r');
      ContainsConcat(head', Normalize(rest), '\r');
    }
  }

  lemma ContainsConcat(x: string, y: string, c: char)
    ensures Contains(x + y, c) <==> Contains(x, c) || Contains(y, c)
  {
    var s := x + y;
    if Contains(s, c) {
      var i :| 0 <= i < |s| && s[i] == c;
      assert if i < |x| then x[i] == c else y[i - |x|] == c;
    }
    if Contains(x, c) { var i :| 0 <= i < |x| && x[i] == c; assert s[i] == c; }
    if Contains(y, c) { var i :| 0 <= i < |y| && y[i] == c; assert s[|x| + i] == c; }
  }

  /** Composing with "\r\n" and normalizing is composing with "\n". */
  lemma {:induction false} NormalizeCompose(lines: seq<string>, terminated: bool)
    requires AllUnbroken(lines)
    ensures Normalize(Compose("\r\n", lines, terminated)) == Compose("\n", lines, terminated)
  {
    if lines == [] {
      if terminated {
        assert Compose("\r\n", lines, terminated) == "\r\n";
        assert "\r\n"[2..] == "";
      }
    } else if |lines| == 1 {
      if terminated {
        NormalizeLine(lines[0], "");
        assert Compose("\r\n", lines, terminated) == lines[0] + "\r\n" + "";
        assert Compose("\n", lines, terminated) == lines[0] + "\n" + "";
      } else {
        assert Compose("\r\n", lines, terminated) == lines[0] == Compose("\n", lines, terminated);
        NormalizeIdentity(lines[0]);
      }
    } else {
      var rest := Compose("\r\n", lines[1..], terminated);
      NormalizeCompose(lines[1..], terminated);
      NormalizeLine(lines[0], rest);
      assert Compose("\r\n", lines, terminated) == lines[0] + "\r\n" + rest;
      assert Compose("\n", lines, terminated) == lines[0] + "\n" + Normalize(rest);
    }
  }

  lemma {:induction false} NormalizeLine(line: string, rest: string)
    requires Unbroken(line)
    ensures Normalize(line + "\r\n" + rest) == line + "\n" + Normalize(rest)
  {
    var s := line + "\r\n" + rest;
    if line == "" {
      assert s[2..] == rest;
    } else {
      assert s[0] == line[0] && !IsBreak(line[0]);
      assert s[1..] == line[1..] + "\r\n" + rest;
      NormalizeLine(line[1..], rest);
    }
  }
}
