/** More of Python's `str`: `strip`, `replace`, `split("\n")`, and code-point order. */
module PyText {
  import opened Lines

  // -------------------------------------------------------------------- strip

  /** What `str.strip` strips. */
  predicate IsSpace(c: char) {
    || '\t' <= c <= '\r' || '\U{001C}' <= c <= ' ' || c == '\U{0085}' || c == '\U{00A0}'
    || c == '\U{1680}' || '\U{2000}' <= c <= '\U{200A}' || c == '\U{2028}' || c == '\U{2029}'
    || c == '\U{202F}' || c == '\U{205F}' || c == '\U{3000}'
  }

  function StripLeft(s: string): string {
    if s != "" && IsSpace(s[0]) then StripLeft(s[1..]) else s
  }

  function StripRight(s: string): string {
    if s != "" && IsSpace(s[|s| - 1]) then StripRight(s[..|s| - 1]) else s
  }

  function Strip(s: string): string {
    StripRight(StripLeft(s))
  }

  /** No space at either end. */
  predicate Tight(s: string) {
    s == "" || (!IsSpace(s[0]) && !IsSpace(s[|s| - 1]))
  }

  lemma {:induction false} StripRightShortens(s: string)
    ensures |StripRight(s)| <= |s| && (|StripRight(s)| == |s| ==> StripRight(s) == s)
  {
    if s != "" && IsSpace(s[|s| - 1]) { StripRightShortens(s[..|s| - 1]); }
  }

  lemma {:induction false} StripLeftShortens(s: string)
    ensures |StripLeft(s)| <= |s| && (|StripLeft(s)| == |s| ==> StripLeft(s) == s)
  {
    if s != "" && IsSpace(s[0]) { StripLeftShortens(s[1..]); }
  }

  lemma StripTight(s: string)
    ensures Strip(s) == s <==> Tight(s)
  {
    StripLeftShortens(s);
    StripRightShortens(StripLeft(s));
    if s != "" && IsSpace(s[0]) {
      StripLeftShortens(s[1..]);
    } else if s != "" && IsSpace(s[|s| - 1]) {
      StripRightShortens(s[..|s| - 1]);
    }
  }

  // ------------------------------------------------------------------ replace

  /** `s.replace(pattern, with)`: leftmost occurrences, never overlapping. */
  function ReplaceAll(s: string, pattern: string, with: string): string
    requires pattern != ""
    decreases |s|
  {
    if s == "" then ""
    else if StartsWith(s, pattern) then with + ReplaceAll(s[|pattern|..], pattern, with)
    else [s[0]] + ReplaceAll(s[1..], pattern, with)
  }

  // -------------------------------------------------------------------- split

  /** `s.split("\n")`: never empty. */
  function SplitLF(s: string): (lines: seq<string>)
    ensures lines != []
  {
    if s == "" then [""]
    else
      var rest := SplitLF(s[1..]);
      if s[0] == '\n' then [""] + rest else [[s[0]] + rest[0]] + rest[1..]
  }

  /** One line of text: no line feed. */
  predicate OneLine(s: string) {
    !Contains(s, '\n')
  }

  lemma {:induction false} SplitLFLine(line: string, rest: string)
    requires OneLine(line)
    ensures SplitLF(line + "\n" + rest) == [line] + SplitLF(rest)
  {
    var s := line + "\n" + rest;
    if line == "" {
      assert s[1..] == rest;
    } else {
      assert s[0] == line[0] && line[0] != '\n';
      assert OneLine(line[1..]) by {
        forall i | 0 <= i < |line[1..]| ensures line[1..][i] != '\n' { assert line[1..][i] == line[i + 1]; }
      }
      assert s[1..] == line[1..] + "\n" + rest;
      SplitLFLine(line[1..], rest);
      assert line == [line[0]] + line[1..];
    }
  }

  lemma {:induction false} SplitLFOne(line: string)
    requires OneLine(line)
    ensures SplitLF(line) == [line]
  {
    if line != "" {
      assert line[0] != '\n';
      assert OneLine(line[1..]) by {
        forall i | 0 <= i < |line[1..]| ensures line[1..][i] != '\n' { assert line[1..][i] == line[i + 1]; }
      }
      SplitLFOne(line[1..]);
      assert line == [line[0]] + line[1..];
      assert [line] + [line[1..]][1..] == [line];
    }
  }

  /** `"\n".join(lines).split("\n")` gives back any lines but none at all. */
  lemma {:induction false} SplitJoin(lines: seq<string>)
    requires forall i :: 0 <= i < |lines| ==> OneLine(lines[i])
    ensures SplitLF(Join("\n", lines)) == if lines == [] then [""] else lines
  {
    if |lines| == 1 {
      SplitLFOne(lines[0]);
      assert lines == [lines[0]];
    } else if |lines| > 1 {
      SplitJoin(lines[1..]);
      SplitLFLine(lines[0], Join("\n", lines[1..]));
      assert lines == [lines[0]] + lines[1..];
    }
  }

  lemma {:induction false} JoinAppends(x: seq<string>, y: seq<string>)
    requires x != [] && y != []
    ensures Join("\n", x + y) == Join("\n", x) + "\n" + Join("\n", y)
  {
    if |x| == 1 {
      assert (x + y)[1..] == y;
    } else {
      assert (x + y)[1..] == x[1..] + y;
      JoinAppends(x[1..], y);
      ConcatAssociates(x[0] + "\n", Join("\n", x[1..]), "\n" + Join("\n", y));
      ConcatAssociates(Join("\n", x[1..]), "\n", Join("\n", y));
      ConcatAssociates(x[0] + "\n" + Join("\n", x[1..]), "\n", Join("\n", y));
    }
  }

  // -------------------------------------------------------------------- order

  /** `a <= b` for Python strings: by code point, a prefix first. */
  predicate Leq(a: string, b: string) {
    a == "" || (b != "" && (a[0] < b[0] || (a[0] == b[0] && Leq(a[1..], b[1..]))))
  }

  lemma {:induction false} LeqTotal(a: string, b: string)
    ensures Leq(a, b) || Leq(b, a)
    ensures Leq(a, b) && Leq(b, a) ==> a == b
  {
    if a != "" && b != "" {
      LeqTotal(a[1..], b[1..]);
      assert a == [a[0]] + a[1..] && b == [b[0]] + b[1..];
    }
  }

  lemma {:induction false} LeqTransitive(a: string, b: string, c: string)
    requires Leq(a, b) && Leq(b, c)
    ensures Leq(a, c)
  {
    if a != "" && a[0] == b[0] && b[0] == c[0] { LeqTransitive(a[1..], b[1..], c[1..]); }
  }

  predicate IsLeast(x: string, s: set<string>) {
    x in s && forall y :: y in s ==> Leq(x, y)
  }

  lemma {:induction false} LeastExists(s: set<string>)
    requires s != {}
    ensures exists x :: IsLeast(x, s)
  {
    var a :| a in s;
    LeqTotal(a, a);
    if s == {a} {
      assert IsLeast(a, s);
    } else {
      var rest := s - {a};
      assert rest != {};
      LeastExists(rest);
      var b :| IsLeast(b, rest);
      LeqTotal(a, b);
      if Leq(a, b) {
        forall y | y in s ensures Leq(a, y) { if y != a { LeqTransitive(a, b, y); } }
        assert IsLeast(a, s);
      } else {
        assert IsLeast(b, s);
      }
    }
  }

  lemma LeastUnique(s: set<string>)
    ensures forall x, y :: IsLeast(x, s) && IsLeast(y, s) ==> x == y
  {
    forall x, y | IsLeast(x, s) && IsLeast(y, s) ensures x == y { LeqTotal(x, y); }
  }

  /** `sorted(s)` for a set of strings. */
  function Sorted(s: set<string>): (r: seq<string>)
    ensures forall x :: x in r <==> x in s
    decreases |s|
  {
    if s == {} then []
    else
      LeastExists(s);
      LeastUnique(s);
      var x :| IsLeast(x, s);
      [x] + Sorted(s - {x})
  }

  predicate Ascending(keys: seq<string>) {
    forall i, j :: 0 <= i < j < |keys| ==> Leq(keys[i], keys[j]) && keys[i] != keys[j]
  }

  lemma SortedUnfolds(s: set<string>)
    requires s != {}
    ensures Sorted(s) != [] && IsLeast(Sorted(s)[0], s) && Sorted(s)[1..] == Sorted(s - {Sorted(s)[0]})
  {
    hide Leq;
  }

  lemma ConsAscends(x: string, rest: seq<string>)
    requires Ascending(rest) && forall y :: y in rest ==> Leq(x, y) && x != y
    ensures Ascending([x] + rest)
  {
    hide Leq;
    var r := [x] + rest;
    forall i, j | 0 <= i < j < |r| ensures Leq(r[i], r[j]) && r[i] != r[j] {
      assert r[j] == rest[j - 1];
      if i > 0 { assert r[i] == rest[i - 1]; }
    }
  }

  lemma {:induction false} SortedAscends(s: set<string>)
    ensures Ascending(Sorted(s))
    decreases |s|
  {
    if s != {} {
      SortedUnfolds(s);
      var r := Sorted(s);
      var rest := s - {r[0]};
      SortedAscends(rest);
      assert forall y :: y in Sorted(rest) ==> y in rest;
      hide Sorted, Leq, Ascending;
      ConsAscends(r[0], Sorted(rest));
      assert r == [r[0]] + r[1..];
    }
  }
}
