/**
  The text operations by what they do to any text: where lines break, what a
  replacement of "\r\n" and a strip take away, and which text comes first.
 */
module TextLaws {
  import opened Lines
  import opened PyText

  // -------------------------------------------------------------------- lines

  /** The ten characters `str.splitlines` knows. */
  predicate EndsLine(c: char) {
    c as int in {0x0A, 0x0B, 0x0C, 0x0D, 0x1C, 0x1D, 0x1E, 0x85, 0x2028, 0x2029}
  }

  /** A line without such a character, and one after it, split off whatever follows; "\r\n" counts as one. */
  lemma {:induction false} LineSplitsOff(line: string, c: char, rest: string)
    requires (forall i :: 0 <= i < |line| ==> !EndsLine(line[i])) && EndsLine(c)
    ensures SplitLines(line + [c] + rest)
            == [line] + SplitLines(if c == '\r' && rest != "" && rest[0] == '\n' then rest[1..] else rest)
  {
    var s := line + [c] + rest;
    if line == "" {
      assert s[0] == c && s[1..] == rest;
      assert rest != "" ==> s[1] == rest[0] && s[2..] == rest[1..];
    } else {
      assert s[0] == line[0] && s[1..] == line[1..] + [c] + rest;
      LineSplitsOff(line[1..], c, rest);
      assert line == [line[0]] + line[1..];
    }
  }

  /** A text without such a character is one line, or none if it is empty. */
  lemma {:induction false} OneLineStays(line: string)
    requires forall i :: 0 <= i < |line| ==> !EndsLine(line[i])
    ensures SplitLines(line) == if line == "" then [] else [line]
  {
    if line != "" {
      OneLineStays(line[1..]);
      assert line == [line[0]] + line[1..];
      if |line| == 1 { assert line == [line[0]]; } else { assert [line] + [line[1..]][1..] == [line]; }
    }
  }

  // ------------------------------------------------------------- replacements

  /** The character or pair at the front, replaced or kept. */
  lemma FrontReplaced(s: string, with: string)
    requires s != ""
    ensures ReplaceCRLF(s, with)
            == if StartsWithCRLF(s) then with + ReplaceCRLF(s[2..], with) else [s[0]] + ReplaceCRLF(s[1..], with)
  {
  }

  /** What stands at the front of a text is not changed by a pair put after it. */
  lemma FrontKept(a: string, rest: string)
    requires a != "" && rest != "" && rest[0] == '\r'
    ensures StartsWithCRLF(a + rest) == StartsWithCRLF(a)
    ensures (a + rest)[0] == a[0] && (a + rest)[1..] == a[1..] + rest
    ensures StartsWithCRLF(a) ==> (a + rest)[2..] == a[2..] + rest
  {
  }

  lemma ReplacedNothing(with: string)
    ensures ReplaceCRLF("", with) == ""
  {
  }

  /** Each "\r\n" is replaced, */
  lemma {:induction false} PairsReplaced(a: string, b: string, with: string)
    ensures ReplaceCRLF(a + ("\r\n" + b), with) == ReplaceCRLF(a, with) + (with + ReplaceCRLF(b, with))
    decreases |a|
  {
    hide ReplaceCRLF;
    var pair := "\r\n" + b;
    FrontReplaced(a + pair, with);
    if a == "" {
      ReplacedNothing(with);
      assert pair[2..] == b && a + pair == pair;
    } else {
      FrontReplaced(a, with);
      FrontKept(a, pair);
      var front, rest := if StartsWithCRLF(a) then with else [a[0]], if StartsWithCRLF(a) then a[2..] else a[1..];
      hide StartsWithCRLF;
      PairsReplaced(rest, b, with);
      ConcatAssociates(front, ReplaceCRLF(rest, with), with + ReplaceCRLF(b, with));
    }
  }

  /** and nothing else is touched. */
  lemma {:induction false} NoPairKept(s: string, with: string)
    requires !ContainsCRLF(s)
    ensures ReplaceCRLF(s, with) == s
  {
    if s != "" {
      assert !ContainsCRLF(s[1..]) by {
        forall i | 0 <= i < |s[1..]| - 1 ensures !(s[1..][i] == '\r' && s[1..][i + 1] == '\n') {
          assert s[1..][i] == s[i + 1] && s[1..][i + 1] == s[i + 2];
        }
      }
      NoPairKept(s[1..], with);
    }
  }

  // -------------------------------------------------------------------- strip

  /** The characters of Unicode's white space, and the four separators before the blank. */
  predicate Blank(c: char) {
    var n := c as int;
    || 0x09 <= n <= 0x0D || 0x1C <= n <= 0x20 || n in {0x85, 0xA0, 0x1680, 0x2028, 0x2029, 0x202F, 0x205F, 0x3000}
    || 0x2000 <= n <= 0x200A
  }

  predicate AllBlank(s: string) {
    forall i :: 0 <= i < |s| ==> Blank(s[i])
  }

  lemma BlankIsSpace(c: char)
    ensures Blank(c) <==> IsSpace(c)
  {
  }

  lemma {:induction false} LeftStripped(s: string) returns (left: string)
    ensures s == left + StripLeft(s) && AllBlank(left)
    ensures StripLeft(s) != "" ==> !Blank(StripLeft(s)[0])
  {
    hide Blank, IsSpace;
    left := "";
    if s != "" { BlankIsSpace(s[0]); }
    if s != "" && IsSpace(s[0]) {
      var more := LeftStripped(s[1..]);
      left := [s[0]] + more;
      assert s == [s[0]] + s[1..];
    }
  }

  lemma {:induction false} RightStripped(s: string) returns (right: string)
    ensures s == StripRight(s) + right && AllBlank(right)
    ensures StripRight(s) != "" ==> !Blank(StripRight(s)[|StripRight(s)| - 1]) && StripRight(s)[0] == s[0]
  {
    hide Blank, IsSpace;
    right := "";
    if s != "" { BlankIsSpace(s[|s| - 1]); }
    if s != "" && IsSpace(s[|s| - 1]) {
      var more := RightStripped(s[..|s| - 1]);
      right := more + [s[|s| - 1]];
      assert s == s[..|s| - 1] + [s[|s| - 1]];
    }
  }

  /** Stripping takes blanks off both ends, and leaves none there. */
  lemma StripsExactly(s: string) returns (left: string, right: string)
    ensures s == left + Strip(s) + right && AllBlank(left) && AllBlank(right)
    ensures Strip(s) != "" ==> !Blank(Strip(s)[0]) && !Blank(Strip(s)[|Strip(s)| - 1])
  {
    left := LeftStripped(s);
    right := RightStripped(StripLeft(s));
    hide StripLeft, StripRight, Blank;
  }

  // -------------------------------------------------------------------- order

  /** The texts first differ at `k`, where `a` has the lower character or has ended. */
  predicate LowerAt(a: string, b: string, k: nat) {
    k <= |a| && k <= |b| && a[..k] == b[..k] && (k == |a| || (k < |b| && a[k] < b[k]))
  }

  /** One text is not after another exactly when it is a start of it or has the lower character where they differ. */
  lemma {:induction false} OrderExactly(a: string, b: string)
    ensures Leq(a, b) <==> exists k: nat :: LowerAt(a, b, k)
  {
    if a == "" {
      assert LowerAt(a, b, 0);
    } else if b != "" {
      OrderExactly(a[1..], b[1..]);
      if a[0] < b[0] { assert LowerAt(a, b, 0); }
      if a[0] == b[0] {
        if k: nat :| LowerAt(a[1..], b[1..], k) {
          assert a[..k + 1] == [a[0]] + a[1..][..k] && b[..k + 1] == [b[0]] + b[1..][..k];
          assert LowerAt(a, b, k + 1);
        }
        if k: nat :| LowerAt(a, b, k) {
          assert k > 0;
          assert a[1..][..k - 1] == a[..k][1..] && b[1..][..k - 1] == b[..k][1..];
          assert LowerAt(a[1..], b[1..], k - 1);
        }
      } else if k: nat :| LowerAt(a, b, k) {
        assert k > 0 ==> a[..k][0] == b[..k][0];
      }
    }
  }
}
