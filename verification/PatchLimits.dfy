/**
  What the strict applier accepts, in plain numbers and characters: the compact-diff
  policy, the hunk-header grammar, and the refusals of the patch as a whole.
 */
module PatchLimits {
  import opened Wrappers
  import opened Lines
  import opened Decimal
  import opened UnifiedDiff
  import opened PatchTheory

  // -------------------------------------------------------------- the policy

  /** At most 20 hunks, and up to 20 changed lines always, up to 200 when they are a quarter of the body. */
  predicate Compact(lines: nat, hunks: nat, additions: nat, removals: nat) {
    var e := if additions > removals then additions else removals;
    hunks <= 20 && 0 < e <= 200 && (e <= 20 || 4 * e <= lines + 3)
  }

  lemma PolicyIsCompact(lines: nat, hunks: seq<Hunk>)
    ensures WithinPolicy(lines, hunks) <==> Compact(lines, |hunks|, AllInsertions(hunks), |AllRemovals(hunks)|)
  {
  }

  /**
    A patch that spells out hunks is accepted exactly when the body has no lone carriage
    return, the hunks are placed on it, and the change they make is compact; the counts
    reported are those of the change.
   */
  lemma AcceptedExactly(original: string, patch: string, hunks: seq<Hunk>)
    requires PatchLines(patch).Ok? && ParseHunks(PatchLines(patch).value) == Some(hunks)
    ensures var lines, r := BodyLines(original), ApplyPatch(original, patch);
            && (r.Ok? <==> && !Contains(Normalize(original), '\r') && Placed(lines, hunks, 0, 0)
                           && Compact(|lines|, |hunks|, AllInsertions(hunks), |AllRemovals(hunks)|))
            && (r.Ok? ==> && r.value.additions == AllInsertions(hunks)
                          && |r.value.removed| == |AllRemovals(hunks)| && r.value.hunks == |hunks|)
  {
    LoneReturns(original);
    PolicyIsCompact(|BodyLines(original)|, hunks);
    ApplyPatchRefines(original, patch);
    hide ParseHunks, Placed, PatchLines, WithinPolicy, Compact, ApplyPatch;
  }

  // ------------------------------------------------------------ the refusals

  /** The refusals that come before any hunk. */
  predicate AboutText(e: DiffError) {
    || e == PatchTooLong || e == PatchCarriageReturn || e == EmptyPatch
    || e == UnpairedFileHeader || e == MixedLineEndings
  }

  lemma LineErrors(original: seq<string>, line: string, w: Walk)
    requires w.source <= |original|
    ensures var r := StepLine(original, line, w);
            && (r == Err(MissingPrefix) <==> line == "")
            && (line != "" ==>
                  && (r == Err(NoNewlineMarker) <==> line[0] == '\\')
                  && (r == Err(UnknownPrefix) <==> line[0] !in " +-\\")
                  && (r == Err(ContextMismatch)
                      <==> line[0] in " -" && (w.source == |original| || original[w.source] != line[1..])))
            && (r.Err? ==> r.error in {MissingPrefix, NoNewlineMarker, UnknownPrefix, ContextMismatch})
  {
  }

  lemma {:induction false} HunkErrors(original: seq<string>, lines: seq<string>, w: Walk)
    requires w.source <= |original|
    ensures var r := WalkHunk(original, lines, w);
            r.Err? ==> r.error in {MissingPrefix, NoNewlineMarker, UnknownPrefix, ContextMismatch}
    decreases |lines|
  {
    hide StepLine;
    if !EndsHunk(lines) {
      LineErrors(original, lines[0], w);
      var next := StepLine(original, lines[0], w);
      if next.Ok? { HunkErrors(original, lines[1..], next.value); }
    }
  }

  /** Why one hunk is refused: by its header, by one of its lines, or by the counts. */
  lemma HunkRefusedExactly(original: seq<string>, header: Header, lines: seq<string>, p: Progress)
    requires p.cursor <= |original|
    ensures var r, start := WalkOneHunk(original, header, lines, p), header.oldStart - 1;
            && (r == Err(TooManyHunks) <==> p.hunks >= 20)
            && (p.hunks < 20 ==>
                  && (r == Err(NoOldSide) <==> header.oldStart == 0 || header.oldCount == 0)
                  && (header.oldStart > 0 && header.oldCount > 0 ==>
                        && (r == Err(HunkOutOfPlace) <==> start < p.cursor || start > |original|)
                        && (p.cursor <= start <= |original| ==>
                              (r == Err(InconsistentNewStart)
                               <==> header.newStart != |p.output| + (start - p.cursor)
                                                       + (if header.newCount == 0 then 0 else 1)))))
    ensures var r, parsed := WalkOneHunk(original, header, lines, p), ParseEdits(lines);
            OpenHunk(original, header, p).Ok? && parsed.Some?
            && Matches(original, header.oldStart - 1, OldSide(parsed.value.edits)) ==>
              (r == Err(CountMismatch)
               <==> || header.oldCount != |OldSide(parsed.value.edits)|
                    || header.newCount != |NewSide(parsed.value.edits)|)
  {
    hide OldSide, NewSide, Removals, Insertions, WalkHunk, ParseEdits, Matches;
    var entry := OpenHunk(original, header, p);
    if entry.Ok? {
      WalkHunkRefines(original, lines, entry.value);
      HunkErrors(original, lines, entry.value);
    }
  }

  lemma {:induction false} WalkErrors(original: seq<string>, lines: seq<string>, p: Progress)
    requires p.cursor <= |original|
    ensures WalkPatch(original, lines, p).Err? ==> !AboutText(WalkPatch(original, lines, p).error)
    decreases |lines|
  {
    hide ParseHeader, WalkHunk;
    if lines != [] && ParseHeader(lines[0]).Some? {
      var header := ParseHeader(lines[0]).value;
      var entry := OpenHunk(original, header, p);
      if entry.Ok? { HunkErrors(original, lines[1..], entry.value); }
      var walked := WalkOneHunk(original, header, lines[1..], p);
      if walked.Ok? { WalkErrors(original, walked.value.1, walked.value.0); }
    }
  }

  lemma NormalizeEmpty()
    ensures Normalize("") == ""
  {
  }

  /** Why a patch is refused before its hunks are looked at, the earlier reason first. */
  lemma RefusedAsText(original: string, patch: string)
    ensures var lines, r := SplitLines(Normalize(patch)), ApplyPatch(original, patch);
            && (r == Err(PatchTooLong) <==> |patch| > 50_000)
            && (|patch| <= 50_000 ==>
                  && (r == Err(PatchCarriageReturn) <==> Contains(Normalize(patch), '\r'))
                  && (!Contains(Normalize(patch), '\r') ==>
                        && (r == Err(EmptyPatch) <==> patch == "")
                        && (patch != "" ==>
                              && lines != []
                              && (r == Err(UnpairedFileHeader)
                                  <==> && StartsWith(lines[0], "--- ")
                                       && (|lines| == 1 || !StartsWith(lines[1], "+++ "))))))
    ensures PatchLines(patch).Ok? ==>
              (ApplyPatch(original, patch) == Err(MixedLineEndings) <==> Contains(Normalize(original), '\r'))
  {
    hide SplitLines, Normalize, StartsWith, WalkPatch, Contains, BodyLines, LineEnding, EndsWith, Compose, ReplaceCRLF;
    SplitUnbroken(Normalize(patch));
    NormalizeNonempty(patch);
    NormalizeEmpty();
    LoneReturns(original);
    if PatchLines(patch).Ok? { WalkErrors(BodyLines(original), PatchLines(patch).value, START); }
  }

  /** A quarter of the lines, rounded up, but at least 20 and at most 200. */
  function Quarter(lines: nat): nat {
    var q := (lines + 3) / 4;
    if q < 20 then 20 else if q > 200 then 200 else q
  }

  /** The two refusals once every hunk has applied, and nothing else is refused then. */
  lemma RefusedByPolicy(original: string, patch: string, hunks: seq<Hunk>)
    requires !Contains(Normalize(original), '\r')
    requires PatchLines(patch).Ok? && ParseHunks(PatchLines(patch).value) == Some(hunks)
    requires Placed(BodyLines(original), hunks, 0, 0) && |hunks| <= 20
    ensures var a, d, r := AllInsertions(hunks), |AllRemovals(hunks)|, ApplyPatch(original, patch);
            var e := if a > d then a else d;
            if a == 0 && d == 0 then r == Err(NothingChanged)
            else if e > 200 || (e > 20 && 4 * e > |BodyLines(original)| + 3) then
              r == Err(OverAllowance(e, Quarter(|BodyLines(original)|)))
            else r.Ok?
  {
    hide SplitLines, Normalize, PatchLines, WalkPatch, Contains, ParseHunks, Placed, Substitute;
    hide BodyLines, LineEnding, EndsWith, Compose, ReplaceCRLF, Insertions, Removals;
    LoneReturns(original);
    WalkPatchRefines(BodyLines(original), PatchLines(patch).value, START);
  }

  // -------------------------------------------------------------- the headers

  /** `start` alone, or `start,count`; a count left out is one. */
  ghost predicate RangeText(text: string, start: nat, count: nat) {
    exists s, n :: RangeParts(text, start, count, s, n)
  }

  predicate RangeParts(text: string, start: nat, count: nat, s: string, n: string) {
    && s != "" && AllDecimals(s) && ParseNat(s) == start
    && ((n == "" && count == 1 && text == s)
        || (n != "" && AllDecimals(n) && ParseNat(n) == count && text == s + "," + n))
  }

  /** `@@ -old +new @@`, with nothing after it or a blank and anything. */
  ghost predicate HeaderText(line: string, h: Header) {
    exists before, after, tail :: HeaderParts(line, h, before, after, tail)
  }

  ghost predicate HeaderParts(line: string, h: Header, before: string, after: string, tail: string) {
    && line == "@@ -" + before + " +" + after + " @@" + tail
    && RangeText(before, h.oldStart, h.oldCount) && RangeText(after, h.newStart, h.newCount)
    && (tail == "" || tail[0] == ' ')
  }

  /** A run of digits is taken whole. */
  lemma TakesRun(digits: string, rest: string)
    requires digits != "" && AllDecimals(digits) && (rest == "" || !IsDecimal(rest[0]))
    ensures TakeNat(digits + rest) == Some(Taken(ParseNat(digits), rest))
  {
    hide IsDecimal, ParseNat, DigitRun;
    DigitRunStops(digits, rest);
    assert (digits + rest)[..|digits|] == digits && (digits + rest)[|digits|..] == rest;
  }

  lemma RunTaken(s: string) returns (digits: string)
    ensures TakeNat(s).Some? ==>
              && s == digits + TakeNat(s).value.rest && digits != ""
              && AllDecimals(digits) && ParseNat(digits) == TakeNat(s).value.value
  {
    hide IsDecimal, ParseNat;
    digits := s[..DigitRun(s)];
  }

  lemma TakesRange(text: string, start: nat, count: nat, rest: string)
    requires RangeText(text, start, count) && rest != "" && rest[0] == ' '
    ensures TakeRange(text + rest) == Some(Range(start, count, rest))
  {
    hide TakeNat, ParseNat, AllDecimals, IsDecimal;
    DecimalsInAscii(' ');
    DecimalsInAscii(',');
    var s, n :| RangeParts(text, start, count, s, n);
    if n == "" {
      TakesRun(s, rest);
    } else {
      var more := "," + (n + rest);
      assert text + rest == s + more && more[1..] == n + rest;
      TakesRun(s, more);
      TakesRun(n, rest);
    }
  }

  lemma RangeTaken(s: string) returns (text: string)
    ensures TakeRange(s).Some? ==>
              s == text + TakeRange(s).value.rest && RangeText(text, TakeRange(s).value.start, TakeRange(s).value.count)
  {
    hide TakeNat, ParseNat, AllDecimals, IsDecimal;
    text := "";
    if TakeRange(s).Some? {
      var first := RunTaken(s);
      var start := TakeNat(s).value;
      text := first;
      if start.rest != "" && start.rest[0] == ',' && TakeNat(start.rest[1..]).Some? {
        var n := RunTaken(start.rest[1..]);
        text := first + "," + n;
        assert RangeParts(text, start.value, TakeRange(s).value.count, first, n);
        assert start.rest == "," + start.rest[1..];
        assert s == text + TakeRange(s).value.rest;
      } else {
        assert RangeParts(text, start.value, 1, first, "");
      }
    }
  }

  /** The applier reads a line as a header exactly when it is one of that form, with those numbers. */
  lemma HeaderReadsExactly(line: string, h: Header)
    ensures ParseHeader(line) == Some(h) <==> HeaderText(line, h)
  {
    hide TakeRange, RangeText, StartsWith;
    if HeaderText(line, h) {
      var before, after, tail :| HeaderParts(line, h, before, after, tail);
      HeaderReads(before, after, tail, h);
    }
    if ParseHeader(line) == Some(h) { HeaderIsRead(line, h); }
  }

  lemma HeaderReads(before: string, after: string, tail: string, h: Header)
    requires RangeText(before, h.oldStart, h.oldCount) && RangeText(after, h.newStart, h.newCount)
    requires tail == "" || tail[0] == ' '
    ensures ParseHeader("@@ -" + before + " +" + after + " @@" + tail) == Some(h)
  {
    hide TakeRange, RangeText;
    var line := "@@ -" + before + " +" + after + " @@" + tail;
    var second, last := " +" + (after + (" @@" + tail)), " @@" + tail;
    assert line == "@@ -" + (before + second) && line[..4] == "@@ -" && line[4..] == before + second;
    TakesRange(before, h.oldStart, h.oldCount, second);
    assert second[..2] == " +" && second[2..] == after + last;
    TakesRange(after, h.newStart, h.newCount, last);
    assert last[..3] == " @@" && last[3..] == tail;
  }

  lemma HeaderIsRead(line: string, h: Header)
    requires ParseHeader(line) == Some(h)
    ensures HeaderText(line, h)
  {
    hide TakeRange, RangeText;
    var before := RangeTaken(line[4..]);
    var first := TakeRange(line[4..]).value;
    var after := RangeTaken(first.rest[2..]);
    var second := TakeRange(first.rest[2..]).value;
    var tail := second.rest[3..];
    assert line == "@@ -" + line[4..] && first.rest == " +" + first.rest[2..] && second.rest == " @@" + tail;
    assert HeaderParts(line, h, before, after, tail);
  }
}
