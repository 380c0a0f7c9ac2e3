/**
  What the span editor's self-check can and cannot catch: the diff it stores is
  applied back before it is stored, and this module says exactly when that fails.
 */
module SpanGuarantee {
  import opened Wrappers
  import opened Lines
  import opened Decimal
  import opened UnifiedDiff
  import opened LineForm
  import opened PatchTheory
  import opened PatchText
  import opened Difflib
  import opened BodyChange
  import opened SpanEdit

  // --------------------------------------------------- a diff is solid text

  lemma {:induction false} PlainUnbroken(lines: seq<string>)
    requires AllUnbroken(lines)
    ensures UnbrokenEdits(Keeps(lines)) && UnbrokenEdits(Drops(lines)) && UnbrokenEdits(Inserts(lines))
  {
    if lines != [] {
      assert AllUnbroken(lines[1..]);
      PlainUnbroken(lines[1..]);
    }
  }

  lemma SliceUnbroken(lines: seq<string>, i: nat, j: nat)
    requires AllUnbroken(lines)
    ensures AllUnbroken(Slice(lines, i, j))
  {
  }

  lemma CodeUnbroken(a: seq<string>, b: seq<string>, c: Opcode)
    requires AllUnbroken(a) && AllUnbroken(b)
    ensures UnbrokenEdits(EditsOfCode(a, b, c))
  {
    SliceUnbroken(a, c.i1, c.i2);
    SliceUnbroken(b, c.j1, c.j2);
    PlainUnbroken(Slice(a, c.i1, c.i2));
    PlainUnbroken(Slice(b, c.j1, c.j2));
  }

  lemma {:induction false} EditsUnbroken(a: seq<string>, b: seq<string>, codes: seq<Opcode>)
    requires AllUnbroken(a) && AllUnbroken(b)
    ensures UnbrokenEdits(EditsOf(a, b, codes))
  {
    if codes != [] {
      CodeUnbroken(a, b, codes[0]);
      EditsUnbroken(a, b, codes[1..]);
    }
  }

  lemma {:induction false} HunksUnbroken(a: seq<string>, b: seq<string>, codes: seq<Opcode>, group: seq<Opcode>)
    requires AllUnbroken(a) && AllUnbroken(b)
    ensures UnbrokenHunks(Hunks(a, b, codes, group))
    decreases |codes|
  {
    if codes == [] {
      EditsUnbroken(a, b, group);
    } else if LongRun(codes[0]) {
      EditsUnbroken(a, b, group + [KeepStart(codes[0])]);
      HunksUnbroken(a, b, codes[1..], [KeepEnd(codes[0])]);
    } else {
      HunksUnbroken(a, b, codes[1..], group + [codes[0]]);
    }
  }

  lemma FileHeaderSolid()
    ensures SolidLines(["--- current-body", "+++ proposed-body"])
    ensures StartsWith("--- current-body", "--- ") && StartsWith("+++ proposed-body", "+++ ")
  {
  }

  /** The applier reads a rendered diff as exactly the hunks that were rendered. */
  lemma DiffTextReads(a: seq<string>, b: seq<string>, codes: seq<Opcode>)
    requires AllUnbroken(a) && AllUnbroken(b)
    requires DiffHunks(a, b, codes) != [] && |DiffText(a, b, codes)| <= MAX_BODY_DIFF_CHARS
    ensures PatchLines(DiffText(a, b, codes)) == Ok(RenderHunks(DiffHunks(a, b, codes)))
  {
    var hunks := DiffHunks(a, b, codes);
    HunksUnbroken(a, b, TrimLast(TrimFirst(codes)), []);
    RenderedHunksSolid(hunks);
    FileHeaderSolid();
    var lines := DiffLines(a, b, codes);
    assert lines[2..] == RenderHunks(hunks);
    assert SolidLines(lines);
    PatchLinesOfJoin(lines);
  }

  // ------------------------------------------------- applying a rendered diff

  /** The hunks `unified_diff` renders between two bodies. */
  function BodyHunks(body: string, updated: string, matcher: Matcher): seq<Hunk> {
    DiffHunks(BodyLines(body), BodyLines(updated), matcher(BodyLines(body), BodyLines(updated)))
  }

  /** Checkable before the call: the diff is small enough and changes little enough. */
  predicate WithinLimits(body: string, updated: string, matcher: Matcher) {
    && BodyHunks(body, updated, matcher) != []
    && |BodyDiff(body, updated, matcher)| <= MAX_BODY_DIFF_CHARS
    && WithinPolicy(|BodyLines(body)|, BodyHunks(body, updated, matcher))
  }

  lemma EmptyDiffRefused(body: string, updated: string, matcher: Matcher)
    requires BodyHunks(body, updated, matcher) == []
    ensures ApplyPatch(body, BodyDiff(body, updated, matcher)).Err?
  {
    assert BodyDiff(body, updated, matcher) == "";
    assert PatchLines("") == Err(EmptyPatch);
  }

  /** Nothing can be applied to an empty body. */
  lemma EmptyBodyRefused(updated: string, matcher: Matcher)
    requires ValidMatcher(matcher)
    ensures ApplyPatch("", BodyDiff("", updated, matcher)).Err?
  {
    var b := BodyLines(updated);
    var codes, hunks, diff := matcher([], b), BodyHunks("", updated, matcher), BodyDiff("", updated, matcher);
    SplitUnbroken(Normalize(updated));
    ApplyPatchRefines("", diff);
    if b == [] {
      assert codes == [];
      EmptyDiffRefused("", updated, matcher);
    } else if hunks == [] {
      EmptyDiffRefused("", updated, matcher);
    } else if |diff| <= MAX_BODY_DIFF_CHARS {
      DiffTextReads([], b, codes);
      ParseRendered(hunks);
      DiffOfEmptyNotPlaced(b, codes);
    }
    hide RenderHunks, ParseHunks, Hunks, SplitLines, Placed;
  }

  lemma LoneReturnRefused(body: string, diff: string)
    requires Contains(Normalize(body), '\r')
    ensures ApplyPatch(body, diff).Err?
  {
    LoneReturns(body);
    ApplyPatchRefines(body, diff);
  }

  /**
    The round trip, on text: a rendered diff applies exactly when the limits hold
    and the body is not empty and has no lone carriage return, and then yields the
    updated lines rejoined with the body's ending and final newline.
   */
  lemma RenderedDiffApplies(body: string, updated: string, matcher: Matcher)
    requires ValidMatcher(matcher)
    ensures var r := ApplyPatch(body, BodyDiff(body, updated, matcher));
            && (r.Ok? <==> body != "" && !Contains(Normalize(body), '\r') && WithinLimits(body, updated, matcher))
            && (r.Ok? ==> r.value.body == Rejoined(body, updated))
  {
    if Contains(Normalize(body), '\r') {
      LoneReturnRefused(body, BodyDiff(body, updated, matcher));
    } else if body == "" {
      EmptyBodyRefused(updated, matcher);
    } else {
      NormalizeNonempty(body);
      SplitUnbroken(Normalize(body));
      PlainDiffApplies(body, updated, matcher);
    }
    hide *;
  }

  lemma PlainDiffApplies(body: string, updated: string, matcher: Matcher)
    requires ValidMatcher(matcher) && BodyLines(body) != [] && !Contains(Normalize(body), '\r')
    ensures var r := ApplyPatch(body, BodyDiff(body, updated, matcher));
            && (r.Ok? <==> WithinLimits(body, updated, matcher))
            && (r.Ok? ==> r.value.body == Rejoined(body, updated))
  {
    var a, b := BodyLines(body), BodyLines(updated);
    var codes, hunks, diff := matcher(a, b), BodyHunks(body, updated, matcher), BodyDiff(body, updated, matcher);
    SplitUnbroken(Normalize(body));
    SplitUnbroken(Normalize(updated));
    LoneReturns(body);
    DiffRebuilds(a, b, codes);
    ApplyPatchRefines(body, diff);
    if hunks == [] {
      EmptyDiffRefused(body, updated, matcher);
    } else if |diff| <= MAX_BODY_DIFF_CHARS {
      DiffTextReads(a, b, codes);
      ParseRendered(hunks);
    }
  }

  // ----------------------------------------------------------- the self-check

  /**
    The self-check refuses a diff that applied exactly when the requested text is
    not written throughout with the body's line ending and final newline.
   */
  lemma StoreRefusesExactly(body: string, updated: string, matcher: Matcher)
    requires ValidMatcher(matcher)
    ensures StoreDiff(body, updated, matcher) == Err(DoesNotReproduce)
            <==> && EndsWith(body, "\n") == EndsWith(updated, "\n")
                 && body != "" && !Contains(Normalize(body), '\r') && WithinLimits(body, updated, matcher)
                 && !InBodysForm(body, updated)
  {
    RenderedDiffApplies(body, updated, matcher);
    assert LineEnding(body) == "\n" || LineEnding(body) == "\r\n";
    Reproduces(updated, LineEnding(body), EndsWith(body, LineEnding(body)));
    var r := ApplyPatch(body, BodyDiff(body, updated, matcher));
    hide ApplyPatch, WithinLimits, BodyDiff, LineEnding, Compose, Uses, EndsWith, Contains, Normalize;
  }

  /** Exactly when `span_edit_to_unified_diff` refuses by its self-check, for every input. */
  lemma SelfCheckFires(
      original: string, expected: string, replacement: string, occurrence: Option<int>, matcher: Matcher)
    requires ValidMatcher(matcher)
    ensures var edited, body := EditSpan(original, expected, replacement, occurrence), Normalize(original);
            SpanDiff(original, expected, replacement, occurrence, matcher) == Err(DoesNotReproduce)
            <==> && edited.Ok? && EndsWith(body, "\n") == EndsWith(edited.value, "\n")
                 && !Contains(Normalize(body), '\r') && WithinLimits(body, edited.value, matcher)
                 && !InBodysForm(body, edited.value)
  {
    var edited, body := EditSpan(original, expected, replacement, occurrence), Normalize(original);
    if edited.Ok? {
      StoreRefusesExactly(body, edited.value, matcher);
      var k := EditedText(original, expected, replacement, occurrence);
    } else {
      EditErrs(original, expected, replacement, occurrence);
    }
    hide StoreDiff, EditSpan, WithinLimits, EndsWith, Contains, InBodysForm, Normalize;
  }

  lemma EditErrs(original: string, expected: string, replacement: string, occurrence: Option<int>)
    ensures EditSpan(original, expected, replacement, occurrence) != Err(DoesNotReproduce)
  {
  }

  lemma SpliceLFOnly(body: string, k: nat, width: nat, replacement: string)
    requires k + width <= |body| && LFOnly(body) && LFOnly(replacement)
    ensures LFOnly(Spliced(body, k, width, replacement))
  {
    var s := Spliced(body, k, width, replacement);
    forall i | 0 <= i < |s| && IsBreak(s[i]) ensures s[i] == '\n' {
      if i < k {
        assert s[i] == body[i];
      } else if i < k + |replacement| {
        assert s[i] == replacement[i - k];
      } else {
        assert s[i] == body[i - |replacement| + width];
      }
    }
  }

  /** What a successful edit is: the normalized body with one span of it replaced. */
  lemma EditedText(original: string, expected: string, replacement: string, occurrence: Option<int>) returns (k: nat)
    requires EditSpan(original, expected, replacement, occurrence).Ok?
    ensures Normalize(original) != "" && !Contains(Normalize(replacement), '\r')
    ensures OccursAt(Normalize(original), Normalize(expected), k)
    ensures EditSpan(original, expected, replacement, occurrence)
            == Ok(Spliced(Normalize(original), k, |Normalize(expected)|, Normalize(replacement)))
  {
    NormalizeNonempty(expected);
    var offsets := Offsets(Normalize(original), Normalize(expected), 0);
    OffsetsExact(Normalize(original), Normalize(expected), 0);
    k := ChooseStart(offsets, occurrence).value;
  }

  /**
    For a body whose line endings are all "\n" or all "\r\n", and a replacement
    likewise, the last guard of `span_edit_to_unified_diff` can never fire, and
    the edit is stored exactly when it is found, leaves the final newline alone
    and stays within the diff limits.
   */
  lemma SelfCheckNeverFires(
      original: string, expected: string, replacement: string, occurrence: Option<int>, matcher: Matcher)
    requires ValidMatcher(matcher) && LFOnly(Normalize(original)) && LFOnly(Normalize(replacement))
    ensures SpanDiff(original, expected, replacement, occurrence, matcher) != Err(DoesNotReproduce)
    ensures var edited, body := EditSpan(original, expected, replacement, occurrence), Normalize(original);
            SpanDiff(original, expected, replacement, occurrence, matcher).Ok?
            <==> && edited.Ok? && EndsWith(body, "\n") == EndsWith(edited.value, "\n")
                 && WithinLimits(body, edited.value, matcher)
  {
    var edited, body := EditSpan(original, expected, replacement, occurrence), Normalize(original);
    if edited.Ok? {
      var k := EditedText(original, expected, replacement, occurrence);
      SpliceLFOnly(body, k, |Normalize(expected)|, Normalize(replacement));
      LFOnlyHasNoReturn(body);
      LFOnlyHasNoReturn(edited.value);
      StoreRefusesExactly(body, edited.value, matcher);
      NormalizeIdentity(body);
      SplitUnbroken(body);
      RenderedDiffApplies(body, edited.value, matcher);
      hide EditSpan, WithinLimits, BodyDiff, ApplyPatch, LFOnly;
    }
  }

  // ------------------------------------------------- applying it to the note

  /**
    Review applies the stored diff to the note itself, which may use "\r\n". It
    then gets the requested text in the note's own ending, except that a note whose
    last line ends in the other kind of separator loses that final newline.
   */
  lemma StoredDiffAppliesToNote(original: string, updated: string, matcher: Matcher)
    requires ValidMatcher(matcher) && original != "" && LFOnly(Normalize(original)) && LFOnly(updated)
    requires StoreDiff(Normalize(original), updated, matcher).Ok?
    ensures var r := ApplyPatch(original, StoreDiff(Normalize(original), updated, matcher).value);
            && r.Ok?
            && (if EndsWith(original, LineEnding(original)) == EndsWith(updated, "\n")
                then Normalize(r.value.body) == updated
                else Normalize(r.value.body) + "\n" == updated)
  {
    var body := Normalize(original);
    NormalizeNonempty(original);
    LFOnlyHasNoReturn(body);
    LFOnlyHasNoReturn(updated);
    NormalizeIdentity(body);
    NormalizeIdentity(updated);
    EndingNormalizes(original);
    assert BodyLines(original) == BodyLines(body) && BodyLines(updated) == SplitLines(updated);
    assert BodyDiff(original, updated, matcher) == BodyDiff(body, updated, matcher);
    assert WithinLimits(original, updated, matcher) == WithinLimits(body, updated, matcher);
    assert ApplyPatch(body, BodyDiff(body, updated, matcher)).Ok?;
    assert StoreDiff(body, updated, matcher).value == BodyDiff(body, updated, matcher);
    assert EndsWith(body, "\n") == EndsWith(updated, "\n");
    assert LineEnding(original) == "\n" || LineEnding(original) == "\r\n";
    assert Rejoined(original, updated)
           == Compose(LineEnding(original), SplitLines(updated), EndsWith(original, LineEnding(original)));
    hide *;
    RenderedDiffApplies(body, updated, matcher);
    RenderedDiffApplies(original, updated, matcher);
    RejoinedText(updated, LineEnding(original), EndsWith(original, LineEnding(original)));
  }

  /**
    Rejoining a text's lines with either ending gives the text back when the final
    newline is kept, and all but that newline when it is not.
   */
  lemma RejoinedText(text: string, ending: string, kept: bool)
    requires LFOnly(text) && (ending == "\n" || ending == "\r\n") && (kept ==> EndsWith(text, "\n"))
    ensures Normalize(Compose(ending, SplitLines(text), kept))
            + (if kept == EndsWith(text, "\n") then "" else "\n") == text
  {
    var lines := SplitLines(text);
    SplitUnbroken(text);
    NormalizeCompose(lines, kept);
    ComposeLFOnly(lines, kept);
    LFOnlyHasNoReturn(Compose("\n", lines, kept));
    NormalizeIdentity(Compose("\n", lines, kept));
    ComposeSplit(text);
  }

  // ------------------------------------------- a note that loses its newline

  /** A matcher that finds nothing in common. */
  function ReplaceWhole(a: seq<string>, b: seq<string>): seq<Opcode> {
    if a == [] && b == [] then []
    else if a == [] then [Opcode(Inserted, 0, 0, 0, |b|)]
    else if b == [] then [Opcode(Deleted, 0, |a|, 0, 0)]
    else [Opcode(Replaced, 0, |a|, 0, |b|)]
  }

  lemma ReplaceWholeIsValid()
    ensures ValidMatcher(ReplaceWhole)
  {
    forall a, b ensures ValidOpcodes(a, b, ReplaceWhole(a, b)) {
    }
  }

  const MIXED_NOTE := "a\r\nb\n"

  lemma TwoLinesSplit(x: string, y: string)
    requires Unbroken(x) && Unbroken(y)
    ensures SplitLines(x + "\n" + y + "\n") == [x, y]
  {
    hide SplitLines, Unbroken;
    SplitLine(x, y + "\n");
    SplitLine(y, "");
    assert y + "\n" + "" == y + "\n";
    assert x + "\n" + (y + "\n") == x + "\n" + y + "\n";
    SplitUnbroken("");
  }

  lemma MixedNoteReads()
    ensures Normalize(MIXED_NOTE) == "a\nb\n"
    ensures SplitLines("a\nb\n") == ["a", "b"] && SplitLines("a\nc\n") == ["a", "c"]
    ensures LineEnding(MIXED_NOTE) == "\r\n" && !EndsWith(MIXED_NOTE, "\r\n")
  {
    hide SplitLines, Normalize, EndsWith;
    NormalizeLine("a", "b\n");
    NormalizeIdentity("b\n");
    assert MIXED_NOTE == "a" + "\r\n" + "b\n" && "a\nb\n" == "a" + "\n" + "b\n";
    TwoLinesSplit("a", "b");
    TwoLinesSplit("a", "c");
    assert "a" + "\n" + "b" + "\n" == "a\nb\n" && "a" + "\n" + "c" + "\n" == "a\nc\n";
    assert MIXED_NOTE[1] == '\r' && MIXED_NOTE[2] == '\n';
    EndsWithCRLF(MIXED_NOTE);
  }

  lemma OnlyPlace()
    ensures OnlyAt("a\nb\n", "b", 2)
  {
    var body := "a\nb\n";
    assert body[2..3] == "b";
    forall j: nat | OccursAt(body, "b", j) ensures j == 2 { OccursChar(body, "b", j, 0); }
  }

  lemma MixedNoteEdited()
    ensures EditSpan(MIXED_NOTE, "b", "c", None) == Ok("a\nc\n")
  {
    hide EditSpan, Normalize, OccursAt, SplitLines, EndsWith, LineEnding;
    MixedNoteReads();
    NormalizeIdentity("b");
    NormalizeIdentity("c");
    var body := "a\nb\n";
    OnlyPlace();
    UnnumberedEditIsUnambiguous(MIXED_NOTE, "b", "c", 2);
    assert Spliced(body, 2, 1, "c") == "a\nc\n";
  }

  const MIXED_HUNK := Hunk(Header(1, 2, 1, 2), [Drop("a"), Drop("b"), Insert("a"), Insert("c")])

  lemma MixedNoteHunk()
    ensures DiffHunks(["a", "b"], ["a", "c"], ReplaceWhole(["a", "b"], ["a", "c"])) == [MIXED_HUNK]
  {
    var a, b, code := ["a", "b"], ["a", "c"], Opcode(Replaced, 0, 2, 0, 2);
    assert TrimLast(TrimFirst([code])) == [code] && [code][1..] == [] && [] + [code] == [code];
    assert a[0..2] == a && b[0..2] == b;
    assert a[1..] == ["b"] && b[1..] == ["c"] && ["b"][1..] == [] && ["c"][1..] == [];
    assert Drops(a) == [Drop("a"), Drop("b")] && Inserts(b) == [Insert("a"), Insert("c")];
    assert EditsOf(a, b, [code]) == EditsOfCode(a, b, code) + EditsOf(a, b, []) == MIXED_HUNK.edits;
    assert HunkOf(a, b, [code]) == MIXED_HUNK;
    assert Hunks(a, b, [code], []) == Hunks(a, b, [], [code]) == [MIXED_HUNK];
  }

  lemma MixedHunkCounts()
    ensures WithinPolicy(2, [MIXED_HUNK])
  {
    var edits := MIXED_HUNK.edits;
    assert edits[1..] == [Drop("b"), Insert("a"), Insert("c")] && edits[1..][1..] == [Insert("a"), Insert("c")];
    assert [Insert("a"), Insert("c")][1..] == [Insert("c")] && [Insert("c")][1..] == [];
    assert Insertions(edits) == 2 && |Removals(edits, 0)| == 2;
    assert [MIXED_HUNK][1..] == [];
  }

  lemma MixedHunkHeader()
    ensures RenderHeader(MIXED_HUNK.header) == "@@ -1,2 +1,2 @@"
  {
    assert Digits(1) == "1" && Digits(2) == "2";
    hide Digits;
    assert RenderRange(1, 2) == "1,2";
  }

  lemma {:induction false} EditsRendered(edits: seq<Edit>, k: nat)
    requires k < |edits|
    ensures |RenderEdits(edits)| == |edits| && RenderEdits(edits)[k] == RenderEdit(edits[k])
  {
    hide RenderEdit;
    if |edits| > 1 { EditsRendered(edits[1..], if k == 0 then 0 else k - 1); }
  }

  lemma MixedHunkText()
    ensures RenderHunks([MIXED_HUNK]) == ["@@ -1,2 +1,2 @@", "-a", "-b", "+a", "+c"]
  {
    hide RenderHeader, RenderEdits;
    MixedHunkHeader();
    var edits := MIXED_HUNK.edits;
    EditsRendered(edits, 0);
    EditsRendered(edits, 1);
    EditsRendered(edits, 2);
    EditsRendered(edits, 3);
    assert RenderEdit(edits[0]) == "-a" && RenderEdit(edits[1]) == "-b";
    assert RenderEdit(edits[2]) == "+a" && RenderEdit(edits[3]) == "+c";
    assert RenderEdits(edits) == ["-a", "-b", "+a", "+c"];
    assert [MIXED_HUNK][1..] == [];
  }

  lemma {:induction false} ShortLinesJoin(lines: seq<string>)
    requires forall i :: 0 <= i < |lines| ==> |lines[i]| < 20
    ensures |Join("\n", lines)| <= 20 * |lines|
  {
    if |lines| > 1 { ShortLinesJoin(lines[1..]); }
  }

  lemma MixedDiffIsShort()
    ensures |DiffText(["a", "b"], ["a", "c"], ReplaceWhole(["a", "b"], ["a", "c"]))| <= MAX_BODY_DIFF_CHARS
  {
    hide DiffHunks, ReplaceWhole, RenderHunks, Join;
    MixedNoteHunk();
    MixedHunkText();
    var hunk := ["@@ -1,2 +1,2 @@", "-a", "-b", "+a", "+c"];
    ShortLinesJoin(["--- current-body", "+++ proposed-body"] + hunk);
  }

  lemma MixedNoteWithinLimits(text: string, updated: string)
    requires BodyLines(text) == ["a", "b"] && BodyLines(updated) == ["a", "c"]
    ensures WithinLimits(text, updated, ReplaceWhole)
  {
    hide DiffHunks, ReplaceWhole, WithinPolicy, DiffText, BodyLines;
    MixedNoteHunk();
    MixedHunkCounts();
    MixedDiffIsShort();
  }

  lemma MixedNoteRejoined()
    ensures BodyLines("a\nb\n") == ["a", "b"] && BodyLines("a\nc\n") == ["a", "c"]
    ensures Rejoined(MIXED_NOTE, "a\nc\n") == "a\r\nc"
  {
    hide SplitLines, Normalize, LineEnding, EndsWith;
    MixedNoteReads();
    NormalizeIdentity("a\nb\n");
    NormalizeIdentity("a\nc\n");
    assert ["a", "c"][1..] == ["c"];
  }

  /** A note in "\r\n" whose last line ends in a bare "\n": the stored diff, applied to it, drops that newline. */
  lemma MixedNoteLosesNewline()
    ensures ValidMatcher(ReplaceWhole)
    ensures var edit := SpanDiff(MIXED_NOTE, "b", "c", None, ReplaceWhole);
            && EditSpan(MIXED_NOTE, "b", "c", None) == Ok("a\nc\n") && edit.Ok?
            && ApplyPatch(MIXED_NOTE, edit.value).Ok?
            && ApplyPatch(MIXED_NOTE, edit.value).value.body == "a\r\nc"
  {
    hide SplitLines, Normalize, EditSpan, ReplaceWhole, WithinLimits, ApplyPatch, Rejoined, DiffText;
    ReplaceWholeIsValid();
    MixedNoteReads();
    MixedNoteEdited();
    MixedNoteRejoined();
    NormalizeIdentity("c");
    MixedNoteWithinLimits(MIXED_NOTE, "a\nc\n");
    MixedNoteWithinLimits("a\nb\n", "a\nc\n");
    EndsWithLF("a\nb\n");
    EndsWithLF("a\nc\n");
    SelfCheckNeverFires(MIXED_NOTE, "b", "c", None, ReplaceWhole);
    RenderedDiffApplies(MIXED_NOTE, "a\nc\n", ReplaceWhole);
  }
}
