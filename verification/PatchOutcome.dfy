/**
  What an applied patch leaves behind: whether it can be undone by the same
  applier, and whether the body it produced still has the lines it computed.
 */
module PatchOutcome {
  import opened Wrappers
  import opened Lines
  import opened UnifiedDiff
  import opened PatchTheory
  import opened PatchText
  import opened PatchLaws
  import opened LineForm

  // ------------------------------------------------------------------ undoing

  /** The patch that swaps "+" with "-" and each header's two ranges. */
  function ReversePatch(hunks: seq<Hunk>): seq<string> {
    RenderHunks(FlipAll(hunks))
  }

  /**
    An accepted patch is undone by its reverse exactly when every hunk leaves a
    line on its new side and the same extent fits the new body's allowance.
   */
  lemma ReverseRestores(original: seq<string>, hunks: seq<Hunk>)
    requires Accepts(original, hunks)
    ensures var output := Substitute(original, hunks, 0, 0);
            var r := ApplyLines(output, ReversePatch(hunks));
            && (r.Ok? <==> && KeepsNewSide(hunks)
                           && Extent(AllInsertions(hunks), |AllRemovals(hunks)|) <= Allowance(|output|))
            && (r.Ok? ==> r.value.output + output[r.value.cursor..] == original)
  {
    var output := Substitute(original, hunks, 0, 0);
    assert [] + output == output && original[0..] == original;
    FlipUndoes(original, hunks, 0, []);
    FlipSwapsCounts(hunks);
    ParseRendered(FlipAll(hunks));
    ApplyLinesMeans(output, ReversePatch(hunks));
    hide RenderHunks, FlipAll, KeepsNewSide, ApplyLines, Placed, ParseHunks, Allowance;
  }

  /** A one-line note and the accepted patch that empties it: the reverse is refused. */
  lemma EmptyingCannotBeReversed()
    ensures var hunks := [Hunk(Header(1, 1, 0, 0), [Drop("gone")])];
            Accepts(["gone"], hunks) && Substitute(["gone"], hunks, 0, 0) == []
            && ApplyLines([], ReversePatch(hunks)).Err?
  {
    var hunks := [Hunk(Header(1, 1, 0, 0), [Drop("gone")])];
    var edits := [Drop("gone")];
    assert edits[1..] == [] && hunks[1..] == [];
    assert OldSide(edits) == ["gone"] && NewSide(edits) == [];
    assert Removals(edits, 0) == [RemovedLine(1, "gone")] && Insertions(edits) == 0;
    assert ["gone"][0..1] == ["gone"];
    ReverseRestores(["gone"], hunks);
  }

  // ----------------------------------------------------------- reading it back

  lemma {:induction false} ParsedEditsUnbroken(lines: seq<string>)
    requires AllUnbroken(lines) && ParseEdits(lines).Some?
    ensures UnbrokenEdits(ParseEdits(lines).value.edits) && AllUnbroken(ParseEdits(lines).value.rest)
  {
    if !EndsHunk(lines) {
      assert Unbroken(lines[0]) && AllUnbroken(lines[1..]);
      ParsedEditsUnbroken(lines[1..]);
      var edit := ParseEdit(lines[0]).value;
      assert forall i :: 0 <= i < |edit.text| ==> edit.text[i] == lines[0][i + 1];
    }
  }

  lemma {:induction false} ParsedHunksUnbroken(lines: seq<string>)
    requires AllUnbroken(lines) && ParseHunks(lines).Some?
    ensures UnbrokenHunks(ParseHunks(lines).value)
    decreases |lines|
  {
    hide ParseHeader, ParseEdits;
    if lines != [] {
      assert AllUnbroken(lines[1..]);
      ParsedEditsUnbroken(lines[1..]);
      ParsedHunksUnbroken(ParseEdits(lines[1..]).value.rest);
    }
  }

  lemma {:induction false} NewSideUnbroken(edits: seq<Edit>)
    requires UnbrokenEdits(edits)
    ensures AllUnbroken(NewSide(edits))
  {
    if edits != [] { NewSideUnbroken(edits[1..]); }
  }

  lemma {:induction false} SubstituteUnbroken(original: seq<string>, hunks: seq<Hunk>, cursor: nat, filled: nat)
    requires cursor <= |original| && Placed(original, hunks, cursor, filled)
    requires AllUnbroken(original) && UnbrokenHunks(hunks)
    ensures AllUnbroken(Substitute(original, hunks, cursor, filled))
  {
    if hunks != [] {
      SubstituteStep(original, hunks, cursor, filled);
      var h := hunks[0].header;
      assert UnbrokenEdits(hunks[0].edits) && UnbrokenHunks(hunks[1..]);
      NewSideUnbroken(hunks[0].edits);
      hide NewSide, HunkPlaced, Placed;
      SubstituteUnbroken(
        original, hunks[1..], h.oldStart - 1 + h.oldCount, filled + (h.oldStart - 1 - cursor) + h.newCount);
    }
  }

  /**
    The returned body splits back into the computed lines exactly when composing
    them lost nothing: a newline-terminated note must keep a line, and any other
    must not end in an empty one.
   */
  lemma ResultReadsBack(original: string, patch: string, hunks: seq<Hunk>)
    requires Applies(original, patch, hunks)
    ensures var output := Substitute(BodyLines(original), hunks, 0, 0);
            && ApplyPatch(original, patch).Ok?
            && (BodyLines(ApplyPatch(original, patch).value.body) == output
                <==> Recoverable(output, EndsWith(original, LineEnding(original))))
  {
    ApplyPatchMeans(original, patch);
    var output := Substitute(BodyLines(original), hunks, 0, 0);
    PatchLinesUnbroken(patch);
    ParsedHunksUnbroken(PatchLines(patch).value);
    SplitUnbroken(Normalize(original));
    SubstituteUnbroken(BodyLines(original), hunks, 0, 0);
    assert LineEnding(original) == "\n" || LineEnding(original) == "\r\n";
    assert ApplyPatch(original, patch).value.body
           == Compose(LineEnding(original), output, EndsWith(original, LineEnding(original)));
    hide *;
    ComposedReadsBack(output, LineEnding(original), EndsWith(original, LineEnding(original)));
  }

  lemma PatchLinesUnbroken(patch: string)
    requires PatchLines(patch).Ok?
    ensures AllUnbroken(PatchLines(patch).value)
  {
    SplitUnbroken(Normalize(patch));
  }

  lemma ComposedReadsBack(lines: seq<string>, ending: string, kept: bool)
    requires AllUnbroken(lines) && (ending == "\n" || ending == "\r\n")
    ensures BodyLines(Compose(ending, lines, kept)) == lines <==> Recoverable(lines, kept)
  {
    SplitCompose(lines, kept);
    NormalizeCompose(lines, kept);
    var text := Compose("\n", lines, kept);
    ComposeLFOnly(lines, kept);
    assert !Contains(text, '\r') by {
      forall i | 0 <= i < |text| ensures text[i] != '\r' { assert IsBreak('\r'); }
    }
    NormalizeIdentity(text);
  }

  // ------------------------------------------------------ undoing it, as text

  /** The reverse as the text of a patch. */
  function ReverseText(hunks: seq<Hunk>): string {
    Join("\n", ReversePatch(hunks))
  }

  lemma {:induction false} FlipUnbroken(edits: seq<Edit>)
    requires UnbrokenEdits(edits)
    ensures UnbrokenEdits(FlipEdits(edits))
  {
    if edits != [] {
      assert Unbroken(edits[0].text) && UnbrokenEdits(edits[1..]);
      FlipUnbroken(edits[1..]);
    }
  }

  lemma {:induction false} FlipAllUnbroken(hunks: seq<Hunk>)
    requires UnbrokenHunks(hunks)
    ensures UnbrokenHunks(FlipAll(hunks))
  {
    if hunks != [] {
      assert UnbrokenEdits(hunks[0].edits) && UnbrokenHunks(hunks[1..]);
      FlipUnbroken(hunks[0].edits);
      FlipAllUnbroken(hunks[1..]);
    }
  }

  /** The applier reads the reverse patch as the flipped hunks, when it is not too long. */
  lemma ReverseReads(hunks: seq<Hunk>)
    requires hunks != [] && UnbrokenHunks(hunks)
    ensures var lines := PatchLines(ReverseText(hunks));
            if |ReverseText(hunks)| <= MAX_BODY_DIFF_CHARS then lines == Ok(ReversePatch(hunks)) else lines.Err?
  {
    FlipAllUnbroken(hunks);
    RenderedHunksSolid(FlipAll(hunks));
    var lines, flipped := ReversePatch(hunks), FlipAll(hunks);
    assert lines[0] == RenderHeader(flipped[0].header);
    assert !StartsWith(lines[0], "--- ") by { StartsWithHead(lines[0], "--- "); }
    if |ReverseText(hunks)| <= MAX_BODY_DIFF_CHARS { PatchLinesOfJoin(lines); }
    hide UnbrokenHunks, RenderHunks, FlipAll, SolidLines, StartsWith, RenderHeader;
  }

  /**
    An accepted patch whose result reads back is undone, as text, by its reverse
    exactly when the reverse is not too long and its lines are accepted, and the
    note comes back exactly when it has the result's line ending and final newline.
   */
  lemma ReverseTextRestores(original: string, patch: string, hunks: seq<Hunk>)
    requires Applies(original, patch, hunks)
    requires Recoverable(Substitute(BodyLines(original), hunks, 0, 0), EndsWith(original, LineEnding(original)))
    ensures ApplyPatch(original, patch).Ok?
    ensures var output, result := Substitute(BodyLines(original), hunks, 0, 0), ApplyPatch(original, patch).value.body;
            var r := ApplyPatch(result, ReverseText(hunks));
            && (r.Ok? <==> && |ReverseText(hunks)| <= MAX_BODY_DIFF_CHARS && KeepsNewSide(hunks)
                           && Extent(AllInsertions(hunks), |AllRemovals(hunks)|) <= Allowance(|output|))
            && (r.Ok? ==> && r.value.body == Rejoined(result, original)
                          && (r.value.body == original <==> InBodysForm(result, original)))
  {
    ResultReadsBack(original, patch, hunks);
    var output, result := Substitute(BodyLines(original), hunks, 0, 0), ApplyPatch(original, patch).value.body;
    assert BodyLines(result) == output;
    PatchLinesUnbroken(patch);
    ParsedHunksUnbroken(PatchLines(patch).value);
    ReverseReads(hunks);
    ResultHasNoReturn(original, patch, hunks);
    ApplyPatchRefines(result, ReverseText(hunks));
    ReverseRestores(BodyLines(original), hunks);
    ApplyLinesMeans(output, ReversePatch(hunks));
    Reproduces(original, LineEnding(result), EndsWith(result, LineEnding(result)));
  }

  lemma ResultHasNoReturn(original: string, patch: string, hunks: seq<Hunk>)
    requires Applies(original, patch, hunks)
    ensures ApplyPatch(original, patch).Ok?
    ensures !Contains(ReplaceCRLF(ApplyPatch(original, patch).value.body, ""), '\r')
  {
    ApplyPatchMeans(original, patch);
    var output := Substitute(BodyLines(original), hunks, 0, 0);
    PatchLinesUnbroken(patch);
    ParsedHunksUnbroken(PatchLines(patch).value);
    SplitUnbroken(Normalize(original));
    SubstituteUnbroken(BodyLines(original), hunks, 0, 0);
    var kept, result := EndsWith(original, LineEnding(original)), ApplyPatch(original, patch).value.body;
    NormalizeCompose(output, kept);
    ComposeLFOnly(output, kept);
    LFOnlyHasNoReturn(Compose("\n", output, kept));
    NormalizeIdentity(Compose("\n", output, kept));
    LoneReturns(result);
  }
}
