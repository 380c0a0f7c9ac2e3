/**
  Hunks written out as unified-diff text, in the form `difflib.unified_diff`
  writes them, and read back by the applier's own grammar.
 */
module PatchText {
  import opened Wrappers
  import opened Lines
  import opened Decimal
  import opened UnifiedDiff
  import opened PatchTheory

  /** A count of 1 is omitted. */
  function RenderRange(start: nat, count: nat): string {
    if count == 1 then Digits(start) else Digits(start) + "," + Digits(count)
  }

  function RenderHeader(h: Header): string {
    "@@ -" + RenderRange(h.oldStart, h.oldCount) + " +" + RenderRange(h.newStart, h.newCount) + " @@"
  }

  function RenderEdit(e: Edit): string {
    match e
    case Keep(t) => " " + t
    case Drop(t) => "-" + t
    case Insert(t) => "+" + t
  }

  function RenderEdits(edits: seq<Edit>): seq<string> {
    if edits == [] then [] else [RenderEdit(edits[0])] + RenderEdits(edits[1..])
  }

  function RenderHunks(hunks: seq<Hunk>): seq<string> {
    if hunks == [] then []
    else [RenderHeader(hunks[0].header)] + RenderEdits(hunks[0].edits) + RenderHunks(hunks[1..])
  }

  // ------------------------------------------------------- reading it back

  lemma TakeRendered(start: nat, count: nat, rest: string)
    requires rest != "" && !IsDecimal(rest[0]) && rest[0] != ','
    ensures TakeRange(RenderRange(start, count) + rest) == Some(Range(start, count, rest))
  {
    if count == 1 {
      TakeDigits(start, rest);
    } else {
      var tail := "," + (Digits(count) + rest);
      DecimalsInAscii(',');
      assert RenderRange(start, count) + rest == Digits(start) + tail;
      TakeDigits(start, tail);
      assert tail[1..] == Digits(count) + rest;
      TakeDigits(count, rest);
    }
  }

  lemma ParseRenderedHeader(h: Header)
    ensures ParseHeader(RenderHeader(h)) == Some(h)
  {
    hide RenderRange, TakeRange;
    var line := RenderHeader(h);
    var tail := RenderRange(h.newStart, h.newCount) + " @@";
    assert line[..4] == "@@ -" && line[4..] == RenderRange(h.oldStart, h.oldCount) + (" +" + tail);
    TakeRendered(h.oldStart, h.oldCount, " +" + tail);
    assert (" +" + tail)[..2] == " +" && (" +" + tail)[2..] == tail;
    TakeRendered(h.newStart, h.newCount, " @@");
  }

  lemma RenderedEditIsNoHeader(e: Edit)
    ensures !StartsWith(RenderEdit(e), "@@ ") && ParseEdit(RenderEdit(e)) == Some(e)
  {
    assert RenderEdit(e)[1..] == e.text;
    StartsWithHead(RenderEdit(e), "@@ ");
  }

  lemma {:induction false} ParseRenderedEdits(edits: seq<Edit>, rest: seq<string>)
    requires EndsHunk(rest)
    ensures ParseEdits(RenderEdits(edits) + rest) == Some(ParsedEdits(edits, rest))
  {
    var lines := RenderEdits(edits) + rest;
    if edits == [] {
      assert lines == rest;
    } else {
      RenderedEditIsNoHeader(edits[0]);
      assert lines[1..] == RenderEdits(edits[1..]) + rest;
      ParseRenderedEdits(edits[1..], rest);
      assert [edits[0]] + edits[1..] == edits;
    }
  }

  lemma RenderedHunksEndHunk(hunks: seq<Hunk>)
    ensures EndsHunk(RenderHunks(hunks))
  {
    if hunks != [] {
      var line := RenderHeader(hunks[0].header);
      assert line[..3] == "@@ ";
    }
  }

  /** Whatever hunks are rendered, the applier's grammar reads exactly those hunks. */
  lemma {:induction false} ParseRendered(hunks: seq<Hunk>)
    ensures ParseHunks(RenderHunks(hunks)) == Some(hunks)
  {
    hide ParseHeader, RenderHeader;
    if hunks != [] {
      RenderedHunksEndHunk(hunks[1..]);
      ParseRendered(hunks[1..]);
      ParseRenderedHeader(hunks[0].header);
      ParseHunkLines(RenderHeader(hunks[0].header), hunks[0], RenderHunks(hunks[1..]));
      assert [hunks[0]] + hunks[1..] == hunks;
    }
  }

  lemma ParseHunkLines(line: string, hunk: Hunk, rest: seq<string>)
    requires ParseHeader(line) == Some(hunk.header) && EndsHunk(rest) && ParseHunks(rest).Some?
    ensures ParseHunks([line] + RenderEdits(hunk.edits) + rest) == Some([hunk] + ParseHunks(rest).value)
  {
    hide ParseHeader, RenderEdits, ParseHunks, ParseEdits;
    var lines := [line] + RenderEdits(hunk.edits) + rest;
    assert lines[1..] == RenderEdits(hunk.edits) + rest;
    ParseRenderedEdits(hunk.edits, rest);
    ParseHunksUnfolds(lines, hunk.header, ParsedEdits(hunk.edits, rest));
  }

  lemma ParseHunksUnfolds(lines: seq<string>, header: Header, parsed: ParsedEdits)
    requires lines != [] && ParseHeader(lines[0]) == Some(header) && ParseEdits(lines[1..]) == Some(parsed)
    requires ParseHunks(parsed.rest).Some?
    ensures ParseHunks(lines) == Some([Hunk(header, parsed.edits)] + ParseHunks(parsed.rest).value)
  {
    hide ParseHeader, ParseEdits;
  }

  // ------------------------------------------------------------ as one text

  predicate UnbrokenEdits(edits: seq<Edit>) {
    forall i :: 0 <= i < |edits| ==> Unbroken(edits[i].text)
  }

  predicate UnbrokenHunks(hunks: seq<Hunk>) {
    forall i :: 0 <= i < |hunks| ==> UnbrokenEdits(hunks[i].edits)
  }

  /** A line of patch text: unbroken and not empty. */
  predicate SolidLines(lines: seq<string>) {
    forall i :: 0 <= i < |lines| ==> lines[i] != "" && Unbroken(lines[i])
  }

  lemma {:induction false} RenderedEditsSolid(edits: seq<Edit>)
    requires UnbrokenEdits(edits)
    ensures SolidLines(RenderEdits(edits))
  {
    if edits != [] {
      RenderedEditsSolid(edits[1..]);
      assert Unbroken(edits[0].text);
    }
  }

  lemma DigitsUnbroken(s: string)
    requires AllDigits(s)
    ensures Unbroken(s)
  {
    forall i | 0 <= i < |s| ensures !IsBreak(s[i]) { assert IsDigit(s[i]); }
  }

  lemma RenderedHeaderSolid(h: Header)
    ensures RenderHeader(h) != "" && Unbroken(RenderHeader(h))
  {
    RenderedRangeUnbroken(h.oldStart, h.oldCount);
    RenderedRangeUnbroken(h.newStart, h.newCount);
  }

  lemma RenderedRangeUnbroken(start: nat, count: nat)
    ensures Unbroken(RenderRange(start, count))
  {
    DigitsUnbroken(Digits(start));
    DigitsUnbroken(Digits(count));
  }

  lemma {:induction false} RenderedHunksSolid(hunks: seq<Hunk>)
    requires UnbrokenHunks(hunks)
    ensures SolidLines(RenderHunks(hunks))
  {
    if hunks != [] {
      RenderedHeaderSolid(hunks[0].header);
      RenderedEditsSolid(hunks[0].edits);
      RenderedHunksSolid(hunks[1..]);
    }
  }

  /** Joining solid lines with "\n" and reading the patch gives the lines back. */
  lemma PatchLinesOfJoin(lines: seq<string>)
    requires lines != [] && SolidLines(lines)
    requires |Join("\n", lines)| <= MAX_BODY_DIFF_CHARS
    ensures PatchLines(Join("\n", lines)) == SkipFileHeader(lines)
  {
    var patch := Join("\n", lines);
    assert patch == Compose("\n", lines, false);
    ComposeLFOnly(lines, false);
    assert !Contains(patch, '\r') by {
      forall i | 0 <= i < |patch| ensures patch[i] != '\r' { assert IsBreak('\r'); }
    }
    NormalizeIdentity(patch);
    SplitCompose(lines, false);
  }
}
