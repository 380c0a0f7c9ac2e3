/**
  What a patch means, independently of how the applier walks it: hunks as data,
  where they have to sit, and the text they stand for. The applier is proved to
  accept exactly the well-placed patches and to compute exactly that text.
 */
module PatchTheory {
  import opened Wrappers
  import opened Lines
  import opened UnifiedDiff

  datatype Edit = Keep(text: string) | Drop(text: string) | Insert(text: string)

  datatype Hunk = Hunk(header: Header, edits: seq<Edit>)

  /** The lines a hunk expects to find. */
  function OldSide(edits: seq<Edit>): seq<string> {
    if edits == [] then []
    else (if edits[0].Insert? then [] else [edits[0].text]) + OldSide(edits[1..])
  }

  /** The lines a hunk leaves behind. */
  function NewSide(edits: seq<Edit>): seq<string> {
    if edits == [] then []
    else (if edits[0].Drop? then [] else [edits[0].text]) + NewSide(edits[1..])
  }

  function Insertions(edits: seq<Edit>): nat {
    if edits == [] then 0
    else (if edits[0].Insert? then 1 else 0) + Insertions(edits[1..])
  }

  /** The removals of a hunk whose first old line has index `at`. */
  function Removals(edits: seq<Edit>, at: nat): seq<RemovedLine> {
    if edits == [] then []
    else
      (if edits[0].Drop? then [RemovedLine(at + 1, edits[0].text)] else [])
      + Removals(edits[1..], if edits[0].Insert? then at else at + 1)
  }

  function AllInsertions(hunks: seq<Hunk>): nat {
    if hunks == [] then 0 else Insertions(hunks[0].edits) + AllInsertions(hunks[1..])
  }

  function AllRemovals(hunks: seq<Hunk>): seq<RemovedLine> {
    if hunks == [] then []
    else
      Removals(hunks[0].edits, if hunks[0].header.oldStart == 0 then 0 else hunks[0].header.oldStart - 1)
      + AllRemovals(hunks[1..])
  }

  /** `side` is what `original` holds from index `at` on. */
  predicate Matches(original: seq<string>, at: nat, side: seq<string>) {
    at + |side| <= |original| && original[at..at + |side|] == side
  }

  /** One hunk sits at or after `cursor`, when `filled` output lines precede the gap. */
  predicate HunkPlaced(original: seq<string>, hunk: Hunk, cursor: nat, filled: nat) {
    var h := hunk.header;
    && 1 <= h.oldStart && 1 <= h.oldCount
    && cursor <= h.oldStart - 1
    && Matches(original, h.oldStart - 1, OldSide(hunk.edits))
    && h.oldCount == |OldSide(hunk.edits)|
    && h.newCount == |NewSide(hunk.edits)|
    && h.newStart == filled + (h.oldStart - 1 - cursor) + (if h.newCount == 0 then 0 else 1)
  }

  /** Every hunk sits after the one before it, and its coordinates say so on both sides. */
  predicate Placed(original: seq<string>, hunks: seq<Hunk>, cursor: nat, filled: nat) {
    hunks == [] ||
    (var h := hunks[0].header;
     && HunkPlaced(original, hunks[0], cursor, filled)
     && Placed(original, hunks[1..], h.oldStart - 1 + h.oldCount, filled + (h.oldStart - 1 - cursor) + h.newCount))
  }

  /** The arithmetic of a placed hunk, without its text. */
  lemma HunkBounds(original: seq<string>, hunk: Hunk, cursor: nat, filled: nat)
    requires HunkPlaced(original, hunk, cursor, filled)
    ensures var h := hunk.header;
            && cursor <= h.oldStart - 1 && h.oldStart - 1 + h.oldCount <= |original|
            && 1 <= h.oldCount == |OldSide(hunk.edits)| && h.newCount == |NewSide(hunk.edits)|
            && Matches(original, h.oldStart - 1, OldSide(hunk.edits))
  {
  }

  /** Copy the gaps, substitute the hunks. */
  function Substitute(original: seq<string>, hunks: seq<Hunk>, cursor: nat, filled: nat): seq<string>
    requires cursor <= |original| && Placed(original, hunks, cursor, filled)
  {
    if hunks == [] then original[cursor..]
    else
      var h := hunks[0].header;
      original[cursor..h.oldStart - 1] + NewSide(hunks[0].edits)
      + Substitute(original, hunks[1..], h.oldStart - 1 + h.oldCount, filled + (h.oldStart - 1 - cursor) + h.newCount)
  }

  /** One step of a placed patch: the gap, the first hunk, and a placed remainder. */
  lemma PlacedStepFacts(original: seq<string>, hunks: seq<Hunk>, cursor: nat, filled: nat)
    requires cursor <= |original| && hunks != [] && Placed(original, hunks, cursor, filled)
    ensures var h := hunks[0].header;
            var start, next := h.oldStart - 1, h.oldStart - 1 + h.oldCount;
            var filled' := filled + (h.oldStart - 1 - cursor) + h.newCount;
            && cursor <= start < next <= |original|
            && h.oldCount == |OldSide(hunks[0].edits)| && h.newCount == |NewSide(hunks[0].edits)|
            && Matches(original, start, OldSide(hunks[0].edits))
            && original[start..next] == OldSide(hunks[0].edits)
            && Placed(original, hunks[1..], next, filled')
            && AllRemovals(hunks) == Removals(hunks[0].edits, start) + AllRemovals(hunks[1..])
            && AllInsertions(hunks) == Insertions(hunks[0].edits) + AllInsertions(hunks[1..])
  {
    HunkBounds(original, hunks[0], cursor, filled);
  }

  lemma SubstituteStep(original: seq<string>, hunks: seq<Hunk>, cursor: nat, filled: nat)
    requires cursor <= |original| && hunks != [] && Placed(original, hunks, cursor, filled)
    ensures var h := hunks[0].header;
            var start, next := h.oldStart - 1, h.oldStart - 1 + h.oldCount;
            var filled' := filled + (h.oldStart - 1 - cursor) + h.newCount;
            && cursor <= start < next <= |original| && Placed(original, hunks[1..], next, filled')
            && Substitute(original, hunks, cursor, filled)
               == original[cursor..start] + NewSide(hunks[0].edits) + Substitute(original, hunks[1..], next, filled')
  {
    HunkBounds(original, hunks[0], cursor, filled);
  }

  // ------------------------------------------------------- patches as data

  function ParseEdit(line: string): Option<Edit> {
    if line == "" then None
    else if line[0] == ' ' then Some(Keep(line[1..]))
    else if line[0] == '-' then Some(Drop(line[1..]))
    else if line[0] == '+' then Some(Insert(line[1..]))
    else None
  }

  datatype ParsedEdits = ParsedEdits(edits: seq<Edit>, rest: seq<string>)

  function ParseEdits(lines: seq<string>): (r: Option<ParsedEdits>)
    ensures r.Some? ==> |r.value.rest| <= |lines|
  {
    if EndsHunk(lines) then Some(ParsedEdits([], lines))
    else
      match ParseEdit(lines[0])
      case None => None
      case Some(edit) =>
        match ParseEdits(lines[1..])
        case None => None
        case Some(more) => Some(ParsedEdits([edit] + more.edits, more.rest))
  }

  /** The hunks a patch spells out, whether or not they fit any body. */
  function ParseHunks(lines: seq<string>): Option<seq<Hunk>>
    decreases |lines|
  {
    if lines == [] then Some([])
    else
      match ParseHeader(lines[0])
      case None => None
      case Some(header) =>
        match ParseEdits(lines[1..])
        case None => None
        case Some(parsed) =>
          match ParseHunks(parsed.rest)
          case None => None
          case Some(more) => Some([Hunk(header, parsed.edits)] + more)
  }

  // ------------------------------------------------------------- refinement

  /** What walking `edits` does to the applier's variables. */
  function Advance(w: Walk, edits: seq<Edit>): Walk {
    Walk(w.source + |OldSide(edits)|,
         w.seenOld + |OldSide(edits)|,
         w.seenNew + |NewSide(edits)|,
         w.anchored || OldSide(edits) != [],
         w.output + NewSide(edits),
         w.removed + Removals(edits, w.source),
         w.additions + Insertions(edits))
  }

  lemma SingleEdit(edit: Edit, at: nat)
    ensures OldSide([edit]) == if edit.Insert? then [] else [edit.text]
    ensures NewSide([edit]) == if edit.Drop? then [] else [edit.text]
    ensures Removals([edit], at) == if edit.Drop? then [RemovedLine(at + 1, edit.text)] else []
    ensures Insertions([edit]) == if edit.Insert? then 1 else 0
  {
    assert [edit][1..] == [];
  }

  lemma MatchesOne(original: seq<string>, at: nat, text: string)
    requires at <= |original|
    ensures Matches(original, at, [text]) <==> at < |original| && original[at] == text
    ensures Matches(original, at, [])
  {
    if at < |original| {
      var found := original[at..at + 1];
      assert found[0] == original[at] && found == [found[0]];
    }
  }

  lemma StepRefines(original: seq<string>, line: string, w: Walk)
    requires w.source <= |original|
    ensures var step, edit := StepLine(original, line, w), ParseEdit(line);
            && (step.Ok? <==> edit.Some? && Matches(original, w.source, OldSide([edit.value])))
            && (step.Ok? ==> step.value == Advance(w, [edit.value]))
  {
    hide OldSide, NewSide, Removals, Insertions, Matches;
    var edit := ParseEdit(line);
    if edit.Some? {
      SingleEdit(edit.value, w.source);
      MatchesOne(original, w.source, edit.value.text);
    }
  }

  lemma SidesAppend(edit: Edit, more: seq<Edit>, at: nat)
    ensures OldSide([edit] + more) == OldSide([edit]) + OldSide(more)
    ensures NewSide([edit] + more) == NewSide([edit]) + NewSide(more)
    ensures Removals([edit] + more, at) == Removals([edit], at) + Removals(more, at + |OldSide([edit])|)
    ensures Insertions([edit] + more) == Insertions([edit]) + Insertions(more)
  {
    SingleEdit(edit, at);
    assert ([edit] + more)[1..] == more;
  }

  lemma AdvanceAppends(w: Walk, edit: Edit, more: seq<Edit>)
    ensures Advance(Advance(w, [edit]), more) == Advance(w, [edit] + more)
  {
    SidesAppend(edit, more, w.source);
    hide OldSide, NewSide, Removals, Insertions;
    var once, next := Advance(w, [edit]), w.source + |OldSide([edit])|;
    assert once.output + NewSide(more) == w.output + (NewSide([edit]) + NewSide(more));
    assert once.removed + Removals(more, next) == w.removed + (Removals([edit], w.source) + Removals(more, next));
  }

  lemma MatchesAppends(original: seq<string>, at: nat, head: seq<string>, tail: seq<string>)
    ensures Matches(original, at, head + tail)
            <==> Matches(original, at, head) && Matches(original, at + |head|, tail)
  {
    if at + |head| + |tail| <= |original| {
      var whole := original[at..at + |head| + |tail|];
      assert whole == original[at..at + |head|] + original[at + |head|..at + |head| + |tail|];
      assert whole[..|head|] == original[at..at + |head|];
      assert whole[|head|..] == original[at + |head|..at + |head| + |tail|];
      assert (head + tail)[..|head|] == head && (head + tail)[|head|..] == tail;
    }
  }

  lemma WalkHunkUnfolds(original: seq<string>, lines: seq<string>, w: Walk)
    requires w.source <= |original| && !EndsHunk(lines)
    ensures var step, edit, more := StepLine(original, lines[0], w), ParseEdit(lines[0]), ParseEdits(lines[1..]);
            && WalkHunk(original, lines, w)
               == (if step.Err? then Err(step.error) else WalkHunk(original, lines[1..], step.value))
            && ParseEdits(lines)
               == (if edit.Some? && more.Some?
                   then Some(ParsedEdits([edit.value] + more.value.edits, more.value.rest)) else None)
  {
    hide StepLine, ParseEdit;
  }

  lemma EmptyHunkRefines(original: seq<string>, lines: seq<string>, w: Walk)
    requires w.source <= |original| && EndsHunk(lines)
    ensures WalkHunk(original, lines, w) == Ok(HunkEnd(Advance(w, []), lines))
    ensures ParseEdits(lines) == Some(ParsedEdits([], lines)) && Matches(original, w.source, OldSide([]))
  {
    hide EndsHunk;
    assert original[w.source..w.source] == [];
    assert w.output + [] == w.output && w.removed + [] == w.removed;
    assert Advance(w, []) == w;
  }

  lemma AdvanceSource(w: Walk, edits: seq<Edit>)
    ensures Advance(w, edits).source == w.source + |OldSide(edits)|
  {
    hide OldSide, NewSide, Removals, Insertions;
  }

  /** Inside a hunk, the single pass succeeds exactly on prefixed lines that match the body. */
  lemma {:induction false} WalkHunkRefines(original: seq<string>, lines: seq<string>, w: Walk)
    requires w.source <= |original|
    ensures var walk, parsed := WalkHunk(original, lines, w), ParseEdits(lines);
            && (walk.Ok? <==> parsed.Some? && Matches(original, w.source, OldSide(parsed.value.edits)))
            && (walk.Ok? ==> walk.value == HunkEnd(Advance(w, parsed.value.edits), parsed.value.rest))
    decreases |lines|
  {
    hide WalkHunk, StepLine, ParseEdits, ParseEdit, Advance, Matches, OldSide, NewSide, Removals, Insertions;
    if EndsHunk(lines) {
      EmptyHunkRefines(original, lines, w);
    } else {
      StepRefines(original, lines[0], w);
      var edit, more := ParseEdit(lines[0]), ParseEdits(lines[1..]);
      var step := StepLine(original, lines[0], w);
      if edit.Some? && more.Some? {
        SidesAppend(edit.value, more.value.edits, w.source);
        MatchesAppends(original, w.source, OldSide([edit.value]), OldSide(more.value.edits));
      }
      if edit.Some? && more.Some? { AdvanceAppends(w, edit.value, more.value.edits); }
      if edit.Some? { AdvanceSource(w, [edit.value]); }
      WalkHunkUnfolds(original, lines, w);
      if step.Ok? { WalkHunkRefines(original, lines[1..], step.value); }
    }
  }

  /** The state after a placed hunk. */
  function AfterHunk(original: seq<string>, hunk: Hunk, p: Progress): Progress
    requires p.cursor <= |original| && HunkPlaced(original, hunk, p.cursor, |p.output|)
  {
    var start := hunk.header.oldStart - 1;
    Progress(start + hunk.header.oldCount,
             p.output + original[p.cursor..start] + NewSide(hunk.edits),
             p.removed + Removals(hunk.edits, start),
             p.additions + Insertions(hunk.edits),
             p.hunks + 1)
  }

  /** The checks before a hunk's first line, and the walk they start. */
  lemma OpensExactly(original: seq<string>, header: Header, p: Progress)
    requires p.cursor <= |original|
    ensures var entry, start := OpenHunk(original, header, p), header.oldStart - 1;
            && (entry.Ok? <==> && p.hunks + 1 <= MAX_BODY_DIFF_HUNKS && 1 <= header.oldStart && 1 <= header.oldCount
                               && p.cursor <= start <= |original|
                               && header.newStart
                                  == |p.output| + (start - p.cursor) + (if header.newCount == 0 then 0 else 1))
            && (entry.Ok? ==>
                  entry.value == Walk(start, 0, 0, false, p.output + original[p.cursor..start], p.removed, p.additions))
  {
  }

  lemma OneHunkRefines(original: seq<string>, header: Header, lines: seq<string>, p: Progress)
    requires p.cursor <= |original|
    ensures var walk, parsed := WalkOneHunk(original, header, lines, p), ParseEdits(lines);
            && (walk.Ok? <==> && parsed.Some? && p.hunks + 1 <= MAX_BODY_DIFF_HUNKS
                              && HunkPlaced(original, Hunk(header, parsed.value.edits), p.cursor, |p.output|))
            && (walk.Ok? ==>
                  walk.value == (AfterHunk(original, Hunk(header, parsed.value.edits), p), parsed.value.rest))
  {
    hide OldSide, NewSide, Removals, Insertions, OpenHunk, WalkHunk, ParseEdits;
    OpensExactly(original, header, p);
    var entry := OpenHunk(original, header, p);
    if entry.Ok? { WalkHunkRefines(original, lines, entry.value); }
  }

  /** The state `hunks` leave the single pass in, from `p`. */
  ghost predicate Substituted(original: seq<string>, hunks: seq<Hunk>, p: Progress, end: Progress)
    requires p.cursor <= |original|
  {
    && Placed(original, hunks, p.cursor, |p.output|)
    && end.cursor <= |original|
    && end.output + original[end.cursor..] == p.output + Substitute(original, hunks, p.cursor, |p.output|)
    && end.removed == p.removed + AllRemovals(hunks)
    && end.additions == p.additions + AllInsertions(hunks)
    && end.hunks == p.hunks + |hunks|
  }

  predicate FewEnough(hunks: seq<Hunk>, already: nat) {
    hunks == [] || already + |hunks| <= MAX_BODY_DIFF_HUNKS
  }

  /**
    The single pass accepts a patch exactly when it parses into few enough hunks
    that are all well placed, and then it has computed their substitution.
   */
  lemma {:induction false} WalkPatchRefines(original: seq<string>, lines: seq<string>, p: Progress)
    requires p.cursor <= |original|
    ensures var walk, parsed := WalkPatch(original, lines, p), ParseHunks(lines);
            && (walk.Ok? <==> && parsed.Some? && FewEnough(parsed.value, p.hunks)
                              && Placed(original, parsed.value, p.cursor, |p.output|))
            && (walk.Ok? ==> Substituted(original, parsed.value, p, walk.value))
    decreases |lines|
  {
    if lines == [] {
    } else {
      var header, parsed := ParseHeader(lines[0]), ParseEdits(lines[1..]);
      if header.Some? {
        OneHunkRefines(original, header.value, lines[1..], p);
        if parsed.Some? {
          var hunk := Hunk(header.value, parsed.value.edits);
          if FewEnough([hunk], p.hunks) && HunkPlaced(original, hunk, p.cursor, |p.output|) {
            WalkPatchRefines(original, parsed.value.rest, AfterHunk(original, hunk, p));
          }
          var more := ParseHunks(parsed.value.rest);
          if more.Some? {
            PlacedStep(original, hunk, more.value, p);
            if WalkPatch(original, lines, p).Ok? {
              SubstitutedStep(original, hunk, more.value, p, WalkPatch(original, lines, p).value);
            }
          }
        }
      }
    }
  }

  lemma PlacedStep(original: seq<string>, hunk: Hunk, more: seq<Hunk>, p: Progress)
    requires p.cursor <= |original|
    ensures Placed(original, [hunk] + more, p.cursor, |p.output|)
            <==> && HunkPlaced(original, hunk, p.cursor, |p.output|)
                 && Placed(original, more, AfterHunk(original, hunk, p).cursor, |AfterHunk(original, hunk, p).output|)
  {
    assert ([hunk] + more)[1..] == more;
  }

  lemma SubstitutedStep(original: seq<string>, hunk: Hunk, more: seq<Hunk>, p: Progress, end: Progress)
    requires p.cursor <= |original| && HunkPlaced(original, hunk, p.cursor, |p.output|)
    requires Substituted(original, more, AfterHunk(original, hunk, p), end)
    ensures Substituted(original, [hunk] + more, p, end)
  {
    hide OldSide, NewSide, Removals, Insertions, HunkPlaced, Matches, Placed, Substitute, AllRemovals, AllInsertions;
    var all, next := [hunk] + more, AfterHunk(original, hunk, p);
    PlacedStep(original, hunk, more, p);
    HunkBounds(original, hunk, p.cursor, |p.output|);
    assert all[0] == hunk && all[1..] == more;
    PlacedStepFacts(original, all, p.cursor, |p.output|);
    SubstituteStep(original, all, p.cursor, |p.output|);
    assert |next.output| == |p.output| + (hunk.header.oldStart - 1 - p.cursor) + hunk.header.newCount;
    var gap, new_ := original[p.cursor..hunk.header.oldStart - 1], NewSide(hunk.edits);
    var rest := Substitute(original, more, next.cursor, |next.output|);
    assert (p.output + gap + new_) + rest == p.output + (gap + new_ + rest);
    assert p.removed + Removals(hunk.edits, hunk.header.oldStart - 1) + AllRemovals(more)
           == p.removed + (Removals(hunk.edits, hunk.header.oldStart - 1) + AllRemovals(more));
  }

  /** The compact-diff policy: something changes, and not too much of the body. */
  predicate WithinPolicy(originalLines: nat, hunks: seq<Hunk>) {
    && |hunks| <= MAX_BODY_DIFF_HUNKS
    && 0 < Extent(AllInsertions(hunks), |AllRemovals(hunks)|) <= Allowance(originalLines)
  }

  /** The hunks of `patch`, when `original` takes them. */
  predicate Accepts(original: seq<string>, hunks: seq<Hunk>) {
    Placed(original, hunks, 0, 0) && WithinPolicy(|original|, hunks)
  }

  lemma ApplyLinesMeans(original: seq<string>, lines: seq<string>)
    ensures var r, parsed := ApplyLines(original, lines), ParseHunks(lines);
            && (r.Ok? <==> parsed.Some? && Accepts(original, parsed.value))
            && (r.Ok? ==> Substituted(original, parsed.value, START, r.value))
  {
    WalkPatchRefines(original, lines, START);
  }

  lemma ApplyPatchRefines(original: string, patch: string)
    ensures var r, lines := ApplyPatch(original, patch), PatchLines(patch);
            && (r.Ok? <==> && lines.Ok? && !Contains(ReplaceCRLF(original, ""), '\r')
                           && ParseHunks(lines.value).Some?
                           && Accepts(BodyLines(original), ParseHunks(lines.value).value))
            && (r.Ok? ==> var hunks, ending := ParseHunks(lines.value).value, LineEnding(original);
                          r.value == DiffResult(
                            Compose(ending, Substitute(BodyLines(original), hunks, 0, 0), EndsWith(original, ending)),
                            AllInsertions(hunks), AllRemovals(hunks), |hunks|))
  {
    var lines := PatchLines(patch);
    if lines.Ok? {
      var body := BodyLines(original);
      ApplyLinesMeans(body, lines.value);
      var r := ApplyLines(body, lines.value);
      if r.Ok? {
        assert r.value.output + body[r.value.cursor..] == Substitute(body, ParseHunks(lines.value).value, 0, 0);
      }
    }
  }

  /** `patch` spells out `hunks`, and the body takes them. */
  predicate Applies(original: string, patch: string, hunks: seq<Hunk>) {
    && !Contains(ReplaceCRLF(original, ""), '\r')
    && PatchLines(patch).Ok?
    && ParseHunks(PatchLines(patch).value) == Some(hunks)
    && Accepts(BodyLines(original), hunks)
  }

  /** Gaps copied, hunks substituted, rejoined with the body's own line ending. */
  function Outcome(original: string, hunks: seq<Hunk>): DiffResult
    requires Placed(BodyLines(original), hunks, 0, 0)
  {
    var ending := LineEnding(original);
    DiffResult(Compose(ending, Substitute(BodyLines(original), hunks, 0, 0), EndsWith(original, ending)),
               AllInsertions(hunks), AllRemovals(hunks), |hunks|)
  }

  /**
    The whole applier, on text: it succeeds exactly when the patch spells out
    hunks the body takes, and then it returns their outcome.
   */
  lemma ApplyPatchMeans(original: string, patch: string)
    ensures ApplyPatch(original, patch).Ok? <==> exists hunks :: Applies(original, patch, hunks)
    ensures forall hunks :: Applies(original, patch, hunks) ==>
              ApplyPatch(original, patch) == Ok(Outcome(original, hunks))
  {
    ApplyPatchRefines(original, patch);
    if ApplyPatch(original, patch).Ok? {
      assert Applies(original, patch, ParseHunks(PatchLines(patch).value).value);
    }
  }

  // --------------------------------------------------------- the dead check

  lemma {:induction false} WalkKeepsAnchor(original: seq<string>, lines: seq<string>, w: Walk)
    requires w.source <= |original| && (w.anchored <==> w.seenOld > 0)
    ensures var r := WalkHunk(original, lines, w);
            r.Ok? ==> (r.value.walk.anchored <==> r.value.walk.seenOld > 0)
    decreases |lines|
  {
    if !EndsHunk(lines) {
      var step := StepLine(original, lines[0], w);
      if step.Ok? { WalkKeepsAnchor(original, lines[1..], step.value); }
    }
  }

  lemma {:induction false} WalkHunkNeverUnanchored(original: seq<string>, lines: seq<string>, w: Walk)
    requires w.source <= |original|
    ensures WalkHunk(original, lines, w) != Err(Unanchored)
    decreases |lines|
  {
    if !EndsHunk(lines) {
      var step := StepLine(original, lines[0], w);
      if step.Ok? { WalkHunkNeverUnanchored(original, lines[1..], step.value); }
    }
  }

  lemma OneHunkNeverUnanchored(original: seq<string>, header: Header, lines: seq<string>, p: Progress)
    requires p.cursor <= |original|
    ensures WalkOneHunk(original, header, lines, p) != Err(Unanchored)
  {
    var entry := OpenHunk(original, header, p);
    if entry.Ok? {
      WalkKeepsAnchor(original, lines, entry.value);
      WalkHunkNeverUnanchored(original, lines, entry.value);
    }
  }

  lemma {:induction false} WalkNeverUnanchored(original: seq<string>, lines: seq<string>, p: Progress)
    requires p.cursor <= |original|
    ensures WalkPatch(original, lines, p) != Err(Unanchored)
    decreases |lines|
  {
    if lines != [] && ParseHeader(lines[0]).Some? {
      var header := ParseHeader(lines[0]).value;
      OneHunkNeverUnanchored(original, header, lines[1..], p);
      var one := WalkOneHunk(original, header, lines[1..], p);
      if one.Ok? { WalkNeverUnanchored(original, one.value.1, one.value.0); }
    }
  }

  /** The "needs exact context or removed text" refusal is subsumed by the checks before it. */
  lemma NeverUnanchored(original: string, patch: string)
    ensures ApplyPatch(original, patch) != Err(Unanchored)
  {
    var lines := PatchLines(patch);
    if lines.Ok? { WalkNeverUnanchored(BodyLines(original), lines.value, START); }
  }
}
