/**
  The strict unified-diff applier of app/vault/body_diff.py, as it walks a patch:
  the hunk-header grammar, the per-line and per-hunk checks, and the policy limits.
 */
module UnifiedDiff {
  import opened Wrappers
  import opened Lines
  import opened Decimal

  const MAX_BODY_DIFF_CHARS := 50_000
  const MAX_BODY_DIFF_HUNKS := 20
  const MAX_BODY_DIFF_CHANGED_LINES := 200
  const MIN_BODY_DIFF_CHANGED_LINE_ALLOWANCE := 20

  /** One constructor per `BodyDiffError` the applier raises. */
  datatype DiffError =
    | PatchTooLong
    | PatchCarriageReturn
    | EmptyPatch
    | UnpairedFileHeader
    | MixedLineEndings
    | ExpectedHunkHeader
    | TooManyHunks
    | NoOldSide
    | HunkOutOfPlace
    | InconsistentNewStart
    | MissingPrefix
    | NoNewlineMarker
    | UnknownPrefix
    | ContextMismatch
    | CountMismatch
    | Unanchored
    | NothingChanged
    | OverAllowance(extent: nat, allowed: nat)

  datatype RemovedLine = RemovedLine(number: nat, text: string)

  datatype DiffResult = DiffResult(body: string, additions: nat, removed: seq<RemovedLine>, hunks: nat)

  // ------------------------------------------------------------- hunk headers

  datatype Header = Header(oldStart: nat, oldCount: nat, newStart: nat, newCount: nat)

  datatype Range = Range(start: nat, count: nat, rest: string)

  /** `(\d+)(?:,(\d+))?`: an omitted count is 1. */
  function TakeRange(s: string): Option<Range> {
    match TakeNat(s)
    case None => None
    case Some(start) =>
      if start.rest == "" || start.rest[0] != ',' then Some(Range(start.value, 1, start.rest))
      else
        match TakeNat(start.rest[1..])
        case None => Some(Range(start.value, 1, start.rest))
        case Some(count) => Some(Range(start.value, count.value, count.rest))
  }

  /** The hunk-header pattern, matched against a whole line. */
  function ParseHeader(line: string): Option<Header> {
    if !StartsWith(line, "@@ -") then None else
    match TakeRange(line[4..])
    case None => None
    case Some(before) =>
      if !StartsWith(before.rest, " +") then None else
      match TakeRange(before.rest[2..])
      case None => None
      case Some(after) =>
        if !StartsWith(after.rest, " @@") then None
        else if |after.rest| > 3 && after.rest[3] != ' ' then None
        else Some(Header(before.start, before.count, after.start, after.count))
  }

  // ---------------------------------------------------------------- one hunk

  /** The applier's variables inside one hunk. */
  datatype Walk = Walk(
    source: nat,
    seenOld: nat,
    seenNew: nat,
    anchored: bool,
    output: seq<string>,
    removed: seq<RemovedLine>,
    additions: nat)

  predicate EndsHunk(lines: seq<string>) {
    lines == [] || StartsWith(lines[0], "@@ ")
  }

  /** One hunk line. */
  function StepLine(original: seq<string>, line: string, w: Walk): (r: Result<Walk, DiffError>)
    requires w.source <= |original|
    ensures r.Ok? ==> w.source <= r.value.source <= |original|
  {
    if line == "" then Err(MissingPrefix)
    else if line[0] == '\\' then Err(NoNewlineMarker)
    else if line[0] == '+' then
      Ok(w.(output := w.output + [line[1..]], additions := w.additions + 1, seenNew := w.seenNew + 1))
    else if line[0] != ' ' && line[0] != '-' then Err(UnknownPrefix)
    else if w.source >= |original| || original[w.source] != line[1..] then Err(ContextMismatch)
    else
      var walked := w.(source := w.source + 1, anchored := true, seenOld := w.seenOld + 1);
      if line[0] == ' ' then
        Ok(walked.(output := w.output + [line[1..]], seenNew := w.seenNew + 1))
      else
        Ok(walked.(removed := w.removed + [RemovedLine(w.source + 1, line[1..])]))
  }

  datatype HunkEnd = HunkEnd(walk: Walk, rest: seq<string>)

  function WalkHunk(original: seq<string>, lines: seq<string>, w: Walk): (r: Result<HunkEnd, DiffError>)
    requires w.source <= |original|
    ensures r.Ok? ==> w.source <= r.value.walk.source <= |original| && |r.value.rest| <= |lines|
    decreases |lines|
  {
    if EndsHunk(lines) then Ok(HunkEnd(w, lines))
    else
      match StepLine(original, lines[0], w)
      case Err(e) => Err(e)
      case Ok(next) => WalkHunk(original, lines[1..], next)
  }

  // --------------------------------------------------------------- all hunks

  /** The applier's variables between hunks. */
  datatype Progress = Progress(
    cursor: nat,
    output: seq<string>,
    removed: seq<RemovedLine>,
    additions: nat,
    hunks: nat)

  const START := Progress(0, [], [], 0, 0)

  /** The checks between a hunk's header and its first line. */
  function OpenHunk(original: seq<string>, header: Header, p: Progress): (r: Result<Walk, DiffError>)
    requires p.cursor <= |original|
    ensures r.Ok? ==> p.cursor <= r.value.source <= |original|
  {
    if p.hunks + 1 > MAX_BODY_DIFF_HUNKS then Err(TooManyHunks)
    else if header.oldStart < 1 || header.oldCount < 1 then Err(NoOldSide)
    else
      var start := header.oldStart - 1;
      if start < p.cursor || start > |original| then Err(HunkOutOfPlace)
      else
        var output := p.output + original[p.cursor..start];
        if header.newStart != (if header.newCount == 0 then |output| else |output| + 1)
        then Err(InconsistentNewStart)
        else Ok(Walk(start, 0, 0, false, output, p.removed, p.additions))
  }

  /** The checks after a hunk's last line. */
  function CloseHunk(header: Header, w: Walk, hunks: nat): Result<Progress, DiffError> {
    if w.seenOld != header.oldCount || w.seenNew != header.newCount then Err(CountMismatch)
    else if !w.anchored then Err(Unanchored)
    else Ok(Progress(w.source, w.output, w.removed, w.additions, hunks + 1))
  }

  /** One hunk of the single pass: header checks, lines, count checks. */
  function WalkOneHunk(original: seq<string>, header: Header, lines: seq<string>, p: Progress)
    : (r: Result<(Progress, seq<string>), DiffError>)
    requires p.cursor <= |original|
    ensures r.Ok? ==> p.cursor <= r.value.0.cursor <= |original| && |r.value.1| <= |lines|
  {
    match OpenHunk(original, header, p)
    case Err(e) => Err(e)
    case Ok(w) =>
      match WalkHunk(original, lines, w)
      case Err(e) => Err(e)
      case Ok(end) =>
        match CloseHunk(header, end.walk, p.hunks)
        case Err(e) => Err(e)
        case Ok(next) => Ok((next, end.rest))
  }

  /** The whole single pass, hunk after hunk. */
  function WalkPatch(original: seq<string>, lines: seq<string>, p: Progress): (r: Result<Progress, DiffError>)
    requires p.cursor <= |original|
    ensures r.Ok? ==> p.cursor <= r.value.cursor <= |original|
    decreases |lines|
  {
    if lines == [] then Ok(p)
    else
      match ParseHeader(lines[0])
      case None => Err(ExpectedHunkHeader)
      case Some(header) =>
        match WalkOneHunk(original, header, lines[1..], p)
        case Err(e) => Err(e)
        case Ok((next, rest)) => WalkPatch(original, rest, next)
  }

  // ------------------------------------------------------------- whole patch

  /** `min(200, max(20, ceil(lines * 0.25)))`. */
  function Allowance(lines: nat): nat {
    var proportional := (lines + 3) / 4;
    var floored := if proportional > MIN_BODY_DIFF_CHANGED_LINE_ALLOWANCE
                   then proportional else MIN_BODY_DIFF_CHANGED_LINE_ALLOWANCE;
    if floored < MAX_BODY_DIFF_CHANGED_LINES then floored else MAX_BODY_DIFF_CHANGED_LINES
  }

  function Extent(additions: nat, removals: nat): nat {
    if additions > removals then additions else removals
  }

  /** The lines after an optional `---`/`+++` pair. */
  function SkipFileHeader(lines: seq<string>): Result<seq<string>, DiffError>
    requires lines != []
  {
    if !StartsWith(lines[0], "--- ") then Ok(lines)
    else if |lines| < 2 || !StartsWith(lines[1], "+++ ") then Err(UnpairedFileHeader)
    else Ok(lines[2..])
  }

  /** The patch as lines, or why it is not one. */
  function PatchLines(patch: string): Result<seq<string>, DiffError> {
    if |patch| > MAX_BODY_DIFF_CHARS then Err(PatchTooLong)
    else if Contains(Normalize(patch), '\r') then Err(PatchCarriageReturn)
    else
      var lines := SplitLines(Normalize(patch));
      if lines == [] then Err(EmptyPatch) else SkipFileHeader(lines)
  }

  /** The policy checks once every hunk has applied. */
  function CheckExtent(original: seq<string>, p: Progress): Result<Progress, DiffError> {
    if p.hunks == 0 || (p.additions == 0 && p.removed == []) then Err(NothingChanged)
    else
      var extent := Extent(p.additions, |p.removed|);
      var allowed := Allowance(|original|);
      if extent > allowed then Err(OverAllowance(extent, allowed)) else Ok(p)
  }

  function ApplyLines(original: seq<string>, lines: seq<string>): (r: Result<Progress, DiffError>)
    ensures r.Ok? ==> r.value.cursor <= |original|
  {
    match WalkPatch(original, lines, START)
    case Err(e) => Err(e)
    case Ok(p) => CheckExtent(original, p)
  }

  function LineEnding(body: string): string {
    if ContainsCRLF(body) then "\r\n" else "\n"
  }

  function BodyLines(body: string): seq<string> {
    SplitLines(Normalize(body))
  }

  /** What `apply_body_unified_diff` returns or raises. */
  function ApplyPatch(original: string, patch: string): Result<DiffResult, DiffError> {
    match PatchLines(patch)
    case Err(e) => Err(e)
    case Ok(lines) =>
      if Contains(ReplaceCRLF(original, ""), '\r') then Err(MixedLineEndings)
      else
        match ApplyLines(BodyLines(original), lines)
        case Err(e) => Err(e)
        case Ok(p) =>
          var ending := LineEnding(original);
          var output := p.output + BodyLines(original)[p.cursor..];
          Ok(DiffResult(Compose(ending, output, EndsWith(original, ending)), p.additions, p.removed, p.hunks))
  }

  // ------------------------------------------------------------- the applier

  /** The inner loop: the lines of one hunk, from `start` to the next header. */
  method ApplyHunkLines(originalLines: seq<string>, patchLines: seq<string>, start: nat, entry: Walk)
    returns (r: Result<Walk, DiffError>, index: nat)
    requires start <= |patchLines| && entry.source <= |originalLines|
    ensures start <= index <= |patchLines|
    ensures r.Ok? ==> WalkHunk(originalLines, patchLines[start..], entry) == Ok(HunkEnd(r.value, patchLines[index..]))
    ensures r.Err? ==> WalkHunk(originalLines, patchLines[start..], entry) == Err(r.error)
  {
    index := start;
    var sourceIndex, output, removed, additions := entry.source, entry.output, entry.removed, entry.additions;
    var seenOld, seenNew, seenAnchor := entry.seenOld, entry.seenNew, entry.anchored;
    while index < |patchLines| && !StartsWith(patchLines[index], "@@ ")
      invariant start <= index <= |patchLines| && 0 <= sourceIndex <= |originalLines|
      invariant WalkHunk(originalLines, patchLines[start..], entry)
             == WalkHunk(originalLines, patchLines[index..],
                         Walk(sourceIndex, seenOld, seenNew, seenAnchor, output, removed, additions))
    {
      assert patchLines[index..][1..] == patchLines[index + 1..];
      var line := patchLines[index];
      if line == "" { return Err(MissingPrefix), index; }
      if line[0] == '\\' { return Err(NoNewlineMarker), index; }
      if line[0] !in {' ', '+', '-'} { return Err(UnknownPrefix), index; }
      var value := line[1..];
      if line[0] in {' ', '-'} {
        if sourceIndex >= |originalLines| || originalLines[sourceIndex] != value {
          return Err(ContextMismatch), index;
        }
        seenAnchor := true;
        seenOld := seenOld + 1;
        if line[0] == ' ' {
          output := output + [value];
          seenNew := seenNew + 1;
        } else {
          removed := removed + [RemovedLine(sourceIndex + 1, value)];
        }
        sourceIndex := sourceIndex + 1;
      } else {
        output := output + [value];
        additions := additions + 1;
        seenNew := seenNew + 1;
      }
      index := index + 1;
    }
    r := Ok(Walk(sourceIndex, seenOld, seenNew, seenAnchor, output, removed, additions));
  }

  /** The outer loop: every hunk, with its header checks and its count checks. */
  method ApplyHunks(originalLines: seq<string>, patchLines: seq<string>)
    returns (r: Result<Progress, DiffError>)
    ensures r == WalkPatch(originalLines, patchLines, START)
  {
    var index, p := 0, START;
    while index < |patchLines|
      invariant 0 <= index <= |patchLines| && p.cursor <= |originalLines|
      invariant WalkPatch(originalLines, patchLines, START) == WalkPatch(originalLines, patchLines[index..], p)
    {
      assert patchLines[index..][1..] == patchLines[index + 1..];
      var header := ParseHeader(patchLines[index]);
      if header.None? { return Err(ExpectedHunkHeader); }
      var entry := OpenHunk(originalLines, header.value, p);
      if entry.Err? { return Err(entry.error); }
      var walked;
      walked, index := ApplyHunkLines(originalLines, patchLines, index + 1, entry.value);
      if walked.Err? { return Err(walked.error); }
      var closed := CloseHunk(header.value, walked.value, p.hunks);
      if closed.Err? { return Err(closed.error); }
      p := closed.value;
    }
    r := Ok(p);
  }

  /** `apply_body_unified_diff`: one pass over the patch, one cursor in the body. */
  method ApplyBodyUnifiedDiff(original: string, patch: string) returns (r: Result<DiffResult, DiffError>)
    ensures r == ApplyPatch(original, patch)
  {
    var lines := PatchLines(patch);
    if lines.Err? { return Err(lines.error); }
    if Contains(ReplaceCRLF(original, ""), '\r') { return Err(MixedLineEndings); }
    var lineEnding := LineEnding(original);
    var originalLines := BodyLines(original);
    var trailingNewline := EndsWith(original, lineEnding);
    var walked := ApplyHunks(originalLines, lines.value);
    if walked.Err? { return Err(walked.error); }
    var checked := CheckExtent(originalLines, walked.value);
    if checked.Err? { return Err(checked.error); }
    var output := checked.value.output + originalLines[checked.value.cursor..];
    return Ok(DiffResult(Compose(lineEnding, output, trailingNewline),
                         checked.value.additions, checked.value.removed, checked.value.hunks));
  }
}
