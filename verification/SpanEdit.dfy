/**
  Naming a span instead of authoring hunks: `apply_span_edit` finds the span, and
  `span_edit_to_unified_diff` stores the edit as a diff after checking that the
  diff, applied, gives exactly the requested text.
 */
module SpanEdit {
  import opened Wrappers
  import opened Lines
  import opened UnifiedDiff
  import opened Difflib
  import opened BodyChange

  datatype SpanError =
    | EmptyExpected
    | ExpectedCarriageReturn
    | ReplacementCarriageReturn
    | Identical
    | NotFound
    | Ambiguous(count: nat)
    | OccurrenceOutOfRange(occurrence: int, count: nat)
    | FinalNewlineChanges
    | Rejected(error: DiffError)
    | DoesNotReproduce

  // ----------------------------------------------------------- finding spans

  /** The starts the search loop collects from `from` on: each next search begins one past the last start. */
  function Offsets(body: string, needle: string, from: nat): seq<nat>
    requires needle != ""
    decreases |body| - from
  {
    match Find(body, needle, from)
    case None => []
    case Some(k) => [k] + Offsets(body, needle, k + 1)
  }

  lemma OffsetsUnfold(body: string, needle: string, from: nat)
    requires needle != ""
    ensures var found := Find(body, needle, from);
            Offsets(body, needle, from)
            == if found.None? then [] else [found.value] + Offsets(body, needle, found.value + 1)
    ensures Find(body, needle, from).Some? ==> from <= Find(body, needle, from).value < |body|
  {
  }

  /** The search loop of `apply_span_edit`. */
  method FindOffsets(body: string, needle: string) returns (offsets: seq<nat>)
    requires needle != ""
    ensures offsets == Offsets(body, needle, 0)
  {
    hide Offsets, Find;
    offsets := [];
    var searchFrom := 0;
    var found := Find(body, needle, searchFrom);
    OffsetsUnfold(body, needle, searchFrom);
    while found.Some?
      invariant 0 <= searchFrom <= |body|
      invariant found == Find(body, needle, searchFrom)
      invariant offsets + Offsets(body, needle, searchFrom) == Offsets(body, needle, 0)
      invariant Offsets(body, needle, searchFrom)
                == if found.None? then [] else [found.value] + Offsets(body, needle, found.value + 1)
      invariant found.Some? ==> searchFrom <= found.value < |body|
      decreases |body| - searchFrom
    {
      ConcatAssociates(offsets, [found.value], Offsets(body, needle, found.value + 1));
      offsets := offsets + [found.value];
      searchFrom := found.value + 1;
      found := Find(body, needle, searchFrom);
      OffsetsUnfold(body, needle, searchFrom);
    }
  }

  /** Strictly increasing, so each listed once and in order. */
  predicate Ascending(offsets: seq<nat>, from: nat) {
    offsets == [] || (from <= offsets[0] && Ascending(offsets[1..], offsets[0] + 1))
  }

  /** The loop finds exactly the places the text starts, overlapping ones included, in order. */
  lemma {:induction false} OffsetsExact(body: string, needle: string, from: nat)
    requires needle != ""
    ensures Ascending(Offsets(body, needle, from), from)
    ensures forall k: nat :: k in Offsets(body, needle, from) <==> from <= k && OccursAt(body, needle, k)
    decreases |body| - from
  {
    var found := Find(body, needle, from);
    if found.Some? {
      OffsetsExact(body, needle, found.value + 1);
      assert Offsets(body, needle, from)[1..] == Offsets(body, needle, found.value + 1);
    }
  }

  // ---------------------------------------------------------- editing a span

  function Spliced(body: string, k: nat, width: nat, replacement: string): string
    requires k + width <= |body|
  {
    body[..k] + replacement + body[k + width..]
  }

  /** The refusals that come before any search. */
  function CheckSpan(expected: string, needle: string, replacement: string): Option<SpanError> {
    if expected == "" then Some(EmptyExpected)
    else if Contains(needle, '\r') then Some(ExpectedCarriageReturn)
    else if Contains(replacement, '\r') then Some(ReplacementCarriageReturn)
    else if needle == replacement then Some(Identical)
    else None
  }

  function ChooseStart(offsets: seq<nat>, occurrence: Option<int>): (r: Result<nat, SpanError>)
    ensures r.Ok? ==> r.value in offsets
  {
    if offsets == [] then Err(NotFound)
    else
      match occurrence
      case None => if |offsets| > 1 then Err(Ambiguous(|offsets|)) else Ok(offsets[0])
      case Some(n) => if 1 <= n <= |offsets| then Ok(offsets[n - 1]) else Err(OccurrenceOutOfRange(n, |offsets|))
  }

  /** What `apply_span_edit` returns or raises. */
  function EditSpan(original: string, expected: string, replacement: string, occurrence: Option<int>)
    : Result<string, SpanError>
  {
    var body, needle, replaced := Normalize(original), Normalize(expected), Normalize(replacement);
    match CheckSpan(expected, needle, replaced)
    case Some(e) => Err(e)
    case None =>
      NormalizeNonempty(expected);
      match ChooseStart(Offsets(body, needle, 0), occurrence)
      case Err(e) => Err(e)
      case Ok(k) =>
        OffsetsExact(body, needle, 0);
        Ok(Spliced(body, k, |needle|, replaced))
  }

  method ApplySpanEdit(original: string, expected: string, replacement: string, occurrence: Option<int>)
    returns (r: Result<string, SpanError>)
    ensures r == EditSpan(original, expected, replacement, occurrence)
  {
    var body, needle, replaced := Normalize(original), Normalize(expected), Normalize(replacement);
    var refusal := CheckSpan(expected, needle, replaced);
    if refusal.Some? { return Err(refusal.value); }
    NormalizeNonempty(expected);
    var offsets := FindOffsets(body, needle);
    OffsetsExact(body, needle, 0);
    var chosen := ChooseStart(offsets, occurrence);
    if chosen.Err? { return Err(chosen.error); }
    return Ok(Spliced(body, chosen.value, |needle|, replaced));
  }

  lemma SecondStart(offsets: seq<nat>, from: nat)
    requires Ascending(offsets, from)
    ensures |offsets| > 1 ==> offsets[0] < offsets[1] && offsets[0] in offsets && offsets[1] in offsets
  {
  }

  /** The text starts at `k` and nowhere else. */
  ghost predicate OnlyAt(body: string, needle: string, k: nat) {
    OccursAt(body, needle, k) && forall j: nat :: OccursAt(body, needle, j) ==> j == k
  }

  /**
    Without an occurrence number, an edit passes its guards and succeeds exactly
    when the text starts at one place only, and then changes only that span.
   */
  lemma UnnumberedEditIsUnambiguous(original: string, expected: string, replacement: string, k: nat)
    requires CheckSpan(expected, Normalize(expected), Normalize(replacement)).None?
    ensures var r := EditSpan(original, expected, replacement, None);
            var body, needle := Normalize(original), Normalize(expected);
            && (OnlyAt(body, needle, k) ==> r == Ok(Spliced(body, k, |needle|, Normalize(replacement))))
            && (r.Ok? ==> exists j: nat :: OnlyAt(body, needle, j))
  {
    var body, needle := Normalize(original), Normalize(expected);
    NormalizeNonempty(expected);
    var offsets := Offsets(body, needle, 0);
    OffsetsExact(body, needle, 0);
    if OnlyAt(body, needle, k) {
      assert k in offsets;
      SecondStart(offsets, 0);
    }
    if |offsets| == 1 {
      assert offsets == [offsets[0]];
      assert OnlyAt(body, needle, offsets[0]) by {
        forall j: nat | OccursAt(body, needle, j) ensures j == offsets[0] { assert j in offsets; }
      }
    }
  }

  // ------------------------------------------------------- storing it as a diff

  type Matcher = (seq<string>, seq<string>) -> seq<Opcode>

  /** `difflib`'s contract: some tiling of both texts. */
  ghost predicate ValidMatcher(matcher: Matcher) {
    forall a, b :: ValidOpcodes(a, b, matcher(a, b))
  }

  /** The diff of two bodies, by their lines. */
  function BodyDiff(body: string, updated: string, matcher: Matcher): string {
    DiffText(BodyLines(body), BodyLines(updated), matcher(BodyLines(body), BodyLines(updated)))
  }

  /** From the requested text to the stored diff: the two refusals and the self-check. */
  function StoreDiff(body: string, updated: string, matcher: Matcher): Result<string, SpanError> {
    if EndsWith(body, "\n") != EndsWith(updated, "\n") then Err(FinalNewlineChanges)
    else
      var diff := BodyDiff(body, updated, matcher);
      match ApplyPatch(body, diff)
      case Err(e) => Err(Rejected(e))
      case Ok(applied) => if applied.body != updated then Err(DoesNotReproduce) else Ok(diff)
  }

  /** What `span_edit_to_unified_diff` returns or raises. */
  function SpanDiff(original: string, expected: string, replacement: string, occurrence: Option<int>, matcher: Matcher)
    : Result<string, SpanError>
  {
    match EditSpan(original, expected, replacement, occurrence)
    case Err(e) => Err(e)
    case Ok(updated) => StoreDiff(Normalize(original), updated, matcher)
  }

  method SpanEditToUnifiedDiff(
      original: string, expected: string, replacement: string, occurrence: Option<int>, matcher: Matcher)
    returns (r: Result<string, SpanError>)
    requires ValidMatcher(matcher)
    ensures r == SpanDiff(original, expected, replacement, occurrence, matcher)
  {
    var body := Normalize(original);
    var edited := ApplySpanEdit(original, expected, replacement, occurrence);
    if edited.Err? { return Err(edited.error); }
    var updated := edited.value;
    if EndsWith(body, "\n") != EndsWith(updated, "\n") { return Err(FinalNewlineChanges); }
    var bodyLines, updatedLines := BodyLines(body), BodyLines(updated);
    var opcodes := matcher(bodyLines, updatedLines);
    var summary := SummarizeBodyChange(body, updated, opcodes, opcodes);
    var applied := ApplyBodyUnifiedDiff(body, summary.unifiedDiff);
    if applied.Err? { return Err(Rejected(applied.error)); }
    if applied.value.body != updated { return Err(DoesNotReproduce); }
    return Ok(summary.unifiedDiff);
  }
}
