# Verified core of the leaderboard and vault service

This project models the parts of the service where a mistake is hard to see, and proves what they promise:

- **Body diffs.** The strict unified-diff applier, the change summary, and span edits that are stored as diffs
  (`Lines`, `Decimal`, `UnifiedDiff`, `LineForm`, `PatchTheory`, `PatchText`, `PatchLaws`, `PatchLimits`,
  `PatchOutcome`, `Difflib`, `DiffShape`, `BodyChange`, `SpanEdit`, `SpanChoice`, `SpanGuarantee`).
- **Frontmatter.** The canonical printer of the export and the parser of the importer
  (`PyText`, `TextLaws`, `Frontmatter`, `Quoting`, `NoteFormat`, `FrontmatterParser`, `NoteReading`,
  `FrontmatterRoundTrip`, `NoteRoundTrip`).
- **Identity classes.** Union-find over import generations and the repointing of references
  (`Closure`, `Identity`, `References`).
- **Score ledger.** Time windows, row upserts, run validation, both submission endpoints one request at a time and
  interleaved statement by statement, and ranked listings (`Arithmetic`, `Periods`, `Scores`, `ScoreLaws`,
  `Validation`, `Submissions`, `SubmissionLaws`, `Interleaving`, `LedgerSafety`, `Admission`, `OnceOnly`,
  `MapTotals`, `LedgerProgress`, `Ranking`, `Boards`, `Standings`).
- **Listing cursors.** JSON, UTF-8 and base64url down to the bytes (`Utf8`, `Base64`, `Json`, `Cursor`,
  `CursorFormat`).
- **Export and summary backfill.** The keyset walk, the write and prune passes over a file tree, the embedding text,
  and the multi-phase backfill with other writers in between (`Export`, `ExportTree`, `CorpusExport`, `ExportPaths`,
  `EmbeddingText`, `Backfill`, `BackfillSafety`, `BackfillTheorems`, `BackfillReading`, `BackfillProgress`).
- **Accounts.** Guests, registration, claims, provider logins, links and pruning, interleaved statement by statement
  (`Accounts`, `AccountSafety`, `AccountTheorems`, `AccountOutcomes`, `AccountProgress`).

Loops and objects that change in place are methods and classes (`ApplyBodyUnifiedDiff`, `IdentityClasses`, `Ledger`,
`Board`, `Tree`, `Vault`, ...), each proved equal to a specification function about which the laws are then proved.
Concurrent code is a state machine: a run is any sequence of events, an event that cannot happen yet changes nothing,
and every theorem about runs holds for all sequences.

Limits, formats and orders are stated a second time without the functions that compute them: in plain numbers and
characters (`PatchLimits`, `Quoting`, `Standings`, `CursorFormat`), by counting occurrences (`SpanChoice`), or by the
fields of a mode, a request, a row or an entry (`Admission`, `BackfillReading`, `AccountOutcomes`, `ExportPaths`).

`dafny verify dfyconfig.toml` checks everything.

## What the proofs found

- A hunk must name at least one old line, so the applier's later check that a hunk has an anchor can never fail
  (`PatchTheory.NeverUnanchored`).
- A reversed patch is refused exactly when some hunk leaves nothing behind on its new side or the reversed extent is
  over the allowance (`PatchOutcome.ReverseRestores`, with the smallest case in `PatchOutcome.EmptyingCannotBeReversed`).
- Diffs of an empty body are never accepted (`Difflib.DiffRoundTrip`).
- The self-check of span edits fires exactly when the requested text is not written throughout in the body's own line
  ending and final newline (`SpanGuarantee.SelfCheckFires`); for bodies and replacements that use only line feeds it
  never fires.
- A note whose last line ends in the other kind of separator loses that final newline, and nothing else, when a stored
  diff is applied to it (`SpanGuarantee.StoredDiffAppliesToNote`, with a CRLF note that ends in a bare line feed in
  `SpanGuarantee.MixedNoteLosesNewline`).
- A printed note comes back unchanged exactly when its keys are identifiers, its texts are single lines, each value is
  one that survives (not a boolean, a negative number, an empty text outside a list, a scalar under a list key, or
  digits that are no number), and its body is empty or ends in a line feed (`NoteRoundTrip.RoundTripsExactly`).
- A text with a line feed therefore never comes back: the note is refused (`NoteRoundTrip.LineFeedBreaksNote`) or read
  with other metadata, even with a key it never had (`NoteRoundTrip.LineFeedAddsKey`).
- Digits that are no decimal digits, such as a superscript two, print bare and fail the note that holds them, because
  the parser takes them for a number (`FrontmatterRoundTrip.SuperscriptFails`).
- Under a list key a text prints as the list of its characters, and true or a number other than zero fails the whole
  note (`NoteFormat.TextsUnderListKeys`, `NoteFormat.ScalarsUnderListKeys`).
- Every word YAML 1.1 reads as a null or a boolean prints between quotes, in whatever casing, except its one-letter
  booleans `y`, `Y`, `n` and `N`, which print bare (`Quoting.BareBooleans`).
- The score floor of a mode binds claims only, never recomputed scores (`Validation.FloorMissesRecomputedScores`).
- A client's claimed score is handed to the tier-2 scorer with the rest of the run, so nothing but the scorer keeps it
  from deciding the verdict there (`Validation.ClaimMattersExactly`).
- The all-time row, upserted first, keeps every other transaction of the same board out, so submissions cannot
  deadlock; no committed run is ever pending, so the conflict answer for pending runs is unreachable, and so is the
  missing standing after an accepted run (`LedgerSafety`).
- After a lost login race the winner is always found, so only username collisions use up retries; a disputed link
  always finds an owner (`AccountTheorems`).
- Exporting a corpus with sound paths settles after one run exactly when no stored row at the path of the generated wiki
  index holds something else (`CorpusExport.CorpusConverges`).
- With the same title, summary and body, two choices of aliases and tags have one embedding digest exactly when the lines
  they render to read alike (`EmbeddingText.TermLinesDecideDigest`): a document's only aliases pass for its only tags,
  but moving one alias of several to the tags may change the digest.
- Running a backfill file again, at any later time, never takes up a note that a run over that file has written
  (`BackfillTheorems.RerunRepeatsNothing`); a note the run had to leave, because it was inactive then, may still be taken
  up later (`BackfillTheorems.PlannedTakenUpExactly`).

## Model

| member | source | states |
|---|---|---|
| UnifiedDiff.ApplyHunkLines | app/vault/body_diff.py:117-146 | the inner loop over a hunk's lines leaves exactly the walk its specification describes, or its error |
| UnifiedDiff.ApplyHunks | app/vault/body_diff.py:86-152 | the outer loop over hunks leaves exactly the progress its specification describes, or its error |
| UnifiedDiff.ApplyBodyUnifiedDiff | app/vault/body_diff.py:52-174 | the applier returns the specified body, counts and removed lines, or the specified error, in the source's order of checks; `PatchLimits` says in plain numbers which patches those are |
| PatchTheory.WalkHunkRefines | app/vault/body_diff.py:117-146 | the one-pass walk accepts a hunk exactly when its lines parse as edits whose old side is the body there, and then emits its new side |
| PatchTheory.WalkPatchRefines | app/vault/body_diff.py:86-154 | the whole walk accepts exactly the hunk lists that are placed in order with consistent coordinates and counts |
| PatchTheory.ApplyPatchMeans | app/vault/body_diff.py:52-174 | a patch is accepted if and only if it parses as hunks placed on the body within the limits, and the result is the gaps copied and the hunks substituted; `PatchLimits.AcceptedExactly` spells the limits out |
| PatchTheory.NeverUnanchored | app/vault/body_diff.py:100-103 | the anchor check at the end of a hunk can never be the reason of refusal |
| PatchLimits.AcceptedExactly | app/vault/body_diff.py:52-174 | a patch that spells out hunks is accepted exactly when the body has no lone carriage return, the hunks are placed on it, there are at most 20, and the larger of additions and removals is 1 to 200 and, above 20, at most a quarter of the body's lines rounded up; the counts reported are those of the change |
| PatchLimits.RefusedAsText | app/vault/body_diff.py:54-76 | which patches are too long, hold a carriage return, are empty, or have an unpaired file header, and which bodies have mixed endings, the earlier reason first |
| PatchLimits.HunkRefusedExactly | app/vault/body_diff.py:86-152 | exactly when a hunk is one too many, has no old side, is out of place, has the wrong new start, or counts its lines wrongly |
| PatchLimits.LineErrors | app/vault/body_diff.py:117-142 | exactly when a hunk line has no prefix, a no-newline marker, an unknown prefix, or names a line the body does not have there |
| PatchLimits.RefusedByPolicy | app/vault/body_diff.py:154-168 | once every hunk applies, a patch is refused exactly for changing nothing or for being over 200 lines or over both 20 and a quarter of the body |
| PatchLimits.HeaderReadsExactly | app/vault/body_diff.py:47-49 | a line is read as a header with given numbers exactly when it spells them in the grammar of headers |
| PatchText.ParseRendered | app/vault/body_diff.py:47-49 | rendering hunks, with counts of one omitted, and parsing the lines gives the same hunks back |
| PatchText.PatchLinesOfJoin | app/vault/body_diff.py:60-72 | a patch joined from unbroken lines is split into those lines again, file header dropped |
| PatchLaws.SubstituteBalances | app/vault/body_diff.py:107-174 | output length is original length minus removed plus added |
| PatchLaws.RemovalsNameTheirLines | app/vault/body_diff.py:138-140 | removed line numbers strictly increase and each carries the original's text at that number |
| PatchLaws.OnlyAdditionsAreNew | app/vault/body_diff.py:107-170 | the original without the removed lines is a subsequence of the output, with exactly the added number of lines more |
| PatchLaws.NewRangesExact | app/vault/body_diff.py:108-110 | each hunk's new range is exactly the slice of the output that holds its new side |
| PatchLaws.FlipSwapsCounts | app/vault/body_diff.py:138-145 | exchanging the signs exchanges additions and removals |
| PatchLaws.FlipUndoes | app/vault/body_diff.py:86-154 | the flipped hunks are placed on the output if and only if every hunk keeps a new-side line, and then give the original back |
| PatchOutcome.ReverseRestores | app/vault/body_diff.py:86-168 | the reversed patch of an accepted one is accepted exactly when every hunk keeps a new-side line and its extent is allowed; it then restores the original lines |
| PatchOutcome.ReverseTextRestores | app/vault/body_diff.py:52-174 | as text: when the result reads back, the joined reverse patch is accepted exactly when it is short enough and its lines are, and gives the original note back if and only if the note has the result's line ending and final newline throughout |
| PatchOutcome.EmptyingCannotBeReversed | app/vault/body_diff.py:100-103 | an accepted patch that empties its hunk, whose reverse is refused |
| PatchOutcome.ResultReadsBack | app/vault/body_diff.py:170-173 | the joined result splits back into the output lines exactly when the final newline state can be recovered |
| Difflib.HunksRebuild | app/vault/body_diff.py:197-205 | for any valid opcodes, the grouped hunks are placed on the old lines and substitute to the new lines |
| Difflib.DiffRebuilds | app/vault/body_diff.py:197-205 | the three-context diff of any two texts, for any valid opcode list, rebuilds the new lines from the old |
| Difflib.DiffOfEmptyNotPlaced | app/vault/body_diff.py:100-103 | a diff against no lines is never placed |
| Difflib.DiffRoundTrip | app/vault/body_diff.py:86-205 | applying the rendered diff gives the new lines, exactly when there is an old line, a change, and the limits hold |
| DiffShape.ChangeInContext | app/vault/body_diff.py:197-205 | one change renders as one hunk that names it with up to three unchanged lines on either side |
| DiffShape.FarChangesSplit | app/vault/body_diff.py:197-205 | two changes share a hunk exactly when at most six unchanged lines stand between them |
| DiffShape.FileLines | app/vault/body_diff.py:197-205 | a diff that changes something opens with its two file lines |
| BodyChange.CollectRemoved | app/vault/body_diff.py:190-194 | the generator appends the numbered lines of one range |
| BodyChange.SummarizeBodyChange | app/vault/body_diff.py:177-212 | the summary loop returns the added count, removed lines, change count and diff text of its opcodes |
| BodyChange.SummaryTruthful | app/vault/body_diff.py:182-196 | removed lines are true lines of the old body in order, and the counts balance the two lengths |
| BodyChange.SummaryAgreesWithDiff | app/vault/body_diff.py:182-205 | the removed lines and additions counted from opcodes are those of the diff rendered from the same opcodes |
| SpanEdit.FindOffsets | app/vault/body_diff.py:297-301 | the search loop returns the specified offsets |
| SpanEdit.OffsetsExact | app/vault/body_diff.py:297-301 | the offsets are all the starts of the text, overlapping ones included, in increasing order |
| SpanEdit.ApplySpanEdit | app/vault/body_diff.py:225-325 | the edit returns the specified body or the specified refusal; `SpanChoice` says which occurrence it replaces and when it is refused |
| SpanEdit.UnnumberedEditIsUnambiguous | app/vault/body_diff.py:310-325 | without an occurrence the edit succeeds only if the text starts at one place, and changes only that span |
| SpanEdit.SpanEditToUnifiedDiff | app/vault/body_diff.py:328-374 | the stored diff of the specified edit, or its refusal, or the refusal of the diff |
| SpanChoice.NumberedEditExactly | app/vault/body_diff.py:297-325 | an edit with occurrence n succeeds exactly when n is from 1 to the number of places the text starts at, and then replaces the one with n - 1 such places before it |
| SpanChoice.EditRefusedExactly | app/vault/body_diff.py:266-323 | exactly which edits are refused as empty, for a carriage return, identical, not found, ambiguous or out of range, with the number of places |
| SpanChoice.StoreRefused | app/vault/body_diff.py:343-359 | an edit that was found is refused for its final newline exactly when it adds or removes it |
| SpanGuarantee.RenderedDiffApplies | app/vault/body_diff.py:197-205 | a rendered diff is accepted exactly when the body is not empty and has no lone carriage return and the limits hold, and then yields the updated lines in the body's line ending and final newline |
| SpanGuarantee.SelfCheckFires | app/vault/body_diff.py:328-373 | for every input, the self-check refuses exactly when the edit is found, keeps the final newline, its diff is accepted, and the edited text is not written throughout in the body's line ending and final newline |
| SpanGuarantee.SelfCheckNeverFires | app/vault/body_diff.py:343-374 | for line-feed-only bodies and replacements the self-check never refuses, whatever the matcher does |
| SpanGuarantee.StoredDiffAppliesToNote | app/vault/body_diff.py:361-374 | the stored diff is accepted by the note itself, CRLF or LF, and gives the requested text, or all of it but the final newline exactly when the note's own line ending does not end its last line |
| SpanGuarantee.MixedNoteLosesNewline | app/vault/body_diff.py:361-374 | a CRLF note ending in a bare line feed, whose stored diff drops that newline when applied to it |
| SpanGuarantee.EditedText | app/vault/body_diff.py:266-325 | an accepted edit replaces one occurrence of the text and nothing else |
| LineForm.Reproduces | app/vault/body_diff.py:170-173 | splitting a text and rejoining its lines with an ending and a final newline gives the text exactly when it uses that ending throughout and ends in it or not accordingly |
| Lines.SplitCompose | app/vault/body_diff.py:78-79 | joining unbroken lines and splitting gives the lines back exactly when they do not end in a lost empty line |
| Lines.ComposeSplit | app/vault/body_diff.py:171-173 | a text whose only separators are line feeds is given back by splitting and rejoining it with its final newline state |
| TextLaws.LineSplitsOff | app/vault/body_diff.py:78-78 | a line is split off at each of the ten separators, a carriage return and line feed together, whatever follows |
| TextLaws.PairsReplaced | app/vault/body_diff.py:78-78 | every pair of carriage return and line feed is replaced |
| TextLaws.NoPairKept | app/vault/body_diff.py:78-78 | a text without such a pair stays as it is |
| TextLaws.StripsExactly | app/vault/embedding_text.py:47-88 | stripping takes white space off both ends and leaves none there |
| FrontmatterRoundTrip.UnescapeEscape | app/vault/export.py:219-221 | the parser's two-pass unescaping inverts the printer's two-pass escaping on every text |
| FrontmatterRoundTrip.ScalarReadsBack | scripts/import_vault_wiki.py:167-173 | a printed scalar reads back as itself, with empty values, booleans and negative numbers as texts; exactly the texts whose digits are no number are refused |
| FrontmatterRoundTrip.SuperscriptFails | scripts/import_vault_wiki.py:167-173 | a superscript two prints bare and is refused |
| Quoting.PrintedBareExactly | app/vault/export.py:197-232 | a text prints as it is exactly when it is empty or holds no mark of YAML's, spells no word of YAML's in any casing, and spells no number; any other prints between quotes |
| Quoting.WordsAreQuoted | app/vault/export.py:197-221 | a text that spells null, none, true, false, yes, no, on, off or a tilde in any casing prints as itself between quotes |
| Quoting.BareBooleans | app/vault/export.py:197-232 | of the texts YAML 1.1 reads as a null or a boolean, exactly y, Y, n and N print bare |
| Quoting.NumericExactly | app/vault/export.py:198-198 | the number pattern matches exactly a sign or none, digits and underscores with a point and digits or none, or a point and digits, and an exponent or none |
| NoteFormat.EmptyValues | app/vault/export.py:191-243 | a key without a value prints an empty list exactly when it is one of the seven list keys |
| NoteFormat.ScalarsUnderListKeys | app/vault/export.py:235-240 | under a list key true and numbers but zero do not print, and false, zero and nothing print as the empty list |
| NoteFormat.TextsUnderListKeys | app/vault/export.py:235-240 | under a list key a text prints as the list of its characters |
| NoteFormat.ScalarsUnderOtherKeys | app/vault/export.py:235-243 | under any other key a scalar prints on the line of its key |
| NoteFormat.ListLines | app/vault/export.py:235-240 | a list prints its key and then one item a line, in order |
| NoteFormat.KeysInOrder | app/vault/export.py:246-259 | every key prints once, those named in the order first and in that order, the others by code point |
| FrontmatterRoundTrip.PairReads | app/vault/export.py:235-243 | the parser reads a printed pair, scalar or block list, as its collapsed value and goes on after it, or refuses the note if the pair is unreadable |
| FrontmatterParser.ParseNote | scripts/import_vault_wiki.py:121-164 | the parsing loop returns the specified note or error |
| NoteReading.NoteReadsExactly | scripts/import_vault_wiki.py:131-136 | a file is not opened exactly when it does not begin with three dashes and a line feed, not closed exactly when no line of three dashes follows, and otherwise ends its frontmatter at the first one |
| NoteReading.PairReadsExactly | scripts/import_vault_wiki.py:110-155 | a line is a pair exactly when it is a letter with letters, digits and underscores after it, a colon, and the value, taken without the blanks around it |
| NoteReading.PairSets | scripts/import_vault_wiki.py:152-163 | a pair sets its key to nothing, the empty list, or its scalar, and the items after it belong to it |
| NoteReading.ItemSets | scripts/import_vault_wiki.py:143-151 | an item goes to the end of the last key's list, or starts it in place of what the key held; before any key it is refused |
| NoteReading.UnparsableExactly | scripts/import_vault_wiki.py:140-154 | exactly the lines that are not blank, no item and no pair are refused |
| NoteReading.ValueReadsExactly | scripts/import_vault_wiki.py:167-173 | between quotes a value is its inside unescaped, decimal digits are a number, other digits fail, and anything else is a text |
| NoteRoundTrip.DumpSucceeds | app/vault/export.py:262-271 | printing fails exactly when a list key holds a scalar that cannot be iterated |
| NoteRoundTrip.ParseInvertsDump | scripts/import_vault_wiki.py:121-164 | a printed note is parsed as its collapsed metadata and terminated body if and only if its keys are identifiers, its texts single lines, and none is digits that are no number, for every map, key order and body |
| NoteRoundTrip.AcceptedIsCanonical | scripts/import_vault_wiki.py:121-164 | whatever text the parser accepts, the metadata has identifier keys and one-line values |
| NoteRoundTrip.RoundTripsExactly | app/vault/export.py:246-271 | a printed note comes back unchanged if and only if its keys are identifiers and its texts single lines, every value survives, and the body is empty or ends in a line feed |
| NoteRoundTrip.RedumpSameBytes | app/vault/export.py:246-271 | when a note with identifier keys and one-line texts is parsed, printing it again gives the same bytes if and only if no value is a boolean or a negative number |
| NoteRoundTrip.ListReadsSameStrings | scripts/import_vault_wiki.py:176-181 | the importer reads a printed list as the same strings if and only if it holds only texts and integers |
| NoteRoundTrip.LineFeedBreaksNote | app/vault/export.py:219-232 | a text that is a line feed prints into a note the parser refuses |
| NoteRoundTrip.LineFeedAddsKey | app/vault/export.py:219-232 | a text with a line feed that prints into a note the parser accepts with a key it never had |
| Closure.PairJoinsClasses | scripts/remap_vault_reference_ids.py:75-78 | adding a pair relates two ids exactly if they were related or the pair bridges their classes |
| Identity.IdentityClasses.Find | scripts/remap_vault_reference_ids.py:66-73 | returns the representative and terminates; compression changes no id's representative |
| Identity.IdentityClasses.ClimbToRoot | scripts/remap_vault_reference_ids.py:68-70 | the climbing loop ends at the representative |
| Identity.IdentityClasses.Compress | scripts/remap_vault_reference_ids.py:71-72 | the compressing loop keeps the forest and points the id at its representative |
| Identity.IdentityClasses.Union | scripts/remap_vault_reference_ids.py:75-78 | afterwards representatives decide the closure with the new pair added |
| Identity.IdentityClasses.Members | scripts/remap_vault_reference_ids.py:80-84 | returns the known ids grouped by representative |
| Identity.CompressKeepsForest | scripts/remap_vault_reference_ids.py:71-72 | pointing a node at its root keeps the forest and every root |
| Identity.GroupsAreClasses | scripts/remap_vault_reference_ids.py:80-84 | the groups are exactly the equivalence classes of the unioned pairs |
| References.LoadMap | scripts/remap_vault_reference_ids.py:99-104 | one map file adds exactly its usable pairs |
| References.LoadMaps | scripts/remap_vault_reference_ids.py:96-106 | the loaded classes are the closure of all usable pairs |
| References.PointAll | scripts/remap_vault_reference_ids.py:117-118 | every alias of a group points at the target, nothing else changes |
| References.Classify | scripts/remap_vault_reference_ids.py:113-123 | groups with one live id become canonical, with none orphaned, with several ambiguous |
| References.Resolve | scripts/remap_vault_reference_ids.py:109-123 | the canonical map sends an id to a live id exactly when that is the only live id of its class |
| References.ResolveMaps | scripts/remap_vault_reference_ids.py:96-123 | loading and resolving together, decided by the closure of the pairs |
| References.ResolutionCoversKnown | scripts/remap_vault_reference_ids.py:113-123 | every known id is canonical, orphaned or ambiguous, by its class |
| References.OrderOfMapsDoesNotMatter | scripts/remap_vault_reference_ids.py:96-123 | two orders of the same pairs give the same canonical map |
| References.LiveIdsFixed | scripts/remap_vault_reference_ids.py:126-136 | a live id is repointed nowhere |
| References.RepointSound | scripts/remap_vault_reference_ids.py:126-136 | a reference is either left as it was, having no canonical id, or names the only live member of its class |
| References.RemapIdempotent | scripts/remap_vault_reference_ids.py:126-136 | remapping keeps the length, fixes live ids, and remapping twice is remapping once |
| References.EvidenceExactly | scripts/remap_vault_reference_ids.py:96-106 | the pairs of the map files are exactly the entries that name a note |
| Periods.WeekStartsMonday | app/periods.py:16-19 | the weekly window starts at midnight of the Monday of the instant's own week |
| Periods.WindowsPartitionTime | app/periods.py:4-20 | two instants share a daily or weekly window exactly when they share the day or the week |
| Periods.InOwnWindow | app/periods.py:4-20 | an instant lies in the window it is bucketed by |
| Periods.DaysTileWeek | app/periods.py:14-19 | exactly one of a week's seven daily windows holds an instant of that week, none any other |
| Standings.WindowStarts | app/periods.py:4-20 | a window starts at 2000-01-01 by the Gregorian calendar for all time, at the day's midnight, and at its week's midnight counted in whole weeks from a Monday |
| Standings.SentinelIsSaturday | app/periods.py:11-13 | the all-time window starts on a Saturday, so it is no weekly window |
| Scores.Ledger.ApplyScoreWrite | app/leaderboard_routes.py:802-891 | the period loop leaves the specified rows; a duplicate marker leaves everything as it was |
| Scores.RowsAreIndependent | app/leaderboard_routes.py:853-870 | a row depends only on the upserts that hit it, in their order |
| Scores.CumulativeIsSum | app/leaderboard_routes.py:860-866 | a cumulative row is the sum of every increment that hit it |
| Scores.BestIsFirstBest | app/leaderboard_routes.py:872-902 | a best row holds the best score with the run and tier of the submission that first reached it; `Standings.BestInNumbers` says the same of the numbers |
| ScoreLaws.InterleavingKeepsScores | app/leaderboard_routes.py:853-891 | however row upserts interleave, the same rows exist with the same scores |
| ScoreLaws.RowIsBucket | app/leaderboard_routes.py:853-891 | a row is built from exactly the submissions whose instant falls in its window |
| ScoreLaws.CumulativeBucket | app/leaderboard_routes.py:838-870 | a cumulative bucket is the sum of its window and exists exactly when the window is not empty |
| ScoreLaws.BestBucket | app/leaderboard_routes.py:872-902 | a best bucket is the best of its window, first come first kept |
| ScoreLaws.DaysSumToWeek | app/leaderboard_routes.py:853-870 | a week's seven daily buckets sum to its weekly bucket |
| ScoreLaws.WeeksSumToAllTime | app/leaderboard_routes.py:853-870 | the weekly buckets sum to the all-time bucket |
| Standings.BucketExactly | app/leaderboard_routes.py:853-891 | a bucket holds exactly the submissions of its player and mode whose clock falls in its window |
| Standings.BestInNumbers | app/leaderboard_routes.py:872-902 | a best row holds one of the scores that reached it, with the run, tier and time of the first to bring it, and as a number no score is above it in a descending mode or below it in an ascending one |
| Standings.CumulativeInFull | app/leaderboard_routes.py:853-870 | a cumulative row holds the sum and the run, tier and time of its latest increment |
| Validation.ValidatedExactly | app/validation.py:93-186 | a run is validated exactly when its log is plausible and its deserved score exists within bounds; it gets that score at a tier no lower than required |
| Validation.ReasonsExactly | app/validation.py:93-186 | exactly which runs are rejected, and for which reason, from the tier, the log and the claimed or recomputed score |
| Validation.DefaultCeilings | app/validation.py:93-186 | without ceilings of its own a mode takes scores up to 180000000081 and logs up to 50000 actions |
| Validation.ClaimMattersExactly | app/validation.py:93-151 | over all scorers, two claims for one run get one verdict exactly when the log is implausible, the tier is above 2, or the tier is at most 1 and both claims are refused for one reason |
| Validation.FloorMissesRecomputedScores | app/validation.py:139-151 | a recomputed score below the floor is validated |
| Submissions.Board.SubmitScore | app/leaderboard_routes.py:355-455 | a raw submission that runs alone leaves the specified tables and answer; `Admission` says which requests are turned down |
| Submissions.Board.SubmitRun | app/leaderboard_routes.py:472-629 | a run submission that runs alone leaves the specified tables and answer |
| SubmissionLaws.ScoresSettle | app/leaderboard_routes.py:838-891 | after any requests the score table is what the accepted submissions settle to |
| SubmissionLaws.MarkersCountOnce | app/leaderboard_routes.py:839-851 | an idempotency key counts once if recorded and not at all otherwise |
| SubmissionLaws.RunsCountOnce | app/leaderboard_routes.py:529-610 | no run is pending; an accepted run was applied once with its canonical score and tier, any other never |
| SubmissionLaws.AppliedWithinMode | app/leaderboard_routes.py:396-405 | accepted submissions reach their mode's tier and stay under its ceiling |
| SubmissionLaws.AcceptedRunHasStanding | app/leaderboard_routes.py:690-697 | a player with an accepted run has an all-time row in its mode |
| SubmissionLaws.RetryChangesNothing | app/leaderboard_routes.py:529-541 | a second request with the same ticket changes no table |
| Interleaving.CommitServes | app/leaderboard_routes.py:529-629 | committing an interleaved transaction does to the tables what the request alone would do |
| Interleaving.RunKeepsInv | app/leaderboard_routes.py:529-629 | after any interleaving and any aborts the committed tables are those of the committed requests run one at a time in commit order |
| LedgerSafety.TableIsSettled | app/leaderboard_routes.py:802-891 | the committed scores are what the accepted submissions settle to |
| LedgerSafety.RunsAppliedOnce | app/leaderboard_routes.py:529-629 | over every interleaving no committed run is pending, accepted runs are applied exactly once and others never |
| LedgerSafety.MarkersAppliedOnce | app/leaderboard_routes.py:839-851 | over every interleaving each idempotency key is applied exactly once if recorded |
| LedgerSafety.AcceptedWithinMode | app/validation.py:93-186 | over every interleaving accepted submissions have the required tier and a score under the ceiling |
| LedgerSafety.CumulativeBoards | app/leaderboard_routes.py:838-870 | over every interleaving a cumulative bucket is its window's sum, days add up to the week and weeks to all time |
| LedgerSafety.BestBoards | app/leaderboard_routes.py:872-902 | over every interleaving a best bucket is its window's best as first reached |
| Standings.RowInNumbers | app/leaderboard_routes.py:838-902 | over every interleaving a committed row exists exactly when its bucket is not empty, and holds the sum with the latest run, tier and time, or the greatest score for descending modes and the least for ascending ones with the run and tier it came with |
| LedgerSafety.AnswersAreTrue | app/leaderboard_routes.py:612-707 | a success means the submission was accepted, and exactly once if it can be repeated; a denial, now or earlier, means never applied, and no client is told a run is pending |
| Admission.RefusalExactly | app/leaderboard_routes.py:380-431 | exactly which requests get each refusal, from the fields of the mode and the request |
| Admission.ServedOrTurnedDown | app/leaderboard_routes.py:380-431 | a request that runs alone is turned down exactly so, and then changes no table |
| OnceOnly.ServedExactly | app/leaderboard_routes.py:529-629 | a request that runs alone and is not turned down: a run played before is answered with its outcome and a key used before with success, both changing nothing; anything else is recorded under its id or key, and only a run that earned nothing is denied |
| Admission.AnswersRefuseExactly | app/leaderboard_routes.py:380-431 | over every interleaving an answer is a given refusal exactly when the mode and the request call for it |
| Admission.GuestsAreTurnedDown | app/leaderboard_routes.py:407-412 | over every interleaving every answer to a guest in a mode for claimed accounts is a refusal |
| Admission.AcceptedIsEarned | app/leaderboard_routes.py:529-610 | over every interleaving each accepted score is what a committed request earned that may score there, and no guest's: the raw score within the ceiling, the claim at tier 1, or what the scorer made of the run at tier 2 |
| Admission.DenialsAreDeserved | app/leaderboard_routes.py:576-591 | over every interleaving only runs that earned no score are answered as denied |
| Admission.RunsAreRecorded | app/leaderboard_routes.py:548-601 | over every interleaving each recorded run is a committed request's and no guest's: accepted with the score it earned at the required tier, or rejected with the tier the validator gives up at |
| Admission.RunIdsDistinct | app/leaderboard_routes.py:548-560 | over every interleaving no two recorded runs share an id |
| Admission.OnlyRequestsMade | app/leaderboard_routes.py:529-629 | over every interleaving only requests that were made are served, under the clocks they came with |
| OnceOnly.RepeatsExactly | app/leaderboard_routes.py:838-851 | requests share what makes them repeatable exactly when they are runs under one client id, or raw scores under one key in a cumulative mode, of one player and mode |
| OnceOnly.CommittedOnce | app/leaderboard_routes.py:529-629 | over every interleaving no committed request repeats another |
| OnceOnly.AcceptedAreCredits | app/leaderboard_routes.py:529-629 | over every interleaving the accepted submissions are exactly what the committed requests asked for or their runs earned, in commit order |
| OnceOnly.AnswersAreJustified | app/leaderboard_routes.py:612-629 | over every interleaving whoever is told of a success has their own request committed, or for a keyed increment one that it repeats, and whoever is told of an earlier run has one committed that theirs repeats |
| LedgerSafety.StandingExists | app/leaderboard_routes.py:690-697 | the lookup after an accepted run never misses |
| LedgerSafety.FirstRowGuardsTheRest | app/periods.py:23 | a transaction past its first upsert is never blocked |
| LedgerSafety.BlockedExactly | app/leaderboard_routes.py:529-629 | a transaction cannot take its next step exactly when another holds its ticket or has locked its row |
| LedgerSafety.NoWaitingCircle | app/leaderboard_routes.py:529-629 | no deadlock: in no nonempty set of transactions does each wait for another of the set |
| LedgerSafety.SomeoneAdvances | app/leaderboard_routes.py:529-629 | while a transaction is in flight, some transaction can take its next step |
| LedgerProgress.AllFinish | app/leaderboard_routes.py:529-629 | from any moment of any run, steps of what is in flight alone bring everything in flight to an answer |
| LedgerProgress.EveryRequestFinishes | app/leaderboard_routes.py:529-629 | a request made at any moment of any run can be brought to its answer by such steps alone |
| Ranking.ListingOrdered | app/leaderboard_routes.py:285-300 | the listing holds exactly the board's rows, strictly ordered; `Standings.ListingInNumbers` says by which numbers |
| Standings.ListingInNumbers | app/leaderboard_routes.py:285-300 | of two rows of a listing the first has the better score, or the same and the earlier time, or both the same and the lower id; so a descending listing never rises and an ascending one never falls |
| Ranking.OrderIsUnique | app/leaderboard_routes.py:285-300 | there is only one such order, because ties are impossible |
| Ranking.RankIsPosition | app/leaderboard_routes.py:285-300 | the row listed at a position has that position, counted from one, as its rank |
| Ranking.RanksAreBijective | app/leaderboard_routes.py:285-300 | ranks are a bijection onto 1..n |
| Ranking.PageRanks | app/leaderboard_routes.py:285-300 | the page at an offset carries the ranks after it |
| Ranking.PagesJoin | app/leaderboard_routes.py:297-300 | two consecutive pages are one longer page |
| Ranking.WalkCoversBoard | app/leaderboard_routes.py:285-300 | paging far enough gives every row once, ranked 1 to n in order |
| Ranking.TotalIsBoardSize | app/leaderboard_routes.py:313-322 | every page reports the board's size, also an empty one past the end |
| Ranking.FetchAgreesWithListing | app/leaderboard_routes.py:747-800 | the single-player lookup returns a row exactly as the listing shows it |
| Boards.LookupExact | app/leaderboard_routes.py:747-800 | on any window of the score table the single-player lookup finds exactly the players with a row, and shows that row at its listed place |
| Boards.SomeBoard | app/leaderboard_routes.py:285-300 | every window of every score table has a board, each of its rows once |
| Boards.StoredIsRanked | app/leaderboard_routes.py:456-462 | over every interleaving the lookup after an answer of success never misses, and shows the player's all-time row ranked where the listing has it |
| Base64.Decode64Encodes | app/vault/cursors.py:101-101 | base64url decoding inverts encoding |
| Base64.PaddingReturns | app/vault/cursors.py:115-115 | stripped padding can be restored from the length, which is four thirds of the bytes rounded up |
| Utf8.DecodeEncodes | app/vault/cursors.py:101-101 | UTF-8 decoding inverts encoding |
| Json.StringReadsBack | app/vault/cursors.py:92-100 | parsing an escaped string gives it back and stops at its closing quote |
| Cursor.PayloadReads | app/vault/cursors.py:92-100 | the payload parses as one object with the three members |
| Cursor.TokensDistinct | app/vault/cursors.py:84-101 | different positions have different tokens |
| Cursor.DecodesExactlyWhatWasIssued | app/vault/cursors.py:104-198 | a token is honoured exactly when it is, character for character, the one issued for that sort, key and id, both free of NUL |
| Cursor.NamesOtherOrder | app/vault/cursors.py:193-197 | the other-order answer is given exactly to tokens issued for that other order |
| Cursor.EncodesExactly | app/vault/cursors.py:92-101 | a position has a token exactly when none of its texts holds a surrogate |
| Cursor.IssuedTokensFit | app/vault/cursors.py:49-71 | any path of up to 1024 characters and id of up to 245 fit the bound |
| CursorFormat.PayloadSpelled | app/vault/cursors.py:92-100 | the payload is the compact JSON object of the three members in the order s, k, i |
| CursorFormat.EscapesExactly | app/vault/cursors.py:92-100 | the seven short escapes, four hex digits for other control characters, and every other character as it is |
| CursorFormat.Utf8Exactly | app/vault/cursors.py:101-101 | a character takes the fewest of one to four bytes, whose free bits spell it |
| CursorFormat.Base64Exactly | app/vault/cursors.py:101-101 | three bytes are four digits of one number in the URL-safe alphabet, and one or two bytes leave padding |
| CursorFormat.TokenExists | app/vault/cursors.py:92-101 | a position has a token exactly when no character of its texts is a surrogate |
| CursorFormat.TokenSpelled | app/vault/cursors.py:84-101 | a token is the base64url digits of the encoded payload without their padding |
| CursorFormat.TokensFit | app/vault/cursors.py:49-71 | every token of the four orders, for such a path and id, fits 10240 characters |
| Export.Documents | app/vault/export.py:788-804 | the page loop returns exactly the exported rows in order, for every page size but zero |
| Export.WalkIsExact | app/vault/export.py:788-804 | the walk sees every exported row, no other, and none twice |
| ExportPaths.LaterExactly | app/vault/export.py:788-804 | the walk goes on after a cursor with the greater paths, and with the greater ids of the same path, by code point |
| ExportPaths.PageExactly | app/vault/repository.py:694-739 | a page holds exported rows ahead of the cursor, in order, no row ahead that it leaves out comes before one it holds, and it is full unless it leaves none out |
| Export.CanonicalPathsDistinct | app/vault/export.py:687-709 | different canonical paths are different files, and a canonical exported path is never refused |
| ExportPaths.ExportedExactly | app/vault/export.py:108-113 | exactly what lies in one of the four folders is exported |
| ExportPaths.ResolvesExactly | app/vault/export.py:687-709 | a path resolves exactly when it lies in one of the four folders and none of its parts is two dots, and then to its parts that are not empty or a dot |
| ExportPaths.OwnedExactly | app/vault/export.py:885-909 | the export owns exactly the markdown files at any depth in the four folders |
| ExportPaths.IndexStands | app/vault/export.py:829-832 | the generated index resolves to `_index.md` in the wiki folder |
| ExportTree.Tree.CollectOrphans | app/vault/export.py:885-909 | the sweep finds exactly the unexpected markdown files under the owned prefixes |
| ExportTree.Tree.Export | app/vault/export.py:806-868 | a run leaves the specified files and report; a refused path ends it with the earlier files written and nothing pruned |
| ExportTree.ExportProjects | app/vault/export.py:806-868 | after one apply-and-prune run targets hold their contents, other owned markdown is gone, every other file is untouched |
| ExportTree.SecondRunIsIdle | app/vault/export.py:806-868 | a second run prunes nothing, and writes nothing exactly when no two items disagree about a file |
| ExportTree.DistinctPathsAgree | app/vault/export.py:687-709 | distinct canonical paths never disagree |
| ExportTree.RowAtIndexPathNeverSettles | app/vault/export.py:829-836 | a stored row at the index path keeps every later run writing |
| ExportTree.DryRunPredicts | app/vault/export.py:838-866 | for distinct files a dry run changes nothing and reports what the real run does |
| ExportTree.ModesExactly | app/vault/export.py:835-868 | only an applying run writes, only an applying and pruning one deletes, and every run counts its items and names the owned files that no item asks for |
| CorpusExport.ExportCorpus | app/vault/export.py:806-868 | walk, index and passes together: the specified files and report, or the first refused path |
| CorpusExport.CorpusConverges | app/vault/export.py:806-868 | for canonical unique paths nothing is refused, a second run prunes nothing, and it writes nothing exactly when no stored row at the index path holds something else |
| CorpusExport.CorpusLands | app/vault/export.py:823-851 | after a run each exported row's file holds the row, except that the index wins its own path |
| EmbeddingText.AssembleEmbeddingText | app/vault/embedding_text.py:51-89 | the appended head and body make the specified text |
| EmbeddingText.TextSpelled | app/vault/embedding_text.py:51-89 | the stripped title, then a line each for aliases, tags and summary where they are not blank, and the body after a blank line |
| EmbeddingText.TermsExactly | app/vault/embedding_text.py:37-48 | the terms are the stripped values that are not blank, each once, in the order of their characters |
| EmbeddingText.TermsDecide | app/vault/embedding_text.py:37-48 | two term lists render alike exactly when they hold the same terms |
| EmbeddingText.SameTermsSameDigest | app/vault/embedding_text.py:37-105 | reordering, repeating or padding terms keeps the digest |
| EmbeddingText.SummaryChangesDigest | app/vault/embedding_text.py:84-89 | filling in a summary changes the digest exactly when it is not blank |
| EmbeddingText.TermLinesDecideDigest | app/vault/embedding_text.py:76-105 | with one title, summary and body, two choices of aliases and tags have one digest exactly when their term lines read alike |
| EmbeddingText.AliasesPassForTags | app/vault/embedding_text.py:76-82 | a document's only aliases and its only tags have one digest |
| Backfill.Emit | scripts/backfill_vault_summaries.py:211-252 | one entry per note, with the revision and body it was read at |
| BackfillReading.EmittedExactly | scripts/backfill_vault_summaries.py:211-252 | an emitted entry carries its note's id, revision, title and body, and an empty summary |
| Backfill.ReadWorkFile | scripts/backfill_vault_summaries.py:255-368 | the reading loop returns the specified work, skipped ids and problems |
| BackfillReading.ReadExactly | scripts/backfill_vault_summaries.py:255-368 | a file of another version is one problem; ids with two summaries are the only problems then; otherwise each entry is work, a problem or skipped by its revision and length against the notes |
| BackfillReading.EntriesExactly | scripts/backfill_vault_summaries.py:328-368 | an entry is work exactly when its summary of 1 to 2000 characters was written at the note's own revision, and a problem without a revision, at another, or when longer |
| Backfill.EmbedAll | scripts/backfill_vault_summaries.py:412-434 | every item gets the digest of its own text, and with a pointwise provider its own vector, whatever the batching |
| BackfillReading.GovernedExactly | app/vault/governance.py:129-150 | an item passes exactly when title, body and contributor are not blank and its tags are not blank and all different |
| BackfillReading.WrittenExactly | scripts/backfill_vault_summaries.py:475-530 | an item is written exactly when its row is an active note without a summary at the revision it was read at, and then changes only its summary, revision and embedding |
| BackfillReading.ListedExactly | scripts/backfill_vault_summaries.py:163-193 | a listing names exactly the active notes without a summary, each as it stands |
| Backfill.Vault.Write | scripts/backfill_vault_summaries.py:475-530 | the write loop leaves the specified rows and embeddings and reports written and stale |
| BackfillSafety.WriteStepsAreWriteAll | scripts/backfill_vault_summaries.py:475-530 | the logged steps of a run are the write itself |
| BackfillSafety.RunKeepsInv | scripts/backfill_vault_summaries.py:211-530 | over every run with other writers, files stay honest, plans match their files, and the log stays true |
| BackfillReading.WritesAreSound | scripts/backfill_vault_summaries.py:211-530 | over every run with other writers, each write gives a fit note a summary of 1 to 2000 characters |
| BackfillTheorems.SummaryDescribesItsRow | scripts/backfill_vault_summaries.py:333-366 | while a row is at the revision a write left, its summary was authored against exactly its body and a stored digest is that of its text |
| BackfillTheorems.NeverWrittenTwice | scripts/backfill_vault_summaries.py:481-497 | no revision of a document is written to twice, by any runs over any files |
| BackfillTheorems.WrittenRowsLand | scripts/backfill_vault_summaries.py:481-528 | each note reported written has its summary, next revision, vector and digest |
| BackfillTheorems.OtherRowsUntouched | scripts/backfill_vault_summaries.py:498-500 | stale notes and unnamed rows are left exactly as they were |
| BackfillTheorems.RerunRepeatsNothing | scripts/backfill_vault_summaries.py:333-366 | the same file run again, after any later events by anyone, never takes up a note that a run over it has written |
| BackfillTheorems.PlannedTakenUpExactly | scripts/backfill_vault_summaries.py:333-366 | a planned note is taken up by a later run over its file exactly when the file reads without a problem and the row is as the plan found it |
| BackfillTheorems.NothingCarriedRemains | scripts/backfill_vault_summaries.py:333-366 | straight after its write none of a run's notes, written or stale, can be taken up again |
| BackfillProgress.UndisturbedRunWritesAll | scripts/backfill_vault_summaries.py:255-530 | planning and writing with nobody in between writes everything that was planned and leaves nothing stale |
| BackfillProgress.CompleteFileFillsAll | scripts/backfill_vault_summaries.py:211-530 | after any run, emitting the notes, giving each fit one a summary of 1 to 2000 characters, planning and writing leaves no active note without a summary |
| AccountSafety.RunKeepsInv | app/auth_identities.py:72-182 | over every interleaving sessions hold disjoint users, names, emails and identities, and the tables keep their laws |
| AccountSafety.PruneKeepsIdentities | scripts/prune_guests.py:47-65 | deleting a prunable guest cascades to no identity |
| AccountTheorems.OwnersAreNeverGuests | app/auth_identities.py:72-182 | over every interleaving an identity's owner exists and is no guest, and usernames and emails are unique |
| AccountTheorems.PruneSparesOwners | scripts/prune_guests.py:47-65 | pruning deletes no identity and no owner of one |
| AccountOutcomes.PrunesExactly | scripts/prune_guests.py:47-65 | pruning deletes exactly old guests that never played and nobody is just changing, and touches nobody else |
| AccountOutcomes.PlayersStay | scripts/prune_guests.py:47-65 | over every interleaving whoever has played is never deleted |
| AccountTheorems.LoginsAgree | app/auth_identities.py:72-127 | all completed operations with one identity name the same user, who still owns it |
| AccountTheorems.FailuresWriteNothing | app/auth_routes.py:165-183 | a session changes the tables only in the step that commits it and answers success |
| AccountOutcomes.AnswerMeans | app/auth_identities.py:72-182 | the step that answers a session leaves exactly the users and identities its operation calls for, or changes nothing and refuses for what is then the case |
| AccountOutcomes.AnswersStayTrue | app/auth_routes.py:163-202 | over every interleaving, at any later time the account named to whoever registered, claimed, linked or logged in is durable and has the name and email they gave |
| AccountOutcomes.FirstDraw | app/auth_identities.py:88-92 | the first draw is of the first name |
| AccountOutcomes.NextDraw | app/auth_identities.py:88-127 | five usernames are drawn, the next exactly when the last is somebody's |
| AccountTheorems.RacedLookupHits | app/auth_identities.py:120-125 | the lookup after a lost race always finds the winner |
| AccountTheorems.DisputedIdentityHasOwner | app/auth_identities.py:169-180 | a link that meets an existing identity always finds its owner |
| AccountTheorems.DurableForever | app/auth_identities.py:143-156 | once durable, an account is never deleted or made a guest again, and keeps its name, email and identities |
| AccountTheorems.BlockedExactly | app/auth_identities.py:72-182 | a session cannot take its next step exactly when another holds a row, name, email or identity it needs |
| AccountTheorems.NoWaitingCircle | app/auth_identities.py:72-182 | no deadlock: in no nonempty set of sessions does each wait for another of the set |
| AccountTheorems.SomeoneAdvances | app/auth_routes.py:496-527 | while a session is in flight, some session can take its next step |
| AccountProgress.AllFinish | app/auth_identities.py:72-182 | from any moment of any run, steps of what is in flight alone bring every operation in flight to an answer |
| AccountProgress.EveryOperationFinishes | app/auth_identities.py:72-182 | an operation asked for at any moment of any run can be brought to its answer by such steps alone |

## Left out

- HTTP, rate limits, tokens, hashing of passwords, caches, SQL text and drivers: tables are maps with their unique keys.
- PatchTheory.ApplyPatchMeans: a hunk header may spell its numbers with any number of digits (`UnifiedDiff.ParseHeader`), where `int` raises on more than 4300.
- FrontmatterRoundTrip.ScalarReadsBack: a number may have any number of digits, where `int` and `str` raise on more than 4300.
- NoteRoundTrip.ParseInvertsDump: the same, and so for RoundTripsExactly and RedumpSameBytes.
- Characters: which characters are digits is that of Unicode 15.
- Body separators: splitting follows Python on every separator; the theorems about whole texts state exactly which separators they need.
- difflib: opcodes are any list that tiles both sides and is truthful about equal runs; how matches are chosen is not modelled.
- Frontmatter values: nested mappings, dates and other Python types are not values of the model, and bodies are any text.
- Percentiles, validated flags and usernames in listings: arithmetic and projections of the modelled rows.
- Game modes: their configuration is fixed during a run, and idempotency markers are never pruned.
- Score width: sums are unbounded integers; the 64-bit column's overflow error is not modelled.
- Ledger statements: each statement sees what is committed and locks what it writes until its transaction ends; statement snapshots and lock queues are not modelled further.
- Run rows: claimed score, claimed tier and the stored action log are recorded but play no part in the model.
- Accounts: renaming, password login, refresh tokens and the shape of provider names are not modelled; a prune is one delete per user.
- Export rendering: the text of a row is given; its field projections, warnings, the order of names in the report, symbolic links and directories in the way of files are not modelled.
- Cursor payloads in UTF-16 or UTF-32: the model refuses them while parsing, as the byte-for-byte comparison would.
- Digests and vectors: SHA-256 is taken as free of collisions and a vector is whatever the provider returns.
- Backfill reporting: counts, printed plans and exit codes are not modelled, and ids in a work file are always texts.
- Work files: the instructions and the timestamp are not modelled, because nothing reads them back.
