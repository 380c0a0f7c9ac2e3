/**
  The summary backfill, phase by phase (scripts/backfill_vault_summaries.py): plan and
  emit a work file, read it back against the corpus, embed, and write under a
  compare-and-set on the revision.
 */
module Backfill {
  import opened Wrappers
  import opened PyText
  import opened EmbeddingText

  const MAX_SUMMARY_CHARS := 2_000
  const EMBED_BATCH_SIZE := 64
  const WORK_FILE_SCHEMA_VERSION := 2
  const MIN_BODY_CHARS := 1

  datatype Kind = Note | Wiki

  datatype DocStatus = Active | Flagged | Archived

  datatype Row = Row(
    title: string, body: string, summary: Option<string>, tags: seq<string>, aliases: seq<string>,
    contributedBy: string, kind: Kind, status: DocStatus, revision: int)

  /** One row per document and embedding profile. */
  datatype EmbeddingKey = EmbeddingKey(id: string, profile: string)

  type Vector = seq<real>

  datatype Embedding = Embedding(vector: Vector, digest: Digest)

  datatype Corpus = Corpus(rows: map<string, Row>, embeddings: map<EmbeddingKey, Embedding>)

  /** A note with no summary, as read at `revision`. */
  datatype Undescribed = Undescribed(
    id: string, title: string, body: string, tags: seq<string>, aliases: seq<string>, contributedBy: string,
    revision: int)

  datatype Authored = Authored(note: Undescribed, summary: string)

  datatype Embedded = Embedded(item: Authored, vector: Vector, digest: Digest)

  /** One work-file entry; the fields an author may have removed are optional. */
  datatype Entry = Entry(id: string, revision: Option<int>, title: string, summary: Option<string>, body: string)

  datatype WorkFile = WorkFile(version: Option<int>, notes: seq<Entry>)

  datatype GovernanceError = NoTitle | NoBody | NoContributor | BadTag(tag: string) | DuplicateTags

  datatype Problem =
    | WrongVersion(version: Option<int>)
    | Repeated(id: string)
    | NoRevision(id: string)
    | Moved(id: string, authored: int, now: int)
    | TooLong(id: string, chars: nat)
    | Ungoverned(id: string, errors: seq<GovernanceError>)

  datatype Reading = Reading(work: seq<Authored>, skipped: seq<string>, problems: seq<Problem>)

  // ------------------------------------------------------------ plan and emit

  /** The plan's predicate: an active note with no summary. */
  predicate Lacking(row: Row) {
    row.kind == Note && row.status == Active && row.summary == None
  }

  function Snapshot(id: string, row: Row): Undescribed {
    Undescribed(id, row.title, row.body, row.tags, row.aliases, row.contributedBy, row.revision)
  }

  /** `load_undescribed` answers some listing of exactly the undescribed notes. */
  ghost predicate Lists(corpus: Corpus, notes: seq<Undescribed>) {
    && (forall i :: 0 <= i < |notes| ==>
          notes[i].id in corpus.rows && Lacking(corpus.rows[notes[i].id])
          && notes[i] == Snapshot(notes[i].id, corpus.rows[notes[i].id]))
    && (forall id :: id in corpus.rows && Lacking(corpus.rows[id]) ==> Snapshot(id, corpus.rows[id]) in notes)
    && (forall i, j :: 0 <= i < j < |notes| ==> notes[i].id != notes[j].id)
  }

  function EntryFor(note: Undescribed): Entry {
    Entry(note.id, Some(note.revision), note.title, Some(""), note.body)
  }

  method Emit(notes: seq<Undescribed>) returns (file: WorkFile)
    ensures file.version == Some(WORK_FILE_SCHEMA_VERSION) && |file.notes| == |notes|
    ensures forall i :: 0 <= i < |notes| ==> file.notes[i] == EntryFor(notes[i])
  {
    var entries := [];
    for i := 0 to |notes|
      invariant |entries| == i
      invariant forall j :: 0 <= j < i ==> entries[j] == EntryFor(notes[j])
    {
      entries := entries + [Entry(notes[i].id, Some(notes[i].revision), notes[i].title, Some(""), notes[i].body)];
    }
    file := WorkFile(Some(WORK_FILE_SCHEMA_VERSION), entries);
  }

  // -------------------------------------------------------- reading it back

  function SummaryOf(entry: Entry): string {
    Strip(if entry.summary.Some? then entry.summary.value else "")
  }

  /** The ids of the entries that carry a summary, in order. */
  function AuthoredIds(entries: seq<Entry>): seq<string> {
    if entries == [] then []
    else (if SummaryOf(entries[0]) != "" then [entries[0].id] else []) + AuthoredIds(entries[1..])
  }

  function Repeats(ids: seq<string>): set<string> {
    set id | id in ids && multiset(ids)[id] > 1
  }

  /** The note of that id, the last one if several. */
  function NoteOf(notes: seq<Undescribed>, id: string): Option<Undescribed> {
    if notes == [] then None
    else if notes[|notes| - 1].id == id then Some(notes[|notes| - 1])
    else NoteOf(notes[..|notes| - 1], id)
  }

  /** What the loop adds for one entry. */
  function ReadEntry(notes: seq<Undescribed>, entry: Entry): Reading {
    var summary := SummaryOf(entry);
    var note := NoteOf(notes, entry.id);
    if summary == "" then Reading([], [], [])
    else if note.None? then Reading([], [entry.id], [])
    else if entry.revision.None? then Reading([], [], [NoRevision(entry.id)])
    else if entry.revision.value != note.value.revision then
      Reading([], [], [Moved(entry.id, entry.revision.value, note.value.revision)])
    else if |summary| > MAX_SUMMARY_CHARS then Reading([], [], [TooLong(entry.id, |summary|)])
    else Reading([Authored(note.value, summary)], [], [])
  }

  function ReadEntries(notes: seq<Undescribed>, entries: seq<Entry>): Reading {
    if entries == [] then Reading([], [], [])
    else
      var before := ReadEntries(notes, entries[..|entries| - 1]);
      var last := ReadEntry(notes, entries[|entries| - 1]);
      Reading(before.work + last.work, before.skipped + last.skipped, before.problems + last.problems)
  }

  function RepeatProblems(ids: seq<string>): seq<Problem> {
    seq(|ids|, i requires 0 <= i < |ids| => Repeated(ids[i]))
  }

  /** What `read_work_file` returns. */
  function ReadFile(file: WorkFile, notes: seq<Undescribed>): Reading {
    var repeated := Sorted(Repeats(AuthoredIds(file.notes)));
    if file.version != Some(WORK_FILE_SCHEMA_VERSION) then Reading([], [], [WrongVersion(file.version)])
    else if repeated != [] then Reading([], [], RepeatProblems(repeated))
    else ReadEntries(notes, file.notes)
  }

  lemma {:induction false} NoteOfNone(notes: seq<Undescribed>, id: string)
    ensures NoteOf(notes, id).None? <==> forall i :: 0 <= i < |notes| ==> notes[i].id != id
    ensures NoteOf(notes, id).Some? ==> NoteOf(notes, id).value in notes && NoteOf(notes, id).value.id == id
  {
    if notes != [] {
      NoteOfNone(notes[..|notes| - 1], id);
      assert notes == notes[..|notes| - 1] + [notes[|notes| - 1]];
    }
  }

  /** The notes by id, a later one replacing an earlier. */
  method Index(notes: seq<Undescribed>) returns (byId: map<string, Undescribed>)
    ensures forall id :: id in byId <==> NoteOf(notes, id).Some?
    ensures forall id :: id in byId ==> NoteOf(notes, id) == Some(byId[id])
  {
    byId := map[];
    for i := 0 to |notes|
      invariant forall id :: id in byId <==> NoteOf(notes[..i], id).Some?
      invariant forall id :: id in byId ==> NoteOf(notes[..i], id) == Some(byId[id])
    {
      assert notes[..i + 1][..i] == notes[..i];
      byId := byId[notes[i].id := notes[i]];
    }
    assert notes[..|notes|] == notes;
  }

  method ReadWorkFile(file: WorkFile, notes: seq<Undescribed>) returns (reading: Reading)
    ensures reading == ReadFile(file, notes)
  {
    hide NoteOf, Strip, Sorted, Repeats, AuthoredIds;
    var byId := Index(notes);
    if file.version != Some(WORK_FILE_SCHEMA_VERSION) {
      return Reading([], [], [WrongVersion(file.version)]);
    }
    var repeated := Sorted(Repeats(AuthoredIds(file.notes)));
    if repeated != [] { return Reading([], [], RepeatProblems(repeated)); }
    var work: seq<Authored>, skipped: seq<string>, problems: seq<Problem> := [], [], [];
    for i := 0 to |file.notes|
      invariant Reading(work, skipped, problems) == ReadEntries(notes, file.notes[..i])
    {
      assert file.notes[..i + 1][..i] == file.notes[..i];
      var entry := file.notes[i];
      var summary := SummaryOf(entry);
      if summary == "" { continue; }
      if entry.id !in byId {
        skipped := skipped + [entry.id];
        continue;
      }
      var note := byId[entry.id];
      if entry.revision.None? {
        problems := problems + [NoRevision(entry.id)];
        continue;
      }
      if entry.revision.value != note.revision {
        problems := problems + [Moved(entry.id, entry.revision.value, note.revision)];
        continue;
      }
      if |summary| > MAX_SUMMARY_CHARS {
        problems := problems + [TooLong(entry.id, |summary|)];
        continue;
      }
      work := work + [Authored(note, summary)];
    }
    assert file.notes[..|file.notes|] == file.notes;
    reading := Reading(work, skipped, problems);
  }

  // -------------------------------------------------------------- governance

  /** The document the note becomes with its summary. */
  function Described(item: Authored): Embeddable {
    Embeddable(item.note.title, item.note.body, Some(item.summary), item.note.tags, item.note.aliases)
  }

  function BadTags(tags: seq<string>): seq<GovernanceError> {
    if tags == [] then []
    else (if Strip(tags[0]) == "" then [BadTag(tags[0])] else []) + BadTags(tags[1..])
  }

  /** `governance.validate`. */
  function GovernanceErrors(item: Authored): seq<GovernanceError> {
    (if Strip(item.note.title) == "" then [NoTitle] else [])
    + (if |Strip(item.note.body)| < MIN_BODY_CHARS then [NoBody] else [])
    + (if Strip(item.note.contributedBy) == "" then [NoContributor] else [])
    + BadTags(item.note.tags)
    + (if |item.note.tags| != |set tag | tag in item.note.tags| then [DuplicateTags] else [])
  }

  function GovernanceProblems(work: seq<Authored>): seq<Problem> {
    if work == [] then []
    else
      (if GovernanceErrors(work[0]) != [] then [Ungoverned(work[0].note.id, GovernanceErrors(work[0]))] else [])
      + GovernanceProblems(work[1..])
  }

  // ------------------------------------------------------------------- embed

  /** The provider: one vector per text, or an error. */
  type Provider = seq<string> -> Option<seq<Vector>>

  /** It embeds each text of a batch by itself, in order. */
  ghost predicate Pointwise(provider: Provider, vectorOf: string -> Vector) {
    forall batch :: provider(batch) == Some(VectorsOf(batch, vectorOf))
  }

  function TextOf(item: Authored): string {
    EmbeddedText(Described(item), true)
  }

  /** Each item with the vector and the digest of its own text. */
  function EmbedEach(work: seq<Authored>, vectorOf: string -> Vector): seq<Embedded> {
    seq(|work|, i requires 0 <= i < |work| => Embedded(work[i], vectorOf(TextOf(work[i])), Sha256(TextOf(work[i]))))
  }

  function VectorsOf(texts: seq<string>, vectorOf: string -> Vector): seq<Vector> {
    seq(|texts|, i requires 0 <= i < |texts| => vectorOf(texts[i]))
  }

  lemma VectorsOfSlices(texts: seq<string>, vectorOf: string -> Vector, start: nat, stop: nat)
    requires start <= stop <= |texts|
    ensures VectorsOf(texts[..start], vectorOf) + VectorsOf(texts[start..stop], vectorOf)
            == VectorsOf(texts[..stop], vectorOf)
  {
  }

  /** The batch loop: with a pointwise provider, batching makes no difference. */
  method EmbedBatches(provider: Provider, texts: seq<string>, ghost vectorOf: string -> Vector)
    returns (vectors: Option<seq<Vector>>)
    ensures Pointwise(provider, vectorOf) ==> vectors == Some(VectorsOf(texts, vectorOf))
  {
    var all: seq<Vector> := [];
    var start := 0;
    while start < |texts|
      invariant 0 <= start
      invariant Pointwise(provider, vectorOf) ==>
                  all == VectorsOf(texts[..if start < |texts| then start else |texts|], vectorOf)
    {
      var stop := if start + EMBED_BATCH_SIZE < |texts| then start + EMBED_BATCH_SIZE else |texts|;
      var batch := provider(texts[start..stop]);
      if batch.None? { return None; }
      assert Pointwise(provider, vectorOf) ==> batch.value == VectorsOf(texts[start..stop], vectorOf);
      VectorsOfSlices(texts, vectorOf, start, stop);
      all := all + batch.value;
      start := start + EMBED_BATCH_SIZE;
    }
    assert texts[..|texts|] == texts;
    vectors := Some(all);
  }

  /**
    `embed_all`. Batching never pairs an item with another item's vector; a provider that
    answers with too few or too many vectors fails the run.
   */
  method EmbedAll(provider: Provider, work: seq<Authored>, ghost vectorOf: string -> Vector)
    returns (embedded: Option<seq<Embedded>>)
    ensures Pointwise(provider, vectorOf) ==> embedded == Some(EmbedEach(work, vectorOf))
    ensures embedded.Some? ==>
              && |embedded.value| == |work|
              && (forall i :: 0 <= i < |work| ==>
                    embedded.value[i].item == work[i] && embedded.value[i].digest == DigestFor(Described(work[i])))
  {
    hide EmbeddedText;
    hide Pointwise;
    var texts := seq(|work|, i requires 0 <= i < |work| => TextOf(work[i]));
    var batches := EmbedBatches(provider, texts, vectorOf);
    if batches.None? { return None; }
    var vectors := batches.value;
    if |vectors| != |work| { return None; }
    embedded := Some(seq(|work|, i requires 0 <= i < |work| => Embedded(work[i], vectors[i], Sha256(texts[i]))));
    assert Pointwise(provider, vectorOf) ==> embedded.value == EmbedEach(work, vectorOf);
  }

  // ------------------------------------------------------------------- write

  /** The update's predicate. */
  predicate Current(corpus: Corpus, note: Undescribed) {
    note.id in corpus.rows && Lacking(corpus.rows[note.id]) && corpus.rows[note.id].revision == note.revision
  }

  function WriteRow(corpus: Corpus, e: Embedded, profile: string): Corpus
    requires e.item.note.id in corpus.rows
  {
    var id := e.item.note.id;
    var row := corpus.rows[id];
    Corpus(
      corpus.rows[id := row.(summary := Some(e.item.summary), revision := row.revision + 1)],
      corpus.embeddings[EmbeddingKey(id, profile) := Embedding(e.vector, e.digest)])
  }

  datatype Written = Written(corpus: Corpus, written: seq<Embedded>, stale: seq<Undescribed>)

  /** What `write` leaves and reports. */
  function WriteAll(corpus: Corpus, embedded: seq<Embedded>, profile: string): Written {
    if embedded == [] then Written(corpus, [], [])
    else
      var before := WriteAll(corpus, embedded[..|embedded| - 1], profile);
      var e := embedded[|embedded| - 1];
      if Current(before.corpus, e.item.note) then
        Written(WriteRow(before.corpus, e, profile), before.written + [e], before.stale)
      else Written(before.corpus, before.written, before.stale + [e.item.note])
  }

  class Vault {
    var rows: map<string, Row>
    var embeddings: map<EmbeddingKey, Embedding>

    constructor (corpus: Corpus)
      ensures Contents() == corpus
    {
      rows, embeddings := corpus.rows, corpus.embeddings;
    }

    function Contents(): Corpus
      reads this
    {
      Corpus(rows, embeddings)
    }

    method Write(embedded: seq<Embedded>, profile: string) returns (written: seq<Embedded>, stale: seq<Undescribed>)
      modifies this
      ensures Written(Contents(), written, stale) == WriteAll(old(Contents()), embedded, profile)
    {
      written, stale := [], [];
      for i := 0 to |embedded|
        invariant Written(Contents(), written, stale) == WriteAll(old(Contents()), embedded[..i], profile)
      {
        assert embedded[..i + 1][..i] == embedded[..i];
        var e := embedded[i];
        var note := e.item.note;
        if note.id in rows && rows[note.id].summary == None && rows[note.id].revision == note.revision
           && rows[note.id].kind == Note && rows[note.id].status == Active
        {
          rows := rows[note.id := rows[note.id].(summary := Some(e.item.summary),
                                                 revision := rows[note.id].revision + 1)];
          embeddings := embeddings[EmbeddingKey(note.id, profile) := Embedding(e.vector, e.digest)];
          written := written + [e];
        } else {
          stale := stale + [note];
        }
      }
      assert embedded[..|embedded|] == embedded;
    }
  }
}
