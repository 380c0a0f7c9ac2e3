/**
  What the summary backfill keeps while other writers change the corpus between its
  phases. Other writers raise a document's revision whenever they change its content.
 */
module BackfillSafety {
  import opened Wrappers
  import opened PyText
  import opened EmbeddingText
  import opened Backfill

  /** What a revision number stands for. */
  datatype Version = Version(revision: int, content: Embeddable)

  /** A run that has planned, read its work file and embedded. */
  datatype Plan = Plan(file: WorkFile, items: seq<Embedded>)

  datatype LoggedWrite = LoggedWrite(e: Embedded, file: WorkFile, profile: string)

  /** `last` is the newest version each document has had; `log` lists the backfill's writes. */
  datatype State = State(
    corpus: Corpus, last: map<string, Version>, files: map<nat, WorkFile>, plans: map<nat, Plan>, log: seq<LoggedWrite>)

  datatype Event =
    | EmitFile(file: nat, notes: seq<Undescribed>)
    | Author(file: nat, result: nat, entries: seq<Entry>)
    | Prepare(run: nat, file: nat, notes: seq<Undescribed>, vectorOf: string -> Vector)
    | Apply(run: nat, profile: string)
    | OtherWriters(corpus: Corpus)

  function ContentOf(row: Row): Embeddable {
    Embeddable(row.title, row.body, row.summary, row.tags, row.aliases)
  }

  function VersionOf(row: Row): Version {
    Version(row.revision, ContentOf(row))
  }

  function NoteVersion(note: Undescribed): Version {
    Version(note.revision, Embeddable(note.title, note.body, None, note.tags, note.aliases))
  }

  /** The versions after the corpus has changed. */
  function Newest(last: map<string, Version>, rows: map<string, Row>): map<string, Version> {
    last + map id | id in rows :: VersionOf(rows[id])
  }

  /** Other writers bump the revision with the content, and store no digest of anything but a row's current text. */
  ghost predicate Allowed(s: State, corpus: Corpus) {
    && (forall id :: id in corpus.rows && id in s.last ==>
          corpus.rows[id].revision > s.last[id].revision || VersionOf(corpus.rows[id]) == s.last[id])
    && (forall key :: key in corpus.embeddings ==>
          (key in s.corpus.embeddings && corpus.embeddings[key] == s.corpus.embeddings[key])
          || (key.id in corpus.rows && corpus.embeddings[key].digest == DigestFor(ContentOf(corpus.rows[key.id]))))
  }

  /** An entry of the file, with another summary or the same. */
  ghost predicate FilledIn(file: WorkFile, filled: Entry) {
    exists e :: e in file.notes && filled == e.(summary := filled.summary)
  }

  /** The author fills in summaries; entries may be dropped, repeated or reordered. */
  ghost predicate FilledFrom(file: WorkFile, entries: seq<Entry>) {
    forall i :: 0 <= i < |entries| ==> FilledIn(file, entries[i])
  }

  /** One compare-and-set write of a run. */
  function WriteStep(s: State, e: Embedded, file: WorkFile, profile: string): State {
    if Current(s.corpus, e.item.note) then
      var corpus := WriteRow(s.corpus, e, profile);
      s.(corpus := corpus, last := Newest(s.last, corpus.rows), log := s.log + [LoggedWrite(e, file, profile)])
    else s
  }

  function WriteSteps(s: State, items: seq<Embedded>, file: WorkFile, profile: string): State {
    if items == [] then s
    else WriteStep(WriteSteps(s, items[..|items| - 1], file, profile), items[|items| - 1], file, profile)
  }

  /** The work a run may go on with: none at all if anything in the file needs fixing. */
  function WorkOf(file: WorkFile, notes: seq<Undescribed>): seq<Authored> {
    var reading := ReadFile(file, notes);
    if reading.problems + GovernanceProblems(reading.work) != [] then [] else reading.work
  }

  /** One step; a step that cannot be taken now leaves the state as it is. */
  ghost function Next(s: State, event: Event): State {
    match event
    case EmitFile(f, notes) =>
      if f in s.files || !Lists(s.corpus, notes) then s
      else
        var entries := seq(|notes|, i requires 0 <= i < |notes| => EntryFor(notes[i]));
        s.(files := s.files[f := WorkFile(Some(WORK_FILE_SCHEMA_VERSION), entries)])
    case Author(f, g, entries) =>
      if f !in s.files || g in s.files || !FilledFrom(s.files[f], entries) then s
      else s.(files := s.files[g := s.files[f].(notes := entries)])
    case Prepare(r, f, notes, vectorOf) =>
      if r in s.plans || f !in s.files || !Lists(s.corpus, notes) then s
      else s.(plans := s.plans[r := Plan(s.files[f], EmbedEach(WorkOf(s.files[f], notes), vectorOf))])
    case Apply(r, profile) =>
      if r !in s.plans then s
      else
        var done := WriteSteps(s, s.plans[r].items, s.plans[r].file, profile);
        done.(plans := done.plans - {r})
    case OtherWriters(corpus) =>
      if !Allowed(s, corpus) then s else s.(corpus := corpus, last := Newest(s.last, corpus.rows))
  }

  /** The state after any sequence of steps from a given corpus. */
  ghost function Run(start: Corpus, events: seq<Event>): State {
    if events == [] then State(start, Newest(map[], start.rows), map[], map[], [])
    else Next(Run(start, events[..|events| - 1]), events[|events| - 1])
  }

  // ------------------------------------------------------------ the invariant

  /** The document is at this version, or has moved past it. */
  predicate AtOrPast(last: map<string, Version>, id: string, version: Version) {
    id in last && (last[id].revision > version.revision || last[id] == version)
  }

  /** The entry's body is what its revision said, as far as the revision is still current. */
  predicate HonestEntry(last: map<string, Version>, e: Entry) {
    e.revision.Some? ==>
      && e.id in last
      && (last[e.id].revision > e.revision.value
          || (last[e.id].revision == e.revision.value && last[e.id].content.body == e.body))
  }

  /** The summary was written in this file, against the body the item's note has. */
  ghost predicate AuthoredFrom(file: WorkFile, item: Authored) {
    exists e :: e in file.notes && e.id == item.note.id && SummaryOf(e) == item.summary != ""
                && e.revision == Some(item.note.revision) && e.body == item.note.body
  }

  ghost predicate ItemOk(last: map<string, Version>, file: WorkFile, e: Embedded) {
    && AuthoredFrom(file, e.item)
    && e.digest == DigestFor(Described(e.item))
    && AtOrPast(last, e.item.note.id, NoteVersion(e.item.note))
  }

  /** The version a write leaves. */
  function WrittenVersion(e: Embedded): Version {
    Version(e.item.note.revision + 1, Described(e.item))
  }

  /** A logged write is still what the row says, unless the row has moved past it. */
  ghost predicate WriteOk(s: State, w: LoggedWrite) {
    var id := w.e.item.note.id;
    var key := EmbeddingKey(id, w.profile);
    && AuthoredFrom(w.file, w.e.item)
    && AtOrPast(s.last, id, WrittenVersion(w.e))
    && (s.last[id] == WrittenVersion(w.e) && key in s.corpus.embeddings ==>
          s.corpus.embeddings[key].digest == DigestFor(Described(w.e.item)))
  }

  ghost predicate RowsKnown(s: State) {
    forall id :: id in s.corpus.rows ==> id in s.last && s.last[id] == VersionOf(s.corpus.rows[id])
  }

  ghost predicate FilesHonest(s: State) {
    forall f, e :: f in s.files && e in s.files[f].notes ==> HonestEntry(s.last, e)
  }

  ghost predicate PlansOk(s: State) {
    forall r, e :: r in s.plans && e in s.plans[r].items ==> ItemOk(s.last, s.plans[r].file, e)
  }

  ghost predicate LogOk(s: State) {
    forall i :: 0 <= i < |s.log| ==> WriteOk(s, s.log[i])
  }

  /** No revision of a document is written to twice. */
  ghost predicate WrittenOnce(s: State) {
    forall i, j :: 0 <= i < j < |s.log| ==>
      s.log[i].e.item.note.id != s.log[j].e.item.note.id
      || s.log[i].e.item.note.revision != s.log[j].e.item.note.revision
  }

  ghost predicate Inv(s: State) {
    RowsKnown(s) && FilesHonest(s) && PlansOk(s) && LogOk(s) && WrittenOnce(s)
  }

  // --------------------------------------------------------- moving forward

  /** Every document is where it was or further on. */
  ghost predicate Forward(a: map<string, Version>, b: map<string, Version>) {
    forall id :: id in a ==> AtOrPast(b, id, a[id])
  }

  lemma ForwardKeeps(a: map<string, Version>, b: map<string, Version>, id: string, version: Version)
    requires Forward(a, b) && AtOrPast(a, id, version)
    ensures AtOrPast(b, id, version)
  {
    assert AtOrPast(b, id, a[id]);
  }

  /** Files and plans stay sound while documents move forward. */
  lemma ForwardKeepsWork(s: State, t: State)
    requires FilesHonest(s) && PlansOk(s) && Forward(s.last, t.last)
    requires t.files == s.files && t.plans == s.plans
    ensures FilesHonest(t) && PlansOk(t)
  {
    forall f, e | f in t.files && e in t.files[f].notes ensures HonestEntry(t.last, e) {
      assert HonestEntry(s.last, e);
      if e.revision.Some? { assert AtOrPast(t.last, e.id, s.last[e.id]); }
    }
    forall r, e | r in t.plans && e in t.plans[r].items ensures ItemOk(t.last, t.plans[r].file, e) {
      assert ItemOk(s.last, s.plans[r].file, e);
      ForwardKeeps(s.last, t.last, e.item.note.id, NoteVersion(e.item.note));
    }
  }

  // ---------------------------------------------------------------- the write

  lemma CurrentIsNote(s: State, file: WorkFile, e: Embedded)
    requires RowsKnown(s) && ItemOk(s.last, file, e) && Current(s.corpus, e.item.note)
    ensures VersionOf(s.corpus.rows[e.item.note.id]) == NoteVersion(e.item.note)
  {
  }

  lemma WriteStepMoves(s: State, e: Embedded, file: WorkFile, profile: string)
    requires RowsKnown(s) && ItemOk(s.last, file, e) && Current(s.corpus, e.item.note)
    ensures var t := WriteStep(s, e, file, profile);
            && RowsKnown(t) && Forward(s.last, t.last)
            && t.last == s.last[e.item.note.id := WrittenVersion(e)]
  {
    hide DigestFor, AuthoredFrom;
    CurrentIsNote(s, file, e);
    var t := WriteStep(s, e, file, profile);
    var id := e.item.note.id;
    assert VersionOf(t.corpus.rows[id]) == WrittenVersion(e);
    assert t.last == s.last[id := WrittenVersion(e)];
  }

  /** An earlier logged write outlives a new one. */
  lemma WriteStepKeepsWrite(s: State, e: Embedded, file: WorkFile, profile: string, w: LoggedWrite)
    requires RowsKnown(s) && ItemOk(s.last, file, e) && Current(s.corpus, e.item.note) && WriteOk(s, w)
    ensures WriteOk(WriteStep(s, e, file, profile), w)
    ensures w.e.item.note.id != e.item.note.id || w.e.item.note.revision != e.item.note.revision
  {
    WriteStepMoves(s, e, file, profile);
    assert s.last[e.item.note.id].revision == e.item.note.revision;
    hide DigestFor, AuthoredFrom, NoteVersion, Forward, Newest, ItemOk, RowsKnown;
  }

  /** A new write is logged as it was made. */
  lemma WriteStepLogged(s: State, e: Embedded, file: WorkFile, profile: string)
    requires RowsKnown(s) && ItemOk(s.last, file, e) && Current(s.corpus, e.item.note)
    ensures WriteOk(WriteStep(s, e, file, profile), LoggedWrite(e, file, profile))
  {
    hide DigestFor, AuthoredFrom, NoteVersion, Forward, RowsKnown;
    WriteStepMoves(s, e, file, profile);
  }

  lemma WriteStepKeepsInv(s: State, e: Embedded, file: WorkFile, profile: string)
    requires Inv(s) && ItemOk(s.last, file, e)
    ensures Inv(WriteStep(s, e, file, profile))
    ensures Forward(s.last, WriteStep(s, e, file, profile).last)
  {
    hide DigestFor, WriteRow, Newest, ItemOk, WriteOk, RowsKnown, FilesHonest, PlansOk, Current, AtOrPast;
    if Current(s.corpus, e.item.note) {
      var t := WriteStep(s, e, file, profile);
      assert t.files == s.files && t.plans == s.plans && t.log == s.log + [LoggedWrite(e, file, profile)];
      WriteStepMoves(s, e, file, profile);
      ForwardKeepsWork(s, t);
      WriteStepLogged(s, e, file, profile);
      forall i | 0 <= i < |s.log|
        ensures WriteOk(t, s.log[i])
        ensures s.log[i].e.item.note.id != e.item.note.id || s.log[i].e.item.note.revision != e.item.note.revision
      {
        WriteStepKeepsWrite(s, e, file, profile, s.log[i]);
      }
    } else {
      StaysForward(s.last);
    }
  }

  lemma StaysForward(last: map<string, Version>)
    ensures Forward(last, last)
  {
  }

  lemma {:induction false} WriteStepsKeepInv(s: State, items: seq<Embedded>, file: WorkFile, profile: string)
    requires Inv(s) && forall e :: e in items ==> ItemOk(s.last, file, e)
    ensures var t := WriteSteps(s, items, file, profile);
            Inv(t) && Forward(s.last, t.last) && t.files == s.files && t.plans == s.plans
  {
    if items != [] {
      var before, e := items[..|items| - 1], items[|items| - 1];
      WriteStepsKeepInv(s, before, file, profile);
      var mid := WriteSteps(s, before, file, profile);
      assert ItemOk(s.last, file, e);
      ForwardKeeps(s.last, mid.last, e.item.note.id, NoteVersion(e.item.note));
      WriteStepKeepsInv(mid, e, file, profile);
      var t := WriteStep(mid, e, file, profile);
      forall id | id in s.last ensures AtOrPast(t.last, id, s.last[id]) {
        ForwardKeeps(mid.last, t.last, id, s.last[id]);
      }
    }
    hide WriteStep, ItemOk, DigestFor;
  }

  /** The steps of a run's write are `write` itself. */
  lemma {:induction false} WriteStepsAreWriteAll(s: State, items: seq<Embedded>, file: WorkFile, profile: string)
    ensures WriteSteps(s, items, file, profile).corpus == WriteAll(s.corpus, items, profile).corpus
    ensures var log, written := WriteSteps(s, items, file, profile).log, WriteAll(s.corpus, items, profile).written;
            && |log| == |s.log| + |written| && log[..|s.log|] == s.log
            && (forall i :: 0 <= i < |written| ==> log[|s.log| + i] == LoggedWrite(written[i], file, profile))
  {
    if items != [] {
      WriteStepsAreWriteAll(s, items[..|items| - 1], file, profile);
    }
    hide WriteRow, Current, Newest;
  }

  // ----------------------------------------------------------------- planning

  /** Every piece of work names an entry of the file, at the revision and under the id of the note it carries. */
  lemma {:induction false} WorkHasEntry(notes: seq<Undescribed>, entries: seq<Entry>, item: Authored)
    requires item in ReadEntries(notes, entries).work
    ensures item.note in notes && NoteOf(notes, item.note.id) == Some(item.note)
    ensures exists e :: e in entries && e.id == item.note.id && SummaryOf(e) == item.summary != ""
                        && e.revision == Some(item.note.revision)
  {
    var before, last := entries[..|entries| - 1], entries[|entries| - 1];
    NoteOfNone(notes, last.id);
    if item in ReadEntries(notes, before).work {
      WorkHasEntry(notes, before, item);
      var e :| e in before && e.id == item.note.id && SummaryOf(e) == item.summary != ""
               && e.revision == Some(item.note.revision);
      assert e in entries;
    } else {
      assert item in ReadEntry(notes, last).work;
      assert last in entries;
    }
  }

  lemma PlannedItemOk(s: State, file: WorkFile, notes: seq<Undescribed>, item: Authored)
    requires RowsKnown(s) && Lists(s.corpus, notes) && item in WorkOf(file, notes)
    requires forall e :: e in file.notes ==> HonestEntry(s.last, e)
    ensures AuthoredFrom(file, item) && AtOrPast(s.last, item.note.id, NoteVersion(item.note))
  {
    hide Strip, ReadEntries, GovernanceProblems, AuthoredIds, Repeats, Sorted, NoteOf;
    WorkHasEntry(notes, file.notes, item);
    assert s.last[item.note.id] == NoteVersion(item.note);
  }

  lemma EmbedEachItems(work: seq<Authored>, vectorOf: string -> Vector, e: Embedded)
    requires e in EmbedEach(work, vectorOf)
    ensures e.item in work && e.digest == DigestFor(Described(e.item))
  {
    hide EmbeddedText;
    var i: nat :| i < |work| && EmbedEach(work, vectorOf)[i] == e;
    assert e.item == work[i] && e.digest == Sha256(TextOf(work[i]));
  }

  lemma PreparedItemsOk(s: State, file: WorkFile, notes: seq<Undescribed>, vectorOf: string -> Vector)
    requires RowsKnown(s) && Lists(s.corpus, notes)
    requires forall e :: e in file.notes ==> HonestEntry(s.last, e)
    ensures forall e :: e in EmbedEach(WorkOf(file, notes), vectorOf) ==> ItemOk(s.last, file, e)
  {
    hide *;
    var work := WorkOf(file, notes);
    forall e | e in EmbedEach(work, vectorOf) ensures ItemOk(s.last, file, e) {
      EmbedEachItems(work, vectorOf, e);
      PlannedItemOk(s, file, notes, e.item);
      ItemOkIs(s.last, file, e);
    }
  }

  lemma ItemOkIs(last: map<string, Version>, file: WorkFile, e: Embedded)
    ensures ItemOk(last, file, e)
            == (AuthoredFrom(file, e.item) && e.digest == DigestFor(Described(e.item))
                && AtOrPast(last, e.item.note.id, NoteVersion(e.item.note)))
  {
  }

  lemma PrepareKeepsInv(s: State, event: Event)
    requires Inv(s) && event.Prepare?
    ensures Inv(Next(s, event))
  {
    hide ItemOk, WriteOk, HonestEntry, WorkOf, EmbedEach, Lists;
    var r, f, notes := event.run, event.file, event.notes;
    var t := Next(s, event);
    if !(r in s.plans || f !in s.files || !Lists(s.corpus, notes)) {
      PreparedItemsOk(s, s.files[f], notes, event.vectorOf);
      var plan := Plan(s.files[f], EmbedEach(WorkOf(s.files[f], notes), event.vectorOf));
      assert t == s.(plans := s.plans[r := plan]);
      forall q, e | q in t.plans && e in t.plans[q].items ensures ItemOk(t.last, t.plans[q].file, e) {
        if q != r { assert ItemOk(s.last, s.plans[q].file, e); }
      }
      SameLog(s, t);
    }
  }

  /** The log stays true when only files and plans change. */
  lemma SameLog(s: State, t: State)
    requires LogOk(s) && t == s.(files := t.files, plans := t.plans)
    ensures LogOk(t)
  {
    forall i | 0 <= i < |t.log| ensures WriteOk(t, t.log[i]) { assert WriteOk(s, s.log[i]); }
  }

  lemma OthersKeepInv(s: State, corpus: Corpus)
    requires Inv(s) && Allowed(s, corpus)
    ensures Inv(s.(corpus := corpus, last := Newest(s.last, corpus.rows)))
  {
    var t := s.(corpus := corpus, last := Newest(s.last, corpus.rows));
    assert Forward(s.last, t.last);
    ForwardKeepsWork(s, t);
    forall i | 0 <= i < |t.log| ensures WriteOk(t, t.log[i]) {
      assert WriteOk(s, s.log[i]);
      OthersKeepWrite(s, corpus, s.log[i]);
    }
    hide WriteOk, Allowed, Newest;
  }

  lemma OthersKeepWrite(s: State, corpus: Corpus, w: LoggedWrite)
    requires RowsKnown(s) && Allowed(s, corpus) && WriteOk(s, w)
    ensures WriteOk(s.(corpus := corpus, last := Newest(s.last, corpus.rows)), w)
  {
    var t := s.(corpus := corpus, last := Newest(s.last, corpus.rows));
    var id := w.e.item.note.id;
    assert Forward(s.last, t.last);
    ForwardKeeps(s.last, t.last, id, WrittenVersion(w.e));
  }

  lemma NextKeepsInv(s: State, event: Event)
    requires Inv(s)
    ensures Inv(Next(s, event))
  {
    match event
    case EmitFile(f, notes) => FilesKeepInv(s, event);
    case Author(f, g, entries) => FilesKeepInv(s, event);
    case Prepare(_, _, _, _) => PrepareKeepsInv(s, event);
    case Apply(r, profile) =>
      if r in s.plans {
        forall e | e in s.plans[r].items ensures ItemOk(s.last, s.plans[r].file, e) {}
        WriteStepsKeepInv(s, s.plans[r].items, s.plans[r].file, profile);
        var done := WriteSteps(s, s.plans[r].items, s.plans[r].file, profile);
        var t := done.(plans := done.plans - {r});
        SameLog(done, t);
      }
    case OtherWriters(corpus) =>
      if Allowed(s, corpus) { OthersKeepInv(s, corpus); }
  }

  lemma FilesKeepInv(s: State, event: Event)
    requires Inv(s) && (event.EmitFile? || event.Author?)
    ensures Inv(Next(s, event))
  {
    var t := Next(s, event);
    forall f, e | f in t.files && e in t.files[f].notes ensures HonestEntry(t.last, e) {
      if f in s.files && t.files[f] == s.files[f] {
        assert HonestEntry(s.last, e);
      } else if event.Author? {
        var b :| b in s.files[event.file].notes && e == b.(summary := e.summary);
        assert HonestEntry(s.last, b);
      }
    }
    SameLog(s, t);
    hide WriteOk, ItemOk, HonestEntry;
  }

  lemma {:induction false} RunKeepsInv(start: Corpus, events: seq<Event>)
    ensures Inv(Run(start, events))
  {
    if events != [] {
      RunKeepsInv(start, events[..|events| - 1]);
      NextKeepsInv(Run(start, events[..|events| - 1]), events[|events| - 1]);
    }
  }
}
