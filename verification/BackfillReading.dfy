/**
  What a work file means: which of its entries become work, what is wrong with the
  others, and what every write of a run therefore satisfies.
 */
module BackfillReading {
  import opened Wrappers
  import opened PyText
  import opened Backfill
  import opened BackfillSafety

  // --------------------------------------------------------------- one entry

  /** The summary without the blanks around it; none counts as empty. */
  function Trimmed(e: Entry): string {
    match e.summary
    case None => Strip("")
    case Some(text) => Strip(text)
  }

  /** The entry is work for the note: a summary of at most 2000 characters, written at the note's own revision. */
  predicate IsWork(e: Entry, note: Undescribed, a: Authored) {
    && a == Authored(note, Trimmed(e))
    && e.id == note.id && Trimmed(e) != "" && e.revision == Some(note.revision) && |Trimmed(e)| <= 2_000
  }

  /** What is wrong with an entry for the note, the earlier reason first. */
  predicate IsWrong(e: Entry, note: Undescribed, p: Problem) {
    && e.id == note.id && Trimmed(e) != ""
    && match e.revision
       case None => p == NoRevision(e.id)
       case Some(n) =>
         if n != note.revision then p == Moved(e.id, n, note.revision)
         else |Trimmed(e)| > 2_000 && p == TooLong(e.id, |Trimmed(e)|)
  }

  /** Notes listed by distinct ids. */
  predicate Distinct(notes: seq<Undescribed>) {
    forall i, j :: 0 <= i < j < |notes| ==> notes[i].id != notes[j].id
  }

  lemma NoteOfDistinct(notes: seq<Undescribed>, note: Undescribed)
    requires Distinct(notes) && note in notes
    ensures NoteOf(notes, note.id) == Some(note)
  {
    NoteOfNone(notes, note.id);
    var found := NoteOf(notes, note.id).value;
    var i :| 0 <= i < |notes| && notes[i] == note;
    var j :| 0 <= j < |notes| && notes[j] == found;
    assert i < j ==> notes[i].id != notes[j].id;
    assert j < i ==> notes[j].id != notes[i].id;
  }

  lemma EntryExactly(notes: seq<Undescribed>, e: Entry)
    requires Distinct(notes)
    ensures forall a :: a in ReadEntry(notes, e).work <==> exists note :: note in notes && IsWork(e, note, a)
    ensures forall p :: p in ReadEntry(notes, e).problems <==> exists note :: note in notes && IsWrong(e, note, p)
    ensures forall id :: id in ReadEntry(notes, e).skipped
                         <==> id == e.id && Trimmed(e) != "" && forall note :: note in notes ==> note.id != id
  {
    hide Strip;
    NoteOfNone(notes, e.id);
    forall note | note in notes && note.id == e.id ensures NoteOf(notes, e.id) == Some(note) {
      NoteOfDistinct(notes, note);
    }
  }

  // ---------------------------------------------------------------- the file

  ghost predicate Worked(notes: seq<Undescribed>, entries: seq<Entry>, a: Authored) {
    exists e, note :: e in entries && note in notes && IsWork(e, note, a)
  }

  ghost predicate Faulted(notes: seq<Undescribed>, entries: seq<Entry>, p: Problem) {
    exists e, note :: e in entries && note in notes && IsWrong(e, note, p)
  }

  lemma {:induction false} EntriesExactly(notes: seq<Undescribed>, entries: seq<Entry>, a: Authored, p: Problem)
    requires Distinct(notes)
    ensures a in ReadEntries(notes, entries).work <==> Worked(notes, entries, a)
    ensures p in ReadEntries(notes, entries).problems <==> Faulted(notes, entries, p)
  {
    hide IsWork, IsWrong, ReadEntry, Distinct;
    if entries != [] {
      var before, last := entries[..|entries| - 1], entries[|entries| - 1];
      EntriesExactly(notes, before, a, p);
      EntryExactly(notes, last);
      assert entries == before + [last];
    }
  }

  /** Two entries of the file carry a summary for one id. */
  ghost predicate Doubled(entries: seq<Entry>, id: string) {
    exists i, j :: 0 <= i < j < |entries| && Carries(entries[i], id) && Carries(entries[j], id)
  }

  predicate Carries(e: Entry, id: string) {
    e.id == id && Trimmed(e) != ""
  }

  ghost predicate Carried(entries: seq<Entry>, id: string) {
    exists i :: 0 <= i < |entries| && Carries(entries[i], id)
  }

  lemma CarriedCons(entries: seq<Entry>, id: string)
    requires entries != []
    ensures Carried(entries, id) <==> Carries(entries[0], id) || Carried(entries[1..], id)
  {
    hide Carries;
    var rest := entries[1..];
    if i :| 0 <= i < |entries| && Carries(entries[i], id) { assert i > 0 ==> Carries(rest[i - 1], id); }
    if i :| 0 <= i < |rest| && Carries(rest[i], id) { assert Carries(entries[i + 1], id); }
  }

  lemma DoubledCons(entries: seq<Entry>, id: string)
    requires entries != []
    ensures Doubled(entries, id)
            <==> Doubled(entries[1..], id) || (Carries(entries[0], id) && Carried(entries[1..], id))
  {
    hide Carries;
    var rest := entries[1..];
    if i, j :| 0 <= i < j < |entries| && Carries(entries[i], id) && Carries(entries[j], id) {
      assert Carries(rest[j - 1], id);
      assert i > 0 ==> Carries(rest[i - 1], id);
    }
    if i, j :| 0 <= i < j < |rest| && Carries(rest[i], id) && Carries(rest[j], id) {
      assert Carries(entries[i + 1], id) && Carries(entries[j + 1], id);
    }
    if j :| 0 <= j < |rest| && Carries(rest[j], id) && Carries(entries[0], id) {
      assert Carries(entries[j + 1], id);
    }
  }

  lemma {:induction false} AuthoredCount(entries: seq<Entry>, id: string)
    ensures id in AuthoredIds(entries) <==> Carried(entries, id)
    ensures multiset(AuthoredIds(entries))[id] > 1 <==> Doubled(entries, id)
  {
    hide Strip, Carried, Doubled;
    if entries == [] {
      NoneCarried(id);
    } else {
      AuthoredCount(entries[1..], id);
      CarriedCons(entries, id);
      DoubledCons(entries, id);
      var head := if SummaryOf(entries[0]) != "" then [entries[0].id] else [];
      assert AuthoredIds(entries) == head + AuthoredIds(entries[1..]);
    }
  }

  lemma NoneCarried(id: string)
    ensures !Carried([], id) && !Doubled([], id)
  {
  }

  /**
    What `read_work_file` makes of a file: another version is one problem; summaries given
    twice are the only problems then; otherwise each entry is work, wrong, or skipped as it
    stands to the notes.
   */
  lemma ReadExactly(file: WorkFile, notes: seq<Undescribed>, a: Authored, p: Problem)
    requires Distinct(notes)
    ensures var r := ReadFile(file, notes);
            if file.version != Some(2) then r == Reading([], [], [WrongVersion(file.version)])
            else if exists id :: Doubled(file.notes, id) then
              && r.work == [] && r.skipped == []
              && (p in r.problems <==> exists id :: Doubled(file.notes, id) && p == Repeated(id))
            else
              && (a in r.work <==> Worked(notes, file.notes, a))
              && (p in r.problems <==> Faulted(notes, file.notes, p))
  {
    hide Doubled, Worked, Faulted, AuthoredIds, ReadEntries;
    EntriesExactly(notes, file.notes, a, p);
    var ids := AuthoredIds(file.notes);
    forall id ensures id in Repeats(ids) <==> Doubled(file.notes, id) { AuthoredCount(file.notes, id); }
    var repeated := Sorted(Repeats(ids));
    RepeatsListed(repeated, p);
    if id :| Doubled(file.notes, id) { assert id in repeated; }
    if repeated != [] { assert repeated[0] in repeated && Doubled(file.notes, repeated[0]); }
  }

  lemma RepeatsListed(ids: seq<string>, p: Problem)
    ensures p in RepeatProblems(ids) <==> exists id :: id in ids && p == Repeated(id)
  {
    var problems := RepeatProblems(ids);
    if id :| id in ids && p == Repeated(id) {
      var i :| 0 <= i < |ids| && ids[i] == id;
      assert problems[i] == p;
    }
  }

  // -------------------------------------------------------------- governance

  lemma {:induction false} BadTagsExactly(tags: seq<string>)
    ensures BadTags(tags) == [] <==> forall i :: 0 <= i < |tags| ==> Strip(tags[i]) != ""
  {
    hide Strip;
    if tags != [] {
      BadTagsExactly(tags[1..]);
      assert forall i :: 1 <= i < |tags| ==> tags[i] == tags[1..][i - 1];
    }
  }

  predicate AllDifferent(tags: seq<string>) {
    forall i, j :: 0 <= i < j < |tags| ==> tags[i] != tags[j]
  }

  lemma DifferentCons(tags: seq<string>)
    requires tags != []
    ensures AllDifferent(tags) <==> tags[0] !in tags[1..] && AllDifferent(tags[1..])
  {
    var rest := tags[1..];
    assert forall i :: 0 <= i < |rest| ==> rest[i] == tags[i + 1];
    if tags[0] in rest {
      var j :| 0 <= j < |rest| && rest[j] == tags[0];
      assert tags[0] == tags[j + 1];
    }
    assert forall j :: 1 <= j < |tags| ==> tags[j] == rest[j - 1];
  }

  function TagSet(tags: seq<string>): set<string> {
    set tag | tag in tags
  }

  lemma TagSetCons(tags: seq<string>)
    requires tags != []
    ensures |TagSet(tags)| == |TagSet(tags[1..])| + if tags[0] in tags[1..] then 0 else 1
  {
    var rest := TagSet(tags[1..]);
    assert tags == [tags[0]] + tags[1..];
    assert TagSet(tags) == {tags[0]} + rest;
    assert tags[0] in tags[1..] ==> {tags[0]} + rest == rest;
  }

  lemma {:induction false} DistinctCount(tags: seq<string>)
    ensures |TagSet(tags)| <= |tags| && (|TagSet(tags)| == |tags| <==> AllDifferent(tags))
  {
    hide TagSet, AllDifferent;
    if tags == [] {
      NoTags();
    } else {
      DistinctCount(tags[1..]);
      TagSetCons(tags);
      DifferentCons(tags);
    }
  }

  lemma NoTags()
    ensures TagSet([]) == {} && AllDifferent([])
  {
  }

  /** Fit to be written: title, body and contributor not blank, tags not blank and all different. */
  predicate Governed(note: Undescribed) {
    && Strip(note.title) != "" && Strip(note.body) != "" && Strip(note.contributedBy) != ""
    && (forall i :: 0 <= i < |note.tags| ==> Strip(note.tags[i]) != "")
    && AllDifferent(note.tags)
  }

  lemma GovernedExactly(item: Authored)
    ensures GovernanceErrors(item) == [] <==> Governed(item.note)
  {
    hide Strip, BadTags;
    BadTagsExactly(item.note.tags);
    DistinctCount(item.note.tags);
    EmptyParts(item);
  }

  lemma EmptyParts(item: Authored)
    ensures GovernanceErrors(item) == []
            <==> && Strip(item.note.title) != "" && |Strip(item.note.body)| >= 1 && Strip(item.note.contributedBy) != ""
                 && BadTags(item.note.tags) == [] && |item.note.tags| == |TagSet(item.note.tags)|
  {
    hide Strip, BadTags;
    assert |GovernanceErrors(item)| == 0 <==> GovernanceErrors(item) == [];
  }

  lemma {:induction false} ProblemsExactly(work: seq<Authored>)
    ensures GovernanceProblems(work) == [] <==> forall a :: a in work ==> Governed(a.note)
  {
    hide Governed, GovernanceErrors;
    if work != [] {
      ProblemsExactly(work[1..]);
      GovernedExactly(work[0]);
      assert work == [work[0]] + work[1..];
    }
  }

  // ----------------------------------------------------------- over whole runs

  /** What every planned item satisfies. */
  predicate Sound(a: Authored) {
    a.summary != "" && |a.summary| <= 2_000 && Governed(a.note)
  }

  lemma WorkIsSound(file: WorkFile, notes: seq<Undescribed>, a: Authored)
    requires Distinct(notes) && a in WorkOf(file, notes)
    ensures Sound(a) && file.version == Some(2) && Worked(notes, file.notes, a)
    ensures forall p :: !Faulted(notes, file.notes, p)
    ensures forall id :: !Doubled(file.notes, id)
  {
    hide Doubled, Worked, Faulted, ReadFile, GovernanceProblems, Governed;
    var reading := ReadFile(file, notes);
    assert |reading.problems| == 0 && |GovernanceProblems(reading.work)| == 0;
    ProblemsExactly(reading.work);
    forall p ensures !Faulted(notes, file.notes, p) {
      ReadExactly(file, notes, a, p);
      assert p !in reading.problems;
    }
    ReadExactly(file, notes, a, WrongVersion(file.version));
    WorkedIsShort(notes, file.notes, a);
    forall id ensures !Doubled(file.notes, id) { ReadExactly(file, notes, a, Repeated(id)); }
  }

  lemma WorkedIsShort(notes: seq<Undescribed>, entries: seq<Entry>, a: Authored)
    ensures Worked(notes, entries, a) ==> a.summary != "" && |a.summary| <= 2_000
  {
  }

  ghost predicate AllSound(s: State) {
    && (forall r, i :: r in s.plans && 0 <= i < |s.plans[r].items| ==> Sound(s.plans[r].items[i].item))
    && (forall i :: 0 <= i < |s.log| ==> Sound(s.log[i].e.item))
  }

  lemma {:induction false} StepsAreSound(s: State, items: seq<Embedded>, file: WorkFile, profile: string)
    requires AllSound(s) && forall i :: 0 <= i < |items| ==> Sound(items[i].item)
    ensures AllSound(WriteSteps(s, items, file, profile))
    ensures WriteSteps(s, items, file, profile).plans == s.plans
  {
    hide Sound, Current, WriteRow, Newest;
    if items != [] { StepsAreSound(s, items[..|items| - 1], file, profile); }
  }

  lemma NextIsSound(s: State, event: Event)
    requires AllSound(s)
    ensures AllSound(Next(s, event))
  {
    hide Sound, WriteSteps, WorkOf, Allowed, FilledFrom, Newest;
    match event
    case EmitFile(_, _) =>
    case Author(_, _, _) =>
    case OtherWriters(_) =>
    case Apply(r, profile) =>
      if r in s.plans { StepsAreSound(s, s.plans[r].items, s.plans[r].file, profile); }
    case Prepare(r, f, notes, vectorOf) =>
      if r !in s.plans && f in s.files && Lists(s.corpus, notes) {
        var work := WorkOf(s.files[f], notes);
        var items := EmbedEach(work, vectorOf);
        forall i | 0 <= i < |items| ensures Sound(items[i].item) {
          assert items[i].item == work[i];
          WorkIsSound(s.files[f], notes, work[i]);
        }
      }
  }

  /**
    Over every run with any other writers, each write the backfill makes gives a note that
    is fit to be written a summary of 1 to 2000 characters.
   */
  lemma {:induction false} WritesAreSound(start: Corpus, events: seq<Event>)
    ensures AllSound(Run(start, events))
  {
    if events != [] {
      WritesAreSound(start, events[..|events| - 1]);
      NextIsSound(Run(start, events[..|events| - 1]), events[|events| - 1]);
      hide AllSound, Next;
    }
  }

  // ------------------------------------------------------------------ one write

  /** The row is a note, active, without a summary, and at the revision the item was read at. */
  predicate Fits(rows: map<string, Row>, note: Undescribed) {
    && note.id in rows
    && rows[note.id].kind == Note && rows[note.id].status == Active
    && rows[note.id].summary == None && rows[note.id].revision == note.revision
  }

  /** An item is written exactly when its row fits at that moment, and then only its summary and revision change. */
  lemma WrittenExactly(corpus: Corpus, items: seq<Embedded>, e: Embedded, profile: string)
    ensures var before, after := WriteAll(corpus, items, profile), WriteAll(corpus, items + [e], profile);
            var rows, id := before.corpus.rows, e.item.note.id;
            if Fits(rows, e.item.note) then
              && after.written == before.written + [e] && after.stale == before.stale
              && after.corpus.rows
                 == rows[id := rows[id].(summary := Some(e.item.summary), revision := e.item.note.revision + 1)]
              && after.corpus.embeddings
                 == before.corpus.embeddings[EmbeddingKey(id, profile) := Embedding(e.vector, e.digest)]
            else
              && after.written == before.written && after.stale == before.stale + [e.item.note]
              && after.corpus == before.corpus
  {
    var all := items + [e];
    assert all[..|all| - 1] == items && all[|all| - 1] == e;
  }

  /** A listing names the active notes without a summary, and each as it stands. */
  lemma ListedExactly(corpus: Corpus, notes: seq<Undescribed>, id: string)
    requires Lists(corpus, notes)
    ensures Distinct(notes)
    ensures (exists note :: note in notes && note.id == id)
            <==> && id in corpus.rows && corpus.rows[id].kind == Note
                 && corpus.rows[id].status == Active && corpus.rows[id].summary == None
    ensures forall note :: note in notes && note.id == id && id in corpus.rows ==>
              var row := corpus.rows[id];
              note == Undescribed(id, row.title, row.body, row.tags, row.aliases, row.contributedBy, row.revision)
  {
    if note :| note in notes && note.id == id {
      var i :| 0 <= i < |notes| && notes[i] == note;
    }
  }

  /** An emitted entry carries its note's id, revision, title and body, and an empty summary. */
  lemma EmittedExactly(note: Undescribed)
    ensures EntryFor(note) == Entry(note.id, Some(note.revision), note.title, Some(""), note.body)
    ensures Trimmed(EntryFor(note)) == ""
  {
  }
}
