/**
  A backfill nobody disturbs does what it is for: it writes everything it planned, and a
  file with a summary for every note leaves no note without one.
 */
module BackfillProgress {
  import opened Wrappers
  import opened PyText
  import opened Backfill
  import opened BackfillSafety
  import opened BackfillTheorems
  import opened BackfillReading

  // ------------------------------------------------------ one entry, one item

  predicate DistinctIds(work: seq<Authored>) {
    forall i, j :: 0 <= i < j < |work| ==> work[i].note.id != work[j].note.id
  }

  lemma DoubledGrows(entries: seq<Entry>, id: string)
    requires entries != [] && Doubled(entries[..|entries| - 1], id)
    ensures Doubled(entries, id)
  {
    hide Carries;
  }

  lemma TwiceCarried(entries: seq<Entry>, id: string)
    requires entries != [] && Carries(entries[|entries| - 1], id)
    requires exists e :: e in entries[..|entries| - 1] && Carries(e, id)
    ensures Doubled(entries, id)
  {
    hide Carries;
    var before := entries[..|entries| - 1];
    var e :| e in before && Carries(e, id);
    var i :| 0 <= i < |before| && before[i] == e;
    assert entries[i] == e;
  }

  lemma {:induction false} WorkDistinct(notes: seq<Undescribed>, entries: seq<Entry>)
    requires Distinct(notes) && forall id :: !Doubled(entries, id)
    ensures DistinctIds(ReadEntries(notes, entries).work)
  {
    hide Doubled, ReadEntry, Strip;
    if entries != [] {
      var before, last := entries[..|entries| - 1], entries[|entries| - 1];
      forall id ensures !Doubled(before, id) { if Doubled(before, id) { DoubledGrows(entries, id); } }
      WorkDistinct(notes, before);
      EntryExactly(notes, last);
      OneItem(notes, last);
      forall a, b | a in ReadEntries(notes, before).work && b in ReadEntry(notes, last).work
        ensures a.note.id != b.note.id
      {
        EntriesExactly(notes, before, a, WrongVersion(None));
        WorkedIsCarried(notes, before, a);
        if a.note.id == b.note.id { TwiceCarried(entries, a.note.id); }
      }
    }
  }

  lemma WorkedIsCarried(notes: seq<Undescribed>, entries: seq<Entry>, a: Authored)
    ensures Worked(notes, entries, a) ==> a.note in notes && exists e :: e in entries && Carries(e, a.note.id)
  {
    hide Strip;
    if Worked(notes, entries, a) {
      var e, note :| e in entries && note in notes && IsWork(e, note, a);
      assert Carries(e, a.note.id);
    }
  }

  lemma OneItem(notes: seq<Undescribed>, e: Entry)
    ensures |ReadEntry(notes, e).work| <= 1
  {
    hide Strip;
  }

  // -------------------------------------------------------- an undisturbed run

  /** Current items under distinct ids are all written. */
  lemma {:induction false} AllWritten(corpus: Corpus, items: seq<Embedded>, profile: string)
    requires forall i :: 0 <= i < |items| ==> Current(corpus, items[i].item.note)
    requires forall i, j :: 0 <= i < j < |items| ==> items[i].item.note.id != items[j].item.note.id
    ensures WriteAll(corpus, items, profile).written == items && WriteAll(corpus, items, profile).stale == []
  {
    if items != [] {
      var before, last := items[..|items| - 1], items[|items| - 1];
      AllWritten(corpus, before, profile);
      OtherRowsUntouched(corpus, before, profile, last.item.note.id);
      assert items == before + [last];
    }
  }

  lemma PlanIsCurrent(corpus: Corpus, file: WorkFile, notes: seq<Undescribed>, vectorOf: string -> Vector)
    requires Lists(corpus, notes)
    ensures var items := EmbedEach(WorkOf(file, notes), vectorOf);
            && (forall i :: 0 <= i < |items| ==> Current(corpus, items[i].item.note))
            && (forall i, j :: 0 <= i < j < |items| ==> items[i].item.note.id != items[j].item.note.id)
  {
    hide Current, ReadEntries, Doubled, Worked, Faulted, Sound, Distinct;
    var work := WorkOf(file, notes);
    forall a | a in work ensures Current(corpus, a.note) { WorkIsCurrent(corpus, file, notes, a); }
    if work != [] {
      ListedExactly(corpus, notes, "");
      WorkIsSound(file, notes, work[0]);
      WorkDistinct(notes, file.notes);
      WorkIsRead(file, notes);
    }
  }

  lemma WorkIsRead(file: WorkFile, notes: seq<Undescribed>)
    ensures WorkOf(file, notes) == [] || WorkOf(file, notes) == ReadEntries(notes, file.notes).work
  {
    hide ReadEntries, GovernanceProblems;
  }

  /** Planning and then writing with nobody in between writes everything that was planned. */
  lemma UndisturbedRunWritesAll(
    start: Corpus, events: seq<Event>, r: nat, f: nat, notes: seq<Undescribed>, vectorOf: string -> Vector,
    profile: string)
    requires r !in Run(start, events).plans && f in Run(start, events).files
    requires Lists(Run(start, events).corpus, notes)
    ensures var s, next := Run(start, events), Run(start, events + [Prepare(r, f, notes, vectorOf), Apply(r, profile)]);
            var done := WriteAll(s.corpus, EmbedEach(WorkOf(s.files[f], notes), vectorOf), profile);
            && next.corpus == done.corpus && done.stale == []
            && done.written == EmbedEach(WorkOf(s.files[f], notes), vectorOf)
  {
    var s, planning := Run(start, events), events + [Prepare(r, f, notes, vectorOf)];
    assert planning[..|events|] == events && planning[|events|] == Prepare(r, f, notes, vectorOf);
    assert Run(start, planning) == Next(s, Prepare(r, f, notes, vectorOf));
    var items := EmbedEach(WorkOf(s.files[f], notes), vectorOf);
    assert Run(start, planning).plans[r] == Plan(s.files[f], items) && Run(start, planning).corpus == s.corpus;
    assert planning + [Apply(r, profile)] == events + [Prepare(r, f, notes, vectorOf), Apply(r, profile)];
    RunApplies(start, planning, r, profile);
    PlanIsCurrent(s.corpus, s.files[f], notes, vectorOf);
    hide Run, EmbedEach, WorkOf, Current;
    AllWritten(s.corpus, items, profile);
  }

  // ---------------------------------------------------------- a complete file

  /** The emitted file, a summary filled in for every note. */
  function Filled(notes: seq<Undescribed>, summaryOf: string -> string): seq<Entry> {
    seq(|notes|, i requires 0 <= i < |notes| => EntryFor(notes[i]).(summary := Some(summaryOf(notes[i].id))))
  }

  /** Every note fit to be written, and a summary of 1 to 2000 characters for it. */
  predicate Complete(notes: seq<Undescribed>, summaryOf: string -> string) {
    forall i :: 0 <= i < |notes| ==>
      Governed(notes[i]) && 1 <= |Strip(summaryOf(notes[i].id))| <= 2_000
  }

  lemma FilledAt(notes: seq<Undescribed>, summaryOf: string -> string, i: nat)
    requires i < |notes|
    ensures var e := Filled(notes, summaryOf)[i];
            && e == EntryFor(notes[i]).(summary := e.summary) && e.id == notes[i].id
            && e.revision == Some(notes[i].revision) && Trimmed(e) == Strip(summaryOf(notes[i].id))
  {
    hide Strip;
    assert Filled(notes, summaryOf)[i] == EntryFor(notes[i]).(summary := Some(summaryOf(notes[i].id)));
  }

  lemma SameNote(notes: seq<Undescribed>, i: nat, note: Undescribed)
    requires Distinct(notes) && i < |notes| && note in notes && note.id == notes[i].id
    ensures note == notes[i]
  {
    var j :| 0 <= j < |notes| && notes[j] == note;
  }

  lemma FilledLength(notes: seq<Undescribed>, summaryOf: string -> string)
    ensures |Filled(notes, summaryOf)| == |notes|
  {
  }

  lemma NothingWrong(notes: seq<Undescribed>, summaryOf: string -> string, p: Problem)
    requires Distinct(notes) && Complete(notes, summaryOf)
    ensures !Faulted(notes, Filled(notes, summaryOf), p)
  {
    hide Strip, Filled, Governed;
    if Faulted(notes, Filled(notes, summaryOf), p) {
      var e, note :| e in Filled(notes, summaryOf) && note in notes && IsWrong(e, note, p);
      var i :| 0 <= i < |Filled(notes, summaryOf)| && Filled(notes, summaryOf)[i] == e;
      FilledLength(notes, summaryOf);
      FilledAt(notes, summaryOf, i);
      SameNote(notes, i, note);
    }
  }

  lemma NothingTwice(notes: seq<Undescribed>, summaryOf: string -> string, id: string)
    requires Distinct(notes)
    ensures !Doubled(Filled(notes, summaryOf), id)
  {
    hide Strip;
    var entries := Filled(notes, summaryOf);
    if Doubled(entries, id) {
      var i, j :| 0 <= i < j < |entries| && Carries(entries[i], id) && Carries(entries[j], id);
      FilledAt(notes, summaryOf, i);
      FilledAt(notes, summaryOf, j);
    }
  }

  lemma EveryNoteWorked(notes: seq<Undescribed>, summaryOf: string -> string, i: nat)
    requires i < |notes| && Complete(notes, summaryOf)
    ensures Worked(notes, Filled(notes, summaryOf), Authored(notes[i], Strip(summaryOf(notes[i].id))))
  {
    hide Strip, Governed;
    var e := Filled(notes, summaryOf)[i];
    FilledAt(notes, summaryOf, i);
    assert e in Filled(notes, summaryOf) && notes[i] in notes;
    assert IsWork(e, notes[i], Authored(notes[i], Strip(summaryOf(notes[i].id))));
  }

  /** Such a file is read as work for every note. */
  lemma FileIsWork(notes: seq<Undescribed>, summaryOf: string -> string, i: nat)
    requires Distinct(notes) && Complete(notes, summaryOf) && i < |notes|
    ensures Authored(notes[i], Strip(summaryOf(notes[i].id)))
            in WorkOf(WorkFile(Some(WORK_FILE_SCHEMA_VERSION), Filled(notes, summaryOf)), notes)
  {
    var file := WorkFile(Some(WORK_FILE_SCHEMA_VERSION), Filled(notes, summaryOf));
    var item := Authored(notes[i], Strip(summaryOf(notes[i].id)));
    EveryNoteWorked(notes, summaryOf, i);
    hide Strip, Filled, Worked, Faulted, Doubled, ReadFile, GovernanceProblems, Distinct;
    var reading := ReadFile(file, notes);
    forall id ensures !Doubled(file.notes, id) { NothingTwice(notes, summaryOf, id); }
    forall p ensures p !in reading.problems {
      ReadExactly(file, notes, item, p);
      NothingWrong(notes, summaryOf, p);
    }
    ReadExactly(file, notes, item, WrongVersion(None));
    forall a | a in reading.work ensures Governed(a.note) {
      ReadExactly(file, notes, a, WrongVersion(None));
      WorkedIsCarried(notes, file.notes, a);
      var j :| 0 <= j < |notes| && notes[j] == a.note;
    }
    ProblemsExactly(reading.work);
    FirstElement(reading.problems);
  }

  lemma FirstElement<T>(s: seq<T>)
    ensures s != [] ==> s[0] in s
  {
  }

  /** A row without a summary after a run was there without one before, and no item of the run named it. */
  lemma StillLacking(corpus: Corpus, items: seq<Embedded>, profile: string, id: string)
    requires var done := WriteAll(corpus, items, profile).corpus; id in done.rows && Lacking(done.rows[id])
    requires WriteAll(corpus, items, profile).written == items
    ensures id in corpus.rows && Lacking(corpus.rows[id]) && forall e :: e in items ==> e.item.note.id != id
  {
    WrittenRowsLand(corpus, items, profile);
    OtherRowsUntouched(corpus, items, profile, id);
    hide WriteAll;
  }

  /**
    Emitting the notes, giving each fit one a summary of 1 to 2000 characters, planning and
    writing, with nobody in between: no active note is left without a summary.
   */
  lemma CompleteFileFillsAll(
    start: Corpus, events: seq<Event>, f: nat, g: nat, r: nat, notes: seq<Undescribed>, summaryOf: string -> string,
    vectorOf: string -> Vector, profile: string)
    requires Lists(Run(start, events).corpus, notes) && Complete(notes, summaryOf) && f != g
    requires f !in Run(start, events).files && g !in Run(start, events).files && r !in Run(start, events).plans
    ensures var authored := [EmitFile(f, notes), Author(f, g, Filled(notes, summaryOf))];
            var next := Run(start, events + authored + [Prepare(r, g, notes, vectorOf), Apply(r, profile)]);
            forall id :: id in next.corpus.rows ==> !Lacking(next.corpus.rows[id])
  {
    hide Lacking, WriteAll, Complete;
    var s, emit, author := Run(start, events), EmitFile(f, notes), Author(f, g, Filled(notes, summaryOf));
    var more := events + [emit, author];
    RunAuthored(start, events, f, g, notes, summaryOf);
    assert events + [emit, author] == more;
    UndisturbedRunWritesAll(start, more, r, g, notes, vectorOf, profile);
    var next := Run(start, more + [Prepare(r, g, notes, vectorOf), Apply(r, profile)]);
    var file := WorkFile(Some(WORK_FILE_SCHEMA_VERSION), Filled(notes, summaryOf));
    var items := EmbedEach(WorkOf(file, notes), vectorOf);
    ListedExactly(s.corpus, notes, "");
    forall id | id in next.corpus.rows ensures !Lacking(next.corpus.rows[id]) {
      if Lacking(next.corpus.rows[id]) {
        StillLacking(s.corpus, items, profile, id);
        NamedByItem(s.corpus, notes, summaryOf, vectorOf, id);
      }
    }
  }

  lemma NamedByItem(
    corpus: Corpus, notes: seq<Undescribed>, summaryOf: string -> string, vectorOf: string -> Vector, id: string)
    requires Lists(corpus, notes) && Complete(notes, summaryOf) && id in corpus.rows && Lacking(corpus.rows[id])
    ensures var file := WorkFile(Some(WORK_FILE_SCHEMA_VERSION), Filled(notes, summaryOf));
            exists e :: e in EmbedEach(WorkOf(file, notes), vectorOf) && e.item.note.id == id
  {
    hide WorkOf, Complete, Strip, Filled;
    var note := Snapshot(id, corpus.rows[id]);
    assert note in notes;
    var i :| 0 <= i < |notes| && notes[i] == note;
    FileIsWork(notes, summaryOf, i);
    var file := WorkFile(Some(WORK_FILE_SCHEMA_VERSION), Filled(notes, summaryOf));
    var work := WorkOf(file, notes);
    var k :| 0 <= k < |work| && work[k] == Authored(notes[i], Strip(summaryOf(notes[i].id)));
    assert EmbedEach(work, vectorOf)[k].item == work[k];
  }

  lemma FilledIsFrom(file: WorkFile, notes: seq<Undescribed>, summaryOf: string -> string)
    requires |file.notes| == |notes| && forall i :: 0 <= i < |notes| ==> file.notes[i] == EntryFor(notes[i])
    ensures FilledFrom(file, Filled(notes, summaryOf))
  {
    var entries := Filled(notes, summaryOf);
    FilledLength(notes, summaryOf);
    forall i | 0 <= i < |entries| ensures FilledIn(file, entries[i]) {
      FilledAt(notes, summaryOf, i);
      assert file.notes[i] in file.notes;
    }
  }

  lemma RunAuthored(
    start: Corpus, events: seq<Event>, f: nat, g: nat, notes: seq<Undescribed>, summaryOf: string -> string)
    requires Lists(Run(start, events).corpus, notes) && f != g
    requires f !in Run(start, events).files && g !in Run(start, events).files
    ensures var s := Run(start, events);
            var next := Run(start, events + [EmitFile(f, notes), Author(f, g, Filled(notes, summaryOf))]);
            && next.corpus == s.corpus && next.plans == s.plans && g in next.files
            && next.files[g] == WorkFile(Some(WORK_FILE_SCHEMA_VERSION), Filled(notes, summaryOf))
  {
    hide Lists;
    var s, emit, author := Run(start, events), EmitFile(f, notes), Author(f, g, Filled(notes, summaryOf));
    var once, twice := events + [emit], events + [emit, author];
    assert once[..|events|] == events && once[|events|] == emit;
    assert twice[..|once|] == once && twice[|once|] == author;
    assert Run(start, once) == Next(s, emit) && Run(start, twice) == Next(Run(start, once), author);
    FilledIsFrom(Run(start, once).files[f], notes, summaryOf);
  }
}
