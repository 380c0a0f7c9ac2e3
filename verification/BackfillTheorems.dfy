/**
  The promises of the summary backfill over whole runs, with any other writers.
 */
module BackfillTheorems {
  import opened Wrappers
  import opened PyText
  import opened EmbeddingText
  import opened Backfill
  import opened BackfillSafety

  /**
    While a row is still at the revision a write left, its summary is the one the author
    wrote against exactly the body it now has, and a stored digest is that of its current
    embedding text.
   */
  lemma SummaryDescribesItsRow(start: Corpus, events: seq<Event>, i: nat)
    requires i < |Run(start, events).log|
    requires var s, note := Run(start, events), Run(start, events).log[i].e.item.note;
             note.id in s.corpus.rows && s.corpus.rows[note.id].revision == note.revision + 1
    ensures var s, w := Run(start, events), Run(start, events).log[i];
            var row := s.corpus.rows[w.e.item.note.id];
            var key := EmbeddingKey(w.e.item.note.id, w.profile);
            && row.summary == Some(w.e.item.summary)
            && (exists e :: e in w.file.notes && e.id == w.e.item.note.id && SummaryOf(e) == w.e.item.summary
                            && e.body == row.body)
            && (key in s.corpus.embeddings ==> s.corpus.embeddings[key].digest == DigestFor(ContentOf(row)))
  {
    RunKeepsInv(start, events);
    var s, w := Run(start, events), Run(start, events).log[i];
    assert WriteOk(s, w);
    assert s.last[w.e.item.note.id] == VersionOf(s.corpus.rows[w.e.item.note.id]);
    assert s.last[w.e.item.note.id] == WrittenVersion(w.e);
    var e :| e in w.file.notes && e.id == w.e.item.note.id && SummaryOf(e) == w.e.item.summary != ""
             && e.revision == Some(w.e.item.note.revision) && e.body == w.e.item.note.body;
    hide DigestFor, Run, Inv;
  }

  /** No revision of a document is ever written to twice, by any number of runs over any files. */
  lemma NeverWrittenTwice(start: Corpus, events: seq<Event>, i: nat, j: nat)
    requires i < j < |Run(start, events).log|
    ensures var a, b := Run(start, events).log[i].e.item.note, Run(start, events).log[j].e.item.note;
            a.id != b.id || a.revision != b.revision
  {
    RunKeepsInv(start, events);
  }

  // ------------------------------------------------------------- one write

  /** Every note reported written has its summary, its new revision and its own vector and digest. */
  lemma {:induction false} WrittenRowsLand(corpus: Corpus, items: seq<Embedded>, profile: string)
    ensures var done := WriteAll(corpus, items, profile);
            forall e :: e in done.written ==>
              var key := EmbeddingKey(e.item.note.id, profile);
              && e.item.note.id in done.corpus.rows
              && done.corpus.rows[e.item.note.id].summary == Some(e.item.summary)
              && done.corpus.rows[e.item.note.id].revision == e.item.note.revision + 1
              && key in done.corpus.embeddings
              && done.corpus.embeddings[key] == Embedding(e.vector, e.digest)
  {
    if items != [] { WrittenRowsLand(corpus, items[..|items| - 1], profile); }
  }

  /** A note reported stale, and every row no item names, is left exactly as it was. */
  lemma {:induction false} OtherRowsUntouched(corpus: Corpus, items: seq<Embedded>, profile: string, id: string)
    requires forall e :: e in WriteAll(corpus, items, profile).written ==> e.item.note.id != id
    ensures var done := WriteAll(corpus, items, profile).corpus;
            && (id in done.rows <==> id in corpus.rows)
            && (id in corpus.rows ==> done.rows[id] == corpus.rows[id])
            && (forall p :: EmbeddingKey(id, p) in done.embeddings <==> EmbeddingKey(id, p) in corpus.embeddings)
            && (forall p :: EmbeddingKey(id, p) in corpus.embeddings ==>
                  done.embeddings[EmbeddingKey(id, p)] == corpus.embeddings[EmbeddingKey(id, p)])
  {
    if items != [] { OtherRowsUntouched(corpus, items[..|items| - 1], profile, id); }
  }

  /** After a write, none of its items could be written again. */
  lemma {:induction false} NoneCurrentAfter(corpus: Corpus, items: seq<Embedded>, profile: string, e: Embedded)
    requires e in items
    ensures !Current(WriteAll(corpus, items, profile).corpus, e.item.note)
  {
    var before, last := items[..|items| - 1], items[|items| - 1];
    if e in before { NoneCurrentAfter(corpus, before, profile, e); } else { assert e == last; }
  }

  // ------------------------------------------------------- the same file again

  lemma {:induction false} AuthoredIsListed(entries: seq<Entry>, e: Entry)
    requires e in entries && SummaryOf(e) != ""
    ensures e.id in AuthoredIds(entries)
  {
    if entries[0] != e { AuthoredIsListed(entries[1..], e); }
  }

  /** A file without repeats has one authored entry for an id. */
  lemma {:induction false} TwiceAuthoredRepeats(entries: seq<Entry>, a: Entry, b: Entry)
    requires a in entries && b in entries && a != b && a.id == b.id && SummaryOf(a) != "" && SummaryOf(b) != ""
    ensures multiset(AuthoredIds(entries))[a.id] > 1
  {
    var rest := AuthoredIds(entries[1..]);
    if entries[0] == a || entries[0] == b {
      AuthoredIsListed(entries[1..], if entries[0] == a then b else a);
      assert AuthoredIds(entries) == [a.id] + rest;
    } else {
      TwiceAuthoredRepeats(entries[1..], a, b);
      assert AuthoredIds(entries) == (if SummaryOf(entries[0]) != "" then [entries[0].id] else []) + rest;
    }
  }

  lemma NoRepeatsInWork(file: WorkFile, notes: seq<Undescribed>)
    requires WorkOf(file, notes) != []
    ensures Repeats(AuthoredIds(file.notes)) == {} && WorkOf(file, notes) == ReadEntries(notes, file.notes).work
  {
    var repeated := Sorted(Repeats(AuthoredIds(file.notes)));
    assert |RepeatProblems(repeated)| == |repeated|;
    assert forall x :: x in Repeats(AuthoredIds(file.notes)) ==> x in repeated;
  }

  lemma NextKeepsLog(s: State, event: Event)
    ensures |s.log| <= |Next(s, event).log| && Next(s, event).log[..|s.log|] == s.log
  {
    hide WriteSteps, Lists, Allowed, WorkOf, EmbedEach;
    if event.Apply? && event.run in s.plans {
      WriteStepsAreWriteAll(s, s.plans[event.run].items, s.plans[event.run].file, event.profile);
    }
  }

  /** The log of writes only grows. */
  lemma {:induction false} LogGrows(start: Corpus, events: seq<Event>, more: seq<Event>)
    ensures var log, later := Run(start, events).log, Run(start, events + more).log;
            |log| <= |later| && later[..|log|] == log
  {
    if more == [] {
      assert events + more == events;
    } else {
      var before, last := more[..|more| - 1], more[|more| - 1];
      var all := events + more;
      assert all[..|all| - 1] == events + before && all[|all| - 1] == last;
      assert Run(start, all) == Next(Run(start, events + before), last);
      hide *;
      LogGrows(start, events, before);
      NextKeepsLog(Run(start, events + before), last);
      var log := Run(start, events).log;
      assert Run(start, all).log[..|log|] == Run(start, events + before).log[..|log|];
    }
  }

  /**
    Running the same file again, at any later time and whatever anyone has written since,
    never takes up a note that a run over that file has written.
   */
  lemma RerunRepeatsNothing(
      start: Corpus, events: seq<Event>, more: seq<Event>, i: nat, notes: seq<Undescribed>, a: Authored)
    requires i < |Run(start, events).log|
    requires Lists(Run(start, events + more).corpus, notes)
    requires a in WorkOf(Run(start, events).log[i].file, notes)
    ensures a.note.id != Run(start, events).log[i].e.item.note.id
  {
    var w, t := Run(start, events).log[i], Run(start, events + more);
    LogGrows(start, events, more);
    assert t.log[..|Run(start, events).log|][i] == w;
    RunKeepsInv(start, events + more);
    assert WriteOk(t, w) && RowsKnown(t);
    hide Run, Inv;
    WrittenNotTakenUp(t, w, notes, a);
  }

  lemma WrittenNotTakenUp(t: State, w: LoggedWrite, notes: seq<Undescribed>, a: Authored)
    requires RowsKnown(t) && WriteOk(t, w) && Lists(t.corpus, notes) && a in WorkOf(w.file, notes)
    ensures a.note.id != w.e.item.note.id
  {
    hide WorkOf, Lists, AuthoredFrom, DigestFor;
    SameEntry(w.file, notes, a, w.e.item);
    WorkIsCurrent(t.corpus, w.file, notes, a);
  }

  /** The file can be read against these notes without a problem. */
  predicate Clean(file: WorkFile, notes: seq<Undescribed>) {
    var reading := ReadFile(file, notes);
    reading.problems + GovernanceProblems(reading.work) == []
  }

  /** An entry that names a current note becomes work, if nothing is wrong with the file. */
  lemma {:induction false} EntryIsRead(notes: seq<Undescribed>, entries: seq<Entry>, e: Entry)
    requires e in entries && SummaryOf(e) != "" && ReadEntries(notes, entries).problems == []
    requires NoteOf(notes, e.id).Some? && e.revision == Some(NoteOf(notes, e.id).value.revision)
    ensures Authored(NoteOf(notes, e.id).value, SummaryOf(e)) in ReadEntries(notes, entries).work
  {
    var before, last := entries[..|entries| - 1], entries[|entries| - 1];
    if e in before {
      EntryIsRead(notes, before, e);
    } else {
      assert e == last;
      assert ReadEntry(notes, last).problems == [];
    }
  }

  /**
    What a run planned is taken up by a later run over the same file exactly when the file
    reads without a problem and the row is then as the plan found it: undescribed, active,
    at the same revision. So a note that was inactive when the run wrote can still be taken
    up once it is active again.
   */
  lemma PlannedTakenUpExactly(
      start: Corpus, events: seq<Event>, more: seq<Event>, r: nat, e: Embedded, notes: seq<Undescribed>)
    requires r in Run(start, events).plans && e in Run(start, events).plans[r].items
    requires Lists(Run(start, events + more).corpus, notes)
    ensures var file, corpus := Run(start, events).plans[r].file, Run(start, events + more).corpus;
            (exists a :: a in WorkOf(file, notes) && a.note.id == e.item.note.id)
            <==> Clean(file, notes) && Current(corpus, e.item.note)
  {
    RunKeepsInv(start, events);
    var file, corpus := Run(start, events).plans[r].file, Run(start, events + more).corpus;
    assert ItemOk(Run(start, events).last, file, e);
    ItemOkIs(Run(start, events).last, file, e);
    hide *;
    if a :| a in WorkOf(file, notes) && a.note.id == e.item.note.id {
      SameEntry(file, notes, a, e.item);
      WorkIsCurrent(corpus, file, notes, a);
      SameKeySameCurrent(corpus, a.note, e.item.note);
      WorkIsClean(file, notes);
    }
    if Clean(file, notes) && Current(corpus, e.item.note) {
      var a := CurrentTakenUp(corpus, file, notes, e.item);
    }
  }

  lemma WorkIsClean(file: WorkFile, notes: seq<Undescribed>)
    ensures WorkOf(file, notes) != [] ==> Clean(file, notes)
  {
    hide ReadFile, GovernanceProblems;
  }

  lemma CurrentTakenUp(corpus: Corpus, file: WorkFile, notes: seq<Undescribed>, item: Authored) returns (a: Authored)
    requires Lists(corpus, notes) && AuthoredFrom(file, item) && Clean(file, notes) && Current(corpus, item.note)
    ensures a in WorkOf(file, notes) && a.note.id == item.note.id
  {
    var id := item.note.id;
    var e :| e in file.notes && e.id == id && SummaryOf(e) == item.summary != ""
             && e.revision == Some(item.note.revision) && e.body == item.note.body;
    hide Strip, GovernanceProblems, AuthoredIds, Sorted, ReadEntries;
    NoteOfNone(notes, id);
    assert Snapshot(id, corpus.rows[id]) in notes;
    var note := NoteOf(notes, id).value;
    assert note.revision == corpus.rows[id].revision;
    CleanReads(file, notes);
    EntryIsRead(notes, file.notes, e);
    a := Authored(note, SummaryOf(e));
  }

  lemma CleanReads(file: WorkFile, notes: seq<Undescribed>)
    requires Clean(file, notes)
    ensures ReadEntries(notes, file.notes).problems == []
    ensures WorkOf(file, notes) == ReadEntries(notes, file.notes).work
  {
    hide GovernanceProblems, AuthoredIds, Repeats;
    assert |RepeatProblems(Sorted(Repeats(AuthoredIds(file.notes))))| == |Sorted(Repeats(AuthoredIds(file.notes)))|;
  }

  /** Straight after its write none of a run's items could be taken up again. */
  lemma NothingCarriedRemains(
      start: Corpus, events: seq<Event>, r: nat, profile: string, notes: seq<Undescribed>, a: Authored)
    requires r in Run(start, events).plans
    requires Lists(Run(start, events + [Apply(r, profile)]).corpus, notes)
    requires a in WorkOf(Run(start, events).plans[r].file, notes)
    ensures forall e :: e in Run(start, events).plans[r].items ==> e.item.note.id != a.note.id
  {
    RunKeepsInv(start, events);
    var s := Run(start, events);
    var plan := s.plans[r];
    RunApplies(start, events, r, profile);
    assert forall e :: e in plan.items ==> ItemOk(s.last, plan.file, e);
    hide *;
    forall e | e in plan.items ensures e.item.note.id != a.note.id {
      ItemOkIs(s.last, plan.file, e);
      RerunSkips(s.corpus, plan, profile, notes, a, e);
    }
  }

  lemma RunApplies(start: Corpus, events: seq<Event>, r: nat, profile: string)
    requires r in Run(start, events).plans
    ensures var s := Run(start, events);
            Run(start, events + [Apply(r, profile)]).corpus == WriteAll(s.corpus, s.plans[r].items, profile).corpus
  {
    var s, more := Run(start, events), events + [Apply(r, profile)];
    assert more[..|more| - 1] == events && more[|more| - 1] == Apply(r, profile);
    assert Run(start, more) == Next(s, Apply(r, profile));
    assert Next(s, Apply(r, profile)).corpus == WriteSteps(s, s.plans[r].items, s.plans[r].file, profile).corpus;
    hide *;
    WriteStepsAreWriteAll(s, s.plans[r].items, s.plans[r].file, profile);
  }

  lemma RerunSkips(corpus: Corpus, plan: Plan, profile: string, notes: seq<Undescribed>, a: Authored, e: Embedded)
    requires e in plan.items && AuthoredFrom(plan.file, e.item)
    requires Lists(WriteAll(corpus, plan.items, profile).corpus, notes) && a in WorkOf(plan.file, notes)
    ensures e.item.note.id != a.note.id
  {
    var after := WriteAll(corpus, plan.items, profile).corpus;
    SameKeySameCurrent(after, a.note, e.item.note);
    hide *;
    NoneCurrentAfter(corpus, plan.items, profile, e);
    WorkIsCurrent(after, plan.file, notes, a);
    SameEntry(plan.file, notes, a, e.item);
  }

  lemma SameKeySameCurrent(corpus: Corpus, a: Undescribed, b: Undescribed)
    ensures a.id == b.id && a.revision == b.revision ==> Current(corpus, a) == Current(corpus, b)
  {
  }

  lemma WorkIsCurrent(corpus: Corpus, file: WorkFile, notes: seq<Undescribed>, a: Authored)
    requires Lists(corpus, notes) && a in WorkOf(file, notes)
    ensures Current(corpus, a.note)
  {
    NoRepeatsInWork(file, notes);
    WorkHasEntry(notes, file.notes, a);
  }

  /** Two readings of one file under one id read one entry, at one revision. */
  lemma SameEntry(file: WorkFile, notes: seq<Undescribed>, a: Authored, b: Authored)
    requires a in WorkOf(file, notes) && AuthoredFrom(file, b)
    ensures a.note.id == b.note.id ==> a.note.revision == b.note.revision
  {
    NoRepeatsInWork(file, notes);
    WorkHasEntry(notes, file.notes, a);
    var x :| x in file.notes && x.id == a.note.id && SummaryOf(x) == a.summary != ""
             && x.revision == Some(a.note.revision);
    var y :| y in file.notes && y.id == b.note.id && SummaryOf(y) == b.summary != ""
             && y.revision == Some(b.note.revision) && y.body == b.note.body;
    OneEntry(file.notes, x, y);
  }

  lemma OneEntry(entries: seq<Entry>, a: Entry, b: Entry)
    requires a in entries && b in entries && SummaryOf(a) != "" && SummaryOf(b) != ""
    ensures a != b && a.id == b.id ==> a.id in Repeats(AuthoredIds(entries))
  {
    if a != b && a.id == b.id {
      TwiceAuthoredRepeats(entries, a, b);
      assert a.id in multiset(AuthoredIds(entries));
    }
  }
}
