/**
  The whole export of a corpus: the walk feeds the write and prune passes, and the
  generated index joins the walked rows (`VaultExportService.export` of
  app/vault/export.py).
 */
module CorpusExport {
  import opened Wrappers
  import opened Export
  import opened ExportTree

  /** What the index page is to hold, or None when there is nothing to index. */
  type Index = seq<Document> -> Option<string>

  function Rendering(documents: seq<Document>): seq<Rendered> {
    seq(|documents|, i requires 0 <= i < |documents| => Rendered(documents[i].vaultPath, documents[i].content))
  }

  /** The write set: every walked row, and the index last. */
  function Items(documents: seq<Document>, index: Index): seq<Rendered> {
    Rendering(documents)
    + if index(documents).Some? then [Rendered(WIKI_INDEX_PATH, index(documents).value)] else []
  }

  method ExportCorpus(tree: Tree, rows: seq<Document>, pageSize: nat, index: Index, apply: bool, prune: bool)
    returns (result: Result<Report, PathError>)
    requires InOrder(rows) && pageSize > 0
    modifies tree
    ensures var items := Items(Remaining(rows, None), index);
            && (AllResolve(items) ==>
                  && tree.files == Exporting(old(tree.files), items, apply, prune)
                  && result == Ok(Reporting(old(tree.files), items, apply, prune)))
            && (!AllResolve(items) ==>
                  && result.Err? && result.error == ResolveExportPath(items[FirstRefused(items)].vaultPath).error
                  && tree.files == WritePass(old(tree.files), items[..FirstRefused(items)], apply).files)
  {
    hide *;
    var documents := Documents(rows, pageSize);
    result := tree.Export(Items(documents, index), apply, prune);
  }

  // ------------------------------------------------------------ a sound table

  /** The constraints on stored paths: canonical, and no two rows share one. */
  predicate SoundPaths(rows: seq<Document>) {
    && (forall i :: 0 <= i < |rows| ==> Canonical(rows[i].vaultPath))
    && forall i, j :: 0 <= i < |rows| && 0 <= j < |rows| && rows[i].vaultPath == rows[j].vaultPath ==>
         rows[i] == rows[j]
  }

  lemma IndexPathIsSound()
    ensures Canonical(WIKI_INDEX_PATH) && Exported(WIKI_INDEX_PATH)
  {
    hide SplitSlash;
    assert EXPORTED_PATH_PREFIXES[3] == "Agent/wiki/" && WIKI_INDEX_PATH[..11] == "Agent/wiki/";
    SegmentSplits("Agent", "wiki/_index.md");
    SegmentSplits("wiki", "_index.md");
    SegmentSplits("_index.md", "");
    assert "Agent" + "/" + "wiki/_index.md" == WIKI_INDEX_PATH && "wiki" + "/" + "_index.md" == "wiki/_index.md";
  }

  /** A segment splits off at its slash. */
  lemma {:induction false} SegmentSplits(segment: string, rest: string)
    requires '/' !in segment
    ensures SplitSlash(segment + "/" + rest) == [segment] + SplitSlash(rest)
    ensures SplitSlash(segment) == [segment]
  {
    var s := segment + "/" + rest;
    if segment == "" {
      assert s[1..] == rest;
    } else {
      assert s[1..] == segment[1..] + "/" + rest;
      SegmentSplits(segment[1..], rest);
      assert segment == [segment[0]] + segment[1..];
    }
  }

  /** Where a row of a sound table goes: its own segments. */
  lemma SoundTarget(path: string)
    requires Canonical(path) && Exported(path)
    ensures ResolveExportPath(path) == Ok(SplitSlash(path))
  {
    CanonicalPathsDistinct(path, path);
  }

  // -------------------------------------------------------------- the whole run

  /** A stored row takes the index's own path and holds something else. */
  predicate IndexDisputed(rows: seq<Document>, index: Index) {
    && index(Remaining(rows, None)).Some?
    && exists i :: 0 <= i < |rows| && rows[i].vaultPath == WIKI_INDEX_PATH
                   && rows[i].content != index(Remaining(rows, None)).value
  }

  /** Every item of a sound table's write set is a walked row or the index, and has a sound path. */
  lemma ItemIsSound(rows: seq<Document>, index: Index, i: nat)
    requires InOrder(rows) && SoundPaths(rows) && i < |Items(Remaining(rows, None), index)|
    ensures var path := Items(Remaining(rows, None), index)[i].vaultPath; Canonical(path) && Exported(path)
  {
    hide Canonical, Exported, Later, Remaining;
    var walked := Remaining(rows, None);
    if i < |walked| { WalkIsExact(rows, walked[i]); }
    IndexPathIsSound();
  }

  lemma ResolveEach(items: seq<Rendered>)
    ensures (forall i :: 0 <= i < |items| ==> ResolveExportPath(items[i].vaultPath).Ok?) ==> AllResolve(items)
  {
  }

  /** No path of a sound table is refused: each item goes to its own segments. */
  lemma CorpusResolves(rows: seq<Document>, index: Index)
    requires InOrder(rows) && SoundPaths(rows)
    ensures AllResolve(Items(Remaining(rows, None), index))
  {
    hide *;
    var items := Items(Remaining(rows, None), index);
    forall i | 0 <= i < |items| ensures ResolveExportPath(items[i].vaultPath).Ok? {
      ItemIsSound(rows, index, i);
      SoundTarget(items[i].vaultPath);
    }
    ResolveEach(items);
  }

  /** Two items go to one file exactly when they have one path. */
  lemma SameTarget(rows: seq<Document>, index: Index, i: nat, j: nat)
    requires InOrder(rows) && SoundPaths(rows)
    requires var n := |Items(Remaining(rows, None), index)|; i < n && j < n
    ensures AllResolve(Items(Remaining(rows, None), index))
    ensures var items := Items(Remaining(rows, None), index);
            Target(items[i]) == Target(items[j]) <==> items[i].vaultPath == items[j].vaultPath
  {
    CorpusResolves(rows, index);
    var items := Items(Remaining(rows, None), index);
    ItemIsSound(rows, index, i);
    ItemIsSound(rows, index, j);
    SoundTarget(items[i].vaultPath);
    SoundTarget(items[j].vaultPath);
    JoinSplitSlash(items[i].vaultPath);
    JoinSplitSlash(items[j].vaultPath);
    hide Items, Remaining, Canonical, Exported, ResolveExportPath, InOrder, SoundPaths, AllResolve;
  }

  /** The write set contradicts itself exactly when a row disputes the index's path. */
  lemma DisputeExactly(rows: seq<Document>, index: Index)
    requires InOrder(rows) && SoundPaths(rows)
    ensures AllResolve(Items(Remaining(rows, None), index))
    ensures Agree(Items(Remaining(rows, None), index)) <==> !IndexDisputed(rows, index)
  {
    hide Remaining, Canonical, Exported, ResolveExportPath, Later, Target;
    CorpusResolves(rows, index);
    IndexPathIsSound();
    var walked, items := Remaining(rows, None), Items(Remaining(rows, None), index);
    if IndexDisputed(rows, index) {
      var k :| 0 <= k < |rows| && rows[k].vaultPath == WIKI_INDEX_PATH && rows[k].content != index(walked).value;
      WalkIsExact(rows, rows[k]);
      var i :| 0 <= i < |walked| && walked[i] == rows[k];
      SameTarget(rows, index, i, |walked|);
      assert items[i].content != items[|walked|].content;
    } else {
      forall i, j | 0 <= i < j < |items| && Target(items[i]) == Target(items[j])
        ensures items[i].content == items[j].content
      {
        SameTarget(rows, index, i, j);
        WalkIsExact(rows, walked[i]);
        if j < |walked| { WalkIsExact(rows, walked[j]); }
      }
    }
  }

  /**
    Exporting a sound table: no path is refused, a second run prunes nothing, and it writes
    nothing and leaves the tree as it is exactly when no stored row disputes the index's path.
   */
  lemma CorpusConverges(rows: seq<Document>, index: Index, files: Files)
    requires InOrder(rows) && SoundPaths(rows)
    ensures AllResolve(Items(Remaining(rows, None), index))
    ensures var items := Items(Remaining(rows, None), index);
            var after := Exporting(files, items, true, true);
            var again := Reporting(after, items, true, true);
            && again.pruned == 0 && again.prunable == {}
            && (again.written == 0 <==> !IndexDisputed(rows, index))
            && (!IndexDisputed(rows, index) ==> Exporting(after, items, true, true) == after)
  {
    hide *;
    DisputeExactly(rows, index);
    SecondRunIsIdle(files, Items(Remaining(rows, None), index));
  }

  /** After a run every exported row's file holds the row, and the index's file the index, whoever else wants it. */
  lemma CorpusLands(rows: seq<Document>, index: Index, files: Files, k: nat)
    requires InOrder(rows) && SoundPaths(rows) && k < |rows| && Exported(rows[k].vaultPath)
    ensures AllResolve(Items(Remaining(rows, None), index))
    ensures var walked := Remaining(rows, None);
            var after := Exporting(files, Items(walked, index), true, true);
            FileAt(after, SplitSlash(rows[k].vaultPath))
            == Some(if rows[k].vaultPath == WIKI_INDEX_PATH && index(walked).Some?
                    then index(walked).value else rows[k].content)
  {
    hide Remaining, Canonical, Exported, ResolveExportPath, Later, Exporting, FileAt, Wanted, Agree;
    CorpusResolves(rows, index);
    var walked, items := Remaining(rows, None), Items(Remaining(rows, None), index);
    WalkIsExact(rows, rows[k]);
    var i :| 0 <= i < |walked| && walked[i] == rows[k];
    SoundTarget(rows[k].vaultPath);
    ExportProjects(files, items, Target(items[i]));
    var from := if rows[k].vaultPath == WIKI_INDEX_PATH && index(walked).Some? then |walked| else i;
    SameTarget(rows, index, i, from);
    WantedIsLast(items, from);
    var j :| from <= j < |items| && Target(items[j]) == Target(items[from])
             && Wanted(items, Target(items[from])) == Some(items[j].content);
    SameTarget(rows, index, j, i);
    if j < |walked| { WalkIsExact(rows, walked[j]); }
  }
}
