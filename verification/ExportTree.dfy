/**
  The write and prune passes of the export (`VaultExportService.export` and
  `_orphaned_files` of app/vault/export.py) over a tree of files.
 */
module ExportTree {
  import opened Wrappers
  import opened Export

  /** One file the run means to write. */
  datatype Rendered = Rendered(vaultPath: string, content: string)

  /** `prunable` names the files nothing accounts for. */
  datatype Report = Report(scanned: nat, written: nat, unmodified: nat, pruned: nat, prunable: set<Path>)

  /** The write pass so far. */
  datatype Pass = Pass(files: Files, written: nat, unmodified: nat, expected: set<Path>)

  predicate AllResolve(items: seq<Rendered>) {
    forall i :: 0 <= i < |items| ==> ResolveExportPath(items[i].vaultPath).Ok?
  }

  /** The position of the first element that fails the test, or the length. */
  function FirstFailing<T>(items: seq<T>, test: T -> bool): (n: nat)
    ensures n <= |items| && (forall i :: 0 <= i < n ==> test(items[i])) && (n < |items| ==> !test(items[n]))
  {
    if items == [] || !test(items[0]) then 0 else 1 + FirstFailing(items[1..], test)
  }

  /** The position of the first item whose path is refused, or the number of items. */
  function FirstRefused(items: seq<Rendered>): (n: nat)
    ensures n <= |items| && AllResolve(items[..n]) && (n == |items| <==> AllResolve(items))
    ensures n < |items| ==> ResolveExportPath(items[n].vaultPath).Err?
  {
    FirstFailing(items, (item: Rendered) => ResolveExportPath(item.vaultPath).Ok?)
  }

  function WritePass(files: Files, items: seq<Rendered>, apply: bool): Pass
    requires AllResolve(items)
  {
    if items == [] then Pass(files, 0, 0, {})
    else
      var before := WritePass(files, items[..|items| - 1], apply);
      var item := items[|items| - 1];
      var target := ResolveExportPath(item.vaultPath).value;
      var expected := before.expected + {target};
      if target in before.files && before.files[target] == item.content then
        Pass(before.files, before.written, before.unmodified + 1, expected)
      else
        Pass(if apply then before.files[target := item.content] else before.files, before.written + 1,
             before.unmodified, expected)
  }

  /** `_orphaned_files` under the first `n` owned prefixes. */
  function Orphans(files: Files, expected: set<Path>, n: nat): set<Path>
    requires n <= |CORPUS_OWNED_PATH_PREFIXES|
  {
    set path | path in files && OwnedMarkdown(path, n) && path !in expected
  }

  function AllOrphans(files: Files, expected: set<Path>): set<Path> {
    Orphans(files, expected, |CORPUS_OWNED_PATH_PREFIXES|)
  }

  /** The tree after a run in which every path resolves. */
  function Exporting(files: Files, items: seq<Rendered>, apply: bool, prune: bool): Files
    requires AllResolve(items)
  {
    var pass := WritePass(files, items, apply);
    if prune && apply then pass.files - AllOrphans(pass.files, pass.expected) else pass.files
  }

  /** The report of such a run. */
  function Reporting(files: Files, items: seq<Rendered>, apply: bool, prune: bool): Report
    requires AllResolve(items)
  {
    var pass := WritePass(files, items, apply);
    var orphans := AllOrphans(pass.files, pass.expected);
    Report(|items|, pass.written, pass.unmodified, if prune && apply then |orphans| else 0, orphans)
  }

  class Tree {
    var files: Files

    constructor (files: Files)
      ensures this.files == files
    {
      this.files := files;
    }

    /** A refused path ends the run with the files before it written and nothing pruned. */
    method Export(items: seq<Rendered>, apply: bool, prune: bool) returns (result: Result<Report, PathError>)
      modifies this
      ensures AllResolve(items) ==>
                && files == Exporting(old(files), items, apply, prune)
                && result == Ok(Reporting(old(files), items, apply, prune))
      ensures !AllResolve(items) ==>
                && result.Err? && result.error == ResolveExportPath(items[FirstRefused(items)].vaultPath).error
                && files == WritePass(old(files), items[..FirstRefused(items)], apply).files
    {
      hide ResolveExportPath, FirstRefused, AllOrphans;
      var written, unmodified := 0, 0;
      var expected: set<Path> := {};
      for i := 0 to |items|
        invariant AllResolve(items[..i])
        invariant Pass(files, written, unmodified, expected) == WritePass(old(files), items[..i], apply)
      {
        assert items[..i + 1][..i] == items[..i];
        var resolved := ResolveExportPath(items[i].vaultPath);
        if resolved.Err? {
          assert FirstRefused(items) == i by { RefusedAt(items, i); }
          return Err(resolved.error);
        }
        var target := resolved.value;
        expected := expected + {target};
        if target in files && files[target] == items[i].content {
          unmodified := unmodified + 1;
          continue;
        }
        written := written + 1;
        if apply { files := files[target := items[i].content]; }
      }
      assert items[..|items|] == items;
      var prunable := CollectOrphans(expected);
      if prune && apply { files := files - prunable; }
      result := Ok(Report(|items|, written, unmodified, if prune && apply then |prunable| else 0, prunable));
    }

    /** The sweep: one owned prefix at a time. */
    method CollectOrphans(expected: set<Path>) returns (orphans: set<Path>)
      ensures orphans == AllOrphans(files, expected)
    {
      orphans := {};
      for n := 0 to |CORPUS_OWNED_PATH_PREFIXES|
        invariant orphans == Orphans(files, expected, n)
      {
        var directory := Parts(CORPUS_OWNED_PATH_PREFIXES[n]);
        var found := set path | path in files && Under(directory, path) && IsMarkdown(path) && path !in expected;
        OrphansGrow(files, expected, n);
        orphans := orphans + found;
      }
    }
  }

  lemma OrphansGrow(files: Files, expected: set<Path>, n: nat)
    requires n < |CORPUS_OWNED_PATH_PREFIXES|
    ensures var directory := Parts(CORPUS_OWNED_PATH_PREFIXES[n]);
            Orphans(files, expected, n + 1)
            == Orphans(files, expected, n)
               + set path | path in files && Under(directory, path) && IsMarkdown(path) && path !in expected
  {
    hide Parts, IsMarkdown, Under;
  }

  lemma ResolvesAt(items: seq<Rendered>, n: nat, k: nat)
    requires n <= |items|
    ensures AllResolve(items[..n]) && k < n ==> ResolveExportPath(items[k].vaultPath).Ok?
  {
    hide ResolveExportPath;
    assert k < n ==> items[..n][k] == items[k];
  }

  lemma RefusedAt(items: seq<Rendered>, i: nat)
    requires i < |items| && AllResolve(items[..i]) && ResolveExportPath(items[i].vaultPath).Err?
    ensures FirstRefused(items) == i
  {
    hide ResolveExportPath, FirstRefused, AllResolve;
    ResolvesAt(items, i, FirstRefused(items));
    ResolvesAt(items, FirstRefused(items), i);
  }

  // ------------------------------------------------------------ convergence

  function Target(item: Rendered): Path
    requires ResolveExportPath(item.vaultPath).Ok?
  {
    ResolveExportPath(item.vaultPath).value
  }

  /** The content the last item for a path asks for. */
  function Wanted(items: seq<Rendered>, path: Path): Option<string>
    requires AllResolve(items)
  {
    if items == [] then None
    else if Target(items[|items| - 1]) == path then Some(items[|items| - 1].content)
    else Wanted(items[..|items| - 1], path)
  }

  function FileAt(files: Files, path: Path): Option<string> {
    if path in files then Some(files[path]) else None
  }

  /** The write pass leaves the last content asked for at every target, and other files alone. */
  lemma {:induction false} WritePassFiles(files: Files, items: seq<Rendered>, path: Path)
    requires AllResolve(items)
    ensures FileAt(WritePass(files, items, true).files, path)
            == if Wanted(items, path).Some? then Wanted(items, path) else FileAt(files, path)
    ensures path in WritePass(files, items, true).expected <==> Wanted(items, path).Some?
  {
    hide ResolveExportPath;
    if items != [] { WritePassFiles(files, items[..|items| - 1], path); }
  }

  predicate Owned(path: Path) {
    OwnedMarkdown(path, |CORPUS_OWNED_PATH_PREFIXES|)
  }

  /**
    After one apply-and-prune run every target holds its content, no other markdown file is
    left under an owned prefix, and every file elsewhere is as it was.
   */
  lemma ExportProjects(files: Files, items: seq<Rendered>, path: Path)
    requires AllResolve(items)
    ensures FileAt(Exporting(files, items, true, true), path)
            == if Wanted(items, path).Some? then Wanted(items, path)
               else if Owned(path) then None
               else FileAt(files, path)
  {
    WritePassFiles(files, items, path);
    hide ResolveExportPath, WritePass, IsMarkdown, Under;
  }

  /** Two items for one file ask for one content. */
  predicate Agree(items: seq<Rendered>)
    requires AllResolve(items)
  {
    forall i, j :: 0 <= i < j < |items| && Target(items[i]) == Target(items[j]) ==> items[i].content == items[j].content
  }

  /** Every item finds its content in place. */
  predicate InPlace(files: Files, items: seq<Rendered>)
    requires AllResolve(items)
  {
    forall i :: 0 <= i < |items| ==> FileAt(files, Target(items[i])) == Some(items[i].content)
  }

  /** A write pass writes nothing exactly when everything is in place, and then changes nothing. */
  lemma {:induction false} IdlePass(files: Files, items: seq<Rendered>, apply: bool)
    requires AllResolve(items)
    ensures WritePass(files, items, apply).written == 0 <==> InPlace(files, items)
    ensures InPlace(files, items) ==> WritePass(files, items, apply).files == files
  {
    hide ResolveExportPath;
    if items != [] {
      var before, last := items[..|items| - 1], items[|items| - 1];
      IdlePass(files, before, apply);
      if InPlace(files, items) {
        assert forall i :: 0 <= i < |before| ==> before[i] == items[i];
        assert InPlace(files, before);
      }
    }
  }

  lemma {:induction false} WantedIsLast(items: seq<Rendered>, i: nat)
    requires AllResolve(items) && i < |items|
    ensures Wanted(items, Target(items[i])).Some?
    ensures Agree(items) ==> Wanted(items, Target(items[i])) == Some(items[i].content)
    ensures exists j :: i <= j < |items| && Target(items[j]) == Target(items[i])
                        && Wanted(items, Target(items[i])) == Some(items[j].content)
  {
    hide ResolveExportPath;
    var n := |items| - 1;
    if Target(items[n]) != Target(items[i]) {
      WantedIsLast(items[..n], i);
      assert Agree(items) ==> Agree(items[..n]);
    }
  }

  /** After a run the items are in place exactly when no two of them disagree about a file. */
  lemma InPlaceAfterRun(files: Files, items: seq<Rendered>)
    requires AllResolve(items)
    ensures InPlace(Exporting(files, items, true, true), items) <==> Agree(items)
  {
    var after := Exporting(files, items, true, true);
    forall i | 0 <= i < |items| ensures FileAt(after, Target(items[i])) == Wanted(items, Target(items[i])) {
      ExportProjects(files, items, Target(items[i]));
      WantedIsLast(items, i);
    }
    hide Exporting, Target, ResolveExportPath;
    if Agree(items) {
      forall i | 0 <= i < |items| ensures FileAt(after, Target(items[i])) == Some(items[i].content) {
        WantedIsLast(items, i);
      }
    }
    if InPlace(after, items) {
      forall i, j | 0 <= i < j < |items| && Target(items[i]) == Target(items[j])
        ensures items[i].content == items[j].content
      {
        assert FileAt(after, Target(items[i])) == FileAt(after, Target(items[j]));
      }
    }
  }

  /** A second run prunes nothing, and writes nothing exactly when no two items disagree about a file. */
  lemma SecondRunIsIdle(files: Files, items: seq<Rendered>)
    requires AllResolve(items)
    ensures var after := Exporting(files, items, true, true);
            var again := Reporting(after, items, true, true);
            && again.pruned == 0 && again.prunable == {}
            && (again.written == 0 <==> Agree(items))
            && (Agree(items) ==> Exporting(after, items, true, true) == after)
  {
    var after := Exporting(files, items, true, true);
    var pass := WritePass(after, items, true);
    InPlaceAfterRun(files, items);
    IdlePass(after, items, true);
    forall path | path in pass.files && Owned(path) ensures path in pass.expected {
      WritePassFiles(after, items, path);
      ExportProjects(files, items, path);
    }
    hide WritePass, ResolveExportPath, IsMarkdown, Under;
    assert AllOrphans(pass.files, pass.expected) == {};
  }

  /** Distinct canonical paths never disagree, so exporting such a corpus converges in one run. */
  lemma DistinctPathsAgree(items: seq<Rendered>)
    requires AllResolve(items)
    requires forall i :: 0 <= i < |items| ==> Canonical(items[i].vaultPath)
    requires forall i, j :: 0 <= i < j < |items| ==> items[i].vaultPath != items[j].vaultPath
    ensures Agree(items)
  {
    forall i, j | 0 <= i < j < |items| ensures Target(items[i]) != Target(items[j]) {
      CanonicalPathsDistinct(items[i].vaultPath, items[j].vaultPath);
      assert Target(items[i]) == Parts(items[i].vaultPath) && Target(items[j]) == Parts(items[j].vaultPath);
    }
  }

  /** A stored row at the index's own path that is not the index itself keeps every later run writing. */
  lemma RowAtIndexPathNeverSettles(files: Files, items: seq<Rendered>, row: string, index: string)
    requires AllResolve(items) && row != index
    requires Rendered(WIKI_INDEX_PATH, row) in items && Rendered(WIKI_INDEX_PATH, index) in items
    ensures Reporting(Exporting(files, items, true, true), items, true, true).written > 0
  {
    hide *;
    SecondRunIsIdle(files, items);
    var i :| 0 <= i < |items| && items[i] == Rendered(WIKI_INDEX_PATH, row);
    var j :| 0 <= j < |items| && items[j] == Rendered(WIKI_INDEX_PATH, index);
    NoPairDisagrees(items, i, j);
    NoPairDisagrees(items, j, i);
  }

  lemma NoPairDisagrees(items: seq<Rendered>, i: nat, j: nat)
    requires AllResolve(items) && i < |items| && j < |items| && items[i].vaultPath == items[j].vaultPath
    ensures Agree(items) ==> items[i].content == items[j].content
  {
    hide ResolveExportPath;
  }

  lemma {:induction false} PassInFull(files: Files, items: seq<Rendered>, apply: bool, path: Path)
    requires AllResolve(items)
    ensures var pass := WritePass(files, items, apply);
            && pass.written + pass.unmodified == |items| && (!apply ==> pass.files == files)
            && (path in pass.expected <==> Wanted(items, path).Some?)
  {
    hide ResolveExportPath;
    if items != [] { PassInFull(files, items[..|items| - 1], apply, path); }
  }

  /**
    Only an applying run writes, only an applying and pruning one deletes, and every run
    counts its items and names the owned files that no item asks for.
   */
  lemma ModesExactly(files: Files, items: seq<Rendered>, apply: bool, prune: bool, path: Path)
    requires AllResolve(items)
    ensures FileAt(Exporting(files, items, apply, prune), path)
            == if !apply then FileAt(files, path)
               else if Wanted(items, path).Some? then Wanted(items, path)
               else if prune && Owned(path) then None
               else FileAt(files, path)
    ensures var report := Reporting(files, items, apply, prune);
            && report.scanned == |items| == report.written + report.unmodified
            && report.pruned == (if prune && apply then |report.prunable| else 0)
            && (path in report.prunable <==> path in files && Owned(path) && Wanted(items, path).None?)
  {
    PassInFull(files, items, apply, path);
    WritePassFiles(files, items, path);
    hide ResolveExportPath, WritePass, Wanted, OwnedMarkdown;
  }

  /** For distinct files a dry run reports exactly what the real run will do. */
  lemma DryRunPredicts(files: Files, items: seq<Rendered>)
    requires AllResolve(items)
    requires forall i, j :: 0 <= i < j < |items| ==> Target(items[i]) != Target(items[j])
    ensures Exporting(files, items, false, false) == files
    ensures var dry, done := Reporting(files, items, false, false), Reporting(files, items, true, true);
            && dry.written == done.written && dry.unmodified == done.unmodified
            && dry.prunable == done.prunable && done.pruned == |dry.prunable|
  {
    DryPass(files, items);
    var dry, done := WritePass(files, items, false), WritePass(files, items, true);
    forall path ensures path in AllOrphans(dry.files, dry.expected) <==> path in AllOrphans(done.files, done.expected) {
      WritePassFiles(files, items, path);
    }
    hide WritePass, ResolveExportPath, IsMarkdown, Under;
    assert AllOrphans(dry.files, dry.expected) == AllOrphans(done.files, done.expected);
  }

  lemma {:induction false} DryPass(files: Files, items: seq<Rendered>)
    requires AllResolve(items)
    requires forall i, j :: 0 <= i < j < |items| ==> Target(items[i]) != Target(items[j])
    ensures var dry, done := WritePass(files, items, false), WritePass(files, items, true);
            && dry.files == files && dry.written == done.written && dry.unmodified == done.unmodified
            && dry.expected == done.expected
  {
    hide ResolveExportPath;
    if items != [] {
      var before, last := items[..|items| - 1], items[|items| - 1];
      DryPass(files, before);
      WritePassFiles(files, before, Target(last));
      NotWanted(before, Target(last));
    }
  }

  lemma {:induction false} NotWanted(items: seq<Rendered>, path: Path)
    requires AllResolve(items) && forall i :: 0 <= i < |items| ==> Target(items[i]) != path
    ensures Wanted(items, path).None?
  {
    hide ResolveExportPath;
    if items != [] { NotWanted(items[..|items| - 1], path); }
  }
}
