/**
  Which stored paths are exported, where they go, and which files the export owns, folder
  by folder.
 */
module ExportPaths {
  import opened Wrappers
  import opened Lines
  import opened TextLaws
  import opened Export
  import opened ExportTree
  import opened CorpusExport

  // ---------------------------------------------------------------- the parts

  lemma {:induction false} CollapseJoins(x: seq<string>, y: seq<string>)
    ensures Collapse(x + y) == Collapse(x) + Collapse(y)
  {
    if x == [] {
      assert x + y == y;
    } else {
      assert (x + y)[1..] == x[1..] + y;
      CollapseJoins(x[1..], y);
    }
  }

  /** A character before a text joins its first part, and a slash makes an empty one before it. */
  function Prefixed(c: char, parts: seq<string>): seq<string>
    requires parts != []
  {
    if c == '/' then [""] + parts else [[c] + parts[0]] + parts[1..]
  }

  lemma SplitCons(c: char, s: string)
    ensures SplitSlash([c] + s) == Prefixed(c, SplitSlash(s))
  {
    assert ([c] + s)[1..] == s;
  }

  lemma PrefixedJoins(c: char, x: seq<string>, y: seq<string>)
    requires x != []
    ensures Prefixed(c, x + y) == Prefixed(c, x) + y
  {
  }

  lemma SplitNothing(s: string)
    ensures SplitSlash("") == [""] && [""] + SplitSlash(s) == SplitSlash("/" + s)
  {
    assert ("/" + s)[1..] == s;
  }

  lemma {:induction false} SplitJoins(a: string, b: string)
    ensures SplitSlash(a + ("/" + b)) == SplitSlash(a) + SplitSlash(b)
  {
    hide SplitSlash, Prefixed;
    if a == "" {
      SplitNothing(b);
      assert a + ("/" + b) == "/" + b;
    } else {
      var rest := a[1..] + ("/" + b);
      assert a == [a[0]] + a[1..] && a + ("/" + b) == [a[0]] + rest;
      SplitJoins(a[1..], b);
      SplitCons(a[0], rest);
      SplitCons(a[0], a[1..]);
      PrefixedJoins(a[0], SplitSlash(a[1..]), SplitSlash(b));
    }
  }

  /** The parts of a path with a slash in it are those before and those after. */
  lemma PartsJoin(a: string, b: string)
    ensures Parts(a + "/" + b) == Parts(a) + Parts(b)
  {
    SplitJoins(a, b);
    assert a + ("/" + b) == a + "/" + b;
    CollapseJoins(SplitSlash(a), SplitSlash(b));
    hide SplitSlash, Collapse;
  }

  /** A path without a slash is one part, or none if it is empty or a dot. */
  lemma PartAlone(segment: string)
    requires '/' !in segment
    ensures Parts(segment) == if segment == "" || segment == "." then [] else [segment]
  {
    SegmentSplits(segment, "");
    assert SplitSlash(segment) == [segment] && [segment][1..] == [];
    assert Collapse([]) == [];
    hide SplitSlash;
  }

  lemma {:induction false} CollapseMembers(parts: seq<string>, part: string)
    ensures part in Collapse(parts) <==> part in parts && part != "" && part != "."
  {
    if parts != [] {
      CollapseMembers(parts[1..], part);
      assert parts == [parts[0]] + parts[1..];
    }
  }

  // ------------------------------------------------------------- the four folders

  /** The folders of the corpus. */
  predicate IsFolder(name: string) {
    name == "Promotion Candidates" || name == "notes" || name == "review" || name == "wiki"
  }

  ghost predicate InFolder(path: string) {
    exists name, rest :: IsFolder(name) && path == "Agent/" + name + "/" + rest
  }

  lemma PrefixOf(path: string, name: string)
    ensures StartsWith(path, "Agent/" + name + "/") <==> exists rest :: path == "Agent/" + name + "/" + rest
  {
    var prefix := "Agent/" + name + "/";
    if StartsWith(path, prefix) { assert path == prefix + path[|prefix|..]; }
    if rest :| path == "Agent/" + name + "/" + rest { assert path[..|prefix|] == prefix; }
  }

  lemma FourFolders()
    ensures |EXPORTED_PATH_PREFIXES| == 4 && |CORPUS_OWNED_PATH_PREFIXES| == 4
    ensures forall i :: 0 <= i < 4 ==> CORPUS_OWNED_PATH_PREFIXES[i] == EXPORTED_PATH_PREFIXES[i]
    ensures EXPORTED_PATH_PREFIXES[0] == "Agent/" + "Promotion Candidates" + "/"
    ensures EXPORTED_PATH_PREFIXES[1] == "Agent/" + "notes" + "/"
    ensures EXPORTED_PATH_PREFIXES[2] == "Agent/" + "review" + "/"
    ensures EXPORTED_PATH_PREFIXES[3] == "Agent/" + "wiki" + "/"
  {
  }

  /** Exactly what lies in one of the four folders is exported. */
  lemma ExportedExactly(path: string)
    ensures Exported(path) <==> InFolder(path)
  {
    hide StartsWith;
    FourFolders();
    PrefixOf(path, "Promotion Candidates");
    PrefixOf(path, "notes");
    PrefixOf(path, "review");
    PrefixOf(path, "wiki");
  }

  /**
    A path is resolved exactly when it lies in one of the four folders and none of its parts
    is `..`; it goes to its parts, and is refused for the one reason or the other.
   */
  lemma ResolvesExactly(path: string)
    ensures ResolveExportPath(path)
            == if !InFolder(path) then Err(OutsidePrefixes(path))
               else if ".." in SplitSlash(path) then Err(NotSafe(path))
               else Ok(Parts(path))
    ensures forall part :: part in Parts(path) <==> part in SplitSlash(path) && part != "" && part != "."
  {
    hide Exported, InFolder, SplitSlash, Collapse;
    ExportedExactly(path);
    forall part ensures part in Parts(path) <==> part in SplitSlash(path) && part != "" && part != "." {
      CollapseMembers(SplitSlash(path), part);
    }
  }

  // --------------------------------------------------------------- owned files

  lemma FolderParts(name: string)
    requires '/' !in name && name != "" && name != "."
    ensures Parts("Agent/" + name + "/") == ["Agent", name]
  {
    hide Parts, SplitSlash;
    PartAlone("Agent");
    PartAlone(name);
    PartAlone("");
    PartsJoin("Agent", name + "/" + "");
    PartsJoin(name, "");
    assert "Agent/" + name + "/" == "Agent" + "/" + (name + "/" + "");
  }

  lemma FoldersAreNames(name: string)
    requires IsFolder(name)
    ensures '/' !in name && name != "" && name != "."
  {
  }

  /** The export owns exactly the markdown files at any depth in one of the four folders. */
  lemma OwnedExactly(path: Path)
    ensures Owned(path)
            <==> |path| >= 3 && path[0] == "Agent" && IsFolder(path[1]) && EndsWith(path[|path| - 1], ".md")
  {
    hide Parts, EndsWith;
    FourFolders();
    FoldersAreNames("Promotion Candidates");
    FoldersAreNames("notes");
    FoldersAreNames("review");
    FoldersAreNames("wiki");
    FolderParts("Promotion Candidates");
    FolderParts("notes");
    FolderParts("review");
    FolderParts("wiki");
    if |path| >= 3 { assert path[..2] == [path[0], path[1]]; }
    var owned := CORPUS_OWNED_PATH_PREFIXES;
    assert Parts(owned[0]) == ["Agent", "Promotion Candidates"] && Parts(owned[1]) == ["Agent", "notes"];
    assert Parts(owned[2]) == ["Agent", "review"] && Parts(owned[3]) == ["Agent", "wiki"];
  }

  /** The generated index stands in the wiki folder. */
  lemma IndexStands()
    ensures Parts(WIKI_INDEX_PATH) == ["Agent", "wiki", "_index.md"]
  {
    hide Parts, SplitSlash;
    PartAlone("Agent");
    PartAlone("wiki");
    PartAlone("_index.md");
    PartsJoin("Agent", "wiki/_index.md");
    PartsJoin("wiki", "_index.md");
    assert "Agent" + "/" + "wiki/_index.md" == WIKI_INDEX_PATH && "wiki" + "/" + "_index.md" == "wiki/_index.md";
  }

  // ---------------------------------------------------------------- the order

  /** Strictly earlier by code point. */
  ghost predicate ComesBefore(a: string, b: string) {
    a != b && exists k: nat :: LowerAt(a, b, k)
  }

  /** The walk goes on after a cursor with the greater paths, and with the greater ids of the same path. */
  lemma LaterExactly(c: Cursor, d: Document)
    ensures Later(c, d)
            <==> ComesBefore(c.vaultPath, d.vaultPath) || (c.vaultPath == d.vaultPath && ComesBefore(c.id, d.id))
  {
    OrderExactly(c.vaultPath, d.vaultPath);
    OrderExactly(c.id, d.id);
    hide LowerAt;
  }

  /** A row the walk has still to come to. */
  predicate Ahead(rows: seq<Document>, after: Option<Cursor>, d: Document) {
    d in rows && Exported(d.vaultPath) && (after.None? || Later(after.value, d))
  }

  lemma {:induction false} RemainingExactly(rows: seq<Document>, after: Option<Cursor>, d: Document)
    ensures d in Remaining(rows, after) <==> Ahead(rows, after, d)
  {
    hide Exported, Later;
    if rows != [] {
      RemainingExactly(rows[1..], after, d);
      assert rows == [rows[0]] + rows[1..];
    }
  }

  /** A page is the first rows ahead of the cursor, as many as asked for or as there are. */
  lemma PageExactly(rows: seq<Document>, after: Option<Cursor>, limit: nat)
    requires InOrder(rows)
    ensures var page := ListPage(rows, after, limit);
            && |page| <= limit && InOrder(page)
            && (forall d :: d in page ==> Ahead(rows, after, d))
            && (forall d, e :: d in page && e !in page && Ahead(rows, after, e) ==> Later(CursorOf(d), e))
            && (|page| < limit ==> forall e :: Ahead(rows, after, e) ==> e in page)
  {
    hide Exported, Later, Remaining;
    var left := Remaining(rows, after);
    RemainingInOrder(rows, after);
    forall d ensures d in left <==> Ahead(rows, after, d) {
      RemainingExactly(rows, after, d);
    }
    var page := ListPage(rows, after, limit);
    forall d, e | d in page && e in left && e !in page ensures Later(CursorOf(d), e) {
      var i :| 0 <= i < |page| && page[i] == d;
      var j :| 0 <= j < |left| && left[j] == e;
      assert forall m :: 0 <= m < |page| ==> page[m] == left[m];
    }
  }
}
