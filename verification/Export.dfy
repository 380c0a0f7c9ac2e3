/**
  The export of the corpus onto a file tree (app/vault/export.py): the keyset walk over
  the rows, the resolution of paths, and the write and prune passes.
 */
module Export {
  import opened Wrappers
  import opened Lines
  import opened PyText

  const EXPORTED_PATH_PREFIXES: seq<string> :=
    ["Agent/Promotion Candidates/", "Agent/notes/", "Agent/review/", "Agent/wiki/"]
  const CORPUS_OWNED_PATH_PREFIXES: seq<string> :=
    ["Agent/Promotion Candidates/", "Agent/notes/", "Agent/review/", "Agent/wiki/"]
  const WIKI_INDEX_PATH := "Agent/wiki/_index.md"

  // ---------------------------------------------------------------- the walk

  /** A row of the corpus, with the text it renders to. */
  datatype Document = Document(vaultPath: string, id: string, content: string)

  /** The walk's cursor. */
  datatype Cursor = Cursor(vaultPath: string, id: string)

  function CursorOf(d: Document): Cursor {
    Cursor(d.vaultPath, d.id)
  }

  /** Strictly later in the order `(vault_path, id)`. */
  predicate Later(c: Cursor, d: Document) {
    (c.vaultPath != d.vaultPath && Leq(c.vaultPath, d.vaultPath))
    || (c.vaultPath == d.vaultPath && c.id != d.id && Leq(c.id, d.id))
  }

  predicate Exported(path: string) {
    exists i :: 0 <= i < |EXPORTED_PATH_PREFIXES| && StartsWith(path, EXPORTED_PATH_PREFIXES[i])
  }

  /** The table in index order: `vault_path` is unique, so the order is strict. */
  predicate InOrder(rows: seq<Document>) {
    forall i, j :: 0 <= i < j < |rows| ==> Later(CursorOf(rows[i]), rows[j])
  }

  /** The exported rows after a cursor, in order. */
  function Remaining(rows: seq<Document>, after: Option<Cursor>): seq<Document> {
    if rows == [] then []
    else
      (if Exported(rows[0].vaultPath) && (after.None? || Later(after.value, rows[0])) then [rows[0]] else [])
      + Remaining(rows[1..], after)
  }

  /** `list_under_path_prefixes`. */
  function ListPage(rows: seq<Document>, after: Option<Cursor>, limit: nat): seq<Document> {
    var left := Remaining(rows, after);
    if |left| <= limit then left else left[..limit]
  }

  lemma LaterAsymmetric(a: Document, b: Document)
    requires Later(CursorOf(a), b)
    ensures !Later(CursorOf(b), a)
  {
    LeqTotal(a.vaultPath, b.vaultPath);
    LeqTotal(a.id, b.id);
  }

  lemma NotLaterThanItself(a: Document)
    ensures !Later(CursorOf(a), a)
  {
  }

  lemma {:induction false} RemainingInOrder(rows: seq<Document>, after: Option<Cursor>)
    requires InOrder(rows)
    ensures InOrder(Remaining(rows, after))
    ensures forall d :: d in Remaining(rows, after) ==> d in rows
  {
    if rows != [] {
      RemainingInOrder(rows[1..], after);
      hide Later, Exported;
      forall d | d in Remaining(rows[1..], after) ensures Later(CursorOf(rows[0]), d) {
        var i :| 0 <= i < |rows[1..]| && rows[1..][i] == d;
        assert rows[i + 1] == d;
      }
    }
  }

  /** What remains after a row is what the order puts after it. */
  lemma {:induction false} RemainingAfter(rows: seq<Document>, n: nat)
    requires InOrder(rows) && 0 < n <= |Remaining(rows, None)|
    ensures Remaining(rows, Some(CursorOf(Remaining(rows, None)[n - 1]))) == Remaining(rows, None)[n..]
  {
    var all := Remaining(rows, None);
    RemainingInOrder(rows, None);
    var c := all[n - 1];
    forall i | 0 <= i < n ensures !Later(CursorOf(c), all[i]) {
      if i < n - 1 { LaterAsymmetric(all[i], c); } else { NotLaterThanItself(c); }
    }
    RemainingSplits(rows, c, n);
  }

  /** Skipping every row not after `c` leaves exactly the rest, wherever `c` stands. */
  lemma {:induction false} RemainingSplits(rows: seq<Document>, c: Document, n: nat)
    requires InOrder(rows) && n <= |Remaining(rows, None)|
    requires forall i :: 0 <= i < n ==> !Later(CursorOf(c), Remaining(rows, None)[i])
    requires forall i :: n <= i < |Remaining(rows, None)| ==> Later(CursorOf(c), Remaining(rows, None)[i])
    ensures Remaining(rows, Some(CursorOf(c))) == Remaining(rows, None)[n..]
  {
    hide Later;
    if rows != [] {
      var all, rest := Remaining(rows, None), Remaining(rows[1..], None);
      if !Exported(rows[0].vaultPath) {
        assert all == rest;
        RemainingSplits(rows[1..], c, n);
      } else {
        assert all == [rows[0]] + rest;
        assert forall i :: 0 <= i < |rest| ==> rest[i] == all[i + 1];
        RemainingSplits(rows[1..], c, if n > 0 then n - 1 else 0);
        assert all[0] == rows[0];
      }
    }
  }

  /** `documents`: page after page, each starting after the last row of the one before. */
  method Documents(rows: seq<Document>, pageSize: nat) returns (documents: seq<Document>)
    requires InOrder(rows)
    ensures documents == if pageSize == 0 then [] else Remaining(rows, None)
  {
    hide Remaining, Later, Exported, InOrder;
    ghost var all := Remaining(rows, None);
    documents := [];
    var cursor: Option<Cursor> := None;
    while true
      invariant |documents| <= |all| && documents == all[..|documents|]
      invariant if documents == [] then cursor == None else cursor == Some(CursorOf(documents[|documents| - 1]))
      invariant pageSize == 0 ==> documents == []
      decreases |all| - |documents|
    {
      ghost var n := |documents|;
      if n > 0 { RemainingAfter(rows, n); }
      assert Remaining(rows, cursor) == all[n..];
      var page := ListPage(rows, cursor, pageSize);
      if page == [] { break; }
      assert page == all[n..n + |page|];
      assert all[..n] + all[n..n + |page|] == all[..n + |page|];
      documents := documents + page;
      cursor := Some(CursorOf(page[|page| - 1]));
    }
  }

  /** The walk sees every exported row, no other, and none of them twice. */
  lemma {:induction false} WalkIsExact(rows: seq<Document>, d: Document)
    requires InOrder(rows)
    ensures d in Remaining(rows, None) <==> d in rows && Exported(d.vaultPath)
    ensures InOrder(Remaining(rows, None))
    ensures forall i, j :: 0 <= i < j < |Remaining(rows, None)| ==>
              Remaining(rows, None)[i].vaultPath != Remaining(rows, None)[j].vaultPath
              || Remaining(rows, None)[i].id != Remaining(rows, None)[j].id
  {
    RemainingInOrder(rows, None);
    WalkKeepsExported(rows, d);
    var all := Remaining(rows, None);
    forall i, j | 0 <= i < j < |all| ensures all[i].vaultPath != all[j].vaultPath || all[i].id != all[j].id {
      assert Later(CursorOf(all[i]), all[j]);
    }
  }

  lemma {:induction false} WalkKeepsExported(rows: seq<Document>, d: Document)
    ensures d in Remaining(rows, None) <==> d in rows && Exported(d.vaultPath)
  {
    hide Exported;
    if rows != [] {
      WalkKeepsExported(rows[1..], d);
      assert rows == [rows[0]] + rows[1..];
    }
  }

  // ------------------------------------------------------------------ paths

  /** A file's path below the root, part by part. */
  type Path = seq<string>

  type Files = map<Path, string>

  datatype PathError = OutsidePrefixes(path: string) | NotSafe(path: string)

  /** `s.split("/")`: never empty. */
  function SplitSlash(s: string): (parts: seq<string>)
    ensures parts != []
  {
    if s == "" then [""]
    else
      var rest := SplitSlash(s[1..]);
      if s[0] == '/' then [""] + rest else [[s[0]] + rest[0]] + rest[1..]
  }

  /** Empty and `.` parts disappear. */
  function Collapse(parts: seq<string>): Path {
    if parts == [] then []
    else (if parts[0] == "" || parts[0] == "." then [] else [parts[0]]) + Collapse(parts[1..])
  }

  /** `PurePosixPath(path).parts` for a relative path. */
  function Parts(path: string): Path {
    Collapse(SplitSlash(path))
  }

  /** `resolve_export_path` on a tree without symbolic links. */
  function ResolveExportPath(vaultPath: string): Result<Path, PathError> {
    if !Exported(vaultPath) then Err(OutsidePrefixes(vaultPath))
    else if ".." in Parts(vaultPath) then Err(NotSafe(vaultPath))
    else Ok(Parts(vaultPath))
  }

  /** The table's constraint on stored paths: no empty, `.` or `..` segment. */
  predicate Canonical(vaultPath: string) {
    forall part :: part in SplitSlash(vaultPath) ==> part != "" && part != "." && part != ".."
  }

  lemma {:induction false} JoinSplitSlash(s: string)
    ensures Join("/", SplitSlash(s)) == s
  {
    if s != "" {
      JoinSplitSlash(s[1..]);
      var rest := SplitSlash(s[1..]);
      if s[0] == '/' {
        assert ([""] + rest)[1..] == rest;
        assert Join("/", [""] + rest) == "" + "/" + Join("/", rest);
      } else {
        var parts := [[s[0]] + rest[0]] + rest[1..];
        assert parts[1..] == rest[1..];
        if |rest| == 1 {
          assert Join("/", parts) == [s[0]] + rest[0];
        } else {
          ConcatAssociates([s[0]], rest[0], "/");
          ConcatAssociates([s[0]], rest[0] + "/", Join("/", rest[1..]));
        }
      }
      assert s == [s[0]] + s[1..];
    }
  }

  lemma {:induction false} CollapseKeeps(parts: seq<string>)
    requires forall part :: part in parts ==> part != "" && part != "."
    ensures Collapse(parts) == parts
  {
    if parts != [] {
      assert parts[0] in parts && forall part :: part in parts[1..] ==> part in parts;
      CollapseKeeps(parts[1..]);
      assert parts == [parts[0]] + parts[1..];
    }
  }

  /** Different canonical paths are different files. */
  lemma CanonicalPathsDistinct(a: string, b: string)
    requires Canonical(a) && Canonical(b)
    ensures Parts(a) == Parts(b) <==> a == b
    ensures Exported(a) ==> ResolveExportPath(a) == Ok(SplitSlash(a))
  {
    CollapseKeeps(SplitSlash(a));
    CollapseKeeps(SplitSlash(b));
    JoinSplitSlash(a);
    JoinSplitSlash(b);
  }

  /** Below a directory, at any depth. */
  predicate Under(directory: Path, path: Path) {
    |directory| < |path| && path[..|directory|] == directory
  }

  predicate IsMarkdown(path: Path) {
    path != [] && EndsWith(path[|path| - 1], ".md")
  }

  /** A markdown file under one of the first `n` owned prefixes. */
  predicate OwnedMarkdown(path: Path, n: nat)
    requires n <= |CORPUS_OWNED_PATH_PREFIXES|
  {
    IsMarkdown(path) && exists i :: 0 <= i < n && Under(Parts(CORPUS_OWNED_PATH_PREFIXES[i]), path)
  }
}
