/**
  `summarize_body_change`: what is shown for review of a change, counted from a
  matcher's opcodes, beside the rendered diff of a second, possibly different one.
 */
module BodyChange {
  import opened Lines
  import opened UnifiedDiff
  import opened PatchTheory
  import opened PatchLaws
  import opened Difflib

  datatype Summary = Summary(
    resultingBody: string,
    unifiedDiff: string,
    additions: nat,
    removed: seq<RemovedLine>,
    hunks: nat)

  /** The lines `original[i..j]`, numbered from one. */
  function Numbered(original: seq<string>, i: nat, j: nat): seq<RemovedLine>
    requires i <= j <= |original|
    decreases j - i
  {
    if i == j then [] else [RemovedLine(i + 1, original[i])] + Numbered(original, i + 1, j)
  }

  function RemovedBy(original: seq<string>, c: Opcode): seq<RemovedLine> {
    if (c.tag == Deleted || c.tag == Replaced) && c.i1 <= c.i2 <= |original| then Numbered(original, c.i1, c.i2) else []
  }

  function AddedBy(c: Opcode): nat {
    if (c.tag == Inserted || c.tag == Replaced) && c.j1 <= c.j2 then c.j2 - c.j1 else 0
  }

  function AllRemoved(original: seq<string>, codes: seq<Opcode>): seq<RemovedLine> {
    if codes == [] then [] else RemovedBy(original, codes[0]) + AllRemoved(original, codes[1..])
  }

  function AllAdded(codes: seq<Opcode>): nat {
    if codes == [] then 0 else AddedBy(codes[0]) + AllAdded(codes[1..])
  }

  function Changes(codes: seq<Opcode>): nat {
    if codes == [] then 0 else (if codes[0].tag == Equal then 0 else 1) + Changes(codes[1..])
  }

  function DiffText(a: seq<string>, b: seq<string>, codes: seq<Opcode>): string {
    Join("\n", DiffLines(a, b, codes))
  }

  function Summarize(original: string, updated: string, counted: seq<Opcode>, rendered: seq<Opcode>): Summary {
    Summary(updated, DiffText(BodyLines(original), BodyLines(updated), rendered),
            AllAdded(counted), AllRemoved(BodyLines(original), counted), Changes(counted))
  }

  lemma {:induction false} NumberedAppends(original: seq<string>, i: nat, k: nat)
    requires i <= k < |original|
    ensures Numbered(original, i, k + 1) == Numbered(original, i, k) + [RemovedLine(k + 1, original[k])]
    decreases k - i
  {
    if i < k { NumberedAppends(original, i + 1, k); }
  }

  /** `removed.extend(... for index in range(i, j))`. */
  method CollectRemoved(original: seq<string>, removed: seq<RemovedLine>, i: nat, j: nat) returns (r: seq<RemovedLine>)
    requires i <= j <= |original|
    ensures r == removed + Numbered(original, i, j)
  {
    r := removed;
    var index := i;
    while index < j
      invariant i <= index <= j
      invariant r == removed + Numbered(original, i, index)
    {
      NumberedAppends(original, i, index);
      r := r + [RemovedLine(index + 1, original[index])];
      index := index + 1;
    }
  }

  lemma FirstCode(a: seq<string>, b: seq<string>, codes: seq<Opcode>, i: nat, j: nat)
    requires codes != [] && Tiles(a, b, codes, i, j, |a|, |b|)
    ensures var c := codes[0];
            && c.i1 <= c.i2 <= |a| && c.j1 <= c.j2 <= |b|
            && Tiles(a, b, codes[1..], c.i2, c.j2, |a|, |b|)
            && AllRemoved(a, codes) == RemovedBy(a, c) + AllRemoved(a, codes[1..])
            && AllAdded(codes) == AddedBy(c) + AllAdded(codes[1..])
            && Changes(codes) == (if c.tag == Equal then 0 else 1) + Changes(codes[1..])
  {
  }

  lemma NoCodes(a: seq<string>)
    ensures AllRemoved(a, []) == [] && AllAdded([]) == 0 && Changes([]) == 0
  {
  }

  /** The counting loop. */
  method SummarizeBodyChange(original: string, updated: string, counted: seq<Opcode>, rendered: seq<Opcode>)
    returns (s: Summary)
    requires ValidOpcodes(BodyLines(original), BodyLines(updated), counted)
    ensures s == Summarize(original, updated, counted, rendered)
  {
    hide BodyLines, DiffText, Numbered, DiffLines, Tiles, AllRemoved, AllAdded, Changes;
    var originalLines := BodyLines(original);
    var updatedLines := BodyLines(updated);
    var removed: seq<RemovedLine>, additions, hunks := [], 0, 0;
    var k, i, j := 0, 0, 0;
    while k < |counted|
      invariant 0 <= k <= |counted| && 0 <= i && 0 <= j
      invariant Tiles(originalLines, updatedLines, counted[k..], i, j, |originalLines|, |updatedLines|)
      invariant removed + AllRemoved(originalLines, counted[k..]) == AllRemoved(originalLines, counted)
      invariant additions + AllAdded(counted[k..]) == AllAdded(counted)
      invariant hunks + Changes(counted[k..]) == Changes(counted)
    {
      var code := counted[k];
      assert counted[k..][0] == code && counted[k..][1..] == counted[k + 1..];
      FirstCode(originalLines, updatedLines, counted[k..], i, j);
      if code.tag != Equal {
        hunks := hunks + 1;
        if code.tag in {Deleted, Replaced} {
          removed := CollectRemoved(originalLines, removed, code.i1, code.i2);
        }
        if code.tag in {Inserted, Replaced} {
          additions := additions + (code.j2 - code.j1);
        }
      }
      k, i, j := k + 1, code.i2, code.j2;
    }
    assert counted[k..] == [];
    NoCodes(originalLines);
    s := Summary(updated, DiffText(originalLines, updatedLines, rendered), additions, removed, hunks);
  }

  // --------------------------------------------------------------- what it says

  lemma {:induction false} NumberedTruthful(original: seq<string>, i: nat, j: nat)
    requires i <= j <= |original|
    ensures Truthful(original, Numbered(original, i, j), i, j) && |Numbered(original, i, j)| == j - i
    decreases j - i
  {
    if i < j { NumberedTruthful(original, i + 1, j); }
  }

  /** Any valid opcode list reports removals truthfully and balances the two lengths. */
  lemma {:induction false} CountsBalance(
      a: seq<string>, b: seq<string>, codes: seq<Opcode>, i: nat, j: nat, i': nat, j': nat)
    requires Tiles(a, b, codes, i, j, i', j')
    ensures i <= i' <= |a| && j <= j' <= |b|
    ensures Truthful(a, AllRemoved(a, codes), i, i')
    ensures (j' - j) + |AllRemoved(a, codes)| == (i' - i) + AllAdded(codes)
  {
    if codes != [] {
      var c := codes[0];
      NumberedTruthful(a, c.i1, c.i2);
      CountsBalance(a, b, codes[1..], c.i2, c.j2, i', j');
      TruthfulAppends(a, RemovedBy(a, c), AllRemoved(a, codes[1..]), i, c.i2, i');
    }
  }

  /** The summary, whatever the matcher chose. */
  lemma SummaryTruthful(original: string, updated: string, counted: seq<Opcode>, rendered: seq<Opcode>)
    requires ValidOpcodes(BodyLines(original), BodyLines(updated), counted)
    ensures var s := Summarize(original, updated, counted, rendered);
            && |BodyLines(updated)| + |s.removed| == |BodyLines(original)| + s.additions
            && NamesLines(BodyLines(original), s.removed) && StrictlyIncreasing(s.removed)
  {
    var a, b := BodyLines(original), BodyLines(updated);
    CountsBalance(a, b, counted, 0, 0, |a|, |b|);
    TruthfulNamesLines(a, AllRemoved(a, counted));
    TruthfulIncreases(a, AllRemoved(a, counted));
  }

  // -------------------------------------------- the summary and the applier agree

  lemma {:induction false} RemovalsConcat(x: seq<Edit>, y: seq<Edit>, at: nat)
    ensures Removals(x + y, at) == Removals(x, at) + Removals(y, at + |OldSide(x)|)
  {
    if x == [] {
      assert x + y == y;
    } else {
      assert (x + y)[1..] == x[1..] + y;
      RemovalsConcat(x[1..], y, if x[0].Insert? then at else at + 1);
    }
  }

  lemma {:induction false} InsertionsConcat(x: seq<Edit>, y: seq<Edit>)
    ensures Insertions(x + y) == Insertions(x) + Insertions(y)
  {
    if x == [] {
      assert x + y == y;
    } else {
      assert (x + y)[1..] == x[1..] + y;
      InsertionsConcat(x[1..], y);
    }
  }

  lemma {:induction false} PlainCounts(lines: seq<string>, at: nat)
    ensures Removals(Keeps(lines), at) == [] && Insertions(Keeps(lines)) == 0
    ensures Removals(Inserts(lines), at) == [] && Insertions(Inserts(lines)) == |lines|
    ensures Insertions(Drops(lines)) == 0
  {
    if lines != [] {
      PlainCounts(lines[1..], at + 1);
      PlainCounts(lines[1..], at);
    }
  }

  lemma {:induction false} DropsNumbered(a: seq<string>, i: nat, j: nat)
    requires i <= j <= |a|
    ensures Removals(Drops(a[i..j]), i) == Numbered(a, i, j)
    decreases j - i
  {
    if i < j {
      assert a[i..j][1..] == a[i + 1..j];
      DropsNumbered(a, i + 1, j);
    }
  }

  lemma CodeCounts(a: seq<string>, b: seq<string>, c: Opcode)
    requires ValidOpcode(a, b, c)
    ensures Removals(EditsOfCode(a, b, c), c.i1) == RemovedBy(a, c)
    ensures Insertions(EditsOfCode(a, b, c)) == AddedBy(c)
  {
    hide Removals, Insertions, Keeps, Drops, Inserts, OldSide, Numbered;
    PlainCounts(a[c.i1..c.i2], c.i1);
    PlainCounts(b[c.j1..c.j2], c.i1);
    PlainCounts(b[c.j1..c.j2], c.i1 + |OldSide(Drops(a[c.i1..c.i2]))|);
    DropsNumbered(a, c.i1, c.i2);
    RemovalsConcat(Drops(a[c.i1..c.i2]), Inserts(b[c.j1..c.j2]), c.i1);
    InsertionsConcat(Drops(a[c.i1..c.i2]), Inserts(b[c.j1..c.j2]));
  }

  lemma {:induction false} TileRemovals(a: seq<string>, b: seq<string>, codes: seq<Opcode>, i: nat, j: nat,
      i': nat, j': nat)
    requires Tiles(a, b, codes, i, j, i', j')
    ensures Removals(EditsOf(a, b, codes), i) == AllRemoved(a, codes)
  {
    if codes != [] {
      var c := codes[0];
      CodeCounts(a, b, c);
      CodeSides(a, b, c);
      hide RemovedBy, EditsOfCode, Removals, OldSide, NewSide;
      assert |OldSide(EditsOfCode(a, b, c))| == c.i2 - i;
      hide ValidOpcode;
      TileRemovals(a, b, codes[1..], c.i2, c.j2, i', j');
      RemovalsConcat(EditsOfCode(a, b, c), EditsOf(a, b, codes[1..]), i);
    }
  }

  lemma {:induction false} TileInsertions(a: seq<string>, b: seq<string>, codes: seq<Opcode>, i: nat, j: nat,
      i': nat, j': nat)
    requires Tiles(a, b, codes, i, j, i', j')
    ensures Insertions(EditsOf(a, b, codes)) == AllAdded(codes)
  {
    if codes != [] {
      var c := codes[0];
      CodeCounts(a, b, c);
      hide AddedBy, EditsOfCode, Insertions, ValidOpcode;
      TileInsertions(a, b, codes[1..], c.i2, c.j2, i', j');
      InsertionsConcat(EditsOfCode(a, b, c), EditsOf(a, b, codes[1..]));
    }
  }

  lemma {:induction false} CountsAppend(a: seq<string>, codes: seq<Opcode>, c: Opcode)
    ensures AllRemoved(a, codes + [c]) == AllRemoved(a, codes) + RemovedBy(a, c)
    ensures AllAdded(codes + [c]) == AllAdded(codes) + AddedBy(c)
  {
    hide RemovedBy, AddedBy;
    if codes == [] {
      assert codes + [c] == [c] && [c][1..] == [];
    } else {
      assert (codes + [c])[1..] == codes[1..] + [c];
      CountsAppend(a, codes[1..], c);
    }
  }

  /** A placed group's hunk counts what its opcodes count. */
  lemma GroupCounts(a: seq<string>, b: seq<string>, group: seq<Opcode>, i: nat, j: nat, i': nat, j': nat)
    requires Tiles(a, b, group, i, j, i', j') && i < i'
    ensures group != []
    ensures var h := HunkOf(a, b, group);
            && Removals(h.edits, if h.header.oldStart == 0 then 0 else h.header.oldStart - 1) == AllRemoved(a, group)
            && Insertions(h.edits) == AllAdded(group)
  {
    TileSides(a, b, group, i, j, i', j');
    TilesEnds(a, b, group, i, j, i', j');
    TileRemovals(a, b, group, i, j, i', j');
    TileInsertions(a, b, group, i, j, i', j');
  }

  lemma NoTiles(a: seq<string>, b: seq<string>, i: nat, j: nat, i': nat, j': nat)
    requires Tiles(a, b, [], i, j, i', j')
    ensures i == i' && j == j'
  {
  }

  lemma HunksAtShortRun(a: seq<string>, b: seq<string>, codes: seq<Opcode>, group: seq<Opcode>)
    requires codes != [] && !LongRun(codes[0])
    ensures Hunks(a, b, codes, group) == Hunks(a, b, codes[1..], group + [codes[0]])
  {
  }

  lemma {:induction false} HunksCount(
      a: seq<string>, b: seq<string>, codes: seq<Opcode>, group: seq<Opcode>,
      gi: nat, gj: nat, i: nat, j: nat, ie: nat, je: nat)
    requires Tiles(a, b, group, gi, gj, i, j) && Tiles(a, b, codes, i, j, ie, je) && gi < ie
    ensures AllRemovals(Hunks(a, b, codes, group)) == AllRemoved(a, group) + AllRemoved(a, codes)
    ensures AllInsertions(Hunks(a, b, codes, group)) == AllAdded(group) + AllAdded(codes)
  {
    hide AllRemovals, AllInsertions, AllRemoved, AllAdded, Hunks, HunkOf, Tiles;
    if codes == [] {
      NoCodes(a);
      NoTiles(a, b, i, j, ie, je);
      LastGroupCounts(a, b, group, gi, gj, i, j);
    } else if LongRun(codes[0]) {
      var c, s, e := codes[0], KeepStart(codes[0]), KeepEnd(codes[0]);
      LongRunStep(a, b, codes, group, gi, gj, i, j, ie, je);
      LongRunCounts(a, group, codes);
      HunksAtLongRun(a, b, codes, group);
      GroupCounts(a, b, group + [s], gi, gj, s.i2, s.j2);
      HunksCount(a, b, codes[1..], [e], e.i1, e.j1, c.i2, c.j2, ie, je);
      HeadCounts(HunkOf(a, b, group + [s]), Hunks(a, b, codes[1..], [e]));
    } else {
      var c := codes[0];
      ShortStep(a, b, codes, group, gi, gj, i, j, ie, je);
      ShortCounts(a, group, codes);
      HunksAtShortRun(a, b, codes, group);
      HunksCount(a, b, codes[1..], group + [c], gi, gj, c.i2, c.j2, ie, je);
    }
  }

  lemma LastGroupCounts(a: seq<string>, b: seq<string>, group: seq<Opcode>, i: nat, j: nat, i': nat, j': nat)
    requires Tiles(a, b, group, i, j, i', j') && i < i'
    ensures AllRemovals(Hunks(a, b, [], group)) == AllRemoved(a, group)
    ensures AllInsertions(Hunks(a, b, [], group)) == AllAdded(group)
  {
    if ChangesNothing(group) {
      assert group != [] && group[1..] == [];
    } else {
      GroupCounts(a, b, group, i, j, i', j');
      HeadCounts(HunkOf(a, b, group), []);
      assert [HunkOf(a, b, group)] + [] == [HunkOf(a, b, group)];
    }
  }

  lemma HunksAtLongRun(a: seq<string>, b: seq<string>, codes: seq<Opcode>, group: seq<Opcode>)
    requires codes != [] && LongRun(codes[0])
    ensures Hunks(a, b, codes, group)
            == [HunkOf(a, b, group + [KeepStart(codes[0])])] + Hunks(a, b, codes[1..], [KeepEnd(codes[0])])
  {
  }

  lemma LongRunCounts(a: seq<string>, group: seq<Opcode>, codes: seq<Opcode>)
    requires codes != [] && codes[0].tag == Equal
    ensures AllRemoved(a, group + [KeepStart(codes[0])]) == AllRemoved(a, group)
    ensures AllAdded(group + [KeepStart(codes[0])]) == AllAdded(group)
    ensures AllRemoved(a, [KeepEnd(codes[0])]) == [] && AllAdded([KeepEnd(codes[0])]) == 0
    ensures AllRemoved(a, codes) == AllRemoved(a, codes[1..]) && AllAdded(codes) == AllAdded(codes[1..])
  {
    CountsAppend(a, group, KeepStart(codes[0]));
    assert [KeepEnd(codes[0])][1..] == [];
  }

  lemma ShortCounts(a: seq<string>, group: seq<Opcode>, codes: seq<Opcode>)
    requires codes != []
    ensures AllRemoved(a, group + [codes[0]]) + AllRemoved(a, codes[1..]) == AllRemoved(a, group) + AllRemoved(a, codes)
    ensures AllAdded(group + [codes[0]]) + AllAdded(codes[1..]) == AllAdded(group) + AllAdded(codes)
  {
    assert AllRemoved(a, codes) == RemovedBy(a, codes[0]) + AllRemoved(a, codes[1..]);
    assert AllAdded(codes) == AddedBy(codes[0]) + AllAdded(codes[1..]);
    hide *;
    CountsAppend(a, group, codes[0]);
    ConcatAssociates(AllRemoved(a, group), RemovedBy(a, codes[0]), AllRemoved(a, codes[1..]));
  }

  lemma HeadCounts(hunk: Hunk, rest: seq<Hunk>)
    ensures AllRemovals([hunk] + rest)
            == Removals(hunk.edits, if hunk.header.oldStart == 0 then 0 else hunk.header.oldStart - 1)
               + AllRemovals(rest)
    ensures AllInsertions([hunk] + rest) == Insertions(hunk.edits) + AllInsertions(rest)
  {
    assert ([hunk] + rest)[1..] == rest;
  }

  lemma {:induction false} TrimLastCounts(a: seq<string>, codes: seq<Opcode>)
    ensures AllRemoved(a, TrimLast(codes)) == AllRemoved(a, codes)
    ensures AllAdded(TrimLast(codes)) == AllAdded(codes)
  {
    if |codes| == 1 {
      assert [KeepStart(codes[0])][1..] == codes[1..];
    } else if |codes| > 1 {
      assert TrimLast(codes)[1..] == TrimLast(codes[1..]);
      TrimLastCounts(a, codes[1..]);
    }
  }

  /** When both matchers agree, the summary counts exactly what the rendered diff changes. */
  lemma SummaryAgreesWithDiff(a: seq<string>, b: seq<string>, codes: seq<Opcode>)
    requires ValidOpcodes(a, b, codes) && a != []
    ensures AllRemovals(DiffHunks(a, b, codes)) == AllRemoved(a, codes)
    ensures AllInsertions(DiffHunks(a, b, codes)) == AllAdded(codes)
  {
    var i, j := TrimFirstTiles(a, b, codes);
    var ie, je := TrimLastTiles(a, b, TrimFirst(codes), i, j, |a|, |b|);
    assert Tiles(a, b, [], i, j, i, j);
    HunksCount(a, b, TrimLast(TrimFirst(codes)), [], i, j, i, j, ie, je);
    TrimLastCounts(a, TrimFirst(codes));
    if codes != [] && codes[0].tag == Equal {
      assert TrimFirst(codes)[1..] == codes[1..];
    }
  }
}
