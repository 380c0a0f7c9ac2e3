/**
  `difflib.unified_diff` by its contract: any opcode list that tiles both texts,
  grouped with three lines of context and written as hunks. How the opcodes are
  chosen is left open, so everything here holds for every matcher.
 */
module Difflib {
  import opened Lines
  import opened UnifiedDiff
  import opened PatchTheory
  import opened PatchText

  const CONTEXT := 3

  datatype Tag = Equal | Replaced | Deleted | Inserted

  datatype Opcode = Opcode(tag: Tag, i1: nat, i2: nat, j1: nat, j2: nat)

  predicate ValidOpcode(a: seq<string>, b: seq<string>, c: Opcode) {
    && c.i1 <= c.i2 <= |a| && c.j1 <= c.j2 <= |b|
    && match c.tag
       case Equal => c.i1 < c.i2 && a[c.i1..c.i2] == b[c.j1..c.j2]
       case Replaced => c.i1 < c.i2 && c.j1 < c.j2
       case Deleted => c.i1 < c.i2 && c.j1 == c.j2
       case Inserted => c.i1 == c.i2 && c.j1 < c.j2
  }

  /** `codes` lead, without gap or overlap, from line (i, j) to line (i', j'). */
  predicate Tiles(a: seq<string>, b: seq<string>, codes: seq<Opcode>, i: nat, j: nat, i': nat, j': nat) {
    if codes == [] then i == i' <= |a| && j == j' <= |b|
    else && codes[0].i1 == i && codes[0].j1 == j && ValidOpcode(a, b, codes[0])
         && Tiles(a, b, codes[1..], codes[0].i2, codes[0].j2, i', j')
  }

  /** What `SequenceMatcher.get_opcodes` promises. */
  predicate ValidOpcodes(a: seq<string>, b: seq<string>, codes: seq<Opcode>) {
    Tiles(a, b, codes, 0, 0, |a|, |b|)
  }

  // ---------------------------------------------------------------- grouping

  function Max(x: int, y: int): (m: int)
    ensures m >= x && m >= y && (m == x || m == y)
  {
    if x > y then x else y
  }

  function Min(x: int, y: int): (m: int)
    ensures m <= x && m <= y && (m == x || m == y)
  {
    if x < y then x else y
  }

  /** The last `CONTEXT` lines of a run. */
  function KeepEnd(c: Opcode): Opcode {
    Opcode(c.tag, Max(c.i1, c.i2 - CONTEXT), c.i2, Max(c.j1, c.j2 - CONTEXT), c.j2)
  }

  /** The first `CONTEXT` lines of a run. */
  function KeepStart(c: Opcode): Opcode {
    Opcode(c.tag, c.i1, Min(c.i2, c.i1 + CONTEXT), c.j1, Min(c.j2, c.j1 + CONTEXT))
  }

  function TrimFirst(codes: seq<Opcode>): seq<Opcode> {
    if codes != [] && codes[0].tag == Equal then [KeepEnd(codes[0])] + codes[1..] else codes
  }

  function TrimLast(codes: seq<Opcode>): seq<Opcode> {
    if codes == [] then []
    else if |codes| == 1 then (if codes[0].tag == Equal then [KeepStart(codes[0])] else codes)
    else [codes[0]] + TrimLast(codes[1..])
  }

  // ------------------------------------------------------------------- hunks

  /** `lines[i:j]`. */
  function Slice(lines: seq<string>, i: nat, j: nat): seq<string> {
    if i <= j <= |lines| then lines[i..j] else []
  }

  function Keeps(lines: seq<string>): seq<Edit> {
    if lines == [] then [] else [Keep(lines[0])] + Keeps(lines[1..])
  }

  function Drops(lines: seq<string>): seq<Edit> {
    if lines == [] then [] else [Drop(lines[0])] + Drops(lines[1..])
  }

  function Inserts(lines: seq<string>): seq<Edit> {
    if lines == [] then [] else [Insert(lines[0])] + Inserts(lines[1..])
  }

  function EditsOfCode(a: seq<string>, b: seq<string>, c: Opcode): seq<Edit> {
    match c.tag
    case Equal => Keeps(Slice(a, c.i1, c.i2))
    case Deleted => Drops(Slice(a, c.i1, c.i2))
    case Inserted => Inserts(Slice(b, c.j1, c.j2))
    case Replaced => Drops(Slice(a, c.i1, c.i2)) + Inserts(Slice(b, c.j1, c.j2))
  }

  function EditsOf(a: seq<string>, b: seq<string>, codes: seq<Opcode>): seq<Edit> {
    if codes == [] then [] else EditsOfCode(a, b, codes[0]) + EditsOf(a, b, codes[1..])
  }

  /** `_format_range_unified`: an empty range starts at the line before it. */
  function RangeStart(start: nat, stop: nat): nat {
    if start == stop then start else start + 1
  }

  function HeaderOf(i: nat, i': nat, j: nat, j': nat): Header {
    Header(RangeStart(i, i'), if i <= i' then i' - i else 0, RangeStart(j, j'), if j <= j' then j' - j else 0)
  }

  function HunkOf(a: seq<string>, b: seq<string>, group: seq<Opcode>): Hunk
    requires group != []
  {
    var first, last := group[0], group[|group| - 1];
    Hunk(HeaderOf(first.i1, last.i2, first.j1, last.j2), EditsOf(a, b, group))
  }

  predicate LongRun(c: Opcode) {
    c.tag == Equal && c.i2 - c.i1 > 2 * CONTEXT
  }

  predicate ChangesNothing(group: seq<Opcode>) {
    group == [] || (|group| == 1 && group[0].tag == Equal)
  }

  /**
    The grouping loop, one hunk per group: an equal run longer than two contexts
    ends one group and starts the next.
   */
  function Hunks(a: seq<string>, b: seq<string>, codes: seq<Opcode>, group: seq<Opcode>): seq<Hunk> {
    if codes == [] then (if ChangesNothing(group) then [] else [HunkOf(a, b, group)])
    else if LongRun(codes[0]) then
      [HunkOf(a, b, group + [KeepStart(codes[0])])] + Hunks(a, b, codes[1..], [KeepEnd(codes[0])])
    else
      Hunks(a, b, codes[1..], group + [codes[0]])
  }

  /** The hunks `unified_diff` writes for these opcodes. */
  function DiffHunks(a: seq<string>, b: seq<string>, codes: seq<Opcode>): seq<Hunk> {
    Hunks(a, b, TrimLast(TrimFirst(codes)), [])
  }

  /** `unified_diff(a, b, "current-body", "proposed-body", lineterm="")`. */
  function DiffLines(a: seq<string>, b: seq<string>, codes: seq<Opcode>): seq<string> {
    var hunks := DiffHunks(a, b, codes);
    if hunks == [] then [] else ["--- current-body", "+++ proposed-body"] + RenderHunks(hunks)
  }

  // ------------------------------------------------------------- two sides

  lemma {:induction false} OldSideConcat(x: seq<Edit>, y: seq<Edit>)
    ensures OldSide(x + y) == OldSide(x) + OldSide(y)
  {
    if x == [] {
      assert x + y == y;
    } else {
      assert (x + y)[1..] == x[1..] + y;
      OldSideConcat(x[1..], y);
    }
  }

  lemma {:induction false} NewSideConcat(x: seq<Edit>, y: seq<Edit>)
    ensures NewSide(x + y) == NewSide(x) + NewSide(y)
  {
    if x == [] {
      assert x + y == y;
    } else {
      assert (x + y)[1..] == x[1..] + y;
      NewSideConcat(x[1..], y);
    }
  }

  lemma SidesConcat(x: seq<Edit>, y: seq<Edit>)
    ensures OldSide(x + y) == OldSide(x) + OldSide(y)
    ensures NewSide(x + y) == NewSide(x) + NewSide(y)
  {
    OldSideConcat(x, y);
    NewSideConcat(x, y);
  }

  lemma {:induction false} PlainSides(lines: seq<string>)
    ensures OldSide(Keeps(lines)) == lines && NewSide(Keeps(lines)) == lines
    ensures OldSide(Drops(lines)) == lines && NewSide(Drops(lines)) == []
    ensures OldSide(Inserts(lines)) == [] && NewSide(Inserts(lines)) == lines
  {
    if lines != [] { PlainSides(lines[1..]); }
  }

  lemma CodeSides(a: seq<string>, b: seq<string>, c: Opcode)
    requires ValidOpcode(a, b, c)
    ensures OldSide(EditsOfCode(a, b, c)) == a[c.i1..c.i2]
    ensures NewSide(EditsOfCode(a, b, c)) == b[c.j1..c.j2]
  {
    PlainSides(a[c.i1..c.i2]);
    PlainSides(b[c.j1..c.j2]);
    SidesConcat(Drops(a[c.i1..c.i2]), Inserts(b[c.j1..c.j2]));
  }

  /** A tiling's edits read off exactly the two stretches it tiles. */
  lemma {:induction false} TileSides(a: seq<string>, b: seq<string>, codes: seq<Opcode>, i: nat, j: nat,
      i': nat, j': nat)
    requires Tiles(a, b, codes, i, j, i', j')
    ensures i <= i' <= |a| && j <= j' <= |b|
    ensures OldSide(EditsOf(a, b, codes)) == a[i..i']
    ensures NewSide(EditsOf(a, b, codes)) == b[j..j']
  {
    if codes != [] {
      var c := codes[0];
      CodeSides(a, b, c);
      assert EditsOf(a, b, codes) == EditsOfCode(a, b, c) + EditsOf(a, b, codes[1..]);
      assert c.i1 == i <= c.i2 <= |a| && c.j1 == j <= c.j2 <= |b|;
      hide *;
      TileSides(a, b, codes[1..], c.i2, c.j2, i', j');
      SidesConcat(EditsOfCode(a, b, c), EditsOf(a, b, codes[1..]));
      SlicesJoin(a, i, c.i2, i');
      SlicesJoin(b, j, c.j2, j');
    }
  }

  lemma {:induction false} TilesAppend(
      a: seq<string>, b: seq<string>, codes: seq<Opcode>, c: Opcode, i: nat, j: nat)
    requires ValidOpcode(a, b, c) && Tiles(a, b, codes, i, j, c.i1, c.j1)
    ensures Tiles(a, b, codes + [c], i, j, c.i2, c.j2)
  {
    var all := codes + [c];
    if codes == [] {
      assert all == [c] && all[1..] == [];
    } else {
      assert all[1..] == codes[1..] + [c];
      TilesAppend(a, b, codes[1..], c, codes[0].i2, codes[0].j2);
    }
  }

  lemma {:induction false} TilesEnds(a: seq<string>, b: seq<string>, codes: seq<Opcode>, i: nat, j: nat,
      i': nat, j': nat)
    requires Tiles(a, b, codes, i, j, i', j') && codes != []
    ensures codes[0].i1 == i && codes[0].j1 == j
    ensures codes[|codes| - 1].i2 == i' && codes[|codes| - 1].j2 == j'
  {
    if |codes| > 1 { TilesEnds(a, b, codes[1..], codes[0].i2, codes[0].j2, i', j'); }
  }

  /** The two stretches hold the same lines. */
  predicate Aligned(a: seq<string>, b: seq<string>, i: nat, j: nat, i': nat, j': nat) {
    i <= i' <= |a| && j <= j' <= |b| && i' - i == j' - j && a[i..i'] == b[j..j']
  }

  lemma AlignedJoin(a: seq<string>, b: seq<string>, i: nat, j: nat, i': nat, j': nat, i'': nat, j'': nat)
    requires Aligned(a, b, i, j, i', j') && Aligned(a, b, i', j', i'', j'')
    ensures Aligned(a, b, i, j, i'', j'')
  {
    SlicesJoin(a, i, i', i'');
    SlicesJoin(b, j, j', j'');
  }

  lemma AlignedWithin(a: seq<string>, b: seq<string>, i: nat, j: nat, i': nat, j': nat, from: nat, upto: nat)
    requires Aligned(a, b, i, j, i', j') && from <= upto <= i' - i
    ensures Aligned(a, b, i + from, j + from, i + upto, j + upto)
  {
    SliceOfSlice(a, i, i', from, upto);
    SliceOfSlice(b, j, j', from, upto);
  }

  lemma ContextValid(a: seq<string>, b: seq<string>, c: Opcode)
    requires ValidOpcode(a, b, c) && c.tag == Equal
    ensures ValidOpcode(a, b, KeepStart(c)) && ValidOpcode(a, b, KeepEnd(c))
    ensures Aligned(a, b, c.i1, c.j1, KeepEnd(c).i1, KeepEnd(c).j1)
    ensures Aligned(a, b, KeepStart(c).i2, KeepStart(c).j2, c.i2, c.j2)
    ensures LongRun(c) ==> Aligned(a, b, KeepStart(c).i2, KeepStart(c).j2, KeepEnd(c).i1, KeepEnd(c).j1)
  {
    var s, e := KeepStart(c), KeepEnd(c);
    AlignedWithin(a, b, c.i1, c.j1, c.i2, c.j2, 0, s.i2 - c.i1);
    AlignedWithin(a, b, c.i1, c.j1, c.i2, c.j2, s.i2 - c.i1, c.i2 - c.i1);
    AlignedWithin(a, b, c.i1, c.j1, c.i2, c.j2, 0, e.i1 - c.i1);
    AlignedWithin(a, b, c.i1, c.j1, c.i2, c.j2, e.i1 - c.i1, c.i2 - c.i1);
    if LongRun(c) { AlignedWithin(a, b, c.i1, c.j1, c.i2, c.j2, s.i2 - c.i1, e.i1 - c.i1); }
  }

  // ------------------------------------------------------------- placement

  /** A tiled group that covers some old line is a well-placed hunk. */
  lemma GroupPlaced(
      a: seq<string>, b: seq<string>, group: seq<Opcode>, i: nat, j: nat, i': nat, j': nat, cursor: nat, filled: nat)
    requires Tiles(a, b, group, i, j, i', j') && i < i'
    requires cursor <= i && filled <= j && i - cursor == j - filled
    ensures group != [] && i' <= |a| && j <= j' <= |b|
    ensures HunkOf(a, b, group).header == Header(i + 1, i' - i, RangeStart(j, j'), j' - j)
    ensures HunkPlaced(a, HunkOf(a, b, group), cursor, filled)
    ensures NewSide(HunkOf(a, b, group).edits) == b[j..j']
  {
    TilesEnds(a, b, group, i, j, i', j');
    TileSides(a, b, group, i, j, i', j');
  }

  /** Rebuilding `b` from line `j'` on, a hunk over (i, j)..(i', j') rebuilds it from `filled` on. */
  lemma HunkThenRest(
      a: seq<string>, b: seq<string>, hunk: Hunk, rest: seq<Hunk>,
      i: nat, j: nat, i': nat, j': nat, cursor: nat, filled: nat)
    requires Aligned(a, b, cursor, filled, i, j) && i < i' <= |a| && j <= j' <= |b|
    requires HunkPlaced(a, hunk, cursor, filled) && NewSide(hunk.edits) == b[j..j']
    requires hunk.header == Header(i + 1, i' - i, RangeStart(j, j'), j' - j)
    requires Placed(a, rest, i', j') && Substitute(a, rest, i', j') == b[j'..]
    ensures Placed(a, [hunk] + rest, cursor, filled)
    ensures Substitute(a, [hunk] + rest, cursor, filled) == b[filled..]
  {
    hide HunkPlaced, NewSide, RangeStart;
    assert ([hunk] + rest)[1..] == rest;
    assert filled + (i - cursor) + (j' - j) == j';
    SlicesJoin(b, filled, j, j');
    SlicesJoin(b, filled, j', |b|);
    assert b[j'..|b|] == b[j'..] && b[filled..|b|] == b[filled..];
  }

  /** At a long run, the open group closes on three of its lines and the next opens on three. */
  lemma LongRunStep(
      a: seq<string>, b: seq<string>, codes: seq<Opcode>, group: seq<Opcode>,
      gi: nat, gj: nat, i: nat, j: nat, ie: nat, je: nat)
    requires Tiles(a, b, group, gi, gj, i, j) && Tiles(a, b, codes, i, j, ie, je)
    requires codes != [] && LongRun(codes[0])
    ensures var c, s, e := codes[0], KeepStart(codes[0]), KeepEnd(codes[0]);
            && Tiles(a, b, group + [s], gi, gj, s.i2, s.j2) && gi < s.i2
            && Tiles(a, b, [e], e.i1, e.j1, c.i2, c.j2) && e.i1 < ie
            && Tiles(a, b, codes[1..], c.i2, c.j2, ie, je)
            && Aligned(a, b, s.i2, s.j2, e.i1, e.j1)
  {
    var c := codes[0];
    ContextValid(a, b, c);
    TilesAppend(a, b, group, KeepStart(c), gi, gj);
    TileSides(a, b, codes[1..], c.i2, c.j2, ie, je);
    TileSides(a, b, group, gi, gj, i, j);
    assert [KeepEnd(c)][1..] == [];
  }

  lemma ShortStep(
      a: seq<string>, b: seq<string>, codes: seq<Opcode>, group: seq<Opcode>,
      gi: nat, gj: nat, i: nat, j: nat, ie: nat, je: nat)
    requires Tiles(a, b, group, gi, gj, i, j) && Tiles(a, b, codes, i, j, ie, je) && codes != []
    ensures Tiles(a, b, group + [codes[0]], gi, gj, codes[0].i2, codes[0].j2)
    ensures Tiles(a, b, codes[1..], codes[0].i2, codes[0].j2, ie, je)
  {
    TilesAppend(a, b, group, codes[0], gi, gj);
  }

  lemma NothingLeft(a: seq<string>, b: seq<string>, cursor: nat, filled: nat)
    requires Aligned(a, b, cursor, filled, |a|, |b|)
    ensures Placed(a, [], cursor, filled) && Substitute(a, [], cursor, filled) == b[filled..]
  {
    assert a[cursor..|a|] == a[cursor..] && b[filled..|b|] == b[filled..];
  }

  /**
    The grouping loop from any state: everything before (cursor, filled) is out,
    the gap up to the open group is equal, the group is tiled, and so is the rest.
   */
  lemma {:induction false} HunksRebuild(
      a: seq<string>, b: seq<string>, codes: seq<Opcode>, group: seq<Opcode>,
      gi: nat, gj: nat, i: nat, j: nat, ie: nat, je: nat, cursor: nat, filled: nat)
    requires Tiles(a, b, group, gi, gj, i, j) && Tiles(a, b, codes, i, j, ie, je)
    requires Aligned(a, b, cursor, filled, gi, gj) && Aligned(a, b, ie, je, |a|, |b|)
    requires gi < ie
    ensures Placed(a, Hunks(a, b, codes, group), cursor, filled)
    ensures Substitute(a, Hunks(a, b, codes, group), cursor, filled) == b[filled..]
  {
    if codes == [] {
      LastGroupRebuilds(a, b, group, gi, gj, ie, je, cursor, filled);
    } else if LongRun(codes[0]) {
      var c, s, e := codes[0], KeepStart(codes[0]), KeepEnd(codes[0]);
      LongRunStep(a, b, codes, group, gi, gj, i, j, ie, je);
      hide ValidOpcode, KeepStart, KeepEnd, HunkOf, Tiles;
      HunksRebuild(a, b, codes[1..], [e], e.i1, e.j1, c.i2, c.j2, ie, je, s.i2, s.j2);
      GroupPlaced(a, b, group + [s], gi, gj, s.i2, s.j2, cursor, filled);
      HunkThenRest(a, b, HunkOf(a, b, group + [s]), Hunks(a, b, codes[1..], [e]), gi, gj, s.i2, s.j2, cursor, filled);
    } else {
      ShortStep(a, b, codes, group, gi, gj, i, j, ie, je);
      hide ValidOpcode, Tiles;
      HunksRebuild(a, b, codes[1..], group + [codes[0]], gi, gj, codes[0].i2, codes[0].j2, ie, je, cursor, filled);
    }
  }

  lemma LastGroupRebuilds(
      a: seq<string>, b: seq<string>, group: seq<Opcode>, gi: nat, gj: nat, ie: nat, je: nat, cursor: nat, filled: nat)
    requires Tiles(a, b, group, gi, gj, ie, je) && gi < ie
    requires Aligned(a, b, cursor, filled, gi, gj) && Aligned(a, b, ie, je, |a|, |b|)
    ensures Placed(a, Hunks(a, b, [], group), cursor, filled)
    ensures Substitute(a, Hunks(a, b, [], group), cursor, filled) == b[filled..]
  {
    if ChangesNothing(group) {
      assert group == [group[0]] && Tiles(a, b, group[1..], group[0].i2, group[0].j2, ie, je);
      assert Aligned(a, b, gi, gj, ie, je);
      AlignedJoin(a, b, cursor, filled, gi, gj, ie, je);
      AlignedJoin(a, b, cursor, filled, ie, je, |a|, |b|);
      NothingLeft(a, b, cursor, filled);
    } else {
      GroupPlaced(a, b, group, gi, gj, ie, je, cursor, filled);
      NothingLeft(a, b, ie, je);
      HunkThenRest(a, b, HunkOf(a, b, group), [], gi, gj, ie, je, cursor, filled);
      assert [HunkOf(a, b, group)] + [] == [HunkOf(a, b, group)];
    }
  }

  // ---------------------------------------------------------------- trimming

  /** Trimming the first equal run only shortens what is tiled. */
  lemma TrimFirstTiles(a: seq<string>, b: seq<string>, codes: seq<Opcode>) returns (i: nat, j: nat)
    requires ValidOpcodes(a, b, codes)
    ensures Tiles(a, b, TrimFirst(codes), i, j, |a|, |b|)
    ensures Aligned(a, b, 0, 0, i, j) && (a != [] ==> i < |a|)
  {
    i, j := 0, 0;
    assert a[0..0] == b[0..0];
    if codes != [] && codes[0].tag == Equal {
      var c := codes[0];
      ContextValid(a, b, c);
      i, j := KeepEnd(c).i1, KeepEnd(c).j1;
      TileSides(a, b, codes[1..], c.i2, c.j2, |a|, |b|);
      assert ([KeepEnd(c)] + codes[1..])[1..] == codes[1..];
    }
  }

  /** Trimming the last equal run leaves a line of it, and what is cut is equal. */
  lemma {:induction false} TrimLastTiles(
      a: seq<string>, b: seq<string>, codes: seq<Opcode>, i: nat, j: nat, i': nat, j': nat) returns (ie: nat, je: nat)
    requires Tiles(a, b, codes, i, j, i', j')
    ensures Tiles(a, b, TrimLast(codes), i, j, ie, je)
    ensures Aligned(a, b, ie, je, i', j') && i <= ie && (i < i' ==> i < ie)
    decreases |codes|
  {
    TileSides(a, b, codes, i, j, i', j');
    ie, je := i', j';
    assert a[i'..i'] == b[j'..j'];
    if codes == [] {
    } else if |codes| == 1 {
      if codes[0].tag == Equal {
        ContextValid(a, b, codes[0]);
        ie, je := KeepStart(codes[0]).i2, KeepStart(codes[0]).j2;
      }
    } else {
      ie, je := TrimLastTiles(a, b, codes[1..], codes[0].i2, codes[0].j2, i', j');
      assert TrimLast(codes)[1..] == TrimLast(codes[1..]);
    }
  }

  // ------------------------------------------------------------ whole diffs

  /** For a body with at least one line, the diff's hunks are well placed and rebuild the update. */
  lemma DiffRebuilds(a: seq<string>, b: seq<string>, codes: seq<Opcode>)
    requires ValidOpcodes(a, b, codes) && a != []
    ensures Placed(a, DiffHunks(a, b, codes), 0, 0)
    ensures Substitute(a, DiffHunks(a, b, codes), 0, 0) == b
  {
    var i, j := TrimFirstTiles(a, b, codes);
    var ie, je := TrimLastTiles(a, b, TrimFirst(codes), i, j, |a|, |b|);
    assert Tiles(a, b, [], i, j, i, j);
    HunksRebuild(a, b, TrimLast(TrimFirst(codes)), [], i, j, i, j, ie, je, 0, 0);
    assert b[0..] == b;
  }

  lemma {:induction false} InsertOnly(b: seq<string>, codes: seq<Opcode>, group: seq<Opcode>, j: nat, mid: nat, j': nat)
    requires Tiles([], b, group, 0, j, 0, mid) && Tiles([], b, codes, 0, mid, 0, j')
    requires group != [] || codes != []
    ensures Hunks([], b, codes, group) != [] && Hunks([], b, codes, group)[0].header.oldCount == 0
    decreases |codes|
  {
    if codes == [] {
      TilesEnds([], b, group, 0, j, 0, mid);
      assert ValidOpcode([], b, group[0]);
    } else {
      assert ValidOpcode([], b, codes[0]);
      TilesAppend([], b, group, codes[0], 0, j);
      InsertOnly(b, codes[1..], group + [codes[0]], j, codes[0].j2, j');
    }
  }

  /** For an empty body the diff's one hunk has no old line, and no body can place it. */
  lemma DiffOfEmptyNotPlaced(b: seq<string>, codes: seq<Opcode>)
    requires ValidOpcodes([], b, codes) && b != []
    ensures !Placed([], DiffHunks([], b, codes), 0, 0)
  {
    assert codes != [];
    assert ValidOpcode([], b, codes[0]);
    assert TrimFirst(codes) == codes;
    TrimLastInsertOnly(b, codes, 0, |b|);
    InsertOnly(b, codes, [], 0, 0, |b|);
  }

  lemma {:induction false} TrimLastInsertOnly(b: seq<string>, codes: seq<Opcode>, j: nat, j': nat)
    requires Tiles([], b, codes, 0, j, 0, j')
    ensures TrimLast(codes) == codes
    decreases |codes|
  {
    if codes != [] {
      assert ValidOpcode([], b, codes[0]);
      TrimLastInsertOnly(b, codes[1..], codes[0].j2, j');
      assert codes == [codes[0]] + codes[1..];
    }
  }

  /**
    The round trip, by lines: rendering a diff of two different texts and applying
    it gives back the updated lines, and the applier takes it exactly when the
    body has a line and the hunk and change limits hold.
   */
  lemma DiffRoundTrip(a: seq<string>, b: seq<string>, codes: seq<Opcode>)
    requires ValidOpcodes(a, b, codes) && a != b
    ensures var hunks, r := DiffHunks(a, b, codes), ApplyLines(a, RenderHunks(DiffHunks(a, b, codes)));
            && (r.Ok? <==> && a != [] && |hunks| <= MAX_BODY_DIFF_HUNKS
                           && Extent(AllInsertions(hunks), |AllRemovals(hunks)|) <= Allowance(|a|))
            && (r.Ok? ==> r.value.output + a[r.value.cursor..] == b)
  {
    var hunks := DiffHunks(a, b, codes);
    ParseRendered(hunks);
    ApplyLinesMeans(a, RenderHunks(hunks));
    if a == [] {
      DiffOfEmptyNotPlaced(b, codes);
    } else {
      DiffRebuilds(a, b, codes);
      UnchangedIsIdentity(a, hunks, 0, 0);
      assert a[0..] == a;
    }
  }

  /** A placed patch that neither adds nor removes is the identity. */
  lemma {:induction false} UnchangedIsIdentity(original: seq<string>, hunks: seq<Hunk>, cursor: nat, filled: nat)
    requires cursor <= |original| && Placed(original, hunks, cursor, filled)
    ensures AllInsertions(hunks) == 0 && AllRemovals(hunks) == [] ==>
              Substitute(original, hunks, cursor, filled) == original[cursor..]
  {
    hide Placed, Substitute, NewSide, OldSide, HunkPlaced, Matches, Insertions, Removals;
    if hunks == [] {
      NothingToSubstitute(original, cursor, filled);
    } else {
      var h := hunks[0].header;
      var start, next := h.oldStart - 1, h.oldStart - 1 + h.oldCount;
      PlacedStepFacts(original, hunks, cursor, filled);
      SubstituteStep(original, hunks, cursor, filled);
      UnchangedSides(hunks[0].edits, start);
      UnchangedIsIdentity(original, hunks[1..], next, filled + (start - cursor) + h.newCount);
      assert original[cursor..] == original[cursor..start] + original[start..next] + original[next..];
    }
  }

  lemma NothingToSubstitute(original: seq<string>, cursor: nat, filled: nat)
    requires cursor <= |original|
    ensures Substitute(original, [], cursor, filled) == original[cursor..]
  {
  }

  lemma {:induction false} UnchangedSides(edits: seq<Edit>, at: nat)
    ensures Insertions(edits) == 0 && Removals(edits, at) == [] ==> NewSide(edits) == OldSide(edits)
  {
    if edits != [] { UnchangedSides(edits[1..], if edits[0].Insert? then at else at + 1); }
  }
}
