/**
  The form of a rendered diff: its two file lines, three lines of context, and a new
  hunk after more than six unchanged lines.
 */
module DiffShape {
  import opened Lines
  import opened UnifiedDiff
  import opened PatchTheory
  import opened PatchText
  import opened Difflib

  /** The last three lines, or all. */
  function LastThree(lines: seq<string>): seq<string> {
    if |lines| <= 3 then lines else lines[|lines| - 3..]
  }

  /** The first three lines, or all. */
  function FirstThree(lines: seq<string>): seq<string> {
    if |lines| <= 3 then lines else lines[..3]
  }

  function ChangeTag(dropped: seq<string>, added: seq<string>): Tag {
    if dropped == [] then Inserted else if added == [] then Deleted else Replaced
  }

  /** The opcodes of one change between two unchanged stretches. */
  function OneChange(x: seq<string>, dropped: seq<string>, added: seq<string>, y: seq<string>): seq<Opcode> {
    var i, i', j' := |x|, |x| + |dropped|, |x| + |added|;
    [Opcode(Equal, 0, i, 0, i), Opcode(ChangeTag(dropped, added), i, i', i, j'),
     Opcode(Equal, i', i' + |y|, j', j' + |y|)]
  }

  /** The change with up to three unchanged lines on either side. */
  function Grouped(x: seq<string>, dropped: seq<string>, added: seq<string>, y: seq<string>): seq<Opcode> {
    var i, i', j' := |x|, |x| + |dropped|, |x| + |added|;
    var head, tail := |LastThree(x)|, |FirstThree(y)|;
    [Opcode(Equal, i - head, i, i - head, i), Opcode(ChangeTag(dropped, added), i, i', i, j'),
     Opcode(Equal, i', i' + tail, j', j' + tail)]
  }

  lemma OneChangeGrouped(x: seq<string>, dropped: seq<string>, added: seq<string>, y: seq<string>)
    requires dropped != [] || added != []
    ensures TrimLast(TrimFirst(OneChange(x, dropped, added, y))) == Grouped(x, dropped, added, y)
  {
    var codes := OneChange(x, dropped, added, y);
    var trimmed := TrimFirst(codes);
    assert trimmed == [KeepEnd(codes[0]), codes[1], codes[2]];
    assert trimmed[1..] == [codes[1], codes[2]] && trimmed[1..][1..] == [codes[2]];
    assert TrimLast([codes[2]]) == [KeepStart(codes[2])];
    assert TrimLast(trimmed[1..]) == [codes[1], KeepStart(codes[2])];
  }

  lemma NothingEdited()
    ensures Drops([]) == [] && Inserts([]) == []
  {
  }

  lemma ThreeGrouped(a: seq<string>, b: seq<string>, first: Opcode, change: Opcode, last: Opcode)
    requires !LongRun(first) && !LongRun(change) && !LongRun(last)
    ensures var group := [first, change, last];
            && Hunks(a, b, group, []) == [HunkOf(a, b, group)]
            && HunkOf(a, b, group).edits
               == EditsOfCode(a, b, first) + (EditsOfCode(a, b, change) + EditsOfCode(a, b, last))
  {
    hide EditsOfCode, HeaderOf;
    var group := [first, change, last];
    assert group[1..] == [change, last] && [change, last][1..] == [last] && [last][1..] == [];
    assert [] + [first] == [first] && [first] + [change] == [first, change] && [first, change] + [last] == group;
    assert Hunks(a, b, [], group) == [HunkOf(a, b, group)];
    assert Hunks(a, b, [last], [first, change]) == [HunkOf(a, b, group)];
    assert Hunks(a, b, [change, last], [first]) == [HunkOf(a, b, group)];
    assert EditsOf(a, b, [last]) == EditsOfCode(a, b, last);
    assert EditsOf(a, b, [change, last]) == EditsOfCode(a, b, change) + EditsOfCode(a, b, last);
  }

  lemma GroupedSlices(x: seq<string>, dropped: seq<string>, added: seq<string>, y: seq<string>)
    ensures var a, b, group := x + dropped + y, x + added + y, Grouped(x, dropped, added, y);
            && Slice(a, group[0].i1, group[0].i2) == LastThree(x) && Slice(a, group[2].i1, group[2].i2) == FirstThree(y)
            && Slice(a, group[1].i1, group[1].i2) == dropped && Slice(b, group[1].j1, group[1].j2) == added
  {
  }

  lemma GroupedEdits(x: seq<string>, dropped: seq<string>, added: seq<string>, y: seq<string>)
    requires dropped != [] || added != []
    ensures var a, b, group := x + dropped + y, x + added + y, Grouped(x, dropped, added, y);
            && EditsOfCode(a, b, group[0]) == Keeps(LastThree(x)) && EditsOfCode(a, b, group[2]) == Keeps(FirstThree(y))
            && EditsOfCode(a, b, group[1]) == Drops(dropped) + Inserts(added)
  {
    hide LastThree, FirstThree, Keeps, Drops, Inserts, Slice;
    GroupedSlices(x, dropped, added, y);
    NothingEdited();
  }

  lemma GroupedHeader(x: seq<string>, dropped: seq<string>, added: seq<string>, y: seq<string>)
    requires x != [] && y != []
    ensures var head, tail, start := LastThree(x), FirstThree(y), |x| - |LastThree(x)| + 1;
            var a, b, group := x + dropped + y, x + added + y, Grouped(x, dropped, added, y);
            && HunkOf(a, b, group).header == Header(start, |head + dropped + tail|, start, |head + added + tail|)
            && !LongRun(group[0]) && (dropped + added != [] ==> !LongRun(group[1])) && !LongRun(group[2])
  {
    hide EditsOf;
  }

  /** One change, with up to three unchanged lines on either side, is one hunk that names exactly those lines. */
  lemma ChangeInContext(x: seq<string>, dropped: seq<string>, added: seq<string>, y: seq<string>)
    requires x != [] && y != [] && dropped + added != []
    ensures var head, tail, start := LastThree(x), FirstThree(y), |x| - |LastThree(x)| + 1;
            DiffHunks(x + dropped + y, x + added + y, OneChange(x, dropped, added, y))
            == [Hunk(Header(start, |head + dropped + tail|, start, |head + added + tail|),
                     Keeps(head) + Drops(dropped) + Inserts(added) + Keeps(tail))]
  {
    hide Grouped, LastThree, FirstThree, Keeps, Drops, Inserts, Hunks, HunkOf, TrimFirst, TrimLast, EditsOfCode;
    hide OneChange, LongRun;
    var a, b, group := x + dropped + y, x + added + y, Grouped(x, dropped, added, y);
    OneChangeGrouped(x, dropped, added, y);
    GroupedEdits(x, dropped, added, y);
    GroupedHeader(x, dropped, added, y);
    ThreeCodes(x, dropped, added, y);
    ThreeGrouped(a, b, group[0], group[1], group[2]);
    ConcatAssociates(Keeps(LastThree(x)), Drops(dropped) + Inserts(added), Keeps(FirstThree(y)));
    ConcatAssociates(Keeps(LastThree(x)), Drops(dropped), Inserts(added));
  }

  lemma ThreeCodes(x: seq<string>, dropped: seq<string>, added: seq<string>, y: seq<string>)
    ensures var group := Grouped(x, dropped, added, y); |group| == 3 && group == [group[0], group[1], group[2]]
  {
  }

  /** Two changes share a hunk exactly when at most six unchanged lines stand between them. */
  lemma FarChangesSplit(a: seq<string>, b: seq<string>, one: Opcode, between: Opcode, two: Opcode)
    requires one.tag != Equal && between.tag == Equal && two.tag != Equal && between.i1 <= between.i2
    ensures |DiffHunks(a, b, [one, between, two])| == if between.i2 - between.i1 <= 6 then 1 else 2
  {
    hide EditsOf, HeaderOf;
    var codes := [one, between, two];
    assert codes[1..] == [between, two] && [between, two][1..] == [two] && [two][1..] == [];
    assert TrimLast([two]) == [two] && TrimLast([between, two]) == [between, two];
    assert TrimLast(TrimFirst(codes)) == codes;
    if LongRun(between) {
      assert |Hunks(a, b, [], [KeepEnd(between)] + [two])| == 1;
      assert |Hunks(a, b, [two], [KeepEnd(between)])| == 1;
      assert |Hunks(a, b, [between, two], [] + [one])| == 2;
    } else {
      assert |Hunks(a, b, [], [] + [one] + [between] + [two])| == 1;
      assert |Hunks(a, b, [two], [] + [one] + [between])| == 1;
      assert |Hunks(a, b, [between, two], [] + [one])| == 1;
    }
    assert |Hunks(a, b, codes, [])| == |Hunks(a, b, [between, two], [] + [one])|;
  }

  /** A diff that changes something opens with the two file lines. */
  lemma FileLines(a: seq<string>, b: seq<string>, codes: seq<Opcode>)
    ensures var lines := DiffLines(a, b, codes);
            lines != [] ==>
              |lines| >= 2 && lines[..2] == ["--- current-body", "+++ proposed-body"]
              && lines[2..] == RenderHunks(DiffHunks(a, b, codes))
  {
  }
}
