/**
  Laws of well-placed patches: what they conserve, what they report, where their
  new side lands, and when they can be undone.
 */
module PatchLaws {
  import opened Lines
  import opened UnifiedDiff
  import opened PatchTheory

  // ------------------------------------------------------------- conservation

  lemma {:induction false} SidesBalance(edits: seq<Edit>, at: nat)
    ensures |NewSide(edits)| + |Removals(edits, at)| == |OldSide(edits)| + Insertions(edits)
  {
    if edits != [] {
      SidesBalance(edits[1..], if edits[0].Insert? then at else at + 1);
    }
  }

  /** Output length is original length, minus what was removed, plus what was added. */
  lemma {:induction false} SubstituteBalances(original: seq<string>, hunks: seq<Hunk>, cursor: nat, filled: nat)
    requires cursor <= |original| && Placed(original, hunks, cursor, filled)
    ensures |Substitute(original, hunks, cursor, filled)| + |AllRemovals(hunks)|
            == |original| - cursor + AllInsertions(hunks)
  {
    if hunks != [] {
      var h := hunks[0].header;
      SidesBalance(hunks[0].edits, h.oldStart - 1);
      PlacedStepFacts(original, hunks, cursor, filled);
      SubstituteStep(original, hunks, cursor, filled);
      hide *;
      SubstituteBalances(
        original, hunks[1..], h.oldStart - 1 + h.oldCount, filled + (h.oldStart - 1 - cursor) + h.newCount);
    }
  }

  // ----------------------------------------------------------------- removals

  /** Removed lines are real, distinct and in order, and all within (lo, hi]. */
  predicate Truthful(original: seq<string>, removed: seq<RemovedLine>, lo: nat, hi: nat) {
    removed == [] ||
    (&& lo < removed[0].number <= hi <= |original|
     && original[removed[0].number - 1] == removed[0].text
     && Truthful(original, removed[1..], removed[0].number, hi))
  }

  lemma {:induction false} TruthfulWidens(original: seq<string>, removed: seq<RemovedLine>, lo: nat, lo': nat,
      hi: nat, hi': nat)
    requires Truthful(original, removed, lo, hi) && lo' <= lo && hi <= hi' <= |original|
    ensures Truthful(original, removed, lo', hi')
  {
    if removed != [] {
      TruthfulWidens(original, removed[1..], removed[0].number, removed[0].number, hi, hi');
    }
  }

  lemma {:induction false} TruthfulAppends(original: seq<string>, a: seq<RemovedLine>, b: seq<RemovedLine>,
      lo: nat, mid: nat, hi: nat)
    requires Truthful(original, a, lo, mid) && Truthful(original, b, mid, hi) && lo <= mid <= hi <= |original|
    ensures Truthful(original, a + b, lo, hi)
  {
    if a == [] {
      assert a + b == b;
      TruthfulWidens(original, b, mid, lo, hi, hi);
    } else {
      assert (a + b)[1..] == a[1..] + b;
      TruthfulAppends(original, a[1..], b, a[0].number, mid, hi);
    }
  }

  lemma TruthfulCons(original: seq<string>, line: RemovedLine, more: seq<RemovedLine>, lo: nat, hi: nat)
    requires lo < line.number <= hi <= |original| && original[line.number - 1] == line.text
    requires Truthful(original, more, line.number, hi)
    ensures Truthful(original, [line] + more, lo, hi)
  {
    assert ([line] + more)[1..] == more;
  }

  lemma HeadMatches(original: seq<string>, edits: seq<Edit>, at: nat)
    requires edits != [] && Matches(original, at, OldSide(edits))
    ensures !edits[0].Insert? ==> at < |original| && original[at] == edits[0].text
    ensures Matches(original, if edits[0].Insert? then at else at + 1, OldSide(edits[1..]))
  {
    MatchesAppends(original, at, if edits[0].Insert? then [] else [edits[0].text], OldSide(edits[1..]));
    assert !edits[0].Insert? ==> original[at..at + 1][0] == edits[0].text;
  }

  lemma NothingRemoved(original: seq<string>, edits: seq<Edit>, at: nat)
    requires edits == [] && Matches(original, at, OldSide(edits))
    ensures Truthful(original, Removals(edits, at), at, at + |OldSide(edits)|)
  {
  }

  lemma HeadRemoval(original: seq<string>, edits: seq<Edit>, at: nat)
    requires edits != [] && Matches(original, at, OldSide(edits))
    ensures var next := if edits[0].Insert? then at else at + 1;
            && at + |OldSide(edits)| == next + |OldSide(edits[1..])| <= |original|
            && Removals(edits, at)
               == (if edits[0].Drop? then [RemovedLine(at + 1, edits[0].text)] else []) + Removals(edits[1..], next)
  {
  }

  lemma {:induction false} HunkRemovalsTruthful(original: seq<string>, edits: seq<Edit>, at: nat)
    requires Matches(original, at, OldSide(edits))
    ensures Truthful(original, Removals(edits, at), at, at + |OldSide(edits)|)
  {
    hide Matches, Truthful, OldSide, Removals;
    if edits == [] {
      NothingRemoved(original, edits, at);
    } else {
      var next, end := if edits[0].Insert? then at else at + 1, at + |OldSide(edits)|;
      var later := Removals(edits[1..], next);
      HeadMatches(original, edits, at);
      HeadRemoval(original, edits, at);
      HunkRemovalsTruthful(original, edits[1..], next);
      if edits[0].Drop? {
        TruthfulCons(original, RemovedLine(at + 1, edits[0].text), later, at, end);
      } else {
        assert [] + later == later;
        TruthfulWidens(original, later, next, at, end, end);
      }
    }
  }

  lemma {:induction false} RemovalsTruthful(original: seq<string>, hunks: seq<Hunk>, cursor: nat, filled: nat)
    requires cursor <= |original| && Placed(original, hunks, cursor, filled)
    ensures Truthful(original, AllRemovals(hunks), cursor, |original|)
  {
    if hunks != [] {
      var h := hunks[0].header;
      var start, next := h.oldStart - 1, h.oldStart - 1 + h.oldCount;
      HunkRemovalsTruthful(original, hunks[0].edits, start);
      RemovalsTruthful(original, hunks[1..], next, filled + (start - cursor) + h.newCount);
      TruthfulWidens(original, Removals(hunks[0].edits, start), start, cursor, next, next);
      TruthfulAppends(original, Removals(hunks[0].edits, start), AllRemovals(hunks[1..]), cursor, next, |original|);
    }
  }

  lemma {:induction false} TruthfulMeans(original: seq<string>, removed: seq<RemovedLine>, lo: nat, hi: nat,
      i: nat, j: nat)
    requires Truthful(original, removed, lo, hi) && i <= j < |removed|
    ensures lo < removed[j].number <= hi <= |original| && original[removed[j].number - 1] == removed[j].text
    ensures i < j ==> removed[i].number < removed[j].number
  {
    if i > 0 {
      TruthfulMeans(original, removed[1..], removed[0].number, hi, i - 1, j - 1);
    } else if j > 0 {
      TruthfulMeans(original, removed[1..], removed[0].number, hi, 0, j - 1);
    }
  }

  /** Each removal names a line of the body, with its text. */
  predicate NamesLines(original: seq<string>, removed: seq<RemovedLine>) {
    forall i :: 0 <= i < |removed| ==>
      1 <= removed[i].number <= |original| && original[removed[i].number - 1] == removed[i].text
  }

  predicate StrictlyIncreasing(removed: seq<RemovedLine>) {
    forall i, j :: 0 <= i < j < |removed| ==> removed[i].number < removed[j].number
  }

  lemma TruthfulNamesLines(original: seq<string>, removed: seq<RemovedLine>)
    requires Truthful(original, removed, 0, |original|)
    ensures NamesLines(original, removed)
  {
    hide Truthful;
    forall i | 0 <= i < |removed|
      ensures 1 <= removed[i].number <= |original| && original[removed[i].number - 1] == removed[i].text
    {
      TruthfulMeans(original, removed, 0, |original|, i, i);
    }
  }

  lemma TruthfulIncreases(original: seq<string>, removed: seq<RemovedLine>)
    requires Truthful(original, removed, 0, |original|)
    ensures StrictlyIncreasing(removed)
  {
    hide Truthful;
    forall i, j | 0 <= i < j < |removed|
      ensures removed[i].number < removed[j].number
    {
      TruthfulMeans(original, removed, 0, |original|, i, j);
    }
  }

  /** Every reported removal names the line it removed; the numbers strictly increase. */
  lemma RemovalsNameTheirLines(original: seq<string>, hunks: seq<Hunk>)
    requires Placed(original, hunks, 0, 0)
    ensures NamesLines(original, AllRemovals(hunks)) && StrictlyIncreasing(AllRemovals(hunks))
  {
    RemovalsTruthful(original, hunks, 0, 0);
    TruthfulNamesLines(original, AllRemovals(hunks));
    TruthfulIncreases(original, AllRemovals(hunks));
  }

  /** `original[from..to]` without the lines `removed` names, which must be sorted. */
  function Without(original: seq<string>, removed: seq<RemovedLine>, from: nat, end: nat): seq<string>
    requires from <= end <= |original|
    decreases |original| - from
  {
    if from == end then []
    else if removed != [] && removed[0].number == from + 1 then Without(original, removed[1..], from + 1, end)
    else [original[from]] + Without(original, removed, from + 1, end)
  }

  /** `a` can be read off `b` by skipping lines. */
  predicate Subsequence(a: seq<string>, b: seq<string>) {
    a == [] || (b != [] && ((a[0] == b[0] && Subsequence(a[1..], b[1..])) || Subsequence(a, b[1..])))
  }

  lemma {:induction false} SubsequenceAppends(a: seq<string>, b: seq<string>, c: seq<string>, d: seq<string>)
    requires Subsequence(a, b) && Subsequence(c, d)
    ensures Subsequence(a + c, b + d)
    decreases |b|
  {
    if b == [] {
      assert a + c == c && b + d == d;
    } else if a != [] && a[0] == b[0] && Subsequence(a[1..], b[1..]) {
      SubsequenceAppends(a[1..], b[1..], c, d);
      assert (a + c)[1..] == a[1..] + c && (b + d)[1..] == b[1..] + d;
    } else {
      SubsequenceAppends(a, b[1..], c, d);
      assert (b + d)[1..] == b[1..] + d;
    }
  }

  lemma {:induction false} SubsequenceReflexive(a: seq<string>)
    ensures Subsequence(a, a)
  {
    if a != [] { SubsequenceReflexive(a[1..]); }
  }

  lemma KeepSurvives(original: seq<string>, removed: seq<RemovedLine>, at: nat, end: nat)
    requires at < end <= |original| && (removed == [] || removed[0].number > at + 1)
    ensures Without(original, removed, at, end) == [original[at]] + Without(original, removed, at + 1, end)
  {
  }

  lemma DropDoesNotSurvive(original: seq<string>, removed: seq<RemovedLine>, at: nat, end: nat, text: string)
    requires at < end <= |original|
    ensures Without(original, [RemovedLine(at + 1, text)] + removed, at, end) == Without(original, removed, at + 1, end)
  {
    assert ([RemovedLine(at + 1, text)] + removed)[1..] == removed;
  }

  lemma WithoutEmpty(original: seq<string>, removed: seq<RemovedLine>, at: nat)
    requires at <= |original| && Truthful(original, removed, at, at)
    ensures Without(original, removed, at, at) == []
  {
  }

  lemma {:induction false} WithoutSplits(
      original: seq<string>, a: seq<RemovedLine>, b: seq<RemovedLine>, from: nat, mid: nat, end: nat)
    requires from <= mid <= end <= |original|
    requires Truthful(original, a, from, mid) && Truthful(original, b, mid, |original|)
    ensures Without(original, a + b, from, end) == Without(original, a, from, mid) + Without(original, b, mid, end)
    decreases mid - from
  {
    hide Without;
    if a != [] && a[0].number == from + 1 {
      var line := a[0];
      assert a == [line] + a[1..] && a + b == [line] + (a[1..] + b);
      assert Truthful(original, a[1..], from + 1, mid);
      assert line == RemovedLine(from + 1, line.text);
      DropDoesNotSurvive(original, a[1..] + b, from, end, line.text);
      DropDoesNotSurvive(original, a[1..], from, mid, line.text);
      hide *;
      WithoutSplits(original, a[1..], b, from + 1, mid, end);
    } else if from == mid {
      assert a + b == b;
      WithoutEmpty(original, a, from);
    } else {
      assert a + b != [] ==> (a + b)[0] == if a != [] then a[0] else b[0];
      assert a + b != [] ==> (a + b)[0].number > from + 1;
      assert Truthful(original, a, from + 1, mid);
      KeepSurvives(original, a + b, from, end);
      KeepSurvives(original, a, from, mid);
      hide *;
      WithoutSplits(original, a, b, from + 1, mid, end);
      ConcatAssociates([original[from]], Without(original, a, from + 1, mid), Without(original, b, mid, end));
    }
  }

  lemma {:induction false} WithoutNothing(original: seq<string>, from: nat, end: nat)
    requires from <= end <= |original|
    ensures Without(original, [], from, end) == original[from..end]
    decreases end - from
  {
    if from < end { WithoutNothing(original, from + 1, end); }
  }

  lemma {:induction false} RemovalsStartAfter(edits: seq<Edit>, at: nat)
    ensures Removals(edits, at) != [] ==> Removals(edits, at)[0].number > at
  {
    if edits != [] && !edits[0].Drop? {
      RemovalsStartAfter(edits[1..], if edits[0].Insert? then at else at + 1);
    }
  }

  lemma SideFits(original: seq<string>, edits: seq<Edit>, at: nat)
    requires Matches(original, at, OldSide(edits))
    ensures at + |OldSide(edits)| <= |original|
  {
  }

  lemma {:induction false} HunkSurvivors(original: seq<string>, edits: seq<Edit>, at: nat)
    requires Matches(original, at, OldSide(edits))
    ensures Subsequence(Without(original, Removals(edits, at), at, at + |OldSide(edits)|), NewSide(edits))
  {
    hide Subsequence, Without, Removals, OldSide, NewSide;
    SideFits(original, edits, at);
    if edits != [] {
      var e, rest := edits[0], edits[1..];
      var next, end := if e.Insert? then at else at + 1, at + |OldSide(edits)|;
      EditUnfolds(edits, at);
      HeadMatches(original, edits, at);
      RemovalsStartAfter(rest, next);
      HunkSurvivors(original, rest, next);
      var later := Without(original, Removals(rest, next), next, end);
      SubsequenceCons(e.text, later, NewSide(rest));
      if e.Drop? {
        DropDoesNotSurvive(original, Removals(rest, next), at, end, e.text);
      } else if e.Keep? {
        KeepSurvives(original, Removals(rest, next), at, end);
      }
    } else {
      NothingSurvives(original, at);
    }
  }

  lemma NothingSurvives(original: seq<string>, at: nat)
    requires at <= |original|
    ensures Subsequence(Without(original, Removals([], at), at, at + |OldSide([])|), NewSide([]))
  {
  }

  lemma EditUnfolds(edits: seq<Edit>, at: nat)
    requires edits != []
    ensures var e, rest := edits[0], edits[1..];
            && OldSide(edits) == (if e.Insert? then OldSide(rest) else [e.text] + OldSide(rest))
            && NewSide(edits) == (if e.Drop? then NewSide(rest) else [e.text] + NewSide(rest))
            && Removals(edits, at)
               == (if e.Drop? then [RemovedLine(at + 1, e.text)] + Removals(rest, at + 1)
                   else Removals(rest, if e.Insert? then at else at + 1))
  {
  }

  lemma SubsequenceCons(x: string, a: seq<string>, b: seq<string>)
    requires Subsequence(a, b)
    ensures Subsequence([x] + a, [x] + b) && Subsequence(a, [x] + b)
  {
    assert ([x] + a)[1..] == a && ([x] + b)[1..] == b;
  }

  /** Nothing is removed before `start`, so the survivors begin with the gap. */
  lemma GapSurvives(original: seq<string>, removed: seq<RemovedLine>, cursor: nat, start: nat)
    requires cursor <= start <= |original| && Truthful(original, removed, start, |original|)
    ensures Without(original, removed, cursor, |original|)
            == original[cursor..start] + Without(original, removed, start, |original|)
  {
    WithoutSplits(original, [], removed, cursor, start, |original|);
    assert [] + removed == removed;
    WithoutNothing(original, cursor, start);
  }

  lemma SurvivorsCombine(
      kept: seq<string>, output: seq<string>, gap: seq<string>,
      a: seq<string>, b: seq<string>, c: seq<string>, d: seq<string>)
    requires kept == gap + (a + c) && output == gap + b + d
    requires Subsequence(a, b) && Subsequence(c, d)
    ensures Subsequence(kept, output)
  {
    SubsequenceReflexive(gap);
    SubsequenceAppends(a, b, c, d);
    SubsequenceAppends(gap, gap, a + c, b + d);
    ConcatAssociates(gap, b, d);
  }

  /** The survivors are the gap, what the first hunk keeps, and the later survivors. */
  lemma SurvivorsSplit(original: seq<string>, hunks: seq<Hunk>, cursor: nat, filled: nat)
    requires cursor <= |original| && hunks != [] && Placed(original, hunks, cursor, filled)
    ensures var start, next := hunks[0].header.oldStart - 1, hunks[0].header.oldStart - 1 + hunks[0].header.oldCount;
            Without(original, AllRemovals(hunks), cursor, |original|)
            == original[cursor..start] + (Without(original, Removals(hunks[0].edits, start), start, next)
                                          + Without(original, AllRemovals(hunks[1..]), next, |original|))
  {
    hide *;
    PlacedStepFacts(original, hunks, cursor, filled);
    var h := hunks[0].header;
    var start, next := h.oldStart - 1, h.oldStart - 1 + h.oldCount;
    var here, later := Removals(hunks[0].edits, start), AllRemovals(hunks[1..]);
    HunkRemovalsTruthful(original, hunks[0].edits, start);
    RemovalsTruthful(original, hunks[1..], next, filled + (start - cursor) + h.newCount);
    SplitAroundHunk(original, here, later, cursor, start, next);
  }

  lemma SplitAroundHunk(
      original: seq<string>, here: seq<RemovedLine>, later: seq<RemovedLine>, cursor: nat, start: nat, next: nat)
    requires cursor <= start <= next <= |original|
    requires Truthful(original, here, start, next) && Truthful(original, later, next, |original|)
    ensures Without(original, here + later, cursor, |original|)
            == original[cursor..start]
               + (Without(original, here, start, next) + Without(original, later, next, |original|))
  {
    hide Truthful, Without;
    TruthfulAppends(original, here, later, start, next, |original|);
    GapSurvives(original, here + later, cursor, start);
    WithoutSplits(original, here, later, start, next, |original|);
  }

  lemma SurvivorsOfNothing(original: seq<string>, cursor: nat, filled: nat)
    requires cursor <= |original|
    ensures Subsequence(Without(original, AllRemovals([]), cursor, |original|),
                        Substitute(original, [], cursor, filled))
  {
    WithoutNothing(original, cursor, |original|);
    assert original[cursor..|original|] == original[cursor..];
    SubsequenceReflexive(original[cursor..]);
  }

  /** Take the removed lines out of the original and what is left runs through the output, in order. */
  lemma {:induction false} SurvivorsInOutput(original: seq<string>, hunks: seq<Hunk>, cursor: nat, filled: nat)
    requires cursor <= |original| && Placed(original, hunks, cursor, filled)
    ensures Subsequence(Without(original, AllRemovals(hunks), cursor, |original|),
                        Substitute(original, hunks, cursor, filled))
  {
    if hunks == [] {
      SurvivorsOfNothing(original, cursor, filled);
    } else {
      var h := hunks[0].header;
      var start, next := h.oldStart - 1, h.oldStart - 1 + h.oldCount;
      var filled' := filled + (start - cursor) + h.newCount;
      PlacedStepFacts(original, hunks, cursor, filled);
      SubstituteStep(original, hunks, cursor, filled);
      hide *;
      SurvivorsSplit(original, hunks, cursor, filled);
      HunkSurvivors(original, hunks[0].edits, start);
      SurvivorsInOutput(original, hunks[1..], next, filled');
      SurvivorsCombine(Without(original, AllRemovals(hunks), cursor, |original|),
                       Substitute(original, hunks, cursor, filled), original[cursor..start],
                       Without(original, Removals(hunks[0].edits, start), start, next), NewSide(hunks[0].edits),
                       Without(original, AllRemovals(hunks[1..]), next, |original|),
                       Substitute(original, hunks[1..], next, filled'));
    }
  }

  lemma {:induction false} WithoutLength(original: seq<string>, removed: seq<RemovedLine>, from: nat, end: nat)
    requires from <= end <= |original| && Truthful(original, removed, from, end)
    ensures |Without(original, removed, from, end)| + |removed| == end - from
    decreases end - from
  {
    if from < end {
      if removed != [] && removed[0].number == from + 1 {
        WithoutLength(original, removed[1..], from + 1, end);
      } else {
        WithoutLength(original, removed, from + 1, end);
      }
    }
  }

  /** The output is the surviving lines, in order, with exactly as many lines between them as were added. */
  lemma OnlyAdditionsAreNew(original: seq<string>, hunks: seq<Hunk>)
    requires Placed(original, hunks, 0, 0)
    ensures var kept, output := Without(original, AllRemovals(hunks), 0, |original|), Substitute(original, hunks, 0, 0);
            Subsequence(kept, output) && |output| == |kept| + AllInsertions(hunks)
  {
    hide *;
    SurvivorsInOutput(original, hunks, 0, 0);
    SubstituteBalances(original, hunks, 0, 0);
    RemovalsTruthful(original, hunks, 0, 0);
    WithoutLength(original, AllRemovals(hunks), 0, |original|);
  }

  /** The text once the first hunk has been written out. */
  function Prefixed(original: seq<string>, hunk: Hunk, cursor: nat, prefix: seq<string>): seq<string>
    requires cursor <= |original| && HunkPlaced(original, hunk, cursor, |prefix|)
  {
    prefix + original[cursor..hunk.header.oldStart - 1] + NewSide(hunk.edits)
  }

  lemma PlacedFirst(original: seq<string>, hunks: seq<Hunk>, cursor: nat, filled: nat)
    requires hunks != [] && Placed(original, hunks, cursor, filled)
    ensures HunkPlaced(original, hunks[0], cursor, filled)
  {
  }

  lemma SubstituteUnfolds(original: seq<string>, hunks: seq<Hunk>, cursor: nat, prefix: seq<string>)
    requires cursor <= |original| && hunks != [] && Placed(original, hunks, cursor, |prefix|)
    ensures var next, prefix' := hunks[0].header.oldStart - 1 + hunks[0].header.oldCount,
                                 Prefixed(original, hunks[0], cursor, prefix);
            && next <= |original| && Placed(original, hunks[1..], next, |prefix'|)
            && prefix + Substitute(original, hunks, cursor, |prefix|)
               == prefix' + Substitute(original, hunks[1..], next, |prefix'|)
  {
    hide OldSide, NewSide, Matches, HunkPlaced, Placed, Substitute;
    PlacedFirst(original, hunks, cursor, |prefix|);
    HunkBounds(original, hunks[0], cursor, |prefix|);
    SubstituteStep(original, hunks, cursor, |prefix|);
    var h := hunks[0].header;
    var gap, new_ := original[cursor..h.oldStart - 1], NewSide(hunks[0].edits);
    var rest := Substitute(original, hunks[1..], h.oldStart - 1 + h.oldCount, |prefix + gap + new_|);
    assert prefix + (gap + new_ + rest) == prefix + gap + new_ + rest;
  }

  // -------------------------------------------------------------- coordinates

  /** Where a header says its new side starts, counting from zero. */
  function NewIndex(h: Header): int {
    if h.newCount == 0 then h.newStart else h.newStart - 1
  }

  lemma SliceOfConcat<T>(x: seq<T>, y: seq<T>, z: seq<T>)
    ensures (x + y + z)[|x|..|x| + |y|] == y
  {
  }

  /** A hunk's new side stands in the output where its header says. */
  lemma FirstNewIndex(original: seq<string>, hunk: Hunk, cursor: nat, prefix: seq<string>)
    requires cursor <= |original| && HunkPlaced(original, hunk, cursor, |prefix|)
    ensures cursor <= hunk.header.oldStart - 1 < hunk.header.oldStart - 1 + hunk.header.oldCount <= |original|
    ensures var before := prefix + original[cursor..hunk.header.oldStart - 1];
            && Prefixed(original, hunk, cursor, prefix) == before + NewSide(hunk.edits)
            && |before| == NewIndex(hunk.header) && hunk.header.newCount == |NewSide(hunk.edits)|
  {
    hide OldSide, NewSide;
  }

  /** Each hunk's new range is exactly its slice of the output. */
  lemma {:induction false} NewRangesExact(
      original: seq<string>, hunks: seq<Hunk>, cursor: nat, prefix: seq<string>, k: nat)
    requires cursor <= |original| && Placed(original, hunks, cursor, |prefix|) && k < |hunks|
    ensures var h, output := hunks[k].header, prefix + Substitute(original, hunks, cursor, |prefix|);
            && |prefix| <= NewIndex(h) && NewIndex(h) + h.newCount <= |output|
            && output[NewIndex(h)..NewIndex(h) + h.newCount] == NewSide(hunks[k].edits)
  {
    hide *;
    var h := hunks[0].header;
    PlacedFirst(original, hunks, cursor, |prefix|);
    FirstNewIndex(original, hunks[0], cursor, prefix);
    var next, prefix' := h.oldStart - 1 + h.oldCount, Prefixed(original, hunks[0], cursor, prefix);
    SubstituteUnfolds(original, hunks, cursor, prefix);
    var rest := Substitute(original, hunks[1..], next, |prefix'|);
    var before := prefix + original[cursor..h.oldStart - 1];
    if k == 0 {
      SliceOfConcat(before, NewSide(hunks[0].edits), rest);
    } else {
      NewRangesExact(original, hunks[1..], next, prefix', k - 1);
    }
  }

  // ------------------------------------------------------------------- undoing

  function FlipEdit(e: Edit): Edit {
    match e
    case Keep(t) => Keep(t)
    case Drop(t) => Insert(t)
    case Insert(t) => Drop(t)
  }

  function FlipEdits(edits: seq<Edit>): seq<Edit> {
    if edits == [] then [] else [FlipEdit(edits[0])] + FlipEdits(edits[1..])
  }

  /** Swap additions with removals and the old range with the new. */
  function Flip(hunk: Hunk): Hunk {
    var h := hunk.header;
    Hunk(Header(h.newStart, h.newCount, h.oldStart, h.oldCount), FlipEdits(hunk.edits))
  }

  function FlipAll(hunks: seq<Hunk>): (r: seq<Hunk>)
    ensures |r| == |hunks|
  {
    if hunks == [] then [] else [Flip(hunks[0])] + FlipAll(hunks[1..])
  }

  /** No hunk deletes everything it matched. */
  predicate KeepsNewSide(hunks: seq<Hunk>) {
    hunks == [] || (hunks[0].header.newCount >= 1 && KeepsNewSide(hunks[1..]))
  }

  lemma {:induction false} FlipSwapsSides(edits: seq<Edit>, at: nat)
    ensures OldSide(FlipEdits(edits)) == NewSide(edits)
    ensures NewSide(FlipEdits(edits)) == OldSide(edits)
    ensures |Removals(FlipEdits(edits), at)| == Insertions(edits)
    ensures Insertions(FlipEdits(edits)) == |Removals(edits, at)|
  {
    if edits != [] {
      var flipped := FlipEdits(edits);
      assert flipped[1..] == FlipEdits(edits[1..]);
      var next, next' := if edits[0].Insert? then at else at + 1, if flipped[0].Insert? then at else at + 1;
      RemovalCount(edits[1..], at, next);
      RemovalCount(FlipEdits(edits[1..]), at, next');
      FlipSwapsSides(edits[1..], at);
    }
  }

  lemma {:induction false} RemovalCount(edits: seq<Edit>, a: nat, b: nat)
    ensures |Removals(edits, a)| == |Removals(edits, b)|
  {
    if edits != [] {
      var d := if edits[0].Insert? then 0 else 1;
      RemovalCount(edits[1..], a + d, b + d);
    }
  }

  /** Flipping swaps what is added with what is removed. */
  lemma {:induction false} FlipSwapsCounts(hunks: seq<Hunk>)
    ensures |AllRemovals(FlipAll(hunks))| == AllInsertions(hunks)
    ensures AllInsertions(FlipAll(hunks)) == |AllRemovals(hunks)|
  {
    if hunks != [] {
      assert FlipAll(hunks)[1..] == FlipAll(hunks[1..]);
      FlipSwapsCounts(hunks[1..]);
      var h := hunks[0].header;
      FlipSwapsSides(hunks[0].edits, if h.oldStart == 0 then 0 else h.oldStart - 1);
      RemovalCount(FlipEdits(hunks[0].edits), if h.oldStart == 0 then 0 else h.oldStart - 1,
                   if h.newStart == 0 then 0 else h.newStart - 1);
    }
  }

  lemma FlippedHunkPlaced(original: seq<string>, hunk: Hunk, cursor: nat, prefix: seq<string>, rest: seq<string>)
    requires cursor <= |original| && HunkPlaced(original, hunk, cursor, |prefix|)
    ensures var output := prefix + original[cursor..hunk.header.oldStart - 1] + NewSide(hunk.edits) + rest;
            HunkPlaced(output, Flip(hunk), |prefix|, cursor) <==> hunk.header.newCount >= 1
  {
    FlipSwapsSides(hunk.edits, 0);
    if hunk.header.newCount >= 1 {
      var gap, new_ := original[cursor..hunk.header.oldStart - 1], NewSide(hunk.edits);
      var output := prefix + gap + new_ + rest;
      assert output[|prefix + gap|..|prefix + gap| + |new_|] == new_;
    }
  }

  /** Where the flip of the first hunk leaves off is where the flip of the others starts. */
  lemma FlipStep(original: seq<string>, hunk: Hunk, more: seq<Hunk>, cursor: nat, prefix: seq<string>,
      rest: seq<string>)
    requires cursor <= |original| && HunkPlaced(original, hunk, cursor, |prefix|)
    ensures var prefix' := Prefixed(original, hunk, cursor, prefix);
            var next := hunk.header.oldStart - 1 + hunk.header.oldCount;
            Placed(prefix' + rest, [Flip(hunk)] + more, |prefix|, cursor)
            <==> hunk.header.newCount >= 1 && Placed(prefix' + rest, more, |prefix'|, next)
  {
    FlippedHunkPlaced(original, hunk, cursor, prefix, rest);
    assert ([Flip(hunk)] + more)[1..] == more;
  }

  /** Undoing the first hunk writes the gap back, then the old lines. */
  lemma FlipSubstitutes(original: seq<string>, hunk: Hunk, more: seq<Hunk>, cursor: nat, prefix: seq<string>,
      rest: seq<string>)
    requires cursor <= |original| && HunkPlaced(original, hunk, cursor, |prefix|) && hunk.header.newCount >= 1
    requires var prefix' := Prefixed(original, hunk, cursor, prefix);
             Placed(prefix' + rest, more, |prefix'|, hunk.header.oldStart - 1 + hunk.header.oldCount)
    ensures var output := Prefixed(original, hunk, cursor, prefix) + rest;
            var start, next := hunk.header.oldStart - 1, hunk.header.oldStart - 1 + hunk.header.oldCount;
            var filled := |prefix| + (start - cursor);
            && cursor <= start <= next <= |original| && filled + hunk.header.newCount <= |output|
            && Placed(output, [Flip(hunk)] + more, |prefix|, cursor)
            && Placed(output, more, filled + hunk.header.newCount, next)
            && Substitute(output, [Flip(hunk)] + more, |prefix|, cursor)
               == output[|prefix|..filled] + original[start..next]
                  + Substitute(output, more, filled + hunk.header.newCount, next)
  {
    hide OldSide, NewSide, Substitute;
    var output, flipped := Prefixed(original, hunk, cursor, prefix) + rest, [Flip(hunk)] + more;
    FlipStep(original, hunk, more, cursor, prefix, rest);
    FirstNewIndex(original, hunk, cursor, prefix);
    FlipSwapsSides(hunk.edits, 0);
    SubstituteStep(output, flipped, |prefix|, cursor);
    assert flipped[1..] == more && flipped[0] == Flip(hunk);
  }

  lemma FlipRestores(original: seq<string>, hunk: Hunk, more: seq<Hunk>, cursor: nat, prefix: seq<string>,
      rest: seq<string>)
    requires cursor <= |original| && HunkPlaced(original, hunk, cursor, |prefix|) && hunk.header.newCount >= 1
    requires var prefix' := Prefixed(original, hunk, cursor, prefix);
             Placed(prefix' + rest, more, |prefix'|, hunk.header.oldStart - 1 + hunk.header.oldCount)
    ensures var prefix' := Prefixed(original, hunk, cursor, prefix);
            var next := hunk.header.oldStart - 1 + hunk.header.oldCount;
            && Placed(prefix' + rest, [Flip(hunk)] + more, |prefix|, cursor)
            && Substitute(prefix' + rest, [Flip(hunk)] + more, |prefix|, cursor)
               == original[cursor..next] + Substitute(prefix' + rest, more, |prefix'|, next)
  {
    hide *;
    FlipSubstitutes(original, hunk, more, cursor, prefix, rest);
    FirstNewIndex(original, hunk, cursor, prefix);
    var start, next := hunk.header.oldStart - 1, hunk.header.oldStart - 1 + hunk.header.oldCount;
    var gap := original[cursor..start];
    SlicesJoin(original, cursor, start, next);
    ConcatAssociates(prefix + gap, NewSide(hunk.edits), rest);
    SliceOfConcat(prefix, gap, NewSide(hunk.edits) + rest);
  }

  /**
    A patch whose every hunk keeps a line on its new side is undone by its flip;
    one with a hunk that leaves nothing behind is not even placeable when flipped.
   */
  lemma {:induction false} FlipUndoes(original: seq<string>, hunks: seq<Hunk>, cursor: nat, prefix: seq<string>)
    requires cursor <= |original| && Placed(original, hunks, cursor, |prefix|)
    ensures var output := prefix + Substitute(original, hunks, cursor, |prefix|);
            && (Placed(output, FlipAll(hunks), |prefix|, cursor) <==> KeepsNewSide(hunks))
            && (KeepsNewSide(hunks) ==> Substitute(output, FlipAll(hunks), |prefix|, cursor) == original[cursor..])
  {
    hide *;
    if hunks == [] {
      NothingToFlip(original, cursor, prefix);
    } else {
      PlacedFirst(original, hunks, cursor, |prefix|);
      SubstituteUnfolds(original, hunks, cursor, prefix);
      var next := hunks[0].header.oldStart - 1 + hunks[0].header.oldCount;
      var prefix' := Prefixed(original, hunks[0], cursor, prefix);
      var rest := Substitute(original, hunks[1..], next, |prefix'|);
      FlipUndoes(original, hunks[1..], next, prefix');
      assert |prefix' + rest| - |rest| == |prefix'|;
      FlipUndoesStep(original, hunks, cursor, prefix, rest);
    }
  }

  lemma NothingToFlip(original: seq<string>, cursor: nat, prefix: seq<string>)
    requires cursor <= |original|
    ensures var output := prefix + Substitute(original, [], cursor, |prefix|);
            && Placed(output, FlipAll([]), |prefix|, cursor) && KeepsNewSide([])
            && Substitute(output, FlipAll([]), |prefix|, cursor) == original[cursor..]
  {
    assert (prefix + original[cursor..])[|prefix|..] == original[cursor..];
  }

  lemma FlipUndoesStep(original: seq<string>, hunks: seq<Hunk>, cursor: nat, prefix: seq<string>, rest: seq<string>)
    requires cursor <= |original| && hunks != [] && HunkPlaced(original, hunks[0], cursor, |prefix|)
    requires var output := Prefixed(original, hunks[0], cursor, prefix) + rest;
             var filled, next := |output| - |rest|, hunks[0].header.oldStart - 1 + hunks[0].header.oldCount;
             && (Placed(output, FlipAll(hunks[1..]), filled, next) <==> KeepsNewSide(hunks[1..]))
             && (KeepsNewSide(hunks[1..]) ==> Substitute(output, FlipAll(hunks[1..]), filled, next) == original[next..])
    ensures var output := Prefixed(original, hunks[0], cursor, prefix) + rest;
            && (Placed(output, FlipAll(hunks), |prefix|, cursor) <==> KeepsNewSide(hunks))
            && (KeepsNewSide(hunks) ==> Substitute(output, FlipAll(hunks), |prefix|, cursor) == original[cursor..])
  {
    hide Prefixed, Flip, OldSide, NewSide;
    var flipped, next := FlipAll(hunks[1..]), hunks[0].header.oldStart - 1 + hunks[0].header.oldCount;
    FlipStep(original, hunks[0], flipped, cursor, prefix, rest);
    assert FlipAll(hunks) == [Flip(hunks[0])] + flipped;
    if KeepsNewSide(hunks) {
      FlipRestores(original, hunks[0], flipped, cursor, prefix, rest);
      assert original[cursor..] == original[cursor..next] + original[next..];
    }
  }
}
