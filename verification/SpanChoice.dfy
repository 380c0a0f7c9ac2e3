/**
  Which span an edit replaces, and why an edit is refused, in terms of the places the
  text starts at.
 */
module SpanChoice {
  import opened Wrappers
  import opened Lines
  import opened SpanEdit

  /** Every place the text starts at. */
  function Starts(body: string, needle: string): set<nat> {
    set k | 0 <= k <= |body| && OccursAt(body, needle, k)
  }

  /** The places it starts at before `k`. */
  function StartsBefore(body: string, needle: string, k: nat): set<nat> {
    set j | 0 <= j < k && OccursAt(body, needle, j)
  }

  /** The `n`-th place the text starts at, counting from one. */
  predicate NthStart(body: string, needle: string, n: int, k: nat) {
    OccursAt(body, needle, k) && |StartsBefore(body, needle, k)| == n - 1
  }

  /** The guards before any search: both texts free of lone carriage returns, the first not empty, and different. */
  predicate Searchable(expected: string, replacement: string) {
    && expected != "" && Normalize(expected) != Normalize(replacement)
    && !Contains(Normalize(expected), '\r') && !Contains(Normalize(replacement), '\r')
  }

  lemma SearchableIs(expected: string, replacement: string)
    ensures Searchable(expected, replacement)
            <==> CheckSpan(expected, Normalize(expected), Normalize(replacement)).None?
  {
  }

  lemma {:induction false} AscendingAt(offsets: seq<nat>, from: nat, i: nat, j: nat)
    requires Ascending(offsets, from) && i < j < |offsets|
    ensures from <= offsets[i] < offsets[j]
  {
    if i > 0 {
      AscendingAt(offsets[1..], offsets[0] + 1, i - 1, j - 1);
    } else if j > 1 {
      AscendingAt(offsets[1..], offsets[0] + 1, 0, j - 1);
    }
  }

  function Elements(offsets: seq<nat>): set<nat> {
    set k | k in offsets
  }

  lemma ElementsCons(offsets: seq<nat>)
    requires offsets != [] && offsets[0] !in offsets[1..]
    ensures |Elements(offsets)| == 1 + |Elements(offsets[1..])|
  {
    var rest := Elements(offsets[1..]);
    assert offsets == [offsets[0]] + offsets[1..];
    assert Elements(offsets) == {offsets[0]} + rest;
  }

  /** Strictly ascending offsets are as many as their elements. */
  lemma {:induction false} AscendingCounts(offsets: seq<nat>, from: nat)
    requires Ascending(offsets, from)
    ensures |Elements(offsets)| == |offsets|
    ensures forall k :: k in offsets ==> k >= from
  {
    if offsets == [] {
      assert Elements(offsets) == {};
    } else {
      AscendingCounts(offsets[1..], offsets[0] + 1);
      assert offsets == [offsets[0]] + offsets[1..];
      ElementsCons(offsets);
    }
    hide Elements;
  }

  lemma TakeAscending(offsets: seq<nat>, from: nat, i: nat)
    requires Ascending(offsets, from) && i <= |offsets|
    ensures Ascending(offsets[..i], from)
  {
    if i > 0 {
      TakeAscending(offsets[1..], offsets[0] + 1, i - 1);
      assert offsets[..i][1..] == offsets[1..][..i - 1];
    }
  }

  /** The listed starts are the starts, and each is preceded by as many as stand before it in the list. */
  lemma ListedStarts(body: string, needle: string)
    requires needle != ""
    ensures |Starts(body, needle)| == |Offsets(body, needle, 0)|
    ensures var offsets := Offsets(body, needle, 0);
            forall i :: 0 <= i < |offsets| ==> NthStart(body, needle, i + 1, offsets[i])
  {
    var offsets := Offsets(body, needle, 0);
    OffsetsExact(body, needle, 0);
    AscendingCounts(offsets, 0);
    hide Offsets, Ascending;
    assert Elements(offsets) == Starts(body, needle) by {
      forall k: nat ensures k in Starts(body, needle) <==> k in offsets {
        if k in offsets { assert OccursAt(body, needle, k); }
      }
    }
    forall i | 0 <= i < |offsets| ensures NthStart(body, needle, i + 1, offsets[i]) {
      var before := offsets[..i];
      TakeAscending(offsets, 0, i);
      AscendingCounts(before, 0);
      forall j: nat ensures j in StartsBefore(body, needle, offsets[i]) <==> j in before {
        if j in before {
          var m :| 0 <= m < i && before[m] == j;
          AscendingAt(offsets, 0, m, i);
          assert j in offsets;
        }
        if j in StartsBefore(body, needle, offsets[i]) {
          assert j in offsets;
          var m :| 0 <= m < |offsets| && offsets[m] == j;
          if m > i { AscendingAt(offsets, 0, i, m); }
          assert before[m] == j;
        }
      }
      assert StartsBefore(body, needle, offsets[i]) == Elements(before);
    }
  }

  lemma NthIsListed(body: string, needle: string, n: int, k: nat)
    requires needle != "" && NthStart(body, needle, n, k)
    ensures var offsets := Offsets(body, needle, 0); 1 <= n <= |offsets| && offsets[n - 1] == k
  {
    var offsets := Offsets(body, needle, 0);
    OffsetsExact(body, needle, 0);
    ListedStarts(body, needle);
    hide Offsets, Ascending, Starts;
    assert k in offsets;
    var i :| 0 <= i < |offsets| && offsets[i] == k;
    assert NthStart(body, needle, i + 1, offsets[i]);
  }

  /**
    An edit that asks for the `n`-th occurrence succeeds exactly when there are that many
    places the text starts at, and then replaces the `n`-th of them and nothing else.
   */
  lemma NumberedEditExactly(original: string, expected: string, replacement: string, n: int)
    requires Searchable(expected, replacement)
    ensures var r := EditSpan(original, expected, replacement, Some(n));
            var body, needle := Normalize(original), Normalize(expected);
            && (r.Ok? <==> 1 <= n <= |Starts(body, needle)|)
            && (forall k: nat :: NthStart(body, needle, n, k) ==>
                  r == Ok(body[..k] + Normalize(replacement) + body[k + |needle|..]))
            && (r.Ok? ==> exists k: nat :: NthStart(body, needle, n, k))
  {
    SearchableIs(expected, replacement);
    NormalizeNonempty(expected);
    assert expected != "";
    hide Offsets, Ascending, Starts, OccursAt, CheckSpan, Normalize, NthStart, Searchable;
    var body, needle := Normalize(original), Normalize(expected);
    ListedStarts(body, needle);
    forall k: nat | NthStart(body, needle, n, k) ensures 1 <= n <= |Offsets(body, needle, 0)| {
      NthIsListed(body, needle, n, k);
    }
    forall k: nat | NthStart(body, needle, n, k) ensures Offsets(body, needle, 0)[n - 1] == k {
      NthIsListed(body, needle, n, k);
    }
  }

  /** Why an edit is refused, the earlier reason first. */
  lemma EditRefusedExactly(original: string, expected: string, replacement: string, occurrence: Option<int>)
    ensures var r, count := EditSpan(original, expected, replacement, occurrence),
                            |Starts(Normalize(original), Normalize(expected))|;
            && (r == Err(EmptyExpected) <==> expected == "")
            && (expected != "" ==>
                  && (r == Err(ExpectedCarriageReturn) <==> Contains(Normalize(expected), '\r'))
                  && (r == Err(ReplacementCarriageReturn)
                      <==> !Contains(Normalize(expected), '\r') && Contains(Normalize(replacement), '\r'))
                  && (!Contains(Normalize(expected), '\r') && !Contains(Normalize(replacement), '\r') ==>
                        (r == Err(Identical) <==> Normalize(expected) == Normalize(replacement))))
            && (Searchable(expected, replacement) ==>
                  && (r == Err(NotFound) <==> count == 0)
                  && (r == Err(Ambiguous(count)) <==> occurrence == None && count > 1)
                  && (r.Err? ==>
                        || r.error == NotFound || r.error == Ambiguous(count)
                        || (occurrence.Some? && count > 0 && r.error == OccurrenceOutOfRange(occurrence.value, count))))
  {
    var body, needle := Normalize(original), Normalize(expected);
    if Searchable(expected, replacement) {
      NormalizeNonempty(expected);
      OffsetsExact(body, needle, 0);
      ListedStarts(body, needle);
    }
    hide Offsets, Ascending, Starts, OccursAt, Normalize, Contains;
  }

  /** Why a found edit is not stored: it changes the final newline, or its diff is refused, or gives other text. */
  lemma StoreRefused(original: string, expected: string, replacement: string, occurrence: Option<int>, matcher: Matcher)
    ensures var edited, body := EditSpan(original, expected, replacement, occurrence), Normalize(original);
            var r := SpanDiff(original, expected, replacement, occurrence, matcher);
            && (edited.Err? ==> r == Err(edited.error))
            && (edited.Ok? ==>
                  (r == Err(FinalNewlineChanges) <==> EndsWith(body, "\n") != EndsWith(edited.value, "\n")))
  {
    hide EditSpan, Normalize, EndsWith, BodyDiff;
  }
}
