/**
  The form of a printed note: which keys are lists, the order of the keys, and the lines
  of a pair.
 */
module NoteFormat {
  import opened Wrappers
  import opened PyText
  import opened TextLaws
  import opened Frontmatter

  // ---------------------------------------------------------------- list keys

  /** The properties that are lists whatever they hold. */
  predicate IsListKey(key: string) {
    || key == "tags" || key == "aliases" || key == "Facets" || key == "SeeAlso"
    || key == "RelatedIDs" || key == "SourceIDs" || key == "Related"
  }

  /** A key without a value prints an empty list exactly when it is one of those. */
  lemma EmptyValues(key: string)
    ensures RenderPair(key, One(Null)) == Ok(if IsListKey(key) then key + ": []" else key + ":")
    ensures RenderPair(key, Many([])) == Ok(key + ": []")
  {
  }

  lemma {:induction false} ItemLineAt(items: seq<Scalar>, i: nat)
    requires i < |items|
    ensures |ItemLines(items)| == |items| && ItemLines(items)[i] == "  - " + RenderScalar(items[i])
  {
    hide RenderScalar;
    if |items| > 1 { ItemLineAt(items[1..], if i == 0 then 0 else i - 1); }
  }

  /** A list prints its key and then one item a line, in order. */
  lemma ListLines(key: string, items: seq<Scalar>, i: nat)
    requires i < |items|
    ensures var lines := PairLines(key, Many(items));
            && lines.Ok? && |lines.value| == |items| + 1 && lines.value[0] == key + ":"
            && lines.value[i + 1] == "  - " + RenderScalar(items[i])
  {
    hide ItemLines, RenderScalar;
    ItemLineAt(items, i);
  }

  lemma {:induction false} CharAt(s: string, i: nat)
    requires i < |s|
    ensures |CharsOf(s)| == |s| && CharsOf(s)[i] == Text([s[i]])
  {
    if |s| > 1 { CharAt(s[1..], if i == 0 then 0 else i - 1); }
  }

  /** A text under a list key prints as the list of its characters, */
  lemma TextsUnderListKeys(key: string, t: string, i: nat)
    requires IsListKey(key) && i < |t|
    ensures var lines := PairLines(key, One(Text(t)));
            && lines.Ok? && |lines.value| == |t| + 1 && lines.value[0] == key + ":"
            && lines.value[i + 1] == "  - " + RenderScalar(Text([t[i]]))
  {
    hide ItemLines, RenderScalar, CharsOf;
    CharAt(t, i);
    ItemLineAt(CharsOf(t), i);
  }

  /** true and numbers but zero do not print there, false, zero and nothing print as the empty list; */
  lemma ScalarsUnderListKeys(key: string, v: Scalar)
    requires IsListKey(key) && (v.Text? ==> v.text == "")
    ensures PairLines(key, One(v))
            == if v == Boolean(true) || (v.Integer? && v.n != 0) then Err(NotIterable(key)) else Ok([key + ": []"])
  {
  }

  /** and under any other key a scalar prints on the line of its key. */
  lemma ScalarsUnderOtherKeys(key: string, v: Scalar)
    requires !IsListKey(key)
    ensures PairLines(key, One(v))
            == Ok([if RenderScalar(v) == "" then key + ":" else key + ": " + RenderScalar(v)])
  {
    hide RenderScalar;
  }

  // ---------------------------------------------------------------- key order

  predicate NoRepeats(keys: seq<string>) {
    forall i, j :: 0 <= i < j < |keys| ==> keys[i] != keys[j]
  }

  /** Strictly earlier by code point. */
  ghost predicate Earlier(a: string, b: string) {
    a != b && exists k: nat :: LowerAt(a, b, k)
  }

  /** `a` stands before `b` in the order. */
  ghost predicate StandsBefore(order: seq<string>, a: string, b: string) {
    exists i, j :: 0 <= i < j < |order| && order[i] == a && order[j] == b
  }

  /** Named keys come before the others, the named in the given order, the others by code point. */
  ghost predicate InKeyOrder(order: seq<string>, a: string, b: string) {
    if a in order then b !in order || StandsBefore(order, a, b)
    else b !in order && Earlier(a, b)
  }

  lemma {:induction false} NamedInOrder(order: seq<string>, keys: set<string>, i: nat, j: nat)
    requires NoRepeats(order) && i < j < |Named(order, keys)|
    ensures StandsBefore(order, Named(order, keys)[i], Named(order, keys)[j])
  {
    var rest, named := order[1..], Named(order[1..], keys);
    NamedKeys(rest, keys);
    if order[0] in keys {
      if i == 0 {
        assert named[j - 1] in rest;
        var m :| 0 <= m < |rest| && rest[m] == named[j - 1];
        assert order[m + 1] == named[j - 1];
      } else {
        NamedInOrder(rest, keys, i - 1, j - 1);
        Later(order, named[i - 1], named[j - 1]);
      }
    } else {
      NamedInOrder(rest, keys, i, j);
      Later(order, named[i], named[j]);
    }
  }

  lemma Later(order: seq<string>, a: string, b: string)
    requires order != [] && StandsBefore(order[1..], a, b)
    ensures StandsBefore(order, a, b)
  {
    var i, j :| 0 <= i < j < |order[1..]| && order[1..][i] == a && order[1..][j] == b;
    assert order[i + 1] == a && order[j + 1] == b;
  }

  /** Every key is printed once, and the keys in that order. */
  lemma KeysInOrder(keys: set<string>, order: seq<string>, i: nat, j: nat)
    requires NoRepeats(order) && i < j < |KeyOrder(keys, order)|
    ensures InKeyOrder(order, KeyOrder(keys, order)[i], KeyOrder(keys, order)[j])
    ensures forall k :: k in KeyOrder(keys, order) <==> k in keys
  {
    hide Named, Sorted, StandsBefore, Earlier;
    var named, others := Named(order, keys), keys - set k | k in order;
    var sorted := Sorted(others);
    NamedKeys(order, keys);
    SortedAscends(others);
    KeyOrderKeys(keys, order);
    if j < |named| {
      NamedInOrder(order, keys, i, j);
    } else {
      assert sorted[j - |named|] in sorted;
      if i < |named| {
        assert named[i] in named;
      } else {
        assert sorted[i - |named|] in sorted;
        AscendsEarlier(sorted, i - |named|, j - |named|);
      }
    }
  }

  lemma AscendsEarlier(keys: seq<string>, i: nat, j: nat)
    requires Ascending(keys) && i < j < |keys|
    ensures Earlier(keys[i], keys[j])
  {
    OrderExactly(keys[i], keys[j]);
  }
}
