/**
  The text a document is embedded from, and its digest (app/vault/embedding_text.py).
 */
module EmbeddingText {
  import opened Wrappers
  import opened Lines
  import opened PyText

  datatype Embeddable = Embeddable(
    title: string, body: string, summary: Option<string>, tags: seq<string>, aliases: seq<string>)

  /** SHA-256 taken as free of collisions: a digest is its text, sealed. */
  datatype Digest = Sha256(text: string)

  /** The distinct non-blank terms, stripped. */
  function Terms(values: seq<string>): set<string> {
    set v | v in values && Strip(v) != "" :: Strip(v)
  }

  /** `_normalize_terms`. */
  function NormalizeTerms(values: seq<string>): seq<string> {
    Sorted(Terms(values))
  }

  function TermLine(values: seq<string>): seq<string> {
    if NormalizeTerms(values) == [] then [] else [Join(" ", NormalizeTerms(values))]
  }

  function SummaryLine(summary: Option<string>): seq<string> {
    if summary.None? || Strip(summary.value) == "" then [] else [Strip(summary.value)]
  }

  function Head(doc: Embeddable, includeTags: bool): seq<string> {
    [Strip(doc.title)] + TermLine(doc.aliases) + TermLine(if includeTags then doc.tags else [])
    + SummaryLine(doc.summary)
  }

  /** What `assemble_embedding_text` returns. */
  function EmbeddedText(doc: Embeddable, includeTags: bool): string {
    Join("\n", Head(doc, includeTags)) + if Strip(doc.body) == "" then "" else "\n\n" + Strip(doc.body)
  }

  /** `digest_for`, with tags as on every write path. */
  function DigestFor(doc: Embeddable): Digest {
    Sha256(EmbeddedText(doc, true))
  }

  lemma NothingToRender()
    ensures NormalizeTerms([]) == [] && Strip("") == ""
  {
    assert Terms([]) == {};
  }

  /** `assemble_embedding_text`. */
  method AssembleEmbeddingText(doc: Embeddable, includeTags: bool) returns (text: string)
    ensures text == EmbeddedText(doc, includeTags)
  {
    hide NormalizeTerms, Strip;
    var head := [Strip(doc.title)];
    var aliases := NormalizeTerms(doc.aliases);
    if aliases != [] { head := head + [Join(" ", aliases)]; }
    var tags := if includeTags then NormalizeTerms(doc.tags) else [];
    if tags != [] { head := head + [Join(" ", tags)]; }
    var summary := Strip(if doc.summary.Some? then doc.summary.value else "");
    if summary != "" { head := head + [summary]; }
    var body := Strip(doc.body);
    text := if body != "" then Join("\n", head) + "\n\n" + body else Join("\n", head);
    NothingToRender();
    assert head == Head(doc, includeTags);
    ConcatAssociates(Join("\n", head), "\n\n", body);
  }

  // ------------------------------------------------------------------- laws

  /** Two term lists render alike exactly when they hold the same terms, whatever the order, repeats or padding. */
  lemma TermsDecide(a: seq<string>, b: seq<string>)
    ensures NormalizeTerms(a) == NormalizeTerms(b) <==> Terms(a) == Terms(b)
    ensures Ascending(NormalizeTerms(a))
  {
    SortedAscends(Terms(a));
    if NormalizeTerms(a) == NormalizeTerms(b) {
      assert forall x :: x in Terms(a) <==> x in NormalizeTerms(a);
      assert forall x :: x in Terms(b) <==> x in NormalizeTerms(b);
    }
  }

  /** Reordering, repeating or padding terms never costs a new embedding. */
  lemma SameTermsSameDigest(a: Embeddable, b: Embeddable)
    requires Strip(a.title) == Strip(b.title) && Strip(a.body) == Strip(b.body)
    requires Terms(a.tags) == Terms(b.tags) && Terms(a.aliases) == Terms(b.aliases)
    requires SummaryLine(a.summary) == SummaryLine(b.summary)
    ensures DigestFor(a) == DigestFor(b)
  {
    TermsDecide(a.tags, b.tags);
    TermsDecide(a.aliases, b.aliases);
  }

  /** Filling in a summary changes the digest exactly when the summary is not blank. */
  lemma SummaryChangesDigest(doc: Embeddable, summary: string)
    requires doc.summary == None
    ensures DigestFor(doc.(summary := Some(summary))) != DigestFor(doc) <==> Strip(summary) != ""
  {
    var filled := doc.(summary := Some(summary));
    var head := Head(doc, true);
    assert Head(filled, true) == head + SummaryLine(filled.summary);
    if Strip(summary) == "" {
      assert Head(filled, true) == head;
    } else {
      JoinAppends(head, [Strip(summary)]);
      assert |Join("\n", Head(filled, true))| > |Join("\n", head)|;
      assert |EmbeddedText(filled, true)| > |EmbeddedText(doc, true)|;
    }
  }

  // ------------------------------------------------------ aliases and tags

  lemma CancelBoth(x: string, a: string, b: string, y: string)
    ensures x + a + y == x + b + y <==> a == b
  {
    if x + a + y == x + b + y {
      assert |a| == |b|;
      assert (x + a + y)[|x|..|x| + |a|] == a && (x + b + y)[|x|..|x| + |b|] == b;
    }
  }

  /** More lines after a first one. */
  function Further(lines: seq<string>): string {
    if lines == [] then "" else "\n" + Join("\n", lines)
  }

  lemma JoinThree(first: string, middle: seq<string>, last: seq<string>)
    ensures Join("\n", [first] + middle + last) == first + Further(middle) + Further(last)
  {
    assert Join("\n", [first]) == first;
    if middle == [] {
      assert [first] + middle + last == [first] + last;
    } else {
      JoinAppends([first], middle);
    }
    if last == [] {
      assert [first] + middle + last == [first] + middle;
    } else {
      JoinAppends([first] + middle, last);
    }
    hide Join;
    assert first + "\n" + Join("\n", middle) == first + ("\n" + Join("\n", middle));
    ConcatAssociates(first + Further(middle), "\n", Join("\n", last));
  }

  lemma TermLineSolid(values: seq<string>)
    ensures TermLine(values) != [] ==> TermLine(values)[0] != ""
  {
    var terms := NormalizeTerms(values);
    if terms != [] {
      assert terms[0] in Terms(values);
      assert terms[0] != "";
      hide Terms, Sorted;
    }
  }

  /** The lines that the aliases and the tags of a document put into its text. */
  function TermLines(aliases: seq<string>, tags: seq<string>): seq<string> {
    TermLine(aliases) + TermLine(tags)
  }

  lemma FurtherDecides(a: seq<string>, b: seq<string>)
    requires a != [] ==> a[0] != ""
    requires b != [] ==> b[0] != ""
    ensures Further(a) == Further(b) <==> Join("\n", a) == Join("\n", b)
  {
    if a != [] && b != [] && Further(a) == Further(b) {
      assert Further(a)[1..] == Join("\n", a) && Further(b)[1..] == Join("\n", b);
    }
  }

  lemma TextInParts(doc: Embeddable, aliases: seq<string>, tags: seq<string>)
    ensures EmbeddedText(doc.(aliases := aliases, tags := tags), true)
            == Strip(doc.title) + Further(TermLines(aliases, tags))
               + (Further(SummaryLine(doc.summary))
                  + if Strip(doc.body) == "" then "" else "\n\n" + Strip(doc.body))
  {
    hide Strip, TermLine, SummaryLine, Further;
    var middle, last := TermLines(aliases, tags), SummaryLine(doc.summary);
    JoinThree(Strip(doc.title), middle, last);
    assert Head(doc.(aliases := aliases, tags := tags), true) == [Strip(doc.title)] + middle + last;
    ConcatAssociates(Strip(doc.title) + Further(middle), Further(last),
                     if Strip(doc.body) == "" then "" else "\n\n" + Strip(doc.body));
  }

  /**
    With the same title, summary and body, two choices of aliases and tags have one digest
    exactly when their term lines read alike.
   */
  lemma TermLinesDecideDigest(
      doc: Embeddable, aliases: seq<string>, tags: seq<string>, aliases': seq<string>, tags': seq<string>)
    ensures DigestFor(doc.(aliases := aliases, tags := tags)) == DigestFor(doc.(aliases := aliases', tags := tags'))
            <==> Join("\n", TermLines(aliases, tags)) == Join("\n", TermLines(aliases', tags'))
  {
    TermLineSolid(aliases);
    TermLineSolid(tags);
    TermLineSolid(aliases');
    TermLineSolid(tags');
    FurtherDecides(TermLines(aliases, tags), TermLines(aliases', tags'));
    TextInParts(doc, aliases, tags);
    TextInParts(doc, aliases', tags');
    hide Strip, TermLine, SummaryLine, Further, TermLines, EmbeddedText;
    CancelBoth(Strip(doc.title), Further(TermLines(aliases, tags)), Further(TermLines(aliases', tags')),
               Further(SummaryLine(doc.summary))
               + if Strip(doc.body) == "" then "" else "\n\n" + Strip(doc.body));
  }

  /** So a document's only aliases pass for its only tags. */
  lemma AliasesPassForTags(doc: Embeddable, terms: seq<string>)
    ensures DigestFor(doc.(aliases := terms, tags := [])) == DigestFor(doc.(aliases := [], tags := terms))
  {
    assert Terms([]) == {} && TermLine([]) == [];
    assert TermLines(terms, []) == TermLines([], terms);
    TermLinesDecideDigest(doc, terms, [], [], terms);
  }

  // ------------------------------------------------------------ spelled out

  /** The terms without blanks around them, each once, in order, with one blank between. */
  function Spaced(values: seq<string>): string {
    Join(" ", NormalizeTerms(values))
  }

  /** A further line, unless there is nothing to say. */
  function NextLine(text: string): string {
    if text == "" then "" else "\n" + text
  }

  lemma FurtherTerms(values: seq<string>)
    ensures Further(TermLine(values)) == NextLine(Spaced(values))
  {
    TermLineSolid(values);
    if NormalizeTerms(values) != [] {
      assert Join("\n", TermLine(values)) == Spaced(values);
    }
  }

  lemma FurtherJoins(a: seq<string>, b: seq<string>)
    ensures Further(a + b) == Further(a) + Further(b)
  {
    hide Join;
    if a == [] {
      assert a + b == b;
    } else if b == [] {
      assert a + b == a;
    } else {
      JoinAppends(a, b);
      ConcatAssociates("\n", Join("\n", a), "\n" + Join("\n", b));
      ConcatAssociates(Join("\n", a), "\n", Join("\n", b));
    }
  }

  /** The text is the title, the aliases, the tags if asked for, the summary, and after a blank line the body. */
  lemma TextSpelled(doc: Embeddable, includeTags: bool)
    ensures EmbeddedText(doc, includeTags)
            == Strip(doc.title) + NextLine(Spaced(doc.aliases))
               + (if includeTags then NextLine(Spaced(doc.tags)) else "")
               + NextLine(if doc.summary.Some? then Strip(doc.summary.value) else "")
               + (if Strip(doc.body) == "" then "" else "\n\n" + Strip(doc.body))
  {
    hide Strip, TermLine, Further, NextLine, Spaced;
    var tags := if includeTags then doc.tags else [];
    FurtherTerms(doc.aliases);
    FurtherTerms(tags);
    FurtherJoins(TermLine(doc.aliases), TermLine(tags));
    JoinThree(Strip(doc.title), TermLine(doc.aliases) + TermLine(tags), SummaryLine(doc.summary));
    assert Head(doc, includeTags)
           == [Strip(doc.title)] + (TermLine(doc.aliases) + TermLine(tags)) + SummaryLine(doc.summary);
    NoTermsNoLine();
    SummaryFurther(doc.summary);
  }

  lemma NoTermsNoLine()
    ensures NextLine(Spaced([])) == ""
  {
    NothingToRender();
  }

  lemma SummaryFurther(summary: Option<string>)
    ensures Further(SummaryLine(summary)) == NextLine(if summary.Some? then Strip(summary.value) else "")
  {
    hide Strip;
  }

  /** The terms are exactly the values that are not blank, without the blanks around them, in order and each once. */
  lemma TermsExactly(values: seq<string>, term: string)
    ensures term in NormalizeTerms(values) <==> term != "" && exists i :: 0 <= i < |values| && Strip(values[i]) == term
    ensures Ascending(NormalizeTerms(values))
  {
    hide Strip;
    SortedAscends(Terms(values));
    if i :| 0 <= i < |values| && Strip(values[i]) == term { assert values[i] in values; }
  }
}
