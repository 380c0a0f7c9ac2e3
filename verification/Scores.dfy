/**
  Score rows and their upserts (`_apply_score_write` of app/leaderboard_routes.py):
  one row per user, mode and window, replaced when beaten or added to.
 */
module Scores {
  import opened Wrappers
  import opened Periods

  datatype Order = Asc | Desc

  datatype Strategy = Best | Cumulative

  datatype Rules = Rules(order: Order, strategy: Strategy)

  /** The unique key of the scores table. */
  datatype Key = Key(user: nat, mode: string, period: Period, start: Instant)

  datatype Row = Row(score: int, submittedAt: Instant, run: Option<nat>, tier: nat)

  type Table = map<Key, Row>

  /** A score on its way in; `now` is the application's clock, `stamp` the transaction's. */
  datatype Submission = Submission(
    user: nat, mode: string, score: int, now: Instant, stamp: Instant, run: Option<nat>, tier: nat)

  /** One marker per user, mode and idempotency key. */
  datatype Marker = Marker(user: nat, mode: string, key: string)

  function KeyOf(sub: Submission, period: Period): Key {
    Key(sub.user, sub.mode, period, PeriodStart(period, sub.now))
  }

  /** `_is_improvement_predicate`. */
  predicate Beats(order: Order, offered: int, stored: int) {
    if order == Asc then offered < stored else offered > stored
  }

  /** The row an upsert leaves, given the row it finds. */
  function UpsertRow(rules: Rules, found: Option<Row>, sub: Submission): Row {
    match found
    case None => Row(sub.score, sub.now, sub.run, sub.tier)
    case Some(row) =>
      match rules.strategy
      case Cumulative => Row(row.score + sub.score, sub.stamp, sub.run, sub.tier)
      case Best =>
        if Beats(rules.order, sub.score, row.score) then Row(sub.score, sub.stamp, sub.run, sub.tier) else row
  }

  function Lookup(table: Table, k: Key): Option<Row> {
    if k in table then Some(table[k]) else None
  }

  function Upsert(rules: Rules, table: Table, k: Key, sub: Submission): Table {
    table[k := UpsertRow(rules, Lookup(table, k), sub)]
  }

  /** The table after the first `n` windows of a submission. */
  function Written(rules: Rules, table: Table, sub: Submission, n: nat): Table
    requires n <= |PERIODS|
  {
    if n == 0 then table else Upsert(rules, Written(rules, table, sub, n - 1), KeyOf(sub, PERIODS[n - 1]), sub)
  }

  // ------------------------------------------------------------ the operation

  class Ledger {
    var scores: Table
    var markers: set<Marker>

    constructor ()
      ensures scores == map[] && markers == {}
    {
      scores, markers := map[], {};
    }

    /**
      `_apply_score_write`, inside its caller's transaction. On the raw path of a
      cumulative mode the marker goes in first and a duplicate writes nothing.
     */
    method ApplyScoreWrite(rules: Rules, sub: Submission, idempotencyKey: Option<string>, record: bool)
      requires rules.strategy == Cumulative && record ==> idempotencyKey.Some?
      modifies this
      ensures var gated := rules.strategy == Cumulative && record;
              var marker := Marker(sub.user, sub.mode, if gated then idempotencyKey.value else "");
              if gated && marker in old(markers) then scores == old(scores) && markers == old(markers)
              else && scores == Written(rules, old(scores), sub, |PERIODS|)
                   && markers == (if gated then old(markers) + {marker} else old(markers))
    {
      if rules.strategy == Cumulative && record {
        var marker := Marker(sub.user, sub.mode, idempotencyKey.value);
        if marker in markers { return; }
        markers := markers + {marker};
      }
      ghost var marked := markers;
      var k := 0;
      while k < |PERIODS|
        invariant 0 <= k <= |PERIODS|
        invariant scores == Written(rules, old(scores), sub, k) && markers == marked
      {
        var key := Key(sub.user, sub.mode, PERIODS[k], PeriodStart(PERIODS[k], sub.now));
        if key !in scores {
          scores := scores[key := Row(sub.score, sub.now, sub.run, sub.tier)];
        } else if rules.strategy == Cumulative {
          scores := scores[key := Row(scores[key].score + sub.score, sub.stamp, sub.run, sub.tier)];
        } else if Beats(rules.order, sub.score, scores[key].score) {
          scores := scores[key := Row(sub.score, sub.stamp, sub.run, sub.tier)];
        }
        k := k + 1;
      }
    }
  }

  // ------------------------------------------------------ rows, op by op

  /** One row upsert of some submission, as the database sees it. */
  datatype Op = Op(key: Key, sub: Submission)

  type Rulebook = string -> Rules

  /** The table after any sequence of row upserts. */
  function Replay(book: Rulebook, ops: seq<Op>): Table {
    if ops == [] then map[]
    else
      var last := ops[|ops| - 1];
      Upsert(book(last.key.mode), Replay(book, ops[..|ops| - 1]), last.key, last.sub)
  }

  /** The submissions that hit one row, in order. */
  function Hits(ops: seq<Op>, k: Key): seq<Submission> {
    if ops == [] then []
    else Hits(ops[..|ops| - 1], k) + if ops[|ops| - 1].key == k then [ops[|ops| - 1].sub] else []
  }

  function RowOf(rules: Rules, subs: seq<Submission>): Option<Row> {
    if subs == [] then None else Some(UpsertRow(rules, RowOf(rules, subs[..|subs| - 1]), subs[|subs| - 1]))
  }

  /** A row depends only on the upserts that hit it. */
  lemma {:induction false} RowsAreIndependent(book: Rulebook, ops: seq<Op>, k: Key)
    ensures Lookup(Replay(book, ops), k) == RowOf(book(k.mode), Hits(ops, k))
  {
    if ops != [] {
      var before, last := ops[..|ops| - 1], ops[|ops| - 1];
      RowsAreIndependent(book, before, k);
      if last.key == k {
        assert Hits(ops, k) == Hits(before, k) + [last.sub];
        assert Hits(ops, k)[..|Hits(ops, k)| - 1] == Hits(before, k);
      } else {
        assert Hits(ops, k) == Hits(before, k);
      }
    }
  }

  // --------------------------------------------------------- cumulative modes

  function Sum(subs: seq<Submission>): int {
    if subs == [] then 0 else Sum(subs[..|subs| - 1]) + subs[|subs| - 1].score
  }

  /** A cumulative row holds the sum of every increment that hit it. */
  lemma {:induction false} CumulativeIsSum(order: Order, subs: seq<Submission>)
    requires subs != []
    ensures RowOf(Rules(order, Cumulative), subs).value.score == Sum(subs)
  {
    if |subs| == 1 {
      assert subs[..0] == [];
    } else {
      CumulativeIsSum(order, subs[..|subs| - 1]);
    }
  }

  // --------------------------------------------------------------- best modes

  /** `i` is the first submission to reach the best score of all. */
  predicate FirstBest(order: Order, subs: seq<Submission>, i: nat) {
    && i < |subs|
    && (forall j :: 0 <= j < |subs| ==> !Beats(order, subs[j].score, subs[i].score))
    && (forall j :: 0 <= j < i ==> subs[j].score != subs[i].score)
  }

  /** A best-score row holds the best score, with the run and tier of the submission that first reached it. */
  lemma {:induction false} BestIsFirstBest(order: Order, subs: seq<Submission>) returns (i: nat)
    requires subs != []
    ensures FirstBest(order, subs, i)
    ensures RowOf(Rules(order, Best), subs)
            == Some(Row(subs[i].score, if i == 0 then subs[i].now else subs[i].stamp, subs[i].run, subs[i].tier))
  {
    var n := |subs| - 1;
    if n == 0 {
      i := 0;
      assert subs[..0] == [] && subs[0] == subs[|subs| - 1];
      assert RowOf(Rules(order, Best), subs) == Some(UpsertRow(Rules(order, Best), None, subs[0]));
    } else {
      i := BestIsFirstBest(order, subs[..n]);
      assert forall j :: 0 <= j < n ==> subs[..n][j] == subs[j];
      if Beats(order, subs[n].score, subs[i].score) { i := n; }
    }
  }
}
