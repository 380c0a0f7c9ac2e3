/**
  What the boards hold and show, in plain numbers: the calendar behind the windows, the
  scores of a window, and the order of a listing.
 */
module Standings {
  import opened Wrappers
  import opened Arithmetic
  import opened Periods
  import opened Scores
  import opened ScoreLaws
  import opened Submissions
  import opened Interleaving
  import opened LedgerSafety
  import opened Ranking

  // -------------------------------------------------------------- the calendar

  const MICROSECONDS_A_DAY := 24 * 60 * 60 * 1_000_000

  /** The days from 0001-01-01 to the first of January of a year, by the Gregorian rule. */
  function DaysBefore(year: int): int {
    var past := year - 1;
    past * 365 + past / 4 - past / 100 + past / 400
  }

  /** A window starts at 2000-01-01 for all time, at midnight for a day, and at Monday's midnight for a week. */
  lemma WindowStarts(period: Period, at: Instant)
    ensures PeriodStart(period, at)
            == match period
               case AllTime => DaysBefore(2000) * MICROSECONDS_A_DAY
               case Daily => at / MICROSECONDS_A_DAY * MICROSECONDS_A_DAY
               case Weekly => at / (7 * MICROSECONDS_A_DAY) * (7 * MICROSECONDS_A_DAY)
  {
    WeekStartsMonday(at);
    assert DaysBefore(2000) == 730_119;
  }

  /** 2000-01-01 was a Saturday. */
  lemma SentinelIsSaturday()
    ensures Weekday(PeriodStart(AllTime, 0)) == 5
  {
    QuotientUnique(SENTINEL, DAY, 730_119);
  }

  /** The accepted submissions of a bucket: its player's, in its mode, whose clock falls in its window. */
  lemma {:induction false} BucketExactly(subs: seq<Submission>, k: Key, sub: Submission)
    ensures sub in Bucket(subs, k)
            <==> && sub in subs && sub.user == k.user && sub.mode == k.mode
                 && PeriodStart(k.period, sub.now) == k.start
  {
    if subs != [] {
      var before, last := subs[..|subs| - 1], subs[|subs| - 1];
      BucketExactly(before, k, sub);
      assert subs == before + [last];
      hide PeriodStart;
    }
  }

  // ---------------------------------------------------------------- the scores

  /** For a descending mode no lower, for an ascending mode no higher. */
  predicate NoWorse(order: Order, a: int, b: int) {
    match order
    case Desc => a >= b
    case Asc => a <= b
  }

  lemma BeatsIsWorse(order: Order, a: int, b: int)
    ensures Beats(order, a, b) <==> !NoWorse(order, b, a)
  {
  }

  /**
    In a best mode a row holds one of the scores that reached it, none of which is better,
    with the run and tier of the first to bring it.
   */
  lemma BestInNumbers(order: Order, subs: seq<Submission>) returns (i: nat)
    requires subs != []
    ensures i < |subs|
    ensures var row := RowOf(Rules(order, Best), subs).value;
            && row.score == subs[i].score && row.run == subs[i].run && row.tier == subs[i].tier
            && row.submittedAt == (if i == 0 then subs[i].now else subs[i].stamp)
            && (forall j :: 0 <= j < |subs| ==> NoWorse(order, row.score, subs[j].score))
            && (forall j :: 0 <= j < i ==> subs[j].score != row.score)
  {
    i := BestIsFirstBest(order, subs);
    forall j | 0 <= j < |subs| ensures NoWorse(order, subs[i].score, subs[j].score) {
      BeatsIsWorse(order, subs[j].score, subs[i].score);
    }
    hide RowOf, Beats, NoWorse;
  }

  /** In a cumulative mode a row holds the sum, and the run, tier and time of the latest increment. */
  lemma {:induction false} CumulativeInFull(order: Order, subs: seq<Submission>)
    requires subs != []
    ensures var last := subs[|subs| - 1];
            RowOf(Rules(order, Cumulative), subs)
            == Some(Row(Sum(subs), if |subs| == 1 then last.now else last.stamp, last.run, last.tier))
  {
    if |subs| == 1 {
      assert subs[..0] == [];
      assert RowOf(Rules(order, Cumulative), subs[..0]) == None;
    } else {
      CumulativeInFull(order, subs[..|subs| - 1]);
    }
  }

  /** Over every interleaving, what the committed row of a bucket holds. */
  lemma RowInNumbers(cfg: Config, events: seq<Event>, k: Key)
    ensures var bucket := Bucket(AcceptedIn(cfg, events), k);
            k in Run(cfg, events).db.scores <==> bucket != []
    ensures var table, bucket := Run(cfg, events).db.scores, Bucket(AcceptedIn(cfg, events), k);
            var rules := Book(cfg)(k.mode);
            k in table ==>
              if rules.strategy == Cumulative then
                var last := bucket[|bucket| - 1];
                table[k] == Row(Sum(bucket), if |bucket| == 1 then last.now else last.stamp, last.run, last.tier)
              else
                && (exists sub :: sub in bucket && sub.score == table[k].score
                                  && sub.run == table[k].run && sub.tier == table[k].tier)
                && (forall sub :: sub in bucket ==> NoWorse(rules.order, table[k].score, sub.score))
  {
    var table, bucket := Run(cfg, events).db.scores, Bucket(AcceptedIn(cfg, events), k);
    var rules := Book(cfg)(k.mode);
    TableIsSettled(cfg, events);
    RowIsBucket(Book(cfg), AcceptedIn(cfg, events), k);
    assert Lookup(table, k) == RowOf(rules, bucket);
    if bucket != [] {
      if rules.strategy == Cumulative {
        CumulativeInFull(rules.order, bucket);
      } else {
        var i := BestInNumbers(rules.order, bucket);
        assert bucket[i] in bucket;
      }
    }
    hide RowOf, Bucket, Run, AcceptedIn, Settled, Sum, NoWorse, Book;
  }

  // --------------------------------------------------------------- the listing

  /** A better score comes first; of equal scores the earlier one, and of those the lower id. */
  predicate Precedes(order: Order, a: Standing, b: Standing) {
    || (order == Desc && a.score > b.score)
    || (order == Asc && a.score < b.score)
    || (a.score == b.score && a.submittedAt < b.submittedAt)
    || (a.score == b.score && a.submittedAt == b.submittedAt && a.id < b.id)
  }

  /** Every listing is in that order, so down a descending one scores never rise, and up an ascending one never fall. */
  lemma ListingInNumbers(order: Order, board: seq<Standing>, i: nat, j: nat)
    requires ValidBoard(board) && i < j < |Listing(order, board)|
    ensures var rows := Listing(order, board);
            Precedes(order, rows[i], rows[j]) && NoWorse(order, rows[i].score, rows[j].score)
  {
    ListingOrdered(order, board);
    hide Listing;
  }
}
