/**
  What the score table means for the accepted submissions: row upserts may interleave
  freely, and the windows of a cumulative mode add up.
 */
module ScoreLaws {
  import opened Arithmetic
  import opened Periods
  import opened Scores

  // ------------------------------------------------------------- interleaving

  /** How often each submission hits a row does not depend on the order of the upserts. */
  lemma {:induction false} HitsCounted(ops: seq<Op>, k: Key, sub: Submission)
    ensures multiset(Hits(ops, k))[sub] == multiset(ops)[Op(k, sub)]
  {
    if ops != [] {
      var before, last := ops[..|ops| - 1], ops[|ops| - 1];
      HitsCounted(before, k, sub);
      assert ops == before + [last];
      assert last == Op(last.key, last.sub);
    }
  }

  function Without(subs: seq<Submission>, i: nat): seq<Submission>
    requires i < |subs|
  {
    subs[..i] + subs[i + 1..]
  }

  lemma BagWithout(subs: seq<Submission>, i: nat)
    requires i < |subs|
    ensures multiset(Without(subs, i)) == multiset(subs) - multiset{subs[i]}
  {
    assert subs == subs[..i] + [subs[i]] + subs[i + 1..];
  }

  lemma {:induction false} SumWithout(subs: seq<Submission>, i: nat)
    requires i < |subs|
    ensures Sum(subs) == Sum(Without(subs, i)) + subs[i].score
  {
    var n := |subs| - 1;
    if i == n {
      assert Without(subs, i) == subs[..n];
    } else {
      SumWithout(subs[..n], i);
      var rest := Without(subs, i);
      assert rest[..n - 1] == Without(subs[..n], i);
      assert rest[n - 1] == subs[n];
    }
  }

  lemma SameLength(a: seq<Submission>, b: seq<Submission>)
    requires multiset(a) == multiset(b)
    ensures |a| == |b|
  {
    assert |multiset(a)| == |a| && |multiset(b)| == |b|;
  }

  lemma {:induction false} SumIgnoresOrder(a: seq<Submission>, b: seq<Submission>)
    requires multiset(a) == multiset(b)
    ensures Sum(a) == Sum(b)
  {
    SameLength(a, b);
    if a != [] {
      var n := |a| - 1;
      assert a[n] in multiset(b);
      var i: nat :| i < |b| && b[i] == a[n];
      BagWithout(a, n);
      BagWithout(b, i);
      SumWithout(a, n);
      SumWithout(b, i);
      SumIgnoresOrder(Without(a, n), Without(b, i));
    }
  }

  /** A row's score depends on which submissions hit it, not on their order. */
  lemma RowScoreIgnoresOrder(rules: Rules, a: seq<Submission>, b: seq<Submission>)
    requires multiset(a) == multiset(b)
    ensures RowOf(rules, a).None? <==> RowOf(rules, b).None?
    ensures RowOf(rules, a).Some? ==> RowOf(rules, a).value.score == RowOf(rules, b).value.score
  {
    SameLength(a, b);
    if a != [] {
      match rules.strategy
      case Cumulative =>
        CumulativeIsSum(rules.order, a);
        CumulativeIsSum(rules.order, b);
        SumIgnoresOrder(a, b);
      case Best =>
        var i := BestIsFirstBest(rules.order, a);
        var j := BestIsFirstBest(rules.order, b);
        assert a[i] in multiset(b) && b[j] in multiset(a);
    }
  }

  /** However the row upserts of concurrent submissions interleave, the same rows exist with the same scores. */
  lemma InterleavingKeepsScores(book: Rulebook, a: seq<Op>, b: seq<Op>, k: Key)
    requires multiset(a) == multiset(b)
    ensures k in Replay(book, a) <==> k in Replay(book, b)
    ensures k in Replay(book, a) ==> Replay(book, a)[k].score == Replay(book, b)[k].score
  {
    forall sub ensures multiset(Hits(a, k))[sub] == multiset(Hits(b, k))[sub] {
      HitsCounted(a, k, sub);
      HitsCounted(b, k, sub);
    }
    RowsAreIndependent(book, a, k);
    RowsAreIndependent(book, b, k);
    RowScoreIgnoresOrder(book(k.mode), Hits(a, k), Hits(b, k));
  }

  // ------------------------------------------------------ whole submissions

  /** The row upserts of one submission, in the order of `PERIODS`. */
  function OpsOf(sub: Submission): seq<Op> {
    seq(|PERIODS|, i requires 0 <= i < |PERIODS| => Op(KeyOf(sub, PERIODS[i]), sub))
  }

  function AllOps(subs: seq<Submission>): seq<Op> {
    if subs == [] then [] else AllOps(subs[..|subs| - 1]) + OpsOf(subs[|subs| - 1])
  }

  /** The table after submissions that ran one at a time. */
  function Settled(book: Rulebook, subs: seq<Submission>): Table {
    Replay(book, AllOps(subs))
  }

  lemma {:induction false} ReplayWrites(book: Rulebook, ops: seq<Op>, sub: Submission, n: nat)
    requires n <= |PERIODS|
    ensures Replay(book, ops + OpsOf(sub)[..n]) == Written(book(sub.mode), Replay(book, ops), sub, n)
  {
    var all := ops + OpsOf(sub)[..n];
    if n == 0 {
      assert all == ops;
    } else {
      ReplayWrites(book, ops, sub, n - 1);
      assert all[..|all| - 1] == ops + OpsOf(sub)[..n - 1];
      assert all[|all| - 1] == Op(KeyOf(sub, PERIODS[n - 1]), sub);
    }
  }

  /** One more submission is one more `_apply_score_write`. */
  lemma SettledGrows(book: Rulebook, subs: seq<Submission>, sub: Submission)
    ensures Settled(book, subs + [sub]) == Written(book(sub.mode), Settled(book, subs), sub, |PERIODS|)
  {
    assert (subs + [sub])[..|subs|] == subs;
    assert OpsOf(sub)[..|PERIODS|] == OpsOf(sub);
    ReplayWrites(book, AllOps(subs), sub, |PERIODS|);
  }

  /** The submissions that fall in one bucket. */
  function Bucket(subs: seq<Submission>, k: Key): seq<Submission> {
    if subs == [] then []
    else
      var last := subs[|subs| - 1];
      Bucket(subs[..|subs| - 1], k) + if KeyOf(last, k.period) == k then [last] else []
  }

  lemma HitsGrow(ops: seq<Op>, op: Op, k: Key)
    ensures Hits(ops + [op], k) == Hits(ops, k) + if op.key == k then [op.sub] else []
  {
    var more := ops + [op];
    assert more[..|more| - 1] == ops && more[|more| - 1] == op;
  }

  lemma HitsOfOne(ops: seq<Op>, sub: Submission, k: Key)
    ensures Hits(ops + OpsOf(sub), k) == Hits(ops, k) + if KeyOf(sub, k.period) == k then [sub] else []
  {
    var a := Op(KeyOf(sub, AllTime), sub);
    var b := Op(KeyOf(sub, Daily), sub);
    var c := Op(KeyOf(sub, Weekly), sub);
    assert ops + OpsOf(sub) == ops + [a] + [b] + [c];
    HitsGrow(ops, a, k);
    HitsGrow(ops + [a], b, k);
    HitsGrow(ops + [a] + [b], c, k);
  }

  /** Every row is built from exactly the submissions of its bucket, in commit order. */
  lemma {:induction false} RowIsBucket(book: Rulebook, subs: seq<Submission>, k: Key)
    ensures Hits(AllOps(subs), k) == Bucket(subs, k)
    ensures Lookup(Settled(book, subs), k) == RowOf(book(k.mode), Bucket(subs, k))
  {
    if subs != [] {
      RowIsBucket(book, subs[..|subs| - 1], k);
      HitsOfOne(AllOps(subs[..|subs| - 1]), subs[|subs| - 1], k);
    }
    RowsAreIndependent(book, AllOps(subs), k);
  }

  // ------------------------------------------------------------ the windows

  function ScoreAt(table: Table, k: Key): int {
    if k in table then table[k].score else 0
  }

  /** In a cumulative mode every bucket is the sum of the increments of its window. */
  lemma CumulativeBucket(book: Rulebook, subs: seq<Submission>, k: Key)
    requires book(k.mode).strategy == Cumulative
    ensures ScoreAt(Settled(book, subs), k) == Sum(Bucket(subs, k))
    ensures k in Settled(book, subs) <==> Bucket(subs, k) != []
  {
    RowIsBucket(book, subs, k);
    if Bucket(subs, k) != [] { CumulativeIsSum(book(k.mode).order, Bucket(subs, k)); }
  }

  /** In a best-score mode every bucket is the best of its window, first come first kept. */
  lemma BestBucket(book: Rulebook, subs: seq<Submission>, k: Key) returns (i: nat)
    requires book(k.mode).strategy == Best && k in Settled(book, subs)
    ensures FirstBest(book(k.mode).order, Bucket(subs, k), i)
    ensures var first := Bucket(subs, k)[i];
            Settled(book, subs)[k]
            == Row(first.score, if i == 0 then first.now else first.stamp, first.run, first.tier)
  {
    RowIsBucket(book, subs, k);
    i := BestIsFirstBest(book(k.mode).order, Bucket(subs, k));
  }

  function DayKey(user: nat, mode: string, week: nat, d: nat): Key {
    Key(user, mode, Daily, week * WEEK + d * DAY)
  }

  function WeekKey(user: nat, mode: string, week: nat): Key {
    Key(user, mode, Weekly, week * WEEK)
  }

  /** The sum of the first `n` daily buckets of a week. */
  function DaysTotal(table: Table, user: nat, mode: string, week: nat, n: nat): int {
    if n == 0 then 0
    else DaysTotal(table, user, mode, week, n - 1) + ScoreAt(table, DayKey(user, mode, week, n - 1))
  }

  /** The sum of the weekly buckets of the first `n` weeks. */
  function WeeksTotal(table: Table, user: nat, mode: string, n: nat): int {
    if n == 0 then 0
    else WeeksTotal(table, user, mode, n - 1) + ScoreAt(table, WeekKey(user, mode, n - 1))
  }

  /** What one submission adds to one bucket. */
  function Share(sub: Submission, k: Key): int {
    if KeyOf(sub, k.period) == k then sub.score else 0
  }

  lemma BucketGrows(book: Rulebook, subs: seq<Submission>, sub: Submission, k: Key)
    requires book(k.mode).strategy == Cumulative
    ensures ScoreAt(Settled(book, subs + [sub]), k) == ScoreAt(Settled(book, subs), k) + Share(sub, k)
  {
    CumulativeBucket(book, subs, k);
    CumulativeBucket(book, subs + [sub], k);
    var more := subs + [sub];
    assert more[..|more| - 1] == subs && more[|more| - 1] == sub;
    if KeyOf(sub, k.period) == k {
      var bucket := Bucket(more, k);
      assert bucket == Bucket(subs, k) + [sub];
      assert bucket[..|bucket| - 1] == Bucket(subs, k);
    } else {
      assert Bucket(more, k) == Bucket(subs, k);
    }
  }

  function DayShares(sub: Submission, user: nat, mode: string, week: nat, n: nat): int {
    if n == 0 then 0 else DayShares(sub, user, mode, week, n - 1) + Share(sub, DayKey(user, mode, week, n - 1))
  }

  /** A submission lands in one day of its own week and in no day of any other. */
  lemma {:induction false} OneDay(sub: Submission, user: nat, mode: string, week: nat, n: nat)
    requires n <= 7
    ensures DayShares(sub, user, mode, week, n)
            == if Weekday(sub.now) < n then Share(sub, WeekKey(user, mode, week)) else 0
  {
    if n > 0 {
      OneDay(sub, user, mode, week, n - 1);
      DaysTileWeek(sub.now, week, n - 1);
      WeekStartsMonday(sub.now);
      MultiplesApart(sub.now / WEEK, week, WEEK);
      MultiplesApart(week, sub.now / WEEK, WEEK);
    }
  }

  lemma {:induction false} DaysGrow(book: Rulebook, subs: seq<Submission>, sub: Submission, user: nat,
      mode: string, week: nat, n: nat)
    requires book(mode).strategy == Cumulative
    ensures DaysTotal(Settled(book, subs + [sub]), user, mode, week, n)
            == DaysTotal(Settled(book, subs), user, mode, week, n) + DayShares(sub, user, mode, week, n)
  {
    if n > 0 {
      DaysGrow(book, subs, sub, user, mode, week, n - 1);
      BucketGrows(book, subs, sub, DayKey(user, mode, week, n - 1));
    }
  }

  lemma {:induction false} EmptyDays(user: nat, mode: string, week: nat, n: nat)
    ensures DaysTotal(map[], user, mode, week, n) == 0
  {
    if n > 0 { EmptyDays(user, mode, week, n - 1); }
  }

  /** The seven daily buckets of a week sum to its weekly bucket. */
  lemma {:induction false} DaysSumToWeek(book: Rulebook, subs: seq<Submission>, user: nat, mode: string, week: nat)
    requires book(mode).strategy == Cumulative
    ensures DaysTotal(Settled(book, subs), user, mode, week, 7)
            == ScoreAt(Settled(book, subs), WeekKey(user, mode, week))
  {
    if subs == [] {
      EmptyDays(user, mode, week, 7);
    } else {
      var before, sub := subs[..|subs| - 1], subs[|subs| - 1];
      assert subs == before + [sub];
      DaysSumToWeek(book, before, user, mode, week);
      DaysGrow(book, before, sub, user, mode, week, 7);
      BucketGrows(book, before, sub, WeekKey(user, mode, week));
      OneDay(sub, user, mode, week, 7);
      assert Weekday(sub.now) < 7;
    }
  }

  function WeekShares(sub: Submission, user: nat, mode: string, n: nat): int {
    if n == 0 then 0 else WeekShares(sub, user, mode, n - 1) + Share(sub, WeekKey(user, mode, n - 1))
  }

  lemma {:induction false} OneWeek(sub: Submission, user: nat, mode: string, n: nat)
    ensures WeekShares(sub, user, mode, n)
            == if sub.now / WEEK < n then Share(sub, Key(user, mode, AllTime, SENTINEL)) else 0
  {
    if n > 0 {
      OneWeek(sub, user, mode, n - 1);
      WeekStartsMonday(sub.now);
      MultiplesApart(sub.now / WEEK, n - 1, WEEK);
      MultiplesApart(n - 1, sub.now / WEEK, WEEK);
    }
  }

  lemma {:induction false} WeeksGrow(book: Rulebook, subs: seq<Submission>, sub: Submission, user: nat,
      mode: string, n: nat)
    requires book(mode).strategy == Cumulative
    ensures WeeksTotal(Settled(book, subs + [sub]), user, mode, n)
            == WeeksTotal(Settled(book, subs), user, mode, n) + WeekShares(sub, user, mode, n)
  {
    if n > 0 {
      WeeksGrow(book, subs, sub, user, mode, n - 1);
      BucketGrows(book, subs, sub, WeekKey(user, mode, n - 1));
    }
  }

  lemma {:induction false} EmptyWeeks(user: nat, mode: string, n: nat)
    ensures WeeksTotal(map[], user, mode, n) == 0
  {
    if n > 0 { EmptyWeeks(user, mode, n - 1); }
  }

  /** All weekly buckets sum to the all-time bucket. */
  lemma {:induction false} WeeksSumToAllTime(book: Rulebook, subs: seq<Submission>, user: nat, mode: string, n: nat)
    requires book(mode).strategy == Cumulative
    requires forall sub :: sub in subs ==> sub.now / WEEK < n
    ensures WeeksTotal(Settled(book, subs), user, mode, n)
            == ScoreAt(Settled(book, subs), Key(user, mode, AllTime, SENTINEL))
  {
    if subs == [] {
      EmptyWeeks(user, mode, n);
    } else {
      var before, sub := subs[..|subs| - 1], subs[|subs| - 1];
      assert subs == before + [sub];
      WeeksSumToAllTime(book, before, user, mode, n);
      WeeksGrow(book, before, sub, user, mode, n);
      BucketGrows(book, before, sub, Key(user, mode, AllTime, SENTINEL));
      OneWeek(sub, user, mode, n);
    }
  }
}
