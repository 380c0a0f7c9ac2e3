/**
  What the tables say about the requests served so far, in the order they committed.
 */
module SubmissionLaws {
  import opened Wrappers
  import opened Periods
  import opened Scores
  import opened ScoreLaws
  import opened Validation
  import opened Submissions

  /** The request writes its score. */
  predicate Writes(cfg: Config, db: Db, job: Job) {
    RefusalOf(cfg, job.request).None? && !Taken(db, TicketOf(cfg, job.request)) && !Unfit(cfg, job)
  }

  /** The accepted submissions, in commit order. */
  function Applied(cfg: Config, jobs: seq<Job>): seq<Submission> {
    if jobs == [] then []
    else
      var before, last := jobs[..|jobs| - 1], jobs[|jobs| - 1];
      Applied(cfg, before) + if Writes(cfg, ServeAll(cfg, before), last) then [SubmissionOf(cfg, last)] else []
  }

  /** The accepted submissions that carried one ticket. */
  function AppliedUnder(cfg: Config, jobs: seq<Job>, ticket: Ticket): seq<Submission> {
    if jobs == [] then []
    else
      var before, last := jobs[..|jobs| - 1], jobs[|jobs| - 1];
      AppliedUnder(cfg, before, ticket)
      + if Writes(cfg, ServeAll(cfg, before), last) && TicketOf(cfg, last.request) == ticket
        then [SubmissionOf(cfg, last)] else []
  }

  /** The score table is exactly what the accepted submissions settle to. */
  lemma {:induction false} ScoresSettle(cfg: Config, jobs: seq<Job>)
    ensures ServeAll(cfg, jobs).scores == Settled(Book(cfg), Applied(cfg, jobs))
  {
    if jobs != [] {
      var before, last := jobs[..|jobs| - 1], jobs[|jobs| - 1];
      ScoresSettle(cfg, before);
      SettledGrows(Book(cfg), Applied(cfg, before), SubmissionOf(cfg, last));
      assert SubmissionOf(cfg, last).mode == last.request.mode;
      assert Applied(cfg, before) + [] == Applied(cfg, before);
      hide Settled, SubmissionOf, Written, Taken, RefusalOf, Unfit;
    }
  }

  /** Each idempotency key counts once, and only if it was recorded. */
  lemma {:induction false} MarkersCountOnce(cfg: Config, jobs: seq<Job>, marker: Marker)
    ensures |AppliedUnder(cfg, jobs, ByMarker(marker))| == if marker in ServeAll(cfg, jobs).markers then 1 else 0
  {
    if jobs != [] {
      var before, last := jobs[..|jobs| - 1], jobs[|jobs| - 1];
      MarkersCountOnce(cfg, before, marker);
      hide SubmissionOf, Written, RefusalOf, RecordRun;
    }
  }

  /** The submission of an accepted run carries that run's id, canonical score and tier. */
  predicate Carries(sub: Submission, key: RunKey, row: RunRow) {
    && sub.user == key.user && sub.mode == key.mode && sub.run == Some(row.id)
    && row.canonicalScore == Some(sub.score) && row.tier == Some(sub.tier)
  }

  /**
    No committed run is pending. An accepted run was applied to the ledger exactly once,
    with its canonical score; a denied run, or one never recorded, not at all.
   */
  lemma {:induction false} RunsCountOnce(cfg: Config, jobs: seq<Job>, key: RunKey)
    ensures var runs := ServeAll(cfg, jobs).runs;
            var applied := AppliedUnder(cfg, jobs, ByRun(key));
            if key in runs && runs[key].status == Accepted then |applied| == 1 && Carries(applied[0], key, runs[key])
            else applied == [] && (key in runs ==> runs[key].status == Denied)
  {
    if jobs != [] {
      var before, last := jobs[..|jobs| - 1], jobs[|jobs| - 1];
      RunsCountOnce(cfg, before, key);
      var r := last.request;
      if r.PostRun? && RunKey(r.user, r.mode, r.clientRunId) == key {
        assert SubmissionOf(cfg, last).run == Some(last.runId);
      }
      hide Written, RefusalOf, Validate;
    }
  }

  /** What every accepted submission satisfies. */
  predicate WithinMode(cfg: Config, sub: Submission) {
    && sub.mode in cfg.modes
    && sub.tier >= ModeOf(cfg, sub.mode).requiredTier
    && sub.score <= Ceiling(cfg, sub.mode)
    && (sub.run.Some? <==> ModeOf(cfg, sub.mode).requiredTier >= 1)
  }

  lemma WritesWithinMode(cfg: Config, db: Db, job: Job)
    requires Writes(cfg, db, job)
    ensures WithinMode(cfg, SubmissionOf(cfg, job))
  {
    if job.request.PostRun? {
      var mode := ModeOf(cfg, job.request.mode);
      ValidatedExactly(cfg.scorers, RecordOf(job), mode.requiredTier, ModeBounds(mode.maxScore, 0, None));
    }
  }

  /** Every accepted submission reached its mode's required tier and stayed under its ceiling. */
  lemma {:induction false} AppliedWithinMode(cfg: Config, jobs: seq<Job>)
    ensures forall sub :: sub in Applied(cfg, jobs) ==> WithinMode(cfg, sub)
  {
    if jobs != [] {
      var before, last := jobs[..|jobs| - 1], jobs[|jobs| - 1];
      AppliedWithinMode(cfg, before);
      if Writes(cfg, ServeAll(cfg, before), last) { WritesWithinMode(cfg, ServeAll(cfg, before), last); }
      hide *;
      AppliedGrows(cfg, jobs);
    }
  }

  lemma AppliedGrows(cfg: Config, jobs: seq<Job>)
    requires jobs != []
    ensures var before, last := jobs[..|jobs| - 1], jobs[|jobs| - 1];
            Applied(cfg, jobs)
            == Applied(cfg, before)
               + if Writes(cfg, ServeAll(cfg, before), last) then [SubmissionOf(cfg, last)] else []
  {
  }

  lemma {:induction false} UnderIsApplied(cfg: Config, jobs: seq<Job>, ticket: Ticket)
    ensures forall sub :: sub in AppliedUnder(cfg, jobs, ticket) ==> sub in Applied(cfg, jobs)
  {
    if jobs != [] {
      UnderIsApplied(cfg, jobs[..|jobs| - 1], ticket);
      hide ServeAll, Writes, TicketOf, SubmissionOf;
    }
  }

  lemma {:induction false} AppliedHasRow(book: Rulebook, subs: seq<Submission>, sub: Submission, period: Period)
    requires sub in subs
    ensures KeyOf(sub, period) in Settled(book, subs)
  {
    RowIsBucket(book, subs, KeyOf(sub, period));
    InBucket(subs, sub, KeyOf(sub, period));
  }

  lemma {:induction false} InBucket(subs: seq<Submission>, sub: Submission, k: Key)
    requires sub in subs && KeyOf(sub, k.period) == k
    ensures sub in Bucket(subs, k)
  {
    var before, last := subs[..|subs| - 1], subs[|subs| - 1];
    if last != sub {
      assert sub in before;
      InBucket(before, sub, k);
    }
  }

  /** A player whose run was accepted always has an all-time standing in its mode. */
  lemma AcceptedRunHasStanding(cfg: Config, jobs: seq<Job>, key: RunKey)
    requires var runs := ServeAll(cfg, jobs).runs; key in runs && runs[key].status == Accepted
    ensures Key(key.user, key.mode, AllTime, SENTINEL) in ServeAll(cfg, jobs).scores
  {
    RunsCountOnce(cfg, jobs, key);
    var sub := AppliedUnder(cfg, jobs, ByRun(key))[0];
    UnderIsApplied(cfg, jobs, ByRun(key));
    ScoresSettle(cfg, jobs);
    AppliedHasRow(Book(cfg), Applied(cfg, jobs), sub, AllTime);
  }

  /** Sending a request again, or another with the same ticket, changes nothing. */
  lemma RetryChangesNothing(cfg: Config, db: Db, first: Job, again: Job)
    requires RefusalOf(cfg, first.request).None?
    requires TicketOf(cfg, first.request) == TicketOf(cfg, again.request) != NoTicket
    ensures Serve(cfg, Serve(cfg, db, first).db, again).db == Serve(cfg, db, first).db
    ensures Serve(cfg, Serve(cfg, db, first).db, again).reply.Prior?
            ==> Serve(cfg, Serve(cfg, db, first).db, again).reply.status
                == Serve(cfg, db, first).db.runs[TicketOf(cfg, first.request).key].status
  {
  }
}
