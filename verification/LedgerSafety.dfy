/**
  What holds after any interleaving of score and run submissions.
 */
module LedgerSafety {
  import opened Periods
  import opened Scores
  import opened ScoreLaws
  import opened Submissions
  import opened SubmissionLaws
  import opened Interleaving

  /** The submissions accepted in a run, in commit order. */
  function AcceptedIn(cfg: Config, events: seq<Event>): seq<Submission> {
    Applied(cfg, Run(cfg, events).history)
  }

  /** The submissions accepted in a run that carried one ticket. */
  function AcceptedUnder(cfg: Config, events: seq<Event>, ticket: Ticket): seq<Submission> {
    AppliedUnder(cfg, Run(cfg, events).history, ticket)
  }

  /** The committed score table is what the accepted submissions settle to. */
  lemma TableIsSettled(cfg: Config, events: seq<Event>)
    ensures Run(cfg, events).db.scores == Settled(Book(cfg), AcceptedIn(cfg, events))
  {
    RunKeepsInv(cfg, events);
    ScoresSettle(cfg, Run(cfg, events).history);
  }

  /** No run is pending; an accepted run was applied exactly once, any other not at all. */
  lemma RunsAppliedOnce(cfg: Config, events: seq<Event>, key: RunKey)
    ensures var runs := Run(cfg, events).db.runs;
            var applied := AcceptedUnder(cfg, events, ByRun(key));
            if key in runs && runs[key].status == Accepted then |applied| == 1 && Carries(applied[0], key, runs[key])
            else applied == [] && (key in runs ==> runs[key].status == Denied)
  {
    RunKeepsInv(cfg, events);
    RunsCountOnce(cfg, Run(cfg, events).history, key);
    hide *;
    AcceptedUnderIs(cfg, events, ByRun(key));
  }

  lemma AcceptedUnderIs(cfg: Config, events: seq<Event>, ticket: Ticket)
    ensures AcceptedUnder(cfg, events, ticket) == AppliedUnder(cfg, Run(cfg, events).history, ticket)
  {
  }

  /** Each idempotency key was applied exactly once if it is recorded, and not at all otherwise. */
  lemma MarkersAppliedOnce(cfg: Config, events: seq<Event>, marker: Marker)
    ensures |AcceptedUnder(cfg, events, ByMarker(marker))|
            == if marker in Run(cfg, events).db.markers then 1 else 0
  {
    RunKeepsInv(cfg, events);
    MarkersCountOnce(cfg, Run(cfg, events).history, marker);
  }

  /** Every accepted submission reached its mode's tier and stayed under its ceiling. */
  lemma AcceptedWithinMode(cfg: Config, events: seq<Event>)
    ensures forall sub :: sub in AcceptedIn(cfg, events) ==> WithinMode(cfg, sub)
  {
    AppliedWithinMode(cfg, Run(cfg, events).history);
  }

  /**
    In a cumulative mode each bucket is the sum of what its window accepted, the days of a
    week add up to the week, and the weeks to the all-time bucket.
   */
  lemma CumulativeBoards(cfg: Config, events: seq<Event>, user: nat, mode: string, week: nat, weeks: nat, k: Key)
    requires Book(cfg)(mode).strategy == Cumulative && k.mode == mode
    ensures var table := Run(cfg, events).db.scores;
            && ScoreAt(table, k) == Sum(Bucket(AcceptedIn(cfg, events), k))
            && DaysTotal(table, user, mode, week, 7) == ScoreAt(table, WeekKey(user, mode, week))
    ensures (forall sub :: sub in AcceptedIn(cfg, events) ==> sub.now / WEEK < weeks) ==>
              var table := Run(cfg, events).db.scores;
              WeeksTotal(table, user, mode, weeks) == ScoreAt(table, Key(user, mode, AllTime, SENTINEL))
  {
    var subs := AcceptedIn(cfg, events);
    TableIsSettled(cfg, events);
    CumulativeBucket(Book(cfg), subs, k);
    DaysSumToWeek(Book(cfg), subs, user, mode, week);
    if forall sub :: sub in subs ==> sub.now / WEEK < weeks {
      WeeksSumToAllTime(Book(cfg), subs, user, mode, weeks);
    }
    hide *;
  }

  /** In a best-score mode each bucket holds its window's best, as first reached. */
  lemma BestBoards(cfg: Config, events: seq<Event>, k: Key) returns (i: nat)
    requires Book(cfg)(k.mode).strategy == Best && k in Run(cfg, events).db.scores
    ensures FirstBest(Book(cfg)(k.mode).order, Bucket(AcceptedIn(cfg, events), k), i)
    ensures var first := Bucket(AcceptedIn(cfg, events), k)[i];
            Run(cfg, events).db.scores[k]
            == Row(first.score, if i == 0 then first.now else first.stamp, first.run, first.tier)
  {
    TableIsSettled(cfg, events);
    i := BestBucket(Book(cfg), AcceptedIn(cfg, events), k);
  }

  // ----------------------------------------------------------------- answers

  /**
    An answer of success means the submission was accepted, and if the request is repeatable
    that it was applied exactly once, ever; a denied run was never applied; and no client is
    ever told its run is still pending.
   */
  lemma AnswersAreTrue(cfg: Config, events: seq<Event>, t: nat)
    requires t in Run(cfg, events).answers
    ensures var answer := Run(cfg, events).answers[t];
            var ticket := TicketOf(cfg, answer.job.request);
            && (answer.reply == Stored ==>
                  if ticket == NoTicket then SubmissionOf(cfg, answer.job) in AcceptedIn(cfg, events)
                  else |AcceptedUnder(cfg, events, ticket)| == 1)
            && (answer.reply in {Refused(RunDenied), Prior(Denied)} ==> AcceptedUnder(cfg, events, ticket) == [])
            && answer.reply != Prior(Pending)
            && (answer.reply == Prior(Accepted) ==> |AcceptedUnder(cfg, events, ticket)| == 1)
  {
    RunKeepsInv(cfg, events);
    var answer := Run(cfg, events).answers[t];
    assert AnswerOk(cfg, Run(cfg, events).db, answer);
    var ticket := TicketOf(cfg, answer.job.request);
    if ticket.ByRun? { RunsAppliedOnce(cfg, events, ticket.key); }
    if ticket.ByMarker? { MarkersAppliedOnce(cfg, events, ticket.marker); }
    StoredIsAccepted(cfg, events);
    hide SubmissionOf, AcceptedUnder, Run, TicketOf, Inv, Carries;
  }

  /** The answers of success given to requests that nothing makes repeatable. */
  ghost predicate PlainStored(cfg: Config, s: State) {
    forall t :: t in s.answers && s.answers[t].reply == Stored
                && TicketOf(cfg, s.answers[t].job.request) == NoTicket ==>
                  SubmissionOf(cfg, s.answers[t].job) in Applied(cfg, s.history)
  }

  lemma CommitIsApplied(cfg: Config, s: State, t: nat)
    requires Inv(cfg, s) && t in s.txns && s.txns[t].phase == Writing && |s.txns[t].rows| == |PERIODS|
    ensures var history := Commit(cfg, s, t).history;
            history == s.history + [s.txns[t].job]
            && Applied(cfg, history) == Applied(cfg, s.history) + [SubmissionOf(cfg, s.txns[t].job)]
  {
    var txn, history := s.txns[t], s.history + [s.txns[t].job];
    assert TxnOk(cfg, s.db, txn);
    assert HeldTicket(cfg, txn) == TicketOf(cfg, txn.job.request);
    AppliedGrows(cfg, history);
    assert history[..|history| - 1] == s.history;
    hide TxnOk, RefusalOf, Taken, Unfit, CommitDb, SubmissionOf, Applied;
  }

  lemma DenialKeepsApplied(cfg: Config, s: State, t: nat)
    requires Inv(cfg, s) && t in s.txns && s.txns[t].phase == Denying
    ensures |s.txns[t].rows| <= |PERIODS|
    ensures Applied(cfg, Commit(cfg, s, t).history) == Applied(cfg, s.history)
  {
    var txn, history := s.txns[t], s.history + [s.txns[t].job];
    assert TxnOk(cfg, s.db, txn);
    AppliedGrows(cfg, history);
    assert history[..|history| - 1] == s.history;
    hide TxnOk, RefusalOf, Taken, Unfit, CommitDb, SubmissionOf, Applied;
  }

  lemma NextKeepsPlainStored(cfg: Config, s: State, event: Event)
    requires Inv(cfg, s) && PlainStored(cfg, s)
    ensures PlainStored(cfg, Next(cfg, s, event))
  {
    hide Applied, SubmissionOf, CommitDb, RefusalOf, Unfit, UpsertRow, TicketHeld, RowLocked;
    if event.Advance? && event.txn in s.txns {
      var t := event.txn;
      var txn := s.txns[t];
      assert TxnOk(cfg, s.db, txn);
      if txn.phase == Writing && |txn.rows| == |PERIODS| {
        CommitIsApplied(cfg, s, t);
      } else if txn.phase == Denying {
        DenialKeepsApplied(cfg, s, t);
      }
    }
    hide Inv, TxnOk;
  }

  /** A success answered in a best-score raw mode means the submission was accepted. */
  lemma {:induction false} StoredIsAccepted(cfg: Config, events: seq<Event>)
    ensures PlainStored(cfg, Run(cfg, events))
  {
    if events != [] {
      StoredIsAccepted(cfg, events[..|events| - 1]);
      RunKeepsInv(cfg, events[..|events| - 1]);
      NextKeepsPlainStored(cfg, Run(cfg, events[..|events| - 1]), events[|events| - 1]);
      hide PlainStored, Inv;
    }
  }

  /** Whoever has an accepted run has an all-time standing, so the lookups after it never miss. */
  lemma StandingExists(cfg: Config, events: seq<Event>, key: RunKey)
    requires key in Run(cfg, events).db.runs && Run(cfg, events).db.runs[key].status == Accepted
    ensures Key(key.user, key.mode, AllTime, SENTINEL) in Run(cfg, events).db.scores
  {
    RunKeepsInv(cfg, events);
    AcceptedRunHasStanding(cfg, Run(cfg, events).history, key);
  }

  // ---------------------------------------------------------------- progress

  /** A transaction past its first upsert is never blocked: the all-time row keeps all others of its board out. */
  lemma FirstRowGuardsTheRest(cfg: Config, s: State, t: nat)
    requires Inv(cfg, s) && t in s.txns && 0 < |s.txns[t].rows| < |PERIODS|
    ensures !RowLocked(s, RowKey(s.txns[t].job, PERIODS[|s.txns[t].rows|]))
  {
    var txn := s.txns[t];
    var key := RowKey(txn.job, PERIODS[|txn.rows|]);
    forall u | u in s.txns ensures !Locks(s.txns[u], key) {
      if u != t {
        var other := s.txns[u];
        assert Apart(cfg, txn, other);
        var guard := RowKey(txn.job, AllTime);
        assert Locks(txn, guard);
        assert Locks(other, key) ==> Locks(other, guard);
      }
    }
  }

  /** The next statement of `t` waits for `u` to end: `u` holds its ticket, or has locked its row. */
  predicate WaitsFor(cfg: Config, s: State, t: nat, u: nat) {
    && t in s.txns && u in s.txns
    && var me, ticket := s.txns[t], TicketOf(cfg, s.txns[t].job.request);
       || (me.phase == Checked && ticket != NoTicket && HeldTicket(cfg, s.txns[u]) == ticket)
       || (me.phase == Writing && |me.rows| < |PERIODS|
           && Locks(s.txns[u], RowKey(me.job, PERIODS[|me.rows|])))
  }

  /** A transaction cannot take its next step exactly when it waits for another. */
  lemma BlockedExactly(cfg: Config, s: State, t: nat)
    requires Inv(cfg, s) && t in s.txns
    ensures Next(cfg, s, Advance(t)) == s <==> exists u :: WaitsFor(cfg, s, t, u)
  {
    var me, next := s.txns[t], Next(cfg, s, Advance(t));
    assert TxnOk(cfg, s.db, me);
    hide Taken, RefusalOf, Unfit, Repeat, UpsertRow, SubmissionOf, CommitDb, Inv, TxnOk;
    if me.phase == Checked {
      var ticket := TicketOf(cfg, me.job.request);
      if TicketHeld(cfg, s, ticket) {
        var u :| u in s.txns && HeldTicket(cfg, s.txns[u]) == ticket;
        assert WaitsFor(cfg, s, t, u);
      } else {
        assert t in next.txns ==> next.txns[t].phase == Claimed;
      }
    } else if me.phase == Writing && |me.rows| < |PERIODS| {
      var key := RowKey(me.job, PERIODS[|me.rows|]);
      if RowLocked(s, key) {
        var u :| u in s.txns && Locks(s.txns[u], key);
        assert WaitsFor(cfg, s, t, u);
      } else {
        assert |next.txns[t].rows| == |me.rows| + 1;
      }
    } else {
      assert t in next.txns ==> next.txns[t].phase != me.phase;
    }
  }

  /** How far a transaction has come with what others may want: nothing, its ticket, its first row. */
  function Grip(txn: Txn): nat {
    if txn.rows != [] then 2 else if Holds(txn) then 1 else 0
  }

  /** Waiting always looks up: whoever is waited for has come further. */
  lemma WaitsUpward(cfg: Config, s: State, t: nat, u: nat)
    requires Inv(cfg, s)
    ensures WaitsFor(cfg, s, t, u) ==> Grip(s.txns[t]) < Grip(s.txns[u])
  {
    if t in s.txns && u in s.txns {
      assert TxnOk(cfg, s.db, s.txns[t]);
      if 0 < |s.txns[t].rows| < |PERIODS| { FirstRowGuardsTheRest(cfg, s, t); }
      hide Inv, TxnOk;
    }
  }

  /** No deadlock: in no nonempty set of transactions does each wait for another of the set. */
  lemma NoWaitingCircle(cfg: Config, events: seq<Event>, group: set<nat>) returns (t: nat)
    requires group != {} && group <= Run(cfg, events).txns.Keys
    ensures t in group && forall u :: u in group ==> !WaitsFor(cfg, Run(cfg, events), t, u)
  {
    RunKeepsInv(cfg, events);
    var s := Run(cfg, events);
    if u :| u in group && Grip(s.txns[u]) == 2 {
      t := u;
    } else if u :| u in group && Grip(s.txns[u]) == 1 {
      t := u;
    } else {
      t :| t in group;
    }
    forall u | u in group ensures !WaitsFor(cfg, s, t, u) { WaitsUpward(cfg, s, t, u); }
    hide WaitsFor, Inv;
  }

  /** While a transaction is in flight, one of them can take its next step. */
  lemma SomeoneAdvances(cfg: Config, events: seq<Event>) returns (t: nat)
    requires Run(cfg, events).txns != map[]
    ensures t in Run(cfg, events).txns
    ensures Run(cfg, events + [Advance(t)]) != Run(cfg, events)
  {
    var s := Run(cfg, events);
    assert s.txns.Keys != {};
    t := NoWaitingCircle(cfg, events, s.txns.Keys);
    assert forall u :: WaitsFor(cfg, s, t, u) ==> u in s.txns;
    RunKeepsInv(cfg, events);
    BlockedExactly(cfg, s, t);
    RunGrows(cfg, events, Advance(t));
    hide WaitsFor, Inv, Next, Run;
  }

  lemma RunGrows(cfg: Config, events: seq<Event>, event: Event)
    ensures Run(cfg, events + [event]) == Next(cfg, Run(cfg, events), event)
  {
    assert (events + [event])[..|events|] == events;
  }
}
